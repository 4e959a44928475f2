# Collection generator, modelled in Dafny

`generate.py` turns a CSV table of trait assignments, a JSON metadata
template and a directory of image assets into numbered NFT items: for each
row it picks, without replacement, it copies the row's asset to `<i>.png`
and writes `<i>.json`, the template with its `name`, `image`, `attributes`
and `properties.files[0].uri` rewritten. Before that it checks its inputs
and, when the target directory already exists, asks the user for
confirmation with `query_yes_no`.

This project models:

- `wrappers.dfy` (`Wrappers`): Option and Result values.
- `decimal.dfy` (`Decimal`): the decimal text Python writes for an index
  (`'{}'.format(i)`) and a parser that reads it back.
- `yes_no.dfy` (`YesNo`): `query_yes_no`. `Decide` is the decision for one
  reply line. `Ask` is the re-prompt loop over reply lines supplied by the
  caller, with Python's `EOFError` when they run out.
- `sampling.dfy` (`Sampling`): popping the row at a drawn index from a
  shrinking list. `Drawn` and `Remaining` give the rows drawn so far and the
  rows left.
- `records.dfy` (`Records`): the attribute list zipped from the header and a
  row, the output file names, the display name, and the rewritten copy of
  the template.
- `generator.dfy` (`Generator`): `generate`. `Generate` makes the input
  checks and the prompt, in the source's order. `Produce` is the generation
  loop. The random index `randrange(0, count)` is a caller-supplied sequence
  `choices`, where `choices[i]` must lie below the number of rows left at
  iteration `i`. The filesystem is an `Env` record: existence flags, the set
  of asset names whose path joined to the asset directory is a file, and the reply lines typed at the prompt. The
  output is a log of `Item`s, the `created` flag for `os.mkdir`, and a `Stop`
  value saying how the run ended.

Two behaviours of the code worth noting:

- The emptiness check runs before the header row is removed
  (generate.py:58-61). A header-only CSV passes the check, gives `count = 0`
  and produces no item. It does not stop with "The metadata csv file is
  empty."
- A data row shorter than the header does not give a truncated attribute
  list. The list comprehension indexes past the row's end and raises
  `IndexError`, after the row's asset has already been copied
  (generate.py:95-102). The model stops with `ShortRow`. An empty row
  (a blank CSV line) or an empty header fails earlier, at `pop(0)`
  (`EmptyRow`, `HeaderWithoutColumns`). Rows longer than the header have
  their extra values dropped.

## Model

| member | source | states |
|---|---|---|
| Decimal.Format | generate.py:90 | the index is written as canonical decimal text: at least one digit, no leading zero, and a text starting with 0 is exactly "0", the text of index 0 |
| Decimal.ParseFormat | generate.py:90 | reading the decimal text of an index back gives the index |
| Decimal.FormatParse | generate.py:90 | canonical decimal text (no leading zero unless it is "0") is the text of the number it denotes, so names with the same index are the same name |
| Decimal.FormatInjective | generate.py:112 | two indices have the same decimal text exactly when they are equal |
| YesNo.Lower | generate.py:37 | the reply is lower-cased character by character and keeps its length |
| YesNo.Decide | generate.py:25-43 | a default other than "yes", "no" or None is a ValueError with its message; otherwise yes/y/ye answer True and no/n answer False, the empty reply answers the default when there is one, and every other reply re-prompts |
| YesNo.FirstAnswer | generate.py:35-43 | the answer the re-prompt loop settles on: none for an invalid default or when every reply re-prompts, otherwise the decision of some reply k with every reply before k re-prompting |
| YesNo.Ask | generate.py:35-43 | the answer is the decision of the first reply that decides (`FirstAnswer`), every earlier reply re-prompted, and only an invalid default fails before anything is read; running out of replies means that every reply re-prompted |
| YesNo.DecideIgnoresCase | generate.py:37-41 | a reply and its lower-cased form get the same decision |
| Sampling.RemoveAt | generate.py:87 | popping index k removes exactly one element and keeps the others in their order |
| Sampling.Remaining | generate.py:84-87 | after i draws the pool has exactly i fewer elements |
| Sampling.Drawn | generate.py:85-87 | the run draws one row per choice |
| Sampling.RemoveAtMultiset | generate.py:87 | the popped element plus the remaining list is the list before the pop |
| Sampling.DrawnAndRemaining | generate.py:84-119 | the rows drawn plus the rows left are the original rows, as a multiset |
| Sampling.DrawnIsSubMultiset | generate.py:84-119 | no row is used more than once, and drawing as many times as there are rows uses every row |
| Sampling.DrawnFromPool | generate.py:87 | every drawn row is one of the input rows |
| Sampling.DrawStep | generate.py:85-87 | one more draw appends the element at the chosen index of the remaining pool and removes it from the pool |
| Records.Zip | generate.py:102 | the attribute list has one entry per trait type, entry i pairing trait type i with value i |
| Records.ZipKeepsTraitTypes | generate.py:102 | the attribute list's trait types are the header's trait types in header order |
| Records.ZipKeepsTraitValues | generate.py:102 | the attribute list's values are the row's values up to the header's length, in order |
| Records.TargetName | generate.py:90-112 | `'{}.png'.format(index)` and `'{}.json'.format(index)` read back to the index under their extension; since only canonical decimal text reads back, no other index gives the same name |
| Records.ItemName | generate.py:105 | the display name is the template name, " #" and a number that reads back to index + 1 |
| Records.Rewrite | generate.py:104-110 | the copy's name is the template name numbered index + 1, image and files[0].uri both name `<index>.png`, the attributes are replaced, and every other template field passes through unchanged |
| Records.DistinctItems | generate.py:90-112 | different items never share an asset file, a metadata file or a display name |
| Generator.EffectiveLimit | generate.py:65-66 | the effective limit never exceeds the row count; it is the row count when the limit is 0 or less or when the limit is at least the row count, and otherwise it is the limit |
| Generator.ItemFor | generate.py:89-110 | the item of one iteration: its index, the row's first column as source, copied exactly when that asset exists, attributes whose trait types are the header's and whose values are the row's first values, the name numbered index + 1, image and files[0].uri naming `<index>.png`, the rest of the template unchanged |
| Generator.Generate | generate.py:45-81 | each failed check stops the run with its exit message, in the source's order, before anything is produced; the directory is created only when absent; with an existing directory, the first deciding reply to the prompt (default "no") decides the run: "no" or an empty reply declines and leaves the directory untouched, "yes" goes on to the loop, and no deciding reply ends at end of input; a header-only CSV yields no item; any run that reaches the loop satisfies the loop's contract |
| Generator.Produce | generate.py:83-119 | a finished run writes exactly the effective limit of items, indexed 0, 1, 2 and so on; item i holds the i-th drawn row's asset, whether that asset exists, and the template rewritten for index i with that row's attributes; the rows used form a sub-multiset of the data rows, equal to all of them when the effective limit is the row count (no limit, or a limit at least the row count); a missing asset does not stop the loop; only an empty or short drawn row stops it, and then before the effective limit is reached, and never when every row covers the header |
| Generator.DrawNext | generate.py:85-87 | iteration i pops the row at `choices[i]` from the pool left by the earlier iterations, and that row is the i-th row drawn |
| Generator.ExitProduces | generate.py:84-119 | the loop's state at exit gives the item count (the effective limit when finished, fewer when stopped early), rows-used and early-stop guarantees of the loop |
| Generator.UsedRowsComeFromCsv | generate.py:84-119 | the rows drawn by n iterations are a sub-multiset of the data rows, and all of them when n is the row count |
| Generator.ShortDrawMissesHeader | generate.py:87-102 | a drawn row shorter than the header is a data row shorter than the header |

## Left out

- Filesystem access: `os.path.exists`, `os.path.isfile`, `os.mkdir`, `shutil.copy`, `os.path.join` and `open`. These are flags and an asset-name set in `Env`, the `created` flag, and `Item.copied`. An unexpected filesystem error (permission denied, say) is not modelled.
- CSV tokenising and JSON parsing and writing (`csv.reader`, `json.load`, `json.dump(..., indent=4)`). Rows are given as sequences of strings, and the template and each output are a `Metadata` record. The JSON text written is not modelled.
- A template without `name` or without `properties.files[0]`: Python raises `KeyError` or `IndexError`. The record always has these fields, so that failure is not modelled.
- Shallow-copy aliasing (generate.py:104, 110): writing `files[0].uri` also changes the shared template's nested list. Every item overwrites that URI before it is written, so the outputs are unaffected. The model treats the template as an immutable value.
- Command-line parsing (`argparse`, the defaults) and process exit codes. An exit is the `Stop` value.
- Terminal output: the prompt suffixes " [y/n] ", " [Y/n] " and " [y/N] ", the "Please respond with 'yes' or 'no'" hint, and the "Cannot find asset file" diagnostic. A missing asset is recorded as `copied == false`.
- Randomness: `randrange` is replaced by the caller's `choices`, and the model says nothing about a distribution.
- YesNo.Lower: only ASCII letters are mapped. No other character lower-cases to a letter of "yes" or "no", so replies get the same decisions as with Python's full `str.lower()`.
- The asset and target directories are taken to be different directories. `Env.assets` is fixed for the whole run, so files copied into the asset directory during the run, and the `SameFileError` of `shutil.copy` onto the same file, are not modelled.
