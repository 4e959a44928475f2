/** `generate` (generate.py:45-119): the checks on the inputs, the
    confirmation prompt for an existing target directory, and the loop that
    draws rows without replacement and emits one numbered item per row.
    The filesystem is reduced to an `Env` of existence flags, the asset
    names present and the reply lines typed at the prompt; the copies and
    the JSON writes are the returned item log. */
module Generator {
  import opened Wrappers
  import YesNo
  import Sampling
  import Records

  /** One CSV row as `csv.reader` yields it. */
  type Row = seq<string>

  const CsvMissingMessage := "The metadata csv file does not exist."
  const CsvEmptyMessage := "The metadata csv file is empty."
  const TemplateMissingMessage := "The metadata template file does not exist."
  const AssetDirMissingMessage := "The asset directory does not exist."

  /** What `generate` learns from the filesystem and the terminal. */
  datatype Env = Env(
    csvExists: bool,
    templateExists: bool,
    assetDirExists: bool,
    targetDirExists: bool,
    replies: seq<string>,   // lines typed at the confirmation prompt
    assets: set<string>)    // names whose path joined to the asset directory is a file

  /** One generated item: its index, the asset it was drawn from, whether
      that asset was found and copied to `TargetName(index, ".png")`, and the
      metadata written to `TargetName(index, ".json")`. */
  datatype Item = Item(index: nat, source: string, copied: bool, metadata: Records.Metadata)

  /** How a run ends. */
  datatype Stop =
    | Finished
    | Exit(message: string)                            // exit('...') before the loop
    | Declined                                         // exit() after the user said no
    | PromptEnded                                      // EOFError at the prompt
    | HeaderWithoutColumns                             // IndexError: header row is empty
    | EmptyRow(index: nat)                             // IndexError: drawn row is empty
    | ShortRow(index: nat, source: string, copied: bool) // IndexError in the attribute list

  /** `min(count, limit) if limit > 0 else count`. */
  function EffectiveLimit(count: nat, limit: int): (r: nat)
    ensures r <= count
    ensures limit <= 0 || limit >= count ==> r == count
    ensures 0 < limit <= count ==> r == limit
  {
    if limit > 0 then (if count < limit then count else limit) else count
  }

  /** The CSV file was read and its header has the "File Name" column to drop. */
  predicate Loaded(env: Env, csv: seq<Row>) {
    env.csvExists && |csv| > 0 && |csv[0]| > 0
  }

  /** Every check before the target directory passed. */
  predicate Ready(env: Env, csv: seq<Row>) {
    Loaded(env, csv) && env.templateExists && env.assetDirExists
  }

  /** Every data row has at least as many columns as the header. */
  predicate RowsCoverHeader(csv: seq<Row>)
    requires |csv| > 0
  {
    forall row :: row in csv[1..] ==> |row| >= |csv[0]|
  }

  /** The data rows drawn by the first `n` iterations, in order. */
  function Used(csv: seq<Row>, choices: seq<nat>, n: nat): seq<Row>
    requires |csv| > 0 && Sampling.Fits(|csv| - 1, choices) && n <= |choices|
  {
    Sampling.Drawn(csv[1..], choices[..n])
  }

  /** The item built from the `index`-th drawn row. */
  function ItemFor(template: Records.Metadata, traitTypes: seq<string>, index: nat, row: Row, assets: set<string>): (r: Item)
    requires |row| > |traitTypes|
    ensures r.index == index && r.source == row[0] && (r.copied <==> row[0] in assets)
    ensures Records.TraitTypes(r.metadata.attributes) == traitTypes
    ensures Records.TraitValues(r.metadata.attributes) == row[1..|traitTypes| + 1]
    ensures Records.ItemNumber(template.name, r.metadata.name) == Some(index + 1)
    ensures r.metadata.image == r.metadata.filesUri && Records.IndexOf(r.metadata.image, ".png") == Some(index)
    ensures r.metadata.rest == template.rest
  {
    Records.ZipKeepsTraitTypes(traitTypes, row[1..]);
    Records.ZipKeepsTraitValues(traitTypes, row[1..]);
    assert row[1..][..|traitTypes|] == row[1..|traitTypes| + 1];
    Item(index, row[0], row[0] in assets, Records.Rewrite(template, index, Records.Zip(traitTypes, row[1..])))
  }

  /** The checks and the prompt (generate.py:45-81), then the loop.
      `choices[i]` is what `randrange(0, count)` returned at iteration `i`. */
  method Generate(csv: seq<Row>, limit: int, template: Records.Metadata, env: Env, choices: seq<nat>)
    returns (items: seq<Item>, created: bool, stop: Stop)
    requires |csv| > 0 ==> Sampling.Fits(|csv| - 1, choices) && |choices| >= EffectiveLimit(|csv| - 1, limit)
    // the checks, in the order the source makes them
    ensures stop == Exit(CsvMissingMessage) <==> !env.csvExists
    ensures stop == Exit(CsvEmptyMessage) <==> env.csvExists && |csv| == 0
    ensures stop == HeaderWithoutColumns <==> env.csvExists && |csv| > 0 && |csv[0]| == 0
    ensures stop == Exit(TemplateMissingMessage) <==> Loaded(env, csv) && !env.templateExists
    ensures stop == Exit(AssetDirMissingMessage) <==> Loaded(env, csv) && env.templateExists && !env.assetDirExists
    ensures !Ready(env, csv) ==> items == [] && !created
    ensures created <==> Ready(env, csv) && !env.targetDirExists
    // a header-only CSV passes the emptiness check and yields no item
    ensures env.csvExists && |csv| == 1 ==> stop != Exit(CsvEmptyMessage) && items == []
    // declining, or running out of replies, leaves the existing directory untouched
    ensures stop == Declined || stop == PromptEnded ==> Ready(env, csv) && env.targetDirExists && items == []
    ensures stop == PromptEnded ==>
      forall i :: 0 <= i < |env.replies| ==> YesNo.Decide(Some("no"), env.replies[i]) == Success(YesNo.Reprompt)
    // the first deciding reply decides the run: "no" (or an empty reply) declines,
    // "yes" goes on to the loop, no deciding reply at all ends at EOF
    ensures Ready(env, csv) && env.targetDirExists ==>
      (stop == PromptEnded <==> YesNo.FirstAnswer(Some("no"), env.replies) == None) &&
      (stop == Declined <==> YesNo.FirstAnswer(Some("no"), env.replies) == Some(false))
    // a run that reaches the loop
    ensures Ready(env, csv) && stop != Declined && stop != PromptEnded ==>
      Produced(csv, limit, template, env.assets, choices, items, stop)
    ensures Ready(env, csv) && !env.targetDirExists ==> Produced(csv, limit, template, env.assets, choices, items, stop)
  {
    items, created := [], false;
    if !env.csvExists {
      return items, created, Exit(CsvMissingMessage);
    }
    if |csv| <= 0 {
      return items, created, Exit(CsvEmptyMessage);
    }
    if |csv[0]| == 0 {
      return items, created, HeaderWithoutColumns;
    }
    if !env.templateExists {
      return items, created, Exit(TemplateMissingMessage);
    }
    if !env.assetDirExists {
      return items, created, Exit(AssetDirMissingMessage);
    }
    if !env.targetDirExists {
      created := true;
    } else {
      var answer, _ := YesNo.Ask(Some("no"), env.replies);
      if answer.Failure? {
        return items, created, PromptEnded;
      }
      if !answer.value {
        return items, created, Declined;
      }
    }
    items, stop := Produce(csv, limit, template, env.assets, choices);
  }

  /** Item `i` is built from the `i`-th drawn row, which covers the header. */
  predicate ItemsMatch(csv: seq<Row>, template: Records.Metadata, assets: set<string>,
                       choices: seq<nat>, items: seq<Item>)
    requires |csv| > 0 && |csv[0]| > 0 && Sampling.Fits(|csv| - 1, choices) && |items| <= |choices|
  {
    forall i :: 0 <= i < |items| ==>
      |Used(csv, choices, |items|)[i]| >= |csv[0]| &&
      items[i] == ItemFor(template, csv[0][1..], i, Used(csv, choices, |items|)[i], assets)
  }

  /** Appending the item of the next drawn row keeps every item matched. */
  lemma ItemsMatchStep(csv: seq<Row>, template: Records.Metadata, assets: set<string>,
                       choices: seq<nat>, items: seq<Item>, row: Row)
    requires |csv| > 0 && |row| >= |csv[0]| > 0
    requires Sampling.Fits(|csv| - 1, choices) && |items| < |choices|
    requires ItemsMatch(csv, template, assets, choices, items)
    requires Used(csv, choices, |items| + 1) == Used(csv, choices, |items|) + [row]
    ensures ItemsMatch(csv, template, assets, choices,
                       items + [ItemFor(template, csv[0][1..], |items|, row, assets)])
  {
  }

  /** What the loop promises about the items it wrote and how it ended. */
  predicate Produced(csv: seq<Row>, limit: int, template: Records.Metadata, assets: set<string>,
                     choices: seq<nat>, items: seq<Item>, stop: Stop)
    requires |csv| > 0 && |csv[0]| > 0
    requires Sampling.Fits(|csv| - 1, choices) && |choices| >= EffectiveLimit(|csv| - 1, limit)
  {
    && |items| <= EffectiveLimit(|csv| - 1, limit)
    && ItemsMatch(csv, template, assets, choices, items)
    && LoopEnded(csv, limit, assets, choices, |items|, stop)
  }

  /** How many rows the loop used and why it stopped, after `n` items. */
  predicate LoopEnded(csv: seq<Row>, limit: int, assets: set<string>, choices: seq<nat>, n: nat, stop: Stop)
    requires |csv| > 0 && |csv[0]| > 0
    requires Sampling.Fits(|csv| - 1, choices) && |choices| >= EffectiveLimit(|csv| - 1, limit)
  {
    && (stop.Finished? || stop.EmptyRow? || stop.ShortRow?)
    && n <= EffectiveLimit(|csv| - 1, limit)
    && (stop == Finished ==> n == EffectiveLimit(|csv| - 1, limit))
    && (stop != Finished ==> n < EffectiveLimit(|csv| - 1, limit))
    && multiset(Used(csv, choices, n)) <= multiset(csv[1..])
    && (stop == Finished && EffectiveLimit(|csv| - 1, limit) == |csv| - 1 ==>
          multiset(Used(csv, choices, n)) == multiset(csv[1..]))
    && (stop.EmptyRow? ==>
          stop.index == n < |choices| && Used(csv, choices, n + 1)[n] == [])
    && (stop.ShortRow? ==>
          stop.index == n < |choices| &&
          0 < |Used(csv, choices, n + 1)[n]| < |csv[0]| &&
          stop.source == Used(csv, choices, n + 1)[n][0] &&
          stop.copied == (stop.source in assets))
    && (RowsCoverHeader(csv) ==> stop == Finished)
  }

  /** The generation loop (generate.py:83-119): draw the row at `choices[index]`
      from the shrinking pool, take its first column as the asset, zip the
      rest with the trait types, rewrite the template and record the item. */
  method Produce(csv: seq<Row>, limit: int, template: Records.Metadata, assets: set<string>, choices: seq<nat>)
    returns (items: seq<Item>, stop: Stop)
    requires |csv| > 0 && |csv[0]| > 0
    requires Sampling.Fits(|csv| - 1, choices) && |choices| >= EffectiveLimit(|csv| - 1, limit)
    ensures Produced(csv, limit, template, assets, choices, items, stop)
  {
    var traitTypes := csv[0][1..];   // header without "File Name"
    var pool := csv[1..];
    var count := |pool|;
    var lim := EffectiveLimit(count, limit);
    var index := 0;
    items, stop := [], Finished;
    while count > 0 && index < lim
      invariant index <= lim && |items| == index
      invariant count == |pool|
      invariant pool == Sampling.Remaining(csv[1..], choices[..index])
      invariant ItemsMatch(csv, template, assets, choices, items)
      decreases lim - index
    {
      var k := choices[index];
      DrawNext(csv, choices, index, pool);
      var row := pool[k];
      pool := Sampling.RemoveAt(pool, k);
      if |row| == 0 {
        stop := EmptyRow(index);
        break;
      }
      var source := row[0];
      var copied := source in assets;
      if |row| - 1 < |traitTypes| {
        stop := ShortRow(index, source, copied);
        break;
      }
      ItemsMatchStep(csv, template, assets, choices, items, row);
      items := items + [ItemFor(template, traitTypes, index, row, assets)];
      index := index + 1;
      count := count - 1;
    }

    ExitProduces(csv, limit, assets, choices, |items|, stop);
  }

  /** Iteration `index` pops the row at `choices[index]` from the pool left
      by the earlier iterations; that row is the next one drawn. */
  lemma DrawNext(csv: seq<Row>, choices: seq<nat>, index: nat, pool: seq<Row>)
    requires |csv| > 0 && Sampling.Fits(|csv| - 1, choices) && index < |choices|
    requires pool == Sampling.Remaining(csv[1..], choices[..index])
    ensures choices[index] < |pool|
    ensures Used(csv, choices, index + 1) == Used(csv, choices, index) + [pool[choices[index]]]
    ensures Used(csv, choices, index + 1)[index] == pool[choices[index]]
    ensures Sampling.RemoveAt(pool, choices[index]) == Sampling.Remaining(csv[1..], choices[..index + 1])
  {
    assert choices[..index + 1] == choices[..index] + [choices[index]];
    Sampling.DrawStep(csv[1..], choices[..index], choices[index]);
  }

  /** The loop's state when it stops gives everything `Produced` promises:
      the rows drawn come from the pool, and all of it when no limit was set. */
  lemma ExitProduces(csv: seq<Row>, limit: int, assets: set<string>,
                     choices: seq<nat>, n: nat, stop: Stop)
    requires |csv| > 0 && |csv[0]| > 0
    requires Sampling.Fits(|csv| - 1, choices) && |choices| >= EffectiveLimit(|csv| - 1, limit)
    requires stop.Finished? || stop.EmptyRow? || stop.ShortRow?
    requires n <= EffectiveLimit(|csv| - 1, limit)
    requires stop == Finished ==> n == EffectiveLimit(|csv| - 1, limit)
    requires stop != Finished ==> n < EffectiveLimit(|csv| - 1, limit)
    requires stop.EmptyRow? ==> stop.index == n && Used(csv, choices, n + 1)[n] == []
    requires stop.ShortRow? ==>
      stop.index == n &&
      0 < |Used(csv, choices, n + 1)[n]| < |csv[0]| &&
      stop.source == Used(csv, choices, n + 1)[n][0] &&
      stop.copied == (stop.source in assets)
    ensures LoopEnded(csv, limit, assets, choices, n, stop)
  {
    UsedRowsComeFromCsv(csv, choices, n);
    if stop != Finished {
      ShortDrawMissesHeader(csv, choices, n);
    }
    assert RowsCoverHeader(csv) ==> stop == Finished;
    assert multiset(Used(csv, choices, n)) <= multiset(csv[1..]);
    assert stop == Finished && EffectiveLimit(|csv| - 1, limit) == |csv| - 1 ==>
      multiset(Used(csv, choices, n)) == multiset(csv[1..]);
  }

  /** The rows drawn by `n` iterations are a sub-multiset of the data rows,
      and all of them when `n` is the number of data rows. */
  lemma UsedRowsComeFromCsv(csv: seq<Row>, choices: seq<nat>, n: nat)
    requires |csv| > 0 && Sampling.Fits(|csv| - 1, choices) && n <= |choices|
    ensures multiset(Used(csv, choices, n)) <= multiset(csv[1..])
    ensures n == |csv| - 1 ==> multiset(Used(csv, choices, n)) == multiset(csv[1..])
  {
    Sampling.DrawnIsSubMultiset(csv[1..], choices[..n]);
  }

  /** A drawn row shorter than the header is a data row shorter than the header. */
  lemma ShortDrawMissesHeader(csv: seq<Row>, choices: seq<nat>, n: nat)
    requires |csv| > 0 && Sampling.Fits(|csv| - 1, choices) && n < |choices|
    requires |Used(csv, choices, n + 1)[n]| < |csv[0]|
    ensures !RowsCoverHeader(csv)
  {
    Sampling.DrawnFromPool(csv[1..], choices[..n + 1], n);
    assert Used(csv, choices, n + 1)[n] in csv[1..];
  }
}
