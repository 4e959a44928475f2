/** The per-item pieces of `generate` (generate.py:90, 102-112): the
    attribute list zipped from the header and a row, the output file names,
    and the copy of the metadata template with four fields rewritten. */
module Records {
  import opened Wrappers
  import Decimal

  /** One `{trait_type, value}` entry of the `attributes` list. */
  datatype Attribute = Attribute(traitType: string, value: string)

  /** A metadata object: the four fields `generate` rewrites, and the rest of
      the JSON object (other top-level members, the rest of `properties` and
      of its file entries) kept as an opaque map from JSON path to text. */
  datatype Metadata = Metadata(
    name: string,
    image: string,
    attributes: seq<Attribute>,
    filesUri: string,      // properties.files[0].uri
    rest: map<string, string>)

  /** `[{'trait_type': t[i], 'value': v[i]} for i in range(len(t))]`; the
      comprehension indexes the row, so it needs as many values as types. */
  function Zip(traitTypes: seq<string>, traitValues: seq<string>): (r: seq<Attribute>)
    requires |traitValues| >= |traitTypes|
    ensures |r| == |traitTypes|
    ensures forall i :: 0 <= i < |r| ==> r[i] == Attribute(traitTypes[i], traitValues[i])
  {
    if traitTypes == [] then []
    else [Attribute(traitTypes[0], traitValues[0])] + Zip(traitTypes[1..], traitValues[1..])
  }

  function TraitTypes(attributes: seq<Attribute>): seq<string> {
    if attributes == [] then [] else [attributes[0].traitType] + TraitTypes(attributes[1..])
  }

  function TraitValues(attributes: seq<Attribute>): seq<string> {
    if attributes == [] then [] else [attributes[0].value] + TraitValues(attributes[1..])
  }

  /** The attribute list's trait types are the header's, in header order. */
  lemma {:induction false} ZipKeepsTraitTypes(traitTypes: seq<string>, traitValues: seq<string>)
    requires |traitValues| >= |traitTypes|
    ensures TraitTypes(Zip(traitTypes, traitValues)) == traitTypes
    decreases |traitTypes|
  {
    if traitTypes != [] {
      var tail := Zip(traitTypes[1..], traitValues[1..]);
      ZipKeepsTraitTypes(traitTypes[1..], traitValues[1..]);
      assert Zip(traitTypes, traitValues)[1..] == tail;
      assert traitTypes == [traitTypes[0]] + traitTypes[1..];
    }
  }

  /** The attribute list's values are the row's first values, in order;
      values past the header are dropped. */
  lemma {:induction false} ZipKeepsTraitValues(traitTypes: seq<string>, traitValues: seq<string>)
    requires |traitValues| >= |traitTypes|
    ensures TraitValues(Zip(traitTypes, traitValues)) == traitValues[..|traitTypes|]
    decreases |traitTypes|
  {
    if traitTypes != [] {
      var tail := Zip(traitTypes[1..], traitValues[1..]);
      ZipKeepsTraitValues(traitTypes[1..], traitValues[1..]);
      assert Zip(traitTypes, traitValues)[1..] == tail;
      assert traitValues[..|traitTypes|] == [traitValues[0]] + traitValues[1..][..|traitTypes| - 1];
    }
  }

  /** `'{}.png'.format(index)` and `'{}.json'.format(index)`: the copied
      asset's name (also the image URI) and the metadata file's name, given
      their extension. The name reads back to the index. */
  function TargetName(index: nat, extension: string): (r: string)
    ensures IndexOf(r, extension) == Some(index)
  {
    var digits := Decimal.Format(index);
    Decimal.ParseFormat(index);
    assert (digits + extension)[..|digits|] == digits;
    assert (digits + extension)[|digits|..] == extension;
    digits + extension
  }

  /** `'{} #{}'.format(name, index + 1)`: the item's display name, the
      template's name followed by the one-based item number. */
  function ItemName(templateName: string, index: nat): (r: string)
    ensures ItemNumber(templateName, r) == Some(index + 1)
  {
    var prefix := templateName + " #";
    var digits := Decimal.Format(index + 1);
    Decimal.ParseFormat(index + 1);
    assert (prefix + digits)[|prefix|..] == digits;
    prefix + digits
  }

  /** The item index an output file name stands for, if any. */
  function IndexOf(fileName: string, extension: string): Option<nat> {
    if |fileName| > |extension| && fileName[|fileName| - |extension|..] == extension
       && Decimal.Canonical(fileName[..|fileName| - |extension|])
    then Some(Decimal.Parse(fileName[..|fileName| - |extension|]))
    else None
  }

  /** The item number a display name carries after the template's name, if any. */
  function ItemNumber(templateName: string, name: string): Option<nat> {
    var prefix := templateName + " #";
    if |name| > |prefix| && name[..|prefix|] == prefix && Decimal.Canonical(name[|prefix|..])
    then Some(Decimal.Parse(name[|prefix|..]))
    else None
  }

  /** Different items never share an asset name, a metadata file name or a
      display name, so no output overwrites another. */
  lemma DistinctItems(templateName: string, i: nat, j: nat)
    requires i != j
    ensures TargetName(i, ".png") != TargetName(j, ".png")
    ensures TargetName(i, ".json") != TargetName(j, ".json")
    ensures ItemName(templateName, i) != ItemName(templateName, j)
  {
  }

  /** `metadata = template.copy()` followed by the four assignments: the
      name is the template's name numbered `index + 1`, the image and the
      file URI both name the copied asset of this index, the attributes are
      replaced, and the rest of the template is passed through. */
  function Rewrite(template: Metadata, index: nat, attributes: seq<Attribute>): (m: Metadata)
    ensures ItemNumber(template.name, m.name) == Some(index + 1)
    ensures m.image == m.filesUri && IndexOf(m.image, ".png") == Some(index)
    ensures m.attributes == attributes && m.rest == template.rest
  {
    template.(
      name := ItemName(template.name, index),
      image := TargetName(index, ".png"),
      attributes := attributes,
      filesUri := TargetName(index, ".png"))
  }
}
