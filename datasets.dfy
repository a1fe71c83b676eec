/** What a loader returns: named splits, each a set of PNG-encoded images with labels, a
    text, or a list of named files. */
module Datasets {
  import opened Wrappers
  import opened Bytes
  import opened Layout

  type Blob = seq<byte>

  /** `EasyDict(filename=..., data=...)`, an extra file copied next to the records. */
  datatype NamedFile = NamedFile(filename: string, data: seq<byte>)

  /** The value stored under a split name: `{'images': ..., 'labels': ...}`, a text (the
      `readme` split) or a list of named files (the `files` split). */
  datatype Payload =
    | Images(images: seq<Blob>, labels: seq<int>)
    | Text(text: string)
    | Files(files: seq<NamedFile>)

  datatype Split = Split(name: string, data: Payload)

  /** `_encode_png`: every image of the batch, in order, through the PNG encoder `toPng`,
      which is not modelled and so is a parameter. */
  function EncodePng(images: seq<Image>, toPng: Image -> Blob): (r: seq<Blob>)
    ensures |r| == |images|
    ensures forall k | 0 <= k < |images| :: r[k] == toPng(images[k])
  {
    seq(|images|, k requires 0 <= k < |images| => toPng(images[k]))
  }

  /** With a decoder `fromPng` that undoes `toPng`, every image is recovered from its PNG at
      the same position: encoding loses and reorders nothing. */
  lemma EncodePngDecode(images: seq<Image>, toPng: Image -> Blob, fromPng: Blob -> Image)
    requires forall im :: fromPng(toPng(im)) == im
    ensures forall k | 0 <= k < |images| :: fromPng(EncodePng(images, toPng)[k]) == images[k]
  {
  }

  /** The names of splits, in order. */
  function Names(splits: seq<Split>): (r: seq<string>)
    ensures |r| == |splits|
  {
    seq(|splits|, k requires 0 <= k < |splits| => splits[k].name)
  }

  /** A loader that fills its split dictionary one split at a time and stops at the first
      split whose reading fails: all splits when every reading succeeds, else the first
      failure. */
  function Gather(names: seq<string>, results: seq<Result<Payload>>): (r: Result<seq<Split>>)
    requires |names| == |results|
    ensures r.Ok? <==> forall k | 0 <= k < |results| :: results[k].Ok?
    ensures r.Ok? ==> (|r.value| == |names| &&
      forall k | 0 <= k < |names| :: r.value[k] == Split(names[k], results[k].value))
    ensures r.Ok? ==> Names(r.value) == names
    ensures r.Err? ==> exists k | 0 <= k < |results| ::
      results[k] == Err(r.error) && forall j | 0 <= j < k :: results[j].Ok?
  {
    if |names| == 0 then Ok([])
    else if results[0].Err? then Err(results[0].error)
    else
      var rest := Gather(names[1..], results[1..]);
      if rest.Err? then
        assert exists k | 0 <= k < |results| - 1 ::
          results[1..][k] == Err(rest.error) && forall j | 0 <= j < k :: results[1..][j].Ok?;
        var k :| 0 <= k < |results| - 1 &&
          results[1..][k] == Err(rest.error) && forall j | 0 <= j < k :: results[1..][j].Ok?;
        assert results[k + 1] == Err(rest.error) && forall j | 0 <= j < k + 1 :: results[j].Ok?;
        rest
      else
        var r := Ok([Split(names[0], results[0].value)] + rest.value);
        assert Names(r.value) == names;
        r
  }

  /** A loader that stopped at split k: the splits before it were read, split k failed. */
  lemma GatherStops(names: seq<string>, results: seq<Result<Payload>>, k: nat)
    requires |names| == |results| && k < |results|
    requires forall j | 0 <= j < k :: results[j].Ok?
    requires results[k].Err?
    ensures Gather(names, results) == Err(results[k].error)
  {
    var r := Gather(names, results);
    var k' :| 0 <= k' < |results| && results[k'] == Err(r.error) && forall j | 0 <= j < k' :: results[j].Ok?;
    assert k' == k;
  }

  /** A loader that read every split returns them all, in order. */
  lemma GatherAll(names: seq<string>, results: seq<Result<Payload>>, splits: seq<Split>)
    requires |names| == |results| == |splits|
    requires forall j | 0 <= j < |results| :: results[j].Ok? && splits[j] == Split(names[j], results[j].value)
    ensures Gather(names, results) == Ok(splits)
  {
    var r := Gather(names, results);
    assert r.Ok?;
    assert |r.value| == |splits|;
    assert forall j | 0 <= j < |splits| :: r.value[j] == splits[j];
    assert r.value == splits;
  }

  /** Gathering two splits: both when both were read, else the first failure. */
  lemma GatherTwo(names: seq<string>, first: Result<Payload>, second: Result<Payload>)
    requires |names| == 2
    ensures var r := Gather(names, [first, second]);
      (r.Ok? <==> first.Ok? && second.Ok?) &&
      (first.Err? ==> r == Err(first.error)) &&
      (first.Ok? && second.Err? ==> r == Err(second.error)) &&
      (r.Ok? ==> r.value == [Split(names[0], first.value), Split(names[1], second.value)])
  {
    var results := [first, second];
    if first.Err? {
      GatherStops(names, results, 0);
    } else if second.Err? {
      GatherStops(names, results, 1);
    } else {
      GatherAll(names, results, [Split(names[0], first.value), Split(names[1], second.value)]);
    }
  }

  /** The first of `names` that `present` lacks, as an index (|names| when none is missing):
      the archive member whose `extractfile` raises first. */
  function FirstMissing<V>(names: seq<string>, present: map<string, V>): (k: nat)
    ensures k <= |names|
    ensures forall j | 0 <= j < k :: names[j] in present
    ensures k < |names| ==> names[k] !in present
  {
    if |names| == 0 then 0
    else if names[0] !in present then 0
    else 1 + FirstMissing(names[1..], present)
  }
}
