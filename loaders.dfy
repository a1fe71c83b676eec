/** The dataset loaders. Downloading, `tarfile`, `gzip`, `scipy.io.loadmat`, directory
    listing, image decoding and resizing, and PNG encoding are not modelled: their results
    reach each loader as parameters (a map from archive member to content, a function from
    URL to the downloaded and decompressed bytes, and so on). */
module Loaders {
  import opened Wrappers
  import opened Bytes
  import opened Layout
  import opened Unflatten
  import opened Idx
  import opened Labels
  import opened Datasets
  import opened Paths

  /** The download locations. There is no entry for Fashion-MNIST. */
  const Urls: map<string, string> := map[
    "svhn" := "http://ufldl.stanford.edu/housenumbers/{}_32x32.mat",
    "cifar10" := "https://www.cs.toronto.edu/~kriz/cifar-10-matlab.tar.gz",
    "cifar100" := "https://www.cs.toronto.edu/~kriz/cifar-100-matlab.tar.gz",
    "stl10" := "http://ai.stanford.edu/~acoates/stl10/stl10_binary.tar.gz",
    "mnist" := "http://yann.lecun.com/exdb/mnist/{}"
  ]

  /** `URLS[key]`, which raises KeyError for a missing key. */
  function Lookup(urls: map<string, string>, key: string): (r: Result<string>)
    ensures r.Ok? <==> key in urls
    ensures r.Ok? ==> r.value == urls[key]
    ensures r.Err? ==> r.error == MissingKey(key)
  {
    if key in urls then Ok(urls[key]) else Err(MissingKey(key))
  }

  // SVHN

  /** `scipy.io.loadmat` of an SVHN file: `X`, of shape (32, 32, 3, N), and `y` flattened. */
  datatype SvhnMat = SvhnMat(shape: Shape, x: Array4, y: seq<int>)
  type SvhnFile = m: SvhnMat | HasShape(m.x, m.shape) witness SvhnMat([0, 0, 0, 0], [], [])

  const SvhnSplits: seq<string> := ["train", "test", "extra"]

  /** One SVHN split: the images moved to batch-first order and PNG-encoded, the labels `% 10`. */
  function SvhnPayload(m: SvhnFile, toPng: Image -> Blob): (p: Payload)
    ensures p.Images? && |p.images| == m.shape[3] && |p.labels| == |m.y|
    ensures forall n | 0 <= n < m.shape[3] :: p.images[n] == toPng(Svhn(m.x, m.shape)[n])
    ensures forall k | 0 <= k < |p.labels| :: p.labels[k] == m.y[k] % 10 && 0 <= p.labels[k] < 10
  {
    Images(EncodePng(Svhn(m.x, m.shape), toPng), SvhnLabels(m.y))
  }

  /** `_load_svhn`: the splits train, test and extra, in that order, each read from the file
      the SVHN URL names for it. */
  method LoadSvhn(fetch: string -> SvhnFile, toPng: Image -> Blob) returns (splits: seq<Split>)
    ensures |splits| == |SvhnSplits|
    ensures forall k | 0 <= k < |SvhnSplits| ::
      splits[k] == Split(SvhnSplits[k], SvhnPayload(fetch(Format(Urls["svhn"], SvhnSplits[k])), toPng))
  {
    assert "svhn" in Urls;
    var template := Urls["svhn"];
    splits := [];
    for k := 0 to |SvhnSplits|
      invariant |splits| == k
      invariant forall j | 0 <= j < k ::
        splits[j] == Split(SvhnSplits[j], SvhnPayload(fetch(Format(template, SvhnSplits[j])), toPng))
    {
      var split := SvhnSplits[k];
      var dataDict := fetch(Format(template, split));
      var images := EncodePng(Svhn(dataDict.x, dataDict.shape), toPng);
      var labels := SvhnLabels(dataDict.y);
      splits := splits + [Split(split, Images(images, labels))];
    }
  }

  // STL-10

  const Stl10TrainX := "stl10_binary/train_X.bin"
  const Stl10TrainY := "stl10_binary/train_y.bin"
  const Stl10TestX := "stl10_binary/test_X.bin"
  const Stl10TestY := "stl10_binary/test_y.bin"
  const Stl10UnlabeledX := "stl10_binary/unlabeled_X.bin"
  const Stl10Folds := "stl10_binary/fold_indices.txt"

  /** The archive members `_load_stl10` extracts, in the order it extracts them. */
  const Stl10Members: seq<string> :=
    [Stl10TrainX, Stl10TrainY, Stl10TestX, Stl10TestY, Stl10UnlabeledX, Stl10Folds]

  /** The unlabeled split gets this many zero labels, whatever its image count. */
  const Stl10UnlabeledCount: nat := 100000

  /** `_load_stl10` on the members of `stl10_binary.tar.gz`: a missing member fails first, then
      an image file whose size is not a whole number of 96x96x3 images. */
  function LoadStl10(members: map<string, seq<byte>>, toPng: Image -> Blob): (r: Result<seq<Split>>)
    ensures FirstMissing(Stl10Members, members) < |Stl10Members| ==>
      r == Err(MissingMember(Stl10Members[FirstMissing(Stl10Members, members)]))
    ensures r.Ok? <==>
      (Stl10TrainX in members && Stl10TrainY in members && Stl10TestX in members &&
       Stl10TestY in members && Stl10UnlabeledX in members && Stl10Folds in members &&
       |members[Stl10TrainX]| % 27648 == 0 && |members[Stl10TestX]| % 27648 == 0 &&
       |members[Stl10UnlabeledX]| % 27648 == 0)
    ensures r.Ok? ==> Names(r.value) == ["train", "test", "unlabeled", "files"]
    ensures r.Ok? ==>
      r.value[0].data == Images(EncodePng(Stl10(members[Stl10TrainX]).value, toPng), Stl10Labels(members[Stl10TrainY])) &&
      r.value[1].data == Images(EncodePng(Stl10(members[Stl10TestX]).value, toPng), Stl10Labels(members[Stl10TestY])) &&
      r.value[2].data == Images(EncodePng(Stl10(members[Stl10UnlabeledX]).value, toPng), seq(Stl10UnlabeledCount, _ => 0)) &&
      r.value[3].data == Files([NamedFile("stl10_fold_indices.txt", members[Stl10Folds])])
  {
    var missing := FirstMissing(Stl10Members, members);
    if missing < |Stl10Members| then Err(MissingMember(Stl10Members[missing]))
    else
      assert Stl10Members[0] in members && Stl10Members[1] in members && Stl10Members[2] in members;
      assert Stl10Members[3] in members && Stl10Members[4] in members && Stl10Members[5] in members;
      match (Stl10(members[Stl10TrainX]), Stl10(members[Stl10TestX]), Stl10(members[Stl10UnlabeledX]))
      case (Err(e), _, _) => Err(e)
      case (_, Err(e), _) => Err(e)
      case (_, _, Err(e)) => Err(e)
      case (Ok(train), Ok(test), Ok(unlabeled)) =>
        var splits := [
          Split("train", Images(EncodePng(train, toPng), Stl10Labels(members[Stl10TrainY]))),
          Split("test", Images(EncodePng(test, toPng), Stl10Labels(members[Stl10TestY]))),
          Split("unlabeled", Images(EncodePng(unlabeled, toPng), seq(Stl10UnlabeledCount, _ => 0))),
          Split("files", Files([NamedFile("stl10_fold_indices.txt", members[Stl10Folds])]))
        ];
        assert Names(splits) == ["train", "test", "unlabeled", "files"];
        Ok(splits)
  }

  // CIFAR-10 and CIFAR-100

  /** `scipy.io.loadmat` of a CIFAR batch: the `data` matrix, one image per row, and the
      flattened labels (`labels` for CIFAR-10, `fine_labels` for CIFAR-100). */
  datatype MatBatch = MatBatch(data: Matrix, labels: seq<int>)

  /** `'cifar-10-batches-mat/data_batch_{}.mat'.format(b)` */
  function Cifar10BatchName(b: nat): (name: string)
    requires 1 <= b <= 5
    ensures |name| == |"cifar-10-batches-mat/data_batch_1.mat"|
    ensures name[|name| - 5] == '0' + b as char
  {
    "cifar-10-batches-mat/data_batch_" + [('0' as int + b) as char] + ".mat"
  }

  function Cifar10BatchNames(): (names: seq<string>)
    ensures |names| == 5
    ensures forall k | 0 <= k < 5 :: names[k] == Cifar10BatchName(k + 1)
  {
    seq(5, k requires 0 <= k < 5 => Cifar10BatchName(k + 1))
  }

  const Cifar10TestName := "cifar-10-batches-mat/test_batch.mat"

  /** `np.concatenate(matrices, axis=0)`: the rows stacked in order. The column counts must
      agree, and an empty list is an error. */
  function ConcatRows(ms: seq<Matrix>): (r: Result<Matrix>)
    ensures r.Ok? <==> |ms| > 0 && forall k | 0 <= k < |ms| :: ms[k].cols == ms[0].cols
    ensures r.Ok? ==> r.value.cols == ms[0].cols && r.value.rows == SumRows(ms)
    ensures r.Ok? ==> r.value.elems == ConcatAll(seq(|ms|, k requires 0 <= k < |ms| => ms[k].elems))
  {
    if |ms| == 0 || exists k | 0 <= k < |ms| :: ms[k].cols != ms[0].cols then Err(ConcatMismatch)
    else Ok(Matrix(SumRows(ms), ms[0].cols, ConcatAll(seq(|ms|, k requires 0 <= k < |ms| => ms[k].elems))))
  }

  function SumRows(ms: seq<Matrix>): nat {
    if |ms| == 0 then 0 else ms[0].rows + SumRows(ms[1..])
  }

  predicate Consistent(m: Matrix) {
    |m.elems| == m.rows * m.cols
  }

  /** Stacking well-formed matrices gives a well-formed matrix. */
  lemma {:induction false} ConcatRowsConsistent(ms: seq<Matrix>)
    requires ConcatRows(ms).Ok?
    requires forall k | 0 <= k < |ms| :: Consistent(ms[k])
    ensures Consistent(ConcatRows(ms).value)
  {
    var parts := seq(|ms|, k requires 0 <= k < |ms| => ms[k].elems);
    if |ms| > 1 {
      ConcatRowsConsistent(ms[1..]);
      assert seq(|ms[1..]|, k requires 0 <= k < |ms[1..]| => ms[1..][k].elems) == parts[1..];
      assert ConcatAll(parts) == parts[0] + ConcatAll(parts[1..]);
      var c := ms[0].cols;
      assert |ConcatAll(parts)| == ms[0].rows * c + SumRows(ms[1..]) * c;
      assert ms[0].rows * c + SumRows(ms[1..]) * c == (ms[0].rows + SumRows(ms[1..])) * c;
    } else {
      assert ConcatAll(parts) == parts[0] + ConcatAll(parts[1..]);
      assert parts[1..] == [];
    }
  }

  /** All five training batches are in the archive. */
  predicate HasBatches(members: map<string, MatBatch>) {
    forall b | 1 <= b <= 5 :: Cifar10BatchName(b) in members
  }

  /** The data matrices of training batches 1 to 5, in that order. */
  function Cifar10TrainRows(members: map<string, MatBatch>): (ms: seq<Matrix>)
    requires HasBatches(members)
    ensures |ms| == 5
  {
    seq(5, k requires 0 <= k < 5 => members[Cifar10BatchName(k + 1)].data)
  }

  /** What `_load_cifar10` returns: the five training batches' images stacked in order and
      their labels concatenated in order, then the test batch. A missing batch fails first,
      then mismatched batches, then a missing test batch, then a matrix that is not whole
      32x32x3 images. */
  function Cifar10(members: map<string, MatBatch>, toPng: Image -> Blob): (r: Result<seq<Split>>)
    ensures FirstMissing(Cifar10BatchNames(), members) < 5 ==>
      r == Err(MissingMember(Cifar10BatchNames()[FirstMissing(Cifar10BatchNames(), members)]))
    ensures HasBatches(members) && ConcatRows(Cifar10TrainRows(members)).Err? ==> r == Err(ConcatMismatch)
    ensures HasBatches(members) && ConcatRows(Cifar10TrainRows(members)).Ok? && Cifar10TestName !in members ==>
      r == Err(MissingMember(Cifar10TestName))
    ensures r.Ok? <==> (HasBatches(members) && ConcatRows(Cifar10TrainRows(members)).Ok? &&
      Cifar10TestName in members && Cifar(ConcatRows(Cifar10TrainRows(members)).value).Ok? &&
      Cifar(members[Cifar10TestName].data).Ok?)
    ensures r.Ok? ==> Names(r.value) == ["train", "test"]
    ensures r.Ok? ==> (r.value[0].data.Images? &&
      r.value[0].data.images == EncodePng(Cifar(ConcatRows(Cifar10TrainRows(members)).value).value, toPng))
    ensures r.Ok? ==> (r.value[1].data == Images(EncodePng(Cifar(members[Cifar10TestName].data).value, toPng),
      members[Cifar10TestName].labels))
  {
    var missing := FirstMissing(Cifar10BatchNames(), members);
    if missing < 5 then
      assert Cifar10BatchNames()[missing] == Cifar10BatchName(missing + 1);
      Err(MissingMember(Cifar10BatchNames()[missing]))
    else
      assert HasBatches(members) by {
        forall b | 1 <= b <= 5 ensures Cifar10BatchName(b) in members {
          assert Cifar10BatchNames()[b - 1] == Cifar10BatchName(b);
        }
      }
      var rows := Cifar10TrainRows(members);
      match ConcatRows(rows)
      case Err(e) => Err(e)
      case Ok(trainData) =>
        var trainLabels := ConcatAll(seq(5, k requires 0 <= k < 5 => members[Cifar10BatchName(k + 1)].labels));
        if Cifar10TestName !in members then Err(MissingMember(Cifar10TestName))
        else
          var test := members[Cifar10TestName];
          match (Cifar(trainData), Cifar(test.data))
          case (Err(e), _) => Err(e)
          case (_, Err(e)) => Err(e)
          case (Ok(train), Ok(testImages)) =>
            var splits := [Split("train", Images(EncodePng(train, toPng), trainLabels)),
                           Split("test", Images(EncodePng(testImages, toPng), test.labels))];
            assert Names(splits) == ["train", "test"];
            Ok(splits)
  }

  /** The CIFAR-10 training labels are those of batches 1 to 5, in ascending batch order,
      and there is one training image per row of the five batches. */
  lemma Cifar10TrainSplit(members: map<string, MatBatch>, toPng: Image -> Blob)
    requires Cifar10(members, toPng).Ok?
    ensures forall b | 1 <= b <= 5 :: Cifar10BatchName(b) in members
    ensures var train := Cifar10(members, toPng).value[0];
      train.name == "train" && train.data.Images? &&
      train.data.labels ==
        members[Cifar10BatchName(1)].labels + members[Cifar10BatchName(2)].labels +
        members[Cifar10BatchName(3)].labels + members[Cifar10BatchName(4)].labels +
        members[Cifar10BatchName(5)].labels &&
      |train.data.images| ==
        members[Cifar10BatchName(1)].data.rows + members[Cifar10BatchName(2)].data.rows +
        members[Cifar10BatchName(3)].data.rows + members[Cifar10BatchName(4)].data.rows +
        members[Cifar10BatchName(5)].data.rows
  {
    var labels := seq(5, k requires 0 <= k < 5 => members[Cifar10BatchName(k + 1)].labels);
    ConcatFive(labels);
    SumRowsFive(Cifar10TrainRows(members));
  }

  lemma SumRowsFive(ms: seq<Matrix>)
    requires |ms| == 5
    ensures SumRows(ms) == ms[0].rows + ms[1].rows + ms[2].rows + ms[3].rows + ms[4].rows
  {
    assert ms[4..][1..] == [];
    assert SumRows(ms[4..]) == ms[4].rows;
    assert ms[3..][1..] == ms[4..];
    assert SumRows(ms[3..]) == ms[3].rows + ms[4].rows;
    assert ms[2..][1..] == ms[3..];
    assert SumRows(ms[2..]) == ms[2].rows + ms[3].rows + ms[4].rows;
    assert ms[1..][1..] == ms[2..];
    assert SumRows(ms[1..]) == ms[1].rows + ms[2].rows + ms[3].rows + ms[4].rows;
  }

  /** `_load_cifar10`, reading the five training batches in a loop; it returns exactly what
      Cifar10 describes. */
  method LoadCifar10(members: map<string, MatBatch>, toPng: Image -> Blob) returns (r: Result<seq<Split>>)
    ensures r == Cifar10(members, toPng)
  {
    var names := Cifar10BatchNames();
    var trainDataBatches: seq<Matrix> := [];
    var trainDataLabels: seq<seq<int>> := [];
    for b := 1 to 6
      invariant |trainDataBatches| == b - 1 && |trainDataLabels| == b - 1
      invariant forall j | 0 <= j < b - 1 :: names[j] in members
      invariant forall j | 0 <= j < b - 1 ::
        trainDataBatches[j] == members[names[j]].data && trainDataLabels[j] == members[names[j]].labels
    {
      var name := Cifar10BatchName(b);
      assert name == names[b - 1];
      if name !in members {
        assert FirstMissing(names, members) == b - 1;
        return Err(MissingMember(name));
      }
      var dataDict := members[name];
      trainDataBatches := trainDataBatches + [dataDict.data];
      trainDataLabels := trainDataLabels + [dataDict.labels];
    }
    assert FirstMissing(names, members) == 5;
    assert HasBatches(members) by {
      forall b | 1 <= b <= 5 ensures Cifar10BatchName(b) in members {
        assert names[b - 1] == Cifar10BatchName(b);
      }
    }
    assert trainDataBatches == Cifar10TrainRows(members);
    assert trainDataLabels == seq(5, k requires 0 <= k < 5 => members[Cifar10BatchName(k + 1)].labels);
    var trainImages := ConcatRows(trainDataBatches);
    if trainImages.Err? {
      return Err(trainImages.error);
    }
    var trainLabels := ConcatAll(trainDataLabels);
    if Cifar10TestName !in members {
      return Err(MissingMember(Cifar10TestName));
    }
    var test := members[Cifar10TestName];
    var train := Cifar(trainImages.value);
    if train.Err? {
      return Err(train.error);
    }
    var testImages := Cifar(test.data);
    if testImages.Err? {
      return Err(testImages.error);
    }
    r := Ok([Split("train", Images(EncodePng(train.value, toPng), trainLabels)),
             Split("test", Images(EncodePng(testImages.value, toPng), test.labels))]);
  }

  const Cifar100Train := "cifar-100-matlab/train.mat"
  const Cifar100Test := "cifar-100-matlab/test.mat"

  /** `_load_cifar100`: the train and test matrices in CIFAR layout, labelled with the fine
      labels. */
  function LoadCifar100(members: map<string, MatBatch>, toPng: Image -> Blob): (r: Result<seq<Split>>)
    ensures Cifar100Train !in members ==> r == Err(MissingMember(Cifar100Train))
    ensures Cifar100Train in members && Cifar100Test !in members ==> r == Err(MissingMember(Cifar100Test))
    ensures r.Ok? <==> (Cifar100Train in members && Cifar100Test in members &&
      |members[Cifar100Train].data.elems| == members[Cifar100Train].data.rows * 3072 &&
      |members[Cifar100Test].data.elems| == members[Cifar100Test].data.rows * 3072)
    ensures r.Ok? ==> (Names(r.value) == ["train", "test"] &&
      r.value[0].data == Images(EncodePng(Cifar(members[Cifar100Train].data).value, toPng), members[Cifar100Train].labels) &&
      r.value[1].data == Images(EncodePng(Cifar(members[Cifar100Test].data).value, toPng), members[Cifar100Test].labels))
  {
    if Cifar100Train !in members then Err(MissingMember(Cifar100Train))
    else if Cifar100Test !in members then Err(MissingMember(Cifar100Test))
    else
      var train, test := members[Cifar100Train], members[Cifar100Test];
      match (Cifar(train.data), Cifar(test.data))
      case (Err(e), _) => Err(e)
      case (_, Err(e)) => Err(e)
      case (Ok(trainImages), Ok(testImages)) =>
        var splits := [Split("train", Images(EncodePng(trainImages, toPng), train.labels)),
                       Split("test", Images(EncodePng(testImages, toPng), test.labels))];
        assert Names(splits) == ["train", "test"];
        Ok(splits)
  }

  // MNIST and Fashion-MNIST

  const MnistImagePattern := "{}-images-idx3-ubyte.gz"
  const MnistLabelPattern := "{}-labels-idx1-ubyte.gz"
  const FashionImagePattern := "{}-images-idx3-ubyte"
  const FashionLabelPattern := "{}-labels-idx1-ubyte"

  /** The (split, file prefix) pairs of the IDX loaders. */
  const IdxSplitNames: seq<string> := ["train", "test"]
  const IdxSplitFiles: seq<string> := ["train", "t10k"]

  /** One IDX split: the images file and then the labels file, each fetched (downloaded and
      decompressed by `fetch`) from the URL template filled with its file name. */
  function IdxSplit(template: string, imagePattern: string, labelPattern: string,
                    fetch: string -> seq<byte>, toPng: Image -> Blob, file: string): (r: Result<Payload>)
    ensures var images := DecodeImages(fetch(Format(template, Format(imagePattern, file))));
      var labels := DecodeLabels(fetch(Format(template, Format(labelPattern, file))));
      (r.Ok? <==> images.Ok? && labels.Ok?) &&
      (images.Err? ==> r == Err(images.error)) &&
      (images.Ok? && labels.Err? ==> r == Err(labels.error)) &&
      (r.Ok? ==> r.value == Images(EncodePng(images.value, toPng), labels.value))
  {
    var images := DecodeImages(fetch(Format(template, Format(imagePattern, file))));
    if images.Err? then Err(images.error)
    else
      var labels := DecodeLabels(fetch(Format(template, Format(labelPattern, file))));
      if labels.Err? then Err(labels.error)
      else Ok(Images(EncodePng(images.value, toPng), labels.value))
  }

  /** The splits an IDX loader returns: train, then test, stopping at the first failure. */
  function IdxSplits(template: string, imagePattern: string, labelPattern: string,
                     fetch: string -> seq<byte>, toPng: Image -> Blob): (r: Result<seq<Split>>)
    ensures var train := IdxSplit(template, imagePattern, labelPattern, fetch, toPng, IdxSplitFiles[0]);
      var test := IdxSplit(template, imagePattern, labelPattern, fetch, toPng, IdxSplitFiles[1]);
      (r.Ok? <==> train.Ok? && test.Ok?) &&
      (train.Err? ==> r == Err(train.error)) &&
      (train.Ok? && test.Err? ==> r == Err(test.error)) &&
      (r.Ok? ==> r.value == [Split(IdxSplitNames[0], train.value), Split(IdxSplitNames[1], test.value)])
  {
    var train := IdxSplit(template, imagePattern, labelPattern, fetch, toPng, IdxSplitFiles[0]);
    var test := IdxSplit(template, imagePattern, labelPattern, fetch, toPng, IdxSplitFiles[1]);
    GatherTwo(IdxSplitNames, train, test);
    Gather(IdxSplitNames, [train, test])
  }

  /** The loop shared by `_load_mnist` and `_load_fashionmnist`. */
  method LoadIdx(template: string, imagePattern: string, labelPattern: string,
                 fetch: string -> seq<byte>, toPng: Image -> Blob) returns (r: Result<seq<Split>>)
    ensures r == IdxSplits(template, imagePattern, labelPattern, fetch, toPng)
  {
    ghost var results := [IdxSplit(template, imagePattern, labelPattern, fetch, toPng, IdxSplitFiles[0]),
      IdxSplit(template, imagePattern, labelPattern, fetch, toPng, IdxSplitFiles[1])];
    var splits: seq<Split> := [];
    for k := 0 to 2
      invariant |splits| == k
      invariant forall j | 0 <= j < k :: results[j].Ok? && splits[j] == Split(IdxSplitNames[j], results[j].value)
    {
      var split, splitFile := IdxSplitNames[k], IdxSplitFiles[k];
      var images := DecodeImages(fetch(Format(template, Format(imagePattern, splitFile))));
      if images.Err? {
        assert results[k] == Err(images.error);
        GatherStops(IdxSplitNames, results, k);
        return Err(images.error);
      }
      var labels := DecodeLabels(fetch(Format(template, Format(labelPattern, splitFile))));
      if labels.Err? {
        assert results[k] == Err(labels.error);
        GatherStops(IdxSplitNames, results, k);
        return Err(labels.error);
      }
      splits := splits + [Split(split, Images(EncodePng(images.value, toPng), labels.value))];
    }
    GatherAll(IdxSplitNames, results, splits);
    return Ok(splits);
  }

  /** An IDX loader that first looks its URL template up under `key`. */
  method LoadIdxAt(urls: map<string, string>, key: string, imagePattern: string, labelPattern: string,
                   fetch: string -> seq<byte>, toPng: Image -> Blob) returns (r: Result<seq<Split>>)
    ensures key !in urls ==> r == Err(MissingKey(key))
    ensures key in urls ==> r == IdxSplits(urls[key], imagePattern, labelPattern, fetch, toPng)
  {
    var template := Lookup(urls, key);
    if template.Err? {
      return Err(template.error);
    }
    r := LoadIdx(template.value, imagePattern, labelPattern, fetch, toPng);
  }

  /** `_load_mnist` */
  method LoadMnist(fetch: string -> seq<byte>, toPng: Image -> Blob) returns (r: Result<seq<Split>>)
    ensures r == IdxSplits(Urls["mnist"], MnistImagePattern, MnistLabelPattern, fetch, toPng)
  {
    r := LoadIdxAt(Urls, "mnist", MnistImagePattern, MnistLabelPattern, fetch, toPng);
  }

  /** `_load_fashionmnist` as written: its first step, `URLS['fashion_mnist']`, raises
      KeyError, so it fails whatever the downloads would hold. */
  method LoadFashionMnist(fetch: string -> seq<byte>, toPng: Image -> Blob) returns (r: Result<seq<Split>>)
    ensures r == Err(MissingKey("fashion_mnist"))
  {
    assert forall key | key in Urls :: |key| < |"fashion_mnist"|;
    r := LoadIdxAt(Urls, "fashion_mnist", FashionImagePattern, FashionLabelPattern, fetch, toPng);
  }

  /** `_load_fashionmnist` as intended: the same loop over the files named from a URL
      template for the Fashion-MNIST files, supplied by the caller. */
  method LoadFashionMnistFrom(template: string, fetch: string -> seq<byte>, toPng: Image -> Blob)
    returns (r: Result<seq<Split>>)
    ensures r == IdxSplits(template, FashionImagePattern, FashionLabelPattern, fetch, toPng)
  {
    r := LoadIdx(template, FashionImagePattern, FashionLabelPattern, fetch, toPng);
  }

  /** When the four files at the URLs the template names are well-formed IDX files, the
      corrected Fashion-MNIST loader returns both splits with their labels. */
  lemma FashionMnistFromLoads(template: string, fetch: string -> seq<byte>, toPng: Image -> Blob,
                              dims: seq<(nat, nat, nat)>, pixels: seq<seq<byte>>, labels: seq<seq<byte>>)
    requires |dims| == 2 && |pixels| == 2 && |labels| == 2
    requires forall k | 0 <= k < 2 ::
      dims[k].0 < Two32 && dims[k].1 < Two32 && dims[k].2 < Two32 &&
      |pixels[k]| == Volume(dims[k].0, dims[k].1, dims[k].2) < Two32 && |labels[k]| < Two32
    requires forall k | 0 <= k < 2 ::
      fetch(Format(template, Format(FashionImagePattern, IdxSplitFiles[k]))) ==
        EncodeImages(dims[k].0, dims[k].1, dims[k].2, pixels[k], []) &&
      fetch(Format(template, Format(FashionLabelPattern, IdxSplitFiles[k]))) == EncodeLabels(labels[k], [])
    ensures var r := IdxSplits(template, FashionImagePattern, FashionLabelPattern, fetch, toPng);
      r.Ok? && Names(r.value) == IdxSplitNames &&
      forall k | 0 <= k < 2 :: r.value[k].data.Images? && r.value[k].data.labels == labels[k]
  {
    IdxSplitLoads(template, FashionImagePattern, FashionLabelPattern, fetch, toPng, IdxSplitFiles[0],
      dims[0], pixels[0], labels[0]);
    IdxSplitLoads(template, FashionImagePattern, FashionLabelPattern, fetch, toPng, IdxSplitFiles[1],
      dims[1], pixels[1], labels[1]);
    var r := IdxSplits(template, FashionImagePattern, FashionLabelPattern, fetch, toPng);
    assert Names(r.value) == IdxSplitNames;
  }

  /** A split whose two files are well-formed IDX files loads with the labels they hold. */
  lemma IdxSplitLoads(template: string, imagePattern: string, labelPattern: string,
                      fetch: string -> seq<byte>, toPng: Image -> Blob, file: string,
                      dims: (nat, nat, nat), pixels: seq<byte>, labels: seq<byte>)
    requires dims.0 < Two32 && dims.1 < Two32 && dims.2 < Two32
    requires |pixels| == Volume(dims.0, dims.1, dims.2) < Two32 && |labels| < Two32
    requires fetch(Format(template, Format(imagePattern, file))) == EncodeImages(dims.0, dims.1, dims.2, pixels, [])
    requires fetch(Format(template, Format(labelPattern, file))) == EncodeLabels(labels, [])
    ensures var r := IdxSplit(template, imagePattern, labelPattern, fetch, toPng, file);
      r.Ok? && r.value.Images? && r.value.labels == labels
  {
    DecodeEncodeImages(dims.0, dims.1, dims.2, pixels, []);
    DecodeEncodeLabels(labels, []);
  }

  // The retina folder dataset

  const ImgSize: nat := 100

  /** The `*.jpg` files of folder `<root>/<split>/<folder>`, each joined onto the folder path.
      `listing` holds `os.listdir` for the directories that exist. */
  function ClassFolder(root: Path, split: string, folder: string, listing: map<Path, seq<string>>): (r: Result<seq<Path>>)
    ensures var dir := Join(Join(root, split), folder);
      (r.Ok? <==> dir in listing) && (r.Err? ==> r.error == MissingDirectory(dir)) &&
      (r.Ok? ==> (|r.value| == |JpgFiles(listing[dir])| &&
        forall k | 0 <= k < |r.value| :: r.value[k] == Join(dir, JpgFiles(listing[dir])[k])))
  {
    var dir := Join(Join(root, split), folder);
    if dir !in listing then Err(MissingDirectory(dir))
    else
      var names := JpgFiles(listing[dir]);
      Ok(seq(|names|, k requires 0 <= k < |names| => Join(dir, names[k])))
  }

  /** The files of one split and their labels: folder 0 then folder 1, labelled 0 and 1. */
  function FolderSplit(root: Path, split: string, listing: map<Path, seq<string>>): (r: Result<(seq<Path>, seq<int>)>)
    ensures var dir0, dir1 := Join(Join(root, split), "0"), Join(Join(root, split), "1");
      (r.Ok? <==> dir0 in listing && dir1 in listing) &&
      (dir0 !in listing ==> r == Err(MissingDirectory(dir0))) &&
      (dir0 in listing && dir1 !in listing ==> r == Err(MissingDirectory(dir1)))
    ensures r.Ok? ==> |r.value.0| == |r.value.1|
    ensures r.Ok? ==> var imgs0, imgs1 := ClassFolder(root, split, "0", listing).value, ClassFolder(root, split, "1", listing).value;
      r.value.0 == imgs0 + imgs1 && r.value.1 == ZerosThenOnes(|imgs0|, |imgs1|)
  {
    match (ClassFolder(root, split, "0", listing), ClassFolder(root, split, "1", listing))
    case (Err(e), _) => Err(e)
    case (_, Err(e)) => Err(e)
    case (Ok(imgs0), Ok(imgs1)) => Ok((imgs0 + imgs1, ZerosThenOnes(|imgs0|, |imgs1|)))
  }

  /** Directory entries never contain a slash. */
  predicate PlainNames(listing: map<Path, seq<string>>) {
    forall dir | dir in listing :: forall k | 0 <= k < |listing[dir]| :: '/' !in listing[dir][k]
  }

  /** Every file ClassFolder lists lies directly under its folder. */
  lemma ClassFolderUnder(root: Path, split: string, folder: string, listing: map<Path, seq<string>>, k: nat)
    requires PlainNames(listing)
    requires |folder| == 1 && folder != "/"
    requires ClassFolder(root, split, folder, listing).Ok?
    requires k < |ClassFolder(root, split, folder, listing).value|
    ensures StartsWith(ClassFolder(root, split, folder, listing).value[k], Join(Join(root, split), folder) + "/")
  {
    var dir := Join(Join(root, split), folder);
    assert dir[|dir| - 1] == folder[0];
    var name := JpgFiles(listing[dir])[k];
    assert name in listing[dir];
    assert |name| > 0 ==> name[0] != '/' by {
      if |name| > 0 { assert name[0] in name; }
    }
    JoinUnder(dir, name);
  }

  /** Label k is 1 exactly when file k lies in the split's folder `1`, and there is one
      label per file. */
  lemma FolderSplitLabels(root: Path, split: string, listing: map<Path, seq<string>>, k: nat)
    requires PlainNames(listing)
    requires FolderSplit(root, split, listing).Ok?
    requires k < |FolderSplit(root, split, listing).value.0|
    ensures var (files, labels) := FolderSplit(root, split, listing).value;
      labels[k] == 1 <==> StartsWith(files[k], Join(Join(root, split), "1") + "/")
  {
    var imgs0, imgs1 := ClassFolder(root, split, "0", listing).value, ClassFolder(root, split, "1", listing).value;
    var files, labels := imgs0 + imgs1, ZerosThenOnes(|imgs0|, |imgs1|);
    assert FolderSplit(root, split, listing).value == (files, labels);
    assert labels[k] == 1 <==> k >= |imgs0|;
    if k < |imgs0| {
      assert files[k] == imgs0[k];
      FolderZeroNotUnderOne(root, split, listing, k);
    } else {
      assert files[k] == imgs1[k - |imgs0|];
      ClassFolderUnder(root, split, "1", listing, k - |imgs0|);
    }
  }

  /** A file of folder `0` does not lie under folder `1`. */
  lemma FolderZeroNotUnderOne(root: Path, split: string, listing: map<Path, seq<string>>, k: nat)
    requires PlainNames(listing)
    requires ClassFolder(root, split, "0", listing).Ok?
    requires k < |ClassFolder(root, split, "0", listing).value|
    ensures !StartsWith(ClassFolder(root, split, "0", listing).value[k], Join(Join(root, split), "1") + "/")
  {
    var base := Join(root, split);
    var dir0, dir1 := Join(base, "0"), Join(base, "1");
    ClassFolderUnder(root, split, "0", listing, k);
    assert |dir0| == |dir1| && dir0[|dir0| - 1] == '0' && dir1[|dir1| - 1] == '1';
    NotUnderBoth(ClassFolder(root, split, "0", listing).value[k], dir0, dir1);
  }

  /** A path under one folder is not under a sibling of the same length with a different
      last character. */
  lemma NotUnderBoth(f: Path, dir0: Path, dir1: Path)
    requires |dir0| == |dir1| > 0 && dir0[|dir0| - 1] != dir1[|dir1| - 1]
    requires StartsWith(f, dir0 + "/")
    ensures !StartsWith(f, dir1 + "/")
  {
    assert f[|dir0| - 1] == (dir0 + "/")[|dir0| - 1] == dir0[|dir0| - 1];
    assert (dir1 + "/")[|dir1| - 1] == dir1[|dir1| - 1];
  }

  /** One split of the folder dataset: the images opened and resized to 100x100 by
      `openResized` (not modelled), PNG-encoded, with their folder labels. */
  function FolderPayload(root: Path, split: string, listing: map<Path, seq<string>>,
                         openResized: (Path, nat) -> Image, toPng: Image -> Blob): (r: Result<Payload>)
    ensures r.Ok? <==> FolderSplit(root, split, listing).Ok?
    ensures r.Ok? ==> (r.value.Images? &&
      |r.value.images| == |FolderSplit(root, split, listing).value.0| &&
      r.value.labels == FolderSplit(root, split, listing).value.1)
    ensures r.Ok? ==> forall k | 0 <= k < |r.value.images| ::
      r.value.images[k] == toPng(openResized(FolderSplit(root, split, listing).value.0[k], ImgSize))
  {
    match FolderSplit(root, split, listing)
    case Err(e) => Err(e)
    case Ok((files, labels)) =>
      var images := seq(|files|, k requires 0 <= k < |files| => openResized(files[k], ImgSize));
      Ok(Images(EncodePng(images, toPng), labels))
  }

  /** `_load_voets` with the data directory as a parameter: the train split, then the test
      split. */
  function LoadVoets(root: Path, listing: map<Path, seq<string>>,
                     openResized: (Path, nat) -> Image, toPng: Image -> Blob): (r: Result<seq<Split>>)
    ensures r.Ok? <==> FolderSplit(root, "train", listing).Ok? && FolderSplit(root, "test", listing).Ok?
    ensures r.Ok? ==> Names(r.value) == ["train", "test"]
    ensures r.Ok? ==>
      r.value[0].data == FolderPayload(root, "train", listing, openResized, toPng).value &&
      r.value[1].data == FolderPayload(root, "test", listing, openResized, toPng).value
  {
    var train := FolderPayload(root, "train", listing, openResized, toPng);
    var test := FolderPayload(root, "test", listing, openResized, toPng);
    var results := [train, test];
    assert results[0] == train && results[1] == test;
    assert train.Ok? <==> FolderSplit(root, "train", listing).Ok?;
    assert test.Ok? <==> FolderSplit(root, "test", listing).Ok?;
    var r := Gather(["train", "test"], results);
    assert r.Ok? <==> train.Ok? && test.Ok?;
    r
  }
}
