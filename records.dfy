/** The TFRecord file `_save_as_tfrecord` produces, as a sequence of (image, label) records
    appended by a writer. Protobuf serialisation is not modelled: a record is the pair itself. */
module Records {
  import opened Bytes

  /** One `tf.train.Example`: the `image` bytes feature and the `label` int64 feature. */
  datatype Record = Record(image: seq<byte>, labelValue: int)

  /** The records of images and labels taken pairwise, in index order. */
  function Zip(images: seq<seq<byte>>, labels: seq<int>): (r: seq<Record>)
    requires |images| == |labels|
    ensures |r| == |images|
    ensures forall x | 0 <= x < |r| :: r[x].image == images[x] && r[x].labelValue == labels[x]
  {
    seq(|images|, x requires 0 <= x < |images| => Record(images[x], labels[x]))
  }

  function Images(records: seq<Record>): seq<seq<byte>> {
    seq(|records|, x requires 0 <= x < |records| => records[x].image)
  }

  function LabelsOf(records: seq<Record>): seq<int> {
    seq(|records|, x requires 0 <= x < |records| => records[x].labelValue)
  }

  /** A record file keeps everything: the images and labels can be read back from it. */
  lemma ZipUnzip(images: seq<seq<byte>>, labels: seq<int>)
    requires |images| == |labels|
    ensures Images(Zip(images, labels)) == images
    ensures LabelsOf(Zip(images, labels)) == labels
  {
  }

  /** Cutting a record file after x records gives the records of the first x pairs. */
  lemma ZipPrefix(images: seq<seq<byte>>, labels: seq<int>, x: nat)
    requires |images| == |labels| && x < |images|
    ensures Zip(images[..x + 1], labels[..x + 1]) == Zip(images[..x], labels[..x]) + [Record(images[x], labels[x])]
  {
  }

  /** `tf.io.TFRecordWriter`: an open record file to which records are appended. */
  class RecordWriter {
    var records: seq<Record>

    constructor()
      ensures records == []
    {
      records := [];
    }

    /** `writer.write(record.SerializeToString())` */
    method Write(r: Record)
      modifies this
      ensures records == old(records) + [r]
    {
      records := records + [r];
    }
  }
}
