/** The IDX container of the MNIST image and label files: a big-endian header of 32-bit
    words followed by raw unsigned bytes. */
module Idx {
  import opened Wrappers
  import opened Bytes
  import opened Layout

  const ImageMagic: nat := 2051
  const LabelMagic: nat := 2049

  /** The big-endian word at byte k. */
  function Word(data: seq<byte>, k: nat): (v: nat)
    requires k + 4 <= |data|
    ensures v < Two32
  {
    BigEndian(data[k], data[k + 1], data[k + 2], data[k + 3])
  }

  lemma Read32Word(r: Reader)
    requires r.pos + 4 <= |r.data|
    ensures Read32(r).0 == Ok(Word(r.data, r.pos))
  {
  }

  /** The number of pixels of n images of row*col pixels. */
  function Volume(n: nat, row: nat, col: nat): nat {
    MulNat(n, row, col);
    n * row * col
  }

  lemma MulNat(a: nat, b: nat, c: nat)
    ensures a * b * c >= 0
  {
    assert a * b >= 0;
  }

  /** The image half of `_load_mnist`: magic 2051, then the image count, rows and columns,
      then `data.read(n * row * col)` reshaped to (n, row, col, 1). The product is taken on
      numpy uint32 scalars, so it wraps modulo 2^32 before the read. */
  function DecodeImages(data: seq<byte>): (r: Result<Array4>)
    ensures r.Ok? <==>
      |data| >= 16 && Word(data, 0) == ImageMagic &&
      Volume(Word(data, 4), Word(data, 8), Word(data, 12)) < Two32 &&
      16 + Volume(Word(data, 4), Word(data, 8), Word(data, 12)) <= |data|
    ensures |data| >= 4 && Word(data, 0) != ImageMagic ==> r == Err(BadMagic(ImageMagic, Word(data, 0)))
    ensures r.Ok? ==> HasShape(r.value, [Word(data, 4), Word(data, 8), Word(data, 12), 1])
  {
    var (magic, r1) := Read32(Reader(data, 0));
    if magic.Err? then Err(magic.error)
    else if magic.value != ImageMagic then Err(BadMagic(ImageMagic, magic.value))
    else
      var (n, r2) := Read32(r1);
      var (row, r3) := Read32(r2);
      var (col, r4) := Read32(r3);
      if n.Err? || row.Err? || col.Err? then Err(ShortRead)
      else
        var wrapped := (Volume(n.value, row.value, col.value)) % Two32;
        var (pixels, _) := Read(r4, wrapped);
        ReadWords(data);
        assert |pixels| == Size([n.value, row.value, col.value, 1]) <==>
          Volume(n.value, row.value, col.value) < Two32 && 16 + Volume(n.value, row.value, col.value) <= |data| by {
          WrappedRead(Volume(n.value, row.value, col.value), |data| - 16, |pixels|);
        }
        Reshape(pixels, [n.value, row.value, col.value, 1])
  }

  /** The four header words are what Read32 returns at positions 0, 4, 8 and 12. */
  lemma ReadWords(data: seq<byte>)
    requires |data| >= 4
    ensures var (m, r1) := Read32(Reader(data, 0));
      m == Ok(Word(data, 0)) && r1 == Reader(data, 4) &&
      (|data| >= 8 ==> Read32(r1).0 == Ok(Word(data, 4)) && Read32(r1).1 == Reader(data, 8)) &&
      (|data| >= 12 ==> Read32(Reader(data, 8)).0 == Ok(Word(data, 8)) && Read32(Reader(data, 8)).1 == Reader(data, 12)) &&
      (|data| >= 16 ==> Read32(Reader(data, 12)).0 == Ok(Word(data, 12)) && Read32(Reader(data, 12)).1 == Reader(data, 16))
  {
    Read32Word(Reader(data, 0));
    if |data| >= 8 { Read32Word(Reader(data, 4)); }
    if |data| >= 12 { Read32Word(Reader(data, 8)); }
    if |data| >= 16 { Read32Word(Reader(data, 12)); }
  }

  /** Reading `product mod 2^32` bytes out of `avail` yields `product` bytes exactly when
      the product fits in 32 bits and enough bytes remain. */
  lemma WrappedRead(product: nat, avail: int, got: nat)
    requires avail >= 0
    requires got == if product % Two32 <= avail then product % Two32 else avail
    ensures got == product <==> product < Two32 && product <= avail
  {
    if product >= Two32 {
      assert product % Two32 < Two32;
    } else {
      assert product % Two32 == product;
    }
  }

  /** Where pixel (i, y, x) of an image file with row*col pixel images sits. */
  function PixelIndex(row: nat, col: nat, i: nat, y: nat, x: nat): nat {
    16 + i * row * col + y * col + x
  }

  /** Pixel (i, y, x) of an image file with header (n, row, col) is byte 16 + i*row*col + y*col + x. */
  lemma DecodeImagesAt(data: seq<byte>, n: nat, row: nat, col: nat, i: nat, y: nat, x: nat)
    requires DecodeImages(data).Ok?
    requires n == Word(data, 4) && row == Word(data, 8) && col == Word(data, 12)
    requires i < n && y < row && x < col
    ensures PixelIndex(row, col, i, y, x) < |data|
    ensures DecodeImages(data).value[i][y][x][0] == data[PixelIndex(row, col, i, y, x)]
  {
    var s: Shape := [n, row, col, 1];
    var pixels := DecodedPixels(data);
    var j: Index := [i, y, x, 0];
    ReshapeAt(pixels, s, j);
    PixelOffset(n, row, col, i, y, x);
  }

  /** The pixel bytes DecodeImages reshapes: those right after the header. */
  lemma DecodedPixels(data: seq<byte>) returns (pixels: seq<byte>)
    requires DecodeImages(data).Ok?
    ensures |data| >= 16
    ensures 16 + Volume(Word(data, 4), Word(data, 8), Word(data, 12)) <= |data|
    ensures pixels == data[16..16 + Volume(Word(data, 4), Word(data, 8), Word(data, 12))]
    ensures DecodeImages(data) == Reshape(pixels, [Word(data, 4), Word(data, 8), Word(data, 12), 1])
  {
    ReadWords(data);
    var product := Volume(Word(data, 4), Word(data, 8), Word(data, 12));
    assert product % Two32 == product;
    pixels := Read(Reader(data, 16), product).0;
  }

  lemma PixelOffset(n: nat, row: nat, col: nat, i: nat, y: nat, x: nat)
    requires i < n && y < row && x < col
    ensures Offset([n, row, col, 1], [i, y, x, 0]) == i * row * col + y * col + x
    ensures i * row * col + y * col + x < Volume(n, row, col)
  {
    assert Offset([n, row, col, 1], [i, y, x, 0]) == (i * row + y) * col + x;
    assert (i * row + y) * col == i * row * col + y * col;
    OffsetInRange([n, row, col, 1], [i, y, x, 0]);
  }

  /** An image file: the header words, the pixels, and whatever trails them. */
  function EncodeImages(n: nat, row: nat, col: nat, pixels: seq<byte>, trailer: seq<byte>): seq<byte>
    requires n < Two32 && row < Two32 && col < Two32
  {
    Encode32(ImageMagic) + Encode32(n) + Encode32(row) + Encode32(col) + pixels + trailer
  }

  /** Decoding an encoded image file gives back the pixels in (n, row, col, 1) layout. */
  lemma DecodeEncodeImages(n: nat, row: nat, col: nat, pixels: seq<byte>, trailer: seq<byte>)
    requires n < Two32 && row < Two32 && col < Two32
    requires |pixels| == Volume(n, row, col) < Two32
    ensures DecodeImages(EncodeImages(n, row, col, pixels, trailer)) == Reshape(pixels, [n, row, col, 1])
    ensures DecodeImages(EncodeImages(n, row, col, pixels, trailer)).Ok?
  {
    var data := EncodeImages(n, row, col, pixels, trailer);
    var e0, e1, e2, e3 := Encode32(ImageMagic), Encode32(n), Encode32(row), Encode32(col);
    assert data == e0 + e1 + e2 + e3 + pixels + trailer;
    assert data[0..4] == e0;
    assert data[4..8] == e1;
    assert data[8..12] == e2;
    assert data[12..16] == e3;
    assert data[16..16 + |pixels|] == pixels;
    HeaderWord(data, 0, ImageMagic);
    HeaderWord(data, 4, n);
    HeaderWord(data, 8, row);
    HeaderWord(data, 12, col);
    var got := DecodedPixels(data);
  }

  lemma HeaderWord(data: seq<byte>, k: nat, v: nat)
    requires v < Two32 && k + 4 <= |data| && data[k..k + 4] == Encode32(v)
    ensures Word(data, k) == v
  {
    Read32Encode32(data[..k], v, data[k + 4..]);
    assert data == data[..k] + Encode32(v) + data[k + 4..];
    Read32Word(Reader(data, k));
  }

  /** The label half of `_load_mnist`: magic 2049, the label count n, then `data.read(n)`.
      Nothing checks that n labels were actually there: a short file gives fewer labels. */
  function DecodeLabels(data: seq<byte>): (r: Result<seq<byte>>)
    ensures r.Ok? <==> |data| >= 8 && Word(data, 0) == LabelMagic
    ensures |data| >= 4 && Word(data, 0) != LabelMagic ==> r == Err(BadMagic(LabelMagic, Word(data, 0)))
    ensures r.Ok? ==> r.value == data[8..if 8 + Word(data, 4) <= |data| then 8 + Word(data, 4) else |data|]
  {
    var (magic, r1) := Read32(Reader(data, 0));
    if magic.Err? then Err(magic.error)
    else if magic.value != LabelMagic then Err(BadMagic(LabelMagic, magic.value))
    else
      var (n, r2) := Read32(r1);
      if n.Err? then Err(n.error)
      else
        ReadWords(data);
        Ok(Read(r2, n.value).0)
  }

  /** A label file: the header words, the labels, and whatever trails them. */
  function EncodeLabels(labels: seq<byte>, trailer: seq<byte>): seq<byte>
    requires |labels| < Two32
  {
    Encode32(LabelMagic) + Encode32(|labels|) + labels + trailer
  }

  /** Decoding an encoded label file gives back exactly the labels. */
  lemma DecodeEncodeLabels(labels: seq<byte>, trailer: seq<byte>)
    requires |labels| < Two32
    ensures DecodeLabels(EncodeLabels(labels, trailer)) == Ok(labels)
  {
    var data := EncodeLabels(labels, trailer);
    HeaderWord(data, 0, LabelMagic);
    HeaderWord(data, 4, |labels|);
    assert data[8..8 + |labels|] == labels;
  }
}
