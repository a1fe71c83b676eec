/** The per-dataset layout transforms: each turns a loader's native buffer into a batch of
    images in (batch, height, width, channel) order. */
module Unflatten {
  import opened Wrappers
  import opened Bytes
  import opened Layout

  /** A 2-D array as `scipy.io.loadmat` returns it: `rows` rows of `cols` entries, row by row. */
  datatype Matrix = Matrix(rows: nat, cols: nat, elems: seq<byte>)

  const CifarAxes: Axes := [0, 2, 3, 1]
  const Stl10Axes: Axes := [0, 3, 2, 1]
  const SvhnAxes: Axes := [3, 0, 1, 2]

  /** CIFAR stores each image as three 32x32 planes, one per channel, each row by row;
      pixel (h, w) of channel c is row h, column w of plane c. */
  function CifarIndex(n: nat, h: nat, w: nat, c: nat): nat {
    n * 3072 + c * 1024 + h * 32 + w
  }

  /** STL-10 stores its 96x96 planes the same way but column by column: pixel (i, j) is
      row j, column i of its plane, the CIFAR map with the spatial axes swapped. */
  function Stl10Index(n: nat, i: nat, j: nat, c: nat): nat {
    n * 27648 + c * 9216 + j * 96 + i
  }

  lemma CifarPixel(elems: seq<byte>, rows: nat, n: nat, h: nat, w: nat, c: nat)
    requires |elems| == rows * 3072
    requires n < rows && h < 32 && w < 32 && c < 3
    ensures HasShape(Reshape(elems, [rows, 3, 32, 32]).value, [rows, 3, 32, 32])
    ensures var r := Transpose(Reshape(elems, [rows, 3, 32, 32]).value, [rows, 3, 32, 32], CifarAxes);
      HasShape(r, [rows, 32, 32, 3]) &&
      CifarIndex(n, h, w, c) < |elems| && r[n][h][w][c] == elems[CifarIndex(n, h, w, c)]
  {
    var s: Shape := [rows, 3, 32, 32];
    var x := Reshape(elems, s).value;
    var i: Index := [n, h, w, c];
    TransposeAt(x, s, CifarAxes, i);
    var j := Source(CifarAxes, i);
    assert j == [n, c, h, w];
    ReshapeAt(elems, s, j);
  }

  /** CIFAR-10/100 `unflatten`: `reshape((rows, 3, 32, 32))` then `transpose([0, 2, 3, 1])`.
      It fails unless the matrix holds exactly 3072 entries per row; otherwise output pixel
      (n, h, w, c) is entry CifarIndex(n, h, w, c) of the row-major buffer. */
  function Cifar(m: Matrix): (r: Result<Array4>)
    ensures r.Ok? <==> |m.elems| == m.rows * 3072
    ensures r.Ok? ==> HasShape(r.value, [m.rows, 32, 32, 3])
    ensures r.Ok? ==> forall n: nat, h: nat, w: nat, c: nat | n < m.rows && h < 32 && w < 32 && c < 3 ::
      CifarIndex(n, h, w, c) < |m.elems| && r.value[n][h][w][c] == m.elems[CifarIndex(n, h, w, c)]
  {
    match Reshape(m.elems, [m.rows, 3, 32, 32])
    case Err(e) => Err(e)
    case Ok(x) =>
      var r := Transpose(x, [m.rows, 3, 32, 32], CifarAxes);
      assert forall n: nat, h: nat, w: nat, c: nat | n < m.rows && h < 32 && w < 32 && c < 3 ::
        CifarIndex(n, h, w, c) < |m.elems| && r[n][h][w][c] == m.elems[CifarIndex(n, h, w, c)] by {
        forall n: nat, h: nat, w: nat, c: nat | n < m.rows && h < 32 && w < 32 && c < 3
          ensures CifarIndex(n, h, w, c) < |m.elems| && r[n][h][w][c] == m.elems[CifarIndex(n, h, w, c)]
        {
          CifarPixel(m.elems, m.rows, n, h, w, c);
        }
      }
      Ok(r)
  }

  /** Every position of a CIFAR buffer is read by some output pixel, namely the one below ... */
  lemma CifarIndexOnto(rows: nat, k: nat)
    requires k < rows * 3072
    ensures var n, c, h, w := k / 3072, (k % 3072) / 1024, (k % 1024) / 32, k % 32;
      n < rows && h < 32 && w < 32 && c < 3 && CifarIndex(n, h, w, c) == k
  {
    DivBelow(k, 3072, rows);
    var n, plane := k / 3072, k % 3072;
    var c, rest := plane / 1024, plane % 1024;
    var h, w := rest / 32, rest % 32;
    assert k == n * 3072 + plane;
    assert plane == c * 1024 + rest;
    assert rest == h * 32 + w;
    ModOfMultiple(k, 3, 1024);
    ModOfMultiple(k, 32, 32);
    DivBelow(plane, 1024, 3);
    DivBelow(rest, 32, 32);
  }

  /** ... and by no other: distinct pixels read distinct positions. */
  lemma {:induction false} CifarIndexInjective(n: nat, h: nat, w: nat, c: nat, n': nat, h': nat, w': nat, c': nat)
    requires h < 32 && w < 32 && c < 3 && h' < 32 && w' < 32 && c' < 3
    requires CifarIndex(n, h, w, c) == CifarIndex(n', h', w', c')
    ensures n == n' && h == h' && w == w' && c == c'
  {
    DivModOf(n, c * 1024 + h * 32 + w, 3072);
    DivModOf(n', c' * 1024 + h' * 32 + w', 3072);
    DivModOf(c, h * 32 + w, 1024);
    DivModOf(c', h' * 32 + w', 1024);
    DivModOf(h, w, 32);
    DivModOf(h', w', 32);
  }

  lemma Stl10Pixel(flat: seq<byte>, n: nat, i: nat, j: nat, c: nat)
    requires |flat| % 27648 == 0
    requires n < |flat| / 27648 && i < 96 && j < 96 && c < 3
    ensures HasShape(Reshape(flat, [|flat| / 27648, 3, 96, 96]).value, [|flat| / 27648, 3, 96, 96])
    ensures var r := Transpose(Reshape(flat, [|flat| / 27648, 3, 96, 96]).value, [|flat| / 27648, 3, 96, 96], Stl10Axes);
      HasShape(r, [|flat| / 27648, 96, 96, 3]) &&
      Stl10Index(n, i, j, c) < |flat| && r[n][i][j][c] == flat[Stl10Index(n, i, j, c)]
  {
    var s: Shape := [|flat| / 27648, 3, 96, 96];
    assert |flat| == Size(s);
    var x := Reshape(flat, s).value;
    var o: Index := [n, i, j, c];
    TransposeAt(x, s, Stl10Axes, o);
    var src := Source(Stl10Axes, o);
    assert src == [n, c, j, i];
    ReshapeAt(flat, s, src);
  }

  /** STL-10 `unflatten`: `reshape((-1, 3, 96, 96))` then `transpose([0, 3, 2, 1])`. The -1
      axis takes whatever count fits, so it fails unless the buffer is a whole number of
      27648-byte images; otherwise output pixel (n, i, j, c) is byte Stl10Index(n, i, j, c). */
  function Stl10(flat: seq<byte>): (r: Result<Array4>)
    ensures r.Ok? <==> |flat| % 27648 == 0
    ensures r.Ok? ==> HasShape(r.value, [|flat| / 27648, 96, 96, 3])
    ensures r.Ok? ==> forall n: nat, i: nat, j: nat, c: nat | n < |flat| / 27648 && i < 96 && j < 96 && c < 3 ::
      Stl10Index(n, i, j, c) < |flat| && r.value[n][i][j][c] == flat[Stl10Index(n, i, j, c)]
  {
    if |flat| % 27648 != 0 then Err(ShapeMismatch)
    else
      var s: Shape := [|flat| / 27648, 3, 96, 96];
      match Reshape(flat, s)
      case Err(e) => Err(e)
      case Ok(x) =>
        var r := Transpose(x, s, Stl10Axes);
        assert forall n: nat, i: nat, j: nat, c: nat | n < |flat| / 27648 && i < 96 && j < 96 && c < 3 ::
          Stl10Index(n, i, j, c) < |flat| && r[n][i][j][c] == flat[Stl10Index(n, i, j, c)] by {
          forall n: nat, i: nat, j: nat, c: nat | n < |flat| / 27648 && i < 96 && j < 96 && c < 3
            ensures Stl10Index(n, i, j, c) < |flat| && r[n][i][j][c] == flat[Stl10Index(n, i, j, c)]
          {
            Stl10Pixel(flat, n, i, j, c);
          }
        }
        Ok(r)
  }

  /** Every position of an STL-10 buffer is read by exactly one output pixel. */
  lemma Stl10IndexOnto(count: nat, k: nat)
    requires k < count * 27648
    ensures var n, c, j, i := k / 27648, (k % 27648) / 9216, (k % 9216) / 96, k % 96;
      n < count && i < 96 && j < 96 && c < 3 && Stl10Index(n, i, j, c) == k
  {
    DivBelow(k, 27648, count);
    var n, plane := k / 27648, k % 27648;
    var c, rest := plane / 9216, plane % 9216;
    var j, i := rest / 96, rest % 96;
    assert k == n * 27648 + plane;
    assert plane == c * 9216 + rest;
    assert rest == j * 96 + i;
    ModOfMultiple(k, 3, 9216);
    ModOfMultiple(k, 96, 96);
    DivBelow(plane, 9216, 3);
    DivBelow(rest, 96, 96);
  }

  lemma {:induction false} Stl10IndexInjective(n: nat, i: nat, j: nat, c: nat, n': nat, i': nat, j': nat, c': nat)
    requires i < 96 && j < 96 && c < 3 && i' < 96 && j' < 96 && c' < 3
    requires Stl10Index(n, i, j, c) == Stl10Index(n', i', j', c')
    ensures n == n' && i == i' && j == j' && c == c'
  {
    DivModOf(n, c * 9216 + j * 96 + i, 27648);
    DivModOf(n', c' * 9216 + j' * 96 + i', 27648);
    DivModOf(c, j * 96 + i, 9216);
    DivModOf(c', j' * 96 + i', 9216);
    DivModOf(j, i, 96);
    DivModOf(j', i', 96);
  }

  /** SVHN: `np.transpose(X, [3, 0, 1, 2])` moves the batch axis of the (height, width,
      channel, batch) matrix to the front. */
  function Svhn(x: Array4, s: Shape): (r: Array4)
    requires HasShape(x, s)
    ensures HasShape(r, [s[3], s[0], s[1], s[2]])
    ensures forall n: nat, h: nat, w: nat, c: nat | n < s[3] && h < s[0] && w < s[1] && c < s[2] :: r[n][h][w][c] == x[h][w][c][n]
  {
    var r := Transpose(x, s, SvhnAxes);
    assert Permuted(s, SvhnAxes) == [s[3], s[0], s[1], s[2]];
    forall n: nat, h: nat, w: nat, c: nat | n < s[3] && h < s[0] && w < s[1] && c < s[2]
      ensures r[n][h][w][c] == x[h][w][c][n]
    {
      var i: Index := [n, h, w, c];
      TransposeAt(x, s, SvhnAxes, i);
      assert Source(SvhnAxes, i) == [h, w, c, n];
    }
    r
  }
}
