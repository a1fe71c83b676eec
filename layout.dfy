/** numpy's `reshape` (C order) and `transpose` on rank-4 byte arrays, written as nested
    sequences with the outermost axis first. A batch of images is such an array in
    (batch, height, width, channel) order. */
module Layout {
  import opened Wrappers
  import opened Bytes

  /** The extents of the four axes, outermost first. */
  type Shape = s: seq<nat> | |s| == 4 witness [0, 0, 0, 0]
  /** A position in a rank-4 array, one coordinate per axis. */
  type Index = i: seq<nat> | |i| == 4 witness [0, 0, 0, 0]
  /** One image: height, then width, then channel. */
  type Image = seq<seq<seq<byte>>>
  /** A rank-4 array; read as a batch, element n is the n-th image. */
  type Array4 = seq<Image>

  function Size(s: Shape): nat {
    s[0] * s[1] * s[2] * s[3]
  }

  /** Every level of nesting has the extent the shape gives it. */
  predicate HasShape(x: Array4, s: Shape) {
    |x| == s[0] &&
    forall a | 0 <= a < |x| :: |x[a]| == s[1] &&
      forall b | 0 <= b < |x[a]| :: |x[a][b]| == s[2] &&
        forall c | 0 <= c < |x[a][b]| :: |x[a][b][c]| == s[3]
  }

  predicate InBounds(i: Index, s: Shape) {
    i[0] < s[0] && i[1] < s[1] && i[2] < s[2] && i[3] < s[3]
  }

  function At(x: Array4, s: Shape, i: Index): byte
    requires HasShape(x, s) && InBounds(i, s)
  {
    x[i[0]][i[1]][i[2]][i[3]]
  }

  /** Position of index i in the row-major (C order) flattening of shape s. */
  function Offset(s: Shape, i: Index): nat {
    ((i[0] * s[1] + i[1]) * s[2] + i[2]) * s[3] + i[3]
  }

  lemma MulStep(x: nat, bound: nat, y: nat, d: nat)
    requires x < bound && y < d
    ensures x * d + y < bound * d
  {
    assert x * d + y < x * d + d == (x + 1) * d;
    assert (x + 1) * d <= bound * d;
  }

  /** Every in-bounds index lands inside the flat buffer. */
  lemma OffsetInRange(s: Shape, i: Index)
    requires InBounds(i, s)
    ensures Offset(s, i) < Size(s)
  {
    MulStep(i[0], s[0], i[1], s[1]);
    MulStep(i[0] * s[1] + i[1], s[0] * s[1], i[2], s[2]);
    MulStep((i[0] * s[1] + i[1]) * s[2] + i[2], s[0] * s[1] * s[2], i[3], s[3]);
  }

  lemma MulLe(a: nat, b: nat, d: nat)
    requires a <= b
    ensures a * d <= b * d
  {
  }

  lemma DivModOf(q: nat, r: nat, d: nat)
    requires r < d
    ensures (q * d + r) / d == q && (q * d + r) % d == r
  {
    var x := q * d + r;
    var q', r' := x / d, x % d;
    assert x == q' * d + r';
    if q' > q {
      MulLe(q + 1, q', d);
      assert false;
    } else if q' < q {
      MulLe(q' + 1, q, d);
      assert false;
    }
  }

  /** Reducing modulo a multiple of d first does not change the remainder modulo d. */
  lemma ModOfMultiple(k: nat, m: nat, d: nat)
    requires m > 0 && d > 0
    ensures (k % (m * d)) % d == k % d
  {
    var md := m * d;
    var q, p := k / md, k % md;
    var a, b := p / d, p % d;
    Recombine(k, q, m, d, p, a, b);
    DivModOf(q * m + a, b, d);
  }

  lemma Recombine(k: int, q: int, m: int, d: int, p: int, a: int, b: int)
    requires k == q * (m * d) + p && p == a * d + b
    ensures k == (q * m + a) * d + b
  {
    MulAssoc(q, m, d);
    MulDistrib(q * m, a, d);
  }

  lemma MulAssoc(a: int, b: int, c: int)
    ensures a * (b * c) == (a * b) * c
  {
  }

  lemma MulDistrib(a: int, b: int, c: int)
    ensures (a + b) * c == a * c + b * c
  {
  }

  lemma DivBelow(k: nat, d: nat, bound: nat)
    requires k < bound * d
    ensures d > 0 && k / d < bound
  {
    assert k == (k / d) * d + k % d;
  }

  /** The index whose row-major position is k: Offset's inverse. */
  function Coords(s: Shape, k: nat): (i: Index)
    requires k < Size(s)
    ensures InBounds(i, s) && Offset(s, i) == k
  {
    DivBelow(k, s[3], s[0] * s[1] * s[2]);
    var k2 := k / s[3];
    DivBelow(k2, s[2], s[0] * s[1]);
    var k1 := k2 / s[2];
    DivBelow(k1, s[1], s[0]);
    var i: Index := [k1 / s[1], k1 % s[1], k2 % s[2], k % s[3]];
    assert k1 == (k1 / s[1]) * s[1] + k1 % s[1];
    assert k2 == k1 * s[2] + k2 % s[2];
    assert k == k2 * s[3] + k % s[3];
    i
  }

  /** Offset is one-to-one on the in-bounds indices: Coords undoes it. */
  lemma OffsetInjective(s: Shape, i: Index)
    requires InBounds(i, s)
    ensures Offset(s, i) < Size(s) && Coords(s, Offset(s, i)) == i
  {
    OffsetInRange(s, i);
    var k1 := i[0] * s[1] + i[1];
    var k2 := k1 * s[2] + i[2];
    var k := k2 * s[3] + i[3];
    DivModOf(k2, i[3], s[3]);
    DivModOf(k1, i[2], s[2]);
    DivModOf(i[0], i[1], s[1]);
  }

  /** The nested array read row-major out of a buffer of exactly the right size. */
  function Unflat(flat: seq<byte>, s: Shape): Array4
    requires |flat| == Size(s)
  {
    seq(s[0], a requires 0 <= a < s[0] =>
      seq(s[1], b requires 0 <= b < s[1] =>
        seq(s[2], c requires 0 <= c < s[2] =>
          seq(s[3], d requires 0 <= d < s[3] =>
            Cell(flat, s, a, b, c, d)))))
  }

  /** Entry (a, b, c, d) of the reshaped buffer. */
  function Cell(flat: seq<byte>, s: Shape, a: nat, b: nat, c: nat, d: nat): byte
    requires |flat| == Size(s) && InBounds([a, b, c, d], s)
  {
    OffsetInRange(s, [a, b, c, d]);
    flat[Offset(s, [a, b, c, d])]
  }

  lemma UnflatShape(flat: seq<byte>, s: Shape)
    requires |flat| == Size(s)
    ensures HasShape(Unflat(flat, s), s)
  {
  }

  /** `flat.reshape(s)`: the buffer read in row-major order; fails unless the sizes agree. */
  function Reshape(flat: seq<byte>, s: Shape): (r: Result<Array4>)
    ensures r.Ok? <==> |flat| == Size(s)
    ensures r.Ok? ==> HasShape(r.value, s)
  {
    if |flat| != Size(s) then Err(ShapeMismatch)
    else
      UnflatShape(flat, s);
      Ok(Unflat(flat, s))
  }

  /** Element i of the reshaped array is the buffer entry at i's row-major position. */
  lemma ReshapeAt(flat: seq<byte>, s: Shape, i: Index)
    requires |flat| == Size(s) && InBounds(i, s)
    ensures Offset(s, i) < |flat| && At(Reshape(flat, s).value, s, i) == flat[Offset(s, i)]
  {
    OffsetInRange(s, i);
    UnflatShape(flat, s);
    assert i == [i[0], i[1], i[2], i[3]];
    assert Unflat(flat, s)[i[0]][i[1]][i[2]][i[3]] == Cell(flat, s, i[0], i[1], i[2], i[3]);
  }

  /** An `axes` argument of `np.transpose`: a permutation of 0..3. */
  predicate IsAxes(p: seq<nat>) {
    |p| == 4 && p[0] < 4 && p[1] < 4 && p[2] < 4 && p[3] < 4 &&
    p[0] != p[1] && p[0] != p[2] && p[0] != p[3] && p[1] != p[2] && p[1] != p[3] && p[2] != p[3]
  }

  type Axes = p: seq<nat> | IsAxes(p) witness [0, 1, 2, 3]

  /** The output axis that input axis m moves to. */
  function Position(p: Axes, m: nat): (k: nat)
    requires m < 4
    ensures k < 4 && p[k] == m
  {
    if p[0] == m then 0 else if p[1] == m then 1 else if p[2] == m then 2 else 3
  }

  /** Shape of `np.transpose(x, p)`: output axis k has the extent of input axis p[k]. */
  function Permuted(s: Shape, p: Axes): Shape {
    [s[p[0]], s[p[1]], s[p[2]], s[p[3]]]
  }

  /** The input index that output index i reads: coordinate k of i goes to axis p[k]. */
  function Source(p: Axes, i: Index): (j: Index)
    ensures j[p[0]] == i[0] && j[p[1]] == i[1] && j[p[2]] == i[2] && j[p[3]] == i[3]
  {
    [i[Position(p, 0)], i[Position(p, 1)], i[Position(p, 2)], i[Position(p, 3)]]
  }

  lemma SourceInBounds(s: Shape, p: Axes, i: Index)
    requires InBounds(i, Permuted(s, p))
    ensures InBounds(Source(p, i), s)
  {
    var t := Permuted(s, p);
    forall m | 0 <= m < 4 ensures Source(p, i)[m] < s[m] {
      var k := Position(p, m);
      assert i[k] < t[k];
    }
  }

  /** Element (a, b, c, d) of the transposed array. */
  function Elem(x: Array4, s: Shape, p: Axes, a: nat, b: nat, c: nat, d: nat): byte
    requires HasShape(x, s) && InBounds([a, b, c, d], Permuted(s, p))
  {
    SourceInBounds(s, p, [a, b, c, d]);
    At(x, s, Source(p, [a, b, c, d]))
  }

  function Permute(x: Array4, s: Shape, p: Axes): Array4
    requires HasShape(x, s)
  {
    var t := Permuted(s, p);
    seq(t[0], a requires 0 <= a < t[0] =>
      seq(t[1], b requires 0 <= b < t[1] =>
        seq(t[2], c requires 0 <= c < t[2] =>
          seq(t[3], d requires 0 <= d < t[3] => Elem(x, s, p, a, b, c, d)))))
  }

  lemma PermuteShape(x: Array4, s: Shape, p: Axes)
    requires HasShape(x, s)
    ensures HasShape(Permute(x, s, p), Permuted(s, p))
  {
  }

  /** `np.transpose(x, p)`: output element i is the input element whose coordinate on axis
      p[k] is i[k] (TransposeAt). Every input element appears exactly once, because Source
      is a bijection between the index boxes (SourceBijective). */
  function Transpose(x: Array4, s: Shape, p: Axes): (r: Array4)
    requires HasShape(x, s)
    ensures HasShape(r, Permuted(s, p))
  {
    PermuteShape(x, s, p);
    Permute(x, s, p)
  }

  lemma TransposeAt(x: Array4, s: Shape, p: Axes, i: Index)
    requires HasShape(x, s) && InBounds(i, Permuted(s, p))
    ensures InBounds(Source(p, i), s)
    ensures At(Transpose(x, s, p), Permuted(s, p), i) == At(x, s, Source(p, i))
  {
    SourceInBounds(s, p, i);
    PermuteShape(x, s, p);
    assert i == [i[0], i[1], i[2], i[3]];
    assert Permute(x, s, p)[i[0]][i[1]][i[2]][i[3]] == Elem(x, s, p, i[0], i[1], i[2], i[3]);
  }

  /** The index of the output that reads input index j: Source's inverse. */
  function Target(p: Axes, j: Index): (i: Index)
    ensures i[0] == j[p[0]] && i[1] == j[p[1]] && i[2] == j[p[2]] && i[3] == j[p[3]]
  {
    [j[p[0]], j[p[1]], j[p[2]], j[p[3]]]
  }

  /** Source and Target are inverse maps between the index boxes of s and Permuted(s, p). */
  lemma SourceBijective(s: Shape, p: Axes, i: Index, j: Index)
    ensures Target(p, Source(p, i)) == i && Source(p, Target(p, j)) == j
    ensures InBounds(j, s) ==> InBounds(Target(p, j), Permuted(s, p))
  {
    var j' := Source(p, Target(p, j));
    assert j'[p[0]] == j[p[0]] && j'[p[1]] == j[p[1]] && j'[p[2]] == j[p[2]] && j'[p[3]] == j[p[3]];
    assert j'[0] == j[0] by { assert p[Position(p, 0)] == 0; }
    assert j'[1] == j[1] by { assert p[Position(p, 1)] == 1; }
    assert j'[2] == j[2] by { assert p[Position(p, 2)] == 2; }
    assert j'[3] == j[3] by { assert p[Position(p, 3)] == 3; }
  }
}
