/** The label arithmetic of the loaders: SVHN's `% 10`, STL-10's uint8 `- 1`, the in-order
    concatenation of CIFAR-10's batches and the folder loader's zeros-then-ones. */
module Labels {
  import opened Bytes
  import Layout

  /** SVHN: `labels %= 10`, which turns the raw label 10 (the digit 0) into 0. */
  function SvhnLabels(y: seq<int>): (r: seq<int>)
    ensures |r| == |y|
    ensures forall k | 0 <= k < |y| :: 0 <= r[k] < 10
    ensures forall k | 0 <= k < |y| :: y[k] == 10 ==> r[k] == 0
    ensures forall k | 0 <= k < |y| :: 1 <= y[k] <= 9 ==> r[k] == y[k]
  {
    seq(|y|, k requires 0 <= k < |y| => y[k] % 10)
  }

  /** Raw SVHN labels 1..10 become exactly the digits 0..9: the map is onto. */
  lemma SvhnLabelsOnto(d: int)
    requires 0 <= d < 10
    ensures exists raw :: 1 <= raw <= 10 && SvhnLabels([raw]) == [d]
  {
    var raw := if d == 0 then 10 else d;
    assert SvhnLabels([raw]) == [d];
  }

  /** STL-10: `np.frombuffer(..., dtype=np.uint8) - 1`, uint8 arithmetic, so 0 wraps to 255. */
  function Stl10Labels(y: seq<byte>): (r: seq<byte>)
    ensures |r| == |y|
    ensures forall k | 0 <= k < |y| :: y[k] >= 1 ==> r[k] == y[k] - 1
    ensures forall k | 0 <= k < |y| :: y[k] == 0 ==> r[k] == 255
  {
    seq(|y|, k requires 0 <= k < |y| => (y[k] as int - 1) % 256)
  }

  /** The STL-10 classes are stored as 1..10; after `- 1` they are 0..9, and no two raw
      labels collide. */
  lemma Stl10LabelsRange(y: seq<byte>, i: nat, j: nat)
    requires forall k | 0 <= k < |y| :: 1 <= y[k] <= 10
    requires i < |y| && j < |y|
    ensures Stl10Labels(y)[i] < 10
    ensures Stl10Labels(y)[i] == Stl10Labels(y)[j] <==> y[i] == y[j]
  {
  }

  /** `np.concatenate(parts, axis=0)` on one-dimensional arrays. */
  function ConcatAll<T>(parts: seq<seq<T>>): (r: seq<T>)
    ensures |r| == TotalLength(parts)
  {
    if |parts| == 0 then [] else parts[0] + ConcatAll(parts[1..])
  }

  function TotalLength<T>(parts: seq<seq<T>>): nat {
    if |parts| == 0 then 0 else |parts[0]| + TotalLength(parts[1..])
  }

  /** Parts of m elements each: element i of the concatenation is element i % m of part i / m,
      so the parts appear whole and in ascending order. */
  lemma {:induction false} ConcatAllAt<T>(parts: seq<seq<T>>, m: nat, i: nat)
    requires forall k | 0 <= k < |parts| :: |parts[k]| == m
    requires i < |parts| * m
    ensures m > 0 && i / m < |parts|
    ensures |ConcatAll(parts)| == |parts| * m
    ensures ConcatAll(parts)[i] == parts[i / m][i % m]
  {
    TotalLengthUniform(parts, m);
    Layout.DivBelow(i, m, |parts|);
    assert ConcatAll(parts) == parts[0] + ConcatAll(parts[1..]);
    if i < m {
      Layout.DivModOf(0, i, m);
    } else {
      RestBound(|parts|, m, i);
      assert forall k | 0 <= k < |parts[1..]| :: |parts[1..][k]| == m;
      ConcatAllAt(parts[1..], m, i - m);
      DivShift(i, m);
      assert parts[1..][(i - m) / m] == parts[i / m];
    }
  }

  lemma RestBound(n: nat, m: nat, i: nat)
    requires m <= i < n * m
    ensures n > 0 && i - m < (n - 1) * m
  {
    Layout.MulDistrib(n - 1, 1, m);
  }

  lemma {:induction false} TotalLengthUniform<T>(parts: seq<seq<T>>, m: nat)
    requires forall k | 0 <= k < |parts| :: |parts[k]| == m
    ensures TotalLength(parts) == |parts| * m
  {
    if |parts| > 0 {
      TotalLengthUniform(parts[1..], m);
    }
  }

  lemma DivShift(i: nat, m: nat)
    requires 0 < m <= i
    ensures (i - m) / m == i / m - 1 && (i - m) % m == i % m
  {
    var q, r := (i - m) / m, (i - m) % m;
    assert i == (q + 1) * m + r;
    Layout.DivModOf(q + 1, r, m);
  }

  /** CIFAR-10's five training batches concatenated, in the order batch 1 to batch 5. */
  lemma ConcatFive<T>(parts: seq<seq<T>>)
    requires |parts| == 5
    ensures ConcatAll(parts) == parts[0] + parts[1] + parts[2] + parts[3] + parts[4]
  {
    assert parts[4..][1..] == [];
    assert ConcatAll(parts[4..]) == parts[4];
    assert parts[3..][1..] == parts[4..];
    assert ConcatAll(parts[3..]) == parts[3] + parts[4];
    assert parts[2..][1..] == parts[3..];
    assert ConcatAll(parts[2..]) == parts[2] + parts[3] + parts[4];
    assert parts[1..][1..] == parts[2..];
    assert ConcatAll(parts[1..]) == parts[1] + parts[2] + parts[3] + parts[4];
  }

  /** The folder loader's labels: n0 zeros (class 0 images) followed by n1 ones. */
  function ZerosThenOnes(n0: nat, n1: nat): (r: seq<int>)
    ensures |r| == n0 + n1
    ensures forall k | 0 <= k < |r| :: r[k] == 0 || r[k] == 1
    ensures forall k | 0 <= k < |r| :: r[k] == 1 <==> k >= n0
  {
    seq(n0, _ => 0) + seq(n1, _ => 1)
  }

  function Count(s: seq<int>, v: int): nat {
    if |s| == 0 then 0 else (if s[0] == v then 1 else 0) + Count(s[1..], v)
  }

  /** There are exactly n0 zeros and n1 ones. */
  lemma ZerosThenOnesCount(n0: nat, n1: nat)
    ensures Count(ZerosThenOnes(n0, n1), 0) == n0
    ensures Count(ZerosThenOnes(n0, n1), 1) == n1
  {
    CountAppend(seq(n0, _ => 0), seq(n1, _ => 1), 0);
    CountAppend(seq(n0, _ => 0), seq(n1, _ => 1), 1);
    CountConst(n0, 0, 1);
    CountConst(n1, 1, 0);
  }

  lemma {:induction false} CountAppend(a: seq<int>, b: seq<int>, v: int)
    ensures Count(a + b, v) == Count(a, v) + Count(b, v)
  {
    if |a| > 0 {
      assert (a + b)[0] == a[0];
      assert (a + b)[1..] == a[1..] + b;
      CountAppend(a[1..], b, v);
    } else {
      assert a + b == b;
    }
  }

  lemma {:induction false} CountConst(n: nat, v: int, w: int)
    requires v != w
    ensures Count(seq(n, _ => v), v) == n
    ensures Count(seq(n, _ => v), w) == 0
  {
    if n > 0 {
      assert seq(n, _ => v)[1..] == seq(n - 1, _ => v);
      CountConst(n - 1, v, w);
    }
  }
}
