/** Bytes and big-endian 32-bit words, as `_read32` reads them from a file-like stream. */
module Bytes {
  import opened Wrappers

  type byte = x: int | 0 <= x < 256

  const Two32: nat := 0x1_0000_0000

  /** A file-like object opened for reading: its whole content and the read position. */
  datatype Reader = Reader(data: seq<byte>, pos: nat)

  /** `f.read(n)`: at most n bytes from the position; fewer (possibly none) at the end of the data. */
  function Read(r: Reader, n: nat): (res: (seq<byte>, Reader))
    ensures |res.0| == if r.pos + n <= |r.data| then n else if r.pos <= |r.data| then |r.data| - r.pos else 0
    ensures forall k :: 0 <= k < |res.0| ==> res.0[k] == r.data[r.pos + k]
    ensures res.1.data == r.data && res.1.pos == r.pos + |res.0|
  {
    if r.pos + n <= |r.data| then (r.data[r.pos..r.pos + n], Reader(r.data, r.pos + n))
    else if r.pos <= |r.data| then (r.data[r.pos..], Reader(r.data, |r.data|))
    else ([], r)
  }

  /** The unsigned value of four bytes, most significant first. */
  function BigEndian(b0: byte, b1: byte, b2: byte, b3: byte): nat {
    b0 * 0x100_0000 + b1 * 0x1_0000 + b2 * 0x100 + b3
  }

  /** `_read32`: reads four bytes and decodes them as a big-endian uint32. A short read makes
      `np.frombuffer(...)[0]` raise, modelled as ShortRead. */
  function Read32(r: Reader): (res: (Result<nat>, Reader))
    ensures res.0.Ok? <==> r.pos + 4 <= |r.data|
    ensures res.0.Ok? ==> res.0.value < Two32
    ensures res.0.Ok? ==> res.1 == Reader(r.data, r.pos + 4)
    ensures res.0.Ok? ==> res.0.value / 0x100_0000 == r.data[r.pos] && res.0.value % 0x100 == r.data[r.pos + 3]
  {
    var (chunk, next) := Read(r, 4);
    if |chunk| == 4 then (Ok(BigEndian(chunk[0], chunk[1], chunk[2], chunk[3])), next)
    else (Err(ShortRead), next)
  }

  /** The four big-endian bytes of a uint32: the inverse of `_read32`. */
  function Encode32(v: nat): (b: seq<byte>)
    requires v < Two32
    ensures |b| == 4
  {
    [v / 0x100_0000, (v / 0x1_0000) % 0x100, (v / 0x100) % 0x100, v % 0x100]
  }

  /** Encoding a uint32 and reading it back gives the original value, wherever it sits in the stream. */
  lemma Read32Encode32(prefix: seq<byte>, v: nat, suffix: seq<byte>)
    requires v < Two32
    ensures Read32(Reader(prefix + Encode32(v) + suffix, |prefix|)).0 == Ok(v)
  {
    var s := prefix + Encode32(v) + suffix;
    assert s[|prefix|..|prefix| + 4] == Encode32(v);
    var e := Encode32(v);
    EncodeDigits(v);
    assert Read32(Reader(s, |prefix|)).0 == Ok(BigEndian(e[0], e[1], e[2], e[3]));
  }

  /** The four bytes of Encode32 recombine to the value. */
  lemma EncodeDigits(v: nat)
    requires v < Two32
    ensures var e := Encode32(v); BigEndian(e[0], e[1], e[2], e[3]) == v
  {
    var q1, q2, q3 := v / 0x100, v / 0x1_0000, v / 0x100_0000;
    assert v == q1 * 0x100 + v % 0x100;
    assert q1 / 0x100 == q2 && q2 / 0x100 == q3;
    assert q1 == q2 * 0x100 + q1 % 0x100;
    assert q2 == q3 * 0x100 + q2 % 0x100;
  }

  /** Decoding four bytes and encoding the value again gives the same four bytes. */
  lemma Encode32Read32(r: Reader)
    requires r.pos + 4 <= |r.data|
    ensures Encode32(Read32(r).0.value) == r.data[r.pos..r.pos + 4]
  {
    var b0, b1, b2, b3 := r.data[r.pos], r.data[r.pos + 1], r.data[r.pos + 2], r.data[r.pos + 3];
    var v := Read32(r).0.value;
    assert v == BigEndian(b0, b1, b2, b3);
    WordDigits(b0, b1, b2, b3);
    assert Encode32(v) == [b0, b1, b2, b3];
  }

  lemma WordDigits(b0: byte, b1: byte, b2: byte, b3: byte)
    ensures var v := BigEndian(b0, b1, b2, b3);
      v / 0x100_0000 == b0 && (v / 0x1_0000) % 0x100 == b1 && (v / 0x100) % 0x100 == b2 && v % 0x100 == b3
  {
    var v := BigEndian(b0, b1, b2, b3);
    assert v == ((b0 * 0x100 + b1) * 0x100 + b2) * 0x100 + b3;
    assert v / 0x100 == (b0 * 0x100 + b1) * 0x100 + b2;
    assert v / 0x1_0000 == b0 * 0x100 + b1;
    assert v / 0x100_0000 == b0;
  }
}
