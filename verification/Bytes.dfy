/** Bytes and the little-endian integers stored in them. */
module Bytes {

  type Byte = b: int | 0 <= b < 256

  const U32: nat := 0x1_0000_0000
  const U64: nat := 0x1_0000_0000_0000_0000

  function Zeros(n: nat): (s: seq<Byte>)
    ensures |s| == n && forall i :: 0 <= i < n ==> s[i] == 0
  {
    seq(n, _ => 0)
  }

  /** `u16::from_le_bytes` of the two bytes at `i`. */
  function Get16(s: seq<Byte>, i: nat): (v: nat)
    requires i + 2 <= |s|
    ensures v < 65536
  {
    (s[i] as int) + 256 * (s[i + 1] as int)
  }

  function Le16(v: nat): (s: seq<Byte>)
    requires v < 65536
    ensures |s| == 2 && Get16(s, 0) == v
  {
    [v % 256, v / 256]
  }

  /** `u32::from_le_bytes` of the four bytes at `i`. */
  function Get32(s: seq<Byte>, i: nat): (v: nat)
    requires i + 4 <= |s|
    ensures v < U32
  {
    (s[i] as int) + 256 * (s[i + 1] as int) + 65536 * (s[i + 2] as int) + 16777216 * (s[i + 3] as int)
  }

  /** `v.to_le_bytes()`. */
  function Le32(v: nat): (s: seq<Byte>)
    requires v < U32
    ensures |s| == 4 && Get32(s, 0) == v
  {
    var w := v / 256;
    var x := w / 256;
    [v % 256, w % 256, x % 256, x / 256]
  }

  /** `copy_from_slice`: overwrite the bytes from `i` on. */
  function Patch(s: seq<Byte>, i: nat, d: seq<Byte>): (r: seq<Byte>)
    requires i + |d| <= |s|
    ensures |r| == |s|
    ensures forall j :: 0 <= j < |s| ==> r[j] == if i <= j < i + |d| then d[j - i] else s[j]
  {
    s[..i] + d + s[i + |d|..]
  }

  function Put32(s: seq<Byte>, i: nat, v: nat): (r: seq<Byte>)
    requires i + 4 <= |s| && v < U32
    ensures |r| == |s| && Get32(r, i) == v
    ensures forall j :: 0 <= j && j + 4 <= |s| && (j + 4 <= i || i + 4 <= j) ==> Get32(r, j) == Get32(s, j)
  {
    Patch(s, i, Le32(v))
  }

  lemma LowByte(v: nat, b: Byte, w: nat)
    requires v == b as int + 256 * w
    ensures b as int == v % 256 && w == v / 256
  {
  }

  /** Equal words are made of equal bytes. */
  lemma SameBytes(a: seq<Byte>, b: seq<Byte>, i: nat)
    requires i + 4 <= |a| == |b| && Get32(a, i) == Get32(b, i)
    ensures a[i..i + 4] == b[i..i + 4]
  {
    forall s: seq<Byte> | |s| == |a| && Get32(s, i) == Get32(a, i)
      ensures s[i] as int == Get32(a, i) % 256 && s[i + 1] as int == Get32(a, i) / 256 % 256
      ensures s[i + 2] as int == Get32(a, i) / 256 / 256 % 256 && s[i + 3] as int == Get32(a, i) / 256 / 256 / 256
    {
      ByteParts(s, i);
    }
  }

  lemma ByteParts(s: seq<Byte>, i: nat)
    requires i + 4 <= |s|
    ensures s[i] as int == Get32(s, i) % 256 && s[i + 1] as int == Get32(s, i) / 256 % 256
    ensures s[i + 2] as int == Get32(s, i) / 256 / 256 % 256 && s[i + 3] as int == Get32(s, i) / 256 / 256 / 256
  {
    var w2: nat := s[i + 2] as int + 256 * s[i + 3] as int;
    var w1: nat := s[i + 1] as int + 256 * w2;
    LowByte(Get32(s, i), s[i], w1);
    LowByte(w1, s[i + 1], w2);
    LowByte(w2, s[i + 2], s[i + 3] as int);
  }

  /** A word is read exactly where its bytes are. */
  lemma Parts32(d: seq<Byte>, a: nat, v: nat)
    requires a + 4 <= |d| && v < U32
    ensures Get32(d, a) == v <==> d[a..a + 4] == Le32(v)
  {
    var w := Le32(v);
    if Get32(d, a) == v {
      ByteParts(d, a);
      ByteParts(w, 0);
    }
    if d[a..a + 4] == w {
      assert w == [d[a], d[a + 1], d[a + 2], d[a + 3]];
      assert d[a] == w[0] && d[a + 1] == w[1] && d[a + 2] == w[2] && d[a + 3] == w[3];
    }
  }

  lemma Parts16(d: seq<Byte>, a: nat, v: nat)
    requires a + 2 <= |d| && v < 65536
    ensures Get16(d, a) == v <==> d[a..a + 2] == Le16(v)
  {
    var w := Le16(v);
    if d[a..a + 2] == w {
      assert d[a] == d[a..a + 2][0] && d[a + 1] == d[a..a + 2][1];
    }
    if Get16(d, a) == v { LowByte(v, d[a], d[a + 1] as int); }
  }

  lemma PutSame(s: seq<Byte>, i: nat)
    requires i + 4 <= |s|
    ensures Put32(s, i, Get32(s, i)) == s
  {
    SameBytes(s, Put32(s, i, Get32(s, i)), i);
    forall j | i <= j < i + 4 ensures Put32(s, i, Get32(s, i))[j] == s[j] {
      assert s[i..i + 4][j - i] == s[j];
    }
  }

  /** Blocks that hold the same words are the same. */
  lemma SameWords(a: seq<Byte>, b: seq<Byte>, n: nat)
    requires |a| == 4 * n == |b| && forall i :: 0 <= i < n ==> Get32(a, 4 * i) == Get32(b, 4 * i)
    ensures a == b
  {
    hide Get32;
    forall j | 0 <= j < |a| ensures a[j] == b[j] {
      var i := j / 4;
      SameBytes(a, b, 4 * i);
      assert a[4 * i..4 * i + 4][j - 4 * i] == b[4 * i..4 * i + 4][j - 4 * i];
    }
  }
}
