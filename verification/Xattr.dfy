/** The external attribute block of ext2: entries grow up from the header, values down from the end. */
module Xattr {
  import opened Bytes
  import opened Results

  datatype Attr = Attr(index: Byte, name: seq<Byte>, value: seq<Byte>)

  const XATTR_MAGIC: nat := 0xEA02_0000
  const HEADER_SIZE: nat := 32
  const ENTRY_HEADER_SIZE: nat := 16
  const XATTR_PAD: nat := 4

  /** `next_multiple_of(4)`. */
  function Padded(n: nat): (r: nat)
    ensures n <= r < n + 4 && r % 4 == 0
  {
    (n + 3) / 4 * 4
  }

  /** `entry_len`. */
  function EntryLen(nameLen: nat): (r: nat)
    ensures ENTRY_HEADER_SIZE + nameLen <= r < ENTRY_HEADER_SIZE + nameLen + 4 && r % 4 == 0
  {
    Padded(ENTRY_HEADER_SIZE + nameLen)
  }

  // ---- the order of the entries ----

  /** The lexicographic order on names. */
  predicate NameLe(a: seq<Byte>, b: seq<Byte>) {
    a == [] || (b != [] && (a[0] < b[0] || (a[0] == b[0] && NameLe(a[1..], b[1..]))))
  }

  predicate KeyLe(a: Attr, b: Attr) {
    a.index < b.index || (a.index == b.index && NameLe(a.name, b.name))
  }

  lemma {:induction false} NameTotal(a: seq<Byte>, b: seq<Byte>)
    ensures NameLe(a, b) || NameLe(b, a)
    ensures NameLe(a, b) && NameLe(b, a) ==> a == b
  {
    if a != [] && b != [] {
      NameTotal(a[1..], b[1..]);
      assert a == [a[0]] + a[1..] && b == [b[0]] + b[1..];
    }
  }

  lemma {:induction false} NameTrans(a: seq<Byte>, b: seq<Byte>, c: seq<Byte>)
    requires NameLe(a, b) && NameLe(b, c)
    ensures NameLe(a, c)
  {
    if a != [] && a[0] == b[0] == c[0] { NameTrans(a[1..], b[1..], c[1..]); }
  }

  ghost predicate Sorted(s: seq<Attr>) {
    forall i, j :: 0 <= i < j < |s| ==> KeyLe(s[i], s[j])
  }

  /** `a` goes before the first entry whose key is greater than its own, so equal keys keep their order. */
  function Insert(s: seq<Attr>, a: Attr): (r: seq<Attr>)
    ensures |r| == |s| + 1 && multiset(r) == multiset(s) + multiset{a}
  {
    if s == [] || !KeyLe(s[0], a) then [a] + s
    else assert s == [s[0]] + s[1..]; [s[0]] + Insert(s[1..], a)
  }

  lemma {:induction false} InsertSorted(s: seq<Attr>, a: Attr)
    requires Sorted(s)
    ensures Sorted(Insert(s, a))
  {
    if s != [] && KeyLe(s[0], a) {
      var t := Insert(s[1..], a);
      InsertSorted(s[1..], a);
      forall j | 0 <= j < |t| ensures KeyLe(s[0], t[j]) {
        assert t[j] in multiset(t);
        assert t[j] in s[1..] || t[j] == a;
      }
    } else if s != [] {
      forall j | 0 <= j < |s| ensures KeyLe(a, s[j]) {
        NameTotal(a.name, s[0].name);
        if j > 0 && a.index == s[0].index == s[j].index { NameTrans(a.name, s[0].name, s[j].name); }
      }
    }
  }

  /** `sort_by` index and then name. */
  function Sort(s: seq<Attr>): (r: seq<Attr>)
    ensures |r| == |s| && multiset(r) == multiset(s)
  {
    if s == [] then []
    else assert s == s[..|s| - 1] + [s[|s| - 1]]; Insert(Sort(s[..|s| - 1]), s[|s| - 1])
  }

  lemma {:induction false} SortSorted(s: seq<Attr>)
    ensures Sorted(Sort(s))
  {
    if s != [] {
      SortSorted(s[..|s| - 1]);
      InsertSorted(Sort(s[..|s| - 1]), s[|s| - 1]);
    }
  }

  // ---- the layout ----

  /** Where entry `k` starts. */
  function EntryOff(attrs: seq<Attr>, k: nat): nat
    requires k <= |attrs|
  {
    if k == 0 then HEADER_SIZE else EntryOff(attrs, k - 1) + EntryLen(|attrs[k - 1].name|)
  }

  /** The space the first `k` values take at the end of the block. */
  function ValueSize(attrs: seq<Attr>, k: nat): nat
    requires k <= |attrs|
  {
    if k == 0 then 0 else ValueSize(attrs, k - 1) + Padded(|attrs[k - 1].value|)
  }

  function ValueOff(attrs: seq<Attr>, k: nat, bs: nat): nat
    requires k < |attrs|
  {
    if |attrs[k].value| == 0 || ValueSize(attrs, k + 1) > bs then 0 else bs - ValueSize(attrs, k + 1)
  }

  /** The header, the terminator, and every entry and value with its padding. */
  function Needed(attrs: seq<Attr>): nat
  {
    if attrs == [] then HEADER_SIZE + XATTR_PAD
    else Needed(attrs[1..]) + EntryLen(|attrs[0].name|) + Padded(|attrs[0].value|)
  }

  /** Attribute `a` is stored at `off` with its value at `voff`. */
  predicate EntryAt(buf: seq<Byte>, off: nat, a: Attr, voff: nat) {
    && off + ENTRY_HEADER_SIZE + |a.name| <= |buf| && voff + |a.value| <= |buf|
    && buf[off] as int == |a.name| % 256 && buf[off + 1] == a.index && Get16(buf, off + 2) == voff
    && Get32(buf, off + 4) == 0 && Get32(buf, off + 8) == |a.value|
    && buf[off + ENTRY_HEADER_SIZE..off + ENTRY_HEADER_SIZE + |a.name|] == a.name && buf[voff..voff + |a.value|] == a.value
  }

  predicate Header(buf: seq<Byte>) {
    |buf| >= HEADER_SIZE && Get32(buf, 0) == XATTR_MAGIC && Get32(buf, 4) == 1 && Get32(buf, 8) == 1
  }

  /** The first `n` attributes are in place and the space between entries and values is zero. */
  ghost predicate Holds(buf: seq<Byte>, attrs: seq<Attr>, n: nat)
    requires n <= |attrs|
  {
    && Header(buf) && EntryOff(attrs, n) + ValueSize(attrs, n) <= |buf|
    && (forall k :: 0 <= k < n ==> EntryAt(buf, EntryOff(attrs, k), attrs[k], ValueOff(attrs, k, |buf|)))
    && (forall i :: EntryOff(attrs, n) <= i < |buf| - ValueSize(attrs, n) ==> buf[i] == 0)
  }

  lemma {:induction false} OffMono(attrs: seq<Attr>, j: nat, k: nat)
    requires j <= k <= |attrs|
    ensures EntryOff(attrs, j) <= EntryOff(attrs, k) && ValueSize(attrs, j) <= ValueSize(attrs, k)
    ensures HEADER_SIZE <= EntryOff(attrs, j)
    decreases k
  {
    hide EntryLen, Padded;
    if j < k { OffMono(attrs, j, k - 1); } else if j > 0 { OffMono(attrs, j - 1, k - 1); }
  }

  /** The entries and the values together take what is needed. */
  lemma {:induction false} NeededIs(attrs: seq<Attr>, k: nat)
    requires k <= |attrs|
    ensures Needed(attrs) == EntryOff(attrs, k) + ValueSize(attrs, k) + Needed(attrs[k..]) - HEADER_SIZE
  {
    hide EntryLen, Padded;
    if k > 0 {
      NeededIs(attrs, k - 1);
      assert attrs[k - 1..][1..] == attrs[k..];
    } else {
      assert attrs[0..] == attrs;
    }
  }

  /** The need does not depend on the order, so sorting does not change what fits. */
  lemma {:induction false} NeededInsert(s: seq<Attr>, a: Attr)
    ensures Needed(Insert(s, a)) == Needed(s) + EntryLen(|a.name|) + Padded(|a.value|)
  {
    hide EntryLen, Padded;
    if s == [] || !KeyLe(s[0], a) {
      assert ([a] + s)[1..] == s;
    } else {
      NeededInsert(s[1..], a);
      assert ([s[0]] + Insert(s[1..], a))[1..] == Insert(s[1..], a);
    }
  }

  lemma {:induction false} NeededLast(s: seq<Attr>, a: Attr)
    ensures Needed(s + [a]) == Needed(s) + EntryLen(|a.name|) + Padded(|a.value|)
  {
    hide EntryLen, Padded;
    if s != [] {
      NeededLast(s[1..], a);
      assert (s + [a])[1..] == s[1..] + [a];
    } else {
      assert (s + [a])[1..] == [];
    }
  }

  lemma {:induction false} NeededSort(s: seq<Attr>)
    ensures Needed(Sort(s)) == Needed(s)
  {
    hide EntryLen, Padded, Insert;
    if s != [] {
      NeededSort(s[..|s| - 1]);
      NeededInsert(Sort(s[..|s| - 1]), s[|s| - 1]);
      NeededLast(s[..|s| - 1], s[|s| - 1]);
      assert s == s[..|s| - 1] + [s[|s| - 1]];
    }
  }

  /** On disk: name length, index, value offset, no separate block and value size, the hash, and the name. */
  lemma EntryBytes(buf: seq<Byte>, off: nat, a: Attr, voff: nat)
    requires EntryAt(buf, off, a, voff) && voff < 65536 && |a.value| < U32
    ensures buf[off..off + 12] == [|a.name| % 256, a.index] + Le16(voff) + Le32(0) + Le32(|a.value|)
    ensures buf[off + 16..off + 16 + |a.name|] == a.name
  {
    var v, z, n := Le16(voff), Le32(0), Le32(|a.value|);
    Parts16(buf, off + 2, voff);
    Parts32(buf, off + 4, 0);
    Parts32(buf, off + 8, |a.value|);
    hide Get32, Get16, Le32, Le16;
    var c, d, e := buf[off + 2..off + 4], buf[off + 4..off + 8], buf[off + 8..off + 12];
    assert forall i :: 0 <= i < |c| ==> c[i] == buf[off + 2 + i];
    assert forall i :: 0 <= i < |d| ==> d[i] == buf[off + 4 + i];
    assert forall i :: 0 <= i < |e| ==> e[i] == buf[off + 8 + i];
  }

  lemma HeaderBytes(buf: seq<Byte>)
    requires Header(buf)
    ensures buf[..12] == Le32(0xEA02_0000) + Le32(1) + Le32(1)
  {
    Parts32(buf, 0, 0xEA02_0000);
    Parts32(buf, 4, 1);
    Parts32(buf, 8, 1);
    hide Get32, Le32;
    assert buf[..12] == buf[0..4] + buf[4..8] + buf[8..12];
  }

  /** The first `n` entries carry their hashes. */
  ghost predicate Hashed(buf: seq<Byte>, attrs: seq<Attr>, n: nat, hashEntry: Attr -> nat)
    requires n <= |attrs|
  {
    forall k :: 0 <= k < n ==>
      EntryOff(attrs, k) + ENTRY_HEADER_SIZE <= |buf| && Get32(buf, EntryOff(attrs, k) + 12) == hashEntry(attrs[k])
  }

  ghost function Hashes(attrs: seq<Attr>, n: nat, hashEntry: Attr -> nat): seq<nat>
    requires n <= |attrs|
  {
    seq(n, i requires 0 <= i < n => hashEntry(attrs[i]))
  }

  lemma HashedNone(buf: seq<Byte>, attrs: seq<Attr>, hashEntry: Attr -> nat)
    ensures Hashed(buf, attrs, 0, hashEntry) && Hashes(attrs, 0, hashEntry) == []
  {
  }

  lemma HashedNext(buf: seq<Byte>, buf': seq<Byte>, attrs: seq<Attr>, n: nat, hashEntry: Attr -> nat)
    requires n < |attrs| && Hashed(buf, attrs, n, hashEntry) && |buf'| == |buf|
    requires forall i :: 0 <= i < EntryOff(attrs, n) ==> i < |buf| && buf'[i] == buf[i]
    requires EntryOff(attrs, n) + ENTRY_HEADER_SIZE <= |buf|
    requires Get32(buf', EntryOff(attrs, n) + 12) == hashEntry(attrs[n])
    ensures Hashed(buf', attrs, n + 1, hashEntry)
    ensures Hashes(attrs, n + 1, hashEntry) == Hashes(attrs, n, hashEntry) + [hashEntry(attrs[n])]
  {
    hide EntryLen, Padded, EntryOff;
    forall k | 0 <= k < n ensures Get32(buf', EntryOff(attrs, k) + 12) == hashEntry(attrs[k]) {
      Next(attrs, k);
      OffMono(attrs, k + 1, n);
    }
  }

  lemma HashedEnd(buf: seq<Byte>, attrs: seq<Attr>, hashEntry: Attr -> nat, h: nat)
    requires Hashed(buf, attrs, |attrs|, hashEntry) && |buf| >= HEADER_SIZE && h < U32
    ensures Hashed(Patch(buf, 12, Le32(h)), attrs, |attrs|, hashEntry) && Get32(Patch(buf, 12, Le32(h)), 12) == h
  {
    hide EntryLen, Padded, EntryOff, Le32;
    var buf' := Patch(buf, 12, Le32(h));
    forall k | 0 <= k < |attrs| ensures Get32(buf', EntryOff(attrs, k) + 12) == hashEntry(attrs[k]) { OffMono(attrs, 0, k); }
  }

  // ---- serializing ----

  /** An entry outside the changed range stays. */
  lemma EntryStays(buf: seq<Byte>, buf': seq<Byte>, off: nat, a: Attr, voff: nat, lo: nat, hi: nat)
    requires EntryAt(buf, off, a, voff) && |buf'| == |buf| && lo <= hi <= |buf|
    requires forall i :: 0 <= i < |buf| && !(lo <= i < hi) ==> buf'[i] == buf[i]
    requires (off + ENTRY_HEADER_SIZE + |a.name| <= lo || hi <= off) && (a.value == [] || hi <= voff)
    ensures EntryAt(buf', off, a, voff)
  {
    assert buf'[off + ENTRY_HEADER_SIZE..off + ENTRY_HEADER_SIZE + |a.name|] == buf[off + ENTRY_HEADER_SIZE..off + ENTRY_HEADER_SIZE + |a.name|];
    assert buf'[voff..voff + |a.value|] == buf[voff..voff + |a.value|];
  }

  /** Write the value of `a` and then its entry. */
  method PutEntry(buf: seq<Byte>, off: nat, a: Attr, voff: nat, end: nat, hash: nat) returns (r: seq<Byte>)
    requires off + EntryLen(|a.name|) <= end <= |buf| && end + |a.value| <= |buf| <= 65536 && hash < U32
    requires voff == if a.value == [] then 0 else end
    requires forall i :: off <= i < end ==> buf[i] == 0
    ensures |r| == |buf| && EntryAt(r, off, a, voff) && Get32(r, off + 12) == hash
    ensures forall i :: 0 <= i < |buf| && !(off <= i < off + EntryLen(|a.name|)) && !(end <= i < end + |a.value|) ==>
              r[i] == buf[i]
  {
    hide EntryLen, Padded, Patch, Le16, Le32;
    r := buf;
    if |a.value| != 0 { r := Patch(r, voff, a.value); }
    r := r[off := |a.name| % 256][off + 1 := a.index];
    r := Patch(r, off + 2, Le16(voff));
    r := Patch(r, off + 8, Le32(|a.value|));
    r := Patch(r, off + 12, Le32(hash));
    r := Patch(r, off + ENTRY_HEADER_SIZE, a.name);
  }

  /** The first `n` attributes lie below the end of entry `n` and above the values of the first `n`. */
  lemma Placed(attrs: seq<Attr>, k: nat, n: nat, bs: nat)
    requires k < n <= |attrs| && ValueSize(attrs, n) <= bs
    ensures HEADER_SIZE <= EntryOff(attrs, k)
    ensures EntryOff(attrs, k) + ENTRY_HEADER_SIZE + |attrs[k].name| <= EntryOff(attrs, n)
    ensures attrs[k].value == [] || bs - ValueSize(attrs, n) <= ValueOff(attrs, k, bs)
  {
    hide EntryLen, Padded, EntryOff, ValueSize;
    Next(attrs, k);
    OffMono(attrs, k + 1, n);
  }

  lemma Next(attrs: seq<Attr>, n: nat)
    requires n < |attrs|
    ensures HEADER_SIZE <= EntryOff(attrs, n)
    ensures EntryOff(attrs, n + 1) == EntryOff(attrs, n) + EntryLen(|attrs[n].name|)
    ensures ValueSize(attrs, n + 1) == ValueSize(attrs, n) + Padded(|attrs[n].value|)
  {
    OffMono(attrs, 0, n);
  }

  /** One more attribute in place. */
  lemma HoldsNext(buf: seq<Byte>, buf': seq<Byte>, attrs: seq<Attr>, n: nat)
    requires n < |attrs| && Holds(buf, attrs, n) && |buf'| == |buf|
    requires EntryOff(attrs, n + 1) + ValueSize(attrs, n + 1) <= |buf|
    requires EntryAt(buf', EntryOff(attrs, n), attrs[n], ValueOff(attrs, n, |buf|))
    requires forall i :: 0 <= i < |buf| && (i < EntryOff(attrs, n) || |buf| - ValueSize(attrs, n) <= i) ==>
              buf'[i] == buf[i]
    requires forall i :: EntryOff(attrs, n + 1) <= i < |buf| - ValueSize(attrs, n + 1) ==> buf'[i] == buf[i]
    ensures Holds(buf', attrs, n + 1)
  {
    hide EntryLen, Padded, EntryAt, EntryOff, ValueSize, ValueOff;
    Next(attrs, n);
    var lo, hi := EntryOff(attrs, n), |buf| - ValueSize(attrs, n);
    forall k | 0 <= k < n ensures EntryAt(buf', EntryOff(attrs, k), attrs[k], ValueOff(attrs, k, |buf|)) {
      Placed(attrs, k, n, |buf|);
      EntryStays(buf, buf', EntryOff(attrs, k), attrs[k], ValueOff(attrs, k, |buf|), lo, hi);
    }
  }

  /** What does not fit after `n + 1` attributes does not fit at all. */
  lemma NoRoom(attrs: seq<Attr>, n: nat)
    requires n < |attrs|
    ensures Needed(attrs) >= EntryOff(attrs, n + 1) + ValueSize(attrs, n + 1) + XATTR_PAD
    ensures n + 1 == |attrs| ==> Needed(attrs) == EntryOff(attrs, n + 1) + ValueSize(attrs, n + 1) + XATTR_PAD
  {
    NeededIs(attrs, n + 1);
    NeededMin(attrs[n + 1..]);
  }

  lemma {:induction false} NeededMin(attrs: seq<Attr>)
    ensures Needed(attrs) >= HEADER_SIZE + XATTR_PAD
  {
    hide EntryLen, Padded;
    if attrs != [] { NeededMin(attrs[1..]); }
  }

  /** The empty block: magic, reference count 1, one block. */
  method NewBlock(bs: nat) returns (buf: seq<Byte>)
    requires HEADER_SIZE <= bs
    ensures |buf| == bs && Header(buf) && forall i :: HEADER_SIZE <= i < bs ==> buf[i] == 0
  {
    hide Patch, Le32;
    buf := Zeros(bs);
    buf := Patch(buf, 0, Le32(XATTR_MAGIC));
    buf := Patch(buf, 4, Le32(1));
    buf := Patch(buf, 8, Le32(1));
  }

  /** Store the hash of the whole block. */
  lemma HashStays(buf: seq<Byte>, attrs: seq<Attr>, h: nat)
    requires Holds(buf, attrs, |attrs|) && h < U32
    ensures Holds(Patch(buf, 12, Le32(h)), attrs, |attrs|)
  {
    hide EntryAt, Patch, Le32, EntryOff, ValueSize, ValueOff;
    var buf' := Patch(buf, 12, Le32(h));
    OffMono(attrs, 0, |attrs|);
    forall k | 0 <= k < |attrs| ensures EntryAt(buf', EntryOff(attrs, k), attrs[k], ValueOff(attrs, k, |buf|)) {
      Placed(attrs, k, |attrs|, |buf|);
      EntryStays(buf, buf', EntryOff(attrs, k), attrs[k], ValueOff(attrs, k, |buf|), 12, 16);
    }
  }

  /** `serialize_block`, with the two hashes as parameters. */
  method SerializeBlock(list: seq<Attr>, bs: nat, hashEntry: Attr -> nat, hashBlock: seq<nat> -> nat)
      returns (attrs: seq<Attr>, r: Result<seq<Byte>>)
    requires HEADER_SIZE <= bs <= 65536
    requires (forall a :: hashEntry(a) < U32) && forall s :: hashBlock(s) < U32
    ensures attrs == Sort(list)
    ensures r.Ok? <==> list == [] || Needed(list) <= bs
    ensures r.Err? ==> r.error == NoSpace
    ensures r.Ok? ==> |r.value| == bs && Holds(r.value, attrs, |attrs|)
    ensures r.Ok? ==>
              && Hashed(r.value, attrs, |attrs|, hashEntry)
              && Get32(r.value, 12) == hashBlock(Hashes(attrs, |attrs|, hashEntry))
  {
    hide EntryLen, Padded, EntryAt, Holds, Sort, Hashed, Hashes;
    attrs := Sort(list);
    NeededSort(list);
    var buf := NewBlock(bs);
    var entryOff, valueEnd := HEADER_SIZE, bs;
    var hashes: seq<nat> := [];
    HoldsNone(buf, attrs);
    HashedNone(buf, attrs, hashEntry);
    for n := 0 to |attrs|
      invariant |buf| == bs && Holds(buf, attrs, n) && entryOff == EntryOff(attrs, n)
      invariant valueEnd == bs - ValueSize(attrs, n)
      invariant Hashed(buf, attrs, n, hashEntry) && hashes == Hashes(attrs, n, hashEntry)
      invariant n == |attrs| > 0 ==> Needed(list) <= bs
    {
      var a := attrs[n];
      var elen, vlen, vpad := EntryLen(|a.name|), |a.value|, Padded(|a.value|);
      var valueOff := 0;
      NoRoom(attrs, n);
      OffMono(attrs, 0, n + 1);
      assert EntryOff(attrs, n + 1) == entryOff + elen && ValueSize(attrs, n + 1) == ValueSize(attrs, n) + vpad;
      if vlen != 0 {
        if valueEnd < HEADER_SIZE + vpad { return attrs, Err(NoSpace); }
        valueEnd := valueEnd - vpad;
        valueOff := valueEnd;
      } else {
        NoPad();
      }
      if entryOff + elen + XATTR_PAD > valueEnd { return attrs, Err(NoSpace); }
      var e := hashEntry(a);
      hashes := hashes + [e];
      HoldsGap(buf, attrs, n);
      var next := PutEntry(buf, entryOff, a, valueOff, valueEnd, e);
      HoldsNext(buf, next, attrs, n);
      HashedNext(buf, next, attrs, n, hashEntry);
      buf := next;
      entryOff := entryOff + elen;
    }
    HashStays(buf, attrs, hashBlock(hashes));
    HashedEnd(buf, attrs, hashEntry, hashBlock(hashes));
    HoldsHeader(buf, attrs);
    r := Ok(Patch(buf, 12, Le32(hashBlock(hashes))));
  }

  lemma NoPad() ensures Padded(0) == 0 {}

  lemma HoldsNone(buf: seq<Byte>, attrs: seq<Attr>)
    requires Header(buf) && forall i :: HEADER_SIZE <= i < |buf| ==> buf[i] == 0
    ensures Holds(buf, attrs, 0)
  {
  }

  lemma HoldsGap(buf: seq<Byte>, attrs: seq<Attr>, n: nat)
    requires n <= |attrs| && Holds(buf, attrs, n)
    ensures forall i :: EntryOff(attrs, n) <= i < |buf| - ValueSize(attrs, n) ==> buf[i] == 0
  {
    OffMono(attrs, 0, n);
  }

  lemma HoldsHeader(buf: seq<Byte>, attrs: seq<Attr>)
    requires Holds(buf, attrs, |attrs|)
    ensures Header(buf)
  {
  }

  // ---- parsing ----

  /** The attributes listed from `off` on. */
  function ParseFrom(buf: seq<Byte>, off: nat): (r: Result<seq<Attr>>)
    decreases |buf| - off
  {
    if off + ENTRY_HEADER_SIZE > |buf| || buf[off] == 0 then Ok([])
    else
      var nameLen, voff, vlen := buf[off] as nat, Get16(buf, off + 2), Get32(buf, off + 8);
      if Get32(buf, off + 4) != 0 then Err(Unsupported)
      else if off + ENTRY_HEADER_SIZE + nameLen > |buf| || voff + vlen > |buf| then Err(InvalidInput)
      else
        var a := Attr(buf[off + 1], buf[off + ENTRY_HEADER_SIZE..off + ENTRY_HEADER_SIZE + nameLen],
          buf[voff..voff + vlen]);
        Cons(a, ParseFrom(buf, off + EntryLen(nameLen)))
  }

  function Cons(a: Attr, rest: Result<seq<Attr>>): Result<seq<Attr>> {
    if rest.Err? then rest else Ok([a] + rest.value)
  }

  function Append(out: seq<Attr>, rest: Result<seq<Attr>>): Result<seq<Attr>> {
    if rest.Err? then rest else Ok(out + rest.value)
  }

  lemma AppendCons(out: seq<Attr>, a: Attr, rest: Result<seq<Attr>>)
    ensures Append(out, Cons(a, rest)) == Append(out + [a], rest)
  {
    if rest.Ok? { assert out + ([a] + rest.value) == (out + [a]) + rest.value; }
  }

  lemma AppendNone(rest: Result<seq<Attr>>)
    ensures Append([], rest) == rest
  {
    if rest.Ok? { assert [] + rest.value == rest.value; }
  }

  /** `parse_block`. */
  method ParseBlock(buf: seq<Byte>) returns (r: Result<seq<Attr>>)
    ensures |buf| < HEADER_SIZE || Get32(buf, 0) != XATTR_MAGIC ==> r == Err(InvalidInput)
    ensures |buf| >= HEADER_SIZE && Get32(buf, 0) == XATTR_MAGIC ==> r == ParseFrom(buf, HEADER_SIZE)
  {
    hide EntryLen, Padded, Append, Cons, Get16;
    if |buf| < HEADER_SIZE { return Err(InvalidInput); }
    if Get32(buf, 0) != XATTR_MAGIC { return Err(InvalidInput); }
    var out: seq<Attr> := [];
    var off := HEADER_SIZE;
    AppendNone(ParseFrom(buf, off));
    while off + ENTRY_HEADER_SIZE <= |buf| && buf[off] != 0
      invariant HEADER_SIZE <= off
      invariant ParseFrom(buf, HEADER_SIZE) == Append(out, ParseFrom(buf, off))
      decreases |buf| - off
    {
      var nameLen, voff, vlen := buf[off] as nat, Get16(buf, off + 2), Get32(buf, off + 8);
      if Get32(buf, off + 4) != 0 { AppendErr(out, Unsupported); return Err(Unsupported); }
      if off + ENTRY_HEADER_SIZE + nameLen > |buf| || voff + vlen > |buf| { AppendErr(out, InvalidInput); return Err(InvalidInput); }
      var a := Attr(buf[off + 1], buf[off + ENTRY_HEADER_SIZE..off + ENTRY_HEADER_SIZE + nameLen],
        buf[voff..voff + vlen]);
      AppendCons(out, a, ParseFrom(buf, off + EntryLen(nameLen)));
      out := out + [a];
      off := off + EntryLen(nameLen);
    }
    AppendDone(out);
    r := Ok(out);
  }

  lemma AppendErr(out: seq<Attr>, e: FsError) ensures Append(out, Err(e)) == Err(e) {}

  lemma AppendDone(out: seq<Attr>) ensures Append(out, Ok([])) == Ok(out) { assert out + [] == out; }

  /** A name that fits the length byte of an entry. */
  predicate NameFits(a: Attr) { 1 <= |a.name| <= 255 }

  /** The first attribute from `k` on whose name does not fit, or the end. */
  function Stop(attrs: seq<Attr>, k: nat): (n: nat)
    requires k <= |attrs|
    ensures k <= n <= |attrs| && (n < |attrs| ==> !NameFits(attrs[n])) && forall j :: k <= j < n ==> NameFits(attrs[j])
    decreases |attrs| - k
  {
    if k == |attrs| || !NameFits(attrs[k]) then k else Stop(attrs, k + 1)
  }

  /** A block that holds the attributes parses to those before the first name that does not fit, and to what is
      found from there on. */
  lemma {:induction false} ParseHolds(buf: seq<Byte>, attrs: seq<Attr>, k: nat)
    requires Holds(buf, attrs, |attrs|) && k <= |attrs|
    ensures ParseFrom(buf, EntryOff(attrs, k)) == Append(attrs[k..Stop(attrs, k)], ParseFrom(buf, EntryOff(attrs, Stop(attrs, k))))
    decreases |attrs| - k
  {
    hide EntryLen, Padded, Get16, EntryOff, ValueSize, ValueOff, EntryAt, ParseFrom, Append;
    var n := Stop(attrs, k);
    if k < n {
      assert EntryAt(buf, EntryOff(attrs, k), attrs[k], ValueOff(attrs, k, |buf|));
      ParseStep(buf, EntryOff(attrs, k), attrs[k], ValueOff(attrs, k, |buf|));
      ParseHolds(buf, attrs, k + 1);
      Next(attrs, k);
      ConsAppend(attrs[k], attrs[k + 1..n], ParseFrom(buf, EntryOff(attrs, n)));
      assert attrs[k..n] == [attrs[k]] + attrs[k + 1..n];
    } else {
      assert attrs[k..n] == [];
      AppendNone(ParseFrom(buf, EntryOff(attrs, k)));
    }
  }

  lemma ConsAppend(a: Attr, out: seq<Attr>, rest: Result<seq<Attr>>)
    ensures Cons(a, Append(out, rest)) == Append([a] + out, rest)
  {
    if rest.Ok? { assert [a] + (out + rest.value) == ([a] + out) + rest.value; }
  }

  lemma HoldsEnd(buf: seq<Byte>, attrs: seq<Attr>)
    requires Holds(buf, attrs, |attrs|)
    requires attrs == [] || EntryOff(attrs, |attrs|) + ValueSize(attrs, |attrs|) + XATTR_PAD <= |buf|
    ensures EntryOff(attrs, |attrs|) < |buf| ==> buf[EntryOff(attrs, |attrs|)] == 0
  {
  }

  lemma ParseStep(buf: seq<Byte>, off: nat, a: Attr, voff: nat)
    requires EntryAt(buf, off, a, voff) && NameFits(a)
    ensures ParseFrom(buf, off) == Cons(a, ParseFrom(buf, off + EntryLen(|a.name|)))
  {
    hide EntryLen, Padded, Get16;
  }

  lemma ParseEnd(buf: seq<Byte>, off: nat)
    requires off < |buf| ==> buf[off] == 0
    ensures ParseFrom(buf, off) == Ok([])
  {
  }

  /** Whatever is parsed, the first name has 1 to 255 bytes. */
  lemma ParsedFits(buf: seq<Byte>, off: nat)
    ensures ParseFrom(buf, off).Ok? && ParseFrom(buf, off).value != [] ==> NameFits(ParseFrom(buf, off).value[0])
  {
    hide EntryLen, Padded, Get16;
  }

  /** Round trip: what was serialized parses back exactly when every name has 1 to 255 bytes. */
  lemma RoundTrip(buf: seq<Byte>, attrs: seq<Attr>)
    requires Holds(buf, attrs, |attrs|) && (attrs == [] || Needed(attrs) <= |buf|)
    ensures ParseFrom(buf, HEADER_SIZE) == Append(attrs[..Stop(attrs, 0)], ParseFrom(buf, EntryOff(attrs, Stop(attrs, 0))))
    ensures ParseFrom(buf, HEADER_SIZE) == Ok(attrs) <==> forall j :: 0 <= j < |attrs| ==> NameFits(attrs[j])
  {
    hide ParseFrom, Holds, NameFits;
    NeededIs(attrs, |attrs|);
    ParseHolds(buf, attrs, 0);
    var n := Stop(attrs, 0);
    var rest := ParseFrom(buf, EntryOff(attrs, n));
    assert attrs[0..n] == attrs[..n];
    if n == |attrs| {
      HoldsEnd(buf, attrs);
      ParseEnd(buf, EntryOff(attrs, n));
      assert attrs[..n] + [] == attrs;
    } else {
      ParsedFits(buf, EntryOff(attrs, n));
      if rest.Ok? { assert (attrs[..n] + rest.value)[n..] == rest.value; }
    }
  }

  /** Serialize and parse back, as `setxattr` and `getxattr` do. */
  method StoreAndLoad(list: seq<Attr>, bs: nat, hashEntry: Attr -> nat, hashBlock: seq<nat> -> nat)
      returns (r: Result<seq<Attr>>)
    requires HEADER_SIZE <= bs <= 65536
    requires (forall a :: hashEntry(a) < U32) && forall s :: hashBlock(s) < U32
    ensures list != [] && Needed(list) > bs ==> r == Err(NoSpace)
    ensures list == [] || Needed(list) <= bs ==>
              (r == Ok(Sort(list)) <==> forall j :: 0 <= j < |list| ==> NameFits(list[j]))
    ensures Sorted(Sort(list)) && multiset(Sort(list)) == multiset(list)
  {
    hide Holds, ParseFrom, Needed, NameFits, Sort;
    SortSorted(list);
    var attrs, image := SerializeBlock(list, bs, hashEntry, hashBlock);
    if image.Err? { return Err(image.error); }
    r := ParseBlock(image.value);
    SameNames(list, attrs);
    NeededSort(list);
    HoldsHeader(image.value, attrs);
    RoundTrip(image.value, attrs);
  }

  lemma SameNames(list: seq<Attr>, attrs: seq<Attr>)
    requires multiset(attrs) == multiset(list)
    ensures (forall j :: 0 <= j < |attrs| ==> NameFits(attrs[j])) <==> forall j :: 0 <= j < |list| ==> NameFits(list[j])
  {
    hide NameFits;
    forall j | 0 <= j < |attrs| ensures attrs[j] in list { assert attrs[j] in multiset(attrs); }
    forall j | 0 <= j < |list| ensures list[j] in attrs { assert list[j] in multiset(list); }
  }
}
