/** Directory blocks of ext2: records of a header and a name that tile each block. */
module Ext2Dir {
  import opened Bytes
  import opened Results
  import opened Bits

  const HEADER: nat := 8

  /** What the directory iterator yields for a live record. */
  datatype Entry = Entry(ino: nat, ftype: Byte, name: seq<Byte>)

  /** `entry_size`: header and name, padded to four bytes, at least 12. */
  function EntrySize(nameLen: nat): (n: nat)
    ensures HEADER + nameLen <= n && 12 <= n <= 12 + nameLen && n % 4 == 0 && (n == 12 || n < HEADER + nameLen + 4)
  {
    var n := (HEADER + nameLen + 3) / 4 * 4;
    if n < 12 then 12 else n
  }

  // ---- records ----

  predicate Fits(d: seq<Byte>, a: nat) { a + HEADER <= |d| }

  function Ino(d: seq<Byte>, a: nat): nat requires Fits(d, a) { Get32(d, a) }
  function Rec(d: seq<Byte>, a: nat): nat requires Fits(d, a) { Get16(d, a + 4) }
  function NameLen(d: seq<Byte>, a: nat): nat requires Fits(d, a) { d[a + 6] as int }

  /** A record that stays inside its block, and inside itself when live. */
  predicate RecOk(d: seq<Byte>, bs: nat, a: nat) {
    && bs > 0 && Fits(d, a) && HEADER <= Rec(d, a) && a + Rec(d, a) <= |d| && a / bs == (a + Rec(d, a) - 1) / bs
    && (Ino(d, a) != 0 ==> HEADER + NameLen(d, a) <= Rec(d, a))
  }

  /** Records tile `[a, b)`. */
  predicate Tiled(d: seq<Byte>, bs: nat, a: nat, b: nat)
    decreases b - a
  {
    a == b || (a < b && RecOk(d, bs, a) && a + Rec(d, a) <= b && Tiled(d, bs, a + Rec(d, a), b))
  }

  /** Each record of `[a, b)` is as long as an entry with its name length. */
  predicate Sized(d: seq<Byte>, bs: nat, a: nat, b: nat)
    requires Tiled(d, bs, a, b)
    decreases b - a
  {
    a == b || (EntrySize(NameLen(d, a)) <= Rec(d, a) && Sized(d, bs, a + Rec(d, a), b))
  }

  /** The live records of `[a, b)`. */
  function Live(d: seq<Byte>, bs: nat, a: nat, b: nat): seq<Entry>
    requires Tiled(d, bs, a, b)
    decreases b - a
  {
    if a == b then []
    else (if Ino(d, a) != 0 then [At(d, a)] else []) + Live(d, bs, a + Rec(d, a), b)
  }

  function At(d: seq<Byte>, a: nat): Entry
    requires Fits(d, a) && a + HEADER + NameLen(d, a) <= |d|
  {
    Entry(Ino(d, a), d[a + 7], d[a + HEADER..a + HEADER + NameLen(d, a)])
  }

  lemma {:induction false} Join(d: seq<Byte>, bs: nat, a: nat, b: nat, c: nat)
    requires Tiled(d, bs, a, b) && Tiled(d, bs, b, c)
    ensures Tiled(d, bs, a, c) && Live(d, bs, a, c) == Live(d, bs, a, b) + Live(d, bs, b, c)
    ensures Sized(d, bs, a, c) <==> Sized(d, bs, a, b) && Sized(d, bs, b, c)
    decreases b - a
  {
    hide At;
    if a < b { Join(d, bs, a + Rec(d, a), b, c); }
  }

  /** Records do not depend on bytes outside them. */
  lemma {:induction false} Frame(d: seq<Byte>, d': seq<Byte>, bs: nat, a: nat, b: nat)
    requires Tiled(d, bs, a, b) && b <= |d| && b <= |d'| && forall i :: a <= i < b ==> d'[i] == d[i]
    ensures Tiled(d', bs, a, b) && Live(d', bs, a, b) == Live(d, bs, a, b)
    ensures (Sized(d', bs, a, b) <==> Sized(d, bs, a, b))
    decreases b - a
  {
    if a < b {
      Frame(d, d', bs, a + Rec(d, a), b);
      RecFrame(d, d', bs, a);
    }
  }

  lemma RecFrame(d: seq<Byte>, d': seq<Byte>, bs: nat, a: nat)
    requires RecOk(d, bs, a) && a + Rec(d, a) <= |d'| && forall i :: a <= i < a + Rec(d, a) ==> d'[i] == d[i]
    ensures RecOk(d', bs, a) && Rec(d', a) == Rec(d, a) && NameLen(d', a) == NameLen(d, a) && Ino(d', a) == Ino(d, a)
    ensures Ino(d, a) != 0 ==> At(d', a) == At(d, a)
  {
    if Ino(d, a) != 0 {
      assert d'[a + HEADER..a + HEADER + NameLen(d, a)] == d[a + HEADER..a + HEADER + NameLen(d, a)];
    }
  }

  // ---- the iterator ----

  /** What `DirIterator` yields from `off` on, for any bytes. */
  function Yield(d: seq<Byte>, off: nat): seq<Entry>
    decreases |d| - off
  {
    if !Fits(d, off) then []
    else if HEADER <= Rec(d, off) && off + Rec(d, off) <= |d| && HEADER + NameLen(d, off) <= Rec(d, off) && Ino(d, off) != 0 then
      [At(d, off)] + Yield(d, off + Rec(d, off))
    else Yield(d, off + if Rec(d, off) < HEADER then HEADER else Rec(d, off))
  }

  method List(d: seq<Byte>) returns (out: seq<Entry>)
    ensures out == Yield(d, 0)
  {
    hide At;
    out := [];
    var off := 0;
    while off < |d|
      invariant Yield(d, 0) == out + Yield(d, off)
      decreases |d| - off
    {
      if !Fits(d, off) { break; }
      if HEADER <= Rec(d, off) && off + Rec(d, off) <= |d| && HEADER + NameLen(d, off) <= Rec(d, off) && Ino(d, off) != 0 {
        assert out + ([At(d, off)] + Yield(d, off + Rec(d, off))) == out + [At(d, off)] + Yield(d, off + Rec(d, off));
        out := out + [At(d, off)];
        off := off + Rec(d, off);
      } else {
        off := off + if Rec(d, off) < HEADER then HEADER else Rec(d, off);
      }
    }
  }

  /** The first entry with the name. */
  method Lookup(d: seq<Byte>, name: seq<Byte>) returns (r: Result<nat>)
    ensures r.Ok? ==> exists k :: 0 <= k < |Yield(d, 0)| && Yield(d, 0)[k].name == name && r.value == Yield(d, 0)[k].ino
                        && forall j :: 0 <= j < k ==> Yield(d, 0)[j].name != name
    ensures r.Err? ==> r.error == NotFound && forall k :: 0 <= k < |Yield(d, 0)| ==> Yield(d, 0)[k].name != name
  {
    hide Yield;
    var all := List(d);
    for k := 0 to |all|
      invariant forall j :: 0 <= j < k ==> all[j].name != name
    {
      if all[k].name == name { return Ok(all[k].ino); }
    }
    r := Err(NotFound);
  }

  /** On tiled records the iterator yields exactly the live ones. */
  lemma {:induction false} YieldTiled(d: seq<Byte>, bs: nat, a: nat)
    requires Tiled(d, bs, a, |d|)
    ensures Yield(d, a) == Live(d, bs, a, |d|)
    decreases |d| - a
  {
    hide At;
    if a < |d| { YieldTiled(d, bs, a + Rec(d, a)); }
  }

  // ---- changing records in one place ----

  /** Only `[off, m)` changed, and it is tiled again. */
  lemma Splice(d: seq<Byte>, d': seq<Byte>, bs: nat, off: nat, m: nat)
    requires Tiled(d, bs, 0, off) && Tiled(d, bs, off, m) && Tiled(d, bs, m, |d|) && off <= m <= |d| == |d'|
    requires (forall i :: 0 <= i < off || m <= i < |d| ==> d'[i] == d[i]) && Tiled(d', bs, off, m)
    ensures Tiled(d, bs, 0, |d|)
    ensures Live(d, bs, 0, |d|) == Live(d, bs, 0, off) + Live(d, bs, off, m) + Live(d, bs, m, |d|)
    ensures Tiled(d', bs, 0, |d|)
    ensures Live(d', bs, 0, |d|) == Live(d, bs, 0, off) + Live(d', bs, off, m) + Live(d, bs, m, |d|)
    ensures Sized(d, bs, 0, |d|) ==> (Sized(d', bs, 0, |d|) <==> Sized(d', bs, off, m)) && Sized(d, bs, off, m)
  {
    hide Tiled, Live, Sized;
    Frame(d, d', bs, 0, off);
    Frame(d, d', bs, m, |d|);
    Join(d, bs, 0, off, m);
    Join(d, bs, 0, m, |d|);
    Join(d', bs, 0, off, m);
    Join(d', bs, 0, m, |d|);
  }

  /** One entry more, none else changed. */
  ghost predicate Inserted(old_: seq<Entry>, new_: seq<Entry>, e: Entry) {
    exists k :: 0 <= k <= |old_| && new_ == old_[..k] + [e] + old_[k..]
  }

  lemma InsertAt(p: seq<Entry>, m: seq<Entry>, q: seq<Entry>, e: Entry)
    ensures Inserted(p + m + q, p + (m + [e]) + q, e)
  {
    var k := |p + m|;
    assert (p + m + q)[..k] == p + m && (p + m + q)[k..] == q;
    assert p + (m + [e]) + q == p + m + [e] + q;
  }

  /** The first entry with the name is gone, and nothing else. */
  ghost predicate Removed(old_: seq<Entry>, new_: seq<Entry>, name: seq<Byte>) {
    exists k :: 0 <= k < |old_| && old_[k].name == name && (forall j :: 0 <= j < k ==> old_[j].name != name) && new_ == old_[..k] + old_[k + 1..]
  }

  lemma RemoveAt(p: seq<Entry>, e: Entry, q: seq<Entry>, name: seq<Byte>)
    requires e.name == name && forall j :: 0 <= j < |p| ==> p[j].name != name
    ensures Removed(p + [e] + q, p + q, name)
  {
    var k, all := |p|, p + [e] + q;
    assert all[k] == e && all[..k] == p && all[k + 1..] == q;
  }

  lemma SameBlock(bs: nat, a: nat, b: nat, c: nat)
    requires bs > 0 && a <= b <= c && a / bs == c / bs
    ensures a / bs == b / bs
  {
    QuotRem(a, bs);
    QuotRem(b, bs);
    QuotRem(c, bs);
    var x, y, z := a / bs, b / bs, c / bs;
    if y < x { Grow(y + 1, x, bs); } else if y > z { Grow(z + 1, y, bs); }
  }

  /** One record. */
  lemma Single(d: seq<Byte>, bs: nat, a: nat)
    requires RecOk(d, bs, a)
    ensures Tiled(d, bs, a, a + Rec(d, a)) && Live(d, bs, a, a + Rec(d, a)) == if Ino(d, a) != 0 then [At(d, a)] else []
    ensures Sized(d, bs, a, a + Rec(d, a)) <==> EntrySize(NameLen(d, a)) <= Rec(d, a)
  {
    var b := a + Rec(d, a);
    assert Tiled(d, bs, b, b) && Live(d, bs, b, b) == [];
  }

  /** The bytes of record `a` are the entry `e` with record length `rec`. */
  predicate Holds(d: seq<Byte>, a: nat, e: Entry, rec: nat) {
    Fits(d, a) && a + HEADER + |e.name| <= |d| && Ino(d, a) == e.ino && Rec(d, a) == rec && NameLen(d, a) == |e.name| && At(d, a) == e
  }

  /** On disk: inode number, record length, name length, type and name. */
  lemma RecordBytes(d: seq<Byte>, a: nat, e: Entry, rec: nat)
    requires a + HEADER + |e.name| <= |d| && |e.name| <= 255 && e.ino < U32 && rec < 65536
    ensures Holds(d, a, e, rec) <==>
              d[a..a + HEADER + |e.name|] == Le32(e.ino) + Le16(rec) + [|e.name|, e.ftype] + e.name
  {
    var w, h := Le32(e.ino), Le16(rec);
    var b, c := w + h + [|e.name|, e.ftype] + e.name, d[a..a + HEADER + |e.name|];
    Parts32(d, a, e.ino);
    Parts16(d, a + 4, rec);
    hide Get32, Get16, Le32, Le16;
    assert forall i :: 0 <= i < |b| ==>
        b[i] == if i < 4 then w[i] else if i < 6 then h[i - 4] else if i < 8 then [|e.name|, e.ftype][i - 6] else e.name[i - 8];
    assert forall i :: 0 <= i < |c| ==> c[i] == d[a + i];
    if Holds(d, a, e, rec) {
      var x, y, z := d[a..a + 4], d[a + 4..a + 6], d[a + 8..a + 8 + |e.name|];
      assert forall i :: 0 <= i < |x| ==> x[i] == d[a + i];
      assert forall i :: 0 <= i < |y| ==> y[i] == d[a + 4 + i];
      assert forall i :: 0 <= i < |z| ==> z[i] == d[a + 8 + i];
      assert c == b;
    }
    if c == b {
      assert d[a..a + 4] == w && d[a + 4..a + 6] == h && d[a + 8..a + 8 + |e.name|] == e.name;
      assert d[a + 6] == c[6] && d[a + 7] == c[7];
    }
  }

  /** `write_dir_entry_in_buf`. */
  method PutRecord(buf: seq<Byte>, a: nat, e: Entry, rec: nat) returns (r: seq<Byte>)
    requires a + HEADER + |e.name| <= |buf| && |e.name| <= 255 && e.ino < U32 && rec < 65536
    ensures |r| == |buf| && Holds(r, a, e, rec)
    ensures forall i :: 0 <= i < |buf| && !(a <= i < a + HEADER + |e.name|) ==> r[i] == buf[i]
  {
    hide Patch, Le32, Le16;
    r := Patch(buf, a, Le32(e.ino));
    r := Patch(r, a + 4, Le16(rec));
    r := r[a + 6 := |e.name|][a + 7 := e.ftype];
    r := Patch(r, a + HEADER, e.name);
    assert r[a + HEADER..a + HEADER + |e.name|] == e.name;
  }

  /** The entry over a record of `n` bytes, and a free record behind it when what is left can hold a header. */
  method BuildSlot(d: seq<Byte>, a: nat, e: Entry, needed: nat, n: nat) returns (rec: nat, buf: seq<Byte>)
    requires HEADER + |e.name| <= needed <= n < 65536 && a + n <= |d| && |e.name| <= 255 && e.ino < U32
    ensures rec == (if n - needed >= HEADER then needed else n) && |buf| == |d| && Holds(buf, a, e, rec)
    ensures forall i :: 0 <= i < |d| && !(a <= i < a + n) ==> buf[i] == d[i]
    ensures rec < n ==>
              Ino(buf, a + rec) == 0 && Rec(buf, a + rec) == n - rec && NameLen(buf, a + rec) == NameLen(d, a + rec)
  {
    hide Patch, Le32, Le16;
    rec := if n - needed >= HEADER then needed else n;
    buf := PutRecord(d, a, e, rec);
    if n - needed >= HEADER {
      ghost var was := buf;
      buf := Patch(buf, a + needed, Le32(0));
      buf := Patch(buf, a + needed + 4, Le16(n - needed));
      HoldsFrame(was, buf, a, e, rec);
    }
  }

  lemma HoldsFrame(d: seq<Byte>, d': seq<Byte>, a: nat, e: Entry, rec: nat)
    requires Holds(d, a, e, rec) && |d'| == |d| && forall i :: a <= i < a + HEADER + |e.name| ==> d'[i] == d[i]
    ensures Holds(d', a, e, rec)
  {
    assert d'[a + HEADER..a + HEADER + |e.name|] == d[a + HEADER..a + HEADER + |e.name|];
  }

  /** `[a, a + n)` holds the new entry, and a free record after it when `n` is more than its length. */
  lemma Placed(d: seq<Byte>, bs: nat, a: nat, e: Entry, rec: nat, n: nat)
    requires Holds(d, a, e, rec) && e.ino != 0 && HEADER + |e.name| <= rec <= n && bs > 0 && a / bs == (a + n - 1) / bs
    requires a + n <= |d|
    requires rec == n || (HEADER <= n - rec && Ino(d, a + rec) == 0 && Rec(d, a + rec) == n - rec)
    ensures Tiled(d, bs, a, a + n) && Live(d, bs, a, a + n) == [e] && RecOk(d, bs, a)
    ensures (rec < n ==> RecOk(d, bs, a + rec))
    ensures Sized(d, bs, a, a + n) <==>
              EntrySize(|e.name|) <= rec && (rec == n || EntrySize(NameLen(d, a + rec)) <= n - rec)
  {
    hide Tiled, Live, Sized;
    SameBlock(bs, a, a + rec - 1, a + n - 1);
    Single(d, bs, a);
    if rec < n {
      SameBlock(bs, a, a + rec, a + n - 1);
      Single(d, bs, a + rec);
      Join(d, bs, a, a + rec, a + n);
    }
  }

  // ---- finding a place ----

  /** The first free record of `[a, b)` with at least `needed` bytes, or `b`. */
  function SlotAt(d: seq<Byte>, bs: nat, a: nat, b: nat, needed: nat): (s: nat)
    requires Tiled(d, bs, a, b)
    ensures a <= s <= b
    ensures s < b ==> RecOk(d, bs, s) && Ino(d, s) == 0 && needed <= Rec(d, s) && s + Rec(d, s) <= b
    decreases b - a
  {
    if a == b || (Ino(d, a) == 0 && Rec(d, a) >= needed) then a else SlotAt(d, bs, a + Rec(d, a), b, needed)
  }

  /** The bytes that a split slot leaves as the name length of its free half fit that half. */
  predicate CleanSplit(d: seq<Byte>, bs: nat, needed: nat)
    requires Tiled(d, bs, 0, |d|) && needed >= HEADER
  {
    var a := SlotAt(d, bs, 0, |d|, needed);
    a == |d| || Rec(d, a) - needed < HEADER || EntrySize(NameLen(d, a + needed)) <= Rec(d, a) - needed
  }

  /** Where the last record of a non-empty tiling starts. */
  function LastAt(d: seq<Byte>, bs: nat, a: nat, b: nat): (l: nat)
    requires Tiled(d, bs, a, b) && a < b
    ensures a <= l < b && RecOk(d, bs, l) && l + Rec(d, l) == b
    decreases b - a
  {
    if a + Rec(d, a) == b then a else LastAt(d, bs, a + Rec(d, a), b)
  }

  /** The room behind the last entry. */
  function TailRoom(d: seq<Byte>, bs: nat): int
    requires Tiled(d, bs, 0, |d|)
  {
    if d == [] then 0 else var l := LastAt(d, bs, 0, |d|); Rec(d, l) - EntrySize(NameLen(d, l))
  }

  /** Records of full size leave no negative room behind the last entry. */
  lemma {:induction false} SizedTail(d: seq<Byte>, bs: nat, a: nat)
    requires Tiled(d, bs, a, |d|) && Sized(d, bs, a, |d|) && a < |d|
    ensures var l := LastAt(d, bs, a, |d|); EntrySize(NameLen(d, l)) <= Rec(d, l)
    decreases |d| - a
  {
    if a + Rec(d, a) < |d| { SizedTail(d, bs, a + Rec(d, a)); }
  }

  /** The free record at `a` is the last one and will be split. */
  predicate SplitLastSlot(d: seq<Byte>, a: nat, needed: nat) {
    Fits(d, a) && Rec(d, a) >= needed + HEADER && a + Rec(d, a) == |d|
  }

  /** The room behind the entry that the stale name length of its free half describes. */
  function StaleRoom(d: seq<Byte>, a: nat, needed: nat): int
    requires SplitLastSlot(d, a, needed)
  {
    Rec(d, a) - needed - EntrySize(NameLen(d, a + needed))
  }

  /** The free half of a split last record is the last record. */
  lemma SplitTail(d: seq<Byte>, d': seq<Byte>, bs: nat, a: nat, needed: nat)
    requires Tiled(d, bs, 0, a) && SplitLastSlot(d, a, needed) && |d'| == |d| && Tiled(d', bs, 0, |d|)
    requires HEADER <= needed
    requires (forall i :: 0 <= i < a ==> d'[i] == d[i]) && RecOk(d', bs, a) && Rec(d', a) == needed
    requires RecOk(d', bs, a + needed) && Rec(d', a + needed) == Rec(d, a) - needed
    requires NameLen(d', a + needed) == NameLen(d, a + needed)
    ensures TailRoom(d', bs) == StaleRoom(d, a, needed)
  {
    hide Tiled, Live, Sized, EntrySize, RecOk, LastAt;
    Frame(d, d', bs, 0, a);
    WalkOn(d', bs, a);
    LastJoin(d', bs, 0, a + needed);
  }

  class Directory {
    const bs: nat
    var data: seq<Byte>

    constructor (bs: nat)
      requires 1024 <= bs < 65536
      ensures Valid() && data == [] && this.bs == bs
    {
      this.bs, data := bs, [];
    }

    /** Whole blocks, tiled by records. */
    predicate Valid()
      reads this
    {
      1024 <= bs < 65536 && |data| % bs == 0 && Tiled(data, bs, 0, |data|)
    }

    /** Walk the records up to the first free one that is long enough. */
    method FindSlot(needed: nat) returns (slot: nat, last: nat)
      requires Valid()
      ensures slot == SlotAt(data, bs, 0, |data|, needed) && Tiled(data, bs, 0, slot)
      ensures slot < |data| ==> Tiled(data, bs, slot + Rec(data, slot), |data|)
      ensures slot == |data| > 0 ==> last == LastAt(data, bs, 0, |data|) && Tiled(data, bs, 0, last)
    {
      hide RecOk, Tiled, SlotAt, LastAt, Live, Sized, EntrySize;
      slot, last := 0, 0;
      NoTile(data, bs, 0);
      while Fits(data, slot)
        invariant Tiled(data, bs, 0, slot) && Tiled(data, bs, slot, |data|) && slot <= |data|
        invariant SlotAt(data, bs, 0, |data|, needed) == SlotAt(data, bs, slot, |data|, needed)
        invariant slot > 0 ==> last < slot && Tiled(data, bs, 0, last) && last == LastAt(data, bs, 0, slot)
        decreases |data| - slot
      {
        Here(data, bs, slot, needed);
        if Ino(data, slot) == 0 && Rec(data, slot) >= needed { return; }
        WalkOn(data, bs, slot);
        last := slot;
        slot := slot + Rec(data, slot);
      }
      AtEnd(data, bs, slot, needed);
    }

    /** Write back the block that holds the change at `[a, a + n)`. */
    method WriteBlock(buf: seq<Byte>, a: nat, ghost n: nat)
      requires 0 < bs && |buf| == |data| && |data| % bs == 0 && n > 0 && a + n <= |data| && a / bs == (a + n - 1) / bs
      requires forall i :: 0 <= i < |data| && !(a <= i < a + n) ==> buf[i] == data[i]
      modifies this
      ensures data == buf
    {
      BlockBounds(bs, a, n, |data|);
      var start := a / bs * bs;
      data := data[..start] + buf[start..start + bs] + data[start + bs..];
    }

    /** Use the free record at `a`, and split off what is left when it can hold a header. */
    method FillSlot(a: nat, e: Entry)
      requires Valid() && 1 <= |e.name| <= 255 && 0 < e.ino < U32
      requires a < |data| && RecOk(data, bs, a) && Ino(data, a) == 0 && EntrySize(|e.name|) <= Rec(data, a)
      requires Tiled(data, bs, 0, a) && Tiled(data, bs, a + Rec(data, a), |data|)
      modifies this
      ensures Valid() && |data| == |old(data)|
      ensures Inserted(Live(old(data), bs, 0, |old(data)|), Live(data, bs, 0, |data|), e)
      ensures Sized(old(data), bs, 0, |old(data)|) ==> (Sized(data, bs, 0, |data|) <==>
                var left := Rec(old(data), a) - EntrySize(|e.name|); left < HEADER || EntrySize(NameLen(old(data), a + EntrySize(|e.name|))) <= left)
      ensures SplitLastSlot(old(data), a, EntrySize(|e.name|)) ==>
                TailRoom(data, bs) == StaleRoom(old(data), a, EntrySize(|e.name|))
    {
      hide Tiled, Live, Sized, EntrySize, Inserted, TailRoom, Get32, Get16, At, StaleRoom;
      var needed, n := EntrySize(|e.name|), Rec(data, a);
      var rec, buf := BuildSlot(data, a, e, needed, n);
      Placed(buf, bs, a, e, rec, n);
      Single(data, bs, a);
      Splice(data, buf, bs, a, a + n);
      InsertAt(Live(data, bs, 0, a), [], Live(data, bs, a + n, |data|), e);
      NoneBetween(Live(data, bs, 0, a), e, Live(data, bs, a + n, |data|));
      if SplitLastSlot(data, a, needed) { SplitTail(data, buf, bs, a, needed); }
      WriteBlock(buf, a, n);
    }

    /** Cut the last record `l` to its own length and put the entry behind it. */
    method SplitLast(l: nat, e: Entry)
      requires Valid() && 1 <= |e.name| <= 255 && 0 < e.ino < U32
      requires l < |data| && RecOk(data, bs, l) && l + Rec(data, l) == |data| && Tiled(data, bs, 0, l)
      requires EntrySize(NameLen(data, l)) + EntrySize(|e.name|) <= Rec(data, l)
      modifies this
      ensures Valid() && |data| == |old(data)|
      ensures Inserted(Live(old(data), bs, 0, |old(data)|), Live(data, bs, 0, |data|), e)
      ensures Sized(old(data), bs, 0, |old(data)|) ==> Sized(data, bs, 0, |data|)
    {
      hide Tiled, Live, Sized, EntrySize, Inserted, Patch, Le32, Le16;
      var actual := EntrySize(NameLen(data, l));
      var n := Rec(data, l);
      var buf := Patch(data, l + 4, Le16(actual));
      buf := PutRecord(buf, l + actual, e, n - actual);
      CutRecord(data, buf, bs, l, e);
      Single(data, bs, l);
      NoTile(data, bs, |data|);
      Splice(data, buf, bs, l, |data|);
      InsertAt(Live(data, bs, 0, l), Live(data, bs, l, |data|), Live(data, bs, |data|, |data|), e);
      WriteBlock(buf, l, n);
    }

    /** A new block with the entry as its only record. */
    method AppendBlock(e: Entry)
      requires Valid() && 1 <= |e.name| <= 255 && 0 < e.ino < U32
      modifies this
      ensures Valid() && |data| == |old(data)| + bs
      ensures Inserted(Live(old(data), bs, 0, |old(data)|), Live(data, bs, 0, |data|), e)
      ensures Sized(old(data), bs, 0, |old(data)|) ==> Sized(data, bs, 0, |data|)
    {
      hide Tiled, Live, Sized, Inserted;
      var block := PutRecord(Zeros(bs), 0, e, bs);
      NextBlock(bs, |data|);
      var at := |data| / bs * bs;
      AppendOk(data, block, bs, e);
      assert data[..at] == data;
      data := data[..at] + block;
    }

    /** `add_dir_entry`; `room` says whether the file can grow by a block. */
    method Add(name: seq<Byte>, ino: nat, ftype: Byte, hasFiletype: bool, room: bool) returns (r: Result<()>)
      requires Valid() && 0 < ino < U32
      requires SlotAt(data, bs, 0, |data|, EntrySize(|name|)) == |data| ==> TailRoom(data, bs) >= 0
      modifies this
      ensures Valid() && (r.Err? ==> data == old(data))
      ensures r == (if !(1 <= |name| <= 255) then Err(InvalidInput)
                    else if
                      && SlotAt(old(data), bs, 0, |old(data)|, EntrySize(|name|)) == |old(data)|
                      && TailRoom(old(data), bs) < EntrySize(|name|) && !room
                    then Err(NoSpace)
                    else Ok(()))
      ensures r.Ok? ==>
                Inserted(Yield(old(data), 0), Yield(data, 0), Entry(ino, if hasFiletype then ftype else 0, name))
      ensures r.Ok? ==>
                var a := SlotAt(old(data), bs, 0, |old(data)|, EntrySize(|name|));
                SplitLastSlot(old(data), a, EntrySize(|name|)) ==> TailRoom(data, bs) == StaleRoom(old(data), a, EntrySize(|name|))
      ensures r.Ok? && Sized(old(data), bs, 0, |old(data)|) ==>
                (Sized(data, bs, 0, |data|) <==> CleanSplit(old(data), bs, EntrySize(|name|)))
    {
      hide Tiled, Live, Sized, EntrySize, Inserted, Yield, SlotAt, LastAt, StaleRoom;
      if |name| == 0 || |name| > 255 { return Err(InvalidInput); }
      var e := Entry(ino, if hasFiletype then ftype else 0, name);
      var needed := EntrySize(|name|);
      YieldTiled(data, bs, 0);
      var slot, last := FindSlot(needed);
      if slot < |data| {
        FillSlot(slot, e);
      } else if |data| > 0 && Rec(data, last) - EntrySize(NameLen(data, last)) >= needed {
        SplitLast(last, e);
      } else {
        if !room { return Err(NoSpace); }
        AppendBlock(e);
      }
      YieldTiled(data, bs, 0);
      r := Ok(());
    }

    /** `remove_dir_entry`: the first live record with the name becomes free and takes in a free successor of its block. */
    method Remove(name: seq<Byte>) returns (r: Result<()>)
      requires Valid()
      modifies this
      ensures Valid() && |data| == |old(data)|
      ensures r.Ok? ==> Removed(Yield(old(data), 0), Yield(data, 0), name)
      ensures r.Err? ==> r.error == NotFound && data == old(data) && forall k :: 0 <= k < |Yield(data, 0)| ==>
                Yield(data, 0)[k].name != name
      ensures Sized(old(data), bs, 0, |old(data)|) ==> Sized(data, bs, 0, |data|)
    {
      hide Tiled, Live, Sized, Yield, RecOk, Removed, EntrySize, SlotAt, LastAt;
      YieldTiled(data, bs, 0);
      var off := 0;
      NoTile(data, bs, 0);
      NoLive(data, bs, 0);
      while Fits(data, off)
        invariant data == old(data) && Tiled(data, bs, 0, off) && Tiled(data, bs, off, |data|) && off <= |data|
        invariant forall j :: 0 <= j < |Live(data, bs, 0, off)| ==> Live(data, bs, 0, off)[j].name != name
        decreases |data| - off
      {
        Here(data, bs, off, 0);
        RecLive(data, bs, off);
        if Ino(data, off) != 0 && NameLen(data, off) == |name| && data[off + HEADER..off + HEADER + NameLen(data, off)] == name {
          Free(off, name);
          YieldTiled(data, bs, 0);
          return Ok(());
        }
        WalkOn(data, bs, off);
        off := off + Rec(data, off);
      }
      AtEnd(data, bs, off, 0);
      r := Err(NotFound);
    }

    /** Free the live record at `a`. */
    method Free(a: nat, name: seq<Byte>)
      requires Valid() && a < |data| && RecOk(data, bs, a) && Ino(data, a) != 0 && At(data, a).name == name
      requires Tiled(data, bs, 0, a) && Tiled(data, bs, a + Rec(data, a), |data|)
      requires forall j :: 0 <= j < |Live(data, bs, 0, a)| ==> Live(data, bs, 0, a)[j].name != name
      modifies this
      ensures Valid() && |data| == |old(data)|
      ensures Removed(Live(old(data), bs, 0, |old(data)|), Live(data, bs, 0, |data|), name)
      ensures Sized(old(data), bs, 0, |old(data)|) ==> Sized(data, bs, 0, |data|)
    {
      hide Tiled, Live, Sized, Removed, EntrySize, Patch, Le32, Le16;
      var rec := Rec(data, a);
      var next, n := a + rec, rec;
      var buf := Patch(data, a, Le32(0));
      if a / bs == next / bs && next + HEADER <= |data| {
        Here(data, bs, next, 0);
        if Ino(data, next) == 0 && Rec(data, next) >= HEADER && next + Rec(data, next) <= |data| && a / bs == (next + Rec(data, next) - 1) / bs {
          n := rec + Rec(data, next);
          BlockBounds(bs, a, n, |data|);
          buf := Patch(buf, a + 4, Le16(n));
        }
      }
      FreedOk(data, buf, bs, a, n, name);
      WriteBlock(buf, a, n);
    }
  }

  lemma NoLive(d: seq<Byte>, bs: nat, a: nat)
    ensures Live(d, bs, a, a) == []
  {
  }

  lemma RecLive(d: seq<Byte>, bs: nat, a: nat)
    requires RecOk(d, bs, a)
    ensures Ino(d, a) != 0 ==> a + HEADER + NameLen(d, a) <= |d|
  {
  }

  /** The records that the freed one replaces: itself, and a free successor when it was merged. */
  ghost predicate Merges(d: seq<Byte>, bs: nat, a: nat, n: nat) {
    && RecOk(d, bs, a) && Ino(d, a) != 0 && a + n <= |d| && Tiled(d, bs, a + n, |d|)
    && (n == Rec(d, a) || (RecOk(d, bs, a + Rec(d, a)) && Ino(d, a + Rec(d, a)) == 0 && n == Rec(d, a) + Rec(d, a + Rec(d, a)) && a / bs == (a + n - 1) / bs))
  }

  lemma MergedLive(d: seq<Byte>, bs: nat, a: nat, n: nat)
    requires Merges(d, bs, a, n)
    ensures Tiled(d, bs, a, a + n) && Live(d, bs, a, a + n) == [At(d, a)]
    ensures Sized(d, bs, a, a + n) ==> EntrySize(NameLen(d, a)) <= n
  {
    hide Tiled, Live, Sized, EntrySize;
    Single(d, bs, a);
    var m := a + Rec(d, a);
    if n != Rec(d, a) {
      Single(d, bs, m);
      Join(d, bs, a, m, a + n);
    }
  }

  lemma FreedOk(d: seq<Byte>, d': seq<Byte>, bs: nat, a: nat, n: nat, name: seq<Byte>)
    requires Tiled(d, bs, 0, a) && Merges(d, bs, a, n) && At(d, a).name == name
    requires forall j :: 0 <= j < |Live(d, bs, 0, a)| ==> Live(d, bs, 0, a)[j].name != name
    requires |d'| == |d| && Ino(d', a) == 0 && Rec(d', a) == n
    requires forall i :: 0 <= i < |d| && !(a <= i < a + 6) ==> d'[i] == d[i]
    ensures Tiled(d, bs, 0, |d|) && Tiled(d', bs, 0, |d|) && Removed(Live(d, bs, 0, |d|), Live(d', bs, 0, |d|), name)
    ensures Sized(d, bs, 0, |d|) ==> Sized(d', bs, 0, |d|)
  {
    hide Tiled, Live, Sized, EntrySize, Removed;
    MergedLive(d, bs, a, n);
    Single(d', bs, a);
    Splice(d, d', bs, a, a + n);
    RemoveAt(Live(d, bs, 0, a), At(d, a), Live(d, bs, a + n, |d|), name);
    assert Live(d, bs, 0, a) + [] == Live(d, bs, 0, a);
  }

  /** The last record, cut, and the new one behind it. */
  lemma CutRecord(d: seq<Byte>, d': seq<Byte>, bs: nat, l: nat, e: Entry)
    requires RecOk(d, bs, l) && l + Rec(d, l) == |d| == |d'| && e.ino != 0
    requires var n := EntrySize(NameLen(d, l));
      && n + EntrySize(|e.name|) <= Rec(d, l) && Holds(d', l + n, e, Rec(d, l) - n) && Rec(d', l) == n
      && forall i :: l <= i < l + n && !(l + 4 <= i < l + 6) ==> d'[i] == d[i]
    ensures Tiled(d', bs, l, |d|) && Sized(d', bs, l, |d|)
    ensures Live(d', bs, l, |d|) == (if Ino(d, l) != 0 then [At(d, l)] else []) + [e]
  {
    hide Tiled, Live, Sized, EntrySize, Get32, Get16;
    var n := EntrySize(NameLen(d, l));
    SameBlock(bs, l, l + n - 1, |d| - 1);
    SameBlock(bs, l, l + n, |d| - 1);
    CutSame(d, d', l, n);
    Single(d', bs, l);
    Placed(d', bs, l + n, e, Rec(d, l) - n, Rec(d, l) - n);
    Join(d', bs, l, l + n, |d|);
  }

  /** A new record length leaves the rest of the record. */
  lemma CutSame(d: seq<Byte>, d': seq<Byte>, l: nat, n: nat)
    requires Fits(d, l) && HEADER + NameLen(d, l) <= n && l + n <= |d| == |d'|
    requires forall i :: l <= i < l + n && !(l + 4 <= i < l + 6) ==> d'[i] == d[i]
    ensures Ino(d', l) == Ino(d, l) && NameLen(d', l) == NameLen(d, l) && At(d', l) == At(d, l)
  {
    assert d'[l + HEADER..l + HEADER + NameLen(d, l)] == d[l + HEADER..l + HEADER + NameLen(d, l)];
  }

  lemma NextBlock(bs: nat, size: nat)
    requires bs > 0 && size % bs == 0
    ensures size / bs * bs == size && (size + bs) % bs == 0 && size / bs == (size + bs - 1) / bs
  {
    QuotRem(size, bs);
    ModUnique(size + bs, bs, size / bs + 1, 0);
    ModUnique(size + bs - 1, bs, size / bs, bs - 1);
  }

  lemma AppendOk(d: seq<Byte>, block: seq<Byte>, bs: nat, e: Entry)
    requires 1024 <= bs && |d| % bs == 0 && Tiled(d, bs, 0, |d|) && |block| == bs && Holds(block, 0, e, bs)
    requires e.ino != 0 && |e.name| <= 255
    ensures var d' := d + block;
      && Tiled(d', bs, 0, |d'|) && Inserted(Live(d, bs, 0, |d|), Live(d', bs, 0, |d'|), e)
      && (Sized(d, bs, 0, |d|) ==> Sized(d', bs, 0, |d'|))
  {
    hide Tiled, Live, Sized, Inserted;
    var d' := d + block;
    NextBlock(bs, |d|);
    Frame(d, d', bs, 0, |d|);
    assert d'[|d| + HEADER..|d| + HEADER + |e.name|] == block[HEADER..HEADER + |e.name|];
    Placed(d', bs, |d|, e, bs, bs);
    Join(d', bs, 0, |d|, |d'|);
    InsertAt(Live(d, bs, 0, |d|), [], [], e);
    NoneBetween(Live(d, bs, 0, |d|), e, []);
    assert Live(d, bs, 0, |d|) + [] == Live(d, bs, 0, |d|);
    assert Live(d, bs, 0, |d|) + [e] + [] == Live(d, bs, 0, |d|) + [e];
  }

  lemma NoneBetween(p: seq<Entry>, e: Entry, q: seq<Entry>)
    ensures p + [] + q == p + q && p + ([] + [e]) + q == p + [e] + q
  {
    assert p + [] == p && [] + [e] == [e];
  }

  lemma BlockBounds(bs: nat, a: nat, n: nat, size: nat)
    requires bs > 0 && size % bs == 0 && n > 0 && a + n <= size && a / bs == (a + n - 1) / bs
    ensures var start := a / bs * bs; 0 <= start <= a && a + n <= start + bs <= size
  {
    QuotRem(a, bs);
    QuotRem(a + n - 1, bs);
    QuotRem(size, bs);
    var x, y := a / bs, size / bs;
    if y <= x { Grow(y, x, bs); } else { Grow(x + 1, y, bs); }
    assert (x + 1) * bs == x * bs + bs;
  }

  lemma NoTile(d: seq<Byte>, bs: nat, a: nat)
    ensures Tiled(d, bs, a, a)
  {
  }

  /** The walk stands on a record, or at the end. */
  lemma Here(d: seq<Byte>, bs: nat, a: nat, needed: nat)
    requires Tiled(d, bs, a, |d|) && Fits(d, a)
    ensures a < |d| && RecOk(d, bs, a) && HEADER <= Rec(d, a) && a + Rec(d, a) <= |d|
    ensures Tiled(d, bs, a + Rec(d, a), |d|)
    ensures SlotAt(d, bs, a, |d|, needed) == if Ino(d, a) == 0 && Rec(d, a) >= needed then a else SlotAt(d, bs, a + Rec(d, a), |d|, needed)
  {
  }

  lemma AtEnd(d: seq<Byte>, bs: nat, a: nat, needed: nat)
    requires Tiled(d, bs, a, |d|) && !Fits(d, a)
    ensures a == |d| && SlotAt(d, bs, a, |d|, needed) == a
  {
  }

  /** The walk passes one more record. */
  lemma WalkOn(d: seq<Byte>, bs: nat, a: nat)
    requires Tiled(d, bs, 0, a) && RecOk(d, bs, a)
    ensures Tiled(d, bs, 0, a + Rec(d, a)) && LastAt(d, bs, 0, a + Rec(d, a)) == a
    ensures Live(d, bs, 0, a + Rec(d, a)) == Live(d, bs, 0, a) + if Ino(d, a) != 0 then [At(d, a)] else []
  {
    Single(d, bs, a);
    Join(d, bs, 0, a, a + Rec(d, a));
    LastJoin(d, bs, 0, a);
  }

  lemma {:induction false} LastJoin(d: seq<Byte>, bs: nat, a: nat, b: nat)
    requires Tiled(d, bs, a, b) && RecOk(d, bs, b) && Tiled(d, bs, a, b + Rec(d, b))
    ensures LastAt(d, bs, a, b + Rec(d, b)) == b
    decreases b - a
  {
    hide RecOk;
    assert RecOk(d, bs, a);
    if a < b { Reach(d, bs, a); LastJoin(d, bs, a + Rec(d, a), b); }
  }

  lemma Reach(d: seq<Byte>, bs: nat, a: nat)
    requires RecOk(d, bs, a)
    ensures Fits(d, a) && HEADER <= Rec(d, a)
  {
  }

  // ---- the size condition is not kept ----

  /** A block with one entry of 1000 bytes and a free record of 24 whose thirteenth to twentieth bytes are stale. */
  function StaleBlock(): (d: seq<Byte>)
    ensures |d| == 1024
  {
    seq(1024, i => if i == 0 then 5 else if i == 4 then 232 else if i == 5 then 3 else if i == 6 then 1 else if i == 8 then 97
      else if i == 1004 then 24 else if i == 1006 then 1 else if i == 1018 then 255 else 0)
  }

  lemma StaleRecords(d: seq<Byte>)
    requires d == StaleBlock()
    ensures Ino(d, 0) == 5 && Rec(d, 0) == 1000 && NameLen(d, 0) == 1
    ensures Ino(d, 1000) == 0 && Rec(d, 1000) == 24 && NameLen(d, 1000) == 1 && NameLen(d, 1012) == 255
    ensures RecOk(d, 1024, 0) && RecOk(d, 1024, 1000)
  {
  }

  /** Adding a one-byte name there leaves a free record shorter than an entry with its stale name length. */
  lemma StaleSplit()
    ensures Tiled(StaleBlock(), 1024, 0, 1024) && Sized(StaleBlock(), 1024, 0, 1024)
    ensures !CleanSplit(StaleBlock(), 1024, EntrySize(1))
  {
    hide StaleBlock, Tiled, Live, Sized, SlotAt, EntrySize, At, RecOk, Ino, Rec, NameLen;
    var d := StaleBlock();
    StaleRecords(d);
    StaleSizes();
    Single(d, 1024, 0);
    Single(d, 1024, 1000);
    Join(d, 1024, 0, 1000, 1024);
    Here(d, 1024, 0, 12);
    Here(d, 1024, 1000, 12);
  }

  lemma StaleSizes() ensures EntrySize(1) == 12 && EntrySize(255) == 264 {}

  /** After that, the room behind the last entry is negative: the subtraction of the next addition underflows. */
  method StaleUnderflow(d: Directory, x: Byte, ino: nat) returns (r: Result<()>)
    requires d.bs == 1024 && d.data == StaleBlock() && d.Valid() && 0 < ino < U32
    modifies d
    ensures r.Ok? && d.Valid() && TailRoom(d.data, 1024) == -252
  {
    hide StaleBlock, Tiled, Live, Sized, SlotAt, EntrySize, At, RecOk, Ino, Rec, NameLen, Inserted, Yield, CleanSplit;
    hide TailRoom;
    StaleSlot(d.data);
    r := d.Add([x], ino, 0, true, true);
  }

  lemma StaleSlot(d: seq<Byte>)
    requires d == StaleBlock() && Tiled(d, 1024, 0, 1024)
    ensures SlotAt(d, 1024, 0, 1024, EntrySize(1)) == 1000 && SplitLastSlot(d, 1000, EntrySize(1))
    ensures StaleRoom(d, 1000, EntrySize(1)) == -252
  {
    hide StaleBlock, Tiled, SlotAt, EntrySize, RecOk, Ino, Rec, NameLen;
    StaleRecords(d);
    StaleSizes();
    Here(d, 1024, 0, 12);
    Here(d, 1024, 1000, 12);
  }
}
