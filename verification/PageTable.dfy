/** Radix page tables: words in table pages, seen through the entry codec of the architecture, as a flat
    partial map from virtual addresses to physical addresses and flags. */
module PageTable {
  import opened Bits

  datatype Flags = Flags(r: bool, w: bool, x: bool, u: bool)

  /** What an entry of a table says. */
  datatype Entry = Absent | Leaf(phys: nat, flags: Flags) | Table(page: nat)

  /** The entry encoding of an architecture: the functions of its `pagetable` module, what the flags of
      a leaf decode to, the flags with which a written leaf is recognised as one, and the address that is
      read back from a leaf. */
  datatype Codec = Codec(
    present: nat -> bool, isLeaf: (nat, nat) -> bool, phys: (nat, nat) -> nat, flags: nat -> Flags,
    leaf: (nat, Flags, nat) -> nat, table: nat -> nat,
    norm: Flags -> Flags, mappable: Flags -> bool, held: (nat, nat) -> nat)

  const ENTRIES: nat := 512
  const PHYS_LIMIT: nat := 0x1_0000_0000_0000

  /** Bytes spanned by one entry at `level`. */
  function Span(level: nat): nat {
    if level == 0 then 4096 else if level == 1 then 2097152 else if level == 2 then 1073741824
    else if level == 3 then 549755813888 else 281474976710656
  }

  /** Where entry `i` starts, from the start of its table. */
  function Off(i: nat, level: nat): nat { i * Span(level) }

  function Idx(va: nat, level: nat): (i: nat)
    ensures i < ENTRIES
  {
    va / Span(level) % 512
  }

  /** An entry read at `level`; every present entry of the last level is a leaf. */
  function Decode(c: Codec, w: nat, level: nat): Entry {
    if !c.present(w) then Absent
    else if c.isLeaf(w, level) || level == 0 then Leaf(c.phys(w, level), c.flags(w))
    else Table(c.phys(w, level))
  }

  predicate LeafAddress(p: nat, level: nat) { p % Span(level) == 0 && p + Span(level) <= PHYS_LIMIT }

  predicate TableAddress(p: nat) { 0 < p < PHYS_LIMIT && p % 4096 == 0 }

  /** A leaf written is present, is recognised as a leaf exactly when its flags allow it, and is read back
      then and, as every present entry is a leaf there, at the last level. */
  predicate LeafOk(c: Codec, p: nat, f: Flags, level: nat) {
    LeafAddress(p, level) ==>
      var w := c.leaf(p, f, level);
      && c.present(w) && (c.isLeaf(w, level) <==> c.mappable(f))
      && (level == 0 || c.mappable(f) ==> Decode(c, w, level) == Leaf(c.held(p, level), c.norm(f)))
  }

  /** The address read back is one of the level, and the one written at the last level. */
  predicate HeldOk(c: Codec, p: nat, level: nat) {
    LeafAddress(p, level) ==> LeafAddress(c.held(p, level), level) && (level == 0 ==> c.held(p, level) == p)
  }

  predicate TableOk(c: Codec, p: nat, level: nat) {
    TableAddress(p) && 1 <= level <= 3 ==> Decode(c, c.table(p), level) == Table(p)
  }

  predicate NormOk(c: Codec, f: Flags) {
    (c.mappable(c.norm(f)) <==> c.mappable(f)) && c.norm(c.norm(f)) == c.norm(f)
  }

  ghost predicate CodecOk(c: Codec) {
    && !c.present(0)
    && (forall p: nat, f, level: nat :: level <= 3 ==> LeafOk(c, p, f, level))
    && (forall p: nat, level: nat :: level <= 3 ==> HeldOk(c, p, level))
    && (forall p: nat, level: nat :: TableOk(c, p, level))
    && (forall f :: NormOk(c, f))
  }

  // ---- translation ----

  datatype Mapping = Unmapped | Mapped(phys: nat, flags: Flags, level: nat)

  /** The tables: `lvl`, `base` and `parent` say of every table page its level, the first address it
      covers and the entry that points to it. */
  datatype PT = PT(c: Codec, top: nat, root: nat, mem: map<nat, seq<nat>>, lvl: map<nat, nat>, base: map<nat, nat>, parent: map<nat, (nat, nat)>)

  function WordAt(t: PT, page: nat, i: nat): nat { if page in t.mem && i < |t.mem[page]| then t.mem[page][i] else 0 }

  function EntryAt(t: PT, page: nat, level: nat, i: nat): Entry { Decode(t.c, WordAt(t, page, i), level) }

  function Look(t: PT, page: nat, level: nat, va: nat): Mapping
    decreases level
  {
    match EntryAt(t, page, level, Idx(va, level))
    case Absent => Unmapped
    case Leaf(p, f) => Mapped(p + va % Span(level), f, level)
    case Table(x) => if level == 0 then Unmapped else Look(t, x, level - 1, va)
  }

  function Translate(t: PT, va: nat): Mapping { Look(t, t.root, t.top, va) }

  // ---- the invariant ----

  /** `x` covers the addresses of `[base[x], base[x] + Span(lvl[x] + 1))`. */
  predicate Covers(t: PT, x: nat, va: nat) {
    x in t.lvl && x in t.base && t.base[x] <= va < t.base[x] + Span(t.lvl[x] + 1)
  }

  predicate GoodPage(t: PT, x: nat) {
    && x in t.lvl && x in t.mem && x in t.base && |t.mem[x]| == ENTRIES && TableAddress(x) && t.lvl[x] <= t.top
    && t.base[x] % Span(t.lvl[x] + 1) == 0 && t.base[x] + Span(t.lvl[x] + 1) <= Span(t.top + 1)
    && (if x == t.root then t.lvl[x] == t.top && t.base[x] == 0 else Hangs(t, x))
  }

  /** The recorded parent entry of `x` points to it. */
  predicate Hangs(t: PT, x: nat) {
    && x in t.lvl && x in t.base && x in t.parent
    && var (b, i) := t.parent[x];
       && b in t.lvl && b in t.base && t.lvl[b] == t.lvl[x] + 1 && i < ENTRIES
       && EntryAt(t, b, t.lvl[b], i) == Table(x) && t.base[x] == t.base[b] + Off(i, t.lvl[b])
  }

  /** A word that is no table pointer: zero, or a leaf as the codec reads it back. */
  predicate PlainWord(c: Codec, w: nat, level: nat) {
    match Decode(c, w, level)
    case Absent => w == 0
    case Leaf(p, f) => (c.isLeaf(w, level) <==> c.mappable(f)) && LeafAddress(p, level) && c.norm(f) == f
    case Table(_) => false
  }

  predicate GoodEntry(t: PT, b: nat, i: nat) {
    b in t.lvl &&
    match EntryAt(t, b, t.lvl[b], i)
    case Table(x) => x in t.lvl && x != t.root && x in t.parent && t.parent[x] == (b, i)
    case _ => PlainWord(t.c, WordAt(t, b, i), t.lvl[b])
  }

  ghost predicate Inv(t: PT) {
    && CodecOk(t.c) && 1 <= t.top <= 3 && t.root in t.lvl
    && (forall x :: x in t.lvl ==> GoodPage(t, x))
    && (forall b, i :: b in t.lvl && 0 <= i < ENTRIES ==> GoodEntry(t, b, i))
  }

  lemma PageOf(t: PT, x: nat)
    requires Inv(t) && x in t.lvl
    ensures GoodPage(t, x) && 1 <= t.top <= 3
  {
  }

  lemma EntryOf(t: PT, b: nat, i: nat)
    requires Inv(t) && b in t.lvl && i < ENTRIES
    ensures GoodEntry(t, b, i)
  {
  }

  lemma CodecOf(t: PT)
    requires Inv(t)
    ensures CodecOk(t.c) && t.root in t.lvl && 1 <= t.top <= 3
  {
  }

  // ---- addresses ----

  lemma Digit(q: nat, k: nat, i: nat)
    requires 512 * k <= q < 512 * k + 512 && i < 512
    ensures q % 512 == i <==> q == 512 * k + i
  {
  }

  /** Entry `i` of a table covers its share of the table's addresses. */
  lemma RegionIdx(va: nat, base: nat, level: nat, i: nat)
    requires level <= 3 && base % Span(level + 1) == 0 && base <= va < base + Span(level + 1) && i < ENTRIES
    ensures Idx(va, level) == i <==> base + Off(i, level) <= va < base + Off(i, level) + Span(level)
  {
    if level == 0 {
      Digit(va / 4096, base / 2097152, i);
    } else if level == 1 {
      Digit(va / 2097152, base / 1073741824, i);
    } else if level == 2 {
      Digit(va / 1073741824, base / 549755813888, i);
    } else {
      Digit(va / 549755813888, base / 281474976710656, i);
    }
  }

  lemma RegionBase(base: nat, level: nat, i: nat)
    requires 1 <= level <= 3 && base % Span(level + 1) == 0 && i < ENTRIES
    ensures (base + Off(i, level)) % Span(level) == 0
  {
    if level == 1 {
      QuotRem(base, 1073741824);
      ModUnique(base + i * 2097152, 2097152, 512 * (base / 1073741824) + i, 0);
    } else if level == 2 {
      QuotRem(base, 549755813888);
      ModUnique(base + i * 1073741824, 1073741824, 512 * (base / 549755813888) + i, 0);
    } else {
      QuotRem(base, 281474976710656);
      ModUnique(base + i * 549755813888, 549755813888, 512 * (base / 281474976710656) + i, 0);
    }
  }

  lemma RegionFits(level: nat, i: nat)
    requires level <= 3 && i < ENTRIES
    ensures Off(i, level) + Span(level) <= Span(level + 1)
  {
    if level == 0 { } else if level == 1 { } else if level == 2 { } else { }
  }

  predicate InRegion(t: PT, b: nat, i: nat, va: nat) { Covers(t, b, va) && Idx(va, t.lvl[b]) == i }

  /** The table below an entry covers exactly the addresses of the entry. */
  lemma ChildCovers(t: PT, x: nat, va: nat)
    requires Inv(t) && x in t.lvl && x != t.root
    ensures var (b, i) := t.parent[x]; Covers(t, x, va) <==> InRegion(t, b, i, va)
  {
    hide Inv, Span, Off, Idx, EntryAt;
    PageOf(t, x);
    var (b, i) := t.parent[x];
    PageOf(t, b);
    RegionFits(t.lvl[b], i);
    if Covers(t, b, va) { RegionIdx(va, t.base[b], t.lvl[b], i); }
  }

  // ---- locality ----

  /** The words of the tables of `t` other than entry `i` of `b` are the same in `t1`. */
  ghost predicate SameBut(t: PT, t1: PT, b: nat, i: nat) {
    && t1.c == t.c && t1.top == t.top && t1.root == t.root
    && forall x, j :: x in t.lvl && 0 <= j < ENTRIES && (x != b || j != i) ==> WordAt(t1, x, j) == WordAt(t, x, j)
  }

  /** A walk that does not read the entry sees no change. */
  lemma {:induction false} LookFrame(t: PT, t1: PT, b: nat, i: nat, x: nat, va: nat)
    requires Inv(t) && SameBut(t, t1, b, i) && Covers(t, x, va) && !InRegion(t, b, i, va)
    ensures Look(t1, x, t.lvl[x], va) == Look(t, x, t.lvl[x], va)
    decreases t.lvl[x]
  {
    hide Span, Idx, PlainWord, Hangs;
    var level := t.lvl[x];
    var j := Idx(va, level);
    assert WordAt(t1, x, j) == WordAt(t, x, j);
    match EntryAt(t, x, level, j) {
      case Table(y) =>
        assert GoodEntry(t, x, j);
        assert GoodPage(t, y) && Hangs(t, y) && GoodPage(t, x);
        HangsLevel(t, y);
        ChildCovers(t, y, va);
        LookFrame(t, t1, b, i, y, va);
      case _ =>
    }
  }

  lemma HangsLevel(t: PT, x: nat)
    requires Hangs(t, x)
    ensures t.parent[x].0 in t.lvl && t.lvl[t.parent[x].0] == t.lvl[x] + 1
  {
  }

  lemma OutsideSame(t: PT, t1: PT, b: nat, i: nat, va: nat)
    requires Inv(t) && SameBut(t, t1, b, i) && va < Span(t.top + 1) && !InRegion(t, b, i, va)
    ensures Translate(t1, va) == Translate(t, va)
  {
    assert GoodPage(t, t.root);
    hide Inv, Span, Off, Idx, Look;
    LookFrame(t, t1, b, i, t.root, va);
  }

  /** The walk to an address leads through every table that covers it, as long as the tables above
      are unchanged. */
  lemma {:induction false} WalkThrough(t: PT, t1: PT, b: nat, i: nat, x: nat, va: nat)
    requires Inv(t) && SameBut(t, t1, b, i) && b in t.lvl && Covers(t, x, va) && t.lvl[x] >= t.lvl[b]
    ensures Translate(t1, va) == Look(t1, x, t.lvl[x], va)
    decreases t.top - t.lvl[x]
  {
    assert GoodPage(t, x);
    if x != t.root {
      assert Hangs(t, x);
      var (y, j) := t.parent[x];
      ChildCovers(t, x, va);
      hide Inv, Span, Off, Idx;
      WalkThrough(t, t1, b, i, y, va);
      assert WordAt(t1, y, j) == WordAt(t, y, j);
    }
  }

  lemma SameButSelf(t: PT, b: nat, i: nat)
    ensures SameBut(t, t, b, i)
  {
  }

  // ---- replacing an entry that is no table pointer ----

  function Put(t: PT, b: nat, i: nat, w: nat): PT
    requires b in t.mem && i < |t.mem[b]|
  {
    var words: seq<nat> := t.mem[b][i := w];
    t.(mem := t.mem[b := words])
  }

  lemma PutWord(t: PT, b: nat, i: nat, w: nat, x: nat, j: nat)
    requires b in t.mem && i < |t.mem[b]|
    ensures WordAt(Put(t, b, i, w), x, j) == if x == b && j == i then w else WordAt(t, x, j)
  {
  }

  lemma PutSame(t: PT, b: nat, i: nat, w: nat)
    requires b in t.mem && i < |t.mem[b]|
    ensures SameBut(t, Put(t, b, i, w), b, i)
  {
  }

  predicate IsTable(t: PT, b: nat, i: nat) { b in t.lvl && EntryAt(t, b, t.lvl[b], i).Table? }

  lemma PutInv(t: PT, b: nat, i: nat, w: nat)
    requires Inv(t) && b in t.lvl && i < ENTRIES && !IsTable(t, b, i) && PlainWord(t.c, w, t.lvl[b])
    ensures b in t.mem && |t.mem[b]| == ENTRIES && Inv(Put(t, b, i, w))
  {
    PageOf(t, b);
    CodecOf(t);
    var t1 := Put(t, b, i, w);
    forall x | x in t1.lvl ensures GoodPage(t1, x) { PutPage(t, b, i, w, x); }
    forall x, j | x in t1.lvl && 0 <= j < ENTRIES ensures GoodEntry(t1, x, j) { PutEntry(t, b, i, w, x, j); }
    hide CodecOk, GoodPage, GoodEntry, PlainWord;
  }

  lemma PutPage(t: PT, b: nat, i: nat, w: nat, x: nat)
    requires Inv(t) && b in t.lvl && i < ENTRIES && !IsTable(t, b, i) && b in t.mem && |t.mem[b]| == ENTRIES
    requires x in t.lvl
    ensures GoodPage(Put(t, b, i, w), x)
  {
    hide Inv, Span, Off, Decode, PlainWord;
    PageOf(t, x);
    if x != t.root { PutWord(t, b, i, w, t.parent[x].0, t.parent[x].1); }
  }

  lemma PutEntry(t: PT, b: nat, i: nat, w: nat, x: nat, j: nat)
    requires Inv(t) && b in t.lvl && i < ENTRIES && b in t.mem && |t.mem[b]| == ENTRIES && x in t.lvl && j < ENTRIES
    requires PlainWord(t.c, w, t.lvl[b])
    ensures GoodEntry(Put(t, b, i, w), x, j)
  {
    hide Inv, Span, Off;
    EntryOf(t, x, j);
    PutWord(t, b, i, w, x, j);
  }

  /** What an address translates to when it reads the new entry. */
  lemma PutLook(t: PT, b: nat, i: nat, w: nat, va: nat)
    requires Inv(t) && b in t.lvl && i < ENTRIES && b in t.mem && |t.mem[b]| == ENTRIES && va < Span(t.top + 1)
    requires PlainWord(t.c, w, t.lvl[b])
    ensures Translate(Put(t, b, i, w), va) ==
            if InRegion(t, b, i, va) then PlainLook(t.c, w, t.lvl[b], va) else Translate(t, va)
  {
    hide Inv, Span, Off, Idx;
    var t1 := Put(t, b, i, w);
    PutSame(t, b, i, w);
    if InRegion(t, b, i, va) {
      WalkThrough(t, t1, b, i, b, va);
      PutWord(t, b, i, w, b, i);
    } else {
      OutsideSame(t, t1, b, i, va);
    }
  }

  function PlainLook(c: Codec, w: nat, level: nat, va: nat): Mapping {
    match Decode(c, w, level) case Leaf(p, f) => Mapped(p + va % Span(level), f, level) case _ => Unmapped
  }

  // ---- adding a table ----

  /** A new table `x` with these words behind entry `i` of `b`. */
  function AddTable(t: PT, b: nat, i: nat, x: nat, words: seq<nat>): PT
    requires b in t.mem && i < |t.mem[b]| && b in t.lvl && t.lvl[b] >= 1 && b in t.base
  {
    Put(t.(mem := t.mem[x := words][b := t.mem[b]]), b, i, t.c.table(x)).(
      lvl := t.lvl[x := t.lvl[b] - 1],
      base := t.base[x := t.base[b] + Off(i, t.lvl[b])], parent := t.parent[x := (b, i)])
  }

  ghost predicate FreshTable(t: PT, b: nat, i: nat, x: nat, words: seq<nat>) {
    && b in t.lvl && b in t.mem && b in t.base && |t.mem[b]| == ENTRIES && i < ENTRIES && 1 <= t.lvl[b] && !IsTable(t, b, i)
    && x !in t.lvl && TableAddress(x) && |words| == ENTRIES
    && forall j :: 0 <= j < ENTRIES ==> PlainWord(t.c, words[j], t.lvl[b] - 1)
  }

  lemma FreshFacts(t: PT, b: nat, i: nat, x: nat, words: seq<nat>)
    requires FreshTable(t, b, i, x, words)
    ensures b in t.lvl && b in t.mem && b in t.base && |t.mem[b]| == ENTRIES && i < ENTRIES && 1 <= t.lvl[b]
    ensures x !in t.lvl && b != x
  {
  }

  lemma AddWord(t: PT, b: nat, i: nat, x: nat, words: seq<nat>, y: nat, j: nat)
    requires FreshTable(t, b, i, x, words) && j < ENTRIES
    ensures WordAt(AddTable(t, b, i, x, words), y, j) ==
            if y == x then words[j] else if y == b && j == i then t.c.table(x) else WordAt(t, y, j)
  {
  }

  lemma TableWord(t: PT, x: nat, level: nat)
    requires CodecOk(t.c) && TableAddress(x) && 1 <= level <= 3
    ensures Decode(t.c, t.c.table(x), level) == Table(x)
  {
    assert TableOk(t.c, x, level);
  }

  lemma AddPage(t: PT, b: nat, i: nat, x: nat, words: seq<nat>, y: nat)
    requires Inv(t) && FreshTable(t, b, i, x, words) && y in AddTable(t, b, i, x, words).lvl
    ensures GoodPage(AddTable(t, b, i, x, words), y)
  {
    hide Inv, Span, Off, CodecOk, PlainWord, Decode;
    CodecOf(t);
    PageOf(t, b);
    TableWord(t, x, t.lvl[b]);
    if y == x {
      AddWord(t, b, i, x, words, b, i);
      RegionBase(t.base[b], t.lvl[b], i);
      RegionFits(t.lvl[b], i);
    } else {
      PageOf(t, y);
      if y != t.root { AddWord(t, b, i, x, words, t.parent[y].0, t.parent[y].1); }
    }
  }

  lemma AddEntry(t: PT, b: nat, i: nat, x: nat, words: seq<nat>, y: nat, j: nat)
    requires Inv(t) && FreshTable(t, b, i, x, words) && y in AddTable(t, b, i, x, words).lvl && j < ENTRIES
    ensures GoodEntry(AddTable(t, b, i, x, words), y, j)
  {
    hide Inv, Span, Off, CodecOk, Decode;
    CodecOf(t);
    PageOf(t, b);
    TableWord(t, x, t.lvl[b]);
    AddWord(t, b, i, x, words, y, j);
    if y != x { EntryOf(t, y, j); }
  }

  lemma AddInv(t: PT, b: nat, i: nat, x: nat, words: seq<nat>)
    requires Inv(t) && FreshTable(t, b, i, x, words)
    ensures Inv(AddTable(t, b, i, x, words))
  {
    CodecOf(t);
    var t1 := AddTable(t, b, i, x, words);
    forall y | y in t1.lvl ensures GoodPage(t1, y) { AddPage(t, b, i, x, words, y); }
    forall y, j | y in t1.lvl && 0 <= j < ENTRIES ensures GoodEntry(t1, y, j) { AddEntry(t, b, i, x, words, y, j); }
  }

  lemma AddLook(t: PT, b: nat, i: nat, x: nat, words: seq<nat>, va: nat)
    requires Inv(t) && FreshTable(t, b, i, x, words) && va < Span(t.top + 1)
    ensures Translate(AddTable(t, b, i, x, words), va) ==
            if InRegion(t, b, i, va) then PlainLook(t.c, words[Idx(va, t.lvl[b] - 1)], t.lvl[b] - 1, va) else Translate(t, va)
  {
    hide Inv, Span, Off, Idx, CodecOk;
    var t1 := AddTable(t, b, i, x, words);
    CodecOf(t);
    PageOf(t, b);
    TableWord(t, x, t.lvl[b]);
    hide GoodPage;
    assert SameBut(t, t1, b, i) by {
      forall y, j | y in t.lvl && 0 <= j < ENTRIES && (y != b || j != i) ensures WordAt(t1, y, j) == WordAt(t, y, j) {
        AddWord(t, b, i, x, words, y, j);
      }
    }
    if InRegion(t, b, i, va) {
      WalkThrough(t, t1, b, i, b, va);
      AddWord(t, b, i, x, words, b, i);
      AddWord(t, b, i, x, words, x, Idx(va, t.lvl[b] - 1));
      assert PlainWord(t.c, words[Idx(va, t.lvl[b] - 1)], t.lvl[b] - 1);
    } else {
      OutsideSame(t, t1, b, i, va);
    }
  }

  // ---- removing a table that points to no others ----

  ghost predicate NoTables(t: PT, x: nat) { forall j :: 0 <= j < ENTRIES ==> !IsTable(t, x, j) }

  function DropTable(t: PT, b: nat, i: nat, w: nat, x: nat): PT
    requires b in t.mem && i < |t.mem[b]|
  {
    Put(t, b, i, w).(lvl := t.lvl - {x}, base := t.base - {x}, parent := t.parent - {x})
  }

  ghost predicate LastTable(t: PT, b: nat, i: nat, w: nat, x: nat) {
    && b in t.lvl && b in t.mem && |t.mem[b]| == ENTRIES && i < ENTRIES && EntryAt(t, b, t.lvl[b], i) == Table(x)
    && NoTables(t, x) && PlainWord(t.c, w, t.lvl[b])
  }

  lemma DropPage(t: PT, b: nat, i: nat, w: nat, x: nat, y: nat)
    requires Inv(t) && LastTable(t, b, i, w, x) && y in t.lvl && y != x
    ensures GoodPage(DropTable(t, b, i, w, x), y)
  {
    hide Inv, Span, Off, PlainWord, Decode;
    PageOf(t, y);
    EntryOf(t, b, i);
    if y != t.root {
      var (p, j) := t.parent[y];
      PutWord(t, b, i, w, p, j);
      assert p == x ==> !IsTable(t, x, j);
    }
  }

  lemma DropEntryOk(t: PT, b: nat, i: nat, w: nat, x: nat, y: nat, j: nat)
    requires Inv(t) && LastTable(t, b, i, w, x) && y in t.lvl && y != x && j < ENTRIES
    ensures GoodEntry(DropTable(t, b, i, w, x), y, j)
  {
    hide Inv, Span, Off, Decode;
    EntryOf(t, y, j);
    EntryOf(t, b, i);
    PutWord(t, b, i, w, y, j);
  }

  lemma DropInv(t: PT, b: nat, i: nat, w: nat, x: nat)
    requires Inv(t) && LastTable(t, b, i, w, x)
    ensures Inv(DropTable(t, b, i, w, x)) && x in t.lvl && x != t.root && x != b && t.lvl[x] == t.lvl[b] - 1
  {
    assert GoodEntry(t, b, i) && GoodPage(t, x);
    var t1 := DropTable(t, b, i, w, x);
    forall y | y in t1.lvl ensures GoodPage(t1, y) { DropPage(t, b, i, w, x, y); }
    forall y, j | y in t1.lvl && 0 <= j < ENTRIES ensures GoodEntry(t1, y, j) { DropEntryOk(t, b, i, w, x, y, j); }
  }

  lemma DropLook(t: PT, b: nat, i: nat, w: nat, x: nat, va: nat)
    requires Inv(t) && LastTable(t, b, i, w, x) && va < Span(t.top + 1)
    ensures Translate(DropTable(t, b, i, w, x), va) ==
            if InRegion(t, b, i, va) then PlainLook(t.c, w, t.lvl[b], va) else Translate(t, va)
  {
    hide Inv, Span, Off, Idx;
    PutLook(t, b, i, w, va);
    LookMem(Put(t, b, i, w), DropTable(t, b, i, w, x), t.root, t.top, va);
  }

  /** A walk looks at the words only. */
  lemma {:induction false} LookMem(t: PT, t1: PT, page: nat, level: nat, va: nat)
    requires t1.c == t.c && t1.mem == t.mem
    ensures Look(t1, page, level, va) == Look(t, page, level, va)
    decreases level
  {
    match EntryAt(t, page, level, Idx(va, level)) {
      case Table(x) => if level > 0 { LookMem(t, t1, x, level - 1, va); }
      case _ =>
    }
  }

  // ---- the flat map ----

  datatype Flat = NoPage | Page(phys: nat, flags: Flags)

  function FlatOf(m: Mapping): Flat { match m case Unmapped => NoPage case Mapped(p, f, _) => Page(p, f) }

  function FlatAt(t: PT, va: nat): Flat { FlatOf(Translate(t, va)) }

  /** The same page, through a leaf that is not larger. */
  predicate Finer(m1: Mapping,
      m: Mapping) { FlatOf(m1) == FlatOf(m) && (m1.Mapped? && m.Mapped? ==> m1.level <= m.level) }

  ghost predicate SameView(t: PT, t1: PT) {
    t1.top == t.top && forall va: nat :: va < Span(t.top + 1) ==> Finer(Translate(t1, va), Translate(t, va))
  }

  lemma SameViewRefl(t: PT)
    ensures SameView(t, t)
  {
  }

  lemma SameViewTrans(t: PT, t1: PT, t2: PT)
    requires SameView(t, t1) && SameView(t1, t2)
    ensures SameView(t, t2)
  {
    hide Translate;
    forall va: nat | va < Span(t.top + 1) ensures Finer(Translate(t2, va), Translate(t, va)) {
      assert Finer(Translate(t1, va), Translate(t, va));
    }
  }

  /** An empty table in place of an absent entry changes nothing. */
  lemma AddEmpty(t: PT, b: nat, i: nat, x: nat, words: seq<nat>)
    requires Inv(t) && FreshTable(t, b, i, x, words) && EntryAt(t, b, t.lvl[b], i) == Absent
    requires forall j :: 0 <= j < ENTRIES ==> words[j] == 0
    ensures Inv(AddTable(t, b, i, x, words)) && SameView(t, AddTable(t, b, i, x, words))
  {
    AddInv(t, b, i, x, words);
    assert !t.c.present(0);
    hide Inv, Span, Off, Idx, Look, FreshTable;
    forall va: nat | va < Span(t.top + 1) ensures Finer(Translate(AddTable(t, b, i, x, words), va), Translate(t, va)) {
      AddLook(t, b, i, x, words, va);
      if InRegion(t, b, i, va) { EntryLook(t, b, i, va); }
    }
  }

  /** An address whose walk ends at entry `i` of `b` translates to what the entry says. */
  lemma EntryLook(t: PT, b: nat, i: nat, va: nat)
    requires Inv(t) && InRegion(t, b, i, va) && !IsTable(t, b, i)
    ensures Translate(t, va) == PlainLook(t.c, WordAt(t, b, i), t.lvl[b], va)
  {
    hide Inv, Span, Off, Idx;
    SameButSelf(t, b, i);
    WalkThrough(t, t, b, i, b, va);
  }

  // ---- splitting a leaf ----

  lemma SplitOffset(va: nat, level: nat)
    requires 1 <= level <= 3
    ensures Off(Idx(va, level - 1), level - 1) + va % Span(level - 1) == va % Span(level)
  {
    if level == 1 {
      Offset0(va);
    } else if level == 2 {
      Offset1(va);
    } else {
      Offset2(va);
    }
  }

  lemma Offset0(va: nat)
    ensures va / 4096 % 512 * 4096 + va % 4096 == va % 2097152
  {
    var q := va / 4096;
    assert va == 4096 * q + va % 4096 && q == 512 * (q / 512) + q % 512;
  }

  lemma Offset1(va: nat)
    ensures va / 2097152 % 512 * 2097152 + va % 2097152 == va % 1073741824
  {
    var q := va / 2097152;
    assert va == 2097152 * q + va % 2097152 && q == 512 * (q / 512) + q % 512;
  }

  lemma Offset2(va: nat)
    ensures va / 1073741824 % 512 * 1073741824 + va % 1073741824 == va % 549755813888
  {
    var q := va / 1073741824;
    assert va == 1073741824 * q + va % 1073741824 && q == 512 * (q / 512) + q % 512;
  }

  /** The words of the table that stands for a leaf. */
  predicate SplitWords(c: Codec, p: nat, f: Flags, level: nat, words: seq<nat>) {
    level >= 1 && |words| == ENTRIES && forall j :: 0 <= j < ENTRIES ==> words[j] == c.leaf(p + Off(j, level - 1), f, level - 1)
  }

  /** Every aligned piece of a leaf at `p` is read back from a leaf of its own. */
  ghost predicate CanSplit(c: Codec, p: nat, level: nat) {
    forall q: nat, l: nat :: l < level && LeafAddress(q, l) && p <= q && q + Span(l) <= p + Span(level) ==> c.held(q, l) == q
  }

  lemma PieceAddress(p: nat, level: nat, j: nat)
    requires 1 <= level <= 3 && LeafAddress(p, level) && j < ENTRIES
    ensures LeafAddress(p + Off(j, level - 1), level - 1) && Off(j, level - 1) + Span(level - 1) <= Span(level)
  {
    RegionFits(level - 1, j);
    if level == 1 {
      QuotRem(p, 2097152);
      ModUnique(p + j * 4096, 4096, 512 * (p / 2097152) + j, 0);
    } else if level == 2 {
      QuotRem(p, 1073741824);
      ModUnique(p + j * 2097152, 2097152, 512 * (p / 1073741824) + j, 0);
    } else {
      QuotRem(p, 549755813888);
      ModUnique(p + j * 1073741824, 1073741824, 512 * (p / 549755813888) + j, 0);
    }
  }

  lemma CanSplitPiece(c: Codec, p: nat, level: nat, j: nat)
    requires 1 <= level <= 3 && LeafAddress(p, level) && CanSplit(c, p, level) && j < ENTRIES
    ensures CanSplit(c, p + Off(j, level - 1), level - 1)
  {
    PieceAddress(p, level, j);
    hide Span, Off;
  }

  lemma SplitWord(c: Codec, p: nat, f: Flags, level: nat, words: seq<nat>, j: nat)
    requires CodecOk(c) && SplitWords(c, p, f, level, words) && 1 <= level <= 3 && LeafAddress(p, level)
    requires c.mappable(f) && c.norm(f) == f && j < ENTRIES
    ensures PlainWord(c, words[j], level - 1)
    ensures Decode(c, words[j], level - 1) == Leaf(c.held(p + Off(j, level - 1), level - 1), f)
  {
    PieceAddress(p, level, j);
    hide Span, Off;
    assert LeafOk(c, p + Off(j, level - 1), f, level - 1) && HeldOk(c, p + Off(j, level - 1), level - 1);
  }

  lemma PieceHeld(c: Codec, p: nat, level: nat, j: nat)
    requires 1 <= level <= 3 && LeafAddress(p, level) && CanSplit(c, p, level) && j < ENTRIES
    ensures c.held(p + Off(j, level - 1), level - 1) == p + Off(j, level - 1)
  {
    PieceAddress(p, level, j);
    hide Span, Off;
  }

  lemma SplitFresh(t: PT, b: nat, i: nat, x: nat, words: seq<nat>, p: nat, f: Flags)
    requires Inv(t) && b in t.lvl && i < ENTRIES && t.lvl[b] >= 1 && EntryAt(t, b, t.lvl[b], i) == Leaf(p, f)
    requires x !in t.lvl && TableAddress(x) && SplitWords(t.c, p, f, t.lvl[b], words)
    ensures LeafAddress(p, t.lvl[b]) && t.c.mappable(f) && t.c.norm(f) == f && t.lvl[b] <= 3
    ensures FreshTable(t, b, i, x, words)
  {
    assert GoodEntry(t, b, i) && GoodPage(t, b);
    hide Span, Off;
    forall j | 0 <= j < ENTRIES ensures PlainWord(t.c, words[j], t.lvl[b] - 1) { SplitWord(t.c, p, f, t.lvl[b], words, j); }
  }

  /** Splitting keeps the tables well formed, and physical address, offset and flags of every address if the
      pieces are read back exactly. */
  lemma SplitView(t: PT, b: nat, i: nat, x: nat, words: seq<nat>, p: nat, f: Flags)
    requires Inv(t) && b in t.lvl && i < ENTRIES && t.lvl[b] >= 1 && EntryAt(t, b, t.lvl[b], i) == Leaf(p, f)
    requires x !in t.lvl && TableAddress(x) && SplitWords(t.c, p, f, t.lvl[b], words)
    ensures FreshTable(t, b, i, x, words) && Inv(AddTable(t, b, i, x, words))
    ensures CanSplit(t.c, p, t.lvl[b]) ==> SameView(t, AddTable(t, b, i, x, words))
  {
    hide Inv, Span, Off, Idx, Look, CodecOk, Translate, CanSplit, SplitWords, PlainWord;
    SplitFresh(t, b, i, x, words, p, f);
    AddInv(t, b, i, x, words);
    if CanSplit(t.c, p, t.lvl[b]) {
      forall va: nat | va < Span(t.top + 1)
        ensures Finer(Translate(AddTable(t, b, i, x, words), va), Translate(t, va))
      {
        SplitAt(t, b, i, x, words, p, f, va);
        PieceHeld(t.c, p, t.lvl[b], Idx(va, t.lvl[b] - 1));
      }
    }
  }

  /** After a split, an address of the leaf reads the piece as it is held; every other one is as before.  So the
      split changes exactly the addresses whose piece is not read back. */
  lemma SplitAt(t: PT, b: nat, i: nat, x: nat, words: seq<nat>, p: nat, f: Flags, va: nat)
    requires Inv(t) && b in t.lvl && i < ENTRIES && t.lvl[b] >= 1 && EntryAt(t, b, t.lvl[b], i) == Leaf(p, f)
    requires x !in t.lvl && TableAddress(x) && SplitWords(t.c, p, f, t.lvl[b], words)
    requires FreshTable(t, b, i, x, words) && va < Span(t.top + 1)
    ensures var piece := p + Off(Idx(va, t.lvl[b] - 1), t.lvl[b] - 1); var t1 := AddTable(t, b, i, x, words);
      && (Finer(Translate(t1, va), Translate(t, va)) <==> !InRegion(t, b, i, va) || t.c.held(piece, t.lvl[b] - 1) == piece)
      && (!InRegion(t, b, i, va) ==> Translate(t1, va) == Translate(t, va))
      && (InRegion(t, b, i, va) ==>
            && Translate(t, va) == Mapped(p + va % Span(t.lvl[b]), f, t.lvl[b])
            && Translate(t1, va) == Mapped(t.c.held(piece, t.lvl[b] - 1) + va % Span(t.lvl[b] - 1), f, t.lvl[b] - 1))
  {
    hide Inv, Span, Off, Idx, Look, CodecOk;
    SplitFresh(t, b, i, x, words, p, f);
    AddLook(t, b, i, x, words, va);
    if InRegion(t, b, i, va) {
      CodecOf(t);
      EntryLook(t, b, i, va);
      SplitWord(t.c, p, f, t.lvl[b], words, Idx(va, t.lvl[b] - 1));
      SplitOffset(va, t.lvl[b]);
    }
  }

  // ---- mapping a page ----

  lemma AlignedStart(va: nat, base: nat, level: nat, i: nat)
    requires level <= 3 && base % Span(level + 1) == 0 && va % Span(level) == 0
    requires base + Off(i, level) <= va < base + Off(i, level) + Span(level)
    ensures va == base + Off(i, level)
  {
    if level == 0 {
      Aligned(va, base, i, 4096, 2097152);
    } else if level == 1 {
      Aligned(va, base, i, 2097152, 1073741824);
    } else if level == 2 {
      Aligned(va, base, i, 1073741824, 549755813888);
    } else {
      Aligned(va, base, i, 549755813888, 281474976710656);
    }
  }

  lemma Aligned(va: nat, base: nat, i: nat, d: nat, e: nat)
    requires d > 0 && e == 512 * d && base % e == 0 && va % d == 0 && base + i * d <= va < base + i * d + d
    ensures va == base + i * d
  {
    QuotRem(base, e);
    QuotRem(va, d);
    var k := 512 * (base / e) + i;
    assert base + i * d == k * d;
    if va / d > k { Grow(k + 1, va / d, d); } else if va / d < k { Grow(va / d, k - 1, d); }
  }

  lemma AlignedOffset(va: nat, va': nat, level: nat)
    requires level <= 3 && va % Span(level) == 0 && va <= va' < va + Span(level)
    ensures va' % Span(level) == va' - va
  {
    if level == 0 { } else if level == 1 { } else if level == 2 { } else { }
  }

  /** The entry that covers an aligned address covers one page from there on. */
  lemma RegionOfPage(t: PT, b: nat, va: nat, va': nat)
    requires Inv(t) && Covers(t, b, va) && va % Span(t.lvl[b]) == 0
    ensures InRegion(t, b, Idx(va, t.lvl[b]), va') <==> va <= va' < va + Span(t.lvl[b])
    ensures va <= va' < va + Span(t.lvl[b]) ==> va' % Span(t.lvl[b]) == va' - va
  {
    assert GoodPage(t, b);
    var level := t.lvl[b];
    hide Inv, Span, Off, Idx;
    RegionIdx(va, t.base[b], level, Idx(va, level));
    AlignedStart(va, t.base[b], level, Idx(va, level));
    RegionFits(level, Idx(va, level));
    if Covers(t, b, va') { RegionIdx(va', t.base[b], level, Idx(va, level)); }
    if va <= va' < va + Span(level) { AlignedOffset(va, va', level); }
  }

  /** Exactly one page changed: `[va, va + Span(level))` now maps to `phys` on. */
  ghost predicate Remapped(t: PT, t1: PT, va: nat, level: nat, phys: nat, f: Flags) {
    t1.top == t.top && forall a: nat :: a < Span(t.top + 1) ==>
      if va <= a < va + Span(level) then Translate(t1, a) == Mapped(phys + (a - va), f, level) else Finer(Translate(t1, a), Translate(t, a))
  }

  lemma RemappedFrom(t0: PT, t: PT, t1: PT, va: nat, level: nat, phys: nat, f: Flags)
    requires SameView(t0, t) && Remapped(t, t1, va, level, phys, f)
    ensures Remapped(t0, t1, va, level, phys, f)
  {
    hide Translate, Span;
    forall a: nat | a < Span(t0.top + 1) && !(va <= a < va + Span(level))
      ensures Finer(Translate(t1, a), Translate(t0, a))
    {
      assert Finer(Translate(t, a), Translate(t0, a));
    }
  }

  lemma LeafWord(c: Codec, p: nat, f: Flags, level: nat)
    requires CodecOk(c) && LeafAddress(p, level) && level <= 3 && (level == 0 || c.mappable(f))
    ensures PlainWord(c, c.leaf(p, f, level), level)
    ensures Decode(c, c.leaf(p, f, level), level) == Leaf(c.held(p, level), c.norm(f))
  {
    assert LeafOk(c, p, f, level) && HeldOk(c, p, level) && NormOk(c, f);
  }

  lemma MapView(t: PT, t1: PT, b: nat, va: nat, p: nat, f: Flags)
    requires Inv(t) && Covers(t, b, va) && va % Span(t.lvl[b]) == 0 && t1.top == t.top
    requires Decode(t.c, t.c.leaf(p, f, t.lvl[b]), t.lvl[b]) == Leaf(t.c.held(p, t.lvl[b]), t.c.norm(f))
    requires forall a: nat :: a < Span(t.top + 1) ==>
               Translate(t1, a) == if InRegion(t, b, Idx(va, t.lvl[b]), a) then PlainLook(t.c, t.c.leaf(p, f, t.lvl[b]), t.lvl[b], a) else Translate(t, a)
    ensures Remapped(t, t1, va, t.lvl[b], t.c.held(p, t.lvl[b]), t.c.norm(f))
  {
    hide Inv, Span, Off, Idx, Look, InRegion, Translate;
    forall a: nat | a < Span(t.top + 1)
      ensures if va <= a < va + Span(t.lvl[b])
              then Translate(t1, a) == Mapped(t.c.held(p, t.lvl[b]) + (a - va), t.c.norm(f), t.lvl[b])
              else Finer(Translate(t1, a), Translate(t, a))
    {
      RegionOfPage(t, b, va, a);
    }
  }

  lemma MapPlain(t: PT, b: nat, va: nat, p: nat, f: Flags)
    requires Inv(t) && Covers(t, b, va) && va % Span(t.lvl[b]) == 0 && !IsTable(t, b, Idx(va, t.lvl[b]))
    requires LeafAddress(p, t.lvl[b]) && (t.lvl[b] == 0 || t.c.mappable(f))
    ensures b in t.mem && |t.mem[b]| == ENTRIES
    ensures var t1 := Put(t, b, Idx(va, t.lvl[b]), t.c.leaf(p, f, t.lvl[b]));
      Inv(t1) && Remapped(t, t1, va, t.lvl[b], t.c.held(p, t.lvl[b]), t.c.norm(f))
  {
    assert GoodPage(t, b) && CodecOk(t.c);
    hide Inv, Span, Off, Idx, CodecOk;
    LeafWord(t.c, p, f, t.lvl[b]);
    var w := t.c.leaf(p, f, t.lvl[b]);
    var i := Idx(va, t.lvl[b]);
    PutInv(t, b, i, w);
    forall a: nat | a < Span(t.top + 1)
      ensures Translate(Put(t, b, i, w), a) == if InRegion(t, b, i, a) then PlainLook(t.c, w, t.lvl[b], a) else Translate(t, a)
    {
      PutLook(t, b, i, w, a);
    }
    MapView(t, Put(t, b, i, w), b, va, p, f);
  }

  /** A leaf put over a pointer to a table of pages. */
  lemma MapOverTable(t: PT, b: nat, va: nat, p: nat, f: Flags, x: nat)
    requires Inv(t) && Covers(t, b, va) && va % Span(t.lvl[b]) == 0 && t.lvl[b] == 1
    requires EntryAt(t, b, 1, Idx(va, 1)) == Table(x)
    requires LeafAddress(p, 1) && t.c.mappable(f)
    ensures b in t.mem && |t.mem[b]| == ENTRIES && x in t.lvl && x != b && x != t.root
    ensures var t1 := DropTable(t, b, Idx(va, 1), t.c.leaf(p, f, 1), x); Inv(t1) && Remapped(t, t1, va, 1, t.c.held(p, 1), t.c.norm(f))
  {
    assert GoodPage(t, b) && CodecOk(t.c) && GoodEntry(t, b, Idx(va, 1)) && GoodPage(t, x) && Hangs(t, x);
    forall j | 0 <= j < ENTRIES ensures !IsTable(t, x, j) { assert GoodEntry(t, x, j); }
    hide Inv, Span, Off, Idx, CodecOk;
    LeafWord(t.c, p, f, 1);
    var w := t.c.leaf(p, f, 1);
    var i := Idx(va, 1);
    DropInv(t, b, i, w, x);
    forall a: nat | a < Span(t.top + 1)
      ensures Translate(DropTable(t, b, i, w, x), a) == if InRegion(t, b, i, a) then PlainLook(t.c, w, 1, a) else Translate(t, a)
    {
      DropLook(t, b, i, w, x, a);
    }
    MapView(t, DropTable(t, b, i, w, x), b, va, p, f);
  }
}
