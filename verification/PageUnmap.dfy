/** Unmapping a range: which leaves go, which tables go with them, and what stays. */
module PageUnmap {
  import opened Bits
  import opened PageTable

  /** The leaf that covers `va` is recognised as one and lies wholly inside `[s, e)`. */
  predicate Gone(t: PT, va: nat, s: nat, e: nat) {
    match Translate(t, va)
    case Unmapped => false
    case Mapped(_, f, lv) => t.c.mappable(f) && s <= va - va % Span(lv) && va - va % Span(lv) + Span(lv) <= e
  }

  /** The leaves inside `[s, e)` that start below `upto` are unmapped; every other address is as before. */
  ghost predicate CutTo(t0: PT, t: PT, upto: nat, s: nat, e: nat) {
    t.top == t0.top && t.c == t0.c && forall va: nat :: va < Span(t0.top + 1) ==>
      Translate(t, va) == if va < upto && Gone(t0, va, s, e) then Unmapped else Translate(t0, va)
  }

  /** Exactly the leaves inside `[s, e)` are unmapped. */
  ghost predicate Cut(t0: PT, t: PT, s: nat, e: nat) { CutTo(t0, t, e, s, e) }

  // ---- leaves and the addresses they cover ----

  lemma StepDown(base: nat, level: nat)
    requires level <= 3 && base % Span(level + 1) == 0
    ensures base % Span(level) == 0
  {
    QuotRem(base, Span(level + 1));
    if level == 0 {
      ModUnique(base, 4096, 512 * (base / 2097152), 0);
    } else if level == 1 {
      ModUnique(base, 2097152, 512 * (base / 1073741824), 0);
    } else if level == 2 {
      ModUnique(base, 1073741824, 512 * (base / 549755813888), 0);
    } else {
      ModUnique(base, 549755813888, 512 * (base / 281474976710656), 0);
    }
  }

  lemma {:induction false} MultipleDown(base: nat, level: nat, lv: nat)
    requires lv <= level <= 3 && base % Span(level + 1) == 0
    ensures base % Span(lv) == 0
  {
    StepDown(base, level);
    if lv < level { MultipleDown(base, level - 1, lv); }
  }

  lemma Floor(va: nat, lo: nat, hi: nat, lv: nat)
    requires lv <= 3 && lo % Span(lv) == 0 && hi % Span(lv) == 0 && lo <= va < hi
    ensures lo <= va - va % Span(lv) && va - va % Span(lv) + Span(lv) <= hi
  {
    if lv == 0 { Floor0(va, lo, hi); } else if lv == 1 { Floor1(va, lo, hi); } else if lv == 2 { Floor2(va, lo, hi); } else { Floor3(va, lo, hi); }
  }

  lemma Floor0(va: nat, lo: nat, hi: nat)
    requires lo % 4096 == 0 && hi % 4096 == 0 && lo <= va < hi
    ensures lo <= va - va % 4096 && va - va % 4096 + 4096 <= hi
  {
    var k, m, q := lo / 4096, hi / 4096, va / 4096;
    assert 4096 * k <= 4096 * q + va % 4096 < 4096 * m;
  }

  lemma Floor1(va: nat, lo: nat, hi: nat)
    requires lo % 2097152 == 0 && hi % 2097152 == 0 && lo <= va < hi
    ensures lo <= va - va % 2097152 && va - va % 2097152 + 2097152 <= hi
  {
    var k, m, q := lo / 2097152, hi / 2097152, va / 2097152;
    assert 2097152 * k <= 2097152 * q + va % 2097152 < 2097152 * m;
  }

  lemma Floor2(va: nat, lo: nat, hi: nat)
    requires lo % 1073741824 == 0 && hi % 1073741824 == 0 && lo <= va < hi
    ensures lo <= va - va % 1073741824 && va - va % 1073741824 + 1073741824 <= hi
  {
    var k, m, q := lo / 1073741824, hi / 1073741824, va / 1073741824;
    assert 1073741824 * k <= 1073741824 * q + va % 1073741824 < 1073741824 * m;
  }

  lemma Floor3(va: nat, lo: nat, hi: nat)
    requires lo % 549755813888 == 0 && hi % 549755813888 == 0 && lo <= va < hi
    ensures lo <= va - va % 549755813888 && va - va % 549755813888 + 549755813888 <= hi
  {
    var k, m, q := lo / 549755813888, hi / 549755813888, va / 549755813888;
    assert 549755813888 * k <= 549755813888 * q + va % 549755813888 < 549755813888 * m;
  }

  lemma MultipleSum(a: nat, b: nat, lv: nat)
    requires lv <= 3 && a % Span(lv) == 0 && b % Span(lv) == 0
    ensures (a + b) % Span(lv) == 0
  {
    if lv == 0 { } else if lv == 1 { } else if lv == 2 { } else { }
  }

  lemma {:induction false} LookLevel(t: PT, x: nat, level: nat, va: nat)
    ensures Look(t, x, level, va).Mapped? ==> Look(t, x, level, va).level <= level
    decreases level
  {
    match EntryAt(t, x, level, Idx(va, level)) {
      case Table(y) => if level > 0 { LookLevel(t, y, level - 1, va); }
      case _ =>
    }
  }

  /** A leaf found through a table lies inside the addresses of the table. */
  lemma LeafInside(t: PT, x: nat, va: nat)
    requires Inv(t) && Covers(t, x, va) && Translate(t, va).Mapped?
    ensures var lv := Translate(t, va).level;
      lv <= 3 && t.base[x] <= va - va % Span(lv) && va - va % Span(lv) + Span(lv) <= t.base[x] + Span(t.lvl[x] + 1)
  {
    hide Inv, Span, Off, Idx, Look;
    PageOf(t, x);
    SameButSelf(t, x, 0);
    WalkThrough(t, t, x, 0, x, va);
    LookLevel(t, x, t.lvl[x], va);
    var lv := Translate(t, va).level;
    MultipleDown(t.base[x], t.lvl[x], lv);
    MultipleSelf(t.lvl[x] + 1);
    MultipleDown(Span(t.lvl[x] + 1), t.lvl[x], lv);
    MultipleSum(t.base[x], Span(t.lvl[x] + 1), lv);
    Floor(va, t.base[x], t.base[x] + Span(t.lvl[x] + 1), lv);
  }

  /** A leaf stored in entry `i` of `b` covers exactly the addresses of the entry. */
  lemma RegionExtent(t: PT, b: nat, i: nat, va: nat)
    requires Inv(t) && InRegion(t, b, i, va)
    ensures va - va % Span(t.lvl[b]) == t.base[b] + Off(i, t.lvl[b]) <= va < t.base[b] + Off(i, t.lvl[b]) + Span(t.lvl[b])
  {
    hide Inv, Span, Off, Idx;
    PageOf(t, b);
    var level := t.lvl[b];
    RegionIdx(va, t.base[b], level, i);
    RegionMultiple(t.base[b], level, i);
    var lo := t.base[b] + Off(i, level);
    MultipleSelf(level);
    MultipleSum(lo, Span(level), level);
    Floor(va, lo, lo + Span(level), level);
  }

  lemma MultipleSelf(level: nat)
    ensures Span(level) % Span(level) == 0
  {
  }

  lemma OffMultiple(i: nat, level: nat)
    requires level <= 3
    ensures Off(i, level) % Span(level) == 0
  {
    if level == 0 { } else if level == 1 { } else if level == 2 { } else { }
  }

  lemma RegionMultiple(base: nat, level: nat, i: nat)
    requires level <= 3 && base % Span(level + 1) == 0
    ensures (base + Off(i, level)) % Span(level) == 0
  {
    hide Span, Off;
    StepDown(base, level);
    OffMultiple(i, level);
    MultipleSum(base, Off(i, level), level);
  }

  // ---- one entry at a time ----

  predicate Fully(t: PT, b: nat, i: nat, s: nat, e: nat)
    requires b in t.base && b in t.lvl
  {
    s <= t.base[b] + Off(i, t.lvl[b]) && t.base[b] + Off(i, t.lvl[b]) + Span(t.lvl[b]) <= e
  }

  /** The entry is a leaf that unmapping the range removes. */
  predicate Goes(t: PT, b: nat, i: nat, s: nat, e: nat)
    requires b in t.base && b in t.lvl
  {
    EntryAt(t, b, t.lvl[b], i).Leaf? && t.c.mappable(EntryAt(t, b, t.lvl[b], i).flags) && Fully(t, b, i, s, e)
  }

  /** Whether an address of an entry that is no table pointer goes. */
  lemma PlainGone(t: PT, b: nat, i: nat, va: nat, s: nat, e: nat)
    requires Inv(t) && InRegion(t, b, i, va) && !IsTable(t, b, i)
    ensures Gone(t, va, s, e) <==> Goes(t, b, i, s, e)
  {
    hide Inv, Span, Off, Idx, Look;
    EntryLook(t, b, i, va);
    RegionExtent(t, b, i, va);
  }

  lemma GoneSame(t0: PT, t: PT, va: nat, s: nat, e: nat)
    requires Translate(t, va) == Translate(t0, va) && t.c == t0.c
    ensures Gone(t, va, s, e) == Gone(t0, va, s, e)
  {
  }

  /** The addresses of entry `i` of `b` are those from `upto` to `upto + Span`. */
  ghost predicate Next(t: PT, b: nat, i: nat, upto: nat) {
    b in t.lvl && b in t.base && i < ENTRIES && upto == t.base[b] + Off(i, t.lvl[b])
  }

  lemma NextRegion(t: PT, b: nat, i: nat, upto: nat, va: nat)
    requires Inv(t) && Next(t, b, i, upto)
    ensures InRegion(t, b, i, va) <==> upto <= va < upto + Span(t.lvl[b])
  {
    hide Inv, Span, Off, Idx;
    PageOf(t, b);
    RegionFits(t.lvl[b], i);
    if Covers(t, b, va) { RegionIdx(va, t.base[b], t.lvl[b], i); }
  }

  lemma SkipEntry(t0: PT, t: PT, b: nat, i: nat, upto: nat, s: nat, e: nat)
    requires Inv(t) && CutTo(t0, t, upto, s, e) && Next(t, b, i, upto) && !IsTable(t, b, i)
    requires !Goes(t, b, i, s, e)
    ensures CutTo(t0, t, upto + Span(t.lvl[b]), s, e)
  {
    hide Inv, Span, Off, Idx, Translate, Gone, InRegion;
    forall va: nat | va < Span(t0.top + 1) && upto <= va < upto + Span(t.lvl[b]) ensures !Gone(t0, va, s, e) {
      NextRegion(t, b, i, upto, va);
      PlainGone(t, b, i, va, s, e);
      GoneSame(t0, t, va, s, e);
    }
  }

  lemma ClearEntry(t0: PT, t: PT, b: nat, i: nat, upto: nat, s: nat, e: nat)
    requires Inv(t) && CutTo(t0, t, upto, s, e) && Next(t, b, i, upto) && Goes(t, b, i, s, e)
    ensures b in t.mem && |t.mem[b]| == ENTRIES && PlainWord(t.c, 0, t.lvl[b]) && Inv(Put(t, b, i, 0))
    ensures CutTo(t0, Put(t, b, i, 0), upto + Span(t.lvl[b]), s, e)
  {
    hide Inv, Span, Off, Idx, Translate, Gone, InRegion, CodecOk;
    ZeroWord(t, t.lvl[b]);
    PutInv(t, b, i, 0);
    forall va: nat | va < Span(t0.top + 1)
      ensures Translate(Put(t, b, i, 0), va) == if va < upto + Span(t.lvl[b]) && Gone(t0, va, s, e) then Unmapped else Translate(t0, va)
    {
      PutLook(t, b, i, 0, va);
      NextRegion(t, b, i, upto, va);
      if InRegion(t, b, i, va) {
        PlainGone(t, b, i, va, s, e);
        GoneSame(t0, t, va, s, e);
      }
    }
  }

  lemma ZeroWord(t: PT, level: nat)
    requires Inv(t)
    ensures PlainWord(t.c, 0, level) && forall va :: PlainLook(t.c, 0, level, va) == Unmapped
  {
    CodecOf(t);
  }

  function Max(a: nat, b: nat): nat { if a < b then b else a }
  function Min(a: nat, b: nat): nat { if a < b then a else b }

  /** Cutting the table below an entry to its share of the range. */
  lemma ChildCut(t0: PT, t: PT, t1: PT, b: nat, i: nat, upto: nat, s: nat, e: nat, x: nat)
    requires Inv(t) && CutTo(t0, t, upto, s, e) && Next(t, b, i, upto) && EntryAt(t, b, t.lvl[b], i) == Table(x)
    requires Cut(t, t1, Max(s, upto), Min(e, upto + Span(t.lvl[b])))
    ensures CutTo(t0, t1, upto + Span(t.lvl[b]), s, e)
  {
    hide Inv, Span, Off, Idx, Translate, Gone, InRegion, CodecOk;
    forall va: nat | va < Span(t0.top + 1)
      ensures Translate(t1, va) == if va < upto + Span(t.lvl[b]) && Gone(t0, va, s, e) then Unmapped else Translate(t0, va)
    {
      ChildCutAt(t0, t, b, i, upto, s, e, x, va);
    }
  }

  lemma ChildCutAt(t0: PT, t: PT, b: nat, i: nat, upto: nat, s: nat, e: nat, x: nat, va: nat)
    requires Inv(t) && CutTo(t0, t, upto, s, e) && Next(t, b, i, upto) && EntryAt(t, b, t.lvl[b], i) == Table(x)
    requires va < Span(t.top + 1)
    ensures var hi := Min(e, upto + Span(t.lvl[b]));
      (va < hi && Gone(t, va, Max(s, upto), hi)) == (upto <= va < upto + Span(t.lvl[b]) && Gone(t0, va, s, e))
  {
    hide Inv, Span, Off, Idx, Look, CodecOk;
    EntryOf(t, b, i);
    PageOf(t, x);
    HangsLevel(t, x);
    ChildCovers(t, x, va);
    NextRegion(t, b, i, upto, va);
    if Translate(t, va).Mapped? { GoneInside(t, va); }
    if InRegion(t, b, i, va) {
      GoneSame(t0, t, va, s, e);
      if Translate(t, va).Mapped? { LeafInside(t, x, va); }
    }
  }

  lemma GoneInside(t: PT, va: nat)
    requires Inv(t) && va < Span(t.top + 1) && Translate(t, va).Mapped?
    ensures var lv := Translate(t, va).level; va - va % Span(lv) <= va < va - va % Span(lv) + Span(lv)
  {
    hide Inv, Look;
    LookLevel(t, t.root, t.top, va);
  }

  // ---- counting pages ----

  /** The 4 KiB pages below `upto` that go. */
  ghost function GonePages(t: PT, upto: nat, s: nat, e: nat): set<nat> {
    set k: nat | k < Span(t.top + 1) && 4096 * k < upto && 4096 * k < Span(t.top + 1) && Gone(t, 4096 * k, s, e)
  }

  function Interval(a: nat, n: nat): (r: set<nat>)
    ensures forall k: nat :: k in r <==> a <= k < a + n
  {
    if n == 0 then {} else Interval(a, n - 1) + {a + n - 1}
  }

  lemma {:induction false} IntervalSize(a: nat, n: nat)
    ensures |Interval(a, n)| == n
  {
    if n > 0 { IntervalSize(a, n - 1); }
  }

  lemma NextFits(t: PT, b: nat, i: nat, upto: nat)
    requires Inv(t) && Next(t, b, i, upto)
    ensures upto + Span(t.lvl[b]) <= Span(t.top + 1) && upto % 4096 == 0 && Span(t.lvl[b]) % 4096 == 0 && t.lvl[b] <= 3
  {
    hide Inv, Span, Off, Idx;
    PageOf(t, b);
    RegionFits(t.lvl[b], i);
    RegionMultiple(t.base[b], t.lvl[b], i);
    SpanPages(t.lvl[b], upto);
  }

  lemma SpanPages(level: nat, a: nat)
    requires level <= 3 && a % Span(level) == 0
    ensures a % 4096 == 0 && Span(level) % 4096 == 0
  {
    StepTo(a, level, 0);
    MultipleSelf(level);
    StepTo(Span(level), level, 0);
  }

  lemma SkipCount(t0: PT, t: PT, b: nat, i: nat, upto: nat, s: nat, e: nat)
    requires Inv(t) && CutTo(t0, t, upto, s, e) && Next(t, b, i, upto) && !IsTable(t, b, i)
    requires !Goes(t, b, i, s, e)
    ensures GonePages(t0, upto + Span(t.lvl[b]), s, e) == GonePages(t0, upto, s, e)
  {
    hide Inv, Span, Off, Idx, Translate, Gone, InRegion;
    forall k: nat | upto <= 4096 * k < upto + Span(t.lvl[b]) && 4096 * k < Span(t0.top + 1)
      ensures !Gone(t0, 4096 * k, s, e)
    {
      NextRegion(t, b, i, upto, 4096 * k);
      PlainGone(t, b, i, 4096 * k, s, e);
      GoneSame(t0, t, 4096 * k, s, e);
    }
  }

  lemma ClearCount(t0: PT, t: PT, b: nat, i: nat, upto: nat, s: nat, e: nat)
    requires Inv(t) && CutTo(t0, t, upto, s, e) && Next(t, b, i, upto) && Goes(t, b, i, s, e)
    ensures |GonePages(t0, upto + Span(t.lvl[b]), s, e)| == |GonePages(t0, upto, s, e)| + Span(t.lvl[b]) / 4096
  {
    hide Inv, Span, Off, Idx, Translate, Gone, InRegion, Interval;
    NextFits(t, b, i, upto);
    forall k: nat | upto <= 4096 * k < upto + Span(t.lvl[b]) ensures Gone(t0, 4096 * k, s, e) {
      ClearGone(t0, t, b, i, upto, s, e, 4096 * k);
    }
    MorePages(t0, upto, Span(t.lvl[b]), s, e);
  }

  /** The pages of a range that goes entirely add to the pages below it. */
  lemma MorePages(t: PT, upto: nat, size: nat, s: nat, e: nat)
    requires upto % 4096 == 0 && size % 4096 == 0 && upto + size <= Span(t.top + 1)
    requires forall k: nat :: upto <= 4096 * k < upto + size ==> Gone(t, 4096 * k, s, e)
    ensures |GonePages(t, upto + size, s, e)| == |GonePages(t, upto, s, e)| + size / 4096
  {
    hide Span, Gone, Interval;
    var news := Interval(upto / 4096, size / 4096);
    IntervalSize(upto / 4096, size / 4096);
    forall k: nat ensures k in news <==> upto <= 4096 * k < upto + size { PageInterval(upto, size, k); }
    assert GonePages(t, upto + size, s, e) == GonePages(t, upto, s, e) + news;
    assert GonePages(t, upto, s, e) !! news;
  }

  lemma ClearGone(t0: PT, t: PT, b: nat, i: nat, upto: nat, s: nat, e: nat, va: nat)
    requires Inv(t) && CutTo(t0, t, upto, s, e) && Next(t, b, i, upto) && Goes(t, b, i, s, e)
    requires upto <= va < upto + Span(t.lvl[b])
    ensures Gone(t0, va, s, e)
  {
    hide Inv, Span, Off, Idx, Translate, Gone, InRegion, Interval;
    NextFits(t, b, i, upto);
    NextRegion(t, b, i, upto, va);
    PlainGone(t, b, i, va, s, e);
    GoneSame(t0, t, va, s, e);
  }

  lemma PageInterval(upto: nat, size: nat, k: nat)
    requires upto % 4096 == 0 && size % 4096 == 0
    ensures upto / 4096 <= k < upto / 4096 + size / 4096 <==> upto <= 4096 * k < upto + size
  {
  }

  lemma ChildCount(t0: PT, t: PT, b: nat, i: nat, upto: nat, s: nat, e: nat, x: nat)
    requires Inv(t) && CutTo(t0, t, upto, s, e) && Next(t, b, i, upto) && EntryAt(t, b, t.lvl[b], i) == Table(x)
    ensures var lo, hi := Max(s, upto), Min(e, upto + Span(t.lvl[b]));
      |GonePages(t0, upto + Span(t.lvl[b]), s, e)| == |GonePages(t0, upto, s, e)| + |GonePages(t, hi, lo, hi)|
  {
    hide Inv, Span, Off, Idx, Translate, Gone, InRegion;
    var lo, hi := Max(s, upto), Min(e, upto + Span(t.lvl[b]));
    forall k: nat | 4096 * k < Span(t.top + 1)
      ensures (4096 * k < hi && Gone(t, 4096 * k, lo, hi)) == (upto <= 4096 * k < upto + Span(t.lvl[b]) && Gone(t0, 4096 * k, s, e))
    {
      ChildCutAt(t0, t, b, i, upto, s, e, x, 4096 * k);
    }
    assert GonePages(t0, upto + Span(t.lvl[b]), s, e) == GonePages(t0, upto, s, e) + GonePages(t, hi, lo, hi);
    assert GonePages(t0, upto, s, e) !! GonePages(t, hi, lo, hi);
  }

  // ---- the tables ----

  /** `y` is `b` or a table below it. */
  predicate Within(t: PT, y: nat, b: nat) { y in t.lvl && b in t.lvl && y in t.base && t.lvl[y] <= t.lvl[b] && Covers(t,
      b, t.base[y]) }

  predicate AllZero(t: PT, y: nat) { forall j: nat :: j < ENTRIES ==> WordAt(t, y, j) == 0 }

  lemma CoversOwn(t: PT, x: nat)
    requires Inv(t) && x in t.lvl
    ensures Covers(t, x, t.base[x]) && t.base[x] < Span(t.top + 1)
  {
    PageOf(t, x);
  }

  /** Two tables of one level that cover the same address are the same. */
  lemma {:induction false} UniqueCover(t: PT, x: nat, y: nat, va: nat)
    requires Inv(t) && Covers(t, x, va) && Covers(t, y, va) && t.lvl[x] == t.lvl[y]
    ensures x == y
    decreases t.top - t.lvl[x]
  {
    hide Inv, Span, Off, Idx;
    PageOf(t, x);
    PageOf(t, y);
    CodecOf(t);
    PageOf(t, t.root);
    if x != t.root && y != t.root {
      ChildCovers(t, x, va);
      ChildCovers(t, y, va);
      UniqueCover(t, t.parent[x].0, t.parent[y].0, va);
    } else if x != t.root {
      ParentLevel(t, x);
    } else if y != t.root {
      ParentLevel(t, y);
    }
  }

  lemma ParentLevel(t: PT, x: nat)
    requires Inv(t) && x in t.lvl && x != t.root
    ensures t.lvl[x] < t.top
  {
    PageOf(t, x);
    PageOf(t, t.parent[x].0);
  }

  /** A table below `b` hangs below the entry of `b` that covers it. */
  lemma {:induction false} BelowEntry(t: PT, b: nat, y: nat, va: nat)
    requires Inv(t) && Covers(t, b, va) && Covers(t, y, va) && t.lvl[y] < t.lvl[b]
    ensures IsTable(t, b, Idx(va, t.lvl[b]))
    ensures var x := EntryAt(t, b, t.lvl[b], Idx(va, t.lvl[b])).page; Covers(t, x, va) && t.lvl[x] == t.lvl[b] - 1
    decreases t.top - t.lvl[y]
  {
    hide Inv, Span, Off, Idx, PlainWord;
    PageOf(t, y);
    PageOf(t, b);
    var (z, j) := t.parent[y];
    ChildCovers(t, y, va);
    if t.lvl[z] == t.lvl[b] {
      UniqueCover(t, z, b, va);
    } else {
      BelowEntry(t, b, z, va);
    }
  }

  lemma WithinLower(t: PT, y: nat, b: nat)
    requires Inv(t) && Within(t, y, b) && y != b
    ensures t.lvl[y] < t.lvl[b]
  {
    hide Inv, Span, Off, Idx;
    CoversOwn(t, y);
    if t.lvl[y] == t.lvl[b] { UniqueCover(t, y, b, t.base[y]); }
  }

  /** Tables only went, from below `b`; entries of `b` from `upto` on, and everything elsewhere, are as before. */
  ghost predicate Shrunk(t0: PT, f0: set<nat>, t: PT, f: set<nat>, b: nat, upto: nat) {
    && Inv(t0) && Inv(t) && t.root == t0.root && t.top == t0.top && t.c == t0.c && b in t.lvl && b in t.base
    && t.lvl.Keys <= t0.lvl.Keys && f == f0 + (t0.lvl.Keys - t.lvl.Keys)
    && (forall y :: y in t.lvl ==> t.lvl[y] == t0.lvl[y] && y in t.base && y in t0.base && t.base[y] == t0.base[y])
    && (forall y :: y in t0.lvl && !Within(t0, y, b) ==> y in t.lvl)
    && (forall y, j: nat :: j < ENTRIES && (y !in t0.lvl || !Within(t0, y, b)) ==> WordAt(t, y, j) == WordAt(t0, y, j))
    && (forall j: nat :: j < ENTRIES && upto <= t.base[b] + Off(j, t.lvl[b]) ==> WordAt(t, b, j) == WordAt(t0, b, j))
    && (forall y :: y in t0.lvl && y !in t.lvl ==> AllZero(t, y))
  }

  /** The tables below `b` that start before `upto` and share an address with the range are not empty. */
  ghost predicate Tidy(t: PT, b: nat, upto: nat, s: nat, e: nat) {
    forall y :: y in t.lvl && y != b && Within(t, y, b) && t.base[y] < upto && t.base[y] < e && s < t.base[y] + Span(t.lvl[y] + 1) ==> !AllZero(t, y)
  }

  /** Every table that went covers part of the range. */
  ghost predicate FreedIn(t0: PT, t: PT, s: nat, e: nat) {
    forall y :: y in t0.lvl && y !in t.lvl ==> y in t0.base && t0.base[y] < e && s < t0.base[y] + Span(t0.lvl[y] + 1)
  }

  lemma FreedRefl(t0: PT, t: PT, s: nat, e: nat)
    requires t.lvl == t0.lvl
    ensures FreedIn(t0, t, s, e)
  {
  }

  lemma FreedSame(t0: PT, t: PT, t1: PT, s: nat, e: nat)
    requires FreedIn(t0, t, s, e) && t1.lvl == t.lvl
    ensures FreedIn(t0, t1, s, e)
  {
  }

  lemma FreedChild(t0: PT, f0: set<nat>, t: PT, f: set<nat>, t1: PT, b: nat, upto: nat, s: nat, e: nat, lo: nat, hi: nat)
    requires Shrunk(t0, f0, t, f, b, upto) && FreedIn(t0, t, s, e) && FreedIn(t, t1, lo, hi) && s <= lo && hi <= e
    ensures FreedIn(t0, t1, s, e)
  {
    hide Inv, Span;
  }

  lemma FreedDrop(t0: PT, f0: set<nat>, t: PT, f: set<nat>, t1: PT, f1: set<nat>, t2: PT, b: nat, upto: nat, s: nat,
      e: nat, x: nat, z: nat)
    requires Shrunk(t0, f0, t1, f1, b, upto) && FreedIn(t0, t1, s, e) && Shrunk(t, f, t1, f1, x, z)
    requires t2.lvl == t1.lvl - {x} && x in t.lvl && x in t.base
    requires t.base[x] < e && s < t.base[x] + Span(t.lvl[x] + 1)
    ensures FreedIn(t0, t2, s, e)
  {
    hide Inv, Span;
  }

  lemma ShrunkRefl(t: PT, f: set<nat>, b: nat, upto: nat)
    requires Inv(t) && b in t.lvl
    ensures Shrunk(t, f, t, f, b, upto)
  {
    PageOf(t, b);
    forall y | y in t.lvl ensures y in t.base { PageOf(t, y); }
  }

  lemma ShrunkMore(t0: PT, f0: set<nat>, t: PT, f: set<nat>, b: nat, upto: nat, upto': nat)
    requires Shrunk(t0, f0, t, f, b, upto) && upto <= upto'
    ensures Shrunk(t0, f0, t, f, b, upto')
  {
    hide Inv, Within, AllZero, WordAt;
  }

  /** No table lies below an entry that is no table pointer. */
  lemma SkipTidy(t: PT, b: nat, i: nat, upto: nat, s: nat, e: nat)
    requires Inv(t) && Tidy(t, b, upto, s, e) && Next(t, b, i, upto) && !IsTable(t, b, i)
    ensures Tidy(t, b, upto + Span(t.lvl[b]), s, e)
  {
    hide Inv, Span, Off, Idx, AllZero;
    forall y | y in t.lvl && y != b && Within(t, y, b) && t.base[y] < upto + Span(t.lvl[b]) ensures t.base[y] < upto {
      WithinLower(t, y, b);
      CoversOwn(t, y);
      BelowEntry(t, b, y, t.base[y]);
      NextRegion(t, b, i, upto, t.base[y]);
    }
  }

  lemma AllZeroSame(t: PT, t1: PT, y: nat)
    requires forall j: nat :: j < ENTRIES ==> WordAt(t1, y, j) == WordAt(t, y, j)
    ensures AllZero(t1, y) == AllZero(t, y)
  {
    hide WordAt;
  }

  lemma ClearShrunk(t0: PT, f0: set<nat>, t: PT, f: set<nat>, b: nat, i: nat, upto: nat)
    requires Shrunk(t0, f0, t, f, b, upto) && Next(t, b, i, upto) && !IsTable(t, b, i) && PlainWord(t.c, 0, t.lvl[b])
    ensures b in t.mem && |t.mem[b]| == ENTRIES && Inv(Put(t, b, i, 0))
    ensures Shrunk(t0, f0, Put(t, b, i, 0), f, b, upto + Span(t.lvl[b]))
  {
    hide Inv, Span, Off, Idx, PlainWord;
    PutInv(t, b, i, 0);
    CoversOwn(t, b);
    var t1 := Put(t, b, i, 0);
    forall y, j: nat | j < ENTRIES && y != b ensures WordAt(t1, y, j) == WordAt(t, y, j) { PutWord(t, b, i, 0, y, j); }
    forall j: nat | j < ENTRIES && upto + Span(t.lvl[b]) <= t.base[b] + Off(j, t.lvl[b])
      ensures WordAt(t1, b, j) == WordAt(t, b, j)
    {
      PutWord(t, b, i, 0, b, j);
      SpanPositive(t.lvl[b]);
    }
    forall y | y in t0.lvl && y !in t.lvl ensures AllZero(t1, y) { AllZeroSame(t, t1, y); }
  }

  lemma SpanPositive(level: nat)
    ensures Span(level) > 0
  {
  }

  // ---- the table below an entry ----

  lemma ChildFacts(t: PT, b: nat, i: nat, upto: nat, x: nat)
    requires Inv(t) && Next(t, b, i, upto) && EntryAt(t, b, t.lvl[b], i) == Table(x)
    ensures x in t.lvl && x in t.base && x != b && x != t.root && t.lvl[b] >= 1 && t.lvl[x] == t.lvl[b] - 1
    ensures t.base[x] == upto
  {
    hide Inv, Span, Off, Idx, PlainWord;
    EntryOf(t, b, i);
    PageOf(t, x);
  }

  /** Below the child is below `b`. */
  lemma WithinChild(t: PT, b: nat, i: nat, upto: nat, x: nat, y: nat)
    requires Inv(t) && Next(t, b, i, upto) && EntryAt(t, b, t.lvl[b], i) == Table(x) && Within(t, y, x)
    ensures Within(t, y, b) && upto <= t.base[y] < upto + Span(t.lvl[b])
  {
    hide Inv, Span, Off, Idx, PlainWord;
    ChildFacts(t, b, i, upto, x);
    PageOf(t, x);
    EntryOf(t, b, i);
    ChildCovers(t, x, t.base[y]);
  }

  lemma ChildStays(t0: PT, f0: set<nat>, t: PT, f: set<nat>, t1: PT, f1: set<nat>, b: nat, i: nat, upto: nat, x: nat,
      y: nat)
    requires Shrunk(t0, f0, t, f, b, upto) && Next(t, b, i, upto) && EntryAt(t, b, t.lvl[b], i) == Table(x)
    requires !(y in t0.lvl && Within(t0, y, b)) || y == b
    ensures y !in t.lvl || !Within(t, y, x)
  {
    hide Inv, Span, Off, Idx, PlainWord, AllZero, WordAt;
    ChildFacts(t, b, i, upto, x);
    if Within(t, y, x) { WithinChild(t, b, i, upto, x, y); }
  }

  lemma ChildShrunk(t0: PT, f0: set<nat>, t: PT, f: set<nat>, t1: PT, f1: set<nat>, b: nat, i: nat, upto: nat, x: nat,
      z: nat)
    requires Shrunk(t0, f0, t, f, b, upto) && Next(t, b, i, upto) && EntryAt(t, b, t.lvl[b], i) == Table(x)
    requires Shrunk(t, f, t1, f1, x, z)
    ensures Shrunk(t0, f0, t1, f1, b, upto + Span(t.lvl[b]))
    ensures (forall j: nat :: j < ENTRIES ==> WordAt(t1, b, j) == WordAt(t, b, j))
  {
    hide Inv, Span, Off, Idx, PlainWord, WordAt, AllZero, Within;
    ChildStays(t0, f0, t, f, t1, f1, b, i, upto, x, b);
    forall y | !(y in t0.lvl && Within(t0, y, b)) ensures y !in t.lvl || !Within(t, y, x) {
      ChildStays(t0, f0, t, f, t1, f1, b, i, upto, x, y);
    }
    forall y | y in t0.lvl && y !in t1.lvl ensures AllZero(t1, y) {
      if y !in t.lvl { AllZeroSame(t, t1, y); }
    }
  }

  /** Tables in the region of the entry are below the child. */
  lemma ChildTidyAt(t: PT, f: set<nat>, t1: PT, f1: set<nat>, b: nat, i: nat, upto: nat, s: nat, e: nat, x: nat, z: nat,
      y: nat)
    requires Inv(t) && Tidy(t, b, upto, s, e) && Next(t, b, i, upto) && EntryAt(t, b, t.lvl[b], i) == Table(x)
    requires Shrunk(t, f, t1, f1, x, z) && b in t1.lvl && b in t1.base
    requires (forall j: nat :: j < ENTRIES ==> WordAt(t1, b, j) == WordAt(t, b, j))
    requires Tidy(t1, x, Min(e, upto + Span(t.lvl[b])), Max(s, upto), Min(e, upto + Span(t.lvl[b])))
    requires y in t1.lvl && y != b && Within(t1, y, b) && t1.base[y] < upto + Span(t.lvl[b]) && t1.base[y] < e
    requires s < t1.base[y] + Span(t1.lvl[y] + 1)
    ensures y == x || !AllZero(t1, y)
  {
    hide Inv, Span, Off, Idx, PlainWord, WordAt, AllZero;
    ChildFacts(t, b, i, upto, x);
    CoversOwn(t1, y);
    if t1.base[y] < upto {
      if Within(t, y, x) { WithinChild(t, b, i, upto, x, y); }
      AllZeroSame(t, t1, y);
    } else {
      WithinLower(t1, y, b);
      BelowEntry(t1, b, y, t1.base[y]);
      NextRegion(t1, b, i, upto, t1.base[y]);
      SpanPositive(t1.lvl[y] + 1);
    }
  }

  lemma KeepTidy(t: PT, f: set<nat>, t1: PT, f1: set<nat>, b: nat, i: nat, upto: nat, s: nat, e: nat, x: nat, z: nat)
    requires Inv(t) && Tidy(t, b, upto, s, e) && Next(t, b, i, upto) && EntryAt(t, b, t.lvl[b], i) == Table(x)
    requires Shrunk(t, f, t1, f1, x, z) && b in t1.lvl && b in t1.base
    requires (forall j: nat :: j < ENTRIES ==> WordAt(t1, b, j) == WordAt(t, b, j))
    requires Tidy(t1, x, Min(e, upto + Span(t.lvl[b])), Max(s, upto), Min(e, upto + Span(t.lvl[b]))) && !AllZero(t1, x)
    ensures Tidy(t1, b, upto + Span(t.lvl[b]), s, e)
  {
    hide Inv, Span, Off, Idx, PlainWord, WordAt, AllZero, Shrunk;
    forall y | y in t1.lvl && y != b && Within(t1, y, b) && t1.base[y] < upto + Span(t.lvl[b]) && t1.base[y] < e && s < t1.base[y] + Span(t1.lvl[y] + 1)
      ensures !AllZero(t1, y)
    {
      ChildTidyAt(t, f, t1, f1, b, i, upto, s, e, x, z, y);
    }
  }

  // ---- dropping an empty child ----

  lemma EmptyLast(t: PT, b: nat, i: nat, x: nat)
    requires Inv(t) && b in t.lvl && i < ENTRIES && EntryAt(t, b, t.lvl[b], i) == Table(x) && AllZero(t, x)
    ensures LastTable(t, b, i, 0, x)
  {
    CodecOf(t);
    PageOf(t, b);
    hide Inv, CodecOk, Span, Off;
    forall j | 0 <= j < ENTRIES ensures !IsTable(t, x, j) { assert WordAt(t, x, j) == 0; }
  }

  lemma DropCut(t0: PT, t: PT, b: nat, i: nat, x: nat, upto: nat, s: nat, e: nat)
    requires Inv(t) && CutTo(t0, t, upto, s, e) && b in t.lvl && i < ENTRIES && EntryAt(t, b, t.lvl[b], i) == Table(x)
    requires AllZero(t, x)
    ensures LastTable(t, b, i, 0, x) && Inv(DropTable(t, b, i, 0, x)) && CutTo(t0, DropTable(t, b, i, 0, x), upto, s, e)
  {
    hide Inv, Span, Off, Idx, PlainWord, WordAt, AllZero, Translate, Gone, InRegion, CodecOk;
    EmptyLast(t, b, i, x);
    DropInv(t, b, i, 0, x);
    forall va: nat | va < Span(t.top + 1) ensures Translate(DropTable(t, b, i, 0, x), va) == Translate(t, va) {
      DropLook(t, b, i, 0, x, va);
      if InRegion(t, b, i, va) { EmptyLook(t, b, i, x, va); ZeroWord(t, t.lvl[b]); }
    }
  }

  /** Below an empty table nothing is mapped. */
  lemma EmptyLook(t: PT, b: nat, i: nat, x: nat, va: nat)
    requires Inv(t) && InRegion(t, b, i, va) && i < ENTRIES && EntryAt(t, b, t.lvl[b], i) == Table(x) && AllZero(t, x)
    ensures Translate(t, va) == Unmapped
  {
    CodecOf(t);
    hide Inv, Span, Off, Idx, PlainWord, CodecOk, WordAt;
    EntryOf(t, b, i);
    PageOf(t, x);
    ChildCovers(t, x, va);
    SameButSelf(t, x, 0);
    WalkThrough(t, t, x, 0, x, va);
    assert WordAt(t, x, Idx(va, t.lvl[x])) == 0;
  }

  lemma DropShrunk(t0: PT, f0: set<nat>, t: PT, f: set<nat>, b: nat, i: nat, x: nat, upto: nat, upto': nat)
    requires Shrunk(t0, f0, t, f, b, upto') && Next(t, b, i, upto) && EntryAt(t, b, t.lvl[b], i) == Table(x)
    requires AllZero(t, x)
    requires upto < upto' && LastTable(t, b, i, 0, x) && Inv(DropTable(t, b, i, 0, x))
    ensures Shrunk(t0, f0, DropTable(t, b, i, 0, x), f + {x}, b, upto')
  {
    hide Inv, Span, Off, Idx, PlainWord, AllZero, LastTable;
    ChildFacts(t, b, i, upto, x);
    WithinBoth(t, b, i, upto, x);
    LastIn(t, b, i, x);
    var t1 := DropTable(t, b, i, 0, x);
    forall y, j: nat | j < ENTRIES && (y != b || j != i) ensures WordAt(t1, y, j) == WordAt(t, y, j) { PutWord(t, b, i, 0, y, j); }
    forall y | y in t0.lvl && y !in t1.lvl ensures AllZero(t1, y) { AllZeroSame(t, t1, y); }
    hide WordAt;
  }

  lemma LastIn(t: PT, b: nat, i: nat, x: nat)
    requires LastTable(t, b, i, 0, x)
    ensures b in t.mem && |t.mem[b]| == ENTRIES && i < ENTRIES
  {
  }

  lemma WithinBoth(t: PT, b: nat, i: nat, upto: nat, x: nat)
    requires Inv(t) && Next(t, b, i, upto) && EntryAt(t, b, t.lvl[b], i) == Table(x)
    ensures Within(t, x, b) && Within(t, b, b)
  {
    hide Inv, Span, Off, Idx, PlainWord;
    ChildFacts(t, b, i, upto, x);
    CoversOwn(t, x);
    CoversOwn(t, b);
    WithinChild(t, b, i, upto, x, x);
  }

  lemma DropTidy(t: PT, f: set<nat>, t1: PT, f1: set<nat>, b: nat, i: nat, upto: nat, s: nat, e: nat, x: nat, z: nat)
    requires Inv(t) && Tidy(t, b, upto, s, e) && Next(t, b, i, upto) && EntryAt(t, b, t.lvl[b], i) == Table(x)
    requires Shrunk(t, f, t1, f1, x, z) && b in t1.lvl && b in t1.base
    requires (forall j: nat :: j < ENTRIES ==> WordAt(t1, b, j) == WordAt(t, b, j))
    requires Tidy(t1, x, Min(e, upto + Span(t.lvl[b])), Max(s, upto), Min(e, upto + Span(t.lvl[b])))
    requires LastTable(t1, b, i, 0, x)
    ensures Tidy(DropTable(t1, b, i, 0, x), b, upto + Span(t.lvl[b]), s, e)
  {
    hide Inv, Span, Off, Idx, PlainWord, AllZero, Shrunk, WordAt;
    LastIn(t1, b, i, x);
    var t2 := DropTable(t1, b, i, 0, x);
    forall y | y in t2.lvl && y != b && Within(t2, y, b) && t2.base[y] < upto + Span(t.lvl[b]) && t2.base[y] < e && s < t2.base[y] + Span(t2.lvl[y] + 1)
      ensures !AllZero(t2, y)
    {
      ChildTidyAt(t, f, t1, f1, b, i, upto, s, e, x, z, y);
      forall j: nat | j < ENTRIES ensures WordAt(t2, y, j) == WordAt(t1, y, j) { PutWord(t1, b, i, 0, y, j); DropWord(t1, b, i, x, y, j); }
      AllZeroSame(t1, t2, y);
    }
  }

  lemma DropWord(t: PT, b: nat, i: nat, x: nat, y: nat, j: nat)
    requires b in t.mem && i < |t.mem[b]|
    ensures WordAt(DropTable(t, b, i, 0, x), y, j) == WordAt(Put(t, b, i, 0), y, j)
  {
  }

  // ---- where the loop starts and ends ----

  lemma {:induction false} OffMono(i: nat, j: nat, level: nat)
    requires i < j && level <= 3
    ensures Off(i, level) + Span(level) <= Off(j, level) && Off(i + 1, level) == Off(i, level) + Span(level)
  {
    if level == 0 { } else if level == 1 { } else if level == 2 { } else { }
  }

  /** Between the first and the last entry of a range, every entry shares an address with it. */
  lemma RangeEntry(t: PT, b: nat, s: nat, e: nat, i: nat)
    requires Inv(t) && b in t.lvl && t.base[b] <= s < e <= t.base[b] + Span(t.lvl[b] + 1)
    requires Idx(s, t.lvl[b]) <= i <= Idx(e - 1, t.lvl[b])
    ensures t.base[b] + Off(i, t.lvl[b]) < e && s < t.base[b] + Off(i, t.lvl[b]) + Span(t.lvl[b])
  {
    hide Inv, Span, Off, Idx;
    PageOf(t, b);
    var level := t.lvl[b];
    RegionIdx(s, t.base[b], level, Idx(s, level));
    RegionIdx(e - 1, t.base[b], level, Idx(e - 1, level));
    if Idx(s, level) < i { OffMono(Idx(s, level), i, level); }
    if i < Idx(e - 1, level) { OffMono(i, Idx(e - 1, level), level); }
  }

  lemma RangeEnds(t: PT, b: nat, s: nat, e: nat)
    requires Inv(t) && b in t.lvl && t.base[b] <= s < e <= t.base[b] + Span(t.lvl[b] + 1)
    ensures Idx(s, t.lvl[b]) <= Idx(e - 1, t.lvl[b])
    ensures t.base[b] + Off(Idx(s, t.lvl[b]), t.lvl[b]) <= s
    ensures e <= t.base[b] + Off(Idx(e - 1, t.lvl[b]) + 1, t.lvl[b]) <= t.base[b] + Span(t.lvl[b] + 1)
  {
    hide Inv, Span, Off, Idx;
    PageOf(t, b);
    var level := t.lvl[b];
    RegionIdx(s, t.base[b], level, Idx(s, level));
    RegionIdx(e - 1, t.base[b], level, Idx(e - 1, level));
    OffMono(Idx(e - 1, level), Idx(e - 1, level) + 1, level);
    RegionFits(level, Idx(e - 1, level));
    if Idx(e - 1, level) < Idx(s, level) { OffMono(Idx(e - 1, level), Idx(s, level), level); }
  }

  lemma CutStart(t: PT, upto: nat, s: nat, e: nat)
    requires upto <= s
    ensures CutTo(t, t, upto, s, e) && GonePages(t, upto, s, e) == {}
  {
    forall va: nat | va < upto ensures !Gone(t, va, s, e) { }
  }

  lemma CutEnd(t0: PT, t: PT, upto: nat, s: nat, e: nat)
    requires Inv(t0) && CutTo(t0, t, upto, s, e) && e <= upto
    ensures Cut(t0, t, s, e) && GonePages(t0, upto, s, e) == GonePages(t0, e, s, e)
  {
    hide Inv, Translate, Span;
    forall va: nat | va < Span(t0.top + 1) && Gone(t0, va, s, e) ensures va < e { GoneInside(t0, va); }
  }

  lemma TidyStart(t: PT, b: nat, i: nat, upto: nat, s: nat, e: nat)
    requires Inv(t) && Next(t, b, i, upto) && upto <= s
    ensures Tidy(t, b, upto, s, e)
  {
    hide Inv, Span, Off, Idx, AllZero;
    PageOf(t, b);
    forall y | y in t.lvl && y != b && Within(t, y, b) && t.base[y] < upto
      ensures t.base[y] + Span(t.lvl[y] + 1) <= upto
    {
      WithinLower(t, y, b);
      PageOf(t, y);
      RegionMultiple(t.base[b], t.lvl[b], i);
      StepTo(upto, t.lvl[b], t.lvl[y] + 1);
      ZeroMultiple(t.lvl[y] + 1);
      Floor(t.base[y], 0, upto, t.lvl[y] + 1);
    }
  }

  lemma ZeroMultiple(level: nat)
    ensures 0 % Span(level) == 0
  {
  }

  lemma {:induction false} StepTo(a: nat, level: nat, lv: nat)
    requires lv <= level <= 3 && a % Span(level) == 0
    ensures a % Span(lv) == 0
  {
    if lv < level {
      StepDown(a, level - 1);
      StepTo(a, level - 1, lv);
    }
  }

  lemma TidyEnd(t: PT, b: nat, upto: nat, s: nat, e: nat)
    requires Tidy(t, b, upto, s, e) && e <= upto
    ensures Tidy(t, b, e, s, e)
  {
    hide Within, AllZero, Span;
  }

  /** Page-aligned ranges contain the 4 KiB entries they touch. */
  lemma PageFully(t: PT, b: nat, i: nat, s: nat, e: nat)
    requires Inv(t) && b in t.lvl && t.lvl[b] == 0 && s % 4096 == 0 && e % 4096 == 0
    requires t.base[b] + Off(i, 0) < e && s < t.base[b] + Off(i, 0) + Span(0)
    ensures Fully(t, b, i, s, e)
  {
    hide Inv;
    PageOf(t, b);
    RegionMultiple(t.base[b], 0, i);
    AlignedPage(t.base[b] + Off(i, 0), s, e);
  }

  lemma AlignedPage(a: nat, s: nat, e: nat)
    requires a % 4096 == 0 && s % 4096 == 0 && e % 4096 == 0 && a < e && s < a + 4096
    ensures s <= a && a + 4096 <= e
  {
  }
}
