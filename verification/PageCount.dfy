/** How many frames page tables need.  A table is known by its place, the level and the first address it
    covers; tables are taken from the frame pool and given back to it, so frames are conserved. */
module PageCount {
  import opened PageTable
  import opened PageUnmap

  type Place = (nat, nat)

  /** The place of the table of level `l` that covers `va`. */
  function PlaceFor(l: nat, va: nat): Place { (l, va - va % Span(l + 1)) }

  ghost function Places(t: PT): set<Place> { set b | b in t.lvl && b in t.base :: (t.lvl[b], t.base[b]) }

  /** The places of all tables on the way to 4 KiB pages at these addresses. */
  ghost function Ways(top: nat, vas: set<nat>): set<Place> {
    set va, l | va in vas && 0 <= l <= top :: PlaceFor(l, va)
  }

  /** The places on the way to `va` down to level `target`. */
  ghost function WayTo(top: nat, va: nat, target: nat): set<Place> {
    set l | target <= l <= top :: PlaceFor(l, va)
  }

  lemma WayAll(top: nat, va: nat)
    ensures WayTo(top, va, 0) == Ways(top, {va})
  {
    hide PlaceFor;
  }

  /** How many tables these pages still need. */
  ghost function Missing(t: PT, vas: set<nat>): nat { |Ways(t.top, vas) - Places(t)| }

  /** The tables are others at `ways` only, and every frame that was a table or free still is. */
  ghost predicate Shifted(t0: PT, f0: set<nat>, t: PT, f: set<nat>, ways: set<Place>) {
    t.top == t0.top && f + t.lvl.Keys == f0 + t0.lvl.Keys && Places(t) + ways == Places(t0) + ways
  }

  /** There is a table at every place on the way down to level `l`. */
  ghost predicate Reached(t: PT, l: nat, va: nat) { forall k :: l <= k <= t.top ==> PlaceFor(k, va) in Places(t) }

  lemma RootPlace(t: PT)
    requires t.lvl == map[t.root := t.top] && t.base == map[t.root := 0]
    ensures Places(t) == {(t.top, 0)}
  {
    assert (t.lvl[t.root], t.base[t.root]) in Places(t);
  }

  lemma PlaceHere(t: PT, b: nat, va: nat)
    requires Inv(t) && Covers(t, b, va)
    ensures PlaceFor(t.lvl[b], va) in Places(t) && (t.lvl[b], t.base[b]) == PlaceFor(t.lvl[b], va)
  {
    PageOf(t, b);
    BaseIs(t.base[b], va, t.lvl[b]);
  }

  lemma BaseIs(base: nat, va: nat, l: nat)
    requires l <= 3 && base % Span(l + 1) == 0 && base <= va < base + Span(l + 1)
    ensures base == va - va % Span(l + 1)
  {
  }

  /** A place taken is taken by a table that covers the address. */
  lemma PlaceTaken(t: PT, l: nat, va: nat) returns (b: nat)
    requires Inv(t) && PlaceFor(l, va) in Places(t)
    ensures Covers(t, b, va) && t.lvl[b] == l
  {
    b :| b in t.lvl && b in t.base && (t.lvl[b], t.base[b]) == PlaceFor(l, va);
    PageOf(t, b);
  }

  // ---- counting ----

  lemma OnePlace(t: PT, x: nat, y: nat)
    requires Inv(t) && x in t.lvl && y in t.lvl && x in t.base && y in t.base
    requires (t.lvl[x], t.base[x]) == (t.lvl[y], t.base[y])
    ensures x == y
  {
    hide Inv;
    CoversOwn(t, x);
    CoversOwn(t, y);
    UniqueCover(t, x, y, t.base[x]);
  }

  lemma CountPlaces(t: PT)
    requires Inv(t)
    ensures |Places(t)| == |t.lvl.Keys|
  {
    forall x | x in t.lvl.Keys ensures x in t.base { PageOf(t, x); }
    forall x, y | x in t.lvl.Keys && y in t.lvl.Keys && (t.lvl[x], t.base[x]) == (t.lvl[y], t.base[y]) ensures x == y {
      OnePlace(t, x, y);
    }
    hide Inv;
    CountImage(t.lvl.Keys, t.lvl, t.base);
    assert Places(t) == set b | b in t.lvl.Keys :: (t.lvl[b], t.base[b]);
  }

  lemma {:induction false} CountImage(s: set<nat>, lvl: map<nat, nat>, base: map<nat, nat>)
    requires s <= lvl.Keys && s <= base.Keys
    requires forall x, y :: x in s && y in s && (lvl[x], base[x]) == (lvl[y], base[y]) ==> x == y
    ensures |set b | b in s :: (lvl[b], base[b])| == |s|
    decreases s
  {
    var image := set b | b in s :: (lvl[b], base[b]);
    if s == {} {
      assert image == {};
    } else {
      var x :| x in s;
      CountImage(s - {x}, lvl, base);
      assert image == (set b | b in s - {x} :: (lvl[b], base[b])) + {(lvl[x], base[x])};
    }
  }

  /** Frames are conserved. */
  lemma Conserved(t0: PT, f0: set<nat>, t: PT, f: set<nat>, ways: set<Place>)
    requires Inv(t0) && Inv(t) && Shifted(t0, f0, t, f, ways) && f0 !! t0.lvl.Keys && f !! t.lvl.Keys
    ensures |f| + |Places(t)| == |f0| + |Places(t0)|
  {
    CountPlaces(t0);
    CountPlaces(t);
    hide Inv;
    assert |f + t.lvl.Keys| == |f| + |t.lvl.Keys| && |f0 + t0.lvl.Keys| == |f0| + |t0.lvl.Keys|;
  }

  /** Whether `n` frames are enough for the missing places does not depend on which of them were filled before. */
  lemma FitsSame(p0: set<Place>, n0: nat, p: set<Place>, n: nat, ways: set<Place>)
    requires n + |p| == n0 + |p0| && p + ways == p0 + ways
    ensures |ways - p| - n == |ways - p0| - n0
  {
    assert p + ways == p + (ways - p) && p0 + ways == p0 + (ways - p0);
    assert |p + (ways - p)| == |p| + |ways - p| && |p0 + (ways - p0)| == |p0| + |ways - p0|;
  }

  lemma Smaller(a: set<Place>, b: set<Place>)
    requires a <= b
    ensures |a| <= |b| && (|a| == |b| ==> a == b)
  {
    assert b == a + (b - a);
  }

  lemma SomeLeft(ways: set<Place>, p: set<Place>)
    ensures |ways - p| == 0 <==> ways <= p
  {
    if ways <= p {
      assert ways - p == {};
    } else {
      var x :| x in ways && x !in p;
      assert x in ways - p;
    }
  }

  /** A walk that filled its way had enough frames; one that stopped with none left had too few. */
  lemma Enough(t0: PT, f0: set<nat>, t: PT, f: set<nat>, ways: set<Place>)
    requires Inv(t0) && Inv(t) && Shifted(t0, f0, t, f, ways) && f0 !! t0.lvl.Keys && f !! t.lvl.Keys
    ensures ways <= Places(t) ==> |ways - Places(t0)| <= |f0|
    ensures f == {} && !(ways <= Places(t)) ==> |ways - Places(t0)| > |f0|
  {
    hide Inv, Places;
    Conserved(t0, f0, t, f, ways);
    FitsSame(Places(t0), |f0|, Places(t), |f|, ways);
    SomeLeft(ways, Places(t));
  }

  // ---- steps ----

  /** Tables were only added, on the way to `va`. */
  ghost predicate Walked(t0: PT, f0: set<nat>, t: PT, f: set<nat>, va: nat) {
    Shifted(t0, f0, t, f, Ways(t0.top, {va})) && Places(t0) <= Places(t)
  }

  /** And `va` has all its tables. */
  ghost predicate Reaches(t0: PT, f0: set<nat>, t: PT, f: set<nat>, va: nat) {
    Walked(t0, f0, t, f, va) && Ways(t0.top, {va}) <= Places(t)
  }

  /** The same down to level `target`. */
  ghost predicate WalkedTo(t0: PT, f0: set<nat>, t: PT, f: set<nat>, va: nat, target: nat) {
    Shifted(t0, f0, t, f, WayTo(t0.top, va, target)) && Places(t0) <= Places(t)
  }

  /** A walk takes frames and gives none back. */
  lemma WalkedTakes(t0: PT, f0: set<nat>, t: PT, f: set<nat>, va: nat)
    requires Inv(t0) && Inv(t) && Walked(t0, f0, t, f, va) && f0 !! t0.lvl.Keys && f !! t.lvl.Keys
    ensures f0 == {} ==> f == {}
  {
    Conserved(t0, f0, t, f, Ways(t0.top, {va}));
    hide Inv, Ways;
    Smaller(Places(t0), Places(t));
  }

  lemma WalkedRefl(t: PT, f: set<nat>, va: nat, target: nat)
    ensures WalkedTo(t, f, t, f, va, target)
  {
  }

  lemma WalkedTrans(t0: PT, f0: set<nat>, t1: PT, f1: set<nat>, t: PT, f: set<nat>, va: nat, target: nat)
    requires WalkedTo(t0, f0, t1, f1, va, target) && WalkedTo(t1, f1, t, f, va, target)
    ensures WalkedTo(t0, f0, t, f, va, target)
  {
    hide Places, WayTo;
  }

  lemma WalkedAll(t0: PT, f0: set<nat>, t: PT, f: set<nat>, va: nat)
    requires WalkedTo(t0, f0, t, f, va, 0)
    ensures Walked(t0, f0, t, f, va)
  {
    hide Places, PlaceFor, WayTo, Ways;
    WayAll(t0.top, va);
  }

  lemma ReachesWalked(t0: PT, f0: set<nat>, t: PT, f: set<nat>, va: nat)
    requires Reaches(t0, f0, t, f, va)
    ensures Walked(t0, f0, t, f, va)
  {
  }

  lemma ReachedRoot(t: PT, va: nat)
    requires Inv(t) && va < Span(t.top + 1)
    ensures Reached(t, t.top, va)
  {
    assert GoodPage(t, t.root);
    PlaceHere(t, t.root, va);
  }

  lemma ReachedNext(t0: PT, f0: set<nat>, t: PT, f: set<nat>, l: nat, va: nat, b: nat, target: nat)
    requires Inv(t) && Reached(t0, l + 1, va) && WalkedTo(t0, f0, t, f, va, target) && Covers(t, b, va) && t.lvl[b] == l
    ensures Reached(t, l, va)
  {
    hide Inv, Places, PlaceFor, WayTo;
    PlaceHere(t, b, va);
  }

  lemma ReachedWay(t: PT, va: nat, target: nat)
    requires Reached(t, target, va)
    ensures WayTo(t.top, va, target) <= Places(t)
  {
    hide Places, PlaceFor;
  }

  /** A walk that stops with no frame left had fewer frames than tables were missing. */
  lemma WalkFails(t0: PT, f0: set<nat>, t: PT, f: set<nat>, va: nat, l: nat, target: nat)
    requires Inv(t0) && Inv(t) && WalkedTo(t0, f0, t, f, va, target) && f0 !! t0.lvl.Keys && f !! t.lvl.Keys
    requires target <= l <= t.top && f == {} && PlaceFor(l, va) !in Places(t)
    ensures |WayTo(t0.top, va, target) - Places(t0)| > |f0|
  {
    hide Inv, Places, PlaceFor, Reached;
    assert PlaceFor(l, va) in WayTo(t0.top, va, target);
    hide WayTo;
    Enough(t0, f0, t, f, WayTo(t0.top, va, target));
  }

  /** A walk that reaches its level had enough. */
  lemma WalkReaches(t0: PT, f0: set<nat>, t: PT, f: set<nat>, va: nat, target: nat)
    requires Inv(t0) && Inv(t) && WalkedTo(t0, f0, t, f, va, target) && f0 !! t0.lvl.Keys && f !! t.lvl.Keys
    requires Reached(t, target, va)
    ensures |WayTo(t0.top, va, target) - Places(t0)| <= |f0|
  {
    hide Inv, Places, PlaceFor, WayTo, Reached;
    Enough(t0, f0, t, f, WayTo(t0.top, va, target));
    ReachedWay(t, va, target);
  }

  /** Writing the entry of a page changes no table. */
  lemma WalkEnds(t0: PT, f0: set<nat>, t: PT, f: set<nat>, t1: PT, va: nat)
    requires WalkedTo(t0, f0, t, f, va, 0) && Reached(t, 0, va) && t1.lvl == t.lvl && t1.base == t.base && t1.top == t.top
    ensures Reaches(t0, f0, t1, f, va)
  {
    hide Places, PlaceFor, WayTo, Ways, Reached;
    PlacesSame(t, t1);
    ReachedWay(t, va, 0);
    WayAll(t0.top, va);
  }

  lemma PlacesSame(t: PT, t1: PT)
    requires t1.lvl == t.lvl && t1.base == t.base
    ensures Places(t1) == Places(t)
  {
  }

  lemma ShiftedRefl(t: PT, f: set<nat>, ways: set<Place>)
    ensures Shifted(t, f, t, f, ways)
  {
  }

  lemma ShiftedTrans(t0: PT, f0: set<nat>, t1: PT, f1: set<nat>, t: PT, f: set<nat>, a: set<Place>, b: set<Place>)
    requires Shifted(t0, f0, t1, f1, a) && Shifted(t1, f1, t, f, b)
    ensures Shifted(t0, f0, t, f, a + b)
  {
    assert Places(t) + (a + b) == Places(t) + b + a == Places(t1) + b + a == Places(t1) + a + b;
  }

  /** A table hung below `b` on the way to `va`. */
  lemma AddedPlace(t: PT, b: nat, x: nat, va: nat, words: seq<nat>, f: set<nat>, target: nat)
    requires Inv(t) && Covers(t, b, va) && target < t.lvl[b] && FreshTable(t, b, Idx(va, t.lvl[b]), x, words) && x in f
    ensures var t1 := AddTable(t, b, Idx(va, t.lvl[b]), x, words);
      WalkedTo(t, f, t1, f - {x}, va, target)
  {
    var l := t.lvl[b];
    var t1 := AddTable(t, b, Idx(va, l), x, words);
    AddedOne(t, b, x, va, words);
    PageOf(t, b);
    hide Inv, Span, Off, Idx, FreshTable, Covers, PlaceFor, Put, AddTable, Places;
    assert PlaceFor(l - 1, va) in WayTo(t.top, va, target);
    hide WayTo, Shifted;
    ShiftedAdd(t, f, t1, x, PlaceFor(l - 1, va), WayTo(t.top, va, target));
  }

  lemma AddedOne(t: PT, b: nat, x: nat, va: nat, words: seq<nat>)
    requires Inv(t) && Covers(t, b, va) && t.lvl[b] >= 1 && FreshTable(t, b, Idx(va, t.lvl[b]), x, words)
    ensures var t1 := AddTable(t, b, Idx(va, t.lvl[b]), x, words);
      && t1.top == t.top && t1.lvl.Keys == t.lvl.Keys + {x}
      && Places(t1) == Places(t) + {PlaceFor(t.lvl[b] - 1, va)}
  {
    hide Inv, Span, Off, Idx, Put, IsTable;
    var l := t.lvl[b];
    var i := Idx(va, l);
    var t1 := AddTable(t, b, i, x, words);
    AddedBase(t, b, va);
    FreshFacts(t, b, i, x, words);
    hide FreshTable, Covers, PlaceFor;
    assert t1.lvl == t.lvl[x := l - 1] && t1.base == t.base[x := t.base[b] + Off(i, l)] && t1.top == t.top by {
      AddedMaps(t, b, i, x, words);
    }
    hide AddTable;
    AddedPlaces(t.lvl, t.base, t1.lvl, t1.base, x, l - 1, t.base[b] + Off(i, l));
  }

  lemma ShiftedAdd(t: PT, f: set<nat>, t1: PT, x: nat, place: Place, ways: set<Place>)
    requires t1.top == t.top && t1.lvl.Keys == t.lvl.Keys + {x} && x in f && place in ways
    requires Places(t1) == Places(t) + {place}
    ensures Shifted(t, f, t1, f - {x}, ways)
  {
    hide Places;
    assert f - {x} + t1.lvl.Keys == f + t.lvl.Keys;
    assert Places(t1) + ways == Places(t) + ways;
  }

  lemma AddedMaps(t: PT, b: nat, i: nat, x: nat, words: seq<nat>)
    requires b in t.mem && i < |t.mem[b]| && b in t.lvl && t.lvl[b] >= 1 && b in t.base
    ensures var t1 := AddTable(t, b, i, x, words);
      t1.lvl == t.lvl[x := t.lvl[b] - 1] && t1.base == t.base[x := t.base[b] + Off(i, t.lvl[b])] && t1.top == t.top
  {
  }

  lemma AddedBase(t: PT, b: nat, va: nat)
    requires Inv(t) && Covers(t, b, va) && t.lvl[b] >= 1
    ensures (t.lvl[b] - 1, t.base[b] + Off(Idx(va, t.lvl[b]), t.lvl[b])) == PlaceFor(t.lvl[b] - 1, va)
  {
    PageOf(t, b);
    EntryStart(t.base[b], t.lvl[b], va);
  }

  lemma EntryStart(base: nat, l: nat, va: nat)
    requires 1 <= l <= 3 && base % Span(l + 1) == 0 && base <= va < base + Span(l + 1)
    ensures base + Off(Idx(va, l), l) == va - va % Span(l)
  {
    hide Span, Off, Idx;
    var i := Idx(va, l);
    RegionIdx(va, base, l, i);
    RegionBase(base, l, i);
    BaseIs(base + Off(i, l), va, l - 1);
  }

  lemma AddedPlaces(lvl: map<nat, nat>, base: map<nat, nat>, lvl1: map<nat, nat>, base1: map<nat, nat>, x: nat,
      l: nat, a: nat)
    requires x !in lvl && lvl1 == lvl[x := l] && base1 == base[x := a]
    ensures (set b | b in lvl1 && b in base1 :: (lvl1[b], base1[b])) ==
            (set b | b in lvl && b in base :: (lvl[b], base[b])) + {(l, a)}
  {
    var all := set b | b in lvl1 && b in base1 :: (lvl1[b], base1[b]);
    assert (lvl1[x], base1[x]) in all;
    forall b | b in lvl && b in base ensures (lvl[b], base[b]) in all { assert (lvl1[b], base1[b]) in all; }
  }

  /** No table covers `va` below an entry that does not lead to one. */
  lemma NoPlace(t: PT, b: nat, va: nat)
    requires Inv(t) && Covers(t, b, va) && t.lvl[b] >= 1 && !IsTable(t, b, Idx(va, t.lvl[b]))
    ensures PlaceFor(t.lvl[b] - 1, va) !in Places(t)
  {
    hide Inv;
    if PlaceFor(t.lvl[b] - 1, va) in Places(t) {
      var y := PlaceTaken(t, t.lvl[b] - 1, va);
      BelowEntry(t, b, y, va);
    }
  }

  lemma WayIn(top: nat, va: nat, l: nat)
    requires l <= top
    ensures PlaceFor(l, va) in Ways(top, {va})
  {
  }

  /** A mapped page has a table at every place on its way. */
  lemma {:induction false} MappedReached(t: PT, b: nat, va: nat)
    requires Inv(t) && Covers(t, b, va) && Look(t, b, t.lvl[b], va).Mapped? && Look(t, b, t.lvl[b], va).level == 0
    ensures forall k :: 0 <= k <= t.lvl[b] ==> PlaceFor(k, va) in Places(t)
    decreases t.lvl[b]
  {
    hide Inv, Span, Off, Idx, Places, PlaceFor;
    PlaceHere(t, b, va);
    if t.lvl[b] > 0 {
      var x := EntryAt(t, b, t.lvl[b], Idx(va, t.lvl[b])).page;
      NextTable(t, b, va, x);
      MappedReached(t, x, va);
    }
  }

  lemma NextTable(t: PT, b: nat, va: nat, x: nat)
    requires Inv(t) && Covers(t, b, va) && t.lvl[b] > 0 && EntryAt(t, b, t.lvl[b], Idx(va, t.lvl[b])) == Table(x)
    ensures Covers(t, x, va) && t.lvl[x] == t.lvl[b] - 1
  {
    hide Span, Off, Idx;
    var i := Idx(va, t.lvl[b]);
    assert GoodEntry(t, b, i);
    assert GoodPage(t, x) && Hangs(t, x);
    HangsLevel(t, x);
    ChildCovers(t, x, va);
  }

  lemma MappedWays(t: PT, vas: set<nat>)
    requires Inv(t)
    requires forall va :: va in vas ==>
               va < Span(t.top + 1) && Translate(t, va).Mapped? && Translate(t, va).level == 0
    ensures Ways(t.top, vas) <= Places(t)
  {
    assert GoodPage(t, t.root);
    hide Inv;
    forall va | va in vas ensures Reached(t, 0, va) {
      assert Covers(t, t.root, va);
      MappedReached(t, t.root, va);
    }
  }

  // ---- several pages ----

  lemma WaysAll(top: nat, a: set<nat>, b: set<nat>)
    ensures Ways(top, a + b) == Ways(top, a) + Ways(top, b) && Ways(top, {}) == {}
  {
    hide PlaceFor;
  }

  lemma WaysMore(top: nat, a: set<nat>, b: set<nat>)
    requires a <= b
    ensures Ways(top, a) <= Ways(top, b)
  {
    hide PlaceFor;
  }

  lemma ShiftedMore(t0: PT, f0: set<nat>, t: PT, f: set<nat>, a: set<Place>, b: set<Place>)
    requires Shifted(t0, f0, t, f, a) && a <= b
    ensures Shifted(t0, f0, t, f, b)
  {
    hide Places;
    assert Places(t) + b == Places(t) + a + b == Places(t0) + a + b == Places(t0) + b;
  }

  /** When the frames left are too few for one of the pages, those at the start were too few for all. */
  lemma TooFew(t0: PT, f0: set<nat>, t: PT, f: set<nat>, done: set<Place>, way: set<Place>, all: set<Place>)
    requires Inv(t0) && Inv(t) && Shifted(t0, f0, t, f, done) && f0 !! t0.lvl.Keys && f !! t.lvl.Keys
    requires done <= all && way <= all && |way - Places(t)| > |f|
    ensures |all - Places(t0)| > |f0|
  {
    hide Inv, Places;
    ShiftedMore(t0, f0, t, f, done, all);
    Conserved(t0, f0, t, f, all);
    FitsSame(Places(t0), |f0|, Places(t), |f|, all);
    Smaller(way - Places(t), all - Places(t));
  }

  /** Whether the frames are enough for `all` does not depend on what was taken or given back there before. */
  lemma FitsShifted(t0: PT, f0: set<nat>, t: PT, f: set<nat>, done: set<Place>, all: set<Place>)
    requires Inv(t0) && Inv(t) && Shifted(t0, f0, t, f, done) && f0 !! t0.lvl.Keys && f !! t.lvl.Keys && done <= all
    ensures |all - Places(t)| - |f| == |all - Places(t0)| - |f0|
  {
    hide Inv, Places;
    ShiftedMore(t0, f0, t, f, done, all);
    Conserved(t0, f0, t, f, all);
    FitsSame(Places(t0), |f0|, Places(t), |f|, all);
  }

  /** Unmapping one page frees tables on its way only. */
  lemma UnmappedPlaces(t0: PT, f0: set<nat>, t: PT, f: set<nat>, b: nat, upto: nat, va: nat)
    requires Shrunk(t0, f0, t, f, b, upto) && FreedIn(t0, t, va, va + 4096) && va % 4096 == 0
    ensures Shifted(t0, f0, t, f, Ways(t0.top, {va})) && Places(t) <= Places(t0)
  {
    forall p | p in Places(t0) && p !in Places(t) ensures p in Ways(t0.top, {va}) {
      var y :| y in t0.lvl && y in t0.base && (t0.lvl[y], t0.base[y]) == p;
      FreedPlace(t0, f0, t, f, b, upto, va, y);
    }
    KeptPlaces(t0, f0, t, f, b, upto);
    hide Inv, Shrunk, FreedIn, Ways, Places;
    ShrunkKeys(t0, f0, t, f, b, upto);
  }

  lemma FreedPlace(t0: PT, f0: set<nat>, t: PT, f: set<nat>, b: nat, upto: nat, va: nat, y: nat)
    requires Shrunk(t0, f0, t, f, b, upto) && FreedIn(t0, t, va, va + 4096) && va % 4096 == 0
    requires y in t0.lvl && y in t0.base && (t0.lvl[y], t0.base[y]) !in Places(t)
    ensures (t0.lvl[y], t0.base[y]) in Ways(t0.top, {va})
  {
    assert y !in t.lvl;
    PageOf(t0, y);
    hide Inv, Ways, Places;
    PageStart(t0.base[y], t0.lvl[y], va);
    PlaceHere(t0, y, va);
    WayIn(t0.top, va, t0.lvl[y]);
  }

  lemma PageStart(base: nat, l: nat, va: nat)
    requires l <= 3 && base % Span(l + 1) == 0 && va % 4096 == 0 && base < va + 4096
    ensures base <= va
  {
  }

  lemma KeptPlaces(t0: PT, f0: set<nat>, t: PT, f: set<nat>, b: nat, upto: nat)
    requires Shrunk(t0, f0, t, f, b, upto)
    ensures Places(t) <= Places(t0)
  {
    hide Inv;
    forall p | p in Places(t) ensures p in Places(t0) {
      var y :| y in t.lvl && y in t.base && (t.lvl[y], t.base[y]) == p;
      assert (t0.lvl[y], t0.base[y]) == p;
    }
  }

  lemma ShrunkKeys(t0: PT, f0: set<nat>, t: PT, f: set<nat>, b: nat, upto: nat)
    requires Shrunk(t0, f0, t, f, b, upto)
    ensures t.top == t0.top && f + t.lvl.Keys == f0 + t0.lvl.Keys
  {
  }
}
