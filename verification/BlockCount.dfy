/** How many blocks a range of logical blocks still needs.  A node of the tree is known by its spot: the root
    pointer above it, its depth and its number among the nodes of that depth. */
module BlockCount {
  import opened Bytes
  import opened BlockTree
  import opened BlockEdit

  type Spot = (nat, nat, nat)

  /** The spot of depth `j` on the way to offset `off` under root pointer `k`. */
  function SpotFor(p: nat, k: nat, off: nat, j: nat): Spot
    requires p > 0
  {
    CapPositive(p, j);
    (k, j, off / Cap(p, j))
  }

  function SpotOf(t: Tree, x: nat, pos: (nat, nat)): Spot
    requires x in t.lvl
  {
    (pos.0, t.lvl[x], pos.1)
  }

  ghost function Spots(t: Tree): set<Spot>
    requires Inv(t)
  {
    set x | x in t.lvl :: SpotOf(t, x, Pos(t, x))
  }

  /** All spots on the way to an offset, and to a set of logical blocks. */
  ghost function TrailAt(p: nat, k: nat, off: nat): set<Spot>
    requires p > 0
  {
    set j | 0 <= j <= RootLevel(k) :: SpotFor(p, k, off, j)
  }

  ghost function Trails(p: nat, ls: set<nat>): set<Spot>
    requires p > 0
  {
    set l, j | l in ls && 0 <= j <= RootLevel(Locate(p, l).0) :: SpotFor(p, Locate(p, l).0, Locate(p, l).1, j)
  }

  /** How many blocks these logical blocks still need. */
  ghost function Needs(t: Tree, ls: set<nat>): nat
    requires Inv(t)
  {
    |Trails(t.p, ls) - Spots(t)|
  }

  // ---- spots and nodes ----

  /** The way down to depth `j` depends on the offset only through its number there. */
  lemma {:induction false} SameNode(t: Tree, k: nat, a: nat, b: nat, j: nat)
    requires t.p > 0 && k < |t.root| && j <= RootLevel(k) && SpotFor(t.p, k, a, j) == SpotFor(t.p, k, b, j)
    ensures NodeAt(t, k, a, j) == NodeAt(t, k, b, j)
    decreases RootLevel(k) - j
  {
    if j < RootLevel(k) {
      CapPositive(t.p, j);
      DivDiv(a, Cap(t.p, j), t.p);
      DivDiv(b, Cap(t.p, j), t.p);
      SameNode(t, k, a, b, j + 1);
    }
  }

  /** `x` is the node on the way to the first offset of its number. */
  ghost predicate AtSpot(t: Tree, x: nat, k: nat, n: nat, j: nat) {
    t.p > 0 && k < |t.root| && j <= RootLevel(k) && NodeAt(t, k, n * Cap(t.p, j), j) == x
  }

  /** A node is the one at its spot. */
  lemma {:induction false} SpotNode(t: Tree, x: nat)
    requires Inv(t) && x in t.lvl
    ensures AtSpot(t, x, Pos(t, x).0, Pos(t, x).1, t.lvl[x]) && |t.root| == SLOTS
    decreases 3 - t.lvl[x]
  {
    assert GoodNode(t, x);
    assert Hangs(t, x, t.parent[x]);
    hide GoodNode, ChildNumber, Cap, Index, Ptr;
    if t.parent[x].Kid? {
      var b, i := t.parent[x].b, t.parent[x].i;
      SpotNode(t, b);
      assert b > 0 by { assert GoodNode(t, b); }
      hide Inv, AtSpot;
      ChildPos(t, b, i, x);
      SpotChild(t, b, i, x, Pos(t, b).0, Pos(t, b).1, t.lvl[x]);
    }
  }

  lemma SpotChild(t: Tree, b: nat, i: nat, x: nat, k: nat, m: nat, j: nat)
    requires AtSpot(t, b, k, m, j + 1) && i < t.p && Ptr(t, b, i) == x && b > 0
    ensures AtSpot(t, x, k, ChildNumber(m, t.p, i), j)
  {
    hide Ptr, ChildNumber, Cap, Index;
    NumberDown(t.p, m, i, j);
    SameNode(t, k, ChildNumber(m, t.p, i) * Cap(t.p, j), m * Cap(t.p, j + 1), j + 1);
  }

  lemma NumberDown(p: nat, m: nat, i: nat, j: nat)
    requires i < p
    ensures var off := ChildNumber(m, p, i) * Cap(p, j);
      SpotFor(p, 0, off, j + 1) == SpotFor(p, 0, m * Cap(p, j + 1), j + 1) && Index(p, off, j) == i
  {
    var c := Cap(p, j);
    CapPositive(p, j);
    CapPositive(p, j + 1);
    var n := ChildNumber(m, p, i);
    DivUnique(n * c, c, n, 0);
    DivUnique(n, p, m, i);
    DivDiv(n * c, c, p);
    DivUnique(m * Cap(p, j + 1), Cap(p, j + 1), m, 0);
  }

  /** A spot is taken exactly when the way leads to a node there. */
  lemma SpotIff(t: Tree, k: nat, off: nat, j: nat)
    requires Inv(t) && k < SLOTS && j <= RootLevel(k) && off < Cap(t.p, RootLevel(k))
    ensures t.p > 0 && |t.root| == SLOTS && (SpotFor(t.p, k, off, j) in Spots(t) <==> NodeAt(t, k, off, j) != 0)
  {
    hide NodeAt, Cap, Pos;
    if NodeAt(t, k, off, j) != 0 {
      NodeLevel(t, k, off, j);
      hide Inv;
      PosOnPath(t, k, off, j);
    }
    if SpotFor(t.p, k, off, j) in Spots(t) {
      var y :| y in t.lvl && SpotOf(t, y, Pos(t, y)) == SpotFor(t.p, k, off, j);
      SpotTaken(t, k, off, j, y);
    }
  }

  lemma SpotTaken(t: Tree, k: nat, off: nat, j: nat, y: nat)
    requires Inv(t) && y in t.lvl && SpotOf(t, y, Pos(t, y)) == SpotFor(t.p, k, off, j)
    ensures k < SLOTS && j <= RootLevel(k) && t.p > 0 && |t.root| == SLOTS && NodeAt(t, k, off, j) == y > 0
  {
    assert GoodNode(t, y);
    hide NodeAt, Cap, Pos, GoodNode;
    SpotNode(t, y);
    hide Inv;
    CapPositive(t.p, j);
    DivUnique(Pos(t, y).1 * Cap(t.p, j), Cap(t.p, j), Pos(t, y).1, 0);
    SameNode(t, k, Pos(t, y).1 * Cap(t.p, j), off, j);
  }

  lemma OneSpot(t: Tree, x: nat, y: nat)
    requires Inv(t) && x in t.lvl && y in t.lvl && SpotOf(t, x, Pos(t, x)) == SpotOf(t, y, Pos(t, y))
    ensures x == y
  {
    hide Inv;
    SpotNode(t, x);
    SpotNode(t, y);
  }

  // ---- counting ----

  lemma CountSpots(t: Tree)
    requires Inv(t)
    ensures |Spots(t)| == |t.lvl.Keys|
  {
    hide Inv, Pos, SpotOf;
    var m := map x | x in t.lvl :: SpotOf(t, x, Pos(t, x));
    forall x, y | x in m && y in m && m[x] == m[y] ensures x == y { OneSpot(t, x, y); }
    CountImage(t.lvl.Keys, m);
    var image := Image(t.lvl.Keys, m);
    forall s | s in Spots(t) ensures s in image {
      var x :| x in t.lvl && SpotOf(t, x, Pos(t, x)) == s;
      assert m[x] in image;
    }
    forall s | s in image ensures s in Spots(t) {
      var x :| x in t.lvl.Keys && m[x] == s;
      assert SpotOf(t, x, Pos(t, x)) in Spots(t);
    }
    assert Spots(t) == image;
  }

  ghost function Image(s: set<nat>, m: map<nat, Spot>): set<Spot>
    requires s <= m.Keys
  {
    set x | x in s :: m[x]
  }

  lemma {:induction false} CountImage(s: set<nat>, m: map<nat, Spot>)
    requires s <= m.Keys && forall x, y :: x in s && y in s && m[x] == m[y] ==> x == y
    ensures |Image(s, m)| == |s|
    decreases s
  {
    var image := Image(s, m);
    if s == {} {
      assert image == {};
    } else {
      var x :| x in s;
      CountImage(s - {x}, m);
      assert image == Image(s - {x}, m) + {m[x]};
    }
  }

  /** Nodes were only added, at these spots, and every block that was free or a node still is. */
  ghost predicate Fed(t0: Tree, f0: set<nat>, t: Tree, f: set<nat>, trail: set<Spot>) {
    && Inv(t0) && Inv(t) && t.p == t0.p && f + t.lvl.Keys == f0 + t0.lvl.Keys && f0 !! t0.lvl.Keys && f !! t.lvl.Keys
    && Spots(t0) <= Spots(t) <= Spots(t0) + trail
  }

  lemma Conserved(t0: Tree, f0: set<nat>, t: Tree, f: set<nat>, trail: set<Spot>)
    requires Fed(t0, f0, t, f, trail)
    ensures |f| + |Spots(t)| == |f0| + |Spots(t0)|
  {
    CountSpots(t0);
    CountSpots(t);
    hide Inv, Spots;
    assert |f + t.lvl.Keys| == |f| + |t.lvl.Keys| && |f0 + t0.lvl.Keys| == |f0| + |t0.lvl.Keys|;
  }

  /** What is missing and what is free shrink alike. */
  lemma FitsFed(t0: Tree, f0: set<nat>, t: Tree, f: set<nat>, trail: set<Spot>, all: set<Spot>)
    requires Fed(t0, f0, t, f, trail) && trail <= all
    ensures |all - Spots(t)| - |f| == |all - Spots(t0)| - |f0|
  {
    hide Inv, Spots, Pos;
    Conserved(t0, f0, t, f, trail);
    SameUnion(Spots(t0), Spots(t), trail, all);
    hide Fed;
    FitsSame(Spots(t0), |f0|, Spots(t), |f|, all);
  }

  lemma SameUnion(p0: set<Spot>, p: set<Spot>, trail: set<Spot>, all: set<Spot>)
    requires p0 <= p <= p0 + trail && trail <= all
    ensures p + all == p0 + all
  {
  }

  lemma FitsSame(p0: set<Spot>, n0: nat, p: set<Spot>, n: nat, all: set<Spot>)
    requires n + |p| == n0 + |p0| && p + all == p0 + all
    ensures |all - p| - n == |all - p0| - n0
  {
    assert p + all == p + (all - p) && p0 + all == p0 + (all - p0);
    assert |p + (all - p)| == |p| + |all - p| && |p0 + (all - p0)| == |p0| + |all - p0|;
  }

  lemma FedRefl(t: Tree, f: set<nat>, trail: set<Spot>)
    requires Inv(t) && f !! t.lvl.Keys
    ensures Fed(t, f, t, f, trail)
  {
    hide Inv, Spots;
  }

  lemma FedTrans(t0: Tree, f0: set<nat>, t1: Tree, f1: set<nat>, t: Tree, f: set<nat>, a: set<Spot>, b: set<Spot>)
    requires Fed(t0, f0, t1, f1, a) && Fed(t1, f1, t, f, b)
    ensures Fed(t0, f0, t, f, a + b)
  {
    hide Inv, Spots;
  }

  lemma FedMore(t0: Tree, f0: set<nat>, t: Tree, f: set<nat>, a: set<Spot>, b: set<Spot>)
    requires Fed(t0, f0, t, f, a) && a <= b
    ensures Fed(t0, f0, t, f, b)
  {
    hide Inv, Spots;
  }

  // ---- steps ----

  /** Positions stay when parents do. */
  lemma {:induction false} PosKept(t: Tree, t1: Tree, x: nat)
    requires Inv(t) && Inv(t1) && t1.p == t.p && x in t.lvl
    requires forall y :: y in t.lvl ==> y in t1.lvl && t1.lvl[y] == t.lvl[y] && y in t.parent && y in t1.parent && t1.parent[y] == t.parent[y]
    ensures Pos(t1, x) == Pos(t, x)
    decreases 3 - t.lvl[x]
  {
    assert GoodNode(t, x);
    hide ChildNumber, Ptr, GoodNode;
    assert Hangs(t, x, t.parent[x]);
    if t.parent[x].Kid? { PosKept(t, t1, t.parent[x].b); }
  }

  lemma SameSpots(t: Tree, t1: Tree)
    requires Inv(t) && Inv(t1) && t1.p == t.p && t1.lvl == t.lvl && t1.parent == t.parent
    ensures Spots(t1) == Spots(t)
  {
    forall x | x in t.lvl ensures Pos(t1, x) == Pos(t, x) && x in t.parent {
      forall y | y in t.lvl ensures y in t.parent { assert GoodNode(t, y); }
      PosKept(t, t1, x);
    }
    hide Inv, Pos;
  }

  /** A block hung on the way takes its spot. */
  lemma AddedSpot(t: Tree, t1: Tree, slot: Slot, x: nat, k: nat, off: nat, j: nat)
    requires Inv(t) && Inv(t1) && t1.p == t.p && x !in t.lvl && t1.lvl == t.lvl[x := j] && t1.parent == t.parent[x := slot]
    requires k < SLOTS && j <= RootLevel(k) && off < Cap(t.p, RootLevel(k)) && |t1.root| == SLOTS && t.p > 0
    requires NodeAt(t1, k, off, j) == x
    ensures Spots(t1) == Spots(t) + {SpotFor(t.p, k, off, j)}
  {
    forall y | y in t.lvl ensures y in t.parent { assert GoodNode(t, y); }
    hide Inv, Pos, NodeAt, Cap;
    forall y | y in t.lvl ensures Pos(t1, y) == Pos(t, y) { PosKept(t, t1, y); }
    PosOnPath(t1, k, off, j);
    LinkedSpots(t, t1, x, SpotFor(t.p, k, off, j));
  }

  lemma LinkedSpots(t: Tree, t1: Tree, x: nat, spot: Spot)
    requires Inv(t) && Inv(t1) && x !in t.lvl && x in t1.lvl && t1.lvl.Keys == t.lvl.Keys + {x}
    requires forall y :: y in t.lvl ==> t1.lvl[y] == t.lvl[y] && Pos(t1, y) == Pos(t, y)
    requires SpotOf(t1, x, Pos(t1, x)) == spot
    ensures Spots(t1) == Spots(t) + {spot}
  {
    hide Inv, Pos;
    forall y | y in t.lvl ensures SpotOf(t1, y, Pos(t1, y)) == SpotOf(t, y, Pos(t, y)) { }
    assert forall y :: y in t.lvl ==> SpotOf(t, y, Pos(t, y)) in Spots(t1);
  }

  lemma FreeApart(t: Tree, f: set<nat>)
    requires FreeOk(t, f)
    ensures f !! t.lvl.Keys
  {
  }

  lemma ThroughNode(t: Tree, slot: Slot, k: nat, off: nat)
    requires Inv(t) && k < SLOTS && SlotOk(t, slot) && Through(t, slot, k, off) && SlotLevel(t, slot) <= RootLevel(k)
    ensures NodeAt(t, k, off, SlotLevel(t, slot)) == Target(t, slot)
  {
    if slot.Kid? { assert GoodNode(t, slot.b); }
    ThroughTarget(t, slot, k, off);
  }

  lemma HoleBelow(t: Tree, k: nat, off: nat, top: nat, level: nat)
    requires Inv(t) && k < SLOTS && level < top <= RootLevel(k) && NodeAt(t, k, off, top) == 0
    ensures NodeAt(t, k, off, level) == 0
  {
    HolesBelow(t, k, off, top, level);
  }

  /** An indirect block hung on the way. */
  lemma HangFed(t0: Tree, f0: set<nat>, slot: Slot, x: nat, k: nat, off: nat, j: nat, t1: Tree)
    requires Inv(t0) && Inv(t1) && f0 !! t0.lvl.Keys && x in f0 && t1.p == t0.p && t1.lvl == t0.lvl[x := j]
    requires t1.parent == t0.parent[x := slot] && k < SLOTS && j <= RootLevel(k) && off < Cap(t0.p, RootLevel(k))
    requires |t1.root| == SLOTS && t0.p > 0 && NodeAt(t1, k, off, j) == x
    ensures Fed(t0, f0, t1, f0 - {x}, TrailAt(t0.p, k, off))
  {
    hide Inv, NodeAt, Cap, Spots, SpotFor;
    AddedSpot(t0, t1, slot, x, k, off, j);
    assert SpotFor(t0.p, k, off, j) in TrailAt(t0.p, k, off);
    hide TrailAt;
    assert f0 - {x} + t1.lvl.Keys == f0 + t0.lvl.Keys;
  }

  lemma FedTwice(t0: Tree, f0: set<nat>, t1: Tree, f1: set<nat>, t: Tree, f: set<nat>, trail: set<Spot>)
    requires Fed(t0, f0, t1, f1, trail) && Fed(t1, f1, t, f, trail)
    ensures Fed(t0, f0, t, f, trail)
  {
    hide Inv, Spots;
  }

  lemma TrailIs(p: nat, l: nat)
    requires p > 0
    ensures Trails(p, {l}) == TrailAt(p, Locate(p, l).0, Locate(p, l).1)
  {
    hide SpotFor, Locate;
  }

  lemma DirectThrough(t: Tree, l: nat)
    requires Inv(t) && l < 12
    ensures SlotOk(t, Root(l)) && SlotLevel(t, Root(l)) == 0 && t.p > 0 && |t.root| == SLOTS
    ensures Through(t, Root(l), Locate(t.p, l).0, Locate(t.p, l).1)
  {
    DirectSlot(t, l);
  }

  lemma LeafThrough(t: Tree, l: nat, b: nat, i: nat)
    requires AtLeaf(t, l, b, i)
    ensures SlotOk(t, Kid(b, i)) && SlotLevel(t, Kid(b, i)) == 0 && t.p > 0 && |t.root| == SLOTS
    ensures Through(t, Kid(b, i), Locate(t.p, l).0, Locate(t.p, l).1)
  {
    hide NodeAt, Index;
  }

  /** The data block `x`, taken first, is hung last. */
  lemma GrownInv(t0: Tree, f0: set<nat>, t: Tree, f: set<nat>)
    requires Grown(t0, f0, t, f)
    ensures Inv(t0) && Inv(t) && t.p == t0.p
  {
  }

  lemma WireFed(t0: Tree, f0: set<nat>, t1: Tree, f1: set<nat>, t2: Tree, f2: set<nat>, slot: Slot, x: nat, l: nat,
      t3: Tree)
    requires Inv(t0) && Inv(t1) && t1.p == t0.p && t1.lvl == t0.lvl && t1.parent == t0.parent && f0 !! t0.lvl.Keys
    requires x in f0 && x !in t0.lvl && f1 == f0 - {x} && 0 < x < U32 && l < MaxBlocks(t0.p)
    requires (t2 == t1 && f2 == f1) || Fed(t1, f1, t2, f2, Trails(t0.p, {l}))
    requires Inv(t2) && Inv(t3) && SlotOk(t2, slot) && SlotLevel(t2, slot) == 0 && t3 == Link(t2, slot, x)
    requires t2.p > 0 && |t2.root| == SLOTS && x !in t2.lvl && Through(t2, slot, Locate(t2.p, l).0, Locate(t2.p, l).1)
    ensures Fed(t0, f0, t3, f2, Trails(t0.p, {l}))
  {
    var (k, off) := Locate(t2.p, l);
    LocateFits(t2.p, l);
    LinkOnPath(t2, slot, x, k, off);
    hide Inv, NodeAt, Cap, Spots, SpotFor, Trails, MaxBlocks, Locate, Through, Store;
    if t2 == t1 { FedRefl(t1, f1, Trails(t0.p, {l})); }
    SameSpots(t0, t1);
    AddedSpot(t2, t3, slot, x, k, off, 0);
    TrailIs(t0.p, l);
    assert SpotFor(t0.p, k, off, 0) in TrailAt(t0.p, k, off);
    assert f2 + t3.lvl.Keys == f0 + t0.lvl.Keys;
  }

  /** A way whose last indirect block is missing lacks two blocks. */
  lemma WireFails(t0: Tree, f0: set<nat>, t1: Tree, f1: set<nat>, t2: Tree, f2: set<nat>, x: nat, l: nat)
    requires Inv(t0) && Inv(t1) && t1.p == t0.p && t1.lvl == t0.lvl && t1.parent == t0.parent && x in f0 && f1 == f0 - {x}
    requires t0.p > 0 && Fed(t1, f1, t2, f2, Trails(t0.p, {l})) && f2 == {} && 12 <= l < MaxBlocks(t0.p)
    requires |t2.root| == SLOTS && t2.p > 0 && NodeAt(t2, Locate(t2.p, l).0, Locate(t2.p, l).1, 1) == 0
    ensures Needs(t0, {l}) > |f0|
  {
    hide Inv, NodeAt, Cap, Spots, Trails, MaxBlocks, Locate;
    FedP(t1, f1, t2, f2, Trails(t0.p, {l}));
    SameSpots(t0, t1);
    TwoMissing(t2, l);
    FitsFed(t1, f1, t2, f2, Trails(t0.p, {l}), Trails(t0.p, {l}));
  }

  lemma TwoMissing(t: Tree, l: nat)
    requires Inv(t) && 12 <= l < MaxBlocks(t.p) && |t.root| == SLOTS && t.p > 0
    requires NodeAt(t, Locate(t.p, l).0, Locate(t.p, l).1, 1) == 0
    ensures |Trails(t.p, {l}) - Spots(t)| >= 2
  {
    var (k, off) := Locate(t.p, l);
    LocateFits(t.p, l);
    assert RootLevel(k) >= 1;
    hide Inv, NodeAt, Cap, Spots, Trails, MaxBlocks, Locate;
    HoleBelow(t, k, off, 1, 0);
    SpotIff(t, k, off, 0);
    SpotIff(t, k, off, 1);
    TrailIs(t.p, l);
    var a, b := SpotFor(t.p, k, off, 0), SpotFor(t.p, k, off, 1);
    assert a in TrailAt(t.p, k, off) && b in TrailAt(t.p, k, off) && a != b;
    AtLeastTwo(Trails(t.p, {l}) - Spots(t), a, b);
  }

  lemma AtLeastTwo(s: set<Spot>, a: Spot, b: Spot)
    requires a in s && b in s && a != b
    ensures |s| >= 2
  {
    assert s == {a} + (s - {a});
    assert b in s - {a};
  }

  lemma NeedsNone(t: Tree, l: nat)
    requires Inv(t) && l < MaxBlocks(t.p) && Resolve(t, l) != 0
    ensures Needs(t, {l}) == 0 && Trails(t.p, {l}) <= Spots(t)
  {
    var (k, off) := Locate(t.p, l);
    LocateFits(t.p, l);
    forall j | 0 <= j <= RootLevel(k) ensures SpotFor(t.p, k, off, j) in Spots(t) {
      if NodeAt(t, k, off, j) == 0 && j > 0 { HoleBelow(t, k, off, j, 0); }
      SpotIff(t, k, off, j);
    }
    TrailIs(t.p, l);
    hide Inv, NodeAt, Cap, Spots, SpotFor, Trails, MaxBlocks, Locate;
    assert TrailAt(t.p, k, off) - Spots(t) == {};
  }

  lemma NeedsSome(t: Tree, l: nat)
    requires Inv(t) && l < MaxBlocks(t.p) && Resolve(t, l) == 0
    ensures Needs(t, {l}) > 0
  {
    var (k, off) := Locate(t.p, l);
    LocateFits(t.p, l);
    SpotIff(t, k, off, 0);
    TrailIs(t.p, l);
    assert SpotFor(t.p, k, off, 0) in Trails(t.p, {l}) - Spots(t);
  }

  lemma NeedsMet(t0: Tree, f0: set<nat>, t: Tree, f: set<nat>, l: nat, x: nat)
    requires Inv(t0) && Fed(t0, f0, t, f, Trails(t0.p, {l})) && l < MaxBlocks(t0.p) && Allocated(t0, f0, t, f, l, x)
    ensures Needs(t0, {l}) <= |f0|
  {
    NeedsNone(t, l);
    hide Inv, Spots, Trails, Allocated, MaxBlocks;
    FitsFed(t0, f0, t, f, Trails(t0.p, {l}), Trails(t0.p, {l}));
  }

  // ---- ranges of logical blocks ----

  ghost function Range(a: nat, c: nat): (r: set<nat>)
    ensures forall l :: l in r <==> a <= l < c
  {
    if c <= a then {} else Range(a, c - 1) + {c - 1}
  }

  /** The logical blocks `[a, c)` are there, and only what they needed was added. */
  ghost predicate FedTo(t0: Tree, f0: set<nat>, t: Tree, f: set<nat>, a: nat, c: nat) {
    Inv(t0) && Fed(t0, f0, t, f, Trails(t0.p, Range(a, c))) && Found(t, a, c)
  }

  ghost predicate Found(t: Tree, a: nat, c: nat) {
    && t.p > 0 && |t.root| == SLOTS && (a < c ==> c <= MaxBlocks(t.p))
    && forall l :: a <= l < c ==> Resolve(t, l) != 0
  }

  lemma FoundSame(t: Tree, t1: Tree, a: nat, c: nat)
    requires Found(t, a, c) && t1.p == t.p && |t1.root| == SLOTS && SameFile(t, t1)
    ensures Found(t1, a, c)
  {
    hide Resolve, MaxBlocks;
    forall l | a <= l < c ensures Resolve(t1, l) != 0 { assert Resolve(t1, l) == Resolve(t, l); }
  }

  /** Logical blocks `[a, b)` reach past the end of the tree, or need more blocks than are free. */
  ghost predicate Refused(t: Tree, f: set<nat>, a: nat, b: nat)
    requires Inv(t)
  {
    b > MaxBlocks(t.p) || Needs(t, Range(a, b)) > |f|
  }

  lemma RangeNext(p: nat, a: nat, l: nat)
    requires p > 0 && a <= l
    ensures Trails(p, Range(a, l + 1)) == Trails(p, Range(a, l)) + Trails(p, {l}) && Range(a, a) == {}
    ensures Trails(p, {}) == {}
  {
    hide SpotFor, Locate;
    assert Range(a, l + 1) == Range(a, l) + {l};
  }

  lemma RangeMore(p: nat, a: nat, l: nat, b: nat)
    requires p > 0 && a <= l <= b
    ensures Trails(p, Range(a, l)) <= Trails(p, Range(a, b))
  {
    hide SpotFor, Locate;
    assert Range(a, l) <= Range(a, b);
  }

  lemma FedNone(t: Tree, f: set<nat>, a: nat)
    requires Inv(t) && f !! t.lvl.Keys
    ensures FedTo(t, f, t, f, a, a)
  {
    FedRefl(t, f, Trails(t.p, Range(a, a)));
  }

  lemma FedNext(t0: Tree, f0: set<nat>, t: Tree, f: set<nat>, t1: Tree, f1: set<nat>, a: nat, l: nat, x: nat)
    requires FedTo(t0, f0, t, f, a, l) && a <= l < MaxBlocks(t.p) && Fed(t, f, t1, f1, Trails(t.p, {l}))
    requires Allocated(t, f, t1, f1, l, x)
    ensures FedTo(t0, f0, t1, f1, a, l + 1)
  {
    assert |t1.root| == SLOTS && t1.p > 0 && Resolve(t1, l) == x;
    hide Inv, Fed, Trails, MaxBlocks, Resolve;
    RangeNext(t0.p, a, l);
    FedP(t0, f0, t, f, Trails(t0.p, Range(a, l)));
    FedTrans(t0, f0, t, f, t1, f1, Trails(t0.p, Range(a, l)), Trails(t0.p, {l}));
    forall m | a <= m < l + 1 ensures m < MaxBlocks(t1.p) && Resolve(t1, m) != 0 { if m < l { assert Resolve(t1, m) == Resolve(t, m); } }
  }

  lemma FedP(t0: Tree, f0: set<nat>, t: Tree, f: set<nat>, trail: set<Spot>)
    requires Fed(t0, f0, t, f, trail)
    ensures t.p == t0.p && Inv(t) && Inv(t0)
  {
  }

  lemma FedSame(t0: Tree, f0: set<nat>, t: Tree, t1: Tree, f: set<nat>, a: nat, c: nat)
    requires FedTo(t0, f0, t, f, a, c) && Inv(t1) && t1 == t.(disk := t1.disk)
    requires t.p > 0 && |t.root| == SLOTS && SameFile(t, t1)
    ensures FedTo(t0, f0, t1, f, a, c)
  {
    assert t0.p > 0;
    hide Inv, Spots, Trails, MaxBlocks, Resolve, SameFile, Fed, Range;
    FedTreeSame(t0, f0, t, t1, f, Trails(t0.p, Range(a, c)));
    FoundSame(t, t1, a, c);
  }

  lemma FedTreeSame(t0: Tree, f0: set<nat>, t: Tree, t1: Tree, f: set<nat>, trail: set<Spot>)
    requires Fed(t0, f0, t, f, trail) && Inv(t1) && t1 == t.(disk := t1.disk)
    ensures Fed(t0, f0, t1, f, trail)
  {
    hide Inv, Spots;
    SameSpots(t, t1);
  }

  lemma FedRefused(t0: Tree, f0: set<nat>, t: Tree, f: set<nat>, a: nat, l: nat, b: nat)
    requires FedTo(t0, f0, t, f, a, l) && a <= l < b && (l >= MaxBlocks(t.p) || Needs(t, {l}) > |f|)
    ensures Refused(t0, f0, a, b)
  {
    assert t0.p > 0;
    hide Inv, Spots, Trails, MaxBlocks, Resolve, Fed;
    FedP(t0, f0, t, f, Trails(t0.p, Range(a, l)));
    if l < MaxBlocks(t.p) {
      var all := Trails(t0.p, Range(a, b));
      RangeMore(t0.p, a, l, b);
      RangeNext(t0.p, a, l);
      RangeMore(t0.p, a, l + 1, b);
      FitsFed(t0, f0, t, f, Trails(t0.p, Range(a, l)), all);
      Smaller(Trails(t.p, {l}) - Spots(t), all - Spots(t));
    }
  }

  lemma Smaller(a: set<Spot>, b: set<Spot>)
    requires a <= b
    ensures |a| <= |b|
  {
    assert b == a + (b - a);
  }

  lemma TrailsOne(p: nat, ls: set<nat>, s: Spot) returns (l: nat)
    requires p > 0 && s in Trails(p, ls)
    ensures l in ls && s in Trails(p, {l})
  {
    hide SpotFor, Locate;
    var m, j :| m in ls && 0 <= j <= RootLevel(Locate(p, m).0) && s == SpotFor(p, Locate(p, m).0, Locate(p, m).1, j);
    l := m;
  }

  lemma FedEnough(t0: Tree, f0: set<nat>, t: Tree, f: set<nat>, a: nat, c: nat)
    requires FedTo(t0, f0, t, f, a, c) && a <= c
    ensures c > a ==> !Refused(t0, f0, a, c)
  {
    assert t0.p > 0;
    hide Inv, Spots, MaxBlocks, Resolve, Fed, SpotFor, Locate, Trails;
    var all := Trails(t0.p, Range(a, c));
    FedP(t0, f0, t, f, all);
    forall s | s in all ensures s in Spots(t) {
      var l := TrailsOne(t0.p, Range(a, c), s);
      assert a <= l < c && Resolve(t, l) != 0;
      NeedsNone(t, l);
    }
    FitsFed(t0, f0, t, f, all, all);
    assert all - Spots(t) == {};
    if c > a { assert Resolve(t, c - 1) != 0 && c - 1 < MaxBlocks(t.p); }
  }
}
