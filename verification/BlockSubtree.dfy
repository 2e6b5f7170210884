/** The blocks below a node of the pointer tree, and what removing some of them leaves intact. */
module BlockSubtree {
  import opened Bytes
  import opened BlockTree

  /** The ancestor of `x` (or `x` itself) of depth `m`, along the recorded parents; 0 if there is none. */
  function Anc(t: Tree, x: nat, m: nat): nat
    decreases if x in t.lvl && t.lvl[x] <= m then m - t.lvl[x] else 0
  {
    if x !in t.lvl || x !in t.parent || t.lvl[x] > m then 0
    else if t.lvl[x] == m then x
    else match t.parent[x]
      case Root(_) => 0
      case Kid(b, _) => if b in t.lvl && t.lvl[b] == t.lvl[x] + 1 then Anc(t, b, m) else 0
  }

  /** `x` is `b` or below it. */
  predicate Below(t: Tree, x: nat, b: nat) { b in t.lvl && x in t.lvl && Anc(t, x, t.lvl[b]) == b }

  /** `x` is below `b`, through one of its first `i` pointers. */
  predicate BelowPart(t: Tree, x: nat, b: nat, i: nat) {
    && b in t.lvl && t.lvl[b] >= 1 && x in t.lvl
    && var c := Anc(t, x, t.lvl[b] - 1);
       c in t.lvl && c in t.parent && t.parent[c].Kid? && t.parent[c].b == b && t.parent[c].i < i
  }

  function Sub(t: Tree, b: nat): set<nat> { set x | x in t.lvl && Below(t, x, b) }

  function Part(t: Tree, b: nat, i: nat): set<nat> { set x | x in t.lvl && BelowPart(t, x, b, i) }

  lemma {:induction false} AncLevel(t: Tree, x: nat, m: nat)
    ensures var c := Anc(t, x, m); c != 0 ==> c in t.lvl && c in t.parent && t.lvl[c] == m
    decreases if x in t.lvl && t.lvl[x] <= m then m - t.lvl[x] else 0
  {
    if x in t.lvl && x in t.parent && t.lvl[x] < m && t.parent[x].Kid? && t.parent[x].b in t.lvl && t.lvl[t.parent[x].b] == t.lvl[x] + 1 {
      AncLevel(t, t.parent[x].b, m);
    }
  }

  /** Going up to depth `m + 1` is going up to `m` and then one step. */
  lemma {:induction false} AncUp(t: Tree, x: nat, m: nat)
    requires x in t.lvl && t.lvl[x] <= m
    ensures Anc(t, x, m + 1) == Anc(t, Anc(t, x, m), m + 1) || (Anc(t, x, m) == 0 && Anc(t, x, m + 1) == 0)
    decreases m - t.lvl[x]
  {
    if x in t.parent && t.lvl[x] < m && t.parent[x].Kid? && t.parent[x].b in t.lvl && t.lvl[t.parent[x].b] == t.lvl[x] + 1 {
      AncUp(t, t.parent[x].b, m);
    }
  }

  /** A node below `b` other than `b` is below one of its pointers. */
  lemma BelowIsPart(t: Tree, x: nat, b: nat)
    requires Inv(t) && b in t.lvl && t.lvl[b] >= 1 && x in t.lvl
    ensures Below(t, x, b) <==> x == b || BelowPart(t, x, b, t.p)
    ensures BelowPart(t, x, b, t.p) ==> t.lvl[x] < t.lvl[b]
  {
    var m := t.lvl[b] - 1;
    assert GoodNode(t, x) && GoodNode(t, b);
    AncLevel(t, x, m);
    AncLevel(t, x, m + 1);
    if t.lvl[x] <= m {
      AncUp(t, x, m);
      var c := Anc(t, x, m);
      if c != 0 { assert GoodNode(t, c); assert Hangs(t, c, t.parent[c]); }
    }
  }

  lemma SubSplit(t: Tree, b: nat)
    requires Inv(t) && b in t.lvl && t.lvl[b] >= 1
    ensures Sub(t, b) == {b} + Part(t, b, t.p) && b !in Part(t, b, t.p) && Part(t, b, 0) == {}
  {
    forall x | x in t.lvl ensures (x in Sub(t, b) <==> x in {b} + Part(t, b, t.p)) { BelowIsPart(t, x, b); }
    BelowIsPart(t, b, b);
  }

  lemma SubLeaf(t: Tree, x: nat)
    requires Inv(t) && x in t.lvl && t.lvl[x] == 0
    ensures Sub(t, x) == {x}
  {
    assert GoodNode(t, x);
    forall y | y in t.lvl ensures y in Sub(t, x) <==> y == x { assert GoodNode(t, y); }
  }

  /** The next pointer adds what is below it. */
  lemma PartNext(t: Tree, b: nat, i: nat, x: nat)
    requires Inv(t) && b in t.lvl && t.lvl[b] >= 1 && i < t.p && x in t.lvl
    ensures BelowPart(t, x, b, i + 1) <==> BelowPart(t, x, b, i) || (Ptr(t, b, i) != 0 && Below(t, x, Ptr(t, b, i)))
    ensures Ptr(t, b, i) != 0 && Below(t, x, Ptr(t, b, i)) ==> !BelowPart(t, x, b, i)
    ensures Ptr(t, b, i) != 0 ==> Ptr(t, b, i) in t.lvl && t.lvl[Ptr(t, b, i)] == t.lvl[b] - 1
  {
    var m := t.lvl[b] - 1;
    var c := Anc(t, x, m);
    AncLevel(t, x, m);
    if c != 0 { assert GoodNode(t, c); assert Hangs(t, c, t.parent[c]); }
    if Ptr(t, b, i) != 0 { assert Hangs(t, Ptr(t, b, i), Kid(b, i)); }
    forall y | y in t.lvl ensures y != 0 { assert GoodNode(t, y); }
  }

  lemma PartStep(t: Tree, b: nat, i: nat)
    requires Inv(t) && b in t.lvl && t.lvl[b] >= 1 && i < t.p
    ensures Part(t, b, i + 1) == Part(t, b, i) + (if Ptr(t, b, i) != 0 then Sub(t, Ptr(t, b, i)) else {})
    ensures Ptr(t, b, i) != 0 ==> Part(t, b, i) !! Sub(t, Ptr(t, b, i))
    ensures Ptr(t, b, i) != 0 ==> Ptr(t, b, i) in t.lvl && t.lvl[Ptr(t, b, i)] == t.lvl[b] - 1
  {
    forall x | x in t.lvl
      ensures BelowPart(t, x, b, i + 1) <==> BelowPart(t, x, b, i) || (Ptr(t, b, i) != 0 && Below(t, x, Ptr(t, b, i)))
      ensures Ptr(t, b, i) != 0 && Below(t, x, Ptr(t, b, i)) ==> !BelowPart(t, x, b, i)
    {
      PartNext(t, b, i, x);
    }
    if Ptr(t, b, i) != 0 { assert Hangs(t, Ptr(t, b, i), Kid(b, i)); }
  }

  lemma PartGrows(t: Tree, b: nat, i: nat)
    requires i <= t.p
    ensures Part(t, b, i) <= Part(t, b, t.p)
  {
  }

  // ---- the whole tree, root pointer by root pointer ----

  /** The nodes under the first `k` root pointers. */
  ghost function Tops(t: Tree, k: nat): set<nat>
    requires Inv(t)
  {
    set x | x in t.lvl && Pos(t, x).0 < k
  }

  lemma {:induction false} PosFits(t: Tree, x: nat)
    requires Inv(t) && x in t.lvl
    ensures Pos(t, x).0 < SLOTS && t.lvl[x] <= RootLevel(Pos(t, x).0) && t.root[Pos(t, x).0] != 0
    ensures Anc(t, x, RootLevel(Pos(t, x).0)) == t.root[Pos(t, x).0]
    decreases 3 - t.lvl[x]
  {
    assert GoodNode(t, x);
    assert Hangs(t, x, t.parent[x]);
    match t.parent[x] case Root(_) => case Kid(b, _) => PosFits(t, b);
  }

  lemma {:induction false} AncTop(t: Tree, x: nat, m: nat)
    requires Inv(t) && x in t.lvl && Anc(t, x, m) != 0
    ensures Anc(t, x, m) in t.lvl && Pos(t, Anc(t, x, m)).0 == Pos(t, x).0
    decreases 3 - t.lvl[x]
  {
    assert GoodNode(t, x);
    assert Hangs(t, x, t.parent[x]);
    if t.lvl[x] < m && t.parent[x].Kid? { AncTop(t, t.parent[x].b, m); }
  }

  lemma SubOfRoot(t: Tree, k: nat, x: nat)
    requires Inv(t) && k < SLOTS && t.root[k] != 0 && x in t.lvl
    ensures t.root[k] in t.lvl && t.lvl[t.root[k]] == RootLevel(k)
    ensures Below(t, x, t.root[k]) <==> Pos(t, x).0 == k
  {
    assert Hangs(t, t.root[k], Root(k));
    PosFits(t, x);
    if Below(t, x, t.root[k]) { AncTop(t, x, RootLevel(k)); }
  }

  lemma TopsStep(t: Tree, k: nat)
    requires Inv(t) && k < SLOTS
    ensures Tops(t, k + 1) == Tops(t, k) + (if t.root[k] != 0 then Sub(t, t.root[k]) else {})
    ensures t.root[k] != 0 ==> Tops(t, k) !! Sub(t, t.root[k]) && t.root[k] in t.lvl && t.lvl[t.root[k]] == RootLevel(k)
  {
    forall x | x in t.lvl
      ensures x in Tops(t, k + 1) <==> x in Tops(t, k) + (if t.root[k] != 0 then Sub(t, t.root[k]) else {})
      ensures t.root[k] != 0 && x in Tops(t, k) ==> x !in Sub(t, t.root[k])
    {
      PosFits(t, x);
      if t.root[k] != 0 { SubOfRoot(t, k, x); }
    }
    if t.root[k] != 0 { assert Hangs(t, t.root[k], Root(k)); }
  }

  lemma TopsCount(t: Tree, k: nat)
    requires Inv(t) && k < SLOTS
    ensures |Tops(t, k + 1)| == |Tops(t, k)| + (if t.root[k] != 0 then |Sub(t, t.root[k])| else 0)
    ensures t.root[k] != 0 ==> t.root[k] in t.lvl && t.lvl[t.root[k]] == RootLevel(k)
    ensures t.root[k] != 0 && k < 12 ==> |Sub(t, t.root[k])| == 1
  {
    hide Sub, Tops, Pos;
    TopsStep(t, k);
    if t.root[k] != 0 && k < 12 { SubLeaf(t, t.root[k]); }
  }

  lemma TopsIn(t: Tree, k: nat)
    requires Inv(t)
    ensures Tops(t, k) <= t.lvl.Keys
  {
  }

  lemma TopsAll(t: Tree)
    requires Inv(t)
    ensures Tops(t, SLOTS) == t.lvl.Keys && Tops(t, 0) == {}
  {
    forall x | x in t.lvl ensures x in Tops(t, SLOTS) { PosFits(t, x); }
  }

  // ---- removing nodes ----

  /** Nodes were only removed: the others kept their place, and no block that holds no pointers changed. */
  ghost predicate Thinned(t0: Tree, t1: Tree) {
    && Inv(t0) && Inv(t1) && t1.p == t0.p && t1.lvl.Keys <= t0.lvl.Keys && t1.disk.Keys == t0.disk.Keys
    && (forall x :: x in t1.lvl ==> t1.lvl[x] == t0.lvl[x] && x in t0.parent && x in t1.parent && t1.parent[x] == t0.parent[x])
    && (forall b :: b in t0.disk && (b !in t0.lvl || t0.lvl[b] == 0) ==> t1.disk[b] == t0.disk[b])
  }

  /** What was removed, and only that, was freed. */
  ghost predicate Shrunk(t0: Tree, f0: set<nat>, t1: Tree, f1: set<nat>) {
    Thinned(t0, t1) && f1 == f0 + (t0.lvl.Keys - t1.lvl.Keys)
  }

  lemma ShrunkRefl(t: Tree, f: set<nat>)
    requires Inv(t)
    ensures Shrunk(t, f, t, f)
  {
    forall x | x in t.lvl ensures x in t.parent { assert GoodNode(t, x); }
  }

  lemma ShrunkTrans(t0: Tree, f0: set<nat>, t1: Tree, f1: set<nat>, t2: Tree, f2: set<nat>)
    requires Shrunk(t0, f0, t1, f1) && Shrunk(t1, f1, t2, f2)
    ensures Shrunk(t0, f0, t2, f2)
  {
  }

  /** Taking out one node that has nothing below it. */
  lemma UnlinkShrunk(t: Tree, f: set<nat>, slot: Slot)
    requires Inv(t) && SlotOk(t, slot) && Target(t, slot) != 0
    requires SlotLevel(t, slot) >= 1 ==> AllZero(t, Target(t, slot))
    ensures Shrunk(t, f, Unlink(t, slot), f + {Target(t, slot)})
    ensures Target(t, slot) in t.lvl && t.lvl[Target(t, slot)] == SlotLevel(t, slot)
  {
    UnlinkInv(t, slot);
    forall x | x in t.lvl ensures x in t.parent { assert GoodNode(t, x); }
  }

  lemma {:induction false} AncThinned(t0: Tree, t1: Tree, x: nat, m: nat)
    requires Thinned(t0, t1) && x in t1.lvl
    ensures Anc(t1, x, m) == Anc(t0, x, m)
    decreases 3 - t1.lvl[x]
  {
    assert GoodNode(t1, x);
    assert Hangs(t1, x, t1.parent[x]);
    if t1.lvl[x] < m && t1.parent[x].Kid? { AncThinned(t0, t1, t1.parent[x].b, m); }
  }

  // ---- pruning ----

  /** Outside the subtree of `b` nothing was removed or rewritten. */
  ghost predicate Untouched(t0: Tree, t1: Tree, b: nat) {
    forall x :: x in t0.lvl && !Below(t0, x, b) ==> x in t1.lvl && x in t0.disk && x in t1.disk && t1.disk[x] == t0.disk[x]
  }

  /** No indirect block below the first `i` pointers of `b` is empty. */
  ghost predicate Busy(t: Tree, b: nat, i: nat) {
    forall x :: x in t.lvl && t.lvl[x] >= 1 && BelowPart(t, x, b, i) ==> !AllZero(t, x)
  }

  /** The first `i` subtrees of `b` were pruned and freed, keeping the file as it was. */
  ghost predicate Pruned(t0: Tree, f0: set<nat>, t1: Tree, f1: set<nat>, b: nat, i: nat) {
    Shrunk(t0, f0, t1, f1) && SameFile(t0, t1) && b in t1.lvl && t1.lvl[b] >= 1 && Untouched(t0, t1, b) && Busy(t1, b, i)
  }

  lemma PrunedNone(t: Tree, f: set<nat>, b: nat)
    requires Inv(t) && b in t.lvl && t.lvl[b] >= 1
    ensures Pruned(t, f, t, f, b, 0)
  {
    ShrunkRefl(t, f);
    forall x | x in t.lvl ensures x in t.disk { assert GoodNode(t, x); }
  }

  /** A block whose pointers lead to data has no indirect blocks below it. */
  lemma PrunedLast(t: Tree, f: set<nat>, b: nat)
    requires Inv(t) && b in t.lvl && t.lvl[b] == 1
    ensures Pruned(t, f, t, f, b, t.p)
  {
    PrunedNone(t, f, b);
    forall x | x in t.lvl && BelowPart(t, x, b, t.p) ensures t.lvl[x] == 0 { BelowIsPart(t, x, b); }
  }

  lemma BusySkip(t: Tree, b: nat, i: nat)
    requires Inv(t) && b in t.lvl && t.lvl[b] >= 1 && i < t.p && Ptr(t, b, i) == 0 && Busy(t, b, i)
    ensures Busy(t, b, i + 1)
  {
    forall x | x in t.lvl && BelowPart(t, x, b, i + 1) ensures BelowPart(t, x, b, i) { PartNext(t, b, i, x); }
  }

  lemma {:induction false} BelowTrans(t: Tree, x: nat, c: nat, b: nat)
    requires Below(t, x, c) && Below(t, c, b) && c in t.parent && t.lvl[c] <= t.lvl[b] && Inv(t)
    ensures Below(t, x, b)
    decreases 3 - t.lvl[x]
  {
    assert GoodNode(t, x) && GoodNode(t, c);
    assert Hangs(t, x, t.parent[x]);
    if x != c { BelowTrans(t, t.parent[x].b, c, b); }
  }

  lemma ChildBelow(t: Tree, b: nat, i: nat)
    requires Inv(t) && b in t.lvl && t.lvl[b] >= 1 && i < t.p && Ptr(t, b, i) != 0
    ensures Hangs(t, Ptr(t, b, i), Kid(b, i)) && Below(t, Ptr(t, b, i), b) && !Below(t, b, Ptr(t, b, i))
  {
    var c := Ptr(t, b, i);
    assert Hangs(t, c, Kid(b, i));
    assert GoodNode(t, b) && GoodNode(t, c);
  }

  lemma UntouchedTrans(t0: Tree, t1: Tree, t2: Tree, b: nat, c: nat)
    requires Thinned(t0, t1) && Untouched(t0, t1, b) && Untouched(t1, t2, c) && b in t1.lvl && Below(t1, c, b)
    requires t1.lvl[c] <= t1.lvl[b]
    ensures Untouched(t0, t2, b)
  {
    assert GoodNode(t1, c) && GoodNode(t1, b);
    forall x | x in t0.lvl && !Below(t0, x, b) ensures x in t2.lvl && x in t2.disk && t2.disk[x] == t1.disk[x] {
      AncThinned(t0, t1, x, t1.lvl[b]);
      assert !Below(t1, x, c) by { if Below(t1, x, c) { BelowTrans(t1, x, c, b); } }
    }
  }

  /** The next subtree was pruned and something is left of it. */
  lemma BusyKept(t: Tree, f: set<nat>, t': Tree, f': set<nat>, b: nat, i: nat)
    requires Inv(t) && b in t.lvl && t.lvl[b] >= 2 && i < t.p && Ptr(t, b, i) != 0 && Busy(t, b, i)
    requires Pruned(t, f, t', f', Ptr(t, b, i), t.p) && !AllZero(t', Ptr(t, b, i))
    ensures Busy(t', b, i + 1)
  {
    var c := Ptr(t, b, i);
    ChildBelow(t, b, i);
    forall x | x in t'.lvl && t'.lvl[x] >= 1 && BelowPart(t', x, b, i + 1) ensures !AllZero(t', x) {
      BusyKeptAt(t, f, t', f', b, i, x);
    }
  }

  lemma BusyKeptAt(t: Tree, f: set<nat>, t': Tree, f': set<nat>, b: nat, i: nat, x: nat)
    requires Inv(t) && b in t.lvl && t.lvl[b] >= 2 && i < t.p && Ptr(t, b, i) != 0 && Busy(t, b, i)
    requires Pruned(t, f, t', f', Ptr(t, b, i), t.p)
    requires x in t'.lvl && t'.lvl[x] >= 1 && BelowPart(t', x, b, i + 1)
    ensures x == Ptr(t, b, i) || !AllZero(t', x)
  {
    var c := Ptr(t, b, i);
    var m := t'.lvl[b] - 1;
    AncThinned(t, t', x, m);
    AncThinned(t, t', x, m + 1);
    AncLevel(t', x, m);
    assert BelowPart(t, x, b, i + 1);
    PartNext(t, b, i, x);
    if Below(t, x, c) {
      BelowIsPart(t', x, c);
    } else {
      assert !AllZero(t, x);
      forall j | 0 <= j < t.p ensures Ptr(t', x, j) == Ptr(t, x, j) { }
    }
  }

  lemma SameFileTrans(t0: Tree, t1: Tree, t2: Tree)
    requires t0.p > 0 && t1.p == t0.p && t2.p == t0.p && |t0.root| == SLOTS == |t1.root| && |t2.root| == SLOTS
    requires SameFile(t0, t1) && SameFile(t1, t2)
    ensures SameFile(t0, t2)
  {
    hide Resolve, MaxBlocks;
  }

  /** The subtree behind pointer `i` of `b` was pruned and something is left of it. */
  lemma PruneKeep(t0: Tree, f0: set<nat>, t: Tree, f: set<nat>, t': Tree, f': set<nat>, b: nat, i: nat)
    requires Pruned(t0, f0, t, f, b, i) && t.lvl[b] >= 2 && i < t.p && Ptr(t, b, i) != 0
    requires Pruned(t, f, t', f', Ptr(t, b, i), t.p) && !AllZero(t', Ptr(t, b, i))
    ensures Pruned(t0, f0, t', f', b, i + 1)
  {
    hide SameFile, Busy, Untouched, AllZero;
    ChildBelow(t, b, i);
    BusyKept(t, f, t', f', b, i);
    SameFileTrans(t0, t, t');
    ShrunkTrans(t0, f0, t, f, t', f');
    UntouchedTrans(t0, t, t', b, Ptr(t, b, i));
    UntouchedStays(t, t', b, Ptr(t, b, i));
  }

  lemma UntouchedStays(t: Tree, t': Tree, b: nat, c: nat)
    requires Untouched(t, t', c) && b in t.lvl && !Below(t, b, c)
    ensures b in t'.lvl && b in t.disk && b in t'.disk && t'.disk[b] == t.disk[b]
  {
  }

  /** It is now empty: taking it out keeps everything. */
  lemma UnlinkUntouched(t: Tree, b: nat, i: nat)
    requires Inv(t) && SlotOk(t, Kid(b, i)) && Ptr(t, b, i) != 0
    ensures Untouched(t, Unlink(t, Kid(b, i)), b)
  {
    ChildBelow(t, b, i);
    assert GoodNode(t, b);
    forall x | x in t.lvl && !Below(t, x, b) ensures x in t.disk { assert GoodNode(t, x); }
  }

  lemma BusyDroppedAt(t: Tree, f: set<nat>, t': Tree, f': set<nat>, b: nat, i: nat, x: nat)
    requires Inv(t) && b in t.lvl && t.lvl[b] >= 2 && i < t.p && Ptr(t, b, i) != 0 && Busy(t, b, i)
    requires Pruned(t, f, t', f', Ptr(t, b, i), t.p) && AllZero(t', Ptr(t, b, i))
    requires SlotOk(t', Kid(b, i)) && Ptr(t', b, i) == Ptr(t, b, i)
    requires var t'' := Unlink(t', Kid(b, i)); x in t''.lvl && t''.lvl[x] >= 1 && BelowPart(t'', x, b, i + 1)
    ensures !AllZero(Unlink(t', Kid(b, i)), x)
  {
    hide Resolve, MaxBlocks, Inv, Busy, Untouched, SameFile, BelowPart;
    var t'' := Unlink(t', Kid(b, i));
    UnlinkShrunk(t', f', Kid(b, i));
    BelowPartThinned(t', t'', x, b, i + 1);
    BusyKeptAt(t, f, t', f', b, i, x);
    BelowPartLower(t'', x, b, i + 1);
    var j :| 0 <= j < t.p && Ptr(t', x, j) != 0;
    assert Ptr(t'', x, j) != 0;
  }

  lemma BusyDropped(t: Tree, f: set<nat>, t': Tree, f': set<nat>, b: nat, i: nat)
    requires Inv(t) && b in t.lvl && t.lvl[b] >= 2 && i < t.p && Ptr(t, b, i) != 0 && Busy(t, b, i)
    requires Pruned(t, f, t', f', Ptr(t, b, i), t.p) && AllZero(t', Ptr(t, b, i))
    requires SlotOk(t', Kid(b, i)) && Ptr(t', b, i) == Ptr(t, b, i)
    ensures Busy(Unlink(t', Kid(b, i)), b, i + 1)
  {
    hide Resolve, MaxBlocks, Inv, AllZero, Untouched, SameFile, BelowPart, Ptr;
    var t'' := Unlink(t', Kid(b, i));
    forall x | x in t''.lvl && t''.lvl[x] >= 1 && BelowPart(t'', x, b, i + 1) ensures !AllZero(t'', x) {
      BusyDroppedAt(t, f, t', f', b, i, x);
    }
  }

  lemma BelowPartLower(t: Tree, x: nat, b: nat, i: nat)
    requires Inv(t) && BelowPart(t, x, b, i)
    ensures t.lvl[x] < t.lvl[b] && x in t.disk
  {
    var c := Anc(t, x, t.lvl[b] - 1);
    assert GoodNode(t, c) && GoodNode(t, x);
    AncLevel(t, x, t.lvl[b] - 1);
  }

  lemma BelowPartThinned(t0: Tree, t1: Tree, x: nat, b: nat, i: nat)
    requires Thinned(t0, t1) && BelowPart(t1, x, b, i)
    ensures BelowPart(t0, x, b, i)
  {
    AncThinned(t0, t1, x, t1.lvl[b] - 1);
  }

  lemma PruneDrop(t0: Tree, f0: set<nat>, t: Tree, f: set<nat>, t': Tree, f': set<nat>, b: nat, i: nat)
    requires Pruned(t0, f0, t, f, b, i) && t.lvl[b] >= 2 && i < t.p && Ptr(t, b, i) != 0
    requires Pruned(t, f, t', f', Ptr(t, b, i), t.p) && AllZero(t', Ptr(t, b, i))
    requires SlotOk(t', Kid(b, i)) && Ptr(t', b, i) == Ptr(t, b, i)
    ensures Pruned(t0, f0, Unlink(t', Kid(b, i)), f' + {Ptr(t, b, i)}, b, i + 1)
  {
    hide SameFile, Busy, Untouched, AllZero;
    var t'' := Unlink(t', Kid(b, i));
    var f'' := f' + {Ptr(t, b, i)};
    ChildBelow(t, b, i);
    UnlinkShrunk(t', f', Kid(b, i));
    UnlinkEmpty(t', Kid(b, i));
    BusyDropped(t, f, t', f', b, i);
    SameFileTrans(t0, t, t');
    SameFileTrans(t0, t', t'');
    ShrunkTrans(t0, f0, t, f, t', f');
    ShrunkTrans(t0, f0, t', f', t'', f'');
    UntouchedTrans(t0, t, t', b, Ptr(t, b, i));
    UnlinkUntouched(t', b, i);
    assert Below(t', b, b) by { assert GoodNode(t', b); }
    UntouchedTrans(t0, t', t'', b, b);
  }

  /** No indirect block under the first `k` root pointers is empty. */
  ghost predicate BusyTops(t: Tree, k: nat)
    requires Inv(t)
  {
    forall x :: x in t.lvl && t.lvl[x] >= 1 && Pos(t, x).0 < k ==> !AllZero(t, x)
  }

  lemma BusyDirect(t: Tree)
    requires Inv(t)
    ensures BusyTops(t, 12)
  {
    forall x | x in t.lvl && t.lvl[x] >= 1 ensures Pos(t, x).0 >= 12 { PosFits(t, x); }
  }

  lemma BusyAll(t: Tree)
    requires Inv(t) && BusyTops(t, SLOTS)
    ensures forall x :: x in t.lvl && t.lvl[x] >= 1 ==> !AllZero(t, x)
  {
    forall x | x in t.lvl && t.lvl[x] >= 1 ensures !AllZero(t, x) { PosFits(t, x); }
  }

  lemma BusyTopsSkip(t: Tree, k: nat)
    requires Inv(t) && k < SLOTS && t.root[k] == 0 && BusyTops(t, k)
    ensures BusyTops(t, k + 1)
  {
    forall x | x in t.lvl ensures Pos(t, x).0 != k { PosFits(t, x); }
  }

  lemma {:induction false} PosThinned(t0: Tree, t1: Tree, x: nat)
    requires Thinned(t0, t1) && x in t1.lvl
    ensures Pos(t1, x) == Pos(t0, x)
    decreases 3 - t1.lvl[x]
  {
    hide ChildNumber, Ptr;
    assert GoodNode(t1, x);
    assert Hangs(t1, x, t1.parent[x]);
    if t1.parent[x].Kid? { PosThinned(t0, t1, t1.parent[x].b); }
  }

  lemma PruneRootAt(t: Tree, f: set<nat>, t': Tree, f': set<nat>, k: nat, x: nat)
    requires Inv(t) && k < SLOTS && t.root[k] != 0 && BusyTops(t, k) && t'.root == t.root
    requires Pruned(t, f, t', f', t.root[k], t.p)
    requires x in t'.lvl && t'.lvl[x] >= 1 && Pos(t', x).0 < k + 1
    ensures x == t.root[k] || !AllZero(t', x)
  {
    hide Resolve, MaxBlocks, SameFile, BelowPart;
    PosThinned(t, t', x);
    SubOfRoot(t, k, x);
    SubOfRoot(t', k, x);
    if Pos(t, x).0 == k {
      BelowIsPart(t', x, t.root[k]);
    } else {
      var j :| 0 <= j < t.p && Ptr(t, x, j) != 0;
      assert Ptr(t', x, j) != 0;
    }
  }

  lemma PruneRoot(t: Tree, f: set<nat>, t': Tree, f': set<nat>, k: nat)
    requires Inv(t) && k < SLOTS && t.root[k] != 0 && BusyTops(t, k) && t'.root == t.root
    requires Pruned(t, f, t', f', t.root[k], t.p) && !AllZero(t', t.root[k])
    ensures BusyTops(t', k + 1)
  {
    hide AllZero, Pos, SameFile, Busy, Untouched;
    forall x | x in t'.lvl && t'.lvl[x] >= 1 && Pos(t', x).0 < k + 1 ensures !AllZero(t', x) { PruneRootAt(t, f, t', f', k, x); }
  }

  /** A root subtree that became empty is taken out. */
  lemma DropRoot(t: Tree, f: set<nat>, t': Tree, f': set<nat>, k: nat)
    requires Inv(t) && 12 <= k < SLOTS && t.root[k] != 0 && BusyTops(t, k) && t'.root == t.root
    requires Pruned(t, f, t', f', t.root[k], t.p) && AllZero(t', t.root[k])
    ensures Inv(t') && SlotOk(t', Root(k)) && Inv(Unlink(t', Root(k))) && BusyTops(Unlink(t', Root(k)), k + 1)
    ensures Shrunk(t, f, Unlink(t', Root(k)), f' + {t.root[k]}) && SameFile(t, Unlink(t', Root(k)))
  {
    hide AllZero, Pos, SameFile, Busy;
    var t'' := Unlink(t', Root(k));
    UnlinkShrunk(t', f', Root(k));
    UnlinkEmpty(t', Root(k));
    ShrunkTrans(t, f, t', f', t'', f' + {t.root[k]});
    SameFileTrans(t, t', t'');
    forall x | x in t''.lvl && t''.lvl[x] >= 1 && Pos(t'', x).0 < k + 1 ensures !AllZero(t'', x) {
      PosThinned(t', t'', x);
      PruneRootAt(t, f, t', f', k, x);
      AllZeroDisk(t', t'', x);
    }
  }

  lemma AllZeroDisk(t: Tree, t': Tree, x: nat)
    requires t'.disk == t.disk && t'.p == t.p
    ensures AllZero(t', x) == AllZero(t, x)
  {
    assert forall i :: Ptr(t', x, i) == Ptr(t, x, i);
  }
}
