/** What allocating, clearing and pruning blocks does to the tree and to the file it stores. */
module BlockEdit {
  import opened Bytes
  import opened BlockTree
  import opened BlockSubtree

  /** The tree only grew, by blocks taken from the free set, keeping the file as it was; blocks of
      other files, and the data blocks of this one, keep their contents. */
  ghost predicate Grown(t0: Tree, free0: set<nat>, t1: Tree, free1: set<nat>) {
    && Inv(t0) && Inv(t1) && t0.p == t1.p
    && free1 <= free0
    && t0.lvl.Keys <= t1.lvl.Keys <= t0.lvl.Keys + (free0 - free1)
    && (forall x :: x in t0.lvl ==> t1.lvl[x] == t0.lvl[x])
    && t1.disk.Keys == t0.disk.Keys
    && (forall b :: b in t0.disk && b !in free0 && (b !in t0.lvl || t0.lvl[b] == 0) ==> t1.disk[b] == t0.disk[b])
    && SameFile(t0, t1)
  }

  lemma GrownRefl(t: Tree, free: set<nat>)
    requires Inv(t)
    ensures Grown(t, free, t, free)
  {
  }

  lemma GrownTrans(t0: Tree, f0: set<nat>, t1: Tree, f1: set<nat>, t2: Tree, f2: set<nat>)
    requires Grown(t0, f0, t1, f1) && Grown(t1, f1, t2, f2)
    requires forall f :: f in f0 ==> f !in t0.lvl
    ensures Grown(t0, f0, t2, f2)
  {
  }

  /** `(b, i)` is the entry of the last indirect block on the way to logical block `l`. */
  ghost predicate AtLeaf(t: Tree, l: nat, b: nat, i: nat) {
    && t.p > 0 && |t.root| == SLOTS && l >= 12
    && b in t.lvl && t.lvl[b] == 1 && Stored(t, b) && i < t.p
    && NodeAt(t, Locate(t.p, l).0, Locate(t.p, l).1, 1) == b && i == Index(t.p, Locate(t.p, l).1, 0)
  }

  /** The file maps `l` to `x` and everything else as before, on blocks that were free. */
  ghost predicate Allocated(t0: Tree, f0: set<nat>, t1: Tree, f1: set<nat>, l: nat, x: nat) {
    && Inv(t0) && Inv(t1) && t0.p == t1.p && x != 0 && x in t1.lvl && t1.lvl[x] == 0
    && f1 <= f0
    && t0.lvl.Keys <= t1.lvl.Keys <= t0.lvl.Keys + (f0 - f1)
    && (forall y :: y in t0.lvl ==> t1.lvl[y] == t0.lvl[y])
    && t1.disk.Keys == t0.disk.Keys
    && (forall b :: b in t0.disk && b !in f0 && (b !in t0.lvl || t0.lvl[b] == 0) ==> t1.disk[b] == t0.disk[b])
    && SameFileBut(t0, t1, l, x)
    && (if x in t0.lvl then t1 == t0 else l < MaxBlocks(t0.p) ==> Resolve(t0, l) == 0)
  }

  /** The slot holds the data pointer of logical block `l`. */
  ghost predicate LeadsTo(t: Tree, slot: Slot, l: nat) {
    && t.p > 0 && |t.root| == SLOTS && l < MaxBlocks(t.p) && SlotOk(t, slot) && SlotLevel(t, slot) == 0
    && Through(t, slot, Locate(t.p, l).0, Locate(t.p, l).1) && Target(t, slot) == Resolve(t, l)
  }

  /** The logical blocks of `[from, to)` became holes, the others are as before. */
  ghost predicate Cleared(t0: Tree, t1: Tree, from: nat, to: nat) {
    && t0.p > 0 && t1.p == t0.p && |t0.root| == SLOTS == |t1.root|
    && forall l :: 0 <= l < MaxBlocks(t0.p) ==> Resolve(t1, l) == if from <= l < to then 0 else Resolve(t0, l)
  }

  /** A mapped block is a data block of the tree; clearing a hole changes nothing. */
  lemma DataInTree(t: Tree, l: nat)
    requires Inv(t)
    ensures l < MaxBlocks(t.p) && Resolve(t, l) != 0 ==> Resolve(t, l) in t.lvl && t.lvl[Resolve(t, l)] == 0
    ensures l >= MaxBlocks(t.p) || Resolve(t, l) == 0 ==> Cleared(t, t, l, l + 1)
  {
    if l < MaxBlocks(t.p) && Resolve(t, l) != 0 { NodeLevel(t, Locate(t.p, l).0, Locate(t.p, l).1, 0); }
  }

  /** Clearing the pointer of `l` takes its data block out of the tree. */
  lemma ClearLogical(t: Tree, f: set<nat>, slot: Slot, l: nat)
    requires Inv(t) && LeadsTo(t, slot, l) && l < MaxBlocks(t.p)
    ensures SlotOk(t, slot) && Target(t, slot) == Resolve(t, l)
    ensures |Store(t, slot, 0).root| == SLOTS && Store(t, slot, 0).root[14] == t.root[14]
    ensures Resolve(t, l) == 0 ==> Store(t, slot, 0) == t
    ensures var x := Resolve(t, l);
      x != 0 ==> ClearedAs(t, f, Store(t, slot, 0).(lvl := t.lvl - {x}, parent := t.parent - {x}), l)
  {
    var x := Target(t, slot);
    if x == 0 {
      if slot.Kid? { PutSame(t.disk[slot.b], 4 * slot.i); }
    } else {
      UnlinkShrunk(t, f, slot);
      UnlinkData(t, slot, l);
      assert GoodNode(t, x);
    }
  }

  ghost predicate ClearedAs(t: Tree, f: set<nat>, t1: Tree, l: nat)
    requires Inv(t)
  {
    var x := Resolve(t, l);
    && Inv(t1) && Shrunk(t, f, t1, f + {x}) && Cleared(t, t1, l, l + 1) && 0 < x < U32 && Stored(t1, x)
    && (forall b :: Stored(t, b) ==> Stored(t1, b))
  }

  /** No indirect block of the tree is empty. */
  ghost predicate NoEmpty(t: Tree) { forall x :: x in t.lvl && t.lvl[x] >= 1 ==> !AllZero(t, x) }

  lemma NoEmptyAll(t: Tree)
    requires Inv(t) && BusyTops(t, SLOTS)
    ensures NoEmpty(t)
  {
    BusyAll(t);
  }

  lemma SameFileRefl(t: Tree)
    requires Inv(t)
    ensures SameFile(t, t)
  {
  }

  lemma ClearedRefl(t: Tree, from: nat, to: nat)
    requires Inv(t)
    ensures to <= from ==> Cleared(t, t, from, to)
  {
  }

  lemma ClearedTrans(t0: Tree, t1: Tree, t2: Tree, from: nat, lb: nat)
    requires Cleared(t0, t1, from, lb) && from <= lb && Cleared(t1, t2, lb, lb + 1)
    ensures Cleared(t0, t2, from, lb + 1)
  {
    hide Resolve, MaxBlocks;
  }

  /** Past the end of the tree there is nothing to clear. */
  lemma ClearedRest(t0: Tree, t1: Tree, from: nat, lb: nat, to: nat)
    requires Cleared(t0, t1, from, lb) && from <= lb <= to && lb >= MaxBlocks(t0.p)
    ensures Cleared(t0, t1, from, to)
  {
    hide Resolve, MaxBlocks;
  }

  lemma ClearedSame(t0: Tree, t1: Tree, t2: Tree, from: nat, to: nat)
    requires Cleared(t0, t1, from, to) && t2.p == t1.p && |t2.root| == SLOTS && SameFile(t1, t2)
    ensures Cleared(t0, t2, from, to)
  {
    hide Resolve, MaxBlocks;
  }

  lemma RootNode(t: Tree, k: nat)
    requires Inv(t) && k < SLOTS && t.root[k] != 0
    ensures t.root[k] in t.lvl && t.lvl[t.root[k]] == RootLevel(k) && Stored(t, t.root[k])
  {
    assert Hangs(t, t.root[k], Root(k));
    assert GoodNode(t, t.root[k]);
  }

  lemma PrunedParts(t: Tree, f: set<nat>, t': Tree, f': set<nat>, b: nat)
    requires Pruned(t, f, t', f', b, t.p)
    ensures Shrunk(t, f, t', f') && Inv(t') && SameFile(t, t')
  {
  }

  lemma DropRootOk(t: Tree, free: set<nat>, k: nat)
    requires Inv(t) && FreeOk(t, free) && k < SLOTS && t.root[k] != 0
    ensures t.root[k] in t.lvl && t.root[k] !in free && SlotOk(t, Root(k))
    ensures FreeOk(Unlink(t, Root(k)), free + {t.root[k]})
  {
    RootNode(t, k);
    assert GoodNode(t, t.root[k]);
  }

  /** The block is the array of these pointers. */
  ghost predicate Holds(d: Block, ptrs: seq<nat>) {
    |d| == 4 * |ptrs| && forall i :: 0 <= i < |ptrs| ==> ptrs[i] == Get32(d, 4 * i)
  }

  lemma HoldsAt(d: Block, ptrs: seq<nat>, i: nat)
    requires Holds(d, ptrs) && i < |ptrs|
    ensures |d| == 4 * |ptrs| && ptrs[i] == Get32(d, 4 * i)
  {
  }

  lemma HoldsAll(d: Block, ptrs: seq<nat>)
    requires Holds(d, ptrs)
    ensures forall i :: 0 <= i < |ptrs| ==> ptrs[i] < U32
  {
  }

  lemma HoldsPut(d: Block, ptrs: seq<nat>, i: nat)
    requires Holds(d, ptrs) && i < |ptrs|
    ensures 4 * i + 4 <= |d| && Holds(Put32(d, 4 * i, 0), ptrs[i := 0])
  {
    hide Put32, Get32;
  }

  lemma HoldsSame(a: Block, b: Block, ptrs: seq<nat>)
    requires Holds(a, ptrs) && Holds(b, ptrs)
    ensures a == b
  {
    SameWords(a, b, |ptrs|);
  }

  lemma HoldsPtr(t: Tree, b: nat, d: Block, ptrs: seq<nat>)
    requires Holds(d, ptrs) && |ptrs| == t.p && b in t.disk && t.disk[b] == d
    ensures forall i :: 0 <= i < t.p ==> Ptr(t, b, i) == ptrs[i]
  {
  }

  ghost predicate FreeOk(t: Tree, free: set<nat>) {
    forall f :: f in free ==> 0 < f < U32 && Stored(t, f) && f !in t.lvl
  }

  lemma NodesStored(t: Tree)
    requires Inv(t)
    ensures forall x :: x in t.lvl ==> 0 < x < U32 && Stored(t, x)
  {
    forall x | x in t.lvl ensures 0 < x < U32 && Stored(t, x) { assert GoodNode(t, x); }
  }

  /** The blocks still to be written are nodes deeper than `level`. */
  ghost predicate Above(pend: map<nat, Block>, lvl: map<nat, nat>, level: nat) {
    forall c :: c in pend ==> c in lvl && lvl[c] > level
  }

  /** The volume changed in the subtree of `b` only. */
  ghost predicate KeptOutside(t: Tree, disk0: map<nat, Block>, disk1: map<nat, Block>, b: nat) {
    disk1.Keys == disk0.Keys && forall c :: c in disk0 && !Below(t, c, b) ==> disk1[c] == disk0[c]
  }

  lemma KeptRefl(t: Tree, disk: map<nat, Block>, b: nat)
    ensures KeptOutside(t, disk, disk, b)
  {
  }

  lemma KeptWrite(t: Tree, disk0: map<nat, Block>, disk1: map<nat, Block>, disk2: map<nat, Block>, b: nat)
    requires Inv(t) && b in t.lvl && KeptOutside(t, disk0, disk1, b) && disk2.Keys == disk1.Keys
    requires forall c :: c in disk1 && c != b ==> disk2[c] == disk1[c]
    ensures KeptOutside(t, disk0, disk2, b)
  {
    assert GoodNode(t, b);
  }

  /** Rewriting the subtree of a child of `b` is rewriting the subtree of `b`, but not `b` itself. */
  lemma KeptChild(t0: Tree, f0: set<nat>, t: Tree, f: set<nat>, disk0: map<nat, Block>, disk1: map<nat, Block>,
      disk2: map<nat, Block>, b: nat, i: nat)
    requires Pruned(t0, f0, t, f, b, i) && i < t.p && Ptr(t, b, i) != 0 && b in disk1
    requires KeptOutside(t0, disk0, disk1, b) && KeptOutside(t, disk1, disk2, Ptr(t, b, i))
    ensures KeptOutside(t0, disk0, disk2, b) && b in disk2 && disk2[b] == disk1[b]
  {
    hide SameFile, Busy, Untouched, Resolve;
    ChildBelow(t, b, i);
    forall x | x in disk0 && !Below(t0, x, b) ensures !Below(t, x, Ptr(t, b, i)) { NotBelowChild(t0, t, b, Ptr(t, b, i), x); }
  }

  lemma NotBelowChild(t0: Tree, t: Tree, b: nat, c: nat, x: nat)
    requires Thinned(t0, t) && b in t.lvl && Below(t, c, b) && t.lvl[c] <= t.lvl[b] && !Below(t0, x, b)
    ensures !Below(t, x, c)
  {
    assert GoodNode(t, c);
    if Below(t, x, c) {
      BelowTrans(t, x, c, b);
      AncThinned(t0, t, x, t.lvl[b]);
    }
  }

  lemma PruneSkip(t0: Tree, f0: set<nat>, t: Tree, f: set<nat>, b: nat, i: nat)
    requires Pruned(t0, f0, t, f, b, i) && i < t.p && Ptr(t, b, i) == 0
    ensures Pruned(t0, f0, t, f, b, i + 1)
  {
    BusySkip(t, b, i);
  }

  /** Pruning below `c` keeps the nodes deeper than `c`. */
  lemma PrunedStays(t: Tree, f: set<nat>, t': Tree, f': set<nat>, c: nat, x: nat)
    requires Pruned(t, f, t', f', c, t.p) && c in t.lvl && x in t.lvl && t.lvl[x] > t.lvl[c]
    ensures x in t'.lvl && t'.lvl[x] == t.lvl[x]
  {
    assert GoodNode(t, c);
  }

  lemma ChildNode(t: Tree, b: nat, i: nat)
    requires Inv(t) && b in t.lvl && t.lvl[b] >= 1 && i < t.p && Ptr(t, b, i) != 0
    ensures Ptr(t, b, i) in t.lvl && t.lvl[Ptr(t, b, i)] == t.lvl[b] - 1 && Stored(t, Ptr(t, b, i)) && Stored(t, b)
    ensures 0 < Ptr(t, b, i) < U32 && Ptr(t, b, i) != b
  {
    assert Hangs(t, Ptr(t, b, i), Kid(b, i));
    assert GoodNode(t, Ptr(t, b, i)) && GoodNode(t, b);
  }

  lemma DropOk(t: Tree, free: set<nat>, b: nat, i: nat)
    requires Inv(t) && FreeOk(t, free) && SlotOk(t, Kid(b, i)) && Ptr(t, b, i) != 0
    requires (t.lvl[b] >= 2 ==> AllZero(t, Ptr(t, b, i)))
    ensures Inv(Unlink(t, Kid(b, i))) && 0 < Ptr(t, b, i) < U32 && Stored(t, Ptr(t, b, i)) && Ptr(t, b, i) != b
    ensures Ptr(t, b, i) in t.lvl && t.lvl[Ptr(t, b, i)] == t.lvl[b] - 1 && Ptr(t, b, i) !in free
    ensures FreeOk(Unlink(t, Kid(b, i)), free + {Ptr(t, b, i)})
  {
    ChildNode(t, b, i);
    UnlinkInv(t, Kid(b, i));
  }

  lemma NodeStored(t: Tree, b: nat)
    requires Inv(t) && b in t.lvl
    ensures Stored(t, b) && b != 0 && t.lvl[b] <= 3
  {
    assert GoodNode(t, b);
  }

  lemma AlreadyThere(t: Tree, free: set<nat>, l: nat)
    requires Inv(t) && l < MaxBlocks(t.p) && Resolve(t, l) != 0
    ensures Allocated(t, free, t, free, l, Resolve(t, l)) && Resolve(t, l) in t.lvl
  {
    NodeLevel(t, Locate(t.p, l).0, Locate(t.p, l).1, 0);
  }

  lemma ThroughTarget(t: Tree, slot: Slot, k: nat, off: nat)
    requires t.p > 0 && k < |t.root| && SlotOk(t, slot) && Through(t, slot, k, off)
    requires SlotLevel(t, slot) <= RootLevel(k)
    requires slot.Kid? ==> slot.b != 0
    ensures NodeAt(t, k, off, SlotLevel(t, slot)) == Target(t, slot)
  {
  }

  lemma NewOnPath(t0: Tree, slot: Slot, x: nat, k: nat, off: nat)
    requires Inv(t0) && SlotOk(t0, slot) && 0 < x < U32 && x !in t0.lvl && Stored(t0, x)
    requires k < SLOTS && SlotLevel(t0, slot) <= RootLevel(k) && Through(t0, slot, k, off)
    ensures var t := t0.(disk := t0.disk[x := Zeros(4 * t0.p)]);
      SlotOk(t, slot) && NodeAt(Link(t, slot, x), k, off, SlotLevel(t0, slot)) == x
  {
    assert |t0.root| == SLOTS && t0.p > 0;
    hide Inv, Index, SameFile, Resolve, NodeAt;
    var z := Zeros(4 * t0.p);
    DataWrite(t0, x, z);
    if slot.Kid? { DataWriteNode(t0, x, z, k, off, t0.lvl[slot.b]); }
    LinkOnPath(t0.(disk := t0.disk[x := z]), slot, x, k, off);
  }

  lemma LinkOnPath(t: Tree, slot: Slot, x: nat, k: nat, off: nat)
    requires Inv(t) && SlotOk(t, slot) && x < U32 && k < SLOTS && SlotLevel(t, slot) <= RootLevel(k)
    requires |t.root| == SLOTS && t.p > 0 && Through(t, slot, k, off)
    ensures NodeAt(Link(t, slot, x), k, off, SlotLevel(t, slot)) == x
  {
    hide Inv, Index, NodeAt, Put32, Ptr;
    StoreNodeAt(t, slot, x, k, off, SlotLevel(t, slot));
    NodeAtPointers(Store(t, slot, x), Link(t, slot, x), k, off, SlotLevel(t, slot));
  }

  lemma FreeDisjoint(t: Tree, free: set<nat>)
    requires FreeOk(t, free)
    ensures forall f :: f in free ==> f !in t.lvl
  {
  }

  lemma FreshData(t: Tree, free: set<nat>, x: nat, d: Block)
    requires Inv(t) && FreeOk(t, free) && x in free && |d| == 4 * t.p
    ensures Grown(t, free, t.(disk := t.disk[x := d]), free - {x}) && Inv(t.(disk := t.disk[x := d]))
    ensures FreeOk(t.(disk := t.disk[x := d]), free - {x})
  {
    DataWrite(t, x, d);
  }

  /** Hanging the new data block in its slot completes the allocation. */
  lemma HangData(t0: Tree, f0: set<nat>, t2: Tree, f2: set<nat>, slot: Slot, l: nat, x: nat)
    requires Grown(t0, f0, t2, f2) && x in f0 && x !in f2 && x !in t0.lvl && x !in t2.lvl && Stored(t2, x)
    requires 0 < x < U32
    requires forall f :: f in f0 ==> f !in t0.lvl
    requires SlotOk(t2, slot) && SlotLevel(t2, slot) == 0 && Target(t2, slot) == 0 && l < MaxBlocks(t0.p)
    requires Resolve(t0, l) == 0
    requires Through(t2, slot, Locate(t0.p, l).0, Locate(t0.p, l).1)
    ensures Allocated(t0, f0, Link(t2, slot, x), f2, l, x)
  {
    LinkData(t2, slot, x, l);
  }

  lemma GrownFile(t0: Tree, f0: set<nat>, t1: Tree, f1: set<nat>, l: nat)
    requires Grown(t0, f0, t1, f1)
    ensures Inv(t0) && Inv(t1) && t0.p == t1.p > 0 && |t0.root| == SLOTS == |t1.root|
    ensures l < MaxBlocks(t0.p) ==> Resolve(t1, l) == Resolve(t0, l)
  {
  }

  lemma DirectSlot(t: Tree, l: nat)
    requires Inv(t) && l < 12
    ensures t.p > 0 && |t.root| == SLOTS && l < MaxBlocks(t.p) && SlotOk(t, Root(l)) && SlotLevel(t, Root(l)) == 0
    ensures Target(t, Root(l)) == Resolve(t, l) && Through(t, Root(l), Locate(t.p, l).0, Locate(t.p, l).1)
  {
  }

  lemma DirectLeaf(t0: Tree, f0: set<nat>, t1: Tree, l: nat, x: nat)
    requires Grown(t0, f0, t1, f0 - {x}) && x in f0 && x !in t1.lvl && t1.lvl == t0.lvl && Stored(t1, x) && 0 < x < U32
    requires forall f :: f in f0 ==> f !in t0.lvl
    requires l < 12 && (l < MaxBlocks(t0.p) ==> Resolve(t0, l) == 0)
    ensures l < MaxBlocks(t0.p) && SlotOk(t1, Root(l)) && Target(t1, Root(l)) == 0 && SlotLevel(t1, Root(l)) == 0
    ensures Allocated(t0, f0, Link(t1, Root(l), x), f0 - {x}, l, x)
  {
    hide *;
    GrownFile(t0, f0, t1, f0 - {x}, l);
    DirectSlot(t1, l);
    HangData(t0, f0, t1, f0 - {x}, Root(l), l, x);
  }

  lemma IndirectLeaf(t0: Tree, f0: set<nat>, t1: Tree, f1: set<nat>, t2: Tree, f2: set<nat>, l: nat, b: nat, i: nat,
      x: nat)
    requires Grown(t0, f0, t2, f2) && Grown(t1, f1, t2, f2) && f1 == f0 - {x} && t1.lvl == t0.lvl
    requires x in f0 && x !in t0.lvl && Stored(t1, x) && 0 < x < U32 && (forall f :: f in f0 ==> f !in t0.lvl)
    requires l < MaxBlocks(t0.p) && AtLeaf(t2, l, b, i) && Resolve(t0, l) == 0
    ensures SlotOk(t2, Kid(b, i)) && Target(t2, Kid(b, i)) == 0 && SlotLevel(t2, Kid(b, i)) == 0
    ensures x !in t2.lvl && x !in f2 && Stored(t2, x) && t2.disk[x] == t1.disk[x] && x != b
    ensures Allocated(t0, f0, Link(t2, Kid(b, i), x), f2, l, x)
  {
    assert Resolve(t2, l) == 0;
    NodeLevel(t2, Locate(t2.p, l).0, Locate(t2.p, l).1, 1);
    HangData(t0, f0, t2, f2, Kid(b, i), l, x);
  }

  lemma HangGrown(t0: Tree, f0: set<nat>, t: Tree, slot: Slot, x: nat)
    requires Grown(t0, f0, t, f0 - {x}) && x in f0 && x !in t.lvl && t.lvl == t0.lvl
    requires Inv(t) && SlotOk(t, slot) && Target(t, slot) == 0 && 0 < x < U32 && Stored(t, x)
    requires SlotLevel(t, slot) >= 1 && AllZero(t, x)
    ensures Grown(t0, f0, Link(t, slot, x), f0 - {x})
  {
    LinkEmpty(t, slot, x);
  }

  /** Overwriting a block that holds no pointers of the tree leaves the tree and the file alone. */
  lemma DataWrite(t: Tree, b: nat, d: Block)
    requires Inv(t) && |d| == 4 * t.p && (b !in t.lvl || t.lvl[b] == 0) && Stored(t, b)
    ensures Inv(t.(disk := t.disk[b := d])) && SameFile(t, t.(disk := t.disk[b := d]))
  {
    var t' := t.(disk := t.disk[b := d]);
    forall x, i | x in t.lvl && t.lvl[x] >= 1 && 0 <= i < t.p ensures Ptr(t', x, i) == Ptr(t, x, i) { }
    forall x | x in t'.lvl ensures GoodNode(t', x) { assert GoodNode(t, x); }
    forall l | 0 <= l < MaxBlocks(t.p) ensures Resolve(t', l) == Resolve(t, l) {
      DataWriteNode(t, b, d, Locate(t.p, l).0, Locate(t.p, l).1, 0);
    }
  }

  lemma {:induction false} DataWriteNode(t: Tree, b: nat, d: Block, k: nat, off: nat, level: nat)
    requires Inv(t) && (b !in t.lvl || t.lvl[b] == 0) && k < SLOTS && level <= RootLevel(k)
    ensures NodeAt(t.(disk := t.disk[b := d]), k, off, level) == NodeAt(t, k, off, level)
    decreases RootLevel(k) - level
  {
    if level < RootLevel(k) {
      DataWriteNode(t, b, d, k, off, level + 1);
      NodeLevel(t, k, off, level + 1);
    }
  }
}
