/** The block-pointer tree of an ext2 inode: 12 direct pointers and one tree each of depth 1, 2 and
    3.  `lvl` and `parent` say, of every block of the tree, how deep it is and which slot points to
    it; the invariant ties them to the pointers stored on disk, so no block is reached twice. */
module BlockTree {
  import opened Bytes

  type Block = seq<Byte>

  /** A place that holds a block pointer. */
  datatype Slot = Root(k: nat) | Kid(b: nat, i: nat)

  datatype Tree = Tree(p: nat, disk: map<nat, Block>, root: seq<nat>, lvl: map<nat, nat>, parent: map<nat, Slot>)

  const SLOTS: nat := 15

  /** How many logical blocks a node of this depth covers. */
  function Cap(p: nat, level: nat): nat { if level == 0 then 1 else p * Cap(p, level - 1) }

  function RootLevel(k: nat): nat { if k < 12 then 0 else k - 11 }

  function Ptr(t: Tree, b: nat, i: nat): nat {
    if b in t.disk && 4 * i + 4 <= |t.disk[b]| then Get32(t.disk[b], 4 * i) else 0
  }

  predicate AllZero(t: Tree, b: nat) { forall i :: 0 <= i < t.p ==> Ptr(t, b, i) == 0 }

  // ---- resolution ----

  /** The block of depth `level` on the way to offset `off` under root pointer `k`; 0 for a hole. */
  function NodeAt(t: Tree, k: nat, off: nat, level: nat): nat
    requires t.p > 0 && k < |t.root| && level <= RootLevel(k)
    decreases RootLevel(k) - level
  {
    if level == RootLevel(k) then t.root[k]
    else
      var b := NodeAt(t, k, off, level + 1);
      if b == 0 then 0 else Ptr(t, b, Index(t.p, off, level))
  }

  /** The index used to step from depth `level + 1` down to `level`. */
  function Index(p: nat, off: nat, level: nat): (i: nat)
    requires p > 0
    ensures i < p
  {
    CapPositive(p, level);
    off / Cap(p, level) % p
  }

  lemma {:induction false} CapPositive(p: nat, level: nat)
    requires p > 0
    ensures Cap(p, level) > 0
  {
    if level > 0 { CapPositive(p, level - 1); MulPositive(p, Cap(p, level - 1)); }
  }

  lemma MulPositive(a: nat, b: nat)
    requires a > 0 && b > 0
    ensures a * b > 0
  {
  }

  /** Which root pointer covers logical block `l`, and the offset under it. */
  function Locate(p: nat, l: nat): (nat, nat) {
    if l < 12 then (l, 0)
    else if l < 12 + p then (12, l - 12)
    else if l < 12 + p + p * p then (13, l - 12 - p)
    else (14, l - 12 - p - p * p)
  }

  function MaxBlocks(p: nat): nat { 12 + p + p * p + p * p * p }

  function Resolve(t: Tree, l: nat): nat
    requires t.p > 0 && |t.root| == SLOTS
  {
    var (k, off) := Locate(t.p, l);
    NodeAt(t, k, off, 0)
  }

  lemma LocateFits(p: nat, l: nat)
    requires p > 0 && l < MaxBlocks(p)
    ensures Locate(p, l).0 < SLOTS && Locate(p, l).1 < Cap(p, RootLevel(Locate(p, l).0))
  {
    assert Cap(p, 0) == 1 && Cap(p, 1) == p && Cap(p, 2) == p * p && Cap(p, 3) == p * (p * p);
    assert p * (p * p) == p * p * p;
  }

  lemma LocateInjective(p: nat, l1: nat, l2: nat)
    requires Locate(p, l1) == Locate(p, l2)
    ensures l1 == l2
  {
  }

  // ---- the invariant ----

  predicate Stored(t: Tree, b: nat) { b in t.disk && |t.disk[b]| == 4 * t.p }

  /** `x` is recorded under `slot`, one level above it. */
  predicate Hangs(t: Tree, x: nat, slot: Slot) {
    x in t.lvl && x in t.parent && t.parent[x] == slot &&
    match slot
    case Root(k) => k < |t.root| && t.lvl[x] == RootLevel(k) && t.root[k] == x
    case Kid(b, i) => b in t.lvl && t.lvl[b] == t.lvl[x] + 1 && i < t.p && Ptr(t, b, i) == x
  }

  predicate GoodNode(t: Tree, x: nat) {
    x in t.lvl && 0 < x < U32 && t.lvl[x] <= 3 && Stored(t, x) && x in t.parent && Hangs(t, x, t.parent[x])
  }

  ghost predicate RootsHang(t: Tree) {
    forall k :: 0 <= k < |t.root| && t.root[k] != 0 ==> Hangs(t, t.root[k], Root(k))
  }

  ghost predicate KidsHang(t: Tree) {
    forall b, i :: b in t.lvl && t.lvl[b] >= 1 && 0 <= i < t.p && Ptr(t, b, i) != 0 ==> Hangs(t, Ptr(t, b, i), Kid(b, i))
  }

  ghost predicate Inv(t: Tree) {
    && t.p > 0 && |t.root| == SLOTS && RootsHang(t) && KidsHang(t)
    && (forall x :: x in t.lvl ==> GoodNode(t, x))
  }

  lemma {:induction false} NodeLevel(t: Tree, k: nat, off: nat, level: nat)
    requires Inv(t) && k < SLOTS && level <= RootLevel(k)
    ensures var x := NodeAt(t, k, off, level); x != 0 ==> x in t.lvl && t.lvl[x] == level
    decreases RootLevel(k) - level
  {
    if level < RootLevel(k) {
      NodeLevel(t, k, off, level + 1);
      var b := NodeAt(t, k, off, level + 1);
      if b != 0 && Ptr(t, b, Index(t.p, off, level)) != 0 {
        assert Hangs(t, Ptr(t, b, Index(t.p, off, level)), Kid(b, Index(t.p, off, level)));
      }
    } else if t.root[k] != 0 {
      assert Hangs(t, t.root[k], Root(k));
    }
  }

  // ---- every block has one position ----

  /** The root pointer above `x` and the number of `x` among the nodes of its depth. */
  ghost function Pos(t: Tree, x: nat): (nat, nat)
    requires Inv(t) && x in t.lvl
    decreases 3 - t.lvl[x]
  {
    assert Hangs(t, x, t.parent[x]);
    match t.parent[x]
    case Root(k) => (k, 0)
    case Kid(b, i) => var (k, j) := Pos(t, b); (k, ChildNumber(j, t.p, i))
  }

  /** The number of child `i` of node `j`. */
  function ChildNumber(j: nat, p: nat, i: nat): nat { j * p + i }

  lemma DivDiv(x: nat, c: nat, p: nat)
    requires c > 0 && p > 0
    ensures p * c > 0 && x / c / p == x / (p * c)
  {
    var q, r := x / c, x % c;
    var q2, r2 := q / p, q % p;
    MulPositive(p, c);
    DivMod(x, c);
    DivMod(q, p);
    Regroup(q2, p, r2, c);
    Regroup(1, p - 1, 1, c);
    MulBound(r2, p - 1, c);
    DivUnique(x, p * c, q2, c * r2 + r);
  }

  lemma DivMod(x: nat, d: nat)
    requires d > 0
    ensures x == x / d * d + x % d && x % d < d
  {
  }

  lemma Regroup(a: nat, b: nat, e: nat, c: nat)
    ensures (a * b + e) * c == a * (b * c) + c * e
  {
  }

  lemma MulBound(a: int, b: int, c: nat)
    requires 0 <= a <= b
    ensures 0 <= c * a <= c * b
  {
  }

  lemma DivUnique(x: nat, d: nat, q: nat, r: nat)
    requires d > 0 && x == q * d + r && r < d
    ensures x / d == q
  {
    if x / d < q { MulBound(x / d, q - 1, d); } else if x / d > q { MulBound(q + 1, x / d, d); }
  }

  lemma IndexStep(p: nat, off: nat, level: nat)
    requires p > 0
    ensures Cap(p, level) > 0 && Cap(p, level + 1) > 0
    ensures off / Cap(p, level) == off / Cap(p, level + 1) * p + Index(p, off, level)
  {
    CapPositive(p, level);
    CapPositive(p, level + 1);
    DivDiv(off, Cap(p, level), p);
  }

  lemma ChildPos(t: Tree, b: nat, i: nat, x: nat)
    requires Inv(t) && b in t.lvl && Hangs(t, x, Kid(b, i))
    ensures x in t.lvl && Pos(t, x) == (Pos(t, b).0, ChildNumber(Pos(t, b).1, t.p, i))
  {
    hide Inv, Ptr, ChildNumber;
  }

  lemma {:induction false} PosOnPath(t: Tree, k: nat, off: nat, level: nat)
    requires Inv(t) && k < SLOTS && level <= RootLevel(k) && off < Cap(t.p, RootLevel(k))
    requires NodeAt(t, k, off, level) in t.lvl
    ensures Cap(t.p, level) > 0 && Pos(t, NodeAt(t, k, off, level)) == (k, off / Cap(t.p, level))
    decreases RootLevel(k) - level
  {
    CapPositive(t.p, level);
    var x := NodeAt(t, k, off, level);
    if level == RootLevel(k) {
      assert Hangs(t, x, Root(k));
      DivUnique(off, Cap(t.p, level), 0, off);
    } else {
      var b := NodeAt(t, k, off, level + 1);
      NodeLevel(t, k, off, level + 1);
      PosOnPath(t, k, off, level + 1);
      assert Hangs(t, x, Kid(b, Index(t.p, off, level)));
      ChildPos(t, b, Index(t.p, off, level), x);
      IndexStep(t.p, off, level);
    }
  }

  // ---- storing a pointer ----

  predicate SlotOk(t: Tree, slot: Slot) {
    match slot
    case Root(k) => k < |t.root|
    case Kid(b, i) => b in t.lvl && t.lvl[b] >= 1 && i < t.p && Stored(t, b)
  }

  /** The depth of what the slot points to, and what it points to now. */
  function SlotLevel(t: Tree, slot: Slot): nat
    requires SlotOk(t, slot)
  {
    match slot case Root(k) => RootLevel(k) case Kid(b, _) => t.lvl[b] - 1
  }

  function Target(t: Tree, slot: Slot): nat
    requires SlotOk(t, slot)
  {
    match slot case Root(k) => t.root[k] case Kid(b, i) => Ptr(t, b, i)
  }

  function Store(t: Tree, slot: Slot, x: nat): Tree
    requires SlotOk(t, slot) && x < U32
  {
    match slot
    case Root(k) => t.(root := t.root[k := x])
    case Kid(b, i) => t.(disk := t.disk[b := Put32(t.disk[b], 4 * i, x)])
  }

  lemma StorePtr(t: Tree, slot: Slot, x: nat, b: nat, i: nat)
    requires SlotOk(t, slot) && x < U32 && i < t.p
    ensures Ptr(Store(t, slot, x), b, i) == if slot == Kid(b, i) then x else Ptr(t, b, i)
  {
  }

  /** The way to `off` under root pointer `k` leads through the slot. */
  predicate Through(t: Tree, slot: Slot, k: nat, off: nat)
    requires t.p > 0 && k < |t.root| && SlotOk(t, slot)
  {
    match slot
    case Root(k') => k == k'
    case Kid(b, i) => t.lvl[b] <= RootLevel(k) && NodeAt(t, k, off, t.lvl[b]) == b && Index(t.p, off, t.lvl[b] - 1) == i
  }

  /** Storing `x` in a slot changes the way to exactly the offsets that lead through it. */
  lemma {:induction false} StoreNodeAt(t: Tree, slot: Slot, x: nat, k: nat, off: nat, level: nat)
    requires Inv(t) && SlotOk(t, slot) && x < U32 && k < SLOTS && level <= RootLevel(k)
    ensures !Through(t, slot, k, off) || level > SlotLevel(t, slot) ==>
              NodeAt(Store(t, slot, x), k, off, level) == NodeAt(t, k, off, level)
    ensures Through(t, slot, k, off) && level == SlotLevel(t, slot) ==> NodeAt(Store(t, slot, x), k, off, level) == x
    decreases RootLevel(k) - level
  {
    assert |t.root| == SLOTS && (slot.Kid? ==> GoodNode(t, slot.b));
    hide Inv, Index, Put32, Hangs;
    if level < RootLevel(k) {
      StoreNodeAt(t, slot, x, k, off, level + 1);
      NodeLevel(t, k, off, level + 1);
      StorePtr(t, slot, x, NodeAt(t, k, off, level + 1), Index(t.p, off, level));
    }
  }

  /** Below a hole, or below a block of zeros, there are only holes. */
  lemma {:induction false} HolesBelow(t: Tree, k: nat, off: nat, top: nat, level: nat)
    requires t.p > 0 && k < |t.root| && level < top <= RootLevel(k)
    requires NodeAt(t, k, off, top) == 0 || AllZero(t, NodeAt(t, k, off, top))
    ensures NodeAt(t, k, off, level) == 0
    decreases top - level
  {
    if level + 1 < top { HolesBelow(t, k, off, top, level + 1); }
  }

  /** Storing a hole or an empty indirect block where there was one or the other changes no resolution. */
  lemma StoreEmpty(t: Tree, slot: Slot, x: nat, l: nat)
    requires Inv(t) && SlotOk(t, slot) && x < U32 && SlotLevel(t, slot) >= 1 && l < MaxBlocks(t.p)
    requires Target(t, slot) == 0 || AllZero(t, Target(t, slot))
    requires x == 0 || (AllZero(t, x) && slot != Kid(x, 0) && (slot.Kid? ==> slot.b != x))
    ensures Resolve(Store(t, slot, x), l) == Resolve(t, l)
  {
    var (k, off) := Locate(t.p, l);
    LocateFits(t.p, l);
    var t' := Store(t, slot, x);
    StoreNodeAt(t, slot, x, k, off, 0);
    if Through(t, slot, k, off) {
      var m := SlotLevel(t, slot);
      StoreNodeAt(t, slot, x, k, off, m);
      assert NodeAt(t, k, off, m) == Target(t, slot);
      assert x != 0 ==> AllZero(t', x) by { forall i | 0 <= i < t.p ensures x != 0 ==> Ptr(t', x, i) == 0 { StorePtr(t, slot, x, x, i); } }
      HolesBelow(t, k, off, m, 0);
      HolesBelow(t', k, off, m, 0);
    }
  }

  /** A slot for data is on the way to one logical block only. */
  lemma DataSlotUnique(t: Tree, slot: Slot, l1: nat, l2: nat)
    requires Inv(t) && SlotOk(t, slot) && SlotLevel(t, slot) == 0 && l1 < MaxBlocks(t.p) && l2 < MaxBlocks(t.p)
    requires Through(t, slot, Locate(t.p, l1).0, Locate(t.p, l1).1)
    requires Through(t, slot, Locate(t.p, l2).0, Locate(t.p, l2).1)
    ensures l1 == l2
  {
    assert t.p > 0 && |t.root| == SLOTS && Cap(t.p, 0) == 1;
    hide Inv, Locate, MaxBlocks, Pos, NodeAt, Index, Cap, Ptr;
    var (k1, off1) := Locate(t.p, l1);
    var (k2, off2) := Locate(t.p, l2);
    LocateFits(t.p, l1);
    LocateFits(t.p, l2);
    if slot.Kid? {
      PosOnPath(t, k1, off1, 1);
      PosOnPath(t, k2, off2, 1);
      IndexStep(t.p, off1, 0);
      IndexStep(t.p, off2, 0);
    }
    LocateInjective(t.p, l1, l2);
  }

  /** Storing a data pointer changes the resolution of the one logical block behind the slot. */
  lemma StoreData(t: Tree, slot: Slot, x: nat, l: nat, l': nat)
    requires Inv(t) && SlotOk(t, slot) && x < U32 && SlotLevel(t, slot) == 0 && l < MaxBlocks(t.p)
    requires l' < MaxBlocks(t.p)
    requires Through(t, slot, Locate(t.p, l).0, Locate(t.p, l).1)
    ensures Resolve(Store(t, slot, x), l') == if l' == l then x else Resolve(t, l')
  {
    var (k, off) := Locate(t.p, l');
    StoreNodeAt(t, slot, x, k, off, 0);
    if Through(t, slot, k, off) { DataSlotUnique(t, slot, l, l'); }
  }

  // ---- hanging a block in the tree and taking it out ----

  function Link(t: Tree, slot: Slot, x: nat): Tree
    requires SlotOk(t, slot) && x < U32
  {
    Store(t, slot, x).(lvl := t.lvl[x := SlotLevel(t, slot)], parent := t.parent[x := slot])
  }

  lemma LinkTarget(t: Tree, slot: Slot, x: nat)
    requires SlotOk(t, slot) && x < U32 && x !in t.lvl
    ensures var t' := Link(t, slot, x);
      && SlotOk(t', slot) && Target(t', slot) == x && t'.lvl == t.lvl[x := SlotLevel(t, slot)] && t'.parent == t.parent[x := slot]
      && |t'.root| == |t.root| && t'.p == t.p
      && forall b :: b in t.disk && (b !in t.lvl || t.lvl[b] == 0) ==> b in t'.disk && t'.disk[b] == t.disk[b]
  {
  }

  function Unlink(t: Tree, slot: Slot): Tree
    requires SlotOk(t, slot)
  {
    Store(t, slot, 0).(lvl := t.lvl - {Target(t, slot)}, parent := t.parent - {Target(t, slot)})
  }

  lemma LinkHangs(t: Tree, slot: Slot, x: nat, y: nat, s: Slot)
    requires Hangs(t, y, s) && SlotOk(t, slot) && 0 < x < U32 && y != x && s != slot
    requires s.Kid? ==> s.b != x
    ensures Hangs(Link(t, slot, x), y, s)
  {
    if s.Kid? { StorePtr(t, slot, x, s.b, s.i); }
  }

  lemma LinkNode(t: Tree, slot: Slot, x: nat, y: nat)
    requires Inv(t) && SlotOk(t, slot) && Target(t, slot) == 0 && 0 < x < U32 && x !in t.lvl && Stored(t, x)
    requires y in Link(t, slot, x).lvl && SlotLevel(t, slot) <= 3
    ensures GoodNode(Link(t, slot, x), y)
  {
    if y == x {
      if slot.Kid? { StorePtr(t, slot, x, slot.b, slot.i); }
    } else {
      assert GoodNode(t, y);
      LinkHangs(t, slot, x, y, t.parent[y]);
    }
  }

  lemma LinkKid(t: Tree, slot: Slot, x: nat, b: nat, i: nat)
    requires Inv(t) && SlotOk(t, slot) && Target(t, slot) == 0 && 0 < x < U32 && x !in t.lvl && Stored(t, x)
    requires SlotLevel(t, slot) >= 1 ==> AllZero(t, x)
    requires var t' := Link(t, slot, x); b in t'.lvl && t'.lvl[b] >= 1 && i < t.p && Ptr(t', b, i) != 0
    ensures Hangs(Link(t, slot, x), Ptr(Link(t, slot, x), b, i), Kid(b, i))
  {
    StorePtr(t, slot, x, b, i);
    if slot != Kid(b, i) {
      assert Hangs(t, Ptr(t, b, i), Kid(b, i));
      LinkHangs(t, slot, x, Ptr(t, b, i), Kid(b, i));
    }
  }

  lemma LinkInv(t: Tree, slot: Slot, x: nat)
    requires Inv(t) && SlotOk(t, slot) && Target(t, slot) == 0 && 0 < x < U32 && x !in t.lvl && Stored(t, x)
    requires SlotLevel(t, slot) >= 1 ==> AllZero(t, x)
    ensures Inv(Link(t, slot, x))
  {
    var t' := Link(t, slot, x);
    forall y | y in t'.lvl ensures GoodNode(t', y) { LinkNode(t, slot, x, y); }
    forall b, i | b in t'.lvl && t'.lvl[b] >= 1 && 0 <= i < t'.p && Ptr(t', b, i) != 0
      ensures Hangs(t', Ptr(t', b, i), Kid(b, i))
    {
      LinkKid(t, slot, x, b, i);
    }
    forall k | 0 <= k < |t'.root| && t'.root[k] != 0 ensures Hangs(t', t'.root[k], Root(k)) {
      if slot != Root(k) { LinkHangs(t, slot, x, t.root[k], Root(k)); }
    }
  }

  lemma UnlinkHangs(t: Tree, slot: Slot, y: nat, s: Slot)
    requires Hangs(t, y, s) && SlotOk(t, slot) && y != Target(t, slot) && s != slot
    requires s.Kid? ==> s.b != Target(t, slot)
    ensures Hangs(Unlink(t, slot), y, s)
  {
    if s.Kid? { StorePtr(t, slot, 0, s.b, s.i); }
  }

  lemma UnlinkNode(t: Tree, slot: Slot, y: nat)
    requires Inv(t) && SlotOk(t, slot) && Hangs(t, Target(t, slot), slot) && y in Unlink(t, slot).lvl
    requires SlotLevel(t, slot) >= 1 ==> AllZero(t, Target(t, slot))
    ensures GoodNode(Unlink(t, slot), y)
  {
    assert GoodNode(t, y);
    UnlinkHangs(t, slot, y, t.parent[y]);
  }

  lemma UnlinkKid(t: Tree, slot: Slot, b: nat, i: nat)
    requires Inv(t) && SlotOk(t, slot) && Hangs(t, Target(t, slot), slot)
    requires var t' := Unlink(t, slot); b in t'.lvl && t'.lvl[b] >= 1 && i < t.p && Ptr(t', b, i) != 0
    ensures Hangs(Unlink(t, slot), Ptr(Unlink(t, slot), b, i), Kid(b, i))
  {
    StorePtr(t, slot, 0, b, i);
    assert Hangs(t, Ptr(t, b, i), Kid(b, i));
    UnlinkHangs(t, slot, Ptr(t, b, i), Kid(b, i));
  }

  lemma UnlinkInv(t: Tree, slot: Slot)
    requires Inv(t) && SlotOk(t, slot) && Target(t, slot) != 0
    requires SlotLevel(t, slot) >= 1 ==> AllZero(t, Target(t, slot))
    ensures Inv(Unlink(t, slot))
    ensures Target(t, slot) in t.lvl && t.lvl[Target(t, slot)] == SlotLevel(t, slot)
  {
    var t' := Unlink(t, slot);
    assert Hangs(t, Target(t, slot), slot);
    forall y | y in t'.lvl ensures GoodNode(t', y) { UnlinkNode(t, slot, y); }
    forall b, i | b in t'.lvl && t'.lvl[b] >= 1 && 0 <= i < t'.p && Ptr(t', b, i) != 0
      ensures Hangs(t', Ptr(t', b, i), Kid(b, i))
    {
      UnlinkKid(t, slot, b, i);
    }
    forall k | 0 <= k < |t'.root| && t'.root[k] != 0 ensures Hangs(t', t'.root[k], Root(k)) {
      UnlinkHangs(t, slot, t.root[k], Root(k));
    }
  }

  // ---- what linking does to resolution ----

  ghost predicate SameFile(t: Tree, t': Tree)
    requires t.p > 0 && t'.p == t.p && |t.root| == SLOTS == |t'.root|
  {
    forall l :: 0 <= l < MaxBlocks(t.p) ==> Resolve(t', l) == Resolve(t, l)
  }

  ghost predicate SameFileBut(t: Tree, t': Tree, l: nat, x: nat)
    requires t.p > 0 && t'.p == t.p && |t.root| == SLOTS == |t'.root|
  {
    forall l' :: 0 <= l' < MaxBlocks(t.p) ==> Resolve(t', l') == if l' == l then x else Resolve(t, l')
  }

  /** Resolution looks at the pointers only. */
  lemma {:induction false} NodeAtPointers(t: Tree, t': Tree, k: nat, off: nat, level: nat)
    requires t.p > 0 && t'.p == t.p && t'.root == t.root && t'.disk == t.disk && k < |t.root| && level <= RootLevel(k)
    ensures NodeAt(t', k, off, level) == NodeAt(t, k, off, level)
    decreases RootLevel(k) - level
  {
    if level < RootLevel(k) { NodeAtPointers(t, t', k, off, level + 1); }
  }

  lemma LinkEmpty(t: Tree, slot: Slot, x: nat)
    requires Inv(t) && SlotOk(t, slot) && Target(t, slot) == 0 && 0 < x < U32 && x !in t.lvl && Stored(t, x)
    requires SlotLevel(t, slot) >= 1 && AllZero(t, x)
    ensures Inv(Link(t, slot, x)) && SameFile(t, Link(t, slot, x))
  {
    LinkInv(t, slot, x);
    forall l | 0 <= l < MaxBlocks(t.p) ensures Resolve(Link(t, slot, x), l) == Resolve(t, l) {
      StoreEmpty(t, slot, x, l);
      NodeAtPointers(Store(t, slot, x), Link(t, slot, x), Locate(t.p, l).0, Locate(t.p, l).1, 0);
    }
  }

  lemma LinkData(t: Tree, slot: Slot, x: nat, l: nat)
    requires Inv(t) && SlotOk(t, slot) && Target(t, slot) == 0 && 0 < x < U32 && x !in t.lvl && Stored(t, x)
    requires SlotLevel(t, slot) == 0 && l < MaxBlocks(t.p) && Through(t, slot, Locate(t.p, l).0, Locate(t.p, l).1)
    ensures Inv(Link(t, slot, x)) && SameFileBut(t, Link(t, slot, x), l, x)
  {
    LinkInv(t, slot, x);
    forall l' | 0 <= l' < MaxBlocks(t.p)
      ensures Resolve(Link(t, slot, x), l') == if l' == l then x else Resolve(t, l')
    {
      StoreData(t, slot, x, l, l');
      NodeAtPointers(Store(t, slot, x), Link(t, slot, x), Locate(t.p, l').0, Locate(t.p, l').1, 0);
    }
  }

  lemma UnlinkEmpty(t: Tree, slot: Slot)
    requires Inv(t) && SlotOk(t, slot) && Target(t, slot) != 0
    requires SlotLevel(t, slot) >= 1 && AllZero(t, Target(t, slot))
    ensures Inv(Unlink(t, slot)) && SameFile(t, Unlink(t, slot))
  {
    UnlinkInv(t, slot);
    forall l | 0 <= l < MaxBlocks(t.p) ensures Resolve(Unlink(t, slot), l) == Resolve(t, l) {
      StoreEmpty(t, slot, 0, l);
      NodeAtPointers(Store(t, slot, 0), Unlink(t, slot), Locate(t.p, l).0, Locate(t.p, l).1, 0);
    }
  }

  lemma UnlinkData(t: Tree, slot: Slot, l: nat)
    requires Inv(t) && SlotOk(t, slot) && Target(t, slot) != 0
    requires SlotLevel(t, slot) == 0 && l < MaxBlocks(t.p) && Through(t, slot, Locate(t.p, l).0, Locate(t.p, l).1)
    ensures Inv(Unlink(t, slot)) && SameFileBut(t, Unlink(t, slot), l, 0)
  {
    UnlinkInv(t, slot);
    forall l' | 0 <= l' < MaxBlocks(t.p) ensures Resolve(Unlink(t, slot), l') == if l' == l then 0 else Resolve(t, l') {
      StoreData(t, slot, 0, l, l');
      NodeAtPointers(Store(t, slot, 0), Unlink(t, slot), Locate(t.p, l').0, Locate(t.p, l').1, 0);
    }
  }

  // ---- the indices as the code computes them ----

  lemma IndexSingle(p: nat, off: nat)
    requires 0 < p && off < p
    ensures Index(p, off, 0) == off
  {
  }

  lemma DivBelow(x: nat, d: nat, n: nat)
    requires d > 0 && x < d * n
    ensures x / d < n
  {
    if x / d >= n { MulBound(n, x / d, d); }
  }

  lemma IndexDouble(p: nat, off: nat)
    requires 0 < p && off < p * p
    ensures off / p < p && Index(p, off, 1) == off / p && Index(p, off, 0) == off % p
  {
    assert Cap(p, 1) == p;
    DivBelow(off, p, p);
    SmallMod(off / p, p);
  }

  lemma IndexTriple(p: nat, off: nat)
    requires 0 < p && off < p * p * p
    ensures p * p > 0 && off / (p * p) < p
    ensures Index(p, off, 2) == off / (p * p) && Index(p, off, 1) == off / p % p && Index(p, off, 0) == off % p
  {
    var c := p * p;
    MulPositive(p, p);
    assert Cap(p, 1) == p && Cap(p, 2) == c;
    DivBelow(off, c, p);
    SmallMod(off / c, p);
  }

  lemma SmallMod(a: nat, p: nat)
    requires a < p
    ensures a % p == a
  {
  }

  /** The pointers to follow to a logical block, as the code computes them from the block number. */
  datatype Way = Direct(i: nat) | Single(i: nat) | Double(i: nat, j: nat) | Triple(i: nat, j: nat, k: nat)

  function WayTo(p: nat, l: nat): Way
    requires p > 0
  {
    MulPositive(p, p);
    if l < 12 then Direct(l)
    else if l < 12 + p then Single(l - 12)
    else if l < 12 + p + p * p then var rem := l - 12 - p; Double(rem / p, rem % p)
    else var rem := l - 12 - p - p * p; Triple(rem / (p * p), rem / p % p, rem % p)
  }

  /** Only the first index of a triple can be out of range, exactly past the end of the tree. */
  lemma WayIndices(p: nat, l: nat)
    requires p > 0
    ensures var (k, off) := Locate(p, l);
      match WayTo(p, l)
      case Direct(i) => l < MaxBlocks(p) && k == i == l && k < 12
      case Single(i) => l < MaxBlocks(p) && k == 12 && i == Index(p, off, 0)
      case Double(i, j) => l < MaxBlocks(p) && k == 13 && i == Index(p, off, 1) && j == Index(p, off, 0)
      case Triple(i, j, n) =>
        k == 14 && (i < p <==> l < MaxBlocks(p)) && (i < p ==> i == Index(p, off, 2)) && j == Index(p, off, 1) && n == Index(p, off, 0)
  {
    var (k, off) := Locate(p, l);
    MulPositive(p, p);
    if l < 12 {
    } else if l < 12 + p {
      IndexSingle(p, off);
    } else if l < 12 + p + p * p {
      IndexDouble(p, off);
    } else {
      TripleRange(p, off);
      IndexLow(p, off);
      if off < p * p * p { IndexTriple(p, off); }
    }
  }

  // ---- the layout of the pointers ----

  /** Entry `i` of the block that a pointer leads to; 0 below a hole. */
  function Follow(t: Tree, b: nat, i: nat): nat { if b == 0 then 0 else Ptr(t, b, i) }

  lemma ResolveDirect(t: Tree, i: nat)
    requires t.p > 0 && |t.root| == SLOTS && i < 12
    ensures Resolve(t, i) == t.root[i]
  {
  }

  /** Then come the entries of the block at pointer 12, in order, */
  lemma ResolveSingle(t: Tree, i: nat)
    requires t.p > 0 && |t.root| == SLOTS && i < t.p
    ensures Resolve(t, 12 + i) == Follow(t, t.root[12], i)
  {
    IndexSingle(t.p, i);
    NodeDown(t, 12, i, 0);
  }

  /** those of the blocks that the entries of the block at pointer 13 lead to, */
  lemma ResolveDouble(t: Tree, i: nat, j: nat)
    requires t.p > 0 && |t.root| == SLOTS && i < t.p && j < t.p
    ensures Resolve(t, 12 + t.p + i * t.p + j) == Follow(t, Follow(t, t.root[13], i), j)
  {
    var p, off := t.p, i * t.p + j;
    Digits(off, p, i, j);
    MulBound(i + 1, p, p);
    assert Locate(p, 12 + p + off) == (13, off);
    hide Locate, Index;
    IndexDouble(p, off);
    NodeDown(t, 13, off, 1);
    NodeDown(t, 13, off, 0);
  }

  /** and those one level further down from pointer 14. */
  lemma ResolveTriple(t: Tree, i: nat, j: nat, n: nat)
    requires t.p > 0 && |t.root| == SLOTS && i < t.p && j < t.p && n < t.p
    ensures Resolve(t, 12 + t.p + t.p * t.p + (i * t.p + j) * t.p + n) ==
            Follow(t, Follow(t, Follow(t, t.root[14], i), j), n)
  {
    var p, off := t.p, (i * t.p + j) * t.p + n;
    TripleDigits(p, i, j, n);
    assert Locate(p, 12 + p + p * p + off) == (14, off);
    hide Locate, Index;
    IndexTriple(p, off);
    NodeDown(t, 14, off, 2);
    NodeDown(t, 14, off, 1);
    NodeDown(t, 14, off, 0);
  }

  lemma NodeDown(t: Tree, k: nat, off: nat, level: nat)
    requires t.p > 0 && k < |t.root| && level < RootLevel(k)
    ensures NodeAt(t, k, off, level) == Follow(t, NodeAt(t, k, off, level + 1), Index(t.p, off, level))
    ensures NodeAt(t, k, off, RootLevel(k)) == t.root[k]
  {
    hide Index;
  }

  lemma Digits(x: nat, d: nat, q: nat, r: nat)
    requires x == q * d + r && r < d
    ensures x / d == q && x % d == r
  {
    DivUnique(x, d, q, r);
  }

  lemma TripleDigits(p: nat, i: nat, j: nat, n: nat)
    requires i < p && j < p && n < p
    ensures var off := (i * p + j) * p + n;
      off < p * p * p && p * p > 0 && off / (p * p) == i && off / p % p == j && off % p == n
  {
    var off := (i * p + j) * p + n;
    MulPositive(p, p);
    Digits(off, p, i * p + j, n);
    Digits(i * p + j, p, i, j);
    DigitsBelow(i, p, j, p);
    DigitsBelow(i * p + j, p * p, n, p);
    DigitsBelow(j, p, n, p);
    TwoDigits(i, p, j, n);
    Digits(off, p * p, i, j * p + n);
  }

  lemma DigitsBelow(a: nat, b: nat, r: nat, d: nat)
    requires a < b && r < d
    ensures a * d + r < b * d
  {
    MulBound(a + 1, b, d);
  }

  lemma TwoDigits(i: nat, p: nat, j: nat, n: nat)
    ensures (i * p + j) * p + n == i * (p * p) + (j * p + n)
  {
  }

  lemma IndexLow(p: nat, off: nat)
    requires p > 0
    ensures Index(p, off, 1) == off / p % p && Index(p, off, 0) == off % p
  {
    assert Cap(p, 1) == p;
  }

  lemma TripleRange(p: nat, rem: nat)
    requires p > 0
    ensures p * p > 0 && (rem / (p * p) < p <==> rem < p * p * p)
  {
    MulPositive(p, p);
    var c := p * p;
    if rem < c * p { DivBelow(rem, c, p); } else { DivAtLeast(rem, c, p); }
  }

  lemma DivAtLeast(x: nat, d: nat, n: nat)
    requires d > 0 && x >= d * n
    ensures x / d >= n
  {
    if x / d < n { MulBound(x / d + 1, n, d); }
  }
}
