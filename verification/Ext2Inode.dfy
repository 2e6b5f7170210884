/** One ext2 inode over the volume: resolving, allocating and freeing its blocks in place. */
module Ext2Inode {
  import opened Bytes
  import opened Results
  import opened BlockTree
  import opened BlockSubtree
  import opened BlockEdit
  import opened BlockCount
  import opened FileBytes
  import Ext2Bitmap

  const MAX_BULK_BLOCKS: nat := 128

  /** The pending run of a bulk write: where it starts, its length, the blocks written before it. */
  datatype RunState = RunState(first: nat, run: nat, done: nat, newly: nat)

  /** The bitmaps and counters of the volume are right, and the free blocks are the clear bits. */
  ghost predicate Sync(a: Ext2Bitmap.BlockAllocator, free: set<nat>, vol: set<nat>)
    reads a
  {
    a.Valid() && (forall b: nat :: b in free <==> a.IsFree(b)) && forall b :: b in vol ==> a.InVolume(b)
  }

  class Inode {
    const p: nat                    // pointers per block
    var disk: map<nat, Block>       // the volume as read through the block cache
    const alloc: Ext2Bitmap.BlockAllocator   // the bitmaps and counters of the volume
    const goal: nat                 // the block group the inode lies in
    ghost const vol: set<nat>       // the blocks of the volume
    ghost var free: set<nat>        // the blocks whose bitmap bit is clear
    var root: seq<nat>              // i_block
    var size: nat                   // the file size in bytes
    var iBlocks: nat                // i_blocks, in sectors
    var fileAcl: nat                // i_file_acl: the extended-attribute block, or 0
    const sectors: nat              // sectors per block
    const largeFile: bool           // a regular file on a volume with the `large_file` feature
    ghost var lvl: map<nat, nat>
    ghost var parent: map<nat, Slot>

    /** A new inode: no blocks, size 0, on a volume whose free blocks are storage. */
    constructor (a: Ext2Bitmap.BlockAllocator, blocks: map<nat, Block>, pointers: nat, group: nat, perBlock: nat,
        large: bool, ghost clear: set<nat>)
      requires pointers > 0 && Sync(a, clear, blocks.Keys)
      requires forall b :: b in clear ==> 0 < b < U32 && b in blocks && |blocks[b]| == 4 * pointers
      ensures Valid() && alloc == a && vol == blocks.Keys && free == clear && disk == blocks && p == pointers
      ensures lvl == map[] && root == seq(SLOTS, _ => 0) && size == iBlocks == fileAcl == 0
    {
      alloc, goal, vol, free := a, group, blocks.Keys, clear;
      p, disk, root, sectors, largeFile := pointers, blocks, seq(SLOTS, _ => 0), perBlock, large;
      size, iBlocks, fileAcl := 0, 0, 0;
      lvl, parent := map[], map[];
    }

    ghost function T(): Tree reads this { Tree(p, disk, root, lvl, parent) }

    /** The tree is well formed, and the free blocks are storage the tree does not use. */
    ghost predicate Valid() reads this {
      p > 0 && |root| == SLOTS && Inv(T()) && FreeOk(T(), free) && disk.Keys <= vol
    }

    method ReadIndirectEntry(b: nat, index: nat) returns (r: Result<nat>)
      requires Stored(T(), b)
      ensures r == if index < p then Ok(Ptr(T(), b, index)) else Err(InvalidInput)
    {
      if 4 * index + 4 > 4 * p { return Err(InvalidInput); }
      r := Ok(Get32(disk[b], 4 * index));
    }

    /** Logical to physical block; 0 is a hole.  Past the triple-indirect range the lookup fails as
        soon as there is a triple-indirect block to look into. */
    method ResolveBlockId(l: nat) returns (r: Result<nat>)
      requires Inv(T())
      ensures l < MaxBlocks(p) ==> r == Ok(Resolve(T(), l))
      ensures l >= MaxBlocks(p) ==> r == if root[14] == 0 then Ok(0) else Err(InvalidInput)
    {
      hide MaxBlocks, Index, Cap, Locate, WayTo;
      ghost var t := T();
      ghost var off := Locate(p, l).1;
      WayIndices(p, l);
      match WayTo(p, l) {
        case Direct(i) => return Ok(root[i]);
        case Single(i) =>
          if root[12] == 0 { return Ok(0); }
          NodeLevel(t, 12, off, 1);
          r := ReadIndirectEntry(root[12], i);
        case Double(i, j) =>
          if root[13] == 0 { return Ok(0); }
          NodeLevel(t, 13, off, 2);
          NodeLevel(t, 13, off, 1);
          r := ReadIndirectEntry(root[13], i);
          if r.value == 0 { return; }
          r := ReadIndirectEntry(r.value, j);
        case Triple(i, j, n) =>
          if root[14] == 0 {
            HolesBelow(t, 14, off, 3, 0);
            return Ok(0);
          }
          NodeLevel(t, 14, off, 3);
          NodeLevel(t, 14, off, 2);
          NodeLevel(t, 14, off, 1);
          r := ReadIndirectEntry(root[14], i);
          if r.Err? || r.value == 0 { return; }
          r := ReadIndirectEntry(r.value, j);
          if r.value == 0 { return; }
          r := ReadIndirectEntry(r.value, n);
      }
    }

    // ---- allocation ----

    /** `alloc_block_goal`: a block whose bit was clear is marked; none left is `NoSpace`. */
    method AllocBlock() returns (r: Result<nat>)
      requires Valid()
      requires Sync(alloc, free, vol)
      modifies this`free, alloc
      ensures Sync(alloc, free, vol)
      ensures Valid()
      ensures r.Ok? ==> r.value in old(free) && free == old(free) - {r.value}
      ensures r.Ok? ==> 0 < r.value < U32 && Stored(T(), r.value) && r.value !in lvl
      ensures r.Err? ==> r.error == NoSpace && old(free) == {} && free == old(free)
    {
      hide Inv;
      r := alloc.AllocBlockGoal(goal);
      if r.Ok? { free := free - {r.value}; }
    }

    method AllocAndZeroBlock() returns (r: Result<nat>)
      requires Valid()
      requires Sync(alloc, free, vol)
      modifies this`free, this`disk, alloc
      ensures Sync(alloc, free, vol)
      ensures Valid() && Grown(old(T()), old(free), T(), free)
      ensures r.Ok? ==>
                && r.value in old(free) && free == old(free) - {r.value}
                && T() == old(T()).(disk := old(disk)[r.value := Zeros(4 * p)]) && AllZero(T(), r.value)
      ensures r.Err? ==> r.error == NoSpace && T() == old(T()) && free == old(free) == {}
    {
      hide Sync;
      GrownRefl(T(), free);
      r := AllocBlock();
      if r.Ok? {
        ghost var t := T();
        disk := disk[r.value := Zeros(4 * p)];
        DataWrite(t, r.value, Zeros(4 * p));
      }
    }

    /** Store a pointer in a slot: an `i_block` field or an entry of an indirect block. */
    method StorePointer(slot: Slot, x: nat)
      requires SlotOk(T(), slot) && x < U32
      modifies this`disk, this`root
      ensures T() == Store(old(T()), slot, x) && disk.Keys == old(disk).Keys
    {
      match slot {
        case Root(k) => root := root[k := x];
        case Kid(b, i) => disk := disk[b := Put32(disk[b], 4 * i, x)];
      }
    }

    /** Hang block `x`, taken from the free set, in an empty slot. */
    method HangBlock(slot: Slot, x: nat)
      requires Valid() && SlotOk(T(), slot) && Target(T(), slot) == 0 && 0 < x < U32 && x !in lvl && x !in free
      requires Stored(T(), x)
      requires SlotLevel(T(), slot) >= 1 ==> AllZero(T(), x)
      modifies this`disk, this`root, this`lvl, this`parent
      ensures Valid() && T() == Link(old(T()), slot, x)
      ensures SlotOk(T(), slot) && Target(T(), slot) == x
      ensures forall b :: b in old(disk) && (b !in old(lvl) || old(lvl)[b] == 0) ==>
                b in disk && disk[b] == old(disk)[b]
    {
      hide Inv, AllZero, Put32;
      ghost var t := T();
      LinkInv(t, slot, x);
      LinkTarget(t, slot, x);
      StorePointer(slot, x);
      lvl, parent := lvl[x := SlotLevel(t, slot)], parent[x := slot];
    }

    /** Hang an empty indirect block in an empty slot on the way to `off` under root pointer `k`. */
    method HangNew(slot: Slot, ghost k: nat, ghost off: nat) returns (r: Result<nat>)
      requires Valid() && SlotOk(T(), slot) && Target(T(), slot) == 0 && SlotLevel(T(), slot) >= 1
      requires k < SLOTS && SlotLevel(T(), slot) <= RootLevel(k) && Through(T(), slot, k, off)
      requires Sync(alloc, free, vol)
      modifies this`disk, this`free, this`root, this`lvl, this`parent, alloc
      ensures Sync(alloc, free, vol)
      ensures Valid() && Grown(old(T()), old(free), T(), free)
      ensures r.Ok? ==>
                && r.value in old(free) && r.value in lvl && lvl[r.value] == old(SlotLevel(T(), slot))
                && lvl.Keys == old(lvl).Keys + {r.value}
                && NodeAt(T(), k, off, old(SlotLevel(T(), slot))) == r.value
      ensures r.Err? ==> r.error == NoSpace && T() == old(T()) && free == old(free) == {}
      ensures r.Ok? && off < Cap(p, RootLevel(k)) ==> Fed(old(T()), old(free), T(), free, TrailAt(p, k, off))
    {
      hide Sync, Inv, AllZero, Through, NodeAt, Grown, Fed, Cap;
      ghost var t0 := T();
      r := AllocAndZeroBlock();
      if r.Ok? {
        ghost var t := T();
        HangBlock(slot, r.value);
        NewOnPath(t0, slot, r.value, k, off);
        HangGrown(t0, old(free), t, slot, r.value);
        if off < Cap(p, RootLevel(k)) { HangFed(t0, old(free), slot, r.value, k, off, SlotLevel(t0, slot), T()); }
      }
    }

    /** The block a slot points to, hanging an empty indirect block there first if there is none. */
    method SlotOrNew(slot: Slot, ghost k: nat, ghost off: nat) returns (r: Result<(nat, nat)>)
      requires Valid() && SlotOk(T(), slot) && SlotLevel(T(), slot) >= 1
      requires k < SLOTS && SlotLevel(T(), slot) <= RootLevel(k) && Through(T(), slot, k, off)
      requires Sync(alloc, free, vol)
      modifies this`disk, this`free, this`root, this`lvl, this`parent, alloc
      ensures Sync(alloc, free, vol)
      ensures Valid() && Grown(old(T()), old(free), T(), free)
      ensures r.Ok? ==>
                && r.value.0 in lvl && lvl[r.value.0] == old(SlotLevel(T(), slot)) && Stored(T(), r.value.0)
                && NodeAt(T(), k, off, old(SlotLevel(T(), slot))) == r.value.0
                && |lvl.Keys| == |old(lvl).Keys| + r.value.1
      ensures off < Cap(p, RootLevel(k)) ==> Fed(old(T()), old(free), T(), free, TrailAt(p, k, off))
      ensures r.Err? ==>
                && r.error == NoSpace && free == {} && T() == old(T())
                && NodeAt(T(), k, off, old(SlotLevel(T(), slot))) == 0
    {
      hide Sync, Fed, Cap;
      FreeApart(T(), free);
      FedRefl(T(), free, TrailAt(p, k, off));
      ThroughNode(T(), slot, k, off);
      var x := match slot case Root(k) => root[k] case Kid(b, i) => Get32(disk[b], 4 * i);
      if x == 0 {
        var n := HangNew(slot, k, off);
        if n.Err? { return Err(n.error); }
        assert n.value !in old(lvl);
        return Ok((n.value, 1));
      }
      GrownRefl(T(), free);
      NodeLevel(T(), k, off, SlotLevel(T(), slot));
      r := Ok((x, 0));
    }

    /** One step down from an indirect block on the way to `off`, creating the next one if missing. */
    method StepDown(b: nat, i: nat, ghost k: nat, ghost off: nat) returns (r: Result<(nat, nat)>)
      requires Valid() && 12 <= k < SLOTS && b in lvl && 2 <= lvl[b] <= RootLevel(k) && Stored(T(), b)
      requires NodeAt(T(), k, off, lvl[b]) == b && i == Index(p, off, lvl[b] - 1)
      requires Sync(alloc, free, vol)
      modifies this`disk, this`free, this`root, this`lvl, this`parent, alloc
      ensures Sync(alloc, free, vol)
      ensures Valid() && Grown(old(T()), old(free), T(), free)
      ensures r.Ok? ==>
                && r.value.0 in lvl && lvl[r.value.0] == old(lvl)[b] - 1 && Stored(T(), r.value.0)
                && NodeAt(T(), k, off, old(lvl)[b] - 1) == r.value.0
                && |lvl.Keys| == |old(lvl).Keys| + r.value.1
      ensures off < Cap(p, RootLevel(k)) ==> Fed(old(T()), old(free), T(), free, TrailAt(p, k, off))
      ensures r.Err? ==> r.error == NoSpace && free == {} && NodeAt(T(), k, off, old(lvl)[b] - 1) == 0
    {
      hide Sync, Inv, Grown, NodeAt, Index, Cap, Fed;
      r := SlotOrNew(Kid(b, i), k, off);
    }

    /** The indirect block below the top one, given the index the code computed for it; `first` is out
        of range past the end of the triple-indirect tree. */
    method SecondIndirect(k: nat, first: nat, ghost off: nat) returns (r: Result<(nat, nat)>)
      requires Valid() && 13 <= k < SLOTS && (first < p ==> first == Index(p, off, RootLevel(k) - 1))
      requires Sync(alloc, free, vol)
      modifies this`disk, this`free, this`root, this`lvl, this`parent, alloc
      ensures Sync(alloc, free, vol)
      ensures Valid() && Grown(old(T()), old(free), T(), free)
      ensures r.Ok? ==>
                && first < p
                && r.value.0 in lvl && lvl[r.value.0] == RootLevel(k) - 1 && Stored(T(), r.value.0)
                && NodeAt(T(), k, off, RootLevel(k) - 1) == r.value.0
                && |lvl.Keys| == |old(lvl).Keys| + r.value.1
      ensures off < Cap(p, RootLevel(k)) ==> Fed(old(T()), old(free), T(), free, TrailAt(p, k, off))
      ensures r.Err? && first < p ==> r.error == NoSpace && free == {} && NodeAt(T(), k, off, RootLevel(k) - 1) == 0
    {
      hide Sync, Inv, Grown, NodeAt, Index, Cap, Fed;
      ghost var t0, f0 := T(), free;
      var top := SlotOrNew(Root(k), k, off);
      if top.Err? {
        HoleBelow(T(), k, off, RootLevel(k), RootLevel(k) - 1);
        return top;
      }
      if first >= p { return Err(InvalidInput); }
      ghost var t1, f1 := T(), free;
      r := StepDown(top.value.0, first, k, off);
      GrownTrans(t0, f0, t1, f1, T(), free);
      if off < Cap(p, RootLevel(k)) { FedTwice(t0, f0, t1, f1, T(), free, TrailAt(p, k, off)); }
      if r.Ok? { r := Ok((r.value.0, top.value.1 + r.value.1)); }
    }

    method ThirdIndirect(first: nat, second: nat, ghost off: nat) returns (r: Result<(nat, nat)>)
      requires Valid() && (first < p ==> first == Index(p, off, 2) && second == Index(p, off, 1))
      requires Sync(alloc, free, vol)
      modifies this`disk, this`free, this`root, this`lvl, this`parent, alloc
      ensures Sync(alloc, free, vol)
      ensures Valid() && Grown(old(T()), old(free), T(), free)
      ensures r.Ok? ==>
                && first < p
                && r.value.0 in lvl && lvl[r.value.0] == 1 && Stored(T(), r.value.0) && NodeAt(T(), 14, off, 1) == r.value.0
                && |lvl.Keys| == |old(lvl).Keys| + r.value.1
      ensures off < Cap(p, RootLevel(14)) ==> Fed(old(T()), old(free), T(), free, TrailAt(p, 14, off))
      ensures r.Err? && first < p ==> r.error == NoSpace && free == {} && NodeAt(T(), 14, off, 1) == 0
    {
      hide Sync, Inv, Grown, NodeAt, Index, Cap, Fed;
      ghost var t0, f0 := T(), free;
      var l2 := SecondIndirect(14, first, off);
      if l2.Err? {
        if first < p { HoleBelow(T(), 14, off, 2, 1); }
        return l2;
      }
      ghost var t1, f1 := T(), free;
      r := StepDown(l2.value.0, second, 14, off);
      GrownTrans(t0, f0, t1, f1, T(), free);
      if off < Cap(p, RootLevel(14)) { FedTwice(t0, f0, t1, f1, T(), free, TrailAt(p, 14, off)); }
      if r.Ok? { r := Ok((r.value.0, l2.value.1 + r.value.1)); }
    }

    /** The last indirect block for logical block `l`, creating the missing ones, by range as the code
        does; returns the block, the entry to use and how many blocks were created. */
    method LeafEntry(l: nat) returns (r: Result<(nat, nat, nat)>)
      requires Valid() && l >= 12
      requires Sync(alloc, free, vol)
      modifies this`disk, this`free, this`root, this`lvl, this`parent, alloc
      ensures Sync(alloc, free, vol)
      ensures Valid() && Grown(old(T()), old(free), T(), free)
      ensures r.Ok? ==>
                && l < MaxBlocks(p) && AtLeaf(T(), l, r.value.0, r.value.1)
                && |lvl.Keys| == |old(lvl).Keys| + r.value.2
      ensures l < MaxBlocks(p) ==> Fed(old(T()), old(free), T(), free, Trails(p, {l}))
      ensures r.Err? && l < MaxBlocks(p) ==>
                r.error == NoSpace && free == {} && NodeAt(T(), Locate(p, l).0, Locate(p, l).1, 1) == 0
    {
      hide Sync, Inv, Grown, NodeAt, Index, Cap, MaxBlocks, Locate, WayTo, Fed;
      ghost var off := Locate(p, l).1;
      if l < MaxBlocks(p) { LocateFits(p, l); TrailIs(p, l); }
      WayIndices(p, l);
      var a: Result<(nat, nat)>;
      var e: nat;
      match WayTo(p, l) {
        case Direct(_) => assert false;
        case Single(i) => e := i; a := SlotOrNew(Root(12), 12, off);
        case Double(i, j) => e := j; a := SecondIndirect(13, i, off);
        case Triple(i, j, n) => e := n; a := ThirdIndirect(i, j, off);
      }
      r := if a.Ok? then Ok((a.value.0, e, a.value.1)) else Err(a.error);
    }

    /** Wire the fresh data block `x` into the tree as logical block `l`. */
    method Wire(l: nat, x: nat, ghost t0: Tree, ghost f0: set<nat>) returns (r: Result<nat>)
      requires Valid() && Grown(t0, f0, T(), free) && t0.p == p && free == f0 - {x} && lvl == t0.lvl
      requires parent == t0.parent
      requires (forall f :: f in f0 ==> f !in t0.lvl)
      requires x in f0 && Stored(T(), x) && 0 < x < U32 && (l < MaxBlocks(p) ==> Resolve(t0, l) == 0)
      requires Sync(alloc, free, vol)
      modifies this`disk, this`free, this`root, this`lvl, this`parent, alloc
      ensures Sync(alloc, free, vol)
      ensures Valid()
      ensures r.Ok? ==>
                && l < MaxBlocks(p) && Allocated(t0, f0, T(), free, l, x)
                && |lvl.Keys| == |t0.lvl.Keys| + r.value && x in disk && disk[x] == old(disk)[x]
                && Fed(t0, f0, T(), free, Trails(p, {l}))
      ensures r.Err? ==> Grown(t0, f0, T(), free)
      ensures r.Err? && l < MaxBlocks(p) ==> r.error == NoSpace && Needs(t0, {l}) > |f0|
    {
      hide Sync, Inv, Grown, NodeAt, Index, Cap, Allocated, AtLeaf, MaxBlocks, Locate, Resolve, FreeOk, Link, Target;
      hide SlotOk, SlotLevel, Fed, Needs, Through;
      ghost var t1, f1 := T(), free;
      GrownInv(t0, f0, t1, f1);
      if l < 12 {
        DirectLeaf(t0, f0, t1, l, x);
        DirectThrough(t1, l);
        HangDataBlock(Root(l), x);
        WireFed(t0, f0, t1, f1, t1, f1, Root(l), x, l, T());
        return Ok(1);
      }
      var e := LeafEntry(l);
      GrownTrans(t0, f0, t1, f1, T(), free);
      if e.Err? {
        if l < MaxBlocks(p) { WireFails(t0, f0, t1, f1, T(), free, x, l); }
        return Err(e.error);
      }
      ghost var t2, f2 := T(), free;
      IndirectLeaf(t0, f0, t1, f1, T(), free, l, e.value.0, e.value.1, x);
      LeafThrough(t2, l, e.value.0, e.value.1);
      HangDataBlock(Kid(e.value.0, e.value.1), x);
      WireFed(t0, f0, t1, f1, t2, f2, Kid(e.value.0, e.value.1), x, l, T());
      r := Ok(e.value.2 + 1);
    }

    /** Hang a data block in an empty slot. */
    method HangDataBlock(slot: Slot, x: nat)
      requires Valid() && SlotOk(T(), slot) && Target(T(), slot) == 0 && SlotLevel(T(), slot) == 0
      requires 0 < x < U32 && x !in lvl && x !in free && Stored(T(), x)
      modifies this`disk, this`root, this`lvl, this`parent
      ensures Valid() && T() == Link(old(T()), slot, x)
      ensures |lvl.Keys| == |old(lvl).Keys| + 1 && x in disk && disk[x] == old(disk)[x]
    {
      hide Inv, FreeOk, Ptr, AllZero, Put32;
      HangBlock(slot, x);
      assert lvl.Keys == old(lvl).Keys + {x};
    }

    /** Ensure a physical block exists for `l`.  On success `l` resolves to the returned block and
        nothing else changed; `newly` is the growth of the tree.  A failed call changes no
        resolution, even after indirect blocks were created. */
    method AllocateBlockForOffset(l: nat, zeroData: bool) returns (r: Result<(nat, nat)>)
      requires Valid()
      requires Sync(alloc, free, vol)
      modifies this`disk, this`free, this`root, this`lvl, this`parent, alloc
      ensures Sync(alloc, free, vol)
      ensures Valid()
      ensures r.Ok? ==> l < MaxBlocks(p) && Allocated(old(T()), old(free), T(), free, l, r.value.0)
      ensures r.Ok? ==> |lvl.Keys| == |old(lvl).Keys| + r.value.1
      ensures r.Ok? && r.value.0 !in old(lvl) && zeroData ==> r.value.0 in disk && disk[r.value.0] == Zeros(4 * p)
      ensures r.Err? ==> Grown(old(T()), old(free), T(), free)
      ensures r.Err? <==> l >= MaxBlocks(p) || old(Needs(T(), {l})) > |old(free)|
      ensures r.Err? && l < MaxBlocks(p) ==> r.error == NoSpace
      ensures r.Ok? ==> Fed(old(T()), old(free), T(), free, Trails(p, {l}))
    {
      hide Sync, Inv, Grown, NodeAt, Index, Cap, Allocated, MaxBlocks, Locate, Resolve, FreeOk, Fed, Needs, Trails;
      hide Spots;
      ghost var t0, f0 := T(), free;
      FreeDisjoint(t0, f0);
      GrownRefl(t0, f0);
      var existing := ResolveBlockId(l);
      if existing.Err? { return Err(existing.error); }
      if existing.value != 0 {
        AlreadyThere(t0, f0, l);
        FreeApart(t0, f0);
        FedRefl(t0, f0, Trails(p, {l}));
        NeedsNone(t0, l);
        return Ok((existing.value, 0));
      }
      r := AllocateFresh(l, zeroData);
    }

    /** The same for a logical block that has none yet. */
    method AllocateFresh(l: nat, zeroData: bool) returns (r: Result<(nat, nat)>)
      requires Valid() && (l < MaxBlocks(p) ==> Resolve(T(), l) == 0)
      requires Sync(alloc, free, vol)
      modifies this`disk, this`free, this`root, this`lvl, this`parent, alloc
      ensures Sync(alloc, free, vol)
      ensures Valid()
      ensures r.Ok? ==> l < MaxBlocks(p) && Allocated(old(T()), old(free), T(), free, l, r.value.0)
      ensures r.Ok? ==> |lvl.Keys| == |old(lvl).Keys| + r.value.1
      ensures r.Ok? && zeroData ==> r.value.0 in disk && disk[r.value.0] == Zeros(4 * p)
      ensures r.Err? ==> Grown(old(T()), old(free), T(), free)
      ensures r.Err? <==> l >= MaxBlocks(p) || old(Needs(T(), {l})) > |old(free)|
      ensures r.Err? && l < MaxBlocks(p) ==> r.error == NoSpace
      ensures r.Ok? ==> Fed(old(T()), old(free), T(), free, Trails(p, {l}))
    {
      hide Sync, Inv, Grown, NodeAt, Index, Cap, Allocated, MaxBlocks, Locate, Resolve, FreeOk, Fed, Needs, Trails;
      hide Spots;
      ghost var t0, f0 := T(), free;
      FreeDisjoint(t0, f0);
      GrownRefl(t0, f0);
      var nb := AllocBlock();
      if nb.Err? {
        if l < MaxBlocks(p) { NeedsSome(t0, l); }
        return Err(nb.error);
      }
      var x := nb.value;
      FreshData(t0, f0, x, if zeroData then Zeros(4 * p) else t0.disk[x]);
      if zeroData { disk := disk[x := Zeros(4 * p)]; }
      assert T() == t0.(disk := t0.disk[x := if zeroData then Zeros(4 * p) else t0.disk[x]]);
      var w := Wire(l, x, t0, f0);
      if w.Err? { return Err(w.error); }
      NeedsMet(t0, f0, T(), free, l, x);
      r := Ok((x, w.value));
    }

    // ---- freeing ----

    /** `free_block`: clear the bitmap bit of an allocated block. */
    method FreeBlock(b: nat)
      requires b !in free && b in vol
      requires Sync(alloc, free, vol)
      modifies this`free, alloc
      ensures Sync(alloc, free, vol)
      ensures free == old(free) + {b}
    {
      var r := alloc.FreeBlock(b);
      free := free + {b};
    }

    method ReadIndirectBlock(b: nat) returns (ptrs: seq<nat>)
      requires b in disk && |disk[b]| == 4 * p
      ensures |ptrs| == p && Holds(disk[b], ptrs)
    {
      ptrs := [];
      for i := 0 to p
        invariant |ptrs| == i && forall j :: 0 <= j < i ==> ptrs[j] == Get32(disk[b], 4 * j)
      {
        ptrs := ptrs + [Get32(disk[b], 4 * i)];
      }
    }

    method WriteIndirectFull(b: nat, ptrs: seq<nat>)
      requires b in disk && |disk[b]| == 4 * p && |ptrs| == p && forall i :: 0 <= i < p ==> ptrs[i] < U32
      modifies this`disk
      ensures disk.Keys == old(disk).Keys && (forall c :: c in disk && c != b ==> disk[c] == old(disk)[c])
      ensures Holds(disk[b], ptrs)
    {
      var buf := Zeros(4 * p);
      for i := 0 to p
        invariant |buf| == 4 * p && forall j :: 0 <= j < i ==> Get32(buf, 4 * j) == ptrs[j]
      {
        buf := Put32(buf, 4 * i, ptrs[i]);
      }
      disk := disk[b := buf];
    }

    /** Count the blocks reachable through an indirect block, itself included. */
    method CountIndirect(b: nat, level: nat) returns (n: nat)
      requires Inv(T()) && (b != 0 ==> b in lvl && lvl[b] == level && level >= 1)
      ensures n == if b == 0 then 0 else |Sub(T(), b)|
      decreases level
    {
      hide Inv, Sub, Part, BelowPart;
      if b == 0 { return 0; }
      NodeStored(T(), b);
      var ptrs := ReadIndirectBlock(b);
      SubSplit(T(), b);
      n := 1;
      for i := 0 to p
        invariant n == 1 + |Part(T(), b, i)|
      {
        HoldsAt(disk[b], ptrs, i);
        PartStep(T(), b, i);
        if ptrs[i] == 0 { continue; }
        if level == 1 {
          SubLeaf(T(), ptrs[i]);
          n := n + 1;
        } else {
          var c := CountIndirect(ptrs[i], level - 1);
          n := n + c;
        }
      }
    }

    /** The nodes of the tree, counted from the pointers. */
    method CountBlocks() returns (blocks: nat)
      requires Inv(T()) && |root| == SLOTS
      ensures blocks == |lvl.Keys|
    {
      hide Inv, Sub, Tops, Pos;
      ghost var t := T();
      TopsAll(t);
      blocks := 0;
      for k := 0 to 12
        invariant blocks == |Tops(t, k)|
      {
        TopsCount(t, k);
        if root[k] != 0 { blocks := blocks + 1; }
      }
      for k := 12 to 15
        invariant blocks == |Tops(t, k)|
      {
        TopsCount(t, k);
        var n := CountIndirect(root[k], k - 11);
        blocks := blocks + n;
      }
    }

    /** `i_blocks` recounted from the pointers: the nodes of the tree and the attribute block. */
    method RecomputeIBlocks()
      requires Inv(T())
      modifies this`iBlocks
      ensures iBlocks == NodeSectors()
    {
      assert |root| == SLOTS;
      hide Inv, T, SectorsOf;
      var blocks := CountBlocks();
      if fileAcl != 0 { blocks := blocks + 1; }
      iBlocks := SectorsOf(blocks, sectors);
    }

    /** Free an indirect block and everything below it; the tree itself is left for the caller to drop. */
    method FreeIndirect(b: nat, level: nat)
      requires Inv(T()) && disk.Keys <= vol
      requires (b != 0 ==> b in lvl && lvl[b] == level && level >= 1 && Sub(T(), b) !! free)
      requires Sync(alloc, free, vol)
      modifies this`free, alloc
      ensures Sync(alloc, free, vol)
      ensures free == old(free) + if b == 0 then {} else Sub(T(), b)
      decreases level
    {
      hide Sync, Inv, Sub, Part, BelowPart;
      if b == 0 { return; }
      ghost var t := T();
      NodeStored(t, b);
      var ptrs := ReadIndirectBlock(b);
      SubSplit(t, b);
      for i := 0 to p
        invariant Sync(alloc, free, vol)
        invariant T() == t && free == old(free) + Part(t, b, i) && Part(t, b, i) <= Part(t, b, p)
      {
        HoldsAt(disk[b], ptrs, i);
        PartStep(t, b, i);
        PartGrows(t, b, i + 1);
        if ptrs[i] == 0 { continue; }
        if level == 1 {
          SubLeaf(t, ptrs[i]);
          NodeStored(t, ptrs[i]);
          FreeBlock(ptrs[i]);
        } else {
          FreeIndirect(ptrs[i], level - 1);
        }
      }
      FreeBlock(b);
    }

    /** Free every block of the file and reset the pointers. */
    method FreeAllBlocks()
      requires Valid()
      requires Sync(alloc, free, vol)
      modifies this`free, this`root, this`iBlocks, this`lvl, this`parent, alloc
      ensures Sync(alloc, free, vol)
      ensures Valid() && lvl == map[] && root == seq(SLOTS, _ => 0) && iBlocks == 0
      ensures free == old(free) + old(lvl).Keys
    {
      hide Sync;
      FreeTops();
      root, iBlocks := seq(SLOTS, _ => 0), 0;
      lvl, parent := map[], map[];
    }

    method FreeTops()
      requires Valid()
      requires Sync(alloc, free, vol)
      modifies this`free, alloc
      ensures Sync(alloc, free, vol)
      ensures free == old(free) + lvl.Keys
      ensures forall f :: f in free ==> 0 < f < U32 && Stored(T(), f)
    {
      hide Sync, Inv, Sub, Tops, Pos;
      ghost var t, f0 := T(), free;
      NodesStored(t);
      TopsAll(t);
      assert t.lvl.Keys !! f0;
      for k := 0 to 12
        invariant Sync(alloc, free, vol)
        invariant T() == t && free == f0 + Tops(t, k)
      {
        TopsStep(t, k);
        TopsIn(t, k + 1);
        if root[k] != 0 {
          SubLeaf(t, root[k]);
          FreeBlock(root[k]);
        }
      }
      for k := 12 to 15
        invariant Sync(alloc, free, vol)
        invariant T() == t && free == f0 + Tops(t, k)
      {
        TopsStep(t, k);
        TopsIn(t, k + 1);
        FreeIndirect(root[k], k - 11);
      }
    }

    /** The slot that holds the pointer of logical block `l`, if the indirect blocks on the way exist. */
    method LeafSlot(l: nat) returns (r: Result<Option<Slot>>)
      requires Inv(T()) && |root| == SLOTS && p > 0
      ensures r.Ok? && r.value.Some? ==> l < MaxBlocks(p) && LeadsTo(T(), r.value.value, l)
      ensures r.Ok? && r.value.None? && l < MaxBlocks(p) ==> Resolve(T(), l) == 0
      ensures r.Err? <==> l >= MaxBlocks(p) && root[14] != 0
    {
      hide MaxBlocks, Index, Cap, Locate, WayTo, Inv;
      ghost var t := T();
      ghost var off := Locate(p, l).1;
      WayIndices(p, l);
      match WayTo(p, l) {
        case Direct(i) => return Ok(Some(Root(i)));
        case Single(i) =>
          if root[12] == 0 { return Ok(None); }
          NodeLevel(t, 12, off, 1);
          NodeStored(t, root[12]);
          return Ok(Some(Kid(root[12], i)));
        case Double(i, j) =>
          if root[13] == 0 { return Ok(None); }
          NodeLevel(t, 13, off, 2);
          NodeStored(t, root[13]);
          r := DoubleSlot(13, root[13], i, j, l);
        case Triple(i, j, n) =>
          if root[14] == 0 {
            HolesBelow(t, 14, off, 3, 0);
            return Ok(None);
          }
          NodeLevel(t, 14, off, 3);
          NodeStored(t, root[14]);
          var e := ReadIndirectEntry(root[14], i);
          if e.Err? { return Err(e.error); }
          if e.value == 0 {
            HolesBelow(t, 14, off, 2, 0);
            return Ok(None);
          }
          NodeLevel(t, 14, off, 2);
          NodeStored(t, e.value);
          r := DoubleSlot(14, e.value, j, n, l);
      }
    }

    /** The same from the indirect block of depth 2 on. */
    method DoubleSlot(ghost k: nat, b: nat, i: nat, j: nat, ghost l: nat) returns (r: Result<Option<Slot>>)
      requires Inv(T()) && |root| == SLOTS && p > 0 && b in lvl && lvl[b] == 2 && l < MaxBlocks(p) && Stored(T(), b)
      requires k == Locate(p, l).0 && 13 <= k < SLOTS && NodeAt(T(), k, Locate(p, l).1, 2) == b && b != 0
      requires i == Index(p, Locate(p, l).1, 1) && j == Index(p, Locate(p, l).1, 0)
      ensures r.Ok? && (r.value.Some? ==> LeadsTo(T(), r.value.value, l))
      ensures r.value.None? ==> Resolve(T(), l) == 0
    {
      hide MaxBlocks, Index, Cap, Locate, WayTo, Inv;
      ghost var t := T();
      ghost var off := Locate(p, l).1;
      var e := ReadIndirectEntry(b, i);
      if e.value == 0 {
        HolesBelow(t, k, off, 1, 0);
        return Ok(None);
      }
      NodeLevel(t, k, off, 1);
      NodeStored(t, e.value);
      r := Ok(Some(Kid(e.value, j)));
    }

    /** Free the data block of `l`, if any, and clear its pointer. */
    method FreeAndClearLogical(l: nat) returns (r: Result<()>)
      requires Valid()
      requires Sync(alloc, free, vol)
      modifies this`disk, this`free, this`root, this`lvl, this`parent, alloc
      ensures Sync(alloc, free, vol)
      ensures Valid() && Shrunk(old(T()), old(free), T(), free)
      ensures r.Ok? ==> Cleared(old(T()), T(), l, l + 1)
      ensures r.Err? <==> l >= MaxBlocks(p) && old(root)[14] != 0
      ensures r.Err? ==> T() == old(T()) && free == old(free)
      ensures root[14] == old(root)[14]
    {
      hide Sync, Inv, Resolve, MaxBlocks, LeadsTo, Shrunk, Cleared, Through, Store, Unlink, Target, SlotOk;
      ghost var t, f := T(), free;
      ShrunkRefl(t, f);
      var phys := ResolveBlockId(l);
      if phys.Err? { return Err(phys.error); }
      DataInTree(t, l);
      if phys.value != 0 {
        NodeStored(t, phys.value);
        FreeBlock(phys.value);
      }
      var s := LeafSlot(l);
      if s.Ok? && s.value.Some? {
        ClearLogical(t, f, s.value.value, l);
        StorePointer(s.value.value, 0);
        if phys.value != 0 { lvl, parent := lvl - {phys.value}, parent - {phys.value}; }
      }
      r := Ok(());
    }

    /** The tree as it will be once the blocks of `pend` have been written. */
    ghost function Pending(pend: map<nat, Block>): Tree
      reads this
    {
      T().(disk := disk + pend)
    }

    ghost predicate ValidPending(pend: map<nat, Block>)
      reads this
    {
      && p > 0 && |root| == SLOTS && Inv(Pending(pend)) && pend.Keys <= lvl.Keys
      && FreeOk(Pending(pend), free) && disk.Keys <= vol
    }

    /** Prune the empty indirect blocks below `b`, whose ancestors are still to be written as `pend`
        says; tells whether `b` itself ended up empty.  Pointers are cleared in a copy of the block,
        which is written back once, after its children were freed. */
    method PruneIndirect(b: nat, level: nat, ghost pend: map<nat, Block>) returns (empty: bool)
      requires ValidPending(pend) && b in lvl && lvl[b] == level >= 1 && Above(pend, lvl, level)
      requires Sync(alloc, free, vol)
      modifies this`disk, this`free, this`lvl, this`parent, alloc
      ensures Sync(alloc, free, vol)
      ensures ValidPending(pend) && Pruned(old(Pending(pend)), old(free), Pending(pend), free, b, p)
      ensures empty == AllZero(Pending(pend), b)
      ensures KeptOutside(old(Pending(pend)), old(disk), disk, b)
      decreases level, 1
    {
      hide Sync, Inv, Pruned, KeptOutside;
      ghost var t0, f0 := Pending(pend), free;
      NodeStored(t0, b);
      var ptrs := ReadIndirectBlock(b);
      if level == 1 {
        PrunedLast(t0, f0, b);
        KeptRefl(t0, disk, b);
        HoldsPtr(t0, b, disk[b], ptrs);
      } else {
        ptrs := PruneEntries(b, level, ptrs, pend);
      }
      empty := forall i :: 0 <= i < p ==> ptrs[i] == 0;
    }

    method PruneEntries(b: nat, level: nat, ptrs0: seq<nat>, ghost pend: map<nat, Block>) returns (ptrs: seq<nat>)
      requires ValidPending(pend) && b in lvl && lvl[b] == level >= 2 && Above(pend, lvl, level)
      requires b in disk && |disk[b]| == 4 * p && |ptrs0| == p && Holds(disk[b], ptrs0)
      requires Sync(alloc, free, vol)
      modifies this`disk, this`free, this`lvl, this`parent, alloc
      ensures Sync(alloc, free, vol)
      ensures ValidPending(pend) && Pruned(old(Pending(pend)), old(free), Pending(pend), free, b, p)
      ensures |ptrs| == p && forall j :: 0 <= j < p ==> Ptr(Pending(pend), b, j) == ptrs[j]
      ensures KeptOutside(old(Pending(pend)), old(disk), disk, b)
      decreases level, 0
    {
      hide Sync, Inv, Pruned, KeptOutside, Holds, FreeOk, AllZero, Put32, Get32;
      ghost var t0, f0, disk0 := Pending(pend), free, disk;
      PrunedNone(t0, f0, b);
      KeptRefl(t0, disk, b);
      ptrs := ptrs0;
      var changed := false;
      ghost var now := disk[b];
      assert Pending(pend[b := now]) == t0;
      for i := 0 to p
        invariant Sync(alloc, free, vol)
        invariant ValidPending(pend[b := now]) && Pruned(t0, f0, Pending(pend[b := now]), free, b, i)
        invariant Above(pend, lvl, level) && b in lvl && lvl[b] == level
        invariant b in disk && disk[b] == disk0[b] && KeptOutside(t0, disk0, disk, b) && (!changed ==> now == disk[b])
        invariant |ptrs| == p && |now| == 4 * p && Holds(now, ptrs)
      {
        HoldsAt(now, ptrs, i);
        if ptrs[i] == 0 {
          PruneSkip(t0, f0, Pending(pend[b := now]), free, b, i);
        } else {
          ghost var was := now;
          var e;
          e, now := PruneEntry(b, level, i, ptrs[i], pend, was, t0, f0, disk0);
          if e {
            HoldsPut(was, ptrs, i);
            ptrs := ptrs[i := 0];
            changed := true;
          }
        }
      }
      WriteBack(b, ptrs, changed, pend, now, t0, disk0);
    }

    /** Write the pruned copy of `b` if an entry was cleared. */
    method WriteBack(b: nat, ptrs: seq<nat>, changed: bool, ghost pend: map<nat, Block>, ghost now: Block,
                     ghost t0: Tree, ghost disk0: map<nat, Block>)
      requires b in disk && b !in pend && |disk[b]| == 4 * p && |ptrs| == p && Holds(now, ptrs)
      requires (!changed ==> now == disk[b])
      requires Inv(t0) && b in t0.lvl && KeptOutside(t0, disk0, disk, b)
      modifies this`disk
      ensures Pending(pend) == old(Pending(pend[b := now])) && KeptOutside(t0, disk0, disk, b)
      ensures disk.Keys == old(disk).Keys
      ensures forall j :: 0 <= j < p ==> Ptr(Pending(pend), b, j) == ptrs[j]
    {
      hide Inv, KeptOutside, Holds, Ptr;
      ghost var t1, diskT := Pending(pend[b := now]), disk;
      if changed {
        HoldsAll(now, ptrs);
        WriteIndirectFull(b, ptrs);
        HoldsSame(disk[b], now, ptrs);
        KeptWrite(t0, disk0, diskT, disk, b);
      }
      assert Pending(pend) == t1;
      HoldsPtr(t1, b, now, ptrs);
    }

    method PruneEntry(b: nat, level: nat, i: nat, c: nat, ghost pend: map<nat, Block>, ghost now: Block,
                      ghost t0: Tree, ghost f0: set<nat>, ghost disk0: map<nat, Block>)
      returns (e: bool, ghost now': Block)
      requires ValidPending(pend[b := now]) && Above(pend, lvl, level) && b in lvl && lvl[b] == level >= 2
      requires i < p && |now| == 4 * p && c == Get32(now, 4 * i) != 0 && b in disk
      requires Pruned(t0, f0, Pending(pend[b := now]), free, b, i) && KeptOutside(t0, disk0, disk, b)
      requires Sync(alloc, free, vol)
      modifies this`disk, this`free, this`lvl, this`parent, alloc
      ensures Sync(alloc, free, vol)
      ensures now' == if e then Put32(now, 4 * i, 0) else now
      ensures ValidPending(pend[b := now']) && Pruned(t0, f0, Pending(pend[b := now']), free, b, i + 1)
      ensures Above(pend, lvl, level) && b in lvl && lvl[b] == level
      ensures b in disk && disk[b] == old(disk)[b] && KeptOutside(t0, disk0, disk, b)
      decreases level - 1, 2
    {
      hide Sync, Inv, Pruned, KeptOutside, Get32, Put32, AllZero, FreeOk, Below;
      ghost var t, f, diskT := Pending(pend[b := now]), free, disk;
      ghost var over := pend[b := now];
      ChildNode(t, b, i);
      e := PruneIndirect(c, level - 1, over);
      ghost var t1, f1 := Pending(over), free;
      forall x | x in over ensures x in lvl && lvl[x] == t.lvl[x] { PrunedStays(t, f, t1, f1, c, x); }
      KeptChild(t0, f0, t, f, disk0, diskT, disk, b, i);
      if e {
        PruneDrop(t0, f0, t, f, t1, f1, b, i);
        now' := DropEntry(b, i, c, pend, now);
      } else {
        PruneKeep(t0, f0, t, f, t1, f1, b, i);
        now' := now;
      }
    }

    /** Free the empty child behind entry `i` of `b` and forget it. */
    method DropEntry(b: nat, i: nat, c: nat, ghost pend: map<nat, Block>, ghost now: Block) returns (ghost now': Block)
      requires ValidPending(pend[b := now]) && b in lvl && lvl[b] >= 2 && Above(pend, lvl, lvl[b])
      requires i < p && |now| == 4 * p && c == Get32(now, 4 * i) != 0 && AllZero(Pending(pend[b := now]), c)
      requires Sync(alloc, free, vol)
      modifies this`free, this`lvl, this`parent, alloc
      ensures Sync(alloc, free, vol)
      ensures now' == Put32(now, 4 * i, 0) && free == old(free) + {c} && b in lvl && lvl[b] == old(lvl)[b]
      ensures Above(pend, lvl, lvl[b])
      ensures ValidPending(pend[b := now']) && SlotOk(old(Pending(pend[b := now])), Kid(b, i))
      ensures Pending(pend[b := now']) == Unlink(old(Pending(pend[b := now])), Kid(b, i))
    {
      hide Sync, Inv, Get32, Put32, AllZero, FreeOk, Hangs, RootLevel, Resolve, NodeAt;
      ghost var t := Pending(pend[b := now]);
      DropOk(t, free, b, i);
      FreeBlock(c);
      lvl, parent := lvl - {c}, parent - {c};
      now' := Put32(now, 4 * i, 0);
      assert Pending(pend[b := now']) == Unlink(t, Kid(b, i));
    }

    /** Prune under one root pointer. */
    method PruneTop(k: nat)
      requires Valid() && 12 <= k < SLOTS && BusyTops(T(), k)
      requires Sync(alloc, free, vol)
      modifies this`disk, this`free, this`root, this`lvl, this`parent, alloc
      ensures Sync(alloc, free, vol)
      ensures Valid() && Shrunk(old(T()), old(free), T(), free) && SameFile(old(T()), T()) && BusyTops(T(), k + 1)
    {
      hide Sync, Inv, Pruned, KeptOutside, AllZero, BusyTops, SameFile, Shrunk, FreeOk;
      ghost var t, f := T(), free;
      assert Pending(map[]) == t;
      ShrunkRefl(t, f);
      SameFileRefl(t);
      var b := root[k];
      if b == 0 {
        BusyTopsSkip(t, k);
        return;
      }
      RootNode(t, k);
      var e := PruneIndirect(b, k - 11, map[]);
      assert Pending(map[]) == T();
      ghost var t1, f1 := T(), free;
      PrunedParts(t, f, t1, f1, b);
      if e {
        DropRoot(t, f, t1, f1, k);
        DropRootOk(t1, f1, k);
        FreeBlock(b);
        root := root[k := 0];
        lvl, parent := lvl - {b}, parent - {b};
        assert T() == Unlink(t1, Root(k));
      } else {
        PruneRoot(t, f, t1, f1, k);
      }
    }

    /** Free the indirect blocks that lead to no data any more. */
    method PruneEmptyIndirects()
      requires Valid()
      requires Sync(alloc, free, vol)
      modifies this`disk, this`free, this`root, this`lvl, this`parent, alloc
      ensures Sync(alloc, free, vol)
      ensures Valid() && Shrunk(old(T()), old(free), T(), free) && SameFile(old(T()), T())
      ensures NoEmpty(T())
    {
      hide Sync, Inv, AllZero, BusyTops, SameFile, Shrunk, FreeOk, NoEmpty;
      ghost var t0, f0 := T(), free;
      ShrunkRefl(t0, f0);
      SameFileRefl(t0);
      BusyDirect(t0);
      for k := 12 to 15
        invariant Sync(alloc, free, vol)
        invariant Valid() && Shrunk(t0, f0, T(), free) && SameFile(t0, T()) && BusyTops(T(), k)
      {
        ghost var t, f := T(), free;
        PruneTop(k);
        ShrunkTrans(t0, f0, t, f, T(), free);
        SameFileTrans(t0, t, T());
      }
      NoEmptyAll(T());
    }

    method SetSize(n: nat)
      requires n < U64
      modifies this`size
      ensures size == StoredSize(n)
    {
      size := n % U32 + if largeFile then n / U32 * U32 else 0;
    }

    /** What is left of a size once stored in the inode. */
    function StoredSize(n: nat): nat { if largeFile then n else n % U32 }

    /** The number of blocks a size needs, as a 32-bit block number. */
    function Blocks(n: nat): nat
      requires p > 0
    {
      (n + 4 * p - 1) / (4 * p) % U32
    }

    /** Free the logical blocks of `[keep, upto)`, stopping at the first that cannot be looked up. */
    method ClearRange(keep: nat, upto: nat) returns (r: Result<()>)
      requires Valid()
      requires Sync(alloc, free, vol)
      modifies this`disk, this`free, this`root, this`lvl, this`parent, alloc
      ensures Sync(alloc, free, vol)
      ensures Valid() && Shrunk(old(T()), old(free), T(), free) && Cleared(old(T()), T(), keep, upto)
      ensures r.Err? <==> keep < upto && MaxBlocks(p) < upto && old(root)[14] != 0
    {
      hide Sync, Inv, Shrunk, FreeOk, Cleared, MaxBlocks;
      ghost var t0, f0 := T(), free;
      ShrunkRefl(t0, f0);
      ClearedRefl(t0, keep, keep);
      ClearedRefl(t0, keep, upto);
      if upto < keep { return Ok(()); }
      for lb := keep to upto
        invariant Sync(alloc, free, vol)
        invariant Valid() && Shrunk(t0, f0, T(), free) && Cleared(t0, T(), keep, lb) && root[14] == old(root)[14]
        invariant keep < lb ==> lb <= MaxBlocks(p) || root[14] == 0
      {
        ghost var t, f := T(), free;
        r := FreeAndClearLogical(lb);
        ShrunkTrans(t0, f0, t, f, T(), free);
        if r.Err? {
          ClearedRest(t0, t, keep, lb, upto);
          return;
        }
        ClearedTrans(t0, t, T(), keep, lb);
      }
      r := Ok(());
    }

    /** Truncate or extend the file. */
    method TruncateTo(newSize: nat) returns (r: Result<()>)
      requires Valid() && newSize < U64
      requires Sync(alloc, free, vol)
      modifies this`disk, this`free, this`root, this`lvl, this`parent, this`size, this`iBlocks, alloc
      ensures Sync(alloc, free, vol)
      ensures Valid() && (r.Err? ==> size == old(size) && iBlocks == old(iBlocks))
      ensures newSize == 0 ==> r.Ok? && lvl == map[] && free == old(free) + old(lvl).Keys && size == 0 && iBlocks == 0
      ensures newSize == 0 ==> (iBlocks == NodeSectors() <==> fileAcl == 0 || sectors == 0)
      ensures 0 < newSize && old(size) <= newSize ==>
                r.Ok? && T() == old(T()) && free == old(free) && size == StoredSize(newSize) && iBlocks == old(iBlocks)
      ensures 0 < newSize < old(size) ==>
                && Shrunk(old(T()), old(free), T(), free) && Cleared(old(T()), T(), Blocks(newSize), Blocks(old(size)))
                && (r.Err? <==> Blocks(newSize) < Blocks(old(size)) && MaxBlocks(p) < Blocks(old(size)) && old(root)[14] != 0)
                && (r.Ok? ==> NoEmpty(T()) && iBlocks == NodeSectors() && size == StoredSize(newSize))
      ensures 0 < newSize < old(size) && r.Ok? ==>
                && BytesCleared(old(T()), T(), Blocks(newSize), Blocks(old(size)))
                && (ZeroTail(T(), newSize, Blocks(newSize)) <==> ZeroTail(old(T()), newSize, Blocks(newSize)))
    {
      hide Sync, Inv, Shrunk, FreeOk, Cleared, MaxBlocks, NoEmpty, SameFile, NodeSectors, StoredSize, BytesCleared;
      hide ZeroTail;
      if newSize == 0 {
        FreeAllBlocks();
        SetSize(0);
        ZeroFacts();
      } else if newSize >= size {
        SetSize(newSize);
      } else {
        ghost var t0, f0 := T(), free;
        r := ClearRange(Blocks(newSize), Blocks(size));
        if r.Err? { return; }
        ghost var t1, f1 := T(), free;
        PruneEmptyIndirects();
        ShrunkTrans(t0, f0, t1, f1, T(), free);
        ClearedSame(t0, t1, T(), Blocks(newSize), Blocks(size));
        ClearedBytes(t0, f0, T(), free, Blocks(newSize), Blocks(size));
        TailAfter(t0, T(), newSize, Blocks(newSize), Blocks(size));
        SetSize(newSize);
        RecomputeIBlocks();
      }
      r := Ok(());
    }

    lemma ZeroFacts()
      ensures StoredSize(0) == 0 && (lvl == map[] ==> NodeSectors() == if fileAcl != 0 then sectors else 0)
    {
      assert lvl == map[] ==> lvl.Keys == {};
      SectorsAdd(0, 1, sectors);
    }

    // ---- file contents ----

    /** `read_fs_blocks`: consecutive blocks in one request. */
    method ReadFsBlocks(first: nat, count: nat) returns (d: Block)
      requires p > 0 && forall j :: first <= j < first + count ==> Stored(T(), j)
      ensures |d| == Start(count, 4 * p) && RunRead(T(), first, count, d)
    {
      hide Start, BlockNo, BlockOff;
      StartZero(4 * p);
      d := [];
      for j := 0 to count
        invariant |d| == Start(j, 4 * p) && RunRead(T(), first, j, d)
      {
        forall k | |d| <= k < |d| + 4 * p ensures BlockNo(k, 4 * p) == j && BlockOff(k, 4 * p) == k - |d| {
          InBlock(k, j, 4 * p);
          PosSplit(k, 4 * p);
        }
        StartNext(j, 4 * p);
        assert Stored(T(), first + j);
        d := d + disk[first + j];
      }
    }

    /** `write_fs_blocks`: consecutive blocks in one request. */
    method WriteFsBlocks(first: nat, count: nat, d: Block)
      requires Start(count, 4 * p) == |d|
      modifies this`disk
      ensures disk == WriteRun(old(disk), first, count, d, 4 * p)
    {
      StartZero(4 * p);
      hide Start, Chunk;
      for j := 0 to count
        invariant Start(j, 4 * p) <= |d| && disk == WriteRun(old(disk), first, j, d, 4 * p)
      {
        StartAdd(j + 1, count - (j + 1), 4 * p);
        disk := disk[first + j := Chunk(d, j, 4 * p)];
      }
    }

    /** The run of consecutive blocks from `l`, at most `most` long. */
    method ProbeRun(l: nat, phys: nat, most: nat) returns (r: Result<nat>)
      requires Inv(T()) && most >= 1 && l < MaxBlocks(p) && Resolve(T(), l) == phys != 0
      requires l < U32 && (MaxBlocks(p) < U32 || l + most <= U32)
      ensures r.Ok? ==> 1 <= r.value <= most && RunAt(T(), l, phys, r.value) && l + r.value <= U32
      ensures r.Err? ==> l + most > MaxBlocks(p) && root[14] != 0
    {
      hide Inv, Resolve, MaxBlocks, RunAt;
      ghost var t := T();
      RunStart(t, l, phys);
      var run := 1;
      while run < most
        invariant 1 <= run <= most && RunAt(t, l, phys, run) && l + run <= U32
      {
        RunFits(t, l, phys, run);
        var np := ResolveBlockId((l + run) % U32);
        if np.Err? { return Err(np.error); }
        if np.value != phys + run { break; }
        RunLonger(t, l, phys, run);
        run := run + 1;
      }
      r := Ok(run);
    }

    /** Whole blocks from `pos` on, in one request. */
    method ReadRun(remaining: nat, l: nat, phys: nat, ghost pos: nat) returns (r: Result<Block>)
      requires Inv(T()) && remaining >= 4 * p && pos == Start(l, 4 * p) && l < MaxBlocks(p)
      requires Resolve(T(), l) == phys != 0 && Served(p, pos, remaining)
      ensures ReadOutcome(T(), pos, remaining, r)
    {
      hide Inv, Resolve, MaxBlocks, Start, BlockNo, BlockOff, BlockOf, ReadOutcome, RunAt, RunRead, FileByte;
      TreeParams(T());
      var most := Min(remaining / (4 * p), MAX_BULK_BLOCKS);
      WholeBlocks(remaining, 4 * p, most);
      InBlock(pos, l, 4 * p);
      RunServed(p, pos, remaining, l, most);
      var run := ProbeRun(l, phys, most);
      if run.Err? {
        ReadFails(T(), pos, remaining, l, most);
        return Err(run.error);
      }
      RunStored(T(), l, phys, run.value);
      var d := ReadFsBlocks(phys, run.value);
      ReadRunOk(T(), pos, remaining, l, phys, run.value, most, d);
      r := Ok(d);
    }

    /** Part of a block, or a hole; `pos` is where the request for `at` is served. */
    method ReadPart(at: nat, remaining: nat, ghost pos: nat) returns (r: Result<Block>)
      requires Inv(T()) && remaining > 0 && p > 0 && pos == Cast(at, 4 * p)
      ensures ReadOutcome(T(), pos, remaining, r)
    {
      hide Inv, Resolve, MaxBlocks, Start, BlockNo, BlockOff, BlockOf, ReadOutcome, RunAt, RunRead, FileByte;
      TreeParams(T());
      var l, o := at / (4 * p) % U32, at % (4 * p);
      DivIs(at, 4 * p);
      CastExact(at, 4 * p);
      assert l == BlockNo(pos, 4 * p) && o == BlockOff(pos, 4 * p);
      hide Cast;
      var chunk := Min(remaining, 4 * p - o);
      var phys := ResolveBlockId(l);
      if phys.Err? {
        ReadFails(T(), pos, remaining, l, 1);
        return Err(phys.error);
      }
      if phys.value == 0 {
        HolePart(T(), l, o, chunk);
        r := Ok(Zeros(chunk));
      } else {
        DataNode(T(), l);
        r := Ok(disk[phys.value][o..o + chunk]);
      }
      ReadPartOk(T(), pos, remaining, chunk, r.value);
    }

    method ReadStep(at: nat, remaining: nat, ghost pos: nat) returns (r: Result<Block>)
      requires Inv(T()) && remaining > 0 && p > 0 && pos == Cast(at, 4 * p) && Uncut(p, at, remaining)
      ensures ReadOutcome(T(), pos, remaining, r)
    {
      hide Inv, Resolve, MaxBlocks, Start, BlockNo, BlockOff, BlockOf, ReadOutcome, RunAt, RunRead, FileByte;
      TreeParams(T());
      DivIs(at, 4 * p);
      CastExact(at, 4 * p);
      PosServed(p, at, remaining);
      PosSplit(pos, 4 * p);
      var l := at / (4 * p) % U32;
      if at % (4 * p) == 0 && remaining >= 4 * p {
        var phys := ResolveBlockId(l);
        if phys.Err? {
          ReadFails(T(), pos, remaining, l, 1);
          return Err(phys.error);
        }
        if phys.value != 0 {
          r := ReadRun(remaining, l, phys.value, pos);
          return;
        }
      }
      r := ReadPart(at, remaining, pos);
    }

    /** Read up to `len` bytes from `offset`, not past the end of the file; holes read as zeros.  Block numbers
        are cast to 32 bits.  Fails exactly when the triple-indirect tree exists and does not reach some byte. */
    method ReadAt(offset: nat, len: nat) returns (r: Result<Block>)
      requires Inv(T()) && p > 0 && Uncut(p, offset, ReadLen(offset, len))
      ensures r.Ok? ==> |r.value| == ReadLen(offset, len) && forall k :: 0 <= k < |r.value| ==>
                r.value[k] == FileByte(T(), Cast(offset + k, 4 * p))
      ensures r.Err? <==> exists at :: offset <= at < offset + ReadLen(offset, len) && !Near(T(), at)
    {
      hide FileByte, BlockNo, MaxBlocks, Inv, ReadSoFar, ReadOutcome, Cast, Uncut, Near;
      TreeParams(T());
      if offset >= size || len == 0 { return Ok([]); }
      var n := Min(len, size - offset);
      ghost var t := T();
      var out: Block := [];
      ReadNothing(t, offset);
      while |out| < n
        invariant |out| <= n && ReadSoFar(t, offset, out)
        decreases n - |out|
      {
        UncutRest(p, offset, n, |out|);
        var step := ReadStep(offset + |out|, n - |out|, Cast(offset + |out|, 4 * p));
        ReadMore(t, offset, out, n - |out|, step);
        if step.Err? { return Err(step.error); }
        out := out + step.value;
      }
      ReadIsAll(t, offset, out);
      r := Ok(out);
    }

    function ReadLen(offset: nat, len: nat): nat
      reads this
    {
      if offset >= size then 0 else Min(len, size - offset)
    }

    /** The write so far: `n` bytes are in place, those up to `hi` undetermined, `newly` blocks were added, and the
        logical blocks `[a, c)` are there. */
    ghost predicate Writing(t0: Tree, f0: set<nat>, off: nat, buf: Block, n: nat, hi: nat, newly: nat, a: nat, c: nat)
      reads this
    {
      && Valid() && Wrote(t0, T(), off, buf, n, hi) && Extends(t0, f0, T(), free)
      && |lvl.Keys| == |t0.lvl.Keys| + newly && FedTo(t0, f0, T(), free, a, c)
    }

    /** Allocate one block of a write. */
    method WriteAlloc(l: nat, zeroData: bool, ghost t0: Tree, ghost f0: set<nat>, ghost off: nat, ghost buf: Block,
                      ghost n: nat, ghost hi: nat, ghost hi': nat, ghost sofar: nat, ghost a: nat, ghost b: nat)
      returns (r: Result<(nat, nat)>)
      requires Writing(t0, f0, off, buf, n, hi, sofar, a, l) && hi <= hi' && l < U32 && a <= l < b
      requires !zeroData ==> off + n <= Start(l, 4 * p) && Start(l, 4 * p) + 4 * p <= hi'
      requires Sync(alloc, free, vol)
      modifies this`disk, this`free, this`root, this`lvl, this`parent, alloc
      ensures Sync(alloc, free, vol)
      ensures r.Ok? ==>
                && Writing(t0, f0, off, buf, n, if zeroData then hi else hi', sofar + r.value.1, a, l + 1)
                && Allocated(old(T()), old(free), T(), free, l, r.value.0) && l < MaxBlocks(p)
      ensures r.Err? ==> Valid() && Wrote(t0, T(), off, buf, n, hi) && Extends(t0, f0, T(), free) && Refused(t0, f0, a, b)
    {
      hide Sync, Inv, FreeOk, Wrote, Extends, Allocated, Grown, MaxBlocks, Start, FedTo, Refused, Fed, Needs, Trails;
      ghost var t, f := T(), free;
      r := AllocateBlockForOffset(l, zeroData);
      if r.Err? {
        FedRefused(t0, f0, t, f, a, l, b);
        WroteGrown(t0, t, f, T(), free, off, buf, n, hi);
        ExtendsGrown(t0, f0, t, f, T(), free);
        return;
      }
      ExtendsAlloc(t0, f0, t, f, T(), free, l, r.value.0);
      FedNext(t0, f0, t, f, T(), free, a, l, r.value.0);
      if zeroData {
        FreshIsNew(t, f, T(), free, l, r.value.0);
        WroteAllocZeroed(t0, t, f, T(), free, l, r.value.0, off, buf, n, hi);
      } else {
        WroteAlloc(t0, t, f, T(), free, l, r.value.0, off, buf, n, hi, hi');
      }
    }

    /** Write a run of allocated blocks, `done` blocks into the region that starts with byte `n` of the buffer. */
    method WriteFlush(first: nat, run: nat, l: nat, buf: Block, n: nat, done: nat, ghost t0: Tree, ghost f0: set<nat>,
        ghost off: nat,
                      ghost hi: nat, ghost newly: nat, ghost a: nat, ghost c: nat)
      requires Writing(t0, f0, off, buf, n + Start(done, 4 * p), hi, newly, a, c) && RunAt(T(), l + done, first, run)
      requires off + n == Start(l, 4 * p) && n + Start(done + run, 4 * p) <= |buf|
      modifies this`disk
      ensures Writing(t0, f0, off, buf, n + Start(done + run, 4 * p), hi, newly, a, c) && SameFile(old(T()), T())
    {
      hide Inv, FreeOk, Wrote, Extends, RunAt, Start, Resolve, SameFile, FedTo;
      ghost var t := T();
      StartAdd(l, done, 4 * p);
      StartAdd(done, run, 4 * p);
      StartIs(done, 4 * p);
      StartIs(run, 4 * p);
      var from := n + done * (4 * p);
      var d := buf[from..from + run * (4 * p)];
      WroteRun(t0, t, off, buf, from, hi, l + done, first, run, d, run);
      WriteFsBlocks(first, run, d);
      assert T() == t.(disk := WriteRun(t.disk, first, run, d, 4 * p));
      RunFrame(t0, f0, t, T(), free, off, buf, from + Start(run, 4 * p), hi);
      FedSame(t0, f0, t, T(), free, a, c);
    }

    method BulkLimit(remaining: nat) returns (most: nat)
      requires 0 < 4 * p <= remaining
      ensures 1 <= most <= MAX_BULK_BLOCKS && Start(most, 4 * p) <= remaining
    {
      most := Min(remaining / (4 * p), MAX_BULK_BLOCKS);
      WholeBlocks(remaining, 4 * p, most);
    }

    /** Whole blocks: allocate them without zeroing and write each physically contiguous run at once. */
    method WriteRegion(ghost off: nat, buf: Block, n: nat, l: nat, ghost t0: Tree, ghost f0: set<nat>, ghost sofar: nat,
        ghost a: nat, ghost b: nat) returns (r: Result<(nat, nat)>)
      requires p > 0 && n + 4 * p <= |buf| && a <= l && b == BlockNo(off + |buf| - 1, 4 * p) + 1
      requires Writing(t0, f0, off, buf, n, 0, sofar, a, l) && off + n == Start(l, 4 * p)
      requires Served(p, off + n, |buf| - n)
      requires Sync(alloc, free, vol)
      modifies this`disk, this`free, this`root, this`lvl, this`parent, alloc
      ensures Sync(alloc, free, vol)
      ensures r.Ok? ==>
                && r.value.0 >= 1 && n + Start(r.value.0, 4 * p) <= |buf| && l + r.value.0 <= MaxBlocks(p)
                && Writing(t0, f0, off, buf, n + Start(r.value.0, 4 * p), 0, sofar + r.value.1, a, l + r.value.0)
      ensures r.Err? ==>
                Valid() && Wrote(t0, T(), off, buf, 0, off + |buf|) && Extends(t0, f0, T(), free) && Refused(t0, f0, a, b)
    {
      hide Sync, Inv, FreeOk, Wrote, Extends, RunAt, Start, Resolve, SameFile, Allocated, MaxBlocks, Served;
      hide FedTo, Refused, BlockNo;
      ghost var bs := 4 * p;
      var most := BulkLimit(|buf| - n);
      RunServed(p, off + n, |buf| - n, l, most);
      RunWithin(l, most, bs, off + |buf| - 1);
      StartOne(bs);
      StartZero(bs);
      ghost var t, f := T(), free;
      var x := WriteAlloc(l, false, t0, f0, off, buf, n, 0, off + n + bs, sofar, a, b);
      if x.Err? {
        WroteMore(t0, T(), off, buf, n, 0, 0, off + |buf|);
        return Err(x.error);
      }
      AllocResolves(t, f, T(), free, l, x.value.0);
      RunStart(T(), l, x.value.0);
      var first: nat, run: nat, done: nat, newly: nat := x.value.0, 1, 0, x.value.1;
      while done + run < most
        invariant Sync(alloc, free, vol)
        invariant 1 <= run && done + run <= most
        invariant Writing(t0, f0, off, buf, n + Start(done, bs), off + n + Start(done + run, bs), sofar + newly, a,
                    l + done + run)
        invariant RunAt(T(), l + done, first, run)
      {
        RunFits(T(), l + done, first, run);
        var s := WriteNext(off, buf, n, l, first, run, done, most, t0, f0, sofar + newly, a, b);
        if s.Err? { return Err(s.error); }
        first, run, done, newly := s.value.first, s.value.run, s.value.done, newly + s.value.newly;
      }
      RunFits(T(), l + done, first, run);
      WriteFlush(first, run, l, buf, n, done, t0, f0, off, off + n + Start(done + run, bs), sofar + newly, a, l + done + run);
      WroteClosed(t0, T(), off, buf, n + Start(most, bs), off + n + Start(most, bs));
      r := Ok((done + run, newly));
    }

    /** Allocate the next block of the region: it prolongs the pending run, or the run is written and a
        new one starts. */
    method WriteNext(ghost off: nat, buf: Block, n: nat, l: nat, first: nat, run: nat, done: nat, ghost most: nat,
                     ghost t0: Tree, ghost f0: set<nat>, ghost sofar: nat, ghost a: nat, ghost b: nat)
      returns (r: Result<RunState>)
      requires Writing(t0, f0, off, buf, n + Start(done, 4 * p), off + n + Start(done + run, 4 * p), sofar, a,
                 l + done + run)
      requires a <= l && l + most <= b
      requires RunAt(T(), l + done, first, run) && l + done + run < U32
      requires 1 <= run && done + run < most && off + n == Start(l, 4 * p) && n + Start(most, 4 * p) <= |buf|
      requires Sync(alloc, free, vol)
      modifies this`disk, this`free, this`root, this`lvl, this`parent, alloc
      ensures Sync(alloc, free, vol)
      ensures r.Ok? ==> var s := r.value;
                && 1 <= s.run && s.done + s.run == done + run + 1 && RunAt(T(), l + s.done, s.first, s.run)
                && Writing(t0, f0, off, buf, n + Start(s.done, 4 * p), off + n + Start(s.done + s.run, 4 * p),
                     sofar + s.newly, a, l + s.done + s.run)
      ensures r.Err? ==>
                Valid() && Wrote(t0, T(), off, buf, 0, off + |buf|) && Extends(t0, f0, T(), free) && Refused(t0, f0, a, b)
    {
      hide Sync, Inv, FreeOk, Wrote, Extends, RunAt, Start, Resolve, SameFile, Allocated, MaxBlocks, Served, FedTo, Refused;
      ghost var bs := 4 * p;
      StartsOf(l, done, run, most, bs);
      ghost var t, f := T(), free;
      var x := WriteAlloc((l + done + run) % U32, false, t0, f0, off, buf, n + Start(done, bs), off + n + Start(done + run, bs),
        off + n + Start(done + run + 1, bs), sofar, a, b);
      if x.Err? {
        WroteMore(t0, T(), off, buf, n + Start(done, bs), off + n + Start(done + run, bs), 0, off + |buf|);
        return Err(x.error);
      }
      AllocResolves(t, f, T(), free, l + done + run, x.value.0);
      RunAlloc(t, f, T(), free, l + done, first, run, x.value.0);
      if x.value.0 == first + run {
        RunLonger(T(), l + done, first, run);
        return Ok(RunState(first, run + 1, done, x.value.1));
      }
      ghost var t1 := T();
      WriteFlush(first, run, l, buf, n, done, t0, f0, off, off + n + Start(done + run + 1, bs), sofar + x.value.1, a,
        l + done + run + 1);
      SameResolve(t1, T(), l + done + run);
      RunStart(T(), l + done + run, x.value.0);
      r := Ok(RunState(x.value.0, 1, done + run, x.value.1));
    }

    /** One block that is not overwritten as a whole: read, patched, written. */
    method WritePart(ghost off: nat, buf: Block, n: nat, l: nat, o: nat, chunk: nat, ghost t0: Tree, ghost f0: set<nat>,
        ghost sofar: nat, ghost a: nat, ghost b: nat)
      returns (r: Result<nat>)
      requires a <= l < b
      requires Writing(t0, f0, off, buf, n, 0, sofar, a, l) && n + chunk <= |buf| && o + chunk <= 4 * p
      requires off + n == Start(l, 4 * p) + o && l < U32
      requires Sync(alloc, free, vol)
      modifies this`disk, this`free, this`root, this`lvl, this`parent, alloc
      ensures Sync(alloc, free, vol)
      ensures r.Ok? ==> Writing(t0, f0, off, buf, n + chunk, 0, sofar + r.value, a, l + 1) && l < MaxBlocks(p)
      ensures r.Err? ==> Valid() && Wrote(t0, T(), off, buf, n, 0) && Extends(t0, f0, T(), free) && Refused(t0, f0, a, b)
    {
      hide Sync, Inv, FreeOk, Wrote, Extends, Start, Resolve, SameFile, Allocated, MaxBlocks, FedTo, Refused;
      ghost var t, f := T(), free;
      var x := WriteAlloc(l, true, t0, f0, off, buf, n, 0, 0, sofar, a, b);
      if x.Err? { return Err(x.error); }
      AllocResolves(t, f, T(), free, l, x.value.0);
      DataNode(T(), l);
      ghost var t1 := T();
      var block := Patch(disk[x.value.0], o, buf[n..n + chunk]);
      assert Patched(t1, l, o, buf, n, chunk, block);
      WroteBlock(t0, t1, off, buf, n, 0, l, o, chunk, block);
      disk := disk[x.value.0 := block];
      PartFrame(t0, f0, t1, free, l, block);
      FedSame(t0, f0, t1, T(), free, a, l + 1);
      r := Ok(x.value.1);
    }

    /** The next piece of a write: whole blocks, or part of one.  The request for `offset` is served at `off`. */
    method WriteStep(offset: nat, buf: Block, n: nat, ghost off: nat, ghost t0: Tree, ghost f0: set<nat>, ghost sofar: nat,
        ghost a: nat, ghost b: nat) returns (r: Result<(nat, nat)>)
      requires p > 0 && n < |buf| && a <= BlockNo(off + n, 4 * p) && b == BlockNo(off + |buf| - 1, 4 * p) + 1
      requires Writing(t0, f0, off, buf, n, 0, sofar, a, BlockNo(off + n, 4 * p))
      requires Due(p, offset, off, n, |buf|)
      requires Sync(alloc, free, vol)
      modifies this`disk, this`free, this`root, this`lvl, this`parent, alloc
      ensures Sync(alloc, free, vol)
      ensures r.Ok? ==>
                && 1 <= r.value.0 <= |buf| - n
                && var c := BlockNo(off + n + r.value.0 - 1, 4 * p) + 1;
                   Writing(t0, f0, off, buf, n + r.value.0, 0, sofar + r.value.1, a, c)
                   && a <= c && (n + r.value.0 < |buf| ==> c == BlockNo(off + n + r.value.0, 4 * p))
      ensures r.Ok? ==> Due(p, offset, off, n + r.value.0, |buf|)
      ensures r.Err? ==>
                Valid() && Wrote(t0, T(), off, buf, 0, off + |buf|) && Extends(t0, f0, T(), free) && Refused(t0, f0, a, b)
    {
      hide Sync, Inv, FreeOk, Wrote, Extends, Start, Resolve, SameFile, Allocated, MaxBlocks, BlockNo, BlockOff;
      hide Cast, Served, FedTo, Refused;
      var pos := offset + n;
      DivIs(pos, 4 * p);
      CastExact(pos, 4 * p);
      PosSplit(off + n, 4 * p);
      var l, o := pos / (4 * p) % U32, pos % (4 * p);
      if o == 0 && |buf| - n >= 4 * p {
        var w := WriteRegion(off, buf, n, l, t0, f0, sofar, a, b);
        if w.Err? { return Err(w.error); }
        StartIs(w.value.0, 4 * p);
        StartPositive(w.value.0, 4 * p);
        RunEnd(l, w.value.0, w.value.0, 4 * p);
        NextStart(l, w.value.0, 4 * p);
        if n + Start(w.value.0, 4 * p) < |buf| { NextServed(p, pos, off + n, |buf| - n, Start(w.value.0, 4 * p)); }
        return Ok((w.value.0 * (4 * p), w.value.1));
      }
      var chunk := Min(|buf| - n, 4 * p - o);
      BlockNoMono(off + n, off + |buf| - 1, 4 * p);
      var w := WritePart(off, buf, n, l, o, chunk, t0, f0, sofar, a, b);
      if w.Err? {
        WroteMore(t0, T(), off, buf, n, 0, 0, off + |buf|);
        return Err(w.error);
      }
      InBlock(off + n + chunk - 1, l, 4 * p);
      NextStart(l, 1, 4 * p);
      if n + chunk < |buf| { NextServed(p, pos, off + n, |buf| - n, chunk); }
      r := Ok((chunk, w.value));
    }

    lemma WritingStart(off: nat, buf: Block, a: nat)
      requires Valid()
      ensures Writing(T(), free, off, buf, 0, 0, 0, a, a)
    {
      hide Inv, FreeOk, Wrote, Extends, FedTo;
      WroteNone(T(), off, buf);
      ExtendsRefl(T(), free);
      FreeApart(T(), free);
      FedNone(T(), free, a);
    }

    lemma WritingEnd(t0: Tree, f0: set<nat>, off: nat, buf: Block, newly: nat, a: nat, c: nat)
      requires Writing(t0, f0, off, buf, |buf|, 0, newly, a, c) && a <= c
      ensures Valid() && Wrote(t0, T(), off, buf, |buf|, 0) && Extends(t0, f0, T(), free)
      ensures |lvl.Keys| == |t0.lvl.Keys| + newly && Inv(t0) && (a < c ==> !Refused(t0, f0, a, c))
    {
      hide Inv, FreeOk, Wrote, Extends, Fed, Trails, Found, Refused;
      FedEnough(t0, f0, T(), free, a, c);
    }

    method WriteAll(offset: nat, buf: Block, ghost off: nat) returns (r: Result<nat>)
      requires Valid() && p > 0 && off == Cast(offset, 4 * p) && Uncut(p, offset, |buf|)
      requires Sync(alloc, free, vol)
      modifies this`disk, this`free, this`root, this`lvl, this`parent, alloc
      ensures Sync(alloc, free, vol)
      ensures Valid() && Extends(old(T()), old(free), T(), free)
      ensures r.Ok? ==> Wrote(old(T()), T(), off, buf, |buf|, 0) && |lvl.Keys| == |old(lvl).Keys| + r.value
      ensures r.Err? ==> Wrote(old(T()), T(), off, buf, 0, off + |buf|)
      ensures |buf| > 0 ==>
                (r.Err? <==> Refused(old(T()), old(free), BlockNo(off, 4 * p), BlockNo(off + |buf| - 1, 4 * p) + 1))
    {
      hide Sync, Inv, FreeOk, Wrote, Extends, Cast, Uncut, Due, FedTo, Refused, BlockNo, Inode.Writing;
      ghost var t0, f0 := T(), free;
      DueFirst(p, offset, |buf|);
      ghost var a: nat, c: nat := BlockNo(off, 4 * p), BlockNo(off, 4 * p);
      ghost var b: nat := if |buf| > 0 then BlockNo(off + |buf| - 1, 4 * p) + 1 else 0;
      if |buf| > 0 { BlockNoMono(off, off + |buf| - 1, 4 * p); }
      WritingStart(off, buf, a);
      var written: nat, newly: nat := 0, 0;
      while written < |buf|
        invariant Sync(alloc, free, vol)
        invariant written <= |buf| && Writing(t0, f0, off, buf, written, 0, newly, a, c) && a <= c
        invariant written < |buf| ==> c == BlockNo(off + written, 4 * p)
        invariant written == |buf| && written > 0 ==> c == b
        invariant Due(p, offset, off, written, |buf|)
      {
        var w := WriteStep(offset, buf, written, off, t0, f0, newly, a, b);
        if w.Err? { return Err(w.error); }
        written, newly := written + w.value.0, newly + w.value.1;
        c := BlockNo(off + written - 1, 4 * p) + 1;
      }
      WritingEnd(t0, f0, off, buf, newly, a, c);
      r := Ok(newly);
    }

    /** Write `buf` at `offset`, served at `Cast(offset)`.  A successful write changes exactly its bytes, moves
        the size to the end of the write if that is larger and keeps `i_blocks` in step with the tree; a
        failed one changes no byte outside its range. */
    method WriteAtLocked(offset: nat, buf: Block) returns (r: Result<nat>)
      requires Valid() && p > 0 && Uncut(p, offset, |buf|) && offset + |buf| < U64
      requires Sync(alloc, free, vol)
      modifies this`disk, this`free, this`root, this`lvl, this`parent, this`size, this`iBlocks, alloc
      ensures Sync(alloc, free, vol)
      ensures Valid() && Extends(old(T()), old(free), T(), free)
      ensures r.Ok? ==>
                && r.value == |buf| && Wrote(old(T()), T(), Cast(offset, 4 * p), buf, |buf|, 0)
                && size == (if |buf| > 0 && offset + |buf| > old(size) then StoredSize(offset + |buf|) else old(size))
                && (old(iBlocks) == old(NodeSectors()) ==> iBlocks == NodeSectors())
      ensures r.Err? ==>
                && Wrote(old(T()), T(), Cast(offset, 4 * p), buf, 0, Cast(offset, 4 * p) + |buf|)
                && size == old(size) && iBlocks == old(iBlocks)
      ensures r.Err? <==>
                && |buf| > 0
                && var (a, b) := (BlockNo(Cast(offset, 4 * p), 4 * p), BlockNo(Cast(offset, 4 * p) + |buf| - 1, 4 * p) + 1);
                   Refused(old(T()), old(free), a, b)
    {
      hide Sync, Inv, FreeOk, Wrote, Extends, StoredSize, SectorsOf, Cast, Uncut, Refused, BlockNo;
      if |buf| == 0 {
        WroteNone(T(), Cast(offset, 4 * p), buf);
        ExtendsRefl(T(), free);
        return Ok(0);
      }
      var w := WriteAll(offset, buf, Cast(offset, 4 * p));
      if w.Err? { return Err(w.error); }
      if offset + |buf| > size { SetSize(offset + |buf|); }
      if w.value > 0 { iBlocks := iBlocks + SectorsOf(w.value, sectors); }
      SectorsAdd(|old(lvl).Keys| + if fileAcl != 0 then 1 else 0, w.value, sectors);
      r := Ok(|buf|);
    }

    // ---- the extended-attribute block ----

    /** The attribute block is storage that neither the tree nor the free set uses. */
    ghost predicate AclOk()
      reads this
    {
      fileAcl != 0 ==> fileAcl !in lvl && fileAcl !in free && Stored(T(), fileAcl)
    }

    /** The attribute block with its reference count lowered by one. */
    ghost function Unreferenced(d: Block): Block
      requires |d| >= 8
    {
      var rc := Get32(d, 4);
      Put32(d, 4, if rc == 0 then 0 else rc - 1)
    }

    method DecrementXattrRefcount(b: nat)
      requires b in disk && |disk[b]| == 4 * p >= 8
      modifies this`disk
      ensures disk.Keys == old(disk).Keys && (forall c :: c in disk && c != b ==> disk[c] == old(disk)[c])
      ensures |disk[b]| == 4 * p
      ensures Get32(disk[b], 4) == if old(Get32(disk[b], 4)) == 0 then 0 else old(Get32(disk[b], 4)) - 1
      ensures forall j :: 0 <= j < 4 * p && !(4 <= j < 8) ==> disk[b][j] == old(disk)[b][j]
      ensures disk == old(disk)[b := Unreferenced(old(disk)[b])]
    {
      var rc := Get32(disk[b], 4);
      disk := disk[b := Put32(disk[b], 4, if rc == 0 then 0 else rc - 1)];
    }

    /** Store an attribute block image: in a new block when there is none or when the current one is shared
        with another inode, in place otherwise. */
    method StoreXattrBlock(shared: bool, image: Block) returns (r: Result<()>)
      requires Valid() && AclOk() && |image| == 4 * p >= 8
      requires Sync(alloc, free, vol)
      modifies this`disk, this`free, this`fileAcl, this`iBlocks, alloc
      ensures Sync(alloc, free, vol)
      ensures Valid() && AclOk() && SameFile(old(T()), T())
      ensures r.Ok? ==> fileAcl != 0 && disk[fileAcl] == image && (old(iBlocks) == old(NodeSectors()) ==> iBlocks == NodeSectors())
      ensures r.Ok? && old(fileAcl) != 0 && shared ==>
                fileAcl != old(fileAcl) && old(fileAcl) in disk && disk[old(fileAcl)] == Unreferenced(old(disk[fileAcl]))
      ensures r.Ok? ==>
                && free == old(free) - {fileAcl}
                && forall b :: b in old(disk) && b != fileAcl && b != old(fileAcl) ==>
                     b in disk && disk[b] == old(disk)[b]
      ensures r.Err? <==> (old(fileAcl) == 0 || shared) && old(free) == {}
      ensures r.Err? ==> r.error == NoSpace && T() == old(T()) && free == old(free) && fileAcl == old(fileAcl) && iBlocks == old(iBlocks)
    {
      hide Sync, Inv, SameFile, Get32, Put32, Unreferenced, SectorsOf;
      ghost var t0 := T();
      SameFileRefl(t0);
      var target := fileAcl;
      if fileAcl == 0 || shared {
        var nb := AllocBlock();
        if nb.Err? { return Err(nb.error); }
        target := nb.value;
      }
      DataWrite(t0, target, image);
      disk := disk[target := image];
      if fileAcl == 0 {
        iBlocks := iBlocks + sectors;
        SectorsAdd(|lvl.Keys|, 1, sectors);
      } else if shared {
        ghost var t1 := T();
        UnrefLen(disk[fileAcl]);
        DataWrite(t1, fileAcl, Unreferenced(disk[fileAcl]));
        DecrementXattrRefcount(fileAcl);
        SameFileThrough(t0, t1, T());
      }
      fileAcl := target;
      r := Ok(());
    }

    lemma UnrefLen(d: Block)
      requires |d| >= 8
      ensures |Unreferenced(d)| == |d|
    {
    }

    /** Drop the reference to the attribute block, freeing it unless another inode shares it. */
    method DropXattrBlock(shared: bool)
      requires Valid() && AclOk() && fileAcl != 0 && 4 * p >= 8 && fileAcl < U32
      requires Sync(alloc, free, vol)
      modifies this`disk, this`free, this`fileAcl, this`iBlocks, alloc
      ensures Sync(alloc, free, vol)
      ensures Valid() && AclOk() && SameFile(old(T()), T()) && fileAcl == 0
      ensures free == (if shared then old(free) else old(free) + {old(fileAcl)})
      ensures disk == if shared then old(disk)[old(fileAcl) := Unreferenced(old(disk[fileAcl]))] else old(disk)
      ensures old(iBlocks) == old(NodeSectors()) ==> iBlocks == NodeSectors()
    {
      hide Sync, Inv, SameFile, Get32, Put32, Unreferenced, SectorsOf;
      ghost var t0 := T();
      SameFileRefl(t0);
      if shared {
        UnrefLen(disk[fileAcl]);
        DataWrite(t0, fileAcl, Unreferenced(disk[fileAcl]));
        DecrementXattrRefcount(fileAcl);
      } else {
        FreeBlock(fileAcl);
      }
      SectorsAdd(|lvl.Keys|, 1, sectors);
      iBlocks := if iBlocks < sectors then 0 else iBlocks - sectors;
      fileAcl := 0;
    }

    /** What `i_blocks` should be. */
    ghost function NodeSectors(): nat
      reads this
    {
      SectorsOf(|lvl.Keys| + if fileAcl != 0 then 1 else 0, sectors)
    }
  }
}
