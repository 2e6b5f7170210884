/** The kernel heap: intrusive free lists of seven block sizes, refilled from and bypassed to the frame allocator. */
module SlabHeap {
  import opened Bits
  import opened Results
  import opened FrameAllocator
  import opened SlabBlocks

  const MIN_HEAP_BYTES: nat := NUM_SLABS * PAGE_SIZE
  const GROW_PAGES: nat := 8

  // ---- intrusive lists ----

  /** Following `next` words from `head` visits exactly `nodes`. */
  ghost predicate Chain(next: map<nat, nat>, head: nat, nodes: seq<nat>)
    decreases |nodes|
  {
    if nodes == [] then head == 0
    else head == nodes[0] && head != 0 && head in next && Chain(next, next[head], nodes[1..])
  }

  /** Words outside the list do not matter to it. */
  lemma {:induction false} ChainFrame(next: map<nat, nat>, next': map<nat, nat>, head: nat, nodes: seq<nat>)
    requires Chain(next, head, nodes) && forall a :: a in nodes ==> a in next' && (a in next ==> next'[a] == next[a])
    ensures Chain(next', head, nodes)
    decreases |nodes|
  {
    if nodes != [] {
      assert nodes[0] in nodes;
      ChainFrame(next, next', next[head], nodes[1..]);
    }
  }

  ghost predicate Distinct(s: seq<nat>) { forall i, j :: 0 <= i < j < |s| ==> s[i] != s[j] }

  /** The addresses of `n` blocks of `size` bytes from `start` on. */
  ghost function Run(start: nat, size: nat, n: nat): (s: seq<nat>)
    ensures |s| == n && forall i :: 0 <= i < n ==> s[i] == start + i * size
  {
    seq(n, i requires 0 <= i < n => start + i * size)
  }

  /** Each list holds exactly the free blocks of its class, once. */
  ghost predicate ListsOk(next: map<nat, nat>, heads: seq<nat>, lists: seq<seq<nat>>, blocks: map<nat, Block>) {
    && |heads| == |lists| == NUM_SLABS
    && forall c :: 0 <= c < NUM_SLABS ==> ListOk(next, heads[c], lists[c], blocks, c)
  }

  ghost predicate ListOk(next: map<nat, nat>, head: nat, nodes: seq<nat>, blocks: map<nat, Block>, c: nat) {
    Chain(next, head, nodes) && Distinct(nodes) && forall a :: a in nodes <==> a in blocks && blocks[a] == Free(c)
  }

  /** Other lists are not affected when the block at `a` changes hands and its word changes. */
  lemma OtherList(next: map<nat, nat>, next': map<nat, nat>, head: nat, nodes: seq<nat>, blocks: map<nat, Block>,
      blocks': map<nat, Block>, c: nat, a: nat)
    requires ListOk(next, head, nodes, blocks, c)
    requires forall x :: x != a ==> (x in next <==> x in next') && (x in next ==> next[x] == next'[x])
    requires forall x :: x != a ==> (x in blocks <==> x in blocks') && (x in blocks ==> blocks[x] == blocks'[x])
    requires (a in blocks ==> blocks[a] != Free(c)) && (a in blocks' ==> blocks'[a] != Free(c))
    ensures ListOk(next', head, nodes, blocks', c)
  {
    assert a !in nodes;
    ChainNext(next, head, nodes);
    ChainFrame(next, next', head, nodes);
  }

  lemma {:induction false} ChainNext(next: map<nat, nat>, head: nat, nodes: seq<nat>)
    requires Chain(next, head, nodes)
    ensures forall a :: a in nodes ==> a in next && a != 0
    decreases |nodes|
  {
    if nodes != [] { ChainNext(next, next[head], nodes[1..]); }
  }

  /** Taking the first block of a list. */
  lemma PopList(next: map<nat, nat>, head: nat, nodes: seq<nat>, blocks: map<nat, Block>, c: nat, b: Block)
    requires ListOk(next, head, nodes, blocks, c) && nodes != [] && b.Live?
    ensures head == nodes[0] && head in next && head in blocks && blocks[head] == Free(c)
    ensures ListOk(next, next[head], nodes[1..], blocks[head := b], c)
  {
    assert head in nodes;
    forall a ensures a in nodes[1..] <==> a in nodes && a != head {
      if a in nodes && a != head {
        var i :| 0 <= i < |nodes| && nodes[i] == a;
        assert nodes[1..][i - 1] == a;
      }
    }
  }

  /** Returning a block to the front of its list. */
  lemma PushList(next: map<nat, nat>, head: nat, nodes: seq<nat>, blocks: map<nat, Block>, c: nat, a: nat)
    requires ListOk(next, head, nodes, blocks, c) && a != 0 && (a in blocks ==> blocks[a] != Free(c))
    ensures ListOk(next[a := head], a, [a] + nodes, blocks[a := Free(c)], c)
  {
    assert a !in nodes;
    ChainNext(next, head, nodes);
    ChainFrame(next, next[a := head], head, nodes);
    assert ([a] + nodes)[1..] == nodes;
  }

  // ---- carving a range into blocks ----

  lemma RunCons(a: nat, size: nat, n: nat)
    ensures Run(a, size, n + 1) == [a] + Run(a + size, size, n)
  {
    var s, t := Run(a, size, n + 1), [a] + Run(a + size, size, n);
    forall i | 0 <= i < n + 1 ensures s[i] == t[i] {
      if i > 0 { assert i * size == size + (i - 1) * size; }
    }
  }

  /** The blocks of class `c` when each class gets `slot` bytes. */
  ghost function SlabRun(start: nat, slot: nat, c: nat): seq<nat> {
    Blocks(start + c * slot, slot, c)
  }

  /** The blocks of class `c` in a range. */
  ghost function Blocks(start: nat, bytes: nat, c: nat): seq<nat> { Run(start, BlockSize(c), bytes / BlockSize(c)) }

  ghost predicate Paged(a: nat) { a % PAGE_SIZE == 0 }

  lemma PagedSum(a: nat, b: nat)
    requires Paged(a) && Paged(b)
    ensures Paged(a + b)
  {
  }

  ghost predicate Whole(bytes: nat, c: nat) { bytes % BlockSize(c) == 0 }

  /** `blocks` and `n` free blocks of class `c` from `start` on. */
  ghost function Carved(blocks: map<nat, Block>, start: nat, c: nat, n: nat): map<nat, Block> {
    if n == 0 then blocks else Carved(blocks, start, c, n - 1)[start + (n - 1) * BlockSize(c) := Free(c)]
  }

  /** The range was clear, and what lies in it may be held. */
  ghost predicate Clear(base: nat, boot: Boot, regions: seq<Region>, used: set<nat>, blocks: map<nat, Block>,
      start: nat, bytes: nat, c: nat) {
    && start > 0 && c < NUM_SLABS && start % BlockSize(c) == 0 && Untouched(blocks, start, bytes)
    && forall a: nat :: start <= a && a + BlockSize(c) <= start + bytes ==> Held(base, boot, regions, used, a, Free(c))
  }

  lemma {:induction false} CarveOk(base: nat, boot: Boot, regions: seq<Region>, used: set<nat>, blocks: map<nat, Block>,
      start: nat, bytes: nat, c: nat, n: nat)
    requires BlocksOk(base, boot, regions, used, blocks) && Clear(base, boot, regions, used, blocks, start, bytes, c)
    requires n * BlockSize(c) <= bytes
    ensures BlocksOk(base, boot, regions, used, Carved(blocks, start, c, n))
    ensures Untouched(Carved(blocks, start, c, n), start + n * BlockSize(c), bytes - n * BlockSize(c))
    decreases n
  {
    hide BlocksOk, Aligned, Held, BlockSize;
    var size := BlockSize(c);
    if n > 0 {
      assert n * size == (n - 1) * size + size;
      CarveOk(base, boot, regions, used, blocks, start, bytes, c, n - 1);
      var a := start + (n - 1) * size;
      FreeAligned(base, start, c, n - 1);
      AddBlock(base, boot, regions, used, Carved(blocks, start, c, n - 1), a, Free(c));
    }
  }

  lemma FreeAligned(base: nat, start: nat, c: nat, i: nat)
    requires c < NUM_SLABS && start % BlockSize(c) == 0
    ensures Aligned(base, start + i * BlockSize(c), Free(c))
  {
    hide BlockSize;
    var size := BlockSize(c);
    ModUnique(i * size, size, i, 0);
    SumDivides(start, i * size, size);
  }

  /** Carving adds the run and changes nothing else. */
  lemma {:induction false} CarvedAt(blocks: map<nat, Block>, start: nat, c: nat, n: nat, x: nat)
    ensures x in Carved(blocks, start, c, n) <==> x in blocks || x in Run(start, BlockSize(c), n)
    ensures x in Run(start, BlockSize(c), n) ==> Carved(blocks, start, c, n)[x] == Free(c)
    ensures x in blocks && x !in Run(start, BlockSize(c), n) ==> Carved(blocks, start, c, n)[x] == blocks[x]
    decreases n
  {
    hide BlockSize;
    var size := BlockSize(c);
    if n > 0 {
      CarvedAt(blocks, start, c, n - 1, x);
      assert Run(start, size, n) == Run(start, size, n - 1) + [start + (n - 1) * size];
    }
  }

  /** Addresses of a run differ and lie inside its range. */
  lemma RunApart(start: nat, size: nat, n: nat)
    requires size > 0
    ensures Distinct(Run(start, size, n))
    ensures forall x :: x in Run(start, size, n) ==> start <= x && x + size <= start + n * size
  {
    var s := Run(start, size, n);
    forall i, j | 0 <= i < j < n ensures s[i] != s[j] {
      Grow(i + 1, j, size);
      assert (i + 1) * size == i * size + size;
    }
    forall i | 0 <= i < n ensures start <= s[i] && s[i] + size <= start + n * size {
      Grow(0, i, size);
      Grow(i + 1, n, size);
      assert (i + 1) * size == i * size + size;
    }
  }

  /** All lists after a block that was on none of them went to list `c`. */
  lemma PushLists(next: map<nat, nat>, heads: seq<nat>, lists: seq<seq<nat>>, blocks: map<nat, Block>, c: nat, a: nat)
    requires ListsOk(next, heads, lists, blocks) && c < NUM_SLABS && a != 0 && (a in blocks ==> blocks[a].Live?)
    ensures ListsOk(next[a := heads[c]], heads[c := a], lists[c := [a] + lists[c]], blocks[a := Free(c)])
  {
    hide ListOk;
    var heads', lists' := heads[c := a], lists[c := [a] + lists[c]];
    forall d | 0 <= d < NUM_SLABS ensures ListOk(next[a := heads[c]], heads'[d], lists'[d], blocks[a := Free(c)], d) {
      if d == c {
        PushList(next, heads[c], lists[c], blocks, c, a);
      } else {
        OtherList(next, next[a := heads[c]], heads[d], lists[d], blocks, blocks[a := Free(c)], d, a);
      }
    }
  }

  /** All lists after the first block of list `c` was handed out. */
  lemma PopLists(next: map<nat, nat>, heads: seq<nat>, lists: seq<seq<nat>>, blocks: map<nat, Block>, c: nat, b: Block)
    requires ListsOk(next, heads, lists, blocks) && c < NUM_SLABS && lists[c] != [] && b.Live?
    ensures var a := heads[c];
      && a == lists[c][0] && a in next && a in blocks && blocks[a] == Free(c)
      && ListsOk(next, heads[c := next[a]], lists[c := lists[c][1..]], blocks[a := b])
  {
    hide ListOk;
    PopList(next, heads[c], lists[c], blocks, c, b);
    var a := heads[c];
    var heads', lists' := heads[c := next[a]], lists[c := lists[c][1..]];
    forall d | 0 <= d < NUM_SLABS ensures ListOk(next, heads'[d], lists'[d], blocks[a := b], d) {
      if d != c { OtherList(next, next, heads[d], lists[d], blocks, blocks[a := b], d, a); }
    }
  }

  /** Lists that lie in `blocks` do not see words elsewhere. */
  lemma KeepLists(next: map<nat, nat>, next': map<nat, nat>, heads: seq<nat>, lists: seq<seq<nat>>, blocks: map<nat,
      Block>)
    requires ListsOk(next, heads, lists, blocks)
    requires forall x :: x in blocks && x in next && blocks[x].Free? ==> x in next' && next'[x] == next[x]
    ensures ListsOk(next', heads, lists, blocks)
  {
    forall c | 0 <= c < NUM_SLABS ensures ListOk(next', heads[c], lists[c], blocks, c) {
      assert ListOk(next, heads[c], lists[c], blocks, c);
      ChainNext(next, heads[c], lists[c]);
      ChainFrame(next, next', heads[c], lists[c]);
    }
  }

  /** A large extent comes or goes beside the lists. */
  lemma BesideLists(next: map<nat, nat>, heads: seq<nat>, lists: seq<seq<nat>>, blocks: map<nat, Block>,
      blocks': map<nat, Block>, a: nat)
    requires ListsOk(next, heads, lists, blocks) && (a in blocks ==> blocks[a].Live?)
    requires (a in blocks' ==> blocks'[a].Live?)
    requires forall x :: x != a ==> (x in blocks <==> x in blocks') && (x in blocks ==> blocks[x] == blocks'[x])
    ensures ListsOk(next, heads, lists, blocks')
  {
    hide ListOk;
    forall c | 0 <= c < NUM_SLABS ensures ListOk(next, heads[c], lists[c], blocks', c) {
      OtherList(next, next, heads[c], lists[c], blocks, blocks', c, a);
    }
  }

  /** The requests that are served now, by the address each was given. */
  ghost function LiveOf(blocks: map<nat, Block>): map<nat, Layout> {
    map a | a in blocks && blocks[a].Live? :: blocks[a].layout
  }

  class SlabHeap {
    const base: nat                 // the kernel address of physical address 0
    const boot: Boot
    const frames: FrameAllocator
    var next: map<nat, nat>         // the words that free blocks hold
    var heads: seq<nat>
    var growth: bool
    ghost var lists: seq<seq<nat>>
    ghost var blocks: map<nat, Block>

    ghost predicate Valid()
      reads this, frames, frames.words
    {
      && frames.Valid() && base % PAGE_SIZE == 0 && BootOk(base, boot, frames.regions)
      && BlocksOk(base, boot, frames.regions, frames.used, blocks) && ListsOk(next, heads, lists, blocks)
    }

    /** Split `[start, start + size)` evenly across the size classes. */
    constructor (start: nat, size: nat, base: nat, frames: FrameAllocator)
      requires start % PAGE_SIZE == 0 && size >= MIN_HEAP_BYTES && size % MIN_HEAP_BYTES == 0
      requires frames.Valid() && base % PAGE_SIZE == 0 && BootOk(base, Boot(start, size), frames.regions)
      ensures Valid() && !growth
      ensures LiveOf(blocks) == map[] && this.frames == frames && this.base == base && boot == Boot(start, size)
      ensures forall c :: 0 <= c < NUM_SLABS ==> lists[c] == SlabRun(start, size / NUM_SLABS, c)
    {
      this.base, boot, this.frames := base, Boot(start, size), frames;
      next, heads, growth := map[], seq(NUM_SLABS, _ => 0), false;
      lists, blocks := seq(NUM_SLABS, _ => []), map[];
      new;
      hide *;
      NoBlocks(base, boot, frames.regions, frames.used, heads, lists);
      SlotSize(size);
      FillSlabs(size / NUM_SLABS);
    }

    method FillSlabs(slot: nat)
      requires Valid() && Paged(slot) && Paged(boot.start) && boot.size == NUM_SLABS * slot
      requires blocks == map[] && forall c :: 0 <= c < NUM_SLABS ==> lists[c] == []
      modifies this`next, this`heads, this`lists, this`blocks
      ensures Valid() && LiveOf(blocks) == map[]
      ensures forall c :: 0 <= c < NUM_SLABS ==> lists[c] == SlabRun(boot.start, slot, c)
    {
      hide FrameAllocator.Valid, BlocksOk, BootOk, ListOk, BlockSize, Clear, Run, Blocks, SlabRun, Whole, Paged;
      hide Untouched, LiveOf;
      NoneYet(boot.start, NUM_SLABS * slot);
      TimesIs(NUM_SLABS, slot);
      var at: nat, room: nat := boot.start, NUM_SLABS * slot;
      for c := 0 to NUM_SLABS
        invariant Valid() && Paged(at) && at == boot.start + Times(c, slot) && room == Times(NUM_SLABS - c, slot)
        invariant at + room == boot.start + boot.size
        invariant Untouched(blocks, at, room) && LiveOf(blocks) == map[]
        invariant forall d :: 0 <= d < NUM_SLABS ==> lists[d] == if d < c then SlabRun(boot.start, slot, d) else []
      {
        BootClear(base, boot, frames.regions, frames.used, blocks, at, room, c);
        PageAligned(slot, c);
        PagedSum(at, slot);
        assert room == Times(NUM_SLABS - c - 1, slot) + slot;
        SlabRunIs(boot.start, slot, c, at);
        NewSlab(c, at, slot, room);
        at, room := at + slot, room - slot;
      }
    }

    /** Allow refills and large requests from the frame allocator: `Alloc` then fails only for want of frames. */
    method EnableFrameGrowth()
      requires Valid()
      modifies this`growth
      ensures Valid() && growth
    {
      growth := true;
    }

    // ---- free lists ----

    /** `FreeList::push`. */
    method Push(head: nat, addr: nat) returns (h: nat)
      modifies this`next
      ensures h == addr && next == old(next)[addr := head]
    {
      next := next[addr := head];
      h := addr;
    }

    /** `FreeList::new`: the blocks in ascending order. */
    method NewList(start: nat, size: nat, count: nat) returns (head: nat)
      requires start > 0 && size > 0
      modifies this`next
      ensures Chain(next, head, Run(start, size, count))
      ensures forall x :: x !in Run(start, size, count) ==>
                (x in next <==> x in old(next)) && (x in next ==> next[x] == old(next)[x])
    {
      hide Run, Chain;
      head := 0;
      var i := count;
      Grow(0, i, size);
      NoRun(next, start + i * size, size);
      while i > 0
        invariant i <= count && i * size >= 0 && Chain(next, head, Run(start + i * size, size, count - i))
        invariant forall x :: x !in Run(start, size, count) ==>
                  (x in next <==> x in old(next)) && (x in next ==> next[x] == old(next)[x])
      {
        i := i - 1;
        Grow(0, i, size);
        ghost var before, head0 := next, head;
        head := Push(head, start + i * size);
        NewListStep(before, next, head0, start, size, count, i);
      }
      assert start + i * size == start;
    }

    /** `Slab::new` for class `c`, in the lower part of a clear range of `room` bytes. */
    method NewSlab(c: nat, start: nat, bytes: nat, ghost room: nat)
      requires Valid() && c < NUM_SLABS && lists[c] == [] && Whole(bytes, c) && bytes <= room
      requires Clear(base, boot, frames.regions, frames.used, blocks, start, room, c)
      modifies this`next, this`heads, this`lists, this`blocks
      ensures Valid() && lists == old(lists)[c := Blocks(start, bytes, c)]
      ensures LiveOf(blocks) == LiveOf(old(blocks)) && Untouched(blocks, start + bytes, room - bytes)
    {
      hide FrameAllocator.Valid, Run, Chain, BlocksOk, Held, BootOk;
      var size := BlockSize(c);
      var count := bytes / size;
      QuotRem(bytes, size);
      var head := NewList(start, size, count);
      NewSlabLists(old(next), next, heads, lists, blocks, c, start, bytes, room, count, head);
      CarveOk(base, boot, frames.regions, frames.used, blocks, start, room, c, count);
      heads := heads[c := head];
      lists := lists[c := Run(start, size, count)];
      blocks := Carved(blocks, start, c, count);
    }

    /** `Slab::grow`: link the range as a list of its own, then move it over block by block. */
    method GrowSlab(c: nat, start: nat, bytes: nat)
      requires Valid() && Clear(base, boot, frames.regions, frames.used, blocks, start, bytes, c)
      requires bytes >= BlockSize(c)
      modifies this`next, this`heads, this`lists, this`blocks
      ensures Valid() && LiveOf(blocks) == LiveOf(old(blocks)) && lists[c] != []
      ensures blocks == Carved(old(blocks), start, c, bytes / BlockSize(c))
    {
      hide FrameAllocator.Valid, Run, Chain, BlocksOk, Held, BootOk, BlockSize, Carved, Untouched;
      var size := BlockSize(c);
      var count := bytes / size;
      QuotRem(bytes, size);
      var incoming := NewList(start, size, count);
      RunClear(old(next), next, heads, lists, blocks, start, size, count, bytes);
      ghost var k := 0;
      CarveNone(blocks, start, c);
      while incoming != 0
        invariant k <= count && k * size >= 0 && Chain(next, incoming, Run(start + k * size, size, count - k))
        invariant blocks == Carved(old(blocks), start, c, k) && ListsOk(next, heads, lists, blocks)
        invariant LiveOf(blocks) == LiveOf(old(blocks))
        invariant k > 0 ==> lists[c] != []
        decreases count - k
      {
        var addr := incoming;
        Moving(next, incoming, start, size, count, k);
        CarveVacant(base, boot, frames.regions, frames.used, old(blocks), start, bytes, c, k, count);
        MoveStep(next, heads, lists, blocks, c, addr, incoming, start, size, count, k);
        incoming := next[incoming];
        var h := Push(heads[c], addr);
        heads := heads[c := h];
        lists := lists[c := [addr] + lists[c]];
        blocks := blocks[addr := Free(c)];
        k := k + 1;
      }
      Moved(next, start, size, count, k);
      CarveOk(base, boot, frames.regions, frames.used, old(blocks), start, bytes, c, count);
    }

    // ---- allocation ----

    /** `Slab::allocate` of the request's class. */
    method TakeBlock(l: Layout) returns (p: Option<nat>)
      requires Valid() && ClassFor(l) < LARGE
      modifies this`heads, this`lists, this`blocks
      ensures Valid() && (p.None? <==> old(lists)[ClassFor(l)] == [])
      ensures p.None? ==> blocks == old(blocks) && lists == old(lists)
      ensures p.Some? ==> p.value in old(blocks) && old(blocks)[p.value] == Free(ClassFor(l)) && blocks == old(blocks)[p.value := Live(l)]
    {
      hide FrameAllocator.Valid, BlocksOk, BootOk, ClassFor, ListOk;
      var c := ClassFor(l);
      HeadOf(next, heads, lists, blocks, c);
      if heads[c] == 0 { return None; }
      PopLists(next, heads, lists, blocks, c, Live(l));
      HandOut(base, boot, frames.regions, frames.used, blocks, heads[c], l);
      var a := heads[c];
      heads := heads[c := next[a]];
      lists := lists[c := lists[c][1..]];
      blocks := blocks[a := Live(l)];
      p := Some(a);
    }

    /** Refill class `c` with `GROW_PAGES` frames. */
    method GrowFromFrames(c: nat) returns (ok: bool)
      requires Valid() && c < NUM_SLABS
      modifies this`next, this`heads, this`lists, this`blocks, frames, frames.words
      ensures Valid() && LiveOf(blocks) == LiveOf(old(blocks)) && growth == old(growth)
      ensures ok <==> growth && !NoExtent(old(frames.regions), old(frames.used), GROW_PAGES)
      ensures ok ==> lists[c] != []
      ensures !ok ==> frames.used == old(frames.used) && lists == old(lists) && blocks == old(blocks)
    {
      hide BlocksOk, BootOk, Held, Untouched, Window, FrameAllocator.Valid, RegionsOk, SetRange, ListOk, BlockSize;
      if !growth { return false; }
      GrowExact();
      FrameFacts(frames);
      ghost var regions, tracked, used := frames.regions, frames.tracked, frames.used;
      var p, r, o := frames.AllocFrames(GROW_PAGES);
      if p.None? { return false; }
      NewExtent(base, boot, regions, frames.regions, tracked, used, frames.used, blocks, r, o, GROW_PAGES);
      var start := base + p.value;
      FramesClear(base, boot, frames.regions, frames.used, blocks, start, regions[r].start + o, GROW_PAGES, c);
      GrowSlab(c, start, GROW_PAGES * PAGE_SIZE);
      ok := true;
    }

    /** Reserve a whole extent of frames for one request. */
    method AllocLarge(l: Layout) returns (p: Option<nat>)
      requires Valid() && ClassFor(l) == LARGE
      modifies this`blocks, frames, frames.words
      ensures Valid()
      ensures (p.None? <==> !growth || TooBig(l) || NoExtent(old(frames.regions), old(frames.used), LargeFrames(l)))
      ensures p.None? ==> blocks == old(blocks) && frames.used == old(frames.used)
      ensures p.Some? ==> p.value !in old(blocks) && blocks == old(blocks)[p.value := Live(l)]
      ensures p.Some? ==>
                Reserved(base, old(frames.regions), old(frames.used), frames.used, p.value, Extent(LargeFrames(l)))
    {
      hide BlocksOk, BootOk, Held, Untouched, FrameAllocator.Valid, RegionsOk, SetRange, ListOk, ClassFor, LargeFrames;
      hide Extent, RoundUp;
      if !growth || TooBig(l) { return None; }
      FrameFacts(frames);
      ghost var regions, tracked, used := frames.regions, frames.tracked, frames.used;
      ghost var r, o;
      p, r, o := frames.AllocFrames(LargeFrames(l));
      if p.None? { return None; }
      var a := base + p.value;
      ExtentIs(LargeFrames(l));
      ghost var n := Extent(LargeFrames(l));
      NewExtent(base, boot, regions, frames.regions, tracked, used, frames.used, blocks, r, o, n);
      LargeBlock(base, boot, frames.regions, frames.used, blocks, a, l, regions[r].start + o);
      BesideLists(next, heads, lists, blocks, blocks[a := Live(l)], a);
      assert ExtentAt(base, regions, a, n, r, o) && ReservedAt(regions[r].base + o, used, frames.used, n);
      blocks := blocks[a := Live(l)];
      p := Some(a);
    }

    /** The global allocator's `alloc`: refill the class while it is empty; large requests go to the frame allocator. */
    method Alloc(l: Layout) returns (p: Option<nat>)
      requires Valid()
      modifies this`next, this`heads, this`lists, this`blocks, frames, frames.words
      ensures Valid()
      ensures p.Some? ==> p.value !in LiveOf(old(blocks)) && LiveOf(blocks) == LiveOf(old(blocks))[p.value := l]
      ensures p.None? ==> blocks == old(blocks) && frames.used == old(frames.used)
      ensures p.Some? && ClassFor(l) == LARGE ==>
                Reserved(base, old(frames.regions), old(frames.used), frames.used, p.value, Extent(LargeFrames(l)))
      ensures p.None? <==>
                if ClassFor(l) == LARGE then !growth || TooBig(l) || NoExtent(old(frames.regions), old(frames.used), LargeFrames(l))
                else old(lists)[ClassFor(l)] == [] && (!growth || NoExtent(old(frames.regions), old(frames.used), GROW_PAGES))
    {
      hide BlocksOk, BootOk, Held, Untouched, FrameAllocator.Valid, RegionsOk, SetRange, ListOk, LargeFrames, Extent;
      hide RoundUp, NoExtent, TooBig, Reserved;
      ClassFits(l);
      if ClassFor(l) == LARGE {
        p := AllocLarge(l);
        return;
      }
      hide ClassFor;
      while true
        invariant Valid() && LiveOf(blocks) == LiveOf(old(blocks)) && growth == old(growth)
        invariant
          || (lists == old(lists) && blocks == old(blocks) && frames.used == old(frames.used) && frames.regions == old(frames.regions))
          || (lists[ClassFor(l)] != [] && old(lists)[ClassFor(l)] == [] && growth && !NoExtent(old(frames.regions), old(frames.used), GROW_PAGES))
        decreases |lists[ClassFor(l)]| == 0
      {
        p := TakeBlock(l);
        if p.Some? { return; }
        var ok := GrowFromFrames(ClassFor(l));
        if !ok { return None; }
      }
    }

    /** The global allocator's `dealloc` of a request it served. */
    method Dealloc(a: nat, l: Layout)
      requires Valid() && a in blocks && blocks[a] == Live(l)
      modifies this`next, this`heads, this`lists, this`blocks, frames, frames.words
      ensures Valid() && LiveOf(blocks) == LiveOf(old(blocks)) - {a}
      ensures ClassFor(l) < LARGE ==> frames.used == old(frames.used) && a in blocks && blocks[a] == Free(ClassFor(l))
      ensures ClassFor(l) == LARGE ==> a !in blocks
      ensures ClassFor(l) == LARGE ==>
                Reserved(base, old(frames.regions), frames.used, old(frames.used), a, Extent(LargeFrames(l)))
    {
      ClassFits(l);
      hide BlocksOk, BootOk, FrameAllocator.Valid, ListOk, ClassFor;
      if ClassFor(l) == LARGE {
        DeallocLarge(a, l);
      } else {
        var c := ClassFor(l);
        NonNull(base, boot, frames.regions, frames.used, blocks, a);
        PushLists(next, heads, lists, blocks, c, a);
        TakeBack(base, boot, frames.regions, frames.used, blocks, a, l);
        var h := Push(heads[c], a);
        heads := heads[c := h];
        lists := lists[c := [a] + lists[c]];
        blocks := blocks[a := Free(c)];
      }
    }

    method DeallocLarge(a: nat, l: Layout)
      requires Valid() && a in blocks && blocks[a] == Live(l) && ClassFor(l) == LARGE
      modifies this`blocks, frames, frames.words
      ensures Valid() && blocks == old(blocks) - {a}
      ensures Reserved(base, old(frames.regions), frames.used, old(frames.used), a, Extent(LargeFrames(l)))
    {
      hide BlocksOk, BootOk, FrameAllocator.Valid, ListOk, ClassFor, Extent, LargeFrames, RegionsOk, SetRange, RoundUp;
      FrameFacts(frames);
      ghost var regions, tracked, used := frames.regions, frames.tracked, frames.used;
      var n := LargeFrames(l);
      ghost var r, o := LargeExtent(base, boot, regions, used, blocks, a, l);
      ExtentIs(n);
      frames.FreeFrames(a - base, n, r);
      assert ExtentAt(base, regions, a, Extent(n), r, o) && ReservedAt(regions[r].base + o, frames.used, used, Extent(n));
      DropBlock(base, boot, regions, tracked, used, blocks, a, r, o, Extent(n));
      Reshape(base, boot, regions, frames.regions, frames.used, blocks - {a}, r);
      BesideLists(next, heads, lists, blocks, blocks - {a}, a);
      blocks := blocks - {a};
    }

    /** The owner of a live block writes a word into it: no list notices. */
    method WriteWord(a: nat, at: nat, w: nat)
      requires Valid() && a in blocks && blocks[a].Live? && a <= at < a + Len(blocks[a])
      modifies this`next
      ensures Valid() && next == old(next)[at := w]
    {
      hide FrameAllocator.Valid, BootOk, BlocksOk, ListsOk;
      OwnWord(base, boot, frames.regions, frames.used, blocks, a, at);
      KeepLists(next, next[at := w], heads, lists, blocks);
      next := next[at := w];
    }
  }

  lemma NoRun(next: map<nat, nat>, a: nat, size: nat)
    ensures Chain(next, 0, Run(a, size, 0))
  {
  }

  /** One more block in front of the list under construction. */
  lemma NewListStep(next: map<nat, nat>, next': map<nat, nat>, head: nat, start: nat, size: nat, count: nat, i: nat)
    requires start > 0 && size > 0 && i < count && Chain(next, head, Run(start + (i + 1) * size, size, count - i - 1))
    requires next' == next[start + i * size := head]
    ensures Chain(next', start + i * size, Run(start + i * size, size, count - i))
    ensures start + i * size in Run(start, size, count)
  {
    var a := start + i * size;
    assert (i + 1) * size == i * size + size;
    RunCons(a, size, count - i - 1);
    var rest := Run(a + size, size, count - i - 1);
    RunApart(a + size, size, count - i - 1);
    ChainNext(next, head, rest);
    ChainFrame(next, next', head, rest);
    assert Run(a, size, count - i)[1..] == rest;
    assert Run(start, size, count)[i] == a;
  }

  /** Bootstrap memory may be carved. */
  lemma BootClear(base: nat, boot: Boot, regions: seq<Region>, used: set<nat>, blocks: map<nat, Block>, start: nat,
      bytes: nat, c: nat)
    requires BootOk(base, boot, regions) && boot.start <= start && start + bytes <= boot.start + boot.size
    requires Paged(start)
    requires c < NUM_SLABS && Untouched(blocks, start, bytes)
    ensures Clear(base, boot, regions, used, blocks, start, bytes, c)
  {
    PageAligned(start, c);
  }

  lemma PageAligned(a: nat, c: nat)
    requires c < NUM_SLABS && Paged(a)
    ensures Whole(a, c)
  {
    Page();
    BlockSizePow(c);
    PowDivides(a, 6 + c, 12);
  }

  /** The new list and the others after a fresh slab was linked. */
  lemma NewSlabLists(next: map<nat, nat>, next': map<nat, nat>, heads: seq<nat>, lists: seq<seq<nat>>, blocks: map<nat,
      Block>, c: nat, start: nat, bytes: nat, room: nat, count: nat, head: nat)
    requires ListsOk(next, heads, lists, blocks) && c < NUM_SLABS && lists[c] == []
    requires count * BlockSize(c) == bytes <= room && Untouched(blocks, start, room)
    requires Chain(next', head, Run(start, BlockSize(c), count))
    requires forall x :: x !in Run(start, BlockSize(c), count) ==>
              (x in next <==> x in next') && (x in next ==> next[x] == next'[x])
    ensures ListsOk(next', heads[c := head], lists[c := Run(start, BlockSize(c), count)], Carved(blocks, start, c, count))
    ensures LiveOf(Carved(blocks, start, c, count)) == LiveOf(blocks)
  {
    hide Run, BlockSize, Len, Carved, Chain;
    var run, blocks' := Run(start, BlockSize(c), count), Carved(blocks, start, c, count);
    RunApart(start, BlockSize(c), count);
    forall x ensures x in blocks ==> x !in run {
      if x in blocks { assert Apart(x, Len(blocks[x]), start, room); }
    }
    forall x: nat
      ensures (x in blocks' <==> x in blocks || x in run) && (x in run ==> blocks'[x] == Free(c))
      ensures x in blocks && x !in run ==> blocks'[x] == blocks[x]
    {
      CarvedAt(blocks, start, c, count, x);
    }
    var heads', lists' := heads[c := head], lists[c := run];
    forall d | 0 <= d < NUM_SLABS ensures ListOk(next', heads'[d], lists'[d], blocks', d) {
      assert ListOk(next, heads[d], lists[d], blocks, d);
      if d != c {
        ChainNext(next, heads[d], lists[d]);
        ChainFrame(next, next', heads[d], lists[d]);
      }
    }
  }

  lemma CarveNone(blocks: map<nat, Block>, start: nat, c: nat)
    ensures Carved(blocks, start, c, 0) == blocks
  {
  }

  /** Linking a clear range leaves the lists alone. */
  lemma RunClear(next: map<nat, nat>, next': map<nat, nat>, heads: seq<nat>, lists: seq<seq<nat>>, blocks: map<nat,
      Block>, start: nat, size: nat, count: nat, bytes: nat)
    requires ListsOk(next, heads, lists, blocks) && size > 0 && count * size <= bytes && Untouched(blocks, start, bytes)
    requires forall x :: x !in Run(start, size, count) ==>
              (x in next <==> x in next') && (x in next' ==> next'[x] == next[x])
    ensures ListsOk(next', heads, lists, blocks)
  {
    hide ListsOk, Len, Run;
    RunApart(start, size, count);
    forall x | x in blocks ensures x !in Run(start, size, count) {
      assert Apart(x, Len(blocks[x]), start, bytes);
    }
    KeepLists(next, next', heads, lists, blocks);
  }

  /** The incoming list is not empty while blocks are left, and its first block is the next one. */
  lemma Moving(next: map<nat, nat>, incoming: nat, start: nat, size: nat, count: nat, k: nat)
    requires k <= count && Chain(next, incoming, Run(start + k * size, size, count - k)) && incoming != 0
    ensures k < count && incoming == start + k * size && incoming in next
  {
  }

  lemma Moved(next: map<nat, nat>, start: nat, size: nat, count: nat, k: nat)
    requires k <= count && Chain(next, 0, Run(start + k * size, size, count - k))
    ensures k == count
  {
  }

  /** The next address of the run is not a block yet. */
  lemma CarveVacant(base: nat, boot: Boot, regions: seq<Region>, used: set<nat>, blocks: map<nat, Block>, start: nat,
      bytes: nat, c: nat, k: nat, count: nat)
    requires BlocksOk(base, boot, regions, used, blocks) && Clear(base, boot, regions, used, blocks, start, bytes, c)
    requires k < count && count * BlockSize(c) <= bytes
    ensures start + k * BlockSize(c) !in Carved(blocks, start, c, k)
    ensures Carved(blocks, start, c, k + 1) == Carved(blocks, start, c, k)[start + k * BlockSize(c) := Free(c)]
  {
    hide BlocksOk, Held, BlockSize, Len;
    Grow(k + 1, count, BlockSize(c));
    assert (k + 1) * BlockSize(c) == k * BlockSize(c) + BlockSize(c);
    CarveOk(base, boot, regions, used, blocks, start, bytes, c, k);
  }

  /** One block moves from the incoming list to list `c`. */
  lemma MoveStep(next: map<nat, nat>, heads: seq<nat>, lists: seq<seq<nat>>, blocks: map<nat, Block>, c: nat, a: nat,
      incoming: nat, start: nat, size: nat, count: nat, k: nat)
    requires ListsOk(next, heads, lists, blocks) && c < NUM_SLABS && a !in blocks && a == incoming != 0 && size > 0
    requires k < count && incoming == start + k * size && incoming in next
    requires Chain(next, incoming, Run(start + k * size, size, count - k))
    ensures ListsOk(next[a := heads[c]], heads[c := a], lists[c := [a] + lists[c]], blocks[a := Free(c)])
    ensures (k + 1) * size >= 0
    ensures Chain(next[a := heads[c]], next[incoming], Run(start + (k + 1) * size, size, count - k - 1))
    ensures LiveOf(blocks[a := Free(c)]) == LiveOf(blocks)
  {
    PushLists(next, heads, lists, blocks, c, a);
    assert (k + 1) * size == k * size + size;
    MoveChain(next, a, heads[c], size, count - k - 1);
  }

  lemma MoveChain(next: map<nat, nat>, a: nat, h: nat, size: nat, n: nat)
    requires a in next && size > 0 && Chain(next, a, Run(a, size, n + 1))
    ensures Chain(next[a := h], next[a], Run(a + size, size, n))
  {
    RunCons(a, size, n);
    var rest := Run(a + size, size, n);
    assert Run(a, size, n + 1)[1..] == rest;
    RunApart(a + size, size, n);
    ChainNext(next, next[a], rest);
    ChainFrame(next, next[a := h], next[a], rest);
  }

  // ---- allocation ----

  /** The extent of `n` frames at offset `o` of region `r` is at kernel address `a`. */
  ghost predicate ExtentAt(base: nat, regions: seq<Region>, a: nat, n: nat, r: nat, o: nat) {
    r < |regions| && o + n <= regions[r].frames && a == Kva(base, regions[r].start + o)
  }

  /** `used'` is `used` and exactly the extent of `n` frames at `a`, none of which was in `used`. */
  ghost predicate Reserved(base: nat, regions: seq<Region>, used: set<nat>, used': set<nat>, a: nat, n: nat) {
    exists r: nat, o: nat :: ExtentAt(base, regions, a, n, r, o) && ReservedAt(regions[r].base + o, used, used', n)
  }

  ghost predicate ReservedAt(bit: nat, used: set<nat>, used': set<nat>, n: nat) {
    used !! SetRange(bit, n) && used' == used + SetRange(bit, n)
  }

  /** Freeing what was reserved restores the frames: the address alone determines the extent. */
  lemma ReleaseUndoes(base: nat, regions: seq<Region>, tracked: nat, regions': seq<Region>, used: set<nat>,
      mid: set<nat>, used': set<nat>, a: nat, n: nat)
    requires RegionsOk(regions, tracked) && SameShape(regions, regions') && n > 0
    requires Reserved(base, regions, used, mid, a, n) && Reserved(base, regions', used', mid, a, n)
    ensures used' == used
  {
    hide SetRange, RegionsOk;
    var r: nat, o: nat :| ExtentAt(base, regions, a, n, r, o) && ReservedAt(regions[r].base + o, used, mid, n);
    var r': nat, o': nat :| ExtentAt(base, regions', a, n, r', o') && ReservedAt(regions'[r'].base + o', used', mid, n);
    OnePlace(base, regions, tracked, a, n, r, o, r', o');
  }

  /** Extents of one address lie in one region. */
  lemma OnePlace(base: nat, regions: seq<Region>, tracked: nat, a: nat, n: nat, r: nat, o: nat, r': nat, o': nat)
    requires RegionsOk(regions, tracked) && n > 0 && ExtentAt(base, regions, a, n, r, o)
    requires ExtentAt(base, regions, a, n, r', o')
    ensures r == r' && o == o'
  {
  }

  /** A new extent of frames touches no block, and the blocks stay backed. */
  lemma NewExtent(base: nat, boot: Boot, regions: seq<Region>, regions': seq<Region>, tracked: nat, used: set<nat>,
      used': set<nat>, blocks: map<nat, Block>, r: nat, o: nat, n: nat)
    requires RegionsOk(regions, tracked) && BootOk(base, boot, regions) && BlocksOk(base, boot, regions, used, blocks)
    requires r < |regions| && Window(regions[r], used, 0, regions[r].frames, n, o)
    requires used' == used + SetRange(regions[r].base + o, n) && regions' == regions[r := regions[r].(hint := o + n)]
    ensures BlocksOk(base, boot, regions', used', blocks) && BootOk(base, boot, regions')
    ensures Kva(base, regions[r].start + o) > 0 && Untouched(blocks, Kva(base, regions[r].start + o), n * PAGE_SIZE)
    ensures forall a: nat, m: nat ::
              Kva(base, regions[r].start + o) <= a && a + m <= Kva(base, regions[r].start + o) + n * PAGE_SIZE ==>
                Backed(base, regions', used', a, m)
  {
    hide RegionsOk, BlocksOk, SetRange, Untouched, Backed;
    FreshBlocks(base, boot, regions, tracked, used, blocks, r, o, n);
    BlocksMore(base, boot, regions, regions', used, used', blocks);
    forall a: nat, m: nat | Kva(base, regions[r].start + o) <= a && a + m <= Kva(base, regions[r].start + o) + n * PAGE_SIZE
      ensures Backed(base, regions', used', a, m)
    {
      BackedNew(base, regions', used', a, m, r, o, n);
    }
  }

  ghost predicate NoExtent(regions: seq<Region>, used: set<nat>, count: nat) {
    count == 0 || count > MAX_COUNT || forall j, a: nat :: 0 <= j < |regions| ==> !Findable(regions[j], used, RoundUp(count), a)
  }

  /** Rounding the size up to a page overflows. */
  predicate TooBig(l: Layout) { (Max(l.size, 1) + PAGE_SIZE - 1) / PAGE_SIZE * PAGE_SIZE >= 0x1_0000_0000_0000_0000 }

  lemma GrowExact() ensures RoundUp(GROW_PAGES) == GROW_PAGES
  {
    assert Pow2(1) == 2 && Pow2(2) == 4 && Pow2(3) == 8;
    assert RoundFrom(8, 2) == RoundFrom(8, 3);
  }

  lemma FrameFacts(f: FrameAllocator)
    requires f.Valid()
    ensures RegionsOk(f.regions, f.tracked)
  {
  }

  /** A list is empty exactly when its head is null. */
  lemma HeadOf(next: map<nat, nat>, heads: seq<nat>, lists: seq<seq<nat>>, blocks: map<nat, Block>, c: nat)
    requires ListsOk(next, heads, lists, blocks) && c < NUM_SLABS
    ensures lists[c] == [] <==> heads[c] == 0
  {
    assert ListOk(next, heads[c], lists[c], blocks, c);
  }

  lemma HandOut(base: nat, boot: Boot, regions: seq<Region>, used: set<nat>, blocks: map<nat, Block>, a: nat, l: Layout)
    requires BlocksOk(base, boot, regions, used, blocks) && a in blocks && ClassFor(l) < LARGE
    requires blocks[a] == Free(ClassFor(l))
    ensures BlocksOk(base, boot, regions, used, blocks[a := Live(l)])
  {
    hide ClassFor, Held, BlockSize;
    Rehand(base, boot, regions, used, blocks, a, Live(l));
  }

  /** New frames may be carved. */
  lemma FramesClear(base: nat, boot: Boot, regions: seq<Region>, used: set<nat>, blocks: map<nat, Block>, start: nat,
      p: nat, n: nat, c: nat)
    requires base % PAGE_SIZE == 0 && start == Kva(base, p) && start > 0 && c < NUM_SLABS
    requires Untouched(blocks, start, n * PAGE_SIZE)
    requires forall a: nat, m: nat :: start <= a && a + m <= start + n * PAGE_SIZE ==> Backed(base, regions, used, a, m)
    ensures Clear(base, boot, regions, used, blocks, start, n * PAGE_SIZE, c)
  {
    hide Untouched, Backed;
    PageAligned(start, c);
  }

  /** A fresh extent serves a large request. */
  lemma LargeBlock(base: nat, boot: Boot, regions: seq<Region>, used: set<nat>, blocks: map<nat, Block>, a: nat,
      l: Layout, p: nat)
    requires BlocksOk(base, boot, regions, used, blocks) && ClassFor(l) == LARGE && LargeFrames(l) <= MAX_COUNT
    requires a == Kva(base, p) && a > 0
    requires var n := Extent(LargeFrames(l)); p % n == 0 && Untouched(blocks, a, n * PAGE_SIZE) && Backed(base, regions, used, a, n * PAGE_SIZE)
    ensures a !in blocks && BlocksOk(base, boot, regions, used, blocks[a := Live(l)])
  {
    hide ClassFor, BlocksOk, Extent, LargeFrames, Backed, Untouched;
    var n := Extent(LargeFrames(l));
    QuotRem(p, n);
    assert p * PAGE_SIZE == p / n * (n * PAGE_SIZE);
    ModUnique(p * PAGE_SIZE, n * PAGE_SIZE, p / n, 0);
    AddBlock(base, boot, regions, used, blocks, a, Live(l));
  }

  lemma NoBlocks(base: nat, boot: Boot, regions: seq<Region>, used: set<nat>, heads: seq<nat>, lists: seq<seq<nat>>)
    requires heads == seq(NUM_SLABS, _ => 0) && lists == seq(NUM_SLABS, _ => [])
    ensures BlocksOk(base, boot, regions, used, map[]) && ListsOk(map[], heads, lists, map[])
  {
  }

  lemma NoneYet(start: nat, room: nat)
    ensures Untouched(map[], start, room) && LiveOf(map[]) == map[]
  {
  }

  lemma SlabRunIs(start: nat, slot: nat, c: nat, at: nat)
    requires at == start + Times(c, slot)
    ensures SlabRun(start, slot, c) == Blocks(at, slot, c)
  {
    TimesIs(c, slot);
  }

  ghost function Times(n: nat, slot: nat): nat { if n == 0 then 0 else Times(n - 1, slot) + slot }

  lemma {:induction false} TimesIs(n: nat, slot: nat)
    ensures Times(n, slot) == n * slot
  {
    if n > 0 {
      TimesIs(n - 1, slot);
      assert n * slot == (n - 1) * slot + slot;
    }
  }

  lemma SlotSize(size: nat)
    requires size % MIN_HEAP_BYTES == 0
    ensures Paged(size / NUM_SLABS) && size == NUM_SLABS * (size / NUM_SLABS)
  {
  }

  lemma NonNull(base: nat, boot: Boot, regions: seq<Region>, used: set<nat>, blocks: map<nat, Block>, a: nat)
    requires BlocksOk(base, boot, regions, used, blocks) && a in blocks
    ensures a > 0
  {
  }

  lemma TakeBack(base: nat, boot: Boot, regions: seq<Region>, used: set<nat>, blocks: map<nat, Block>, a: nat,
      l: Layout)
    requires BlocksOk(base, boot, regions, used, blocks) && a in blocks && ClassFor(l) < LARGE && blocks[a] == Live(l)
    ensures BlocksOk(base, boot, regions, used, blocks[a := Free(ClassFor(l))])
  {
    hide ClassFor, Held, BlockSize;
    Rehand(base, boot, regions, used, blocks, a, Free(ClassFor(l)));
  }

  /** A live block holds no word of a free one. */
  lemma OwnWord(base: nat, boot: Boot, regions: seq<Region>, used: set<nat>, blocks: map<nat, Block>, a: nat, at: nat)
    requires BlocksOk(base, boot, regions, used, blocks) && a in blocks && blocks[a].Live?
    requires a <= at < a + Len(blocks[a])
    ensures forall x :: x in blocks && blocks[x].Free? ==> x != at
  {
    hide Len, Held, Aligned;
  }

  /** Only a hint changed. */
  lemma Reshape(base: nat, boot: Boot, regions: seq<Region>, regions': seq<Region>, used: set<nat>, blocks: map<nat,
      Block>, r: nat)
    requires BlocksOk(base, boot, regions, used, blocks) && BootOk(base, boot, regions) && r < |regions| == |regions'|
    requires regions'[r] == regions[r].(hint := regions'[r].hint)
    requires forall j :: 0 <= j < |regions| && j != r ==> regions'[j] == regions[j]
    ensures BlocksOk(base, boot, regions', used, blocks) && BootOk(base, boot, regions')
  {
    hide BlocksOk;
    BlocksMore(base, boot, regions, regions', used, used, blocks);
  }

  /** The region and offset of a large block, and that all its frames are allocated. */
  lemma LargeExtent(base: nat, boot: Boot, regions: seq<Region>, used: set<nat>, blocks: map<nat, Block>, a: nat,
      l: Layout) returns (r: nat, o: nat)
    requires BlocksOk(base, boot, regions, used, blocks) && a in blocks && blocks[a] == Live(l) && ClassFor(l) == LARGE
    ensures var n := Extent(LargeFrames(l));
      && ExtentAt(base, regions, a, n, r, o) && a >= base && (a - base) % PAGE_SIZE == 0 && (a - base) / PAGE_SIZE == regions[r].start + o
      && LargeFrames(l) <= MAX_COUNT && Len(blocks[a]) == n * PAGE_SIZE && SetRange(regions[r].base + o, n) <= used
  {
    hide ClassFor, LargeFrames, Extent, SetRange, BackedBy;
    var n := Extent(LargeFrames(l));
    assert Aligned(base, a, blocks[a]) && Held(base, boot, regions, used, a, blocks[a]);
    r :| 0 <= r < |regions| && BackedBy(base, regions[r], used, a, n * PAGE_SIZE);
    var p := FrameNumber(a - base, n);
    o := ExtentUsed(base, regions[r], used, p, n);
  }

  lemma FrameNumber(x: nat, n: nat) returns (p: nat)
    requires n > 0 && x % (n * PAGE_SIZE) == 0
    ensures x == p * PAGE_SIZE && x % PAGE_SIZE == 0 && x / PAGE_SIZE == p
  {
    QuotRem(x, n * PAGE_SIZE);
    p := x / (n * PAGE_SIZE) * n;
    assert x / (n * PAGE_SIZE) * (n * PAGE_SIZE) == p * PAGE_SIZE;
    ModUnique(x, PAGE_SIZE, p, 0);
  }

  lemma ExtentUsed(base: nat, r: Region, used: set<nat>, p: nat, n: nat) returns (o: nat)
    requires BackedBy(base, r, used, Kva(base, p), n * PAGE_SIZE)
    ensures r.start + o == p && o + n <= r.frames && SetRange(r.base + o, n) <= used
  {
    hide SetRange;
    o := p - r.start;
    forall b: nat | b in SetRange(r.base + o, n) ensures b in used {
      FrameTouched(base, p, n, b - r.base - o);
      assert r.base + (p + (b - r.base - o) - r.start) in used;
    }
  }

  lemma FrameTouched(base: nat, p: nat, n: nat, i: nat)
    requires i < n
    ensures !Apart(Kva(base, p + i), PAGE_SIZE, Kva(base, p), n * PAGE_SIZE)
  {
  }

  /** Served requests are disjoint, long enough and aligned, and no free block overlaps them. */
  lemma LiveSafe(h: SlabHeap, a: nat, b: nat)
    requires h.Valid() && a in LiveOf(h.blocks) && b in h.blocks && a != b
    requires h.base % Pow2(LiveOf(h.blocks)[a].log) == 0
    ensures a % Pow2(LiveOf(h.blocks)[a].log) == 0
    ensures Apart(a, LiveOf(h.blocks)[a].size, b, Len(h.blocks[b]))
    ensures forall c :: 0 <= c < NUM_SLABS ==> a !in h.lists[c]
  {
    hide Len, Held, BootOk, FrameAllocator.Valid;
    Serves(h.base, a, h.blocks[a].layout);
    assert Apart(a, Len(h.blocks[a]), b, Len(h.blocks[b]));
  }
}
