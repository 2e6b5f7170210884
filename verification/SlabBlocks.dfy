/** The blocks a slab heap has carved out of memory: where they lie, who holds them, and what backs them. */
module SlabBlocks {
  import opened Bits
  import opened FrameAllocator

  const NUM_SLABS: nat := 7
  const LARGE: nat := 7

  /** A request: its alignment is the power of two `Pow2(log)`. */
  datatype Layout = Layout(size: nat, log: nat)

  /** A block on the free list of a size class, or one handed out for a request. */
  datatype Block = Free(class_: nat) | Live(layout: Layout)

  function BlockSize(c: nat): (n: nat)
    ensures 0 < n <= PAGE_SIZE
  {
    if c == 0 then 64 else if c == 1 then 128 else if c == 2 then 256 else if c == 3 then 512
    else if c == 4 then 1024 else if c == 5 then 2048 else 4096
  }

  lemma BlockSizePow(c: nat)
    requires c < NUM_SLABS
    ensures BlockSize(c) == Pow2(6 + c)
  {
    assert Pow2(6) == 64 by { assert Pow2(3) == 8; }
    assert Pow2(9) == 512 by { assert Pow2(7) == 128; }
    assert Pow2(12) == 4096 by { assert Pow2(10) == 1024; }
  }

  /** `class_for`. */
  function ClassFor(l: Layout): nat {
    if l.size > PAGE_SIZE || Pow2(l.log) > PAGE_SIZE then LARGE
    else if l.size <= 64 && Pow2(l.log) <= 64 then 0
    else if l.size <= 128 && Pow2(l.log) <= 128 then 1
    else if l.size <= 256 && Pow2(l.log) <= 256 then 2
    else if l.size <= 512 && Pow2(l.log) <= 512 then 3
    else if l.size <= 1024 && Pow2(l.log) <= 1024 then 4
    else if l.size <= 2048 && Pow2(l.log) <= 2048 then 5
    else 6
  }

  /** The smallest class whose blocks are long enough and aligned enough. */
  lemma ClassFits(l: Layout)
    ensures var c := ClassFor(l);
      && c <= LARGE
      && (c == LARGE <==> l.size > PAGE_SIZE || Pow2(l.log) > PAGE_SIZE)
      && (c < LARGE ==> l.size <= BlockSize(c) && Pow2(l.log) <= BlockSize(c) && forall d :: 0 <= d < c ==> l.size > BlockSize(d) || Pow2(l.log) > BlockSize(d))
  {
  }

  /** `large_extent_frames`, before the frame allocator rounds it to a power of two. */
  function LargeFrames(l: Layout): (n: nat)
    ensures n > 0 && l.size <= n * PAGE_SIZE
  {
    var sizeFrames := (Max(l.size, 1) + PAGE_SIZE - 1) / PAGE_SIZE;
    var alignFrames := Max(Pow2(l.log), PAGE_SIZE) / PAGE_SIZE;
    Max(sizeFrames, alignFrames)
  }

  /** No smaller number of frames holds the request and is aligned enough. */
  lemma LargeLeast(l: Layout, m: nat)
    requires m > 0 && l.size <= m * PAGE_SIZE && Pow2(l.log) <= m * PAGE_SIZE
    ensures LargeFrames(l) <= m
  {
  }

  function Max(a: nat, b: nat): nat { if a < b then b else a }

  function Len(b: Block): (n: nat)
    ensures n > 0
  {
    match b
    case Free(c) => BlockSize(c)
    case Live(l) => if ClassFor(l) == LARGE then Extent(LargeFrames(l)) * PAGE_SIZE else BlockSize(ClassFor(l))
  }

  /** The frames reserved for a request of `count`. */
  function Extent(count: nat): (n: nat)
    ensures n >= count && n > 0
  {
    RoundAtLeast(count);
    RoundUp(count)
  }

  lemma RoundAtLeast(count: nat)
    ensures RoundUp(count) >= count && RoundUp(count) > 0
  {
    var k := RoundPow(count);
  }

  lemma RoundPow(count: nat) returns (k: nat)
    ensures RoundUp(count) == Pow2(k) >= count
  {
    k := RoundFromPow(count, 0);
  }

  lemma {:induction false} RoundFromPow(count: nat, k: nat) returns (m: nat)
    ensures RoundFrom(count, k) == Pow2(m) >= count
    decreases if Pow2(k) < count then count - Pow2(k) else 0
  {
    if Pow2(k) >= count { m := k; } else { m := RoundFromPow(count, k + 1); }
  }

  // ---- alignment ----

  lemma {:induction false} PowDivides(a: nat, j: nat, k: nat)
    requires j <= k && a % Pow2(k) == 0
    ensures a % Pow2(j) == 0
    decreases k
  {
    hide Pow2;
    if j < k {
      Twice(k);
      QuotRem(a, Pow2(k));
      ModUnique(a, Pow2(k - 1), 2 * (a / Pow2(k)), 0);
      PowDivides(a, j, k - 1);
    }
  }

  lemma PowLess(j: nat, k: nat)
    requires Pow2(j) <= Pow2(k)
    ensures j <= k
  {
    if k < j { Pow2Mono(k + 1, j); }
  }

  lemma {:induction false} PowSum(j: nat, k: nat)
    ensures Pow2(j + k) == Pow2(j) * Pow2(k)
  {
    if k > 0 {
      PowSum(j, k - 1);
      assert Pow2(j + k) == 2 * Pow2(j + (k - 1));
      assert Pow2(j) * (2 * Pow2(k - 1)) == 2 * (Pow2(j) * Pow2(k - 1));
    }
  }

  /** Where a block of each kind may start: large extents are aligned up to the kernel mapping's base. */
  ghost predicate Aligned(base: nat, a: nat, b: Block) {
    match b
    case Free(c) => c < NUM_SLABS && a % BlockSize(c) == 0
    case Live(l) =>
      if ClassFor(l) < LARGE then a % BlockSize(ClassFor(l)) == 0
      else LargeFrames(l) <= MAX_COUNT && a >= base && (a - base) % (Extent(LargeFrames(l)) * PAGE_SIZE) == 0
  }

  /** An aligned block is long enough for its request and aligned as it asks. */
  lemma Serves(base: nat, a: nat, l: Layout)
    requires Aligned(base, a, Live(l)) && base % Pow2(l.log) == 0
    ensures l.size <= Len(Live(l)) && a % Pow2(l.log) == 0
  {
    ClassFits(l);
    if ClassFor(l) < LARGE {
      hide Pow2;
      BlockSizePow(ClassFor(l));
      PowLess(l.log, 6 + ClassFor(l));
      PowDivides(a, l.log, 6 + ClassFor(l));
    } else {
      hide Pow2, ClassFor, Extent, LargeFrames;
      Grow(LargeFrames(l), Extent(LargeFrames(l)), PAGE_SIZE);
      LargeAligned(a - base, l);
      SumDivides(base, a - base, Pow2(l.log));
    }
  }

  lemma SumDivides(a: nat, b: nat, n: nat)
    requires n > 0 && a % n == 0 && b % n == 0
    ensures (a + b) % n == 0
  {
    QuotRem(a, n);
    QuotRem(b, n);
    ModUnique(a + b, n, a / n + b / n, 0);
  }

  lemma LargeAligned(x: nat, l: Layout)
    requires x % (Extent(LargeFrames(l)) * PAGE_SIZE) == 0
    ensures x % Pow2(l.log) == 0
  {
    var k := RoundPow(LargeFrames(l));
    AlignFrames(l);
    hide Pow2, LargeFrames, Extent;
    Page();
    PowSum(k, 12);
    if l.log > 12 { PowLess(l.log - 12, k); }
    assert Extent(LargeFrames(l)) == Pow2(k) by { ExtentIs(LargeFrames(l)); }
    PowDivides(x, l.log, k + 12);
  }

  lemma ExtentIs(n: nat) ensures Extent(n) == RoundUp(n) {}

  lemma Page() ensures Pow2(12) == PAGE_SIZE
  {
    assert Pow2(12) == 4096 by { assert Pow2(10) == 1024; }
  }

  lemma AlignFrames(l: Layout)
    ensures l.log > 12 ==> Pow2(l.log - 12) <= LargeFrames(l)
  {
    if l.log > 12 {
      Page();
      PowSum(l.log - 12, 12);
      hide Pow2;
      Pow2Mono(12, l.log);
      ModUnique(Pow2(l.log), PAGE_SIZE, Pow2(l.log - 12), 0);
    }
  }

  // ---- what backs the blocks ----

  /** The kernel address of frame `p`. */
  function Kva(base: nat, p: nat): nat { base + p * PAGE_SIZE }

  /** The bytes `[a, a + n)` lie in region `r`, and every frame they touch is allocated. */
  ghost predicate BackedBy(base: nat, r: Region, used: set<nat>, a: nat, n: nat) {
    && Kva(base, r.start) <= a && a + n <= Kva(base, r.start + r.frames)
    && forall p: nat :: r.start <= p < r.start + r.frames && !Apart(Kva(base, p), PAGE_SIZE, a, n) ==> r.base + (p - r.start) in used
  }

  ghost predicate Backed(base: nat, regions: seq<Region>, used: set<nat>, a: nat, n: nat) {
    exists r :: 0 <= r < |regions| && BackedBy(base, regions[r], used, a, n)
  }

  /** The bootstrap memory, which no region covers. */
  datatype Boot = Boot(start: nat, size: nat)

  ghost predicate BootOk(base: nat, boot: Boot, regions: seq<Region>) {
    && boot.start > 0
    && (forall r :: 0 <= r < |regions| ==> Kva(base, regions[r].start) > 0)
    && forall r :: 0 <= r < |regions| ==> Apart(boot.start, boot.size, Kva(base, regions[r].start), regions[r].frames * PAGE_SIZE)
  }

  /** Every block lies in the bootstrap memory or on allocated frames, and large extents on frames. */
  ghost predicate Held(base: nat, boot: Boot, regions: seq<Region>, used: set<nat>, a: nat, b: Block) {
    || Backed(base, regions, used, a, Len(b))
    || (boot.start <= a && a + Len(b) <= boot.start + boot.size && (b.Live? ==> ClassFor(b.layout) < LARGE))
  }

  /** Blocks are aligned, backed and pairwise disjoint. */
  ghost predicate BlocksOk(base: nat, boot: Boot, regions: seq<Region>, used: set<nat>, blocks: map<nat, Block>) {
    && (forall a :: a in blocks ==> a > 0 && Aligned(base, a, blocks[a]) && Held(base, boot, regions, used, a, blocks[a]))
    && forall a, b :: a in blocks && b in blocks && a != b ==> Apart(a, Len(blocks[a]), b, Len(blocks[b]))
  }

  /** Only the hints differ. */
  ghost predicate SameShape(r: seq<Region>, s: seq<Region>) {
    |r| == |s| && forall i :: 0 <= i < |r| ==> r[i].start == s[i].start && r[i].frames == s[i].frames && r[i].base == s[i].base
  }

  lemma BackedMore(base: nat, r: seq<Region>, s: seq<Region>, used: set<nat>, used': set<nat>, a: nat, n: nat)
    requires SameShape(r, s) && used <= used' && Backed(base, r, used, a, n)
    ensures Backed(base, s, used', a, n)
  {
    var i :| 0 <= i < |r| && BackedBy(base, r[i], used, a, n);
    assert BackedBy(base, s[i], used', a, n);
  }

  /** More allocated frames keep every block. */
  lemma BlocksMore(base: nat, boot: Boot, r: seq<Region>, s: seq<Region>, used: set<nat>, used': set<nat>,
      blocks: map<nat, Block>)
    requires SameShape(r, s) && used <= used' && BlocksOk(base, boot, r, used, blocks)
    ensures BlocksOk(base, boot, s, used', blocks)
  {
    hide Backed, Aligned, Len, ClassFor;
    forall a | a in blocks ensures Held(base, boot, s, used', a, blocks[a]) {
      if Backed(base, r, used, a, Len(blocks[a])) { BackedMore(base, r, s, used, used', a, Len(blocks[a])); }
    }
  }

  /** The frame that holds byte `x`. */
  lemma FrameOf(base: nat, x: nat, lo: nat, hi: nat) returns (p: nat)
    requires Kva(base, lo) <= x < Kva(base, hi)
    ensures lo <= p < hi && Kva(base, p) <= x < Kva(base, p) + PAGE_SIZE
  {
    p := (x - base) / PAGE_SIZE;
  }

  /** Regions occupy disjoint kernel addresses. */
  lemma KvaApart(base: nat, a: nat, n: nat, b: nat, m: nat)
    requires Apart(a, n, b, m)
    ensures Apart(Kva(base, a), n * PAGE_SIZE, Kva(base, b), m * PAGE_SIZE)
  {
  }

  lemma FreshSame(base: nat, r: Region, used: set<nat>, a: nat, n: nat, o: nat, m: nat)
    requires BackedBy(base, r, used, a, n) && n > 0 && m > 0 && o + m <= r.frames && FreeRun(r, used, o, m)
    ensures Apart(a, n, Kva(base, r.start + o), m * PAGE_SIZE)
  {
    var e := Kva(base, r.start + o);
    if !Apart(a, n, e, m * PAGE_SIZE) {
      var p := FrameOf(base, Max(a, e), r.start + o, r.start + o + m);
      assert false;
    }
  }

  /** Free frames hold no part of a backed block. */
  lemma FreshApart(base: nat, regions: seq<Region>, tracked: nat, used: set<nat>, a: nat, n: nat, r: nat, o: nat,
      m: nat)
    requires RegionsOk(regions, tracked) && Backed(base, regions, used, a, n) && n > 0
    requires r < |regions| && m > 0 && o + m <= regions[r].frames && FreeRun(regions[r], used, o, m)
    ensures Apart(a, n, Kva(base, regions[r].start + o), m * PAGE_SIZE)
  {
    var i :| 0 <= i < |regions| && BackedBy(base, regions[i], used, a, n);
    if i != r {
      assert Apart(regions[i].start, regions[i].frames, regions[r].start, regions[r].frames);
      KvaApart(base, regions[i].start, regions[i].frames, regions[r].start, regions[r].frames);
    } else {
      FreshSame(base, regions[r], used, a, n, o, m);
    }
  }

  /** A frame that a block apart from the extent touches is outside it. */
  lemma FrameOutside(base: nat, p: nat, a: nat, n: nat, e: nat, m: nat)
    requires !Apart(Kva(base, p), PAGE_SIZE, a, n) && Apart(a, n, Kva(base, e), m * PAGE_SIZE)
    ensures !(e <= p < e + m)
  {
  }

  /** Freeing an extent keeps the backing of every block apart from it. */
  lemma BackedLess(base: nat, regions: seq<Region>, tracked: nat, used: set<nat>, a: nat, n: nat, r: nat, o: nat,
      m: nat)
    requires RegionsOk(regions, tracked) && Backed(base, regions, used, a, n)
    requires r < |regions| && o + m <= regions[r].frames && Apart(a, n, Kva(base, regions[r].start + o), m * PAGE_SIZE)
    ensures Backed(base, regions, used - SetRange(regions[r].base + o, m), a, n)
  {
    hide SetRange, RegionsOk, Kva, Apart;
    var i :| 0 <= i < |regions| && BackedBy(base, regions[i], used, a, n);
    var used' := used - SetRange(regions[r].base + o, m);
    if i < r { BaseOrder(regions, tracked, i, r); } else if r < i { BaseOrder(regions, tracked, r, i); }
    forall p: nat | regions[i].start <= p < regions[i].start + regions[i].frames && !Apart(Kva(base, p), PAGE_SIZE, a, n)
      ensures regions[i].base + (p - regions[i].start) in used'
    {
      FrameOutside(base, p, a, n, regions[r].start + o, m);
    }
    assert BackedBy(base, regions[i], used', a, n);
  }

  /** Allocated frames back what lies on them. */
  lemma BackedNew(base: nat, regions: seq<Region>, used: set<nat>, a: nat, n: nat, r: nat, o: nat, m: nat)
    requires r < |regions| && o + m <= regions[r].frames && SetRange(regions[r].base + o, m) <= used
    requires Kva(base, regions[r].start + o) <= a && a + n <= Kva(base, regions[r].start + o) + m * PAGE_SIZE
    ensures Backed(base, regions, used, a, n)
  {
    hide SetRange;
    assert BackedBy(base, regions[r], used, a, n);
  }

  /** No block touches memory on free frames. */
  lemma FreshBlocks(base: nat, boot: Boot, regions: seq<Region>, tracked: nat, used: set<nat>, blocks: map<nat, Block>,
      r: nat, o: nat, m: nat)
    requires RegionsOk(regions, tracked) && BootOk(base, boot, regions) && BlocksOk(base, boot, regions, used, blocks)
    requires r < |regions| && m > 0 && o + m <= regions[r].frames && FreeRun(regions[r], used, o, m)
    ensures Untouched(blocks, Kva(base, regions[r].start + o), m * PAGE_SIZE)
  {
    hide RegionsOk, Aligned, Backed, Len, FreeRun;
    forall a | a in blocks ensures Apart(a, Len(blocks[a]), Kva(base, regions[r].start + o), m * PAGE_SIZE) {
      assert Held(base, boot, regions, used, a, blocks[a]);
      if Backed(base, regions, used, a, Len(blocks[a])) {
        FreshApart(base, regions, tracked, used, a, Len(blocks[a]), r, o, m);
      }
    }
  }

  ghost predicate Untouched(blocks: map<nat, Block>, e: nat, n: nat) {
    forall a :: a in blocks ==> Apart(a, Len(blocks[a]), e, n)
  }

  /** A block may be added where no block lies. */
  lemma AddBlock(base: nat, boot: Boot, regions: seq<Region>, used: set<nat>, blocks: map<nat, Block>, a: nat, b: Block)
    requires BlocksOk(base, boot, regions, used, blocks) && Untouched(blocks, a, Len(b))
    requires a > 0 && Aligned(base, a, b) && Held(base, boot, regions, used, a, b)
    ensures a !in blocks && BlocksOk(base, boot, regions, used, blocks[a := b])
  {
    hide Aligned, Held, Len;
  }

  /** A block may change hands. */
  lemma Rehand(base: nat, boot: Boot, regions: seq<Region>, used: set<nat>, blocks: map<nat, Block>, a: nat, b: Block)
    requires BlocksOk(base, boot, regions, used, blocks) && a in blocks && Len(b) == Len(blocks[a])
    requires Aligned(base, a, b)
    requires b.Live? ==> ClassFor(b.layout) < LARGE
    ensures BlocksOk(base, boot, regions, used, blocks[a := b])
  {
    hide Aligned, Backed, Len, ClassFor;
    assert Held(base, boot, regions, used, a, blocks[a]);
  }

  /** A large extent may be given back to the frame allocator. */
  lemma DropBlock(base: nat, boot: Boot, regions: seq<Region>, tracked: nat, used: set<nat>, blocks: map<nat, Block>,
      a: nat, r: nat, o: nat, m: nat)
    requires RegionsOk(regions, tracked) && BlocksOk(base, boot, regions, used, blocks) && a in blocks
    requires r < |regions| && o + m <= regions[r].frames && a == Kva(base, regions[r].start + o)
    requires Len(blocks[a]) == m * PAGE_SIZE
    ensures BlocksOk(base, boot, regions, used - SetRange(regions[r].base + o, m), blocks - {a})
  {
    hide RegionsOk, Aligned, Backed, Len, ClassFor, SetRange;
    var used' := used - SetRange(regions[r].base + o, m);
    forall b | b in blocks - {a} ensures Held(base, boot, regions, used', b, blocks[b]) {
      assert Held(base, boot, regions, used, b, blocks[b]);
      if Backed(base, regions, used, b, Len(blocks[b])) {
        BackedLess(base, regions, tracked, used, b, Len(blocks[b]), r, o, m);
      }
    }
  }
}
