/** The physical page-frame allocator: a word-packed bitmap over registered regions that hands out
    aligned power-of-two extents. */
module FrameAllocator {
  import opened Bits
  import opened Results

  const PAGE_SIZE: nat := 4096
  const WORD_BITS: nat := 64
  const MAX_REGIONS: nat := 64

  /** Frames `[start, start + frames)`, tracked by the bits from `base` on. */
  datatype Region = Region(start: nat, frames: nat, base: nat, hint: nat)

  /** Regions use consecutive bits, overlap nowhere, and hints stay inside. */
  ghost predicate RegionsOk(regions: seq<Region>, tracked: nat) {
    && (if regions == [] then tracked == 0 else regions[0].base == 0 && regions[|regions| - 1].base + regions[|regions| - 1].frames == tracked)
    && (forall k :: 0 <= k < |regions| ==> regions[k].hint <= regions[k].frames && 0 < regions[k].frames)
    && (forall k :: 0 < k < |regions| ==> regions[k].base == regions[k - 1].base + regions[k - 1].frames)
    && (forall j, k :: 0 <= j < k < |regions| ==> Apart(regions[j].start, regions[j].frames, regions[k].start, regions[k].frames))
  }

  predicate Apart(a: nat, n: nat, b: nat, m: nat) { a + n <= b || b + m <= a }

  /** The bits of the regions before `k` lie below those of region `k`. */
  lemma {:induction false} BaseOrder(regions: seq<Region>, tracked: nat, j: nat, k: nat)
    requires RegionsOk(regions, tracked) && j < k < |regions|
    ensures regions[j].base + regions[j].frames <= regions[k].base
  {
    if j + 1 < k { BaseOrder(regions, tracked, j, k - 1); }
  }

  lemma {:induction false} BaseFits(regions: seq<Region>, tracked: nat, k: nat)
    requires RegionsOk(regions, tracked) && k < |regions|
    ensures regions[k].base + regions[k].frames <= tracked
  {
    if k + 1 < |regions| { BaseOrder(regions, tracked, k, |regions| - 1); }
  }

  /** The frames from `o` on, `n` of them, of a region are free. */
  ghost predicate FreeRun(r: Region, used: set<nat>, o: nat,
      n: nat) { forall b :: r.base + o <= b < r.base + o + n ==> b !in used }

  /** A free extent of `n` frames at offset `o`, aligned to its own length, inside `[from, end)`. */
  ghost predicate Window(r: Region, used: set<nat>, from: nat, end: nat, n: nat, o: nat) {
    n > 0 && from <= o && o + n <= end && (r.start + o) % n == 0 && FreeRun(r, used, o, n)
  }

  /** What the two searches of a region can find: windows that do not cross the hint. */
  ghost predicate Findable(r: Region, used: set<nat>, n: nat, o: nat) {
    Window(r, used, r.hint, r.frames, n, o) || Window(r, used, 0, r.hint, n, o)
  }

  /** The window the two searches of a region find: the first one from the hint on, else the first before it. */
  ghost predicate FirstFound(r: Region, used: set<nat>, n: nat, o: nat) {
    || (Window(r, used, r.hint, r.frames, n, o) && forall a: nat :: Window(r, used, r.hint, r.frames, n, a) ==> o <= a)
    || ((forall a: nat :: !Window(r, used, r.hint, r.frames, n, a)) && Window(r, used, 0, r.hint, n, o)
        && forall a: nat :: Window(r, used, 0, r.hint, n, a) ==> o <= a)
  }

  function SetRange(a: nat, n: nat): (s: set<nat>)
    ensures forall i: nat :: i in s <==> a <= i < a + n
    ensures |s| == n
  {
    if n == 0 then {} else SetRange(a, n - 1) + {a + n - 1}
  }

  class FrameAllocator {
    var regions: seq<Region>
    var tracked: nat
    var freeFrames: nat
    const words: array<nat>          // a set bit is an allocated frame
    ghost var used: set<nat>             // the set bits

    ghost predicate Valid()
      reads this, words
    {
      && RegionsOk(regions, tracked) && tracked <= words.Length * WORD_BITS
      && used <= SetRange(0, tracked) && freeFrames == tracked - |used|
      && BitsMatch(words[..], used)
    }

    constructor (count: nat)
      ensures Valid() && regions == [] && used == {} && words.Length == count && fresh(words)
    {
      regions, tracked, freeFrames, used := [], 0, 0, {};
      words := new nat[count](_ => 0);
      new;
      forall i: nat ensures !BitAt(words[..], i) { ZeroBit(i % WORD_BITS); }
    }

    lemma NoFrames()
      requires Valid() && regions == []
      ensures tracked == 0 && freeFrames == 0 && used == {}
    {
    }

    /** Whether the frame at `offset` of a region is allocated. */
    method IsUsed(r: nat, offset: nat) returns (b: bool)
      requires Valid() && r < |regions| && offset < regions[r].frames
      ensures b <==> regions[r].base + offset in used
    {
      hide Pow2, And, Bit, RegionsOk, SetRange;
      BaseFits(regions, tracked, r);
      var bit := regions[r].base + offset;
      AndBit(words[bit / WORD_BITS], bit % WORD_BITS);
      b := And(words[bit / WORD_BITS], Pow2(bit % WORD_BITS)) != 0;
      assert BitAt(words[..], bit) == b;
    }

    /** Set or clear the bits of a run. */
    method MarkRun(base: nat, n: nat, value: bool)
      requires BitsMatch(words[..], used) && base + n <= words.Length * WORD_BITS
      modifies words, this`used
      ensures BitsMatch(words[..], used)
      ensures used == if value then old(used) + SetRange(base, n) else old(used) - SetRange(base, n)
    {
      hide SetRange, BitsMatch;
      RangeEmpty(base);
      for k := 0 to n
        invariant BitsMatch(words[..], used)
        invariant used == if value then old(used) + SetRange(base, k) else old(used) - SetRange(base, k)
      {
        RangeNext(base, k);
        MarkBit(base + k, value);
      }
    }

    method MarkBit(bit: nat, value: bool)
      requires BitsMatch(words[..], used) && bit < words.Length * WORD_BITS
      modifies words, this`used
      ensures BitsMatch(words[..], used) && used == if value then old(used) + {bit} else old(used) - {bit}
    {
      var i, k := bit / WORD_BITS, bit % WORD_BITS;
      ghost var before := words[..];
      var w := words[i];
      words[i] := if value then Or(w, Pow2(k)) else AndNot(w, Pow2(k));
      used := if value then used + {bit} else used - {bit};
      forall j: nat ensures BitAt(words[..], j) <==> j in used { FlipBit(before, words[..], bit, value, j); }
    }

    /** The first window of `n == Pow2(k)` frames inside `[from, end)` of a region. */
    method FindFreeRun(r: nat, from: nat, end: nat, k: nat) returns (o: Option<nat>)
      requires Valid() && r < |regions| && from <= end <= regions[r].frames
      ensures o.Some? ==> Window(regions[r], used, from, end, Pow2(k), o.value)
      ensures o.Some? ==> forall a: nat :: Window(regions[r], used, from, end, Pow2(k), a) ==> o.value <= a
      ensures o.None? ==> forall a: nat :: !Window(regions[r], used, from, end, Pow2(k), a)
    {
      hide Pow2, RegionsOk, BitsMatch, SetRange, AlignPpn;
      var n := Pow2(k);
      var start := regions[r].start;
      var offset := AlignPpn(start + from, k) - start;
      forall a: nat | Window(regions[r], used, from, end, n, a) ensures offset <= a { AtLeast(start, from, offset, a, n); }
      while offset + n <= end
        invariant from <= offset && (start + offset) % n == 0
        invariant forall a: nat :: Window(regions[r], used, from, end, n, a) ==> offset <= a
        decreases end - offset
      {
        var first := FirstUsed(r, offset, n);
        if first.None? { return Some(offset); }
        var next := AlignPpn(start + first.value + 1, k) - start;
        forall a: nat | Window(regions[r], used, from, end, n, a) ensures next <= a {
          AfterUsed(regions[r], used, from, end, n, a, offset, first.value);
          AtLeast(start, first.value + 1, next, a, n);
        }
        offset := next;
      }
      o := None;
    }

    method FirstUsed(r: nat, offset: nat, n: nat) returns (u: Option<nat>)
      requires Valid() && r < |regions| && offset + n <= regions[r].frames
      ensures u.Some? ==> offset <= u.value < offset + n && regions[r].base + u.value in used
      ensures u.None? ==> FreeRun(regions[r], used, offset, n)
    {
      hide RegionsOk, BitsMatch, SetRange;
      for i := offset to offset + n
        invariant forall b :: regions[r].base + offset <= b < regions[r].base + i ==> b !in used
      {
        var b := IsUsed(r, i);
        if b { return Some(i); }
      }
      u := None;
    }

    /** Allocate `count` frames, rounded up to a power of two: an extent aligned to its own length, inside
        region `r`, of frames that were all free.  Fails exactly when no region has such an extent on one
        side of its hint. */
    method AllocFrames(count: nat) returns (p: Option<nat>, ghost r: nat, ghost o: nat)
      requires Valid()
      modifies this, words
      ensures Valid() && |regions| == |old(regions)|
      ensures p.Some? ==> r < |old(regions)| && FirstFound(old(regions)[r], old(used), RoundUp(count), o)
      ensures p.Some? ==> forall j, a: nat :: 0 <= j < r ==> !Findable(old(regions)[j], old(used), RoundUp(count), a)
      ensures p.Some? ==>
                && 0 < count <= MAX_COUNT && r < |regions| && p.value == (old(regions)[r].start + o) * PAGE_SIZE
                && Window(old(regions)[r], old(used), 0, old(regions)[r].frames, RoundUp(count), o)
                && used == old(used) + SetRange(old(regions)[r].base + o, RoundUp(count)) && freeFrames + RoundUp(count) == old(freeFrames)
                && regions == old(regions)[r := old(regions)[r].(hint := o + RoundUp(count))]
      ensures p.None? ==> used == old(used) && regions == old(regions) && freeFrames == old(freeFrames)
      ensures p.None? <==> count == 0 || count > MAX_COUNT || forall j, a: nat :: 0 <= j < |old(regions)| ==>
                !Findable(old(regions)[j], old(used), RoundUp(count), a)
    {
      hide Pow2, RegionsOk, BitsMatch, SetRange, Window, FirstFound;
      r, o := 0, 0;
      if count == 0 || count > MAX_COUNT { return None, r, o; }
      var k := NextPowerOfTwo(count);
      var n := Pow2(k);
      for i := 0 to |regions|
        invariant Valid() && used == old(used) && regions == old(regions) && freeFrames == old(freeFrames)
        invariant forall j, a: nat :: 0 <= j < i ==> !Findable(regions[j], used, n, a)
      {
        if n <= regions[i].frames {
          var hit := SearchRegion(i, k);
          if hit.Some? {
            Take(i, hit.value, n);
            return Some((regions[i].start + hit.value) * PAGE_SIZE), i, hit.value;
          }
        } else {
          HintFits(regions, tracked, i);
          TooSmall(regions[i], used, n);
        }
      }
      p := None;
    }

    /** From the hint to the end of the region, then from its start to the hint. */
    method SearchRegion(r: nat, k: nat) returns (hit: Option<nat>)
      requires Valid() && r < |regions|
      ensures hit.Some? ==> FirstFound(regions[r], used, Pow2(k), hit.value)
      ensures hit.Some? ==> Findable(regions[r], used, Pow2(k), hit.value) && Window(regions[r], used, 0, regions[r].frames, Pow2(k), hit.value)
      ensures hit.None? ==> forall a: nat :: !Findable(regions[r], used, Pow2(k), a)
    {
      assert regions[r].hint <= regions[r].frames;
      hide Pow2, RegionsOk, BitsMatch, SetRange;
      hit := FindFreeRun(r, regions[r].hint, regions[r].frames, k);
      if hit.None? { hit := FindFreeRun(r, 0, regions[r].hint, k); }
    }

    /** Mark an extent and move the hint behind it. */
    method Take(r: nat, o: nat, n: nat)
      requires Valid() && r < |regions| && Window(regions[r], used, 0, regions[r].frames, n, o)
      modifies this`regions, this`freeFrames, this`used, words
      ensures Valid() && used == old(used) + SetRange(old(regions)[r].base + o, n) && freeFrames + n == old(freeFrames)
      ensures regions == old(regions)[r := old(regions)[r].(hint := o + n)]
    {
      hide BitsMatch, SetRange, RegionsOk;
      BaseFits(regions, tracked, r);
      TakeCount(regions[r], used, o, n, tracked);
      HintOk(regions, tracked, r, o + n);
      MarkRun(regions[r].base + o, n, true);
      regions := regions[r := regions[r].(hint := o + n)];
      freeFrames := freeFrames - n;
    }

    /** Free an extent of allocated frames. */
    method FreeFrames(phys: nat, count: nat, ghost r: nat)
      requires Valid() && 0 < count <= MAX_COUNT && phys % PAGE_SIZE == 0 && r < |regions|
      requires Inside(regions[r], phys / PAGE_SIZE, RoundUp(count))
      requires SetRange(regions[r].base + (phys / PAGE_SIZE - regions[r].start), RoundUp(count)) <= used
      modifies this`regions, this`freeFrames, this`used, words
      ensures Valid() && freeFrames == old(freeFrames) + RoundUp(count)
      ensures used == old(used) - SetRange(old(regions)[r].base + (phys / PAGE_SIZE - old(regions)[r].start), RoundUp(count))
      ensures |regions| == |old(regions)| && forall j :: 0 <= j < |regions| && j != r ==> regions[j] == old(regions)[j]
      ensures var o := phys / PAGE_SIZE - old(regions)[r].start; regions[r] == old(regions)[r].(hint := Min(old(regions)[r].hint, o))
    {
      hide Pow2, BitsMatch, SetRange;
      var k := NextPowerOfTwo(count);
      var n, ppn := Pow2(k), phys / PAGE_SIZE;
      var at := Locate(ppn, n);
      var i := at.value;
      var o := ppn - regions[i].start;
      BaseFits(regions, tracked, i);
      GiveCount(regions[i], used, o, n);
      HintOk(regions, tracked, i, Min(regions[i].hint, o));
      UsedLess(used, SetRange(regions[i].base + o, n), tracked);
      MarkRun(regions[i].base + o, n, false);
      regions := regions[i := regions[i].(hint := Min(regions[i].hint, o))];
      freeFrames := freeFrames + n;
    }

    /** The region that holds the extent, if one does. */
    method Locate(ppn: nat, n: nat) returns (i: Option<nat>)
      requires RegionsOk(regions, tracked) && n > 0
      ensures i.Some? ==> i.value < |regions| && Inside(regions[i.value], ppn, n)
      ensures forall r :: 0 <= r < |regions| && Inside(regions[r], ppn, n) ==> i == Some(r)
    {
      for k := 0 to |regions|
        invariant forall r :: 0 <= r < k ==> !Inside(regions[r], ppn, n)
      {
        if Inside(regions[k], ppn, n) {
          forall r | k < r < |regions| ensures !Inside(regions[r], ppn, n) {
            assert Apart(regions[k].start, regions[k].frames, regions[r].start, regions[r].frames);
          }
          return Some(k);
        }
      }
      i := None;
    }

    /** Register the whole pages of `[start, end)`. */
    method AddRegion(start: nat, end: nat)
      requires Valid() && |regions| < MAX_REGIONS
      requires var (a, n) := WholePages(start, end);
        n > 0 ==>
          && tracked + n <= words.Length * WORD_BITS
          && forall j :: 0 <= j < |regions| ==> Apart(a, n, regions[j].start, regions[j].frames)
      modifies this
      ensures Valid() && used == old(used)
      ensures var (a, n) := WholePages(start, end);
        && freeFrames == old(freeFrames) + n && tracked == old(tracked) + n
        && regions == if n == 0 then old(regions) else old(regions) + [Region(a, n, old(tracked), 0)]
    {
      hide BitsMatch;
      var (a, n) := WholePages(start, end);
      if n == 0 { return; }
      regions := regions + [Region(a, n, tracked, 0)];
      tracked := tracked + n;
      freeFrames := freeFrames + n;
    }
  }

  const MAX_COUNT: nat := 0x8000_0000_0000_0000

  function Min(a: nat, b: nat): nat { if a < b then a else b }

  /** The first whole frame of a byte range and the number of them. */
  function WholePages(start: nat, end: nat): (nat, nat) {
    var a := (start + PAGE_SIZE - 1) / PAGE_SIZE;
    var b := end / PAGE_SIZE;
    (a, if a < b then b - a else 0)
  }

  /** They are exactly the frames that lie in the range as a whole. */
  lemma WholePagesAre(start: nat, end: nat, f: nat)
    ensures var (a, n) := WholePages(start, end); a <= f < a + n <==> start <= f * PAGE_SIZE && (f + 1) * PAGE_SIZE <= end
  {
  }

  predicate Inside(r: Region, ppn: nat, n: nat) { r.start <= ppn && ppn - r.start + n <= r.frames }

  /** The least power of two that is not less than `count`. */
  function RoundUp(count: nat): nat { RoundFrom(count, 0) }

  lemma {:induction false} RoundFromLeast(count: nat, k: nat, m: nat)
    requires k <= m && Pow2(m) >= count
    ensures RoundFrom(count, k) <= Pow2(m)
    decreases m - k
  {
    if k < m {
      RoundFromLeast(count, k + 1, m);
      Pow2Mono(k, m);
    }
  }

  /** No smaller power of two is enough. */
  lemma RoundLeast(count: nat, m: nat)
    requires Pow2(m) >= count
    ensures RoundUp(count) <= Pow2(m)
  {
    RoundFromLeast(count, 0, m);
  }

  function RoundFrom(count: nat, k: nat): nat
    decreases if Pow2(k) < count then count - Pow2(k) else 0
  {
    if Pow2(k) >= count then Pow2(k) else RoundFrom(count, k + 1)
  }

  method NextPowerOfTwo(count: nat) returns (k: nat)
    requires count > 0
    ensures Pow2(k) == RoundUp(count) >= count && (k > 0 ==> Pow2(k - 1) < count)
  {
    k := 0;
    while Pow2(k) < count
      invariant RoundUp(count) == RoundFrom(count, k) && (k > 0 ==> Pow2(k - 1) < count)
      decreases if Pow2(k) < count then count - Pow2(k) else 0
    {
      k := k + 1;
    }
  }

  lemma HintFits(regions: seq<Region>, tracked: nat, k: nat)
    requires RegionsOk(regions, tracked) && k < |regions|
    ensures regions[k].hint <= regions[k].frames
  {
  }

  lemma TooSmall(r: Region, used: set<nat>, n: nat)
    requires n > r.frames && r.hint <= r.frames
    ensures forall a: nat :: !Findable(r, used, n, a)
  {
  }

  lemma TakeCount(r: Region, used: set<nat>, o: nat, n: nat, tracked: nat)
    requires FreeRun(r, used, o, n) && used <= SetRange(0, tracked) && r.base + o + n <= tracked
    ensures |used + SetRange(r.base + o, n)| == |used| + n && used + SetRange(r.base + o, n) <= SetRange(0, tracked)
    ensures |used| + n <= tracked
  {
    hide SetRange;
    var s := SetRange(r.base + o, n);
    assert used !! s;
    Subset(used + s, SetRange(0, tracked));
  }

  lemma GiveCount(r: Region, used: set<nat>, o: nat, n: nat)
    requires SetRange(r.base + o, n) <= used
    ensures |used - SetRange(r.base + o, n)| == |used| - n
  {
    hide SetRange;
    var s := SetRange(r.base + o, n);
    assert used == (used - s) + s && (used - s) !! s;
    assert |used| == |used - s| + |s|;
  }

  lemma UsedLess(used: set<nat>, s: set<nat>, tracked: nat)
    requires used <= SetRange(0, tracked)
    ensures used - s <= SetRange(0, tracked)
  {
  }

  lemma Subset(a: set<nat>, b: set<nat>)
    requires a <= b
    ensures |a| <= |b| && (|a| == |b| ==> a == b)
  {
    assert b == a + (b - a) && a !! (b - a);
    assert |b| == |a| + |b - a|;
  }

  lemma HintOk(regions: seq<Region>, tracked: nat, r: nat, h: nat)
    requires RegionsOk(regions, tracked) && r < |regions| && h <= regions[r].frames
    ensures RegionsOk(regions[r := regions[r].(hint := h)], tracked)
  {
  }

  // ---- when an allocation fails ----

  /** Every tracked bit belongs to a region. */
  lemma {:induction false} Covering(regions: seq<Region>, tracked: nat, b: nat, k: nat) returns (r: nat)
    requires RegionsOk(regions, tracked) && k < |regions| && b < regions[k].base + regions[k].frames
    ensures r < |regions| && regions[r].base <= b < regions[r].base + regions[r].frames
    decreases k
  {
    if regions[k].base <= b { r := k; } else { r := Covering(regions, tracked, b, k - 1); }
  }

  lemma OneIsFindable(r: Region, used: set<nat>, o: nat)
    requires r.hint <= r.frames && o < r.frames && r.base + o !in used
    ensures Findable(r, used, 1, o)
  {
    assert FreeRun(r, used, o, 1);
  }

  /** A single frame is found exactly when one is free. */
  lemma OneFrame(regions: seq<Region>, tracked: nat, used: set<nat>)
    requires RegionsOk(regions, tracked) && used <= SetRange(0, tracked)
    ensures (forall j, a: nat :: 0 <= j < |regions| ==> !Findable(regions[j], used, 1, a)) <==> |used| == tracked
  {
    hide SetRange;
    if |used| == tracked {
      Subset(used, SetRange(0, tracked));
      forall j, a: nat | 0 <= j < |regions| ensures !Findable(regions[j], used, 1, a) {
        BaseFits(regions, tracked, j);
        if a < regions[j].frames { assert regions[j].base + a in used; }
      }
    } else {
      var rest := SetRange(0, tracked) - used;
      assert SetRange(0, tracked) == used + rest && used !! rest;
      assert |rest| == tracked - |used|;
      var b :| b in rest;
      assert regions != [];
      var r := Covering(regions, tracked, b, |regions| - 1);
      OneIsFindable(regions[r], used, b - regions[r].base);
    }
  }

  /** Larger requests can miss a free aligned extent across the hint: of eight frames the last four are
      taken, the hint is 2, and four frames are asked for. */
  lemma StraddleMissed(r: Region, used: set<nat>)
    requires r == Region(0, 8, 0, 2) && used == {4, 5, 6, 7}
    ensures Window(r, used, 0, r.frames, 4, 0) && forall a: nat :: !Findable(r, used, 4, a)
  {
    assert FreeRun(r, used, 0, 4);
    assert !FreeRun(r, used, 4, 4) by { assert 4 in used; }
  }

  /** The search finds an extent exactly when some free aligned extent of a region does not cross the hint. */
  lemma FindableIs(r: Region, used: set<nat>, n: nat, o: nat)
    requires r.hint <= r.frames
    ensures Findable(r, used, n, o) <==> Window(r, used, 0, r.frames, n, o) && !(o < r.hint < o + n)
  {
  }

  /** `align_ppn`: the next multiple of `Pow2(k)`, by masking. */
  function AlignPpn(ppn: nat, k: nat): (a: nat)
    ensures ppn <= a < ppn + Pow2(k) && a % Pow2(k) == 0
  {
    MaskUp(ppn, k);
    AndNot(ppn + Pow2(k) - 1, Pow2(k) - 1)
  }

  lemma MaskUp(ppn: nat, k: nat)
    ensures var a := AndNot(ppn + Pow2(k) - 1, Pow2(k) - 1); ppn <= a < ppn + Pow2(k) && a % Pow2(k) == 0
  {
    hide AndNot, Pow2;
    var n := Pow2(k);
    var x := ppn + n - 1;
    MaskDown(x, k);
    QuotRem(x, n);
    ModUnique(x - x % n, n, x / n, 0);
  }

  /** Different multiples of `n` are at least `n` apart. */
  lemma Separate(a: nat, b: nat, n: nat)
    requires n > 0 && a % n == 0 && b % n == 0
    ensures a < b ==> a + n <= b
  {
    QuotRem(a, n);
    QuotRem(b, n);
    var p, q := a / n, b / n;
    if p < q { Grow(p + 1, q, n); } else { Grow(q, p, n); }
  }

  /** The first multiple from `from` on is not after another one. */
  lemma AtLeast(start: nat, from: nat, x: nat, a: nat, n: nat)
    requires n > 0 && (start + x) % n == 0 && from <= x < from + n && (start + a) % n == 0 && from <= a
    ensures x <= a
  {
    Separate(start + a, start + x, n);
  }

  /** A window that is not before the one with a used frame starts after that frame. */
  lemma AfterUsed(r: Region, used: set<nat>, from: nat, end: nat, n: nat, a: nat, offset: nat, u: nat)
    requires Window(r, used, from, end, n, a) && offset <= a && (r.start + offset) % n == 0 && offset <= u < offset + n
    requires r.base + u in used
    ensures u < a
  {
    Separate(r.start + offset, r.start + a, n);
  }

  lemma RangeEmpty(a: nat)
    ensures SetRange(a, 0) == {}
  {
  }

  lemma RangeNext(a: nat, n: nat)
    ensures SetRange(a, n + 1) == SetRange(a, n) + {a + n}
  {
  }

  /** Bit `i` of the bitmap. */
  predicate BitAt(words: seq<nat>, i: nat) { i / WORD_BITS < |words| && Bit(words[i / WORD_BITS], i % WORD_BITS) }

  ghost predicate BitsMatch(words: seq<nat>, used: set<nat>) { forall i: nat :: BitAt(words, i) <==> i in used }

  lemma FlipBit(words: seq<nat>, words1: seq<nat>, bit: nat, value: bool, j: nat)
    requires bit / WORD_BITS < |words|
    requires var (i, k) := (bit / WORD_BITS, bit % WORD_BITS);
      words1 == words[i := if value then Or(words[i], Pow2(k)) else AndNot(words[i], Pow2(k))]
    ensures BitAt(words1, j) == if j == bit then value else BitAt(words, j)
  {
    hide Or, AndNot, Bit, Pow2;
    var (i, k) := (bit / WORD_BITS, bit % WORD_BITS);
    SetClear(words[i], k, j % WORD_BITS);
    SameIndex(bit, j);
  }

  lemma SameIndex(a: nat, b: nat)
    ensures a / WORD_BITS == b / WORD_BITS && a % WORD_BITS == b % WORD_BITS <==> a == b
  {
  }

  // ---- a run that misses a free extent ----

  lemma Rounds()
    ensures RoundUp(2) == 2 && RoundUp(4) == 4 && 4 <= MAX_COUNT
  {
    assert Pow2(1) == 2 && Pow2(2) == 4;
  }

  lemma Found(r: Region, used: set<nat>, n: nat, o: nat, want: nat)
    requires FirstFound(r, used, n, o) && Window(r, used, r.hint, r.frames, n, want)
    requires forall a: nat :: a < want ==> !Window(r, used, r.hint, r.frames, n, a)
    ensures o == want
  {
    hide Window;
  }

  /** Where two frames are found while the first `h` of eight are used and the hint is there. */
  lemma TwoAt(h: nat)
    requires h == 0 || h == 2
    ensures Window(Region(0, 8, 0, h), SetRange(0, h), h, 8, 2, h)
    ensures forall a: nat :: a < h ==> !Window(Region(0, 8, 0, h), SetRange(0, h), h, 8, 2, a)
  {
    hide SetRange;
    assert FreeRun(Region(0, 8, 0, h), SetRange(0, h), h, 2);
  }

  /** Where four frames are found while frames 2 and 3 are used. */
  lemma FourAt()
    ensures var r := Region(0, 8, 0, 0); Window(r, {2, 3}, 0, 8, 4, 4) && forall a: nat :: a < 4 ==>
              !Window(r, {2, 3}, 0, 8, 4, a)
  {
    var r := Region(0, 8, 0, 0);
    assert FreeRun(r, {2, 3}, 4, 4);
    assert !FreeRun(r, {2, 3}, 0, 4) by { assert 2 in {2, 3}; }
  }

  lemma Ranges()
    ensures SetRange(0, 0) == {} && SetRange(0, 2) == {0, 1} && SetRange(2, 2) == {2, 3}
    ensures SetRange(4, 4) == {4, 5, 6, 7}
  {
  }

  /** Allocate two frames while the first `h` are used and the hint is there. */
  method TakeTwo(a: FrameAllocator, h: nat)
    requires a.Valid() && (h == 0 || h == 2) && a.regions == [Region(0, 8, 0, h)] && a.used == SetRange(0, h)
    modifies a, a.words
    ensures a.Valid() && a.regions == [Region(0, 8, 0, h + 2)] && a.used == SetRange(0, h + 2)
    ensures a.freeFrames + 2 == old(a.freeFrames)
  {
    hide FrameAllocator.Valid, SetRange, RoundUp, FirstFound, Window;
    Rounds();
    TwoAt(h);
    assert Findable(a.regions[0], a.used, 2, h);
    var p, r, o := a.AllocFrames(2);
    Found(old(a.regions)[0], old(a.used), 2, o, h);
    assert SetRange(0, h) + SetRange(h, 2) == SetRange(0, h + 2);
  }

  /** Eight frames from 0: allocate two, two more, free the first two, allocate four, free the second two.  Now the
      first four frames are free, yet four frames are refused. */
  method Straddle() returns (a: FrameAllocator, last: Option<nat>)
    ensures fresh(a) && a.Valid() && a.freeFrames == 4 && last == None
    ensures a.regions == [Region(0, 8, 0, 2)] && a.used == {4, 5, 6, 7} && Window(a.regions[0], a.used, 0, 8, 4, 0)
  {
    hide BitsMatch, SetRange, RoundUp, FirstFound, Window, RegionsOk, FrameAllocator.Valid;
    Rounds();
    Ranges();
    a := new FrameAllocator(1);
    a.NoFrames();
    assert WholePages(0, 8 * PAGE_SIZE) == (0, 8);
    a.AddRegion(0, 8 * PAGE_SIZE);
    TakeTwo(a, 0);
    TakeTwo(a, 2);
    assert SetRange(0, 4) == {0, 1} + {2, 3} by { FourFrames(); }
    a.FreeFrames(0, 2, 0);
    assert a.used == {2, 3};
    FourAt();
    assert Findable(a.regions[0], a.used, 4, 4);
    ghost var before := a.regions[0];
    var four, r, o := a.AllocFrames(4);
    Found(before, {2, 3}, 4, o, 4);
    a.FreeFrames(2 * PAGE_SIZE, 2, 0);
    assert a.used == {4, 5, 6, 7} && a.regions == [Region(0, 8, 0, 2)];
    StraddleMissed(a.regions[0], a.used);
    ghost var r1, o1;
    last, r1, o1 := a.AllocFrames(4);
  }

  lemma FourFrames()
    ensures SetRange(0, 4) == {0, 1} + {2, 3}
  {
  }
}
