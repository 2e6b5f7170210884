/** Per-process user address spaces: the map of user pages beside the page table, over physical memory. */
module VirtualMemory {
  import opened Bits
  import opened Bytes
  import opened PageTable
  import opened PageUnmap
  import opened PageCount
  import opened PageMap

  datatype VmPage = VmPage(phys: nat, flags: Flags)

  /** The walk of the page table finds exactly these 4 KiB user pages. */
  ghost predicate Agree(t: PT, pages: map<nat, VmPage>, limit: nat) {
    && limit <= Span(t.top + 1) && (forall va :: va in pages ==> va < limit && va % 4096 == 0)
    && forall va: nat :: va < limit && va % 4096 == 0 ==>
         Translate(t, va) == if va in pages then Mapped(pages[va].phys, t.c.norm(pages[va].flags), 0) else Unmapped
  }

  /** All of them were mapped explicitly. */
  ghost predicate Noted(t: PT, meta: map<nat, seq<Status>>, pages: map<nat, VmPage>) {
    forall va :: va in pages ==> Explicit(t, meta, va)
  }

  /** User pages are aligned and below the limit; their frames belong to no table and to no other page. */
  ghost predicate PagesOk(pages: map<nat, VmPage>, owned: set<nat>, limit: nat) {
    && (forall va :: va in pages ==>
          va % 4096 == 0 && va < limit && pages[va].flags.u && TableAddress(pages[va].phys) && pages[va].phys !in owned)
    && (forall va, vb :: va in pages && vb in pages && va != vb ==> pages[va].phys != pages[vb].phys)
  }

  ghost predicate FramesOk(pages: map<nat, VmPage>, ram: map<nat, seq<Byte>>) {
    forall va :: va in pages ==> pages[va].phys in ram && |ram[pages[va].phys]| == 4096
  }

  /** Every frame of the engine is memory. */
  ghost predicate RamOk(owned: set<nat>, ram: map<nat, seq<Byte>>) {
    forall f :: f in owned ==> f in ram && |ram[f]| == 4096
  }

  ghost function FramesIn(pages: map<nat, VmPage>): set<nat> { set va | va in pages :: pages[va].phys }

  /** The tables hold every recorded page; what else they hold is never recognised when it is unmapped. */
  ghost predicate Over(c: Codec, pages: map<nat, VmPage>, walk: map<nat, VmPage>) {
    SubMap(pages, walk) && forall va :: va in walk && va !in pages ==> !c.mappable(walk[va].flags)
  }

  /** What is left of `walk` when these pages are unmapped: entries that are not recognised as leaves stay. */
  ghost function Removed(c: Codec, walk: map<nat, VmPage>, gone: set<nat>): map<nat, VmPage> {
    map va | va in walk && (va !in gone || !c.mappable(walk[va].flags)) :: walk[va]
  }

  class Ram {
    var bytes: map<nat, seq<Byte>>       // the contents of page frames
  }

  class AddressSpace {
    const pt: AddrSpace
    const ram: Ram
    const limit: nat
    var pages: map<nat, VmPage>
    ghost var walk: map<nat, VmPage>     // what the tables hold

    /** A space without user mappings over a root that has none. */
    constructor (table: AddrSpace, memory: Ram, userLimit: nat)
      requires table.Valid() && userLimit % 4096 == 0 && userLimit <= Span(table.top + 1)
      requires forall va: nat :: va < userLimit ==> Translate(table.T(), va) == Unmapped
      requires RamOk(table.Owned(), memory.bytes)
      ensures Valid() && pages == map[] == walk && pt == table && ram == memory && limit == userLimit
    {
      pt, ram, limit, pages, walk := table, memory, userLimit, map[], map[];
    }

    /** The tables hold `walk`, and the frames of the recorded pages are this space's own. */
    ghost predicate Valid()
      reads this, pt, pt.pool, ram
    {
      Tables(walk) && PagesOk(pages, pt.Owned(), limit) && FramesOk(pages, ram.bytes) && RamOk(pt.Owned(), ram.bytes)
    }

    /** The frames of this space, and those it can get. */
    ghost function Held(): set<nat> reads this, pt { pt.Mine() + FramesIn(pages) }
    ghost function Reach(): set<nat> reads this, pt, pt.pool { pt.Owned() + FramesIn(pages) }

    /** Every recorded page is in the tables, and nothing else that unmapping could remove. */
    ghost predicate InStep() reads this, pt { Over(pt.c, pages, walk) }

    /** The page-table part, while `w` is what the tables hold. */
    ghost predicate Tables(w: map<nat, VmPage>)
      reads pt, pt.pool
    {
      pt.Valid() && limit % 4096 == 0 && Agree(pt.T(), w, limit) && Noted(pt.T(), pt.meta, w)
    }

    /** What the walk of the tables finds at a page. */
    lemma WalkIs(va: nat)
      requires Valid() && va < limit && va % 4096 == 0
      ensures FlatAt(pt.T(), va) == if va in walk then Page(walk[va].phys, pt.c.norm(walk[va].flags)) else NoPage
    {
      hide Inv, Translate;
    }

    /** The tables that pages at these addresses still need. */
    ghost function Lacking(vas: set<nat>): nat
      reads pt
    {
      Missing(pt.T(), vas)
    }

    lemma TablesInv(w: map<nat, VmPage>)
      requires Tables(w)
      ensures Inv(pt.T()) && pt.pool.free !! pt.lvl.Keys
    {
      hide Inv, MetaOk, Agree, Noted;
      pt.TablesApart();
    }

    /** Pages in the tables need none. */
    lemma NoneLacking(w: map<nat, VmPage>, vas: set<nat>)
      requires Tables(w) && vas <= w.Keys
      ensures Ways(pt.top, vas) <= Places(pt.T()) && Lacking(vas) == 0
    {
      hide Inv, MetaOk, Noted, Ways, Places, Translate;
      MappedWays(pt.T(), vas);
      SomeLeft(Ways(pt.top, vas), Places(pt.T()));
    }

    lemma TablesAligned(w: map<nat, VmPage>)
      requires Tables(w)
      ensures limit % 4096 == 0 && forall va :: va in w ==> va % 4096 == 0 && va < limit
    {
    }

    /** Map one page through a transaction of its own. */
    method MapPage(va: nat, phys: nat, flags: Flags, ghost w: map<nat, VmPage>) returns (r: Outcome<()>)
      requires Tables(w) && va % 4096 == 0 && va < limit && TableAddress(phys)
      modifies pt, pt.pool
      ensures Tables(if r.Ok? then w[va := VmPage(phys, flags)] else w)
      ensures pt.Owned() <= old(pt.Owned())
      ensures r == Err(BlockedByExistingMapping) <==> va in w
      ensures r.Err? ==> r.error == OutOfMemory || va in w
      ensures r == Err(OutOfMemory) <==> old(Lacking({va})) > |old(pt.pool.free)|
      ensures r == Err(OutOfMemory) ==> pt.pool.free == {}
      ensures Walked(old(pt.T()), old(pt.pool.free), pt.T(), pt.pool.free, va)
      ensures r.Ok? ==> Reaches(old(pt.T()), old(pt.pool.free), pt.T(), pt.pool.free, va)
    {
      hide Inv, MetaOk, PoolOk, LocksOk, Translate, Agree, Noted, Explicit, Stay, SplitReady, AddrSpace.Owned, PageAt;
      hide Walked, Ways, Places, WayTo, Reaches, ExplicitAt;
      ghost var t, m := pt.T(), pt.meta;
      MapReady(t, w, limit, va, phys);
      NotedAt(t, m, w, va);
      WayAll(pt.top, va);
      r := pt.Map(va, phys, flags, 0);
      if r.Ok? { AgreeMapped(t, pt.T(), w, limit, va, phys, flags); } else { AgreeSame(t, pt.T(), w, limit, va); }
      NotedMapped(t, m, pt.T(), pt.meta, w, va, VmPage(phys, flags));
      pt.DropLocks();
    }

    /** `AddrSpace::unmap` of one page: fails exactly when nothing is mapped there.  Otherwise it succeeds, but
        removes only a page that is recognised as a leaf. */
    method UnmapPage(va: nat, ghost w: map<nat, VmPage>) returns (r: Outcome<()>)
      requires Tables(w) && va % 4096 == 0 && va < limit
      modifies pt, pt.pool
      ensures (r.Ok? <==> va in w) && (r.Err? ==> r.error == BlockedByExistingMapping)
      ensures Tables(Removed(pt.c, w, {va})) && pt.Owned() <= old(pt.Owned())
      ensures pt.pool.free == old(pt.pool.free) + (old(pt.lvl).Keys - pt.lvl.Keys) && pt.lvl.Keys <= old(pt.lvl).Keys
      ensures Shifted(old(pt.T()), old(pt.pool.free), pt.T(), pt.pool.free, Ways(pt.top, {va}))
    {
      hide Inv, MetaOk, PoolOk, LocksOk, Translate, Agree, Noted, Explicit, StayTo, AddrSpace.Owned, Cut, Shrunk, Tidy;
      hide GonePages, FreedIn, Ways, Places, Shifted;
      ghost var t, m := pt.T(), pt.meta;
      ShiftedRefl(t, pt.pool.free, Ways(pt.top, {va}));
      UnmapReady(t, w, limit, va);
      var p := pt.TranslateVa(va);
      if p.NoFrame? {
        assert Removed(pt.c, w, {va}) == w;
        return Err(BlockedByExistingMapping);
      }
      var u := pt.Unmap(va, va + 4096);
      ShrunkFree(t, old(pt.pool.free), pt.T(), pt.pool.free, pt.root, Span(pt.top + 1));
      UnmappedPlaces(t, old(pt.pool.free), pt.T(), pt.pool.free, pt.root, Span(pt.top + 1), va);
      AgreeUnmapped(t, pt.T(), w, limit, va);
      NotedUnmapped(t, m, pt.T(), pt.meta, w, limit, va);
      pt.DropLocks();
      r := Ok(());
    }

    /** `alloc_frame` for data: the frame leaves the engine's reach. */
    method TakeFrame(ghost w: map<nat, VmPage>) returns (r: Frame)
      requires Tables(w)
      modifies pt.pool
      ensures Tables(w) && pt.Owned() <= old(pt.Owned())
      ensures r.Got? ==> r.frame in old(pt.pool.free) && pt.pool.free == old(pt.pool.free) - {r.frame}
      ensures r.Got? ==> r.frame in old(pt.Owned()) && r.frame !in pt.Owned() && TableAddress(r.frame)
      ensures r.NoFrame? ==> pt.pool.free == old(pt.pool.free) == {}
    {
      hide Inv, MetaOk, Agree, Noted, TableAddress;
      forall f | f in pt.pool.free ensures TableAddress(f) && f !in pt.lvl && f !in pt.meta && f !in pt.locked { pt.FrameApart(f); }
      r := pt.AllocFrame();
    }

    /** `free_frames` for a data frame. */
    method GiveBack(f: nat, ghost w: map<nat, VmPage>)
      requires Tables(w) && TableAddress(f) && f !in pt.Owned()
      modifies pt.pool
      ensures Tables(w) && pt.Owned() == old(pt.Owned()) + {f} && pt.pool.free == old(pt.pool.free) + {f}
    {
      hide Inv, MetaOk, PoolOk, LocksOk, Agree, Noted, TableAddress, AddrSpace.Owned;
      pt.FreeFrame(f);
    }

    /** Map a fresh zeroed page. */
    method MapZeroed(vaddr: nat, flags: Flags) returns (r: Outcome<nat>)
      requires Valid()
      modifies this, pt, pt.pool, ram
      ensures r.Ok? <==>
                && vaddr % 4096 == 0 && vaddr < limit && flags.u && vaddr !in old(pages) && vaddr !in old(walk)
                && 1 + old(Lacking({vaddr})) <= |old(pt.pool.free)|
      ensures r.Err? ==> r.error == OutOfMemory || r.error == BlockedByExistingMapping
      ensures r.Ok? ==> Reaches(old(pt.T()), old(pt.pool.free) - {r.value}, pt.T(), pt.pool.free, vaddr)
      ensures Valid() && Reach() <= old(Reach()) && RamKept(old(ram.bytes), ram.bytes, old(Reach()))
      ensures r.Ok? ==>
                && vaddr % 4096 == 0 && vaddr < limit && flags.u && vaddr !in old(walk) && r.value in old(pt.pool.free)
                && pages == old(pages)[vaddr := VmPage(r.value, flags)] && walk == old(walk)[vaddr := VmPage(r.value, flags)]
                && ram.bytes == old(ram.bytes)[r.value := Zeros(4096)]
      ensures r.Err? ==> pages == old(pages) && walk == old(walk) && ram.bytes == old(ram.bytes)
      ensures r == Err(BlockedByExistingMapping) <==>
                vaddr % 4096 != 0 || vaddr >= limit || !flags.u || vaddr in old(pages) || (vaddr in old(walk) && old(pt.pool.free) != {})
      ensures (old(InStep()) ==> InStep()) && (old(pages == walk) ==> pages == walk)
    {
      hide AddressSpace.Tables, AddrSpace.Owned, PagesOk, TableAddress, FramesOk, RamOk, RamKept, Over, FramesIn;
      hide Walked, Ways, Places, AddressSpace.Lacking, Reaches;
      RamKeptRefl(ram.bytes, Reach());
      if vaddr % 4096 != 0 || vaddr >= limit || !flags.u { return Err(BlockedByExistingMapping); }
      if vaddr in pages { return Err(BlockedByExistingMapping); }
      var f := MapFresh(vaddr, flags);
      PagesLess(pages, old(pt.Owned()), pt.Owned(), limit);
      RamLess(old(pt.Owned()), pt.Owned(), ram.bytes);
      if f.Err? { return f; }
      PagesAdd(pages, old(pt.Owned()), pt.Owned(), limit, vaddr, f.value, flags);
      OverAdd(pt.c, pages, walk, vaddr, VmPage(f.value, flags));
      RamZero(pages, old(pt.Owned()), pt.Owned(), ram.bytes, vaddr, f.value, flags);
      ram.bytes := ram.bytes[f.value := Zeros(4096)];
      pages := pages[vaddr := VmPage(f.value, flags)];
      walk := walk[vaddr := VmPage(f.value, flags)];
      r := Ok(f.value);
    }

    /** Allocate a frame and map it; the frame goes back when that fails. */
    method MapFresh(va: nat, flags: Flags) returns (r: Outcome<nat>)
      requires Tables(walk) && va % 4096 == 0 && va < limit
      modifies pt, pt.pool
      ensures r.Ok? <==> va !in walk && 1 + old(Lacking({va})) <= |old(pt.pool.free)|
      ensures r.Err? ==> r.error == OutOfMemory || r.error == BlockedByExistingMapping
      ensures r == Err(BlockedByExistingMapping) <==> va in walk && old(pt.pool.free) != {}
      ensures r.Ok? ==> Reaches(old(pt.T()), old(pt.pool.free) - {r.value}, pt.T(), pt.pool.free, va)
      ensures Tables(if r.Ok? then walk[va := VmPage(r.value, flags)] else walk) && pt.Owned() <= old(pt.Owned())
      ensures r.Ok? ==> r.value in old(pt.pool.free) && r.value in old(pt.Owned()) && r.value !in pt.Owned()
      ensures r.Ok? ==> TableAddress(r.value)
    {
      hide AddressSpace.Tables, AddrSpace.Owned, TableAddress, Walked, Ways, Places, AddressSpace.Lacking, Reaches;
      var f := TakeFrame(walk);
      if f.NoFrame? { return Err(OutOfMemory); }
      var m := MapPage(va, f.frame, flags, walk);
      if m.Err? {
        GiveBack(f.frame, walk);
        return Err(m.error);
      }
      r := Ok(f.frame);
    }

    // ---- ranges ----

    /** The recorded pages of the range, in ascending order. */
    method Recorded(start: nat, end: nat) returns (todo: seq<nat>)
      requires start % 4096 == 0 && forall va :: va in pages ==> va % 4096 == 0
      ensures Listed(pages, start, end, todo)
    {
      todo := [];
      var a := start;
      while a < end
        invariant a % 4096 == 0 && start <= a && Listed(pages, start, Min(a, end), todo)
        decreases end - a
      {
        forall va | va in pages && a <= va < a + 4096 ensures va == a { if va != a { SeparatePages(va, a); } }
        if a in pages { todo := todo + [a]; }
        a := a + 4096;
      }
    }

    /** Unmap these pages from the tables, ignoring those that are not there. */
    method UnmapAll(todo: seq<nat>, ghost w: map<nat, VmPage>)
      requires Tables(w) && (forall k :: 0 <= k < |todo| ==> todo[k] % 4096 == 0 && todo[k] < limit)
      modifies pt, pt.pool
      ensures Tables(Removed(pt.c, w, SetOf(todo))) && pt.Owned() <= old(pt.Owned())
      ensures Shifted(old(pt.T()), old(pt.pool.free), pt.T(), pt.pool.free, Ways(pt.top, SetOf(todo)))
    {
      hide AddressSpace.Tables, AddrSpace.Owned, Ways, Places, Shifted;
      ShiftedRefl(pt.T(), pt.pool.free, Ways(pt.top, SetOf(todo)));
      assert Removed(pt.c, w, SetOf(todo[..0])) == w;
      for k := 0 to |todo|
        invariant Tables(Removed(pt.c, w, SetOf(todo[..k]))) && pt.Owned() <= old(pt.Owned())
        invariant Shifted(old(pt.T()), old(pt.pool.free), pt.T(), pt.pool.free, Ways(pt.top, SetOf(todo)))
      {
        ghost var t, f := pt.T(), pt.pool.free;
        var u := UnmapPage(todo[k], Removed(pt.c, w, SetOf(todo[..k])));
        ShiftedOne(old(pt.T()), old(pt.pool.free), t, f, pt.T(), pt.pool.free, todo[k], SetOf(todo));
        RemovedNext(pt.c, w, todo, k);
      }
      assert todo[..|todo|] == todo;
    }

    /** Unmap these pages; stops at the first that is not there. */
    method UnmapEach(todo: seq<nat>, ghost w: map<nat, VmPage>) returns (e: Outcome<()>, ghost n: nat)
      requires Tables(w) && (forall k :: 0 <= k < |todo| ==> todo[k] % 4096 == 0 && todo[k] < limit)
      requires forall i, j :: 0 <= i < j < |todo| ==> todo[i] != todo[j]
      modifies pt, pt.pool
      ensures n <= |todo| && Tables(Removed(pt.c, w, SetOf(todo[..n]))) && pt.Owned() <= old(pt.Owned())
      ensures e.Ok? <==> forall k :: 0 <= k < |todo| ==> todo[k] in w
      ensures e.Ok? ==> n == |todo| && todo[..n] == todo
      ensures e.Err? ==> e.error == BlockedByExistingMapping
      ensures pt.pool.free == old(pt.pool.free) + (old(pt.lvl).Keys - pt.lvl.Keys) && pt.lvl.Keys <= old(pt.lvl).Keys
      ensures Shifted(old(pt.T()), old(pt.pool.free), pt.T(), pt.pool.free, Ways(pt.top, SetOf(todo)))
    {
      hide AddressSpace.Tables, AddrSpace.Owned, Ways, Places, Shifted;
      ShiftedRefl(pt.T(), pt.pool.free, Ways(pt.top, SetOf(todo)));
      assert Removed(pt.c, w, SetOf(todo[..0])) == w;
      n := 0;
      for k := 0 to |todo|
        invariant n == k && Tables(Removed(pt.c, w, SetOf(todo[..k]))) && pt.Owned() <= old(pt.Owned())
        invariant forall j :: 0 <= j < k ==> todo[j] in w
        invariant pt.pool.free == old(pt.pool.free) + (old(pt.lvl).Keys - pt.lvl.Keys)
        invariant pt.lvl.Keys <= old(pt.lvl).Keys
        invariant Shifted(old(pt.T()), old(pt.pool.free), pt.T(), pt.pool.free, Ways(pt.top, SetOf(todo)))
      {
        ghost var t, f := pt.T(), pt.pool.free;
        e := UnmapPage(todo[k], Removed(pt.c, w, SetOf(todo[..k])));
        ShiftedOne(old(pt.T()), old(pt.pool.free), t, f, pt.T(), pt.pool.free, todo[k], SetOf(todo));
        RemovedNext(pt.c, w, todo, k);
        if e.Err? {
          assert Removed(pt.c, w, SetOf(todo[..k + 1])) == Removed(pt.c, w, SetOf(todo[..k]));
          return;
        }
        n := k + 1;
      }
      e := Ok(());
      assert todo[..|todo|] == todo;
    }

    /** Map these pages to these frames; stops at the first failure, after `n` pages. */
    method MapAll(todo: seq<nat>, frames: seq<nat>, flags: Flags, ghost w: map<nat, VmPage>) returns (n: nat,
        e: Outcome<()>)
      requires Tables(w) && (forall k :: 0 <= k < |todo| ==> todo[k] % 4096 == 0 && todo[k] < limit)
      requires |frames| == |todo| && (forall k :: 0 <= k < |todo| ==> TableAddress(frames[k]))
      requires forall i, j :: 0 <= i < j < |todo| ==> todo[i] != todo[j]
      modifies pt, pt.pool
      ensures n <= |todo| && (e.Ok? ==> n == |todo|)
      ensures forall k :: 0 <= k < n ==> todo[k] !in w
      ensures e.Ok? <==> (forall k :: 0 <= k < |todo| ==> todo[k] !in w) && old(Lacking(SetOf(todo))) <= |old(pt.pool.free)|
      ensures e == Err(OutOfMemory) ==> old(Lacking(SetOf(todo))) > |old(pt.pool.free)|
      ensures e.Err? ==> e.error == OutOfMemory || e.error == BlockedByExistingMapping
      ensures Shifted(old(pt.T()), old(pt.pool.free), pt.T(), pt.pool.free, Ways(pt.top, SetOf(todo)))
      ensures Tables(WithAll(w, todo, frames, flags, n)) && pt.Owned() <= old(pt.Owned())
    {
      hide AddressSpace.Tables, AddrSpace.Owned, TableAddress, Ways, Places, Shifted, Walked, Filled, Reaches;
      hide Missing, WithAll, SetOf;
      TablesInv(w);
      ghost var t0, f0 := pt.T(), pt.pool.free;
      FilledNone(pt.T(), pt.pool.free, todo);
      WithAllNone(w, todo, frames, flags);
      n := 0;
      while n < |todo|
        invariant n <= |todo| && Tables(WithAll(w, todo, frames, flags, n)) && pt.Owned() <= old(pt.Owned())
        invariant forall k :: 0 <= k < n ==> todo[k] !in w
        invariant Filled(t0, f0, pt.T(), pt.pool.free, todo, n)
      {
        WithAllNext(w, todo, frames, flags, n);
        e := MapNext(todo, frames[n], flags, n, WithAll(w, todo, frames, flags, n), t0, f0);
        if e.Err? { return; }
        n := n + 1;
      }
      TablesInv(WithAll(w, todo, frames, flags, n));
      FilledFits(t0, f0, pt.T(), pt.pool.free, todo);
      e := Ok(());
    }

    method MapNext(todo: seq<nat>, frame: nat, flags: Flags, n: nat, ghost w: map<nat, VmPage>, ghost t0: PT,
        ghost f0: set<nat>) returns (e: Outcome<()>)
      requires n < |todo| && Tables(w) && todo[n] % 4096 == 0 && todo[n] < limit && TableAddress(frame)
      requires Inv(t0) && f0 !! t0.lvl.Keys && Filled(t0, f0, pt.T(), pt.pool.free, todo, n)
      modifies pt, pt.pool
      ensures Tables(if e.Ok? then w[todo[n] := VmPage(frame, flags)] else w) && pt.Owned() <= old(pt.Owned())
      ensures e.Ok? ==> todo[n] !in w && Filled(t0, f0, pt.T(), pt.pool.free, todo, n + 1)
      ensures e.Err? ==> Shifted(t0, f0, pt.T(), pt.pool.free, Ways(t0.top, SetOf(todo)))
      ensures e.Err? ==>
                || (e.error == OutOfMemory && Missing(t0, SetOf(todo)) > |f0|)
                || (e.error == BlockedByExistingMapping && todo[n] in w)
    {
      hide AddressSpace.Tables, AddrSpace.Owned, TableAddress, Ways, Places, Shifted, Walked, Filled, Reaches, Missing;
      ghost var t, f := pt.T(), pt.pool.free;
      TablesInv(w);
      e := MapPage(todo[n], frame, flags, w);
      if e.Err? {
        if e.error == OutOfMemory { FilledFails(t0, f0, t, f, todo, n); }
        FilledPart(t0, f0, t, f, pt.T(), pt.pool.free, todo, n);
        return;
      }
      FilledNext(t0, f0, t, f, pt.T(), pt.pool.free, todo, n);
    }

    /** Put recorded pages back into the tables, ignoring failures; with enough frames, and as long as one is left,
        there are none. */
    method RemapOld(todo: seq<nat>, ghost w0: map<nat, VmPage>) returns (ghost w: map<nat, VmPage>)
      requires Tables(w0) && PagesOk(pages, pt.Owned(), limit) && forall k :: 0 <= k < |todo| ==> todo[k] in pages
      modifies pt, pt.pool
      ensures old(Lacking(SetOf(todo))) <= |old(pt.pool.free)| || pt.pool.free != {} ==>
                w == Restored(w0, pages, SetOf(todo))
      ensures Tables(w) && pt.Owned() <= old(pt.Owned())
      ensures forall va :: va in w ==>
                (va in w0 && w[va] == w0[va]) || (va in todo && va in pages && w[va] == pages[va])
    {
      hide AddressSpace.Tables, AddrSpace.Owned, TableAddress, AddressSpace.Lacking, Walked, Ways, Places;
      w := w0;
      ghost var enough := Lacking(SetOf(todo)) <= |pt.pool.free|;
      RestoredNone(w0, pages, todo);
      for k := 0 to |todo|
        invariant Tables(w) && pt.Owned() <= old(pt.Owned())
        invariant forall va :: va in w ==>
                  (va in w0 && w[va] == w0[va]) || (va in todo && va in pages && w[va] == pages[va])
        invariant enough ==> Lacking(SetOf(todo)) <= |pt.pool.free|
        invariant enough || pt.pool.free != {} ==> w == Restored(w0, pages, SetOf(todo[..k]))
      {
        RestoredNext(w0, pages, todo, k);
        w := RemapOne(todo[k], SetOf(todo), w);
      }
      assert todo[..|todo|] == todo;
    }

    method RemapOne(va: nat, ghost all: set<nat>, ghost w0: map<nat, VmPage>) returns (ghost w: map<nat, VmPage>)
      requires Tables(w0) && PagesOk(pages, pt.Owned(), limit) && va in pages && va in all
      modifies pt, pt.pool
      ensures Tables(w) && pt.Owned() <= old(pt.Owned())
      ensures w == w0 || (va !in w0 && w == w0[va := pages[va]])
      ensures old(Lacking(all)) <= |old(pt.pool.free)| ==> Lacking(all) <= |pt.pool.free| && va in w
      ensures pt.pool.free != {} ==> old(pt.pool.free) != {} && va in w
    {
      hide AddressSpace.Tables, AddrSpace.Owned, TableAddress, Walked, Ways, Places;
      ghost var t, f := pt.T(), pt.pool.free;
      TablesInv(w0);
      LacksOne(va, all);
      var page := pages[va];
      var e := MapPage(va, page.phys, page.flags, w0);
      w := if e.Ok? then w0[va := VmPage(page.phys, page.flags)] else w0;
      TablesInv(w);
      LacksStill(t, f, va, all);
      WalkedTakes(t, f, pt.T(), pt.pool.free, va);
    }

    lemma LacksOne(va: nat, all: set<nat>)
      requires va in all
      ensures Lacking({va}) <= Lacking(all)
    {
      hide Ways, Places;
      WaysMore(pt.top, {va}, all);
      Smaller(Ways(pt.top, {va}) - Places(pt.T()), Ways(pt.top, all) - Places(pt.T()));
    }

    lemma LacksStill(t: PT, f: set<nat>, va: nat, all: set<nat>)
      requires Inv(t) && f !! t.lvl.Keys && Inv(pt.T()) && pt.pool.free !! pt.lvl.Keys
      requires Walked(t, f, pt.T(), pt.pool.free, va) && va in all
      ensures Missing(t, all) <= |f| ==> Lacking(all) <= |pt.pool.free|
    {
      hide Inv, Ways, Places;
      WaysMore(pt.top, {va}, all);
      FitsShifted(t, f, pt.T(), pt.pool.free, Ways(t.top, {va}), Ways(t.top, all));
    }

    /** Unmap every recorded page of the range and free its frame.  A page that no unmap recognises stays in the
        tables all the same, so the record agrees with the tables afterwards exactly when there was none. */
    method UnmapRange(start: nat, length: nat) returns (r: Outcome<()>)
      requires Valid()
      modifies this, pt, pt.pool
      ensures Valid() && Reach() <= old(Reach())
      ensures r.Ok? <==>
                start % 4096 == 0 && start + length < U64 && forall va :: va in old(pages) && start <= va < start + length ==> va in old(walk)
      ensures pages == if r.Ok? then Outside(old(pages), start, start + length) else old(pages)
      ensures r.Ok? ==> walk == Removed(pt.c, old(walk), Inside(old(pages), start, start + length).Keys)
      ensures r.Ok? ==> pt.pool.free == old(pt.pool.free) + (old(pt.lvl).Keys - pt.lvl.Keys) + FramesIn(Inside(old(pages), start, start + length))
      ensures r.Err? ==> SubMap(walk, old(walk))
      ensures old(InStep()) && r.Ok? ==> InStep() && (pages == walk <==>
                old(pages == walk) && forall va :: va in old(pages) && start <= va < start + length ==> pt.c.mappable(old(pages)[va].flags))
    {
      hide AddressSpace.Tables, AddrSpace.Owned, PagesOk, TableAddress, FramesOk, RamOk, Listed, Removed, Over;
      hide FramesIn, FramesAt, SubMap, Outside, Inside, SetOf;
      SubRefl(walk);
      if start % 4096 != 0 { return Err(BlockedByExistingMapping); }
      if start + length >= U64 { return Err(BlockedByExistingMapping); }
      PagesFacts(pages, pt.Owned(), limit);
      var todo := Recorded(start, start + length);
      ListedIn(pages, start, start + length, todo);
      ListedOnce(pages, start, start + length, todo);
      ListedIs(pages, start, start + length, todo, walk);
      ghost var w0 := walk;
      ghost var n;
      var e;
      e, n := UnmapEach(todo, walk);
      PagesLess(pages, old(pt.Owned()), pt.Owned(), limit);
      RamLess(old(pt.Owned()), pt.Owned(), ram.bytes);
      walk := Removed(pt.c, w0, SetOf(todo[..n]));
      RemovedSub(pt.c, w0, SetOf(todo[..n]));
      if e.Err? { return e; }
      FramesSub(pages, start, start + length, ram.bytes);
      OutsideIs(pages, start, start + length, todo);
      ghost var o := pt.Owned();
      Forget(todo, walk);
      FramesInside(old(pages), start, start + length, todo);
      StuckIs(pt.c, old(pages), w0, start, start + length);
      r := Ok(());
    }

    /** Drop the listed pages from the record and free their frames. */
    method Forget(todo: seq<nat>, ghost w: map<nat, VmPage>)
      requires Tables(w) && PagesOk(pages, pt.Owned(), limit) && RamOk(pt.Owned(), ram.bytes)
      requires FramesOk(pages, ram.bytes)
      requires (forall i, j :: 0 <= i < j < |todo| ==> todo[i] != todo[j])
      requires (forall i :: 0 <= i < |todo| ==> todo[i] in pages)
      modifies this`pages, pt.pool
      ensures Tables(w) && PagesOk(pages, pt.Owned(), limit) && RamOk(pt.Owned(), ram.bytes)
      ensures pages == old(pages) - SetOf(todo)
      ensures pt.pool.free == old(pt.pool.free) + FramesAt(old(pages), todo)
      ensures pt.Owned() == old(pt.Owned()) + FramesAt(old(pages), todo)
    {
      hide AddressSpace.Tables, AddrSpace.Owned, PagesOk, TableAddress, FramesOk, RamOk;
      for k := 0 to |todo|
        invariant Tables(w) && pages == old(pages) - SetOf(todo[..k]) && PagesOk(pages, pt.Owned(), limit)
        invariant RamOk(pt.Owned(), ram.bytes)
        invariant pt.pool.free == old(pt.pool.free) + FramesAt(old(pages), todo[..k])
        invariant pt.Owned() == old(pt.Owned()) + FramesAt(old(pages), todo[..k])
      {
        var va := todo[k];
        TodoNext(old(pages), todo, k);
        PagesDrop(pages, pt.Owned(), limit, va);
        RamMore(old(pages), va, pt.Owned(), ram.bytes);
        FramesNext(old(pages), todo, k);
        var phys := pages[va].phys;
        pages := pages - {va};
        GiveBack(phys, w);
        assert old(pages) - SetOf(todo[..k]) - {va} == old(pages) - SetOf(todo[..k + 1]);
      }
      assert todo[..|todo|] == todo;
    }

    /** Change the flags of a fully recorded range.  This works only where the old pages are recognised when they
        are unmapped.  When it fails, the old pages are put back as far as possible. */
    method ProtectRange(start: nat, length: nat, flags: Flags) returns (r: Outcome<()>)
      requires Valid()
      modifies this, pt, pt.pool
      ensures Valid() && Reach() <= old(Reach())
      ensures r.Ok? <==>
                PageRange(start, length, flags) && forall va :: start <= va < start + length && va % 4096 == 0 ==>
                     va in old(pages) && va in old(walk) && pt.c.mappable(old(walk)[va].flags)
      ensures r.Err? ==> r.error == BlockedByExistingMapping
      ensures r.Err? && old(InStep()) && pt.c.mappable(flags) ==> walk == old(walk)
      ensures r.Ok? ==> Protected(pt.c, old(pages), old(walk), pages, walk, start, start + length, flags)
      ensures r.Err? ==>
                pages == old(pages) && LeftOver(pt.c, old(walk), old(pages), walk, start, start + length, flags)
      ensures r.Ok? ==> (old(InStep()) ==> InStep()) && (old(pages == walk) ==> pages == walk)
    {
      hide AddressSpace.Tables, AddrSpace.Owned, PagesOk, TableAddress, Listed, FramesOk, RamOk, LeftOver, Protected;
      hide Over, Reflagged, FramesIn;
      LeftAll(pt.c, walk, pages, start, start + length, flags);
      if start % 4096 != 0 || length == 0 || length % 4096 != 0 || !flags.u || start + length >= U64 || start + length > limit {
        return Err(BlockedByExistingMapping);
      }
      var all := AllRecorded(start, start + length);
      if !all { return Err(BlockedByExistingMapping); }
      PagesFacts(pages, pt.Owned(), limit);
      var todo := Recorded(start, start + length);
      ListedIn(pages, start, start + length, todo);
      ghost var w;
      var e;
      e, w := Retable(start, start + length, todo, flags);
      walk := w;
      PagesLess(pages, old(pt.Owned()), pt.Owned(), limit);
      RamLess(old(pt.Owned()), pt.Owned(), ram.bytes);
      if e.Err? { return e; }
      TablesAligned(walk);
      ProtectedIs(pt.c, pages, old(walk), walk, start, start + length, todo, flags);
      ReflaggedOk(pages, pt.Owned(), limit, start, start + length, flags);
      pages := Reflagged(pages, start, start + length, flags);
      r := Ok(());
    }

    method FramesOf(todo: seq<nat>) returns (frames: seq<nat>)
      requires forall k :: 0 <= k < |todo| ==> todo[k] in pages
      ensures |frames| == |todo| && forall k :: 0 <= k < |todo| ==> frames[k] == pages[todo[k]].phys
    {
      frames := [];
      for k := 0 to |todo|
        invariant |frames| == k && forall j :: 0 <= j < k ==> frames[j] == pages[todo[j]].phys
      {
        frames := frames + [pages[todo[k]].phys];
      }
    }

    /** Unmap the listed pages and map these addresses to these frames instead; when that fails, undo it as far as
        possible. */
    method Swap(start: nat, end: nat, todo: seq<nat>, addrs: seq<nat>, frames: seq<nat>, flags: Flags)
      returns (e: Outcome<()>, ghost w: map<nat, VmPage>)
      requires Tables(walk) && PagesOk(pages, pt.Owned(), limit) && Listed(pages, start, end, todo)
      requires Places4K(addrs, start, end, limit) && |frames| == |addrs|
      requires forall k :: 0 <= k < |frames| ==> TableAddress(frames[k])
      requires SetOf(todo) <= SetOf(addrs)
      modifies pt, pt.pool
      ensures pt.Owned() <= old(pt.Owned()) && Tables(w)
      ensures e.Ok? <==> Swappable(pt.c, walk, todo, addrs) && old(Lacking(SetOf(addrs))) <= |old(pt.pool.free)|
      ensures e.Ok? ==> w == WithAll(Removed(pt.c, walk, SetOf(todo)), addrs, frames, flags, |addrs|)
      ensures e == Err(OutOfMemory) ==> SetOf(todo) <= walk.Keys && old(Lacking(SetOf(addrs))) > |old(pt.pool.free)|
      ensures e.Err? ==> e.error == OutOfMemory || e.error == BlockedByExistingMapping
      ensures e.Err? ==> LeftOver(pt.c, walk, pages, w, start, end, flags)
      ensures e.Err? && Undoable(pt.c, pages, walk, todo, flags) && (todo == [] || pt.pool.free != {} || old(Lacking(SetOf(addrs))) <= |old(pt.pool.free)|) ==> w == walk
    {
      hide AddressSpace.Tables, AddrSpace.Owned, PagesOk, TableAddress, Listed, LeftOver, Removed, Ways, Places, Shifted;
      hide Swappable, Undoable, Places4K, WithAll;
      TablesInv(walk);
      ghost var t0, f0 := pt.T(), pt.pool.free;
      ListedIn(pages, start, end, todo);
      ListedOnce(pages, start, end, todo);
      SwapFacts(pages, pt.Owned(), limit, addrs, start, end, pt.c, walk, todo, flags);
      ghost var m;
      e, m := UnmapEach(todo, walk);
      w := Removed(pt.c, walk, SetOf(todo[..m]));
      if e.Err? {
        LeftRemoved(pt.c, walk, pages, SetOf(todo[..m]), start, end, flags);
        return;
      }
      TablesInv(w);
      SwapFits(t0, f0, todo, addrs);
      PagesLess(pages, old(pt.Owned()), pt.Owned(), limit);
      e, w := SwapIn(start, end, todo, addrs, frames, flags, w, t0, f0);
    }

    /** Map the addresses, or undo everything. */
    method SwapIn(ghost start: nat, ghost end: nat, todo: seq<nat>, addrs: seq<nat>, frames: seq<nat>, flags: Flags,
        ghost w1: map<nat, VmPage>, ghost t0: PT, ghost f0: set<nat>) returns (e: Outcome<()>, ghost w: map<nat, VmPage>)
      requires Tables(w1) && PagesOk(pages, pt.Owned(), limit) && Listed(pages, start, end, todo)
      requires Places4K(addrs, start, end, limit) && |frames| == |addrs|
      requires forall k :: 0 <= k < |frames| ==> TableAddress(frames[k])
      requires w1 == Removed(pt.c, walk, SetOf(todo)) && Inv(t0) && f0 !! t0.lvl.Keys && t0.top == pt.top
      requires Shifted(t0, f0, pt.T(), pt.pool.free, Ways(pt.top, SetOf(todo)))
      requires SetOf(todo) <= SetOf(addrs)
      modifies pt, pt.pool
      ensures pt.Owned() <= old(pt.Owned()) && Tables(w)
      ensures e.Ok? <==>
                && (forall k :: 0 <= k < |addrs| ==> addrs[k] !in w1)
                && old(Lacking(SetOf(addrs))) <= |old(pt.pool.free)|
      ensures e.Ok? ==> w == WithAll(w1, addrs, frames, flags, |addrs|)
      ensures e == Err(OutOfMemory) ==> old(Lacking(SetOf(addrs))) > |old(pt.pool.free)|
      ensures e.Err? ==> e.error == OutOfMemory || e.error == BlockedByExistingMapping
      ensures e.Err? ==> LeftOver(pt.c, walk, pages, w, start, end, flags)
      ensures e.Err? && Undoable(pt.c, pages, walk, todo, flags) && (todo == [] || pt.pool.free != {} || Missing(t0, SetOf(addrs)) <= |f0|) ==> w == walk
    {
      hide AddressSpace.Tables, AddrSpace.Owned, PagesOk, TableAddress, Listed, LeftOver, Removed, Ways, Places, Shifted;
      hide Undoable, WithAll, AddressSpace.Lacking;
      ghost var t1, f1 := pt.T(), pt.pool.free;
      var n;
      n, e := MapAll(addrs, frames, flags, w1);
      w := WithAll(w1, addrs, frames, flags, n);
      if e.Err? {
        PagesLess(pages, old(pt.Owned()), pt.Owned(), limit);
        SwapShifted(t0, f0, t1, f1, pt.T(), pt.pool.free, SetOf(todo), SetOf(addrs));
        w := Undo(start, end, todo, addrs, frames, flags, n, w1, t0, f0);
      }
    }

    /** Unmapping does not change whether the frames are enough. */
    lemma SwapFits(t0: PT, f0: set<nat>, todo: seq<nat>, addrs: seq<nat>)
      requires Inv(t0) && f0 !! t0.lvl.Keys && Inv(pt.T()) && pt.pool.free !! pt.lvl.Keys && SetOf(todo) <= SetOf(addrs)
      requires Shifted(t0, f0, pt.T(), pt.pool.free, Ways(pt.top, SetOf(todo)))
      ensures Lacking(SetOf(addrs)) <= |pt.pool.free| <==> Missing(t0, SetOf(addrs)) <= |f0|
    {
      hide Inv, Ways, Places;
      WaysMore(pt.top, SetOf(todo), SetOf(addrs));
      FitsShifted(t0, f0, pt.T(), pt.pool.free, Ways(pt.top, SetOf(todo)), Ways(pt.top, SetOf(addrs)));
    }

    /** Unmap what was mapped instead and put the old pages back. */
    method Undo(ghost start: nat, ghost end: nat, todo: seq<nat>, addrs: seq<nat>, ghost frames: seq<nat>,
        ghost flags: Flags, n: nat, ghost w1: map<nat, VmPage>, ghost t0: PT, ghost f0: set<nat>)
      returns (ghost w: map<nat, VmPage>)
      requires n <= |addrs| == |frames| && Tables(WithAll(w1, addrs, frames, flags, n))
      requires PagesOk(pages, pt.Owned(), limit) && Listed(pages, start, end, todo)
      requires Places4K(addrs, start, end, limit) && w1 == Removed(pt.c, walk, SetOf(todo))
      requires forall k :: 0 <= k < n ==> addrs[k] !in w1
      requires Inv(t0) && f0 !! t0.lvl.Keys && SetOf(todo) <= SetOf(addrs)
      requires Shifted(t0, f0, pt.T(), pt.pool.free, Ways(pt.top, SetOf(addrs)))
      modifies pt, pt.pool
      ensures pt.Owned() <= old(pt.Owned()) && Tables(w)
      ensures LeftOver(pt.c, walk, pages, w, start, end, flags)
      ensures Undoable(pt.c, pages, walk, todo, flags) && (todo == [] || pt.pool.free != {} || Missing(t0, SetOf(addrs)) <= |f0|) ==> w == walk
    {
      hide AddressSpace.Tables, AddrSpace.Owned, PagesOk, Listed, LeftOver, Removed, Ways, Places, Shifted;
      hide Missing;
      ListedIn(pages, start, end, todo);
      w := WithAll(w1, addrs, frames, flags, n);
      ghost var t, f := pt.T(), pt.pool.free;
      UnmapAll(addrs[..n], w);
      ghost var w2 := Removed(pt.c, w, SetOf(addrs[..n]));
      PagesLess(pages, old(pt.Owned()), pt.Owned(), limit);
      TablesInv(w2);
      if Undoable(pt.c, pages, walk, todo, flags) {
        RemovedBack(pt.c, walk, todo, addrs, frames, flags, n, pages);
        if todo == [] {
          LackingNone();
        } else if Missing(t0, SetOf(addrs)) <= |f0| {
          UndoFits(t0, f0, t, f, todo, addrs, n);
        }
      }
      w := RemapOld(todo, w2);
      LeftUndone(pt.c, walk, pages, w1, w2, w, todo, addrs, frames, flags, n, start, end);
    }

    lemma LackingNone()
      ensures Lacking(SetOf([])) == 0
    {
      hide Places;
      assert SetOf([]) == {};
      WaysAll(pt.top, {}, {});
      SomeLeft(Ways(pt.top, {}), Places(pt.T()));
    }

    lemma UndoFits(t0: PT, f0: set<nat>, t: PT, f: set<nat>, todo: seq<nat>, addrs: seq<nat>, n: nat)
      requires n <= |addrs| && Inv(t0) && f0 !! t0.lvl.Keys && Inv(pt.T()) && pt.pool.free !! pt.lvl.Keys
      requires Shifted(t0, f0, t, f, Ways(pt.top, SetOf(addrs))) && SetOf(todo) <= SetOf(addrs)
      requires Shifted(t, f, pt.T(), pt.pool.free, Ways(pt.top, SetOf(addrs[..n])))
      requires Missing(t0, SetOf(addrs)) <= |f0|
      ensures Lacking(SetOf(todo)) <= |pt.pool.free|
    {
      hide Inv, Ways, Places;
      var all, some := Ways(pt.top, SetOf(addrs)), Ways(pt.top, SetOf(addrs[..n]));
      WaysMore(pt.top, SetOf(addrs[..n]), SetOf(addrs));
      ShiftedTrans(t0, f0, t, f, pt.T(), pt.pool.free, all, some);
      assert all + some == all;
      FitsShifted(t0, f0, pt.T(), pt.pool.free, all, all);
      WaysMore(pt.top, SetOf(todo), SetOf(addrs));
      Smaller(Ways(pt.top, SetOf(todo)) - Places(pt.T()), all - Places(pt.T()));
    }

    /** Unmap the listed pages and map their frames with new flags. */
    method Retable(start: nat, end: nat, todo: seq<nat>, flags: Flags) returns (e: Outcome<()>, ghost w: map<nat,
        VmPage>)
      requires Tables(walk) && PagesOk(pages, pt.Owned(), limit) && Listed(pages, start, end, todo)
      modifies pt, pt.pool
      ensures pt.Owned() <= old(pt.Owned()) && Tables(w)
      ensures e.Ok? ==>
                && (forall va :: va in todo ==> va in walk && pt.c.mappable(walk[va].flags) && va in pages)
                && (forall va :: va in w <==> va in walk)
                && (forall va :: va in w ==> w[va] == if va in todo then VmPage(pages[va].phys, flags) else walk[va])
      ensures (forall va :: va in todo ==> va in walk && pt.c.mappable(walk[va].flags)) ==> e.Ok?
      ensures e.Err? ==> e.error == BlockedByExistingMapping
      ensures e.Err? ==> LeftOver(pt.c, walk, pages, w, start, end, flags)
      ensures e.Err? && Over(pt.c, pages, walk) && pt.c.mappable(flags) ==> w == walk
    {
      hide AddressSpace.Tables, AddrSpace.Owned, PagesOk, TableAddress, Listed, LeftOver, Removed, Ways, Places, Shifted;
      PagesFacts(pages, pt.Owned(), limit);
      ListedIn(pages, start, end, todo);
      ListedOnce(pages, start, end, todo);
      if SetOf(todo) <= walk.Keys { NoneLacking(walk, SetOf(todo)); }
      RemovedAll(pt.c, walk, todo);
      var frames := FramesOf(todo);
      FramesAddress(pages, pt.Owned(), limit, todo, frames);
      e, w := Swap(start, end, todo, todo, frames, flags);
      if e.Ok? { Retabled(pt.c, walk, pages, todo, frames, flags); }
    }

    method AllRecorded(start: nat, end: nat) returns (all: bool)
      requires start % 4096 == 0
      ensures all <==> forall va :: start <= va < end && va % 4096 == 0 ==> va in pages
    {
      var a := start;
      while a < end
        invariant a % 4096 == 0 && start <= a
        invariant forall va :: start <= va < Min(a, end) && va % 4096 == 0 ==> va in pages
        decreases end - a
      {
        if a !in pages { return false; }
        forall va | a <= va < a + 4096 && va % 4096 == 0 ensures va == a { if va != a { SeparatePages(va, a); } }
        a := a + 4096;
      }
      return true;
    }

    /** Allocate `count` frames, or none. */
    method TakeFrames(count: nat, ghost w: map<nat, VmPage>) returns (blank: seq<nat>, ok: bool)
      requires Tables(w)
      modifies pt.pool
      ensures Tables(w) && pt.Owned() <= old(pt.Owned())
      ensures ok ==> |blank| == count && Fresh(blank, old(pt.Owned()), pt.Owned()) && SetOf(blank) <= old(pt.pool.free)
      ensures ok <==> count <= |old(pt.pool.free)|
      ensures ok ==> |pt.pool.free| == |old(pt.pool.free)| - count
      ensures !ok ==> pt.pool.free == old(pt.pool.free)
    {
      hide AddressSpace.Tables, AddrSpace.Owned, TableAddress, Fresh, Drawn;
      blank := [];
      DrawnNone(pt.pool.free, pt.Owned());
      while |blank| < count
        invariant |blank| <= count && Tables(w) && pt.Owned() <= old(pt.Owned())
        invariant Fresh(blank, old(pt.Owned()), pt.Owned()) && Drawn(blank, old(pt.pool.free), pt.pool.free)
      {
        ghost var free, owned := pt.pool.free, pt.Owned();
        var f := TakeFrame(w);
        DrawnFacts(blank, old(pt.pool.free), free);
        if f.NoFrame? {
          FreshLess(blank, old(pt.Owned()), owned, pt.Owned());
          GiveBackAll(blank, w, old(pt.Owned()));
          return blank, false;
        }
        DrawnNext(blank, old(pt.pool.free), free, f.frame, old(pt.Owned()), owned, pt.Owned());
        blank := blank + [f.frame];
      }
      DrawnFacts(blank, old(pt.pool.free), pt.pool.free);
      ok := true;
    }

    method GiveBackAll(frames: seq<nat>, ghost w: map<nat, VmPage>, ghost o: set<nat>)
      requires Tables(w) && pt.Owned() <= o && Fresh(frames, o, pt.Owned())
      modifies pt.pool
      ensures Tables(w) && pt.Owned() <= o && pt.Owned() == old(pt.Owned()) + SetOf(frames)
      ensures pt.pool.free == old(pt.pool.free) + SetOf(frames)
    {
      hide AddressSpace.Tables, AddrSpace.Owned, TableAddress;
      for k := 0 to |frames|
        invariant Tables(w) && pt.Owned() == old(pt.Owned()) + SetOf(frames[..k])
        invariant pt.pool.free == old(pt.pool.free) + SetOf(frames[..k])
      {
        assert frames[k] !in SetOf(frames[..k]);
        GiveBack(frames[k], w);
        assert SetOf(frames[..k + 1]) == SetOf(frames[..k]) + {frames[k]};
      }
      assert frames[..|frames|] == frames;
    }

    /** A range of user pages, and flags for it. */
    predicate PageRange(start: nat, length: nat, flags: Flags) {
      && start % 4096 == 0 && length % 4096 == 0 && 0 < length && start + length <= limit && start + length < U64
      && flags.u
    }

    /** Nothing recorded has to be put back, or there are frames for every table the range needs. */
    ghost predicate Restorable(start: nat, length: nat)
      reads this, pt, pt.pool
    {
      || (forall va :: va in pages ==> !(start <= va < start + length))
      || length / 4096 + Lacking(PagesFrom(start, length / 4096)) <= |pt.pool.free|
    }

    /** Replace a range by fresh zeroed pages.  This works only where nothing stays behind when the range is
        unmapped. */
    method ReplaceZeroed(start: nat, length: nat, flags: Flags) returns (r: Outcome<()>)
      requires Valid()
      modifies this, pt, pt.pool, ram
      ensures Valid() && Reach() <= old(Reach()) && RamKept(old(ram.bytes), ram.bytes, old(Reach()))
      ensures r.Ok? <==>
                && PageRange(start, length, flags) && Replaceable(pt.c, old(pages), old(walk), start, start + length)
                && length / 4096 + old(Lacking(PagesFrom(start, length / 4096))) <= |old(pt.pool.free)|
      ensures r == Err(OutOfMemory) ==>
                length / 4096 + old(Lacking(PagesFrom(start, length / 4096))) > |old(pt.pool.free)|
      ensures r.Err? ==> r.error == OutOfMemory || r.error == BlockedByExistingMapping
      ensures !PageRange(start, length, flags) || |old(pt.pool.free)| < length / 4096 ==> walk == old(walk)
      ensures r.Err? && pt.c.mappable(flags) && old(InStep()) && (pt.pool.free != {} || old(Restorable(start, length))) ==> walk == old(walk)
      ensures r.Ok? ==> Refreshed(pt.c, old(pages), old(walk), pages, walk, start, start + length, flags, old(pt.pool.free), ram.bytes)
      ensures r.Ok? ==> RamKept(old(ram.bytes), ram.bytes, old(pt.pool.free))
      ensures r.Err? ==>
                pages == old(pages) && LeftOver(pt.c, old(walk), old(pages), walk, start, start + length, flags)
      ensures r.Ok? ==> (old(InStep()) ==> InStep()) && (old(pages == walk) ==> pages == walk)
    {
      hide AddressSpace.Tables, AddrSpace.Owned, PagesOk, TableAddress, Fresh, Listed, FramesOk, RamOk, Replaced;
      hide LeftOver, RamKept, Refreshed, Over, FramesIn, Replaceable, PagesFrom, Ways, Places;
      LeftAll(pt.c, walk, pages, start, start + length, flags);
      RamKeptRefl(ram.bytes, Reach());
      pt.OwnsPool();
      if start % 4096 != 0 || length == 0 || length % 4096 != 0 || start + length >= U64 || start + length > limit || !flags.u {
        return Err(BlockedByExistingMapping);
      }
      var blank, ok := TakeFrames(length / 4096, walk);
      PagesLess(pages, old(pt.Owned()), pt.Owned(), limit);
      RamLess(old(pt.Owned()), pt.Owned(), ram.bytes);
      if !ok { return Err(OutOfMemory); }
      PagesFacts(pages, pt.Owned(), limit);
      TablesAligned(walk);
      var todo := Recorded(start, start + length);
      ListedNone(pages, start, start + length, todo);
      RangeIs(start, length, |blank|);
      ghost var mid := pt.Owned();
      ghost var w;
      var e;
      e, w := Refill(start, todo, blank, flags, old(pt.Owned()));
      walk := w;
      PagesLess(pages, old(pt.Owned()), pt.Owned(), limit);
      RamLess(old(pt.Owned()), pt.Owned(), ram.bytes);
      if e.Err? { return e; }
      FreshLess(blank, old(pt.Owned()), mid, pt.Owned());
      ReplaceableAll(pt.c, pages, old(walk), start, start + length);
      Commit(start, todo, blank, flags, old(pt.Owned()));
      RefreshedIs(pt.c, old(pages), old(walk), start, blank, flags, old(pt.pool.free), old(ram.bytes), ram.bytes,
        old(pt.Owned()), old(Reach()));
      r := Ok(());
    }

    /** The tables hold the fresh frames: zero them, free the old ones and record the new pages. */
    method Commit(start: nat, todo: seq<nat>, blank: seq<nat>, flags: Flags, ghost o: set<nat>)
      requires Tables(walk) && PagesOk(pages, o, limit) && pt.Owned() <= o
      requires Fresh(blank, o, pt.Owned()) && Listed(pages, start, start + 4096 * |blank|, todo)
      requires FramesOk(pages, ram.bytes) && RamOk(o, ram.bytes)
      requires start % 4096 == 0 && start + 4096 * |blank| <= limit && flags.u
      modifies this`pages, pt.pool, ram
      ensures Valid() && pages == Replaced(old(pages), start, blank, flags) && Reach() <= o + FramesIn(old(pages))
      ensures ram.bytes.Keys == old(ram.bytes).Keys + SetOf(blank)
      ensures forall f :: f in ram.bytes ==> ram.bytes[f] == if f in blank then Zeros(4096) else old(ram.bytes)[f]
    {
      hide AddressSpace.Tables, AddrSpace.Owned, PagesOk, TableAddress, Fresh, Listed, FramesOk, RamOk, Replaced;
      ListedIn(pages, start, start + 4096 * |blank|, todo);
      ListedOnce(pages, start, start + 4096 * |blank|, todo);
      ghost var mem0 := ram.bytes;
      ZeroAll(blank);
      var olds := FramesOf(todo);
      OldFrames(pages, o, pt.Owned(), limit, todo, olds);
      ReplacedOk(pages, o, pt.Owned(), limit, start, blank, flags, todo, olds);
      ReplacedReach(pages, o, pt.Owned(), start, blank, flags, todo, olds);
      GiveBackAll(olds, walk, o + SetOf(olds));
      ReplacedRam(pages, o, pt.Owned(), mem0, ram.bytes, start, blank, flags, olds, todo);
      InsertAll(start, blank, flags);
    }

    /** Swap the tables of the range over to the fresh frames. */
    method Refill(start: nat, todo: seq<nat>, blank: seq<nat>, flags: Flags, ghost o: set<nat>) returns (e: Outcome<()>,
        ghost w: map<nat, VmPage>)
      requires Tables(walk) && PagesOk(pages, pt.Owned(), limit) && Listed(pages, start, start + 4096 * |blank|, todo)
      requires Fresh(blank, o, pt.Owned()) && start % 4096 == 0 && start + 4096 * |blank| <= limit
      modifies pt, pt.pool
      ensures pt.Owned() <= old(pt.Owned()) && Tables(w)
      ensures e.Ok? ==> w == Replaced(walk, start, blank, flags)
      ensures e.Ok? <==>
                && Replaceable(pt.c, pages, walk, start, start + 4096 * |blank|)
                && old(Lacking(PagesFrom(start, |blank|))) <= |old(pt.pool.free)|
      ensures e == Err(OutOfMemory) ==> old(Lacking(PagesFrom(start, |blank|))) > |old(pt.pool.free)|
      ensures e.Err? ==> e.error == OutOfMemory || e.error == BlockedByExistingMapping
      ensures e.Err? ==> LeftOver(pt.c, walk, pages, w, start, start + 4096 * |blank|, flags)
      ensures todo == [] || pt.pool.free != {} || old(Lacking(PagesFrom(start, |blank|))) <= |old(pt.pool.free)| ==>
                (e.Err? && pt.c.mappable(flags) && Over(pt.c, pages, walk) ==> w == walk)
    {
      hide AddressSpace.Tables, AddrSpace.Owned, PagesOk, TableAddress, Listed, Fresh, Addrs, LeftOver, Removed;
      hide Ways, Places, WithAll, Replaced, Replaceable, PagesFrom;
      PagesFacts(pages, pt.Owned(), limit);
      ListedIn(pages, start, start + 4096 * |blank|, todo);
      ListedOnce(pages, start, start + 4096 * |blank|, todo);
      FreshAddress(blank, o, pt.Owned());
      AddrsOk(start, |blank|, limit);
      AddrsRange(start, |blank|);
      TablesAligned(walk);
      ReplaceableIs(pt.c, pages, walk, start, |blank|, todo);
      var addrs := Addrs(start, |blank|);
      e, w := Swap(start, start + 4096 * |blank|, todo, addrs, blank, flags);
      if e.Ok? { Refilled(pt.c, walk, pages, start, todo, blank, flags); }
    }

    method ZeroAll(frames: seq<nat>)
      modifies ram
      ensures ram.bytes.Keys == old(ram.bytes).Keys + SetOf(frames)
      ensures forall f :: f in ram.bytes ==> ram.bytes[f] == if f in frames then Zeros(4096) else old(ram.bytes)[f]
    {
      for k := 0 to |frames|
        invariant ram.bytes.Keys == old(ram.bytes).Keys + SetOf(frames[..k])
        invariant forall f :: f in ram.bytes ==>
                  ram.bytes[f] == if f in frames[..k] then Zeros(4096) else old(ram.bytes)[f]
      {
        assert frames[..k + 1] == frames[..k] + [frames[k]];
        ram.bytes := ram.bytes[frames[k] := Zeros(4096)];
      }
      assert frames[..|frames|] == frames;
    }

    method InsertAll(start: nat, blank: seq<nat>, flags: Flags)
      modifies this`pages
      ensures pages == Replaced(old(pages), start, blank, flags)
    {
      for k := 0 to |blank|
        invariant pages == WithAll(old(pages), Addrs(start, |blank|), blank, flags, k)
      {
        pages := pages[start + 4096 * k := VmPage(blank[k], flags)];
      }
    }

    // ---- fork ----

    /** Copy every page into a new space, whose root table and pages come from the shared pool. */
    method Fork() returns (r: Outcome<AddressSpace>)
      requires Valid()
      modifies pt.pool, ram
      ensures Valid() && pt.pool.free <= old(pt.pool.free) && RamKept(old(ram.bytes), ram.bytes, old(pt.pool.free))
      ensures r.Ok? ==>
                var child := r.value;
                && fresh(child) && fresh(child.pt) && child.pt.pool == pt.pool && child.ram == ram && child.limit == limit
                && child.Valid() && child.pages == child.walk && child.Held() <= old(pt.pool.free) && child.Held() !! Held()
                && Copied(pages, child.pages, ram.bytes, pages.Keys)
      ensures r.Ok? <==> 1 + |pages| + |Ways(pt.top, pages.Keys) - {(pt.top, 0)}| <= |old(pt.pool.free)|
      ensures r.Err? ==> r.error == OutOfMemory
    {
      hide AddressSpace.Tables, AddrSpace.Owned, PagesOk, TableAddress, FramesOk, RamOk, Listed, Forked, Copied;
      hide RamKept, AddrSpace.Mine, Ways, Places;
      HeldApart();
      PagesFacts(pages, pt.Owned(), limit);
      PoolFacts();
      pt.OwnsPool();
      RamKeptRefl(ram.bytes, pt.pool.free);
      ghost var o := pt.pool.free;
      RamLess(pt.Owned(), o, ram.bytes);
      ForkStart(pages, pt.Owned(), ram.bytes, o, limit);
      var f := TakeFrame(walk);
      LessValid(o);
      if f.NoFrame? { return Err(OutOfMemory); }
      var child := Empty(f.frame);
      var e := ForkPages(child, old(ram.bytes), o);
      ForkEnd(pages, child.pages, old(pt.Owned()), old(ram.bytes), ram.bytes, o, child.pages.Keys);
      LessValid(o);
      if e.Err? { return Err(e.error); }
      child.HeldReach();
      r := Ok(child);
    }

    /** Copy the pages one by one; `child` has none yet. */
    method ForkPages(child: AddressSpace, ghost ram0: map<nat, seq<Byte>>, ghost o: set<nat>) returns (e: Outcome<()>)
      requires child.Valid() && child.pages == child.walk == map[] && child != this && child.ram == ram
      requires child.Reach() <= o && child.pt.pool.free <= o && child.limit == limit && child.pt.lvl.Keys == {child.pt.root}
      requires Forked(pages, child.pages, ram0, ram.bytes, o, {}) && FramesOk(pages, ram0) && RamOk(o, ram0)
      requires forall va :: va in pages ==> va % 4096 == 0 && va < limit && pages[va].flags.u
      modifies child, child.pt, child.pt.pool, ram
      ensures child.Valid() && child.pages == child.walk && child.Reach() <= o && child.pt.pool.free <= o
      ensures Forked(pages, child.pages, ram0, ram.bytes, o, child.pages.Keys)
      ensures e.Ok? ==> child.pages.Keys == pages.Keys
      ensures e.Ok? <==> |pages| + old(child.Lacking(pages.Keys)) <= |old(child.pt.pool.free)|
      ensures e.Err? ==> e.error == OutOfMemory
    {
      hide AddressSpace.Tables, AddrSpace.Owned, PagesOk, TableAddress, FramesOk, RamOk, Listed, Forked, Copied;
      hide RamKept, AddrSpace.Mine, Spent, Ways, Places, Missing, Reaches, FramesIn;
      var todo := Recorded(0, limit);
      ListedIn(pages, 0, limit, todo);
      ListedOnce(pages, 0, limit, todo);
      ListedAll(pages, limit, todo);
      OnceCount(todo);
      assert SetOf(todo[..0]) == {};
      ghost var t0, f0, spent: set<nat> := child.pt.T(), child.pt.pool.free, {};
      child.TablesInv(map[]);
      SpentNone(t0, f0, todo);
      for k := 0 to |todo|
        invariant child.Valid() && child.pages == child.walk && child.Reach() <= o && child.pt.pool.free <= o
        invariant Forked(pages, child.pages, ram0, ram.bytes, o, SetOf(todo[..k]))
        invariant Spent(t0, f0, child.pt.T(), child.pt.pool.free, todo, k, spent)
      {
        assert SetOf(todo[..k + 1]) == SetOf(todo[..k]) + {todo[k]};
        assert todo[k] !in SetOf(todo[..k]);
        ghost var t, f := child.pt.T(), child.pt.pool.free;
        child.TablesInv(child.walk);
        var v := ForkPage(child, todo[k], ram0, o, SetOf(todo[..k]));
        if v.Err? {
          SpentFails(t0, f0, t, f, todo, k, spent);
          ForkKeys(pages, child.pages, ram0, ram.bytes, o, SetOf(todo[..k]));
          return Err(v.error);
        }
        CodecOf(t);
        SpentNext(t0, f0, t, f, child.pt.T(), child.pt.pool.free, todo, k, spent, v.value);
        spent := spent + {v.value};
      }
      assert todo[..|todo|] == todo;
      child.TablesInv(child.walk);
      SpentFits(t0, f0, child.pt.T(), child.pt.pool.free, todo, spent);
      ForkKeys(pages, child.pages, ram0, ram.bytes, o, SetOf(todo));
      e := Ok(());
    }

    /** A space over a new root table in the given frame. */
    method Empty(root: nat) returns (child: AddressSpace)
      requires Valid() && TableAddress(root) && root !in pt.pool.free && root in ram.bytes && |ram.bytes[root]| == 4096
      ensures fresh(child) && fresh(child.pt) && child.pt.pool == pt.pool && child.ram == ram && child.limit == limit
      ensures child.pt.c == pt.c
      ensures child.Valid() && child.pages == child.walk == map[] && child.Reach() == {root} + pt.pool.free
      ensures child.pt.root == root && child.pt.lvl.Keys == {root} && child.pt.top == pt.top
      ensures Places(child.pt.T()) == {(pt.top, 0)}
    {
      hide Inv, MetaOk, Translate, Places, Span;
      CodecOf(pt.T());
      pt.OwnsPool();
      var table := new AddrSpace(pt.c, pt.top + 1, root, pt.pool);
      RootPlace(table.T());
      child := new AddressSpace(table, ram, limit);
    }

    method ForkPage(child: AddressSpace, va: nat, ghost ram0: map<nat, seq<Byte>>, ghost o: set<nat>,
        ghost done: set<nat>) returns (r: Outcome<nat>)
      requires child.Valid() && child.pages == child.walk && child != this && child.ram == ram && child.Reach() <= o
      requires va in pages && va !in done && Forked(pages, child.pages, ram0, ram.bytes, o, done)
      requires va % 4096 == 0 && va < child.limit && pages[va].flags.u
      requires FramesOk(pages, ram0) && RamOk(o, ram0)
      modifies child, child.pt, child.pt.pool, ram
      ensures r.Err? ==> r.error == OutOfMemory && 1 + old(child.Lacking({va})) > |old(child.pt.pool.free)|
      ensures r.Ok? ==>
                && r.value in old(child.pt.pool.free)
                && Reaches(old(child.pt.T()), old(child.pt.pool.free) - {r.value}, child.pt.T(), child.pt.pool.free, va)
      ensures child.Valid() && child.pages == child.walk && child.Reach() <= o && child.pt.pool.free <= o
      ensures Forked(pages, child.pages, ram0, ram.bytes, o, if r.Ok? then done + {va} else done)
    {
      hide AddressSpace.Tables, AddrSpace.Owned, PagesOk, TableAddress, FramesOk, RamOk, Forked, RamKept, FramesIn;
      hide Reaches, Missing;
      ForkNext(pages, child.pages, ram0, ram.bytes, o, done, va);
      var page := pages[va];
      PagesFacts(child.pages, child.pt.Owned(), child.limit);
      child.pt.OwnsPool();
      var m := child.MapZeroed(va, page.flags);
      child.pt.OwnsPool();
      if m.Err? { return Err(m.error); }
      ForkCopy(pages, old(child.pages), child.pages, ram0, old(ram.bytes), ram.bytes, o, done, va, m.value);
      CopyOk(child.pages, child.pt.Owned(), ram.bytes, m.value, ram.bytes[page.phys]);
      ram.bytes := ram.bytes[m.value := ram.bytes[page.phys]];
      r := Ok(m.value);
    }

    lemma HeldReach()
      ensures Held() <= Reach() && pt.pool.free <= Reach() && Reach() == Held() + pt.pool.free
    {
    }

    /** None of the frames of a space is free. */
    lemma HeldApart()
      requires Valid()
      ensures Held() !! pt.pool.free
    {
      hide Inv, MetaOk, Agree, Noted, TableAddress;
      forall f | f in pt.pool.free ensures f !in pt.Mine() { pt.FrameApart(f); }
    }

    /** Nothing of this space changed, and the pool and memory changed outside its frames. */
    twostate lemma KeptValid()
      requires old(Valid()) && unchanged(this) && unchanged(pt) && pt.Mine() !! pt.pool.free
      requires FramesIn(pages) !! pt.pool.free
      requires (forall f :: f in pt.pool.free ==> TableAddress(f) && f in ram.bytes && |ram.bytes[f]| == 4096)
      requires forall f :: f in Held() && f in old(ram.bytes) ==>
                f in ram.bytes && |ram.bytes[f]| == old(|ram.bytes[f]|)
      ensures Valid()
    {
    }

    lemma PoolFacts()
      requires Valid()
      ensures forall f :: f in pt.pool.free ==> TableAddress(f) && f in ram.bytes && |ram.bytes[f]| == 4096
    {
      hide Inv, MetaOk, Agree, Noted, TableAddress;
    }

    /** Others took frames from the pool and wrote to some. */
    twostate lemma LessValid(o: set<nat>)
      requires old(Valid()) && unchanged(this) && unchanged(pt) && pt.pool.free <= old(pt.pool.free)
      requires RamKept(old(ram.bytes), ram.bytes, o)
      ensures Valid()
    {
      hide Inv, MetaOk, Agree, Noted, TableAddress;
      KeptValid();
    }

    // ---- access from the kernel ----

    /** The physical address of a user address, or none.  While the record agrees with the tables this is what
        their walk finds. */
    /** The byte seen at an address is the one at the physical address that the walk of the tables leads to. */
    lemma SeenIsTranslated(a: nat)
      requires Valid() && InStep() && PageBase(a) in pages
      ensures ByteAt(FlatAt(pt.T(), a), ram.bytes, View(pages, ram.bytes, a))
    {
      hide Inv, MetaOk, PoolOk, LocksOk, Noted, Translate;
      UserWalk(pt.T(), walk, limit, a);
      var q := pages[PageBase(a)].phys;
      assert TableAddress(q);
      ModUnique(q + a % 4096, 4096, q / 4096, a % 4096);
    }

    method TranslateUser(vaddr: nat) returns (r: Frame)
      requires Valid()
      ensures r.Got? <==> PageBase(vaddr) in pages
      ensures InStep() && r.Got? ==> FlatAt(pt.T(), vaddr) == Page(r.frame, pt.c.norm(pages[PageBase(vaddr)].flags))
      ensures pages == walk && vaddr < limit ==> (r.NoFrame? <==> FlatAt(pt.T(), vaddr) == NoPage)
    {
      hide Inv, MetaOk, PoolOk, LocksOk, Noted, Translate;
      var page := vaddr - vaddr % 4096;
      UserWalk(pt.T(), walk, limit, vaddr);
      if page !in pages { return NoFrame; }
      r := Got(pages[page].phys + vaddr % 4096);
    }

    /** Whether every byte of the range is a user byte, writable if asked for. */
    method ValidateRange(address: nat, length: nat, write: bool) returns (ok: bool)
      requires limit < U64
      ensures ok <==> RangeOk(pages, limit, address, length, write)
    {
      if length == 0 { return address < limit; }
      if address + length >= U64 { return false; }
      var end := address + length;
      if address >= limit || end > limit { return false; }
      var page, last := PageBase(address), PageBase(end - 1);
      BaseSpan(address, end);
      while page != last
        invariant page % 4096 == 0 && PageBase(address) <= page <= last
        invariant forall q :: PageBase(address) <= q < page && q % 4096 == 0 ==> PageAllows(pages, q, write)
        decreases last - page
      {
        if page !in pages || (write && !pages[page].flags.w) {
          BaseBad(pages, address, end, page, write);
          return false;
        }
        forall q | page <= q < page + 4096 && q % 4096 == 0 ensures q == page { if q != page { SeparatePages(q, page); } }
        NextPage(page, last);
        page := page + 4096;
      }
      if page !in pages || (write && !pages[page].flags.w) {
        BaseBad(pages, address, end, page, write);
        return false;
      }
      forall a | address <= a < end ensures PageAllows(pages, PageBase(a), write) {
        BaseBetween(address, end, a);
        if PageBase(a) != last { SeparatePages(PageBase(a), last); }
      }
      return true;
    }

    /** `populate` and `write`: store the bytes at `vaddr`, page by page; `write` asks for writable pages. */
    method Store(vaddr: nat, bytes: seq<Byte>, write: bool) returns (r: Outcome<()>)
      requires Valid() && limit < U64
      modifies ram
      ensures Valid() && (r.Ok? <==> RangeOk(pages, limit, vaddr, |bytes|, write))
      ensures ByteStore(pages, old(ram.bytes), ram.bytes, vaddr, bytes, if r.Ok? then |bytes| else 0)
      ensures RamKept(old(ram.bytes), ram.bytes, FramesIn(pages))
    {
      hide Agree, AddrSpace.Valid, AddrSpace.Owned, PagesOk, TableAddress, RamOk, FramesOk, ByteStore, RamKept;
      hide FramesIn;
      StoreNone(pages, ram.bytes, vaddr, bytes);
      RamKeptRefl(ram.bytes, FramesIn(pages));
      var ok := ValidateRange(vaddr, |bytes|, write);
      if !ok { return Err(BlockedByExistingMapping); }
      var written := 0;
      while written < |bytes|
        invariant written <= |bytes| && ByteStore(pages, old(ram.bytes), ram.bytes, vaddr, bytes, written)
        invariant FramesOk(pages, ram.bytes) && RamOk(pt.Owned(), ram.bytes)
      {
        var address := vaddr + written;
        var p := pages[PageBase(address)].phys;
        var chunk := Min(4096 - address % 4096, |bytes| - written);
        StoreChunk(pages, pt.Owned(), limit, old(ram.bytes), ram.bytes, vaddr, bytes, written, chunk);
        var frame := Patch(ram.bytes[p], address % 4096, bytes[written..written + chunk]);
        ram.bytes := ram.bytes[p := frame];
        written := written + chunk;
      }
      StoreKept(pages, old(ram.bytes), ram.bytes, vaddr, bytes, |bytes|);
      r := Ok(());
    }
  }

  lemma MapReady(t: PT, walk: map<nat, VmPage>, limit: nat, va: nat, phys: nat)
    requires Inv(t) && Agree(t, walk, limit) && va % 4096 == 0 && va < limit && limit % 4096 == 0 && TableAddress(phys)
    ensures va + Span(0) <= Span(t.top + 1) && SplitReady(t, t.root, t.top, va, 0) && phys + Span(0) <= PHYS_LIMIT
    ensures va % Span(0) == 0 && phys % Span(0) == 0 && t.c.held(phys, 0) == phys
    ensures (FlatAt(t, va).Page? <==> va in walk)
  {
    CodecOf(t);
    assert HeldOk(t.c, phys, 0);
    hide Inv, Look, CodecOk;
    assert Translate(t, va) == Look(t, t.root, t.top, va);
    NextPage(va, limit);
    NextPage(phys, PHYS_LIMIT);
  }

  lemma NextPage(a: nat, b: nat)
    requires a < b && a % 4096 == 0 && b % 4096 == 0
    ensures a + 4096 <= b
  {
  }

  lemma AgreeMapped(t: PT, t1: PT, walk: map<nat, VmPage>, limit: nat, va: nat, phys: nat, flags: Flags)
    requires Agree(t, walk, limit) && Remapped(t, t1, va, 0, phys, t.c.norm(flags)) && t1.c == t.c && va % 4096 == 0
    requires va < limit
    ensures Agree(t1, walk[va := VmPage(phys, flags)], limit)
  {
    hide Translate;
    forall a: nat | a < limit && a % 4096 == 0
      ensures Translate(t1, a) == if a == va then Mapped(phys, t.c.norm(flags), 0) else Translate(t, a)
    {
      if a != va { SeparatePages(a, va); }
    }
  }

  lemma SeparatePages(a: nat, b: nat)
    requires a % 4096 == 0 && b % 4096 == 0 && a != b
    ensures !(b <= a < b + 4096)
  {
  }

  lemma AgreeSame(t: PT, t1: PT, walk: map<nat, VmPage>, limit: nat, va: nat)
    requires Agree(t, walk, limit) && SameView(t, t1) && t1.c == t.c && va < limit && va % 4096 == 0
    ensures Agree(t1, walk, limit) && (FlatAt(t, va).Page? ==> va in walk)
  {
    hide Translate;
    forall a: nat | a < limit && a % 4096 == 0 ensures Translate(t1, a) == Translate(t, a) {
      assert Finer(Translate(t1, a), Translate(t, a));
    }
  }

  lemma PagesLess(pages: map<nat, VmPage>, owned: set<nat>, owned1: set<nat>, limit: nat)
    requires PagesOk(pages, owned, limit) && owned1 <= owned
    ensures PagesOk(pages, owned1, limit)
  {
  }

  lemma OverAdd(c: Codec, pages: map<nat, VmPage>, walk: map<nat, VmPage>, va: nat, page: VmPage)
    ensures Over(c, pages, walk) ==> Over(c, pages[va := page], walk[va := page])
    ensures FramesIn(pages[va := page]) <= FramesIn(pages) + {page.phys}
  {
  }

  lemma PagesAdd(pages: map<nat, VmPage>, owned: set<nat>, owned1: set<nat>, limit: nat, va: nat, f: nat, flags: Flags)
    requires PagesOk(pages, owned, limit) && owned1 <= owned && f in owned && f !in owned1 && TableAddress(f)
    requires va % 4096 == 0 && va < limit && flags.u && va !in pages
    ensures PagesOk(pages[va := VmPage(f, flags)], owned1, limit)
  {
  }

  lemma UnmapReady(t: PT, walk: map<nat, VmPage>, limit: nat, va: nat)
    requires Inv(t) && Agree(t, walk, limit) && va % 4096 == 0 && va < limit && limit % 4096 == 0
    ensures va + 4096 <= Span(t.top + 1) && (va + 4096) % 4096 == 0 && (FlatAt(t, va).Page? <==> va in walk)
  {
    hide Inv, Look;
    assert Translate(t, va) == if va in walk then Mapped(walk[va].phys, t.c.norm(walk[va].flags), 0) else Unmapped;
    NextPage(va, limit);
  }

  lemma AgreeUnmapped(t: PT, t1: PT, walk: map<nat, VmPage>, limit: nat, va: nat)
    requires Inv(t) && Agree(t, walk, limit) && Cut(t, t1, va, va + 4096) && t1.c == t.c && va % 4096 == 0 && va < limit
    ensures Agree(t1, Removed(t.c, walk, {va}), limit)
  {
    NormSeen(t);
    hide Translate, Inv;
    var w := Removed(t.c, walk, {va});
    forall a: nat | a < limit && a % 4096 == 0
      ensures Translate(t1, a) == if a in w then Mapped(w[a].phys, t.c.norm(w[a].flags), 0) else Unmapped
    {
      GonePage(t, walk, limit, va, a);
    }
  }

  lemma NormSeen(t: PT)
    requires Inv(t)
    ensures forall f :: t.c.mappable(t.c.norm(f)) <==> t.c.mappable(f)
  {
    CodecOf(t);
    forall f ensures t.c.mappable(t.c.norm(f)) <==> t.c.mappable(f) { assert NormOk(t.c, f); }
  }

  /** Unmapping the page at `va` removes exactly that page, if it is recognised. */
  lemma GonePage(t: PT, walk: map<nat, VmPage>, limit: nat, va: nat, a: nat)
    requires Inv(t) && Agree(t, walk, limit) && va % 4096 == 0 && a % 4096 == 0 && a < limit
    ensures Gone(t, a, va, va + 4096) <==> a == va && va in walk && t.c.mappable(walk[va].flags)
  {
    NormSeen(t);
    hide Translate, Inv;
    if a != va { SeparatePages(a, va); SeparatePages(va, a); }
  }

  lemma NotedAt(t: PT, meta: map<nat, seq<Status>>, walk: map<nat, VmPage>, va: nat)
    requires Noted(t, meta, walk)
    ensures va in walk ==> Explicit(t, meta, va)
  {
    hide Explicit;
  }

  lemma NotedMapped(t: PT, meta: map<nat, seq<Status>>, t1: PT, meta1: map<nat, seq<Status>>, walk: map<nat, VmPage>,
      va: nat, page: VmPage)
    requires Noted(t, meta, walk) && Stay(t, meta, t1, meta1)
    ensures Noted(t1, meta1, walk) && (Explicit(t1, meta1, va) ==> Noted(t1, meta1, walk[va := page]))
  {
    hide Explicit;
  }

  lemma NotedUnmapped(t: PT, meta: map<nat, seq<Status>>, t1: PT, meta1: map<nat, seq<Status>>, walk: map<nat, VmPage>,
      limit: nat, va: nat)
    requires Inv(t) && Agree(t, walk, limit) && va % 4096 == 0 && Noted(t, meta, walk)
    requires StayTo(t, meta, t1, meta1, va, va + 4096)
    ensures Noted(t1, meta1, Removed(t.c, walk, {va}))
  {
    hide Explicit, Translate, Inv, Gone;
    forall a | a in Removed(t.c, walk, {va}) ensures Explicit(t1, meta1, a) { GonePage(t, walk, limit, va, a); }
  }

  lemma ShrunkFree(t0: PT, f0: set<nat>, t: PT, f: set<nat>, b: nat, upto: nat)
    requires Shrunk(t0, f0, t, f, b, upto)
    ensures f == f0 + (t0.lvl.Keys - t.lvl.Keys) && t.lvl.Keys <= t0.lvl.Keys
  {
  }

  lemma RamKeptRefl(ram: map<nat, seq<Byte>>, o: set<nat>)
    ensures RamKept(ram, ram, o)
  {
  }

  lemma RamZero(pages: map<nat, VmPage>, owned: set<nat>, owned1: set<nat>, ram: map<nat, seq<Byte>>, va: nat, f: nat,
      flags: Flags)
    requires FramesOk(pages, ram) && RamOk(owned, ram) && owned1 <= owned && f in owned
    ensures var ram1 := ram[f := Zeros(4096)];
      FramesOk(pages[va := VmPage(f, flags)], ram1) && RamOk(owned1, ram1) && forall o :: f in o ==> RamKept(ram, ram1, o)
  {
  }

  function SetOf(s: seq<nat>): set<nat> { set x | x in s }

  /** The pages inside `[start, end)`. */
  function Inside(pages: map<nat, VmPage>, start: nat, end: nat): map<nat, VmPage> {
    map va | va in pages && start <= va < end :: pages[va]
  }

  /** The pages outside `[start, end)`. */
  function Outside(pages: map<nat, VmPage>, start: nat, end: nat): map<nat, VmPage> {
    map va | va in pages && !(start <= va < end) :: pages[va]
  }

  /** Exactly the recorded pages of `[start, end)`, each once. */
  ghost predicate Listed(pages: map<nat, VmPage>, start: nat, end: nat, todo: seq<nat>) {
    && (forall va :: va in todo <==> va in pages && start <= va < end)
    && (forall j, k :: 0 <= j < k < |todo| ==> todo[j] != todo[k])
  }

  lemma ListedIn(pages: map<nat, VmPage>, start: nat, end: nat, todo: seq<nat>)
    requires Listed(pages, start, end, todo)
    ensures forall k :: 0 <= k < |todo| ==> todo[k] in pages && start <= todo[k] < end
  {
    forall k | 0 <= k < |todo| ensures todo[k] in pages && start <= todo[k] < end { assert todo[k] in todo; }
  }

  ghost predicate SubMap(w: map<nat, VmPage>, pages: map<nat,
      VmPage>) { forall va :: va in w ==> va in pages && w[va] == pages[va] }

  /** `walk` with the first `n` pages mapped to their frames. */
  ghost function WithAll(walk: map<nat, VmPage>, todo: seq<nat>, frames: seq<nat>, flags: Flags,
      n: nat): map<nat, VmPage>
    requires n <= |todo| == |frames|
  {
    if n == 0 then walk else WithAll(walk, todo, frames, flags, n - 1)[todo[n - 1] := VmPage(frames[n - 1], flags)]
  }

  lemma PagesFacts(pages: map<nat, VmPage>, owned: set<nat>, limit: nat)
    requires PagesOk(pages, owned, limit)
    ensures forall va :: va in pages ==> va % 4096 == 0 && va < limit && pages[va].phys !in owned && pages[va].flags.u
  {
  }

  lemma TodoNext(pages: map<nat, VmPage>, todo: seq<nat>, k: nat)
    requires k < |todo| && (forall i, j :: 0 <= i < j < |todo| ==> todo[i] != todo[j])
    requires (forall i :: 0 <= i < |todo| ==> todo[i] in pages)
    ensures todo[k] in pages && todo[k] !in SetOf(todo[..k])
  {
  }

  lemma PagesDrop(pages: map<nat, VmPage>, owned: set<nat>, limit: nat, va: nat)
    requires PagesOk(pages, owned, limit) && va in pages
    ensures TableAddress(pages[va].phys) && pages[va].phys !in owned
    ensures PagesOk(pages - {va}, owned + {pages[va].phys}, limit)
  {
  }

  lemma SubRefl(pages: map<nat, VmPage>)
    ensures SubMap(pages, pages)
  {
  }

  /** The pages of `[start, end)` with new flags. */
  function Reflagged(pages: map<nat, VmPage>, start: nat, end: nat, flags: Flags): map<nat, VmPage> {
    map va | va in pages :: if start <= va < end then VmPage(pages[va].phys, flags) else pages[va]
  }

  lemma FramesAddress(pages: map<nat, VmPage>, owned: set<nat>, limit: nat, todo: seq<nat>, frames: seq<nat>)
    requires PagesOk(pages, owned, limit) && |frames| == |todo|
    requires forall k :: 0 <= k < |todo| ==> todo[k] in pages && frames[k] == pages[todo[k]].phys
    ensures forall k :: 0 <= k < |todo| ==> TableAddress(frames[k])
  {
  }

  lemma {:induction false} WithAllAt(walk: map<nat, VmPage>, todo: seq<nat>, frames: seq<nat>, flags: Flags, n: nat,
      va: nat)
    requires n <= |todo| == |frames| && forall i, j :: 0 <= i < j < |todo| ==> todo[i] != todo[j]
    ensures var w := WithAll(walk, todo, frames, flags, n);
      && (va in w <==> va in walk || va in todo[..n])
      && (va in w && va !in todo[..n] ==> w[va] == walk[va])
      && (forall k :: 0 <= k < n && todo[k] == va ==> va in w && w[va] == VmPage(frames[k], flags))
  {
    if n > 0 {
      WithAllAt(walk, todo, frames, flags, n - 1, va);
      assert todo[..n] == todo[..n - 1] + [todo[n - 1]];
    }
  }

  lemma RemovedNext(c: Codec, w: map<nat, VmPage>, todo: seq<nat>, k: nat)
    requires k < |todo|
    ensures Removed(c, Removed(c, w, SetOf(todo[..k])), {todo[k]}) == Removed(c, w, SetOf(todo[..k + 1]))
    ensures (forall j :: 0 <= j < k ==> todo[j] != todo[k]) ==>
              (todo[k] in Removed(c, w, SetOf(todo[..k])) <==> todo[k] in w)
  {
    assert todo[..k + 1] == todo[..k] + [todo[k]];
  }

  lemma RemovedSub(c: Codec, w: map<nat, VmPage>, gone: set<nat>)
    ensures SubMap(Removed(c, w, gone), w)
  {
  }

  /** The first `n` pages have all their tables, and no other table changed. */
  ghost predicate Filled(t0: PT, f0: set<nat>, t: PT, f: set<nat>, todo: seq<nat>, n: nat) {
    && n <= |todo| && Shifted(t0, f0, t, f, Ways(t0.top, SetOf(todo[..n])))
    && Ways(t0.top, SetOf(todo[..n])) <= Places(t)
  }

  lemma FilledNone(t: PT, f: set<nat>, todo: seq<nat>)
    ensures Filled(t, f, t, f, todo, 0)
  {
    assert SetOf(todo[..0]) == {};
    WaysAll(t.top, {}, {});
  }

  lemma FilledNext(t0: PT, f0: set<nat>, t: PT, f: set<nat>, t1: PT, f1: set<nat>, todo: seq<nat>, n: nat)
    requires n < |todo| && Filled(t0, f0, t, f, todo, n) && Reaches(t, f, t1, f1, todo[n])
    ensures Filled(t0, f0, t1, f1, todo, n + 1)
  {
    hide Ways, Places;
    assert SetOf(todo[..n + 1]) == SetOf(todo[..n]) + {todo[n]};
    WaysAll(t0.top, SetOf(todo[..n]), {todo[n]});
    ShiftedTrans(t0, f0, t, f, t1, f1, Ways(t0.top, SetOf(todo[..n])), Ways(t0.top, {todo[n]}));
  }

  /** The first `n` pages have all their tables; these and the frames `spent` come from `f0`. */
  ghost predicate Spent(t0: PT, f0: set<nat>, t: PT, f: set<nat>, todo: seq<nat>, n: nat, spent: set<nat>) {
    spent <= f0 && |spent| == n && spent !! f && Filled(t0, f0 - spent, t, f, todo, n)
  }

  lemma SpentNone(t: PT, f: set<nat>, todo: seq<nat>)
    ensures Spent(t, f, t, f, todo, 0, {})
  {
    FilledNone(t, f, todo);
    assert f - {} == f;
  }

  lemma SpentNext(t0: PT, f0: set<nat>, t: PT, f: set<nat>, t1: PT, f1: set<nat>, todo: seq<nat>, n: nat,
      spent: set<nat>, v: nat)
    requires n < |todo| && Spent(t0, f0, t, f, todo, n, spent) && v in f && f !! t.lvl.Keys && f0 !! t0.lvl.Keys
    requires t0.lvl.Keys <= t.lvl.Keys
    requires Reaches(t, f - {v}, t1, f1, todo[n])
    ensures Spent(t0, f0, t1, f1, todo, n + 1, spent + {v})
  {
    hide Ways, Places;
    assert v in f + t.lvl.Keys && v in f0 - spent;
    assert f - {v} + t.lvl.Keys == f0 - (spent + {v}) + t0.lvl.Keys;
    assert Filled(t0, f0 - (spent + {v}), t, f - {v}, todo, n);
    FilledNext(t0, f0 - (spent + {v}), t, f - {v}, t1, f1, todo, n);
    assert f1 <= f - {v} + t.lvl.Keys;
  }

  lemma SpentFails(t0: PT, f0: set<nat>, t: PT, f: set<nat>, todo: seq<nat>, n: nat, spent: set<nat>)
    requires Inv(t0) && Inv(t) && f0 !! t0.lvl.Keys && f !! t.lvl.Keys
    requires n < |todo| && Spent(t0, f0, t, f, todo, n, spent) && 1 + Missing(t, {todo[n]}) > |f|
    ensures |todo| + Missing(t0, SetOf(todo)) > |f0|
  {
    hide Inv, Ways, Places;
    var all, done, way := Ways(t0.top, SetOf(todo)), Ways(t0.top, SetOf(todo[..n])), Ways(t0.top, {todo[n]});
    WaysMore(t0.top, SetOf(todo[..n]), SetOf(todo));
    WaysMore(t0.top, {todo[n]}, SetOf(todo));
    FitsShifted(t0, f0 - spent, t, f, done, all);
    Smaller(way - Places(t), all - Places(t));
    SizeLess(f0, spent);
  }

  lemma SpentFits(t0: PT, f0: set<nat>, t: PT, f: set<nat>, todo: seq<nat>, spent: set<nat>)
    requires Inv(t0) && Inv(t) && f0 !! t0.lvl.Keys && f !! t.lvl.Keys && Spent(t0, f0, t, f, todo, |todo|, spent)
    ensures |todo| + Missing(t0, SetOf(todo)) <= |f0|
  {
    hide Inv, Missing, Filled;
    FilledFits(t0, f0 - spent, t, f, todo);
    SizeLess(f0, spent);
  }

  lemma SizeLess(a: set<nat>, b: set<nat>)
    requires b <= a
    ensures |a - b| == |a| - |b|
  {
  }

  lemma {:induction false} OnceCount(todo: seq<nat>)
    requires forall i, j :: 0 <= i < j < |todo| ==> todo[i] != todo[j]
    ensures |SetOf(todo)| == |todo|
  {
    if |todo| > 0 {
      var n := |todo| - 1;
      OnceCount(todo[..n]);
      assert SetOf(todo) == SetOf(todo[..n]) + {todo[n]};
      assert todo[n] !in todo[..n];
    }
  }

  lemma FilledPart(t0: PT, f0: set<nat>, t: PT, f: set<nat>, t1: PT, f1: set<nat>, todo: seq<nat>, n: nat)
    requires n < |todo| && Filled(t0, f0, t, f, todo, n) && Walked(t, f, t1, f1, todo[n])
    ensures Shifted(t0, f0, t1, f1, Ways(t0.top, SetOf(todo)))
  {
    hide Ways, Places;
    WaysMore(t0.top, SetOf(todo[..n]), SetOf(todo));
    ShiftedMore(t0, f0, t, f, Ways(t0.top, SetOf(todo[..n])), Ways(t0.top, SetOf(todo)));
    ShiftedOne(t0, f0, t, f, t1, f1, todo[n], SetOf(todo));
  }

  lemma FilledFails(t0: PT, f0: set<nat>, t: PT, f: set<nat>, todo: seq<nat>, n: nat)
    requires Inv(t0) && Inv(t) && f0 !! t0.lvl.Keys && f !! t.lvl.Keys
    requires n < |todo| && Filled(t0, f0, t, f, todo, n) && Missing(t, {todo[n]}) > |f|
    ensures Missing(t0, SetOf(todo)) > |f0|
  {
    hide Inv, Ways, Places;
    assert SetOf(todo[..n]) <= SetOf(todo) && {todo[n]} <= SetOf(todo);
    WaysMore(t0.top, SetOf(todo[..n]), SetOf(todo));
    WaysMore(t0.top, {todo[n]}, SetOf(todo));
    TooFew(t0, f0, t, f, Ways(t0.top, SetOf(todo[..n])), Ways(t0.top, {todo[n]}), Ways(t0.top, SetOf(todo)));
  }

  lemma FilledFits(t0: PT, f0: set<nat>, t: PT, f: set<nat>, todo: seq<nat>)
    requires Inv(t0) && Inv(t) && f0 !! t0.lvl.Keys && f !! t.lvl.Keys && Filled(t0, f0, t, f, todo, |todo|)
    ensures Missing(t0, SetOf(todo)) <= |f0| && Shifted(t0, f0, t, f, Ways(t0.top, SetOf(todo)))
  {
    hide Inv, Ways, Places;
    assert todo[..|todo|] == todo;
    Enough(t0, f0, t, f, Ways(t0.top, SetOf(todo)));
  }

  lemma ShiftedOne(t0: PT, f0: set<nat>, t: PT, f: set<nat>, t1: PT, f1: set<nat>, va: nat, all: set<nat>)
    requires Shifted(t0, f0, t, f, Ways(t0.top, all)) && Shifted(t, f, t1, f1, Ways(t0.top, {va})) && va in all
    ensures Shifted(t0, f0, t1, f1, Ways(t0.top, all))
  {
    hide Ways, Places;
    WaysMore(t0.top, {va}, all);
    ShiftedTrans(t0, f0, t, f, t1, f1, Ways(t0.top, all), Ways(t0.top, {va}));
    assert Ways(t0.top, all) + Ways(t0.top, {va}) == Ways(t0.top, all);
  }

  lemma WithAllKeys(w: map<nat, VmPage>, todo: seq<nat>, frames: seq<nat>, flags: Flags, n: nat)
    requires n <= |todo| == |frames|
    ensures forall va :: va in WithAll(w, todo, frames, flags, n) <==> va in w || va in todo[..n]
  {
    if n > 0 { WithAllKeys(w, todo, frames, flags, n - 1); }
  }

  lemma WithAllNone(w: map<nat, VmPage>, todo: seq<nat>, frames: seq<nat>, flags: Flags)
    requires |todo| == |frames|
    ensures WithAll(w, todo, frames, flags, 0) == w
  {
  }

  lemma WithAllNext(w: map<nat, VmPage>, todo: seq<nat>, frames: seq<nat>, flags: Flags, n: nat)
    requires n < |todo| == |frames| && forall i, j :: 0 <= i < j < |todo| ==> todo[i] != todo[j]
    ensures WithAll(w, todo, frames, flags, n + 1) ==
            WithAll(w, todo, frames, flags, n)[todo[n] := VmPage(frames[n], flags)]
    ensures todo[n] in WithAll(w, todo, frames, flags, n) <==> todo[n] in w
  {
    WithAllKeys(w, todo, frames, flags, n);
  }

  lemma WithAllKeeps(w: map<nat, VmPage>, todo: seq<nat>, frames: seq<nat>, flags: Flags, n: nat)
    requires n <= |todo| == |frames|
    ensures w.Keys <= WithAll(w, todo, frames, flags, n).Keys
  {
    if n > 0 { WithAllKeeps(w, todo, frames, flags, n - 1); }
  }

  lemma ListedIs(pages: map<nat, VmPage>, start: nat, end: nat, todo: seq<nat>, walk: map<nat, VmPage>)
    requires Listed(pages, start, end, todo)
    ensures SetOf(todo) == Inside(pages, start, end).Keys
    ensures (forall k :: 0 <= k < |todo| ==> todo[k] in walk) <==>
              forall va :: va in pages && start <= va < end ==> va in walk
  {
    forall k | 0 <= k < |todo| ensures todo[k] in pages && start <= todo[k] < end { assert todo[k] in todo; }
    forall va | va in pages && start <= va < end ensures exists k :: 0 <= k < |todo| && todo[k] == va { assert va in todo; }
  }

  /** The frames of the listed pages. */
  ghost function FramesAt(pages: map<nat, VmPage>,
      todo: seq<nat>): set<nat> { set va | va in todo && va in pages :: pages[va].phys }

  lemma FramesNext(pages: map<nat, VmPage>, todo: seq<nat>, k: nat)
    requires k < |todo| && todo[k] in pages
    ensures FramesAt(pages, todo[..k + 1]) == FramesAt(pages, todo[..k]) + {pages[todo[k]].phys}
  {
    assert todo[..k + 1] == todo[..k] + [todo[k]];
  }

  lemma FramesInside(pages: map<nat, VmPage>, start: nat, end: nat, todo: seq<nat>)
    requires Listed(pages, start, end, todo)
    ensures FramesAt(pages, todo) == FramesIn(Inside(pages, start, end))
    ensures FramesIn(Inside(pages, start, end)) <= FramesIn(pages)
    ensures FramesIn(pages - SetOf(todo)) <= FramesIn(pages)
  {
    var inner := Inside(pages, start, end);
    forall va | va in todo && va in pages ensures pages[va].phys in FramesIn(inner) { assert va in inner && inner[va] == pages[va]; }
    forall va | va in inner ensures inner[va].phys in FramesAt(pages, todo) && inner[va].phys in FramesIn(pages) { assert va in todo; }
    forall va | va in pages - SetOf(todo) ensures (pages - SetOf(todo))[va].phys in FramesIn(pages) { assert va in pages; }
  }

  /** After an unmap the record agrees with the tables exactly when it did before and every page was recognised. */
  lemma StuckIs(c: Codec, pages: map<nat, VmPage>, walk: map<nat, VmPage>, start: nat, end: nat)
    ensures var pages1 := Outside(pages, start, end); var walk1 := Removed(c, walk, Inside(pages, start, end).Keys);
      Over(c, pages, walk) ==>
        && Over(c, pages1, walk1)
        && (pages1 == walk1 <==> pages == walk && forall va :: va in pages && start <= va < end ==> c.mappable(pages[va].flags))
  {
    var pages1, walk1 := Outside(pages, start, end), Removed(c, walk, Inside(pages, start, end).Keys);
    if Over(c, pages, walk) {
      if pages == walk && forall va :: va in pages && start <= va < end ==> c.mappable(pages[va].flags) {
        assert pages1 == walk1;
      }
      if pages1 == walk1 {
        forall va | va in pages && start <= va < end ensures c.mappable(pages[va].flags) { assert va !in walk1; }
        forall va | va in walk ensures va in pages { assert va in pages || va in walk1; }
        assert pages == walk;
      }
    }
  }

  /** What the tables hold after a failed change of the range: what they held, recorded pages that were put back,
      and new pages that the clean-up could not remove. */
  ghost predicate LeftOver(c: Codec, walk: map<nat, VmPage>, pages: map<nat, VmPage>, w: map<nat, VmPage>, start: nat,
      end: nat, flags: Flags) {
    forall va :: va in w ==>
      || (va in walk && w[va] == walk[va]) || (start <= va < end && va in pages && w[va] == pages[va])
      || (start <= va < end && w[va].flags == flags && !c.mappable(flags))
  }

  lemma LeftAll(c: Codec, walk: map<nat, VmPage>, pages: map<nat, VmPage>, start: nat, end: nat, flags: Flags)
    ensures LeftOver(c, walk, pages, walk, start, end, flags)
  {
  }

  lemma LeftRemoved(c: Codec, walk: map<nat, VmPage>, pages: map<nat, VmPage>, gone: set<nat>, start: nat, end: nat,
      flags: Flags)
    ensures LeftOver(c, walk, pages, Removed(c, walk, gone), start, end, flags)
  {
  }

  lemma LeftUndone(c: Codec, walk: map<nat, VmPage>, pages: map<nat, VmPage>, w1: map<nat, VmPage>, w2: map<nat,
      VmPage>, w: map<nat, VmPage>, todo: seq<nat>, addrs: seq<nat>, frames: seq<nat>, flags: Flags, n: nat, start: nat,
      end: nat)
    requires n <= |addrs| == |frames| && (forall i, j :: 0 <= i < j < |addrs| ==> addrs[i] != addrs[j])
    requires (forall k :: 0 <= k < |addrs| ==> start <= addrs[k] < end)
    requires (forall k :: 0 <= k < |todo| ==> start <= todo[k] < end) && w1 == Removed(c, walk, SetOf(todo))
    requires w2 == Removed(c, WithAll(w1, addrs, frames, flags, n), SetOf(addrs[..n]))
    requires forall va :: va in w ==> (va in w2 && w[va] == w2[va]) || (va in todo && va in pages && w[va] == pages[va])
    ensures LeftOver(c, walk, pages, w, start, end, flags)
  {
    hide WithAll;
    forall va | va in w && va in w2 && w[va] == w2[va]
      ensures (va in walk && w[va] == walk[va]) || (start <= va < end && w[va].flags == flags && !c.mappable(flags))
    {
      WithAllAt(w1, addrs, frames, flags, n, va);
      if va in addrs[..n] { var k :| 0 <= k < n && addrs[k] == va; }
    }
  }

  /** Every old page was recognised, and the tables hold the new ones. */
  /** Distinct pages of the range. */
  ghost predicate Places4K(addrs: seq<nat>, start: nat, end: nat, limit: nat) {
    && (forall k :: 0 <= k < |addrs| ==> addrs[k] % 4096 == 0 && addrs[k] < limit && start <= addrs[k] < end)
    && (forall i, j :: 0 <= i < j < |addrs| ==> addrs[i] != addrs[j])
  }

  /** The pages to unmap are there, and nothing is left at the addresses to map. */
  ghost predicate Swappable(c: Codec, walk: map<nat, VmPage>, todo: seq<nat>, addrs: seq<nat>) {
    && (forall k :: 0 <= k < |todo| ==> todo[k] in walk)
    && (forall k :: 0 <= k < |addrs| ==> addrs[k] !in Removed(c, walk, SetOf(todo)))
  }

  /** The tables hold the listed pages as recorded, and what was mapped instead can be unmapped. */
  ghost predicate Undoable(c: Codec, pages: map<nat, VmPage>, walk: map<nat, VmPage>, todo: seq<nat>, flags: Flags) {
    c.mappable(flags) && forall va :: va in todo ==> va in pages && va in walk && pages[va] == walk[va]
  }

  lemma SwapFacts(pages: map<nat, VmPage>, owned: set<nat>, limit: nat, addrs: seq<nat>, start: nat, end: nat, c: Codec,
      walk: map<nat, VmPage>, todo: seq<nat>, flags: Flags)
    requires PagesOk(pages, owned, limit) && Places4K(addrs, start, end, limit)
    ensures forall va :: va in pages ==> va % 4096 == 0 && va < limit
    ensures forall k :: 0 <= k < |addrs| ==> addrs[k] % 4096 == 0 && addrs[k] < limit
    ensures forall i, j :: 0 <= i < j < |addrs| ==> addrs[i] != addrs[j]
    ensures SetOf(todo) <= walk.Keys <==> forall k :: 0 <= k < |todo| ==> todo[k] in walk
    ensures Swappable(c, walk, todo, addrs) <==>
              SetOf(todo) <= walk.Keys && forall k :: 0 <= k < |addrs| ==> addrs[k] !in Removed(c, walk, SetOf(todo))
    ensures Undoable(c, pages, walk, todo, flags) ==> SetOf(todo) <= walk.Keys
  {
  }

  lemma SwapShifted(t0: PT, f0: set<nat>, t1: PT, f1: set<nat>, t: PT, f: set<nat>, some: set<nat>, all: set<nat>)
    requires Shifted(t0, f0, t1, f1, Ways(t0.top, some)) && Shifted(t1, f1, t, f, Ways(t0.top, all)) && some <= all
    ensures Shifted(t0, f0, t, f, Ways(t0.top, all))
  {
    hide Ways, Places;
    WaysMore(t0.top, some, all);
    ShiftedMore(t0, f0, t1, f1, Ways(t0.top, some), Ways(t0.top, all));
    ShiftedTrans(t0, f0, t1, f1, t, f, Ways(t0.top, all), Ways(t0.top, all));
    assert Ways(t0.top, all) + Ways(t0.top, all) == Ways(t0.top, all);
  }

  /** Unmapping pages that were just mapped, and then putting the old ones back, leads back to the start. */
  lemma RemovedBack(c: Codec, walk: map<nat, VmPage>, todo: seq<nat>, addrs: seq<nat>, frames: seq<nat>, flags: Flags,
      n: nat, pages: map<nat, VmPage>)
    requires Undoable(c, pages, walk, todo, flags) && n <= |addrs| == |frames|
    requires forall k :: 0 <= k < n ==> addrs[k] !in Removed(c, walk, SetOf(todo))
    requires forall i, j :: 0 <= i < j < |addrs| ==> addrs[i] != addrs[j]
    ensures var w1 := Removed(c, walk, SetOf(todo));
      && Removed(c, WithAll(w1, addrs, frames, flags, n), SetOf(addrs[..n])) == w1
      && SetOf(todo) <= pages.Keys && Restored(w1, pages, SetOf(todo)) == walk
  {
    hide WithAll;
    var w1 := Removed(c, walk, SetOf(todo));
    var w := WithAll(w1, addrs, frames, flags, n);
    WithAllKeys(w1, addrs, frames, flags, n);
    forall va | va in w ensures va in addrs[..n] ==> w[va].flags == flags
      ensures va !in addrs[..n] ==> va in w1 && w[va] == w1[va]
    {
      WithAllAt(w1, addrs, frames, flags, n, va);
      if va in addrs[..n] { var k :| 0 <= k < n && addrs[k] == va; }
    }
  }

  /** What is missing of these pages is put back. */
  ghost function Restored(w: map<nat, VmPage>, pages: map<nat, VmPage>, todo: set<nat>): map<nat, VmPage>
    requires todo <= pages.Keys
  {
    map va | va in w.Keys + todo :: if va in w then w[va] else pages[va]
  }

  /** The pages of the range are recorded and in the tables alike, and all are recognised when unmapped. */
  ghost predicate Replaceable(c: Codec, pages: map<nat, VmPage>, walk: map<nat, VmPage>, start: nat, end: nat) {
    && (forall va :: va in pages && start <= va < end ==> va in walk)
    && (forall va :: va in walk && start <= va < end ==> va in pages && c.mappable(walk[va].flags))
  }

  lemma ReplaceableAll(c: Codec, pages: map<nat, VmPage>, walk: map<nat, VmPage>, start: nat, end: nat)
    requires Replaceable(c, pages, walk, start, end)
    ensures forall va :: va in walk && start <= va < end ==> va in pages && c.mappable(walk[va].flags)
  {
  }

  ghost function PagesFrom(start: nat, count: nat): set<nat> { set k | 0 <= k < count :: start + 4096 * k }

  lemma ListedNone(pages: map<nat, VmPage>, start: nat, end: nat, todo: seq<nat>)
    requires Listed(pages, start, end, todo)
    ensures (forall va :: va in pages ==> !(start <= va < end)) ==> todo == []
  {
    if todo != [] { assert todo[0] in todo; }
  }

  lemma ReplaceableIs(c: Codec, pages: map<nat, VmPage>, walk: map<nat, VmPage>, start: nat, count: nat, todo: seq<nat>)
    requires start % 4096 == 0 && Listed(pages, start, start + 4096 * count, todo)
    requires forall va :: va in walk ==> va % 4096 == 0
    requires forall va :: va in pages ==> va % 4096 == 0
    ensures Replaceable(c, pages, walk, start, start + 4096 * count) <==> Swappable(c, walk, todo, Addrs(start, count))
    ensures SetOf(Addrs(start, count)) == PagesFrom(start, count) && SetOf(todo) <= PagesFrom(start, count)
  {
    var a := Addrs(start, count);
    forall va | va % 4096 == 0 && start <= va < start + 4096 * count
      ensures va in a && va in PagesFrom(start, count)
    {
      var k := (va - start) / 4096;
      assert va == start + 4096 * k == a[k];
    }
    forall va | va in a ensures va in PagesFrom(start, count) {
      var k :| 0 <= k < count && a[k] == va;
      assert va == start + 4096 * k;
    }
    if Replaceable(c, pages, walk, start, start + 4096 * count) {
      forall k | 0 <= k < |todo| ensures todo[k] in walk { assert todo[k] in todo; }
      forall k | 0 <= k < count ensures a[k] !in Removed(c, walk, SetOf(todo)) {
        assert a[k] in walk ==> a[k] in todo;
      }
    }
    if Swappable(c, walk, todo, a) {
      forall va | va in walk && start <= va < start + 4096 * count ensures va in pages && c.mappable(walk[va].flags) {
        assert va % 4096 == 0 && va in a;
        var k :| 0 <= k < count && a[k] == va;
        assert a[k] !in Removed(c, walk, SetOf(todo));
      }
    }
  }

  lemma RestoredNone(w: map<nat, VmPage>, pages: map<nat, VmPage>, todo: seq<nat>)
    requires forall k :: 0 <= k < |todo| ==> todo[k] in pages
    ensures SetOf(todo) <= pages.Keys && SetOf(todo[..0]) == {} && Restored(w, pages, {}) == w
    ensures forall k :: 0 <= k <= |todo| ==> SetOf(todo[..k]) <= pages.Keys
  {
  }

  lemma RestoredNext(w: map<nat, VmPage>, pages: map<nat, VmPage>, todo: seq<nat>, k: nat)
    requires k < |todo| && forall j :: 0 <= j < |todo| ==> todo[j] in pages
    ensures SetOf(todo[..k]) <= pages.Keys && SetOf(todo[..k + 1]) <= pages.Keys
    ensures var w1 := Restored(w, pages, SetOf(todo[..k]));
      Restored(w, pages, SetOf(todo[..k + 1])) == if todo[k] in w1 then w1 else w1[todo[k] := pages[todo[k]]]
  {
    assert SetOf(todo[..k + 1]) == SetOf(todo[..k]) + {todo[k]};
  }

  lemma RemovedAll(c: Codec, walk: map<nat, VmPage>, todo: seq<nat>)
    ensures (forall va :: va in todo ==> va in walk && c.mappable(walk[va].flags)) ==>
              forall k :: 0 <= k < |todo| ==> todo[k] !in Removed(c, walk, SetOf(todo))
  {
  }

  lemma Retabled(c: Codec, walk: map<nat, VmPage>, pages: map<nat, VmPage>, todo: seq<nat>, frames: seq<nat>,
      flags: Flags)
    requires (forall i, j :: 0 <= i < j < |todo| ==> todo[i] != todo[j]) && |frames| == |todo|
    requires forall k :: 0 <= k < |todo| ==>
               && todo[k] in walk && todo[k] in pages && frames[k] == pages[todo[k]].phys
               && todo[k] !in Removed(c, walk, SetOf(todo))
    ensures var w := WithAll(Removed(c, walk, SetOf(todo)), todo, frames, flags, |todo|);
      && (forall va :: va in todo ==> va in walk && c.mappable(walk[va].flags) && va in pages)
      && (forall va :: va in w <==> va in walk)
      && (forall va :: va in w ==> w[va] == if va in todo then VmPage(pages[va].phys, flags) else walk[va])
  {
    hide WithAll;
    var w1 := Removed(c, walk, SetOf(todo));
    var w := WithAll(w1, todo, frames, flags, |todo|);
    assert todo[..|todo|] == todo;
    forall va | va in todo ensures c.mappable(walk[va].flags) && va in walk && va in pages { var k :| 0 <= k < |todo| && todo[k] == va; }
    forall va ensures (va in w <==> va in walk) && (va in w ==> w[va] == if va in todo then VmPage(pages[va].phys, flags) else walk[va]) {
      if va >= 0 { WithAllAt(w1, todo, frames, flags, |todo|, va); }
      if va in todo { var k :| 0 <= k < |todo| && todo[k] == va; }
    }
  }

  /** The pages of `[start, end)` were recorded and recognised and have new flags, in the record and in the tables. */
  ghost predicate Protected(c: Codec, pages: map<nat, VmPage>, walk: map<nat, VmPage>, pages1: map<nat, VmPage>,
      walk1: map<nat, VmPage>, start: nat, end: nat, flags: Flags) {
    && (forall va :: start <= va < end && va % 4096 == 0 ==> va in pages && va in walk && c.mappable(walk[va].flags))
    && pages1 == Reflagged(pages, start, end, flags) && walk1.Keys == walk.Keys
    && (forall va :: va in walk1 ==> if start <= va < end then va in pages1 && walk1[va] == pages1[va] else walk1[va] == walk[va])
  }

  lemma ProtectedIs(c: Codec, pages: map<nat, VmPage>, walk: map<nat, VmPage>, w: map<nat, VmPage>, start: nat,
      end: nat, todo: seq<nat>, flags: Flags)
    requires Listed(pages, start, end, todo) && (forall va :: start <= va < end && va % 4096 == 0 ==> va in pages)
    requires forall va :: va in w ==> va % 4096 == 0
    requires forall va :: va in todo ==> va in walk && c.mappable(walk[va].flags) && va in pages
    requires (forall va :: va in w <==> va in walk)
    requires (forall va :: va in w ==> w[va] == if va in todo then VmPage(pages[va].phys, flags) else walk[va])
    ensures Protected(c, pages, walk, Reflagged(pages, start, end, flags), w, start, end, flags)
    ensures Over(c, pages, walk) ==> Over(c, Reflagged(pages, start, end, flags), w)
    ensures pages == walk ==> Reflagged(pages, start, end, flags) == w
  {
  }

  lemma ReflaggedOk(pages: map<nat, VmPage>, owned: set<nat>, limit: nat, start: nat, end: nat, flags: Flags)
    requires PagesOk(pages, owned, limit) && flags.u
    ensures PagesOk(Reflagged(pages, start, end, flags), owned, limit)
    ensures forall ram :: FramesOk(pages, ram) ==> FramesOk(Reflagged(pages, start, end, flags), ram)
    ensures FramesIn(Reflagged(pages, start, end, flags)) <= FramesIn(pages)
  {
  }

  lemma OutsideIs(pages: map<nat, VmPage>, start: nat, end: nat, todo: seq<nat>)
    requires Listed(pages, start, end, todo)
    ensures pages - SetOf(todo) == Outside(pages, start, end)
  {
  }

  lemma FramesSub(pages: map<nat, VmPage>, start: nat, end: nat, ram: map<nat, seq<Byte>>)
    requires FramesOk(pages, ram)
    ensures FramesOk(Outside(pages, start, end), ram)
  {
  }

  lemma RamLess(owned: set<nat>, owned1: set<nat>, ram: map<nat, seq<Byte>>)
    requires RamOk(owned, ram) && owned1 <= owned
    ensures RamOk(owned1, ram)
  {
  }

  lemma RamMore(pages: map<nat, VmPage>, va: nat, owned: set<nat>, ram: map<nat, seq<Byte>>)
    requires RamOk(owned, ram) && FramesOk(pages, ram) && va in pages
    ensures RamOk(owned + {pages[va].phys}, ram)
  {
  }

  /** Distinct frames that left the engine's reach. */
  ghost predicate Fresh(frames: seq<nat>, before: set<nat>, after: set<nat>) {
    && (forall k :: 0 <= k < |frames| ==> TableAddress(frames[k]) && frames[k] in before && frames[k] !in after)
    && (forall j, k :: 0 <= j < k < |frames| ==> frames[j] != frames[k])
  }

  /** These frames were taken from the pool. */
  ghost predicate Drawn(blank: seq<nat>, free0: set<nat>, free: set<nat>) {
    free + SetOf(blank) == free0 && |free| == |free0| - |blank|
  }

  lemma DrawnNone(free: set<nat>, owned: set<nat>)
    ensures Drawn([], free, free) && Fresh([], owned, owned)
  {
    assert SetOf([]) == {};
  }

  lemma DrawnFacts(blank: seq<nat>, free0: set<nat>, free: set<nat>)
    requires Drawn(blank, free0, free)
    ensures SetOf(blank) <= free0 && free <= free0 && free + SetOf(blank) == free0 && |free| == |free0| - |blank|
  {
  }

  lemma DrawnNext(blank: seq<nat>, free0: set<nat>, free: set<nat>, f: nat, before: set<nat>, owned: set<nat>,
      after: set<nat>)
    requires Drawn(blank, free0, free) && f in free && Fresh(blank, before, owned) && after <= owned <= before
    requires TableAddress(f) && f in owned && f !in after
    ensures Drawn(blank + [f], free0, free - {f}) && Fresh(blank + [f], before, after)
  {
    hide TableAddress;
    assert SetOf(blank + [f]) == SetOf(blank) + {f};
  }

  function Addrs(start: nat, count: nat): (a: seq<nat>)
    ensures |a| == count
  {
    seq(count, k => start + 4096 * k)
  }

  lemma AddrsOk(start: nat, count: nat, limit: nat)
    requires start % 4096 == 0 && start + 4096 * count <= limit
    ensures forall k :: 0 <= k < count ==> Addrs(start, count)[k] % 4096 == 0 && Addrs(start, count)[k] < limit
    ensures forall i, j :: 0 <= i < j < count ==> Addrs(start, count)[i] != Addrs(start, count)[j]
  {
  }

  lemma AddrsIn(start: nat, count: nat, va: nat)
    requires start % 4096 == 0
    ensures va in Addrs(start, count) <==> start <= va < start + 4096 * count && va % 4096 == 0
  {
    if start <= va < start + 4096 * count && va % 4096 == 0 {
      PageIndex(start, va);
      assert Addrs(start, count)[(va - start) / 4096] == va;
    }
  }

  lemma PageIndex(start: nat, va: nat)
    requires start <= va && start % 4096 == 0 && va % 4096 == 0
    ensures va == start + 4096 * ((va - start) / 4096)
  {
  }

  lemma RangeIs(start: nat, length: nat, count: nat)
    requires length % 4096 == 0 && count == length / 4096
    ensures start + 4096 * count == start + length
  {
  }

  /** `pages` with the range from `start` on mapped to the fresh frames. */
  ghost function Replaced(pages: map<nat, VmPage>, start: nat, blank: seq<nat>, flags: Flags): map<nat, VmPage> {
    WithAll(pages, Addrs(start, |blank|), blank, flags, |blank|)
  }

  lemma ReplacedAt(pages: map<nat, VmPage>, start: nat, blank: seq<nat>, flags: Flags, va: nat)
    requires start % 4096 == 0
    ensures var w := Replaced(pages, start, blank, flags);
      var inside := start <= va < start + 4096 * |blank| && va % 4096 == 0;
      && (va in w <==> va in pages || inside)
      && (va in w && !inside ==> w[va] == pages[va])
      && (inside ==> va in w && (va - start) / 4096 < |blank| && w[va] == VmPage(blank[(va - start) / 4096], flags))
  {
    hide WithAll;
    var addrs := Addrs(start, |blank|);
    AddrsOk(start, |blank|, start + 4096 * |blank|);
    AddrsIn(start, |blank|, va);
    WithAllAt(pages, addrs, blank, flags, |blank|, va);
    assert addrs[..|blank|] == addrs;
    if va in addrs {
      PageIndex(start, va);
      assert addrs[(va - start) / 4096] == va;
    }
  }

  lemma FreshLess(frames: seq<nat>, before: set<nat>, mid: set<nat>, after: set<nat>)
    requires Fresh(frames, before, mid) && after <= mid
    ensures Fresh(frames, before, after) && forall f :: f in frames ==> f in before
  {
  }

  lemma ListedOnce(pages: map<nat, VmPage>, start: nat, end: nat, todo: seq<nat>)
    requires Listed(pages, start, end, todo)
    ensures forall i, j :: 0 <= i < j < |todo| ==> todo[i] != todo[j]
  {
  }

  lemma FreshAddress(frames: seq<nat>, before: set<nat>, after: set<nat>)
    requires Fresh(frames, before, after)
    ensures forall k :: 0 <= k < |frames| ==> TableAddress(frames[k])
  {
  }

  lemma AddrsRange(start: nat, count: nat)
    ensures forall k :: 0 <= k < count ==> start <= Addrs(start, count)[k] < start + 4096 * count
  {
  }

  /** Filling the emptied range is replacing it, and nothing was left behind in it. */
  lemma Refilled(c: Codec, walk: map<nat, VmPage>, pages: map<nat, VmPage>, start: nat, todo: seq<nat>, blank: seq<nat>,
      flags: Flags)
    requires start % 4096 == 0 && Listed(pages, start, start + 4096 * |blank|, todo)
    requires forall k :: 0 <= k < |blank| ==> Addrs(start, |blank|)[k] !in Removed(c, walk, SetOf(todo))
    requires forall va :: va in walk ==> va % 4096 == 0
    ensures WithAll(Removed(c, walk, SetOf(todo)), Addrs(start, |blank|), blank, flags, |blank|) == Replaced(walk, start, blank, flags)
    ensures forall va :: va in walk && start <= va < start + 4096 * |blank| ==>
              va in pages && c.mappable(walk[va].flags)
  {
    hide WithAll;
    var w1 := Removed(c, walk, SetOf(todo));
    var a, b := Replaced(w1, start, blank, flags), Replaced(walk, start, blank, flags);
    forall va | va in walk && start <= va < start + 4096 * |blank| ensures va in pages && c.mappable(walk[va].flags) {
      AddrsIn(start, |blank|, va);
      var k :| 0 <= k < |blank| && Addrs(start, |blank|)[k] == va;
      assert va !in w1;
    }
    forall va | va in a || va in b ensures va in a && va in b && a[va] == b[va] {
      ReplacedAt(w1, start, blank, flags, va);
      ReplacedAt(walk, start, blank, flags, va);
    }
    assert a == b;
  }

  /** The frames of the replaced pages are distinct and were not the engine's. */
  lemma OldFrames(pages: map<nat, VmPage>, before: set<nat>, after: set<nat>, limit: nat, todo: seq<nat>,
      olds: seq<nat>)
    requires PagesOk(pages, before, limit) && after <= before && |olds| == |todo|
    requires (forall k :: 0 <= k < |todo| ==> todo[k] in pages && olds[k] == pages[todo[k]].phys)
    requires (forall i, j :: 0 <= i < j < |todo| ==> todo[i] != todo[j])
    ensures Fresh(olds, before + SetOf(olds), after)
  {
  }

  lemma ReplacedOk(pages: map<nat, VmPage>, before: set<nat>, after: set<nat>, limit: nat, start: nat, blank: seq<nat>,
      flags: Flags, todo: seq<nat>, olds: seq<nat>)
    requires PagesOk(pages, before, limit) && after <= before && Fresh(blank, before, after) && flags.u
    requires start % 4096 == 0 && start + 4096 * |blank| <= limit && Listed(pages, start, start + 4096 * |blank|, todo)
    requires |olds| == |todo|
    requires forall k :: 0 <= k < |todo| ==> todo[k] in pages && olds[k] == pages[todo[k]].phys
    ensures PagesOk(Replaced(pages, start, blank, flags), after + SetOf(olds), limit)
  {
    hide WithAll, TableAddress, Replaced;
    var w := Replaced(pages, start, blank, flags);
    forall va | va in w ensures
        && va % 4096 == 0 && va < limit && w[va].flags.u && TableAddress(w[va].phys) && w[va].phys !in after + SetOf(olds)
    {
      ReplacedAt(pages, start, blank, flags, va);
    }
    forall va, vb | va in w && vb in w && va != vb ensures w[va].phys != w[vb].phys {
      ReplacedAt(pages, start, blank, flags, va);
      ReplacedAt(pages, start, blank, flags, vb);
      DistinctIndex(start, va, vb);
    }
  }

  lemma ReplacedReach(pages: map<nat, VmPage>, before: set<nat>, after: set<nat>, start: nat, blank: seq<nat>,
      flags: Flags, todo: seq<nat>, olds: seq<nat>)
    requires after <= before && Fresh(blank, before, after) && start % 4096 == 0 && |olds| == |todo|
    requires forall k :: 0 <= k < |todo| ==> todo[k] in pages && olds[k] == pages[todo[k]].phys
    ensures after + SetOf(olds) + FramesIn(Replaced(pages, start, blank, flags)) <= before + FramesIn(pages)
  {
    hide WithAll, Replaced, TableAddress;
    forall va | va in Replaced(pages, start, blank, flags)
      ensures Replaced(pages, start, blank, flags)[va].phys in before + FramesIn(pages)
    {
      ReplacedAt(pages, start, blank, flags, va);
    }
  }

  lemma DistinctIndex(start: nat, va: nat, vb: nat)
    requires start % 4096 == 0 && va % 4096 == 0 && vb % 4096 == 0 && va != vb
    ensures start <= va && start <= vb ==> (va - start) / 4096 != (vb - start) / 4096
  {
    if start <= va && start <= vb { PageIndex(start, va); PageIndex(start, vb); }
  }

  lemma ReplacedRam(pages: map<nat, VmPage>, before: set<nat>, after: set<nat>, ram: map<nat, seq<Byte>>, ram1: map<nat,
      seq<Byte>>, start: nat, blank: seq<nat>, flags: Flags, olds: seq<nat>, todo: seq<nat>)
    requires FramesOk(pages, ram) && RamOk(before, ram) && start % 4096 == 0 && after <= before + SetOf(olds)
    requires ram1.Keys == ram.Keys + SetOf(blank)
    requires forall f :: f in ram1 ==> ram1[f] == if f in blank then Zeros(4096) else ram[f]
    requires |olds| == |todo| && forall k :: 0 <= k < |todo| ==> todo[k] in pages && olds[k] == pages[todo[k]].phys
    ensures FramesOk(Replaced(pages, start, blank, flags), ram1) && RamOk(after, ram1)
  {
    hide WithAll, Replaced;
    forall va | va in Replaced(pages, start, blank, flags)
      ensures var p := Replaced(pages, start, blank, flags)[va].phys; p in ram1 && |ram1[p]| == 4096
    {
      ReplacedAt(pages, start, blank, flags, va);
    }
  }

  /** The range lies on frames of `free`, zeroed and recorded with these flags, and nothing else changed; before,
      the tables held only recorded and recognised pages there. */
  ghost predicate Refreshed(c: Codec, pages: map<nat, VmPage>, walk: map<nat, VmPage>, pages1: map<nat, VmPage>,
      walk1: map<nat, VmPage>, start: nat, end: nat, flags: Flags, free: set<nat>, ram: map<nat, seq<Byte>>) {
    && Outside(pages1, start, end) == Outside(pages, start, end) && Outside(walk1, start, end) == Outside(walk, start, end)
    && (forall va :: va in walk && start <= va < end ==> va in pages && c.mappable(walk[va].flags))
    && (forall va :: start <= va < end && va % 4096 == 0 ==>
          && va in pages1 && va in walk1 && walk1[va] == pages1[va] && pages1[va].flags == flags
          && pages1[va].phys in free && pages1[va].phys in ram && ram[pages1[va].phys] == Zeros(4096))
  }

  lemma RefreshedIs(c: Codec, pages: map<nat, VmPage>, walk: map<nat, VmPage>, start: nat, blank: seq<nat>,
      flags: Flags, free: set<nat>, ram: map<nat, seq<Byte>>, ram1: map<nat, seq<Byte>>, owned: set<nat>,
      reach: set<nat>)
    requires start % 4096 == 0 && (forall va :: va in pages || va in walk ==> va % 4096 == 0)
    requires SetOf(blank) <= free <= owned <= reach && RamOk(owned, ram)
    requires forall va :: va in walk && start <= va < start + 4096 * |blank| ==>
              va in pages && c.mappable(walk[va].flags)
    requires ram1.Keys == ram.Keys + SetOf(blank)
    requires forall f :: f in ram1 ==> ram1[f] == if f in blank then Zeros(4096) else ram[f]
    ensures var pages1, walk1 := Replaced(pages, start, blank, flags), Replaced(walk, start, blank, flags);
      && Refreshed(c, pages, walk, pages1, walk1, start, start + 4096 * |blank|, flags, free, ram1)
      && (Over(c, pages, walk) ==> Over(c, pages1, walk1)) && (pages == walk ==> pages1 == walk1)
    ensures RamKept(ram, ram1, free) && RamKept(ram, ram1, reach)
  {
    hide WithAll, Replaced;
    var pages1, walk1 := Replaced(pages, start, blank, flags), Replaced(walk, start, blank, flags);
    forall va: nat
      ensures ReplacedAs(pages, pages1, start, blank, flags, va) && ReplacedAs(walk, walk1, start, blank, flags, va)
    {
      ReplacedAt(pages, start, blank, flags, va);
      ReplacedAt(walk, start, blank, flags, va);
    }
    forall va: nat | start <= va < start + 4096 * |blank| && va % 4096 == 0
      ensures va in pages1 && va in walk1 && walk1[va] == pages1[va] && pages1[va].flags == flags
      ensures pages1[va].phys in blank
    {
      assert ReplacedAs(pages, pages1, start, blank, flags, va) && ReplacedAs(walk, walk1, start, blank, flags, va);
    }
    OutsideSame(pages, pages1, start, blank, flags);
    OutsideSame(walk, walk1, start, blank, flags);
    if Over(c, pages, walk) { OverReplaced(c, pages, walk, pages1, walk1, start, blank, flags); }
  }

  /** One address of the range or outside it. */
  ghost predicate ReplacedAs(pages: map<nat, VmPage>, w: map<nat, VmPage>, start: nat, blank: seq<nat>, flags: Flags,
      va: nat) {
    var inside := start <= va < start + 4096 * |blank| && va % 4096 == 0;
    && (va in w <==> va in pages || inside)
    && (va in w && !inside ==> w[va] == pages[va])
    && (inside ==> va in w && (va - start) / 4096 < |blank| && w[va] == VmPage(blank[(va - start) / 4096], flags))
  }

  lemma OutsideSame(pages: map<nat, VmPage>, w: map<nat, VmPage>, start: nat, blank: seq<nat>, flags: Flags)
    requires forall va: nat :: ReplacedAs(pages, w, start, blank, flags, va)
    ensures Outside(w, start, start + 4096 * |blank|) == Outside(pages, start, start + 4096 * |blank|)
  {
    var end := start + 4096 * |blank|;
    forall va: nat ensures va in Outside(w, start, end) <==> va in Outside(pages, start, end) { assert ReplacedAs(pages, w, start, blank, flags, va); }
    forall va | va in Outside(w, start, end) ensures w[va] == pages[va] { assert ReplacedAs(pages, w, start, blank, flags, va); }
  }

  lemma OverReplaced(c: Codec, pages: map<nat, VmPage>, walk: map<nat, VmPage>, pages1: map<nat, VmPage>,
      walk1: map<nat, VmPage>, start: nat, blank: seq<nat>, flags: Flags)
    requires Over(c, pages, walk)
    requires forall va: nat :: ReplacedAs(pages, pages1, start, blank, flags, va) && ReplacedAs(walk, walk1, start, blank, flags, va)
    ensures Over(c, pages1, walk1)
  {
    forall va | va in pages1 ensures va in walk1 && walk1[va] == pages1[va] {
      assert ReplacedAs(pages, pages1, start, blank, flags, va) && ReplacedAs(walk, walk1, start, blank, flags, va);
    }
    forall va | va in walk1 && va !in pages1 ensures !c.mappable(walk1[va].flags) {
      assert ReplacedAs(pages, pages1, start, blank, flags, va) && ReplacedAs(walk, walk1, start, blank, flags, va);
    }
  }

  // ---- two spaces ----

  ghost predicate DisjointFrames(a: map<nat, VmPage>, b: map<nat, VmPage>) {
    forall va, vb :: va in a && vb in b ==> a[va].phys != b[vb].phys
  }

  /** These pages are copied: same addresses, flags and contents. */
  ghost predicate Copied(pages: map<nat, VmPage>, copy: map<nat, VmPage>, ram: map<nat, seq<Byte>>, done: set<nat>) {
    && copy.Keys == done && done <= pages.Keys
    && forall va :: va in done ==>
         && copy[va].flags == pages[va].flags && copy[va].phys in ram && pages[va].phys in ram
         && ram[copy[va].phys] == ram[pages[va].phys]
  }

  /** Memory changed in frames of `o` only. */
  ghost predicate RamKept(ram: map<nat, seq<Byte>>, ram1: map<nat, seq<Byte>>, o: set<nat>) {
    forall f :: f in ram ==> f in ram1 && |ram1[f]| == |ram[f]| && (f !in o ==> ram1[f] == ram[f])
  }

  /** The copy so far: its frames come from `o`, of which the parent uses none. */
  ghost predicate Forked(pages: map<nat, VmPage>, copy: map<nat, VmPage>, ram: map<nat, seq<Byte>>, ram1: map<nat,
      seq<Byte>>, o: set<nat>, done: set<nat>) {
    && Copied(pages, copy, ram1, done) && RamKept(ram, ram1, o)
    && (forall va :: va in copy ==> copy[va].phys in o) && (forall va :: va in pages ==> pages[va].phys !in o)
  }

  lemma ForkStart(pages: map<nat, VmPage>, owned: set<nat>, ram: map<nat, seq<Byte>>, o: set<nat>, limit: nat)
    requires PagesOk(pages, owned, limit) && o <= owned
    ensures Forked(pages, map[], ram, ram, o, {})
  {
  }

  lemma ListedAll(pages: map<nat, VmPage>, limit: nat, todo: seq<nat>)
    requires Listed(pages, 0, limit, todo) && forall va :: va in pages ==> va < limit
    ensures SetOf(todo) == pages.Keys
  {
  }

  lemma ForkEnd(pages: map<nat, VmPage>, copy: map<nat, VmPage>, owned: set<nat>, ram: map<nat, seq<Byte>>,
      ram1: map<nat, seq<Byte>>, o: set<nat>, done: set<nat>)
    requires Forked(pages, copy, ram, ram1, o, done) && FramesOk(pages, ram) && RamOk(owned, ram)
    ensures FramesOk(pages, ram1) && RamOk(owned, ram1) && Copied(pages, copy, ram1, done) && RamKept(ram, ram1, o)
  {
  }

  /** One page more: its fresh frame gets the contents of the parent's. */
  lemma ForkKeys(pages: map<nat, VmPage>, copy: map<nat, VmPage>, ram: map<nat, seq<Byte>>, ram1: map<nat, seq<Byte>>,
      o: set<nat>, done: set<nat>)
    requires Forked(pages, copy, ram, ram1, o, done)
    ensures copy.Keys == done
  {
  }

  lemma ForkNext(pages: map<nat, VmPage>, copy: map<nat, VmPage>, ram: map<nat, seq<Byte>>, ram1: map<nat, seq<Byte>>,
      o: set<nat>, done: set<nat>, va: nat)
    requires Forked(pages, copy, ram, ram1, o, done) && va !in done
    ensures va !in copy
  {
  }

  lemma ForkCopy(pages: map<nat, VmPage>, copy: map<nat, VmPage>, copy1: map<nat, VmPage>, ram: map<nat, seq<Byte>>,
      ram1: map<nat, seq<Byte>>, ram2: map<nat, seq<Byte>>, o: set<nat>, done: set<nat>, va: nat, f: nat)
    requires Forked(pages, copy, ram, ram1, o, done) && FramesOk(pages, ram) && va in pages && va !in done && f in o
    requires copy1 == copy[va := VmPage(f, pages[va].flags)] && ram2 == ram1[f := Zeros(4096)] && RamOk(o, ram)
    requires forall vb :: vb in copy ==> copy[vb].phys != f
    ensures pages[va].phys in ram2 && |ram2[pages[va].phys]| == 4096
    ensures Forked(pages, copy1, ram, ram2[f := ram2[pages[va].phys]], o, done + {va})
  {
  }

  lemma CopyOk(pages: map<nat, VmPage>, owned: set<nat>, ram: map<nat, seq<Byte>>, f: nat, d: seq<Byte>)
    requires FramesOk(pages, ram) && RamOk(owned, ram) && |d| == 4096
    ensures FramesOk(pages, ram[f := d]) && RamOk(owned, ram[f := d])
  {
  }

  // ---- bytes ----

  function PageBase(a: nat): nat { a - a % 4096 }

  predicate PageAllows(pages: map<nat, VmPage>, q: nat, write: bool) { q in pages && (write ==> pages[q].flags.w) }

  ghost predicate RangeOk(pages: map<nat, VmPage>, limit: nat, address: nat, length: nat, write: bool) {
    if length == 0 then address < limit
    else address + length <= limit && forall a :: address <= a < address + length ==> PageAllows(pages, PageBase(a), write)
  }

  lemma BaseSpan(address: nat, end: nat)
    requires address < end
    ensures PageBase(address) % 4096 == 0 && PageBase(end - 1) % 4096 == 0 && PageBase(address) <= PageBase(end - 1)
  {
  }

  lemma BaseBetween(address: nat, end: nat, a: nat)
    requires address <= a < end
    ensures PageBase(address) <= PageBase(a) <= PageBase(end - 1) && PageBase(a) % 4096 == 0
  {
  }

  /** A page of the range that is missing or read-only fails some byte of it. */
  lemma BaseBad(pages: map<nat, VmPage>, address: nat, end: nat, page: nat, write: bool)
    requires address < end && page % 4096 == 0 && PageBase(address) <= page <= PageBase(end - 1)
    requires !PageAllows(pages, page, write)
    ensures exists a :: address <= a < end && !PageAllows(pages, PageBase(a), write)
  {
    var a := if page < address then address else page;
    assert PageBase(a) == page;
    assert address <= a < end;
  }

  /** `v` is the byte at the physical address that the page leads to. */
  predicate ByteAt(page: Flat, ram: map<nat, seq<Byte>>, v: int) {
    && page.Page? && page.phys - page.phys % 4096 in ram && |ram[page.phys - page.phys % 4096]| == 4096
    && v == ram[page.phys - page.phys % 4096][page.phys % 4096] as int
  }

  /** The byte of user address `a`. */
  function View(pages: map<nat, VmPage>, ram: map<nat, seq<Byte>>, a: nat): int {
    var q := PageBase(a);
    if q in pages && pages[q].phys in ram && a % 4096 < |ram[pages[q].phys]| then ram[pages[q].phys][a % 4096] as int else -1
  }

  /** The first `n` bytes were stored at `vaddr`; no other user byte changed and no frame of anybody else. */
  ghost predicate ByteStore(pages: map<nat, VmPage>, ram: map<nat, seq<Byte>>, ram1: map<nat, seq<Byte>>, vaddr: nat,
      bytes: seq<Byte>, n: nat) {
    && n <= |bytes| && ram1.Keys == ram.Keys && (forall f :: f in ram ==> |ram1[f]| == |ram[f]|)
    && (forall f :: f in ram && (forall q :: q in pages ==> pages[q].phys != f) ==> ram1[f] == ram[f])
    && (forall a: nat :: View(pages, ram1, a) == if vaddr <= a < vaddr + n then bytes[a - vaddr] as int else View(pages, ram, a))
  }

  lemma StoreKept(pages: map<nat, VmPage>, ram: map<nat, seq<Byte>>, ram1: map<nat, seq<Byte>>, vaddr: nat,
      bytes: seq<Byte>, n: nat)
    requires ByteStore(pages, ram, ram1, vaddr, bytes, n)
    ensures RamKept(ram, ram1, FramesIn(pages))
  {
    hide View;
    forall f | f in ram && f !in FramesIn(pages) ensures ram1[f] == ram[f] {
      assert forall q :: q in pages ==> pages[q].phys != f;
    }
  }

  lemma StoreNone(pages: map<nat, VmPage>, ram: map<nat, seq<Byte>>, vaddr: nat, bytes: seq<Byte>)
    ensures ByteStore(pages, ram, ram, vaddr, bytes, 0)
  {
  }

  lemma StoreChunk(pages: map<nat, VmPage>, owned: set<nat>, limit: nat, ram: map<nat, seq<Byte>>, ram1: map<nat,
      seq<Byte>>, vaddr: nat, bytes: seq<Byte>, n: nat, m: nat)
    requires PagesOk(pages, owned, limit) && FramesOk(pages, ram1) && RamOk(owned, ram1)
    requires ByteStore(pages, ram, ram1, vaddr, bytes, n)
    requires n + m <= |bytes| && PageBase(vaddr + n) in pages && (vaddr + n) % 4096 + m <= 4096
    ensures pages[PageBase(vaddr + n)].phys in ram1 && |ram1[pages[PageBase(vaddr + n)].phys]| == 4096
    ensures var p := pages[PageBase(vaddr + n)].phys; var ram2 := ram1[p := Patch(ram1[p], (vaddr + n) % 4096, bytes[n..n + m])];
      ByteStore(pages, ram, ram2, vaddr, bytes, n + m) && FramesOk(pages, ram2) && RamOk(owned, ram2)
  {
    var at := vaddr + n;
    var p := pages[PageBase(at)].phys;
    var ram2 := ram1[p := Patch(ram1[p], at % 4096, bytes[n..n + m])];
    forall a: nat
      ensures View(pages, ram2, a) == if at <= a < at + m then bytes[a - vaddr] as int else View(pages, ram1, a)
    {
      StoreAt(pages, ram1, at, bytes[n..n + m], a);
    }
  }

  lemma StoreAt(pages: map<nat, VmPage>, ram: map<nat, seq<Byte>>, at: nat, d: seq<Byte>, a: nat)
    requires PageBase(at) in pages && pages[PageBase(at)].phys in ram && |ram[pages[PageBase(at)].phys]| == 4096
    requires at % 4096 + |d| <= 4096
    requires forall q, r :: q in pages && r in pages && q != r ==> pages[q].phys != pages[r].phys
    ensures var p := pages[PageBase(at)].phys; var ram2 := ram[p := Patch(ram[p], at % 4096, d)];
      View(pages, ram2, a) == if at <= a < at + |d| then d[a - at] as int else View(pages, ram, a)
  {
    if PageBase(a) != PageBase(at) { OtherPage(a, at); } else { SamePage(a, at); }
  }

  lemma OtherPage(a: nat, at: nat)
    requires PageBase(a) != PageBase(at)
    ensures a < PageBase(at) || a >= PageBase(at) + 4096
  {
  }

  lemma SamePage(a: nat, at: nat)
    requires PageBase(a) == PageBase(at)
    ensures a - at == a % 4096 - at % 4096
  {
  }

  /** What one space stores is invisible to a space on other frames. */
  lemma Isolated(pages: map<nat, VmPage>, others: map<nat, VmPage>, ram: map<nat, seq<Byte>>, ram1: map<nat, seq<Byte>>,
      vaddr: nat, bytes: seq<Byte>, n: nat, a: nat)
    requires ByteStore(pages, ram, ram1, vaddr, bytes, n) && DisjointFrames(pages, others)
    ensures View(others, ram1, a) == View(others, ram, a)
  {
    var q := PageBase(a);
    if q in others && others[q].phys in ram { assert forall r :: r in pages ==> pages[r].phys != others[q].phys; }
  }

  /** A copied page reads the same through both spaces. */
  lemma CopyReadsSame(pages: map<nat, VmPage>, copy: map<nat, VmPage>, ram: map<nat, seq<Byte>>, a: nat)
    requires Copied(pages, copy, ram, pages.Keys)
    ensures View(copy, ram, a) == View(pages, ram, a)
  {
    assert PageBase(a) in copy <==> PageBase(a) in pages;
  }

  // ---- the walk inside a page ----

  lemma SameIdx(va: nat, level: nat)
    requires level <= 3
    ensures Idx(va, level) == Idx(PageBase(va), level) && PageBase(va) % Span(level) + va % 4096 == va % Span(level)
  {
    if level == 0 {
      SameIndex(va, 4096, 1);
    } else if level == 1 {
      SameIndex(va, 2097152, 512);
    } else if level == 2 {
      SameIndex(va, 1073741824, 262144);
    } else {
      SameIndex(va, 549755813888, 134217728);
    }
  }

  lemma SameIndex(va: nat, d: nat, k: nat)
    requires d == 4096 * k && k > 0
    ensures va / d == PageBase(va) / d && PageBase(va) % d + va % 4096 == va % d
  {
    var p := va / 4096;
    QuotRem(va, 4096);
    QuotRem(p, k);
    var q, r := p / k, p % k;
    assert va == q * d + (4096 * r + va % 4096);
    assert 4096 * r + va % 4096 < d by { Grow(r, k - 1, 4096); }
    ModUnique(va, d, q, 4096 * r + va % 4096);
    ModUnique(PageBase(va), d, q, 4096 * r);
  }

  lemma {:induction false} LookInPage(t: PT, page: nat, level: nat, va: nat)
    requires level <= 3
    ensures Look(t, page, level, va) == match Look(t, page, level, PageBase(va)) case Unmapped => Unmapped case Mapped(p, f, lv) => Mapped(p + va % 4096, f, lv)
    decreases level
  {
    hide Idx, Decode;
    SameIdx(va, level);
    match EntryAt(t, page, level, Idx(va, level)) {
      case Table(x) => if level > 0 { LookInPage(t, x, level - 1, va); }
      case _ =>
    }
  }

  lemma UserWalk(t: PT, walk: map<nat, VmPage>, limit: nat, va: nat)
    requires Inv(t) && Agree(t, walk, limit)
    ensures PageBase(va) in walk ==>
              FlatAt(t, va) == Page(walk[PageBase(va)].phys + va % 4096, t.c.norm(walk[PageBase(va)].flags))
    ensures va < limit && PageBase(va) !in walk ==> FlatAt(t, va) == NoPage
  {
    CodecOf(t);
    hide Inv, Look, CodecOk;
    LookInPage(t, t.root, t.top, va);
  }
}
