/** All user address spaces over one memory and one frame allocator: what one does stays invisible to the others. */
module Processes {
  import opened Bytes
  import opened PageTable
  import opened PageCount
  import opened PageMap
  import opened VirtualMemory

  /** What a step of `a` may do: its frames and the free ones are exchanged and written, nothing else. */
  twostate predicate Confined(a: AddressSpace)
    reads a, a.pt, a.pt.pool, a.ram
  {
    a.Valid() && a.Reach() <= old(a.Reach()) && RamKept(old(a.ram.bytes), a.ram.bytes, old(a.Reach()))
  }

  twostate predicate Still(a: AddressSpace)
    reads a, a.pt
  {
    unchanged(a) && unchanged(a.pt)
  }

  /** Two spaces over the same memory and pool, on different frames. */
  ghost predicate Beside(a: AddressSpace, b: AddressSpace)
    reads a, a.pt, b, b.pt
  {
    a != b && a.pt != b.pt && a.pt.pool == b.pt.pool && a.ram == b.ram && a.Held() !! b.Held()
  }

  /** Free frames are whole pages of memory. */
  ghost predicate PoolReady(free: set<nat>, ram: map<nat, seq<Byte>>) {
    forall f :: f in free ==> TableAddress(f) && f in ram && |ram[f]| == 4096
  }

  /** The user bytes of a space. */
  ghost predicate SeesSame(pages: map<nat, VmPage>, ram: map<nat, seq<Byte>>, ram1: map<nat, seq<Byte>>) {
    forall a: nat :: View(pages, ram1, a) == View(pages, ram, a)
  }

  /** What others do within `reach` does not show on other frames. */
  lemma SeesKept(pages: map<nat, VmPage>, ram: map<nat, seq<Byte>>, ram1: map<nat, seq<Byte>>, reach: set<nat>)
    requires RamKept(ram, ram1, reach) && FramesIn(pages) !! reach && FramesOk(pages, ram)
    ensures SeesSame(pages, ram, ram1)
  {
    forall a: nat ensures View(pages, ram1, a) == View(pages, ram, a) {
      if PageBase(a) in pages { assert pages[PageBase(a)].phys in FramesIn(pages); }
    }
  }

  /** The frames within reach of `a` are its own and the free ones, and are not those of the spaces beside it. */
  lemma Apart(a: AddressSpace, b: AddressSpace)
    requires a.Valid() && b.Valid() && Beside(a, b)
    ensures b.Held() !! a.Reach()
  {
    hide AddressSpace.Valid, AddressSpace.Held, AddressSpace.Reach;
    a.HeldReach();
    b.HeldApart();
  }

  /** A step of space `i`, which could reach these frames, seen from space `j`. */
  datatype Step = Step(i: nat, j: nat, reach: set<nat>)

  /** Every process's memory. */
  class Processes {
    const pool: FramePool
    const ram: Ram
    var spaces: seq<AddressSpace>

    ghost function Objects(): set<object>
      reads this
    {
      (set i | 0 <= i < |spaces| :: spaces[i]) + set i | 0 <= i < |spaces| :: spaces[i].pt
    }

    /** All spaces are valid, over this memory and pool, and no two share a frame. */
    ghost predicate Valid()
      reads this, Objects(), pool, ram
    {
      && PoolReady(pool.free, ram.bytes)
      && (forall i :: 0 <= i < |spaces| ==> spaces[i].pt.pool == pool && spaces[i].ram == ram && spaces[i].limit < U64)
      && (forall i :: 0 <= i < |spaces| ==> spaces[i].Valid())
      && (forall i, j :: 0 <= i < |spaces| && 0 <= j < |spaces| && i != j ==> Beside(spaces[i], spaces[j]))
    }

    /** The spaces other than `i` have the same pages and see the same bytes. */
    twostate predicate OthersSame(i: nat)
      reads this, Objects(), ram
    {
      && spaces == old(spaces)
      && forall j :: 0 <= j < |spaces| && j != i ==>
           old(allocated(spaces[j])) && spaces[j].pages == old(spaces[j].pages) && spaces[j].walk == old(spaces[j].walk)
           && SeesSame(spaces[j].pages, old(ram.bytes), ram.bytes)
    }

    constructor (frames: FramePool, memory: Ram)
      requires PoolReady(frames.free, memory.bytes)
      ensures Valid() && pool == frames && ram == memory && spaces == []
    {
      pool, ram, spaces := frames, memory, [];
    }

    /** None of the spaces beside `i` has a frame within its reach. */
    lemma AllApart(i: nat)
      requires Valid() && i < |spaces|
      ensures forall j :: 0 <= j < |spaces| && j != i ==> spaces[j].Held() !! spaces[i].Reach()
    {
      hide AddressSpace.Valid, AddressSpace.Held, AddressSpace.Reach;
      forall j | 0 <= j < |spaces| && j != i ensures spaces[j].Held() !! spaces[i].Reach() { Apart(spaces[i], spaces[j]); }
    }

    lemma AllHeldApart()
      requires Valid()
      ensures forall j :: 0 <= j < |spaces| ==> spaces[j].Held() !! pool.free
    {
      hide AddressSpace.Valid, AddressSpace.Held;
      forall j | 0 <= j < |spaces| ensures spaces[j].Held() !! pool.free { spaces[j].HeldApart(); }
    }

    /** Frames `o` of the pool were taken and written: no space notices. */
    twostate lemma Taken(o: set<nat>)
      requires old(Valid()) && spaces == old(spaces) && o == old(pool.free) && pool.free <= o
      requires PoolReady(pool.free, ram.bytes)
      requires RamKept(old(ram.bytes), ram.bytes, o)
      requires forall j :: 0 <= j < |spaces| ==> Still(spaces[j]) && old(spaces[j].Held()) !! o
      ensures Valid()
      ensures forall j :: 0 <= j < |spaces| ==>
                SeesSame(spaces[j].pages, old(ram.bytes), ram.bytes) && spaces[j].Held() == old(spaces[j].Held())
    {
      hide AddressSpace.Tables, PagesOk, TableAddress, SeesSame, AddrSpace.Owned, AddrSpace.Mine, RamKept, PoolReady;
      forall j | 0 <= j < |spaces|
        ensures spaces[j].Valid() && SeesSame(spaces[j].pages, old(ram.bytes), ram.bytes)
        ensures spaces[j].Held() == old(spaces[j].Held())
      {
        var b := spaces[j];
        b.LessValid(o);
        SeesKept(b.pages, old(ram.bytes), ram.bytes, o);
      }
    }

    /** A space on other frames fits in. */
    lemma AddSpace(child: AddressSpace, o: set<nat>)
      requires Valid() && child.Valid() && child.pt.pool == pool && child.ram == ram && child.limit < U64
      requires child.Held() <= o
      requires forall j :: 0 <= j < |spaces| ==> spaces[j] != child && spaces[j].pt != child.pt && spaces[j].Held() !! o
      ensures forall j :: 0 <= j < |spaces| ==> Beside(spaces[j], child) && Beside(child, spaces[j])
    {
      hide AddressSpace.Valid, AddressSpace.Held;
    }

    twostate lemma OtherDone(s: Step)
      requires s.i < |spaces| && s.j < |spaces| && s.i != s.j && spaces == old(spaces)
      requires old(Valid())
      requires Confined(spaces[s.i])
      requires s.reach == old(spaces[s.i].Reach()) && old(spaces[s.j].Held()) !! s.reach
      requires Still(spaces[s.j])
      ensures spaces[s.j].Valid() && Beside(spaces[s.i], spaces[s.j]) && Beside(spaces[s.j], spaces[s.i])
      ensures SeesSame(spaces[s.j].pages, old(ram.bytes), ram.bytes) && spaces[s.j].Held() == old(spaces[s.j].Held())
    {
      hide AddressSpace.Tables, PagesOk, TableAddress, SeesSame, AddrSpace.Owned, AddrSpace.Mine;
      spaces[s.i].HeldReach();
      spaces[s.i].PoolFacts();
      var b := spaces[s.j];
      b.KeptValid();
      SeesKept(b.pages, old(ram.bytes), ram.bytes, s.reach);
    }

    /** A step confined to space `i` keeps everything valid and the other spaces as they were. */
    twostate lemma StepDone(s: Step)
      requires s.i < |spaces| && spaces == old(spaces)
      requires old(Valid())
      requires Confined(spaces[s.i]) && spaces[s.i].Valid()
      requires s.reach == old(spaces[s.i].Reach())
      requires forall j :: 0 <= j < |spaces| && j != s.i ==> Still(spaces[j]) && old(spaces[j].Held()) !! s.reach
      ensures Valid() && OthersSame(s.i)
    {
      hide AddressSpace.Valid, AddressSpace.Reach, AddressSpace.Held, SeesSame, RamKept, Confined;
      spaces[s.i].PoolFacts();
      forall j | 0 <= j < |spaces| && j != s.i
        ensures spaces[j].Valid() && Beside(spaces[s.i], spaces[j]) && Beside(spaces[j], spaces[s.i])
        ensures SeesSame(spaces[j].pages, old(ram.bytes), ram.bytes) && spaces[j].Held() == old(spaces[j].Held())
      {
        OtherDone(s.(j := j));
      }
    }

    /** A process without memory yet, over a new root table. */
    method Spawn(codec: Codec, levels: nat, limit: nat) returns (r: Outcome<nat>)
      requires Valid() && CodecOk(codec) && 2 <= levels <= 4 && limit % 4096 == 0 && limit <= Span(levels)
      requires limit < U64
      modifies this, pool
      ensures Valid() && old(spaces) <= spaces && |spaces| <= |old(spaces)| + 1
      ensures r.Ok? <==> old(pool.free) != {}
      ensures r.Ok? ==> r.value == |old(spaces)| < |spaces| && spaces[r.value].pages == spaces[r.value].walk == map[]
    {
      hide AddressSpace.Valid, AddressSpace.Held, SeesSame, RamKept, CodecOk, PoolReady;
      AllHeldApart();
      ghost var o := pool.free;
      RamKeptRefl(ram.bytes, o);
      if pool.free == {} { return Err(OutOfMemory); }
      var root :| root in pool.free;
      pool.free := pool.free - {root};
      PoolLeft(o, pool.free, ram.bytes, ram.bytes);
      PoolPage(o, ram.bytes, root);
      Taken(o);
      var child := NewSpace(codec, levels, root, limit);
      AddSpace(child, o);
      spaces := spaces + [child];
      r := Ok(|spaces| - 1);
    }

    method NewSpace(codec: Codec, levels: nat, root: nat, limit: nat) returns (child: AddressSpace)
      requires CodecOk(codec) && 2 <= levels <= 4 && limit % 4096 == 0 && limit <= Span(levels)
      requires PoolReady(pool.free, ram.bytes) && TableAddress(root) && root in ram.bytes && |ram.bytes[root]| == 4096
      requires root !in pool.free
      ensures fresh(child) && fresh(child.pt) && child.Valid() && child.pt.pool == pool && child.ram == ram
      ensures child.limit == limit
      ensures child.pages == child.walk == map[] && child.Held() == {root}
    {
      hide CodecOk, Translate, Inv, MetaOk;
      var table := new AddrSpace(codec, levels, root, pool);
      child := new AddressSpace(table, ram, limit);
    }

    /** The operations of one process: each keeps all spaces valid and apart, and what the others see. */
    method MapZeroed(i: nat, vaddr: nat, flags: Flags) returns (r: Outcome<nat>)
      requires Valid() && i < |spaces|
      modifies spaces[i], spaces[i].pt, pool, ram
      ensures r.Ok? <==>
                && vaddr % 4096 == 0 && vaddr < spaces[i].limit && flags.u && vaddr !in old(spaces[i].pages)
                && vaddr !in old(spaces[i].walk) && 1 + old(spaces[i].Lacking({vaddr})) <= |old(pool.free)|
      ensures spaces[i].pages ==
              if r.Ok? then old(spaces[i].pages)[vaddr := VmPage(r.value, flags)] else old(spaces[i].pages)
      ensures Valid() && OthersSame(i)
    {
      hide AddressSpace.Valid, AddressSpace.Reach, AddressSpace.Held, SeesSame, RamKept, PoolReady, Missing;
      AllApart(i);
      ghost var reach := spaces[i].Reach();
      r := spaces[i].MapZeroed(vaddr, flags);
      StepDone(Step(i, 0, reach));
    }

    method ReplaceZeroed(i: nat, start: nat, length: nat, flags: Flags) returns (r: Outcome<()>)
      requires Valid() && i < |spaces|
      modifies spaces[i], spaces[i].pt, pool, ram
      ensures r.Ok? <==>
                && spaces[i].PageRange(start, length, flags)
                && Replaceable(spaces[i].pt.c, old(spaces[i].pages), old(spaces[i].walk), start, start + length)
                && length / 4096 + old(spaces[i].Lacking(PagesFrom(start, length / 4096))) <= |old(pool.free)|
      ensures r.Ok? ==> Refreshed(spaces[i].pt.c, old(spaces[i].pages), old(spaces[i].walk), spaces[i].pages, spaces[i].walk,
                start, start + length, flags, old(pool.free), ram.bytes)
      ensures r.Err? ==> spaces[i].pages == old(spaces[i].pages)
      ensures Valid() && OthersSame(i)
    {
      hide AddressSpace.Valid, AddressSpace.Reach, AddressSpace.Held, SeesSame, RamKept, PoolReady, Missing;
      AllApart(i);
      ghost var reach := spaces[i].Reach();
      r := spaces[i].ReplaceZeroed(start, length, flags);
      StepDone(Step(i, 0, reach));
    }

    method ProtectRange(i: nat, start: nat, length: nat, flags: Flags) returns (r: Outcome<()>)
      requires Valid() && i < |spaces|
      modifies spaces[i], spaces[i].pt, pool
      ensures r.Ok? <==>
                spaces[i].PageRange(start, length, flags) && forall va :: start <= va < start + length && va % 4096 == 0 ==>
                  va in old(spaces[i].pages) && va in old(spaces[i].walk) && spaces[i].pt.c.mappable(old(spaces[i].walk)[va].flags)
      ensures r.Ok? ==> Protected(spaces[i].pt.c, old(spaces[i].pages), old(spaces[i].walk), spaces[i].pages, spaces[i].walk,
                start, start + length, flags)
      ensures r.Err? ==> spaces[i].pages == old(spaces[i].pages)
      ensures Valid() && OthersSame(i)
    {
      hide AddressSpace.Valid, AddressSpace.Reach, AddressSpace.Held, SeesSame, RamKept, PoolReady, Missing;
      AllApart(i);
      ghost var reach := spaces[i].Reach();
      RamKeptRefl(ram.bytes, reach);
      r := spaces[i].ProtectRange(start, length, flags);
      StepDone(Step(i, 0, reach));
    }

    method UnmapRange(i: nat, start: nat, length: nat) returns (r: Outcome<()>)
      requires Valid() && i < |spaces|
      modifies spaces[i], spaces[i].pt, pool
      ensures r.Ok? <==>
                && start % 4096 == 0 && start + length < U64
                && forall va :: va in old(spaces[i].pages) && start <= va < start + length ==> va in old(spaces[i].walk)
      ensures spaces[i].pages ==
              if r.Ok? then Outside(old(spaces[i].pages), start, start + length) else old(spaces[i].pages)
      ensures Valid() && OthersSame(i)
    {
      hide AddressSpace.Valid, AddressSpace.Reach, AddressSpace.Held, SeesSame, RamKept, PoolReady, Missing;
      AllApart(i);
      ghost var reach := spaces[i].Reach();
      RamKeptRefl(ram.bytes, reach);
      r := spaces[i].UnmapRange(start, length);
      StepDone(Step(i, 0, reach));
    }

    /** A store, by the process or on its behalf, changes exactly the bytes it names, for this process only. */
    method Store(i: nat, vaddr: nat, bytes: seq<Byte>, write: bool) returns (r: Outcome<()>)
      requires Valid() && i < |spaces|
      modifies ram
      ensures Valid() && OthersSame(i) && spaces[i].pages == old(spaces[i].pages)
      ensures r.Ok? <==> RangeOk(spaces[i].pages, spaces[i].limit, vaddr, |bytes|, write)
      ensures ByteStore(spaces[i].pages, old(ram.bytes), ram.bytes, vaddr, bytes, if r.Ok? then |bytes| else 0)
    {
      hide AddressSpace.Valid, AddressSpace.Held, SeesSame, RamKept, PoolReady, ByteStore, FramesIn;
      AllApart(i);
      ghost var reach := spaces[i].Reach();
      r := spaces[i].Store(vaddr, bytes, write);
      RamKeptMore(old(ram.bytes), ram.bytes, FramesIn(spaces[i].pages), reach);
      StepDone(Step(i, 0, reach));
    }

    /** A new process: its memory reads as the parent's does, on frames that nobody had. */
    method Fork(i: nat) returns (r: Outcome<nat>)
      requires Valid() && i < |spaces|
      modifies this, pool, ram
      ensures Valid() && old(spaces) <= spaces && |spaces| <= |old(spaces)| + 1
      ensures forall j :: 0 <= j < |old(spaces)| ==>
                spaces[j].pages == old(spaces[j].pages) && SeesSame(spaces[j].pages, old(ram.bytes), ram.bytes)
      ensures r.Ok? <==>
                1 + |old(spaces[i].pages)| + |Ways(old(spaces)[i].pt.top, old(spaces[i].pages).Keys) - {(old(spaces)[i].pt.top, 0)}| <= |old(pool.free)|
      ensures r.Ok? ==> r.value == |old(spaces)| < |spaces| && spaces[r.value].pages == spaces[r.value].walk
      ensures r.Ok? ==> Copied(spaces[i].pages, spaces[r.value].pages, ram.bytes, spaces[i].pages.Keys)
    {
      hide AddressSpace.Valid, AddressSpace.Reach, AddressSpace.Held, SeesSame, RamKept, PoolReady, Copied;
      AllHeldApart();
      ghost var o := pool.free;
      var child := spaces[i].Fork();
      PoolLeft(o, pool.free, old(ram.bytes), ram.bytes);
      Taken(o);
      if child.Err? { return Err(child.error); }
      AddSpace(child.value, o);
      spaces := spaces + [child.value];
      r := Ok(|spaces| - 1);
    }
  }

  lemma RamKeptMore(ram: map<nat, seq<Byte>>, ram1: map<nat, seq<Byte>>, o: set<nat>, o1: set<nat>)
    requires RamKept(ram, ram1, o) && o <= o1
    ensures RamKept(ram, ram1, o1)
  {
  }

  lemma PoolPage(free: set<nat>, ram: map<nat, seq<Byte>>, f: nat)
    requires PoolReady(free, ram) && f in free
    ensures TableAddress(f) && f in ram && |ram[f]| == 4096
  {
  }

  lemma PoolLeft(free: set<nat>, free1: set<nat>, ram: map<nat, seq<Byte>>, ram1: map<nat, seq<Byte>>)
    requires PoolReady(free, ram) && free1 <= free && RamKept(ram, ram1, free)
    ensures PoolReady(free1, ram1)
  {
  }
}
