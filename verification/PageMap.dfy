/** The page-table engine: table words, per-entry metadata, the frame pool and the lock set of one
    transaction, changed in place. */
module PageMap {
  import opened PageTable
  import opened PageUnmap
  import opened PageCount

  /** Per-entry metadata: only explicit mappings are recorded. */
  datatype Status = Invalid | MappedAt(phys: nat, flags: Flags, granularity: nat)

  datatype MapError = OutOfMemory | BlockedByExistingMapping | Unsupported

  datatype Outcome<+T> = Ok(value: T) | Err(error: MapError)

  datatype Frame = NoFrame | Got(frame: nat)

  function StatusOf(meta: map<nat, seq<Status>>, page: nat, i: nat): Status {
    if page in meta && i < |meta[page]| then meta[page][i] else Invalid
  }

  /** An entry recorded as mapped is a leaf that says the same. */
  predicate StatusOk(t: PT, meta: map<nat, seq<Status>>, page: nat, i: nat) {
    page in t.lvl ==>
      match StatusOf(meta, page, i)
      case Invalid => true
      case MappedAt(p, f, g) => EntryAt(t, page, t.lvl[page], i) == Leaf(t.c.held(p, t.lvl[page]), t.c.norm(f)) && g == Span(t.lvl[page])
  }

  ghost predicate MetaOk(t: PT, meta: map<nat, seq<Status>>) {
    && (forall page :: page in meta ==> |meta[page]| == ENTRIES)
    && (forall page, i :: 0 <= i < ENTRIES ==> StatusOk(t, meta, page, i))
  }

  /** The page of `va` was mapped explicitly: the table of pages that covers it records so. */
  ghost predicate Explicit(t: PT, meta: map<nat, seq<Status>>, va: nat) {
    exists b :: Records(t, meta, b, va)
  }

  /** The table of this level that covers `va` records an explicit mapping. */
  ghost predicate ExplicitAt(t: PT, meta: map<nat, seq<Status>>, va: nat, level: nat) {
    exists b :: b in t.lvl && t.lvl[b] == level && Covers(t, b, va) && StatusOf(meta, b, Idx(va, level)) != Invalid
  }

  lemma RecordedHere(t: PT, meta: map<nat, seq<Status>>, b: nat, va: nat)
    requires b in t.lvl && Covers(t, b, va) && StatusOf(meta, b, Idx(va, t.lvl[b])) != Invalid
    ensures ExplicitAt(t, meta, va, t.lvl[b])
  {
  }

  predicate Records(t: PT, meta: map<nat, seq<Status>>, b: nat, va: nat) {
    b in t.lvl && t.lvl[b] == 0 && Covers(t, b, va) && StatusOf(meta, b, Idx(va, 0)) != Invalid
  }

  /** Explicit mappings stay, but for those that unmapping `[s, e)` removes. */
  ghost predicate StayTo(t0: PT, meta0: map<nat, seq<Status>>, t: PT, meta: map<nat, seq<Status>>, s: nat, e: nat) {
    forall va: nat :: Explicit(t0, meta0, va) && !Gone(t0, va, s, e) ==> Explicit(t, meta, va)
  }

  ghost predicate Stay(t0: PT, meta0: map<nat, seq<Status>>, t: PT, meta: map<nat, seq<Status>>) {
    forall va: nat :: Explicit(t0, meta0, va) ==> Explicit(t, meta, va)
  }

  /** Free frames are no tables and carry no metadata. */
  ghost predicate PoolOk(t: PT, meta: map<nat, seq<Status>>, free: set<nat>) {
    forall f :: f in free ==> TableAddress(f) && f !in t.lvl && f !in meta
  }

  /** No free frame is locked. */
  ghost predicate LocksOk(free: set<nat>, locked: seq<nat>) { forall k :: 0 <= k < |locked| ==> locked[k] !in free }

  /** The leaf that covers `va`, if larger than the target, can be split exactly. */
  ghost predicate SplitReady(t: PT, page: nat, level: nat, va: nat, target: nat) {
    match Look(t, page, level, va)
    case Mapped(p, _, lv) => lv > target && va % Span(lv) <= p ==> CanSplit(t.c, p - va % Span(lv), lv)
    case Unmapped => true
  }

  /** The frames the allocator can hand out. */
  class FramePool {
    var free: set<nat>

    constructor (frames: set<nat>)
      ensures free == frames
    {
      free := frames;
    }
  }

  class AddrSpace {
    const c: Codec
    const top: nat
    const root: nat
    var mem: map<nat, seq<nat>>          // the words of table pages
    var meta: map<nat, seq<Status>>      // metadata arrays, allocated on demand
    const pool: FramePool                // the frame allocator, shared with other spaces
    var locked: seq<nat>                 // table pages locked by the transaction
    ghost var lvl: map<nat, nat>
    ghost var base: map<nat, nat>
    ghost var parent: map<nat, (nat, nat)>

    ghost function T(): PT reads this { PT(c, top, root, mem, lvl, base, parent) }

    ghost predicate Valid() reads this, pool {
      Inv(T()) && MetaOk(T(), meta) && PoolOk(T(), meta, pool.free) && LocksOk(pool.free, locked)
    }

    /** The frames of this space: tables, metadata and locks. */
    ghost function Mine(): set<nat> reads this { lvl.Keys + meta.Keys + set x | x in locked }

    /** Every frame the engine may touch: tables, metadata, locks and the pool. */
    ghost function Owned(): set<nat> reads this, pool { Mine() + pool.free }

    /** A fresh, empty root table. */
    constructor (codec: Codec, levels: nat, rootPage: nat, frames: FramePool)
      requires CodecOk(codec) && 2 <= levels <= 4 && TableAddress(rootPage) && rootPage !in frames.free
      requires forall f :: f in frames.free ==> TableAddress(f)
      ensures Valid() && c == codec && top == levels - 1 && root == rootPage && pool == frames && Mine() == {rootPage}
      ensures lvl == map[rootPage := levels - 1] && base == map[rootPage := 0]
      ensures forall va: nat :: Translate(T(), va) == Unmapped
    {
      c, top, root, pool := codec, levels - 1, rootPage, frames;
      mem := map[rootPage := seq(ENTRIES, _ => 0)];
      meta, locked := map[], [];
      lvl, base, parent := map[rootPage := levels - 1], map[rootPage := 0], map[];
      new;
      EmptyRoot(T());
    }

    method AllocFrame() returns (r: Frame)
      modifies pool
      ensures r.Got? ==> r.frame in old(pool.free) && pool.free == old(pool.free) - {r.frame} && r.frame in old(Owned())
      ensures Owned() <= old(Owned())
      ensures r.NoFrame? ==> old(pool.free) == {} && pool.free == old(pool.free)
    {
      if pool.free == {} { return NoFrame; }
      var f :| f in pool.free;
      pool.free := pool.free - {f};
      r := Got(f);
    }

    method SetStatus(page: nat, i: nat, status: Status)
      requires i < ENTRIES && (page in meta ==> |meta[page]| == ENTRIES)
      modifies this`meta
      ensures meta.Keys == old(meta).Keys + {page} && |meta[page]| == ENTRIES && Owned() <= old(Owned()) + {page}
      ensures forall x :: x in meta && x != page ==> meta[x] == old(meta)[x]
      ensures forall j: nat :: j < ENTRIES ==>
                StatusOf(meta, page, j) == if j == i then status else StatusOf(old(meta), page, j)
    {
      if page !in meta { meta := meta[page := seq(ENTRIES, _ => Invalid)]; }
      meta := meta[page := meta[page][i := status]];
    }

    /** Give a frame that is not part of the tables back to the pool. */
    method FreeFrame(f: nat)
      requires Valid() && TableAddress(f) && f !in Owned()
      modifies pool
      ensures Valid() && pool.free == old(pool.free) + {f} && Owned() == old(Owned()) + {f}
    {
      pool.free := pool.free + {f};
    }

    /** End the transaction: all locks are released. */
    method DropLocks()
      requires Valid()
      modifies this`locked
      ensures Valid() && locked == [] && Owned() <= old(Owned())
    {
      locked := [];
    }

    /** A frame taken from the pool is no longer the engine's. */
    lemma FrameApart(f: nat)
      requires Valid() && f in pool.free
      ensures TableAddress(f) && f !in lvl && f !in meta && f !in locked
    {
    }

    lemma TablesApart()
      requires Valid()
      ensures pool.free !! lvl.Keys
    {
    }

    lemma OwnsPool()
      ensures pool.free <= Owned() && Mine() <= Owned()
    {
    }

    lemma OwnsTable(x: nat)
      requires x in lvl
      ensures x in Owned()
    {
    }

    method LockPage(page: nat)
      modifies this`locked
      ensures forall k :: 0 <= k < |locked| ==> locked[k] == page || locked[k] in old(locked)
      ensures page in locked && Owned() <= old(Owned()) + {page}
    {
      if page !in locked { locked := locked + [page]; }
    }

    /** Hang the prepared table `x` behind entry `i` of `page`. */
    method HangTable(page: nat, i: nat, x: nat, words: seq<nat>)
      requires Valid() && FreshTable(T(), page, i, x, words) && StatusOf(meta, page, i) == Invalid && x !in meta
      requires x !in pool.free
      modifies this`mem, this`locked, this`lvl, this`base, this`parent
      ensures Valid() && T() == AddTable(old(T()), page, i, x, words)
      ensures Owned() <= old(Owned()) + {x}
    {
      hide Inv, CodecOk, MetaOk, PoolOk, LocksOk, Span, Off, FreshTable, StatusOf;
      ghost var t := T();
      FreshFacts(t, page, i, x, words);
      AddInv(t, page, i, x, words);
      MetaAdd(t, meta, pool.free, page, i, x, words);
      WriteTable(page, i, x, words);
      LockPage(x);
      LocksMore(pool.free, old(locked), locked, x);
    }

    method WriteTable(page: nat, i: nat, x: nat, words: seq<nat>)
      requires page in lvl && lvl[page] >= 1 && page in mem && page in base && i < |mem[page]|
      modifies this`mem, this`lvl, this`base, this`parent
      ensures T() == AddTable(old(T()), page, i, x, words)
    {
      mem := mem[x := words][page := mem[page]];
      var table: seq<nat> := mem[page][i := c.table(x)];
      mem := mem[page := table];
      base, lvl, parent := base[x := base[page] + Off(i, lvl[page])], lvl[x := lvl[page] - 1], parent[x := (page, i)];
    }

    /** Replace the leaf at entry `i` of `page` by a table of leaves with the same flags. */
    method SplitLeaf(page: nat, i: nat, level: nat, ghost va: nat, ghost target: nat) returns (r: Outcome<nat>)
      requires Valid() && At(T(), page, level, va) && i == Idx(va, level) && level > target
      requires page in mem && |mem[page]| == ENTRIES && EntryAt(T(), page, level, i).Leaf?
      modifies this`mem, this`meta, pool, this`locked, this`lvl, this`base, this`parent
      ensures Valid() && Owned() <= old(Owned())
      ensures SplitReady(old(T()), page, level, va, target) ==> SameView(old(T()), T())
      ensures r.Ok? ==> r.value in old(pool.free) && Step(old(T()), T(), page, r.value, level, va, target)
      ensures Stay(old(T()), old(meta), T(), meta) && Stay(T(), meta, old(T()), old(meta))
      ensures WalkedTo(old(T()), old(pool.free), T(), pool.free, va, target)
      ensures r.Err? ==> T() == old(T()) && old(pool.free) == {} == pool.free && r.error == OutOfMemory
    {
      hide Inv, CodecOk, MetaOk, PoolOk, LocksOk, Span, Off, SameView, FreshTable, CanSplit, At, Step, SplitReady;
      hide Stay, Explicit, Idx, Covers, Owned, WalkedTo;
      ghost var t := T();
      SameViewRefl(t);
      StayRefl(t, meta);
      WalkedRefl(t, pool.free, va, target);
      var old_entry := mem[page][i];
      var p, f := c.phys(old_entry, level), c.flags(old_entry);
      AtPage(t, page, level, va);
      AtLeaf(t, page, level, va, target, p, f);
      var child := AllocFrame();
      PoolLess(t, meta, old(pool.free), pool.free);
      LocksLess(old(pool.free), pool.free, locked);
      if child.NoFrame? { return Err(OutOfMemory); }
      PoolFrame(t, meta, old(pool.free), child.frame);
      var words := LeafWords(p, f, level);
      SplitView(t, page, i, child.frame, words, p, f);
      MetaSize(t, meta, page);
      OwnsTable(page);
      SetStatus(page, i, Invalid);
      MetaClear(t, old(meta), meta, pool.free, page, i);
      ghost var meta1 := meta;
      HangTable(page, i, child.frame, words);
      StayAdded(t, old(meta), meta1, page, i, child.frame, words);
      AddedPlace(t, page, child.frame, va, words, old(pool.free), target);
      AtSplit(t, page, level, va, target, child.frame, words, p, f);
      r := Ok(child.frame);
    }

    /** One step towards the target level: into the next table, creating it or splitting a larger leaf. */
    method Descend(page: nat, level: nat, va: nat, ghost target: nat) returns (r: Outcome<nat>)
      requires Valid() && At(T(), page, level, va) && level > target
      modifies this`mem, this`meta, pool, this`locked, this`lvl, this`base, this`parent
      ensures Valid() && Owned() <= old(Owned())
      ensures SplitReady(old(T()), page, level, va, target) ==> SameView(old(T()), T())
      ensures r.Ok? ==> Step(old(T()), T(), page, r.value, level, va, target)
      ensures Stay(old(T()), old(meta), T(), meta) && (Explicit(old(T()), old(meta), va) ==> r.Ok?)
      ensures Stay(T(), meta, old(T()), old(meta)) && WalkedTo(old(T()), old(pool.free), T(), pool.free, va, target)
      ensures r.Err? ==> T() == old(T()) && old(pool.free) == {} == pool.free && r.error == OutOfMemory
      ensures r.Err? ==> PlaceFor(level - 1, va) !in Places(T())
    {
      hide Inv, CodecOk, MetaOk, PoolOk, LocksOk, Span, Off, SameView, FreshTable, CanSplit, At, Step, SplitReady;
      hide Stay, Explicit, Idx, Covers, Owned, WalkedTo;
      ghost var t := T();
      SameViewRefl(t);
      StayRefl(t, meta);
      WalkedRefl(t, pool.free, va, target);
      AtPage(t, page, level, va);
      var i := Idx(va, level);
      var entry := mem[page][i];
      ExplicitTable(t, meta, page, va);
      if !IsTable(t, page, i) { NoPlace(t, page, va); }
      if !c.present(entry) {
        var child := AllocFrame();
        PoolLess(t, meta, old(pool.free), pool.free);
        LocksLess(old(pool.free), pool.free, locked);
        if child.NoFrame? { return Err(OutOfMemory); }
        PoolFrame(t, meta, old(pool.free), child.frame);
        var words: seq<nat> := seq(ENTRIES, _ => 0);
        EmptyFresh(t, page, i, child.frame, words);
        AbsentStatus(t, meta, page, i);
        HangTable(page, i, child.frame, words);
        StayAdded(t, meta, meta, page, i, child.frame, words);
        AddedPlace(t, page, child.frame, va, words, old(pool.free), target);
        AtEmpty(t, page, level, va, target, child.frame, words);
        return Ok(child.frame);
      }
      if c.isLeaf(entry, level) {
        r := SplitLeaf(page, i, level, va, target);
        return;
      }
      var x := c.phys(entry, level);
      AtNext(t, page, level, va, target, x);
      PoolTable(t, meta, pool.free, x);
      OwnsTable(x);
      LockPage(x);
      LocksMore(pool.free, old(locked), locked, x);
      r := Ok(x);
    }

    /** Write the leaf at the target level, unless an explicit mapping is recorded there. */
    method PutLeaf(page: nat, level: nat, va: nat, phys: nat, flags: Flags) returns (r: Outcome<()>)
      requires Valid() && page in lvl && lvl[page] == level <= 1 && Covers(T(), page, va) && va % Span(level) == 0
      requires LeafAddress(phys, level) && (level == 0 || c.mappable(flags))
      modifies this`mem, this`meta, this`lvl, this`base, this`parent
      ensures Valid() && Owned() <= old(Owned())
      ensures r.Ok? ==> Remapped(old(T()), T(), va, level, c.held(phys, level), c.norm(flags))
      ensures r.Err? ==> T() == old(T()) && meta == old(meta) && r.error == BlockedByExistingMapping
      ensures r.Err? <==> StatusOf(old(meta), page, Idx(va, level)) != Invalid
      ensures level == 0 ==> Stay(old(T()), old(meta), T(), meta) && (r.Err? <==> Explicit(old(T()), old(meta), va)) && Explicit(T(), meta, va)
      ensures level == 0 ==> lvl == old(lvl) && base == old(base)
    {
      hide Inv, CodecOk, MetaOk, PoolOk, LocksOk, Span, Off, Remapped, Idx, Covers, LeafAddress, LeafWritten, Stay;
      hide Explicit, Decode;
      ghost var t := T();
      StayRefl(t, meta);
      ExplicitHere(t, meta, page, va);
      PageOf(t, page);
      var i := Idx(va, level);
      var entry := mem[page][i];
      RecordedPresent(t, meta, page, i);
      if c.present(entry) {
        var refinable := (if page in meta then meta[page][i] else Invalid) == Invalid;
        if !refinable { return Err(BlockedByExistingMapping); }
      }
      WriteLeaf(page, i, level, va, phys, flags);
      WrittenLevel(t, T(), page, i, c.held(phys, level), c.norm(flags));
      SetStatus(page, i, MappedAt(phys, flags, Span(level)));
      MetaMapped(t, T(), old(meta), meta, pool.free, page, i, phys, flags);
      if level == 0 { StayMapped(t, T(), old(meta), meta, page, va, c.held(phys, level), c.norm(flags), MappedAt(phys, flags, Span(level))); }
      r := Ok(());
    }

    /** Write the leaf word; a table of pages it replaces is not reachable any more. */
    method WriteLeaf(page: nat, i: nat, level: nat, ghost va: nat, phys: nat, flags: Flags)
      requires Inv(T()) && page in lvl && lvl[page] == level <= 1 && Covers(T(), page, va) && va % Span(level) == 0
      requires i == Idx(va, level)
      requires LeafAddress(phys, level) && (level == 0 || c.mappable(flags)) && page in mem && |mem[page]| == ENTRIES
      modifies this`mem, this`lvl, this`base, this`parent
      ensures Inv(T()) && Remapped(old(T()), T(), va, level, c.held(phys, level), c.norm(flags))
      ensures lvl.Keys <= old(lvl).Keys
      ensures LeafWritten(old(T()), T(), page, i, c.held(phys, level), c.norm(flags))
      ensures level == 0 ==> lvl == old(lvl) && base == old(base)
    {
      hide Inv, CodecOk, Span, Off, Remapped, Idx, Covers, LeafAddress, LeafWritten;
      ghost var t := T();
      ghost var e := EntryAt(t, page, level, i);
      if e.Table? { MapOverTable(t, page, va, phys, flags, e.page); } else { MapPlain(t, page, va, phys, flags); }
      LeafIsWritten(t, page, i, phys, flags, if e.Table? then e.page else page);
      var table: seq<nat> := mem[page][i := c.leaf(phys, flags, level)];
      mem := mem[page := table];
      if e.Table? { lvl, base, parent := lvl - {e.page}, base - {e.page}, parent - {e.page}; }
    }

    /** Map one page at `va`.  Success changes the translation of exactly that page; an error changes no
        translation, even after tables were created or leaves split, if what was split is read back exactly. */
    method Map(va: nat, phys: nat, flags: Flags, target: nat) returns (r: Outcome<()>)
      requires Valid() && target <= 1 && va + Span(target) <= Span(top + 1)
      requires phys + Span(target) <= PHYS_LIMIT && (target == 0 || c.mappable(flags))
      modifies this`mem, this`meta, pool, this`locked, this`lvl, this`base, this`parent
      ensures Valid() && Owned() <= old(Owned())
      ensures r.Ok? ==> PageAt(T(), va, target, c.held(phys, target), c.norm(flags))
      ensures SplitReady(old(T()), root, top, va, target) ==>
                && (r.Ok? ==> Remapped(old(T()), T(), va, target, c.held(phys, target), c.norm(flags)))
                && (r.Err? ==> SameView(old(T()), T()))
                && (r == Err(BlockedByExistingMapping) ==> FlatAt(old(T()), va).Page?)
      ensures r == Err(Unsupported) <==> va % Span(target) != 0 || phys % Span(target) != 0
      ensures r == Err(OutOfMemory) ==> pool.free == {}
      ensures r == Err(BlockedByExistingMapping) ==> FlatAt(T(), va).Page?
      ensures target == 0 ==> Stay(old(T()), old(meta), T(), meta) && (r.Ok? ==> Explicit(T(), meta, va))
      ensures va % Span(target) == 0 == phys % Span(target) ==>
                (r == Err(OutOfMemory) <==> |WayTo(top, va, target) - Places(old(T()))| > |old(pool.free)|)
      ensures r == Err(BlockedByExistingMapping) ==> ExplicitAt(T(), meta, va, target)
      ensures target == 0 ==>
                && Walked(old(T()), old(pool.free), T(), pool.free, va)
                && (r.Ok? ==> Reaches(old(T()), old(pool.free), T(), pool.free, va))
                && (r == Err(BlockedByExistingMapping) <==>
                      va % Span(0) == 0 == phys % Span(0) && Explicit(old(T()), old(meta), va))
    {
      hide Inv, CodecOk, MetaOk, PoolOk, LocksOk, Off, Remapped, Idx, Covers, SameView, At, LeafAddress, SplitReady;
      hide Step, PageAt, Stay, Explicit, Walked, Reached, Ways, Places, PlaceFor, WalkedTo, WayTo, Reaches, ExplicitAt;
      ghost var t0, f0 := T(), pool.free;
      SameViewRefl(t0);
      StayRefl(t0, meta);
      WalkedRefl(t0, f0, va, target);
      if target == 0 { WalkedAll(t0, f0, t0, f0, va); }
      if va % Span(target) != 0 || phys % Span(target) != 0 { return Err(Unsupported); }
      AtRoot(t0, va, target, phys);
      TablesApart();
      ReachedRoot(t0, va);
      var page, level := root, top;
      while level > target
        invariant target <= level <= top && Valid() && At(T(), page, level, va) && Owned() <= old(Owned())
        invariant SplitReady(t0, root, top, va, target) ==>
                  SameView(t0, T()) && SplitReady(T(), page, level, va, target)
        invariant Stay(t0, old(meta), T(), meta) && Stay(T(), meta, t0, old(meta))
        invariant WalkedTo(t0, f0, T(), pool.free, va, target) && Reached(T(), level, va)
        modifies this`mem, this`meta, pool, this`locked, this`lvl, this`base, this`parent
      {
        ghost var t, m, f := T(), meta, pool.free;
        StayAt(t0, old(meta), t, m, va);
        var next := Descend(page, level, va, target);
        if SplitReady(t0, root, top, va, target) { SameViewTrans(t0, t, T()); }
        StayTrans(t0, old(meta), t, m, T(), meta);
        StayTrans(T(), meta, t, m, t0, old(meta));
        WalkedTrans(t0, f0, t, f, T(), pool.free, va, target);
        if next.Err? {
          TablesApart();
          WalkFails(t0, f0, T(), pool.free, va, level - 1, target);
          if target == 0 { WalkedAll(t0, f0, T(), pool.free, va); }
          return Err(next.error);
        }
        StepAt(t, T(), page, next.value, level, va, target);
        AtPage(T(), next.value, level - 1, va);
        ReachedNext(t, f, T(), pool.free, level - 1, va, next.value, target);
        page, level := next.value, level - 1;
      }
      ghost var t, m := T(), meta;
      AtPage(t, page, level, va);
      StayAt(t0, old(meta), t, m, va);
      StayAt(t, m, t0, old(meta), va);
      TablesApart();
      WalkReaches(t0, f0, t, pool.free, va, target);
      r := PutLeaf(page, level, va, phys, flags);
      if target == 0 {
        StayTrans(t0, old(meta), t, m, T(), meta);
        WalkEnds(t0, f0, t, pool.free, T(), va);
        ReachesWalked(t0, f0, T(), pool.free, va);
      }
      if r.Ok? {
        RemappedPage(t, T(), va, target, c.held(phys, target), c.norm(flags));
        if SplitReady(t0, root, top, va, target) { RemappedFrom(t0, t, T(), va, target, c.held(phys, target), c.norm(flags)); }
      } else {
        SameViewRefl(t);
        RecordedHere(t, meta, page, va);
        BlockedMapped(t, t, meta, page, va);
        if SplitReady(t0, root, top, va, target) { BlockedMapped(t0, t, meta, page, va); }
      }
    }

    // ---- looking up ----

    /** The hardware mapping of `va`; without one, metadata inherited on the way, of which there is none. */
    method Query(va: nat) returns (r: Status)
      requires Valid() && va < Span(top + 1)
      ensures r == StatusFor(Translate(T(), va), va)
    {
      hide Inv, CodecOk, MetaOk, PoolOk, LocksOk, Span, Off, Idx, Look, Covers;
      ghost var t := T();
      CodecOf(t);
      RootCovers(t, va);
      var inherited := Invalid;
      var page, level := root, top;
      while true
        invariant inherited == Invalid && page in lvl && lvl[page] == level && Covers(t, page, va)
        invariant Translate(t, va) == Look(t, page, level, va)
        decreases level
      {
        PageOf(t, page);
        var i := Idx(va, level);
        var entry := mem[page][i];
        RecordedPresent(t, meta, page, i);
        var status := if page in meta then meta[page][i] else Invalid;
        if status != Invalid { inherited := status; }
        LookStep(t, page, level, va);
        if !c.present(entry) { return inherited; }
        if c.isLeaf(entry, level) || level == 0 { return MappedAt(c.phys(entry, level), c.flags(entry), Span(level)); }
        TableUnrecorded(t, meta, page, i);
        NextCovers(t, page, va);
        page, level := c.phys(entry, level), level - 1;
      }
    }

    /** The physical address of `va`: the leaf plus the offset in it. */
    method TranslateVa(va: nat) returns (r: Frame)
      requires Valid() && va < Span(top + 1)
      ensures r == match FlatAt(T(), va) case NoPage => NoFrame case Page(p, _) => Got(p)
    {
      hide Inv, CodecOk, MetaOk, PoolOk, LocksOk, Idx, Look;
      var q := Query(va);
      PhysAbove(T(), va);
      r := match q case MappedAt(p, _, g) => if g == 0 then NoFrame else Got(p + va % g) case Invalid => NoFrame;
    }

    // ---- unmapping ----

    /** The range is cut up to `upto` below `b`, and `n` pages went. */
    ghost predicate CutSoFar(t0: PT, m0: map<nat, seq<Status>>, f0: set<nat>, b: nat, upto: nat, s: nat, e: nat, n: nat)
      reads this, pool
    {
      && Valid() && CutTo(t0, T(), upto, s, e) && Shrunk(t0, f0, T(), pool.free, b, upto) && Tidy(T(), b, upto, s, e)
      && n == |GonePages(t0, upto, s, e)| && StayTo(t0, m0, T(), meta, s, e) && FreedIn(t0, T(), s, e)
    }

    /** Clear the entry of a leaf and forget its metadata. */
    method ClearLeaf(page: nat, i: nat)
      requires Valid() && page in lvl && i < ENTRIES && page in mem && |mem[page]| == ENTRIES
      requires PlainWord(c, 0, lvl[page]) && !IsTable(T(), page, i)
      modifies this`mem, this`meta
      ensures Valid() && T() == Put(old(T()), page, i, 0) && Owned() <= old(Owned())
      ensures forall x, j: nat :: j < ENTRIES && (x != page || j != i) ==>
                StatusOf(meta, x, j) == StatusOf(old(meta), x, j)
    {
      hide Inv, CodecOk, MetaOk, PoolOk, LocksOk, Span, Off, PlainWord;
      ghost var t := T();
      PutInv(t, page, i, 0);
      MetaSize(t, meta, page);
      var table: seq<nat> := mem[page][i := 0];
      mem := mem[page := table];
      SetStatus(page, i, Invalid);
      MetaCleared(t, old(meta), meta, pool.free, page, i);
    }

    /** Free the empty table `x` behind entry `i` of `page`: metadata, frame, lock and entry. */
    method FreeChild(page: nat, i: nat, x: nat)
      requires Valid() && page in lvl && i < ENTRIES && page in mem && |mem[page]| == ENTRIES
      requires LastTable(T(), page, i, 0, x)
      modifies this`mem, this`meta, pool, this`locked, this`lvl, this`base, this`parent
      ensures Valid() && T() == DropTable(old(T()), page, i, 0, x) && meta == old(meta) - {x}
      ensures pool.free == old(pool.free) + {x} && x !in locked && Owned() <= old(Owned())
    {
      hide Inv, CodecOk, MetaOk, PoolOk, LocksOk, Span, Off, LastTable;
      ghost var t := T();
      DropInv(t, page, i, 0, x);
      MetaDropped(t, meta, pool.free, page, i, x);
      meta := meta - {x};
      pool.free := pool.free + {x};
      Release(x);
      LocksFreed(old(pool.free), old(locked), locked, x);
      var table: seq<nat> := mem[page][i := 0];
      mem := mem[page := table];
      lvl, base, parent := lvl - {x}, base - {x}, parent - {x};
    }

    /** `retain`: drop the guard of a freed page. */
    method Release(x: nat)
      modifies this`locked
      ensures forall k :: 0 <= k < |locked| ==> locked[k] != x && locked[k] in old(locked)
    {
      var kept := [];
      for k := 0 to |locked|
        invariant forall j :: 0 <= j < |kept| ==> kept[j] != x && kept[j] in locked
      {
        if locked[k] != x { kept := kept + [locked[k]]; }
      }
      locked := kept;
    }

    /** One entry of the range. */
    method UnmapEntry(page: nat, start: nat, level: nat, i: nat, s: nat, e: nat, ghost t0: PT, ghost m0: map<nat,
        seq<Status>>, ghost f0: set<nat>, ghost n0: nat) returns (n: nat)
      requires page in lvl && lvl[page] == level <= 3 && page in base && base[page] == start && i < ENTRIES
      requires s % 4096 == 0 && e % 4096 == 0
      requires CutSoFar(t0, m0, f0, page, start + Off(i, level), s, e, n0)
      requires start + Off(i, level) < e && s < start + Off(i, level) + Span(level) && s < e
      modifies this`mem, this`meta, pool, this`locked, this`lvl, this`base, this`parent
      ensures CutSoFar(t0, m0, f0, page, start + Off(i, level) + Span(level), s, e, n0 + n) && Owned() <= old(Owned())
      ensures page in lvl && lvl[page] == level && page in base && base[page] == start
      decreases level, 0
    {
      hide Inv, CodecOk, MetaOk, PoolOk, LocksOk, Span, Off, CutTo, Shrunk, Tidy, GonePages, PlainWord, AllZero;
      hide IsTable, Owned, StayTo, Explicit, Goes, FreedIn;
      ghost var t, f := T(), pool.free;
      PageOf(t, page);
      ghost var upto := start + Off(i, level);
      var entry := mem[page][i];
      if !c.present(entry) {
        NotTable(t, page, i);
        AbsentStays(t, page, i, s, e);
        SkipStep(t0, f0, t, f, page, i, upto, s, e);
        return 0;
      }
      var entryStart := start + i * Span(level);
      OffIs(i, level);
      var fully := s <= entryStart && entryStart + Span(level) <= e;
      LeafSeen(t, page, i, s, e);
      if c.isLeaf(entry, level) {
        NotTable(t, page, i);
        if level == 0 { PageFully(t, page, i, s, e); }
        if fully || level == 0 {
          ClearStep(t0, f0, t, f, page, i, upto, s, e);
          ghost var m := meta;
          ClearLeaf(page, i);
          FreedSame(t0, t, T(), s, e);
          StayCleared(t0, m0, t, m, meta, page, i, upto, s, e);
          n := Span(level) / 4096;
        } else {
          SkipStep(t0, f0, t, f, page, i, upto, s, e);
          n := 0;
        }
        return;
      }
      if level == 0 {
        SkipStep(t0, f0, t, f, page, i, upto, s, e);
        return 0;
      }
      PresentTable(t, page, i);
      n := UnmapChild(page, start, level, i, s, e, c.phys(entry, level), t0, m0, f0, n0);
    }

    /** Descend into a child table and free it if that left it empty. */
    method UnmapChild(page: nat, start: nat, level: nat, i: nat, s: nat, e: nat, x: nat, ghost t0: PT,
        ghost m0: map<nat, seq<Status>>, ghost f0: set<nat>, ghost n0: nat) returns (n: nat)
      requires page in lvl && lvl[page] == level && 1 <= level <= 3 && page in base && base[page] == start
      requires i < ENTRIES && s % 4096 == 0 && e % 4096 == 0
      requires CutSoFar(t0, m0, f0, page, start + Off(i, level), s, e, n0) && EntryAt(T(), page, level, i) == Table(x)
      requires start + Off(i, level) < e && s < start + Off(i, level) + Span(level) && s < e
      modifies this`mem, this`meta, pool, this`locked, this`lvl, this`base, this`parent
      ensures CutSoFar(t0, m0, f0, page, start + Off(i, level) + Span(level), s, e, n0 + n) && Owned() <= old(Owned())
      ensures page in lvl && lvl[page] == level && page in base && base[page] == start
      decreases level - 1, 2
    {
      hide Inv, CodecOk, MetaOk, PoolOk, LocksOk, Span, Off, CutTo, Shrunk, Tidy, GonePages, PlainWord, AllZero;
      hide IsTable, Cut, Owned, StayTo, Explicit, FreedIn;
      ghost var t, f, m := T(), pool.free, meta;
      ghost var upto := start + Off(i, level);
      OffIs(i, level);
      SpanPositive(level);
      var entryStart := start + i * Span(level);
      var lo, hi := Max(s, entryStart), Min(e, entryStart + Span(level));
      ChildFacts(t, page, i, upto, x);
      ChildRange(t, page, i, upto, s, e);
      PoolTable(t, meta, pool.free, x);
      OwnsTable(x);
      LockPage(x);
      LocksMore(pool.free, old(locked), locked, x);
      n := UnmapIn(x, entryStart, level - 1, lo, hi);
      ghost var t1, f1, m1 := T(), pool.free, meta;
      StayChild(t0, m0, t, m, t1, m1, page, upto, s, e, level);
      FreedChild(t0, f0, t, f, t1, page, upto, s, e, lo, hi);
      ChildStep(t0, f0, t, f, t1, f1, page, i, upto, s, e, x, entryStart + Span(level));
      FreeIfEmpty(page, i, x, t0, m0, f0, t, f, upto, s, e, n0 + n);
    }

    /** The child of an entry was dealt with: free it if it is empty now. */
    method FreeIfEmpty(page: nat, i: nat, x: nat, ghost t0: PT, ghost m0: map<nat, seq<Status>>, ghost f0: set<nat>,
        ghost t: PT, ghost f: set<nat>, ghost upto: nat, ghost s: nat, ghost e: nat, ghost n: nat)
      requires Valid() && Inv(t) && Next(t, page, i, upto) && EntryAt(t, page, t.lvl[page], i) == Table(x)
      requires Tidy(t, page, upto, s, e) && x in t.lvl && x in t.base && t.base[x] == upto && t.lvl[x] + 1 == t.lvl[page]
      requires Shrunk(t, f, T(), pool.free, x, upto + Span(t.lvl[page]))
      requires CutTo(t0, T(), upto + Span(t.lvl[page]), s, e) && StayTo(t0, m0, T(), meta, s, e)
      requires Shrunk(t0, f0, T(), pool.free, page, upto + Span(t.lvl[page])) && FreedIn(t0, T(), s, e)
      requires n == |GonePages(t0, upto + Span(t.lvl[page]), s, e)|
      requires var hi := Min(e, upto + Span(t.lvl[page])); Tidy(T(), x, hi, Max(s, upto), hi)
      requires page in lvl && page in base && lvl[page] == t.lvl[page] && base[page] == t.base[page]
      requires x in lvl && x in mem && |mem[x]| == ENTRIES && x != page && EntryAt(T(), page, lvl[page], i) == Table(x)
      requires forall j: nat :: j < ENTRIES ==> WordAt(T(), page, j) == WordAt(t, page, j)
      requires upto < e && s < upto + Span(t.lvl[page])
      modifies this`mem, this`meta, pool, this`locked, this`lvl, this`base, this`parent
      ensures CutSoFar(t0, m0, f0, page, upto + Span(t.lvl[page]), s, e, n) && Owned() <= old(Owned())
      ensures page in lvl && lvl[page] == t.lvl[page] && page in base && base[page] == t.base[page]
    {
      hide Inv, CodecOk, MetaOk, PoolOk, LocksOk, Span, Off, CutTo, Shrunk, Tidy, GonePages, PlainWord, AllZero;
      hide IsTable, Cut, Owned, StayTo, Explicit, FreedIn;
      ghost var t1, f1, m1, z := T(), pool.free, meta, upto + Span(t.lvl[page]);
      var empty := IsEmpty(x);
      if empty {
        DropStep(t0, f0, t, f, t1, f1, page, i, upto, s, e, x, z);
        FreeChild(page, i, x);
        FreedDrop(t0, f0, t, f, t1, f1, T(), page, z, s, e, x, z);
        StayDropped(t0, m0, t1, m1, page, i, x, s, e);
      } else {
        KeepTidy(t, f, t1, f1, page, i, upto, s, e, x, z);
      }
    }

    method IsEmpty(x: nat) returns (empty: bool)
      requires x in mem && |mem[x]| == ENTRIES
      ensures empty == AllZero(T(), x)
    {
      empty := forall j :: 0 <= j < ENTRIES ==> mem[x][j] == 0;
      assert empty ==> forall j: nat :: j < ENTRIES ==> WordAt(T(), x, j) == 0;
      if !empty {
        ghost var j :| 0 <= j < ENTRIES && mem[x][j] != 0;
        assert WordAt(T(), x, j) != 0;
      }
    }

    /** Unmap the part `[s, e)` of the addresses of one table. */
    method UnmapIn(page: nat, start: nat, level: nat, s: nat, e: nat) returns (n: nat)
      requires Valid() && page in lvl && lvl[page] == level <= 3 && page in base && base[page] == start
      requires start <= s < e <= start + Span(level + 1) && s % 4096 == 0 && e % 4096 == 0
      modifies this`mem, this`meta, pool, this`locked, this`lvl, this`base, this`parent
      ensures StayTo(old(T()), old(meta), T(), meta, s, e)
      ensures Valid() && Cut(old(T()), T(), s, e) && n == |GonePages(old(T()), e, s, e)| && Owned() <= old(Owned())
      ensures Shrunk(old(T()), old(pool.free), T(), pool.free, page, start + Span(level + 1))
      ensures Tidy(T(), page, e, s, e) && FreedIn(old(T()), T(), s, e)
      decreases level, 1
    {
      hide Inv, CodecOk, MetaOk, PoolOk, LocksOk, Span, Off, CutTo, Shrunk, Tidy, GonePages, Cut, Idx, StayTo, FreedIn;
      ghost var t0, f0, m0 := T(), pool.free, meta;
      StayToRefl(t0, m0, s, e);
      FreedRefl(t0, t0, s, e);
      RangeEnds(t0, page, s, e);
      var first, last := Idx(s, level), Idx(e - 1, level);
      CutStart(t0, start + Off(first, level), s, e);
      TidyStart(t0, page, first, start + Off(first, level), s, e);
      ShrunkRefl(t0, f0, page, start + Off(first, level));
      n := 0;
      for i := first to last + 1
        invariant CutSoFar(t0, m0, f0, page, start + Off(i, level), s, e, n)
        invariant page in lvl && lvl[page] == level && page in base && base[page] == start && Owned() <= old(Owned())
      {
        RangeEntry(t0, page, s, e, i);
        var m := UnmapEntry(page, start, level, i, s, e, t0, m0, f0, n);
        n := n + m;
        OffMono(i, i + 1, level);
      }
      CutEnd(t0, T(), start + Off(last + 1, level), s, e);
      TidyEnd(T(), page, start + Off(last + 1, level), s, e);
      ShrunkMore(t0, f0, T(), pool.free, page, start + Off(last + 1, level), start + Span(level + 1));
    }

    /** Unmap a page-aligned range.  Exactly the leaves wholly inside it go; leaves that straddle an end
        stay; the result is the number of 4 KiB pages that went.  The tables freed are those that were
        left empty, and none of them is still locked. */
    method Unmap(s: nat, e: nat) returns (r: Outcome<nat>)
      requires Valid() && e <= Span(top + 1) && s % 4096 == 0 && e % 4096 == 0
      modifies this`mem, this`meta, pool, this`locked, this`lvl, this`base, this`parent
      ensures Valid() && Owned() <= old(Owned())
      ensures r.Err? <==> s >= e
      ensures r.Err? ==> T() == old(T()) && r.error == Unsupported
      ensures StayTo(old(T()), old(meta), T(), meta, s, e)
      ensures r.Ok? ==>
                && Cut(old(T()), T(), s, e) && r.value == |GonePages(old(T()), e, s, e)|
                && Shrunk(old(T()), old(pool.free), T(), pool.free, root, Span(top + 1)) && Tidy(T(), root, e, s, e)
      ensures FreedIn(old(T()), T(), s, e)
    {
      hide Inv, MetaOk, PoolOk, LocksOk, Span, Cut, Shrunk, Tidy, GonePages, StayTo;
      StayToRefl(T(), meta, s, e);
      FreedRefl(T(), T(), s, e);
      if s >= e { return Err(Unsupported); }
      CodecOf(T());
      PageOf(T(), root);
      var n := UnmapIn(root, 0, top, s, e);
      r := Ok(n);
    }

    method LeafWords(p: nat, f: Flags, level: nat) returns (words: seq<nat>)
      requires level >= 1
      ensures SplitWords(c, p, f, level, words)
    {
      hide Span, Off;
      words := [];
      for j := 0 to ENTRIES
        invariant |words| == j && forall k :: 0 <= k < j ==> words[k] == c.leaf(p + Off(k, level - 1), f, level - 1)
      {
        words := words + [c.leaf(p + Off(j, level - 1), f, level - 1)];
      }
    }
  }

  // ---- metadata, pool and locks along the edits ----

  lemma MetaSize(t: PT, meta: map<nat, seq<Status>>, page: nat)
    requires MetaOk(t, meta)
    ensures page in meta ==> |meta[page]| == ENTRIES
  {
  }

  lemma PoolLess(t: PT, meta: map<nat, seq<Status>>, free: set<nat>, free1: set<nat>)
    requires PoolOk(t, meta, free) && free1 <= free
    ensures PoolOk(t, meta, free1)
  {
  }

  lemma PoolTable(t: PT, meta: map<nat, seq<Status>>, free: set<nat>, x: nat)
    requires PoolOk(t, meta, free) && x in t.lvl
    ensures x !in free
  {
  }

  /** A recorded entry is present and no table pointer. */
  lemma RecordedPresent(t: PT, meta: map<nat, seq<Status>>, b: nat, i: nat)
    requires MetaOk(t, meta) && b in t.lvl && i < ENTRIES && b in t.mem && |t.mem[b]| == ENTRIES
    ensures b in meta ==> |meta[b]| == ENTRIES
    ensures StatusOf(meta, b, i) != Invalid ==> t.c.present(t.mem[b][i])
  {
    assert StatusOk(t, meta, b, i);
  }

  /** Entry `i` of `b` is a leaf now and the other entries of the remaining tables are unchanged. */
  ghost predicate LeafWritten(t: PT, t1: PT, b: nat, i: nat, p: nat, f: Flags) {
    && t1.c == t.c && b in t1.lvl && t1.lvl.Keys <= t.lvl.Keys && (forall x :: x in t1.lvl ==> t1.lvl[x] == t.lvl[x])
    && (forall x, j :: x in t.lvl && 0 <= j < ENTRIES && (x != b || j != i) ==> WordAt(t1, x, j) == WordAt(t, x, j))
    && EntryAt(t1, b, t1.lvl[b], i) == Leaf(p, f)
  }

  lemma LeafIsWritten(t: PT, b: nat, i: nat, p: nat, f: Flags, x: nat)
    requires Inv(t) && b in t.lvl && t.lvl[b] <= 1 && i < ENTRIES && b in t.mem && |t.mem[b]| == ENTRIES
    requires LeafAddress(p, t.lvl[b]) && (t.lvl[b] == 0 || t.c.mappable(f))
    ensures var t1 := Put(t, b, i, t.c.leaf(p, f, t.lvl[b])); LeafWritten(t, t1, b, i, t.c.held(p, t.lvl[b]), t.c.norm(f))
    ensures x != b ==>
              LeafWritten(t, DropTable(t, b, i, t.c.leaf(p, f, t.lvl[b]), x), b, i, t.c.held(p, t.lvl[b]), t.c.norm(f))
  {
    hide Inv, CodecOk, Span, LeafAddress;
    CodecOf(t);
    LeafWord(t.c, p, f, t.lvl[b]);
  }

  /** The metadata after entry `i` of `b` became an explicit mapping. */
  lemma MetaMapped(t: PT, t1: PT, meta: map<nat, seq<Status>>, meta1: map<nat, seq<Status>>, free: set<nat>, b: nat,
      i: nat, p: nat, f: Flags)
    requires MetaOk(t, meta) && PoolOk(t, meta, free) && i < ENTRIES && b in t1.lvl
    requires LeafWritten(t, t1, b, i, t.c.held(p, t1.lvl[b]), t.c.norm(f))
    requires meta1.Keys == meta.Keys + {b} && |meta1[b]| == ENTRIES
    requires (forall x :: x in meta1 && x != b ==> meta1[x] == meta[x])
    requires forall j: nat :: j < ENTRIES ==>
              StatusOf(meta1, b, j) == if j == i then MappedAt(p, f, Span(t1.lvl[b])) else StatusOf(meta, b, j)
    ensures MetaOk(t1, meta1) && PoolOk(t1, meta1, free)
  {
    hide Decode, Span;
    forall page, j | 0 <= j < ENTRIES ensures StatusOk(t1, meta1, page, j) {
      assert StatusOk(t, meta, page, j);
    }
  }

  lemma WrittenLevel(t: PT, t1: PT, b: nat, i: nat, p: nat, f: Flags)
    requires LeafWritten(t, t1, b, i, p, f)
    ensures b in t1.lvl && b in t.lvl && t1.lvl[b] == t.lvl[b]
  {
  }

  lemma NotTable(t: PT, b: nat, i: nat)
    requires b in t.lvl && b in t.mem && |t.mem[b]| == ENTRIES && i < ENTRIES
    ensures !t.c.present(t.mem[b][i]) ==> !IsTable(t, b, i) && EntryAt(t, b, t.lvl[b], i) == Absent
    ensures t.c.present(t.mem[b][i]) && t.c.isLeaf(t.mem[b][i], t.lvl[b]) ==>
              !IsTable(t, b, i) && EntryAt(t, b, t.lvl[b], i).Leaf?
  {
  }

  lemma AbsentStays(t: PT, b: nat, i: nat, s: nat, e: nat)
    requires b in t.lvl && b in t.base && EntryAt(t, b, t.lvl[b], i) == Absent
    ensures !Goes(t, b, i, s, e)
  {
  }

  /** A leaf goes with its range exactly when it is recognised; an entry of the last level is no table pointer. */
  lemma LeafSeen(t: PT, b: nat, i: nat, s: nat, e: nat)
    requires Inv(t) && b in t.lvl && b in t.base && b in t.mem && |t.mem[b]| == ENTRIES && i < ENTRIES
    requires t.c.present(t.mem[b][i])
    ensures t.lvl[b] == 0 ==> !IsTable(t, b, i)
    ensures Goes(t, b, i, s, e) <==> t.c.isLeaf(t.mem[b][i], t.lvl[b]) && Fully(t, b, i, s, e)
  {
    hide Span, Off, CodecOk;
    EntryOf(t, b, i);
  }

  /** Present and no leaf: a pointer to a table, above the last level. */
  lemma PresentTable(t: PT, b: nat, i: nat)
    requires Inv(t) && b in t.lvl && b in t.mem && |t.mem[b]| == ENTRIES && i < ENTRIES
    requires t.c.present(t.mem[b][i]) && !t.c.isLeaf(t.mem[b][i], t.lvl[b]) && t.lvl[b] >= 1
    ensures EntryAt(t, b, t.lvl[b], i) == Table(t.c.phys(t.mem[b][i], t.lvl[b]))
  {
    EntryOf(t, b, i);
  }

  lemma OffIs(i: nat, level: nat)
    ensures Off(i, level) == i * Span(level)
  {
  }

  lemma SameEntry(t: PT, t1: PT, b: nat, i: nat)
    requires t1.c == t.c && b in t.lvl && b in t1.lvl && t1.lvl[b] == t.lvl[b] && i < ENTRIES
    requires forall j: nat :: j < ENTRIES ==> WordAt(t1, b, j) == WordAt(t, b, j)
    ensures EntryAt(t1, b, t1.lvl[b], i) == EntryAt(t, b, t.lvl[b], i)
  {
  }

  lemma ShrunkPage(t0: PT, f0: set<nat>, t: PT, f: set<nat>, b: nat, upto: nat)
    requires Shrunk(t0, f0, t, f, b, upto)
    ensures Inv(t) && t.c == t0.c && t.top == t0.top && b in t.lvl && b in t.base && b in t0.lvl && b in t0.base
    ensures t.lvl[b] == t0.lvl[b] && t.base[b] == t0.base[b]
    ensures b in t.mem && |t.mem[b]| == ENTRIES
  {
    PageOf(t, b);
  }

  lemma ChildRange(t: PT, b: nat, i: nat, upto: nat, s: nat, e: nat)
    requires Inv(t) && Next(t, b, i, upto) && t.lvl[b] <= 3 && upto < e && s < upto + Span(t.lvl[b]) && s < e
    requires s % 4096 == 0 && e % 4096 == 0
    ensures var lo, hi := Max(s, upto), Min(e, upto + Span(t.lvl[b])); upto <= lo < hi <= upto + Span(t.lvl[b]) && lo % 4096 == 0 && hi % 4096 == 0
  {
    hide Inv, Span, Off;
    NextFits(t, b, i, upto);
    SpanPositive(t.lvl[b]);
    AlignSum(upto, Span(t.lvl[b]));
  }

  lemma AlignSum(a: nat, b: nat)
    requires a % 4096 == 0 && b % 4096 == 0
    ensures (a + b) % 4096 == 0
  {
  }

  /** The child table was cut to its share of the range. */
  lemma ChildStep(t0: PT, f0: set<nat>, t: PT, f: set<nat>, t1: PT, f1: set<nat>, b: nat, i: nat, upto: nat, s: nat,
      e: nat, x: nat, z: nat)
    requires CutTo(t0, t, upto, s, e) && Shrunk(t0, f0, t, f, b, upto) && Next(t, b, i, upto)
    requires EntryAt(t, b, t.lvl[b], i) == Table(x)
    requires Cut(t, t1, Max(s, upto), Min(e, upto + Span(t.lvl[b]))) && Shrunk(t, f, t1, f1, x, z)
    ensures CutTo(t0, t1, upto + Span(t.lvl[b]), s, e) && Shrunk(t0, f0, t1, f1, b, upto + Span(t.lvl[b]))
    ensures var lo, hi := Max(s, upto), Min(e, upto + Span(t.lvl[b]));
      |GonePages(t0, upto + Span(t.lvl[b]), s, e)| == |GonePages(t0, upto, s, e)| + |GonePages(t, hi, lo, hi)|
    ensures b in t1.lvl && b in t1.base && t1.lvl[b] == t.lvl[b] && t1.base[b] == t.base[b] && b in t1.mem
    ensures |t1.mem[b]| == ENTRIES
    ensures x in t1.lvl && x in t1.mem && |t1.mem[x]| == ENTRIES && x != b && EntryAt(t1, b, t1.lvl[b], i) == Table(x)
    ensures forall j: nat :: j < ENTRIES ==> WordAt(t1, b, j) == WordAt(t, b, j)
  {
    hide Inv, Span, Off, CutTo, Shrunk, GonePages, PlainWord, Cut;
    ShrunkPage(t0, f0, t, f, b, upto);
    ChildFacts(t, b, i, upto, x);
    ChildCut(t0, t, t1, b, i, upto, s, e, x);
    ChildCount(t0, t, b, i, upto, s, e, x);
    ChildShrunk(t0, f0, t, f, t1, f1, b, i, upto, x, z);
    ShrunkPage(t0, f0, t1, f1, b, upto + Span(t.lvl[b]));
    ShrunkPage(t, f, t1, f1, x, z);
    SameEntry(t, t1, b, i);
  }

  /** It was left empty and is taken out. */
  lemma DropStep(t0: PT, f0: set<nat>, t: PT, f: set<nat>, t1: PT, f1: set<nat>, b: nat, i: nat, upto: nat, s: nat,
      e: nat, x: nat, z: nat)
    requires Inv(t) && Next(t, b, i, upto) && EntryAt(t, b, t.lvl[b], i) == Table(x) && Tidy(t, b, upto, s, e)
    requires Shrunk(t, f, t1, f1, x, z)
    requires CutTo(t0, t1, upto + Span(t.lvl[b]), s, e) && Shrunk(t0, f0, t1, f1, b, upto + Span(t.lvl[b]))
    requires Tidy(t1, x, Min(e, upto + Span(t.lvl[b])), Max(s, upto), Min(e, upto + Span(t.lvl[b]))) && AllZero(t1, x)
    requires b in t1.lvl && b in t1.base && t1.lvl[b] == t.lvl[b] && t1.base[b] == t.base[b]
    requires EntryAt(t1, b, t1.lvl[b], i) == Table(x)
    requires forall j: nat :: j < ENTRIES ==> WordAt(t1, b, j) == WordAt(t, b, j)
    ensures LastTable(t1, b, i, 0, x) && b in t1.mem && |t1.mem[b]| == ENTRIES
    ensures var t2 := DropTable(t1, b, i, 0, x);
      CutTo(t0, t2, upto + Span(t.lvl[b]), s, e) && Shrunk(t0, f0, t2, f1 + {x}, b, upto + Span(t.lvl[b])) && Tidy(t2, b, upto + Span(t.lvl[b]), s, e)
  {
    hide Inv, Span, Off, CutTo, Shrunk, Tidy, AllZero, PlainWord;
    ShrunkPage(t0, f0, t1, f1, b, upto + Span(t.lvl[b]));
    SpanPositive(t.lvl[b]);
    DropCut(t0, t1, b, i, x, upto + Span(t.lvl[b]), s, e);
    DropShrunk(t0, f0, t1, f1, b, i, x, upto, upto + Span(t.lvl[b]));
    DropTidy(t, f, t1, f1, b, i, upto, s, e, x, z);
  }

  lemma SkipStep(t0: PT, f0: set<nat>, t: PT, f: set<nat>, b: nat, i: nat, upto: nat, s: nat, e: nat)
    requires CutTo(t0, t, upto, s, e) && Shrunk(t0, f0, t, f, b, upto) && Tidy(t, b, upto, s, e) && Next(t, b, i, upto)
    requires !IsTable(t, b, i)
    requires b in t.base && !Goes(t, b, i, s, e)
    ensures CutTo(t0, t, upto + Span(t.lvl[b]), s, e) && Shrunk(t0, f0, t, f, b, upto + Span(t.lvl[b]))
    ensures Tidy(t, b, upto + Span(t.lvl[b]), s, e)
    ensures GonePages(t0, upto + Span(t.lvl[b]), s, e) == GonePages(t0, upto, s, e)
  {
    ShrunkPage(t0, f0, t, f, b, upto);
    hide Inv, Span, Off, CutTo, Shrunk, Tidy, GonePages;
    SkipEntry(t0, t, b, i, upto, s, e);
    SkipCount(t0, t, b, i, upto, s, e);
    ShrunkMore(t0, f0, t, f, b, upto, upto + Span(t.lvl[b]));
    SkipTidy(t, b, i, upto, s, e);
  }

  lemma ClearStep(t0: PT, f0: set<nat>, t: PT, f: set<nat>, b: nat, i: nat, upto: nat, s: nat, e: nat)
    requires CutTo(t0, t, upto, s, e) && Shrunk(t0, f0, t, f, b, upto) && Tidy(t, b, upto, s, e) && Next(t, b, i, upto)
    requires !IsTable(t, b, i)
    requires b in t.base && Goes(t, b, i, s, e)
    ensures b in t.mem && |t.mem[b]| == ENTRIES && PlainWord(t.c, 0, t.lvl[b])
    ensures var t1 := Put(t, b, i, 0);
      CutTo(t0, t1, upto + Span(t.lvl[b]), s, e) && Shrunk(t0, f0, t1, f, b, upto + Span(t.lvl[b])) && Tidy(t1, b, upto + Span(t.lvl[b]), s, e)
    ensures |GonePages(t0, upto + Span(t.lvl[b]), s, e)| == |GonePages(t0, upto, s, e)| + Span(t.lvl[b]) / 4096
  {
    ShrunkPage(t0, f0, t, f, b, upto);
    hide Inv, Span, Off, CutTo, Shrunk, Tidy, GonePages, PlainWord;
    ClearEntry(t0, t, b, i, upto, s, e);
    ClearCount(t0, t, b, i, upto, s, e);
    ClearShrunk(t0, f0, t, f, b, i, upto);
    SkipTidy(t, b, i, upto, s, e);
    PutTidy(t, b, i, upto + Span(t.lvl[b]), s, e);
  }

  lemma PutTidy(t: PT, b: nat, i: nat, upto: nat, s: nat, e: nat)
    requires Tidy(t, b, upto, s, e) && b in t.mem && i < |t.mem[b]|
    ensures Tidy(Put(t, b, i, 0), b, upto, s, e)
  {
    hide Span, AllZero, WordAt;
    forall y | y in t.lvl && y != b ensures AllZero(Put(t, b, i, 0), y) == AllZero(t, y) {
      forall j: nat | j < ENTRIES ensures WordAt(Put(t, b, i, 0), y, j) == WordAt(t, y, j) { PutWord(t, b, i, 0, y, j); }
      AllZeroSame(t, Put(t, b, i, 0), y);
    }
  }

  lemma MetaCleared(t: PT, meta: map<nat, seq<Status>>, meta1: map<nat, seq<Status>>, free: set<nat>, b: nat, i: nat)
    requires MetaOk(t, meta) && PoolOk(t, meta, free) && b in t.lvl && i < ENTRIES && b in t.mem
    requires |t.mem[b]| == ENTRIES
    requires meta1.Keys == meta.Keys + {b} && |meta1[b]| == ENTRIES
    requires (forall x :: x in meta1 && x != b ==> meta1[x] == meta[x])
    requires forall j: nat :: j < ENTRIES ==> StatusOf(meta1, b, j) == if j == i then Invalid else StatusOf(meta, b, j)
    ensures MetaOk(Put(t, b, i, 0), meta1) && PoolOk(Put(t, b, i, 0), meta1, free)
  {
    hide Decode, Span;
    forall page, j | 0 <= j < ENTRIES ensures StatusOk(Put(t, b, i, 0), meta1, page, j) {
      assert StatusOk(t, meta, page, j);
      PutWord(t, b, i, 0, page, j);
    }
  }

  lemma MetaDropped(t: PT, meta: map<nat, seq<Status>>, free: set<nat>, b: nat, i: nat, x: nat)
    requires Inv(t) && MetaOk(t, meta) && PoolOk(t, meta, free) && b in t.lvl && LastTable(t, b, i, 0, x) && x in t.lvl
    ensures MetaOk(DropTable(t, b, i, 0, x), meta - {x}) && PoolOk(DropTable(t, b, i, 0, x), meta - {x}, free + {x})
  {
    hide Inv, Span;
    PageOf(t, x);
    var t1 := DropTable(t, b, i, 0, x);
    forall page, j | 0 <= j < ENTRIES ensures StatusOk(t1, meta - {x}, page, j) {
      assert StatusOk(t, meta, page, j);
      PutWord(t, b, i, 0, page, j);
    }
  }

  lemma LocksFreed(free: set<nat>, locked: seq<nat>, locked1: seq<nat>, x: nat)
    requires LocksOk(free, locked) && forall k :: 0 <= k < |locked1| ==> locked1[k] != x && locked1[k] in locked
    ensures LocksOk(free + {x}, locked1)
  {
  }

  function StatusFor(m: Mapping, va: nat): Status {
    match m
    case Unmapped => Invalid
    case Mapped(p, f, lv) => MappedAt(if p < va % Span(lv) then 0 else p - va % Span(lv), f, Span(lv))
  }

  lemma RootCovers(t: PT, va: nat)
    requires Inv(t) && va < Span(t.top + 1)
    ensures t.root in t.lvl && t.lvl[t.root] == t.top && Covers(t, t.root, va)
  {
    PageOf(t, t.root);
  }

  lemma LookStep(t: PT, page: nat, level: nat, va: nat)
    requires page in t.mem && |t.mem[page]| == ENTRIES
    ensures var w := t.mem[page][Idx(va, level)];
      Look(t, page, level, va) ==
        if !t.c.present(w) then Unmapped
        else if t.c.isLeaf(w, level) || level == 0 then Mapped(t.c.phys(w, level) + va % Span(level), t.c.flags(w), level)
        else Look(t, t.c.phys(w, level), level - 1, va)
  {
  }

  lemma TableUnrecorded(t: PT, meta: map<nat, seq<Status>>, b: nat, i: nat)
    requires MetaOk(t, meta) && b in t.lvl && i < ENTRIES && EntryAt(t, b, t.lvl[b], i).Table?
    ensures StatusOf(meta, b, i) == Invalid
  {
    assert StatusOk(t, meta, b, i);
  }

  lemma NextCovers(t: PT, page: nat, va: nat)
    requires Inv(t) && page in t.lvl && Covers(t, page, va)
    requires EntryAt(t, page, t.lvl[page], Idx(va, t.lvl[page])).Table?
    ensures var x := EntryAt(t, page, t.lvl[page], Idx(va, t.lvl[page])).page;
      x in t.lvl && t.lvl[page] >= 1 && t.lvl[x] == t.lvl[page] - 1 && Covers(t, x, va)
  {
    hide Span, Off, Idx, PlainWord;
    var i := Idx(va, t.lvl[page]);
    var x := EntryAt(t, page, t.lvl[page], i).page;
    EntryOf(t, page, i);
    PageOf(t, x);
    ChildCovers(t, x, va);
  }

  lemma PhysAbove(t: PT, va: nat)
    requires Inv(t) && va < Span(t.top + 1)
    ensures var m := Translate(t, va); m.Mapped? ==> Span(m.level) > 0 && m.phys >= va % Span(m.level)
  {
    RootCovers(t, va);
    LookAbove(t, t.root, t.top, va);
  }

  lemma {:induction false} LookAbove(t: PT, page: nat, level: nat, va: nat)
    ensures var m := Look(t, page, level, va); m.Mapped? ==> Span(m.level) > 0 && m.phys >= va % Span(m.level)
    decreases level
  {
    match EntryAt(t, page, level, Idx(va, level)) {
      case Table(x) => if level > 0 { LookAbove(t, x, level - 1, va); }
      case _ =>
    }
  }

  /** An entry with recorded metadata is mapped. */
  lemma BlockedMapped(t0: PT, t: PT, meta: map<nat, seq<Status>>, page: nat, va: nat)
    requires Inv(t) && MetaOk(t, meta) && page in t.lvl && Covers(t, page, va)
    requires StatusOf(meta, page, Idx(va, t.lvl[page])) != Invalid
    requires SameView(t0, t) && va < Span(t0.top + 1)
    ensures FlatAt(t0, va).Page?
  {
    hide Inv, Span, Off, Idx, Look;
    var i := Idx(va, t.lvl[page]);
    assert Finer(Translate(t, va), Translate(t0, va));
    assert StatusOk(t, meta, page, i);
    EntryLook(t, page, i, va);
    assert FlatAt(t, va).Page?;
  }

  lemma EmptyRoot(t: PT)
    requires CodecOk(t.c) && 1 <= t.top <= 3 && TableAddress(t.root)
    requires t.lvl == map[t.root := t.top] && t.base == map[t.root := 0]
    requires t.root in t.mem && |t.mem[t.root]| == ENTRIES && forall i :: 0 <= i < ENTRIES ==> t.mem[t.root][i] == 0
    ensures Inv(t) && MetaOk(t, map[]) && forall va: nat :: Translate(t, va) == Unmapped
  {
    assert !t.c.present(0);
    hide CodecOk, Idx;
    assert 0 % Span(t.top + 1) == 0;
    assert GoodPage(t, t.root);
    forall i | 0 <= i < ENTRIES ensures GoodEntry(t, t.root, i) { }
  }

  lemma PoolFrame(t: PT, meta: map<nat, seq<Status>>, free: set<nat>, f: nat)
    requires PoolOk(t, meta, free) && f in free
    ensures TableAddress(f) && f !in t.lvl && f !in meta
  {
  }

  lemma MetaAdd(t: PT, meta: map<nat, seq<Status>>, free: set<nat>, b: nat, i: nat, x: nat, words: seq<nat>)
    requires Inv(t) && MetaOk(t, meta) && PoolOk(t, meta, free)
    requires FreshTable(t, b, i, x, words) && x !in meta && x !in free && StatusOf(meta, b, i) == Invalid
    ensures var t1 := AddTable(t, b, i, x, words); MetaOk(t1, meta) && PoolOk(t1, meta, free)
  {
    hide Inv, Decode, Span;
    var t1 := AddTable(t, b, i, x, words);
    forall page, j | 0 <= j < ENTRIES ensures StatusOk(t1, meta, page, j) {
      assert StatusOk(t, meta, page, j);
      AddWord(t, b, i, x, words, page, j);
    }
  }

  lemma LocksMore(free: set<nat>, locked: seq<nat>, locked1: seq<nat>, x: nat)
    requires LocksOk(free, locked) && x !in free
    requires forall k :: 0 <= k < |locked1| ==> locked1[k] == x || locked1[k] in locked
    ensures LocksOk(free, locked1)
  {
  }

  lemma LocksLess(free: set<nat>, free1: set<nat>, locked: seq<nat>)
    requires LocksOk(free, locked) && free1 <= free
    ensures LocksOk(free1, locked)
  {
  }

  /** Forgetting an entry keeps the metadata true. */
  lemma MetaClear(t: PT, meta: map<nat, seq<Status>>, meta1: map<nat, seq<Status>>, free: set<nat>, b: nat, i: nat)
    requires MetaOk(t, meta) && PoolOk(t, meta, free) && b in t.lvl && i < ENTRIES
    requires meta1.Keys == meta.Keys + {b} && |meta1[b]| == ENTRIES
    requires (forall x :: x in meta1 && x != b ==> meta1[x] == meta[x])
    requires forall j: nat :: j < ENTRIES ==> StatusOf(meta1, b, j) == if j == i then Invalid else StatusOf(meta, b, j)
    ensures MetaOk(t, meta1) && PoolOk(t, meta1, free)
  {
    hide Decode, Span;
    forall page, j | 0 <= j < ENTRIES ensures StatusOk(t, meta1, page, j) {
      assert StatusOk(t, meta, page, j);
    }
  }

  /** The walk to `va` is at table `page` of this level. */
  ghost predicate At(t: PT, page: nat, level: nat, va: nat) {
    page in t.lvl && t.lvl[page] == level && Covers(t, page, va)
  }

  /** The walk went on from `page` to `x`, and can still go on to the target if it could before. */
  ghost predicate Step(t: PT, t1: PT, page: nat, x: nat, level: nat, va: nat, target: nat) {
    level > 0 && At(t1, x, level - 1, va) && (SplitReady(t, page, level, va, target) ==> SplitReady(t1, x, level - 1, va, target))
  }

  /** `[va, va + Span(level))` maps to `phys` on. */
  ghost predicate PageAt(t: PT, va: nat, level: nat, phys: nat, f: Flags) {
    forall a: nat :: va <= a < va + Span(level) ==> Translate(t, a) == Mapped(phys + (a - va), f, level)
  }

  lemma RemappedPage(t: PT, t1: PT, va: nat, level: nat, phys: nat, f: Flags)
    requires Remapped(t, t1, va, level, phys, f) && va + Span(level) <= Span(t.top + 1)
    ensures PageAt(t1, va, level, phys, f)
  {
    hide Translate, Span;
  }

  lemma StepAt(t: PT, t1: PT, page: nat, x: nat, level: nat, va: nat, target: nat)
    requires Step(t, t1, page, x, level, va, target)
    ensures level > 0 && At(t1, x, level - 1, va)
    ensures (SplitReady(t, page, level, va, target) ==> SplitReady(t1, x, level - 1, va, target))
  {
  }

  lemma AtRoot(t: PT, va: nat, target: nat, phys: nat)
    requires Inv(t) && va + Span(target) <= Span(t.top + 1) && target <= 1 && phys % Span(target) == 0
    requires phys + Span(target) <= PHYS_LIMIT
    ensures At(t, t.root, t.top, va) && t.top >= 1 && LeafAddress(phys, target)
  {
    PageOf(t, t.root);
  }

  lemma AtPage(t: PT, page: nat, level: nat, va: nat)
    requires Inv(t) && At(t, page, level, va)
    ensures page in t.lvl && t.lvl[page] == level <= t.top <= 3 && page in t.mem && |t.mem[page]| == ENTRIES
    ensures Covers(t, page, va)
  {
    assert GoodPage(t, page);
  }

  lemma AtLeaf(t: PT, page: nat, level: nat, va: nat, target: nat, p: nat, f: Flags)
    requires Inv(t) && At(t, page, level, va) && level > target && EntryAt(t, page, level, Idx(va, level)) == Leaf(p, f)
    ensures SplitReady(t, page, level, va, target) ==> CanSplit(t.c, p, level)
  {
    hide Inv, Span, Idx, CanSplit;
  }

  lemma AtNext(t: PT, page: nat, level: nat, va: nat, target: nat, x: nat)
    requires Inv(t) && At(t, page, level, va) && level > target && EntryAt(t, page, level, Idx(va, level)) == Table(x)
    ensures Step(t, t, page, x, level, va, target) && x in t.lvl
  {
    assert GoodEntry(t, page, Idx(va, level)) && GoodPage(t, x) && Hangs(t, x);
    HangsLevel(t, x);
    ChildCovers(t, x, va);
  }

  lemma AbsentStatus(t: PT, meta: map<nat, seq<Status>>, b: nat, i: nat)
    requires MetaOk(t, meta) && b in t.lvl && i < ENTRIES && EntryAt(t, b, t.lvl[b], i) == Absent
    ensures StatusOf(meta, b, i) == Invalid
  {
    assert StatusOk(t, meta, b, i);
  }

  lemma EmptyFresh(t: PT, b: nat, i: nat, x: nat, words: seq<nat>)
    requires Inv(t) && b in t.lvl && t.lvl[b] >= 1 && i < ENTRIES && EntryAt(t, b, t.lvl[b], i) == Absent
    requires x !in t.lvl && TableAddress(x) && |words| == ENTRIES && forall j :: 0 <= j < ENTRIES ==> words[j] == 0
    ensures FreshTable(t, b, i, x, words) && SameView(t, AddTable(t, b, i, x, words))
  {
    assert GoodPage(t, b);
    AddEmpty(t, b, i, x, words);
  }

  /** After a new table was hung below, the walk is at it. */
  lemma AtAdded(t: PT, page: nat, va: nat, x: nat, words: seq<nat>)
    requires Inv(t) && Covers(t, page, va) && FreshTable(t, page, Idx(va, t.lvl[page]), x, words)
    ensures var t1 := AddTable(t, page, Idx(va, t.lvl[page]), x, words);
      && x in t1.lvl && t1.lvl[x] == t.lvl[page] - 1 && Covers(t1, x, va)
      && Look(t1, x, t1.lvl[x], va) == PlainLook(t.c, words[Idx(va, t.lvl[page] - 1)], t.lvl[page] - 1, va)
  {
    var level := t.lvl[page];
    assert GoodPage(t, page);
    AddWord(t, page, Idx(va, level), x, words, x, Idx(va, level - 1));
    assert PlainWord(t.c, words[Idx(va, level - 1)], level - 1);
    hide Inv, Idx, CodecOk, Decode;
    RegionIdx(va, t.base[page], level, Idx(va, level));
  }

  lemma AtEmpty(t: PT, page: nat, level: nat, va: nat, target: nat, x: nat, words: seq<nat>)
    requires Inv(t) && Covers(t, page, va) && t.lvl[page] == level && FreshTable(t, page, Idx(va, level), x, words)
    requires forall j :: 0 <= j < ENTRIES ==> words[j] == 0
    ensures Step(t, AddTable(t, page, Idx(va, level), x, words), page, x, level, va, target)
  {
    assert !t.c.present(0);
    AtAdded(t, page, va, x, words);
  }

  lemma AtSplit(t: PT, page: nat, level: nat, va: nat, target: nat, x: nat, words: seq<nat>, p: nat, f: Flags)
    requires Inv(t) && Covers(t, page, va) && t.lvl[page] == level > target
    requires FreshTable(t, page, Idx(va, level), x, words)
    requires SplitWords(t.c, p, f, level, words) && EntryAt(t, page, level, Idx(va, level)) == Leaf(p, f)
    ensures Step(t, AddTable(t, page, Idx(va, level), x, words), page, x, level, va, target)
  {
    assert GoodEntry(t, page, Idx(va, level)) && GoodPage(t, page) && CodecOk(t.c);
    AtAdded(t, page, va, x, words);
    AtLeaf(t, page, level, va, target, p, f);
    hide Inv, CodecOk, Span, Idx, Covers, Look, CanSplit;
    var j := Idx(va, level - 1);
    SplitWord(t.c, p, f, level, words, j);
    if CanSplit(t.c, p, level) {
      CanSplitPiece(t.c, p, level, j);
      PieceHeld(t.c, p, level, j);
    }
  }

  /** Whether unmapping the page removes what was mapped with these flags: exactly when its entry is recognised
      as a leaf. */
  lemma UnmapsWritten(t: PT, t1: PT, t2: PT, va: nat, phys: nat, f: Flags)
    requires Inv(t1) && LeafAddress(phys, 0) && va % 4096 == 0 && va + 4096 <= Span(t1.top + 1) && t1.c == t.c
    requires PageAt(t1, va, 0, t.c.held(phys, 0), t.c.norm(f)) && Cut(t1, t2, va, va + 4096)
    ensures t.c.mappable(f) <==> t.c.isLeaf(t.c.leaf(phys, f, 0), 0)
    ensures forall a: nat :: va <= a < va + 4096 ==>
              Translate(t2, a) == if t.c.mappable(f) then Unmapped else Translate(t1, a)
  {
    CodecOf(t1);
    assert LeafOk(t.c, phys, f, 0) && NormOk(t.c, f);
    hide Inv, CodecOk, Look, Decode;
    var e := va + 4096;
    forall a: nat | va <= a < e ensures Gone(t1, a, va, e) <==> t.c.mappable(f) {
      assert Translate(t1, a) == Mapped(t.c.held(phys, 0) + (a - va), t.c.norm(f), 0);
      AlignedOffset(va, a, 0);
    }
  }

  // ---- explicit mappings along the edits ----

  lemma StayRefl(t: PT, meta: map<nat, seq<Status>>)
    ensures Stay(t, meta, t, meta)
  {
  }

  lemma StayTrans(t: PT, m: map<nat, seq<Status>>, t1: PT, m1: map<nat, seq<Status>>, t2: PT, m2: map<nat, seq<Status>>)
    requires Stay(t, m, t1, m1) && Stay(t1, m1, t2, m2)
    ensures Stay(t, m, t2, m2)
  {
    hide Explicit;
  }

  lemma StayAt(t: PT, m: map<nat, seq<Status>>, t1: PT, m1: map<nat, seq<Status>>, va: nat)
    requires Stay(t, m, t1, m1)
    ensures Explicit(t, m, va) ==> Explicit(t1, m1, va)
  {
    hide Explicit;
  }

  /** A new table, behind an entry of a table above the last level whose metadata was cleared. */
  /** Stay, both ways. */
  lemma StayAdded(t: PT, meta: map<nat, seq<Status>>, meta1: map<nat, seq<Status>>, b: nat, i: nat, x: nat,
      words: seq<nat>)
    requires FreshTable(t, b, i, x, words)
    requires forall y, j: nat :: y != b ==> StatusOf(meta1, y, j) == StatusOf(meta, y, j)
    requires x !in meta
    ensures Stay(t, meta, AddTable(t, b, i, x, words), meta1) && Stay(AddTable(t, b, i, x, words), meta1, t, meta)
  {
    assert forall j: nat :: StatusOf(meta, x, j) == Invalid;
    hide Span, Idx, StatusOf;
    var t1 := AddTable(t, b, i, x, words);
    forall va: nat | Explicit(t1, meta1, va) ensures Explicit(t, meta, va) {
      var y :| Records(t1, meta1, y, va);
      assert Records(t, meta, y, va);
    }
    forall va: nat | Explicit(t, meta, va) ensures Explicit(t1, meta1, va) {
      var y :| Records(t, meta, y, va);
      assert Records(t1, meta1, y, va);
    }
  }

  /** The one table of pages that covers an explicit mapping records it. */
  lemma ExplicitHere(t: PT, meta: map<nat, seq<Status>>, page: nat, va: nat)
    requires Inv(t) && page in t.lvl && Covers(t, page, va)
    ensures t.lvl[page] == 0 ==> (Explicit(t, meta, va) <==> StatusOf(meta, page, Idx(va, 0)) != Invalid)
  {
    hide Inv, Covers, Idx;
    if t.lvl[page] == 0 {
      if Explicit(t, meta, va) {
        var y :| Records(t, meta, y, va);
        UniqueCover(t, page, y, va);
      }
      assert Records(t, meta, page, va) <==> StatusOf(meta, page, Idx(va, 0)) != Invalid;
    }
  }

  /** On the way to an explicit mapping every entry points to a table. */
  lemma ExplicitTable(t: PT, meta: map<nat, seq<Status>>, page: nat, va: nat)
    requires Inv(t) && page in t.lvl && t.lvl[page] >= 1 && Covers(t, page, va)
    ensures Explicit(t, meta, va) ==> EntryAt(t, page, t.lvl[page], Idx(va, t.lvl[page])).Table?
  {
    hide Inv, Covers, Idx;
    if Explicit(t, meta, va) {
      var y :| Records(t, meta, y, va);
      BelowEntry(t, page, y, va);
    }
  }

  lemma StayMapped(t: PT, t1: PT, meta: map<nat, seq<Status>>, meta1: map<nat, seq<Status>>, b: nat, va: nat, p: nat,
      f: Flags, s: Status)
    requires b in t.lvl && t.lvl[b] == 0 && Covers(t, b, va) && LeafWritten(t, t1, b, Idx(va, 0), p, f)
    requires t1.lvl == t.lvl && t1.base == t.base
    requires meta1.Keys == meta.Keys + {b} && (forall x :: x in meta1 && x != b ==> meta1[x] == meta[x])
    requires forall j: nat :: j < ENTRIES ==>
              StatusOf(meta1, b, j) == if j == Idx(va, 0) then s else StatusOf(meta, b, j)
    requires s != Invalid
    ensures Stay(t, meta, t1, meta1) && Explicit(t1, meta1, va)
  {
    hide Span, Idx;
    assert Records(t1, meta1, b, va);
    forall a: nat | Explicit(t, meta, a) ensures Explicit(t1, meta1, a) {
      var y :| Records(t, meta, y, a);
      assert Records(t1, meta1, y, a);
    }
  }

  lemma StayToRefl(t: PT, m: map<nat, seq<Status>>, s: nat, e: nat)
    ensures StayTo(t, m, t, m, s, e)
  {
  }

  lemma StayCleared(t0: PT, m0: map<nat, seq<Status>>, t: PT, m: map<nat, seq<Status>>, m1: map<nat, seq<Status>>,
      b: nat, i: nat, upto: nat, s: nat, e: nat)
    requires StayTo(t0, m0, t, m, s, e) && Inv(t) && CutTo(t0, t, upto, s, e) && b in t.lvl && b in t.base
    requires i < ENTRIES && Goes(t, b, i, s, e)
    requires b in t.mem && |t.mem[b]| == ENTRIES
    requires forall x, j: nat :: j < ENTRIES && (x != b || j != i) ==> StatusOf(m1, x, j) == StatusOf(m, x, j)
    ensures StayTo(t0, m0, Put(t, b, i, 0), m1, s, e)
  {
    hide Inv, Span, Off, Idx, Translate, Gone, CutTo, Goes, StatusOf;
    var t1 := Put(t, b, i, 0);
    forall va: nat | Explicit(t0, m0, va) && !Gone(t0, va, s, e) ensures Explicit(t1, m1, va) {
      assert Explicit(t, m, va);
      var y :| Records(t, m, y, va);
      if y == b && Idx(va, 0) == i { GoesGone(t0, t, b, i, va, upto, s, e); }
      assert Records(t1, m1, y, va);
    }
  }

  lemma GoesGone(t0: PT, t: PT, b: nat, i: nat, va: nat, upto: nat, s: nat, e: nat)
    requires Inv(t) && InRegion(t, b, i, va) && Goes(t, b, i, s, e) && CutTo(t0, t, upto, s, e)
    ensures Gone(t0, va, s, e)
  {
    hide Inv, Span, Off, Idx, Look;
    GoesPlain(t, b, i, s, e);
    PlainGone(t, b, i, va, s, e);
    CoveredBelow(t, b, va);
    CutSame(t0, t, va, upto, s, e);
  }

  lemma GoesPlain(t: PT, b: nat, i: nat, s: nat, e: nat)
    requires b in t.lvl && b in t.base && Goes(t, b, i, s, e)
    ensures !IsTable(t, b, i)
  {
  }

  lemma CoveredBelow(t: PT, b: nat, va: nat)
    requires Inv(t) && Covers(t, b, va)
    ensures va < Span(t.top + 1)
  {
    PageOf(t, b);
  }

  /** What still goes went from the start. */
  lemma CutSame(t0: PT, t: PT, va: nat, upto: nat, s: nat, e: nat)
    requires CutTo(t0, t, upto, s, e) && va < Span(t.top + 1) && Gone(t, va, s, e)
    ensures Gone(t0, va, s, e)
  {
    hide Translate;
    assert Translate(t, va) == Translate(t0, va);
  }

  lemma StayChild(t0: PT, m0: map<nat, seq<Status>>, t: PT, m: map<nat, seq<Status>>, t1: PT, m1: map<nat, seq<Status>>,
      b: nat, upto: nat, s: nat, e: nat, level: nat)
    requires StayTo(t0, m0, t, m, s, e) && Inv(t) && CutTo(t0, t, upto, s, e)
    requires StayTo(t, m, t1, m1, Max(s, upto), Min(e, upto + Span(level)))
    ensures StayTo(t0, m0, t1, m1, s, e)
  {
    hide Inv, Span, Translate, Gone, CutTo, Explicit;
    var lo, hi := Max(s, upto), Min(e, upto + Span(level));
    forall va: nat | Explicit(t0, m0, va) && !Gone(t0, va, s, e) ensures Explicit(t1, m1, va) {
      if Gone(t, va, lo, hi) {
        GoneWider(t, va, lo, hi, s, e);
        ExplicitBelow(t, m, va);
        CutSame(t0, t, va, upto, s, e);
      }
    }
  }

  lemma GoneWider(t: PT, va: nat, lo: nat, hi: nat, s: nat, e: nat)
    requires Gone(t, va, lo, hi) && s <= lo && hi <= e
    ensures Gone(t, va, s, e)
  {
    hide Translate, Span;
  }

  lemma ExplicitBelow(t: PT, m: map<nat, seq<Status>>, va: nat)
    requires Inv(t) && Explicit(t, m, va)
    ensures va < Span(t.top + 1)
  {
    hide Inv, Idx, Span;
    var y :| Records(t, m, y, va);
    CoveredBelow(t, y, va);
  }

  /** An empty table records nothing. */
  lemma StayDropped(t0: PT, m0: map<nat, seq<Status>>, t: PT, m: map<nat, seq<Status>>, b: nat, i: nat, x: nat, s: nat,
      e: nat)
    requires StayTo(t0, m0, t, m, s, e) && Inv(t) && MetaOk(t, m) && AllZero(t, x) && b in t.mem && i < |t.mem[b]|
    ensures StayTo(t0, m0, DropTable(t, b, i, 0, x), m - {x}, s, e)
  {
    hide Inv, Span, Off, Idx, Translate, Gone, MetaOk, AllZero, StatusOf;
    var t1, m1 := DropTable(t, b, i, 0, x), m - {x};
    forall va: nat | Explicit(t0, m0, va) && !Gone(t0, va, s, e) ensures Explicit(t1, m1, va) {
      assert Explicit(t, m, va);
      var y :| Records(t, m, y, va);
      EmptyRecords(t, m, x, va);
      assert StatusOf(m1, y, Idx(va, 0)) == StatusOf(m, y, Idx(va, 0)) by { StatusKept(m, x, y, Idx(va, 0)); }
      assert Records(t1, m1, y, va);
    }
  }

  lemma StatusKept(m: map<nat, seq<Status>>, x: nat, y: nat, j: nat)
    requires y != x
    ensures StatusOf(m - {x}, y, j) == StatusOf(m, y, j)
  {
  }

  lemma EmptyRecords(t: PT, m: map<nat, seq<Status>>, x: nat, va: nat)
    requires Inv(t) && MetaOk(t, m) && AllZero(t, x)
    ensures !Records(t, m, x, va)
  {
    NothingPresent(t);
    hide Inv, Span;
    if x in t.lvl {
      assert StatusOk(t, m, x, Idx(va, 0));
      assert WordAt(t, x, Idx(va, 0)) == 0;
    }
  }

  lemma NothingPresent(t: PT)
    requires Inv(t)
    ensures !t.c.present(0)
  {
  }
}
