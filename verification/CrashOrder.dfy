/** Mounting and unmounting an ext2 volume: the clean marker of the superblock reaches the device only
    after everything else is durable. */
module CrashOrder {
  import opened Bytes
  import opened BlockTree
  import opened BlockCache

  /** The valid-file-system bit of the state byte at `at`. */
  predicate Marked(b: Block, at: nat) { at < |b| && b[at] as int % 2 == 1 }

  /** If a crash can leave the clean marker in the primary superblock, every block that holds no
      superblock copy can only be left with its logical contents. */
  ghost predicate CrashSafe(seen: map<nat, set<Block>>, view: map<nat, Block>, copies: seq<nat>, at: nat) {
    && |copies| > 0 && copies[0] in seen
    && ((exists v :: v in seen[copies[0]] && Marked(v, at)) ==>
          forall b :: b in seen && b !in copies ==> b in view && seen[b] == {view[b]})
  }

  /** No crash can leave the clean marker. */
  ghost predicate Unclean(seen: map<nat, set<Block>>, view: map<nat, Block>, copies: seq<nat>, at: nat) {
    && |copies| > 0 && copies[0] in seen && copies[0] in view && !Marked(view[copies[0]], at)
    && forall v :: v in seen[copies[0]] ==> !Marked(v, at)
  }

  /** A disk that a crash can leave: of every block one of its possible contents. */
  ghost predicate Leaves(seen: map<nat, set<Block>>, disk: map<nat, Block>) {
    disk.Keys == seen.Keys && forall b :: b in disk ==> disk[b] in seen[b]
  }

  /** Every block of the disk that is no superblock copy holds its logical contents. */
  ghost predicate Complete(disk: map<nat, Block>, view: map<nat, Block>, copies: seq<nat>) {
    forall b :: b in disk && b !in copies ==> b in view && disk[b] == view[b]
  }

  /** What crash safety means: every disk a crash can leave whose primary superblock says clean is complete. */
  lemma CleanMeansComplete(seen: map<nat, set<Block>>, view: map<nat, Block>, copies: seq<nat>, at: nat)
    requires |copies| > 0 && copies[0] in seen && forall b :: b in seen ==> seen[b] != {}
    ensures CrashSafe(seen, view, copies, at) <==>
              forall disk :: Leaves(seen, disk) && Marked(disk[copies[0]], at) ==> Complete(disk, view, copies)
  {
    if forall disk :: Leaves(seen, disk) && Marked(disk[copies[0]], at) ==> Complete(disk, view, copies) {
      forall v, b, x | v in seen[copies[0]] && Marked(v, at) && b in seen && b !in copies && x in seen[b]
        ensures b in view && x == view[b]
      {
        var disk := Pick(seen)[copies[0] := v][b := x];
        assert Leaves(seen, disk) && disk[copies[0]] == v;
        assert Complete(disk, view, copies);
      }
      forall b, v | v in seen[copies[0]] && Marked(v, at) && b in seen && b !in copies
        ensures b in view && seen[b] == {view[b]}
      {
        var x :| x in seen[b];
      }
    }
  }

  /** Some disk that a crash can leave. */
  ghost function Pick(seen: map<nat, set<Block>>): (disk: map<nat, Block>)
    requires forall b :: b in seen ==> seen[b] != {}
    ensures Leaves(seen, disk)
  {
    map b | b in seen :: var x :| x in seen[b]; x
  }

  class Volume {
    const cache: BlockCache
    const copies: seq<nat>                         // superblock copies, the primary one first
    const at: nat                                  // where the state byte lies in the primary copy
    const image: (Block, bool, nat) -> Block       // a copy with the in-memory superblock patched in
    var clean: bool                                // the valid bit of the superblock in memory

    constructor (c: BlockCache, sbs: seq<nat>, stateAt: nat, patch: (Block, bool, nat) -> Block, valid: bool)
      requires c.Valid() && c.device.live.Keys == c.View().Keys && |sbs| > 0 && NoDup(sbs)
      requires (forall k :: 0 <= k < |sbs| ==> sbs[k] in c.device.live)
      requires ImageOk(patch, stateAt) && stateAt < c.device.bs
      ensures Valid() && cache == c && copies == sbs && at == stateAt && clean == valid
    {
      cache, copies, at, image, clean := c, sbs, stateAt, patch, valid;
    }

    ghost predicate Valid()
      reads this, cache, cache.device
    {
      && cache.Valid() && cache.device.live.Keys == cache.View().Keys && |copies| > 0 && NoDup(copies) && ImageOk(image, at) && at < cache.device.bs
      && forall k :: 0 <= k < |copies| ==> copies[k] in cache.device.live
    }

    /** The marker in memory is unclean, and unless a write of the primary superblock failed no crash shows a clean one. */
    ghost predicate Mounted()
      reads this, cache, cache.device
    {
      Valid() && !clean && (copies[0] !in cache.device.torn ==> Unclean(cache.device.seen, cache.View(), copies, at))
    }

    /** Patch one superblock copy: read, modify, write. */
    method PatchCopy(k: nat) returns (ok: bool)
      requires Valid() && k < |copies|
      modifies cache, cache.device
      ensures Valid() && cache.device.live.Keys == old(cache.device.live).Keys
      ensures Tore(ok, old(cache.device.torn), cache.device.torn)
      ensures Erred(ok, old(cache.device.errors), cache.device.errors)
      ensures Changed(old(cache.View()), cache.View(), [copies[k]])
      ensures ok ==> cache.View()[copies[k]] == image(old(cache.View())[copies[k]], clean, k)
      ensures ok && k == 0 ==> Marked(cache.View()[copies[0]], at) == clean
      ensures k == 0 ==>
                cache.View()[copies[0]] == old(cache.View())[copies[0]] || Marked(cache.View()[copies[0]], at) == clean
      ensures Logical(old(cache.device.seen), cache.device.seen, old(cache.View()), cache.View(), cache.device.torn)
    {
      hide Logical, SetOf, NoDup, Clean, Over;
      ghost var view, seen := cache.View(), cache.device.seen;
      var data;
      ok, data := cache.ReadBlockCached(copies[k]);
      if !ok { return; }
      ghost var mid, torn := cache.device.seen, cache.device.torn;
      BlockSize(cache, copies[k]);
      assert ImageAt(image, at, data, clean, k);
      ok := cache.WriteBlockCached(copies[k], image(data, clean, k));
      LogicalTrans(seen, mid, cache.device.seen, view, view, cache.View(), torn, cache.device.torn);
    }

    /** Write every superblock copy through the cache, each with the superblock in memory patched in; the primary one
        carries the marker in memory. */
    method WriteSuperBlock() returns (ok: bool)
      requires Valid()
      modifies cache, cache.device
      ensures Valid() && cache.device.live.Keys == old(cache.device.live).Keys
      ensures Tore(ok, old(cache.device.torn), cache.device.torn)
      ensures Erred(ok, old(cache.device.errors), cache.device.errors)
      ensures Changed(old(cache.View()), cache.View(), copies)
      ensures Logical(old(cache.device.seen), cache.device.seen, old(cache.View()), cache.View(), cache.device.torn)
      ensures ok ==> Marked(cache.View()[copies[0]], at) == clean
      ensures ok ==> Stamped(old(cache.View()), cache.View(), copies, image, clean, |copies|)
      ensures cache.View()[copies[0]] == old(cache.View())[copies[0]] || Marked(cache.View()[copies[0]], at) == clean
    {
      hide Logical, SetOf, NoDup, Clean, Over, BlockCache.View, BlockCache.Valid, ImageOk, Changed, Marked, Stamped;
      ghost var view, seen := cache.View(), cache.device.seen;
      ChangedRefl(view);
      StampedNone(view, copies, image, clean);
      LogicalSame(cache);
      ok := true;
      for k := 0 to |copies|
        invariant ok && Valid() && cache.device.live.Keys == old(cache.device.live).Keys
        invariant cache.device.torn == old(cache.device.torn) && cache.device.errors >= old(cache.device.errors)
        invariant Changed(view, cache.View(), copies[..k])
        invariant Stamped(view, cache.View(), copies, image, clean, k)
        invariant Logical(seen, cache.device.seen, view, cache.View(), cache.device.torn)
        invariant if k > 0 then Marked(cache.View()[copies[0]], at) == clean else cache.View() == view
      {
        ghost var v, s, torn := cache.View(), cache.device.seen, cache.device.torn;
        ok := PatchCopy(k);
        ChangedStep(view, v, cache.View(), copies, k);
        LogicalStep(seen, s, cache.device.seen, view, v, cache.View(), torn, cache.device.torn);
        ChangedSome(view, cache.View(), copies, k + 1);
        if !ok { return; }
        StampedStep(view, v, cache.View(), copies, image, clean, k);
      }
      assert copies[..|copies|] == copies;
    }

    // ---- while mounted ----

    /** Any block but a superblock copy is written through the cache. */
    method FsWrite(b: nat, data: Block) returns (ok: bool)
      requires Mounted() && b in cache.device.live && b !in copies && |data| == cache.device.bs
      modifies cache, cache.device
      ensures Mounted() && cache.View() == old(cache.View())[b := data]
      ensures Erred(ok, old(cache.device.errors), cache.device.errors)
    {
      hide SetOf, Clean, Over, BlockCache.View;
      ok := cache.WriteBlockCached(b, data);
    }

    method FsRead(b: nat) returns (ok: bool, data: Block)
      requires Mounted()
      modifies cache, cache.device
      ensures Erred(ok, old(cache.device.errors), cache.device.errors)
      ensures Mounted() && cache.View() == old(cache.View()) && (ok ==> b in cache.View() && data == cache.View()[b])
    {
      hide SetOf, Clean, Over, BlockCache.View;
      ok, data := cache.ReadBlockCached(b);
    }

    /** Consecutive blocks, none of them a superblock copy, past the cache. */
    method FsWriteRun(start: nat, data: seq<Block>) returns (ok: bool)
      requires Mounted() && (forall k :: 0 <= k < |data| ==> |data[k]| == cache.device.bs)
      requires (forall k :: 0 <= k < |copies| ==> copies[k] < start || start + |data| <= copies[k])
      modifies cache, cache.device
      ensures Mounted() && Erred(ok, old(cache.device.errors), cache.device.errors)
      ensures ok ==> forall b :: start <= b < start + |data| ==> b in cache.View() && cache.View()[b] == data[b - start]
      ensures forall b :: b in old(cache.View()) && (b < start || start + |data| <= b) ==>
                b in cache.View() && cache.View()[b] == old(cache.View())[b]
    {
      hide SetOf, Clean;
      ok := cache.WriteBlocks(start, data);
    }

    /** Write the superblock with its unclean marker and everything else, and make it durable.  This needs only the
        marker in memory to be unclean, so it also repairs a volume whose unmount failed. */
    method FsSync(ids: seq<nat>, data: seq<Block>) returns (ok: bool)
      requires Valid() && !clean && Others(ids, data)
      modifies cache, cache.device
      ensures Valid() && !clean && Tore(ok, old(cache.device.torn), cache.device.torn) && (old(Mounted()) ==> Mounted())
      ensures Erred(ok, old(cache.device.errors), cache.device.errors)
      ensures ok ==> Durable() && !Marked(cache.View()[copies[0]], at)
      ensures ok ==> Placed(cache.View(), ids, data, |ids|)
      ensures ok ==> Stamped(old(cache.View()), cache.View(), copies, image, false, |copies|)
      ensures Changed(old(cache.View()), cache.View(), copies + ids)
    {
      hide SetOf, Clean, Over, BlockCache.View, BlockCache.Valid, Unclean, Logical, Marked, Changed, Stamped, Placed;
      ghost var view, seen := cache.View(), cache.device.seen;
      ok := WriteSuperBlock();
      ghost var v := cache.View();
      ChangedMore(view, v, copies, ids);
      StaysUnclean(seen, cache.device.seen, view, cache.View(), copies, at, cache.device.torn);
      if !ok { return; }
      ok := WriteDescriptors(ids, data);
      ChangedBoth(view, v, cache.View(), copies, ids);
      if !ok { return; }
      StampedOther(view, v, cache.View(), copies, image, false, ids);
      view, seen := cache.View(), cache.device.seen;
      ok := cache.Sync();
      StaysUnclean(seen, cache.device.seen, view, cache.View(), copies, at, cache.device.torn);
    }

    /** From a durable unclean state on, whatever happened before, crash points are unclean again. */
    ghost method NewEpoch()
      requires Durable() && !clean && !Marked(cache.View()[copies[0]], at)
      modifies cache.device`seen, cache.device`torn
      ensures Mounted() && cache.device.torn == {} && cache.View() == old(cache.View())
    {
      hide SetOf, NoDup, Clean, BlockCache.View;
      cache.MarkEpoch();
    }

    /** Blocks and new contents for them, none of them a superblock copy. */
    ghost predicate Others(ids: seq<nat>, data: seq<Block>)
      reads this, cache, cache.device
    {
      |data| == |ids| && forall k :: 0 <= k < |ids| ==> ids[k] in cache.device.live && ids[k] !in copies && |data[k]| == cache.device.bs
    }

    /** The group descriptors, wherever their copies lie. */
    method WriteDescriptors(ids: seq<nat>, data: seq<Block>) returns (ok: bool)
      requires Valid() && !clean && Others(ids, data)
      modifies cache, cache.device
      ensures Valid() && !clean && Tore(ok, old(cache.device.torn), cache.device.torn) && (old(Mounted()) ==> Mounted())
      ensures Erred(ok, old(cache.device.errors), cache.device.errors)
      ensures cache.View()[copies[0]] == old(cache.View())[copies[0]]
      ensures ok ==> Placed(cache.View(), ids, data, |ids|)
      ensures Changed(old(cache.View()), cache.View(), ids)
    {
      hide SetOf, Clean, Over, BlockCache.View, Unclean, Marked, Changed, Placed;
      ok := true;
      PlacedNone(cache.View(), ids, data);
      for k := 0 to |ids|
        invariant ok && Valid() && !clean && (old(Mounted()) ==> Mounted())
        invariant Placed(cache.View(), ids, data, k) && Changed(old(cache.View()), cache.View(), ids)
        invariant cache.View()[copies[0]] == old(cache.View())[copies[0]]
        invariant cache.device.live.Keys == old(cache.device.live).Keys && cache.device.torn == old(cache.device.torn)
        invariant cache.device.errors >= old(cache.device.errors)
      {
        PlacedStep(old(cache.View()), cache.View(), ids, data, k);
        ok := FsWriteDescriptor(ids[k], data[k]);
        if !ok { return; }
      }
    }

    method FsWriteDescriptor(b: nat, data: Block) returns (ok: bool)
      requires Valid() && !clean && b in cache.device.live && b !in copies && |data| == cache.device.bs
      modifies cache, cache.device
      ensures Valid() && (old(Mounted()) ==> Mounted()) && cache.View() == old(cache.View())[b := data]
      ensures cache.device.live.Keys == old(cache.device.live).Keys
      ensures Tore(ok, old(cache.device.torn), cache.device.torn)
      ensures Erred(ok, old(cache.device.errors), cache.device.errors)
    {
      hide SetOf, Clean, Over, BlockCache.View;
      ok := cache.WriteBlockCached(b, data);
    }

    /** A crash now leaves every block with its logical contents. */
    ghost predicate Durable()
      reads this, cache, cache.device
    {
      Valid() && forall b :: b in cache.device.live ==> b in cache.View() && cache.device.maybe[b] == {cache.View()[b]}
    }

    // ---- mount and unmount ----

    /** Set the marker in memory, write the superblock copies and flush them. */
    method Publish(valid: bool) returns (ok: bool)
      requires Valid()
      modifies this`clean, cache, cache.device
      ensures Valid() && clean == valid && cache.device.live.Keys == old(cache.device.live).Keys
      ensures Tore(ok, old(cache.device.torn), cache.device.torn)
      ensures Erred(ok, old(cache.device.errors), cache.device.errors)
      ensures Changed(old(cache.View()), cache.View(), copies)
      ensures Logical(old(cache.device.seen), cache.device.seen, old(cache.View()), cache.View(), cache.device.torn)
      ensures ok ==> Durable() && Marked(cache.View()[copies[0]], at) == valid
      ensures ok ==> Stamped(old(cache.View()), cache.View(), copies, image, valid, |copies|)
    {
      hide SetOf, NoDup, Clean, Over, BlockCache.View, Logical, ImageOk;
      clean := valid;
      ghost var view, seen := cache.View(), cache.device.seen;
      ok := WriteSuperBlock();
      if !ok { return; }
      ghost var v, s, torn := cache.View(), cache.device.seen, cache.device.torn;
      ok := cache.Sync();
      LogicalStep(seen, s, cache.device.seen, view, v, cache.View(), torn, cache.device.torn);
    }

    /** On failure the marker in memory goes back to what it was, and the one in the cached copies too unless `again`
        reports that they could not be written. */
    method PublishOrRestore(valid: bool) returns (ok: bool, again: bool)
      requires Valid()
      modifies this`clean, cache, cache.device
      ensures Valid() && clean == (if ok then valid else old(clean))
      ensures again ==> Marked(cache.View()[copies[0]], at) == clean
      ensures Erred(ok && again, old(cache.device.errors), cache.device.errors)
      ensures !ok && !again ==> cache.device.errors >= old(cache.device.errors) + 2
      ensures Tore(ok, old(cache.device.torn), cache.device.torn)
      ensures Changed(old(cache.View()), cache.View(), copies)
      ensures ok ==> Durable() && Marked(cache.View()[copies[0]], at) == valid
      ensures ok ==> Stamped(old(cache.View()), cache.View(), copies, image, valid, |copies|)
      ensures LogicalCopies(old(cache.device.seen), cache.device.seen, old(cache.View()), cache.View(), copies, cache.device.torn)
    {
      hide SetOf, NoDup, Clean, Over, BlockCache.View, BlockCache.Valid, Logical, ImageOk, Changed, Marked, Stamped;
      hide LogicalCopies;
      var previous := clean;
      ghost var view, seen := cache.View(), cache.device.seen;
      ok := Publish(valid);
      LogicalOthers(seen, cache.device.seen, view, cache.View(), copies, cache.device.torn);
      again := ok;
      if !ok {
        clean := previous;
        ghost var v, s, torn := cache.View(), cache.device.seen, cache.device.torn;
        again := WriteSuperBlock();
        ChangedTwice(view, v, cache.View(), copies);
        LogicalOthers(s, cache.device.seen, v, cache.View(), copies, cache.device.torn);
        LogicalTwice(seen, s, cache.device.seen, view, v, cache.View(), copies, torn, cache.device.torn);
      }
    }

    /** Publish the unclean marker before the first change.  Errors before a successful mount do not matter. */
    method OnMount() returns (ok: bool, again: bool)
      requires Valid()
      modifies this`clean, cache, cache.device
      ensures Valid() && (ok ==> Mounted() && cache.device.torn == {}) && (!ok ==> clean == old(clean))
      ensures again ==> Marked(cache.View()[copies[0]], at) == clean
      ensures Erred(ok && again, old(cache.device.errors), cache.device.errors)
      ensures !ok && !again ==> cache.device.errors >= old(cache.device.errors) + 2
      ensures Changed(old(cache.View()), cache.View(), copies)
      ensures ok ==> Stamped(old(cache.View()), cache.View(), copies, image, false, |copies|)
    {
      hide SetOf, NoDup, Clean, Over, BlockCache.View, Logical, ImageOk, Marked;
      ok, again := PublishOrRestore(false);
      if ok { NewEpoch(); }
    }

    /** Make every change durable while the volume still carries the unclean marker; only then publish the clean one.
        `first` and `last` are what crashes could leave before and after that point.  When the first part fails the
        volume is as it was.  When the second fails, a crash may leave the clean marker, and is still safe. */
    method OnUnmount(ids: seq<nat>, data: seq<Block>)
      returns (ok: bool, synced: bool, again: bool, ghost first: map<nat, set<Block>>, ghost last: map<nat, set<Block>>, ghost torn: set<nat>)
      requires Mounted() && Others(ids, data)
      modifies this`clean, cache, cache.device
      ensures Valid() && clean == ok && (ok ==> synced && Marked(cache.View()[copies[0]], at) && Durable())
      ensures again ==> Marked(cache.View()[copies[0]], at) == clean
      ensures Erred(ok && again, old(cache.device.errors), cache.device.errors)
      ensures synced && !ok && !again ==> cache.device.errors >= old(cache.device.errors) + 2
      ensures synced ==> Placed(cache.View(), ids, data, |ids|)
      ensures Changed(old(cache.View()), cache.View(), copies + ids)
      ensures ok ==> Restamped(old(cache.View()), cache.View(), copies, image)
      ensures copies[0] !in torn ==> CrashSafe(first, cache.View(), copies, at)
      ensures !synced ==> Mounted() && torn == cache.device.torn
      ensures synced && cache.device.torn <= SetOf(copies) ==> CrashSafe(last, cache.View(), copies, at)
      ensures synced ==> last == cache.device.seen
      ensures synced && !ok ==> (Mounted() <== !Marked(cache.View()[copies[0]], at) && forall v :: v in cache.device.seen[copies[0]] ==> !Marked(v, at))
    {
      hide SetOf, NoDup, Clean, Over, BlockCache.View, Logical, LogicalCopies, CrashSafe, ImageOk, Changed, Marked;
      hide Stamped, Placed, Restamped, BlockCache.Valid;
      ghost var start := cache.View();
      ok := FsSync(ids, data);
      synced, again := ok, ok;
      first, torn := cache.device.seen, cache.device.torn;
      UncleanIsSafe(first, cache.View(), copies, at);
      last := first;
      if !ok { return; }
      cache.MarkEpoch();
      SeenSome(cache);
      ghost var view, seen := cache.View(), cache.device.seen;
      ok, again := PublishOrRestore(true);
      last := cache.device.seen;
      PlacedOther(view, cache.View(), copies, ids, data);
      ChangedAll(start, view, cache.View(), copies, ids);
      if ok { StampedTwice(start, view, cache.View(), copies, image); }
      SeenSome(cache);
      CopiesIsSafe(seen, last, view, cache.View(), copies, at, cache.device.torn);
    }
  }

  /** Blocks that are no superblock copies and were not torn can only be left with contents they had. */
  ghost predicate LogicalCopies(seen: map<nat, set<Block>>, seen1: map<nat, set<Block>>, view: map<nat, Block>,
      view1: map<nat, Block>, copies: seq<nat>, torn: set<nat>) {
    seen1.Keys == seen.Keys && forall b :: b in seen && b !in torn && b !in copies ==> b in view && seen1[b] <= seen[b] + {view[b]}
  }

  lemma LogicalOthers(seen: map<nat, set<Block>>, seen1: map<nat, set<Block>>, view: map<nat, Block>, view1: map<nat,
      Block>, copies: seq<nat>, torn: set<nat>)
    requires Logical(seen, seen1, view, view1, torn) && Changed(view, view1, copies)
    ensures LogicalCopies(seen, seen1, view, view1, copies, torn)
  {
  }

  lemma LogicalTwice(seen: map<nat, set<Block>>, seen1: map<nat, set<Block>>, seen2: map<nat, set<Block>>,
      view: map<nat, Block>, view1: map<nat, Block>, view2: map<nat, Block>, copies: seq<nat>, torn1: set<nat>,
      torn: set<nat>)
    requires LogicalCopies(seen, seen1, view, view1, copies, torn1)
    requires LogicalCopies(seen1, seen2, view1, view2, copies, torn)
    requires torn1 <= torn && Changed(view, view1, copies)
    ensures LogicalCopies(seen, seen2, view, view2, copies, torn)
  {
  }

  lemma ChangedTwice(view: map<nat, Block>, view1: map<nat, Block>, view2: map<nat, Block>, copies: seq<nat>)
    requires Changed(view, view1, copies) && Changed(view1, view2, copies)
    ensures Changed(view, view2, copies)
  {
  }

  lemma SeenSome(c: BlockCache)
    requires c.Valid()
    ensures c.device.seen.Keys == c.device.live.Keys == c.device.maybe.Keys
    ensures forall b :: b in c.device.seen ==> c.device.seen[b] != {}
  {
  }

  /** The first `n` copies hold what they held, with the superblock in memory patched in. */
  ghost predicate Stamped(view: map<nat, Block>, view1: map<nat, Block>, copies: seq<nat>,
      image: (Block, bool, nat) -> Block, clean: bool, n: nat) {
    n <= |copies| && forall k :: 0 <= k < n ==>
      copies[k] in view && copies[k] in view1 && view1[copies[k]] == image(view[copies[k]], clean, k)
  }

  /** The same after they were patched twice, first unclean and then clean. */
  ghost predicate Restamped(view: map<nat, Block>, view1: map<nat, Block>, copies: seq<nat>,
      image: (Block, bool, nat) -> Block) {
    forall k :: 0 <= k < |copies| ==>
      && copies[k] in view && copies[k] in view1
      && view1[copies[k]] == image(image(view[copies[k]], false, k), true, k)
  }

  /** The first `n` blocks of `ids` hold their new contents; of a block listed twice, the later ones. */
  ghost predicate Placed(view: map<nat, Block>, ids: seq<nat>, data: seq<Block>, n: nat) {
    n <= |ids| == |data| && forall k :: 0 <= k < n && Last(ids, k, n) ==> ids[k] in view && view[ids[k]] == data[k]
  }

  /** No later one of the first `n` is the same. */
  ghost predicate Last(ids: seq<nat>, k: nat, n: nat)
    requires k < n <= |ids|
  {
    forall j :: k < j < n ==> ids[j] != ids[k]
  }

  lemma StampedNone(view: map<nat, Block>, copies: seq<nat>, image: (Block, bool, nat) -> Block, clean: bool)
    ensures Stamped(view, view, copies, image, clean, 0)
  {
  }

  lemma StampedStep(view: map<nat, Block>, view1: map<nat, Block>, view2: map<nat, Block>, copies: seq<nat>,
      image: (Block, bool, nat) -> Block, clean: bool, k: nat)
    requires k < |copies| && NoDup(copies) && Changed(view, view1, copies[..k]) && Changed(view1, view2, [copies[k]])
    requires Stamped(view, view1, copies, image, clean, k) && copies[k] in view
    requires copies[k] in view2 && copies[k] in view1 && view2[copies[k]] == image(view1[copies[k]], clean, k)
    ensures Stamped(view, view2, copies, image, clean, k + 1)
  {
    assert copies[k] !in copies[..k];
    forall j | 0 <= j < k ensures copies[j] != copies[k] { assert copies[..k][j] == copies[j]; }
  }

  /** Writing blocks that are no copies keeps the copies. */
  lemma StampedOther(view: map<nat, Block>, view1: map<nat, Block>, view2: map<nat, Block>, copies: seq<nat>,
      image: (Block, bool, nat) -> Block, clean: bool, ids: seq<nat>)
    requires Stamped(view, view1, copies, image, clean, |copies|) && Changed(view1, view2, ids)
    requires forall k :: 0 <= k < |ids| ==> ids[k] !in copies
    ensures Stamped(view, view2, copies, image, clean, |copies|)
  {
  }

  lemma StampedTwice(view: map<nat, Block>, view1: map<nat, Block>, view2: map<nat, Block>, copies: seq<nat>,
      image: (Block, bool, nat) -> Block)
    requires Stamped(view, view1, copies, image, false, |copies|) && Stamped(view1, view2, copies, image, true, |copies|)
    ensures Restamped(view, view2, copies, image)
  {
  }

  lemma PlacedNone(view: map<nat, Block>, ids: seq<nat>, data: seq<Block>)
    requires |ids| == |data|
    ensures Placed(view, ids, data, 0) && Changed(view, view, ids)
  {
  }

  lemma PlacedStep(view: map<nat, Block>, view1: map<nat, Block>, ids: seq<nat>, data: seq<Block>, k: nat)
    requires k < |ids| && Placed(view1, ids, data, k) && Changed(view, view1, ids) && ids[k] in view1
    ensures Placed(view1[ids[k] := data[k]], ids, data, k + 1) && Changed(view, view1[ids[k] := data[k]], ids)
  {
    var view2 := view1[ids[k] := data[k]];
    forall j | 0 <= j < k + 1 && Last(ids, j, k + 1) ensures ids[j] in view2 && view2[ids[j]] == data[j] {
      if j < k {
        LastBefore(ids, j, k);
        assert ids[j] in view1 && view1[ids[j]] == data[j];
      }
    }
    hide Last;
    ChangedOne(view, view1, ids, ids[k], data[k]);
  }

  lemma LastBefore(ids: seq<nat>, j: nat, k: nat)
    requires j < k < |ids| && Last(ids, j, k + 1)
    ensures Last(ids, j, k) && ids[j] != ids[k]
  {
  }

  lemma ChangedOne(view: map<nat, Block>, view1: map<nat, Block>, ids: seq<nat>, b: nat, data: Block)
    requires Changed(view, view1, ids) && b in ids && b in view1
    ensures Changed(view, view1[b := data], ids)
  {
    var view2 := view1[b := data];
    assert view2.Keys == view.Keys;
  }

  lemma PlacedOther(view: map<nat, Block>, view1: map<nat, Block>, copies: seq<nat>, ids: seq<nat>, data: seq<Block>)
    requires Placed(view, ids, data, |ids|) && Changed(view, view1, copies)
    requires forall k :: 0 <= k < |ids| ==> ids[k] !in copies
    ensures Placed(view1, ids, data, |ids|)
  {
  }

  lemma ChangedMore(view: map<nat, Block>, view1: map<nat, Block>, ids: seq<nat>, more: seq<nat>)
    requires Changed(view, view1, ids)
    ensures Changed(view, view1, ids + more)
  {
  }

  lemma ChangedBoth(view: map<nat, Block>, view1: map<nat, Block>, view2: map<nat, Block>, a: seq<nat>, b: seq<nat>)
    requires Changed(view, view1, a) && Changed(view1, view2, b)
    ensures Changed(view, view2, a + b)
  {
  }

  lemma ChangedAll(view: map<nat, Block>, view1: map<nat, Block>, view2: map<nat, Block>, a: seq<nat>, b: seq<nat>)
    requires Changed(view, view1, a + b) && Changed(view1, view2, a)
    ensures Changed(view, view2, a + b)
  {
  }

  /** Only blocks of `ids` changed. */
  ghost predicate Changed(view: map<nat, Block>, view1: map<nat, Block>, ids: seq<nat>) {
    view1.Keys == view.Keys && forall b :: b in view && b !in ids ==> view1[b] == view[b]
  }

  lemma ChangedRefl(view: map<nat, Block>)
    ensures Changed(view, view, [])
  {
  }

  lemma ChangedStep(view: map<nat, Block>, view1: map<nat, Block>, view2: map<nat, Block>, copies: seq<nat>, k: nat)
    requires k < |copies| && NoDup(copies) && Changed(view, view1, copies[..k]) && Changed(view1, view2, [copies[k]])
    ensures Changed(view, view2, copies[..k + 1])
    ensures forall b :: b in view && b in view1 && b in view2 ==> view1[b] == view[b] || view1[b] == view2[b]
    ensures k > 0 && copies[0] in view ==>
              copies[0] in view1 && copies[0] in view2 && view2[copies[0]] == view1[copies[0]]
  {
    assert copies[..k + 1] == copies[..k] + [copies[k]];
    assert copies[k] !in copies[..k];
  }

  lemma ChangedSome(view: map<nat, Block>, view1: map<nat, Block>, copies: seq<nat>, k: nat)
    requires k <= |copies| && Changed(view, view1, copies[..k])
    ensures Changed(view, view1, copies)
  {
  }

  /** Pointwise: along two changes, the middle contents of a block are the first or the last. */
  lemma LogicalStep(seen: map<nat, set<Block>>, seen1: map<nat, set<Block>>, seen2: map<nat, set<Block>>, view: map<nat,
      Block>, view1: map<nat, Block>, view2: map<nat, Block>, torn1: set<nat>, torn: set<nat>)
    requires torn1 <= torn
    requires forall b :: b in view && b in view1 && b in view2 ==> view1[b] == view[b] || view1[b] == view2[b]
    ensures Logical(seen, seen1, view, view1, torn1) && Logical(seen1, seen2, view1, view2, torn) ==>
              Logical(seen, seen2, view, view2, torn)
  {
  }

  lemma LogicalSame(c: BlockCache)
    requires c.Valid()
    ensures Logical(c.device.seen, c.device.seen, c.View(), c.View(), c.device.torn)
  {
    LogicalRefl(c.device.seen, c.device.live, c.cache, c.device.torn);
  }

  /** Logical changes that leave the primary copy unmarked. */
  lemma StaysUnclean(seen: map<nat, set<Block>>, seen1: map<nat, set<Block>>, view: map<nat, Block>, view1: map<nat,
      Block>, copies: seq<nat>, at: nat, torn: set<nat>)
    requires |copies| > 0 && copies[0] in view && copies[0] in view1
    requires Logical(seen, seen1, view, view1, torn)
    requires (view1[copies[0]] == view[copies[0]] || !Marked(view1[copies[0]], at))
    ensures copies[0] !in torn && Unclean(seen, view, copies, at) ==> Unclean(seen1, view1, copies, at)
  {
  }

  lemma UncleanIsSafe(seen: map<nat, set<Block>>, view: map<nat, Block>, copies: seq<nat>, at: nat)
    ensures Unclean(seen, view, copies, at) ==> forall v :: CrashSafe(seen, v, copies, at)
  {
  }

  /** From a durable state, changes of superblock copies only keep the rest complete. */
  lemma CopiesIsSafe(seen: map<nat, set<Block>>, seen1: map<nat, set<Block>>, view: map<nat, Block>, view1: map<nat,
      Block>, copies: seq<nat>, at: nat, torn: set<nat>)
    requires |copies| > 0 && copies[0] in seen && (forall b :: b in seen ==> b in view && seen[b] == {view[b]})
    requires LogicalCopies(seen, seen1, view, view1, copies, torn) && (forall b :: b in seen1 ==> seen1[b] != {})
    requires Changed(view, view1, copies)
    ensures torn <= SetOf(copies) ==> CrashSafe(seen1, view1, copies, at)
  {
    if torn <= SetOf(copies) {
      forall b | b in seen1 && b !in copies ensures b in view1 && seen1[b] == {view1[b]} {
        assert b !in torn;
        assert view1[b] == view[b];
      }
    }
  }

  /** When a crash can leave the clean marker, one write of another block that is not durable at once is too much. */
  lemma StaleMarker(seen: map<nat, set<Block>>, view: map<nat, Block>, copies: seq<nat>, at: nat, b: nat, data: Block)
    requires |copies| > 0 && copies[0] in seen && (exists v :: v in seen[copies[0]] && Marked(v, at))
    requires b in seen && b !in copies && b in view && view[b] in seen[b] && data != view[b]
    ensures !CrashSafe(seen, view[b := data], copies, at)
  {
    var v :| v in seen[copies[0]] && Marked(v, at);
  }

  ghost predicate ImageOk(image: (Block, bool, nat) -> Block, at: nat) {
    forall b: Block, c: bool, k: nat :: ImageAt(image, at, b, c, k)
  }

  predicate ImageAt(image: (Block, bool, nat) -> Block, at: nat, b: Block, c: bool, k: nat) {
    |image(b, c, k)| == |b| && (k == 0 && at < |b| ==> Marked(image(b, c, k), at) == c)
  }

  lemma BlockSize(c: BlockCache, b: nat)
    requires c.Valid() && b in c.View()
    ensures |c.View()[b]| == c.device.bs
  {
  }
}
