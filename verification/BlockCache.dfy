/** The write-back LRU block cache over a device whose writes can fail and whose unflushed writes can be
    lost in a crash. */
module BlockCache {
  import opened Bytes
  import opened BlockTree

  datatype Entry = Entry(data: Block, dirty: bool)

  /** A block device.  `live` is what reads return; `maybe` holds, of every block, the contents a crash
      could leave; `seen` collects those since the last mark, and `torn` the blocks whose write failed.
      `errors` counts the failures it reported. */
  class Device {
    const bs: nat
    var live: map<nat, Block>
    ghost var maybe: map<nat, set<Block>>
    ghost var seen: map<nat, set<Block>>
    ghost var torn: set<nat>
    ghost var errors: nat

    ghost predicate Valid()
      reads this
    {
      && maybe.Keys == live.Keys == seen.Keys
      && (forall b :: b in live ==> |live[b]| == bs && live[b] in maybe[b] && maybe[b] <= seen[b])
    }

    /** A failed write may leave anything in the block. */
    method WriteBlock(b: nat, data: Block) returns (ok: bool)
      requires Valid() && |data| == bs
      modifies this
      ensures Valid() && live.Keys == old(live).Keys && Tore(ok, old(torn), torn)
      ensures Erred(ok, old(errors), errors)
      ensures forall c :: c in live && c != b ==> live[c] == old(live)[c] && seen[c] <= old(seen)[c]
      ensures ok ==> b in live && live[b] == data
      ensures b in live ==> b in torn || seen[b] <= old(seen)[b] + {data}
      ensures !ok && b in live ==> b in torn
    {
      if b !in live {
        errors := errors + 1;
        return false;
      }
      var garbage: Block := *;
      if * {
        errors := errors + 1;
        if |garbage| == bs { Put(b, garbage); }
        torn := torn + {b};
        return false;
      }
      Put(b, data);
      return true;
    }

    method Put(b: nat, data: Block)
      requires Valid() && |data| == bs && b in live
      modifies this`live, this`maybe, this`seen
      ensures Valid() && live == old(live)[b := data] && MayBecome(old(seen), seen, b, data)
    {
      live := live[b := data];
      maybe := maybe[b := maybe[b] + {data}];
      seen := seen[b := seen[b] + {data}];
    }

    /** The persistence barrier: on success a crash can only leave what was written. */
    method Flush() returns (ok: bool)
      requires Valid()
      modifies this`maybe, this`errors
      ensures Valid() && Erred(ok, old(errors), errors)
      ensures ok ==> forall b :: b in live ==> maybe[b] == {live[b]}
    {
      if * {
        errors := errors + 1;
        return false;
      }
      maybe := map b | b in live :: {live[b]};
      return true;
    }

    method ReadBlock(b: nat) returns (ok: bool, data: Block)
      requires Valid()
      modifies this`errors
      ensures Erred(ok, old(errors), errors) && (ok ==> b in live && data == live[b])
    {
      var fault: bool := *;
      if b !in live || fault {
        errors := errors + 1;
        return false, [];
      }
      return true, live[b];
    }

    /** `read_blocks`: consecutive blocks in one request. */
    method ReadRun(start: nat, count: nat) returns (ok: bool, data: seq<Block>)
      requires Valid()
      modifies this`errors
      ensures Erred(ok, old(errors), errors)
      ensures ok ==>
                |data| == count && forall b :: start <= b < start + count ==> b in live && live[b] == data[b - start]
    {
      data := [];
      ok := true;
      while |data| < count
        invariant |data| <= count && ok && errors >= old(errors)
        invariant forall b :: start <= b < start + |data| ==> b in live && live[b] == data[b - start]
      {
        var d;
        ok, d := ReadBlock(start + |data|);
        if !ok { return; }
        data := data + [d];
      }
    }

    /** `write_blocks`: consecutive blocks in one request. */
    method WriteRun(start: nat, data: seq<Block>) returns (ok: bool)
      requires Valid() && forall k :: 0 <= k < |data| ==> |data[k]| == bs
      modifies this
      ensures Valid() && live.Keys == old(live).Keys && Tore(ok, old(torn), torn)
      ensures Erred(ok, old(errors), errors)
      ensures forall b :: b in live && (b < start || start + |data| <= b) ==> live[b] == old(live)[b]
      ensures ok ==> forall b :: start <= b < start + |data| ==> b in live && live[b] == data[b - start]
      ensures forall b :: b in live && b !in torn ==>
                seen[b] <= old(seen)[b] + if start <= b < start + |data| then {live[b]} else {}
    {
      ok := true;
      for k := 0 to |data|
        invariant ok && Valid() && live.Keys == old(live).Keys && torn == old(torn) && errors >= old(errors)
        invariant forall b :: b in live && (b < start || start + k <= b) ==>
                  live[b] == old(live)[b] && seen[b] <= old(seen)[b]
        invariant forall b :: start <= b < start + k ==>
                  b in live && live[b] == data[b - start] && (b in torn || seen[b] <= old(seen)[b] + {live[b]})
      {
        ok := WriteBlock(start + k, data[k]);
        if !ok { return; }
      }
    }

    /** Start a new epoch of crash points. */
    ghost method Mark()
      requires Valid()
      modifies this`seen, this`torn
      ensures Valid() && seen == maybe && torn == {}
    {
      seen, torn := maybe, {};
    }
  }

  /** A call that succeeds tears no block. */
  ghost predicate Tore(ok: bool, torn: set<nat>, torn1: set<nat>) { torn <= torn1 && (ok ==> torn1 == torn) }

  /** A call fails only when the device reported an error. */
  ghost predicate Erred(ok: bool, errors: nat, errors1: nat) { errors <= errors1 && (!ok ==> errors < errors1) }

  /** Only block `b` may have become `data`. */
  ghost predicate MayBecome(seen: map<nat, set<Block>>, seen1: map<nat, set<Block>>, b: nat, data: Block) {
    && seen1.Keys == seen.Keys
    && forall c :: c in seen ==> seen1[c] <= if c == b then seen[c] + {data} else seen[c]
  }

  function SetOf(s: seq<nat>): set<nat> { set x | x in s }

  ghost predicate NoDup(s: seq<nat>) { forall i, j :: 0 <= i < j < |s| ==> s[i] != s[j] }

  /** The order without `b`: the others keep their places relative to each other. */
  function Without(s: seq<nat>, b: nat): (r: seq<nat>)
    ensures b !in s ==> r == s
    ensures forall x :: x in r <==> x in s && x != b
  {
    if s == [] then []
    else if s[0] == b then Without(s[1..], b)
    else assert s == [s[0]] + s[1..]; [s[0]] + Without(s[1..], b)
  }

  /** The order after `b` was used. */
  function Used(s: seq<nat>, b: nat): seq<nat> { Without(s, b) + [b] }

  /** `r` is `s` with its least recently used entries evicted. */
  ghost predicate Evicted(r: seq<nat>, s: seq<nat>) { |r| <= |s| && r == s[|s| - |r|..] }

  /** The blocks are in the order of their last uses. */
  ghost predicate ByLastUse(order: seq<nat>, last: map<nat, nat>) {
    && (forall i :: 0 <= i < |order| ==> order[i] in last)
    && forall i, j :: 0 <= i < j < |order| ==> last[order[i]] < last[order[j]]
  }

  /** Using a block keeps the order that of the last uses. */
  lemma UseKeepsOrder(order: seq<nat>, last: map<nat, nat>, b: nat, now: nat)
    requires ByLastUse(order, last) && forall x :: x in last ==> last[x] < now
    ensures ByLastUse(Used(order, b), last[b := now])
  {
    WithoutOrder(order, last, b);
    var w := Without(order, b);
    forall i | 0 <= i < |w| ensures w[i] in last && w[i] != b { assert w[i] in w; }
  }

  lemma {:induction false} WithoutOrder(order: seq<nat>, last: map<nat, nat>, b: nat)
    requires ByLastUse(order, last)
    ensures ByLastUse(Without(order, b), last)
  {
    if order != [] {
      TailOrder(order, last);
      WithoutOrder(order[1..], last, b);
      hide Without;
      HeadOrder(order, last, Without(order[1..], b));
      WithoutHead(order, b);
    }
  }

  lemma WithoutHead(s: seq<nat>, b: nat)
    requires s != []
    ensures Without(s, b) == (if s[0] == b then [] else [s[0]]) + Without(s[1..], b)
  {
    assert [] + Without(s[1..], b) == Without(s[1..], b);
  }

  lemma TailOrder(order: seq<nat>, last: map<nat, nat>)
    requires ByLastUse(order, last) && order != []
    ensures ByLastUse(order[1..], last) && order[0] in last
    ensures forall x :: x in order[1..] ==> x in last && last[order[0]] < last[x]
  {
  }

  lemma HeadOrder(order: seq<nat>, last: map<nat, nat>, w: seq<nat>)
    requires order != [] && order[0] in last && ByLastUse(w, last)
    requires forall x :: x in w ==> x in last && last[order[0]] < last[x]
    ensures ByLastUse([order[0]] + w, last) && [] + w == w
  {
    var s := [order[0]] + w;
    forall i | 0 <= i < |w| ensures w[i] in last && last[order[0]] < last[w[i]] { assert w[i] in w; }
    forall i, j | 0 <= i < j < |s| ensures s[i] in last && s[j] in last && last[s[i]] < last[s[j]] {
      assert s[j] == w[j - 1];
      if i > 0 { assert s[i] == w[i - 1]; }
    }
    assert |s| == 1 ==> s[0] in last;
    forall i | 0 <= i < |s| ensures s[i] in last { if i > 0 { assert s[i] == w[i - 1]; } }
  }

  /** Every evicted block was last used before every block that stays. */
  lemma EvictsOldest(order: seq<nat>, kept: seq<nat>, last: map<nat, nat>, x: nat, y: nat)
    requires ByLastUse(order, last) && Evicted(kept, order) && x in order && x !in kept && y in kept
    ensures x in last && y in last && last[x] < last[y] && ByLastUse(kept, last)
  {
    var i :| 0 <= i < |order| && order[i] == x;
    var j :| 0 <= j < |kept| && kept[j] == y;
    var d := |order| - |kept|;
    assert order[d + j] == y;
    forall k | d <= k < |order| ensures order[k] in kept { assert kept[k - d] == order[k]; }
  }

  /** What a reader of the cache sees: cached blocks over the device. */
  ghost function Over(cache: map<nat, Entry>, live: map<nat, Block>): map<nat, Block> {
    map b | b in cache.Keys + live.Keys :: if b in cache then cache[b].data else live[b]
  }

  /** Entries are whole blocks; clean ones match the device. */
  ghost predicate Clean(cache: map<nat, Entry>, live: map<nat, Block>, bs: nat) {
    forall b :: b in cache ==> |cache[b].data| == bs && (!cache[b].dirty ==> b in live && live[b] == cache[b].data)
  }

  /** But for torn blocks, crash contents grew by logical values only. */
  ghost predicate Logical(seen: map<nat, set<Block>>, seen1: map<nat, set<Block>>, view: map<nat, Block>,
      view1: map<nat, Block>, torn: set<nat>) {
    && seen1.Keys == seen.Keys
    && forall b :: b in seen && b !in torn ==> b in view && b in view1 && seen1[b] <= seen[b] + {view[b], view1[b]}
  }

  lemma ViewKeys(cache: map<nat, Entry>, live: map<nat, Block>)
    ensures Over(cache, live).Keys == cache.Keys + live.Keys
  {
  }

  /** Blocks of `[a, b)` are not cached and were written past the cache: the view follows the device there and stays
      the same elsewhere. */
  lemma RunView(view: map<nat, Block>, view1: map<nat, Block>, cache: map<nat, Entry>, live: map<nat, Block>,
      live1: map<nat, Block>, bs: nat, a: nat, b: nat)
    requires live1.Keys == live.Keys && view1 == Over(cache, live) && live.Keys <= view.Keys && Clean(cache, live, bs)
    requires forall c :: a <= c < b ==> c !in cache
    requires forall c :: c in live && (c < a || b <= c) ==> live1[c] == live[c]
    requires forall c :: c < a || b <= c ==> (c in view1 <==> c in view) && (c in view1 ==> view1[c] == view[c])
    ensures Clean(cache, live1, bs)
    ensures forall c :: a <= c < b ==>
              (c in Over(cache, live1) <==> c in live1) && (c in live1 ==> Over(cache, live1)[c] == live1[c])
    ensures forall c :: c < a || b <= c ==>
              (c in Over(cache, live1) <==> c in view) && (c in view ==> Over(cache, live1)[c] == view[c])
  {
  }

  lemma RunLogical(view: map<nat, Block>, view1: map<nat, Block>, live1: map<nat, Block>,
      seen: map<nat, set<Block>>, seen1: map<nat, set<Block>>, a: nat, b: nat, torn: set<nat>)
    requires seen.Keys == live1.Keys == seen1.Keys && live1.Keys <= view.Keys
    requires forall c :: a <= c < b && c in live1 ==> c in view1 && view1[c] == live1[c]
    requires forall c :: (c < a || b <= c) && c in view ==> c in view1 && view1[c] == view[c]
    requires forall c :: c in live1 && c !in torn ==> seen1[c] <= seen[c] + if a <= c < b then {live1[c]} else {}
    ensures Logical(seen, seen1, view, view1, torn)
  {
  }

  class BlockCache {
    const device: Device
    const maxBlocks: nat
    var cache: map<nat, Entry>
    var order: seq<nat>              // least recently used first

    constructor (d: Device, capacity: nat)
      requires d.Valid()
      ensures Valid() && device == d && maxBlocks == capacity && View() == d.live
    {
      device, maxBlocks, cache, order := d, capacity, map[], [];
    }

    ghost predicate Valid()
      reads this, device
    {
      device.Valid() && Clean(cache, device.live, device.bs) && NoDup(order) && SetOf(order) == cache.Keys
    }

    ghost function View(): map<nat, Block>
      reads this, device
    {
      Over(cache, device.live)
    }

    /** `view` is still what readers see, and no crash can show anything else than it could or than `view`. */
    ghost predicate Kept(view: map<nat, Block>, seen: map<nat, set<Block>>, live: map<nat, Block>)
      reads this, device
    {
      Valid() && View() == view && device.live.Keys == live.Keys && Logical(seen, device.seen, view, view, device.torn)
    }

    /** Take a block out of the LRU order. */
    method Unorder(b: nat)
      requires NoDup(order) && b in order
      modifies this`order
      ensures NoDup(order) && SetOf(order) == SetOf(old(order)) - {b} && order == Without(old(order), b)
    {
      var pos := 0;
      while order[pos] != b
        invariant pos < |order| && forall j :: 0 <= j < pos ==> order[j] != b
        decreases |order| - pos
      {
        pos := pos + 1;
      }
      RemoveAt(order, pos);
      WithoutAt(order, pos);
      order := order[..pos] + order[pos + 1..];
    }

    /** Move a block to the most recently used end. */
    method Touch(b: nat)
      requires Valid() && b in cache
      modifies this`order
      ensures Valid() && order == Used(old(order), b)
    {
      assert b in SetOf(order);
      Unorder(b);
      assert b !in SetOf(order);
      AppendNew(order, b);
      order := order + [b];
    }

    /** Write back a dirty entry. */
    method WriteBack(b: nat) returns (ok: bool)
      requires Valid() && b in cache && cache[b].dirty
      modifies device
      ensures Kept(old(View()), old(device.seen), old(device.live)) && Tore(ok, old(device.torn), device.torn)
      ensures Erred(ok, old(device.errors), device.errors)
      ensures ok ==> b in device.live && device.live[b] == cache[b].data
      ensures forall c :: c in device.live && c != b ==> device.live[c] == old(device.live)[c]
    {
      ok := device.WriteBlock(b, cache[b].data);
      assert View() == old(View());
    }

    /** Make a dirty entry durable. */
    method WriteThrough(b: nat) returns (ok: bool)
      requires Valid() && b in cache && cache[b].dirty
      modifies device
      ensures Kept(old(View()), old(device.seen), old(device.live)) && Tore(ok, old(device.torn), device.torn)
      ensures Erred(ok, old(device.errors), device.errors)
      ensures ok ==> b in device.live && device.live[b] == cache[b].data
    {
      ok := WriteBack(b);
      if ok { ok := device.Flush(); }
    }

    /** Start a new epoch of crash points. */
    ghost method MarkEpoch()
      requires Valid()
      modifies device`seen, device`torn
      ensures Valid() && View() == old(View()) && device.seen == device.maybe && device.torn == {}
    {
      device.Mark();
    }

    lemma KeptRefl()
      requires Valid()
      ensures Kept(View(), device.seen, device.live)
    {
      LogicalRefl(device.seen, device.live, cache, device.torn);
    }

    /** Evict the least recently used entry.  A dirty victim stays unless its write and the barrier succeed. */
    method EvictOne() returns (ok: bool)
      requires Valid() && |cache| > 0
      modifies this`cache, this`order, device
      ensures Kept(old(View()), old(device.seen), old(device.live)) && Tore(ok, old(device.torn), device.torn)
      ensures Erred(ok, old(device.errors), device.errors)
      ensures ok ==> |cache| == |old(cache)| - 1
      ensures ok ==> old(order) != [] && order == old(order)[1..] && cache == old(cache) - {old(order)[0]}
      ensures !ok ==> cache == old(cache) && order == old(order)
    {
      hide Over, Logical, SetOf, NoDup, Clean;
      KeptRefl();
      FirstIn(order, cache);
      var victim := order[0];
      if cache[victim].dirty {
        ok := WriteThrough(victim);
        if !ok { return; }
      } else {
        CleanEntry(cache, device.live, device.bs, victim);
      }
      DropFirst(cache, order, device.live, device.bs);
      cache := cache - {victim};
      order := order[1..];
      return true;
    }

    /** Evict least recently used entries down to the capacity. */
    method EvictIfNeeded() returns (ok: bool)
      requires Valid()
      modifies this`cache, this`order, device
      ensures Kept(old(View()), old(device.seen), old(device.live)) && Tore(ok, old(device.torn), device.torn)
      ensures Erred(ok, old(device.errors), device.errors)
      ensures ok ==> |cache| <= maxBlocks
      ensures Evicted(order, old(order))
    {
      hide View, Logical, SetOf, NoDup, Clean;
      KeptRefl();
      ghost var view, seen, live := View(), device.seen, device.live;
      ok := true;
      while |cache| > maxBlocks
        invariant ok && Kept(view, seen, live) && device.torn == old(device.torn) && device.errors >= old(device.errors) && Evicted(order, old(order))
        decreases |cache|
      {
        ghost var mid, torn := device.seen, device.torn;
        ok := EvictOne();
        LogicalTrans(seen, mid, device.seen, view, view, view, torn, device.torn);
        if !ok { return; }
      }
    }

    /** Insert a missing block at the most recently used end. */
    method Insert(b: nat, e: Entry)
      requires Valid() && b !in cache && |e.data| == device.bs
      requires (!e.dirty ==> b in device.live && device.live[b] == e.data)
      modifies this`cache, this`order
      ensures Valid() && cache == old(cache)[b := e] && View() == old(View())[b := e.data]
      ensures order == Used(old(order), b)
    {
      hide SetOf, NoDup, Over;
      AppendFresh(order, cache, b);
      OverPut(cache, device.live, b, e);
      cache := cache[b := e];
      order := order + [b];
    }

    /** Read a block through the cache. */
    method ReadBlockCached(b: nat) returns (ok: bool, data: Block)
      requires Valid()
      modifies this`cache, this`order, device
      ensures Kept(old(View()), old(device.seen), old(device.live)) && Tore(ok, old(device.torn), device.torn)
      ensures Erred(ok, old(device.errors), device.errors)
      ensures ok ==> b in View() && data == View()[b] && Evicted(order, Used(old(order), b))
    {
      hide SetOf, NoDup, Over, Logical, Clean;
      KeptRefl();
      ghost var view, seen := View(), device.seen;
      OverAt(cache, device.live, b);
      if b in cache {
        data := cache[b].data;
        Touch(b);
        return true, data;
      }
      ok, data := device.ReadBlock(b);
      if !ok { return; }
      DeviceBlock(device, b);
      Insert(b, Entry(data, false));
      assert View() == view;
      ok := EvictIfNeeded();
    }

    /** Write a block through the cache; the device sees it later. */
    method WriteBlockCached(b: nat, data: Block) returns (ok: bool)
      requires Valid() && |data| == device.bs
      modifies this`cache, this`order, device
      ensures Valid() && View() == old(View())[b := data] && device.live.Keys == old(device.live).Keys
      ensures Tore(ok, old(device.torn), device.torn)
      ensures Erred(ok, old(device.errors), device.errors)
      ensures Logical(old(device.seen), device.seen, old(View()), View(), device.torn)
      ensures Evicted(order, Used(old(order), b))
    {
      hide SetOf, NoDup, Over, Logical;
      ghost var view, seen := View(), device.seen;
      LogicalWrite(seen, device.live, cache, b, data, device.torn);
      if b in cache {
        OverPut(cache, device.live, b, Entry(data, true));
        cache := cache[b := Entry(data, true)];
        assert cache.Keys == old(cache).Keys;
        Touch(b);
        return true;
      }
      Insert(b, Entry(data, true));
      ok := EvictIfNeeded();
      LogicalTrans(seen, seen, device.seen, view, View(), View(), old(device.torn), device.torn);
    }

    /** Write the dirty entries among `ids` to the device; stops at the first failure. */
    method WriteDirty(ids: set<nat>) returns (ok: bool)
      requires Valid()
      modifies device
      ensures Kept(old(View()), old(device.seen), old(device.live)) && Tore(ok, old(device.torn), device.torn)
      ensures Erred(ok, old(device.errors), device.errors)
      ensures ok ==> forall b :: b in ids && b in cache ==> b in device.live && device.live[b] == cache[b].data
    {
      hide View, Logical, SetOf, NoDup;
      KeptRefl();
      ghost var view, seen, live := View(), device.seen, device.live;
      var todo := ids;
      ok := true;
      while todo != {}
        invariant ok && Kept(view, seen, live) && device.torn == old(device.torn) && device.errors >= old(device.errors) && todo <= ids
        invariant forall b :: b in ids - todo && b in cache ==> b in device.live && device.live[b] == cache[b].data
        decreases todo
      {
        var b :| b in todo;
        todo := todo - {b};
        if b in cache && cache[b].dirty {
          ghost var mid, torn := device.seen, device.torn;
          ok := WriteBack(b);
          LogicalTrans(seen, mid, device.seen, view, view, view, torn, device.torn);
          if !ok { return; }
        }
      }
    }

    /** Clear the dirty flags of entries that match the device. */
    method MarkClean(ids: set<nat>)
      requires Valid() && forall b :: b in ids && b in cache ==> b in device.live && device.live[b] == cache[b].data
      modifies this`cache
      ensures Valid() && View() == old(View()) && cache.Keys == old(cache).Keys
      ensures forall b :: b in ids && b in cache ==> !cache[b].dirty
    {
      cache := map b | b in cache :: if b in ids then Entry(cache[b].data, false) else cache[b];
      assert View() == old(View());
    }

    /** `flush_range`: after success a direct read of the range sees the cached data. */
    method FlushRange(start: nat, count: nat) returns (ok: bool)
      requires Valid()
      modifies this`cache, device
      ensures Kept(old(View()), old(device.seen), old(device.live)) && Tore(ok, old(device.torn), device.torn)
      ensures Erred(ok, old(device.errors), device.errors)
      ensures ok ==> forall b :: start <= b < start + count && b in device.live ==>
                b in View() && device.live[b] == View()[b] && device.maybe[b] == {View()[b]}
    {
      ok := FlushAll(RangeSet(start, count));
      if ok {
        forall b | start <= b < start + count && b in device.live
          ensures b in View() && device.live[b] == View()[b] && device.maybe[b] == {View()[b]}
        {
          assert b in RangeSet(start, count);
        }
      }
    }

    method FlushAll(ids: set<nat>) returns (ok: bool)
      requires Valid()
      modifies this`cache, device
      ensures Kept(old(View()), old(device.seen), old(device.live)) && Tore(ok, old(device.torn), device.torn)
      ensures Erred(ok, old(device.errors), device.errors)
      ensures ok ==> cache.Keys == old(cache).Keys && (forall b :: b in ids && b in cache ==> !cache[b].dirty)
      ensures ok ==> forall b :: b in device.live ==> device.maybe[b] == {device.live[b]}
    {
      ok := WriteDirty(ids);
      if !ok { return; }
      ok := device.Flush();
      if !ok { return; }
      MarkClean(ids);
    }

    /** `sync`: everything is on the device and durable; dirty flags are cleared only after the barrier. */
    method Sync() returns (ok: bool)
      requires Valid()
      modifies this`cache, device
      ensures Kept(old(View()), old(device.seen), old(device.live)) && Tore(ok, old(device.torn), device.torn)
      ensures Erred(ok, old(device.errors), device.errors)
      ensures ok ==> (forall b :: b in cache ==> !cache[b].dirty) && device.live.Keys == View().Keys
      ensures ok ==> forall b :: b in device.live ==> device.live[b] == View()[b] && device.maybe[b] == {View()[b]}
    {
      ok := FlushAll(cache.Keys);
    }

    /** `invalidate_range`: forget cached copies, dirty or not. */
    method InvalidateRange(start: nat, count: nat)
      requires Valid()
      modifies this`cache, this`order
      ensures Valid() && forall b :: start <= b < start + count ==> b !in cache
      ensures forall b :: b < start || b >= start + count ==>
                (b in View() <==> b in old(View())) && (b in View() ==> View()[b] == old(View())[b])
    {
      hide SetOf, NoDup;
      for b := start to start + count
        invariant Valid() && forall c :: start <= c < b ==> c !in cache
        invariant forall c :: c < start || c >= start + count ==>
                  (c in View() <==> c in old(View())) && (c in View() ==> View()[c] == old(View())[c])
      {
        if b in cache {
          OrderHas(order, cache, b);
          Unorder(b);
          cache := cache - {b};
        }
      }
    }

    /** Consecutive blocks read from the device directly; dirty copies are flushed first. */
    method ReadBlocks(start: nat, count: nat) returns (ok: bool, data: seq<Block>)
      requires Valid()
      modifies this`cache, device
      ensures Kept(old(View()), old(device.seen), old(device.live)) && Tore(ok, old(device.torn), device.torn)
      ensures Erred(ok, old(device.errors), device.errors)
      ensures ok ==> |data| == count && forall b :: start <= b < start + count ==>
                b in View() && View()[b] == data[b - start]
    {
      hide Logical, SetOf, NoDup, Clean, Over;
      ok := FlushRange(start, count);
      data := [];
      if !ok { return; }
      ok, data := device.ReadRun(start, count);
    }

    /** Consecutive blocks written to the device directly; cached copies are dropped first. */
    method WriteBlocks(start: nat, data: seq<Block>) returns (ok: bool)
      requires Valid() && forall k :: 0 <= k < |data| ==> |data[k]| == device.bs
      modifies this`cache, this`order, device
      ensures Valid() && device.live.Keys == old(device.live).Keys && Tore(ok, old(device.torn), device.torn)
      ensures Erred(ok, old(device.errors), device.errors)
      ensures forall b :: b < start || b >= start + |data| ==>
                (b in View() <==> b in old(View())) && (b in View() ==> View()[b] == old(View())[b])
      ensures ok ==> forall b :: start <= b < start + |data| ==> b in View() && View()[b] == data[b - start]
      ensures old(View()).Keys == device.live.Keys ==> View().Keys == device.live.Keys
      ensures Logical(old(device.seen), device.seen, old(View()), View(), device.torn)
    {
      hide SetOf, NoDup, Over, Logical, Clean;
      ghost var view, live, seen := View(), device.live, device.seen;
      ViewKeys(cache, live);
      InvalidateRange(start, |data|);
      ok := device.WriteRun(start, data);
      RunView(view, Over(cache, live), cache, live, device.live, device.bs, start, start + |data|);
      RunLogical(view, View(), device.live, seen, device.seen, start, start + |data|, device.torn);
    }
  }

  lemma RemoveAt(s: seq<nat>, pos: nat)
    requires NoDup(s) && pos < |s|
    ensures NoDup(s[..pos] + s[pos + 1..]) && SetOf(s[..pos] + s[pos + 1..]) == SetOf(s) - {s[pos]}
    ensures s[..0] + s[1..] == s[1..]
  {
    var r := s[..pos] + s[pos + 1..];
    forall x ensures x in r <==> x in s && x != s[pos] {
      if x in s && x != s[pos] {
        var k :| 0 <= k < |s| && s[k] == x;
        assert r[if k < pos then k else k - 1] == x;
      }
    }
  }

  lemma {:induction false} WithoutSum(s: seq<nat>, t: seq<nat>, b: nat)
    ensures Without(s + t, b) == Without(s, b) + Without(t, b)
  {
    if s == [] {
      assert s + t == t;
    } else {
      WithoutSum(s[1..], t, b);
      assert (s + t)[1..] == s[1..] + t;
    }
  }

  lemma WithoutAt(s: seq<nat>, pos: nat)
    requires NoDup(s) && pos < |s|
    ensures Without(s, s[pos]) == s[..pos] + s[pos + 1..]
  {
    hide Without, NoDup;
    var b, head, tail := s[pos], s[..pos], s[pos + 1..];
    Once(s, pos);
    WithoutSum(head, [b] + tail, b);
    WithoutSum([b], tail, b);
    WithoutSelf(b);
    assert s == head + ([b] + tail);
    assert [] + tail == tail;
  }

  lemma Once(s: seq<nat>, pos: nat)
    requires NoDup(s) && pos < |s|
    ensures s[pos] !in s[..pos] && s[pos] !in s[pos + 1..]
  {
  }

  lemma WithoutSelf(b: nat) ensures Without([b], b) == []
  {
    assert Without([], b) == [];
  }

  lemma AppendNew(s: seq<nat>, b: nat)
    requires NoDup(s) && b !in s
    ensures NoDup(s + [b]) && SetOf(s + [b]) == SetOf(s) + {b}
  {
  }

  lemma CardLess(m: map<nat, Entry>, b: nat)
    requires b in m
    ensures |m - {b}| == |m| - 1
  {
    assert (m - {b}).Keys == m.Keys - {b};
    assert |m| == |m.Keys| && |m - {b}| == |(m - {b}).Keys|;
  }

  lemma FirstIn(order: seq<nat>, cache: map<nat, Entry>)
    requires SetOf(order) == cache.Keys && |cache| > 0
    ensures order != [] && order[0] in cache
  {
    assert |cache.Keys| > 0;
    var x :| x in cache.Keys;
    assert x in SetOf(order);
    assert order[0] in SetOf(order);
  }

  lemma CleanEntry(cache: map<nat, Entry>, live: map<nat, Block>, bs: nat, b: nat)
    requires Clean(cache, live, bs) && b in cache && !cache[b].dirty
    ensures b in live && live[b] == cache[b].data
  {
  }

  lemma DropFirst(cache: map<nat, Entry>, order: seq<nat>, live: map<nat, Block>, bs: nat)
    requires Clean(cache, live, bs) && NoDup(order) && SetOf(order) == cache.Keys && order != [] && order[0] in cache
    requires order[0] in live && live[order[0]] == cache[order[0]].data
    ensures var c := cache - {order[0]};
      Clean(c, live, bs) && NoDup(order[1..]) && SetOf(order[1..]) == c.Keys && |c| == |cache| - 1 && Over(c, live) == Over(cache, live)
  {
    RemoveAt(order, 0);
    CardLess(cache, order[0]);
    OverDrop(cache, live, order[0]);
  }

  lemma OverDrop(cache: map<nat, Entry>, live: map<nat, Block>, b: nat)
    requires b in cache && b in live && live[b] == cache[b].data
    ensures Over(cache - {b}, live) == Over(cache, live)
  {
  }

  lemma LogicalRefl(seen: map<nat, set<Block>>, live: map<nat, Block>, cache: map<nat, Entry>, torn: set<nat>)
    requires seen.Keys == live.Keys
    ensures Logical(seen, seen, Over(cache, live), Over(cache, live), torn)
  {
  }

  lemma LogicalTrans(seen: map<nat, set<Block>>, seen1: map<nat, set<Block>>, seen2: map<nat, set<Block>>,
      view: map<nat, Block>, view1: map<nat, Block>, view2: map<nat, Block>, torn1: set<nat>, torn: set<nat>)
    requires (view1 == view || view1 == view2) && torn1 <= torn
    ensures Logical(seen, seen1, view, view1, torn1) && Logical(seen1, seen2, view1, view2, torn) ==>
              Logical(seen, seen2, view, view2, torn)
  {
  }

  lemma AppendFresh(order: seq<nat>, cache: map<nat, Entry>, b: nat)
    requires NoDup(order) && SetOf(order) == cache.Keys && b !in cache
    ensures NoDup(order + [b]) && SetOf(order + [b]) == cache.Keys + {b} && b !in order
  {
    assert b !in SetOf(order);
    AppendNew(order, b);
  }

  lemma OverPut(cache: map<nat, Entry>, live: map<nat, Block>, b: nat, e: Entry)
    ensures Over(cache[b := e], live) == Over(cache, live)[b := e.data]
  {
  }

  lemma OverAt(cache: map<nat, Entry>, live: map<nat, Block>, b: nat)
    ensures b in Over(cache, live) <==> b in cache || b in live
    ensures b in cache ==> Over(cache, live)[b] == cache[b].data
    ensures b !in cache && b in live ==> Over(cache, live)[b] == live[b]
    ensures b !in cache && b in live ==> Over(cache, live)[b := live[b]] == Over(cache, live)
  {
  }

  lemma DeviceBlock(d: Device, b: nat)
    requires d.Valid() && b in d.live
    ensures |d.live[b]| == d.bs
  {
  }

  lemma LogicalWrite(seen: map<nat, set<Block>>, live: map<nat, Block>, cache: map<nat, Entry>, b: nat, data: Block,
      torn: set<nat>)
    requires seen.Keys == live.Keys
    ensures Logical(seen, seen, Over(cache, live), Over(cache, live)[b := data], torn)
  {
  }

  function RangeSet(start: nat, count: nat): (r: set<nat>)
    ensures forall k: nat :: k in r <==> start <= k < start + count
  {
    if count == 0 then {} else RangeSet(start, count - 1) + {start + count - 1}
  }

  lemma OrderHas(order: seq<nat>, cache: map<nat, Entry>, b: nat)
    requires SetOf(order) == cache.Keys && b in cache
    ensures b in order
  {
    assert b in SetOf(order);
  }
}
