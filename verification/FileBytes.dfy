/** The file a block tree stores: bytes, with zeros for holes. */
module FileBytes {
  import opened Bytes
  import opened BlockTree
  import opened BlockSubtree
  import opened BlockEdit
  import opened Results

  function BlockOf(t: Tree, l: nat): (d: Block)
    ensures |d| == 4 * t.p
  {
    if t.p > 0 && |t.root| == SLOTS && l < MaxBlocks(t.p) && Resolve(t, l) != 0 && Stored(t, Resolve(t, l))
    then t.disk[Resolve(t, l)]
    else Zeros(4 * t.p)
  }

  /** The block a position falls in, and where in it; the position at which a block starts. */
  function BlockNo(pos: nat, bs: nat): nat
    requires bs > 0
  {
    if pos < bs then 0 else 1 + BlockNo(pos - bs, bs)
  }

  function BlockOff(pos: nat, bs: nat): (o: nat)
    requires bs > 0
    ensures o < bs
  {
    if pos < bs then pos else BlockOff(pos - bs, bs)
  }

  function Start(l: nat, bs: nat): nat { if l == 0 then 0 else Start(l - 1, bs) + bs }

  function FileByte(t: Tree, pos: nat): Byte
    requires t.p > 0
  {
    BlockOf(t, BlockNo(pos, 4 * t.p))[BlockOff(pos, 4 * t.p)]
  }

  /** No block stores two logical blocks. */
  lemma ResolveInjective(t: Tree, l1: nat, l2: nat)
    requires Inv(t) && l1 < MaxBlocks(t.p) && l2 < MaxBlocks(t.p) && Resolve(t, l1) == Resolve(t, l2) != 0
    ensures l1 == l2
  {
    var (k1, off1) := Locate(t.p, l1);
    var (k2, off2) := Locate(t.p, l2);
    LocateFits(t.p, l1);
    LocateFits(t.p, l2);
    NodeLevel(t, k1, off1, 0);
    assert Cap(t.p, 0) == 1;
    hide Inv, NodeAt, Pos, Locate, MaxBlocks, Cap;
    PosOnPath(t, k1, off1, 0);
    PosOnPath(t, k2, off2, 0);
    LocateInjective(t.p, l1, l2);
  }

  lemma DataNode(t: Tree, l: nat)
    requires Inv(t) && l < MaxBlocks(t.p) && Resolve(t, l) != 0
    ensures Resolve(t, l) in t.lvl && t.lvl[Resolve(t, l)] == 0 && Stored(t, Resolve(t, l))
    ensures BlockOf(t, l) == t.disk[Resolve(t, l)]
  {
    NodeLevel(t, Locate(t.p, l).0, Locate(t.p, l).1, 0);
    assert GoodNode(t, Resolve(t, l));
  }

  /** Allocating `l` leaves every other logical block alone. */
  lemma AllocOther(t: Tree, f: set<nat>, t': Tree, f': set<nat>, l: nat, x: nat, l': nat)
    requires Allocated(t, f, t', f', l, x) && FreeOk(t, f) && l' != l
    ensures BlockOf(t', l') == BlockOf(t, l')
  {
    assert t.p > 0 && |t.root| == SLOTS == |t'.root|;
    hide Resolve, MaxBlocks, Inv;
    if l' < MaxBlocks(t.p) {
      assert Resolve(t', l') == Resolve(t, l');
      if Resolve(t, l') != 0 { DataNode(t, l'); DataNode(t', l'); }
    }
  }

  lemma AllocZeroed(t: Tree, f: set<nat>, t': Tree, f': set<nat>, l: nat, x: nat)
    requires Allocated(t, f, t', f', l, x) && l < MaxBlocks(t.p)
    requires x !in t.lvl ==> x in t'.disk && t'.disk[x] == Zeros(4 * t.p)
    ensures BlockOf(t', l) == BlockOf(t, l)
  {
    hide Resolve, MaxBlocks, Inv;
    DataNode(t', l);
  }

  /** Overwriting the data block of `l` changes that logical block and no other. */
  lemma WriteBlock(t: Tree, l: nat, d: Block, l': nat)
    requires Inv(t) && l < MaxBlocks(t.p) && Resolve(t, l) != 0 && |d| == 4 * t.p
    ensures var t' := t.(disk := t.disk[Resolve(t, l) := d]);
      Inv(t') && BlockOf(t', l') == if l' == l then d else BlockOf(t, l')
  {
    assert t.p > 0 && |t.root| == SLOTS;
    hide Resolve, MaxBlocks, Inv;
    var b := Resolve(t, l);
    var t' := t.(disk := t.disk[b := d]);
    DataNode(t, l);
    DataWrite(t, b, d);
    if l' < MaxBlocks(t.p) {
      assert Resolve(t', l') == Resolve(t, l');
      if Resolve(t, l') != 0 {
        DataNode(t, l');
        DataNode(t', l');
        if Resolve(t, l') == b { ResolveInjective(t, l, l'); }
      }
    }
  }

  // ---- positions ----

  lemma PosSplit(pos: nat, bs: nat)
    requires bs > 0
    ensures pos == Start(BlockNo(pos, bs), bs) + BlockOff(pos, bs)
  {
  }

  lemma StartMono(l: nat, l': nat, bs: nat)
    requires l < l'
    ensures Start(l, bs) + bs <= Start(l', bs)
  {
  }

  /** A position between the start of a block and its end falls in it. */
  lemma InBlock(pos: nat, l: nat, bs: nat)
    requires bs > 0
    ensures Start(l, bs) <= pos < Start(l, bs) + bs <==> BlockNo(pos, bs) == l
  {
    PosSplit(pos, bs);
    var n := BlockNo(pos, bs);
    if n < l { StartMono(n, l, bs); } else if l < n { StartMono(l, n, bs); }
  }

  /** The code computes them by division. */
  lemma {:induction false} DivIs(pos: nat, bs: nat)
    requires bs > 0
    ensures BlockNo(pos, bs) == pos / bs && BlockOff(pos, bs) == pos % bs
  {
    if pos >= bs { DivIs(pos - bs, bs); DivLess(pos, bs); }
  }

  lemma DivLess(pos: nat, bs: nat)
    requires 0 < bs <= pos
    ensures pos / bs == 1 + (pos - bs) / bs && pos % bs == (pos - bs) % bs
  {
    DivUnique(pos, bs, 1 + (pos - bs) / bs, (pos - bs) % bs);
  }

  /** Block numbers are cast to 32 bits: where a request for `pos` is served. */
  function Cast(pos: nat, bs: nat): nat
    requires bs > 0
  {
    Start(BlockNo(pos, bs) % U32, bs) + BlockOff(pos, bs)
  }

  /** Exactly the positions below 2^32 blocks are served where they are. */
  lemma CastExact(pos: nat, bs: nat)
    requires bs > 0
    ensures Cast(pos, bs) == pos <==> BlockNo(pos, bs) < U32
    ensures BlockNo(Cast(pos, bs), bs) == BlockNo(pos, bs) % U32 && BlockOff(Cast(pos, bs), bs) == BlockOff(pos, bs)
  {
    hide BlockNo, BlockOff, Start;
    PosSplit(pos, bs);
    var l, o := BlockNo(pos, bs) % U32, BlockOff(pos, bs);
    Shift(l, o, bs);
    InBlock(o, 0, bs);
    StartZero(bs);
    PosSplit(o, bs);
  }

  /** Positions behind a cast one are cast alike, up to 2^32 blocks. */
  lemma CastAdd(pos: nat, k: nat, bs: nat)
    requires bs > 0 && BlockNo(Cast(pos, bs) + k, bs) < U32
    ensures Cast(pos + k, bs) == Cast(pos, bs) + k
  {
    hide BlockNo, BlockOff, Start;
    PosSplit(pos, bs);
    var b, o := BlockNo(pos, bs), BlockOff(pos, bs);
    Shift(b, o + k, bs);
    Shift(b % U32, o + k, bs);
    PosSplit(o + k, bs);
    StartAdd(b % U32, BlockNo(o + k, bs), bs);
  }

  /** `n` bytes from `pos` on do not cross 2^32 blocks, or no file reaches that far. */
  ghost predicate Uncut(p: nat, pos: nat, n: nat)
    requires p > 0
  {
    MaxBlocks(p) < U32 || n == 0 || BlockNo(Cast(pos, 4 * p) + n - 1, 4 * p) < U32
  }

  /** The same of a request that is served at `pos`. */
  ghost predicate Served(p: nat, pos: nat, n: nat)
    requires p > 0 && n > 0
  {
    BlockNo(pos, 4 * p) < U32 && (MaxBlocks(p) < U32 || BlockNo(pos + n - 1, 4 * p) < U32)
  }

  lemma RunServed(p: nat, pos: nat, n: nat, l: nat, most: nat)
    requires p > 0 && n > 0 && Served(p, pos, n) && pos == Start(l, 4 * p) && most >= 1 && Start(most, 4 * p) <= n
    ensures l < U32 && (MaxBlocks(p) < U32 || l + most <= U32)
  {
    hide BlockNo, MaxBlocks, Start;
    InBlock(pos, l, 4 * p);
    RunEnd(l, most, most, 4 * p);
    BlockNoMono(pos + Start(most, 4 * p) - 1, pos + n - 1, 4 * p);
  }

  /** After `k` bytes of the request were served, the rest is served right behind them. */
  lemma NextServed(p: nat, at: nat, pos: nat, n: nat, k: nat)
    requires p > 0 && 0 < k < n && Served(p, pos, n) && pos == Cast(at, 4 * p)
    requires BlockNo(pos + k - 1, 4 * p) < MaxBlocks(p)
    ensures Served(p, pos + k, n - k) && Cast(at + k, 4 * p) == pos + k
  {
    hide BlockNo, BlockOff, MaxBlocks, Cast, Start;
    var l := BlockNo(pos + k - 1, 4 * p);
    NextBlock(pos + k - 1, 4 * p);
    BlockNoMono(pos + k, pos + n - 1, 4 * p);
    CastAdd(at, k, 4 * p);
  }

  lemma {:induction false} NextBlock(pos: nat, bs: nat)
    requires bs > 0
    ensures BlockNo(pos + 1, bs) <= BlockNo(pos, bs) + 1
  {
    if pos >= bs { NextBlock(pos - bs, bs); }
  }

  /** What is left of a request for `len` bytes at `at` after `n` of them, when it is served at `off`. */
  ghost predicate Due(p: nat, at: nat, off: nat, n: nat, len: nat)
    requires p > 0
  {
    n < len ==> Cast(at + n, 4 * p) == off + n && Served(p, off + n, len - n)
  }

  lemma DueFirst(p: nat, at: nat, len: nat)
    requires p > 0 && Uncut(p, at, len)
    ensures Due(p, at, Cast(at, 4 * p), 0, len)
  {
    if len > 0 { PosServed(p, at, len); }
  }

  lemma PosServed(p: nat, at: nat, n: nat)
    requires p > 0 && n > 0 && Uncut(p, at, n)
    ensures Served(p, Cast(at, 4 * p), n)
  {
    hide BlockNo, MaxBlocks, Cast;
    CastExact(at, 4 * p);
  }

  // ---- writing ----

  /** The first `n` bytes of `buf` were written at `off`, nothing else changed; the bytes from there to
      `hi` are still undetermined. */
  ghost predicate Wrote(t0: Tree, t: Tree, off: nat, buf: seq<Byte>, n: nat, hi: nat) {
    && t0.p > 0 && t.p == t0.p && n <= |buf|
    && forall pos: nat :: !(off + n <= pos < hi) ==>
         FileByte(t, pos) == if off <= pos < off + n then buf[pos - off] else FileByte(t0, pos)
  }

  lemma WroteNone(t: Tree, off: nat, buf: seq<Byte>)
    requires t.p > 0
    ensures Wrote(t, t, off, buf, 0, 0)
  {
  }

  lemma WroteMore(t0: Tree, t: Tree, off: nat, buf: seq<Byte>, n: nat, hi: nat, n': nat, hi': nat)
    requires Wrote(t0, t, off, buf, n, hi) && n' <= n && off + n <= hi' && hi <= hi'
    ensures Wrote(t0, t, off, buf, n', hi')
  {
    hide FileByte;
  }

  lemma WroteAlloc(t0: Tree, t: Tree, f: set<nat>, t': Tree, f': set<nat>, l: nat, x: nat, off: nat, buf: seq<Byte>,
      n: nat, hi: nat, hi': nat)
    requires Wrote(t0, t, off, buf, n, hi) && Allocated(t, f, t', f', l, x) && FreeOk(t, f)
    requires hi <= hi' && off + n <= Start(l, 4 * t.p) && Start(l, 4 * t.p) + 4 * t.p <= hi'
    ensures Wrote(t0, t', off, buf, n, hi')
  {
    hide Resolve, MaxBlocks, Inv, FreeOk, BlockOf, Allocated, Start, BlockNo, BlockOff;
    AllocParams(t, f, t', f', l, x);
    forall pos: nat | !(off + n <= pos < hi') ensures FileByte(t', pos) == FileByte(t, pos) {
      InBlock(pos, l, 4 * t.p);
      AllocOther(t, f, t', f', l, x, BlockNo(pos, 4 * t.p));
    }
  }

  lemma AllocParams(t: Tree, f: set<nat>, t': Tree, f': set<nat>, l: nat, x: nat)
    requires Allocated(t, f, t', f', l, x)
    ensures t'.p == t.p
  {
  }

  lemma WroteAllocZeroed(t0: Tree, t: Tree, f: set<nat>, t': Tree, f': set<nat>, l: nat, x: nat, off: nat,
      buf: seq<Byte>, n: nat, hi: nat)
    requires Wrote(t0, t, off, buf, n, hi) && Allocated(t, f, t', f', l, x) && FreeOk(t, f) && l < MaxBlocks(t.p)
    requires x !in t.lvl ==> x in t'.disk && t'.disk[x] == Zeros(4 * t.p)
    ensures Wrote(t0, t', off, buf, n, hi)
  {
    hide Resolve, MaxBlocks, Inv, FreeOk, BlockOf, Allocated, BlockNo, BlockOff;
    AllocParams(t, f, t', f', l, x);
    forall pos: nat ensures FileByte(t', pos) == FileByte(t, pos) {
      var l' := BlockNo(pos, 4 * t.p);
      if l' == l { AllocZeroed(t, f, t', f', l, x); } else { AllocOther(t, f, t', f', l, x, l'); }
    }
  }

  /** Block `l`, with `m` bytes of `buf` from `n` on put in from offset `o`. */
  ghost predicate Patched(t: Tree, l: nat, o: nat, buf: seq<Byte>, n: nat, m: nat, d: Block) {
    && n + m <= |buf| && o + m <= |d| == 4 * t.p
    && forall j :: 0 <= j < 4 * t.p ==> d[j] == if o <= j < o + m then buf[n + j - o] else BlockOf(t, l)[j]
  }

  /** Writing the patched block moves the write on by `m` bytes.  With bytes still undetermined the
      whole block has to be overwritten. */
  lemma WroteBlock(t0: Tree, t: Tree, off: nat, buf: seq<Byte>, n: nat, hi: nat, l: nat, o: nat, m: nat, d: Block)
    requires Wrote(t0, t, off, buf, n, hi) && Inv(t) && l < MaxBlocks(t.p) && Resolve(t, l) != 0
    requires off + n == Start(l, 4 * t.p) + o && Patched(t, l, o, buf, n, m, d)
    requires hi <= off + n || (o == 0 && m == 4 * t.p)
    ensures var t' := t.(disk := t.disk[Resolve(t, l) := d]); Inv(t') && Wrote(t0, t', off, buf, n + m, hi)
  {
    assert |t.root| == SLOTS;
    PatchedFits(t, l, o, buf, n, m, d);
    hide Resolve, MaxBlocks, Inv, BlockOf, BlockNo, BlockOff, Start, Patched, FileByte;
    WriteBlock(t, l, d, l);
    var t' := t.(disk := t.disk[Resolve(t, l) := d]);
    forall pos: nat | !(off + n + m <= pos < hi)
      ensures FileByte(t', pos) == if off <= pos < off + n + m then buf[pos - off] else FileByte(t0, pos)
    {
      WroteBlockAt(t0, t, off, buf, n, hi, l, o, m, d, pos);
    }
  }

  lemma PatchedFits(t: Tree, l: nat, o: nat, buf: seq<Byte>, n: nat, m: nat, d: Block)
    requires Patched(t, l, o, buf, n, m, d)
    ensures n + m <= |buf| && |d| == 4 * t.p
  {
  }

  lemma WroteBlockAt(t0: Tree, t: Tree, off: nat, buf: seq<Byte>, n: nat, hi: nat, l: nat, o: nat, m: nat, d: Block,
      pos: nat)
    requires Wrote(t0, t, off, buf, n, hi) && Inv(t) && l < MaxBlocks(t.p) && Resolve(t, l) != 0
    requires off + n == Start(l, 4 * t.p) + o && Patched(t, l, o, buf, n, m, d)
    requires hi <= off + n || (o == 0 && m == 4 * t.p)
    requires !(off + n + m <= pos < hi)
    ensures FileByte(t.(disk := t.disk[Resolve(t, l) := d]), pos) ==
            if off <= pos < off + n + m then buf[pos - off] else FileByte(t0, pos)
  {
    TreeParams(t);
    hide Resolve, MaxBlocks, Inv, BlockOf, BlockNo, BlockOff, Start;
    var bs := 4 * t.p;
    assert FileByte(t, pos) == BlockOf(t, BlockNo(pos, bs))[BlockOff(pos, bs)];
    WriteBlock(t, l, d, BlockNo(pos, bs));
    PosSplit(pos, bs);
    InBlock(pos, l, bs);
  }

  // ---- runs of consecutive blocks ----

  lemma {:induction false} StartAdd(a: nat, b: nat, bs: nat)
    ensures Start(a + b, bs) == Start(a, bs) + Start(b, bs)
  {
    if b > 0 { StartAdd(a, b - 1, bs); }
  }

  lemma StartIs(l: nat, bs: nat)
    ensures Start(l, bs) == l * bs
  {
  }

  /** The `j`-th block of a buffer. */
  function Chunk(d: Block, j: nat, bs: nat): (c: Block)
    requires Start(j + 1, bs) <= |d|
    ensures |c| == bs
  {
    d[Start(j, bs)..Start(j, bs) + bs]
  }

  /** `n` blocks written in one request, from block `first` on. */
  function WriteRun(disk: map<nat, Block>, first: nat, n: nat, d: Block, bs: nat): map<nat, Block>
    requires Start(n, bs) <= |d|
  {
    if n == 0 then disk
    else WriteRun(disk, first, n - 1, d, bs)[first + n - 1 := Chunk(d, n - 1, bs)]
  }

  /** Logical blocks from `l` on are stored in consecutive blocks from `first` on. */
  ghost predicate RunAt(t: Tree, l: nat, first: nat, n: nat) {
    && t.p > 0 && |t.root| == SLOTS && first > 0 && (n > 0 ==> l + n <= MaxBlocks(t.p))
    && forall j :: l <= j < l + n ==> Resolve(t, j) == first + (j - l)
  }

  lemma RunStart(t: Tree, l: nat, x: nat)
    requires Inv(t) && x > 0 && l < MaxBlocks(t.p) && Resolve(t, l) == x
    ensures RunAt(t, l, x, 1)
  {
  }

  lemma RunLonger(t: Tree, l: nat, first: nat, n: nat)
    requires RunAt(t, l, first, n) && l + n < MaxBlocks(t.p) && Resolve(t, l + n) == first + n
    ensures RunAt(t, l, first, n + 1)
  {
  }

  /** Allocating past the run keeps it. */
  lemma RunAlloc(t: Tree, f: set<nat>, t': Tree, f': set<nat>, l: nat, first: nat, n: nat, x: nat)
    requires RunAt(t, l, first, n) && Allocated(t, f, t', f', l + n, x)
    ensures RunAt(t', l, first, n)
  {
    hide Resolve, MaxBlocks;
  }

  lemma AllocResolves(t: Tree, f: set<nat>, t': Tree, f': set<nat>, l: nat, x: nat)
    requires Allocated(t, f, t', f', l, x) && l < MaxBlocks(t.p)
    ensures Inv(t') && Resolve(t', l) == x > 0
  {
  }

  /** A run written in one request is the same as its blocks written one by one. */
  lemma {:induction false} WroteRun(t0: Tree, t: Tree, off: nat, buf: seq<Byte>, n: nat, hi: nat, l: nat, first: nat,
      run: nat, d: Block, j: nat)
    requires Wrote(t0, t, off, buf, n, hi) && Inv(t) && RunAt(t, l, first, run) && off + n == Start(l, 4 * t.p)
    requires n + |d| <= |buf| && |d| == Start(run, 4 * t.p) && d == buf[n..n + |d|] && j <= run
    ensures Start(j, 4 * t.p) <= |d|
    ensures RunWritten(t0, t, t.(disk := WriteRun(t.disk, first, j, d, 4 * t.p)), off, buf, n + Start(j, 4 * t.p), hi)
  {
    hide Inv, Resolve, MaxBlocks, Wrote, BlockOf, RunAt, RunWritten, Start, Chunk;
    StartZero(4 * t.p);
    StartAdd(j, run - j, 4 * t.p);
    if j > 0 {
      WroteRun(t0, t, off, buf, n, hi, l, first, run, d, j - 1);
      WroteRunStep(t0, t, off, buf, n, hi, l, first, run, d, j - 1);
    } else {
      assert t.(disk := WriteRun(t.disk, first, 0, d, 4 * t.p)) == t;
      RunDone(t0, t, off, buf, n, hi);
    }
  }

  lemma WroteRunStep(t0: Tree, t: Tree, off: nat, buf: seq<Byte>, n: nat, hi: nat, l: nat, first: nat, run: nat,
      d: Block, j: nat)
    requires Inv(t) && RunAt(t, l, first, run) && off + n == Start(l, 4 * t.p)
    requires n + |d| <= |buf| && |d| == Start(run, 4 * t.p) && d == buf[n..n + |d|] && j < run
    requires Start(j + 1, 4 * t.p) <= |d|
    requires RunWritten(t0, t, t.(disk := WriteRun(t.disk, first, j, d, 4 * t.p)), off, buf, n + Start(j, 4 * t.p), hi)
    ensures RunWritten(t0, t, t.(disk := WriteRun(t.disk, first, j + 1, d, 4 * t.p)), off, buf, n + Start(j + 1, 4 * t.p), hi)
  {
    hide *;
    var bs := 4 * t.p;
    StartAdd(l, j, bs);
    StartNext(j, bs);
    WriteRunNext(t, first, j, d);
    var t1 := t.(disk := WriteRun(t.disk, first, j, d, bs));
    RunParts(t0, t, t1, off, buf, n + Start(j, bs), hi);
    RunNext(t, t1, l, first, run, j);
    FullPatch(t1, l + j, buf, n, d, j);
    WroteBlock(t0, t1, off, buf, n + Start(j, bs), hi, l + j, 0, bs, Chunk(d, j, bs));
    RunExtend(t0, t, t1, off, buf, n + Start(j, bs), n + Start(j + 1, bs), hi, l + j, Chunk(d, j, bs));
  }

  lemma StartNext(j: nat, bs: nat)
    ensures Start(j + 1, bs) == Start(j, bs) + bs
  {
  }

  lemma WriteRunNext(t: Tree, first: nat, j: nat, d: Block)
    requires Start(j + 1, 4 * t.p) <= |d|
    ensures var t1 := t.(disk := WriteRun(t.disk, first, j, d, 4 * t.p));
      t.(disk := WriteRun(t.disk, first, j + 1, d, 4 * t.p)) == t1.(disk := t1.disk[first + j := Chunk(d, j, 4 * t.p)])
  {
  }

  lemma RunExtend(t0: Tree, t: Tree, t1: Tree, off: nat, buf: seq<Byte>, n: nat, n': nat, hi: nat, l: nat, d: Block)
    requires Inv(t) && RunWritten(t0, t, t1, off, buf, n, hi) && t1.lvl == t.lvl
    requires l < MaxBlocks(t.p) && Resolve(t1, l) != 0 && |d| == 4 * t.p
    requires Wrote(t0, t1.(disk := t1.disk[Resolve(t1, l) := d]), off, buf, n', hi)
    ensures RunWritten(t0, t, t1.(disk := t1.disk[Resolve(t1, l) := d]), off, buf, n', hi)
  {
    assert |t1.root| == SLOTS;
    hide Inv, Resolve, MaxBlocks, Wrote, SameFile;
    WriteSame(t1, l, d);
    SameFileThrough(t, t1, t1.(disk := t1.disk[Resolve(t1, l) := d]));
  }

  lemma FullPatch(t: Tree, l: nat, buf: seq<Byte>, n: nat, d: Block, j: nat)
    requires n + |d| <= |buf| && d == buf[n..n + |d|] && Start(j + 1, 4 * t.p) <= |d|
    ensures Patched(t, l, 0, buf, n + Start(j, 4 * t.p), 4 * t.p, Chunk(d, j, 4 * t.p))
  {
    hide BlockOf;
    var s := Start(j, 4 * t.p);
    forall k | 0 <= k < 4 * t.p ensures Chunk(d, j, 4 * t.p)[k] == buf[n + s + k] { assert d[s + k] == buf[n + s + k]; }
  }

  ghost predicate RunWritten(t0: Tree, t: Tree, t': Tree, off: nat, buf: seq<Byte>, n: nat, hi: nat)
    requires Inv(t)
  {
    Inv(t') && t'.p == t.p && Wrote(t0, t', off, buf, n, hi) && SameFile(t, t') && t'.disk.Keys == t.disk.Keys
    && forall b :: b in t.disk && (b !in t.lvl || t.lvl[b] != 0) ==> t'.disk[b] == t.disk[b]
  }

  lemma RunParts(t0: Tree, t: Tree, t1: Tree, off: nat, buf: seq<Byte>, n: nat, hi: nat)
    requires Inv(t) && RunWritten(t0, t, t1, off, buf, n, hi)
    ensures Inv(t1) && |t1.root| == SLOTS && t1.p == t.p > 0 && Wrote(t0, t1, off, buf, n, hi) && SameFile(t, t1)
  {
  }

  lemma RunDone(t0: Tree, t: Tree, off: nat, buf: seq<Byte>, n: nat, hi: nat)
    requires Inv(t) && Wrote(t0, t, off, buf, n, hi)
    ensures RunWritten(t0, t, t, off, buf, n, hi)
  {
  }

  lemma RunNext(t: Tree, t1: Tree, l: nat, first: nat, run: nat, j: nat)
    requires Inv(t) && j < run && RunAt(t, l, first, run) && t1.p == t.p && Inv(t1) && SameFile(t, t1)
    ensures l + j < MaxBlocks(t.p) && 0 < Resolve(t1, l + j) == first + j == Resolve(t, l + j)
  {
    hide Resolve, MaxBlocks;
  }

  lemma WriteSame(t: Tree, l: nat, d: Block)
    requires Inv(t) && l < MaxBlocks(t.p) && Resolve(t, l) != 0 && |d| == 4 * t.p
    ensures var t' := t.(disk := t.disk[Resolve(t, l) := d]);
      Inv(t') && SameFile(t, t') && Resolve(t, l) in t.lvl && t.lvl[Resolve(t, l)] == 0 && Resolve(t, l) in t.disk
  {
    DataNode(t, l);
    DataWrite(t, Resolve(t, l), d);
  }

  lemma SameFileThrough(t0: Tree, t1: Tree, t2: Tree)
    requires Inv(t0) && Inv(t1) && Inv(t2) && t0.p == t1.p == t2.p && SameFile(t0, t1) && SameFile(t1, t2)
    ensures SameFile(t0, t2)
  {
    hide Resolve, MaxBlocks;
  }

  // ---- the rest of the volume ----

  /** The file only took free blocks; blocks of other files kept their contents. */
  ghost predicate Extends(t0: Tree, f0: set<nat>, t: Tree, f: set<nat>) {
    && t.p == t0.p && f <= f0 && t0.lvl.Keys <= t.lvl.Keys <= t0.lvl.Keys + (f0 - f) && t.disk.Keys == t0.disk.Keys
    && (forall x :: x in t0.lvl ==> t.lvl[x] == t0.lvl[x])
    && (forall b :: b in t0.disk && b !in f0 && b !in t0.lvl ==> t.disk[b] == t0.disk[b])
  }

  lemma ExtendsRefl(t: Tree, f: set<nat>)
    ensures Extends(t, f, t, f)
  {
  }

  lemma ExtendsAlloc(t0: Tree, f0: set<nat>, t: Tree, f: set<nat>, t': Tree, f': set<nat>, l: nat, x: nat)
    requires Extends(t0, f0, t, f) && Allocated(t, f, t', f', l, x)
    ensures Extends(t0, f0, t', f')
  {
    hide Inv, SameFileBut, Resolve;
  }

  lemma ExtendsGrown(t0: Tree, f0: set<nat>, t: Tree, f: set<nat>, t': Tree, f': set<nat>)
    requires Extends(t0, f0, t, f) && Grown(t, f, t', f')
    ensures Extends(t0, f0, t', f')
  {
    hide Inv, SameFile, Resolve;
  }

  /** Overwriting blocks of the file. */
  lemma ExtendsWrite(t0: Tree, f0: set<nat>, t: Tree, f: set<nat>, t': Tree)
    requires Extends(t0, f0, t, f) && t' == t.(disk := t'.disk) && t'.disk.Keys == t.disk.Keys
    requires forall b :: b in t.disk && b !in t.lvl ==> t'.disk[b] == t.disk[b]
    ensures Extends(t0, f0, t', f)
  {
  }

  // ---- a failed allocation ----

  lemma WroteGrown(t0: Tree, t: Tree, f: set<nat>, t': Tree, f': set<nat>, off: nat, buf: seq<Byte>, n: nat, hi: nat)
    requires Wrote(t0, t, off, buf, n, hi) && Grown(t, f, t', f') && FreeOk(t, f)
    ensures Wrote(t0, t', off, buf, n, hi)
  {
    GrownParams(t, f, t', f');
    hide *;
    forall pos: nat ensures FileByte(t', pos) == FileByte(t, pos) { GrownByte(t, f, t', f', pos); }
    WroteSame(t0, t, t', off, buf, n, hi);
  }

  lemma GrownParams(t: Tree, f: set<nat>, t': Tree, f': set<nat>)
    requires Grown(t, f, t', f')
    ensures t'.p == t.p > 0 && |t.root| == SLOTS == |t'.root|
  {
  }

  lemma GrownByte(t: Tree, f: set<nat>, t': Tree, f': set<nat>, pos: nat)
    requires Grown(t, f, t', f') && FreeOk(t, f)
    ensures t'.p == t.p > 0 && FileByte(t', pos) == FileByte(t, pos)
  {
    GrownParams(t, f, t', f');
    hide Resolve, MaxBlocks, Inv, BlockNo, BlockOff;
    var l := BlockNo(pos, 4 * t.p);
    if l < MaxBlocks(t.p) {
      assert Resolve(t', l) == Resolve(t, l);
      if Resolve(t, l) != 0 { DataNode(t, l); DataNode(t', l); }
    }
  }

  lemma WroteSame(t0: Tree, t: Tree, t': Tree, off: nat, buf: seq<Byte>, n: nat, hi: nat)
    requires Wrote(t0, t, off, buf, n, hi) && t'.p == t.p && forall pos: nat :: FileByte(t', pos) == FileByte(t, pos)
    ensures Wrote(t0, t', off, buf, n, hi)
  {
    hide FileByte;
  }

  // ---- reading ----

  function Min(a: nat, b: nat): nat { if a < b then a else b }

  /** Some of the bytes from `pos` on, or a failure because the last of them is out of reach. */
  ghost predicate ReadOutcome(t: Tree, pos: nat, remaining: nat, r: Result<Block>) {
    && t.p > 0 && |t.root| == SLOTS && remaining > 0
    && (r.Ok? ==>
          && 1 <= |r.value| <= remaining && (forall k :: 0 <= k < |r.value| ==> r.value[k] == FileByte(t, pos + k))
          && BlockNo(pos + |r.value| - 1, 4 * t.p) < U32
          && (t.root[14] != 0 ==> BlockNo(pos + |r.value| - 1, 4 * t.p) < MaxBlocks(t.p)))
    && (r.Err? ==> t.root[14] != 0 && BlockNo(pos + remaining - 1, 4 * t.p) >= MaxBlocks(t.p))
  }

  lemma TreeParams(t: Tree)
    requires Inv(t)
    ensures t.p > 0 && |t.root| == SLOTS
  {
  }

  lemma StartZero(bs: nat)
    ensures Start(0, bs) == 0
  {
  }

  lemma BlockNoMono(a: nat, b: nat, bs: nat)
    requires bs > 0 && a <= b
    ensures BlockNo(a, bs) <= BlockNo(b, bs)
  {
  }

  lemma {:induction false} Shift(l: nat, k: nat, bs: nat)
    requires bs > 0
    ensures BlockNo(Start(l, bs) + k, bs) == l + BlockNo(k, bs) && BlockOff(Start(l, bs) + k, bs) == BlockOff(k, bs)
  {
    if l > 0 { Shift(l - 1, k, bs); }
  }

  lemma WholeBlocks(n: nat, bs: nat, most: nat)
    requires 0 < bs <= n && most == Min(n / bs, 128)
    ensures 1 <= most && Start(most, bs) <= n
  {
    StartIs(most, bs);
    DivAtLeast(n, bs, 1);
    MulBound(most, n / bs, bs);
  }

  lemma ReadFails(t: Tree, pos: nat, remaining: nat, l: nat, most: nat)
    requires t.p > 0 && |t.root| == SLOTS && remaining > 0 && l == BlockNo(pos, 4 * t.p) && most >= 1
    requires most == 1 || (pos == Start(l, 4 * t.p) && Start(most, 4 * t.p) <= remaining)
    requires t.root[14] != 0 && l + most > MaxBlocks(t.p)
    ensures forall e :: ReadOutcome(t, pos, remaining, Err(e))
  {
    hide MaxBlocks, Start, BlockNo;
    var bs := 4 * t.p;
    if most == 1 {
      BlockNoMono(pos, pos + remaining - 1, bs);
    } else {
      StartAdd(l, most - 1, bs);
      StartNext(most - 1, bs);
      InBlock(pos + Start(most, bs) - 1, l + most - 1, bs);
      StartNext(l + most - 1, bs);
      BlockNoMono(pos + Start(most, bs) - 1, pos + remaining - 1, bs);
    }
  }

  lemma RunStored(t: Tree, l: nat, phys: nat, run: nat)
    requires Inv(t) && RunAt(t, l, phys, run)
    ensures forall j :: phys <= j < phys + run ==> Stored(t, j)
  {
    hide Inv, Resolve, MaxBlocks;
    forall j | phys <= j < phys + run ensures Stored(t, j) { DataNode(t, l + (j - phys)); }
  }

  /** The bytes of `run` consecutive blocks. */
  ghost predicate RunRead(t: Tree, phys: nat, run: nat, d: Block) {
    t.p > 0 && forall k :: 0 <= k < |d| ==>
      && BlockNo(k, 4 * t.p) < run && Stored(t, phys + BlockNo(k, 4 * t.p))
      && d[k] == t.disk[phys + BlockNo(k, 4 * t.p)][BlockOff(k, 4 * t.p)]
  }

  lemma ReadRunByte(t: Tree, pos: nat, l: nat, phys: nat, run: nat, d: Block, k: nat)
    requires Inv(t) && RunAt(t, l, phys, run) && pos == Start(l, 4 * t.p) && RunRead(t, phys, run, d) && k < |d|
    ensures d[k] == FileByte(t, pos + k)
  {
    hide MaxBlocks, Start, BlockNo, BlockOff, Inv, Resolve, BlockOf;
    Shift(l, k, 4 * t.p);
    DataNode(t, l + BlockNo(k, 4 * t.p));
  }

  lemma ReadRunOk(t: Tree, pos: nat, remaining: nat, l: nat, phys: nat, run: nat, most: nat, d: Block)
    requires Inv(t) && t.p > 0 && RunAt(t, l, phys, run) && pos == Start(l, 4 * t.p) && 1 <= run <= most
    requires Start(most, 4 * t.p) <= remaining && l + run <= U32
    requires |d| == Start(run, 4 * t.p) && RunRead(t, phys, run, d)
    ensures ReadOutcome(t, pos, remaining, Ok(d))
  {
    hide MaxBlocks, Start, BlockNo, BlockOff, Inv, Resolve, BlockOf, RunRead, FileByte, RunAt;
    forall k | 0 <= k < |d| ensures d[k] == FileByte(t, pos + k) { ReadRunByte(t, pos, l, phys, run, d, k); }
    RunFits(t, l, phys, run);
    RunEnd(l, run, most, 4 * t.p);
  }

  lemma RunFits(t: Tree, l: nat, phys: nat, run: nat)
    requires RunAt(t, l, phys, run) && run > 0
    ensures t.p > 0 && |t.root| == SLOTS && l + run <= MaxBlocks(t.p)
  {
  }

  /** The last byte of a run falls in its last block. */
  lemma RunEnd(l: nat, run: nat, most: nat, bs: nat)
    requires 1 <= run <= most && bs > 0
    ensures bs <= Start(run, bs) <= Start(most, bs) && BlockNo(Start(l, bs) + Start(run, bs) - 1, bs) == l + run - 1
  {
    hide Start, BlockNo;
    StartAdd(run, most - run, bs);
    StartNext(run - 1, bs);
    StartAdd(l, run - 1, bs);
    InBlock(Start(l, bs) + Start(run, bs) - 1, l + run - 1, bs);
  }

  /** A run that lies before `last` ends in or before its block. */
  lemma RunWithin(l: nat, most: nat, bs: nat, last: nat)
    requires bs > 0 && most >= 1 && Start(l, bs) + Start(most, bs) - 1 <= last
    ensures l + most <= BlockNo(last, bs) + 1
  {
    hide BlockNo, Start;
    RunEnd(l, most, most, bs);
    BlockNoMono(Start(l, bs) + Start(most, bs) - 1, last, bs);
  }

  lemma NextStart(l: nat, run: nat, bs: nat)
    requires bs > 0
    ensures BlockNo(Start(l, bs) + Start(run, bs), bs) == l + run && Start(1, bs) == bs
  {
    hide BlockNo, Start;
    StartAdd(l, run, bs);
    StartOne(bs);
    InBlock(Start(l + run, bs), l + run, bs);
  }

  lemma HolePart(t: Tree, l: nat, o: nat, n: nat)
    requires t.p > 0 && |t.root| == SLOTS && (l < MaxBlocks(t.p) ==> Resolve(t, l) == 0) && o + n <= 4 * t.p
    ensures Zeros(n) == BlockOf(t, l)[o..o + n]
  {
    hide Resolve, MaxBlocks, BlockOf;
    HoleBlock(t, l);
  }

  lemma HoleBlock(t: Tree, l: nat)
    requires t.p > 0 && |t.root| == SLOTS && (l < MaxBlocks(t.p) ==> Resolve(t, l) == 0)
    ensures BlockOf(t, l) == Zeros(4 * t.p)
  {
  }

  lemma ReadPartOk(t: Tree, pos: nat, remaining: nat, chunk: nat, d: Block)
    requires t.p > 0 && |t.root| == SLOTS && remaining > 0
    requires |d| == chunk == Min(remaining, 4 * t.p - BlockOff(pos, 4 * t.p))
    requires var (l, o) := (BlockNo(pos, 4 * t.p), BlockOff(pos, 4 * t.p)); d == BlockOf(t, l)[o..o + chunk]
    requires BlockNo(pos, 4 * t.p) < U32 && (t.root[14] != 0 ==> BlockNo(pos, 4 * t.p) < MaxBlocks(t.p))
    ensures ReadOutcome(t, pos, remaining, Ok(d))
  {
    hide MaxBlocks, Start, BlockNo, BlockOff, BlockOf;
    var (l, o) := (BlockNo(pos, 4 * t.p), BlockOff(pos, 4 * t.p));
    forall k | 0 <= k < chunk ensures BlockNo(pos + k, 4 * t.p) == l && d[k] == FileByte(t, pos + k) {
      PosSplit(pos, 4 * t.p);
      InBlock(pos + k, l, 4 * t.p);
      PosSplit(pos + k, 4 * t.p);
    }
    assert BlockNo(pos + chunk - 1, 4 * t.p) == l by { PosSplit(pos, 4 * t.p); InBlock(pos + chunk - 1, l, 4 * t.p); }
  }

  lemma StartOne(bs: nat)
    ensures Start(1, bs) == bs
  {
    assert Start(0, bs) == 0;
  }

  lemma SameResolve(t: Tree, t': Tree, l: nat)
    requires Inv(t) && Inv(t') && t.p == t'.p && SameFile(t, t') && l < MaxBlocks(t.p)
    ensures Resolve(t', l) == Resolve(t, l)
  {
  }

  lemma FreshIsNew(t: Tree, f: set<nat>, t': Tree, f': set<nat>, l: nat, x: nat)
    requires Allocated(t, f, t', f', l, x)
    ensures x in t'.disk && (x in t.lvl ==> t' == t)
  {
    assert GoodNode(t', x);
  }

  lemma RunFrame(t0: Tree, f0: set<nat>, t: Tree, t': Tree, f: set<nat>, off: nat, buf: seq<Byte>, n: nat, hi: nat)
    requires Inv(t) && FreeOk(t, f) && Extends(t0, f0, t, f) && RunWritten(t0, t, t', off, buf, n, hi)
    requires t' == t.(disk := t'.disk)
    ensures Inv(t') && FreeOk(t', f) && Extends(t0, f0, t', f) && Wrote(t0, t', off, buf, n, hi) && SameFile(t, t')
  {
    hide Inv, Wrote, SameFile;
    ExtendsWrite(t0, f0, t, f, t');
  }

  lemma StartsOf(l: nat, done: nat, run: nat, most: nat, bs: nat)
    requires done + run < most
    ensures Start(l + done + run, bs) == Start(l, bs) + Start(done + run, bs)
    ensures Start(done + run + 1, bs) == Start(done + run, bs) + bs
    ensures Start(done, bs) <= Start(done + run, bs) && Start(done + run + 1, bs) <= Start(most, bs)
  {
    StartAdd(l, done + run, bs);
    StartAdd(done, run, bs);
    StartAdd(done + run + 1, most - (done + run + 1), bs);
  }

  lemma WroteClosed(t0: Tree, t: Tree, off: nat, buf: seq<Byte>, n: nat, hi: nat)
    requires Wrote(t0, t, off, buf, n, hi) && hi <= off + n
    ensures Wrote(t0, t, off, buf, n, 0)
  {
    hide FileByte;
  }

  lemma StartPositive(l: nat, bs: nat)
    requires l >= 1
    ensures Start(l, bs) >= bs
  {
  }

  lemma PartFrame(t0: Tree, f0: set<nat>, t: Tree, f: set<nat>, l: nat, d: Block)
    requires Inv(t) && FreeOk(t, f) && Extends(t0, f0, t, f) && l < MaxBlocks(t.p) && Resolve(t, l) != 0
    requires |d| == 4 * t.p
    ensures var t' := t.(disk := t.disk[Resolve(t, l) := d]);
      Inv(t') && FreeOk(t', f) && Extends(t0, f0, t', f) && SameFile(t, t')
  {
    DataNode(t, l);
    DataWrite(t, Resolve(t, l), d);
    var t' := t.(disk := t.disk[Resolve(t, l) := d]);
    ExtendsWrite(t0, f0, t, f, t');
  }

  function SectorsOf(blocks: nat, sectors: nat): nat { blocks * sectors }

  lemma SectorsAdd(a: nat, b: nat, s: nat)
    ensures SectorsOf(a + b, s) == SectorsOf(a, s) + SectorsOf(b, s) && SectorsOf(1, s) == s && SectorsOf(0, s) == 0
  {
  }

  /** Every byte comes from where its position is served. */
  ghost predicate ReadSoFar(t: Tree, offset: nat, out: Block) {
    && t.p > 0 && |t.root| == SLOTS
    && (forall k :: 0 <= k < |out| ==> out[k] == FileByte(t, Cast(offset + k, 4 * t.p)))
    && forall at :: offset <= at < offset + |out| ==> Near(t, at)
  }

  /** The tree, if it is of full height, reaches where `pos` is served. */
  ghost predicate Near(t: Tree, pos: nat)
    requires t.p > 0 && |t.root| == SLOTS
  {
    t.root[14] != 0 ==> BlockNo(Cast(pos, 4 * t.p), 4 * t.p) < MaxBlocks(t.p)
  }

  lemma ReadNothing(t: Tree, offset: nat)
    requires t.p > 0 && |t.root| == SLOTS
    ensures ReadSoFar(t, offset, [])
  {
  }

  lemma ReadByte(t: Tree, pos: nat, remaining: nat, d: Block, k: nat)
    requires t.p > 0 && ReadOutcome(t, Cast(pos, 4 * t.p), remaining, Ok(d)) && k < |d|
    ensures d[k] == FileByte(t, Cast(pos + k, 4 * t.p)) && Near(t, pos + k)
  {
    hide FileByte, BlockNo, MaxBlocks, Cast;
    var c := Cast(pos, 4 * t.p);
    BlockNoMono(c + k, c + |d| - 1, 4 * t.p);
    CastAdd(pos, k, 4 * t.p);
  }

  lemma ReadMore(t: Tree, offset: nat, out: Block, remaining: nat, step: Result<Block>)
    requires ReadSoFar(t, offset, out) && ReadOutcome(t, Cast(offset + |out|, 4 * t.p), remaining, step)
    requires Uncut(t.p, offset + |out|, remaining)
    ensures step.Ok? ==> ReadSoFar(t, offset, out + step.value) && 1 <= |step.value| <= remaining
    ensures step.Err? ==> exists at :: offset <= at < offset + |out| + remaining && !Near(t, at)
  {
    hide FileByte, BlockNo, MaxBlocks, Cast, Near;
    if step.Ok? {
      hide ReadOutcome;
      var all := out + step.value;
      forall k | 0 <= k < |all| ensures all[k] == FileByte(t, Cast(offset + k, 4 * t.p)) {
        if k >= |out| { ReadByte(t, offset + |out|, remaining, step.value, k - |out|); }
      }
      forall at | offset <= at < offset + |all| ensures Near(t, at) {
        if at >= offset + |out| { ReadByte(t, offset + |out|, remaining, step.value, at - (offset + |out|)); }
      }
      StepSize(t, Cast(offset + |out|, 4 * t.p), remaining, step);
    } else {
      var k := FarByte(t, offset + |out|, remaining);
      var at := offset + |out| + k;
      assert offset <= at < offset + |out| + remaining && !Near(t, at);
    }
  }

  lemma StepSize(t: Tree, pos: nat, remaining: nat, step: Result<Block>)
    requires ReadOutcome(t, pos, remaining, step) && step.Ok?
    ensures 1 <= |step.value| <= remaining
  {
  }

  /** When the tree does not reach the last byte of a request, it does not reach some byte before 2^32 blocks. */
  lemma FarByte(t: Tree, pos: nat, n: nat) returns (k: nat)
    requires t.p > 0 && |t.root| == SLOTS && t.root[14] != 0 && n > 0 && Uncut(t.p, pos, n)
    requires BlockNo(Cast(pos, 4 * t.p) + n - 1, 4 * t.p) >= MaxBlocks(t.p)
    ensures k < n && !Near(t, pos + k)
  {
    hide BlockNo, BlockOff, MaxBlocks, Start, Cast;
    var bs := 4 * t.p;
    var c, m := Cast(pos, bs), MaxBlocks(t.p);
    CastExact(pos, bs);
    if BlockNo(c, bs) >= m {
      k := 0;
    } else if m < U32 {
      PosSplit(c, bs);
      StartMono(BlockNo(c, bs), m, bs);
      k := Start(m, bs) - c;
      InBlock(c + k, m, bs);
      if k >= n { BlockNoMono(c + n - 1, c + k - 1, bs); InBlock(c + k - 1, m, bs); BlockNoMono(c + k - 1, c + k, bs); }
    } else {
      k := n - 1;
    }
    CastAdd(pos, k, bs);
  }

  lemma ReadIsAll(t: Tree, offset: nat, out: Block)
    requires ReadSoFar(t, offset, out)
    ensures forall k :: 0 <= k < |out| ==> out[k] == FileByte(t, Cast(offset + k, 4 * t.p))
    ensures forall at :: offset <= at < offset + |out| ==> Near(t, at)
  {
  }

  /** The rest of an uncut request is uncut. */
  lemma UncutRest(p: nat, pos: nat, n: nat, k: nat)
    requires p > 0 && k < n && Uncut(p, pos, n)
    ensures Uncut(p, pos + k, n - k)
  {
    hide BlockNo, MaxBlocks, Cast;
    if MaxBlocks(p) >= U32 {
      BlockNoMono(Cast(pos, 4 * p) + k, Cast(pos, 4 * p) + n - 1, 4 * p);
      CastAdd(pos, k, 4 * p);
    }
  }

  // ---- truncation ----

  /** The blocks of `[from, to)` became zeros; every other byte is as before. */
  ghost predicate BytesCleared(t0: Tree, t1: Tree, from: nat, to: nat) {
    t0.p > 0 && t1.p == t0.p && forall pos: nat :: FileByte(t1, pos) == if from <= BlockNo(pos, 4 * t0.p) < to then 0 else FileByte(t0, pos)
  }

  lemma ClearedBytes(t0: Tree, f0: set<nat>, t1: Tree, f1: set<nat>, from: nat, to: nat)
    requires Shrunk(t0, f0, t1, f1) && Cleared(t0, t1, from, to)
    ensures BytesCleared(t0, t1, from, to)
  {
    hide BlockNo, BlockOff, Shrunk, Cleared, Inv;
    ShrunkParts(t0, f0, t1, f1);
    TreeParams(t0);
    forall pos: nat ensures FileByte(t1, pos) == if from <= BlockNo(pos, 4 * t0.p) < to then 0 else FileByte(t0, pos) {
      ClearedBlock(t0, f0, t1, f1, from, to, BlockNo(pos, 4 * t0.p));
    }
  }

  lemma ShrunkParts(t0: Tree, f0: set<nat>, t1: Tree, f1: set<nat>)
    requires Shrunk(t0, f0, t1, f1)
    ensures Inv(t0) && Inv(t1) && t1.p == t0.p && t1.disk.Keys == t0.disk.Keys
    ensures forall b :: b in t0.disk && (b !in t0.lvl || t0.lvl[b] == 0) ==> t1.disk[b] == t0.disk[b]
  {
  }

  lemma ClearedBlock(t0: Tree, f0: set<nat>, t1: Tree, f1: set<nat>, from: nat, to: nat, l: nat)
    requires Shrunk(t0, f0, t1, f1) && Cleared(t0, t1, from, to)
    ensures BlockOf(t1, l) == if from <= l < to then Zeros(4 * t0.p) else BlockOf(t0, l)
  {
    ShrunkParts(t0, f0, t1, f1);
    hide Inv, Resolve, MaxBlocks, Shrunk;
    if l < MaxBlocks(t0.p) && Resolve(t0, l) != 0 && !(from <= l < to) {
      DataNode(t0, l);
      DataNode(t1, l);
    }
  }

  /** The bytes from the end of the file to the end of its last block are zero. */
  ghost predicate ZeroTail(t: Tree, size: nat, blocks: nat)
    requires t.p > 0
  {
    forall pos: nat :: size <= pos && BlockNo(pos, 4 * t.p) < blocks ==> FileByte(t, pos) == 0
  }

  /** Cutting a file leaves zeros behind its end exactly when the bytes cut off its last block were zero. */
  lemma TailAfter(t0: Tree, t1: Tree, size: nat, from: nat, to: nat)
    requires BytesCleared(t0, t1, from, to)
    ensures ZeroTail(t1, size, from) <==> ZeroTail(t0, size, from)
  {
    hide FileByte, BlockNo;
  }
}
