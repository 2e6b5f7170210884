/** Short runs of file operations whose outcome a caller may not expect. */
module FileRuns {
  import opened Bits
  import opened Bytes
  import opened Results
  import opened BlockTree
  import opened BlockSubtree
  import opened BlockEdit
  import opened BlockCount
  import opened FileBytes
  import opened Ext2Inode

  lemma SmallSizes(f: Inode)
    requires f.p > 0
    ensures f.Blocks(1) == 1 == f.Blocks(2) && f.StoredSize(1) == 1 && f.StoredSize(2) == 2
    ensures BlockNo(0, 4 * f.p) == 0 == BlockNo(1, 4 * f.p) && Cast(0, 4 * f.p) == 0 && Cast(1, 4 * f.p) == 1
    ensures Uncut(f.p, 0, 2) && Uncut(f.p, 0, 1) && Uncut(f.p, 1, 1)
  {
    CastExact(0, 4 * f.p);
    CastExact(1, 4 * f.p);
    ModUnique(1 + 4 * f.p - 1, 4 * f.p, 1, 0);
    ModUnique(2 + 4 * f.p - 1, 4 * f.p, 1, 1);
  }

  lemma WroteAt(t0: Tree, t: Tree, buf: seq<Byte>, pos: nat)
    requires Wrote(t0, t, 0, buf, |buf|, 0) && pos < |buf|
    ensures FileByte(t, pos) == buf[pos]
  {
    hide FileByte;
  }

  lemma KeptAt(t0: Tree, t: Tree, from: nat, to: nat, pos: nat)
    requires BytesCleared(t0, t, from, to) && BlockNo(pos, 4 * t0.p) < from
    ensures FileByte(t, pos) == FileByte(t0, pos)
  {
    hide FileByte, BlockNo;
  }

  lemma SomeBlocks(p: nat)
    ensures MaxBlocks(p) > 0
  {
  }

  /** Write two bytes to an empty file, cut it to one byte and extend it again: the second byte is back. */
  method StaleTail(f: Inode) returns (r: Result<Block>)
    requires f.Valid() && Sync(f.alloc, f.free, f.vol) && f.size == 0
    modifies f, f.alloc
    ensures f.Valid() && Sync(f.alloc, f.free, f.vol) && (r.Ok? ==> r.value == [7] && f.size == 2)
    ensures r.Err? ==> f.size == 0
  {
    hide Inv, FreeOk, Sync, Wrote, Extends, Cleared, BytesCleared, ZeroTail, FileByte, BlockNo, MaxBlocks, NoEmpty;
    hide Inode.Blocks, Inode.StoredSize, Cast, Uncut, Refused;
    TreeParams(f.T());
    SmallSizes(f);
    SomeBlocks(f.p);
    var w := f.WriteAtLocked(0, [7, 7]);
    if w.Err? { return Err(w.error); }
    WroteAt(old(f.T()), f.T(), [7, 7], 1);
    ghost var t := f.T();
    var cut := f.TruncateTo(1);
    KeptAt(t, f.T(), 1, 1, 1);
    var grown := f.TruncateTo(2);
    r := f.ReadAt(1, 1);
    assert r.value == [7];
  }

  /** The first position behind 2^32 blocks is served at 0. */
  lemma Folds(f: Inode, offset: nat)
    requires f.p > 0 && offset == U32 * (4 * f.p)
    ensures Cast(offset, 4 * f.p) == 0 && Uncut(f.p, offset, 1) && f.StoredSize(offset + 1) > 0
  {
    ModUnique(offset, 4 * f.p, U32, 0);
    DivIs(offset, 4 * f.p);
  }

  /** Write one byte behind 2^32 blocks of a file that is not empty: it replaces the first byte. */
  method FoldedWrite(f: Inode, offset: nat, b: Byte) returns (r: Result<Block>)
    requires f.Valid() && Sync(f.alloc, f.free, f.vol) && f.size > 0 && offset == U32 * (4 * f.p) && offset + 1 < U64
    modifies f, f.alloc
    ensures f.Valid() && Sync(f.alloc, f.free, f.vol) && (r.Ok? ==> r.value == [b])
    ensures r.Err? ==> f.size == old(f.size)
  {
    hide Inv, FreeOk, Sync, Wrote, Extends, FileByte, BlockNo, MaxBlocks, Inode.StoredSize, Cast, Uncut, Refused;
    TreeParams(f.T());
    SmallSizes(f);
    SomeBlocks(f.p);
    Folds(f, offset);
    var w := f.WriteAtLocked(offset, [b]);
    if w.Err? { return Err(w.error); }
    WroteAt(old(f.T()), f.T(), [b], 0);
    r := f.ReadAt(0, 1);
    assert r.value == [b];
  }

  /** Give an empty file an attribute block and truncate it: the sectors of that block are not counted any more. */
  method LostSectors(f: Inode, image: Block) returns (r: Result<()>)
    requires f.Valid() && Sync(f.alloc, f.free, f.vol) && f.AclOk() && f.fileAcl == 0 && f.iBlocks == f.NodeSectors()
    requires |image| == 4 * f.p >= 8 && f.sectors > 0
    modifies f, f.alloc
    ensures f.Valid() && (r.Ok? ==> f.fileAcl != 0 && f.iBlocks == 0 < f.NodeSectors())
  {
    hide Inv, FreeOk, Sync, SameFile, Shrunk, Cleared, BytesCleared, ZeroTail, NoEmpty, MaxBlocks, SectorsOf;
    hide Inode.Blocks, Inode.StoredSize;
    r := f.StoreXattrBlock(false, image);
    if r.Err? { return; }
    r := f.TruncateTo(0);
  }
}
