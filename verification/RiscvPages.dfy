/** User pages without read, write and execute permission on RISC-V: mapped, but never unmapped. */
module RiscvPages {
  import opened PageTable
  import opened PageMap
  import opened PteCodec
  import opened VirtualMemory

  /** No access, as `mmap` and `mprotect` ask for with no permission bits. */
  const NO_ACCESS := Flags(false, false, false, true)

  lemma Unseen(f: Flags)
    ensures Rv().mappable(f) <==> f.r || f.w || f.x
    ensures Rv().norm(f) == Flags(f.r, f.w, f.x, true)
  {
  }

  /** A page mapped with these flags and unmapped again.  Once the first succeeds, so does the second; the page is gone from the tables exactly when
      it is readable, writable or executable.  Otherwise they still map it, to a frame that is free again, and no page
      can be mapped there any more. */
  method MapThenUnmap(m: AddressSpace, va: nat, flags: Flags) returns (mapped: Outcome<nat>, unmapped: Outcome<()>,
      ghost freed: set<nat>)
    requires m.Valid() && m.pt.c == Rv() && m.pages == m.walk && va % 4096 == 0
    requires va < m.limit < 0x1_0000_0000_0000_0000 && va !in m.pages
    modifies m, m.pt, m.pt.pool, m.ram
    ensures m.Valid() && m.InStep() && freed == m.pt.pool.free
    ensures mapped.Ok? ==> unmapped.Ok? && va !in m.pages && mapped.value in freed
    ensures mapped.Ok? ==>
              FlatAt(m.pt.T(), va) == if flags.r || flags.w || flags.x then NoPage else Page(mapped.value, NO_ACCESS)
    ensures mapped.Ok? ==> (m.pages == m.walk <==> flags.r || flags.w || flags.x)
  {
    hide PagesOk, FramesOk, RamOk, RamKept, AddrSpace.Valid, AddressSpace.Tables, AddrSpace.Owned, Rv, Translate;
    hide AddressSpace.Reach;
    unmapped := Err(Unsupported);
    Unseen(flags);
    mapped := m.MapZeroed(va, flags);
    freed := m.pt.pool.free;
    if mapped.Err? { return; }
    ghost var pages := m.pages;
    m.TablesAligned(m.walk);
    NextPage(va, m.limit);
    forall q | q in pages && va <= q < va + 4096 ensures q == va { if q != va { SeparatePages(q, va); } }
    unmapped := m.UnmapRange(va, 4096);
    freed := m.pt.pool.free;
    assert va in Inside(pages, va, va + 4096) && Inside(pages, va, va + 4096)[va].phys == mapped.value;
    m.WalkIs(va);
  }

  /** A page without access that was unmapped cannot be mapped again, whatever the flags. */
  method MapAgain(m: AddressSpace, va: nat, flags: Flags) returns (mapped: Outcome<nat>, unmapped: Outcome<()>,
      again: Outcome<nat>)
    requires m.Valid() && m.pt.c == Rv() && m.pages == m.walk && va % 4096 == 0
    requires va < m.limit < 0x1_0000_0000_0000_0000 && va !in m.pages
    modifies m, m.pt, m.pt.pool, m.ram
    ensures m.Valid() && (mapped.Ok? ==> unmapped.Ok? && again == Err(BlockedByExistingMapping))
  {
    hide PagesOk, FramesOk, RamOk, RamKept, AddrSpace.Valid, AddressSpace.Tables, AddrSpace.Owned, Rv, Translate;
    hide AddressSpace.Reach;
    ghost var freed;
    mapped, unmapped, freed := MapThenUnmap(m, va, NO_ACCESS);
    again := Err(BlockedByExistingMapping);
    if mapped.Ok? {
      m.WalkIs(va);
      again := m.MapZeroed(va, flags);
    }
  }

  /** Nor can its permissions be changed. */
  method ProtectAgain(m: AddressSpace, va: nat, flags: Flags) returns (mapped: Outcome<nat>, changed: Outcome<()>)
    requires m.Valid() && m.pt.c == Rv() && va % 4096 == 0 && va !in m.pages
    modifies m, m.pt, m.pt.pool, m.ram
    ensures m.Valid() && (mapped.Ok? ==> changed.Err?)
  {
    hide PagesOk, FramesOk, RamOk, RamKept, AddrSpace.Valid, AddressSpace.Tables, AddrSpace.Owned, Rv;
    hide AddressSpace.Reach, LeftOver;
    Unseen(NO_ACCESS);
    mapped := m.MapZeroed(va, NO_ACCESS);
    changed := Err(Unsupported);
    if mapped.Ok? {
      ghost var page := m.walk[va];
      changed := m.ProtectRange(va, 4096, flags);
      assert changed.Ok? ==> Rv().mappable(page.flags);
    }
  }
}
