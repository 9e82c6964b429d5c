/** Guest memory and its view from VM 0 (vmm.c): block by block, VM 0 sees at its mmap base what
    the guest sees at its own base. */
module GuestMemory {
  import opened Sealing
  import opened Wrappers
  import opened PageTable

  /** Blocks of a guest: the k-th 2M block from base goes to blocks[k]. */
  ghost predicate Backed(m: Tables, root: nat, base: nat, blocks: seq<nat>)
    requires WF(m) && root in m.pages
  {
    forall a: nat {:trigger Walk(m, root, a)} :: base <= a < base + |blocks| * BLOCK ==>
      Goes(Walk(m, root, a), blocks[(a - base) / BLOCK] + (a - base) % BLOCK, PMD)
  }

  lemma OneBlock(base: nat, k: nat, pa: nat, a: nat)
    requires base % BLOCK == 0 && pa % BLOCK == 0 && base + k * BLOCK <= a < base + (k + 1) * BLOCK
    ensures (base + k * BLOCK) % BLOCK == 0 && (base + (k + 1) * BLOCK) % BLOCK == 0
    ensures ByBlock(false, PUD, base + k * BLOCK, base + k * BLOCK + BLOCK, a)
    ensures Target(true, base + k * BLOCK, pa, a) == pa + (a - base) % BLOCK && (a - base) / BLOCK == k
  {
    ExactTranslation(true, base + k * BLOCK, pa, a);
  }

  /** The mapping loop of alloc_vm_memory. */
  method MapBlocks(vm: AddressSpace, base: nat, blocks: seq<nat>) returns (ok: bool)
    requires vm.Valid() && !vm.host && base % BLOCK == 0 && (forall k :: 0 <= k < |blocks| ==> blocks[k] % BLOCK == 0)
    requires base + |blocks| * BLOCK <= ENTRIES * GIGA
    requires forall a: nat :: base <= a < base + |blocks| * BLOCK ==> Walk(vm.m, vm.root, a) == None
    modifies vm`m, vm`free
    ensures |old(vm.free)| >= |blocks| ==> ok
    ensures ok ==> vm.Valid() && Backed(vm.m, vm.root, base, blocks)
    ensures ok ==> forall a: nat :: a < ENTRIES * GIGA && !(base <= a < base + |blocks| * BLOCK) ==>
      Walk(vm.m, vm.root, a) == Walk(old(vm.m), vm.root, a)
  {
    ghost var m0 := vm.m;
    ok := true;
    var k := 0;
    while k < |blocks|
      invariant 0 <= k <= |blocks| && ok && vm.Valid() && (|old(vm.free)| >= |blocks| ==> |vm.free| >= |old(vm.free)| - k)
      invariant Backed(vm.m, vm.root, base, blocks[..k])
      invariant forall a: nat :: a < ENTRIES * GIGA && !(base <= a < base + k * BLOCK) ==>
        Walk(vm.m, vm.root, a) == Walk(m0, vm.root, a)
    {
      ghost var m1 := vm.m;
      BlockBase(base, k, |blocks|, blocks[k]);
      BlockNeed(base, k);
      ok := vm.CreateMemMapping(base + k * BLOCK, blocks[k], BLOCK);
      if !ok { return; }
      BlockAdded(m1, vm.m, vm.root, base, blocks, k);
      k := k + 1;
    }
    assert blocks[..k] == blocks;
  }

  /** A 2M block needs one page at most, for the PMD table of its gigabyte. */
  lemma BlockNeed(base: nat, k: nat)
    requires base % BLOCK == 0
    ensures Need(false, PUD, base + k * BLOCK, base + k * BLOCK + BLOCK) == 1
  {
    OnBlocks(base, k);
    InGigabyte(base + k * BLOCK);
    OneTableNeeded(false, PUD, base + k * BLOCK, BLOCK);
  }

  lemma InGigabyte(va: nat)
    requires va % BLOCK == 0
    ensures BLOCK <= S(PUD) - va % S(PUD)
  {
    assert (va % GIGA) % BLOCK == 0;
  }

  lemma BlockBase(base: nat, k: nat, n: nat, pa: nat)
    requires base % BLOCK == 0 && pa % BLOCK == 0 && k < n
    ensures (base + k * BLOCK) % PAGE == 0 && pa % PAGE == 0 && BLOCK % PAGE == 0
    ensures base + k * BLOCK + BLOCK <= base + n * BLOCK
  {
  }

  lemma BlockAdded(m1: Tables, m: Tables, root: nat, base: nat, blocks: seq<nat>, k: nat)
    requires WF(m1) && WF(m) && root in m1.pages && root in m.pages && k < |blocks| && base % BLOCK == 0 && blocks[k] % BLOCK == 0
    requires base + |blocks| * BLOCK <= ENTRIES * GIGA && Backed(m1, root, base, blocks[..k])
    requires forall a: nat :: base + k * BLOCK <= a < base + k * BLOCK + BLOCK ==>
      var block := ByBlock(false, PUD, base + k * BLOCK, base + k * BLOCK + BLOCK, a);
      Goes(Walk(m, root, a), Target(block, base + k * BLOCK, blocks[k], a), LevelOf(block))
    requires forall a: nat :: a < ENTRIES * GIGA && !(base + k * BLOCK <= a < base + k * BLOCK + BLOCK) ==>
      Walk(m, root, a) == Walk(m1, root, a)
    ensures Backed(m, root, base, blocks[..k + 1])
  {
    forall a: nat | base <= a < base + (k + 1) * BLOCK
      ensures Goes(Walk(m, root, a), blocks[..k + 1][(a - base) / BLOCK] + (a - base) % BLOCK, PMD)
    {
      if a < base + k * BLOCK {
        assert Walk(m, root, a) == Walk(m1, root, a);
        assert blocks[..k + 1][(a - base) / BLOCK] == blocks[..k][(a - base) / BLOCK];
      } else {
        OneBlock(base, k, blocks[k], a);
      }
    }
  }

  // ----- vm_mmap -----

  const EIO := -5
  const ENOMEM := -12

  /** The root entry of a guest address leads to PMD table q. */
  ghost predicate PmdOf(m: Tables, root: nat, va: nat, q: nat) {
    && WF(m) && root in m.pages && m.key[root] == Key(PUD, 0) && va < ENTRIES * GIGA
    && m.pages[root][Idx(PUD, va)] == Table(q) && q in m.pages && m.key[q] == Key(PMD, Slot(PUD, va))
  }

  /** The 2M block at va goes to b. */
  ghost predicate MapsBlock(m: Tables, root: nat, va: nat, b: nat)
    requires WF(m) && root in m.pages
  {
    forall a: nat {:trigger Walk(m, root, a)} :: va <= a < va + BLOCK ==> Walk(m, root, a) == Some(Hit(b + (a - va), PMD))
  }

  /** An address that a block maps has its PMD table, and a block entry there. */
  lemma BlockEntry(m: Tables, root: nat, va: nat) returns (q: nat, b: nat)
    requires WF(m) && root in m.pages && m.key[root] == Key(PUD, 0) && va < ENTRIES * GIGA && va % BLOCK == 0
    requires Walk(m, root, va).Some? && Walk(m, root, va).value.lvl == PMD
    ensures PmdOf(m, root, va, q) && m.pages[q][Idx(PMD, va)] == Leaf(b)
    ensures MapsBlock(m, root, va, b - b % BLOCK)
  {
    assert EntryOk(m, root, Idx(PUD, va));
    q := m.pages[root][Idx(PUD, va)].page;
    assert EntryOk(m, q, Idx(PMD, va));
    if m.pages[q][Idx(PMD, va)].Table? { PteLevel(m, m.pages[q][Idx(PMD, va)].page, va); }
    b := m.pages[q][Idx(PMD, va)].base;
    forall a: nat | va <= a < va + BLOCK ensures Walk(m, root, a) == Some(Hit(b - b % BLOCK + (a - va), PMD)) {
      SameBlock(va, a - va);
    }
  }

  lemma PteLevel(m: Tables, t: nat, va: nat)
    requires WF(m) && t in m.pages && m.key[t].lvl == PTE
    ensures Walk(m, t, va).Some? ==> Walk(m, t, va).value.lvl == PTE
  {
    assert EntryOk(m, t, Idx(PTE, va));
  }

  lemma SameBlock(va: nat, d: nat)
    requires va % BLOCK == 0 && d < BLOCK
    ensures (va + d) / BLOCK == va / BLOCK && (va + d) / GIGA == va / GIGA && (va + d) % BLOCK == d
  {
  }

  /** Storing a block entry for phy in its PMD table. */
  lemma BlockStored(m: Tables, root: nat, phy: nat, q: nat, b: nat) returns (m': Tables)
    requires PmdOf(m, root, phy, q) && phy % BLOCK == 0
    ensures m' == Store(m, q, Idx(PMD, phy), Leaf(b))
    ensures Keeps(m, m', PMD) && SameOutside(m, m', phy, phy + BLOCK) && m'.pages.Keys == m.pages.Keys && m'.key == m.key
    ensures MapsBlock(m', root, phy, b - b % BLOCK)
  {
    SlotUp(PMD, phy);
    m' := LeafStored(m, q, phy, b);
    forall a: nat | phy <= a < phy + BLOCK ensures Walk(m', root, a) == Some(Hit(b - b % BLOCK + (a - phy), PMD)) {
      SameBlock(phy, a - phy);
      assert Walk(m', q, a) == Some(Hit(Output(PMD, b, a), PMD));
    }
  }

  /** VM 0 sees at phy what the guest sees at vir, for n bytes. */
  ghost predicate Aliased(m0: Tables, root0: nat, phy: nat, m: Tables, root: nat, vir: nat, n: nat)
    requires WF(m0) && root0 in m0.pages && WF(m) && root in m.pages
  {
    forall a: nat {:trigger Walk(m0, root0, a)} :: phy <= a < phy + n ==> Walk(m0, root0, a) == Walk(m, root, vir + (a - phy))
  }

  /** After k blocks: what has been copied, and what has been left alone. */
  ghost predicate CopiedSoFar(was: Tables, m0: Tables, root0: nat, phy: nat, m: Tables, root: nat, vir: nat, k: nat) {
    && Keeps(was, m0, 0) && root0 in was.pages && WF(m) && root in m.pages
    && SameOutside(was, m0, phy, phy + k * BLOCK) && Aliased(m0, root0, phy, m, root, vir, k * BLOCK)
  }

  lemma CopiedOne(was: Tables, m0: Tables, m1: Tables, root0: nat, phy: nat, m: Tables, root: nat, vir: nat, k: nat, b: nat)
    requires Folded(CopiedSoFar(was, m0, root0, phy, m, root, vir, k)) && Keeps(m0, m1, 0)
    requires was.key[root0] == Key(PUD, 0) && phy + (k + 1) * BLOCK < ENTRIES * GIGA
    requires SameOutside(m0, m1, phy + k * BLOCK, phy + k * BLOCK + BLOCK)
    requires MapsBlock(m1, root0, phy + k * BLOCK, b) && MapsBlock(m, root, vir + k * BLOCK, b)
    ensures Folded(CopiedSoFar(was, m1, root0, phy, m, root, vir, k + 1))
  {
    KeepsTrans(was, m0, m1, 0);
    SameTrans(was, m0, m1, phy, phy + k * BLOCK, phy + (k + 1) * BLOCK);
    forall a: nat | phy <= a < phy + (k + 1) * BLOCK
      ensures Walk(m1, root0, a) == Walk(m, root, vir + (a - phy))
    {
      if a < phy + k * BLOCK {
        RootUnder(m0, root0, a);
        assert Walk(m1, root0, a) == Walk(m0, root0, a);
      } else {
        assert Walk(m, root, vir + (a - phy)) == Some(Hit(b + (vir + (a - phy) - (vir + k * BLOCK)), PMD));
      }
    }
  }

  lemma RootUnder(m: Tables, root: nat, a: nat)
    requires root in m.key && m.key[root] == Key(PUD, 0) && a < ENTRIES * GIGA
    ensures Under(m, root, a)
  {
  }

  /** A table added for VM 0 changes nothing of what has been copied. */
  lemma CopiedWithTable(was: Tables, m0: Tables, m1: Tables, root0: nat, phy: nat, m: Tables, root: nat, vir: nat, k: nat)
    requires Folded(CopiedSoFar(was, m0, root0, phy, m, root, vir, k)) && Keeps(m0, m1, 0)
    requires forall x: nat, a: nat :: x in m0.pages ==> Walk(m1, x, a) == Walk(m0, x, a)
    ensures Folded(CopiedSoFar(was, m1, root0, phy, m, root, vir, k))
  {
    KeepsTrans(was, m0, m1, 0);
    forall x: nat, va: nat | x in was.pages && Under(was, x, va) && !(phy <= va < phy + k * BLOCK)
      ensures Walk(m1, x, va) == Walk(was, x, va)
    {
      assert Walk(m0, x, va) == Walk(was, x, va);
    }
    forall a: nat | phy <= a < phy + k * BLOCK ensures Walk(m1, root0, a) == Walk(m, root, vir + (a - phy)) {
      assert Walk(m0, root0, a) == Walk(m, root, vir + (a - phy));
    }
  }

  /** alloc_guest_pmd: the PMD table of an address of VM 0, made if it is missing. */
  method AllocGuestPmd(vm0: AddressSpace, phy: nat) returns (ok: bool, q: nat)
    requires vm0.Valid() && !vm0.host && phy < ENTRIES * GIGA
    modifies vm0`m, vm0`free
    ensures old(vm0.free) != [] ==> ok
    ensures |vm0.free| >= |old(vm0.free)| - 1
    ensures vm0.Valid() && Keeps(old(vm0.m), vm0.m, 0) && (ok ==> PmdOf(vm0.m, vm0.root, phy, q))
    ensures forall x: nat, a: nat :: x in old(vm0.m).pages ==> Walk(vm0.m, x, a) == Walk(old(vm0.m), x, a)
  {
    RootUnder(vm0.m, vm0.root, phy);
    assert EntryOk(vm0.m, vm0.root, Idx(PUD, phy));
    var isNew;
    ok, q, isNew := vm0.NextTable(vm0.root, phy);
  }

  /** The cursors of the two loops of vm_mmap after k blocks. */
  ghost predicate Cursor(m0: Tables, root0: nat, phy0: nat, k: nat, pmd0: nat, phyOff: nat) {
    PmdOf(m0, root0, phy0 + k * BLOCK, pmd0) && phyOff == Idx(PMD, phy0 + k * BLOCK)
  }

  /** The block entry of the guest, masked to its address, becomes the entry of VM 0. */
  method StoreBlock(vm: AddressSpace, vm0: AddressSpace, vmPmd: nat, virOff: nat, pmd0: nat, phyOff: nat,
                    phy0: nat, vir0: nat, k: nat, ghost was: Tables)
    requires vm != vm0 && vm.Valid() && !vm.host && vm0.Valid() && !vm0.host && phy0 % BLOCK == 0 && vir0 % BLOCK == 0
    requires phy0 + (k + 1) * BLOCK < ENTRIES * GIGA && vir0 + (k + 1) * BLOCK <= ENTRIES * GIGA
    requires Folded(CopiedSoFar(was, vm0.m, vm0.root, phy0, vm.m, vm.root, vir0, k)) && was.key[vm0.root] == Key(PUD, 0)
    requires Cursor(vm0.m, vm0.root, phy0, k, pmd0, phyOff)
    requires PmdOf(vm.m, vm.root, vir0 + k * BLOCK, vmPmd) && virOff == Idx(PMD, vir0 + k * BLOCK)
    requires Walk(vm.m, vm.root, vir0 + k * BLOCK).Some? && Walk(vm.m, vm.root, vir0 + k * BLOCK).value.lvl == PMD
    modifies vm0`m
    ensures vm0.Valid() && Folded(CopiedSoFar(was, vm0.m, vm0.root, phy0, vm.m, vm.root, vir0, k + 1))
    ensures Folded(Cursor(vm0.m, vm0.root, phy0, k, pmd0, phyOff))
  {
    OnBlocks(phy0, k);
    OnBlocks(vir0, k);
    ghost var q, b := BlockEntry(vm.m, vm.root, vir0 + k * BLOCK);
    var base := vm.m.pages[vmPmd][virOff].base;
    var value := base - base % BLOCK;
    MaskedBase(base);
    ghost var m1 := BlockStored(vm0.m, vm0.root, phy0 + k * BLOCK, pmd0, value);
    CopiedOne(was, vm0.m, m1, vm0.root, phy0, vm.m, vm.root, vir0, k, value);
    vm0.m := Store(vm0.m, pmd0, phyOff, Leaf(value));
  }

  /** The cursor of VM 0 goes on, to its next PMD table when it has passed the last entry. */
  method Advance(vm: AddressSpace, vm0: AddressSpace, pmd0: nat, phyOff: nat, phy0: nat, vir0: nat, k: nat, ghost was: Tables)
    returns (err: int, pmd0': nat, phyOff': nat)
    requires vm != vm0 && vm0.Valid() && !vm0.host && phy0 % BLOCK == 0 && phy0 + (k + 1) * BLOCK < ENTRIES * GIGA
    requires Folded(CopiedSoFar(was, vm0.m, vm0.root, phy0, vm.m, vm.root, vir0, k + 1))
    requires Cursor(vm0.m, vm0.root, phy0, k, pmd0, phyOff)
    modifies vm0`m, vm0`free
    ensures (err == 0 || err == ENOMEM) && (old(vm0.free) != [] ==> err == 0) && |vm0.free| >= |old(vm0.free)| - 1
    ensures vm0.Valid() && Folded(CopiedSoFar(was, vm0.m, vm0.root, phy0, vm.m, vm.root, vir0, k + 1))
    ensures err == 0 ==> Folded(Cursor(vm0.m, vm0.root, phy0, k + 1, pmd0', phyOff'))
  {
    OnBlocks(phy0, k);
    NextOff(phy0 + k * BLOCK);
    assert phy0 + k * BLOCK + BLOCK == phy0 + (k + 1) * BLOCK;
    err, pmd0', phyOff' := 0, pmd0, phyOff + 1;
    if phyOff' % ENTRIES == 0 {
      phyOff' := 0;
      ghost var before := vm0.m;
      var ok;
      ok, pmd0' := AllocGuestPmd(vm0, phy0 + (k + 1) * BLOCK);
      CopiedWithTable(was, before, vm0.m, vm0.root, phy0, vm.m, vm.root, vir0, k + 1);
      if !ok { return ENOMEM, 0, 0; }
    }
  }

  /** One turn of the inner loop of vm_mmap: one more block is copied, and the cursor of VM 0 goes on. */
  method CopyBlock(vm: AddressSpace, vm0: AddressSpace, vmPmd: nat, virOff: nat, pmd0: nat, phyOff: nat,
                   phy0: nat, vir0: nat, k: nat, ghost was: Tables)
    returns (err: int, pmd0': nat, phyOff': nat)
    requires vm != vm0 && vm.Valid() && !vm.host && vm0.Valid() && !vm0.host && phy0 % BLOCK == 0 && vir0 % BLOCK == 0
    requires phy0 + (k + 1) * BLOCK < ENTRIES * GIGA && vir0 + (k + 1) * BLOCK <= ENTRIES * GIGA
    requires Folded(CopiedSoFar(was, vm0.m, vm0.root, phy0, vm.m, vm.root, vir0, k)) && was.key[vm0.root] == Key(PUD, 0)
    requires Folded(Cursor(vm0.m, vm0.root, phy0, k, pmd0, phyOff))
    requires PmdOf(vm.m, vm.root, vir0 + k * BLOCK, vmPmd) && virOff == Idx(PMD, vir0 + k * BLOCK)
    requires Walk(vm.m, vm.root, vir0 + k * BLOCK).Some? && Walk(vm.m, vm.root, vir0 + k * BLOCK).value.lvl == PMD
    modifies vm0`m, vm0`free
    ensures (err == 0 || err == ENOMEM) && (old(vm0.free) != [] ==> err == 0) && |vm0.free| >= |old(vm0.free)| - 1
    ensures err == 0 ==> vm0.Valid() && Folded(CopiedSoFar(was, vm0.m, vm0.root, phy0, vm.m, vm.root, vir0, k + 1))
    ensures err == 0 ==> Folded(Cursor(vm0.m, vm0.root, phy0, k + 1, pmd0', phyOff'))
  {
    StoreBlock(vm, vm0, vmPmd, virOff, pmd0, phyOff, phy0, vir0, k, was);
    err, pmd0', phyOff' := Advance(vm, vm0, pmd0, phyOff, phy0, vir0, k, was);
  }

  lemma OnBlocks(base: nat, k: nat)
    requires base % BLOCK == 0
    ensures (base + k * BLOCK) % BLOCK == 0
  {
  }

  lemma MaskedBase(b: nat)
    ensures (b - b % BLOCK) % BLOCK == 0
  {
  }

  /** The cursor stays in its PMD table unless it passes the last entry. */
  lemma NextOff(phy: nat)
    requires phy % BLOCK == 0
    ensures Idx(PMD, phy) + 1 < ENTRIES ==> Idx(PMD, phy + BLOCK) == Idx(PMD, phy) + 1 && Slot(PUD, phy + BLOCK) == Slot(PUD, phy)
    ensures Idx(PMD, phy) + 1 == ENTRIES ==> Idx(PMD, phy + BLOCK) == 0
    ensures Idx(PMD, phy) < ENTRIES
  {
    var x := Slot(PMD, phy);
    assert Slot(PMD, phy + BLOCK) == x + 1;
    SlotUp(PMD, phy);
    SlotUp(PMD, phy + BLOCK);
    NextIndex(x);
  }

  lemma NextIndex(x: nat)
    ensures x % ENTRIES + 1 < ENTRIES ==> (x + 1) % ENTRIES == x % ENTRIES + 1 && (x + 1) / ENTRIES == x / ENTRIES
    ensures x % ENTRIES + 1 == ENTRIES ==> (x + 1) % ENTRIES == 0
  {
  }

  /** A guest range is mapped by blocks. */
  ghost predicate AllBlocks(m: Tables, root: nat, vir: nat, n: nat)
    requires WF(m) && root in m.pages
  {
    forall a: nat {:trigger Walk(m, root, a)} :: vir <= a < vir + n * BLOCK ==>
      Walk(m, root, a).Some? && Walk(m, root, a).value.lvl == PMD
  }

  /** Memory that alloc_vm_memory has mapped is mapped by blocks. */
  lemma BackedIsBlocks(m: Tables, root: nat, base: nat, blocks: seq<nat>)
    requires WF(m) && root in m.pages && Backed(m, root, base, blocks)
    ensures AllBlocks(m, root, base, |blocks|)
  {
  }

  /** get_mapping_pmd: the address of the PMD table, 0 when there is none. */
  function GetPmd(m: Tables, root: nat, va: nat): nat
    requires root in m.pages && |m.pages[root]| == ENTRIES
  {
    if m.pages[root][Idx(PUD, va)].Table? then m.pages[root][Idx(PUD, va)].page else 0
  }

  /** mapping_error */
  predicate MappingError(r: nat) { 0 < r <= 6 }

  /** The -EIO of vm_mmap is never returned: a table is a page, and the 0 that get_mapping_pmd
      returns for a missing one does not count as an error. */
  lemma NeverAnError(m: Tables, root: nat, va: nat)
    requires WF(m) && root in m.pages && PagesAligned(m)
    ensures !MappingError(GetPmd(m, root, va))
  {
    assert EntryOk(m, root, Idx(PUD, va));
  }

  /** The loops of vm_mmap: n blocks of the guest appear in VM 0. */
  method CopyBlocks(vm: AddressSpace, vm0: AddressSpace, vir0: nat, phy0: nat, n: nat) returns (err: int)
    requires vm != vm0 && vm.Valid() && !vm.host && vm0.Valid() && !vm0.host && phy0 % BLOCK == 0 && vir0 % BLOCK == 0
    requires phy0 + n * BLOCK < ENTRIES * GIGA && vir0 + n * BLOCK <= ENTRIES * GIGA
    requires AllBlocks(vm.m, vm.root, vir0, n)
    modifies vm0`m, vm0`free
    ensures (err == 0 || err == ENOMEM) && (|old(vm0.free)| > n ==> err == 0)
    ensures err == 0 ==> vm0.Valid() && Aliased(vm0.m, vm0.root, phy0, vm.m, vm.root, vir0, n * BLOCK)
    ensures err == 0 ==> forall a: nat :: a < ENTRIES * GIGA && !(phy0 <= a < phy0 + n * BLOCK) ==>
      Walk(vm0.m, vm0.root, a) == Walk(old(vm0.m), vm0.root, a)
  {
    ghost var was := vm0.m;
    var phyOff := Idx(PMD, phy0);
    var ok, pmd0 := AllocGuestPmd(vm0, phy0);
    if !ok { return ENOMEM; }
    CopyStarts(was, vm0.m, vm0.root, phy0, vm.m, vm.root, vir0);
    var k := 0;
    while k < n
      invariant k <= n && vm0.Valid() && Folded(CopiedSoFar(was, vm0.m, vm0.root, phy0, vm.m, vm.root, vir0, k))
      invariant |old(vm0.free)| > n ==> |vm0.free| >= n - k
      invariant Folded(Cursor(vm0.m, vm0.root, phy0, k, pmd0, phyOff))
      decreases n - k
    {
      NeverAnError(vm.m, vm.root, vir0 + k * BLOCK);
      if MappingError(GetPmd(vm.m, vm.root, vir0 + k * BLOCK)) { return EIO; }
      err, k, pmd0, phyOff := CopyTable(vm, vm0, vir0, phy0, n, k, pmd0, phyOff, was);
      if err != 0 { return; }
    }
    err := 0;
    CopyEnds(was, vm0.m, vm0.root, phy0, vm.m, vm.root, vir0, n);
  }

  lemma CopyStarts(was: Tables, m0: Tables, root0: nat, phy0: nat, m: Tables, root: nat, vir0: nat)
    requires Keeps(was, m0, 0) && root0 in was.pages && WF(m) && root in m.pages
    requires forall x: nat, a: nat :: x in was.pages ==> Walk(m0, x, a) == Walk(was, x, a)
    ensures Folded(CopiedSoFar(was, m0, root0, phy0, m, root, vir0, 0))
  {
  }

  lemma CopyEnds(was: Tables, m0: Tables, root0: nat, phy0: nat, m: Tables, root: nat, vir0: nat, n: nat)
    requires Folded(CopiedSoFar(was, m0, root0, phy0, m, root, vir0, n)) && was.key[root0] == Key(PUD, 0)
    ensures Aliased(m0, root0, phy0, m, root, vir0, n * BLOCK)
    ensures forall a: nat :: a < ENTRIES * GIGA && !(phy0 <= a < phy0 + n * BLOCK) ==> Walk(m0, root0, a) == Walk(was, root0, a)
  {
    forall a: nat | a < ENTRIES * GIGA && !(phy0 <= a < phy0 + n * BLOCK) ensures Walk(m0, root0, a) == Walk(was, root0, a) {
      RootUnder(was, root0, a);
    }
  }

  /** One turn of the outer loop: the blocks that share one PMD table of the guest. */
  method CopyTable(vm: AddressSpace, vm0: AddressSpace, vir0: nat, phy0: nat, n: nat, k0: nat, pmd: nat, off: nat, ghost was: Tables)
    returns (err: int, k: nat, pmd0: nat, phyOff: nat)
    requires vm != vm0 && vm.Valid() && !vm.host && vm0.Valid() && !vm0.host && phy0 % BLOCK == 0 && vir0 % BLOCK == 0
    requires k0 < n && phy0 + n * BLOCK < ENTRIES * GIGA && vir0 + n * BLOCK <= ENTRIES * GIGA
    requires AllBlocks(vm.m, vm.root, vir0, n)
    requires was.pages.Keys == was.key.Keys && vm0.root in was.key && was.key[vm0.root] == Key(PUD, 0)
    requires Folded(CopiedSoFar(was, vm0.m, vm0.root, phy0, vm.m, vm.root, vir0, k0)) && Folded(Cursor(vm0.m, vm0.root, phy0, k0, pmd, off))
    modifies vm0`m, vm0`free
    ensures (err == 0 || err == ENOMEM) && (|old(vm0.free)| >= n - k0 ==> err == 0 && |vm0.free| >= n - k)
    ensures err == 0 ==> k0 < k <= n && vm0.Valid() && Folded(CopiedSoFar(was, vm0.m, vm0.root, phy0, vm.m, vm.root, vir0, k))
    ensures err == 0 ==> Folded(Cursor(vm0.m, vm0.root, phy0, k, pmd0, phyOff))
  {
    k, pmd0, phyOff, err := k0, pmd, off, 0;
    var vir := vir0 + k0 * BLOCK;
    OnBlocks(vir0, k0);
    BlockOf(vir0, n, k0);
    assert Walk(vm.m, vm.root, vir).Some?;
    ghost var q, b := BlockEntry(vm.m, vm.root, vir);
    var vmPmd := vm.m.pages[vm.root][Idx(PUD, vir)].page;
    var virOff := Idx(PMD, vir);
    var count := if ENTRIES - virOff > n - k0 then n - k0 else ENTRIES - virOff;
    var i := 0;
    while i < count
      invariant 0 <= i <= count && k == k0 + i && err == 0 && vm0.Valid() && (|old(vm0.free)| >= n - k0 ==> |vm0.free| >= n - k)
      invariant Folded(CopiedSoFar(was, vm0.m, vm0.root, phy0, vm.m, vm.root, vir0, k)) && Folded(Cursor(vm0.m, vm0.root, phy0, k, pmd0, phyOff))
      decreases count - i
    {
      NextInTable(vm.m, vm.root, vir0, n, k0, i, vmPmd, k);
      BlockOf(phy0, n, k);
      err, pmd0, phyOff := CopyBlock(vm, vm0, vmPmd, virOff + i, pmd0, phyOff, phy0, vir0, k, was);
      if err != 0 { return; }
      i, k := i + 1, k + 1;
    }
  }

  /** The i-th block after k0 in the same PMD table of the guest. */
  lemma NextInTable(m: Tables, root: nat, vir0: nat, n: nat, k0: nat, i: nat, q: nat, k: nat)
    requires WF(m) && root in m.pages && AllBlocks(m, root, vir0, n) && vir0 % BLOCK == 0 && vir0 + n * BLOCK <= ENTRIES * GIGA
    requires PmdOf(m, root, vir0 + k0 * BLOCK, q) && Idx(PMD, vir0 + k0 * BLOCK) + i < ENTRIES && k == k0 + i < n
    ensures vir0 + (k + 1) * BLOCK <= vir0 + n * BLOCK
    ensures PmdOf(m, root, vir0 + k * BLOCK, q) && Idx(PMD, vir0 + k * BLOCK) == Idx(PMD, vir0 + k0 * BLOCK) + i
    ensures Walk(m, root, vir0 + k * BLOCK).Some? && Walk(m, root, vir0 + k * BLOCK).value.lvl == PMD
  {
    SameTable(vir0, k0, i);
    BlockOf(vir0, n, k);
    assert Walk(m, root, vir0 + k * BLOCK).Some?;
  }

  lemma BlockOf(base: nat, n: nat, k: nat)
    requires k < n
    ensures base <= base + k * BLOCK < base + (k + 1) * BLOCK <= base + n * BLOCK
  {
  }

  /** Blocks of one PMD table. */
  lemma SameTable(vir0: nat, k0: nat, i: nat)
    requires vir0 % BLOCK == 0 && Idx(PMD, vir0 + k0 * BLOCK) + i < ENTRIES
    ensures Idx(PMD, vir0 + (k0 + i) * BLOCK) == Idx(PMD, vir0 + k0 * BLOCK) + i
    ensures Slot(PUD, vir0 + (k0 + i) * BLOCK) == Slot(PUD, vir0 + k0 * BLOCK)
  {
    var x := Slot(PMD, vir0 + k0 * BLOCK);
    assert Slot(PMD, vir0 + (k0 + i) * BLOCK) == x + i;
    SlotUp(PMD, vir0 + k0 * BLOCK);
    SlotUp(PMD, vir0 + (k0 + i) * BLOCK);
    WithinTable(x, i);
  }

  lemma WithinTable(x: nat, i: nat)
    requires x % ENTRIES + i < ENTRIES
    ensures (x + i) % ENTRIES == x % ENTRIES + i && (x + i) / ENTRIES == x / ENTRIES
  {
  }

  // ----- the calls, end to end -----

  const EINVAL := -22
  const WORD := 0x1_0000_0000_0000_0000
  const TWO32 := 0x1_0000_0000

  /** memory_regions[0] of a guest */
  datatype Region = Region(virBase: nat, size: nat, freeSize: nat)

  /** An unsigned long stored in an int. */
  function ToInt(x: nat): int {
    var r := x % TWO32;
    if r < 0x8000_0000 then r else r - TWO32
  }

  /** The number of blocks that vm_mmap is going to copy: the size rounded up, or everything after
      the offset when that is more than the region has left. */
  function BlockCount(region: Region, offset: nat, size: nat): int {
    var off := offset - offset % BLOCK;
    var sz := (size + BLOCK - 1) - (size + BLOCK - 1) % BLOCK;
    ToInt((if off + sz > region.freeSize then (region.size - off) % WORD else sz) / BLOCK)
  }

  /** That number never reaches beyond the region; an offset beyond it gives none at all. */
  lemma CountFits(region: Region, offset: nat, size: nat)
    requires region.freeSize <= region.size <= ENTRIES * GIGA && offset < 0x10_0000_0000_0000
    ensures var off, n := offset - offset % BLOCK, BlockCount(region, offset, size);
            && (off <= region.size ==> 0 <= n && off + n * BLOCK <= region.size)
            && (off + BLOCK * ((size + BLOCK - 1) / BLOCK) <= region.freeSize ==> n == (size + BLOCK - 1) / BLOCK)
            && (off <= region.size && off + BLOCK * ((size + BLOCK - 1) / BLOCK) > region.freeSize ==> n == (region.size - off) / BLOCK)
            && (off > region.size ==> n <= 0)
  {
    var off := offset - offset % BLOCK;
    if off > region.size { Underflow(off - region.size); }
  }

  lemma Underflow(d: nat)
    requires 0 < d <= 0x10_0000_0000_0000
    ensures ToInt(((0 - d) % WORD) / BLOCK) <= 0
  {
    assert (0 - d) % WORD == WORD - d;
    var q := (WORD - d) / BLOCK;
    assert 0x800_0000_0000 - 0x8000_0000 <= q < 0x800_0000_0000;
  }

  /** vm_mmap */
  method VmMmap(vm: AddressSpace, vm0: AddressSpace, region: Region, hvmBase: nat, offset: nat, size: nat) returns (err: int)
    requires vm != vm0 && vm.Valid() && !vm.host && vm0.Valid() && !vm0.host
    requires hvmBase % BLOCK == 0 && region.virBase % BLOCK == 0 && region.freeSize <= region.size && offset < 0x10_0000_0000_0000
    requires hvmBase + region.size < ENTRIES * GIGA && region.virBase + region.size <= ENTRIES * GIGA
    requires hvmBase + offset < ENTRIES * GIGA
    requires AllBlocks(vm.m, vm.root, region.virBase, region.size / BLOCK)
    modifies vm0`m, vm0`free
    ensures err == EINVAL <==> size > region.size
    ensures err == 0 || err == EINVAL || err == ENOMEM
    ensures size <= region.size && old(vm0.free) != [] && |old(vm0.free)| > BlockCount(region, offset, size) ==> err == 0
    ensures err == EINVAL ==> vm0.m == old(vm0.m)
    ensures var off, n := offset - offset % BLOCK, BlockCount(region, offset, size);
      err == 0 && n >= 0 ==> vm0.Valid() && Aliased(vm0.m, vm0.root, hvmBase + off, vm.m, vm.root, region.virBase + off, n * BLOCK)
    ensures var off, n := offset - offset % BLOCK, BlockCount(region, offset, size);
      err == 0 ==> vm0.Valid() && forall a: nat :: a < ENTRIES * GIGA && !(hvmBase + off <= a < hvmBase + off + n * BLOCK) ==>
        Walk(vm0.m, vm0.root, a) == Walk(old(vm0.m), vm0.root, a)
  {
    if size > region.size { return EINVAL; }
    var off := offset - offset % BLOCK;
    var n := BlockCount(region, offset, size);
    CountFits(region, offset, size);
    OffsetOnGrid(region.virBase, hvmBase, offset);
    if n > 0 { PartOfRegion(vm.m, vm.root, region, off, n); }
    err := CopyOrNothing(vm, vm0, region.virBase + off, hvmBase + off, n);
  }

  /** The rest of vm_mmap, for a number of blocks that may be zero or, stored in an int, negative. */
  method CopyOrNothing(vm: AddressSpace, vm0: AddressSpace, vir: nat, phy: nat, n: int) returns (err: int)
    requires vm != vm0 && vm.Valid() && !vm.host && vm0.Valid() && !vm0.host && phy % BLOCK == 0 && vir % BLOCK == 0
    requires phy < ENTRIES * GIGA
    requires n > 0 ==> phy + n * BLOCK < ENTRIES * GIGA && vir + n * BLOCK <= ENTRIES * GIGA && AllBlocks(vm.m, vm.root, vir, n)
    modifies vm0`m, vm0`free
    ensures (err == 0 || err == ENOMEM) && (old(vm0.free) != [] && |old(vm0.free)| > n ==> err == 0)
    ensures err == 0 && n >= 0 ==> vm0.Valid() && Aliased(vm0.m, vm0.root, phy, vm.m, vm.root, vir, n * BLOCK)
    ensures err == 0 ==> vm0.Valid() && forall a: nat :: a < ENTRIES * GIGA && !(phy <= a < phy + n * BLOCK) ==>
      Walk(vm0.m, vm0.root, a) == Walk(old(vm0.m), vm0.root, a)
  {
    if n > 0 {
      err := CopyBlocks(vm, vm0, vir, phy, n);
    } else {
      var ok, pmd0 := AllocGuestPmd(vm0, phy);
      err := if ok then 0 else ENOMEM;
    }
  }

  lemma OffsetOnGrid(vir: nat, phy: nat, offset: nat)
    requires vir % BLOCK == 0 && phy % BLOCK == 0
    ensures (vir + (offset - offset % BLOCK)) % BLOCK == 0 && (phy + (offset - offset % BLOCK)) % BLOCK == 0
  {
  }

  lemma PartOfRegion(m: Tables, root: nat, region: Region, off: nat, n: nat)
    requires WF(m) && root in m.pages && AllBlocks(m, root, region.virBase, region.size / BLOCK)
    requires off % BLOCK == 0 && off + n * BLOCK <= region.size
    ensures AllBlocks(m, root, region.virBase + off, n)
  {
    assert off + n * BLOCK <= (region.size / BLOCK) * BLOCK;
  }

  /** Guest and host alias: after alloc_vm_memory has backed the guest's region with memory blocks
      and vm_mmap has succeeded, the k-th 2M of VM 0 from its mmap base on and the k-th 2M of the
      guest from its own base on are the k-th memory block. */
  method ShareMemory(vm: AddressSpace, vm0: AddressSpace, base: nat, hvmBase: nat, blocks: seq<nat>) returns (ok: bool, err: int)
    requires vm != vm0 && vm.Valid() && !vm.host && vm0.Valid() && !vm0.host
    requires base % BLOCK == 0 && hvmBase % BLOCK == 0 && (forall k :: 0 <= k < |blocks| ==> blocks[k] % BLOCK == 0)
    requires base + |blocks| * BLOCK <= ENTRIES * GIGA && hvmBase + |blocks| * BLOCK < ENTRIES * GIGA && blocks != []
    requires forall a: nat :: base <= a < base + |blocks| * BLOCK ==> Walk(vm.m, vm.root, a) == None
    modifies vm`m, vm`free, vm0`m, vm0`free
    ensures err == 0 || err == ENOMEM
    ensures |old(vm.free)| >= |blocks| && |old(vm0.free)| > |blocks| ==> ok && err == 0
    ensures ok && err == 0 ==> vm.Valid() && vm0.Valid()
    ensures ok && err == 0 ==> Backed(vm.m, vm.root, base, blocks) && Backed(vm0.m, vm0.root, hvmBase, blocks)
    ensures ok && err == 0 ==> forall a: nat :: a < ENTRIES * GIGA && !(hvmBase <= a < hvmBase + |blocks| * BLOCK) ==>
      Walk(vm0.m, vm0.root, a) == Walk(old(vm0.m), vm0.root, a)
  {
    err := 0;
    ok := MapBlocks(vm, base, blocks);
    if !ok { return; }
    BackedIsBlocks(vm.m, vm.root, base, blocks);
    var region := Region(base, |blocks| * BLOCK, 0);
    WholeRegion(|blocks|);
    CountFits(region, 0, region.size);
    err := VmMmap(vm, vm0, region, hvmBase, 0, region.size);
    if err == 0 { BackedByAlias(vm0.m, vm0.root, hvmBase, vm.m, vm.root, base, blocks); }
  }

  lemma WholeRegion(n: nat)
    ensures (n * BLOCK) / BLOCK == n && 0 - 0 % BLOCK == 0
  {
  }

  lemma BackedByAlias(m0: Tables, root0: nat, phy: nat, m: Tables, root: nat, vir: nat, blocks: seq<nat>)
    requires WF(m0) && root0 in m0.pages && WF(m) && root in m.pages
    requires Backed(m, root, vir, blocks) && Aliased(m0, root0, phy, m, root, vir, |blocks| * BLOCK)
    ensures Backed(m0, root0, phy, blocks)
  {
    forall a: nat | phy <= a < phy + |blocks| * BLOCK
      ensures Goes(Walk(m0, root0, a), blocks[(a - phy) / BLOCK] + (a - phy) % BLOCK, PMD)
    {
      var g := vir + (a - phy);
      assert Walk(m0, root0, a) == Walk(m, root, g);
      assert g - vir == a - phy;
    }
  }
}
