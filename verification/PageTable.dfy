/** Multi-level translation tables with the 4K granule (mmu.c; VMSAv8-64 translation table
    descriptors): a successful mapping changes the walk of exactly the pages in its range. */
module PageTable {
  import opened Sealing
  import opened Wrappers

  // ----- levels: PGD 0, PUD 1, PMD 2, PTE 3 -----

  const PGD := 0
  const PUD := 1
  const PMD := 2
  const PTE := 3
  const ENTRIES := 512
  const PAGE := 0x1000
  const BLOCK := 0x20_0000
  const GIGA := 0x4000_0000

  /** map_size of a level: how much one entry covers. */
  function S(l: nat): nat
    requires l <= PTE
  {
    if l == PGD then 0x80_0000_0000 else if l == PUD then GIGA else if l == PMD then BLOCK else PAGE
  }

  /** Which entry of its level an address falls into, counted from address 0. */
  function Slot(l: nat, va: nat): nat
    requires l <= PTE
  {
    va / S(l)
  }

  /** The index inside its table: (vir & offset_mask) >> range_offset. */
  function Idx(l: nat, va: nat): nat
    requires l <= PTE
  {
    Slot(l, va) % ENTRIES
  }

  lemma SlotUp(l: nat, va: nat)
    requires PGD < l <= PTE
    ensures Slot(l, va) / ENTRIES == Slot(l - 1, va) && S(l - 1) == ENTRIES * S(l)
  {
  }

  // ----- tables -----

  /** A descriptor: nothing, a table of the next level, or a block or page at a physical base. */
  datatype Entry = Empty | Table(page: nat) | Leaf(base: nat)

  /** The place of a table: its level, and which entry of the level above it stands for. */
  datatype Key = Key(lvl: nat, prefix: nat)

  /** Table pages, and the place of each. */
  datatype Tables = Tables(pages: map<nat, seq<Entry>>, key: map<nat, Key>)

  /** A table entry leads to the table of the place it stands for; blocks and pages are at PMD and PTE only. */
  ghost predicate EntryOk(m: Tables, t: nat, i: nat)
    requires t in m.pages && t in m.key && i < |m.pages[t]|
  {
    match m.pages[t][i]
    case Empty => true
    case Table(q) => m.key[t].lvl < PTE && q in m.pages && q in m.key && m.key[q] == Key(m.key[t].lvl + 1, m.key[t].prefix * ENTRIES + i)
    case Leaf(_) => m.key[t].lvl >= PMD
  }

  ghost predicate WF(m: Tables) {
    && m.pages.Keys == m.key.Keys
    && (forall t :: t in m.pages ==> |m.pages[t]| == ENTRIES && m.key[t].lvl <= PTE)
    && forall t, i :: t in m.pages && 0 <= i < ENTRIES ==> EntryOk(m, t, i)
  }

  /** The address lies in the region the table stands for. */
  ghost predicate Under(m: Tables, t: nat, va: nat)
    requires t in m.key && m.key[t].lvl <= PTE
  {
    Slot(m.key[t].lvl, va) / ENTRIES == m.key[t].prefix
  }

  /** What the hardware makes of a block or page descriptor: its aligned base and the offset. */
  function Output(l: nat, base: nat, va: nat): nat
    requires l <= PTE
  {
    base - base % S(l) + va % S(l)
  }

  /** Where a walk ends: the physical address, and the level of the descriptor that gave it. */
  datatype Hit = Hit(addr: nat, lvl: nat)

  /** The translation table walk. */
  ghost function Walk(m: Tables, t: nat, va: nat): Option<Hit>
    requires WF(m) && t in m.pages
    decreases PTE - m.key[t].lvl
  {
    var l := m.key[t].lvl;
    assert EntryOk(m, t, Idx(l, va));
    match m.pages[t][Idx(l, va)]
    case Empty => None
    case Leaf(base) => Some(Hit(Output(l, base, va), l))
    case Table(q) => Walk(m, q, va)
  }

  // ----- the effect of one store -----

  function Store(m: Tables, t: nat, i: nat, e: Entry): Tables
    requires t in m.pages && i < |m.pages[t]|
  {
    m.(pages := m.pages[t := m.pages[t][i := e]])
  }

  lemma IndexInTable(m: Tables, t: nat, va: nat)
    requires WF(m) && t in m.pages && Under(m, t, va)
    ensures Slot(m.key[t].lvl, va) == m.key[t].prefix * ENTRIES + Idx(m.key[t].lvl, va)
  {
  }

  lemma NextUnder(m: Tables, t: nat, va: nat)
    requires WF(m) && t in m.pages && Under(m, t, va) && m.pages[t][Idx(m.key[t].lvl, va)].Table?
    ensures var q := m.pages[t][Idx(m.key[t].lvl, va)].page;
            q in m.pages && m.key[q].lvl == m.key[t].lvl + 1 && Under(m, q, va)
  {
    assert EntryOk(m, t, Idx(m.key[t].lvl, va));
    IndexInTable(m, t, va);
    SlotUp(m.key[t].lvl + 1, va);
  }

  lemma StoreWF(m: Tables, t: nat, i: nat, e: Entry)
    requires WF(m) && t in m.pages && i < ENTRIES
    requires match e
             case Empty => true
             case Leaf(_) => m.key[t].lvl >= PMD
             case Table(q) => m.key[t].lvl < PTE && q in m.pages && m.key[q] == Key(m.key[t].lvl + 1, m.key[t].prefix * ENTRIES + i)
    ensures WF(Store(m, t, i, e))
  {
    var m' := Store(m, t, i, e);
    forall x, j | x in m'.pages && 0 <= j < ENTRIES
      ensures EntryOk(m', x, j)
    {
      assert EntryOk(m, x, j);
    }
  }

  /** A store into entry i of table t changes no walk outside the slot of that entry. */
  lemma {:induction false} StoreFrame(m: Tables, t: nat, i: nat, e: Entry, x: nat, va: nat)
    requires WF(m) && t in m.pages && i < ENTRIES && WF(Store(m, t, i, e))
    requires x in m.pages && Under(m, x, va)
    requires Slot(m.key[t].lvl, va) != m.key[t].prefix * ENTRIES + i
    ensures Walk(Store(m, t, i, e), x, va) == Walk(m, x, va)
    decreases PTE - m.key[x].lvl
  {
    var m' := Store(m, t, i, e);
    var j := Idx(m.key[x].lvl, va);
    IndexInTable(m, x, va);
    assert m'.pages[x][j] == m.pages[x][j];
    if m.pages[x][j].Table? {
      NextUnder(m, x, va);
      StoreFrame(m, t, i, e, m.pages[x][j].page, va);
    }
  }

  function EmptyTable(): (s: seq<Entry>)
    ensures |s| == ENTRIES && forall i :: 0 <= i < ENTRIES ==> s[i] == Empty
  {
    seq(ENTRIES, _ => Empty)
  }

  function AddTable(m: Tables, q: nat, k: Key): Tables {
    Tables(m.pages[q := EmptyTable()], m.key[q := k])
  }

  lemma AddWF(m: Tables, q: nat, k: Key)
    requires WF(m) && q !in m.pages && k.lvl <= PTE
    ensures WF(AddTable(m, q, k))
  {
    var m' := AddTable(m, q, k);
    forall t, i | t in m'.pages && 0 <= i < ENTRIES
      ensures EntryOk(m', t, i)
    {
      if t != q { assert EntryOk(m, t, i); }
    }
  }

  /** A new empty table q behind entry i of table t. */
  function Install(m: Tables, t: nat, i: nat, q: nat): Tables
    requires t in m.pages && t in m.key && i < |m.pages[t]| && q !in m.pages
  {
    Store(AddTable(m, q, Key(m.key[t].lvl + 1, m.key[t].prefix * ENTRIES + i)), t, i, Table(q))
  }

  lemma InstallWF(m: Tables, t: nat, i: nat, q: nat)
    requires WF(m) && t in m.pages && i < ENTRIES && m.key[t].lvl < PTE && q !in m.pages
    ensures WF(Install(m, t, i, q))
  {
    AddWF(m, q, Key(m.key[t].lvl + 1, m.key[t].prefix * ENTRIES + i));
    StoreWF(AddTable(m, q, Key(m.key[t].lvl + 1, m.key[t].prefix * ENTRIES + i)), t, i, Table(q));
  }

  /** An empty table behind an empty entry changes no walk. */
  lemma {:induction false} InstallFrame(m: Tables, t: nat, i: nat, q: nat, x: nat, va: nat)
    requires WF(m) && t in m.pages && i < ENTRIES && m.key[t].lvl < PTE && q !in m.pages && m.pages[t][i].Empty?
    requires WF(Install(m, t, i, q)) && x in m.pages
    ensures Walk(Install(m, t, i, q), x, va) == Walk(m, x, va)
    decreases PTE - m.key[x].lvl
  {
    var m' := Install(m, t, i, q);
    var j := Idx(m.key[x].lvl, va);
    assert EntryOk(m, x, j);
    if x == t && j == i {
      assert m'.pages[q] == EmptyTable();
      assert Walk(m', q, va) == None;
    } else if m.pages[x][j].Table? {
      InstallFrame(m, t, i, q, m.pages[x][j].page, va);
    }
  }

  // ----- what a mapping leaves alone -----

  /** Tables are kept, with their places; those above level l are not written. */
  ghost predicate Keeps(m: Tables, m': Tables, l: nat) {
    && WF(m) && WF(m')
    && (forall x :: x in m.pages ==> x in m'.pages && m'.key[x] == m.key[x])
    && (forall x :: x in m.pages && m.key[x].lvl < l ==> m'.pages[x] == m.pages[x])
  }

  /** Outside lo..hi every walk, from any table, gives what it gave. */
  ghost predicate SameOutside(m: Tables, m': Tables, lo: nat, hi: nat)
    requires Keeps(m, m', 0)
  {
    forall x: nat, va: nat {:trigger Walk(m', x, va)} :: x in m.pages && Under(m, x, va) && !(lo <= va < hi) ==> Walk(m', x, va) == Walk(m, x, va)
  }

  lemma KeepsTrans(m: Tables, m1: Tables, m2: Tables, l: nat)
    requires Keeps(m, m1, l) && Keeps(m1, m2, l)
    ensures Keeps(m, m2, l)
  {
  }

  lemma SameTrans(m: Tables, m1: Tables, m2: Tables, lo: nat, mid: nat, hi: nat)
    requires Keeps(m, m1, 0) && Keeps(m1, m2, 0) && Keeps(m, m2, 0) && lo <= mid <= hi
    requires SameOutside(m, m1, lo, mid) && SameOutside(m1, m2, mid, hi)
    ensures SameOutside(m, m2, lo, hi)
  {
    forall x: nat, va: nat | x in m.pages && Under(m, x, va) && !(lo <= va < hi)
      ensures Walk(m2, x, va) == Walk(m, x, va)
    {
      assert Walk(m1, x, va) == Walk(m, x, va);
    }
  }

  lemma LeafFrame(m: Tables, t: nat, va: nat, base: nat, x: nat, a: nat)
    requires WF(m) && t in m.pages && m.key[t].lvl >= PMD && Under(m, t, va) && va % S(m.key[t].lvl) == 0
    requires x in m.pages && Under(m, x, a) && !(va <= a < va + S(m.key[t].lvl))
    ensures var m' := Store(m, t, Idx(m.key[t].lvl, va), Leaf(base));
            WF(m') && Walk(m', x, a) == Walk(m, x, a)
  {
    var l := m.key[t].lvl;
    var i := Idx(l, va);
    StoreWF(m, t, i, Leaf(base));
    IndexInTable(m, t, va);
    OtherSlot(l, va, a);
    StoreFrame(m, t, i, Leaf(base), x, a);
  }

  lemma OtherSlot(l: nat, va: nat, a: nat)
    requires l <= PTE && va % S(l) == 0
    ensures Slot(l, a) == Slot(l, va) <==> va <= a < va + S(l)
  {
  }

  /** One store of a leaf: its slot translates, nothing else changes. */
  lemma LeafStored(m: Tables, t: nat, va: nat, base: nat) returns (m': Tables)
    requires WF(m) && t in m.pages && m.key[t].lvl >= PMD && Under(m, t, va) && va % S(m.key[t].lvl) == 0
    ensures m' == Store(m, t, Idx(m.key[t].lvl, va), Leaf(base))
    ensures Keeps(m, m', m.key[t].lvl) && SameOutside(m, m', va, va + S(m.key[t].lvl))
    ensures forall a: nat {:trigger Walk(m', t, a)} :: va <= a < va + S(m.key[t].lvl) ==>
              Walk(m', t, a) == Some(Hit(Output(m.key[t].lvl, base, a), m.key[t].lvl))
  {
    var l := m.key[t].lvl;
    var i := Idx(l, va);
    m' := Store(m, t, i, Leaf(base));
    StoreWF(m, t, i, Leaf(base));
    forall x: nat, a: nat | x in m.pages && Under(m, x, a) && !(va <= a < va + S(l))
      ensures Walk(m', x, a) == Walk(m, x, a)
    {
      LeafFrame(m, t, va, base, x, a);
    }
    forall a: nat | va <= a < va + S(l)
      ensures Walk(m', t, a) == Some(Hit(Output(l, base, a), l))
    {
      OtherSlot(l, va, a);
    }
  }

  // ----- create_page_entry -----

  /** The addresses a table stands for. */
  function Low(k: Key): nat
    requires k.lvl <= PTE
  {
    k.prefix * (ENTRIES * S(k.lvl))
  }

  ghost predicate Inside(m: Tables, t: nat, lo: nat, hi: nat)
    requires t in m.key && m.key[t].lvl <= PTE
  {
    Low(m.key[t]) <= lo <= hi <= Low(m.key[t]) + ENTRIES * S(m.key[t].lvl)
  }

  lemma InsideUnder(m: Tables, t: nat, a: nat)
    requires t in m.key && m.key[t].lvl <= PTE
    ensures Under(m, t, a) <==> Low(m.key[t]) <= a < Low(m.key[t]) + ENTRIES * S(m.key[t].lvl)
  {
    UnderBounds(m.key[t].lvl, m.key[t].prefix, a);
  }

  lemma UnderBounds(l: nat, p: nat, a: nat)
    requires l <= PTE
    ensures Slot(l, a) / ENTRIES == p <==> p * (ENTRIES * S(l)) <= a < p * (ENTRIES * S(l)) + ENTRIES * S(l)
  {
  }

  /** Where an address of a run of leaves goes: the run's own offset, less what alignment cuts off. */
  lemma LeafOutput(l: nat, va: nat, pa: nat, at: nat, a: nat)
    requires PMD <= l <= PTE && va % S(l) == 0 && at % S(l) == 0 && va <= at <= a < at + S(l)
    ensures Output(l, pa + (at - va), a) == pa + (a - va) - pa % S(l)
  {
    AlignedDistance(l, va, at);
    OffsetInLeaf(l, at, a);
    RemainderKept(l, pa, at - va);
  }

  lemma AlignedDistance(l: nat, va: nat, at: nat)
    requires l <= PTE && va % S(l) == 0 && at % S(l) == 0 && va <= at
    ensures (at - va) % S(l) == 0
  {
  }

  lemma OffsetInLeaf(l: nat, at: nat, a: nat)
    requires l <= PTE && at % S(l) == 0 && at <= a < at + S(l)
    ensures a % S(l) == a - at
  {
  }

  lemma RemainderKept(l: nat, pa: nat, d: nat)
    requires l <= PTE && d % S(l) == 0
    ensures (pa + d) % S(l) == pa % S(l)
  {
  }

  predicate Goes(o: Option<Hit>, to: int, lvl: nat) { o.Some? && o.value.addr == to && o.value.lvl == lvl }

  /** Leaves at [va, hi) translate, with the physical base cut to the leaf size. */
  ghost predicate LeavesAt(m: Tables, t: nat, va: nat, hi: nat, pa: nat)
    requires WF(m) && t in m.pages
  {
    forall a: nat {:trigger Walk(m, t, a)} :: va <= a < hi ==>
      Goes(Walk(m, t, a), pa + (a - va) - pa % S(m.key[t].lvl), m.key[t].lvl)
  }

  /** From m0 to m, leaves have been stored at [va, at) of table t. */
  ghost predicate LeafRun(m0: Tables, m: Tables, t: nat, va: nat, at: nat, pa: nat) {
    && WF(m0) && t in m0.pages && Keeps(m0, m, m0.key[t].lvl)
    && SameOutside(m0, m, va, at) && LeavesAt(m, t, va, at, pa)
  }

  /** One more leaf after those at [va, at). */
  lemma LeafAdded(m0: Tables, m: Tables, t: nat, va: nat, at: nat, pa: nat) returns (m': Tables)
    requires Folded(LeafRun(m0, m, t, va, at, pa)) && PMD <= m0.key[t].lvl
    requires va % S(m.key[t].lvl) == 0 && at % S(m.key[t].lvl) == 0 && va <= at && Inside(m, t, va, at + S(m.key[t].lvl))
    ensures m' == Store(m, t, Idx(m.key[t].lvl, at), Leaf(pa + (at - va)))
    ensures Folded(LeafRun(m0, m', t, va, at + S(m.key[t].lvl), pa)) && m'.pages.Keys == m.pages.Keys && m'.key == m.key
  {
    var l := m.key[t].lvl;
    InsideUnder(m, t, at);
    m' := LeafStored(m, t, at, pa + (at - va));
    KeepsTrans(m0, m, m', l);
    SameTrans(m0, m, m', va, at, at + S(l));
    forall a: nat | va <= a < at + S(l)
      ensures Goes(Walk(m', t, a), pa + (a - va) - pa % S(l), l)
    {
      if a < at {
        InsideUnder(m, t, a);
        assert Walk(m', t, a) == Walk(m, t, a);
      } else {
        LeafOutput(l, va, pa, at, a);
      }
    }
  }

  // ----- an address space -----

  /** get_map_type for the next level: host mappings are blocks at PMD; guest mappings are pages
      at PTE, and at PMD blocks when virtual base and size allow it. */
  datatype MapType = AsTable | AsLeaf

  function GetMapType(host: bool, l: nat, va: nat, size: nat): MapType
    requires l <= PTE
  {
    if host then (if l == PMD then AsLeaf else AsTable)
    else if l == PTE then AsLeaf
    else if size % S(l) != 0 || va % S(l) != 0 then AsTable else AsLeaf
  }

  /** How far a piece of a range goes: to the next boundary of level l, or to the end of the range. */
  function PieceLength(l: nat, at: nat, hi: nat): (p: nat)
    requires l <= PTE && at < hi
    ensures 0 < p <= hi - at
  {
    var room := S(l) - at % S(l);
    if room > hi - at then hi - at else room
  }

  /** The pages that a range needs for tables below level l of an empty space: one behind each entry
      of level l, and what the pieces that are not mapped by leaves there need further down. */
  function Need(host: bool, l: nat, at: nat, hi: nat): nat
    requires l <= PTE
    decreases PTE - l, if at < hi then hi - at else 0
  {
    if at >= hi || l == PTE then 0
    else
      var p := PieceLength(l, at, hi);
      1 + (if GetMapType(host, l + 1, at, p).AsTable? then Need(host, l + 1, at, at + p) else 0) + Need(host, l, at + p, hi)
  }

  ghost predicate NeedIs(host: bool, l: nat, at: nat, hi: nat, c: nat) {
    forall n: int :: Unseal(n) ==> l <= PTE && Need(host, l, at, hi) == c
  }

  /** What one piece of a range needs: a table, and what that needs if it is not filled with leaves. */
  ghost predicate PieceNeedIs(host: bool, l: nat, at: nat, p: nat, c: nat, below: nat)
    requires l < PTE
  {
    if GetMapType(host, l + 1, at, p).AsTable? then c == 1 + below && Folded(NeedIs(host, l + 1, at, at + p, below)) else c == 1
  }

  lemma NeedStep(host: bool, l: nat, at: nat, hi: nat, p: nat, at': nat, c: nat) returns (c1: nat, below: nat, c2: nat)
    requires Folded(NeedIs(host, l, at, hi, c)) && l < PTE && at < hi && p == PieceLength(l, at, hi) && at' == at + p
    ensures c == c1 + c2 && Folded(PieceNeedIs(host, l, at, p, c1, below)) && Folded(NeedIs(host, l, at', hi, c2))
  {
    assert Unseal(0);
    below, c2 := Need(host, l + 1, at, at'), Need(host, l, at', hi);
    c1 := if GetMapType(host, l + 1, at, p).AsTable? then 1 + below else 1;
  }

  /** A range behind one entry of level l, mapped by entries of the next level, needs one page. */
  lemma OneTableNeeded(host: bool, l: nat, va: nat, size: nat)
    requires l < PTE && 0 < size <= S(l) - va % S(l) && GetMapType(host, l + 1, va, size).AsLeaf?
    ensures Need(host, l, va, va + size) == 1
  {
    assert PieceLength(l, va, va + size) == size;
  }

  /** Tables are whole pages. */
  ghost predicate PagesAligned(m: Tables) { forall q :: q in m.pages ==> q % PAGE == 0 }

  class AddressSpace {
    var m: Tables
    var free: seq<nat>     // pages that alloc_page can still give
    const root: nat
    const host: bool

    ghost predicate Valid()
      reads this
    {
      && WF(m) && root in m.pages && m.key[root] == Key(if host then PGD else PUD, 0)
      && PagesAligned(m) && (forall i :: 0 <= i < |free| ==> free[i] !in m.pages && free[i] % PAGE == 0)
      && forall i, j :: 0 <= i < j < |free| ==> free[i] != free[j]
    }

    /** An empty address space: guests start at PUD, the host at PGD. */
    constructor (isHost: bool, pgd: nat, pages: seq<nat>)
      requires pgd % PAGE == 0 && forall i :: 0 <= i < |pages| ==> pages[i] % PAGE == 0
      requires pgd !in pages && forall i, j :: 0 <= i < j < |pages| ==> pages[i] != pages[j]
      ensures Valid() && host == isHost && root == pgd && free == pages
      ensures forall va: nat :: Walk(m, root, va) == None
    {
      root, host, free := pgd, isHost, pages;
      m := AddTable(Tables(map[], map[]), pgd, Key(if isHost then PGD else PUD, 0));
      new;
      AddWF(Tables(map[], map[]), pgd, Key(if isHost then PGD else PUD, 0));
    }

    /** create_page_entry: consecutive block or page entries in one table. */
    method CreatePageEntry(t: nat, va: nat, pa: nat, size: nat)
      requires Valid() && t in m.pages && PMD <= m.key[t].lvl
      requires va % S(m.key[t].lvl) == 0 && size % S(m.key[t].lvl) == 0 && pa % PAGE == 0 && Inside(m, t, va, va + size)
      modifies this`m
      ensures Valid() && Keeps(old(m), m, old(m).key[t].lvl) && SameOutside(old(m), m, va, va + size)
      ensures m.pages.Keys == old(m).pages.Keys && LeavesAt(m, t, va, va + size, pa)
    {
      ghost var m0 := m;
      var l := m.key[t].lvl;
      var at, phys := va, pa;
      while at < va + size
        invariant va <= at <= va + size && at % S(l) == 0 && phys == pa + (at - va) && PageBase(phys) == phys
        invariant Valid() && t in m.pages && m.key[t] == m0.key[t] && m.pages.Keys == m0.pages.Keys
        invariant Folded(LeafRun(m0, m, t, va, at, pa))
      {
        EndAligned(l, va, size, at);
        PhysAligned(l, phys);
        ghost var m1 := LeafAdded(m0, m, t, va, at, pa);
        m := Store(m, t, Idx(l, at), Leaf(PageBase(phys)));
        at, phys := at + S(l), phys + S(l);
      }
    }

    /** The entry for va in table t, with a new empty table behind it if there was none. */
    method NextTable(t: nat, va: nat) returns (ok: bool, q: nat, isNew: bool)
      requires Valid() && t in m.pages && m.key[t].lvl < PTE && Under(m, t, va) && !m.pages[t][Idx(m.key[t].lvl, va)].Leaf?
      modifies this`m, this`free
      ensures !ok <==> old(m).pages[t][Idx(old(m).key[t].lvl, va)].Empty? && old(free) == []
      ensures |free| >= |old(free)| - 1
      ensures Valid() && Keeps(old(m), m, old(m).key[t].lvl)
      ensures forall x: nat, a: nat :: x in old(m).pages ==> Walk(m, x, a) == Walk(old(m), x, a)
      ensures ok ==> q in m.pages && m.key[q] == Key(m.key[t].lvl + 1, Slot(m.key[t].lvl, va))
      ensures ok ==> m.pages[t][Idx(m.key[t].lvl, va)] == Table(q)
    {
      var l := m.key[t].lvl;
      var i := Idx(l, va);
      IndexInTable(m, t, va);
      assert EntryOk(m, t, i);
      if m.pages[t][i].Table? { return true, m.pages[t][i].page, false; }
      if free == [] { return false, 0, false; }
      q := free[0];
      InstallWF(m, t, i, q);
      forall x: nat, a: nat | x in m.pages ensures Walk(Install(m, t, i, q), x, a) == Walk(m, x, a) {
        InstallFrame(m, t, i, q, x, a);
      }
      free := free[1..];
      m := Install(m, t, i, q);
      ok, isNew := true, true;
    }

    /** The second half of such a turn: the table behind the entry is filled, with tables or with leaves. */
    method FillTable(q: nat, va: nat, pa: nat, size: nat, ghost c: nat) returns (ok: bool)
      requires Valid() && q in m.pages && m.key[q].lvl <= (if host then PMD else PTE) && m.key[q].lvl > (if host then PGD else PUD)
      requires size > 0 && Inside(m, q, va, va + size)
      requires va % PAGE == 0 && pa % PAGE == 0 && size % PAGE == 0 && (host ==> va % BLOCK == 0 && size % BLOCK == 0)
      requires forall a: nat :: va <= a < va + size ==> Walk(m, q, a) == None
      requires GetMapType(host, m.key[q].lvl, va, size).AsTable? ==> Folded(NeedIs(host, m.key[q].lvl, va, va + size, c))
      modifies this`m, this`free
      ensures ok ==> Valid() && Keeps(old(m), m, old(m).key[q].lvl) && SameOutside(old(m), m, va, va + size)
      ensures ok ==> if GetMapType(host, old(m).key[q].lvl, va, size).AsTable? then MapsRange(m, q, host, va, va + size, pa)
                     else LeavesAt(m, q, va, va + size, pa)
      ensures GetMapType(host, old(m).key[q].lvl, va, size).AsLeaf? ==> ok && free == old(free)
      ensures |old(free)| >= c ==> ok && |free| >= |old(free)| - c
      decreases PTE - m.key[q].lvl, 4
    {
      var l := m.key[q].lvl;
      if GetMapType(host, l, va, size).AsTable? {
        ok := CreateTableEntry(q, va, pa, size, c);
      } else {
        LeafKind(host, l - 1, va, size, pa);
        CreatePageEntry(q, va, pa, size);
        ok := true;
      }
    }

    /** One turn of create_table_entry: a piece of the range that lies behind one entry of table t. */
    method MapPiece(t: nat, va: nat, pa: nat, size: nat, ghost c: nat, ghost below: nat) returns (ok: bool)
      requires Valid() && t in m.pages && m.key[t].lvl < (if host then PMD else PTE) && m.key[t].lvl >= (if host then PGD else PUD)
      requires size > 0 && Under(m, t, va) && Slot(m.key[t].lvl, va + size - 1) == Slot(m.key[t].lvl, va)
      requires va % PAGE == 0 && pa % PAGE == 0 && size % PAGE == 0 && (host ==> va % BLOCK == 0 && size % BLOCK == 0)
      requires Folded(Unmapped(m, t, va, va + size)) && Folded(PieceNeedIs(host, m.key[t].lvl, va, size, c, below))
      modifies this`m, this`free
      ensures ok ==> Valid() && Keeps(old(m), m, old(m).key[t].lvl) && SameOutside(old(m), m, va, va + size)
      ensures ok ==> Shifted(m, t, va, va + size, pa, PieceByBlock(host, old(m).key[t].lvl, va, size))
      ensures |old(free)| >= c ==> ok && |free| >= |old(free)| - c
      decreases PTE - m.key[t].lvl, 0
    {
      ghost var m0 := m;
      var l := m.key[t].lvl;
      var q, isNew;
      assert Walk(m, t, va) == None;
      ok, q, isNew := NextTable(t, va);
      if !ok { return; }
      ghost var m1 := m;
      PieceInside(m, t, q, va, size);
      assert forall a: nat :: va <= a < va + size ==> Walk(m, q, a) == None by { PieceThrough(m, t, q, va, size); }
      ok := FillTable(q, va, pa, size, if GetMapType(host, l + 1, va, size).AsTable? then below else 0);
      if !ok {
        // the page goes back to the allocator, the entry that points to it stays
        if isNew { free := free + [q]; }
        return;
      }
      assert m.pages[t] == m1.pages[t];
      PieceDoneBelow(m, t, q, host, va, size, pa);
      PieceSame(m0, m1, m, va, va + size, l);
    }

    /** create_table_entry */
    method CreateTableEntry(t: nat, va: nat, pa: nat, size: nat, ghost c: nat) returns (ok: bool)
      requires Valid() && t in m.pages && m.key[t].lvl < (if host then PMD else PTE) && m.key[t].lvl >= (if host then PGD else PUD)
      requires Inside(m, t, va, va + size)
      requires va % PAGE == 0 && pa % PAGE == 0 && size % PAGE == 0 && (host ==> va % BLOCK == 0 && size % BLOCK == 0)
      requires forall a: nat :: va <= a < va + size ==> Walk(m, t, a) == None
      requires Folded(NeedIs(host, m.key[t].lvl, va, va + size, c))
      modifies this`m, this`free
      ensures ok ==> Valid() && Keeps(old(m), m, old(m).key[t].lvl) && SameOutside(old(m), m, va, va + size)
      ensures ok ==> MapsRange(m, t, host, va, va + size, pa)
      ensures |old(free)| >= c ==> ok && |free| >= |old(free)| - c
      decreases PTE - m.key[t].lvl, 3
    {
      ghost var m0 := m;
      var l := m.key[t].lvl;
      var at := va;
      ghost var left := c;
      ok := true;
      while at < va + size
        invariant va <= at <= va + size && Folded(OnWay(host, l, va, va + size, at))
        invariant ok && Valid() && t in m.pages && m.key[t] == m0.key[t]
        invariant Folded(Progress(m0, m, t, host, va, va + size, pa, at))
        invariant Folded(NeedIs(host, l, at, va + size, left)) && (|old(free)| >= c ==> |free| >= |old(free)| - c + left)
        decreases va + size - at
      {
        ok, at, left := MapNext(t, va, pa, size, at, m0, left);
        if !ok { return; }
      }
    }

    /** One turn of the loop: the next piece is mapped. */
    method MapNext(t: nat, va: nat, pa: nat, size: nat, at: nat, ghost m0: Tables, ghost c: nat) returns (ok: bool, at': nat, ghost c': nat)
      requires Valid() && t in m.pages && t in m0.key && m.key[t] == m0.key[t]
      requires m.key[t].lvl < (if host then PMD else PTE) && m.key[t].lvl >= (if host then PGD else PUD)
      requires Inside(m, t, va, va + size) && at < va + size && Folded(OnWay(host, m.key[t].lvl, va, va + size, at))
      requires va % PAGE == 0 && pa % PAGE == 0 && size % PAGE == 0
      requires host ==> va % BLOCK == 0 && size % BLOCK == 0
      requires Folded(Progress(m0, m, t, host, va, va + size, pa, at))
      requires Folded(Unmapped(m0, t, va, va + size)) && Folded(NeedIs(host, m.key[t].lvl, at, va + size, c))
      modifies this`m, this`free
      ensures ok ==> Valid() && t in m.pages && m.key[t] == m0.key[t] && at < at' <= va + size
      ensures ok ==> Folded(OnWay(host, m0.key[t].lvl, va, va + size, at'))
      ensures ok ==> Folded(Progress(m0, m, t, host, va, va + size, pa, at'))
      ensures |old(free)| >= c ==> ok && |free| >= |old(free)| - c + c'
      ensures Folded(NeedIs(host, m0.key[t].lvl, at', va + size, c'))
      decreases PTE - m.key[t].lvl, 2
    {
      var l := m.key[t].lvl;
      var piece, phys;
      piece, phys, at' := NextPiece(host, l, va, pa, size, at);
      ghost var c1, below;
      c1, below, c' := NeedStep(host, l, at, va + size, piece, at', c);
      ok := MapThis(t, at, phys, piece, m0, va, va + size, pa, at', c1, below);
    }

    /** This piece of the range is mapped. */
    method MapThis(t: nat, at: nat, phys: nat, piece: nat, ghost m0: Tables, ghost va: nat, ghost hi: nat, ghost pa: nat,
                   ghost at': nat, ghost c: nat, ghost below: nat) returns (ok: bool)
      requires Valid() && t in m.pages && t in m0.key && m.key[t] == m0.key[t]
      requires m.key[t].lvl < (if host then PMD else PTE) && m.key[t].lvl >= (if host then PGD else PUD)
      requires Inside(m, t, va, hi) && va <= at < at' == at + piece <= hi && Slot(m.key[t].lvl, at + piece - 1) == Slot(m.key[t].lvl, at)
      requires Folded(OnWay(host, m.key[t].lvl, va, hi, at)) && Folded(OnWay(host, m.key[t].lvl, va, hi, at'))
      requires at % PAGE == 0 && phys % PAGE == 0 && piece % PAGE == 0 && phys == pa + (at - va)
      requires host ==> at % BLOCK == 0 && piece % BLOCK == 0
      requires Folded(Progress(m0, m, t, host, va, hi, pa, at)) && Folded(Unmapped(m0, t, va, hi))
      requires Folded(PieceNeedIs(host, m.key[t].lvl, at, piece, c, below))
      modifies this`m, this`free
      ensures ok ==> Valid() && t in m.pages && m.key[t] == m0.key[t] && Folded(Progress(m0, m, t, host, va, hi, pa, at'))
      ensures |old(free)| >= c ==> ok && |free| >= |old(free)| - c
      decreases PTE - m.key[t].lvl, 1
    {
      ghost var mb := m;
      PieceFree(m0, m, t, host, va, hi, pa, at, piece);
      ok := MapPiece(t, at, phys, piece, c, below);
      if !ok { return; }
      PieceDone(m0, mb, m, t, host, va, hi, pa, at, piece, at');
    }

    /** create_mem_mapping: every page of the range translates to its physical page, and nothing else changes. */
    method CreateMemMapping(va: nat, pa: nat, size: nat) returns (ok: bool)
      requires Valid() && va + size <= ENTRIES * S(if host then PGD else PUD)
      requires va % PAGE == 0 && pa % PAGE == 0 && size % PAGE == 0 && (host ==> va % BLOCK == 0 && size % BLOCK == 0)
      requires forall a: nat :: va <= a < va + size ==> Walk(m, root, a) == None
      modifies this`m, this`free
      ensures var need := Need(host, if host then PGD else PUD, va, va + size);
              |old(free)| >= need ==> ok && |free| >= |old(free)| - need
      ensures ok ==> Valid()
      ensures ok ==> forall a: nat :: va <= a < va + size ==>
        var block := ByBlock(host, if host then PGD else PUD, va, va + size, a);
        Goes(Walk(m, root, a), Target(block, va, pa, a), LevelOf(block))
      ensures ok ==> forall a: nat :: a < ENTRIES * S(if host then PGD else PUD) && !(va <= a < va + size) ==>
        Walk(m, root, a) == Walk(old(m), root, a)
    {
      ghost var m0 := m;
      ok := CreateTableEntry(root, va, pa, size, Need(host, if host then PGD else PUD, va, va + size));
      if ok {
        forall a: nat | a < ENTRIES * S(if host then PGD else PUD) && !(va <= a < va + size)
          ensures Walk(m, root, a) == Walk(m0, root, a)
        {
          InsideUnder(m0, root, a);
        }
      }
    }
  }

  // ----- where an address goes -----

  /** How far the physical base is off the block grid of the virtual base. */
  function Cut(va: nat, pa: nat): nat { (pa - va) % BLOCK }

  /** The part of a guest range that one PUD entry covers is mapped in blocks when both its ends
      are on the block grid. */
  predicate Blocked(va: nat, hi: nat, a: nat) {
    var g := a - a % GIGA;
    && (va % BLOCK == 0 || va <= g)
    && (hi % BLOCK == 0 || g + GIGA <= hi)
  }

  /** Is a, in the range [va, hi) mapped from a table of level l, mapped by a block? */
  predicate ByBlock(host: bool, l: nat, va: nat, hi: nat, a: nat) {
    host || (l != PMD && Blocked(va, hi, a))
  }

  predicate PieceByBlock(host: bool, l: nat, va: nat, size: nat) {
    host || (l != PMD && va % BLOCK == 0 && size % BLOCK == 0)
  }

  /** The physical address of a when va goes to pa: a block's base is cut to the block grid. */
  function Target(block: bool, va: nat, pa: nat, a: nat): int
  {
    pa + (a - va) - (if block then Cut(va, pa) else 0)
  }

  function LevelOf(block: bool): nat { if block then PMD else PTE }

  ghost predicate Shifted(m: Tables, t: nat, va: nat, hi: nat, pa: nat, block: bool)
    requires WF(m) && t in m.pages
  {
    forall a: nat {:trigger Walk(m, t, a)} :: va <= a < hi ==> Goes(Walk(m, t, a), Target(block, va, pa, a), LevelOf(block))
  }

  ghost predicate MapsPart(m: Tables, t: nat, host: bool, va: nat, hi: nat, pa: nat, at: nat)
    requires WF(m) && t in m.pages
  {
    forall a: nat {:trigger Walk(m, t, a)} :: va <= a < at ==>
      var block := ByBlock(host, m.key[t].lvl, va, hi, a);
      Goes(Walk(m, t, a), Target(block, va, pa, a), LevelOf(block))
  }

  ghost predicate MapsRange(m: Tables, t: nat, host: bool, va: nat, hi: nat, pa: nat)
    requires WF(m) && t in m.pages
  {
    MapsPart(m, t, host, va, hi, pa, hi)
  }

  /** phys & DESC_MASK(12) */
  function PageBase(phys: nat): nat { phys - phys % PAGE }

  lemma PhysAligned(l: nat, phys: nat)
    requires l <= PTE && PageBase(phys) == phys
    ensures PageBase(phys + S(l)) == phys + S(l)
  {
    OnGrid(PAGE, phys, S(l));
  }

  lemma EndAligned(l: nat, va: nat, size: nat, at: nat)
    requires PMD <= l <= PTE && va % S(l) == 0 && size % S(l) == 0 && at % S(l) == 0 && va <= at < va + size
    ensures at + S(l) <= va + size && (at + S(l)) % S(l) == 0
  {
    var g := S(l);
    OnGrid(g, va, size);
    OnGrid(g, va + size, at);
    OnGrid(g, at, g);
  }

  // ----- pieces -----

  /** A leaf run has the size, and cuts off exactly what, a piece of its kind does. */
  lemma LeafKind(host: bool, l: nat, va: nat, size: nat, pa: nat)
    requires l < PTE && GetMapType(host, l + 1, va, size).AsLeaf? && pa % PAGE == 0 && va % PAGE == 0 && size % PAGE == 0
    requires (host ==> l < PMD && va % BLOCK == 0 && size % BLOCK == 0) && (!host ==> l >= PUD)
    ensures l + 1 == LevelOf(PieceByBlock(host, l, va, size)) && va % S(l + 1) == 0 && size % S(l + 1) == 0
    ensures pa % S(l + 1) == if PieceByBlock(host, l, va, size) then Cut(va, pa) else 0
  {
    if l + 1 == PMD { CutAligned(va, pa); }
  }

  /** What the next level has mapped, seen from table t. */
  lemma PieceDoneBelow(m: Tables, t: nat, q: nat, host: bool, va: nat, size: nat, pa: nat)
    requires WF(m) && t in m.pages && q in m.pages && m.key[t].lvl < PTE && m.key[q].lvl == m.key[t].lvl + 1 && size > 0
    requires m.pages[t][Idx(m.key[t].lvl, va)] == Table(q) && Slot(m.key[t].lvl, va + size - 1) == Slot(m.key[t].lvl, va)
    requires pa % PAGE == 0 && va % PAGE == 0 && size % PAGE == 0
    requires (host ==> m.key[t].lvl < PMD && va % BLOCK == 0 && size % BLOCK == 0) && (!host ==> m.key[t].lvl >= PUD)
    requires if GetMapType(host, m.key[t].lvl + 1, va, size).AsTable? then MapsRange(m, q, host, va, va + size, pa)
             else m.key[q].lvl >= PMD && LeavesAt(m, q, va, va + size, pa)
    ensures Shifted(m, t, va, va + size, pa, PieceByBlock(host, m.key[t].lvl, va, size))
  {
    var l := m.key[t].lvl;
    PieceThrough(m, t, q, va, size);
    if GetMapType(host, l + 1, va, size).AsLeaf? { LeafKind(host, l, va, size, pa); }
    forall a: nat | va <= a < va + size
      ensures Goes(Walk(m, t, a), Target(PieceByBlock(host, l, va, size), va, pa, a), LevelOf(PieceByBlock(host, l, va, size)))
    {
      assert Walk(m, t, a) == Walk(m, q, a);
    }
  }

  lemma CutAligned(va: nat, pa: nat)
    requires va % BLOCK == 0
    ensures Cut(va, pa) == pa % BLOCK
  {
  }

  lemma CutMoves(va: nat, pa: nat, at: nat)
    requires va <= at
    ensures Cut(at, pa + (at - va)) == Cut(va, pa)
  {
  }

  lemma PieceInside(m: Tables, t: nat, q: nat, va: nat, size: nat)
    requires WF(m) && t in m.pages && q in m.pages && m.key[t].lvl < PTE && size > 0
    requires m.key[q] == Key(m.key[t].lvl + 1, Slot(m.key[t].lvl, va))
    requires Slot(m.key[t].lvl, va + size - 1) == Slot(m.key[t].lvl, va)
    ensures Inside(m, q, va, va + size)
  {
    SlotRange(m.key[t].lvl, va);
    SlotRange(m.key[t].lvl, va + size - 1);
    SlotUp(m.key[t].lvl + 1, va);
  }

  lemma SlotRange(l: nat, va: nat)
    requires l <= PTE
    ensures Slot(l, va) * S(l) <= va < Slot(l, va) * S(l) + S(l)
  {
  }

  lemma SlotBetween(l: nat, va: nat, a: nat, b: nat)
    requires l <= PTE && va <= a <= b && Slot(l, b) == Slot(l, va)
    ensures Slot(l, a) == Slot(l, va)
  {
  }

  /** Walks in the piece go through its table. */
  lemma PieceThrough(m: Tables, t: nat, q: nat, va: nat, size: nat)
    requires WF(m) && t in m.pages && q in m.pages && m.key[t].lvl < PTE && size > 0
    requires m.pages[t][Idx(m.key[t].lvl, va)] == Table(q)
    requires Slot(m.key[t].lvl, va + size - 1) == Slot(m.key[t].lvl, va)
    ensures forall a: nat {:trigger Walk(m, t, a)} {:trigger Walk(m, q, a)} :: va <= a < va + size ==> Walk(m, t, a) == Walk(m, q, a)
  {
    forall a: nat | va <= a < va + size
      ensures Walk(m, t, a) == Walk(m, q, a)
    {
      SlotBetween(m.key[t].lvl, va, a, va + size - 1);
    }
  }

  lemma PieceSame(m0: Tables, m1: Tables, m2: Tables, lo: nat, hi: nat, l: nat)
    requires Keeps(m0, m1, l) && Keeps(m1, m2, l + 1)
    requires (forall x: nat, a: nat :: x in m0.pages ==> Walk(m1, x, a) == Walk(m0, x, a)) && SameOutside(m1, m2, lo, hi)
    ensures Keeps(m0, m2, l) && SameOutside(m0, m2, lo, hi)
  {
    forall x: nat, va: nat | x in m0.pages && Under(m0, x, va) && !(lo <= va < hi)
      ensures Walk(m2, x, va) == Walk(m0, x, va)
    {
      assert Walk(m1, x, va) == Walk(m0, x, va);
    }
  }

  /** The pieces that create_table_entry cuts a range into. */
  lemma PieceBounds(l: nat, va: nat, size: nat, at: nat, piece: nat)
    requires l <= PTE && va <= at < va + size && at % PAGE == 0 && va % PAGE == 0 && size % PAGE == 0
    requires var room := S(l) - at % S(l); piece == if room > va + size - at then va + size - at else room
    ensures 0 < piece <= va + size - at && Slot(l, at + piece - 1) == Slot(l, at)
    ensures (at + piece) % PAGE == 0 && piece % PAGE == 0
    ensures at + piece == va + size || (at + piece) % S(l) == 0
    ensures l <= PUD && at % BLOCK == 0 && va % BLOCK == 0 && size % BLOCK == 0 ==> (at + piece) % BLOCK == 0 && piece % BLOCK == 0
  {
    assert 0 < piece <= S(l) - at % S(l);
    PieceInSlot(l, at, piece);
    PieceOnGrid(l, va, size, at, piece, PAGE);
    if l <= PUD && at % BLOCK == 0 && va % BLOCK == 0 && size % BLOCK == 0 { PieceOnGrid(l, va, size, at, piece, BLOCK); }
  }

  /** Where the loop of create_table_entry can be. */
  ghost predicate OnWay(host: bool, l: nat, va: nat, hi: nat, at: nat)
    requires l <= PTE
  {
    va <= at <= hi && at % PAGE == 0 && (host ==> at % BLOCK == 0) && (at == va || at == hi || at % S(l) == 0)
  }

  /** The next piece: up to the next boundary of this level, or to the end of the range. */
  method NextPiece(host: bool, l: nat, va: nat, pa: nat, size: nat, at: nat) returns (piece: nat, phys: nat, at': nat)
    requires l <= PTE && va <= at < va + size && at % PAGE == 0 && va % PAGE == 0 && size % PAGE == 0 && pa % PAGE == 0
    requires host ==> l <= PUD && at % BLOCK == 0 && va % BLOCK == 0 && size % BLOCK == 0
    ensures 0 < piece && at + piece <= va + size && Slot(l, at + piece - 1) == Slot(l, at)
    ensures (at + piece) % PAGE == 0 && piece % PAGE == 0 && phys == pa + (at - va) && phys % PAGE == 0
    ensures at + piece == va + size || (at + piece) % S(l) == 0
    ensures host ==> (at + piece) % BLOCK == 0 && piece % BLOCK == 0
    ensures piece == PieceLength(l, at, va + size)
    ensures at' == at + piece && Folded(OnWay(host, l, va, va + size, at'))
  {
    var room := if at % S(l) == 0 then S(l) else S(l) - at % S(l);
    piece := if room > va + size - at then va + size - at else room;
    PieceBounds(l, va, size, at, piece);
    OnGrid(PAGE, at, va);
    OnGrid(PAGE, pa, at - va);
    phys, at' := pa + (at - va), at + piece;
  }

  lemma PieceOnGrid(l: nat, va: nat, size: nat, at: nat, piece: nat, g: nat)
    requires l <= PTE && va <= at < va + size && (g == PAGE || (g == BLOCK && l <= PUD))
    requires at % g == 0 && va % g == 0 && size % g == 0
    requires piece == va + size - at || piece == S(l) - at % S(l)
    ensures (at + piece) % g == 0 && piece % g == 0
  {
    if piece == va + size - at {
      OnGrid(g, va, size);
      OnGrid(g, va + size, at);
    } else {
      LevelOnGrid(l, g);
      GridIn(at, S(l) / g, g);
    }
    OnGrid(g, at, piece);
  }

  lemma LevelOnGrid(l: nat, g: nat)
    requires l <= PTE && (g == PAGE || (g == BLOCK && l <= PUD))
    ensures S(l) / g > 0 && S(l) / g * g == S(l)
  {
  }

  lemma OnGrid(g: nat, x: nat, y: nat)
    requires (g == PAGE || g == BLOCK) && x % g == 0 && y % g == 0
    ensures (x + y) % g == 0 && (x >= y ==> (x - y) % g == 0)
  {
    if g == PAGE { OnPages(x, y); } else { OnBlockGrid(x, y); }
  }

  lemma OnPages(x: nat, y: nat)
    requires x % PAGE == 0 && y % PAGE == 0
    ensures (x + y) % PAGE == 0 && (x >= y ==> (x - y) % PAGE == 0)
  {
  }

  lemma OnBlockGrid(x: nat, y: nat)
    requires x % BLOCK == 0 && y % BLOCK == 0
    ensures (x + y) % BLOCK == 0 && (x >= y ==> (x - y) % BLOCK == 0)
  {
  }

  lemma PieceInSlot(l: nat, at: nat, piece: nat)
    requires l <= PTE && 0 < piece <= S(l) - at % S(l)
    ensures Slot(l, at + piece - 1) == Slot(l, at)
    ensures piece == S(l) - at % S(l) ==> (at + piece) % S(l) == 0
  {
  }

  /** The remainder of a multiple of g by a multiple of g is a multiple of g. */
  lemma GridIn(at: nat, k: nat, g: nat)
    requires k > 0 && (g == PAGE || g == BLOCK) && at % g == 0
    ensures (k * g - at % (k * g)) % g == 0
  {
    var s := k * g;
    var x, q := at / g, at / s;
    assert at == g * x;
    assert at % s == at - s * q;
    assert s * q == g * (k * q) by { assert k * g * q == g * (k * q); }
    assert k * g - at % s == g * (k - x + k * q) by {
      assert g * (k - x + k * q) == g * k - g * x + g * (k * q);
    }
    MultipleOf(g, k - x + k * q);
  }

  lemma MultipleOf(g: nat, x: int)
    requires g == PAGE || g == BLOCK
    ensures (g * x) % g == 0
  {
  }

  /** The piece around an address decides whether the address is mapped by a block. */
  lemma KindOfPiece(host: bool, l: nat, va: nat, hi: nat, pa: nat, at: nat, piece: nat, a: nat)
    requires l <= PTE && va <= at <= a < at + piece <= hi && (host || l == PMD || l == PUD)
    requires l == PUD ==> (at == va || at % GIGA == 0) && (at + piece == hi || (at + piece) % GIGA == 0)
    requires l == PUD ==> at / GIGA == a / GIGA == (at + piece - 1) / GIGA
    ensures PieceByBlock(host, l, at, piece) <==> ByBlock(host, l, va, hi, a)
    ensures forall block :: Target(block, at, pa + (at - va), a) == Target(block, va, pa, a)
  {
    CutMoves(va, pa, at);
    if !host && l == PUD { BlockedPiece(va, hi, at, piece, a); }
  }

  lemma BlockedPiece(va: nat, hi: nat, at: nat, piece: nat, a: nat)
    requires va <= at <= a < at + piece <= hi
    requires (at == va || at % GIGA == 0) && (at + piece == hi || (at + piece) % GIGA == 0)
    requires at / GIGA == a / GIGA == (at + piece - 1) / GIGA
    ensures Blocked(va, hi, a) <==> at % BLOCK == 0 && piece % BLOCK == 0
  {
    var g := a - a % GIGA;
    BlockedStart(va, at, g, a);
    BlockedEnd(hi, at + piece, g, a);
    DifferenceOnGrid(at, piece);
  }

  lemma DifferenceOnGrid(at: nat, piece: nat)
    ensures at % BLOCK == 0 && (at + piece) % BLOCK == 0 <==> at % BLOCK == 0 && piece % BLOCK == 0
  {
  }

  lemma GigaIsBlocks(x: nat)
    requires x % GIGA == 0
    ensures x % BLOCK == 0
  {
  }

  lemma BlockedStart(va: nat, at: nat, g: nat, a: nat)
    requires va <= at <= a && (at == va || at % GIGA == 0) && at / GIGA == a / GIGA && g == a - a % GIGA
    ensures va % BLOCK == 0 || va <= g <==> at % BLOCK == 0
  {
    var q := a / GIGA;
    assert g == GIGA * q && at >= GIGA * q;
    if at % GIGA == 0 {
      GigaIsBlocks(at);
      assert at == g;
    } else {
      assert at > g;
    }
  }

  lemma BlockedEnd(hi: nat, end: nat, g: nat, a: nat)
    requires a < end <= hi && (end == hi || end % GIGA == 0) && (end - 1) / GIGA == a / GIGA && g == a - a % GIGA
    ensures hi % BLOCK == 0 || g + GIGA <= hi <==> end % BLOCK == 0
  {
    var q := a / GIGA;
    assert g == GIGA * q && end <= GIGA * q + GIGA;
    if end % GIGA == 0 {
      GigaIsBlocks(end);
      assert end == g + GIGA;
    } else {
      assert end < g + GIGA;
    }
  }

  /** The loop of create_table_entry has mapped [va, at) and left the rest alone. */
  ghost predicate Progress(m0: Tables, m: Tables, t: nat, host: bool, va: nat, hi: nat, pa: nat, at: nat) {
    && WF(m0) && t in m0.pages && Keeps(m0, m, m0.key[t].lvl)
    && SameOutside(m0, m, va, at) && MapsPart(m, t, host, va, hi, pa, at)
  }

  ghost predicate Unmapped(m: Tables, t: nat, lo: nat, hi: nat) {
    WF(m) && t in m.pages && forall a: nat :: lo <= a < hi ==> Walk(m, t, a) == None
  }

  lemma PieceFree(m0: Tables, m: Tables, t: nat, host: bool, va: nat, hi: nat, pa: nat, at: nat, piece: nat)
    requires Folded(Progress(m0, m, t, host, va, hi, pa, at)) && t in m0.key && m0.key[t].lvl <= PTE && Inside(m0, t, va, hi)
    requires va <= at && at + piece <= hi && piece > 0 && Folded(Unmapped(m0, t, va, hi))
    ensures t in m.key && m.key[t].lvl <= PTE && Under(m, t, at) && Folded(Unmapped(m, t, at, at + piece))
  {
    InsideUnder(m, t, at);
    forall a: nat | at <= a < at + piece ensures Walk(m, t, a) == None {
      InsideUnder(m0, t, a);
      assert Walk(m, t, a) == Walk(m0, t, a);
    }
  }

  lemma PieceDone(m0: Tables, m: Tables, m': Tables, t: nat, host: bool, va: nat, hi: nat, pa: nat, at: nat, piece: nat, at': nat)
    requires at' == at + piece && Folded(Progress(m0, m, t, host, va, hi, pa, at))
    requires t in m0.key && t in m.key && m0.key[t].lvl <= PTE && Keeps(m, m', m.key[t].lvl) && SameOutside(m, m', at, at + piece)
    requires va <= at && at + piece <= hi && (host || m.key[t].lvl == PMD || m.key[t].lvl == PUD) && m.key[t].lvl <= PMD
    requires Inside(m0, t, va, hi)
    requires Folded(OnWay(host, m.key[t].lvl, va, hi, at)) && Folded(OnWay(host, m.key[t].lvl, va, hi, at'))
    requires piece > 0 && Slot(m.key[t].lvl, at + piece - 1) == Slot(m.key[t].lvl, at)
    requires Shifted(m', t, at, at + piece, pa + (at - va), PieceByBlock(host, m.key[t].lvl, at, piece))
    ensures Folded(Progress(m0, m', t, host, va, hi, pa, at'))
  {
    KeepsTrans(m0, m, m', m0.key[t].lvl);
    SameTrans(m0, m, m', va, at, at + piece);
    PartGrows(m, m', t, host, va, hi, pa, at, piece);
  }

  lemma PartGrows(m: Tables, m': Tables, t: nat, host: bool, va: nat, hi: nat, pa: nat, at: nat, piece: nat)
    requires Keeps(m, m', 0) && t in m.pages && SameOutside(m, m', at, at + piece) && MapsPart(m, t, host, va, hi, pa, at)
    requires va <= at && at + piece <= hi && (host || m.key[t].lvl == PMD || m.key[t].lvl == PUD) && m.key[t].lvl <= PMD
    requires Inside(m, t, va, hi)
    requires at == va || at % S(m.key[t].lvl) == 0
    requires at + piece == hi || (at + piece) % S(m.key[t].lvl) == 0
    requires piece > 0 && Slot(m.key[t].lvl, at + piece - 1) == Slot(m.key[t].lvl, at)
    requires Shifted(m', t, at, at + piece, pa + (at - va), PieceByBlock(host, m.key[t].lvl, at, piece))
    ensures MapsPart(m', t, host, va, hi, pa, at + piece)
  {
    forall a: nat | va <= a < at + piece
      ensures var block := ByBlock(host, m.key[t].lvl, va, hi, a);
              Goes(Walk(m', t, a), Target(block, va, pa, a), LevelOf(block))
    {
      if a < at {
        InsideUnder(m, t, a);
        assert Walk(m', t, a) == Walk(m, t, a);
      } else {
        SlotBetween(m.key[t].lvl, at, a, at + piece - 1);
        KindOfPiece(host, m.key[t].lvl, va, hi, pa, at, piece, a);
      }
    }
  }

  /** An address goes exactly where it should unless a block maps it and physical and virtual
      base differ modulo 2M. */
  lemma ExactTranslation(block: bool, va: nat, pa: nat, a: nat)
    ensures Target(block, va, pa, a) == pa + (a - va) <==> !block || pa % BLOCK == va % BLOCK
  {
    CongruentIsUncut(va, pa);
  }

  lemma CongruentIsUncut(va: nat, pa: nat)
    ensures Cut(va, pa) == 0 <==> pa % BLOCK == va % BLOCK
  {
  }

  /** The shift is real: a guest block at virtual address 0 mapped to physical address 0x1000 goes to 0. */
  method BlockMappingShifts() returns (vm: AddressSpace)
    ensures vm.Valid() && Walk(vm.m, vm.root, 0) == Some(Hit(0, PMD))
  {
    vm := new AddressSpace(false, 0, [PAGE]);
    OneTableNeeded(false, PUD, 0, BLOCK);
    var ok := vm.CreateMemMapping(0, PAGE, BLOCK);
    assert ByBlock(false, PUD, 0, BLOCK, 0) && Target(true, 0, PAGE, 0) == 0;
    assert Goes(Walk(vm.m, vm.root, 0), 0, PMD);
  }
}
