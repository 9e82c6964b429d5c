/** The slab heap (mm_default.c): six strategies in a fixed order over size-class pools, a pool
    of freed big chunks, a cache of big chunks to split, and a bump region. */
module Slab {
  import opened Sealing
  import opened Wrappers

  const HEADER := 16
  const MIN_DATA := 16
  const MIN_SIZE := MIN_DATA + HEADER
  const BLOCK_SIZE := 0x20_0000
  const POOLS := 34
  const BIG := 32       // pool_nr - FREE_POOL_OFFSET
  const CACHE := 33     // pool_nr - CACHE_POOL_OFFSET
  const LIVE := 34      // the place of a chunk that the heap has handed out
  const SLAB_MAGIC := 0xdead_beef
  const TWO32 := 0x1_0000_0000

  /** get_slab_alloc_size */
  function AllocSize(size: nat): nat { (size + MIN_DATA - 1) / MIN_DATA * MIN_DATA }

  /** slab_pool_id */
  function PoolId(size: nat): nat
    requires size >= MIN_DATA
  {
    var id := size / MIN_DATA - 1;
    if id >= BIG then BIG else id
  }

  /** SLAB_SIZE */
  function Whole(size: nat): nat { size + HEADER }

  /** The heap: every chunk by the address of its header with its data size and its place, the
      pools as lists of headers, the bump region, and the memory given so far. */
  datatype Heap = Heap(size: map<nat, nat>, place: map<nat, nat>, pools: seq<seq<nat>>, bump: nat, free: nat,
                       given: seq<(nat, nat)>)

  predicate IsLive(s: Heap, h: int) { h in s.place && s.place[h] == LIVE }

  // ----- what every operation keeps -----

  predicate Apart(a: nat, n: nat, b: nat, m: nat) { a + n <= b || b + m <= a }

  /** No two chunks overlap, and none overlaps the bump region. */
  ghost predicate Disjoint(s: Heap) {
    && (forall g, h :: g in s.size && h in s.size && g != h ==> Apart(g, Whole(s.size[g]), h, Whole(s.size[h])))
    && (s.free > 0 ==> forall h :: h in s.size ==> Apart(s.bump, s.free, h, Whole(s.size[h])))
  }

  ghost predicate Within(given: seq<(nat, nat)>, a: nat, n: nat) {
    exists i :: 0 <= i < |given| && given[i].0 <= a && a + n <= given[i].0 + given[i].1
  }

  ghost predicate AllWithin(s: Heap) {
    && (forall h :: h in s.size ==> Within(s.given, h, Whole(s.size[h])))
    && (s.free > 0 ==> Within(s.given, s.bump, s.free))
  }

  /** Each chunk is handed out or on exactly one list, once. */
  ghost predicate Placed(s: Heap) {
    && |s.pools| == POOLS && s.place.Keys == s.size.Keys
    && (forall h :: h in s.place ==> s.place[h] <= LIVE)
    && (forall i :: 0 <= i < POOLS ==> NoDup(s.pools[i]))
    && forall i, h :: 0 <= i < POOLS ==> (h in s.pools[i] <==> h in s.place && s.place[h] == i)
  }

  /** A chunk in a size-class pool is at least as large as its class. */
  ghost predicate Sized(s: Heap)
    requires s.place.Keys == s.size.Keys
  {
    forall h :: h in s.size ==> s.size[h] >= MIN_DATA && (s.place[h] <= BIG ==> s.size[h] >= MIN_DATA * (s.place[h] + 1))
  }

  ghost predicate Ok(s: Heap) {
    forall n: int :: Unseal(n) ==> OkDef(s)
  }

  ghost predicate OkDef(s: Heap) { Placed(s) && Disjoint(s) && AllWithin(s) && Sized(s) }

  lemma OkFacts(s: Heap)
    requires Folded(Ok(s))
    ensures |s.pools| == POOLS && s.place.Keys == s.size.Keys
  {
    assert Unseal(0);
  }

  lemma PoolMember(s: Heap, i: nat, k: nat)
    requires Folded(Ok(s)) && i < POOLS && i < |s.pools| && k < |s.pools[i]|
    ensures s.pools[i][k] in s.size && s.pools[i][k] in s.place && s.place[s.pools[i][k]] == i
    ensures i <= BIG ==> s.size[s.pools[i][k]] >= MIN_DATA * (i + 1)
  {
    assert Unseal(0);
    assert s.pools[i][k] in s.pools[i];
  }

  // ----- the moves that the strategies are made of -----

  /** A chunk goes from the list at position k of pool i to the caller. */
  function Taken(s: Heap, i: nat, k: nat): Heap
    requires i < |s.pools| && k < |s.pools[i]|
  {
    s.(pools := s.pools[i := s.pools[i][..k] + s.pools[i][k + 1..]], place := s.place[s.pools[i][k] := LIVE])
  }

  lemma TakenPlaced(s: Heap, i: nat, k: nat)
    requires Placed(s) && Sized(s) && i < POOLS && k < |s.pools[i]|
    ensures Placed(Taken(s, i, k)) && Sized(Taken(s, i, k))
  {
    var s' := Taken(s, i, k);
    var l, e := s.pools[i], s.pools[i][k];
    assert e in s.place && s.place[e] == i;
    TakenOut(l, k, s'.pools[i]);
    assert s'.place.Keys == s.place.Keys;
  }

  lemma TakenOk(s: Heap, i: nat, k: nat)
    requires Folded(Ok(s)) && i < POOLS && i < |s.pools| && k < |s.pools[i]|
    ensures Folded(Ok(Taken(s, i, k))) && s.pools[i][k] in s.place && s.place[s.pools[i][k]] == i
  {
    assert Unseal(0);
    TakenPlaced(s, i, k);
    SameChunks(s, Taken(s, i, k));
    assert s.pools[i][k] in s.pools[i];
  }

  /** Disjointness and containment depend on the chunks and the bump region only. */
  lemma SameChunks(s: Heap, s': Heap)
    requires Disjoint(s) && AllWithin(s) && s'.size == s.size && s'.bump == s.bump && s'.free == s.free && s'.given == s.given
    ensures Disjoint(s') && AllWithin(s')
  {
  }

  /** A chunk that the caller had goes to position k of pool i. */
  function Inserted(s: Heap, h: nat, i: nat, k: nat): Heap
    requires i < |s.pools| && k <= |s.pools[i]|
  {
    s.(pools := s.pools[i := s.pools[i][..k] + [h] + s.pools[i][k..]], place := s.place[h := i])
  }

  /** A list with h put in at position k. */
  lemma PutIn(l: seq<nat>, h: nat, k: nat, t: seq<nat>)
    requires NoDup(l) && h !in l && k <= |l| && t == l[..k] + [h] + l[k..]
    ensures NoDup(t) && forall g :: g in t <==> g in l || g == h
  {
    assert l == l[..k] + l[k..];
    assert t[k] == h;
    forall i | 0 <= i < |l| ensures l[i] in t { assert t[if i < k then i else i + 1] == l[i]; }
  }

  lemma InsertedPlaced(s: Heap, h: nat, i: nat, k: nat)
    requires Placed(s) && Sized(s) && i < POOLS && k <= |s.pools[i]| && h in s.place && s.place[h] == LIVE
    requires i <= BIG ==> s.size[h] >= MIN_DATA * (i + 1)
    ensures Placed(Inserted(s, h, i, k)) && Sized(Inserted(s, h, i, k))
  {
    var s' := Inserted(s, h, i, k);
    assert s'.place.Keys == s.place.Keys;
    assert h !in s.pools[i];
    PutIn(s.pools[i], h, k, s'.pools[i]);
  }

  lemma InsertedOk(s: Heap, h: nat, i: nat, k: nat)
    requires Folded(Ok(s)) && i < POOLS && i < |s.pools| && k <= |s.pools[i]| && h in s.place && h in s.size && s.place[h] == LIVE
    requires i <= BIG ==> s.size[h] >= MIN_DATA * (i + 1)
    ensures Folded(Ok(Inserted(s, h, i, k)))
  {
    assert Unseal(0);
    InsertedPlaced(s, h, i, k);
    SameChunks(s, Inserted(s, h, i, k));
  }

  /** A new chunk, handed out, where no chunk was. */
  function Carved(s: Heap, h: nat, size: nat): Heap {
    s.(size := s.size[h := size], place := s.place[h := LIVE])
  }

  lemma CarvedDisjoint(s: Heap, h: nat, size: nat)
    requires Disjoint(s) && h !in s.size
    requires forall g :: g in s.size ==> Apart(g, Whole(s.size[g]), h, Whole(size))
    requires s.free > 0 ==> Apart(s.bump, s.free, h, Whole(size))
    ensures Disjoint(Carved(s, h, size))
  {
  }

  lemma CarvedWithin(s: Heap, h: nat, size: nat)
    requires AllWithin(s) && Within(s.given, h, Whole(size))
    ensures AllWithin(Carved(s, h, size))
  {
  }

  lemma CarvedPlaced(s: Heap, h: nat, size: nat)
    requires Placed(s) && Sized(s) && h !in s.size && size >= MIN_DATA
    ensures Placed(Carved(s, h, size)) && Sized(Carved(s, h, size))
  {
  }

  lemma CarvedOk(s: Heap, h: nat, size: nat)
    requires Folded(Ok(s)) && h !in s.size && size >= MIN_DATA && Within(s.given, h, Whole(size))
    requires forall g :: g in s.size ==> Apart(g, Whole(s.size[g]), h, Whole(size))
    requires s.free > 0 ==> Apart(s.bump, s.free, h, Whole(size))
    ensures Folded(Ok(Carved(s, h, size)))
  {
    assert Unseal(0);
    CarvedDisjoint(s, h, size);
    CarvedWithin(s, h, size);
    CarvedPlaced(s, h, size);
  }

  /** A chunk gives up its end. */
  function Shrunk(s: Heap, h: nat, size: nat): Heap {
    s.(size := s.size[h := size])
  }

  lemma ShrunkDisjoint(s: Heap, h: nat, size: nat)
    requires Disjoint(s) && h in s.size && size <= s.size[h]
    ensures Disjoint(Shrunk(s, h, size))
  {
  }

  lemma ShrunkWithin(s: Heap, h: nat, size: nat)
    requires AllWithin(s) && h in s.size && size <= s.size[h]
    ensures AllWithin(Shrunk(s, h, size))
  {
    var i :| 0 <= i < |s.given| && s.given[i].0 <= h && h + Whole(s.size[h]) <= s.given[i].0 + s.given[i].1;
    assert Within(s.given, h, Whole(size));
  }

  lemma ShrunkOk(s: Heap, h: nat, size: nat)
    requires Folded(Ok(s)) && h in s.size && h in s.place && s.place[h] == LIVE && MIN_DATA <= size <= s.size[h]
    ensures Folded(Ok(Shrunk(s, h, size)))
  {
    assert Unseal(0);
    ShrunkDisjoint(s, h, size);
    ShrunkWithin(s, h, size);
    assert Placed(Shrunk(s, h, size)) && Sized(Shrunk(s, h, size)) by { ShrunkPlaced(s, h, size); }
  }

  lemma ShrunkPlaced(s: Heap, h: nat, size: nat)
    requires Placed(s) && Sized(s) && h in s.size && s.place[h] == LIVE && size >= MIN_DATA
    ensures Placed(Shrunk(s, h, size)) && Sized(Shrunk(s, h, size))
  {
    assert Shrunk(s, h, size).size.Keys == s.size.Keys;
  }

  // ----- arithmetic of sizes -----

  lemma PoolIdFits(size: nat)
    requires size >= MIN_DATA
    ensures PoolId(size) <= BIG && size >= MIN_DATA * (PoolId(size) + 1)
    ensures size % MIN_DATA == 0 && size <= 512 ==> size == MIN_DATA * (PoolId(size) + 1) && PoolId(size) < BIG
    ensures size > 512 && size % MIN_DATA == 0 ==> PoolId(size) == BIG
  {
  }

  lemma AllocSizeFits(size: nat)
    ensures AllocSize(size) % MIN_DATA == 0 && size <= AllocSize(size) < size + MIN_DATA
    ensures size > 0 ==> AllocSize(size) >= MIN_DATA
    ensures size <= 528 <==> AllocSize(size) <= 528
  {
  }

  /** The data size that add_slab_mem gives a piece of memory, and the pool it goes to. */
  function PieceSize(size: nat): nat
    requires size >= MIN_SIZE
  {
    if size <= Whole(512) then (size - HEADER) / MIN_DATA * MIN_DATA else size - HEADER
  }

  function PiecePool(size: nat): (i: nat)
    requires size >= MIN_SIZE
    ensures i < POOLS
  {
    if size <= Whole(512) then PoolId(PieceSize(size)) else CACHE
  }

  lemma PieceFits(size: nat)
    requires size >= MIN_SIZE
    ensures MIN_DATA <= PieceSize(size) && Whole(PieceSize(size)) <= size
    ensures PiecePool(size) <= BIG ==> PieceSize(size) >= MIN_DATA * (PiecePool(size) + 1)
  {
    PoolIdFits(PieceSize(size));
  }

  lemma PiecePlace(size: nat, pools: seq<seq<nat>>, base: nat)
    requires size >= MIN_SIZE && |pools| == POOLS
    ensures PiecePool(size) == if size > Whole(512) then CACHE else size / MIN_DATA - 2
    ensures pools[PiecePool(size)][..0] + [base] + pools[PiecePool(size)][0..] == [base] + pools[PiecePool(size)]
  {
  }

  /** Memory [a, a + n) that belongs to the heap and to no chunk. */
  ghost predicate Spare(s: Heap, a: nat, n: nat) {
    && Within(s.given, a, n)
    && (forall h :: h in s.size ==> Apart(h, Whole(s.size[h]), a, n))
    && (s.free > 0 ==> Apart(s.bump, s.free, a, n))
  }

  lemma SparePart(s: Heap, a: nat, n: nat, b: nat, m: nat)
    requires Spare(s, a, n) && a <= b && b + m <= a + n
    ensures Spare(s, b, m)
  {
    var i :| 0 <= i < |s.given| && s.given[i].0 <= a && a + n <= s.given[i].0 + s.given[i].1;
    assert s.given[i].0 <= b && b + m <= s.given[i].0 + s.given[i].1;
  }

  lemma SpareIsNew(s: Heap, a: nat, n: nat)
    requires Spare(s, a, n) && n > 0
    ensures a !in s.size
  {
  }

  /** A spare piece becomes a chunk in pool i. */
  lemma ChunkAdded(s: Heap, a: nat, size: nat, i: nat, k: nat)
    requires Folded(Ok(s)) && Spare(s, a, Whole(size)) && size >= MIN_DATA && i < POOLS && i < |s.pools| && k <= |s.pools[i]|
    requires i <= BIG ==> size >= MIN_DATA * (i + 1)
    ensures Folded(Ok(Inserted(Carved(s, a, size), a, i, k)))
  {
    OkFacts(s);
    SpareIsNew(s, a, Whole(size));
    CarvedOk(s, a, size);
    InsertedOk(Carved(s, a, size), a, i, k);
  }

  /** What a chunk gives up when it shrinks is spare. */
  lemma TailIsSpare(s: Heap, h: nat, size: nat)
    requires Folded(Ok(s)) && h in s.size && size <= s.size[h]
    ensures Spare(Shrunk(s, h, size), h + Whole(size), s.size[h] - size)
  {
    assert Unseal(0);
    var i :| 0 <= i < |s.given| && s.given[i].0 <= h && h + Whole(s.size[h]) <= s.given[i].0 + s.given[i].1;
    assert s.given[i].0 <= h + Whole(size) && h + Whole(size) + (s.size[h] - size) <= s.given[i].0 + s.given[i].1;
  }

  /** The bump region without its first n bytes. */
  function Bumped(s: Heap, n: nat): Heap
    requires n <= s.free
  {
    s.(bump := s.bump + n, free := s.free - n)
  }

  /** What the bump region gives up is spare. */
  lemma BumpIsSpare(s: Heap, n: nat)
    requires Folded(Ok(s)) && 0 < n <= s.free
    ensures Folded(Ok(Bumped(s, n))) && Spare(Bumped(s, n), s.bump, n)
  {
    assert Unseal(0);
    WithinParts(s.given, s.bump, s.free, n);
    SameButBump(s, Bumped(s, n));
  }

  /** Both parts of a piece inside the given memory are inside it. */
  lemma WithinParts(given: seq<(nat, nat)>, a: nat, m: nat, n: nat)
    requires Within(given, a, m) && n <= m
    ensures Within(given, a, n) && Within(given, a + n, m - n)
  {
    var i :| 0 <= i < |given| && given[i].0 <= a && a + m <= given[i].0 + given[i].1;
    assert given[i].0 <= a && a + n <= given[i].0 + given[i].1;
    assert given[i].0 <= a + n && a + n + (m - n) <= given[i].0 + given[i].1;
  }

  lemma SameButBump(s: Heap, s': Heap)
    requires Placed(s) && Sized(s) && s' == s.(bump := s'.bump, free := s'.free)
    ensures Placed(s') && Sized(s')
  {
  }

  // ----- the bytes of the heap -----

  /** The bytes of all chunks, headers included. */
  ghost function Bytes(m: map<nat, nat>): nat {
    if m == map[] then 0 else var h :| h in m; Whole(m[h]) + Bytes(m - {h})
  }

  lemma {:induction false} BytesWithout(m: map<nat, nat>, h: nat)
    requires h in m
    ensures Bytes(m) == Whole(m[h]) + Bytes(m - {h})
  {
    var g :| g in m && Bytes(m) == Whole(m[g]) + Bytes(m - {g});
    if g != h {
      BytesWithout(m - {g}, h);
      BytesWithout(m - {h}, g);
      assert m - {g} - {h} == m - {h} - {g};
    }
  }

  lemma BytesSet(m: map<nat, nat>, h: nat, n: nat)
    ensures Bytes(m[h := n]) == Bytes(m) + Whole(n) - (if h in m then Whole(m[h]) else 0)
  {
    var m' := m[h := n];
    BytesWithout(m', h);
    assert m' - {h} == m - {h};
    if h in m { BytesWithout(m, h); } else { assert m - {h} == m; }
  }

  ghost function GivenBytes(given: seq<(nat, nat)>): nat {
    if given == [] then 0 else GivenBytes(given[..|given| - 1]) + given[|given| - 1].1
  }

  lemma GivenMore(given: seq<(nat, nat)>, base: nat, size: nat)
    ensures GivenBytes(given + [(base, size)]) == GivenBytes(given) + size
  {
    assert (given + [(base, size)])[..|given|] == given;
  }

  /** The bytes that were given to the heap and are neither in a chunk nor in the bump region. */
  ghost function Lost(s: Heap): int { GivenBytes(s.given) - Bytes(s.size) - s.free }

  /** How much of a piece of memory becomes a chunk, with its header. */
  function PieceKept(size: nat): nat { if size < MIN_SIZE then 0 else Whole(PieceSize(size)) }

  /** How much of what is left of a split chunk becomes a chunk. */
  function RestKept(gap: nat): nat { if Low32(gap) <= Whole(80) then PieceKept(Low32(gap)) else Low32(gap) }

  /** Less than a minimal chunk is dropped of a piece, and of a rest if and only if the rest fits a
      32-bit number. */
  lemma LittleDropped(size: nat)
    ensures size - MIN_SIZE < PieceKept(size) <= size && RestKept(size) <= size
    ensures size - RestKept(size) < MIN_SIZE <==> size < TWO32
  {
  }

  // ----- the heap as an object -----

  /** What the caller holds stays as it was. */
  ghost predicate LiveKept(s: Heap, s': Heap) {
    forall g :: g in s.place && s.place[g] == LIVE && g in s.size ==>
      g in s'.place && s'.place[g] == LIVE && g in s'.size && s'.size[g] == s.size[g]
  }

  /** Chunk h has been handed out, and it was not before. */
  ghost predicate Granted(s: Heap, s': Heap, h: nat) {
    LiveKept(s, s') && h in s'.place && h in s'.size && s'.place[h] == LIVE && (h in s.place ==> s.place[h] != LIVE)
  }

  /** Every chunk there was is still there, with its size. */
  ghost predicate SizesKept(s: Heap, s': Heap) { forall g :: g in s.size ==> g in s'.size && s'.size[g] == s.size[g] }

  const MAX_BLOCKS: nat := 10   // CONFIG_MAX_SLAB_BLOCKS

  // ----- what the strategies need -----

  /** A pool has what was asked for: its size class, or for a big size an exact fit. */
  ghost predicate PoolServes(s: Heap, size: nat)
    requires |s.pools| == POOLS && size >= MIN_DATA
  {
    if PoolId(size) < BIG then s.pools[PoolId(size)] != [] else ExactFit(s, size)
  }

  ghost predicate ExactFit(s: Heap, size: nat)
    requires |s.pools| == POOLS
  {
    exists k :: 0 <= k < |s.pools[BIG]| && SizeIs(s, s.pools[BIG][k], size)
  }

  ghost predicate SizeIs(s: Heap, h: nat, size: nat) { h in s.size && s.size[h] == size }

  /** The first chunk of the cache, from position k on, that is large enough; the list's length if none is. */
  ghost function CacheFit(s: Heap, size: nat, k: nat): (i: nat)
    requires |s.pools| == POOLS && k <= |s.pools[CACHE]|
    ensures k <= i <= |s.pools[CACHE]|
    ensures i < |s.pools[CACHE]| ==> s.pools[CACHE][i] in s.size && s.size[s.pools[CACHE][i]] >= size
    ensures forall j :: k <= j < i ==> !(s.pools[CACHE][j] in s.size && s.size[s.pools[CACHE][j]] >= size)
    decreases |s.pools[CACHE]| - k
  {
    if k == |s.pools[CACHE]| then k
    else if s.pools[CACHE][k] in s.size && s.size[s.pools[CACHE][k]] >= size then k
    else CacheFit(s, size, k + 1)
  }

  /** What malloc promises of its result: whether there is one (for big sizes), its size, and that
      without a pool to serve it the request takes the first fit of the cache. */
  ghost predicate Outcome(s: Heap, blocks: nat, sections: seq<nat>, size: nat, ok: bool, h: int, s': Heap)
    requires |s.pools| == POOLS && size >= MIN_DATA
  {
    && (Served(s, blocks, sections, size) ==> ok)
    && (ok ==> h in s'.size && (s'.size[h] >= size <==> Served(s, blocks, sections, size) || size <= 528 || BigHeadFits(s, size)))
    && (size > 528 ==> (ok <==> Served(s, blocks, sections, size) || s.pools[BIG] != []))
    && (!PoolServes(s, size) && CacheFit(s, size, 0) < |s.pools[CACHE]| ==> h >= 0 && FromCacheAt(s, s', size, CacheFit(s, size, 0), h))
    && (ok && size > 528 && !Served(s, blocks, sections, size) ==> h == s.pools[BIG][0] && SizesKept(s, s'))
    && (size <= 512 && s.pools[PoolId(size)] != [] ==> h == s.pools[PoolId(size)][0] && s' == Taken(s, PoolId(size), 0))
    && (size > 512 && s.pools[BIG] != [] && SizeIs(s, s.pools[BIG][0], size) ==> h == s.pools[BIG][0] && s' == Taken(s, BIG, 0))
    && Lost(s') == Lost(s) + Slack(s, size)
  }

  /** The chunk at position k of the cache was handed out, and an exact fit as it was. */
  ghost predicate FromCacheAt(s: Heap, s': Heap, size: nat, k: nat, h: nat)
    requires |s.pools| == POOLS && k < |s.pools[CACHE]|
  {
    && h == s.pools[CACHE][k] && (SizeIs(s, h, size) ==> s' == Taken(s, CACHE, k))
    && h in s.size && s.size[h] >= size && SizeIs(s', h, size) && RestAt(s, s', k, h + Whole(size), Low32(s.size[h] - size))
  }

  /** What is left of the chunk at position k of the cache: a large rest takes its position, a small one
      is the first of its pool, and less than a minimal chunk is dropped. */
  ghost predicate RestAt(s: Heap, s': Heap, k: nat, base: nat, left: nat)
    requires |s.pools| == POOLS && k < |s.pools[CACHE]|
  {
    var cut := s.pools[CACHE := s.pools[CACHE][..k] + s.pools[CACHE][k + 1..]];
    var put: seq<nat> := s.pools[CACHE][k := base];
    if left > Whole(80) then SizeIs(s', base, left - HEADER) && s'.pools == s.pools[CACHE := put]
    else if left >= MIN_SIZE then
      var n := left / MIN_DATA * MIN_DATA - HEADER;
      SizeIs(s', base, n) && s'.pools == cut[n / MIN_DATA - 1 := [base] + cut[n / MIN_DATA - 1]]
    else s'.pools == cut
  }

  /** What malloc drops: of a split chunk, what does not become a chunk again. */
  ghost function Slack(s: Heap, size: nat): nat
    requires |s.pools| == POOLS && size >= MIN_DATA
  {
    var k := CacheFit(s, size, 0);
    if PoolServes(s, size) || k == |s.pools[CACHE]| then 0 else CutSlack(s, s.pools[CACHE][k], size)
  }

  ghost function CutSlack(s: Heap, h: nat, size: nat): nat {
    if h in s.size && s.size[h] >= size then LittleDropped(s.size[h] - size); s.size[h] - size - RestKept(s.size[h] - size) else 0
  }

  ghost predicate BlockServes(blocks: nat, sections: seq<nat>, size: nat) {
    blocks <= MAX_BLOCKS && sections != [] && Whole(size) <= BLOCK_SIZE
  }

  /** One of the strategies before get_big_slab can serve the request. */
  ghost predicate Served(s: Heap, blocks: nat, sections: seq<nat>, size: nat)
    requires |s.pools| == POOLS && size >= MIN_DATA
  {
    || PoolServes(s, size) || CacheFit(s, size, 0) < |s.pools[CACHE]|
    || s.free >= Whole(size) || BlockServes(blocks, sections, size)
  }

  /** The first chunk of the pool of big chunks is at least this large. */
  ghost predicate BigHeadFits(s: Heap, size: nat)
    requires |s.pools| == POOLS
  {
    s.pools[BIG] != [] && s.pools[BIG][0] in s.size && s.size[s.pools[BIG][0]] >= size
  }

  lemma MemoryServed(s: Heap, blocks: nat, sections: seq<nat>, size: nat, h: nat, s': Heap)
    requires |s.pools| == POOLS && size >= MIN_DATA && size % MIN_DATA == 0 && !PoolServes(s, size) && CacheFit(s, size, 0) == |s.pools[CACHE]|
    requires (s.free >= Whole(size) || BlockServes(blocks, sections, size)) && h in s'.size && s'.size[h] >= size && Lost(s') == Lost(s)
    ensures Outcome(s, blocks, sections, size, true, h, s')
  {
    PoolIdFits(size);
  }

  lemma LastResort(s: Heap, blocks: nat, sections: seq<nat>, size: nat, s1: Heap, ok: bool, h: nat, s': Heap)
    requires |s.pools| == POOLS && size >= MIN_DATA && size % MIN_DATA == 0 && !Served(s, blocks, sections, size)
    requires |s1.pools| == POOLS && s1.pools[BIG] == s.pools[BIG] && SizesKept(s, s1) && Lost(s1) == Lost(s)
    requires forall k :: 0 <= k < |s.pools[BIG]| ==> s.pools[BIG][k] in s.size
    requires PoolId(size) <= BIG && (ok <==> BigChoice(s1.pools, PoolId(size)) < CACHE)
    requires if ok then h == s1.pools[BigChoice(s1.pools, PoolId(size))][0] && s' == Taken(s1, BigChoice(s1.pools, PoolId(size)), 0) else s' == s1
    requires ok ==> h in s'.size && (s'.size[h] >= size <==> size <= 528 || BigHeadFits(s1, size))
    ensures Outcome(s, blocks, sections, size, ok, h, s')
  {
    PoolIdFits(size);
    OnlyBig(s1.pools);
  }

  /** No memory was taken from the section allocator, or its next block. */
  ghost predicate Grown(given: seq<(nat, nat)>, sections: seq<nat>, given': seq<(nat, nat)>, sections': seq<nat>) {
    || (given' == given && sections' == sections)
    || (sections != [] && given' == given + [(sections[0], BLOCK_SIZE)] && sections' == sections[1..])
  }

  class SlabHeap {
    var s: Heap
    var blocks: nat          // alloc_blocks
    var sections: seq<nat>   // memory blocks that alloc_mem_block can still give

    ghost predicate Valid()
      reads this
    {
      && Folded(Ok(s)) && |s.pools| == POOLS && s.place.Keys == s.size.Keys
      && (s.free == 0 || s.free >= Whole(MIN_DATA))
      && (forall i, j :: 0 <= i < |sections| && 0 <= j < |s.given| ==> Apart(sections[i], BLOCK_SIZE, s.given[j].0, s.given[j].1))
      && (forall i, j :: 0 <= i < j < |sections| ==> Apart(sections[i], BLOCK_SIZE, sections[j], BLOCK_SIZE))
    }

    constructor (mem: seq<nat>)
      requires forall i, j :: 0 <= i < j < |mem| ==> Apart(mem[i], BLOCK_SIZE, mem[j], BLOCK_SIZE)
      ensures Valid() && s == Heap(map[], map[], seq(POOLS, _ => []), 0, 0, []) && blocks == 0 && sections == mem
    {
      s := Heap(map[], map[], seq(POOLS, _ => []), 0, 0, []);
      blocks, sections := 0, mem;
    }

    /** add_slab_mem on memory that the heap already counts as its own. */
    method AddPiece(base: nat, size: nat)
      requires Valid() && Spare(s, base, size)
      modifies this`s
      ensures Valid() && s == if size < MIN_SIZE then old(s)
                              else Inserted(Carved(old(s), base, PieceSize(size)), base, PiecePool(size), 0)
      ensures Folded(LiveKept(old(s), s)) && s.given == old(s.given) && Lost(s) == Lost(old(s)) - PieceKept(size)
    {
      OkFacts(s);
      if size < MIN_SIZE { return; }
      PieceFits(size);
      SparePart(s, base, size, base, Whole(PieceSize(size)));
      SpareIsNew(s, base, size);
      BytesSet(s.size, base, PieceSize(size));
      ChunkAdded(s, base, PieceSize(size), PiecePool(size), 0);
      AddedKeeps(s, base, PieceSize(size), PiecePool(size), 0);
      s := Inserted(Carved(s, base, PieceSize(size)), base, PiecePool(size), 0);
    }

    /** add_slab_mem on fresh memory. */
    method AddSlabMem(base: nat, size: nat)
      requires Valid() && (forall j :: 0 <= j < |s.given| ==> Apart(base, size, s.given[j].0, s.given[j].1))
      requires forall i :: 0 <= i < |sections| ==> Apart(sections[i], BLOCK_SIZE, base, size)
      modifies this`s
      ensures Valid() && s.given == old(s.given) + [(base, size)] && LiveKept(old(s), s)
      ensures Lost(s) == Lost(old(s)) + size - PieceKept(size)
      ensures size < MIN_SIZE ==> s.pools == old(s).pools && s.size == old(s).size
      ensures size >= MIN_SIZE ==>
        var id := if size > Whole(512) then CACHE else size / MIN_DATA - 2;
        0 <= id < POOLS && s.pools == old(s).pools[id := [base] + old(s).pools[id]]
      ensures var s0 := old(s).(given := old(s.given) + [(base, size)]);
              s == if size < MIN_SIZE then s0 else Inserted(Carved(s0, base, PieceSize(size)), base, PiecePool(size), 0)
    {
      FreshIsSpare(s, base, size);
      GivenMore(s.given, base, size);
      s := s.(given := s.given + [(base, size)]);
      AddPiece(base, size);
      if size >= MIN_SIZE { PiecePlace(size, old(s).pools, base); }
    }

    /** get_slab_from_pool */
    method FromPool(size: nat) returns (ok: bool, h: nat)
      requires Valid() && size >= MIN_DATA && size % MIN_DATA == 0
      modifies this`s
      ensures Valid() && (if ok then Granted(old(s), s, h) && s.size[h] >= size else s == old(s))
      ensures ok <==> PoolId(size) < BIG && PoolServes(old(s), size)
      ensures ok ==> h == old(s).pools[PoolId(size)][0] && s == Taken(old(s), PoolId(size), 0)
    {
      OkFacts(s);
      var id := PoolId(size);
      PoolIdFits(size);
      if id >= BIG || s.pools[id] == [] { return false, 0; }
      h := s.pools[id][0];
      TakenOk(s, id, 0);
      PoolMember(s, id, 0);
      s := Taken(s, id, 0);
      ok := true;
    }

    /** get_slab_from_big_pool: only an exact fit. */
    method FromBigPool(size: nat) returns (ok: bool, h: nat)
      requires Valid() && size >= MIN_DATA && size % MIN_DATA == 0
      modifies this`s
      ensures Valid() && (if ok then Granted(old(s), s, h) && s.size[h] == size else s == old(s))
      ensures ok <==> PoolId(size) == BIG && PoolServes(old(s), size)
      ensures ok ==> exists k ::
        && 0 <= k < |old(s).pools[BIG]| && h == old(s).pools[BIG][k] && s == Taken(old(s), BIG, k)
        && forall j :: 0 <= j < k ==> !SizeIs(old(s), old(s).pools[BIG][j], size)
    {
      OkFacts(s);
      if PoolId(size) < BIG { return false, 0; }
      h := 0;
      var k := 0;
      while k < |s.pools[BIG]|
        invariant s == old(s) && 0 <= k <= |s.pools[BIG]|
        invariant forall j :: 0 <= j < k ==> !SizeIs(s, s.pools[BIG][j], size)
      {
        h := s.pools[BIG][k];
        PoolMember(s, BIG, k);
        if s.size[h] == size {
          TakenOk(s, BIG, k);
          s := Taken(s, BIG, k);
          return true, h;
        }
        k := k + 1;
      }
      ok := false;
    }

    /** get_slab_from_cache: the first chunk that is large enough is split; what is left stays in
        the cache, or goes to a pool when it is small. */
    method FromCache(size: nat) returns (ok: bool, h: nat)
      requires Valid() && size >= MIN_DATA && size % MIN_DATA == 0
      modifies this`s
      ensures Valid() && (if ok then Granted(old(s), s, h) && s.size[h] == size else s == old(s))
      ensures |old(s).pools| == POOLS
      ensures var k := CacheFit(old(s), size, 0);
              (ok <==> k < |old(s).pools[CACHE]|) && (ok ==> FromCacheAt(old(s), s, size, k, h))
      ensures ok ==> s.given == old(s).given && Lost(s) == Lost(old(s)) + CutSlack(old(s), h, size)
    {
      OkFacts(s);
      h := 0;
      var k := 0;
      while k < |s.pools[CACHE]|
        invariant s == old(s) && 0 <= k <= |s.pools[CACHE]|
        invariant CacheFit(s, size, 0) == CacheFit(s, size, k)
      {
        h := s.pools[CACHE][k];
        PoolMember(s, CACHE, k);
        if s.size[h] >= size {
          Split(size, k, h);
          return true, h;
        }
        k := k + 1;
      }
      ok := false;
    }

    /** The split of get_slab_from_cache; the left size is a 32-bit number. */
    method Split(size: nat, k: nat, h: nat)
      requires Valid() && size >= MIN_DATA && size % MIN_DATA == 0 && CACHE < |s.pools| && k < |s.pools[CACHE]|
      requires h == s.pools[CACHE][k] && h in s.size && s.size[h] >= size
      modifies this`s
      ensures Valid() && Folded(Granted(old(s), s, h)) && s.size[h] == size
      ensures Folded(FromCacheAt(old(s), s, size, k, h)) && s.given == old(s).given && Lost(s) == Lost(old(s)) + CutSlack(old(s), h, size)
    {
      var base, left := h + Whole(size), Low32(s.size[h] - size);
      ghost var s0 := s;
      ghost var s1 := SplitOff(s, size, k, h, left);
      CutLost(s0, s1, size, k, h);
      s := Shrunk(Taken(s, CACHE, k), h, size);
      KeepRest(base, left, k, s0, s1, h);
      RestPlaced(s0, s1, s, size, k, h, left);
    }

    /** What is left of a split chunk: a new cache entry, or a piece for a pool. */
    method KeepRest(base: nat, left: nat, k: nat, ghost s0: Heap, ghost s1: Heap, ghost h: nat)
      requires Valid() && s == s1 && Folded(Spare(s, base, left)) && CACHE < |s.pools| && k <= |s.pools[CACHE]|
      requires Folded(Granted(s0, s, h))
      modifies this`s
      ensures Valid() && Folded(Granted(s0, s, h)) && s.size[h] == s1.size[h] && s.given == s1.given
      ensures |s1.pools| == POOLS && s == WithRest(s1, base, left, k)
      ensures Lost(s) == Lost(s1) - (if left <= Whole(80) then PieceKept(left) else left)
    {
      if left <= Whole(80) {
        AddPiece(base, left);
      } else {
        ghost var s2 := RestCached(s, base, left, k);
        RestIsNew(s, base, left);
        s := Inserted(Carved(s, base, left - HEADER), base, CACHE, k);
      }
      GrantedKept(s0, s1, s, h);
    }

    /** get_slab_from_slab_free: the next bytes of the bump region, with its end if little is left. */
    method FromSlabFree(size: nat) returns (ok: bool, h: nat)
      requires Valid() && size >= MIN_DATA && size % MIN_DATA == 0
      modifies this`s
      ensures Valid() && (if ok then Granted(old(s), s, h) && s.size[h] >= size else s == old(s))
      ensures ok <==> old(s).free >= Whole(size)
      ensures ok ==> h == old(s).bump && s.pools == old(s).pools && s.given == old(s).given && Lost(s) == Lost(old(s))
      ensures ok ==> var rest := old(s).free - Whole(size);
        if rest < MIN_SIZE then s.free == 0 && s.size == old(s).size[h := size + rest]
        else s.free == rest && s.bump == h + Whole(size) && s.size == old(s).size[h := size]
    {
      if s.free < Whole(size) { return false, 0; }
      h := s.bump;
      var n := if s.free - Whole(size) < Whole(MIN_DATA) then s.free - HEADER else size;
      ghost var s1 := BumpCarved(s, n);
      s := Carved(Bumped(s, Whole(n)), h, n);
      if s.free == 0 { s := s.(bump := 0); }
      ok := true;
    }

    /** get_new_slab: the rest of the bump region goes to a pool, and a new block takes its place. */
    method FromNewSlab(size: nat) returns (ok: bool, h: nat)
      requires Valid() && size >= MIN_DATA && size % MIN_DATA == 0
      modifies this`s, this`blocks, this`sections
      ensures Valid() && (if ok then Granted(old(s), s, h) && s.size[h] >= size else LiveKept(old(s), s))
      ensures ok <==> BlockServes(old(blocks), old(sections), size)
      ensures Grown(old(s).given, old(sections), s.given, sections)
      ensures !ok ==> |old(s).pools| == POOLS && s.pools[BIG] == old(s).pools[BIG] && SizesKept(old(s), s)
      ensures Lost(s) == Lost(old(s))
    {
      OkFacts(s);
      if blocks > MAX_BLOCKS { return false, 0; }
      if s.free >= Whole(MIN_DATA) { Retire(); }
      if sections == [] { return false, 0; }
      NewBlock();
      ok, h := FromSlabFree(size);
    }

    /** The rest of the bump region becomes a free chunk. */
    method Retire()
      requires Valid() && s.free >= Whole(MIN_DATA)
      modifies this`s
      ensures Valid() && LiveKept(old(s), s) && s.free == 0
      ensures |old(s).pools| == POOLS && s.pools[BIG] == old(s).pools[BIG] && SizesKept(old(s), s)
      ensures s.given == old(s).given && Lost(s) == Lost(old(s)) && SizeIs(s, old(s).bump, old(s).free - HEADER)
      ensures var id := if old(s).free > Whole(527) then CACHE else old(s).free / MIN_DATA - 2;
              0 <= id < POOLS && s.pools == old(s).pools[id := [old(s).bump] + old(s).pools[id]]
    {
      OkFacts(s);
      var size, base := s.free - HEADER, s.bump;
      RestPool(size);
      var id := if PoolId(size) >= BIG then CACHE else PoolId(size);
      ghost var s2 := BumpListed(s, id);
      s := Inserted(Carved(Bumped(s, s.free), base, size).(bump := 0), base, id, 0);
      assert s == s2;
    }

    /** alloc_new_slab_block */
    method NewBlock()
      requires Valid() && sections != [] && s.free == 0
      modifies this`s, this`blocks, this`sections
      ensures Valid() && LiveKept(old(s), s) && s.free == BLOCK_SIZE && s.place == old(s.place)
      ensures s.bump == old(sections)[0] && s.given == old(s.given) + [(s.bump, BLOCK_SIZE)] && Lost(s) == Lost(old(s))
      ensures s.pools == old(s.pools) && s.size == old(s.size) && sections == old(sections)[1..]
    {
      var base := sections[0];
      BlockIsSpare(s, base);
      GivenMore(s.given, base, BLOCK_SIZE);
      s := s.(given := s.given + [(base, BLOCK_SIZE)], bump := base, free := BLOCK_SIZE);
      blocks, sections := blocks + 1, sections[1..];
    }

    /** get_big_slab: the first chunk of the first pool that is not empty, with no look at its size. */
    method FromBigSlab(size: nat) returns (ok: bool, h: nat)
      requires Valid() && size >= MIN_DATA && size % MIN_DATA == 0
      modifies this`s
      ensures Valid() && (if ok then Granted(old(s), s, h) else s == old(s))
      ensures ok <==> BigChoice(old(s).pools, PoolId(size)) < CACHE
      ensures ok ==> h == old(s).pools[BigChoice(old(s).pools, PoolId(size))][0]
      ensures ok ==> s == Taken(old(s), BigChoice(old(s).pools, PoolId(size)), 0) && (s.size[h] >= size <==> size <= 528 || BigHeadFits(old(s), size))
    {
      OkFacts(s);
      var id := PoolId(size);
      while s.pools[id] == []
        invariant PoolId(size) <= id < CACHE && s == old(s)
        invariant BigChoice(s.pools, PoolId(size)) == BigChoice(s.pools, id)
        decreases CACHE - id
      {
        id := id + 1;
        if id == CACHE { return false, 0; }
      }
      h := s.pools[id][0];
      TakenOk(s, id, 0);
      PoolIdFits(size);
      PoolMember(s, id, 0);
      s := Taken(s, id, 0);
      ok := true;
    }

    /** malloc: a chunk that overlaps no other.  It is at least as large as asked for if and only if
        one of the first five strategies can serve the request, or the rounded size is at most 528,
        or the first chunk of the pool of big chunks happens to be large enough. */
    method Malloc(n: nat) returns (ok: bool, addr: nat)
      requires Valid()
      modifies this
      ensures Valid() && LiveKept(old(s), s)
      ensures ok ==> addr >= HEADER && Granted(old(s), s, addr - HEADER)
      ensures n == 0 ==> !ok && s == old(s)
      ensures Grown(old(s).given, old(sections), s.given, sections)
      ensures n > 0 ==> AllocSize(n) >= MIN_DATA && |old(s).pools| == POOLS && Outcome(old(s), old(blocks), old(sections), AllocSize(n), ok, addr - HEADER, s)
      ensures ok && n <= 528 ==> s.size[addr - HEADER] >= AllocSize(n) >= n
    {
      addr := HEADER;
      if n == 0 { return false, addr; }
      AllocSizeFits(n);
      var size, h := AllocSize(n), 0;
      ok, h := FromStrategies(size);
      addr := h + HEADER;
    }

    /** The strategies of alloc_func, in order. */
    method FromStrategies(size: nat) returns (ok: bool, h: nat)
      requires Valid() && size >= MIN_DATA && size % MIN_DATA == 0
      modifies this
      ensures Valid() && LiveKept(old(s), s) && (ok ==> Granted(old(s), s, h))
      ensures Grown(old(s).given, old(sections), s.given, sections)
      ensures |old(s).pools| == POOLS && Outcome(old(s), old(blocks), old(sections), size, ok, h, s)
    {
      PoolIdFits(size);
      OkFacts(s);
      ok, h := FromLists(size);
      if ok { return; }
      forall k | 0 <= k < |s.pools[BIG]| ensures s.pools[BIG][k] in s.size { PoolMember(s, BIG, k); }
      ok, h := FromMemory(size);
      if ok {
        MemoryServed(old(s), old(blocks), old(sections), size, h, s);
        return;
      }
      ghost var s1 := s;
      ok, h := FromBigSlab(size);
      LastResort(old(s), old(blocks), old(sections), size, s1, ok, h, s);
    }

    /** The next two, when no list serves the request. */
    method FromMemory(size: nat) returns (ok: bool, h: nat)
      requires Valid() && size >= MIN_DATA && size % MIN_DATA == 0
      modifies this
      ensures Valid() && (if ok then Granted(old(s), s, h) && s.size[h] >= size else LiveKept(old(s), s))
      ensures ok <==> old(s).free >= Whole(size) || BlockServes(old(blocks), old(sections), size)
      ensures Grown(old(s).given, old(sections), s.given, sections)
      ensures !ok ==> |old(s).pools| == POOLS && s.pools[BIG] == old(s).pools[BIG] && SizesKept(old(s), s)
      ensures Lost(s) == Lost(old(s))
    {
      ok, h := FromSlabFree(size);
      if ok { return; }
      ok, h := FromNewSlab(size);
    }

    /** The first three of them, which leave the bump region alone. */
    method FromLists(size: nat) returns (ok: bool, h: nat)
      requires Valid() && size >= MIN_DATA && size % MIN_DATA == 0
      modifies this`s
      ensures Valid() && |old(s).pools| == POOLS && (if ok then Granted(old(s), s, h) else s == old(s))
      ensures ok <==> PoolServes(old(s), size) || CacheFit(old(s), size, 0) < |old(s).pools[CACHE]|
      ensures s.given == old(s).given && (ok ==> Outcome(old(s), blocks, sections, size, ok, h, s))
    {
      PoolIdFits(size);
      OkFacts(s);
      ok, h := FromPool(size);
      if ok { return; }
      ok, h := FromBigPool(size);
      if ok { return; }
      ok, h := FromCache(size);
    }

    /** The slab branch of free.  word is what lies where the header of addr would have its magic
        number; a listed chunk has the link of its list there, so only a live one has the number. */
    method Free(addr: nat, word: nat)
      requires Valid() && (word == SLAB_MAGIC <==> IsLive(s, addr - HEADER))
      modifies this`s
      ensures Valid()
      ensures var h := addr - HEADER;
              if IsLive(old(s), h)
              then |old(s).pools| == POOLS && h in old(s).size && old(s).size[h] >= MIN_DATA
                   && s == Inserted(old(s), h, PoolId(old(s).size[h]), 0)
              else s == old(s)
      ensures s.size == old(s).size && Lost(s) == Lost(old(s))
      ensures IsLive(old(s), addr - HEADER) && addr - HEADER in s.size ==>
        var h, size := addr - HEADER, s.size[addr - HEADER];
        var id := if size >= 528 then BIG else size / MIN_DATA - 1;
        0 <= id <= BIG && s.place == old(s).place[h := id] && s.pools[id] == [h] + old(s).pools[id]
    {
      var h := addr - HEADER;
      if word != SLAB_MAGIC { return; }
      OkFacts(s);
      LiveSize(s, h);
      PoolIdFits(s.size[h]);
      InsertedOk(s, h, PoolId(s.size[h]), 0);
      s := Inserted(s, h, PoolId(s.size[h]), 0);
    }
  }

  // ----- runs -----

  datatype Op = DoMalloc(n: nat) | DoFree(addr: nat) | DoAdd(base: nat, size: nat)

  /** Memory that neither the heap nor the section allocator has. */
  predicate Fresh(given: seq<(nat, nat)>, sections: seq<nat>, base: nat, size: nat) {
    && (forall j :: 0 <= j < |given| ==> Apart(base, size, given[j].0, given[j].1))
    && forall i :: 0 <= i < |sections| ==> Apart(sections[i], BLOCK_SIZE, base, size)
  }

  /** No single piece of memory is as large as 4 GiB. */
  ghost predicate Small(given: seq<(nat, nat)>) { forall i :: 0 <= i < |given| ==> given[i].1 < TWO32 }

  ghost predicate AddsSmall(ops: seq<Op>) { forall i :: 0 <= i < |ops| && ops[i].DoAdd? ==> ops[i].size < TWO32 }

  /** Then malloc drops less than a minimal chunk. */
  lemma SlackIsLittle(s: Heap, size: nat)
    requires Folded(Ok(s)) && |s.pools| == POOLS && size >= MIN_DATA && Small(s.given)
    ensures Slack(s, size) < MIN_SIZE
  {
    var k := CacheFit(s, size, 0);
    if k < |s.pools[CACHE]| {
      var h := s.pools[CACHE][k];
      if h in s.size && s.size[h] >= size {
        ChunkIsSmall(s, h);
        LittleDropped(s.size[h] - size);
      }
    }
  }

  lemma ChunkIsSmall(s: Heap, h: nat)
    requires Folded(Ok(s)) && h in s.size && Small(s.given)
    ensures s.size[h] < TWO32
  {
    assert Unseal(0);
    var i :| 0 <= i < |s.given| && s.given[i].0 <= h && h + Whole(s.size[h]) <= s.given[i].0 + s.given[i].1;
  }

  /** One operation, with the bytes it lost. */
  method RunOp(h: SlabHeap, op: Op) returns (ok: bool)
    requires h.Valid()
    modifies h
    ensures h.Valid() && (!ok ==> op.DoAdd? && !Fresh(h.s.given, h.sections, op.base, op.size) && h.s == old(h.s))
    ensures 0 <= Lost(h.s) - Lost(old(h.s))
    ensures Small(old(h.s).given) && AddsSmall([op]) ==> Small(h.s.given) && Lost(h.s) - Lost(old(h.s)) < MIN_SIZE
  {
    ok := true;
    match op {
      case DoMalloc(n) =>
        if n > 0 && Small(h.s.given) {
          AllocSizeFits(n);
          SlackIsLittle(h.s, AllocSize(n));
        }
        var got, addr := h.Malloc(n);
      case DoFree(addr) => h.Free(addr, if IsLive(h.s, addr - HEADER) then SLAB_MAGIC else 0);
      case DoAdd(base, size) =>
        if !Fresh(h.s.given, h.sections, base, size) { return false; }
        LittleDropped(size);
        assert AddsSmall([op]) ==> [op][0].size < TWO32;
        h.AddSlabMem(base, size);
    }
  }

  /** Over any run of malloc, free and add_slab_mem on fresh memory, the chunks and the bump region
      stay disjoint and inside the memory given, each chunk has one place, and of what was given each
      operation loses less than a minimal chunk (unless a single piece has 4 GiB or more). */
  method RunHeap(h: SlabHeap, ops: seq<Op>) returns (done: nat)
    requires h.Valid()
    modifies h
    ensures h.Valid() && done <= |ops|
    ensures Placed(h.s) && Disjoint(h.s) && AllWithin(h.s) && Sized(h.s)
    ensures Lost(h.s) >= Lost(old(h.s))
    ensures Small(old(h.s).given) && AddsSmall(ops) ==> Lost(h.s) - Lost(old(h.s)) <= (MIN_SIZE - 1) * done
    ensures done < |ops| ==> ops[done].DoAdd? && !Fresh(h.s.given, h.sections, ops[done].base, ops[done].size)
  {
    done := 0;
    while done < |ops|
      invariant h.Valid() && done <= |ops| && Lost(h.s) >= Lost(old(h.s))
      invariant Small(old(h.s).given) && AddsSmall(ops) ==>
        Small(h.s.given) && Lost(h.s) - Lost(old(h.s)) <= (MIN_SIZE - 1) * done
    {
      assert AddsSmall(ops) ==> AddsSmall([ops[done]]);
      var ok := RunOp(h, ops[done]);
      if !ok { break; }
      done := done + 1;
    }
    assert Unseal(0);
  }

  /** A chunk of this size serves requests of that size from its pool. */
  predicate Refits(chunk: nat, size: nat) {
    chunk >= MIN_DATA && size >= MIN_DATA && if size <= 512 then PoolId(chunk) == PoolId(size) else chunk == size
  }

  /** A chunk that is freed is the next one that malloc gives out for its size class (from 512 bytes
      on, for its very size), and then the heap is as before. */
  method FreeThenMalloc(heap: SlabHeap, addr: nat, n: nat) returns (ok: bool, addr': nat)
    requires heap.Valid() && addr >= HEADER && IsLive(heap.s, addr - HEADER) && addr - HEADER in heap.s.size
    requires n > 0 && Refits(heap.s.size[addr - HEADER], AllocSize(n))
    modifies heap
    ensures heap.Valid() && ok && addr' == addr && heap.s == old(heap.s)
  {
    ghost var s, h := heap.s, addr - HEADER;
    heap.Free(addr, SLAB_MAGIC);
    ghost var s1, blocks, sections := heap.s, heap.blocks, heap.sections;
    ok, addr' := heap.Malloc(n);
    GivenBack(s, h, AllocSize(n), s1, blocks, sections, ok, addr' - HEADER, heap.s);
  }

  lemma GivenBack(s: Heap, h: nat, size: nat, s1: Heap, blocks: nat, sections: seq<nat>, ok: bool, h': int, s': Heap)
    requires |s.pools| == POOLS && IsLive(s, h) && h in s.size && Refits(s.size[h], size) && size % MIN_DATA == 0
    requires s1 == Inserted(s, h, PoolId(s.size[h]), 0) && Outcome(s1, blocks, sections, size, ok, h', s')
    ensures ok && h' == h && s' == s
  {
    PoolIdFits(size);
    var id := PoolId(s.size[h]);
    TakenBack(s, h, id);
    assert s1.pools[id][0] == h;
    assert PoolServes(s1, size) by { if size > 512 { assert SizeIs(s1, s1.pools[BIG][0], size); } }
  }

  lemma TakenBack(s: Heap, h: nat, i: nat)
    requires IsLive(s, h) && i < |s.pools|
    ensures Taken(Inserted(s, h, i, 0), i, 0) == s
  {
    var s' := Inserted(s, h, i, 0);
    assert s'.pools[i][..0] + s'.pools[i][1..] == s.pools[i];
    assert s.pools[i := s.pools[i]] == s.pools && s.place[h := LIVE] == s.place;
  }

  /** The chunk at position k of the cache, handed out with its end cut off. */
  lemma SplitOff(s: Heap, size: nat, k: nat, h: nat, left: nat) returns (s1: Heap)
    requires Folded(Ok(s)) && size >= MIN_DATA && CACHE < |s.pools| && k < |s.pools[CACHE]| && h == s.pools[CACHE][k] && h in s.size
    requires s.size[h] >= size && left <= s.size[h] - size
    ensures s1 == Shrunk(Taken(s, CACHE, k), h, size) && Folded(Ok(s1)) && Folded(Spare(s1, h + Whole(size), left))
    ensures Folded(Granted(s, s1, h)) && s1.size[h] == size && CACHE < |s1.pools| && k <= |s1.pools[CACHE]| && s1.given == s.given
  {
    OkFacts(s);
    PoolMember(s, CACHE, k);
    TakenOk(s, CACHE, k);
    var s0 := Taken(s, CACHE, k);
    TailIsSpare(s0, h, size);
    ShrunkOk(s0, h, size);
    s1 := Shrunk(s0, h, size);
    SparePart(s1, h + Whole(size), s.size[h] - size, h + Whole(size), left);
  }

  /** The first bytes of the bump region, handed out as a chunk. */
  lemma BumpCarved(s: Heap, n: nat) returns (s1: Heap)
    requires Folded(Ok(s)) && n >= MIN_DATA && Whole(n) <= s.free
    ensures s1 == Carved(Bumped(s, Whole(n)), s.bump, n) && Folded(Ok(s1)) && Granted(s, s1, s.bump) && s1.size[s.bump] == n
    ensures Lost(s1) == Lost(s) && s.bump !in s.size
    ensures s1.free == 0 ==> Folded(Ok(s1.(bump := 0))) && Granted(s, s1.(bump := 0), s.bump)
  {
    OkFacts(s);
    BumpIsSpare(s, Whole(n));
    SpareIsNew(Bumped(s, Whole(n)), s.bump, Whole(n));
    CarvedOk(Bumped(s, Whole(n)), s.bump, n);
    s1 := Carved(Bumped(s, Whole(n)), s.bump, n);
    BytesSet(s.size, s.bump, n);
    if s1.free == 0 { NoBump(s1); }
  }

  lemma RestPool(size: nat)
    requires size >= MIN_DATA
    ensures if size > 527 then PoolId(size) == BIG else PoolId(size) == Whole(size) / MIN_DATA - 2 < BIG
    ensures size >= MIN_DATA * (PoolId(size) + 1)
  {
  }

  /** All of the bump region, as the first chunk of a pool. */
  lemma BumpListed(s: Heap, id: nat) returns (s2: Heap)
    requires Folded(Ok(s)) && s.free >= Whole(MIN_DATA) && id < POOLS == |s.pools|
    requires id <= BIG ==> s.free - HEADER >= MIN_DATA * (id + 1)
    ensures s2 == Inserted(Carved(Bumped(s, s.free), s.bump, s.free - HEADER).(bump := 0), s.bump, id, 0)
    ensures Folded(Ok(s2)) && LiveKept(s, s2) && SizesKept(s, s2) && Lost(s2) == Lost(s) && s2.place.Keys == s2.size.Keys
    ensures s2.pools == s.pools[id := [s.bump] + s.pools[id]] && SizeIs(s2, s.bump, s.free - HEADER)
  {
    OkFacts(s);
    var s1 := BumpCarved(s, s.free - HEADER);
    s1 := s1.(bump := 0);
    InsertedOk(s1, s.bump, id, 0);
    s2 := Inserted(s1, s.bump, id, 0);
    assert s.pools[id][..0] + [s.bump] + s.pools[id][0..] == [s.bump] + s.pools[id];
    OkFacts(s2);
  }

  /** Adding a chunk does not touch what is handed out. */
  lemma AddedKeeps(s: Heap, a: nat, size: nat, i: nat, k: nat)
    requires Folded(Ok(s)) && Spare(s, a, Whole(size)) && i < |s.pools| && k <= |s.pools[i]|
    ensures Folded(LiveKept(s, Inserted(Carved(s, a, size), a, i, k)))
  {
    OkFacts(s);
    SpareIsNew(s, a, Whole(size));
  }

  lemma GrantedKept(s0: Heap, s1: Heap, s2: Heap, h: nat)
    requires Folded(Granted(s0, s1, h)) && Folded(LiveKept(s1, s2))
    ensures Folded(Granted(s0, s2, h)) && s2.size[h] == s1.size[h]
  {
  }

  lemma RestIsNew(s: Heap, base: nat, left: nat)
    requires Folded(Spare(s, base, left)) && left > HEADER
    ensures Bytes(s.size[base := left - HEADER]) == Bytes(s.size) + left
  {
    SpareIsNew(s, base, left);
    BytesSet(s.size, base, left - HEADER);
  }

  /** A heap with what is left of a chunk that was at position k of the cache. */
  function WithRest(s: Heap, base: nat, left: nat, k: nat): Heap
    requires |s.pools| == POOLS && k <= |s.pools[CACHE]|
  {
    if left > Whole(80) then Inserted(Carved(s, base, left - HEADER), base, CACHE, k)
    else if left >= MIN_SIZE then Inserted(Carved(s, base, PieceSize(left)), base, PiecePool(left), 0)
    else s
  }

  lemma RestPlaced(s0: Heap, s1: Heap, s: Heap, size: nat, k: nat, h: nat, left: nat)
    requires |s0.pools| == POOLS && k < |s0.pools[CACHE]| && h == s0.pools[CACHE][k] && h in s0.size && s0.size[h] >= size
    requires s1 == Shrunk(Taken(s0, CACHE, k), h, size) && s == WithRest(s1, h + Whole(size), left, k) && left == Low32(s0.size[h] - size)
    ensures Folded(FromCacheAt(s0, s, size, k, h))
  {
    var l, base := s0.pools[CACHE], h + Whole(size);
    var cut := l[..k] + l[k + 1..];
    if left > Whole(80) {
      assert cut[..k] + [base] + cut[k..] == l[k := base];
    } else if left >= MIN_SIZE {
      PieceNumbers(left);
      var id := PiecePool(left);
      assert s1.pools[id][..0] + [base] + s1.pools[id][0..] == [base] + s1.pools[id];
    }
    if s0.size[h] == size { assert s0.size[h := size] == s0.size; }
  }

  lemma CutLost(s0: Heap, s1: Heap, size: nat, k: nat, h: nat)
    requires CACHE < |s0.pools| && k < |s0.pools[CACHE]| && h in s0.size && s0.size[h] >= size && s1 == Shrunk(Taken(s0, CACHE, k), h, size)
    ensures var left := Low32(s0.size[h] - size);
            Lost(s1) - (if left <= Whole(80) then PieceKept(left) else left) == Lost(s0) + CutSlack(s0, h, size)
  {
    BytesSet(s0.size, h, size);
  }

  lemma PieceNumbers(left: nat)
    requires MIN_SIZE <= left <= Whole(80)
    ensures PieceSize(left) == left / MIN_DATA * MIN_DATA - HEADER && PiecePool(left) == PieceSize(left) / MIN_DATA - 1 < BIG
  {
  }

  lemma RestCached(s: Heap, base: nat, left: nat, k: nat) returns (s2: Heap)
    requires Folded(Ok(s)) && Folded(Spare(s, base, left)) && left > Whole(80) && CACHE < |s.pools| && k <= |s.pools[CACHE]|
    ensures s2 == Inserted(Carved(s, base, left - HEADER), base, CACHE, k)
    ensures Folded(Ok(s2)) && Folded(LiveKept(s, s2)) && |s2.pools| == POOLS && s2.place.Keys == s2.size.Keys && s2.given == s.given
  {
    ChunkAdded(s, base, left - HEADER, CACHE, k);
    AddedKeeps(s, base, left - HEADER, CACHE, k);
    s2 := Inserted(Carved(s, base, left - HEADER), base, CACHE, k);
    OkFacts(s2);
  }

  /** The value of a size in a uint32_t. */
  function Low32(n: nat): (r: nat)
    ensures r <= n
  {
    n % TWO32
  }

  lemma LiveSize(s: Heap, h: nat)
    requires Folded(Ok(s)) && h in s.size
    ensures s.size[h] >= MIN_DATA
  {
    assert Unseal(0);
  }

  lemma NoBump(s: Heap)
    requires Folded(Ok(s)) && s.free == 0
    ensures Folded(Ok(s.(bump := 0)))
  {
    assert Unseal(0);
  }

  lemma FreshIsSpare(s: Heap, base: nat, size: nat)
    requires Folded(Ok(s)) && forall j :: 0 <= j < |s.given| ==> Apart(base, size, s.given[j].0, s.given[j].1)
    ensures Folded(Ok(s.(given := s.given + [(base, size)]))) && Spare(s.(given := s.given + [(base, size)]), base, size)
  {
    assert Unseal(0);
    var s' := s.(given := s.given + [(base, size)]);
    FreshWithin(s, base, size, s');
    assert Placed(s') && Disjoint(s') && Sized(s');
  }

  lemma FreshWithin(s: Heap, base: nat, size: nat, s': Heap)
    requires AllWithin(s) && forall j :: 0 <= j < |s.given| ==> Apart(base, size, s.given[j].0, s.given[j].1)
    requires s' == s.(given := s.given + [(base, size)])
    ensures AllWithin(s') && Spare(s', base, size)
  {
    assert s'.given[|s.given|] == (base, size);
    forall h | h in s.size ensures Within(s'.given, h, Whole(s.size[h])) && Apart(h, Whole(s.size[h]), base, size) {
      InGiven(s, h, Whole(s.size[h]), base, size);
    }
    if s.free > 0 { InGiven(s, s.bump, s.free, base, size); }
  }

  lemma InGiven(s: Heap, a: nat, n: nat, base: nat, size: nat)
    requires Within(s.given, a, n) && forall j :: 0 <= j < |s.given| ==> Apart(base, size, s.given[j].0, s.given[j].1)
    ensures Within(s.given + [(base, size)], a, n) && Apart(a, n, base, size)
  {
    var i :| 0 <= i < |s.given| && s.given[i].0 <= a && a + n <= s.given[i].0 + s.given[i].1;
    assert (s.given + [(base, size)])[i] == s.given[i];
  }

  lemma BlockIsSpare(s: Heap, base: nat)
    requires Folded(Ok(s)) && forall j :: 0 <= j < |s.given| ==> Apart(base, BLOCK_SIZE, s.given[j].0, s.given[j].1)
    ensures Folded(Ok(s.(given := s.given + [(base, BLOCK_SIZE)], bump := base, free := BLOCK_SIZE)))
  {
    assert Unseal(0);
    FreshIsSpare(s, base, BLOCK_SIZE);
  }

  /** The pool that get_big_slab takes from: the first from id on that is not empty; CACHE if none is. */
  function BigChoice(pools: seq<seq<nat>>, id: nat): (i: nat)
    requires |pools| == POOLS && id <= CACHE
    ensures id <= i <= CACHE && (i < CACHE ==> pools[i] != []) && forall j :: id <= j < i ==> pools[j] == []
    decreases CACHE - id
  {
    if id == CACHE then CACHE else if pools[id] != [] then id else BigChoice(pools, id + 1)
  }

  lemma OnlyBig(pools: seq<seq<nat>>)
    requires |pools| == POOLS
    ensures BigChoice(pools, BIG) == if pools[BIG] != [] then BIG else CACHE
  {
  }

  /** A heap with one free chunk, of 528 bytes, in one of the last two lists. */
  ghost predicate OneChunk(s: Heap, pool: nat) {
    && |s.pools| == POOLS && s.pools[BIG] == (if pool == BIG then [4096] else [])
    && s.pools[CACHE] == (if pool == CACHE then [4096] else []) && SizeIs(s, 4096, 528) && s.free == 0
  }

  method OneCachedChunk() returns (heap: SlabHeap)
    ensures fresh(heap) && heap.Valid() && OneChunk(heap.s, CACHE) && heap.sections == []
  {
    heap := new SlabHeap([]);
    ghost var s := heap.s.(given := [(4096, 544)]);
    FirstPiece(s);
    heap.AddSlabMem(4096, 544);
    assert heap.s == Inserted(Carved(s, 4096, 528), 4096, CACHE, 0);
  }

  lemma FirstPiece(s: Heap)
    requires s.pools == seq(POOLS, _ => []) && s.free == 0
    ensures PieceSize(544) == 528 && PiecePool(544) == CACHE && OneChunk(Inserted(Carved(s, 4096, 528), 4096, CACHE, 0), CACHE)
  {
  }

  /** An exact fit in the cache, and malloc hands it out as it is. */
  lemma ExactTaken(s: Heap, blocks: nat, sections: seq<nat>, ok: bool, h: int, s': Heap)
    requires OneChunk(s, CACHE) && Outcome(s, blocks, sections, 528, ok, h, s')
    ensures ok && h == 4096 && s' == Taken(s, CACHE, 0)
  {
    assert CacheFit(s, 528, 0) == 0 && PoolId(528) == BIG;
    assert s.pools[CACHE][0] == 4096 && s.pools[BIG] == [];
  }

  method OneBigChunk(heap: SlabHeap)
    requires heap.Valid() && OneChunk(heap.s, CACHE) && heap.sections == []
    modifies heap
    ensures heap.Valid() && OneChunk(heap.s, BIG) && heap.sections == []
  {
    ghost var s, blocks := heap.s, heap.blocks;
    assert AllocSize(528) == 528;
    var ok, addr := heap.Malloc(528);
    ExactTaken(s, blocks, [], ok, addr - HEADER, heap.s);
    heap.Free(addr, SLAB_MAGIC);
  }

  /** The size promise fails above 528 bytes: a run in which malloc(1024) returns a chunk of 528, the
      only big chunk there is. */
  method BigSlabTooSmall() returns (heap: SlabHeap, ok: bool, addr: nat)
    ensures heap.Valid() && ok && addr >= HEADER && SizeIs(heap.s, addr - HEADER, 528)
  {
    heap := OneCachedChunk();
    OneBigChunk(heap);
    assert AllocSize(1024) == 1024 && PoolId(1024) == BIG;
    assert !Served(heap.s, heap.blocks, heap.sections, 1024);
    ok, addr := heap.Malloc(1024);
  }
}
