/** Editing a tree in place (fdt_rw.c, fdt_wip.c): every edit is a splice of the structure
    block, and every other token keeps its name and its value. */
module FdtEdit {
  import opened Sealing
  import opened FdtFormat
  import opened FdtReader
  import opened FdtWriter
  import opened FdtTree

  // ----- splices, on bytes and on tokens -----

  /** The memmove of fdt_splice_: the bytes z after the splice point move so that n bytes lie before them. */
  lemma SpliceBytes(x: seq<byte>, y: seq<byte>, z: seq<byte>, f: seq<byte>, n: nat)
    requires n <= |y| + |f|
    ensures PutBytes(x + y + z + f, |x| + n, z) == x + (y + z + f)[..n] + z + (y + z + f)[n + |z|..]
  {
    var w := y + z + f;
    assert x + y + z + f == x + w + [];
    PutInside(x, w, [], n, z);
  }

  lemma MidSlice(x: seq<byte>, y: seq<byte>, z: seq<byte>, f: seq<byte>)
    ensures (x + y + z + f)[|x| + |y|..|x| + |y| + |z|] == z
  {
  }

  lemma Grouped(c: Parts, s1: seq<byte>, s2: seq<byte>, s3: seq<byte>)
    requires c.block == s1 + s2 + s3
    ensures c.Buffer() == (c.low + s1) + s2 + (s3 + c.mid + c.strs) + c.free
  {
  }

  /** Seen from a splice point: x before it, s2 to be replaced, z after it. */
  lemma GroupedBuffer(c: Parts, bytes: seq<byte>, s1: seq<byte>, s2: seq<byte>, s3: seq<byte>)
    returns (x: seq<byte>, z: seq<byte>)
    requires bytes == c.Buffer() && c.block == s1 + s2 + s3
    ensures x == c.low + s1 && z == s3 + c.mid + c.strs && bytes == x + s2 + z + c.free
  {
    x, z := c.low + s1, s3 + c.mid + c.strs;
    Grouped(c, s1, s2, s3);
  }

  /** The bytes y become a hole of n bytes that starts like y; everything else is kept. */
  lemma SpliceParts(m: seq<byte>, x: seq<byte>, y: seq<byte>, z: seq<byte>, f: seq<byte>, n: nat, p: nat, end: nat)
    returns (hole: seq<byte>, f': seq<byte>, m': seq<byte>)
    requires m == x + y + z + f && n <= |y| + |f| && p == |x| && end == p + |y| + |z|
    ensures |hole| == n && n + |f'| == |y| + |f| && (n >= |y| ==> hole[..|y|] == y)
    ensures p + |y| <= end <= |m| && p + n + (end - p - |y|) <= |m|
    ensures m' == PutBytes(m, p + n, m[p + |y|..end]) == x + hole + (z + f')
  {
    MidSlice(x, y, z, f);
    SpliceBytes(x, y, z, f, n);
    hole, f' := HoleIn(y, z, f, n);
    m' := PutBytes(m, p + n, z);
    Assoc(x + hole, z, f');
  }

  lemma Assoc(x: seq<byte>, y: seq<byte>, z: seq<byte>)
    ensures x + y + z == x + (y + z)
  {
  }

  lemma HoleIn(y: seq<byte>, z: seq<byte>, f: seq<byte>, n: nat) returns (hole: seq<byte>, f': seq<byte>)
    requires n <= |y| + |f|
    ensures hole == (y + z + f)[..n] && f' == (y + z + f)[n + |z|..]
    ensures |hole| == n && n + |f'| == |y| + |f| && (n >= |y| ==> hole[..|y|] == y)
  {
    hole, f' := (y + z + f)[..n], (y + z + f)[n + |z|..];
  }

  /** Replacing tokens in the middle keeps the naming of all others. */
  lemma NamedSplice(strs: seq<byte>, ps: seq<Raw>, ms: seq<Raw>, qs: seq<Raw>, ns: seq<Raw>,
                    pt: seq<Token>, mt: seq<Token>, qt: seq<Token>, nt: seq<Token>)
    requires Folded(Named(strs, ps + ms + qs, pt + mt + qt))
    requires |ps| == |pt| && |ms| == |mt| && |qs| == |qt| > 0 && |ns| == |nt|
    requires forall k :: 0 <= k < |ns| ==> !ns[k].RFin? && NamedFromStart(strs, ns[k], nt[k])
    ensures Folded(Named(strs, ps + ns + qs, pt + nt + qt))
  {
    var r0, t0, r1, t1 := ps + ms + qs, pt + mt + qt, ps + ns + qs, pt + nt + qt;
    forall k | 0 <= k < |r1|
      ensures Folded((r1[k].RFin? <==> k == |r1| - 1) && NamedFromStart(strs, r1[k], t1[k]))
    {
      if k < |ps| {
        assert r1[k] == r0[k] && t1[k] == t0[k];
      } else if k >= |ps| + |ns| {
        var j := k - |ns| + |ms|;
        assert r1[k] == r0[j] && t1[k] == t0[j];
      } else {
        assert r1[k] == ns[k - |ps|] && t1[k] == nt[k - |ps|];
      }
    }
  }

  /** The parts after the block's middle s2 has become t2 and the free space has changed. */
  function Spliced(c: Parts, s1: seq<byte>, t2: seq<byte>, s3: seq<byte>, f: seq<byte>, raws: seq<Raw>, tokens: seq<Token>): Parts {
    c.(block := s1 + t2 + s3, free := f, raws := raws, tokens := tokens)
  }

  /** The header after a splice of the structure block. */
  function SplicedHeader(h: Header, oldlen: nat, newlen: nat): Header
    requires 0 <= h.sizeStruct - oldlen + newlen <= INT_MAX && 0 <= h.offStrings - oldlen + newlen <= INT_MAX
  {
    h.(sizeStruct := h.sizeStruct - oldlen + newlen, offStrings := h.offStrings - oldlen + newlen)
  }

  lemma Regroup(x: seq<byte>, s1: seq<byte>, t2: seq<byte>, s3: seq<byte>, y: seq<byte>, z: seq<byte>, f: seq<byte>)
    ensures (x + s1) + t2 + (s3 + y + z + f) == x + (s1 + t2 + s3) + y + z + f
  {
  }

  /** An edit of the block: new tokens ns in place of ms, everything else as it was. */
  lemma Edited(b: Blob, c: Parts, s1: seq<byte>, s2: seq<byte>, s3: seq<byte>, t2: seq<byte>, f: seq<byte>,
               ps: seq<Raw>, ms: seq<Raw>, qs: seq<Raw>, ns: seq<Raw>,
               pt: seq<Token>, mt: seq<Token>, qt: seq<Token>, nt: seq<Token>)
    requires Folded(TreeIs(b, c)) && c.block == s1 + s2 + s3 && |s1| == Size(ps) && |s2| == Size(ms)
    requires c.raws == ps + ms + qs && c.tokens == pt + mt + qt
    requires |ps| == |pt| && |ms| == |mt| && |qs| == |qt| > 0 && |ns| == |nt|
    requires forall k :: 0 <= k < |ns| ==> !ns[k].RFin? && NamedFromStart(c.strs, ns[k], nt[k])
    requires Folded(Layout(t2, ns))
    requires |t2| + |f| == |s2| + |c.free|
    ensures 0 <= b.h.sizeStruct - |s2| + |t2| <= INT_MAX && 0 <= b.h.offStrings - |s2| + |t2| <= INT_MAX
    ensures Folded(TreeIs(Blob(SplicedHeader(b.h, |s2|, |t2|), (c.low + s1) + t2 + (s3 + c.mid + c.strs + f)),
                          Spliced(c, s1, t2, s3, f, ps + ns + qs, pt + nt + qt)))
  {
    assert Unseal(0);
    LayoutSplice(s1, ps, s2, ms, s3, qs, t2, ns);
    NamedSplice(c.strs, ps, ms, qs, ns, pt, mt, qt, nt);
    Regroup(c.low, s1, t2, s3, c.mid, c.strs, f);
  }

  /** ts with the tokens i..j replaced by nt. */
  function Edit<T>(ts: seq<T>, i: nat, j: nat, nt: seq<T>): seq<T>
    requires i <= j <= |ts|
  {
    ts[..i] + nt + ts[j..]
  }

  lemma Thirds<T>(s: seq<T>, i: nat, j: nat) returns (x: seq<T>, y: seq<T>, z: seq<T>)
    requires i <= j <= |s|
    ensures s == x + y + z && x == s[..i] && y == s[i..j] && z == s[j..]
    ensures |x| == i && |y| == j - i && |z| == |s| - j
  {
    x, y, z := s[..i], s[i..j], s[j..];
  }

  /** The bytes of tokens i..j of a tree, and those before and after. */
  lemma CutAt(b: Blob, c: Parts, i: nat, j: nat) returns (s1: seq<byte>, s2: seq<byte>, s3: seq<byte>)
    requires Folded(TreeIs(b, c)) && i <= j <= |c.raws|
    ensures c.block == s1 + s2 + s3
    ensures |s1| == Off(c.raws, i) && |s1| + |s2| == Off(c.raws, j) && |s2| == Size(c.raws[i..j])
  {
    assert Unseal(0);
    var ps, ms, qs := c.raws[..i], c.raws[i..j], c.raws[j..];
    assert c.raws == ps + ms + qs && c.raws[..j] == ps + ms;
    SizeConcat(ps, ms);
    s1, s2, s3 := LayoutCut(c.block, ps, ms, qs);
  }

  /** An edit by token numbers. */
  lemma EditedAt(b: Blob, c: Parts, i: nat, j: nat, s1: seq<byte>, s2: seq<byte>, s3: seq<byte>,
                 t2: seq<byte>, f: seq<byte>, ns: seq<Raw>, nt: seq<Token>)
    requires Folded(TreeIs(b, c)) && i <= j < |c.raws| && c.block == s1 + s2 + s3
    requires |s1| == Off(c.raws, i) && |s2| == Size(c.raws[i..j])
    requires |ns| == |nt| && forall k :: 0 <= k < |ns| ==> !ns[k].RFin? && NamedFromStart(c.strs, ns[k], nt[k])
    requires Folded(Layout(t2, ns))
    requires |t2| + |f| == |s2| + |c.free|
    ensures |c.tokens| == |c.raws|
    ensures 0 <= b.h.sizeStruct - |s2| + |t2| <= INT_MAX && 0 <= b.h.offStrings - |s2| + |t2| <= INT_MAX
    ensures Folded(TreeIs(Blob(SplicedHeader(b.h, |s2|, |t2|), (c.low + s1) + t2 + (s3 + c.mid + c.strs + f)),
                          Spliced(c, s1, t2, s3, f, Edit(c.raws, i, j, ns), Edit(c.tokens, i, j, nt))))
  {
    TreeHeader(b, c);
    var ps, ms, qs := Thirds(c.raws, i, j);
    var pt, mt, qt := Thirds(c.tokens, i, j);
    Edited(b, c, s1, s2, s3, t2, f, ps, ms, qs, ns, pt, mt, qt, nt);
  }

  // ----- a block opened for an edit -----

  /** The block's bytes before, of and after the tokens being edited, and the free space left. */
  datatype Hole = Hole(s1: seq<byte>, s2: seq<byte>, s3: seq<byte>, f: seq<byte>)

  /** Buffer b is b0 with the bytes of tokens i..j replaced by t2. */
  ghost predicate Opened(b: Blob, b0: Blob, c: Parts, i: nat, j: nat, h: Hole, t2: seq<byte>) {
    forall n: int :: Unseal(n) ==> OpenedDef(b, b0, c, i, j, h, t2)
  }

  ghost predicate OpenedDef(b: Blob, b0: Blob, c: Parts, i: nat, j: nat, h: Hole, t2: seq<byte>) {
    && i <= j <= |c.raws| && c.block == h.s1 + h.s2 + h.s3
    && |h.s1| == Off(c.raws, i) && |h.s2| == Size(c.raws[i..j]) && |t2| + |h.f| == |h.s2| + |c.free|
    && 0 <= b0.h.sizeStruct - |h.s2| + |t2| <= INT_MAX && 0 <= b0.h.offStrings - |h.s2| + |t2| <= INT_MAX
    && b == Blob(SplicedHeader(b0.h, |h.s2|, |t2|), (c.low + h.s1) + t2 + (h.s3 + c.mid + c.strs + h.f))
  }

  lemma OpenedFacts(b: Blob, b0: Blob, c: Parts, i: nat, j: nat, h: Hole, t2: seq<byte>)
    requires Folded(Opened(b, b0, c, i, j, h, t2))
    ensures i <= j <= |c.raws| && |h.s1| == Off(c.raws, i) && |h.s2| == Size(c.raws[i..j]) && c.block == h.s1 + h.s2 + h.s3
    ensures |c.low| + |h.s1| + |t2| <= |b.bytes| && b.h.offStruct == b0.h.offStruct && b.h.offRsvmap == b0.h.offRsvmap
    ensures |b.bytes| == |c.low| + |c.block| + |c.mid| + |c.strs| + |c.free|
  {
    assert Unseal(0);
  }

  /** A store inside the opened part. */
  lemma OpenedPut(b: Blob, b0: Blob, c: Parts, i: nat, j: nat, h: Hole, t2: seq<byte>, at: nat, k: nat, v: seq<byte>)
    returns (nb: Blob, nt2: seq<byte>)
    requires Folded(Opened(b, b0, c, i, j, h, t2)) && k + |v| <= |t2| && at == |c.low| + |h.s1| + k
    ensures at + |v| <= |b.bytes| && nb == b.(bytes := PutBytes(b.bytes, at, v)) && nt2 == PutBytes(t2, k, v)
    ensures Folded(Opened(nb, b0, c, i, j, h, nt2))
  {
    assert Unseal(0);
    PutInside(c.low + h.s1, t2, h.s3 + c.mid + c.strs + h.f, k, v);
    nb, nt2 := b.(bytes := PutBytes(b.bytes, at, v)), PutBytes(t2, k, v);
  }

  /** The parts after an edit that has put t2 in place. */
  function ClosedParts(c: Parts, i: nat, j: nat, h: Hole, t2: seq<byte>, ns: seq<Raw>, nt: seq<Token>): Parts
    requires i <= j <= |c.raws| == |c.tokens|
  {
    Spliced(c, h.s1, t2, h.s3, h.f, Edit(c.raws, i, j, ns), Edit(c.tokens, i, j, nt))
  }

  /** When the opened part holds new tokens, the whole is a tree again. */
  lemma Closes(b: Blob, b0: Blob, c: Parts, i: nat, j: nat, h: Hole, t2: seq<byte>, ns: seq<Raw>, nt: seq<Token>)
    requires Folded(TreeIs(b0, c)) && Folded(Opened(b, b0, c, i, j, h, t2)) && j < |c.raws|
    requires |ns| == |nt| && forall k :: 0 <= k < |ns| ==> !ns[k].RFin? && NamedFromStart(c.strs, ns[k], nt[k])
    requires Folded(Layout(t2, ns))
    ensures i <= j && |c.tokens| == |c.raws| && Folded(TreeIs(b, ClosedParts(c, i, j, h, t2, ns, nt)))
  {
    assert Unseal(0);
    EditedAt(b0, c, i, j, h.s1, h.s2, h.s3, t2, h.f, ns, nt);
  }

  /** The opened bytes of a single token are that token. */
  lemma HoleToken(b0: Blob, c: Parts, i: nat, h: Hole)
    requires Folded(TreeIs(b0, c)) && i < |c.raws| && c.block == h.s1 + h.s2 + h.s3
    requires |h.s1| == Off(c.raws, i) && |h.s2| == Size(c.raws[i..i + 1])
    ensures |h.s2| == RawSize(c.raws[i]) && Folded(RawAt(h.s2, 0, c.raws[i]))
  {
    assert Unseal(0);
    var ps, ms, qs := Thirds(c.raws, i, i + 1);
    assert ms == [c.raws[i]];
    SizeConcat(ps, ms);
    LayoutSplit(h.s1 + h.s2, ps + ms, h.s3, qs);
    LayoutSplit(h.s1, ps, h.s2, ms);
    assert Size([c.raws[i]]) == RawSize(c.raws[i]);
  }

  // ----- the bytes an edit writes -----

  /** A property whose length word has been rewritten and whose data after start is now val. */
  lemma PropRefilled(t0: seq<byte>, s2: seq<byte>, nameoff: u32, v0: seq<byte>, start: nat, val: seq<byte>)
    requires start + |val| < TWO32 && |t0| == 12 + TagAlign(start + |val|) && start + |val| <= TagAlign(start + |val|)
    requires |s2| >= 12 + |v0| && RawAt(s2, 0, RProp(nameoff, v0)) && start <= |v0|
    requires t0[..12 + start] == s2[..12 + start]
    ensures Folded(Layout(PutBytes(Put32(t0, 4, start + |val|), 12 + start, val), [RProp(nameoff, v0[..start] + val)]))
  {
    var n := start + |val|;
    var t1 := Put32(t0, 4, n);
    var t, v := PutBytes(t1, 12 + start, val), v0[..start] + val;
    GetPut(t0, 4, n);
    forall i | 0 <= i < 12 + start
      ensures t0[i] == s2[i]
    {
      assert t0[..12 + start][i] == s2[..12 + start][i];
    }
    Get32Move(s2, 0, t, 0);
    Get32Move(t1, 4, t, 4);
    Get32Move(s2, 8, t, 8);
    forall k | 0 <= k < n
      ensures t[12 + k] == v[k]
    {
      if k < start { assert t[12 + k] == t0[12 + k] == s2[12 + k] == v0[k]; }
    }
    LayoutOne(t, RProp(nameoff, v));
  }

  lemma NameTokenRewritten(tag: seq<byte>, data: seq<byte>, name: CString)
    requires |tag| == 4 && Get32(tag, 0) == BEGIN_NODE && |data| == TagAlign(|name| + 1) && |name| + 1 <= |data|
    ensures Folded(Layout(tag + PutBytes(data, 0, name + [0]), [RBegin(name)]))
  {
    var d := PutBytes(data, 0, name + [0]);
    var t := tag + d;
    Get32Move(tag, 0, t, 0);
    forall k | 0 <= k < |name|
      ensures t[4 + k] == name[k]
    {
    }
    assert t[4 + |name|] == d[|name|] == 0;
    LayoutOne(t, RBegin(name));
  }

  /** The stores of fdt_add_subnode_namelen. */
  function NodeStores(m: seq<byte>, p: nat, name: CString): seq<byte>
    requires p + 8 + TagAlign(|name| + 1) <= |m| && |name| < TagAlign(|name| + 1)
  {
    var n := TagAlign(|name| + 1);
    Put32(PutBytes(PutBytes(Put32(m, p, BEGIN_NODE), p + 4, Zeros(n)), p + 4, name), p + 4 + n, END_NODE)
  }

  function NodeBytes(name: CString): seq<byte>
    requires |name| < TagAlign(|name| + 1)
  {
    Be32(BEGIN_NODE) + (name + Zeros(TagAlign(|name| + 1) - |name|)) + Be32(END_NODE)
  }

  lemma NodeRegion(m: seq<byte>, p: nat, w0: seq<byte>, n: nat, zeros: seq<byte>, name: seq<byte>, rest: seq<byte>, w1: seq<byte>)
    requires n == |zeros| && |w0| == |w1| == 4 && |name| + |rest| == |zeros| && p + 8 + |zeros| <= |m| && zeros[|name|..] == rest
    ensures PutBytes(PutBytes(PutBytes(PutBytes(m, p, w0), p + 4, zeros), p + 4, name), p + 4 + n, w1)
         == PutBytes(m, p, w0 + (name + rest) + w1)
  {
    var x, z := m[..p], m[p + 8 + n..];
    var o1, o2 := m[p + 4..p + 4 + n], m[p + 4 + n..p + 8 + n];
    var m1 := PutBytes(m, p, w0);
    assert m1 == x + w0 + o1 + o2 + z;
    var m2 := PutBytes(m1, p + 4, zeros);
    assert m2 == x + w0 + zeros + o2 + z;
    var m3 := PutBytes(m2, p + 4, name);
    assert m3 == x + w0 + (name + rest) + o2 + z;
  }

  lemma NodeStored(m: seq<byte>, p: nat, name: CString)
    requires p + 8 + TagAlign(|name| + 1) <= |m| && |name| < TagAlign(|name| + 1)
    ensures NodeStores(m, p, name) == PutBytes(m, p, NodeBytes(name))
  {
    var n := TagAlign(|name| + 1);
    ZerosCut(n, |name|);
    var w0, w1, zeros, rest := Be32(BEGIN_NODE), Be32(END_NODE), Zeros(n), Zeros(n - |name|);
    NodeRegion(m, p, w0, n, zeros, name, rest, w1);
  }

  lemma ZerosCut(n: nat, k: nat)
    requires k <= n
    ensures Zeros(n)[k..] == Zeros(n - k)
  {
  }

  lemma NodeLayout(name: CString)
    requires |name| < TagAlign(|name| + 1)
    ensures Folded(Layout(NodeBytes(name), [RBegin(name), REnd]))
  {
    var z := Zeros(TagAlign(|name| + 1) - |name|);
    assert Get32(Be32(BEGIN_NODE), 0) == BEGIN_NODE by { assert Be32(BEGIN_NODE)[0..4] == Be32(BEGIN_NODE); }
    assert Get32(Be32(END_NODE), 0) == END_NODE by { assert Be32(END_NODE)[0..4] == Be32(END_NODE); }
    NameTokenRewritten(Be32(BEGIN_NODE), name + z, name);
    assert PutBytes(name + z, 0, name + [0]) == name + z;
    LayoutOne(Be32(END_NODE), REnd);
    LayoutConcat(Be32(BEGIN_NODE) + (name + z), [RBegin(name)], Be32(END_NODE), [REnd]);
  }

  /** n words of FDT_NOP. */
  function NopBytes(n: nat): (s: seq<byte>)
    ensures |s| == 4 * n
  {
    if n == 0 then [] else NopBytes(n - 1) + Be32(NOP)
  }

  function Times<T>(n: nat, x: T): (s: seq<T>)
    ensures |s| == n && forall k :: 0 <= k < n ==> s[k] == x
  {
    seq(n, _ => x)
  }

  lemma {:induction false} NopLayout(n: nat)
    ensures Folded(Layout(NopBytes(n), Times(n, RNop)))
  {
    if n > 0 {
      NopLayout(n - 1);
      assert Get32(Be32(NOP), 0) == NOP by { assert Be32(NOP)[0..4] == Be32(NOP); }
      LayoutOne(Be32(NOP), RNop);
      LayoutConcat(NopBytes(n - 1), Times(n - 1, RNop), Be32(NOP), [RNop]);
      assert Times(n, RNop) == Times(n - 1, RNop) + [RNop];
    }
  }

  /** fdt_nop_region_: the words of a region become FDT_NOP, one after the other. */
  method NopRegion(m: seq<byte>, start: nat, len: nat, ghost n: nat) returns (w: seq<byte>)
    requires 4 * n - 4 < len <= 4 * n && start + 4 * n <= |m|
    ensures w == PutBytes(m, start, NopBytes(n))
  {
    w := m;
    var p := start;
    ghost var k := 0;
    while p < start + len
      invariant k <= n && p == start + 4 * k
      invariant w == PutBytes(m, start, NopBytes(k))
    {
      PutTwice(m, start, NopBytes(k), Be32(NOP));
      w := Put32(w, p, NOP);
      p, k := p + 4, k + 1;
    }
  }

  /** A string added after the table leaves every name where it was. */
  lemma NamedGrown(strs: seq<byte>, more: seq<byte>, raws: seq<Raw>, tokens: seq<Token>)
    requires Folded(Named(strs, raws, tokens))
    ensures Folded(Named(strs + more, raws, tokens))
  {
    forall k | 0 <= k < |raws|
      ensures Folded((raws[k].RFin? <==> k == |raws| - 1) && NamedFromStart(strs + more, raws[k], tokens[k]))
    {
      assert NamedFromStart(strs, raws[k], tokens[k]);
      if raws[k].RProp? { NameAtGrown(strs, more, raws[k].nameoff, tokens[k].pname); }
    }
  }

  lemma NameAtGrown(strs: seq<byte>, more: seq<byte>, at: nat, s: seq<byte>)
    requires NameAt(strs, at, s)
    ensures NameAt(strs + more, at, s)
  {
    forall k | 0 <= k < |s|
      ensures (strs + more)[at + k] == s[k]
    {
      assert strs[at + k] == s[k];
    }
  }

  lemma NameAppended(strs: seq<byte>, s: CString)
    ensures NameAt(strs + (s + [0]), |strs|, s)
  {
    var t := strs + (s + [0]);
    forall k | 0 <= k < |s|
      ensures t[|strs| + k] == s[k]
    {
    }
    assert t[|strs| + |s|] == 0;
  }

  function WithName(c: Parts, s: seq<byte>): Parts
    requires |s| <= |c.free|
  {
    c.(strs := c.strs + s, free := c.free[|s|..])
  }

  lemma StringPutAt(c: Parts, s: seq<byte>)
    requires |s| <= |c.free|
    ensures PutBytes(c.Buffer(), |c.Buffer()| - |c.free|, s) == WithName(c, s).Buffer()
  {
    var x, y, z := c.low + c.block + c.mid + c.strs, c.free[..|s|], c.free[|s|..];
    assert c.Buffer() == x + y + z;
    PutInside(x, y, z, 0, s);
    PutWhole(y, s);
    assert WithName(c, s).Buffer() == x + s + z;
  }

  lemma StringAppended(b: Blob, c: Parts, s: seq<byte>)
    requires Folded(TreeIs(b, c)) && |s| <= |c.free|
    ensures b.h.offStrings + b.h.sizeStrings + |s| <= |b.bytes| <= INT_MAX && b.h.sizeStrings == |c.strs|
    ensures Folded(TreeIs(Blob(b.h.(sizeStrings := |c.strs| + |s|),
                               PutBytes(b.bytes, b.h.offStrings + b.h.sizeStrings, s)), WithName(c, s)))
  {
    assert Unseal(0);
    assert b.h.offStrings + b.h.sizeStrings == |c.Buffer()| - |c.free|;
    StringPutAt(c, s);
    NamedGrown(c.strs, s, c.raws, c.tokens);
  }

  // ----- what each edit means for the tokens -----

  /** fdt_setprop on the node at token i. */
  function SetPropTokens(ts: seq<Token>, i: nat, name: seq<byte>, val: seq<byte>): seq<Token>
    requires i < |ts|
  {
    var k := FindProp(ts, i + 1, name);
    if k >= 0 then Edit(ts, k, k + 1, [Prop(name, val)]) else Edit(ts, i + 1, i + 1, [Prop(name, val)])
  }

  /** fdt_appendprop on the node at token i. */
  function AppendPropTokens(ts: seq<Token>, i: nat, name: seq<byte>, val: seq<byte>): seq<Token>
    requires i < |ts|
  {
    var k := FindProp(ts, i + 1, name);
    if k >= 0 then Edit(ts, k, k + 1, [Prop(name, ts[k].value + val)]) else Edit(ts, i + 1, i + 1, [Prop(name, val)])
  }

  /** Where fdt_add_subnode puts a new node: after the properties of its parent. */
  function AfterProps(ts: seq<Token>, j: nat): (k: nat)
    requires j <= |ts|
    ensures j <= k <= |ts| && (forall m :: j <= m < k ==> ts[m].Prop? || ts[m].Nop?)
    ensures k < |ts| ==> !ts[k].Prop? && !ts[k].Nop?
    decreases |ts| - j
  {
    if j < |ts| && (ts[j].Prop? || ts[j].Nop?) then AfterProps(ts, j + 1) else j
  }

  /** Token k comes right after the properties (and nops) of the node at token i. */
  ghost predicate AfterOwnProps(ts: seq<Token>, i: nat, k: nat) {
    && i < k < |ts| && ts[i].BeginNode? && (forall m :: i < m < k ==> ts[m].Prop? || ts[m].Nop?)
    && !ts[k].Prop? && !ts[k].Nop?
  }

  /** The tokens without nops: what a tree means. */
  function Strip(ts: seq<Token>): seq<Token> {
    if ts == [] then [] else (if ts[0].Nop? then [] else [ts[0]]) + Strip(ts[1..])
  }

  lemma {:induction false} StripConcat(ts: seq<Token>, us: seq<Token>)
    ensures Strip(ts + us) == Strip(ts) + Strip(us)
  {
    if ts == [] {
      assert ts + us == us;
    } else {
      var rest := ts[1..];
      StripConcat(rest, us);
      StripHead(ts[0], rest + us);
      StripHead(ts[0], rest);
      assert [ts[0]] + (rest + us) == ts + us && [ts[0]] + rest == ts;
    }
  }

  lemma StripHead(t: Token, ts: seq<Token>)
    ensures Strip([t] + ts) == (if t.Nop? then [] else [t]) + Strip(ts)
  {
    assert ([t] + ts)[1..] == ts;
  }

  lemma {:induction false} StripNops(n: nat)
    ensures Strip(Times(n, Nop)) == []
  {
    if n > 0 {
      assert Times(n, Nop)[1..] == Times(n - 1, Nop);
      StripNops(n - 1);
    }
  }

  /** Overwriting tokens with nops means the same tree as deleting them. */
  lemma NopIsDelete(ts: seq<Token>, i: nat, j: nat, n: nat)
    requires i <= j <= |ts|
    ensures Strip(Edit(ts, i, j, Times(n, Nop))) == Strip(Edit(ts, i, j, []))
  {
    StripNops(n);
    StripConcat(ts[..i] + Times(n, Nop), ts[j..]);
    StripConcat(ts[..i], Times(n, Nop));
    StripConcat(ts[..i] + [], ts[j..]);
    assert ts[..i] + [] == ts[..i];
  }

  /** A buffer that holds a tree, and the edits of fdt_rw.c and fdt_wip.c. */
  class Tree {
    var b: Blob
    ghost var c: Parts

    ghost predicate Valid()
      reads this
    {
      Folded(TreeIs(b, c))
    }

    /** A buffer that holds a tree, for instance one that the sequential writer has finished. */
    constructor (b0: Blob, ghost c0: Parts)
      requires Folded(TreeIs(b0, c0))
      ensures Valid() && b == b0 && c == c0
    {
      b, c := b0, c0;
    }

    /** fdt_rw_probe_: a well-formed tree passes. */
    method Probe() returns (err: int)
      requires Valid()
      ensures err == 0
    {
      TreeHeader(b, c);
      var h := b.h;
      if RoProbe(b) != 0 { return RoProbe(b); }
      if h.version < 17 { return BADVERSION; }
      if h.offRsvmap < HEADER_SIZE || h.offStruct < h.offRsvmap + 16 || h.offStrings < h.offStruct + h.sizeStruct
         || h.totalSize < h.offStrings + h.sizeStrings { return BADLAYOUT; }
      err := 0;
    }

    /** fdt_splice_struct_: the oldlen bytes s2 of the block make way for newlen bytes. */
    method SpliceStruct(at: nat, oldlen: nat, newlen: nat, ghost s1: seq<byte>, ghost s2: seq<byte>, ghost s3: seq<byte>)
      returns (err: int, ghost hole: seq<byte>, ghost f: seq<byte>)
      requires Valid() && c.block == s1 + s2 + s3 && at == |s1| && oldlen == |s2| && newlen <= INT_MAX
      modifies this`b
      ensures err == if newlen - oldlen > |c.free| then NOSPACE else 0
      ensures err != 0 ==> b == old(b)
      ensures err == 0 ==> |hole| == newlen && newlen + |f| == oldlen + |c.free|
      ensures err == 0 ==> (newlen >= oldlen ==> hole[..oldlen] == s2)
      ensures err == 0 ==> 0 <= old(b).h.sizeStruct - oldlen + newlen <= INT_MAX
      ensures err == 0 ==> 0 <= old(b).h.offStrings - oldlen + newlen <= INT_MAX
      ensures err == 0 ==> b == Blob(SplicedHeader(old(b).h, oldlen, newlen),
                                     (c.low + s1) + hole + (s3 + c.mid + c.strs + f))
    {
      TreeHeader(b, c);
      var h := b.h;
      var p, end := h.offStruct + at, h.offStrings + h.sizeStrings;
      if p + oldlen > end { return BADOFFSET, [], []; }
      if end - oldlen + newlen < 0 { return BADOFFSET, [], []; }
      if end - oldlen + newlen > h.totalSize { return NOSPACE, [], []; }
      ghost var x, z := GroupedBuffer(c, b.bytes, s1, s2, s3);
      ghost var m;
      hole, f, m := SpliceParts(b.bytes, x, s2, z, c.free, newlen, p, end);
      b := Blob(SplicedHeader(h, oldlen, newlen), PutBytes(b.bytes, p + newlen, b.bytes[p + oldlen..end]));
      err := 0;
    }

    /** Opens the block for an edit of tokens i..j: their first m bytes stay, the rest gets newlen bytes. */
    method Open(at: nat, oldlen: nat, newlen: nat, ghost i: nat, ghost j: nat, ghost m: nat)
      returns (err: int, ghost h: Hole, ghost t2: seq<byte>)
      requires Valid() && i <= j <= |c.raws| && at == Off(c.raws, i) + m && at + oldlen == Off(c.raws, j) && newlen <= INT_MAX - 16
      modifies this`b
      ensures err == if newlen - oldlen > |c.free| then NOSPACE else 0
      ensures err != 0 ==> b == old(b)
      ensures b.h.offRsvmap == old(b).h.offRsvmap
      ensures err == 0 ==> Folded(Opened(b, old(b), c, i, j, h, t2)) && |t2| == m + newlen && m + oldlen == |h.s2|
      ensures err == 0 ==> t2[..m] == h.s2[..m] && (newlen >= oldlen ==> t2[..m + oldlen] == h.s2)
    {
      ghost var s1, s2, s3 := CutAt(b, c, i, j);
      ghost var hd, rest := s2[..m], s2[m..];
      assert c.block == (s1 + hd) + rest + s3;
      ghost var hole, f;
      err, hole, f := SpliceStruct(at, oldlen, newlen, s1 + hd, rest, s3);
      h, t2 := Hole(s1, s2, s3, f), hd + hole;
      if err == 0 {
        assert (c.low + (s1 + hd)) + hole + (s3 + c.mid + c.strs + f) == (c.low + s1) + t2 + (s3 + c.mid + c.strs + f);
        assert newlen >= oldlen ==> t2[..m + oldlen] == hd + rest == s2;
      }
    }

    /** Cutting the tokens i..j out of the block. */
    method Cut(at: nat, len: nat, ghost i: nat, ghost j: nat) returns (err: int)
      requires Valid() && i <= j < |c.raws| && at == Off(c.raws, i) && at + len == Off(c.raws, j)
      modifies this
      ensures Valid() && err == 0 && |old(c.tokens)| == |old(c.raws)|
      ensures c.low == old(c.low) && b.h.offRsvmap == old(b).h.offRsvmap
      ensures c.tokens == Edit(old(c.tokens), i, j, [])
    {
      ghost var b0 := b;
      ghost var h, t2;
      err, h, t2 := Open(at, len, 0, i, j, 0);
      Closes(b, b0, c, i, j, h, t2, [], []);
      c := ClosedParts(c, i, j, h, t2, [], []);
    }

    /** fdt_delprop */
    method DelProp(nodeoffset: i32, name: CString, ghost i: nat) returns (err: int)
      requires Valid() && i < |c.raws| && nodeoffset == Off(c.raws, i)
      modifies this
      ensures Valid() && |old(c.tokens)| == |old(c.raws)|
      ensures c.low == old(c.low) && b.h.offRsvmap == old(b).h.offRsvmap
      ensures err == if !old(c.tokens)[i].BeginNode? then BADOFFSET
                     else var k := FindProp(old(c.tokens), i + 1, name); if k < 0 then k else 0
      ensures err != 0 ==> c == old(c)
      ensures err == 0 ==>
        var k := FindProp(old(c.tokens), i + 1, name);
        c.tokens == Edit(old(c.tokens), k, k + 1, [])
    {
      err := Probe();
      if err != 0 { return; }
      var p := GetProperty(b, nodeoffset, name, c, i);
      if p < 0 { return p; }
      ghost var k := FindProp(c.tokens, i + 1, name);
      TokenKinds(b, c, k);
      PropAt(b, c, k);
      OffStep(c.raws, k);
      var len := Get32(b.bytes, b.h.offStruct + p + 4);
      err := Cut(p, 12 + TagAlign(len), k, k + 1);
    }

    /** fdt_del_node */
    method DelNode(nodeoffset: i32, ghost i: nat) returns (err: int)
      requires Valid() && i < |c.raws| && nodeoffset == Off(c.raws, i)
      modifies this
      ensures Valid() && |old(c.tokens)| == |old(c.raws)|
      ensures c.low == old(c.low) && b.h.offRsvmap == old(b).h.offRsvmap
      ensures err == if !old(c.tokens)[i].BeginNode? then BADOFFSET
                     else if EndFrom(old(c.tokens), i + 1, 0) < 0 then NOTFOUND else 0
      ensures err != 0 ==> c == old(c)
      ensures err == 0 ==> c.tokens == Edit(old(c.tokens), i, EndFrom(old(c.tokens), i + 1, 0), [])
    {
      err := Probe();
      if err != 0 { return; }
      var e := NodeEndOffset(b, nodeoffset, c, i);
      if e < 0 { return e; }
      ghost var k := EndFrom(c.tokens, i + 1, 0);
      EndBeforeLast(b, c, i + 1, 0);
      OffMonotone(c.raws, i, k);
      err := Cut(nodeoffset, e - nodeoffset, i, k);
    }

    /** The stores after the data of the property at token k has been resized. */
    method FillProp(p: nat, start: nat, val: seq<byte>, ghost k: nat, ghost b0: Blob, ghost h: Hole, ghost t0: seq<byte>)
      requires k + 1 < |c.raws| && c.raws[k].RProp? && p == Off(c.raws, k)
      requires Folded(Refillable(b, b0, c, k, h, t0, start, val))
      modifies this
      ensures Valid() && |old(c.tokens)| == |old(c.raws)| && old(c.tokens)[k].Prop? && start <= |old(c.tokens)[k].value|
      ensures c.low == old(c.low) && b.h.offRsvmap == old(b).h.offRsvmap
      ensures c.tokens == Edit(old(c.tokens), k, k + 1, [Prop(old(c.tokens)[k].pname, old(c.tokens)[k].value[..start] + val)])
    {
      TreeHeader(b0, c);
      OpenedFacts(b, b0, c, k, k + 1, h, t0);
      var a := b.h.offStruct + p;
      ghost var nb, c' := RefillCloses(b, b0, c, k, h, t0, start, val, a);
      b := b.(bytes := PutBytes(Put32(b.bytes, a + 4, start + |val|), a + 12 + start, val));
      c := c';
    }

    /** The property at token k keeps its first start bytes of data and gets val after them. */
    method Refill(p: nat, oldlen: nat, start: nat, val: seq<byte>, ghost k: nat) returns (err: int)
      requires Valid() && k + 1 < |c.raws| && c.raws[k].RProp? && p == Off(c.raws, k) && oldlen == |c.raws[k].value|
      requires (start == 0 || start == oldlen) && start + |val| <= INT_MAX - 32
      modifies this
      ensures Valid() && |old(c.tokens)| == |old(c.raws)| && old(c.tokens)[k].Prop? && start <= |old(c.tokens)[k].value|
      ensures c.low == old(c.low) && b.h.offRsvmap == old(b).h.offRsvmap
      ensures err == if TagAlign(start + |val|) - TagAlign(oldlen) > |old(c).free| then NOSPACE else 0
      ensures err != 0 ==> c == old(c)
      ensures err == 0 ==>
        c.tokens == Edit(old(c.tokens), k, k + 1, [Prop(old(c.tokens)[k].pname, old(c.tokens)[k].value[..start] + val)])
    {
      ghost var b0 := b;
      TokenKinds(b, c, k);
      OffStep(c.raws, k);
      TagAlignShift(0, start + |val|);
      TagAlignShift(0, oldlen);
      ghost var h, t0;
      err, h, t0 := Open(p + 12, TagAlign(oldlen), TagAlign(start + |val|), k, k + 1, 12);
      if err != 0 { return; }
      assert t0[..12 + start] == h.s2[..12 + start];
      FillProp(p, start, val, k, b0, h, t0);
    }

    /** fdt_find_add_string_ of fdt_rw.c: the offset of s in the table, which may have grown. */
    method FindAddName(s: CString) returns (offset: int)
      requires Valid()
      modifies this
      ensures Valid()
      ensures offset == NOSPACE <==> !Known(old(c.strs), s) && |s| + 1 > |old(c.free)|
      ensures b.h.offRsvmap == old(b).h.offRsvmap
      ensures offset < 0 ==> offset == NOSPACE && c == old(c)
      ensures offset <= INT_MAX
      ensures offset >= 0 ==> c == (if Known(old(c.strs), s) then old(c) else WithName(old(c), s + [0]))
      ensures offset >= 0 ==> Folded(NameAt(c.strs, offset, s))
    {
      TreeHeader(b, c);
      var h := b.h;
      assert b.bytes[h.offStrings..h.offStrings + h.sizeStrings] == c.strs;
      offset := FindString(b.bytes[h.offStrings..h.offStrings + h.sizeStrings], s);
      if offset >= 0 { return; }
      if h.offStrings + h.sizeStrings + |s| + 1 > h.totalSize { return NOSPACE; }
      offset := h.sizeStrings;
      StringAppended(b, c, s + [0]);
      NameAppended(c.strs, s);
      b := Blob(h.(sizeStrings := h.sizeStrings + |s| + 1), PutBytes(b.bytes, h.offStrings + h.sizeStrings, s + [0]));
      c := WithName(c, s + [0]);
    }

    /** The splice and the stores of fdt_add_property_ and the copy of the value. */
    method InsertProp(at: nat, nameoff: int, name: CString, val: seq<byte>, ghost i: nat) returns (err: int)
      requires Valid() && i < |c.raws| && at == Off(c.raws, i) && |val| <= INT_MAX - 32
      requires 0 <= nameoff <= INT_MAX && Folded(NameAt(c.strs, nameoff, name))
      modifies this
      ensures Valid() && |old(c.tokens)| == |old(c.raws)|
      ensures c.low == old(c.low) && b.h.offRsvmap == old(b).h.offRsvmap
      ensures err == if RawSize(RProp(0, val)) > |old(c).free| then NOSPACE else 0
      ensures err != 0 ==> c == old(c)
      ensures err == 0 ==> c.tokens == Edit(old(c.tokens), i, i, [Prop(name, val)])
    {
      ghost var b0 := b;
      TreeHeader(b, c);
      TagAlignShift(0, |val|);
      ghost var h, t0;
      err, h, t0 := Open(at, 0, 12 + TagAlign(|val|), i, i, 0);
      if err != 0 { return; }
      OpenedFacts(b, b0, c, i, i, h, t0);
      var a := b.h.offStruct + at;
      ghost var nb, c' := InsertCloses(b, b0, c, i, h, t0, nameoff, name, val, a);
      b := b.(bytes := PropStores(b.bytes, a, nameoff, val));
      c := c';
    }

    /** fdt_add_property_ and the copy of the value. */
    method AddProperty(nodeoffset: i32, name: CString, val: seq<byte>, ghost i: nat) returns (err: int)
      requires Valid() && i < |c.raws| && nodeoffset == Off(c.raws, i) && |val| <= INT_MAX - 32
      modifies this
      ensures Valid() && |old(c.tokens)| == |old(c.raws)|
      ensures c.low == old(c.low) && b.h.offRsvmap == old(b).h.offRsvmap
      ensures !old(c.tokens)[i].BeginNode? ==> err == BADOFFSET
      ensures old(c.tokens)[i].BeginNode? ==>
        err == if (if Known(old(c.strs), name) then 0 else |name| + 1) + 12 + TagAlign(|val|) <= |old(c.free)| then 0 else NOSPACE
      ensures err != 0 ==> c.tokens == old(c.tokens)
      ensures err == 0 ==> c.tokens == Edit(old(c.tokens), i + 1, i + 1, [Prop(name, val)])
    {
      CheckNodeAt(b, c, i);
      var next := CheckNodeOffset(b, nodeoffset);
      if next < 0 { return next; }
      var nameoff := FindAddName(name);
      if nameoff < 0 { return nameoff; }
      err := InsertProp(next, nameoff, name, val, i + 1);
    }

    /** fdt_setprop */
    method SetProp(nodeoffset: i32, name: CString, val: seq<byte>, ghost i: nat) returns (err: int)
      requires Valid() && i < |c.raws| && nodeoffset == Off(c.raws, i) && |val| <= INT_MAX - 32
      modifies this
      ensures Valid() && |old(c.tokens)| == |old(c.raws)|
      ensures c.low == old(c.low) && b.h.offRsvmap == old(b).h.offRsvmap
      ensures !old(c.tokens)[i].BeginNode? ==> err == BADOFFSET
      ensures old(c.tokens)[i].BeginNode? ==>
        var k := FindProp(old(c.tokens), i + 1, name);
        err == if k >= 0 then (if TagAlign(|val|) - TagAlign(|old(c.tokens)[k].value|) > |old(c.free)| then NOSPACE else 0)
               else if k != NOTFOUND then k
               else if (if Known(old(c.strs), name) then 0 else |name| + 1) + 12 + TagAlign(|val|) <= |old(c.free)| then 0 else NOSPACE
      ensures err != 0 ==> c.tokens == old(c.tokens)
      ensures err == 0 ==> c.tokens == SetPropTokens(old(c.tokens), i, name, val)
    {
      err := Probe();
      if err != 0 { return; }
      var p := GetProperty(b, nodeoffset, name, c, i);
      if p >= 0 {
        ghost var k := FindProp(c.tokens, i + 1, name);
        TokenKinds(b, c, k);
        PropAt(b, c, k);
        err := Refill(p, Get32(b.bytes, b.h.offStruct + p + 4), 0, val, k);
        assert old(c.tokens)[k].value[..0] + val == val;
        return;
      }
      if p != NOTFOUND { return p; }
      err := AddProperty(nodeoffset, name, val, i);
    }

    /** fdt_appendprop */
    method AppendProp(nodeoffset: i32, name: CString, val: seq<byte>, ghost i: nat) returns (err: int)
      requires Valid() && i < |c.raws| && nodeoffset == Off(c.raws, i) && |val| + |c.block| <= INT_MAX - 32
      modifies this
      ensures Valid() && |old(c.tokens)| == |old(c.raws)|
      ensures c.low == old(c.low) && b.h.offRsvmap == old(b).h.offRsvmap
      ensures !old(c.tokens)[i].BeginNode? ==> err == BADOFFSET
      ensures old(c.tokens)[i].BeginNode? ==>
        var k := FindProp(old(c.tokens), i + 1, name);
        err == if k >= 0 then var n := |old(c.tokens)[k].value|; (if TagAlign(n + |val|) - TagAlign(n) > |old(c.free)| then NOSPACE else 0)
               else if (if Known(old(c.strs), name) then 0 else |name| + 1) + 12 + TagAlign(|val|) <= |old(c.free)| then 0 else NOSPACE
      ensures err != 0 ==> c.tokens == old(c.tokens)
      ensures err == 0 ==> c.tokens == AppendPropTokens(old(c.tokens), i, name, val)
    {
      err := Probe();
      if err != 0 { return; }
      var p := GetProperty(b, nodeoffset, name, c, i);
      if p >= 0 {
        ghost var k := FindProp(c.tokens, i + 1, name);
        TokenKinds(b, c, k);
        PropAt(b, c, k);
        ValueInBlock(b, c, k);
        var oldlen := Get32(b.bytes, b.h.offStruct + p + 4);
        err := Refill(p, oldlen, oldlen, val, k);
        assert old(c.tokens)[k].value[..oldlen] == old(c.tokens)[k].value;
        return;
      }
      err := AddProperty(nodeoffset, name, val, i);
    }

    /** fdt_setprop_inplace_namelen_partial, wherever its length test (an unsigned 32-bit sum) is right. */
    method SetPropInplacePartial(nodeoffset: i32, name: CString, idx: u32, val: seq<byte>, ghost i: nat) returns (err: int)
      requires Valid() && i < |c.raws| && nodeoffset == Off(c.raws, i) && |val| <= INT_MAX
      requires |c.tokens| == |c.raws| &&
        var k := FindProp(c.tokens, i + 1, name); k >= 0 ==> LengthTestRight(idx, |val|, |c.tokens[k].value|)
      modifies this
      ensures Valid() && |old(c.tokens)| == |old(c.raws)|
      ensures c.low == old(c.low) && b.h.offRsvmap == old(b).h.offRsvmap
      ensures err == if !old(c.tokens)[i].BeginNode? then BADOFFSET
                     else var k := FindProp(old(c.tokens), i + 1, name);
                       if k < 0 then k else if |old(c.tokens)[k].value| < idx + |val| then NOSPACE else 0
      ensures err != 0 ==> c == old(c) && b == old(b)
      ensures err == 0 ==>
        var k := FindProp(old(c.tokens), i + 1, name);
        c.tokens == Edit(old(c.tokens), k, k + 1, [Prop(name, PutBytes(old(c.tokens)[k].value, idx, val))])
    {
      var p := GetProperty(b, nodeoffset, name, c, i);
      if p < 0 { return p; }
      ghost var k := FindProp(c.tokens, i + 1, name);
      TokenKinds(b, c, k);
      PropAt(b, c, k);
      var proplen := Get32(b.bytes, b.h.offStruct + p + 4);
      LengthTest(idx, |val|, proplen);
      if proplen < U32(|val| + idx) { return NOSPACE; }
      var at := b.h.offStruct + p + 12 + idx;
      ghost var nb, c' := InplaceCloses(b, c, k, idx, val, at);
      b := b.(bytes := PutBytes(b.bytes, at, val));
      c := c';
      err := 0;
    }

    /** fdt_set_name */
    method SetName(nodeoffset: i32, name: CString, ghost i: nat) returns (err: int)
      requires Valid() && i < |c.raws| && nodeoffset == Off(c.raws, i) && |name| <= INT_MAX - 64
      modifies this
      ensures Valid() && |old(c.tokens)| == |old(c.raws)|
      ensures c.low == old(c.low) && b.h.offRsvmap == old(b).h.offRsvmap
      ensures err == if !old(c.tokens)[i].BeginNode? then BADOFFSET
                     else if RawSize(RBegin(name)) - RawSize(old(c.raws)[i]) > |old(c.free)| then NOSPACE else 0
      ensures err != 0 ==> c == old(c)
      ensures err == 0 ==> c.tokens == Edit(old(c.tokens), i, i + 1, [BeginNode(name)])
    {
      err := Probe();
      if err != 0 { return; }
      CheckNodeAt(b, c, i);
      var next := CheckNodeOffset(b, nodeoffset);
      if next < 0 { return next; }
      TokenNamed(b, c, i);
      var oldlen := NameLength(b, nodeoffset, c, i);
      OffStep(c.raws, i);
      TagAlignShift(0, |name| + 1);
      ghost var b0 := b;
      ghost var h, t0;
      err, h, t0 := Open(nodeoffset + 4, TagAlign(oldlen + 1), TagAlign(|name| + 1), i, i + 1, 4);
      if err != 0 { return; }
      TreeHeader(b0, c);
      OpenedFacts(b, b0, c, i, i + 1, h, t0);
      var a := b.h.offStruct + nodeoffset + 4;
      ghost var nb, c' := RenameCloses(b, b0, c, i, h, t0, name, a);
      b := b.(bytes := PutBytes(b.bytes, a, name + [0]));
      c := c';
    }

    /** The splice and the stores of fdt_add_subnode_namelen. */
    method InsertNode(at: nat, name: CString, ghost k: nat) returns (err: int)
      requires Valid() && k < |c.raws| && at == Off(c.raws, k) && |name| <= INT_MAX - 64
      modifies this
      ensures Valid() && |old(c.tokens)| == |old(c.raws)|
      ensures c.low == old(c.low) && b.h.offRsvmap == old(b).h.offRsvmap
      ensures err == if RawSize(RBegin(name)) + 4 > |old(c.free)| then NOSPACE else 0
      ensures err != 0 ==> c == old(c)
      ensures err == 0 ==> c.tokens == Edit(old(c.tokens), k, k, [BeginNode(name), EndNode])
    {
      ghost var b0 := b;
      TreeHeader(b, c);
      TagAlignShift(0, |name| + 1);
      ghost var h, t0;
      err, h, t0 := Open(at, 0, 4 + TagAlign(|name| + 1) + 4, k, k, 0);
      if err != 0 { return; }
      OpenedFacts(b, b0, c, k, k, h, t0);
      var a := b.h.offStruct + at;
      ghost var nb, c' := NodeCloses(b, b0, c, k, h, t0, name, a);
      b := b.(bytes := NodeStores(b.bytes, a, name));
      c := c';
    }

    /** fdt_add_subnode: returns the new node's offset. */
    method AddSubnode(parentoffset: i32, name: CString, ghost i: nat) returns (r: int)
      requires Valid() && i < |c.raws| && parentoffset == Off(c.raws, i) && |name| <= INT_MAX - 64
      modifies this
      ensures Valid() && |old(c.tokens)| == |old(c.raws)|
      ensures c.low == old(c.low) && b.h.offRsvmap == old(b).h.offRsvmap
      ensures r < 0 ==> c == old(c)
      ensures
        if !old(c.tokens)[i].BeginNode? then r == BADOFFSET
        else if FindSubnode(old(c.tokens), i + 1, 0, name) >= 0 then r == EXISTS
        else if 4 + TagAlign(|name| + 1) + 4 > |old(c.free)| then r == NOSPACE
        else r >= 0
      ensures r >= 0 ==>
        exists k :: AfterOwnProps(old(c.tokens), i, k) && r == Off(old(c.raws), k) && c.tokens == Edit(old(c.tokens), k, k, [BeginNode(name), EndNode])
    {
      r := Probe();
      if r != 0 { return; }
      var s := SubnodeOffset(b, parentoffset, name, c, i);
      TreeHeader(b, c);
      if s >= 0 { return EXISTS; }
      if s != NOTFOUND { return s; }
      ghost var k := AfterProps(c.tokens, i + 1);
      TokenKinds(b, c, i);
      var offset := PlaceForNode(b, parentoffset, c, i);
      var err := InsertNode(offset, name, k);
      if err != 0 { return err; }
      r := offset;
    }

    /** Overwrites the tokens i..j with nops. */
    method NopOut(at: nat, len: nat, ghost i: nat, ghost j: nat)
      requires Valid() && i <= j < |c.raws| && at == Off(c.raws, i) && Off(c.raws, j) - 4 < at + len <= Off(c.raws, j)
      modifies this
      ensures Valid() && |old(c.tokens)| == |old(c.raws)|
      ensures c.low == old(c.low) && b.h.offRsvmap == old(b).h.offRsvmap
      ensures c.tokens == Edit(old(c.tokens), i, j, Times((Off(old(c.raws), j) - at) / 4, Nop))
    {
      TreeHeader(b, c);
      var a := b.h.offStruct + at;
      ghost var n, nb, c' := NopCloses(b, c, i, j, a);
      var m := NopRegion(b.bytes, a, len, n);
      b := b.(bytes := m);
      c := c';
    }

    /** fdt_nop_property: means the same tree as fdt_delprop. */
    method NopProperty(nodeoffset: i32, name: CString, ghost i: nat) returns (err: int)
      requires Valid() && i < |c.raws| && nodeoffset == Off(c.raws, i)
      modifies this
      ensures Valid() && |old(c.tokens)| == |old(c.raws)|
      ensures c.low == old(c.low) && b.h.offRsvmap == old(b).h.offRsvmap
      ensures err == if !old(c.tokens)[i].BeginNode? then BADOFFSET
                     else var k := FindProp(old(c.tokens), i + 1, name); if k < 0 then k else 0
      ensures err != 0 ==> c == old(c)
      ensures err == 0 ==>
        var k := FindProp(old(c.tokens), i + 1, name);
        && Strip(c.tokens) == Strip(Edit(old(c.tokens), k, k + 1, []))
        && Off(old(c.raws), k + 1) >= Off(old(c.raws), k)
        && c.tokens == Edit(old(c.tokens), k, k + 1, Times((Off(old(c.raws), k + 1) - Off(old(c.raws), k)) / 4, Nop))
    {
      var p := GetProperty(b, nodeoffset, name, c, i);
      if p < 0 { return p; }
      ghost var k := FindProp(c.tokens, i + 1, name);
      NopPropAt(p, k);
      NopIsDelete(old(c.tokens), k, k + 1, (Off(old(c.raws), k + 1) - Off(old(c.raws), k)) / 4);
      err := 0;
    }

    /** Overwrites the property at token k with nops. */
    method NopPropAt(p: i32, ghost k: nat)
      requires Valid() && k < |c.raws| == |c.tokens| && p == Off(c.raws, k) && c.tokens[k].Prop?
      modifies this
      ensures Valid() && c.low == old(c.low) && b.h.offRsvmap == old(b).h.offRsvmap
      ensures Off(old(c.raws), k + 1) >= Off(old(c.raws), k)
      ensures c.tokens == Edit(old(c.tokens), k, k + 1, Times((Off(old(c.raws), k + 1) - Off(old(c.raws), k)) / 4, Nop))
    {
      TokenKinds(b, c, k);
      PropAt(b, c, k);
      OffStep(c.raws, k);
      var len := Get32(b.bytes, b.h.offStruct + p + 4);
      TagAlignShift(0, len);
      NopOut(p, len + 12, k, k + 1);
    }

    /** fdt_nop_node: means the same tree as fdt_del_node. */
    method NopNode(nodeoffset: i32, ghost i: nat) returns (err: int)
      requires Valid() && i < |c.raws| && nodeoffset == Off(c.raws, i)
      modifies this
      ensures Valid() && |old(c.tokens)| == |old(c.raws)|
      ensures c.low == old(c.low) && b.h.offRsvmap == old(b).h.offRsvmap
      ensures err == if !old(c.tokens)[i].BeginNode? then BADOFFSET
                     else if EndFrom(old(c.tokens), i + 1, 0) < 0 then NOTFOUND else 0
      ensures err != 0 ==> c == old(c)
      ensures err == 0 ==>
        var e := EndFrom(old(c.tokens), i + 1, 0);
        && Strip(c.tokens) == Strip(Edit(old(c.tokens), i, e, []))
        && Off(old(c.raws), e) >= nodeoffset && c.tokens == Edit(old(c.tokens), i, e, Times((Off(old(c.raws), e) - nodeoffset) / 4, Nop))
    {
      var e := NodeEndOffset(b, nodeoffset, c, i);
      if e < 0 { return e; }
      ghost var k := EndFrom(c.tokens, i + 1, 0);
      EndBeforeLast(b, c, i + 1, 0);
      OffMonotone(c.raws, i, k);
      NopIsDelete(c.tokens, i, k, (Off(c.raws, k) - nodeoffset) / 4);
      NopOut(nodeoffset, e - nodeoffset, i, k);
      err := 0;
    }

    /** fdt_num_mem_rsv: the number of the first reserve entry with size zero, or an error when none
        lies inside the blob. */
    method NumMemRsv() returns (r: int)
      requires Valid()
      ensures r == TRUNCATED || r >= 0
      ensures r >= 0 ==> b.h.offRsvmap + 16 * (r + 1) <= |b.bytes| && ZeroSize(b.bytes, b.h.offRsvmap + 16 * r)
      ensures forall k :: 0 <= k && (r >= 0 ==> k < r) && b.h.offRsvmap + 16 * (k + 1) <= |b.bytes| ==>
        !ZeroSize(b.bytes, b.h.offRsvmap + 16 * k)
    {
      TreeHeader(b, c);
      r := 0;
      while true
        invariant 0 <= r && b.h.offRsvmap + 16 * r <= |b.bytes|
        invariant forall k :: 0 <= k < r ==> !ZeroSize(b.bytes, b.h.offRsvmap + 16 * k)
        decreases |b.bytes| - 16 * r
      {
        var a := b.h.offRsvmap + 16 * r;
        if a > b.h.totalSize - 16 { return TRUNCATED; }
        if ZeroSize(b.bytes, a) { return; }
        r := r + 1;
      }
    }

    /** fdt_pack: the blocks move together and the free space is cut off; the tree stays the same. */
    method Pack(ghost n: nat) returns (err: int)
      requires Valid() && Reserved(b, c, n)
      modifies this
      ensures Valid() && err == 0
      ensures c.tokens == old(c.tokens) && c.strs == old(c.strs) && c.mid == [] && c.free == []
      ensures |c.low| == HEADER_SIZE + 16 * (n + 1)
      ensures c.low[HEADER_SIZE..] == old(c.low)[old(b).h.offRsvmap..old(b).h.offRsvmap + 16 * (n + 1)]
    {
      err := Probe();
      if err != 0 { return; }
      var num := NumMemRsv();
      TreeHeader(b, c);
      var rsvsize, structsize, strsize := (num + 1) * 16, b.h.sizeStruct, b.h.sizeStrings;
      var structoff := HEADER_SIZE + rsvsize;
      var stroff := structoff + structsize;
      ghost var x, g, y, g2 := LowParts(b, c, rsvsize);
      var m := PackBytes(b.bytes, b.h.offRsvmap, rsvsize, b.h.offStruct, structsize, b.h.offStrings, strsize,
                         x, g, y, g2, c.block, c.mid, c.strs, c.free);
      var total := stroff + strsize;
      ghost var nb := PackedTree(b, c, x + y);
      b := Blob(b.h.(offRsvmap := HEADER_SIZE, offStruct := structoff, offStrings := stroff, totalSize := total), m[..total]);
      c := c.(low := x + y, mid := [], free := []);
    }
  }

  // ----- packing -----

  predicate ZeroSize(m: seq<byte>, a: nat)
    requires a + 16 <= |m|
  {
    Get32(m, a + 8) == 0 && Get32(m, a + 12) == 0
  }

  /** The reserve map has n entries and its end entry, all below the structure block. */
  ghost predicate Reserved(b: Blob, c: Parts, n: nat) {
    && b.h.offRsvmap + 16 * (n + 1) <= |c.low| <= |b.bytes|
    && ZeroSize(b.bytes, b.h.offRsvmap + 16 * n)
    && forall k :: 0 <= k < n ==> !ZeroSize(b.bytes, b.h.offRsvmap + 16 * k)
  }

  /** A block y moved down over the gap g. */
  method PackBlock(m: seq<byte>, to: nat, from: nat, len: nat,
                   ghost x: seq<byte>, ghost g: seq<byte>, ghost y: seq<byte>, ghost z: seq<byte>)
    returns (w: seq<byte>, ghost g': seq<byte>)
    requires m == x + g + y + z && to == |x| && from == |x| + |g| && len == |y|
    ensures |g'| == |g| && w == x + y + g' + z
  {
    ghost var u := g + y;
    g' := u[|y|..];
    assert m == x + u + z && m[from..from + len] == y;
    PutInside(x, u, z, 0, y);
    w := PutBytes(m, to, m[from..from + len]);
  }

  /** fdt_packblocks_: the reserve map, the structure block and the strings move down in turn. */
  method PackBytes(m0: seq<byte>, rsvoff: nat, rsvsize: nat, structoff: nat, structsize: nat, stroff: nat, strsize: nat,
                   ghost x: seq<byte>, ghost g: seq<byte>, ghost y: seq<byte>, ghost g2: seq<byte>,
                   ghost k: seq<byte>, ghost d: seq<byte>, ghost s: seq<byte>, ghost f: seq<byte>)
    returns (m: seq<byte>)
    requires m0 == (x + g + y + g2) + k + d + s + f && |x| == HEADER_SIZE
    requires rsvoff == |x| + |g| && rsvsize == |y| && structoff == rsvoff + |y| + |g2| && structsize == |k|
    requires stroff == structoff + |k| + |d| && strsize == |s|
    ensures |m| == |m0| && HEADER_SIZE + rsvsize + structsize + strsize <= |m|
    ensures m[..HEADER_SIZE + rsvsize + structsize + strsize] == (x + y) + k + s
  {
    ghost var h1, h2, h3;
    Packing(x, y, g, g2, k, d, s, f);
    m, h1 := PackBlock(m0, HEADER_SIZE, rsvoff, rsvsize, x, g, y, g2 + k + d + s + f);
    Packing(x, y, h1, g2, k, d, s, f);
    m, h2 := PackBlock(m, HEADER_SIZE + rsvsize, structoff, structsize, x + y, h1 + g2, k, d + s + f);
    Packing(x, y, h2, [], k, d, s, f);
    m, h3 := PackBlock(m, HEADER_SIZE + rsvsize + structsize, stroff, strsize, x + y + k, h2 + d, s, f);
  }

  /** The same bytes, grouped for each of the three moves. */
  lemma Packing(x: seq<byte>, y: seq<byte>, g: seq<byte>, g2: seq<byte>, k: seq<byte>, d: seq<byte>, s: seq<byte>, f: seq<byte>)
    ensures (x + g + y + g2) + k + d + s + f == x + g + y + (g2 + k + d + s + f)
    ensures x + y + g + (g2 + k + d + s + f) == (x + y) + (g + g2) + k + (d + s + f)
    ensures (x + y) + k + g + (d + s + f) == (x + y + k) + (g + d) + s + f
  {
  }

  /** The parts of the space below the structure block. */
  lemma LowParts(b: Blob, c: Parts, n: nat) returns (x: seq<byte>, g: seq<byte>, y: seq<byte>, g2: seq<byte>)
    requires HEADER_SIZE <= b.h.offRsvmap && b.h.offRsvmap + n <= |c.low|
    ensures c.low == x + g + y + g2 && |x| == HEADER_SIZE && |x| + |g| == b.h.offRsvmap && |y| == n
    ensures y == c.low[b.h.offRsvmap..b.h.offRsvmap + n]
  {
    x, g := c.low[..HEADER_SIZE], c.low[HEADER_SIZE..b.h.offRsvmap];
    y, g2 := c.low[b.h.offRsvmap..b.h.offRsvmap + n], c.low[b.h.offRsvmap + n..];
  }

  lemma PackedTree(b: Blob, c: Parts, low: seq<byte>) returns (nb: Blob)
    requires Folded(TreeIs(b, c)) && HEADER_SIZE + 16 <= |low| <= |c.low|
    ensures |low| + |c.block| + |c.strs| <= INT_MAX
    ensures nb == Blob(b.h.(offRsvmap := HEADER_SIZE, offStruct := |low|, offStrings := |low| + |c.block|,
                            totalSize := |low| + |c.block| + |c.strs|), low + c.block + c.strs)
    ensures Folded(TreeIs(nb, c.(low := low, mid := [], free := [])))
  {
    assert Unseal(0);
    var c' := c.(low := low, mid := [], free := []);
    assert c'.Buffer() == low + c.block + c.strs;
    nb := Blob(b.h.(offRsvmap := HEADER_SIZE, offStruct := |low|, offStrings := |low| + |c.block|,
                    totalSize := |low| + |c.block| + |c.strs|), low + c.block + c.strs);
  }

  /** The loop of fdt_add_subnode_namelen: the offset after the properties of the node at token i. */
  method PlaceForNode(b: Blob, parentoffset: i32, ghost c: Parts, ghost i: nat) returns (offset: i32)
    requires Folded(TreeIs(b, c)) && i + 1 < |c.raws| && parentoffset == Off(c.raws, i)
    ensures |c.tokens| == |c.raws|
    ensures var k := AfterProps(c.tokens, i + 1); k < |c.raws| && offset == Off(c.raws, k)
  {
    var tag, next := TagStep(b, parentoffset, c, i);
    offset := next;
    ghost var k := i + 1;
    tag, next := TagStep(b, offset, c, k);
    while tag == PROP || tag == NOP
      invariant i < k < |c.raws| == |c.tokens| && offset == Off(c.raws, k)
      invariant tag == TagOfToken(c.tokens[k]) && next == Off(c.raws, k + 1) >= 0 && (tag != END ==> k + 1 < |c.raws|)
      invariant AfterProps(c.tokens, i + 1) == AfterProps(c.tokens, k)
      decreases |c.raws| - k
    {
      offset, k := next, k + 1;
      tag, next := TagStep(b, offset, c, k);
    }
  }

  /** A buffer is opened at any tokens, unchanged. */
  lemma OpenedAsIs(b: Blob, c: Parts, i: nat, j: nat, h: Hole)
    requires Folded(TreeIs(b, c)) && i <= j <= |c.raws| && c.block == h.s1 + h.s2 + h.s3 && h.f == c.free
    requires |h.s1| == Off(c.raws, i) && |h.s2| == Size(c.raws[i..j])
    ensures Folded(Opened(b, b, c, i, j, h, h.s2))
  {
    TreeHeader(b, c);
    Regroup(c.low, h.s1, h.s2, h.s3, c.mid, c.strs, c.free);
  }

  /** Tokens written over tokens of the same size leave a tree. */
  lemma OverwriteCloses(b: Blob, c: Parts, i: nat, j: nat, w: seq<byte>, ns: seq<Raw>, nt: seq<Token>, at: nat)
    returns (nb: Blob, c': Parts)
    requires Folded(TreeIs(b, c)) && i <= j < |c.raws| && Off(c.raws, i) + |w| == Off(c.raws, j)
    requires |ns| == |nt| && forall k :: 0 <= k < |ns| ==> !ns[k].RFin? && NamedFromStart(c.strs, ns[k], nt[k])
    requires Folded(Layout(w, ns)) && at == |c.low| + Off(c.raws, i)
    ensures at + |w| <= |b.bytes| && |c.tokens| == |c.raws| && nb == b.(bytes := PutBytes(b.bytes, at, w))
    ensures Folded(TreeIs(nb, c')) && c'.low == c.low && c'.tokens == Edit(c.tokens, i, j, nt)
  {
    var s1, s2, s3 := CutAt(b, c, i, j);
    var h := Hole(s1, s2, s3, c.free);
    OpenedAsIs(b, c, i, j, h);
    var t2;
    nb, t2 := OpenedPut(b, b, c, i, j, h, s2, at, 0, w);
    PutWhole(s2, w);
    Closes(nb, b, c, i, j, h, t2, ns, nt);
    c' := ClosedParts(c, i, j, h, t2, ns, nt);
  }

  lemma Words(a: nat, b: nat) returns (n: nat)
    requires a <= b && a % 4 == 0 && b % 4 == 0
    ensures a + 4 * n == b && n == (b - a) / 4
  {
    n := (b - a) / 4;
  }

  lemma NopCloses(b: Blob, c: Parts, i: nat, j: nat, at: nat) returns (n: nat, nb: Blob, c': Parts)
    requires Folded(TreeIs(b, c)) && i <= j < |c.raws| && at == |c.low| + Off(c.raws, i)
    ensures Off(c.raws, i) + 4 * n == Off(c.raws, j) && at + 4 * n <= |b.bytes| && |c.tokens| == |c.raws|
    ensures n == (Off(c.raws, j) - Off(c.raws, i)) / 4
    ensures nb == b.(bytes := PutBytes(b.bytes, at, NopBytes(n)))
    ensures Folded(TreeIs(nb, c')) && c'.low == c.low && c'.tokens == Edit(c.tokens, i, j, Times(n, Nop))
  {
    OffMonotone(c.raws, i, j);
    SizeAligned(c.raws[..i]);
    SizeAligned(c.raws[..j]);
    n := Words(Off(c.raws, i), Off(c.raws, j));
    NopLayout(n);
    nb, c' := OverwriteCloses(b, c, i, j, NopBytes(n), Times(n, RNop), Times(n, Nop), at);
  }

  /** fdt_get_name: the length of the name of the node at token i. */
  method NameLength(b: Blob, offset: i32, ghost c: Parts, ghost i: nat) returns (len: nat)
    requires Folded(TreeIs(b, c)) && i < |c.raws| && offset == Off(c.raws, i) && c.raws[i].RBegin?
    ensures len == |c.raws[i].name|
  {
    TreeStruct(b, c);
    StructAt(b, c.raws, i);
    SizeAligned(c.raws[..i]);
    NameSkipped(b, offset, c.raws[i].name);
    len := SkipName(b, offset + 4) - (offset + 4) - 1;
  }

  lemma RenameCloses(b: Blob, b0: Blob, c: Parts, i: nat, h: Hole, t0: seq<byte>, name: CString, at: nat)
    returns (nb: Blob, c': Parts)
    requires Folded(TreeIs(b0, c)) && i + 1 < |c.raws| && c.raws[i].RBegin? && |t0| == 4 + TagAlign(|name| + 1) && 4 + |name| + 1 <= |t0|
    requires |h.s2| >= 4 && t0[..4] == h.s2[..4] && at == |c.low| + Off(c.raws, i) + 4
    requires Folded(Opened(b, b0, c, i, i + 1, h, t0))
    ensures at + |name| + 1 <= |b.bytes| && nb == b.(bytes := PutBytes(b.bytes, at, name + [0]))
    ensures |c.tokens| == |c.raws| && Folded(TreeIs(nb, c')) && c'.low == c.low && c'.tokens == Edit(c.tokens, i, i + 1, [BeginNode(name)])
  {
    var tag, data := t0[..4], t0[4..];
    OpenedFacts(b, b0, c, i, i + 1, h, t0);
    HoleToken(b0, c, i, h);
    var t;
    nb, t := OpenedPut(b, b0, c, i, i + 1, h, t0, at, 4, name + [0]);
    assert t == tag + PutBytes(data, 0, name + [0]);
    assert forall k :: 0 <= k < 4 ==> tag[k] == h.s2[..4][k] == h.s2[k];
    Get32Move(h.s2, 0, tag, 0);
    NameTokenRewritten(tag, data, name);
    Closes(nb, b0, c, i, i + 1, h, t, [RBegin(name)], [BeginNode(name)]);
    c' := ClosedParts(c, i, i + 1, h, t, [RBegin(name)], [BeginNode(name)]);
  }

  lemma NodeCloses(b: Blob, b0: Blob, c: Parts, k: nat, h: Hole, t0: seq<byte>, name: CString, at: nat)
    returns (nb: Blob, c': Parts)
    requires Folded(TreeIs(b0, c)) && k < |c.raws| && |name| < TagAlign(|name| + 1) && |t0| == 8 + TagAlign(|name| + 1)
    requires Folded(Opened(b, b0, c, k, k, h, t0)) && at == |c.low| + Off(c.raws, k)
    ensures at + 8 + TagAlign(|name| + 1) <= |b.bytes| && nb == b.(bytes := NodeStores(b.bytes, at, name))
    ensures |c.tokens| == |c.raws| && Folded(TreeIs(nb, c')) && c'.low == c.low && c'.tokens == Edit(c.tokens, k, k, [BeginNode(name), EndNode])
  {
    OpenedFacts(b, b0, c, k, k, h, t0);
    NodeLayout(name);
    nb, c' := WholeCloses(b, b0, c, k, h, t0, NodeBytes(name), [RBegin(name), REnd], [BeginNode(name), EndNode], at);
    NodeStored(b.bytes, at, name);
  }

  /** Bytes w that encode new tokens, written over the whole opened part. */
  lemma WholeCloses(b: Blob, b0: Blob, c: Parts, k: nat, h: Hole, t0: seq<byte>, w: seq<byte>, ns: seq<Raw>, nt: seq<Token>, at: nat)
    returns (nb: Blob, c': Parts)
    requires Folded(TreeIs(b0, c)) && k < |c.raws| && |t0| == |w| && Folded(Opened(b, b0, c, k, k, h, t0))
    requires |ns| == |nt| && forall k :: 0 <= k < |ns| ==> !ns[k].RFin? && NamedFromStart(c.strs, ns[k], nt[k])
    requires Folded(Layout(w, ns)) && at == |c.low| + Off(c.raws, k)
    ensures at + |w| <= |b.bytes| && nb == b.(bytes := PutBytes(b.bytes, at, w))
    ensures |c.tokens| == |c.raws| && Folded(TreeIs(nb, c')) && c'.low == c.low && c'.tokens == Edit(c.tokens, k, k, nt)
  {
    OpenedFacts(b, b0, c, k, k, h, t0);
    var t;
    nb, t := OpenedPut(b, b0, c, k, k, h, t0, at, 0, w);
    PutWhole(t0, w);
    Closes(nb, b0, c, k, k, h, t, ns, nt);
    c' := ClosedParts(c, k, k, h, t, ns, nt);
  }

  /** The sum of the length test does not wrap, or is too large even so. */
  predicate LengthTestRight(idx: u32, len: nat, proplen: nat) {
    idx + len < TWO32 || idx + len - TWO32 > proplen
  }

  /** The length test of fdt_setprop_inplace_namelen_partial agrees with the bounds of the value
      exactly then ... */
  lemma LengthTest(idx: u32, len: nat, proplen: nat)
    requires len <= INT_MAX && proplen <= INT_MAX
    ensures (proplen < U32(len + idx) <==> proplen < idx + len) <==> LengthTestRight(idx, len, proplen)
  {
    if idx + len >= TWO32 { assert U32(len + idx) == idx + len - TWO32; }
  }

  /** ... so it lets two bytes at index 0xffffffff pass for a value of one byte. */
  lemma LengthTestMisses()
    ensures !(1 < U32(2 + 0xffff_ffff)) && 1 < 0xffff_ffff + 2
  {
    assert U32(0x1_0000_0001) == 1;
  }

  /** A property with val written over its data from idx on. */
  lemma PropPatched(s2: seq<byte>, nameoff: u32, v: seq<byte>, idx: nat, val: seq<byte>)
    requires |s2| == RawSize(RProp(nameoff, v)) && RawAt(s2, 0, RProp(nameoff, v)) && idx + |val| <= |v| <= TagAlign(|v|)
    ensures Folded(Layout(PutBytes(s2, 12 + idx, val), [RProp(nameoff, PutBytes(v, idx, val))]))
  {
    var t := PutBytes(s2, 12 + idx, val);
    Get32Move(s2, 0, t, 0);
    Get32Move(s2, 4, t, 4);
    Get32Move(s2, 8, t, 8);
    LayoutOne(t, RProp(nameoff, PutBytes(v, idx, val)));
  }

  lemma InplaceCloses(b: Blob, c: Parts, k: nat, idx: nat, val: seq<byte>, at: nat) returns (nb: Blob, c': Parts)
    requires Folded(TreeIs(b, c)) && k + 1 < |c.raws| && c.raws[k].RProp? && idx + |val| <= |c.raws[k].value|
    requires at == |c.low| + Off(c.raws, k) + 12 + idx
    ensures at + |val| <= |b.bytes| && nb == b.(bytes := PutBytes(b.bytes, at, val))
    ensures |c.tokens| == |c.raws| && c.tokens[k].Prop? && c.tokens[k].value == c.raws[k].value
    ensures Folded(TreeIs(nb, c')) && c'.low == c.low
    ensures c'.tokens == Edit(c.tokens, k, k + 1, [Prop(c.tokens[k].pname, PutBytes(c.tokens[k].value, idx, val))])
  {
    TokenNamed(b, c, k);
    var s1, s2, s3 := CutAt(b, c, k, k + 1);
    var h := Hole(s1, s2, s3, c.free);
    HoleToken(b, c, k, h);
    OpenedAsIs(b, c, k, k + 1, h);
    TagAlignShift(0, |c.raws[k].value|);
    var t;
    nb, t := OpenedPut(b, b, c, k, k + 1, h, s2, at, 12 + idx, val);
    PropPatched(s2, c.raws[k].nameoff, c.raws[k].value, idx, val);
    var nr := RProp(c.raws[k].nameoff, PutBytes(c.raws[k].value, idx, val));
    var nt := Prop(c.tokens[k].pname, PutBytes(c.tokens[k].value, idx, val));
    assert NamedFromStart(c.strs, nr, nt);
    Closes(nb, b, c, k, k + 1, h, t, [nr], [nt]);
    c' := ClosedParts(c, k, k + 1, h, t, [nr], [nt]);
  }

  lemma ValueInBlock(b: Blob, c: Parts, k: nat)
    requires Folded(TreeIs(b, c)) && k < |c.raws| && c.raws[k].RProp?
    ensures |c.raws[k].value| <= |c.block|
  {
    assert Unseal(0);
    LayoutSize(c.block, c.raws);
    OffMonotone(c.raws, k + 1, |c.raws|);
    OffStep(c.raws, k);
    TagAlignShift(0, |c.raws[k].value|);
  }

  /** The stores of a new property in the opened block make the tree with that property. */
  lemma InsertCloses(b: Blob, b0: Blob, c: Parts, i: nat, h: Hole, t0: seq<byte>, nameoff: u32, name: CString, val: seq<byte>, at: nat)
    returns (nb: Blob, c': Parts)
    requires Folded(TreeIs(b0, c)) && i < |c.raws| && Folded(Opened(b, b0, c, i, i, h, t0)) && at == |c.low| + Off(c.raws, i)
    requires |val| <= INT_MAX - 32 && |t0| == RawSize(RProp(nameoff, val)) <= INT_MAX && |b.bytes| <= INT_MAX
    requires Folded(NameAt(c.strs, nameoff, name))
    ensures at + 12 + |val| <= |b.bytes| && nb == b.(bytes := PropStores(b.bytes, at, nameoff, val))
    ensures |c.tokens| == |c.raws| && Folded(TreeIs(nb, c')) && c'.low == c.low && c'.tokens == Edit(c.tokens, i, i, [Prop(name, val)])
  {
    var r := RProp(nameoff, val);
    OpenedFacts(b, b0, c, i, i, h, t0);
    BodyPut(t0, r);
    var t;
    nb, t := OpenedPut(b, b0, c, i, i, h, t0, at, 0, Body(r));
    LayoutOne(t, r);
    Closes(nb, b0, c, i, i, h, t, [r], [Prop(name, val)]);
    c' := ClosedParts(c, i, i, h, t, [r], [Prop(name, val)]);
    PropStored(b.bytes, at, nameoff, val);
  }

  /** The tree b0 has been opened at property k; its data up to start is still in place. */
  ghost predicate Refillable(b: Blob, b0: Blob, c: Parts, k: nat, h: Hole, t0: seq<byte>, start: nat, val: seq<byte>) {
    && Folded(TreeIs(b0, c)) && Folded(Opened(b, b0, c, k, k + 1, h, t0))
    && k + 1 < |c.raws| && c.raws[k].RProp? && start <= |c.raws[k].value| && start + |val| <= INT_MAX - 16
    && |t0| == 12 + TagAlign(start + |val|)
    && 12 + start <= |h.s2| && 12 + start <= |t0| && t0[..12 + start] == h.s2[..12 + start]
  }

  lemma PropLaidOut(b: Blob, b0: Blob, c: Parts, k: nat, h: Hole, t0: seq<byte>, start: nat, val: seq<byte>)
    requires Folded(Refillable(b, b0, c, k, h, t0, start, val))
    ensures start + |val| < TWO32 && 12 + start + |val| <= |t0|
    ensures Folded(Layout(PutBytes(Put32(t0, 4, start + |val|), 12 + start, val),
                          [RProp(c.raws[k].nameoff, c.raws[k].value[..start] + val)]))
  {
    OpenedFacts(b, b0, c, k, k + 1, h, t0);
    HoleToken(b0, c, k, h);
    TagAlignShift(0, start + |val|);
    TagAlignShift(0, |c.raws[k].value|);
    PropRefilled(t0, h.s2, c.raws[k].nameoff, c.raws[k].value, start, val);
  }

  lemma RefillCloses(b: Blob, b0: Blob, c: Parts, k: nat, h: Hole, t0: seq<byte>, start: nat, val: seq<byte>, a: nat)
    returns (nb: Blob, c': Parts)
    requires Folded(Refillable(b, b0, c, k, h, t0, start, val)) && k < |c.raws| && a == |c.low| + Off(c.raws, k)
    ensures a + 12 + start + |val| <= |b.bytes| && start + |val| < TWO32
    ensures nb == b.(bytes := PutBytes(Put32(b.bytes, a + 4, start + |val|), a + 12 + start, val))
    ensures |c.tokens| == |c.raws| && c.tokens[k].Prop? && start <= |c.tokens[k].value|
    ensures Folded(TreeIs(nb, c')) && c'.low == c.low
    ensures c'.tokens == Edit(c.tokens, k, k + 1, [Prop(c.tokens[k].pname, c.tokens[k].value[..start] + val)])
  {
    OpenedFacts(b, b0, c, k, k + 1, h, t0);
    PropLaidOut(b, b0, c, k, h, t0, start, val);
    var nb1, t1 := OpenedPut(b, b0, c, k, k + 1, h, t0, a + 4, 4, Be32(start + |val|));
    var t;
    nb, t := OpenedPut(nb1, b0, c, k, k + 1, h, t1, a + 12 + start, 12 + start, val);
    var nt;
    c', nt := PropClosed(nb, b0, c, k, h, t, start, val);
  }

  lemma PropClosed(b: Blob, b0: Blob, c: Parts, k: nat, h: Hole, t: seq<byte>, start: nat, val: seq<byte>)
    returns (c': Parts, nt: Token)
    requires Folded(TreeIs(b0, c)) && Folded(Opened(b, b0, c, k, k + 1, h, t)) && k + 1 < |c.raws|
    requires c.raws[k].RProp? && start <= |c.raws[k].value|
    requires Folded(Layout(t, [RProp(c.raws[k].nameoff, c.raws[k].value[..start] + val)]))
    ensures |c.tokens| == |c.raws| && c.tokens[k].Prop? && start <= |c.tokens[k].value|
    ensures nt == Prop(c.tokens[k].pname, c.tokens[k].value[..start] + val)
    ensures Folded(TreeIs(b, c')) && c'.low == c.low && c'.tokens == Edit(c.tokens, k, k + 1, [nt])
  {
    TokenNamed(b0, c, k);
    var nr := RProp(c.raws[k].nameoff, c.raws[k].value[..start] + val);
    nt := Prop(c.tokens[k].pname, c.tokens[k].value[..start] + val);
    assert NamedFromStart(c.strs, nr, nt);
    Closes(b, b0, c, k, k + 1, h, t, [nr], [nt]);
    c' := ClosedParts(c, k, k + 1, h, t, [nr], [nt]);
  }

  /** The end of a node comes before the end tag. */
  lemma EndBeforeLast(b: Blob, c: Parts, j: nat, d: nat)
    requires Folded(TreeIs(b, c)) && j <= |c.raws| == |c.tokens|
    ensures EndFrom(c.tokens, j, d) < |c.raws|
  {
    TreeHeader(b, c);
    TokenKinds(b, c, |c.raws| - 1);
    EndAfterClose(c.tokens, j, d);
  }

  lemma {:induction false} EndAfterClose(ts: seq<Token>, j: nat, d: nat)
    requires j <= |ts|
    ensures var e := EndFrom(ts, j, d); e >= 0 ==> j < e && ts[e - 1].EndNode?
    decreases |ts| - j
  {
    if j < |ts| && !ts[j].End? && !(ts[j].EndNode? && d == 0) {
      EndAfterClose(ts, j + 1, if ts[j].EndNode? then d - 1 else if ts[j].BeginNode? then d + 1 else d);
    }
  }
}
