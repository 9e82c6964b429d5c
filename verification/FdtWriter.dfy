/** The sequential writer of libfdt (fdt_sw.c): tokens grow upwards from the reserve map,
    strings grow downwards from the end of the buffer and are named by negative offsets,
    and fdt_finish closes the gap and rewrites every offset. */
module FdtWriter {
  import opened Sealing
  import opened FdtFormat
  import opened FdtReader

  const CREATE_HEADER := 48   // the header rounded up to a reserve entry

  // ----- strings named from the end of the table -----

  /** Token t is raw token r with its name looked up at a distance from the table's end. */
  ghost predicate NamedFromEnd(strs: seq<byte>, r: Raw, t: Token) {
    match r
    case RBegin(name) => t == BeginNode(name)
    case REnd => t == EndNode
    case RNop => t == Nop
    case RFin => t == End
    case RProp(nameoff, v) =>
      t.Prop? && t.value == v && NameAt(strs, |strs| - (TWO32 - nameoff), t.pname)
  }

  /** The same, looked up from the table's start: what fdt_finish must establish. */
  ghost predicate NamedFromStart(strs: seq<byte>, r: Raw, t: Token) {
    match r
    case RProp(nameoff, v) => t.Prop? && t.value == v && NameAt(strs, nameoff, t.pname)
    case _ => NamedFromEnd(strs, r, t)
  }

  /** What fdt_finish makes of a token: the offset counts from the other end. */
  function Relocated(r: Raw, strsize: nat): Raw {
    match r
    case RProp(nameoff, v) => RProp(U32(S32(nameoff) + strsize), v)
    case _ => r
  }

  lemma RelocatedName(strs: seq<byte>, r: Raw, t: Token)
    requires |strs| <= INT_MAX && NamedFromEnd(strs, r, t)
    ensures NamedFromStart(strs, Relocated(r, |strs|), t) && RawSize(Relocated(r, |strs|)) == RawSize(r)
    ensures TagOf(Relocated(r, |strs|)) == TagOf(r)
  {
    if r.RProp? {
      var d := TWO32 - r.nameoff;
      assert 0 < d <= |strs|;
      assert S32(r.nameoff) == -d;
    }
  }

  /** A string added below the table leaves every older name where it was from the end. */
  lemma NamesSurvive(strs: seq<byte>, more: seq<byte>, r: Raw, t: Token)
    requires NamedFromEnd(strs, r, t)
    ensures NamedFromEnd(more + strs, r, t)
  {
    if r.RProp? {
      var at := |strs| - (TWO32 - r.nameoff);
      forall k | 0 <= k < |t.pname|
        ensures (more + strs)[|more| + at + k] == t.pname[k]
      {
        assert strs[at + k] == t.pname[k];
      }
    }
  }

  // ----- what a buffer holds while it is being written -----

  /** What the calls so far have written.  The buffer is, in this order: the header's
      place, the reserve map, the structure block, free space, the string table. */
  datatype Contents = Contents(
    pre: seq<byte>, rsv: seq<byte>, block: seq<byte>, gap: seq<byte>, strs: seq<byte>,  // the parts of the buffer
    raws: seq<Raw>,                                                                     // tokens of the block
    tokens: seq<Token>)                                                                 // the same, as the caller gave them
  {
    function Head(): seq<byte> { pre + rsv }
    function Buffer(): seq<byte> { Head() + block + gap + strs }
    function Append(chunk: seq<byte>, rest: seq<byte>, r: Raw, t: Token): Contents {
      this.(block := block + chunk, gap := rest, raws := raws + [r], tokens := tokens + [t])
    }
  }

  /** The header while writing. */
  function SwHeader(c: Contents, started: bool): Header
    requires |c.Buffer()| <= INT_MAX
  {
    Header(FDT_SW_MAGIC, |c.Buffer()|, |c.Head()|, if started then |c.Buffer()| else 0, CREATE_HEADER, 17, 2,
           |c.strs|, |c.block|)
  }

  ghost predicate AllNamed(strs: seq<byte>, raws: seq<Raw>, tokens: seq<Token>) {
    && |tokens| == |raws|
    && forall k :: 0 <= k < |raws| ==> !raws[k].RFin? && NamedFromEnd(strs, raws[k], tokens[k])
  }

  /** Buffer b is being written and holds c. */
  ghost predicate Writing(b: Blob, started: bool, c: Contents) {
    forall n: int :: Unseal(n) ==> WritingDef(b, started, c)
  }

  ghost predicate WritingDef(b: Blob, started: bool, c: Contents) {
    && b.bytes == c.Buffer() && |c.pre| == CREATE_HEADER && |b.bytes| <= INT_MAX
    && b.h == SwHeader(c, started)
    && (!started ==> c.block == [] && c.strs == [])
    && Folded(Layout(c.block, c.raws)) && Folded(AllNamed(c.strs, c.raws, c.tokens))
  }

  /** The header words of a buffer that is being written. */
  lemma WritingHeader(b: Blob, started: bool, c: Contents)
    requires Folded(Writing(b, started, c))
    ensures |b.bytes| == b.h.totalSize == |c.Head()| + |c.block| + |c.gap| + |c.strs| <= INT_MAX
    ensures b.h.magic == FDT_SW_MAGIC && b.h.offStruct == |c.Head()| && b.h.sizeStruct == |c.block|
    ensures b.h.sizeStrings == |c.strs| && b.h.offStrings == (if started then b.h.totalSize else 0)
    ensures b.h.totalSize >= CREATE_HEADER && (!started ==> c.block == [] && c.strs == [])
  {
    assert Unseal(0);
  }

  // ----- the effect of each call on the bytes of the buffer -----

  /** The bytes of a token up to its padding. */
  function Body(r: Raw): seq<byte> {
    match r
    case RBegin(name) => Be32(BEGIN_NODE) + (name + [0])
    case RProp(nameoff, v) => Be32(PROP) + (Be32(U32(|v|)) + (Be32(nameoff) + v))
    case _ => Be32(TagOf(r))
  }

  lemma BodyFits(r: Raw)
    ensures |Body(r)| <= RawSize(r)
  {
    match r
    case RBegin(name) => TagAlignShift(0, |name| + 1);
    case RProp(_, v) => TagAlignShift(0, |v|);
    case _ =>
  }

  lemma WordIn(w: seq<byte>, at: nat, b: seq<byte>, k: nat, x: u32)
    requires k + 4 <= |b| && at + |b| <= |w|
    requires w[at..at + |b|] == b && b[k..k + 4] == Be32(x)
    ensures Get32(w, at + k) == x
  {
    forall i | at + k <= i < at + k + 4
      ensures w[i] == b[i - (at + k) + k]
    {
      assert w[at..at + |b|][i - at] == w[i];
    }
    Get32Move(b, k, w, at + k);
  }

  lemma BytesIn(w: seq<byte>, at: nat, b: seq<byte>, k: nat, v: seq<byte>)
    requires k + |v| <= |b| && at + |b| <= |w|
    requires w[at..at + |b|] == b && b[k..k + |v|] == v
    ensures BytesAt(w, at + k, v)
  {
    forall i | 0 <= i < |v|
      ensures w[at + k + i] == v[i]
    {
      assert w[at..at + |b|][k + i] == b[k..k + |v|][i];
    }
  }

  lemma BeginBodyReads(w: seq<byte>, at: nat, name: seq<byte>)
    requires at + RawSize(RBegin(name)) <= |w| && NoNul(name)
    requires |Body(RBegin(name))| <= RawSize(RBegin(name)) && w[at..at + |Body(RBegin(name))|] == Body(RBegin(name))
    ensures RawAt(w, at, RBegin(name))
  {
    var b := Body(RBegin(name));
    assert b[0..4] == Be32(BEGIN_NODE) && b[4..4 + |name|] == name && b[4 + |name|..4 + |name| + 1] == [0];
    WordIn(w, at, b, 0, BEGIN_NODE);
    BytesIn(w, at, b, 4, name);
    BytesIn(w, at, b, 4 + |name|, [0]);
    assert w[at + (4 + |name|) + 0] == [0][0];
  }

  lemma PropBodyReads(w: seq<byte>, at: nat, nameoff: u32, v: seq<byte>)
    requires at + RawSize(RProp(nameoff, v)) <= |w| && |v| < TWO32
    requires |Body(RProp(nameoff, v))| <= RawSize(RProp(nameoff, v))
    requires w[at..at + |Body(RProp(nameoff, v))|] == Body(RProp(nameoff, v))
    ensures RawAt(w, at, RProp(nameoff, v))
  {
    var b := Body(RProp(nameoff, v));
    FourParts(b, Be32(PROP), Be32(|v|), Be32(nameoff), v);
    WordIn(w, at, b, 0, PROP);
    WordIn(w, at, b, 4, |v|);
    WordIn(w, at, b, 8, nameoff);
    BytesIn(w, at, b, 12, v);
  }

  lemma FourParts(b: seq<byte>, w0: seq<byte>, w1: seq<byte>, w2: seq<byte>, v: seq<byte>)
    requires |w0| == |w1| == |w2| == 4 && b == w0 + (w1 + (w2 + v))
    ensures b[0..4] == w0 && b[4..8] == w1 && b[8..12] == w2 && b[12..12 + |v|] == v
  {
  }

  lemma BodyReads(w: seq<byte>, at: nat, r: Raw)
    requires at + RawSize(r) <= |w|
    requires |Body(r)| <= RawSize(r) && w[at..at + |Body(r)|] == Body(r)
    requires r.RBegin? ==> NoNul(r.name)
    requires r.RProp? ==> |r.value| < TWO32
    ensures RawAt(w, at, r)
  {
    match r
    case RBegin(name) => BeginBodyReads(w, at, name);
    case RProp(nameoff, v) => PropBodyReads(w, at, nameoff, v);
    case _ => WordIn(w, at, Body(r), 0, TagOf(r));
  }

  lemma BodyPut(y: seq<byte>, r: Raw)
    requires |y| == RawSize(r) <= INT_MAX && (r.RBegin? ==> NoNul(r.name))
    ensures |Body(r)| <= |y| && RawAt(PutBytes(y, 0, Body(r)), 0, r)
  {
    BodyFits(r);
    if r.RProp? { TagAlignShift(0, |r.value|); }
    assert PutBytes(y, 0, Body(r))[0..|Body(r)|] == Body(r);
    BodyReads(PutBytes(y, 0, Body(r)), 0, r);
  }

  /** The gap is cut at n bytes, and the first part is filled from its start. */
  lemma GapFilled(c: Contents, n: nat, b: seq<byte>)
    requires |b| <= n <= |c.gap|
    ensures PutBytes(c.Buffer(), |c.Head()| + |c.block|, b) ==
      c.Head() + (c.block + PutBytes(c.gap[..n], 0, b)) + c.gap[n..] + c.strs
  {
    var x, y, z := c.Head() + c.block, c.gap[..n], c.gap[n..] + c.strs;
    assert c.Buffer() == x + y + z;
    PutInside(x, y, z, 0, b);
  }

  lemma NamedGrow(strs: seq<byte>, raws: seq<Raw>, tokens: seq<Token>, r: Raw, t: Token)
    requires AllNamed(strs, raws, tokens) && !r.RFin? && NamedFromEnd(strs, r, t)
    ensures AllNamed(strs, raws + [r], tokens + [t])
  {
    forall k | 0 <= k < |raws + [r]|
      ensures Folded(!(raws + [r])[k].RFin? && NamedFromEnd(strs, (raws + [r])[k], (tokens + [t])[k]))
    {
      if k < |raws| {
        assert (raws + [r])[k] == raws[k] && (tokens + [t])[k] == tokens[k];
      }
    }
  }

  /** The contents after a token has been stored at the top of the structure block. */
  function WithToken(c: Contents, r: Raw, t: Token): Contents
    requires |Body(r)| <= RawSize(r) <= |c.gap|
  {
    c.Append(PutBytes(c.gap[..RawSize(r)], 0, Body(r)), c.gap[RawSize(r)..], r, t)
  }

  lemma BlockGrows(c: Contents, r: Raw)
    requires Layout(c.block, c.raws) && (r.RBegin? ==> NoNul(r.name))
    requires RawSize(r) <= |c.gap| && RawSize(r) <= INT_MAX
    ensures |Body(r)| <= RawSize(r)
    ensures Folded(Layout(c.block + PutBytes(c.gap[..RawSize(r)], 0, Body(r)), c.raws + [r]))
  {
    BodyPut(c.gap[..RawSize(r)], r);
    LayoutOne(PutBytes(c.gap[..RawSize(r)], 0, Body(r)), r);
    LayoutConcat(c.block, c.raws, PutBytes(c.gap[..RawSize(r)], 0, Body(r)), [r]);
  }

  lemma TokenLayout(b: Blob, c: Contents, r: Raw, chunk: seq<byte>)
    requires Folded(Writing(b, true, c)) && (r.RBegin? ==> NoNul(r.name)) && RawSize(r) <= |c.gap| && RawSize(r) <= INT_MAX
    requires |Body(r)| <= RawSize(r) && chunk == PutBytes(c.gap[..RawSize(r)], 0, Body(r))
    ensures Folded(Layout(c.block + chunk, c.raws + [r]))
  {
    assert Unseal(0);
    BlockGrows(c, r);
  }

  lemma TokenNames(b: Blob, c: Contents, r: Raw, t: Token)
    requires Folded(Writing(b, true, c)) && !r.RFin? && Folded(NamedFromEnd(c.strs, r, t))
    ensures Folded(AllNamed(c.strs, c.raws + [r], c.tokens + [t]))
  {
    assert Unseal(0);
    NamedGrow(c.strs, c.raws, c.tokens, r, t);
  }

  lemma TokenBytes(b: Blob, c: Contents, r: Raw, p: nat, chunk: seq<byte>, rest: seq<byte>)
    requires Folded(Writing(b, true, c)) && |Body(r)| <= RawSize(r) <= |c.gap| && p == |c.Head()| + |c.block|
    requires chunk == PutBytes(c.gap[..RawSize(r)], 0, Body(r)) && rest == c.gap[RawSize(r)..]
    ensures p + |Body(r)| <= |b.bytes| && PutBytes(b.bytes, p, Body(r)) == c.Head() + (c.block + chunk) + rest + c.strs
  {
    assert Unseal(0);
    GapFilled(c, RawSize(r), Body(r));
  }

  /** The parts of a writer's buffer after a token of the given chunk. */
  lemma TokenWriting(b: Blob, c: Contents, c': Contents, h: Header, m: seq<byte>, n: nat)
    requires Folded(Writing(b, true, c)) && c'.pre == c.pre && c'.rsv == c.rsv && c'.strs == c.strs
    requires |c'.block| == |c.block| + n && |c'.gap| + n == |c.gap| && |c'.block| <= INT_MAX
    requires m == c'.Head() + c'.block + c'.gap + c'.strs && h == b.h.(sizeStruct := |c'.block|)
    requires Folded(Layout(c'.block, c'.raws)) && Folded(AllNamed(c'.strs, c'.raws, c'.tokens))
    ensures Folded(Writing(Blob(h, m), true, c'))
  {
    assert Unseal(0);
  }

  /** Storing the body of a token at the top of the block appends that token; h is the header
      that fdt_grab_space_ leaves. */
  lemma TokenStored(b: Blob, c: Contents, r: Raw, t: Token, p: nat, h: Header, m: seq<byte>) returns (c': Contents)
    requires Folded(Writing(b, true, c)) && RawSize(r) <= |c.gap| && |c.block| + RawSize(r) <= INT_MAX
    requires !r.RFin? && Folded(NamedFromEnd(c.strs, r, t)) && (r.RBegin? ==> NoNul(r.name))
    requires p == |c.Head()| + |c.block| && h == b.h.(sizeStruct := |c.block| + RawSize(r)) && p + |Body(r)| <= |b.bytes|
    requires m == PutBytes(b.bytes, p, Body(r))
    ensures |Body(r)| <= RawSize(r) && c' == WithToken(c, r, t) && Folded(Writing(Blob(h, m), true, c'))
  {
    BodyFits(r);
    var n := RawSize(r);
    var chunk, rest := PutBytes(c.gap[..n], 0, Body(r)), c.gap[n..];
    TokenLayout(b, c, r, chunk);
    TokenNames(b, c, r, t);
    TokenBytes(b, c, r, p, chunk, rest);
    c' := c.Append(chunk, rest, r, t);
    TokenWriting(b, c, c', h, m, n);
  }

  /** The stores of fdt_begin_node and of fdt_end_node. */
  lemma BeginWritten(b: Blob, c: Contents, name: CString, p: nat, h: Header) returns (m: seq<byte>, c': Contents)
    requires Folded(Writing(b, true, c)) && RawSize(RBegin(name)) <= |c.gap| && |c.block| + RawSize(RBegin(name)) <= INT_MAX
    requires p == |c.Head()| + |c.block| && h == b.h.(sizeStruct := |c.block| + RawSize(RBegin(name)))
    ensures p + 4 + |name| + 1 <= |b.bytes| && m == PutBytes(Put32(b.bytes, p, BEGIN_NODE), p + 4, name + [0])
    ensures |Body(RBegin(name))| <= RawSize(RBegin(name)) && c' == WithToken(c, RBegin(name), BeginNode(name))
    ensures Folded(Writing(Blob(h, m), true, c'))
  {
    WritingHeader(b, true, c);
    TagAlignShift(0, |name| + 1);
    m := PutBytes(Put32(b.bytes, p, BEGIN_NODE), p + 4, name + [0]);
    PutTwice(b.bytes, p, Be32(BEGIN_NODE), name + [0]);
    c' := TokenStored(b, c, RBegin(name), BeginNode(name), p, h, m);
  }

  lemma EndWritten(b: Blob, c: Contents, p: nat, h: Header) returns (m: seq<byte>, c': Contents)
    requires Folded(Writing(b, true, c)) && 4 <= |c.gap| && |c.block| + 4 <= INT_MAX
    requires p == |c.Head()| + |c.block| && h == b.h.(sizeStruct := |c.block| + 4)
    ensures p + 4 <= |b.bytes| && m == Put32(b.bytes, p, END_NODE)
    ensures |Body(REnd)| <= RawSize(REnd) && c' == WithToken(c, REnd, EndNode) && Folded(Writing(Blob(h, m), true, c'))
  {
    WritingHeader(b, true, c);
    m := Put32(b.bytes, p, END_NODE);
    c' := TokenStored(b, c, REnd, EndNode, p, h, m);
  }

  lemma NamesKept(strs: seq<byte>, more: seq<byte>, raws: seq<Raw>, tokens: seq<Token>)
    requires AllNamed(strs, raws, tokens)
    ensures AllNamed(more + strs, raws, tokens)
  {
    forall k | 0 <= k < |raws|
      ensures Folded(NamedFromEnd(more + strs, raws[k], tokens[k]))
    {
      NamesSurvive(strs, more, raws[k], tokens[k]);
    }
  }

  function WithString(c: Contents, s: seq<byte>): Contents
    requires |s| <= |c.gap|
  {
    c.(strs := s + c.strs, gap := c.gap[..|c.gap| - |s|])
  }

  /** Writing over the end of a gap, or over its start. */
  lemma PutGapEnd(x: seq<byte>, g1: seq<byte>, g2: seq<byte>, z: seq<byte>, v: seq<byte>)
    requires |g2| == |v|
    ensures PutBytes(x + (g1 + g2) + z, |x| + |g1|, v) == x + g1 + (v + z)
  {
    JoinLeft(x, g1, g2);
    PutInside(x + g1, g2, z, 0, v);
    PutWhole(g2, v);
    JoinLeft(x + g1, v, z);
  }

  lemma JoinLeft(a: seq<byte>, b: seq<byte>, c: seq<byte>)
    ensures a + (b + c) == a + b + c
  {
  }

  lemma PutGapStart(x: seq<byte>, g1: seq<byte>, g2: seq<byte>, v: seq<byte>)
    requires |g1| == |v|
    ensures PutBytes(x + (g1 + g2), |x|, v) == x + v + g2
  {
    JoinLeft(x, g1, g2);
    PutInside(x, g1, g2, 0, v);
    PutWhole(g1, v);
  }

  lemma StringPut(c: Contents, s: seq<byte>)
    requires |s| <= |c.gap|
    ensures PutBytes(c.Buffer(), |c.Buffer()| - |c.strs| - |s|, s) == WithString(c, s).Buffer()
  {
    var n := |c.gap| - |s|;
    var x, g1, g2 := c.Head() + c.block, c.gap[..n], c.gap[n..];
    assert c.gap == g1 + g2;
    PutGapEnd(x, g1, g2, c.strs, s);
  }

  /** Storing a string below the table adds it to the table. */
  lemma StringWritten(b: Blob, c: Contents, s: seq<byte>)
    requires Folded(Writing(b, true, c)) && |s| <= |c.gap|
    ensures |c.strs| + |s| <= |b.bytes| <= INT_MAX
    ensures Folded(Writing(Blob(b.h.(sizeStrings := |c.strs| + |s|), PutBytes(b.bytes, |b.bytes| - |c.strs| - |s|, s)),
                           true, WithString(c, s)))
  {
    assert Unseal(0);
    StringPut(c, s);
    NamesKept(c.strs, s, c.raws, c.tokens);
  }

  // ----- names added on demand -----

  /** Some place of the table holds s: by itself or as the tail of a longer name. */
  ghost predicate Known(strs: seq<byte>, s: seq<byte>) {
    exists q :: NameAt(strs, q, s)
  }

  /** The contents after a name has been asked for. */
  ghost function Interned(c: Contents, s: seq<byte>): Contents {
    if Known(c.strs, s) || |s| + 1 > |c.gap| then c else WithString(c, s + [0])
  }

  lemma NewName(strs: seq<byte>, s: CString)
    ensures NameAt((s + [0]) + strs, 0, s)
  {
    var t := (s + [0]) + strs;
    assert forall k :: 0 <= k < |s| ==> t[0 + k] == s[k];
    assert t[|s|] == 0;
  }

  lemma NegativeName(strs: seq<byte>, nameoff: int, name: seq<byte>, v: seq<byte>)
    requires -|strs| <= nameoff < 0 && |strs| <= INT_MAX && Folded(NameAt(strs, |strs| + nameoff, name))
    ensures Folded(NamedFromEnd(strs, RProp(U32(nameoff), v), Prop(name, v)))
  {
    assert U32(nameoff) == TWO32 + nameoff;
  }

  /** The stores of fdt_property_placeholder, in the order of the code, and the copy of the value. */
  function PropStores(m: seq<byte>, p: nat, nameoff: u32, v: seq<byte>): seq<byte>
    requires p + 12 + |v| <= |m| <= INT_MAX
  {
    PutBytes(Put32(Put32(Put32(m, p, PROP), p + 8, nameoff), p + 4, |v|), p + 12, v)
  }

  /** Four stores that fill a region, in the order first, third, second, fourth. */
  lemma FourStores(m: seq<byte>, p: nat, w0: seq<byte>, w1: seq<byte>, w2: seq<byte>, v: seq<byte>)
    requires |w0| == |w1| == |w2| == 4 && p + 12 + |v| <= |m|
    ensures PutBytes(PutBytes(PutBytes(PutBytes(m, p, w0), p + 8, w2), p + 4, w1), p + 12, v)
         == PutBytes(m, p, w0 + (w1 + (w2 + v)))
  {
    var x, z := m[..p], m[p + 12 + |v|..];
    var o1, o2, o3 := m[p + 4..p + 8], m[p + 8..p + 12], m[p + 12..p + 12 + |v|];
    var m1 := PutBytes(m, p, w0);
    assert m1 == x + w0 + o1 + o2 + o3 + z;
    var m2 := PutBytes(m1, p + 8, w2);
    assert m2 == x + w0 + o1 + w2 + o3 + z;
    var m3 := PutBytes(m2, p + 4, w1);
    assert m3 == x + w0 + w1 + w2 + o3 + z;
  }

  lemma PropStored(m: seq<byte>, p: nat, nameoff: u32, v: seq<byte>)
    requires p + 12 + |v| <= |m| <= INT_MAX
    ensures PropStores(m, p, nameoff, v) == PutBytes(m, p, Body(RProp(nameoff, v)))
  {
    FourStores(m, p, Be32(PROP), Be32(|v|), Be32(nameoff), v);
  }

  /** The stores of a property whose name is in the table append that property. */
  lemma PropertyWritten(b: Blob, c: Contents, nameoff: int, name: seq<byte>, v: seq<byte>, no: u32, p: nat, h: Header)
    returns (m: seq<byte>, c': Contents)
    requires Folded(Writing(b, true, c)) && RawSize(RProp(0, v)) <= |c.gap| && |c.block| + RawSize(RProp(0, v)) <= INT_MAX
    requires -|c.strs| <= nameoff < 0 && Folded(NameAt(c.strs, |c.strs| + nameoff, name)) && no == U32(nameoff)
    requires p == |c.Head()| + |c.block| && h == b.h.(sizeStruct := |c.block| + RawSize(RProp(0, v)))
    ensures p + 12 + |v| <= |b.bytes| <= INT_MAX && m == PropStores(b.bytes, p, no, v)
    ensures |Body(RProp(no, v))| <= RawSize(RProp(no, v)) && c' == WithToken(c, RProp(no, v), Prop(name, v))
    ensures Folded(Writing(Blob(h, m), true, c'))
  {
    WritingHeader(b, true, c);
    TagAlignShift(0, |v|);
    assert RawSize(RProp(no, v)) == RawSize(RProp(0, v));
    NegativeName(c.strs, nameoff, name, v);
    m := PropStores(b.bytes, p, no, v);
    PropStored(b.bytes, p, no, v);
    c' := TokenStored(b, c, RProp(no, v), Prop(name, v), p, h, m);
  }

  // ----- finishing: strings move down, names are counted from the start -----

  function RelocatedAll(rs: seq<Raw>, n: nat): (qs: seq<Raw>)
    ensures |qs| == |rs| && forall k :: 0 <= k < |rs| ==> qs[k] == Relocated(rs[k], n)
  {
    seq(|rs|, k requires 0 <= k < |rs| => Relocated(rs[k], n))
  }

  lemma {:induction false} RelocatedSize(rs: seq<Raw>, n: nat)
    ensures Size(RelocatedAll(rs, n)) == Size(rs)
  {
    if rs != [] {
      RelocatedSize(rs[1..], n);
      assert RelocatedAll(rs, n)[1..] == RelocatedAll(rs[1..], n);
    }
  }

  /** The tokens when the loop of fdt_finish has passed i of them. */
  function Mixed(rs: seq<Raw>, n: nat, i: nat): seq<Raw>
    requires i <= |rs|
  {
    RelocatedAll(rs[..i], n) + rs[i..]
  }

  lemma RelocatedSnoc(rs: seq<Raw>, r: Raw, n: nat)
    ensures RelocatedAll(rs + [r], n) == RelocatedAll(rs, n) + [Relocated(r, n)]
  {
  }

  lemma MixedShape(rs: seq<Raw>, n: nat, i: nat)
    requires i < |rs|
    ensures Mixed(rs, n, i) == RelocatedAll(rs[..i], n) + [rs[i]] + rs[i + 1..]
    ensures Mixed(rs, n, i + 1) == RelocatedAll(rs[..i], n) + [Relocated(rs[i], n)] + rs[i + 1..]
  {
    assert rs[i..] == [rs[i]] + rs[i + 1..];
    assert rs[..i + 1] == rs[..i] + [rs[i]];
    RelocatedSnoc(rs[..i], rs[i], n);
  }

  lemma MixedStep(rs: seq<Raw>, n: nat, i: nat)
    requires i < |rs|
    ensures Mixed(rs, n, i) == RelocatedAll(rs[..i], n) + [rs[i]] + rs[i + 1..]
    ensures Mixed(rs, n, i + 1) == RelocatedAll(rs[..i], n) + [Relocated(rs[i], n)] + rs[i + 1..]
    ensures Off(Mixed(rs, n, i), i) == Off(rs, i) && Mixed(rs, n, i)[i] == rs[i]
    ensures Off(rs, i + 1) == Off(Mixed(rs, n, i), i + 1)
  {
    MixedShape(rs, n, i);
    RelocatedSize(rs[..i], n);
    assert Mixed(rs, n, i)[..i] == RelocatedAll(rs[..i], n);
    OffStep(rs, i);
    OffStep(Mixed(rs, n, i), i);
  }

  lemma GetPut(y: seq<byte>, k: nat, x: u32)
    requires k + 4 <= |y|
    ensures Get32(Put32(y, k, x), k) == x
  {
    var t := Put32(y, k, x);
    assert t[k..k + 4] == Be32(x);
  }

  /** Rewriting the name word of one property changes that property's name offset only. */
  lemma NameWordRewritten(y: seq<byte>, nameoff: u32, v: seq<byte>, x: u32)
    requires RawAt(y, 0, RProp(nameoff, v)) && |y| == RawSize(RProp(nameoff, v))
    ensures RawAt(Put32(y, 8, x), 0, RProp(x, v))
  {
    var t := Put32(y, 8, x);
    GetPut(y, 8, x);
    Get32Move(y, 0, t, 0);
    Get32Move(y, 4, t, 4);
    TagAlignShift(0, |v|);
    forall k | 0 <= k < |v|
      ensures t[12 + k] == v[k]
    {
      assert t[12 + k] == y[12 + k];
    }
  }

  /** ... and in a block, no other token. */
  lemma NameRewritten(s1: seq<byte>, ps: seq<Raw>, s2: seq<byte>, nameoff: u32, v: seq<byte>,
                      s3: seq<byte>, qs: seq<Raw>, x: u32)
    requires Folded(Layout(s1 + s2 + s3, ps + [RProp(nameoff, v)] + qs))
    requires |s1| == Size(ps) && |s2| == RawSize(RProp(nameoff, v))
    ensures Get32(s1 + s2 + s3, |s1| + 8) == nameoff
    ensures Folded(Layout(Put32(s1 + s2 + s3, |s1| + 8, x), ps + [RProp(x, v)] + qs))
  {
    var r, t2 := RProp(nameoff, v), Put32(s2, 8, x);
    assert Size([r]) == |s2|;
    assert Folded(RawAt(s2, 0, r)) by {
      SizeConcat(ps, [r]);
      LayoutSplit(s1 + s2, ps + [r], s3, qs);
      LayoutSplit(s1, ps, s2, [r]);
    }
    assert Get32(s2, 8) == nameoff;
    Get32Move(s2, 8, s1 + s2 + s3, |s1| + 8);
    assert Folded(Layout(t2, [RProp(x, v)])) by {
      NameWordRewritten(s2, nameoff, v, x);
      LayoutOne(t2, RProp(x, v));
    }
    LayoutSplice(s1, ps, s2, [r], s3, qs, t2, [RProp(x, v)]);
    PutInside(s1, s2, s3, 8, Be32(x));
  }

  lemma NameRewrittenIn(blk: seq<byte>, ps: seq<Raw>, nameoff: u32, v: seq<byte>, qs: seq<Raw>, x: u32)
    requires Folded(Layout(blk, ps + [RProp(nameoff, v)] + qs))
    ensures Size(ps) + 12 <= |blk|
    ensures Get32(blk, Size(ps) + 8) == nameoff
    ensures Folded(Layout(Put32(blk, Size(ps) + 8, x), ps + [RProp(x, v)] + qs))
  {
    var s1, s2, s3 := LayoutCut(blk, ps, [RProp(nameoff, v)], qs);
    NameRewritten(s1, ps, s2, nameoff, v, s3, qs, x);
  }

  lemma MixedParts(rs: seq<Raw>, n: nat, i: nat) returns (ps: seq<Raw>, qs: seq<Raw>)
    requires i < |rs|
    ensures Mixed(rs, n, i) == ps + [rs[i]] + qs && Mixed(rs, n, i + 1) == ps + [Relocated(rs[i], n)] + qs
    ensures Size(ps) == Off(rs, i)
  {
    ps, qs := RelocatedAll(rs[..i], n), rs[i + 1..];
    MixedStep(rs, n, i);
    RelocatedSize(rs[..i], n);
  }

  /** One turn of the loop, on the block alone: the property r between the tokens ps and qs gets
      the name offset x, and no other token changes. */
  lemma LoopTurn(blk: seq<byte>, rs: seq<Raw>, rs': seq<Raw>, ps: seq<Raw>, r: Raw, qs: seq<Raw>, x: u32, r': Raw)
    requires rs == ps + [r] + qs && rs' == ps + [r'] + qs && r.RProp? && r' == RProp(x, r.value)
    requires Folded(Layout(blk, rs))
    ensures Size(ps) + 12 <= |blk| && Get32(blk, Size(ps) + 8) == r.nameoff
    ensures Folded(Layout(Put32(blk, Size(ps) + 8, x), rs'))
  {
    assert r == RProp(r.nameoff, r.value);
    NameRewrittenIn(blk, ps, r.nameoff, r.value, qs, x);
  }

  /** The room test of fdt_find_add_string_ subtracts in 32 unsigned bits.  It agrees with
      the intended test exactly when the new string would not by itself overrun the buffer. */
  lemma RoomTest(total: nat, strsize: nat, len: nat, top: nat)
    requires top + strsize <= total <= INT_MAX && 0 < len <= INT_MAX
    ensures (U32(total - strsize - len) >= top <==> top + strsize + len <= total) <==> strsize + len <= total
  {
    if strsize + len > total {
      assert U32(total - strsize - len) == total - strsize - len + TWO32;
    }
  }

  /** ... so a name longer than the rest of the buffer passes the test without fitting. */
  lemma RoomTestMisses()
    ensures U32(100 - 0 - 200) >= 64 && 64 + 0 + 200 > 100
  {
    assert U32(-100) == TWO32 - 100;
  }

  /** What the loop works on: the head, the block and the moved table in one buffer. */
  ghost predicate InLoop(b: Blob, head: seq<byte>, blk: seq<byte>, rest: seq<byte>, rs: seq<Raw>) {
    forall n: int :: Unseal(n) ==> InLoopDef(b, head, blk, rest, rs)
  }

  ghost predicate InLoopDef(b: Blob, head: seq<byte>, blk: seq<byte>, rest: seq<byte>, rs: seq<Raw>) {
    && b.bytes == head + blk + rest && |b.bytes| <= INT_MAX
    && b.h.totalSize == |b.bytes| && b.h.version == 17
    && b.h.offStruct == |head| && b.h.sizeStruct == |blk|
    && Folded(Layout(blk, rs))
  }

  lemma InLoopStruct(b: Blob, head: seq<byte>, blk: seq<byte>, rest: seq<byte>, rs: seq<Raw>)
    requires Folded(InLoop(b, head, blk, rest, rs))
    ensures Folded(StructIs(b, rs))
  {
    assert Unseal(0);
    assert b.bytes[b.h.offStruct..b.h.offStruct + b.h.sizeStruct] == blk;
  }

  /** The walk of the loop is the walk over the original tokens. */
  lemma LoopWalk(b: Blob, head: seq<byte>, blk: seq<byte>, rest: seq<byte>, rs: seq<Raw>, n: nat, i: nat)
    requires i < |rs| && Folded(InLoop(b, head, blk, rest, Mixed(rs, n, i)))
    ensures b.Ok() && Off(rs, i) <= Off(rs, i + 1) <= INT_MAX
    ensures NextTag(b, Off(rs, i)) == (TagOf(rs[i]), Off(rs, i + 1))
  {
    assert b.Ok() && |blk| <= INT_MAX && |blk| == b.h.sizeStruct by { assert Unseal(0); }
    MixedStep(rs, n, i);
    InLoopStruct(b, head, blk, rest, Mixed(rs, n, i));
    NextTagAt(b, Mixed(rs, n, i), i);
  }

  lemma LoopParts(b: Blob, head: seq<byte>, blk: seq<byte>, rest: seq<byte>, rs: seq<Raw>)
    requires Folded(InLoop(b, head, blk, rest, rs))
    ensures b.bytes == head + blk + rest && b.h.offStruct == |head| && Folded(Layout(blk, rs))
  {
    assert Unseal(0);
  }

  /** A word of the block, read and written through the whole buffer. */
  lemma LoopWord(b: Blob, head: seq<byte>, blk: seq<byte>, rest: seq<byte>, k: nat, at: nat, x: u32)
    requires b.bytes == head + blk + rest && k + 4 <= |blk| && at == |head| + k
    ensures at + 4 <= |b.bytes| && Get32(b.bytes, at) == Get32(blk, k)
    ensures Put32(b.bytes, at, x) == head + Put32(blk, k, x) + rest
  {
    Get32Move(blk, k, b.bytes, at);
    PutInside(head, blk, rest, k, Be32(x));
  }

  lemma LoopPut(b: Blob, head: seq<byte>, blk: seq<byte>, rest: seq<byte>, rs: seq<Raw>, m: seq<byte>, blk': seq<byte>, rs': seq<Raw>)
    requires Folded(InLoop(b, head, blk, rest, rs)) && |blk'| == |blk| && m == head + blk' + rest && Folded(Layout(blk', rs'))
    ensures Folded(InLoop(b.(bytes := m), head, blk', rest, rs'))
  {
    assert Unseal(0);
  }

  /** One property's turn, on the whole buffer. */
  lemma LoopStore(b: Blob, head: seq<byte>, blk: seq<byte>, rest: seq<byte>, rs: seq<Raw>, n: nat, i: nat, at: nat)
    requires i < |rs| && rs[i].RProp? && Folded(InLoop(b, head, blk, rest, Mixed(rs, n, i)))
    requires at == b.h.offStruct + Off(rs, i) + 8
    ensures Off(rs, i) + 12 <= |blk| && at + 4 <= |b.bytes|
    ensures var x := U32(S32(Get32(b.bytes, at)) + n);
            Folded(InLoop(b.(bytes := Put32(b.bytes, at, x)), head, Put32(blk, Off(rs, i) + 8, x), rest,
                          Mixed(rs, n, i + 1)))
  {
    LoopParts(b, head, blk, rest, Mixed(rs, n, i));
    var ps, qs := MixedParts(rs, n, i);
    LoopStoreAs(b, head, blk, rest, Mixed(rs, n, i), Mixed(rs, n, i + 1), ps, rs[i], qs, U32(S32(rs[i].nameoff) + n), at);
  }

  lemma LoopStoreAs(b: Blob, head: seq<byte>, blk: seq<byte>, rest: seq<byte>, rs: seq<Raw>, rs': seq<Raw>,
                    ps: seq<Raw>, r: Raw, qs: seq<Raw>, x: u32, at: nat)
    requires Folded(InLoop(b, head, blk, rest, rs)) && r.RProp?
    requires rs == ps + [r] + qs && rs' == ps + [RProp(x, r.value)] + qs && at == b.h.offStruct + Size(ps) + 8
    ensures Size(ps) + 12 <= |blk| && at + 4 <= |b.bytes| && Get32(b.bytes, at) == r.nameoff
    ensures Folded(InLoop(b.(bytes := Put32(b.bytes, at, x)), head, Put32(blk, Size(ps) + 8, x), rest, rs'))
  {
    LoopParts(b, head, blk, rest, rs);
    LoopTurn(blk, rs, rs', ps, r, qs, x, RProp(x, r.value));
    var k := Size(ps) + 8;
    LoopWord(b, head, blk, rest, k, at, x);
    LoopPut(b, head, blk, rest, rs, Put32(b.bytes, at, x), Put32(blk, k, x), rs');
  }

  lemma MixedSkip(rs: seq<Raw>, n: nat, i: nat)
    requires i < |rs| && !rs[i].RProp?
    ensures Mixed(rs, n, i + 1) == Mixed(rs, n, i)
  {
    MixedStep(rs, n, i);
  }

  // ----- creating and resizing -----

  /** A 64-bit big-endian word (cpu_to_fdt64). */
  type u64 = x: int | 0 <= x < 0x1_0000_0000_0000_0000
  function Be64(x: u64): (w: seq<byte>)
    ensures |w| == 8
  {
    Be32(x / TWO32) + Be32(x % TWO32)
  }

  function Zeros(n: nat): (z: seq<byte>)
    ensures |z| == n
  {
    seq(n, _ => 0)
  }

  /** The contents of a new buffer of a given size. */
  function Created(bufsize: nat): Contents
    requires CREATE_HEADER <= bufsize
  {
    Contents(Zeros(CREATE_HEADER), [], [], Zeros(bufsize - CREATE_HEADER), [], [], [])
  }

  lemma NewBuffer(bufsize: nat)
    requires CREATE_HEADER <= bufsize <= INT_MAX
    ensures Folded(Writing(Blob(Header(FDT_SW_MAGIC, bufsize, CREATE_HEADER, 0, CREATE_HEADER, 17, 2, 0, 0), Zeros(bufsize)),
                           false, Created(bufsize)))
  {
    assert Created(bufsize).Buffer() == Zeros(bufsize);
  }

  function WithReserve(c: Contents, e: seq<byte>): Contents
    requires |e| <= |c.gap|
  {
    c.(rsv := c.rsv + e, gap := c.gap[|e|..])
  }

  lemma ReserveBytes(c: Contents, e: seq<byte>, bytes: seq<byte>)
    requires |e| <= |c.gap| && bytes == c.Buffer() && c.block == [] && c.strs == []
    ensures PutBytes(bytes, |c.Head()|, e) == WithReserve(c, e).Buffer()
  {
    var x, g1, g2 := c.Head(), c.gap[..|e|], c.gap[|e|..];
    assert c.gap == g1 + g2;
    assert x + c.block == x && x + c.gap + c.strs == x + c.gap;
    PutGapStart(x, g1, g2, e);
    ReserveParts(c.pre, c.rsv, e, g2);
  }

  lemma ReserveParts(pre: seq<byte>, rsv: seq<byte>, e: seq<byte>, g: seq<byte>)
    ensures (pre + rsv) + e + g == pre + (rsv + e) + [] + g + []
  {
  }

  lemma ReserveWriting(b: Blob, c: Contents, e: seq<byte>, m: seq<byte>)
    requires Folded(Writing(b, false, c)) && |e| <= |c.gap| && m == WithReserve(c, e).Buffer() && |c.Head()| + |e| <= INT_MAX
    ensures Folded(Writing(Blob(b.h.(offStruct := |c.Head()| + |e|), m), false, WithReserve(c, e)))
  {
    assert Unseal(0);
  }

  lemma ReserveWritten(b: Blob, c: Contents, e: seq<byte>)
    requires Folded(Writing(b, false, c)) && |e| <= |c.gap|
    ensures |c.Head()| + |e| <= |b.bytes| <= INT_MAX
    ensures Folded(Writing(Blob(b.h.(offStruct := |c.Head()| + |e|), PutBytes(b.bytes, |c.Head()|, e)),
                           false, WithReserve(c, e)))
  {
    WritingHeader(b, false, c);
    assert b.bytes == c.Buffer() && c.block == [] && c.strs == [] by { assert Unseal(0); }
    ReserveBytes(c, e, b.bytes);
    ReserveWriting(b, c, e, PutBytes(b.bytes, |c.Head()|, e));
  }

  lemma PutAt(m: seq<byte>, at: nat, v: seq<byte>)
    requires at + |v| <= |m|
    ensures BytesAt(PutBytes(m, at, v), at, v)
  {
  }

  lemma PutBeside(m: seq<byte>, to: nat, v: seq<byte>, at: nat, w: seq<byte>)
    requires to + |v| <= |m| && BytesAt(m, at, w) && (at + |w| <= to || to + |v| <= at)
    ensures BytesAt(PutBytes(m, to, v), at, w)
  {
  }

  lemma BytesSlice(m: seq<byte>, at: nat, v: seq<byte>)
    requires BytesAt(m, at, v)
    ensures m[at..at + |v|] == v
  {
  }

  /** memmove of a known run of bytes. */
  method MoveBytes(mem: array<byte>, dst: nat, src: nat, n: nat, ghost v: seq<byte>)
    requires Folded(BytesAt(mem[..], src, v)) && |v| == n && dst + n <= mem.Length
    modifies mem
    ensures mem[..] == PutBytes(old(mem[..]), dst, v)
  {
    BytesSlice(mem[..], src, v);
    assert mem[src..src + n] == mem[..][src..src + n];
    Memmove(mem, dst, src, n);
  }

  /** The moves of fdt_resize, in the order of the code: however the old and the new buffer
      overlap, the head x and the tail z arrive unharmed. */
  method MoveBuffer(mem: array<byte>, fdt: nat, buf: nat, headsize: nat, oldtail: nat, newtail: nat, tailsize: nat,
                    ghost x: seq<byte>, ghost z: seq<byte>)
    requires |x| == headsize && |z| == tailsize
    requires fdt + headsize <= oldtail && buf + headsize <= newtail && newtail + tailsize <= mem.Length
    requires Folded(BytesAt(mem[..], fdt, x)) && Folded(BytesAt(mem[..], oldtail, z))
    modifies mem
    ensures Folded(BytesAt(mem[..], buf, x)) && Folded(BytesAt(mem[..], newtail, z))
  {
    ghost var m := mem[..];
    if buf <= fdt {
      PutAt(m, buf, x);
      PutBeside(m, buf, x, oldtail, z);
      MoveBytes(mem, buf, fdt, headsize, x);
      PutAt(mem[..], newtail, z);
      PutBeside(mem[..], newtail, z, buf, x);
      MoveBytes(mem, newtail, oldtail, tailsize, z);
    } else {
      PutAt(m, newtail, z);
      PutBeside(m, newtail, z, fdt, x);
      MoveBytes(mem, newtail, oldtail, tailsize, z);
      PutAt(mem[..], buf, x);
      PutBeside(mem[..], buf, x, newtail, z);
      MoveBytes(mem, buf, fdt, headsize, x);
    }
  }

  /** Before: head and tail lie at the two ends of the buffer. */
  lemma EndsOf(m: seq<byte>, fdt: nat, x: seq<byte>, g: seq<byte>, z: seq<byte>)
    requires Folded(BytesAt(m, fdt, x + g + z))
    ensures Folded(BytesAt(m, fdt, x)) && Folded(BytesAt(m, fdt + |x| + |g|, z))
  {
    var w := x + g + z;
    forall k | 0 <= k < |x|
      ensures m[fdt + k] == x[k]
    {
      assert w[k] == x[k];
    }
    forall k | 0 <= k < |z|
      ensures m[fdt + |x| + |g| + k] == z[k]
    {
      assert m[fdt + (|x| + |g| + k)] == w[|x| + |g| + k];
    }
  }

  /** After: the new window is head, some gap and tail. */
  lemma WindowOf(m: seq<byte>, buf: nat, x: seq<byte>, g: nat, z: seq<byte>)
    requires Folded(BytesAt(m, buf, x)) && Folded(BytesAt(m, buf + |x| + g, z))
    ensures buf + |x| + g + |z| <= |m|
    ensures m[buf..buf + |x| + g + |z|] == x + m[buf + |x|..buf + |x| + g] + z
  {
  }

  lemma BlockStarts(b: Blob, c: Contents)
    requires Folded(Writing(b, false, c))
    ensures Folded(Writing(b.(h := b.h.(offStrings := b.h.totalSize)), true, c))
  {
    assert Unseal(0);
  }

  /** The same contents in a buffer with another gap. */
  lemma Regapped(b: Blob, started: bool, c: Contents, g: seq<byte>)
    requires Folded(Writing(b, started, c)) && |c.Head()| + |c.block| + |g| + |c.strs| <= INT_MAX
    ensures var bytes := c.Head() + c.block + g + c.strs;
            Folded(Writing(Blob(b.h.(totalSize := |bytes|, offStrings := if b.h.offStrings != 0 then |bytes| else 0), bytes),
                           started, c.(gap := g)))
  {
    assert Unseal(0);
    var d := c.(gap := g);
    assert d.Buffer() == c.Head() + c.block + g + c.strs;
    assert d.Head() == c.Head() && |c.Buffer()| >= CREATE_HEADER;
  }

  // ----- the writer as an object -----

  /** A finished blob holds c: no gap, and the end tag closes the block. */
  ghost predicate Finished(b: Blob, c: Contents) {
    forall n: int :: Unseal(n) ==> FinishedDef(b, c)
  }

  ghost predicate FinishedDef(b: Blob, c: Contents) {
    && b.bytes == c.Head() + c.block + c.strs && |c.pre| == CREATE_HEADER && |b.bytes| <= INT_MAX
    && b.h == Header(FDT_MAGIC, |b.bytes|, |c.Head()|, |c.Head()| + |c.block|, CREATE_HEADER, 17, 2,
                     |c.strs|, |c.block|)
    && Folded(Layout(c.block, c.raws))
    && |c.raws| == |c.tokens| + 1 && c.raws[|c.tokens|] == RFin
    && Folded(forall k :: 0 <= k < |c.tokens| ==> !c.raws[k].RFin? && NamedFromStart(c.strs, c.raws[k], c.tokens[k]))
  }

  /** Moving the table down over the gap keeps its bytes, overlapping or not. */
  lemma TableMoved(x: seq<byte>, g: seq<byte>, strs: seq<byte>)
    ensures PutBytes(x + g + strs, |x|, strs) == x + PutBytes(g + strs, 0, strs)
    ensures PutBytes(g + strs, 0, strs)[..|strs|] == strs
  {
    PutInside(x, g + strs, [], 0, strs);
    assert x + (g + strs) + [] == x + g + strs;
    assert x + PutBytes(g + strs, 0, strs) + [] == x + PutBytes(g + strs, 0, strs);
  }

  /** The end tag closes the block. */
  lemma EndTagged(b: Blob, c: Contents) returns (blk: seq<byte>, bytes: seq<byte>)
    requires Folded(Writing(b, true, c)) && 4 <= |c.gap|
    ensures |blk| == |c.block| + 4 && |c.Head()| + |blk| + |c.strs| <= |b.bytes| <= INT_MAX
    ensures Folded(Layout(blk, c.raws + [RFin]))
    ensures bytes == Put32(b.bytes, |c.Head()| + |c.block|, END) && bytes == (c.Head() + blk) + c.gap[4..] + c.strs
  {
    assert Unseal(0);
    PutWhole(c.gap[..4], Be32(END));
    BlockGrows(c, RFin);
    GapFilled(c, 4, Be32(END));
    blk, bytes := c.block + Be32(END), Put32(b.bytes, |c.Head()| + |c.block|, END);
  }

  lemma TableSlice(m: seq<byte>, x: seq<byte>, g: seq<byte>, strs: seq<byte>, from: nat) returns (t: seq<byte>)
    requires m == x + g + strs && from == |x| + |g|
    ensures from + |strs| <= |m| && t == m[from..from + |strs|] && t == strs
  {
    t := m[from..from + |strs|];
  }

  lemma MoveDown(m: seq<byte>, x: seq<byte>, g: seq<byte>, strs: seq<byte>, from: nat, size: nat)
    returns (rest: seq<byte>, moved: seq<byte>)
    requires m == x + g + strs && from == |x| + |g| && size == |strs|
    ensures |strs| <= |rest| && rest[..|strs|] == strs && from + size <= |m|
    ensures moved == PutBytes(m, |x|, m[from..from + size]) && moved == x + rest && |moved| == |m|
  {
    var t := TableSlice(m, x, g, strs, from);
    TableMoved(x, g, strs);
    rest := PutBytes(g + strs, 0, strs);
    moved := PutBytes(m, |x|, t);
  }

  /** The buffer after the end tag and the move of the table: the block is closed, the table follows it. */
  lemma Closing(b: Blob, c: Contents, p: nat, oldoff: nat, newoff: nat, size: nat)
    returns (blk: seq<byte>, rest: seq<byte>, tagged: seq<byte>, moved: seq<byte>)
    requires Folded(Writing(b, true, c)) && 4 <= |c.gap|
    requires p == |c.Head()| + |c.block| && oldoff == |b.bytes| - |c.strs| && newoff == p + 4 && size == |c.strs|
    ensures |blk| == |c.block| + 4 && newoff + size <= |b.bytes| <= INT_MAX && |c.strs| <= |b.bytes|
    ensures |c.strs| <= |rest| && rest[..|c.strs|] == c.strs
    ensures Folded(Layout(blk, c.raws + [RFin]))
    ensures tagged == Put32(b.bytes, p, END) && moved == PutBytes(tagged, newoff, tagged[oldoff..oldoff + size])
    ensures moved == c.Head() + blk + rest && |moved| == |b.bytes|
  {
    WritingHeader(b, true, c);
    blk, tagged := EndTagged(b, c);
    rest, moved := MoveDown(tagged, c.Head() + blk, c.gap[4..], c.strs, oldoff, size);
    assert |c.Head() + blk| == newoff;
  }

  lemma InLoopStarts(b: Blob, c: Contents, blk: seq<byte>, rest: seq<byte>, h: Header, m: seq<byte>)
    requires Folded(Writing(b, true, c)) && Folded(Layout(blk, c.raws + [RFin])) && |m| == |b.bytes|
    requires m == c.Head() + blk + rest && |c.Head()| + |blk| <= INT_MAX
    requires h == b.h.(sizeStruct := |blk|, offStrings := |c.Head()| + |blk|)
    ensures Folded(InLoop(Blob(h, m), c.Head(), blk, rest, c.raws + [RFin]))
  {
    assert Unseal(0);
  }

  /** The end tag is the only one. */
  lemma EndsOnce(b: Blob, c: Contents)
    requires Folded(Writing(b, true, c))
    ensures forall k :: 0 <= k < |c.raws + [RFin]| ==> ((c.raws + [RFin])[k].RFin? <==> k == |c.raws + [RFin]| - 1)
  {
    assert Unseal(0);
  }

  /** The contents of a finished blob. */
  function FinishedContents(c: Contents, blk: seq<byte>): Contents {
    Contents(c.pre, c.rsv, blk, [], c.strs, RelocatedAll(c.raws + [RFin], |c.strs|), c.tokens)
  }

  lemma AllRelocated(strs: seq<byte>, raws: seq<Raw>, tokens: seq<Token>)
    requires |strs| <= INT_MAX && AllNamed(strs, raws, tokens)
    ensures var rs := RelocatedAll(raws + [RFin], |strs|);
            && |rs| == |tokens| + 1 && rs[|tokens|] == RFin
            && Folded(forall k :: 0 <= k < |tokens| ==> !rs[k].RFin? && NamedFromStart(strs, rs[k], tokens[k]))
  {
    var rs := RelocatedAll(raws + [RFin], |strs|);
    forall k | 0 <= k < |tokens|
      ensures Folded(!rs[k].RFin? && NamedFromStart(strs, rs[k], tokens[k]))
    {
      assert (raws + [RFin])[k] == raws[k];
      RelocatedName(strs, raws[k], tokens[k]);
    }
  }

  /** Cutting the buffer after the moved table leaves a finished blob. */
  lemma Closed(b: Blob, b1: Blob, c: Contents, blk: seq<byte>, rest: seq<byte>)
    requires Folded(Writing(b, true, c)) && |c.strs| <= |rest| && rest[..|c.strs|] == c.strs
    requires Folded(InLoop(b1, c.Head(), blk, rest, RelocatedAll(c.raws + [RFin], |c.strs|)))
    requires |c.Head()| + |blk| + |c.strs| <= |b1.bytes| <= INT_MAX
    requires b1.h == b.h.(sizeStruct := |blk|, offStrings := |c.Head()| + |blk|)
    ensures var total := |c.Head()| + |blk| + |c.strs|;
            Folded(Finished(Blob(b1.h.(totalSize := total, magic := FDT_MAGIC), b1.bytes[..total]),
                            FinishedContents(c, blk)))
  {
    assert Unseal(0);
    var total := |c.Head()| + |blk| + |c.strs|;
    AllRelocated(c.strs, c.raws, c.tokens);
    assert b1.bytes[..total] == c.Head() + blk + c.strs;
  }

  datatype Phase = Blank | Reserving | Started | Done

  ghost predicate Holds(b: Blob, phase: Phase, c: Contents) {
    match phase
    case Blank => true
    case Reserving => Folded(Writing(b, false, c))
    case Started => Folded(Writing(b, true, c))
    case Done => Folded(Finished(b, c))
  }

  lemma PhaseMagic(b: Blob, phase: Phase, c: Contents)
    requires Folded(Holds(b, phase, c)) && phase != Blank
    ensures b.h.magic == if phase == Done then FDT_MAGIC else FDT_SW_MAGIC
    ensures phase == Reserving ==> b.h.offStrings == 0 && b.h.totalSize > 0
    ensures phase == Started ==> b.h.offStrings == b.h.totalSize > 0
  {
    assert Unseal(0);
  }

  /** A buffer that fdt_create made.  The ghost fields say what it stands for. */
  class Writer {
    var b: Blob
    ghost var phase: Phase
    ghost var c: Contents

    ghost predicate Valid()
      reads this
    {
      Folded(Holds(b, phase, c))
    }

    constructor ()
      ensures Valid() && phase == Blank
    {
      phase, c := Blank, Contents([], [], [], [], [], [], []);
      b := Blob(Header(0, 0, 0, 0, 0, 0, 0, 0, 0), []);
    }

    /** fdt_create */
    method Create(bufsize: nat) returns (err: int)
      requires bufsize <= INT_MAX
      modifies this
      ensures err == if bufsize < CREATE_HEADER then NOSPACE else 0
      ensures if err != 0 then unchanged(this) else Valid() && phase == Reserving && c == Created(bufsize)
    {
      if bufsize < CREATE_HEADER { return NOSPACE; }
      NewBuffer(bufsize);
      b := Blob(Header(FDT_SW_MAGIC, bufsize, CREATE_HEADER, 0, CREATE_HEADER, 17, 2, 0, 0), Zeros(bufsize));
      c, phase, err := Created(bufsize), Reserving, 0;
    }

    /** fdt_sw_probe_memrsv_ */
    method ProbeMemrsv() returns (err: int)
      requires Valid() && phase != Blank
      ensures err == if phase == Reserving then 0 else BADSTATE
    {
      PhaseMagic(b, phase, c);
      if b.h.magic == FDT_MAGIC { return BADSTATE; }
      if b.h.magic != FDT_SW_MAGIC { return BADMAGIC; }
      if b.h.offStrings != 0 { return BADSTATE; }
      err := 0;
    }

    /** fdt_add_reservemap_entry */
    method AddReserveEntry(addr: u64, size: u64) returns (err: int)
      requires Valid() && phase != Blank
      modifies this`b, this`c
      ensures Valid()
      ensures err == if phase != Reserving then BADSTATE else if old(|c.gap|) < 16 then NOSPACE else 0
      ensures c == if err != 0 then old(c) else WithReserve(old(c), Be64(addr) + Be64(size))
    {
      err := ProbeMemrsv();
      if err != 0 { return; }
      WritingHeader(b, false, c);
      var offset := b.h.offStruct;
      if offset + 16 > b.h.totalSize { return NOSPACE; }
      var e := Be64(addr) + Be64(size);
      ReserveWritten(b, c, e);
      b := Blob(b.h.(offStruct := offset + 16), PutBytes(b.bytes, offset, e));
      c := WithReserve(c, e);
    }

    /** fdt_finish_reservemap */
    method FinishReservemap() returns (err: int)
      requires Valid() && phase != Blank
      modifies this
      ensures Valid()
      ensures err == if old(phase) != Reserving then BADSTATE else if old(|c.gap|) < 16 then NOSPACE else 0
      ensures phase == if err != 0 then old(phase) else Started
      ensures c == if err != 0 then old(c) else WithReserve(old(c), Be64(0) + Be64(0))
    {
      err := AddReserveEntry(0, 0);
      if err != 0 { return; }
      BlockStarts(b, c);
      b := b.(h := b.h.(offStrings := b.h.totalSize));
      phase := Started;
    }

    /** fdt_resize: the buffer at address fdt of a memory moves to address buf of the same memory. */
    method Resize(mem: array<byte>, fdt: nat, buf: nat, bufsize: nat) returns (err: int)
      requires Valid() && phase != Blank && bufsize <= INT_MAX
      requires buf + bufsize <= mem.Length && Folded(BytesAt(mem[..], fdt, b.bytes))
      modifies this`b, this`c, mem
      ensures Valid()
      ensures err == if phase == Done then BADSTATE
                     else if old(|c.Buffer()|) - old(|c.gap|) > bufsize then NOSPACE else 0
      ensures err != 0 ==> b == old(b) && c == old(c) && mem[..] == old(mem[..])
      ensures err == 0 ==> b.bytes == mem[buf..buf + bufsize] && c == old(c).(gap := c.gap)
    {
      PhaseMagic(b, phase, c);
      if b.h.magic == FDT_MAGIC { return BADSTATE; }
      if b.h.magic != FDT_SW_MAGIC { return BADMAGIC; }
      WritingHeader(b, phase == Started, c);
      assert b.bytes == c.Head() + c.block + c.gap + c.strs by { assert Unseal(0); }
      var headsize, tailsize := b.h.offStruct + b.h.sizeStruct, b.h.sizeStrings;
      if headsize + tailsize > b.h.totalSize { return INTERNAL; }
      if headsize + tailsize > bufsize { return NOSPACE; }
      var oldtail, newtail := fdt + b.h.totalSize - tailsize, buf + bufsize - tailsize;
      ghost var x, z := c.Head() + c.block, c.strs;
      EndsOf(mem[..], fdt, x, c.gap, z);
      MoveBuffer(mem, fdt, buf, headsize, oldtail, newtail, tailsize, x, z);
      ghost var g := bufsize - headsize - tailsize;
      WindowOf(mem[..], buf, x, g, z);
      var w := mem[buf..buf + bufsize];
      assert w == mem[..][buf..buf + |x| + g + |z|];
      err := Adopt(w, mem[buf + |x|..buf + |x| + g]);
    }

    /** The header words of the moved buffer. */
    method Adopt(bytes: seq<byte>, ghost g: seq<byte>) returns (err: int)
      requires Valid() && (phase == Started || phase == Reserving) && |bytes| <= INT_MAX
      requires bytes == c.Head() + c.block + g + c.strs
      modifies this`b, this`c
      ensures Valid() && err == 0 && b.bytes == bytes && c == old(c).(gap := c.gap)
    {
      Regapped(b, phase == Started, c, g);
      b := Blob(b.h.(totalSize := |bytes|, offStrings := if b.h.offStrings != 0 then |bytes| else 0), bytes);
      c := c.(gap := g);
      err := 0;
    }

    /** fdt_sw_probe_struct_ */
    method ProbeStruct() returns (err: int)
      requires Valid() && phase != Blank
      ensures err == if phase == Started then 0 else BADSTATE
    {
      PhaseMagic(b, phase, c);
      if b.h.magic == FDT_MAGIC { return BADSTATE; }
      if b.h.magic != FDT_SW_MAGIC { return BADMAGIC; }
      if b.h.offStrings != b.h.totalSize { return BADSTATE; }
      err := 0;
    }

    /** fdt_grab_space_: room for len more bytes of structure block. */
    method GrabSpace(len: nat) returns (ok: bool, p: nat)
      requires Valid() && phase == Started
      modifies this`b
      ensures b.bytes == old(b.bytes) && |c.block| + |c.gap| <= INT_MAX
      ensures ok <==> len <= |c.gap|
      ensures p == |c.Head()| + |c.block|
      ensures b.h == if ok then old(b).h.(sizeStruct := |c.block| + len) else old(b).h
    {
      WritingHeader(b, true, c);
      var h := b.h;
      var offset := h.sizeStruct;
      var spaceleft := h.totalSize - h.offStruct - h.sizeStrings;
      p := h.offStruct + offset;
      if offset + len > spaceleft {
        return false, p;
      }
      b := b.(h := h.(sizeStruct := offset + len));
      ok := true;
    }

    /** fdt_begin_node */
    method BeginNode(name: CString) returns (err: int)
      requires Valid() && phase != Blank
      modifies this`b, this`c
      ensures Valid()
      ensures err == if phase != Started then BADSTATE
                     else if RawSize(RBegin(name)) > old(|c.gap|) then NOSPACE else 0
      ensures c == if err != 0 then old(c) else WithToken(old(c), RBegin(name), Token.BeginNode(name))
    {
      err := ProbeStruct();
      if err != 0 { return; }
      ghost var b0 := b;
      var ok, p := GrabSpace(4 + TagAlign(|name| + 1));
      if !ok { return NOSPACE; }
      ghost var m, c' := BeginWritten(b0, c, name, p, b.h);
      b := b.(bytes := PutBytes(Put32(b.bytes, p, BEGIN_NODE), p + 4, name + [0]));
      c := c';
    }

    /** fdt_end_node */
    method EndNode() returns (err: int)
      requires Valid() && phase != Blank
      modifies this`b, this`c
      ensures Valid()
      ensures err == if phase != Started then BADSTATE else if 4 > old(|c.gap|) then NOSPACE else 0
      ensures c == if err != 0 then old(c) else WithToken(old(c), REnd, Token.EndNode)
    {
      err := ProbeStruct();
      if err != 0 { return; }
      ghost var b0 := b;
      var ok, p := GrabSpace(4);
      if !ok { return NOSPACE; }
      ghost var m, c' := EndWritten(b0, c, p, b.h);
      b := b.(bytes := Put32(b.bytes, p, END_NODE));
      c := c';
    }

    /** The search of fdt_find_add_string_: the place of s in the table, or -1. */
    method FindKnown(s: CString) returns (p: int)
      requires Valid() && phase == Started
      ensures -1 <= p < |c.strs|
      ensures p < 0 <==> !Known(c.strs, s)
      ensures p >= 0 ==> Folded(NameAt(c.strs, p, s))
    {
      WritingHeader(b, true, c);
      assert b.bytes[b.h.totalSize - b.h.sizeStrings..b.h.totalSize] == c.strs by { assert Unseal(0); }
      p := FindString(b.bytes[b.h.totalSize - b.h.sizeStrings..b.h.totalSize], s);
    }

    /** Its second half: s is stored below the table if there is room. */
    method AddString(s: CString) returns (offset: int)
      requires Valid() && phase == Started && |c.strs| + |s| + 1 <= |c.Buffer()|
      modifies this`b, this`c
      ensures Valid()
      ensures c == if |s| + 1 > old(|c.gap|) then old(c) else WithString(old(c), s + [0])
      ensures offset == if |s| + 1 > old(|c.gap|) then 0 else -|c.strs|
      ensures offset != 0 ==> Folded(NameAt(c.strs, 0, s))
    {
      WritingHeader(b, true, c);
      var h := b.h;
      var strtab: int, strtabsize: int, len := h.totalSize, h.sizeStrings, |s| + 1;
      offset := -strtabsize - len;
      var structTop := h.offStruct + h.sizeStruct;
      RoomTest(strtab, strtabsize, len, structTop);
      if U32(strtab + offset) < structTop { return 0; }
      StringWritten(b, c, s + [0]);
      NewName(c.strs, s);
      b := Blob(h.(sizeStrings := strtabsize + len), PutBytes(b.bytes, strtab + offset, s + [0]));
      c := WithString(c, s + [0]);
    }

    /** fdt_find_add_string_: the distance of s from the end of the table, negative; 0 when there is no room. */
    method FindAddString(s: CString) returns (offset: int)
      requires Valid() && phase == Started
      requires Known(c.strs, s) || |c.strs| + |s| + 1 <= |c.Buffer()|
      modifies this`b, this`c
      ensures Valid() && c == Interned(old(c), s)
      ensures offset == 0 <==> !Known(old(c.strs), s) && |s| + 1 > old(|c.gap|)
      ensures offset != 0 ==> -|c.strs| <= offset < 0 && Folded(NameAt(c.strs, |c.strs| + offset, s))
      ensures offset == 0 || Known(old(c.strs), s) ==> c == old(c)
      ensures offset != 0 && !Known(old(c.strs), s) ==>
        c.strs == (s + [0]) + old(c.strs) && c.tokens == old(c.tokens) && c.rsv == old(c.rsv) && |c.gap| == old(|c.gap|) - |s| - 1
    {
      WritingHeader(b, true, c);
      var p := FindKnown(s);
      if p >= 0 { return p - b.h.sizeStrings; }
      offset := AddString(s);
    }

    /** The stores of a property whose name is in the table. */
    method PutProperty(nameoff: int, name: CString, val: seq<byte>) returns (err: int)
      requires Valid() && phase == Started && |val| <= INT_MAX - 16
      requires -|c.strs| <= nameoff < 0 && Folded(NameAt(c.strs, |c.strs| + nameoff, name))
      modifies this`b, this`c
      ensures Valid()
      ensures err == if RawSize(RProp(0, val)) > old(|c.gap|) then NOSPACE else 0
      ensures c == if err != 0 then old(c) else WithToken(old(c), RProp(U32(nameoff), val), Token.Prop(name, val))
    {
      ghost var b0 := b;
      var ok, p := GrabSpace(12 + TagAlign(|val|));
      if !ok { return NOSPACE; }
      var no := U32(nameoff);
      ghost var m, c' := PropertyWritten(b0, c, nameoff, name, val, no, p, b.h);
      b := b.(bytes := PropStores(b.bytes, p, no, val));
      c := c';
      err := 0;
    }

    /** fdt_property: fdt_property_placeholder and the copy of the value. */
    method Property(name: CString, val: seq<byte>) returns (err: int)
      requires Valid() && phase != Blank && |val| <= INT_MAX - 16
      requires phase == Started ==> Known(c.strs, name) || |c.strs| + |name| + 1 <= |c.Buffer()|
      modifies this`b, this`c
      ensures Valid()
      ensures err == if phase != Started then BADSTATE
                     else if !Known(old(c.strs), name) && |name| + 1 > old(|c.gap|) then NOSPACE
                     else if RawSize(RProp(0, val)) > |Interned(old(c), name).gap| then NOSPACE
                     else 0
      ensures err == BADSTATE ==> c == old(c)
      ensures err == NOSPACE ==> c == Interned(old(c), name)
      ensures err == 0 ==> c.tokens == old(c.tokens) + [Token.Prop(name, val)] && c.rsv == old(c.rsv)
                           && c.strs == Interned(old(c), name).strs
                           && |c.gap| == |Interned(old(c), name).gap| - RawSize(RProp(0, val))
    {
      err := ProbeStruct();
      if err != 0 { return; }
      var nameoff := FindAddString(name);
      if nameoff == 0 { return NOSPACE; }
      err := PutProperty(nameoff, name, val);
    }

    /** The body of the loop of fdt_finish, for the property at an offset. */
    method CorrectName(offset: i32, ghost head: seq<byte>, ghost blk: seq<byte>, ghost rest: seq<byte>,
                       ghost rs: seq<Raw>, ghost i: nat)
      returns (ghost blk': seq<byte>)
      requires i < |rs| && rs[i].RProp? && offset == Off(rs, i)
      requires Folded(InLoop(b, head, blk, rest, Mixed(rs, b.h.sizeStrings, i)))
      modifies this`b
      ensures b.h == old(b.h) && |b.bytes| == |old(b).bytes| && |blk'| == |blk|
      ensures Folded(InLoop(b, head, blk', rest, Mixed(rs, b.h.sizeStrings, i + 1)))
    {
      var m := b;
      var at := m.h.offStruct + offset + 8;
      LoopStore(m, head, blk, rest, rs, m.h.sizeStrings, i, at);
      var nameoff := U32(S32(Get32(m.bytes, at)) + m.h.sizeStrings);
      b := m.(bytes := Put32(m.bytes, at, nameoff));
      blk' := Put32(blk, offset + 8, nameoff);
    }

    /** fdt_next_tag on token i while the loop runs. */
    method LoopTag(offset: i32, ghost head: seq<byte>, ghost blk: seq<byte>, ghost rest: seq<byte>,
                   ghost rs: seq<Raw>, ghost n: nat, ghost i: nat) returns (tag: u32, next: i32)
      requires i < |rs| && offset == Off(rs, i) && Folded(InLoop(b, head, blk, rest, Mixed(rs, n, i)))
      ensures tag == TagOf(rs[i]) && next == Off(rs, i + 1) >= 0
    {
      LoopWalk(b, head, blk, rest, rs, n, i);
      tag, next := NextTagLoop(b, offset);
    }

    /** The loop of fdt_finish: every property's name offset is counted from the other end. */
    method CorrectNames(ghost head: seq<byte>, ghost blk0: seq<byte>, ghost rest: seq<byte>, ghost rs: seq<Raw>)
      returns (next: i32, ghost blk: seq<byte>)
      requires Folded(InLoop(b, head, blk0, rest, rs)) && b.h.sizeStrings <= INT_MAX && |b.bytes| <= INT_MAX
      requires rs != [] && forall k :: 0 <= k < |rs| ==> (rs[k].RFin? <==> k == |rs| - 1)
      modifies this`b
      ensures next >= 0 && b.h == old(b.h) && |b.bytes| == |old(b).bytes| && |blk| == |blk0|
      ensures Folded(InLoop(b, head, blk, rest, RelocatedAll(rs, b.h.sizeStrings)))
    {
      blk := blk0;
      ghost var i := 0;
      ghost var n := b.h.sizeStrings;
      assert Mixed(rs, n, 0) == rs;
      var offset: i32 := 0;
      var tag: u32;
      tag, next := LoopTag(offset, head, blk, rest, rs, n, i);
      while tag != END
        invariant 0 <= i < |rs| && b.h == old(b.h) && |b.bytes| == |old(b).bytes| && |blk| == |blk0|
        invariant offset == Off(rs, i) && tag == TagOf(rs[i]) && next == Off(rs, i + 1) >= 0
        invariant Folded(InLoop(b, head, blk, rest, Mixed(rs, n, i)))
        decreases |rs| - i
      {
        assert i < |rs| - 1;
        if tag == PROP {
          blk := CorrectName(offset, head, blk, rest, rs, i);
        } else {
          MixedSkip(rs, n, i);
        }
        offset := next;
        i := i + 1;
        tag, next := LoopTag(offset, head, blk, rest, rs, n, i);
      }
      MixedSkip(rs, n, i);
      assert Mixed(rs, n, |rs|) == RelocatedAll(rs, n) by { assert rs[..|rs|] == rs; }
    }

    /** fdt_finish: closes the block, moves the table down to it and recounts every name. */
    method Finish() returns (err: int)
      requires Valid() && phase != Blank
      modifies this
      ensures Valid()
      ensures err == if old(phase) != Started then BADSTATE else if old(|c.gap|) < 4 then NOSPACE else 0
      ensures err != 0 ==> phase == old(phase) && c == old(c)
      ensures err == 0 ==> phase == Done && c.tokens == old(c.tokens) && c.rsv == old(c.rsv) && c.strs == old(c.strs)
    {
      err := ProbeStruct();
      if err != 0 { return; }
      ghost var b0 := b;
      var ok, p := GrabSpace(4);
      if !ok { return NOSPACE; }
      WritingHeader(b0, true, c);
      err := FinishClosing(p, b0);
    }

    /** The end tag and the move of the table. */
    method MoveTable(p: nat, ghost b0: Blob) returns (ghost blk: seq<byte>, ghost rest: seq<byte>)
      requires Folded(Writing(b0, true, c)) && 4 <= |c.gap|
      requires p == |c.Head()| + |c.block| <= INT_MAX - 4 && b == b0.(h := b0.h.(sizeStruct := |c.block| + 4))
      modifies this`b
      ensures |c.strs| <= |rest| && rest[..|c.strs|] == c.strs && |c.Head()| + |blk| <= INT_MAX
      ensures b.h == b0.h.(sizeStruct := |blk|, offStrings := |c.Head()| + |blk|)
      ensures |c.Head()| + |blk| + |c.strs| <= |b.bytes| <= INT_MAX
      ensures Folded(InLoop(b, c.Head(), blk, rest, c.raws + [RFin]))
    {
      WritingHeader(b0, true, c);
      var size := b.h.sizeStrings;
      var oldoff, newoff := b.h.totalSize - size, b.h.offStruct + b.h.sizeStruct;
      ghost var tagged, moved;
      blk, rest, tagged, moved := Closing(b0, c, p, oldoff, newoff, size);
      var bytes := Put32(b.bytes, p, END);
      var h, m := b.h.(offStrings := newoff), PutBytes(bytes, newoff, bytes[oldoff..oldoff + size]);
      InLoopStarts(b0, c, blk, rest, h, m);
      b := Blob(h, m);
    }

    /** The rest of fdt_finish once there is room for the end tag. */
    method FinishClosing(p: nat, ghost b0: Blob) returns (err: int)
      requires phase == Started && Folded(Writing(b0, true, c)) && 4 <= |c.gap|
      requires p == |c.Head()| + |c.block| <= INT_MAX - 4 && b == b0.(h := b0.h.(sizeStruct := |c.block| + 4))
      modifies this
      ensures Valid() && err == 0
      ensures phase == Done && c.tokens == old(c.tokens) && c.rsv == old(c.rsv) && c.strs == old(c.strs)
    {
      WritingHeader(b0, true, c);
      EndsOnce(b0, c);
      ghost var blk, rest := MoveTable(p, b0);
      var next;
      next, blk := CorrectNames(c.Head(), blk, rest, c.raws + [RFin]);
      if next < 0 { return next; }
      Closed(b0, b, c, blk, rest);
      var total := b.h.offStrings + b.h.sizeStrings;
      b := Blob(b.h.(totalSize := total, magic := FDT_MAGIC), b.bytes[..total]);
      c, phase := FinishedContents(c, blk), Done;
      err := 0;
    }
  }
}
