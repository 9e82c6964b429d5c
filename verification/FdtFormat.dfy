/** The flattened device tree as bytes: big-endian words, the version-17 header,
    the tokens of the structure block and their layout.
    (libfdt: fdt.h, libfdt_internal.h; Devicetree Specification sections 5.2 to 5.5.) */
module FdtFormat {
  import opened Sealing

  type byte = b: int | 0 <= b < 256
  const TWO32: int := 0x1_0000_0000
  const INT_MAX: int := 0x7fff_ffff
  type u32 = x: int | 0 <= x < TWO32

  /** Unsigned and signed 32-bit truncation of a C expression. */
  type i32 = x: int | -0x8000_0000 <= x < 0x8000_0000
  function U32(x: int): u32 { if 0 <= x < TWO32 then x else x % TWO32 }
  function S32(x: int): i32 {
    if -0x8000_0000 <= x < 0x8000_0000 then x else (x + 0x8000_0000) % TWO32 - 0x8000_0000
  }

  /** A C string: its bytes before the terminating zero. */
  ghost predicate NoNul(s: seq<byte>) { forall i :: 0 <= i < |s| ==> s[i] != 0 }
  type CString = s: seq<byte> | NoNul(s) && |s| <= INT_MAX - 16 ghost witness []

  // ----- big-endian words -----

  /** The value of a run of big-endian bytes. */
  function BigEndian(b: seq<byte>): nat {
    if b == [] then 0 else BigEndian(b[..|b| - 1]) * 256 + b[|b| - 1]
  }

  lemma BigEndian4(b: seq<byte>)
    requires |b| == 4
    ensures BigEndian(b) == b[0] as int * 0x100_0000 + b[1] as int * 0x1_0000 + b[2] as int * 0x100 + b[3]
    ensures BigEndian(b) < TWO32
  {
    assert b[..3][..2] == b[..2] && b[..2][..1] == b[..1] && b[..1][..0] == [];
    assert BigEndian(b[..1]) == b[0];
    assert BigEndian(b[..2]) == b[0] as int * 256 + b[1];
    assert BigEndian(b[..3]) == (b[0] as int * 256 + b[1]) * 256 + b[2];
  }

  function Get32(s: seq<byte>, at: nat): u32
    requires at + 4 <= |s|
  {
    BigEndian4(s[at..at + 4]);
    BigEndian(s[at..at + 4])
  }

  lemma Get32Move(s: seq<byte>, at: nat, t: seq<byte>, to: nat)
    requires at + 4 <= |s| && to + 4 <= |t|
    requires forall i :: to <= i < to + 4 ==> t[i] == s[i - to + at]
    ensures Get32(t, to) == Get32(s, at)
  {
    assert t[to..to + 4] == s[at..at + 4];
  }

  /** The last n big-endian digits of x. */
  function Digits(x: nat, n: nat): (b: seq<byte>)
    ensures |b| == n
  {
    if n == 0 then [] else Digits(x / 256, n - 1) + [x % 256]
  }

  function Pow256(n: nat): nat { if n == 0 then 1 else 256 * Pow256(n - 1) }

  lemma {:induction false} DigitsValue(x: nat, n: nat)
    requires x < Pow256(n)
    ensures BigEndian(Digits(x, n)) == x
  {
    if n > 0 {
      DigitsValue(x / 256, n - 1);
      var d := Digits(x / 256, n - 1);
      assert (d + [x % 256])[..|d|] == d;
    }
  }

  /** cpu_to_fdt32 */
  function Be32(x: u32): (b: seq<byte>)
    ensures |b| == 4 && BigEndian(b) == x
  {
    assert Pow256(4) == TWO32 by { assert Pow256(2) == 0x1_0000; }
    DigitsValue(x, 4);
    Digits(x, 4)
  }

  // ----- memory -----

  /** memcpy into a buffer. */
  function PutBytes(m: seq<byte>, at: nat, b: seq<byte>): (w: seq<byte>)
    requires at + |b| <= |m|
    ensures |w| == |m|
  {
    m[..at] + b + m[at + |b|..]
  }

  /** fdt32_st: a big-endian store. */
  function Put32(m: seq<byte>, at: nat, x: u32): (w: seq<byte>)
    requires at + 4 <= |m|
    ensures |w| == |m|
  {
    PutBytes(m, at, Be32(x))
  }

  /** A write inside one part of a buffer is a write to that part. */
  lemma PutInside(x: seq<byte>, y: seq<byte>, z: seq<byte>, k: nat, b: seq<byte>)
    requires k + |b| <= |y|
    ensures PutBytes(x + y + z, |x| + k, b) == x + PutBytes(y, k, b) + z
  {
  }

  /** Two writes side by side are one write. */
  lemma PutTwice(m: seq<byte>, at: nat, a: seq<byte>, b: seq<byte>)
    requires at + |a| + |b| <= |m|
    ensures PutBytes(PutBytes(m, at, a), at + |a|, b) == PutBytes(m, at, a + b)
  {
  }

  /** A write over a whole part. */
  lemma PutWhole(y: seq<byte>, b: seq<byte>)
    requires |y| == |b|
    ensures PutBytes(y, 0, b) == b
  {
  }

  /** memmove: the source bytes are read before any is overwritten. */
  method Memmove(mem: array<byte>, dst: nat, src: nat, n: nat)
    requires dst + n <= mem.Length && src + n <= mem.Length
    modifies mem
    ensures mem[..] == PutBytes(old(mem[..]), dst, old(mem[src..src + n]))
  {
    forall i | dst <= i < dst + n {
      mem[i] := mem[src + (i - dst)];
    }
  }

  // ----- header -----

  const FDT_MAGIC: u32 := 0xd00d_feed
  const FDT_SW_MAGIC: u32 := 0x2ff2_0112
  const HEADER_SIZE := 40

  /** struct fdt_header: the words that libfdt reads and writes. */
  datatype Header = Header(magic: u32, totalSize: u32, offStruct: u32, offStrings: u32, offRsvmap: u32,
                           version: u32, lastComp: u32, sizeStrings: u32, sizeStruct: u32)

  /** A blob: its header and the bytes its pointer gives access to.  The first
      HEADER_SIZE bytes are the header's own place. */
  datatype Blob = Blob(h: Header, bytes: seq<byte>) {
    ghost predicate Ok() {
      h.totalSize <= |bytes| <= INT_MAX
    }
  }

  // ----- error codes (negative returns) -----

  const NOTFOUND := -1
  const EXISTS := -2
  const NOSPACE := -3
  const BADOFFSET := -4
  const BADPATH := -5
  const BADSTATE := -7
  const TRUNCATED := -8
  const BADMAGIC := -9
  const BADVERSION := -10
  const BADSTRUCTURE := -11
  const BADLAYOUT := -12
  const INTERNAL := -13

  // ----- tokens of the structure block -----

  const BEGIN_NODE: u32 := 1
  const END_NODE: u32 := 2
  const PROP: u32 := 3
  const NOP: u32 := 4
  const END: u32 := 9

  /** A token as it lies in the structure block: a property refers to its name by offset. */
  datatype Raw =
    | RBegin(name: seq<byte>)
    | REnd
    | RProp(nameoff: u32, value: seq<byte>)
    | RNop
    | RFin

  /** A token as a client of the library sees it. */
  datatype Token =
    | BeginNode(name: seq<byte>)
    | EndNode
    | Prop(pname: seq<byte>, value: seq<byte>)
    | Nop
    | End

  /** FDT_TAGALIGN: round up to a multiple of four, on any C int. */
  function TagAlign(x: int): int { (x + 3) / 4 * 4 }

  lemma TagAlignShift(k: int, n: int)
    requires k % 4 == 0
    ensures TagAlign(k + n) == k + TagAlign(n)
    ensures n <= TagAlign(n) < n + 4
  {
  }

  function TagOf(r: Raw): u32 {
    match r
    case RBegin(_) => BEGIN_NODE
    case REnd => END_NODE
    case RProp(_, _) => PROP
    case RNop => NOP
    case RFin => END
  }

  function RawSize(r: Raw): nat {
    match r
    case RBegin(name) => 4 + TagAlign(|name| + 1)
    case RProp(_, v) => 12 + TagAlign(|v|)
    case _ => 4
  }

  ghost predicate BytesAt(s: seq<byte>, at: nat, v: seq<byte>) {
    at + |v| <= |s| && forall k :: 0 <= k < |v| ==> s[at + k] == v[k]
  }

  /** Token r is encoded at offset at of s; padding bytes may be anything. */
  ghost predicate RawAt(s: seq<byte>, at: nat, r: Raw) {
    && at + RawSize(r) <= |s|
    && Get32(s, at) == TagOf(r)
    && match r
       case RBegin(name) =>
         NoNul(name) && BytesAt(s, at + 4, name) && s[at + 4 + |name|] == 0
       case RProp(nameoff, v) =>
         Get32(s, at + 4) == |v| && Get32(s, at + 8) == nameoff && BytesAt(s, at + 12, v)
       case _ => true
  }

  /** Number of bytes that a run of tokens takes. */
  function Size(rs: seq<Raw>): nat {
    if rs == [] then 0 else RawSize(rs[0]) + Size(rs[1..])
  }

  /** Offset of token i when the tokens are laid out one after the other. */
  function Off(rs: seq<Raw>, i: nat): nat
    requires i <= |rs|
  {
    Size(rs[..i])
  }

  /** s is exactly the encoding of the tokens rs. */
  ghost predicate Layout(s: seq<byte>, rs: seq<Raw>) {
    if rs == [] then s == []
    else RawAt(s, 0, rs[0]) && Layout(s[RawSize(rs[0])..], rs[1..])
  }

  lemma {:induction false} SizeConcat(rs: seq<Raw>, qs: seq<Raw>)
    ensures Size(rs + qs) == Size(rs) + Size(qs)
  {
    if rs == [] {
      assert rs + qs == qs;
    } else {
      assert (rs + qs)[1..] == rs[1..] + qs;
      SizeConcat(rs[1..], qs);
    }
  }

  lemma {:induction false} SizeAligned(rs: seq<Raw>)
    ensures Size(rs) % 4 == 0 && Size(rs) >= 4 * |rs|
  {
    if rs != [] { SizeAligned(rs[1..]); }
  }

  /** The next token starts where this one ends. */
  lemma OffStep(rs: seq<Raw>, i: nat)
    requires i < |rs|
    ensures Off(rs, i + 1) == Off(rs, i) + RawSize(rs[i])
  {
    assert rs[..i + 1] == rs[..i] + [rs[i]];
    SizeConcat(rs[..i], [rs[i]]);
  }

  lemma OffMonotone(rs: seq<Raw>, i: nat, j: nat)
    requires i <= j <= |rs|
    ensures Off(rs, i) + 4 * (j - i) <= Off(rs, j) <= Size(rs)
  {
    assert rs[..j] == rs[..i] + rs[i..j];
    SizeConcat(rs[..i], rs[i..j]);
    SizeAligned(rs[i..j]);
    assert rs == rs[..j] + rs[j..];
    SizeConcat(rs[..j], rs[j..]);
  }

  /** A token can be moved to any place that holds the same bytes. */
  lemma RawAtMove(s: seq<byte>, at: nat, t: seq<byte>, to: nat, r: Raw)
    requires RawAt(s, at, r)
    requires to + RawSize(r) <= |t|
    requires forall i :: to <= i < to + RawSize(r) ==> t[i] == s[i - to + at]
    ensures RawAt(t, to, r)
  {
    Get32Move(s, at, t, to);
    if r.RProp? {
      Get32Move(s, at + 4, t, to + 4);
      Get32Move(s, at + 8, t, to + 8);
    }
  }

  lemma {:induction false} LayoutSize(s: seq<byte>, rs: seq<Raw>)
    requires Layout(s, rs)
    ensures |s| == Size(rs)
  {
    if rs != [] { LayoutSize(s[RawSize(rs[0])..], rs[1..]); }
  }

  /** Encodings concatenate: what an append or a splice leaves alone keeps its tokens. */
  lemma {:induction false} LayoutConcat(s: seq<byte>, rs: seq<Raw>, t: seq<byte>, qs: seq<Raw>)
    requires Layout(s, rs) && Layout(t, qs)
    ensures Layout(s + t, rs + qs)
  {
    if rs == [] {
      assert s + t == t && rs + qs == qs;
    } else {
      var n := RawSize(rs[0]);
      LayoutConcat(s[n..], rs[1..], t, qs);
      assert (s + t)[n..] == s[n..] + t;
      assert (rs + qs)[1..] == rs[1..] + qs;
      RawAtMove(s, 0, s + t, 0, rs[0]);
    }
  }

  /** ... and they split at every token boundary. */
  lemma {:induction false} LayoutSplit(s: seq<byte>, ps: seq<Raw>, t: seq<byte>, qs: seq<Raw>)
    requires Layout(s + t, ps + qs) && |s| == Size(ps)
    ensures Layout(s, ps) && Layout(t, qs)
  {
    if ps == [] {
      assert ps + qs == qs && s + t == t;
    } else {
      var n := RawSize(ps[0]);
      assert (ps + qs)[1..] == ps[1..] + qs;
      assert (s + t)[n..] == s[n..] + t;
      LayoutSplit(s[n..], ps[1..], t, qs);
      RawAtMove(s + t, 0, s, 0, ps[0]);
    }
  }

  lemma OffTail(rs: seq<Raw>, i: nat)
    requires 0 < i <= |rs|
    ensures Off(rs, i) == RawSize(rs[0]) + Off(rs[1..], i - 1)
  {
    assert rs[..i][1..] == rs[1..][..i - 1];
  }

  /** Every token lies at its offset. */
  lemma {:induction false} LayoutAt(s: seq<byte>, rs: seq<Raw>, i: nat)
    requires Layout(s, rs) && i < |rs|
    ensures RawAt(s, Off(rs, i), rs[i])
    decreases i
  {
    if i > 0 {
      var n := RawSize(rs[0]);
      LayoutAt(s[n..], rs[1..], i - 1);
      OffTail(rs, i);
      RawAtMove(s[n..], Off(rs[1..], i - 1), s, Off(rs, i), rs[i]);
    }
  }

  lemma LayoutOne(s: seq<byte>, r: Raw)
    requires RawAt(s, 0, r) && |s| == RawSize(r)
    ensures Layout(s, [r])
  {
    assert [r][1..] == [];
  }

  /** The bytes of a block, cut where its tokens are cut. */
  lemma LayoutCut(s: seq<byte>, ps: seq<Raw>, ms: seq<Raw>, qs: seq<Raw>)
    returns (s1: seq<byte>, s2: seq<byte>, s3: seq<byte>)
    requires Folded(Layout(s, ps + ms + qs))
    ensures s == s1 + s2 + s3 && |s1| == Size(ps) && |s2| == Size(ms)
  {
    LayoutSize(s, ps + ms + qs);
    SizeConcat(ps + ms, qs);
    SizeConcat(ps, ms);
    var o, e := Size(ps), Size(ps) + Size(ms);
    s1, s2, s3 := s[..o], s[o..e], s[e..];
  }

  /** Splicing: the tokens ms give way to ns, the tokens before stay in place and the
      tokens after move along.  This is every edit of a structure block. */
  lemma LayoutSplice(s1: seq<byte>, ps: seq<Raw>, s2: seq<byte>, ms: seq<Raw>, s3: seq<byte>, qs: seq<Raw>,
                     t2: seq<byte>, ns: seq<Raw>)
    requires Layout(s1 + s2 + s3, ps + ms + qs) && |s1| == Size(ps) && |s2| == Size(ms)
    requires Layout(t2, ns)
    ensures Folded(Layout(s1 + t2 + s3, ps + ns + qs))
    ensures Size(ps + ns + qs) == |s1 + t2 + s3|
  {
    SizeConcat(ps, ms);
    LayoutSplit(s1 + s2, ps + ms, s3, qs);
    LayoutSplit(s1, ps, s2, ms);
    LayoutConcat(s1, ps, t2, ns);
    LayoutConcat(s1 + t2, ps + ns, s3, qs);
    LayoutSize(s1 + t2 + s3, ps + ns + qs);
  }
}
