/** The reading half of libfdt: bounds-checked access to the structure block, the tag
    walker and the strings block (fdt.c and fdt_ro.c), on any blob its pointer covers. */
module FdtReader {
  import opened Sealing
  import opened Wrappers
  import opened FdtFormat

  /** fdt_offset_ptr: may len bytes be read at a structure-block offset? */
  predicate OffsetPtr(b: Blob, offset: i32, len: u32)
    requires b.Ok()
  {
    && 0 <= offset
    && offset + b.h.offStruct + len <= b.h.totalSize
    && (b.h.version >= 17 ==> offset + len <= b.h.sizeStruct)
  }

  /** The same test as the code writes it, in 32-bit sums that wrap. */
  predicate OffsetPtrWrapping(b: Blob, offset: i32, len: u32)
    requires b.Ok()
  {
    var start := U32(offset);
    var abs := U32(start + b.h.offStruct);
    && abs >= start
    && U32(abs + len) >= abs
    && U32(abs + len) <= b.h.totalSize
    && (b.h.version >= 17 ==> U32(start + len) >= start && U32(start + len) <= b.h.sizeStruct)
  }

  /** A 32-bit sum is the sum, or got smaller by 2^32. */
  lemma SumWraps(x: u32, y: u32)
    ensures U32(x + y) == if x + y < TWO32 then x + y else x + y - TWO32
  {
  }

  /** The wrapping test is exactly the unbounded bounds check. */
  lemma OffsetPtrWraps(b: Blob, offset: i32, len: u32)
    requires b.Ok()
    ensures OffsetPtrWrapping(b, offset, len) <==> OffsetPtr(b, offset, len)
  {
    var start := U32(offset);
    assert start == if offset < 0 then offset + TWO32 else offset;
    SumWraps(start, b.h.offStruct);
    SumWraps(start, len);
    SumWraps(U32(start + b.h.offStruct), len);
  }

  /** The loop of fdt_next_tag over a node name: the offset after its zero byte, or -1. */
  function SkipName(b: Blob, offset: i32): (e: i32)
    requires b.Ok()
    ensures e == -1 || e > offset
    decreases 0x8000_0000 - offset
  {
    if !OffsetPtr(b, offset, 1) then -1
    else if b.bytes[b.h.offStruct + offset] == 0 then offset + 1
    else SkipName(b, offset + 1)
  }

  /** The last check of fdt_next_tag: the whole token lies inside the block. */
  function EndOfTag(b: Blob, start: i32, offset: i32, tag: u32): (r: (u32, i32))
    requires b.Ok()
  {
    if start <= offset && OffsetPtr(b, start, offset - start) then (tag, S32(TagAlign(offset)))
    else (END, BADSTRUCTURE)
  }

  /** The code passes the length as an unsigned difference; a negative one never passes. */
  lemma NegativeLengthFails(b: Blob, start: i32, offset: i32)
    requires b.Ok() && offset < start
    ensures !OffsetPtr(b, start, U32(offset - start))
  {
    assert U32(offset - start) == offset - start + TWO32;
  }

  /** fdt_next_tag: the tag at an offset and the offset of the next one. */
  function NextTag(b: Blob, start: i32): (r: (u32, i32))
    requires b.Ok()
  {
    if !OffsetPtr(b, start, 4) then (END, TRUNCATED)
    else
      var tag := Get32(b.bytes, b.h.offStruct + start);
      var offset := start + 4;
      if tag == BEGIN_NODE then
        var e := SkipName(b, offset);
        if e < 0 then (END, BADSTRUCTURE) else EndOfTag(b, start, e, tag)
      else if tag == PROP then
        if !OffsetPtr(b, offset, 4) then (END, BADSTRUCTURE)
        else
          EndOfTag(b, start, S32(offset + 8 + Get32(b.bytes, b.h.offStruct + offset)), tag)
      else if tag == END || tag == END_NODE || tag == NOP then EndOfTag(b, start, offset, tag)
      else (END, BADSTRUCTURE)
  }

  /** fdt_next_tag as the code runs it, with its name-skipping loop. */
  method NextTagLoop(b: Blob, start: i32) returns (tag: u32, next: i32)
    requires b.Ok()
    ensures (tag, next) == NextTag(b, start)
  {
    var base := b.h.offStruct;
    if !OffsetPtr(b, start, 4) { return END, TRUNCATED; }
    tag := Get32(b.bytes, base + start);
    var offset := start + 4;
    if tag == BEGIN_NODE {
      var p := true;
      while p
        invariant 0 <= offset <= INT_MAX
        invariant SkipName(b, start + 4) == if p then SkipName(b, offset) else offset
        decreases p, INT_MAX - offset
      {
        if !OffsetPtr(b, offset, 1) { return END, BADSTRUCTURE; }
        p := b.bytes[base + offset] != 0;
        offset := offset + 1;
      }
    } else if tag == PROP {
      if !OffsetPtr(b, offset, 4) { return END, BADSTRUCTURE; }
      offset := S32(offset + 8 + Get32(b.bytes, base + offset));
    } else if tag != END && tag != END_NODE && tag != NOP {
      return END, BADSTRUCTURE;
    }
    if offset < start { NegativeLengthFails(b, start, offset); }
    if !OffsetPtr(b, start, U32(offset - start)) { return END, BADSTRUCTURE; }
    next := S32(TagAlign(offset));
  }

  predicate KnownTag(tag: u32) { tag == BEGIN_NODE || tag == END_NODE || tag == PROP || tag == NOP || tag == END }

  lemma EndOfTagInside(b: Blob, start: i32, e: i32, tag: u32)
    requires b.Ok() && EndOfTag(b, start, e, tag).1 >= 0
    ensures 0 <= start <= e <= EndOfTag(b, start, e, tag).1 < e + 4 && EndOfTag(b, start, e, tag).1 % 4 == 0
    ensures OffsetPtr(b, start, e - start) && EndOfTag(b, start, e, tag).0 == tag
  {
  }

  /** Where the token ends, before it is rounded up. */
  lemma TokenEnd(b: Blob, start: i32) returns (tag: u32, e: i32)
    requires b.Ok() && NextTag(b, start).1 >= 0
    ensures OffsetPtr(b, start, 4) && tag == Get32(b.bytes, b.h.offStruct + start) && KnownTag(tag)
    ensures NextTag(b, start) == EndOfTag(b, start, e, tag)
    ensures tag == PROP ==> OffsetPtr(b, start, 8) && e == S32(start + 12 + Get32(b.bytes, b.h.offStruct + start + 4))
    ensures tag != PROP ==> e > start
  {
    tag := Get32(b.bytes, b.h.offStruct + start);
    e := if tag == BEGIN_NODE then SkipName(b, start + 4)
         else if tag == PROP then S32(start + 12 + Get32(b.bytes, b.h.offStruct + start + 4))
         else start + 4;
  }

  /** On every blob and offset: a tag that is returned with an offset is the word there, and the whole
      token, up to some end e which the next offset rounds up, lies in the structure block. */
  lemma NextTagInside(b: Blob, start: i32) returns (e: int)
    requires b.Ok() && NextTag(b, start).1 >= 0
    ensures OffsetPtr(b, start, 4) && NextTag(b, start).0 == Get32(b.bytes, b.h.offStruct + start) && KnownTag(NextTag(b, start).0)
    ensures 0 <= start <= e <= NextTag(b, start).1 < e + 4 && NextTag(b, start).1 % 4 == 0 && OffsetPtr(b, start, e - start)
  {
    var tag;
    tag, e := TokenEnd(b, start);
    EndOfTagInside(b, start, e, tag);
  }

  /** An error comes with the end tag, unless the rounding itself leaves the range of an int. */
  lemma NextTagErrors(b: Blob, start: i32)
    requires b.Ok() && NextTag(b, start).1 < 0
    ensures NextTag(b, start) == (END, TRUNCATED) || NextTag(b, start) == (END, BADSTRUCTURE) || NextTag(b, start).1 == -0x8000_0000
    ensures NextTag(b, start) == (END, TRUNCATED) <==> !OffsetPtr(b, start, 4)
  {
  }

  /** The walker moves on from an aligned offset, except from a property whose length word is 2^32 - 12:
      the sum of the code wraps to where it started. */
  lemma NextTagAdvances(b: Blob, start: i32)
    requires b.Ok() && start % 4 == 0 && NextTag(b, start).1 >= 0
    ensures NextTag(b, start).1 > start <==>
      !(OffsetPtr(b, start, 8) && NextTag(b, start).0 == PROP && Get32(b.bytes, b.h.offStruct + start + 4) == TWO32 - 12)
  {
    var tag, e := TokenEnd(b, start);
    EndOfTagInside(b, start, e, tag);
    if tag == PROP { LengthWraps(start + 12, Get32(b.bytes, b.h.offStruct + start + 4)); }
  }

  lemma LengthWraps(x: int, len: u32)
    requires 0 <= x < 0x8000_0000 + 12
    ensures S32(x + len) == if x + len < 0x8000_0000 then x + len
                            else if x + len < TWO32 + 0x8000_0000 then x + len - TWO32 else x + len - 2 * TWO32
  {
  }

  /** Such a blob. */
  lemma StandsStill() returns (b: Blob)
    ensures b.Ok() && NextTag(b, 0) == (PROP, 0)
  {
    b := Blob(Header(FDT_MAGIC, 12, 0, 12, 0, 17, 16, 0, 12), [0, 0, 0, 3, 255, 255, 255, 244, 0, 0, 0, 0]);
    assert b.bytes[0..4] == [0, 0, 0, 3] && b.bytes[4..8] == [255, 255, 255, 244];
    BigEndian4([0, 0, 0, 3]);
    BigEndian4([255, 255, 255, 244]);
  }

  // ----- strings block -----

  datatype StringResult = Str(s: seq<byte>) | StrErr(err: int)

  /** fdt_ro_probe_ */
  function RoProbe(b: Blob): (err: int) {
    if b.h.magic == FDT_MAGIC then
      if b.h.version < 2 || b.h.lastComp > 17 then BADVERSION else 0
    else if b.h.magic == FDT_SW_MAGIC then
      if b.h.sizeStruct == 0 then BADSTATE else 0
    else BADMAGIC
  }

  /** memchr for the zero byte: how many bytes precede it within the first len, or -1. */
  function FindNul(w: seq<byte>, at: nat, len: nat): (n: int)
    requires at + len <= |w|
    ensures -1 <= n < len
    ensures n >= 0 ==> w[at + n] == 0 && forall i :: at <= i < at + n ==> w[i] != 0
    ensures n < 0 ==> forall i :: at <= i < at + len ==> w[i] != 0
    decreases len
  {
    if len == 0 then -1
    else if w[at] == 0 then 0
    else
      var n := FindNul(w, at + 1, len - 1);
      if n < 0 then -1 else n + 1
  }

  function StringAt(w: seq<byte>, at: nat, len: nat): StringResult
    requires at + len <= |w|
  {
    var n := FindNul(w, at, len);
    if n < 0 then StrErr(TRUNCATED) else Str(w[at..at + n])
  }

  /** fdt_get_string, for a finished blob and for one still being written. */
  function GetString(b: Blob, stroffset: i32): StringResult
    requires b.Ok()
  {
    var abs := U32(stroffset + b.h.offStrings);
    if RoProbe(b) != 0 then StrErr(RoProbe(b))
    else if abs >= b.h.totalSize then StrErr(BADOFFSET)
    else
      var len := b.h.totalSize - abs;
      if b.h.magic == FDT_MAGIC then
        if stroffset < 0 then StrErr(BADOFFSET)
        else if b.h.version >= 17 then
          if stroffset >= b.h.sizeStrings then StrErr(BADOFFSET)
          else StringAt(b.bytes, abs, if b.h.sizeStrings - stroffset < len then b.h.sizeStrings - stroffset else len)
        else StringAt(b.bytes, abs, len)
      else
        if stroffset >= 0 || stroffset < 0 - (b.h.sizeStrings as int) then StrErr(BADOFFSET)
        else StringAt(b.bytes, abs, if 0 - (stroffset as int) < len then 0 - (stroffset as int) else len)
  }

  /** The string s, with its zero byte, lies at offset at of the table. */
  ghost predicate NameAt(strs: seq<byte>, at: int, s: seq<byte>) {
    && 0 <= at && at + |s| < |strs|
    && NoNul(s) && BytesAt(strs, at, s) && strs[at + |s|] == 0
  }

  lemma NameAtSlice(strs: seq<byte>, at: nat, s: CString)
    requires at + |s| < |strs|
    ensures NameAt(strs, at, s) <==> strs[at..at + |s| + 1] == s + [0]
  {
    var t := strs[at..at + |s| + 1];
    if t == s + [0] {
      forall k | 0 <= k < |s|
        ensures strs[at + k] == s[k]
      {
        assert t[k] == s[k];
      }
      assert t[|s|] == 0;
    }
  }

  /** fdt_find_string_: the first place of the table that holds s and its zero byte. */
  method FindString(table: seq<byte>, s: CString) returns (p: int)
    ensures -1 <= p < |table|
    ensures p >= 0 ==> NameAt(table, p, s) && forall q :: 0 <= q < p ==> !NameAt(table, q, s)
    ensures p < 0 ==> forall q :: !NameAt(table, q, s)
  {
    var len := |s| + 1;
    var last := |table| - len;
    p := 0;
    while p <= last
      invariant 0 <= p
      invariant forall q :: 0 <= q < p ==> !NameAt(table, q, s)
    {
      NameAtSlice(table, p, s);
      if table[p..p + len] == s + [0] {
        return;
      }
      p := p + 1;
    }
    p := -1;
  }

  // ----- a client's walk over the whole structure block -----

  function NamedProp(name: StringResult, v: seq<byte>): Option<Token> {
    match name
    case StrErr(_) => None
    case Str(s) => Some(Prop(s, v))
  }

  /** The name and the value of the property at address a. */
  function ReadProperty(b: Blob, a: nat): Option<Token>
    requires b.Ok() && a + 12 <= |b.bytes|
  {
    var len := Get32(b.bytes, a + 4);
    if a + 12 + len > |b.bytes| then None
    else NamedProp(GetString(b, S32(Get32(b.bytes, a + 8))), b.bytes[a + 12..a + 12 + len])
  }

  /** What a client reads for the token at an offset that fdt_next_tag accepted. */
  function ReadToken(b: Blob, offset: i32, tag: u32): Option<Token>
    requires b.Ok()
  {
    if offset < 0 then None
    else if tag == BEGIN_NODE then
      var e := SkipName(b, if offset <= INT_MAX - 4 then offset + 4 else offset);
      var a := b.h.offStruct + offset + 4;
      var z := b.h.offStruct + e - 1;
      if e < 0 || a > z || z > |b.bytes| then None else Some(BeginNode(b.bytes[a..z]))
    else if tag == END_NODE then Some(EndNode)
    else if tag == NOP then Some(Nop)
    else if tag == PROP && OffsetPtr(b, offset, 12) then ReadProperty(b, b.h.offStruct + offset)
    else None
  }

  /** Walk with fdt_next_tag to the end, reading every token on the way.
      A length that makes the walker stand still counts as unreadable. */
  function ReadTokens(b: Blob, offset: i32): Option<seq<Token>>
    requires b.Ok()
    decreases 0x8000_0000 - offset
  {
    var (tag, next) := NextTag(b, offset);
    if tag == END then
      if next >= 0 then Some([End]) else None
    else if next <= offset then None
    else
      match ReadToken(b, offset, tag)
      case None => None
      case Some(t) =>
        match ReadTokens(b, next)
        case None => None
        case Some(ts) => Some([t] + ts)
  }

  // ----- reading back a laid-out structure block -----

  /** The structure block of b is the encoding of rs. */
  ghost predicate StructIs(b: Blob, rs: seq<Raw>) {
    && b.Ok() && b.h.version == 17
    && b.h.offStruct + b.h.sizeStruct <= b.h.totalSize
    && Layout(b.bytes[b.h.offStruct..b.h.offStruct + b.h.sizeStruct], rs)
  }

  lemma {:induction false} SkipNameFinds(b: Blob, offset: nat, len: nat)
    requires b.Ok() && b.h.version == 17
    requires b.h.offStruct + b.h.sizeStruct <= b.h.totalSize
    requires offset + len < b.h.sizeStruct
    requires forall i :: b.h.offStruct + offset <= i < b.h.offStruct + offset + len ==> b.bytes[i] != 0
    requires b.bytes[b.h.offStruct + offset + len] == 0
    ensures SkipName(b, offset) == offset + len + 1
    decreases len
  {
    if len > 0 { SkipNameFinds(b, offset + 1, len - 1); }
  }

  /** A token at a known place, as bytes of the blob. */
  lemma StructAt(b: Blob, rs: seq<Raw>, i: nat)
    requires Folded(StructIs(b, rs)) && i < |rs|
    ensures Off(rs, i + 1) == Off(rs, i) + RawSize(rs[i]) <= b.h.sizeStruct
    ensures RawAt(b.bytes, b.h.offStruct + Off(rs, i), rs[i])
  {
    var s := b.bytes[b.h.offStruct..b.h.offStruct + b.h.sizeStruct];
    LayoutSize(s, rs);
    OffMonotone(rs, i + 1, |rs|);
    OffStep(rs, i);
    LayoutAt(s, rs, i);
    RawAtMove(s, Off(rs, i), b.bytes, b.h.offStruct + Off(rs, i), rs[i]);
  }

  /** What the tag lemmas need of the header: a version-17 block inside the blob. */
  ghost predicate StructBounds(b: Blob) {
    b.Ok() && b.h.version == 17 && b.h.offStruct + b.h.sizeStruct <= b.h.totalSize
  }

  ghost predicate TokenIn(b: Blob, at: nat, r: Raw) {
    && StructBounds(b)
    && at % 4 == 0 && at + RawSize(r) <= b.h.sizeStruct
    && RawAt(b.bytes, b.h.offStruct + at, r)
  }

  lemma NameSkipped(b: Blob, at: nat, name: seq<byte>)
    requires TokenIn(b, at, RBegin(name))
    ensures SkipName(b, at + 4) == at + 5 + |name|
  {
    var a := b.h.offStruct + at + 4;
    forall i | a <= i < a + |name|
      ensures b.bytes[i] != 0
    {
      assert b.bytes[a + (i - a)] == name[i - a];
    }
    SkipNameFinds(b, at + 4, |name|);
  }

  /** Arithmetic of the last step: aligning the end of a token that starts aligned. */
  lemma EndOfTagAt(b: Blob, at: i32, n: nat, tag: u32)
    requires b.Ok() && 0 <= at && at % 4 == 0 && 4 <= n <= INT_MAX && OffsetPtr(b, at, n)
    requires at + TagAlign(n) <= INT_MAX
    ensures EndOfTag(b, at, at + n, tag) == (tag, at + TagAlign(n))
  {
    TagAlignShift(at, n);
  }

  lemma NextTagOfBegin(b: Blob, at: nat, n: nat)
    requires StructBounds(b) && at % 4 == 0 && at + 4 + TagAlign(n + 1) <= b.h.sizeStruct
    requires Get32(b.bytes, b.h.offStruct + at) == BEGIN_NODE && SkipName(b, at + 4) == at + 5 + n
    ensures NextTag(b, at) == (BEGIN_NODE, at + 4 + TagAlign(n + 1))
  {
    TagAlignShift(4, n + 1);
    assert NextTag(b, at) == EndOfTag(b, at, at + (5 + n), BEGIN_NODE);
    EndOfTagAt(b, at, 5 + n, BEGIN_NODE);
  }

  lemma NextTagOfProp(b: Blob, at: nat, n: nat)
    requires StructBounds(b) && at % 4 == 0 && at + 12 + TagAlign(n) <= b.h.sizeStruct
    requires Get32(b.bytes, b.h.offStruct + at) == PROP && Get32(b.bytes, b.h.offStruct + at + 4) == n
    ensures NextTag(b, at) == (PROP, at + 12 + TagAlign(n))
  {
    TagAlignShift(12, n);
    assert NextTag(b, at) == EndOfTag(b, at, at + (12 + n), PROP);
    EndOfTagAt(b, at, 12 + n, PROP);
  }

  lemma NextTagOfRaw(b: Blob, at: nat, r: Raw)
    requires TokenIn(b, at, r)
    ensures NextTag(b, at) == (TagOf(r), at + RawSize(r))
  {
    match r
    case RBegin(name) =>
      NameSkipped(b, at, name);
      NextTagOfBegin(b, at, |name|);
    case RProp(nameoff, v) => NextTagOfProp(b, at, |v|);
    case _ => EndOfTagAt(b, at, 4, TagOf(r));
  }

  /** fdt_next_tag steps from token to token. */
  lemma NextTagAt(b: Blob, rs: seq<Raw>, i: nat)
    requires Folded(StructIs(b, rs)) && i < |rs|
    ensures Off(rs, i) <= Off(rs, i + 1) <= b.h.sizeStruct
    ensures NextTag(b, Off(rs, i)) == (TagOf(rs[i]), Off(rs, i + 1))
  {
    assert Folded(TokenIn(b, Off(rs, i), rs[i])) by {
      StructAt(b, rs, i);
      SizeAligned(rs[..i]);
    }
    OffStep(rs, i);
    NextTagOfRaw(b, Off(rs, i), rs[i]);
  }

  /** What a client reads for raw token r, given the strings block of b. */
  function TokenOf(b: Blob, r: Raw): Option<Token>
    requires b.Ok()
  {
    match r
    case RBegin(name) => Some(BeginNode(name))
    case REnd => Some(EndNode)
    case RNop => Some(Nop)
    case RFin => Some(End)
    case RProp(nameoff, v) =>
      NamedProp(GetString(b, S32(nameoff)), v)
  }

  lemma ReadBegin(b: Blob, at: nat, name: seq<byte>)
    requires TokenIn(b, at, RBegin(name))
    ensures ReadToken(b, at, BEGIN_NODE) == Some(BeginNode(name))
  {
    NameSkipped(b, at, name);
    var a := b.h.offStruct + at + 4;
    assert b.bytes[a..a + |name|] == name;
  }

  lemma PropBytes(w: seq<byte>, a: nat, nameoff: u32, v: seq<byte>)
    requires RawAt(w, a, RProp(nameoff, v))
    ensures a + 12 + |v| <= |w| && |v| < TWO32
    ensures Get32(w, a + 4) == |v| && Get32(w, a + 8) == nameoff && w[a + 12..a + 12 + |v|] == v
  {
    TagAlignShift(0, |v|);
  }

  lemma ReadTokenOfRaw(b: Blob, at: nat, r: Raw)
    requires TokenIn(b, at, r) && !r.RFin?
    ensures ReadToken(b, at, TagOf(r)) == TokenOf(b, r)
  {
    match r
    case RBegin(name) => ReadBegin(b, at, name);
    case RProp(nameoff, v) => PropBytes(b.bytes, b.h.offStruct + at, nameoff, v);
    case _ =>
  }

  lemma ReadStep(b: Blob, rs: seq<Raw>, i: nat)
    requires Folded(StructIs(b, rs)) && i < |rs| && !rs[i].RFin?
    ensures Off(rs, i) < Off(rs, i + 1) <= INT_MAX
    ensures NextTag(b, Off(rs, i)) == (TagOf(rs[i]), Off(rs, i + 1))
    ensures ReadToken(b, Off(rs, i), TagOf(rs[i])) == TokenOf(b, rs[i])
  {
    NextTagAt(b, rs, i);
    StructAt(b, rs, i);
    SizeAligned(rs[..i]);
    ReadTokenOfRaw(b, Off(rs, i), rs[i]);
  }

  lemma ReadTokensStep(b: Blob, offset: i32, tag: u32, next: i32, t: Token, ts: seq<Token>)
    requires b.Ok() && NextTag(b, offset) == (tag, next) && tag != END && next > offset
    requires ReadToken(b, offset, tag) == Some(t) && ReadTokens(b, next) == Some(ts)
    ensures ReadTokens(b, offset) == Some([t] + ts)
  {
  }

  /** The tokens ts are what the reader makes of the raw tokens rs, of which only the last ends the block. */
  ghost predicate ReadsAs(b: Blob, rs: seq<Raw>, ts: seq<Token>)
    requires b.Ok()
  {
    forall n: int :: Unseal(n) ==> ReadsAsDef(b, rs, ts)
  }

  ghost predicate ReadsAsDef(b: Blob, rs: seq<Raw>, ts: seq<Token>)
    requires b.Ok()
  {
    && |rs| == |ts|
    && forall k :: 0 <= k < |rs| ==> (rs[k].RFin? <==> k == |rs| - 1) && TokenOf(b, rs[k]) == Some(ts[k])
  }

  lemma ReadsAsAt(b: Blob, rs: seq<Raw>, ts: seq<Token>, i: nat)
    requires b.Ok() && Folded(ReadsAs(b, rs, ts)) && i < |rs|
    ensures |ts| == |rs| && (rs[i].RFin? <==> i == |rs| - 1) && TokenOf(b, rs[i]) == Some(ts[i])
  {
    assert Unseal(0);
  }

  /** Reading back: the walk over an encoded structure block returns its tokens, in order. */
  lemma {:induction false} ReadBack(b: Blob, rs: seq<Raw>, ts: seq<Token>, i: nat)
    requires Folded(StructIs(b, rs)) && b.Ok() && Folded(ReadsAs(b, rs, ts)) && i < |rs| == |ts|
    ensures Off(rs, i) <= INT_MAX
    ensures ReadTokens(b, Off(rs, i)) == Some(ts[i..])
    decreases |rs| - i
  {
    ReadsAsAt(b, rs, ts, i);
    if i == |rs| - 1 {
      ReadLast(b, rs, i, ts[i]);
      assert ts[i..] == [ts[i]];
    } else {
      ReadBack(b, rs, ts, i + 1);
      ReadOne(b, rs, i, ts[i], ts[i + 1..]);
      assert ts[i..] == [ts[i]] + ts[i + 1..];
    }
  }

  lemma ReadLast(b: Blob, rs: seq<Raw>, i: nat, t: Token)
    requires Folded(StructIs(b, rs)) && b.Ok() && i < |rs| && rs[i].RFin? && TokenOf(b, rs[i]) == Some(t)
    ensures Off(rs, i) <= INT_MAX && ReadTokens(b, Off(rs, i)) == Some([t])
  {
    NextTagAt(b, rs, i);
  }

  lemma ReadOne(b: Blob, rs: seq<Raw>, i: nat, t: Token, ts: seq<Token>)
    requires Folded(StructIs(b, rs)) && b.Ok() && i + 1 < |rs| && !rs[i].RFin? && TokenOf(b, rs[i]) == Some(t)
    requires Off(rs, i + 1) <= INT_MAX && ReadTokens(b, Off(rs, i + 1)) == Some(ts)
    ensures Off(rs, i) <= INT_MAX && ReadTokens(b, Off(rs, i)) == Some([t] + ts)
  {
    ReadStep(b, rs, i);
    ReadTokensStep(b, Off(rs, i), TagOf(rs[i]), Off(rs, i + 1), t, ts);
  }
}
