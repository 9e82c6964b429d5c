/** Writing and reading back: what a finished blob gives to a client that walks it, for
    every run of the sequential writer. */
module FdtRoundTrip {
  import opened Sealing
  import opened Wrappers
  import opened FdtFormat
  import opened FdtReader
  import opened FdtWriter

  /** memchr stops at the first zero byte. */
  lemma FindNulFinds(w: seq<byte>, at: nat, len: nat, n: nat)
    requires at + len <= |w| && n < len
    requires w[at + n] == 0 && forall i :: at <= i < at + n ==> w[i] != 0
    ensures FindNul(w, at, len) == n
  {
    assert FindNul(w, at, len) >= 0;
  }

  /** fdt_get_string finds every name, whatever follows the table. */
  lemma GetStringInTable(b: Blob, x: seq<byte>, strs: seq<byte>, y: seq<byte>, off: i32, name: seq<byte>)
    requires b.bytes == x + strs + y && |b.bytes| <= INT_MAX
    requires b.h.magic == FDT_MAGIC && b.h.version == 17 && b.h.lastComp <= 17
    requires b.h.totalSize == |b.bytes| && b.h.offStrings == |x| && b.h.sizeStrings == |strs|
    requires NameAt(strs, off, name)
    ensures GetString(b, off) == Str(name)
  {
    var at, len := |x| + off, |strs| - off;
    StringInPart(b.bytes, x, strs, y, off, name);
    assert GetString(b, off) == StringAt(b.bytes, at, len);
  }

  /** And only such strings: fdt_get_string gives s for an offset if and only if s stands there. */
  lemma GetStringExact(b: Blob, x: seq<byte>, strs: seq<byte>, y: seq<byte>, off: i32, name: seq<byte>)
    requires b.bytes == x + strs + y && |b.bytes| <= INT_MAX
    requires b.h.magic == FDT_MAGIC && b.h.version == 17 && b.h.lastComp <= 17
    requires b.h.totalSize == |b.bytes| && b.h.offStrings == |x| && b.h.sizeStrings == |strs|
    ensures GetString(b, off) == Str(name) <==> NameAt(strs, off, name)
  {
    if NameAt(strs, off, name) { GetStringInTable(b, x, strs, y, off, name); }
    if GetString(b, off) == Str(name) { OnlyFromTable(b, x, strs, y, off, name); }
  }

  lemma OnlyFromTable(b: Blob, x: seq<byte>, strs: seq<byte>, y: seq<byte>, off: i32, name: seq<byte>)
    requires b.bytes == x + strs + y && |b.bytes| <= INT_MAX && b.h.magic == FDT_MAGIC && b.h.version == 17
    requires b.h.totalSize == |b.bytes| && b.h.offStrings == |x| && b.h.sizeStrings == |strs|
    requires GetString(b, off) == Str(name)
    ensures NameAt(strs, off, name)
  {
    var at := |x| + off;
    assert U32(off + b.h.offStrings) == at && 0 <= off < |strs|;
    var n := FindNul(b.bytes, at, |strs| - off);
    assert name == b.bytes[at..at + n];
    TableBytes(b.bytes, x, strs, y, off);
  }

  lemma TableBytes(w: seq<byte>, x: seq<byte>, strs: seq<byte>, y: seq<byte>, off: nat)
    requires w == x + strs + y && off <= |strs|
    ensures forall k :: off <= k < |strs| ==> w[|x| + k] == strs[k]
  {
  }

  /** A name of the table, read in the whole buffer up to the end of the table. */
  lemma StringInPart(w: seq<byte>, x: seq<byte>, strs: seq<byte>, y: seq<byte>, off: nat, name: seq<byte>)
    requires w == x + strs + y && NameAt(strs, off, name)
    ensures off < |strs| && StringAt(w, |x| + off, |strs| - off) == Str(name)
  {
    var at := |x| + off;
    forall i | at <= i < at + |name|
      ensures w[i] == name[i - at] != 0
    {
      assert strs[off + (i - at)] == name[i - at];
    }
    assert w[at + |name|] == strs[off + |name|];
    FindNulFinds(w, at, |strs| - off, |name|);
    assert w[at..at + |name|] == name;
  }

  lemma TokenOfNamed(b: Blob, c: Contents, k: nat)
    requires Folded(Finished(b, c)) && k < |c.tokens|
    ensures b.Ok() && k < |c.raws| && TokenOf(b, c.raws[k]) == Some(c.tokens[k])
  {
    assert Unseal(0);
    assert NamedFromStart(c.strs, c.raws[k], c.tokens[k]);
    if c.raws[k].RProp? {
      GetStringInTable(b, c.Head() + c.block, c.strs, [], c.raws[k].nameoff, c.tokens[k].pname);
    }
  }

  /** A finished blob reads back as exactly the tokens, names and values that were written, in order. */
  lemma FinishedReads(b: Blob, c: Contents)
    requires Folded(Finished(b, c))
    ensures b.Ok() && ReadTokens(b, 0) == Some(c.tokens + [End])
  {
    assert Unseal(0);
    assert Folded(StructIs(b, c.raws)) by {
      assert b.bytes[b.h.offStruct..b.h.offStruct + b.h.sizeStruct] == c.block;
    }
    var ts := c.tokens + [End];
    forall k | 0 <= k < |c.raws|
      ensures (c.raws[k].RFin? <==> k == |c.raws| - 1) && TokenOf(b, c.raws[k]) == Some(ts[k])
    {
      if k < |c.tokens| { TokenOfNamed(b, c, k); }
    }
    assert ReadsAs(b, c.raws, ts) && Off(c.raws, 0) == 0;
    ReadBack(b, c.raws, ts, 0);
    assert ts[0..] == ts;
  }

  /** check_off_ */
  predicate CheckOff(hdrsize: u32, total: u32, off: u32) { hdrsize <= off <= total }

  /** check_block_, in sums that wrap. */
  predicate CheckBlock(hdrsize: u32, total: u32, base: u32, size: u32) {
    && CheckOff(hdrsize, total, base)
    && U32(base + size) >= base
    && CheckOff(hdrsize, total, U32(base + size))
  }

  /** fdt_header_size_ */
  function HeaderSize(version: u32): u32 {
    if version <= 1 then 28 else if version <= 2 then 32 else if version <= 16 then 36 else HEADER_SIZE
  }

  /** fdt_check_header */
  function CheckHeader(h: Header): (err: int)
    ensures err == 0 && h.version >= 17 ==> h.offStruct + h.sizeStruct <= h.totalSize <= INT_MAX
    ensures err == 0 ==> h.offStrings + h.sizeStrings <= h.totalSize
  {
    var n := HeaderSize(h.version);
    if h.magic != FDT_MAGIC then BADMAGIC
    else if h.version < 2 || h.lastComp > 17 || h.version < h.lastComp then BADVERSION
    else if h.totalSize < n || h.totalSize > INT_MAX then TRUNCATED
    else if !CheckOff(n, h.totalSize, h.offRsvmap) then TRUNCATED
    else if h.version < 17 && !CheckOff(n, h.totalSize, h.offStruct) then TRUNCATED
    else if h.version >= 17 && !CheckBlock(n, h.totalSize, h.offStruct, h.sizeStruct) then TRUNCATED
    else if !CheckBlock(n, h.totalSize, h.offStrings, h.sizeStrings) then TRUNCATED
    else 0
  }

  /** In unbounded sums: a header passes exactly when it has the magic number, versions that fit, and a
      reserve map, a structure block and a strings block between the header and totalsize. */
  lemma CheckHeaderExact(h: Header)
    ensures CheckHeader(h) == BADMAGIC <==> h.magic != FDT_MAGIC
    ensures CheckHeader(h) == BADVERSION <==> h.magic == FDT_MAGIC && !(2 <= h.version && h.lastComp <= 17 && h.lastComp <= h.version)
    ensures CheckHeader(h) == 0 <==>
      && h.magic == FDT_MAGIC && 2 <= h.version && h.lastComp <= 17 && h.lastComp <= h.version
      && h.totalSize <= INT_MAX && HeaderSize(h.version) <= h.offRsvmap <= h.totalSize
      && HeaderSize(h.version) <= h.offStruct && h.offStruct + (if h.version >= 17 then h.sizeStruct else 0) <= h.totalSize
      && HeaderSize(h.version) <= h.offStrings && h.offStrings + h.sizeStrings <= h.totalSize
    ensures CheckHeader(h) == 0 || CheckHeader(h) == BADMAGIC || CheckHeader(h) == BADVERSION || CheckHeader(h) == TRUNCATED
  {
    SumWraps(h.offStruct, h.sizeStruct);
    SumWraps(h.offStrings, h.sizeStrings);
  }

  lemma FinishedChecks(b: Blob, c: Contents)
    requires Folded(Finished(b, c))
    ensures CheckHeader(b.h) == 0
  {
    assert Unseal(0);
  }

  // ----- whole runs -----

  /** The calls a client can make after fdt_create, in any order. */
  datatype Call =
    | CallReserve(addr: u64, size: u64)
    | CallFinishReserve
    | CallBegin(name: CString)
    | CallEnd
    | CallProp(name: CString, val: seq<byte>)
    | CallFinish
    /** The buffer lies between before and after in memory and is resized to bufsize bytes at address buf. */
    | CallResize(before: seq<byte>, after: seq<byte>, buf: nat, bufsize: nat)

  /** What a call that succeeds adds to the tree ... */
  function Meaning(call: Call): seq<Token> {
    match call
    case CallBegin(name) => [BeginNode(name)]
    case CallEnd => [EndNode]
    case CallProp(name, val) => [Prop(name, val)]
    case _ => []
  }

  /** ... and to the reserve map. */
  function Entry(call: Call): seq<byte> {
    match call
    case CallReserve(addr, size) => Be64(addr) + Be64(size)
    case CallFinishReserve => Be64(0) + Be64(0)
    case _ => []
  }

  /** What the first calls mean: those that returned 0 count, in order, the others add nothing. */
  function Meanings(calls: seq<Call>, errs: seq<int>): seq<Token>
    requires |errs| <= |calls|
  {
    if errs == [] then []
    else
      var n := |errs| - 1;
      Meanings(calls, errs[..n]) + if errs[n] == 0 then Meaning(calls[n]) else []
  }

  function Entries(calls: seq<Call>, errs: seq<int>): seq<byte>
    requires |errs| <= |calls|
  {
    if errs == [] then []
    else
      var n := |errs| - 1;
      Entries(calls, errs[..n]) + if errs[n] == 0 then Entry(calls[n]) else []
  }

  /** One of the calls was an fdt_finish that returned 0. */
  ghost predicate HasFinished(calls: seq<Call>, errs: seq<int>)
    requires |errs| <= |calls|
  {
    exists i :: 0 <= i < |errs| && calls[i].CallFinish? && errs[i] == 0
  }

  lemma NextFinished(calls: seq<Call>, errs: seq<int>, err: int)
    requires |errs| < |calls|
    ensures HasFinished(calls, errs + [err]) <==> HasFinished(calls, errs) || (calls[|errs|].CallFinish? && err == 0)
  {
    if HasFinished(calls, errs) {
      var i :| 0 <= i < |errs| && calls[i].CallFinish? && errs[i] == 0;
      assert (errs + [err])[i] == 0;
    }
    assert (errs + [err])[|errs|] == err;
  }

  ghost predicate StructPhase(b: Blob) { b.h.magic == FDT_SW_MAGIC && b.h.offStrings == b.h.totalSize <= |b.bytes| }

  /** A caller can check this before a call: a value within C's int range; a name that the table
      has or that the unsigned room test cannot misjudge; a new buffer inside the memory. */
  ghost predicate InRange(b: Blob, call: Call) {
    match call
    case CallProp(name, val) =>
      && |val| <= INT_MAX - 16
      && (StructPhase(b) && b.h.sizeStrings <= b.h.totalSize ==>
            || b.h.sizeStrings + |name| + 1 <= b.h.totalSize
            || Known(b.bytes[b.h.totalSize - b.h.sizeStrings..b.h.totalSize], name))
    case CallResize(before, after, buf, bufsize) => bufsize <= INT_MAX && buf + bufsize <= |before| + |b.bytes| + |after|
    case _ => true
  }

  /** What one call leaves: the phase moves on only by a success, and only a success adds. */
  ghost predicate Called(p: Phase, c: Contents, p': Phase, c': Contents, call: Call, err: int) {
    && (p == Done ==> err != 0)
    && p' == (if err != 0 then p else if call.CallFinishReserve? then Started else if call.CallFinish? then Done else p)
    && c'.tokens == c.tokens + (if err == 0 then Meaning(call) else [])
    && c'.rsv == c.rsv + (if err == 0 then Entry(call) else [])
  }

  method RunResize(w: Writer, call: Call) returns (err: int)
    requires w.Valid() && w.phase != Blank && call.CallResize? && InRange(w.b, call)
    modifies w`b, w`c
    ensures w.Valid() && w.c.tokens == old(w.c.tokens) && w.c.rsv == old(w.c.rsv) && (w.phase == Done ==> err != 0)
  {
    var m := call.before + w.b.bytes + call.after;
    var mem := new byte[|m|](i requires 0 <= i < |m| => m[i]);
    assert mem[..] == m;
    assert Folded(BytesAt(mem[..], |call.before|, w.b.bytes));
    err := w.Resize(mem, |call.before|, call.buf, call.bufsize);
  }

  method RunCall(w: Writer, call: Call) returns (err: int)
    requires w.Valid() && w.phase != Blank && InRange(w.b, call)
    modifies w
    ensures w.Valid() && Called(old(w.phase), old(w.c), w.phase, w.c, call, err)
  {
    match call
    case CallReserve(addr, size) => err := w.AddReserveEntry(addr, size);
    case CallFinishReserve => err := w.FinishReservemap();
    case CallBegin(name) => err := w.BeginNode(name);
    case CallEnd => err := w.EndNode();
    case CallProp(name, val) =>
      PropInRange(w.b, w.phase, w.c, call);
      err := w.Property(name, val);
    case CallFinish => err := w.Finish();
    case CallResize(_, _, _, _) => err := RunResize(w, call);
  }

  lemma PropInRange(b: Blob, phase: Phase, c: Contents, call: Call)
    requires Folded(Holds(b, phase, c)) && phase != Blank && call.CallProp? && InRange(b, call)
    ensures phase == Started ==> Known(c.strs, call.name) || |c.strs| + |call.name| + 1 <= |c.Buffer()|
  {
    if phase == Started {
      PhaseMagic(b, phase, c);
      WritingHeader(b, true, c);
      assert b.bytes[b.h.totalSize - b.h.sizeStrings..b.h.totalSize] == c.strs by { assert Unseal(0); }
    }
  }

  /** Is a call in range?  (The test a careful caller makes.) */
  method TestRange(w: Writer, call: Call) returns (ok: bool)
    requires w.Valid() && w.phase != Blank
    ensures ok <==> InRange(w.b, call)
  {
    match call
    case CallProp(name, val) =>
      var h := w.b.h;
      ok := |val| <= INT_MAX - 16;
      if ok && h.magic == FDT_SW_MAGIC && h.offStrings == h.totalSize <= |w.b.bytes|
         && h.sizeStrings <= h.totalSize < h.sizeStrings + |name| + 1 {
        var p := FindString(w.b.bytes[h.totalSize - h.sizeStrings..h.totalSize], name);
        ok := p >= 0;
      }
    case CallResize(before, after, buf, bufsize) =>
      ok := bufsize <= INT_MAX && buf + bufsize <= |before| + |w.b.bytes| + |after|;
    case _ => ok := true;
  }

  /** The calls in order, whatever each returns, up to the first that is out of range. */
  method RunCalls(w: Writer, calls: seq<Call>) returns (errs: seq<int>)
    requires w.Valid() && w.phase == Reserving && w.c.tokens == [] && w.c.rsv == []
    modifies w
    ensures w.Valid() && w.phase != Blank && |errs| <= |calls|
    ensures |errs| < |calls| ==> !InRange(w.b, calls[|errs|])
    ensures w.c.tokens == Meanings(calls, errs) && w.c.rsv == Entries(calls, errs)
    ensures w.phase == Done <==> HasFinished(calls, errs)
  {
    errs := [];
    while |errs| < |calls|
      invariant w.Valid() && w.phase != Blank && |errs| <= |calls| && Folded(SoFar(w.phase, w.c, calls, errs))
      decreases |calls| - |errs|
    {
      var ok := TestRange(w, calls[|errs|]);
      if !ok { return; }
      ghost var p, c := w.phase, w.c;
      var err := RunCall(w, calls[|errs|]);
      NextSoFar(p, c, w.phase, w.c, calls, errs, err);
      errs := errs + [err];
    }
  }

  /** What a writer holds after calls with these results. */
  ghost predicate SoFar(p: Phase, c: Contents, calls: seq<Call>, errs: seq<int>) {
    && |errs| <= |calls| && c.tokens == Meanings(calls, errs) && c.rsv == Entries(calls, errs)
    && (p == Done <==> HasFinished(calls, errs))
  }

  lemma NextSoFar(p: Phase, c: Contents, p': Phase, c': Contents, calls: seq<Call>, errs: seq<int>, err: int)
    requires Folded(SoFar(p, c, calls, errs)) && |errs| < |calls| && Called(p, c, p', c', calls[|errs|], err)
    ensures Folded(SoFar(p', c', calls, errs + [err]))
  {
    assert (errs + [err])[..|errs|] == errs;
    NextFinished(calls, errs, err);
  }

  /** Round trip: after fdt_create and any sequence of calls in which fdt_finish succeeded (with
      calls that fail and are made again, and resizes into any place at any point, before the
      reserve map is finished too), a client walking the result reads exactly what the calls
      that returned 0 wrote, in order, and their reserve entries lie where the header says. */
  method RunWriter(bufsize: nat, calls: seq<Call>) returns (err: int, errs: seq<int>, b: Blob)
    requires bufsize <= INT_MAX
    ensures err == if bufsize < CREATE_HEADER then NOSPACE else 0
    ensures |errs| <= |calls| && (err == 0 && |errs| < |calls| ==> !InRange(b, calls[|errs|]))
    ensures HasFinished(calls, errs) ==>
      && b.Ok() && ReadTokens(b, 0) == Some(Meanings(calls, errs) + [End]) && CheckHeader(b.h) == 0
      && b.h.offRsvmap + |Entries(calls, errs)| == b.h.offStruct <= |b.bytes|
      && b.bytes[b.h.offRsvmap..b.h.offStruct] == Entries(calls, errs)
  {
    var w := new Writer();
    b, errs := w.b, [];
    err := w.Create(bufsize);
    if err != 0 { return; }
    errs := RunCalls(w, calls);
    b := w.b;
    if w.phase == Done {
      FinishedReads(b, w.c);
      FinishedChecks(b, w.c);
      FinishedReserves(b, w.c);
    }
  }

  lemma FinishedReserves(b: Blob, c: Contents)
    requires Folded(Finished(b, c))
    ensures b.h.offRsvmap + |c.rsv| == b.h.offStruct <= |b.bytes| && b.bytes[b.h.offRsvmap..b.h.offStruct] == c.rsv
  {
    assert Unseal(0);
  }
}
