/** A well-formed version-17 tree in a buffer, and the searches of fdt.c and fdt_ro.c over it:
    next tag, next node, properties of a node, subnodes, the end of a node. */
module FdtTree {
  import opened Sealing
  import opened Wrappers
  import opened FdtFormat
  import opened FdtReader
  import opened FdtWriter
  import opened FdtRoundTrip

  /** What a buffer holds: everything below the structure block, the block, bytes between the
      blocks, the strings, free space; and the tokens of the block. */
  datatype Parts = Parts(low: seq<byte>, block: seq<byte>, mid: seq<byte>, strs: seq<byte>, free: seq<byte>,
                         raws: seq<Raw>, tokens: seq<Token>)
  {
    function Buffer(): seq<byte> { low + block + mid + strs + free }
  }

  /** The tokens are named by the table, and the end tag comes last and only there. */
  ghost predicate Named(strs: seq<byte>, raws: seq<Raw>, tokens: seq<Token>) {
    && |raws| == |tokens| && raws != []
    && forall k :: 0 <= k < |raws| ==>
         (raws[k].RFin? <==> k == |raws| - 1) && NamedFromStart(strs, raws[k], tokens[k])
  }

  ghost predicate Headed(h: Header, c: Parts) {
    && h.magic == FDT_MAGIC && h.version == 17 && h.lastComp <= 17
    && h.totalSize == |c.Buffer()| && h.offStruct == |c.low| && h.sizeStruct == |c.block|
    && h.offStrings == |c.low| + |c.block| + |c.mid| && h.sizeStrings == |c.strs|
    && HEADER_SIZE <= h.offRsvmap && h.offRsvmap + 16 <= |c.low|
  }

  /** Buffer b holds the well-formed tree c. */
  ghost predicate TreeIs(b: Blob, c: Parts) {
    forall n: int :: Unseal(n) ==> TreeDef(b, c)
  }

  ghost predicate TreeDef(b: Blob, c: Parts) {
    && b.bytes == c.Buffer() && |b.bytes| <= INT_MAX && Folded(Headed(b.h, c))
    && Folded(Layout(c.block, c.raws)) && Folded(Named(c.strs, c.raws, c.tokens))
  }

  /** The header words of a tree. */
  lemma TreeHeader(b: Blob, c: Parts)
    requires Folded(TreeIs(b, c))
    ensures b.Ok() && b.bytes == c.Buffer() && |c.tokens| == |c.raws| > 0
    ensures b.h.magic == FDT_MAGIC && b.h.version == 17 && b.h.lastComp <= 17
    ensures b.h.totalSize == |c.low| + |c.block| + |c.mid| + |c.strs| + |c.free|
    ensures b.h.offStruct == |c.low| && b.h.sizeStruct == |c.block|
    ensures b.h.offStrings == |c.low| + |c.block| + |c.mid| && b.h.sizeStrings == |c.strs|
    ensures HEADER_SIZE <= b.h.offRsvmap && b.h.offRsvmap + 16 <= |c.low|
  {
    assert Unseal(0);
  }

  /** Token k is what the table makes of raw token k. */
  lemma TokenNamed(b: Blob, c: Parts, k: nat)
    requires Folded(TreeIs(b, c)) && k < |c.raws|
    ensures |c.tokens| == |c.raws| && (c.raws[k].RFin? <==> k == |c.raws| - 1)
    ensures NamedFromStart(c.strs, c.raws[k], c.tokens[k])
  {
    assert Unseal(0);
  }

  lemma TreeStruct(b: Blob, c: Parts)
    requires Folded(TreeIs(b, c))
    ensures b.Ok() && Folded(StructIs(b, c.raws))
  {
    assert Unseal(0);
    assert b.bytes[b.h.offStruct..b.h.offStruct + b.h.sizeStruct] == c.block;
  }

  lemma TokenOfTree(b: Blob, c: Parts, k: nat)
    requires Folded(TreeIs(b, c)) && k < |c.raws|
    ensures b.Ok() && k < |c.tokens| && TokenOf(b, c.raws[k]) == Some(c.tokens[k])
  {
    TokenNamed(b, c, k);
    if c.raws[k].RProp? {
      TreeHeader(b, c);
      GetStringInTable(b, c.low + c.block + c.mid, c.strs, c.free, c.raws[k].nameoff, c.tokens[k].pname);
    }
    TreeStruct(b, c);
  }

  /** A tree reads back as its tokens. */
  lemma TreeReads(b: Blob, c: Parts)
    requires Folded(TreeIs(b, c))
    ensures b.Ok() && ReadTokens(b, 0) == Some(c.tokens)
  {
    TreeStruct(b, c);
    TreeHeader(b, c);
    forall k | 0 <= k < |c.raws|
      ensures (c.raws[k].RFin? <==> k == |c.raws| - 1) && TokenOf(b, c.raws[k]) == Some(c.tokens[k])
    {
      TokenNamed(b, c, k);
      TokenOfTree(b, c, k);
    }
    assert ReadsAs(b, c.raws, c.tokens);
    ReadBack(b, c.raws, c.tokens, 0);
  }

  lemma FinishedIsTree(b: Blob, w: Contents)
    requires Folded(Finished(b, w)) && |w.rsv| >= 16
    ensures Folded(TreeIs(b, Parts(w.Head(), w.block, [], w.strs, [], w.raws, w.tokens + [End])))
  {
    assert Unseal(0);
    var c := Parts(w.Head(), w.block, [], w.strs, [], w.raws, w.tokens + [End]);
    assert c.Buffer() == b.bytes;
    forall k | 0 <= k < |c.raws|
      ensures (c.raws[k].RFin? <==> k == |c.raws| - 1) && NamedFromStart(c.strs, c.raws[k], c.tokens[k])
    {
      if k < |w.tokens| { assert c.tokens[k] == w.tokens[k]; }
    }
  }

  // ----- walking a tree, by offset and by token number -----

  /** Everything fdt_next_tag and the token readers say about token k of a tree. */
  lemma TagAt(b: Blob, c: Parts, k: nat)
    requires Folded(TreeIs(b, c)) && k < |c.raws|
    ensures b.Ok() && |c.raws| == |c.tokens| && Off(c.raws, k) % 4 == 0
    ensures Off(c.raws, k) < Off(c.raws, k + 1) <= |c.block| <= INT_MAX
    ensures NextTag(b, Off(c.raws, k)) == (TagOf(c.raws[k]), Off(c.raws, k + 1))
    ensures (TagOf(c.raws[k]) == END <==> k == |c.raws| - 1)
    ensures NamedFromStart(c.strs, c.raws[k], c.tokens[k])
  {
    TreeStruct(b, c);
    TreeHeader(b, c);
    TokenNamed(b, c, k);
    SizeAligned(c.raws[..k]);
    NextTagAt(b, c.raws, k);
    OffStep(c.raws, k);
  }

  function TagOfToken(t: Token): u32 {
    match t
    case BeginNode(_) => BEGIN_NODE
    case EndNode => END_NODE
    case Prop(_, _) => PROP
    case Nop => NOP
    case End => END
  }

  /** fdt_next_tag on token j of a tree. */
  method TagStep(b: Blob, offset: i32, ghost c: Parts, ghost j: nat) returns (tag: u32, next: i32)
    requires Folded(TreeIs(b, c)) && j < |c.raws| && offset == Off(c.raws, j)
    ensures |c.tokens| == |c.raws| && tag == TagOfToken(c.tokens[j]) && next == Off(c.raws, j + 1) >= 0
    ensures tag != END ==> j + 1 < |c.raws|
  {
    TagAt(b, c, j);
    tag, next := NextTagLoop(b, offset);
  }

  /** fdt_check_node_offset_ */
  function CheckNodeOffset(b: Blob, offset: i32): (r: i32)
    requires b.Ok()
  {
    if offset < 0 || offset % 4 != 0 then BADOFFSET
    else
      var (tag, next) := NextTag(b, offset);
      if tag != BEGIN_NODE then BADOFFSET else next
  }

  lemma CheckNodeAt(b: Blob, c: Parts, k: nat)
    requires Folded(TreeIs(b, c)) && k < |c.raws|
    ensures b.Ok() && |c.tokens| == |c.raws| && Off(c.raws, k) <= INT_MAX
    ensures CheckNodeOffset(b, Off(c.raws, k)) == if c.tokens[k].BeginNode? then Off(c.raws, k + 1) else BADOFFSET
    ensures c.tokens[k].BeginNode? ==> k + 1 < |c.raws|
  {
    TagAt(b, c, k);
  }

  /** Where fdt_node_end_offset_ stops: the token after the one that closes depth d, or NOTFOUND. */
  function EndFrom(ts: seq<Token>, j: nat, d: nat): (e: int)
    requires j <= |ts|
    ensures e == NOTFOUND || j < e <= |ts|
    decreases |ts| - j
  {
    if j == |ts| then NOTFOUND
    else match ts[j]
      case BeginNode(_) => EndFrom(ts, j + 1, d + 1)
      case EndNode => if d == 0 then j + 1 else EndFrom(ts, j + 1, d - 1)
      case End => NOTFOUND
      case _ => EndFrom(ts, j + 1, d)
  }

  /** The next node from token j at depth d: its number and depth; depth -1 and the number after
      the closing token when the depth ends first; none at the end tag. */
  function NodeFrom(ts: seq<Token>, j: nat, d: nat): (r: (int, int))
    requires j <= |ts|
    ensures r.0 == NOTFOUND || (j <= r.0 <= |ts| && r.1 >= -1)
    ensures r.0 >= 0 && r.1 >= 0 ==> r.0 < |ts| && ts[r.0].BeginNode?
    ensures r.0 < 0 ==> r.1 >= 0
    decreases |ts| - j
  {
    if j == |ts| then (NOTFOUND, d)
    else match ts[j]
      case BeginNode(_) => (j, d + 1)
      case EndNode => if d == 0 then (j + 1, -1) else NodeFrom(ts, j + 1, d - 1)
      case End => (NOTFOUND, d)
      case _ => NodeFrom(ts, j + 1, d)
  }

  /** Going from node to node finds the end of the first. */
  lemma {:induction false} NodeFromEnd(ts: seq<Token>, j: nat, d: nat)
    requires j <= |ts|
    ensures var (k, d') := NodeFrom(ts, j, d);
            EndFrom(ts, j, d) == if k < 0 then NOTFOUND else if d' < 0 then k else EndFrom(ts, k + 1, d')
    decreases |ts| - j
  {
    if j < |ts| && !ts[j].BeginNode? && !ts[j].End? && !(ts[j].EndNode? && d == 0) {
      NodeFromEnd(ts, j + 1, if ts[j].EndNode? then d - 1 else d);
    }
  }

  /** fdt_next_node from the node at token i, with a depth to keep. */
  method NextNode(b: Blob, offset: i32, depth: nat, ghost c: Parts, ghost i: nat) returns (next: i32, depth': int)
    requires Folded(TreeIs(b, c)) && i < |c.raws| && offset == Off(c.raws, i)
    ensures |c.tokens| == |c.raws|
    ensures !c.tokens[i].BeginNode? ==> next == BADOFFSET && depth' == depth
    ensures c.tokens[i].BeginNode? ==>
      var (k, d) := NodeFrom(c.tokens, i + 1, depth);
      depth' == d && next == if k < 0 then k else Off(c.raws, k)
  {
    CheckNodeAt(b, c, i);
    next := CheckNodeOffset(b, offset);
    depth' := depth;
    if next < 0 { return; }
    var o: i32, tag: u32 := next, 0;
    ghost var j := i + 1;
    while true
      invariant i < j < |c.raws| == |c.tokens| && depth' >= 0
      invariant o == Off(c.raws, j)
      invariant NodeFrom(c.tokens, i + 1, depth) == NodeFrom(c.tokens, j, depth')
      decreases |c.raws| - j
    {
      var nextoffset;
      tag, nextoffset := TagStep(b, o, c, j);
      if tag == BEGIN_NODE {
        return o, depth' + 1;
      } else if tag == END_NODE {
        depth' := depth' - 1;
        if depth' < 0 { return nextoffset, depth'; }
      } else if tag == END {
        if nextoffset >= 0 { return NOTFOUND, depth'; }
        return nextoffset, depth';
      }
      o, j := nextoffset, j + 1;
    }
  }

  /** fdt_node_end_offset_: the offset after the node at token i. */
  method NodeEndOffset(b: Blob, offset: i32, ghost c: Parts, ghost i: nat) returns (e: i32)
    requires Folded(TreeIs(b, c)) && i < |c.raws| && offset == Off(c.raws, i)
    ensures |c.tokens| == |c.raws|
    ensures !c.tokens[i].BeginNode? ==> e == BADOFFSET
    ensures c.tokens[i].BeginNode? ==>
      var k := EndFrom(c.tokens, i + 1, 0);
      e == if k < 0 then k else Off(c.raws, k)
  {
    var depth := 0;
    e := offset;
    ghost var j := i;
    TreeHeader(b, c);
    while e >= 0 && depth >= 0
      invariant j <= |c.raws| && (e >= 0 ==> e == Off(c.raws, j))
      invariant e >= 0 && depth >= 0 ==> j < |c.raws| == |c.tokens| && (j > i ==> c.tokens[i].BeginNode? && c.tokens[j].BeginNode?)
      invariant e >= 0 && depth >= 0 && c.tokens[i].BeginNode? ==> EndFrom(c.tokens, i + 1, 0) == EndFrom(c.tokens, j + 1, depth)
      invariant e >= 0 && depth < 0 ==> |c.tokens| == |c.raws| && c.tokens[i].BeginNode? && EndFrom(c.tokens, i + 1, 0) == j
      invariant e < 0 ==> |c.tokens| == |c.raws| && e == if c.tokens[i].BeginNode? then EndFrom(c.tokens, i + 1, 0) else BADOFFSET
      decreases |c.raws| - j, e
    {
      ghost var d := depth;
      e, depth := NextNode(b, e, depth, c, j);
      if c.tokens[i].BeginNode? { NodeFromEnd(c.tokens, j + 1, d); }
      if e >= 0 { j := NodeFrom(c.tokens, j + 1, d).0; }
    }
  }

  // ----- properties of a node -----

  /** The first property with a name, from token j on, within the properties of one node. */
  function FindProp(ts: seq<Token>, j: nat, name: seq<byte>): (p: int)
    requires j <= |ts|
    ensures p >= 0 ==> j <= p < |ts| && ts[p].Prop? && ts[p].pname == name
    ensures p >= 0 ==> forall k :: j <= k < p ==> ts[k].Nop? || (ts[k].Prop? && ts[k].pname != name)
    ensures p < 0 ==> p == NOTFOUND || p == BADSTRUCTURE
    decreases |ts| - j
  {
    if j == |ts| then BADSTRUCTURE
    else match ts[j]
      case Prop(n, _) => if n == name then j else FindProp(ts, j + 1, name)
      case Nop => FindProp(ts, j + 1, name)
      case End => BADSTRUCTURE
      case _ => NOTFOUND
  }

  /** nextprop_: the first property token from j on, past nops only. */
  function PropFrom(ts: seq<Token>, j: nat): (p: int)
    requires j <= |ts|
    ensures p >= 0 ==> j <= p < |ts| && ts[p].Prop? && forall k :: j <= k < p ==> ts[k].Nop?
    ensures p < 0 ==> p == NOTFOUND || p == BADSTRUCTURE
    decreases |ts| - j
  {
    if j == |ts| then BADSTRUCTURE
    else match ts[j]
      case Prop(_, _) => j
      case Nop => PropFrom(ts, j + 1)
      case End => BADSTRUCTURE
      case _ => NOTFOUND
  }

  /** The search goes from property to property. */
  lemma {:induction false} FindPropStep(ts: seq<Token>, j: nat, name: seq<byte>)
    requires j <= |ts|
    ensures var p := PropFrom(ts, j);
            FindProp(ts, j, name) == if p < 0 then p else if ts[p].pname == name then p else FindProp(ts, p + 1, name)
    decreases |ts| - j
  {
    if j < |ts| && ts[j].Nop? { FindPropStep(ts, j + 1, name); }
  }

  method NextProp(b: Blob, offset: i32, ghost c: Parts, ghost j: nat) returns (p: i32)
    requires Folded(TreeIs(b, c)) && j < |c.raws| && offset == Off(c.raws, j)
    ensures |c.tokens| == |c.raws|
    ensures p == var k := PropFrom(c.tokens, j); if k < 0 then k else Off(c.raws, k)
  {
    var o := offset;
    ghost var k := j;
    while true
      invariant j <= k < |c.raws| && o == Off(c.raws, k)
      invariant |c.tokens| == |c.raws| ==> PropFrom(c.tokens, j) == PropFrom(c.tokens, k)
      decreases |c.raws| - k
    {
      var tag, next := TagStep(b, o, c, k);
      if tag == END {
        if next >= 0 { return BADSTRUCTURE; }
        return next;
      }
      if tag == PROP { return o; }
      if tag != NOP { return NOTFOUND; }
      o, k := next, k + 1;
    }
  }

  lemma PropName(b: Blob, c: Parts, k: nat)
    requires Folded(TreeIs(b, c)) && k < |c.raws| && c.raws[k].RProp?
    ensures b.Ok() && |c.tokens| == |c.raws| && c.tokens[k].Prop? && c.raws[k].nameoff <= INT_MAX
    ensures GetString(b, c.raws[k].nameoff) == Str(c.tokens[k].pname)
  {
    TokenNamed(b, c, k);
    TreeHeader(b, c);
    GetStringInTable(b, c.low + c.block + c.mid, c.strs, c.free, c.raws[k].nameoff, c.tokens[k].pname);
  }

  /** The words and the bytes of the property at token k. */
  lemma PropAt(b: Blob, c: Parts, k: nat)
    requires Folded(TreeIs(b, c)) && k < |c.raws| && c.raws[k].RProp?
    ensures var a, v := |c.low| + Off(c.raws, k), c.raws[k].value;
            && a + 12 + |v| <= |b.bytes| && |v| <= INT_MAX && b.h.offStruct == |c.low|
            && Get32(b.bytes, a + 4) == |v| && Get32(b.bytes, a + 8) == c.raws[k].nameoff
            && b.bytes[a + 12..a + 12 + |v|] == v
  {
    var a := |c.low| + Off(c.raws, k);
    TreeHeader(b, c);
    assert Folded(RawAt(b.bytes, a, c.raws[k])) by {
      TreeStruct(b, c);
      StructAt(b, c.raws, k);
    }
    PropBytes(b.bytes, a, c.raws[k].nameoff, c.raws[k].value);
  }

  /** The name word of the property at token k. */
  method NameWord(b: Blob, offset: i32, ghost c: Parts, ghost k: nat) returns (nameoff: u32)
    requires Folded(TreeIs(b, c)) && k < |c.raws| && offset == Off(c.raws, k) && c.raws[k].RProp?
    ensures nameoff == c.raws[k].nameoff
  {
    PropAt(b, c, k);
    nameoff := Get32(b.bytes, b.h.offStruct + offset + 8);
  }

  /** fdt_string_eq_ for the name of the property at token k. */
  method PropNameEq(b: Blob, offset: i32, name: CString, ghost c: Parts, ghost k: nat) returns (eq: bool)
    requires Folded(TreeIs(b, c)) && k < |c.raws| && offset == Off(c.raws, k) && c.raws[k].RProp?
    ensures |c.tokens| == |c.raws| && c.tokens[k].Prop? && (eq <==> c.tokens[k].pname == name)
  {
    var nameoff := NameWord(b, offset, c, k);
    PropName(b, c, k);
    eq := GetString(b, S32(nameoff)) == Str(name);
  }

  lemma TokenKinds(b: Blob, c: Parts, k: nat)
    requires Folded(TreeIs(b, c)) && k < |c.raws|
    ensures |c.tokens| == |c.raws| && TagOf(c.raws[k]) == TagOfToken(c.tokens[k])
    ensures c.raws[k].RProp? <==> c.tokens[k].Prop?
    ensures c.raws[k].RProp? ==> c.raws[k].value == c.tokens[k].value
    ensures c.tokens[k] == End <==> k == |c.raws| - 1
  {
    TokenNamed(b, c, k);
  }

  /** fdt_get_property_namelen_: the property called name of the node at token i. */
  method GetProperty(b: Blob, nodeoffset: i32, name: CString, ghost c: Parts, ghost i: nat) returns (p: i32)
    requires Folded(TreeIs(b, c)) && i < |c.raws| && nodeoffset == Off(c.raws, i)
    ensures |c.tokens| == |c.raws|
    ensures !c.tokens[i].BeginNode? ==> p == BADOFFSET
    ensures c.tokens[i].BeginNode? ==>
      p == var k := FindProp(c.tokens, i + 1, name); if k < 0 then k else Off(c.raws, k)
  {
    CheckNodeAt(b, c, i);
    p := CheckNodeOffset(b, nodeoffset);
    if p < 0 { return; }
    p := NextProp(b, p, c, i + 1);
    ghost var j := i + 1;
    while p >= 0
      invariant j <= |c.raws| == |c.tokens|
      invariant p == var k := PropFrom(c.tokens, j); if k < 0 then k else Off(c.raws, k)
      invariant FindProp(c.tokens, i + 1, name) == FindProp(c.tokens, j, name)
      decreases |c.raws| - j
    {
      ghost var k := PropFrom(c.tokens, j);
      FindPropStep(c.tokens, j, name);
      TokenKinds(b, c, k);
      var eq := PropNameEq(b, p, name, c, k);
      if eq { return; }
      var tag, next := TagStep(b, p, c, k);
      p := NextProp(b, next, c, k + 1);
      j := k + 1;
    }
    FindPropStep(c.tokens, j, name);
  }

  // ----- subnodes -----

  const AT: byte := 64

  /** fdt_nodename_eq_: the whole name, or the name up to its unit address when s has none. */
  predicate NodeNameEq(name: seq<byte>, s: seq<byte>) {
    && |name| >= |s| && name[..|s|] == s
    && (|name| == |s| || (AT !in s && name[|s|] == AT))
  }

  /** The first subnode called name, from token j at depth d of the parent on. */
  function FindSubnode(ts: seq<Token>, j: nat, d: nat, name: seq<byte>): (k: int)
    requires j <= |ts|
    ensures k == NOTFOUND || (j <= k < |ts| && ts[k].BeginNode? && NodeNameEq(ts[k].name, name))
    decreases |ts| - j
  {
    if j == |ts| then NOTFOUND
    else match ts[j]
      case BeginNode(n) => if d == 0 && NodeNameEq(n, name) then j else FindSubnode(ts, j + 1, d + 1, name)
      case EndNode => if d == 0 then NOTFOUND else FindSubnode(ts, j + 1, d - 1, name)
      case End => NOTFOUND
      case _ => FindSubnode(ts, j + 1, d, name)
  }

  lemma {:induction false} FindSubnodeStep(ts: seq<Token>, j: nat, d: nat, name: seq<byte>)
    requires j <= |ts|
    ensures var (k, d') := NodeFrom(ts, j, d);
            FindSubnode(ts, j, d, name) ==
              if k < 0 || d' < 0 then NOTFOUND
              else if d' == 1 && NodeNameEq(ts[k].name, name) then k
              else FindSubnode(ts, k + 1, d', name)
    decreases |ts| - j
  {
    if j < |ts| && !ts[j].BeginNode? && !ts[j].End? && !(ts[j].EndNode? && d == 0) {
      FindSubnodeStep(ts, j + 1, if ts[j].EndNode? then d - 1 else d, name);
    }
  }

  /** fdt_get_name and fdt_nodename_eq_ for the node at token k. */
  method NodeNameMatches(b: Blob, offset: i32, name: CString, ghost c: Parts, ghost k: nat) returns (eq: bool)
    requires Folded(TreeIs(b, c)) && k < |c.raws| && offset == Off(c.raws, k) && c.raws[k].RBegin?
    ensures |c.tokens| == |c.raws| && c.tokens[k].BeginNode? && (eq <==> NodeNameEq(c.tokens[k].name, name))
  {
    TreeStruct(b, c);
    TokenNamed(b, c, k);
    StructAt(b, c.raws, k);
    SizeAligned(c.raws[..k]);
    ReadBegin(b, offset, c.raws[k].name);
    var t := ReadToken(b, offset, BEGIN_NODE);
    eq := NodeNameEq(t.value.name, name);
  }

  /** fdt_subnode_offset_namelen */
  method SubnodeOffset(b: Blob, offset: i32, name: CString, ghost c: Parts, ghost i: nat) returns (s: i32)
    requires Folded(TreeIs(b, c)) && i < |c.raws| && offset == Off(c.raws, i)
    ensures |c.tokens| == |c.raws|
    ensures !c.tokens[i].BeginNode? ==> s == BADOFFSET
    ensures c.tokens[i].BeginNode? ==>
      s == var k := FindSubnode(c.tokens, i + 1, 0, name); if k < 0 then k else Off(c.raws, k)
  {
    var depth := 0;
    s := offset;
    ghost var j := i;
    TokenKinds(b, c, i);
    while s >= 0 && depth >= 0
      invariant i <= j <= |c.raws| == |c.tokens|
      invariant s >= 0 && depth >= 0 ==> j < |c.raws| && s == Off(c.raws, j)
      invariant j > i ==> c.tokens[i].BeginNode?
      invariant s >= 0 && depth >= 0 && j > i ==> c.tokens[j].BeginNode?
      invariant s >= 0 && depth >= 0 && c.tokens[i].BeginNode? ==>
        FindSubnode(c.tokens, i + 1, 0, name) ==
          if depth == 1 && NodeNameEq(c.tokens[j].name, name) then j else FindSubnode(c.tokens, j + 1, depth, name)
      invariant depth < 0 || s < 0 ==> s >= 0 || (depth >= 0 && s == if c.tokens[i].BeginNode? then NOTFOUND else BADOFFSET)
      invariant (depth < 0 || s < 0) && c.tokens[i].BeginNode? ==> FindSubnode(c.tokens, i + 1, 0, name) == NOTFOUND
      invariant s >= 0 && depth == 1 ==> j > i
      invariant depth < 0 ==> c.tokens[i].BeginNode?
      decreases |c.raws| - j, s >= 0
    {
      if depth == 1 {
        TokenKinds(b, c, j);
        var eq := NodeNameMatches(b, s, name, c, j);
        if eq { return; }
      }
      ghost var d := depth;
      FindSubnodeStep(c.tokens, j + 1, d, name);
      s, depth := NextNode(b, s, depth, c, j);
      if s >= 0 { j := NodeFrom(c.tokens, j + 1, d).0; }
    }
    if depth < 0 { s := NOTFOUND; }
  }
}
