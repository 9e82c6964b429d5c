/** Paths in a flattened device tree (fdt_ro.c): fdt_get_path, fdt_path_offset_namelen and
    fdt_supernode_atdepth_offset, and when a path leads back to its node. */
module FdtPath {
  import opened Sealing
  import opened FdtFormat
  import opened FdtReader
  import opened FdtWriter
  import opened FdtRoundTrip
  import opened FdtTree

  const SLASH: byte := 47

  // ----- the nodes that are open at a token -----

  /** The nodes, outermost first, that have begun and not ended before token j. */
  function Stack(ts: seq<Token>, j: nat): (s: seq<nat>)
    requires j <= |ts|
    ensures forall t :: 0 <= t < |s| ==> s[t] < j
  {
    if j == 0 then []
    else
      var s := Stack(ts, j - 1);
      match ts[j - 1]
      case BeginNode(_) => s + [j - 1]
      case EndNode => if s == [] then [] else s[..|s| - 1]
      case _ => s
  }

  /** A node with its ancestors, root first. */
  function Chain(ts: seq<Token>, i: nat): seq<nat>
    requires i < |ts|
  {
    Stack(ts, i) + [i]
  }

  /** Token i begins a node at or below the node at offset 0. */
  predicate InTree(ts: seq<Token>, i: nat) {
    i < |ts| && ts[i].BeginNode? && Chain(ts, i)[0] == 0
  }

  /** Nodes opened before token j and still open at c were open at j, in the same place. */
  lemma {:induction false} StackOld(ts: seq<Token>, j: nat, c: nat, t: nat)
    requires j <= c <= |ts| && t < |Stack(ts, c)| && Stack(ts, c)[t] < j
    ensures t < |Stack(ts, j)| && Stack(ts, j)[t] == Stack(ts, c)[t]
    decreases c
  {
    if j < c { StackOld(ts, j, c - 1, t); }
  }

  /** An open node was opened inside the ones before it. */
  lemma {:induction false} StackPrefix(ts: seq<Token>, j: nat, t: nat)
    requires j <= |ts| && t < |Stack(ts, j)|
    ensures Stack(ts, j)[t] < j && ts[Stack(ts, j)[t]].BeginNode?
    ensures Stack(ts, Stack(ts, j)[t]) == Stack(ts, j)[..t]
    decreases j
  {
    var s := Stack(ts, j - 1);
    if t < |s| {
      StackPrefix(ts, j - 1, t);
    }
    assert t < |s| ==> Stack(ts, j)[..t] == s[..t];
    assert t == |s| ==> Stack(ts, j)[..t] == s;
  }

  lemma ChainPrefix(ts: seq<Token>, i: nat, t: nat)
    requires i < |ts| && ts[i].BeginNode? && t < |Chain(ts, i)|
    ensures Chain(ts, i)[t] <= i && ts[Chain(ts, i)[t]].BeginNode?
    ensures Chain(ts, Chain(ts, i)[t]) == Chain(ts, i)[..t + 1]
  {
    if t < |Stack(ts, i)| {
      StackPrefix(ts, i, t);
      assert Chain(ts, i)[..t + 1] == Stack(ts, i)[..t] + [Stack(ts, i)[t]];
    } else {
      assert Chain(ts, i)[..t + 1] == Chain(ts, i);
    }
  }

  // ----- subnodes and their stacks -----

  /** Node k has the same parent as c and answers to its name. */
  predicate Answers(ts: seq<Token>, k: nat, c: nat)
    requires k <= c < |ts| && ts[c].BeginNode?
  {
    ts[k].BeginNode? && Stack(ts, k) == Stack(ts, c) && NodeNameEq(ts[k].name, ts[c].name)
  }

  /** An earlier node with the same parent also answers to this node's name. */
  predicate Shadowed(ts: seq<Token>, c: nat)
    requires c < |ts| && ts[c].BeginNode?
  {
    exists k :: 0 <= k < c && Answers(ts, k, c)
  }

  /** Inside the node n at token j, d levels down. */
  predicate Below(ts: seq<Token>, n: nat, j: nat, d: nat) {
    && n < j <= |ts| && ts[n].BeginNode?
    && |Stack(ts, j)| == |Chain(ts, n)| + d && Stack(ts, j)[..|Chain(ts, n)|] == Chain(ts, n)
  }

  lemma BelowBegin(ts: seq<Token>, n: nat, j: nat, d: nat)
    requires Below(ts, n, j, d) && j < |ts| && ts[j].BeginNode?
    ensures Below(ts, n, j + 1, d + 1) && (Stack(ts, j) == Chain(ts, n) <==> d == 0)
  {
    if d == 0 { assert Stack(ts, j) == Chain(ts, n); }
  }

  lemma BelowEnd(ts: seq<Token>, n: nat, j: nat, d: nat)
    requires Below(ts, n, j, d) && j < |ts| && ts[j].EndNode? && d > 0
    ensures Below(ts, n, j + 1, d - 1)
  {
  }

  lemma BelowOther(ts: seq<Token>, n: nat, j: nat, d: nat)
    requires Below(ts, n, j, d) && j < |ts| && !ts[j].EndNode? && !ts[j].BeginNode?
    ensures Below(ts, n, j + 1, d)
  {
  }

  /** The node n does not end before a later child of it. */
  lemma BelowStays(ts: seq<Token>, n: nat, j: nat, c: nat)
    requires Below(ts, n, j, 0) && j < c < |ts| && Stack(ts, c) == Chain(ts, n)
    ensures !ts[j].EndNode?
  {
    StackOld(ts, j + 1, c, |Stack(ts, n)|);
  }

  /** A subnode search returns a child. */
  lemma {:induction false} FoundIsChild(ts: seq<Token>, n: nat, j: nat, d: nat, name: seq<byte>)
    requires Below(ts, n, j, d)
    ensures var k := FindSubnode(ts, j, d, name);
            k >= 0 ==> ts[k].BeginNode? && Stack(ts, k) == Chain(ts, n)
    decreases |ts| - j
  {
    if j < |ts| && !ts[j].End? {
      if ts[j].BeginNode? {
        BelowBegin(ts, n, j, d);
        FoundIsChild(ts, n, j + 1, d + 1, name);
      } else if !ts[j].EndNode? {
        BelowOther(ts, n, j, d);
        FoundIsChild(ts, n, j + 1, d, name);
      } else if d > 0 {
        BelowEnd(ts, n, j, d);
        FoundIsChild(ts, n, j + 1, d - 1, name);
      }
    }
  }

  /** The first node from j on that answers to the name of c. */
  ghost predicate FirstAnswer(ts: seq<Token>, j: nat, k: int, c: nat)
    requires c < |ts| && ts[c].BeginNode?
  {
    j <= k <= c && Answers(ts, k, c) && forall x :: j <= x < k ==> !Answers(ts, x, c)
  }

  /** Searching for the name of the child c finds it, unless an earlier child answers to it. */
  lemma {:induction false} ChildFound(ts: seq<Token>, n: nat, j: nat, d: nat, c: nat)
    requires Folded(Below(ts, n, j, d)) && j <= c < |ts| && ts[c].BeginNode? && Stack(ts, c) == Chain(ts, n)
    requires forall k :: 0 <= k < c ==> !ts[k].End?
    ensures FirstAnswer(ts, j, FindSubnode(ts, j, d, ts[c].name), c)
    decreases c - j
  {
    if ts[j].BeginNode? {
      BelowBegin(ts, n, j, d);
      if j < c && !(d == 0 && NodeNameEq(ts[j].name, ts[c].name)) {
        ChildFound(ts, n, j + 1, d + 1, c);
      }
    } else if ts[j].EndNode? {
      if d == 0 { BelowStays(ts, n, j, c); }
      BelowEnd(ts, n, j, d);
      ChildFound(ts, n, j + 1, d - 1, c);
    } else {
      BelowOther(ts, n, j, d);
      ChildFound(ts, n, j + 1, d, c);
    }
  }

  lemma ChildOf(ts: seq<Token>, n: nat, c: nat)
    requires n < c < |ts| && ts[n].BeginNode? && ts[c].BeginNode? && Stack(ts, c) == Chain(ts, n)
    requires forall k :: 0 <= k < c ==> !ts[k].End?
    ensures var k := FindSubnode(ts, n + 1, 0, ts[c].name);
            && 0 <= k <= c && ts[k].BeginNode? && Stack(ts, k) == Stack(ts, c)
            && (k == c <==> !Shadowed(ts, c))
  {
    ChildFound(ts, n, n + 1, 0, c);
    forall x | 0 <= x <= n ensures !Answers(ts, x, c) {
      assert |Stack(ts, x)| > |Stack(ts, n)| ==> Stack(ts, x)[|Stack(ts, n)|] < x;
    }
  }

  // ----- fdt_path_offset_namelen -----

  /** memchr for a slash, from p on; the end of the path if there is none. */
  function NextSlash(path: seq<byte>, p: nat): (q: nat)
    requires p <= |path|
    ensures p <= q <= |path| && (q < |path| ==> path[q] == SLASH)
    ensures forall k :: p <= k < q ==> path[k] != SLASH
    decreases |path| - p
  {
    if p == |path| || path[p] == SLASH then p else NextSlash(path, p + 1)
  }

  /** The node that the rest of the path, from p on, leads to from the node at token n. */
  function Follow(ts: seq<Token>, n: nat, path: seq<byte>, p: nat): (r: int)
    requires n < |ts| && p <= |path|
    ensures r < |ts|
    decreases |path| - p
  {
    if p == |path| then n
    else if path[p] == SLASH then Follow(ts, n, path, p + 1)
    else
      var q := NextSlash(path, p);
      var k := if ts[n].BeginNode? then FindSubnode(ts, n + 1, 0, path[p..q]) else BADOFFSET;
      if k < 0 then k else Follow(ts, k, path, q)
  }

  /** The names between the slashes of a path, after the bytes read so far of the first one. */
  function Names(path: seq<byte>, read: seq<byte>): seq<seq<byte>> {
    if path == [] then (if read == [] then [] else [read])
    else if path[0] == SLASH then (if read == [] then [] else [read]) + Names(path[1..], [])
    else Names(path[1..], read + [path[0]])
  }

  /** From node to subnode, name by name. */
  function WalkNames(ts: seq<Token>, n: nat, names: seq<seq<byte>>): (r: int)
    requires n < |ts|
    ensures r < |ts|
    decreases |names|
  {
    if names == [] then n
    else
      var k := if ts[n].BeginNode? then FindSubnode(ts, n + 1, 0, names[0]) else BADOFFSET;
      if k < 0 then k else WalkNames(ts, k, names[1..])
  }

  lemma {:induction false} FirstName(path: seq<byte>, p: nat, q: nat, read: seq<byte>)
    requires p <= q <= |path| && (q < |path| ==> path[q] == SLASH) && (forall k :: p <= k < q ==> path[k] != SLASH)
    requires read + path[p..q] != []
    ensures Names(path[p..], read) == [read + path[p..q]] + Names(path[q..], [])
    decreases q - p
  {
    if p == q {
      assert read + path[p..q] == read;
      if q < |path| { assert Names(path[q..], []) == [] + Names(path[q..][1..], []); }
    } else {
      assert path[p..][1..] == path[p + 1..] && path[p..][0] == path[p];
      assert read + path[p..q] == (read + [path[p]]) + path[p + 1..q];
      FirstName(path, p + 1, q, read + [path[p]]);
    }
  }

  /** Following a path is going from node to subnode by the names between its slashes; empty names, of
      doubled or trailing slashes, do not count. */
  lemma {:induction false} FollowIsWalk(ts: seq<Token>, n: nat, path: seq<byte>, p: nat)
    requires n < |ts| && p <= |path|
    ensures Follow(ts, n, path, p) == WalkNames(ts, n, Names(path[p..], []))
    decreases |path| - p
  {
    if p < |path| {
      if path[p] == SLASH {
        assert path[p..][1..] == path[p + 1..];
        assert [] + Names(path[p + 1..], []) == Names(path[p + 1..], []);
        FollowIsWalk(ts, n, path, p + 1);
      } else {
        var q := NextSlash(path, p);
        FirstName(path, p, q, []);
        assert [] + path[p..q] == path[p..q];
        var names := Names(path[p..], []);
        assert names[0] == path[p..q] && names[1..] == Names(path[q..], []);
        var k := if ts[n].BeginNode? then FindSubnode(ts, n + 1, 0, path[p..q]) else BADOFFSET;
        if k >= 0 { FollowIsWalk(ts, k, path, q); }
      }
    }
  }

  /** A path never leaves the node it starts from. */
  lemma {:induction false} FollowInside(ts: seq<Token>, n: nat, path: seq<byte>, p: nat)
    requires n < |ts| && ts[n].BeginNode? && p <= |path|
    ensures var r := Follow(ts, n, path, p);
            r >= 0 ==> ts[r].BeginNode? && Chain(ts, n) <= Chain(ts, r)
    decreases |path| - p
  {
    if p < |path| {
      if path[p] == SLASH {
        FollowInside(ts, n, path, p + 1);
      } else {
        var q := NextSlash(path, p);
        FoundIsChild(ts, n, n + 1, 0, path[p..q]);
        var k := FindSubnode(ts, n + 1, 0, path[p..q]);
        if k >= 0 { FollowInside(ts, k, path, q); }
      }
    }
  }

  lemma {:induction false} NextSlashIs(path: seq<byte>, p: nat, q: nat)
    requires p <= q <= |path| && (q < |path| ==> path[q] == SLASH)
    requires forall k :: p <= k < q ==> path[k] != SLASH
    ensures NextSlash(path, p) == q
    decreases q - p
  {
    if p < q { NextSlashIs(path, p + 1, q); }
  }

  /** One component of a path is one search. */
  lemma FollowStep(ts: seq<Token>, n: nat, path: seq<byte>, p: nat, q: nat)
    requires n < |ts| && ts[n].BeginNode? && p + 1 < q <= |path| && path[p] == SLASH
    requires (q < |path| ==> path[q] == SLASH) && forall k :: p < k < q ==> path[k] != SLASH
    ensures var k := FindSubnode(ts, n + 1, 0, path[p + 1..q]);
            Follow(ts, n, path, p) == if k < 0 then k else Follow(ts, k, path, q)
  {
    NextSlashIs(path, p + 1, q);
  }

  lemma Component(pre: seq<byte>, name: seq<byte>, rest: seq<byte>, path: seq<byte>)
    requires path == pre + ([SLASH] + name) + rest && name != [] && SLASH !in name
    requires rest != [] ==> rest[0] == SLASH
    ensures var p, q := |pre|, |pre| + 1 + |name|;
            && p + 1 < q <= |path| && path[p] == SLASH && path[p + 1..q] == name
            && (q < |path| ==> path[q] == SLASH) && forall k :: p < k < q ==> path[k] != SLASH
  {
    var p := |pre|;
    forall k | p < k < p + 1 + |name| ensures path[k] != SLASH { assert path[k] == name[k - p - 1]; }
  }

  // ----- paths -----

  /** The bytes that fdt_get_path builds: every name followed by a slash. */
  function Joined(ts: seq<Token>, ch: seq<nat>): seq<byte>
    requires forall t :: 0 <= t < |ch| ==> ch[t] < |ts| && ts[ch[t]].BeginNode?
  {
    if ch == [] then [] else Joined(ts, ch[..|ch| - 1]) + ts[ch[|ch| - 1]].name + [SLASH]
  }

  /** The path it leaves: the last slash goes, except from the root's "/". */
  function Trimmed(full: seq<byte>): seq<byte> { if |full| > 1 then full[..|full| - 1] else full }

  ghost predicate Nodes(ts: seq<Token>, ch: seq<nat>) {
    forall t :: 0 <= t < |ch| ==> ch[t] < |ts| && ts[ch[t]].BeginNode?
  }

  lemma ChainNodes(ts: seq<Token>, i: nat)
    requires i < |ts| && ts[i].BeginNode?
    ensures Nodes(ts, Chain(ts, i))
  {
    forall t | 0 <= t < |Chain(ts, i)| ensures Chain(ts, i)[t] < |ts| && ts[Chain(ts, i)[t]].BeginNode? {
      ChainPrefix(ts, i, t);
    }
  }

  ghost function PathOf(ts: seq<Token>, i: nat): seq<byte>
    requires i < |ts| && ts[i].BeginNode?
  {
    ChainNodes(ts, i);
    Trimmed(Joined(ts, Chain(ts, i)))
  }

  /** Every name preceded by a slash. */
  ghost function Slashed(ts: seq<Token>, ch: seq<nat>): seq<byte>
    requires Nodes(ts, ch)
  {
    if ch == [] then [] else [SLASH] + ts[ch[0]].name + Slashed(ts, ch[1..])
  }

  lemma {:induction false} SlashedConcat(ts: seq<Token>, a: seq<nat>, b: seq<nat>)
    requires Nodes(ts, a) && Nodes(ts, b)
    ensures Nodes(ts, a + b) && Slashed(ts, a + b) == Slashed(ts, a) + Slashed(ts, b)
  {
    if a == [] {
      assert a + b == b;
    } else {
      var r := a[1..];
      SlashedConcat(ts, r, b);
      assert a == [a[0]] + r && a + b == [a[0]] + (r + b);
      SlashedHead(ts, a[0], r);
      SlashedHead(ts, a[0], r + b);
    }
  }

  lemma SlashedHead(ts: seq<Token>, x: nat, ch: seq<nat>)
    requires x < |ts| && ts[x].BeginNode? && Nodes(ts, ch)
    ensures Nodes(ts, [x] + ch) && Slashed(ts, [x] + ch) == [SLASH] + ts[x].name + Slashed(ts, ch)
  {
    assert ([x] + ch)[1..] == ch;
  }

  /** Under a root without a name, slashes after and slashes before differ by the last one. */
  lemma {:induction false} JoinedSlashed(ts: seq<Token>, root: nat, ch: seq<nat>)
    requires root < |ts| && ts[root].BeginNode? && ts[root].name == [] && Nodes(ts, ch)
    ensures Nodes(ts, [root] + ch) && Joined(ts, [root] + ch) == Slashed(ts, ch) + [SLASH]
    decreases |ch|
  {
    if ch == [] {
      assert [root] + ch == [root];
      assert [root][..0] == [];
      assert Joined(ts, [root]) == [SLASH];
    } else {
      var last := ch[|ch| - 1];
      var front := ch[..|ch| - 1];
      assert ([root] + ch)[..|ch|] == [root] + front;
      JoinedSlashed(ts, root, front);
      SlashedConcat(ts, front, [last]);
      assert front + [last] == ch;
      assert [last][1..] == [];
      assert Slashed(ts, [last]) == [SLASH] + ts[last].name;
    }
  }

  // ----- from a node to its path and back -----

  /** The naming rules: the root has no name, other names are not empty and have no slash; the
      end tag comes last. */
  predicate Clean(ts: seq<Token>) {
    && ts != [] && ts[0].BeginNode? && ts[0].name == []
    && (forall k :: 0 < k < |ts| && ts[k].BeginNode? ==> ts[k].name != [] && SLASH !in ts[k].name)
    && (forall k :: 0 <= k < |ts| - 1 ==> !ts[k].End?)
  }

  /** Somewhere on the way to node i an earlier sibling answers to the same name. */
  predicate Ambiguous(ts: seq<Token>, i: nat)
    requires i < |ts| && ts[i].BeginNode?
  {
    ChainNodes(ts, i);
    exists t :: 0 <= t < |Chain(ts, i)| && Shadowed(ts, Chain(ts, i)[t])
  }

  lemma ChainLevel(ts: seq<Token>, i: nat, t: nat)
    requires i < |ts| && ts[i].BeginNode? && 0 < t < |Chain(ts, i)|
    ensures var n, c := Chain(ts, i)[t - 1], Chain(ts, i)[t];
            n < c <= i && ts[n].BeginNode? && ts[c].BeginNode? && Stack(ts, c) == Chain(ts, n) == Chain(ts, i)[..t]
  {
    var ch := Chain(ts, i);
    var c := ch[t];
    ChainPrefix(ts, i, t);
    assert ch[..t + 1] == ch[..t] + [c];
    SameFront(Stack(ts, c), ch[..t], c);
    ChainPrefix(ts, i, t - 1);
    assert Stack(ts, c)[t - 1] == ch[t - 1];
  }

  lemma SameFront(a: seq<nat>, b: seq<nat>, x: nat)
    requires a + [x] == b + [x]
    ensures a == b
  {
    assert |a| == |a + [x]| - 1 == |b|;
    assert forall k :: 0 <= k < |a| ==> a[k] == (a + [x])[k] == b[k];
  }

  /** Where component t of the path to i lies. */
  lemma PathCut(ts: seq<Token>, ch: seq<nat>, t: nat)
    requires Nodes(ts, ch) && 0 < t < |ch|
    ensures Nodes(ts, ch[1..t]) && Nodes(ts, ch[1..t + 1]) && Nodes(ts, ch[t + 1..]) && Nodes(ts, ch[1..])
    ensures Slashed(ts, ch[1..]) == Slashed(ts, ch[1..t]) + ([SLASH] + ts[ch[t]].name) + Slashed(ts, ch[t + 1..])
    ensures |Slashed(ts, ch[1..t + 1])| == |Slashed(ts, ch[1..t])| + 1 + |ts[ch[t]].name|
  {
    assert ch[1..] == ch[1..t] + ch[t..];
    SlashedConcat(ts, ch[1..t], ch[t..]);
    assert ch[t..][1..] == ch[t + 1..];
    assert ch[1..t + 1] == ch[1..t] + [ch[t]];
    SlashedConcat(ts, ch[1..t], [ch[t]]);
    assert [ch[t]][1..] == [];
  }

  lemma NodesSlice(ts: seq<Token>, ch: seq<nat>, a: nat, b: nat)
    requires Nodes(ts, ch) && a <= b <= |ch|
    ensures Nodes(ts, ch[a..b])
  {
  }

  /** From the node n, the path from p on leads to i. */
  ghost predicate LeadsTo(ts: seq<Token>, n: nat, path: seq<byte>, p: nat, i: nat) {
    n < |ts| && p <= |path| && Follow(ts, n, path, p) == i
  }

  /** Following one component. */
  lemma FollowComponent(ts: seq<Token>, n: nat, name: seq<byte>, pre: seq<byte>, rest: seq<byte>, path: seq<byte>, k: int)
    requires n < |ts| && ts[n].BeginNode? && name != [] && SLASH !in name && path == pre + ([SLASH] + name) + rest
    requires (rest != [] ==> rest[0] == SLASH) && k == FindSubnode(ts, n + 1, 0, name)
    ensures |pre| + 1 + |name| <= |path|
    ensures Follow(ts, n, path, |pre|) == if k < 0 then k else Follow(ts, k, path, |pre| + 1 + |name|)
  {
    Component(pre, name, rest, path);
    FollowStep(ts, n, path, |pre|, |pre| + 1 + |name|);
  }

  /** A sibling k of the node c on the way to i leads away from i for good. */
  lemma AwayForGood(ts: seq<Token>, i: nat, k: nat, c: nat, t: nat, path: seq<byte>, q: nat)
    requires i < |ts| && k < |ts| && ts[k].BeginNode? && c < |ts| && k != c && Stack(ts, k) == Stack(ts, c)
    requires t < |Chain(ts, i)| && Chain(ts, i)[t] == c && |Stack(ts, c)| == t && q <= |path|
    ensures Follow(ts, k, path, q) != i
  {
    FollowInside(ts, k, path, q);
    OtherBranch(ts, i, k, c, t, Follow(ts, k, path, q));
  }

  /** One component leads from a node of the chain to the next, or away from i for good. */
  lemma LevelStep(ts: seq<Token>, i: nat, c: nat, n: nat, t: nat, pre: seq<byte>, rest: seq<byte>, path: seq<byte>)
    requires Clean(ts) && InTree(ts, i) && 0 < t < |Chain(ts, i)| && Chain(ts, i)[t] == c && Chain(ts, i)[t - 1] == n
    requires c < |ts| && n < |ts| && ts[c].BeginNode? && path == pre + ([SLASH] + ts[c].name) + rest
    requires rest != [] ==> rest[0] == SLASH
    ensures LeadsTo(ts, n, path, |pre|, i) <==> !Shadowed(ts, c) && LeadsTo(ts, c, path, |pre| + 1 + |ts[c].name|, i)
  {
    ChainLevel(ts, i, t);
    ChildOf(ts, n, c);
    var k := FindSubnode(ts, n + 1, 0, ts[c].name);
    FollowComponent(ts, n, ts[c].name, pre, rest, path, k);
    if k != c { AwayForGood(ts, i, k, c, t, path, |pre| + 1 + |ts[c].name|); }
  }

  /** The first t nodes of the chain account for the first p bytes of the path. */
  ghost predicate Position(ts: seq<Token>, ch: seq<nat>, path: seq<byte>, t: nat, p: nat) {
    && Nodes(ts, ch) && 0 < t <= |ch| && Nodes(ts, ch[1..]) && Nodes(ts, ch[1..t])
    && path == Slashed(ts, ch[1..]) && p == |Slashed(ts, ch[1..t])| && p <= |path|
  }

  lemma PositionStep(ts: seq<Token>, ch: seq<nat>, path: seq<byte>, t: nat, p: nat) returns (pre: seq<byte>, rest: seq<byte>)
    requires Folded(Position(ts, ch, path, t, p)) && t < |ch| && ch[t] < |ts| && ts[ch[t]].BeginNode?
    ensures path == pre + ([SLASH] + ts[ch[t]].name) + rest && |pre| == p
    ensures rest != [] ==> rest[0] == SLASH
    ensures Folded(Position(ts, ch, path, t + 1, p + 1 + |ts[ch[t]].name|))
  {
    PathCut(ts, ch, t);
    pre, rest := Slashed(ts, ch[1..t]), Slashed(ts, ch[t + 1..]);
  }

  lemma PositionEnd(ts: seq<Token>, ch: seq<nat>, path: seq<byte>, p: nat)
    requires Folded(Position(ts, ch, path, |ch|, p))
    ensures p == |path|
  {
    assert ch[1..|ch|] == ch[1..];
  }

  /** No node of the chain from level t on is shadowed. */
  ghost predicate Unshadowed(ts: seq<Token>, ch: seq<nat>, t: nat)
    requires Nodes(ts, ch)
  {
    forall s :: t <= s < |ch| ==> !Shadowed(ts, ch[s])
  }

  lemma UnshadowedStep(ts: seq<Token>, ch: seq<nat>, t: nat)
    requires Nodes(ts, ch) && t <= |ch|
    ensures Unshadowed(ts, ch, t) <==> t == |ch| || (!Shadowed(ts, ch[t]) && Unshadowed(ts, ch, t + 1))
  {
  }

  lemma {:induction false} FollowChain(ts: seq<Token>, i: nat, ch: seq<nat>, path: seq<byte>, t: nat, p: nat)
    requires Folded(Clean(ts)) && Folded(InTree(ts, i)) && i < |ts| && ch == Chain(ts, i) && Nodes(ts, ch)
    requires 0 < t <= |ch| && Folded(Position(ts, ch, path, t, p)) && p <= |path|
    ensures LeadsTo(ts, ch[t - 1], path, p, i) <==> Folded(Unshadowed(ts, ch, t))
    decreases |ch| - t
  {
    UnshadowedStep(ts, ch, t);
    if t == |ch| {
      PositionEnd(ts, ch, path, p);
    } else {
      var pre, rest := PositionStep(ts, ch, path, t, p);
      LevelStep(ts, i, ch[t], ch[t - 1], t, pre, rest, path);
      FollowChain(ts, i, ch, path, t + 1, p + 1 + |ts[ch[t]].name|);
    }
  }

  lemma OtherBranch(ts: seq<Token>, i: nat, k: nat, c: nat, t: nat, r: int)
    requires i < |ts| && k < |ts| && c < |ts| && k != c && Stack(ts, k) == Stack(ts, c)
    requires t < |Chain(ts, i)| && Chain(ts, i)[t] == c && |Stack(ts, c)| == t
    requires r < |ts| && (r >= 0 ==> Chain(ts, k) <= Chain(ts, r))
    ensures r != i
  {
    assert Chain(ts, k)[t] == k;
  }

  /** The path of a node leads back to that node if and only if no earlier sibling, of the node or
      of an ancestor, answers to the same name by the omitted-unit-address rule. */
  lemma PathRoundTrip(ts: seq<Token>, i: nat)
    requires Clean(ts) && InTree(ts, i)
    ensures Follow(ts, 0, PathOf(ts, i), 0) == i <==> !Ambiguous(ts, i)
  {
    var ch := Chain(ts, i);
    PathIsSlashed(ts, i);
    assert !Shadowed(ts, ch[0]);
    if |ch| > 1 {
      assert ch[1..1] == [];
      FollowChain(ts, i, ch, PathOf(ts, i), 1, 0);
    }
  }

  /** A path is the names below the root, each after its slash; the root's is a slash. */
  lemma PathIsSlashed(ts: seq<Token>, i: nat)
    requires Clean(ts) && InTree(ts, i)
    ensures Nodes(ts, Chain(ts, i)[1..]) && PathOf(ts, i) == if |Chain(ts, i)| == 1 then [SLASH] else Slashed(ts, Chain(ts, i)[1..])
  {
    var ch := Chain(ts, i);
    ChainNodes(ts, i);
    NodesSlice(ts, ch, 1, |ch|);
    assert ch[1..|ch|] == ch[1..];
    JoinedSlashed(ts, 0, ch[1..]);
    assert [0] + ch[1..] == ch;
    assert Joined(ts, ch) == Slashed(ts, ch[1..]) + [SLASH];
  }

  /** A tree with the nodes /a@1 and /a: the path of the second does not lead back to it. */
  lemma PathGoesAstray() returns (ts: seq<Token>)
    ensures |ts| == 7 && ts[1] == BeginNode([97, AT, 49]) && ts[3] == BeginNode([97])
    ensures Clean(ts) && InTree(ts, 3) && Follow(ts, 0, PathOf(ts, 3), 0) != 3
  {
    ts := [BeginNode([]), BeginNode([97, AT, 49]), EndNode, BeginNode([97]), EndNode, EndNode, End];
    assert Stack(ts, 1) == [0];
    assert Stack(ts, 2) == [0, 1];
    assert Stack(ts, 3) == [0];
    assert Answers(ts, 1, 3);
    assert Chain(ts, 3)[1] == 3;
    PathRoundTrip(ts, 3);
  }

  // ----- the methods -----

  method FindSlash(path: seq<byte>, p: nat) returns (q: nat)
    requires p <= |path|
    ensures q == NextSlash(path, p)
  {
    q := p;
    while q < |path| && path[q] != SLASH
      invariant p <= q <= |path| && NextSlash(path, p) == NextSlash(path, q)
    {
      q := q + 1;
    }
  }

  /** fdt_path_offset_namelen, for a path that starts with a slash. */
  method PathOffset(b: Blob, path: CString, ghost c: Parts) returns (offset: i32)
    requires Folded(TreeIs(b, c)) && path != [] && path[0] == SLASH
    ensures |c.tokens| == |c.raws| > 0
    ensures offset == var k := Follow(c.tokens, 0, path, 0); if k < 0 then k else Off(c.raws, k)
  {
    TreeHeader(b, c);
    var p := 0;
    offset := 0;
    ghost var n: nat := 0;
    while p < |path|
      invariant p <= |path| && n < |c.raws| && offset == Off(c.raws, n)
      invariant Follow(c.tokens, 0, path, 0) == Follow(c.tokens, n, path, p)
      decreases |path| - p
    {
      while path[p] == SLASH
        invariant p < |path|
        invariant Follow(c.tokens, 0, path, 0) == Follow(c.tokens, n, path, p)
        decreases |path| - p
      {
        p := p + 1;
        if p == |path| { return; }
      }
      var q := FindSlash(path, p);
      offset := SubnodeOffset(b, offset, path[p..q], c, n);
      if offset < 0 { return; }
      n := FindSubnode(c.tokens, n + 1, 0, path[p..q]);
      p := q;
    }
  }

  /** Until a later node i of the tree, the next node exists, and what is open there was open at j
      or is j itself. */
  lemma {:induction false} NextOnWay(ts: seq<Token>, j: nat, x: nat, d: nat, i: nat)
    requires Clean(ts) && InTree(ts, j) && InTree(ts, i) && j < x <= i
    requires |Stack(ts, x)| == d + 1 && Stack(ts, x) <= Chain(ts, j)
    ensures var (k, d') := NodeFrom(ts, x, d);
            && x <= k <= i && InTree(ts, k) && d' == |Stack(ts, k)| && Stack(ts, k) <= Chain(ts, j)
    decreases i - x
  {
    if !ts[x].BeginNode? {
      StackOld(ts, x + 1, i, 0);
      NextOnWay(ts, j, x + 1, if ts[x].EndNode? then d - 1 else d, i);
    }
  }

  /** fdt_get_name for the node at token k. */
  method GetName(b: Blob, offset: i32, ghost c: Parts, ghost k: nat) returns (name: seq<byte>)
    requires Folded(TreeIs(b, c)) && k < |c.raws| && offset == Off(c.raws, k)
    requires |c.tokens| == |c.raws| && c.tokens[k].BeginNode?
    ensures name == c.tokens[k].name
  {
    TreeStruct(b, c);
    TokenNamed(b, c, k);
    TokenKinds(b, c, k);
    StructAt(b, c.raws, k);
    SizeAligned(c.raws[..k]);
    ReadBegin(b, offset, c.raws[k].name);
    var t := ReadToken(b, offset, BEGIN_NODE);
    name := t.value.name;
  }

  /** fdt_next_node on the way from j to a later node i of the tree. */
  method StepTowards(b: Blob, offset: i32, depth: nat, ghost c: Parts, ghost j: nat, ghost i: nat)
    returns (next: i32, depth': nat, ghost k: nat)
    requires Folded(TreeIs(b, c)) && |c.tokens| == |c.raws| && Clean(c.tokens)
    requires InTree(c.tokens, j) && InTree(c.tokens, i) && j < i && offset == Off(c.raws, j)
    requires depth == |Stack(c.tokens, j)|
    ensures j < k <= i && InTree(c.tokens, k) && next == Off(c.raws, k) && depth' == |Stack(c.tokens, k)|
    ensures Stack(c.tokens, k) <= Chain(c.tokens, j)
  {
    NextOnWay(c.tokens, j, j + 1, depth, i);
    next, depth' := NextNode(b, offset, depth, c, j);
    k := NodeFrom(c.tokens, j + 1, depth).0;
  }

  lemma SameOffset(raws: seq<Raw>, j: nat, i: nat)
    requires j <= i <= |raws|
    ensures Off(raws, j) == Off(raws, i) <==> j == i
  {
    OffMonotone(raws, j, i);
  }

  /** fdt_supernode_atdepth_offset: the ancestor of node i at a depth, and the depth of i. */
  method SupernodeAtDepth(b: Blob, nodeoffset: i32, superdepth: int, ghost c: Parts, ghost i: nat)
    returns (r: i32, nodedepth: int)
    requires Folded(TreeIs(b, c)) && |c.tokens| == |c.raws| && Clean(c.tokens) && InTree(c.tokens, i)
    requires nodeoffset == Off(c.raws, i)
    ensures superdepth >= 0 ==> nodedepth == |Stack(c.tokens, i)|
    ensures 0 <= superdepth <= |Stack(c.tokens, i)| ==> r == Off(c.raws, Chain(c.tokens, i)[superdepth])
    ensures !(0 <= superdepth <= |Stack(c.tokens, i)|) ==> r == NOTFOUND
  {
    if superdepth < 0 { return NOTFOUND, 0; }
    var offset: i32, depth: nat, found: i32 := 0, 0, INTERNAL;
    ghost var j: nat := 0;
    while true
      invariant j <= i && InTree(c.tokens, j) && offset == Off(c.raws, j) && depth == |Stack(c.tokens, j)|
      invariant superdepth < depth ==> found == Off(c.raws, Stack(c.tokens, j)[superdepth])
      decreases i - j
    {
      if depth == superdepth { found := offset; }
      SameOffset(c.raws, j, i);
      if offset == nodeoffset {
        if superdepth > depth { return NOTFOUND, depth; }
        return found, depth;
      }
      offset, depth, j := StepTowards(b, offset, depth, c, j, i);
    }
  }

  // ----- fdt_get_path -----

  /** The buffer starts with the names of the nodes w, each with its slash. */
  ghost predicate Holds(buf: array<byte>, ts: seq<Token>, w: seq<nat>, p: nat)
    reads buf
  {
    && Nodes(ts, w) && p == |Joined(ts, w)| <= buf.Length
    && forall k :: 0 <= k < p ==> buf[k] == Joined(ts, w)[k]
  }

  lemma JoinedSnoc(ts: seq<Token>, w: seq<nat>, x: nat)
    requires Nodes(ts, w) && x < |ts| && ts[x].BeginNode?
    ensures Nodes(ts, w + [x]) && Joined(ts, w + [x]) == Joined(ts, w) + ts[x].name + [SLASH]
  {
    assert (w + [x])[..|w|] == w;
  }

  /** The inner loop: from the end of j, a name and its slash back to the end of j, itself a slash. */
  method BackToSlash(buf: array<byte>, p: nat, ghost j: seq<byte>, ghost name: seq<byte>) returns (p': nat)
    requires j != [] && j[|j| - 1] == SLASH && SLASH !in name && p == |j| + |name| + 1 <= buf.Length
    requires forall k :: 0 <= k < |j| ==> buf[k] == j[k]
    requires forall k :: 0 <= k < |name| ==> buf[|j| + k] == name[k]
    ensures p' == |j|
  {
    assert forall k :: |j| <= k < |j| + |name| ==> buf[k] == name[k - |j|];
    p' := p - 1;
    while buf[p' - 1] != SLASH
      invariant |j| <= p' <= |j| + |name|
      decreases p'
    {
      p' := p' - 1;
    }
  }

  lemma JoinedEnds(ts: seq<Token>, w: seq<nat>)
    requires w != [] && Nodes(ts, w)
    ensures Joined(ts, w) != [] && Joined(ts, w)[|Joined(ts, w)| - 1] == SLASH
  {
  }

  lemma JoinedBytes(ts: seq<Token>, w: seq<nat>, x: nat, j: seq<byte>, all: seq<byte>)
    requires Nodes(ts, w) && x < |ts| && ts[x].BeginNode? && j == Joined(ts, w) && Nodes(ts, w + [x]) && all == Joined(ts, w + [x])
    ensures |all| == |j| + |ts[x].name| + 1
    ensures forall k :: 0 <= k < |j| ==> all[k] == j[k]
    ensures forall k :: 0 <= k < |ts[x].name| ==> all[|j| + k] == ts[x].name[k]
  {
    JoinedSnoc(ts, w, x);
  }

  /** Back to the slash before the last name. */
  method PopName(buf: array<byte>, p: nat, ghost ts: seq<Token>, ghost w: seq<nat>, ghost x: nat) returns (p': nat)
    requires w != [] && Nodes(ts, w) && x < |ts| && ts[x].BeginNode? && SLASH !in ts[x].name
    requires Nodes(ts, w + [x]) && Holds(buf, ts, w + [x], p)
    ensures Holds(buf, ts, w, p')
  {
    ghost var j, all := Joined(ts, w), Joined(ts, w + [x]);
    JoinedBytes(ts, w, x, j, all);
    JoinedEnds(ts, w);
    assert forall k :: 0 <= k < |all| ==> buf[k] == all[k];
    p' := BackToSlash(buf, p, j, ts[x].name);
  }

  /** memcpy of a name and its slash. */
  method CopyName(buf: array<byte>, p: nat, name: seq<byte>)
    requires p + |name| + 1 <= buf.Length
    modifies buf
    ensures forall k :: 0 <= k < |name| ==> buf[p + k] == name[k]
    ensures buf[p + |name|] == SLASH
    ensures forall k :: 0 <= k < p || p + |name| + 1 <= k < buf.Length ==> buf[k] == old(buf[k])
  {
    forall k | 0 <= k < |name| { buf[p + k] := name[k]; }
    buf[p + |name|] := SLASH;
  }

  method PushName(buf: array<byte>, p: nat, name: seq<byte>, ghost ts: seq<Token>, ghost w: seq<nat>, ghost x: nat)
    requires Holds(buf, ts, w, p) && p + |name| + 1 <= buf.Length
    requires x < |ts| && ts[x].BeginNode? && ts[x].name == name
    modifies buf
    ensures Holds(buf, ts, w + [x], p + |name| + 1)
    ensures forall k :: p + |name| + 1 <= k < buf.Length ==> buf[k] == old(buf[k])
  {
    JoinedSnoc(ts, w, x);
    ghost var j, all := Joined(ts, w), Joined(ts, w + [x]);
    JoinedBytes(ts, w, x, j, all);
    CopyName(buf, p, name);
    forall k | 0 <= k < |all| ensures buf[k] == all[k] {
      if p <= k < p + |name| { assert buf[p + (k - p)] == name[k - p]; }
    }
  }

  /** w is the part of the chain whose names fitted; the next name did not fit. */
  ghost predicate Fitted(ts: seq<Token>, chain: seq<nat>, w: seq<nat>, buflen: nat) {
    && Nodes(ts, chain) && w <= chain
    && (|w| < |chain| ==> Nodes(ts, chain[..|w| + 1]) && |Joined(ts, chain[..|w| + 1])| > buflen)
  }

  lemma FittedPrefix(ts: seq<Token>, chain: seq<nat>, w: seq<nat>, buflen: nat, n: nat)
    requires Fitted(ts, chain, w, buflen) && n <= |chain|
    ensures Fitted(ts, chain[..n], if n < |w| then w[..n] else w, buflen)
  {
    if |w| < n { assert chain[..n][..|w| + 1] == chain[..|w| + 1]; }
  }

  lemma FittedMore(ts: seq<Token>, s: seq<nat>, w: seq<nat>, buflen: nat, x: nat)
    requires Fitted(ts, s, w, buflen) && |w| < |s| && x < |ts| && ts[x].BeginNode?
    ensures Fitted(ts, s + [x], w, buflen)
  {
    assert (s + [x])[..|w| + 1] == s[..|w| + 1];
  }

  lemma FittedNot(ts: seq<Token>, s: seq<nat>, buflen: nat, x: nat)
    requires Nodes(ts, s) && x < |ts| && ts[x].BeginNode? && |Joined(ts, s)| + |ts[x].name| + 1 > buflen
    ensures Fitted(ts, s + [x], s, buflen)
  {
    JoinedSnoc(ts, s, x);
    assert (s + [x])[..|s| + 1] == s + [x];
  }

  lemma {:induction false} JoinedGrows(ts: seq<Token>, ch: seq<nat>, n: nat)
    requires Nodes(ts, ch) && n <= |ch|
    ensures Nodes(ts, ch[..n]) && |Joined(ts, ch[..n])| <= |Joined(ts, ch)|
    decreases |ch|
  {
    if n == |ch| {
      assert ch[..n] == ch;
    } else {
      assert ch[..|ch| - 1][..n] == ch[..n];
      JoinedGrows(ts, ch[..|ch| - 1], n);
    }
  }

  /** Names of nodes that have ended come off the buffer. */
  method PopTo(buf: array<byte>, p0: nat, pdepth0: nat, depth: nat, ghost ts: seq<Token>, ghost w: seq<nat>)
    returns (p: nat, pdepth: nat)
    requires Clean(ts) && Holds(buf, ts, w, p0) && pdepth0 == |w| && (depth == 0 ==> w == [])
    requires forall t :: 0 < t < |w| ==> w[t] > 0
    ensures pdepth == if depth < |w| then depth else |w|
    ensures Holds(buf, ts, w[..pdepth], p)
  {
    p, pdepth := p0, pdepth0;
    assert w[..|w|] == w;
    while pdepth > depth
      invariant pdepth <= |w| && (depth < |w| ==> depth <= pdepth) && (depth >= |w| ==> pdepth == |w|)
      invariant Holds(buf, ts, w[..pdepth], p)
    {
      assert w[..pdepth] == w[..pdepth - 1] + [w[pdepth - 1]];
      assert w[..pdepth][pdepth - 1] == w[pdepth - 1];
      NodesSlice(ts, w, 0, pdepth - 1);
      assert w[0..pdepth - 1] == w[..pdepth - 1];
      p := PopName(buf, p, ts, w[..pdepth - 1], w[pdepth - 1]);
      pdepth := pdepth - 1;
    }
  }

  ghost predicate Rooted(ch: seq<nat>) { forall t :: 0 < t < |ch| ==> ch[t] > 0 }

  lemma ChainRooted(ts: seq<Token>, j: nat)
    requires j < |ts| && ts[j].BeginNode?
    ensures Rooted(Chain(ts, j)) && Nodes(ts, Chain(ts, j))
  {
    ChainNodes(ts, j);
    forall t | 0 < t < |Chain(ts, j)| ensures Chain(ts, j)[t] > 0 { ChainLevel(ts, j, t); }
  }

  /** The buffer of fdt_get_path after the node with this chain was passed. */
  ghost predicate Built(buf: array<byte>, ts: seq<Token>, chain: seq<nat>, w: seq<nat>, buflen: nat, p: nat, pdepth: nat)
    reads buf
  {
    Fitted(ts, chain, w, buflen) && Holds(buf, ts, w, p) && pdepth == |w| && p <= buflen <= buf.Length
  }

  /** Node j comes on if everything above it is there and its name fits. */
  method AddNode(b: Blob, offset: i32, depth: nat, buf: array<byte>, buflen: nat, p0: nat, pdepth0: nat,
                 ghost c: Parts, ghost j: nat, ghost s: seq<nat>, ghost w: seq<nat>)
    returns (p: nat, pdepth: nat, ghost w': seq<nat>)
    requires Folded(TreeIs(b, c)) && |c.tokens| == |c.raws| && j < |c.raws| && c.tokens[j].BeginNode?
    requires offset == Off(c.raws, j) && depth == |s|
    requires Built(buf, c.tokens, s, w, buflen, p0, pdepth0)
    modifies buf
    ensures Built(buf, c.tokens, s + [j], w', buflen, p, pdepth)
    ensures forall k :: buflen <= k < buf.Length ==> buf[k] == old(buf[k])
  {
    p, pdepth, w' := p0, pdepth0, w;
    if pdepth >= depth {
      assert w == s;
      var name := GetName(b, offset, c, j);
      if p + |name| + 1 <= buflen {
        PushName(buf, p, name, c.tokens, w, j);
        p, pdepth, w' := p + |name| + 1, pdepth + 1, w + [j];
      } else {
        FittedNot(c.tokens, s, buflen, j);
      }
    } else {
      FittedMore(c.tokens, s, w, buflen, j);
    }
  }

  /** One turn of fdt_get_path: drop what has ended, then add node j. */
  method PathTurn(b: Blob, offset: i32, depth: nat, buf: array<byte>, buflen: nat, p0: nat, pdepth0: nat,
                  ghost c: Parts, ghost j: nat, ghost prev: seq<nat>, ghost w: seq<nat>)
    returns (p: nat, pdepth: nat, ghost w': seq<nat>)
    requires Folded(TreeIs(b, c)) && |c.tokens| == |c.raws| && Clean(c.tokens) && InTree(c.tokens, j)
    requires offset == Off(c.raws, j) && depth == |Stack(c.tokens, j)| && Stack(c.tokens, j) <= prev
    requires Rooted(prev) && (depth == 0 ==> prev == [])
    requires Built(buf, c.tokens, prev, w, buflen, p0, pdepth0)
    modifies buf
    ensures Built(buf, c.tokens, Chain(c.tokens, j), w', buflen, p, pdepth)
    ensures forall k :: buflen <= k < buf.Length ==> buf[k] == old(buf[k])
  {
    ghost var ts, s := c.tokens, Stack(c.tokens, j);
    FittedPrefix(ts, prev, w, buflen, depth);
    assert prev[..depth] == s;
    p, pdepth := PopTo(buf, p0, pdepth0, depth, ts, w);
    JoinedGrows(ts, w, pdepth);
    assert pdepth == |w| ==> w[..pdepth] == w;
    p, pdepth, w' := AddNode(b, offset, depth, buf, buflen, p, pdepth, c, j, s, w[..pdepth]);
  }

  lemma BuiltWhole(ts: seq<Token>, i: nat, w: seq<nat>, buflen: nat)
    requires i < |ts| && ts[i].BeginNode? && Fitted(ts, Chain(ts, i), w, buflen) && |w| < |Chain(ts, i)|
    ensures Nodes(ts, Chain(ts, i)) && |Joined(ts, Chain(ts, i))| > buflen
  {
    JoinedGrows(ts, Chain(ts, i), |w| + 1);
  }

  /** The last slash gives way to the zero byte, except that the root's stays. */
  method EndPath(buf: array<byte>, p: nat, buflen: nat, ghost full: seq<byte>)
    requires p == |full| <= buflen <= buf.Length && buflen >= 2 && forall k :: 0 <= k < p ==> buf[k] == full[k]
    modifies buf
    ensures |Trimmed(full)| < buflen && buf[..|Trimmed(full)|] == Trimmed(full) && buf[|Trimmed(full)|] == 0
    ensures forall k :: buflen <= k < buf.Length ==> buf[k] == old(buf[k])
  {
    var q := if p > 1 then p - 1 else p;
    buf[q] := 0;
  }

  /** fdt_get_path: succeeds exactly when the names with their slashes fit, and then leaves the
      path and its zero byte in the buffer. */
  method GetPath(b: Blob, nodeoffset: i32, buf: array<byte>, buflen: nat, ghost c: Parts, ghost i: nat) returns (err: int)
    requires Folded(TreeIs(b, c)) && |c.tokens| == |c.raws| && Clean(c.tokens) && InTree(c.tokens, i)
    requires nodeoffset == Off(c.raws, i) && buflen <= buf.Length
    modifies buf
    ensures Nodes(c.tokens, Chain(c.tokens, i))
    ensures err == if buflen >= 2 && |Joined(c.tokens, Chain(c.tokens, i))| <= buflen then 0 else NOSPACE
    ensures err == 0 ==> var path := PathOf(c.tokens, i);
      |path| < buflen && buf[..|path|] == path && buf[|path|] == 0
    ensures forall k :: buflen <= k < buf.Length ==> buf[k] == old(buf[k])
  {
    ChainNodes(c.tokens, i);
    if buflen < 2 { return NOSPACE; }
    var pdepth: nat, p: nat, offset: i32, depth: nat := 0, 0, 0, 0;
    ghost var ts, j: nat, prev: seq<nat>, w: seq<nat> := c.tokens, 0, [], [];
    while true
      invariant j <= i && InTree(ts, j) && offset == Off(c.raws, j) && depth == |Stack(ts, j)|
      invariant Stack(ts, j) <= prev && Rooted(prev) && (depth == 0 ==> prev == [])
      invariant Built(buf, ts, prev, w, buflen, p, pdepth)
      invariant forall k :: buflen <= k < buf.Length ==> buf[k] == old(buf[k])
      decreases i - j
    {
      p, pdepth, w := PathTurn(b, offset, depth, buf, buflen, p, pdepth, c, j, prev, w);
      SameOffset(c.raws, j, i);
      if offset == nodeoffset {
        if pdepth < depth + 1 {
          BuiltWhole(ts, i, w, buflen);
          return NOSPACE;
        }
        assert w == Chain(ts, i);
        EndPath(buf, p, buflen, Joined(ts, w));
        return 0;
      }
      prev := Chain(ts, j);
      ChainRooted(ts, j);
      offset, depth, j := StepTowards(b, offset, depth, c, j, i);
    }
  }

  lemma NodeName(b: Blob, c: Parts, k: nat)
    requires Folded(TreeIs(b, c)) && k < |c.raws| && |c.tokens| == |c.raws| && c.tokens[k].BeginNode?
    ensures NoNul(c.tokens[k].name) && Off(c.raws, k) + |c.tokens[k].name| + 1 <= Off(c.raws, k + 1) <= |c.block|
  {
    TreeHeader(b, c);
    TokenNamed(b, c, k);
    TreeStruct(b, c);
    StructAt(b, c.raws, k);
  }

  lemma ParentChain(ts: seq<Token>, i: nat) returns (n: nat)
    requires i < |ts| && Stack(ts, i) != []
    ensures n < i && ts[n].BeginNode? && Stack(ts, i) == Chain(ts, n)
  {
    var s := Stack(ts, i);
    n := s[|s| - 1];
    StackPrefix(ts, i, |s| - 1);
    assert s == s[..|s| - 1] + [n];
  }

  /** A path has no zero byte and is shorter than the structure block. */
  lemma {:induction false} PathBytes(b: Blob, c: Parts, i: nat)
    requires Folded(TreeIs(b, c)) && |c.tokens| == |c.raws| && i < |c.raws| && c.tokens[i].BeginNode?
    ensures Nodes(c.tokens, Chain(c.tokens, i)) && NoNul(Joined(c.tokens, Chain(c.tokens, i)))
    ensures |Joined(c.tokens, Chain(c.tokens, i))| <= Off(c.raws, i + 1) <= |c.block|
    decreases i
  {
    var s := Stack(c.tokens, i);
    ChainNodes(c.tokens, i);
    NodeName(b, c, i);
    NodesSlice(c.tokens, Chain(c.tokens, i), 0, |s|);
    assert Chain(c.tokens, i)[0..|s|] == s;
    JoinedSnoc(c.tokens, s, i);
    if s != [] {
      var n := ParentChain(c.tokens, i);
      PathBytes(b, c, n);
      OffMonotone(c.raws, n + 1, i);
    }
  }

  lemma PathStart(ts: seq<Token>, i: nat)
    requires Clean(ts) && InTree(ts, i)
    ensures PathOf(ts, i) != [] && PathOf(ts, i)[0] == SLASH
  {
    var ch := Chain(ts, i);
    ChainNodes(ts, i);
    NodesSlice(ts, ch, 1, |ch|);
    assert ch[1..|ch|] == ch[1..];
    JoinedSlashed(ts, 0, ch[1..]);
    assert [0] + ch[1..] == ch;
  }

  method StrLen(buf: array<byte>, ghost n: nat) returns (len: nat)
    requires n < buf.Length && buf[n] == 0 && forall k :: 0 <= k < n ==> buf[k] != 0
    ensures len == n
  {
    len := 0;
    while buf[len] != 0
      invariant len <= n
      decreases n - len
    {
      len := len + 1;
    }
  }

  lemma PathIsString(b: Blob, c: Parts, i: nat)
    requires Folded(TreeIs(b, c)) && |c.tokens| == |c.raws| && Clean(c.tokens) && InTree(c.tokens, i)
    ensures var path := PathOf(c.tokens, i);
            NoNul(path) && 0 < |path| <= INT_MAX - 16 && path[0] == SLASH
  {
    PathBytes(b, c, i);
    PathStart(c.tokens, i);
    TreeHeader(b, c);
  }

  /** The string in a buffer. */
  method ReadString(buf: array<byte>, ghost s: seq<byte>) returns (r: seq<byte>)
    requires |s| < buf.Length && buf[..|s|] == s && buf[|s|] == 0 && NoNul(s)
    ensures r == s
  {
    assert forall k :: 0 <= k < |s| ==> buf[..|s|][k] == s[k];
    var len := StrLen(buf, |s|);
    r := buf[..len];
  }

  /** For every node and every buffer: fdt_path_offset of the path is the node again exactly when
      the path is not ambiguous, and there is a path exactly when the buffer is large enough. */
  method PathThereAndBack(b: Blob, nodeoffset: i32, buf: array<byte>, buflen: nat, ghost c: Parts, ghost i: nat)
    returns (err: int, back: i32)
    requires Folded(TreeIs(b, c)) && |c.tokens| == |c.raws| && Clean(c.tokens) && InTree(c.tokens, i)
    requires nodeoffset == Off(c.raws, i) && buflen <= buf.Length
    modifies buf
    ensures Nodes(c.tokens, Chain(c.tokens, i))
    ensures err == 0 <==> buflen >= 2 && |Joined(c.tokens, Chain(c.tokens, i))| <= buflen
    ensures err == 0 ==> (back == nodeoffset <==> !Ambiguous(c.tokens, i))
  {
    back := 0;
    err := GetPath(b, nodeoffset, buf, buflen, c, i);
    if err == 0 {
      PathIsString(b, c, i);
      var path := ReadString(buf, PathOf(c.tokens, i));
      back := PathOffset(b, path, c);
      BackIsNode(c.tokens, c.raws, i, back);
    }
  }

  lemma BackIsNode(ts: seq<Token>, raws: seq<Raw>, i: nat, back: int)
    requires Clean(ts) && InTree(ts, i) && |ts| == |raws|
    requires back == var k := Follow(ts, 0, PathOf(ts, i), 0); if k < 0 then k else Off(raws, k)
    ensures back == Off(raws, i) <==> !Ambiguous(ts, i)
  {
    PathRoundTrip(ts, i);
    NoOtherOffset(raws, i, Follow(ts, 0, PathOf(ts, i), 0));
  }

  lemma NoOtherOffset(raws: seq<Raw>, i: nat, k: int)
    requires i < |raws| && k < |raws|
    ensures (if k < 0 then k else Off(raws, k)) == Off(raws, i) <==> k == i
  {
    if k >= 0 {
      if k <= i { SameOffset(raws, k, i); } else { SameOffset(raws, i, k); }
    }
  }
}
