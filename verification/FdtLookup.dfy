/** What the searches of a tree mean, by counting tags, and what every edit does to them: which
    properties, subnodes and node ends are found afterwards, in the edited node and in all others. */
module FdtLookup {
  import opened Sealing
  import opened FdtFormat
  import opened FdtTree
  import opened FdtEdit

  // ----- the structure of a token sequence -----

  function Delta(t: Token): int { if t.BeginNode? then 1 else if t.EndNode? then -1 else 0 }

  /** By how much the depth at token p is above that at token j. */
  function Level(ts: seq<Token>, j: nat, p: nat): int
    requires j <= p <= |ts|
    decreases p - j
  {
    if j == p then 0 else Level(ts, j, p - 1) + Delta(ts[p - 1])
  }

  /** Counting from depth d at token j, the depth has not ended, nor the tokens, before token p. */
  ghost predicate Reaches(ts: seq<Token>, j: nat, d: int, p: nat)
    requires j <= p <= |ts|
  {
    (forall m :: j <= m < p ==> !ts[m].End?) && (forall m :: j <= m <= p ==> d + Level(ts, j, m) >= 0)
  }

  lemma {:induction false} LevelFront(ts: seq<Token>, j: nat, p: nat)
    requires j < p <= |ts|
    ensures Level(ts, j, p) == Delta(ts[j]) + Level(ts, j + 1, p)
    decreases p - j
  {
    if j + 1 < p { LevelFront(ts, j, p - 1); }
  }

  lemma {:induction false} ReachesStep(ts: seq<Token>, j: nat, d: nat, p: nat)
    requires j < p <= |ts|
    ensures Reaches(ts, j, d, p) <==> !ts[j].End? && d + Delta(ts[j]) >= 0 && Reaches(ts, j + 1, d + Delta(ts[j]), p)
  {
    var k, d1 := j + 1, d + Delta(ts[j]);
    forall m | j < m <= p ensures d + Level(ts, j, m) == d1 + Level(ts, j + 1, m) { LevelFront(ts, j, m); }
    if Reaches(ts, j, d, p) {
      assert d + Level(ts, j, j + 1) >= 0;
      forall m | k <= m <= p ensures d1 + Level(ts, k, m) >= 0 { LevelFront(ts, j, m); }
    }
  }

  // ----- what the searches find -----

  /** Token e - 1 closes the depth d counted from token j. */
  ghost predicate ClosesAt(ts: seq<Token>, j: nat, d: nat, e: nat) {
    j < e <= |ts| && Reaches(ts, j, d, e - 1) && d + Level(ts, j, e - 1) == 0 && ts[e - 1].EndNode?
  }

  /** fdt_node_end_offset_ stops after the token that closes the node, and fails only without one. */
  lemma {:induction false} EndFromIs(ts: seq<Token>, j: nat, d: nat, e: nat)
    requires j <= |ts|
    ensures EndFrom(ts, j, d) == e <==> ClosesAt(ts, j, d, e)
    decreases |ts| - j
  {
    if j < |ts| && j + 1 < e <= |ts| {
      ReachesStep(ts, j, d, e - 1);
      LevelFront(ts, j, e - 1);
      if !ts[j].End? && d + Delta(ts[j]) >= 0 { EndFromIs(ts, j + 1, d + Delta(ts[j]), e); }
    }
  }

  ghost predicate NoBegin(ts: seq<Token>, j: nat, k: nat)
    requires k <= |ts|
  {
    forall m :: j <= m < k ==> !ts[m].BeginNode?
  }

  /** fdt_next_node stops at the next node tag, one level below where the count has got to, or after
      the token that closes the depth; it fails only at the end of the tokens. */
  ghost predicate NextNodeAt(ts: seq<Token>, j: nat, d: nat, k: int, e: int) {
    if k < 0 then exists m :: EndsAt(ts, j, d, m) && e == d + Level(ts, j, m)
    else if e < 0 then e == -1 && ClosesAt(ts, j, d, k) && NoBegin(ts, j, k)
    else j <= k < |ts| && ts[k].BeginNode? && Reaches(ts, j, d, k) && NoBegin(ts, j, k) && e == d + Level(ts, j, k) + 1
  }

  ghost predicate EndsAt(ts: seq<Token>, j: nat, d: nat, m: nat) {
    j <= m <= |ts| && (m == |ts| || ts[m].End?) && Reaches(ts, j, d, m) && NoBegin(ts, j, m)
  }

  lemma {:induction false} NodeFromIs(ts: seq<Token>, j: nat, d: nat)
    requires j <= |ts|
    ensures var r := NodeFrom(ts, j, d); NextNodeAt(ts, j, d, r.0, r.1)
    decreases |ts| - j
  {
    if j < |ts| && !ts[j].BeginNode? && !ts[j].End? && d + Delta(ts[j]) >= 0 {
      var r := NodeFrom(ts, j + 1, d + Delta(ts[j]));
      NodeFromIs(ts, j + 1, d + Delta(ts[j]));
      NextNodeBack(ts, j, d, r.0, r.1);
    } else {
      assert j == |ts| || ts[j].End? ==> EndsAt(ts, j, d, j);
    }
  }

  /** One token further back, which is not a node tag: the next node is the same. */
  lemma {:induction false} NextNodeBack(ts: seq<Token>, j: nat, d: nat, k: int, e: int)
    requires j < |ts| && !ts[j].BeginNode? && !ts[j].End? && d + Delta(ts[j]) >= 0 && NextNodeAt(ts, j + 1, d + Delta(ts[j]), k, e)
    ensures NextNodeAt(ts, j, d, k, e)
  {
    var d1 := d + Delta(ts[j]);
    if k < 0 {
      var m :| EndsAt(ts, j + 1, d1, m) && e == d1 + Level(ts, j + 1, m);
      WalkBack(ts, j, d, m);
      assert EndsAt(ts, j, d, m);
    } else {
      WalkBack(ts, j, d, if e < 0 then k - 1 else k);
    }
  }

  lemma {:induction false} WalkBack(ts: seq<Token>, j: nat, d: nat, m: nat)
    requires j < m <= |ts| && !ts[j].BeginNode? && !ts[j].End? && d + Delta(ts[j]) >= 0
    ensures Reaches(ts, j + 1, d + Delta(ts[j]), m) ==> Reaches(ts, j, d, m)
    ensures Level(ts, j, m) == Delta(ts[j]) + Level(ts, j + 1, m)
    ensures NoBegin(ts, j + 1, m) ==> NoBegin(ts, j, m)
  {
    ReachesStep(ts, j, d, m);
    LevelFront(ts, j, m);
  }

  /** Properties with other names, and nops. */
  ghost predicate Skips(ts: seq<Token>, j: nat, p: nat, name: seq<byte>)
    requires p <= |ts|
  {
    forall m :: j <= m < p ==> ts[m].Nop? || (ts[m].Prop? && ts[m].pname != name)
  }

  ghost predicate OnlyNops(ts: seq<Token>, j: nat, p: nat)
    requires p <= |ts|
  {
    forall m :: j <= m < p ==> ts[m].Nop?
  }

  /** A search for a property fails only when the properties of the node end without it: with
      NOTFOUND at a node tag, with BADSTRUCTURE at the end of the tokens. */
  lemma {:induction false} PropNotFound(ts: seq<Token>, j: nat, name: seq<byte>)
    requires j <= |ts|
    ensures FindProp(ts, j, name) == NOTFOUND <==>
      exists m :: j <= m < |ts| && (ts[m].BeginNode? || ts[m].EndNode?) && Skips(ts, j, m, name)
    ensures PropFrom(ts, j) == NOTFOUND <==> exists m :: j <= m < |ts| && (ts[m].BeginNode? || ts[m].EndNode?) && OnlyNops(ts, j, m)
    decreases |ts| - j
  {
    if j < |ts| {
      PropNotFound(ts, j + 1, name);
      forall m | j < m < |ts|
        ensures Skips(ts, j, m, name) <==> (ts[j].Nop? || (ts[j].Prop? && ts[j].pname != name)) && Skips(ts, j + 1, m, name)
        ensures OnlyNops(ts, j, m) <==> ts[j].Nop? && OnlyNops(ts, j + 1, m)
      {
      }
      assert Skips(ts, j, j, name) && OnlyNops(ts, j, j);
    }
  }

  /** A node begins at token k, directly inside the one whose contents start at token j with depth d. */
  ghost predicate Subnode(ts: seq<Token>, j: nat, d: nat, k: nat) {
    j <= k < |ts| && ts[k].BeginNode? && Reaches(ts, j, d, k) && d + Level(ts, j, k) == 0
  }

  lemma {:induction false} SubnodeStep(ts: seq<Token>, j: nat, d: nat, k: nat)
    requires j < k
    ensures Subnode(ts, j, d, k) <==>
      j < |ts| && !ts[j].End? && d + Delta(ts[j]) >= 0 && Subnode(ts, j + 1, d + Delta(ts[j]), k)
  {
    if k < |ts| {
      ReachesStep(ts, j, d, k);
      LevelFront(ts, j, k);
    }
  }

  ghost predicate NoneBefore(ts: seq<Token>, j: nat, d: nat, name: seq<byte>, k: nat) {
    forall m :: j <= m < k && Subnode(ts, j, d, m) ==> !NodeNameEq(ts[m].name, name)
  }

  lemma {:induction false} NoneBeforeStep(ts: seq<Token>, j: nat, d: nat, name: seq<byte>, k: nat)
    requires j < k <= |ts|
    ensures NoneBefore(ts, j, d, name, k) <==>
      && !(ts[j].BeginNode? && d == 0 && NodeNameEq(ts[j].name, name))
      && (!ts[j].End? && d + Delta(ts[j]) >= 0 ==> NoneBefore(ts, j + 1, d + Delta(ts[j]), name, k))
  {
    forall m: nat | j < m < k
      ensures Subnode(ts, j, d, m) <==> !ts[j].End? && d + Delta(ts[j]) >= 0 && Subnode(ts, j + 1, d + Delta(ts[j]), m)
    {
      SubnodeStep(ts, j, d, m);
    }
    assert Subnode(ts, j, d, j) <==> ts[j].BeginNode? && d == 0;
  }

  /** fdt_subnode_offset finds the first direct subnode that answers to the name, and fails only
      when there is none. */
  lemma {:induction false} FindSubnodeIs(ts: seq<Token>, j: nat, d: nat, name: seq<byte>, k: nat)
    requires j <= |ts|
    ensures FindSubnode(ts, j, d, name) == k <==>
      Subnode(ts, j, d, k) && NodeNameEq(ts[k].name, name) && NoneBefore(ts, j, d, name, k)
    decreases |ts| - j
  {
    if j < |ts| && j < k < |ts| {
      SubnodeStep(ts, j, d, k);
      NoneBeforeStep(ts, j, d, name, k);
      if !ts[j].End? && d + Delta(ts[j]) >= 0 { FindSubnodeIs(ts, j + 1, d + Delta(ts[j]), name, k); }
    }
  }

  // ----- searches over a changed sequence -----

  lemma {:induction false} LevelSame(ts: seq<Token>, us: seq<Token>, j: nat, m: nat)
    requires j <= m <= |ts| && m <= |us| && ts[..m] == us[..m]
    ensures Level(ts, j, m) == Level(us, j, m)
    decreases m - j
  {
    if j < m {
      assert ts[m - 1] == ts[..m][m - 1] && us[m - 1] == us[..m][m - 1];
      assert ts[..m - 1] == ts[..m][..m - 1] && us[..m - 1] == us[..m][..m - 1];
      LevelSame(ts, us, j, m - 1);
    }
  }

  /** How far the walk gets depends only on what it has passed. */
  lemma {:induction false} ReachesSame(ts: seq<Token>, us: seq<Token>, j: nat, d: nat, p: nat)
    requires j <= p <= |ts| && p <= |us| && ts[..p] == us[..p]
    ensures Reaches(ts, j, d, p) <==> Reaches(us, j, d, p)
    ensures Level(ts, j, p) == Level(us, j, p)
  {
    assert forall m :: 0 <= m < p ==> ts[m] == ts[..p][m] && us[m] == us[..p][m];
    forall m | j <= m <= p ensures Level(ts, j, m) == Level(us, j, m) {
      assert ts[..m] == ts[..p][..m] && us[..m] == us[..p][..m];
      LevelSame(ts, us, j, m);
    }
  }

  lemma {:induction false} EndSplit(ts: seq<Token>, j: nat, d: nat, p: nat)
    requires j <= p <= |ts|
    ensures EndFrom(ts, j, d) == if Reaches(ts, j, d, p) then EndFrom(ts, p, d + Level(ts, j, p)) else EndFrom(ts[..p], j, d)
    decreases p - j
  {
    if j < p {
      ReachesStep(ts, j, d, p);
      LevelFront(ts, j, p);
      if !ts[j].End? && d + Delta(ts[j]) >= 0 { EndSplit(ts, j + 1, d + Delta(ts[j]), p); }
    }
  }

  lemma {:induction false} FindSplit(ts: seq<Token>, j: nat, d: nat, p: nat, name: seq<byte>)
    requires j <= p <= |ts|
    ensures var r := FindSubnode(ts[..p], j, d, name);
            FindSubnode(ts, j, d, name) ==
              if r >= 0 then r else if Reaches(ts, j, d, p) then FindSubnode(ts, p, d + Level(ts, j, p), name) else NOTFOUND
    decreases p - j
  {
    if j < p {
      ReachesStep(ts, j, d, p);
      LevelFront(ts, j, p);
      if !ts[j].End? && d + Delta(ts[j]) >= 0 { FindSplit(ts, j + 1, d + Delta(ts[j]), p, name); }
    }
  }

  lemma {:induction false} PropSplit(ts: seq<Token>, j: nat, p: nat, name: seq<byte>)
    requires j <= p <= |ts|
    ensures FindProp(ts, j, name) == if Skips(ts, j, p, name) then FindProp(ts, p, name) else FindProp(ts[..p], j, name)
    decreases p - j
  {
    if j < p {
      PropSplit(ts, j + 1, p, name);
      assert Skips(ts, j, p, name) <==> (ts[j].Nop? || (ts[j].Prop? && ts[j].pname != name)) && Skips(ts, j + 1, p, name);
    }
  }

  /** A search result in a sequence whose tokens have moved by x places. */
  function Plus(r: int, x: int): int { if r < 0 then r else r + x }

  lemma {:induction false} EndShift(ts: seq<Token>, j: nat, us: seq<Token>, k: nat, d: nat)
    requires j <= |ts| && k <= |us| && ts[j..] == us[k..]
    ensures EndFrom(us, k, d) == Plus(EndFrom(ts, j, d), k - j)
    decreases |ts| - j
  {
    if j < |ts| {
      assert ts[j] == ts[j..][0] == us[k..][0] == us[k];
      assert ts[j + 1..] == ts[j..][1..] == us[k..][1..] == us[k + 1..];
      if !ts[j].End? && d + Delta(ts[j]) >= 0 { EndShift(ts, j + 1, us, k + 1, d + Delta(ts[j])); }
    }
  }

  lemma {:induction false} FindShift(ts: seq<Token>, j: nat, us: seq<Token>, k: nat, d: nat, name: seq<byte>)
    requires j <= |ts| && k <= |us| && ts[j..] == us[k..]
    ensures FindSubnode(us, k, d, name) == Plus(FindSubnode(ts, j, d, name), k - j)
    decreases |ts| - j
  {
    if j < |ts| {
      assert ts[j] == ts[j..][0] == us[k..][0] == us[k];
      assert ts[j + 1..] == ts[j..][1..] == us[k..][1..] == us[k + 1..];
      if !ts[j].End? && d + Delta(ts[j]) >= 0 { FindShift(ts, j + 1, us, k + 1, d + Delta(ts[j]), name); }
    }
  }

  lemma {:induction false} PropShift(ts: seq<Token>, j: nat, us: seq<Token>, k: nat, name: seq<byte>)
    requires j <= |ts| && k <= |us| && ts[j..] == us[k..]
    ensures FindProp(us, k, name) == Plus(FindProp(ts, j, name), k - j)
    decreases |ts| - j
  {
    if j < |ts| {
      assert ts[j] == ts[j..][0] == us[k..][0] == us[k];
      assert ts[j + 1..] == ts[j..][1..] == us[k..][1..] == us[k + 1..];
      PropShift(ts, j + 1, us, k + 1, name);
    }
  }

  /** The first p tokens are the same. */
  ghost predicate SameUpTo(ts: seq<Token>, us: seq<Token>, p: nat) {
    forall z: int :: Unseal(z) ==> p <= |ts| && p <= |us| && ts[..p] == us[..p]
  }

  /** From j in one and k in the other on, the tokens are the same. */
  ghost predicate SameFrom(ts: seq<Token>, j: nat, us: seq<Token>, k: nat) {
    forall z: int :: Unseal(z) ==> j <= |ts| && k <= |us| && ts[j..] == us[k..]
  }

  lemma {:induction false} EndMoved(ts: seq<Token>, j: nat, us: seq<Token>, k: nat, d: nat)
    requires Folded(SameFrom(ts, j, us, k)) && j <= |ts| && k <= |us|
    ensures EndFrom(us, k, d) == Plus(EndFrom(ts, j, d), k - j)
  {
    assert Unseal(0);
    EndShift(ts, j, us, k, d);
  }

  lemma {:induction false} FindMoved(ts: seq<Token>, j: nat, us: seq<Token>, k: nat, d: nat, name: seq<byte>)
    requires Folded(SameFrom(ts, j, us, k)) && j <= |ts| && k <= |us|
    ensures FindSubnode(us, k, d, name) == Plus(FindSubnode(ts, j, d, name), k - j)
  {
    assert Unseal(0);
    FindShift(ts, j, us, k, d, name);
  }

  lemma {:induction false} PropMoved(ts: seq<Token>, j: nat, us: seq<Token>, k: nat, name: seq<byte>)
    requires Folded(SameFrom(ts, j, us, k)) && j <= |ts| && k <= |us|
    ensures FindProp(us, k, name) == Plus(FindProp(ts, j, name), k - j)
  {
    assert Unseal(0);
    PropShift(ts, j, us, k, name);
  }

  /** Two sequences with the same first p tokens: the search for an end stops there in both, or
      goes on from token p in both. */
  lemma {:induction false} EndBoth(ts: seq<Token>, us: seq<Token>, p: nat, j: nat, d: nat)
    requires j <= p <= |ts| && p <= |us| && Folded(SameUpTo(ts, us, p))
    ensures if Reaches(ts, j, d, p) then
              && EndFrom(ts, j, d) == EndFrom(ts, p, d + Level(ts, j, p))
              && EndFrom(us, j, d) == EndFrom(us, p, d + Level(ts, j, p))
            else EndFrom(us, j, d) == EndFrom(ts, j, d) <= p && (EndFrom(ts, j, d) >= 0 ==> ts[EndFrom(ts, j, d) - 1].EndNode?)
  {
    assert Unseal(0);
    EndSplit(ts, j, d, p);
    EndSplit(us, j, d, p);
    ReachesSame(ts, us, j, d, p);
    if EndFrom(ts, j, d) >= 0 { EndFromIs(ts, j, d, EndFrom(ts, j, d)); }
  }

  /** Likewise for a subnode; on says whether the search goes on. */
  lemma {:induction false} FindBoth(ts: seq<Token>, us: seq<Token>, p: nat, j: nat, d: nat, name: seq<byte>) returns (on: bool)
    requires j <= p <= |ts| && p <= |us| && Folded(SameUpTo(ts, us, p))
    ensures on ==>
      && Reaches(ts, j, d, p) && FindSubnode(ts, j, d, name) == FindSubnode(ts, p, d + Level(ts, j, p), name)
      && FindSubnode(us, j, d, name) == FindSubnode(us, p, d + Level(ts, j, p), name)
    ensures !on ==> FindSubnode(us, j, d, name) == FindSubnode(ts, j, d, name) < p
    ensures !on && FindSubnode(ts, j, d, name) < 0 ==> !Reaches(ts, j, d, p)
  {
    assert Unseal(0);
    FindSplit(ts, j, d, p, name);
    FindSplit(us, j, d, p, name);
    ReachesSame(ts, us, j, d, p);
    on := FindSubnode(ts[..p], j, d, name) < 0 && Reaches(ts, j, d, p);
  }

  lemma {:induction false} PropBoth(ts: seq<Token>, us: seq<Token>, p: nat, j: nat, name: seq<byte>)
    requires j <= p <= |ts| && p <= |us| && Folded(SameUpTo(ts, us, p))
    ensures if Skips(ts, j, p, name) then FindProp(ts, j, name) == FindProp(ts, p, name) && FindProp(us, j, name) == FindProp(us, p, name)
            else FindProp(us, j, name) == FindProp(ts, j, name) < p
  {
    assert Unseal(0);
    PropSplit(ts, j, p, name);
    PropSplit(us, j, p, name);
    assert forall m :: 0 <= m < p ==> ts[m] == ts[..p][m] && us[m] == us[..p][m];
  }

  lemma {:induction false} SkipBoth(ts: seq<Token>, us: seq<Token>, p: nat, j: nat, name: seq<byte>)
    requires j <= p <= |ts| && p <= |us| && Folded(SameUpTo(ts, us, p)) && Skips(ts, j, p, name)
    ensures FindProp(ts, j, name) == FindProp(ts, p, name) && FindProp(us, j, name) == FindProp(us, p, name)
  {
    PropBoth(ts, us, p, j, name);
  }

  // ----- passing over tokens -----

  ghost predicate OnlyProps(ts: seq<Token>, p: nat, q: nat)
    requires q <= |ts|
  {
    forall m :: p <= m < q ==> ts[m].Prop? || ts[m].Nop?
  }

  lemma {:induction false} PassProps(ts: seq<Token>, p: nat, q: nat, d: nat, name: seq<byte>)
    requires p <= q <= |ts| && OnlyProps(ts, p, q)
    ensures EndFrom(ts, p, d) == EndFrom(ts, q, d) && FindSubnode(ts, p, d, name) == FindSubnode(ts, q, d, name)
    decreases q - p
  {
    if p < q { PassProps(ts, p + 1, q, d, name); }
  }

  /** Inside a subnode nothing closes or answers for the node around it. */
  lemma {:induction false} PassInside(ts: seq<Token>, j: nat, c: nat, d: nat, name: seq<byte>)
    requires j <= |ts| && EndFrom(ts, j, c) >= 0
    ensures var e := EndFrom(ts, j, c);
            EndFrom(ts, j, c + 1 + d) == EndFrom(ts, e, d) && FindSubnode(ts, j, c + 1 + d, name) == FindSubnode(ts, e, d, name)
    decreases |ts| - j
  {
    if j < |ts| && !(ts[j].EndNode? && c == 0) { PassInside(ts, j + 1, c + Delta(ts[j]), d, name); }
  }

  lemma {:induction false} PassNode(ts: seq<Token>, p: nat, e: nat, d: nat, name: seq<byte>)
    requires p < |ts| && ts[p].BeginNode? && EndFrom(ts, p + 1, 0) == e
    ensures EndFrom(ts, p, d) == EndFrom(ts, e, d)
    ensures FindSubnode(ts, p, d, name) == if d == 0 && NodeNameEq(ts[p].name, name) then p else FindSubnode(ts, e, d, name)
  {
    PassInside(ts, p + 1, 0, d, name);
  }

  // ----- edits -----

  /** Where a token is, or a search result points, after tokens before q have become x more. */
  function Moved(k: int, q: nat, x: int): int { if k >= q then k + x else k }

  /** us is ts with the tokens p..q replaced, by x more tokens. */
  ghost predicate Edited(ts: seq<Token>, us: seq<Token>, p: nat, q: nat, x: int) {
    p <= q <= |ts| && |us| == |ts| + x && p <= q + x && SameUpTo(ts, us, p) && SameFrom(ts, q, us, q + x)
  }

  /** The tokens nt are at p. */
  ghost predicate PlacedAt(us: seq<Token>, p: nat, nt: seq<Token>) {
    forall z: int :: Unseal(z) ==> p + |nt| <= |us| && us[p..p + |nt|] == nt
  }

  lemma {:induction false} Around(ts: seq<Token>, us: seq<Token>, p: nat, q: nat, nt: seq<Token>, x: int)
    requires p <= q <= |ts| && us == Edit(ts, p, q, nt) && x == |nt| - (q - p)
    ensures Folded(Edited(ts, us, p, q, x)) && Folded(PlacedAt(us, p, nt))
  {
    assert us[..p] == ts[..p] && us[q + x..] == ts[q..] && us[p..p + |nt|] == nt;
  }

  /** What holds of the new tokens holds of them in place. */
  lemma {:induction false} NewInPlace(us: seq<Token>, p: nat, nt: seq<Token>, r: nat, name: seq<byte>)
    requires Folded(PlacedAt(us, p, nt)) && r == p + |nt| <= |us|
    ensures OnlyProps(nt, 0, |nt|) ==> OnlyProps(us, p, r)
    ensures Skips(nt, 0, |nt|, name) ==> Skips(us, p, r, name)
    ensures OnlyNops(nt, 0, |nt|) ==> OnlyNops(us, p, r)
  {
    assert Unseal(0);
    assert forall t :: p <= t < r ==> us[t] == us[p..p + |nt|][t - p] == nt[t - p];
  }

  lemma {:induction false} NewAt(us: seq<Token>, p: nat, nt: seq<Token>, k: nat)
    requires Folded(PlacedAt(us, p, nt)) && p + |nt| <= |us| && k < |nt|
    ensures us[p + k] == nt[k]
  {
    assert Unseal(0);
    assert us[p + k] == us[p..p + |nt|][k];
  }

  /** Every token outside p..q is where it was, or has moved with its place. */
  ghost predicate Kept(ts: seq<Token>, us: seq<Token>, p: nat, q: nat, x: int) {
    forall z: int :: Unseal(z) ==>
      forall t :: 0 <= t < |ts| && !(p <= t < q) ==> 0 <= Moved(t, q, x) < |us| && us[Moved(t, q, x)] == ts[t]
  }

  lemma {:induction false} TokensKept(ts: seq<Token>, us: seq<Token>, p: nat, q: nat, x: int)
    requires Folded(Edited(ts, us, p, q, x))
    ensures Folded(Kept(ts, us, p, q, x))
  {
    assert Unseal(0);
    assert forall t :: 0 <= t < p ==> ts[..p][t] == ts[t] && us[..p][t] == us[t];
    assert forall t :: q <= t < |ts| ==> ts[t] == ts[q..][t - q] == us[q + x..][t - q] == us[t + x];
  }

  /** All that is found in the node at token n is found as before: its end, ... */
  ghost predicate SameEnd(ts: seq<Token>, us: seq<Token>, q: nat, x: int, n: nat) {
    n < |ts| && 0 <= Moved(n, q, x) < |us| && EndFrom(us, Moved(n, q, x) + 1, 0) == Moved(EndFrom(ts, n + 1, 0), q, x)
  }

  /** ... a subnode, ... */
  ghost predicate SameSubnode(ts: seq<Token>, us: seq<Token>, q: nat, x: int, n: nat, name: seq<byte>) {
    n < |ts| && 0 <= Moved(n, q, x) < |us| && FindSubnode(us, Moved(n, q, x) + 1, 0, name) == Moved(FindSubnode(ts, n + 1, 0, name), q, x)
  }

  /** ... a property. */
  ghost predicate SameProp(ts: seq<Token>, us: seq<Token>, q: nat, x: int, n: nat, name: seq<byte>) {
    n < |ts| && 0 <= Moved(n, q, x) < |us| && FindProp(us, Moved(n, q, x) + 1, name) == Moved(FindProp(ts, n + 1, name), q, x)
  }

  lemma {:induction false} TailMoved(ts: seq<Token>, us: seq<Token>, p: nat, q: nat, x: int, j: nat, k: nat)
    requires Folded(Edited(ts, us, p, q, x)) && q <= j <= |ts| && k == j + x
    ensures k <= |us| && Folded(SameFrom(ts, j, us, k))
  {
    assert Unseal(0);
    assert us[k..] == us[q + x..][j - q..];
    assert ts[j..] == ts[q..][j - q..];
  }

  /** A node behind an edit, or at its end, is searched as before. */
  lemma {:induction false} BehindEdit(ts: seq<Token>, us: seq<Token>, p: nat, q: nat, x: int, n: nat, name: seq<byte>)
    requires Folded(Edited(ts, us, p, q, x)) && q <= n < |ts|
    ensures Folded(SameEnd(ts, us, q, x, n)) && Folded(SameSubnode(ts, us, q, x, n, name)) && Folded(SameProp(ts, us, q, x, n, name))
  {
    TailMoved(ts, us, p, q, x, n + 1, n + 1 + x);
    EndBehind(ts, us, q, x, n);
    FindBehind(ts, us, q, x, n, name);
    PropBehind(ts, us, q, x, n, name);
  }

  lemma {:induction false} EndBehind(ts: seq<Token>, us: seq<Token>, q: nat, x: int, n: nat)
    requires q <= n < |ts| && 0 <= n + x < |us| && Folded(SameFrom(ts, n + 1, us, n + 1 + x))
    ensures Folded(SameEnd(ts, us, q, x, n))
  {
    EndMoved(ts, n + 1, us, n + 1 + x, 0);
  }

  lemma {:induction false} FindBehind(ts: seq<Token>, us: seq<Token>, q: nat, x: int, n: nat, name: seq<byte>)
    requires q <= n < |ts| && 0 <= n + x < |us| && Folded(SameFrom(ts, n + 1, us, n + 1 + x))
    ensures Folded(SameSubnode(ts, us, q, x, n, name))
  {
    FindMoved(ts, n + 1, us, n + 1 + x, 0, name);
  }

  lemma {:induction false} PropBehind(ts: seq<Token>, us: seq<Token>, q: nat, x: int, n: nat, name: seq<byte>)
    requires q <= n < |ts| && 0 <= n + x < |us| && Folded(SameFrom(ts, n + 1, us, n + 1 + x))
    ensures Folded(SameProp(ts, us, q, x, n, name))
  {
    PropMoved(ts, n + 1, us, n + 1 + x, name);
  }

  // ----- the edits of properties -----

  lemma {:induction false} EndPastProps(ts: seq<Token>, us: seq<Token>, p: nat, q: nat, x: int, d: nat)
    requires Folded(Edited(ts, us, p, q, x)) && OnlyProps(ts, p, q) && OnlyProps(us, p, q + x)
    ensures EndFrom(us, p, d) == Plus(EndFrom(ts, p, d), x) && (EndFrom(ts, p, d) >= 0 ==> EndFrom(ts, p, d) > q)
  {
    PassProps(ts, p, q, d, []);
    PassProps(us, p, q + x, d, []);
    EndMoved(ts, q, us, q + x, d);
  }

  lemma {:induction false} FindPastProps(ts: seq<Token>, us: seq<Token>, p: nat, q: nat, x: int, d: nat, name: seq<byte>)
    requires Folded(Edited(ts, us, p, q, x)) && OnlyProps(ts, p, q) && OnlyProps(us, p, q + x)
    ensures FindSubnode(us, p, d, name) == Plus(FindSubnode(ts, p, d, name), x)
    ensures FindSubnode(ts, p, d, name) >= 0 ==> FindSubnode(ts, p, d, name) >= q
  {
    PassProps(ts, p, q, d, name);
    PassProps(us, p, q + x, d, name);
    FindMoved(ts, q, us, q + x, d, name);
  }

  /** A node before an edit of properties keeps its end ... */
  lemma {:induction false} EndBeforeProps(ts: seq<Token>, us: seq<Token>, p: nat, q: nat, x: int, n: nat)
    requires Folded(Edited(ts, us, p, q, x)) && OnlyProps(ts, p, q) && OnlyProps(us, p, q + x) && n < p && !ts[p - 1].EndNode?
    ensures Folded(SameEnd(ts, us, q, x, n))
  {
    EndBoth(ts, us, p, n + 1, 0);
    if Reaches(ts, n + 1, 0, p) { EndPastProps(ts, us, p, q, x, Level(ts, n + 1, p)); }
  }

  /** ... and its subnodes. */
  lemma {:induction false} FindBeforeProps(ts: seq<Token>, us: seq<Token>, p: nat, q: nat, x: int, n: nat, name: seq<byte>)
    requires Folded(Edited(ts, us, p, q, x)) && OnlyProps(ts, p, q) && OnlyProps(us, p, q + x) && n < p
    ensures Folded(SameSubnode(ts, us, q, x, n, name))
  {
    var on := FindBoth(ts, us, p, n + 1, 0, name);
    if on { FindPastProps(ts, us, p, q, x, Level(ts, n + 1, p), name); }
  }

  /** A node whose properties end before an edit keeps them. */
  lemma {:induction false} PropsEndBefore(ts: seq<Token>, us: seq<Token>, p: nat, q: nat, x: int, n: nat, i: nat, name: seq<byte>)
    requires Folded(Edited(ts, us, p, q, x)) && n < i < p && ts[i].BeginNode?
    ensures Folded(SameProp(ts, us, q, x, n, name))
  {
    PropBoth(ts, us, p, n + 1, name);
    assert !Skips(ts, n + 1, p, name);
  }

  /** A node keeps the properties with names that are neither among the old nor the new ones. */
  lemma {:induction false} OwnPropsEdited(ts: seq<Token>, us: seq<Token>, i: nat, p: nat, q: nat, x: int, name: seq<byte>)
    requires Folded(Edited(ts, us, p, q, x)) && i < p && Skips(ts, p, q, name) && Skips(us, p, q + x, name)
    ensures Folded(SameProp(ts, us, q, x, i, name))
  {
    PropBoth(ts, us, p, i + 1, name);
    if Skips(ts, i + 1, p, name) { PropPastOwn(ts, us, p, q, x, name); }
  }

  lemma {:induction false} PropPastOwn(ts: seq<Token>, us: seq<Token>, p: nat, q: nat, x: int, name: seq<byte>)
    requires Folded(Edited(ts, us, p, q, x)) && Skips(ts, p, q, name) && Skips(us, p, q + x, name)
    ensures FindProp(us, p, name) == Plus(FindProp(ts, p, name), x) && (FindProp(ts, p, name) >= 0 ==> FindProp(ts, p, name) >= q)
  {
    PropSplit(ts, p, q, name);
    PropSplit(us, p, q + x, name);
    PropMoved(ts, q, us, q + x, name);
  }

  /** The tokens outside p..q stay, and so does all that is found, except property name of the node
      at token i: for the node at token n and the name other. */
  ghost predicate PropFrame(ts: seq<Token>, us: seq<Token>, i: nat, name: seq<byte>, p: nat, q: nat, x: int, n: nat, other: seq<byte>) {
    forall z: int :: Unseal(z) ==>
      && |us| == |ts| + x && Folded(Kept(ts, us, p, q, x)) && Folded(SameEnd(ts, us, q, x, n)) && Folded(SameSubnode(ts, us, q, x, n, other))
      && (n != i || other != name ==> Folded(SameProp(ts, us, q, x, n, other)))
  }

  lemma {:induction false} PropFrameClosed(ts: seq<Token>, us: seq<Token>, i: nat, name: seq<byte>, p: nat, q: nat, x: int, n: nat, other: seq<byte>)
    requires |us| == |ts| + x && Folded(Kept(ts, us, p, q, x)) && Folded(SameEnd(ts, us, q, x, n)) && Folded(SameSubnode(ts, us, q, x, n, other))
    requires n != i || other != name ==> Folded(SameProp(ts, us, q, x, n, other))
    ensures Folded(PropFrame(ts, us, i, name, p, q, x, n, other))
  {
  }

  /** Properties called name of the node at token i give way to others, or to nops. */
  lemma {:induction false} PropFrameHolds(ts: seq<Token>, us: seq<Token>, i: nat, name: seq<byte>, p: nat, q: nat, x: int, n: nat, other: seq<byte>)
    requires Folded(Edited(ts, us, p, q, x)) && i < p && ts[i].BeginNode? && OnlyProps(ts, i + 1, q)
    requires n < |ts| && ts[n].BeginNode? && OnlyProps(us, p, q + x)
    requires other != name ==> Skips(ts, p, q, other) && Skips(us, p, q + x, other)
    ensures Folded(PropFrame(ts, us, i, name, p, q, x, n, other))
  {
    TokensKept(ts, us, p, q, x);
    if n > i {
      BehindEdit(ts, us, p, q, x, n, other);
    } else {
      EndBeforeProps(ts, us, p, q, x, n);
      FindBeforeProps(ts, us, p, q, x, n, other);
      if n < i { PropsEndBefore(ts, us, p, q, x, n, i, other); } else if other != name { OwnPropsEdited(ts, us, i, p, q, x, other); }
    }
    PropFrameClosed(ts, us, i, name, p, q, x, n, other);
  }

  /** Property t at token p, with x more tokens than before, is found in the node at token i. */
  ghost predicate PutFound(us: seq<Token>, i: nat, p: nat, t: Token) {
    t.Prop? && i < p < |us| && FindProp(us, i + 1, t.pname) == p && us[p] == t
  }

  lemma {:induction false} PutIsFound(ts: seq<Token>, us: seq<Token>, i: nat, p: nat, q: nat, x: int, t: Token)
    requires Folded(Edited(ts, us, p, q, x)) && i < p < |us| && Folded(PlacedAt(us, p, [t])) && t.Prop? && Skips(ts, i + 1, p, t.pname)
    ensures Folded(PutFound(us, i, p, t))
  {
    NewAt(us, p, [t], 0);
    PropBoth(ts, us, p, i + 1, t.pname);
  }

  /** A property put at token p of node i, after properties with other names, in place of one with
      its name or of none: it is found under its name, and all else is found as before. */
  lemma {:induction false} PutLookups(ts: seq<Token>, us: seq<Token>, i: nat, p: nat, q: nat, x: int, t: Token, name: seq<byte>, n: nat, other: seq<byte>)
    requires i < p <= q <= p + 1 && q <= |ts| && ts[i].BeginNode? && n < |ts| && ts[n].BeginNode? && t.Prop? && t.pname == name
    requires Skips(ts, i + 1, p, name) && (q > p ==> ts[p].Prop? && ts[p].pname == name)
    requires us == Edit(ts, p, q, [t]) && x == 1 - (q - p)
    ensures Folded(PutFound(us, i, p, t)) && Folded(PropFrame(ts, us, i, name, p, q, x, n, other))
  {
    Around(ts, us, p, q, [t], x);
    NewInPlace(us, p, [t], q + x, other);
    PutIsFound(ts, us, i, p, q, x, t);
    PropFrameHolds(ts, us, i, name, p, q, x, n, other);
  }

  /** fdt_setprop: the node then has the property with the new value, where it was or first of all;
      nothing else that can be looked up anywhere in the tree has changed. */
  lemma {:induction false} SetPropLookups(ts: seq<Token>, us: seq<Token>, i: nat, k: int, name: seq<byte>, val: seq<byte>, n: nat, other: seq<byte>)
    requires i < |ts| && ts[i].BeginNode? && k == FindProp(ts, i + 1, name) && n < |ts| && ts[n].BeginNode?
    requires us == SetPropTokens(ts, i, name, val)
    ensures k >= 0 ==> Folded(PutFound(us, i, k, Prop(name, val))) && Folded(PropFrame(ts, us, i, name, k, k + 1, 0, n, other))
    ensures k < 0 ==> Folded(PutFound(us, i, i + 1, Prop(name, val))) && Folded(PropFrame(ts, us, i, name, i + 1, i + 1, 1, n, other))
  {
    if k >= 0 {
      PutLookups(ts, us, i, k, k + 1, 0, Prop(name, val), name, n, other);
    } else {
      PutLookups(ts, us, i, i + 1, i + 1, 1, Prop(name, val), name, n, other);
    }
  }

  /** fdt_appendprop: likewise, with the value grown at its end. */
  lemma {:induction false} AppendPropLookups(ts: seq<Token>, us: seq<Token>, i: nat, k: int, name: seq<byte>, val: seq<byte>, n: nat, other: seq<byte>)
    requires i < |ts| && ts[i].BeginNode? && k == FindProp(ts, i + 1, name) && n < |ts| && ts[n].BeginNode?
    requires us == AppendPropTokens(ts, i, name, val)
    ensures k >= 0 ==> Folded(PutFound(us, i, k, Prop(name, ts[k].value + val))) && Folded(PropFrame(ts, us, i, name, k, k + 1, 0, n, other))
    ensures k < 0 ==> Folded(PutFound(us, i, i + 1, Prop(name, val))) && Folded(PropFrame(ts, us, i, name, i + 1, i + 1, 1, n, other))
  {
    if k >= 0 {
      PutLookups(ts, us, i, k, k + 1, 0, Prop(name, ts[k].value + val), name, n, other);
    } else {
      PutLookups(ts, us, i, i + 1, i + 1, 1, Prop(name, val), name, n, other);
    }
  }

  /** fdt_delprop (no new tokens) and fdt_nop_property (nops): all but that property is found as before ... */
  lemma {:induction false} DelPropLookups(ts: seq<Token>, us: seq<Token>, i: nat, k: nat, name: seq<byte>, nops: nat, x: int, n: nat, other: seq<byte>)
    requires i < |ts| && ts[i].BeginNode? && FindProp(ts, i + 1, name) == k && n < |ts| && ts[n].BeginNode?
    requires us == Edit(ts, k, k + 1, Times(nops, Nop)) && x == nops - 1
    ensures Folded(PropFrame(ts, us, i, name, k, k + 1, x, n, other))
  {
    PropsUpTo(ts, i, k, name, other);
    PropDeleted(ts, us, i, name, k, k + 1, nops, x, n, other);
  }

  lemma {:induction false} PropDeleted(ts: seq<Token>, us: seq<Token>, i: nat, name: seq<byte>, p: nat, q: nat, nops: nat, x: int, n: nat, other: seq<byte>)
    requires i < p <= q <= |ts| && us == Edit(ts, p, q, Times(nops, Nop)) && x == nops - (q - p) && ts[i].BeginNode? && OnlyProps(ts, i + 1, q)
    requires n < |ts| && ts[n].BeginNode? && (other != name ==> Skips(ts, p, q, other))
    ensures Folded(PropFrame(ts, us, i, name, p, q, x, n, other))
  {
    NopsInPlace(ts, us, p, q, nops, x);
    NopsAreProps(us, p, q + x, other);
    PropFrameHolds(ts, us, i, name, p, q, x, n, other);
  }

  /** ... and under its name the next property that has it, if there was a second one. */
  lemma {:induction false} DelPropNext(ts: seq<Token>, us: seq<Token>, i: nat, k: nat, name: seq<byte>, nops: nat, x: int)
    requires i < |ts| && ts[i].BeginNode? && FindProp(ts, i + 1, name) == k
    requires us == Edit(ts, k, k + 1, Times(nops, Nop)) && x == nops - 1
    ensures Folded(NextFound(ts, us, i, k, x, name))
  {
    NopsInPlace(ts, us, k, k + 1, nops, x);
    PropsUpTo(ts, i, k, name, name);
    NextIsFound(ts, us, i, k, x, name);
  }

  /** What is found under the name of the deleted property at token k. */
  ghost predicate NextFound(ts: seq<Token>, us: seq<Token>, i: nat, k: nat, x: int, name: seq<byte>) {
    i < k < |ts| && i < |us| && FindProp(us, i + 1, name) == Moved(FindProp(ts, k + 1, name), k + 1, x)
  }

  lemma {:induction false} NopsInPlace(ts: seq<Token>, us: seq<Token>, p: nat, q: nat, nops: nat, x: int)
    requires p <= q <= |ts| && us == Edit(ts, p, q, Times(nops, Nop)) && x == nops - (q - p)
    ensures Folded(Edited(ts, us, p, q, x)) && OnlyNops(us, p, q + x)
  {
    var nt: seq<Token> := Times(nops, Nop);
    Around(ts, us, p, q, nt, x);
    NewInPlace(us, p, nt, q + x, []);
  }

  lemma {:induction false} PropsUpTo(ts: seq<Token>, i: nat, k: nat, name: seq<byte>, other: seq<byte>)
    requires i < |ts| && FindProp(ts, i + 1, name) == k
    ensures OnlyProps(ts, i + 1, k + 1) && Skips(ts, i + 1, k, name) && (other != name ==> Skips(ts, k, k + 1, other))
  {
  }

  lemma {:induction false} NextIsFound(ts: seq<Token>, us: seq<Token>, i: nat, k: nat, x: int, name: seq<byte>)
    requires Folded(Edited(ts, us, k, k + 1, x)) && i < k && Skips(ts, i + 1, k, name) && OnlyNops(us, k, k + 1 + x)
    ensures Folded(NextFound(ts, us, i, k, x, name))
  {
    SkipBoth(ts, us, k, i + 1, name);
    PropPastGone(ts, us, k, k + 1, k + 1 + x, name);
  }

  lemma {:induction false} PropPastGone(ts: seq<Token>, us: seq<Token>, k: nat, e: nat, r: nat, name: seq<byte>)
    requires k <= r <= |us| && e <= |ts| && OnlyNops(us, k, r) && Folded(SameFrom(ts, e, us, r))
    ensures FindProp(us, k, name) == Plus(FindProp(ts, e, name), r - e) && (FindProp(ts, e, name) >= 0 ==> FindProp(ts, e, name) >= e)
  {
    PropPastNops(us, k, r, name);
    PropMoved(ts, e, us, r, name);
  }

  lemma {:induction false} NopsAreProps(us: seq<Token>, k: nat, r: nat, name: seq<byte>)
    requires r <= |us| && OnlyNops(us, k, r)
    ensures OnlyProps(us, k, r) && Skips(us, k, r, name)
  {
  }

  lemma {:induction false} PropPastNops(us: seq<Token>, k: nat, r: nat, name: seq<byte>)
    requires k <= r <= |us| && OnlyNops(us, k, r)
    ensures FindProp(us, k, name) == FindProp(us, r, name)
  {
    PropSplit(us, k, r, name);
  }

  // ----- the edits of nodes -----

  lemma {:induction false} LevelPast(ts: seq<Token>, j: nat, i: nat, k: nat)
    requires j <= i < k <= |ts| && ts[i].BeginNode? && OnlyProps(ts, i + 1, k)
    ensures Level(ts, j, k) == Level(ts, j, i) + 1
    decreases k
  {
    if k > i + 1 { LevelPast(ts, j, i, k - 1); }
  }

  lemma {:induction false} OnlyPropsReach(ts: seq<Token>, j: nat, k: nat)
    requires j <= k <= |ts| && OnlyProps(ts, j, k)
    ensures Reaches(ts, j, 0, k) && Level(ts, j, k) == 0
    decreases k - j
  {
    if j < k {
      OnlyPropsReach(ts, j + 1, k);
      ReachesStep(ts, j, 0, k);
      LevelFront(ts, j, k);
    }
  }

  /** us is ts with a new, empty node at token k, after the properties of node i. */
  ghost predicate NewNode(ts: seq<Token>, us: seq<Token>, i: nat, k: nat, name: seq<byte>) {
    AfterOwnProps(ts, i, k) && Edited(ts, us, k, k, 2) && us[k] == BeginNode(name) && us[k + 1] == EndNode
  }

  lemma {:induction false} EndPastNew(ts: seq<Token>, us: seq<Token>, i: nat, k: nat, name: seq<byte>, d: nat)
    requires Folded(NewNode(ts, us, i, k, name))
    ensures EndFrom(us, k, d) == Plus(EndFrom(ts, k, d), 2) && (EndFrom(ts, k, d) >= 0 ==> EndFrom(ts, k, d) > k)
  {
    assert EndFrom(us, k + 1, 0) == k + 2;
    PassNode(us, k, k + 2, d, []);
    EndMoved(ts, k, us, k + 2, d);
  }

  lemma {:induction false} FindPastNew(ts: seq<Token>, us: seq<Token>, i: nat, k: nat, name: seq<byte>, d: nat, other: seq<byte>)
    requires Folded(NewNode(ts, us, i, k, name))
    ensures FindSubnode(us, k, d, other) == if d == 0 && NodeNameEq(name, other) then k else Plus(FindSubnode(ts, k, d, other), 2)
    ensures FindSubnode(ts, k, d, other) >= 0 ==> FindSubnode(ts, k, d, other) >= k
  {
    assert EndFrom(us, k + 1, 0) == k + 2;
    PassNode(us, k, k + 2, d, other);
    FindMoved(ts, k, us, k + 2, d, other);
  }

  lemma {:induction false} EndBeforeNew(ts: seq<Token>, us: seq<Token>, i: nat, k: nat, name: seq<byte>, n: nat)
    requires Folded(NewNode(ts, us, i, k, name)) && n <= i
    ensures Folded(SameEnd(ts, us, k, 2, n))
  {
    EndBoth(ts, us, k, n + 1, 0);
    if Reaches(ts, n + 1, 0, k) { EndPastNew(ts, us, i, k, name, Level(ts, n + 1, k)); }
  }

  lemma {:induction false} FindBeforeNew(ts: seq<Token>, us: seq<Token>, i: nat, k: nat, name: seq<byte>, n: nat, other: seq<byte>)
    requires Folded(NewNode(ts, us, i, k, name)) && n < i
    ensures Folded(SameSubnode(ts, us, k, 2, n, other))
  {
    var on := FindBoth(ts, us, k, n + 1, 0, other);
    if on {
      LevelPast(ts, n + 1, i, k);
      assert Level(ts, n + 1, i) >= 0;
      FindPastNew(ts, us, i, k, name, Level(ts, n + 1, k), other);
    }
  }

  /** What the parent finds: the new node under every name it answers to, else what it found. */
  lemma {:induction false} FindInParent(ts: seq<Token>, us: seq<Token>, i: nat, k: nat, name: seq<byte>, other: seq<byte>)
    requires Folded(NewNode(ts, us, i, k, name))
    ensures FindSubnode(us, i + 1, 0, other) == if NodeNameEq(name, other) then k else Moved(FindSubnode(ts, i + 1, 0, other), k, 2)
  {
    OnlyPropsReach(ts, i + 1, k);
    PassProps(ts, i + 1, k, 0, other);
    SamePropsBefore(ts, us, i, k);
    PassProps(us, i + 1, k, 0, other);
    FindPastNew(ts, us, i, k, name, 0, other);
  }

  lemma {:induction false} SamePropsBefore(ts: seq<Token>, us: seq<Token>, i: nat, k: nat)
    requires AfterOwnProps(ts, i, k) && Folded(Edited(ts, us, k, k, 2))
    ensures OnlyProps(us, i + 1, k)
  {
    assert Unseal(0);
    assert forall t :: 0 <= t < k ==> ts[t] == ts[..k][t] && us[t] == us[..k][t];
  }

  lemma {:induction false} PropInParent(ts: seq<Token>, us: seq<Token>, i: nat, k: nat, name: seq<byte>, other: seq<byte>)
    requires Folded(NewNode(ts, us, i, k, name))
    ensures FindProp(us, i + 1, other) == if FindProp(ts, i + 1, other) < 0 then NOTFOUND else FindProp(ts, i + 1, other)
  {
    PropBoth(ts, us, k, i + 1, other);
    if !Skips(ts, i + 1, k, other) { AmongProps(ts, i + 1, k, other); }
  }

  lemma {:induction false} AmongProps(ts: seq<Token>, j: nat, k: nat, name: seq<byte>)
    requires j <= k <= |ts| && OnlyProps(ts, j, k) && !Skips(ts, j, k, name)
    ensures FindProp(ts, j, name) >= 0
    decreases k - j
  {
    if ts[j].Nop? || ts[j].pname != name {
      assert !Skips(ts, j + 1, k, name);
      AmongProps(ts, j + 1, k, name);
    }
  }

  /** fdt_add_subnode: the parent finds the new node, keeps its properties, and keeps its other subnodes
      except under names that the new node answers to ... */
  lemma {:induction false} AddSubnodeLookups(ts: seq<Token>, us: seq<Token>, i: nat, k: nat, name: seq<byte>, other: seq<byte>)
    requires AfterOwnProps(ts, i, k) && us == Edit(ts, k, k, [BeginNode(name), EndNode])
    ensures us[k] == BeginNode(name) && FindSubnode(us, i + 1, 0, name) == k
    ensures FindProp(us, i + 1, other) == if FindProp(ts, i + 1, other) < 0 then NOTFOUND else FindProp(ts, i + 1, other)
    ensures FindSubnode(us, i + 1, 0, other) == if NodeNameEq(name, other) then k else Moved(FindSubnode(ts, i + 1, 0, other), k, 2)
  {
    NodeInPlace(ts, us, i, k, name);
    FindInParent(ts, us, i, k, name, name);
    FindInParent(ts, us, i, k, name, other);
    PropInParent(ts, us, i, k, name, other);
  }

  /** ... and every other node keeps all that it had. */
  lemma {:induction false} AddSubnodeOthers(ts: seq<Token>, us: seq<Token>, i: nat, k: nat, name: seq<byte>, n: nat, other: seq<byte>)
    requires AfterOwnProps(ts, i, k) && us == Edit(ts, k, k, [BeginNode(name), EndNode]) && n < |ts| && ts[n].BeginNode?
    ensures Folded(Kept(ts, us, k, k, 2)) && Folded(SameEnd(ts, us, k, 2, n))
    ensures n != i ==> Folded(SameProp(ts, us, k, 2, n, other)) && Folded(SameSubnode(ts, us, k, 2, n, other))
  {
    NodeInPlace(ts, us, i, k, name);
    TokensKept(ts, us, k, k, 2);
    if n > i {
      BehindEdit(ts, us, k, k, 2, n, other);
    } else {
      EndBeforeNew(ts, us, i, k, name, n);
      if n < i {
        FindBeforeNew(ts, us, i, k, name, n, other);
        PropsEndBefore(ts, us, k, k, 2, n, i, other);
      }
    }
  }

  lemma {:induction false} NodeInPlace(ts: seq<Token>, us: seq<Token>, i: nat, k: nat, name: seq<byte>)
    requires AfterOwnProps(ts, i, k) && us == Edit(ts, k, k, [BeginNode(name), EndNode])
    ensures Folded(NewNode(ts, us, i, k, name)) && Folded(Edited(ts, us, k, k, 2))
  {
    Around(ts, us, k, k, [BeginNode(name), EndNode], 2);
    NewAt(us, k, [BeginNode(name), EndNode], 0);
    NewAt(us, k, [BeginNode(name), EndNode], 1);
  }

  /** A new node can take a lookup away from an older one: with a node a, adding a@1 makes the name a
      lead to a@1. */
  lemma {:induction false} NewNodeShadows() returns (ts: seq<Token>, k: nat, name: seq<byte>, other: seq<byte>)
    ensures AfterOwnProps(ts, 0, k) && FindSubnode(ts, 1, 0, name) == NOTFOUND
    ensures FindSubnode(ts, 1, 0, other) >= 0 && ts[FindSubnode(ts, 1, 0, other)] == BeginNode(other) && other != name
    ensures var us := Edit(ts, k, k, [BeginNode(name), EndNode]);
            FindSubnode(us, 1, 0, other) == k && us[k] == BeginNode(name)
  {
    other, name, k := [97], [97, AT, 49], 1;
    ts := [BeginNode([]), BeginNode(other), EndNode, EndNode, End];
    assert !NodeNameEq(other, name) && NodeNameEq(other, other) && NodeNameEq(name, other);
    assert FindSubnode(ts, 3, 0, name) == NOTFOUND;
    AddSubnodeLookups(ts, Edit(ts, k, k, [BeginNode(name), EndNode]), 0, k, name, other);
  }

  /** The node i..e of ts is gone from us, or overwritten with nops. */
  ghost predicate Gone(ts: seq<Token>, us: seq<Token>, i: nat, e: nat, x: int) {
    Edited(ts, us, i, e, x) && i < e && ts[i].BeginNode? && EndFrom(ts, i + 1, 0) == e && OnlyNops(us, i, e + x)
  }

  lemma {:induction false} NodeGone(ts: seq<Token>, us: seq<Token>, i: nat, e: nat, nops: nat, x: int)
    requires i < |ts| && ts[i].BeginNode? && EndFrom(ts, i + 1, 0) == e && us == Edit(ts, i, e, Times(nops, Nop)) && x == nops - (e - i)
    ensures Folded(Gone(ts, us, i, e, x)) && Folded(Edited(ts, us, i, e, x))
  {
    NopsInPlace(ts, us, i, e, nops, x);
  }

  lemma {:induction false} EndPastGone(ts: seq<Token>, us: seq<Token>, i: nat, e: nat, x: int, d: nat)
    requires Folded(Gone(ts, us, i, e, x))
    ensures EndFrom(us, i, d) == Plus(EndFrom(ts, i, d), x) && (EndFrom(ts, i, d) >= 0 ==> EndFrom(ts, i, d) > e)
  {
    PassNode(ts, i, e, d, []);
    PassProps(us, i, e + x, d, []);
    EndMoved(ts, e, us, e + x, d);
  }

  lemma {:induction false} FindPastGone(ts: seq<Token>, us: seq<Token>, i: nat, e: nat, x: int, d: nat, name: seq<byte>)
    requires Folded(Gone(ts, us, i, e, x))
    ensures FindSubnode(us, i, d, name) == Plus(FindSubnode(ts, e, d, name), x)
    ensures FindSubnode(ts, i, d, name) == if d == 0 && NodeNameEq(ts[i].name, name) then i else FindSubnode(ts, e, d, name)
  {
    PassNode(ts, i, e, d, name);
    PassProps(us, i, e + x, d, name);
    FindMoved(ts, e, us, e + x, d, name);
  }

  lemma {:induction false} EndBeforeGone(ts: seq<Token>, us: seq<Token>, i: nat, e: nat, x: int, n: nat)
    requires Folded(Gone(ts, us, i, e, x)) && n < i
    ensures Folded(SameEnd(ts, us, e, x, n))
  {
    EndBoth(ts, us, i, n + 1, 0);
    if Reaches(ts, n + 1, 0, i) { EndPastGone(ts, us, i, e, x, Level(ts, n + 1, i)); }
  }

  /** What is found under a name that led to the deleted node: the next subnode that answers. */
  ghost predicate SubnodeGone(ts: seq<Token>, us: seq<Token>, i: nat, e: nat, x: int, n: nat, name: seq<byte>) {
    && n < i < e <= |ts| && n < |us|
    && FindSubnode(us, n + 1, 0, name) ==
         Moved(if FindSubnode(ts, n + 1, 0, name) == i then FindSubnode(ts, e, 0, name) else FindSubnode(ts, n + 1, 0, name), e, x)
  }

  lemma {:induction false} FindBeforeGone(ts: seq<Token>, us: seq<Token>, i: nat, e: nat, x: int, n: nat, name: seq<byte>)
    requires Folded(Gone(ts, us, i, e, x)) && n < i
    ensures Folded(SubnodeGone(ts, us, i, e, x, n, name))
  {
    var on := FindBoth(ts, us, i, n + 1, 0, name);
    if on { FindPastGone(ts, us, i, e, x, Level(ts, n + 1, i), name); }
  }

  /** A property is found as before, unless the deleted node stood between the properties of its parent. */
  ghost predicate PropGone(ts: seq<Token>, us: seq<Token>, i: nat, e: nat, x: int, n: nat, name: seq<byte>) {
    && n < i < e <= |ts| && n < |us|
    && FindProp(us, n + 1, name) == if Skips(ts, n + 1, i, name) then Moved(FindProp(ts, e, name), e, x) else FindProp(ts, n + 1, name)
  }

  lemma {:induction false} PropBeforeGone(ts: seq<Token>, us: seq<Token>, i: nat, e: nat, x: int, n: nat, name: seq<byte>)
    requires Folded(Gone(ts, us, i, e, x)) && n < i
    ensures Folded(PropGone(ts, us, i, e, x, n, name)) && (Skips(ts, n + 1, i, name) ==> FindProp(ts, n + 1, name) == NOTFOUND)
  {
    PropBoth(ts, us, i, n + 1, name);
    if Skips(ts, n + 1, i, name) {
      PropPastGone(ts, us, i, e, e + x, name);
    }
  }

  /** fdt_del_node (no new tokens) and fdt_nop_node (nops): what a node outside the deleted one finds.
      Nodes behind it find all as before, nodes before it (its parent among them) their end, ... */
  lemma {:induction false} DelNodeLookups(ts: seq<Token>, us: seq<Token>, i: nat, e: nat, nops: nat, x: int, n: nat, name: seq<byte>)
    requires i < |ts| && ts[i].BeginNode? && EndFrom(ts, i + 1, 0) == e && n < |ts| && ts[n].BeginNode? && (n < i || n >= e)
    requires us == Edit(ts, i, e, Times(nops, Nop)) && x == nops - (e - i)
    ensures Folded(Kept(ts, us, i, e, x)) && Folded(SameEnd(ts, us, e, x, n))
    ensures n < i ==> Folded(SubnodeGone(ts, us, i, e, x, n, name)) && Folded(PropGone(ts, us, i, e, x, n, name))
    ensures n >= e ==> Folded(SameSubnode(ts, us, e, x, n, name)) && Folded(SameProp(ts, us, e, x, n, name))
  {
    NodeGone(ts, us, i, e, nops, x);
    TokensKept(ts, us, i, e, x);
    if n < i {
      EndBeforeGone(ts, us, i, e, x, n);
      FindBeforeGone(ts, us, i, e, x, n, name);
      PropBeforeGone(ts, us, i, e, x, n, name);
    } else {
      BehindEdit(ts, us, i, e, x, n, name);
    }
  }

  /** Property lookups stay as they were when no property follows the deleted node. */
  lemma {:induction false} PropsBeforeNodes(ts: seq<Token>, us: seq<Token>, i: nat, e: nat, nops: nat, x: int, n: nat, name: seq<byte>)
    requires i < |ts| && ts[i].BeginNode? && EndFrom(ts, i + 1, 0) == e && n < i && ts[n].BeginNode? && x == nops - (e - i)
    requires us == Edit(ts, i, e, Times(nops, Nop)) && e < |ts| && (ts[e].BeginNode? || ts[e].EndNode?)
    ensures n < |us| && FindProp(us, n + 1, name) == FindProp(ts, n + 1, name)
  {
    NodeGone(ts, us, i, e, nops, x);
    PropBeforeGone(ts, us, i, e, x, n, name);
  }

  // ----- renaming -----

  ghost predicate Renamed(ts: seq<Token>, us: seq<Token>, i: nat, name: seq<byte>) {
    Edited(ts, us, i, i + 1, 0) && ts[i].BeginNode? && us[i] == BeginNode(name)
  }

  lemma {:induction false} EndBeforeRenamed(ts: seq<Token>, us: seq<Token>, i: nat, name: seq<byte>, n: nat)
    requires Folded(Renamed(ts, us, i, name)) && n < i
    ensures Folded(SameEnd(ts, us, i + 1, 0, n))
  {
    EndBoth(ts, us, i, n + 1, 0);
    if Reaches(ts, n + 1, 0, i) { EndMoved(ts, i + 1, us, i + 1, Level(ts, n + 1, i) + 1); }
  }

  lemma {:induction false} PropBeforeRenamed(ts: seq<Token>, us: seq<Token>, i: nat, name: seq<byte>, n: nat, other: seq<byte>)
    requires Folded(Renamed(ts, us, i, name)) && n < i
    ensures Folded(SameProp(ts, us, i + 1, 0, n, other))
  {
    PropBoth(ts, us, i, n + 1, other);
  }

  lemma {:induction false} FindPastRenamed(ts: seq<Token>, us: seq<Token>, i: nat, name: seq<byte>, d: nat, other: seq<byte>)
    requires Folded(Renamed(ts, us, i, name))
    ensures FindSubnode(us, i, d, other) == if d == 0 && NodeNameEq(name, other) then i else FindSubnode(ts, i + 1, d + 1, other)
    ensures FindSubnode(ts, i, d, other) == if d == 0 && NodeNameEq(ts[i].name, other) then i else FindSubnode(ts, i + 1, d + 1, other)
  {
    FindMoved(ts, i + 1, us, i + 1, d + 1, other);
  }

  /** What the node at token n finds after its subnode i, if it is one, has a new name: an earlier
      subnode, or i if it answers now, or else the next one after i. */
  ghost predicate FindsRenamed(ts: seq<Token>, us: seq<Token>, i: nat, name: seq<byte>, n: nat, other: seq<byte>) {
    && n < |ts| == |us| && i < |ts|
    && var r := FindSubnode(ts, n + 1, 0, other);
       FindSubnode(us, n + 1, 0, other) ==
         if !Subnode(ts, n + 1, 0, i) || 0 <= r < i then r
         else if NodeNameEq(name, other) then i
         else FindSubnode(ts, i + 1, 1, other)
  }

  lemma {:induction false} FindBeforeRenamed(ts: seq<Token>, us: seq<Token>, i: nat, name: seq<byte>, n: nat, other: seq<byte>)
    requires Folded(Renamed(ts, us, i, name)) && n < i
    ensures Folded(FindsRenamed(ts, us, i, name, n, other))
  {
    var on := FindBoth(ts, us, i, n + 1, 0, other);
    if on { FindPastRenamed(ts, us, i, name, Level(ts, n + 1, i), other); }
  }

  lemma {:induction false} BehindRenamed(ts: seq<Token>, us: seq<Token>, i: nat, name: seq<byte>, n: nat, other: seq<byte>)
    requires Folded(Renamed(ts, us, i, name)) && i <= n < |ts|
    ensures Folded(SameEnd(ts, us, i + 1, 0, n)) && Folded(SameProp(ts, us, i + 1, 0, n, other)) && Folded(FindsRenamed(ts, us, i, name, n, other))
  {
    TailMoved(ts, us, i, i + 1, 0, n + 1, n + 1);
    SameTail(ts, us, i, n, other);
    FindSameTail(ts, us, i, name, n, other);
  }

  lemma {:induction false} SameTail(ts: seq<Token>, us: seq<Token>, i: nat, n: nat, other: seq<byte>)
    requires n < |ts| == |us| && Folded(SameFrom(ts, n + 1, us, n + 1))
    ensures Folded(SameEnd(ts, us, i + 1, 0, n)) && Folded(SameProp(ts, us, i + 1, 0, n, other))
  {
    EndMoved(ts, n + 1, us, n + 1, 0);
    PropMoved(ts, n + 1, us, n + 1, other);
  }

  lemma {:induction false} FindSameTail(ts: seq<Token>, us: seq<Token>, i: nat, name: seq<byte>, n: nat, other: seq<byte>)
    requires i <= n < |ts| == |us| && Folded(SameFrom(ts, n + 1, us, n + 1))
    ensures Folded(FindsRenamed(ts, us, i, name, n, other))
  {
    FindMoved(ts, n + 1, us, n + 1, 0, other);
  }

  /** fdt_set_name: only lookups of subnodes in the parent can change, and they change as the names say. */
  lemma {:induction false} SetNameLookups(ts: seq<Token>, us: seq<Token>, i: nat, name: seq<byte>, n: nat, other: seq<byte>)
    requires i < |ts| && ts[i].BeginNode? && n < |ts| && ts[n].BeginNode? && us == Edit(ts, i, i + 1, [BeginNode(name)])
    ensures Folded(Kept(ts, us, i, i + 1, 0)) && |us| == |ts| && us[i] == BeginNode(name)
    ensures Folded(SameEnd(ts, us, i + 1, 0, n)) && Folded(SameProp(ts, us, i + 1, 0, n, other))
    ensures Folded(FindsRenamed(ts, us, i, name, n, other))
  {
    Around(ts, us, i, i + 1, [BeginNode(name)], 0);
    NewAt(us, i, [BeginNode(name)], 0);
    TokensKept(ts, us, i, i + 1, 0);
    if n < i {
      EndBeforeRenamed(ts, us, i, name, n);
      PropBeforeRenamed(ts, us, i, name, n, other);
      FindBeforeRenamed(ts, us, i, name, n, other);
    } else {
      BehindRenamed(ts, us, i, name, n, other);
    }
  }
}
