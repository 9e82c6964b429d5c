/** What several components share: optional values, and the linked lists of the C code as
    sequences without duplicates. */
module Wrappers {

  datatype Option<+T> = None | Some(value: T)

  ghost predicate NoDup(s: seq<nat>) { forall i, j :: 0 <= i < j < |s| ==> s[i] != s[j] }

  /** list_del, TAILQ_REMOVE: the list without its first entry e. */
  function Without(s: seq<nat>, e: nat): (t: seq<nat>)
    ensures e in s ==> |t| == |s| - 1
    ensures e !in s ==> t == s
  {
    if s == [] then [] else if s[0] == e then s[1..] else [s[0]] + Without(s[1..], e)
  }

  /** Where the entry is, and what remains. */
  lemma {:induction false} WithoutAt(s: seq<nat>, e: nat) returns (k: nat)
    requires e in s
    ensures k < |s| && s[k] == e && Without(s, e) == s[..k] + s[k + 1..] && e !in s[..k]
  {
    if s[0] == e {
      k := 0;
    } else {
      var j := WithoutAt(s[1..], e);
      k := j + 1;
      assert s[..k] == [s[0]] + s[1..][..j];
      assert s[k + 1..] == s[1..][j + 1..];
    }
  }

  /** A list t that is s without its k-th entry. */
  lemma TakenOut(s: seq<nat>, k: nat, t: seq<nat>)
    requires NoDup(s) && k < |s| && t == s[..k] + s[k + 1..]
    ensures NoDup(t)
    ensures forall x :: x in t <==> x in s && x != s[k]
  {
    forall x | x in s && x != s[k] ensures x in t {
      var j :| 0 <= j < |s| && s[j] == x;
      assert t[if j < k then j else j - 1] == x;
    }
    forall x | x in t ensures x in s && x != s[k] {
      var j :| 0 <= j < |t| && t[j] == x;
      assert s[if j < k then j else j + 1] == x;
    }
  }

  /** Removing an entry removes that member and no other. */
  lemma WithoutKeeps(s: seq<nat>, e: nat)
    requires NoDup(s)
    ensures NoDup(Without(s, e)) && forall x :: x in Without(s, e) <==> x in s && x != e
  {
    if e in s {
      var k := WithoutAt(s, e);
      TakenOut(s, k, Without(s, e));
    }
  }
}
