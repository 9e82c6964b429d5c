/** The request queue of a block device (block_if.c): eight workers, a mutex, a condition
    variable, and free, pending and busy queues with dependency blocking. */
module BlockQueue {
  import opened Wrappers

  const NUMTHR := 8
  const MAXREQ := 64 + NUMTHR

  datatype Op = Read | Write | Flush | Delete

  /** A client's request; iovs are the lengths of its buffers. */
  datatype Req = Req(id: nat, op: Op, offset: int, iovs: seq<nat>)

  datatype Status = Free | Block | Pend | Busy | Done

  /** struct blockif_elem: offset is that of its request, block is where the request ends. */
  datatype Elem = Elem(status: Status, req: nat, op: Op, offset: int, block: int, tid: nat)

  datatype Queues = Queues(free: seq<nat>, pend: seq<nat>, busy: seq<nat>, elems: seq<Elem>)

  // ----- blockif_enqueue -----

  function Sum(s: seq<nat>): nat { if s == [] then 0 else Sum(s[..|s| - 1]) + s[|s| - 1] }

  /** Sum is the sum: of one length itself, of two lists the sum of both. */
  lemma {:induction false} SumConcat(a: seq<nat>, b: seq<nat>)
    ensures Sum(a + b) == Sum(a) + Sum(b) && forall x :: Sum([x]) == x
  {
    if b == [] {
      assert a + b == a;
    } else {
      SumConcat(a, b[..|b| - 1]);
      assert (a + b)[..|a + b| - 1] == a + b[..|b| - 1];
    }
  }

  /** Where a request ends; a flush gets 1 << 7 (the code's expression, not the largest offset). */
  function EndOf(r: Req): int {
    if r.op.Flush? then 128 else r.offset + Sum(r.iovs)
  }

  /** Some element of the queue ends at an offset. */
  predicate EndsAt(s: seq<nat>, elems: seq<Elem>, offset: int)
    requires forall i :: 0 <= i < |s| ==> s[i] < |elems|
  {
    exists i :: 0 <= i < |s| && elems[s[i]].block == offset
  }

  /** No element of the queue ends there. */
  ghost predicate NoneEndsAt(s: seq<nat>, elems: seq<Elem>, offset: int) {
    forall i :: 0 <= i < |s| && s[i] < |elems| ==> elems[s[i]].block != offset
  }

  ghost predicate Indices(q: Queues) {
    && |q.elems| == MAXREQ
    && (forall i :: 0 <= i < |q.free| ==> q.free[i] < MAXREQ)
    && (forall i :: 0 <= i < |q.pend| ==> q.pend[i] < MAXREQ)
    && (forall i :: 0 <= i < |q.busy| ==> q.busy[i] < MAXREQ)
  }

  ghost function Enqueued(q: Queues, r: Req): Queues
    requires Indices(q) && q.free != []
  {
    var e := q.free[0];
    var st := if EndsAt(q.pend, q.elems, r.offset) || EndsAt(q.busy, q.elems, r.offset) then Block else Pend;
    Queues(q.free[1..], q.pend + [e], q.busy, q.elems[e := Elem(st, r.id, r.op, r.offset, EndOf(r), q.elems[e].tid)])
  }

  // ----- blockif_dequeue -----

  /** The first dispatchable element of the pending queue, as a position; |pend| if none. */
  function FirstPend(s: seq<nat>, elems: seq<Elem>): (k: nat)
    requires forall i :: 0 <= i < |s| ==> s[i] < |elems|
    ensures k <= |s| && (k < |s| ==> elems[s[k]].status == Pend)
    ensures forall i :: 0 <= i < k ==> elems[s[i]].status != Pend
  {
    if s == [] then 0 else if elems[s[0]].status == Pend then 0 else 1 + FirstPend(s[1..], elems)
  }

  ghost function Dequeued(q: Queues, t: nat, k: nat): Queues
    requires Indices(q) && k < |q.pend|
  {
    var e := q.pend[k];
    Queues(q.free, q.pend[..k] + q.pend[k + 1..], q.busy + [e], q.elems[e := q.elems[e].(status := Busy, tid := t)])
  }

  // ----- blockif_complete -----

  /** Every pending element that starts where e ended becomes dispatchable. */
  function Released(elems: seq<Elem>, pend: seq<nat>, block: int): (r: seq<Elem>)
    ensures |r| == |elems|
    ensures forall x :: 0 <= x < |elems| ==>
      r[x] == if x in pend && elems[x].offset == block then elems[x].(status := Pend) else elems[x]
  {
    seq(|elems|, x requires 0 <= x < |elems| =>
      if x in pend && elems[x].offset == block then elems[x].(status := Pend) else elems[x])
  }

  ghost function Completed(q: Queues, e: nat): Queues
    requires Indices(q) && e < MAXREQ
  {
    var inBusy := q.elems[e].status.Done? || q.elems[e].status.Busy?;
    var busy := if inBusy then Without(q.busy, e) else q.busy;
    var pend := if inBusy then q.pend else Without(q.pend, e);
    var elems := Released(q.elems, pend, q.elems[e].block);
    Queues(q.free + [e], pend, busy, elems[e := Elem(Free, 0, elems[e].op, 0, elems[e].block, 0)])
  }

  // ----- what every operation keeps -----

  /** Each element is on the queue its status says, and on no other. */
  ghost predicate Sorted(q: Queues) {
    && Indices(q) && NoDup(q.free) && NoDup(q.pend) && NoDup(q.busy)
    && forall e :: 0 <= e < MAXREQ ==>
         && (e in q.free <==> q.elems[e].status.Free?)
         && (e in q.pend <==> q.elems[e].status.Pend? || q.elems[e].status.Block?)
         && (e in q.busy <==> q.elems[e].status.Busy? || q.elems[e].status.Done?)
  }

  /** A blocked element waits for one that ends at its offset, earlier in line or being processed. */
  ghost predicate Waits(q: Queues, k: nat)
    requires Indices(q) && k < |q.pend|
  {
    EndsAt(q.pend[..k], q.elems, q.elems[q.pend[k]].offset) || EndsAt(q.busy, q.elems, q.elems[q.pend[k]].offset)
  }

  ghost predicate Blockers(q: Queues)
    requires Indices(q)
  {
    forall k :: 0 <= k < |q.pend| && q.elems[q.pend[k]].status.Block? ==> Waits(q, k)
  }

  ghost predicate QueuesOk(q: Queues) { Sorted(q) && Blockers(q) }

  lemma EnqueuedIs(q: Queues, r: Req, e: nat, st: Status)
    requires Indices(q) && q.free != [] && e == q.free[0]
    requires st == if EndsAt(q.pend, q.elems, r.offset) || EndsAt(q.busy, q.elems, r.offset) then Block else Pend
    ensures Enqueued(q, r) == Queues(q.free[1..], q.pend + [e], q.busy, q.elems[e := Elem(st, r.id, r.op, r.offset, EndOf(r), q.elems[e].tid)])
  {
  }

  lemma EnqueueSorted(q: Queues, r: Req)
    requires Sorted(q) && q.free != []
    ensures Sorted(Enqueued(q, r))
  {
    var e, q' := q.free[0], Enqueued(q, r);
    assert q.free == [e] + q'.free;
    assert e !in q.pend && e !in q.busy;
  }

  lemma EnqueueBlockers(q: Queues, r: Req)
    requires QueuesOk(q) && q.free != []
    ensures Sorted(Enqueued(q, r)) && Blockers(Enqueued(q, r))
  {
    EnqueueSorted(q, r);
    var e, q' := q.free[0], Enqueued(q, r);
    forall k | 0 <= k < |q'.pend| && q'.elems[q'.pend[k]].status.Block?
      ensures Waits(q', k)
    {
      assert e !in q.pend && e !in q.busy;
      if k < |q.pend| {
        assert Waits(q, k);
        EndsAtSame(q.pend[..k], q'.pend[..k], q.elems, q'.elems, q.elems[q.pend[k]].offset);
        EndsAtSame(q.busy, q'.busy, q.elems, q'.elems, q.elems[q.pend[k]].offset);
      } else {
        EndsAtSame(q.pend, q'.pend[..k], q.elems, q'.elems, r.offset);
        EndsAtSame(q.busy, q'.busy, q.elems, q'.elems, r.offset);
      }
    }
  }

  /** A queue whose elements keep their ends still ends at an offset. */
  lemma EndsAtSame(s: seq<nat>, t: seq<nat>, elems: seq<Elem>, elems': seq<Elem>, offset: int)
    requires s == t && (forall i :: 0 <= i < |s| ==> s[i] < |elems| && s[i] < |elems'| && elems[s[i]].block == elems'[s[i]].block)
    ensures EndsAt(s, elems, offset) <==> EndsAt(t, elems', offset)
  {
  }

  lemma DequeueSorted(q: Queues, t: nat, k: nat)
    requires Sorted(q) && k < |q.pend|
    ensures Sorted(Dequeued(q, t, k))
  {
    TakenOut(q.pend, k, q.pend[..k] + q.pend[k + 1..]);
    var e := q.pend[k];
    assert e !in q.busy && e !in q.free;
  }

  lemma EndsAtBy(s: seq<nat>, elems: seq<Elem>, offset: int, x: nat)
    requires (forall i :: 0 <= i < |s| ==> s[i] < |elems|) && x in s && elems[x].block == offset
    ensures EndsAt(s, elems, offset)
  {
    var i :| 0 <= i < |s| && s[i] == x;
    assert elems[s[i]].block == offset;
  }

  lemma DequeueBlockers(q: Queues, t: nat, k: nat)
    requires QueuesOk(q) && k < |q.pend|
    ensures Sorted(Dequeued(q, t, k)) && Blockers(Dequeued(q, t, k))
  {
    DequeueSorted(q, t, k);
    var q' := Dequeued(q, t, k);
    forall i | 0 <= i < |q'.pend| && q'.elems[q'.pend[i]].status.Block?
      ensures Waits(q', i)
    {
      WaitsOn(q, t, k, i);
    }
  }

  /** Whoever an element waits for is still in front of it or in flight. */
  lemma WaitsCarried(q: Queues, j: nat, q': Queues, i: nat, o: int)
    requires Indices(q) && Indices(q') && j < |q.pend| && i < |q'.pend|
    requires q.elems[q.pend[j]].offset == o && q'.elems[q'.pend[i]].offset == o && Waits(q, j)
    requires forall y :: y < MAXREQ && (y in q.pend[..j] || y in q.busy) && q.elems[y].block == o ==>
      (y in q'.pend[..i] || y in q'.busy) && q'.elems[y].block == o
    ensures Waits(q', i)
  {
    var y: nat;
    if EndsAt(q.busy, q.elems, o) {
      var m :| 0 <= m < |q.busy| && q.elems[q.busy[m]].block == o;
      y := q.busy[m];
    } else {
      var m :| 0 <= m < j && q.elems[q.pend[..j][m]].block == o;
      y := q.pend[..j][m];
    }
    if y in q'.busy { EndsAtBy(q'.busy, q'.elems, o, y); } else { EndsAtBy(q'.pend[..i], q'.elems, o, y); }
  }

  lemma WaitsOn(q: Queues, t: nat, k: nat, i: nat)
    requires QueuesOk(q) && k < |q.pend| && Sorted(Dequeued(q, t, k)) && i < |q.pend| - 1
    requires Dequeued(q, t, k).elems[Dequeued(q, t, k).pend[i]].status.Block?
    ensures Waits(Dequeued(q, t, k), i)
  {
    var e, q' := q.pend[k], Dequeued(q, t, k);
    var j := if i < k then i else i + 1;
    assert q'.pend[i] == q.pend[j] && q.pend[j] != e;
    EarlierStay(q.pend, k, j);
    WaitsCarried(q, j, q', i, q.elems[q.pend[j]].offset);
  }

  /** Taking out position k keeps the others before position j in front of it. */
  lemma EarlierStay(s: seq<nat>, k: nat, j: nat)
    requires k < |s| && j < |s| && j != k
    ensures var i := if j < k then j else j - 1;
            forall x :: x in s[..j] && x != s[k] ==> x in (s[..k] + s[k + 1..])[..i]
  {
    var t := s[..k] + s[k + 1..];
    var i := if j < k then j else j - 1;
    forall x | x in s[..j] && x != s[k]
      ensures x in t[..i]
    {
      var m :| 0 <= m < j && s[m] == x;
      assert t[..i][if m < k then m else m - 1] == x;
    }
  }

  /** Which element is where after a completion. */
  lemma CompleteMembers(q: Queues, e: nat, x: nat)
    requires Sorted(q) && e < MAXREQ && e !in q.free
    ensures var q' := Completed(q, e);
            && NoDup(q'.pend) && NoDup(q'.busy)
            && (x in q'.pend <==> x in q.pend && x != e) && (x in q'.busy <==> x in q.busy && x != e)
            && (x in q'.free <==> x in q.free || x == e)
  {
    if e in q.busy { WithoutKeeps(q.busy, e); } else { WithoutKeeps(q.pend, e); }
    assert Completed(q, e).free == q.free + [e];
  }

  lemma CompleteIndices(q: Queues, e: nat)
    requires Sorted(q) && e < MAXREQ && e !in q.free
    ensures Indices(Completed(q, e)) && NoDup(Completed(q, e).free)
  {
    var q' := Completed(q, e);
    forall i | 0 <= i < |q'.pend| ensures q'.pend[i] < MAXREQ { CompleteMembers(q, e, q'.pend[i]); }
    forall i | 0 <= i < |q'.busy| ensures q'.busy[i] < MAXREQ { CompleteMembers(q, e, q'.busy[i]); }
  }

  lemma CompleteSorted(q: Queues, e: nat)
    requires Sorted(q) && e < MAXREQ && e !in q.free
    ensures Sorted(Completed(q, e))
  {
    var q' := Completed(q, e);
    CompleteIndices(q, e);
    CompleteMembers(q, e, e);
    forall x | 0 <= x < MAXREQ
      ensures && (x in q'.free <==> q'.elems[x].status.Free?)
              && (x in q'.pend <==> q'.elems[x].status.Pend? || q'.elems[x].status.Block?)
              && (x in q'.busy <==> q'.elems[x].status.Busy? || q'.elems[x].status.Done?)
    {
      CompleteMembers(q, e, x);
    }
  }

  /** Completing releases whoever waited for the element, so no one waits for it any more. */
  lemma CompleteBlockers(q: Queues, e: nat)
    requires QueuesOk(q) && e < MAXREQ && e !in q.free
    ensures Sorted(Completed(q, e)) && Blockers(Completed(q, e))
  {
    CompleteSorted(q, e);
    var q' := Completed(q, e);
    forall i | 0 <= i < |q'.pend| && q'.elems[q'.pend[i]].status.Block?
      ensures Waits(q', i)
    {
      StillWaits(q, e, i);
    }
  }

  lemma StillWaits(q: Queues, e: nat, i: nat)
    requires QueuesOk(q) && e < MAXREQ && e !in q.free && Sorted(Completed(q, e))
    requires i < |Completed(q, e).pend| && Completed(q, e).elems[Completed(q, e).pend[i]].status.Block?
    ensures Waits(Completed(q, e), i)
  {
    var q' := Completed(q, e);
    var x := q'.pend[i];
    var o := q.elems[x].offset;
    assert x != e && q'.elems[x] == q.elems[x] && o != q.elems[e].block;
    var j := PlaceBefore(q, e, i);
    forall y: nat | y in q.busy && y != e ensures y in q'.busy { CompleteMembers(q, e, y); }
    assert forall y :: 0 <= y < MAXREQ && y != e ==> q'.elems[y].block == q.elems[y].block;
    WaitsCarried(q, j, q', i, o);
  }

  /** Where a pending element was before the completion of e, with the same elements in front. */
  lemma PlaceBefore(q: Queues, e: nat, i: nat) returns (j: nat)
    requires Sorted(q) && e < MAXREQ && e !in q.free && i < |Completed(q, e).pend|
    ensures j < |q.pend| && q.pend[j] == Completed(q, e).pend[i]
    ensures forall x :: x in q.pend[..j] && x != e ==> x in Completed(q, e).pend[..i]
  {
    if e in q.busy {
      j := i;
    } else {
      var k := WithoutAt(q.pend, e);
      j := if i < k then i else i + 1;
      EarlierStay(q.pend, k, j);
    }
  }

  /** The head of the line is never stuck behind another pending element. */
  lemma HeadMoves(q: Queues)
    requires QueuesOk(q) && q.pend != []
    ensures q.busy != [] || q.elems[q.pend[0]].status.Pend?
  {
    if q.elems[q.pend[0]].status.Block? { assert Waits(q, 0); }
  }

  // ----- the queues as the code changes them -----

  class BlockIf {
    var free: seq<nat>
    var pend: seq<nat>
    var busy: seq<nat>
    var elems: seq<Elem>

    ghost function View(): Queues
      reads this
    {
      Queues(free, pend, busy, elems)
    }

    /** The part of blockif_open that sets up the queues. */
    constructor ()
      ensures QueuesOk(View()) && |free| == MAXREQ && pend == [] && busy == []
    {
      elems := seq(MAXREQ, _ => Elem(Free, 0, Read, 0, 0, 0));
      free := seq(MAXREQ, i => if i < MAXREQ then MAXREQ - 1 - i else 0);
      pend, busy := [], [];
      new;
      forall e | 0 <= e < MAXREQ ensures e in free { assert free[MAXREQ - 1 - e] == e; }
    }

    /** Does an element of a queue end at an offset? (the two searches of blockif_enqueue) */
    method FindEnd(s: seq<nat>, offset: int) returns (found: bool)
      requires forall i :: 0 <= i < |s| ==> s[i] < |elems|
      ensures (found <==> EndsAt(s, elems, offset)) && (found <==> !NoneEndsAt(s, elems, offset))
    {
      for i := 0 to |s|
        invariant forall j :: 0 <= j < i ==> elems[s[j]].block != offset
      {
        if elems[s[i]].block == offset { return true; }
      }
      found := false;
    }

    /** Where a request ends, summed over its buffers (the switch of blockif_enqueue). */
    method EndOffset(r: Req) returns (off: int)
      ensures off == EndOf(r)
    {
      if r.op.Flush? { return 128; }
      off := r.offset;
      for i := 0 to |r.iovs|
        invariant off == r.offset + Sum(r.iovs[..i])
      {
        assert r.iovs[..i + 1][..i] == r.iovs[..i];
        off := off + r.iovs[i];
      }
      assert r.iovs[..|r.iovs|] == r.iovs;
    }

    /** blockif_enqueue: true when the request can be dispatched at once. */
    method Enqueue(r: Req) returns (ready: bool)
      requires QueuesOk(View()) && free != []
      modifies this
      ensures QueuesOk(View()) && View() == Enqueued(old(View()), r)
      ensures ready <==> NoneEndsAt(old(pend), old(elems), r.offset) && NoneEndsAt(old(busy), old(elems), r.offset)
      ensures free == old(free)[1..] && pend == old(pend) + [old(free)[0]] && busy == old(busy)
      ensures var be, end := old(free)[0], if r.op.Flush? then 128 else r.offset + Sum(r.iovs);
              elems == old(elems)[be := Elem(if ready then Pend else Block, r.id, r.op, r.offset, end, old(elems)[be].tid)]
    {
      ghost var q := View();
      EnqueueBlockers(q, r);
      var be := free[0];
      var off := EndOffset(r);
      var blocked := FindEnd(pend, r.offset);
      if !blocked { blocked := FindEnd(busy, r.offset); }
      ready := !blocked;
      EnqueuedIs(q, r, be, if ready then Pend else Block);
      elems := elems[be := Elem(if ready then Pend else Block, r.id, r.op, r.offset, off, elems[be].tid)];
      free, pend := free[1..], pend + [be];
    }

    /** blockif_dequeue: hands the first dispatchable request to worker t. */
    method Dequeue(t: nat) returns (ok: bool, be: nat)
      requires QueuesOk(View())
      modifies this
      ensures QueuesOk(View())
      ensures var q, k := old(View()), FirstPend(old(pend), old(elems));
              (ok <==> k < |q.pend|) && View() == (if ok then Dequeued(q, t, k) else q) && (ok ==> be == q.pend[k])
      ensures ok <==> exists i :: 0 <= i < |old(pend)| && old(elems)[old(pend)[i]].status.Pend?
      ensures ok ==>
        && free == old(free) && busy == old(busy) + [be] && elems == old(elems)[be := old(elems)[be].(status := Busy, tid := t)]
        && exists k ::
             && 0 <= k < |old(pend)| && old(pend)[k] == be && pend == old(pend)[..k] + old(pend)[k + 1..]
             && forall i :: 0 <= i < k ==> old(elems)[old(pend)[i]].status.Block?
    {
      ghost var q := View();
      var k := 0;
      while k < |pend|
        invariant k <= |pend| && View() == q
        invariant forall i :: 0 <= i < k ==> !elems[pend[i]].status.Pend?
      {
        if elems[pend[k]].status.Pend? { break; }
        k := k + 1;
      }
      if k == |pend| { return false, 0; }
      DequeueBlockers(View(), t, k);
      be := pend[k];
      pend := pend[..k] + pend[k + 1..];
      elems := elems[be := elems[be].(status := Busy, tid := t)];
      busy := busy + [be];
      ok := true;
    }

    /** The loop of blockif_complete over the pending queue. */
    method Release(block: int)
      requires |elems| == MAXREQ && forall i :: 0 <= i < |pend| ==> pend[i] < MAXREQ
      modifies this`elems
      ensures elems == Released(old(elems), pend, block)
    {
      ghost var all := elems;
      for i := 0 to |pend|
        invariant |elems| == MAXREQ
        invariant forall x :: 0 <= x < MAXREQ ==>
          elems[x] == if x in pend[..i] && all[x].offset == block then all[x].(status := Pend) else all[x]
      {
        var tbe := pend[i];
        InNext(pend, i);
        if elems[tbe].offset == block { elems := elems[tbe := elems[tbe].(status := Pend)]; }
      }
      assert pend[..|pend|] == pend;
    }

    /** blockif_complete */
    method Complete(be: nat)
      requires QueuesOk(View()) && be < MAXREQ && be !in free
      modifies this
      ensures QueuesOk(View()) && View() == Completed(old(View()), be)
      ensures free == old(free) + [be] && pend == Without(old(pend), be) && busy == Without(old(busy), be)
      ensures forall x :: 0 <= x < MAXREQ && x != be ==>
        elems[x] == if x in pend && old(elems)[x].offset == old(elems)[be].block then old(elems)[x].(status := Pend) else old(elems)[x]
    {
      ghost var q := View();
      CompleteBlockers(q, be);
      CompleteIndices(q, be);
      if elems[be].status.Done? || elems[be].status.Busy? {
        busy := Without(busy, be);
      } else {
        pend := Without(pend, be);
      }
      Release(elems[be].block);
      elems := elems[be := Elem(Free, 0, elems[be].op, 0, elems[be].block, 0)];
      free := free + [be];
    }

    /** blockif_cancel of a pending request; a busy or unknown one is not found here. */
    method CancelPending(id: nat) returns (found: bool)
      requires QueuesOk(View())
      modifies this
      ensures QueuesOk(View())
      ensures found <==> exists i :: 0 <= i < |old(pend)| && old(elems)[old(pend)[i]].req == id
      ensures !found ==> View() == old(View())
      ensures found ==> exists i ::
        && 0 <= i < |old(pend)| && old(elems)[old(pend)[i]].req == id && (forall j :: 0 <= j < i ==> old(elems)[old(pend)[j]].req != id)
        && View() == Completed(old(View()), old(pend)[i])
    {
      var i := 0;
      while i < |pend|
        invariant i <= |pend| && View() == old(View())
        invariant forall j :: 0 <= j < i ==> elems[pend[j]].req != id
      {
        if elems[pend[i]].req == id {
          Complete(pend[i]);
          return true;
        }
        i := i + 1;
      }
      found := false;
    }
  }

  lemma InNext(s: seq<nat>, i: nat)
    requires i < |s|
    ensures forall x :: x in s[..i + 1] <==> x in s[..i] || x == s[i]
  {
    assert s[..i + 1] == s[..i] + [s[i]];
  }

  // ----- workers, requests and closing, interleaved -----

  datatype Worker = Awake | Asleep | Processing(e: nat) | Exited

  datatype Sys = Sys(q: Queues, w: seq<Worker>, closing: bool)

  /** One critical section, or one step outside the mutex. */
  datatype Step =
    | Request(r: Req, wakes: nat)   // blockif_request; the signal wakes one sleeper
    | Work(k: nat)                  // a worker dequeues, or exits, or waits
    | Finish(k: nat)                // blockif_proc ends
    | Complete(k: nat)              // blockif_complete by its worker
    | Cancel(e: nat)                // blockif_cancel of a pending element: no signal
    | Close                         // closing is set
    | Broadcast                     // ... and then every sleeper is woken
    | Wake(k: nat)                  // a spurious wake-up

  ghost predicate Sleeps(s: Sys) { exists k :: 0 <= k < |s.w| && s.w[k].Asleep? }

  ghost predicate AllExited(s: Sys) { forall k :: 0 <= k < |s.w| ==> s.w[k].Exited? }

  /** A worker that runs, or is about to. */
  ghost predicate Live(s: Sys) { exists k :: 0 <= k < |s.w| && (s.w[k].Awake? || s.w[k].Processing?) }

  ghost predicate Enabled(s: Sys, step: Step)
    requires Indices(s.q)
  {
    match step
    case Request(r, k) =>
      // a signal reaches a sleeper when there is one
      s.q.free != [] && Enqueued(s.q, r).elems[s.q.free[0]].status.Pend? && Sleeps(s) ==> k < |s.w| && s.w[k].Asleep?
    case Work(k) => k < |s.w| && s.w[k].Awake?
    case Finish(k) => k < |s.w| && s.w[k].Processing? && s.w[k].e < MAXREQ && s.q.elems[s.w[k].e].status.Busy?
    case Complete(k) => k < |s.w| && s.w[k].Processing? && s.w[k].e < MAXREQ && s.q.elems[s.w[k].e].status.Done?
    case Cancel(e) => e < MAXREQ && e in s.q.pend
    case Close => true
    case Broadcast => s.closing
    case Wake(k) => k < |s.w| && s.w[k].Asleep?
  }

  function Woken(w: seq<Worker>): (r: seq<Worker>)
    ensures |r| == |w| && forall k :: 0 <= k < |w| ==> r[k] == if w[k].Asleep? then Awake else w[k]
  {
    seq(|w|, k requires 0 <= k < |w| => if w[k].Asleep? then Awake else w[k])
  }

  ghost function Apply(s: Sys, step: Step): Sys
    requires Indices(s.q) && Enabled(s, step)
  {
    match step
    case Request(r, k) =>
      if s.q.free == [] then s
      else
        var q := Enqueued(s.q, r);
        s.(q := q, w := if q.elems[s.q.free[0]].status.Pend? && k < |s.w| && s.w[k].Asleep? then s.w[k := Awake] else s.w)
    case Work(k) =>
      var p := FirstPend(s.q.pend, s.q.elems);
      if p < |s.q.pend| then s.(q := Dequeued(s.q, k, p), w := s.w[k := Processing(s.q.pend[p])])
      else s.(w := s.w[k := if s.closing then Exited else Asleep])
    case Finish(k) =>
      var e := s.w[k].e;
      s.(q := s.q.(elems := s.q.elems[e := s.q.elems[e].(status := Done)]))
    case Complete(k) => s.(q := Completed(s.q, s.w[k].e), w := s.w[k := Awake])
    case Cancel(e) => s.(q := Completed(s.q, e))
    case Close => s.(closing := true)
    case Broadcast => s.(w := Woken(s.w))
    case Wake(k) => s.(w := s.w[k := Awake])
  }

  /** Each busy element belongs to the one worker that processes it. */
  ghost predicate Owned(s: Sys)
    requires Indices(s.q)
  {
    && (forall k :: 0 <= k < |s.w| && s.w[k].Processing? ==> s.w[k].e in s.q.busy && s.w[k].e < MAXREQ && s.q.elems[s.w[k].e].tid == k)
    && forall e :: e in s.q.busy ==> e < MAXREQ && s.q.elems[e].tid < |s.w| && s.w[s.q.elems[e].tid] == Processing(e)
  }

  /** What every step keeps without condition. */
  ghost predicate Base(s: Sys) {
    && QueuesOk(s.q) && |s.w| == NUMTHR && Owned(s)
    && (forall k :: 0 <= k < |s.w| && s.w[k].Exited? ==> s.closing)
  }

  /** Work to do has a worker to do it. */
  ghost predicate Attended(s: Sys) { s.q.pend != [] || s.q.busy != [] ==> Live(s) }

  ghost predicate Inv(s: Sys) { Base(s) && Attended(s) }

  lemma BusyIsLive(s: Sys)
    requires Indices(s.q) && Owned(s) && s.q.busy != []
    ensures Live(s)
  {
    var e := s.q.busy[0];
    assert e in s.q.busy;
    assert s.w[s.q.elems[e].tid].Processing?;
  }

  /** A request keeps the queue alive exactly when some worker has not exited. */
  lemma RequestKeepsLive(s: Sys, r: Req, k: nat)
    requires Inv(s) && s.q.free != [] && Enabled(s, Request(r, k))
    ensures Live(Apply(s, Request(r, k))) <==> !AllExited(s)
  {
    var e, s' := s.q.free[0], Apply(s, Request(r, k));
    if !AllExited(s) {
      var j :| 0 <= j < |s.w| && !s.w[j].Exited?;
      if s'.q.elems[e].status.Pend? {
        if Sleeps(s) { assert s'.w[k].Awake?; } else { assert s'.w[j] == s.w[j]; }
      } else {
        assert EndsAt(s.q.pend, s.q.elems, r.offset) || EndsAt(s.q.busy, s.q.elems, r.offset);
        assert s'.w == s.w;
      }
    }
  }

  lemma RequestInv(s: Sys, r: Req, k: nat)
    requires Base(s) && Enabled(s, Request(r, k))
    ensures Base(Apply(s, Request(r, k)))
    ensures Attended(s) && (s.q.free == [] || !AllExited(s)) ==> Attended(Apply(s, Request(r, k)))
  {
    if s.q.free != [] {
      EnqueueBlockers(s.q, r);
      var e, s' := s.q.free[0], Apply(s, Request(r, k));
      assert e !in s.q.busy;
      assert forall x :: x in s.q.busy ==> s'.q.elems[x] == s.q.elems[x];
      if Attended(s) { RequestKeepsLive(s, r, k); }
    }
  }

  lemma WorkInv(s: Sys, k: nat)
    requires Base(s) && Enabled(s, Work(k))
    ensures Base(Apply(s, Work(k))) && Attended(Apply(s, Work(k)))
  {
    var p, s' := FirstPend(s.q.pend, s.q.elems), Apply(s, Work(k));
    if p < |s.q.pend| {
      DequeueBlockers(s.q, k, p);
      assert s'.w[k].Processing?;
      TakenByOne(s, k, p);
    } else {
      if s.q.pend != [] {
        assert s.q.elems[s.q.pend[0]].status != Pend;
        HeadMoves(s.q);
      }
      if s.q.busy != [] {
        assert forall x :: x in s.q.busy ==> s.q.elems[x].tid != k;
        BusyIsLive(s');
      }
    }
  }

  lemma TakenByOne(s: Sys, k: nat, p: nat)
    requires Base(s) && k < |s.w| && s.w[k].Awake? && p < |s.q.pend|
    ensures Indices(Dequeued(s.q, k, p))
    ensures Owned(s.(q := Dequeued(s.q, k, p), w := s.w[k := Processing(s.q.pend[p])]))
  {
    DequeueSorted(s.q, k, p);
    var e := s.q.pend[p];
    assert e in s.q.pend && e !in s.q.busy;
    assert forall x :: x in s.q.busy ==> s.q.elems[x].tid != k;
  }

  lemma FinishInv(s: Sys, k: nat)
    requires Base(s) && Enabled(s, Finish(k))
    ensures Base(Apply(s, Finish(k))) && (Attended(s) ==> Attended(Apply(s, Finish(k))))
  {
    var e, s' := s.w[k].e, Apply(s, Finish(k));
    assert forall x :: 0 <= x < MAXREQ ==> s'.q.elems[x].(status := Free) == s.q.elems[x].(status := Free);
    forall i | 0 <= i < |s'.q.pend| && s'.q.elems[s'.q.pend[i]].status.Block?
      ensures Waits(s'.q, i)
    {
      assert Waits(s.q, i);
      EndsAtSame(s.q.pend[..i], s'.q.pend[..i], s.q.elems, s'.q.elems, s.q.elems[s.q.pend[i]].offset);
      EndsAtSame(s.q.busy, s'.q.busy, s.q.elems, s'.q.elems, s.q.elems[s.q.pend[i]].offset);
    }
    assert s'.w == s.w && (Live(s) ==> Live(s'));
  }

  lemma CompletedBusy(s: Sys, e: nat)
    requires Base(s) && e < MAXREQ && e !in s.q.free
    ensures forall x :: x in Completed(s.q, e).busy ==> x in s.q.busy && x != e && Completed(s.q, e).elems[x] == s.q.elems[x]
    ensures forall x :: x in s.q.busy && x != e ==> x in Completed(s.q, e).busy
  {
    var q' := Completed(s.q, e);
    forall x: nat | x in q'.busy ensures x in s.q.busy && x != e && q'.elems[x] == s.q.elems[x] { CompleteMembers(s.q, e, x); }
    forall x: nat | x in s.q.busy && x != e ensures x in q'.busy { CompleteMembers(s.q, e, x); }
  }

  lemma CompleteInv(s: Sys, k: nat)
    requires Base(s) && Enabled(s, Complete(k))
    ensures Base(Apply(s, Complete(k))) && Attended(Apply(s, Complete(k)))
  {
    var e, s' := s.w[k].e, Apply(s, Complete(k));
    CompleteBlockers(s.q, e);
    CompletedBusy(s, e);
    assert s'.w[k].Awake?;
  }

  lemma CancelInv(s: Sys, e: nat)
    requires Base(s) && Enabled(s, Cancel(e))
    ensures Base(Apply(s, Cancel(e))) && (Attended(s) ==> Attended(Apply(s, Cancel(e))))
  {
    CompleteBlockers(s.q, e);
    CompletedBusy(s, e);
    var s' := Apply(s, Cancel(e));
    assert s'.w == s.w && (Live(s) ==> Live(s'));
  }

  lemma WakeInv(s: Sys, step: Step)
    requires Base(s) && Enabled(s, step) && (step.Close? || step.Broadcast? || step.Wake?)
    ensures Base(Apply(s, step)) && (Attended(s) ==> Attended(Apply(s, step)))
  {
    var s' := Apply(s, step);
    if Live(s) {
      var k :| 0 <= k < |s.w| && (s.w[k].Awake? || s.w[k].Processing?);
      assert s'.w[k] == s.w[k];
    }
  }

  /** A request that is accepted after the last worker has exited. */
  ghost predicate TooLate(s: Sys, step: Step) { step.Request? && s.q.free != [] && AllExited(s) }

  /** Every step keeps the queues in order, and keeps work attended unless it is a request that
      comes too late. */
  lemma StepInv(s: Sys, step: Step)
    requires Base(s) && Enabled(s, step)
    ensures Base(Apply(s, step))
    ensures Attended(s) && !TooLate(s, step) ==> Attended(Apply(s, step))
  {
    match step
    case Request(r, k) => RequestInv(s, r, k);
    case Work(k) => WorkInv(s, k);
    case Finish(k) => FinishInv(s, k);
    case Complete(k) => CompleteInv(s, k);
    case Cancel(e) => CancelInv(s, e);
    case _ => WakeInv(s, step);
  }

  // ----- runs -----

  ghost predicate Start(s: Sys) {
    && QueuesOk(s.q) && s.q.pend == [] && s.q.busy == []
    && |s.w| == NUMTHR && (forall k :: 0 <= k < NUMTHR ==> s.w[k] == Awake) && !s.closing
  }

  /** A run: states joined by steps, in any order. */
  ghost predicate Run(run: seq<Sys>, steps: seq<Step>) {
    && |run| == |steps| + 1 && Start(run[0])
    && forall i :: 0 <= i < |steps| ==>
         Indices(run[i].q) && Enabled(run[i], steps[i]) && run[i + 1] == Apply(run[i], steps[i])
  }

  /** Among the first n steps a request came too late. */
  ghost predicate Late(run: seq<Sys>, steps: seq<Step>, n: nat)
    requires |run| == |steps| + 1 && n < |run|
  {
    exists i :: 0 <= i < n && TooLate(run[i], steps[i])
  }

  lemma {:induction false} RunInv(run: seq<Sys>, steps: seq<Step>, n: nat)
    requires Run(run, steps) && n < |run|
    ensures Base(run[n]) && (Late(run, steps, n) || Attended(run[n]))
  {
    if n > 0 {
      RunInv(run, steps, n - 1);
      StepInv(run[n - 1], steps[n - 1]);
    }
  }

  /** In every reachable state a blocked element has its blocker in front of it or in flight, and,
      unless a request has come after the last worker's exit, pending work has a worker that is
      not asleep. */
  lemma NeverStalls(run: seq<Sys>, steps: seq<Step>, n: nat, k: nat)
    requires Run(run, steps) && n < |run| && k < |run[n].q.pend|
    ensures Sorted(run[n].q) && (Live(run[n]) || Late(run, steps, n))
    ensures run[n].q.elems[run[n].q.pend[k]].status.Block? ==> Waits(run[n].q, k)
  {
    RunInv(run, steps, n);
  }

  /** Worker k, and no other, processes e. */
  ghost predicate SoleWorker(w: seq<Worker>, e: nat, k: nat) {
    k < |w| && forall j :: 0 <= j < |w| ==> (w[j] == Processing(e) <==> j == k)
  }

  /** In every reachable state each element is on exactly one queue, and a busy element is processed
      by exactly one worker. */
  lemma RunPartition(run: seq<Sys>, steps: seq<Step>, n: nat, e: nat)
    requires Run(run, steps) && n < |run| && e < MAXREQ
    ensures var q := run[n].q;
            (if e in q.free then 1 else 0) + (if e in q.pend then 1 else 0) + (if e in q.busy then 1 else 0) == 1
    ensures e in run[n].q.busy ==> exists k :: SoleWorker(run[n].w, e, k)
    ensures e !in run[n].q.busy ==> forall j :: 0 <= j < |run[n].w| ==> run[n].w[j] != Processing(e)
  {
    RunInv(run, steps, n);
    var s := run[n];
    if e in s.q.busy {
      var k := s.q.elems[e].tid;
      assert SoleWorker(s.w, e, k);
    }
  }

  // ----- what blocking means -----

  /** Some element that has not been completed ends at an offset. */
  ghost predicate Depends(q: Queues, offset: int)
    requires Indices(q)
  {
    exists e :: (e in q.pend || e in q.busy) && e < MAXREQ && q.elems[e].block == offset
  }

  /** The step completes or cancels an element that ends at an offset. */
  ghost predicate Frees(s: Sys, step: Step, offset: int) {
    match step
    case Complete(k) => k < |s.w| && s.w[k].Processing? && s.w[k].e < |s.q.elems| && s.q.elems[s.w[k].e].block == offset
    case Cancel(e) => e < |s.q.elems| && s.q.elems[e].block == offset
    case _ => false
  }

  /** The element of an accepted request is the last in line, and blocked exactly when it depends on one before it. */
  lemma RequestQueued(s: Sys, r: Req, k: nat)
    requires Base(s) && s.q.free != [] && Enabled(s, Request(r, k))
    ensures var q, e := Apply(s, Request(r, k)).q, s.q.free[0];
            && q.pend == s.q.pend + [e] && e < |q.elems| && q.elems[e].req == r.id && q.elems[e].op == r.op && q.elems[e].offset == r.offset
            && q.elems[e].status == if Depends(s.q, r.offset) then Block else Pend
  {
    var q := s.q;
    if EndsAt(q.pend, q.elems, r.offset) {
      var i :| 0 <= i < |q.pend| && q.elems[q.pend[i]].block == r.offset;
      assert q.pend[i] in q.pend;
    } else if EndsAt(q.busy, q.elems, r.offset) {
      var i :| 0 <= i < |q.busy| && q.elems[q.busy[i]].block == r.offset;
      assert q.busy[i] in q.busy;
    }
    if Depends(q, r.offset) {
      var e :| (e in q.pend || e in q.busy) && e < MAXREQ && q.elems[e].block == r.offset;
      if e in q.pend { EndsAtBy(q.pend, q.elems, r.offset, e); } else { EndsAtBy(q.busy, q.elems, r.offset, e); }
    }
  }

  /** While an element stays in line its request stays, and only the end of one it depends on releases it. */
  lemma PendingKeeps(s: Sys, step: Step, e: nat)
    requires Base(s) && Enabled(s, step) && e in s.q.pend && e in Apply(s, step).q.pend
    ensures e < MAXREQ == |Apply(s, step).q.elems|
    ensures Apply(s, step).q.elems[e] == if Frees(s, step, s.q.elems[e].offset) then s.q.elems[e].(status := Pend) else s.q.elems[e]
  {
    match step
    case Request(r, k) => assert s.q.free != [] ==> e != s.q.free[0];
    case Work(k) =>
      var p := FirstPend(s.q.pend, s.q.elems);
      if p < |s.q.pend| { TakenOut(s.q.pend, p, s.q.pend[..p] + s.q.pend[p + 1..]); }
    case Complete(k) => CompleteMembers(s.q, s.w[k].e, e);
    case Cancel(x) => CompleteMembers(s.q, x, e);
    case _ =>
  }

  /** The element of request r in line, held back or not. */
  ghost predicate InLine(q: Queues, e: nat, r: Req, held: bool) {
    && e in q.pend && e < |q.elems| && q.elems[e].req == r.id && q.elems[e].op == r.op && q.elems[e].offset == r.offset
    && q.elems[e].status == if held then Block else Pend
  }

  lemma RunStep(run: seq<Sys>, steps: seq<Step>, n: nat)
    requires Run(run, steps) && n < |steps|
    ensures Base(run[n]) && Enabled(run[n], steps[n]) && run[n + 1] == Apply(run[n], steps[n])
  {
    RunInv(run, steps, n);
  }

  lemma ComesInLine(run: seq<Sys>, steps: seq<Step>, m: nat)
    requires Run(run, steps) && m < |steps| && steps[m].Request? && run[m].q.free != []
    ensures InLine(run[m + 1].q, run[m].q.free[0], steps[m].r, Depends(run[m].q, steps[m].r.offset))
  {
    RunStep(run, steps, m);
    RequestQueued(run[m], steps[m].r, steps[m].wakes);
  }

  lemma StaysInLine(run: seq<Sys>, steps: seq<Step>, n: nat, e: nat, r: Req, held: bool)
    requires Run(run, steps) && n < |steps| && InLine(run[n].q, e, r, held) && e in run[n + 1].q.pend
    ensures InLine(run[n + 1].q, e, r, held && !Frees(run[n], steps[n], r.offset))
  {
    RunStep(run, steps, n);
    PendingKeeps(run[n], steps[n], e);
  }

  /** Between two states no element ending at an offset was completed or cancelled. */
  ghost predicate Unfreed(run: seq<Sys>, steps: seq<Step>, m: nat, n: nat, offset: int)
    requires n < |run| == |steps| + 1
  {
    forall i :: m <= i < n ==> !Frees(run[i], steps[i], offset)
  }

  /** While the element stays in line, each step leaves it held or releases it. */
  ghost predicate Moves(run: seq<Sys>, steps: seq<Step>, e: nat, r: Req) {
    && |run| == |steps| + 1
    && forall n, held :: 0 <= n < |steps| && InLine(run[n].q, e, r, held) && e in run[n + 1].q.pend ==>
         InLine(run[n + 1].q, e, r, held && !Frees(run[n], steps[n], r.offset))
  }

  lemma RunMoves(run: seq<Sys>, steps: seq<Step>, e: nat, r: Req)
    requires Run(run, steps)
    ensures Moves(run, steps, e, r)
  {
    forall n, held | 0 <= n < |steps| && InLine(run[n].q, e, r, held) && e in run[n + 1].q.pend
      ensures InLine(run[n + 1].q, e, r, held && !Frees(run[n], steps[n], r.offset))
    {
      StaysInLine(run, steps, n, e, r, held);
    }
  }

  lemma {:induction false} HeldUntilFreed(run: seq<Sys>, steps: seq<Step>, e: nat, r: Req, m: nat, n: nat, held: bool)
    requires Moves(run, steps, e, r) && m <= n < |run| && InLine(run[m].q, e, r, held)
    requires forall i :: m <= i <= n ==> e in run[i].q.pend
    ensures InLine(run[n].q, e, r, held && Unfreed(run, steps, m, n, r.offset))
  {
    if n > m {
      HeldUntilFreed(run, steps, e, r, m, n - 1, held);
      assert Unfreed(run, steps, m, n, r.offset) <==>
             Unfreed(run, steps, m, n - 1, r.offset) && !Frees(run[n - 1], steps[n - 1], r.offset);
    }
  }

  /** Over every run: a request that is still in line is held back exactly if, when it came, an
      element in line or in flight ended at its offset, and no element ending there has been
      completed or cancelled since. */
  lemma HeldBackExactly(run: seq<Sys>, steps: seq<Step>, m: nat, n: nat)
    requires Run(run, steps) && m < n < |run| && steps[m].Request? && run[m].q.free != []
    requires forall i :: m < i <= n ==> run[m].q.free[0] in run[i].q.pend
    ensures InLine(run[n].q, run[m].q.free[0], steps[m].r,
                   Depends(run[m].q, steps[m].r.offset) && Unfreed(run, steps, m + 1, n, steps[m].r.offset))
  {
    var e, r := run[m].q.free[0], steps[m].r;
    ComesInLine(run, steps, m);
    RunMoves(run, steps, e, r);
    HeldUntilFreed(run, steps, e, r, m + 1, n, Depends(run[m].q, r.offset));
  }

  /** Over every run: no worker takes a request before one it depended on has been completed or cancelled. */
  lemma NotBeforeItsBlocker(run: seq<Sys>, steps: seq<Step>, m: nat, n: nat)
    requires Run(run, steps) && m < n < |steps| && steps[m].Request? && run[m].q.free != []
    requires forall i :: m < i <= n ==> run[m].q.free[0] in run[i].q.pend
    requires Depends(run[m].q, steps[m].r.offset)
    requires steps[n].Work? && run[n + 1].w[steps[n].k] == Processing(run[m].q.free[0])
    ensures exists i :: m < i < n && Frees(run[i], steps[i], steps[m].r.offset)
  {
    HeldBackExactly(run, steps, m, n);
  }

  /** Worker k takes the request at position p, the first in line that is not held back. */
  ghost predicate TakesFirst(s: Sys, s': Sys, k: nat, p: nat) {
    && k < |s'.w| && p < |s.q.pend| && Indices(s.q) && Indices(s'.q) && s.q.elems[s.q.pend[p]].status.Pend?
    && (forall i :: 0 <= i < p ==> s.q.elems[s.q.pend[i]].status.Block?)
    && s'.w[k] == Processing(s.q.pend[p]) && s'.q.busy == s.q.busy + [s.q.pend[p]]
    && s'.q.elems[s.q.pend[p]] == s.q.elems[s.q.pend[p]].(status := Busy, tid := k)
  }

  /** All requests in line are held back. */
  ghost predicate AllHeld(q: Queues) { Indices(q) && forall i :: 0 <= i < |q.pend| ==> q.elems[q.pend[i]].status.Block? }

  lemma WorkOutcome(s: Sys, k: nat) returns (p: nat)
    requires Base(s) && Enabled(s, Work(k))
    ensures var s' := Apply(s, Work(k));
            if AllHeld(s.q) then s'.q == s.q && s'.w == s.w[k := if s.closing then Exited else Asleep]
            else TakesFirst(s, s', k, p) && s'.w == s.w[k := Processing(s.q.pend[p])]
  {
    p := FirstPend(s.q.pend, s.q.elems);
    forall i | 0 <= i < |s.q.pend| ensures s.q.elems[s.q.pend[i]].status.Block? || s.q.elems[s.q.pend[i]].status.Pend? {
      assert s.q.pend[i] in s.q.pend;
    }
    if p < |s.q.pend| { DequeueSorted(s.q, k, p); }
  }

  /** Over every run: an awake worker takes the first request in line that is not held back; it
      sleeps, or exits once closing is set, exactly when there is none. */
  lemma WorkDecides(run: seq<Sys>, steps: seq<Step>, n: nat, k: nat) returns (p: nat)
    requires Run(run, steps) && n < |steps| && steps[n] == Work(k)
    ensures if AllHeld(run[n].q) then run[n + 1].q == run[n].q && run[n + 1].w == run[n].w[k := if run[n].closing then Exited else Asleep]
            else TakesFirst(run[n], run[n + 1], k, p) && run[n + 1].w == run[n].w[k := Processing(run[n].q.pend[p])]
  {
    RunStep(run, steps, n);
    p := WorkOutcome(run[n], k);
  }

  /** Close drains: when all workers have exited, nothing is in flight, and nothing is pending
      unless a request has come after that. */
  lemma CloseDrains(run: seq<Sys>, steps: seq<Step>, n: nat)
    requires Run(run, steps) && n < |run| && AllExited(run[n])
    ensures run[n].q.busy == [] && (run[n].q.pend == [] || Late(run, steps, n))
  {
    RunInv(run, steps, n);
    if run[n].q.busy != [] { BusyIsLive(run[n]); }
  }

  /** In particular when no request is submitted once closing is set. */
  lemma ClosedInTime(run: seq<Sys>, steps: seq<Step>, n: nat)
    requires Run(run, steps) && n < |run|
    requires forall i :: 0 <= i < n && steps[i].Request? ==> !run[i].closing
    ensures !Late(run, steps, n)
  {
    forall i | 0 <= i < n ensures !TooLate(run[i], steps[i]) {
      RunInv(run, steps, i);
      assert AllExited(run[i]) ==> run[i].w[0].Exited?;
    }
  }

  lemma NobodySleeps(s: Sys, step: Step)
    requires Base(s) && Enabled(s, step) && s.closing && (step.Broadcast? || !Sleeps(s))
    ensures Apply(s, step).closing && !Sleeps(Apply(s, step))
  {
    var s' := Apply(s, step);
    forall k | 0 <= k < |s'.w| ensures !s'.w[k].Asleep? {
      if !step.Broadcast? { assert !s.w[k].Asleep?; }
    }
  }

  /** After the broadcast of blockif_close no worker sleeps again: each still has a step to make or
      has exited (and WorkerProgress bounds the steps). */
  lemma {:induction false} CloseWakesAll(run: seq<Sys>, steps: seq<Step>, m: nat, n: nat)
    requires Run(run, steps) && m < n < |run| && steps[m].Broadcast?
    ensures run[n].closing && !Sleeps(run[n])
  {
    RunInv(run, steps, n - 1);
    if n > m + 1 { CloseWakesAll(run, steps, m, n - 1); }
    NobodySleeps(run[n - 1], steps[n - 1]);
  }

  /** A request after the workers have exited stays in the queue, and no step of a worker can follow. */
  lemma RequestAfterExit(s: Sys, r: Req, k: nat)
    requires Base(s) && AllExited(s) && s.q.free != [] && Enabled(s, Request(r, k))
    ensures var s' := Apply(s, Request(r, k));
            s'.q.pend != [] && Indices(s'.q) && forall j :: !Enabled(s', Work(j)) && !Enabled(s', Finish(j)) && !Enabled(s', Complete(j))
  {
    EnqueueBlockers(s.q, r);
    ExitedDoNothing(Apply(s, Request(r, k)));
  }

  lemma ExitedDoNothing(s: Sys)
    requires Indices(s.q) && AllExited(s)
    ensures forall j :: !Enabled(s, Work(j)) && !Enabled(s, Finish(j)) && !Enabled(s, Complete(j))
  {
  }

  /** The queues of a new device. */
  ghost function NewQueues(): Queues {
    Queues(seq(MAXREQ, i => if i < MAXREQ then MAXREQ - 1 - i else 0), [], [], seq(MAXREQ, _ => Elem(Free, 0, Read, 0, 0, 0)))
  }

  lemma NewQueuesOk()
    ensures QueuesOk(NewQueues())
  {
    var q := NewQueues();
    forall e | 0 <= e < MAXREQ ensures e in q.free { assert q.free[MAXREQ - 1 - e] == e; }
  }

  /** The first k workers have left, the others are awake, and nothing is queued. */
  ghost predicate Leaving(s: Sys, k: nat) {
    && s.q == NewQueues() && s.closing && |s.w| == NUMTHR
    && forall j :: 0 <= j < NUMTHR ==> s.w[j] == if j < k then Exited else Awake
  }

  lemma RunGrows(run: seq<Sys>, steps: seq<Step>, step: Step)
    requires Run(run, steps) && Indices(run[|steps|].q) && Enabled(run[|steps|], step)
    ensures Run(run + [Apply(run[|steps|], step)], steps + [step])
  {
    var run', steps' := run + [Apply(run[|steps|], step)], steps + [step];
    forall i | 0 <= i < |steps'|
      ensures Indices(run'[i].q) && Enabled(run'[i], steps'[i]) && run'[i + 1] == Apply(run'[i], steps'[i])
    {
      if i < |steps| { assert run'[i + 1] == run[i + 1] && run'[i] == run[i] && steps'[i] == steps[i]; }
    }
  }

  /** Such a request is possible: close the device, let all workers leave, and submit one. */
  lemma StallsWhenLate(r: Req) returns (run: seq<Sys>, steps: seq<Step>)
    ensures Run(run, steps) && |steps| == NUMTHR + 2 && steps[NUMTHR + 1] == Request(r, 0)
    ensures AllExited(run[NUMTHR + 2]) && run[NUMTHR + 2].q.pend != []
  {
    NewQueuesOk();
    var s := Sys(NewQueues(), seq(NUMTHR, _ => Awake), false);
    run, steps := [s], [];
    RunGrows(run, steps, Close);
    run, steps := run + [Apply(s, Close)], steps + [Close];
    var k := 0;
    while k < NUMTHR
      invariant k <= NUMTHR && |steps| == k + 1 && Run(run, steps) && Leaving(run[k + 1], k)
    {
      RunGrows(run, steps, Work(k));
      run, steps := run + [Apply(run[k + 1], Work(k))], steps + [Work(k)];
      k := k + 1;
    }
    RunGrows(run, steps, Request(r, 0));
    RequestAfterExit(run[NUMTHR + 1], r, 0);
    run, steps := run + [Apply(run[NUMTHR + 1], Request(r, 0))], steps + [Request(r, 0)];
  }

  // ----- progress -----

  function Weight(q: Queues, w: Worker): nat {
    match w
    case Processing(e) => if e < |q.elems| && q.elems[e].status.Busy? then 4 else 3
    case Awake => 1
    case _ => 0
  }

  function Weights(q: Queues, w: seq<Worker>): nat {
    if w == [] then 0 else Weights(q, w[..|w| - 1]) + Weight(q, w[|w| - 1])
  }

  /** What is left to do. */
  function WorkLeft(s: Sys): nat { 5 * |s.q.pend| + Weights(s.q, s.w) }

  lemma {:induction false} WeightsUpdate(q: Queues, q': Queues, w: seq<Worker>, k: nat, x: Worker)
    requires k < |w| && forall j :: 0 <= j < |w| && j != k ==> Weight(q', w[j]) == Weight(q, w[j])
    ensures Weights(q', w[k := x]) == Weights(q, w) - Weight(q, w[k]) + Weight(q', x)
  {
    var v, u := w[..|w| - 1], w[k := x][..|w| - 1];
    if k == |w| - 1 {
      assert u == v;
      WeightsSame(q, q', v);
    } else {
      assert u == v[k := x];
      WeightsUpdate(q, q', v, k, x);
    }
  }

  lemma {:induction false} WeightsSame(q: Queues, q': Queues, w: seq<Worker>)
    requires forall j :: 0 <= j < |w| ==> Weight(q', w[j]) == Weight(q, w[j])
    ensures Weights(q', w) == Weights(q, w)
  {
    if w != [] { WeightsSame(q, q', w[..|w| - 1]); }
  }

  /** Other workers' elements are not touched. */
  lemma OthersKeep(s: Sys, k: nat, j: nat)
    requires Inv(s) && k < |s.w| && j < |s.w| && j != k && s.w[j].Processing?
    ensures s.w[k].Processing? ==> s.w[k].e != s.w[j].e
    ensures s.w[j].e in s.q.busy && s.w[j].e !in s.q.pend
  {
  }

  lemma WorkLess(s: Sys, k: nat)
    requires Inv(s) && Enabled(s, Work(k))
    ensures WorkLeft(Apply(s, Work(k))) < WorkLeft(s)
  {
    var s' := Apply(s, Work(k));
    forall j | 0 <= j < |s.w| && j != k
      ensures Weight(s'.q, s.w[j]) == Weight(s.q, s.w[j])
    {
      if s.w[j].Processing? { OthersKeep(s, k, j); }
    }
    WeightsUpdate(s.q, s'.q, s.w, k, s'.w[k]);
  }

  lemma FinishLess(s: Sys, k: nat)
    requires Inv(s) && Enabled(s, Finish(k))
    ensures WorkLeft(Apply(s, Finish(k))) < WorkLeft(s)
  {
    var s' := Apply(s, Finish(k));
    forall j | 0 <= j < |s.w| && j != k
      ensures Weight(s'.q, s.w[j]) == Weight(s.q, s.w[j])
    {
      if s.w[j].Processing? { OthersKeep(s, k, j); }
    }
    assert s.w[k := s.w[k]] == s.w;
    WeightsUpdate(s.q, s'.q, s.w, k, s.w[k]);
  }

  lemma CompleteOthers(s: Sys, k: nat, j: nat)
    requires Inv(s) && Enabled(s, Complete(k)) && j < |s.w| && j != k
    ensures Weight(Completed(s.q, s.w[k].e), s.w[j]) == Weight(s.q, s.w[j])
  {
    if s.w[j].Processing? {
      OthersKeep(s, k, j);
      CompleteMembers(s.q, s.w[k].e, s.w[j].e);
    }
  }

  lemma CompleteWeights(s: Sys, k: nat, q': Queues)
    requires Inv(s) && Enabled(s, Complete(k)) && q' == Completed(s.q, s.w[k].e)
    ensures Weights(q', s.w[k := Awake]) < Weights(s.q, s.w)
  {
    forall j | 0 <= j < |s.w| && j != k ensures Weight(q', s.w[j]) == Weight(s.q, s.w[j]) { CompleteOthers(s, k, j); }
    WeightsUpdate(s.q, q', s.w, k, Awake);
  }

  lemma CompleteLine(s: Sys, k: nat)
    requires Inv(s) && Enabled(s, Complete(k))
    ensures Completed(s.q, s.w[k].e).pend == s.q.pend
  {
  }

  lemma CompleteLess(s: Sys, k: nat)
    requires Inv(s) && Enabled(s, Complete(k))
    ensures WorkLeft(Apply(s, Complete(k))) < WorkLeft(s)
  {
    CompleteWeights(s, k, Completed(s.q, s.w[k].e));
    CompleteLine(s, k);
  }

  /** Every step of a worker leaves less to do, so workers alone reach a state without a
      live worker, in which (Attended) every request has been completed. */
  lemma WorkerProgress(s: Sys, step: Step)
    requires Inv(s) && Enabled(s, step) && (step.Work? || step.Finish? || step.Complete?)
    ensures WorkLeft(Apply(s, step)) < WorkLeft(s)
  {
    match step
    case Work(k) => WorkLess(s, k);
    case Finish(k) => FinishLess(s, k);
    case Complete(k) => CompleteLess(s, k);
    case _ =>
  }

  /** Work remains to be stepped exactly while some worker is live. */
  lemma LiveCanStep(s: Sys)
    requires Inv(s)
    ensures Live(s) <==> exists k :: Enabled(s, Work(k)) || Enabled(s, Finish(k)) || Enabled(s, Complete(k))
  {
    if Live(s) {
      var k :| 0 <= k < |s.w| && (s.w[k].Awake? || s.w[k].Processing?);
      if s.w[k].Awake? {
        assert Enabled(s, Work(k));
      } else {
        assert s.w[k].e in s.q.busy;
        assert Enabled(s, Finish(k)) || Enabled(s, Complete(k));
      }
    }
  }
}
