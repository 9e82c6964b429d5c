/** Delivery of virtual interrupts to one vCPU (virq.c, vcpu.c): the pending and active lists,
    senders that queue and then kick, and the vCPU's check-lock-check before it suspends. */
module Virq {
  import opened Sealing
  import opened Wrappers

  const BAD_IRQ: nat := 1023
  const SGI_NR := 16
  const TWO32 := 0x1_0000_0000
  const EINVAL := -22
  const EAGAIN := -11

  /** vm->state, as far as send_virq looks at it */
  datatype VmState = Online | Offline | Suspend | Reboot

  datatype DescState = Inactive | Pending | Active

  /** list.next of a descriptor: NULL, a list member, or the value that list_del leaves. */
  datatype Link = Null | Member | Poison

  datatype Lists = Lists(pending: seq<nat>, active: seq<nat>, flag: seq<bool>, state: seq<DescState>, next: seq<Link>)

  ghost predicate Sized(q: Lists) {
    && |q.flag| == |q.state| == |q.next|
    && (forall v :: v in q.pending ==> v < |q.flag|)
    && (forall v :: v in q.active ==> v < |q.flag|)
  }

  /** Every descriptor is on at most one list, and its flag, state and link say which. */
  ghost predicate Inv(q: Lists) {
    && Sized(q) && NoDup(q.pending) && NoDup(q.active)
    && (forall v :: 0 <= v < |q.flag| ==>
          && !(v in q.pending && v in q.active)
          && q.next[v] == (if v in q.pending || v in q.active then Member else Null)
          && (v in q.pending ==> q.flag[v])
          && (q.flag[v] ==> v in q.pending || v in q.active)
          && (q.state[v].Active? <==> v in q.active))
  }

  // ----- __send_virq, get_pending_virq, clear_pending_virq -----

  function Sent(q: Lists, v: nat): Lists
    requires v < |q.flag| && |q.next| == |q.flag|
  {
    if q.flag[v] then q
    else if q.next[v].Null? then
      q.(flag := q.flag[v := true], pending := q.pending + [v], next := q.next[v := Member])
    else q.(flag := q.flag[v := true])
  }

  function Took(q: Lists): (r: Lists)
    requires q.pending != [] && Sized(q)
    ensures q.pending[0] < |q.flag| == |r.flag|
  {
    var v := q.pending[0];
    assert v in q.pending;
    Lists(q.pending[1..], q.active + [v], q.flag[v := false], q.state[v := Active], q.next[v := Member])
  }

  function Cleared(q: Lists, v: nat): Lists
    requires Sized(q)
  {
    if v >= |q.flag| || !q.state[v].Active? then q
    else
      var p := if q.next[v].Null? then q.pending else Without(q.pending, v);
      var a := if q.next[v].Null? then q.active else Without(q.active, v);
      if q.flag[v] then Lists(p + [v], a, q.flag, q.state[v := Pending], q.next[v := Member])
      else Lists(p, a, q.flag, q.state[v := Inactive], q.next[v := Null])
  }

  lemma SentInv(q: Lists, v: nat)
    requires Inv(q) && v < |q.flag|
    ensures Inv(Sent(q, v)) && Sent(q, v).flag == q.flag[v := true]
  {
  }

  lemma TookInv(q: Lists)
    requires Inv(q) && q.pending != []
    ensures Inv(Took(q))
  {
    TakenOut(q.pending, 0, q.pending[1..]);
    MovedInv(q, q.pending[0], q.pending[1..]);
  }

  lemma MovedInv(q: Lists, v: nat, p: seq<nat>)
    requires Inv(q) && v in q.pending && NoDup(p) && forall x :: x in p <==> x in q.pending && x != v
    ensures Inv(Lists(p, q.active + [v], q.flag[v := false], q.state[v := Active], q.next[v := Member]))
  {
  }

  lemma RequeuedInv(q: Lists, v: nat, a: seq<nat>)
    requires Inv(q) && v in q.active && q.flag[v] && NoDup(a) && forall x :: x in a <==> x in q.active && x != v
    ensures Inv(Lists(q.pending + [v], a, q.flag, q.state[v := Pending], q.next[v := Member]))
  {
  }

  lemma EndedInv(q: Lists, v: nat, a: seq<nat>)
    requires Inv(q) && v in q.active && !q.flag[v] && NoDup(a) && forall x :: x in a <==> x in q.active && x != v
    ensures Inv(Lists(q.pending, a, q.flag, q.state[v := Inactive], q.next[v := Null]))
  {
  }

  /** Ending an active virq re-queues it, at the tail, exactly when it was sent again meanwhile. */
  lemma ClearedInv(q: Lists, v: nat)
    requires Inv(q)
    ensures Inv(Cleared(q, v)) && Cleared(q, v).flag == q.flag
    ensures v in q.active ==> v !in Cleared(q, v).active
    ensures v in q.active ==> Cleared(q, v).pending == q.pending + if q.flag[v] then [v] else []
    ensures v !in q.active ==> Cleared(q, v) == q
  {
    if v < |q.flag| && q.state[v].Active? {
      var a := Without(q.active, v);
      WithoutKeeps(q.active, v);
      if q.flag[v] { RequeuedInv(q, v, a); } else { EndedInv(q, v, a); }
    }
  }

  /** struct virq_struct with its descriptors; every method runs under its lock. */
  class VirqStruct {
    var pending: seq<nat>
    var active: seq<nat>
    var flag: seq<bool>
    var state: seq<DescState>
    var next: seq<Link>
    var src: seq<nat>        // the sender of each software-generated interrupt
    var activeCount: nat     // a 32-bit counter

    function View(): Lists
      reads this
    {
      Lists(pending, active, flag, state, next)
    }

    ghost predicate Valid()
      reads this
    {
      Inv(View()) && |src| == |flag|
    }

    constructor (n: nat)
      ensures Valid() && View().flag == seq(n, i => false) && View().pending == [] && View().active == []
    {
      pending, active := [], [];
      flag, state, next := seq(n, i => false), seq(n, i => Inactive), seq(n, i => Null);
      src, activeCount := seq(n, i => 0), 0;
    }

    /** __send_virq by the vCPU `sender` */
    method Send(v: nat, sender: nat)
      requires Valid() && v < |flag|
      modifies this
      ensures View() == Sent(old(View()), v) && Valid()
      ensures flag == old(flag)[v := true] && active == old(active) && state == old(state)
      ensures pending == old(pending) + if old(flag[v]) || v in old(active) then [] else [v]
      ensures src == if !old(flag[v]) && v < SGI_NR then old(src)[v := sender] else old(src)
      ensures activeCount == if |pending| > |old(pending)| then (old(activeCount) + 1) % TWO32 else old(activeCount)
    {
      SentInv(View(), v);
      if flag[v] { return; }
      flag := flag[v := true];
      if next[v].Null? {
        pending := pending + [v];
        next := next[v := Member];
        activeCount := (activeCount + 1) % TWO32;
      }
      if v < SGI_NR { src := src[v := sender]; }
    }

    /** send_virq up to the kick, which the caller makes next when the result is 0. */
    method SendVirq(vm: VmState, canWakeup: bool, v: nat, sender: nat) returns (err: int)
      requires Valid() && v < |flag|
      modifies this
      ensures Valid()
      ensures err == if vm.Offline? || vm.Reboot? then EINVAL else if vm.Suspend? && !canWakeup then EAGAIN else 0
      ensures View() == if err == 0 then Sent(old(View()), v) else old(View())
    {
      if vm.Offline? || vm.Reboot? { return EINVAL; }
      if vm.Suspend? && !canWakeup { return EAGAIN; }
      Send(v, sender);
      err := 0;
    }

    /** get_pending_virq */
    method GetPending() returns (virq: nat)
      requires Valid()
      modifies this
      ensures Valid()
      ensures old(pending) == [] ==> virq == BAD_IRQ && View() == old(View())
      ensures old(pending) != [] ==> virq == old(pending)[0] && View() == Took(old(View()))
      ensures old(pending) != [] ==>
        && pending == old(pending)[1..] && active == old(active) + [virq]
        && virq < |flag| == |state| == |old(state)| && flag == old(flag)[virq := false] && state == old(state)[virq := Active]
    {
      if pending == [] { return BAD_IRQ; }
      TookInv(View());
      var v := pending[0];
      assert v in pending;
      pending := pending[1..];
      next := next[v := Poison];
      active := active + [v];
      next := next[v := Member];
      state := state[v := Active];
      flag := flag[v := false];
      virq := v;
    }

    /** clear_pending_virq */
    method ClearPending(v: nat)
      requires Valid()
      modifies this
      ensures View() == Cleared(old(View()), v) && Valid()
      ensures active == Without(old(active), v) && flag == old(flag) && v !in active
      ensures pending == old(pending) + if v in old(active) && old(flag[v]) then [v] else []
    {
      ClearedInv(View(), v);
      if v >= |flag| || !state[v].Active? { return; }
      if !next[v].Null? {
        pending, active := Without(pending, v), Without(active, v);
        next := next[v := Null];
      }
      if flag[v] {
        pending := pending + [v];
        next := next[v := Member];
        state := state[v := Pending];
      } else {
        state := state[v := Inactive];
      }
    }

    /** vcpu_has_irq */
    method HasIrq() returns (r: bool)
      requires Valid()
      ensures r <==> exists v :: 0 <= v < |flag| && (flag[v] || state[v].Active?)
    {
      r := !(pending == [] && active == []);
      if pending != [] { assert pending[0] in pending; assert flag[pending[0]]; }
      if active != [] { assert active[0] in active; assert state[active[0]].Active?; }
    }
  }

  // ----- one vCPU and its senders -----

  /** task->stat, as far as a vCPU uses it */
  datatype Stat = Running | Ready | Suspended

  /** Where the vCPU is: in the guest (or a trap other than idle); in vcpu_idle after the first
      check saw the pending list empty, after that check passed, holding the task lock, holding it
      with the pending list seen empty, with the second check passed; in sched() after suspending. */
  datatype At = Guest | SawNoPending | WantsLock | Locked | LockedSawNoPending | LockedIdle | InSched

  /** A sender between the queueing and the kick of send_virq is `queued`. */
  datatype State = State(q: Lists, stat: Stat, at: At, queued: seq<bool>)

  datatype Step =
    | Send(s: nat, v: nat) | Kick(s: nat)
    | Take | Clear(v: nat)
    | ReadPending | ReadActive | Lock | ReadPendingAgain | ReadActiveAgain | Suspend
    | Resume | Preempt | Dispatch

  predicate HoldsLock(at: At) { at.Locked? || at.LockedSawNoPending? || at.LockedIdle? }

  /** Steps of the vCPU need it on a CPU; kick_vcpu waits for the task lock; the holder of the
      task lock has interrupts off and is not preempted. */
  ghost predicate Enabled(st: State, step: Step) {
    match step
    case Send(s, v) => s < |st.queued| && !st.queued[s] && v < |st.q.flag|
    case Kick(s) => s < |st.queued| && st.queued[s] && !HoldsLock(st.at)
    case Take => st.stat.Running? && st.at.Guest?
    case Clear(v) => st.stat.Running? && st.at.Guest?
    case ReadPending => st.stat.Running? && st.at.Guest?
    case ReadActive => st.stat.Running? && st.at.SawNoPending?
    case Lock => st.stat.Running? && st.at.WantsLock?
    case ReadPendingAgain => st.at.Locked?
    case ReadActiveAgain => st.at.LockedSawNoPending?
    case Suspend => st.at.LockedIdle?
    case Resume => st.stat.Running? && st.at.InSched?
    case Preempt => st.stat.Running? && !HoldsLock(st.at)
    case Dispatch => st.stat.Ready?
  }

  ghost function Apply(st: State, step: Step): State
    requires Inv(st.q) && Enabled(st, step)
  {
    match step
    case Send(s, v) => st.(q := Sent(st.q, v), queued := st.queued[s := true])
    case Kick(s) => st.(queued := st.queued[s := false], stat := if st.stat.Suspended? then Ready else st.stat)
    case Take => if st.q.pending == [] then st else st.(q := Took(st.q))
    case Clear(v) => st.(q := Cleared(st.q, v))
    case ReadPending => st.(at := if st.q.pending == [] then SawNoPending else Guest)
    case ReadActive => st.(at := if st.q.active == [] then WantsLock else Guest)
    case Lock => st.(at := Locked)
    case ReadPendingAgain => st.(at := if st.q.pending == [] then LockedSawNoPending else Guest)
    case ReadActiveAgain => st.(at := if st.q.active == [] && st.stat.Running? then LockedIdle else Guest)
    case Suspend => st.(stat := Suspended, at := InSched)
    case Resume => st.(at := Guest)
    case Preempt => st.(stat := Ready)
    case Dispatch => st.(stat := Running)
  }

  /** From the second look at the pending list until the wake-up, whatever is on the pending list
      was put there by a sender that has yet to kick. */
  ghost predicate StateInv(st: State) {
    && Inv(st.q)
    && (HoldsLock(st.at) ==> st.stat.Running?)
    && (st.stat.Suspended? ==> st.at.InSched?)
    && (st.at.LockedIdle? || st.stat.Suspended? ==> st.q.active == [])
    && (st.at.LockedSawNoPending? || st.at.LockedIdle? || st.stat.Suspended? ==>
          st.q.pending == [] || exists s :: 0 <= s < |st.queued| && st.queued[s])
  }

  lemma StepInv(st: State, step: Step)
    requires StateInv(st) && Enabled(st, step)
    ensures StateInv(Apply(st, step)) && |Apply(st, step).q.flag| == |st.q.flag|
  {
    match step
    case Send(s, v) =>
      SentInv(st.q, v);
      assert Apply(st, step).queued[s];
    case Take => if st.q.pending != [] { TookInv(st.q); }
    case Clear(v) => ClearedInv(st.q, v);
    case _ =>
  }

  /** What a step does to one flag, and to the pending list. */
  lemma StepFlag(st: State, step: Step, v: nat)
    requires Inv(st.q) && Enabled(st, step) && v < |st.q.flag|
    ensures |Apply(st, step).q.flag| == |st.q.flag|
    ensures Apply(st, step).q.flag[v] <==>
      (step.Send? && step.v == v) || (st.q.flag[v] && !(step.Take? && st.q.pending != [] && st.q.pending[0] == v))
  {
    match step
    case Send(s, w) => SentInv(st.q, w);
    case Clear(w) => ClearedInv(st.q, w);
    case _ =>
  }

  lemma StepPending(st: State, step: Step)
    requires Inv(st.q) && Enabled(st, step)
    ensures step.Take? && st.q.pending != [] ==> Apply(st, step).q.pending == st.q.pending[1..]
    ensures !(step.Take? && st.q.pending != []) ==> st.q.pending <= Apply(st, step).q.pending
  {
    match step
    case Clear(w) => ClearedInv(st.q, w);
    case _ =>
  }

  // ----- runs -----

  ghost predicate Start(st: State) {
    && Inv(st.q) && st.q.pending == [] && st.q.active == [] && st.stat.Ready? && st.at.Guest?
    && forall s :: 0 <= s < |st.queued| ==> !st.queued[s]
  }

  ghost predicate Run(run: seq<State>, steps: seq<Step>) {
    && |run| == |steps| + 1 && Start(run[0])
    && forall i :: 0 <= i < |steps| ==>
         Inv(run[i].q) && Enabled(run[i], steps[i]) && run[i + 1] == Apply(run[i], steps[i])
  }

  lemma {:induction false} RunInv(run: seq<State>, steps: seq<Step>, n: nat)
    requires Run(run, steps) && n < |run|
    ensures StateInv(run[n]) && |run[n].q.flag| == |run[0].q.flag|
  {
    if n > 0 {
      RunInv(run, steps, n - 1);
      StepInv(run[n - 1], steps[n - 1]);
    }
  }

  /** The n-th step takes v (get_pending_virq returns it). */
  ghost predicate Takes(run: seq<State>, steps: seq<Step>, n: nat, v: nat)
    requires n < |steps| && n < |run|
  {
    steps[n].Take? && run[n].q.pending != [] && run[n].q.pending[0] == v
  }

  /** v was sent, and has not been taken since. */
  ghost predicate SentSinceTaken(run: seq<State>, steps: seq<Step>, n: nat, v: nat)
    requires n <= |steps| && |run| == |steps| + 1
  {
    n > 0 && ((steps[n - 1].Send? && steps[n - 1].v == v) ||
              (!Takes(run, steps, n - 1, v) && SentSinceTaken(run, steps, n - 1, v)))
  }

  /** In every run, the pending flag is exactly "sent since last taken". */
  lemma {:induction false} FlagIsSent(run: seq<State>, steps: seq<Step>, n: nat, v: nat)
    requires Run(run, steps) && n < |run| && v < |run[0].q.flag|
    ensures |run[n].q.flag| == |run[0].q.flag| && (run[n].q.flag[v] <==> SentSinceTaken(run, steps, n, v))
  {
    RunInv(run, steps, n);
    if n > 0 {
      FlagIsSent(run, steps, n - 1, v);
      StepFlag(run[n - 1], steps[n - 1], v);
    }
  }

  /** No virq is lost: one sent since it was last taken is on exactly one list; if that is the
      active list, ending it puts it back at the tail of the pending list. */
  lemma NoLostVirq(run: seq<State>, steps: seq<Step>, n: nat, v: nat)
    requires Run(run, steps) && n < |run| && v < |run[0].q.flag| && SentSinceTaken(run, steps, n, v)
    ensures v in run[n].q.pending <==> v !in run[n].q.active
    ensures v in run[n].q.active ==> Inv(run[n].q) && Cleared(run[n].q, v).pending == run[n].q.pending + [v]
  {
    RunInv(run, steps, n);
    FlagIsSent(run, steps, n, v);
    ClearedInv(run[n].q, v);
  }

  /** No wake-up is lost: while the vCPU is suspended and some virq was sent since it was last
      taken, a sender has queued but not yet kicked, and its kick can run and makes the vCPU ready. */
  lemma NoLostWakeup(run: seq<State>, steps: seq<Step>, n: nat, v: nat) returns (s: nat)
    requires Run(run, steps) && n < |run| && v < |run[0].q.flag|
    requires run[n].stat.Suspended? && SentSinceTaken(run, steps, n, v)
    ensures v in run[n].q.pending
    ensures Inv(run[n].q) && s < |run[n].queued| && run[n].queued[s] && Enabled(run[n], Kick(s))
    ensures Apply(run[n], Kick(s)).stat.Ready?
  {
    RunInv(run, steps, n);
    NoLostVirq(run, steps, n, v);
    s :| 0 <= s < |run[n].queued| && run[n].queued[s];
  }

  /** The steps can be made one after the other, and end there. */
  ghost predicate Goes(st: State, steps: seq<Step>, end: State)
    decreases |steps|
  {
    if steps == [] then end == st else Inv(st.q) && Enabled(st, steps[0]) && Goes(Apply(st, steps[0]), steps[1..], end)
  }

  lemma GoesOn(st: State, step: Step, st1: State, rest: seq<Step>, end: State)
    requires Inv(st.q) && Enabled(st, step) && st1 == Apply(st, step) && Goes(st1, rest, end)
    ensures Goes(st, [step] + rest, end)
  {
    assert ([step] + rest)[1..] == rest;
  }

  /** ... and then the vCPU is dispatched, goes on and takes the first pending virq. */
  lemma WakeDelivers(run: seq<State>, steps: seq<Step>, n: nat, v: nat) returns (s: nat, end: State)
    requires Run(run, steps) && n < |run| && v < |run[0].q.flag|
    requires run[n].stat.Suspended? && SentSinceTaken(run, steps, n, v)
    ensures Goes(run[n], [Kick(s), Dispatch, Resume, Take], end) && end.stat.Running? && end.at.Guest?
    ensures run[n].q.pending != [] && end.q.pending == run[n].q.pending[1..] && end.q.active == run[n].q.active + [run[n].q.pending[0]]
  {
    s := NoLostWakeup(run, steps, n, v);
    RunInv(run, steps, n);
    var s1 := Apply(run[n], Kick(s));
    var s2 := Apply(s1, Dispatch);
    var s3 := Apply(s2, Resume);
    end := Apply(s3, Take);
    GoesOn(s3, Take, end, [], end);
    GoesOn(s2, Resume, s3, [Take], end);
    GoesOn(s1, Dispatch, s2, [Resume, Take], end);
    GoesOn(run[n], Kick(s), s1, [Dispatch, Resume, Take], end);
  }

  /** vcpu_idle on its own: the steps up to where a look finds something, or all of them. */
  ghost function IdleSteps(q: Lists): seq<Step> {
    if q.pending != [] then [ReadPending]
    else if q.active != [] then [ReadPending, ReadActive]
    else [ReadPending, ReadActive, Lock, ReadPendingAgain, ReadActiveAgain, Step.Suspend]
  }

  /** A vCPU that idles undisturbed is suspended exactly when nothing is pending or active; otherwise it
      is back in the guest. */
  lemma IdleSuspends(st: State) returns (end: State)
    requires StateInv(st) && st.stat.Running? && st.at.Guest?
    ensures Goes(st, IdleSteps(st.q), end) && end.q == st.q && end.queued == st.queued
    ensures end.stat.Suspended? <==> st.q.pending == [] && st.q.active == []
    ensures end.at == if end.stat.Suspended? then InSched else Guest
    ensures !end.stat.Suspended? ==> end.stat.Running?
  {
    var s1 := Apply(st, ReadPending);
    if st.q.pending != [] {
      end := s1;
      GoesOn(st, ReadPending, s1, [], end);
    } else {
      var s2 := Apply(s1, ReadActive);
      if st.q.active != [] {
        end := s2;
        GoesOn(s1, ReadActive, s2, [], end);
        GoesOn(st, ReadPending, s1, [ReadActive], end);
      } else {
        end := IdleLocked(s2);
        GoesOn(s1, ReadActive, s2, [Lock, ReadPendingAgain, ReadActiveAgain, Step.Suspend], end);
        GoesOn(st, ReadPending, s1, [ReadActive, Lock, ReadPendingAgain, ReadActiveAgain, Step.Suspend], end);
      }
    }
  }

  lemma IdleLocked(s2: State) returns (end: State)
    requires StateInv(s2) && s2.stat.Running? && s2.at.WantsLock? && s2.q.pending == [] && s2.q.active == []
    ensures Goes(s2, [Lock, ReadPendingAgain, ReadActiveAgain, Step.Suspend], end)
    ensures end == s2.(stat := Suspended, at := InSched)
  {
    var s3 := Apply(s2, Lock);
    var s4 := Apply(s3, ReadPendingAgain);
    var s5 := Apply(s4, ReadActiveAgain);
    end := Apply(s5, Step.Suspend);
    GoesOn(s5, Step.Suspend, end, [], end);
    GoesOn(s4, ReadActiveAgain, s5, [Step.Suspend], end);
    GoesOn(s3, ReadPendingAgain, s4, [ReadActiveAgain, Step.Suspend], end);
    GoesOn(s2, Lock, s3, [ReadPendingAgain, ReadActiveAgain, Step.Suspend], end);
  }

  /** Number of get_pending_virq calls in steps from..upto-1 that returned something. */
  ghost function Takings(run: seq<State>, steps: seq<Step>, from: nat, upto: nat): nat
    requires from <= upto <= |steps| && |run| == |steps| + 1
    decreases upto
  {
    if from == upto then 0
    else Takings(run, steps, from, upto - 1) + if steps[upto - 1].Take? && run[upto - 1].q.pending != [] then 1 else 0
  }

  /** A step takes the first of the list, or adds at its end. */
  ghost predicate Shifts(q: seq<nat>, q': seq<nat>, take: bool) {
    if take && q != [] then q' == q[1..] else q <= q'
  }

  /** What a run does to the pending list. */
  ghost predicate AllShift(run: seq<State>, steps: seq<Step>) {
    |run| == |steps| + 1 && forall i :: 0 <= i < |steps| ==> Shifts(run[i].q.pending, run[i + 1].q.pending, steps[i].Take?)
  }

  lemma RunShifts(run: seq<State>, steps: seq<Step>)
    requires Run(run, steps)
    ensures AllShift(run, steps)
  {
    forall i | 0 <= i < |steps| ensures Shifts(run[i].q.pending, run[i + 1].q.pending, steps[i].Take?) {
      StepPending(run[i], steps[i]);
    }
  }

  /** v is at place i of the list. */
  ghost predicate AtPlace(q: seq<nat>, i: int, v: nat) { 0 <= i < |q| && q[i] == v }

  lemma Moves(q: seq<nat>, q': seq<nat>, take: bool, i: int, v: nat)
    requires AtPlace(q, i, v) && Shifts(q, q', take) && (take ==> i > 0)
    ensures AtPlace(q', if take then i - 1 else i, v)
  {
  }

  /** Delivery is in order: a virq with k others before it moves up by one with every taking, whatever
      else happens, and the (k+1)-st taking takes it. */
  lemma {:induction false} InOrder(run: seq<State>, steps: seq<Step>, from: nat, upto: nat, k: nat, v: nat)
    requires AllShift(run, steps) && from <= upto < |run|
    requires AtPlace(run[from].q.pending, k, v) && Takings(run, steps, from, upto) <= k
    ensures AtPlace(run[upto].q.pending, k - Takings(run, steps, from, upto), v)
    decreases upto
  {
    if from != upto {
      InOrder(run, steps, from, upto - 1, k, v);
      var p, take := run[upto - 1].q.pending, steps[upto - 1].Take?;
      Moves(p, run[upto].q.pending, take, k - Takings(run, steps, from, upto - 1), v);
    }
  }

  lemma TakenInTurn(run: seq<State>, steps: seq<Step>, from: nat, upto: nat, k: nat)
    requires Run(run, steps) && from <= upto < |steps| && k < |run[from].q.pending|
    requires Takings(run, steps, from, upto) == k && Takings(run, steps, from, upto + 1) == k + 1
    ensures Takes(run, steps, upto, run[from].q.pending[k])
  {
    RunShifts(run, steps);
    InOrder(run, steps, from, upto, k, run[from].q.pending[k]);
  }

  /** The n-th step sends v and finds it not pending; other sends merge with the pending one. */
  ghost predicate Accepts(run: seq<State>, steps: seq<Step>, n: nat, v: nat)
    requires n < |steps| && n < |run|
  {
    steps[n].Send? && steps[n].v == v && v < |run[n].q.flag| && !run[n].q.flag[v]
  }

  ghost function Accepted(run: seq<State>, steps: seq<Step>, n: nat, v: nat): nat
    requires n <= |steps| && |run| == |steps| + 1
  {
    if n == 0 then 0
    else Accepted(run, steps, n - 1, v) + if Accepts(run, steps, n - 1, v) then 1 else 0
  }

  ghost function Taken(run: seq<State>, steps: seq<Step>, n: nat, v: nat): nat
    requires n <= |steps| && |run| == |steps| + 1
  {
    if n == 0 then 0 else Taken(run, steps, n - 1, v) + if Takes(run, steps, n - 1, v) then 1 else 0
  }

  /** Conservation: every accepted send is taken exactly once, or is the one still pending. */
  lemma {:induction false} TakenOnce(run: seq<State>, steps: seq<Step>, n: nat, v: nat)
    requires Run(run, steps) && n < |run| && v < |run[0].q.flag|
    ensures |run[n].q.flag| == |run[0].q.flag|
    ensures Accepted(run, steps, n, v) == Taken(run, steps, n, v) + if run[n].q.flag[v] then 1 else 0
  {
    RunInv(run, steps, n);
    if n > 0 {
      TakenOnce(run, steps, n - 1, v);
      StepFlag(run[n - 1], steps[n - 1], v);
      var p := run[n - 1].q.pending;
      assert p != [] ==> p[0] in p;
    }
  }
}
