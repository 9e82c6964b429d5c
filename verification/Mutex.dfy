/** The kernel mutex (mutex.c) on priority events (event.c): hand-off to the highest-priority
    waiter, racing with time-outs that take only the waiter's own lock (task.c). */
module Mutex {
  import opened Wrappers
  import opened PrioBitmap

  const OS_MUTEX_AVAILABLE := 0xffff

  /** Task numbers below PRIOS are real-time tasks with that priority; others are per-CPU tasks. */
  predicate Realtime(t: nat) { t < PRIOS }

  /** task->prio: per-CPU tasks share the priority after the last real-time one. */
  function Prio(t: nat): nat { if Realtime(t) then t else PRIOS }

  // ----- the waiters of an event -----

  datatype Event = Event(wait: Bitmap, list: seq<nat>) {
    ghost predicate Valid() {
      && wait.Valid()
      && (forall i :: 0 <= i < |list| ==> !Realtime(list[i]))
      && NoDup(list)
    }

    ghost predicate Waits(t: nat)
      requires |wait.table| == 8
    {
      if Realtime(t) then wait.Contains(t) else t in list
    }

    /** event_task_wait */
    function Add(t: nat): Event
      requires |wait.table| == 8
    {
      if Realtime(t) then this.(wait := wait.Set(t)) else this.(list := list + [t])
    }

    /** The part of event_task_remove that takes the task off the event. */
    function Remove(t: nat): Event
      requires |wait.table| == 8
    {
      if Realtime(t) then this.(wait := wait.Clear(t)) else this.(list := Without(list, t))
    }

    /** event_get_waiter: the highest real-time waiter, else the first listed one. */
    function Waiter(): Option<nat>
      requires |wait.table| == 8
    {
      if !wait.Empty() then Some(wait.Lowest())
      else if list != [] then Some(list[0])
      else None
    }
  }

  lemma AddWaits(ev: Event, t: nat, x: nat)
    requires ev.Valid() && !ev.Waits(t)
    ensures ev.Add(t).Valid() && (ev.Add(t).Waits(x) <==> ev.Waits(x) || x == t)
  {
    if Realtime(t) {
      SetAdds(ev.wait, t);
      assert ev.wait.Set(t).Contains(x) <==> x in ev.wait.Set(t).Members();
      assert ev.wait.Contains(x) <==> x in ev.wait.Members();
    }
  }

  lemma RemoveWaits(ev: Event, t: nat, x: nat)
    requires ev.Valid()
    ensures ev.Remove(t).Valid() && (ev.Remove(t).Waits(x) <==> ev.Waits(x) && x != t)
  {
    if Realtime(t) {
      ClearRemoves(ev.wait, t);
      assert ev.wait.Clear(t).Contains(x) <==> x in ev.wait.Clear(t).Members();
      assert ev.wait.Contains(x) <==> x in ev.wait.Members();
    } else {
      WithoutKeeps(ev.list, t);
      forall i | 0 <= i < |Without(ev.list, t)| ensures !Realtime(Without(ev.list, t)[i]) {
        assert Without(ev.list, t)[i] in ev.list;
      }
    }
  }

  /** event_get_waiter finds someone exactly when someone waits, and the right one. */
  lemma WaiterIsFirst(ev: Event)
    requires ev.Valid()
    ensures ev.Waiter().None? <==> forall t :: !ev.Waits(t)
    ensures ev.Waiter().Some? ==>
      var w := ev.Waiter().value;
      && ev.Waits(w)
      && (forall t :: Realtime(t) && ev.Waits(t) ==> Realtime(w) && w <= t)
      && (!Realtime(w) ==> ev.list != [] && w == ev.list[0])
  {
    EmptyHasNoMembers(ev.wait);
    if !ev.wait.Empty() {
      LowestIsMinimum(ev.wait);
      var w := ev.wait.Lowest();
      assert Realtime(w) && ev.Waits(w);
      forall t: nat | Realtime(t) && ev.Waits(t) ensures w <= t { assert t in ev.wait.Members(); }
    } else {
      forall t | Realtime(t) ensures !ev.Waits(t) { assert t !in ev.wait.Members(); }
      if ev.list != [] { assert ev.Waits(ev.list[0]); }
    }
  }

  /** How many wait: each retry of event_highest_task_ready lowers it. */
  ghost function Count(ev: Event): nat
    requires |ev.wait.table| == 8
  {
    |ev.wait.Members()| + |ev.list|
  }

  lemma RemoveCounts(ev: Event, t: nat)
    requires ev.Valid() && ev.Waits(t)
    ensures ev.Remove(t).Valid() && Count(ev.Remove(t)) < Count(ev)
  {
    RemoveWaits(ev, t, t);
    if Realtime(t) {
      ClearRemoves(ev.wait, t);
      assert t in ev.wait.Members();
    } else {
      WithoutKeeps(ev.list, t);
    }
  }

  /** event_highest_task_ready while no time-out interferes: waiters that have timed out are taken
      off, and the first that is still pending is chosen; none is left only when all had timed out. */
  method HighestTaskReady(ev: Event, timedOut: set<nat>) returns (w: Option<nat>, ev': Event)
    requires ev.Valid()
    ensures ev'.Valid()
    ensures w.None? ==> forall t :: ev.Waits(t) ==> t in timedOut
    ensures w.Some? ==> ev.Waits(w.value) && w.value !in timedOut && !ev'.Waits(w.value)
    ensures w.Some? ==> forall t :: Realtime(t) && ev.Waits(t) && t !in timedOut ==> Realtime(w.value) && w.value <= t
    ensures w.Some? && !Realtime(w.value) ==>
      exists k :: 0 <= k < |ev.list| && ev.list[k] == w.value && forall i :: 0 <= i < k ==> ev.list[i] in timedOut
    ensures forall t :: ev.Waits(t) && t !in timedOut && w != Some(t) ==> ev'.Waits(t)
  {
    ev' := ev;
    ghost var k := 0;
    while true
      invariant ev'.Valid()
      invariant forall t :: ev'.Waits(t) ==> ev.Waits(t)
      invariant forall t :: ev.Waits(t) && t !in timedOut ==> ev'.Waits(t)
      invariant k <= |ev.list| && ev'.list == ev.list[k..] && forall i :: 0 <= i < k ==> ev.list[i] in timedOut
      decreases Count(ev')
    {
      WaiterIsFirst(ev');
      w := ev'.Waiter();
      if w.None? { return; }
      RemoveCounts(ev', w.value);
      ghost var before := ev';
      ev' := ev'.Remove(w.value);
      forall t: nat ensures ev'.Waits(t) <==> before.Waits(t) && t != w.value { RemoveWaits(before, w.value, t); }
      if w.value !in timedOut { return; }
      if !Realtime(w.value) { k := k + 1; }
    }
  }

  // ----- the mutex as a protocol -----

  /** Where a task stands.  Between Posting and the end of the hand-off it holds the mutex's spin lock. */
  datatype Place =
    | Outside            // not in a mutex call
    | Pending            // asleep in mutex_pend
    | TimedOut           // its timer has fired, it has not yet run
    | Granted            // handed the mutex, it has not yet returned
    | Posting            // in the retry loop of event_highest_task_ready
    | Handing(to: nat)   // has made a waiter ready, has not yet stored the new owner

  /** cnt, data and the event of the mutex, who holds its spin lock, and each task's place;
      holds says which tasks have been told 0 and have not posted since. */
  datatype State = State(cnt: nat, data: Option<nat>, ev: Event, lock: Option<nat>, at: seq<Place>, holds: seq<bool>)

  datatype Step =
    | Accept(t: nat)          // mutex_accept
    | Pend(t: nat)            // mutex_pend up to the sleep, or to its return with 0
    | Timeout(t: nat)         // task_timeout_handler
    | ReturnOk(t: nat)        // mutex_pend returns 0 after a hand-off
    | ReturnTimeout(t: nat)   // mutex_pend returns -ETIMEDOUT
    | Post(t: nat)            // mutex_post takes the spin lock
    | Try(t: nat)             // one turn of the retry loop, under the waiter's lock
    | Assign(t: nat)          // the new owner is stored and the spin lock released

  /** Who owns the mutex: the task a hand-off in progress has chosen, else the stored owner. */
  function Owner(s: State): Option<nat> {
    if s.lock.Some? && s.lock.value < |s.at| && s.at[s.lock.value].Handing? then Some(s.at[s.lock.value].to) else s.data
  }

  ghost predicate Enabled(s: State, step: Step) {
    var t := step.t;
    && t < |s.at| && |s.holds| == |s.at|
    && match step
       case Accept(_) => s.at[t].Outside? && s.lock.None?
       case Pend(_) => s.at[t].Outside? && s.lock.None?
       case Timeout(_) => s.at[t].Pending?
       case ReturnOk(_) => s.at[t].Granted?
       case ReturnTimeout(_) => s.at[t].TimedOut? && s.lock.None?
       case Post(_) => s.at[t].Outside? && s.lock.None?
       case Try(_) => s.at[t].Posting?
       case Assign(_) => s.at[t].Handing?
  }

  /** The mutex is taken by t at once. */
  function Taken(s: State, t: nat, cnt: nat): State
    requires t < |s.at| == |s.holds|
  {
    s.(cnt := cnt, data := Some(t), holds := s.holds[t := true])
  }

  function Apply(s: State, step: Step): State
    requires Enabled(s, step) && |s.ev.wait.table| == 8
  {
    var t := step.t;
    match step
    case Accept(_) => if s.cnt == OS_MUTEX_AVAILABLE then Taken(s, t, Prio(t)) else s   // -EBUSY
    case Pend(_) =>
      if s.cnt == OS_MUTEX_AVAILABLE then Taken(s, t, t)
      else s.(ev := s.ev.Add(t), at := s.at[t := Pending])
    case Timeout(_) => s.(at := s.at[t := TimedOut])
    case ReturnOk(_) => s.(at := s.at[t := Outside], holds := s.holds[t := true])
    case ReturnTimeout(_) => s.(ev := s.ev.Remove(t), at := s.at[t := Outside])
    case Post(_) =>
      if s.data == Some(t) then s.(lock := Some(t), at := s.at[t := Posting], holds := s.holds[t := false])
      else s   // -EINVAL
    case Try(_) =>
      (match s.ev.Waiter()
       case None =>
         s.(cnt := OS_MUTEX_AVAILABLE, data := None, lock := None, at := s.at[t := Outside])
       case Some(w) =>
         var ev := s.ev.Remove(w);
         if w < |s.at| && s.at[w].Pending? then s.(ev := ev, at := s.at[w := Granted][t := Handing(w)])
         else s.(ev := ev))
    case Assign(_) =>
      var w := s.at[t].to;
      s.(cnt := w, data := Some(w), lock := None, at := s.at[t := Outside])
  }

  /** Asleep in mutex_pend, or timed out there and not yet returned. */
  predicate Waiting(s: State, t: nat) { t < |s.at| && (s.at[t].Pending? || s.at[t].TimedOut?) }

  ghost predicate Inv(s: State) {
    && s.ev.Valid() && |s.holds| == |s.at| <= 512
    // unavailable exactly when there is an owner
    && (s.cnt == OS_MUTEX_AVAILABLE <==> s.data.None?)
    && (s.data.Some? ==> s.data.value < |s.at|)
    // the spin lock belongs to the one task in mutex_post
    && (forall t :: 0 <= t < |s.at| ==> (s.lock == Some(t) <==> s.at[t].Posting? || s.at[t].Handing?))
    && (s.lock.Some? ==> s.lock.value < |s.at| && s.data == s.lock && !s.holds[s.lock.value])
    // waiters are pending or have timed out, and every pending task waits
    && (forall t: nat :: s.ev.Waits(t) ==> t < |s.at| && (s.at[t].Pending? || s.at[t].TimedOut?))
    && (forall t :: 0 <= t < |s.at| && s.at[t].Pending? ==> s.ev.Waits(t))
    // whoever was told 0, or is about to be, is the owner
    && (forall t :: 0 <= t < |s.at| && (s.holds[t] || s.at[t].Granted?) ==> Owner(s) == Some(t))
    && (forall t :: 0 <= t < |s.at| && s.at[t].Handing? ==> s.at[t].to < |s.at| && s.at[t].to != t)
    // while a hand-off is in progress the owner is not waiting
    && (s.lock.Some? && Owner(s).Some? ==> !Waiting(s, Owner(s).value))
    // the owner knows: unless it is giving the mutex away, it has been told 0 or is about to be
    && (Owner(s).Some? && s.lock != Owner(s) ==> OwnerKnows(s, Owner(s).value))
  }

  ghost predicate OwnerKnows(s: State, t: nat) { t < |s.at| == |s.holds| && (s.holds[t] || s.at[t].Granted?) }

  /** At most one task believes it holds the mutex. */
  lemma Exclusive(s: State, t: nat, u: nat)
    requires Inv(s) && t < |s.at| && u < |s.at| && s.holds[t] && s.holds[u]
    ensures t == u
  {
  }

  lemma TakeInv(s: State, step: Step)
    requires Inv(s) && Enabled(s, step) && (step.Accept? || step.Pend?) && s.cnt == OS_MUTEX_AVAILABLE
    ensures Inv(Apply(s, step))
  {
  }

  lemma PendInv(s: State, t: nat)
    requires Inv(s) && Enabled(s, Pend(t)) && s.cnt != OS_MUTEX_AVAILABLE
    ensures Inv(Apply(s, Pend(t)))
  {
    assert !s.ev.Waits(t);
    forall x: nat ensures s.ev.Add(t).Waits(x) <==> s.ev.Waits(x) || x == t { AddWaits(s.ev, t, x); }
    AddWaits(s.ev, t, t);
  }

  lemma WakeInv(s: State, step: Step)
    requires Inv(s) && Enabled(s, step) && (step.Timeout? || step.ReturnOk?)
    ensures Inv(Apply(s, step))
  {
  }

  lemma PostInv(s: State, t: nat)
    requires Inv(s) && Enabled(s, Post(t))
    ensures Inv(Apply(s, Post(t)))
  {
  }

  lemma AssignInv(s: State, t: nat)
    requires Inv(s) && Enabled(s, Assign(t))
    ensures Inv(Apply(s, Assign(t)))
  {
  }

  lemma ReturnTimeoutInv(s: State, t: nat)
    requires Inv(s) && Enabled(s, ReturnTimeout(t))
    ensures Inv(Apply(s, ReturnTimeout(t)))
  {
    forall x: nat ensures s.ev.Remove(t).Waits(x) <==> s.ev.Waits(x) && x != t { RemoveWaits(s.ev, t, x); }
    RemoveWaits(s.ev, t, t);
  }

  lemma ReleaseInv(s: State, t: nat)
    requires Inv(s) && Enabled(s, Try(t)) && s.ev.Waiter().None?
    ensures Inv(Apply(s, Try(t)))
  {
    WaiterIsFirst(s.ev);
  }

  lemma RemovedWaits(ev: Event, w: nat)
    requires ev.Valid()
    ensures ev.Remove(w).Valid() && forall x: nat :: ev.Remove(w).Waits(x) <==> ev.Waits(x) && x != w
  {
    RemoveWaits(ev, w, w);
    forall x: nat ensures ev.Remove(w).Waits(x) <==> ev.Waits(x) && x != w { RemoveWaits(ev, w, x); }
  }

  lemma HandOffInv(s: State, t: nat)
    requires Inv(s) && Enabled(s, Try(t)) && s.ev.Waiter().Some?
    ensures Inv(Apply(s, Try(t)))
  {
    WaiterIsFirst(s.ev);
    var w := s.ev.Waiter().value;
    RemovedWaits(s.ev, w);
    if s.at[w].Pending? { GrantInv(s, t, w, s.ev.Remove(w)); }
  }

  lemma GrantInv(s: State, t: nat, w: nat, ev: Event)
    requires Inv(s) && Enabled(s, Try(t)) && s.ev.Waits(w) && s.at[w].Pending?
    requires ev.Valid() && forall x: nat :: ev.Waits(x) <==> s.ev.Waits(x) && x != w
    ensures Inv(s.(ev := ev, at := s.at[w := Granted][t := Handing(w)]))
  {
  }

  lemma StepInv(s: State, step: Step)
    requires Inv(s) && Enabled(s, step)
    ensures Inv(Apply(s, step))
  {
    match step
    case Accept(t) => if s.cnt == OS_MUTEX_AVAILABLE { TakeInv(s, step); }
    case Pend(t) => if s.cnt == OS_MUTEX_AVAILABLE { TakeInv(s, step); } else { PendInv(s, t); }
    case ReturnTimeout(t) => ReturnTimeoutInv(s, t);
    case Try(t) => if s.ev.Waiter().None? { ReleaseInv(s, t); } else { HandOffInv(s, t); }
    case Post(t) => PostInv(s, t);
    case Assign(t) => AssignInv(s, t);
    case _ => WakeInv(s, step);
  }

  // ----- runs -----

  ghost predicate Start(s: State) {
    && s.cnt == OS_MUTEX_AVAILABLE && s.data.None? && s.lock.None?
    && s.ev == Event(Bitmap(0, [0, 0, 0, 0, 0, 0, 0, 0]), [])
    && |s.holds| == |s.at| <= 512 && forall t :: 0 <= t < |s.at| ==> s.at[t].Outside? && !s.holds[t]
  }

  ghost predicate Run(run: seq<State>, steps: seq<Step>) {
    && |run| == |steps| + 1 && Start(run[0])
    && forall i :: 0 <= i < |steps| ==>
         |run[i].ev.wait.table| == 8 && Enabled(run[i], steps[i]) && run[i + 1] == Apply(run[i], steps[i])
  }

  lemma {:induction false} RunInv(run: seq<State>, steps: seq<Step>, n: nat)
    requires Run(run, steps) && n < |run|
    ensures Inv(run[n])
  {
    if n == 0 {
      EmptyHasNoMembers(run[0].ev.wait);
      forall t: nat ensures !run[0].ev.Waits(t) { assert t !in run[0].ev.wait.Members(); }
    } else {
      RunInv(run, steps, n - 1);
      StepInv(run[n - 1], steps[n - 1]);
    }
  }

  /** In every run: at most one task holds the mutex, it is never unavailable without an owner,
      and mutex_pend returns 0 only to the owner. */
  lemma RunSafe(run: seq<State>, steps: seq<Step>, n: nat)
    requires Run(run, steps) && n < |steps|
    ensures var s, s', t := run[n], run[n + 1], steps[n].t;
            && (forall a, b :: 0 <= a < |s.at| && 0 <= b < |s.at| && |s.holds| == |s.at| && s.holds[a] && s.holds[b] ==> a == b)
            && (s.cnt != OS_MUTEX_AVAILABLE ==> s.data.Some?)
            && (steps[n].ReturnOk? ==> Owner(s') == Some(t))
            && (steps[n].Pend? && s'.at[t].Outside? ==> Owner(s') == Some(t))
  {
    RunInv(run, steps, n);
    RunInv(run, steps, n + 1);
    forall a, b | 0 <= a < |run[n].at| && 0 <= b < |run[n].at| && run[n].holds[a] && run[n].holds[b] ensures a == b {
      Exclusive(run[n], a, b);
    }
  }

  /** A task that stays in mutex_pend neither gains nor loses the mutex. */
  lemma WaitingKeeps(s: State, step: Step, t: nat)
    requires Inv(s) && Enabled(s, step) && Waiting(s, t) && Waiting(Apply(s, step), t)
    ensures Owner(Apply(s, step)) == Some(t) <==> Owner(s) == Some(t)
  {
    if step.Try? { WaiterIsFirst(s.ev); }
  }

  /** How a waiting task got there with one step: it was waiting before, or this is its call. */
  ghost predicate Back(s: State, step: Step, s': State, t: nat) {
    Waiting(s', t) ==>
      if Waiting(s, t) then Owner(s') == Some(t) <==> Owner(s) == Some(t)
      else step == Pend(t) && Owner(s') == Owner(s)
  }

  ghost predicate AllBack(run: seq<State>, steps: seq<Step>, t: nat) {
    && |run| == |steps| + 1 && !Waiting(run[0], t)
    && forall i :: 0 <= i < |steps| ==> Back(run[i], steps[i], run[i + 1], t)
  }

  lemma RunBack(run: seq<State>, steps: seq<Step>, t: nat)
    requires Run(run, steps)
    ensures AllBack(run, steps, t)
  {
    forall i | 0 <= i < |steps| ensures Back(run[i], steps[i], run[i + 1], t) {
      RunInv(run, steps, i);
      if Waiting(run[i + 1], t) {
        if Waiting(run[i], t) { WaitingKeeps(run[i], steps[i], t); } else { EntersByPend(run[i], steps[i], t); }
      }
    }
  }

  /** The call of mutex_pend that a waiting task is in: it began with step m, and since then the
      task has not moved except to time out. */
  lemma {:induction false} PendStep(run: seq<State>, steps: seq<Step>, n: nat, t: nat) returns (m: nat)
    requires AllBack(run, steps, t) && n < |run| && Waiting(run[n], t)
    ensures m < n && steps[m] == Pend(t)
    ensures forall i :: m < i <= n ==> Waiting(run[i], t)
    ensures Owner(run[n]) == Some(t) <==> Owner(run[m]) == Some(t)
  {
    assert n > 0 && Back(run[n - 1], steps[n - 1], run[n], t);
    if Waiting(run[n - 1], t) {
      m := PendStep(run, steps, n - 1, t);
    } else {
      m := n - 1;
    }
  }

  lemma EntersByPend(s: State, step: Step, t: nat)
    requires Inv(s) && Enabled(s, step) && !Waiting(s, t) && Waiting(Apply(s, step), t)
    ensures step == Pend(t) && Owner(Apply(s, step)) == Owner(s)
  {
    if step.Try? { WaiterIsFirst(s.ev); }
  }

  /** mutex_pend returns -ETIMEDOUT to the owner if and only if the owner itself called it: there
      is no owner test in mutex_pend, so a task can sleep on a mutex it has. */
  lemma TimeoutOwner(run: seq<State>, steps: seq<Step>, n: nat) returns (m: nat)
    requires Run(run, steps) && n < |steps| && steps[n].ReturnTimeout?
    ensures m < n && steps[m] == Pend(steps[n].t) && forall i :: m < i <= n ==> Waiting(run[i], steps[n].t)
    ensures Owner(run[n + 1]) == Some(steps[n].t) <==> Owner(run[m]) == Some(steps[n].t)
    ensures Owner(run[m]) != Some(steps[n].t) ==> !run[n + 1].holds[steps[n].t]
  {
    RunInv(run, steps, n);
    RunInv(run, steps, n + 1);
    RunBack(run, steps, steps[n].t);
    m := PendStep(run, steps, n, steps[n].t);
  }

  /** w is the task a hand-off should go to: the highest-priority real-time task that is pending, or
      else the first listed one. */
  ghost predicate Deserves(s: State, w: nat) {
    && w < |s.at| && s.at[w].Pending?
    && (forall u :: 0 <= u < |s.at| && Realtime(u) && s.at[u].Pending? ==> Realtime(w) && w <= u)
    && (!Realtime(w) ==> s.ev.list != [] && w == s.ev.list[0])
  }

  /** Hand-off goes to the task that deserves it. */
  lemma HandOffPicks(s: State, t: nat)
    requires Inv(s) && Enabled(s, Try(t)) && Apply(s, Try(t)).at[t].Handing?
    ensures Deserves(s, Apply(s, Try(t)).at[t].to)
  {
    WaiterIsFirst(s.ev);
  }

  ghost predicate Before(l: seq<nat>, a: nat, b: nat) { exists i, j :: 0 <= i < j < |l| && l[i] == a && l[j] == b }

  /** Where the entries of a list are when its k-th one is cut out. */
  lemma CutIndex(l: seq<nat>, k: nat, r: seq<nat>)
    requires k < |l| && r == l[..k] + l[k + 1..]
    ensures |r| == |l| - 1
    ensures forall i :: 0 <= i < k ==> r[i] == l[i]
    ensures forall i :: k < i < |l| ==> r[i - 1] == l[i]
  {
  }

  lemma StaysBefore(l: seq<nat>, k: nat, r: seq<nat>, a: nat, b: nat)
    requires k < |l| && r == l[..k] + l[k + 1..] && a != l[k] && b != l[k] && Before(l, a, b)
    ensures Before(r, a, b)
  {
    CutIndex(l, k, r);
    var i, j :| 0 <= i < j < |l| && l[i] == a && l[j] == b;
    var i', j' := if i < k then i else i - 1, if j < k then j else j - 1;
    assert r[i'] == a && r[j'] == b;
  }

  lemma WasBefore(l: seq<nat>, k: nat, r: seq<nat>, a: nat, b: nat)
    requires k < |l| && r == l[..k] + l[k + 1..] && Before(r, a, b)
    ensures Before(l, a, b)
  {
    CutIndex(l, k, r);
    var i, j :| 0 <= i < j < |r| && r[i] == a && r[j] == b;
    var i', j' := if i < k then i else i + 1, if j < k then j else j + 1;
    assert l[i'] == a && l[j'] == b;
  }

  lemma RemovedInOrder(l: seq<nat>, x: nat, a: nat, b: nat)
    requires NoDup(l) && a != b
    ensures var r := Without(l, x); Before(r, a, b) <==> a in r && b in r && (Before(l, a, b) || b !in l)
  {
    WithoutKeeps(l, x);
    var r := Without(l, x);
    if x in l {
      var k := WithoutAt(l, x);
      if Before(r, a, b) { WasBefore(l, k, r, a, b); }
      if a in r && b in r && Before(l, a, b) { StaysBefore(l, k, r, a, b); }
    }
  }

  /** Listed tasks wait in turn: a stands before b exactly if it did already, or b has just come. */
  lemma ListedInTurn(s: State, step: Step, a: nat, b: nat)
    requires Inv(s) && Enabled(s, step) && a != b
    ensures var l := Apply(s, step).ev.list;
            Before(l, a, b) <==> a in l && b in l && (Before(s.ev.list, a, b) || b !in s.ev.list)
  {
    var l, l' := s.ev.list, Apply(s, step).ev.list;
    var x := ListStep(s, step);
    if l' == l {
      OrderedSomehow(l, a, b);
    } else if l' == Without(l, x) {
      RemovedInOrder(l, x, a, b);
    } else {
      AppendedInOrder(l, step.t, a, b);
    }
  }

  /** A step leaves the list, appends its task, or takes one out. */
  lemma ListStep(s: State, step: Step) returns (x: nat)
    requires Inv(s) && Enabled(s, step)
    ensures var l, l' := s.ev.list, Apply(s, step).ev.list;
            l' == l || (l' == l + [step.t] && step.t !in l) || l' == Without(l, x)
  {
    x := step.t;
    if step.Try? && s.ev.Waiter().Some? { x := s.ev.Waiter().value; }
    if step.Pend? { assert !s.ev.Waits(step.t); }
  }

  lemma OrderedSomehow(l: seq<nat>, a: nat, b: nat)
    requires a != b
    ensures Before(l, a, b) ==> a in l && b in l
    ensures a in l && b in l ==> Before(l, a, b) || Before(l, b, a)
  {
  }

  lemma AppendedInOrder(l: seq<nat>, t: nat, a: nat, b: nat)
    requires t !in l && a != b
    ensures Before(l + [t], a, b) <==> a in l + [t] && b in l + [t] && (Before(l, a, b) || b !in l)
  {
    var l' := l + [t];
    if Before(l', a, b) {
      var i, j :| 0 <= i < j < |l'| && l'[i] == a && l'[j] == b;
      if j < |l| { assert l[i] == a && l[j] == b; }
    }
    if a in l' && b in l' {
      if Before(l, a, b) {
        var i, j :| 0 <= i < j < |l| && l[i] == a && l[j] == b;
        assert l'[i] == a && l'[j] == b;
      } else if b !in l {
        var i :| 0 <= i < |l| && l[i] == a;
        assert l'[i] == a && l'[|l|] == b;
      }
    }
  }

  /** The retry loop ends: a turn that does not finish has one waiter fewer, and while the spin
      lock is held nobody can add one. */
  lemma RetryTerminates(s: State, step: Step)
    requires Inv(s) && s.lock.Some? && Enabled(s, step) && Apply(s, step).lock == s.lock
    ensures Apply(s, step).ev.Valid() && Count(Apply(s, step).ev) <= Count(s.ev)
    ensures step.Try? && Apply(s, step).at[step.t].Posting? ==> Count(Apply(s, step).ev) < Count(s.ev)
  {
    if step.Try? {
      WaiterIsFirst(s.ev);
      RemoveCounts(s.ev, s.ev.Waiter().value);
    }
  }

  // ----- what the calls do -----

  /** What each call decides in every reachable state: a free mutex is the caller's at once and an
      owned one is never taken from its owner; only the owner's mutex_post has an effect; a sleeping
      task leaves the waiters when it returns, with the mutex if it was granted. */
  lemma CallsDecide(run: seq<State>, steps: seq<Step>, n: nat)
    requires Run(run, steps) && n < |steps|
    ensures var s, s', t := run[n], run[n + 1], steps[n].t;
            && t < |s.at| == |s.holds| == |s'.at| == |s'.holds| && |s'.ev.wait.table| == 8
            && match steps[n]
               case Accept(_) =>
                 if Owner(s).None? then Owner(s') == Some(t) && s'.holds == s.holds[t := true] && s'.at == s.at && s'.ev == s.ev
                 else s' == s
               case Pend(_) =>
                 if Owner(s).None? then Owner(s') == Some(t) && s'.holds == s.holds[t := true] && s'.at == s.at && s'.ev == s.ev
                 else Owner(s') == Owner(s) && s'.holds == s.holds && s'.at == s.at[t := Pending]
                      && forall x: nat :: s'.ev.Waits(x) <==> s.ev.Waits(x) || x == t
               case Timeout(_) => s' == s.(at := s.at[t := TimedOut])
               case ReturnOk(_) => Owner(s') == Owner(s) == Some(t) && s'.holds == s.holds[t := true] && s'.at[t].Outside? && !s'.ev.Waits(t)
               case ReturnTimeout(_) =>
                 && Owner(s') == Owner(s) && s'.holds == s.holds && s'.at == s.at[t := Outside]
                 && forall x: nat :: s'.ev.Waits(x) <==> s.ev.Waits(x) && x != t
               case Post(_) =>
                 if Owner(s) == Some(t) then s'.lock == Some(t) && s'.at == s.at[t := Posting] && s'.holds == s.holds[t := false] && s'.ev == s.ev
                 else s' == s
               case _ => true
  {
    RunInv(run, steps, n);
    RunInv(run, steps, n + 1);
    var s, t := run[n], steps[n].t;
    match steps[n]
    case Pend(_) => if Owner(s).Some? { AddedWaits(s.ev, t); }
    case ReturnTimeout(_) => RemovedWaits(s.ev, t);
    case _ =>
  }

  lemma AddedWaits(ev: Event, t: nat)
    requires ev.Valid() && !ev.Waits(t)
    ensures forall x: nat :: ev.Add(t).Waits(x) <==> ev.Waits(x) || x == t
  {
    forall x: nat ensures ev.Add(t).Waits(x) <==> ev.Waits(x) || x == t { AddWaits(ev, t, x); }
  }

  /** How many of the steps from a to b are steps of task t. */
  ghost function Own(steps: seq<Step>, t: nat, a: nat, b: nat): nat
    requires a <= b <= |steps|
    decreases b - a
  {
    if a == b then 0 else (if steps[a].t == t then 1 else 0) + Own(steps, t, a + 1, b)
  }

  /** What mutex_post of t has achieved in state e of a run: t is out of it, and the mutex is free and
      nobody is pending, or it belongs to the task that deserved it in a state after the call. */
  ghost predicate HandedOver(run: seq<State>, t: nat, m: nat, e: nat) {
    && m < e < |run| && t < |run[e].at| == |run[e].holds| && run[e].lock.None? && run[e].at[t].Outside? && !run[e].holds[t]
    && match run[e].data
       case None => run[e].cnt == OS_MUTEX_AVAILABLE && forall u :: 0 <= u < |run[e].at| ==> !run[e].at[u].Pending?
       case Some(w) => w != t && OwnerKnows(run[e], w) && exists j :: m < j < e && Deserves(run[j], w)
  }

  /** A chosen task becomes the owner as soon as the poster runs once more. */
  lemma {:induction false} AssignComes(run: seq<State>, steps: seq<Step>, t: nat, w: nat, i: nat, n: nat) returns (e: nat)
    requires Run(run, steps) && i <= n < |run| && t < |run[i].at| && run[i].at[t] == Handing(w) && Own(steps, t, i, n) >= 1
    ensures i < e <= n && t < |run[e].at| == |run[e].holds| && run[e].data == Some(w) && run[e].lock.None?
    ensures run[e].at[t].Outside? && !run[e].holds[t] && w != t && OwnerKnows(run[e], w)
    decreases n - i
  {
    RunInv(run, steps, i);
    RunInv(run, steps, i + 1);
    if steps[i].t == t {
      e := i + 1;
    } else {
      OthersWhileLocked(run[i], steps[i], t);
      e := AssignComes(run, steps, t, w, i + 1, n);
    }
  }

  /** The retry loop ends after as many of the poster's steps as tasks wait, and one more to finish. */
  lemma {:induction false} LoopEnds(run: seq<State>, steps: seq<Step>, t: nat, m: nat, i: nat, n: nat) returns (e: nat)
    requires Run(run, steps) && m < i <= n < |run| && t < |run[i].at| && |run[i].ev.wait.table| == 8
    requires run[i].at[t].Posting? && Own(steps, t, i, n) >= Count(run[i].ev) + 1
    ensures i < e <= n && HandedOver(run, t, m, e)
    decreases n - i
  {
    RunTurn(run, steps, t, i);
    var s := run[i + 1];
    if s.lock.None? {
      e := i + 1;
    } else if s.at[t].Posting? {
      e := LoopEnds(run, steps, t, m, i + 1, n);
    } else {
      e := AssignComes(run, steps, t, s.at[t].to, i + 1, n);
    }
  }

  /** One step while t is in the retry loop: t finds nobody, or chooses, or there is less to do. */
  ghost predicate Turn(s: State, step: Step, s': State, t: nat)
    requires |s.ev.wait.table| == 8
  {
    && t < |s'.at| == |s'.holds| && |s'.ev.wait.table| == 8
    && if s'.lock.None? then
         && s'.at[t].Outside? && !s'.holds[t] && s'.data.None? && s'.cnt == OS_MUTEX_AVAILABLE
         && forall u :: 0 <= u < |s'.at| ==> !s'.at[u].Pending?
       else if s'.at[t].Handing? then step.t == t && Count(s.ev) >= 1 && Deserves(s, s'.at[t].to)
       else s'.at[t].Posting? && Count(s'.ev) + (if step.t == t then 1 else 0) <= Count(s.ev)
  }

  lemma RunTurn(run: seq<State>, steps: seq<Step>, t: nat, i: nat)
    requires Run(run, steps) && i < |steps| && t < |run[i].at| && run[i].at[t].Posting?
    ensures |run[i].ev.wait.table| == 8 && Turn(run[i], steps[i], run[i + 1], t)
  {
    RunInv(run, steps, i);
    LoopTurn(run[i], steps[i], t);
  }

  lemma LoopTurn(s: State, step: Step, t: nat)
    requires Inv(s) && Enabled(s, step) && t < |s.at| && s.at[t].Posting?
    ensures Turn(s, step, Apply(s, step), t)
  {
    assert s.lock == Some(t);
    if step == Try(t) {
      WaiterIsFirst(s.ev);
      if s.ev.Waiter().Some? { RemoveCounts(s.ev, s.ev.Waiter().value); }
    } else {
      OthersWhileLocked(s, step, t);
    }
  }

  /** While the spin lock is held, other tasks leave the event and the lock alone. */
  lemma OthersWhileLocked(s: State, step: Step, t: nat)
    requires Inv(s) && Enabled(s, step) && s.lock == Some(t) && step.t != t
    ensures var s' := Apply(s, step);
            s'.ev == s.ev && s'.lock == s.lock && |s'.at| == |s.at| == |s'.holds| && s'.at[t] == s.at[t] && s'.data == s.data
  {
  }

  /** mutex_post of the owner always comes to its end, whatever other tasks and timers do meanwhile:
      once its task has made as many further steps as tasks were waiting, and one more, the mutex has
      been handed over or is free. */
  lemma PostHandsOver(run: seq<State>, steps: seq<Step>, m: nat, n: nat) returns (e: nat)
    requires Run(run, steps) && m < n < |run| && steps[m].Post? && Owner(run[m]) == Some(steps[m].t)
    requires |run[m].ev.wait.table| == 8 && Own(steps, steps[m].t, m + 1, n) >= Count(run[m].ev) + 1
    ensures m < e <= n && HandedOver(run, steps[m].t, m, e)
  {
    CallsDecide(run, steps, m);
    e := LoopEnds(run, steps, steps[m].t, m, m + 1, n);
  }

  /** And its task can always make the next step until then. */
  lemma PosterCanStep(run: seq<State>, steps: seq<Step>, n: nat, t: nat)
    requires Run(run, steps) && n < |run| && run[n].lock == Some(t)
    ensures Enabled(run[n], Try(t)) || Enabled(run[n], Assign(t))
  {
    RunInv(run, steps, n);
  }

  /** The mutex becomes available only when no task is left pending. */
  lemma ReleasedOnlyWhenUnwanted(s: State, t: nat)
    requires Inv(s) && Enabled(s, Try(t)) && Apply(s, Try(t)).data.None?
    ensures forall u :: 0 <= u < |s.at| ==> !s.at[u].Pending?
  {
    WaiterIsFirst(s.ev);
  }

  /** A run in which -ETIMEDOUT goes to the owner: a task takes the mutex and pends on it again. */
  lemma TimeoutToOwner() returns (run: seq<State>, steps: seq<Step>)
    ensures Run(run, steps) && |steps| == 4 && steps[3] == ReturnTimeout(70)
    ensures |run[4].at| == 71 == |run[4].holds| && Owner(run[4]) == Some(70) && run[4].holds[70]
  {
    var s0 := State(OS_MUTEX_AVAILABLE, None, Event(Bitmap(0, [0, 0, 0, 0, 0, 0, 0, 0]), []), None,
                    seq(71, _ => Outside), seq(71, _ => false));
    steps := [Accept(70), Pend(70), Timeout(70), ReturnTimeout(70)];
    var s1 := Apply(s0, steps[0]);
    var s2 := Apply(s1, steps[1]);
    var s3 := Apply(s2, steps[2]);
    var s4 := Apply(s3, steps[3]);
    run := [s0, s1, s2, s3, s4];
  }
}
