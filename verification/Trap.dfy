/** The request-acknowledge protocol between a trapping vCPU (vmcs.c) and the mvm thread that
    serves it (mvm.c), at the granularity of single accesses to the shared vmcs page. */
module Trap {
  import opened Sealing

  const TYPE_UNKNOWN := 2
  const REASON_UNKNOWN := 9
  const WORD := 0x1_0000_0000_0000_0000
  const EPERM := -1

  /** The arguments of __vcpu_trap; arg is *result, or 0 without a result pointer. */
  datatype Req = Req(typ: nat, reason: nat, data: nat, arg: int, blocking: bool)

  /** struct vmcs; host and guest are the 64-bit host_index and guest_index. */
  datatype Vmcs = Vmcs(typ: nat, reason: nat, data: nat, ret: int, result: int, host: nat, guest: nat)

  function Inc(x: nat): nat { if x + 1 == WORD then 0 else x + 1 }
  function Dec(x: nat): nat { if x == 0 then WORD - 1 else x - 1 }

  /** The vCPU: outside; waiting for the last trap; writing the k-th field; index raised, virq not
      yet sent; undoing a failed send; virq sent; about to return, with the result it read. */
  datatype HostAt =
    | Outside | Waiting(r: Req) | Writing(r: Req, k: nat) | Raised(r: Req) | Undoing(r: Req, k: nat)
    | Sent(r: Req) | Returning(r: Req, res: int)

  /** The mvm thread: in epoll_wait; reading the fields; serving; writing the answer; acknowledging. */
  datatype MvmAt =
    | Polling | ReadType | ReadReason(t: nat) | ReadData(t: nat, rs: nat) | ReadResult(t: nat, rs: nat, d: nat)
    | Serving(t: nat, rs: nat, d: nat, arg: int) | WriteRet(ret: int, res: int) | WriteResult(ret: int, res: int)
    | Acking(ret: int, res: int)

  /** What the mvm thread served: the fields it read and the answer it gave. */
  datatype Served = Served(t: nat, rs: nat, d: nat, arg: int, ret: int, res: int)

  /** events is the eventfd counter; posted and served are the history. */
  datatype State = State(c: Vmcs, at: HostAt, mvm: MvmAt, events: nat, posted: seq<Req>, served: seq<Served>)

  datatype Step =
    | Call(r: Req) | EndWait | Write | SendOk | SendFails | Undo | EndTrap | Return
    | Notice | Read | Serve(ret: int, res: int) | Answer | Ack

  predicate Accepted(r: Req) { r.typ < TYPE_UNKNOWN && r.reason < REASON_UNKNOWN }

  predicate Enabled(s: State, step: Step) {
    match step
    case Call(_) => s.at.Outside?
    case EndWait => s.at.Waiting? && s.c.guest == s.c.host
    case Write => s.at.Writing? && s.at.k <= 5
    case SendOk => s.at.Raised?
    case SendFails => s.at.Raised?
    case Undo => s.at.Undoing? && s.at.k <= 2
    case EndTrap => s.at.Sent? && (s.at.r.blocking ==> s.c.guest == s.c.host)
    case Return => s.at.Returning?
    case Notice => s.mvm.Polling? && s.events > 0
    case Read => s.mvm.ReadType? || s.mvm.ReadReason? || s.mvm.ReadData? || s.mvm.ReadResult?
    case Serve(_, _) => s.mvm.Serving?
    case Answer => s.mvm.WriteRet? || s.mvm.WriteResult?
    case Ack => s.mvm.Acking?
  }

  /** The stores of __vcpu_trap, in order. */
  function Written(c: Vmcs, r: Req, k: nat): Vmcs {
    if k == 0 then c.(typ := r.typ)
    else if k == 1 then c.(reason := r.reason)
    else if k == 2 then c.(data := r.data)
    else if k == 3 then c.(ret := 0)
    else if k == 4 then c.(result := r.arg)
    else c.(host := Inc(c.host))
  }

  function Undone(c: Vmcs, k: nat): Vmcs {
    if k == 0 then c.(host := Dec(c.host)) else if k == 1 then c.(ret := EPERM) else c.(result := 0)
  }

  function Apply(s: State, step: Step): State
    requires Enabled(s, step)
  {
    match step
    case Call(r) => if Accepted(r) then s.(at := Waiting(r)) else s
    case EndWait => s.(at := Writing(s.at.r, 0))
    case Write => s.(c := Written(s.c, s.at.r, s.at.k), at := if s.at.k == 5 then Raised(s.at.r) else Writing(s.at.r, s.at.k + 1))
    case SendOk => s.(at := Sent(s.at.r), events := s.events + 1, posted := s.posted + [s.at.r])
    case SendFails => s.(at := Undoing(s.at.r, 0))
    case Undo => s.(c := Undone(s.c, s.at.k), at := if s.at.k == 2 then Outside else Undoing(s.at.r, s.at.k + 1))
    case EndTrap => s.(at := Returning(s.at.r, if s.at.r.blocking then s.c.result else 0))
    case Return => s.(at := Outside)
    case Notice => s.(mvm := ReadType, events := 0)
    case Read => s.(mvm :=
        match s.mvm
        case ReadType => ReadReason(s.c.typ)
        case ReadReason(t) => ReadData(t, s.c.reason)
        case ReadData(t, rs) => ReadResult(t, rs, s.c.data)
        case ReadResult(t, rs, d) => Serving(t, rs, d, s.c.result)
        case _ => s.mvm)
    case Serve(ret, res) => s.(mvm := WriteRet(ret, res), served := s.served + [Served(s.mvm.t, s.mvm.rs, s.mvm.d, s.mvm.arg, ret, res)])
    case Answer => if s.mvm.WriteRet? then s.(c := s.c.(ret := s.mvm.ret), mvm := WriteResult(s.mvm.ret, s.mvm.res))
                   else s.(c := s.c.(result := s.mvm.res), mvm := Acking(s.mvm.ret, s.mvm.res))
    case Ack => s.(c := if s.c.guest == s.c.host then s.c else s.c.(guest := Inc(s.c.guest)), mvm := Polling)
  }

  // ----- what every step keeps -----

  /** A request was posted and is not yet acknowledged. */
  predicate Open(s: State) { s.events > 0 || !s.mvm.Polling? }

  predicate Answered(m: MvmAt) { m.WriteRet? || m.WriteResult? || m.Acking? }

  /** What the mvm thread has read so far is what was posted. */
  predicate ReadsOf(m: MvmAt, r: Req) {
    match m
    case ReadReason(t) => t == r.typ
    case ReadData(t, rs) => t == r.typ && rs == r.reason
    case ReadResult(t, rs, d) => t == r.typ && rs == r.reason && d == r.data
    case Serving(t, rs, d, arg) => t == r.typ && rs == r.reason && d == r.data && arg == r.arg
    case _ => true
  }

  predicate Fields(c: Vmcs, r: Req) { c.typ == r.typ && c.reason == r.reason && c.data == r.data }

  predicate FieldsUpTo(c: Vmcs, r: Req, k: nat) {
    && (k > 0 ==> c.typ == r.typ) && (k > 1 ==> c.reason == r.reason) && (k > 2 ==> c.data == r.data)
    && (k > 4 ==> c.result == r.arg)
  }

  predicate Serves(d: Served, r: Req) { d.t == r.typ && d.rs == r.reason && d.d == r.data && d.arg == r.arg }

  ghost predicate OpenInv(s: State)
    requires s.posted != []
  {
    var r := s.posted[|s.posted| - 1];
    && s.c.host == Inc(s.c.guest) && Fields(s.c, r) && Accepted(r)
    && (s.at.Outside? || s.at.Waiting? || (s.at.Sent? && s.at.r == r) || (s.at.Returning? && !s.at.r.blocking))
    && (if s.mvm.Polling? then s.events == 1 else s.events == 0)
    && ReadsOf(s.mvm, r)
    && (if Answered(s.mvm) then
          && |s.served| == |s.posted|
          && s.served[|s.served| - 1].ret == s.mvm.ret && s.served[|s.served| - 1].res == s.mvm.res
          && (!s.mvm.WriteRet? ==> s.c.ret == s.mvm.ret) && (s.mvm.Acking? ==> s.c.result == s.mvm.res)
        else |s.served| == |s.posted| - 1 && s.c.result == r.arg)
  }

  /** A blocking trap that is waiting or returning was the last one served. */
  ghost predicate LastIs(s: State, r: Req) {
    && s.served != [] && s.posted != [] && s.posted[|s.posted| - 1] == r
    && s.c.ret == s.served[|s.served| - 1].ret && s.c.result == s.served[|s.served| - 1].res
  }

  ghost predicate ClosedInv(s: State) {
    && |s.served| == |s.posted|
    && (if s.at.Raised? || (s.at.Undoing? && s.at.k == 0) then s.c.host == Inc(s.c.guest) else s.c.host == s.c.guest)
    && (s.at.Writing? ==> s.at.k <= 5 && FieldsUpTo(s.c, s.at.r, s.at.k))
    && (s.at.Raised? ==> FieldsUpTo(s.c, s.at.r, 5))
    && (s.at.Undoing? ==> s.at.k <= 2 && (s.at.k == 2 ==> s.c.ret == EPERM))
    && (s.at.Sent? ==> LastIs(s, s.at.r))
    && (s.at.Returning? && s.at.r.blocking ==> LastIs(s, s.at.r) && s.at.res == s.c.result)
  }

  ghost predicate Inv(s: State) {
    && s.c.host < WORD && s.c.guest < WORD
    && (!s.at.Outside? ==> Accepted(s.at.r))
    && |s.served| <= |s.posted|
    && (forall i :: 0 <= i < |s.served| ==> Serves(s.served[i], s.posted[i]))
    && (forall i :: 0 <= i < |s.posted| ==> Accepted(s.posted[i]))
    && (if Open(s) then s.posted != [] && OpenInv(s) else ClosedInv(s))
  }

  predicate MvmStep(step: Step) { step.Notice? || step.Read? || step.Serve? || step.Answer? || step.Ack? }

  /** Entering, waiting and leaving: only the vCPU's place changes. */
  lemma MoveInv(s: State, step: Step)
    requires Inv(s) && Enabled(s, step) && (step.Call? || step.EndWait? || step.EndTrap? || step.Return? || step.SendFails?)
    ensures Inv(Apply(s, step))
  {
  }

  /** The vCPU's stores, which happen while no trap is open. */
  lemma StoreInv(s: State, step: Step)
    requires Inv(s) && Enabled(s, step) && (step.Write? || step.Undo?)
    ensures Inv(Apply(s, step))
  {
    assert !Open(s);
  }

  lemma SendInv(s: State)
    requires Inv(s) && Enabled(s, SendOk)
    ensures Inv(Apply(s, SendOk))
  {
    assert !Open(s);
    var s' := Apply(s, SendOk);
    assert s'.posted[|s'.posted| - 1] == s.at.r;
  }

  lemma ReadInv(s: State, step: Step)
    requires Inv(s) && Enabled(s, step) && (step.Notice? || step.Read?)
    ensures Inv(Apply(s, step))
  {
    assert Open(s);
  }

  lemma AnswerInv(s: State, step: Step)
    requires Inv(s) && Enabled(s, step) && (step.Serve? || step.Answer? || step.Ack?)
    ensures Inv(Apply(s, step))
  {
    assert Open(s);
  }

  lemma StepInv(s: State, step: Step)
    requires Inv(s) && Enabled(s, step)
    ensures Inv(Apply(s, step))
  {
    match step
    case Write => StoreInv(s, step);
    case Undo => StoreInv(s, step);
    case SendOk => SendInv(s);
    case Notice => ReadInv(s, step);
    case Read => ReadInv(s, step);
    case Serve(_, _) => AnswerInv(s, step);
    case Answer => AnswerInv(s, step);
    case Ack => AnswerInv(s, step);
    case _ => MoveInv(s, step);
  }

  // ----- runs -----

  ghost predicate Start(s: State) {
    && s.c.host == s.c.guest < WORD && s.at.Outside? && s.mvm.Polling? && s.events == 0
    && s.posted == [] && s.served == []
  }

  ghost predicate Run(run: seq<State>, steps: seq<Step>) {
    && |run| == |steps| + 1 && Start(run[0])
    && forall i :: 0 <= i < |steps| ==> Enabled(run[i], steps[i]) && run[i + 1] == Apply(run[i], steps[i])
  }

  lemma {:induction false} RunInv(run: seq<State>, steps: seq<Step>, n: nat)
    requires Run(run, steps) && n < |run|
    ensures Inv(run[n])
  {
    if n > 0 {
      RunInv(run, steps, n - 1);
      StepInv(run[n - 1], steps[n - 1]);
    }
  }

  /** The indices differ by nothing or by one, and an eventfd read never returns more than one. */
  lemma IndexGap(run: seq<State>, steps: seq<Step>, n: nat)
    requires Run(run, steps) && n < |run|
    ensures run[n].c.host == run[n].c.guest || run[n].c.host == Inc(run[n].c.guest)
    ensures run[n].events <= 1
  {
    RunInv(run, steps, n);
  }

  /** Every posted trap is served exactly once, in order, from the arguments of its own call; the
      last one may still be open.  Only known trap types are served. */
  lemma ServedOnce(run: seq<State>, steps: seq<Step>, n: nat)
    requires Run(run, steps) && n < |run|
    ensures |run[n].served| <= |run[n].posted| <= |run[n].served| + 1
    ensures forall i :: 0 <= i < |run[n].served| ==>
      Serves(run[n].served[i], run[n].posted[i]) && run[n].served[i].t < TYPE_UNKNOWN
    ensures !Open(run[n]) ==> |run[n].served| == |run[n].posted|
  {
    RunInv(run, steps, n);
  }

  /** Posting opens a trap that only the acknowledge closes; in between, its type, reason and data
      stay as posted, and its result stays until it has been read and served. */
  lemma NotOverwritten(run: seq<State>, steps: seq<Step>, n: nat)
    requires Run(run, steps) && n < |steps|
    ensures steps[n].SendOk? ==> !Open(run[n]) && Open(run[n + 1]) && Fields(run[n + 1].c, run[n].at.r) && run[n + 1].c.result == run[n].at.r.arg
    ensures Open(run[n]) ==> Open(run[n + 1]) || steps[n].Ack?
    ensures Open(run[n]) && Open(run[n + 1]) ==>
      && run[n + 1].c.typ == run[n].c.typ && run[n + 1].c.reason == run[n].c.reason && run[n + 1].c.data == run[n].c.data
      && run[n + 1].posted == run[n].posted
      && (|run[n + 1].served| < |run[n + 1].posted| ==> run[n + 1].c.result == run[n].c.result)
    ensures Open(run[n]) && !Open(run[n + 1]) ==> run[n + 1].c.guest == run[n + 1].c.host
    ensures steps[n].Write? || steps[n].Undo? ==> !Open(run[n])
  {
    RunInv(run, steps, n);
    RunInv(run, steps, n + 1);
  }

  predicate AfterSend(at: HostAt) { at.Sent? || at.Returning? }

  /** The send that a trap which waits or returns goes back to. */
  lemma {:induction false} FindPost(run: seq<State>, steps: seq<Step>, n: nat) returns (m: nat)
    requires Run(run, steps) && n < |run| && AfterSend(run[n].at)
    ensures m < n && steps[m].SendOk? && run[m].at.r == run[n].at.r
    ensures forall i :: m < i < n ==> !steps[i].SendOk?
    ensures run[n].posted == run[m].posted + [run[n].at.r]
  {
    if AfterSend(run[n - 1].at) {
      m := FindPost(run, steps, n - 1);
    } else {
      m := n - 1;
    }
  }

  /** A blocking trap returns the answer to its own request: the one it posted, which nobody had
      served before, and which was served from its arguments. */
  lemma OwnResult(run: seq<State>, steps: seq<Step>, n: nat) returns (m: nat, k: nat)
    requires Run(run, steps) && n < |steps| && steps[n].Return? && run[n].at.r.blocking
    ensures m < n && steps[m].SendOk? && run[m].at.r == run[n].at.r
    ensures forall i :: m < i < n ==> !steps[i].SendOk?
    ensures k == |run[m].posted| == |run[m].served| && |run[n].served| == k + 1
    ensures Serves(run[n].served[k], run[n].at.r)
    ensures run[n].at.res == run[n].served[k].res && run[n].c.ret == run[n].served[k].ret
  {
    m := FindPost(run, steps, n);
    RunInv(run, steps, m);
    RunInv(run, steps, n);
    k := |run[m].posted|;
  }

  /** A failed send leaves no trace but the error: when the call returns, the indices agree again,
      nothing is open, and everything posted has been served. */
  lemma FailureUndone(run: seq<State>, steps: seq<Step>, n: nat)
    requires Run(run, steps) && n < |steps| && steps[n].Undo? && run[n + 1].at.Outside?
    ensures run[n + 1].c.host == run[n + 1].c.guest && !Open(run[n + 1])
    ensures run[n + 1].c.ret == EPERM && run[n + 1].c.result == 0
    ensures |run[n + 1].served| == |run[n + 1].posted|
  {
    RunInv(run, steps, n);
    RunInv(run, steps, n + 1);
  }

  // ----- a call from its start to its end -----

  /** What has become of the call of r, made when `posted` had been posted. */
  ghost predicate CallAt(s: State, r: Req, posted: seq<Req>) {
    match s.at
    case Outside => false
    case Sent(q) => q == r && s.posted == posted + [r]
    case Returning(q, _) => q == r && s.posted == posted + [r]
    case _ => s.at.r == r && s.posted == posted
  }

  /** A call with a known type and reason begins, and any other is refused without effect.  One that
      has begun posts its own request, once, if it returns, and nothing if its send fails. */
  lemma {:induction false} CallTrace(run: seq<State>, steps: seq<Step>, n: nat, i: nat)
    requires Run(run, steps) && n < i < |run| && steps[n].Call? && forall j :: n < j < i ==> !run[j].at.Outside?
    ensures !Accepted(steps[n].r) ==> run[n + 1] == run[n]
    ensures Accepted(steps[n].r) && !run[i].at.Outside? ==> CallAt(run[i], steps[n].r, run[n].posted)
    ensures Accepted(steps[n].r) && run[i].at.Outside? ==>
      (steps[i - 1].Return? && run[i].posted == run[n].posted + [steps[n].r]) || (steps[i - 1].Undo? && run[i].posted == run[n].posted)
  {
    if i > n + 1 { CallTrace(run, steps, n, i - 1); }
  }

  /** The vCPU's own steps left until its call ends, at most. */
  function HostLeft(at: HostAt): nat {
    match at
    case Outside => 0
    case Waiting(_) => 11
    case Writing(_, k) => if k <= 5 then 10 - k else 0
    case Raised(_) => 4
    case Undoing(_, k) => if k <= 2 then 3 - k else 0
    case Sent(_) => 3
    case Returning(_, _) => 2
  }

  /** A call ends: each of its own steps brings the end nearer, and no step of the mvm thread sets it back. */
  lemma CallEnds(run: seq<State>, steps: seq<Step>, n: nat)
    requires Run(run, steps) && n < |steps|
    ensures MvmStep(steps[n]) ==> run[n + 1].at == run[n].at
    ensures !MvmStep(steps[n]) && !steps[n].Call? ==> HostLeft(run[n + 1].at) < HostLeft(run[n].at)
    ensures HostLeft(run[n].at) == 0 <==> run[n].at.Outside?
  {
    RunInv(run, steps, n);
  }

  // ----- progress -----

  /** Steps of the mvm thread left until the acknowledge. */
  function Left(m: MvmAt): nat {
    match m
    case Polling => 9
    case ReadType => 8
    case ReadReason(_) => 7
    case ReadData(_, _) => 6
    case ReadResult(_, _, _) => 5
    case Serving(_, _, _, _) => 4
    case WriteRet(_, _) => 3
    case WriteResult(_, _) => 2
    case Acking(_, _) => 1
  }

  /** Every step while a trap is open, of whichever side: the vCPU's leave the mvm thread and its
      event alone, each of the mvm thread's is one step nearer to the acknowledge, and the last
      one is the acknowledge that lets the trap go on. */
  ghost predicate Nearer(s: State, step: Step) {
    Enabled(s, step) ==>
      var s' := Apply(s, step);
      if !MvmStep(step) then s'.mvm == s.mvm && s'.events == s.events && Open(s')
      else if Left(s.mvm) == 1 then !Open(s') && s'.c.guest == s'.c.host
      else Open(s') && Left(s'.mvm) == Left(s.mvm) - 1
  }

  lemma OpenNearer(s: State, step: Step)
    requires Inv(s) && Open(s)
    ensures Nearer(s, step)
  {
  }

  lemma AllNearer(s: State)
    requires Inv(s) && Open(s)
    ensures forall other :: Nearer(s, other)
  {
    forall other ensures Folded(Nearer(s, other)) { OpenNearer(s, other); }
  }

  /** The step of the mvm thread that comes next. */
  function NextMvm(m: MvmAt): Step {
    match m
    case Polling => Notice
    case Serving(_, _, _, _) => Serve(0, 0)
    case WriteRet(_, _) => Answer
    case WriteResult(_, _) => Answer
    case Acking(_, _) => Ack
    case _ => Read
  }

  /** No deadlock: a trap that cannot go on waits for an open request; the mvm thread can then
      move, and whatever is done meanwhile, by either side, brings the acknowledge nearer or
      leaves it as near as it was. */
  lemma Progress(s: State) returns (step: Step)
    requires Inv(s) && !s.at.Outside?
    ensures Enabled(s, step)
    ensures MvmStep(step) ==> Open(s) && (s.at.Waiting? || s.at.Sent?)
    ensures MvmStep(step) ==> forall other :: Nearer(s, other)
  {
    match s.at
    case Writing(_, _) => step := Write;
    case Raised(_) => step := SendOk;
    case Undoing(_, _) => step := Undo;
    case Returning(_, _) => step := Return;
    case _ =>
      if !Open(s) {
        step := if s.at.Waiting? then EndWait else EndTrap;
      } else {
        step := NextMvm(s.mvm);
        AllNearer(s);
      }
  }
}
