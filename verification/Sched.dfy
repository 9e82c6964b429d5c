/** The SMP real-time scheduler (sched.c): matching the highest ready priorities to CPUs,
    keeping a CPU on its task where possible.  Every CPU schedules globally. */
module Sched {
  import opened Sealing
  import opened PrioBitmap

  const OS_LOWEST_PRIO := 63
  const OS_PRIO_PCPU := 64
  const OS_PRIO_IDLE := 65
  const NONE := 66              // OS_PRIO_IDLE + 1: an unused slot of ncpu_highest

  // ----- the n smallest members of a set of priorities -----

  ghost predicate IsMin(r: set<nat>, p: nat) { p in r && forall q :: q in r ==> p <= q }

  lemma {:induction false} MinExists(r: set<nat>)
    requires r != {}
    ensures exists p :: IsMin(r, p)
    decreases r
  {
    var q :| q in r;
    if r == {q} {
      assert IsMin(r, q);
    } else {
      MinExists(r - {q});
      var p :| IsMin(r - {q}, p);
      var m := if p <= q then p else q;
      forall t | t in r
        ensures m <= t
      {
        if t != q { assert t in r - {q}; }
      }
      assert IsMin(r, m);
    }
  }

  ghost function Min(r: set<nat>): (p: nat)
    requires r != {}
    ensures IsMin(r, p)
  {
    MinExists(r);
    var p :| IsMin(r, p); p
  }

  /** The n smallest members, in order; fewer when there are fewer. */
  ghost function Smallest(r: set<nat>, n: nat): (s: seq<nat>)
    ensures |s| == if |r| < n then |r| else n
    decreases n
  {
    if n == 0 || r == {} then [] else [Min(r)] + Smallest(r - {Min(r)}, n - 1)
  }

  ghost function Below(r: set<nat>, v: nat): set<nat> { set u | u in r && u < v }

  /** They are exactly the members with fewer than n members below them. */
  lemma {:induction false} SmallestAre(r: set<nat>, n: nat, v: nat)
    ensures v in Smallest(r, n) <==> v in r && |Below(r, v)| < n
    decreases n
  {
    if n > 0 && r != {} {
      var m := Min(r);
      SmallestAre(r - {m}, n - 1, v);
      if v == m {
        assert Below(r, v) == {};
      } else if v in r {
        assert Below(r, v) == Below(r - {m}, v) + {m};
      }
    }
  }

  lemma {:induction false} SmallestDistinct(r: set<nat>, n: nat)
    ensures forall i, j :: 0 <= i < j < |Smallest(r, n)| ==> Smallest(r, n)[i] < Smallest(r, n)[j]
    decreases n
  {
    if n > 0 && r != {} {
      var m := Min(r);
      var s := Smallest(r - {m}, n - 1);
      SmallestDistinct(r - {m}, n - 1);
      forall j | 0 <= j < |s|
        ensures m < s[j]
      {
        SmallestAre(r - {m}, n - 1, s[j]);
      }
    }
  }

  function Fill(n: nat): (s: seq<nat>)
    ensures |s| == n && forall k :: 0 <= k < n ==> s[k] == NONE
  {
    seq(n, _ => NONE)
  }

  /** ncpu_highest: the n smallest ready priorities, then unused slots. */
  ghost function Slots(r: set<nat>, n: nat): (s: seq<nat>)
    ensures |s| == n
  {
    Smallest(r, n) + Fill(n - |Smallest(r, n)|)
  }

  /** One turn of the first loop of sched_new: look up the highest ready priority and clear it. */
  method TakeHighest(m: Bitmap) returns (p: nat, m': Bitmap)
    requires m.Valid() && !m.Empty()
    ensures m.Members() != {} && p == Min(m.Members())
    ensures m'.Valid() && m'.Members() == m.Members() - {p}
  {
    EmptyHasNoMembers(m);
    LowestIsMinimum(m);
    p := m.Lowest();
    ClearRemoves(m, p);
    m' := m.Clear(p);
  }

  /** The first i slots are filled, and the rest comes from the set r. */
  ghost predicate Filled(slots: seq<nat>, i: nat, all: set<nat>, r: set<nat>) {
    && i <= |slots| && Slots(all, |slots|) == slots[..i] + Slots(r, |slots| - i)
    && forall k :: i <= k < |slots| ==> slots[k] == NONE
  }

  lemma FilledStep(slots: seq<nat>, i: nat, all: set<nat>, r: set<nat>)
    requires Filled(slots, i, all, r) && i < |slots| && r != {}
    ensures Filled(slots[i := Min(r)], i + 1, all, r - {Min(r)})
  {
    SlotsStep(r, |slots| - i);
    var p := Min(r);
    assert slots[i := p][..i + 1] == slots[..i] + [p];
    assert slots[..i] + ([p] + Slots(r - {p}, |slots| - i - 1)) == slots[i := p][..i + 1] + Slots(r - {p}, |slots| - i - 1);
  }

  lemma FilledEnd(slots: seq<nat>, i: nat, all: set<nat>, r: set<nat>)
    requires Filled(slots, i, all, r) && (i < |slots| ==> r == {})
    ensures slots == Slots(all, |slots|)
  {
    if i < |slots| { NoSlots(|slots| - i); }
  }

  /** The first loop of sched_new, on copies of the bitmap. */
  method NcpuHighest(rdy: Bitmap, n: nat) returns (slots: seq<nat>)
    requires rdy.Valid() && !rdy.Empty() && n > 0
    ensures slots == Slots(rdy.Members(), n)
  {
    slots := Fill(n);
    var m, i, p := rdy, 0, 0;
    ghost var r := rdy.Members();
    while i < n
      invariant i <= n == |slots| && m.Valid() && r == m.Members() && (i < n ==> !m.Empty())
      invariant Filled(slots, i, rdy.Members(), r)
    {
      p, m := TakeHighest(m);
      FilledStep(slots, i, rdy.Members(), r);
      slots, r, i := slots[i := p], r - {p}, i + 1;
      if m.Empty() { break; }
    }
    if i < n { EmptyHasNoMembers(m); }
    FilledEnd(slots, i, rdy.Members(), r);
  }

  lemma SlotsStep(r: set<nat>, n: nat)
    requires r != {} && n > 0
    ensures Slots(r, n) == [Min(r)] + Slots(r - {Min(r)}, n - 1)
  {
  }

  lemma NoSlots(n: nat)
    ensures Slots({}, n) == Fill(n)
  {
    assert Smallest({}, n) == [];
    assert [] + Fill(n) == Fill(n);
  }

  // ----- which CPU gets which slot -----

  /** The elements of s that are not in t, in order. */
  function Out(s: seq<nat>, t: seq<nat>): (o: seq<nat>)
    ensures |o| <= |s|
  {
    if s == [] then []
    else Out(s[..|s| - 1], t) + (if s[|s| - 1] in t then [] else [s[|s| - 1]])
  }

  lemma {:induction false} OutConcat(s: seq<nat>, u: seq<nat>, t: seq<nat>)
    ensures Out(s + u, t) == Out(s, t) + Out(u, t)
  {
    if u == [] {
      assert s + u == s;
    } else {
      var v, x := u[..|u| - 1], u[|u| - 1];
      assert (s + u)[..|s + u| - 1] == s + v;
      OutConcat(s, v, t);
    }
  }

  /** An element of s outside t stands in Out at the number of such elements before it. */
  lemma OutAt(s: seq<nat>, t: seq<nat>, j: nat)
    requires j < |s| && s[j] !in t
    ensures |Out(s[..j], t)| < |Out(s, t)| && Out(s, t)[|Out(s[..j], t)|] == s[j]
  {
    assert s == (s[..j] + [s[j]]) + s[j + 1..];
    OutConcat(s[..j] + [s[j]], s[j + 1..], t);
    OutConcat(s[..j], [s[j]], t);
  }

  lemma OutStep(s: seq<nat>, t: seq<nat>, j: nat)
    requires j < |s|
    ensures |Out(s[..j + 1], t)| == |Out(s[..j], t)| + (if s[j] in t then 0 else 1)
    ensures |Out(s[..j + 1], t)| <= |Out(s, t)|
  {
    assert s[..j + 1][..j] == s[..j];
    assert s == s[..j + 1] + s[j + 1..];
    OutConcat(s[..j + 1], s[j + 1..], t);
  }

  ghost function Common(s: seq<nat>, t: seq<nat>): set<nat> { set v | v in s && v in t }

  lemma {:induction false} OutCount(s: seq<nat>, t: seq<nat>)
    requires forall i, j :: 0 <= i < j < |s| && s[i] in t ==> s[i] != s[j]
    ensures |Out(s, t)| + |Common(s, t)| == |s|
  {
    if s != [] {
      var v, x := s[..|s| - 1], s[|s| - 1];
      OutCount(v, t);
      assert s == v + [x];
      if x in t {
        assert Common(s, t) == Common(v, t) + {x};
        assert x !in Common(v, t);
      } else {
        assert Common(s, t) == Common(v, t);
      }
    }
  }

  /** No real-time priority is current on two CPUs. */
  ghost predicate Distinct(cur: seq<nat>) {
    && (forall i :: 0 <= i < |cur| ==> cur[i] <= OS_PRIO_PCPU)
    && forall i, j :: 0 <= i < j < |cur| && cur[i] <= OS_LOWEST_PRIO ==> cur[i] != cur[j]
  }

  /** Slots hold distinct real-time priorities, or nothing. */
  ghost predicate Slotted(slots: seq<nat>) {
    && (forall i :: 0 <= i < |slots| ==> slots[i] <= OS_LOWEST_PRIO || slots[i] == NONE)
    && forall i, j :: 0 <= i < j < |slots| && slots[i] <= OS_LOWEST_PRIO ==> slots[i] != slots[j]
  }

  lemma SlotsAreSlotted(r: set<nat>, n: nat)
    requires forall p :: p in r ==> p < PRIOS
    ensures Slotted(Slots(r, n))
  {
    SmallestDistinct(r, n);
    forall i | 0 <= i < |Smallest(r, n)|
      ensures Smallest(r, n)[i] in r
    {
      SmallestAre(r, n, Smallest(r, n)[i]);
    }
  }

  /** The slot of CPU i: its own priority if that is among the slots, else the next slot that is
      nobody's current priority. */
  function Assigned(cur: seq<nat>, slots: seq<nat>, i: nat): nat
    requires i < |cur|
  {
    if cur[i] in slots then cur[i]
    else
      var r := |Out(cur[..i], slots)|;
      if r < |Out(slots, cur)| then Out(slots, cur)[r] else NONE
  }

  /** As many slots are free as there are CPUs that must change. */
  lemma FreeSlotsSuffice(cur: seq<nat>, slots: seq<nat>)
    requires |cur| == |slots| && Distinct(cur) && Slotted(slots)
    ensures |Out(slots, cur)| == |Out(cur, slots)|
  {
    OutCount(slots, cur);
    OutCount(cur, slots);
    assert Common(slots, cur) == Common(cur, slots);
  }

  lemma RankInFree(cur: seq<nat>, slots: seq<nat>, i: nat)
    requires |cur| == |slots| && Distinct(cur) && Slotted(slots) && i < |cur| && cur[i] !in slots
    ensures |Out(cur[..i], slots)| < |Out(slots, cur)|
  {
    FreeSlotsSuffice(cur, slots);
    OutAt(cur, slots, i);
  }

  // ----- the second loop of sched_new -----

  /** What high_map holds after CPUs below i: the slots they have taken. */
  ghost predicate HighMap(high: seq<bool>, cur: seq<nat>, slots: seq<nat>, i: nat)
    requires i <= |cur|
  {
    && |high| == |slots|
    && forall j :: 0 <= j < |slots| ==>
         (high[j] <==> if slots[j] in cur then slots[j] in cur[..i]
                       else |Out(slots[..j], cur)| < |Out(cur[..i], slots)|)
  }

  /** What current_map holds: the CPUs below i that keep their task. */
  ghost predicate CurrentMap(keeps: seq<bool>, cur: seq<nat>, slots: seq<nat>, i: nat)
    requires i <= |cur|
  {
    |keeps| == |cur| && forall k :: 0 <= k < |cur| ==> (keeps[k] <==> k < i && cur[k] in slots)
  }

  method HasCurrentPrio(prio: nat, slots: seq<nat>, high: seq<bool>) returns (k: nat)
    requires |high| == |slots|
    ensures k == 0 ==> forall j :: 0 <= j < |slots| && slots[j] == prio ==> high[j]
    ensures k > 0 ==> k <= |slots| && slots[k - 1] == prio && !high[k - 1]
  {
    for i := 0 to |slots|
      invariant forall j :: 0 <= j < i && slots[j] == prio ==> high[j]
    {
      if prio == slots[i] && !high[i] { return i + 1; }
    }
    k := 0;
  }

  method HasHighPrio(prio: nat, cur: seq<nat>, keeps: seq<bool>) returns (has: bool)
    requires |keeps| == |cur|
    ensures has <==> exists i :: 0 <= i < |cur| && !keeps[i] && cur[i] == prio
  {
    for i := 0 to |cur|
      invariant forall j :: 0 <= j < i ==> keeps[j] || cur[j] != prio
    {
      if keeps[i] { continue; }
      if prio == cur[i] { return true; }
    }
    has := false;
  }

  /** The inner loop: the first slot that passes both tests, which is the next free one; |slots| if none does. */
  method FindSlot(cur: seq<nat>, slots: seq<nat>, high: seq<bool>, keeps: seq<bool>, ghost i: nat) returns (j: nat)
    requires |cur| == |slots| && i < |cur| && HighMap(high, cur, slots, i) && CurrentMap(keeps, cur, slots, i)
    ensures j <= |slots|
    ensures j < |slots| ==> slots[j] !in cur && |Out(slots[..j], cur)| == |Out(cur[..i], slots)|
    ensures j == |slots| ==> |Out(slots, cur)| <= |Out(cur[..i], slots)|
  {
    j := 0;
    while j < |slots|
      invariant j <= |slots| && |Out(slots[..j], cur)| <= |Out(cur[..i], slots)|
    {
      if !high[j] {
        var has := HasHighPrio(slots[j], cur, keeps);
        if !has {
          FreeSlotFound(cur, slots, high, keeps, i, j);
          return;
        }
        TakenSlot(cur, slots, keeps, i, j);
      }
      OutStep(slots, cur, j);
      j := j + 1;
    }
    assert slots[..j] == slots;
  }

  /** A slot that passes both tests is nobody's current priority. */
  lemma FreeSlotFound(cur: seq<nat>, slots: seq<nat>, high: seq<bool>, keeps: seq<bool>, i: nat, j: nat)
    requires |cur| == |slots| && i < |cur| && j < |slots|
    requires HighMap(high, cur, slots, i) && CurrentMap(keeps, cur, slots, i)
    requires !high[j] && !exists k :: 0 <= k < |cur| && !keeps[k] && cur[k] == slots[j]
    ensures slots[j] !in cur && |Out(slots[..j], cur)| >= |Out(cur[..i], slots)|
  {
    forall k | 0 <= k < |cur|
      ensures cur[k] != slots[j]
    {
      if k < i { assert cur[..i][k] == cur[k]; }
    }
  }

  lemma TakenSlot(cur: seq<nat>, slots: seq<nat>, keeps: seq<bool>, i: nat, j: nat)
    requires i < |cur| && j < |slots| && |keeps| == |cur| && exists k :: 0 <= k < |cur| && !keeps[k] && cur[k] == slots[j]
    ensures slots[j] in cur
  {
  }

  lemma InPrefix(cur: seq<nat>, i: nat, v: nat)
    requires i < |cur|
    ensures v in cur[..i + 1] <==> v in cur[..i] || v == cur[i]
  {
    assert cur[..i + 1] == cur[..i] + [cur[i]];
  }

  /** A keeper takes its own slot. */
  lemma KeeperTakes(high: seq<bool>, cur: seq<nat>, slots: seq<nat>, i: nat, k: nat)
    requires |cur| == |slots| && Distinct(cur) && Slotted(slots) && i < |cur|
    requires HighMap(high, cur, slots, i) && k < |slots| && slots[k] == cur[i]
    ensures HighMap(high[k := true], cur, slots, i + 1)
  {
    OutStep(cur, slots, i);
    forall j | 0 <= j < |slots|
      ensures high[k := true][j] <==> if slots[j] in cur then slots[j] in cur[..i + 1]
                                      else |Out(slots[..j], cur)| < |Out(cur[..i + 1], slots)|
    {
      InPrefix(cur, i, slots[j]);
    }
  }

  /** Another CPU takes the next free slot. */
  lemma ChangerTakes(high: seq<bool>, cur: seq<nat>, slots: seq<nat>, i: nat, k: nat)
    requires |cur| == |slots| && Distinct(cur) && Slotted(slots) && i < |cur| && cur[i] !in slots
    requires HighMap(high, cur, slots, i) && k < |slots| && slots[k] !in cur
    requires |Out(slots[..k], cur)| == |Out(cur[..i], slots)|
    ensures HighMap(high[k := true], cur, slots, i + 1)
    ensures slots[k] == Assigned(cur, slots, i)
  {
    OutStep(cur, slots, i);
    OutAt(slots, cur, k);
    forall j | 0 <= j < |slots|
      ensures high[k := true][j] <==> if slots[j] in cur then slots[j] in cur[..i + 1]
                                      else |Out(slots[..j], cur)| < |Out(cur[..i + 1], slots)|
    {
      if slots[j] in cur {
        InPrefix(cur, i, slots[j]);
      } else {
        SameRank(slots, cur, j, k);
      }
    }
  }

  /** Two free slots of the same number are the same slot. */
  lemma SameRank(slots: seq<nat>, cur: seq<nat>, j: nat, k: nat)
    requires j < |slots| && k < |slots| && slots[j] !in cur && slots[k] !in cur
    ensures |Out(slots[..j], cur)| == |Out(slots[..k], cur)| <==> j == k
    ensures j < k ==> |Out(slots[..j], cur)| < |Out(slots[..k], cur)|
  {
    if j < k {
      assert slots[..k][..j] == slots[..j];
      OutAt(slots[..k], cur, j);
    } else if k < j {
      assert slots[..j][..k] == slots[..k];
      OutAt(slots[..j], cur, k);
    }
  }

  lemma KeeperFound(high: seq<bool>, cur: seq<nat>, slots: seq<nat>, i: nat)
    requires |cur| == |slots| && Distinct(cur) && Slotted(slots) && i < |cur|
    requires HighMap(high, cur, slots, i) && cur[i] in slots
    ensures exists j :: 0 <= j < |slots| && slots[j] == cur[i] && !high[j]
  {
    var j :| 0 <= j < |slots| && slots[j] == cur[i];
    assert cur[i] !in cur[..i];
    assert !high[j];
  }

  /** One turn of the second loop of sched_new: CPU i takes a slot. */
  method TakeSlot(cur: seq<nat>, slots: seq<nat>, i: nat, high: seq<bool>, keeps: seq<bool>)
    returns (p: nat, high': seq<bool>, keeps': seq<bool>)
    requires |cur| == |slots| && Distinct(cur) && Slotted(slots) && i < |cur|
    requires Folded(HighMap(high, cur, slots, i)) && Folded(CurrentMap(keeps, cur, slots, i))
    ensures p == Assigned(cur, slots, i)
    ensures Folded(HighMap(high', cur, slots, i + 1)) && Folded(CurrentMap(keeps', cur, slots, i + 1))
  {
    var k := HasCurrentPrio(cur[i], slots, high);
    if cur[i] in slots { KeeperFound(high, cur, slots, i); }
    if k > 0 {
      KeeperTakes(high, cur, slots, i, k - 1);
      p, high', keeps' := cur[i], high[k - 1 := true], keeps[i := true];
    } else {
      var j := FindSlot(cur, slots, high, keeps, i);
      RankInFree(cur, slots, i);
      ChangerTakes(high, cur, slots, i, j);
      p, high', keeps' := slots[j], high[j := true], keeps;
    }
  }

  /** The second loop of sched_new. */
  method AssignSlots(cur: seq<nat>, slots: seq<nat>) returns (highest: seq<nat>)
    requires |cur| == |slots| && Distinct(cur) && Slotted(slots)
    ensures |highest| == |cur| && forall i :: 0 <= i < |cur| ==> highest[i] == Assigned(cur, slots, i)
  {
    var n := |cur|;
    highest := seq(n, _ => OS_PRIO_PCPU);
    var high, keeps, p := seq(n, _ => false), seq(n, _ => false), 0;
    for i := 0 to n
      invariant |highest| == n && forall k :: 0 <= k < i ==> highest[k] == Assigned(cur, slots, k)
      invariant Folded(HighMap(high, cur, slots, i)) && Folded(CurrentMap(keeps, cur, slots, i))
    {
      p, high, keeps := TakeSlot(cur, slots, i, high, keeps);
      highest := highest[i := p];
    }
  }

  // ----- the matching -----

  /** os_highest_rdy as the second and third loops leave it. */
  ghost function Highest(cur: seq<nat>, r: set<nat>): (h: seq<nat>)
    ensures |h| == |cur|
  {
    var slots := Slots(r, |cur|);
    seq(|cur|, i requires 0 <= i < |cur| => Clamped(Assigned(cur, slots, i)))
  }

  function Clamped(p: nat): nat { if p > OS_PRIO_PCPU then OS_PRIO_PCPU else p }

  /** sched_new */
  method SchedNew(rdy: Bitmap, cur: seq<nat>) returns (highest: seq<nat>)
    requires rdy.Valid() && |cur| > 0 && Distinct(cur)
    ensures highest == Highest(cur, rdy.Members())
  {
    var n := |cur|;
    highest := seq(n, _ => OS_PRIO_PCPU);
    EmptyHasNoMembers(rdy);
    if rdy.Empty() {
      NothingReady(cur);
      return;
    }
    var slots := NcpuHighest(rdy, n);
    SlotsAreSlotted(rdy.Members(), n);
    highest := AssignSlots(cur, slots);
    ghost var h := highest;
    for i := 0 to n
      invariant |highest| == n
      invariant forall k :: 0 <= k < n ==> highest[k] == if k < i then Clamped(h[k]) else h[k]
    {
      if highest[i] > OS_PRIO_PCPU { highest := highest[i := OS_PRIO_PCPU]; }
    }
  }

  lemma NothingReady(cur: seq<nat>)
    requires Distinct(cur)
    ensures Highest(cur, {}) == seq(|cur|, _ => OS_PRIO_PCPU)
  {
    NoSlots(|cur|);
    var slots := Slots({}, |cur|);
    forall i | 0 <= i < |cur|
      ensures Clamped(Assigned(cur, slots, i)) == OS_PRIO_PCPU
    {
      var r := |Out(cur[..i], slots)|;
      if r < |Out(slots, cur)| { OutMember(slots, cur, Out(slots, cur)[r]); }
    }
  }

  lemma {:induction false} OutMember(s: seq<nat>, t: seq<nat>, v: nat)
    ensures v in Out(s, t) <==> v in s && v !in t
  {
    if s != [] {
      OutMember(s[..|s| - 1], t, v);
      assert s == s[..|s| - 1] + [s[|s| - 1]];
    }
  }

  /** The priorities that should run on n CPUs: ready, with fewer than n ready ones above them. */
  ghost function Top(r: set<nat>, n: nat): set<nat> { set p | p in r && |Below(r, p)| < n }

  lemma TopIsSlots(r: set<nat>, n: nat, v: nat)
    requires forall p :: p in r ==> p < PRIOS
    ensures v in Top(r, n) <==> v in Slots(r, n) && v <= OS_LOWEST_PRIO
  {
    SmallestAre(r, n, v);
  }

  /** A CPU whose task is among the highest keeps it. */
  lemma KeepersKeep(cur: seq<nat>, r: set<nat>, i: nat)
    requires Distinct(cur) && i < |cur| && (forall p :: p in r ==> p < PRIOS) && cur[i] in Top(r, |cur|)
    ensures Highest(cur, r)[i] == cur[i]
  {
    TopIsSlots(r, |cur|, cur[i]);
  }

  /** Every real-time assignment is one of the highest ready priorities ... */
  lemma AssignedInTop(cur: seq<nat>, r: set<nat>, i: nat)
    requires Distinct(cur) && i < |cur| && (forall p :: p in r ==> p < PRIOS)
    ensures Highest(cur, r)[i] <= OS_PRIO_PCPU
    ensures Highest(cur, r)[i] <= OS_LOWEST_PRIO ==> Highest(cur, r)[i] in Top(r, |cur|)
  {
    var slots := Slots(r, |cur|);
    var v := Assigned(cur, slots, i);
    if v <= OS_LOWEST_PRIO {
      if cur[i] !in slots { OutMember(slots, cur, v); }
      TopIsSlots(r, |cur|, v);
    } else {
      SlotsAreSlotted(r, |cur|);
      if cur[i] !in slots && v != NONE { OutMember(slots, cur, v); }
    }
  }

  /** ... and each of these is given to some CPU ... */
  lemma TopIsAssigned(cur: seq<nat>, r: set<nat>, v: nat) returns (i: nat)
    requires |cur| > 0 && Distinct(cur) && (forall p :: p in r ==> p < PRIOS) && v in Top(r, |cur|)
    ensures i < |cur| && Highest(cur, r)[i] == v
  {
    var slots := Slots(r, |cur|);
    TopIsSlots(r, |cur|, v);
    SlotsAreSlotted(r, |cur|);
    if v in cur {
      i :| 0 <= i < |cur| && cur[i] == v;
    } else {
      OutMember(slots, cur, v);
      var q :| 0 <= q < |Out(slots, cur)| && Out(slots, cur)[q] == v;
      FreeSlotsSuffice(cur, slots);
      i := RankTaken(cur, slots, q);
    }
  }

  /** Every number below the count of changing CPUs is the number of one of them. */
  lemma {:induction false} RankTaken(cur: seq<nat>, slots: seq<nat>, q: nat) returns (i: nat)
    requires q < |Out(cur, slots)|
    ensures i < |cur| && cur[i] !in slots && |Out(cur[..i], slots)| == q
  {
    var v := cur[..|cur| - 1];
    if q < |Out(v, slots)| {
      i := RankTaken(v, slots, q);
      assert v[..i] == cur[..i];
    } else {
      i := |cur| - 1;
    }
  }

  /** ... and to only one. */
  lemma AssignedOnce(cur: seq<nat>, r: set<nat>, i: nat, j: nat)
    requires Distinct(cur) && i < j < |cur| && (forall p :: p in r ==> p < PRIOS)
    requires Highest(cur, r)[i] <= OS_LOWEST_PRIO
    ensures Highest(cur, r)[i] != Highest(cur, r)[j]
  {
    var slots := Slots(r, |cur|);
    SlotsAreSlotted(r, |cur|);
    var v, w := Assigned(cur, slots, i), Assigned(cur, slots, j);
    if cur[i] in slots && cur[j] !in slots {
      if w != NONE { OutMember(slots, cur, w); }
    } else if cur[i] !in slots && cur[j] in slots {
      OutMember(slots, cur, v);
    } else if cur[i] !in slots {
      RankInFree(cur, slots, j);
      assert cur[..j][..i] == cur[..i];
      OutAt(cur[..j], slots, i);
      OutOnce(slots, cur, |Out(cur[..i], slots)|, |Out(cur[..j], slots)|);
    }
  }

  /** Different places of Out hold different priorities. */
  lemma {:induction false} OutOnce(s: seq<nat>, t: seq<nat>, a: nat, b: nat)
    requires Slotted(s) && a < b < |Out(s, t)| && Out(s, t)[a] <= OS_LOWEST_PRIO
    ensures Out(s, t)[a] != Out(s, t)[b]
  {
    var v, x := s[..|s| - 1], s[|s| - 1];
    if b < |Out(v, t)| {
      OutOnce(v, t, a, b);
    } else {
      OutMember(v, t, Out(v, t)[a]);
      var k :| 0 <= k < |v| && v[k] == Out(v, t)[a];
      assert s[k] == Out(v, t)[a];
    }
  }

  ghost predicate Ascending(s: seq<nat>) { forall i, j :: 0 <= i < j < |s| ==> s[i] <= s[j] }

  lemma {:induction false} OutAscending(s: seq<nat>, t: seq<nat>)
    requires Ascending(s)
    ensures Ascending(Out(s, t))
  {
    if s != [] {
      var v := s[..|s| - 1];
      OutAscending(v, t);
      forall i | 0 <= i < |Out(v, t)| ensures Out(v, t)[i] <= s[|s| - 1] {
        OutMember(v, t, Out(v, t)[i]);
        var k :| 0 <= k < |v| && v[k] == Out(v, t)[i];
        assert s[k] == v[k];
      }
    }
  }

  /** Among the CPUs that change their task, those with lower numbers get the higher priorities. */
  lemma ChangersInOrder(cur: seq<nat>, r: set<nat>, i: nat, j: nat)
    requires Distinct(cur) && i < j < |cur| && (forall p :: p in r ==> p < PRIOS)
    requires cur[i] !in Top(r, |cur|) && cur[j] !in Top(r, |cur|)
    ensures Highest(cur, r)[i] <= Highest(cur, r)[j]
  {
    var slots := Slots(r, |cur|);
    SlotsAreSlotted(r, |cur|);
    SmallestDistinct(r, |cur|);
    TopIsSlots(r, |cur|, cur[i]);
    TopIsSlots(r, |cur|, cur[j]);
    RankInFree(cur, slots, i);
    RankInFree(cur, slots, j);
    OutAscending(slots, cur);
    RankOrder(cur, slots, i, j);
  }

  // ----- runs -----

  /** What matters of the scheduler's state: the ready priorities and each CPU's current one. */
  datatype State = State(ready: set<nat>, cur: seq<nat>) {
    ghost predicate Valid() {
      cur != [] && Distinct(cur) && forall p :: p in ready ==> p < PRIOS
    }
  }

  /** One step under the kernel lock. */
  datatype Step = Ready(p: nat) | Sleep(p: nat) | Resched(cpu: nat)

  ghost predicate Possible(cpus: nat, step: Step) {
    if step.Resched? then step.cpu < cpus else step.p < PRIOS
  }

  ghost function Next(s: State, step: Step): (s': State)
    requires Possible(|s.cur|, step)
    ensures |s'.cur| == |s.cur|
  {
    match step
    case Ready(p) => s.(ready := s.ready + {p})
    case Sleep(p) => s.(ready := s.ready - {p})
    case Resched(c) => s.(cur := s.cur[c := Highest(s.cur, s.ready)[c]])
  }

  /** Adopting an assignment never makes a priority current twice. */
  lemma StepSafe(s: State, step: Step)
    requires s.Valid() && Possible(|s.cur|, step)
    ensures Next(s, step).Valid()
  {
    if step.Resched? {
      var c, h := step.cpu, Highest(s.cur, s.ready);
      AssignedInTop(s.cur, s.ready, c);
      forall i | 0 <= i < |s.cur| && i != c && h[c] <= OS_LOWEST_PRIO
        ensures s.cur[i] != h[c]
      {
        var slots := Slots(s.ready, |s.cur|);
        if s.cur[c] !in slots { OutMember(slots, s.cur, h[c]); }
      }
    }
  }

  ghost function Run(s: State, steps: seq<Step>): State
    requires forall k :: 0 <= k < |steps| ==> Possible(|s.cur|, steps[k])
    ensures |Run(s, steps).cur| == |s.cur|
    decreases |steps|
  {
    if steps == [] then s else Run(Next(s, steps[0]), steps[1..])
  }

  /** Over every run, no real-time priority is current on two CPUs. */
  lemma {:induction false} RunSafe(s: State, steps: seq<Step>)
    requires s.Valid() && forall k :: 0 <= k < |steps| ==> Possible(|s.cur|, steps[k])
    ensures Run(s, steps).Valid()
    decreases |steps|
  {
    if steps != [] {
      StepSafe(s, steps[0]);
      RunSafe(Next(s, steps[0]), steps[1..]);
    }
  }

  /** Over every run, a priority is ready exactly when it was made ready, or was so at the start,
      and has not been put to sleep since. */
  lemma {:induction false} ReadyIffLast(s: State, steps: seq<Step>, p: nat)
    requires forall k :: 0 <= k < |steps| ==> Possible(|s.cur|, steps[k])
    ensures p in Run(s, steps).ready <==>
      || (exists k :: 0 <= k < |steps| && steps[k] == Ready(p) && forall j :: k < j < |steps| ==> steps[j] != Sleep(p))
      || (p in s.ready && forall j :: 0 <= j < |steps| ==> steps[j] != Sleep(p))
    decreases |steps|
  {
    if steps != [] {
      var s1, rest := Next(s, steps[0]), steps[1..];
      ReadyIffLast(s1, rest, p);
      assert forall j :: 0 < j < |steps| ==> steps[j] == rest[j - 1];
      assert forall j :: 0 <= j < |rest| ==> rest[j] == steps[j + 1];
    }
  }

  /** Over every run, a CPU's current priority changes only by its own resched. */
  lemma {:induction false} CurrentKept(s: State, steps: seq<Step>, c: nat)
    requires c < |s.cur| && forall k :: 0 <= k < |steps| ==> Possible(|s.cur|, steps[k])
    requires forall k :: 0 <= k < |steps| ==> steps[k] != Resched(c)
    ensures Run(s, steps).cur[c] == s.cur[c]
    decreases |steps|
  {
    if steps != [] { CurrentKept(Next(s, steps[0]), steps[1..], c); }
  }

  // ----- stability -----

  lemma {:induction false} OutSame(s: seq<nat>, t: seq<nat>, u: seq<nat>)
    requires forall v :: v in s ==> (v in t <==> v in u)
    ensures Out(s, t) == Out(s, u)
  {
    if s != [] { OutSame(s[..|s| - 1], t, u); }
  }

  lemma OutAround(x: seq<nat>, v: nat, y: seq<nat>, t: seq<nat>, u: seq<nat>)
    requires v !in t && v in u
    requires (forall w :: w in x ==> (w in t <==> w in u)) && (forall w :: w in y ==> (w in t <==> w in u))
    ensures Out((x + [v]) + y, t) == Out(x, t) + [v] + Out(y, t)
    ensures Out((x + [v]) + y, u) == Out(x, t) + Out(y, t)
  {
    OutConcat(x + [v], y, t);
    OutConcat(x, [v], t);
    OutConcat(x + [v], y, u);
    OutConcat(x, [v], u);
    OutSame(x, t, u);
    OutSame(y, t, u);
  }

  /** The one element at k leaves the free slots: the free slots before and after it stay. */
  lemma OutDrop(s: seq<nat>, t: seq<nat>, u: seq<nat>, k: nat) returns (a: seq<nat>, b: seq<nat>)
    requires Slotted(s) && k < |s| && s[k] <= OS_LOWEST_PRIO && s[k] !in t
    requires forall v :: v in s ==> (v in u <==> v in t || v == s[k])
    ensures |a| == |Out(s[..k], t)| && Out(s, t) == a + [s[k]] + b && Out(s, u) == a + b
  {
    var x, y := s[..k], s[k + 1..];
    assert s == (x + [s[k]]) + y;
    assert forall v :: v in x ==> v in s && v != s[k];
    assert forall v :: v in y ==> v in s && v != s[k];
    a, b := Out(x, t), Out(y, t);
    OutAround(x, s[k], y, t, u);
  }

  lemma RankUpdate(cur: seq<nat>, slots: seq<nat>, c: nat, w: nat, i: nat)
    requires c < |cur| && i <= |cur|
    ensures |Out(cur[c := w][..i], slots)| == |Out(cur[..i], slots)|
              - (if c < i && cur[c] !in slots then 1 else 0) + (if c < i && w !in slots then 1 else 0)
  {
    if c < i {
      var x, y := cur[..c], cur[c + 1..i];
      assert cur[..i] == (x + [cur[c]]) + y && cur[c := w][..i] == (x + [w]) + y;
      OutConcat(x + [cur[c]], y, slots);
      OutConcat(x, [cur[c]], slots);
      OutConcat(x + [w], y, slots);
      OutConcat(x, [w], slots);
    } else {
      assert cur[c := w][..i] == cur[..i];
    }
  }

  /** A CPU that goes to a per-CPU task changes no assignment. */
  lemma AdoptNone(cur: seq<nat>, slots: seq<nat>, c: nat, i: nat)
    requires Distinct(cur) && Slotted(slots) && c < |cur| && i < |cur| && cur[c] !in slots
    ensures Assigned(cur[c := OS_PRIO_PCPU], slots, i) == Assigned(cur, slots, i)
  {
    var cur' := cur[c := OS_PRIO_PCPU];
    forall v | v in slots
      ensures v in cur' <==> v in cur
    {
      if v in cur {
        var k :| 0 <= k < |cur| && cur[k] == v;
        assert cur'[k] == v;
      }
    }
    OutSame(slots, cur, cur');
    RankUpdate(cur, slots, c, OS_PRIO_PCPU, i);
  }

  lemma MemberAfter(cur: seq<nat>, slots: seq<nat>, c: nat, v: nat, u: nat)
    requires c < |cur| && cur[c] !in slots && u in slots
    ensures u in cur[c := v] <==> u in cur || u == v
  {
    var cur' := cur[c := v];
    assert cur'[c] == v;
    if u in cur {
      var k :| 0 <= k < |cur| && cur[k] == u;
      assert cur'[k] == u;
    }
  }

  /** A CPU adopting the slot v takes exactly v out of the free slots. */
  lemma AdoptOut(cur: seq<nat>, slots: seq<nat>, c: nat, v: nat) returns (x: seq<nat>, y: seq<nat>)
    requires |cur| == |slots| && Distinct(cur) && Slotted(slots) && c < |cur|
    requires cur[c] !in slots && v == Assigned(cur, slots, c) <= OS_LOWEST_PRIO
    ensures Out(slots, cur) == x + [v] + y && Out(slots, cur[c := v]) == x + y
    ensures |x| == |Out(cur[..c], slots)| && v in slots && v !in cur
  {
    OutMember(slots, cur, v);
    var k := SlotOf(slots, cur, |Out(cur[..c], slots)|);
    forall u | u in slots
      ensures u in cur[c := v] <==> u in cur || u == v
    {
      MemberAfter(cur, slots, c, v, u);
    }
    x, y := OutDrop(slots, cur, cur[c := v], k);
  }

  /** A CPU that goes to a free slot changes no assignment. */
  lemma AdoptSlot(cur: seq<nat>, slots: seq<nat>, c: nat, i: nat)
    requires |cur| == |slots| && Distinct(cur) && Slotted(slots) && c < |cur| && i < |cur|
    requires cur[c] !in slots && Assigned(cur, slots, c) <= OS_LOWEST_PRIO
    ensures Assigned(cur[c := Assigned(cur, slots, c)], slots, i) == Assigned(cur, slots, i)
  {
    var v := Assigned(cur, slots, c);
    var x, y := AdoptOut(cur, slots, c, v);
    RankUpdate(cur, slots, c, v, i);
    if i != c && cur[i] !in slots {
      RankInFree(cur, slots, i);
      RankOrder(cur, slots, c, i);
    }
  }

  /** Among CPUs that must change, ranks follow the order of the CPUs. */
  lemma RankOrder(cur: seq<nat>, slots: seq<nat>, c: nat, i: nat)
    requires c < |cur| && i < |cur| && c != i && cur[c] !in slots && cur[i] !in slots
    ensures if i < c then |Out(cur[..i], slots)| < |Out(cur[..c], slots)| else |Out(cur[..c], slots)| < |Out(cur[..i], slots)|
  {
    if i < c {
      assert cur[..c][..i] == cur[..i];
      OutAt(cur[..c], slots, i);
    } else {
      assert cur[..i][..c] == cur[..c];
      OutAt(cur[..i], slots, c);
    }
  }

  /** The slot behind the q-th free one. */
  lemma {:induction false} SlotOf(s: seq<nat>, t: seq<nat>, q: nat) returns (k: nat)
    requires q < |Out(s, t)|
    ensures k < |s| && s[k] == Out(s, t)[q] && s[k] !in t && |Out(s[..k], t)| == q
  {
    var v := s[..|s| - 1];
    if q < |Out(v, t)| {
      k := SlotOf(v, t, q);
      assert v[..k] == s[..k];
    } else {
      k := |s| - 1;
    }
  }

  /** With the ready set fixed, a CPU adopting its assignment leaves every assignment unchanged. */
  lemma AdoptingIsStable(cur: seq<nat>, r: set<nat>, c: nat)
    requires Distinct(cur) && c < |cur| && (forall p :: p in r ==> p < PRIOS)
    ensures Highest(cur[c := Highest(cur, r)[c]], r) == Highest(cur, r)
  {
    var slots := Slots(r, |cur|);
    SlotsAreSlotted(r, |cur|);
    var h := Highest(cur, r);
    var cur' := cur[c := h[c]];
    forall i | 0 <= i < |cur|
      ensures Clamped(Assigned(cur', slots, i)) == Clamped(Assigned(cur, slots, i))
    {
      if cur[c] in slots {
        assert cur' == cur;
      } else {
        RankInFree(cur, slots, c);
        OutMember(slots, cur, Assigned(cur, slots, c));
        if Assigned(cur, slots, c) <= OS_LOWEST_PRIO {
          AdoptSlot(cur, slots, c, i);
        } else {
          AdoptNone(cur, slots, c, i);
        }
      }
    }
  }

  function Rescheds(cpus: seq<nat>): (steps: seq<Step>)
    ensures |steps| == |cpus| && forall k :: 0 <= k < |cpus| ==> steps[k] == Resched(cpus[k])
  {
    seq(|cpus|, k requires 0 <= k < |cpus| => Resched(cpus[k]))
  }

  /** Rescheduling CPUs in any order: each of them gets the assignment it had at the start. */
  lemma {:induction false} ReschedsAdopt(s: State, cpus: seq<nat>)
    requires s.Valid() && forall k :: 0 <= k < |cpus| ==> cpus[k] < |s.cur|
    ensures var h, e := Highest(s.cur, s.ready), Run(s, Rescheds(cpus));
            && e.ready == s.ready && Highest(e.cur, e.ready) == h
            && forall i :: 0 <= i < |s.cur| ==> e.cur[i] == if i in cpus then h[i] else s.cur[i]
    decreases |cpus|
  {
    if cpus != [] {
      var s1 := Next(s, Resched(cpus[0]));
      StepSafe(s, Resched(cpus[0]));
      AdoptingIsStable(s.cur, s.ready, cpus[0]);
      ReschedsAdopt(s1, cpus[1..]);
      assert Rescheds(cpus)[1..] == Rescheds(cpus[1..]);
      assert cpus == [cpus[0]] + cpus[1..];
    }
  }

  /** One resched of every flagged CPU, in any order, and exactly the highest ready priorities run. */
  lemma ReschedsReachTop(s: State, cpus: seq<nat>, v: nat)
    requires s.Valid() && (forall k :: 0 <= k < |cpus| ==> cpus[k] < |s.cur|) && v <= OS_LOWEST_PRIO
    requires forall i :: 0 <= i < |s.cur| && s.cur[i] != Highest(s.cur, s.ready)[i] ==> i in cpus
    ensures Run(s, Rescheds(cpus)).cur == Highest(s.cur, s.ready)
    ensures v in Run(s, Rescheds(cpus)).cur <==> v in Top(s.ready, |s.cur|)
  {
    ReschedsAdopt(s, cpus);
    var e := Run(s, Rescheds(cpus));
    assert e.cur == Highest(s.cur, s.ready);
    if v in e.cur {
      var i :| 0 <= i < |e.cur| && e.cur[i] == v;
      AssignedInTop(s.cur, s.ready, i);
    }
    if v in Top(s.ready, |s.cur|) {
      var i := TopIsAssigned(s.cur, s.ready, v);
    }
  }

  // ----- the scheduler as an object -----

  class Scheduler {
    var rdy: Bitmap
    var cur: seq<nat>        // os_prio_cur
    var highest: seq<nat>    // os_highest_rdy

    ghost predicate Valid()
      reads this
    {
      rdy.Valid() && cur != [] && Distinct(cur)
    }

    ghost function View(): State
      reads this
      requires rdy.Valid()
    {
      State(rdy.Members(), cur)
    }

    /** A machine of n CPUs, all on a per-CPU task, with nothing ready. */
    constructor (n: nat)
      requires n > 0
      ensures Valid() && View() == State({}, seq(n, _ => OS_PRIO_PCPU))
    {
      rdy := Bitmap(0, [0, 0, 0, 0, 0, 0, 0, 0]);
      cur := seq(n, _ => OS_PRIO_PCPU);
      highest := seq(n, _ => OS_PRIO_PCPU);
      new;
      EmptyHasNoMembers(rdy);
    }

    /** set_task_ready for a real-time task. */
    method SetTaskReady(prio: nat)
      requires Valid() && prio < PRIOS
      modifies this`rdy
      ensures Valid() && View() == Next(old(View()), Ready(prio))
      ensures rdy.Members() == old(rdy.Members()) + {prio} && cur == old(cur) && highest == old(highest)
    {
      SetAdds(rdy, prio);
      rdy := rdy.Set(prio);
    }

    /** set_task_sleep for a real-time task. */
    method SetTaskSleep(prio: nat)
      requires Valid() && prio < PRIOS
      modifies this`rdy
      ensures Valid() && View() == Next(old(View()), Sleep(prio))
      ensures rdy.Members() == old(rdy.Members()) - {prio} && cur == old(cur) && highest == old(highest)
    {
      ClearRemoves(rdy, prio);
      rdy := rdy.Clear(prio);
    }

    /** global_sched and the switch on one CPU; flagged says which others are sent a resched. */
    method GlobalSched(cpu: nat) returns (flagged: seq<bool>)
      requires Valid() && cpu < |cur|
      modifies this`cur, this`highest
      ensures Valid() && View() == Next(old(View()), Resched(cpu))
      ensures highest == Highest(old(cur), rdy.Members()) && rdy == old(rdy) && cur == old(cur)[cpu := highest[cpu]]
      ensures |flagged| == |cur| && forall i :: 0 <= i < |cur| ==> (flagged[i] <==> i != cpu && cur[i] != highest[i])
    {
      var h := SchedNew(rdy, cur);
      highest := h;
      flagged := seq(|cur|, _ => false);
      for i := 0 to |cur|
        invariant |flagged| == |cur|
        invariant forall k :: 0 <= k < |cur| ==> (flagged[k] <==> k < i && k != cpu && cur[k] != highest[k])
      {
        if cur[i] != highest[i] && i != cpu { flagged := flagged[i := true]; }
      }
      StepSafe(View(), Resched(cpu));
      // a real-time task by its priority, else a per-CPU task or the idle task
      cur := cur[cpu := if highest[cpu] <= OS_LOWEST_PRIO then highest[cpu] else OS_PRIO_PCPU];
    }
  }
}
