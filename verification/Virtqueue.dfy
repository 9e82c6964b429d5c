/** The device side of a split virtqueue (virtio.c, virtio.h; Virtio 1.0 sections 2.4.5 to 2.4.9):
    free-running 16-bit indices over rings of num entries refine counters that never wrap. */
module Virtqueue {
  import opened Bitwise

  const WRAP := 65536
  type u16 = x: int | 0 <= x < WRAP
  const EINVAL := -22
  const ENOMEM := -12

  /** (uint16_t)x */
  function U16(x: int): u16 { x % WRAP }

  // ----- remainders -----

  lemma {:induction false} MulMonotone(n: nat, a: int, b: int)
    requires a < b
    ensures n * a + n <= n * b
    decreases b - a
  {
    if a + 1 < b { MulMonotone(n, a + 1, b); }
    assert n * (a + 1) == n * a + n;
  }

  lemma ModUnique(x: int, n: nat, q: int, r: nat)
    requires n > 0 && r < n && x == n * q + r
    ensures x % n == r && x / n == q
  {
    var p := x / n;
    assert x == n * p + x % n;
    if p < q { MulMonotone(n, p, q); }
    if q < p { MulMonotone(n, q, p); }
  }

  /** Numbers closer than n have different remainders. */
  lemma ModDistinct(i: nat, j: nat, n: nat)
    requires n > 0 && i < j < i + n
    ensures i % n != j % n
  {
    var q, a, d := i / n, i % n, j - i;
    if a + d < n {
      ModUnique(j, n, q, a + d);
    } else {
      assert n * (q + 1) == n * q + n;
      ModUnique(j, n, q + 1, a + d - n);
    }
  }

  /** The queue sizes the device accepts: powers of two up to 1024. */
  predicate QueueSize(n: nat) { PowerOfTwo(n) && n <= 1024 }

  /** A power of two divides every larger one. */
  lemma {:induction false} PowerDivides(n: nat, w: nat) returns (c: nat)
    requires PowerOfTwo(n) && PowerOfTwo(w) && n <= w
    ensures n * c == w
    decreases n
  {
    if n == 1 {
      c := w;
    } else {
      c := PowerDivides(n / 2, w / 2);
      assert n == 2 * (n / 2) && w == 2 * (w / 2);
      assert n * c == 2 * ((n / 2) * c);
    }
  }

  lemma WrapIsPower()
    ensures PowerOfTwo(WRAP)
  {
    assert PowerOfTwo(4);
    assert PowerOfTwo(16);
    assert PowerOfTwo(64);
    assert PowerOfTwo(256);
    assert PowerOfTwo(1024);
    assert PowerOfTwo(4096);
    assert PowerOfTwo(16384);
  }

  lemma TwoDigits(x: nat, n: nat, c: nat, q: nat, b: nat, a: nat)
    requires n * c == WRAP && x == WRAP * q + (n * b + a)
    ensures x == n * (c * q + b) + a
  {
    assert (n * c) * q == n * (c * q);
    assert n * (c * q + b) == n * (c * q) + n * b;
  }

  /** A number modulo 2^16 has the same remainder by any divisor of 2^16. */
  lemma SameRemainderInWrap(x: nat, n: nat, c: nat)
    requires n > 0 && n * c == WRAP
    ensures (x % WRAP) % n == x % n
  {
    var r := x % WRAP;
    TwoDigits(x, n, c, x / WRAP, r / n, r % n);
    ModUnique(x, n, c * (x / WRAP) + r / n, r % n);
  }

  /** The index modulo 2^16, masked to the ring as the code does it, is the counter modulo the ring size. */
  lemma RingSlot(x: nat, n: nat)
    requires QueueSize(n)
    ensures n > 0 && Masked(U16(x), n) == x % n
  {
    AndIsMod(U16(x), n);
    WrapIsPower();
    var c := PowerDivides(n, WRAP);
    SameRemainderInWrap(x, n, c);
  }

  /** index & (num - 1) */
  function Masked(index: u16, n: nat): (r: nat)
    requires n > 0
    ensures r < n
  {
    And(index, n - 1)
  }

  lemma AddWraps(x: nat, d: nat)
    ensures U16(U16(x) + d) == U16(x + d)
  {
  }

  lemma SubWraps(x: nat, d: int)
    requires d <= x
    ensures U16(U16(x) - d) == U16(x - d)
  {
  }

  /** The 16-bit difference of two counters less than 2^16 apart is their distance. */
  lemma DistanceWraps(a: nat, b: nat)
    requires b <= a < b + WRAP
    ensures U16(U16(a) - U16(b)) == a - b
  {
  }

  // ----- descriptor chains -----

  datatype Desc = Desc(addr: nat, len: nat, indirect: bool, write: bool, hasNext: bool, next: u16)
  datatype Iov = Iov(base: nat, len: nat)

  /** The buffers found so far: how many the guest reads from the device, and how many it wrote. */
  datatype Bufs = Bufs(iov: seq<Iov>, ins: nat, outs: nat) {
    function Add(d: Desc, write: bool): Bufs {
      Bufs(iov + [Iov(d.addr, d.len)], if write then ins + 1 else ins, if write then outs else outs + 1)
    }
  }

  datatype Result<T> = Ok(value: T) | Err(code: int)

  /** The walk of get_indirect_buf; write is the flag of the descriptor that points to the table. */
  function IndirectFrom(table: nat -> Desc, nr: nat, write: bool, i: nat, b: Bufs, iovSize: nat): (r: Result<Bufs>)
    requires |b.iov| < iovSize
    ensures r.Ok? ==> |b.iov| < |r.value.iov| < iovSize
    decreases iovSize - |b.iov|
  {
    var d := table(i);
    if d.indirect then Err(EINVAL)
    else
      var b' := b.Add(d, write);
      if |b'.iov| >= iovSize then Err(ENOMEM)
      else if !d.hasNext then Ok(b')
      else if d.next >= nr then Err(EINVAL)
      else IndirectFrom(table, nr, write, d.next, b', iovSize)
  }

  function Indirect(tables: nat -> nat -> Desc, d: Desc, b: Bufs, iovSize: nat): (r: Result<Bufs>)
    requires |b.iov| < iovSize
    ensures r.Ok? ==> |b.iov| < |r.value.iov| < iovSize
  {
    if d.len % 16 != 0 || d.len / 16 == 0 then Err(EINVAL)
    else IndirectFrom(tables(d.addr), d.len / 16, d.write, 0, b, iovSize)
  }

  /** The walk of virtq_get_descs from descriptor i. */
  function ChainFrom(desc: seq<Desc>, tables: nat -> nat -> Desc, i: nat, b: Bufs, iovSize: nat): (r: Result<Bufs>)
    ensures r.Ok? ==> |b.iov| < |r.value.iov| <= iovSize
    decreases if |b.iov| <= iovSize then iovSize - |b.iov| else 0
  {
    if |b.iov| >= iovSize then Err(ENOMEM)
    else if i >= |desc| then Err(EINVAL)
    else
      var d := desc[i];
      var step := if d.indirect then Indirect(tables, d, b, iovSize) else Ok(b.Add(d, d.write));
      if step.Err? || !d.hasNext then step
      else ChainFrom(desc, tables, d.next, step.value, iovSize)
  }

  /** Descriptor at[k] is a plain one, and leads to the next of the chain or ends it. */
  ghost predicate Linked(table: nat -> Desc, nr: nat, at: seq<nat>, k: nat)
    requires k < |at|
  {
    var d := table(at[k]);
    !d.indirect && (d.hasNext <==> k + 1 < |at|) && (k + 1 < |at| ==> d.next == at[k + 1] < nr)
  }

  /** Descriptors that follow each other by their next fields to the end of the chain, within nr. */
  ghost predicate IsChain(table: nat -> Desc, nr: nat, at: seq<nat>) {
    at != [] && forall k :: 0 <= k < |at| ==> Linked(table, nr, at, k)
  }

  function Buffers(table: nat -> Desc, at: seq<nat>): (s: seq<Iov>)
    ensures |s| == |at|
  {
    if at == [] then [] else [Iov(table(at[0]).addr, table(at[0]).len)] + Buffers(table, at[1..])
  }

  lemma {:induction false} BufferAt(table: nat -> Desc, at: seq<nat>, k: nat)
    requires k < |at|
    ensures Buffers(table, at)[k] == Iov(table(at[k]).addr, table(at[k]).len)
  {
    if k > 0 { BufferAt(table, at[1..], k - 1); }
  }

  function Writes(table: nat -> Desc, at: seq<nat>): (n: nat)
    ensures n <= |at|
  {
    if at == [] then 0 else (if table(at[0]).write then 1 else 0) + Writes(table, at[1..])
  }

  lemma ChainTail(table: nat -> Desc, nr: nat, at: seq<nat>)
    requires IsChain(table, nr, at) && |at| > 1
    ensures IsChain(table, nr, at[1..]) && at[1] < nr && table(at[0]).next == at[1]
  {
    assert Linked(table, nr, at, 0);
    forall k | 0 <= k < |at[1..]|
      ensures Linked(table, nr, at[1..], k)
    {
      assert Linked(table, nr, at, k + 1);
    }
  }

  /** The first buffer of a chain, and the others after it. */
  lemma FirstBuffer(table: nat -> Desc, at: seq<nat>, b: Bufs, b': Bufs, write: bool)
    requires at != [] && b' == b.Add(table(at[0]), write)
    ensures b.iov + Buffers(table, at) == b'.iov + Buffers(table, at[1..])
    ensures |at| == 1 ==> b.iov + Buffers(table, at) == b'.iov
  {
    var x, rest := [Iov(table(at[0]).addr, table(at[0]).len)], Buffers(table, at[1..]);
    Regroup(b.iov, x, rest);
    if |at| == 1 { assert at[1..] == []; }
  }

  lemma Regroup(a: seq<Iov>, b: seq<Iov>, c: seq<Iov>)
    ensures a + (b + c) == (a + b) + c && a + (b + []) == a + b
  {
  }

  /** A well-formed indirect table is accepted exactly when it leaves an entry of iov unused, and
      then its buffers are appended in order and all counted by the outer descriptor's flag. */
  lemma {:induction false} IndirectExact(table: nat -> Desc, nr: nat, write: bool, at: seq<nat>, b: Bufs, iovSize: nat)
    requires IsChain(table, nr, at) && |b.iov| < iovSize
    ensures IndirectFrom(table, nr, write, at[0], b, iovSize) ==
      if |b.iov| + |at| < iovSize
      then Ok(Bufs(b.iov + Buffers(table, at), b.ins + (if write then |at| else 0), b.outs + (if write then 0 else |at|)))
      else Err(ENOMEM)
    decreases |at|
  {
    assert Linked(table, nr, at, 0);
    var b' := b.Add(table(at[0]), write);
    FirstBuffer(table, at, b, b', write);
    if |at| > 1 {
      ChainTail(table, nr, at);
      if |b'.iov| < iovSize { IndirectExact(table, nr, write, at[1..], b', iovSize); }
    }
  }

  /** So the counts are those of the descriptors themselves exactly when all agree with the outer flag. */
  lemma IndirectCounts(table: nat -> Desc, nr: nat, write: bool, at: seq<nat>, b: Bufs, iovSize: nat)
    requires IsChain(table, nr, at) && |b.iov| + |at| < iovSize
    ensures IndirectFrom(table, nr, write, at[0], b, iovSize).Ok?
    ensures IndirectFrom(table, nr, write, at[0], b, iovSize).value.ins == b.ins + Writes(table, at) <==>
              (forall k :: 0 <= k < |at| ==> table(at[k]).write == write)
  {
    IndirectExact(table, nr, write, at, b, iovSize);
    WritesAll(table, at);
  }

  lemma {:induction false} WritesAll(table: nat -> Desc, at: seq<nat>)
    ensures Writes(table, at) == |at| <==> forall k :: 0 <= k < |at| ==> table(at[k]).write
    ensures Writes(table, at) == 0 <==> forall k :: 0 <= k < |at| ==> !table(at[k]).write
  {
    if at != [] {
      WritesAll(table, at[1..]);
      assert forall k :: 1 <= k < |at| ==> at[k] == at[1..][k - 1];
      assert forall k :: 0 <= k < |at| - 1 ==> at[1..][k] == at[k + 1];
    }
  }

  /** A table of one descriptor for a device with one iov entry fails although it fits. */
  lemma ExactFitFails(d: Desc)
    requires !d.indirect && !d.hasNext
    ensures IndirectFrom((_: nat) => d, 1, true, 0, Bufs([], 0, 0), 1) == Err(ENOMEM)
  {
  }

  /** A table of one writable descriptor behind an outer one that is not: its buffer is counted as output. */
  lemma IndirectMiscounts(table: nat -> Desc)
    requires table(0) == Desc(0x1000, 64, false, true, false, 0)
    ensures IndirectFrom(table, 1, false, 0, Bufs([], 0, 0), 2) == Ok(Bufs([Iov(0x1000, 64)], 0, 1))
    ensures Writes(table, [0]) == 1
  {
    assert [0][1..] == [];
    assert Bufs([], 0, 0).Add(table(0), false) == Bufs([Iov(0x1000, 64)], 0, 1);
  }

  function TableOf(desc: seq<Desc>): nat -> Desc
    requires |desc| > 0
  {
    (i: nat) => if i < |desc| then desc[i] else desc[0]
  }

  /** A chain of plain descriptors is accepted exactly when it fits, in order and with its own flags. */
  lemma {:induction false} DirectExact(desc: seq<Desc>, tables: nat -> nat -> Desc, at: seq<nat>, b: Bufs, iovSize: nat)
    requires |desc| > 0 && IsChain(TableOf(desc), |desc|, at) && at[0] < |desc|
    ensures ChainFrom(desc, tables, at[0], b, iovSize) ==
      var table := TableOf(desc);
      if |b.iov| + |at| <= iovSize
      then Ok(Bufs(b.iov + Buffers(table, at), b.ins + Writes(table, at), b.outs + |at| - Writes(table, at)))
      else Err(ENOMEM)
    decreases |at|
  {
    var table := TableOf(desc);
    var d := desc[at[0]];
    assert Linked(table, |desc|, at, 0) && d == table(at[0]);
    if |b.iov| < iovSize {
      var b' := b.Add(d, d.write);
      if |at| > 1 {
        ChainTail(table, |desc|, at);
        assert b.iov + Buffers(table, at) == b'.iov + Buffers(table, at[1..]);
        DirectExact(desc, tables, at[1..], b', iovSize);
      } else {
        assert at[1..] == [];
        assert b.iov + Buffers(table, at) == b'.iov;
      }
    }
  }

  // ----- chains of plain and indirect descriptors -----

  /** Descriptor at[k] leads to the next of the chain or ends it; if it is indirect, inner is the chain
      of its table, from entry 0 on, within the entries that its length has room for. */
  ghost predicate Joined(desc: seq<Desc>, tables: nat -> nat -> Desc, at: seq<nat>, k: nat, inner: seq<nat>)
    requires k < |at|
  {
    && at[k] < |desc|
    && var d := desc[at[k]];
       && (d.hasNext <==> k + 1 < |at|) && (k + 1 < |at| ==> d.next == at[k + 1])
       && (d.indirect ==> d.len % 16 == 0 && IsChain(tables(d.addr), d.len / 16, inner) && inner[0] == 0 < d.len / 16)
  }

  ghost predicate IsMixed(desc: seq<Desc>, tables: nat -> nat -> Desc, at: seq<nat>, inner: seq<seq<nat>>) {
    at != [] && |inner| == |at| && forall k :: 0 <= k < |at| ==> Joined(desc, tables, at, k, inner[k])
  }

  lemma MixedTail(desc: seq<Desc>, tables: nat -> nat -> Desc, at: seq<nat>, inner: seq<seq<nat>>)
    requires IsMixed(desc, tables, at, inner) && |at| > 1
    ensures IsMixed(desc, tables, at[1..], inner[1..]) && at[0] < |desc| && desc[at[0]].next == at[1]
  {
    assert Joined(desc, tables, at, 0, inner[0]);
    forall k | 0 <= k < |at[1..]| ensures Joined(desc, tables, at[1..], k, inner[1..][k]) {
      assert Joined(desc, tables, at, k + 1, inner[k + 1]);
    }
  }

  /** What one descriptor adds: its own buffer, or those of its table, all with its own flag. */
  ghost function With(b: Bufs, tables: nat -> nat -> Desc, d: Desc, inner: seq<nat>): Bufs {
    if d.indirect then
      Bufs(b.iov + Buffers(tables(d.addr), inner), b.ins + (if d.write then |inner| else 0), b.outs + (if d.write then 0 else |inner|))
    else Bufs(b.iov + [Iov(d.addr, d.len)], b.ins + (if d.write then 1 else 0), b.outs + (if d.write then 0 else 1))
  }

  /** What the whole chain adds, in order. */
  ghost function WithAll(b: Bufs, desc: seq<Desc>, tables: nat -> nat -> Desc, at: seq<nat>, inner: seq<seq<nat>>): Bufs
    requires |inner| == |at| && forall k :: 0 <= k < |at| ==> at[k] < |desc|
    decreases |at|
  {
    if at == [] then b else WithAll(With(b, tables, desc[at[0]], inner[0]), desc, tables, at[1..], inner[1..])
  }

  /** Every descriptor of a chain adds at least one buffer. */
  lemma {:induction false} AllGrow(b: Bufs, desc: seq<Desc>, tables: nat -> nat -> Desc, at: seq<nat>, inner: seq<seq<nat>>)
    requires IsMixed(desc, tables, at, inner)
    ensures forall k :: 0 <= k < |at| ==> at[k] < |desc|
    ensures |WithAll(b, desc, tables, at, inner).iov| >= |With(b, tables, desc[at[0]], inner[0]).iov| + |at| - 1 >= |b.iov| + |at|
    decreases |at|
  {
    assert forall k :: 0 <= k < |at| ==> Joined(desc, tables, at, k, inner[k]);
    assert Joined(desc, tables, at, 0, inner[0]);
    var b' := With(b, tables, desc[at[0]], inner[0]);
    assert |b'.iov| >= |b.iov| + 1;
    if |at| > 1 {
      MixedTail(desc, tables, at, inner);
      AllGrow(b', desc, tables, at[1..], inner[1..]);
      assert WithAll(b, desc, tables, at, inner) == WithAll(b', desc, tables, at[1..], inner[1..]);
    } else {
      assert at[1..] == [];
      assert WithAll(b, desc, tables, at, inner) == b';
    }
  }

  /** A chain is accepted exactly when its buffers fit in iov, with an entry to spare if its last
      descriptor is indirect; then they are all there, in order. */
  lemma {:induction false} ChainExact(desc: seq<Desc>, tables: nat -> nat -> Desc, at: seq<nat>, inner: seq<seq<nat>>, b: Bufs, iovSize: nat)
    requires IsMixed(desc, tables, at, inner)
    ensures forall k :: 0 <= k < |at| ==> at[k] < |desc|
    ensures var all := WithAll(b, desc, tables, at, inner);
            ChainFrom(desc, tables, at[0], b, iovSize) ==
              if |all.iov| < iovSize || (|all.iov| == iovSize && !desc[at[|at| - 1]].indirect) then Ok(all) else Err(ENOMEM)
    decreases |at|
  {
    AllGrow(b, desc, tables, at, inner);
    assert Joined(desc, tables, at, 0, inner[0]);
    var d := desc[at[0]];
    var b' := With(b, tables, d, inner[0]);
    if |b.iov| < iovSize {
      StepExact(tables, d, inner[0], b, iovSize);
      if |at| > 1 {
        MixedTail(desc, tables, at, inner);
        if !(d.indirect && |b'.iov| >= iovSize) { ChainExact(desc, tables, at[1..], inner[1..], b', iovSize); }
      } else {
        assert at[1..] == [];
      }
    }
  }

  lemma StepExact(tables: nat -> nat -> Desc, d: Desc, inner: seq<nat>, b: Bufs, iovSize: nat)
    requires |b.iov| < iovSize
    requires d.indirect ==> d.len % 16 == 0 && IsChain(tables(d.addr), d.len / 16, inner) && inner[0] == 0 < d.len / 16
    ensures d.indirect ==>
      Indirect(tables, d, b, iovSize) == if |With(b, tables, d, inner).iov| < iovSize then Ok(With(b, tables, d, inner)) else Err(ENOMEM)
    ensures !d.indirect ==> b.Add(d, d.write) == With(b, tables, d, inner)
  {
    if d.indirect { IndirectExact(tables(d.addr), d.len / 16, d.write, inner, b, iovSize); }
  }

  /** Only well-formed tables are accepted ... */
  lemma {:induction false} IndirectAccepts(table: nat -> Desc, nr: nat, write: bool, i: nat, b: Bufs, iovSize: nat) returns (at: seq<nat>)
    requires |b.iov| < iovSize && IndirectFrom(table, nr, write, i, b, iovSize).Ok?
    ensures IsChain(table, nr, at) && at[0] == i
    decreases iovSize - |b.iov|
  {
    var d := table(i);
    if d.hasNext {
      var rest := IndirectAccepts(table, nr, write, d.next, b.Add(d, write), iovSize);
      at := [i] + rest;
      forall k | 0 <= k < |at| ensures Linked(table, nr, at, k) {
        if k > 0 { assert Linked(table, nr, rest, k - 1); }
      }
    } else {
      at := [i];
    }
  }

  /** ... and only well-formed chains. */
  lemma {:induction false} ChainAccepts(desc: seq<Desc>, tables: nat -> nat -> Desc, i: nat, b: Bufs, iovSize: nat)
    returns (at: seq<nat>, inner: seq<seq<nat>>)
    requires ChainFrom(desc, tables, i, b, iovSize).Ok?
    ensures IsMixed(desc, tables, at, inner) && at[0] == i
    decreases if |b.iov| <= iovSize then iovSize - |b.iov| else 0
  {
    var d := desc[i];
    var first := [];
    if d.indirect { first := IndirectAccepts(tables(d.addr), d.len / 16, d.write, 0, b, iovSize); }
    if d.hasNext {
      var b' := if d.indirect then Indirect(tables, d, b, iovSize).value else b.Add(d, d.write);
      var at', inner' := ChainAccepts(desc, tables, d.next, b', iovSize);
      at, inner := [i] + at', [first] + inner';
      forall k | 0 <= k < |at| ensures Joined(desc, tables, at, k, inner[k]) {
        if k > 0 { assert Joined(desc, tables, at', k - 1, inner'[k - 1]); }
      }
    } else {
      at, inner := [i], [first];
    }
  }

  // ----- interrupt suppression by event index -----

  /** virtq_need_event */
  predicate NeedEvent(event: u16, new_: u16, old_: u16) {
    U16(new_ - event - 1) < U16(new_ - old_)
  }

  /** The counter passed the position that the driver asked for. */
  ghost predicate Crossed(event: u16, from: nat, to: nat) {
    exists e :: from <= e < to && U16(e) == event
  }

  /** With an exact distance, the 16-bit test is exactly the crossing. */
  lemma NeedEventIsCrossing(event: u16, from: nat, to: nat)
    requires from <= to < from + WRAP
    ensures NeedEvent(event, U16(to), U16(from)) <==> Crossed(event, from, to)
  {
    DistanceWraps(to, from);
    var d := U16(U16(to) - event - 1);
    var e := to - 1 - d;
    BackSteps(to, event);
    if d < to - from {
      assert from <= e < to && U16(e) == event;
    }
    if Crossed(event, from, to) {
      var x :| from <= x < to && U16(x) == event;
      SameRemainder(x, e, to);
    }
  }

  /** Going back d + 1 from the new index gives the event's position. */
  lemma BackSteps(to: int, event: u16)
    ensures U16(to - 1 - U16(U16(to) - event - 1)) == event
  {
  }

  lemma SameRemainder(x: int, e: int, to: int)
    requires U16(x) == U16(e) && to - WRAP <= x < to && to - WRAP <= e < to
    ensures x == e
  {
  }

  /** A whole turn crosses every position. */
  lemma TurnCrosses(event: u16, from: nat, to: nat)
    requires from + WRAP <= to
    ensures Crossed(event, from, to)
  {
    var e := from + U16(event - from);
    assert U16(e) == event;
  }

  // ----- ring slots of nearby counters -----

  /** k places further on, without passing the end of the ring. */
  lemma SlotAhead(u: nat, k: nat, n: nat)
    requires n > 0 && u % n + k < n
    ensures (u + k) % n == u % n + k
  {
    ModUnique(u + k, n, u / n, u % n + k);
  }

  /** At most one turn back. */
  lemma SlotBehind(u: nat, i: nat, n: nat)
    requires n > 0 && i < u <= i + n
    ensures i % n == if u - i <= u % n then u % n - (u - i) else u % n - (u - i) + n
  {
    var q, a, d := u / n, u % n, u - i;
    if d <= a {
      ModUnique(i, n, q, a - d);
    } else {
      assert n * (q - 1) == n * q - n;
      ModUnique(i, n, q - 1, a - d + n);
    }
  }

  datatype UsedElem = UsedElem(id: nat, len: nat)

  /** memcpy into the used ring. */
  function PutRing(ring: seq<UsedElem>, at: nat, part: seq<UsedElem>): (r: seq<UsedElem>)
    requires at + |part| <= |ring|
    ensures |r| == |ring|
  {
    ring[..at] + part + ring[at + |part|..]
  }

  /** The last num completions stand in the used ring, each in its slot. */
  ghost predicate UsedRing(ring: seq<UsedElem>, done: seq<UsedElem>) {
    |ring| > 0 && forall i {:trigger done[i]} :: 0 <= i < |done| && |done| - |ring| <= i ==> ring[i % |ring|] == done[i]
  }

  lemma UsedRingGrows(ring: seq<UsedElem>, done: seq<UsedElem>, part: seq<UsedElem>)
    requires UsedRing(ring, done) && |done| % |ring| + |part| <= |ring|
    ensures UsedRing(PutRing(ring, |done| % |ring|, part), done + part)
  {
    var n, u := |ring|, |done|;
    var start := u % n;
    var ring', done' := PutRing(ring, start, part), done + part;
    forall i | 0 <= i < |done'| && |done'| - n <= i
      ensures ring'[i % n] == done'[i]
    {
      if i < u {
        SlotBehind(u, i, n);
        assert done'[i] == done[i];
      } else {
        SlotAhead(u, i - u, n);
      }
    }
  }

  lemma InSlots(ring: seq<UsedElem>, before: seq<UsedElem>, heads: seq<UsedElem>)
    requires UsedRing(ring, before + heads) && |heads| <= |ring|
    ensures forall i :: 0 <= i < |heads| ==> ring[(|before| + i) % |ring|] == heads[i]
  {
    forall i | 0 <= i < |heads|
      ensures ring[(|before| + i) % |ring|] == heads[i]
    {
      assert (before + heads)[|before| + i] == heads[i];
    }
  }

  /** The entries the driver has published and the device has not completed stand in the available ring. */
  ghost predicate AvailRing(ring: seq<u16>, published: seq<nat>, from: nat) {
    |ring| > 0 && forall i {:trigger published[i]} :: from <= i < |published| ==> ring[i % |ring|] == published[i]
  }

  lemma AvailRingGrows(ring: seq<u16>, published: seq<nat>, from: nat, head: u16)
    requires AvailRing(ring, published, from) && from <= |published| < from + |ring|
    ensures AvailRing(ring[|published| % |ring| := head], published + [head], from)
  {
    var n, a := |ring|, |published|;
    forall i | from <= i < a + 1
      ensures ring[a % n := head][i % n] == (published + [head])[i]
    {
      if i < a { ModDistinct(i, a, n); }
    }
  }

  // ----- the walks as the code runs them -----

  /** get_indirect_buf */
  method GetIndirect(tables: nat -> nat -> Desc, d: Desc, b: Bufs, iovSize: nat) returns (r: Result<Bufs>)
    requires |b.iov| < iovSize
    ensures r == Indirect(tables, d, b, iovSize)
  {
    var nr := d.len / 16;
    if d.len % 16 != 0 || nr == 0 { return Err(EINVAL); }
    var table, next, bufs := tables(d.addr), 0, b;
    while true
      invariant |bufs.iov| < iovSize
      invariant IndirectFrom(table, nr, d.write, 0, b, iovSize) == IndirectFrom(table, nr, d.write, next, bufs, iovSize)
      decreases iovSize - |bufs.iov|
    {
      var vd := table(next);
      if vd.indirect { return Err(EINVAL); }
      bufs := bufs.Add(vd, d.write);
      if |bufs.iov| >= iovSize { return Err(ENOMEM); }
      if !vd.hasNext { break; }
      if vd.next >= nr { return Err(EINVAL); }
      next := vd.next;
    }
    r := Ok(bufs);
  }

  /** The loop of virtq_get_descs. */
  method GetChain(desc: seq<Desc>, tables: nat -> nat -> Desc, head: nat, iovSize: nat) returns (r: Result<Bufs>)
    ensures r == ChainFrom(desc, tables, head, Bufs([], 0, 0), iovSize)
  {
    var i: nat, bufs := head, Bufs([], 0, 0);
    while true
      invariant |bufs.iov| <= iovSize
      invariant ChainFrom(desc, tables, head, Bufs([], 0, 0), iovSize) == ChainFrom(desc, tables, i, bufs, iovSize)
      decreases iovSize - |bufs.iov|
    {
      if |bufs.iov| >= iovSize { return Err(ENOMEM); }
      if i >= |desc| { return Err(EINVAL); }
      var d := desc[i];
      if d.indirect {
        r := GetIndirect(tables, d, bufs, iovSize);
        if r.Err? { return; }
        bufs := r.value;
      } else {
        bufs := bufs.Add(d, d.write);
      }
      if !d.hasNext { break; }
      i := d.next;
    }
    r := Ok(bufs);
  }

  /** A queue: guest memory, the device's 16-bit indices, and the counters they stand for. */
  class VirtQueue {
    const num: nat
    // guest memory
    var desc: seq<Desc>
    var tables: nat -> nat -> Desc
    var availRing: seq<u16>
    var availIdx: u16
    var noInterrupt: bool
    var usedEvent: u16
    var usedRing: seq<UsedElem>
    var usedIdx: u16
    // the device's view
    var lastAvail: u16
    var availSeen: u16
    var lastUsed: u16
    var signalled: u16
    var signalledValid: bool
    const eventIdx: bool
    const notifyOnEmpty: bool
    // what the indices stand for
    ghost var published: seq<nat>
    ghost var taken: nat
    ghost var done: seq<UsedElem>
    ghost var signalledAt: nat
    ghost var recorded: bool

    ghost predicate Shape()
      reads this
    {
      QueueSize(num) && |desc| == num && |availRing| == num && |usedRing| == num
    }

    /** The indices are the counters modulo 2^16, and the driver keeps within the queue size. */
    ghost predicate Valid()
      reads this
    {
      && Shape()
      && |done| <= taken <= |published| <= |done| + num
      && availIdx == U16(|published|) && lastAvail == U16(taken) && lastUsed == U16(|done|) && usedIdx == lastUsed
      && AvailRing(availRing, published, |done|) && UsedRing(usedRing, done)
      && signalledAt <= |done| && signalled == U16(signalledAt)
      && (signalledValid <==> recorded && |done| - signalledAt < WRAP)
    }

    constructor (n: nat, d: seq<Desc>, t: nat -> nat -> Desc, event: bool, onEmpty: bool)
      requires QueueSize(n) && |d| == n
      ensures Valid() && num == n && desc == d && tables == t && published == [] && taken == 0 && done == []
      ensures eventIdx == event && notifyOnEmpty == onEmpty && !recorded
    {
      num, desc, tables := n, d, t;
      availRing, usedRing := seq(n, _ => 0), seq(n, _ => UsedElem(0, 0));
      availIdx, usedIdx, lastAvail, availSeen, lastUsed, signalled := 0, 0, 0, 0, 0, 0;
      noInterrupt, usedEvent, signalledValid := false, 0, false;
      eventIdx, notifyOnEmpty := event, onEmpty;
      published, taken, done, signalledAt, recorded := [], 0, [], 0, false;
    }

    /** The driver makes the chain starting at head available (section 2.4.13 of Virtio 1.0). */
    method Publish(head: u16)
      requires Valid() && |published| < |done| + num
      modifies this`availRing, this`availIdx, this`published
      ensures Valid() && published == old(published) + [head]
    {
      AvailRingGrows(availRing, published, |done|, head);
      RingSlot(|published|, num);
      AddWraps(|published|, 1);
      availRing := availRing[Masked(availIdx, num) := head];
      availIdx := U16(availIdx + 1);
      published := published + [head];
    }

    /** virtq_has_descs */
    predicate HasDescs()
      reads this
    {
      availIdx != lastAvail
    }

    /** The index comparison says exactly whether a published head has not been taken, whatever wraps. */
    lemma HasDescsExact()
      requires Valid()
      ensures HasDescs() <==> taken < |published|
    {
      DistanceWraps(|published|, taken);
    }

    /** The first half of virtq_get_descs: the next head, num when there is none, or an error. */
    method NextHead() returns (r: int)
      requires Shape()
      modifies this`availSeen
      ensures availSeen == availIdx
      ensures r == EINVAL || 0 <= r <= num
      ensures Valid() ==> r == if taken == |published| then num
                               else if published[taken] >= num then EINVAL else published[taken]
    {
      availSeen := availIdx;
      var count := U16(availIdx - lastAvail);
      if Valid() { DistanceWraps(|published|, taken); RingSlot(taken, num); }
      if count == 0 { return num; }
      if count > num { return EINVAL; }
      var head := availRing[Masked(lastAvail, num)];
      if head >= num { return EINVAL; }
      r := head;
    }

    /** virtq_get_descs: heads come out once and in the order they were published; a failure consumes nothing. */
    method GetDescs(iovSize: nat) returns (r: int, bufs: Bufs)
      requires Shape()
      modifies this`availSeen, this`lastAvail, this`taken
      ensures availSeen == availIdx && (old(Valid()) ==> Valid())
      ensures lastAvail == old(lastAvail) || lastAvail == U16(old(lastAvail) + 1)
      ensures r < 0 || r == num ==> lastAvail == old(lastAvail) && taken == old(taken)
      ensures 0 <= r < num ==> taken == old(taken) + 1 && ChainFrom(desc, tables, r, Bufs([], 0, 0), iovSize) == Ok(bufs)
      ensures old(Valid()) ==>
        if old(taken) == |published| then r == num
        else if published[old(taken)] >= num then r == EINVAL
        else match ChainFrom(desc, tables, published[old(taken)], Bufs([], 0, 0), iovSize)
             case Err(code) => r == code
             case Ok(_) => r == published[old(taken)]
    {
      bufs := Bufs([], 0, 0);
      r := NextHead();
      if r < 0 || r == num { return; }
      var chain := GetChain(desc, tables, r, iovSize);
      ChainErrors(desc, tables, r, Bufs([], 0, 0), iovSize);
      if chain.Err? { return chain.code, bufs; }
      if Valid() { AddWraps(taken, 1); }
      lastAvail := U16(lastAvail + 1);
      taken := taken + 1;
      bufs := chain.value;
    }

    /** virtq_discard_desc: the last n heads will come out again, if so many are outstanding. */
    method DiscardDesc(n: nat)
      requires Shape()
      modifies this`lastAvail, this`taken
      ensures lastAvail == U16(old(lastAvail) - n)
      ensures old(Valid()) && n <= old(taken) - |done| ==> Valid() && taken == old(taken) - n
    {
      if Valid() && n <= taken - |done| { SubWraps(taken, n); }
      lastAvail := U16(lastAvail - n);
      taken := if n <= taken then taken - n else 0;
    }

    /** __virtq_add_used_n: a run of completions that does not pass the end of the ring. */
    method AddUsedPart(heads: seq<UsedElem>)
      requires Shape() && UsedPartOk(|heads|)
      modifies this`usedRing, this`lastUsed, this`signalledValid, this`done
      ensures Shape() && done == old(done) + heads && lastUsed == U16(|done|) && UsedRing(usedRing, done)
      ensures signalledValid <==> recorded && |done| - signalledAt < WRAP
    {
      RingSlot(|done|, num);
      var start := Masked(lastUsed, num);
      UsedRingGrows(usedRing, done, heads);
      usedRing := PutRing(usedRing, start, heads);
      var old_ := lastUsed;
      AddWraps(|done|, |heads|);
      lastUsed := U16(lastUsed + |heads|);
      DropSignal(old_, |done|, |heads|);
      done := done + heads;
    }

    /** The test that drops the recorded signal when its distance becomes ambiguous. */
    method DropSignal(old_: u16, ghost u: nat, ghost n: nat)
      requires n <= 1024 && signalledAt <= u && signalled == U16(signalledAt) && old_ == U16(u) && lastUsed == U16(u + n)
      requires signalledValid <==> recorded && u - signalledAt < WRAP
      modifies this`signalledValid
      ensures signalledValid <==> recorded && u + n - signalledAt < WRAP
    {
      SignalTest(u, n, signalledAt);
      if U16(lastUsed - signalled) < U16(lastUsed - old_) { signalledValid := false; }
    }

    /** What __virtq_add_used_n needs of the used side. */
    ghost predicate UsedPartOk(n: nat)
      requires Shape()
      reads this
    {
      && lastUsed == U16(|done|) && UsedRing(usedRing, done) && |done| % num + n <= num
      && signalledAt <= |done| && signalled == U16(signalledAt)
      && (signalledValid <==> recorded && |done| - signalledAt < WRAP)
    }

    /** The parts of a batch, before and after the ring's end. */
    method AddUsedParts(heads: seq<UsedElem>)
      requires Shape() && UsedPartOk(0) && |heads| <= num
      modifies this`usedRing, this`lastUsed, this`signalledValid, this`done
      ensures Shape() && UsedPartOk(0) && done == old(done) + heads
    {
      RingSlot(|done|, num);
      var start := Masked(lastUsed, num);
      var n := num - start;
      ghost var before := done;
      if n < |heads| {
        AddUsedPart(heads[..n]);
        SlotWraps(|before|, num);
        AddUsedPart(heads[n..]);
        assert (before + heads[..n]) + heads[n..] == before + heads;
      } else {
        AddUsedPart(heads);
      }
    }

    /** virtq_add_used_n: completion i goes to slot i modulo num, also when the batch passes the ring's end. */
    method AddUsedN(heads: seq<UsedElem>)
      requires Shape() && UsedPartOk(0) && |heads| <= num
      modifies this`usedRing, this`usedIdx, this`lastUsed, this`signalledValid, this`done
      ensures Shape() && UsedPartOk(0) && done == old(done) + heads && usedIdx == lastUsed
      ensures old(Valid()) && |done| <= taken ==> Valid()
      ensures forall i :: 0 <= i < |heads| ==> usedRing[(|old(done)| + i) % num] == heads[i]
    {
      ghost var before := done;
      AddUsedParts(heads);
      usedIdx := lastUsed;
      InSlots(usedRing, before, heads);
    }

    /** virtq_need_notify: with event indices, an interrupt whenever the driver's position was
        crossed since the last recorded signal, and otherwise only when that signal is too old to tell. */
    method NeedNotify() returns (notify: bool)
      requires Valid()
      modifies this`signalled, this`signalledValid, this`signalledAt, this`recorded
      ensures Valid()
      ensures notifyOnEmpty && availSeen == lastAvail ==> notify && signalledAt == old(signalledAt) && recorded == old(recorded)
      ensures !(notifyOnEmpty && availSeen == lastAvail) && !eventIdx ==> notify == !noInterrupt
      ensures !(notifyOnEmpty && availSeen == lastAvail) && eventIdx ==>
        signalledAt == |done| && recorded && (notify <==> !old(signalledValid) || Crossed(usedEvent, old(signalledAt), |done|))
      ensures eventIdx && old(recorded) && Crossed(usedEvent, old(signalledAt), |done|) ==> notify
      ensures eventIdx && old(signalledValid) && !notifyOnEmpty ==> (notify <==> Crossed(usedEvent, old(signalledAt), |done|))
    {
      if notifyOnEmpty && availSeen == lastAvail { return true; }
      if !eventIdx { return !noInterrupt; }
      var old_, valid := signalled, signalledValid;
      ghost var from := signalledAt;
      signalled := lastUsed;
      signalledValid := true;
      signalledAt, recorded := |done|, true;
      if !valid { return true; }
      NeedEventIsCrossing(usedEvent, from, |done|);
      notify := NeedEvent(usedEvent, signalled, old_);
    }
  }

  /** The errors of a walk are negative. */
  lemma {:induction false} ChainErrors(desc: seq<Desc>, tables: nat -> nat -> Desc, i: nat, b: Bufs, iovSize: nat)
    ensures var r := ChainFrom(desc, tables, i, b, iovSize); r.Err? ==> r.code == EINVAL || r.code == ENOMEM
    decreases if |b.iov| <= iovSize then iovSize - |b.iov| else 0
  {
    if |b.iov| < iovSize && i < |desc| {
      var d := desc[i];
      var step := if d.indirect then Indirect(tables, d, b, iovSize) else Ok(b.Add(d, d.write));
      if d.indirect { IndirectErrors(tables, d, b, iovSize); }
      if step.Ok? && d.hasNext { ChainErrors(desc, tables, d.next, step.value, iovSize); }
    }
  }

  lemma IndirectErrors(tables: nat -> nat -> Desc, d: Desc, b: Bufs, iovSize: nat)
    requires |b.iov| < iovSize
    ensures var r := Indirect(tables, d, b, iovSize); r.Err? ==> r.code == EINVAL || r.code == ENOMEM
  {
    IndirectFromErrors(tables(d.addr), d.len / 16, d.write, 0, b, iovSize);
  }

  lemma {:induction false} IndirectFromErrors(table: nat -> Desc, nr: nat, write: bool, i: nat, b: Bufs, iovSize: nat)
    requires |b.iov| < iovSize
    ensures var r := IndirectFrom(table, nr, write, i, b, iovSize); r.Err? ==> r.code == EINVAL || r.code == ENOMEM
    decreases iovSize - |b.iov|
  {
    var d := table(i);
    var b' := b.Add(d, write);
    if |b'.iov| < iovSize && d.hasNext { IndirectFromErrors(table, nr, write, d.next, b', iovSize); }
  }

  /** The ring's end is followed by its start. */
  lemma SlotWraps(u: nat, n: nat)
    requires n > 0
    ensures (u + (n - u % n)) % n == 0
  {
    assert u + (n - u % n) == n * (u / n + 1);
    ModUnique(u + (n - u % n), n, u / n + 1, 0);
  }

  /** The 16-bit test of __virtq_add_used_n sees exactly the step that makes the distance ambiguous. */
  lemma SignalTest(u: nat, n: nat, from: nat)
    requires from <= u && n <= 1024
    ensures u - from < WRAP ==>
      (U16(U16(u + n) - U16(from)) < U16(U16(u + n) - U16(u)) <==> u + n - from >= WRAP)
  {
    DistanceWraps(u + n, u);
    if u + n - from < WRAP {
      DistanceWraps(u + n, from);
    } else if u - from < WRAP {
      TurnDistance(u + n, from);
    }
  }

  lemma TurnDistance(a: nat, b: nat)
    requires b + WRAP <= a < b + 2 * WRAP
    ensures U16(U16(a) - U16(b)) == a - b - WRAP
  {
  }
}
