/**
 * Every read and write ends, whatever the network and the agents do: each request ID is worth so many datagrams, each
 * datagram so much time, and a loop call never leaves one overdue.
 */
module Termination {
  import opened Bytes
  import opened Messages
  import opened Values
  import opened Operations
  import opened OperationLaws
  import opened ReplyLaws
  import opened Engine
  import opened EngineLaws
  import opened StepLaws
  import opened RunLaws
  import opened Runs
  import opened Traffic
  import opened Timing
  import opened Pacing

  // ----- the time that datagrams account for -----

  /** What one datagram may take when loop calls are at most `gap` apart: its timeout, and two late calls. */
  function Share(op: Op, gap: nat): nat { op.dev.timeoutMs + 2 * gap }

  /** The last datagram left within the shares of those before it. */
  ghost predicate InShare(op: Op, at: nat, gap: nat) {
    op.sends >= 1 && at <= op.first + (op.sends - 1) * Share(op, gap)
  }

  /** A read or write that has sent something is within the shares of its datagrams. */
  ghost predicate Bounded(op: Op, wire: seq<Sent>, c: nat, gap: nat) {
    Waits(op) && !op.walking ==>
      if op.sent then
        exists i :: Clocked(op, wire, i) && wire[i].at <= c < wire[i].at + op.dev.timeoutMs
                    && InShare(op, wire[i].at, gap)
      else c + gap <= op.first + op.sends * Share(op, gap)
  }

  ghost predicate AllBounded(w: World, c: nat, gap: nat) {
    forall k :: 0 <= k < |w.ops| ==> Bounded(w.ops[k], w.wire, c, gap)
  }

  ghost predicate BoundedAfter(w: World, i: nat, c: nat, t: nat, gap: nat)
    requires i <= |w.slots|
  {
    forall k :: 0 <= k < |w.ops| ==>
      Bounded(w.ops[k], w.wire, t, gap) || (Bounded(w.ops[k], w.wire, c, gap) && k in w.slots[i..])
  }

  lemma {:induction false} NextShare(n: nat, share: nat)
    requires n >= 1
    ensures (n - 1) * share + share == n * share
  {}

  /** A request that is given up, or answered, leaves the operation within the shares of its datagrams. */
  lemma {:induction false} ShareSpent(op: Op, at: nat, c: nat, gap: nat)
    requires InShare(op, at, gap) && c < at + op.dev.timeoutMs
    ensures c + 2 * gap <= op.first + op.sends * Share(op, gap)
  {
    NextShare(op.sends, Share(op, gap));
  }

  /** Handling a reply, or user code: the operation is as it was, or without a request in flight, or over. */
  lemma {:induction false} TimelyBounded(a: Op, b: Op, wire: seq<Sent>, c: nat, gap: nat)
    requires Timely(a, b) && Bounded(a, wire, c, gap) && a.walking == b.walking
    ensures Bounded(b, wire, c, gap)
  {
    if Waits(b) && !b.walking {
      if a.sent {
        var i :| Clocked(a, wire, i) && wire[i].at <= c < wire[i].at + a.dev.timeoutMs && InShare(a, wire[i].at, gap);
        ShareSpent(a, wire[i].at, c, gap);
        assert b.sent ==> Clocked(b, wire, i);
        assert InShare(b, wire[i].at, gap);
      }
    }
  }

  lemma {:induction false} IdleIsBounded(op: Op, wire: seq<Sent>, c: nat, gap: nat)
    requires !Waits(op) || op.walking
    ensures Bounded(op, wire, c, gap)
  {}

  // ----- the visit of an operation's own slot -----

  /** A datagram that has just left, within the share of the one before it. */
  lemma {:induction false} SentBounded(op: Op, wire: seq<Sent>, e: Sent, t: nat, gap: nat)
    requires op.sent && op.sentAt == t % TWO32 && e.at == t && e.id == op.id && op.dev.timeoutMs > 0
    requires op.sends >= 1 && t <= op.first + (op.sends - 1) * Share(op, gap)
    ensures Bounded(op, wire + [e], t, gap)
  {
    if Expects(op) {
      assert Clocked(op, wire + [e], |wire|);
    }
  }

  /** The clock and the gap of a loop call. */
  ghost predicate Soon(c: nat, t: nat, gap: nat) { c <= t <= c + gap && gap < TWO32 - MAX_ID }

  /** What a visit leaves of its operation: nothing that waits, the same, a request given up, or a new datagram. */
  ghost predicate Kept(w: World, r: World, k: nat, t: nat)
    requires k < |w.ops| == |r.ops|
  {
    var op, o := w.ops[k], r.ops[k];
    || !Waits(o)
    || (o == op && r.wire == w.wire && (op.sent ==> Elapsed(t % TWO32, op.sentAt) < op.dev.timeoutMs) && op.sent)
    || (op.sent && !o.sent && o.sends == op.sends && o.dev == op.dev && o.first == op.first && r.wire == w.wire)
    || (o.sent && o.sentAt == t % TWO32 && o.sends == op.sends + 1 && o.dev == op.dev
        && o.first == (if op.id == 0 then t else op.first)
        && exists e :: r.wire == w.wire + [e] && e.at == t && e.id == o.id)
  }

  lemma {:induction false} TickGivesUp(op: Op, now: uint32)
    ensures TickOp(op, now).Keep? ==>
              && op.sent
              && (TickOp(op, now).op.sent ==> TickOp(op, now).op == op && Elapsed(now, op.sentAt) < op.dev.timeoutMs)
  {
    hide Elapsed;
  }

  lemma {:induction false} SendLeaves(w: World, k: nat, o: Op, t: nat, env: SlotEnv, lim: Limits)
    requires k < |w.ops|
    ensures var r := SendOp(w, k, o, t, env, lim);
            || !Waits(r.ops[k])
            || (r.ops[k].sent && r.ops[k].sentAt == t % TWO32 && r.ops[k].sends == o.sends + 1 && r.ops[k].dev == o.dev
                && r.ops[k].first == o.first
                && exists e :: r.wire == w.wire + [e] && e.at == t && e.id == r.ops[k].id)
  {
    var tx, packed, w1 := Transmitting(o, w.nextId, lim), o.(batch := Packed(o, lim)), Logged(w, k, o, t, lim);
    SendOpIs(w, k, o, t, env, lim);
    TransmittingTerms(o, w.nextId, lim);
    LoggedTerms(w, k, o, t, lim);
    EntryTime(k, tx, t, lim);
    hide FinishOp, CanSend, Packed, Transmitting, Logged, SendOp, Entry, Waits;
    if !CanSend(o, lim) || (!o.sent && w.nextId >= MAX_ID) {
      FinishIdles(w, k, packed, CapacityExceeded, env.done, k, lim);
    } else if !env.transport {
      FinishIdles(w1, k, tx, TransportError, env.done, k, lim);
    } else {
      assert SendOp(w, k, o, t, env, lim).wire == w.wire + [Entry(k, tx, t, lim)];
    }
  }

  lemma {:induction false} TransmittingTerms(o: Op, nextId: nat, lim: Limits)
    ensures var tx := Transmitting(o, nextId, lim);
            tx.sends == o.sends + 1 && tx.dev == o.dev && tx.first == o.first
  {
    hide Packed;
  }

  lemma {:induction false} TickKept(w: World, k: nat, t: nat, env: SlotEnv, lim: Limits)
    requires k < |w.ops| && w.ops[k].Pending()
    ensures Kept(w, TickSlot(w, k, t, env, lim), k, t)
  {
    hide FinishOp, SendOp, TickOp, Waits, Elapsed, Kept, TickSlot, Stamped;
    var op, r := w.ops[k], TickSlot(w, k, t, env, lim);
    TickIs(w, k, t, env, lim);
    match TickOp(op, t % TWO32)
    case Expire(o) =>
      FinishIdles(w, k, o, Timeout, env.done, k, lim);
      IdleKept(w, r, k, t);
    case Keep(o) => KeepKept(w, k, t);
    case Send(o) => SendKept(w, k, t, env, lim);
  }

  lemma {:induction false} IdleKept(w: World, r: World, k: nat, t: nat)
    requires k < |w.ops| == |r.ops| && !Waits(r.ops[k])
    ensures Kept(w, r, k, t)
  {}

  lemma {:induction false} KeepKept(w: World, k: nat, t: nat)
    requires k < |w.ops| && TickOp(w.ops[k], t % TWO32).Keep?
    ensures Kept(w, w.(ops := w.ops[k := TickOp(w.ops[k], t % TWO32).op]), k, t)
  {
    TickGivesUp(w.ops[k], t % TWO32);
    TickForm(w.ops[k], t % TWO32);
    hide TickOp, Waits, Elapsed;
  }

  lemma {:induction false} SendKept(w: World, k: nat, t: nat, env: SlotEnv, lim: Limits)
    requires k < |w.ops| && TickOp(w.ops[k], t % TWO32).Send?
    ensures Kept(w, SendOp(w, k, Stamped(TickOp(w.ops[k], t % TWO32).op, t), t, env, lim), k, t)
  {
    var o := Stamped(TickOp(w.ops[k], t % TWO32).op, t);
    StampTerms(w.ops[k], t);
    hide TickOp, Waits, Elapsed, SendOp, Stamped;
    SendLeaves(w, k, o, t, env, lim);
  }

  lemma {:induction false} StampTerms(op: Op, t: nat)
    requires TickOp(op, t % TWO32).Send?
    ensures var o := Stamped(TickOp(op, t % TWO32).op, t);
            o.sends == op.sends && o.dev == op.dev && o.first == (if op.id == 0 then t else op.first)
  {
    TickForm(op, t % TWO32);
    hide TickOp;
  }

  /** The operation's last datagram, from the bound of a request in flight. */
  lemma {:induction false} LastDatagram(op: Op, wire: seq<Sent>, c: nat, gap: nat) returns (i: int)
    requires Bounded(op, wire, c, gap) && Waits(op) && !op.walking && op.sent
    ensures Clocked(op, wire, i) && 0 <= i < |wire| && op.sentAt == wire[i].at % TWO32
    ensures wire[i].at <= c < wire[i].at + op.dev.timeoutMs && InShare(op, wire[i].at, gap)
  {
    i :| Clocked(op, wire, i) && wire[i].at <= c < wire[i].at + op.dev.timeoutMs && InShare(op, wire[i].at, gap);
  }

  lemma {:induction false} SameBounded(op: Op, wire: seq<Sent>, c: nat, t: nat, gap: nat)
    requires Bounded(op, wire, c, gap) && Soon(c, t, gap) && op.sent && op.dev.timeoutMs <= MAX_ID
    requires Elapsed(t % TWO32, op.sentAt) < op.dev.timeoutMs
    ensures Bounded(op, wire, t, gap)
  {
    if Waits(op) && !op.walking {
      var i := LastDatagram(op, wire, c, gap);
      ElapsedSince(t, wire[i].at);
      hide Elapsed, Clocked, InShare;
      assert Clocked(op, wire, i) && wire[i].at <= t < wire[i].at + op.dev.timeoutMs && InShare(op, wire[i].at, gap);
    }
  }

  lemma {:induction false} GivenUpBounded(op: Op, o: Op, wire: seq<Sent>, c: nat, t: nat, gap: nat)
    requires Bounded(op, wire, c, gap) && Soon(c, t, gap) && Waits(op) && !op.walking && op.sent
    requires !o.sent && o.sends == op.sends && o.dev == op.dev && o.first == op.first
    ensures Bounded(o, wire, t, gap)
  {
    var i := LastDatagram(op, wire, c, gap);
    ShareSpent(op, wire[i].at, c, gap);
  }

  /** The next datagram leaves within the shares of those before it. */
  lemma {:induction false} NextInTime(op: Op, wire: seq<Sent>, c: nat, t: nat, gap: nat)
    requires Bounded(op, wire, c, gap) && Soon(c, t, gap) && Waits(op) && !op.walking
    ensures t <= op.first + op.sends * Share(op, gap)
  {
    if op.sent {
      var i := LastDatagram(op, wire, c, gap);
      ShareSpent(op, wire[i].at, c, gap);
    }
  }

  lemma {:induction false} KeptBounded(w: World, r: World, k: nat, c: nat, t: nat, gap: nat, lim: Limits)
    requires Inv(w, lim) && AllReady(w) && k < |w.ops| == |r.ops| && w.ops[k].Pending() && Soon(c, t, gap)
    requires Kept(w, r, k, t) && Bounded(w.ops[k], w.wire, c, gap) && r.ops[k].walking == w.ops[k].walking
    ensures Bounded(r.ops[k], r.wire, t, gap)
  {
    var op, o := w.ops[k], r.ops[k];
    hide Inv, AllReady, Bounded, Elapsed, Soon, Share;
    PendingTerms(w, k, lim);
    if !Waits(o) || o.walking {
      IdleIsBounded(o, r.wire, t, gap);
    } else if o == op && r.wire == w.wire && op.sent && Elapsed(t % TWO32, op.sentAt) < op.dev.timeoutMs {
      SameBounded(op, w.wire, c, t, gap);
    } else if op.sent && !o.sent {
      GivenUpBounded(op, o, w.wire, c, t, gap);
    } else {
      NewBounded(op, o, w.wire, r.wire, c, t, gap);
    }
  }

  lemma {:induction false} NewBounded(op: Op, o: Op, wire: seq<Sent>, more: seq<Sent>, c: nat, t: nat, gap: nat)
    requires op.Pending() && !op.walking && Bounded(op, wire, c, gap) && Soon(c, t, gap) && op.dev.timeoutMs > 0
    requires o.sent && o.sentAt == t % TWO32 && o.sends == op.sends + 1 && o.dev == op.dev
    requires o.first == if op.id == 0 then t else op.first
    requires exists e :: more == wire + [e] && e.at == t && e.id == o.id
    ensures Bounded(o, more, t, gap)
  {
    hide Bounded, Soon, Share;
    if op.id != 0 {
      NextInTime(op, wire, c, t, gap);
    }
    SharesGrow(op.sends, Share(op, gap));
    SameShare(op, o, gap);
    var e :| more == wire + [e] && e.at == t && e.id == o.id;
    SentBounded(o, wire, e, t, gap);
  }

  lemma {:induction false} SameShare(a: Op, b: Op, gap: nat)
    requires a.dev == b.dev
    ensures Share(a, gap) == Share(b, gap)
  {}

  lemma {:induction false} SharesGrow(n: nat, share: nat)
    ensures n * share >= 0
  {}

  lemma {:induction false} PendingTerms(w: World, k: nat, lim: Limits)
    requires Inv(w, lim) && k < |w.ops| && w.ops[k].Pending()
    ensures var op := w.ops[k]; 0 < op.dev.timeoutMs <= MAX_ID && (op.id == 0 ==> !op.sent)
  {
    InvOp(w, k, lim);
    hide WalkInv, BatchInv, TrafficInv;
  }

  // ----- whole loops -----

  lemma {:induction false} OtherBounded(w: World, r: World, k: nat, l: nat, c: nat, t: nat, gap: nat)
    requires IdsOk(w) && k < |w.ops| && l < |w.ops| && l != k && |r.ops| == |w.ops|
    requires r.ops[l].walking == w.ops[l].walking
    requires Timely(w.ops[l], r.ops[l]) && Bounded(w.ops[l], w.wire, c, gap) && Adds(w, r, k, t)
    ensures Bounded(r.ops[l], r.wire, c, gap)
  {
    var o := r.ops[l];
    TimelyBounded(w.ops[l], o, w.wire, c, gap);
    if r.wire != w.wire && Waits(o) && !o.walking && o.sent {
      var i := LastDatagram(o, w.wire, c, gap);
      hide DueUnder, InShare, Bounded;
      var e :| r.wire == w.wire + [e] && AddedEntry(w, k, e, t);
      assert e.id != w.ops[l].id;
      StillLast(w.wire, e, o.id, i);
      InFlightBounded(o, r.wire, i, c, gap);
    } else if r.wire != w.wire {
      hide Clocked;
    }
  }

  lemma {:induction false} InFlightBounded(op: Op, wire: seq<Sent>, i: int, c: nat, gap: nat)
    requires op.sent && 0 <= i < |wire| && Clocked(op, wire, i) && InShare(op, wire[i].at, gap)
    requires wire[i].at <= c < wire[i].at + op.dev.timeoutMs
    ensures Bounded(op, wire, c, gap)
  {}

  lemma {:induction false} VisitBounded(w: World, r: World, i: nat, c: nat, t: nat, gap: nat)
    requires IdsOk(w) && i < |w.slots| && BoundedAfter(w, i, c, t, gap) && 0 <= w.slots[i] < |w.ops|
    requires Visited(w, r, w.slots[i]) && Adds(w, r, w.slots[i], t) && Bounded(r.ops[w.slots[i]], r.wire, t, gap)
    ensures |r.slots| == |w.slots| && BoundedAfter(r, i + 1, c, t, gap)
  {
    VisitedTerms(w, r, w.slots[i]);
    VisitedSlots(w, r, w.slots[i]);
    AllWalking(w, r, w.slots[i]);
    hide Visited, IdsOk, Adds, Bounded, Timely;
    forall k | 0 <= k < |r.ops|
      ensures Bounded(r.ops[k], r.wire, t, gap) || (Bounded(r.ops[k], r.wire, c, gap) && k in r.slots[i + 1..])
    {
      if k != w.slots[i] {
        assert Timely(w.ops[k], r.ops[k]);
        if Bounded(w.ops[k], w.wire, t, gap) {
          OtherBounded(w, r, w.slots[i], k, t, t, gap);
        } else if !Waits(r.ops[k]) {
          IdleIsBounded(r.ops[k], r.wire, t, gap);
        } else {
          OtherBounded(w, r, w.slots[i], k, c, t, gap);
          StillToVisit(w, r, i, k);
        }
      }
    }
  }

  lemma {:induction false} AllWalking(w: World, r: World, k: nat)
    requires Visited(w, r, k)
    ensures |r.ops| == |w.ops| && forall l :: 0 <= l < |w.ops| ==> r.ops[l].walking == w.ops[l].walking
  {
    hide Evolves, Timely;
    forall l | 0 <= l < |w.ops|
      ensures r.ops[l].walking == w.ops[l].walking
    {
      assert Evolves(w.ops[l], r.ops[l]);
      VisitedWalking(w.ops[l], r.ops[l]);
    }
  }

  lemma {:induction false} FreeBounded(w: World, i: nat, c: nat, t: nat, gap: nat)
    requires i < |w.slots| && w.slots[i] == FREE && BoundedAfter(w, i, c, t, gap)
    ensures BoundedAfter(w, i + 1, c, t, gap)
  {
    hide Bounded;
    forall k | 0 <= k < |w.ops|
      ensures Bounded(w.ops[k], w.wire, t, gap) || (Bounded(w.ops[k], w.wire, c, gap) && k in w.slots[i + 1..])
    {
      if k in w.slots[i..] {
        var j :| 0 <= j < |w.slots[i..]| && w.slots[i..][j] == k;
        assert w.slots[i + 1..][j - 1] == k;
      }
    }
  }

  lemma {:induction false} TickBounded(w: World, k: nat, c: nat, t: nat, gap: nat, env: SlotEnv, lim: Limits)
    requires Inv(w, lim) && AllReady(w) && k < |w.ops| && w.ops[k].Pending() && Soon(c, t, gap)
    requires Bounded(w.ops[k], w.wire, c, gap) || Bounded(w.ops[k], w.wire, t, gap)
    requires TickSlot(w, k, t, env, lim).ops[k].walking == w.ops[k].walking
    ensures var r := TickSlot(w, k, t, env, lim); Bounded(r.ops[k], r.wire, t, gap)
  {
    hide Inv, AllReady, TickSlot, Bounded, Kept;
    TickKept(w, k, t, env, lim);
    KeptBounded(w, TickSlot(w, k, t, env, lim), k, if Bounded(w.ops[k], w.wire, c, gap) then c else t, t, gap, lim);
  }

  lemma {:induction false} SlotBounded(w: World, i: nat, c: nat, t: nat, gap: nat, env: SlotEnv, lim: Limits)
    requires Inv(w, lim) && AllReady(w) && i < |w.slots| && OnPace(w, t) && Soon(c, t, gap)
    requires BoundedAfter(w, i, c, t, gap)
    ensures var r := VisitSlot(w, i, t, env, lim);
            |r.slots| == |w.slots| && BoundedAfter(r, i + 1, c, t, gap) && OnPace(r, t)
  {
    hide Inv, AllReady, OnPace, TickSlot, Bounded, Visited, Soon, SlotsOk, Adds, IdsOk, Grew, SameStart, Stamped,
      TickOp;
    InvSlots(w, lim);
    InvIds(w, lim);
    if w.slots[i] == FREE {
      FreeBounded(w, i, c, t, gap);
    } else {
      OccupiedPending(w, i);
      var k: nat := w.slots[i];
      var r := TickSlot(w, k, t, env, lim);
      TickSlotKeeps(w, k, t, env, lim);
      VisitedOp(w, r, k);
      TickPace(w, k, t, env, lim);
      TickAdds(w, k, t, env, lim);
      TickBounded(w, k, c, t, gap, env, lim);
      VisitBounded(w, r, i, c, t, gap);
    }
  }

  lemma {:induction false} SlotsBounded(w: World, i: nat, c: nat, t: nat, gap: nat, envs: seq<SlotEnv>, lim: Limits)
    requires Inv(w, lim) && AllReady(w) && i <= |w.slots| && OnPace(w, t) && Soon(c, t, gap)
    requires BoundedAfter(w, i, c, t, gap)
    ensures AllBounded(TickSlots(w, i, t, envs, lim), t, gap)
    decreases |w.slots| - i
  {
    hide Inv, AllReady, OnPace, VisitSlot, Bounded, Soon, Grown;
    if i < |w.slots| {
      VisitSlotKeeps(w, i, t, EnvAt(envs, i), lim);
      SlotBounded(w, i, c, t, gap, EnvAt(envs, i), lim);
      SlotsBounded(VisitSlot(w, i, t, EnvAt(envs, i), lim), i + 1, c, t, gap, envs, lim);
    }
  }

  lemma {:induction false} TameBounded(w: World, r: World, c: nat, gap: nat)
    requires Tame(w, r) && AllBounded(w, c, gap)
    ensures AllBounded(r, c, gap)
  {
    hide Bounded;
    forall k | 0 <= k < |r.ops|
      ensures Bounded(r.ops[k], r.wire, c, gap)
    {
      assert Timely(w.ops[k], r.ops[k]) && Evolves(w.ops[k], r.ops[k]);
      VisitedWalking(w.ops[k], r.ops[k]);
      TimelyBounded(w.ops[k], r.ops[k], w.wire, c, gap);
    }
  }

  lemma {:induction false} AllToBound(w: World, c: nat, t: nat, gap: nat, lim: Limits)
    requires Inv(w, lim) && AllBounded(w, c, gap)
    ensures BoundedAfter(w, 0, c, t, gap)
  {
    hide Inv, Bounded;
    InvSlots(w, lim);
    assert w.slots[0..] == w.slots;
    forall k | 0 <= k < |w.ops|
      ensures Bounded(w.ops[k], w.wire, t, gap) || k in w.slots
    {
      if !Waits(w.ops[k]) {
        IdleIsBounded(w.ops[k], w.wire, t, gap);
      }
    }
  }

  lemma {:induction false} ClockBounded(w: World, c: nat, t: nat, gap: nat)
    requires AllBounded(w, t, gap)
    ensures AllBounded(w.(clock := c), t, gap)
  {
    hide Bounded;
  }

  lemma {:induction false} NextBounded(w: World, e: Event, gap: nat, lim: Limits)
    requires Inv(w, lim) && AllReady(w) && ParsedEvent(e, lim) && OnPace(w, w.clock) && AllBounded(w, w.clock, gap)
    requires e.Loop? ==> Soon(w.clock, e.t, gap)
    ensures AllBounded(Next(w, e, lim), Next(w, e, lim).clock, gap)
  {
    hide Inv, AllReady, OnPace, AllBounded, BoundedAfter, Receive, TickSlots, RunActs, Tame, Calm, Sendable, NoTimeouts;
    match e
    case Loop(t, incoming, reply, envs) =>
      if w.begun {
        var w1 := w;
        if incoming.Some? {
          ReceiveKeeps(w, incoming.value, reply, lim);
          ReceiveTimesNothing(w, incoming.value, reply, lim);
          w1 := Receive(w, incoming.value, reply, lim);
          TamePace(w, w1, w.clock);
          TameBounded(w, w1, w.clock, gap);
        }
        Later(w1, w.clock, t);
        AllToBound(w1, w.clock, t, gap, lim);
        SlotsBounded(w1, 0, w.clock, t, gap, envs, lim);
        ClockBounded(TickSlots(w1, 0, t, envs, lim), t, t, gap);
      }
    case User(acts) =>
      var r := RunActs(w, acts, lim);
      RunActsKeeps(w, acts, lim);
      CalmIsTame(w, r);
      TameBounded(w, r, w.clock, gap);
      TameClock(w, r);
  }

  /** Loop calls at most `gap` ms apart, less than 2^31. */
  ghost predicate Steady(w: World, es: seq<Event>, gap: nat, lim: Limits) {
    forall i :: 0 <= i < |es| && es[i].Loop? ==> Soon(Run(w, es[..i], lim).clock, es[i].t, gap)
  }

  lemma {:induction false} SteadyForward(w: World, es: seq<Event>, gap: nat, lim: Limits)
    requires Steady(w, es, gap, lim)
    ensures Forward(w, es, lim)
  {
    hide Run;
  }

  lemma {:induction false} RunBounded(w: World, es: seq<Event>, gap: nat, lim: Limits)
    requires Initial(w, lim) && ParsedEvents(es, lim) && Steady(w, es, gap, lim)
    ensures AllBounded(Run(w, es, lim), Run(w, es, lim).clock, gap)
    decreases |es|
  {
    hide Inv, AllReady, Next, ParsedEvent, OnPace, AllBounded, Initial, Soon;
    if es == [] {
      InitialBounded(w, gap, lim);
    } else {
      var before := es[..|es| - 1];
      assert forall i :: 0 <= i < |before| ==> before[i] == es[i] && before[..i] == es[..i];
      RunBounded(w, before, gap, lim);
      SteadyForward(w, before, gap, lim);
      RunPace(w, before, lim);
      Reachable(w, before, lim);
      NextBounded(Run(w, before, lim), es[|es| - 1], gap, lim);
    }
  }

  lemma {:induction false} InitialBounded(w: World, gap: nat, lim: Limits)
    requires Initial(w, lim)
    ensures AllBounded(w, w.clock, gap)
  {
    forall k | 0 <= k < |w.ops|
      ensures Bounded(w.ops[k], w.wire, w.clock, gap)
    {
      assert Fresh(w.ops[k], lim);
    }
  }

  /** The most that a read or write of n names may take from its first datagram on. */
  function Lifetime(op: Op, gap: nat): nat {
    MaxIds(|op.cells|) * (op.dev.retries + 1) * (op.dev.timeoutMs + 2 * gap)
  }

  lemma {:induction false} SharesInLifetime(op: Op, gap: nat)
    requires op.sends <= op.ids * (op.dev.retries + 1) && op.ids <= MaxIds(|op.cells|)
    ensures op.sends * Share(op, gap) <= Lifetime(op, gap)
  {
    hide MaxIds;
    Product(op.ids, MaxIds(|op.cells|), op.dev.retries + 1);
    Product(op.sends, MaxIds(|op.cells|) * (op.dev.retries + 1), Share(op, gap));
  }

  lemma {:induction false} Product(a: nat, b: nat, c: nat)
    requires a <= b
    ensures a * c <= b * c
  {}

  lemma {:induction false} StillAlive(op: Op, wire: seq<Sent>, c: nat, gap: nat)
    requires Bounded(op, wire, c, gap) && Waits(op) && !op.walking
    ensures c <= op.first + op.sends * Share(op, gap)
  {
    if op.sent {
      var i := LastDatagram(op, wire, c, gap);
      ShareSpent(op, wire[i].at, c, gap);
    }
  }

  /**
   * Every read and write ends. With loop calls at most `gap` apart, and whatever is received or lost, one of n names
   * that has sent its first datagram and is still pending after a loop call is within (n + floor(log2 n)) * (retries +
   * 1) * (timeout + 2 * gap) ms of that datagram; so it is over at the latest with the first loop call behind that.
   */
  lemma {:induction false} ReadsEnd(w: World, es: seq<Event>, k: nat, gap: nat, lim: Limits)
    requires Initial(w, lim) && ParsedEvents(es, lim) && Steady(w, es, gap, lim)
    ensures var r := Run(w, es, lim);
            k < |r.ops| && r.ops[k].Pending() && r.ops[k].id != 0 && !r.ops[k].walking ==>
              r.clock <= r.ops[k].first + Lifetime(r.ops[k], gap)
  {
    hide Initial, ParsedEvents, Steady, Run, Bounded, Inv, AllReady, OpInv, Lifetime;
    RunBounded(w, es, gap, lim);
    Reachable(w, es, lim);
    var r := Run(w, es, lim);
    if k < |r.ops| && r.ops[k].Pending() && r.ops[k].id != 0 && !r.ops[k].walking {
      InvOp(r, k, lim);
      WithinLifetime(r.ops[k], r.wire, r.clock, gap, lim);
    }
  }

  lemma {:induction false} WithinLifetime(op: Op, wire: seq<Sent>, c: nat, gap: nat, lim: Limits)
    requires OpInv(op, lim) && op.Pending() && op.id != 0 && !op.walking && Bounded(op, wire, c, gap)
    ensures c <= op.first + Lifetime(op, gap)
  {
    hide OpInv, Bounded, Lifetime, Share, MaxIds;
    OpBounds(op, lim);
    StillAlive(op, wire, c, gap);
    SharesInLifetime(op, gap);
  }
}
