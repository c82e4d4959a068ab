/**
 * Time over whole runs: datagrams of one request keep their distance, a read times out only when its last datagram is
 * old enough, and after every loop call no request is overdue.
 */
module Pacing {
  import opened Bytes
  import opened Messages
  import opened Values
  import opened Operations
  import opened OperationLaws
  import opened ReplyLaws
  import opened Acceptance
  import opened Engine
  import opened EngineLaws
  import opened StepLaws
  import opened RunLaws
  import opened Runs
  import opened Correlation
  import opened Outcomes
  import opened Timing

  // ----- the invariant -----

  /** Under one ID, every datagram leaves at least its timeout after the one before. */
  ghost predicate Paced(wire: seq<Sent>) {
    forall i, j :: 0 <= i < j < |wire| && wire[i].id == wire[j].id ==> wire[i].at + wire[i].timeout <= wire[j].at
  }

  ghost predicate Past(wire: seq<Sent>, c: nat) { forall i :: 0 <= i < |wire| ==> wire[i].at <= c }

  /** A request in flight keeps the time of its last datagram. */
  ghost predicate InStep(op: Op, wire: seq<Sent>) { Expects(op) ==> exists i :: Clocked(op, wire, i) }

  ghost predicate AllInStep(w: World) { forall k :: 0 <= k < |w.ops| ==> InStep(w.ops[k], w.wire) }

  /** Nobody waits under the ID, and the timeout of its last datagram has passed. */
  ghost predicate Overdue(w: World, id: nat, c: nat) {
    Retired(w, id) && exists i :: LastUnder(w.wire, id, i) && w.wire[i].at + w.wire[i].timeout <= c
  }

  predicate ReadTimedOut(op: Op) { !op.walking && op.status == Timeout }

  ghost predicate TimedOut(w: World, c: nat) {
    forall i :: 0 <= i < |w.completions| && ReadTimedOut(w.completions[i].state) ==>
      Overdue(w, w.completions[i].state.id, c)
  }

  ghost predicate OnPace(w: World, c: nat) { Past(w.wire, c) && Paced(w.wire) && AllInStep(w) && TimedOut(w, c) }

  lemma {:induction false} Later(w: World, c: nat, t: nat)
    requires OnPace(w, c) && c <= t
    ensures OnPace(w, t)
  {
    hide Retired, LastUnder, Clocked;
    forall i | 0 <= i < |w.completions| && ReadTimedOut(w.completions[i].state)
      ensures Overdue(w, w.completions[i].state.id, t)
    {
      assert Overdue(w, w.completions[i].state.id, c);
    }
  }

  lemma {:induction false} ClockPace(w: World, c: nat, t: nat)
    requires OnPace(w, t)
    ensures OnPace(w.(clock := c), t)
  {
    hide Clocked, LastUnder, Expects;
    var r := w.(clock := c);
    assert AllInStep(r);
    forall i | 0 <= i < |r.completions| && ReadTimedOut(r.completions[i].state)
      ensures Overdue(r, r.completions[i].state.id, t)
    {
      assert Overdue(w, w.completions[i].state.id, t);
    }
  }

  // ----- what logs no timeout of a read -----

  ghost predicate NoTimeouts(w: World, r: World) {
    && w.completions <= r.completions
    && forall i :: |w.completions| <= i < |r.completions| ==> r.completions[i].state.status != Timeout
  }

  lemma {:induction false} NoTimeoutsTransitive(a: World, b: World, c: World)
    requires NoTimeouts(a, b) && NoTimeouts(b, c)
    ensures NoTimeouts(a, c)
  {
    forall i | |a.completions| <= i < |c.completions|
      ensures c.completions[i].state.status != Timeout
    {
      assert i < |b.completions| ==> c.completions[i] == b.completions[i];
    }
  }

  lemma {:induction false} SameLog(w: World, r: World)
    requires r.completions == w.completions
    ensures NoTimeouts(w, r)
  {}

  lemma {:induction false} ActTimesNothing(w: World, act: Act, lim: Limits)
    ensures NoTimeouts(w, RunAct(w, act, lim))
    decreases act, 0
  {
    hide NoTimeouts, Schedule, SetRoot, Add, FinishOp;
    match act
    case Start(k) =>
      ScheduleLogs(w, k);
      SameLog(w, RunAct(w, act, lim));
    case Cancel(k, done) =>
      if k < |w.ops| && w.ops[k].Pending() {
        FinishTimesNothing(w, k, w.ops[k], Cancelled, done, lim);
      } else {
        SameLog(w, w);
      }
    case Configure(_, _) => SameLog(w, RunAct(w, act, lim));
    case AddName(_, _, _, _) => SameLog(w, RunAct(w, act, lim));
  }

  lemma {:induction false} ReleaseTimesNothing(w: World, k: nat, op: Op, outcome: Status)
    requires k < |w.ops| && outcome != Timeout
    ensures NoTimeouts(w, Release(w, k, op, outcome))
  {
    assert Finished(op, outcome).status == outcome;
    hide Finished;
  }

  lemma {:induction false} FinishTimesNothing(w: World, k: nat, op: Op, outcome: Status, done: seq<Act>, lim: Limits)
    requires k < |w.ops| && outcome != Timeout
    ensures NoTimeouts(w, FinishOp(w, k, op, outcome, done, lim))
    decreases done, 1
  {
    hide NoTimeouts, Release, RunActs;
    ReleaseTimesNothing(w, k, op, outcome);
    ActsTimeNothing(Release(w, k, op, outcome), done, lim);
    NoTimeoutsTransitive(w, Release(w, k, op, outcome), FinishOp(w, k, op, outcome, done, lim));
  }

  lemma {:induction false} ActsTimeNothing(w: World, acts: seq<Act>, lim: Limits)
    ensures NoTimeouts(w, RunActs(w, acts, lim))
    decreases acts, 0
  {
    hide NoTimeouts, RunAct;
    if acts == [] {
      SameLog(w, w);
    } else {
      var next := RunAct(w, acts[0], lim);
      ActTimesNothing(w, acts[0], lim);
      ActsTimeNothing(next, acts[1..], lim);
      NoTimeoutsTransitive(w, next, RunActs(w, acts, lim));
    }
  }

  lemma {:induction false} ResolveTimesNothing(w: World, k: nat, s: Step, done: seq<Act>, lim: Limits)
    requires k < |w.ops| && (s.Finish? ==> s.outcome != Timeout)
    ensures NoTimeouts(w, Resolve(w, k, s, done, lim))
  {
    hide NoTimeouts, FinishOp;
    if s.Finish? {
      FinishTimesNothing(w, k, s.op, s.outcome, done, lim);
    } else {
      SameLog(w, Resolve(w, k, s, done, lim));
    }
  }

  lemma {:induction false} LoopTimesNothing(w: World, k: nat, bs: seq<Binding>, any: bool, shows: seq<Show>,
                                            done: seq<Act>, lim: Limits)
    requires k < |w.ops|
    ensures NoTimeouts(w, WalkLoop(w, k, bs, any, shows, done, lim))
    decreases |bs|
  {
    var op, r := w.ops[k], WalkLoop(w, k, bs, any, shows, done, lim);
    hide NoTimeouts, FinishOp, WalkLoop, VisitBinding, RunActs, Resolve, Advanced, Collected;
    WalkLoopOver(w, k, bs, any, shows, done, lim);
    if bs == [] {
      ResolveTimesNothing(w, k, WalkEnd(op, any), done, lim);
    } else {
      VisitOutcome(op, bs[0], lim);
      match VisitBinding(op, bs[0], lim)
      case Stop(outcome) => FinishTimesNothing(w, k, op, outcome, done, lim);
      case Deliver(cell) =>
        if op.streaming {
          WalkLoopShown(w, k, bs, any, shows, done, lim);
          var show, w0 := FirstShow(shows), Put(w, k, Shown(op, cell));
          var w1 := RunActs(w0, show.acts, lim);
          SameLog(w, w0);
          ActsTimeNothing(w0, show.acts, lim);
          NoTimeoutsTransitive(w, w0, w1);
          FinishTimesNothing(w1, k, w1.ops[k], CapacityExceeded, done, lim);
          var w2 := Put(w1, k, Advanced(w1.ops[k], cell));
          SameLog(w1, w2);
          LoopTimesNothing(w2, k, bs[1..], true, LaterShows(shows), done, lim);
          NoTimeoutsTransitive(w1, w2, WalkLoop(w2, k, bs[1..], true, LaterShows(shows), done, lim));
          if r != w1 {
            NoTimeoutsTransitive(w, w1, r);
          }
        } else {
          WalkLoopCollected(w, k, bs, any, shows, done, lim);
          FinishTimesNothing(w, k, op, CapacityExceeded, done, lim);
          var w2 := Put(w, k, Collected(op, cell));
          SameLog(w, w2);
          LoopTimesNothing(w2, k, bs[1..], true, shows, done, lim);
          NoTimeoutsTransitive(w, w2, WalkLoop(w2, k, bs[1..], true, shows, done, lim));
        }
    }
  }

  lemma {:induction false} VisitOutcome(op: Op, b: Binding, lim: Limits)
    ensures VisitBinding(op, b, lim).Stop? ==> VisitBinding(op, b, lim).outcome != Timeout
  {}

  lemma {:induction false} CommitOutcome(op: Op, m: Message, lim: Limits)
    requires Repliable(op) && !op.walking && 1 <= op.batch
    ensures Commit(op, m, lim).Finish? ==> Commit(op, m, lim).outcome != Timeout
  {
    if Complete(op, m) && op.offset + op.batch == |op.cells| && |op.cells| == 1 {
      CommitReads(op.cells[0], m.bindings[0], lim);
    }
    hide Copyable, CopyValue;
  }

  lemma {:induction false} ReplyTimesNothing(w: World, k: nat, m: Message, env: ReplyEnv, lim: Limits)
    requires k < |w.ops| && Repliable(w.ops[k]) && (!w.ops[k].walking ==> 1 <= w.ops[k].batch)
    ensures NoTimeouts(w, Reply(w, k, m, env, lim))
  {
    hide NoTimeouts, Resolve, WalkLoop, Commit, ReplyHead;
    HeadOutcome(w.ops[k], m);
    var s := ReplyHead(w.ops[k], m);
    if !s.Bindings? {
      ResolveTimesNothing(w, k, s, env.done, lim);
    } else if s.op.walking {
      SameLog(w, Put(w, k, s.op));
      LoopTimesNothing(Put(w, k, s.op), k, m.bindings, false, env.shows, env.done, lim);
      NoTimeoutsTransitive(w, Put(w, k, s.op), Reply(w, k, m, env, lim));
    } else {
      CommitOutcome(s.op, m, lim);
      ResolveTimesNothing(w, k, Commit(s.op, m, lim), env.done, lim);
    }
  }

  lemma {:induction false} HeadOutcome(op: Op, m: Message)
    requires Repliable(op)
    ensures var s := ReplyHead(op, m);
            && (s.Finish? ==> s.outcome != Timeout)
            && (s.Bindings? ==> s.op.walking == op.walking && s.op.batch == op.batch && Repliable(s.op))
  {}

  lemma {:induction false} ReceiveTimesNothing(w: World, p: Packet, env: ReplyEnv, lim: Limits)
    requires Inv(w, lim)
    ensures NoTimeouts(w, Receive(w, p, env, lim))
  {
    hide NoTimeouts, Reply, Inv, SlotsOk, Repliable, Matches, OpInv;
    InvSlots(w, lim);
    SameLog(w, w);
    var j := FindMatch(w, 0, p.m, p.peer, p.port);
    if j < |w.slots| && Repliable(w.ops[w.slots[j]]) {
      OccupiedPending(w, j);
      MatchSent(w.ops[w.slots[j]], p);
      InvOp(w, w.slots[j], lim);
      BatchFacts(w.ops[w.slots[j]], lim);
      ReplyTimesNothing(w, w.slots[j], p.m, env, lim);
    }
  }

  // ----- steps that send nothing -----

  lemma {:induction false} TameInStep(a: Op, b: Op, wire: seq<Sent>)
    requires Timely(a, b) && InStep(a, wire)
    ensures InStep(b, wire)
  {
    hide LastUnder;
    if Expects(b) {
      var i :| Clocked(a, wire, i);
      assert Clocked(b, wire, i);
    }
  }

  lemma {:induction false} SameWireOverdue(w: World, r: World, id: nat, c: nat)
    requires Overdue(w, id, c) && r.wire == w.wire && Retired(r, id)
    ensures Overdue(r, id, c)
  {
    hide LastUnder, Retired;
  }

  lemma {:induction false} TamePace(w: World, r: World, c: nat)
    requires Tame(w, r) && NoTimeouts(w, r) && OnPace(w, c)
    ensures OnPace(r, c)
  {
    hide Evolves, InStep, Overdue, ReadTimedOut;
    forall k | 0 <= k < |r.ops|
      ensures InStep(r.ops[k], r.wire)
    {
      TameInStep(w.ops[k], r.ops[k], w.wire);
    }
    forall i | 0 <= i < |r.completions| && ReadTimedOut(r.completions[i].state)
      ensures Overdue(r, r.completions[i].state.id, c)
    {
      TimedOutBefore(w, r, i);
      OverdueRetired(w, w.completions[i].state.id, c);
      TameRetired(w, r, w.completions[i].state.id);
      SameWireOverdue(w, r, w.completions[i].state.id, c);
    }
  }

  lemma {:induction false} OverdueRetired(w: World, id: nat, c: nat)
    requires Overdue(w, id, c)
    ensures Retired(w, id)
  {}

  lemma {:induction false} TimedOutBefore(w: World, r: World, i: nat)
    requires NoTimeouts(w, r) && i < |r.completions| && ReadTimedOut(r.completions[i].state)
    ensures i < |w.completions| && w.completions[i] == r.completions[i]
  {}

  // ----- one visit -----

  /** The datagram that a visit adds, if any: under the ID of the visited request, or under a new one. */
  ghost predicate Adds(w: World, r: World, k: nat, t: nat)
    requires k < |w.ops|
  {
    || r.wire == w.wire
    || exists e :: r.wire == w.wire + [e] && AddedEntry(w, k, e, t)
  }

  ghost predicate AddedEntry(w: World, k: nat, e: Sent, t: nat)
    requires k < |w.ops|
  {
    e.at == t && if e.id == w.ops[k].id then Expects(w.ops[k]) && DueUnder(w.wire, e.id, t) else e.id > w.nextId
  }

  /** The timeouts of all datagrams under the ID have passed. */
  ghost predicate DueUnder(wire: seq<Sent>, id: nat, t: nat) {
    forall i :: 0 <= i < |wire| && wire[i].id == id ==> wire[i].at + wire[i].timeout <= t
  }

  lemma {:induction false} AddedPaced(w: World, k: nat, e: Sent, t: nat)
    requires k < |w.ops| && Paced(w.wire) && Past(w.wire, t) && AddedEntry(w, k, e, t)
    requires forall i :: 0 <= i < |w.wire| ==> w.wire[i].id <= w.nextId
    ensures Paced(w.wire + [e]) && Past(w.wire + [e], t)
  {
    hide Expects;
  }

  /** Another ID's last datagram stays its last. */
  lemma {:induction false} StillLast(wire: seq<Sent>, e: Sent, id: nat, i: int)
    requires LastUnder(wire, id, i) && e.id != id
    ensures LastUnder(wire + [e], id, i) && (wire + [e])[i] == wire[i]
  {}

  lemma {:induction false} OtherInStep(w: World, r: World, k: nat, l: nat, t: nat)
    requires IdsOk(w) && k < |w.ops| && l < |w.ops| && l != k && |r.ops| == |w.ops|
    requires Timely(w.ops[l], r.ops[l]) && InStep(w.ops[l], w.wire) && Adds(w, r, k, t)
    ensures InStep(r.ops[l], r.wire)
  {
    hide LastUnder, DueUnder;
    if Expects(r.ops[l]) {
      var i :| Clocked(w.ops[l], w.wire, i);
      if r.wire == w.wire {
        assert Clocked(r.ops[l], r.wire, i);
      } else {
        var e :| r.wire == w.wire + [e] && AddedEntry(w, k, e, t);
        assert e.id != w.ops[l].id;
        StillLast(w.wire, e, w.ops[l].id, i);
        assert Clocked(r.ops[l], r.wire, i);
      }
    }
  }

  lemma {:induction false} OldOverdue(w: World, r: World, k: nat, id: nat, t: nat)
    requires k < |w.ops| && Overdue(w, id, t) && Adds(w, r, k, t) && Retired(r, id)
    ensures Overdue(r, id, t)
  {
    hide DueUnder;
    if r.wire != w.wire {
      var e :| r.wire == w.wire + [e] && AddedEntry(w, k, e, t);
      var i :| LastUnder(w.wire, id, i) && w.wire[i].at + w.wire[i].timeout <= t;
      StillLast(w.wire, e, id, i);
    }
  }

  /** The completions that a visit adds: a read's timeout only once it is overdue. */
  ghost predicate Closes(w: World, r: World, t: nat) {
    && w.completions <= r.completions
    && forall i :: |w.completions| <= i < |r.completions| && ReadTimedOut(r.completions[i].state) ==>
         Overdue(r, r.completions[i].state.id, t)
  }

  lemma {:induction false} VisitPace(w: World, r: World, k: nat, t: nat, lim: Limits)
    requires Inv(w, lim) && k < |w.ops| && Visited(w, r, k) && OnPace(w, t)
    requires Adds(w, r, k, t) && InStep(r.ops[k], r.wire) && Closes(w, r, t)
    ensures OnPace(r, t)
  {
    VisitedTerms(w, r, k);
    WireIdsBounded(w, lim);
    InvIds(w, lim);
    hide Inv, InStep, Overdue, ReadTimedOut, Visited, IdsOk, Timely;
    if r.wire != w.wire {
      var e :| r.wire == w.wire + [e] && AddedEntry(w, k, e, t);
      AddedPaced(w, k, e, t);
    }
    forall l | 0 <= l < |r.ops|
      ensures InStep(r.ops[l], r.wire)
    {
      if l != k {
        OtherInStep(w, r, k, l, t);
      }
    }
    hide Adds;
    forall i | 0 <= i < |r.completions| && ReadTimedOut(r.completions[i].state)
      ensures Overdue(r, r.completions[i].state.id, t)
    {
      if i < |w.completions| {
        assert r.completions[i] == w.completions[i];
        OverdueRetired(w, w.completions[i].state.id, t);
        VisitedRetired(w, r, k, w.completions[i].state.id);
        OldOverdue(w, r, k, w.completions[i].state.id, t);
      }
    }
  }

  lemma {:induction false} VisitedTerms(w: World, r: World, k: nat)
    requires Visited(w, r, k)
    ensures |r.ops| == |w.ops| && w.completions <= r.completions
    ensures forall l :: 0 <= l < |w.ops| && l != k ==> Timely(w.ops[l], r.ops[l])
  {
    hide Evolves, Timely;
  }

  lemma {:induction false} WireIdsBounded(w: World, lim: Limits)
    requires Inv(w, lim)
    ensures forall i :: 0 <= i < |w.wire| ==> w.wire[i].id <= w.nextId
  {
    hide SlotsOk, IdsOk, OpsOk, NewOrRepeat, SameRequest, WireMatch, OnWire;
  }

  lemma {:induction false} InvIds(w: World, lim: Limits)
    requires Inv(w, lim)
    ensures IdsOk(w)
  {}

  // ----- ends -----

  /** An operation that does not wait under an ID does not come to do so by user code. */
  lemma {:induction false} ActIdles(w: World, act: Act, k: nat, lim: Limits)
    requires k < |w.ops| && !Waits(w.ops[k])
    ensures !Waits(RunAct(w, act, lim).ops[k])
    decreases act, 0
  {
    hide FinishOp, SetRoot, Add, Scheduled, FreeSlot;
    match act
    case Start(j) => ScheduledRests(w.ops[k]);
    case Cancel(j, done) =>
      if j < |w.ops| && w.ops[j].Pending() {
        FinishIdles(w, j, w.ops[j], Cancelled, done, k, lim);
      }
    case Configure(j, root) =>
      if j == k && w.ops[k].walking {
        ConfigureEvolves(w.ops[k], root, lim);
      }
    case AddName(j, name, expected, value) =>
      if j == k && !w.ops[k].walking {
        AddEvolves(w.ops[k], name, expected, value, lim);
      }
  }

  lemma {:induction false} ScheduledRests(op: Op)
    ensures !Waits(Scheduled(op))
  {}

  lemma {:induction false} FinishIdles(w: World, j: nat, op: Op, outcome: Status, done: seq<Act>, k: nat, lim: Limits)
    requires j < |w.ops| && k < |w.ops| && outcome != Status.Pending && (j == k || !Waits(w.ops[k]))
    ensures !Waits(FinishOp(w, j, op, outcome, done, lim).ops[k])
    decreases done, 1
  {
    FinishedIdle(op, outcome);
    hide Finished, RunActs;
    ActsIdle(Release(w, j, op, outcome), done, k, lim);
  }

  lemma {:induction false} ActsIdle(w: World, acts: seq<Act>, k: nat, lim: Limits)
    requires k < |w.ops| && !Waits(w.ops[k])
    ensures !Waits(RunActs(w, acts, lim).ops[k])
    decreases acts, 0
  {
    hide RunAct, Waits;
    if acts != [] {
      ActIdles(w, acts[0], k, lim);
      ActsIdle(RunAct(w, acts[0], lim), acts[1..], k, lim);
    }
  }

  lemma {:induction false} IdleInStep(op: Op, wire: seq<Sent>)
    requires !Waits(op)
    ensures InStep(op, wire)
  {}

  lemma {:induction false} ClosesNothing(w: World, r: World, t: nat)
    requires NoTimeouts(w, r)
    ensures Closes(w, r, t)
  {
    hide Overdue;
  }

  /** The timeouts of a request that is due have all passed. */
  lemma {:induction false} DueEntries(w: World, k: nat, t: nat, lim: Limits)
    requires Inv(w, lim) && AllReady(w) && k < |w.ops| && Expects(w.ops[k]) && OnPace(w, t)
    requires Elapsed(t % TWO32, w.ops[k].sentAt) >= w.ops[k].dev.timeoutMs
    ensures DueUnder(w.wire, w.ops[k].id, t)
    ensures exists i :: LastUnder(w.wire, w.ops[k].id, i) && w.wire[i].at + w.wire[i].timeout <= t
  {
    PaceTerms(w, t);
    hide Inv, AllReady, Elapsed, CanSend, Packed, TimedOut, AllInStep, OnPace, Paced, Past, Clocked, LastUnder, Expects;
    var i := ClockedAt(w, k);
    ClockedTerms(w.ops[k], w.wire, i);
    ClockedLast(w.ops[k], w.wire, i);
    FlightTerms(w, k, i, lim);
    PastAt(w.wire, i, t);
    ElapsedSince(t, w.wire[i].at);
    DueAll(w.wire, w.ops[k].id, i, t);
  }

  lemma {:induction false} PaceTerms(w: World, t: nat)
    requires OnPace(w, t)
    ensures Past(w.wire, t) && Paced(w.wire) && AllInStep(w)
  {}

  lemma {:induction false} PastAt(wire: seq<Sent>, i: nat, t: nat)
    requires Past(wire, t) && i < |wire|
    ensures wire[i].at <= t
  {}

  lemma {:induction false} ClockedLast(op: Op, wire: seq<Sent>, i: int)
    requires Clocked(op, wire, i)
    ensures LastUnder(wire, op.id, i)
  {}

  lemma {:induction false} DueAll(wire: seq<Sent>, id: nat, last: int, t: nat)
    requires Paced(wire) && LastUnder(wire, id, last) && wire[last].at + wire[last].timeout <= t
    ensures DueUnder(wire, id, t)
  {}

  lemma {:induction false} ClockedAt(w: World, k: nat) returns (i: int)
    requires k < |w.ops| && Expects(w.ops[k]) && AllInStep(w)
    ensures Clocked(w.ops[k], w.wire, i)
  {
    assert InStep(w.ops[k], w.wire);
    i :| Clocked(w.ops[k], w.wire, i);
  }

  lemma {:induction false} ExpirePace(w: World, k: nat, t: nat, env: SlotEnv, lim: Limits)
    requires Inv(w, lim) && AllReady(w) && k < |w.ops| && w.ops[k].Pending() && OnPace(w, t)
    requires TickOp(w.ops[k], t % TWO32).Expire?
    ensures OnPace(TickSlot(w, k, t, env, lim), t)
  {
    var op, r := w.ops[k], FinishOp(w, k, w.ops[k], Timeout, env.done, lim);
    TickForm(op, t % TWO32);
    assert TickSlot(w, k, t, env, lim) == r;
    hide Inv, AllReady, TickOp, FinishOp, OnPace, Visited, Closes, Grew, SameStart, InStep, TickSlot, AddedEntry, Waits;
    TickSlotKeeps(w, k, t, env, lim);
    FinishIdles(w, k, op, Timeout, env.done, k, lim);
    IdleInStep(r.ops[k], r.wire);
    FinishLogs(w, k, op, Timeout, env.done, lim);
    ExpireCloses(w, k, t, env, lim);
    VisitPace(w, r, k, t, lim);
  }

  lemma {:induction false} ExpireDue(op: Op, t: nat)
    requires TickOp(op, t % TWO32).Expire? && !op.walking
    ensures op.sent && Elapsed(t % TWO32, op.sentAt) >= op.dev.timeoutMs
  {
    hide Elapsed;
  }

  lemma {:induction false} ExpireCloses(w: World, k: nat, t: nat, env: SlotEnv, lim: Limits)
    requires Inv(w, lim) && AllReady(w) && k < |w.ops| && w.ops[k].Pending() && OnPace(w, t)
    requires TickOp(w.ops[k], t % TWO32).Expire?
    requires Visited(w, FinishOp(w, k, w.ops[k], Timeout, env.done, lim), k)
    ensures Closes(w, FinishOp(w, k, w.ops[k], Timeout, env.done, lim), t)
  {
    hide *;
    var op, w1 := w.ops[k], Release(w, k, w.ops[k], Timeout);
    var r := FinishOp(w, k, op, Timeout, env.done, lim);
    FinishRuns(w, k, op, Timeout, env.done, lim);
    ReleaseLog(w, k, op, Timeout);
    ActsTimeNothing(w1, env.done, lim);
    if !op.walking {
      ExpiredOverdue(w, r, k, t, env, lim);
    }
    ClosesFirst(w, w1, r, Completion(k, Finished(op, Timeout)), t);
  }

  lemma {:induction false} FinishRuns(w: World, k: nat, op: Op, outcome: Status, done: seq<Act>, lim: Limits)
    requires k < |w.ops|
    ensures FinishOp(w, k, op, outcome, done, lim) == RunActs(Release(w, k, op, outcome), done, lim)
  {
    hide Release, RunActs;
  }

  lemma {:induction false} ClosesFirst(w: World, w1: World, r: World, c: Completion, t: nat)
    requires w1.completions == w.completions + [c] && NoTimeouts(w1, r)
    requires !c.state.walking ==> Overdue(r, c.state.id, t)
    ensures Closes(w, r, t)
  {
    hide Overdue;
    assert r.completions[..|w1.completions|] == w1.completions;
  }

  lemma {:induction false} ReleaseLog(w: World, k: nat, op: Op, outcome: Status)
    requires k < |w.ops|
    ensures Release(w, k, op, outcome).completions == w.completions + [Completion(k, Finished(op, outcome))]
    ensures Finished(op, outcome).id == op.id && Finished(op, outcome).walking == op.walking
  {}

  lemma {:induction false} ExpiredOverdue(w: World, r: World, k: nat, t: nat, env: SlotEnv, lim: Limits)
    requires Inv(w, lim) && AllReady(w) && k < |w.ops| && w.ops[k].Pending() && OnPace(w, t) && !w.ops[k].walking
    requires TickOp(w.ops[k], t % TWO32).Expire? && r == FinishOp(w, k, w.ops[k], Timeout, env.done, lim)
    requires Visited(w, r, k)
    ensures Overdue(r, w.ops[k].id, t)
  {
    var op := w.ops[k];
    hide Inv, AllReady, TickOp, FinishOp, OnPace, Visited, LastUnder, Repliable, DueUnder, Elapsed;
    ExpireDue(op, t);
    SlotExpects(w, k, lim);
    DueEntries(w, k, t, lim);
    FinishLogs(w, k, op, Timeout, env.done, lim);
    FinishIdles(w, k, op, Timeout, env.done, k, lim);
    VisitedTerms(w, r, k);
    InvIds(w, lim);
    GivenUp(w, r, k);
  }

  lemma {:induction false} GivenUp(w: World, r: World, k: nat)
    requires IdsOk(w) && k < |w.ops| && |r.ops| == |w.ops| && r.nextId == w.nextId && !Waits(r.ops[k])
    requires w.ops[k].id != 0
    requires forall l :: 0 <= l < |w.ops| && l != k ==> Timely(w.ops[l], r.ops[l])
    ensures Retired(r, w.ops[k].id)
  {}

  lemma {:induction false} KeepPace(w: World, k: nat, t: nat, env: SlotEnv, lim: Limits)
    requires Inv(w, lim) && AllReady(w) && k < |w.ops| && w.ops[k].Pending() && OnPace(w, t)
    requires TickOp(w.ops[k], t % TWO32).Keep?
    ensures OnPace(TickSlot(w, k, t, env, lim), t)
  {
    var op, o := w.ops[k], TickOp(w.ops[k], t % TWO32).op;
    var r := Put(w, k, o);
    hide Inv, AllReady, TickOp, Visited, Closes, Grew, SameStart, InStep, Past, Paced, TimedOut;
    TickForm(op, t % TWO32);
    TickSlotKeeps(w, k, t, env, lim);
    KeptInStep(op, o, w.wire);
    SameLog(w, r);
    ClosesNothing(w, r, t);
    VisitPace(w, r, k, t, lim);
  }

  lemma {:induction false} KeptInStep(op: Op, o: Op, wire: seq<Sent>)
    requires InStep(op, wire) && (o == op || !o.sent)
    ensures InStep(o, wire)
  {}

  lemma {:induction false} SendDue(op: Op, t: nat)
    requires TickOp(op, t % TWO32).Send? && op.sent
    ensures Elapsed(t % TWO32, op.sentAt) >= op.dev.timeoutMs
  {
    hide Elapsed;
  }

  /** The datagram that a due operation hands over. */
  lemma {:induction false} SentEntry(w: World, k: nat, t: nat, lim: Limits)
    requires Inv(w, lim) && AllReady(w) && k < |w.ops| && w.ops[k].Pending() && OnPace(w, t)
    requires TickOp(w.ops[k], t % TWO32).Send?
    ensures var o := Stamped(TickOp(w.ops[k], t % TWO32).op, t);
            var e := Entry(k, Transmitting(o, w.nextId, lim), t, lim);
            && o.Pending() && e.id == Transmitting(o, w.nextId, lim).id
            && AddedEntry(w, k, e, t) && Logged(w, k, o, t, lim).wire == w.wire + [e]
            && (!o.sent ==> e.id > w.nextId) && (o.sent ==> e.id == o.id)
            && Logged(w, k, o, t, lim).completions == w.completions
  {
    var op := w.ops[k];
    hide Inv, AllReady, TickOp, OnPace, Repliable, Elapsed, Handed, Entry, Transmitting, Logged, Expects, DueUnder;
    TickForm(op, t % TWO32);
    var o := Stamped(TickOp(op, t % TWO32).op, t);
    assert o.Pending() && o.sent == op.sent && o.id == op.id;
    LoggedTerms(w, k, o, t, lim);
    EntryTime(k, Transmitting(o, w.nextId, lim), t, lim);
    InvIds(w, lim);
    if op.sent {
      SlotExpects(w, k, lim);
      SendDue(op, t);
      DueEntries(w, k, t, lim);
    }
  }

  lemma {:induction false} EntryTime(k: nat, tx: Op, t: nat, lim: Limits)
    ensures Entry(k, tx, t, lim).at == t
  {
    hide RequestOctets;
  }

  lemma {:induction false} SendPace(w: World, k: nat, t: nat, env: SlotEnv, lim: Limits)
    requires Inv(w, lim) && AllReady(w) && k < |w.ops| && w.ops[k].Pending() && OnPace(w, t)
    requires TickOp(w.ops[k], t % TWO32).Send?
    ensures OnPace(TickSlot(w, k, t, env, lim), t)
  {
    var o, r := Stamped(TickOp(w.ops[k], t % TWO32).op, t), TickSlot(w, k, t, env, lim);
    hide *;
    TickIs(w, k, t, env, lim);
    TickSlotKeeps(w, k, t, env, lim);
    SentEntry(w, k, t, lim);
    SendOpIs(w, k, o, t, env, lim);
    SendResult(w, k, o, t, env, lim);
    VisitPace(w, r, k, t, lim);
  }

  lemma {:induction false} SendResult(w: World, k: nat, o: Op, t: nat, env: SlotEnv, lim: Limits)
    requires k < |w.ops| && o.Pending()
    requires var e := Entry(k, Transmitting(o, w.nextId, lim), t, lim);
             && AddedEntry(w, k, e, t) && Logged(w, k, o, t, lim).wire == w.wire + [e]
             && Logged(w, k, o, t, lim).completions == w.completions
             && e.id == Transmitting(o, w.nextId, lim).id
    ensures var r := SendOp(w, k, o, t, env, lim);
            Adds(w, r, k, t) && InStep(r.ops[k], r.wire) && Closes(w, r, t)
  {
    var tx, w1, r := Transmitting(o, w.nextId, lim), Logged(w, k, o, t, lim), SendOp(w, k, o, t, env, lim);
    var packed := o.(batch := Packed(o, lim));
    hide FinishOp, CanSend, Packed, Transmitting, Logged, SendOp, Entry, AddedEntry, InStep, Closes, NoTimeouts;
    SendOpIs(w, k, o, t, env, lim);
    if !CanSend(o, lim) || (!o.sent && w.nextId >= MAX_ID) {
      FinishIdles(w, k, packed, CapacityExceeded, env.done, k, lim);
      FinishLogs(w, k, packed, CapacityExceeded, env.done, lim);
      FinishTimesNothing(w, k, packed, CapacityExceeded, env.done, lim);
      IdleInStep(r.ops[k], r.wire);
    } else if !env.transport {
      FinishIdles(w1, k, tx, TransportError, env.done, k, lim);
      FinishLogs(w1, k, tx, TransportError, env.done, lim);
      FinishTimesNothing(w1, k, tx, TransportError, env.done, lim);
      SameLog(w, w1);
      NoTimeoutsTransitive(w, w1, r);
      IdleInStep(r.ops[k], r.wire);
    } else {
      SameLog(w, r);
      NewInStep(Transmitted(tx, t % TWO32), w.wire, Entry(k, tx, t, lim), k, tx, t, lim);
    }
    ClosesNothing(w, r, t);
  }

  lemma {:induction false} NewInStep(op: Op, wire: seq<Sent>, e: Sent, k: nat, tx: Op, t: nat, lim: Limits)
    requires op == Transmitted(tx, t % TWO32) && e == Entry(k, tx, t, lim)
    ensures InStep(op, wire + [e])
  {
    hide RequestOctets;
    if Expects(op) {
      assert Clocked(op, wire + [e], |wire|);
    }
  }

  lemma {:induction false} TickPace(w: World, k: nat, t: nat, env: SlotEnv, lim: Limits)
    requires Inv(w, lim) && AllReady(w) && k < |w.ops| && w.ops[k].Pending() && OnPace(w, t)
    ensures OnPace(TickSlot(w, k, t, env, lim), t)
  {
    hide Inv, AllReady, OnPace, TickOp, TickSlot;
    match TickOp(w.ops[k], t % TWO32)
    case Expire(_) => ExpirePace(w, k, t, env, lim);
    case Keep(_) => KeepPace(w, k, t, env, lim);
    case Send(_) => SendPace(w, k, t, env, lim);
  }

  // ----- runs -----

  lemma {:induction false} SlotsPace(w: World, i: nat, t: nat, envs: seq<SlotEnv>, lim: Limits)
    requires Inv(w, lim) && AllReady(w) && i <= |w.slots| && OnPace(w, t)
    ensures OnPace(TickSlots(w, i, t, envs, lim), t)
    decreases |w.slots| - i
  {
    hide Inv, AllReady, OnPace, TickSlot, Grown, SlotsOk;
    if i < |w.slots| {
      InvSlots(w, lim);
      if w.slots[i] != FREE {
        OccupiedPending(w, i);
        TickPace(w, w.slots[i], t, EnvAt(envs, i), lim);
      }
      VisitSlotKeeps(w, i, t, EnvAt(envs, i), lim);
      SlotsPace(VisitSlot(w, i, t, EnvAt(envs, i), lim), i + 1, t, envs, lim);
    }
  }

  lemma {:induction false} NextPace(w: World, e: Event, lim: Limits)
    requires Inv(w, lim) && AllReady(w) && ParsedEvent(e, lim) && OnPace(w, w.clock)
    requires e.Loop? ==> w.clock <= e.t
    ensures OnPace(Next(w, e, lim), Next(w, e, lim).clock)
  {
    hide Inv, AllReady, OnPace, Receive, TickSlots, RunActs, Tame, Calm, Sendable, NoTimeouts;
    match e
    case Loop(t, incoming, reply, envs) =>
      if w.begun {
        var w1 := w;
        if incoming.Some? {
          ReceiveKeeps(w, incoming.value, reply, lim);
          ReceiveTimesNothing(w, incoming.value, reply, lim);
          w1 := Receive(w, incoming.value, reply, lim);
          TamePace(w, w1, w.clock);
        }
        Later(w1, w.clock, t);
        SlotsPace(w1, 0, t, envs, lim);
        ClockPace(TickSlots(w1, 0, t, envs, lim), t, t);
      }
    case User(acts) =>
      var r := RunActs(w, acts, lim);
      RunActsKeeps(w, acts, lim);
      CalmIsTame(w, r);
      ActsTimeNothing(w, acts, lim);
      TamePace(w, r, w.clock);
      TameClock(w, r);
  }

  /** Loop calls do not go back in time. */
  ghost predicate Forward(w: World, es: seq<Event>, lim: Limits) {
    forall i :: 0 <= i < |es| && es[i].Loop? ==> Run(w, es[..i], lim).clock <= es[i].t
  }

  lemma {:induction false} RunPace(w: World, es: seq<Event>, lim: Limits)
    requires Initial(w, lim) && ParsedEvents(es, lim) && Forward(w, es, lim)
    ensures OnPace(Run(w, es, lim), Run(w, es, lim).clock)
    decreases |es|
  {
    hide Inv, AllReady, Next, ParsedEvent, OnPace, Initial;
    if es == [] {
      InitialPace(w, lim);
    } else {
      var before := es[..|es| - 1];
      assert forall i :: 0 <= i < |before| ==> before[i] == es[i] && before[..i] == es[..i];
      RunPace(w, before, lim);
      Reachable(w, before, lim);
      NextPace(Run(w, before, lim), es[|es| - 1], lim);
    }
  }

  lemma {:induction false} InitialPace(w: World, lim: Limits)
    requires Initial(w, lim)
    ensures OnPace(w, w.clock)
  {
    forall k | 0 <= k < |w.ops|
      ensures InStep(w.ops[k], w.wire)
    {
      assert Fresh(w.ops[k], lim);
    }
  }

  /**
   * Retransmission, on true time and for every run whose loop calls do not go back: the datagrams of one request leave
   * at least its timeout apart, and a read is over as Timeout only when the timeout of its last datagram has passed,
   * as of the loop call that ended it.
   */
  lemma {:induction false} RetransmissionsKeepTheirDistance(w: World, es: seq<Event>, i: nat, j: nat, c: nat,
                                                            lim: Limits)
    requires Initial(w, lim) && ParsedEvents(es, lim) && Forward(w, es, lim)
    ensures var r := Run(w, es, lim);
            && (i < j < |r.wire| && r.wire[i].id == r.wire[j].id ==> r.wire[i].at + r.wire[i].timeout <= r.wire[j].at)
            && (c < |r.completions| && !r.completions[c].state.walking && r.completions[c].state.status == Timeout ==>
                  exists last :: LastUnder(r.wire, r.completions[c].state.id, last)
                                 && r.wire[last].at + r.wire[last].timeout <= r.clock)
  {
    RunPace(w, es, lim);
    var r := Run(w, es, lim);
    hide Initial, ParsedEvents, Forward, Run, LastUnder, Retired, AllInStep;
    if c < |r.completions| && ReadTimedOut(r.completions[c].state) {
      assert Overdue(r, r.completions[c].state.id, r.clock);
    }
  }

  // ----- nothing overdue -----

  /** Loop calls closer together than this keep the wrapped clock unambiguous for every request. */
  ghost predicate Near(c: nat, t: nat) { c <= t && t - c < TWO32 - MAX_ID }

  /** The last datagram of a request in flight is younger than its timeout. */
  ghost predicate Young(op: Op, wire: seq<Sent>, c: nat) {
    Expects(op) ==> exists i :: Clocked(op, wire, i) && wire[i].at <= c < wire[i].at + wire[i].timeout
  }

  /** Operations still to be visited are young for the previous loop call, the others for this one. */
  ghost predicate YoungAfter(w: World, i: nat, c: nat, t: nat)
    requires i <= |w.slots|
  {
    forall k :: 0 <= k < |w.ops| ==> Young(w.ops[k], w.wire, t) || (Young(w.ops[k], w.wire, c) && k in w.slots[i..])
  }

  ghost predicate AllYoung(w: World, c: nat) { forall k :: 0 <= k < |w.ops| ==> Young(w.ops[k], w.wire, c) }

  lemma {:induction false} IdleIsYoung(op: Op, wire: seq<Sent>, t: nat)
    requires !Waits(op) || !op.sent
    ensures Young(op, wire, t)
  {}

  lemma {:induction false} TickAdds(w: World, k: nat, t: nat, env: SlotEnv, lim: Limits)
    requires Inv(w, lim) && AllReady(w) && k < |w.ops| && w.ops[k].Pending() && OnPace(w, t)
    ensures Adds(w, TickSlot(w, k, t, env, lim), k, t)
  {
    var op := w.ops[k];
    hide Inv, AllReady, OnPace, TickOp, TickSlot, FinishOp, SendOp, InStep, Closes, AddedEntry;
    TickIs(w, k, t, env, lim);
    match TickOp(op, t % TWO32)
    case Expire(o) => FinishLogs(w, k, o, Timeout, env.done, lim);
    case Keep(_) =>
    case Send(_) =>
      SentEntry(w, k, t, lim);
      SendResult(w, k, Stamped(TickOp(op, t % TWO32).op, t), t, env, lim);
  }

  /** What the visit leaves of a request that was young at the previous loop call is young at this one. */
  lemma {:induction false} TickYoung(w: World, k: nat, c: nat, t: nat, env: SlotEnv, lim: Limits)
    requires Inv(w, lim) && AllReady(w) && k < |w.ops| && w.ops[k].Pending() && OnPace(w, t) && Near(c, t)
    requires Young(w.ops[k], w.wire, c) || Young(w.ops[k], w.wire, t)
    ensures var r := TickSlot(w, k, t, env, lim); Young(r.ops[k], r.wire, t)
  {
    var op, r := w.ops[k], TickSlot(w, k, t, env, lim);
    hide Inv, AllReady, OnPace, TickOp, TickSlot, FinishOp, SendOp, Young, Adds, InStep, Closes, Waits, Stamped;
    TickIs(w, k, t, env, lim);
    TickForm(op, t % TWO32);
    match TickOp(op, t % TWO32)
    case Expire(o) =>
      FinishIdles(w, k, o, Timeout, env.done, k, lim);
      IdleIsYoung(r.ops[k], r.wire, t);
    case Keep(o) =>
      if o == op {
        KeptYoung(w, k, c, t, lim);
      } else {
        IdleIsYoung(o, r.wire, t);
      }
    case Send(_) => SentYoung(w, k, t, env, lim);
  }

  lemma {:induction false} NotDue(op: Op, t: nat)
    requires TickOp(op, t % TWO32) == Keep(op) && op.sent
    ensures Elapsed(t % TWO32, op.sentAt) < op.dev.timeoutMs
  {
    hide Elapsed;
  }

  lemma {:induction false} KeptYoung(w: World, k: nat, c: nat, t: nat, lim: Limits)
    requires Inv(w, lim) && AllReady(w) && k < |w.ops| && Near(c, t)
    requires Young(w.ops[k], w.wire, c) || Young(w.ops[k], w.wire, t)
    requires TickOp(w.ops[k], t % TWO32) == Keep(w.ops[k])
    ensures Young(w.ops[k], w.wire, t)
  {
    var op := w.ops[k];
    if Expects(op) && Young(op, w.wire, c) {
      var i :| Clocked(op, w.wire, i) && w.wire[i].at <= c < w.wire[i].at + w.wire[i].timeout;
      ClockedTerms(op, w.wire, i);
      hide Inv, AllReady, TickOp, Elapsed, LastUnder, CanSend, Packed, Clocked;
      FlightTerms(w, k, i, lim);
      NotDue(op, t);
      ElapsedSince(t, w.wire[i].at);
      assert Clocked(op, w.wire, i);
    }
  }

  lemma {:induction false} SentYoung(w: World, k: nat, t: nat, env: SlotEnv, lim: Limits)
    requires Inv(w, lim) && AllReady(w) && k < |w.ops| && w.ops[k].Pending() && OnPace(w, t)
    requires TickOp(w.ops[k], t % TWO32).Send?
    ensures var r := TickSlot(w, k, t, env, lim); Young(r.ops[k], r.wire, t)
  {
    var o, r := Stamped(TickOp(w.ops[k], t % TWO32).op, t), TickSlot(w, k, t, env, lim);
    var tx, packed := Transmitting(o, w.nextId, lim), o.(batch := Packed(o, lim));
    PositiveTimeout(w, k, lim);
    TickTimeout(w.ops[k], t);
    hide Inv, AllReady, OnPace, TickOp, TickSlot, FinishOp, SendOp, Young, CanSend, Packed, Transmitting, Logged, Entry,
      Stamped, AddedEntry, Waits;
    TickIs(w, k, t, env, lim);
    SentEntry(w, k, t, lim);
    SendOpIs(w, k, o, t, env, lim);
    if !CanSend(o, lim) || (!o.sent && w.nextId >= MAX_ID) {
      FinishIdles(w, k, packed, CapacityExceeded, env.done, k, lim);
      IdleIsYoung(r.ops[k], r.wire, t);
    } else if !env.transport {
      FinishIdles(Logged(w, k, o, t, lim), k, tx, TransportError, env.done, k, lim);
      IdleIsYoung(r.ops[k], r.wire, t);
    } else {
      NewYoung(w.wire, k, o, w.nextId, t, lim);
    }
  }

  lemma {:induction false} PositiveTimeout(w: World, k: nat, lim: Limits)
    requires Inv(w, lim) && k < |w.ops| && w.ops[k].Pending()
    ensures w.ops[k].dev.timeoutMs > 0
  {
    InvOp(w, k, lim);
  }

  lemma {:induction false} TickTimeout(op: Op, t: nat)
    ensures Stamped(TickOp(op, t % TWO32).op, t).dev == op.dev
  {
    TickForm(op, t % TWO32);
    hide TickOp;
  }

  lemma {:induction false} NewYoung(wire: seq<Sent>, k: nat, o: Op, nextId: nat, t: nat, lim: Limits)
    requires o.dev.timeoutMs > 0
    ensures var tx := Transmitting(o, nextId, lim);
            Young(Transmitted(tx, t % TWO32), wire + [Entry(k, tx, t, lim)], t)
  {
    hide RequestOctets, Packed;
    var tx := Transmitting(o, nextId, lim);
    if Expects(Transmitted(tx, t % TWO32)) {
      assert Clocked(Transmitted(tx, t % TWO32), wire + [Entry(k, tx, t, lim)], |wire|);
    }
  }

  lemma {:induction false} TimelyYoung(a: Op, b: Op, wire: seq<Sent>, c: nat)
    requires Timely(a, b) && Young(a, wire, c)
    ensures Young(b, wire, c)
  {
    if Expects(b) {
      var i :| Clocked(a, wire, i) && wire[i].at <= c < wire[i].at + wire[i].timeout;
      assert Clocked(b, wire, i);
    }
  }

  lemma {:induction false} OtherYoung(w: World, r: World, k: nat, l: nat, c: nat, t: nat)
    requires IdsOk(w) && k < |w.ops| && l < |w.ops| && l != k && |r.ops| == |w.ops|
    requires Timely(w.ops[l], r.ops[l]) && Young(w.ops[l], w.wire, c) && Adds(w, r, k, t)
    ensures Young(r.ops[l], r.wire, c)
  {
    TimelyYoung(w.ops[l], r.ops[l], w.wire, c);
    hide DueUnder;
    if r.wire != w.wire && Expects(r.ops[l]) {
      var i :| Clocked(r.ops[l], w.wire, i) && w.wire[i].at <= c < w.wire[i].at + w.wire[i].timeout;
      var e :| r.wire == w.wire + [e] && AddedEntry(w, k, e, t);
      assert e.id != w.ops[l].id;
      StillLast(w.wire, e, r.ops[l].id, i);
      assert Clocked(r.ops[l], r.wire, i);
    }
  }

  lemma {:induction false} VisitYoung(w: World, r: World, i: nat, c: nat, t: nat)
    requires IdsOk(w) && i < |w.slots| && YoungAfter(w, i, c, t) && 0 <= w.slots[i] < |w.ops|
    requires Visited(w, r, w.slots[i]) && Adds(w, r, w.slots[i], t) && Young(r.ops[w.slots[i]], r.wire, t)
    ensures |r.slots| == |w.slots| && YoungAfter(r, i + 1, c, t)
  {
    VisitedTerms(w, r, w.slots[i]);
    VisitedSlots(w, r, w.slots[i]);
    hide Visited, IdsOk, Adds, Young, Timely;
    forall k | 0 <= k < |r.ops|
      ensures Young(r.ops[k], r.wire, t) || (Young(r.ops[k], r.wire, c) && k in r.slots[i + 1..])
    {
      if k != w.slots[i] {
        assert Timely(w.ops[k], r.ops[k]);
        if Young(w.ops[k], w.wire, t) {
          OtherYoung(w, r, w.slots[i], k, t, t);
        } else if !Waits(r.ops[k]) {
          IdleIsYoung(r.ops[k], r.wire, t);
        } else {
          OtherYoung(w, r, w.slots[i], k, c, t);
          StillToVisit(w, r, i, k);
        }
      }
    }
  }

  lemma {:induction false} StillToVisit(w: World, r: World, i: nat, k: nat)
    requires i < |w.slots| && k < |w.ops| && k != w.slots[i] && k in w.slots[i..]
    requires SlotsStay(w, r) && Waits(r.ops[k])
    ensures k in r.slots[i + 1..]
  {
    var j :| 0 <= j < |w.slots[i..]| && w.slots[i..][j] == k;
    assert w.slots[i + j] == k && j > 0;
    assert r.slots[i + j] == k;
    assert r.slots[i + 1..][j - 1] == k;
  }

  lemma {:induction false} VisitedSlots(w: World, r: World, k: nat)
    requires Visited(w, r, k)
    ensures SlotsStay(w, r)
  {}

  lemma {:induction false} FreeYoung(w: World, i: nat, c: nat, t: nat)
    requires i < |w.slots| && w.slots[i] == FREE && YoungAfter(w, i, c, t)
    ensures YoungAfter(w, i + 1, c, t)
  {
    hide Young;
    forall k | 0 <= k < |w.ops| && !Young(w.ops[k], w.wire, t)
      ensures Young(w.ops[k], w.wire, c) && k in w.slots[i + 1..]
    {
      var j :| 0 <= j < |w.slots[i..]| && w.slots[i..][j] == k;
      assert w.slots[i + 1..][j - 1] == k;
    }
  }

  lemma {:induction false} SlotYoung(w: World, i: nat, c: nat, t: nat, env: SlotEnv, lim: Limits)
    requires Inv(w, lim) && AllReady(w) && i < |w.slots| && OnPace(w, t) && Near(c, t) && YoungAfter(w, i, c, t)
    ensures var r := VisitSlot(w, i, t, env, lim);
            |r.slots| == |w.slots| && YoungAfter(r, i + 1, c, t) && OnPace(r, t)
  {
    hide Inv, AllReady, OnPace, TickSlot, Young, Visited, Near, SlotsOk, Adds, IdsOk, Grew, SameStart, Stamped, TickOp;
    InvSlots(w, lim);
    InvIds(w, lim);
    if w.slots[i] == FREE {
      FreeYoung(w, i, c, t);
    } else {
      OccupiedPending(w, i);
      var k: nat := w.slots[i];
      TickSlotKeeps(w, k, t, env, lim);
      TickPace(w, k, t, env, lim);
      TickAdds(w, k, t, env, lim);
      TickYoung(w, k, c, t, env, lim);
      VisitYoung(w, TickSlot(w, k, t, env, lim), i, c, t);
    }
  }

  lemma {:induction false} SlotsYoung(w: World, i: nat, c: nat, t: nat, envs: seq<SlotEnv>, lim: Limits)
    requires Inv(w, lim) && AllReady(w) && i <= |w.slots| && OnPace(w, t) && Near(c, t) && YoungAfter(w, i, c, t)
    ensures AllYoung(TickSlots(w, i, t, envs, lim), t)
    decreases |w.slots| - i
  {
    hide Inv, AllReady, OnPace, VisitSlot, Young, Near, Grown;
    if i < |w.slots| {
      VisitSlotKeeps(w, i, t, EnvAt(envs, i), lim);
      SlotYoung(w, i, c, t, EnvAt(envs, i), lim);
      SlotsYoung(VisitSlot(w, i, t, EnvAt(envs, i), lim), i + 1, c, t, envs, lim);
    }
  }

  lemma {:induction false} TameYoung(w: World, r: World, c: nat)
    requires Tame(w, r) && AllYoung(w, c)
    ensures AllYoung(r, c)
  {
    hide Evolves, Young;
    forall k | 0 <= k < |r.ops|
      ensures Young(r.ops[k], r.wire, c)
    {
      TimelyYoung(w.ops[k], r.ops[k], w.wire, c);
    }
  }

  lemma {:induction false} AllToVisit(w: World, c: nat, t: nat, lim: Limits)
    requires Inv(w, lim) && AllYoung(w, c)
    ensures YoungAfter(w, 0, c, t)
  {
    hide Inv, Young;
    InvSlots(w, lim);
    assert w.slots[0..] == w.slots;
    forall k | 0 <= k < |w.ops|
      ensures Young(w.ops[k], w.wire, t) || k in w.slots
    {
      if !Waits(w.ops[k]) {
        IdleIsYoung(w.ops[k], w.wire, t);
      }
    }
  }

  lemma {:induction false} ClockYoung(w: World, c: nat, t: nat)
    requires AllYoung(w, t)
    ensures AllYoung(w.(clock := c), t)
  {
    hide Young;
  }

  lemma {:induction false} NextYoung(w: World, e: Event, lim: Limits)
    requires Inv(w, lim) && AllReady(w) && ParsedEvent(e, lim) && OnPace(w, w.clock) && AllYoung(w, w.clock)
    requires e.Loop? ==> Near(w.clock, e.t)
    ensures AllYoung(Next(w, e, lim), Next(w, e, lim).clock)
  {
    hide Inv, AllReady, OnPace, AllYoung, YoungAfter, Receive, TickSlots, RunActs, Tame, Calm, Sendable, NoTimeouts;
    match e
    case Loop(t, incoming, reply, envs) =>
      if w.begun {
        var w1 := w;
        if incoming.Some? {
          ReceiveKeeps(w, incoming.value, reply, lim);
          ReceiveTimesNothing(w, incoming.value, reply, lim);
          w1 := Receive(w, incoming.value, reply, lim);
          TamePace(w, w1, w.clock);
          TameYoung(w, w1, w.clock);
        }
        Later(w1, w.clock, t);
        AllToVisit(w1, w.clock, t, lim);
        SlotsYoung(w1, 0, w.clock, t, envs, lim);
        ClockYoung(TickSlots(w1, 0, t, envs, lim), t, t);
      }
    case User(acts) =>
      var r := RunActs(w, acts, lim);
      RunActsKeeps(w, acts, lim);
      CalmIsTame(w, r);
      TameYoung(w, r, w.clock);
      TameClock(w, r);
  }

  /** Loop calls at most 2^31 ms apart. */
  ghost predicate Frequent(w: World, es: seq<Event>, lim: Limits) {
    forall i :: 0 <= i < |es| && es[i].Loop? ==> Near(Run(w, es[..i], lim).clock, es[i].t)
  }

  lemma {:induction false} FrequentForward(w: World, es: seq<Event>, lim: Limits)
    requires Frequent(w, es, lim)
    ensures Forward(w, es, lim)
  {
    hide Run;
  }

  lemma {:induction false} RunYoung(w: World, es: seq<Event>, lim: Limits)
    requires Initial(w, lim) && ParsedEvents(es, lim) && Frequent(w, es, lim)
    ensures AllYoung(Run(w, es, lim), Run(w, es, lim).clock)
    decreases |es|
  {
    hide Inv, AllReady, Next, ParsedEvent, OnPace, AllYoung, Initial, Near;
    if es == [] {
      InitialYoung(w, lim);
    } else {
      var before := es[..|es| - 1];
      assert forall i :: 0 <= i < |before| ==> before[i] == es[i] && before[..i] == es[..i];
      RunYoung(w, before, lim);
      FrequentForward(w, before, lim);
      RunPace(w, before, lim);
      Reachable(w, before, lim);
      NextYoung(Run(w, before, lim), es[|es| - 1], lim);
    }
  }

  lemma {:induction false} InitialYoung(w: World, lim: Limits)
    requires Initial(w, lim)
    ensures AllYoung(w, w.clock)
  {
    forall k | 0 <= k < |w.ops|
      ensures Young(w.ops[k], w.wire, w.clock)
    {
      assert Fresh(w.ops[k], lim);
      IdleIsYoung(w.ops[k], w.wire, w.clock);
    }
  }

  /**
   * Nothing is overdue: provided loop calls come at most 2^31 ms apart, every request that still waits after a loop
   * call has its last datagram on the wire, less than its timeout ago, and the clock reading it keeps is of that one.
   */
  lemma {:induction false} NothingIsOverdue(w: World, es: seq<Event>, k: nat, lim: Limits)
    requires Initial(w, lim) && ParsedEvents(es, lim) && Frequent(w, es, lim)
    ensures var r := Run(w, es, lim);
            k < |r.ops| && Expects(r.ops[k]) ==>
              exists i :: Clocked(r.ops[k], r.wire, i)
                          && r.wire[i].at <= r.clock < r.wire[i].at + r.wire[i].timeout
  {
    RunYoung(w, es, lim);
    hide Initial, ParsedEvents, Frequent, Run, Clocked, Expects;
    var r := Run(w, es, lim);
    assert k < |r.ops| ==> Young(r.ops[k], r.wire, r.clock);
  }
}
