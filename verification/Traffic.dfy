/** How many datagrams and request IDs a run really uses, counted on the wire log, and what they carry. */
module Traffic {
  import opened Bytes
  import opened Trees
  import opened Messages
  import opened Values
  import opened Operations
  import opened OperationLaws
  import opened ReplyLaws
  import opened Engine
  import opened EngineLaws
  import opened StepLaws
  import opened RunLaws
  import opened Runs
  import opened Outgoing

  // ----- counting on the wire -----

  predicate OfRun(e: Sent, k: nat, run: nat) { e.op == k && e.run == run }

  /** Datagrams handed over for one run of operation k. */
  function Datagrams(wire: seq<Sent>, k: nat, run: nat): nat {
    if wire == [] then 0
    else Datagrams(wire[..|wire| - 1], k, run) + (if OfRun(wire[|wire| - 1], k, run) then 1 else 0)
  }

  /** The ID of a transmission has been seen before. */
  predicate Repeats(wire: seq<Sent>, e: Sent) { exists i :: 0 <= i < |wire| && wire[i].id == e.id }

  /** Distinct request IDs used by one run of operation k. */
  function Requests(wire: seq<Sent>, k: nat, run: nat): nat {
    if wire == [] then 0
    else
      var before, e := wire[..|wire| - 1], wire[|wire| - 1];
      Requests(before, k, run) + (if OfRun(e, k, run) && !Repeats(before, e) then 1 else 0)
  }

  lemma {:induction false} CountSnoc(wire: seq<Sent>, e: Sent, k: nat, run: nat)
    ensures Datagrams(wire + [e], k, run) == Datagrams(wire, k, run) + (if OfRun(e, k, run) then 1 else 0)
    ensures Requests(wire + [e], k, run) ==
            Requests(wire, k, run) + (if OfRun(e, k, run) && !Repeats(wire, e) then 1 else 0)
  {
    assert (wire + [e])[..|wire|] == wire;
  }

  lemma {:induction false} CountNone(wire: seq<Sent>, k: nat, run: nat)
    requires forall i :: 0 <= i < |wire| ==> !OfRun(wire[i], k, run)
    ensures Datagrams(wire, k, run) == 0 && Requests(wire, k, run) == 0
    decreases |wire|
  {
    if wire != [] {
      CountNone(wire[..|wire| - 1], k, run);
    }
  }

  // ----- the counters agree with the wire -----

  /** The two counters of an operation tell the truth about its current run. */
  ghost predicate Tallied(op: Op, k: nat, wire: seq<Sent>) {
    && op.sends == Datagrams(wire, k, op.run) && op.ids == Requests(wire, k, op.run)
    && forall i :: 0 <= i < |wire| && wire[i].op == k ==> wire[i].run <= op.run
  }

  ghost predicate AllTallied(w: World) {
    forall k :: 0 <= k < |w.ops| ==> Tallied(w.ops[k], k, w.wire)
  }

  ghost predicate Tally(a: Op, b: Op) {
    || (b.run == a.run && b.sends == a.sends && b.ids == a.ids)
    || (b.run > a.run && b.sends == 0 && b.ids == 0)
  }

  ghost predicate Tallies(w: World, r: World) {
    r.wire == w.wire && |r.ops| == |w.ops| && forall k :: 0 <= k < |w.ops| ==> Tally(w.ops[k], r.ops[k])
  }

  lemma {:induction false} TalliesTransitive(a: World, b: World, c: World)
    requires Tallies(a, b) && Tallies(b, c)
    ensures Tallies(a, c)
  {
    forall k | 0 <= k < |a.ops|
      ensures Tally(a.ops[k], c.ops[k])
    {
      assert Tally(a.ops[k], b.ops[k]) && Tally(b.ops[k], c.ops[k]);
    }
  }

  lemma {:induction false} TalliesKeep(w: World, r: World)
    requires Tallies(w, r) && AllTallied(w)
    ensures AllTallied(r)
  {
    forall k | 0 <= k < |r.ops|
      ensures Tallied(r.ops[k], k, r.wire)
    {
      assert Tallied(w.ops[k], k, w.wire) && Tally(w.ops[k], r.ops[k]);
      if r.ops[k].run > w.ops[k].run {
        CountNone(w.wire, k, r.ops[k].run);
      }
    }
  }

  // ----- user code and replies leave the counters alone -----

  lemma {:induction false} TallyPut(w: World, k: nat, op: Op, slots: seq<int>)
    requires k < |w.ops| && Tally(w.ops[k], op)
    ensures Tallies(w, Put(w, k, op).(slots := slots))
    ensures Tallies(w, Put(w, k, op))
  {}

  lemma {:induction false} TallyAct(w: World, act: Act, lim: Limits)
    ensures Tallies(w, RunAct(w, act, lim))
    decreases act, 0
  {
    hide Add, SetRoot, Tallies, FinishOp, FreeSlot, Admission;
    TalliesSame(w);
    match act
    case Start(k) =>
      if k < |w.ops| {
        TallySchedule(w, k);
      }
    case Cancel(k, done) =>
      if k < |w.ops| {
        TallyFinish(w, k, w.ops[k], Cancelled, done, lim);
      }
    case Configure(k, root) =>
      if k < |w.ops| {
        var next := SetRoot(w.ops[k], root, lim).1;
        TallyRoot(w.ops[k], root, lim);
        TallyPut(w, k, next, w.slots);
      }
    case AddName(k, name, expected, value) =>
      if k < |w.ops| {
        var next := Add(w.ops[k], name, expected, value, lim).1;
        AddFrame(w.ops[k], name, expected, value, lim);
        TallyPut(w, k, next, w.slots);
      }
  }

  lemma {:induction false} TalliesSame(w: World)
    ensures Tallies(w, w)
  {}

  lemma {:induction false} TallyRoot(op: Op, root: Text, lim: Limits)
    ensures Tally(op, SetRoot(op, root, lim).1)
  {
    hide Add;
  }

  lemma {:induction false} TallySchedule(w: World, k: nat)
    requires k < |w.ops|
    ensures Tallies(w, Schedule(w, k).1)
  {
    hide ResetCells;
    var r := Schedule(w, k).1;
    if r != w {
      TallyPut(w, k, Scheduled(w.ops[k]), r.slots);
      assert r == Put(w, k, Scheduled(w.ops[k])).(slots := r.slots);
    }
  }

  lemma {:induction false} TallyFinish(w: World, k: nat, op: Op, outcome: Status, done: seq<Act>, lim: Limits)
    requires k < |w.ops| && Tally(w.ops[k], op)
    ensures Tallies(w, FinishOp(w, k, op, outcome, done, lim))
    decreases done, 1
  {
    hide Tallies, RunActs, SettleAll;
    var released := Release(w, k, op, outcome);
    TallyPut(w, k, Finished(op, outcome), released.slots);
    TallyActs(released, done, lim);
    TalliesTransitive(w, released, RunActs(released, done, lim));
  }

  lemma {:induction false} TallyActs(w: World, acts: seq<Act>, lim: Limits)
    ensures Tallies(w, RunActs(w, acts, lim))
    decreases acts, 0
  {
    hide Tallies, RunAct;
    if acts == [] {
      TalliesSame(w);
    } else {
      var next := RunAct(w, acts[0], lim);
      TallyAct(w, acts[0], lim);
      TallyActs(next, acts[1..], lim);
      TalliesTransitive(w, next, RunActs(next, acts[1..], lim));
    }
  }

  lemma {:induction false} TallyResolve(w: World, k: nat, s: Step, done: seq<Act>, lim: Limits)
    requires k < |w.ops| && Tally(w.ops[k], s.op)
    ensures Tallies(w, Resolve(w, k, s, done, lim))
  {
    hide Tallies, FinishOp;
    match s
    case Finish(op, outcome) => TallyFinish(w, k, op, outcome, done, lim);
    case Continue(op) => TallyPut(w, k, op, w.slots);
    case Bindings(op) => TallyPut(w, k, op, w.slots);
  }

  lemma {:induction false} TallyWalkLoop(w: World, k: nat, bs: seq<Binding>, any: bool, shows: seq<Show>,
                                         done: seq<Act>, lim: Limits)
    requires k < |w.ops|
    ensures Tallies(w, WalkLoop(w, k, bs, any, shows, done, lim))
    decreases |bs|
  {
    hide Tallies, FinishOp, Resolve, WalkLoop, VisitBinding, RunActs;
    WalkLoopOver(w, k, bs, any, shows, done, lim);
    var op := w.ops[k];
    if bs == [] {
      TallyResolve(w, k, WalkEnd(op, any), done, lim);
    } else if VisitBinding(op, bs[0], lim).Stop? {
      TallyFinish(w, k, op, VisitBinding(op, bs[0], lim).outcome, done, lim);
    } else if op.streaming {
      TallyShown(w, k, bs, any, shows, done, lim);
    } else {
      WalkLoopCollected(w, k, bs, any, shows, done, lim);
      TallyFinish(w, k, op, CapacityExceeded, done, lim);
      var next := Put(w, k, Collected(op, VisitBinding(op, bs[0], lim).cell));
      TallyPut(w, k, next.ops[k], w.slots);
      TallyWalkLoop(next, k, bs[1..], true, shows, done, lim);
      TalliesTransitive(w, next, WalkLoop(next, k, bs[1..], true, shows, done, lim));
    }
  }

  lemma {:induction false} TallyShown(w: World, k: nat, bs: seq<Binding>, any: bool, shows: seq<Show>, done: seq<Act>,
                                      lim: Limits)
    requires k < |w.ops| && bs != [] && w.ops[k].streaming && VisitBinding(w.ops[k], bs[0], lim).Deliver?
    ensures Tallies(w, WalkLoop(w, k, bs, any, shows, done, lim))
    decreases |bs|, 0
  {
    hide Tallies, FinishOp, WalkLoop, VisitBinding, RunActs;
    WalkLoopShown(w, k, bs, any, shows, done, lim);
    var op, cell, show := w.ops[k], VisitBinding(w.ops[k], bs[0], lim).cell, FirstShow(shows);
    var w0 := Put(w, k, Shown(op, cell));
    var w1 := RunActs(w0, show.acts, lim);
    TallyPut(w, k, Shown(op, cell), w.slots);
    TallyActs(w0, show.acts, lim);
    TalliesTransitive(w, w0, w1);
    if !show.accept {
      TallyFinish(w1, k, w1.ops[k], CapacityExceeded, done, lim);
      TalliesTransitive(w, w1, FinishOp(w1, k, w1.ops[k], CapacityExceeded, done, lim));
    } else if w1.ops[k].Pending() && w1.ops[k].id == op.id {
      var w2 := Put(w1, k, Advanced(w1.ops[k], cell));
      TallyPut(w1, k, Advanced(w1.ops[k], cell), w1.slots);
      TallyWalkLoop(w2, k, bs[1..], true, LaterShows(shows), done, lim);
      TalliesTransitive(w1, w2, WalkLoop(w2, k, bs[1..], true, LaterShows(shows), done, lim));
      TalliesTransitive(w, w1, WalkLoop(w2, k, bs[1..], true, LaterShows(shows), done, lim));
    }
  }

  lemma {:induction false} TallyHead(op: Op, m: Message)
    requires op.walking || op.offset < |op.cells|
    ensures Tally(op, ReplyHead(op, m).op) && ReplyHead(op, m).op.walking == op.walking
  {}

  lemma {:induction false} TallyReceive(w: World, p: Packet, env: ReplyEnv, lim: Limits)
    ensures Tallies(w, Receive(w, p, env, lim))
  {
    hide Tallies, FindMatch, ReplyHead, WalkLoop, Resolve, Commit, RunActs;
    TalliesSame(w);
    var j := FindMatch(w, 0, p.m, p.peer, p.port);
    if j < |w.slots| && Repliable(w.ops[w.slots[j]]) {
      var k: nat := w.slots[j];
      var s := ReplyHead(w.ops[k], p.m);
      TallyHead(w.ops[k], p.m);
      if !s.Bindings? {
        TallyResolve(w, k, s, env.done, lim);
      } else if s.op.walking {
        TallyPut(w, k, s.op, w.slots);
        TallyWalkLoop(Put(w, k, s.op), k, p.m.bindings, false, env.shows, env.done, lim);
        TalliesTransitive(w, Put(w, k, s.op), Receive(w, p, env, lim));
      } else {
        TallyCommit(w.ops[k], p.m, lim);
        TallyResolve(w, k, Commit(s.op, p.m, lim), env.done, lim);
      }
    }
  }

  lemma {:induction false} TallyCommit(op: Op, m: Message, lim: Limits)
    requires Repliable(op) && !op.walking && ReplyHead(op, m).Bindings?
    ensures Repliable(ReplyHead(op, m).op) && !ReplyHead(op, m).op.walking
    ensures Tally(op, Commit(ReplyHead(op, m).op, m, lim).op)
  {
    hide CommitCells, Verdict;
  }

  // ----- transmissions are counted -----

  lemma {:induction false} OthersTallied(w: World, k: nat, op: Op, e: Sent)
    requires AllTallied(w) && k < |w.ops| && e.op == k
    requires Tallied(op, k, w.wire + [e])
    ensures AllTallied(Put(w, k, op).(wire := w.wire + [e]))
  {
    forall l | 0 <= l < |w.ops|
      ensures Tallied(Put(w, k, op).ops[l], l, w.wire + [e])
    {
      if l != k {
        assert Tallied(w.ops[l], l, w.wire);
        CountSnoc(w.wire, e, l, w.ops[l].run);
      }
    }
  }

  lemma {:induction false} SentTallied(op: Op, tx: Op, k: nat, wire: seq<Sent>, e: Sent)
    requires Tallied(op, k, wire) && e.op == k && e.run == op.run && tx.run == op.run
    requires tx.sends == op.sends + 1 && tx.ids == op.ids + (if Repeats(wire, e) then 0 else 1)
    ensures Tallied(tx, k, wire + [e])
  {
    CountSnoc(wire, e, k, op.run);
  }

  /** A first transmission opens a new ID; a repetition does not. */
  lemma {:induction false} OpensId(w: World, k: nat, op: Op, t: nat, lim: Limits)
    requires Inv(w, lim) && k < |w.ops| && Handed(w, k, op, lim)
    ensures Repeats(w.wire, Entry(k, Transmitting(op, w.nextId, lim), t, lim)) <==> op.sent
  {
    hide OpInv, Packed, RequestOctets, ToSend, Evolves, NewOrRepeat, SameRequest, InFlight;
    var e := Entry(k, Transmitting(op, w.nextId, lim), t, lim);
    if op.sent {
      assert OnWire(w.wire, w.ops[k].id);
    }
  }

  lemma {:induction false} TallySend(w: World, k: nat, op: Op, t: nat, env: SlotEnv, lim: Limits)
    requires Inv(w, lim) && k < |w.ops| && Handed(w, k, op, lim) && AllTallied(w)
    requires op.sends == w.ops[k].sends && op.ids == w.ops[k].ids
    ensures AllTallied(SendOp(w, k, op, t, env, lim))
  {
    OpensId(w, k, op, t, lim);
    HandedRun(w, k, op, lim);
    hide Inv, Handed, AllTallied, Tallied, Tallies, FinishOp, CanSend, Packed, Entry, Repeats, SendOp, Transmitting,
      Logged, Put,
      Transmitted;
    TalliedOp(w, k, op);
    SendOpIs(w, k, op, t, env, lim);
    if !CanSend(op, lim) || (!op.sent && w.nextId >= MAX_ID) {
      var packed := op.(batch := Packed(op, lim));
      TallyFinish(w, k, packed, CapacityExceeded, env.done, lim);
      TalliesKeep(w, FinishOp(w, k, packed, CapacityExceeded, env.done, lim));
    } else {
      TallyLogged(w, k, op, t, lim);
      TallyHanded(w, k, op, t, env, lim);
    }
  }

  lemma {:induction false} HandedRun(w: World, k: nat, op: Op, lim: Limits)
    requires k < |w.ops| && Handed(w, k, op, lim)
    ensures op.run == w.ops[k].run
  {
    hide ToSend, Evolves;
  }

  lemma {:induction false} TalliedOp(w: World, k: nat, op: Op)
    requires AllTallied(w) && k < |w.ops| && op.run == w.ops[k].run && op.sends == w.ops[k].sends
    requires op.ids == w.ops[k].ids
    ensures Tallied(op, k, w.wire)
  {
    assert Tallied(w.ops[k], k, w.wire);
  }

  /** Whatever the transport answers, the logged datagram is the only one. */
  lemma {:induction false} TallyHanded(w: World, k: nat, op: Op, t: nat, env: SlotEnv, lim: Limits)
    requires k < |w.ops| && AllTallied(Put(Logged(w, k, op, t, lim), k, Transmitting(op, w.nextId, lim)))
    ensures var tx, w1 := Transmitting(op, w.nextId, lim), Logged(w, k, op, t, lim);
            && |w1.ops| == |w.ops|
            && AllTallied(FinishOp(w1, k, tx, TransportError, env.done, lim))
            && AllTallied(Put(w1, k, Transmitted(tx, t % TWO32)))
  {
    hide AllTallied, Tallies, FinishOp, Transmitting, Entry;
    var tx, w1 := Transmitting(op, w.nextId, lim), Logged(w, k, op, t, lim);
    var w2 := Put(w1, k, tx);
    TallyPut(w2, k, Transmitted(tx, t % TWO32), w2.slots);
    assert Put(w2, k, Transmitted(tx, t % TWO32)) == Put(w1, k, Transmitted(tx, t % TWO32));
    TalliesKeep(w2, Put(w2, k, Transmitted(tx, t % TWO32)));
    FinishOverwrites(w1, k, tx, tx, TransportError, env.done, lim);
    TallyFinish(w2, k, tx, TransportError, env.done, lim);
    TalliesKeep(w2, FinishOp(w2, k, tx, TransportError, env.done, lim));
  }

  lemma {:induction false} TallyLogged(w: World, k: nat, op: Op, t: nat, lim: Limits)
    requires k < |w.ops| && AllTallied(w) && Tallied(op, k, w.wire)
    requires Repeats(w.wire, Entry(k, Transmitting(op, w.nextId, lim), t, lim)) <==> op.sent
    ensures AllTallied(Put(Logged(w, k, op, t, lim), k, Transmitting(op, w.nextId, lim)))
  {
    hide AllTallied, Tallied, Packed, RequestOctets, Repeats;
    var tx := Transmitting(op, w.nextId, lim);
    var e := Entry(k, tx, t, lim);
    SentTallied(op, tx, k, w.wire, e);
    OthersTallied(w, k, tx, e);
    SameWireTallied(Put(w, k, tx).(wire := w.wire + [e]), Put(Logged(w, k, op, t, lim), k, tx));
  }

  lemma {:induction false} SameWireTallied(a: World, b: World)
    requires AllTallied(a) && b.ops == a.ops && b.wire == a.wire
    ensures AllTallied(b)
  {}

  lemma {:induction false} TallyTick(op: Op, now: uint32, t: nat)
    ensures var o := TickOp(op, now).op; o.run == op.run && o.sends == op.sends && o.ids == op.ids
    ensures var o := Stamped(TickOp(op, now).op, t); o.run == op.run && o.sends == op.sends && o.ids == op.ids
  {
    TickForm(op, now);
    hide TickOp;
  }

  lemma {:induction false} TallyTickSlot(w: World, k: nat, t: nat, env: SlotEnv, lim: Limits)
    requires Inv(w, lim) && AllReady(w) && k < |w.ops| && w.ops[k].Pending() && AllTallied(w)
    ensures AllTallied(TickSlot(w, k, t, env, lim))
  {
    hide Inv, AllReady, Handed, AllTallied, Tallies, FinishOp, SendOp, TickOp;
    TallyTick(w.ops[k], t % TWO32, t);
    match TickOp(w.ops[k], t % TWO32)
    case Expire(op) =>
      TallyFinish(w, k, op, Timeout, env.done, lim);
      TalliesKeep(w, FinishOp(w, k, op, Timeout, env.done, lim));
    case Keep(op) =>
      TallyPut(w, k, op, w.slots);
      TalliesKeep(w, Put(w, k, op));
    case Send(op) =>
      TickSends(w, k, t, lim);
      TallySend(w, k, Stamped(op, t), t, env, lim);
  }

  lemma {:induction false} TallySlots(w: World, i: nat, t: nat, envs: seq<SlotEnv>, lim: Limits)
    requires Inv(w, lim) && AllReady(w) && i <= |w.slots| && AllTallied(w)
    ensures AllTallied(TickSlots(w, i, t, envs, lim))
    decreases |w.slots| - i
  {
    hide Inv, AllReady, Grown, AllTallied, TickSlot, SlotsOk;
    InvSlots(w, lim);
    if i < |w.slots| {
      VisitSlotKeeps(w, i, t, EnvAt(envs, i), lim);
      if w.slots[i] != FREE {
        OccupiedPending(w, i);
        TallyTickSlot(w, w.slots[i], t, EnvAt(envs, i), lim);
      }
      TallySlots(VisitSlot(w, i, t, EnvAt(envs, i), lim), i + 1, t, envs, lim);
    }
  }

  lemma {:induction false} TallyNext(w: World, e: Event, lim: Limits)
    requires Inv(w, lim) && AllReady(w) && ParsedEvent(e, lim) && AllTallied(w)
    ensures AllTallied(Next(w, e, lim))
  {
    hide Inv, AllReady, Sendable, Receive, TickSlots, Tallies, AllTallied, Tame;
    match e
    case Loop(t, incoming, reply, envs) =>
      if w.begun {
        var w1 := w;
        if incoming.Some? {
          ReceiveKeeps(w, incoming.value, reply, lim);
          w1 := Receive(w, incoming.value, reply, lim);
          TallyReceive(w, incoming.value, reply, lim);
          TalliesKeep(w, w1);
        }
        TallySlots(w1, 0, t, envs, lim);
        SameWireTallied(TickSlots(w1, 0, t, envs, lim), TickSlots(w1, 0, t, envs, lim).(clock := t));
      }
    case User(acts) =>
      TallyActs(w, acts, lim);
      TalliesKeep(w, RunActs(w, acts, lim));
  }

  /** Over every run the counters equal what the wire log shows for the current run of each operation. */
  lemma {:induction false} RunTallied(w: World, es: seq<Event>, lim: Limits)
    requires Initial(w, lim) && ParsedEvents(es, lim)
    ensures AllTallied(Run(w, es, lim))
    decreases |es|
  {
    hide Inv, AllReady, Next, ParsedEvent;
    if es == [] {
      InitialTallied(w, lim);
    } else {
      var before := es[..|es| - 1];
      assert forall i :: 0 <= i < |before| ==> before[i] == es[i];
      RunTallied(w, before, lim);
      Reachable(w, before, lim);
      hide Initial, AllTallied;
      TallyNext(Run(w, before, lim), es[|es| - 1], lim);
    }
  }

  lemma {:induction false} InitialTallied(w: World, lim: Limits)
    requires Initial(w, lim)
    ensures AllTallied(w)
  {
    hide Shape;
    forall k | 0 <= k < |w.ops|
      ensures Tallied(w.ops[k], k, w.wire)
    {
      assert Fresh(w.ops[k], lim);
    }
  }

  // ----- bounds -----

  /**
   * Reading n names takes at most n + floor(log2 n) request IDs and retries + 1 datagrams for each; a SET is
   * transmitted at most once. Counted on the wire, under any replies, losses and user code.
   */
  lemma {:induction false} TrafficBound(w: World, es: seq<Event>, k: nat, lim: Limits)
    requires Initial(w, lim) && ParsedEvents(es, lim) && k < |w.ops|
    ensures var r := Run(w, es, lim);
            k < |r.ops| &&
            var op := r.ops[k];
            !op.walking && (op.Pending() || op.settled) ==>
              && Requests(r.wire, k, op.run) <= MaxIds(|op.cells|)
              && Datagrams(r.wire, k, op.run) <= Requests(r.wire, k, op.run) * (op.dev.retries + 1)
              && (op.mode == SET ==> Datagrams(r.wire, k, op.run) <= 1)
  {
    hide Initial, Run, ParsedEvents, Inv, AllReady, AllTallied, Grown, MaxIds, Datagrams, Requests;
    hide OpInv;
    RunTallied(w, es, lim);
    InitialInv(w, lim);
    RunKeeps(w, es, lim);
    var r := Run(w, es, lim);
    GrownOps(w, r);
    InvOp(r, k, lim);
    TalliedAt(r, k);
    if !r.ops[k].walking && (r.ops[k].Pending() || r.ops[k].settled) {
      OpBounds(r.ops[k], lim);
    }
  }

  lemma {:induction false} TalliedAt(w: World, k: nat)
    requires AllTallied(w) && k < |w.ops|
    ensures w.ops[k].sends == Datagrams(w.wire, k, w.ops[k].run) && w.ops[k].ids == Requests(w.wire, k, w.ops[k].run)
  {
    assert Tallied(w.ops[k], k, w.wire);
  }

  lemma {:induction false} GrownOps(w: World, r: World)
    requires Grown(w, r)
    ensures |r.ops| == |w.ops|
  {}

  lemma {:induction false} OpBounds(op: Op, lim: Limits)
    requires OpInv(op, lim) && !op.walking && (op.Pending() || op.settled)
    ensures op.ids <= MaxIds(|op.cells|) && op.sends <= op.ids * (op.dev.retries + 1)
    ensures op.mode == SET ==> op.sends <= 1
  {
    hide MaxIds, AllBacked, SettledUpTo, AllOk, Shape;
    if op.Pending() {
      BusyFinishes(op, Timeout, lim);
    }
  }

  /**
   * And a read or walk is not held back: when its time has come, exactly one datagram of its own goes to the transport,
   * as long as request IDs last. With a new request that is the next one, of the run it is in.
   */
  lemma {:induction false} ReadsGoOut(w: World, k: nat, t: nat, env: SlotEnv, lim: Limits)
    requires Inv(w, lim) && k < |w.ops| && w.ops[k].Pending() && w.ops[k].mode != SET
    requires lim.oidText <= 256 && lim.packet >= 237
    requires TickOp(w.ops[k], t % TWO32).Send? && (w.ops[k].sent || w.nextId < MAX_ID)
    ensures var op, wire := w.ops[k], TickSlot(w, k, t, env, lim).wire;
            && |wire| == |w.wire| + 1 && wire[..|w.wire|] == w.wire
            && wire[|w.wire|].op == k && wire[|w.wire|].run == op.run && wire[|w.wire|].at == t
            && wire[|w.wire|].id == if op.sent then op.id else w.nextId + 1
  {
    hide Inv, OpInv, TickOp, CanSend, FinishOp, SendOp, Tallies, Put, Entry, Transmitting, TickSlot, Stamped;
    var op := w.ops[k];
    InvOp(w, k, lim);
    TickPacks(op, t, lim);
    DueEntry(op, w.nextId, k, t, lim);
    TickSlotSends(w, k, t, env, lim);
    SendLogs(w, k, Stamped(TickOp(op, t % TWO32).op, t), t, env, lim);
  }

  lemma {:induction false} TickSlotSends(w: World, k: nat, t: nat, env: SlotEnv, lim: Limits)
    requires k < |w.ops| && TickOp(w.ops[k], t % TWO32).Send?
    ensures TickSlot(w, k, t, env, lim) == SendOp(w, k, Stamped(TickOp(w.ops[k], t % TWO32).op, t), t, env, lim)
  {
    hide TickOp, SendOp;
  }

  lemma {:induction false} DueEntry(op: Op, nextId: nat, k: nat, t: nat, lim: Limits)
    requires op.Pending() && TickOp(op, t % TWO32).Send?
    ensures var o := Stamped(TickOp(op, t % TWO32).op, t);
            var e := Entry(k, Transmitting(o, nextId, lim), t, lim);
            && o.sent == op.sent && e.op == k && e.run == op.run && e.at == t
            && e.id == if op.sent then op.id else nextId + 1
  {
    hide TickOp, Packed, RequestOctets;
    TickRest(op, t % TWO32);
  }

  lemma {:induction false} SendLogs(w: World, k: nat, op: Op, t: nat, env: SlotEnv, lim: Limits)
    requires k < |w.ops| && CanSend(op, lim) && (op.sent || w.nextId < MAX_ID)
    ensures SendOp(w, k, op, t, env, lim).wire == w.wire + [Entry(k, Transmitting(op, w.nextId, lim), t, lim)]
  {
    hide CanSend, FinishOp, SendOp, Packed, Entry, Transmitting, Put, Transmitted;
    SendOpIs(w, k, op, t, env, lim);
    SentWires(Logged(w, k, op, t, lim), k, Transmitting(op, w.nextId, lim), t % TWO32, env, lim);
  }

  lemma {:induction false} SentWires(w: World, k: nat, tx: Op, now: uint32, env: SlotEnv, lim: Limits)
    requires k < |w.ops|
    ensures Put(w, k, Transmitted(tx, now)).wire == w.wire
    ensures FinishOp(w, k, tx, TransportError, env.done, lim).wire == w.wire
  {
    hide FinishOp;
    FinishOverwrites(w, k, tx, tx, TransportError, env.done, lim);
    TallyFinish(Put(w, k, tx), k, tx, TransportError, env.done, lim);
  }
}
