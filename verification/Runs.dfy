/** Whole runs of the client: every packet, clock and reentrant callback, from the first event on. */
module Runs {
  import opened Bytes
  import opened Messages
  import opened Operations
  import opened OperationLaws
  import opened ReplyLaws
  import opened Engine
  import opened EngineLaws
  import opened StepLaws
  import opened RunLaws

  // ----- one loop call -----

  /** What time can only add: IDs and datagrams; and nothing settled is rewritten. */
  ghost predicate Grown(w: World, r: World) {
    r.nextId >= w.nextId && w.wire <= r.wire && w.completions <= r.completions && r.begun == w.begun && EvolvesAll(w, r)
  }

  lemma {:induction false} GrownSame(w: World)
    ensures Grown(w, w)
  {
    CalmSame(w);
    hide Evolves;
  }

  lemma {:induction false} GrownTransitive(a: World, b: World, c: World)
    requires Grown(a, b) && Grown(b, c)
    ensures Grown(a, c)
  {
    hide Evolves;
    forall k | 0 <= k < |a.ops|
      ensures Evolves(a.ops[k], c.ops[k])
    {
      EvolvesTransitive(a.ops[k], b.ops[k], c.ops[k]);
    }
  }

  lemma {:induction false} TameGrown(w: World, r: World)
    requires Tame(w, r)
    ensures Grown(w, r)
  {
    hide Evolves;
  }

  lemma {:induction false} VisitedGrown(w: World, r: World, k: nat)
    requires Visited(w, r, k)
    ensures Grown(w, r) && r.clock == w.clock
  {
    hide Evolves;
  }

  lemma {:induction false} VisitSlotKeeps(w: World, i: nat, t: nat, env: SlotEnv, lim: Limits)
    requires Inv(w, lim) && AllReady(w) && i < |w.slots|
    ensures var r := VisitSlot(w, i, t, env, lim); Inv(r, lim) && AllReady(r) && Grown(w, r) && r.clock == w.clock
  {
    hide Inv, AllReady, TickSlot, Visited, Grown, Evolves, SameStart, Grew, TickOp, Stamped, Waits, SlotsOk;
    InvSlots(w, lim);
    GrownSame(w);
    if w.slots[i] != FREE {
      OccupiedPending(w, i);
      TickSlotKeeps(w, w.slots[i], t, env, lim);
      VisitedGrown(w, TickSlot(w, w.slots[i], t, env, lim), w.slots[i]);
    }
  }

  lemma {:induction false} TickSlotsKeep(w: World, i: nat, t: nat, envs: seq<SlotEnv>, lim: Limits)
    requires Inv(w, lim) && AllReady(w) && i <= |w.slots|
    ensures var r := TickSlots(w, i, t, envs, lim); Inv(r, lim) && AllReady(r) && Grown(w, r)
    decreases |w.slots| - i
  {
    hide Inv, AllReady, Grown, VisitSlot;
    if i == |w.slots| {
      GrownSame(w);
    } else {
      VisitSlotKeeps(w, i, t, EnvAt(envs, i), lim);
      var next := VisitSlot(w, i, t, EnvAt(envs, i), lim);
      TickSlotsKeep(next, i + 1, t, envs, lim);
      GrownTransitive(w, next, TickSlots(next, i + 1, t, envs, lim));
    }
  }

  /** Neither the invariant nor readiness looks at the clock. */
  lemma {:induction false} ClockIgnored(w: World, t: nat, lim: Limits)
    requires Inv(w, lim) && AllReady(w)
    ensures Inv(w.(clock := t), lim) && AllReady(w.(clock := t))
  {
    hide OpInv, InFlight, SameRequest, Ready;
    assert SlotsOk(w.(clock := t)) && IdsOk(w.(clock := t)) && OpsOk(w.(clock := t), lim);
    assert WireOk(w.(clock := t), lim);
  }

  lemma {:induction false} GrownClock(w: World, r: World, t: nat)
    requires Grown(w, r)
    ensures Grown(w, r.(clock := t))
  {
    hide Evolves;
  }

  /** A packet that the parser let through. */
  predicate Parsed(p: Option<Packet>, lim: Limits) { p.Some? ==> Sendable(p.value.m, lim) }

  lemma {:induction false} LoopStepKeeps(w: World, t: nat, p: Option<Packet>, reply: ReplyEnv, envs: seq<SlotEnv>,
                                         lim: Limits)
    requires Inv(w, lim) && AllReady(w) && Parsed(p, lim)
    ensures var r := LoopStep(w, t, p, reply, envs, lim); Inv(r, lim) && AllReady(r) && Grown(w, r)
  {
    hide Inv, AllReady, Grown, Receive, Tame, Sendable, TickSlots;
    GrownSame(w);
    if w.begun {
      var w1 := w;
      if p.Some? {
        ReceiveKeeps(w, p.value, reply, lim);
        w1 := Receive(w, p.value, reply, lim);
        TameGrown(w, w1);
      }
      TickSlotsKeep(w1, 0, t, envs, lim);
      var r := TickSlots(w1, 0, t, envs, lim);
      GrownTransitive(w, w1, r);
      ClockIgnored(r, t, lim);
      GrownClock(w, r, t);
    }
  }

  // ----- runs -----

  predicate ParsedEvent(e: Event, lim: Limits) { e.Loop? ==> Parsed(e.incoming, lim) }

  ghost predicate ParsedEvents(es: seq<Event>, lim: Limits) {
    forall i :: 0 <= i < |es| ==> ParsedEvent(es[i], lim)
  }

  /** A client that has sent nothing yet, with operations that are configured at most. */
  ghost predicate Initial(w: World, lim: Limits) {
    && |w.slots| > 0 && (forall i :: 0 <= i < |w.slots| ==> w.slots[i] == FREE)
    && w.nextId == 0 && w.wire == [] && w.completions == []
    && forall k :: 0 <= k < |w.ops| ==> Fresh(w.ops[k], lim)
  }

  ghost predicate Fresh(op: Op, lim: Limits) {
    Shape(op, lim) && !op.Pending() && !op.settled && op.id == 0 && op.sends == 0 && op.ids == 0
  }

  lemma {:induction false} InitialInv(w: World, lim: Limits)
    requires Initial(w, lim)
    ensures Inv(w, lim) && AllReady(w)
  {
    hide Shape;
  }

  lemma {:induction false} StepKeepsInv(w: World, e: Event, lim: Limits)
    requires Inv(w, lim) && AllReady(w) && ParsedEvent(e, lim)
    ensures var r := Next(w, e, lim); Inv(r, lim) && AllReady(r) && Grown(w, r)
  {
    hide Inv, AllReady, Grown, LoopStep, Sendable, Calm, Tame;
    match e
    case Loop(t, incoming, reply, envs) => LoopStepKeeps(w, t, incoming, reply, envs, lim);
    case User(acts) =>
      RunActsKeeps(w, acts, lim);
      var r := RunActs(w, acts, lim);
      CalmIsTame(w, r);
      TameGrown(w, r);
      assert AllReady(r) by { UserReady(w, r, lim); }
  }

  lemma {:induction false} UserReady(w: World, r: World, lim: Limits)
    requires Calm(w, r) && AllReady(w) && Inv(r, lim)
    ensures AllReady(r)
  {
    CalmReady(w, r, -1, lim);
  }

  /**
   * The invariant holds after every run: whatever packets arrive, however time passes and whatever user code
   * does inside callbacks and completion handlers.
   */
  lemma {:induction false} RunKeeps(w: World, es: seq<Event>, lim: Limits)
    requires Inv(w, lim) && AllReady(w) && ParsedEvents(es, lim)
    ensures var r := Run(w, es, lim); Inv(r, lim) && AllReady(r) && Grown(w, r)
    decreases |es|
  {
    hide Inv, AllReady, Grown, Next, ParsedEvent;
    if es == [] {
      GrownSame(w);
    } else {
      var before := es[..|es| - 1];
      assert forall i :: 0 <= i < |before| ==> before[i] == es[i];
      RunKeeps(w, before, lim);
      var mid := Run(w, before, lim);
      StepKeepsInv(mid, es[|es| - 1], lim);
      GrownTransitive(w, mid, Next(mid, es[|es| - 1], lim));
    }
  }

  lemma {:induction false} Reachable(w: World, es: seq<Event>, lim: Limits)
    requires Initial(w, lim) && ParsedEvents(es, lim)
    ensures var r := Run(w, es, lim); Inv(r, lim) && AllReady(r)
  {
    InitialInv(w, lim);
    hide Inv, AllReady, Initial, ParsedEvents;
    RunKeeps(w, es, lim);
  }

  // ----- the deadline of walks -----

  ghost predicate AllOnTime(w: World, c: nat) {
    forall k :: 0 <= k < |w.ops| ==> OnTime(w.ops[k], c)
  }

  lemma {:induction false} VisitSlotOnTime(w: World, i: nat, c: nat, t: nat, env: SlotEnv, lim: Limits)
    requires Inv(w, lim) && AllReady(w) && i < |w.slots| && Gap(c, t) && DueAfter(w, i, c, t) && WireOnTime(w)
    ensures var r := VisitSlot(w, i, t, env, lim); DueAfter(r, i + 1, c, t) && WireOnTime(r)
  {
    hide Inv, AllReady, TickSlot, Visited, WireOnTime, OnTime, Evolves, SameStart, Grew, TickOp, Stamped, Waits,
      SlotsOk, Gap;
    InvSlots(w, lim);
    if w.slots[i] == FREE {
      FreeDue(w, i, c, t);
    } else {
      OccupiedPending(w, i);
      var k: nat := w.slots[i];
      TickSlotKeeps(w, k, t, env, lim);
      VisitOnTime(w, k, c, t, env, lim);
      VisitedDue(w, TickSlot(w, k, t, env, lim), i, c, t);
    }
  }

  lemma {:induction false} FreeDue(w: World, i: nat, c: nat, t: nat)
    requires i < |w.slots| && w.slots[i] == FREE && DueAfter(w, i, c, t)
    ensures DueAfter(w, i + 1, c, t)
  {
    hide OnTime;
    forall k | 0 <= k < |w.ops| && !OnTime(w.ops[k], t)
      ensures OnTime(w.ops[k], c) && k in w.slots[i + 1..]
    {
      var j :| 0 <= j < |w.slots[i..]| && w.slots[i..][j] == k;
      assert w.slots[i + 1..][j - 1] == k;
    }
  }

  lemma {:induction false} TickSlotsOnTime(w: World, i: nat, c: nat, t: nat, envs: seq<SlotEnv>, lim: Limits)
    requires Inv(w, lim) && AllReady(w) && i <= |w.slots| && Gap(c, t) && DueAfter(w, i, c, t) && WireOnTime(w)
    ensures var r := TickSlots(w, i, t, envs, lim); AllOnTime(r, t) && WireOnTime(r)
    decreases |w.slots| - i
  {
    hide Inv, AllReady, Grown, VisitSlot, WireOnTime, OnTime, Gap;
    if i < |w.slots| {
      VisitSlotKeeps(w, i, t, EnvAt(envs, i), lim);
      VisitSlotOnTime(w, i, c, t, EnvAt(envs, i), lim);
      TickSlotsOnTime(VisitSlot(w, i, t, EnvAt(envs, i), lim), i + 1, c, t, envs, lim);
    }
  }

  lemma {:induction false} TameOnTime(w: World, r: World, c: nat)
    requires Tame(w, r) && AllOnTime(w, c) && WireOnTime(w)
    ensures AllOnTime(r, c) && WireOnTime(r)
  {
    hide Evolves;
    forall k | 0 <= k < |r.ops|
      ensures OnTime(r.ops[k], c)
    {
      assert Timely(w.ops[k], r.ops[k]);
      assert Evolves(w.ops[k], r.ops[k]);
      VisitedWalking(w.ops[k], r.ops[k]);
      assert OnTime(w.ops[k], c);
    }
  }

  /** In a slot if waiting: what a loop call has to visit. */
  lemma {:induction false} AllDue(w: World, c: nat, t: nat, lim: Limits)
    requires Inv(w, lim) && AllOnTime(w, c)
    ensures DueAfter(w, 0, c, t)
  {
    hide Inv, OpInv;
    InvSlots(w, lim);
    forall k | 0 <= k < |w.ops| && !OnTime(w.ops[k], t)
      ensures OnTime(w.ops[k], c) && k in w.slots[0..]
    {
      assert k in w.slots;
      assert w.slots[0..] == w.slots;
    }
  }

  lemma {:induction false} LoopStepOnTime(w: World, t: nat, p: Option<Packet>, reply: ReplyEnv, envs: seq<SlotEnv>,
                                          lim: Limits)
    requires Inv(w, lim) && AllReady(w) && Parsed(p, lim) && w.begun
    requires Gap(w.clock, t) && AllOnTime(w, w.clock) && WireOnTime(w)
    ensures var r := LoopStep(w, t, p, reply, envs, lim); AllOnTime(r, t) && WireOnTime(r) && r.clock == t
  {
    hide Inv, AllReady, Receive, Tame, Sendable, TickSlots, WireOnTime, DueAfter, OnTime, Gap;
    var w1 := w;
    if p.Some? {
      ReceiveKeeps(w, p.value, reply, lim);
      w1 := Receive(w, p.value, reply, lim);
      TameOnTime(w, w1, w.clock);
    }
    AllDue(w1, w.clock, t, lim);
    TickSlotsOnTime(w1, 0, w.clock, t, envs, lim);
    WireClock(TickSlots(w1, 0, t, envs, lim), t);
  }

  lemma {:induction false} WireClock(w: World, t: nat)
    requires WireOnTime(w)
    ensures WireOnTime(w.(clock := t))
  {}

  /** Every loop call follows the previous one soon enough for the wrapping clock. */
  ghost predicate Prompt(w: World, es: seq<Event>, lim: Limits) {
    forall i :: 0 <= i < |es| && es[i].Loop? ==> Gap(Run(w, es[..i], lim).clock, es[i].t)
  }

  lemma {:induction false} StepOnTime(w: World, e: Event, lim: Limits)
    requires Inv(w, lim) && AllReady(w) && ParsedEvent(e, lim)
    requires AllOnTime(w, w.clock) && WireOnTime(w) && (e.Loop? ==> Gap(w.clock, e.t))
    ensures var r := Next(w, e, lim); AllOnTime(r, r.clock) && WireOnTime(r)
    ensures e.Loop? && w.begun ==> Next(w, e, lim).clock == e.t
  {
    hide Inv, AllReady, LoopStep, Sendable, Calm, Tame, AllOnTime, WireOnTime, Gap;
    match e
    case Loop(t, incoming, reply, envs) =>
      if w.begun {
        LoopStepOnTime(w, t, incoming, reply, envs, lim);
      } else {
        NotBegun(w, t, incoming, reply, envs, lim);
      }
    case User(acts) =>
      RunActsKeeps(w, acts, lim);
      var r := RunActs(w, acts, lim);
      CalmIsTame(w, r);
      TameOnTime(w, r, w.clock);
      TameClock(w, r);
  }

  lemma {:induction false} NotBegun(w: World, t: nat, p: Option<Packet>, reply: ReplyEnv, envs: seq<SlotEnv>,
                                    lim: Limits)
    requires !w.begun
    ensures LoopStep(w, t, p, reply, envs, lim) == w
  {}

  lemma {:induction false} TameClock(w: World, r: World)
    requires Tame(w, r)
    ensures r.clock == w.clock
  {}

  /**
   * The deadline of walks, on true time: provided loop calls come less than 2^32 - 60000 ms apart, no walk
   * datagram leaves 60000 ms or more after the first one of its walk, and no loop call leaves a walk waiting
   * whose first datagram is 60000 ms or more in the past.
   */
  lemma {:induction false} WalkDeadline(w: World, es: seq<Event>, lim: Limits)
    requires Initial(w, lim) && ParsedEvents(es, lim) && Prompt(w, es, lim)
    ensures var r := Run(w, es, lim);
            && (forall i :: 0 <= i < |r.wire| && r.wire[i].walking ==>
                  r.wire[i].first <= r.wire[i].at < r.wire[i].first + WALK_DEADLINE)
            && (forall k :: 0 <= k < |r.ops| && r.ops[k].walking && Waits(r.ops[k]) ==>
                  r.ops[k].first <= r.clock < r.ops[k].first + WALK_DEADLINE)
    decreases |es|
  {
    RunOnTime(w, es, lim);
    hide Initial, Run, Waits;
  }

  lemma {:induction false} RunOnTime(w: World, es: seq<Event>, lim: Limits)
    requires Initial(w, lim) && ParsedEvents(es, lim) && Prompt(w, es, lim)
    ensures var r := Run(w, es, lim); AllOnTime(r, r.clock) && WireOnTime(r)
    decreases |es|
  {
    hide Inv, AllReady, Next, ParsedEvent, AllOnTime, WireOnTime, Initial, Gap;
    if es == [] {
      InitialOnTime(w, lim);
    } else {
      var before, last := es[..|es| - 1], es[|es| - 1];
      assert forall i :: 0 <= i < |before| ==> before[i] == es[i] && before[..i] == es[..i];
      RunOnTime(w, before, lim);
      Reachable(w, before, lim);
      StepOnTime(Run(w, before, lim), last, lim);
    }
  }

  lemma {:induction false} InitialOnTime(w: World, lim: Limits)
    requires Initial(w, lim)
    ensures AllOnTime(w, w.clock) && WireOnTime(w)
  {
    hide Shape;
    forall k | 0 <= k < |w.ops|
      ensures OnTime(w.ops[k], w.clock)
    {
      assert Fresh(w.ops[k], lim);
    }
  }
}
