/** Which operation a reply belongs to, and why no reply is ever taken twice. */
module Correlation {
  import opened Bytes
  import opened Messages
  import opened Operations
  import opened OperationLaws
  import opened ReplyLaws
  import opened Engine
  import opened EngineLaws
  import opened StepLaws
  import opened RunLaws
  import opened Runs

  /** No operation expects a reply under this ID, and none ever will. */
  ghost predicate Retired(w: World, id: int) {
    id <= w.nextId && forall k :: 0 <= k < |w.ops| && Expects(w.ops[k]) ==> w.ops[k].id != id
  }

  // ----- what receive picks -----

  lemma {:induction false} SlotExpects(w: World, k: nat, lim: Limits)
    requires Inv(w, lim) && k < |w.ops| && w.ops[k].Pending() && w.ops[k].sent
    ensures Expects(w.ops[k]) && Repliable(w.ops[k])
  {
    InvOp(w, k, lim);
    MatchedIsRepliable(w.ops[k], lim);
  }

  /**
   * A reply is taken by the operation whose whole context it matches: at most one operation does, and if one
   * that waits does, it is found wherever it sits in the slots.
   */
  lemma {:induction false} ReplyFindsItsRequest(w: World, p: Packet, k: nat, env: ReplyEnv, lim: Limits)
    requires Inv(w, lim) && k < |w.ops| && Expects(w.ops[k]) && Matches(w.ops[k], p.m, p.peer, p.port)
    ensures Repliable(w.ops[k]) && Receive(w, p, env, lim) == Reply(w, k, p.m, env, lim)
    ensures forall l :: 0 <= l < |w.ops| && l != k && Expects(w.ops[l]) ==> !Matches(w.ops[l], p.m, p.peer, p.port)
  {
    hide OpInv, WireOk, Reply;
    SlotExpects(w, k, lim);
    var j := FindMatch(w, 0, p.m, p.peer, p.port);
    assert k in w.slots;
    var i :| 0 <= i < |w.slots| && w.slots[i] == k;
    assert j <= i;
    assert w.ops[w.slots[j]].id == w.ops[k].id;
  }

  /** Stale, duplicate and foreign replies change nothing. */
  lemma {:induction false} UnexpectedIgnored(w: World, p: Packet, env: ReplyEnv, lim: Limits)
    requires Inv(w, lim)
    requires forall k :: 0 <= k < |w.ops| && Expects(w.ops[k]) ==> !Matches(w.ops[k], p.m, p.peer, p.port)
    ensures Receive(w, p, env, lim) == w
  {
    hide Inv, Expects;
    InvSlots(w, lim);
    var j := FindMatch(w, 0, p.m, p.peer, p.port);
    if j < |w.slots| {
      OccupiedPending(w, j);
      SlotExpects(w, w.slots[j], lim);
    }
  }

  lemma {:induction false} RetiredIgnored(w: World, p: Packet, env: ReplyEnv, lim: Limits)
    requires Inv(w, lim) && Retired(w, p.m.id)
    ensures Receive(w, p, env, lim) == w
  {
    hide Inv, Receive, Expects;
    UnexpectedIgnored(w, p, env, lim);
  }

  // ----- an ID is used up by the first reply that matches -----

  lemma {:induction false} AcceptedRetires(w: World, p: Packet, k: nat, env: ReplyEnv, lim: Limits)
    requires Inv(w, lim) && AllReady(w) && Sendable(p.m, lim)
    requires k < |w.ops| && Expects(w.ops[k]) && Matches(w.ops[k], p.m, p.peer, p.port)
    ensures Retired(Receive(w, p, env, lim), p.m.id)
  {
    MatchedId(w.ops[k], p);
    hide Inv, AllReady, Reply, Evolves, Sendable, Receive, Repliable, Matches;
    ReplyFindsItsRequest(w, p, k, env, lim);
    ReplyKeeps(w, k, p.m, env, lim);
    ExpectedId(w, k, lim);
    var r := Reply(w, k, p.m, env, lim);
    forall l | 0 <= l < |r.ops| && Expects(r.ops[l])
      ensures r.ops[l].id != p.m.id
    {
      assert Timely(w.ops[l], r.ops[l]);
    }
  }

  lemma {:induction false} MatchedId(op: Op, p: Packet)
    requires Matches(op, p.m, p.peer, p.port)
    ensures op.id == p.m.id
  {}

  /** The ID of an operation that expects a reply is at most the counter, and no other operation has it. */
  lemma {:induction false} ExpectedId(w: World, k: nat, lim: Limits)
    requires Inv(w, lim) && k < |w.ops| && Expects(w.ops[k])
    ensures w.ops[k].id <= w.nextId && forall l :: 0 <= l < |w.ops| && l != k ==> w.ops[l].id != w.ops[k].id
  {
    hide SlotsOk, OpsOk, WireOk;
  }

  lemma {:induction false} TameRetired(w: World, r: World, id: int)
    requires Tame(w, r) && Retired(w, id)
    ensures Retired(r, id)
  {
    hide Evolves;
    forall k | 0 <= k < |r.ops| && Expects(r.ops[k])
      ensures r.ops[k].id != id
    {
      assert Timely(w.ops[k], r.ops[k]);
    }
  }

  lemma {:induction false} VisitedRetired(w: World, r: World, k: nat, id: int)
    requires Visited(w, r, k) && Retired(w, id) && k < |w.ops|
    ensures Retired(r, id)
  {
    hide Evolves;
    forall l | 0 <= l < |r.ops| && Expects(r.ops[l])
      ensures r.ops[l].id != id
    {
      assert l != k ==> Timely(w.ops[l], r.ops[l]);
    }
  }

  lemma {:induction false} TickSlotsRetired(w: World, i: nat, t: nat, envs: seq<SlotEnv>, id: int, lim: Limits)
    requires Inv(w, lim) && AllReady(w) && i <= |w.slots| && Retired(w, id)
    ensures Retired(TickSlots(w, i, t, envs, lim), id)
    decreases |w.slots| - i
  {
    hide Inv, AllReady, Grown, Retired, TickSlot, Visited, SameStart, Grew, TickOp, Stamped, SlotsOk;
    InvSlots(w, lim);
    if i < |w.slots| {
      var env := EnvAt(envs, i);
      VisitSlotKeeps(w, i, t, env, lim);
      if w.slots[i] != FREE {
        OccupiedPending(w, i);
        TickSlotKeeps(w, w.slots[i], t, env, lim);
        VisitedRetired(w, TickSlot(w, w.slots[i], t, env, lim), w.slots[i], id);
      }
      TickSlotsRetired(VisitSlot(w, i, t, env, lim), i + 1, t, envs, id, lim);
    }
  }

  lemma {:induction false} NextRetired(w: World, e: Event, id: int, lim: Limits)
    requires Inv(w, lim) && AllReady(w) && ParsedEvent(e, lim) && Retired(w, id)
    ensures Retired(Next(w, e, lim), id)
  {
    hide Inv, AllReady, Sendable, Calm, Tame, Retired, Receive, TickSlots;
    match e
    case Loop(t, incoming, reply, envs) =>
      if w.begun {
        var w1 := w;
        if incoming.Some? {
          ReceiveKeeps(w, incoming.value, reply, lim);
          w1 := Receive(w, incoming.value, reply, lim);
          TameRetired(w, w1, id);
        }
        TickSlotsRetired(w1, 0, t, envs, id, lim);
        ClockRetired(TickSlots(w1, 0, t, envs, lim), t, id);
      }
    case User(acts) =>
      RunActsKeeps(w, acts, lim);
      CalmIsTame(w, RunActs(w, acts, lim));
      TameRetired(w, RunActs(w, acts, lim), id);
  }

  lemma {:induction false} ClockRetired(w: World, t: nat, id: int)
    requires Retired(w, id)
    ensures Retired(w.(clock := t), id)
  {}

  lemma {:induction false} RunRetired(w: World, es: seq<Event>, id: int, lim: Limits)
    requires Inv(w, lim) && AllReady(w) && ParsedEvents(es, lim) && Retired(w, id)
    ensures Retired(Run(w, es, lim), id)
    decreases |es|
  {
    hide Inv, AllReady, Next, ParsedEvent, Retired;
    if es != [] {
      var before := es[..|es| - 1];
      assert forall i :: 0 <= i < |before| ==> before[i] == es[i];
      RunRetired(w, before, id, lim);
      RunKeeps(w, before, lim);
      NextRetired(Run(w, before, lim), es[|es| - 1], id, lim);
    }
  }

  lemma {:induction false} LoopRetires(w: World, t: nat, p: Packet, k: nat, env: ReplyEnv, envs: seq<SlotEnv>,
                                       lim: Limits)
    requires Inv(w, lim) && AllReady(w) && Sendable(p.m, lim) && w.begun
    requires k < |w.ops| && Expects(w.ops[k]) && Matches(w.ops[k], p.m, p.peer, p.port)
    ensures Retired(LoopStep(w, t, Some(p), env, envs, lim), p.m.id)
  {
    hide Inv, AllReady, Sendable, Tame, Retired, Receive, TickSlots, Expects, Matches;
    AcceptedRetires(w, p, k, env, lim);
    ReceiveKeeps(w, p, env, lim);
    var w1 := Receive(w, p, env, lim);
    TickSlotsRetired(w1, 0, t, envs, p.m.id, lim);
    ClockRetired(TickSlots(w1, 0, t, envs, lim), t, p.m.id);
  }

  /**
   * Every request ID is answered at most once: after a reply was taken, no later packet under the same ID
   * changes anything, in any continuation of the run.
   */
  lemma {:induction false} AnsweredAtMostOnce(w: World, t: nat, p: Packet, k: nat, env: ReplyEnv, envs: seq<SlotEnv>,
                                              later: seq<Event>, q: Packet, again: ReplyEnv, lim: Limits)
    requires Inv(w, lim) && AllReady(w) && Sendable(p.m, lim) && w.begun && ParsedEvents(later, lim)
    requires k < |w.ops| && Expects(w.ops[k]) && Matches(w.ops[k], p.m, p.peer, p.port)
    requires q.m.id == p.m.id
    ensures var r := Run(LoopStep(w, t, Some(p), env, envs, lim), later, lim); Receive(r, q, again, lim) == r
  {
    hide Inv, AllReady, Sendable, Retired, Receive, LoopStep, Run, Expects, Matches, Grown, ParsedEvents;
    LoopRetires(w, t, p, k, env, envs, lim);
    LoopStepKeeps(w, t, Some(p), env, envs, lim);
    var w1 := LoopStep(w, t, Some(p), env, envs, lim);
    RunRetired(w1, later, p.m.id, lim);
    RunKeeps(w1, later, lim);
    RetiredIgnored(Run(w1, later, lim), q, again, lim);
  }
}
