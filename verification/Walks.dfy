/**
 * Walk completeness: against an honest agent and a network that loses, repeats and delays packets, a walk that
 * ends with Success has taken exactly the strict descendants of its root, in order, each once, with their values.
 */
module Walks {
  import opened Bytes
  import opened Oids
  import opened Trees
  import opened Messages
  import opened Values
  import opened Operations
  import opened OperationLaws
  import opened ReplyLaws
  import opened Engine
  import opened EngineLaws
  import opened StepLaws
  import opened RunLaws
  import opened Runs
  import opened Agents
  import opened WalkSteps

  // ----- the clock -----

  lemma {:induction false} TransmittingSame(op: Op, nextId: nat, now: uint32, lim: Limits, agent: Agent)
    requires Follows(op, agent)
    ensures Follows(Transmitted(Transmitting(op, nextId, lim), now), agent)
    ensures Transmitting(op, nextId, lim).root == op.root && Transmitting(op, nextId, lim).walking == op.walking
  {
    hide Packed, Follows;
    SameWalkFollows(op, Transmitted(Transmitting(op, nextId, lim), now), agent);
  }

  lemma {:induction false} FollowSend(w: World, j: nat, op: Op, t: nat, env: SlotEnv, k: nat, agent: Agent, lim: Limits)
    requires j < |w.ops| && k < |w.ops| && SortedMib(agent.mib)
    requires FollowsLog(w.completions, k, agent) && if j == k then Follows(op, agent) else Follows(w.ops[k], agent)
    ensures Abides(SendOp(w, j, op, t, env, lim), k, agent)
  {
    var now := t % TWO32;
    var tx := Transmitting(op, w.nextId, lim);
    if j == k {
      FollowsRoot(op, agent);
      TransmittingSame(op, w.nextId, now, lim, agent);
      FailedFollows(op.(batch := Packed(op, lim)), CapacityExceeded, agent);
      FailedFollows(tx, TransportError, agent);
    }
    hide Follows, SortedMib, FinishOp, CanSend, Packed, Logged, Transmitting, SendOp, Finished;
    SendOpIs(w, j, op, t, env, lim);
    FollowFinish(w, j, op.(batch := Packed(op, lim)), CapacityExceeded, env.done, k, agent, lim);
    FollowFinish(Logged(w, j, op, t, lim), j, tx, TransportError, env.done, k, agent, lim);
  }

  lemma {:induction false} TickSameWalk(op: Op, now: uint32)
    ensures SameWalk(op, TickOp(op, now).op)
  {
    TickForm(op, now);
    hide TickOp;
  }

  lemma {:induction false} StampSameWalk(op: Op, t: nat)
    ensures SameWalk(op, Stamped(op, t))
  {}

  lemma {:induction false} TickFollows(op: Op, t: nat, agent: Agent)
    requires Follows(op, agent)
    ensures Follows(TickOp(op, t % TWO32).op, agent) && Follows(Stamped(TickOp(op, t % TWO32).op, t), agent)
  {
    hide TickOp, Follows, Stamped;
    var o := TickOp(op, t % TWO32).op;
    TickSameWalk(op, t % TWO32);
    StampSameWalk(o, t);
    SameWalkFollows(op, o, agent);
    SameWalkFollows(o, Stamped(o, t), agent);
  }

  lemma {:induction false} FollowTick(w: World, j: nat, t: nat, env: SlotEnv, k: nat, agent: Agent, lim: Limits)
    requires j < |w.ops| && k < |w.ops| && SortedMib(agent.mib) && Abides(w, k, agent)
    ensures Abides(TickSlot(w, j, t, env, lim), k, agent)
  {
    if j == k {
      TickFollows(w.ops[k], t, agent);
    }
    hide Follows, SortedMib, FinishOp, SendOp, TickOp, Finished;
    match TickOp(w.ops[j], t % TWO32)
    case Expire(op) =>
      if j == k {
        FollowsRoot(op, agent);
        FailedFollows(op, Timeout, agent);
      }
      FollowFinish(w, j, op, Timeout, env.done, k, agent, lim);
    case Keep(op) =>
    case Send(op) => FollowSend(w, j, Stamped(op, t), t, env, k, agent, lim);
  }

  lemma {:induction false} FollowSlots(w: World, i: nat, t: nat, envs: seq<SlotEnv>, k: nat, agent: Agent, lim: Limits)
    requires i <= |w.slots| && k < |w.ops| && SortedMib(agent.mib) && Abides(w, k, agent)
    ensures Abides(TickSlots(w, i, t, envs, lim), k, agent)
    decreases |w.slots| - i
  {
    hide Follows, SortedMib, TickSlot;
    if i < |w.slots| {
      if 0 <= w.slots[i] < |w.ops| {
        FollowTick(w, w.slots[i], t, EnvAt(envs, i), k, agent, lim);
      }
      FollowSlots(VisitSlot(w, i, t, EnvAt(envs, i), lim), i + 1, t, envs, k, agent, lim);
    }
  }

  // ----- runs -----

  ghost predicate HonestEvent(w: World, e: Event, k: nat, agent: Agent)
    requires k < |w.ops|
  {
    e.Loop? && e.incoming.Some? ==> HonestPacket(w, e.incoming.value, k, agent)
  }

  lemma {:induction false} FollowNext(w: World, e: Event, k: nat, agent: Agent, lim: Limits)
    requires Inv(w, lim) && AllReady(w) && k < |w.ops| && SortedMib(agent.mib) && Abides(w, k, agent)
    requires w.ops[k].walking && HonestEvent(w, e, k, agent)
    ensures Abides(Next(w, e, lim), k, agent)
  {
    hide Inv, AllReady, Follows, SortedMib, HonestPacket, Receive, TickSlots, RunActs;
    match e
    case Loop(t, incoming, reply, envs) =>
      if w.begun {
        var w1 := w;
        if incoming.Some? {
          FollowReceive(w, incoming.value, reply, k, agent, lim);
          w1 := Receive(w, incoming.value, reply, lim);
        }
        FollowSlots(w1, 0, t, envs, k, agent, lim);
      }
    case User(acts) => FollowActs(w, acts, k, agent, lim);
  }

  lemma {:induction false} RunCount(w: World, es: seq<Event>, lim: Limits)
    ensures |Run(w, es, lim).ops| == |w.ops|
    decreases |es|
  {
    if es != [] {
      RunCount(w, es[..|es| - 1], lim);
      var mid := Run(w, es[..|es| - 1], lim);
      hide Run, RunActs, TickSlots, Receive;
      match es[|es| - 1]
      case Loop(_, _, _, _) =>
      case User(_) =>
    }
  }

  ghost predicate HonestRun(w: World, es: seq<Event>, k: nat, agent: Agent, lim: Limits)
    requires k < |w.ops|
  {
    forall i :: 0 <= i < |es| ==> HonestBefore(w, es, i, k, agent, lim)
  }

  /** Event i is honest in the world that the events before it lead to. */
  ghost predicate HonestBefore(w: World, es: seq<Event>, i: nat, k: nat, agent: Agent, lim: Limits)
    requires i < |es|
  {
    k < |Run(w, es[..i], lim).ops| ==> HonestEvent(Run(w, es[..i], lim), es[i], k, agent)
  }

  lemma {:induction false} HonestShorter(w: World, es: seq<Event>, k: nat, agent: Agent, lim: Limits)
    requires k < |w.ops| && es != [] && HonestRun(w, es, k, agent, lim)
    ensures HonestRun(w, es[..|es| - 1], k, agent, lim)
  {
    hide Run, HonestEvent;
    var before := es[..|es| - 1];
    forall i | 0 <= i < |before|
      ensures HonestBefore(w, before, i, k, agent, lim)
    {
      assert before[..i] == es[..i] && before[i] == es[i];
      assert HonestBefore(w, es, i, k, agent, lim);
    }
  }

  lemma {:induction false} InitialFollows(w: World, k: nat, agent: Agent, lim: Limits)
    requires Initial(w, lim) && k < |w.ops|
    ensures Abides(w, k, agent)
  {
    hide Canonical, NamedCells;
    assert Fresh(w.ops[k], lim);
  }

  lemma {:induction false} RunFollows(w: World, es: seq<Event>, k: nat, agent: Agent, lim: Limits)
    requires Initial(w, lim) && ParsedEvents(es, lim) && SortedMib(agent.mib)
    requires k < |w.ops| && w.ops[k].walking && HonestRun(w, es, k, agent, lim)
    ensures var r := Run(w, es, lim); k < |r.ops| && r.ops[k].walking && Abides(r, k, agent)
    decreases |es|
  {
    InitialInv(w, lim);
    RunCount(w, es, lim);
    RunKeeps(w, es, lim);
    RunWalking(w, Run(w, es, lim), k);
    hide Inv, AllReady, Next, ParsedEvent, Follows, SortedMib, HonestEvent, Grown, Initial;
    if es == [] {
      InitialFollows(w, k, agent, lim);
    } else {
      var before := es[..|es| - 1];
      assert forall i :: 0 <= i < |before| ==> before[i] == es[i];
      HonestShorter(w, es, k, agent, lim);
      RunFollows(w, before, k, agent, lim);
      Reachable(w, before, lim);
      assert HonestBefore(w, es, |es| - 1, k, agent, lim);
      FollowNext(Run(w, before, lim), es[|es| - 1], k, agent, lim);
    }
  }

  lemma {:induction false} RunWalking(w: World, r: World, k: nat)
    requires Grown(w, r) && k < |w.ops|
    ensures |r.ops| == |w.ops| && r.ops[k].walking == w.ops[k].walking
  {
    assert Evolves(w.ops[k], r.ops[k]);
  }

  /** The cell is what the library makes of a value that the agent may answer for its name. */
  ghost predicate Answers(c: Cell, agent: Agent, lim: Limits) {
    exists v :: agent.says(c.oid, v) && v.Tag() != ENDOFMIBVIEW && CopyValue(v, lim) == (c.status, c.value)
  }

  /**
   * The whole subtree: every name strictly below the root, in order, each once, with the agent's values; and a walk
   * that collects has exactly these as its results.
   */
  ghost predicate Whole(op: Op, agent: Agent, lim: Limits) {
    && op.delivered == Members(agent.mib, op.root) && NamesOf(op.taken, op.delivered)
    && (forall i :: 0 <= i < |op.taken| ==> Answers(op.taken[i], agent, lim))
    && (!op.streaming ==> op.cells == op.taken)
  }

  lemma {:induction false} FoundAnswers(c: Cell, replies: seq<Message>, agent: Agent, lim: Limits)
    requires Found(c, replies, lim) && Told(replies, agent)
    ensures Answers(c, agent, lim)
  {
    hide CopyValue;
    var r, i :| 0 <= r < |replies| && 0 <= i < |replies[r].bindings| && replies[r].errorStatus == 0
                && replies[r].bindings[i].name == c.oid && replies[r].bindings[i].value.Tag() != ENDOFMIBVIEW
                && CopyValue(replies[r].bindings[i].value, lim) == (c.status, c.value);
    assert agent.says(c.oid, replies[r].bindings[i].value);
  }

  lemma {:induction false} EndedWhole(op: Op, agent: Agent, lim: Limits)
    requires OpInv(op, lim) && Follows(op, agent) && op.walking && op.settled && op.status == Success
    ensures Whole(op, agent, lim)
  {
    assert Gathering(op, lim) && Told(op.replies, agent);
    hide OpInv, Follows, Members, Found, Told, Answers;
    forall i | 0 <= i < |op.taken|
      ensures Answers(op.taken[i], agent, lim)
    {
      FoundAnswers(op.taken[i], op.replies, agent, lim);
    }
  }

  lemma {:induction false} LogFollows(w: World, i: nat, k: nat, agent: Agent, lim: Limits)
    requires Inv(w, lim) && k < |w.ops| && Abides(w, k, agent) && i < |w.completions| && w.completions[i].op == k
    ensures OpInv(w.completions[i].state, lim) && Follows(w.completions[i].state, agent)
  {
    hide OpInv, Follows, SlotsOk, IdsOk, OpsOk, WireOk;
    assert Ended(w.completions[i].state, lim);
  }

  /**
   * A walk that ends with Success has the whole subtree, whether it is looked at between events or by the completion
   * handler at the moment the walk ends.
   */
  lemma {:induction false} WalkComplete(w: World, es: seq<Event>, k: nat, i: nat, agent: Agent, lim: Limits)
    requires Initial(w, lim) && ParsedEvents(es, lim) && SortedMib(agent.mib)
    requires k < |w.ops| && w.ops[k].walking && HonestRun(w, es, k, agent, lim)
    ensures var r := Run(w, es, lim);
            && k < |r.ops|
            && (r.ops[k].settled && r.ops[k].status == Success ==> Whole(r.ops[k], agent, lim))
            && (i < |r.completions| && r.completions[i].op == k ==>
                  var seen := r.completions[i].state;
                  seen.walking && seen.settled && seen.status == Success ==> Whole(seen, agent, lim))
  {
    RunFollows(w, es, k, agent, lim);
    Reachable(w, es, lim);
    var r := Run(w, es, lim);
    hide Initial, Inv, AllReady, HonestRun, ParsedEvents, SortedMib, Run, OpInv, Follows, FollowsLog, Whole;
    InvOp(r, k, lim);
    if r.ops[k].settled && r.ops[k].status == Success {
      EndedWhole(r.ops[k], agent, lim);
    }
    if i < |r.completions| && r.completions[i].op == k {
      LogFollows(r, i, k, agent, lim);
      var seen := r.completions[i].state;
      if seen.walking && seen.settled && seen.status == Success {
        EndedWhole(seen, agent, lim);
      }
    }
  }

  /** When the agent's values do not change, the cells are exactly the copies of those values. */
  lemma {:induction false} WholeOfConstants(op: Op, agent: Agent, values: Text -> Ber, i: nat, lim: Limits)
    requires Whole(op, agent, lim) && i < |op.taken|
    requires forall name, v :: agent.says(name, v) ==> v == values(name)
    ensures op.taken[i].oid == Members(agent.mib, op.root)[i]
    ensures (op.taken[i].status, op.taken[i].value) == CopyValue(values(op.taken[i].oid), lim)
  {
    hide CopyValue, Members;
    assert Answers(op.taken[i], agent, lim);
  }

  /** So the two ways of walking agree: GetNext and GetBulk walks of one subtree deliver the same names. */
  lemma {:induction false} WalksAgree(v: World, es: seq<Event>, j: nat, w: World, fs: seq<Event>, k: nat,
                                      agent: Agent, lim: Limits)
    requires Initial(v, lim) && ParsedEvents(es, lim) && j < |v.ops| && v.ops[j].walking
    requires HonestRun(v, es, j, agent, lim)
    requires Initial(w, lim) && ParsedEvents(fs, lim) && k < |w.ops| && w.ops[k].walking
    requires HonestRun(w, fs, k, agent, lim)
    requires SortedMib(agent.mib)
    ensures var q, r := Run(v, es, lim), Run(w, fs, lim);
            j < |q.ops| && k < |r.ops| &&
            var a, b := q.ops[j], r.ops[k];
            a.settled && b.settled && a.status == Success && b.status == Success && a.root == b.root ==>
              a.delivered == b.delivered
  {
    hide Initial, HonestRun, ParsedEvents, SortedMib, Run;
    WalkComplete(v, es, j, 0, agent, lim);
    WalkComplete(w, fs, k, 0, agent, lim);
  }
}
