/**
 * How walks end against an agent that answers as it should: an SNMPv1 agent's noSuchName behind its last name completes
 * the walk, and no walk ever ends with ProtocolError.
 */
module Endings {
  import opened Bytes
  import opened Trees
  import opened Messages
  import opened Values
  import opened Operations
  import opened OperationLaws
  import opened Engine
  import opened EngineLaws
  import opened StepLaws
  import opened RunLaws
  import opened Runs
  import opened Outgoing
  import opened Correlation
  import opened Agents
  import opened WalkSteps
  import opened Walks
  import opened Outcomes

  // ----- the end of an SNMPv1 agent's names -----

  lemma {:induction false} VisitLogs(w: World, i: nat, t: nat, env: SlotEnv, lim: Limits)
    requires i < |w.slots|
    ensures w.completions <= VisitSlot(w, i, t, env, lim).completions
  {
    hide TickOp, FinishOp, CanSend, Transmitting, RequestOctets;
    if 0 <= w.slots[i] < |w.ops| {
      var k := w.slots[i];
      match TickOp(w.ops[k], t % TWO32)
      case Expire(op) => FinishLogs(w, k, op, Timeout, env.done, lim);
      case Keep(op) =>
      case Send(op) => SendLogs(w, k, Stamped(op, t), t, env, lim);
    }
  }

  lemma {:induction false} SendLogs(w: World, k: nat, op: Op, t: nat, env: SlotEnv, lim: Limits)
    requires k < |w.ops|
    ensures w.completions <= SendOp(w, k, op, t, env, lim).completions
  {
    hide SendOp, FinishOp, CanSend, Transmitting, RequestOctets, Finished, Packed;
    SendOpIs(w, k, op, t, env, lim);
    FinishLogs(w, k, op.(batch := Packed(op, lim)), CapacityExceeded, env.done, lim);
    FinishLogs(Logged(w, k, op, t, lim), k, Transmitting(op, w.nextId, lim), TransportError, env.done, lim);
  }

  lemma {:induction false} SlotsLog(w: World, i: nat, t: nat, envs: seq<SlotEnv>, lim: Limits)
    requires i <= |w.slots|
    ensures w.completions <= TickSlots(w, i, t, envs, lim).completions
    decreases |w.slots| - i
  {
    hide VisitSlot;
    if i < |w.slots| {
      VisitLogs(w, i, t, EnvAt(envs, i), lim);
      SlotsLog(VisitSlot(w, i, t, EnvAt(envs, i), lim), i + 1, t, envs, lim);
    }
  }

  /** The packet is an SNMPv1 agent's noSuchName. */
  ghost predicate NoNextName(op: Op, p: Packet) {
    Addressed(op, p) && op.walking && op.dev.version == 0 && p.m.errorStatus == 2 && p.m.errorIndex >= 0
  }

  lemma {:induction false} EndIsLogged(w: World, t: nat, p: Packet, k: nat, env: ReplyEnv, envs: seq<SlotEnv>,
                                       lim: Limits)
    requires Inv(w, lim) && w.begun && k < |w.ops| && NoNextName(w.ops[k], p)
    ensures var log := LoopStep(w, t, Some(p), env, envs, lim).completions;
            && |w.completions| < |log| && log[|w.completions|].op == k
            && ClosedAs(Recorded(w.ops[k], p.m), log[|w.completions|].state, Success)
  {
    hide Inv, Receive, TickSlots, ClosedAs, Addressed;
    ErrorToWalk(w, p, k, env, lim);
    SlotsLog(Receive(w, p, env, lim), 0, t, envs, lim);
  }

  lemma {:induction false} LastStep(w: World, es: seq<Event>, e: Event, lim: Limits)
    ensures Run(w, es + [e], lim) == Next(Run(w, es, lim), e, lim)
  {
    hide Next;
    assert (es + [e])[..|es|] == es;
  }

  /**
   * Against an honest agent, in any run: the noSuchName that an SNMPv1 agent sends behind its last name completes the
   * walk that asked, as Success, and its handler finds the whole subtree.
   */
  lemma {:induction false} EndOfNames(w: World, es: seq<Event>, t: nat, p: Packet, env: ReplyEnv, envs: seq<SlotEnv>,
                                      k: nat, agent: Agent, lim: Limits)
    requires var e := Loop(t, Some(p), env, envs);
             ParsedEvents(es + [e], lim) && k < |w.ops| && HonestRun(w, es + [e], k, agent, lim)
    requires Initial(w, lim) && SortedMib(agent.mib) && w.ops[k].walking && w.begun
    requires k < |Run(w, es, lim).ops| && NoNextName(Run(w, es, lim).ops[k], p)
    ensures var i, log := |Run(w, es, lim).completions|, Run(w, es + [Loop(t, Some(p), env, envs)], lim).completions;
            && i < |log| && log[i].op == k && log[i].state.status == Success && log[i].state.settled
            && log[i].state.completed && Whole(log[i].state, agent, lim)
  {
    var e := Loop(t, Some(p), env, envs);
    var before := Run(w, es, lim);
    assert forall i :: 0 <= i < |es| ==> es[i] == (es + [e])[i];
    hide Initial, HonestRun, SortedMib, Run, Inv, AllReady, LoopStep, NoNextName, Whole, Grown, HonestBefore;
    InitialInv(w, lim);
    RunKeeps(w, es, lim);
    GrownBegun(w, before);
    LastStep(w, es, e, lim);
    EndIsLogged(before, t, p, k, env, envs, lim);
    NoNextWalks(before.ops[k], p);
    WalkComplete(w, es + [e], k, |before.completions|, agent, lim);
  }

  lemma {:induction false} GrownBegun(w: World, r: World)
    requires Grown(w, r)
    ensures r.begun == w.begun
  {}

  lemma {:induction false} NoNextWalks(op: Op, p: Packet)
    requires NoNextName(op, p)
    ensures op.walking
  {}

  // ----- dutiful agents -----

  /** No errors but those that have a meaning for walks, and at least one binding for a request for one successor. */
  ghost predicate Dutiful(version: nat, mode: byte, m: Message) {
    && m.errorIndex >= 0
    && (m.errorStatus == 0 || m.errorStatus == 1 || (m.errorStatus == 2 && version == 0))
    && (m.errorStatus == 0 && mode != GETBULK ==> m.bindings != [])
  }

  /** A packet that walk k takes is an honest and dutiful answer to a datagram sent under its ID. */
  ghost predicate DutifulPacket(w: World, p: Packet, k: nat, agent: Agent)
    requires k < |w.ops|
  {
    Matches(w.ops[k], p.m, p.peer, p.port) ==>
      exists i :: 0 <= i < |w.wire| && w.wire[i].id == p.m.id && HonestReply(agent, w.wire[i], p.m)
                  && Dutiful(w.wire[i].version, w.wire[i].mode, p.m)
  }

  /** The outcomes that no agent causes, apart from tooBig. */
  predicate Regular(s: Status) { s in {Success, CapacityExceeded, TransportError, Timeout, Cancelled} }

  ghost predicate Clean(w: World, k: nat)
    requires k < |w.ops|
  {
    && (w.ops[k].settled ==> w.ops[k].Pending() || Regular(w.ops[k].status))
    && forall i :: 0 <= i < |w.completions| && w.completions[i].op == k ==> Regular(w.completions[i].state.status)
  }

  lemma {:induction false} CleanPut(w: World, j: nat, op: Op, k: nat)
    requires k < |w.ops| && j < |w.ops| && Clean(w, k)
    requires j == k ==> !op.settled || op.Pending() || Regular(op.status)
    ensures Clean(Put(w, j, op), k)
  {}

  lemma {:induction false} CleanSame(a: World, b: World, k: nat)
    requires k < |a.ops| && Clean(a, k) && b.completions == a.completions && |b.ops| == |a.ops| && b.ops[k] == a.ops[k]
    ensures Clean(b, k)
  {}

  lemma {:induction false} CleanRelease(w: World, j: nat, op: Op, outcome: Status, k: nat)
    requires k < |w.ops| && j < |w.ops| && Clean(w, k) && Regular(outcome)
    ensures Clean(Release(w, j, op, outcome), k)
  {
    FinishedStatus(op, outcome);
    hide Finished;
  }

  lemma {:induction false} OtherRelease(w: World, j: nat, op: Op, outcome: Status, k: nat)
    requires k < |w.ops| && j < |w.ops| && Clean(w, k) && j != k
    ensures Clean(Release(w, j, op, outcome), k)
  {
    hide Finished;
  }

  lemma {:induction false} FinishedStatus(op: Op, outcome: Status)
    ensures Finished(op, outcome).status == outcome
  {}

  lemma {:induction false} CleanAct(w: World, act: Act, k: nat, lim: Limits)
    requires k < |w.ops| && Clean(w, k)
    ensures Clean(RunAct(w, act, lim), k)
    decreases act, 0
  {
    hide Clean, FinishOp, Schedule, Add, SetRoot, Put;
    match act
    case Start(j) =>
      if j < |w.ops| {
        CleanSchedule(w, j, k);
      }
    case Cancel(j, done) =>
      if j < |w.ops| && w.ops[j].Pending() {
        CleanFinish(w, j, w.ops[j], Cancelled, done, k, lim);
      }
    case Configure(j, root) =>
      if j < |w.ops| && w.ops[j].walking {
        CleanUnsettled(w, j, SetRoot(w.ops[j], root, lim).1, k) by { SetRootUnsettles(w.ops[j], root, lim); }
      }
    case AddName(j, name, expected, value) =>
      if j < |w.ops| && !w.ops[j].walking {
        CleanUnsettled(w, j, Add(w.ops[j], name, expected, value, lim).1, k) by {
          AddUnsettles(w.ops[j], name, expected, value, lim);
        }
      }
  }

  lemma {:induction false} CleanUnsettled(w: World, j: nat, op: Op, k: nat)
    requires k < |w.ops| && j < |w.ops| && Clean(w, k) && (op == w.ops[j] || !op.settled)
    ensures Clean(Put(w, j, op), k)
  {}

  lemma {:induction false} CleanSchedule(w: World, j: nat, k: nat)
    requires k < |w.ops| && j < |w.ops| && Clean(w, k)
    ensures Clean(Schedule(w, j).1, k)
  {
    ScheduledUnsettled(w.ops[j]);
    hide Scheduled, Admission, FreeSlot;
  }

  lemma {:induction false} ScheduledUnsettled(op: Op)
    ensures !Scheduled(op).settled
  {}

  lemma {:induction false} CleanFinish(w: World, j: nat, op: Op, outcome: Status, done: seq<Act>, k: nat, lim: Limits)
    requires k < |w.ops| && j < |w.ops| && Clean(w, k) && (j == k ==> Regular(outcome))
    ensures Clean(FinishOp(w, j, op, outcome, done, lim), k)
    decreases done, 1
  {
    hide Clean, Release, RunActs;
    if j == k {
      CleanRelease(w, j, op, outcome, k);
    } else {
      OtherRelease(w, j, op, outcome, k);
    }
    CleanActs(Release(w, j, op, outcome), done, k, lim);
  }

  lemma {:induction false} CleanActs(w: World, acts: seq<Act>, k: nat, lim: Limits)
    requires k < |w.ops| && Clean(w, k)
    ensures Clean(RunActs(w, acts, lim), k)
    decreases acts, 0
  {
    hide Clean, RunAct;
    if acts != [] {
      CleanAct(w, acts[0], k, lim);
      CleanActs(RunAct(w, acts[0], lim), acts[1..], k, lim);
    }
  }

  // ----- replies -----

  lemma {:induction false} CleanOtherResolve(w: World, j: nat, s: Step, done: seq<Act>, k: nat, lim: Limits)
    requires k < |w.ops| && j < |w.ops| && j != k && Clean(w, k)
    ensures Clean(Resolve(w, j, s, done, lim), k)
  {
    hide Clean, FinishOp, Put;
    if s.Finish? {
      CleanFinish(w, j, s.op, s.outcome, done, k, lim);
    } else {
      CleanPut(w, j, s.op, k);
    }
  }

  lemma {:induction false} CleanOtherLoop(w: World, j: nat, bs: seq<Binding>, any: bool, shows: seq<Show>,
                                          done: seq<Act>, k: nat, lim: Limits)
    requires k < |w.ops| && j < |w.ops| && j != k && Clean(w, k)
    ensures Clean(WalkLoop(w, j, bs, any, shows, done, lim), k)
    decreases |bs|
  {
    var op := w.ops[j];
    hide Clean, FinishOp, WalkLoop, VisitBinding, WalkEnd, RunActs, Resolve, Advanced, Collected, Put;
    WalkLoopOver(w, j, bs, any, shows, done, lim);
    if bs == [] {
      CleanOtherResolve(w, j, WalkEnd(op, any), done, k, lim);
    } else {
      match VisitBinding(op, bs[0], lim)
      case Stop(outcome) =>
        CleanFinish(w, j, op, outcome, done, k, lim);
      case Deliver(cell) =>
        if op.streaming {
          WalkLoopShown(w, j, bs, any, shows, done, lim);
          var show, w0 := FirstShow(shows), Put(w, j, Shown(op, cell));
          CleanPut(w, j, Shown(op, cell), k);
          CleanActs(w0, show.acts, k, lim);
          var w1 := RunActs(w0, show.acts, lim);
          CleanFinish(w1, j, w1.ops[j], CapacityExceeded, done, k, lim);
          CleanPut(w1, j, Advanced(w1.ops[j], cell), k);
          CleanOtherLoop(Put(w1, j, Advanced(w1.ops[j], cell)), j, bs[1..], true, LaterShows(shows), done, k, lim);
        } else {
          WalkLoopCollected(w, j, bs, any, shows, done, lim);
          CleanFinish(w, j, op, CapacityExceeded, done, k, lim);
          CleanPut(w, j, Collected(op, cell), k);
          CleanOtherLoop(Put(w, j, Collected(op, cell)), j, bs[1..], true, shows, done, k, lim);
        }
    }
  }

  lemma {:induction false} CleanOtherReply(w: World, j: nat, m: Message, env: ReplyEnv, k: nat, lim: Limits)
    requires k < |w.ops| && j < |w.ops| && j != k && Clean(w, k) && Repliable(w.ops[j])
    ensures Clean(Reply(w, j, m, env, lim), k)
  {
    hide Clean, ReplyHead, Resolve, WalkLoop, Commit, Put;
    HeadRepliable(w.ops[j], m);
    var s := ReplyHead(w.ops[j], m);
    if !s.Bindings? {
      CleanOtherResolve(w, j, s, env.done, k, lim);
    } else if s.op.walking {
      CleanPut(w, j, s.op, k);
      CleanOtherLoop(Put(w, j, s.op), j, m.bindings, false, env.shows, env.done, k, lim);
    } else {
      CleanOtherResolve(w, j, Commit(s.op, m, lim), env.done, k, lim);
    }
  }

  /** The bindings of a dutiful answer: each is taken or completes the walk. */
  lemma {:induction false} CleanLoop(w: World, k: nat, bs: seq<Binding>, any: bool, shows: seq<Show>, done: seq<Act>,
                                     agent: Agent, lim: Limits)
    requires k < |w.ops| && SortedMib(agent.mib) && Abides(w, k, agent) && Midway(w.ops[k], agent, bs) && Clean(w, k)
    requires bs == [] ==> any || w.ops[k].mode == GETBULK
    ensures Clean(WalkLoop(w, k, bs, any, shows, done, lim), k)
    decreases |bs|, 1
  {
    var op := w.ops[k];
    hide Clean, Follows, FollowsLog, SortedMib, FinishOp, WalkLoop, VisitBinding, WalkEnd, Successors, Rank, Resolve;
    WalkLoopOver(w, k, bs, any, shows, done, lim);
    if bs == [] {
      CleanEnd(w, k, any, done, lim);
    } else {
      SuccessorsSplit(agent, Rank(agent.mib, op.cursor), bs);
      HonestVisit(op, bs[0], Rank(agent.mib, op.cursor), agent, lim);
      if VisitBinding(op, bs[0], lim).Stop? {
        CleanFinish(w, k, op, Success, done, k, lim);
      } else if op.streaming {
        CleanShown(w, k, bs, any, shows, done, agent, lim);
      } else {
        CleanCollected(w, k, bs, any, shows, done, agent, lim);
      }
    }
  }

  lemma {:induction false} CleanEnd(w: World, k: nat, any: bool, done: seq<Act>, lim: Limits)
    requires k < |w.ops| && Clean(w, k) && (any || w.ops[k].mode == GETBULK) && w.ops[k].Pending()
    ensures Clean(Resolve(w, k, WalkEnd(w.ops[k], any), done, lim), k)
  {
    hide FinishOp;
  }

  lemma {:induction false} CleanCollected(w: World, k: nat, bs: seq<Binding>, any: bool, shows: seq<Show>,
                                          done: seq<Act>, agent: Agent, lim: Limits)
    requires k < |w.ops| && SortedMib(agent.mib) && Abides(w, k, agent) && Midway(w.ops[k], agent, bs) && Clean(w, k)
    requires bs != [] && !w.ops[k].streaming && VisitBinding(w.ops[k], bs[0], lim).Deliver?
    ensures Clean(WalkLoop(w, k, bs, any, shows, done, lim), k)
    decreases |bs|, 0
  {
    var op, cell := w.ops[k], VisitBinding(w.ops[k], bs[0], lim).cell;
    hide Clean, Midway, Follows, FollowsLog, SortedMib, FinishOp, WalkLoop, VisitBinding, Collected;
    WalkLoopCollected(w, k, bs, any, shows, done, lim);
    MidwayCollected(op, bs, agent, lim);
    if |op.cells| == op.capacity {
      CleanFinish(w, k, op, CapacityExceeded, done, k, lim);
    } else {
      var next := Collected(op, cell);
      MidwayFollows(next, agent, bs[1..]);
      CleanPut(w, k, next, k);
      CleanLoop(Put(w, k, next), k, bs[1..], true, shows, done, agent, lim);
    }
  }

  lemma {:induction false} MidwayFollows(op: Op, agent: Agent, bs: seq<Binding>)
    requires Midway(op, agent, bs)
    ensures Follows(op, agent) && Waits(op) && op.Pending() && !op.settled
  {
    hide Follows, Successors, Rank;
  }

  lemma {:induction false} CleanShown(w: World, k: nat, bs: seq<Binding>, any: bool, shows: seq<Show>,
                                      done: seq<Act>, agent: Agent, lim: Limits)
    requires k < |w.ops| && SortedMib(agent.mib) && Abides(w, k, agent) && Midway(w.ops[k], agent, bs) && Clean(w, k)
    requires bs != [] && w.ops[k].streaming && VisitBinding(w.ops[k], bs[0], lim).Deliver?
    ensures Clean(WalkLoop(w, k, bs, any, shows, done, lim), k)
    decreases |bs|, 0
  {
    var op, cell, show := w.ops[k], VisitBinding(w.ops[k], bs[0], lim).cell, FirstShow(shows);
    MidwayWaits(op, agent, bs);
    hide Clean, Midway, Follows, FollowsLog, SortedMib, FinishOp, WalkLoop, VisitBinding, RunActs, Advanced;
    WalkLoopShown(w, k, bs, any, shows, done, lim);
    MidwayShown(op, bs, agent, lim);
    var w0 := Put(w, k, Shown(op, cell));
    CleanPut(w, k, Shown(op, cell), k);
    CleanActs(w0, show.acts, k, lim);
    FollowActs(w0, show.acts, k, agent, lim);
    var w1 := RunActs(w0, show.acts, lim);
    if !show.accept {
      CleanFinish(w1, k, w1.ops[k], CapacityExceeded, done, k, lim);
    } else if w1.ops[k].Pending() && w1.ops[k].id == op.id {
      assert w1.ops[k] == Shown(op, cell);
      var next := Advanced(w1.ops[k], cell);
      MidwayFollows(next, agent, bs[1..]);
      CleanPut(w1, k, next, k);
      CleanLoop(Put(w1, k, next), k, bs[1..], true, LaterShows(shows), done, agent, lim);
    }
  }

  lemma {:induction false} CleanReply(w: World, k: nat, m: Message, env: ReplyEnv, agent: Agent, lim: Limits)
    requires k < |w.ops| && w.ops[k].walking && Waits(w.ops[k]) && !w.ops[k].settled && Clean(w, k)
    requires Abides(w, k, agent) && SortedMib(agent.mib) && HonestFor(w.ops[k], m, agent)
    requires Dutiful(w.ops[k].dev.version, w.ops[k].mode, m)
    ensures Clean(Reply(w, k, m, env, lim), k)
  {
    hide Clean, Follows, FollowsLog, SortedMib, HonestFor, ReplyHead, FinishOp, WalkLoop, Midway, Finished, Put;
    HeadFollows(w.ops[k], m, agent);
    HeadWalks(w.ops[k], m);
    DutifulHead(w.ops[k], m);
    match ReplyHead(w.ops[k], m)
    case Finish(o, outcome) => CleanFinish(w, k, o, outcome, env.done, k, lim);
    case Continue(o) => CleanPut(w, k, o, k);
    case Bindings(o) =>
      MidwayFollows(o, agent, m.bindings);
      CleanPut(w, k, o, k);
      AbidesPut(w, k, o, agent);
      CleanLoop(Put(w, k, o), k, m.bindings, false, env.shows, env.done, agent, lim);
  }

  lemma {:induction false} AbidesPut(w: World, k: nat, op: Op, agent: Agent)
    requires k < |w.ops| && Abides(w, k, agent) && Follows(op, agent)
    ensures Abides(Put(w, k, op), k, agent)
  {
    hide Follows;
  }

  lemma {:induction false} DutifulHead(op: Op, m: Message)
    requires op.walking && !op.settled && Dutiful(op.dev.version, op.mode, m)
    ensures match ReplyHead(op, m)
            case Finish(_, outcome) => outcome == Success || outcome == CapacityExceeded
            case Continue(o) => !o.settled
            case Bindings(o) => m.bindings == [] ==> o.mode == GETBULK
  {}

  // ----- runs -----

  lemma {:induction false} CleanReceive(w: World, p: Packet, env: ReplyEnv, k: nat, agent: Agent, lim: Limits)
    requires Inv(w, lim) && AllReady(w) && k < |w.ops| && SortedMib(agent.mib) && Abides(w, k, agent) && Clean(w, k)
    requires w.ops[k].walking && DutifulPacket(w, p, k, agent)
    ensures Clean(Receive(w, p, env, lim), k)
  {
    hide Inv, AllReady, OpInv, Follows, FollowsLog, SortedMib, Reply, Matches, DutifulPacket, HonestFor, Dutiful,
      SlotsOk, Repliable, Clean, HonestPacket, Abides;
    InvSlots(w, lim);
    InvOp(w, k, lim);
    var j := FindMatch(w, 0, p.m, p.peer, p.port);
    if j < |w.slots| && Repliable(w.ops[w.slots[j]]) {
      if w.slots[j] == k {
        OccupiedPending(w, j);
        DutifulIsHonest(w, p, k, agent);
        HonestMatch(w, p, k, agent, lim);
        DutifulMatch(w, p, k, agent, lim);
        PendingOpen(w.ops[k], lim);
        CleanReply(w, k, p.m, env, agent, lim);
      } else {
        CleanOtherReply(w, w.slots[j], p.m, env, k, lim);
      }
    }
  }

  lemma {:induction false} PendingOpen(op: Op, lim: Limits)
    requires OpInv(op, lim) && op.Pending()
    ensures !op.settled
  {}

  lemma {:induction false} DutifulIsHonest(w: World, p: Packet, k: nat, agent: Agent)
    requires k < |w.ops| && DutifulPacket(w, p, k, agent)
    ensures HonestPacket(w, p, k, agent)
  {
    hide Matches, HonestReply;
  }

  lemma {:induction false} DutifulMatch(w: World, p: Packet, k: nat, agent: Agent, lim: Limits)
    requires Inv(w, lim) && AllReady(w) && k < |w.ops| && w.ops[k].Pending()
    requires Matches(w.ops[k], p.m, p.peer, p.port) && DutifulPacket(w, p, k, agent)
    ensures Dutiful(w.ops[k].dev.version, w.ops[k].mode, p.m)
  {
    hide Inv, AllReady, HonestReply, Repliable, Dutiful;
    MatchedFields(w.ops[k], p);
    SlotExpects(w, k, lim);
    var i :| 0 <= i < |w.wire| && w.wire[i].id == p.m.id && Dutiful(w.wire[i].version, w.wire[i].mode, p.m);
    Flying(w, k, i, lim);
  }

  lemma {:induction false} CleanTick(w: World, j: nat, t: nat, env: SlotEnv, k: nat, lim: Limits)
    requires j < |w.ops| && k < |w.ops| && Clean(w, k) && w.ops[j].Pending()
    ensures Clean(TickSlot(w, j, t, env, lim), k)
  {
    hide Clean, FinishOp, SendOp, TickOp, Put;
    TickPending(w.ops[j], t % TWO32);
    match TickOp(w.ops[j], t % TWO32)
    case Expire(op) => CleanFinish(w, j, op, Timeout, env.done, k, lim);
    case Keep(op) => CleanPut(w, j, op, k);
    case Send(op) => CleanSend(w, j, Stamped(op, t), t, env, k, lim);
  }

  lemma {:induction false} TickPending(op: Op, now: uint32)
    ensures TickOp(op, now).op.status == op.status
  {
    hide Elapsed;
  }

  lemma {:induction false} CleanSend(w: World, j: nat, op: Op, t: nat, env: SlotEnv, k: nat, lim: Limits)
    requires j < |w.ops| && k < |w.ops| && Clean(w, k) && op.Pending()
    ensures Clean(SendOp(w, j, op, t, env, lim), k)
  {
    var tx, w1 := Transmitting(op, w.nextId, lim), Logged(w, j, op, t, lim);
    assert tx.Pending();
    assert w1.ops == w.ops && w1.completions == w.completions;
    hide Clean, FinishOp, SendOp, CanSend, Packed, Transmitting, Logged, Put;
    SendOpIs(w, j, op, t, env, lim);
    CleanSame(w, w1, k);
    CleanFinish(w, j, op.(batch := Packed(op, lim)), CapacityExceeded, env.done, k, lim);
    CleanFinish(w1, j, tx, TransportError, env.done, k, lim);
    CleanPut(w1, j, Transmitted(tx, t % TWO32), k);
  }

  lemma {:induction false} CleanSlots(w: World, i: nat, t: nat, envs: seq<SlotEnv>, k: nat, lim: Limits)
    requires Inv(w, lim) && AllReady(w) && i <= |w.slots| && k < |w.ops| && Clean(w, k)
    ensures Clean(TickSlots(w, i, t, envs, lim), k)
    decreases |w.slots| - i
  {
    hide Inv, AllReady, Clean, TickSlot, Grown, SlotsOk;
    if i < |w.slots| {
      InvSlots(w, lim);
      if w.slots[i] != FREE {
        OccupiedPending(w, i);
        CleanTick(w, w.slots[i], t, EnvAt(envs, i), k, lim);
      }
      VisitSlotKeeps(w, i, t, EnvAt(envs, i), lim);
      CleanSlots(VisitSlot(w, i, t, EnvAt(envs, i), lim), i + 1, t, envs, k, lim);
    }
  }

  ghost predicate DutifulEvent(w: World, e: Event, k: nat, agent: Agent)
    requires k < |w.ops|
  {
    e.Loop? && e.incoming.Some? ==> DutifulPacket(w, e.incoming.value, k, agent)
  }

  lemma {:induction false} CleanNext(w: World, e: Event, k: nat, agent: Agent, lim: Limits)
    requires Inv(w, lim) && AllReady(w) && ParsedEvent(e, lim) && k < |w.ops| && w.ops[k].walking && Clean(w, k)
    requires SortedMib(agent.mib) && Abides(w, k, agent) && DutifulEvent(w, e, k, agent)
    ensures Clean(Next(w, e, lim), k)
  {
    hide Inv, AllReady, Abides, SortedMib, Clean, DutifulPacket, Receive, TickSlots, RunActs, Tame, Sendable;
    match e
    case Loop(t, incoming, reply, envs) =>
      if w.begun {
        var w1 := w;
        if incoming.Some? {
          CleanReceive(w, incoming.value, reply, k, agent, lim);
          ReceiveKeeps(w, incoming.value, reply, lim);
          w1 := Receive(w, incoming.value, reply, lim);
        }
        CleanSlots(w1, 0, t, envs, k, lim);
        CleanSame(TickSlots(w1, 0, t, envs, lim), Next(w, e, lim), k);
      }
    case User(acts) => CleanActs(w, acts, k, lim);
  }

  ghost predicate DutifulBefore(w: World, es: seq<Event>, i: nat, k: nat, agent: Agent, lim: Limits)
    requires i < |es|
  {
    k < |Run(w, es[..i], lim).ops| ==> DutifulEvent(Run(w, es[..i], lim), es[i], k, agent)
  }

  /** Every packet that the walk takes in the run is honest and dutiful. */
  ghost predicate DutifulRun(w: World, es: seq<Event>, k: nat, agent: Agent, lim: Limits)
    requires k < |w.ops|
  {
    forall i :: 0 <= i < |es| ==> DutifulBefore(w, es, i, k, agent, lim)
  }

  lemma {:induction false} DutifulRunIsHonest(w: World, es: seq<Event>, k: nat, agent: Agent, lim: Limits)
    requires k < |w.ops| && DutifulRun(w, es, k, agent, lim)
    ensures HonestRun(w, es, k, agent, lim)
  {
    hide Run, DutifulPacket, HonestPacket;
    forall i | 0 <= i < |es|
      ensures HonestBefore(w, es, i, k, agent, lim)
    {
      assert DutifulBefore(w, es, i, k, agent, lim);
      var r, e := Run(w, es[..i], lim), es[i];
      if k < |r.ops| && e.Loop? && e.incoming.Some? {
        DutifulIsHonest(r, e.incoming.value, k, agent);
      }
    }
  }

  lemma {:induction false} DutifulShorter(w: World, es: seq<Event>, k: nat, agent: Agent, lim: Limits)
    requires k < |w.ops| && es != [] && DutifulRun(w, es, k, agent, lim)
    ensures DutifulRun(w, es[..|es| - 1], k, agent, lim)
  {
    hide Run, DutifulEvent;
    var before := es[..|es| - 1];
    forall i | 0 <= i < |before|
      ensures DutifulBefore(w, before, i, k, agent, lim)
    {
      assert before[..i] == es[..i] && before[i] == es[i];
      assert DutifulBefore(w, es, i, k, agent, lim);
    }
  }

  lemma {:induction false} RunClean(w: World, es: seq<Event>, k: nat, agent: Agent, lim: Limits)
    requires Initial(w, lim) && ParsedEvents(es, lim) && SortedMib(agent.mib)
    requires k < |w.ops| && w.ops[k].walking && DutifulRun(w, es, k, agent, lim)
    ensures k < |Run(w, es, lim).ops| && Clean(Run(w, es, lim), k)
    decreases |es|
  {
    hide Inv, AllReady, Next, ParsedEvent, Abides, SortedMib, DutifulEvent, Clean, Initial, HonestRun;
    if es == [] {
      InitialClean(w, k, lim);
    } else {
      var before := es[..|es| - 1];
      assert forall i :: 0 <= i < |before| ==> before[i] == es[i];
      DutifulShorter(w, es, k, agent, lim);
      RunClean(w, before, k, agent, lim);
      Reachable(w, before, lim);
      DutifulRunIsHonest(w, before, k, agent, lim);
      RunFollows(w, before, k, agent, lim);
      assert DutifulBefore(w, es, |es| - 1, k, agent, lim);
      CleanNext(Run(w, before, lim), es[|es| - 1], k, agent, lim);
      RunCount(w, es, lim);
    }
  }

  lemma {:induction false} InitialClean(w: World, k: nat, lim: Limits)
    requires Initial(w, lim) && k < |w.ops|
    ensures Clean(w, k)
  {
    assert Fresh(w.ops[k], lim);
  }

  /**
   * Against an honest and dutiful agent, whatever the network does, a walk ends with Success, or for want of room, by
   * the transport, the clock or a cancellation: never with ProtocolError; between events and in every handler.
   */
  lemma {:induction false} DutifulWalksEndWell(w: World, es: seq<Event>, k: nat, i: nat, agent: Agent, lim: Limits)
    requires Initial(w, lim) && ParsedEvents(es, lim) && SortedMib(agent.mib)
    requires k < |w.ops| && w.ops[k].walking && DutifulRun(w, es, k, agent, lim)
    ensures var r := Run(w, es, lim);
            && k < |r.ops|
            && (r.ops[k].settled ==> Regular(r.ops[k].status))
            && (i < |r.completions| && r.completions[i].op == k ==> Regular(r.completions[i].state.status))
  {
    hide Initial, Inv, AllReady, DutifulRun, ParsedEvents, SortedMib, Run, OpInv;
    RunClean(w, es, k, agent, lim);
    Reachable(w, es, lim);
    var r := Run(w, es, lim);
    InvOp(r, k, lim);
    if r.ops[k].Pending() {
      PendingOpen(r.ops[k], lim);
    }
  }

  /** The simulated agent is dutiful. */
  lemma {:induction false} AgentIsDutiful(mib: seq<Text>, values: seq<Ber>, e: Sent, community: seq<byte>)
    requires |values| == |mib|
    ensures Dutiful(e.version, e.mode, AgentReply(mib, values, e, community))
  {
    hide NextBindings, Rank;
  }
}
