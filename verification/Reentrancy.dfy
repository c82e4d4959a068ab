/**
 * Every state in which user code runs: when a streaming callback or a completion handler is entered, and after each
 * call that it makes, however deeply handlers set off one another. The client's invariant holds in all of them.
 */
module Reentrancy {
  import opened Bytes
  import opened Messages
  import opened Values
  import opened Operations
  import opened OperationLaws
  import opened ReplyLaws
  import opened Engine
  import opened EngineLaws
  import opened StepLaws
  import opened RunLaws
  import opened Runs

  // ----- what user code sees -----

  /** During one call: the handler that a cancellation sets off. */
  ghost function ActSees(w: World, act: Act, lim: Limits): set<World>
    decreases act, 0
  {
    if act.Cancel? && act.op < |w.ops| && w.ops[act.op].Pending() then
      ActsSee(Release(w, act.op, w.ops[act.op], Cancelled), act.done, lim)
    else {}
  }

  /** On entry and after each call. */
  ghost function ActsSee(w: World, acts: seq<Act>, lim: Limits): set<World>
    decreases acts, 0
  {
    {w} + (if acts == [] then {} else ActSees(w, acts[0], lim) + ActsSee(RunAct(w, acts[0], lim), acts[1..], lim))
  }

  ghost function FinishSees(w: World, k: nat, op: Op, outcome: Status, done: seq<Act>, lim: Limits): set<World>
    requires k < |w.ops|
  {
    ActsSee(Release(w, k, op, outcome), done, lim)
  }

  ghost function ResolveSees(w: World, k: nat, s: Step, done: seq<Act>, lim: Limits): set<World>
    requires k < |w.ops|
  {
    if s.Finish? then FinishSees(w, k, s.op, s.outcome, done, lim) else {}
  }

  /** During the binding loop: each callback, and the handler at the end. */
  ghost function WalkSees(w: World, k: nat, bs: seq<Binding>, any: bool, shows: seq<Show>, done: seq<Act>,
                          lim: Limits): set<World>
    requires k < |w.ops|
    decreases |bs|
  {
    var op := w.ops[k];
    if bs == [] then ResolveSees(w, k, WalkEnd(op, any), done, lim)
    else
      match VisitBinding(op, bs[0], lim)
      case Stop(outcome) => FinishSees(w, k, op, outcome, done, lim)
      case Deliver(cell) =>
        if op.streaming then
          var show, w0 := FirstShow(shows), Put(w, k, Shown(op, cell));
          var w1 := RunActs(w0, show.acts, lim);
          ActsSee(w0, show.acts, lim) +
          (if !show.accept then FinishSees(w1, k, w1.ops[k], CapacityExceeded, done, lim)
           else if !w1.ops[k].Pending() || w1.ops[k].id != op.id then {}
           else WalkSees(Put(w1, k, Advanced(w1.ops[k], cell)), k, bs[1..], true, LaterShows(shows), done, lim))
        else if |op.cells| == op.capacity then FinishSees(w, k, op, CapacityExceeded, done, lim)
        else WalkSees(Put(w, k, Collected(op, cell)), k, bs[1..], true, shows, done, lim)
  }

  ghost function ReplySees(w: World, k: nat, m: Message, env: ReplyEnv, lim: Limits): set<World>
    requires k < |w.ops| && Repliable(w.ops[k])
  {
    var s := ReplyHead(w.ops[k], m);
    if !s.Bindings? then ResolveSees(w, k, s, env.done, lim)
    else if s.op.walking then WalkSees(Put(w, k, s.op), k, m.bindings, false, env.shows, env.done, lim)
    else ResolveSees(w, k, Commit(s.op, m, lim), env.done, lim)
  }

  ghost function ReceiveSees(w: World, p: Packet, env: ReplyEnv, lim: Limits): set<World> {
    var j := FindMatch(w, 0, p.m, p.peer, p.port);
    if j == |w.slots| || !Repliable(w.ops[w.slots[j]]) then {} else ReplySees(w, w.slots[j], p.m, env, lim)
  }

  ghost function SendSees(w: World, k: nat, op: Op, t: nat, env: SlotEnv, lim: Limits): set<World>
    requires k < |w.ops|
  {
    if !CanSend(op, lim) || (!op.sent && w.nextId >= MAX_ID) then
      FinishSees(w, k, op.(batch := Packed(op, lim)), CapacityExceeded, env.done, lim)
    else if !env.transport then
      FinishSees(Logged(w, k, op, t, lim), k, Transmitting(op, w.nextId, lim), TransportError, env.done, lim)
    else {}
  }

  ghost function TickSees(w: World, k: nat, t: nat, env: SlotEnv, lim: Limits): set<World>
    requires k < |w.ops|
  {
    match TickOp(w.ops[k], t % TWO32)
    case Expire(op) => FinishSees(w, k, op, Timeout, env.done, lim)
    case Keep(_) => {}
    case Send(op) => SendSees(w, k, Stamped(op, t), t, env, lim)
  }

  ghost function SlotsSee(w: World, i: nat, t: nat, envs: seq<SlotEnv>, lim: Limits): set<World>
    requires i <= |w.slots|
    decreases |w.slots| - i
  {
    if i == |w.slots| then {}
    else
      (if 0 <= w.slots[i] < |w.ops| then TickSees(w, w.slots[i], t, EnvAt(envs, i), lim) else {})
      + SlotsSee(VisitSlot(w, i, t, EnvAt(envs, i), lim), i + 1, t, envs, lim)
  }

  /** During one event. */
  ghost function NextSees(w: World, e: Event, lim: Limits): set<World> {
    match e
    case Loop(t, incoming, reply, envs) =>
      if !w.begun then {}
      else
        var w1 := if incoming.Some? then Receive(w, incoming.value, reply, lim) else w;
        (if incoming.Some? then ReceiveSees(w, incoming.value, reply, lim) else {}) + SlotsSee(w1, 0, t, envs, lim)
    case User(acts) => ActsSee(w, acts, lim)
  }

  // ----- the invariant in all of them -----

  lemma {:induction false} ActInside(w: World, act: Act, v: World, lim: Limits)
    requires Inv(w, lim) && v in ActSees(w, act, lim)
    ensures Inv(v, lim)
    decreases act, 0
  {
    hide Inv, Ended, Evolves, IdFits;
    CancelReady(w, act.op, lim);
    ReleaseKeeps(w, act.op, w.ops[act.op], Cancelled, lim);
    ActsInside(Release(w, act.op, w.ops[act.op], Cancelled), act.done, v, lim);
  }

  lemma {:induction false} ActsInside(w: World, acts: seq<Act>, v: World, lim: Limits)
    requires Inv(w, lim) && v in ActsSee(w, acts, lim)
    ensures Inv(v, lim)
    decreases acts, 0
  {
    hide Inv, Calm, ActSees, RunAct;
    if v != w {
      if v in ActSees(w, acts[0], lim) {
        ActInside(w, acts[0], v, lim);
      } else {
        RunActKeeps(w, acts[0], lim);
        ActsInside(RunAct(w, acts[0], lim), acts[1..], v, lim);
      }
    }
  }

  lemma {:induction false} FinishInside(w: World, k: nat, op: Op, outcome: Status, done: seq<Act>, v: World,
                                        lim: Limits)
    requires Inv(w, lim) && k < |w.ops| && v in FinishSees(w, k, op, outcome, done, lim)
    requires Ended(Finished(op, outcome), lim) && outcome != Status.Pending && op.id == w.ops[k].id
    ensures Inv(v, lim)
  {
    IdsOkFits(w, k);
    hide Inv, Ended, Finished, IdFits, ActsSee;
    ReleaseKeeps(w, k, op, outcome, lim);
    ActsInside(Release(w, k, op, outcome), done, v, lim);
  }

  lemma {:induction false} ResolveInside(w: World, k: nat, s: Step, done: seq<Act>, v: World, lim: Limits)
    requires Inv(w, lim) && k < |w.ops| && StepKeeps(w.ops[k], s, lim) && v in ResolveSees(w, k, s, done, lim)
    requires Evolves(w.ops[k], s.op) && SameRun(w.ops[k], s.op) && s.op.Pending()
    ensures Inv(v, lim)
  {
    hide Inv, Ended, Evolves, Finishing, Finished, FinishSees;
    LegalFinish(w.ops[k], s.op, s.outcome, lim);
    FinishInside(w, k, s.op, s.outcome, done, v, lim);
  }

  lemma {:induction false} WalkInside(w: World, k: nat, bs: seq<Binding>, any: bool, shows: seq<Show>, done: seq<Act>,
                                      v: World, lim: Limits)
    requires Inv(w, lim) && k < |w.ops| && Reading(w.ops[k]) && ReadyBut(w, k) && NamedBindings(bs, lim)
    requires AllOffered(w.ops[k].replies, bs) && v in WalkSees(w, k, bs, any, shows, done, lim)
    ensures Inv(v, lim)
    decreases |bs|, 1
  {
    InvOp(w, k, lim);
    var op := w.ops[k];
    hide Inv, OpInv, Evolves, Ended, Finished, VisitBinding, WalkEnd, FinishSees, ResolveSees, WalkSees, AllOffered,
      ReadyBut,
      NamedBindings;
    WalkSeesIs(w, k, bs, any, shows, done, lim);
    if bs == [] {
      WalkEndKeeps(op, any, lim);
      WalkEndEvolves(op, any);
      ResolveInside(w, k, WalkEnd(op, any), done, v, lim);
    } else if VisitBinding(op, bs[0], lim).Stop? {
      StopOutcome(op, bs[0], lim);
      RefusedFinish(op, VisitBinding(op, bs[0], lim).outcome, lim);
      FinishInside(w, k, op, VisitBinding(op, bs[0], lim).outcome, done, v, lim);
    } else if op.streaming {
      StreamInside(w, k, bs, any, shows, done, v, lim);
    } else {
      CollectInside(w, k, bs, any, shows, done, v, lim);
    }
  }

  lemma {:induction false} WalkSeesIs(w: World, k: nat, bs: seq<Binding>, any: bool, shows: seq<Show>, done: seq<Act>,
                                      lim: Limits)
    requires k < |w.ops|
    ensures bs == [] ==>
              WalkSees(w, k, bs, any, shows, done, lim) == ResolveSees(w, k, WalkEnd(w.ops[k], any), done, lim)
    ensures bs != [] && VisitBinding(w.ops[k], bs[0], lim).Stop? ==>
              WalkSees(w, k, bs, any, shows, done, lim) ==
              FinishSees(w, k, w.ops[k], VisitBinding(w.ops[k], bs[0], lim).outcome, done, lim)
  {
    hide VisitBinding, FinishSees, ResolveSees, ActsSee, RunActs;
  }

  /** What a collecting walk sees in one binding. */
  lemma {:induction false} CollectInside(w: World, k: nat, bs: seq<Binding>, any: bool, shows: seq<Show>,
                                         done: seq<Act>,
                                         v: World, lim: Limits)
    requires Inv(w, lim) && k < |w.ops| && Reading(w.ops[k]) && ReadyBut(w, k) && NamedBindings(bs, lim)
    requires AllOffered(w.ops[k].replies, bs) && v in WalkSees(w, k, bs, any, shows, done, lim)
    requires bs != [] && !w.ops[k].streaming && VisitBinding(w.ops[k], bs[0], lim).Deliver?
    ensures Inv(v, lim)
    decreases |bs|, 0
  {
    InvOp(w, k, lim);
    var op, cell := w.ops[k], VisitBinding(w.ops[k], bs[0], lim).cell;
    hide Inv, OpInv, Evolves, Ended, Finished, VisitBinding, FinishSees, NamedBindings, AllOffered, ReadyBut, Tame;
    FirstNamed(bs, lim);
    FirstOffered(op.replies, bs);
    if |op.cells| == op.capacity {
      RefusedFinish(op, CapacityExceeded, lim);
      FinishInside(w, k, op, CapacityExceeded, done, v, lim);
    } else {
      CapacityLeft(op, lim);
      DeliverKeeps(op, bs[0], lim);
      AdvanceEvolves(op, cell);
      PutAnswered(w, k, Collected(op, cell), lim);
      WalkInside(Put(w, k, Collected(op, cell)), k, bs[1..], true, shows, done, v, lim);
    }
  }

  /** What a streaming walk sees in one binding: the callback, then the refusal or the rest. */
  lemma {:induction false} StreamInside(w: World, k: nat, bs: seq<Binding>, any: bool, shows: seq<Show>, done: seq<Act>,
                                        v: World, lim: Limits)
    requires Inv(w, lim) && k < |w.ops| && Reading(w.ops[k]) && ReadyBut(w, k) && NamedBindings(bs, lim)
    requires AllOffered(w.ops[k].replies, bs) && v in WalkSees(w, k, bs, any, shows, done, lim)
    requires bs != [] && w.ops[k].streaming && VisitBinding(w.ops[k], bs[0], lim).Deliver?
    ensures Inv(v, lim)
    decreases |bs|, 0
  {
    InvOp(w, k, lim);
    var op, cell, show := w.ops[k], VisitBinding(w.ops[k], bs[0], lim).cell, FirstShow(shows);
    hide Inv, OpInv, Evolves, Ended, Finished, VisitBinding, FinishSees, NamedBindings, AllOffered, ReadyBut, Tame,
      ActsSee,
      RunActs, WalkSees;
    FirstNamed(bs, lim);
    FirstOffered(op.replies, bs);
    DeliverKeeps(op, bs[0], lim);
    StreamSeesIs(w, k, bs, any, shows, done, lim);
    var w0 := Put(w, k, Shown(op, cell));
    ShowEvolves(op, cell);
    PutAnswered(w, k, Shown(op, cell), lim);
    ShowKeeps(w, k, cell, show.acts, lim);
    var w1 := RunActs(w0, show.acts, lim);
    if v in ActsSee(w0, show.acts, lim) {
      ActsInside(w0, show.acts, v, lim);
    } else if !show.accept {
      InvOp(w1, k, lim);
      RefusedFinish(w1.ops[k], CapacityExceeded, lim);
      FinishInside(w1, k, w1.ops[k], CapacityExceeded, done, v, lim);
    } else {
      AdvanceEvolves(w1.ops[k], cell);
      PutAnswered(w1, k, Advanced(w1.ops[k], cell), lim);
      WalkInside(Put(w1, k, Advanced(w1.ops[k], cell)), k, bs[1..], true, LaterShows(shows), done, v, lim);
    }
  }

  lemma {:induction false} ShowEvolves(op: Op, cell: Cell)
    ensures Evolves(op, Shown(op, cell)) && SameRun(op, Shown(op, cell))
  {}

  lemma {:induction false} StreamSeesIs(w: World, k: nat, bs: seq<Binding>, any: bool, shows: seq<Show>,
                                        done: seq<Act>, lim: Limits)
    requires k < |w.ops| && bs != [] && w.ops[k].streaming && VisitBinding(w.ops[k], bs[0], lim).Deliver?
    ensures var op, cell, show := w.ops[k], VisitBinding(w.ops[k], bs[0], lim).cell, FirstShow(shows);
            var w0 := Put(w, k, Shown(op, cell));
            var w1 := RunActs(w0, show.acts, lim);
            WalkSees(w, k, bs, any, shows, done, lim) ==
            ActsSee(w0, show.acts, lim) +
            (if !show.accept then FinishSees(w1, k, w1.ops[k], CapacityExceeded, done, lim)
             else if !w1.ops[k].Pending() || w1.ops[k].id != op.id then {}
             else WalkSees(Put(w1, k, Advanced(w1.ops[k], cell)), k, bs[1..], true, LaterShows(shows), done, lim))
  {
    hide VisitBinding, FinishSees, ResolveSees, ActsSee, RunActs;
  }

  lemma {:induction false} ReplyInside(w: World, k: nat, m: Message, env: ReplyEnv, v: World, lim: Limits)
    requires Inv(w, lim) && k < |w.ops| && AllReady(w) && w.ops[k].Pending() && w.ops[k].sent && Repliable(w.ops[k])
    requires Sendable(m, lim) && v in ReplySees(w, k, m, env, lim)
    ensures Inv(v, lim)
  {
    var op := w.ops[k];
    InvOp(w, k, lim);
    AllReadyBut(w, k);
    hide Inv, Evolves, OpInv, AllReady, ReadyBut, ReplyHead, WalkSees, ResolveSees, Sendable, Commit, Finishing,
      Repliable, Ended;
    MatchedIsRepliable(op, lim);
    ReplyHeadKeeps(op, m, lim);
    ReplyHeadEvolves(op, m);
    var s := ReplyHead(op, m);
    if !s.Bindings? {
      ResolveInside(w, k, s, env.done, v, lim);
    } else if s.op.walking {
      WalkReplyInside(w, k, m, env, v, lim);
    } else {
      BatchReplyInside(w, k, m, env, v, lim);
    }
  }

  lemma {:induction false} WalkReplyInside(w: World, k: nat, m: Message, env: ReplyEnv, v: World, lim: Limits)
    requires Inv(w, lim) && k < |w.ops| && ReadyBut(w, k) && Ready(w.ops[k]) && Expects(w.ops[k]) && w.ops[k].walking
    requires Sendable(m, lim) && OpInv(Noted(w.ops[k], m), lim) && m.errorStatus == 0
    requires v in WalkSees(Put(w, k, Noted(w.ops[k], m)), k, m.bindings, false, env.shows, env.done, lim)
    ensures Inv(v, lim)
  {
    hide Inv, Tame, Evolves, OpInv, ReadyBut, WalkSees, Sendable, AllOffered;
    var op, noted := w.ops[k], Noted(w.ops[k], m);
    NotedFacts(op, m);
    PutAnswered(w, k, noted, lim);
    MessageNames(m, lim);
    LastOffered(noted.replies);
    WalkInside(Put(w, k, noted), k, m.bindings, false, env.shows, env.done, v, lim);
  }

  lemma {:induction false} BatchReplyInside(w: World, k: nat, m: Message, env: ReplyEnv, v: World, lim: Limits)
    requires Inv(w, lim) && k < |w.ops| && Expects(w.ops[k]) && !w.ops[k].walking
    requires OpInv(Noted(w.ops[k], m), lim) && Repliable(Noted(w.ops[k], m))
    requires v in ResolveSees(w, k, Commit(Noted(w.ops[k], m), m, lim), env.done, lim)
    ensures Inv(v, lim)
  {
    hide Inv, Evolves, OpInv, ResolveSees, Commit, Finishing;
    var op, noted := w.ops[k], Noted(w.ops[k], m);
    NotedFacts(op, m);
    CommitKeeps(noted, m, lim);
    CommitEvolves(noted, m, lim);
    EvolvesTransitive(op, noted, Commit(noted, m, lim).op);
    ResolveInside(w, k, Commit(noted, m, lim), env.done, v, lim);
  }

  lemma {:induction false} ReceiveInside(w: World, p: Packet, env: ReplyEnv, v: World, lim: Limits)
    requires Inv(w, lim) && AllReady(w) && Sendable(p.m, lim) && v in ReceiveSees(w, p, env, lim)
    ensures Inv(v, lim)
  {
    hide ReplySees, Sendable, Inv, AllReady, SlotsOk;
    InvSlots(w, lim);
    var j := FindMatch(w, 0, p.m, p.peer, p.port);
    OccupiedPending(w, j);
    ReplyInside(w, w.slots[j], p.m, env, v, lim);
  }

  // ----- the clock -----

  lemma {:induction false} SendInside(w: World, k: nat, op: Op, t: nat, env: SlotEnv, v: World, lim: Limits)
    requires Inv(w, lim) && k < |w.ops| && Handed(w, k, op, lim) && v in SendSees(w, k, op, t, env, lim)
    ensures Inv(v, lim)
  {
    hide Inv, OpInv, Handed, CanSend, Packed, Transmitting, Logged, FinishSees, Finishing, Ended, Finished, Evolves,
      ToSend;
    HandedFacts(w, k, op, lim);
    if !CanSend(op, lim) || (!op.sent && w.nextId >= MAX_ID) {
      SendFails(op, w.nextId, CapacityExceeded, lim);
      var packed := op.(batch := Packed(op, lim));
      FailedEnds(packed, CapacityExceeded, lim);
      FinishInside(w, k, packed, CapacityExceeded, env.done, v, lim);
    } else {
      SendFails(op, w.nextId, TransportError, lim);
      var tx, w1 := Transmitting(op, w.nextId, lim), Logged(w, k, op, t, lim);
      LoggedKeeps(w, k, op, t, lim);
      LoggedTerms(w, k, op, t, lim);
      TransmittingEvolves(op, w.nextId, t % TWO32, lim);
      FailedEnds(tx, TransportError, lim);
      LoggedInside(w1, k, tx, TransportError, env.done, v, lim);
    }
  }

  lemma {:induction false} FailedEnds(op: Op, outcome: Status, lim: Limits)
    requires Finishing(op, outcome, lim) && op.Pending()
    ensures Ended(Finished(op, outcome), lim) && outcome != Status.Pending
  {
    FinishedKeeps(op, outcome, lim);
    hide Ended, Finished;
  }

  /** The handler of an operation that takes a new request ID with it. */
  lemma {:induction false} LoggedInside(w: World, k: nat, op: Op, outcome: Status, done: seq<Act>, v: World,
                                        lim: Limits)
    requires Inv(w, lim) && k < |w.ops| && v in FinishSees(w, k, op, outcome, done, lim) && IdFits(w, k, op.id)
    requires Ended(Finished(op, outcome), lim) && outcome != Status.Pending
    ensures Inv(v, lim)
  {
    hide Inv, Ended, Finished, IdFits, ActsSee;
    ReleaseKeeps(w, k, op, outcome, lim);
    ActsInside(Release(w, k, op, outcome), done, v, lim);
  }

  lemma {:induction false} TickInside(w: World, k: nat, t: nat, env: SlotEnv, v: World, lim: Limits)
    requires Inv(w, lim) && AllReady(w) && k < |w.ops| && w.ops[k].Pending() && v in TickSees(w, k, t, env, lim)
    ensures Inv(v, lim)
  {
    hide Inv, AllReady, OpInv, TickOp, Handed, SendSees, FinishSees, Finishing, Ended, Finished, Stamped;
    var op := w.ops[k];
    InvOp(w, k, lim);
    TickKeeps(op, t % TWO32, lim);
    match TickOp(op, t % TWO32)
    case Expire(_) =>
      BusyFinishes(op, Timeout, lim);
      FailedEnds(op, Timeout, lim);
      FinishInside(w, k, op, Timeout, env.done, v, lim);
    case Send(o) =>
      TickSends(w, k, t, lim);
      SendInside(w, k, Stamped(o, t), t, env, v, lim);
    case Keep(_) =>
  }

  lemma {:induction false} SlotsInside(w: World, i: nat, t: nat, envs: seq<SlotEnv>, v: World, lim: Limits)
    requires Inv(w, lim) && AllReady(w) && i <= |w.slots| && v in SlotsSee(w, i, t, envs, lim)
    ensures Inv(v, lim)
    decreases |w.slots| - i
  {
    hide Inv, AllReady, Grown, VisitSlot, TickSees, SlotsOk;
    InvSlots(w, lim);
    if 0 <= w.slots[i] < |w.ops| && v in TickSees(w, w.slots[i], t, EnvAt(envs, i), lim) {
      OccupiedPending(w, i);
      TickInside(w, w.slots[i], t, EnvAt(envs, i), v, lim);
    } else {
      VisitSlotKeeps(w, i, t, EnvAt(envs, i), lim);
      SlotsInside(VisitSlot(w, i, t, EnvAt(envs, i), lim), i + 1, t, envs, v, lim);
    }
  }

  lemma {:induction false} NextInside(w: World, e: Event, v: World, lim: Limits)
    requires Inv(w, lim) && AllReady(w) && ParsedEvent(e, lim) && v in NextSees(w, e, lim)
    ensures Inv(v, lim)
  {
    hide Inv, AllReady, Sendable, Receive, ReceiveSees, SlotsSee, ActsSee, Tame;
    match e
    case Loop(t, incoming, reply, envs) =>
      if incoming.Some? && v in ReceiveSees(w, incoming.value, reply, lim) {
        ReceiveInside(w, incoming.value, reply, v, lim);
      } else if incoming.Some? {
        ReceiveKeeps(w, incoming.value, reply, lim);
        SlotsInside(Receive(w, incoming.value, reply, lim), 0, t, envs, v, lim);
      } else {
        SlotsInside(w, 0, t, envs, v, lim);
      }
    case User(acts) => ActsInside(w, acts, v, lim);
  }

  // ----- over every run -----

  /** Operation k is pending exactly when it occupies exactly one slot; and slots hold nothing but operations. */
  ghost predicate SlotExact(w: World, k: nat) {
    && k < |w.ops|
    && (w.ops[k].Pending() <==> exists i :: 0 <= i < |w.slots| && w.slots[i] == k)
    && (forall i, j :: 0 <= i < j < |w.slots| && w.slots[i] == k ==> w.slots[j] != k)
    && (forall i :: 0 <= i < |w.slots| ==> w.slots[i] == FREE || 0 <= w.slots[i] < |w.ops|)
  }

  lemma {:induction false} SlotsExact(w: World, k: nat)
    requires SlotsOk(w) && k < |w.ops|
    ensures SlotExact(w, k)
  {}

  /**
   * The scheduler invariant, between events and whenever user code runs during one: in every streaming callback, in
   * every completion handler, and after each start, cancellation or configuration that these make.
   */
  lemma {:induction false} SchedulerInvariant(w: World, es: seq<Event>, e: Event, v: World, k: nat, lim: Limits)
    requires Initial(w, lim) && ParsedEvents(es, lim) && ParsedEvent(e, lim)
    requires v == Run(w, es, lim) || v in NextSees(Run(w, es, lim), e, lim)
    ensures Inv(v, lim) && (k < |v.ops| ==> SlotExact(v, k))
  {
    hide Initial, Run, ParsedEvents, ParsedEvent, Inv, AllReady, NextSees, SlotsOk;
    Reachable(w, es, lim);
    if v != Run(w, es, lim) {
      NextInside(Run(w, es, lim), e, v, lim);
    }
    InvSlots(v, lim);
    if k < |v.ops| {
      SlotsExact(v, k);
    }
  }
}
