/** One walk against an honest agent: user code and replies keep it abreast of the agent's names. */
module WalkSteps {
  import opened Bytes
  import opened Oids
  import opened OidOrder
  import opened Trees
  import opened Messages
  import opened Values
  import opened Operations
  import opened OperationLaws
  import opened Engine
  import opened EngineLaws
  import opened StepLaws
  import opened Outgoing
  import opened Correlation
  import opened Agents

  // ----- one walk -----

  /** What a walk has delivered is what the agent has below the root, up to the cursor, or all of it in the end. */
  ghost predicate Follows(op: Op, agent: Agent) {
    op.walking ==>
      && (op.root != [] ==> Canonical(op.root))
      && (op.Pending() ==> op.root != [] && Abreast(op, agent))
      && (op.Pending() || op.settled ==> Told(op.replies, agent))
      && (op.settled && op.status == Success ==> op.delivered == Members(agent.mib, op.root))
  }

  ghost predicate Abreast(op: Op, agent: Agent) {
    && Canonical(op.cursor) && (op.cursor == op.root || Under(op.root, op.cursor))
    && op.delivered == Members(agent.mib[..Rank(agent.mib, op.cursor)], op.root)
  }

  /** Successful replies bind names to values that the agent may answer for them. */
  ghost predicate Told(replies: seq<Message>, agent: Agent) {
    forall r, i :: 0 <= r < |replies| && 0 <= i < |replies[r].bindings| && replies[r].errorStatus == 0
                   && replies[r].bindings[i].value.Tag() != ENDOFMIBVIEW ==>
      agent.says(replies[r].bindings[i].name, replies[r].bindings[i].value)
  }

  /** The same of every completion logged for operation k. */
  ghost predicate FollowsLog(log: seq<Completion>, k: nat, agent: Agent) {
    forall i :: 0 <= i < |log| && log[i].op == k ==> Follows(log[i].state, agent)
  }

  ghost predicate Abides(w: World, k: nat, agent: Agent)
    requires k < |w.ops|
  {
    Follows(w.ops[k], agent) && FollowsLog(w.completions, k, agent)
  }

  lemma {:induction false} ReleaseAbides(w: World, j: nat, op: Op, outcome: Status, k: nat, agent: Agent)
    requires j < |w.ops| && k < |w.ops| && FollowsLog(w.completions, k, agent)
    requires if j == k then Follows(Finished(op, outcome), agent) else Follows(w.ops[k], agent)
    ensures Abides(Release(w, j, op, outcome), k, agent)
  {
    hide Follows, Finished;
  }

  lemma {:induction false} ScheduledFollows(op: Op, agent: Agent)
    requires Follows(op, agent) && SortedMib(agent.mib) && Admission(op, true) == Success
    ensures Follows(Scheduled(op), agent)
  {
    if op.walking {
      NoMembersUpToRoot(agent.mib, op.root);
    }
    hide Canonical, Under, Members, Rank, SortedMib;
  }

  /** The part of `Follows` that a failure leaves. */
  ghost predicate Rooted(op: Op, agent: Agent) {
    op.walking ==> (op.root != [] ==> Canonical(op.root)) && (op.Pending() || op.settled ==> Told(op.replies, agent))
  }

  lemma {:induction false} FailedFollows(op: Op, outcome: Status, agent: Agent)
    requires Rooted(op, agent)
    requires outcome != Success && outcome != Status.Pending
    ensures Follows(Finished(op, outcome), agent)
  {}

  lemma {:induction false} RootFollows(op: Op, root: Text, agent: Agent, lim: Limits)
    requires Follows(op, agent)
    ensures Follows(SetRoot(op, root, lim).1, agent)
  {
    hide EncodeText, DecodeText, CheckValue, Canonical, Abreast, Members;
    var c := EncodeText(root, lim);
    if c.Some? && DecodeText(c.value, lim).Some? {
      DecodedName(c.value, lim);
    }
  }

  lemma {:induction false} AddFollows(op: Op, name: Text, expected: byte, value: Option<Value>, agent: Agent,
                                      lim: Limits)
    requires !op.walking
    ensures Follows(Add(op, name, expected, value, lim).1, agent)
  {
    AddFrame(op, name, expected, value, lim);
  }

  // ----- user code -----

  lemma {:induction false} FollowAct(w: World, act: Act, k: nat, agent: Agent, lim: Limits)
    requires k < |w.ops| && Abides(w, k, agent) && SortedMib(agent.mib)
    ensures Abides(RunAct(w, act, lim), k, agent)
    ensures Waits(RunAct(w, act, lim).ops[k]) ==> RunAct(w, act, lim).ops[k] == w.ops[k]
    decreases act, 0
  {
    hide Follows, SortedMib, SetRoot, Add, FinishOp, Scheduled, FreeSlot;
    match act
    case Start(j) =>
      if j == k && Schedule(w, k).0 == Success {
        AdmissionBegun(w.ops[k], w.begun);
        ScheduledFollows(w.ops[k], agent);
        ScheduledIdle(w.ops[k]);
      }
    case Cancel(j, done) =>
      if j < |w.ops| && w.ops[j].Pending() {
        if j == k {
          FollowsRoot(w.ops[k], agent);
          FailedFollows(w.ops[k], Cancelled, agent);
        }
        FollowFinish(w, j, w.ops[j], Cancelled, done, k, agent, lim);
      }
    case Configure(j, root) =>
      if j == k && w.ops[k].walking {
        RootFollows(w.ops[k], root, agent, lim);
        ConfigureEvolves(w.ops[k], root, lim);
      }
    case AddName(j, name, expected, value) =>
      if j == k && !w.ops[k].walking {
        AddFollows(w.ops[k], name, expected, value, agent, lim);
        AddEvolves(w.ops[k], name, expected, value, lim);
      }
  }

  lemma {:induction false} ScheduledIdle(op: Op)
    ensures Scheduled(op).id == 0
  {}

  lemma {:induction false} FollowsRoot(op: Op, agent: Agent)
    requires Follows(op, agent)
    ensures Rooted(op, agent)
  {}

  /** Finishing operation j, where j may or may not be the walk under observation. */
  lemma {:induction false} FollowFinish(w: World, j: nat, op: Op, outcome: Status, done: seq<Act>, k: nat,
                                        agent: Agent, lim: Limits)
    requires j < |w.ops| && k < |w.ops| && SortedMib(agent.mib) && (j == k ==> outcome != Status.Pending)
    requires FollowsLog(w.completions, k, agent)
    requires if j == k then Follows(Finished(op, outcome), agent) else Follows(w.ops[k], agent)
    ensures Abides(FinishOp(w, j, op, outcome, done, lim), k, agent)
    ensures Waits(FinishOp(w, j, op, outcome, done, lim).ops[k]) ==>
              j != k && FinishOp(w, j, op, outcome, done, lim).ops[k] == w.ops[k]
    decreases done, 1
  {
    hide Follows, SortedMib, RunActs, Abides;
    ReleaseAbides(w, j, op, outcome, k, agent);
    FollowActs(Release(w, j, op, outcome), done, k, agent, lim);
  }

  lemma {:induction false} FollowActs(w: World, acts: seq<Act>, k: nat, agent: Agent, lim: Limits)
    requires k < |w.ops| && Abides(w, k, agent) && SortedMib(agent.mib)
    ensures Abides(RunActs(w, acts, lim), k, agent)
    ensures Waits(RunActs(w, acts, lim).ops[k]) ==> RunActs(w, acts, lim).ops[k] == w.ops[k]
    decreases acts, 0
  {
    hide Follows, SortedMib, RunAct, Waits;
    if acts != [] {
      FollowAct(w, acts[0], k, agent, lim);
      FollowActs(RunAct(w, acts[0], lim), acts[1..], k, agent, lim);
    }
  }

  // ----- replies -----

  /** A failed request ends the walk without success. */
  lemma {:induction false} FollowFailure(w: World, k: nat, op: Op, outcome: Status, done: seq<Act>, agent: Agent,
                                         lim: Limits)
    requires k < |w.ops| && SortedMib(agent.mib) && Follows(op, agent) && FollowsLog(w.completions, k, agent)
    requires outcome != Success && outcome != Status.Pending
    ensures Abides(FinishOp(w, k, op, outcome, done, lim), k, agent)
  {
    FollowsRoot(op, agent);
    hide Follows, SortedMib, FinishOp;
    FailedFollows(op, outcome, agent);
    FollowFinish(w, k, op, outcome, done, k, agent, lim);
  }

  /** The end of the agent's names, or a name outside the subtree: everything below the root has been taken. */
  lemma {:induction false} EndFollows(op: Op, agent: Agent, n: nat)
    requires op.walking && op.Pending() && Follows(op, agent) && SortedMib(agent.mib)
    requires n == Rank(agent.mib, op.cursor) && (n < |agent.mib| ==> !Under(op.root, agent.mib[n]))
    ensures Follows(Finished(op, Success), agent)
  {
    hide Canonical, Under, Members, Rank, SettleAll, SortedMib;
    forall i | n <= i < |agent.mib|
      ensures !Under(op.root, agent.mib[i])
    {
      LeftForGood(agent.mib, op.root, op.cursor, n, i);
    }
    NoMoreMembers(agent.mib, n, |agent.mib|, op.root);
    assert agent.mib[..|agent.mib|] == agent.mib;
  }

  /** What an honest binding makes a walk do: take the next name below the root, or end because there is none. */
  lemma {:induction false} HonestVisit(op: Op, b: Binding, n: nat, agent: Agent, lim: Limits)
    requires op.walking && op.Pending() && Follows(op, agent) && SortedMib(agent.mib) && n == Rank(agent.mib, op.cursor)
    requires Successors(agent, n, [b])
    ensures match VisitBinding(op, b, lim)
            case Stop(outcome) => outcome == Success && (n < |agent.mib| ==> !Under(op.root, agent.mib[n]))
            case Deliver(cell) =>
              cell.oid == b.name && n < |agent.mib| && b.name == agent.mib[n] && Under(op.root, agent.mib[n])
  {
    hide Canonical, Under, Members, Rank, CopyValue, Compare;
    assert [b][0] == b;
    if n < |agent.mib| {
      RankIs(agent.mib, op.cursor, n);
    }
  }

  lemma {:induction false} AdvancedFollows(op: Op, cell: Cell, n: nat, agent: Agent)
    requires op.walking && op.Pending() && Follows(op, agent) && SortedMib(agent.mib) && !op.settled
    requires n == Rank(agent.mib, op.cursor) && n < |agent.mib| && cell.oid == agent.mib[n]
    requires Under(op.root, agent.mib[n])
    ensures Follows(Advanced(op, cell), agent) && Rank(agent.mib, Advanced(op, cell).cursor) == n + 1
    ensures Follows(Collected(op, cell), agent) && Rank(agent.mib, Collected(op, cell).cursor) == n + 1
  {
    AdvancedAbreast(op, cell, n, agent);
    hide Canonical, Under, Members, Rank, SortedMib, Told, Abreast;
    assert Follows(Advanced(op, cell), agent);
    hide Follows;
    SameWalkFollows(Advanced(op, cell), Collected(op, cell), agent);
  }

  lemma {:induction false} AdvancedAbreast(op: Op, cell: Cell, n: nat, agent: Agent)
    requires Abreast(op, agent) && SortedMib(agent.mib)
    requires n == Rank(agent.mib, op.cursor) && n < |agent.mib| && cell.oid == agent.mib[n]
    requires Under(op.root, agent.mib[n])
    ensures Abreast(Advanced(op, cell), agent) && Rank(agent.mib, cell.oid) == n + 1
  {
    assert Canonical(agent.mib[n]);
    RankNext(agent.mib, cell.oid, n);
    MembersSnoc(agent.mib, n, op.root);
    hide Canonical, Under, Members, Rank, SortedMib;
  }

  lemma {:induction false} SuccessorsSplit(agent: Agent, n: nat, bs: seq<Binding>)
    requires Successors(agent, n, bs) && bs != []
    ensures Successors(agent, n, [bs[0]])
    ensures n < |agent.mib| ==> Successors(agent, n + 1, bs[1..])
  {
    forall i | 0 <= i < |bs[1..]|
      ensures bs[1..][i] == bs[i + 1]
    {}
  }

  ghost predicate Midway(op: Op, agent: Agent, bs: seq<Binding>) {
    op.walking && Waits(op) && !op.settled && Follows(op, agent) && Successors(agent, Rank(agent.mib, op.cursor), bs)
  }

  lemma {:induction false} EndOfReply(op: Op, any: bool, agent: Agent)
    requires Follows(op, agent)
    ensures var s := WalkEnd(op, any);
            Follows(s.op, agent) && !s.Bindings? && (s.Finish? ==> s.outcome != Success && s.outcome != Status.Pending)
  {
    hide Members, Canonical, Under, Rank;
    assert Abreast(op, agent) ==> Abreast(WalkEnd(op, any).op, agent);
  }

  lemma {:induction false} FollowWalkLoop(w: World, k: nat, bs: seq<Binding>, any: bool, shows: seq<Show>,
                                          done: seq<Act>,
                                          agent: Agent, lim: Limits)
    requires k < |w.ops| && SortedMib(agent.mib) && FollowsLog(w.completions, k, agent) && Midway(w.ops[k], agent, bs)
    ensures Abides(WalkLoop(w, k, bs, any, shows, done, lim), k, agent)
    decreases |bs|, 1
  {
    var op := w.ops[k];
    var n := Rank(agent.mib, op.cursor);
    hide Follows, SortedMib, FinishOp, WalkLoop, VisitBinding, WalkEnd, Successors, Rank, Finished;
    WalkLoopOver(w, k, bs, any, shows, done, lim);
    if bs == [] {
      EndOfReply(op, any, agent);
      if WalkEnd(op, any).Finish? {
        FollowFailure(w, k, WalkEnd(op, any).op, WalkEnd(op, any).outcome, done, agent, lim);
      }
    } else {
      SuccessorsSplit(agent, n, bs);
      HonestVisit(op, bs[0], n, agent, lim);
      if VisitBinding(op, bs[0], lim).Stop? {
        EndFollows(op, agent, n);
        FollowFinish(w, k, op, Success, done, k, agent, lim);
      } else if op.streaming {
        FollowShown(w, k, bs, any, shows, done, agent, lim);
      } else {
        FollowCollected(w, k, bs, any, shows, done, agent, lim);
      }
    }
  }

  lemma {:induction false} MidwayNext(op: Op, bs: seq<Binding>, agent: Agent, lim: Limits)
    requires SortedMib(agent.mib) && Midway(op, agent, bs) && bs != [] && VisitBinding(op, bs[0], lim).Deliver?
    ensures var n := Rank(agent.mib, op.cursor);
            && n < |agent.mib| && VisitBinding(op, bs[0], lim).cell.oid == agent.mib[n] && Under(op.root, agent.mib[n])
            && Successors(agent, n + 1, bs[1..])
  {
    hide Follows, SortedMib, VisitBinding, Successors, Rank, Under;
    SuccessorsSplit(agent, Rank(agent.mib, op.cursor), bs);
    HonestVisit(op, bs[0], Rank(agent.mib, op.cursor), agent, lim);
  }

  lemma {:induction false} MidwayCollected(op: Op, bs: seq<Binding>, agent: Agent, lim: Limits)
    requires SortedMib(agent.mib) && Midway(op, agent, bs) && bs != [] && VisitBinding(op, bs[0], lim).Deliver?
    ensures Follows(op, agent) && Midway(Collected(op, VisitBinding(op, bs[0], lim).cell), agent, bs[1..])
  {
    hide Follows, SortedMib, VisitBinding, Successors, Rank, Waits, Collected, Advanced, Under;
    var cell := VisitBinding(op, bs[0], lim).cell;
    MidwayNext(op, bs, agent, lim);
    StillWaits(op, cell);
    AdvancedFollows(op, cell, Rank(agent.mib, op.cursor), agent);
  }

  lemma {:induction false} MidwayShown(op: Op, bs: seq<Binding>, agent: Agent, lim: Limits)
    requires SortedMib(agent.mib) && Midway(op, agent, bs) && bs != [] && VisitBinding(op, bs[0], lim).Deliver?
    ensures var cell := VisitBinding(op, bs[0], lim).cell;
            Follows(Shown(op, cell), agent) && Midway(Advanced(Shown(op, cell), cell), agent, bs[1..])
  {
    hide Follows, SortedMib, VisitBinding, Successors, Rank, Waits, Advanced, Under;
    var cell := VisitBinding(op, bs[0], lim).cell;
    var shown := Shown(op, cell);
    assert shown.cursor == op.cursor && shown.root == op.root && shown.status == op.status;
    hide Shown;
    MidwayNext(op, bs, agent, lim);
    StillWaits(op, cell);
    StillWaits(shown, cell);
    ShownFollows(op, cell, agent);
    AdvancedFollows(shown, cell, Rank(agent.mib, op.cursor), agent);
  }

  lemma {:induction false} StillWaits(op: Op, cell: Cell)
    ensures var a, b, c := Advanced(op, cell), Collected(op, cell), Shown(op, cell);
            && Waits(a) == Waits(b) == Waits(c) == Waits(op)
            && a.walking == b.walking == c.walking == op.walking && a.settled == b.settled == c.settled == op.settled
    ensures Waits(op) ==> op.Pending()
  {}

  lemma {:induction false} FollowCollected(w: World, k: nat, bs: seq<Binding>, any: bool, shows: seq<Show>,
                                           done: seq<Act>,
                                           agent: Agent, lim: Limits)
    requires k < |w.ops| && SortedMib(agent.mib) && FollowsLog(w.completions, k, agent) && Midway(w.ops[k], agent, bs)
    requires bs != [] && !w.ops[k].streaming && VisitBinding(w.ops[k], bs[0], lim).Deliver?
    ensures Abides(WalkLoop(w, k, bs, any, shows, done, lim), k, agent)
    decreases |bs|, 0
  {
    var op, cell := w.ops[k], VisitBinding(w.ops[k], bs[0], lim).cell;
    hide Midway, Follows, SortedMib, FinishOp, WalkLoop, VisitBinding, Collected;
    WalkLoopCollected(w, k, bs, any, shows, done, lim);
    MidwayCollected(op, bs, agent, lim);
    if |op.cells| == op.capacity {
      FollowFailure(w, k, op, CapacityExceeded, done, agent, lim);
    } else {
      FollowWalkLoop(Put(w, k, Collected(op, cell)), k, bs[1..], true, shows, done, agent, lim);
    }
  }

  lemma {:induction false} ShownFollows(op: Op, cell: Cell, agent: Agent)
    ensures Follows(op, agent) <==> Follows(Shown(op, cell), agent)
  {
    hide Members, Canonical, Under;
  }

  lemma {:induction false} FollowShown(w: World, k: nat, bs: seq<Binding>, any: bool, shows: seq<Show>, done: seq<Act>,
                                       agent: Agent, lim: Limits)
    requires k < |w.ops| && SortedMib(agent.mib) && FollowsLog(w.completions, k, agent) && Midway(w.ops[k], agent, bs)
    requires bs != [] && w.ops[k].streaming && VisitBinding(w.ops[k], bs[0], lim).Deliver?
    ensures Abides(WalkLoop(w, k, bs, any, shows, done, lim), k, agent)
    decreases |bs|, 0
  {
    var op, cell, show := w.ops[k], VisitBinding(w.ops[k], bs[0], lim).cell, FirstShow(shows);
    MidwayWaits(op, agent, bs);
    hide Midway, Follows, SortedMib, FinishOp, WalkLoop, VisitBinding, RunActs, Advanced;
    WalkLoopShown(w, k, bs, any, shows, done, lim);
    MidwayShown(op, bs, agent, lim);
    var w0 := Put(w, k, Shown(op, cell));
    FollowActs(w0, show.acts, k, agent, lim);
    var w1 := RunActs(w0, show.acts, lim);
    if !show.accept {
      FollowFailure(w1, k, w1.ops[k], CapacityExceeded, done, agent, lim);
    } else if w1.ops[k].Pending() && w1.ops[k].id == op.id {
      assert w1.ops[k] == Shown(op, cell);
      FollowWalkLoop(Put(w1, k, Advanced(w1.ops[k], cell)), k, bs[1..], true, LaterShows(shows), done, agent, lim);
    }
  }

  lemma {:induction false} MidwayWaits(op: Op, agent: Agent, bs: seq<Binding>)
    requires Midway(op, agent, bs)
    ensures Waits(op)
  {}

  /** Work on another operation touches the walk through user code only. */
  lemma {:induction false} FollowOtherLoop(w: World, j: nat, bs: seq<Binding>, any: bool, shows: seq<Show>,
                                           done: seq<Act>,
                                           k: nat, agent: Agent, lim: Limits)
    requires j < |w.ops| && k < |w.ops| && j != k && SortedMib(agent.mib) && Abides(w, k, agent)
    ensures Abides(WalkLoop(w, j, bs, any, shows, done, lim), k, agent)
    decreases |bs|
  {
    var op := w.ops[j];
    hide Follows, SortedMib, FinishOp, WalkLoop, VisitBinding, WalkEnd, RunActs;
    WalkLoopOver(w, j, bs, any, shows, done, lim);
    if bs == [] {
      FollowOtherResolve(w, j, WalkEnd(op, any), done, k, agent, lim);
    } else {
      match VisitBinding(op, bs[0], lim)
      case Stop(outcome) =>
        FollowFinish(w, j, op, outcome, done, k, agent, lim);
      case Deliver(cell) =>
        if op.streaming {
          WalkLoopShown(w, j, bs, any, shows, done, lim);
          var show := FirstShow(shows);
          var w0 := Put(w, j, Shown(op, cell));
          FollowActs(w0, show.acts, k, agent, lim);
          var w1 := RunActs(w0, show.acts, lim);
          FollowFinish(w1, j, w1.ops[j], CapacityExceeded, done, k, agent, lim);
          FollowOtherLoop(Put(w1, j, Advanced(w1.ops[j], cell)), j, bs[1..], true, LaterShows(shows), done, k, agent,
                          lim);
        } else {
          WalkLoopCollected(w, j, bs, any, shows, done, lim);
          FollowFinish(w, j, op, CapacityExceeded, done, k, agent, lim);
          FollowOtherLoop(Put(w, j, Collected(op, cell)), j, bs[1..], true, shows, done, k, agent, lim);
        }
    }
  }

  lemma {:induction false} FollowOtherResolve(w: World, j: nat, s: Step, done: seq<Act>, k: nat, agent: Agent,
                                              lim: Limits)
    requires j < |w.ops| && k < |w.ops| && j != k && SortedMib(agent.mib) && Abides(w, k, agent)
    ensures Abides(Resolve(w, j, s, done, lim), k, agent)
  {
    hide Follows, SortedMib, FinishOp;
    if s.Finish? {
      FollowFinish(w, j, s.op, s.outcome, done, k, agent, lim);
    }
  }

  /** The answer is honest for the request that the operation has in flight. */
  ghost predicate HonestFor(op: Op, m: Message, agent: Agent) {
    && (m.errorStatus == 0 ==> Successors(agent, Rank(agent.mib, op.cursor), m.bindings))
    && (m.errorStatus == 2 && op.dev.version == 0 ==> Rank(agent.mib, op.cursor) == |agent.mib|)
  }

  /** Two states of an operation that agree on everything a walk has achieved. */
  predicate SameWalk(a: Op, b: Op) {
    && b.walking == a.walking && b.root == a.root && b.cursor == a.cursor
    && b.delivered == a.delivered && b.status == a.status && b.settled == a.settled && b.replies == a.replies
  }

  lemma {:induction false} SameWalkFollows(a: Op, b: Op, agent: Agent)
    requires Follows(a, agent) && SameWalk(a, b)
    ensures Follows(b, agent)
  {
    hide Members, Canonical, Under, Rank;
  }

  lemma {:induction false} NotedFollows(op: Op, m: Message, agent: Agent)
    requires Follows(op, agent) && HonestFor(op, m, agent) && op.Pending()
    ensures Follows(Noted(op, m), agent)
  {
    hide Members, Canonical, Under, Rank;
    assert Abreast(op, agent) ==> Abreast(Noted(op, m), agent);
    hide Abreast;
  }

  /** Error replies: only v1 noSuchName ends a walk with success, and an honest agent means the end by it. */
  lemma {:induction false} HeadFollows(op: Op, m: Message, agent: Agent)
    requires op.walking && op.Pending() && Waits(op) && !op.settled && Follows(op, agent) && SortedMib(agent.mib)
    requires HonestFor(op, m, agent)
    ensures match ReplyHead(op, m)
            case Finish(o, outcome) => outcome != Status.Pending && Follows(Finished(o, outcome), agent)
            case Continue(o) => Follows(o, agent)
            case Bindings(o) => Midway(o, agent, m.bindings)
  {
    hide Follows, SortedMib, Successors, Rank, Finished, Under, Rooted;
    var noted := Noted(op, m);
    NotedFollows(op, m, agent);
    FollowsRoot(noted, agent);
    NotedWaits(op, m);
    HeadForm(op, m);
    hide Noted, ReplyHead, Waits;
    var s := ReplyHead(op, m);
    if s.Finish? {
      if s.outcome == Success {
        EndFollows(noted, agent, Rank(agent.mib, op.cursor));
      } else {
        FailedFollows(noted, s.outcome, agent);
      }
    } else {
      SameWalkFollows(noted, s.op, agent);
    }
  }

  lemma {:induction false} NotedWaits(op: Op, m: Message)
    ensures var noted := Noted(op, m);
            && Waits(noted) == Waits(op) && noted.walking == op.walking && noted.settled == op.settled
            && noted.cursor == op.cursor && noted.Pending() == op.Pending() && noted.dev == op.dev
  {}

  /** What an error status does to a walk. */
  lemma {:induction false} HeadForm(op: Op, m: Message)
    requires op.walking
    ensures var s, noted := ReplyHead(op, m), Noted(op, m);
            match s
            case Finish(o, outcome) =>
              && o == noted && outcome != Status.Pending
              && (outcome == Success ==> m.errorStatus == 2 && op.dev.version == 0)
            case Continue(o) => SameWalk(noted, o)
            case Bindings(o) => o == noted && m.errorStatus == 0
  {}

  lemma {:induction false} FollowReply(w: World, k: nat, m: Message, env: ReplyEnv, agent: Agent, lim: Limits)
    requires k < |w.ops| && w.ops[k].walking && Waits(w.ops[k]) && !w.ops[k].settled
    requires Abides(w, k, agent) && SortedMib(agent.mib) && HonestFor(w.ops[k], m, agent)
    ensures Abides(Reply(w, k, m, env, lim), k, agent)
  {
    HeadFollows(w.ops[k], m, agent);
    HeadWalks(w.ops[k], m);
    hide Follows, SortedMib, HonestFor, ReplyHead, FinishOp, WalkLoop, Midway, Finished;
    match ReplyHead(w.ops[k], m)
    case Finish(o, outcome) => FollowFinish(w, k, o, outcome, env.done, k, agent, lim);
    case Continue(o) =>
    case Bindings(o) => FollowWalkLoop(Put(w, k, o), k, m.bindings, false, env.shows, env.done, agent, lim);
  }

  lemma {:induction false} HeadWalks(op: Op, m: Message)
    requires op.walking
    ensures ReplyHead(op, m).op.walking
  {}

  lemma {:induction false} FollowOtherReply(w: World, j: nat, m: Message, env: ReplyEnv, k: nat, agent: Agent,
                                            lim: Limits)
    requires j < |w.ops| && k < |w.ops| && j != k && SortedMib(agent.mib) && Abides(w, k, agent) && Repliable(w.ops[j])
    ensures Abides(Reply(w, j, m, env, lim), k, agent)
  {
    HeadRepliable(w.ops[j], m);
    hide Follows, SortedMib, ReplyHead, Resolve, WalkLoop, Commit;
    var s := ReplyHead(w.ops[j], m);
    if !s.Bindings? {
      FollowOtherResolve(w, j, s, env.done, k, agent, lim);
    } else if s.op.walking {
      FollowOtherLoop(Put(w, j, s.op), j, m.bindings, false, env.shows, env.done, k, agent, lim);
    } else {
      FollowOtherResolve(w, j, Commit(s.op, m, lim), env.done, k, agent, lim);
    }
  }

  lemma {:induction false} HeadRepliable(op: Op, m: Message)
    requires Repliable(op)
    ensures ReplyHead(op, m).Bindings? ==> Repliable(ReplyHead(op, m).op)
  {}

  /**
   * Whatever the network does, a packet that walk k takes is an honest answer to some datagram that was sent
   * under the same ID. It may be late, repeated or reordered; other packets are unrestricted.
   */
  ghost predicate HonestPacket(w: World, p: Packet, k: nat, agent: Agent)
    requires k < |w.ops|
  {
    Matches(w.ops[k], p.m, p.peer, p.port) ==>
      exists i :: 0 <= i < |w.wire| && w.wire[i].id == p.m.id && HonestReply(agent, w.wire[i], p.m)
  }

  lemma {:induction false} FollowReceive(w: World, p: Packet, env: ReplyEnv, k: nat, agent: Agent, lim: Limits)
    requires Inv(w, lim) && AllReady(w) && k < |w.ops| && SortedMib(agent.mib) && Abides(w, k, agent)
    requires w.ops[k].walking && HonestPacket(w, p, k, agent)
    ensures Abides(Receive(w, p, env, lim), k, agent)
  {
    InvSlots(w, lim);
    InvOp(w, k, lim);
    assert w.ops[k].settled ==> !w.ops[k].Pending();
    hide Inv, AllReady, OpInv, Follows, SortedMib, Reply, Matches, HonestPacket, HonestFor, SlotsOk, Repliable;
    var j := FindMatch(w, 0, p.m, p.peer, p.port);
    if j < |w.slots| && Repliable(w.ops[w.slots[j]]) {
      if w.slots[j] == k {
        OccupiedPending(w, j);
        HonestMatch(w, p, k, agent, lim);
        FollowReply(w, k, p.m, env, agent, lim);
      } else {
        FollowOtherReply(w, w.slots[j], p.m, env, k, agent, lim);
      }
    }
  }

  /** The datagram that the agent answered is the one in flight. */
  lemma {:induction false} HonestMatch(w: World, p: Packet, k: nat, agent: Agent, lim: Limits)
    requires Inv(w, lim) && AllReady(w) && k < |w.ops| && w.ops[k].Pending()
    requires Matches(w.ops[k], p.m, p.peer, p.port) && HonestPacket(w, p, k, agent)
    ensures Waits(w.ops[k]) && HonestFor(w.ops[k], p.m, agent)
  {
    hide Inv, AllReady, HonestReply, HonestFor, Repliable;
    MatchedFields(w.ops[k], p);
    SlotExpects(w, k, lim);
    var i :| 0 <= i < |w.wire| && w.wire[i].id == p.m.id && HonestReply(agent, w.wire[i], p.m);
    Flying(w, k, i, lim);
    HonestInFlight(w.ops[k], w.wire[i], p.m, agent);
  }

  lemma {:induction false} MatchedFields(op: Op, p: Packet)
    requires Matches(op, p.m, p.peer, p.port)
    ensures op.sent && op.id == p.m.id
  {}

  lemma {:induction false} HonestInFlight(op: Op, e: Sent, m: Message, agent: Agent)
    requires HonestReply(agent, e, m) && e.cursor == op.cursor && e.version == op.dev.version
    ensures HonestFor(op, m, agent)
  {}
}
