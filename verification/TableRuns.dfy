/**
 * Runs in which a table drives its walk: the walk's completion handler is the table's own, its streaming callback makes
 * no calls, and nobody else starts or configures it. Over every such run the log is one that a table has made.
 */
module TableRuns {
  import opened Bytes
  import opened Oids
  import opened Messages
  import opened Values
  import opened Operations
  import opened Engine
  import opened EngineLaws
  import opened StepLaws
  import opened RunLaws
  import opened Runs
  import opened Consequences
  import opened Joins
  import opened Table
  import opened TableWalks
  import opened TableHistory

  /** A table that reads with walk k, and the length of the log when it started. */
  datatype Reader = Reader(cols: seq<Column>, width: nat, k: nat, from: nat)

  // ----- the table's user code -----

  /** Where the table stands, by the completions of its walk. */
  function Stage(t: Reader, w: World): Progress {
    if t.from <= |w.completions| && 0 < |t.cols| <= t.width then
      Replayed(t.cols, t.width, Own(w.completions[t.from..], t.k))
    else Stopped
  }

  /** The calls of the table's completion handler: the next walk if there is one. */
  function Script(t: Reader, w: World): seq<Act> {
    var p := Stage(t, w);
    if p.Walking? && 0 < |p.runs| <= |t.cols| then Restart(t.k, OpenRoot(t.cols, p.runs)) else []
  }

  /** Calls by others: they may cancel the table's walk, which ends the table, but not start or configure it. */
  predicate ActRespects(act: Act, k: nat)
    decreases act, 0
  {
    match act
    case Start(j) => j != k
    case Configure(j, _) => j != k
    case AddName(_, _, _, _) => true
    case Cancel(j, done) => if j == k then done == [] else Respects(done, k)
  }

  predicate Respects(acts: seq<Act>, k: nat)
    decreases acts, 0
  {
    acts == [] || (ActRespects(acts[0], k) && Respects(acts[1..], k))
  }

  /** The handler that runs when operation j has been released. */
  predicate DoneBy(t: Reader, released: World, j: nat, done: seq<Act>) {
    if j == t.k then done == Script(t, released) else Respects(done, t.k)
  }

  predicate ResolveBy(t: Reader, w: World, j: nat, s: Step, done: seq<Act>)
    requires j < |w.ops|
  {
    s.Finish? ==> DoneBy(t, Release(w, j, s.op, s.outcome), j, done)
  }

  predicate WalkBy(t: Reader, w: World, j: nat, bs: seq<Binding>, any: bool, shows: seq<Show>, done: seq<Act>,
                   lim: Limits)
    requires j < |w.ops|
    decreases |bs|
  {
    var op := w.ops[j];
    if bs == [] then ResolveBy(t, w, j, WalkEnd(op, any), done)
    else
      match VisitBinding(op, bs[0], lim)
      case Stop(outcome) => DoneBy(t, Release(w, j, op, outcome), j, done)
      case Deliver(cell) =>
        if op.streaming then
          var show := FirstShow(shows);
          var w1 := RunActs(Put(w, j, Shown(op, cell)), show.acts, lim);
          && (if j == t.k then show.acts == [] else Respects(show.acts, t.k))
          && (if !show.accept then DoneBy(t, Release(w1, j, w1.ops[j], CapacityExceeded), j, done)
              else if !w1.ops[j].Pending() || w1.ops[j].id != op.id then true
              else WalkBy(t, Put(w1, j, Advanced(w1.ops[j], cell)), j, bs[1..], true, LaterShows(shows), done, lim))
        else if |op.cells| == op.capacity then DoneBy(t, Release(w, j, op, CapacityExceeded), j, done)
        else WalkBy(t, Put(w, j, Collected(op, cell)), j, bs[1..], true, shows, done, lim)
  }

  predicate ReplyBy(t: Reader, w: World, j: nat, m: Message, env: ReplyEnv, lim: Limits)
    requires j < |w.ops| && Repliable(w.ops[j])
  {
    var s := ReplyHead(w.ops[j], m);
    if !s.Bindings? then ResolveBy(t, w, j, s, env.done)
    else if s.op.walking then WalkBy(t, Put(w, j, s.op), j, m.bindings, false, env.shows, env.done, lim)
    else ResolveBy(t, w, j, Commit(s.op, m, lim), env.done)
  }

  predicate ReceiveBy(t: Reader, w: World, p: Packet, env: ReplyEnv, lim: Limits) {
    var i := FindMatch(w, 0, p.m, p.peer, p.port);
    i == |w.slots| || !Repliable(w.ops[w.slots[i]]) || ReplyBy(t, w, w.slots[i], p.m, env, lim)
  }

  predicate SendBy(t: Reader, w: World, j: nat, op: Op, now: nat, env: SlotEnv, lim: Limits)
    requires j < |w.ops|
  {
    if !CanSend(op, lim) || (!op.sent && w.nextId >= MAX_ID) then
      DoneBy(t, Release(w, j, op.(batch := Packed(op, lim)), CapacityExceeded), j, env.done)
    else
      !env.transport ==>
        DoneBy(t, Release(Logged(w, j, op, now, lim), j, Transmitting(op, w.nextId, lim), TransportError), j, env.done)
  }

  predicate TickBy(t: Reader, w: World, j: nat, now: nat, env: SlotEnv, lim: Limits)
    requires j < |w.ops|
  {
    match TickOp(w.ops[j], now % TWO32)
    case Expire(op) => DoneBy(t, Release(w, j, op, Timeout), j, env.done)
    case Keep(_) => true
    case Send(op) => SendBy(t, w, j, Stamped(op, now), now, env, lim)
  }

  predicate SlotsBy(t: Reader, w: World, i: nat, now: nat, envs: seq<SlotEnv>, lim: Limits)
    requires i <= |w.slots|
    decreases |w.slots| - i
  {
    i < |w.slots| ==>
      && (0 <= w.slots[i] < |w.ops| ==> TickBy(t, w, w.slots[i], now, EnvAt(envs, i), lim))
      && SlotsBy(t, VisitSlot(w, i, now, EnvAt(envs, i), lim), i + 1, now, envs, lim)
  }

  /** All user code of an event is as it should be. */
  predicate NextBy(t: Reader, w: World, e: Event, lim: Limits) {
    match e
    case Loop(now, incoming, reply, envs) =>
      w.begun ==>
        var w1 := if incoming.Some? then Receive(w, incoming.value, reply, lim) else w;
        && (incoming.Some? ==> ReceiveBy(t, w, incoming.value, reply, lim))
        && SlotsBy(t, w1, 0, now, envs, lim)
    case User(acts) => Respects(acts, t.k)
  }

  // ----- what such user code keeps -----

  /** The walk's runs were made below the roots that the table asked for, and the one under way is too. */
  ghost predicate Following(t: Reader, w: World) {
    && 0 < |t.cols| <= t.width && t.from <= |w.completions| && t.k < |w.ops|
    && Driven(t.cols, t.width, Own(w.completions[t.from..], t.k))
    && w.ops[t.k].walking && w.ops[t.k].capacity > 0
    && (w.ops[t.k].Pending() ==> Stage(t, w).Walking? && w.ops[t.k].root == OpenRoot(t.cols, Stage(t, w).runs))
  }

  /** The fields of the walk that the table depends on. */
  predicate SameTable(a: Op, b: Op) {
    b.walking == a.walking && b.capacity == a.capacity && b.root == a.root && b.status == a.status
  }

  lemma {:induction false} PutOther(t: Reader, w: World, j: nat, op: Op)
    requires Following(t, w) && j < |w.ops| && j != t.k
    ensures Following(t, Put(w, j, op))
  {}

  lemma {:induction false} PutOwn(t: Reader, w: World, op: Op)
    requires Following(t, w) && SameTable(w.ops[t.k], op)
    ensures Following(t, Put(w, t.k, op))
  {}

  lemma {:induction false} OwnSnoc(log: seq<Completion>, c: Completion, from: nat, k: nat)
    requires from <= |log|
    ensures Own((log + [c])[from..], k) == if c.op == k then Own(log[from..], k) + [c] else Own(log[from..], k)
  {
    var tail := log[from..];
    assert (log + [c])[from..] == tail + [c];
    assert (tail + [c])[..|tail|] == tail;
  }

  lemma {:induction false} ReleaseOther(t: Reader, w: World, j: nat, op: Op, outcome: Status)
    requires Following(t, w) && j < |w.ops| && j != t.k
    ensures Following(t, Release(w, j, op, outcome))
  {
    hide Finished, Own, Replayed, Driven;
    OwnSnoc(w.completions, Completion(j, Finished(op, outcome)), t.from, t.k);
  }

  lemma {:induction false} DrivenSnoc(cols: seq<Column>, width: nat, own: seq<Completion>, c: Completion)
    requires 0 < |cols| <= width && Driven(cols, width, own)
    requires var p := Replayed(cols, width, own);
             p.Walking? ==> c.state.walking && c.state.settled && c.state.root == OpenRoot(cols, p.runs)
    ensures Driven(cols, width, own + [c])
  {
    hide Replayed;
    var more := own + [c];
    forall i | 0 <= i < |more|
      ensures DrivenAt(cols, width, more, i)
    {
      if i < |own| {
        assert DrivenAt(cols, width, own, i);
        assert more[..i] == own[..i] && more[i] == own[i];
      } else {
        assert more[..i] == own;
      }
    }
  }

  lemma {:induction false} ReleaseOwn(t: Reader, w: World, op: Op, outcome: Status)
    requires Following(t, w) && SameTable(w.ops[t.k], op) && w.ops[t.k].Pending() && outcome != Status.Pending
    ensures var r := Release(w, t.k, op, outcome); Following(t, r) && !r.ops[t.k].Pending()
  {
    EndTerms(op, outcome);
    hide Finished, Own, Replayed, Driven;
    var c := Completion(t.k, Finished(op, outcome));
    OwnSnoc(w.completions, c, t.from, t.k);
    DrivenSnoc(t.cols, t.width, Own(w.completions[t.from..], t.k), c);
  }

  lemma {:induction false} EndTerms(op: Op, outcome: Status)
    ensures var r := Finished(op, outcome);
            && r.walking == op.walking && r.capacity == op.capacity && r.root == op.root && r.status == outcome
            && (op.Pending() ==> r.settled)
  {
    hide SettleAll;
  }

  // ----- the table's handler -----

  /** The root that the table asks for next is one that it has kept. */
  lemma {:induction false} NextRootKept(t: Reader, w: World, lim: Limits)
    requires Following(t, w) && KeptColumns(t.cols, lim) && Stage(t, w).Walking?
    ensures 0 < |Stage(t, w).runs| <= |t.cols|
    ensures var root := OpenRoot(t.cols, Stage(t, w).runs); Canonical(root) && |root| < lim.oidText
  {
    hide Replayed, Own, Driven, Canonical;
    var own := Own(w.completions[t.from..], t.k);
    forall i | 0 <= i < |own|
      ensures own[i] in own && own[i].op == t.k
    {
      OwnIsLogged(w.completions[t.from..], t.k, i);
    }
    ReplaySound(t.cols, t.width, own, own, t.k);
    OpenRootKept(t.cols, t.width, Stage(t, w).runs, own, t.k, lim);
  }

  lemma {:induction false} OpenRootKept(cols: seq<Column>, width: nat, runs: seq<ColumnRun>, log: seq<Completion>,
                                        k: nat, lim: Limits)
    requires Underway(cols, width, runs, log, k) && KeptColumns(cols, lim)
    ensures 0 < |runs| <= |cols|
    ensures Canonical(OpenRoot(cols, runs)) && |OpenRoot(cols, runs)| < lim.oidText
  {
    hide Canonical, Join, ColumnsLogged, WalkLogged, RulesUpTo, WalksOk;
  }

  /** The handler gives the walk the next root and starts it; whatever the start answers, the table is followed. */
  lemma {:induction false} ScriptFollows(t: Reader, w: World, lim: Limits)
    requires Following(t, w) && KeptColumns(t.cols, lim) && !w.ops[t.k].Pending()
    ensures Following(t, RunActs(w, Script(t, w), lim))
  {
    hide Replayed, Own, Driven, Canonical, SetRoot, Engine.Schedule, Restart, RunActs, KeptColumns;
    if Stage(t, w).Walking? {
      NextRootKept(t, w, lim);
      var root := OpenRoot(t.cols, Stage(t, w).runs);
      KeptAsIs(root, lim);
      RootAccepted(w.ops[t.k], root, lim);
      RestartIs(w, t.k, root, lim);
      var rooted := Put(w, t.k, SetRoot(w.ops[t.k], root, lim).1);
      ScheduleFollows(t, rooted, w);
    } else {
      NothingDone(w, lim);
    }
  }

  lemma {:induction false} NothingDone(w: World, lim: Limits)
    ensures RunActs(w, [], lim) == w
  {}

  lemma {:induction false} ScheduleFollows(t: Reader, rooted: World, w: World)
    requires Following(t, w) && Stage(t, w).Walking? && rooted.completions == w.completions && |rooted.ops| == |w.ops|
    requires rooted.ops[t.k].walking && rooted.ops[t.k].capacity > 0 && !rooted.ops[t.k].Pending()
    requires rooted.ops[t.k].root == OpenRoot(t.cols, Stage(t, w).runs)
    ensures Following(t, Engine.Schedule(rooted, t.k).1)
  {
    hide Replayed, Own, Driven, Admission, FreeSlot;
  }

  // ----- others' calls -----

  lemma {:induction false} ActFollows(t: Reader, w: World, act: Act, lim: Limits)
    requires Following(t, w) && ActRespects(act, t.k)
    ensures Following(t, RunAct(w, act, lim))
    decreases act, 0
  {
    hide Following, SetRoot, Add, Scheduled, Admission, FreeSlot, Release, RunActs;
    FollowingTerms(t, w);
    match act
    case Start(j) =>
      if j < |w.ops| {
        PutOther(t, w, j, Scheduled(w.ops[j]));
        SlotsFollow(t, Put(w, j, Scheduled(w.ops[j])), Engine.Schedule(w, j).1.slots);
      }
    case Cancel(j, done) =>
      if j < |w.ops| && w.ops[j].Pending() {
        if j == t.k {
          SameTableSelf(w.ops[j]);
          ReleaseOwn(t, w, w.ops[j], Cancelled);
          NothingDone(Release(w, j, w.ops[j], Cancelled), lim);
        } else {
          ReleaseOther(t, w, j, w.ops[j], Cancelled);
          ActsFollow(t, Release(w, j, w.ops[j], Cancelled), done, lim);
        }
      }
    case Configure(j, root) =>
      if j < |w.ops| {
        PutOther(t, w, j, SetRoot(w.ops[j], root, lim).1);
      }
    case AddName(j, name, expected, value) =>
      if j < |w.ops| && j != t.k {
        PutOther(t, w, j, Add(w.ops[j], name, expected, value, lim).1);
      }
  }

  lemma {:induction false} FollowingTerms(t: Reader, w: World)
    requires Following(t, w)
    ensures t.k < |w.ops| && w.ops[t.k].walking
  {}

  lemma {:induction false} SameTableSelf(op: Op)
    ensures SameTable(op, op)
  {}

  lemma {:induction false} SlotsFollow(t: Reader, w: World, slots: seq<int>)
    requires Following(t, w)
    ensures Following(t, w.(slots := slots))
  {
    hide Replayed, Own, Driven;
  }

  lemma {:induction false} ActsFollow(t: Reader, w: World, acts: seq<Act>, lim: Limits)
    requires Following(t, w) && Respects(acts, t.k)
    ensures Following(t, RunActs(w, acts, lim))
    decreases acts, 0
  {
    hide Following, RunAct, ActRespects;
    if acts != [] {
      ActFollows(t, w, acts[0], lim);
      ActsFollow(t, RunAct(w, acts[0], lim), acts[1..], lim);
    }
  }

  /** The end of any run: the table's walk by the table, another operation by its own user. */
  lemma {:induction false} FinishFollows(t: Reader, w: World, j: nat, op: Op, outcome: Status, done: seq<Act>,
                                         lim: Limits)
    requires Following(t, w) && KeptColumns(t.cols, lim) && j < |w.ops|
    requires DoneBy(t, Release(w, j, op, outcome), j, done)
    requires j == t.k ==> SameTable(w.ops[j], op) && w.ops[j].Pending() && outcome != Status.Pending
    ensures Following(t, FinishOp(w, j, op, outcome, done, lim))
  {
    hide Following, RunActs, Release, Script, KeptColumns, SameTable;
    if j == t.k {
      ReleaseOwn(t, w, op, outcome);
      ScriptFollows(t, Release(w, j, op, outcome), lim);
    } else {
      ReleaseOther(t, w, j, op, outcome);
      ActsFollow(t, Release(w, j, op, outcome), done, lim);
    }
  }

  lemma {:induction false} PutFollows(t: Reader, w: World, j: nat, op: Op)
    requires Following(t, w) && j < |w.ops| && (j == t.k ==> SameTable(w.ops[j], op))
    ensures Following(t, Put(w, j, op))
  {
    hide Following, SameTable, Put;
    if j == t.k {
      PutOwn(t, w, op);
    } else {
      PutOther(t, w, j, op);
    }
  }

  lemma {:induction false} ResolveFollows(t: Reader, w: World, j: nat, s: Step, done: seq<Act>, lim: Limits)
    requires Following(t, w) && KeptColumns(t.cols, lim) && j < |w.ops| && ResolveBy(t, w, j, s, done)
    requires j == t.k ==> SameTable(w.ops[j], s.op) && w.ops[j].Pending() && (s.Finish? ==> s.outcome != Status.Pending)
    ensures Following(t, Resolve(w, j, s, done, lim))
  {
    hide Following, FinishOp, DoneBy, KeptColumns, SameTable, Put;
    match s
    case Finish(op, outcome) => FinishFollows(t, w, j, op, outcome, done, lim);
    case Continue(op) => PutFollows(t, w, j, op);
    case Bindings(op) => PutFollows(t, w, j, op);
  }

  // ----- replies -----

  lemma {:induction false} WalkEndTable(op: Op, any: bool)
    ensures SameTable(op, WalkEnd(op, any).op)
    ensures (WalkEnd(op, any).Finish? ==> WalkEnd(op, any).outcome != Status.Pending)
  {}

  lemma {:induction false} TakenTable(op: Op, cell: Cell)
    ensures SameTable(op, Shown(op, cell)) && SameTable(op, Advanced(op, cell)) && SameTable(op, Collected(op, cell))
    ensures Shown(op, cell).Pending() == Advanced(op, cell).Pending() == Collected(op, cell).Pending() == op.Pending()
  {}

  lemma {:induction false} WalkFollows(t: Reader, w: World, j: nat, bs: seq<Binding>, any: bool, shows: seq<Show>,
                                       done: seq<Act>,
                                       lim: Limits)
    requires Following(t, w) && KeptColumns(t.cols, lim) && j < |w.ops| && WalkBy(t, w, j, bs, any, shows, done, lim)
    requires j == t.k ==> w.ops[j].Pending()
    ensures Following(t, WalkLoop(w, j, bs, any, shows, done, lim))
    decreases |bs|, 1
  {
    var op := w.ops[j];
    hide Following, FinishOp, DoneBy, KeptColumns, SameTable, Put, VisitBinding, WalkEnd, Resolve, WalkLoop, WalkBy,
      ResolveBy;
    WalkLoopOver(w, j, bs, any, shows, done, lim);
    WalkByIs(t, w, j, bs, any, shows, done, lim);
    SameTableSelf(op);
    if bs == [] {
      WalkEndTable(op, any);
      ResolveFollows(t, w, j, WalkEnd(op, any), done, lim);
    } else if VisitBinding(op, bs[0], lim).Stop? {
      StopOutcome(op, bs[0], lim);
      FinishFollows(t, w, j, op, VisitBinding(op, bs[0], lim).outcome, done, lim);
    } else if op.streaming {
      StreamFollows(t, w, j, bs, any, shows, done, lim);
    } else {
      CollectFollows(t, w, j, bs, any, shows, done, lim);
    }
  }

  lemma {:induction false} WalkByIs(t: Reader, w: World, j: nat, bs: seq<Binding>, any: bool, shows: seq<Show>,
                                    done: seq<Act>,
                                    lim: Limits)
    requires j < |w.ops| && WalkBy(t, w, j, bs, any, shows, done, lim)
    ensures bs == [] ==> ResolveBy(t, w, j, WalkEnd(w.ops[j], any), done)
    ensures bs != [] && VisitBinding(w.ops[j], bs[0], lim).Stop? ==>
              DoneBy(t, Release(w, j, w.ops[j], VisitBinding(w.ops[j], bs[0], lim).outcome), j, done)
  {
    hide VisitBinding, DoneBy, ResolveBy, RunActs, Release;
  }

  lemma {:induction false} CollectFollows(t: Reader, w: World, j: nat, bs: seq<Binding>, any: bool, shows: seq<Show>,
                                          done: seq<Act>, lim: Limits)
    requires Following(t, w) && KeptColumns(t.cols, lim) && j < |w.ops| && WalkBy(t, w, j, bs, any, shows, done, lim)
    requires bs != [] && !w.ops[j].streaming && VisitBinding(w.ops[j], bs[0], lim).Deliver?
    requires (j == t.k ==> w.ops[j].Pending())
    ensures Following(t, WalkLoop(w, j, bs, any, shows, done, lim))
    decreases |bs|, 0
  {
    var op, cell := w.ops[j], VisitBinding(w.ops[j], bs[0], lim).cell;
    hide Following, FinishOp, DoneBy, KeptColumns, SameTable, VisitBinding, WalkLoop, Release, Collected, Shown,
      Advanced, RunActs;
    WalkLoopCollected(w, j, bs, any, shows, done, lim);
    TakenTable(op, cell);
    SameTableSelf(op);
    if |op.cells| == op.capacity {
      FinishFollows(t, w, j, op, CapacityExceeded, done, lim);
    } else {
      PutFollows(t, w, j, Collected(op, cell));
      WalkFollows(t, Put(w, j, Collected(op, cell)), j, bs[1..], true, shows, done, lim);
    }
  }

  /** The callback's calls: none for the table's walk. */
  lemma {:induction false} ShowFollows(t: Reader, w: World, j: nat, cell: Cell, acts: seq<Act>, lim: Limits)
    requires Following(t, w) && j < |w.ops| && (if j == t.k then acts == [] else Respects(acts, t.k))
    ensures var w0 := Put(w, j, Shown(w.ops[j], cell));
            var w1 := RunActs(w0, acts, lim);
            Following(t, w1) && (j == t.k ==> w1.ops[j] == Shown(w.ops[j], cell))
  {
    hide Following, SameTable, Respects, RunAct, Shown;
    TakenTable(w.ops[j], cell);
    var w0 := Put(w, j, Shown(w.ops[j], cell));
    PutFollows(t, w, j, Shown(w.ops[j], cell));
    if j != t.k {
      hide RunActs;
      ActsFollow(t, w0, acts, lim);
    }
  }

  lemma {:induction false} StreamFollows(t: Reader, w: World, j: nat, bs: seq<Binding>, any: bool, shows: seq<Show>,
                                         done: seq<Act>, lim: Limits)
    requires Following(t, w) && KeptColumns(t.cols, lim) && j < |w.ops| && WalkBy(t, w, j, bs, any, shows, done, lim)
    requires bs != [] && w.ops[j].streaming && VisitBinding(w.ops[j], bs[0], lim).Deliver?
    requires (j == t.k ==> w.ops[j].Pending())
    ensures Following(t, WalkLoop(w, j, bs, any, shows, done, lim))
    decreases |bs|, 0
  {
    var op, cell, show := w.ops[j], VisitBinding(w.ops[j], bs[0], lim).cell, FirstShow(shows);
    hide Following, FinishOp, DoneBy, KeptColumns, SameTable, VisitBinding, WalkLoop, Release, Collected, Shown,
      Advanced, RunActs,
      Respects;
    WalkLoopShown(w, j, bs, any, shows, done, lim);
    TakenTable(op, cell);
    ShowFollows(t, w, j, cell, show.acts, lim);
    var w1 := RunActs(Put(w, j, Shown(op, cell)), show.acts, lim);
    SameTableSelf(w1.ops[j]);
    TakenTable(w1.ops[j], cell);
    if !show.accept {
      FinishFollows(t, w1, j, w1.ops[j], CapacityExceeded, done, lim);
    } else if w1.ops[j].Pending() && w1.ops[j].id == op.id {
      PutFollows(t, w1, j, Advanced(w1.ops[j], cell));
      WalkFollows(t, Put(w1, j, Advanced(w1.ops[j], cell)), j, bs[1..], true, LaterShows(shows), done, lim);
    }
  }

  lemma {:induction false} HeadTable(op: Op, m: Message)
    requires op.walking
    ensures var s := ReplyHead(op, m); SameTable(op, s.op) && (s.Finish? ==> s.outcome != Status.Pending)
  {}

  lemma {:induction false} ReplyFollows(t: Reader, w: World, j: nat, m: Message, env: ReplyEnv, lim: Limits)
    requires Following(t, w) && KeptColumns(t.cols, lim) && j < |w.ops| && Repliable(w.ops[j])
    requires ReplyBy(t, w, j, m, env, lim)
    requires j == t.k ==> w.ops[j].Pending()
    ensures Following(t, Reply(w, j, m, env, lim))
  {
    FollowingTerms(t, w);
    hide Following, KeptColumns, SameTable, ReplyHead, Resolve, ResolveBy, WalkLoop, WalkBy, Commit, Repliable;
    var s := ReplyHead(w.ops[j], m);
    if j == t.k {
      HeadTable(w.ops[j], m);
      SameTableTerms(w.ops[j], s.op);
    }
    if !s.Bindings? {
      ResolveFollows(t, w, j, s, env.done, lim);
    } else if s.op.walking {
      PutFollows(t, w, j, s.op);
      WalkFollows(t, Put(w, j, s.op), j, m.bindings, false, env.shows, env.done, lim);
    } else {
      ResolveFollows(t, w, j, Commit(s.op, m, lim), env.done, lim);
    }
  }

  lemma {:induction false} SameTableTerms(a: Op, b: Op)
    requires SameTable(a, b)
    ensures b.walking == a.walking && b.Pending() == a.Pending()
  {}

  lemma {:induction false} ReceiveFollows(t: Reader, w: World, p: Packet, env: ReplyEnv, lim: Limits)
    requires Following(t, w) && KeptColumns(t.cols, lim) && SlotsOk(w) && ReceiveBy(t, w, p, env, lim)
    ensures Following(t, Receive(w, p, env, lim))
  {
    hide Following, KeptColumns, Reply, ReplyBy, Repliable, SlotsOk, Matches;
    var i := FindMatch(w, 0, p.m, p.peer, p.port);
    if i < |w.slots| && Repliable(w.ops[w.slots[i]]) {
      OccupiedPending(w, i);
      ReplyFollows(t, w, w.slots[i], p.m, env, lim);
    }
  }

  // ----- the clock -----

  /** The table depends on its walk and on the log alone. */
  lemma {:induction false} SameFollows(t: Reader, w: World, r: World)
    requires Following(t, w) && r.ops == w.ops && r.completions == w.completions
    ensures Following(t, r)
  {
    hide Replayed, Own, Driven;
  }

  lemma {:induction false} SendTable(op: Op, nextId: nat, now: uint32, lim: Limits)
    ensures var tx := Transmitting(op, nextId, lim);
            && SameTable(op, op.(batch := Packed(op, lim))) && SameTable(op, tx) && SameTable(op, Transmitted(tx, now))
  {
    hide Packed;
  }

  lemma {:induction false} SameTableTransitive(a: Op, b: Op, c: Op)
    requires SameTable(a, b) && SameTable(b, c)
    ensures SameTable(a, c)
  {}

  lemma {:induction false} SendFollows(t: Reader, w: World, j: nat, op: Op, now: nat, env: SlotEnv, lim: Limits)
    requires Following(t, w) && KeptColumns(t.cols, lim) && j < |w.ops| && SendBy(t, w, j, op, now, env, lim)
    requires j == t.k ==> SameTable(w.ops[j], op) && w.ops[j].Pending()
    ensures Following(t, SendOp(w, j, op, now, env, lim))
  {
    hide Following, KeptColumns, SameTable, CanSend, Packed, Transmitting, Transmitted, FinishOp, SendOp, DoneBy, Put,
      Release, Entry;
    SendOpIs(w, j, op, now, env, lim);
    var packed, tx, w1 := op.(batch := Packed(op, lim)), Transmitting(op, w.nextId, lim), Logged(w, j, op, now, lim);
    if j == t.k {
      SendTable(op, w.nextId, now % TWO32, lim);
      SameTableTransitive(w.ops[j], op, packed);
      SameTableTransitive(w.ops[j], op, tx);
      SameTableTransitive(w.ops[j], op, Transmitted(tx, now % TWO32));
    }
    SameFollows(t, w, w1);
    if !CanSend(op, lim) || (!op.sent && w.nextId >= MAX_ID) {
      FinishFollows(t, w, j, packed, CapacityExceeded, env.done, lim);
    } else if !env.transport {
      FinishFollows(t, w1, j, tx, TransportError, env.done, lim);
    } else {
      PutFollows(t, w1, j, Transmitted(tx, now % TWO32));
    }
  }

  lemma {:induction false} TickTable(op: Op, now: nat)
    ensures var o := TickOp(op, now % TWO32).op; SameTable(op, o) && SameTable(op, Stamped(o, now))
  {
    TickForm(op, now % TWO32);
    hide TickOp;
  }

  lemma {:induction false} TickFollows(t: Reader, w: World, j: nat, now: nat, env: SlotEnv, lim: Limits)
    requires Following(t, w) && KeptColumns(t.cols, lim) && j < |w.ops| && w.ops[j].Pending()
    requires TickBy(t, w, j, now, env, lim)
    ensures Following(t, TickSlot(w, j, now, env, lim))
  {
    hide Following, KeptColumns, SameTable, TickOp, FinishOp, SendOp, SendBy, DoneBy, Put, Release;
    TickTable(w.ops[j], now);
    match TickOp(w.ops[j], now % TWO32)
    case Expire(op) => FinishFollows(t, w, j, op, Timeout, env.done, lim);
    case Keep(op) => PutFollows(t, w, j, op);
    case Send(op) => SendFollows(t, w, j, Stamped(op, now), now, env, lim);
  }

  lemma {:induction false} SlotsFollowed(t: Reader, w: World, i: nat, now: nat, envs: seq<SlotEnv>, lim: Limits)
    requires Inv(w, lim) && AllReady(w) && Following(t, w) && KeptColumns(t.cols, lim)
    requires i <= |w.slots| && SlotsBy(t, w, i, now, envs, lim)
    ensures Following(t, TickSlots(w, i, now, envs, lim))
    decreases |w.slots| - i
  {
    hide Inv, AllReady, Grown, TickSlot, TickBy, SlotsOk, Following, KeptColumns;
    InvSlots(w, lim);
    if i < |w.slots| {
      if w.slots[i] != FREE {
        OccupiedPending(w, i);
        TickFollows(t, w, w.slots[i], now, EnvAt(envs, i), lim);
      }
      VisitSlotKeeps(w, i, now, EnvAt(envs, i), lim);
      SlotsFollowed(t, VisitSlot(w, i, now, EnvAt(envs, i), lim), i + 1, now, envs, lim);
    }
  }

  // ----- runs -----

  lemma {:induction false} NextFollows(t: Reader, w: World, e: Event, lim: Limits)
    requires Inv(w, lim) && AllReady(w) && ParsedEvent(e, lim) && Following(t, w) && KeptColumns(t.cols, lim)
    requires NextBy(t, w, e, lim)
    ensures Following(t, Next(w, e, lim))
  {
    hide Inv, AllReady, Sendable, Receive, ReceiveBy, SlotsBy, TickSlots, Tame, Following, KeptColumns, SlotsOk,
      Respects, RunActs;
    InvSlots(w, lim);
    match e
    case Loop(now, incoming, reply, envs) =>
      if w.begun {
        var w1 := w;
        if incoming.Some? {
          ReceiveKeeps(w, incoming.value, reply, lim);
          ReceiveFollows(t, w, incoming.value, reply, lim);
          w1 := Receive(w, incoming.value, reply, lim);
        }
        SlotsFollowed(t, w1, 0, now, envs, lim);
        SameFollows(t, TickSlots(w1, 0, now, envs, lim), TickSlots(w1, 0, now, envs, lim).(clock := now));
      }
    case User(acts) => ActsFollow(t, w, acts, lim);
  }

  /** Every event from a state on has the table's user code. */
  ghost predicate Conducted(t: Reader, w: World, es: seq<Event>, lim: Limits) {
    forall i :: 0 <= i < |es| ==> NextBy(t, Run(w, es[..i], lim), es[i], lim)
  }

  lemma {:induction false} ConductedFollows(t: Reader, w: World, es: seq<Event>, lim: Limits)
    requires Inv(w, lim) && AllReady(w) && ParsedEvents(es, lim) && Following(t, w) && KeptColumns(t.cols, lim)
    requires Conducted(t, w, es, lim)
    ensures Following(t, Run(w, es, lim))
    decreases |es|
  {
    hide Inv, AllReady, Following, KeptColumns, NextBy, Next, ParsedEvent, Grown;
    if es != [] {
      var before, last := es[..|es| - 1], es[|es| - 1];
      assert forall i :: 0 <= i < |before| ==> before[i] == es[i] && before[..i] == es[..i];
      ConductedFollows(t, w, before, lim);
      RunKeeps(w, before, lim);
      NextFollows(t, Run(w, before, lim), last, lim);
    }
  }

  /** The table's own start, on an idle walk: whatever it answers, the table is followed. */
  lemma {:induction false} StartFollows(t: Reader, w: World, lim: Limits)
    requires KeptColumns(t.cols, lim) && 0 < |t.cols| <= t.width && t.from == |w.completions| && t.k < |w.ops|
    requires w.ops[t.k].walking && w.ops[t.k].capacity > 0 && !w.ops[t.k].Pending()
    ensures Following(t, RunActs(w, Restart(t.k, t.cols[0].oid), lim))
  {
    hide KeptColumns, RunActs;
    assert w.completions[t.from..] == [];
    assert Following(t, w);
    assert Script(t, w) == Restart(t.k, t.cols[0].oid);
    hide Following;
    ScriptFollows(t, w, lim);
  }

  lemma {:induction false} RunOn(w: World, a: seq<Event>, b: seq<Event>, lim: Limits)
    ensures Run(w, a + b, lim) == Run(Run(w, a, lim), b, lim)
    decreases |b|
  {
    hide Next;
    if b == [] {
      assert a + b == a;
    } else {
      var front, last := b[..|b| - 1], b[|b| - 1];
      assert (a + b)[..|a + b| - 1] == a + front && (a + b)[|a + b| - 1] == last;
      RunOn(w, a, front, lim);
    }
  }

  /**
   * A run with a table in it: anything before, the start of the table on its idle walk, and the table's user code
   * after.
   */
  ghost predicate TableRun(t: Reader, w: World, before: seq<Event>, after: seq<Event>, lim: Limits) {
    && KeptColumns(t.cols, lim) && 0 < |t.cols| <= t.width
    && var q := Run(w, before, lim);
    && t.from == |q.completions| && t.k < |q.ops|
    && q.ops[t.k].walking && q.ops[t.k].capacity > 0 && !q.ops[t.k].Pending()
    && Conducted(t, RunActs(q, Restart(t.k, t.cols[0].oid), lim), after, lim)
  }

  function TableEvents(t: Reader, before: seq<Event>, after: seq<Event>): seq<Event>
    requires t.cols != []
  {
    before + [User(Restart(t.k, t.cols[0].oid))] + after
  }

  /**
   * Over every such run the walk is driven by the table: each of its runs is made below the root that the table reads
   * next.
   */
  lemma {:induction false} TableDrives(t: Reader, w: World, before: seq<Event>, after: seq<Event>, lim: Limits)
    requires Initial(w, lim) && ParsedEvents(before, lim) && ParsedEvents(after, lim)
    requires TableRun(t, w, before, after, lim)
    ensures Following(t, Run(w, TableEvents(t, before, after), lim))
  {
    hide Initial, Inv, AllReady, Following, KeptColumns, Run, Calm, ParsedEvents, Restart, Conducted, RunActs, Next,
      Grown;
    var q := Run(w, before, lim);
    var acts := Restart(t.k, t.cols[0].oid);
    Reachable(w, before, lim);
    StartFollows(t, q, lim);
    StepKeepsInv(q, User(acts), lim);
    UserStep(q, acts, lim);
    ConductedFollows(t, RunActs(q, acts, lim), after, lim);
    RunOn(w, before, [User(acts)], lim);
    RunOn(w, before + [User(acts)], after, lim);
  }

  lemma {:induction false} UserStep(w: World, acts: seq<Act>, lim: Limits)
    ensures Next(w, User(acts), lim) == RunActs(w, acts, lim) && Run(w, [User(acts)], lim) == RunActs(w, acts, lim)
  {
    hide RunActs;
    assert [User(acts)][..0] == [];
  }
}
