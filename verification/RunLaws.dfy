/** Receiving, sending and the clock; then whole runs of the client. */
module RunLaws {
  import opened Bytes
  import opened Oids
  import opened Trees
  import opened Messages
  import opened Values
  import opened Packing
  import opened Operations
  import opened OperationLaws
  import opened ReplyLaws
  import opened Engine
  import opened EngineLaws
  import opened StepLaws

  // ----- receiving -----

  lemma {:induction false} MessageNames(m: Message, lim: Limits)
    requires Sendable(m, lim)
    ensures NamedBindings(m.bindings, lim)
  {}

  /** A sent pending operation can always take its reply. */
  lemma {:induction false} MatchedIsRepliable(op: Op, lim: Limits)
    requires OpInv(op, lim) && op.Pending() && op.sent
    ensures Repliable(op) && Waits(op)
  {
    BatchFacts(op, lim);
  }

  lemma {:induction false} NotedFacts(op: Op, m: Message)
    requires op.Pending()
    ensures var o := Noted(op, m);
            && Evolves(op, o) && SameRun(op, o) && o.answered && o.sent == op.sent
            && o.showing == op.showing && o.walking == op.walking && o.Pending()
            && o.replies == op.replies + [m]
  {
    SameCellsKept(op, Noted(op, m));
  }

  lemma {:induction false} ReplyKeeps(w: World, k: nat, m: Message, env: ReplyEnv, lim: Limits)
    requires Inv(w, lim) && k < |w.ops| && AllReady(w) && w.ops[k].Pending() && w.ops[k].sent && Repliable(w.ops[k])
    requires Sendable(m, lim)
    ensures var r := Reply(w, k, m, env, lim); Inv(r, lim) && Tame(w, r) && AllReady(r) && !Expects(r.ops[k])
  {
    var op := w.ops[k];
    InvOp(w, k, lim);
    AllReadyBut(w, k);
    hide Inv, Tame, Evolves, OpInv, AllReady, ReadyBut, ReplyHead, WalkLoop, Resolve, Sendable, Commit, Finishing,
      Repliable;
    MatchedIsRepliable(op, lim);
    ReplyHeadKeeps(op, m, lim);
    ReplyHeadEvolves(op, m);
    var s := ReplyHead(op, m);
    if !s.Bindings? {
      StepShowing(op, m);
      ResolveKeeps(w, k, s, env.done, lim);
    } else if s.op.walking {
      WalkReplyKeeps(w, k, m, env, lim);
    } else {
      BatchReplyKeeps(w, k, m, env, lim);
    }
  }

  lemma {:induction false} AllReadyBut(w: World, k: nat)
    requires AllReady(w) && k < |w.ops|
    ensures ReadyBut(w, k) && Ready(w.ops[k])
  {}

  /** A reply whose bindings extend a walk. */
  lemma {:induction false} WalkReplyKeeps(w: World, k: nat, m: Message, env: ReplyEnv, lim: Limits)
    requires Inv(w, lim) && k < |w.ops| && ReadyBut(w, k) && Ready(w.ops[k]) && Expects(w.ops[k]) && w.ops[k].walking
    requires Sendable(m, lim) && OpInv(Noted(w.ops[k], m), lim) && m.errorStatus == 0
    ensures var r := WalkLoop(Put(w, k, Noted(w.ops[k], m)), k, m.bindings, false, env.shows, env.done, lim);
            Inv(r, lim) && Tame(w, r) && AllReady(r) && !Expects(r.ops[k])
  {
    hide Inv, Tame, Evolves, OpInv, AllReady, ReadyBut, WalkLoop, Sendable, AllOffered;
    var op, noted := w.ops[k], Noted(w.ops[k], m);
    NotedFacts(op, m);
    PutAnswered(w, k, noted, lim);
    var w1 := Put(w, k, noted);
    MessageNames(m, lim);
    LastOffered(noted.replies);
    WalkLoopKeeps(w1, k, m.bindings, false, env.shows, env.done, lim);
    var r := WalkLoop(w1, k, m.bindings, false, env.shows, env.done, lim);
    TameTransitive(w, w1, r);
    AnsweredOnce(w1, r, k);
  }

  /** A reply whose bindings are a batch. */
  lemma {:induction false} BatchReplyKeeps(w: World, k: nat, m: Message, env: ReplyEnv, lim: Limits)
    requires Inv(w, lim) && k < |w.ops| && ReadyBut(w, k) && Expects(w.ops[k]) && !w.ops[k].walking
    requires OpInv(Noted(w.ops[k], m), lim) && Repliable(Noted(w.ops[k], m))
    ensures var r := Resolve(w, k, Commit(Noted(w.ops[k], m), m, lim), env.done, lim);
            Inv(r, lim) && Tame(w, r) && AllReady(r) && !Expects(r.ops[k])
  {
    hide Inv, Tame, Evolves, OpInv, AllReady, ReadyBut, Resolve, Commit, Finishing;
    var op, noted := w.ops[k], Noted(w.ops[k], m);
    NotedFacts(op, m);
    CommitKeeps(noted, m, lim);
    CommitEvolves(noted, m, lim);
    EvolvesTransitive(op, noted, Commit(noted, m, lim).op);
    ResolveKeeps(w, k, Commit(noted, m, lim), env.done, lim);
  }

  lemma {:induction false} AnsweredOnce(w: World, r: World, k: nat)
    requires Tame(w, r) && AllReady(r) && k < |w.ops| && w.ops[k].answered
    ensures !Expects(r.ops[k])
  {
    hide Evolves;
    assert Timely(w.ops[k], r.ops[k]) && Ready(r.ops[k]);
  }

  lemma {:induction false} StepShowing(op: Op, m: Message)
    requires op.walking || op.offset < |op.cells|
    ensures ReplyHead(op, m).op.showing == op.showing
  {}

  lemma {:induction false} MatchSent(op: Op, p: Packet)
    requires Matches(op, p.m, p.peer, p.port)
    ensures op.sent
  {}

  lemma {:induction false} ReceiveKeeps(w: World, p: Packet, env: ReplyEnv, lim: Limits)
    requires Inv(w, lim) && AllReady(w) && Sendable(p.m, lim)
    ensures var r := Receive(w, p, env, lim); Inv(r, lim) && Tame(w, r) && AllReady(r)
  {
    hide Reply, Sendable, Inv, AllReady, Tame, SlotsOk, Repliable, Calm, Matches, FindMatch;
    InvSlots(w, lim);
    var j := FindMatch(w, 0, p.m, p.peer, p.port);
    CalmSame(w);
    CalmIsTame(w, w);
    if j < |w.slots| && Repliable(w.ops[w.slots[j]]) {
      OccupiedPending(w, j);
      MatchSent(w.ops[w.slots[j]], p);
      ReplyKeeps(w, w.slots[j], p.m, env, lim);
    }
  }

  // ----- sending -----

  /** Two views of an operation that describe the same request. */
  ghost predicate SameDatagram(a: Op, b: Op) {
    && a.dev == b.dev && a.walking == b.walking && a.mode == b.mode && a.cells == b.cells && a.cursor == b.cursor
    && a.offset == b.offset && a.batchLimit == b.batchLimit && a.batch == b.batch && a.id == b.id
    && a.run == b.run && a.first == b.first
  }

  lemma {:induction false} SameDatagramEntry(a: Op, b: Op, k: nat, t: nat, u: nat, lim: Limits)
    requires SameDatagram(a, b)
    ensures Packed(a, lim) == Packed(b, lim)
    ensures SameRequest(Entry(k, a, t, lim), Entry(k, b, u, lim))
  {
    hide Packed, Datagram, Body, BindingOctets;
    PackedIgnores(a, b, lim);
    assert RequestBody(a, lim) == RequestBody(b, lim);
    hide RequestBody;
  }

  lemma {:induction false} PackedIgnores(a: Op, b: Op, lim: Limits)
    requires a.dev == b.dev && a.walking == b.walking && a.mode == b.mode && a.cells == b.cells
    requires a.cursor == b.cursor && a.offset == b.offset && a.batchLimit == b.batchLimit
    ensures Packed(a, lim) == Packed(b, lim)
  {}

  /** The world right after a transmission has been logged. */
  function Logged(w: World, k: nat, op: Op, t: nat, lim: Limits): World {
    var tx := Transmitting(op, w.nextId, lim);
    w.(nextId := if op.sent then w.nextId else w.nextId + 1, wire := w.wire + [Entry(k, tx, t, lim)])
  }

  /** What `send` is handed: the slot's operation with its bookkeeping for this attempt. */
  ghost predicate Handed(w: World, k: nat, op: Op, lim: Limits)
    requires k < |w.ops|
  {
    && w.ops[k].Pending() && Ready(w.ops[k]) && ToSend(op, lim) && Ready(op)
    && op.id == w.ops[k].id && op.sent == w.ops[k].sent && op.answered == w.ops[k].answered
    && Evolves(w.ops[k], op) && op.run == w.ops[k].run && op.walking == w.ops[k].walking
    && (op.sent ==> SameDatagram(w.ops[k], op) && op.id != 0)
  }

  lemma {:induction false} SameRequestTransitive(a: Sent, b: Sent, c: Sent)
    requires SameRequest(a, b) && SameRequest(b, c)
    ensures SameRequest(a, c) && SameRequest(b, a)
  {}

  /** A repetition is byte for byte the datagram already on the wire under that ID; a new request has a new ID. */
  lemma {:induction false} RepeatedEntry(w: World, k: nat, op: Op, t: nat, lim: Limits)
    requires Inv(w, lim) && k < |w.ops| && Handed(w, k, op, lim)
    ensures var e := Entry(k, Transmitting(op, w.nextId, lim), t, lim);
            && (op.sent ==> e.id == op.id && op.batch == Packed(op, lim)
                            && SameRequest(e, Entry(k, w.ops[k], 0, lim)))
            && (!op.sent ==> e.id == w.nextId + 1)
            && forall i :: 0 <= i < |w.wire| && w.wire[i].id == e.id ==> SameRequest(w.wire[i], e)
  {
    var tx := Transmitting(op, w.nextId, lim);
    var e := Entry(k, tx, t, lim);
    if op.sent {
      assert w.ops[k].batch == Packed(w.ops[k], lim);
      PackedIgnores(w.ops[k], op, lim);
      SameDatagramEntry(w.ops[k], tx, k, 0, t, lim);
      SameDatagramEntry(tx, w.ops[k], k, t, 0, lim);
      hide OpInv, Packed, RequestOctets, Entry, Handed, SameRequest;
      forall i | 0 <= i < |w.wire| && w.wire[i].id == e.id
        ensures SameRequest(w.wire[i], e)
      {
        assert WireMatch(w.ops[k], k, w.wire[i], lim);
        SameRequestTransitive(w.wire[i], Entry(k, w.ops[k], 0, lim), e);
      }
    }
  }

  lemma {:induction false} LoggedTerms(w: World, k: nat, op: Op, t: nat, lim: Limits)
    ensures var tx, r := Transmitting(op, w.nextId, lim), Logged(w, k, op, t, lim);
            && Entry(k, tx, t, lim).id == tx.id == (if op.sent then op.id else w.nextId + 1)
            && r == w.(nextId := r.nextId, wire := w.wire + [Entry(k, tx, t, lim)])
            && r.nextId == if op.sent then w.nextId else w.nextId + 1
  {
    hide Packed, RequestOctets;
  }

  lemma {:induction false} HandedTerms(w: World, k: nat, op: Op, lim: Limits)
    requires k < |w.ops| && Handed(w, k, op, lim)
    ensures op.id == w.ops[k].id && op.sent == w.ops[k].sent && w.ops[k].Pending()
    ensures op.sent ==> op.id != 0 && !w.ops[k].answered
  {
    hide ToSend, Evolves;
  }

  /** A request in flight is on the wire under its ID. */
  lemma {:induction false} FlightLogged(w: World, k: nat, lim: Limits)
    requires Inv(w, lim) && k < |w.ops| && w.ops[k].Pending() && w.ops[k].sent && !w.ops[k].answered
    ensures w.ops[k].batch == Packed(w.ops[k], lim) && OnWire(w.wire, w.ops[k].id)
  {
    hide OpInv, Packed, NewOrRepeat, SameRequest, InFlight, SlotsOk, IdsOk;
  }

  /** IDs already on the wire do not exceed the counter. */
  lemma {:induction false} WireIds(w: World, id: nat, lim: Limits)
    requires Inv(w, lim) && OnWire(w.wire, id)
    ensures id <= w.nextId
  {
    hide OpInv, Packed, NewOrRepeat, SameRequest, WireMatch, SlotsOk, IdsOk;
  }

  lemma {:induction false} LoggedIds(w: World, r: World, k: nat, id: nat, repeated: bool)
    requires IdsOk(w) && k < |w.ops| && r.ops == w.ops && (repeated || w.nextId < MAX_ID)
    requires r.nextId == if repeated then w.nextId else w.nextId + 1
    requires id == if repeated then w.ops[k].id else w.nextId + 1
    ensures IdsOk(r) && IdFits(r, k, id)
  {}

  lemma {:induction false} LoggedKeeps(w: World, k: nat, op: Op, t: nat, lim: Limits)
    requires Inv(w, lim) && k < |w.ops| && Handed(w, k, op, lim) && (op.sent || w.nextId < MAX_ID)
    ensures Inv(Logged(w, k, op, t, lim), lim)
    ensures IdFits(Logged(w, k, op, t, lim), k, Transmitting(op, w.nextId, lim).id)
  {
    hide OpInv, Packed, Entry, Handed, SameRequest, Transmitting, Logged, IdFits, IdsOk, WireOk, OnWire, CompletionsOk;
    RepeatedEntry(w, k, op, t, lim);
    LoggedTerms(w, k, op, t, lim);
    HandedTerms(w, k, op, lim);
    var r, e := Logged(w, k, op, t, lim), Entry(k, Transmitting(op, w.nextId, lim), t, lim);
    LoggedIds(w, r, k, e.id, op.sent);
    if op.sent {
      FlightLogged(w, k, lim);
    } else if OnWire(w.wire, e.id) {
      WireIds(w, e.id, lim);
    }
    LoggedWire(w, r, k, e, op.sent, lim);
  }

  lemma {:induction false} StillNewOrRepeat(wire: seq<Sent>, e: Sent, i: nat)
    requires i < |wire| && NewOrRepeat(wire, i)
    ensures NewOrRepeat(wire + [e], i)
  {
    hide SameRequest;
    var more := wire + [e];
    assert forall j :: 0 <= j <= i ==> more[j] == wire[j];
    if exists j :: 0 <= j < i && SameRequest(wire[j], wire[i]) {
      var j :| 0 <= j < i && SameRequest(wire[j], wire[i]);
      assert SameRequest(more[j], more[i]);
    }
  }

  lemma {:induction false} LastNewOrRepeat(wire: seq<Sent>, e: Sent, nextId: nat)
    requires forall i :: 0 <= i < |wire| ==> wire[i].id <= nextId
    requires if OnWire(wire, e.id) then forall i :: 0 <= i < |wire| && wire[i].id == e.id ==> SameRequest(wire[i], e)
             else e.id > nextId
    ensures NewOrRepeat(wire + [e], |wire|)
  {
    hide SameRequest;
    var more := wire + [e];
    if OnWire(wire, e.id) {
      var i :| 0 <= i < |wire| && wire[i].id == e.id;
      assert more[i] == wire[i];
    }
  }

  lemma {:induction false} StillOnWire(wire: seq<Sent>, e: Sent, id: nat)
    requires OnWire(wire, id) || e.id == id
    ensures OnWire(wire + [e], id)
  {
    if OnWire(wire, id) {
      var i :| 0 <= i < |wire| && wire[i].id == id;
      assert (wire + [e])[i].id == id;
    } else {
      assert (wire + [e])[|wire|].id == id;
    }
  }

  lemma {:induction false} LoggedWire(w: World, r: World, k: nat, e: Sent, repeated: bool, lim: Limits)
    requires WireOk(w, lim) && IdsOk(w) && k < |w.ops| && r.ops == w.ops && r.wire == w.wire + [e]
    requires r.nextId == if repeated then w.nextId else w.nextId + 1
    requires if repeated then e.id == w.ops[k].id && e.id != 0 && SameRequest(e, Entry(k, w.ops[k], 0, lim))
                              && w.ops[k].batch == Packed(w.ops[k], lim)
             else e.id == w.nextId + 1
    requires forall i :: 0 <= i < |w.wire| && w.wire[i].id == e.id ==> SameRequest(w.wire[i], e)
    requires repeated <==> OnWire(w.wire, e.id)
    ensures WireOk(r, lim)
  {
    hide Packed, RequestOctets, Entry, SameRequest;
    forall i | 0 <= i < |r.wire|
      ensures NewOrRepeat(r.wire, i)
    {
      if i < |w.wire| {
        StillNewOrRepeat(w.wire, e, i);
      } else {
        LastNewOrRepeat(w.wire, e, w.nextId);
      }
    }
    forall id | OnWire(w.wire, id)
      ensures OnWire(r.wire, id)
    {
      StillOnWire(w.wire, e, id);
    }
    hide NewOrRepeat, OnWire;
    forall l, i | 0 <= l < |r.ops| && 0 <= i < |r.wire|
      ensures WireMatch(r.ops[l], l, r.wire[i], lim)
    {
      if i < |w.wire| {
        assert WireMatch(w.ops[l], l, w.wire[i], lim);
      } else if r.ops[l].id == e.id {
        assert repeated && l == k;
      }
    }
  }

  // ----- one slot -----

  /** An operation expects a reply only under an ID it was already waiting for, or under a new one. */
  ghost predicate Renumbered(a: Op, b: Op, nextId: nat) {
    Expects(b) ==> (Expects(a) && b.id == a.id) || b.id > nextId
  }

  /** What one visit may change: it can send, but other waiting operations keep their slots and deadlines. */
  ghost predicate Visited(w: World, r: World, k: nat) {
    && r.nextId >= w.nextId && w.wire <= r.wire && r.clock == w.clock && r.begun == w.begun
    && w.completions <= r.completions
    && SlotsStay(w, r)
    && EvolvesAll(w, r)
    && (k < |w.ops| ==> Renumbered(w.ops[k], r.ops[k], w.nextId))
    && forall l :: 0 <= l < |w.ops| && l != k ==> Timely(w.ops[l], r.ops[l])
  }

  lemma {:induction false} TameVisited(w: World, r: World, k: nat)
    requires Tame(w, r)
    ensures Visited(w, r, k)
  {
    hide Evolves;
    assert k < |w.ops| ==> Timely(w.ops[k], r.ops[k]);
  }

  lemma {:induction false} LoggedVisited(w: World, r: World, k: nat, op: Op, t: nat, lim: Limits)
    requires Tame(Logged(w, k, op, t, lim), r)
    ensures Visited(w, r, k)
  {
    hide Evolves;
    var w1 := Logged(w, k, op, t, lim);
    assert k < |w.ops| ==> Timely(w1.ops[k], r.ops[k]);
  }

  /** The operation whose slot was visited, in time for the next visit. */
  ghost predicate OnTime(op: Op, c: nat) {
    op.walking && Waits(op) ==> op.startedAt == op.first % TWO32 && op.first <= c < op.first + WALK_DEADLINE
  }

  ghost predicate WireOnTime(w: World) {
    forall i :: 0 <= i < |w.wire| && w.wire[i].walking ==>
      w.wire[i].first <= w.wire[i].at < w.wire[i].first + WALK_DEADLINE
  }

  lemma {:induction false} EndSend(w: World, w1: World, k: nat, op: Op, outcome: Status, done: seq<Act>, lim: Limits)
    requires Inv(w1, lim) && k < |w1.ops| && w1.ops == w.ops && AllReady(w)
    requires Finishing(op, outcome, lim) && Evolves(w.ops[k], op) && (op.walking || op.Pending())
    requires IdFits(w1, k, op.id)
    ensures var r := FinishOp(w1, k, op, outcome, done, lim);
            Inv(r, lim) && Tame(w1, r) && AllReady(r) && !Waits(r.ops[k])
  {
    LegalFinish(w.ops[k], op, outcome, lim);
    hide Inv, Evolves, OpInv, Finishing, Ready, IdFits, Calm, Tame, FinishOp, Finished;
    FinishOpKeeps(w1, k, op, outcome, done, lim);
    var r := FinishOp(w1, k, op, outcome, done, lim);
    CalmIsTame(w1, r);
    FinishReleases(w1, k, op, outcome, done, lim);
    assert ReadyBut(w1, -1);
    CalmReady(w1, r, -1, lim);
  }

  lemma {:induction false} TransmittingEvolves(op: Op, nextId: nat, now: uint32, lim: Limits)
    requires op.Pending()
    ensures var tx := Transmitting(op, nextId, lim);
            && Evolves(op, tx) && tx.Pending() && tx.walking == op.walking && tx.first == op.first
            && Evolves(op, op.(batch := Packed(op, lim))) && Evolves(op, Transmitted(tx, now))
            && Ready(Transmitted(tx, now)) == (op.walking ==> op.showing == None)
            && Transmitted(tx, now).startedAt == op.startedAt
            && tx.id == (if op.sent then op.id else nextId + 1)
  {
    hide Packed;
    SameCellsKept(op, op);
    SameCellsKept(op, Transmitting(op, nextId, lim));
    SameCellsKept(op, Transmitted(Transmitting(op, nextId, lim), now));
    SameCellsKept(op, op.(batch := Packed(op, lim)));
    hide CellsKept;
  }

  /** At most one datagram was handed over, at time t, for the given operation. */
  ghost predicate Grew(w: World, r: World, op: Op, t: nat) {
    || r.wire == w.wire
    || (|r.wire| == |w.wire| + 1 && r.wire[..|w.wire|] == w.wire
        && var e := r.wire[|w.wire|]; e.at == t && e.first == op.first && e.walking == op.walking)
  }

  ghost predicate SameStart(a: Op, op: Op) { Waits(a) ==> a.startedAt == op.startedAt && a.first == op.first }

  lemma {:induction false} SendOpKeeps(w: World, k: nat, op: Op, t: nat, env: SlotEnv, lim: Limits)
    requires Inv(w, lim) && AllReady(w) && k < |w.ops| && Handed(w, k, op, lim)
    ensures var r := SendOp(w, k, op, t, env, lim);
            Inv(r, lim) && AllReady(r) && Visited(w, r, k) && SameStart(r.ops[k], op) && Grew(w, r, op, t)
  {
    var now := t % TWO32;
    TransmittingEvolves(op, w.nextId, now, lim);
    assert Evolves(w.ops[k], op) && op.Pending();
    if !CanSend(op, lim) || (!op.sent && w.nextId >= MAX_ID) {
      SendNothing(w, k, op, t, env, lim);
    } else {
      LoggedKeeps(w, k, op, t, lim);
      hide Inv, AllReady, Handed, CanSend, IdFits, Logged, Transmitting, Visited, Grew;
      if env.transport {
        SendAccepted(w, k, op, t, env, lim);
      } else {
        SendRefused(w, k, op, t, env, lim);
      }
    }
  }

  lemma {:induction false} SendOpIs(w: World, k: nat, op: Op, t: nat, env: SlotEnv, lim: Limits)
    requires k < |w.ops|
    ensures var now := t % TWO32;
            var packed := op.(batch := Packed(op, lim));
            var tx, w1 := Transmitting(op, w.nextId, lim), Logged(w, k, op, t, lim);
            && w1.ops == w.ops
            && SendOp(w, k, op, t, env, lim) ==
               if !CanSend(op, lim) || (!op.sent && w.nextId >= MAX_ID) then
                 FinishOp(w, k, packed, CapacityExceeded, env.done, lim)
               else if !env.transport then FinishOp(w1, k, tx, TransportError, env.done, lim)
               else Put(w1, k, Transmitted(tx, now))
  {
    hide Packed, CanSend, FinishOp, Entry;
  }

  lemma {:induction false} HandedFacts(w: World, k: nat, op: Op, lim: Limits)
    requires k < |w.ops| && Handed(w, k, op, lim)
    ensures op.Pending() && op.id == w.ops[k].id && Evolves(w.ops[k], op) && w.ops[k].Pending() && ToSend(op, lim)
    ensures op.walking ==> op.showing == None
  {
    hide Evolves, OpInv, Shape;
  }

  lemma {:induction false} SendNothing(w: World, k: nat, op: Op, t: nat, env: SlotEnv, lim: Limits)
    requires Inv(w, lim) && AllReady(w) && k < |w.ops| && Handed(w, k, op, lim)
    requires !CanSend(op, lim) || (!op.sent && w.nextId >= MAX_ID)
    ensures var r := SendOp(w, k, op, t, env, lim);
            Inv(r, lim) && AllReady(r) && Visited(w, r, k) && SameStart(r.ops[k], op) && Grew(w, r, op, t)
  {
    hide Inv, AllReady, Tame, Evolves, Handed, CanSend, FinishOp, ToSend, Finishing, Packed, IdFits, SendOp,
      Transmitting,
      Logged, Visited, Put, Waits;
    InvFits(w, k, lim);
    SendOpIs(w, k, op, t, env, lim);
    HandedFacts(w, k, op, lim);
    TransmittingEvolves(op, w.nextId, t % TWO32, lim);
    SendFails(op, w.nextId, CapacityExceeded, lim);
    var packed := op.(batch := Packed(op, lim));
    EvolvesTransitive(w.ops[k], op, packed);
    EndSend(w, w, k, packed, CapacityExceeded, env.done, lim);
    var r := FinishOp(w, k, packed, CapacityExceeded, env.done, lim);
    TameVisited(w, r, k);
    TameWire(w, r);
    ReleasedStart(r.ops[k], op);
  }

  lemma {:induction false} ReleasedStart(a: Op, op: Op)
    requires !Waits(a)
    ensures SameStart(a, op)
  {}

  lemma {:induction false} InvFits(w: World, k: nat, lim: Limits)
    requires Inv(w, lim) && k < |w.ops|
    ensures IdFits(w, k, w.ops[k].id)
  {
    hide SlotsOk, OpsOk, WireOk;
    IdsOkFits(w, k);
  }

  lemma {:induction false} TameWire(w: World, r: World)
    requires Tame(w, r)
    ensures r.wire == w.wire
  {}

  lemma {:induction false} LoggedGrew(w: World, r: World, k: nat, op: Op, t: nat, lim: Limits)
    requires r.wire == Logged(w, k, op, t, lim).wire
    ensures Grew(w, r, op, t)
  {
    hide RequestOctets;
  }

  /** The transport refuses the datagram: the operation ends. */
  lemma {:induction false} SendRefused(w: World, k: nat, op: Op, t: nat, env: SlotEnv, lim: Limits)
    requires Inv(w, lim) && AllReady(w) && k < |w.ops| && Handed(w, k, op, lim) && CanSend(op, lim)
    requires (op.sent || w.nextId < MAX_ID) && !env.transport
    requires Inv(Logged(w, k, op, t, lim), lim)
    requires IdFits(Logged(w, k, op, t, lim), k, Transmitting(op, w.nextId, lim).id)
    ensures var r := SendOp(w, k, op, t, env, lim);
            Inv(r, lim) && AllReady(r) && Visited(w, r, k) && SameStart(r.ops[k], op) && Grew(w, r, op, t)
  {
    hide Inv, AllReady, Tame, Evolves, OpInv, Handed, CanSend, FinishOp, ToSend, Finishing, Packed, IdFits,
      Transmitting,
      SendOp, Logged, Visited, Grew;
    var tx, w1 := Transmitting(op, w.nextId, lim), Logged(w, k, op, t, lim);
    SendOpIs(w, k, op, t, env, lim);
    HandedFacts(w, k, op, lim);
    TransmittingEvolves(op, w.nextId, t % TWO32, lim);
    SendFails(op, w.nextId, TransportError, lim);
    EvolvesTransitive(w.ops[k], op, tx);
    EndSend(w, w1, k, tx, TransportError, env.done, lim);
    var r := FinishOp(w1, k, tx, TransportError, env.done, lim);
    LoggedVisited(w, r, k, op, t, lim);
    TameWire(w1, r);
    LoggedGrew(w, r, k, op, t, lim);
  }

  lemma {:induction false} LoggedWorld(w: World, k: nat, op: Op, t: nat, lim: Limits)
    ensures var w1 := Logged(w, k, op, t, lim);
            && w1.ops == w.ops && w1.slots == w.slots && w1.clock == w.clock && w1.begun == w.begun
            && w1.nextId >= w.nextId && w.wire <= w1.wire && w1.completions == w.completions
  {}

  /** The datagram is on its way: the operation waits for its reply. */
  lemma {:induction false} SendAccepted(w: World, k: nat, op: Op, t: nat, env: SlotEnv, lim: Limits)
    requires Inv(w, lim) && AllReady(w) && k < |w.ops| && Handed(w, k, op, lim) && CanSend(op, lim)
    requires (op.sent || w.nextId < MAX_ID) && env.transport
    requires Inv(Logged(w, k, op, t, lim), lim)
    requires IdFits(Logged(w, k, op, t, lim), k, Transmitting(op, w.nextId, lim).id)
    ensures var r := SendOp(w, k, op, t, env, lim);
            Inv(r, lim) && AllReady(r) && Visited(w, r, k) && SameStart(r.ops[k], op) && Grew(w, r, op, t)
  {
    hide Inv, Evolves, OpInv, Handed, CanSend, ToSend, Packed, IdFits, Transmitting, SendOp, Logged, Visited, Grew,
      WireFits,
      FinishOp, Ready;
    var now := t % TWO32;
    var tx, w1 := Transmitting(op, w.nextId, lim), Logged(w, k, op, t, lim);
    var sent := Transmitted(tx, now);
    LoggedWorld(w, k, op, t, lim);
    var r := Put(w1, k, sent);
    SendOpIs(w, k, op, t, env, lim);
    HandedFacts(w, k, op, lim);
    TransmittingEvolves(op, w.nextId, now, lim);
    TransmittedKeeps(op, w.nextId, now, lim);
    EvolvesTransitive(w.ops[k], op, sent);
    SentFits(w, k, op, t, lim);
    LoggedGrew(w, r, k, op, t, lim);
    PutKeeps(w1, k, sent, lim);
    SentRenumbered(w, k, op, t % TWO32, lim);
    PutVisited(w, w1, k, sent);
    SentStart(op, w.nextId, now, lim);
  }

  lemma {:induction false} SentRenumbered(w: World, k: nat, op: Op, now: uint32, lim: Limits)
    requires k < |w.ops| && Handed(w, k, op, lim)
    ensures Renumbered(w.ops[k], Transmitted(Transmitting(op, w.nextId, lim), now), w.nextId)
  {
    hide Packed, Evolves, ToSend;
  }

  lemma {:induction false} SentStart(op: Op, nextId: nat, now: uint32, lim: Limits)
    ensures var s := Transmitted(Transmitting(op, nextId, lim), now); s.startedAt == op.startedAt && s.first == op.first
  {
    hide Packed;
  }

  lemma {:induction false} PutVisited(w: World, w1: World, k: nat, op: Op)
    requires k < |w.ops| && w1.ops == w.ops && w1.slots == w.slots && w1.clock == w.clock && w1.begun == w.begun
    requires w1.completions == w.completions
    requires w1.nextId >= w.nextId && w.wire <= w1.wire && Evolves(w.ops[k], op) && Renumbered(w.ops[k], op, w.nextId)
    ensures Visited(w, Put(w1, k, op), k)
  {
    hide Evolves;
    forall l | 0 <= l < |w.ops|
      ensures Evolves(w.ops[l], Put(w1, k, op).ops[l])
    {
      EvolvesSame(w.ops[l]);
    }
  }

  /** After the transmission every datagram logged under the current ID is the current request. */
  lemma {:induction false} SentFits(w: World, k: nat, op: Op, t: nat, lim: Limits)
    requires Inv(w, lim) && k < |w.ops| && Handed(w, k, op, lim)
    ensures WireFits(Logged(w, k, op, t, lim), k, Transmitted(Transmitting(op, w.nextId, lim), t % TWO32), lim)
  {
    hide Inv, OpInv, Packed, Entry, Handed, SameRequest, Transmitting, Logged, WireMatch, OnWire;
    RepeatedEntry(w, k, op, t, lim);
    LoggedTerms(w, k, op, t, lim);
    SentTerms(op, w.nextId, t % TWO32, k, t, lim);
    var tx := Transmitting(op, w.nextId, lim);
    var sent, e := Transmitted(tx, t % TWO32), Entry(k, tx, t, lim);
    LogFits(w.wire, Logged(w, k, op, t, lim).wire, e, k, sent, lim);
    StillOnWire(w.wire, e, e.id);
  }

  lemma {:induction false} SentTerms(op: Op, nextId: nat, now: uint32, k: nat, t: nat, lim: Limits)
    ensures var tx := Transmitting(op, nextId, lim);
            var sent := Transmitted(tx, now);
            && sent.id == tx.id && sent.batch == Packed(sent, lim)
            && SameRequest(Entry(k, tx, t, lim), Entry(k, sent, 0, lim))
  {
    hide Packed, RequestOctets, Entry, SameRequest;
    var tx := Transmitting(op, nextId, lim);
    var sent := Transmitted(tx, now);
    SameDatagramEntry(tx, sent, k, t, 0, lim);
    PackedIgnores(op, tx, lim);
  }

  lemma {:induction false} LogFits(wire: seq<Sent>, more: seq<Sent>, e: Sent, k: nat, sent: Op, lim: Limits)
    requires more == wire + [e] && sent.id == e.id && sent.batch == Packed(sent, lim)
    requires SameRequest(e, Entry(k, sent, 0, lim))
    requires forall i :: 0 <= i < |wire| && wire[i].id == e.id ==> SameRequest(wire[i], e)
    ensures forall i :: 0 <= i < |more| ==> WireMatch(sent, k, more[i], lim)
  {
    hide Packed, Entry, SameRequest;
    forall i | 0 <= i < |more|
      ensures WireMatch(sent, k, more[i], lim)
    {
      if i < |wire| && wire[i].id == e.id {
        SameRequestTransitive(wire[i], e, Entry(k, sent, 0, lim));
      }
    }
  }

  // ----- one visit -----

  /** The operation that TickOp wants sent, with the time of a first transmission recorded. */
  function Stamped(op: Op, t: nat): Op { if op.id == 0 then op.(first := t) else op }

  lemma {:induction false} TickSends(w: World, k: nat, t: nat, lim: Limits)
    requires Inv(w, lim) && AllReady(w) && k < |w.ops| && w.ops[k].Pending()
    requires TickOp(w.ops[k], t % TWO32).Send?
    ensures Handed(w, k, Stamped(TickOp(w.ops[k], t % TWO32).op, t), lim)
  {
    var op := w.ops[k];
    InvOp(w, k, lim);
    TickKeeps(op, t % TWO32, lim);
    TickRest(op, t % TWO32);
    var o := TickOp(op, t % TWO32).op;
    assert Ready(op);
    hide OpInv, Inv, TickOp, Evolves;
    StampKeeps(op, o, t, lim);
    StampedHanded(w, k, o, t, lim);
  }

  lemma {:induction false} StampedHanded(w: World, k: nat, o: Op, t: nat, lim: Limits)
    requires k < |w.ops| && w.ops[k].Pending() && Ready(w.ops[k])
    requires o == w.ops[k].(attempts := o.attempts, startedAt := o.startedAt)
    requires ToSend(Stamped(o, t), lim) && (Stamped(o, t).sent ==> Stamped(o, t).id != 0)
    ensures Handed(w, k, Stamped(o, t), lim)
  {
    hide ToSend, CellsKept;
    SameCellsKept(w.ops[k], Stamped(o, t));
  }

  /** Counting an attempt or stamping the clock does not touch the rest of the invariant. */
  lemma {:induction false} StampKeeps(op: Op, o: Op, t: nat, lim: Limits)
    requires op.Pending() && OpInv(op, lim)
    requires OpInv(o.(attempts := op.attempts), lim) && o.Pending() && o.sent == op.sent
    requires o == op.(attempts := o.attempts, startedAt := o.startedAt)
    requires if op.sent then o.attempts == op.attempts + 1 <= op.dev.retries && op.mode != SET
             else o.attempts == op.attempts
    ensures ToSend(Stamped(o, t), lim)
    ensures Stamped(o, t).sent ==> Stamped(o, t).id != 0
  {
    hide Shape, SettledUpTo, AllBacked, Chain, NamesOf, Log2, MaxIds, DoneInv;
    SameShape(op, o, lim);
    SameShape(op, Stamped(o, t), lim);
    SameShape(op, Stamped(o, t).(attempts := op.attempts), lim);
    hide TrafficInv, BatchInv, WalkInv;
    if op.id == 0 {
      FirstIgnored(op, o, t, lim);
    }
  }

  lemma {:induction false} SameShape(a: Op, b: Op, lim: Limits)
    requires Shape(a, lim) && a.dev == b.dev && a.walking == b.walking && a.mode == b.mode && a.cells == b.cells
    requires a.root == b.root
    ensures Shape(b, lim)
  {
    hide NamedCells, Canonical;
  }

  lemma {:induction false} FirstIgnored(op: Op, o: Op, t: nat, lim: Limits)
    requires o.Pending() && BusyInv(o.(attempts := op.attempts), lim)
    ensures BusyInv(o.(attempts := op.attempts, first := t), lim)
  {
    hide SettledUpTo, AllBacked, Chain, NamesOf, Log2, MaxIds;
  }

  /** A tick counts an attempt, stamps the first transmission, or asks again under smaller terms. */
  lemma {:induction false} TickForm(op: Op, now: uint32)
    ensures match TickOp(op, now)
            case Expire(o) => o == op
            case Keep(o) => o == op || o == Again(op.(mode := o.mode, batchLimit := o.batchLimit))
            case Send(o) => o == op.(attempts := o.attempts, startedAt := o.startedAt)
  {
    hide Elapsed;
  }

  lemma {:induction false} AgainEvolves(op: Op, mode: byte, limit: nat)
    requires op.Pending()
    ensures var o := Again(op.(mode := mode, batchLimit := limit));
            Evolves(op, o) && SameRun(op, o) && o.showing == op.showing && !o.sent
  {
    SameCellsKept(op, Again(op.(mode := mode, batchLimit := limit)));
    hide CellsKept;
  }

  lemma {:induction false} TickRest(op: Op, now: uint32)
    requires op.Pending()
    ensures match TickOp(op, now)
            case Expire(o) => o == op
            case Keep(o) => o == op || (Evolves(op, o) && SameRun(op, o) && o.showing == op.showing && !o.sent)
            case Send(o) => o == op.(attempts := o.attempts, startedAt := o.startedAt)
  {
    TickForm(op, now);
    hide TickOp, Evolves;
    if TickOp(op, now).Keep? {
      AgainEvolves(op, TickOp(op, now).op.mode, TickOp(op, now).op.batchLimit);
    }
  }

  /** The deadline is tested before anything else, against a start that only a first transmission sets. */
  lemma {:induction false} TickStart(op: Op, now: uint32)
    ensures op.walking && op.id != 0 && !TickOp(op, now).Expire? ==>
              Elapsed(now, op.startedAt) < WALK_DEADLINE && TickOp(op, now).op.startedAt == op.startedAt
              && TickOp(op, now).op.first == op.first
    ensures op.id == 0 && !op.sent ==> TickOp(op, now).Send? && TickOp(op, now).op.startedAt == now
    ensures TickOp(op, now).op.id == op.id && TickOp(op, now).op.walking == op.walking
  {
    hide Elapsed;
  }

  /** One pending operation under the clock. */
  lemma {:induction false} TickSlotKeeps(w: World, k: nat, t: nat, env: SlotEnv, lim: Limits)
    requires Inv(w, lim) && AllReady(w) && k < |w.ops| && w.ops[k].Pending()
    ensures var r := TickSlot(w, k, t, env, lim);
            && Inv(r, lim) && AllReady(r) && Visited(w, r, k)
            && (Grew(w, r, Stamped(TickOp(w.ops[k], t % TWO32).op, t), t)
                && (TickOp(w.ops[k], t % TWO32).Expire? ==> r.wire == w.wire && !Waits(r.ops[k])))
            && SameStart(r.ops[k], Stamped(TickOp(w.ops[k], t % TWO32).op, t))
  {
    hide Inv, AllReady, Evolves, OpInv, Visited, Tame, TickOp, Handed, SendOp, FinishOp, Grew, IdFits, Finishing,
      SameStart,
      SameRun, Waits, Put;
    var op := w.ops[k];
    InvOp(w, k, lim);
    TickKeeps(op, t % TWO32, lim);
    TickRest(op, t % TWO32);
    match TickOp(op, t % TWO32)
    case Expire(_) =>
      ExpireKeeps(w, k, env, lim);
      ExpiredStart(TickSlot(w, k, t, env, lim).ops[k], op, t);
      SameGrew(w, TickSlot(w, k, t, env, lim), Stamped(op, t), t);
    case Keep(o) =>
      KeepSlot(w, k, o, t, lim);
    case Send(o) =>
      TickSends(w, k, t, lim);
      SendOpKeeps(w, k, Stamped(o, t), t, env, lim);
  }

  lemma {:induction false} ExpiredStart(a: Op, op: Op, t: nat)
    requires !Waits(a)
    ensures SameStart(a, Stamped(op, t))
  {}

  lemma {:induction false} SameGrew(w: World, r: World, op: Op, t: nat)
    requires r.wire == w.wire
    ensures Grew(w, r, op, t)
  {}

  lemma {:induction false} KeepSlot(w: World, k: nat, o: Op, t: nat, lim: Limits)
    requires Inv(w, lim) && AllReady(w) && k < |w.ops| && w.ops[k].Pending()
    requires OpInv(o, lim) && o.Pending() && (o == w.ops[k] || !o.sent)
    requires o == w.ops[k] || (Evolves(w.ops[k], o) && SameRun(w.ops[k], o) && o.showing == w.ops[k].showing)
    ensures var r := Put(w, k, o);
            && Inv(r, lim) && AllReady(r) && Visited(w, r, k)
            && Grew(w, r, Stamped(o, t), t) && SameStart(r.ops[k], Stamped(o, t))
  {
    hide Inv, AllReady, Evolves, OpInv, Visited, Tame;
    if o == w.ops[k] {
      assert Put(w, k, o) == w;
      CalmSame(w);
      CalmIsTame(w, w);
      TameVisited(w, w, k);
    } else {
      KeepChanged(w, k, o, lim);
    }
  }

  lemma {:induction false} ExpireKeeps(w: World, k: nat, env: SlotEnv, lim: Limits)
    requires Inv(w, lim) && AllReady(w) && k < |w.ops| && w.ops[k].Pending()
    ensures var r := FinishOp(w, k, w.ops[k], Timeout, env.done, lim);
            Inv(r, lim) && AllReady(r) && Visited(w, r, k) && r.wire == w.wire && !Waits(r.ops[k])
  {
    var op := w.ops[k];
    InvOp(w, k, lim);
    BusyFinishes(op, Timeout, lim);
    EvolvesSame(op);
    assert IdFits(w, k, op.id) by { IdsOkFits(w, k); }
    hide Inv, Evolves, OpInv, Visited, Tame, Ready, FinishOp, IdFits, Finishing;
    EndSend(w, w, k, op, Timeout, env.done, lim);
    var r := FinishOp(w, k, op, Timeout, env.done, lim);
    TameVisited(w, r, k);
    TameWire(w, r);
  }

  lemma {:induction false} KeepChanged(w: World, k: nat, o: Op, lim: Limits)
    requires Inv(w, lim) && AllReady(w) && k < |w.ops| && w.ops[k].Pending()
    requires OpInv(o, lim) && o.Pending() && !o.sent
    requires Evolves(w.ops[k], o) && SameRun(w.ops[k], o) && o.showing == w.ops[k].showing
    ensures var r := Put(w, k, o); Inv(r, lim) && AllReady(r) && Visited(w, r, k)
  {
    assert IdFits(w, k, o.id) by { IdsOkFits(w, k); }
    assert Ready(w.ops[k]) && Ready(o);
    hide Inv, Evolves, OpInv, IdFits, Ready;
    PutKeeps(w, k, o, lim);
    PutVisited(w, w, k, o);
  }

  // ----- the deadline -----

  /** Loop calls closer together than this keep the wrapped clock unambiguous for a pending walk. */
  predicate Gap(c: nat, t: nat) { c <= t && t - c < TWO32 - WALK_DEADLINE }

  lemma {:induction false} WrappedElapsed(first: nat, t: nat)
    requires first <= t < first + TWO32
    ensures Elapsed(t % TWO32, first % TWO32) == t - first
  {
    var q, p := t / TWO32, first / TWO32;
    assert (t % TWO32 - first % TWO32) == (t - first) - (q - p) * TWO32;
    ModShift(t - first, q - p);
  }

  lemma {:induction false} ModShift(x: nat, n: int)
    requires x < TWO32 && 0 <= n <= 1
    ensures (x - n * TWO32) % TWO32 == x
  {}

  /** Operations still to be visited are on time for the previous loop call, the others for this one. */
  ghost predicate DueAfter(w: World, i: nat, c: nat, t: nat)
    requires i <= |w.slots|
  {
    forall k :: 0 <= k < |w.ops| ==> OnTime(w.ops[k], t) || (OnTime(w.ops[k], c) && k in w.slots[i..])
  }

  lemma {:induction false} VisitedDue(w: World, r: World, i: nat, c: nat, t: nat)
    requires i < |w.slots| && DueAfter(w, i, c, t) && 0 <= w.slots[i] < |w.ops| && Visited(w, r, w.slots[i])
    requires OnTime(r.ops[w.slots[i]], t)
    ensures |r.slots| == |w.slots| && DueAfter(r, i + 1, c, t)
  {
    hide Evolves;
    forall k | 0 <= k < |r.ops|
      ensures OnTime(r.ops[k], t) || (OnTime(r.ops[k], c) && k in r.slots[i + 1..])
    {
      if k != w.slots[i] && !OnTime(r.ops[k], t) {
        assert Timely(w.ops[k], r.ops[k]);
        assert Evolves(w.ops[k], r.ops[k]);
        VisitedWalking(w.ops[k], r.ops[k]);
        assert r.ops[k].walking == w.ops[k].walking;
        assert !OnTime(w.ops[k], t);
        var j :| 0 <= j < |w.slots[i..]| && w.slots[i..][j] == k;
        assert w.slots[i + j] == k && j > 0;
        assert r.slots[i + j] == k;
        assert r.slots[i + 1..][j - 1] == k;
      }
    }
  }

  lemma {:induction false} VisitedWalking(a: Op, b: Op)
    requires Evolves(a, b)
    ensures a.walking == b.walking
  {}

  /** A walk that the clock does not expire is inside its deadline, first transmission included. */
  lemma {:induction false} TickDue(op: Op, c: nat, t: nat)
    requires op.Pending() && op.walking && (op.id == 0 ==> !op.sent)
    requires Gap(c, t) && (OnTime(op, c) || OnTime(op, t))
    requires !TickOp(op, t % TWO32).Expire?
    ensures var o := Stamped(TickOp(op, t % TWO32).op, t);
            o.walking && o.startedAt == o.first % TWO32 && o.first <= t < o.first + WALK_DEADLINE
  {
    TickStart(op, t % TWO32);
    hide TickOp, Elapsed;
    if op.id != 0 {
      WrappedElapsed(op.first, t);
    }
  }

  /** Visiting a slot leaves its operation on time for this loop call, or no longer waiting. */
  lemma {:induction false} VisitOnTime(w: World, k: nat, c: nat, t: nat, env: SlotEnv, lim: Limits)
    requires Inv(w, lim) && AllReady(w) && k < |w.ops| && w.ops[k].Pending()
    requires Gap(c, t) && (OnTime(w.ops[k], c) || OnTime(w.ops[k], t))
    ensures var r := TickSlot(w, k, t, env, lim);
            OnTime(r.ops[k], t) && (WireOnTime(w) ==> WireOnTime(r))
  {
    var op, r := w.ops[k], TickSlot(w, k, t, env, lim);
    var o := Stamped(TickOp(op, t % TWO32).op, t);
    InvOp(w, k, lim);
    assert op.id == 0 ==> !op.sent;
    hide Inv, AllReady, OpInv, TickSlot, TickOp, Stamped, Grew, WireOnTime, Visited, Waits, OnTime, SameStart, Gap,
      Elapsed;
    TickSlotKeeps(w, k, t, env, lim);
    VisitedOp(w, r, k);
    TickWalking(op, t);
    if TickOp(op, t % TWO32).Expire? {
      ExpiredOnTime(r.ops[k], t);
      if WireOnTime(w) {
        SameWireOnTime(w, r);
      }
    } else {
      if op.walking {
        TickDue(op, c, t);
      }
      StartedOnTime(r.ops[k], o, t);
      if WireOnTime(w) {
        GrewOnTime(w, r, o, t);
      }
    }
  }

  lemma {:induction false} ExpiredOnTime(a: Op, t: nat)
    requires !Waits(a)
    ensures OnTime(a, t)
  {}

  lemma {:induction false} StartedOnTime(a: Op, o: Op, t: nat)
    requires SameStart(a, o) && a.walking == o.walking
    requires o.walking ==> o.startedAt == o.first % TWO32 && o.first <= t < o.first + WALK_DEADLINE
    ensures OnTime(a, t)
  {}

  lemma {:induction false} TickWalking(op: Op, t: nat)
    ensures Stamped(TickOp(op, t % TWO32).op, t).walking == op.walking
  {}

  lemma {:induction false} SameWireOnTime(w: World, r: World)
    requires WireOnTime(w) && r.wire == w.wire
    ensures WireOnTime(r)
  {}

  lemma {:induction false} VisitedOp(w: World, r: World, k: nat)
    requires Visited(w, r, k) && k < |w.ops|
    ensures r.ops[k].walking == w.ops[k].walking
  {
    assert Evolves(w.ops[k], r.ops[k]);
  }

  lemma {:induction false} GrewOnTime(w: World, r: World, op: Op, t: nat)
    requires Grew(w, r, op, t) && WireOnTime(w)
    requires r.wire != w.wire && op.walking ==> op.first <= t < op.first + WALK_DEADLINE
    ensures WireOnTime(r)
  {
    forall i | 0 <= i < |r.wire| && r.wire[i].walking
      ensures r.wire[i].first <= r.wire[i].at < r.wire[i].first + WALK_DEADLINE
    {
      if i < |w.wire| {
        assert r.wire[i] == r.wire[..|w.wire|][i] || r.wire == w.wire;
      }
    }
  }
}
