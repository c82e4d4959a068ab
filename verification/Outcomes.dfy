/**
 * What one reply does, case by case and in terms of the reply: how a correct answer fills the results of a read, and
 * where each error status takes a read, a write or a walk.
 */
module Outcomes {
  import opened Bytes
  import opened OidOrder
  import opened Trees
  import opened Messages
  import opened Values
  import opened Acceptance
  import opened Operations
  import opened OperationLaws
  import opened ReplyLaws
  import opened Engine
  import opened EngineLaws
  import opened StepLaws
  import opened Correlation

  // ----- what can come of a reply -----

  /** The packet answers the request that the operation has in flight. */
  ghost predicate Addressed(op: Op, p: Packet) {
    && op.status == Status.Pending && op.sent && p.m.id == op.id
    && p.peer == op.dev.address && p.port == op.dev.port
    && p.m.version == op.dev.version + 1 && p.m.community == op.dev.community
  }

  /** The operation with the reply and its error fields on record. */
  ghost function Recorded(op: Op, m: Message): Op {
    op.(agentError := m.errorStatus, agentErrorIndex := m.errorIndex, replies := op.replies + [m], answered := true)
  }

  /** The operation goes on in a given state, and nothing else has changed. */
  ghost predicate GoesOn(w: World, r: World, k: nat, next: Op)
    requires k < |w.ops|
  {
    r == w.(ops := w.ops[k := next])
  }

  /** The operation asks again, under a new request ID. */
  ghost predicate AsksAgain(w: World, r: World, k: nat, next: Op)
    requires k < |w.ops|
  {
    GoesOn(w, r, k, next.(sent := false, attempts := 0))
  }

  /** What a handler finds: the outcome, in the results too where they were still open. */
  ghost predicate ClosedAs(last: Op, seen: Op, outcome: Status) {
    && seen == last.(status := outcome, completed := true, settled := true, cells := seen.cells)
    && |seen.cells| == |last.cells|
    && forall i :: 0 <= i < |last.cells| ==>
         seen.cells[i] == if last.cells[i].status == Status.Pending then last.cells[i].(status := outcome)
                          else last.cells[i]
  }

  /** The operation ends: its completion is logged before anything that its handler does, and nothing is sent. */
  ghost predicate EndsAs(w: World, r: World, k: nat, last: Op, outcome: Status) {
    && r.wire == w.wire && r.nextId == w.nextId
    && |w.completions| < |r.completions| && r.completions[..|w.completions|] == w.completions
    && r.completions[|w.completions|].op == k
    && ClosedAs(last, r.completions[|w.completions|].state, outcome)
  }

  // ----- ends -----

  lemma {:induction false} ActLogs(w: World, act: Act, lim: Limits)
    ensures var r := RunAct(w, act, lim);
            r.wire == w.wire && r.nextId == w.nextId && w.completions <= r.completions
    decreases act, 0
  {
    hide SetRoot, Add, Schedule, Finished, Release;
    match act
    case Start(k) => ScheduleLogs(w, k);
    case Cancel(k, done) =>
      if k < |w.ops| && w.ops[k].Pending() {
        FinishLogs(w, k, w.ops[k], Cancelled, done, lim);
      }
    case Configure(_, _) =>
    case AddName(_, _, _, _) =>
  }

  lemma {:induction false} ScheduleLogs(w: World, k: nat)
    ensures k < |w.ops| ==>
              var r := Schedule(w, k).1;
              r.wire == w.wire && r.nextId == w.nextId && r.completions == w.completions
  {}

  lemma {:induction false} FinishLogs(w: World, k: nat, op: Op, outcome: Status, done: seq<Act>, lim: Limits)
    requires k < |w.ops|
    ensures var r := FinishOp(w, k, op, outcome, done, lim);
            && r.wire == w.wire && r.nextId == w.nextId
            && w.completions + [Completion(k, Finished(op, outcome))] <= r.completions
    decreases done, 1
  {
    hide Finished;
    ActsLog(Release(w, k, op, outcome), done, lim);
  }

  lemma {:induction false} ActsLog(w: World, acts: seq<Act>, lim: Limits)
    ensures var r := RunActs(w, acts, lim);
            r.wire == w.wire && r.nextId == w.nextId && w.completions <= r.completions
    decreases acts, 0
  {
    hide RunAct;
    if acts != [] {
      ActLogs(w, acts[0], lim);
      ActsLog(RunAct(w, acts[0], lim), acts[1..], lim);
    }
  }

  lemma {:induction false} FinishEnds(w: World, k: nat, op: Op, outcome: Status, done: seq<Act>, lim: Limits)
    requires k < |w.ops| && op.Pending()
    ensures EndsAs(w, FinishOp(w, k, op, outcome, done, lim), k, op, outcome)
  {
    hide FinishOp;
    FinishLogs(w, k, op, outcome, done, lim);
    var r := FinishOp(w, k, op, outcome, done, lim);
    var log := w.completions + [Completion(k, Finished(op, outcome))];
    assert r.completions[..|log|] == log;
    assert r.completions[|w.completions|] == log[|w.completions|];
    assert r.completions[..|w.completions|] == log[..|w.completions|];
  }

  /** A packet that answers an operation is given to it, wherever it waits. */
  lemma {:induction false} AddressedIsTaken(w: World, p: Packet, k: nat, env: ReplyEnv, lim: Limits)
    requires Inv(w, lim) && k < |w.ops| && Addressed(w.ops[k], p)
    ensures Expects(w.ops[k]) && Repliable(w.ops[k]) && Matches(w.ops[k], p.m, p.peer, p.port)
    ensures Receive(w, p, env, lim) == Reply(w, k, p.m, env, lim)
    ensures OpInv(w.ops[k], lim)
  {
    InvOp(w, k, lim);
    hide Inv, Repliable, Reply, Receive, OpInv;
    SlotExpects(w, k, lim);
    ReplyFindsItsRequest(w, p, k, env, lim);
  }

  // ----- error replies -----

  /** An error status that the standard does not define, or a negative index. */
  ghost predicate Malformed(m: Message) { !(0 <= m.errorStatus <= 18) || m.errorIndex < 0 }

  lemma {:induction false} ReplyResolves(w: World, k: nat, m: Message, env: ReplyEnv, lim: Limits)
    requires k < |w.ops| && Repliable(w.ops[k]) && !ReplyHead(w.ops[k], m).Bindings?
    ensures Reply(w, k, m, env, lim) ==
            match ReplyHead(w.ops[k], m)
            case Finish(op, outcome) => FinishOp(w, k, op, outcome, env.done, lim)
            case Continue(op) => w.(ops := w.ops[k := op])
            case Bindings(op) => w
  {
    hide ReplyHead, FinishOp;
  }

  /** Malformed error fields end any operation with ProtocolError. */
  lemma {:induction false} MalformedReply(w: World, p: Packet, k: nat, env: ReplyEnv, lim: Limits)
    requires Inv(w, lim) && k < |w.ops| && Addressed(w.ops[k], p) && Malformed(p.m)
    ensures EndsAs(w, Receive(w, p, env, lim), k, Recorded(w.ops[k], p.m), ProtocolError)
  {
    hide Inv, Receive, Reply, FinishOp, OpInv, EndsAs;
    AddressedIsTaken(w, p, k, env, lim);
    ReplyResolves(w, k, p.m, env, lim);
    FinishEnds(w, k, Noted(w.ops[k], p.m), ProtocolError, env.done, lim);
  }

  /** A SET is never asked again: every error ends it. */
  lemma {:induction false} ErrorToWrite(w: World, p: Packet, k: nat, env: ReplyEnv, lim: Limits)
    requires Inv(w, lim) && k < |w.ops| && Addressed(w.ops[k], p) && !Malformed(p.m) && p.m.errorStatus != 0
    requires !w.ops[k].walking && w.ops[k].mode == SET
    ensures EndsAs(w, Receive(w, p, env, lim), k, Recorded(w.ops[k], p.m),
                   if p.m.errorStatus == 1 then CapacityExceeded else ProtocolError)
  {
    hide Inv, Receive, Reply, FinishOp, OpInv, EndsAs;
    AddressedIsTaken(w, p, k, env, lim);
    ReplyResolves(w, k, p.m, env, lim);
    FinishEnds(w, k, Noted(w.ops[k], p.m), if p.m.errorStatus == 1 then CapacityExceeded else ProtocolError, env.done,
               lim);
  }

  /**
   * A read splits a request of several names after tooBig, in halves, and after the noSuchName of SNMPv1 into single
   * names; a single name that SNMPv1 does not have is missing and the read goes on behind it. Everything else ends it.
   */
  lemma {:induction false} ErrorToRead(w: World, p: Packet, k: nat, env: ReplyEnv, lim: Limits)
    requires Inv(w, lim) && k < |w.ops| && Addressed(w.ops[k], p) && !Malformed(p.m) && p.m.errorStatus != 0
    requires !w.ops[k].walking && w.ops[k].mode == GET
    ensures var op, r, o := w.ops[k], Receive(w, p, env, lim), Recorded(w.ops[k], p.m);
            if p.m.errorStatus == 2 && op.dev.version == 0 then
              if op.batch > 1 then AsksAgain(w, r, k, o.(batchLimit := 1))
              else
                && op.offset < |op.cells|
                && var missing := o.(cells := op.cells[op.offset := op.cells[op.offset].(status := Missing)],
                                     offset := op.offset + 1);
                   if op.offset + 1 < |op.cells| then AsksAgain(w, r, k, missing)
                   else EndsAs(w, r, k, missing, if |op.cells| == 1 then Missing else Partial)
            else if p.m.errorStatus == 1 && op.batch > 1 then AsksAgain(w, r, k, o.(batchLimit := op.batch / 2))
            else EndsAs(w, r, k, o, if p.m.errorStatus == 1 then CapacityExceeded else ProtocolError)
  {
    hide Inv, Receive, Reply, FinishOp, OpInv, EndsAs;
    AddressedIsTaken(w, p, k, env, lim);
    ReplyResolves(w, k, p.m, env, lim);
    var s := ReplyHead(w.ops[k], p.m);
    if s.Finish? {
      FinishEnds(w, k, s.op, s.outcome, env.done, lim);
    }
  }

  /**
   * A walk takes the noSuchName of SNMPv1 for the end of the agent's names, gives up bulk requests after tooBig, and
   * ends after everything else.
   */
  lemma {:induction false} ErrorToWalk(w: World, p: Packet, k: nat, env: ReplyEnv, lim: Limits)
    requires Inv(w, lim) && k < |w.ops| && Addressed(w.ops[k], p) && !Malformed(p.m) && p.m.errorStatus != 0
    requires w.ops[k].walking
    ensures var op, r, o := w.ops[k], Receive(w, p, env, lim), Recorded(w.ops[k], p.m);
            if p.m.errorStatus == 2 && op.dev.version == 0 then EndsAs(w, r, k, o, Success)
            else if p.m.errorStatus == 1 && op.mode == GETBULK then AsksAgain(w, r, k, o.(mode := GETNEXT))
            else EndsAs(w, r, k, o, if p.m.errorStatus == 1 then CapacityExceeded else ProtocolError)
  {
    hide Inv, Receive, Reply, FinishOp, OpInv, EndsAs;
    AddressedIsTaken(w, p, k, env, lim);
    BatchFacts(w.ops[k], lim);
    ReplyResolves(w, k, p.m, env, lim);
    var s := ReplyHead(w.ops[k], p.m);
    if s.Finish? {
      FinishEnds(w, k, s.op, s.outcome, env.done, lim);
    }
  }

  // ----- answers to reads and writes -----

  /** The status of a value that cannot be copied. */
  function RefusedAs(v: Ber, lim: Limits): Status {
    match v
    case Node(_, _) => Unsupported
    case Raw(k, _) => if 0x80 <= k <= 0x82 then Missing else if k == 0x44 then CapacityExceeded else Unsupported
    case Str(_) => CapacityExceeded
    case Name(text) => if |text| > lim.value || |text| >= lim.oidText then CapacityExceeded else InvalidConfiguration
    case Address(octets) => if |octets| > lim.value then CapacityExceeded else InvalidConfiguration
    case _ => Success
  }

  /** The result holds the copy of the value and is usable exactly if it can be copied and is of an expected type. */
  ghost predicate ReadInto(before: Cell, after: Cell, v: Ber, lim: Limits) {
    && after.oid == before.oid && after.expected == before.expected
    && if Copyable(v, lim) then
         && Copies(v, after.value)
         && after.status == (if before.expected == 0x05 || before.expected == v.Tag() then Success else TypeMismatch)
       else after.value == Value(v.Tag(), 0, []) && after.status == RefusedAs(v, lim)
  }

  /** The requested results hold the reply's values; the others are as they were. */
  ghost predicate Filled(op: Op, cells: seq<Cell>, m: Message, lim: Limits) {
    && |cells| == |op.cells| && |m.bindings| == op.batch
    && forall i :: 0 <= i < |cells| ==>
         if op.offset <= i < op.offset + op.batch
         then ReadInto(op.cells[i], cells[i], m.bindings[i - op.offset].value, lim)
         else cells[i] == op.cells[i]
  }

  /** The reply names the requested results, all of them and in order. */
  ghost predicate NamesRequested(op: Op, m: Message) {
    && op.offset + op.batch <= |op.cells| && |m.bindings| == op.batch
    && forall i :: 0 <= i < op.batch ==> m.bindings[i].name == op.cells[op.offset + i].oid
  }

  lemma {:induction false} CommitReads(c: Cell, b: Binding, lim: Limits)
    ensures ReadInto(c, CommitCell(c, b, lim), b.value, lim)
  {
    CopyExact(b.value, lim);
    hide CopyValue;
  }

  lemma {:induction false} CommitFills(op: Op, m: Message, lim: Limits)
    requires op.offset + op.batch <= |op.cells| && |m.bindings| == op.batch
    ensures var end := op.offset + op.batch;
            Filled(op, op.cells[..op.offset] + CommitCells(op.cells[op.offset..end], m.bindings, lim) + op.cells[end..],
                   m, lim)
  {
    hide *;
    var end := op.offset + op.batch;
    CommitIsFrom(op.cells, op.offset, end, m.bindings, lim);
    CommittedFills(op, op.cells[..op.offset] + CommitCells(op.cells[op.offset..end], m.bindings, lim) + op.cells[end..],
                   m, lim);
  }

  lemma {:induction false} CommittedFills(op: Op, cells: seq<Cell>, m: Message, lim: Limits)
    requires |m.bindings| == op.batch && CommittedFrom(op.cells, cells, op.offset, m.bindings, lim)
    ensures Filled(op, cells, m, lim)
  {
    hide CommitCell, ReadInto;
    forall i | op.offset <= i < op.offset + op.batch && i < |cells|
      ensures ReadInto(op.cells[i], cells[i], m.bindings[i - op.offset].value, lim)
    {
      CommitReads(op.cells[i], m.bindings[i - op.offset], lim);
    }
  }

  /** The outcome of a run whose results are all settled. */
  ghost function OutcomeOf(cells: seq<Cell>): Status {
    if forall i :: 0 <= i < |cells| ==> cells[i].status == Success then Success
    else if |cells| == 1 then cells[0].status else Partial
  }

  /**
   * What an answer without an error status does. If it names what was asked for, it fills the batch, value by value;
   * the read goes on behind it, or ends when there is nothing behind it, with Success exactly when every result is
   * usable. Any other answer ends the run and fills nothing.
   */
  ghost predicate AnswerTaken(w: World, r: World, k: nat, m: Message, lim: Limits)
    requires k < |w.ops|
  {
    var op, o := w.ops[k], Recorded(w.ops[k], m);
    var end := op.offset + op.batch;
    if !NamesRequested(op, m) then EndsAs(w, r, k, o, ProtocolError)
    else if end < |op.cells| then
      exists cells: seq<Cell> ::
        Filled(op, cells, m, lim) && AsksAgain(w, r, k, o.(cells := cells, offset := end))
    else
      exists cells: seq<Cell> ::
        && Filled(op, cells, m, lim) && (forall i :: 0 <= i < |cells| ==> cells[i].status != Status.Pending)
        && EndsAs(w, r, k, o.(cells := cells, offset := end, sent := false, attempts := 0), OutcomeOf(cells))
  }

  lemma {:induction false} ReadAnswered(w: World, p: Packet, k: nat, env: ReplyEnv, lim: Limits)
    requires Inv(w, lim) && k < |w.ops| && Addressed(w.ops[k], p) && !Malformed(p.m) && p.m.errorStatus == 0
    requires !w.ops[k].walking
    ensures AnswerTaken(w, Receive(w, p, env, lim), k, p.m, lim)
  {
    AddressedPending(w.ops[k], p);
    hide Inv, Receive, Reply, FinishOp, OpInv, EndsAs, Filled, Addressed, Commit, NamesRequested, Malformed, OutcomeOf,
      Repliable, Matches, Expects, AnswerTaken;
    AddressedIsTaken(w, p, k, env, lim);
    ReplyCommits(w, k, p.m, env, lim);
    var s, r := Commit(Noted(w.ops[k], p.m), p.m, lim), Receive(w, p, env, lim);
    CommitForm(w.ops[k], p.m, lim);
    if s.Finish? {
      FinishEnds(w, k, s.op, s.outcome, env.done, lim);
    }
    TakenIs(w, r, k, p.m, s, lim);
  }

  lemma {:induction false} TakenIs(w: World, r: World, k: nat, m: Message, s: Step, lim: Limits)
    requires k < |w.ops| && CommitsTo(w.ops[k], m, s, lim)
    requires if s.Finish? then EndsAs(w, r, k, s.op, s.outcome) else r == w.(ops := w.ops[k := s.op])
    ensures AnswerTaken(w, r, k, m, lim)
  {
    hide EndsAs, Filled, NamesRequested, OutcomeOf;
    var op, o := w.ops[k], Recorded(w.ops[k], m);
    var end, cells := op.offset + op.batch, s.op.cells;
    if NamesRequested(op, m) {
      if end < |op.cells| {
        assert AsksAgain(w, r, k, o.(cells := cells, offset := end));
      } else {
        assert EndsAs(w, r, k, o.(cells := cells, offset := end, sent := false, attempts := 0), OutcomeOf(cells));
      }
    }
  }

  lemma {:induction false} AddressedPending(op: Op, p: Packet)
    requires Addressed(op, p)
    ensures op.Pending()
  {}

  ghost predicate CommitsTo(op: Op, m: Message, s: Step, lim: Limits) {
    var o, end := Recorded(op, m), op.offset + op.batch;
    if !NamesRequested(op, m) then s == Finish(o, ProtocolError)
    else
      && Filled(op, s.op.cells, m, lim)
      && s.op == o.(cells := s.op.cells, offset := end, sent := false, attempts := 0)
      && if end < |op.cells| then s.Continue?
         else
           && s.Finish? && s.outcome == OutcomeOf(s.op.cells)
           && forall i :: 0 <= i < |s.op.cells| ==> s.op.cells[i].status != Status.Pending
  }

  lemma {:induction false} CommitForm(op: Op, m: Message, lim: Limits)
    requires OpInv(op, lim) && op.Pending() && !op.walking && Repliable(op)
    ensures CommitsTo(op, m, Commit(Noted(op, m), m, lim), lim)
    ensures !Commit(Noted(op, m), m, lim).Bindings?
    ensures Commit(Noted(op, m), m, lim).op.Pending()
  {
    hide OpInv, CommitCells, Filled, Verdict, OutcomeOf;
    if NamesRequested(op, m) {
      CommitFills(op, m, lim);
      var s := Commit(Noted(op, m), m, lim);
      if op.offset + op.batch == |op.cells| {
        FilledSettled(op, s.op.cells, m, lim);
        OutcomeIs(s.op.cells);
      }
    }
  }

  lemma {:induction false} OutcomeIs(cells: seq<Cell>)
    requires cells != []
    ensures Verdict(cells) == OutcomeOf(cells)
  {}

  lemma {:induction false} ReplyCommits(w: World, k: nat, m: Message, env: ReplyEnv, lim: Limits)
    requires k < |w.ops| && Repliable(w.ops[k]) && !w.ops[k].walking && !Malformed(m) && m.errorStatus == 0
    ensures Reply(w, k, m, env, lim) ==
            match Commit(Noted(w.ops[k], m), m, lim)
            case Finish(op, outcome) => FinishOp(w, k, op, outcome, env.done, lim)
            case Continue(op) => w.(ops := w.ops[k := op])
            case Bindings(op) => Put(w, k, op)
  {
    hide Commit, FinishOp;
  }

  /** With the last batch nothing is open any more. */
  lemma {:induction false} FilledSettled(op: Op, cells: seq<Cell>, m: Message, lim: Limits)
    requires op.Pending() && OpInv(op, lim) && !op.walking && Filled(op, cells, m, lim)
    requires op.offset + op.batch == |op.cells|
    ensures forall i :: 0 <= i < |cells| ==> cells[i].status != Status.Pending
  {
    hide OpInv, ReadInto;
    SettledFront(op, lim);
    forall i | 0 <= i < |cells|
      ensures cells[i].status != Status.Pending
    {
      if op.offset <= i {
        ReadSettled(op.cells[i], cells[i], m.bindings[i - op.offset].value, lim);
      }
    }
  }

  lemma {:induction false} ReadSettled(before: Cell, after: Cell, v: Ber, lim: Limits)
    requires ReadInto(before, after, v, lim)
    ensures after.status != Status.Pending
  {}

  lemma {:induction false} SettledFront(op: Op, lim: Limits)
    requires op.Pending() && OpInv(op, lim) && !op.walking
    ensures SettledUpTo(op.cells, op.offset)
  {}

  // ----- answers to walks -----

  /** The binding continues a walk: not the end of the agent's names, behind the last name, and below the root. */
  ghost predicate Continues(root: Text, last: Text, b: Binding) {
    b.value.Tag() != 0x82 && Compare(b.name, last) > 0 && Under(root, b.name)
  }

  /** The last name after some bindings have been taken. */
  ghost function LastName(op: Op, bs: seq<Binding>): Text { if bs == [] then op.cursor else bs[|bs| - 1].name }

  ghost function CellOf(b: Binding, lim: Limits): Cell {
    Cell(b.name, CopyValue(b.value, lim).1, CopyValue(b.value, lim).0, 0x05)
  }

  ghost function CellsOf(bs: seq<Binding>, lim: Limits): (r: seq<Cell>)
    ensures |r| == |bs|
  {
    seq(|bs|, i requires 0 <= i < |bs| => CellOf(bs[i], lim))
  }

  ghost function NamesIn(bs: seq<Binding>): (r: seq<Text>)
    ensures |r| == |bs|
  {
    seq(|bs|, i requires 0 <= i < |bs| => bs[i].name)
  }

  /** A walk that has taken these bindings; one with a callback does not keep them as results. */
  ghost function Having(op: Op, bs: seq<Binding>, lim: Limits): Op {
    op.(cursor := LastName(op, bs), cells := if op.streaming then op.cells else op.cells + CellsOf(bs, lim),
        delivered := op.delivered + NamesIn(bs), taken := op.taken + CellsOf(bs, lim), showing := None)
  }

  /** The callback wants more after value i, and makes no calls of its own. */
  ghost predicate Accepts(shows: seq<Show>, i: nat) { i < |shows| ==> shows[i].accept }
  ghost predicate Silent(shows: seq<Show>) { forall i :: 0 <= i < |shows| ==> shows[i].acts == [] }

  /** Room for one more value: in the results, or as the callback answers. */
  ghost predicate Admits(op: Op, shows: seq<Show>, j: nat) {
    if op.streaming then Accepts(shows, j) else |op.cells| < op.capacity
  }

  lemma {:induction false} HavingNext(op: Op, b: Binding, bs: seq<Binding>, lim: Limits)
    ensures Having(Having(op, [b], lim), bs, lim) == Having(op, [b] + bs, lim)
  {
    assert CellsOf([b] + bs, lim) == CellsOf([b], lim) + CellsOf(bs, lim);
    assert NamesIn([b] + bs) == NamesIn([b]) + NamesIn(bs);
    hide CellsOf, NamesIn;
    assert op.cells + CellsOf([b], lim) + CellsOf(bs, lim) == op.cells + (CellsOf([b], lim) + CellsOf(bs, lim));
    assert op.taken + CellsOf([b], lim) + CellsOf(bs, lim) == op.taken + (CellsOf([b], lim) + CellsOf(bs, lim));
    assert op.delivered + NamesIn([b]) + NamesIn(bs) == op.delivered + (NamesIn([b]) + NamesIn(bs));
  }

  /**
   * How far a reply takes a walk: over the first j bindings, and why not further. The end of the agent's names and a
   * name outside the subtree complete it, a name that does not come later is an error, and so is a single successor
   * that is not there; an empty bulk reply makes it ask for single ones; a full result list and a callback that wants
   * no more end it.
   */
  ghost predicate Gathered(w: World, r: World, k: nat, bs: seq<Binding>, any: bool, shows: seq<Show>, j: nat,
                           lim: Limits)
    requires k < |w.ops|
  {
    var op := w.ops[k];
    && j <= |bs| && Follow(op, bs, j) && (forall i :: 0 <= i < j ==> Admits(Having(op, bs[..i], lim), shows, i))
    && if j == |bs| then AfterAll(w, r, k, Having(op, bs, lim), any || j > 0)
       else AtBinding(w, r, k, Having(op, bs[..j], lim), bs[j], shows, j)
  }

  ghost predicate Follow(op: Op, bs: seq<Binding>, j: nat)
    requires j <= |bs|
  {
    forall i :: 0 <= i < j ==> Continues(op.root, LastName(op, bs[..i]), bs[i])
  }

  /** Behind the last binding. */
  ghost predicate AfterAll(w: World, r: World, k: nat, now: Op, any: bool)
    requires k < |w.ops|
  {
    if any then AsksAgain(w, r, k, now)
    else if now.mode == GETBULK then AsksAgain(w, r, k, now.(mode := GETNEXT))
    else EndsAs(w, r, k, now, ProtocolError)
  }

  /** At a binding that is not taken. */
  ghost predicate AtBinding(w: World, r: World, k: nat, now: Op, b: Binding, shows: seq<Show>, j: nat) {
    if b.value.Tag() == 0x82 then EndsAs(w, r, k, now, Success)
    else if Compare(b.name, now.cursor) <= 0 then EndsAs(w, r, k, now, ProtocolError)
    else if !Under(now.root, b.name) then EndsAs(w, r, k, now, Success)
    else
      && !Admits(now, shows, j)
      && EndsAs(w, r, k, if now.streaming then now.(showing := Some(b.name)) else now, CapacityExceeded)
  }

  function Behind(op: Op, shows: seq<Show>): seq<Show> { if op.streaming then LaterShows(shows) else shows }

  lemma {:induction false} Gathers(w: World, k: nat, bs: seq<Binding>, any: bool, shows: seq<Show>, done: seq<Act>,
                                   lim: Limits) returns (j: nat)
    requires k < |w.ops| && w.ops[k].Pending() && w.ops[k].showing == None
    requires if w.ops[k].streaming then Silent(shows) else |w.ops[k].cells| <= w.ops[k].capacity
    ensures Gathered(w, WalkLoop(w, k, bs, any, shows, done, lim), k, bs, any, shows, j, lim)
    decreases |bs|
  {
    hide *;
    var op := w.ops[k];
    if bs == [] {
      NothingLeft(w, k, any, shows, done, lim);
      j := 0;
    } else if VisitBinding(op, bs[0], lim).Stop? || !Admits(op, shows, 0) {
      NotTaken(w, k, bs, any, shows, done, lim);
      j := 0;
    } else {
      var next := Having(op, bs[..1], lim);
      var w1 := w.(ops := w.ops[k := next]);
      OneTaken(w, k, bs, any, shows, done, lim);
      BehindSilent(op, shows);
      var i := Gathers(w1, k, bs[1..], true, Behind(op, shows), done, lim);
      j := i + 1;
      GatheredNext(w, w1, WalkLoop(w, k, bs, any, shows, done, lim), k, bs, any, shows, i, lim);
    }
  }

  lemma {:induction false} BehindSilent(op: Op, shows: seq<Show>)
    ensures Silent(shows) ==> Silent(Behind(op, shows))
  {}

  lemma {:induction false} NothingLeft(w: World, k: nat, any: bool, shows: seq<Show>, done: seq<Act>, lim: Limits)
    requires k < |w.ops| && w.ops[k].Pending() && w.ops[k].showing == None
    ensures Gathered(w, WalkLoop(w, k, [], any, shows, done, lim), k, [], any, shows, 0, lim)
  {
    hide FinishOp, EndsAs, CellsOf, NamesIn;
    HavingNothing(w.ops[k], lim);
    if !any && w.ops[k].mode != GETBULK {
      FinishEnds(w, k, w.ops[k], ProtocolError, done, lim);
    }
  }

  lemma {:induction false} NotTaken(w: World, k: nat, bs: seq<Binding>, any: bool, shows: seq<Show>, done: seq<Act>,
                                    lim: Limits)
    requires k < |w.ops| && w.ops[k].Pending() && w.ops[k].showing == None && bs != []
    requires if w.ops[k].streaming then Silent(shows) else |w.ops[k].cells| <= w.ops[k].capacity
    requires VisitBinding(w.ops[k], bs[0], lim).Stop? || !Admits(w.ops[k], shows, 0)
    ensures Gathered(w, WalkLoop(w, k, bs, any, shows, done, lim), k, bs, any, shows, 0, lim)
  {
    var op, r := w.ops[k], WalkLoop(w, k, bs, any, shows, done, lim);
    hide FinishOp, EndsAs, CellsOf, NamesIn, Compare, Under, CopyValue, Having, WalkLoop, Admits;
    HavingNothing(op, lim);
    assert bs[..0] == [];
    if VisitBinding(op, bs[0], lim).Stop? {
      WalkLoopOver(w, k, bs, any, shows, done, lim);
      FinishEnds(w, k, op, VisitBinding(op, bs[0], lim).outcome, done, lim);
    } else {
      NotAdmitted(w, k, bs, any, shows, done, lim);
    }
  }

  lemma {:induction false} NotAdmitted(w: World, k: nat, bs: seq<Binding>, any: bool, shows: seq<Show>, done: seq<Act>,
                                       lim: Limits)
    requires k < |w.ops| && w.ops[k].Pending() && bs != [] && VisitBinding(w.ops[k], bs[0], lim).Deliver?
    requires if w.ops[k].streaming then Silent(shows) else |w.ops[k].cells| <= w.ops[k].capacity
    requires !Admits(w.ops[k], shows, 0)
    ensures var op := w.ops[k];
            EndsAs(w, WalkLoop(w, k, bs, any, shows, done, lim), k,
                   if op.streaming then op.(showing := Some(bs[0].name)) else op, CapacityExceeded)
  {
    var op, cell := w.ops[k], VisitBinding(w.ops[k], bs[0], lim).cell;
    assert cell.oid == bs[0].name;
    hide FinishOp, EndsAs, VisitBinding, WalkLoop;
    if op.streaming {
      WalkLoopShown(w, k, bs, any, shows, done, lim);
      assert RunActs(Put(w, k, Shown(op, cell)), [], lim) == Put(w, k, Shown(op, cell));
      FinishEnds(Put(w, k, Shown(op, cell)), k, Shown(op, cell), CapacityExceeded, done, lim);
      SeenBefore(w, Put(w, k, Shown(op, cell)), WalkLoop(w, k, bs, any, shows, done, lim), k, Shown(op, cell),
                 Shown(op, cell), CapacityExceeded);
    } else {
      WalkLoopCollected(w, k, bs, any, shows, done, lim);
      FinishEnds(w, k, op, CapacityExceeded, done, lim);
    }
  }

  lemma {:induction false} OneTaken(w: World, k: nat, bs: seq<Binding>, any: bool, shows: seq<Show>, done: seq<Act>,
                                    lim: Limits)
    requires k < |w.ops| && w.ops[k].Pending() && bs != [] && VisitBinding(w.ops[k], bs[0], lim).Deliver?
    requires if w.ops[k].streaming then Silent(shows) else |w.ops[k].cells| <= w.ops[k].capacity
    requires Admits(w.ops[k], shows, 0)
    ensures var op, next := w.ops[k], Having(w.ops[k], bs[..1], lim);
            && WalkLoop(w, k, bs, any, shows, done, lim) ==
               WalkLoop(w.(ops := w.ops[k := next]), k, bs[1..], true, Behind(op, shows), done, lim)
            && Continues(op.root, op.cursor, bs[0])
            && next.Pending() && next.streaming == op.streaming && next.showing == None
            && (!op.streaming ==> |next.cells| <= next.capacity)
  {
    var op, cell := w.ops[k], VisitBinding(w.ops[k], bs[0], lim).cell;
    assert bs[..1] == [bs[0]];
    TakenHas(op, bs[0], lim);
    HavingTerms(op, bs[0], lim);
    VisitContinues(op, bs[0], lim);
    hide VisitBinding, Collected, Advanced, Having, Continues, FinishOp, WalkLoop;
    if op.streaming {
      WalkLoopShown(w, k, bs, any, shows, done, lim);
      assert RunActs(Put(w, k, Shown(op, cell)), [], lim) == Put(w, k, Shown(op, cell));
      assert Put(Put(w, k, Shown(op, cell)), k, Having(op, bs[..1], lim)) == Put(w, k, Having(op, bs[..1], lim));
    } else {
      WalkLoopCollected(w, k, bs, any, shows, done, lim);
    }
  }

  lemma {:induction false} VisitContinues(op: Op, b: Binding, lim: Limits)
    requires VisitBinding(op, b, lim).Deliver?
    ensures Continues(op.root, op.cursor, b)
  {}

  lemma {:induction false} LastNameNext(op: Op, bs: seq<Binding>, c: nat, lim: Limits)
    requires bs != [] && c < |bs|
    ensures LastName(Having(op, bs[..1], lim), bs[1..][..c]) == LastName(op, bs[..c + 1])
  {
    hide CellsOf, NamesIn;
  }

  lemma {:induction false} HavingAfter(op: Op, bs: seq<Binding>, i: nat, lim: Limits)
    requires i < |bs|
    ensures Having(Having(op, bs[..1], lim), bs[1..][..i], lim) == Having(op, bs[..i + 1], lim)
  {
    hide Having;
    HavingNext(op, bs[0], bs[1..][..i], lim);
    assert [bs[0]] == bs[..1] && [bs[0]] + bs[1..][..i] == bs[..i + 1];
  }

  /** An end or a new request seen from the state before one more binding was taken. */
  lemma {:induction false} SeenBefore(w: World, w1: World, r: World, k: nat, op: Op, last: Op, outcome: Status)
    requires k < |w.ops| && w1 == w.(ops := w.ops[k := op])
    ensures EndsAs(w1, r, k, last, outcome) <==> EndsAs(w, r, k, last, outcome)
    ensures AsksAgain(w1, r, k, last) <==> AsksAgain(w, r, k, last)
  {
    assert w1.ops[k := last.(sent := false, attempts := 0)] == w.ops[k := last.(sent := false, attempts := 0)];
    hide ClosedAs;
  }

  lemma {:induction false} HavingTerms(op: Op, b: Binding, lim: Limits)
    ensures var next := Having(op, [b], lim);
            && |next.cells| == (if op.streaming then |op.cells| else |op.cells| + 1)
            && next.capacity == op.capacity && next.root == op.root
            && next.mode == op.mode && next.Pending() == op.Pending() && next.streaming == op.streaming
            && next.showing == None
  {
    hide CellOf;
  }

  lemma {:induction false} FollowNext(op: Op, bs: seq<Binding>, i: nat, lim: Limits)
    requires bs != [] && i < |bs| && Continues(op.root, op.cursor, bs[0])
    requires Follow(Having(op, bs[..1], lim), bs[1..], i)
    ensures Follow(op, bs, i + 1)
  {
    hide Continues, CellsOf, NamesIn;
    var next := Having(op, bs[..1], lim);
    assert bs[..0] == [];
    assert next.root == op.root;
    hide Having;
    forall c | 0 <= c <= i
      ensures Continues(op.root, LastName(op, bs[..c]), bs[c])
    {
      if c > 0 {
        LastNameNext(op, bs, c - 1, lim);
        assert bs[1..][c - 1] == bs[c];
        assert Continues(next.root, LastName(next, bs[1..][..c - 1]), bs[1..][c - 1]);
      }
    }
  }

  /** Room for the next value, seen from the state before one more binding was taken. */
  lemma {:induction false} AdmitsNext(op: Op, next: Op, shows: seq<Show>, j: nat)
    requires next.streaming == op.streaming
    ensures forall now: Op :: now.streaming == op.streaming ==>
              (Admits(now, Behind(op, shows), j) <==> Admits(now, shows, j + 1))
  {}

  lemma {:induction false} HavingStreams(op: Op, bs: seq<Binding>, lim: Limits)
    ensures Having(op, bs, lim).streaming == op.streaming
  {}

  lemma {:induction false} AllAdmit(op: Op, bs: seq<Binding>, shows: seq<Show>, i: nat, lim: Limits)
    requires bs != [] && i < |bs| && Admits(op, shows, 0) && op.showing == None
    requires forall c :: 0 <= c < i ==>
               Admits(Having(Having(op, bs[..1], lim), bs[1..][..c], lim), Behind(op, shows), c)
    ensures forall c :: 0 <= c < i + 1 ==> Admits(Having(op, bs[..c], lim), shows, c)
  {
    hide Having, Admits, Behind;
    forall c | 0 <= c < i + 1
      ensures Admits(Having(op, bs[..c], lim), shows, c)
    {
      if c == 0 {
        assert bs[..0] == [];
        HavingNothing(op, lim);
      } else {
        HavingAfter(op, bs, c - 1, lim);
        HavingStreams(op, bs[..c], lim);
        AdmitsNext(op, op, shows, c - 1);
        assert Admits(Having(Having(op, bs[..1], lim), bs[1..][..c - 1], lim), Behind(op, shows), c - 1);
      }
    }
  }

  lemma {:induction false} GatheredNext(w: World, w1: World, r: World, k: nat, bs: seq<Binding>, any: bool,
                                        shows: seq<Show>, i: nat, lim: Limits)
    requires k < |w.ops| && bs != [] && w1 == w.(ops := w.ops[k := Having(w.ops[k], bs[..1], lim)])
    requires w.ops[k].showing == None && Admits(w.ops[k], shows, 0)
    requires Continues(w.ops[k].root, w.ops[k].cursor, bs[0])
    requires Gathered(w1, r, k, bs[1..], true, Behind(w.ops[k], shows), i, lim)
    ensures Gathered(w, r, k, bs, any, shows, i + 1, lim)
  {
    hide Having, EndsAs, AsksAgain, Continues, Follow, Admits, Behind, AfterAll, AtBinding;
    var op := w.ops[k];
    FollowNext(op, bs, i, lim);
    AllAdmit(op, bs, shows, i, lim);
    HavingAfter(op, bs, i, lim);
    if i + 1 == |bs| {
      assert bs[1..][..i] == bs[1..] && bs[..i + 1] == bs;
      AfterBefore(w, w1, r, k, Having(op, bs, lim));
    } else {
      assert bs[1..][i] == bs[i + 1];
      AdmitsBehind(op, bs, shows, i, lim);
      AtBefore(w, w1, r, k, w1.ops[k], Having(op, bs[..i + 1], lim), bs[i + 1], Behind(op, shows), shows, i);
    }
  }

  lemma {:induction false} AdmitsBehind(op: Op, bs: seq<Binding>, shows: seq<Show>, i: nat, lim: Limits)
    requires i < |bs|
    ensures var now := Having(op, bs[..i + 1], lim); Admits(now, Behind(op, shows), i) <==> Admits(now, shows, i + 1)
  {
    HavingStreams(op, bs[..i + 1], lim);
    AdmitsNext(op, op, shows, i);
    hide Having, Admits, Behind;
  }

  lemma {:induction false} AfterBefore(w: World, w1: World, r: World, k: nat, now: Op)
    requires k < |w.ops| && k < |w1.ops| && w1 == w.(ops := w.ops[k := w1.ops[k]]) && AfterAll(w1, r, k, now, true)
    ensures forall any :: any ==> AfterAll(w, r, k, now, any)
  {
    hide EndsAs, AsksAgain;
    SeenBefore(w, w1, r, k, w1.ops[k], now, Success);
  }

  lemma {:induction false} AtBefore(w: World, w1: World, r: World, k: nat, op: Op, now: Op, b: Binding,
                                    later: seq<Show>, shows: seq<Show>, j: nat)
    requires k < |w.ops| && w1 == w.(ops := w.ops[k := op]) && AtBinding(w1, r, k, now, b, later, j)
    requires Admits(now, later, j) <==> Admits(now, shows, j + 1)
    ensures AtBinding(w, r, k, now, b, shows, j + 1)
  {
    hide EndsAs, Compare, Under, Admits;
    SeenBefore(w, w1, r, k, op, now, Success);
    SeenBefore(w, w1, r, k, op, now, ProtocolError);
    SeenBefore(w, w1, r, k, op, if now.streaming then now.(showing := Some(b.name)) else now, CapacityExceeded);
  }

  lemma {:induction false} HavingNothing(op: Op, lim: Limits)
    requires op.showing == None
    ensures Having(op, [], lim) == op
  {}

  lemma {:induction false} TakenHas(op: Op, b: Binding, lim: Limits)
    requires VisitBinding(op, b, lim).Deliver?
    ensures var cell := VisitBinding(op, b, lim).cell;
            && cell.oid == b.name
            && Having(op, [b], lim) ==
               if op.streaming then Advanced(Shown(op, cell), cell) else Collected(op, cell)
  {
    hide Compare, Under, CopyValue;
    assert CellsOf([b], lim) == [CellOf(b, lim)] && NamesIn([b]) == [b.name];
  }

  /**
   * A matched answer without an error takes a walk exactly that far, if the callback that it may have makes no calls of
   * its own.
   */
  lemma {:induction false} WalkAnswered(w: World, p: Packet, k: nat, env: ReplyEnv, lim: Limits) returns (j: nat)
    requires Inv(w, lim) && AllReady(w) && k < |w.ops|
    requires Addressed(w.ops[k], p) && !Malformed(p.m) && p.m.errorStatus == 0
    requires w.ops[k].walking && (w.ops[k].streaming ==> Silent(env.shows))
    ensures var w0 := w.(ops := w.ops[k := Recorded(w.ops[k], p.m)]);
            Gathered(w0, Receive(w, p, env, lim), k, p.m.bindings, false, env.shows, j, lim)
  {
    var w0 := Put(w, k, Noted(w.ops[k], p.m));
    AddressedIsTaken(w, p, k, env, lim);
    AddressedPending(w.ops[k], p);
    assert Ready(w.ops[k]);
    CollectingRoom(w.ops[k], lim);
    ReplyGathers(w, k, p.m, env, lim);
    hide Inv, AllReady, Receive, Reply, WalkLoop, OpInv, Gathered, Repliable;
    j := Gathers(w0, k, p.m.bindings, false, env.shows, env.done, lim);
  }

  lemma {:induction false} ReplyGathers(w: World, k: nat, m: Message, env: ReplyEnv, lim: Limits)
    requires k < |w.ops| && Repliable(w.ops[k]) && w.ops[k].walking && !Malformed(m) && m.errorStatus == 0
    ensures Reply(w, k, m, env, lim) ==
            WalkLoop(Put(w, k, Noted(w.ops[k], m)), k, m.bindings, false, env.shows, env.done, lim)
  {
    hide WalkLoop;
  }

  lemma {:induction false} CollectingRoom(op: Op, lim: Limits)
    requires OpInv(op, lim) && op.Pending() && op.walking
    ensures |op.cells| <= op.capacity
  {}
}
