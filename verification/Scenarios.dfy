/** Two short runs, event by event, in which the client does not do what its interface suggests. */
module Scenarios {
  import opened Bytes
  import opened Integers
  import opened Oids
  import opened OidOrder
  import opened Trees
  import opened Messages
  import opened Values
  import opened Packing
  import opened Requests
  import opened Operations
  import opened OperationLaws
  import opened Engine
  import opened EngineLaws
  import opened StepLaws
  import opened Runs
  import opened Outgoing
  import opened Consequences

  // ----- a client with one operation and one slot -----

  const DEVICE := Device(1, 161, [112], 1, Success, 1000, 0)
  const QUIET := ReplyEnv([], [])

  /** An operation as its constructor and configuration leave it. */
  function Configured(walking: bool, mode: byte, cells: seq<Cell>, root: Text): Op {
    Op(DEVICE, walking, mode, cells, 1, root, [], false, NotStarted, false, 0, 0, 0, 0, 0, 0, 0, false, 0, 0,
       0, 0, [], [], None, [], false, 0, 0, false)
  }

  function Lone(op: Op, slot: int, nextId: nat, clock: nat, wire: seq<Sent>, log: seq<Completion>): World {
    World([op], [slot], nextId, true, clock, wire, log)
  }

  function Beginning(op: Op): World { Lone(op, FREE, 0, 0, [], []) }

  lemma {:induction false} RunSnoc(w: World, es: seq<Event>, e: Event, lim: Limits)
    ensures Run(w, es + [e], lim) == Next(Run(w, es, lim), e, lim)
  {
    hide Next;
    assert (es + [e])[..|es|] == es;
  }

  lemma {:induction false} OneAct(w: World, act: Act, lim: Limits)
    ensures RunActs(w, [act], lim) == RunAct(w, act, lim)
  {
    hide RunAct;
    assert [act][1..] == [];
  }

  lemma {:induction false} LoneStarts(op: Op, nextId: nat, clock: nat, wire: seq<Sent>, log: seq<Completion>,
                                      lim: Limits)
    requires Admission(op, true) == Success
    ensures Next(Lone(op, FREE, nextId, clock, wire, log), User([Start(0)]), lim) ==
            Lone(Scheduled(op), 0, nextId, clock, wire, log)
  {
    hide Admission, Scheduled;
    OneAct(Lone(op, FREE, nextId, clock, wire, log), Start(0), lim);
  }

  /** The visit of the only slot, for an operation that has not been sent. */
  lemma {:induction false} LoneSends(op: Op, nextId: nat, clock: nat, wire: seq<Sent>, log: seq<Completion>, t: nat,
                                     lim: Limits)
    requires op.Pending() && !op.sent && op.id == 0 && nextId < MAX_ID && t < TWO32
    requires CanSend(op.(startedAt := t, first := t), lim)
    ensures var o := op.(startedAt := t, first := t);
            Next(Lone(op, 0, nextId, clock, wire, log), Loop(t, None, QUIET, []), lim) ==
            Lone(Transmitted(Transmitting(o, nextId, lim), t), 0, nextId + 1, t,
                 wire + [Entry(0, Transmitting(o, nextId, lim), t, lim)], log)
  {
    hide CanSend, Transmitting, Transmitted, Entry, FinishOp, Packed;
    var w, o := Lone(op, 0, nextId, clock, wire, log), op.(startedAt := t, first := t);
    assert TickOp(op, t) == Send(op.(startedAt := t));
    var tx := Transmitting(o, nextId, lim);
    var r := Lone(Transmitted(tx, t), 0, nextId + 1, clock, wire + [Entry(0, tx, t, lim)], log);
    assert TickSlot(w, 0, t, EnvAt([], 0), lim) == SendOp(w, 0, o, t, EnvAt([], 0), lim) == r;
    assert VisitSlot(w, 0, t, EnvAt([], 0), lim) == r;
    hide VisitSlot;
    assert TickSlots(r, 1, t, [], lim) == r;
  }

  /** A reply that ends the only operation. */
  lemma {:induction false} LoneEnds(op: Op, nextId: nat, clock: nat, wire: seq<Sent>, log: seq<Completion>, t: nat,
                                    m: Message,
                                    last: Op, outcome: Status, lim: Limits)
    requires Matches(op, m, DEVICE.address, DEVICE.port) && Repliable(op) && t < TWO32
    requires var w := Lone(op, 0, nextId, clock, wire, log);
             Reply(w, 0, m, QUIET, lim) == FinishOp(w, 0, last, outcome, [], lim)
    ensures var e := Loop(t, Some(Packet(m, DEVICE.address, DEVICE.port)), QUIET, []);
            Next(Lone(op, 0, nextId, clock, wire, log), e, lim) ==
            Lone(Finished(last, outcome), FREE, nextId, t, wire, log + [Completion(0, Finished(last, outcome))])
  {
    hide Matches, Repliable, Reply, Finished, TickOp;
    var w := Lone(op, 0, nextId, clock, wire, log);
    assert FindMatch(w, 0, m, DEVICE.address, DEVICE.port) == 0;
    var r := Lone(Finished(last, outcome), FREE, nextId, clock, wire, log + [Completion(0, Finished(last, outcome))]);
    assert Release(w, 0, last, outcome) == r;
    assert RunActs(r, [], lim) == r;
    assert Receive(w, Packet(m, DEVICE.address, DEVICE.port), QUIET, lim) == r;
    hide Receive;
    assert VisitSlot(r, 0, t, EnvAt([], 0), lim) == r;
    hide VisitSlot;
    assert TickSlots(r, 1, t, [], lim) == r;
    assert TickSlots(r, 0, t, [], lim) == r;
  }

  // ----- names -----

  lemma {:induction false} ShortText(arcs: Arcs)
    requires forall i :: 0 <= i < |arcs| ==> arcs[i] < 10
    ensures |Print(arcs)| == 2 * |arcs|
    decreases |arcs|
  {
    if arcs != [] {
      ShortText(arcs[1..]);
    }
  }

  lemma {:induction false} ShortName(arcs: Arcs)
    requires ValidArcs(arcs) && |arcs| <= 3 && forall i :: 0 <= i < |arcs| ==> arcs[i] < 10
    ensures var t := Print(arcs);
            && Canonical(t) && ArcsOf(t) == arcs && |t| <= 6
            && EncodeText(t, DEFAULTS).Some? && |EncodeText(t, DEFAULTS).value| <= 3
            && CanonicalForm(t, DEFAULTS) == Some(t)
  {
    ShortText(arcs);
    ParsePrint(arcs);
    hide Print, Parse, Subidentifiers;
    ContentsFit(Print(arcs), DEFAULTS);
    TextRoundTrip(Print(arcs), DEFAULTS);
  }

  const ROOT: Text := Print([1, 3])
  const OTHER: Text := Print([1, 4])
  const LEAF: Text := Print([1, 3, 7])

  // ----- a walk whose result is overwritten -----

  /** One object below the root, then the end of the view. */
  function Answer(): Message {
    Message(2, [112], RESPONSE, 1, 0, 0, [Binding(LEAF, Number(INTEGER, 5)), Binding(LEAF, Raw(ENDOFMIBVIEW, []))])
  }

  function FoundCell(): Cell { Cell(LEAF, Value(INTEGER, 5, []), Success, NULLTYPE) }

  lemma {:induction false} LeafBelowRoot()
    ensures Under(ROOT, LEAF) && Compare(LEAF, ROOT) > 0
    ensures Canonical(ROOT) && Canonical(LEAF) && |ROOT| <= 6 && |LEAF| <= 6 && ROOT != []
  {
    hide Print, Canonical, Under, Parse;
    ShortName([1, 3]);
    ShortName([1, 3, 7]);
    assert [1, 3, 7][..2] == [1, 3];
    UnderIsPrefix(ROOT, LEAF);
    PrefixIsBelow([1, 3], [1, 3, 7]);
    LexSwap([1, 3], [1, 3, 7]);
  }

  /** A walk with nothing collected yet, waiting for its first reply. */
  predicate FirstReplyDue(op: Op) {
    && op.walking && !op.streaming && op.capacity == 1 && op.cells == [] && op.root == ROOT && op.cursor == ROOT
    && op.sent && op.id == 1 && op.dev == DEVICE && op.Pending() && op.mode == GETBULK && op.batch == 1
  }

  lemma {:induction false} WalkAdmitted(op: Op)
    requires op.walking && op.dev == DEVICE && op.root != [] && !op.Pending()
    ensures Admission(op, true) == Success
  {}

  lemma {:induction false} WalkSendable(op: Op)
    requires op.walking && op.dev == DEVICE && op.offset == 0 && Canonical(op.cursor) && |op.cursor| <= 6
    ensures CanSend(op, DEFAULTS) && Packed(op, DEFAULTS) == 1
  {
    hide BindingOctets, Canonical;
    WalksAlwaysPack(op.cursor, [112], DEFAULTS);
  }

  lemma {:induction false} WalkDue(op: Op)
    requires op.walking && !op.streaming && op.capacity == 1 && op.root == ROOT && op.dev == DEVICE
    ensures var o := Scheduled(op).(startedAt := 0, first := 0);
            && o.Pending() && !o.sent && o.id == 0 && CanSend(o, DEFAULTS)
            && FirstReplyDue(Transmitted(Transmitting(o, 0, DEFAULTS), 0))
  {
    hide Print, CanSend, Packed, Canonical;
    LeafBelowRoot();
    WalkSendable(Scheduled(op).(startedAt := 0, first := 0));
  }

  lemma {:induction false} FirstVisit(op: Op)
    requires op.cursor == ROOT && op.root == ROOT
    ensures VisitBinding(op, Answer().bindings[0], DEFAULTS) == Deliver(FoundCell())
  {
    LeafBelowRoot();
    hide Print, Compare, Under;
  }

  lemma {:induction false} LastVisit(op: Op)
    ensures VisitBinding(op, Answer().bindings[1], DEFAULTS) == Stop(Success)
  {
    EndVisit(op, LEAF);
    hide VisitBinding, Print;
  }

  lemma {:induction false} EndVisit(op: Op, name: Text)
    ensures VisitBinding(op, Binding(name, Raw(ENDOFMIBVIEW, [])), DEFAULTS) == Stop(Success)
  {
    hide Compare, Under, CopyValue;
  }

  lemma {:induction false} AnswerHead(op: Op)
    requires FirstReplyDue(op)
    ensures ReplyHead(op, Answer()) == Bindings(Noted(op, Answer()))
    ensures Matches(op, Answer(), 1, 161) && Repliable(op)
  {
    hide Print;
  }

  /** The answer completes the walk. */
  lemma {:induction false} WalkAnswered(w: World, op: Op)
    requires |w.ops| == 1 && w.ops[0] == op && FirstReplyDue(op)
    ensures Repliable(op) && Matches(op, Answer(), 1, 161)
    ensures Reply(w, 0, Answer(), QUIET, DEFAULTS) ==
            FinishOp(w, 0, Collected(Noted(op, Answer()), FoundCell()), Success, [], DEFAULTS)
  {
    hide ReplyHead, FinishOp, WalkLoop, VisitBinding, Answer, FoundCell;
    var noted := Noted(op, Answer());
    var taken := Collected(noted, FoundCell());
    var w1 := Put(w, 0, noted);
    AnswerHead(op);
    FirstVisit(noted);
    LastVisit(taken);
    AnswerParts();
    var bs := Answer().bindings;
    WalkLoopCollected(w1, 0, bs, false, [], [], DEFAULTS);
    WalkLoopOver(Put(w1, 0, taken), 0, bs[1..], true, [], [], DEFAULTS);
    assert Put(w1, 0, taken) == Put(w, 0, taken);
    FinishOverwrites(w, 0, taken, taken, Success, [], DEFAULTS);
    assert Reply(w, 0, Answer(), QUIET, DEFAULTS) == WalkLoop(w1, 0, bs, false, [], [], DEFAULTS);
    assert VisitBinding(taken, bs[1..][0], DEFAULTS) == Stop(Success);
  }

  lemma {:induction false} AnswerParts()
    ensures |Answer().bindings| == 2 && Answer().bindings[1..] == [Answer().bindings[1]]
  {
    hide Print;
  }

  // ----- the run -----

  const WALK_RUN: seq<Event> :=
    [User([Start(0)]), Loop(0, None, QUIET, []), Loop(1, Some(Packet(Answer(), 1, 161)), QUIET, [])]

  lemma {:induction false} AnswerSendable()
    ensures Sendable(Answer(), DEFAULTS)
  {
    LeafBelowRoot();
    hide Print, Canonical, Sendable, Under, Compare;
    NamedSendable(LEAF, [Binding(LEAF, Number(INTEGER, 5)), Binding(LEAF, Raw(ENDOFMIBVIEW, []))]);
  }

  lemma {:induction false} NamedSendable(name: Text, bs: seq<Binding>)
    requires Canonical(name) && |name| <= 6
    requires forall i :: 0 <= i < |bs| ==>
               bs[i].name == name && (bs[i].value.Number? || bs[i].value == Raw(ENDOFMIBVIEW, []))
    requires forall i :: 0 <= i < |bs| && bs[i].value.Number? ==> bs[i].value.kind == INTEGER
    ensures Sendable(Message(2, [112], RESPONSE, 1, 0, 0, bs), DEFAULTS)
  {
    hide Canonical;
  }

  lemma {:induction false} ThreeEvents(w: World, a: Event, b: Event, c: Event, lim: Limits)
    ensures Run(w, [a, b, c], lim) == Next(Next(Next(w, a, lim), b, lim), c, lim)
  {
    hide Next;
    RunSnoc(w, [], a, lim);
    RunSnoc(w, [a], b, lim);
    RunSnoc(w, [a, b], c, lim);
    assert [] + [a] == [a] && [a] + [b] == [a, b] && [a, b] + [c] == [a, b, c];
  }

  lemma {:induction false} WalkInitial()
    ensures Initial(Beginning(Configured(true, GETNEXT, [], ROOT)), DEFAULTS)
  {
    LeafBelowRoot();
    hide Print, Canonical, Under, Compare;
    assert Shape(Configured(true, GETNEXT, [], ROOT), DEFAULTS);
    hide Shape;
  }

  /** The walk completes with one usable result. */
  lemma {:induction false} WalkCompletes()
    ensures var r := Run(Beginning(Configured(true, GETNEXT, [], ROOT)), WALK_RUN, DEFAULTS);
            && |r.ops| == 1 && r.ops[0].walking && !r.ops[0].Pending() && r.ops[0].capacity == 1
            && r.ops[0].dev == DEVICE
            && r.ops[0].status == Success && r.ops[0].cells == [FoundCell()]
  {
    var op := Configured(true, GETNEXT, [], ROOT);
    var o := Scheduled(op).(startedAt := 0, first := 0);
    var tx := Transmitting(o, 0, DEFAULTS);
    assert op.walking && op.root == ROOT && op.dev == DEVICE && op.capacity == 1 && !op.streaming && !op.Pending();
    LeafBelowRoot();
    WalkAdmitted(op);
    WalkDue(op);
    assert Scheduled(op).Pending() && !Scheduled(op).sent && Scheduled(op).id == 0;
    hide Print, Canonical, Scheduled, Transmitting, Transmitted, FirstReplyDue, CanSend, Next, Entry, Answer, Matches,
      Repliable,
      Reply, FinishOp, Configured, Run, Noted, Collected, Admission;
    var sent := Transmitted(tx, 0);
    var e := [Entry(0, tx, 0, DEFAULTS)];
    LoneStarts(op, 0, 0, [], [], DEFAULTS);
    LoneSends(Scheduled(op), 0, 0, [], [], 0, DEFAULTS);
    assert [] + e == e;
    WalkAnswered(Lone(sent, 0, 1, 0, e, []), sent);
    var last := Collected(Noted(sent, Answer()), FoundCell());
    LoneEnds(sent, 1, 0, e, [], 1, Answer(), last, Success, DEFAULTS);
    ThreeEvents(Beginning(op), WALK_RUN[0], WALK_RUN[1], WALK_RUN[2], DEFAULTS);
    WalkTaken(sent);
  }

  lemma {:induction false} WalkTaken(op: Op)
    requires FirstReplyDue(op)
    ensures var r := Finished(Collected(Noted(op, Answer()), FoundCell()), Success);
            && r.walking && !r.Pending() && r.capacity == 1 && r.dev == DEVICE
            && r.status == Success && r.cells == [FoundCell()]
  {
    hide Print, Answer;
  }

  /**
   * A run in which configuring a new root destroys a result: the walk has completed with one usable result, and is
   * still marked successful when that result has given way to the text of the new root.
   */
  lemma {:induction false} RootOverwritesTheResult()
    ensures var w, es := Beginning(Configured(true, GETNEXT, [], ROOT)), WALK_RUN;
            && Initial(w, DEFAULTS) && ParsedEvents(es + [User([Configure(0, OTHER)])], DEFAULTS)
            && var q, r := Run(w, es, DEFAULTS), Run(w, es + [User([Configure(0, OTHER)])], DEFAULTS);
            && |q.ops| == 1 && q.ops[0].status == Success && q.ops[0].cells == [FoundCell()] && FoundCell().Ok()
            && |r.ops| == 1 && r.ops[0].status == Success
            && r.ops[0].cells == [Cell(OTHER, EMPTY, NotStarted, NULLTYPE)]
  {
    hide Print, Run, Next, Configured, Sendable, Initial, RunAct, SetRoot, Answer;
    WalkInitial();
    AnswerSendable();
    WalkCompletes();
    var w, last := Beginning(Configured(true, GETNEXT, [], ROOT)), User([Configure(0, OTHER)]);
    var q := Run(w, WALK_RUN, DEFAULTS);
    assert ParsedEvents(WALK_RUN + [last], DEFAULTS);
    RunSnoc(w, WALK_RUN, last, DEFAULTS);
    Reconfigured(q);
  }

  lemma {:induction false} Reconfigured(q: World)
    requires |q.ops| == 1 && q.ops[0].walking && !q.ops[0].Pending() && q.ops[0].capacity == 1
    requires q.ops[0].cells == [FoundCell()]
    ensures var r := Next(q, User([Configure(0, OTHER)]), DEFAULTS);
            && |r.ops| == 1 && r.ops[0].status == q.ops[0].status
            && r.ops[0].cells == [Cell(OTHER, EMPTY, NotStarted, NULLTYPE)]
  {
    hide Print, SetRoot, CanonicalForm, Canonical, EncodeText, Parse, Subidentifiers;
    OneAct(q, Configure(0, OTHER), DEFAULTS);
    assert Next(q, User([Configure(0, OTHER)]), DEFAULTS) == Put(q, 0, SetRoot(q.ops[0], OTHER, DEFAULTS).1);
    hide Next, Put;
    ShortName([1, 4]);
    RootKeepsResults(q.ops[0], OTHER, DEFAULTS);
  }

  // ----- a write that sends what was echoed -----

  /** A reply to the SET that reports another value than was asked for. */
  function Echo(): Message { Message(2, [112], RESPONSE, 1, 0, 0, [Binding(ROOT, Number(INTEGER, 2))]) }

  function SetCell(n: uint64, status: Status): Cell { Cell(ROOT, Value(INTEGER, n, []), status, NULLTYPE) }

  const SET_RUN: seq<Event> :=
    [User([Start(0)]), Loop(0, None, QUIET, []), Loop(1, Some(Packet(Echo(), 1, 161)), QUIET, [])]

  /** A write of one value that has not been sent. */
  predicate Writing(op: Op, n: uint64) {
    && !op.walking && op.mode == SET && op.dev == DEVICE && op.offset == 0 && op.batchLimit == 1 && op.id == 0
    && !op.sent
    && op.Pending() && op.cells == [SetCell(n, Status.Pending)]
  }

  lemma {:induction false} WriteScheduled(op: Op, n: uint64)
    requires !op.walking && op.mode == SET && op.dev == DEVICE && |op.cells| == 1
    requires op.cells[0] == SetCell(n, op.cells[0].status)
    requires !op.Pending()
    ensures Admission(op, true) == Success && Writing(Scheduled(op), n)
  {
    hide Print;
  }

  lemma {:induction false} WriteFits(n: uint64, lim: Limits)
    requires lim == DEFAULTS && n < 10
    ensures var b := CellOctets(SetCell(n, Status.Pending), SET, lim); b.Some? && |b.value| <= 20
  {
    ShortName([1, 3]);
    hide Print, CellOctets, Canonical, Parse, Subidentifiers;
    BindingFits(ROOT, n);
  }

  lemma {:induction false} BindingFits(name: Text, n: uint64)
    requires EncodeText(name, DEFAULTS).Some? && |EncodeText(name, DEFAULTS).value| <= 3 && n < 10
    ensures var b := CellOctets(Cell(name, Value(INTEGER, n, []), Status.Pending, NULLTYPE), SET, DEFAULTS);
            b.Some? && |b.value| <= 20
  {
    IntegerRoundTrip(INTEGER, n);
    ContentIsOne(n);
    hide EncodeText, Content;
  }

  lemma {:induction false} ContentIsOne(n: nat)
    requires n < 10
    ensures |Content(Meaning(INTEGER, n))| <= 5
  {}

  lemma {:induction false} WriteSendable(op: Op, n: uint64)
    requires Writing(op, n) && n < 10
    ensures CanSend(op, DEFAULTS) && Packed(op, DEFAULTS) == 1
  {
    WriteFits(n, DEFAULTS);
    hide CellOctets, SetCell;
  }

  /** The same write, waiting for its reply. */
  predicate WriteDue(op: Op, n: uint64, id: nat) {
    && !op.walking && op.mode == SET && op.dev == DEVICE && op.offset == 0 && op.batch == 1 && op.id == id && op.sent
    && !op.answered && op.Pending() && op.cells == [SetCell(n, Status.Pending)]
  }

  lemma {:induction false} WriteSent(op: Op, n: uint64, nextId: nat, t: uint32)
    requires Writing(op, n) && n < 10
    ensures var o := op.(startedAt := t, first := t);
            CanSend(o, DEFAULTS) && WriteDue(Transmitted(Transmitting(o, nextId, DEFAULTS), t), n, nextId + 1)
  {
    var o := op.(startedAt := t, first := t);
    assert Writing(o, n);
    hide SetCell, Packed, CanSend;
    WriteSendable(o, n);
  }

  /** A receiver of these octets reads a request to write n under the root's name. */
  predicate Writes(octets: seq<byte>, n: uint64)
    requires n < 10
  {
    var m := ParseFrom(octets, DEFAULTS);
    m.Some? && m.value.kind == SET && m.value.bindings == [Binding(ROOT, Number(INTEGER, n))]
  }

  lemma {:induction false} WriteParses(op: Op, n: uint64, id: nat)
    requires WriteDue(op, n, id) && n < 10 && 0 < id <= MAX_ID && op.batchLimit == 1
    ensures Writes(RequestOctets(op, DEFAULTS), n)
  {
    hide Print, ParseFrom, RequestOctets, Canonical, Packed, CellOctets, Parse, Subidentifiers, EncodeText;
    ShortName([1, 3]);
    WritePacks(op, n, id);
    assert op.cells[0..1] == op.cells;
    assert Asked(op) == [SetCell(n, Status.Pending)];
    OctetsParse(op, DEFAULTS);
  }

  lemma {:induction false} WritePacks(op: Op, n: uint64, id: nat)
    requires WriteDue(op, n, id) && n < 10 && op.batchLimit == 1
    ensures Packed(op, DEFAULTS) == 1
  {
    WriteFits(n, DEFAULTS);
    hide CellOctets, SetCell;
  }

  lemma {:induction false} WriteLogged(op: Op, n: uint64, nextId: nat, t: uint32)
    requires Writing(op, n) && n < 10 && nextId < MAX_ID
    ensures Writes(Entry(0, Transmitting(op, nextId, DEFAULTS), t, DEFAULTS).octets, n)
  {
    hide Print, Packed, Datagram, ParseFrom, SetCell;
    var tx := Transmitting(op, nextId, DEFAULTS);
    WriteSendable(op, n);
    assert RequestOctets(tx, DEFAULTS) == RequestOctets(tx.(sent := true), DEFAULTS);
    WriteParses(tx.(sent := true), n, nextId + 1);
  }

  /** What the echo makes of the write. */
  function Echoed(op: Op): Op {
    Again(Noted(op, Echo()).(cells := [SetCell(2, Success)], offset := 1))
  }

  lemma {:induction false} EchoHead(op: Op)
    requires WriteDue(op, 1, 1)
    ensures ReplyHead(op, Echo()) == Bindings(Noted(op, Echo())) && Matches(op, Echo(), 1, 161) && Repliable(op)
  {
    hide Print;
  }

  lemma {:induction false} EchoCommits(op: Op)
    requires WriteDue(op, 1, 1)
    ensures Repliable(Noted(op, Echo())) && Commit(Noted(op, Echo()), Echo(), DEFAULTS) == Finish(Echoed(op), Success)
  {
    hide Print, Verdict;
    var o := Noted(op, Echo());
    assert Complete(o, Echo());
    var c := CommitCells(o.cells[0..1], Echo().bindings, DEFAULTS);
    assert c == [SetCell(2, Success)];
    assert o.cells[..0] + c + o.cells[1..] == [SetCell(2, Success)];
    OneOk(SetCell(2, Success));
  }

  lemma {:induction false} OneOk(c: Cell)
    requires c.Ok()
    ensures Verdict([c]) == Success
  {}

  lemma {:induction false} WriteAnswered(w: World, op: Op)
    requires |w.ops| == 1 && w.ops[0] == op && WriteDue(op, 1, 1)
    ensures Repliable(op) && Matches(op, Echo(), 1, 161)
    ensures Reply(w, 0, Echo(), QUIET, DEFAULTS) == FinishOp(w, 0, Echoed(op), Success, [], DEFAULTS)
  {
    EchoHead(op);
    EchoCommits(op);
    assert !Noted(op, Echo()).walking;
    hide ReplyHead, FinishOp, WalkLoop, Echo, Commit, Matches, Repliable, WriteDue, Echoed, Noted;
  }

  lemma {:induction false} EchoEnds(op: Op)
    requires WriteDue(op, 1, 1)
    ensures var r := Finished(Echoed(op), Success);
            && !r.walking && r.mode == SET && r.dev == DEVICE && r.cells == [SetCell(2, Success)] && r.status == Success
            && !r.Pending()
  {
    hide Print, Echo;
  }

  /** The write has been echoed with another value and is complete. */
  lemma {:induction false} WriteCompletes(op: Op) returns (last: Op, wire: seq<Sent>, log: seq<Completion>)
    requires op == Configured(false, SET, [SetCell(1, NotStarted)], [])
    ensures Run(Beginning(op), SET_RUN, DEFAULTS) == Lone(last, FREE, 1, 1, wire, log)
    ensures !last.walking && last.mode == SET && last.dev == DEVICE && last.cells == [SetCell(2, Success)]
    ensures last.status == Success && !last.Pending() && |wire| == 1 && Writes(wire[0].octets, 1)
  {
    WriteScheduled(op, 1);
    WriteSent(Scheduled(op), 1, 0, 0);
    var o := Scheduled(op).(startedAt := 0, first := 0);
    var tx := Transmitting(o, 0, DEFAULTS);
    var sent := Transmitted(tx, 0);
    assert Scheduled(op).Pending() && !Scheduled(op).sent && Scheduled(op).id == 0;
    WriteLogged(o, 1, 0, 0);
    hide Print, Scheduled, Transmitting, Transmitted, CanSend, Next, Entry, Matches, Writes, Repliable, Reply,
      FinishOp, Configured, Run,
      Echoed, Echo, Admission, WriteDue, Writing;
    LoneStarts(op, 0, 0, [], [], DEFAULTS);
    LoneSends(Scheduled(op), 0, 0, [], [], 0, DEFAULTS);
    wire := [] + [Entry(0, tx, 0, DEFAULTS)];
    WriteAnswered(Lone(sent, 0, 1, 0, wire, []), sent);
    LoneEnds(sent, 1, 0, wire, [], 1, Echo(), Echoed(sent), Success, DEFAULTS);
    ThreeEvents(Beginning(op), SET_RUN[0], SET_RUN[1], SET_RUN[2], DEFAULTS);
    EchoEnds(sent);
    last, log := Finished(Echoed(sent), Success), [] + [Completion(0, Finished(Echoed(sent), Success))];
  }

  const SET_AGAIN: seq<Event> := [User([Start(0)]), Loop(2, None, QUIET, [])]

  lemma {:induction false} TwoMoreEvents(w: World, es: seq<Event>, a: Event, b: Event, lim: Limits)
    ensures Run(w, es + [a, b], lim) == Next(Next(Run(w, es, lim), a, lim), b, lim)
  {
    hide Next, Run;
    RunSnoc(w, es, a, lim);
    RunSnoc(w, es + [a], b, lim);
    assert es + [a] + [b] == es + [a, b];
  }

  lemma {:induction false} WriteInitial(op: Op)
    requires op == Configured(false, SET, [SetCell(1, NotStarted)], [])
    ensures Initial(Beginning(op), DEFAULTS)
  {
    hide Print, Canonical, Parse, Subidentifiers, EncodeText, Initial, Configured;
    ShortName([1, 3]);
    OneCellInitial(op, SetCell(1, NotStarted));
  }

  lemma {:induction false} OneCellInitial(op: Op, cell: Cell)
    requires op == Configured(false, SET, [cell], []) && Canonical(cell.oid) && |cell.oid| <= 6
    ensures Initial(Beginning(op), DEFAULTS)
  {
    hide Canonical;
    assert Shape(op, DEFAULTS);
    hide Shape;
  }

  lemma {:induction false} EchoSendable()
    ensures Sendable(Echo(), DEFAULTS)
  {
    ShortName([1, 3]);
    hide Print, Canonical, Sendable;
    NamedSendable(ROOT, [Binding(ROOT, Number(INTEGER, 2))]);
  }

  lemma {:induction false} WritesAgain(last: Op, wire: seq<Sent>, log: seq<Completion>)
    requires !last.walking && last.mode == SET && last.dev == DEVICE && last.cells == [SetCell(2, Success)]
    requires !last.Pending()
    requires |wire| == 1
    ensures var r := Next(Next(Lone(last, FREE, 1, 1, wire, log), SET_AGAIN[0], DEFAULTS), SET_AGAIN[1], DEFAULTS);
            |r.wire| == 2 && r.wire[0] == wire[0] && Writes(r.wire[1].octets, 2)
  {
    hide Print, Scheduled, Transmitting, Transmitted, CanSend, Next, Entry, Admission, Writes, WriteDue;
    WriteScheduled(last, 2);
    hide SetCell;
    var o := Scheduled(last).(startedAt := 2, first := 2);
    assert Writing(o, 2) && Scheduled(last).Pending() && !Scheduled(last).sent && Scheduled(last).id == 0;
    hide Writing;
    WriteSent(Scheduled(last), 2, 1, 2);
    WriteLogged(o, 2, 1, 2);
    LoneStarts(last, 1, 1, wire, log, DEFAULTS);
    LoneSends(Scheduled(last), 1, 1, wire, log, 2, DEFAULTS);
  }

  /**
   * A run in which a SET is configured to write 1, is answered with an echo of 2, and is started again: its first
   * datagram writes 1, its second one writes 2.
   */
  lemma {:induction false} RestartedSetWritesAnother()
    ensures var w, es := Beginning(Configured(false, SET, [SetCell(1, NotStarted)], [])), SET_RUN + SET_AGAIN;
            && Initial(w, DEFAULTS) && ParsedEvents(es, DEFAULTS)
            && var r := Run(w, es, DEFAULTS);
            |r.wire| == 2 && Writes(r.wire[0].octets, 1) && Writes(r.wire[1].octets, 2)
  {
    hide Print, Run, Next, Sendable, Initial, Writes, Echo;
    var op := Configured(false, SET, [SetCell(1, NotStarted)], []);
    WriteInitial(op);
    EchoSendable();
    var last, wire, log := WriteCompletes(op);
    hide Configured, SetCell;
    WritesAgain(last, wire, log);
    TwoMoreEvents(Beginning(op), SET_RUN, SET_AGAIN[0], SET_AGAIN[1], DEFAULTS);
    assert SET_AGAIN == [SET_AGAIN[0], SET_AGAIN[1]];
    assert ParsedEvents(SET_RUN + SET_AGAIN, DEFAULTS);
  }
}
