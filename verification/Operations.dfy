/** One request operation: its fields, and what scheduling, sending, replies and completion do to them. */
module Operations {
  import opened Bytes
  import opened Oids
  import opened OidOrder
  import opened Trees
  import opened Messages
  import opened Values
  import opened Packing

  const MAX_ID := 0x7FFF_FFFF
  const WALK_DEADLINE := 60000
  const REPETITIONS := 4

  /** Settings that the application must not change while operations are pending. */
  datatype Device = Device(
    address: nat,
    port: nat,
    community: seq<byte>,
    version: nat,          // 0 for SNMPv1, 1 for SNMPv2c
    status: Status,
    timeoutMs: nat,
    retries: nat)

  predicate ValidDevice(d: Device, lim: Limits) {
    d.version <= 1 && |d.community| < 64 && |d.community| < lim.octets
  }

  /** The fields of SNMPOperation; the last nine record what happened in the run. */
  datatype Op = Op(
    dev: Device,
    walking: bool,
    mode: byte,
    cells: seq<Cell>,      // results_[0..count_]
    capacity: nat,
    root: Text,
    cursor: Text,
    streaming: bool,       // onValue_ is set
    status: Status,
    completed: bool,
    offset: nat,
    batch: nat,
    batchLimit: nat,
    id: nat,
    agentError: int,
    agentErrorIndex: int,
    attempts: nat,
    sent: bool,
    sentAt: uint32,
    startedAt: uint32,
    ids: nat,              // request IDs allocated
    sends: nat,            // datagrams handed to the transport
    delivered: seq<Text>,  // names that a walk has taken, in order
    taken: seq<Cell>,      // those names with their values
    showing: Option<Text>, // the name that a streaming callback is being shown
    replies: seq<Message>, // replies matched
    settled: bool,         // completed, and not reconfigured since
    run: nat,              // accepted starts so far
    first: nat,            // true time of the first transmission
    answered: bool)        // a reply to the current request has been matched
  {
    predicate Pending() { status == Status.Pending }
  }

  // ----- configuration -----

  /** The checks of `add` on an optional SET value. */
  function CheckValue(v: Value, version: nat, lim: Limits): Status {
    var s :=
      if Numeric(v.tag) then (if v.number > MAX32 then InvalidConfiguration else Success)
      else if v.tag == COUNTER64 then Success
      else if v.tag == STRING || v.tag == OPAQUE then (if |v.bytes| > lim.value then CapacityExceeded else Success)
      else if v.tag == OID then
        if |v.bytes| >= lim.oidText || |v.bytes| > lim.value || 0 in v.bytes || EncodeText(v.bytes, lim).None?
        then InvalidOID else Success
      else if v.tag == NETWORK_ADDRESS then (if |v.bytes| != 4 then InvalidConfiguration else Success)
      else Unsupported;
    if s == Success && v.tag == COUNTER64 && version == 0 then Unsupported else s
  }

  /** SNMPOperation::add: validate, canonicalise, reject duplicates, then append. */
  function Add(op: Op, oid: Text, expected: byte, value: Option<Value>, lim: Limits): (r: (Status, Op))
    ensures r.0 != Success ==> r.1 == op
  {
    if op.Pending() then (Busy, op)
    else if |op.cells| == op.capacity then (CapacityExceeded, op)
    else
      var c := EncodeText(oid, lim);
      if c.None? || DecodeText(c.value, lim).None? then (InvalidOID, op)
      else
        var name := DecodeText(c.value, lim).value;
        if exists i :: 0 <= i < |op.cells| && op.cells[i].oid == name then (InvalidOID, op)
        else
          var s := if value.None? then Success else CheckValue(value.value, op.dev.version, lim);
          if s != Success then (s, op)
          else
            var v := if value.Some? then value.value else EMPTY;
            (Success, op.(cells := op.cells + [Cell(name, v, NotStarted, expected)], settled := false))
  }

  /** SNMPOperation::setRoot. The first result slot serves as scratch space and is not restored. */
  function SetRoot(op: Op, root: Text, lim: Limits): (r: (Status, Op))
    ensures r.0 != Success ==> r.1 == op
  {
    var (s, added) := Add(op.(cells := []), root, NULLTYPE, None, lim);
    if s != Success then (s, op)
    else (s, op.(root := added.cells[0].oid, cells := if op.cells == [] then [] else op.cells[0 := added.cells[0]],
                  settled := false))
  }

  // ----- scheduling and completion -----

  function ResetCell(c: Cell, mode: byte): Cell {
    c.(status := Status.Pending, value := if mode == SET then c.value else EMPTY)
  }

  function ResetCells(cells: seq<Cell>, mode: byte): (r: seq<Cell>)
    ensures |r| == |cells|
    ensures forall i :: 0 <= i < |cells| ==> r[i] == ResetCell(cells[i], mode)
  {
    seq(|cells|, i requires 0 <= i < |cells| => ResetCell(cells[i], mode))
  }

  /** Reasons for which `schedule` rejects an idle operation before looking for a slot. */
  function Admission(op: Op, begun: bool): Status {
    if op.Pending() then Busy
    else if !begun then NotStarted
    else if op.dev.status != Success then op.dev.status
    else if (!op.walking && op.cells == []) || (op.walking && op.root == []) || op.dev.port == 0
            || op.dev.timeoutMs == 0 || op.dev.timeoutMs > MAX_ID then InvalidConfiguration
    else Success
  }

  /** The reset that `schedule` performs once a slot is reserved. */
  function Scheduled(op: Op): Op {
    var cells := if op.walking then [] else op.cells;
    var mode := if !op.walking then op.mode else if op.dev.version == 0 then GETNEXT else GETBULK;
    op.(status := Status.Pending, mode := mode, cells := ResetCells(cells, mode),
        cursor := if op.walking then op.root else op.cursor,
        startedAt := 0, agentError := 0, agentErrorIndex := 0, completed := false, offset := 0, sent := false,
        batchLimit := |cells|, attempts := 0, id := 0,
        ids := 0, sends := 0, delivered := [], taken := [], showing := None, replies := [], settled := false,
        run := op.run + 1, answered := false)
  }

  function Settle(c: Cell, status: Status): Cell {
    if c.status == Status.Pending then c.(status := status) else c
  }

  function SettleAll(cells: seq<Cell>, status: Status): (r: seq<Cell>)
    ensures |r| == |cells|
    ensures forall i :: 0 <= i < |cells| ==> r[i] == Settle(cells[i], status)
  {
    seq(|cells|, i requires 0 <= i < |cells| => Settle(cells[i], status))
  }

  /** SNMPOperation::finish, apart from freeing the slot and calling the handler. */
  function Finished(op: Op, status: Status): Op {
    op.(cells := SettleAll(op.cells, status), status := status, completed := true,
        settled := op.settled || op.Pending())
  }

  // ----- sending -----

  function Room(op: Op, lim: Limits): int { lim.packet - Reserve(op.dev.community) }

  /** Bindings that fit the next datagram; zero when nothing does. */
  function Packed(op: Op, lim: Limits): (n: nat)
    ensures !op.walking && op.offset <= |op.cells| ==> n <= op.batchLimit && op.offset + n <= |op.cells|
    ensures op.walking ==> n <= 1
  {
    if Room(op, lim) <= 0 || op.offset > |op.cells| then 0
    else if op.walking then
      var b := BindingOctets(op.cursor, Some(NullOctets()), lim);
      if b.Some? && |b.value| <= Room(op, lim) then 1 else 0
    else Fill(op.cells, op.mode, op.offset, 0, 0, op.batchLimit, Room(op, lim), lim)
  }

  /** A request that packs nothing, or a SET that does not fit whole, ends with CapacityExceeded. */
  predicate CanSend(op: Op, lim: Limits) {
    Packed(op, lim) > 0 && (op.mode == SET && !op.walking ==> Packed(op, lim) == |op.cells|)
  }

  /** The encoded bindings of the packed request. */
  function RequestBody(op: Op, lim: Limits): (r: Option<seq<byte>>) {
    if op.walking then BindingOctets(op.cursor, Some(NullOctets()), lim)
    else if op.offset + op.batch <= |op.cells| then
      Body(op.cells[op.offset..op.offset + op.batch], op.mode, lim)
    else None
  }

  function Repetitions(op: Op): nat { if op.walking && op.mode == GETBULK then REPETITIONS else 0 }

  /** The datagram of the current request. */
  function RequestOctets(op: Op, lim: Limits): seq<byte> {
    var body := RequestBody(op, lim);
    if body.None? || op.dev.version > 1 || |op.dev.community| >= 64 || op.id > MAX_ID
       || |body.value| + Reserve(op.dev.community) > MAX_CONTENT then []
    else Datagram(op.dev.version, op.dev.community, op.mode, op.id, Repetitions(op), body.value)
  }

  /** The request is on its way: a first transmission takes a new ID, a repetition keeps its own. */
  function Transmitting(op: Op, nextId: nat, lim: Limits): Op {
    var packed := op.(batch := Packed(op, lim), sends := op.sends + 1, answered := false);
    if op.sent then packed else packed.(id := nextId + 1, ids := op.ids + 1)
  }

  function Transmitted(op: Op, now: uint32): Op { op.(sent := true, sentAt := now) }

  // ----- replies to reads and writes -----

  /** What a matched reply makes the client do next. */
  datatype Step =
    | Finish(op: Op, outcome: Status)
    | Continue(op: Op)
    | Bindings(op: Op)   // success: look at the bindings

  function Again(op: Op): Op { op.(sent := false, attempts := 0) }

  function Noted(op: Op, m: Message): Op {
    op.(agentError := m.errorStatus, agentErrorIndex := m.errorIndex, replies := op.replies + [m], answered := true)
  }

  /** SNMPv1 noSuchName on a read: retry one by one, or mark the single value missing. */
  function NoSuchName(op: Op): Step
    requires op.offset < |op.cells|
  {
    if op.batch > 1 then Continue(Again(op.(batchLimit := 1)))
    else
      var next := op.(cells := op.cells[op.offset := op.cells[op.offset].(status := Missing)], offset := op.offset + 1);
      if next.offset == |next.cells| then Finish(next, if |next.cells| == 1 then Missing else Partial)
      else Continue(Again(next))
  }

  /** The error handling of `receive` for a reply that matches the operation. */
  function ReplyHead(op0: Op, m: Message): Step
    requires op0.walking || op0.offset < |op0.cells|
  {
    var op := Noted(op0, m);
    if m.errorStatus < 0 || m.errorStatus > 18 || m.errorIndex < 0 then Finish(op, ProtocolError)
    else if !op.walking && op.mode == GET && m.errorStatus == 2 && op.dev.version == 0 then NoSuchName(op)
    else if m.errorStatus == 1 && op.batch > 1 && op.mode != SET then
      Continue(Again(op.(batchLimit := op.batch / 2)))
    else if op.walking && m.errorStatus == 2 && op.dev.version == 0 then Finish(op, Success)
    else if op.walking && m.errorStatus == 1 && op.mode == GETBULK then Continue(Again(op.(mode := GETNEXT)))
    else if m.errorStatus != 0 then Finish(op, if m.errorStatus == 1 then CapacityExceeded else ProtocolError)
    else Bindings(op)
  }

  /** A complete reply names exactly the requested cells, in order. */
  predicate Complete(op: Op, m: Message)
    requires op.offset + op.batch <= |op.cells|
  {
    |m.bindings| == op.batch
    && forall i :: 0 <= i < op.batch ==> m.bindings[i].name == op.cells[op.offset + i].oid
  }

  function CommitCell(c: Cell, b: Binding, lim: Limits): Cell {
    var (s, v) := CopyValue(b.value, lim);
    c.(value := v, status := if s == Success && c.expected != NULLTYPE && c.expected != v.tag then TypeMismatch else s)
  }

  function CommitCells(cells: seq<Cell>, bs: seq<Binding>, lim: Limits): (r: seq<Cell>)
    requires |cells| == |bs|
    ensures |r| == |cells|
    ensures forall i :: 0 <= i < |cells| ==> r[i] == CommitCell(cells[i], bs[i], lim)
  {
    seq(|cells|, i requires 0 <= i < |cells| => CommitCell(cells[i], bs[i], lim))
  }

  predicate AllOk(cells: seq<Cell>) { forall i :: 0 <= i < |cells| ==> cells[i].Ok() }

  /** The status of a run whose cells are all settled. */
  function Verdict(cells: seq<Cell>): Status
    requires cells != []
  {
    if AllOk(cells) then Success
    else if |cells| == 1 then cells[0].status
    else Partial
  }

  /** All or nothing: a batch is committed only from a complete reply. */
  function Commit(op: Op, m: Message, lim: Limits): Step
    requires !op.walking && op.offset < |op.cells| && op.offset + op.batch <= |op.cells|
  {
    if !Complete(op, m) then Finish(op, ProtocolError)
    else
      var end := op.offset + op.batch;
      var cells := op.cells[..op.offset] + CommitCells(op.cells[op.offset..end], m.bindings, lim) + op.cells[end..];
      var next := Again(op.(cells := cells, offset := end));
      if end == |cells| then Finish(next, Verdict(cells)) else Continue(next)
  }

  // ----- replies to walks -----

  datatype Visit =
    | Stop(outcome: Status)
    | Deliver(cell: Cell)

  /** What a walk does with one binding of a reply. */
  function VisitBinding(op: Op, b: Binding, lim: Limits): Visit {
    if b.value.Tag() == ENDOFMIBVIEW then Stop(Success)
    else if Compare(b.name, op.cursor) <= 0 then Stop(ProtocolError)
    else if !Under(op.root, b.name) then Stop(Success)
    else
      var (s, v) := CopyValue(b.value, lim);
      Deliver(Cell(b.name, v, s, NULLTYPE))
  }

  /** A streamed value leaves the operation alone until its callback has returned. */
  function Shown(op: Op, cell: Cell): Op { op.(showing := Some(cell.oid)) }

  function Advanced(op: Op, cell: Cell): Op {
    op.(cursor := cell.oid, delivered := op.delivered + [cell.oid], taken := op.taken + [cell], showing := None)
  }

  function Collected(op: Op, cell: Cell): Op {
    Advanced(op.(cells := op.cells + [cell]), cell)
  }

  /** After the last binding: an empty bulk reply falls back to single successors. */
  function WalkEnd(op: Op, any: bool): Step {
    if any then Continue(Again(op))
    else if op.mode == GETBULK then Continue(Again(op.(mode := GETNEXT)))
    else Finish(op, ProtocolError)
  }

  // ----- timeouts -----

  function Elapsed(now: uint32, since: uint32): uint32 { (now - since) % TWO32 }

  datatype Tick = Send(op: Op) | Expire(op: Op) | Keep(op: Op)

  /** What the loop does with one pending operation: expire it, (re)send, shrink or fall back, or leave it. */
  function TickOp(op: Op, now: uint32): Tick {
    if op.walking && op.id != 0 && Elapsed(now, op.startedAt) >= WALK_DEADLINE then Expire(op)
    else if !op.sent then Send(if op.id == 0 then op.(startedAt := now) else op)
    else if Elapsed(now, op.sentAt) >= op.dev.timeoutMs then
      if op.mode != SET && op.attempts < op.dev.retries then Send(op.(attempts := op.attempts + 1))
      else if op.walking && op.mode == GETBULK then Keep(Again(op.(mode := GETNEXT)))
      else if op.mode == GET && op.batch > 1 then Keep(Again(op.(batchLimit := op.batch / 2)))
      else Expire(op)
    else Keep(op)
  }
}
