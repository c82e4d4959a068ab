/** SNMPClient as an object: its slots, its packet buffer and its operations, against the transition system. */
module Client {
  import opened Bytes
  import opened Header
  import opened Oids
  import opened OidOrder
  import opened Trees
  import opened Messages
  import opened Values
  import opened Packing
  import opened Operations
  import opened OperationLaws
  import opened Engine
  import opened EngineLaws
  import opened StepLaws
  import opened RunLaws
  import opened Runs
  import opened Outgoing
  import opened Correlation
  import opened Consequences
  import opened Operation
  import opened Response
  import opened Serialiser

  /** A datagram and where it came from. */
  datatype Arrival = Arrival(octets: seq<byte>, peer: nat, port: nat)

  /** What `receive` makes of a datagram: one complete message that is a response, or nothing. */
  function Incoming(a: Arrival, lim: Limits): Option<Packet> {
    if a.octets == [] || |a.octets| > lim.packet then None
    else
      var h := ReadHeader(a.octets);
      if h.None? || h.value.size + h.value.length != |a.octets| then None
      else
        var m := Messages.ParseFrom(a.octets, lim);
        if m.None? || m.value.kind != RESPONSE then None else Some(Packet(m.value, a.peer, a.port))
  }

  class SNMPClient {
    const lim: Limits
    const table: seq<SNMPOperation>    // every operation, named by its position
    const buffer: array<byte>
    var pending: seq<int>              // the slot array: a position in the table, or FREE
    var nextID: nat
    var begun: bool
    ghost var ops: seq<Op>             // the operations' states
    ghost var clock: nat               // true time of the last loop call
    ghost var wire: seq<Sent>          // what has been sent
    ghost var completions: seq<Completion>

    /** The abstract world that this client is in. */
    ghost function View(): World
      reads this`pending, this`nextID, this`begun, this`ops, this`clock, this`wire, this`completions
    {
      World(ops, pending, nextID, begun, clock, wire, completions)
    }

    ghost predicate Valid()
      reads this`pending, this`ops, table
    {
      Shaped() && Tied(-1)
    }

    /** The packet buffer has its fixed size, operations are distinct, and slots name operations. */
    ghost predicate Shaped()
      reads this`pending, this`ops
    {
      && buffer.Length == lim.packet
      && (forall i, j :: 0 <= i < j < |table| ==> table[i] != table[j])
      && |ops| == |table|
      && (forall i :: 0 <= i < |pending| ==> pending[i] == FREE || 0 <= pending[i] < |table|)
    }

    /** Every operation but perhaps one is in its recorded state. */
    ghost predicate Tied(but: int)
      reads this`ops, table
      requires |ops| == |table|
    {
      forall k :: 0 <= k < |table| && k != but ==> table[k].Valid() && table[k].state == ops[k]
    }

    /** One operation has been changed; the record follows. */
    ghost method Follow(k: nat)
      requires Shaped() && k < |table| && Tied(k) && table[k].Valid()
      modifies this`ops
      ensures Valid() && View() == Put(old(View()), k, table[k].state)
    {
      hide SNMPOperation.Valid;
      ops := ops[k := table[k].state];
    }

    constructor (limits: Limits, operations: seq<SNMPOperation>, slots: nat)
      requires forall i, j :: 0 <= i < j < |operations| ==> operations[i] != operations[j]
      requires forall k :: 0 <= k < |operations| ==> operations[k].Valid()
      ensures Valid() && fresh(buffer) && lim == limits && table == operations && !begun && nextID == 0
      ensures |pending| == slots && forall i :: 0 <= i < slots ==> pending[i] == FREE
      ensures wire == [] && completions == []
    {
      lim, table := limits, operations;
      buffer := new byte[limits.packet];
      pending := seq(slots, i => FREE);
      nextID, begun := 0, false;
      ops := seq(|operations|, k requires 0 <= k < |operations| reads operations => operations[k].state);
      clock, wire, completions := 0, [], [];
    }

    /**
     * A client that has just been made of configured operations is where every run begins: nothing is pending, and the
     * invariant on which `Loop` relies holds.
     */
    lemma {:induction false} NewIsInitial()
      requires Valid() && |pending| > 0 && (forall i :: 0 <= i < |pending| ==> pending[i] == FREE)
      requires nextID == 0 && wire == [] && completions == []
      requires forall k :: 0 <= k < |table| ==> Fresh(table[k].state, lim)
      ensures Initial(View(), lim) && Inv(View(), lim) && AllReady(View())
    {
      hide Fresh, SNMPOperation.Valid;
      assert forall k :: 0 <= k < |ops| ==> table[k].state == ops[k];
      InitialInv(View(), lim);
      hide Inv, AllReady;
    }

    /** begin: open the transport once; later calls succeed and change nothing. `bound` is what the transport says. */
    method Begin(bound: bool) returns (s: Status)
      requires Valid()
      modifies this`begun
      ensures Valid() && View() == old(View()).(begun := old(begun) || bound)
      ensures s == if old(begun) || bound then Success else TransportError
      ensures old(Inv(View(), lim) && AllReady(View())) ==> Inv(View(), lim) && AllReady(View())
    {
      hide SNMPOperation.Valid, Tied, Inv, AllReady;
      if begun {
        return Success;
      }
      BegunKeeps(View(), lim);
      begun := bound;
      return if begun then Success else TransportError;
    }

    // ----- scheduling and completion -----

    /** The scan for a free slot. */
    method FirstFree() returns (slot: nat)
      ensures slot == FreeSlot(pending)
    {
      slot := 0;
      while slot < |pending| && pending[slot] != FREE
        invariant 0 <= slot <= |pending|
        invariant forall i :: 0 <= i < slot ==> pending[i] != FREE
      {
        slot := slot + 1;
      }
      FreeSlotIs(pending, slot);
    }

    /** The reset of one operation, recorded. */
    method Reset(k: nat)
      requires Valid() && k < |table|
      modifies this`ops, table[k]
      ensures Valid() && View() == Put(old(View()), k, Scheduled(old(ops[k])))
    {
      hide Scheduled, SNMPOperation.Valid;
      table[k].Reset();
      Follow(k);
    }

    /** schedule: admission first, then a slot, and only then the reset. */
    method Schedule(k: nat) returns (s: Status)
      requires Valid() && k < |table|
      modifies this`pending, this`ops, table[k]
      ensures Valid() && (s, View()) == Engine.Schedule(old(View()), k)
    {
      At(k);
      hide Scheduled, FreeSlot, Admission, Shaped, Tied, SNMPOperation.Valid;
      s := Admit(table[k]);
      if s != Success {
        return;
      }
      var slot := FirstFree();
      if slot == |pending| {
        return CapacityExceeded;
      }
      Reset(k);
      Occupy(slot, k);
    }

    method Occupy(slot: nat, k: nat)
      requires Valid() && slot < |pending| && k < |table|
      modifies this`pending
      ensures Valid() && View() == old(View()).(slots := old(pending)[slot := k])
    {
      hide SNMPOperation.Valid;
      pending := pending[slot := k];
    }

    lemma {:induction false} At(k: nat)
      requires Valid() && k < |table|
      ensures |ops| == |table| && table[k].Valid() && table[k].state == ops[k]
      ensures var op, o := table[k], ops[k];
              && op.dev == o.dev && op.walking == o.walking && op.capacity == o.capacity && op.streaming == o.streaming
              && op.mode == o.mode && op.cells == o.cells && op.root == o.root && op.cursor == o.cursor
              && op.status == o.status && op.offset == o.offset && op.batch == o.batch && op.batchLimit == o.batchLimit
              && op.id == o.id && op.attempts == o.attempts && op.sent == o.sent && op.sentAt == o.sentAt
              && op.startedAt == o.startedAt
    {}

    lemma {:induction false} Terms(k: nat)
      requires Valid() && k < |table|
      ensures |ops| == |table|
      ensures table[k].batch == ops[k].batch && table[k].mode == ops[k].mode && table[k].batchLimit == ops[k].batchLimit
    {}

    /** The reasons to reject a start, in order. */
    method Admit(op: SNMPOperation) returns (s: Status)
      requires op.Valid()
      ensures s == Admission(op.state, begun)
    {
      if op.Pending() {
        return Busy;
      }
      if !begun {
        return NotStarted;
      }
      if op.dev.status != Success {
        return op.dev.status;
      }
      if (!op.walking && op.cells == []) || (op.walking && op.root == []) || op.dev.port == 0 || op.dev.timeoutMs == 0
         || op.dev.timeoutMs > MAX_ID {
        return InvalidConfiguration;
      }
      return Success;
    }

    // ----- one operation changes, and the record follows -----

    method Settle(k: nat, outcome: Status)
      requires Valid() && k < |table|
      modifies this`ops, table[k]
      ensures Valid() && View() == Put(old(View()), k, Finished(old(ops[k]), outcome))
    {
      hide SNMPOperation.Valid;
      table[k].Settle(outcome);
      Follow(k);
    }

    method Note(k: nat, m: Message)
      requires Valid() && k < |table|
      modifies this`ops, table[k]
      ensures Valid() && View() == Put(old(View()), k, Noted(old(ops[k]), m))
    {
      hide SNMPOperation.Valid;
      table[k].Note(m);
      Follow(k);
    }

    method AskAgain(k: nat, kind: byte, limit: nat)
      requires Valid() && k < |table|
      modifies this`ops, table[k]
      ensures Valid() && View() == Put(old(View()), k, Again(old(ops[k]).(mode := kind, batchLimit := limit)))
    {
      hide SNMPOperation.Valid;
      table[k].AskAgain(kind, limit);
      Follow(k);
    }

    method Store(k: nat, results: seq<Cell>, next: nat)
      requires Valid() && k < |table|
      modifies this`ops, table[k]
      ensures Valid() && View() == Put(old(View()), k, old(ops[k]).(cells := results, offset := next))
    {
      hide SNMPOperation.Valid;
      table[k].Store(results, next);
      Follow(k);
    }

    ghost method Show(k: nat, cell: Cell)
      requires Valid() && k < |table|
      modifies this`ops, table[k]
      ensures Valid() && View() == Put(old(View()), k, Shown(old(ops[k]), cell))
    {
      hide SNMPOperation.Valid;
      table[k].Show(cell);
      Follow(k);
    }

    method Advance(k: nat, cell: Cell)
      requires Valid() && k < |table|
      modifies this`ops, table[k]
      ensures Valid() && View() == Put(old(View()), k, Advanced(old(ops[k]), cell))
    {
      hide SNMPOperation.Valid;
      table[k].Advance(cell);
      Follow(k);
    }

    method Collect(k: nat, cell: Cell)
      requires Valid() && k < |table|
      modifies this`ops, table[k]
      ensures Valid() && View() == Put(old(View()), k, Collected(old(ops[k]), cell))
    {
      hide SNMPOperation.Valid;
      table[k].Collect(cell);
      Follow(k);
    }

    method Stamp(k: nat, now: uint32, ghost t: nat)
      requires Valid() && k < |table|
      modifies this`ops, table[k]
      ensures Valid() && View() == Put(old(View()), k, old(ops[k]).(startedAt := now, first := t))
    {
      hide SNMPOperation.Valid;
      table[k].Stamp(now, t);
      Follow(k);
    }

    method CountAttempt(k: nat)
      requires Valid() && k < |table|
      modifies this`ops, table[k]
      ensures Valid() && View() == Put(old(View()), k, old(ops[k]).(attempts := old(ops[k]).attempts + 1))
    {
      hide SNMPOperation.Valid;
      table[k].CountAttempt();
      Follow(k);
    }

    method SetBatch(k: nat, n: nat)
      requires Valid() && k < |table|
      modifies this`ops, table[k]
      ensures Valid() && View() == Put(old(View()), k, old(ops[k]).(batch := n))
    {
      hide SNMPOperation.Valid;
      table[k].SetBatch(n);
      Follow(k);
    }

    method MarkSent(k: nat, now: uint32)
      requires Valid() && k < |table|
      modifies this`ops, table[k]
      ensures Valid() && View() == Put(old(View()), k, Transmitted(old(ops[k]), now))
    {
      hide SNMPOperation.Valid;
      table[k].MarkSent(now);
      Follow(k);
    }

    // ----- user code and completion -----

    /** remove: the operation leaves every slot. */
    method Remove(k: nat)
      requires Valid()
      modifies this`pending
      ensures Valid() && View() == old(View()).(slots := Engine.Remove(old(pending), k))
    {
      ghost var before := pending;
      var slots := pending;
      var i := 0;
      while i < |slots|
        invariant 0 <= i <= |slots| == |before|
        invariant forall j :: 0 <= j < i ==> slots[j] == if before[j] == k then FREE else before[j]
        invariant forall j :: i <= j < |slots| ==> slots[j] == before[j]
      {
        if slots[i] == k {
          slots := slots[i := FREE];
        }
        i := i + 1;
      }
      hide SNMPOperation.Valid, Tied;
      pending := slots;
      assert pending == Engine.Remove(before, k);
    }

    /** The end of the run is logged. */
    ghost method LogCompletion(k: nat)
      requires Valid() && k < |table|
      modifies this`completions
      ensures Valid() && View() == old(View()).(completions := old(completions) + [Completion(k, ops[k])])
    {
      hide SNMPOperation.Valid;
      completions := completions + [Completion(k, ops[k])];
    }

    /** finish: settle, free the slot, and only then call the completion handler. */
    method Finish(k: nat, outcome: Status, done: seq<Act>)
      requires Valid() && k < |table|
      modifies this`pending, this`ops, this`completions, table
      ensures Valid() && View() == FinishOp(old(View()), k, old(ops[k]), outcome, done, lim)
      decreases done, 1
    {
      hide Shaped, Tied, Finished, Engine.RunActs, Engine.Remove;
      Settle(k, outcome);
      Remove(k);
      LogCompletion(k);
      RunActs(done);
    }

    /** The calls that user code makes. */
    method RunActs(acts: seq<Act>)
      requires Valid()
      modifies this`pending, this`ops, this`completions, table
      ensures Valid() && View() == Engine.RunActs(old(View()), acts, lim)
      decreases acts, 0
    {
      hide Shaped, Tied, Engine.RunAct;
      if acts != [] {
        RunAct(acts[0]);
        RunActs(acts[1..]);
      }
    }

    method RunAct(act: Act)
      requires Valid()
      modifies this`pending, this`ops, this`completions, table
      ensures Valid() && View() == Engine.RunAct(old(View()), act, lim)
      decreases act, 0
    {
      assert |ops| == |table|;
      if 0 <= act.op < |table| {
        At(act.op);
      }
      hide Shaped, Tied, SNMPOperation.Valid, FinishOp, Engine.Schedule, Operations.SetRoot, Operations.Add;
      match act
      case Start(k) =>
        if k < |table| {
          var s := Schedule(k);
        }
      case Cancel(k, done) =>
        if k < |table| && table[k].Pending() {
          Finish(k, Cancelled, done);
        }
      case Configure(k, root) =>
        if k < |table| && table[k].walking {
          Configure(k, root);
        }
      case AddName(k, name, expected, value) =>
        if k < |table| && !table[k].walking {
          AddName(k, name, expected, value);
        }
    }

    method Configure(k: nat, root: Text)
      requires Valid() && k < |table|
      modifies this`ops, table[k]
      ensures Valid() && View() == Put(old(View()), k, Operations.SetRoot(old(ops[k]), root, lim).1)
    {
      hide SNMPOperation.Valid, Operations.SetRoot;
      var s := table[k].SetRoot(root, lim);
      Follow(k);
    }

    method AddName(k: nat, name: Text, expected: byte, value: Option<Value>)
      requires Valid() && k < |table|
      modifies this`ops, table[k]
      ensures Valid() && View() == Put(old(View()), k, Operations.Add(old(ops[k]), name, expected, value, lim).1)
    {
      hide SNMPOperation.Valid, Operations.Add;
      var s := table[k].Add(name, expected, value, lim);
      Follow(k);
    }

    // ----- sending -----

    /** What `send` relies on; the invariant of the client provides it. */
    static ghost predicate Packable(op: Op) {
      && op.offset <= |op.cells| && (op.walking ==> op.mode != SET)
      && op.dev.version <= 1 && |op.dev.community| < 64 && (op.sent ==> op.id <= MAX_ID)
    }

    /** The cursor of a walk, if it fits. */
    method PackWalk(op: SNMPOperation, room: nat) returns (n: nat, end: nat)
      requires op.Valid() && op.walking && op.state.offset <= |op.state.cells|
      requires 0 < room == Room(op.state, lim) && buffer.Length == lim.packet
      modifies buffer
      ensures n == Packed(op.state, lim)
      ensures n > 0 ==> end <= room && RequestBody(op.state.(batch := n), lim) == Some(buffer[..end])
    {
      ghost var o := op.state;
      WalkPacked(o, lim);
      assert op.cursor == o.cursor;
      hide SNMPOperation.Valid, BindingOctets, Packed, RequestBody;
      var ok;
      ok, end := PackCursor(buffer, op.cursor, room, lim);
      n := if ok then 1 else 0;
    }

    /** As many bindings of a batch as fit. */
    method PackBatch(op: SNMPOperation, room: nat) returns (n: nat, end: nat)
      requires op.Valid() && !op.walking && op.state.offset <= |op.state.cells|
      requires 0 < room == Room(op.state, lim) && buffer.Length == lim.packet
      modifies buffer
      ensures n == Packed(op.state, lim)
      ensures end <= room && RequestBody(op.state.(batch := n), lim) == Some(buffer[..end])
    {
      ghost var o := op.state;
      assert op.cells == o.cells && op.mode == o.mode && op.offset == o.offset && op.batchLimit == o.batchLimit;
      var cells, mode, offset, limit := op.cells, op.mode, op.offset, op.batchLimit;
      hide SNMPOperation.Valid, Body, Fill, Packed, RequestBody;
      n, end := PackBindings(buffer, cells, mode, offset, limit, room, lim);
      BatchPacked(o, n, lim);
    }

    /** Fill the buffer with as many bindings as fit beside the envelope. */
    method Pack(op: SNMPOperation) returns (n: nat, end: nat)
      requires op.Valid() && Packable(op.state) && buffer.Length == lim.packet
      modifies buffer
      ensures n == Packed(op.state, lim)
      ensures n > 0 ==> end + Reserve(op.dev.community) <= buffer.Length
                        && RequestBody(op.state.(batch := n), lim) == Some(buffer[..end])
    {
      assert op.dev == op.state.dev && op.walking == op.state.walking;
      hide SNMPOperation.Valid, Packed, RequestBody;
      var reserve := |op.dev.community| + ENVELOPE;
      if reserve >= buffer.Length {
        NothingPacked(op.state, lim);
        return 0, 0;
      }
      if op.walking {
        n, end := PackWalk(op, buffer.Length - reserve);
      } else {
        n, end := PackBatch(op, buffer.Length - reserve);
      }
    }

    /** Count the transmission, under a new ID unless it is a repetition. */
    method Identify(k: nat)
      requires Valid() && k < |table|
      modifies this`ops, this`nextID, table[k]
      ensures Valid()
      ensures View() == Put(old(View()), k, Identified(old(ops[k]), old(nextID)))
                        .(nextId := if old(ops[k]).sent then old(nextID) else old(nextID) + 1)
    {
      At(k);
      hide SNMPOperation.Valid;
      var repeated := table[k].sent;
      table[k].Identify(nextID);
      Follow(k);
      if !repeated {
        nextID := nextID + 1;
      }
    }

    /** The envelope goes around the packed bindings. */
    method Wrapped(op: SNMPOperation, bodyEnd: nat) returns (end: nat)
      requires op.Valid() && Packable(op.state) && op.state.id <= MAX_ID && buffer.Length == lim.packet
      requires bodyEnd + Reserve(op.dev.community) <= buffer.Length
      requires RequestBody(op.state, lim) == Some(buffer[..bodyEnd])
      modifies buffer
      ensures end <= buffer.Length && buffer[..end] == RequestOctets(op.state, lim)
    {
      assert op.dev == op.state.dev && op.walking == op.state.walking && op.mode == op.state.mode;
      assert op.id == op.state.id;
      hide SNMPOperation.Valid, RequestBody, Datagram;
      var repetitions := if op.walking && op.mode == GETBULK then REPETITIONS else 0;
      end := Envelop(buffer, bodyEnd, op.dev.version, op.dev.community, op.mode, op.id, repetitions);
    }

    /** The datagram is complete; log it and hand it to the transport. */
    ghost method Log(k: nat, t: nat, octets: seq<byte>)
      requires Valid() && k < |table| && octets == RequestOctets(ops[k], lim)
      modifies this`wire
      ensures Valid() && View() == old(View()).(wire := old(wire) + [Entry(k, ops[k], t, lim)])
    {
      hide SNMPOperation.Valid, RequestOctets, Tied;
      var op := ops[k];
      wire := wire + [Sent(k, op.run, op.id, octets, op.walking, op.mode, op.dev.version, op.cursor, t, op.first,
                       op.dev.timeoutMs)];
    }

    /** The request gets its ID and its envelope. */
    method Address(k: nat, bodyEnd: nat) returns (end: nat)
      requires Valid() && k < |table| && Packable(ops[k]) && (ops[k].sent || nextID < MAX_ID)
      requires bodyEnd + Reserve(ops[k].dev.community) <= buffer.Length
      requires RequestBody(ops[k], lim) == Some(buffer[..bodyEnd])
      modifies this`ops, this`nextID, table[k], buffer
      ensures Valid() && end <= buffer.Length && buffer[..end] == RequestOctets(ops[k], lim)
      ensures View() == Put(old(View()), k, Identified(old(ops[k]), old(nextID)))
                        .(nextId := if old(ops[k]).sent then old(nextID) else old(nextID) + 1)
    {
      hide Tied, SNMPOperation.Valid, RequestBody, RequestOctets, Identified;
      IdentifiedFacts(ops[k], nextID, lim);
      Identify(k);
      At(k);
      end := Wrapped(table[k], bodyEnd);
    }

    /** And is logged. */
    method Compose(k: nat, bodyEnd: nat, ghost t: nat) returns (end: nat)
      requires Valid() && k < |table| && Packable(ops[k])
      requires ops[k].batch == Packed(ops[k], lim) && (ops[k].sent || nextID < MAX_ID)
      requires bodyEnd + Reserve(ops[k].dev.community) <= buffer.Length
      requires RequestBody(ops[k], lim) == Some(buffer[..bodyEnd])
      modifies this`ops, this`nextID, this`wire, table[k], buffer
      ensures Valid() && end <= buffer.Length && buffer[..end] == RequestOctets(ops[k], lim)
      ensures View() == Put(Logged(old(View()), k, old(ops[k]), t, lim), k, Transmitting(old(ops[k]), old(nextID), lim))
    {
      hide Tied, SNMPOperation.Valid, RequestBody, Packed, RequestOctets, Identified, Transmitting, Entry, Logged,
        Packable;
      TransmittingIs(ops[k], nextID, lim);
      ComposedWorld(View(), k, ops[k], t, lim);
      end := Address(k, bodyEnd);
      Log(k, t, buffer[..end]);
    }

    /** The datagram goes to the transport, which takes it or ends the operation. */
    method Transmit(k: nat, bodyEnd: nat, now: uint32, ghost t: nat, env: SlotEnv)
      requires Valid() && k < |table| && Packable(ops[k]) && now == t % TWO32
      requires ops[k].batch == Packed(ops[k], lim) && (ops[k].sent || nextID < MAX_ID)
      requires bodyEnd + Reserve(ops[k].dev.community) <= buffer.Length
      requires RequestBody(ops[k], lim) == Some(buffer[..bodyEnd])
      modifies this`pending, this`ops, this`nextID, this`wire, this`completions, table, buffer
      ensures Valid()
      ensures var w, op := old(View()), old(ops[k]);
              var tx, w1 := Transmitting(op, w.nextId, lim), Logged(w, k, op, t, lim);
              View() == if !env.transport then FinishOp(w1, k, tx, TransportError, env.done, lim)
                        else Put(w1, k, Transmitted(tx, now))
    {
      ghost var op, w := ops[k], View();
      hide Shaped, Tied, SNMPOperation.Valid, RequestBody, Packed, FinishOp, RequestOctets, Transmitting, Logged,
        Transmitted, Packable, Reserve;
      SentPut(w, k, op, t, now, lim);
      hide Put;
      var end := Compose(k, bodyEnd, t);
      if !env.transport {
        FinishOverwrites(Logged(w, k, op, t, lim), k, ops[k], ops[k], TransportError, env.done, lim);
        Finish(k, TransportError, env.done);
      } else {
        MarkSent(k, now);
      }
    }

    /** The packed request goes out, or the operation ends because it may not. */
    method HandOver(k: nat, refused: bool, bodyEnd: nat, now: uint32, ghost t: nat, env: SlotEnv)
      requires Valid() && k < |table| && Packable(ops[k]) && now == t % TWO32 && ops[k].batch == Packed(ops[k], lim)
      requires !refused ==>
                 && (ops[k].sent || nextID < MAX_ID) && bodyEnd + Reserve(ops[k].dev.community) <= buffer.Length
                 && RequestBody(ops[k], lim) == Some(buffer[..bodyEnd])
      modifies this`pending, this`ops, this`nextID, this`wire, this`completions, table, buffer
      ensures Valid()
      ensures var w, op := old(View()), old(ops[k]);
              var tx, w1 := Transmitting(op, w.nextId, lim), Logged(w, k, op, t, lim);
              View() == if refused then FinishOp(w, k, op, CapacityExceeded, env.done, lim)
                        else if !env.transport then FinishOp(w1, k, tx, TransportError, env.done, lim)
                        else Put(w1, k, Transmitted(tx, now))
    {
      hide Tied, Shaped, SNMPOperation.Valid, RequestBody, Packed, FinishOp, Transmitting, Logged, Transmitted,
        Packable, Put;
      if refused {
        Finish(k, CapacityExceeded, env.done);
      } else {
        Transmit(k, bodyEnd, now, t, env);
      }
    }

    /** send: pack, check, identify, envelop and hand over; every refusal ends the operation. */
    method Send(k: nat, now: uint32, ghost t: nat, env: SlotEnv)
      requires Valid() && k < |table| && Packable(ops[k]) && now == t % TWO32 && nextID <= MAX_ID
      modifies this`pending, this`ops, this`nextID, this`wire, this`completions, table, buffer
      ensures Valid() && View() == SendOp(old(View()), k, old(ops[k]), t, env, lim)
    {
      hide Tied, SNMPOperation.Valid, RequestBody, Packed, FinishOp, RequestOctets, Transmitting, Logged, Transmitted,
        SendOp,
        Packable, Put, Entry;
      SendTerms(k);
      ghost var op, w := ops[k], View();
      PackableBatch(op, lim);
      SendSplit(w, k, op, t, env, lim);
      var writes, count, repeated := table[k].mode == SET, |table[k].cells|, table[k].sent;
      var n, end := Pack(table[k]);
      hide Shaped;
      SetBatch(k, n);
      HandOver(k, (writes && n != count) || n == 0 || (!repeated && nextID == MAX_ID), end, now, t, env);
    }

    lemma {:induction false} SendTerms(k: nat)
      requires Valid() && k < |table|
      ensures |ops| == |table| && table[k].Valid() && table[k].state == ops[k] && buffer.Length == lim.packet
      ensures var op, o := table[k], ops[k];
              op.mode == o.mode && op.cells == o.cells && op.sent == o.sent && op.dev == o.dev
    {}

    // ----- receiving -----

    /** A reply ends the operation. */
    method FinishNoted(k: nat, outcome: Status, done: seq<Act>, ghost w: World)
      requires Valid() && k < |table| && k < |w.ops| && View() == Put(w, k, ops[k])
      modifies this`pending, this`ops, this`completions, table
      ensures Valid() && View() == FinishOp(w, k, old(ops[k]), outcome, done, lim)
    {
      hide Shaped, Tied, FinishOp;
      FinishOverwrites(w, k, ops[k], ops[k], outcome, done, lim);
      Finish(k, outcome, done);
    }

    /** A reply makes the operation ask again. */
    method AskNoted(k: nat, kind: byte, limit: nat, ghost w: World)
      requires Valid() && k < |table| && k < |w.ops| && View() == Put(w, k, ops[k])
      modifies this`ops, table[k]
      ensures Valid() && View() == Put(w, k, Again(old(ops[k]).(mode := kind, batchLimit := limit)))
    {
      hide Shaped, Tied;
      AskAgain(k, kind, limit);
    }

    /** The single value of a v1 batch is marked missing, and the next one is due. */
    method MarkMissing(k: nat) returns (last: bool, count: nat)
      requires Valid() && k < |table| && ops[k].offset < |ops[k].cells|
      modifies this`ops, table[k]
      ensures Valid() && View() == Put(old(View()), k, MissingMarked(old(ops[k])))
      ensures count == |old(ops[k]).cells| && last == (old(ops[k]).offset + 1 == count)
    {
      At(k);
      var offset, cells := table[k].offset, table[k].cells;
      hide Shaped, Tied, SNMPOperation.Valid;
      count, last := |cells|, offset + 1 == |cells|;
      cells := cells[offset := cells[offset].(status := Missing)];
      Store(k, cells, offset + 1);
    }

    /** SNMPv1 noSuchName on a read. */
    method MissOne(k: nat, done: seq<Act>)
      requires Valid() && k < |table| && ops[k].offset < |ops[k].cells|
      modifies this`pending, this`ops, this`completions, table
      ensures Valid() && View() == Resolve(old(View()), k, NoSuchName(old(ops[k])), done, lim)
    {
      hide Shaped, Tied, SNMPOperation.Valid, FinishOp, NoSuchName, MissingMarked, Again, Put;
      Terms(k);
      ghost var w, op := View(), ops[k];
      NoSuchNameIs(op);
      PutSame(w, k);
      var batch, mode, limit := table[k].batch, table[k].mode, table[k].batchLimit;
      if batch > 1 {
        AskNoted(k, mode, 1, w);
        return;
      }
      MissingFacts(op);
      var last, count := MarkMissing(k);
      if last {
        FinishNoted(k, if count == 1 then Missing else Partial, done, w);
      } else {
        AskNoted(k, mode, limit, w);
      }
    }

    /** Everything that an error status can mean; false when the bindings are to be looked at. */
    method HandleError(k: nat, m: Message, done: seq<Act>) returns (handled: bool)
      requires Valid() && k < |table| && (ops[k].walking || ops[k].offset < |ops[k].cells|)
      modifies this`pending, this`ops, this`completions, table
      ensures Valid() && handled == !ReplyHead(old(ops[k]), m).Bindings?
      ensures View() == Resolve(old(View()), k, ReplyHead(old(ops[k]), m), done, lim)
    {
      ghost var w := View();
      At(k);
      var walking, mode, version, batch, limit :=
        table[k].walking, table[k].mode, table[k].dev.version, table[k].batch, table[k].batchLimit;
      ghost var op := ops[k];
      assert walking == op.walking && mode == op.mode && version == op.dev.version && batch == op.batch;
      assert limit == op.batchLimit;
      hide Shaped, Tied, SNMPOperation.Valid, FinishOp, NoSuchName;
      Note(k, m);
      handled := true;
      if m.errorStatus < 0 || m.errorStatus > 18 || m.errorIndex < 0 {
        FinishNoted(k, ProtocolError, done, w);
      } else if !walking && mode == GET && m.errorStatus == 2 && version == 0 {
        MissOverwrites(w, k, ops[k], done, lim);
        MissOne(k, done);
      } else if m.errorStatus == 1 && batch > 1 && mode != SET {
        AskNoted(k, mode, batch / 2, w);
      } else if walking && m.errorStatus == 2 && version == 0 {
        FinishNoted(k, Success, done, w);
      } else if walking && m.errorStatus == 1 && mode == GETBULK {
        AskNoted(k, GETNEXT, limit, w);
      } else if m.errorStatus != 0 {
        FinishNoted(k, if m.errorStatus == 1 then CapacityExceeded else ProtocolError, done, w);
      } else {
        handled := false;
      }
    }

    /** The batch is stored; returns whether it was the last one, and the verdict if so. */
    method StoreBatch(k: nat, m: Message) returns (last: bool, verdict: Status)
      requires Valid() && k < |table| && Repliable(ops[k]) && !ops[k].walking && Complete(ops[k], m)
      modifies this`ops, table[k]
      ensures Valid() && View() == Put(old(View()), k, Stored(old(ops[k]), m, lim))
      ensures last == (old(ops[k]).offset + old(ops[k]).batch == |old(ops[k]).cells|)
      ensures last && |old(ops[k]).cells| > 0 ==> verdict == Verdict(Stored(old(ops[k]), m, lim).cells)
    {
      At(k);
      StoredSize(ops[k], m, lim);
      hide Shaped, Tied, SNMPOperation.Valid, StoredCells, Put, Verdict, Complete;
      var results := table[k].Copy(m.bindings, lim);
      var next := table[k].offset + table[k].batch;
      last := next == |results|;
      Store(k, results, next);
      Results(k);
      verdict := Success;
      if last && results != [] {
        verdict := table[k].Judge();
      }
    }

    lemma {:induction false} Results(k: nat)
      requires Valid() && k < |table|
      ensures |ops| == |table| && table[k].cells == ops[k].cells
    {}

    /** Require a complete, ordered reply, then commit all of it. */
    method CommitReply(k: nat, m: Message, done: seq<Act>)
      requires Valid() && k < |table| && Repliable(ops[k]) && !ops[k].walking
      modifies this`pending, this`ops, this`completions, table
      ensures Valid() && View() == Resolve(old(View()), k, Commit(old(ops[k]), m, lim), done, lim)
    {
      At(k);
      hide Shaped, Tied, SNMPOperation.Valid, FinishOp, Put, Complete, Stored, Verdict, Commit, Again;
      ghost var w, op := View(), ops[k];
      PutSame(w, k);
      CommitIs(op, m, lim);
      var complete := table[k].Answers(m);
      if !complete {
        FinishNoted(k, ProtocolError, done, w);
        return;
      }
      var mode, limit := table[k].mode, table[k].batchLimit;
      var last, verdict := StoreBatch(k, m);
      StoredTerms(op, m, lim);
      AskNoted(k, mode, limit, w);
      if last {
        FinishNoted(k, verdict, done, w);
      }
    }

    // ----- the binding loop of a walk -----

    lemma {:induction false} WalkTerms(k: nat)
      requires Valid() && k < |table|
      ensures |ops| == |table|
      ensures var op, o := table[k], ops[k];
              && op.root == o.root && op.cursor == o.cursor && op.mode == o.mode && op.batchLimit == o.batchLimit
              && op.streaming == o.streaming && op.capacity == o.capacity && op.cells == o.cells && op.id == o.id
              && op.status == o.status
    {}

    /** End of view, order, subtree: what one binding means to the walk. */
    method Classify(k: nat, b: Binding) returns (v: Visit)
      requires Valid() && k < |table| && Canonical(b.name) && Canonical(ops[k].cursor)
      ensures v == VisitBinding(ops[k], b, lim)
    {
      hide Shaped, Tied, SNMPOperation.Valid, CopyValue, Canonical, Compare;
      WalkTerms(k);
      if b.value.Tag() == ENDOFMIBVIEW {
        return Stop(Success);
      }
      var order := CompareOID(b.name, table[k].cursor);
      if order <= 0 {
        return Stop(ProtocolError);
      }
      if !Under(table[k].root, b.name) {
        return Stop(Success);
      }
      var (s, value) := CopyValue(b.value, lim);
      return Deliver(Cell(b.name, value, s, NULLTYPE));
    }

    /** A value for the streaming callback, which may do anything to any operation. */
    method StreamOne(k: nat, cell: Cell, show: Engine.Show, done: seq<Act>) returns (more: bool)
      requires Valid() && k < |table|
      modifies this`pending, this`ops, this`completions, table
      ensures Valid() && (View(), more) == Streamed(old(View()), k, cell, show, done, lim)
    {
      hide Shaped, Tied, SNMPOperation.Valid, FinishOp, Put, Engine.RunActs, Shown, Advanced;
      WalkTerms(k);
      var generation := table[k].id;
      Show(k, cell);
      RunActs(show.acts);
      WalkTerms(k);
      if !show.accept {
        Finish(k, CapacityExceeded, done);
        return false;
      }
      if !table[k].Pending() || table[k].id != generation {
        return false;
      }
      Advance(k, cell);
      return true;
    }

    /** A value for the result array. */
    method CollectOne(k: nat, cell: Cell, done: seq<Act>) returns (more: bool)
      requires Valid() && k < |table|
      modifies this`pending, this`ops, this`completions, table
      ensures Valid() && (View(), more) == Gathered(old(View()), k, cell, done, lim)
    {
      hide Shaped, Tied, SNMPOperation.Valid, FinishOp, Put, Collected;
      WalkTerms(k);
      if |table[k].cells| == table[k].capacity {
        Finish(k, CapacityExceeded, done);
        return false;
      }
      Collect(k, cell);
      return true;
    }

    method VisitOne(k: nat, b: Binding, show: Engine.Show, done: seq<Act>) returns (more: bool)
      requires Valid() && k < |table| && Canonical(b.name) && Canonical(ops[k].cursor)
      modifies this`pending, this`ops, this`completions, table
      ensures Valid() && (View(), more) == TookBinding(old(View()), k, b, show, done, lim)
    {
      hide Shaped, Tied, SNMPOperation.Valid, FinishOp, Put, VisitBinding, Streamed, Gathered, Canonical;
      WalkTerms(k);
      var v := Classify(k, b);
      match v
      case Stop(outcome) =>
        Finish(k, outcome, done);
        more := false;
      case Deliver(cell) =>
        if table[k].streaming {
          more := StreamOne(k, cell, show, done);
        } else {
          more := CollectOne(k, cell, done);
        }
    }

    /** After the last binding: go on, or fall back from an empty bulk reply, or give up. */
    method EndReply(k: nat, any: bool, done: seq<Act>)
      requires Valid() && k < |table|
      modifies this`pending, this`ops, this`completions, table
      ensures Valid() && View() == Resolve(old(View()), k, WalkEnd(old(ops[k]), any), done, lim)
    {
      hide Shaped, Tied, SNMPOperation.Valid, FinishOp, Put, Again;
      WalkTerms(k);
      ghost var w, op := View(), ops[k];
      PutSame(w, k);
      SameTerms(op);
      if any {
        AskNoted(k, table[k].mode, table[k].batchLimit, w);
      } else if table[k].mode == GETBULK {
        AskNoted(k, GETNEXT, table[k].batchLimit, w);
      } else {
        FinishNoted(k, ProtocolError, done, w);
      }
    }

    /** The bindings of a walk's reply, in order, with user code between them. */
    method ReadWalk(k: nat, bs: seq<Binding>, shows: seq<Engine.Show>, done: seq<Act>)
      requires Valid() && k < |table| && NamedBindings(bs, lim) && Canonical(ops[k].cursor)
      modifies this`pending, this`ops, this`completions, table
      ensures Valid() && View() == WalkLoop(old(View()), k, bs, false, shows, done, lim)
    {
      hide Shaped, Tied, SNMPOperation.Valid, WalkLoop, Canonical, TookBinding, WalkEnd, Resolve;
      WalkTerms(k);
      ghost var goal := WalkLoop(View(), k, bs, false, shows, done, lim);
      var any, later := false, shows;
      var i := 0;
      assert bs[0..] == bs;
      while i < |bs|
        invariant 0 <= i <= |bs| && Valid() && |ops| == |table| && Canonical(ops[k].cursor)
        invariant goal == WalkLoop(View(), k, bs[i..], any, later, done, lim)
      {
        assert bs[i..][0] == bs[i] && bs[i..][1..] == bs[i + 1..];
        WalkLoopStep(View(), k, bs[i..], any, later, done, lim);
        VisitedCursor(View(), k, bs[i], FirstShow(later), done, lim);
        WalkTerms(k);
        var streaming := table[k].streaming;
        var more := VisitOne(k, bs[i], FirstShow(later), done);
        if !more {
          return;
        }
        if streaming {
          later := LaterShows(later);
        }
        any := true;
        i := i + 1;
      }
      WalkLoopOver(View(), k, bs[i..], any, later, done, lim);
      EndReply(k, any, done);
    }

    // ----- receiving -----

    /** A reply for operation k: errors first, then the bindings. */
    method ReplyTo(k: nat, m: Message, env: ReplyEnv)
      requires Valid() && k < |table| && Repliable(ops[k])
      requires ops[k].walking ==> NamedBindings(m.bindings, lim) && Canonical(ops[k].cursor)
      modifies this`pending, this`ops, this`completions, table
      ensures Valid() && View() == Reply(old(View()), k, m, env, lim)
    {
      hide Shaped, Tied, SNMPOperation.Valid, FinishOp, Put, ReplyHead, Resolve, WalkLoop, Commit, Canonical,
        NamedBindings;
      At(k);
      ghost var w, op := View(), ops[k];
      HeadKeepsShape(op, m);
      var walking := table[k].walking;
      var handled := HandleError(k, m, env.done);
      if handled {
        return;
      }
      ghost var noted := ReplyHead(op, m).op;
      ResolveBindings(w, k, noted, env.done, lim);
      if walking {
        ReadWalk(k, m.bindings, env.shows, env.done);
      } else {
        CommitOverwrites(w, k, noted, m, env.done, lim);
        CommitReply(k, m, env.done);
      }
    }

    /** The scan for the operation that a response belongs to. */
    method Find(m: Message, peer: nat, port: nat) returns (slot: nat)
      requires Valid()
      ensures slot == FindMatch(View(), 0, m, peer, port)
    {
      hide SNMPOperation.Valid;
      slot := 0;
      while slot < |pending|
        invariant 0 <= slot <= |pending|
        invariant FindMatch(View(), 0, m, peer, port) == FindMatch(View(), slot, m, peer, port)
      {
        if pending[slot] != FREE {
          At(pending[slot]);
          var op := table[pending[slot]];
          if op.sent && op.id == m.id && peer == op.dev.address && port == op.dev.port
             && m.version == op.dev.version + 1 && m.community == op.dev.community {
            return;
          }
        }
        slot := slot + 1;
      }
    }

    /** receive, for a response that parsed. */
    method Accept(m: Message, peer: nat, port: nat, env: ReplyEnv)
      requires Valid() && Inv(View(), lim) && Sendable(m, lim)
      modifies this`pending, this`ops, this`completions, table
      ensures Valid() && View() == Receive(old(View()), Packet(m, peer, port), env, lim)
    {
      hide Tied, SNMPOperation.Valid, Reply, Canonical, Inv, Matches, Repliable, Sendable, NamedBindings;
      var slot := Find(m, peer, port);
      if slot < |pending| {
        Acceptable(View(), slot, m, peer, port, lim);
        ReplyTo(pending[slot], m, env);
      }
    }

    /** One arriving datagram: it must be one complete message, a response, and match. */
    method Take(a: Arrival, env: ReplyEnv)
      requires Valid() && Inv(View(), lim)
      modifies this`pending, this`ops, this`completions, table, buffer
      ensures Valid()
      ensures var p := Incoming(a, lim);
              View() == if p.Some? then Receive(old(View()), p.value, env, lim) else old(View())
    {
      hide Tied, Shaped, SNMPOperation.Valid, Inv, Receive, Messages.ParseFrom, ReadHeader, Sendable;
      var size := |a.octets|;
      if size == 0 {
        return;
      }
      BufferSize();
      if size > buffer.Length {
        return;
      }
      WriteOctets(buffer, 0, a.octets);
      assert buffer[0..0 + size] == a.octets && buffer[..size] == a.octets;
      var h := ReadBERHeader(buffer, 0, size);
      if h.None? || h.value.size + h.value.length != size {
        return;
      }
      var response := new SNMPGetResponse();
      var parsed := response.ParseFrom(buffer, size, lim);
      if !parsed || response.requestType != RESPONSE {
        return;
      }
      var m := response.Fields();
      AcceptedIsSendable(a.octets, m, lim);
      Accept(m, a.peer, a.port, env);
    }

    lemma {:induction false} BufferSize()
      requires Valid()
      ensures buffer.Length == lim.packet && |ops| == |table|
    {}

    // ----- the clock -----

    lemma {:induction false} Clocks(k: nat)
      requires Valid() && k < |table|
      ensures |ops| == |table|
      ensures var op, o := table[k], ops[k];
              && op.walking == o.walking && op.mode == o.mode && op.batch == o.batch && op.batchLimit == o.batchLimit
              && op.id == o.id && op.attempts == o.attempts && op.sent == o.sent && op.sentAt == o.sentAt
              && op.startedAt == o.startedAt && op.dev == o.dev
    {}

    /** A request that has not been sent yet. */
    method SendFirst(k: nat, now: uint32, ghost t: nat, env: SlotEnv)
      requires Valid() && k < |table| && now == t % TWO32 && Packable(ops[k]) && nextID <= MAX_ID
      modifies this`pending, this`ops, this`nextID, this`wire, this`completions, table, buffer
      ensures Valid()
      ensures var w, op := old(View()), old(ops[k]);
              View() == SendOp(w, k, if op.id == 0 then op.(startedAt := now, first := t) else op, t, env, lim)
    {
      hide Tied, Shaped, SNMPOperation.Valid, Put, SendOp, Packable;
      Clocks(k);
      ghost var w, op := View(), ops[k];
      PutSame(w, k);
      if table[k].id == 0 {
        Stamp(k, now, t);
      }
      StillPackable(op, ops[k]);
      SendOverwrites(w, k, ops[k], t, env, lim);
      Send(k, now, t, env);
    }

    /** A request whose reply is overdue and may be repeated. */
    method SendAgain(k: nat, now: uint32, ghost t: nat, env: SlotEnv)
      requires Valid() && k < |table| && now == t % TWO32 && Packable(ops[k]) && nextID <= MAX_ID
      modifies this`pending, this`ops, this`nextID, this`wire, this`completions, table, buffer
      ensures Valid()
      ensures var w, op := old(View()), old(ops[k]);
              View() == SendOp(w, k, op.(attempts := op.attempts + 1), t, env, lim)
    {
      hide Tied, Shaped, SNMPOperation.Valid, Put, SendOp, Packable;
      Clocks(k);
      ghost var w, op := View(), ops[k];
      CountAttempt(k);
      StillPackable(op, ops[k]);
      SendOverwrites(w, k, ops[k], t, env, lim);
      Send(k, now, t, env);
    }

    /** One pending operation: its deadline, its next transmission, or its timeout. */
    method Tick(k: nat, now: uint32, ghost t: nat, env: SlotEnv)
      requires Valid() && k < |table| && now == t % TWO32
      requires Inv(View(), lim) && AllReady(View()) && ops[k].Pending()
      modifies this`pending, this`ops, this`nextID, this`wire, this`completions, table, buffer
      ensures Valid() && View() == TickSlot(old(View()), k, t, env, lim)
    {
      hide Tied, Shaped, SNMPOperation.Valid, Inv, AllReady, Put, FinishOp, SendOp, Packable, Again, Elapsed;
      Clocks(k);
      ghost var w, op := View(), ops[k];
      PutSame(w, k);
      InvPackable(w, k, lim);
      SameTerms(op);
      var o := table[k];
      if o.walking && o.id != 0 && Elapsed(now, o.startedAt) >= WALK_DEADLINE {
        Finish(k, Timeout, env.done);
      } else if !o.sent {
        SendFirst(k, now, t, env);
      } else if Elapsed(now, o.sentAt) >= o.dev.timeoutMs {
        if o.mode != SET && o.attempts < o.dev.retries {
          SendAgain(k, now, t, env);
        } else if o.walking && o.mode == GETBULK {
          AskNoted(k, GETNEXT, o.batchLimit, w);
        } else if o.mode == GET && o.batch > 1 {
          AskNoted(k, o.mode, o.batch / 2, w);
        } else {
          Finish(k, Timeout, env.done);
        }
      }
    }

    /** Every slot in turn; earlier visits may have changed later slots. */
    method TickAll(now: uint32, ghost t: nat, envs: seq<SlotEnv>)
      requires Valid() && now == t % TWO32 && Inv(View(), lim) && AllReady(View())
      modifies this`pending, this`ops, this`nextID, this`wire, this`completions, table, buffer
      ensures Valid() && View() == TickSlots(old(View()), 0, t, envs, lim)
    {
      hide Tied, Shaped, SNMPOperation.Valid, Inv, AllReady, TickSlot, Grown, SlotsOk;
      BufferSize();
      ghost var goal := TickSlots(View(), 0, t, envs, lim);
      var i := 0;
      while i < |pending|
        invariant 0 <= i <= |pending| && Valid() && Inv(View(), lim) && AllReady(View()) && |ops| == |table|
        invariant goal == TickSlots(View(), i, t, envs, lim)
      {
        VisitSlotKeeps(View(), i, t, EnvAt(envs, i), lim);
        InvSlots(View(), lim);
        SlotNames(i);
        if pending[i] != FREE {
          OccupiedPending(View(), i);
          Tick(pending[i], now, t, EnvAt(envs, i));
          BufferSize();
        }
        i := i + 1;
      }
    }

    lemma {:induction false} SlotNames(i: nat)
      requires Valid() && i < |pending|
      ensures pending[i] == FREE || 0 <= pending[i] < |table|
    {}

    /** loop: take at most one datagram, then visit every slot. */
    method Loop(arrival: Option<Arrival>, now: uint32, ghost t: nat, reply: ReplyEnv, envs: seq<SlotEnv>)
      requires Valid() && now == t % TWO32 && Inv(View(), lim) && AllReady(View())
      modifies this, table, buffer
      ensures Valid() && Inv(View(), lim) && AllReady(View())
      ensures var p := if arrival.Some? then Incoming(arrival.value, lim) else None;
              View() == LoopStep(old(View()), t, p, reply, envs, lim)
    {
      hide Tied, Shaped, SNMPOperation.Valid, Inv, AllReady, TickSlots, Receive, Grown, Tame, Incoming, Sendable;
      ghost var w := View();
      ghost var p := if arrival.Some? then Incoming(arrival.value, lim) else None;
      if arrival.Some? {
        IncomingParsed(arrival.value, lim);
      }
      LoopStepKeeps(w, t, p, reply, envs, lim);
      if !begun {
        return;
      }
      if arrival.Some? {
        if p.Some? {
          ReceiveKeeps(w, p.value, reply, lim);
        }
        Take(arrival.value, reply);
      }
      TickAll(now, t, envs);
      Remember(t);
    }

    ghost method Remember(t: nat)
      requires Valid()
      modifies this`clock
      ensures Valid() && View() == old(View()).(clock := t)
    {
      hide SNMPOperation.Valid;
      clock := t;
    }
  }

  /** Opening the transport disturbs nothing. */
  lemma {:induction false} BegunKeeps(w: World, lim: Limits)
    ensures Inv(w, lim) && AllReady(w) ==> Inv(w.(begun := true), lim) && AllReady(w.(begun := true))
  {
    hide OpInv, Ended, Ready, InFlight, SameRequest;
    if Inv(w, lim) && AllReady(w) {
      var r := w.(begun := true);
      assert SlotsOk(r) && IdsOk(r) && OpsOk(r, lim) && WireOk(r, lim) && CompletionsOk(r.completions, lim);
    }
  }

  /** A new operation, and whatever configuration makes of it, is one that a client may start from. */
  lemma {:induction false} NewIsFresh(op: SNMPOperation, lim: Limits)
    requires op.Valid() && op.cells == [] && op.root == [] && op.status == NotStarted && op.id == 0
    requires !op.state.settled && op.state.sends == 0 && op.state.ids == 0
    requires ValidDevice(op.dev, lim) && (!op.walking ==> op.mode == GET || op.mode == SET)
    ensures Fresh(op.state, lim)
  {
    hide ValidDevice;
  }

  lemma {:induction false} ConfiguredStaysFresh(op: Op, text: Text, expected: byte, value: Option<Value>, lim: Limits)
    requires Fresh(op, lim)
    ensures Fresh(Operations.Add(op, text, expected, value, lim).1, lim)
    ensures Fresh(Operations.SetRoot(op, text, lim).1, lim)
  {
    AddKeeps(op, text, expected, value, lim);
    AddFrame(op, text, expected, value, lim);
    AddUnsettles(op, text, expected, value, lim);
    SetRootKeeps(op, text, lim);
    RootAccepted(op, text, lim);
    hide Shape, Operations.Add, Operations.SetRoot, CanonicalForm;
  }

  lemma {:induction false} IncomingParsed(a: Arrival, lim: Limits)
    ensures Parsed(Incoming(a, lim), lim)
  {
    hide Messages.ParseFrom, ReadHeader, Sendable;
    if Incoming(a, lim).Some? {
      AcceptedIsSendable(a.octets, Messages.ParseFrom(a.octets, lim).value, lim);
    }
  }

  lemma {:induction false} BusyPackable(op: Op, lim: Limits)
    requires OpInv(op, lim) && op.Pending() && op.id <= MAX_ID
    ensures SNMPClient.Packable(op) && (op.sent ==> op.id != 0)
  {
    hide AllBacked, SettledUpTo, Chain, NamesOf, Log2, MaxIds, Canonical, NamedCells, TrafficInv, DoneInv;
    OffsetBound(op, lim);
  }

  lemma {:induction false} OffsetBound(op: Op, lim: Limits)
    requires OpInv(op, lim) && op.Pending()
    ensures op.offset <= |op.cells|
  {
    hide AllBacked, SettledUpTo, Chain, NamesOf, Log2, MaxIds, Canonical, NamedCells, TrafficInv, DoneInv, Shape;
  }

  lemma {:induction false} InvPackable(w: World, k: nat, lim: Limits)
    requires Inv(w, lim) && k < |w.ops| && w.ops[k].Pending()
    ensures w.nextId <= MAX_ID && SNMPClient.Packable(w.ops[k]) && (w.ops[k].sent ==> w.ops[k].id != 0)
  {
    InvOp(w, k, lim);
    InvIds(w, k, lim);
    hide Inv, OpInv, SNMPClient.Packable;
    BusyPackable(w.ops[k], lim);
  }

  lemma {:induction false} InvIds(w: World, k: nat, lim: Limits)
    requires Inv(w, lim) && k < |w.ops|
    ensures w.nextId <= MAX_ID && w.ops[k].id <= MAX_ID
  {
    hide SlotsOk, OpsOk, WireOk;
  }

  /** What a tick changes does not matter for packing. */
  lemma {:induction false} StillPackable(op: Op, o: Op)
    requires SNMPClient.Packable(op)
    requires o == op.(attempts := o.attempts, startedAt := o.startedAt, first := o.first)
    ensures SNMPClient.Packable(o)
  {}

  lemma {:induction false} SendOverwrites(w: World, k: nat, op: Op, t: nat, env: SlotEnv, lim: Limits)
    requires k < |w.ops|
    ensures SendOp(Put(w, k, op), k, op, t, env, lim) == SendOp(w, k, op, t, env, lim)
  {
    hide Packed, Transmitted, FinishOp, SendOp, Entry;
    SendOpIs(w, k, op, t, env, lim);
    SendOpIs(Put(w, k, op), k, op, t, env, lim);
    FinishOverwrites(w, k, op, op.(batch := Packed(op, lim)), CapacityExceeded, env.done, lim);
    FinishOverwrites(Logged(w, k, op, t, lim), k, op, Transmitting(op, w.nextId, lim), TransportError, env.done, lim);
    assert Logged(Put(w, k, op), k, op, t, lim) == Put(Logged(w, k, op, t, lim), k, op);
  }

  lemma {:induction false} HeadKeepsShape(op: Op, m: Message)
    requires Repliable(op)
    ensures var o := ReplyHead(op, m).op;
            ReplyHead(op, m).Bindings? ==> Repliable(o) && o.walking == op.walking && o.cursor == op.cursor
  {}

  lemma {:induction false} ResolveBindings(w: World, k: nat, op: Op, done: seq<Act>, lim: Limits)
    requires k < |w.ops|
    ensures Resolve(w, k, Bindings(op), done, lim) == Put(w, k, op)
  {}

  lemma {:induction false} CommitOverwrites(w: World, k: nat, op: Op, m: Message, done: seq<Act>, lim: Limits)
    requires k < |w.ops| && Repliable(op) && !op.walking
    ensures Resolve(Put(w, k, op), k, Commit(op, m, lim), done, lim) == Resolve(w, k, Commit(op, m, lim), done, lim)
  {
    hide FinishOp, Commit;
    match Commit(op, m, lim)
    case Finish(o, outcome) => FinishOverwrites(w, k, op, o, outcome, done, lim);
    case Continue(o) =>
    case Bindings(o) =>
  }

  /** The invariant makes every matched operation fit for its reply. */
  lemma {:induction false} Acceptable(w: World, slot: nat, m: Message, peer: nat, port: nat, lim: Limits)
    requires Inv(w, lim) && Sendable(m, lim) && slot == FindMatch(w, 0, m, peer, port) < |w.slots|
    ensures var k := w.slots[slot];
            && 0 <= k < |w.ops| && Repliable(w.ops[k])
            && (w.ops[k].walking ==> NamedBindings(m.bindings, lim) && Canonical(w.ops[k].cursor))
  {
    hide Inv, Repliable, NamedBindings, Canonical, SlotsOk, Sendable;
    InvSlots(w, lim);
    OccupiedPending(w, slot);
    var k := w.slots[slot];
    SlotExpects(w, k, lim);
    MessageNames(m, lim);
    InvOp(w, k, lim);
    if w.ops[k].walking {
      CursorCanonical(w.ops[k], lim);
    }
  }

  // ----- one binding of a walk, as a function -----

  function Streamed(w: World, k: nat, cell: Cell, show: Engine.Show, done: seq<Act>, lim: Limits): (World, bool)
    requires k < |w.ops|
  {
    var op := w.ops[k];
    var w1 := Engine.RunActs(Put(w, k, Shown(op, cell)), show.acts, lim);
    if !show.accept then (FinishOp(w1, k, w1.ops[k], CapacityExceeded, done, lim), false)
    else if !w1.ops[k].Pending() || w1.ops[k].id != op.id then (w1, false)
    else (Put(w1, k, Advanced(w1.ops[k], cell)), true)
  }

  function Gathered(w: World, k: nat, cell: Cell, done: seq<Act>, lim: Limits): (World, bool)
    requires k < |w.ops|
  {
    var op := w.ops[k];
    if |op.cells| == op.capacity then (FinishOp(w, k, op, CapacityExceeded, done, lim), false)
    else (Put(w, k, Collected(op, cell)), true)
  }

  function TookBinding(w: World, k: nat, b: Binding, show: Engine.Show, done: seq<Act>, lim: Limits): (World, bool)
    requires k < |w.ops|
  {
    match VisitBinding(w.ops[k], b, lim)
    case Stop(outcome) => (FinishOp(w, k, w.ops[k], outcome, done, lim), false)
    case Deliver(cell) =>
      if w.ops[k].streaming then Streamed(w, k, cell, show, done, lim) else Gathered(w, k, cell, done, lim)
  }

  lemma {:induction false} VisitedCursor(w: World, k: nat, b: Binding, show: Engine.Show, done: seq<Act>, lim: Limits)
    requires k < |w.ops|
    ensures var (r, more) := TookBinding(w, k, b, show, done, lim);
            |r.ops| == |w.ops| && (more ==> r.ops[k].cursor == b.name)
  {
    hide FinishOp, Engine.RunActs, VisitBinding, Put, Shown;
    DeliveredName(w.ops[k], b, lim);
  }

  lemma {:induction false} DeliveredName(op: Op, b: Binding, lim: Limits)
    ensures VisitBinding(op, b, lim).Deliver? ==> VisitBinding(op, b, lim).cell.oid == b.name
  {
    hide CopyValue;
  }

  /** The loop of the specification, one binding at a time. */
  lemma {:induction false} WalkLoopStep(w: World, k: nat, bs: seq<Binding>, any: bool, shows: seq<Engine.Show>,
                                        done: seq<Act>, lim: Limits)
    requires k < |w.ops| && bs != []
    ensures var (next, more) := TookBinding(w, k, bs[0], FirstShow(shows), done, lim);
            |next.ops| == |w.ops| &&
            WalkLoop(w, k, bs, any, shows, done, lim) ==
            if !more then next
            else if w.ops[k].streaming then WalkLoop(next, k, bs[1..], true, LaterShows(shows), done, lim)
            else WalkLoop(next, k, bs[1..], true, shows, done, lim)
  {
    hide FinishOp, Engine.RunActs, VisitBinding, WalkLoop;
    WalkLoopOver(w, k, bs, any, shows, done, lim);
    if VisitBinding(w.ops[k], bs[0], lim).Deliver? {
      if w.ops[k].streaming {
        WalkLoopShown(w, k, bs, any, shows, done, lim);
      } else {
        WalkLoopCollected(w, k, bs, any, shows, done, lim);
      }
    }
  }

  lemma {:induction false} SameTerms(op: Op)
    ensures op.(mode := op.mode, batchLimit := op.batchLimit) == op
    ensures op.(mode := GETNEXT, batchLimit := op.batchLimit) == op.(mode := GETNEXT)
  {}

  /** The operation with a complete reply stored. */
  function Stored(op: Op, m: Message, lim: Limits): Op
    requires op.offset + op.batch <= |op.cells| && |m.bindings| == op.batch
  {
    op.(cells := StoredCells(op.cells, op.offset, op.batch, m.bindings, lim), offset := op.offset + op.batch)
  }

  lemma {:induction false} StoredSize(op: Op, m: Message, lim: Limits)
    requires op.offset + op.batch <= |op.cells| && |m.bindings| == op.batch
    ensures |StoredCells(op.cells, op.offset, op.batch, m.bindings, lim)| == |op.cells|
  {
    hide CommitCell;
  }

  lemma {:induction false} StoredTerms(op: Op, m: Message, lim: Limits)
    requires op.offset + op.batch <= |op.cells| && |m.bindings| == op.batch
    ensures Stored(op, m, lim).mode == op.mode && Stored(op, m, lim).batchLimit == op.batchLimit
    ensures Again(Stored(op, m, lim).(mode := op.mode, batchLimit := op.batchLimit)) == Again(Stored(op, m, lim))
  {
    hide StoredCells;
  }

  lemma {:induction false} CommitIs(op: Op, m: Message, lim: Limits)
    requires Repliable(op) && !op.walking
    ensures !Complete(op, m) ==> Commit(op, m, lim) == Finish(op, ProtocolError)
    ensures Complete(op, m) ==>
              var next := Again(Stored(op, m, lim));
              && |Stored(op, m, lim).cells| == |op.cells| > 0
              && Commit(op, m, lim) ==
                 if op.offset + op.batch == |op.cells| then Finish(next, Verdict(Stored(op, m, lim).cells))
                 else Continue(next)
  {
    hide CommitCells, Verdict;
    if Complete(op, m) {
      StoredSize(op, m, lim);
    }
  }

  lemma {:induction false} PutSame(w: World, k: nat)
    requires k < |w.ops|
    ensures Put(w, k, w.ops[k]) == w
  {}

  function MissingMarked(op: Op): Op
    requires op.offset < |op.cells|
  {
    op.(cells := op.cells[op.offset := op.cells[op.offset].(status := Missing)], offset := op.offset + 1)
  }

  lemma {:induction false} MissingFacts(op: Op)
    requires op.offset < |op.cells|
    ensures MissingMarked(op).mode == op.mode && MissingMarked(op).batchLimit == op.batchLimit
  {}

  lemma {:induction false} NoSuchNameIs(op: Op)
    requires op.offset < |op.cells|
    ensures var next := MissingMarked(op);
            NoSuchName(op) ==
            if op.batch > 1 then Continue(Again(op.(mode := op.mode, batchLimit := 1)))
            else if op.offset + 1 == |op.cells| then Finish(next, if |op.cells| == 1 then Missing else Partial)
            else Continue(Again(next.(mode := op.mode, batchLimit := op.batchLimit)))
  {}

  lemma {:induction false} MissOverwrites(w: World, k: nat, op: Op, done: seq<Act>, lim: Limits)
    requires k < |w.ops| && op.offset < |op.cells|
    ensures Resolve(Put(w, k, op), k, NoSuchName(op), done, lim) == Resolve(w, k, NoSuchName(op), done, lim)
  {
    hide FinishOp, NoSuchName;
    match NoSuchName(op)
    case Finish(o, outcome) => FinishOverwrites(w, k, op, o, outcome, done, lim);
    case Continue(o) =>
    case Bindings(o) =>
  }

  lemma {:induction false} PackableBatch(op: Op, lim: Limits)
    requires SNMPClient.Packable(op)
    ensures SNMPClient.Packable(op.(batch := Packed(op, lim))) && (op.walking ==> op.mode != SET)
  {
    hide Packed;
  }

  lemma {:induction false} LoggedPut(w: World, k: nat, op: Op, t: nat, lim: Limits)
    requires k < |w.ops|
    ensures var packed := op.(batch := Packed(op, lim));
            && Packed(packed, lim) == Packed(op, lim)
            && Transmitting(packed, w.nextId, lim) == Transmitting(op, w.nextId, lim)
            && Logged(Put(w, k, packed), k, packed, t, lim) == Put(Logged(w, k, op, t, lim), k, packed)
  {
    hide Packed, Entry;
    PackedIgnores(op, op.(batch := Packed(op, lim)), lim);
  }

  /** Packing first and transmitting then is what the specification does in one step. */
  lemma {:induction false} SendSplit(w: World, k: nat, op: Op, t: nat, env: SlotEnv, lim: Limits)
    requires k < |w.ops|
    ensures var packed := op.(batch := Packed(op, lim));
            var w0 := Put(w, k, packed);
            var tx, w1 := Transmitting(packed, w0.nextId, lim), Logged(w0, k, packed, t, lim);
            && Packed(packed, lim) == packed.batch
            && SendOp(w, k, op, t, env, lim) ==
               if (op.mode == SET && !op.walking && packed.batch != |op.cells|) || packed.batch == 0
                  || (!op.sent && w.nextId >= MAX_ID)
               then FinishOp(w0, k, packed, CapacityExceeded, env.done, lim)
               else if !env.transport then FinishOp(w1, k, tx, TransportError, env.done, lim)
               else Put(w1, k, Transmitted(tx, t % TWO32))
  {
    hide Packed, Logged, Transmitting, Transmitted, FinishOp, SendOp;
    var packed := op.(batch := Packed(op, lim));
    SendOpIs(w, k, op, t, env, lim);
    LoggedPut(w, k, op, t, lim);
    FinishOverwrites(w, k, packed, packed, CapacityExceeded, env.done, lim);
    FinishOverwrites(Logged(w, k, op, t, lim), k, packed, Transmitting(op, w.nextId, lim), TransportError, env.done,
                     lim);
  }

  lemma {:induction false} NothingPacked(op: Op, lim: Limits)
    requires Room(op, lim) <= 0
    ensures Packed(op, lim) == 0
  {}

  lemma {:induction false} WalkPacked(op: Op, lim: Limits)
    requires op.walking && Room(op, lim) > 0 && op.offset <= |op.cells|
    ensures var b := BindingOctets(op.cursor, Some(NullOctets()), lim);
            && RequestBody(op.(batch := 1), lim) == b
            && Packed(op, lim) == if b.Some? && |b.value| <= Room(op, lim) then 1 else 0
  {}

  lemma {:induction false} BatchPacked(op: Op, n: nat, lim: Limits)
    requires !op.walking && op.offset <= |op.cells| && Room(op, lim) > 0
    requires n == Fill(op.cells, op.mode, op.offset, 0, 0, op.batchLimit, Room(op, lim), lim)
    ensures && Packed(op, lim) == n
            && RequestBody(op.(batch := n), lim) == Body(op.cells[op.offset..op.offset + n], op.mode, lim)
  {
    hide Fill, Body;
  }

  lemma {:induction false} IdentifiedFacts(op: Op, nextId: nat, lim: Limits)
    ensures var tx := Identified(op, nextId);
            && RequestBody(tx, lim) == RequestBody(op, lim) && tx.dev == op.dev && tx.walking == op.walking
            && tx.mode == op.mode
            && tx.offset == op.offset && tx.cells == op.cells && tx.sent == op.sent
            && tx.id == if op.sent then op.id else nextId + 1
  {
    hide Body, BindingOctets;
  }

  /** Putting twice is putting once. */
  lemma {:induction false} SentPut(w: World, k: nat, op: Op, t: nat, now: uint32, lim: Limits)
    requires k < |w.ops|
    ensures var tx, w1 := Transmitting(op, w.nextId, lim), Logged(w, k, op, t, lim);
            && |w1.ops| == |w.ops| && Put(w1, k, tx).ops[k] == tx && |Put(w1, k, tx).ops| == |w.ops|
            && Put(Put(w1, k, tx), k, Transmitted(tx, now)) == Put(w1, k, Transmitted(tx, now))
  {
    hide Transmitting, Transmitted, Entry;
  }

  /** Identifying the operation and logging the datagram, one after the other. */
  lemma {:induction false} ComposedWorld(w: World, k: nat, op: Op, t: nat, lim: Limits)
    requires k < |w.ops| && Transmitting(op, w.nextId, lim) == Identified(op, w.nextId)
    ensures var tx := Identified(op, w.nextId);
            var w1 := Put(w, k, tx).(nextId := if op.sent then w.nextId else w.nextId + 1);
            w1.(wire := w1.wire + [Entry(k, tx, t, lim)]) ==
            Put(Logged(w, k, op, t, lim), k, Transmitting(op, w.nextId, lim))
  {
    hide Transmitting, Identified, Entry;
  }

  lemma {:induction false} TransmittingIs(op: Op, nextId: nat, lim: Limits)
    requires op.batch == Packed(op, lim)
    ensures Transmitting(op, nextId, lim) == Identified(op, nextId)
  {
    hide Packed;
  }

  lemma {:induction false} FreeSlotIs(slots: seq<int>, i: nat)
    requires i <= |slots| && (forall j :: 0 <= j < i ==> slots[j] != FREE) && (i < |slots| ==> slots[i] == FREE)
    ensures FreeSlot(slots) == i
    decreases i
  {
    if i > 0 {
      FreeSlotIs(slots[1..], i - 1);
    }
  }
}
