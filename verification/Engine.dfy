/**
 * SNMPClient as a transition system: a table of operations, the slot array, the ID counter and the datagrams
 * sent so far. User code may run inside every step and may start, cancel or configure any operation.
 */
module Engine {
  import opened Bytes
  import opened Messages
  import opened Values
  import opened Operations

  const FREE := -1

  /** A datagram handed to the transport: the request it carries, the true time it left, and how long to wait for it. */
  datatype Sent = Sent(
    op: nat, run: nat, id: nat, octets: seq<byte>,
    walking: bool, mode: byte, version: nat, cursor: Text,
    at: nat, first: nat, timeout: nat)

  /** The end of a run: the operation as its completion handler finds it. */
  datatype Completion = Completion(op: nat, state: Op)

  datatype World = World(
    ops: seq<Op>,
    slots: seq<int>,       // pending_: an operation's number or FREE
    nextId: nat,
    begun: bool,
    clock: nat,            // true time of the last loop call
    wire: seq<Sent>,
    completions: seq<Completion>)

  /** A call that user code can make; cancelling runs the completion handler, which makes further calls. */
  datatype Act =
    | Start(op: nat)
    | Cancel(op: nat, done: seq<Act>)
    | Configure(op: nat, root: Text)
    | AddName(op: nat, name: Text, expected: byte, value: Option<Value>)

  /** One call of a streaming callback: what it does and whether it wants more. */
  datatype Show = Show(acts: seq<Act>, accept: bool)

  /** User code during the handling of one reply. */
  datatype ReplyEnv = ReplyEnv(shows: seq<Show>, done: seq<Act>)

  /** User code and the transport during the visit of one slot. */
  datatype SlotEnv = SlotEnv(transport: bool, done: seq<Act>)

  // ----- slots -----

  /** The first free slot, or the number of slots. */
  function FreeSlot(slots: seq<int>): (i: nat)
    ensures i <= |slots|
    ensures i < |slots| ==> slots[i] == FREE
    ensures i == |slots| ==> FREE !in slots
  {
    if slots == [] then 0 else if slots[0] == FREE then 0 else 1 + FreeSlot(slots[1..])
  }

  function Remove(slots: seq<int>, k: int): (r: seq<int>)
    ensures |r| == |slots|
    ensures forall i :: 0 <= i < |slots| ==> r[i] == if slots[i] == k then FREE else slots[i]
  {
    seq(|slots|, i requires 0 <= i < |slots| => if slots[i] == k then FREE else slots[i])
  }

  // ----- user code, scheduling and completion -----

  /** SNMPClient::schedule. */
  function Schedule(w: World, k: nat): (r: (Status, World))
    requires k < |w.ops|
    ensures |r.1.ops| == |w.ops| && |r.1.slots| == |w.slots|
  {
    var s := Admission(w.ops[k], w.begun);
    if s != Success then (s, w)
    else
      var i := FreeSlot(w.slots);
      if i == |w.slots| then (CapacityExceeded, w)
      else (Success, w.(slots := w.slots[i := k], ops := w.ops[k := Scheduled(w.ops[k])]))
  }

  function Put(w: World, k: nat, op: Op): (r: World)
    requires k < |w.ops|
    ensures |r.ops| == |w.ops| && |r.slots| == |w.slots| && r.ops[k] == op
  {
    w.(ops := w.ops[k := op])
  }

  /** Settle the operation, free its slot and log the completion, before any handler runs. */
  function Release(w: World, k: nat, op: Op, outcome: Status): (r: World)
    requires k < |w.ops|
    ensures |r.ops| == |w.ops| && |r.slots| == |w.slots|
  {
    Put(w, k, Finished(op, outcome))
      .(slots := Remove(w.slots, k), completions := w.completions + [Completion(k, Finished(op, outcome))])
  }

  /** SNMPOperation::finish: release, then the completion handler. */
  function FinishOp(w: World, k: nat, op: Op, outcome: Status, done: seq<Act>, lim: Limits): (r: World)
    requires k < |w.ops|
    ensures |r.ops| == |w.ops| && |r.slots| == |w.slots|
    decreases done, 1
  {
    RunActs(Release(w, k, op, outcome), done, lim)
  }

  function RunAct(w: World, act: Act, lim: Limits): (r: World)
    ensures |r.ops| == |w.ops| && |r.slots| == |w.slots|
    decreases act, 0
  {
    match act
    case Start(k) => if k < |w.ops| then Schedule(w, k).1 else w
    case Cancel(k, done) =>
      if k < |w.ops| && w.ops[k].Pending() then FinishOp(w, k, w.ops[k], Cancelled, done, lim) else w
    case Configure(k, root) =>
      if k < |w.ops| && w.ops[k].walking then Put(w, k, SetRoot(w.ops[k], root, lim).1) else w
    case AddName(k, name, expected, value) =>
      if k < |w.ops| && !w.ops[k].walking then Put(w, k, Add(w.ops[k], name, expected, value, lim).1) else w
  }

  function RunActs(w: World, acts: seq<Act>, lim: Limits): (r: World)
    ensures |r.ops| == |w.ops| && |r.slots| == |w.slots|
    decreases acts, 0
  {
    if acts == [] then w else RunActs(RunAct(w, acts[0], lim), acts[1..], lim)
  }

  // ----- sending -----

  /** The log entry of a transmission. */
  function Entry(k: nat, op: Op, t: nat, lim: Limits): Sent {
    Sent(k, op.run, op.id, RequestOctets(op, lim), op.walking, op.mode, op.dev.version, op.cursor, t, op.first,
         op.dev.timeoutMs)
  }

  /** SNMPClient::send at true time t. */
  function SendOp(w: World, k: nat, op: Op, t: nat, env: SlotEnv, lim: Limits): (r: World)
    requires k < |w.ops|
    ensures |r.ops| == |w.ops| && |r.slots| == |w.slots|
  {
    if !CanSend(op, lim) || (!op.sent && w.nextId >= MAX_ID) then
      FinishOp(w, k, op.(batch := Packed(op, lim)), CapacityExceeded, env.done, lim)
    else
      var tx := Transmitting(op, w.nextId, lim);
      var w1 := w.(nextId := if op.sent then w.nextId else w.nextId + 1, wire := w.wire + [Entry(k, tx, t, lim)]);
      if !env.transport then FinishOp(w1, k, tx, TransportError, env.done, lim)
      else Put(w1, k, Transmitted(tx, t % TWO32))
  }

  // ----- receiving -----

  /** A reply belongs to an operation when the whole expected context agrees, not just the ID. */
  predicate Matches(op: Op, m: Message, peer: nat, port: nat) {
    op.sent && op.id == m.id && peer == op.dev.address && port == op.dev.port
    && m.version == op.dev.version + 1 && m.community == op.dev.community
  }

  /** The first slot from i on whose operation the reply matches, or the number of slots. */
  function FindMatch(w: World, i: nat, m: Message, peer: nat, port: nat): (j: nat)
    requires i <= |w.slots|
    ensures i <= j <= |w.slots|
    ensures j < |w.slots| ==> 0 <= w.slots[j] < |w.ops| && Matches(w.ops[w.slots[j]], m, peer, port)
    ensures forall l :: i <= l < j && 0 <= w.slots[l] < |w.ops| ==> !Matches(w.ops[w.slots[l]], m, peer, port)
    decreases |w.slots| - i
  {
    if i == |w.slots| then i
    else if 0 <= w.slots[i] < |w.ops| && Matches(w.ops[w.slots[i]], m, peer, port) then i
    else FindMatch(w, i + 1, m, peer, port)
  }

  function FirstShow(shows: seq<Show>): Show { if shows == [] then Show([], true) else shows[0] }
  function LaterShows(shows: seq<Show>): seq<Show> { if shows == [] then [] else shows[1..] }

  function Resolve(w: World, k: nat, s: Step, done: seq<Act>, lim: Limits): (r: World)
    requires k < |w.ops|
    ensures |r.ops| == |w.ops| && |r.slots| == |w.slots|
  {
    match s
    case Finish(op, outcome) => FinishOp(w, k, op, outcome, done, lim)
    case Continue(op) => Put(w, k, op)
    case Bindings(op) => Put(w, k, op)
  }

  /** The binding loop of a walk. */
  function WalkLoop(w: World, k: nat, bs: seq<Binding>, any: bool, shows: seq<Show>, done: seq<Act>,
                    lim: Limits): (r: World)
    requires k < |w.ops|
    ensures |r.ops| == |w.ops| && |r.slots| == |w.slots|
    decreases |bs|
  {
    var op := w.ops[k];
    if bs == [] then Resolve(w, k, WalkEnd(op, any), done, lim)
    else
      match VisitBinding(op, bs[0], lim)
      case Stop(outcome) => FinishOp(w, k, op, outcome, done, lim)
      case Deliver(cell) =>
        if op.streaming then
          var show := FirstShow(shows);
          var w1 := RunActs(Put(w, k, Shown(op, cell)), show.acts, lim);
          if !show.accept then FinishOp(w1, k, w1.ops[k], CapacityExceeded, done, lim)
          else if !w1.ops[k].Pending() || w1.ops[k].id != op.id then w1
          else WalkLoop(Put(w1, k, Advanced(w1.ops[k], cell)), k, bs[1..], true, LaterShows(shows), done, lim)
        else if |op.cells| == op.capacity then FinishOp(w, k, op, CapacityExceeded, done, lim)
        else WalkLoop(Put(w, k, Collected(op, cell)), k, bs[1..], true, shows, done, lim)
  }

  /** A reply that matches operation k. */
  function Reply(w: World, k: nat, m: Message, env: ReplyEnv, lim: Limits): (r: World)
    requires k < |w.ops|
    requires w.ops[k].walking || w.ops[k].offset < |w.ops[k].cells|
    requires !w.ops[k].walking ==> w.ops[k].offset + w.ops[k].batch <= |w.ops[k].cells|
    ensures |r.ops| == |w.ops| && |r.slots| == |w.slots|
  {
    var s := ReplyHead(w.ops[k], m);
    if !s.Bindings? then Resolve(w, k, s, env.done, lim)
    else if s.op.walking then WalkLoop(Put(w, k, s.op), k, m.bindings, false, env.shows, env.done, lim)
    else Resolve(w, k, Commit(s.op, m, lim), env.done, lim)
  }

  // ----- the clock -----

  function TickSlot(w: World, k: nat, t: nat, env: SlotEnv, lim: Limits): (r: World)
    requires k < |w.ops|
    ensures |r.ops| == |w.ops| && |r.slots| == |w.slots|
  {
    match TickOp(w.ops[k], t % TWO32)
    case Expire(op) => FinishOp(w, k, op, Timeout, env.done, lim)
    case Keep(op) => Put(w, k, op)
    case Send(op) => SendOp(w, k, if op.id == 0 then op.(first := t) else op, t, env, lim)
  }

  function EnvAt(envs: seq<SlotEnv>, i: nat): SlotEnv {
    if i < |envs| then envs[i] else SlotEnv(true, [])
  }

  /** The visit of slot i: the slot array is read as earlier visits left it. */
  function VisitSlot(w: World, i: nat, t: nat, env: SlotEnv, lim: Limits): (r: World)
    requires i < |w.slots|
    ensures |r.ops| == |w.ops| && |r.slots| == |w.slots|
  {
    if 0 <= w.slots[i] < |w.ops| then TickSlot(w, w.slots[i], t, env, lim) else w
  }

  function TickSlots(w: World, i: nat, t: nat, envs: seq<SlotEnv>, lim: Limits): (r: World)
    requires i <= |w.slots|
    ensures |r.ops| == |w.ops| && |r.slots| == |w.slots|
    decreases |w.slots| - i
  {
    if i == |w.slots| then w
    else TickSlots(VisitSlot(w, i, t, EnvAt(envs, i), lim), i + 1, t, envs, lim)
  }

  // ----- runs -----

  /** A parsed response and where it came from. */
  datatype Packet = Packet(m: Message, peer: nat, port: nat)

  datatype Event =
    | Loop(t: nat, incoming: Option<Packet>, reply: ReplyEnv, slots: seq<SlotEnv>)
    | User(acts: seq<Act>)

  /** Enough of the invariant for a matched reply to be handled. */
  predicate Repliable(op: Op) {
    (op.walking || op.offset < |op.cells|) && (!op.walking ==> op.offset + op.batch <= |op.cells|)
  }

  /** SNMPClient::receive, for a response that parsed. */
  function Receive(w: World, p: Packet, env: ReplyEnv, lim: Limits): (r: World)
    ensures |r.ops| == |w.ops| && |r.slots| == |w.slots|
  {
    var j := FindMatch(w, 0, p.m, p.peer, p.port);
    if j == |w.slots| || !Repliable(w.ops[w.slots[j]]) then w
    else Reply(w, w.slots[j], p.m, env, lim)
  }

  /** SNMPClient::loop: take at most one reply, then visit every slot. */
  function LoopStep(w: World, t: nat, incoming: Option<Packet>, reply: ReplyEnv, envs: seq<SlotEnv>,
                    lim: Limits): World {
    if !w.begun then w
    else
      var w1 := if incoming.Some? then Receive(w, incoming.value, reply, lim) else w;
      TickSlots(w1, 0, t, envs, lim).(clock := t)
  }

  function Next(w: World, e: Event, lim: Limits): World {
    match e
    case Loop(t, incoming, reply, envs) => LoopStep(w, t, incoming, reply, envs, lim)
    case User(acts) => RunActs(w, acts, lim)
  }

  function Run(w: World, es: seq<Event>, lim: Limits): World {
    if es == [] then w else Next(Run(w, es[..|es| - 1], lim), es[|es| - 1], lim)
  }
}
