/** What the loop does with one operation, told by its last datagram: wait, repeat it, ask for less, or give up. */
module Timing {
  import opened Bytes
  import opened Trees
  import opened Values
  import opened Operations
  import opened OperationLaws
  import opened Engine
  import opened EngineLaws
  import opened StepLaws
  import opened RunLaws
  import opened Outcomes

  /** The last datagram under an ID. */
  ghost predicate LastUnder(wire: seq<Sent>, id: nat, i: int) {
    0 <= i < |wire| && wire[i].id == id && forall j :: i < j < |wire| ==> wire[j].id != id
  }

  /** The clock reading that a waiting operation keeps is that of its last datagram. */
  ghost predicate Clocked(op: Op, wire: seq<Sent>, i: int) {
    Expects(op) && LastUnder(wire, op.id, i) && op.sentAt == wire[i].at % TWO32
  }

  /** A walk is inside its deadline of 60000 ms, which starts with its first datagram. */
  ghost predicate InTime(op: Op, t: nat) {
    op.walking && op.id != 0 ==> op.startedAt == op.first % TWO32 && op.first <= t < op.first + 60000
  }

  /** A datagram that is on the wire at time t leaves its operation waiting, unless the transport refuses it. */
  ghost predicate SendsOff(w: World, r: World, k: nat, tx: Op, t: nat, env: SlotEnv)
    requires k < |w.ops|
  {
    if env.transport then r == w.(ops := w.ops[k := tx.(sent := true, sentAt := t % TWO32)])
    else EndsAs(w, r, k, tx, TransportError)
  }

  /** The datagram goes out once more, at time t, and the attempt is counted. */
  ghost predicate RepeatedAt(w: World, r: World, k: nat, e: Sent, t: nat, env: SlotEnv)
    requires k < |w.ops|
  {
    SendsOff(w.(wire := w.wire + [e.(at := t)]), r, k, Repeated(w.ops[k]), t, env)
  }

  ghost function Retried(op: Op): Op { op.(attempts := op.attempts + 1) }
  ghost function Repeated(op: Op): Op { op.(attempts := op.attempts + 1, sends := op.sends + 1) }

  lemma {:induction false} ElapsedSince(t: nat, at: nat)
    requires at <= t
    ensures Elapsed(t % TWO32, at % TWO32) <= t - at
    ensures t < at + TWO32 ==> Elapsed(t % TWO32, at % TWO32) == t - at
  {
    if t < at + TWO32 {
      WrappedElapsed(at, t);
    }
  }

  lemma {:induction false} InTimeElapsed(op: Op, t: nat)
    requires InTime(op, t)
    ensures op.walking && op.id != 0 ==> Elapsed(t % TWO32, op.startedAt) < WALK_DEADLINE
  {
    if op.walking && op.id != 0 {
      ElapsedSince(t, op.first);
    }
  }

  /** What is known of the request in flight and of its last datagram. */
  lemma {:induction false} FlightTerms(w: World, k: nat, i: int, lim: Limits)
    requires Inv(w, lim) && AllReady(w) && k < |w.ops| && Clocked(w.ops[k], w.wire, i)
    ensures var op, e := w.ops[k], w.wire[i];
            && e.op == k && e.timeout == op.dev.timeoutMs && e.id == op.id && !op.answered && 0 < e.timeout <= MAX_ID
            && op.batch == Packed(op, lim) && CanSend(op, lim)
            && (op.walking ==> (op.mode == GETNEXT || op.mode == GETBULK) && op.batch == 1)
            && (!op.walking ==> op.mode == GET || op.mode == SET)
  {
    hide Packed, RequestOctets, NewOrRepeat, OnWire, NamedCells, SettledUpTo, AllBacked, Chain, NamesOf, Log2, MaxIds,
      Gathering;
    var op := w.ops[k];
    assert Ready(op);
    assert WireMatch(op, k, w.wire[i], lim);
    assert OpInv(op, lim);
  }

  lemma {:induction false} ClockedTerms(op: Op, wire: seq<Sent>, i: int)
    requires Clocked(op, wire, i)
    ensures 0 <= i < |wire| && op.Pending() && op.sent && op.id != 0 && op.sentAt == wire[i].at % TWO32
    ensures wire[i].id == op.id
  {}

  lemma {:induction false} TickIs(w: World, k: nat, t: nat, env: SlotEnv, lim: Limits)
    requires k < |w.ops|
    ensures TickSlot(w, k, t, env, lim) ==
            match TickOp(w.ops[k], t % TWO32)
            case Expire(op) => FinishOp(w, k, op, Timeout, env.done, lim)
            case Keep(op) => w.(ops := w.ops[k := op])
            case Send(op) => SendOp(w, k, Stamped(op, t), t, env, lim)
  {
    hide TickOp, FinishOp, SendOp;
  }

  /**
   * An operation that waits for a reply, inside the deadline of its walk, is left exactly as it is while less than the
   * timeout has passed since its last datagram. Then that datagram is repeated, unless it was a SET or no attempt is
   * left; then a bulk walk asks for single successors, and a read of several names for half of them; what can do
   * neither times out.
   */
  lemma {:induction false} WaitingStep(w: World, k: nat, t: nat, env: SlotEnv, i: int, lim: Limits)
    requires Inv(w, lim) && AllReady(w) && k < |w.ops| && Clocked(w.ops[k], w.wire, i) && InTime(w.ops[k], t)
    requires w.wire[i].at <= t < w.wire[i].at + TWO32
    ensures var op, r, e := w.ops[k], TickSlot(w, k, t, env, lim), w.wire[i];
            if t < e.at + e.timeout then r == w
            else if op.mode != SET && op.attempts < op.dev.retries then RepeatedAt(w, r, k, e, t, env)
            else if op.mode == GETBULK then AsksAgain(w, r, k, op.(mode := GETNEXT))
            else if op.mode == GET && op.batch > 1 then AsksAgain(w, r, k, op.(batchLimit := op.batch / 2))
            else EndsAs(w, r, k, op, Timeout)
  {
    hide *;
    var op := w.ops[k];
    ClockedTerms(op, w.wire, i);
    var e := w.wire[i];
    FlightTerms(w, k, i, lim);
    InTimeElapsed(op, t);
    ElapsedSince(t, e.at);
    TickWaiting(op, t, t - e.at);
    TickIs(w, k, t, env, lim);
    if t >= e.at + e.timeout {
      if op.mode != SET && op.attempts < op.dev.retries {
        RepeatStep(w, k, t, env, i, lim);
      } else if op.mode == GETBULK {
        AgainGoesOn(w, k, op.(mode := GETNEXT));
      } else if op.mode == GET && op.batch > 1 {
        AgainGoesOn(w, k, op.(batchLimit := op.batch / 2));
      } else {
        FinishEnds(w, k, op, Timeout, env.done, lim);
      }
    } else {
      assert w.ops[k := op] == w.ops;
    }
  }

  lemma {:induction false} TickWaiting(op: Op, t: nat, since: nat)
    requires op.sent && Elapsed(t % TWO32, op.sentAt) == since
    requires op.walking && op.id != 0 ==> Elapsed(t % TWO32, op.startedAt) < WALK_DEADLINE
    requires if op.walking then op.mode == GETNEXT || op.mode == GETBULK else op.mode == GET || op.mode == SET
    requires op.walking ==> op.batch == 1
    ensures TickOp(op, t % TWO32) ==
            if since < op.dev.timeoutMs then Keep(op)
            else if op.mode != SET && op.attempts < op.dev.retries then Send(Retried(op))
            else if op.mode == GETBULK then Keep(Again(op.(mode := GETNEXT)))
            else if op.mode == GET && op.batch > 1 then Keep(Again(op.(batchLimit := op.batch / 2)))
            else Expire(op)
  {
    hide Elapsed, Again;
  }

  lemma {:induction false} AgainGoesOn(w: World, k: nat, next: Op)
    requires k < |w.ops|
    ensures AsksAgain(w, w.(ops := w.ops[k := Again(next)]), k, next)
  {}

  lemma {:induction false} SendStep(w: World, k: nat, op: Op, t: nat, env: SlotEnv, lim: Limits)
    requires k < |w.ops| && op.Pending()
    ensures var r := SendOp(w, k, op, t, env, lim);
            if !CanSend(op, lim) || (!op.sent && w.nextId >= MAX_ID) then
              EndsAs(w, r, k, op.(batch := Packed(op, lim)), CapacityExceeded)
            else
              SendsOff(Logged(w, k, op, t, lim), r, k, Transmitting(op, w.nextId, lim), t, env)
  {
    assert Transmitting(op, w.nextId, lim).Pending();
    hide SendOp, EndsAs, FinishOp, CanSend, Packed, Logged, Transmitting;
    SendOpIs(w, k, op, t, env, lim);
    FinishEnds(w, k, op.(batch := Packed(op, lim)), CapacityExceeded, env.done, lim);
    FinishEnds(Logged(w, k, op, t, lim), k, Transmitting(op, w.nextId, lim), TransportError, env.done, lim);
  }

  lemma {:induction false} RepeatTerms(op: Op, nextId: nat, lim: Limits)
    requires op.sent && op.batch == Packed(op, lim) && !op.answered
    ensures Transmitting(Retried(op), nextId, lim) == Repeated(op)
  {
    SendableSame(op, lim);
    hide Packed;
  }

  lemma {:induction false} SendableSame(op: Op, lim: Limits)
    ensures Packed(Retried(op), lim) == Packed(op, lim) && CanSend(Retried(op), lim) == CanSend(op, lim)
  {}

  lemma {:induction false} RetriedTerms(op: Op, t: nat)
    requires op.id != 0
    ensures var o := Retried(op);
            Stamped(o, t) == o && o.sent == op.sent && o.id == op.id && o.Pending() == op.Pending()
  {}

  lemma {:induction false} RepeatStep(w: World, k: nat, t: nat, env: SlotEnv, i: int, lim: Limits)
    requires Inv(w, lim) && AllReady(w) && k < |w.ops| && 0 <= i < |w.wire| && Clocked(w.ops[k], w.wire, i)
    requires TickOp(w.ops[k], t % TWO32) == Send(Retried(w.ops[k]))
    ensures RepeatedAt(w, TickSlot(w, k, t, env, lim), k, w.wire[i], t, env)
  {
    hide *;
    var op := w.ops[k];
    ClockedTerms(op, w.wire, i);
    FlightTerms(w, k, i, lim);
    RetriedTerms(op, t);
    SendableSame(op, lim);
    RepeatTerms(op, w.nextId, lim);
    RepeatEntry(w, k, t, i, lim);
    LoggedAs(w, k, Retried(op), t, w.wire[i].(at := t), lim);
    TickIs(w, k, t, env, lim);
    SendStep(w, k, Retried(op), t, env, lim);
    SentIsRepeated(w, TickSlot(w, k, t, env, lim), k, w.wire[i], t, env);
  }

  lemma {:induction false} SentIsRepeated(w: World, r: World, k: nat, e: Sent, t: nat, env: SlotEnv)
    requires k < |w.ops| && SendsOff(w.(wire := w.wire + [e.(at := t)]), r, k, Repeated(w.ops[k]), t, env)
    ensures RepeatedAt(w, r, k, e, t, env)
  {
    hide SendsOff;
  }

  lemma {:induction false} LoggedAs(w: World, k: nat, o: Op, t: nat, e: Sent, lim: Limits)
    requires o.sent && Entry(k, Transmitting(o, w.nextId, lim), t, lim) == e
    ensures Logged(w, k, o, t, lim) == w.(wire := w.wire + [e])
  {
    hide Entry, Transmitting;
  }

  /** A repetition is logged as the last datagram once more. */
  lemma {:induction false} RepeatEntry(w: World, k: nat, t: nat, i: int, lim: Limits)
    requires Inv(w, lim) && AllReady(w) && k < |w.ops| && 0 <= i < |w.wire| && Clocked(w.ops[k], w.wire, i)
    requires TickOp(w.ops[k], t % TWO32) == Send(Retried(w.ops[k]))
    ensures Entry(k, Transmitting(Retried(w.ops[k]), w.nextId, lim), t, lim) == w.wire[i].(at := t)
  {
    hide *;
    var o := Retried(w.ops[k]);
    ClockedTerms(w.ops[k], w.wire, i);
    RetriedTerms(w.ops[k], t);
    TickSends(w, k, t, lim);
    RepeatedEntry(w, k, o, t, lim);
    EntryAt(k, Transmitting(o, w.nextId, lim), t, w.wire[i], lim);
  }

  lemma {:induction false} EntryAt(k: nat, tx: Op, t: nat, e: Sent, lim: Limits)
    requires SameRequest(e, Entry(k, tx, t, lim)) || e.id != Entry(k, tx, t, lim).id
    ensures e.id == Entry(k, tx, t, lim).id ==> Entry(k, tx, t, lim) == e.(at := t)
    ensures Entry(k, tx, t, lim).id == tx.id
  {
    hide RequestOctets;
  }

  /** A walk whose deadline has passed times out, whatever it waits for. */
  lemma {:induction false} DeadlineStep(w: World, k: nat, t: nat, env: SlotEnv, lim: Limits)
    requires k < |w.ops| && w.ops[k].Pending() && w.ops[k].walking && w.ops[k].id != 0
    requires var op := w.ops[k]; op.startedAt == op.first % TWO32 && op.first + 60000 <= t < op.first + TWO32
    ensures EndsAs(w, TickSlot(w, k, t, env, lim), k, w.ops[k], Timeout)
  {
    hide EndsAs, FinishOp, SendOp, TickSlot;
    ElapsedSince(t, w.ops[k].first);
    TickIs(w, k, t, env, lim);
    FinishEnds(w, k, w.ops[k], Timeout, env.done, lim);
  }

  /**
   * An operation that has no request in flight sends one at once, under the next ID; a run's first datagram starts the
   * clock of its deadline. It ends if the request does not fit a packet, if there is no ID left, or if the transport
   * refuses it.
   */
  lemma {:induction false} UnsentStep(w: World, k: nat, t: nat, env: SlotEnv, lim: Limits)
    requires k < |w.ops| && w.ops[k].Pending() && !w.ops[k].sent && InTime(w.ops[k], t)
    ensures var op, r := w.ops[k], TickSlot(w, k, t, env, lim);
            var o := if op.id == 0 then op.(startedAt := t % TWO32, first := t) else op;
            if !CanSend(op, lim) || w.nextId >= MAX_ID then
              EndsAs(w, r, k, o.(batch := Packed(op, lim)), CapacityExceeded)
            else
              var tx := o.(batch := Packed(op, lim), id := w.nextId + 1, ids := op.ids + 1, sends := op.sends + 1,
                           answered := false);
              var e := Sent(k, op.run, w.nextId + 1, RequestOctets(tx, lim), op.walking, op.mode, op.dev.version,
                            op.cursor, t, o.first, op.dev.timeoutMs);
              var w1 := w.(nextId := w.nextId + 1, wire := w.wire + [e]);
              SendsOff(w1, r, k, tx, t, env)
  {
    hide *;
    var op := w.ops[k];
    var o := if op.id == 0 then op.(startedAt := t % TWO32, first := t) else op;
    StillPending(op, o);
    TickUnsent(op, t);
    UnsentSame(op, o, lim);
    TickIs(w, k, t, env, lim);
    SendStep(w, k, o, t, env, lim);
    NewLogged(w, k, o, t, lim);
  }

  lemma {:induction false} StillPending(op: Op, o: Op)
    requires op.Pending() && o.status == op.status
    ensures o.Pending()
  {}

  lemma {:induction false} NewLogged(w: World, k: nat, o: Op, t: nat, lim: Limits)
    requires !o.sent
    ensures var tx := o.(batch := Packed(o, lim), id := w.nextId + 1, ids := o.ids + 1, sends := o.sends + 1,
                         answered := false);
            var e := Sent(k, o.run, w.nextId + 1, RequestOctets(tx, lim), o.walking, o.mode, o.dev.version, o.cursor, t,
                          o.first, o.dev.timeoutMs);
            && Transmitting(o, w.nextId, lim) == tx
            && Logged(w, k, o, t, lim) == w.(nextId := w.nextId + 1, wire := w.wire + [e])
  {
    hide Packed, RequestOctets, Transmitting, Logged;
    NewTerms(o, w.nextId, lim);
    LoggedTerms(w, k, o, t, lim);
    EntryTerms(k, Transmitting(o, w.nextId, lim), t, lim);
  }

  lemma {:induction false} TickUnsent(op: Op, t: nat)
    requires op.Pending() && !op.sent && InTime(op, t)
    ensures TickOp(op, t % TWO32).Send?
    ensures Stamped(TickOp(op, t % TWO32).op, t) ==
            if op.id == 0 then op.(startedAt := t % TWO32, first := t) else op
  {
    hide Elapsed;
    InTimeElapsed(op, t);
  }

  lemma {:induction false} NewTerms(op: Op, nextId: nat, lim: Limits)
    requires !op.sent
    ensures Transmitting(op, nextId, lim) ==
            op.(batch := Packed(op, lim), id := nextId + 1, ids := op.ids + 1, sends := op.sends + 1, answered := false)
  {
    hide Packed;
  }

  lemma {:induction false} EntryTerms(k: nat, tx: Op, t: nat, lim: Limits)
    ensures Entry(k, tx, t, lim) ==
            Sent(k, tx.run, tx.id, RequestOctets(tx, lim), tx.walking, tx.mode, tx.dev.version, tx.cursor, t, tx.first,
                 tx.dev.timeoutMs)
  {
    hide RequestOctets;
  }

  lemma {:induction false} UnsentSame(op: Op, o: Op, lim: Limits)
    requires o == op.(startedAt := o.startedAt, first := o.first)
    ensures Packed(o, lim) == Packed(op, lim) && CanSend(o, lim) == CanSend(op, lim)
  {}
}
