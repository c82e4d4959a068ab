/** What an application may rely on after any run of the client, read off the invariant. */
module Guarantees {
  import opened Bytes
  import opened Oids
  import opened OidOrder
  import opened Values
  import opened Operations
  import opened OperationLaws
  import opened ReplyLaws
  import opened Engine
  import opened EngineLaws
  import opened StepLaws
  import opened Runs

  lemma {:induction false} OpAfterRun(w: World, es: seq<Event>, k: nat, lim: Limits)
    requires Initial(w, lim) && ParsedEvents(es, lim) && k < |w.ops|
    ensures var r := Run(w, es, lim); k < |r.ops| && OpInv(r.ops[k], lim)
  {
    hide Initial, Run, ParsedEvents, Inv, AllReady, Grown, OpInv;
    InitialInv(w, lim);
    RunKeeps(w, es, lim);
    RunSizes(w, Run(w, es, lim));
    InvOp(Run(w, es, lim), k, lim);
  }

  lemma {:induction false} RunSizes(w: World, r: World)
    requires Grown(w, r)
    ensures |r.ops| == |w.ops|
  {}

  /** No result is pending, the status is honest, and usable results come from replies. */
  ghost predicate Integral(op: Op, lim: Limits) {
    && (forall i :: 0 <= i < |op.cells| ==> op.cells[i].status != Status.Pending)
    && (op.status == Success <==> forall i :: 0 <= i < |op.cells| ==> op.cells[i].Ok())
    && (forall i :: 0 <= i < |op.cells| && op.cells[i].Ok() ==> Backed(op.cells[i], op.replies, lim))
  }

  lemma {:induction false} SettledIntegral(op: Op, lim: Limits)
    requires OpInv(op, lim) && !op.walking && op.settled
    ensures Integral(op, lim)
  {
    hide MaxIds, Backed, Shape, Chain;
  }

  lemma {:induction false} LogEnded(w: World, i: nat, lim: Limits)
    requires Inv(w, lim) && i < |w.completions|
    ensures Ended(w.completions[i].state, lim)
  {
    hide OpInv, SlotsOk, IdsOk, OpsOk, WireOk;
  }

  /**
   * Reads and writes: when a run has ended, no result is pending, the status is Success exactly when every result
   * is usable, and every usable result holds the value that a matched reply bound to its own name. It is so between
   * events, and whenever a completion handler is called, whatever that handler does next.
   */
  lemma {:induction false} ResultIntegrity(w: World, es: seq<Event>, k: nat, i: nat, lim: Limits)
    requires Initial(w, lim) && ParsedEvents(es, lim) && k < |w.ops|
    ensures var r := Run(w, es, lim);
            && k < |r.ops|
            && (!r.ops[k].walking && r.ops[k].settled ==> Integral(r.ops[k], lim))
            && (i < |r.completions| && !r.completions[i].state.walking ==> Integral(r.completions[i].state, lim))
  {
    OpAfterRun(w, es, k, lim);
    Reachable(w, es, lim);
    hide Initial, Run, ParsedEvents, OpInv, Inv, AllReady, Integral;
    var r := Run(w, es, lim);
    if !r.ops[k].walking && r.ops[k].settled {
      SettledIntegral(r.ops[k], lim);
    }
    if i < |r.completions| && !r.completions[i].state.walking {
      LogEnded(r, i, lim);
      SettledIntegral(r.completions[i].state, lim);
    }
  }

  /** While a read is under way its results are settled from the front: before the offset all, behind it none. */
  lemma {:induction false} ProgressIsAPrefix(w: World, es: seq<Event>, k: nat, lim: Limits)
    requires Initial(w, lim) && ParsedEvents(es, lim) && k < |w.ops|
    ensures var r := Run(w, es, lim);
            k < |r.ops| &&
            var op := r.ops[k];
            !op.walking && op.Pending() ==>
              && op.offset < |op.cells|
              && (forall i :: 0 <= i < |op.cells| ==> (op.cells[i].status == Status.Pending <==> op.offset <= i))
              && (forall i :: 0 <= i < op.offset && op.cells[i].Ok() ==> Backed(op.cells[i], op.replies, lim))
  {
    OpAfterRun(w, es, k, lim);
    hide Initial, Run, ParsedEvents, MaxIds, Backed, Shape, Chain, TrafficInv;
  }

  /** Results that are settled, and names that are delivered, stay as they are until the next accepted start. */
  lemma {:induction false} SettledStays(w: World, es: seq<Event>, more: seq<Event>, k: nat, lim: Limits)
    requires Initial(w, lim) && ParsedEvents(es, lim) && ParsedEvents(more, lim) && k < |w.ops|
    ensures var q := Run(w, es, lim);
            var r := Run(q, more, lim);
            k < |q.ops| && k < |r.ops| &&
            var a, b := q.ops[k], r.ops[k];
            a.run == b.run ==>
              if a.walking then a.delivered <= b.delivered
              else |a.cells| <= |b.cells| &&
                   forall i :: 0 <= i < |a.cells| && (i < a.offset || !a.Pending()) ==> b.cells[i] == a.cells[i]
  {
    hide Initial, Run, ParsedEvents, Inv, AllReady, Evolves, CellsKept;
    InitialInv(w, lim);
    RunKeeps(w, es, lim);
    var q := Run(w, es, lim);
    RunKeeps(q, more, lim);
    var r := Run(q, more, lim);
    assert Evolves(q.ops[k], r.ops[k]);
    KeptFacts(q.ops[k], r.ops[k]);
  }

  lemma {:induction false} KeptFacts(a: Op, b: Op)
    requires Evolves(a, b)
    ensures a.run == b.run ==>
              if a.walking then a.delivered <= b.delivered
              else |a.cells| <= |b.cells| &&
                   forall i :: 0 <= i < |a.cells| && (i < a.offset || !a.Pending()) ==> b.cells[i] == a.cells[i]
  {}

  /** Names increase strictly and lie strictly below the root, and every value came with a reply under its name. */
  ghost predicate Descends(op: Op, lim: Limits) {
    && (forall i, j :: 0 <= i < j < |op.delivered| ==> Below(ArcsOf(op.delivered[i]), ArcsOf(op.delivered[j])))
    && (op.root != [] ==>
          forall i :: 0 <= i < |op.delivered| ==> StrictPrefix(ArcsOf(op.root), ArcsOf(op.delivered[i])))
    && Gathering(op, lim)
  }

  lemma {:induction false} ChainDescends(op: Op, lim: Limits)
    requires Chain(op.root, ShownNames(op)) && Gathering(op, lim) && (op.root != [] ==> Canonical(op.root))
    ensures Descends(op, lim)
  {
    hide Gathering, Canonical, Under, StrictPrefix, ArcsOf, Lex;
    assert op.delivered <= ShownNames(op);
    forall i | 0 <= i < |op.delivered| && op.root != []
      ensures StrictPrefix(ArcsOf(op.root), ArcsOf(op.delivered[i]))
    {
      assert op.delivered[i] == ShownNames(op)[i];
      UnderIsPrefix(op.root, op.delivered[i]);
    }
    forall i, j | 0 <= i < j < |op.delivered|
      ensures Below(ArcsOf(op.delivered[i]), ArcsOf(op.delivered[j]))
    {
      assert op.delivered[i] == ShownNames(op)[i] && op.delivered[j] == ShownNames(op)[j];
      assert Compare(ShownNames(op)[i], ShownNames(op)[j]) < 0;
    }
  }

  lemma {:induction false} WalkChain(op: Op, lim: Limits)
    requires OpInv(op, lim) && op.walking && (op.Pending() || op.settled)
    ensures Chain(op.root, ShownNames(op)) && Gathering(op, lim) && (op.root != [] ==> Canonical(op.root))
  {
    hide Gathering, Canonical, Chain, NamedCells;
  }

  /**
   * Walks, against any agent: what a walk has taken descends from its root in order, while it runs, when it has
   * ended, and whenever its completion handler is called.
   */
  lemma {:induction false} WalkSafety(w: World, es: seq<Event>, k: nat, i: nat, lim: Limits)
    requires Initial(w, lim) && ParsedEvents(es, lim) && k < |w.ops|
    ensures var r := Run(w, es, lim);
            && k < |r.ops|
            && (r.ops[k].walking && (r.ops[k].Pending() || r.ops[k].settled) ==> Descends(r.ops[k], lim))
            && (i < |r.completions| && r.completions[i].state.walking && r.completions[i].state.settled ==>
                  Descends(r.completions[i].state, lim))
  {
    OpAfterRun(w, es, k, lim);
    Reachable(w, es, lim);
    hide Initial, Run, ParsedEvents, OpInv, Inv, AllReady, Descends, Chain, Gathering;
    var r := Run(w, es, lim);
    if r.ops[k].walking && (r.ops[k].Pending() || r.ops[k].settled) {
      WalkChain(r.ops[k], lim);
      ChainDescends(r.ops[k], lim);
    }
    if i < |r.completions| && r.completions[i].state.walking && r.completions[i].state.settled {
      LogEnded(r, i, lim);
      WalkChain(r.completions[i].state, lim);
      ChainDescends(r.completions[i].state, lim);
    }
  }

  /** Request IDs: a transmission opens an ID above all earlier ones or repeats an earlier datagram byte for byte. */
  lemma {:induction false} IdsAscend(w: World, es: seq<Event>, i: nat, lim: Limits)
    requires Initial(w, lim) && ParsedEvents(es, lim)
    ensures var r := Run(w, es, lim);
            && r.nextId <= MAX_ID
            && (i < |r.wire| ==>
                  || (forall j :: 0 <= j < i ==> r.wire[j].id < r.wire[i].id)
                  || (exists j :: 0 <= j < i && SameRequest(r.wire[j], r.wire[i])))
            && (forall j :: 0 <= j < |r.wire| && i < |r.wire| && r.wire[j].id == r.wire[i].id ==>
                  r.wire[j].octets == r.wire[i].octets)
  {
    Reachable(w, es, lim);
    hide Initial, Run, ParsedEvents, Inv, AllReady, SameRequest;
    var r := Run(w, es, lim);
    if i < |r.wire| {
      WireAt(r, i, lim);
    }
    IdBound(r, lim);
  }

  lemma {:induction false} IdBound(w: World, lim: Limits)
    requires Inv(w, lim)
    ensures w.nextId <= MAX_ID
  {
    hide SlotsOk, OpsOk, WireOk;
  }

  lemma {:induction false} InvWire(w: World, lim: Limits)
    requires Inv(w, lim)
    ensures WireOk(w, lim)
  {
    hide SlotsOk, OpsOk, IdsOk, WireOk;
  }

  lemma {:induction false} WireAt(w: World, i: nat, lim: Limits)
    requires Inv(w, lim) && i < |w.wire|
    ensures || (forall j :: 0 <= j < i ==> w.wire[j].id < w.wire[i].id)
            || (exists j :: 0 <= j < i && SameRequest(w.wire[j], w.wire[i]))
    ensures forall j :: 0 <= j < |w.wire| && w.wire[j].id == w.wire[i].id ==> w.wire[j].octets == w.wire[i].octets
  {
    hide Inv, WireMatch, OnWire, SameRequest, Packed;
    InvWire(w, lim);
    assert NewOrRepeat(w.wire, i);
    hide NewOrRepeat;
    forall j | 0 <= j < |w.wire| && w.wire[j].id == w.wire[i].id
      ensures w.wire[j].octets == w.wire[i].octets
    {
      if i < j {
        SameOctets(w.wire[i], w.wire[j]);
      } else if j < i {
        SameOctets(w.wire[j], w.wire[i]);
      }
    }
  }

  lemma {:induction false} SameOctets(a: Sent, b: Sent)
    requires SameRequest(a, b)
    ensures a.octets == b.octets
  {}
}
