/** That replies do their work: which registration a value reaches, what it leaves there, and when it is refused. */
module Deliveries {
  import opened Bytes
  import opened Trees
  import opened Messages
  import opened Registrations
  import Dispatches

  // ----- what one binding does -----

  ghost predicate Named(r: Reg, peer: nat, name: Text) { r.ip == peer && r.oid == name }

  /** The registration has sent the request and still waits for its answer. */
  ghost predicate Awaits(r: Reg, key: Key, name: Text) { Named(r, key.peer, name) && r.tracking && key in r.keys }

  /** The registration a binding is for: the first that waits for it, or the first untracked one if none is tracked. */
  ghost predicate MeantFor(regs: seq<Reg>, key: Key, name: Text, i: int) {
    && 0 <= i < |regs|
    && if Awaits(regs[i], key, name) then forall j :: 0 <= j < i ==> !Awaits(regs[j], key, name)
       else
         && Named(regs[i], key.peer, name)
         && (forall j :: 0 <= j < |regs| && Named(regs[j], key.peer, name) ==> !regs[j].tracking)
         && (forall j :: 0 <= j < i ==> !Named(regs[j], key.peer, name))
  }

  /** A value that a destination can hold. */
  ghost predicate Holdable(sink: Sink, v: Ber) {
    || v.Number? || v.Counter?
    || (v.Name? && sink.CString? && |v.text| + 1 <= sink.capacity)
    || ((v.Str? || (v.Raw? && v.kind == OPAQUE)) && sink.Binary? && |v.bytes| <= sink.capacity)
    || ((v.Str? || (v.Raw? && v.kind == OPAQUE)) && sink.CString? && |v.bytes| + 1 <= sink.capacity && 0 !in v.bytes)
  }

  /** An exception of the binding: noSuchObject, noSuchInstance or endOfMibView. */
  ghost predicate Missed(v: Ber) { v.Tag() == 0x80 || v.Tag() == 0x81 || v.Tag() == 0x82 }

  /** The request is used up; a value of the registered type that the destination can hold is written. */
  ghost predicate Took(r: Reg, next: Reg, key: Key, v: Ber) {
    && next.ip == r.ip && next.oid == r.oid && next.kind == r.kind && next.sink == r.sink
    && next.tracking == r.tracking && next.tracked == r.tracked
    && next.keys == (if r.tracking then r.keys - {key} else r.keys)
    && if !Missed(v) && v.Tag() == r.kind && Holdable(r.sink, v) then
         next.content == Some(v) && next.serial == (r.serial + 1) % TWO32 && next.updates == r.updates + 1
       else
         next.content == r.content && next.serial == r.serial && next.updates == r.updates
  }

  /** One binding changes the registration it is for and no other; a value of another type ends the reply. */
  ghost predicate Handles(a: seq<Reg>, z: seq<Reg>, key: Key, b: Binding, more: bool) {
    && |z| == |a|
    && (forall i :: 0 <= i < |a| ==>
          if MeantFor(a, key, b.name, i) then Took(a[i], z[i], key, b.value) else z[i] == a[i])
    && (more <==> forall i :: MeantFor(a, key, b.name, i) ==> Missed(b.value) || b.value.Tag() == a[i].kind)
  }

  // ----- what a reply does -----

  /** The states between the bindings: all of them, or up to and with the one whose type was refused. */
  ghost predicate Trace(states: seq<seq<Reg>>, key: Key, bs: seq<Binding>, ok: bool) {
    && 1 <= |states| <= |bs| + 1
    && (if ok then |states| == |bs| + 1 else |states| >= 2)
    && forall c :: 0 <= c < |states| - 1 ==> Handles(states[c], states[c + 1], key, bs[c], ok || c + 2 < |states|)
  }

  ghost predicate Traced(a: seq<Reg>, z: seq<Reg>, key: Key, bs: seq<Binding>, ok: bool) {
    exists states :: Trace(states, key, bs, ok) && states[0] == a && states[|states| - 1] == z
  }

  /** What a parsed packet does to the registrations, and the answer. */
  ghost predicate Handled(a: seq<Reg>, z: seq<Reg>, community: seq<byte>, m: Message, udp: nat, peer: nat, ok: bool) {
    var key := Key(m.id, udp, peer);
    if m.kind != RESPONSE then ok && z == a
    else if m.community != community then !ok && z == a
    else if m.errorStatus != 0 then
      !ok && |z| == |a| && forall i :: 0 <= i < |a| ==> z[i] == a[i].(keys := a[i].keys - {key})
    else Traced(a, z, key, m.bindings, ok)
  }

  // ----- the dispatch does exactly that -----

  lemma {:induction false} RouteMeant(regs: seq<Reg>, key: Key, name: Text, i: int)
    ensures MeantFor(regs, key, name, i) <==> 0 <= i < |regs| && Route(regs, key, name) == i
  {}

  lemma {:induction false} AppliedTook(r: Reg, key: Key, v: Ber)
    ensures Took(r, Applied(r, key, v).0, key, v)
    ensures Applied(r, key, v).1 <==> Missed(v) || v.Tag() == r.kind
  {}

  lemma {:induction false} OneHandles(regs: seq<Reg>, key: Key, b: Binding)
    ensures Handles(regs, DispatchOne(regs, key, b).0, key, b, DispatchOne(regs, key, b).1)
  {
    hide MeantFor, Took, Applied, Route, Missed;
    forall i: int | true
      ensures MeantFor(regs, key, b.name, i) <==> 0 <= i < |regs| && Route(regs, key, b.name) == i
    {
      RouteMeant(regs, key, b.name, i);
    }
    var i := Route(regs, key, b.name);
    if i < |regs| {
      AppliedTook(regs[i], key, b.value);
      assert MeantFor(regs, key, b.name, i);
    }
  }

  lemma {:induction false} AllTraced(regs: seq<Reg>, key: Key, bs: seq<Binding>)
    ensures Traced(regs, DispatchAll(regs, key, bs).0, key, bs, DispatchAll(regs, key, bs).1)
    decreases |bs|
  {
    hide Handles, DispatchOne;
    var (z, ok) := DispatchAll(regs, key, bs);
    if bs == [] {
      assert Trace([regs], key, bs, true);
    } else {
      OneHandles(regs, key, bs[0]);
      var (next, more) := DispatchOne(regs, key, bs[0]);
      if more {
        AllTraced(next, key, bs[1..]);
        var states :| Trace(states, key, bs[1..], ok) && states[0] == next && states[|states| - 1] == z;
        TraceCons(regs, states, key, bs, ok);
      } else {
        assert Trace([regs, next], key, bs, false);
      }
    }
  }

  lemma {:induction false} TraceCons(a: seq<Reg>, states: seq<seq<Reg>>, key: Key, bs: seq<Binding>, ok: bool)
    requires bs != [] && Trace(states, key, bs[1..], ok) && Handles(a, states[0], key, bs[0], true)
    ensures Trace([a] + states, key, bs, ok)
    ensures Traced(a, states[|states| - 1], key, bs, ok)
  {
    hide Handles;
    var all := [a] + states;
    forall c | 0 <= c < |all| - 1
      ensures Handles(all[c], all[c + 1], key, bs[c], ok || c + 2 < |all|)
    {
      assert c > 0 ==> all[c] == states[c - 1] && all[c + 1] == states[c] && bs[c] == bs[1..][c - 1];
      assert c > 0 ==> Handles(states[c - 1], states[c], key, bs[1..][c - 1], ok || c + 1 < |states|);
    }
    assert all[0] == a && all[|all| - 1] == states[|states| - 1];
  }

  /** Every packet is handled as the relation says. */
  lemma {:induction false} DispatchHandles(regs: seq<Reg>, community: seq<byte>, m: Message, udp: nat, peer: nat)
    ensures var (z, ok) := Dispatch(regs, community, m, udp, peer); Handled(regs, z, community, m, udp, peer, ok)
  {
    hide DispatchAll, Traced;
    AllTraced(regs, Key(m.id, udp, peer), m.bindings);
  }

  // ----- one name in a reply -----

  /** A binding of another name leaves every registration of this name, and whom it is meant for, alone. */
  lemma {:induction false} OtherName(a: seq<Reg>, z: seq<Reg>, key: Key, b: Binding, more: bool, name: Text)
    requires Handles(a, z, key, b, more) && b.name != name
    ensures |z| == |a| && forall j :: 0 <= j < |a| && a[j].oid == name ==> z[j] == a[j]
    ensures forall j :: 0 <= j < |a| ==> z[j].oid == a[j].oid
    ensures forall i :: MeantFor(z, key, name, i) <==> MeantFor(a, key, name, i)
  {
    assert forall j :: 0 <= j < |a| && a[j].oid == name ==> !MeantFor(a, key, b.name, j);
    assert forall j :: 0 <= j < |a| ==> z[j].oid == a[j].oid;
    hide Handles, Took;
  }

  /** Up to state c no binding carried the name: its registrations stand as they stood. */
  lemma {:induction false} Untouched(states: seq<seq<Reg>>, key: Key, bs: seq<Binding>, ok: bool, name: Text, from: nat,
                                     upTo: nat)
    requires Trace(states, key, bs, ok) && from <= upTo < |states|
    requires forall c :: from <= c < upTo ==> bs[c].name != name
    ensures var a, z := states[from], states[upTo];
            && |z| == |a| && (forall j :: 0 <= j < |a| && a[j].oid == name ==> z[j] == a[j])
            && (forall j :: 0 <= j < |a| ==> z[j].oid == a[j].oid)
            && (forall i :: MeantFor(z, key, name, i) <==> MeantFor(a, key, name, i))
    decreases upTo
  {
    hide Handles, MeantFor;
    if from < upTo {
      Untouched(states, key, bs, ok, name, from, upTo - 1);
      OtherName(states[upTo - 1], states[upTo], key, bs[upTo - 1], ok || upTo + 1 < |states|, name);
    }
  }

  /** The bindings have different names, as those of a request. */
  ghost predicate DifferentNames(bs: seq<Binding>) {
    forall c, d :: 0 <= c < d < |bs| ==> bs[c].name != bs[d].name
  }

  /** The value is of another type than the registration that it is for. */
  ghost predicate Mistyped(regs: seq<Reg>, key: Key, b: Binding) {
    exists i :: MeantFor(regs, key, b.name, i) && !Missed(b.value) && b.value.Tag() != regs[i].kind
  }

  lemma {:induction false} HandlesTyped(a: seq<Reg>, z: seq<Reg>, key: Key, b: Binding, more: bool)
    requires Handles(a, z, key, b, more)
    ensures more <==> !Mistyped(a, key, b)
  {}

  /** Whether a binding is mistyped can be told from the registrations before the reply if its name is new. */
  lemma {:induction false} StillTyped(states: seq<seq<Reg>>, key: Key, bs: seq<Binding>, ok: bool, c: nat)
    requires Trace(states, key, bs, ok) && c < |states| && c < |bs|
    requires forall d :: 0 <= d < c ==> bs[d].name != bs[c].name
    ensures Mistyped(states[c], key, bs[c]) <==> Mistyped(states[0], key, bs[c])
  {
    hide Handles, MeantFor, Missed;
    Untouched(states, key, bs, ok, bs[c].name, 0, c);
    MeantNamed(states[c], key, bs[c].name);
    MeantNamed(states[0], key, bs[c].name);
  }

  lemma {:induction false} MeantNamed(regs: seq<Reg>, key: Key, name: Text)
    ensures forall i :: MeantFor(regs, key, name, i) ==> 0 <= i < |regs| && regs[i].oid == name
  {}

  /**
   * A reply with different names is handled up to its first mistyped binding, which is decided on the registrations
   * as they stood before the reply, and accepted exactly when there is none.
   */
  lemma {:induction false} HandledUpTo(states: seq<seq<Reg>>, key: Key, bs: seq<Binding>, ok: bool)
    requires Trace(states, key, bs, ok) && DifferentNames(bs)
    ensures ok <==> forall c :: 0 <= c < |bs| ==> !Mistyped(states[0], key, bs[c])
    ensures !ok ==> Mistyped(states[0], key, bs[|states| - 2])
    ensures forall c :: 0 <= c < |states| - 2 ==> !Mistyped(states[0], key, bs[c])
  {
    hide Handles, Mistyped;
    forall c | 0 <= c < |states| - 1
      ensures Mistyped(states[0], key, bs[c]) <==> !(ok || c + 2 < |states|)
    {
      HandlesTyped(states[c], states[c + 1], key, bs[c], ok || c + 2 < |states|);
      StillTyped(states, key, bs, ok, c);
    }
    if !ok {
      assert Mistyped(states[0], key, bs[|states| - 2]);
    }
  }

  /** What the reply leaves in a registration that it reaches by name. */
  ghost predicate Delivered(r: Reg, next: Reg, key: Key, v: Ber) {
    && next.keys == (if r.tracking then r.keys - {key} else r.keys)
    && (!Missed(v) && v.Tag() == r.kind && Holdable(r.sink, v) ==>
          next.content == Some(v) && next.serial == (r.serial + 1) % TWO32 && next.updates == r.updates + 1)
    && (!(!Missed(v) && v.Tag() == r.kind && Holdable(r.sink, v)) ==>
          next.content == r.content && next.serial == r.serial && next.updates == r.updates)
  }

  /**
   * A binding that is reached, and whose name no other binding carries, goes to the registration that waits for it
   * as the registrations stood before the reply; afterwards that one holds the value, unless it is an exception, of
   * another type or too long. A value of another type ends the reply there; any other lets it go on.
   */
  lemma {:induction false} ReachedIsDelivered(states: seq<seq<Reg>>, key: Key, bs: seq<Binding>, ok: bool, b: nat,
                                              i: nat)
    requires Trace(states, key, bs, ok) && b < |states| - 1
    requires forall c :: 0 <= c < |bs| && c != b ==> bs[c].name != bs[b].name
    requires MeantFor(states[0], key, bs[b].name, i)
    ensures |states[|states| - 1]| == |states[0]|
    ensures Delivered(states[0][i], states[|states| - 1][i], key, bs[b].value)
    ensures var other := !Missed(bs[b].value) && bs[b].value.Tag() != states[0][i].kind;
            other <==> !ok && b == |states| - 2
  {
    var name, last := bs[b].name, |states| - 1;
    assert states[0][i].oid == name;
    Untouched(states, key, bs, ok, name, 0, b);
    Untouched(states, key, bs, ok, name, b + 1, last);
    OnlyOne(states[b], key, name, i);
    hide MeantFor, Missed;
    assert Handles(states[b], states[b + 1], key, bs[b], ok || b + 2 < |states|);
  }

  lemma {:induction false} OnlyOne(regs: seq<Reg>, key: Key, name: Text, i: nat)
    requires MeantFor(regs, key, name, i)
    ensures forall j :: MeantFor(regs, key, name, j) ==> j == i
  {
    RouteMeant(regs, key, name, i);
    forall j | MeantFor(regs, key, name, j)
      ensures j == i
    {
      RouteMeant(regs, key, name, j);
    }
  }

  /**
   * That a correct reply arrives. In a reply without an error, of the right community and with different names, take
   * a binding in front of which nothing is mistyped: the registration that waits for it holds the value afterwards,
   * its serial and its updates have grown by one and the request is used up; a value that it cannot hold, and an
   * exception, leave the old one and use the request up; a mistyped one rejects the reply, and nothing behind it is
   * written.
   */
  lemma {:induction false} ReplyArrives(a: seq<Reg>, z: seq<Reg>, community: seq<byte>, m: Message, udp: nat, peer: nat,
                                        ok: bool, b: nat, i: nat)
    requires Handled(a, z, community, m, udp, peer, ok)
    requires m.kind == RESPONSE && m.community == community && m.errorStatus == 0
    requires DifferentNames(m.bindings) && b < |m.bindings|
    requires MeantFor(a, Key(m.id, udp, peer), m.bindings[b].name, i)
    ensures |z| == |a|
    ensures ok <==> forall c :: 0 <= c < |m.bindings| ==> !Mistyped(a, Key(m.id, udp, peer), m.bindings[c])
    ensures if forall c :: 0 <= c < b ==> !Mistyped(a, Key(m.id, udp, peer), m.bindings[c])
            then Delivered(a[i], z[i], Key(m.id, udp, peer), m.bindings[b].value)
            else z[i] == a[i]
  {
    hide MeantFor, Delivered, Mistyped;
    var key, bs := Key(m.id, udp, peer), m.bindings;
    var states :| Trace(states, key, bs, ok) && states[0] == a && states[|states| - 1] == z;
    HandledUpTo(states, key, bs, ok);
    if b < |states| - 1 {
      ReachedIsDelivered(states, key, bs, ok, b, i);
    } else {
      BehindIsLeft(states, key, bs, ok, b, i);
    }
  }

  /** Behind a mistyped binding nothing is handled. */
  lemma {:induction false} BehindIsLeft(states: seq<seq<Reg>>, key: Key, bs: seq<Binding>, ok: bool, b: nat, i: nat)
    requires Trace(states, key, bs, ok) && DifferentNames(bs) && |states| - 1 <= b < |bs|
    requires MeantFor(states[0], key, bs[b].name, i)
    ensures |states[|states| - 1]| == |states[0]| && states[|states| - 1][i] == states[0][i]
  {
    hide Handles;
    assert states[0][i].oid == bs[b].name;
    Untouched(states, key, bs, ok, bs[b].name, 0, |states| - 1);
  }

  // ----- requests -----

  /** A tracked send makes its registrations wait for the answer, keeps what they waited for, and writes nothing. */
  lemma {:induction false} SentIsAwaited(r: Reg, key: Key, name: Text)
    requires r.oid == name && r.ip == key.peer
    ensures var next := Track(r, key);
            && Awaits(next, key, name) && next.keys == r.keys + {key}
            && next.(keys := r.keys, tracking := r.tracking, tracked := r.tracked, updates := r.updates) == r
  {}

  /** Registration i is the first of its name that the send lists or that waits for the same key already. */
  ghost predicate FirstSent(regs: seq<Reg>, listed: set<nat>, key: Key, name: Text, i: nat) {
    && i < |regs| && i in listed && Named(regs[i], key.peer, name)
    && forall j: nat :: j < i ==> !Awaits(regs[j], key, name) && (j in listed ==> !Named(regs[j], key.peer, name))
  }

  lemma {:induction false} SentIsMeant(regs: seq<Reg>, listed: set<nat>, key: Key, name: Text, i: nat)
    requires FirstSent(regs, listed, key, name, i)
    ensures var sent := Dispatches.TrackAll(regs, listed, key);
            MeantFor(sent, key, name, i) && sent[i] == Track(regs[i], key)
  {
    SentIsAwaited(regs[i], key, name);
    var sent := Dispatches.TrackAll(regs, listed, key);
    assert Awaits(sent[i], key, name);
    forall j: nat | j < i
      ensures !Awaits(sent[j], key, name)
    {
      assert !Awaits(regs[j], key, name);
    }
  }

  /** A request and its answer: the reply that comes next leaves its value where the send has asked for it. */
  lemma {:induction false} SentThenAnswered(regs: seq<Reg>, listed: set<nat>, key: Key, z: seq<Reg>, m: Message,
                                            ok: bool, b: nat, i: nat)
    requires key.id == m.id && b < |m.bindings| && FirstSent(regs, listed, key, m.bindings[b].name, i)
    requires m.kind == RESPONSE && m.errorStatus == 0 && DifferentNames(m.bindings)
    requires Handled(Dispatches.TrackAll(regs, listed, key), z, m.community, m, key.udp, key.peer, ok)
    requires forall c :: 0 <= c < b ==> !Mistyped(Dispatches.TrackAll(regs, listed, key), key, m.bindings[c])
    ensures |z| == |regs| && z[i].keys == regs[i].keys - {key}
    ensures var v := m.bindings[b].value;
            if !Missed(v) && v.Tag() == regs[i].kind && Holdable(regs[i].sink, v)
            then z[i].content == Some(v) && z[i].serial == (regs[i].serial + 1) % TWO32
            else z[i].content == regs[i].content && z[i].serial == regs[i].serial
  {
    hide MeantFor, Mistyped, Handled, FirstSent, DifferentNames, Missed, Holdable;
    SentIsMeant(regs, listed, key, m.bindings[b].name, i);
    ReplyArrives(Dispatches.TrackAll(regs, listed, key), z, m.community, m, key.udp, key.peer, ok, b, i);
  }
}
