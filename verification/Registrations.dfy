/** Registrations of the low-level API as values: bounded sets of pending requests, and what a reply does to them. */
module Registrations {
  import opened Bytes
  import opened Trees
  import opened Messages

  /** A request as its reply will be recognised: ID, transport and peer. */
  datatype Key = Key(id: int, udp: nat, peer: nat)

  datatype Slot = Slot(active: bool, key: Key)

  // ----- the slot array is a bounded set -----

  /** The keys of the active slots. */
  function Keys(slots: seq<Slot>): set<Key> {
    if slots == [] then {}
    else
      var last := slots[|slots| - 1];
      Keys(slots[..|slots| - 1]) + (if last.active then {last.key} else {})
  }

  predicate Distinct(slots: seq<Slot>) {
    forall i, j :: 0 <= i < j < |slots| && slots[i].active && slots[j].active ==> slots[i].key != slots[j].key
  }

  predicate Holds(slot: Slot, key: Key) { slot.active && slot.key == key }

  lemma {:induction false} KeysExact(slots: seq<Slot>, key: Key)
    ensures key in Keys(slots) <==> exists i :: 0 <= i < |slots| && Holds(slots[i], key)
    decreases |slots|
  {
    if slots != [] {
      var before, n := slots[..|slots| - 1], |slots| - 1;
      KeysExact(before, key);
      if key in Keys(before) {
        var i :| 0 <= i < |before| && Holds(before[i], key);
        assert Holds(slots[i], key);
      }
      if exists i :: 0 <= i < |slots| && Holds(slots[i], key) {
        var i :| 0 <= i < |slots| && Holds(slots[i], key);
        assert i < n ==> Holds(before[i], key);
      }
      assert Holds(slots[n], key) ==> key in Keys(slots);
    }
  }

  /** With distinct keys the set has one element for each active slot, so it is full when no slot is free. */
  lemma {:induction false} KeysCount(slots: seq<Slot>)
    requires Distinct(slots)
    ensures |Keys(slots)| <= |slots|
    ensures |Keys(slots)| == |slots| <==> forall i :: 0 <= i < |slots| ==> slots[i].active
    decreases |slots|
  {
    if slots != [] {
      var before, n := slots[..|slots| - 1], |slots| - 1;
      KeysCount(before);
      KeysExact(before, slots[n].key);
      assert forall i :: 0 <= i < n ==> before[i] == slots[i];
      assert slots[n].active ==> slots[n].key !in Keys(before);
      assert |Keys(slots)| == |Keys(before)| + (if slots[n].active then 1 else 0);
    }
  }

  lemma {:induction false} KeysEqual(a: seq<Slot>, ks: set<Key>)
    requires forall key :: key in ks <==> exists i :: 0 <= i < |a| && Holds(a[i], key)
    ensures Keys(a) == ks
  {
    forall key
      ensures key in Keys(a) <==> key in ks
    {
      KeysExact(a, key);
    }
  }

  // ----- registrations -----

  /** Where a value goes. */
  datatype Sink =
    | Binary(capacity: nat)    // bytes and a length
    | CString(capacity: nat)   // terminated text
    | Scalar
    | Absent

  /** A registration with its history: updates since tracking was enabled, and requests taken on. */
  datatype Reg = Reg(
    ip: nat,
    oid: Text,
    kind: byte,
    sink: Sink,
    content: Option<Ber>,   // the last value written
    serial: uint32,         // updateSerial
    tracking: bool,         // trackingEnabled
    keys: set<Key>,
    updates: nat,
    tracked: nat)

  /** At-most-once: every update since tracking began used up one request. */
  predicate Accounted(r: Reg) {
    (r.tracking ==> r.updates + |r.keys| <= r.tracked) && (r.keys != {} ==> r.tracking)
  }

  /** The destination checks of the type switch. */
  predicate Fits(sink: Sink, v: Ber) {
    match v
    case Str(bytes) => FitsBytes(sink, bytes)
    case Raw(kind, bytes) => kind == OPAQUE && FitsBytes(sink, bytes)
    case Name(text) => sink.CString? && |text| < sink.capacity
    case Number(_, _) => true
    case Counter(_) => true
    case _ => false
  }

  predicate FitsBytes(sink: Sink, bytes: Text) {
    (sink.Binary? && |bytes| <= sink.capacity) || (sink.CString? && |bytes| < sink.capacity && 0 !in bytes)
  }

  function Written(r: Reg, v: Ber): Reg {
    if Fits(r.sink, v) then
      r.(content := Some(v), serial := (r.serial + 1) % TWO32, updates := r.updates + 1)
    else r
  }

  /**
   * A tracked send; the first one starts the count of updates afresh. A request that is pending already counts once.
   */
  function Track(r: Reg, key: Key): Reg {
    r.(keys := r.keys + {key}, tracking := true, tracked := if key in r.keys then r.tracked else r.tracked + 1,
       updates := if r.tracking then r.updates else 0)
  }

  function Consume(r: Reg, key: Key): Reg { r.(keys := r.keys - {key}) }

  // ----- routing one binding -----

  predicate Concerns(r: Reg, peer: nat, name: Text) { r.ip == peer && r.oid == name }

  /** The registration waits for exactly this reply to exactly this name. */
  predicate Matching(r: Reg, key: Key, name: Text) { Concerns(r, key.peer, name) && r.tracking && key in r.keys }

  /** The first registration that sent this request for this name. */
  function FirstMatch(regs: seq<Reg>, key: Key, name: Text): (i: nat)
    ensures i <= |regs|
    ensures i < |regs| ==> Matching(regs[i], key, name)
    ensures forall j :: 0 <= j < i ==> !Matching(regs[j], key, name)
  {
    if regs == [] || Matching(regs[0], key, name) then 0
    else 1 + FirstMatch(regs[1..], key, name)
  }

  function FirstUntracked(regs: seq<Reg>, peer: nat, name: Text): (i: nat)
    ensures i <= |regs|
    ensures i < |regs| ==> Concerns(regs[i], peer, name) && !regs[i].tracking
    ensures forall j :: 0 <= j < i ==> !(Concerns(regs[j], peer, name) && !regs[j].tracking)
  {
    if regs == [] || (Concerns(regs[0], peer, name) && !regs[0].tracking) then 0
    else 1 + FirstUntracked(regs[1..], peer, name)
  }

  predicate HasTracked(regs: seq<Reg>, peer: nat, name: Text) {
    exists i :: 0 <= i < |regs| && Concerns(regs[i], peer, name) && regs[i].tracking
  }

  /** The registration a binding goes to, or the number of registrations. */
  function Route(regs: seq<Reg>, key: Key, name: Text): (i: nat)
    ensures i <= |regs|
  {
    var i := FirstMatch(regs, key, name);
    if i < |regs| then i
    else if HasTracked(regs, key.peer, name) then |regs|
    else FirstUntracked(regs, key.peer, name)
  }

  /** What a routed binding does to its registration: the request is used up before anything is written. */
  function Applied(r: Reg, key: Key, v: Ber): (Reg, bool) {
    var used := if r.tracking then Consume(r, key) else r;
    if Exceptional(v.Tag()) then (used, true)
    else if used.kind != v.Tag() then (used, false)
    else (Written(used, v), true)
  }

  /** What one binding does, and whether the rest of the reply is still looked at. */
  function DispatchOne(regs: seq<Reg>, key: Key, b: Binding): (r: (seq<Reg>, bool))
    ensures |r.0| == |regs|
  {
    var i := Route(regs, key, b.name);
    if i == |regs| then (regs, true)
    else (regs[i := Applied(regs[i], key, b.value).0], Applied(regs[i], key, b.value).1)
  }

  /** A whole reply: bindings in order until a type mismatch; false when it was rejected. */
  function DispatchAll(regs: seq<Reg>, key: Key, bs: seq<Binding>): (r: (seq<Reg>, bool))
    ensures |r.0| == |regs|
    decreases |bs|
  {
    if bs == [] then (regs, true)
    else
      var (next, more) := DispatchOne(regs, key, bs[0]);
      if more then DispatchAll(next, key, bs[1..]) else (next, false)
  }

  /** An error status releases the request in every registration and writes nothing. */
  function ConsumeAll(regs: seq<Reg>, key: Key): (r: seq<Reg>)
    ensures |r| == |regs|
    ensures forall i :: 0 <= i < |regs| ==> r[i] == Consume(regs[i], key)
  {
    seq(|regs|, i requires 0 <= i < |regs| => Consume(regs[i], key))
  }

  /** parsePacket on a parsed packet. */
  function Dispatch(regs: seq<Reg>, community: seq<byte>, m: Message, udp: nat, peer: nat): (r: (seq<Reg>, bool))
    ensures |r.0| == |regs|
  {
    var key := Key(m.id, udp, peer);
    if m.kind != RESPONSE then (regs, true)
    else if m.community != community then (regs, false)
    else if m.errorStatus != 0 then (ConsumeAll(regs, key), false)
    else DispatchAll(regs, key, m.bindings)
  }

  // ----- laws -----

  lemma {:induction false} TrackAccounted(r: Reg, key: Key)
    requires Accounted(r)
    ensures Accounted(Track(r, key))
  {
    if key in r.keys {
      assert r.keys + {key} == r.keys;
    }
  }

  lemma {:induction false} ConsumeCount(keys: set<Key>, key: Key)
    ensures |keys - {key}| == |keys| - (if key in keys then 1 else 0)
  {
    if key in keys {
      assert keys == keys - {key} + {key};
    } else {
      assert keys - {key} == keys;
    }
  }

  lemma {:induction false} ConsumeAccounted(r: Reg, key: Key)
    requires Accounted(r)
    ensures Accounted(Consume(r, key))
  {
    ConsumeCount(r.keys, key);
  }

  /** A reply may write only what it has just used up, or what was never tracked. */
  lemma {:induction false} WriteAccounted(r: Reg, key: Key, v: Ber)
    requires Accounted(r) && (r.tracking ==> key in r.keys)
    ensures Accounted(Written(if r.tracking then Consume(r, key) else r, v))
  {
    ConsumeCount(r.keys, key);
  }

  ghost predicate AllAccounted(regs: seq<Reg>) { forall i :: 0 <= i < |regs| ==> Accounted(regs[i]) }

  lemma {:induction false} RouteExpected(regs: seq<Reg>, key: Key, name: Text)
    ensures var i := Route(regs, key, name);
            i < |regs| ==>
              && Concerns(regs[i], key.peer, name)
              && (regs[i].tracking ==> key in regs[i].keys)
              && (!regs[i].tracking ==> !HasTracked(regs, key.peer, name))
  {}

  lemma {:induction false} DispatchOneAccounted(regs: seq<Reg>, key: Key, b: Binding)
    requires AllAccounted(regs)
    ensures AllAccounted(DispatchOne(regs, key, b).0)
  {
    hide Route, Written, Accounted;
    RouteExpected(regs, key, b.name);
    var i := Route(regs, key, b.name);
    if i < |regs| {
      ConsumeAccounted(regs[i], key);
      WriteAccounted(regs[i], key, b.value);
    }
  }

  lemma {:induction false} DispatchAllAccounted(regs: seq<Reg>, key: Key, bs: seq<Binding>)
    requires AllAccounted(regs)
    ensures AllAccounted(DispatchAll(regs, key, bs).0)
    decreases |bs|
  {
    hide DispatchOne, AllAccounted;
    if bs != [] {
      DispatchOneAccounted(regs, key, bs[0]);
      DispatchAllAccounted(DispatchOne(regs, key, bs[0]).0, key, bs[1..]);
    }
  }

  /** No reply, error or duplicate can make updates outnumber requests. */
  lemma {:induction false} DispatchAccounted(regs: seq<Reg>, community: seq<byte>, m: Message, udp: nat, peer: nat)
    requires AllAccounted(regs)
    ensures AllAccounted(Dispatch(regs, community, m, udp, peer).0)
  {
    hide DispatchAll, Accounted;
    var key := Key(m.id, udp, peer);
    DispatchAllAccounted(regs, key, m.bindings);
    forall i | 0 <= i < |regs|
      ensures Accounted(ConsumeAll(regs, key)[i])
    {
      ConsumeAccounted(regs[i], key);
    }
  }

  /** What a reply under the given key may do to one registration. */
  ghost predicate Answered(r: Reg, next: Reg, key: Key) {
    && next.(content := r.content, serial := r.serial, updates := r.updates, keys := r.keys) == r
    && (next.keys == r.keys || next.keys == r.keys - {key})
    && (r.tracking && key !in r.keys ==> next == r)
    && (r.tracking && (next.content != r.content || next.updates != r.updates) ==>
          key in r.keys && key !in next.keys && r.ip == key.peer && next.updates == r.updates + 1)
    && (r.tracking ==> next.updates <= r.updates + 1)
  }

  ghost predicate AllAnswered(regs: seq<Reg>, next: seq<Reg>, key: Key) {
    |next| == |regs| && forall i :: 0 <= i < |regs| ==> Answered(regs[i], next[i], key)
  }

  lemma {:induction false} AnsweredTransitive(a: Reg, b: Reg, c: Reg, key: Key)
    requires Answered(a, b, key) && Answered(b, c, key)
    ensures Answered(a, c, key)
  {
    if a.tracking && b != a {
      assert key in a.keys;
      if key in b.keys {
        assert b.keys == a.keys;
      }
    }
  }

  lemma {:induction false} UsedAnswered(r: Reg, key: Key, v: Ber)
    requires (r.tracking ==> key in r.keys) && r.ip == key.peer
    ensures var used := if r.tracking then Consume(r, key) else r;
            Answered(r, used, key) && Answered(r, Written(used, v), key)
  {
    hide Fits;
  }

  lemma {:induction false} DispatchOneAnswered(regs: seq<Reg>, key: Key, b: Binding)
    ensures AllAnswered(regs, DispatchOne(regs, key, b).0, key)
  {
    hide Route, Written;
    RouteExpected(regs, key, b.name);
    var i := Route(regs, key, b.name);
    if i < |regs| {
      UsedAnswered(regs[i], key, b.value);
    }
    hide Consume;
  }

  lemma {:induction false} DispatchAllAnswered(regs: seq<Reg>, key: Key, bs: seq<Binding>)
    ensures AllAnswered(regs, DispatchAll(regs, key, bs).0, key)
    decreases |bs|
  {
    hide DispatchOne, Answered;
    if bs == [] {
      SameAnswered(regs, key);
    } else {
      var next := DispatchOne(regs, key, bs[0]).0;
      var last := DispatchAll(next, key, bs[1..]).0;
      DispatchOneAnswered(regs, key, bs[0]);
      DispatchAllAnswered(next, key, bs[1..]);
      forall i | 0 <= i < |regs|
        ensures Answered(regs[i], last[i], key)
      {
        AnsweredTransitive(regs[i], next[i], last[i], key);
      }
    }
  }

  lemma {:induction false} SameAnswered(regs: seq<Reg>, key: Key)
    ensures AllAnswered(regs, regs, key)
  {}

  /**
   * At most once: a tracked registration that has no request pending under the reply's key is left exactly as it
   * was; one that has is written at most once, gives the key up when it is, and so ignores every duplicate.
   */
  lemma {:induction false} DispatchAnswered(regs: seq<Reg>, community: seq<byte>, m: Message, udp: nat, peer: nat)
    ensures AllAnswered(regs, Dispatch(regs, community, m, udp, peer).0, Key(m.id, udp, peer))
  {
    hide DispatchAll;
    var key := Key(m.id, udp, peer);
    DispatchAllAnswered(regs, key, m.bindings);
    SameAnswered(regs, key);
    assert AllAnswered(regs, ConsumeAll(regs, key), key);
  }

  /** A late reply for a name that someone tracks never reaches an untracked registration of that name. */
  lemma {:induction false} NotRerouted(regs: seq<Reg>, key: Key, b: Binding, i: nat)
    requires i < |regs| && !regs[i].tracking && HasTracked(regs, key.peer, b.name)
    ensures DispatchOne(regs, key, b).0[i] == regs[i]
  {
    hide Written;
    RouteExpected(regs, key, b.name);
  }
}
