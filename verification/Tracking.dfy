/** The low-level objects: ValueCallback, SNMPGet::sendTo and the reply routing of SNMPManager. */
module Tracking {
  import opened Bytes
  import opened Trees
  import opened Serialiser
  import opened Registrations

  // ----- slots -----

  lemma {:induction false} ActivateKeys(slots: seq<Slot>, i: nat, key: Key)
    requires i < |slots| && (Holds(slots[i], key) || !slots[i].active)
    ensures Keys(slots[i := Slot(true, key)]) == Keys(slots) + {key}
  {
    var next := slots[i := Slot(true, key)];
    forall k | true
      ensures k in Keys(slots) + {key} <==> exists j :: 0 <= j < |next| && Holds(next[j], k)
    {
      KeysExact(slots, k);
      if k in Keys(slots) {
        var j :| 0 <= j < |slots| && Holds(slots[j], k);
        assert Holds(next[j], k);
      }
      assert Holds(next[i], key);
      if exists j :: 0 <= j < |next| && Holds(next[j], k) {
        var j :| 0 <= j < |next| && Holds(next[j], k);
        assert j != i ==> Holds(slots[j], k);
      }
    }
    KeysEqual(next, Keys(slots) + {key});
  }

  /** The slots without one key. */
  predicate Freed(before: seq<Slot>, after: seq<Slot>, key: Key) {
    |after| == |before| &&
    forall i :: 0 <= i < |before| ==>
      after[i] == if Holds(before[i], key) then before[i].(active := false) else before[i]
  }

  lemma {:induction false} FreedKeys(before: seq<Slot>, after: seq<Slot>, key: Key)
    requires Freed(before, after, key)
    ensures Keys(after) == Keys(before) - {key}
    ensures Distinct(before) ==> Distinct(after)
  {
    forall k | true
      ensures k in Keys(before) - {key} <==> exists j :: 0 <= j < |after| && Holds(after[j], k)
    {
      KeysExact(before, k);
      if k in Keys(before) - {key} {
        var j :| 0 <= j < |before| && Holds(before[j], k);
        assert Holds(after[j], k);
      }
      if exists j :: 0 <= j < |after| && Holds(after[j], k) {
        var j :| 0 <= j < |after| && Holds(after[j], k);
        assert Holds(before[j], k);
      }
    }
    KeysEqual(after, Keys(before) - {key});
  }

  lemma {:induction false} NoneActive(slots: seq<Slot>)
    ensures Keys(slots) == {} <==> forall i :: 0 <= i < |slots| ==> !slots[i].active
  {
    forall i | 0 <= i < |slots|
      ensures slots[i].active ==> slots[i].key in Keys(slots)
    {
      KeysExact(slots, slots[i].key);
      assert slots[i].active ==> Holds(slots[i], slots[i].key);
    }
    if Keys(slots) != {} {
      var k :| k in Keys(slots);
      KeysExact(slots, k);
    }
  }

  // ----- a registration -----

  class ValueCallback {
    const ip: nat
    const oid: Text
    const kind: byte
    const sink: Sink
    var content: Option<Ber>
    var updateSerial: uint32
    var requestTracked: bool
    var requestPending: bool
    var expectedRequestID: int
    var requestUDP: nat
    var requestPeer: nat
    var trackingEnabled: bool
    var pending: seq<Slot>            // the embedded array of SNMP_MAX_PENDING_REQUESTS slots
    ghost var updates: nat
    ghost var tracked: nat

    constructor (address: nat, name: Text, tag: byte, destination: Sink, slots: nat)
      ensures Valid() && |pending| == slots && !trackingEnabled && Keys(pending) == {}
      ensures ip == address && oid == name && kind == tag && sink == destination
    {
      ip, oid, kind, sink := address, name, tag, destination;
      content, updateSerial := None, 0;
      requestTracked, requestPending, trackingEnabled := false, false, false;
      expectedRequestID, requestUDP, requestPeer := 0, 0, 0;
      pending := seq(slots, i => Slot(false, Key(0, 0, 0)));
      updates, tracked := 0, 0;
      new;
      NoneActive(pending);
    }

    ghost function View(): Reg
      reads this
    {
      Reg(ip, oid, kind, sink, content, updateSerial, trackingEnabled, Keys(pending), updates, tracked)
    }

    /** Distinct pending keys, a truthful summary, and every update paid for by a tracked send. */
    ghost predicate Valid()
      reads this
    {
      Distinct(pending) && requestPending == (Keys(pending) != {}) && Accounted(View())
    }

    /** Room for one more key, or the key is there already. */
    ghost predicate Trackable(key: Key)
      reads this
    {
      key in Keys(pending) || |Keys(pending)| < |pending|
    }

    method CanTrack(id: int, udp: nat, peer: nat) returns (r: bool)
      requires Valid()
      ensures r == Trackable(Key(id, udp, peer))
    {
      KeysCount(pending);
      KeysExact(pending, Key(id, udp, peer));
      hide Keys;
      var i := 0;
      while i < |pending|
        invariant 0 <= i <= |pending|
        invariant forall j :: 0 <= j < i ==> pending[j].active && !Holds(pending[j], Key(id, udp, peer))
      {
        if !pending[i].active || pending[i].key == Key(id, udp, peer) {
          assert pending[i].active ==> Holds(pending[i], Key(id, udp, peer));
          return true;
        }
        i := i + 1;
      }
      return false;
    }

    method Matches(id: int, udp: nat, peer: nat) returns (r: bool)
      ensures r == (Key(id, udp, peer) in Keys(pending))
    {
      KeysExact(pending, Key(id, udp, peer));
      hide Keys;
      var i := 0;
      while i < |pending|
        invariant 0 <= i <= |pending|
        invariant forall j :: 0 <= j < i ==> !Holds(pending[j], Key(id, udp, peer))
      {
        if pending[i].active && pending[i].key == Key(id, udp, peer) {
          assert Holds(pending[i], Key(id, udp, peer));
          return true;
        }
        i := i + 1;
      }
      return false;
    }

    /** The slot of the key if it has one, else the first free slot, else none. */
    method FindSlot(key: Key) returns (slot: int)
      requires Distinct(pending)
      ensures -1 <= slot < |pending|
      ensures slot >= 0 ==> Holds(pending[slot], key) || (!pending[slot].active && key !in Keys(pending))
      ensures slot < 0 <==> !Trackable(key)
    {
      KeysCount(pending);
      KeysExact(pending, key);
      hide Keys;
      slot := -1;
      var i := 0;
      while i < |pending|
        invariant 0 <= i <= |pending| && -1 <= slot < i
        invariant forall j :: 0 <= j < i ==> !Holds(pending[j], key)
        invariant slot >= 0 ==> !pending[slot].active
        invariant slot < 0 ==> forall j :: 0 <= j < i ==> pending[j].active
      {
        if pending[i].active && pending[i].key == key {
          assert Holds(pending[i], key);
          return i;
        }
        if !pending[i].active && slot < 0 {
          slot := i;
        }
        i := i + 1;
      }
    }

    /** Fill a slot and account for the send. */
    method Occupy(slot: nat, key: Key)
      requires slot < |pending| && Distinct(pending)
      requires Holds(pending[slot], key) || (!pending[slot].active && key !in Keys(pending))
      modifies this`pending, this`trackingEnabled, this`updates, this`tracked
      ensures Distinct(pending) && |pending| == |old(pending)| && key in Keys(pending)
      ensures View() == Registrations.Track(old(View()), key)
    {
      hide Keys, Distinct, Holds;
      ActivateKeys(pending, slot, key);
      StillDistinct(pending, slot, key);
      updates := if trackingEnabled then updates else 0;
      tracked := if key in Keys(pending) then tracked else tracked + 1;
      pending := pending[slot := Slot(true, key)];
      trackingEnabled := true;
    }

    /** Record a successful send; a repetition reuses its slot, and a full registration is left alone. */
    method Track(id: int, udp: nat, peer: nat)
      requires Valid()
      modifies this
      ensures Valid() && |pending| == |old(pending)|
      ensures old(Trackable(Key(id, udp, peer))) ==>
                View() == Registrations.Track(old(View()), Key(id, udp, peer))
                && requestTracked && requestPending && expectedRequestID == id && requestUDP == udp
                && requestPeer == peer
      ensures !old(Trackable(Key(id, udp, peer))) ==> unchanged(this)
    {
      var key := Key(id, udp, peer);
      var slot := FindSlot(key);
      hide Keys, Distinct, Accounted, Holds, Trackable;
      if slot < 0 {
        return;
      }
      TrackAccounted(View(), key);
      hide Registrations.Track;
      Occupy(slot, key);
      requestTracked, requestPending := true, true;
      expectedRequestID, requestUDP, requestPeer := id, udp, peer;
    }

    /** Free the slots of one key. */
    method Release(key: Key) returns (found: bool, still: bool)
      modifies this`pending
      ensures Freed(old(pending), pending, key)
      ensures found <==> exists j :: 0 <= j < |old(pending)| && Holds(old(pending)[j], key)
      ensures still <==> exists j :: 0 <= j < |pending| && pending[j].active
    {
      ghost var before := pending;
      found, still := false, false;
      var i := 0;
      while i < |pending|
        invariant 0 <= i <= |pending| == |before|
        invariant forall j :: 0 <= j < i ==>
                    pending[j] == if Holds(before[j], key) then before[j].(active := false) else before[j]
        invariant forall j :: i <= j < |before| ==> pending[j] == before[j]
        invariant found <==> exists j :: 0 <= j < i && Holds(before[j], key)
        invariant still <==> exists j :: 0 <= j < i && pending[j].active
      {
        if pending[i].active && pending[i].key == key {
          pending := pending[i := pending[i].(active := false)];
          found := true;
          assert Holds(before[i], key);
        }
        still := still || pending[i].active;
        i := i + 1;
      }
    }

    /** Use up a pending request, if there is one; its slot becomes free. */
    method Consume(id: int, udp: nat, peer: nat) returns (found: bool)
      requires Valid()
      modifies this`pending, this`requestPending
      ensures Valid() && |pending| == |old(pending)|
      ensures found == (Key(id, udp, peer) in old(Keys(pending)))
      ensures View() == Registrations.Consume(old(View()), Key(id, udp, peer))
    {
      var key := Key(id, udp, peer);
      ghost var before := pending;
      ghost var view := View();
      KeysExact(pending, key);
      hide Keys, Accounted, Distinct, Holds, Freed;
      ConsumeAccounted(view, key);
      found, requestPending := Release(key);
      FreedKeys(before, pending, key);
      NoneActive(pending);
      assert View() == Registrations.Consume(view, key);
    }

    /** Abandon everything pending; tracking stays enabled, so late replies are still refused. */
    method ClearPendingRequests()
      requires Valid()
      modifies this`pending, this`requestPending
      ensures Valid() && Keys(pending) == {} && !requestPending && |pending| == |old(pending)|
      ensures View() == old(View()).(keys := {})
    {
      ghost var before := pending;
      var i := 0;
      while i < |pending|
        invariant 0 <= i <= |pending| == |before|
        invariant forall j :: 0 <= j < i ==> !pending[j].active
      {
        pending := pending[i := pending[i].(active := false)];
        i := i + 1;
      }
      requestPending := false;
      NoneActive(pending);
    }

    /** Write a value of the registered type, if the destination takes it. */
    method Write(v: Ber)
      requires Distinct(pending) && requestPending == (Keys(pending) != {})
      requires Accounted(Registrations.Written(View(), v))
      modifies this`content, this`updateSerial, this`updates
      ensures Valid() && View() == Registrations.Written(old(View()), v)
    {
      if Fits(sink, v) {
        content := Some(v);
        updateSerial := (updateSerial + 1) % TWO32;
        updates := updates + 1;
      }
    }
  }

  lemma {:induction false} StillDistinct(slots: seq<Slot>, i: nat, key: Key)
    requires i < |slots| && Distinct(slots) && (Holds(slots[i], key) || (!slots[i].active && key !in Keys(slots)))
    ensures Distinct(slots[i := Slot(true, key)])
  {
    KeysExact(slots, key);
    hide Keys;
    forall j | 0 <= j < |slots| && j != i && slots[j].active
      ensures slots[j].key != key
    {
      assert !Holds(slots[j], key);
    }
  }
}
