/** SNMPGet::sendTo and SNMPManager: tracking in all registrations or none, and routing replies to them. */
module Routing {
  import opened Bytes
  import opened Trees
  import Serialiser
  import opened Messages
  import opened Registrations
  import opened Tracking
  import opened Deliveries

  ghost function Views(cbs: seq<ValueCallback>): (r: seq<Reg>)
    reads cbs
    ensures |r| == |cbs|
    ensures forall i :: 0 <= i < |cbs| ==> r[i] == cbs[i].View()
  {
    seq(|cbs|, i requires 0 <= i < |cbs| reads cbs => cbs[i].View())
  }

  ghost predicate AllValid(cbs: seq<ValueCallback>)
    reads cbs
  {
    forall i :: 0 <= i < |cbs| ==> cbs[i].Valid()
  }

  // ----- requests -----

  class Get {
    const version: nat               // 0 or 1 on the wire
    const community: seq<byte>
    var callbacks: seq<ValueCallback>
    var requestID: int
    var udp: nat
    var transport: bool              // a transport has been set

    constructor (wire: nat, name: seq<byte>)
      ensures version == wire && community == name && callbacks == [] && !transport
    {
      version, community := wire, name;
      callbacks, requestID, udp, transport := [], 0, 0, false;
    }

    /** addOIDPointer: the same registration may be listed more than once. */
    method AddOIDPointer(callback: ValueCallback)
      modifies this`callbacks
      ensures callbacks == old(callbacks) + [callback]
    {
      callbacks := callbacks + [callback];
    }

    /** The request that the list stands for. */
    ghost function Request(): (m: Message)
      reads this
      ensures |m.bindings| == |callbacks|
    {
      Message(version + 1, community, GET, requestID, 0, 0,
              seq(|callbacks|, i requires 0 <= i < |callbacks| reads this => Binding(callbacks[i].oid, Null)))
    }

    /** build: the packet tree, one NULL binding for each registration in order. */
    method Build() returns (packet: Ber)
      ensures packet == MessageTree(Request())
    {
      var bindings: seq<Ber> := [];
      var i := 0;
      while i < |callbacks|
        invariant 0 <= i <= |callbacks| && |bindings| == i
        invariant forall j :: 0 <= j < i ==> bindings[j] == BindingTree(Request().bindings[j])
      {
        bindings := bindings + [Node(STRUCTURE, [Name(callbacks[i].oid), Null])];
        i := i + 1;
      }
      assert bindings == BindingTrees(Request().bindings);
      var pdu := Node(GET, [Int32(requestID), Int32(0), Int32(0), Node(STRUCTURE, bindings)]);
      packet := Node(STRUCTURE, [Int32(version), Str(community), pdu]);
    }

    /** Every registration has room for the request. */
    ghost predicate AllTrackable(key: Key)
      reads this, callbacks
    {
      forall i :: 0 <= i < |callbacks| ==> callbacks[i].Trackable(key)
    }

    method CanTrackAll(peer: nat) returns (r: bool)
      requires AllValid(callbacks)
      ensures r == AllTrackable(Key(requestID, udp, peer))
    {
      hide ValueCallback.Valid, ValueCallback.Trackable;
      var i := 0;
      while i < |callbacks|
        invariant 0 <= i <= |callbacks|
        invariant forall j :: 0 <= j < i ==> callbacks[j].Trackable(Key(requestID, udp, peer))
      {
        var ok := callbacks[i].CanTrack(requestID, udp, peer);
        if !ok {
          return false;
        }
        i := i + 1;
      }
      return true;
    }

    /** What sending under a key leaves in a registration that had room for it, listed once or more often. */
    twostate predicate Tracked(cb: ValueCallback, key: Key)
      reads cb
    {
      cb.Valid() && cb.requestPending && cb.View() == Registrations.Track(old(cb.View()), key)
    }

    /** Commit the request in every registration of the list. */
    method TrackAll(peer: nat)
      requires AllValid(callbacks) && AllTrackable(Key(requestID, udp, peer))
      modifies callbacks
      ensures AllValid(callbacks)
      ensures forall i :: 0 <= i < |callbacks| ==> Tracked(callbacks[i], Key(requestID, udp, peer))
    {
      ghost var key := Key(requestID, udp, peer);
      hide ValueCallback.Valid, ValueCallback.Trackable, Keys;
      var i := 0;
      while i < |callbacks|
        invariant 0 <= i <= |callbacks|
        invariant forall j :: 0 <= j < i ==> Tracked(callbacks[j], key)
        invariant forall j :: i <= j < |callbacks| ==> Tracked(callbacks[j], key) || unchanged(callbacks[j])
        invariant AllValid(callbacks)
      {
        label Before:
        assert callbacks[i].Trackable(key) by {
          if Tracked(callbacks[i], key) {
            PendingIsTrackable(callbacks[i], key);
          }
        }
        callbacks[i].Track(requestID, udp, peer);
        assert callbacks[i].View() == Registrations.Track(old@Before(callbacks[i].View()), key);
        assert Keys(callbacks[i].pending) == old@Before(Keys(callbacks[i].pending)) + {key};
        forall j | 0 <= j < |callbacks| && callbacks[j] != callbacks[i]
          ensures unchanged@Before(callbacks[j])
        {}
        i := i + 1;
      }
    }

    /**
     * sendTo: refuse before touching the transport if any registration is full, send, and only after a complete
     * send track the request. It is tracked in all registrations of the list or in none.
     */
    method SendTo(peer: nat, accepted: bool, lim: Limits) returns (ok: bool, sent: seq<byte>)
      requires AllValid(callbacks)
      modifies callbacks
      ensures AllValid(callbacks)
      ensures ok <==>
              && transport && old(AllTrackable(Key(requestID, udp, peer))) && accepted
              && Encode(MessageTree(Request()), lim).Some? && |Encode(MessageTree(Request()), lim).value| <= lim.packet
      ensures ok ==> Some(sent) == Encode(MessageTree(Request()), lim)
      ensures ok ==> forall i :: 0 <= i < |callbacks| ==> Tracked(callbacks[i], Key(requestID, udp, peer))
      ensures !ok ==> forall i :: 0 <= i < |callbacks| ==> unchanged(callbacks[i])
    {
      hide ValueCallback.Valid, AllTrackable, Encode, MessageTree, Keys, Request;
      ok, sent := false, [];
      if !transport {
        return;
      }
      var room := CanTrackAll(peer);
      if !room {
        return;
      }
      var packet := Build();
      var buffer := new byte[lim.packet];
      var length := Serialiser.Serialise(packet, buffer, 0, lim.packet, lim);
      if length < 0 || !accepted {
        return;
      }
      sent := buffer[..length];
      ghost var octets := Encode(packet, lim).value;
      assert sent == octets;
      TrackAll(peer);
      ok := true;
    }
  }

  lemma {:induction false} PendingIsTrackable(cb: ValueCallback, key: Key)
    requires key in Keys(cb.pending)
    ensures cb.Trackable(key)
  {}

  // ----- replies -----

  lemma {:induction false} FirstMatchIs(regs: seq<Reg>, key: Key, name: Text, i: nat)
    requires i <= |regs| && (forall j :: 0 <= j < i ==> !Matching(regs[j], key, name))
    requires i < |regs| ==> Matching(regs[i], key, name)
    ensures FirstMatch(regs, key, name) == i
  {
    hide FirstMatch;
    var j := FirstMatch(regs, key, name);
  }

  lemma {:induction false} FirstUntrackedIs(regs: seq<Reg>, peer: nat, name: Text, i: nat)
    requires i <= |regs| && (forall j :: 0 <= j < i ==> !(Concerns(regs[j], peer, name) && !regs[j].tracking))
    requires i < |regs| ==> Concerns(regs[i], peer, name) && !regs[i].tracking
    ensures FirstUntracked(regs, peer, name) == i
  {
    hide FirstUntracked;
    var j := FirstUntracked(regs, peer, name);
  }

  class Manager {
    const community: seq<byte>
    const udp: nat
    var callbacks: seq<ValueCallback>

    constructor (name: seq<byte>, transport: nat)
      ensures Valid() && callbacks == [] && community == name && udp == transport
    {
      community, udp, callbacks := name, transport, [];
    }

    /** No registration is listed twice. */
    ghost predicate Valid()
      reads this, callbacks
    {
      (forall i, j :: 0 <= i < j < |callbacks| ==> callbacks[i] != callbacks[j]) && AllValid(callbacks)
    }

    /** addHandler: adopting the same registration again changes nothing. */
    method AddHandler(callback: ValueCallback)
      requires Valid() && callback.Valid()
      modifies this`callbacks
      ensures Valid()
      ensures callbacks == if callback in old(callbacks) then old(callbacks) else old(callbacks) + [callback]
    {
      hide ValueCallback.Valid;
      var i := 0;
      while i < |callbacks|
        invariant 0 <= i <= |callbacks|
        invariant callback !in callbacks[..i]
      {
        if callbacks[i] == callback {
          return;
        }
        i := i + 1;
      }
      callbacks := callbacks + [callback];
    }

    /** What the scan asks of one candidate. */
    method Look(candidate: ValueCallback, key: Key, name: Text) returns (concerned: bool, matched: bool)
      ensures concerned == Concerns(candidate.View(), key.peer, name)
      ensures matched == Matching(candidate.View(), key, name)
    {
      concerned := candidate.ip == key.peer && candidate.oid == name;
      matched := false;
      if concerned && candidate.trackingEnabled {
        matched := candidate.Matches(key.id, key.udp, key.peer);
      }
    }

    /** The scan that picks the registration for one binding. */
    method Choose(key: Key, name: Text) returns (chosen: nat)
      ensures chosen == Route(Views(callbacks), key, name)
    {
      hide Concerns, Matching, Keys;
      ghost var regs := Views(callbacks);
      var callback: nat := |callbacks|;
      var untracked: nat := |callbacks|;
      var hasTracked := false;
      var i := 0;
      while i < |callbacks|
        invariant 0 <= i <= |callbacks|
        invariant callback == |callbacks| || callback < i
        invariant untracked == |callbacks| || untracked < i
        invariant forall j :: 0 <= j < i && j < callback ==> !Matching(regs[j], key, name)
        invariant callback < i ==> Matching(regs[callback], key, name)
        invariant forall j :: 0 <= j < i && j < untracked ==> !(Concerns(regs[j], key.peer, name) && !regs[j].tracking)
        invariant untracked < i ==> Concerns(regs[untracked], key.peer, name) && !regs[untracked].tracking
        invariant hasTracked <==> exists j :: 0 <= j < i && Concerns(regs[j], key.peer, name) && regs[j].tracking
      {
        assert regs[i] == callbacks[i].View();
        var concerned, matched := Look(callbacks[i], key, name);
        if matched && callback == |callbacks| {
          callback := i;
        }
        if concerned && !callbacks[i].trackingEnabled && untracked == |callbacks| {
          untracked := i;
        }
        if concerned && callbacks[i].trackingEnabled {
          hasTracked := true;
        }
        i := i + 1;
      }
      FirstMatchIs(regs, key, name, callback);
      FirstUntrackedIs(regs, key.peer, name, untracked);
      return if callback < |callbacks| || hasTracked then callback else untracked;
    }

    /** Use up the request of a registration before anything else, then write the value if it fits. */
    method Apply(callback: ValueCallback, key: Key, v: Ber) returns (more: bool)
      requires callback.Valid() && (callback.trackingEnabled ==> key in Keys(callback.pending))
      modifies callback
      ensures callback.Valid()
      ensures (callback.View(), more) == Applied(old(callback.View()), key, v)
    {
      hide Keys, ValueCallback.Valid, Accounted, Registrations.Written, Registrations.Consume;
      WriteAccounted(callback.View(), key, v) by { ValidFacts(callback); }
      if callback.trackingEnabled {
        var found := callback.Consume(key.id, key.udp, key.peer);
      }
      if Exceptional(v.Tag()) {
        return true;
      }
      if callback.kind != v.Tag() {
        return false;
      }
      ValidFacts(callback);
      callback.Write(v);
      return true;
    }

    /** One binding, routed to the registration it belongs to. */
    method DispatchBinding(key: Key, b: Binding) returns (more: bool)
      requires Valid()
      modifies callbacks
      ensures Valid()
      ensures (Views(callbacks), more) == DispatchOne(old(Views(callbacks)), key, b)
    {
      hide Keys, ValueCallback.Valid, Applied, Route;
      var i := Choose(key, b.name);
      if i == |callbacks| {
        return true;
      }
      ghost var regs := Views(callbacks);
      RouteExpected(regs, key, b.name);
      more := Apply(callbacks[i], key, b.value);
      assert Views(callbacks) == regs[i := Applied(regs[i], key, b.value).0];
    }

    /** The bindings of a reply, in order. */
    method DispatchBindings(key: Key, bs: seq<Binding>) returns (accepted: bool)
      requires Valid()
      modifies callbacks
      ensures Valid()
      ensures (Views(callbacks), accepted) == DispatchAll(old(Views(callbacks)), key, bs)
    {
      hide Valid, DispatchOne, Views;
      var i := 0;
      assert bs[0..] == bs;
      while i < |bs|
        invariant 0 <= i <= |bs| && Valid()
        invariant DispatchAll(Views(callbacks), key, bs[i..]) == DispatchAll(old(Views(callbacks)), key, bs)
      {
        assert bs[i..][0] == bs[i] && bs[i..][1..] == bs[i + 1..];
        var more := DispatchBinding(key, bs[i]);
        if !more {
          return false;
        }
        i := i + 1;
      }
      return true;
    }

    /** An error status releases the request everywhere. */
    method ConsumeEverywhere(key: Key)
      requires Valid()
      modifies callbacks
      ensures Valid()
      ensures Views(callbacks) == ConsumeAll(old(Views(callbacks)), key)
    {
      hide Keys, ValueCallback.Valid, Registrations.Consume;
      ghost var regs := Views(callbacks);
      var i := 0;
      while i < |callbacks|
        invariant 0 <= i <= |callbacks| && Valid()
        invariant forall j :: 0 <= j < i ==> callbacks[j].View() == Registrations.Consume(regs[j], key)
        invariant forall j :: i <= j < |callbacks| ==> callbacks[j].View() == regs[j]
      {
        var found := callbacks[i].Consume(key.id, key.udp, key.peer);
        i := i + 1;
      }
    }

    /** parsePacket: what a received datagram does to all registrations. */
    method ParsePacket(packet: seq<byte>, peer: nat, lim: Limits) returns (ok: bool)
      requires Valid()
      modifies callbacks
      ensures Valid()
      ensures ParseFrom(packet, lim).None? ==> !ok && Views(callbacks) == old(Views(callbacks))
      ensures ParseFrom(packet, lim).Some? ==>
                (Views(callbacks), ok) ==
                Dispatch(old(Views(callbacks)), community, ParseFrom(packet, lim).value, udp, peer)
      ensures ParseFrom(packet, lim).Some? ==>
                Handled(old(Views(callbacks)), Views(callbacks), community, ParseFrom(packet, lim).value, udp, peer, ok)
    {
      hide Handled, Valid, DispatchAll, ConsumeAll, ParseFrom, Views;
      var response := ParseFrom(packet, lim);
      if response.None? {
        return false;
      }
      var m := response.value;
      DispatchHandles(Views(callbacks), community, m, udp, peer);
      if m.kind != RESPONSE {
        return true;
      }
      if m.community != community {
        return false;
      }
      var key := Key(m.id, udp, peer);
      if m.errorStatus != 0 {
        ConsumeEverywhere(key);
        return false;
      }
      ok := DispatchBindings(key, m.bindings);
    }
  }

  lemma {:induction false} ValidFacts(cb: ValueCallback)
    requires cb.Valid()
    ensures Distinct(cb.pending) && cb.requestPending == (Keys(cb.pending) != {}) && Accounted(cb.View())
  {}
}
