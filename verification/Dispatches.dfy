/** Whole runs of the low-level API: sends, replies, error PDUs, duplicates and cancellations in any order. */
module Dispatches {
  import opened Bytes
  import opened Messages
  import opened Registrations

  datatype Event =
    | Send(listed: set<nat>, key: Key, ok: bool)   // sendTo of a request that lists these registrations, and its answer
    | Packet(community: seq<byte>, m: Message, udp: nat, peer: nat)
    | Clear(i: nat)                                // clearPendingRequests

  /** A successful send is tracked in every registration of the list, once however often it is listed. */
  function TrackAll(regs: seq<Reg>, listed: set<nat>, key: Key): (r: seq<Reg>)
    ensures |r| == |regs|
    ensures forall i :: 0 <= i < |regs| ==> r[i] == if i in listed then Track(regs[i], key) else regs[i]
  {
    seq(|regs|, i requires 0 <= i < |regs| => if i in listed then Track(regs[i], key) else regs[i])
  }

  function Next(regs: seq<Reg>, e: Event): (r: seq<Reg>)
    ensures |r| == |regs|
  {
    match e
    case Send(listed, key, ok) => if ok then TrackAll(regs, listed, key) else regs
    case Packet(community, m, udp, peer) => Dispatch(regs, community, m, udp, peer).0
    case Clear(i) => if i < |regs| then regs[i := regs[i].(keys := {})] else regs
  }

  function Run(regs: seq<Reg>, es: seq<Event>): (r: seq<Reg>)
    ensures |r| == |regs|
  {
    if es == [] then regs else Next(Run(regs, es[..|es| - 1]), es[|es| - 1])
  }

  /** The successful sends that list registration i. */
  function Sends(es: seq<Event>, i: nat): nat {
    if es == [] then 0
    else
      var last := es[|es| - 1];
      Sends(es[..|es| - 1], i) + (if last.Send? && last.ok && i in last.listed then 1 else 0)
  }

  /** A registration that has never been sent. */
  predicate New(r: Reg) { !r.tracking && r.keys == {} && r.tracked == 0 }

  /** What one event can do to the count of requests, and to tracking itself. */
  lemma {:induction false} NextCounts(regs: seq<Reg>, e: Event, i: nat)
    requires i < |regs|
    ensures var a, b := regs[i], Next(regs, e)[i];
            && (a.tracking ==> b.tracking)
            && b.tracked <= a.tracked + (if e.Send? && e.ok && i in e.listed then 1 else 0)
            && (b.tracking && !a.tracking ==> e.Send? && e.ok && i in e.listed)
  {
    hide Dispatch;
    match e
    case Send(listed, key, ok) =>
    case Packet(community, m, udp, peer) =>
      DispatchAnswered(regs, community, m, udp, peer);
      assert Answered(regs[i], Next(regs, e)[i], Key(m.id, udp, peer));
    case Clear(j) =>
  }

  lemma {:induction false} NextAccounted(regs: seq<Reg>, e: Event)
    requires AllAccounted(regs)
    ensures AllAccounted(Next(regs, e))
  {
    hide Dispatch, Track, Accounted;
    match e
    case Send(listed, key, ok) =>
      forall i | 0 <= i < |regs|
        ensures Accounted(Track(regs[i], key))
      {
        TrackAccounted(regs[i], key);
      }
    case Packet(community, m, udp, peer) => DispatchAccounted(regs, community, m, udp, peer);
    case Clear(i) =>
      if i < |regs| {
        ClearedAccounted(regs[i]);
      }
  }

  lemma {:induction false} ClearedAccounted(r: Reg)
    requires Accounted(r)
    ensures Accounted(r.(keys := {}))
  {}

  lemma {:induction false} RunCounts(regs: seq<Reg>, es: seq<Event>, i: nat)
    requires forall j :: 0 <= j < |regs| ==> New(regs[j])
    requires i < |regs|
    ensures var r := Run(regs, es);
            AllAccounted(r) && r[i].tracked <= Sends(es, i) && (r[i].tracking <==> Sends(es, i) > 0)
    decreases |es|
  {
    hide Next;
    if es != [] {
      var before := Run(regs, es[..|es| - 1]);
      RunCounts(regs, es[..|es| - 1], i);
      NextAccounted(before, es[|es| - 1]);
      NextCounts(before, es[|es| - 1], i);
      SendTracks(before, es[|es| - 1], i);
    }
  }

  lemma {:induction false} SendTracks(regs: seq<Reg>, e: Event, i: nat)
    requires i < |regs|
    ensures e.Send? && e.ok && i in e.listed ==> Next(regs, e)[i].tracking
  {
    hide Dispatch;
  }

  /**
   * At most once, over every run from new registrations: however sends, replies, duplicates, error PDUs and
   * cancellations interleave, a registration is updated, since its tracking began, at most as often as it was sent;
   * requests still pending are not yet used up; and it is tracked from its first successful send on.
   */
  lemma {:induction false} UpdatesNeverExceedSends(regs: seq<Reg>, es: seq<Event>, i: nat)
    requires forall j :: 0 <= j < |regs| ==> New(regs[j])
    requires i < |regs|
    ensures var r := Run(regs, es)[i];
            && (r.tracking <==> Sends(es, i) > 0)
            && (r.tracking ==> r.updates + |r.keys| <= Sends(es, i))
  {
    hide Next, Run, Sends, New;
    RunCounts(regs, es, i);
    assert Accounted(Run(regs, es)[i]);
  }
}
