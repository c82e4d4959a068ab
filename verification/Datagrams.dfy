/** Exactly which datagrams are taken for a response or an INFORM, down to their octets and with every condition. */
module Datagrams {
  import opened Bytes
  import opened Oids
  import opened Trees
  import opened Messages
  import opened Values
  import opened Acceptance
  import opened Framing
  import opened Informs

  /** Types that a binding may carry; Counter64 and the exceptions only under SNMPv2. */
  ghost predicate Bindable(tag: byte, version: nat) {
    || tag == 0x02 || 0x04 <= tag <= 0x06 || 0x40 <= tag <= 0x44
    || (version == 2 && (tag == 0x46 || 0x80 <= tag <= 0x82))
  }

  ghost predicate Word(n: int) { -0x8000_0000 <= n <= 0x7FFF_FFFF }

  /** A message of SNMPv1 or SNMPv2c. */
  ghost predicate Proper(m: Message) {
    && (m.version == 1 || m.version == 2)
    && (0xA0 <= m.kind <= 0xA3 || (m.version == 2 && 0xA5 <= m.kind <= 0xA7))
    && Word(m.id) && Word(m.errorStatus) && Word(m.errorIndex)
    && forall i :: 0 <= i < |m.bindings| ==> Bindable(m.bindings[i].value.Tag(), m.version)
  }

  lemma {:induction false} ProperIsValid(m: Message)
    ensures Proper(m) <==> ValidMessage(m)
  {
    forall tag: byte, version: nat | 1 <= version <= 2
      ensures Bindable(tag, version) <==> ValidBindingType(tag, version == 2)
    {}
    hide Bindable, ValidBindingType;
    if ValidMessage(m) {
      forall i | 0 <= i < |m.bindings|
        ensures Bindable(m.bindings[i].value.Tag(), m.version)
      {
        assert ValidBindingType(m.bindings[i].value.Tag(), m.version == 2);
      }
    }
    if Proper(m) {
      forall i | 0 <= i < |m.bindings|
        ensures ValidBindingType(m.bindings[i].value.Tag(), m.version == 2)
      {
        assert Bindable(m.bindings[i].value.Tag(), m.version);
      }
    }
  }

  /** The octets begin with a spelling of the message, in any accepted length forms and leaf contents. */
  ghost predicate Spells(b: seq<byte>, m: Message, lim: Limits) {
    Levels(MessageTree(m)) <= 32 && exists f :: Legal(MessageTree(m), f, lim) && Begins(b, MessageTree(m), f)
  }

  /**
   * Receiving, both ways: a datagram parses to a message exactly when it begins with a spelling of it under the tag
   * 0x30 and the message is proper.
   */
  lemma {:induction false} ParseExact(b: seq<byte>, m: Message, lim: Limits)
    ensures ParseFrom(b, lim) == Some(m) <==> |b| > 0 && b[0] == 0x30 && Spells(b, m, lim) && Proper(m)
  {
    ProperIsValid(m);
    MessageTreeShape(m);
    DecodeExact(0x30, b, MessageTree(m), lim);
    hide Decode, ParseTree, MessageTree, ValidMessage, Proper, Legal;
    if ParseFrom(b, lim) == Some(m) {
      ParseTreeExact(Decode(0x30, b, lim).value, m);
    }
    if |b| > 0 && b[0] == 0x30 && Spells(b, m, lim) && Proper(m) {
      ParseTreeExact(MessageTree(m), m);
      LongEnough(b, m, lim);
    }
  }

  lemma {:induction false} LongEnough(b: seq<byte>, m: Message, lim: Limits)
    requires Spells(b, m, lim)
    ensures |b| >= 2
  {
    hide FormFits;
    MessageTreeShape(m);
    var f :| Legal(MessageTree(m), f, lim) && Begins(b, MessageTree(m), f);
  }

  /** The names that lead a notification: sysUpTime.0 and snmpTrapOID.0. */
  ghost predicate LedByTimeAndName(bs: seq<Binding>, lim: Limits) {
    && |bs| >= 2
    && bs[0].name == Print([1, 3, 6, 1, 2, 1, 1, 3, 0]) && bs[0].value.Tag() == 0x43 && Copyable(bs[0].value, lim)
    && bs[1].name == Print([1, 3, 6, 1, 6, 3, 1, 1, 4, 1, 0]) && bs[1].value.Tag() == 0x06 && Copyable(bs[1].value, lim)
  }

  /** An INFORM of SNMPv2c for a community. */
  ghost predicate InformFor(m: Message, community: seq<byte>, lim: Limits) {
    && Proper(m) && m.version == 2 && m.kind == 0xA6 && m.community == community
    && m.errorStatus == 0 && m.errorIndex == 0 && LedByTimeAndName(m.bindings, lim)
  }

  /** And a datagram is taken for an INFORM exactly when it begins with a spelling of one, under whatever outer tag. */
  lemma {:induction false} InformExact(b: seq<byte>, community: seq<byte>, m: Message, lim: Limits)
    ensures ReadInform(b, community, lim) == Some(m) <==> Spells(b, m, lim) && InformFor(m, community, lim)
  {
    hide Decode, ReadInform, MessageTree, ValidMessage, Proper, Legal, Begins, Headed, LedByTimeAndName;
    ReadInformExact(b, community, m, lim);
    ProperIsValid(m);
    MessageTreeShape(m);
    DecodeExact(0x30, b, MessageTree(m), lim);
    HeadedIs(m.bindings, lim);
  }

  lemma {:induction false} HeadedIs(bs: seq<Binding>, lim: Limits)
    ensures Headed(bs, lim) <==> LedByTimeAndName(bs, lim)
  {
    hide Print, CopyValue, Copyable;
    if |bs| >= 2 {
      CopyExact(bs[0].value, lim);
      CopyExact(bs[1].value, lim);
    }
  }
}
