/** SNMPGetResponse as an object: parseFrom fills its fields and appends bindings one by one. */
module Response {
  import opened Bytes
  import opened Trees
  import opened Serialiser
  import opened Messages

  class SNMPGetResponse {
    var version: nat
    var communityString: seq<byte>
    var requestType: byte
    var requestID: int
    var errorStatus: int
    var errorIndex: int
    var varBinds: seq<Binding>
    var isCorrupt: bool

    constructor ()
      ensures varBinds == [] && isCorrupt
    {
      version, communityString, requestType, requestID, errorStatus, errorIndex := 0, [], 0, 0, 0, 0;
      varBinds, isCorrupt := [], true;
    }

    /** The fields as a message. */
    function Fields(): Message
      reads this
    {
      Message(version, communityString, requestType, requestID, errorStatus, errorIndex, varBinds)
    }

    /** The shape of message and PDU, and the scalar fields. */
    method ReadFields(packet: Ber) returns (bindings: Option<seq<Ber>>)
      requires packet.Node?
      modifies this
      ensures bindings.None? ==> ParseTree(packet).None?
      ensures bindings.Some? ==>
                1 <= version <= 2 &&
                var list := ParseBindings(bindings.value, version == 2);
                ParseTree(packet) == if list.None? then None else Some(Fields().(bindings := list.value))
    {
      hide ParseBindings;
      var kids := packet.kids;
      if |kids| != 3 || !IsInteger(kids[0]) || !kids[1].Str? || kids[0].bits > 1 {
        return None;
      }
      var wireVersion := kids[0].bits;
      var pdu := kids[2];
      requestType := pdu.Tag();
      if !pdu.Node? || !ValidKind(requestType, wireVersion == 1) {
        return None;
      }
      version := wireVersion + 1;
      communityString := kids[1].bytes;
      var fields := pdu.kids;
      if |fields| != 4 || !IsInteger(fields[0]) || !IsInteger(fields[1]) || !IsInteger(fields[2])
         || !fields[3].Node? || fields[3].kind != STRUCTURE {
        return None;
      }
      requestID := Signed32(fields[0].bits);
      errorStatus, errorIndex := Signed32(fields[1].bits), Signed32(fields[2].bits);
      return Some(fields[3].kids);
    }

    /** The binding list, entry by entry. */
    method ReadBindings(entries: seq<Ber>) returns (ok: bool)
      requires varBinds == []
      modifies this`varBinds
      ensures ok <==> ParseBindings(entries, version == 2).Some?
      ensures ok ==> varBinds == ParseBindings(entries, version == 2).value
    {
      hide ParseBinding, ParseBindings;
      var i := 0;
      ghost var all := ParseBindings(entries, version == 2);
      assert entries[0..] == entries && (all.Some? ==> varBinds + all.value == all.value);
      while i < |entries|
        invariant 0 <= i <= |entries|
        invariant var rest := ParseBindings(entries[i..], version == 2);
                  all == if rest.None? then None else Some(varBinds + rest.value)
      {
        ParseBindingsStep(entries, i, version == 2);
        var binding := ParseBinding(entries[i], version == 2);
        if binding.None? {
          return false;
        }
        ghost var rest := ParseBindings(entries[i + 1..], version == 2);
        assert rest.Some? ==> varBinds + ([binding.value] + rest.value) == varBinds + [binding.value] + rest.value;
        varBinds := varBinds + [binding.value];
        i := i + 1;
      }
      ParseBindingsEnd(entries[i..], version == 2);
      return true;
    }

    /** parseFrom: everything from an earlier packet is dropped first. */
    method ParseFrom(buf: array<byte>, available: nat, lim: Limits) returns (ok: bool)
      requires available <= buf.Length
      modifies this
      ensures ok <==> Messages.ParseFrom(buf[..available], lim).Some?
      ensures ok ==> Messages.ParseFrom(buf[..available], lim) == Some(Fields()) && !isCorrupt
    {
      hide ParseTree, ParseBindings, DecodeAt;
      varBinds, communityString, isCorrupt := [], [], true;
      assert buf[0..0 + available] == buf[..available];
      if available < 2 || buf[0] != STRUCTURE {
        return false;
      }
      var packet := DecodeBuffer(STRUCTURE, buf, 0, available, 0, lim);
      if packet.None? {
        return false;
      }
      var bindings := ReadFields(packet.value);
      varBinds := [];
      if bindings.None? {
        return false;
      }
      ok := ReadBindings(bindings.value);
      isCorrupt := !ok;
    }
  }

  lemma {:induction false} ParseBindingsStep(entries: seq<Ber>, i: nat, version2: bool)
    requires i < |entries|
    ensures ParseBindings(entries[i..], version2) ==
            var first, rest := ParseBinding(entries[i], version2), ParseBindings(entries[i + 1..], version2);
            if first.None? || rest.None? then None else Some([first.value] + rest.value)
  {
    assert entries[i..][1..] == entries[i + 1..];
  }

  lemma {:induction false} ParseBindingsEnd(entries: seq<Ber>, version2: bool)
    requires entries == []
    ensures ParseBindings(entries, version2) == Some([])
  {}
}
