/** What is inside a datagram of the client, field by field. */
module Wire {
  import opened Bytes
  import opened Oids
  import opened Trees
  import opened Messages
  import opened Values
  import opened Operations
  import opened OperationLaws
  import opened Requests
  import opened Acceptance
  import opened Engine
  import opened EngineLaws
  import opened StepLaws
  import opened ReplyLaws
  import opened Outgoing

  /** The container that carries a value: an object identifier in its kept spelling, everything else as it was given. */
  ghost predicate Carries(t: Ber, v: Value, lim: Limits) {
    if v.tag == 0x02 || 0x41 <= v.tag <= 0x43 then 0 <= v.number <= 0xFFFF_FFFF && t == Number(v.tag, v.number)
    else if v.tag == 0x46 then t == Counter(v.number)
    else if v.tag == 0x04 then t == Str(v.bytes)
    else if v.tag == 0x44 then t == Raw(0x44, v.bytes)
    else if v.tag == 0x06 then t.Name? && Keeps(v.bytes, t.text, lim)
    else v.tag == 0x40 && t == Address(v.bytes)
  }

  /** A value that may be set, and that a container of the receiver can hold, is carried so. */
  lemma {:induction false} SettableIsCarried(v: Value, version: nat, lim: Limits)
    requires Settable(v, version, lim)
    ensures ValueTree(v, lim).Some? && Carries(Respelled(ValueTree(v, lim).value, lim), v, lim)
  {
    if v.tag == 0x06 {
      TextSpells(v.bytes, lim);
      CanonicalFormIs(v.bytes, lim);
      hide SpellsArcs, EncodeText, CanonicalForm;
      KeepsExact(v.bytes, CanonicalForm(v.bytes, lim).value, lim);
    }
  }

  /** The bindings of a request: a walk's cursor, the names of a batch, or the names and values of a SET. */
  ghost predicate Asks(op: Op, bs: seq<Binding>, lim: Limits) {
    if op.walking then bs == [Binding(op.cursor, Null)]
    else
      && |bs| == op.batch && op.offset + op.batch <= |op.cells|
      && forall j :: 0 <= j < |bs| ==>
           && bs[j].name == op.cells[op.offset + j].oid
           && if op.mode == SET then Carries(bs[j].value, op.cells[op.offset + j].value, lim) else bs[j].value == Null
  }

  lemma {:induction false} RequestAsks(op: Op, version: nat, lim: Limits)
    requires op.walking ==> op.mode != SET
    requires !op.walking ==> op.offset + op.batch <= |op.cells|
    requires op.mode == SET ==> forall j :: 0 <= j < |op.cells| ==> Settable(op.cells[j].value, version, lim)
    ensures Asks(op, RequestBindings(Asked(op), op.mode, lim), lim)
  {
    hide Carries, Settable, ValueTree, Respelled;
    if op.walking {
      assert RequestBindings(Asked(op), op.mode, lim) == [Binding(op.cursor, Null)];
    } else if op.mode == SET {
      forall j | 0 <= j < op.batch
        ensures Carries(RequestBindings(Asked(op), op.mode, lim)[j].value, op.cells[op.offset + j].value, lim)
      {
        assert Asked(op)[j] == op.cells[op.offset + j];
        SettableIsCarried(op.cells[op.offset + j].value, version, lim);
      }
    }
  }

  /** Values that fit the containers of a receiver. */
  ghost predicate Fitting(v: Value, lim: Limits) {
    (v.tag == STRING ==> |v.bytes| < lim.octets) && (v.tag == OPAQUE ==> |v.bytes| <= lim.octets)
  }

  /**
   * Field by field: whatever is on the wire under the ID of a request in flight is a message of the operation's version
   * and community, of its PDU type and ID, with no error, with 4 repetitions if it is in bulk, and with exactly the
   * bindings that the operation asks for.
   */
  lemma {:induction false} RequestFields(w: World, k: nat, i: nat, lim: Limits)
    requires Inv(w, lim) && AllReady(w) && k < |w.ops| && Expects(w.ops[k])
    requires i < |w.wire| && w.wire[i].id == w.ops[k].id
    requires w.ops[k].mode == SET ==>
               forall j :: 0 <= j < |w.ops[k].cells| ==>
                 Settable(w.ops[k].cells[j].value, w.ops[k].dev.version, lim) && Fitting(w.ops[k].cells[j].value, lim)
    ensures var op := w.ops[k];
            exists m :: ParseFrom(w.wire[i].octets, lim) == Some(m)
                        && m.version == op.dev.version + 1 && m.community == op.dev.community && m.kind == op.mode
                        && m.id == op.id && m.errorStatus == 0 && m.errorIndex == (if op.mode == 0xA5 then 4 else 0)
                        && Asks(op, m.bindings, lim)
  {
    var op := w.ops[k];
    InvOp(w, k, lim);
    BatchFacts(op, lim);
    ModeTerms(op, lim);
    SetsConfigured(op, lim);
    hide Inv, AllReady, OpInv, ParseFrom, Asks, Configured, Settable, Fitting, Asked;
    RequestOnWire(w, k, i, lim);
    RequestAsks(op, op.dev.version, lim);
    MessageFields(op, lim);
  }

  lemma {:induction false} ModeTerms(op: Op, lim: Limits)
    requires OpInv(op, lim) && op.Pending()
    ensures op.walking ==> op.mode != SET
    ensures !op.walking ==> op.mode != GETBULK
  {}

  lemma {:induction false} MessageFields(op: Op, lim: Limits)
    requires !op.walking ==> op.mode != GETBULK
    ensures var m := RequestMessage(op.dev.version, op.dev.community, op.mode, op.id, Repetitions(op), Asked(op), lim);
            && m.version == op.dev.version + 1 && m.community == op.dev.community && m.kind == op.mode
            && m.id == op.id && m.errorStatus == 0 && m.errorIndex == (if op.mode == 0xA5 then 4 else 0)
            && m.bindings == RequestBindings(Asked(op), op.mode, lim)
  {
    hide Asked;
  }

  lemma {:induction false} SetsConfigured(op: Op, lim: Limits)
    requires OpInv(op, lim)
    requires op.mode == SET ==>
               forall j :: 0 <= j < |op.cells| ==>
                 Settable(op.cells[j].value, op.dev.version, lim) && Fitting(op.cells[j].value, lim)
    ensures op.mode == SET ==>
              forall j :: 0 <= j < |op.cells| ==> Configured(op.cells[j], SET, op.dev.version == 1, lim)
  {
    ShapeOf(op, lim);
    hide OpInv, Configured, Settable, CheckValue, Canonical;
    if op.mode == SET {
      forall j | 0 <= j < |op.cells|
        ensures Configured(op.cells[j], SET, op.dev.version == 1, lim)
      {
        var c := op.cells[j];
        assert NamedCell(c, lim) && Fitting(c.value, lim);
        ValueExact(c.value, op.dev.version, lim);
        CheckedIsConfigured(c.oid, c.value, c.status, c.expected, op.dev.version, lim);
      }
    }
  }

  lemma {:induction false} ShapeOf(op: Op, lim: Limits)
    requires OpInv(op, lim)
    ensures NamedCells(op.cells, lim) && op.dev.version <= 1
  {
    hide NamedCells;
  }
}
