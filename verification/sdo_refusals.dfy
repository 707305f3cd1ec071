/** Why the SDO server refuses a request, and that a refusal leaves the dictionary alone. */
module SdoRefusals {
  import opened Bytes
  import opened Wrappers
  import opened ObjectDictionary
  import opened SdoServer
  import opened SdoTransfers

  /** The transfer is over, nothing has been written, and the client is told why. */
  predicate Aborted(s: Sdo, od: Od, key: OdKey, r: Step, code: AbortCode) {
    r.od == od && r.sdo.state == Idle && Refuses(r.reply, key, code)
  }

  /** Requests that start nothing: an unknown command, an entry that cannot be read or does not exist, and an
      announced size that is not the entry's, or beyond the workspace. */
  lemma InitiateRefused(s: Sdo, od: Od, m: Message, now: nat, hooks: Hooks)
    requires od.Valid() && s.Sound() && s.state == Idle
    ensures var r, key := Request(s, od, m, now, hooks), RequestKey(m);
      var e := Find(od.entries, key);
      && (Specifier(m) == 4 ==> r == Step(s.Reset(), od, None))
      && (Specifier(m) !in {1, 2, 4} ==> Aborted(s, od, key, r, InvalidCommand))
      && (Specifier(m) == 2 && Read(od, key, 512, hooks).0 != NoAbort ==>
            Aborted(s, od, key, r, Read(od, key, 512, hooks).0))
      && (Specifier(m) == 1 && Bit(m[0], 2) && Write(od, key, ExpeditedData(m), hooks).0 != NoAbort ==>
            Aborted(s, od, key, r, Write(od, key, ExpeditedData(m), hooks).0))
      && (Specifier(m) == 1 && !Bit(m[0], 2) ==>
            && (e.None? ==> Aborted(s, od, key, r, ObjectNotFound))
            && (e.Some? ==>
                  var size := if Bit(m[0], 1) then Number(m[4..8]) else e.value.size;
                  && (size > 512 ==> Aborted(s, od, key, r, OutOfMemory))
                  && (e.value.size < size <= 512 ==> Aborted(s, od, key, r, DataTooLong))
                  && (size < e.value.size && size <= 512 ==> Aborted(s, od, key, r, DataTooShort))))
  {
    hide Read, Write, Specifier, Bit, ExpeditedData, RequestKey, AbortMessage, Answer, Find, Number, Refuses;
    SizeIsNumber(m[4..8]);
    forall code ensures Refuses(Some(AbortMessage(RequestKey(m), code)), RequestKey(m), code) {
      AbortRefuses(RequestKey(m), code);
    }
  }

  /** Requests that end a transfer: the wrong command, the wrong toggle bit, data beyond or below the size, and
      data that the dictionary refuses. */
  lemma TransferRefused(s: Sdo, od: Od, m: Message, now: nat, hooks: Hooks)
    requires od.Valid() && s.Sound() && s.state != Idle
    ensures var r, data := Request(s, od, m, now, hooks), SegmentData(m);
      var expected := if s.state == Download then 0 else 3;
      && (Specifier(m) == 4 ==> r == Step(s.Reset(), od, None))
      && (Specifier(m) != 4 && Specifier(m) != expected ==> Aborted(s, od, s.key, r, InvalidCommand))
      && (Specifier(m) == expected && Bit(m[0], 0x10) != s.toggle ==> Aborted(s, od, s.key, r, ToggleBit))
      && (s.state == Download && Specifier(m) == 0 && Bit(m[0], 0x10) == s.toggle ==>
            && (s.offset + |data| > s.size ==> Aborted(s, od, s.key, r, DataTooLong))
            && (Bit(m[0], 1) && s.offset + |data| < s.size ==> Aborted(s, od, s.key, r, DataTooShort))
            && (Bit(m[0], 1) && s.offset + |data| == s.size ==>
                  var code := Write(od, s.key, s.transfer[..s.offset] + data, hooks).0;
                  code != NoAbort ==> Aborted(s, od, s.key, r, code)))
  {
    hide Write, Specifier, Bit, SegmentData, AbortMessage, SegmentMessage, SegmentAck, Refuses;
    forall code ensures Refuses(Some(AbortMessage(s.key, code)), s.key, code) {
      AbortRefuses(s.key, code);
    }
    var data := SegmentData(m);
    if s.offset + |data| <= s.size {
      var filled := Overwrite(s.transfer, s.offset, data);
      assert filled[..s.offset + |data|] == s.transfer[..s.offset] + data;
    }
  }
}
