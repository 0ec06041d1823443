/** The one-line frame summary of common/CASExampleHelper.ts, a second decoder of the same layout,
    and its agreement with `Frame`. Only the words are left out: a summary is what it names. */
module Summary {
  import opened Octets
  import opened Frames

  datatype Summary =
    | Unknown                                         // "?"
    | BvlcFunction(code: byte)
    | NetworkMessage(messageType: byte)
    | Pdu(pduType: nat, detail: Option<byte>)         // the service choice, or a reject or abort reason

  function OctetAt(data: Bytes, position: nat): Option<byte> {
    if position < |data| then Some(data[position]) else None
  }

  /** A network number, a length octet and the address; a missing length octet counts as 0. */
  function SkipStation(data: Bytes, offset: nat, present: bool): nat {
    if !present then offset
    else offset + 3 + (if offset + 2 < |data| then data[offset + 2] else 0)
  }

  function Summarize(data: Bytes): Summary {
    if |data| < 4 || data[0] != 0x81 then Unknown
    else if data[1] !in {0x0A, 0x0B, 0x04} then BvlcFunction(data[1])
    else
      var offset := if data[1] == 0x04 then 10 else 4;
      if offset + 2 > |data| then Unknown else
      var control := data[offset + 1];
      var afterDestination := SkipStation(data, offset + 2, BitSet(control, 0x20));
      var afterSource := SkipStation(data, afterDestination, BitSet(control, 0x08));
      var start := if BitSet(control, 0x20) then afterSource + 1 else afterSource;
      SummarizeMessage(data, start, BitSet(control, 0x80))
  }

  function SummarizeMessage(data: Bytes, start: nat, isMessage: bool): Summary {
    if start >= |data| then Unknown
    else if isMessage then NetworkMessage(data[start])
    else SummarizeApdu(data, start)
  }

  function SummarizeApdu(data: Bytes, start: nat): Summary
    requires start < |data|
  {
    var segmented := BitSet(data[start], 0x08);
    var pduType := data[start] / 16;
    if pduType == 0 then Pdu(0, OctetAt(data, start + (if segmented then 5 else 3)))
    else if pduType == 1 then Pdu(1, OctetAt(data, start + 1))
    else if pduType == 3 then Pdu(3, OctetAt(data, start + (if segmented then 4 else 2)))
    else if pduType == 4 then Pdu(4, None)
    else if pduType < 8 then Pdu(pduType, OctetAt(data, start + 2))
    else Unknown
  }

  /** `SummarizeBacnetFrame`, advancing an offset over the frame. */
  method SummarizeBacnetFrame(frame: Bytes) returns (summary: Summary)
    ensures summary == Summarize(frame)
  {
    hide BitSet;
    if |frame| < 4 || frame[0] != 0x81 {
      return Unknown;
    }
    var offset;
    if frame[1] == 0x0A || frame[1] == 0x0B {
      offset := 4;
    } else if frame[1] == 0x04 {
      offset := 10; // past the originating address
    } else {
      return BvlcFunction(frame[1]);
    }
    if offset + 2 > |frame| {
      return Unknown;
    }
    var control := frame[offset + 1];
    offset := offset + 2;
    if BitSet(control, 0x20) {
      offset := offset + 2;
      offset := offset + 1 + (if offset < |frame| then frame[offset] else 0);
    }
    if BitSet(control, 0x08) {
      offset := offset + 2;
      offset := offset + 1 + (if offset < |frame| then frame[offset] else 0);
    }
    if BitSet(control, 0x20) {
      offset := offset + 1; // hop count
    }
    if offset >= |frame| {
      return Unknown;
    }
    if BitSet(control, 0x80) {
      return NetworkMessage(frame[offset]);
    }
    return SummarizeApdu(frame, offset);
  }

  /** What `Frame` and `Answer` say of the same message; asking a response too short for one for its
      service raises. */
  function FromFrame(f: Frame): Result<Summary> {
    match f.networkMessage
    case Some(message) => Ok(NetworkMessage(message))
    case None =>
      match PduType(f)
      case None => Ok(Unknown)
      case Some(t) =>
        if t > 7 then Ok(Unknown)
        else if t == REJECT || t == ABORT then Ok(Pdu(t, OctetAt(f.payload, 2)))
        else
          var service :- Service(f);
          Ok(Pdu(t, service))
  }

  /** A SimpleACK, ComplexACK or Error has its service octet. */
  predicate HasService(f: Frame) {
    PduType(f) in {Some(SIMPLE_ACK), Some(COMPLEX_ACK), Some(ERROR)} ==> |f.payload| >= 3
  }

  /** Only the summary looks at the segmented-message flag, and looks elsewhere for the service. */
  predicate SameServiceOctet(f: Frame) {
    PduType(f).Some? && BitSet(f.payload[0], 0x08) ==>
      && (PduType(f) == Some(CONFIRMED_REQUEST) ==> OctetAt(f.payload, 5) == OctetAt(f.payload, 3))
      && (PduType(f) == Some(COMPLEX_ACK) ==> OctetAt(f.payload, 4) == OctetAt(f.payload, 2))
  }

  /** The kind of message, and the message type or PDU type. */
  predicate SameKind(s: Summary, f: Frame) {
    match f.networkMessage
    case Some(message) => s == NetworkMessage(message)
    case None =>
      match PduType(f)
      case None => s == Unknown
      case Some(t) => if t > 7 then s == Unknown else s.Pdu? && s.pduType == t
  }

  /** The summary names what `Frame` reads exactly if the service octet is there and both look at it;
      where it is not there, `Frame` raises; and in any case the kind of message agrees. */
  predicate Agrees(s: Summary, f: Frame) {
    && (FromFrame(f) == Ok(s) <==> HasService(f) && SameServiceOctet(f))
    && (FromFrame(f).Err? <==> !HasService(f))
    && SameKind(s, f)
  }

  predicate Shared(code: byte) { code in {FORWARDED_NPDU, ORIGINAL_UNICAST, ORIGINAL_BROADCAST} }

  lemma SkipAgrees(data: Bytes, base: nat, p: nat, present: bool)
    requires base <= |data|
    ensures var r := ReadStation(data[base..], p, present);
            if r.Ok? then SkipStation(data, base + p, present) == base + r.value.2
            else SkipStation(data, base + p, present) >= |data|
  {
    if present && p + 3 <= |data| - base {
      assert data[base..][p + 2] == data[base + p + 2];
    }
  }

  lemma SkipGrows(data: Bytes, offset: nat, present: bool)
    ensures SkipStation(data, offset, present) >= offset
  {
  }

  lemma ApduAgrees(data: Bytes, start: nat, f: Frame)
    requires start < |data| && f.payload == data[start..] && f.networkMessage.None?
    ensures Agrees(SummarizeApdu(data, start), f)
  {
    hide BitSet;
    assert f.payload[0] == data[start];
    forall k: nat
      ensures OctetAt(f.payload, k) == OctetAt(data, start + k)
    {
    }
  }

  lemma NpduAgrees(data: Bytes, base: nat, g: Frame)
    requires base + 2 <= |data| && data[1] in {0x0A, 0x0B, 0x04} && |data| >= 4 && data[0] == 0x81
    requires base == if data[1] == 0x04 then 10 else 4
    requires g.networkMessage.None?
    ensures match DecodeNpdu(g, data[base..])
            case Ok(f) => f.ok && Agrees(Summarize(data), f)
            case Err(_) => Summarize(data) == Unknown
  {
    hide ReadStation, SkipStation, BitSet, SummarizeApdu, Agrees, ReadMessage;
    var octets := data[base..];
    var control := octets[1];
    assert control == data[base + 1];
    SkipAgrees(data, base, 2, BitSet(control, 0x20));
    var offset := SkipStation(data, base + 2, BitSet(control, 0x20));
    SkipGrows(data, offset, BitSet(control, 0x08));
    var first := ReadStation(octets, 2, BitSet(control, 0x20));
    if first.Ok? {
      var p := first.value.2;
      SkipAgrees(data, base, p, BitSet(control, 0x08));
      var second := ReadStation(octets, p, BitSet(control, 0x08));
      if second.Ok? {
        var start := second.value.2 + (if BitSet(control, 0x20) then 1 else 0);
        MessageAgrees(data, base, start, BitSet(control, 0x80));
      }
    }
  }

  lemma MessageAgrees(data: Bytes, base: nat, start: nat, isMessage: bool)
    requires base <= |data|
    ensures match ReadMessage(data[base..], start, isMessage)
            case Ok((message, payload)) =>
              forall f: Frame | f.networkMessage == message && f.payload == payload ::
                Agrees(SummarizeMessage(data, base + start, isMessage), f)
            case Err(_) => base + start >= |data|
  {
    var octets := data[base..];
    var r := ReadMessage(octets, start, isMessage);
    if r.Ok? {
      forall f: Frame | f.networkMessage == r.value.0 && f.payload == r.value.1
        ensures Agrees(SummarizeMessage(data, base + start, isMessage), f)
      {
        if base + start < |data| && !isMessage {
          assert octets[start..] == data[base + start..];
          ApduAgrees(data, base + start, f);
        }
      }
    }
  }

  /** Where the NPDU begins. */
  function Base(code: byte): nat { if code == FORWARDED_NPDU then 10 else 4 }

  lemma SharedAgree(data: Bytes)
    requires |data| >= 4 && data[0] == BVLC_TYPE && Shared(data[1]) && |data| >= Base(data[1]) + 2
    requires data[Base(data[1])] == 1
    ensures match DecodeFrame(data)
            case Ok(f) => f.ok && Agrees(Summarize(data), f)
            case Err(_) => Summarize(data) == Unknown
  {
    hide DecodeNpdu, SummarizeApdu, Agrees;
    var code := data[1];
    var base := Base(code);
    assert Slice(data, base, 10 + |data|) == data[base..];
    var f := BLANK.(bvlcFunction := Some(code), bvllData := data[4..]);
    var g := if code == FORWARDED_NPDU then f.(originatingMac := Slice(data, 4, 10)) else f;
    NpduAgrees(data, base, g);
  }

  lemma {:induction false} SkipVersion(data: Bytes, base: nat, offset: nat, present: bool)
    requires base < |data| && base <= offset
    ensures SkipStation(data[base := 1], offset, present) == SkipStation(data, offset, present) >= offset
  {
  }

  /** The summary does not look at the version octet. */
  lemma VersionIgnored(data: Bytes)
    requires |data| >= 4 && data[0] == BVLC_TYPE && Shared(data[1]) && |data| >= Base(data[1]) + 2
    ensures Summarize(data[Base(data[1]) := 1]) == Summarize(data)
  {
    hide SkipStation, BitSet;
    var base := Base(data[1]);
    var control := data[base + 1];
    SkipVersion(data, base, base + 2, BitSet(control, 0x20));
    SkipVersion(data, base, SkipStation(data, base + 2, BitSet(control, 0x20)), BitSet(control, 0x08));
  }

  /** The two decoders on every octet string. Without a BVLC header neither reads anything. A BVLC
      function whose NPDU the summary does not open is named. Of a shared function, `Frame` accepts the
      NPDU exactly if it has two octets and the version is 1; the summary, which does not look at the
      version, names what `Frame` would read of the same octets with version 1, and where `Frame` raises
      on those the summary is unknown. */
  lemma DecodersAgree(data: Bytes)
    ensures |data| < 4 || data[0] != BVLC_TYPE ==> Summarize(data) == Unknown && DecodeFrame(data) == Ok(BLANK)
    ensures |data| >= 4 && data[0] == BVLC_TYPE && !Shared(data[1]) ==> Summarize(data) == BvlcFunction(data[1])
    ensures |data| >= 4 && data[0] == BVLC_TYPE && Shared(data[1]) ==>
              var base := Base(data[1]);
              if |data| < base + 2 then
                Summarize(data) == Unknown && DecodeFrame(data).Ok? && !DecodeFrame(data).value.ok
              else
                && (match DecodeFrame(data[base := 1])
                    case Ok(f) => f.ok && Agrees(Summarize(data), f)
                    case Err(_) => Summarize(data) == Unknown)
                && (if data[base] == 1 then data[base := 1] == data
                    else DecodeFrame(data).Ok? && !DecodeFrame(data).value.ok)
  {
    hide DecodeNpdu, SummarizeApdu, Agrees, SkipStation, BitSet;
    if |data| >= 4 && data[0] == BVLC_TYPE && Shared(data[1]) && |data| >= Base(data[1]) + 2 {
      VersionIgnored(data);
      SharedAgree(data[Base(data[1]) := 1]);
    }
  }

  /** Every frame the encoders build: the summary names what was sent exactly if the service is there and
      where `Frame` looks for it, and always the message type or the PDU type. */
  lemma SummaryOfSent(w: Wrapping, r: Routing, payload: Bytes)
    requires ValidWrapping(w) && FitsBvll(WrappingMac(w) + Npdu(r, payload))
    ensures var s, f := Summarize(Wrap(w, Npdu(r, payload))), FrameSent(w, r, payload);
            if w.Distribute? then s == BvlcFunction(DISTRIBUTE_BROADCAST)
            else
              && Agrees(s, f)
              && (r.message.Some? ==> s == NetworkMessage(r.message.value))
              && (r.message.None? && payload != [] && payload[0] / 16 < 8 ==> s.Pdu? && s.pduType == payload[0] / 16)
  {
    hide Summarize, DecodeFrame, Npdu, BitSet, Pack16;
    var data := Wrap(w, Npdu(r, payload));
    FrameRoundTrip(w, r, payload);
    DecodersAgree(data);
    if !w.Distribute? {
      WrappedBase(w, r, payload);
      assert data[Base(data[1]) := 1] == data;
    }
  }

  lemma WrappedBase(w: Wrapping, r: Routing, payload: Bytes)
    requires ValidWrapping(w) && !w.Distribute? && FitsBvll(WrappingMac(w) + Npdu(r, payload))
    ensures var data := Wrap(w, Npdu(r, payload));
            && |data| >= 4 && data[0] == BVLC_TYPE && Shared(data[1])
            && |data| >= Base(data[1]) + 2 && data[Base(data[1])] == 1
  {
    hide Pack16, StationOctets, Control, HopOctets, MessageOctets;
  }

  /** The shortest frame around a payload: no routing. */
  function Plain(code: byte, version: byte, payload: Bytes): Bytes
    requires |payload| < 200
  {
    [BVLC_TYPE, code, 0, 6 + |payload|, version, 0] + payload
  }

  lemma PlainDecoded(code: byte, payload: Bytes)
    requires code in {DISTRIBUTE_BROADCAST, ORIGINAL_UNICAST} && |payload| < 200
    ensures var d := DecodeFrame(Plain(code, 1, payload));
            d.Ok? && d.value.ok && d.value.networkMessage.None? && d.value.payload == payload
  {
    hide DecodeNpdu;
    var d := Plain(code, 1, payload);
    var octets := [1, 0] + payload;
    assert d[4..] == octets;
    assert Slice(d, 4, 10 + |d|) == octets;
    PlainNpdu(BLANK.(bvlcFunction := Some(code), bvllData := octets), payload);
  }

  lemma PlainNpdu(f: Frame, payload: Bytes)
    ensures DecodeNpdu(f, [1, 0] + payload) ==
            Ok(f.(ok := true, hasNpdu := true, expectingReply := false, dnet := None, dadr := [], snet := None,
                  sadr := [], networkMessage := None, payload := payload))
  {
    var octets: Bytes := [1, 0] + payload;
    assert octets[1] == 0;
    assert Slice(octets, 2, 2 + |octets|) == payload;
  }

  lemma PlainSummarized(version: byte, payload: Bytes)
    requires 0 < |payload| < 200
    ensures Summarize(Plain(ORIGINAL_UNICAST, version, payload)) == SummarizeApdu(payload, 0)
  {
    var d := Plain(ORIGINAL_UNICAST, version, payload);
    assert Summarize(d) == SummarizeApdu(d, 6);
    hide BitSet;
    forall k: nat
      ensures OctetAt(d, 6 + k) == OctetAt(payload, k)
    {
    }
  }

  /** The summary does not look at the NPDU version, and does not open a Distribute-Broadcast-To-Network. */
  lemma WhereTheyDiffer()
    ensures var d := Plain(ORIGINAL_UNICAST, 2, [0x10, 8]);
            Summarize(d) == Pdu(1, Some(8)) && DecodeFrame(d).Ok? && !DecodeFrame(d).value.ok
    ensures var d := Plain(DISTRIBUTE_BROADCAST, 1, [0x10, 8]);
            && Summarize(d) == BvlcFunction(9)
            && DecodeFrame(d).Ok? && FromFrame(DecodeFrame(d).value) == Ok(Pdu(1, Some(8)))
  {
    hide Summarize, DecodeFrame;
    PlainSummarized(2, [0x10, 8]);
    PlainRefused(2, [0x10, 8]);
    PlainDecoded(DISTRIBUTE_BROADCAST, [0x10, 8]);
    DistributedNamed([0x10, 8]);
  }

  lemma PlainRefused(version: byte, payload: Bytes)
    requires version != 1 && |payload| < 200
    ensures var d := DecodeFrame(Plain(ORIGINAL_UNICAST, version, payload)); d.Ok? && !d.value.ok
  {
    DecodersAgree(Plain(ORIGINAL_UNICAST, version, payload));
    hide DecodeFrame;
  }

  lemma DistributedNamed(payload: Bytes)
    requires |payload| < 200
    ensures Summarize(Plain(DISTRIBUTE_BROADCAST, 1, payload)) == BvlcFunction(9)
  {
  }

  /** Of a segmented request the summary reads the service two octets on. */
  lemma SegmentedDiffers()
    ensures var d := Plain(ORIGINAL_UNICAST, 1, [0x08, 5, 1, 0, 16, 15]);
            && Summarize(d) == Pdu(0, Some(15))
            && DecodeFrame(d).Ok? && FromFrame(DecodeFrame(d).value) == Ok(Pdu(0, Some(0)))
  {
    hide Summarize, DecodeFrame;
    PlainSummarized(1, [0x08, 5, 1, 0, 16, 15]);
    PlainDecoded(ORIGINAL_UNICAST, [0x08, 5, 1, 0, 16, 15]);
  }

  /** The summary names a SimpleACK of one octet, of which `Frame` cannot tell the service. */
  lemma ShortAckDiffers()
    ensures var d := Plain(ORIGINAL_UNICAST, 1, [0x20]);
            && d == [0x81, 0x0A, 0, 7, 1, 0, 0x20] && Summarize(d) == Pdu(2, None)
            && DecodeFrame(d).Ok? && DecodeFrame(d).value.ok && SameServiceOctet(DecodeFrame(d).value)
            && FromFrame(DecodeFrame(d).value) == Err(Short)
  {
    hide Summarize, DecodeFrame;
    PlainSummarized(1, [0x20]);
    PlainDecoded(ORIGINAL_UNICAST, [0x20]);
  }
}
