/** BVLL (Annex J) and NPDU (section 6.2 of ANSI/ASHRAE 135-2024): the encoders and `Frame`. */
module Frames {
  import opened Octets

  const BVLC_TYPE: byte := 0x81
  const FORWARDED_NPDU: byte := 0x04
  const DISTRIBUTE_BROADCAST: byte := 0x09
  const ORIGINAL_UNICAST: byte := 0x0A
  const ORIGINAL_BROADCAST: byte := 0x0B

  const CONFIRMED_REQUEST := 0
  const UNCONFIRMED_REQUEST := 1
  const SIMPLE_ACK := 2
  const COMPLEX_ACK := 3
  const ERROR := 5
  const REJECT := 6
  const ABORT := 7

  /** A network number and a station address on it; an empty address is a broadcast there. */
  datatype Address = Address(net: uint16, station: Bytes)

  type Station = a: Address | |a.station| < 256 witness Address(0, [])

  datatype Routing = Routing(
    destination: Option<Station>,
    source: Option<Station>,
    expectingReply: bool,
    hopCount: byte,
    message: Option<byte>)

  const LOCAL := Routing(None, None, false, 255, None)

  // ----- encoding

  function Flag(raised: bool, weight: nat): nat { if raised then weight else 0 }

  function Control(r: Routing): byte {
    Flag(r.message.Some?, 0x80) + Flag(r.destination.Some?, 0x20) + Flag(r.source.Some?, 0x08) +
    Flag(r.expectingReply, 0x04)
  }

  function StationOctets(a: Option<Station>): Bytes {
    if a.None? then [] else Pack16(a.value.net) + [|a.value.station|] + a.value.station
  }

  function HopOctets(r: Routing): Bytes { if r.destination.Some? then [r.hopCount] else [] }

  function MessageOctets(r: Routing): Bytes { if r.message.Some? then [r.message.value] else [] }

  function Npdu(r: Routing, payload: Bytes): Bytes {
    [0x01, Control(r)] + StationOctets(r.destination) + StationOctets(r.source) + HopOctets(r) +
    MessageOctets(r) + payload
  }

  /** `npdu`, flag by flag and field by field. */
  method BuildNpdu(r: Routing, payload: Bytes) returns (out: Bytes)
    ensures out == Npdu(r, payload)
  {
    var control := 0;
    if r.message.Some? {
      control := control + 0x80;
    }
    if r.destination.Some? {
      control := control + 0x20;
    }
    if r.source.Some? {
      control := control + 0x08;
    }
    if r.expectingReply {
      control := control + 0x04;
    }
    hide StationOctets;
    out := [0x01, control] + StationOctets(r.destination) + StationOctets(r.source);
    if r.destination.Some? {
      out := out + [r.hopCount];
    }
    if r.message.Some? {
      out := out + [r.message.value];
    }
    out := out + payload;
  }

  /** The four BVLL messages that carry an NPDU. */
  datatype Wrapping = Unicast | Broadcast | Distribute | Forwarded(mac: Bytes)

  predicate ValidWrapping(w: Wrapping) { w.Forwarded? ==> |w.mac| == 6 }

  function WrappingCode(w: Wrapping): byte {
    match w
    case Unicast => ORIGINAL_UNICAST
    case Broadcast => ORIGINAL_BROADCAST
    case Distribute => DISTRIBUTE_BROADCAST
    case Forwarded(_) => FORWARDED_NPDU
  }

  function WrappingMac(w: Wrapping): Bytes { if w.Forwarded? then w.mac else [] }

  /** The length field has 16 bits: packing the length of a longer message raises. */
  predicate FitsBvll(body: Bytes) { 4 + |body| < 0x1_0000 }

  function Bvll(code: byte, body: Bytes): Bytes
    requires FitsBvll(body)
  {
    [BVLC_TYPE, code] + Pack16(4 + |body|) + body
  }

  function Wrap(w: Wrapping, npdu: Bytes): Bytes
    requires FitsBvll(WrappingMac(w) + npdu)
  {
    Bvll(WrappingCode(w), WrappingMac(w) + npdu)
  }

  /** The BVLC length field counts the whole message (Annex J.2). */
  lemma BvllLength(code: byte, body: Bytes)
    requires FitsBvll(body)
    ensures var data := Bvll(code, body); |data| >= 4 && data[0] == BVLC_TYPE && FromBytes(data[2..4]) == |data|
  {
    hide FromBytes;
    assert Bvll(code, body)[2..4] == Pack16(4 + |body|);
  }

  // ----- decoding

  datatype Frame = Frame(
    ok: bool,
    bvlcFunction: Option<byte>,
    bvllData: Bytes,
    originatingMac: Bytes,
    hasNpdu: bool,
    snet: Option<uint16>,
    sadr: Bytes,
    dnet: Option<uint16>,
    dadr: Bytes,
    expectingReply: bool,
    networkMessage: Option<byte>,
    payload: Bytes)

  const BLANK := Frame(false, None, [], [], false, None, [], None, [], false, None, [])

  function BitSet(control: byte, weight: nat): bool
    requires weight > 0
  {
    control / weight % 2 == 1
  }

  /** A network number, a length octet and that many octets; the address slice is clamped. */
  function ReadStation(octets: Bytes, position: nat, present: bool): (r: Result<(Option<uint16>, Bytes, nat)>)
    ensures r.Ok? ==> |r.value.1| < 256
  {
    if !present then Ok((None, [], position))
    else if position + 3 > |octets| then Err(Short)
    else
      Pow256Values();
      var length := octets[position + 2];
      Ok((Some(FromBytes(octets[position..position + 2])),
          Slice(octets, position + 3, position + 3 + length), position + 3 + length))
  }

  /** The message type, if this is a network layer message, and what is left. */
  function ReadMessage(octets: Bytes, position: nat, present: bool): Result<(Option<byte>, Bytes)> {
    if !present then Ok((None, Slice(octets, position, position + |octets|)))
    else if position >= |octets| then Err(Short)
    else
      var message := octets[position];
      var after := if message >= 0x80 then position + 3 else position + 1; // a vendor identifier follows
      Ok((Some(message), Slice(octets, after, after + |octets|)))
  }

  function DecodeNpdu(f: Frame, octets: Bytes): Result<Frame>
    requires |octets| >= 2
  {
    var control := octets[1];
    var (dnet, dadr, p) :- ReadStation(octets, 2, BitSet(control, 0x20));
    var (snet, sadr, q) :- ReadStation(octets, p, BitSet(control, 0x08));
    var hop := if BitSet(control, 0x20) then q + 1 else q;
    var (message, payload) :- ReadMessage(octets, hop, BitSet(control, 0x80));
    Ok(f.(ok := true, hasNpdu := true, expectingReply := BitSet(control, 0x04), dnet := dnet, dadr := dadr,
          snet := snet, sadr := sadr, networkMessage := message, payload := payload))
  }

  /** `Frame(data, source)`. An exception of `_decode` is Err; nobody catches it. */
  function DecodeFrame(data: Bytes): Result<Frame> {
    if |data| < 4 || data[0] != BVLC_TYPE then Ok(BLANK) else
    var code := data[1];
    var f := BLANK.(bvlcFunction := Some(code), bvllData := data[4..]);
    if code !in {FORWARDED_NPDU, DISTRIBUTE_BROADCAST, ORIGINAL_UNICAST, ORIGINAL_BROADCAST} then
      Ok(f.(ok := true))
    else
      var g := if code == FORWARDED_NPDU then f.(originatingMac := Slice(data, 4, 10)) else f;
      var octets := Slice(data, if code == FORWARDED_NPDU then 10 else 4, 10 + |data|);
      if |octets| < 2 || octets[0] != 0x01 then Ok(g) else DecodeNpdu(g, octets)
  }

  function PduType(f: Frame): Option<nat> {
    if f.networkMessage.None? && f.payload != [] then Some(f.payload[0] / 16) else None
  }

  predicate IsResponse(pduType: Option<nat>) {
    pduType in {Some(SIMPLE_ACK), Some(COMPLEX_ACK), Some(ERROR), Some(REJECT), Some(ABORT)}
  }

  function InvokeId(f: Frame): Result<Option<byte>> {
    if IsResponse(PduType(f)) then
      if |f.payload| > 1 then Ok(Some(f.payload[1])) else Err(Short)
    else if PduType(f) == Some(CONFIRMED_REQUEST) && |f.payload| > 2 then Ok(Some(f.payload[2]))
    else Ok(None)
  }

  function Service(f: Frame): Result<Option<byte>> {
    if PduType(f) in {Some(SIMPLE_ACK), Some(COMPLEX_ACK), Some(ERROR)} then
      if |f.payload| > 2 then Ok(Some(f.payload[2])) else Err(Short)
    else if PduType(f) == Some(CONFIRMED_REQUEST) && |f.payload| > 3 then Ok(Some(f.payload[3]))
    else if PduType(f) == Some(UNCONFIRMED_REQUEST) && |f.payload| > 1 then Ok(Some(f.payload[1]))
    else Ok(None)
  }

  /** What `Client.request` waits for. */
  predicate Accepts(f: Frame, invokeId: byte) {
    f.ok && f.networkMessage.None? && IsResponse(PduType(f)) && InvokeId(f) == Ok(Some(invokeId))
  }

  // ----- the round trip

  function Net(a: Option<Station>): Option<uint16> { if a.Some? then Some(a.value.net) else None }

  function Adr(a: Option<Station>): Bytes { if a.Some? then a.value.station else [] }

  /** The frame a receiver is meant to see, field by field from what was sent. */
  function FrameSent(w: Wrapping, r: Routing, payload: Bytes): Frame {
    Frame(true, Some(WrappingCode(w)), WrappingMac(w) + Npdu(r, payload), WrappingMac(w), true,
          Net(r.source), Adr(r.source), Net(r.destination), Adr(r.destination),
          r.expectingReply, r.message, payload)
  }

  /** A proprietary message type makes the reader skip a vendor identifier that was not written. */
  predicate VendorFree(r: Routing, payload: Bytes) {
    r.message.Some? && r.message.value >= 0x80 ==> payload == []
  }

  lemma ControlBits(r: Routing)
    ensures BitSet(Control(r), 0x80) == r.message.Some?
    ensures BitSet(Control(r), 0x20) == r.destination.Some?
    ensures BitSet(Control(r), 0x08) == r.source.Some?
    ensures BitSet(Control(r), 0x04) == r.expectingReply
  {
  }

  lemma StationParts(a: Station)
    ensures var e := StationOctets(Some(a));
            |e| == 3 + |a.station| && e[0..2] == Pack16(a.net) && e[2] == |a.station| && e[3..|e|] == a.station
  {
    hide Pack16;
  }

  lemma StationReads(octets: Bytes, position: nat, a: Option<Station>)
    requires At(octets, position, StationOctets(a))
    ensures ReadStation(octets, position, a.Some?) == Ok((Net(a), Adr(a), position + |StationOctets(a)|))
  {
    if a.Some? {
      var e := StationOctets(a);
      StationParts(a.value);
      AtPart(octets, position, e, 0, 2);
      AtPart(octets, position, e, 2, 3);
      AtPart(octets, position, e, 3, |e|);
      assert octets[position + 2] == octets[position + 2..position + 3][0] == e[2..3][0];
      hide FromBytes, Pack16, StationOctets, At;
    }
  }

  lemma NpduStations(r: Routing, payload: Bytes)
    ensures var octets, d, s := Npdu(r, payload), StationOctets(r.destination), StationOctets(r.source);
            && ReadStation(octets, 2, r.destination.Some?) == Ok((Net(r.destination), Adr(r.destination), 2 + |d|))
            && ReadStation(octets, 2 + |d|, r.source.Some?) == Ok((Net(r.source), Adr(r.source), 2 + |d| + |s|))
            && |octets| >= 2 + |d| + |s| && octets[0] == 0x01 && octets[1] == Control(r)
            && octets[2 + |d| + |s|..] == HopOctets(r) + MessageOctets(r) + payload
  {
    hide StationOctets, ReadStation, Control, Net, Adr, HopOctets, MessageOctets;
    var octets := Npdu(r, payload);
    var d, s := StationOctets(r.destination), StationOctets(r.source);
    var rest := HopOctets(r) + MessageOctets(r) + payload;
    assert octets == [0x01, Control(r)] + d + s + rest;
    assert At(octets, 2, d);
    assert At(octets, 2 + |d|, s);
    StationReads(octets, 2, r.destination);
    StationReads(octets, 2 + |d|, r.source);
  }

  lemma MessageReads(octets: Bytes, position: nat, r: Routing, payload: Bytes)
    requires position <= |octets| && octets[position..] == MessageOctets(r) + payload
    ensures ReadMessage(octets, position, r.message.Some?) == Ok((r.message, payload)) <==> VendorFree(r, payload)
    ensures ReadMessage(octets, position, r.message.Some?).Ok?
    ensures ReadMessage(octets, position, r.message.Some?).value.0 == r.message
  {
    if r.message.Some? {
      assert octets[position] == octets[position..][0];
      assert octets[position + 1..] == octets[position..][1..] == payload;
    } else {
      assert octets[position..] == payload;
    }
  }

  lemma NpduRoundTrip(f: Frame, r: Routing, payload: Bytes)
    requires f.networkMessage.None?
    ensures |Npdu(r, payload)| >= 2 && Npdu(r, payload)[0] == 0x01
    ensures DecodeNpdu(f, Npdu(r, payload)) ==
            Ok(f.(ok := true, hasNpdu := true, expectingReply := r.expectingReply,
                  dnet := Net(r.destination), dadr := Adr(r.destination),
                  snet := Net(r.source), sadr := Adr(r.source),
                  networkMessage := r.message, payload := payload))
            <==> VendorFree(r, payload)
    ensures var d := DecodeNpdu(f, Npdu(r, payload)); d.Ok? && d.value.ok && d.value.networkMessage == r.message
  {
    hide StationOctets, ReadStation, ReadMessage, MessageOctets, Control, BitSet, Npdu, Net, Adr, VendorFree;
    var octets := Npdu(r, payload);
    NpduStations(r, payload);
    ControlBits(r);
    var p := 2 + |StationOctets(r.destination)| + |StationOctets(r.source)|;
    var hop := p + |HopOctets(r)|;
    assert |octets| == p + |octets[p..]|;
    assert octets[hop..] == octets[p..][|HopOctets(r)|..] == MessageOctets(r) + payload;
    MessageReads(octets, hop, r, payload);
    var m := ReadMessage(octets, hop, r.message.Some?).value;
    assert DecodeNpdu(f, octets).value.networkMessage == m.0 && DecodeNpdu(f, octets).value.payload == m.1;
    assert m == (r.message, payload) <==> m.0 == r.message && m.1 == payload;
  }

  /** `Frame` inverts `bvll` over `npdu` for every routing, flag and wrapping, exactly unless a
      proprietary network message carries data. */
  lemma FrameRoundTrip(w: Wrapping, r: Routing, payload: Bytes)
    requires ValidWrapping(w) && FitsBvll(WrappingMac(w) + Npdu(r, payload))
    ensures DecodeFrame(Wrap(w, Npdu(r, payload))) == Ok(FrameSent(w, r, payload)) <==> VendorFree(r, payload)
    ensures var d := DecodeFrame(Wrap(w, Npdu(r, payload))); d.Ok? && d.value.ok && d.value.networkMessage == r.message
  {
    hide DecodeNpdu, Npdu, Pack16;
    var npdu := Npdu(r, payload);
    var data := Wrap(w, npdu);
    var mac := WrappingMac(w);
    assert data[4..] == mac + npdu;
    assert w.Forwarded? ==> Slice(data, 4, 10) == mac && Slice(data, 10, 10 + |data|) == npdu;
    assert !w.Forwarded? ==> Slice(data, 4, 10 + |data|) == npdu;
    var g := BLANK.(bvlcFunction := Some(WrappingCode(w)), bvllData := mac + npdu, originatingMac := mac);
    NpduRoundTrip(g, r, payload);
  }

  /** An address that is cut off is taken as far as it goes, and there is no payload; a network number or a
      length that is cut off raises. */
  lemma AddressCutOff(net: uint16, length: byte, part: Bytes)
    requires |part| < length
    ensures var d := DecodeFrame(Wrap(Unicast, [0x01, 0x20] + Pack16(net) + [length] + part));
            && d.Ok? && d.value.ok && d.value.dnet == Some(net) && d.value.dadr == part
            && d.value.payload == [] && d.value.snet.None? && d.value.networkMessage.None?
    ensures DecodeFrame(Wrap(Unicast, [0x01, 0x20] + Pack16(net))) == Err(Short)
    ensures DecodeFrame(Wrap(Unicast, [0x01, 0x20])) == Err(Short)
  {
    hide DecodeNpdu, Pack16;
    UnicastOctets([0x01, 0x20] + Pack16(net) + [length] + part);
    UnicastOctets([0x01, 0x20] + Pack16(net));
    UnicastOctets([0x01, 0x20]);
    CutNpdu(BLANK.(bvlcFunction := Some(ORIGINAL_UNICAST),
                   bvllData := [0x01, 0x20] + Pack16(net) + [length] + part), net, length, part);
    CutNumber(BLANK.(bvlcFunction := Some(ORIGINAL_UNICAST), bvllData := [0x01, 0x20] + Pack16(net)), Pack16(net));
    CutNumber(BLANK.(bvlcFunction := Some(ORIGINAL_UNICAST), bvllData := [0x01, 0x20]), []);
    assert [0x01, 0x20] + [] == [0x01, 0x20];
  }

  lemma UnicastOctets(npdu: Bytes)
    requires FitsBvll([] + npdu) && |npdu| >= 2 && npdu[0] == 0x01
    ensures DecodeFrame(Wrap(Unicast, npdu)) ==
            DecodeNpdu(BLANK.(bvlcFunction := Some(ORIGINAL_UNICAST), bvllData := npdu), npdu)
  {
    hide DecodeNpdu, Pack16;
    var data := Wrap(Unicast, npdu);
    assert data[4..] == npdu;
    assert Slice(data, 4, 10 + |data|) == npdu;
  }

  lemma CutNpdu(f: Frame, net: uint16, length: byte, part: Bytes)
    requires |part| < length && f.networkMessage.None?
    ensures DecodeNpdu(f, [0x01, 0x20] + Pack16(net) + [length] + part) ==
            Ok(f.(ok := true, hasNpdu := true, expectingReply := false, dnet := Some(net), dadr := part,
                  snet := None, sadr := [], networkMessage := None, payload := []))
  {
    hide FromBytes, Pack16;
    var octets := [0x01, 0x20] + Pack16(net) + [length] + part;
    assert octets[2..4] == Pack16(net) && octets[4] == length && octets[5..] == part;
    assert Slice(octets, 5, 5 + length) == part;
  }

  lemma CutNumber(f: Frame, part: Bytes)
    requires |part| < 3
    ensures DecodeNpdu(f, [0x01, 0x20] + part) == Err(Short)
  {
  }

  /** Whether an APDU is a response, by its first octet. */
  predicate ResponseApdu(apdu: Bytes) { apdu != [] && apdu[0] / 16 in {2, 3, 5, 6, 7} }

  // ----- the octets on the wire

  function StationLength(a: Option<Station>): nat { if a.Some? then 3 + |a.value.station| else 0 }

  /** The network number, the length of the address and the address, at `q`. */
  ghost predicate StationStands(octets: Bytes, q: nat, a: Option<Station>) {
    a.Some? ==>
      && q + 3 + |a.value.station| <= |octets|
      && octets[q] as nat * 256 + octets[q + 1] as nat == a.value.net
      && octets[q + 2] == |a.value.station| && octets[q + 3..q + 3 + |a.value.station|] == a.value.station
  }

  /** Section 6.2.2: bit 7 a network message, bit 5 a destination, bit 3 a source, bit 2 a reply expected;
      the reserved bits and the priority 0. */
  predicate ControlStands(control: byte, r: Routing) {
    && (BitSet(control, 0x80) <==> r.message.Some?) && !BitSet(control, 0x40)
    && (BitSet(control, 0x20) <==> r.destination.Some?) && !BitSet(control, 0x10)
    && (BitSet(control, 0x08) <==> r.source.Some?) && (BitSet(control, 0x04) <==> r.expectingReply)
    && !BitSet(control, 0x02) && !BitSet(control, 0x01)
  }

  lemma TwoOctets(v: uint16)
    ensures Pack16(v)[0] as nat * 256 + Pack16(v)[1] as nat == v
  {
    var b := Pack16(v);
    assert b[..1][..0] == [];
    assert FromBytes(b[..1]) == b[0];
  }

  lemma StationStandsAt(octets: Bytes, q: nat, a: Option<Station>)
    requires At(octets, q, StationOctets(a))
    ensures StationStands(octets, q, a) && |StationOctets(a)| == StationLength(a)
  {
    if a.Some? {
      var e := StationOctets(a);
      StationParts(a.value);
      TwoOctets(a.value.net);
      AtPart(octets, q, e, 0, 2);
      AtPart(octets, q, e, 2, 3);
      AtPart(octets, q, e, 3, |e|);
      assert octets[q] == octets[q..q + 2][0] && octets[q + 1] == octets[q..q + 2][1];
      assert octets[q + 2] == octets[q + 2..q + 3][0] == e[2..3][0];
      hide Pack16, StationOctets;
    }
  }

  /** Every octet of an NPDU: version, control, DNET and DADR, SNET and SADR, the hop count exactly if there
      is a destination, the message type exactly if it is a network message, and the payload. */
  lemma NpduLayout(r: Routing, payload: Bytes)
    ensures var n, d := Npdu(r, payload), 2 + StationLength(r.destination);
            var s := d + StationLength(r.source);
            var h := s + (if r.destination.Some? then 1 else 0);
            var m := h + (if r.message.Some? then 1 else 0);
            && |n| == m + |payload| && n[m..] == payload
            && n[0] == 1 && ControlStands(n[1], r)
            && StationStands(n, 2, r.destination) && StationStands(n, d, r.source)
            && (r.destination.Some? ==> n[s] == r.hopCount)
            && (r.message.Some? ==> n[h] == r.message.value)
  {
    hide StationOctets, StationStands, Control, ControlStands, HopOctets, MessageOctets;
    var n := Npdu(r, payload);
    var d, s := StationOctets(r.destination), StationOctets(r.source);
    var rest := HopOctets(r) + MessageOctets(r) + payload;
    assert n == [0x01, Control(r)] + d + s + rest;
    assert At(n, 2, d);
    assert At(n, 2 + |d|, s);
    StationStandsAt(n, 2, r.destination);
    StationStandsAt(n, 2 + |d|, r.source);
    ControlIs(r);
    assert n[2 + |d| + |s|..] == rest;
    AfterStations(n, 2 + |d| + |s|, r, payload);
  }

  lemma AfterStations(n: Bytes, s: nat, r: Routing, payload: Bytes)
    requires s <= |n| && n[s..] == HopOctets(r) + MessageOctets(r) + payload
    ensures var h := s + (if r.destination.Some? then 1 else 0);
            var m := h + (if r.message.Some? then 1 else 0);
            && |n| == m + |payload| && n[m..] == payload
            && (r.destination.Some? ==> n[s] == r.hopCount)
            && (r.message.Some? ==> n[h] == r.message.value)
  {
    var h := if r.destination.Some? then 1 else 0;
    assert forall i | s <= i < |n| :: n[i] == n[s..][i - s];
    assert n[s + h..] == n[s..][h..] == MessageOctets(r) + payload;
  }

  lemma ControlIs(r: Routing)
    ensures ControlStands(Control(r), r)
  {
  }

  /** Every octet of the four BVLL messages that carry an NPDU. */
  lemma WrapLayout(w: Wrapping, npdu: Bytes)
    requires ValidWrapping(w) && FitsBvll(WrappingMac(w) + npdu)
    ensures var data := Wrap(w, npdu);
            && |data| >= 4 && data[0] == 0x81 && data[2] as nat * 256 + data[3] as nat == |data|
            && match w
               case Unicast => data[1] == 0x0A && data[4..] == npdu
               case Broadcast => data[1] == 0x0B && data[4..] == npdu
               case Distribute => data[1] == 0x09 && data[4..] == npdu
               case Forwarded(mac) => data[1] == 0x04 && data[4..] == mac + npdu
  {
    hide Pack16;
    TwoOctets(4 + |WrappingMac(w) + npdu|);
    assert Wrap(w, npdu)[4..] == WrappingMac(w) + npdu;
    assert [] + npdu == npdu;
  }

  /** A BVLL message that carries no NPDU: what follows the header is kept, and there is nothing else. */
  lemma BvllOnly(code: byte, body: Bytes)
    requires FitsBvll(body)
    requires code !in {FORWARDED_NPDU, DISTRIBUTE_BROADCAST, ORIGINAL_UNICAST, ORIGINAL_BROADCAST}
    ensures var d := DecodeFrame(Bvll(code, body));
            && d.Ok? && d.value.ok && d.value.bvlcFunction == Some(code) && d.value.bvllData == body
            && !d.value.hasNpdu && d.value.payload == [] && PduType(d.value).None?
            && d.value.networkMessage.None? && forall id :: !Accepts(d.value, id)
  {
    hide Pack16;
    assert Bvll(code, body)[4..] == body;
  }
}
