/** Client and server over the wire: what comes back, decoded, is what the server holds. */
module Exchange {
  import opened Octets
  import opened Tags
  import opened Nesting
  import opened Frames
  import opened Properties
  import opened Multiple
  import opened Elements
  import opened Server
  import opened ServerRuns
  import opened ServerHistory

  /** A request as `Client.request` sends it, directly or through a router. */
  predicate Askable(r: Routing, apdu: Bytes) { r.message.None? && FitsBvll(Npdu(r, apdu)) }

  function Ask(r: Routing, apdu: Bytes): Bytes
    requires Askable(r, apdu)
  {
    assert WrappingMac(Unicast) + Npdu(r, apdu) == Npdu(r, apdu);
    Wrap(Unicast, Npdu(r, apdu))
  }

  lemma AskArrives(r: Routing, apdu: Bytes)
    requires Askable(r, apdu)
    ensures RequestIn(Ask(r, apdu)) == Some(FrameSent(Unicast, r, apdu))
  {
    hide Npdu, DecodeFrame;
    assert WrappingMac(Unicast) + Npdu(r, apdu) == Npdu(r, apdu);
    FrameRoundTrip(Unicast, r, apdu);
  }

  lemma StationsShort(data: Bytes)
    ensures DecodeFrame(data).Ok? ==> |DecodeFrame(data).value.sadr| < 256
  {
    hide ReadMessage, BitSet;
  }

  /** Every answer the server sends to a confirmed request decodes to a frame that `Client.request`
      accepts for that invoke id, carries the server's APDU, and is addressed to where the request
      came from: DNET and DADR are its SNET and SADR. */
  lemma ReplyReaches(s: State, data: Bytes, f: Frame, reply: Bytes)
    requires RequestIn(data) == Some(f) && Confirmed(f) && Receive(s, data).1 == Datagram(reply)
    ensures Answer(s, f).1.Apdu? && DecodeFrame(reply).Ok?
    ensures var g := DecodeFrame(reply).value;
            && Accepts(g, RequestId(f)) && InvokeId(f) == Ok(Some(RequestId(f)))
            && g.payload == Answer(s, f).1.octets
            && g.dnet == f.snet && g.dadr == (if f.snet.Some? then f.sadr else []) && g.snet.None?
  {
    ReceiveIsAnswer(s, data);
    StationsShort(data);
    AnswerResponds(s, f);
    SentBack(s, f, reply);
  }

  lemma SentBack(s: State, f: Frame, reply: Bytes)
    requires Send(f, Answer(s, f).1) == Datagram(reply) && |f.sadr| < 256
    ensures Answer(s, f).1.Apdu? && DecodeFrame(reply) == Ok(FrameSent(Unicast, ReplyRouting(f), Answer(s, f).1.octets))
  {
    hide Answer, Npdu, DecodeFrame, FrameSent;
    var apdu := Answer(s, f).1.octets;
    assert WrappingMac(Unicast) + Npdu(ReplyRouting(f), apdu) == Npdu(ReplyRouting(f), apdu);
    FrameRoundTrip(Unicast, ReplyRouting(f), apdu);
  }

  /** A reply that leaves room for the longest header is sent. */
  lemma SmallReplySent(f: Frame, apdu: Bytes)
    ensures |apdu| <= 65200 ==> Send(f, Apdu(apdu)).Datagram?
    ensures !Send(f, Apdu(apdu)).Nothing?
  {
    hide Wrap, Control;
    var npdu := Npdu(ReplyRouting(f), apdu);
    assert |npdu| <= 265 + |apdu|;
  }

  /** The octets before the APDU in the reply to a request routed so. */
  function ReplyHeader(r: Routing): nat { if r.source.Some? then 10 + |r.source.value.station| else 6 }

  /** The whole reply fits the 16-bit BVLC length. */
  predicate Fits(r: Routing, apdu: Bytes) { ReplyHeader(r) + |apdu| < 0x1_0000 }

  /** A reply is sent exactly if it fits; otherwise packing its length raises. */
  lemma SentIfFits(r: Routing, request: Bytes, apdu: Bytes)
    ensures var sent := Send(FrameSent(Unicast, r, request), Apdu(apdu));
            if Fits(r, apdu) then sent.Datagram? else sent.Died?
  {
    hide Wrap, Control;
    var f := FrameSent(Unicast, r, request);
    var npdu := Npdu(ReplyRouting(f), apdu);
    assert 4 + |npdu| == ReplyHeader(r) + |apdu|;
  }

  /** The octets of a reply: an Original-Unicast-NPDU, no reply expected, and for a request that came
      through a router the hop count 255 behind DNET and DADR, which are its SNET and SADR. */
  lemma ReplyLayout(f: Frame, apdu: Bytes, data: Bytes)
    requires Send(f, Apdu(apdu)) == Datagram(data) && |f.sadr| < 256
    ensures |data| >= 6 && data[..2] == [0x81, 0x0A] && data[2] as nat * 256 + data[3] as nat == |data|
    ensures data[4] == 1 && data[5] == if f.snet.Some? then 0x20 else 0
    ensures f.snet.Some? ==>
              && |data| == 10 + |f.sadr| + |apdu| && data[6] as nat * 256 + data[7] as nat == f.snet.value
              && data[8] == |f.sadr| && data[9..9 + |f.sadr|] == f.sadr && data[9 + |f.sadr|] == 255
              && data[10 + |f.sadr|..] == apdu
    ensures f.snet.None? ==> data[6..] == apdu
  {
    hide Npdu, ControlStands, Wrap, StationStands;
    var r := ReplyRouting(f);
    PlainControl(r);
    var n := Npdu(r, apdu);
    assert WrappingMac(Unicast) + n == n;
    UnicastLayout(n);
    NpduLayout(r, apdu);
    if f.snet.Some? {
      RoutedLayout(data, n, f.snet.value, f.sadr, apdu);
    } else {
      assert data[6..] == data[4..][2..] == n[2..];
    }
  }

  /** Without a message, a source and a reply expected, only the destination bit can be set. */
  lemma PlainControl(r: Routing)
    requires r.message.None? && r.source.None? && !r.expectingReply
    ensures forall control: byte | ControlStands(control, r) :: control == if r.destination.Some? then 0x20 else 0
  {
  }

  lemma UnicastLayout(n: Bytes)
    requires FitsBvll(WrappingMac(Unicast) + n)
    ensures var data := Wrap(Unicast, n);
            && |data| == 4 + |n| && data[..2] == [0x81, 0x0A] && data[2] as nat * 256 + data[3] as nat == |data|
            && data[4..] == n && forall i | 0 <= i < |n| :: data[4 + i] == n[i]
  {
    hide Pack16;
    TwoOctets(4 + |n|);
    assert WrappingMac(Unicast) + n == n;
  }

  lemma RoutedLayout(data: Bytes, n: Bytes, net: uint16, station: Bytes, apdu: Bytes)
    requires |station| < 256 && |data| == 4 + |n| && data[4..] == n && forall i | 0 <= i < |n| :: data[4 + i] == n[i]
    requires StationStands(n, 2, Some(Address(net, station)))
    requires |n| == 6 + |station| + |apdu| && n[5 + |station|] == 255 && n[6 + |station|..] == apdu
    ensures data[6] as nat * 256 + data[7] as nat == net && data[8] == |station|
    ensures data[9..9 + |station|] == station && data[9 + |station|] == 255 && data[10 + |station|..] == apdu
  {
    assert data[4 + 2] == n[2] && data[4 + 3] == n[3] && data[4 + 4] == n[4];
    assert data[9..9 + |station|] == n[5..5 + |station|];
    assert data[10 + |station|..] == data[4..][6 + |station|..] == n[6 + |station|..];
    assert data[4 + (5 + |station|)] == n[5 + |station|];
  }

  // ----- ReadProperty

  /** The server answers, and no scripted failure is set for the object. */
  predicate Answering(s: State, o: ObjectId) { !s.mode.Offline? && !(s.mode.Online? && o in s.failures) }

  predicate Carries(f: Frame, apdu: Bytes) { f.networkMessage.None? && f.payload == apdu }

  lemma RequestHeader(f: Frame, invokeId: byte, service: byte, parameters: Bytes)
    requires Carries(f, ConfirmedRequest(invokeId, service, parameters))
    ensures Confirmed(f) && Service(f) == Ok(Some(service)) && RequestId(f) == invokeId
  {
  }

  lemma ReadIsListed(s: State, f: Frame, id: byte, o: ObjectId, property: uint32, index: Option<uint32>)
    requires Carries(f, ReadPropertyRequest(id, o, property, index)) && Answering(s, o) && o in s.objects
    ensures Answer(s, f) == ReadListed(s, id, ReadRequest(o, property, Natural(index)), None)
    ensures Confirmed(f) && RequestId(f) == id
  {
    hide Confirmed, Service, RequestId, Reference, ReadListed, ParseRead, ReadReference;
    RequestHeader(f, id, READ_PROPERTY, Reference(o, property, index));
    ReadRequestRoundTrip(id, o, property, index);
  }

  /** What the client makes of the answer: `Answer.value_octets`, `Answer.error`, the reasons, `Answer.acked`. */
  datatype Shown =
    | ShownValue(octets: Bytes)
    | ShownError(errorClass: nat, errorCode: nat)
    | ShownReject(reason: byte)
    | ShownAbort(reason: byte)
    | ShownAck
    | ShownOther

  function Shows(apdu: Bytes): Shown {
    if apdu == [] then ShownOther
    else if apdu[0] / 16 == COMPLEX_ACK then
      match ValueFrom(apdu, 3)
      case Ok(Some(v)) => ShownValue(v)
      case _ => ShownOther
    else if apdu[0] / 16 == ERROR then
      match ErrorClassAndCode(apdu)
      case Ok(Some(pair)) => ShownError(pair.0, pair.1)
      case _ => ShownOther
    else if apdu[0] / 16 == REJECT && |apdu| >= 3 then ShownReject(apdu[2])
    else if apdu[0] / 16 == ABORT && |apdu| >= 3 then ShownAbort(apdu[2])
    else if apdu[0] / 16 == SIMPLE_ACK then ShownAck
    else ShownOther
  }

  lemma AckShows(id: byte, o: ObjectId, property: uint32, index: Option<uint32>, value: Bytes)
    requires Balanced(value)
    ensures Shows(ReadPropertyAck(id, o, property, index, value)) == ShownValue(value)
    ensures NamedAt(ReadPropertyAck(id, o, property, index, value), 3) == Ok(ReadRequest(o, property, Natural(index)))
  {
    hide ValueFrom, Reference, Enclosed, Balanced, ErrorClassAndCode, NamedAt;
    ReadAckRoundTrip(id, o, property, index, value);
  }

  lemma ErrorShows(id: byte, service: byte, c: uint32, e: uint32)
    ensures Shows(ErrorPdu(id, service, c, e)) == ShownError(c, e)
  {
    hide ErrorClassAndCode, ErrorCodes, ValueFrom;
    ErrorRoundTrip(id, service, c, e);
  }

  function Expected(s: State, o: ObjectId, property: nat): Shown {
    match Served(s, o, property)
    case Some(v) => ShownValue(v)
    case None => ShownError(2, 32)
  }

  /** The APDU that answers a plain read. */
  function PlainReply(served: Option<Bytes>, id: byte, o: ObjectId, property: uint32): Bytes {
    match served
    case Some(v) => ReadPropertyAck(id, o, property, None, v)
    case None => ErrorPdu(id, READ_PROPERTY, 2, 32)
  }

  lemma PlainRead(s: State, id: byte, o: ObjectId, property: uint32)
    requires StoreBalanced(s) && (o, property) !in s.wholeArraysRefused
    ensures var (t, reply) := ReadListed(s, id, ReadRequest(o, property, None), None);
            && SameStore(s, t) && reply == Apdu(PlainReply(Served(s, o, property), id, o, property))
            && Shows(reply.octets) == Expected(s, o, property)
            && (Served(s, o, property).Some? ==> NamedAt(reply.octets, 3) == Ok(ReadRequest(o, property, None)))
            && |reply.octets| <= 100 + (if Served(s, o, property).Some? then |Served(s, o, property).value| else 0)
  {
    hide Shows, Balanced, ReadPropertyAck, ErrorPdu, NamedAt;
    ErrorShows(id, READ_PROPERTY, 2, 32);
    ErrorLength(id, READ_PROPERTY, 2, 32);
    if Served(s, o, property).Some? {
      AckShows(id, o, property, None, Served(s, o, property).value);
      AckLength(id, o, property, Served(s, o, property).value);
    }
  }

  lemma ErrorLength(id: byte, service: byte, c: uint32, e: uint32)
    ensures |ErrorPdu(id, service, c, e)| <= 13
  {
    hide Encodes, ReadTag;
  }

  lemma AckLength(id: byte, o: ObjectId, property: uint32, value: Bytes)
    ensures |ReadPropertyAck(id, o, property, None, value)| <= 100 + |value|
  {
    hide Encodes, ReadTag;
    EnclosedLength(3, value);
    hide Enclosed;
  }

  /** Reading a listed property over the wire shows exactly what the server serves, through any router
      and whatever the value's nesting; and reading changes nothing that is served. */
  lemma ReadExchange(s: State, r: Routing, id: byte, o: ObjectId, property: uint32)
    requires StoreBalanced(s) && Answering(s, o) && o in s.objects && (o, property) !in s.wholeArraysRefused
    requires Askable(r, ReadPropertyRequest(id, o, property, None))
    ensures var (t, sent) := Receive(s, Ask(r, ReadPropertyRequest(id, o, property, None)));
            && SameStore(s, t)
            && (if Fits(r, PlainReply(Served(s, o, property), id, o, property)) then sent.Datagram? else sent.Died?)
            && (Served(s, o, property).None? || |Served(s, o, property).value| <= 65000 ==> sent.Datagram?)
            && (sent.Datagram? ==>
                  var g := DecodeFrame(sent.octets);
                  && g.Ok? && Accepts(g.value, id)
                  && g.value.dnet == Net(r.source) && g.value.dadr == Adr(r.source)
                  && Shows(g.value.payload) == Expected(s, o, property)
                  && (Served(s, o, property).Some? ==>
                        NamedAt(g.value.payload, 3) == Ok(ReadRequest(o, property, None))))
  {
    hide NamedAt, Send, Shows, Expected, Balanced, StoreBalanced, Receive, Answer, ReadListed, Ask, DecodeFrame, Npdu, Accepts,
         RequestIn, Confirmed, RequestId, ReadPropertyRequest, ReplyRouting, Wrap, PlainReply, Fits;
    var apdu := ReadPropertyRequest(id, o, property, None);
    var data := Ask(r, apdu);
    var f := FrameSent(Unicast, r, apdu);
    AskArrives(r, apdu);
    ReceiveIsAnswer(s, data);
    ReadIsListed(s, f, id, o, property, None);
    PlainRead(s, id, o, property);
    var reply := Answer(s, f).1.octets;
    SmallReplySent(f, reply);
    SentIfFits(r, apdu, reply);
    var sent := Receive(s, data).1;
    if sent.Datagram? {
      ReplyReaches(s, data, f, sent.octets);
    }
  }

  /** What a scripted failure other than a malformed answer makes of a request for the object. */
  predicate FailsAs(s: State, failure: Failure, id: byte, t: State, reply: Reply)
    requires !failure.Malformed?
  {
    match failure
    case Rejects => t == s && reply.Apdu? && Response(reply.octets, id, 0) && Shows(reply.octets) == ShownReject(9)
    case Aborts => t == s && reply.Apdu? && Response(reply.octets, id, 0) && Shows(reply.octets) == ShownAbort(4) &&
                   reply.octets[0] == 0x71 // sent by a server
    case Silent => t == s.(silentRequests := s.silentRequests + 1) && reply == NoReply
  }

  /** A scripted failure decides what a client sees of a ReadProperty, with an index or without, of a
      listed object or not: a Reject, an Abort or nothing, and nothing is recorded. A malformed answer is
      a NULL whatever a listed object holds; of an unlisted one the answer is as without the failure.
      Nothing that is served changes. */
  lemma ScriptedFailure(s: State, f: Frame, id: byte, o: ObjectId, property: uint32, index: Option<uint32>)
    requires Carries(f, ReadPropertyRequest(id, o, property, index)) && s.mode.Online? && o in s.failures
    ensures SameStore(s, Answer(s, f).0)
    ensures var (t, reply) := Answer(s, f);
            if !s.failures[o].Malformed? then FailsAs(s, s.failures[o], id, t, reply)
            else if o in s.objects then
              && t == s && reply.Apdu? && Shows(reply.octets) == ShownValue([0])
              && NamedAt(reply.octets, 3) == Ok(ReadRequest(o, property, None))
            else t == s && reply == Answer(s.(failures := map[]), f).1
  {
    hide Confirmed, Service, RequestId, Reference, ReadReference, Shows, ReadPropertyAck, ReadTag, Proceed, Balanced,
         NamedAt;
    RequestHeader(f, id, READ_PROPERTY, Reference(o, property, index));
    ReadRequestRoundTrip(id, o, property, index);
    AbortShows(id, 4);
    AbortShows(id, 9);
    if s.failures[o].Malformed? {
      MalformedRead(s, f, id, o, property, index);
      NullBalanced();
      AckShows(id, o, property, None, [0]);
    }
  }

  lemma MalformedRead(s: State, f: Frame, id: byte, o: ObjectId, property: uint32, index: Option<uint32>)
    requires Carries(f, ReadPropertyRequest(id, o, property, index)) && s.mode.Online?
    ensures o in s.objects ==>
              Proceed(s, f, Some(Malformed)) == (s, Apdu(ReadPropertyAck(id, o, property, None, [0])))
    ensures o !in s.objects ==>
              Proceed(s, f, Some(Malformed)) == (s, Proceed(s.(failures := map[]), f, None).1)
  {
    hide Confirmed, Service, RequestId, Reference, ParseRead, ReadPropertyAck, ReadPlain, ReadElement, ReadMultiple,
         AnswerWrite, AnswerAsDevice, Served;
    RequestHeader(f, id, READ_PROPERTY, Reference(o, property, index));
    ReadRequestRoundTrip(id, o, property, index);
  }

  /** The same failures meet a WriteProperty, which then has no effect and is not recorded; a malformed
      answer is for reads only, and the write is made and answered as without it. */
  lemma ScriptedWrite(s: State, f: Frame, id: byte, o: ObjectId, property: uint32, value: Bytes,
                      priority: Option<uint32>, index: Option<uint32>)
    requires Balanced(value) && s.mode.Online? && o in s.failures
    requires Carries(f, WritePropertyRequest(id, o, property, value, priority, index))
    ensures var w := WriteRequest(o, property, Natural(index), value, Natural(priority));
            var (t, reply) := Answer(s, f);
            if !s.failures[o].Malformed? then FailsAs(s, s.failures[o], id, t, reply)
            else
              && SameStore(Write(s, id, w).0, t) && reply == Write(s, id, w).1
              && t.writeRequests == s.writeRequests + [w]
  {
    hide Balanced, Write, Confirmed, RequestId, Service, Reference, Enclosed, OptionalUnsigned, ParseWrite;
    RequestHeader(f, id, WRITE_PROPERTY,
                  Reference(o, property, index) + Enclosed(3, value) + OptionalUnsigned(4, priority));
    WriteRequestRoundTrip(id, o, property, value, priority, index);
    AbortShows(id, 4);
    AbortShows(id, 9);
    if s.failures[o].Malformed? {
      var w := WriteRequest(o, property, Natural(index), value, Natural(priority));
      var s' := s.(writeRequests := s.writeRequests + [w]);
      WriteIgnoresRecords(s, s', id, w);
      WriteKeepsRecords(s', id, w);
    }
  }

  lemma NullBalanced()
    ensures Balanced([0])
  {
    OneTag([0], 0, false, []);
  }

  // ----- what is recorded of a read, and the special cases

  /** A read of a listed object is recorded with its service, object and property, whatever the answer; a
      read of an element that is served is recorded with its index too. Nothing else changes. */
  lemma ReadRecorded(s: State, f: Frame, id: byte, o: ObjectId, property: uint32, index: Option<uint32>)
    requires Carries(f, ReadPropertyRequest(id, o, property, index)) && Answering(s, o) && o in s.objects
    ensures var t := Answer(s, f).0;
            var element := index.Some? && s.config.arrayElements && Served(s, o, property).Some?;
            t == s.(readRequests := s.readRequests + [ReadRecord(12, Members([o], map[o := [property]]))],
                    arrayReads := if element then s.arrayReads + [ReadRequest(o, property, Natural(index))]
                                  else s.arrayReads)
  {
    hide Answer, ReadPropertyRequest, ReadElement, Ack, ErrorPdu, AbortPdu;
    ReadIsListed(s, f, id, o, property, index);
  }

  /** A whole array that is refused is aborted as too long for one segment; an index is not looked at by a
      server without array elements, nor for a property that is not served: the answer is as without it. */
  lemma SpecialReads(s: State, f: Frame, id: byte, o: ObjectId, property: uint32, index: Option<uint32>)
    requires Carries(f, ReadPropertyRequest(id, o, property, index)) && Answering(s, o) && o in s.objects
    requires StoreBalanced(s)
    ensures index.None? && (o, property) in s.wholeArraysRefused ==>
              && Answer(s, f).1.Apdu? && Response(Answer(s, f).1.octets, id, 0)
              && Shows(Answer(s, f).1.octets) == ShownAbort(4) && Answer(s, f).1.octets[0] == 0x71
    ensures index.Some? && (!s.config.arrayElements || Served(s, o, property).None?) ==>
              && Answer(s, f).1.Apdu? && Shows(Answer(s, f).1.octets) == Expected(s, o, property)
              && (Served(s, o, property).Some? ==>
                    NamedAt(Answer(s, f).1.octets, 3) == Ok(ReadRequest(o, property, None)))
  {
    hide Answer, ReadPropertyRequest, ReadElement, ReadPropertyAck, ErrorPdu, AbortPdu, Shows, NamedAt, Balanced;
    ReadIsListed(s, f, id, o, property, index);
    AbortShows(id, 4);
    ErrorShows(id, READ_PROPERTY, 2, 32);
    if Served(s, o, property).Some? {
      AckShows(id, o, property, None, Served(s, o, property).value);
    }
  }

  lemma AbortShows(id: byte, reason: byte)
    ensures Shows(AbortPdu(id, reason)) == ShownAbort(reason) && Shows(RejectPdu(id, reason)) == ShownReject(reason)
    ensures Response(AbortPdu(id, reason), id, 0) && Response(RejectPdu(id, reason), id, 0)
    ensures AbortPdu(id, reason)[0] == 0x71 // sent by a server
  {
  }

  // ----- ReadPropertyMultiple

  lemma MultipleIsRead(s: State, f: Frame, id: byte, specs: seq<Specification>)
    requires Carries(f, MultipleRequest(id, specs)) && !s.mode.Offline?
    ensures Answer(s, f) == ReadMultiple(s, f) && Confirmed(f) && RequestId(f) == id
  {
    hide Confirmed, Service, RequestId, SpecificationsOctets, ReadMultiple;
    RequestHeader(f, id, READ_PROPERTY_MULTIPLE, SpecificationsOctets(specs));
  }

  lemma MultipleAnswered(s: State, f: Frame, id: byte, specs: seq<Specification>)
    requires StoreBalanced(s) && Carries(f, MultipleRequest(id, specs)) && RequestId(f) == id
    ensures var (t, reply) := ReadMultiple(s, f);
            && t == s.(readRequests := s.readRequests + [ReadRecord(14, Merged(specs, NO_MEMBERS))]) && reply.Apdu?
            && AnswerMultiple(id, MultipleRequest(id, specs), (o, p) => Served(s, o, p)) == Ok(reply.octets)
            && var parsed := ParseMultipleAck(reply.octets);
               parsed.Ok? && parsed.value.Some? && Exact(parsed.value.value, specs, (o, p) => Served(s, o, p))
  {
    hide SpecificationsFrom, AnswerMultiple, ParseMultipleAck, Exact, Balanced, MultipleRequest, RequestId;
    var value: Source := (o, p) => Served(s, o, p);
    assert forall o: ObjectId, p: nat :: value(o, p).Some? ==> Balanced(value(o, p).value);
    MultipleExchange(id, specs, value);
    RequestRead(id, specs);
  }

  /** One ReadPropertyMultiple over the wire is one exact snapshot of the server, and the reply is sent
      exactly if it fits. */
  lemma SnapshotExchange(s: State, r: Routing, id: byte, specs: seq<Specification>)
    requires StoreBalanced(s) && !s.mode.Offline? && Askable(r, MultipleRequest(id, specs))
    ensures var (t, sent) := Receive(s, Ask(r, MultipleRequest(id, specs)));
            var ack := AnswerMultiple(id, MultipleRequest(id, specs), (o, p) => Served(s, o, p));
            && t == s.(readRequests := s.readRequests + [ReadRecord(14, Merged(specs, NO_MEMBERS))])
            && ack.Ok? && (if Fits(r, ack.value) then sent.Datagram? else sent.Died?)
            && (sent.Datagram? ==>
                  var g := DecodeFrame(sent.octets);
                  && g.Ok? && Accepts(g.value, id)
                  && g.value.dnet == Net(r.source) && g.value.dadr == Adr(r.source)
                  && g.value.payload == ack.value
                  && var parsed := ParseMultipleAck(g.value.payload);
                     parsed.Ok? && parsed.value.Some? && Exact(parsed.value.value, specs, (o, p) => Served(s, o, p)))
  {
    hide Balanced, StoreBalanced, Receive, Answer, ReadMultiple, Ask, DecodeFrame, Npdu, Accepts, RequestIn, Confirmed,
         RequestId, MultipleRequest, ReplyRouting, Wrap, ParseMultipleAck, Exact, Served, Send, Fits, AnswerMultiple,
         Merged;
    var apdu := MultipleRequest(id, specs);
    var data := Ask(r, apdu);
    var f := FrameSent(Unicast, r, apdu);
    AskArrives(r, apdu);
    ReceiveIsAnswer(s, data);
    MultipleIsRead(s, f, id, specs);
    MultipleAnswered(s, f, id, specs);
    SentIfFits(r, apdu, Answer(s, f).1.octets);
    var sent := Receive(s, data).1;
    if sent.Datagram? {
      ReplyReaches(s, data, f, sent.octets);
    }
  }

  // ----- WriteProperty, and histories of writes

  /** What a client sees of a write that is answered. */
  function WriteShows(s: State, w: WriteRequest): Shown {
    if w.target !in s.objects then ShownError(1, 31)
    else if MayWrite(s, w) || IgnoredNull(s, w) then ShownAck
    else ShownError(2, 40)
  }

  lemma WriteIsShown(s: State, id: byte, w: WriteRequest)
    ensures Write(s, id, w).1.Apdu? ==> Shows(Write(s, id, w).1.octets) == WriteShows(s, w)
  {
    hide Write, ErrorPdu, MayWrite, IgnoredNull, Commanded, HasSlot, ErrorClassAndCode, ValueFrom;
    WriteRefused(s, id, w);
    WriteReplyLength(s, id, w);
    ErrorShows(id, WRITE_PROPERTY, 1, 31);
    ErrorShows(id, WRITE_PROPERTY, 2, 40);
  }

  /** A write over the wire is `Write` of what the client meant, and is answered. */
  lemma WriteExchange(s: State, r: Routing, id: byte, o: ObjectId, property: uint32, value: Bytes,
                      priority: Option<uint32>, index: Option<uint32>)
    requires Balanced(value) && Answering(s, o)
    requires Askable(r, WritePropertyRequest(id, o, property, value, priority, index))
    ensures var w := WriteRequest(o, property, Natural(index), value, Natural(priority));
            var (t, sent) := Receive(s, Ask(r, WritePropertyRequest(id, o, property, value, priority, index)));
            var (t', reply) := Write(s, id, w);
            && SameStore(t', t) && t.writeRequests == s.writeRequests + [w]
            && (sent.Datagram? <==> !reply.Raised?)
            && (sent.Datagram? ==> DecodeFrame(sent.octets).Ok? && Accepts(DecodeFrame(sent.octets).value, id) &&
                                   Apdu(DecodeFrame(sent.octets).value.payload) == reply &&
                                   Shows(DecodeFrame(sent.octets).value.payload) == WriteShows(s, w))
  {
    hide Send, Balanced, Receive, Answer, Write, Ask, DecodeFrame, Npdu, Accepts, RequestIn, Confirmed, RequestId,
         ReplyRouting, Wrap, WritePropertyRequest, Shows, WriteShows;
    var apdu := WritePropertyRequest(id, o, property, value, priority, index);
    var data := Ask(r, apdu);
    var f := FrameSent(Unicast, r, apdu);
    AskArrives(r, apdu);
    ReceiveIsAnswer(s, data);
    WriteIsWritten(s, f, id, o, property, value, priority, index);
    var w := WriteRequest(o, property, Natural(index), value, Natural(priority));
    WriteReplyLength(s, id, w);
    WriteIsShown(s, id, w);
    if Write(s, id, w).1.Raised? {
      SendDies(f, Write(s, id, w).1);
    } else {
      SmallReplySent(f, Write(s, id, w).1.octets);
    }
    var sent := Receive(s, data).1;
    if sent.Datagram? {
      ReplyReaches(s, data, f, sent.octets);
    }
  }

  lemma WriteReplyLength(s: State, id: byte, w: WriteRequest)
    ensures Write(s, id, w).1.Raised? || (Write(s, id, w).1.Apdu? && |Write(s, id, w).1.octets| <= 13)
  {
    hide Winner, ApplicationTag, ErrorPdu, Stored;
    ErrorLength(id, WRITE_PROPERTY, 1, 31);
    ErrorLength(id, WRITE_PROPERTY, 2, 40);
  }

  lemma WriteIsWritten(s: State, f: Frame, id: byte, o: ObjectId, property: uint32, value: Bytes,
                       priority: Option<uint32>, index: Option<uint32>)
    requires Balanced(value) && Answering(s, o)
    requires Carries(f, WritePropertyRequest(id, o, property, value, priority, index))
    ensures Confirmed(f) && RequestId(f) == id
    ensures var w := WriteRequest(o, property, Natural(index), value, Natural(priority));
            var (t, reply) := Answer(s, f);
            SameStore(Write(s, id, w).0, t) && reply == Write(s, id, w).1 && t.writeRequests == s.writeRequests + [w]
  {
    hide Balanced, Write, Confirmed, RequestId, Service, Reference, Enclosed, OptionalUnsigned, ParseWrite;
    RequestHeader(f, id, WRITE_PROPERTY,
                  Reference(o, property, index) + Enclosed(3, value) + OptionalUnsigned(4, priority));
    WriteRequestRoundTrip(id, o, property, value, priority, index);
    var w := WriteRequest(o, property, Natural(index), value, Natural(priority));
    var s' := s.(writeRequests := s.writeRequests + [w]);
    WriteIgnoresRecords(s, s', id, w);
    WriteKeepsRecords(s', id, w);
  }

  lemma WriteKeepsRecords(s: State, id: byte, w: WriteRequest)
    ensures Write(s, id, w).0.writeRequests == s.writeRequests
  {
    hide Winner, ApplicationTag;
  }

  /** After any run that left the server alive and answering, a client that reads a commandable object's
      Present_Value over the wire sees what the log of acknowledged writes commands. */
  lemma HistoryRead(c: Config, objects: Objects, events: seq<Event>, o: ObjectId, r: Routing, id: byte)
    requires Constructible(c, objects) && o in CommandableObjects(c)
    requires forall x, p | x in objects && p in objects[x] :: Balanced(objects[x][p])
    requires var m := After(Initial(c, objects), events);
             m.alive && Answering(m.state, o) && (o, PRESENT_VALUE) !in m.state.wholeArraysRefused
    requires Askable(r, ReadPropertyRequest(id, o, PRESENT_VALUE, None))
    ensures var s := Initial(c, objects);
            var sent := Receive(After(s, events).state, Ask(r, ReadPropertyRequest(id, o, PRESENT_VALUE, None))).1;
            var commanded := Commands(Log(s, events, o), 1, objects[o][PRESENT_VALUE]);
            && (if Fits(r, ReadPropertyAck(id, o, PRESENT_VALUE, None, commanded)) then sent.Datagram? else sent.Died?)
            && (|commanded| <= 65000 ==> sent.Datagram?)
            && (sent.Datagram? ==>
                  && DecodeFrame(sent.octets).Ok? && Accepts(DecodeFrame(sent.octets).value, id)
                  && Shows(DecodeFrame(sent.octets).value.payload) == ShownValue(commanded)
                  && NamedAt(DecodeFrame(sent.octets).value.payload, 3) == Ok(ReadRequest(o, PRESENT_VALUE, None)))
  {
    hide Balanced, After, Log, Commands, Receive, Shows, Accepts, DecodeFrame, Npdu, Ask, StoreBalanced, AllArbitrated,
         Fits, ReadPropertyAck;
    var s := Initial(c, objects);
    InitialBalanced(c, objects);
    ReachableBalanced(s, events);
    ServedIsLogged(c, objects, events, o);
    ReadExchange(After(s, events).state, r, id, o, PRESENT_VALUE);
  }

  /** Off line, a write is recorded and counted, and neither made nor answered. */
  lemma OfflineWrite(s: State, f: Frame, id: byte, o: ObjectId, property: uint32, value: Bytes,
                     priority: Option<uint32>, index: Option<uint32>)
    requires Balanced(value) && s.mode.Offline?
    requires Carries(f, WritePropertyRequest(id, o, property, value, priority, index))
    ensures var w := WriteRequest(o, property, Natural(index), value, Natural(priority));
            Answer(s, f) == (s.(writeRequests := s.writeRequests + [w],
                                requestsWhileOffline := s.requestsWhileOffline + 1), NoReply)
  {
    hide Balanced, Confirmed, RequestId, Service, Reference, Enclosed, OptionalUnsigned, ParseWrite;
    RequestHeader(f, id, WRITE_PROPERTY,
                  Reference(o, property, index) + Enclosed(3, value) + OptionalUnsigned(4, priority));
    WriteRequestRoundTrip(id, o, property, value, priority, index);
  }

  /** A new server takes a write to any property it lists, if it was given no list of writable ones and the
      property is not commanded: the client sees a SimpleACK, the value is served, and the write is the only
      one recorded. */
  lemma FreshWrite(c: Config, objects: Objects, f: Frame, id: byte, o: ObjectId, property: uint32, value: Bytes)
    requires Constructible(c, objects) && o in objects && property in objects[o] && Balanced(value)
    requires c.writable.None? && c.commandable.None? && ApplicationTag(value).Ok?
    requires Carries(f, WritePropertyRequest(id, o, property, value, None, None))
    ensures var (t, reply) := Answer(Initial(c, objects), f);
            && reply.Apdu? && Shows(reply.octets) == ShownAck
            && Served(t, o, property) == Some(value)
            && t.writeRequests == [WriteRequest(o, property, None, value, None)]
  {
    hide Balanced, Shows, WritePropertyRequest, Write, ApplicationTag, Answer, Confirmed, RequestId, SimpleAck, ErrorPdu;
    var s, w := Initial(c, objects), WriteRequest(o, property, None, value, None);
    WriteIsWritten(s, f, id, o, property, value, None, None);
    FreshState(c, objects, w);
    WriteRefused(s, id, w);
    WriteIsShown(s, id, w);
    WriteTakesEffect(s, id, w);
    hide Initial;
    assert [] + [w] == [w];
    ServedMoves(Write(s, id, w).0, Answer(s, f).0, o, property);
  }

  lemma FreshState(c: Config, objects: Objects, w: WriteRequest)
    requires Constructible(c, objects) && w.target in objects && w.property in objects[w.target]
    requires c.writable.None? && c.commandable.None?
    ensures var s := Initial(c, objects);
            && MayWrite(s, w) && !Commanded(s, w) && s.writeRequests == [] && Answering(s, w.target)
            && s.config.commandable.None?
  {
  }

  // ----- requests that end the serving thread

  /** A value that holds a BOOLEAN with a length of more than 255. */
  const OVERSIZED: Bytes := [0x3E, 0x15, 254, 1, 0, 0x3F]

  lemma OversizedRaises(apdu: Bytes, q: nat)
    requires At(apdu, q, OVERSIZED)
    ensures ReadTag(apdu, q) == Ok(Tag(3, true, Open, [], q + 1)) && ReadTag(apdu, q + 1) == Err(Invalid)
  {
    hide FromBytes;
    AtPart(apdu, q, OVERSIZED, 0, 3);
    AtPart(apdu, q, OVERSIZED, 3, 5);
    assert apdu[q] == apdu[q..q + 3][0] && apdu[q + 1] == apdu[q..q + 3][1] && apdu[q + 2] == apdu[q..q + 3][2];
    assert OVERSIZED[3..5] == [1, 0];
    Number256();
  }

  lemma Number256()
    ensures FromBytes([1, 0]) == 256
  {
    assert [1, 0][..1] == [1] && [1][..0] == [];
    assert FromBytes([1]) == 1;
  }

  lemma OversizedWrite(id: byte, o: ObjectId, property: uint32)
    ensures ParseWrite(ConfirmedRequest(id, WRITE_PROPERTY, Reference(o, property, None) + OVERSIZED)) == Err(Invalid)
  {
    hide At, ReadTag, Reference, ReadReference, FromBytes;
    var r := Reference(o, property, None);
    var apdu := ConfirmedRequest(id, WRITE_PROPERTY, r + OVERSIZED);
    AtTail([0x00, 0x05, id, WRITE_PROPERTY], r + OVERSIZED);
    AtSplit(apdu, 4, r, OVERSIZED);
    ReferenceReads(apdu, 4, o, property, None);
    OversizedRaises(apdu, 4 + |r|);
  }

  /** Two requests, sent by any route, of which an online server without scripted failures dies: a
      ReadPropertyMultiple cut off in its first tag, and a write of that BOOLEAN to any property of any
      object. */
  lemma FatalRequests(s: State, r: Routing, id: byte, o: ObjectId, property: uint32)
    requires s.mode.Online? && s.failures == map[]
    requires Askable(r, [0x00, 0x05, id, 14, 0x0D])
    requires Askable(r, ConfirmedRequest(id, WRITE_PROPERTY, Reference(o, property, None) + OVERSIZED))
    ensures Receive(s, Ask(r, [0x00, 0x05, id, 14, 0x0D])) == (s, Died)
    ensures Receive(s, Ask(r, ConfirmedRequest(id, WRITE_PROPERTY, Reference(o, property, None) + OVERSIZED))) ==
            (s, Died)
  {
    hide Receive, Ask, RequestIn, Npdu, Reference, ParseWrite, Send, OVERSIZED;
    var cut := [0x00, 0x05, id, 14, 0x0D];
    var write := ConfirmedRequest(id, WRITE_PROPERTY, Reference(o, property, None) + OVERSIZED);
    AskArrives(r, cut);
    AskArrives(r, write);
    ReceiveIsAnswer(s, Ask(r, cut));
    ReceiveIsAnswer(s, Ask(r, write));
    var f, g := FrameSent(Unicast, r, cut), FrameSent(Unicast, r, write);
    CutAnswer(s, f, id);
    OversizedWrite(id, o, property);
    RequestHeader(g, id, WRITE_PROPERTY, Reference(o, property, None) + OVERSIZED);
    WriteRaises(s, g);
    SendDies(f, Answer(s, f).1);
    SendDies(g, Answer(s, g).1);
  }

  lemma WriteRaises(s: State, f: Frame)
    requires s.mode.Online? && s.failures == map[] && IsService(f, WRITE_PROPERTY) && ParseWrite(f.payload).Err?
    ensures Answer(s, f).0 == s && Answer(s, f).1.Raised?
  {
    hide ParseWrite;
  }

  lemma CutAnswer(s: State, f: Frame, id: byte)
    requires s.mode.Online? && s.failures == map[] && Carries(f, [0x00, 0x05, id, 14, 0x0D])
    ensures Answer(s, f).0 == s && Answer(s, f).1.Raised?
  {
    hide Answer;
    assert f.payload[4..] == [0x0D];
    assert Slice(f.payload, 4, 4 + |f.payload|) == [0x0D];
    assert ReadTag([0x0D], 0) == Err(Short);
    CutOff(s, f);
  }

  // ----- array elements

  function ElementsOf(v: Bytes): seq<Bytes> {
    match ElementsFrom(v, 0, [])
    case Ok(elements) => elements
    case Err(_) => []
  }

  function ExpectedElement(elements: seq<Bytes>, index: nat): Shown
    requires |elements| < 0x1_0000_0000
  {
    if index == 0 then ShownValue(Brief(2, false, UnsignedOctets(|elements|)))
    else if index <= |elements| then ShownValue(elements[index - 1])
    else ShownError(2, 42)
  }

  lemma NoElements(v: Bytes)
    ensures Joined([]) == v[..0] && v[0..] == v
  {
  }

  /** The elements of a run of application primitives are primitives, and concatenate to the run. */
  lemma ElementsJoin(v: Bytes)
    requires Run(v, 0)
    ensures ElementsFrom(v, 0, []) == Ok(ElementsOf(v))
    ensures Joined(ElementsOf(v)) == v && AreElements(ElementsOf(v)) && |ElementsOf(v)| <= |v|
  {
    hide Run, Joined, IsElement, ElementsFrom;
    NoElements(v);
    ElementsOfRun(v, 0, []);
  }

  lemma ElementRead(id: byte, r: ReadRequest, index: uint32, v: Bytes)
    requires Run(v, 0) && |v| < 0x1_0000_0000 && r.property < 0x1_0000_0000
    ensures |ElementsOf(v)| < 0x1_0000_0000 && ReadElement(id, r, index, v).Apdu?
    ensures Shows(ReadElement(id, r, index, v).octets) == ExpectedElement(ElementsOf(v), index)
    ensures index <= |ElementsOf(v)| ==>
              NamedAt(ReadElement(id, r, index, v).octets, 3) == Ok(ReadRequest(r.target, r.property, Some(index)))
  {
    hide Shows, ElementsFrom, ElementsOf, Joined, Run, ReadPropertyAck, ErrorPdu, Brief, ReadTag, Encodes, Balanced,
         IsElement, NamedAt;
    ElementsJoin(v);
    var es := ElementsOf(v);
    if index == 0 {
      var n := Brief(2, false, UnsignedOctets(|es|));
      OneTag(n, 2, false, UnsignedOctets(|es|));
      AckShows(id, r.target, r.property, Some(0), n);
    } else if index <= |es| {
      ElementBalanced(es[index - 1]);
      AckShows(id, r.target, r.property, Some(index), es[index - 1]);
    } else {
      ErrorShows(id, READ_PROPERTY, 2, 42);
    }
  }

  /** With `array_elements`, for a value that is a run of application primitives: index 0 shows the
      number of elements, 1..n show the elements in order, whose concatenation is the whole value, and
      every index beyond shows INVALID_ARRAY_INDEX. The answer names the element that was asked for. */
  lemma ArrayReads(s: State, f: Frame, id: byte, o: ObjectId, property: uint32, index: uint32, v: Bytes)
    requires Carries(f, ReadPropertyRequest(id, o, property, Some(index))) && Answering(s, o)
    requires s.config.arrayElements && Served(s, o, property) == Some(v)
    requires Run(v, 0) && |v| < 0x1_0000_0000
    ensures |ElementsOf(v)| < 0x1_0000_0000 && Joined(ElementsOf(v)) == v && AreElements(ElementsOf(v))
    ensures SameStore(s, Answer(s, f).0) && Answer(s, f).1.Apdu?
    ensures Shows(Answer(s, f).1.octets) == ExpectedElement(ElementsOf(v), index)
    ensures index <= |ElementsOf(v)| ==>
              NamedAt(Answer(s, f).1.octets, 3) == Ok(ReadRequest(o, property, Some(index)))
  {
    hide NamedAt, Answer, Shows, ElementsOf, Joined, Run, ReadPropertyRequest, ReadElement, ExpectedElement, IsElement;
    ReadIsListed(s, f, id, o, property, Some(index));
    ElementsJoin(v);
    ElementRead(id, ReadRequest(o, property, Natural(Some(index))), index, v);
  }

  /** A new server answers every read of a listed object with what it was made with. */
  lemma FreshRead(c: Config, objects: Objects, o: ObjectId, property: uint32, r: Routing, id: byte)
    requires Constructible(c, objects) && o in objects
    requires forall x, p | x in objects && p in objects[x] :: Balanced(objects[x][p])
    requires Askable(r, ReadPropertyRequest(id, o, property, None))
    ensures var sent := Receive(Initial(c, objects), Ask(r, ReadPropertyRequest(id, o, property, None))).1;
            var shown := if property in objects[o] then ShownValue(objects[o][property]) else ShownError(2, 32);
            && (property !in objects[o] || |objects[o][property]| <= 65000 ==> sent.Datagram?)
            && (sent.Datagram? ==>
                  && DecodeFrame(sent.octets).Ok? && Accepts(DecodeFrame(sent.octets).value, id)
                  && Shows(DecodeFrame(sent.octets).value.payload) == shown)
  {
    hide Balanced, Receive, Shows, Accepts, DecodeFrame, Npdu, Ask, StoreBalanced, Fits, ReadPropertyAck, NamedAt,
         ReadPropertyRequest;
    InitialBalanced(c, objects);
    ReadExchange(Initial(c, objects), r, id, o, property);
  }
}
