/** Who-Is and I-Am (section 16.10 of ANSI/ASHRAE 135-2024), and the simulated device's own object. */
module Discovery {
  import opened Octets
  import opened Tags
  import opened Nesting
  import opened Layout
  import opened Frames
  import opened Primitives
  import opened Properties
  import opened Server
  import opened Exchange

  function WhoIs(limits: Option<(uint32, uint32)>): Bytes {
    [0x10, WHO_IS] + LimitOctets(limits)
  }

  function LimitOctets(limits: Option<(uint32, uint32)>): Bytes {
    if limits.Some? then ContextUnsigned(0, limits.value.0) + ContextUnsigned(1, limits.value.1) else []
  }

  /** `i_am_device_instance`. */
  function IAmDeviceInstance(apdu: Bytes): Result<Option<Instance>> {
    if |apdu| < 7 || apdu[0] / 16 != UNCONFIRMED_REQUEST || apdu[1] != 0 then Ok(None) else
    var t :- ReadTag(apdu, 2);
    if t.context || t.number != 12 || |t.body| != 4 then Ok(None) else
    var o :- ObjectIdFrom(t.body);
    Ok(if o.objectType == OBJECT_TYPE_DEVICE then Some(o.instance) else None)
  }

  /** What an I-Am announces is read back. */
  lemma IAmReads(c: Config)
    ensures IAmDeviceInstance(IAm(c)) == Ok(Some(c.deviceInstance))
  {
    hide At, Encodes, ReadTag, Brief, ObjectIdFrom, FromBytes;
    var o := ObjectId(OBJECT_TYPE_DEVICE, c.deviceInstance);
    var a := Brief(12, false, ObjectIdOctets(o));
    var b, d, e := Brief(2, false, UnsignedOctets(1476)), Brief(9, false, UnsignedOctets(3)),
                   Brief(2, false, UnsignedOctets(c.vendorIdentifier));
    AtTail([0x10, 0], a);
    assert IAm(c) == [0x10, 0] + a + (b + d + e);
    AtFront([0x10, 0] + a, b + d + e, 2, a);
    ReadAt(IAm(c), 2, a, 12, false, Value, ObjectIdOctets(o));
    ObjectIdRoundTrip(o, []);
  }

  /** On the wire: Device identifier, maximum APDU length, segmentation (none) and vendor, each with the tag
      of its datatype. */
  lemma IAmLayout(c: Config)
    ensures |IAm(c)| >= 2 && IAm(c)[..2] == [0x10, 0]
    ensures Lays(IAm(c)[2..], [Application(12, ObjectIdOctets(ObjectId(8, c.deviceInstance))),
                               Application(2, UnsignedOctets(1476)), Application(9, UnsignedOctets(3)),
                               Application(2, UnsignedOctets(c.vendorIdentifier))])
  {
    hide Lays, Brief, ObjectIdOctets, UnsignedOctets, Application, IAm;
    var o := ObjectIdOctets(ObjectId(8, c.deviceInstance));
    var a, b, d, e := Brief(12, false, o), Brief(2, false, UnsignedOctets(1476)), Brief(9, false, UnsignedOctets(3)),
                      Brief(2, false, UnsignedOctets(c.vendorIdentifier));
    var p, q, r, s := Application(12, o), Application(2, UnsignedOctets(1476)), Application(9, UnsignedOctets(3)),
                      Application(2, UnsignedOctets(c.vendorIdentifier));
    LaysApplication(12, o);
    LaysApplication(2, UnsignedOctets(1476));
    LaysApplication(9, UnsignedOctets(3));
    LaysApplication(2, UnsignedOctets(c.vendorIdentifier));
    LaysThree(a, p, b, q, d, r);
    LaysBoth(a + b + d, [p, q, r], e, [s]);
    assert [p, q, r] + [s] == [p, q, r, s];
    IAmParts(c);
  }

  lemma IAmParts(c: Config)
    ensures |IAm(c)| >= 2 && IAm(c)[..2] == [0x10, 0]
    ensures IAm(c)[2..] == Brief(12, false, ObjectIdOctets(ObjectId(8, c.deviceInstance))) +
                           Brief(2, false, UnsignedOctets(1476)) + Brief(9, false, UnsignedOctets(3)) +
                           Brief(2, false, UnsignedOctets(c.vendorIdentifier))
  {
    hide Brief, ObjectIdOctets, UnsignedOctets, Encodes, ReadTag;
    Behind([0x10, 0], Brief(12, false, ObjectIdOctets(ObjectId(8, c.deviceInstance))),
           Brief(2, false, UnsignedOctets(1476)), Brief(9, false, UnsignedOctets(3)),
           Brief(2, false, UnsignedOctets(c.vendorIdentifier)));
  }

  lemma Behind(head: Bytes, a: Bytes, b: Bytes, c: Bytes, d: Bytes)
    ensures |head + a + b + c + d| >= |head|
    ensures (head + a + b + c + d)[..|head|] == head && (head + a + b + c + d)[|head|..] == a + b + c + d
  {
    assert head + a + b + c + d == head + (a + b + c + d);
  }

  lemma LaysApplication(tag: TagNumber, body: Bytes)
    requires |body| < 5 && tag != 1
    ensures Lays(Brief(tag, false, body), [Application(tag, body)])
  {
    hide Lays, Brief;
    LaysBrief(tag, false, body);
  }

  function LimitPieces(limits: Option<(uint32, uint32)>): seq<Piece> {
    if limits.None? then []
    else [Context(0, UnsignedOctets(limits.value.0)), Context(1, UnsignedOctets(limits.value.1))]
  }

  /** On the wire: nothing but the service, or the low limit [0] and the high limit [1]. */
  lemma WhoIsLayout(limits: Option<(uint32, uint32)>)
    ensures |WhoIs(limits)| >= 2 && WhoIs(limits)[..2] == [0x10, 8]
    ensures Lays(WhoIs(limits)[2..], LimitPieces(limits))
  {
    hide Lays, ContextUnsigned, UnsignedOctets;
    LaysNothing();
    assert WhoIs(limits)[2..] == LimitOctets(limits);
    if limits.Some? {
      var (low, high) := limits.value;
      var p, q := Context(0, UnsignedOctets(low)), Context(1, UnsignedOctets(high));
      LaysContextUnsigned(0, low);
      LaysContextUnsigned(1, high);
      LaysBoth(ContextUnsigned(0, low), [p], ContextUnsigned(1, high), [q]);
      assert [p] + [q] == [p, q];
    }
  }

  /** An I-Am of any object: only a Device is recognised. */
  lemma AnnouncedExactly(o: ObjectId, more: Bytes)
    ensures IAmDeviceInstance([0x10, 0] + Brief(12, false, ObjectIdOctets(o)) + more) ==
            Ok(if o.objectType == 8 then Some(o.instance) else None)
  {
    hide At, Encodes, ReadTag, Brief, ObjectIdFrom, FromBytes;
    var a := Brief(12, false, ObjectIdOctets(o));
    var apdu := [0x10, 0] + a + more;
    AtTail([0x10, 0], a);
    AtFront([0x10, 0] + a, more, 2, a);
    ReadAt(apdu, 2, a, 12, false, Value, ObjectIdOctets(o));
    ObjectIdRoundTrip(o, []);
  }

  /** And only an unconfirmed I-Am is: whatever octets an instance is read from, they are one. */
  lemma OnlyIAm(apdu: Bytes)
    requires IAmDeviceInstance(apdu).Ok? && IAmDeviceInstance(apdu).value.Some?
    ensures |apdu| >= 7 && apdu[0] / 16 == 1 && apdu[1] == 0
    ensures var t := ReadTag(apdu, 2);
            && t.Ok? && !t.value.context && t.value.number == 12
            && ObjectIdFrom(t.value.body) == Ok(ObjectId(8, IAmDeviceInstance(apdu).value.value))
  {
    hide ReadTag, FromBytes;
  }

  /** An I-Am carries the identifier, the APDU size, the segmentation and the vendor, in that order. */
  lemma IAmFields(c: Config)
    ensures ApplicationValues(Slice(IAm(c), 2, 2 + |IAm(c)|), 0, []) ==
            Ok([ObjectIdOctets(ObjectId(OBJECT_TYPE_DEVICE, c.deviceInstance)), UnsignedOctets(1476),
                UnsignedOctets(3), UnsignedOctets(c.vendorIdentifier)])
  {
    hide At, Encodes, ReadTag, Brief, FromBytes, ObjectIdOctets;
    var o := ObjectIdOctets(ObjectId(OBJECT_TYPE_DEVICE, c.deviceInstance));
    var x, y, z := UnsignedOctets(1476), UnsignedOctets(3), UnsignedOctets(c.vendorIdentifier);
    var a, b, d, e := Brief(12, false, o), Brief(2, false, x), Brief(9, false, y), Brief(2, false, z);
    var body := a + b + d + e;
    assert IAm(c)[2..] == body;
    assert Slice(IAm(c), 2, 2 + |IAm(c)|) == body;
    AtTail([], body);
    assert [] + body == body;
    AtSplit(body, 0, a + b + d, e);
    AtSplit(body, 0, a + b, d);
    AtSplit(body, 0, a, b);
    ValueCollected(body, 0, a, 12, o, []);
    ValueCollected(body, |a|, b, 2, x, [o]);
    ValueCollected(body, |a| + |b|, d, 9, y, [o, x]);
    ValueCollected(body, |a| + |b| + |d|, e, 2, z, [o, x, y]);
    assert [] + [o] == [o] && [o] + [x] == [o, x] && [o, x] + [y] == [o, x, y] && [o, x, y] + [z] == [o, x, y, z];
  }

  lemma ValueCollected(octets: Bytes, q: nat, x: Bytes, number: byte, body: Bytes, found: seq<Bytes>)
    requires At(octets, q, x) && Encodes(x, number, false, Value, body)
    ensures ApplicationValues(octets, q, found) == ApplicationValues(octets, q + |x|, found + [body])
  {
    hide ReadTag;
    ReadAt(octets, q, x, number, false, Value, body);
  }

  lemma AtFront(data: Bytes, more: Bytes, q: nat, e: Bytes)
    requires At(data, q, e)
    ensures At(data + more, q, e)
  {
    assert (data + more)[q..q + |e|] == data[q..q + |e|];
  }

  /** A Who-Is is answered exactly if it has no limits or they contain the device instance; the asker
      reads that instance from the answer. */
  lemma WhoIsAnswered(s: State, f: Frame, limits: Option<(uint32, uint32)>)
    requires Carries(f, WhoIs(limits)) && !s.mode.Offline?
    ensures Answer(s, f).0 == s
    ensures Answer(s, f).1 ==
            if limits.None? || limits.value.0 <= s.config.deviceInstance <= limits.value.1 then Apdu(IAm(s.config))
            else NoReply
    ensures Answer(s, f).1.Apdu? ==> IAmDeviceInstance(Answer(s, f).1.octets) == Ok(Some(s.config.deviceInstance))
  {
    hide Lays, LimitOctets, IAm, IAmDeviceInstance, Answer, Numbers, UnsignedOctets, FromBytes;
    IAmReads(s.config);
    WhoIsLayout(limits);
    var e := WhoIs(limits)[2..];
    assert [0x10, 8] + e == WhoIs(limits);
    AnyWhoIs(s, f, e, LimitPieces(limits));
    LimitNumbers(limits);
  }

  lemma LimitNumbers(limits: Option<(uint32, uint32)>)
    ensures Numbers(LimitPieces(limits)) == if limits.None? then [] else [limits.value.0, limits.value.1]
  {
    hide FromBytes;
    if limits.Some? {
      var ps := LimitPieces(limits);
      assert ps[1..] == [ps[1]] && [ps[1]][1..] == [];
      assert Numbers([ps[1]]) == [limits.value.1] + Numbers([]);
    }
  }

  /** The primitives among the tags, as numbers. */
  function Numbers(pieces: seq<Piece>): seq<nat> {
    if pieces == [] then []
    else (if pieces[0].kind.Value? then [FromBytes(pieces[0].body)] else []) + Numbers(pieces[1..])
  }

  lemma {:induction false} LimitsAmong(octets: Bytes, q: nat, pieces: seq<Piece>, found: seq<nat>)
    requires q <= |octets| && Lays(octets[q..], pieces)
    ensures Limits(octets, q, found) == Ok(found + Numbers(pieces))
    decreases |pieces|
  {
    hide ReadTag, FromBytes;
    assert found + [] == found;
    if q < |octets| {
      var e := octets[q..];
      var t := ReadTag(e, 0).value;
      assert At(octets, q, e);
      Local(octets, q, e, 0);
      assert e[t.next..] == octets[q + t.next..];
      var one := if t.kind.Value? then [FromBytes(t.body)] else [];
      LimitsAmong(octets, q + t.next, pieces[1..], found + one);
      assert found + one + Numbers(pieces[1..]) == found + (one + Numbers(pieces[1..]));
    }
  }

  /** A Who-Is with any tags behind it, numbered as they may be: it goes unanswered exactly if there are two
      primitives and the device instance is not between them. */
  lemma AnyWhoIs(s: State, f: Frame, e: Bytes, pieces: seq<Piece>)
    requires Carries(f, [0x10, 8] + e) && Lays(e, pieces) && !s.mode.Offline?
    ensures var n := Numbers(pieces);
            Answer(s, f) == (s, if |n| == 2 && !(n[0] <= s.config.deviceInstance <= n[1]) then NoReply
                                else Apdu(IAm(s.config)))
  {
    hide Lays, Limits, Numbers, IAm, ReadDevice;
    assert f.payload[2..] == e && e[0..] == e;
    assert Slice(f.payload, 2, 2 + |f.payload|) == e;
    LimitsAmong(e, 0, pieces, []);
    assert [] + Numbers(pieces) == Numbers(pieces);
  }

  predicate IsOwnDevice(c: Config, o: ObjectId) {
    o.objectType == OBJECT_TYPE_DEVICE && (o.instance == c.deviceInstance || o.instance == ANY_INSTANCE)
  }

  lemma OwnDeviceAnswer(s: State, f: Frame, id: byte, o: ObjectId, property: uint32)
    requires Carries(f, ReadPropertyRequest(id, o, property, None)) && Answering(s, o) && o !in s.objects
    ensures Answer(s, f) == (s, ReadDevice(s.config, f)) && RequestId(f) == id
  {
    hide Confirmed, Service, RequestId, Reference, ReadDevice, ParseRead, ReadReference;
    RequestHeader(f, id, READ_PROPERTY, Reference(o, property, None));
    ReadRequestRoundTrip(id, o, property, None);
  }

  predicate ShowsText(shown: Shown, text: Bytes) {
    shown.ShownValue? && DecodeApplication(shown.octets) == Ok(Some(Text(text)))
  }

  /** Reading the device's own object, by its instance or the wildcard, shows its name exactly if that is
      no longer than 252 octets, and raises in the server exactly if it is longer than 254; it shows its
      identifier, and for any other property UNKNOWN_PROPERTY; any other unlisted object is
      UNKNOWN_OBJECT. */
  lemma DeviceRead(s: State, f: Frame, id: byte, o: ObjectId, property: uint32)
    requires Carries(f, ReadPropertyRequest(id, o, property, None)) && Answering(s, o) && o !in s.objects
    ensures Answer(s, f).0 == s
    ensures var named := IsOwnDevice(s.config, o) && property == OBJECT_NAME;
            if named && |s.config.objectName| > 254 then Answer(s, f).1.Raised? else Answer(s, f).1.Apdu?
    ensures Answer(s, f).1.Apdu? ==>
            var shown := Shows(Answer(s, f).1.octets);
            if !IsOwnDevice(s.config, o) then shown == ShownError(1, 31)
            else if property == OBJECT_NAME then
              && (ShowsText(shown, s.config.objectName) <==> |s.config.objectName| <= 252)
              && NamedAt(Answer(s, f).1.octets, 3) == Ok(ReadRequest(ObjectId(8, s.config.deviceInstance), 77, None))
            else if property == OBJECT_IDENTIFIER then
              && shown.ShownValue?
              && DecodeApplication(shown.octets) == Ok(Some(Identifier(ObjectId(8, s.config.deviceInstance))))
              && NamedAt(Answer(s, f).1.octets, 3) == Ok(ReadRequest(ObjectId(8, s.config.deviceInstance), 75, None))
            else shown == ShownError(2, 32)
  {
    hide Answer, Shows, ErrorPdu, ReadPropertyAck, ReadPropertyRequest, CharacterString, Brief, DecodeApplication,
         ReadReference, ObjectIdOctets, Encodes, Balanced, RequestId, NamedAt;
    OwnDeviceAnswer(s, f, id, o, property);
    DeviceReference(f, id, o, property);
    var device := ObjectId(OBJECT_TYPE_DEVICE, s.config.deviceInstance);
    var name := s.config.objectName;
    ErrorShows(id, READ_PROPERTY, 1, 31);
    ErrorShows(id, READ_PROPERTY, 2, 32);
    if IsOwnDevice(s.config, o) && property == OBJECT_NAME {
      if |name| <= 254 {
        NameShown(id, device, property, name);
      }
    } else if IsOwnDevice(s.config, o) && property == OBJECT_IDENTIFIER {
      PrimitiveRoundTrip(PObject(device));
      var e := Brief(12, false, ObjectIdOctets(device));
      OneTag(e, 12, false, ObjectIdOctets(device));
      AckShows(id, device, property, None, e);
    }
  }

  lemma NameShown(id: byte, o: ObjectId, property: uint32, name: Bytes)
    requires |name| <= 254
    ensures var e := CharacterString(7, false, name).value;
            && (ShowsText(Shows(ReadPropertyAck(id, o, property, None, e)), name) <==> |name| <= 252)
            && NamedAt(ReadPropertyAck(id, o, property, None, e), 3) == Ok(ReadRequest(o, property, None))
  {
    hide NamedAt, CharacterString, DecodeApplication, Encodes, Balanced, ValueFrom, Reference, Enclosed, ErrorClassAndCode;
    var e := CharacterString(7, false, name).value;
    ReadAckRoundTrip(id, o, property, None, e);
    if |name| <= 252 {
      PrimitiveRoundTrip(PText(name));
      OneTag(e, 7, false, [0] + name);
      AckShows(id, o, property, None, e);
    } else {
      AckPrefix(id, o, property, None, e);
      var shown := Shows(ReadPropertyAck(id, o, property, None, e));
      if shown.ShownValue? {
        LongTextLost(shown.octets, name);
      }
    }
  }

  lemma DeviceReference(f: Frame, id: byte, o: ObjectId, property: uint32)
    requires Carries(f, ReadPropertyRequest(id, o, property, None))
    ensures var r := ReadReference(f.payload, 4); r.Ok? && r.value.0 == o && r.value.1 == property
  {
    hide At, ReadTag, ReadReference, Encodes, Reference;
    AtTail([0x00, 0x05, id, READ_PROPERTY], Reference(o, property, None));
    ReferenceReads(f.payload, 4, o, property, None);
  }
}
