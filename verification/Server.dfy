/** `SimulatedServer` (wiretest/peer.py) as a function of its state: what it answers, and what that
    leaves behind. The class in SimulatedServer.dfy does the same in place. */
module Server {
  import opened Octets
  import opened Tags
  import opened Frames
  import opened Primitives
  import opened Properties
  import opened Multiple
  import opened Elements

  const WHO_IS: byte := 8
  const PRESENT_VALUE: nat := 85
  const OBJECT_NAME: nat := 77
  const OBJECT_IDENTIFIER: nat := 75
  const OBJECT_TYPE_DEVICE: ObjectType := 8
  const ANY_INSTANCE: Instance := 0x3F_FFFF
  const PRIORITIES: nat := 16

  datatype Mode = Online | Offline | Refusing
  datatype Failure = Rejects | Aborts | Silent | Malformed
  datatype ReadRecord = ReadRecord(service: byte, members: Members)

  type Slots = seq<Option<Bytes>>

  /** What a server is made with; answering never changes it. */
  datatype Config = Config(
    deviceInstance: Instance,
    objectName: Bytes,
    vendorIdentifier: uint32,
    writable: Option<set<(ObjectId, nat)>>,
    commandable: Option<set<ObjectId>>,
    relinquishDefaults: map<ObjectId, Bytes>,
    arrayElements: bool)

  datatype State = State(
    config: Config,
    objects: map<ObjectId, map<nat, Bytes>>,
    priorityArrays: map<ObjectId, Slots>,
    mode: Mode,
    failures: map<ObjectId, Failure>,
    wholeArraysRefused: set<(ObjectId, nat)>,
    readRequests: seq<ReadRecord>,
    writeRequests: seq<WriteRequest>,
    arrayReads: seq<ReadRequest>,
    requestsWhileOffline: nat,
    silentRequests: nat)

  /** `Raised` is an exception that ends the serving thread. */
  datatype Reply = Apdu(octets: Bytes) | NoReply | Raised(fault: Fault)

  function Served(s: State, o: ObjectId, property: nat): Option<Bytes> {
    if o in s.objects && property in s.objects[o] then Some(s.objects[o][property]) else None
  }

  predicate Confirmed(f: Frame) { PduType(f) == Some(CONFIRMED_REQUEST) }

  predicate IsService(f: Frame, service: byte) { Confirmed(f) && Service(f) == Ok(Some(service)) }

  /** The invoke id of a confirmed request that has a service choice. */
  function RequestId(f: Frame): byte { if |f.payload| > 2 then f.payload[2] else 0 }

  function RequestedObject(f: Frame): Result<Option<ObjectId>> {
    if IsService(f, READ_PROPERTY) then
      var r :- Caught(ReadReference(f.payload, 4));
      Ok(if r.Some? then Some(r.value.0) else None)
    else if IsService(f, WRITE_PROPERTY) then
      var w :- ParseWrite(f.payload);
      Ok(if w.Some? then Some(w.value.target) else None)
    else Ok(None)
  }

  /** `context_unsigned` raises for a property identifier that takes more than four octets. */
  function Ack(id: byte, o: ObjectId, property: nat, index: Option<uint32>, value: Bytes): Reply {
    if property < 0x1_0000_0000 then Apdu(ReadPropertyAck(id, o, property, index, value)) else Raised(Invalid)
  }

  // ----- the device object

  function ReadDevice(c: Config, f: Frame): Reply {
    var id := RequestId(f);
    match Caught(ReadReference(f.payload, 4))
    case Err(fault) => Raised(fault)
    case Ok(None) => NoReply
    case Ok(Some(reference)) =>
      var (o, property, _) := reference;
      var device := ObjectId(OBJECT_TYPE_DEVICE, c.deviceInstance);
      if o != device && o != ObjectId(OBJECT_TYPE_DEVICE, ANY_INSTANCE) then Apdu(ErrorPdu(id, READ_PROPERTY, 1, 31))
      else if property == OBJECT_NAME then
        match CharacterString(7, false, c.objectName)
        case Ok(name) => Ack(id, device, property, None, name)
        case Err(fault) => Raised(fault)
      else if property == OBJECT_IDENTIFIER then Ack(id, device, property, None, Brief(12, false, ObjectIdOctets(device)))
      else Apdu(ErrorPdu(id, READ_PROPERTY, 2, 32))
  }

  /** Every primitive as a number, whatever its tag. */
  function Limits(octets: Bytes, position: nat, found: seq<nat>): Result<seq<nat>>
    decreases if position < |octets| then |octets| - position else 0
  {
    if position >= |octets| then Ok(found) else
    var t :- ReadTag(octets, position);
    Limits(octets, t.next, if t.kind.Value? then found + [FromBytes(t.body)] else found)
  }

  method ReadLimits(octets: Bytes) returns (r: Result<seq<nat>>)
    ensures r == Limits(octets, 0, [])
  {
    hide ReadTag, FromBytes;
    var limits, position := [], 0;
    while position < |octets|
      invariant Limits(octets, position, limits) == Limits(octets, 0, [])
      decreases |octets| - position
    {
      var t := ReadTag(octets, position);
      if t.Err? {
        return Err(t.fault);
      }
      if t.value.kind.Value? {
        limits := limits + [FromBytes(t.value.body)];
      }
      position := t.value.next;
    }
    return Ok(limits);
  }

  function IAm(c: Config): Bytes {
    [0x10, 0] + Brief(12, false, ObjectIdOctets(ObjectId(OBJECT_TYPE_DEVICE, c.deviceInstance))) +
    Brief(2, false, UnsignedOctets(1476)) + Brief(9, false, UnsignedOctets(3)) +
    Brief(2, false, UnsignedOctets(c.vendorIdentifier))
  }

  function AnswerWhoIs(c: Config, f: Frame): Reply {
    match Limits(Slice(f.payload, 2, 2 + |f.payload|), 0, [])
    case Err(fault) => Raised(fault)
    case Ok(limits) =>
      if |limits| == 2 && !(limits[0] <= c.deviceInstance <= limits[1]) then NoReply else Apdu(IAm(c))
  }

  /** `SimulatedDevice._answer`. */
  function AnswerAsDevice(c: Config, f: Frame): Reply {
    if IsService(f, READ_PROPERTY) then ReadDevice(c, f)
    else if PduType(f) == Some(UNCONFIRMED_REQUEST) && Service(f) == Ok(Some(WHO_IS)) then AnswerWhoIs(c, f)
    else NoReply
  }

  // ----- reading listed objects

  function RecordRead(s: State, o: ObjectId, property: nat): State {
    s.(readRequests := s.readRequests + [ReadRecord(READ_PROPERTY, Members([o], map[o := [property]]))])
  }

  function ReadPlain(s: State, id: byte, r: ReadRequest): (State, Reply) {
    (RecordRead(s, r.target, r.property),
     match Served(s, r.target, r.property)
     case None => Apdu(ErrorPdu(id, READ_PROPERTY, 2, 32))
     case Some(value) => Ack(id, r.target, r.property, None, value))
  }

  /** The element of `served` an array index names: its length for 0, INVALID_ARRAY_INDEX past the end. */
  function ReadElement(id: byte, r: ReadRequest, index: nat, served: Bytes): Reply {
    match ElementsFrom(served, 0, [])
    case Err(fault) => Raised(fault)
    case Ok(elements) =>
      if index == 0 then
        if |elements| < 0x1_0000_0000 then
          Ack(id, r.target, r.property, Some(0), Brief(2, false, UnsignedOctets(|elements|)))
        else Raised(Invalid)
      else if index > |elements| then Apdu(ErrorPdu(id, READ_PROPERTY, 2, 42))
      else if index < 0x1_0000_0000 then Ack(id, r.target, r.property, Some(index), elements[index - 1])
      else Raised(Invalid)
  }

  function ReadListed(s: State, id: byte, r: ReadRequest, failure: Option<Failure>): (State, Reply) {
    if failure == Some(Malformed) then (s, Ack(id, r.target, r.property, None, [0]))
    else if r.index.None? then
      if (r.target, r.property) in s.wholeArraysRefused then
        (RecordRead(s, r.target, r.property), Apdu(AbortPdu(id, 4)))
      else ReadPlain(s, id, r)
    else
      match Served(s, r.target, r.property)
      case None => ReadPlain(s, id, r)
      case Some(served) =>
        if !s.config.arrayElements then ReadPlain(s, id, r)
        else (RecordRead(s, r.target, r.property).(arrayReads := s.arrayReads + [r]),
              ReadElement(id, r, r.index.value, served))
  }

  function ReadMultiple(s: State, f: Frame): (State, Reply) {
    var body := Slice(f.payload, 4, 4 + |f.payload|);
    match SpecificationsFrom(body, 0, None, NO_MEMBERS)
    case Err(fault) => (s, Raised(fault))
    case Ok(m) =>
      (s.(readRequests := s.readRequests + [ReadRecord(READ_PROPERTY_MULTIPLE, m)]),
       match AnswerMultiple(RequestId(f), f.payload, (o, p) => Served(s, o, p))
       case Ok(ack) => Apdu(ack)
       case Err(fault) => Raised(fault))
  }

  // ----- writing

  /** `application_tag`. */
  function ApplicationTag(octets: Bytes): Result<Option<byte>> {
    if octets == [] then Ok(None) else
    var t :- ReadTag(octets, 0);
    Ok(if t.context then None else Some(t.number))
  }

  predicate Commandable(s: State, o: ObjectId) { s.config.commandable.Some? && o in s.config.commandable.value }

  predicate Commanded(s: State, w: WriteRequest) { Commandable(s, w.target) && w.property == PRESENT_VALUE }

  predicate Writable(s: State, w: WriteRequest)
    requires w.target in s.objects
  {
    match s.config.writable
    case None => w.property in s.objects[w.target]
    case Some(pairs) => (w.target, w.property) in pairs
  }

  function Stored(s: State, o: ObjectId, property: nat, value: Bytes): State
    requires o in s.objects
  {
    var row: map<nat, Bytes> := s.objects[o][property := value];
    s.(objects := s.objects[o := row])
  }

  /** A missing priority, and 0, mean 16. */
  function Priority(w: WriteRequest): nat {
    if w.priority.None? || w.priority.value == 0 then PRIORITIES else w.priority.value
  }

  function Filled(slots: Slots): seq<Bytes> {
    if slots == [] then [] else (if slots[0].Some? then [slots[0].value] else []) + Filled(slots[1..])
  }

  function Winner(slots: Slots, default: Bytes): Bytes {
    var winning := Filled(slots);
    if winning != [] then winning[0] else default
  }

  /** The slot of the priority is filled or relinquished and the highest-priority value takes over.
      Python raises for a priority beyond the slots, with the written value already stored. */
  function Command(stored: State, id: byte, w: WriteRequest, isNull: bool): (State, Reply)
    requires w.target in stored.objects
  {
    var o, p := w.target, Priority(w);
    if o !in stored.priorityArrays || o !in stored.config.relinquishDefaults || p > |stored.priorityArrays[o]| then
      (stored, Raised(Invalid))
    else
      var slots := stored.priorityArrays[o][p - 1 := if isNull then None else Some(w.value)];
      (Stored(stored, o, PRESENT_VALUE, Winner(slots, stored.config.relinquishDefaults[o]))
         .(priorityArrays := stored.priorityArrays[o := slots]),
       Apdu(SimpleAck(id, WRITE_PROPERTY)))
  }

  function Write(s: State, id: byte, w: WriteRequest): (State, Reply) {
    match ApplicationTag(w.value)
    case Err(fault) => (s, Raised(fault))
    case Ok(tag) =>
      var isNull := tag == Some(0);
      if s.config.commandable.Some? && isNull && !Commanded(s, w) && s.mode.Online? &&
         Served(s, w.target, w.property).Some? then (s, Apdu(SimpleAck(id, WRITE_PROPERTY)))
      else if w.target !in s.objects then (s, Apdu(ErrorPdu(id, WRITE_PROPERTY, 1, 31)))
      else if s.mode.Refusing? || !Writable(s, w) then (s, Apdu(ErrorPdu(id, WRITE_PROPERTY, 2, 40)))
      else
        var stored := Stored(s, w.target, w.property, w.value);
        if Commanded(s, w) then Command(stored, id, w, isNull) else (stored, Apdu(SimpleAck(id, WRITE_PROPERTY)))
  }

  function AnswerWrite(s: State, f: Frame): (State, Reply) {
    match ParseWrite(f.payload)
    case Err(fault) => (s, Raised(fault))
    case Ok(request) =>
      var t := if request.Some? then s.(writeRequests := s.writeRequests + [request.value]) else s;
      if t.mode.Offline? then (t.(requestsWhileOffline := t.requestsWhileOffline + 1), NoReply)
      else if request.None? then (t, NoReply)
      else Write(t, RequestId(f), request.value)
  }

  // ----- answering

  function AnswerRead(s: State, f: Frame, failure: Option<Failure>): (State, Reply) {
    match Caught(ParseRead(f.payload))
    case Err(fault) => (s, Raised(fault))
    case Ok(parsed) =>
      if parsed.Some? && parsed.value.target in s.objects then ReadListed(s, RequestId(f), parsed.value, failure)
      else (s, AnswerAsDevice(s.config, f))
  }

  function Proceed(s: State, f: Frame, failure: Option<Failure>): (State, Reply) {
    if IsService(f, WRITE_PROPERTY) then AnswerWrite(s, f)
    else if s.mode.Offline? then
      (if IsService(f, READ_PROPERTY) || IsService(f, READ_PROPERTY_MULTIPLE)
       then s.(requestsWhileOffline := s.requestsWhileOffline + 1) else s, NoReply)
    else if IsService(f, READ_PROPERTY_MULTIPLE) then ReadMultiple(s, f)
    else if IsService(f, READ_PROPERTY) then AnswerRead(s, f, failure)
    else (s, AnswerAsDevice(s.config, f))
  }

  /** `SimulatedServer._answer`. */
  function Answer(s: State, f: Frame): (State, Reply) {
    if !(Confirmed(f) && s.mode.Online? && s.failures != map[]) then Proceed(s, f, None) else
    match RequestedObject(f)
    case Err(fault) => (s, Raised(fault))
    case Ok(o) =>
      var failure := if o.Some? && o.value in s.failures then Some(s.failures[o.value]) else None;
      if failure == Some(Rejects) then (s, Apdu(RejectPdu(RequestId(f), 9)))
      else if failure == Some(Aborts) then (s, Apdu(AbortPdu(RequestId(f), 4)))
      else if failure == Some(Silent) then (s.(silentRequests := s.silentRequests + 1), NoReply)
      else Proceed(s, f, failure)
  }

  // ----- one datagram

  datatype Sent = Datagram(octets: Bytes) | Nothing | Died

  /** `_reply`: back to the SNET and SADR the request came with. */
  function ReplyRouting(f: Frame): Routing {
    if f.snet.Some? && |f.sadr| < 256 then LOCAL.(destination := Some(Address(f.snet.value, f.sadr))) else LOCAL
  }

  function Send(f: Frame, reply: Reply): Sent {
    match reply
    case NoReply => Nothing
    case Raised(_) => Died
    case Apdu(apdu) =>
      var npdu := Npdu(ReplyRouting(f), apdu);
      assert WrappingMac(Unicast) + npdu == npdu;
      if FitsBvll(npdu) then Datagram(Wrap(Unicast, npdu)) else Died
  }

  /** One turn of `_serve`. */
  function Receive(s: State, data: Bytes): (State, Sent) {
    match DecodeFrame(data)
    case Err(_) => (s, Died)
    case Ok(f) =>
      if f.ok && f.networkMessage.None? then
        var (t, reply) := Answer(s, f);
        (t, Send(f, reply))
      else (s, Nothing)
  }
}
