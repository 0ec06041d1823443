/** What holds of the simulated server in every run: its store, its answers, its priority arrays. */
module ServerRuns {
  import opened Octets
  import opened Tags
  import opened Nesting
  import opened Frames
  import opened Properties
  import opened Multiple
  import opened Server
  import opened Elements

  // ----- the invariants

  ghost predicate SlotsBalanced(slots: Slots) {
    forall i | 0 <= i < |slots| && slots[i].Some? :: Balanced(slots[i].value)
  }

  /** Everything the server could ever serve is balanced. */
  ghost predicate StoreBalanced(s: State) {
    && (forall o, p | o in s.objects && p in s.objects[o] :: Balanced(s.objects[o][p]))
    && (forall o | o in s.config.relinquishDefaults :: Balanced(s.config.relinquishDefaults[o]))
    && (forall o | o in s.priorityArrays :: SlotsBalanced(s.priorityArrays[o]))
  }

  /** The Present_Value served is the highest-priority slot, else the Relinquish_Default. */
  ghost predicate Arbitrated(s: State, o: ObjectId) {
    && o in s.priorityArrays && |s.priorityArrays[o]| == PRIORITIES
    && o in s.config.relinquishDefaults
    && Served(s, o, PRESENT_VALUE) == Some(Winner(s.priorityArrays[o], s.config.relinquishDefaults[o]))
  }

  ghost predicate AllArbitrated(s: State) { forall o | Commandable(s, o) :: Arbitrated(s, o) }

  predicate SameStore(s: State, t: State) {
    t.config == s.config && t.objects == s.objects && t.priorityArrays == s.priorityArrays
  }

  // ----- one write

  lemma {:induction false} WinnerFrom(slots: Slots, default: Bytes)
    ensures Winner(slots, default) == default ||
            exists i | 0 <= i < |slots| :: slots[i] == Some(Winner(slots, default))
  {
    if slots != [] && slots[0].None? {
      WinnerFrom(slots[1..], default);
      assert Winner(slots, default) == Winner(slots[1..], default);
      if Winner(slots, default) != default {
        var i :| 0 <= i < |slots[1..]| && slots[1..][i] == Some(Winner(slots, default));
        assert slots[i + 1] == slots[1..][i];
      }
    } else if slots != [] {
      assert slots[0] == Some(Winner(slots, default));
    }
  }

  /** Whatever is written, and even when the thread dies of it, the store stays balanced. */
  lemma WriteBalanced(s: State, id: byte, w: WriteRequest)
    requires StoreBalanced(s) && Balanced(w.value)
    ensures StoreBalanced(Write(s, id, w).0)
  {
    hide Balanced, Winner, ApplicationTag;
    var t := Write(s, id, w).0;
    if w.target in t.priorityArrays && w.target in s.config.relinquishDefaults {
      WinnerFrom(t.priorityArrays[w.target], s.config.relinquishDefaults[w.target]);
    }
  }

  /** Every write that is answered leaves every Present_Value the winner of its slots. */
  lemma WriteArbitrated(s: State, id: byte, w: WriteRequest)
    requires AllArbitrated(s) && !Write(s, id, w).1.Raised?
    ensures AllArbitrated(Write(s, id, w).0)
  {
    hide Winner, ApplicationTag;
    var t := Write(s, id, w).0;
    forall o | Commandable(t, o)
      ensures Arbitrated(t, o)
    {
      assert Commandable(s, o) && Arbitrated(s, o);
    }
  }

  /** The answer tells the truth: anything but a SimpleACK leaves the state as it was, and a
      SimpleACK changes only the named property and, for a commanded one, the slot of the priority. */
  lemma WriteTellsTruth(s: State, id: byte, w: WriteRequest)
    ensures var (t, reply) := Write(s, id, w);
            && (reply.Apdu? && reply.octets != SimpleAck(id, WRITE_PROPERTY) ==>
                  t == s && exists c: uint32, e: uint32 :: reply.octets == ErrorPdu(id, WRITE_PROPERTY, c, e))
            && !reply.NoReply?
            && (forall o, p | o != w.target || p != w.property :: Served(t, o, p) == Served(s, o, p))
            && t.objects.Keys == s.objects.Keys && t.priorityArrays.Keys == s.priorityArrays.Keys
            && (forall o | o in s.priorityArrays && !(o == w.target && Commanded(s, w)) ::
                  t.priorityArrays[o] == s.priorityArrays[o])
            && (w.target in s.priorityArrays ==>
                  |t.priorityArrays[w.target]| == |s.priorityArrays[w.target]| &&
                  forall i | 0 <= i < |s.priorityArrays[w.target]| && i != Priority(w) - 1 ::
                    t.priorityArrays[w.target][i] == s.priorityArrays[w.target][i])
  {
    hide Winner, ApplicationTag, ErrorCodes;
    var (t, reply) := Write(s, id, w);
    if reply.Apdu? && reply.octets != SimpleAck(id, WRITE_PROPERTY) {
      assert reply.octets == ErrorPdu(id, WRITE_PROPERTY, 1, 31) || reply.octets == ErrorPdu(id, WRITE_PROPERTY, 2, 40);
    }
  }

  /** A NULL to a property that is not commanded, which an online server with commandable objects
      acknowledges without effect, writable or not. */
  predicate IgnoredNull(s: State, w: WriteRequest) {
    && s.config.commandable.Some? && s.mode.Online? && !Commanded(s, w)
    && Served(s, w.target, w.property).Some? && ApplicationTag(w.value) == Ok(Some(0))
  }

  /** A listed object, a property it has or, given a list of writable ones, one of those, and not refusing. */
  predicate MayWrite(s: State, w: WriteRequest) {
    && w.target in s.objects && s.mode != Refusing
    && (s.config.writable.None? ==> w.property in s.objects[w.target])
    && (s.config.writable.Some? ==> (w.target, w.property) in s.config.writable.value)
  }

  predicate HasSlot(s: State, w: WriteRequest) {
    && w.target in s.priorityArrays && w.target in s.config.relinquishDefaults
    && Priority(w) <= |s.priorityArrays[w.target]|
  }

  /** Every write is acknowledged, refused as UNKNOWN_OBJECT, refused as WRITE_ACCESS_DENIED or raises, and
      each exactly when it should. */
  lemma WriteRefused(s: State, id: byte, w: WriteRequest)
    ensures Write(s, id, w).1 == Apdu(SimpleAck(id, WRITE_PROPERTY)) <==>
            && ApplicationTag(w.value).Ok?
            && (IgnoredNull(s, w) || (MayWrite(s, w) && (Commanded(s, w) ==> HasSlot(s, w))))
    ensures Write(s, id, w).1 == Apdu(ErrorPdu(id, WRITE_PROPERTY, 1, 31)) <==>
            ApplicationTag(w.value).Ok? && w.target !in s.objects
    ensures Write(s, id, w).1 == Apdu(ErrorPdu(id, WRITE_PROPERTY, 2, 40)) <==>
            ApplicationTag(w.value).Ok? && w.target in s.objects && !MayWrite(s, w) && !IgnoredNull(s, w)
    ensures Write(s, id, w).1.Raised? <==>
            ApplicationTag(w.value).Err? || (MayWrite(s, w) && Commanded(s, w) && !HasSlot(s, w))
  {
    hide ApplicationTag, Winner, ErrorPdu, SimpleAck;
    ErrorsDiffer(id);
  }

  lemma ErrorsDiffer(id: byte)
    ensures ErrorPdu(id, WRITE_PROPERTY, 1, 31) != ErrorPdu(id, WRITE_PROPERTY, 2, 40)
    ensures ErrorPdu(id, WRITE_PROPERTY, 1, 31) != SimpleAck(id, WRITE_PROPERTY)
    ensures ErrorPdu(id, WRITE_PROPERTY, 2, 40) != SimpleAck(id, WRITE_PROPERTY)
  {
    ErrorRoundTrip(id, WRITE_PROPERTY, 1, 31);
    ErrorRoundTrip(id, WRITE_PROPERTY, 2, 40);
    ErrorReply(id, WRITE_PROPERTY, 1, 31);
    ErrorReply(id, WRITE_PROPERTY, 2, 40);
    hide ErrorClassAndCode, ErrorPdu;
  }

  /** What an acknowledged write leaves to be read. A NULL to a property that is not commanded is
      acknowledged without effect by a server that has commandable objects and is online. */
  lemma WriteTakesEffect(s: State, id: byte, w: WriteRequest)
    requires Write(s, id, w).1 == Apdu(SimpleAck(id, WRITE_PROPERTY))
    ensures var t := Write(s, id, w).0;
            var isNull := ApplicationTag(w.value) == Ok(Some(0));
            if Commanded(s, w) then
              && Priority(w) <= |s.priorityArrays[w.target]|
              && t.priorityArrays[w.target] ==
                 s.priorityArrays[w.target][Priority(w) - 1 := if isNull then None else Some(w.value)]
            else if isNull && s.config.commandable.Some? && s.mode.Online? && Served(s, w.target, w.property).Some?
            then t == s
            else Served(t, w.target, w.property) == Some(w.value)
  {
    hide Winner, ApplicationTag;
  }

  /** The state with slot `p` of `o` set and the Present_Value arbitrated anew. */
  function Slotted(s: State, o: ObjectId, p: nat, value: Option<Bytes>): State
    requires o in s.objects && o in s.priorityArrays && 1 <= p <= |s.priorityArrays[o]|
    requires o in s.config.relinquishDefaults
  {
    var slots := s.priorityArrays[o][p - 1 := value];
    Stored(s, o, PRESENT_VALUE, Winner(slots, s.config.relinquishDefaults[o]))
      .(priorityArrays := s.priorityArrays[o := slots])
  }

  predicate Permitted(s: State, w: WriteRequest) {
    Commanded(s, w) && !s.mode.Refusing? && w.target in s.objects && Writable(s, w) && ApplicationTag(w.value).Ok? &&
    Priority(w) <= PRIORITIES
  }

  lemma CommandedWrite(s: State, id: byte, w: WriteRequest)
    requires Arbitrated(s, w.target) && Permitted(s, w)
    ensures Write(s, id, w) ==
            (Slotted(s, w.target, Priority(w), if ApplicationTag(w.value) == Ok(Some(0)) then None else Some(w.value)),
             Apdu(SimpleAck(id, WRITE_PROPERTY)))
  {
    hide Winner, ApplicationTag, ErrorPdu, SimpleAck;
    var o := w.target;
    var t := Write(s, id, w).0;
    var u := Slotted(s, o, Priority(w), if ApplicationTag(w.value) == Ok(Some(0)) then None else Some(w.value));
    assert t.objects[o] == u.objects[o];
    assert t.objects == u.objects;
  }

  lemma AcknowledgedIsPermitted(s: State, id: byte, w: WriteRequest)
    requires Arbitrated(s, w.target) && Commanded(s, w) && Write(s, id, w).1 == Apdu(SimpleAck(id, WRITE_PROPERTY))
    ensures Permitted(s, w)
  {
    hide Winner, ApplicationTag;
  }

  lemma SlotRestored(s: State, o: ObjectId, p: nat, value: Bytes)
    requires Arbitrated(s, o) && o in s.objects && 1 <= p <= PRIORITIES && s.priorityArrays[o][p - 1] == None
    ensures Slotted(Slotted(s, o, p, Some(value)), o, p, None) == s
  {
    hide Winner;
    var t := Slotted(s, o, p, Some(value));
    var u := Slotted(t, o, p, None);
    assert t.priorityArrays[o][p - 1 := None] == s.priorityArrays[o];
    assert u.priorityArrays == s.priorityArrays;
    assert u.objects[o] == s.objects[o];
    assert u.objects == s.objects;
  }

  /** Writing at an empty slot and then NULL at the same slot puts the whole state back. */
  lemma RelinquishRestores(s: State, id: byte, w: WriteRequest, id': byte, v: WriteRequest)
    requires AllArbitrated(s) && Commanded(s, w) && Priority(w) <= PRIORITIES
    requires s.priorityArrays[w.target][Priority(w) - 1] == None
    requires v == w.(value := [0], priority := v.priority) && Priority(v) == Priority(w)
    requires Write(s, id, w).1 == Apdu(SimpleAck(id, WRITE_PROPERTY))
    ensures Write(Write(s, id, w).0, id', v) == (s, Apdu(SimpleAck(id', WRITE_PROPERTY)))
  {
    hide Winner, ApplicationTag, Write, SimpleAck;
    NullIsNull();
    var o := w.target;
    assert Arbitrated(s, o);
    AcknowledgedIsPermitted(s, id, w);
    CommandedWrite(s, id, w);
    WriteArbitrated(s, id, w);
    var t := Write(s, id, w).0;
    assert Commandable(t, o) && Arbitrated(t, o);
    CommandedWrite(t, id', v);
    if ApplicationTag(w.value) != Ok(Some(0)) {
      SlotRestored(s, o, Priority(w), w.value);
    } else {
      NullKeeps(s, o, Priority(w));
    }
  }

  lemma NullKeeps(s: State, o: ObjectId, p: nat)
    requires Arbitrated(s, o) && o in s.objects && 1 <= p <= PRIORITIES && s.priorityArrays[o][p - 1] == None
    ensures Slotted(s, o, p, None) == s
  {
    hide Winner;
    var t := Slotted(s, o, p, None);
    assert s.priorityArrays[o][p - 1 := None] == s.priorityArrays[o];
    assert t.priorityArrays == s.priorityArrays;
    assert t.objects[o] == s.objects[o];
    assert t.objects == s.objects;
  }

  /** The one write that breaks the arbitration: an accepted Present_Value with a priority beyond 16 is
      stored as it is and then raises, which ends the serving thread. */
  lemma PriorityBeyondSlots(s: State, id: byte, w: WriteRequest)
    requires AllArbitrated(s) && Commanded(s, w) && !s.mode.Refusing? && w.target in s.objects && Writable(s, w)
    requires ApplicationTag(w.value).Ok?
    ensures Write(s, id, w).1.Raised? <==> Priority(w) > PRIORITIES
    ensures Write(s, id, w).1.Raised? ==>
              Served(Write(s, id, w).0, w.target, PRESENT_VALUE) == Some(w.value) &&
              Write(s, id, w).0.priorityArrays == s.priorityArrays
  {
    hide Winner, ApplicationTag;
    assert Arbitrated(s, w.target);
  }

  lemma NullIsNull()
    ensures ApplicationTag([0]) == Ok(Some(0))
  {
  }

  // ----- one answer

  /** The write a frame asks for, if it asks for one. */
  function WriteOf(f: Frame): Option<WriteRequest> {
    if IsService(f, WRITE_PROPERTY) && ParseWrite(f.payload).Ok? then ParseWrite(f.payload).value else None
  }

  /** The PDU types of a response, carrying the invoke id where a client looks for it, and, of an ACK or an
      Error, the service. */
  predicate Response(apdu: Bytes, id: byte, service: byte) {
    && |apdu| >= 3 && apdu[1] == id && apdu[0] / 16 in {SIMPLE_ACK, COMPLEX_ACK, ERROR, REJECT, ABORT}
    && (apdu[0] / 16 in {SIMPLE_ACK, COMPLEX_ACK, ERROR} ==> apdu[2] == service)
  }

  /** A response that is not a SimpleACK, or none. */
  predicate ReadReply(reply: Reply, id: byte, service: byte) {
    reply.Apdu? ==> Response(reply.octets, id, service) && reply.octets[0] != 0x20
  }

  /** The service choice of a confirmed request. */
  function ServiceAsked(f: Frame): byte { if |f.payload| > 3 then f.payload[3] else 0 }

  lemma AckReply(id: byte, o: ObjectId, property: nat, index: Option<uint32>, value: Bytes)
    ensures ReadReply(Ack(id, o, property, index, value), id, READ_PROPERTY)
  {
    hide Reference, Enclosed;
  }

  lemma ErrorReply(id: byte, service: byte, c: uint32, e: uint32)
    ensures ReadReply(Apdu(ErrorPdu(id, service, c, e)), id, service)
  {
    hide ErrorCodes;
  }

  lemma OtherReplies(id: byte, service: byte)
    ensures ReadReply(Apdu(AbortPdu(id, 4)), id, service) && ReadReply(NoReply, id, service)
    ensures forall fault :: ReadReply(Raised(fault), id, service)
  {
  }

  lemma AckReplies(id: byte, o: ObjectId, property: nat)
    ensures forall index: Option<uint32>, value: Bytes :: ReadReply(Ack(id, o, property, index, value), id, READ_PROPERTY)
  {
    hide Ack, ReadReply;
    forall index: Option<uint32>, value: Bytes
      ensures ReadReply(Ack(id, o, property, index, value), id, READ_PROPERTY)
    {
      AckReply(id, o, property, index, value);
    }
  }

  lemma ReadDeviceReply(c: Config, f: Frame)
    ensures ReadReply(ReadDevice(c, f), RequestId(f), READ_PROPERTY)
  {
    hide ReadReply, Caught, ReadReference, ErrorPdu, Ack, Primitives.CharacterString, Brief, ReadTag, Encodes,
         RequestId, ObjectIdOctets;
    var id := RequestId(f);
    var device := ObjectId(OBJECT_TYPE_DEVICE, c.deviceInstance);
    AckReplies(id, device, OBJECT_NAME);
    AckReplies(id, device, OBJECT_IDENTIFIER);
    ErrorReply(id, READ_PROPERTY, 1, 31);
    ErrorReply(id, READ_PROPERTY, 2, 32);
    OtherReplies(id, READ_PROPERTY);
  }

  lemma ReadElementReply(id: byte, r: ReadRequest, index: nat, served: Bytes)
    ensures ReadReply(ReadElement(id, r, index, served), id, READ_PROPERTY)
  {
    hide ReadReply, ElementsFrom, ErrorPdu, Ack, Brief, ReadTag, Encodes;
    AckReplies(id, r.target, r.property);
    ErrorReply(id, READ_PROPERTY, 2, 42);
    OtherReplies(id, READ_PROPERTY);
  }

  lemma ReadListedReply(s: State, id: byte, r: ReadRequest, failure: Option<Failure>)
    ensures SameStore(s, ReadListed(s, id, r, failure).0)
    ensures ReadReply(ReadListed(s, id, r, failure).1, id, READ_PROPERTY)
  {
    hide ReadReply, ReadElement, ErrorPdu, AbortPdu, Ack;
    AckReplies(id, r.target, r.property);
    ErrorReply(id, READ_PROPERTY, 2, 32);
    OtherReplies(id, READ_PROPERTY);
    if r.index.Some? && Served(s, r.target, r.property).Some? {
      ReadElementReply(id, r, r.index.value, Served(s, r.target, r.property).value);
    }
  }

  lemma ReadMultipleReply(s: State, f: Frame)
    ensures SameStore(s, ReadMultiple(s, f).0)
    ensures ReadReply(ReadMultiple(s, f).1, RequestId(f), READ_PROPERTY_MULTIPLE)
  {
    hide SpecificationsFrom, AccessesOctets, Encodable, ReadTag;
  }

  /** Nothing but a WriteProperty touches the store; every answer to a confirmed request is a
      response with its invoke id. */
  lemma ProceedElse(s: State, f: Frame, failure: Option<Failure>)
    requires !IsService(f, WRITE_PROPERTY)
    ensures SameStore(s, Proceed(s, f, failure).0)
    ensures Confirmed(f) ==> ReadReply(Proceed(s, f, failure).1, RequestId(f), ServiceAsked(f))
    ensures Proceed(s, f, failure).1 != Apdu(SimpleAck(RequestId(f), WRITE_PROPERTY))
    ensures Confirmed(f) && Proceed(s, f, failure).1.Apdu? ==> |f.payload| > 3
  {
    hide ParseRead, ReadDevice, ReadListed, ReadMultiple, ReadTag, IAm, Limits;
    ReadDeviceReply(s.config, f);
    ReadMultipleReply(s, f);
    var parsed := ParseRead(f.payload);
    if parsed.Ok? {
      ReadListedReply(s, RequestId(f), parsed.value, failure);
    }
    IAmStarts(s.config);
  }

  lemma IAmStarts(c: Config)
    ensures |IAm(c)| > 0 && IAm(c)[0] == 0x10
  {
    hide ReadTag, Encodes;
  }

  lemma ServedMoves(s: State, t: State, o: ObjectId, property: nat)
    requires SameStore(s, t)
    ensures Served(s, o, property) == Served(t, o, property)
  {
  }

  lemma CommandIgnoresRecords(s: State, t: State, id: byte, w: WriteRequest, isNull: bool)
    requires SameStore(s, t) && w.target in s.objects
    ensures SameStore(Command(s, id, w, isNull).0, Command(t, id, w, isNull).0)
    ensures Command(s, id, w, isNull).1 == Command(t, id, w, isNull).1
  {
    hide Winner, Priority, SimpleAck;
  }

  lemma WriteIgnoresRecords(s: State, t: State, id: byte, w: WriteRequest)
    requires SameStore(s, t) && s.mode == t.mode
    ensures SameStore(Write(s, id, w).0, Write(t, id, w).0) && Write(s, id, w).1 == Write(t, id, w).1
  {
    hide Command, ApplicationTag, ErrorPdu, SimpleAck, Served;
    ServedMoves(s, t, w.target, w.property);
    if w.target in s.objects && ApplicationTag(w.value).Ok? {
      var s', t' := Stored(s, w.target, w.property, w.value), Stored(t, w.target, w.property, w.value);
      CommandIgnoresRecords(s', t', id, w, ApplicationTag(w.value).value == Some(0));
    }
  }

  predicate AsWritten(s: State, f: Frame, t: State, reply: Reply) {
    WriteOf(f).Some? && SameStore(Write(s, RequestId(f), WriteOf(f).value).0, t) &&
    reply == Write(s, RequestId(f), WriteOf(f).value).1
  }

  lemma ProceedWrite(s: State, f: Frame, failure: Option<Failure>)
    requires IsService(f, WRITE_PROPERTY)
    ensures var (t, reply) := Proceed(s, f, failure);
            (SameStore(s, t) && !reply.Apdu?) || AsWritten(s, f, t, reply)
    ensures |f.payload| > 3
  {
    hide ParseWrite, Write;
    var request := ParseWrite(f.payload);
    if request.Ok? && request.value.Some? {
      var t := s.(writeRequests := s.writeRequests + [request.value.value]);
      WriteIgnoresRecords(s, t, RequestId(f), request.value.value);
    }
  }

  /** Only a WriteProperty touches the store, and then as `Write` does. */
  lemma AnswerStores(s: State, f: Frame)
    ensures var (t, reply) := Answer(s, f);
            (SameStore(s, t) && reply != Apdu(SimpleAck(RequestId(f), WRITE_PROPERTY))) || AsWritten(s, f, t, reply)
  {
    hide RequestedObject, Write, Proceed, IsService, WriteOf;
    forall failure
      ensures var (t, reply) := Proceed(s, f, failure);
              (SameStore(s, t) && reply != Apdu(SimpleAck(RequestId(f), WRITE_PROPERTY))) || AsWritten(s, f, t, reply)
    {
      if IsService(f, WRITE_PROPERTY) {
        ProceedWrite(s, f, failure);
      } else {
        ProceedElse(s, f, failure);
      }
    }
    hide AsWritten;
  }

  /** Every answer to a confirmed request is a response to that request. */
  lemma AnswerResponds(s: State, f: Frame)
    requires Confirmed(f) && Answer(s, f).1.Apdu?
    ensures Response(Answer(s, f).1.octets, RequestId(f), ServiceAsked(f))
    ensures InvokeId(f) == Ok(Some(RequestId(f))) && Service(f) == Ok(Some(ServiceAsked(f)))
  {
    hide RequestedObject, Write, Proceed, ParseWrite, ReadReference;
    forall failure | Proceed(s, f, failure).1.Apdu?
      ensures Response(Proceed(s, f, failure).1.octets, RequestId(f), ServiceAsked(f)) && |f.payload| > 3
    {
      if IsService(f, WRITE_PROPERTY) {
        ProceedWrite(s, f, failure);
        WriteResponds(s, RequestId(f), WriteOf(f).value);
      } else {
        ProceedElse(s, f, failure);
      }
    }
    RequestedService(f);
  }

  lemma RequestedService(f: Frame)
    ensures RequestedObject(f).Ok? && RequestedObject(f).value.Some? ==> |f.payload| > 3
  {
    hide ParseWrite, ReadReference;
  }

  lemma WriteResponds(s: State, id: byte, w: WriteRequest)
    ensures Write(s, id, w).1.Apdu? ==> Response(Write(s, id, w).1.octets, id, WRITE_PROPERTY)
  {
    hide Winner, ApplicationTag, ErrorPdu, Stored;
    ErrorReply(id, WRITE_PROPERTY, 1, 31);
    ErrorReply(id, WRITE_PROPERTY, 2, 40);
  }

  /** Offline or refusing, whatever arrives, the server changes nothing it serves; offline, it does not
      answer at all. */
  lemma ModesProtect(s: State, f: Frame)
    requires !s.mode.Online?
    ensures SameStore(s, Answer(s, f).0)
    ensures s.mode.Offline? ==> !Answer(s, f).1.Apdu?
    ensures s.mode.Offline? && Answer(s, f).1.NoReply? ==>
              Answer(s, f).0.requestsWhileOffline == s.requestsWhileOffline +
              (if IsService(f, READ_PROPERTY) || IsService(f, READ_PROPERTY_MULTIPLE) || IsService(f, WRITE_PROPERTY)
               then 1 else 0)
  {
    hide ParseWrite, IsService, ApplicationTag, RequestedObject, Write, WriteOf, ReadListed, ReadMultiple;
    AnswerStores(s, f);
    if WriteOf(f).Some? && s.mode.Refusing? {
      RefusingKeeps(s, RequestId(f), WriteOf(f).value);
    }
  }

  lemma RefusingKeeps(s: State, id: byte, w: WriteRequest)
    requires s.mode.Refusing?
    ensures Write(s, id, w).0 == s
  {
    hide ApplicationTag;
  }

  // ----- what else arrives

  /** A confirmed request for another service, and an unconfirmed one that is no Who-Is, goes unanswered and
      leaves no trace. */
  lemma OthersIgnored(s: State, f: Frame)
    requires !IsService(f, 12) && !IsService(f, 14) && !IsService(f, 15)
    requires !(PduType(f) == Some(UNCONFIRMED_REQUEST) && Service(f) == Ok(Some(8)))
    ensures Answer(s, f) == (s, NoReply)
  {
  }

  /** Requests that end too soon. A ReadProperty or WriteProperty without its object and property, or whose
      value does not end, goes unanswered; of a read whose index is cut off the server finds neither the
      index nor the object, and answers as the device does; and a ReadPropertyMultiple that is cut off
      raises, which ends the thread. */
  lemma CutOff(s: State, f: Frame)
    requires s.mode.Online? && s.failures == map[]
    ensures IsService(f, 12) && ReadReference(f.payload, 4) == Err(Short) ==> Answer(s, f) == (s, NoReply)
    ensures IsService(f, 15) && ParseWriteParameters(f.payload) == Err(Short) ==> Answer(s, f) == (s, NoReply)
    ensures IsService(f, 12) && NamedAt(f.payload, 4) == Err(Short) ==> Answer(s, f) == (s, ReadDevice(s.config, f))
    ensures IsService(f, 12) && NamedAt(f.payload, 4) == Err(Invalid) ==>
              Answer(s, f).0 == s && Answer(s, f).1.Raised?
    ensures IsService(f, 14) && SpecificationsFrom(Slice(f.payload, 4, 4 + |f.payload|), 0, None, NO_MEMBERS).Err? ==>
              Answer(s, f).0 == s && Answer(s, f).1.Raised?
  {
    hide ReadTag, FromBytes, CloseAt, SpecificationsFrom, ReadListed, Write;
  }
}
