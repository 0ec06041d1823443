/** A request that is sent again (wiretest/client.py, `send_with_retries`): the server answers every copy
    alike, and the copies change nothing that the first did not. */
module Resends {
  import opened Octets
  import opened Tags
  import opened Frames
  import opened Properties
  import opened Multiple
  import opened Server
  import opened ServerRuns
  import opened ServerHistory

  /** Everything an answer depends on: the state without its records of requests. */
  predicate SameServer(s: State, t: State) {
    && SameStore(s, t) && t.mode == s.mode && t.failures == s.failures
    && t.wholeArraysRefused == s.wholeArraysRefused
  }

  // ----- a write made twice

  lemma StoredAgain(s: State, o: ObjectId, property: nat, v: Bytes, w: Bytes)
    requires o in s.objects
    ensures Stored(Stored(s, o, property, v), o, property, w) == Stored(s, o, property, w)
  {
    var row := s.objects[o];
    var once: map<nat, Bytes>, twice: map<nat, Bytes> := row[property := v], row[property := w];
    assert once[property := w] == twice;
    assert s.objects[o := once][o := twice] == s.objects[o := twice];
  }

  lemma CommandAgain(s: State, id: byte, w: WriteRequest, isNull: bool)
    requires w.target in s.objects && !Command(s, id, w, isNull).1.Raised? && w.property == PRESENT_VALUE
    ensures var t := Command(s, id, w, isNull).0;
            && w.target in t.objects
            && Command(Stored(t, w.target, w.property, w.value), id, w, isNull) == (t, Command(s, id, w, isNull).1)
  {
    hide Winner, SimpleAck;
    var o, p := w.target, Priority(w);
    var slots := s.priorityArrays[o][p - 1 := if isNull then None else Some(w.value)];
    var winner := Winner(slots, s.config.relinquishDefaults[o]);
    var t := Command(s, id, w, isNull).0;
    StoredAgain(s, o, PRESENT_VALUE, winner, w.value);
    StoredAgain(s, o, PRESENT_VALUE, w.value, winner);
    StoredAgain(t, o, PRESENT_VALUE, w.value, winner);
    StoredAgain(s, o, PRESENT_VALUE, winner, winner);
    assert slots[p - 1 := if isNull then None else Some(w.value)] == slots;
    assert s.priorityArrays[o := slots][o := slots] == s.priorityArrays[o := slots];
  }

  /** A write that was answered, made again, gives the same answer and changes nothing more. */
  lemma WriteAgain(s: State, id: byte, w: WriteRequest)
    requires !Write(s, id, w).1.Raised?
    ensures Write(Write(s, id, w).0, id, w) == Write(s, id, w)
  {
    hide Command, Winner, ErrorPdu, SimpleAck, ApplicationTag;
    var t := Write(s, id, w).0;
    if t != s {
      var stored := Stored(s, w.target, w.property, w.value);
      if Commanded(s, w) {
        var isNull := ApplicationTag(w.value).value == Some(0);
        CommandAgain(stored, id, w, isNull);
        CommandStores(stored, id, w, isNull);
      } else {
        StoredAgain(s, w.target, w.property, w.value, w.value);
      }
    }
  }

  lemma CommandStores(s: State, id: byte, w: WriteRequest, isNull: bool)
    requires w.target in s.objects
    ensures var t := Command(s, id, w, isNull).0;
            && t.config == s.config && t.mode == s.mode && w.target in t.objects
            && forall p | p in s.objects[w.target] :: p in t.objects[w.target]
  {
    hide Winner, Priority;
  }

  // ----- an answer does not depend on the records

  lemma MultipleAlike(id: byte, payload: Bytes, v: Source, u: Source)
    requires forall o: ObjectId, p: nat :: v(o, p) == u(o, p)
    ensures AnswerMultiple(id, payload, v) == AnswerMultiple(id, payload, u)
  {
    hide SpecificationsFrom, MultipleAck;
    var members := SpecificationsFrom(Slice(payload, 4, 4 + |payload|), 0, None, NO_MEMBERS);
    SpecificationsOrdered(Slice(payload, 4, 4 + |payload|), 0, None, NO_MEMBERS);
    if members.Ok? && Encodable(members.value) {
      var m := members.value;
      forall o | o in m.lists
        ensures ReadingsFor(o, m.lists[o], v) == ReadingsFor(o, m.lists[o], u)
      {
      }
      assert AccessesFor(m.order, m, v) == AccessesFor(m.order, m, u);
    }
  }

  lemma ReadMultipleAlike(s: State, t: State, f: Frame)
    requires SameServer(s, t)
    ensures SameServer(ReadMultiple(s, f).0, ReadMultiple(t, f).0) && ReadMultiple(s, f).1 == ReadMultiple(t, f).1
  {
    hide SpecificationsFrom, AnswerMultiple;
    MultipleAlike(RequestId(f), f.payload, (o, p) => Served(s, o, p), (o, p) => Served(t, o, p));
  }

  lemma ReadListedAlike(s: State, t: State, id: byte, r: ReadRequest, failure: Option<Failure>)
    requires SameServer(s, t)
    ensures SameServer(ReadListed(s, id, r, failure).0, ReadListed(t, id, r, failure).0)
    ensures ReadListed(s, id, r, failure).1 == ReadListed(t, id, r, failure).1
  {
    hide ReadElement, ReadPlain, RecordRead, AbortPdu, Served;
    ServedMoves(s, t, r.target, r.property);
    RecordedAlike(s, t, r.target, r.property);
    PlainAlike(s, t, id, r);
  }

  lemma RecordedAlike(s: State, t: State, o: ObjectId, property: nat)
    requires SameServer(s, t)
    ensures SameServer(RecordRead(s, o, property), RecordRead(t, o, property))
  {
  }

  lemma PlainAlike(s: State, t: State, id: byte, r: ReadRequest)
    requires SameServer(s, t)
    ensures SameServer(ReadPlain(s, id, r).0, ReadPlain(t, id, r).0) && ReadPlain(s, id, r).1 == ReadPlain(t, id, r).1
  {
    hide Ack, ErrorPdu, Served, RecordRead;
    ServedMoves(s, t, r.target, r.property);
    RecordedAlike(s, t, r.target, r.property);
  }

  lemma AnswerReadAlike(s: State, t: State, f: Frame, failure: Option<Failure>)
    requires SameServer(s, t)
    ensures SameServer(AnswerRead(s, f, failure).0, AnswerRead(t, f, failure).0)
    ensures AnswerRead(s, f, failure).1 == AnswerRead(t, f, failure).1
  {
    hide ReadListed, ParseRead, AnswerAsDevice, RequestId;
    var parsed := ParseRead(f.payload);
    if parsed.Ok? {
      ReadListedAlike(s, t, RequestId(f), parsed.value, failure);
    }
  }

  lemma AnswerWriteAlike(s: State, t: State, f: Frame)
    requires SameServer(s, t)
    ensures SameServer(AnswerWrite(s, f).0, AnswerWrite(t, f).0) && AnswerWrite(s, f).1 == AnswerWrite(t, f).1
  {
    hide ParseWrite, Write, RequestId;
    var request := ParseWrite(f.payload);
    if request.Ok? && request.value.Some? {
      var w := request.value.value;
      var s', t' := s.(writeRequests := s.writeRequests + [w]), t.(writeRequests := t.writeRequests + [w]);
      WriteIgnoresRecords(s', t', RequestId(f), w);
      WriteSettings(s', RequestId(f), w);
      WriteSettings(t', RequestId(f), w);
    }
  }

  lemma ProceedAlike(s: State, t: State, f: Frame, failure: Option<Failure>)
    requires SameServer(s, t)
    ensures SameServer(Proceed(s, f, failure).0, Proceed(t, f, failure).0)
    ensures Proceed(s, f, failure).1 == Proceed(t, f, failure).1
  {
    hide IsService, AnswerWrite, AnswerRead, ReadMultiple, AnswerAsDevice;
    ReadMultipleAlike(s, t, f);
    AnswerWriteAlike(s, t, f);
    AnswerReadAlike(s, t, f, failure);
  }

  lemma WriteSettings(s: State, id: byte, w: WriteRequest)
    ensures var t := Write(s, id, w).0;
            t.mode == s.mode && t.failures == s.failures && t.wholeArraysRefused == s.wholeArraysRefused
  {
    hide Command, ApplicationTag, ErrorPdu, SimpleAck, Writable, Served;
    if w.target in s.objects && ApplicationTag(w.value).Ok? {
      CommandSettings(Stored(s, w.target, w.property, w.value), id, w, ApplicationTag(w.value).value == Some(0));
    }
  }

  lemma CommandSettings(s: State, id: byte, w: WriteRequest, isNull: bool)
    requires w.target in s.objects
    ensures var t := Command(s, id, w, isNull).0;
            t.mode == s.mode && t.failures == s.failures && t.wholeArraysRefused == s.wholeArraysRefused
  {
    hide Winner, Priority, SimpleAck;
  }

  lemma AnswerAlike(s: State, t: State, f: Frame)
    requires SameServer(s, t)
    ensures SameServer(Answer(s, f).0, Answer(t, f).0) && Answer(s, f).1 == Answer(t, f).1
  {
    hide Proceed, RequestedObject, Confirmed;
    forall failure
      ensures SameServer(Proceed(s, f, failure).0, Proceed(t, f, failure).0)
      ensures Proceed(s, f, failure).1 == Proceed(t, f, failure).1
    {
      ProceedAlike(s, t, f, failure);
    }
  }

  // ----- a datagram received again

  lemma ProceedAgain(s: State, f: Frame, failure: Option<Failure>)
    requires !Proceed(s, f, failure).1.Raised?
    ensures var (t, reply) := Proceed(s, f, failure);
            && t.mode == s.mode && t.failures == s.failures
            && SameServer(t, Proceed(t, f, failure).0) && Proceed(t, f, failure).1 == reply
  {
    hide IsService, ParseWrite, ParseRead, ReadMultiple, Write, ReadElement, AnswerAsDevice, ReadPropertyAck, ErrorPdu;
    var t := Proceed(s, f, failure).0;
    if IsService(f, WRITE_PROPERTY) {
      var request := ParseWrite(f.payload);
      if request.value.Some? && !s.mode.Offline? {
        var w := request.value.value;
        var s' := s.(writeRequests := s.writeRequests + [w]);
        WriteAgain(s', RequestId(f), w);
        WriteSettings(s', RequestId(f), w);
        var t' := t.(writeRequests := t.writeRequests + [w]);
        WriteIgnoresRecords(t, t', RequestId(f), w);
        WriteSettings(t', RequestId(f), w);
      }
    } else {
      ProceedElse(s, f, failure);
      SettingsStay(s, f, failure);
      hide Proceed;
      ProceedAlike(s, t, f, failure);
    }
  }

  lemma SettingsStay(s: State, f: Frame, failure: Option<Failure>)
    requires !IsService(f, WRITE_PROPERTY)
    ensures var t := Proceed(s, f, failure).0;
            t.mode == s.mode && t.failures == s.failures && t.wholeArraysRefused == s.wholeArraysRefused
  {
    hide IsService, ParseRead, SpecificationsFrom, AnswerMultiple, ReadListed, AnswerAsDevice;
    var parsed := ParseRead(f.payload);
    if parsed.Ok? {
      ReadListedSettings(s, RequestId(f), parsed.value, failure);
    }
  }

  lemma ReadListedSettings(s: State, id: byte, r: ReadRequest, failure: Option<Failure>)
    ensures var t := ReadListed(s, id, r, failure).0;
            t.mode == s.mode && t.failures == s.failures && t.wholeArraysRefused == s.wholeArraysRefused
  {
    hide ReadElement, Ack, ErrorPdu, AbortPdu, Served;
  }

  lemma AnswerAgain(s: State, f: Frame)
    requires !Answer(s, f).1.Raised?
    ensures var (t, reply) := Answer(s, f);
            SameServer(t, Answer(t, f).0) && Answer(t, f).1 == reply
  {
    hide Proceed, RequestedObject, Confirmed;
    forall failure | !Proceed(s, f, failure).1.Raised?
      ensures var (t, reply) := Proceed(s, f, failure);
              && t.mode == s.mode && t.failures == s.failures
              && SameServer(t, Proceed(t, f, failure).0) && Proceed(t, f, failure).1 == reply
    {
      ProceedAgain(s, f, failure);
    }
  }

  lemma ReceiveAgain(s: State, data: Bytes)
    requires !Receive(s, data).1.Died?
    ensures var (t, sent) := Receive(s, data);
            SameServer(t, Receive(t, data).0) && Receive(t, data).1 == sent
  {
    hide Answer, DecodeFrame, Npdu, Wrap;
    var f := RequestIn(data);
    if f.Some? {
      AnswerAgain(s, f.value);
    }
  }

  lemma ReceiveAlike(s: State, t: State, data: Bytes)
    requires SameServer(s, t)
    ensures SameServer(Receive(s, data).0, Receive(t, data).0) && Receive(s, data).1 == Receive(t, data).1
  {
    hide Answer, DecodeFrame, Send;
    var f := RequestIn(data);
    if f.Some? {
      AnswerAlike(s, t, f.value);
    }
  }

  /** The state after `n` copies of the datagram. */
  function Copies(s: State, data: Bytes, n: nat): State {
    if n == 0 then s else Receive(Copies(s, data, n - 1), data).0
  }

  /** However often a datagram is sent again, and whatever it holds: if the server survives the first copy,
      every copy gets the same answer, and the server stays as the first copy left it, but for its records
      of requests. */
  lemma {:induction false} ResendsHarmless(s: State, data: Bytes, n: nat)
    requires !Receive(s, data).1.Died?
    ensures SameServer(Receive(s, data).0, Copies(s, data, n + 1))
    ensures Receive(Copies(s, data, n), data).1 == Receive(s, data).1
  {
    hide Receive;
    if n > 0 {
      ResendsHarmless(s, data, n - 1);
      ReceiveAgain(s, data);
      ReceiveAlike(Receive(s, data).0, Copies(s, data, n), data);
    }
  }
}
