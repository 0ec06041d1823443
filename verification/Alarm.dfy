/** Event notifications (sections 13.8, 13.9 and 21 of ANSI/ASHRAE 135-2024): the out-of-range
    notification a Peer sends, and the decoder of `EventNotification`. */
module Alarm {
  import opened Octets
  import opened Tags
  import opened Nesting
  import opened Layout
  import opened Primitives
  import opened Properties
  import opened Frames

  const CONFIRMED_EVENT_NOTIFICATION: byte := 2
  const UNCONFIRMED_EVENT_NOTIFICATION: byte := 3
  const OUT_OF_RANGE: uint32 := 5
  const ACK_NOTIFICATION: uint32 := 2

  type Quad = b: Bytes | |b| == 4 witness [0, 0, 0, 0]

  /** What `application_date` and `application_time` take. */
  datatype Stamp = Stamp(year: int, month: byte, day: byte, weekday: byte, hour: byte, minute: byte, second: byte)

  predicate Datable(s: Stamp) { 1900 <= s.year < 2156 }

  function DateOctets(s: Stamp): Quad
    requires Datable(s)
  {
    [s.year - 1900, s.month, s.day, s.weekday]
  }

  function TimeOctets(s: Stamp): Quad { [s.hour, s.minute, s.second, 0] }

  /** A REAL is its four octets. */
  datatype Notification = Notification(
    processIdentifier: uint32,
    device: Instance,
    eventObject: ObjectId,
    stamp: Stamp,
    notificationClass: uint32,
    priority: uint32,
    messageText: Option<Bytes>,
    notifyType: uint32,
    ackRequired: bool,
    fromState: uint32,
    toState: uint32,
    exceedingValue: Quad,
    exceededLimit: Quad)

  // ----- encoding

  function DateTime(tag: TagNumber, date: Quad, time: Quad): Bytes {
    Enclosed(tag, Enclosed(2, Brief(10, false, date) + Brief(11, false, time)))
  }

  function ContextReal(tag: TagNumber, value: Quad): (e: Bytes)
    ensures Encodes(e, tag, true, Value, value)
  {
    Brief(tag, true, value)
  }

  function ContextBoolean(tag: TagNumber, value: bool): (e: Bytes)
    ensures Encodes(e, tag, true, Value, [if value then 1 else 0])
  {
    Brief(tag, true, [if value then 1 else 0])
  }

  /** BACnetStatusFlags with in-alarm first. */
  function StatusFlags(tag: TagNumber, inAlarm: bool): (e: Bytes)
    ensures Encodes(e, tag, true, Value, BitStringBody([inAlarm, false, false, false]))
  {
    Brief(tag, true, BitStringBody([inAlarm, false, false, false]))
  }

  function OutOfRangeValues(n: Notification): Bytes {
    ContextReal(0, n.exceedingValue) + StatusFlags(1, n.toState != 0) + ContextReal(2, [0x3F, 0x80, 0, 0]) +
    ContextReal(3, n.exceededLimit)
  }

  function EventValues(n: Notification): Bytes { Enclosed(12, Enclosed(5, OutOfRangeValues(n))) }

  /** What identifies the notification. */
  function Head(n: Notification): Bytes {
    ContextUnsigned(0, n.processIdentifier) + ContextObjectId(1, ObjectId(8, n.device)) +
    ContextObjectId(2, n.eventObject)
  }

  function Middle(n: Notification): Bytes {
    ContextUnsigned(4, n.notificationClass) + ContextUnsigned(5, n.priority) + ContextUnsigned(6, OUT_OF_RANGE)
  }

  /** What the encoder takes without an exception: the year fits its octet, and the message, with its
      character set, the length octet. */
  predicate Sendable(n: Notification) {
    Datable(n.stamp) && (n.messageText.Some? ==> |n.messageText.value| <= 254)
  }

  function Message(n: Notification): Bytes
    requires Sendable(n)
  {
    if n.messageText.Some? then CharacterString(7, true, n.messageText.value).value else []
  }

  function Tail(n: Notification): Bytes {
    if n.notifyType == ACK_NOTIFICATION then ContextUnsigned(11, n.toState)
    else ContextBoolean(9, n.ackRequired) + ContextUnsigned(10, n.fromState) + ContextUnsigned(11, n.toState) +
         EventValues(n)
  }

  function Parameters(n: Notification): Bytes
    requires Sendable(n)
  {
    Front(n) + Message(n) + Rest(n)
  }

  function Front(n: Notification): Bytes
    requires Sendable(n)
  {
    Head(n) + DateTime(3, DateOctets(n.stamp), TimeOctets(n.stamp)) + Middle(n)
  }

  function Rest(n: Notification): Bytes { ContextUnsigned(8, n.notifyType) + Tail(n) }

  /** `event_notification`. */
  function EventNotificationApdu(n: Notification, confirmed: Option<byte>): Bytes
    requires Sendable(n)
  {
    if confirmed.Some? then ConfirmedRequest(confirmed.value, CONFIRMED_EVENT_NOTIFICATION, Parameters(n))
    else [0x10, UNCONFIRMED_EVENT_NOTIFICATION] + Parameters(n)
  }

  // ----- decoding

  datatype Event = Event(
    confirmed: bool,
    invokeId: Option<byte>,
    processIdentifier: Option<nat>,
    initiatingDevice: Option<ObjectId>,
    eventObject: Option<ObjectId>,
    timeStamp: Option<(Bytes, Bytes)>,
    notificationClass: Option<nat>,
    priority: Option<nat>,
    eventType: Option<nat>,
    notifyType: Option<nat>,
    ackRequired: Option<bool>,
    fromState: Option<nat>,
    toState: Option<nat>)

  /** What `EventNotification(frame)` knows before it reads the parameters. */
  function Started(f: Frame): Event {
    var confirmed := PduType(f) == Some(CONFIRMED_REQUEST);
    Unread(confirmed, if confirmed && InvokeId(f).Ok? then InvokeId(f).value else None)
  }

  function Unread(confirmed: bool, invokeId: Option<byte>): Event {
    Event(confirmed, invokeId, None, None, None, None, None, None, None, None, None, None, None)
  }

  predicate IsEventNotification(f: Frame) {
    f.networkMessage.None? &&
    ((PduType(f) == Some(CONFIRMED_REQUEST) && Service(f) == Ok(Some(CONFIRMED_EVENT_NOTIFICATION))) ||
     (PduType(f) == Some(UNCONFIRMED_REQUEST) && Service(f) == Ok(Some(UNCONFIRMED_EVENT_NOTIFICATION))))
  }

  function Field(e: Event, number: byte, body: Bytes): Result<Event> {
    var integer := FromBytes(body);
    if number == 0 then Ok(e.(processIdentifier := Some(integer)))
    else if number == 1 then
      var o :- ObjectIdFrom(body);
      Ok(e.(initiatingDevice := Some(o)))
    else if number == 2 then
      var o :- ObjectIdFrom(body);
      Ok(e.(eventObject := Some(o)))
    else if number == 4 then Ok(e.(notificationClass := Some(integer)))
    else if number == 5 then Ok(e.(priority := Some(integer)))
    else if number == 6 then Ok(e.(eventType := Some(integer)))
    else if number == 8 then Ok(e.(notifyType := Some(integer)))
    else if number == 9 then Ok(e.(ackRequired := Some(integer != 0)))
    else if number == 10 then Ok(e.(fromState := Some(integer)))
    else if number == 11 then Ok(e.(toState := Some(integer)))
    else Ok(e)
  }

  /** `read_time_stamp_choice`: the date and time of the dateTime form, and the position after it. */
  function TimeStampChoice(octets: Bytes, position: nat): (r: Result<(Option<(Bytes, Bytes)>, nat)>)
    ensures r.Ok? ==> position < |octets| && position < r.value.1
  {
    var t :- ReadTag(octets, position);
    if t.kind.Open? && t.number == 2 then
      var date :- ReadTag(octets, t.next);
      var time :- ReadTag(octets, date.next);
      var close :- ReadTag(octets, time.next);
      Ok((Some((date.body, time.body)), close.next))
    else if t.kind.Open? then
      var end :- CloseAt(octets, t.next, 1);
      Ok((None, end.after))
    else Ok((None, t.next))
  }

  function TimeStamp(octets: Bytes, position: nat): (r: Result<(Option<(Bytes, Bytes)>, nat)>)
    ensures r.Ok? ==> position < |octets| && position < r.value.1
  {
    var (stamp, after) :- TimeStampChoice(octets, position);
    var close :- ReadTag(octets, after);
    Ok((stamp, close.next))
  }

  function EventFrom(octets: Bytes, position: nat, e: Event): Result<Event>
    decreases if position < |octets| then |octets| - position else 0
  {
    if position >= |octets| then Ok(e) else
    var t :- ReadTag(octets, position);
    if t.kind.Open? && t.number == 3 then
      var (stamp, after) :- TimeStamp(octets, t.next);
      EventFrom(octets, after, e.(timeStamp := stamp))
    else if t.kind.Open? then
      var end :- CloseAt(octets, t.next, 1);
      EventFrom(octets, end.after, e)
    else if !t.kind.Value? || !t.context then EventFrom(octets, t.next, e)
    else
      var f :- Field(e, t.number, t.body);
      EventFrom(octets, t.next, f)
  }

  /** The service parameters of a notification, confirmed or not. */
  function ParametersOf(f: Frame): Bytes {
    Slice(f.payload, if PduType(f) == Some(CONFIRMED_REQUEST) then 4 else 2, 4 + |f.payload|)
  }

  /** `EventNotification(frame)`. */
  method DecodeEventNotification(f: Frame) returns (r: Result<Event>)
    ensures r == EventFrom(ParametersOf(f), 0, Started(f))
  {
    hide ReadTag, Field, TimeStamp, CloseAt;
    var octets := ParametersOf(f);
    var e, position := Started(f), 0;
    while position < |octets|
      invariant EventFrom(octets, position, e) == EventFrom(octets, 0, Started(f))
      decreases |octets| - position
    {
      var t := ReadTag(octets, position);
      if t.Err? {
        return Err(t.fault);
      }
      var tag := t.value;
      position := tag.next;
      if tag.kind.Open? && tag.number == 3 {
        var stamp := TimeStamp(octets, position);
        if stamp.Err? {
          return Err(stamp.fault);
        }
        e := e.(timeStamp := stamp.value.0);
        position := stamp.value.1;
      } else if tag.kind.Open? {
        var end := ConstructedEnd(octets, position);
        if end.Err? {
          return Err(end.fault);
        }
        position := end.value;
      } else if tag.kind.Value? && tag.context {
        var next := Field(e, tag.number, tag.body);
        if next.Err? {
          return Err(next.fault);
        }
        e := next.value;
      }
    }
    return Ok(e);
  }

  // ----- the round trip

  /** What the receiver is meant to know. An acknowledgement carries no ack-required and no from-state. */
  function Meant(n: Notification, confirmed: Option<byte>): Event
    requires Sendable(n)
  {
    var ack := n.notifyType == ACK_NOTIFICATION;
    Event(confirmed.Some?, confirmed, Some(n.processIdentifier), Some(ObjectId(8, n.device)), Some(n.eventObject),
          Some((DateOctets(n.stamp), TimeOctets(n.stamp))),
          Some(n.notificationClass), Some(n.priority), Some(OUT_OF_RANGE), Some(n.notifyType),
          if ack then None else Some(n.ackRequired), if ack then None else Some(n.fromState), Some(n.toState))
  }

  lemma FieldRead(octets: Bytes, q: nat, x: Bytes, number: byte, body: Bytes, e: Event, f: Event)
    requires At(octets, q, x) && Encodes(x, number, true, Value, body) && Field(e, number, body) == Ok(f)
    ensures EventFrom(octets, q, e) == EventFrom(octets, q + |x|, f)
  {
    hide ReadTag, Field, TimeStamp;
    ReadAt(octets, q, x, number, true, Value, body);
  }

  lemma HeadRead(octets: Bytes, q: nat, n: Notification, e: Event)
    requires At(octets, q, Head(n))
    ensures EventFrom(octets, q, e) ==
            EventFrom(octets, q + |Head(n)|, e.(processIdentifier := Some(n.processIdentifier),
                                               initiatingDevice := Some(ObjectId(8, n.device)),
                                               eventObject := Some(n.eventObject)))
  {
    hide At, Encodes, ReadTag, ContextUnsigned, ContextObjectId, EventFrom, FromBytes, ObjectIdFrom;
    var a, b, c := ContextUnsigned(0, n.processIdentifier), ContextObjectId(1, ObjectId(8, n.device)),
                   ContextObjectId(2, n.eventObject);
    AtSplit(octets, q, a + b, c);
    AtSplit(octets, q, a, b);
    ObjectIdRoundTrip(ObjectId(8, n.device), []);
    ObjectIdRoundTrip(n.eventObject, []);
    var e1 := e.(processIdentifier := Some(n.processIdentifier));
    var e2 := e1.(initiatingDevice := Some(ObjectId(8, n.device)));
    FieldRead(octets, q, a, 0, UnsignedOctets(n.processIdentifier), e, e1);
    FieldRead(octets, q + |a|, b, 1, ObjectIdOctets(ObjectId(8, n.device)), e1, e2);
    FieldRead(octets, q + |a| + |b|, c, 2, ObjectIdOctets(n.eventObject), e2, e2.(eventObject := Some(n.eventObject)));
  }

  lemma MiddleRead(octets: Bytes, q: nat, n: Notification, e: Event)
    requires At(octets, q, Middle(n))
    ensures EventFrom(octets, q, e) ==
            EventFrom(octets, q + |Middle(n)|, e.(notificationClass := Some(n.notificationClass),
                                                 priority := Some(n.priority), eventType := Some(OUT_OF_RANGE)))
  {
    hide At, Encodes, ReadTag, ContextUnsigned, EventFrom, FromBytes;
    var a, b, c := ContextUnsigned(4, n.notificationClass), ContextUnsigned(5, n.priority),
                   ContextUnsigned(6, OUT_OF_RANGE);
    AtSplit(octets, q, a + b, c);
    AtSplit(octets, q, a, b);
    var e1 := e.(notificationClass := Some(n.notificationClass));
    var e2 := e1.(priority := Some(n.priority));
    FieldRead(octets, q, a, 4, UnsignedOctets(n.notificationClass), e, e1);
    FieldRead(octets, q + |a|, b, 5, UnsignedOctets(n.priority), e1, e2);
    FieldRead(octets, q + |a| + |b|, c, 6, UnsignedOctets(OUT_OF_RANGE), e2, e2.(eventType := Some(OUT_OF_RANGE)));
  }

  lemma DateTimeRead(octets: Bytes, q: nat, date: Quad, time: Quad, e: Event)
    requires At(octets, q, DateTime(3, date, time))
    ensures EventFrom(octets, q, e) ==
            EventFrom(octets, q + |DateTime(3, date, time)|, e.(timeStamp := Some((date, time))))
  {
    hide At, Encodes, ReadTag, Brief, Enclosed;
    var a, b := Brief(10, false, date), Brief(11, false, time);
    var inner := Enclosed(2, a + b);
    EnclosedParts(octets, q, 3, inner);
    EnclosedParts(octets, q + 1, 2, a + b);
    EnclosedLength(2, a + b);
    EnclosedLength(3, inner);
    AtSplit(octets, q + 2, a, b);
    ReadAt(octets, q + 2, a, 10, false, Value, date);
    ReadAt(octets, q + 2 + |a|, b, 11, false, Value, time);
  }

  lemma EventValuesBalanced(n: Notification)
    ensures Balanced(Enclosed(5, OutOfRangeValues(n)))
  {
    hide Balanced, Encodes, ReadTag, ContextReal, StatusFlags, Opening, Closing;
    var a, b, c, d := ContextReal(0, n.exceedingValue), StatusFlags(1, n.toState != 0),
                      ContextReal(2, [0x3F, 0x80, 0, 0]), ContextReal(3, n.exceededLimit);
    OneTag(a, 0, true, n.exceedingValue);
    OneTag(b, 1, true, BitStringBody([n.toState != 0, false, false, false]));
    OneTag(c, 2, true, [0x3F, 0x80, 0, 0]);
    OneTag(d, 3, true, n.exceededLimit);
    BalancedConcat(a, b);
    BalancedConcat(a + b, c);
    BalancedConcat(a + b + c, d);
    BalancedGroup(Opening(5), a + b + c + d, Closing(5), 5, 5);
  }

  /** The nested event values are skipped as a whole. */
  lemma EventValuesSkipped(octets: Bytes, q: nat, n: Notification, e: Event)
    requires At(octets, q, EventValues(n))
    ensures EventFrom(octets, q, e) == EventFrom(octets, q + |EventValues(n)|, e)
  {
    hide ReadTag, Enclosed, OutOfRangeValues, CloseAt, Balanced, TimeStamp, Field;
    var inner := Enclosed(5, OutOfRangeValues(n));
    EventValuesBalanced(n);
    EnclosedParts(octets, q, 12, inner);
    EnclosedLength(12, inner);
    WalkIffBalanced(octets, q + 1, inner, 12);
  }

  lemma TailRead(octets: Bytes, q: nat, n: Notification, e: Event)
    requires Sendable(n) && At(octets, q, Tail(n)) && q + |Tail(n)| == |octets|
    requires e.fromState.None? && e.ackRequired.None?
    ensures var ack := n.notifyType == ACK_NOTIFICATION;
            EventFrom(octets, q, e) ==
            Ok(e.(ackRequired := if ack then None else Some(n.ackRequired),
                  fromState := if ack then None else Some(n.fromState), toState := Some(n.toState)))
  {
    hide At, Encodes, ReadTag, ContextUnsigned, ContextBoolean, EventFrom, EventValues, FromBytes;
    var c := ContextUnsigned(11, n.toState);
    if n.notifyType == ACK_NOTIFICATION {
      FieldRead(octets, q, c, 11, UnsignedOctets(n.toState), e, e.(toState := Some(n.toState)));
      EventDone(octets, e.(toState := Some(n.toState)));
    } else {
      var a, b, v := ContextBoolean(9, n.ackRequired), ContextUnsigned(10, n.fromState), EventValues(n);
      AtSplit(octets, q, a + b + c, v);
      AtSplit(octets, q, a + b, c);
      AtSplit(octets, q, a, b);
      BooleanBody(n.ackRequired);
      var e1 := e.(ackRequired := Some(n.ackRequired));
      var e2 := e1.(fromState := Some(n.fromState));
      var e3 := e2.(toState := Some(n.toState));
      FieldRead(octets, q, a, 9, [if n.ackRequired then 1 else 0], e, e1);
      FieldRead(octets, q + |a|, b, 10, UnsignedOctets(n.fromState), e1, e2);
      FieldRead(octets, q + |a| + |b|, c, 11, UnsignedOctets(n.toState), e2, e3);
      EventValuesSkipped(octets, q + |a| + |b| + |c|, n, e3);
      EventDone(octets, e3);
    }
  }

  lemma BooleanBody(b: bool)
    ensures FromBytes([if b then 1 else 0]) == if b then 1 else 0
  {
    assert [if b then 1 else 0][..0] == [];
  }

  lemma EventDone(octets: Bytes, e: Event)
    ensures EventFrom(octets, |octets|, e) == Ok(e)
  {
  }

  /** What is known when the message text comes. */
  function BeforeMessage(n: Notification, confirmed: Option<byte>): Event
    requires Sendable(n)
  {
    Meant(n, confirmed).(notifyType := None, ackRequired := None, fromState := None, toState := None)
  }

  lemma FrontRead(octets: Bytes, n: Notification, confirmed: Option<byte>)
    requires Sendable(n) && At(octets, 0, Front(n))
    ensures EventFrom(octets, 0, Unread(confirmed.Some?, confirmed)) ==
            EventFrom(octets, |Front(n)|, BeforeMessage(n, confirmed))
  {
    hide At, Head, Middle, DateTime, EventFrom;
    var a, b, c := Head(n), DateTime(3, DateOctets(n.stamp), TimeOctets(n.stamp)), Middle(n);
    AtSplit(octets, 0, a + b, c);
    AtSplit(octets, 0, a, b);
    var e0 := Unread(confirmed.Some?, confirmed);
    HeadRead(octets, 0, n, e0);
    var e1 := e0.(processIdentifier := Some(n.processIdentifier),
                  initiatingDevice := Some(ObjectId(8, n.device)), eventObject := Some(n.eventObject));
    DateTimeRead(octets, |a|, DateOctets(n.stamp), TimeOctets(n.stamp), e1);
    MiddleRead(octets, |a| + |b|, n, e1.(timeStamp := Some((DateOctets(n.stamp), TimeOctets(n.stamp)))));
  }

  lemma RestRead(octets: Bytes, q: nat, n: Notification, confirmed: Option<byte>)
    requires Sendable(n) && At(octets, q, Rest(n)) && q + |Rest(n)| == |octets|
    ensures EventFrom(octets, q, BeforeMessage(n, confirmed)) == Ok(Meant(n, confirmed))
  {
    hide At, Encodes, ReadTag, Tail, ContextUnsigned, EventFrom, FromBytes;
    var x, e := ContextUnsigned(8, n.notifyType), BeforeMessage(n, confirmed);
    AtSplit(octets, q, x, Tail(n));
    FieldRead(octets, q, x, 8, UnsignedOctets(n.notifyType), e, e.(notifyType := Some(n.notifyType)));
    TailRead(octets, q + |x|, n, e.(notifyType := Some(n.notifyType)));
  }

  // ----- the message text

  /** How many octets the reader takes for the message. A length octet of 254 or 255 says that the length
      follows in two or four octets, so the character set and the first of the text are taken for it. */
  function Span(n: Notification): nat
    requires Sendable(n)
  {
    if n.messageText.None? || |n.messageText.value| <= 252 then |Message(n)|
    else
      var text := n.messageText.value;
      var a: nat, b: nat, c: nat := text[0], text[1], text[2];
      if |text| == 253 then 4 + a else 6 + 0x1_0000 * a + 0x100 * b + c
  }

  lemma Number16(b: Bytes)
    requires |b| == 2
    ensures FromBytes(b) == b[0] as nat * 0x100 + b[1] as nat
  {
    assert b[..1][..0] == [];
    assert FromBytes(b[..1]) == b[0];
  }

  lemma Number32(b: Bytes)
    requires |b| == 4 && b[0] == 0
    ensures FromBytes(b) == b[1] as nat * 0x1_0000 + b[2] as nat * 0x100 + b[3] as nat
  {
    Number16(b[..2]);
    assert b[..3][..2] == b[..2];
    assert FromBytes(b[..3]) == b[1] as nat * 0x100 + b[2] as nat;
  }

  lemma LongHeader(n: Notification)
    requires Sendable(n) && n.messageText.Some? && |n.messageText.value| > 252
    ensures var text, m := n.messageText.value, Message(n);
            && |m| == 3 + |text| && m[0..2] == [0x7D, 1 + |text|]
            && m[2..4] == [0, text[0]] && m[2..6] == [0, text[0], text[1], text[2]]
  {
    var text, m := n.messageText.value, Message(n);
    assert m == [0x7D, 1 + |text|, 0] + text;
  }

  /** A context tag 7 whose length octet is 254 or 255. */
  lemma LongTag(octets: Bytes, q: nat)
    requires q + 6 <= |octets| && octets[q] == 0x7D && octets[q + 1] >= 254
    ensures var t := ReadTag(octets, q);
            && t.Ok? && t.value.number == 7 && t.value.context && t.value.kind.Value?
            && t.value.next == if octets[q + 1] == 254 then q + 4 + FromBytes(octets[q + 2..q + 4])
                               else q + 6 + FromBytes(octets[q + 2..q + 6])
  {
    hide FromBytes;
  }

  lemma LongMessage(octets: Bytes, q: nat, n: Notification)
    requires Sendable(n) && At(octets, q, Message(n))
    requires n.messageText.Some? && |n.messageText.value| > 252
    ensures var t := ReadTag(octets, q);
            && t.Ok? && t.value.number == 7 && t.value.context && t.value.kind.Value?
            && t.value.next == q + Span(n)
  {
    hide FromBytes, ReadTag, Message;
    var m := Message(n);
    LongHeader(n);
    AtPart(octets, q, m, 0, 2);
    AtPart(octets, q, m, 2, 4);
    AtPart(octets, q, m, 2, 6);
    assert octets[q] == octets[q..q + 2][0] && octets[q + 1] == octets[q..q + 2][1];
    LongTag(octets, q);
    Number16(m[2..4]);
    Number32(m[2..6]);
  }

  lemma MessageRead(octets: Bytes, q: nat, n: Notification, e: Event)
    requires Sendable(n) && At(octets, q, Message(n))
    ensures EventFrom(octets, q, e) == EventFrom(octets, q + Span(n), e)
  {
    hide At, Encodes, ReadTag, FromBytes, CharacterString;
    if n.messageText.Some? {
      if |n.messageText.value| <= 252 {
        FieldRead(octets, q, Message(n), 7, [0] + n.messageText.value, e, e);
      } else {
        LongMessage(octets, q, n);
      }
    }
  }

  lemma ParametersAt(n: Notification)
    requires Sendable(n)
    ensures var octets, q := Parameters(n), |Front(n)|;
            && At(octets, 0, Front(n)) && At(octets, q, Message(n)) && At(octets, q + |Message(n)|, Rest(n))
            && q + |Message(n)| + |Rest(n)| == |octets|
  {
    hide At, Front, Message, Rest;
    var octets := Parameters(n);
    AtTail([], octets);
    assert [] + octets == octets;
    AtSplit(octets, 0, Front(n) + Message(n), Rest(n));
    AtSplit(octets, 0, Front(n), Message(n));
  }

  /** The reading goes on after what is taken for the message. Where that is the end of the message, all
      is recovered; where it is past the end of the octets, nothing after the message is read. */
  lemma ParametersRead(n: Notification, confirmed: Option<byte>)
    requires Sendable(n)
    ensures var r := EventFrom(Parameters(n), 0, Unread(confirmed.Some?, confirmed));
            && r == EventFrom(Parameters(n), |Front(n)| + Span(n), BeforeMessage(n, confirmed))
            && (Span(n) == |Message(n)| ==> r == Ok(Meant(n, confirmed)))
            && (|Front(n)| + Span(n) >= |Parameters(n)| ==> r == Ok(BeforeMessage(n, confirmed)))
  {
    hide At, Front, Message, Rest, Parameters, EventFrom, Span;
    var octets := Parameters(n);
    ParametersAt(n);
    FrontRead(octets, n, confirmed);
    MessageRead(octets, |Front(n)|, n, BeforeMessage(n, confirmed));
    RestRead(octets, |Front(n)| + |Message(n)|, n, confirmed);
    PastEnd(octets, |Front(n)| + Span(n), BeforeMessage(n, confirmed));
  }

  lemma PastEnd(octets: Bytes, q: nat, e: Event)
    ensures q >= |octets| ==> EventFrom(octets, q, e) == Ok(e)
  {
  }

  function DecodedEvent(f: Frame): Result<Event> { EventFrom(ParametersOf(f), 0, Started(f)) }

  lemma FrameParameters(n: Notification, confirmed: Option<byte>, f: Frame)
    requires Sendable(n) && f.networkMessage.None? && f.payload == EventNotificationApdu(n, confirmed)
    ensures IsEventNotification(f)
    ensures DecodedEvent(f) == EventFrom(Parameters(n), 0, Unread(confirmed.Some?, confirmed))
  {
    hide Parameters, EventFrom;
    var apdu, p := f.payload, Parameters(n);
    assert confirmed.Some? ==> apdu[4..] == p && Slice(apdu, 4, 4 + |apdu|) == p;
    assert confirmed.None? ==> apdu[2..] == p && Slice(apdu, 2, 4 + |apdu|) == p;
  }

  /** A frame that carries what `event_notification` encodes is known for a notification. Decoding it
      recovers every field - confirmed or not, with its invoke id; an alarm or an acknowledgement - if there
      is no message text or it has at most 252 octets, and whenever what is taken for the message is the
      message. Otherwise the reading goes on elsewhere, and it recovers nothing after the message if that
      is past the end; in particular for a text of 254 octets that does not begin with a NUL. */
  lemma NotificationRoundTrip(n: Notification, confirmed: Option<byte>, f: Frame)
    requires Sendable(n) && f.networkMessage.None? && f.payload == EventNotificationApdu(n, confirmed)
    ensures IsEventNotification(f)
    ensures n.messageText.None? || |n.messageText.value| <= 252 ==> Span(n) == |Message(n)|
    ensures Span(n) == |Message(n)| ==> DecodedEvent(f) == Ok(Meant(n, confirmed))
    ensures DecodedEvent(f) == EventFrom(Parameters(n), |Front(n)| + Span(n), BeforeMessage(n, confirmed))
    ensures |Front(n)| + Span(n) >= |Parameters(n)| ==> DecodedEvent(f) == Ok(BeforeMessage(n, confirmed))
    ensures n.messageText.Some? && |n.messageText.value| == 254 && n.messageText.value[0] != 0 ==>
              DecodedEvent(f) == Ok(BeforeMessage(n, confirmed)) != Ok(Meant(n, confirmed))
  {
    hide Parameters, EventFrom, Message, Front;
    FrameParameters(n, confirmed, f);
    ParametersRead(n, confirmed);
    ParametersLength(n);
  }

  lemma ParametersLength(n: Notification)
    requires Sendable(n)
    ensures |Parameters(n)| < 1000
  {
    hide Encodes, ReadTag, ContextUnsigned, ContextObjectId, ContextReal, ContextBoolean, StatusFlags, Brief, Enclosed,
         CharacterString, BitStringBody;
    var date, time := DateOctets(n.stamp), TimeOctets(n.stamp);
    var v := OutOfRangeValues(n);
    EnclosedLength(2, Brief(10, false, date) + Brief(11, false, time));
    EnclosedLength(3, Enclosed(2, Brief(10, false, date) + Brief(11, false, time)));
    EnclosedLength(5, v);
    EnclosedLength(12, Enclosed(5, v));
    SmallParts(n);
  }

  lemma SmallParts(n: Notification)
    requires Sendable(n)
    ensures |OutOfRangeValues(n)| < 100 && |Message(n)| < 300
    ensures |ContextBoolean(9, n.ackRequired)| < 10
  {
    hide Encodes, ReadTag;
  }

  /** Between the two, it depends on what the rest of the text reads as. Spaces read as empty primitives,
      which are passed over. */
  lemma SpacesSurvive(n: Notification, confirmed: Option<byte>, f: Frame)
    requires Sendable(n) && f.networkMessage.None? && f.payload == EventNotificationApdu(n, confirmed)
    requires n.messageText == Some(seq(253, _ => 0x20))
    ensures DecodedEvent(f) == Ok(Meant(n, confirmed))
  {
    hide Parameters, EventFrom, Message, Front, Rest, At, Meant, BeforeMessage;
    FrameParameters(n, confirmed, f);
    ParametersRead(n, confirmed);
    ParametersAt(n);
    var octets, q, e := Parameters(n), |Front(n)|, BeforeMessage(n, confirmed);
    TextAt(octets, q, n);
    Passed(octets, q + 36, 0x20, 220, e);
    RestRead(octets, q + 256, n, confirmed);
  }

  /** Letters read as primitives of one octet, of which the last takes the header of the notify type. */
  lemma LettersLost(n: Notification, confirmed: Option<byte>, f: Frame)
    requires Sendable(n) && f.networkMessage.None? && f.payload == EventNotificationApdu(n, confirmed)
    requires n.messageText == Some(seq(253, _ => 0x61)) && n.notifyType == ACK_NOTIFICATION && n.toState < 0x100
    ensures DecodedEvent(f) == Ok(BeforeMessage(n, confirmed)) != Ok(Meant(n, confirmed))
  {
    hide Parameters, EventFrom, Message, Front, Rest, At, Meant, BeforeMessage, DecodedEvent, IsEventNotification,
         EventNotificationApdu;
    FrameParameters(n, confirmed, f);
    ParametersRead(n, confirmed);
    ParametersAt(n);
    NotifyTypeUnknown(n, confirmed);
    var octets, q, e := Parameters(n), |Front(n)|, BeforeMessage(n, confirmed);
    TextAt(octets, q, n);
    assert Span(n) == 101;
    AcknowledgementRest(octets, q + 256, n);
    LettersPassed(octets, q + 101, e);
  }

  lemma TextAt(octets: Bytes, q: nat, n: Notification)
    requires Sendable(n) && At(octets, q, Message(n)) && n.messageText.Some? && |n.messageText.value| == 253
    ensures |Message(n)| == 256 && q + 256 <= |octets|
    ensures forall i | q + 3 <= i < q + 256 :: octets[i] == n.messageText.value[i - q - 3]
  {
    var text, m := n.messageText.value, Message(n);
    assert m == [0x7D, 254, 0] + text;
    forall i | q + 3 <= i < q + 256
      ensures octets[i] == text[i - q - 3]
    {
      assert octets[q..q + 256][i - q] == m[i - q];
    }
  }

  /** A short application primitive, BOOLEAN apart, is passed over. */
  lemma ApplicationPassed(octets: Bytes, q: nat, e: Event)
    requires q < |octets| && octets[q] / 16 !in {1, 15} && octets[q] / 8 % 2 == 0 && octets[q] % 8 < 5
    ensures EventFrom(octets, q, e) == EventFrom(octets, q + 1 + octets[q] % 8, e)
  {
    assert ReadTag(octets, q).Ok? && !ReadTag(octets, q).value.context && ReadTag(octets, q).value.kind.Value?;
    assert ReadTag(octets, q).value.next == q + 1 + octets[q] % 8;
    hide ReadTag, Field, TimeStamp, CloseAt;
  }

  /** A run of `n` such primitives with the same first octet, which fills them. */
  lemma {:induction false} Passed(octets: Bytes, q: nat, first: byte, n: nat, e: Event)
    requires first in {0x20, 0x61} && q + n * (1 + first % 8) <= |octets|
    requires forall i | q <= i < q + n * (1 + first % 8) :: octets[i] == first
    ensures EventFrom(octets, q, e) == EventFrom(octets, q + n * (1 + first % 8), e)
    decreases n
  {
    hide EventFrom;
    if n > 0 {
      assert n * (1 + first % 8) == 1 + first % 8 + (n - 1) * (1 + first % 8);
      assert octets[q] == first;
      ApplicationPassed(octets, q, e);
      Passed(octets, q + 1 + first % 8, first, n - 1, e);
    }
  }

  lemma NotifyTypeUnknown(n: Notification, confirmed: Option<byte>)
    requires Sendable(n)
    ensures BeforeMessage(n, confirmed) != Meant(n, confirmed)
  {
  }

  lemma LettersPassed(octets: Bytes, q: nat, e: Event)
    requires |octets| == q + 159 && octets[q + 156] == 2 && forall i | q <= i < q + 155 :: octets[i] == 0x61
    ensures EventFrom(octets, q, e) == Ok(e)
  {
    hide EventFrom;
    Passed(octets, q, 0x61, 77, e);
    ApplicationPassed(octets, q + 154, e);
    ApplicationPassed(octets, q + 156, e);
    EventDone(octets, e);
  }

  lemma AcknowledgementRest(octets: Bytes, q: nat, n: Notification)
    requires At(octets, q, Rest(n)) && q + |Rest(n)| == |octets|
    requires n.notifyType == ACK_NOTIFICATION && n.toState < 0x100
    ensures |octets| == q + 4 && octets[q + 1] == 2
  {
    hide Encodes, ReadTag, ContextUnsigned;
    OneOctet(8, 2);
    OneOctet(11, n.toState);
    assert Rest(n) == ContextUnsigned(8, 2) + ContextUnsigned(11, n.toState);
    assert octets[q..q + 4][1] == Rest(n)[1] == 2;
  }

  lemma OneOctet(tag: TagNumber, value: uint32)
    requires value < 0x100
    ensures |ContextUnsigned(tag, value)| == 2 && ContextUnsigned(tag, value)[1] == value
  {
    hide Encodes, ReadTag;
  }

  // ----- the notification on the wire

  /** Process identifier [0], device [1], object [2], date and time inside [3] and [2], class [4],
      priority [5] and event type [6], which is out-of-range. */
  function FrontPieces(n: Notification): seq<Piece>
    requires Datable(n.stamp)
  {
    var t := n.stamp;
    HeadPieces(n) +
    Grouped(3, Grouped(2, [Application(10, [t.year - 1900, t.month, t.day, t.weekday]),
                           Application(11, [t.hour, t.minute, t.second, 0])])) +
    MiddlePieces(n)
  }

  function HeadPieces(n: Notification): seq<Piece> {
    [Context(0, UnsignedOctets(n.processIdentifier)), Context(1, ObjectIdOctets(ObjectId(8, n.device))),
     Context(2, ObjectIdOctets(n.eventObject))]
  }

  function MiddlePieces(n: Notification): seq<Piece> {
    [Context(4, UnsignedOctets(n.notificationClass)), Context(5, UnsignedOctets(n.priority)),
     Context(6, UnsignedOctets(5))]
  }

  /** The value [0], the status flags [1] with in-alarm exactly unless the new state is NORMAL, the deadband
      [2] of 1.0 and the limit [3]. */
  function OutOfRangePieces(n: Notification): seq<Piece> {
    [Context(0, n.exceedingValue), Context(1, [4, if n.toState == 0 then 0 else 0x80]),
     Context(2, [0x3F, 0x80, 0, 0]), Context(3, n.exceededLimit)]
  }

  /** Notify type [8]; unless it is an acknowledgement ack-required [9] and from-state [10]; to-state [11];
      and unless it is an acknowledgement the event values, inside [12] and the choice [5]. */
  function RestPieces(n: Notification): seq<Piece> {
    [Context(8, UnsignedOctets(n.notifyType))] +
    (if n.notifyType == 2 then [Context(11, UnsignedOctets(n.toState))]
     else [Context(9, [if n.ackRequired then 1 else 0]), Context(10, UnsignedOctets(n.fromState)),
           Context(11, UnsignedOctets(n.toState))] + Grouped(12, Grouped(5, OutOfRangePieces(n))))
  }

  lemma HeadLays(n: Notification)
    ensures Lays(Head(n), HeadPieces(n))
  {
    hide Lays, ContextUnsigned, ContextObjectId, UnsignedOctets, ObjectIdOctets;
    LaysContextUnsigned(0, n.processIdentifier);
    LaysContextObjectId(1, ObjectId(8, n.device));
    LaysContextObjectId(2, n.eventObject);
    LaysThree(ContextUnsigned(0, n.processIdentifier), Context(0, UnsignedOctets(n.processIdentifier)),
             ContextObjectId(1, ObjectId(8, n.device)), Context(1, ObjectIdOctets(ObjectId(8, n.device))),
             ContextObjectId(2, n.eventObject), Context(2, ObjectIdOctets(n.eventObject)));
  }

  lemma MiddleLays(n: Notification)
    ensures Lays(Middle(n), MiddlePieces(n))
  {
    hide Lays, ContextUnsigned, UnsignedOctets;
    LaysContextUnsigned(4, n.notificationClass);
    LaysContextUnsigned(5, n.priority);
    LaysContextUnsigned(6, 5);
    LaysThree(ContextUnsigned(4, n.notificationClass), Context(4, UnsignedOctets(n.notificationClass)),
             ContextUnsigned(5, n.priority), Context(5, UnsignedOctets(n.priority)),
             ContextUnsigned(6, 5), Context(6, UnsignedOctets(5)));
  }

  lemma DateTimeLays(date: Quad, time: Quad)
    ensures Lays(DateTime(3, date, time), Grouped(3, Grouped(2, [Application(10, date), Application(11, time)])))
  {
    hide Lays, Brief, Enclosed, Grouped;
    var p, q := Application(10, date), Application(11, time);
    LaysBrief(10, false, date);
    LaysBrief(11, false, time);
    LaysBoth(Brief(10, false, date), [p], Brief(11, false, time), [q]);
    assert [p] + [q] == [p, q];
    LaysGroup(2, Brief(10, false, date) + Brief(11, false, time), [p, q]);
    LaysGroup(3, Enclosed(2, Brief(10, false, date) + Brief(11, false, time)), Grouped(2, [p, q]));
  }

  lemma FrontLays(n: Notification)
    requires Sendable(n)
    ensures Lays(Front(n), FrontPieces(n))
  {
    hide Lays, Head, HeadPieces, Middle, MiddlePieces, DateTime, Grouped;
    HeadLays(n);
    MiddleLays(n);
    var date, time := DateOctets(n.stamp), TimeOctets(n.stamp);
    DateTimeLays(date, time);
    var stamp := Grouped(3, Grouped(2, [Application(10, date), Application(11, time)]));
    LaysBoth(Head(n), HeadPieces(n), DateTime(3, date, time), stamp);
    LaysBoth(Head(n) + DateTime(3, date, time), HeadPieces(n) + stamp, Middle(n), MiddlePieces(n));
  }

  lemma FlagsBody(inAlarm: bool)
    ensures BitStringBody([inAlarm, false, false, false]) == [4, if inAlarm then 0x80 else 0]
  {
    var bits := [inAlarm, false, false, false];
    assert PackedFrom(bits, 8) == [];
    assert PackedFrom(bits, 0) == [OctetOf(bits, 0)];
  }

  lemma OutOfRangeLays(n: Notification)
    ensures Lays(OutOfRangeValues(n), OutOfRangePieces(n))
  {
    hide Lays, Encodes, ContextReal, StatusFlags;
    var a, b, c, d := ContextReal(0, n.exceedingValue), StatusFlags(1, n.toState != 0),
                      ContextReal(2, [0x3F, 0x80, 0, 0]), ContextReal(3, n.exceededLimit);
    var ps := OutOfRangePieces(n);
    FlagsBody(n.toState != 0);
    LaysOne(a, 0, true, Value, n.exceedingValue);
    LaysOne(b, 1, true, Value, BitStringBody([n.toState != 0, false, false, false]));
    LaysOne(c, 2, true, Value, [0x3F, 0x80, 0, 0]);
    LaysOne(d, 3, true, Value, n.exceededLimit);
    LaysThree(a, ps[0], b, ps[1], c, ps[2]);
    LaysBoth(a + b + c, [ps[0], ps[1], ps[2]], d, [ps[3]]);
    assert [ps[0], ps[1], ps[2]] + [ps[3]] == ps;
  }

  lemma TailLays(n: Notification)
    requires n.notifyType != 2
    ensures Lays(Tail(n), [Context(9, [if n.ackRequired then 1 else 0]), Context(10, UnsignedOctets(n.fromState)),
                           Context(11, UnsignedOctets(n.toState))] + Grouped(12, Grouped(5, OutOfRangePieces(n))))
  {
    hide Lays, Encodes, ContextUnsigned, ContextBoolean, UnsignedOctets, Enclosed, Grouped, OutOfRangeValues,
         OutOfRangePieces;
    var a, b, c := ContextBoolean(9, n.ackRequired), ContextUnsigned(10, n.fromState), ContextUnsigned(11, n.toState);
    var p, q, r := Context(9, [if n.ackRequired then 1 else 0]), Context(10, UnsignedOctets(n.fromState)),
                   Context(11, UnsignedOctets(n.toState));
    LaysOne(a, 9, true, Value, [if n.ackRequired then 1 else 0]);
    LaysContextUnsigned(10, n.fromState);
    LaysContextUnsigned(11, n.toState);
    LaysThree(a, p, b, q, c, r);
    OutOfRangeLays(n);
    LaysGroup(5, OutOfRangeValues(n), OutOfRangePieces(n));
    LaysGroup(12, Enclosed(5, OutOfRangeValues(n)), Grouped(5, OutOfRangePieces(n)));
    LaysBoth(a + b + c, [p, q, r], EventValues(n), Grouped(12, Grouped(5, OutOfRangePieces(n))));
  }

  lemma RestLays(n: Notification)
    ensures Lays(Rest(n), RestPieces(n))
  {
    hide Lays, ContextUnsigned, UnsignedOctets, OutOfRangePieces, Grouped, EventValues, ContextBoolean;
    var x, p := ContextUnsigned(8, n.notifyType), Context(8, UnsignedOctets(n.notifyType));
    LaysContextUnsigned(8, n.notifyType);
    if n.notifyType == 2 {
      LaysContextUnsigned(11, n.toState);
      LaysBoth(x, [p], Tail(n), [Context(11, UnsignedOctets(n.toState))]);
    } else {
      TailLays(n);
      LaysBoth(x, [p], Tail(n), [Context(9, [if n.ackRequired then 1 else 0]),
                                 Context(10, UnsignedOctets(n.fromState)), Context(11, UnsignedOctets(n.toState))] +
                                Grouped(12, Grouped(5, OutOfRangePieces(n))));
    }
  }

  function MessagePieces(n: Notification): seq<Piece> {
    if n.messageText.Some? then [Context(7, [0] + n.messageText.value)] else []
  }

  /** Every field with its number and in its place. A text of more than 252 octets stands where it should
      too, but behind a length octet that says otherwise. */
  ghost predicate LaidOut(parameters: Bytes, n: Notification)
    requires Sendable(n)
  {
    if n.messageText.None? || |n.messageText.value| <= 252 then
      Lays(parameters, FrontPieces(n) + MessagePieces(n) + RestPieces(n))
    else
      var text := n.messageText.value;
      var message: Bytes := [0x7D, 1 + |text|, 0] + text;
      exists front: Bytes, rest: Bytes ::
        Lays(front, FrontPieces(n)) && Lays(rest, RestPieces(n)) && parameters == front + message + rest
  }

  lemma ParametersLayout(n: Notification)
    requires Sendable(n)
    ensures LaidOut(Parameters(n), n)
  {
    hide Lays, Front, FrontPieces, Rest, RestPieces, Message, Encodes;
    FrontLays(n);
    RestLays(n);
    if n.messageText.None? || |n.messageText.value| <= 252 {
      MessageLays(n);
      LaysBoth(Front(n), FrontPieces(n), Message(n), MessagePieces(n));
      LaysBoth(Front(n) + Message(n), FrontPieces(n) + MessagePieces(n), Rest(n), RestPieces(n));
    } else {
      LongIs(n);
    }
  }

  lemma MessageLays(n: Notification)
    requires Sendable(n) && (n.messageText.None? || |n.messageText.value| <= 252)
    ensures Lays(Message(n), MessagePieces(n))
  {
    hide Lays, Encodes, CharacterString;
    LaysNothing();
    if n.messageText.Some? {
      LaysOne(Message(n), 7, true, Value, [0] + n.messageText.value);
    }
  }

  /** What stands on the wire: the header of the service, confirmed or not, and the fields, tag by tag. */
  lemma NotificationLayout(n: Notification, confirmed: Option<byte>)
    requires Sendable(n)
    ensures var apdu := EventNotificationApdu(n, confirmed);
            match confirmed
            case Some(id) => |apdu| >= 4 && apdu[..4] == [0x00, 0x05, id, 2] && LaidOut(apdu[4..], n)
            case None => |apdu| >= 2 && apdu[..2] == [0x10, 3] && LaidOut(apdu[2..], n)
  {
    hide LaidOut, Parameters;
    ParametersLayout(n);
    var apdu := EventNotificationApdu(n, confirmed);
    assert apdu[if confirmed.Some? then 4 else 2..] == Parameters(n);
  }

  lemma LongIs(n: Notification)
    requires Sendable(n) && n.messageText.Some? && |n.messageText.value| > 252
    ensures Message(n) == [0x7D, 1 + |n.messageText.value|, 0] + n.messageText.value
  {
    hide Encodes, ReadTag;
  }

  // ----- the other forms of a time stamp

  /** A time of day or a sequence number, one primitive inside [3], is no date and time: the stamp is None,
      and the reading goes on after [3]. */
  lemma SimpleStampRead(octets: Bytes, q: nat, x: Bytes, number: byte, body: Bytes, e: Event)
    requires Encodes(x, number, true, Value, body) && At(octets, q, Enclosed(3, x))
    ensures EventFrom(octets, q, e) == EventFrom(octets, q + 2 + |x|, e.(timeStamp := None))
  {
    hide At, Encodes, ReadTag, Enclosed;
    EnclosedParts(octets, q, 3, x);
    ReadAt(octets, q + 1, x, number, true, Value, body);
  }

  /** Without the tag that closes [3] the reading raises. */
  lemma StampCutOff(x: Bytes, number: byte, body: Bytes, e: Event)
    requires Encodes(x, number, true, Value, body)
    ensures EventFrom(Opening(3) + x, 0, e) == Err(Short)
  {
    hide At, Encodes, ReadTag, Opening;
    var octets := Opening(3) + x;
    AtTail(Opening(3), x);
    AtTail([], octets);
    assert [] + octets == octets;
    AtSplit(octets, 0, Opening(3), x);
    ReadAt(octets, 0, Opening(3), 3, true, Open, []);
    ReadAt(octets, 1, x, number, true, Value, body);
    BeyondEnd(octets);
  }

  lemma BeyondEnd(octets: Bytes)
    ensures ReadTag(octets, |octets|) == Err(Short)
  {
  }

  /** So is any other group inside [3], whatever it holds. */
  lemma GroupStampRead(octets: Bytes, q: nat, tag: TagNumber, v: Bytes, e: Event)
    requires tag != 2 && Balanced(v) && At(octets, q, Enclosed(3, Enclosed(tag, v)))
    ensures EventFrom(octets, q, e) == EventFrom(octets, q + 4 + |v|, e.(timeStamp := None))
  {
    hide At, ReadTag, Enclosed, Balanced, CloseAt;
    EnclosedParts(octets, q, 3, Enclosed(tag, v));
    EnclosedLength(tag, v);
    EnclosedParts(octets, q + 1, tag, v);
    Walks(octets, q + 2, v, tag);
  }

  /** Application tags, closing tags, and groups other than the time stamp, are passed over. */
  lemma OthersPassed(octets: Bytes, q: nat, x: Bytes, number: byte, body: Bytes, tag: TagNumber, v: Bytes, e: Event)
    requires tag != 3 && Balanced(v)
    ensures Encodes(x, number, false, Value, body) && At(octets, q, x) ==>
              EventFrom(octets, q, e) == EventFrom(octets, q + |x|, e)
    ensures At(octets, q, Enclosed(tag, v)) ==> EventFrom(octets, q, e) == EventFrom(octets, q + 2 + |v|, e)
    ensures Encodes(x, number, true, Close, []) && At(octets, q, x) ==>
              EventFrom(octets, q, e) == EventFrom(octets, q + |x|, e)
  {
    hide At, Encodes, ReadTag, Enclosed, Balanced, CloseAt, Field;
    if Encodes(x, number, false, Value, body) && At(octets, q, x) {
      ReadAt(octets, q, x, number, false, Value, body);
    }
    if Encodes(x, number, true, Close, []) && At(octets, q, x) {
      ReadAt(octets, q, x, number, true, Close, []);
    }
    if At(octets, q, Enclosed(tag, v)) {
      EnclosedParts(octets, q, tag, v);
      Walks(octets, q + 1, v, tag);
    }
  }
}
