/** ReadProperty, WriteProperty and Error APDUs (sections 15.5, 15.9 and 20.1 of ANSI/ASHRAE 135-2024). */
module Properties {
  import opened Octets
  import opened Tags
  import opened Nesting
  import opened Layout

  const READ_PROPERTY: byte := 12
  const READ_PROPERTY_MULTIPLE: byte := 14
  const WRITE_PROPERTY: byte := 15

  /** What a parser that gives up on missing octets returns: None for those, and other exceptions pass. */
  function Caught<T>(r: Result<T>): Result<Option<T>> {
    match r
    case Ok(v) => Ok(Some(v))
    case Err(Short) => Ok(None)
    case Err(Invalid) => Err(Invalid)
  }

  function ConfirmedRequest(invokeId: byte, service: byte, parameters: Bytes): Bytes {
    [0x00, 0x05, invokeId, service] + parameters
  }

  function OptionalUnsigned(tag: TagNumber, value: Option<uint32>): Bytes {
    if value.Some? then ContextUnsigned(tag, value.value) else []
  }

  /** The parameters ReadProperty and WriteProperty begin with. */
  function Reference(o: ObjectId, property: uint32, index: Option<uint32>): Bytes {
    ContextObjectId(0, o) + ContextUnsigned(1, property) + OptionalUnsigned(2, index)
  }

  /** Reading the object identifier and the property identifier at `position`:
      the two and the position after them. */
  function ReadReference(apdu: Bytes, position: nat): Result<(ObjectId, nat, nat)> {
    var t :- ReadTag(apdu, position);
    var o :- ObjectIdFrom(t.body);
    var u :- ReadTag(apdu, t.next);
    Ok((o, FromBytes(u.body), u.next))
  }

  lemma ReferenceReads(apdu: Bytes, q: nat, o: ObjectId, property: uint32, index: Option<uint32>)
    requires At(apdu, q, Reference(o, property, index))
    ensures var after := q + |ContextObjectId(0, o)| + |ContextUnsigned(1, property)|;
            && ReadReference(apdu, q) == Ok((o, property, after))
            && At(apdu, after, OptionalUnsigned(2, index))
            && after + |OptionalUnsigned(2, index)| == q + |Reference(o, property, index)|
  {
    hide At, Encodes, ReadTag, ContextObjectId, ContextUnsigned, FromBytes, ObjectIdFrom;
    var a, b := ContextObjectId(0, o), ContextUnsigned(1, property);
    AtSplit(apdu, q, a + b, OptionalUnsigned(2, index));
    AtSplit(apdu, q, a, b);
    ReadAt(apdu, q, a, 0, true, Value, ObjectIdOctets(o));
    ObjectIdRoundTrip(o, []);
    ReadAt(apdu, q + |a|, b, 1, true, Value, UnsignedOctets(property));
  }

  function OptionalPiece(number: byte, value: Option<uint32>): seq<Piece> {
    if value.Some? then [Context(number, UnsignedOctets(value.value))] else []
  }

  /** Object [0], property [1] and, if there is one, index [2]. */
  function ReferencePieces(o: ObjectId, property: uint32, index: Option<uint32>): seq<Piece> {
    [Context(0, ObjectIdOctets(o)), Context(1, UnsignedOctets(property))] + OptionalPiece(2, index)
  }

  lemma OptionalLays(tag: TagNumber, value: Option<uint32>)
    ensures Lays(OptionalUnsigned(tag, value), OptionalPiece(tag, value))
  {
    hide Lays, ContextUnsigned;
    LaysNothing();
    if value.Some? {
      LaysContextUnsigned(tag, value.value);
    }
  }

  lemma ReferenceLays(o: ObjectId, property: uint32, index: Option<uint32>)
    ensures Lays(Reference(o, property, index), ReferencePieces(o, property, index))
  {
    hide Lays, ContextObjectId, ContextUnsigned, OptionalUnsigned, OptionalPiece, Context, ObjectIdOctets,
         UnsignedOctets;
    var a, b := ContextObjectId(0, o), ContextUnsigned(1, property);
    var p, q := Context(0, ObjectIdOctets(o)), Context(1, UnsignedOctets(property));
    LaysContextObjectId(0, o);
    LaysContextUnsigned(1, property);
    OptionalLays(2, index);
    LaysBoth(a, [p], b, [q]);
    assert [p] + [q] == [p, q];
    LaysBoth(a + b, [p, q], OptionalUnsigned(2, index), OptionalPiece(2, index));
  }

  /** The four octets every confirmed request begins with: unsegmented, any number of segments and 1476
      octets accepted, the invoke id and the service. */
  ghost predicate RequestLays(apdu: Bytes, invokeId: byte, service: byte, pieces: seq<Piece>) {
    |apdu| >= 4 && apdu[..4] == [0x00, 0x05, invokeId, service] && Lays(apdu[4..], pieces)
  }

  /** The three octets every ComplexACK and Error begins with. */
  ghost predicate ResponseLays(apdu: Bytes, first: byte, invokeId: byte, service: byte, pieces: seq<Piece>) {
    |apdu| >= 3 && apdu[..3] == [first, invokeId, service] && Lays(apdu[3..], pieces)
  }

  // ----- ReadProperty

  function ReadPropertyRequest(invokeId: byte, o: ObjectId, property: uint32, index: Option<uint32>): Bytes {
    ConfirmedRequest(invokeId, READ_PROPERTY, Reference(o, property, index))
  }

  datatype ReadRequest = ReadRequest(target: ObjectId, property: nat, index: Option<nat>)

  /** The object, property and index named from `start` on. */
  function NamedAt(apdu: Bytes, start: nat): Result<ReadRequest> {
    var (o, property, position) :- ReadReference(apdu, start);
    if position >= |apdu| then Ok(ReadRequest(o, property, None)) else
    var t :- ReadTag(apdu, position);
    Ok(ReadRequest(o, property,
                   if t.context && t.number == 2 && t.kind.Value? then Some(FromBytes(t.body)) else None))
  }

  /** `parse_read_property_request` with `with_array_index`. */
  function ParseRead(apdu: Bytes): Result<ReadRequest> { NamedAt(apdu, 4) }

  function Natural(index: Option<uint32>): Option<nat> {
    if index.Some? then Some(index.value) else None
  }

  lemma ReadRequestRoundTrip(invokeId: byte, o: ObjectId, property: uint32, index: Option<uint32>)
    ensures ParseRead(ReadPropertyRequest(invokeId, o, property, index)) ==
            Ok(ReadRequest(o, property, Natural(index)))
    ensures var r := ReadReference(ReadPropertyRequest(invokeId, o, property, index), 4); r.Ok? && r.value.0 == o
  {
    hide At, Encodes, ReadTag, ContextObjectId, ContextUnsigned, FromBytes, ReadReference;
    var apdu := ReadPropertyRequest(invokeId, o, property, index);
    var rest := OptionalUnsigned(2, index);
    AtTail([0x00, 0x05, invokeId, READ_PROPERTY], Reference(o, property, index));
    ReferenceReads(apdu, 4, o, property, index);
    if index.Some? {
      ReadAt(apdu, |apdu| - |rest|, rest, 2, true, Value, UnsignedOctets(index.value));
    }
  }

  /** A tag behind the property that is not a context primitive [2] is no index. */
  lemma TrailingIgnored(invokeId: byte, o: ObjectId, property: uint32, x: Bytes, number: byte, context: bool, kind: Kind,
                        body: Bytes)
    requires Encodes(x, number, context, kind, body) && !(context && number == 2 && kind == Value)
    ensures ParseRead(ReadPropertyRequest(invokeId, o, property, None) + x) == Ok(ReadRequest(o, property, None))
  {
    hide At, Encodes, ReadTag, FromBytes, ReadReference, Reference;
    var r := Reference(o, property, None);
    var head := [0x00, 0x05, invokeId, READ_PROPERTY];
    var apdu := ReadPropertyRequest(invokeId, o, property, None) + x;
    assert apdu == head + (r + x);
    AtTail(head, r + x);
    AtSplit(apdu, 4, r, x);
    ReferenceReads(apdu, 4, o, property, None);
    ReadAt(apdu, 4 + |r|, x, number, context, kind, body);
  }

  /** On the wire: the header and the reference, tag by tag. */
  lemma ReadRequestLayout(invokeId: byte, o: ObjectId, property: uint32, index: Option<uint32>)
    ensures RequestLays(ReadPropertyRequest(invokeId, o, property, index), invokeId, 12,
                        ReferencePieces(o, property, index))
  {
    hide Lays, Reference, ReferencePieces;
    ReferenceLays(o, property, index);
    assert ReadPropertyRequest(invokeId, o, property, index)[4..] == Reference(o, property, index);
  }

  /** The ComplexACK, with the array index an element read carries. */
  function ReadPropertyAck(invokeId: byte, o: ObjectId, property: uint32, index: Option<uint32>, value: Bytes): Bytes {
    [0x30, invokeId, READ_PROPERTY] + (Reference(o, property, index) + Enclosed(3, value))
  }

  /** The value inside the first [3] opening tag from `position` on. */
  function ValueFrom(apdu: Bytes, position: nat): Result<Option<Bytes>>
    decreases if position < |apdu| then |apdu| - position else 0
  {
    if position >= |apdu| then Ok(None) else
    var t :- ReadTag(apdu, position);
    if t.context && t.number == 3 && t.kind.Open? then
      var end :- CloseAt(apdu, t.next, 1);
      Ok(Some(apdu[t.next..end.start]))
    else ValueFrom(apdu, t.next)
  }

  /** `read_property_value`. */
  method ReadPropertyValue(apdu: Bytes) returns (r: Result<Option<Bytes>>)
    ensures r == ValueFrom(apdu, 3)
  {
    hide ReadTag;
    var position := 3;
    while position < |apdu|
      invariant ValueFrom(apdu, position) == ValueFrom(apdu, 3)
    {
      var t := ReadTag(apdu, position);
      if t.Err? {
        return Err(t.fault);
      }
      position := t.value.next;
      if t.value.context && t.value.number == 3 && t.value.kind.Open? {
        var depth, start := 1, position;
        while depth != 0
          invariant depth > 0 && start <= position
          invariant CloseAt(apdu, position, depth) == CloseAt(apdu, start, 1)
          decreases if position < |apdu| then |apdu| - position else 0
        {
          var tagStart := position;
          var u := ReadTag(apdu, position);
          if u.Err? {
            return Err(u.fault);
          }
          position := u.value.next;
          if u.value.kind.Open? {
            depth := depth + 1;
          } else if u.value.kind.Close? {
            depth := depth - 1;
            if depth == 0 {
              return Ok(Some(apdu[start..tagStart]));
            }
          }
        }
      }
    }
    return Ok(None);
  }

  /** A tag that is not the value's opening tag is passed over. */
  lemma PassesOver(apdu: Bytes, q: nat, e: Bytes, number: byte, body: Bytes)
    requires At(apdu, q, e) && Encodes(e, number, true, Value, body)
    ensures ValueFrom(apdu, q) == ValueFrom(apdu, q + |e|)
  {
    hide At, Encodes, ReadTag;
    ReadAt(apdu, q, e, number, true, Value, body);
  }

  /** The walk finds exactly `value` only if it is balanced. */
  lemma Walks(apdu: Bytes, q: nat, value: Bytes, tag: TagNumber)
    requires At(apdu, q, value) && At(apdu, q + |value|, Closing(tag))
    ensures var r := CloseAt(apdu, q, 1);
            (r.Ok? && apdu[q..r.value.start] == value <==> Balanced(value)) &&
            (Balanced(value) ==> r == Ok(End(q + |value|, q + |value| + 1)))
  {
    hide Encodes, ReadTag, Balanced;
    AtSplit(apdu, q, value, Closing(tag));
    WalkIffBalanced(apdu, q, value, tag);
    var r := CloseAt(apdu, q, 1);
    if r.Ok? && apdu[q..r.value.start] == value {
      assert r.value.start == q + |value|;
      ReadAt(apdu, q + |value|, Closing(tag), tag, true, Close, []);
      ClosesThere(apdu, q, 1, r.value);
    }
  }

  lemma {:induction false} ClosesThere(apdu: Bytes, position: nat, depth: nat, end: End)
    requires depth > 0 && CloseAt(apdu, position, depth) == Ok(end)
    ensures ReadTag(apdu, end.start).Ok? && ReadTag(apdu, end.start).value.next == end.after
    decreases |apdu| - position
  {
    hide ReadTag;
    if position < end.start {
      var t := ReadTag(apdu, position).value;
      ClosesThere(apdu, t.next,
                  if t.kind.Open? then depth + 1 else if t.kind.Close? then depth - 1 else depth, end);
    }
  }

  /** `read_property_value` recovers what `read_property_ack` wrapped, exactly for balanced values. */
  lemma ReadAckRoundTrip(invokeId: byte, o: ObjectId, property: uint32, index: Option<uint32>, value: Bytes)
    ensures ValueFrom(ReadPropertyAck(invokeId, o, property, index, value), 3) == Ok(Some(value)) <==> Balanced(value)
    ensures NamedAt(ReadPropertyAck(invokeId, o, property, index, value), 3) ==
            Ok(ReadRequest(o, property, Natural(index)))
  {
    hide At, Reference, Enclosed, Balanced, ValueFrom, NamedAt;
    var apdu := ReadPropertyAck(invokeId, o, property, index, value);
    var r := Reference(o, property, index);
    AtTail([0x30, invokeId, READ_PROPERTY], r + Enclosed(3, value));
    AtSplit(apdu, 3, r, Enclosed(3, value));
    ReferencePassed(apdu, 3, o, property, index);
    OpenedValue(apdu, 3 + |r|, value);
    AckNamed(apdu, o, property, index, value);
  }

  lemma AckNamed(apdu: Bytes, o: ObjectId, property: uint32, index: Option<uint32>, value: Bytes)
    requires At(apdu, 3, Reference(o, property, index))
    requires At(apdu, 3 + |Reference(o, property, index)|, Enclosed(3, value))
    ensures NamedAt(apdu, 3) == Ok(ReadRequest(o, property, Natural(index)))
  {
    hide At, Encodes, ReadTag, ContextObjectId, ContextUnsigned, FromBytes, ReadReference, Reference, Enclosed;
    ReferenceReads(apdu, 3, o, property, index);
    EnclosedParts(apdu, 3 + |Reference(o, property, index)|, 3, value);
    var after := ReadReference(apdu, 3).value.2;
    if index.Some? {
      ReadAt(apdu, after, OptionalUnsigned(2, index), 2, true, Value, UnsignedOctets(index.value));
    }
  }

  /** On the wire: the header, the reference and the value inside [3]. */
  lemma ReadAckLayout(invokeId: byte, o: ObjectId, property: uint32, index: Option<uint32>, value: Bytes)
    requires Balanced(value)
    ensures Pieces(value).Ok?
    ensures ResponseLays(ReadPropertyAck(invokeId, o, property, index, value), 0x30, invokeId, 12,
                         ReferencePieces(o, property, index) + Grouped(3, Pieces(value).value))
  {
    hide Pieces, Reference, ReferencePieces, Enclosed;
    var r, v := Reference(o, property, index), Enclosed(3, value);
    BalancedIsLaid(value);
    ReferenceLays(o, property, index);
    LaysGroup(3, value, Pieces(value).value);
    LaysBoth(r, ReferencePieces(o, property, index), v, Grouped(3, Pieces(value).value));
    assert ReadPropertyAck(invokeId, o, property, index, value)[3..] == r + v;
  }

  /** Of any value, balanced or not, the client reads a prefix if it reads anything. */
  lemma AckPrefix(invokeId: byte, o: ObjectId, property: uint32, index: Option<uint32>, value: Bytes)
    ensures var r := ValueFrom(ReadPropertyAck(invokeId, o, property, index, value), 3);
            r.Ok? && r.value.Some? ==> r.value.value <= value
  {
    hide At, Reference, Enclosed, ValueFrom;
    var apdu := ReadPropertyAck(invokeId, o, property, index, value);
    var r := Reference(o, property, index);
    AtTail([0x30, invokeId, READ_PROPERTY], r + Enclosed(3, value));
    AtSplit(apdu, 3, r, Enclosed(3, value));
    ReferencePassed(apdu, 3, o, property, index);
    OpenedPrefix(apdu, 3 + |r|, value);
  }

  lemma OpenedPrefix(apdu: Bytes, q: nat, value: Bytes)
    requires At(apdu, q, Enclosed(3, value)) && q + |Enclosed(3, value)| == |apdu|
    ensures ValueFrom(apdu, q).Ok? && ValueFrom(apdu, q).value.Some? ==> ValueFrom(apdu, q).value.value <= value
  {
    hide ReadTag, Enclosed, CloseAt;
    EnclosedParts(apdu, q, 3, value);
    EnclosedLength(3, value);
  }

  lemma OpenedValue(apdu: Bytes, q: nat, value: Bytes)
    requires At(apdu, q, Enclosed(3, value))
    ensures ValueFrom(apdu, q) == Ok(Some(value)) <==> Balanced(value)
  {
    hide ReadTag, Enclosed, Balanced, CloseAt;
    EnclosedParts(apdu, q, 3, value);
    Walks(apdu, q + 1, value, 3);
  }

  lemma ReferencePassed(apdu: Bytes, q: nat, o: ObjectId, property: uint32, index: Option<uint32>)
    requires At(apdu, q, Reference(o, property, index))
    ensures ValueFrom(apdu, q) == ValueFrom(apdu, q + |Reference(o, property, index)|)
  {
    hide At, Encodes, ReadTag, ContextObjectId, ContextUnsigned, ValueFrom;
    var a, b, c := ContextObjectId(0, o), ContextUnsigned(1, property), OptionalUnsigned(2, index);
    AtSplit(apdu, q, a + b, c);
    AtSplit(apdu, q, a, b);
    PassesOver(apdu, q, a, 0, ObjectIdOctets(o));
    PassesOver(apdu, q + |a|, b, 1, UnsignedOctets(property));
    if index.Some? {
      PassesOver(apdu, q + |a| + |b|, c, 2, UnsignedOctets(index.value));
    }
  }

  // ----- WriteProperty

  function WritePropertyRequest(invokeId: byte, o: ObjectId, property: uint32, value: Bytes,
                                priority: Option<uint32>, index: Option<uint32>): Bytes {
    ConfirmedRequest(invokeId, WRITE_PROPERTY,
                     Reference(o, property, index) + Enclosed(3, value) + OptionalUnsigned(4, priority))
  }

  datatype WriteRequest = WriteRequest(target: ObjectId, property: nat, index: Option<nat>, value: Bytes,
                                       priority: Option<nat>)

  /** An array index is recognised by its number alone: the index and the position after it. */
  function ReadIndex(apdu: Bytes, position: nat): Result<(Option<nat>, nat)> {
    var t :- ReadTag(apdu, position);
    Ok(if t.number == 2 && t.kind.Value? then (Some(FromBytes(t.body)), t.next) else (None, position))
  }

  function ReadPriority(apdu: Bytes, position: nat): Result<Option<nat>> {
    if position >= |apdu| then Ok(None) else
    var t :- ReadTag(apdu, position);
    Ok(Some(FromBytes(t.body)))
  }

  predicate IsWriteProperty(apdu: Bytes) { |apdu| >= 4 && apdu[0] / 16 == 0 && apdu[3] == WRITE_PROPERTY }

  function ParseWriteParameters(apdu: Bytes): Result<WriteRequest> {
    var (o, property, p) :- ReadReference(apdu, 4);
    var (index, q) :- ReadIndex(apdu, p);
    var opening :- ReadTag(apdu, q);
    var end :- CloseAt(apdu, opening.next, 1);
    var priority :- ReadPriority(apdu, end.after);
    Ok(WriteRequest(o, property, index, apdu[opening.next..end.start], priority))
  }

  /** What `parse_write_property_request` returns; None also for another PDU or service. */
  function ParseWrite(apdu: Bytes): Result<Option<WriteRequest>> {
    if !IsWriteProperty(apdu) then Ok(None) else Caught(ParseWriteParameters(apdu))
  }

  method ParseWritePropertyRequest(apdu: Bytes) returns (r: Result<Option<WriteRequest>>)
    ensures r == ParseWrite(apdu)
  {
    hide ReadTag, FromBytes, ReadReference;
    if !IsWriteProperty(apdu) {
      return Ok(None);
    }
    var reference := ReadReference(apdu, 4);
    if reference.Err? {
      return Caught(reference.PropagateFailure());
    }
    var (o, property, position) := reference.value;
    var index := None;
    var t := ReadTag(apdu, position);
    if t.Err? {
      return Caught(t.PropagateFailure());
    }
    if t.value.number == 2 && t.value.kind.Value? {
      index := Some(FromBytes(t.value.body));
      position := t.value.next;
    }
    t := ReadTag(apdu, position);
    if t.Err? {
      return Caught(t.PropagateFailure());
    }
    position := t.value.next;
    var start, tagStart, depth := position, position, 1;
    while depth != 0
      invariant depth >= 0 && start <= tagStart && start <= position
      invariant depth > 0 ==> CloseAt(apdu, position, depth) == CloseAt(apdu, start, 1)
      invariant depth == 0 ==> CloseAt(apdu, start, 1) == Ok(End(tagStart, position))
      decreases if position < |apdu| then |apdu| - position else 0, depth
    {
      tagStart := position;
      t := ReadTag(apdu, position);
      if t.Err? {
        return Caught(t.PropagateFailure());
      }
      position := t.value.next;
      depth := depth + (if t.value.kind.Open? then 1 else if t.value.kind.Close? then -1 else 0);
    }
    var priority := None;
    if position < |apdu| {
      t := ReadTag(apdu, position);
      if t.Err? {
        return Caught(t.PropagateFailure());
      }
      priority := Some(FromBytes(t.value.body));
    }
    return Ok(Some(WriteRequest(o, property, index, apdu[start..tagStart], priority)));
  }

  lemma IndexReads(apdu: Bytes, q: nat, index: Option<uint32>)
    requires At(apdu, q, OptionalUnsigned(2, index))
    requires var after := q + |OptionalUnsigned(2, index)|; ReadTag(apdu, after) == Ok(Tag(3, true, Open, [], after + 1))
    ensures ReadIndex(apdu, q) == Ok((Natural(index), q + |OptionalUnsigned(2, index)|))
  {
    hide At, Encodes, ReadTag, ContextUnsigned, FromBytes;
    if index.Some? {
      ReadAt(apdu, q, OptionalUnsigned(2, index), 2, true, Value, UnsignedOctets(index.value));
    }
  }

  lemma PriorityReads(apdu: Bytes, q: nat, priority: Option<uint32>)
    requires At(apdu, q, OptionalUnsigned(4, priority)) && q + |OptionalUnsigned(4, priority)| == |apdu|
    ensures ReadPriority(apdu, q) == Ok(Natural(priority))
  {
    hide At, Encodes, ReadTag, ContextUnsigned, FromBytes;
    if priority.Some? {
      ReadAt(apdu, q, OptionalUnsigned(4, priority), 4, true, Value, UnsignedOctets(priority.value));
    }
  }

  /** `parse_write_property_request` inverts `write_property_request` for every object, property,
      optional index and priority, exactly for balanced values, nested to any depth. */
  lemma WriteRequestRoundTrip(invokeId: byte, o: ObjectId, property: uint32, value: Bytes,
                              priority: Option<uint32>, index: Option<uint32>)
    ensures ParseWrite(WritePropertyRequest(invokeId, o, property, value, priority, index)) ==
            Ok(Some(WriteRequest(o, property, Natural(index), value, Natural(priority))))
            <==> Balanced(value)
  {
    hide At, Encodes, ReadTag, Reference, ContextObjectId, ContextUnsigned, Enclosed, Balanced, ReadReference, ReadIndex,
         ReadPriority, CloseAt, OptionalUnsigned;
    var apdu := WritePropertyRequest(invokeId, o, property, value, priority, index);
    var r, e, last := Reference(o, property, index), Enclosed(3, value), OptionalUnsigned(4, priority);
    AtTail([0x00, 0x05, invokeId, WRITE_PROPERTY], r + e + last);
    AtSplit(apdu, 4, r + e, last);
    AtSplit(apdu, 4, r, e);
    ReferenceReads(apdu, 4, o, property, index);
    EnclosedParts(apdu, 4 + |r|, 3, value);
    IndexReads(apdu, 4 + |r| - |OptionalUnsigned(2, index)|, index);
    Walks(apdu, 5 + |r|, value, 3);
    EnclosedLength(3, value);
    PriorityReads(apdu, 6 + |r| + |value|, priority);
  }

  /** The parser does not look at the numbers of the tags, only at their order, except that a primitive [2]
      after the property is an index. */
  lemma NumbersIgnored(invokeId: byte, o: ObjectId, property: uint32, value: Bytes, priority: uint32,
                       a: TagNumber, b: TagNumber, c: TagNumber, d: TagNumber)
    requires Balanced(value)
    ensures ParseWrite([0x00, 0x05, invokeId, WRITE_PROPERTY] +
                       (ContextObjectId(a, o) + ContextUnsigned(b, property) + Enclosed(c, value) +
                        ContextUnsigned(d, priority))) ==
            Ok(Some(WriteRequest(o, property, None, value, Some(priority))))
  {
    hide At, Encodes, ReadTag, ContextObjectId, ContextUnsigned, Enclosed, Balanced, CloseAt, FromBytes, ObjectIdFrom;
    var x, y, e, p := ContextObjectId(a, o), ContextUnsigned(b, property), Enclosed(c, value), ContextUnsigned(d, priority);
    var apdu := [0x00, 0x05, invokeId, WRITE_PROPERTY] + (x + y + e + p);
    AtTail([0x00, 0x05, invokeId, WRITE_PROPERTY], x + y + e + p);
    AtSplit(apdu, 4, x + y + e, p);
    AtSplit(apdu, 4, x + y, e);
    AtSplit(apdu, 4, x, y);
    ReadAt(apdu, 4, x, a, true, Value, ObjectIdOctets(o));
    ObjectIdRoundTrip(o, []);
    ReadAt(apdu, 4 + |x|, y, b, true, Value, UnsignedOctets(property));
    var q := 4 + |x| + |y|;
    assert ReadReference(apdu, 4) == Ok((o, property, q));
    EnclosedParts(apdu, q, c, value);
    EnclosedLength(c, value);
    Walks(apdu, q + 1, value, c);
    assert apdu[q + 1..q + 1 + |value|] == value by { AtIs(apdu, q + 1, value); }
    ReadAt(apdu, q + |e|, p, d, true, Value, UnsignedOctets(priority));
  }

  lemma AtIs(data: Bytes, q: nat, e: Bytes)
    requires At(data, q, e)
    ensures q + |e| <= |data| && data[q..q + |e|] == e
  {
  }

  /** What a successful parse stored was balanced, whatever octets arrived. */
  lemma ParsedValueBalanced(apdu: Bytes)
    ensures ParseWrite(apdu).Ok? && ParseWrite(apdu).value.Some? ==> Balanced(ParseWrite(apdu).value.value.value)
  {
    hide ReadTag, ReadReference, ReadIndex, ReadPriority, CloseAt, Balanced;
    var r := ParseWriteParameters(apdu);
    if r.Ok? {
      var p := ReadReference(apdu, 4).value.2;
      var q := ReadIndex(apdu, p).value.1;
      var start := ReadTag(apdu, q).value.next;
      WalkedIsBalanced(apdu, start, CloseAt(apdu, start, 1).value);
    }
  }

  /** On the wire: the header, the reference, the value inside [3] and, if there is one, the priority [4]. */
  lemma WriteRequestLayout(invokeId: byte, o: ObjectId, property: uint32, value: Bytes,
                           priority: Option<uint32>, index: Option<uint32>)
    requires Balanced(value)
    ensures Pieces(value).Ok?
    ensures RequestLays(WritePropertyRequest(invokeId, o, property, value, priority, index), invokeId, 15,
                        ReferencePieces(o, property, index) + Grouped(3, Pieces(value).value) +
                        OptionalPiece(4, priority))
  {
    hide Pieces, Reference, ReferencePieces, Enclosed, OptionalUnsigned, OptionalPiece;
    var r, v, p := Reference(o, property, index), Enclosed(3, value), OptionalUnsigned(4, priority);
    BalancedIsLaid(value);
    ReferenceLays(o, property, index);
    LaysGroup(3, value, Pieces(value).value);
    OptionalLays(4, priority);
    LaysBoth(r, ReferencePieces(o, property, index), v, Grouped(3, Pieces(value).value));
    LaysBoth(r + v, ReferencePieces(o, property, index) + Grouped(3, Pieces(value).value), p, OptionalPiece(4, priority));
    assert WritePropertyRequest(invokeId, o, property, value, priority, index)[4..] == r + v + p;
  }

  // ----- short answers

  function SimpleAck(invokeId: byte, service: byte): Bytes { [0x20, invokeId, service] }

  function RejectPdu(invokeId: byte, reason: byte): Bytes { [0x60, invokeId, reason] }

  function AbortPdu(invokeId: byte, reason: byte): Bytes { [0x71, invokeId, reason] }

  function ApplicationEnumerated(value: uint32): (e: Bytes)
    ensures Encodes(e, 9, false, Value, UnsignedOctets(value))
  {
    Brief(9, false, UnsignedOctets(value))
  }

  function ErrorCodes(errorClass: uint32, errorCode: uint32): Bytes {
    ApplicationEnumerated(errorClass) + ApplicationEnumerated(errorCode)
  }

  function ErrorPdu(invokeId: byte, service: byte, errorClass: uint32, errorCode: uint32): Bytes {
    [0x50, invokeId, service] + ErrorCodes(errorClass, errorCode)
  }

  /** `application_values`: `found`, then the content of every application primitive from `position` on. */
  function ApplicationValues(octets: Bytes, position: nat, found: seq<Bytes>): Result<seq<Bytes>>
    decreases if position < |octets| then |octets| - position else 0
  {
    if position >= |octets| then Ok(found) else
    var t :- ReadTag(octets, position);
    ApplicationValues(octets, t.next, if t.kind.Value? && !t.context then found + [t.body] else found)
  }

  method CollectApplicationValues(octets: Bytes) returns (r: Result<seq<Bytes>>)
    ensures r == ApplicationValues(octets, 0, [])
  {
    hide ReadTag;
    var values, position := [], 0;
    while position < |octets|
      invariant ApplicationValues(octets, position, values) == ApplicationValues(octets, 0, [])
      decreases |octets| - position
    {
      var t := ReadTag(octets, position);
      if t.Err? {
        return Err(t.fault);
      }
      if t.value.kind.Value? && !t.value.context {
        values := values + [t.value.body];
      }
      position := t.value.next;
    }
    return Ok(values);
  }

  /** The first two values as numbers, for `error_class_and_code` and a property-access-error. */
  function FirstTwo(values: seq<Bytes>): (r: seq<nat>)
    ensures |r| == if |values| < 2 then |values| else 2
    ensures forall i | 0 <= i < |r| :: r[i] == FromBytes(values[i])
  {
    if |values| == 0 then [] else if |values| == 1 then [FromBytes(values[0])]
    else [FromBytes(values[0]), FromBytes(values[1])]
  }

  function ErrorClassAndCode(apdu: Bytes): Result<Option<(nat, nat)>> {
    var values :- ApplicationValues(Slice(apdu, 3, 3 + |apdu|), 0, []);
    Ok(if |values| < 2 then None else Some((FromBytes(values[0]), FromBytes(values[1]))))
  }

  lemma ErrorCodesRead(errorClass: uint32, errorCode: uint32)
    ensures ApplicationValues(ErrorCodes(errorClass, errorCode), 0, []) ==
            Ok([UnsignedOctets(errorClass), UnsignedOctets(errorCode)])
    ensures FirstTwo([UnsignedOctets(errorClass), UnsignedOctets(errorCode)]) == [errorClass, errorCode]
    ensures Balanced(ErrorCodes(errorClass, errorCode))
  {
    hide At, Encodes, ReadTag, FromBytes, ApplicationEnumerated;
    var a, b := ApplicationEnumerated(errorClass), ApplicationEnumerated(errorCode);
    var e := a + b;
    AtTail(a, b);
    AtTail([], e);
    assert [] + e == e;
    AtSplit(e, 0, a, b);
    ReadAt(e, 0, a, 9, false, Value, UnsignedOctets(errorClass));
    ReadAt(e, |a|, b, 9, false, Value, UnsignedOctets(errorCode));
    var x, y := UnsignedOctets(errorClass), UnsignedOctets(errorCode);
    assert [] + [x] == [x] && [x] + [y] == [x, y];
    assert ApplicationValues(e, 0, []) == ApplicationValues(e, |a|, [x]) == ApplicationValues(e, |e|, [x, y]);
    OneTag(a, 9, false, UnsignedOctets(errorClass));
    OneTag(b, 9, false, UnsignedOctets(errorCode));
    BalancedConcat(a, b);
  }

  /** The values are the bodies of the application primitives among the tags, whatever else is there. */
  function ApplicationBodies(pieces: seq<Piece>): seq<Bytes> {
    if pieces == [] then []
    else (if pieces[0].kind.Value? && !pieces[0].context then [pieces[0].body] else []) + ApplicationBodies(pieces[1..])
  }

  lemma {:induction false} ValuesAmong(octets: Bytes, q: nat, pieces: seq<Piece>, found: seq<Bytes>)
    requires q <= |octets| && Lays(octets[q..], pieces)
    ensures ApplicationValues(octets, q, found) == Ok(found + ApplicationBodies(pieces))
    decreases |pieces|
  {
    hide ReadTag;
    assert found + [] == found;
    if q < |octets| {
      var e := octets[q..];
      var t := ReadTag(e, 0).value;
      assert At(octets, q, e);
      Local(octets, q, e, 0);
      assert e[t.next..] == octets[q + t.next..];
      var one := if t.kind.Value? && !t.context then [t.body] else [];
      ValuesAmong(octets, q + t.next, pieces[1..], found + one);
      assert found + one + ApplicationBodies(pieces[1..]) == found + (one + ApplicationBodies(pieces[1..]));
    }
  }

  lemma ValuesArePieces(octets: Bytes, pieces: seq<Piece>)
    requires Lays(octets, pieces)
    ensures ApplicationValues(octets, 0, []) == Ok(ApplicationBodies(pieces))
  {
    hide Lays, ApplicationValues, ApplicationBodies;
    assert octets[0..] == octets;
    ValuesAmong(octets, 0, pieces, []);
    assert [] + ApplicationBodies(pieces) == ApplicationBodies(pieces);
  }

  lemma ErrorCodesLay(errorClass: uint32, errorCode: uint32)
    ensures Lays(ErrorCodes(errorClass, errorCode),
                 [Application(9, UnsignedOctets(errorClass)), Application(9, UnsignedOctets(errorCode))])
  {
    hide Lays, Encodes, ApplicationEnumerated, UnsignedOctets;
    var a, b := ApplicationEnumerated(errorClass), ApplicationEnumerated(errorCode);
    var p, q := Application(9, UnsignedOctets(errorClass)), Application(9, UnsignedOctets(errorCode));
    LaysOne(a, 9, false, Value, UnsignedOctets(errorClass));
    LaysOne(b, 9, false, Value, UnsignedOctets(errorCode));
    LaysBoth(a, [p], b, [q]);
    assert [p] + [q] == [p, q];
  }

  /** On the wire: the header, then error class and code, both ENUMERATED. */
  lemma ErrorLayout(invokeId: byte, service: byte, errorClass: uint32, errorCode: uint32)
    ensures ResponseLays(ErrorPdu(invokeId, service, errorClass, errorCode), 0x50, invokeId, service,
                         [Application(9, UnsignedOctets(errorClass)), Application(9, UnsignedOctets(errorCode))])
  {
    hide Lays, ErrorCodes, UnsignedOctets;
    ErrorCodesLay(errorClass, errorCode);
    assert ErrorPdu(invokeId, service, errorClass, errorCode)[3..] == ErrorCodes(errorClass, errorCode);
  }

  /** An Error without its class or code has none. */
  lemma ErrorIncomplete(invokeId: byte, service: byte, errorClass: uint32)
    ensures ErrorClassAndCode([0x50, invokeId, service]) == Ok(None)
    ensures ErrorClassAndCode([0x50, invokeId, service] + ApplicationEnumerated(errorClass)) == Ok(None)
  {
    hide Lays, Encodes, ApplicationEnumerated, ApplicationValues, UnsignedOctets;
    var e := ApplicationEnumerated(errorClass);
    var apdu := [0x50, invokeId, service] + e;
    assert apdu[3..] == e && Slice(apdu, 3, 3 + |apdu|) == e;
    assert Slice([0x50, invokeId, service], 3, 6) == [];
    LaysNothing();
    ValuesArePieces([], []);
    var p := Application(9, UnsignedOctets(errorClass));
    LaysOne(e, 9, false, Value, UnsignedOctets(errorClass));
    ValuesArePieces(e, [p]);
    assert [p][1..] == [];
  }

  lemma ErrorRoundTrip(invokeId: byte, service: byte, errorClass: uint32, errorCode: uint32)
    ensures ErrorClassAndCode(ErrorPdu(invokeId, service, errorClass, errorCode)) == Ok(Some((errorClass, errorCode)))
  {
    hide ApplicationValues, FromBytes, ErrorCodes;
    var apdu := ErrorPdu(invokeId, service, errorClass, errorCode);
    var e := ErrorCodes(errorClass, errorCode);
    assert apdu[3..] == e;
    assert Slice(apdu, 3, 3 + |apdu|) == e;
    ErrorCodesRead(errorClass, errorCode);
  }
}
