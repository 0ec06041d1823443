/** The tags of section 20.2.1 of ANSI/ASHRAE 135-2024: one reader, several encoders. */
module Tags {
  import opened Octets

  datatype Kind = Open | Close | Value
  datatype Tag = Tag(number: byte, context: bool, kind: Kind, body: Bytes, next: nat)

  /** The length/value/type field and its extensions: (length, position after it). */
  function ReadLength(data: Bytes, position: nat, field: nat): (r: Result<(nat, nat)>)
    ensures r.Ok? ==> position <= r.value.1
  {
    if field != 5 then Ok((field, position))
    else if position >= |data| then Err(Short)
    else if data[position] == 254 then
      if position + 3 > |data| then Err(Short)
      else Ok((FromBytes(data[position + 1..position + 3]), position + 3))
    else if data[position] == 255 then
      if position + 5 > |data| then Err(Short)
      else Ok((FromBytes(data[position + 1..position + 5]), position + 5))
    else Ok((data[position] as nat, position + 1))
  }

  /** `read_tag`. The body is a clamped slice, so `next` may lie beyond the data. */
  function ReadTag(data: Bytes, position: nat): (r: Result<Tag>)
    ensures r.Ok? ==> position < |data| && position < r.value.next
  {
    if position >= |data| then Err(Short) else
    var first := data[position];
    var context := first / 8 % 2 == 1;
    var field := first % 8;
    if first / 16 == 15 && position + 1 >= |data| then Err(Short) else
    var number := if first / 16 == 15 then data[position + 1] else first / 16;
    var after := if first / 16 == 15 then position + 2 else position + 1;
    if context && field == 6 then Ok(Tag(number, true, Open, [], after))
    else if context && field == 7 then Ok(Tag(number, true, Close, [], after))
    else
      var (length, start) :- ReadLength(data, after, field);
      if !context && number == 1 then
        if length < 256 then Ok(Tag(number, false, Value, [length], start)) else Err(Invalid)
      else Ok(Tag(number, context, Value, Slice(data, start, start + length), start + length))
  }

  /** A whole tag is at `position`: nothing of it is missing. */
  predicate Complete(data: Bytes, position: nat) {
    ReadTag(data, position).Ok? && ReadTag(data, position).value.next <= |data|
  }

  function Moved(t: Tag, offset: nat): Tag { t.(next := t.next + offset) }

  lemma LocalLength(data: Bytes, q: nat, v: Bytes, p: nat, field: nat)
    requires At(data, q, v)
    ensures ReadLength(v, p, field).Ok? ==>
              var (length, start) := ReadLength(v, p, field).value;
              ReadLength(data, q + p, field) == Ok((length, q + start))
    ensures p <= |v| && ReadLength(data, q + p, field).Ok? && ReadLength(data, q + p, field).value.1 <= q + |v| ==>
              ReadLength(v, p, field).Ok?
  {
    if field == 5 && p < |v| {
      assert data[q + p] == v[p];
      if p + 3 <= |v| {
        AtPart(data, q, v, p + 1, p + 3);
      }
      if p + 5 <= |v| {
        AtPart(data, q, v, p + 1, p + 5);
      }
    }
  }

  lemma LocalSlice(data: Bytes, q: nat, v: Bytes, lo: nat, hi: nat)
    requires At(data, q, v) && lo <= hi <= |v|
    ensures Slice(data, q + lo, q + hi) == Slice(v, lo, hi)
  {
    AtPart(data, q, v, lo, hi);
  }

  /** Locality: what `ReadTag` sees of a complete tag does not depend on what surrounds it. */
  lemma Local(data: Bytes, q: nat, v: Bytes, p: nat)
    requires At(data, q, v) && Complete(v, p)
    ensures ReadTag(data, q + p) == Ok(Moved(ReadTag(v, p).value, q))
  {
    hide ReadLength, Slice, FromBytes;
    assert data[q + p] == v[p];
    var extended := v[p] / 16 == 15;
    if extended {
      assert data[q + p + 1] == v[p + 1];
    }
    var after := if extended then p + 2 else p + 1;
    LocalLength(data, q, v, after, v[p] % 8);
    var t := ReadTag(v, p).value;
    if t.kind.Value? && (t.context || t.number != 1) {
      var (length, start) := ReadLength(v, after, v[p] % 8).value;
      LocalSlice(data, q, v, start, start + length);
    }
  }

  /** And back: a tag that starts in `v` ends in `v` only if it is complete there. */
  lemma LocalBack(data: Bytes, q: nat, v: Bytes, p: nat)
    requires At(data, q, v) && p < |v|
    requires ReadTag(data, q + p).Ok? && ReadTag(data, q + p).value.next <= q + |v|
    ensures Complete(v, p)
  {
    hide ReadLength, Slice, FromBytes;
    assert data[q + p] == v[p];
    if v[p] / 16 == 15 {
      assert data[q + p + 1] == v[p + 1];
    }
    LocalLength(data, q, v, if v[p] / 16 == 15 then p + 2 else p + 1, v[p] % 8);
  }

  /** `e` is the encoding of exactly one tag. */
  ghost predicate Encodes(e: Bytes, number: byte, context: bool, kind: Kind, body: Bytes) {
    ReadTag(e, 0) == Ok(Tag(number, context, kind, body, |e|))
  }

  lemma ReadAt(data: Bytes, q: nat, e: Bytes, number: byte, context: bool, kind: Kind, body: Bytes)
    requires At(data, q, e) && Encodes(e, number, context, kind, body)
    ensures ReadTag(data, q) == Ok(Tag(number, context, kind, body, q + |e|))
  {
    hide ReadTag;
    Local(data, q, e, 0);
  }

  // ----- encoders

  /** Tag numbers the one-octet header can hold. */
  type TagNumber = x: int | 0 <= x < 15

  datatype ObjectId = ObjectId(objectType: ObjectType, instance: Instance)
  type ObjectType = x: int | 0 <= x < 0x400
  type Instance = x: int | 0 <= x < 0x40_0000

  function Header(tag: TagNumber, context: bool, field: nat): byte
    requires field < 8
  {
    tag * 16 + (if context then 8 else 0) + field
  }

  function Opening(tag: TagNumber): (e: Bytes)
    ensures |e| == 1 && Encodes(e, tag, true, Open, [])
  {
    [Header(tag, true, 6)]
  }

  function Closing(tag: TagNumber): (e: Bytes)
    ensures |e| == 1 && Encodes(e, tag, true, Close, [])
  {
    [Header(tag, true, 7)]
  }

  lemma HeaderReads(e: Bytes, tag: TagNumber, context: bool, field: nat)
    requires field < 6 && |e| > 0 && e[0] == Header(tag, context, field) && (context || tag != 1)
    ensures ReadTag(e, 0) ==
            match ReadLength(e, 1, field)
            case Ok((length, start)) => Ok(Tag(tag, context, Value, Slice(e, start, start + length), start + length))
            case Err(f) => Err(f)
  {
    hide ReadLength, Slice;
  }

  lemma BriefReads(tag: TagNumber, context: bool, body: Bytes)
    requires |body| < 5 && (context || tag != 1)
    ensures Encodes([Header(tag, context, |body|)] + body, tag, context, Value, body)
  {
    hide ReadTag;
    var e := [Header(tag, context, |body|)] + body;
    HeaderReads(e, tag, context, |body|);
    assert e[1..] == body;
  }

  lemma LongReads(tag: TagNumber, context: bool, body: Bytes)
    requires |body| < 254 && (context || tag != 1)
    ensures Encodes([Header(tag, context, 5), |body|] + body, tag, context, Value, body)
  {
    hide ReadTag;
    var e := [Header(tag, context, 5), |body|] + body;
    HeaderReads(e, tag, context, 5);
    assert e[2..] == body;
  }

  /** A primitive of at most four content octets: the length is in the header. */
  function Brief(tag: TagNumber, context: bool, body: Bytes): (e: Bytes)
    requires |body| < 5
    ensures |e| == 1 + |body|
    ensures context || tag != 1 ==> Encodes(e, tag, context, Value, body)
  {
    assert context || tag != 1 ==> Encodes([Header(tag, context, |body|)] + body, tag, context, Value, body) by {
      if context || tag != 1 { BriefReads(tag, context, body); }
    }
    [Header(tag, context, |body|)] + body
  }

  /** The one-octet extended length, as the codec writes it: for any body up to 255 octets. */
  function Long(tag: TagNumber, context: bool, body: Bytes): (e: Bytes)
    requires |body| < 256
    ensures |e| == 2 + |body|
    ensures |body| < 254 && (context || tag != 1) ==> Encodes(e, tag, context, Value, body)
  {
    assert |body| < 254 && (context || tag != 1) ==>
             Encodes([Header(tag, context, 5), |body|] + body, tag, context, Value, body) by {
      if |body| < 254 && (context || tag != 1) { LongReads(tag, context, body); }
    }
    [Header(tag, context, 5), |body|] + body
  }

  function ObjectIdNumber(o: ObjectId): uint32 { o.objectType * 0x40_0000 + o.instance }

  function ObjectIdOctets(o: ObjectId): (r: Bytes)
    ensures |r| == 4 && FromBytes(r) == ObjectIdNumber(o)
  {
    Pack32(ObjectIdNumber(o))
  }

  /** Four octets as one number, split into type and instance; any other length raises. */
  function ObjectIdFrom(body: Bytes): (r: Result<ObjectId>) {
    if |body| != 4 then Err(Short) else
    Pow256Values();
    var raw := FromBytes(body);
    Ok(ObjectId(raw / 0x40_0000, raw % 0x40_0000))
  }

  /** Both ways: the four octets and the (type, instance) pair determine each other. */
  lemma ObjectIdRoundTrip(o: ObjectId, body: Bytes)
    ensures ObjectIdFrom(ObjectIdOctets(o)) == Ok(o)
    ensures ObjectIdFrom(body) == Ok(o) ==> body == ObjectIdOctets(o)
  {
    hide FromBytes, ToBytes;
    ToFromBytes(body);
    ToFromBytes(ObjectIdOctets(o));
  }

  function ContextUnsigned(tag: TagNumber, value: uint32): (e: Bytes)
    ensures Encodes(e, tag, true, Value, UnsignedOctets(value))
    ensures 2 <= |e| <= 5
  {
    Brief(tag, true, UnsignedOctets(value))
  }

  function ContextObjectId(tag: TagNumber, o: ObjectId): (e: Bytes)
    ensures |e| == 5 && Encodes(e, tag, true, Value, ObjectIdOctets(o))
  {
    Brief(tag, true, ObjectIdOctets(o))
  }
}
