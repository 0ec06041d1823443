/** Application-tagged primitives (section 20.2 of ANSI/ASHRAE 135-2024): encoders, the decoder,
    and exactly which values survive the trip. */
module Primitives {
  import opened Octets
  import opened Tags
  import opened Nesting
  import opened Layout

  /** What the application encoders take. Text is UTF-8 octets, a REAL its four octets. */
  datatype Primitive =
    | PBoolean(flag: bool)
    | PUnsigned(number: uint32)
    | PEnumerated(number: uint32)
    | PSigned(integer: sint32)
    | PReal(octets: Bytes)
    | PText(octets: Bytes)
    | POctets(octets: Bytes)
    | PBits(bits: seq<bool>)
    | PObject(id: ObjectId)

  /** What `decode_application` returns; its None is Option.None. */
  datatype Decoded =
    | Truth(flag: bool)
    | Number(integer: int)
    | Float(octets: Bytes)
    | Text(octets: Bytes)
    | Raw(octets: Bytes)
    | Bits(bits: seq<bool>)
    | Identifier(id: ObjectId)

  // ----- bit strings

  function Weight(k: nat): nat
    requires k < 8
  {
    [128, 64, 32, 16, 8, 4, 2, 1][k]
  }

  function OctetBit(octet: byte, k: nat): bool
    requires k < 8
  {
    octet / Weight(k) % 2 == 1
  }

  function BitAt(bits: seq<bool>, i: nat): nat { if i < |bits| && bits[i] then 1 else 0 }

  /** Up to eight bits from `i` on, the first the most significant, padded with zeros. */
  function OctetOf(bits: seq<bool>, i: nat): byte {
    BitAt(bits, i) * 128 + BitAt(bits, i + 1) * 64 + BitAt(bits, i + 2) * 32 + BitAt(bits, i + 3) * 16 +
    BitAt(bits, i + 4) * 8 + BitAt(bits, i + 5) * 4 + BitAt(bits, i + 6) * 2 + BitAt(bits, i + 7)
  }

  /** Eight binary digits are recovered from their weighted sum. */
  lemma Digits(v: nat, a: nat, b: nat, c: nat, d: nat, e: nat, f: nat, g: nat, h: nat)
    requires a < 2 && b < 2 && c < 2 && d < 2 && e < 2 && f < 2 && g < 2 && h < 2
    requires v == a * 128 + b * 64 + c * 32 + d * 16 + e * 8 + f * 4 + g * 2 + h
    ensures v / 128 % 2 == a && v / 64 % 2 == b && v / 32 % 2 == c && v / 16 % 2 == d
    ensures v / 8 % 2 == e && v / 4 % 2 == f && v / 2 % 2 == g && v / 1 % 2 == h
  {
    assert v / 128 == a;
    assert v / 64 == a * 2 + b;
    assert v / 32 == a * 4 + b * 2 + c;
    assert v / 16 == a * 8 + b * 4 + c * 2 + d;
    assert v / 8 == a * 16 + b * 8 + c * 4 + d * 2 + e;
    assert v / 4 == a * 32 + b * 16 + c * 8 + d * 4 + e * 2 + f;
    assert v / 2 == a * 64 + b * 32 + c * 16 + d * 8 + e * 4 + f * 2 + g;
  }

  lemma OctetOfBit(bits: seq<bool>, i: nat, k: nat)
    requires k < 8
    ensures OctetBit(OctetOf(bits, i), k) <==> BitAt(bits, i + k) == 1
  {
    Digits(OctetOf(bits, i), BitAt(bits, i), BitAt(bits, i + 1), BitAt(bits, i + 2), BitAt(bits, i + 3),
           BitAt(bits, i + 4), BitAt(bits, i + 5), BitAt(bits, i + 6), BitAt(bits, i + 7));
    hide OctetOf, BitAt;
  }

  function PackedFrom(bits: seq<bool>, i: nat): Bytes
    decreases if i < |bits| then |bits| - i else 0
  {
    if i >= |bits| then [] else [OctetOf(bits, i)] + PackedFrom(bits, i + 8)
  }

  function UnpackOctet(octet: byte): (r: seq<bool>)
    ensures |r| == 8
  {
    seq(8, k requires 0 <= k < 8 => OctetBit(octet, k))
  }

  function Unpacked(octets: Bytes): (r: seq<bool>)
    ensures |r| == 8 * |octets|
  {
    if octets == [] then [] else UnpackOctet(octets[0]) + Unpacked(octets[1..])
  }

  lemma UnpackOctetOf(bits: seq<bool>, i: nat, k: nat)
    requires k < 8 && i + k < |bits|
    ensures UnpackOctet(OctetOf(bits, i))[k] == bits[i + k]
  {
    OctetOfBit(bits, i, k);
    hide OctetOf, OctetBit;
  }

  lemma UnpackedTail(octets: Bytes, k: nat)
    requires octets != [] && k < 8 * |octets|
    ensures Unpacked(octets)[k] == if k < 8 then UnpackOctet(octets[0])[k] else Unpacked(octets[1..])[k - 8]
  {
  }

  lemma {:induction false} PackedLength(bits: seq<bool>, i: nat)
    ensures |PackedFrom(bits, i)| == if i < |bits| then (|bits| - i + 7) / 8 else 0
    decreases if i < |bits| then |bits| - i else 0
  {
    hide OctetOf;
    if i < |bits| {
      PackedLength(bits, i + 8);
    }
  }

  /** Unpacking what was packed gives the bits, then what fills the last octet. */
  lemma {:induction false} UnpackedPacked(bits: seq<bool>, i: nat, j: nat)
    requires i <= j < |bits|
    ensures j - i < 8 * |PackedFrom(bits, i)| && Unpacked(PackedFrom(bits, i))[j - i] == bits[j]
    decreases |bits| - i
  {
    hide OctetOf, UnpackOctet, Unpacked;
    PackedLength(bits, i);
    var packed := PackedFrom(bits, i);
    UnpackedTail(packed, j - i);
    if j < i + 8 {
      UnpackOctetOf(bits, i, j - i);
    } else {
      UnpackedPacked(bits, i + 8, j);
      assert packed[1..] == PackedFrom(bits, i + 8);
    }
  }

  lemma UnpackedWhole(bits: seq<bool>)
    ensures var u := Unpacked(PackedFrom(bits, 0)); |bits| <= |u| < |bits| + 8 && u[..|bits|] == bits
  {
    hide PackedFrom, Unpacked;
    PackedLength(bits, 0);
    forall j | 0 <= j < |bits|
      ensures Unpacked(PackedFrom(bits, 0))[j] == bits[j]
    {
      UnpackedPacked(bits, 0, j);
    }
  }

  function BitStringBody(bits: seq<bool>): (r: Bytes)
    ensures |r| == 1 + (|bits| + 7) / 8 && r[0] < 8
  {
    PackedLength(bits, 0);
    var packed := PackedFrom(bits, 0);
    [8 * |packed| - |bits|] + packed
  }

  /** The first m bits; a negative m counts from the end. */
  function Prefix(bits: seq<bool>, m: int): seq<bool> {
    if m >= |bits| then bits else if m >= 0 then bits[..m]
    else if |bits| + m >= 0 then bits[..|bits| + m] else []
  }

  function BitStringFrom(body: Bytes): Result<seq<bool>> {
    if body == [] then Err(Short) else
    var bits := Unpacked(body[1..]);
    Ok(if body[0] == 0 then bits else Prefix(bits, |bits| - body[0]))
  }

  lemma BitStringRoundTrip(bits: seq<bool>)
    ensures BitStringFrom(BitStringBody(bits)) == Ok(bits)
  {
    hide PackedFrom, Unpacked;
    UnpackedWhole(bits);
    var packed := PackedFrom(bits, 0);
    assert BitStringBody(bits)[1..] == packed;
    var u := Unpacked(packed);
    assert |u| == |bits| ==> u == u[..|bits|];
  }

  /** An octet with its highest bit set. */
  function Or80(n: nat): byte
    requires n < 256
  {
    if n < 128 then n + 128 else n
  }

  function ApplicationBitString(bits: seq<bool>): Result<Bytes> {
    var body := BitStringBody(bits);
    if |body| > 255 then Err(Invalid) else Ok([Or80(|body|)] + body)
  }

  lemma {:induction false} PackedAt(bits: seq<bool>, i: nat, j: nat)
    requires i + 8 * j < |bits|
    ensures j < |PackedFrom(bits, i)| && PackedFrom(bits, i)[j] == OctetOf(bits, i + 8 * j)
    decreases j
  {
    hide OctetOf;
    if j > 0 {
      PackedAt(bits, i + 8, j - 1);
    }
  }

  /** An octet with bit k set, counted from the most significant. */
  function SetBit(octet: byte, k: nat): nat
    requires k < 8
  {
    if OctetBit(octet, k) then octet else octet + Weight(k)
  }

  lemma SetBitAdds(bits: seq<bool>, index: nat)
    requires index < |bits|
    ensures var i := index - index % 8;
            OctetOf(bits[..index + 1], i) ==
            if bits[index] then SetBit(OctetOf(bits[..index], i), index % 8) else OctetOf(bits[..index], i)
  {
    var i, k := index - index % 8, index % 8;
    OctetOfBit(bits[..index], i, k);
    forall m: nat
      ensures BitAt(bits[..index + 1], m) ==
              BitAt(bits[..index], m) + (if m == index && bits[index] then 1 else 0)
    {
    }
    hide BitAt, OctetBit;
  }

  /** `octets` holds the first `index` bits, and zeros. */
  ghost predicate Holds(octets: Bytes, bits: seq<bool>, index: nat) {
    index <= |bits| && |octets| == (|bits| + 7) / 8 &&
    forall j | 0 <= j < |octets| :: octets[j] == OctetOf(bits[..index], 8 * j)
  }

  lemma OtherOctet(bits: seq<bool>, index: nat, i: nat)
    requires index < |bits| && !(i <= index < i + 8)
    ensures OctetOf(bits[..index + 1], i) == OctetOf(bits[..index], i)
  {
    SameBit(bits, index, i);
    SameBit(bits, index, i + 1);
    SameBit(bits, index, i + 2);
    SameBit(bits, index, i + 3);
    SameBit(bits, index, i + 4);
    SameBit(bits, index, i + 5);
    SameBit(bits, index, i + 6);
    SameBit(bits, index, i + 7);
    hide BitAt;
  }

  lemma SameBit(bits: seq<bool>, index: nat, m: nat)
    requires index < |bits| && m != index
    ensures BitAt(bits[..index + 1], m) == BitAt(bits[..index], m)
  {
  }

  lemma HoldsNext(octets: Bytes, bits: seq<bool>, index: nat)
    requires index < |bits| && Holds(octets, bits, index)
    ensures var j := index / 8;
            if bits[index] then
              SetBit(octets[j], index % 8) < 256 &&
              Holds(octets[j := SetBit(octets[j], index % 8)], bits, index + 1)
            else Holds(octets, bits, index + 1)
  {
    hide OctetOf, SetBit;
    var j := index / 8;
    SetBitAdds(bits, index);
    assert index - index % 8 == 8 * j;
    forall m: nat | m < |octets| && m != j
      ensures OctetOf(bits[..index + 1], 8 * m) == octets[m]
    {
      OtherOctet(bits, index, 8 * m);
    }
  }

  lemma HoldsAll(octets: Bytes, bits: seq<bool>)
    requires Holds(octets, bits, |bits|)
    ensures octets == PackedFrom(bits, 0)
  {
    hide OctetOf, PackedFrom, Unpacked;
    PackedLength(bits, 0);
    assert bits[..|bits|] == bits;
    forall j | 0 <= j < |octets|
      ensures octets[j] == PackedFrom(bits, 0)[j]
    {
      PackedAt(bits, 0, j);
    }
  }

  /** `application_bit_string`, setting bits in place. */
  method BuildBitString(bits: seq<bool>) returns (r: Result<Bytes>)
    ensures r == ApplicationBitString(bits)
  {
    var n := (|bits| + 7) / 8;
    var octets := new byte[n](_ => 0);
    assert Holds(octets[..], bits, 0);
    hide Holds, SetBit;
    for index := 0 to |bits|
      invariant Holds(octets[..], bits, index)
    {
      HoldsNext(octets[..], bits, index);
      if bits[index] {
        var j := index / 8;
        ghost var before := octets[..];
        octets[j] := SetBit(octets[j], index % 8);
        assert octets[..] == before[j := SetBit(before[j], index % 8)];
      }
    }
    HoldsAll(octets[..], bits);
    var body := [8 * n - |bits|] + octets[..];
    if |body| > 255 {
      return Err(Invalid);
    }
    return Ok([Or80(|body|)] + body);
  }

  // ----- encoders and decoder

  function CharacterString(tag: TagNumber, context: bool, text: Bytes): (r: Result<Bytes>)
    requires context || tag != 1
    ensures r.Ok? <==> |text| <= 254
    ensures |text| <= 252 ==> Encodes(r.value, tag, context, Value, [0] + text)
  {
    var body := [0] + text;
    if |body| < 5 then Ok(Brief(tag, context, body))
    else if |body| < 256 then Ok(Long(tag, context, body))
    else Err(Invalid)
  }

  function OctetString(octets: Bytes): (r: Result<Bytes>)
    ensures r.Ok? <==> |octets| < 0x1_0000
    ensures r.Ok? ==> Encodes(r.value, 6, false, Value, octets)
  {
    if |octets| < 5 then Ok(Brief(6, false, octets))
    else if |octets| < 254 then Ok(Long(6, false, octets))
    else if |octets| < 0x1_0000 then
      var i := Item.Primitive(6, false, octets);
      PrimitiveReads(i);
      Ok([0x65, 254] + Pack16(|octets|) + octets)
    else Err(Invalid)
  }

  function Encode(p: Primitive): Result<Bytes> {
    match p
    case PBoolean(flag) => Ok([if flag then 0x11 else 0x10])
    case PUnsigned(n) => Ok(Brief(2, false, UnsignedOctets(n)))
    case PEnumerated(n) => Ok(Brief(9, false, UnsignedOctets(n)))
    case PSigned(n) => Ok(Brief(3, false, SignedOctets(n)))
    case PReal(octets) => if |octets| == 4 then Ok(Brief(4, false, octets)) else Err(Invalid)
    case PText(octets) => CharacterString(7, false, octets)
    case POctets(octets) => OctetString(octets)
    case PBits(bits) => ApplicationBitString(bits)
    case PObject(id) => Ok(Brief(12, false, ObjectIdOctets(id)))
  }

  function Interpret(number: byte, body: Bytes): Result<Option<Decoded>>
    requires number == 1 ==> |body| == 1
  {
    if number == 0 then Ok(None)
    else if number == 1 then Ok(Some(Truth(body[0] != 0)))
    else if number == 2 || number == 9 then Ok(Some(Number(FromBytes(body))))
    else if number == 3 then Ok(Some(Number(SignedFromBytes(body))))
    else if number == 4 then if |body| == 4 then Ok(Some(Float(body))) else Err(Short)
    else if number == 5 then if |body| == 8 then Ok(Some(Float(body))) else Err(Short)
    else if number == 7 then Ok(Some(Text(if body == [] then [] else body[1..])))
    else if number == 8 then
      var bits :- BitStringFrom(body);
      Ok(Some(Bits(bits)))
    else if number == 12 then
      var id :- ObjectIdFrom(body);
      Ok(Some(Identifier(id)))
    else Ok(Some(Raw(body)))
  }

  /** `decode_application`. */
  function DecodeApplication(octets: Bytes): Result<Option<Decoded>> {
    if octets == [] then Ok(None) else
    var t :- ReadTag(octets, 0);
    if t.context || !t.kind.Value? then Ok(None) else Interpret(t.number, t.body)
  }

  function Meaning(p: Primitive): Decoded {
    match p
    case PBoolean(flag) => Truth(flag)
    case PUnsigned(n) => Number(n)
    case PEnumerated(n) => Number(n)
    case PSigned(n) => Number(n)
    case PReal(octets) => Float(octets)
    case PText(octets) => Text(octets)
    case POctets(octets) => Raw(octets)
    case PBits(bits) => Bits(bits)
    case PObject(id) => Identifier(id)
  }

  /** The bounds, checkable before encoding. A character string of 253 or 254 octets gets a length
      octet that means "longer length follows"; a bit string of 25..32 bits likewise; one of 33..48
      bits gets a header length of 6 or 7, which this decoder takes at face value. */
  predicate Survives(p: Primitive) {
    match p
    case PReal(octets) => |octets| == 4
    case PText(octets) => |octets| <= 252
    case POctets(octets) => |octets| < 0x1_0000
    case PBits(bits) => |bits| <= 24 || 33 <= |bits| <= 48
    case _ => true
  }

  /** Of a body of 254 or 255 octets, two or four are taken for the length. */
  lemma LongTextReads(e: Bytes, text: Bytes)
    requires 253 <= |text| <= 254 && e <= [0x75, 1 + |text|, 0] + text
    ensures var t := ReadTag(e, 0); t.Ok? ==> |t.value.body| < |text|
  {
    hide FromBytes;
  }

  /** No part of the encoding of so long a text reads back as the text. */
  lemma LongTextLost(v: Bytes, text: Bytes)
    requires 253 <= |text| <= 254 && v <= CharacterString(7, false, text).value
    ensures DecodeApplication(v) != Ok(Some(Text(text)))
  {
    hide FromBytes, ReadTag;
    LongTextReads(v, text);
  }

  lemma TextSurvives(text: Bytes)
    requires |text| <= 254
    ensures DecodeApplication(CharacterString(7, false, text).value) == Ok(Some(Text(text))) <==> |text| <= 252
  {
    hide FromBytes, ReadTag;
    var e := CharacterString(7, false, text).value;
    if |text| <= 252 {
      assert ([0] + text)[1..] == text;
    } else {
      LongTextLost(e, text);
    }
  }

  /** What one octet of header makes of the body that follows it. */
  lemma BitHeaderReads(e: Bytes, n: nat)
    requires 1 <= n <= 255 && |e| == 1 + n && e[0] == Or80(n) && e[1] < 8
    ensures n <= 4 || 6 <= n <= 7 ==> ReadTag(e, 0) == Ok(Tag(8, false, Value, e[1..], |e|))
    ensures !(n <= 4 || 6 <= n <= 7) ==>
              var t := ReadTag(e, 0);
              t.Ok? && t.value.kind.Value? && t.value.number == 8 && !t.value.context ==>
                |t.value.body| <= 7 && (n == 5 ==> |t.value.body| <= 4)
  {
  }

  lemma BitsSurvive(bits: seq<bool>)
    requires ApplicationBitString(bits).Ok?
    ensures DecodeApplication(ApplicationBitString(bits).value) == Ok(Some(Bits(bits))) <==> Survives(PBits(bits))
  {
    hide FromBytes, Unpacked, PackedFrom, ReadTag;
    var body := BitStringBody(bits);
    var e := ApplicationBitString(bits).value;
    BitStringRoundTrip(bits);
    assert e[1..] == body && e[1] == body[0];
    BitHeaderReads(e, |body|);
  }

  /** The application tag numbers of section 20.2.1.4. */
  function TypeNumber(p: Primitive): nat {
    match p
    case PBoolean(_) => 1
    case PUnsigned(_) => 2
    case PSigned(_) => 3
    case PReal(_) => 4
    case POctets(_) => 6
    case PText(_) => 7
    case PBits(_) => 8
    case PEnumerated(_) => 9
    case PObject(_) => 12
  }

  /** The content octets: the shortest form of a number, the character set 0 before a text. */
  function BodyOctets(p: Primitive): Bytes {
    match p
    case PBoolean(flag) => [if flag then 1 else 0]
    case PUnsigned(n) => UnsignedOctets(n)
    case PEnumerated(n) => UnsignedOctets(n)
    case PSigned(n) => SignedOctets(n)
    case PReal(octets) => octets
    case PText(octets) => [0] + octets
    case POctets(octets) => octets
    case PBits(bits) => BitStringBody(bits)
    case PObject(id) => ObjectIdOctets(id)
  }

  /** On the wire: within its bounds every primitive is one tag, with the number of its datatype and its
      content octets. */
  lemma PrimitiveLayout(p: Primitive)
    requires Encode(p).Ok? && Survives(p)
    ensures Lays(Encode(p).value, [Application(TypeNumber(p), BodyOctets(p))])
  {
    hide Lays, FromBytes, Encodes, Brief, UnsignedOctets, SignedOctets, ObjectIdOctets, CharacterString, OctetString,
         PackedFrom, BitStringBody;
    match p
    case PBoolean(flag) => BooleanLays(flag);
    case PUnsigned(n) => LaysBrief(2, false, UnsignedOctets(n));
    case PEnumerated(n) => LaysBrief(9, false, UnsignedOctets(n));
    case PSigned(n) => LaysBrief(3, false, SignedOctets(n));
    case PReal(octets) => LaysBrief(4, false, octets);
    case PText(octets) => LaysOne(Encode(p).value, 7, false, Value, [0] + octets);
    case POctets(octets) => LaysOne(Encode(p).value, 6, false, Value, octets);
    case PBits(bits) => BitsLay(bits);
    case PObject(id) => LaysBrief(12, false, ObjectIdOctets(id));
  }

  lemma BooleanLays(flag: bool)
    ensures Lays([if flag then 0x11 else 0x10], [Application(1, [if flag then 1 else 0])])
  {
    hide Lays;
    LaysOne([if flag then 0x11 else 0x10], 1, false, Value, [if flag then 1 else 0]);
  }

  lemma BitsLay(bits: seq<bool>)
    requires ApplicationBitString(bits).Ok? && Survives(PBits(bits))
    ensures Lays(ApplicationBitString(bits).value, [Application(8, BitStringBody(bits))])
  {
    hide Lays, PackedFrom, ReadTag;
    var body, e := BitStringBody(bits), ApplicationBitString(bits).value;
    assert e[1..] == body && e[1] == body[0];
    BitHeaderReads(e, |body|);
    LaysOne(e, 8, false, Value, body);
  }

  /** How many of the `n` bits of a bit string's octets are kept, for any count of unused bits: a count beyond
      the bits is taken, as a negative end of a slice is, from the end again. */
  function KeptBits(n: nat, unused: byte): nat {
    if unused <= n then n - unused else if unused <= 2 * n then 2 * n - unused else 0
  }

  lemma UnusedBits(unused: byte, octets: Bytes)
    ensures BitStringFrom([unused] + octets) == Ok(Unpacked(octets)[..KeptBits(8 * |octets|, unused)])
  {
    hide Prefix, KeptBits, Unpacked, BitStringFrom;
    UnpackedLength(octets);
    BodyRead(unused, octets);
    PrefixKept(Unpacked(octets), unused);
  }

  lemma UnpackedLength(octets: Bytes)
    ensures |Unpacked(octets)| == 8 * |octets|
  {
  }

  lemma BodyRead(unused: byte, octets: Bytes)
    ensures var bits := Unpacked(octets);
            BitStringFrom([unused] + octets) == Ok(if unused == 0 then bits else Prefix(bits, |bits| - unused))
  {
    hide Prefix, Unpacked;
    BodyParts(unused, octets);
  }

  lemma BodyParts(unused: byte, octets: Bytes)
    ensures var body: Bytes := [unused] + octets; body != [] && body[0] == unused && body[1..] == octets
  {
  }

  lemma PrefixKept(bits: seq<bool>, unused: byte)
    ensures KeptBits(|bits|, unused) <= |bits|
    ensures Prefix(bits, |bits| - unused) == bits[..KeptBits(|bits|, unused)]
    ensures unused == 0 ==> bits == bits[..KeptBits(|bits|, unused)]
  {
    var m := |bits| - unused;
    if unused <= |bits| {
      assert KeptBits(|bits|, unused) == m;
      assert unused == 0 ==> bits[..m] == bits;
    } else if |bits| + m >= 0 {
      assert KeptBits(|bits|, unused) == |bits| + m;
    }
  }

  /** NULL decodes to None, a double to its octets, a date or a time to raw octets. */
  lemma OthersDecode(quad: Bytes, double: Bytes)
    requires |quad| == 4 && |double| == 8
    ensures DecodeApplication(Brief(0, false, [])) == Ok(None)
    ensures DecodeApplication(Long(5, false, double)) == Ok(Some(Float(double)))
    ensures DecodeApplication(Brief(10, false, quad)) == Ok(Some(Raw(quad)))
    ensures DecodeApplication(Brief(11, false, quad)) == Ok(Some(Raw(quad)))
    ensures DecodeApplication(Opening(3)) == Ok(None) && DecodeApplication(Brief(2, true, quad)) == Ok(None)
    ensures DecodeApplication(Brief(7, false, [])) == Ok(Some(Text([])))
    ensures DecodeApplication(Brief(8, false, [])) == Err(Short) && DecodeApplication(Brief(4, false, [])) == Err(Short)
    ensures DecodeApplication(Brief(5, false, quad)) == Err(Short) && DecodeApplication(Brief(12, false, [])) == Err(Short)
  {
    hide FromBytes, ReadTag, Brief, Long, Opening;
  }

  /** Every primitive the encoders accept reads back as itself exactly within its bounds. */
  lemma PrimitiveRoundTrip(p: Primitive)
    requires Encode(p).Ok?
    ensures DecodeApplication(Encode(p).value) == Ok(Some(Meaning(p))) <==> Survives(p)
  {
    hide ReadTag, FromBytes;
    match p
    case PBoolean(flag) => BooleanReads(flag);
    case PText(octets) => TextSurvives(octets);
    case PBits(bits) => BitsSurvive(bits);
    case PSigned(n) =>
      Pow256Values();
      SignedFromTo(n, |SignedOctets(n)|);
    case PObject(id) => ObjectIdRoundTrip(id, []);
    case _ =>
  }

  lemma BooleanReads(flag: bool)
    ensures ReadTag([if flag then 0x11 else 0x10], 0) == Ok(Tag(1, false, Value, [if flag then 1 else 0], 1))
  {
  }
}
