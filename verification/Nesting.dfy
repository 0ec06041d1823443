/** Nested values: what the depth-counting walkers of the codec find, and when. */
module Nesting {
  import opened Octets
  import opened Tags

  /** Where the tag that closes the current group starts, and the position after it. */
  datatype End = End(start: nat, after: nat)

  /** The walk all the depth counters make: the first closing tag that brings `depth` to 0. */
  function CloseAt(data: Bytes, position: nat, depth: nat): (r: Result<End>)
    requires depth > 0
    ensures r.Ok? ==> position <= r.value.start < |data| && r.value.start < r.value.after
    decreases if position < |data| then |data| - position else 0
  {
    var t :- ReadTag(data, position);
    match t.kind
    case Value => CloseAt(data, t.next, depth)
    case Open => CloseAt(data, t.next, depth + 1)
    case Close => if depth == 1 then Ok(End(position, t.next)) else CloseAt(data, t.next, depth - 1)
  }

  /** From `position` on, `v` is whole tags that close `depth` groups more than they open,
      and never close a group that was not open. */
  predicate BalancedFrom(v: Bytes, position: nat, depth: nat)
    decreases if position < |v| then |v| - position else 0
  {
    if position >= |v| then position == |v| && depth == 0
    else
      Complete(v, position) &&
      var t := ReadTag(v, position).value;
      match t.kind
      case Value => BalancedFrom(v, t.next, depth)
      case Open => BalancedFrom(v, t.next, depth + 1)
      case Close => depth > 0 && BalancedFrom(v, t.next, depth - 1)
  }

  /** A sequence of complete primitives and matched groups. */
  predicate Balanced(v: Bytes) { BalancedFrom(v, 0, 0) }

  /** A closing tag of any one-octet number. */
  predicate ClosingOctet(b: byte) { b % 16 == 15 && b / 16 != 15 }

  lemma ClosingOctetReads(data: Bytes, p: nat)
    requires p < |data| && ClosingOctet(data[p])
    ensures ReadTag(data, p) == Ok(Tag(data[p] / 16, true, Close, [], p + 1))
  {
  }

  lemma {:induction false} WalkFrom(data: Bytes, q: nat, v: Bytes, p: nat, depth: nat)
    requires At(data, q, v) && p <= |v|
    requires q + |v| < |data| && ClosingOctet(data[q + |v|])
    ensures BalancedFrom(v, p, depth) <==> CloseAt(data, q + p, depth + 1) == Ok(End(q + |v|, q + |v| + 1))
    decreases |v| - p
  {
    hide ReadTag;
    if p == |v| {
      ClosingOctetReads(data, q + |v|);
    } else {
      if Complete(v, p) {
        Local(data, q, v, p);
        var t := ReadTag(v, p).value;
        match t.kind
        case Value => WalkFrom(data, q, v, t.next, depth);
        case Open => WalkFrom(data, q, v, t.next, depth + 1);
        case Close => if depth > 0 { WalkFrom(data, q, v, t.next, depth - 1); }
      } else if ReadTag(data, q + p).Ok? && ReadTag(data, q + p).value.next <= q + |v| {
        LocalBack(data, q, v, p);
      }
    }
  }

  /** The walk over an opened group finds the octets `v` and their closing tag exactly when
      `v` is balanced, whatever precedes and follows. */
  lemma WalkIffBalanced(data: Bytes, q: nat, v: Bytes, tag: TagNumber)
    requires At(data, q, v + Closing(tag))
    ensures Balanced(v) <==> CloseAt(data, q, 1) == Ok(End(q + |v|, q + |v| + 1))
  {
    hide ReadTag;
    AtSplit(data, q, v, Closing(tag));
    assert data[q + |v|] == data[q + |v|..q + |v| + 1][0];
    WalkFrom(data, q, v, 0, 0);
  }

  /** A value in opening and closing tags. */
  function Enclosed(tag: TagNumber, v: Bytes): Bytes { Opening(tag) + v + Closing(tag) }

  lemma EnclosedLength(tag: TagNumber, v: Bytes)
    ensures |Enclosed(tag, v)| == |v| + 2
  {
  }

  lemma EnclosedParts(data: Bytes, q: nat, tag: TagNumber, v: Bytes)
    requires At(data, q, Enclosed(tag, v))
    ensures ReadTag(data, q) == Ok(Tag(tag, true, Open, [], q + 1))
    ensures At(data, q + 1, v) && At(data, q + 1 + |v|, Closing(tag)) && At(data, q + 1, v + Closing(tag))
    ensures ReadTag(data, q + 1 + |v|) == Ok(Tag(tag, true, Close, [], q + 2 + |v|))
  {
    hide ReadTag, Opening, Closing;
    AtSplit(data, q, Opening(tag) + v, Closing(tag));
    AtSplit(data, q, Opening(tag), v);
    AtSplit(data, q + 1, v, Closing(tag));
    ReadAt(data, q, Opening(tag), tag, true, Open, []);
    ReadAt(data, q + 1 + |v|, Closing(tag), tag, true, Close, []);
  }

  /** Whatever a walk succeeds on was balanced: the converse for arbitrary data. */
  lemma {:induction false} WalkedFrom(data: Bytes, q: nat, p: nat, depth: nat, end: End)
    requires q <= p
    requires CloseAt(data, p, depth + 1) == Ok(end)
    ensures BalancedFrom(data[q..end.start], p - q, depth)
    decreases |data| - p
  {
    hide ReadTag;
    var v := data[q..end.start];
    var t := ReadTag(data, p).value;
    if p < end.start {
      assert t.next <= end.start;
      LocalBack(data, q, v, p - q);
      Local(data, q, v, p - q);
      match t.kind
      case Value => WalkedFrom(data, q, t.next, depth, end);
      case Open => WalkedFrom(data, q, t.next, depth + 1, end);
      case Close => WalkedFrom(data, q, t.next, depth - 1, end);
    }
  }

  lemma WalkedIsBalanced(data: Bytes, position: nat, end: End)
    requires CloseAt(data, position, 1) == Ok(end)
    ensures Balanced(data[position..end.start])
  {
    WalkedFrom(data, position, position, 0, end);
  }

  // ----- balanced values compose

  lemma {:induction false} BalancedThen(u: Bytes, v: Bytes, p: nat, depth: nat, more: nat)
    requires p <= |u| && BalancedFrom(u, p, depth) && BalancedFrom(v, 0, more)
    ensures BalancedFrom(u + v, p, depth + more)
    decreases |u| - p
  {
    hide ReadTag;
    var w := u + v;
    if p < |u| {
      assert At(w, 0, u);
      Local(w, 0, u, p);
      var t := ReadTag(u, p).value;
      match t.kind
      case Value => BalancedThen(u, v, t.next, depth, more);
      case Open => BalancedThen(u, v, t.next, depth + 1, more);
      case Close => BalancedThen(u, v, t.next, depth - 1, more);
    } else {
      BalancedMoved(w, |u|, v, 0, more);
    }
  }

  /** A suffix is balanced where it stands. */
  lemma {:induction false} BalancedMoved(w: Bytes, q: nat, v: Bytes, p: nat, depth: nat)
    requires At(w, q, v) && q + |v| == |w| && p <= |v|
    requires BalancedFrom(v, p, depth)
    ensures BalancedFrom(w, q + p, depth)
    decreases |v| - p
  {
    hide ReadTag;
    if p < |v| {
      Local(w, q, v, p);
      var t := ReadTag(v, p).value;
      match t.kind
      case Value => BalancedMoved(w, q, v, t.next, depth);
      case Open => BalancedMoved(w, q, v, t.next, depth + 1);
      case Close => BalancedMoved(w, q, v, t.next, depth - 1);
    }
  }

  lemma OneTag(e: Bytes, number: byte, context: bool, body: Bytes)
    requires Encodes(e, number, context, Value, body)
    ensures Balanced(e)
  {
    hide ReadTag;
    assert BalancedFrom(e, |e|, 0);
  }

  lemma BalancedConcat(u: Bytes, v: Bytes)
    requires Balanced(u) && Balanced(v)
    ensures Balanced(u + v)
  {
    BalancedThen(u, v, 0, 0, 0);
  }

  lemma BalancedGroup(open: Bytes, v: Bytes, close: Bytes, m: byte, n: byte)
    requires Encodes(open, m, true, Open, []) && Encodes(close, n, true, Close, []) && Balanced(v)
    ensures Balanced(open + v + close)
  {
    hide ReadTag;
    BalancedThen(v, close, 0, 0, 1);
    var w := open + (v + close);
    assert w == open + v + close;
    assert At(w, 0, open);
    Local(w, 0, open, 0);
    BalancedMoved(w, |open|, v + close, 0, 1);
  }

  // ----- an independent grammar: trees of primitives and groups

  /** Section 20.2.1: a primitive with content, or a group in opening and closing tags.
      An application BOOLEAN keeps its value in the length field, and `content` is that value. */
  datatype Item =
    | Primitive(number: byte, context: bool, content: Bytes)
    | Group(number: byte, items: seq<Item>)

  predicate IsBoolean(i: Item) { i.Primitive? && !i.context && i.number == 1 }

  predicate WellFormed(i: Item)
    decreases i, 0
  {
    match i
    case Primitive(number, context, content) =>
      number < 255 && (if IsBoolean(i) then |content| == 1 && content[0] < 2 else |content| < 0x1_0000_0000)
    case Group(number, items) => number < 255 && AllWellFormed(items)
  }

  predicate AllWellFormed(items: seq<Item>)
    decreases items
  {
    items == [] || (WellFormed(items[0]) && AllWellFormed(items[1..]))
  }

  function ItemHeader(number: byte, context: bool, field: nat): Bytes
    requires field < 8
  {
    var low := (if context then 8 else 0) + field;
    if number < 15 then [number * 16 + low] else [15 * 16 + low, number]
  }

  function LengthField(n: nat): nat { if n < 5 then n else 5 }

  function LengthOctets(n: nat): Bytes
    requires n < 0x1_0000_0000
  {
    if n < 5 then []
    else if n < 254 then [n]
    else if n < 0x1_0000 then [254] + Pack16(n)
    else [255] + Pack32(n)
  }

  function EncodeItem(i: Item): Bytes
    requires WellFormed(i)
    decreases i, 0
  {
    match i
    case Primitive(number, context, content) =>
      if IsBoolean(i) then ItemHeader(1, false, content[0])
      else ItemHeader(number, context, LengthField(|content|)) + LengthOctets(|content|) + content
    case Group(number, items) =>
      ItemHeader(number, true, 6) + EncodeItems(items) + ItemHeader(number, true, 7)
  }

  function EncodeItems(items: seq<Item>): Bytes
    requires AllWellFormed(items)
    decreases items
  {
    if items == [] then [] else EncodeItem(items[0]) + EncodeItems(items[1..])
  }

  lemma PrimitiveHeaderReads(e: Bytes, number: byte, context: bool, field: nat, length: nat, start: nat)
    requires number < 255 && field < 6 && ItemHeader(number, context, field) <= e
    requires ReadLength(e, |ItemHeader(number, context, field)|, field) == Ok((length, start))
    ensures context || number != 1 ==>
              ReadTag(e, 0) == Ok(Tag(number, context, Value, Slice(e, start, start + length), start + length))
    ensures !context && number == 1 && length < 256 ==>
              ReadTag(e, 0) == Ok(Tag(1, false, Value, [length], start))
  {
    hide FromBytes, ReadLength, Slice;
    var h := ItemHeader(number, context, field);
    assert e[0] == h[0];
    if number >= 15 {
      assert e[1] == h[1];
    }
  }

  /** Every encoded primitive reads back as itself, in every length and number form. */
  lemma PrimitiveReads(i: Item)
    requires i.Primitive? && WellFormed(i)
    ensures Encodes(EncodeItem(i), i.number, i.context, Value, i.content)
  {
    hide ReadTag, ReadLength;
    var e := EncodeItem(i);
    if IsBoolean(i) {
      assert i.content == [i.content[0]];
      LengthReads(e, 1, i.content[0]);
      PrimitiveHeaderReads(e, 1, false, i.content[0], i.content[0], 1);
    } else {
      var n := |i.content|;
      var h := ItemHeader(i.number, i.context, LengthField(n));
      assert e == h + LengthOctets(n) + i.content;
      LengthReads(e, |h|, n);
      PrimitiveHeaderReads(e, i.number, i.context, LengthField(n), n, |e| - n);
      assert Slice(e, |e| - n, |e|) == i.content;
    }
  }

  lemma LengthReads(e: Bytes, position: nat, n: nat)
    requires n < 0x1_0000_0000 && At(e, position, LengthOctets(n))
    ensures ReadLength(e, position, LengthField(n)) == Ok((n, position + |LengthOctets(n)|))
  {
    var l := LengthOctets(n);
    if n >= 5 {
      AtPart(e, position, l, 0, 1);
      assert e[position] == e[position..position + 1][0];
      AtPart(e, position, l, 1, |l|);
    }
  }

  lemma GroupHeaders(number: byte)
    requires number < 255
    ensures Encodes(ItemHeader(number, true, 6), number, true, Open, [])
    ensures Encodes(ItemHeader(number, true, 7), number, true, Close, [])
  {
    hide ReadTag, ItemHeader;
    GroupHeader(number, 6);
    GroupHeader(number, 7);
  }

  lemma GroupHeader(number: byte, field: nat)
    requires number < 255 && 6 <= field < 8
    ensures var e := ItemHeader(number, true, field);
            ReadTag(e, 0) == Ok(Tag(number, true, if field == 6 then Open else Close, [], |e|))
  {
    hide ReadLength, Slice, FromBytes;
  }

  lemma {:induction false} ItemBalanced(i: Item)
    requires WellFormed(i)
    ensures Balanced(EncodeItem(i))
    decreases i, 0
  {
    hide ReadTag;
    match i
    case Primitive(_, _, _) =>
      PrimitiveReads(i);
      OneTag(EncodeItem(i), i.number, i.context, i.content);
    case Group(number, items) =>
      ItemsBalanced(items);
      GroupHeaders(number);
      BalancedGroup(ItemHeader(number, true, 6), EncodeItems(items), ItemHeader(number, true, 7), number, number);
  }

  /** Every value of the grammar, nested to any depth, is balanced. */
  lemma {:induction false} ItemsBalanced(items: seq<Item>)
    requires AllWellFormed(items)
    ensures Balanced(EncodeItems(items))
    decreases items
  {
    if items != [] {
      ItemBalanced(items[0]);
      ItemsBalanced(items[1..]);
      BalancedConcat(EncodeItem(items[0]), EncodeItems(items[1..]));
    }
  }

  // ----- the walkers

  function AtEnd<T>(r: Result<End>, found: End --> T): Result<T>
    requires r.Ok? ==> found.requires(r.value)
  {
    match r case Ok(e) => Ok(found(e)) case Err(f) => Err(f)
  }

  /** `_constructed_end` (services) and, statement for statement, `_skip_constructed` (alarm). */
  method ConstructedEnd(octets: Bytes, position: nat) returns (r: Result<nat>)
    ensures r == AtEnd(CloseAt(octets, position, 1), (e: End) => e.after)
  {
    hide ReadTag;
    var depth, p := 1, position;
    ghost var start: nat := position;
    while depth != 0
      invariant depth >= 0
      invariant depth > 0 ==> CloseAt(octets, p, depth) == CloseAt(octets, position, 1)
      invariant depth == 0 ==> CloseAt(octets, position, 1) == Ok(End(start, p))
      decreases if p < |octets| then |octets| - p else 0, depth
    {
      var t := ReadTag(octets, p);
      if t.Err? {
        return Err(t.fault);
      }
      start := p;
      p := t.value.next;
      depth := depth + (if t.value.kind.Open? then 1 else if t.value.kind.Close? then -1 else 0);
    }
    return Ok(p);
  }

  /** `_constructed_body`: the octets inside the group, and the position after its closing tag. */
  method ConstructedBody(octets: Bytes, position: nat) returns (r: Result<(Bytes, nat)>)
    ensures r == AtEnd(CloseAt(octets, position, 1),
                       (e: End) requires position <= e.start <= |octets| => (octets[position..e.start], e.after))
  {
    hide ReadTag;
    var depth, p := 1, position;
    while true
      invariant depth > 0 && position <= p
      invariant CloseAt(octets, p, depth) == CloseAt(octets, position, 1)
      decreases if p < |octets| then |octets| - p else 0
    {
      var tagStart := p;
      var t := ReadTag(octets, p);
      if t.Err? {
        return Err(t.fault);
      }
      p := t.value.next;
      depth := depth + (if t.value.kind.Open? then 1 else if t.value.kind.Close? then -1 else 0);
      if depth == 0 {
        return Ok((octets[position..tagStart], p));
      }
    }
  }
}
