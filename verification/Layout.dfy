/** An independent reading of encoded octets, tag by tag: the reference the encoders are compared with. */
module Layout {
  import opened Octets
  import opened Tags
  import opened Nesting

  /** One tag: its number, class and kind, and the content of a primitive. */
  datatype Piece = Piece(number: byte, context: bool, kind: Kind, body: Bytes)

  /** The tags of `e`, all of them complete. */
  function Pieces(e: Bytes): Result<seq<Piece>> {
    if e == [] then Ok([]) else
    var t :- ReadTag(e, 0);
    if t.next > |e| then Err(Short) else
    var rest :- Pieces(e[t.next..]);
    Ok([Piece(t.number, t.context, t.kind, t.body)] + rest)
  }

  /** `e` is laid out as these tags. */
  ghost predicate Lays(e: Bytes, pieces: seq<Piece>) { Pieces(e) == Ok(pieces) }

  function Application(number: byte, body: Bytes): Piece { Piece(number, false, Value, body) }

  function Context(number: byte, body: Bytes): Piece { Piece(number, true, Value, body) }

  function Opens(number: byte): Piece { Piece(number, true, Open, []) }

  function Closes(number: byte): Piece { Piece(number, true, Close, []) }

  function Grouped(number: byte, pieces: seq<Piece>): seq<Piece> { [Opens(number)] + pieces + [Closes(number)] }

  lemma LaysNothing()
    ensures Lays([], [])
  {
  }

  lemma LaysOne(e: Bytes, number: byte, context: bool, kind: Kind, body: Bytes)
    requires Encodes(e, number, context, kind, body)
    ensures Lays(e, [Piece(number, context, kind, body)])
  {
    assert e != [];
    hide ReadTag;
    assert e[|e|..] == [];
    LaysNothing();
    assert [Piece(number, context, kind, body)] + [] == [Piece(number, context, kind, body)];
  }

  lemma ReadsFirst(x: Bytes, y: Bytes)
    requires Complete(x, 0)
    ensures ReadTag(x + y, 0) == ReadTag(x, 0)
  {
    hide ReadTag;
    AtTail([], x + y);
    assert [] + (x + y) == x + y;
    AtSplit(x + y, 0, x, y);
    Local(x + y, 0, x, 0);
  }

  /** The first tag and the rest. */
  lemma LaysFirst(e: Bytes, p: Piece, next: nat, ps: seq<Piece>)
    requires ReadTag(e, 0) == Ok(Tag(p.number, p.context, p.kind, p.body, next)) && next <= |e| && Lays(e[next..], ps)
    ensures Lays(e, [p] + ps)
  {
    assert e != [];
    hide ReadTag;
  }

  lemma LaysSplit(e: Bytes, ps: seq<Piece>) returns (p: Piece, next: nat)
    requires e != [] && Lays(e, ps)
    ensures ReadTag(e, 0) == Ok(Tag(p.number, p.context, p.kind, p.body, next)) && 0 < next <= |e|
    ensures ps != [] && ps == [p] + ps[1..] && Lays(e[next..], ps[1..])
  {
    var t := ReadTag(e, 0).value;
    p, next := Piece(t.number, t.context, t.kind, t.body), t.next;
    hide ReadTag;
  }

  lemma {:induction false} LaysBoth(x: Bytes, ps: seq<Piece>, y: Bytes, qs: seq<Piece>)
    requires Lays(x, ps) && Lays(y, qs)
    ensures Lays(x + y, ps + qs)
    decreases |x|
  {
    hide ReadTag, Lays;
    if x == [] {
      LaysOnlyNothing(ps);
      assert x + y == y && ps + qs == qs;
    } else {
      var p, next := LaysSplit(x, ps);
      ReadsFirst(x, y);
      LaysBoth(x[next..], ps[1..], y, qs);
      assert (x + y)[next..] == x[next..] + y;
      LaysFirst(x + y, p, next, ps[1..] + qs);
      assert ps + qs == [p] + (ps[1..] + qs);
    }
  }

  lemma LaysOnlyNothing(ps: seq<Piece>)
    requires Lays([], ps)
    ensures ps == []
  {
  }

  lemma LaysThree(a: Bytes, p: Piece, b: Bytes, q: Piece, c: Bytes, r: Piece)
    requires Lays(a, [p]) && Lays(b, [q]) && Lays(c, [r])
    ensures Lays(a + b + c, [p, q, r])
  {
    hide Lays;
    LaysBoth(a, [p], b, [q]);
    LaysBoth(a + b, [p] + [q], c, [r]);
    assert [p] + [q] + [r] == [p, q, r];
  }

  lemma LaysGroup(tag: TagNumber, v: Bytes, ps: seq<Piece>)
    requires Lays(v, ps)
    ensures Lays(Enclosed(tag, v), Grouped(tag, ps))
  {
    hide Lays, Opening, Closing, Encodes;
    LaysOne(Opening(tag), tag, true, Open, []);
    LaysOne(Closing(tag), tag, true, Close, []);
    LaysBoth(Opening(tag), [Opens(tag)], v, ps);
    LaysBoth(Opening(tag) + v, [Opens(tag)] + ps, Closing(tag), [Closes(tag)]);
  }

  lemma LaysContextUnsigned(tag: TagNumber, value: uint32)
    ensures Lays(ContextUnsigned(tag, value), [Context(tag, UnsignedOctets(value))])
  {
    hide ContextUnsigned, Lays, Encodes;
    LaysOne(ContextUnsigned(tag, value), tag, true, Value, UnsignedOctets(value));
  }

  lemma LaysContextObjectId(tag: TagNumber, o: ObjectId)
    ensures Lays(ContextObjectId(tag, o), [Context(tag, ObjectIdOctets(o))])
  {
    hide ContextObjectId, Lays, Encodes;
    LaysOne(ContextObjectId(tag, o), tag, true, Value, ObjectIdOctets(o));
  }

  lemma LaysBrief(tag: TagNumber, context: bool, body: Bytes)
    requires |body| < 5 && (context || tag != 1)
    ensures Lays(Brief(tag, context, body), [Piece(tag, context, Value, body)])
  {
    hide Brief, Lays, Encodes;
    LaysOne(Brief(tag, context, body), tag, context, Value, body);
  }

  lemma {:induction false} BalancedLays(v: Bytes, depth: nat)
    requires BalancedFrom(v, 0, depth)
    ensures Pieces(v).Ok?
    decreases |v|
  {
    hide ReadTag;
    if v != [] {
      var t := ReadTag(v, 0).value;
      var rest := v[t.next..];
      AtTail(v[..t.next], rest);
      assert v[..t.next] + rest == v;
      var d := if t.kind.Open? then depth + 1 else if t.kind.Close? then depth - 1 else depth;
      BalancedRest(v, t.next, 0, d);
      BalancedLays(rest, d);
    }
  }

  /** Every balanced value is whole tags. */
  lemma BalancedIsLaid(v: Bytes)
    requires Balanced(v)
    ensures Pieces(v).Ok?
  {
    BalancedLays(v, 0);
  }

  lemma {:induction false} BalancedRest(v: Bytes, q: nat, p: nat, depth: nat)
    requires q <= |v| && p <= |v| - q && BalancedFrom(v, q + p, depth)
    ensures BalancedFrom(v[q..], p, depth)
    decreases |v| - q - p
  {
    hide ReadTag;
    var w := v[q..];
    assert At(v, q, w);
    if p < |w| {
      var t := ReadTag(v, q + p).value;
      LocalBack(v, q, w, p);
      Local(v, q, w, p);
      var d := if t.kind.Open? then depth + 1 else if t.kind.Close? then depth - 1 else depth;
      BalancedRest(v, q, t.next - q, d);
    }
  }

  /** Looking for the tags from a position on. */
  lemma LaysAfter(head: Bytes, e: Bytes, pieces: seq<Piece>)
    requires Lays(e, pieces)
    ensures Lays((head + e)[|head|..], pieces)
  {
    assert (head + e)[|head|..] == e;
  }
}
