/** ReadPropertyMultiple (section 15.7 of ANSI/ASHRAE 135-2024): the client's request, the server's
    reading of it, the ACK, and the client's reading of that. */
module Multiple {
  import opened Octets
  import opened Tags
  import opened Nesting
  import opened Layout
  import opened Properties

  // ----- the request

  datatype Ref = Ref(property: uint32, index: Option<uint32>)
  datatype Specification = Specification(target: ObjectId, references: seq<Ref>)

  function RefOctets(r: Ref): Bytes { ContextUnsigned(0, r.property) + OptionalUnsigned(1, r.index) }

  function RefsOctets(refs: seq<Ref>): Bytes {
    if refs == [] then [] else RefOctets(refs[0]) + RefsOctets(refs[1..])
  }

  /** `read_access_specification`. */
  function SpecificationOctets(s: Specification): Bytes {
    ContextObjectId(0, s.target) + Enclosed(1, RefsOctets(s.references))
  }

  function SpecificationsOctets(specs: seq<Specification>): Bytes {
    if specs == [] then [] else SpecificationOctets(specs[0]) + SpecificationsOctets(specs[1..])
  }

  function MultipleRequest(invokeId: byte, specs: seq<Specification>): Bytes {
    ConfirmedRequest(invokeId, READ_PROPERTY_MULTIPLE, SpecificationsOctets(specs))
  }

  lemma {:induction false} RefsSnoc(refs: seq<Ref>, i: nat)
    requires i < |refs|
    ensures RefsOctets(refs[..i + 1]) == RefsOctets(refs[..i]) + RefOctets(refs[i])
    decreases i
  {
    hide RefOctets;
    if i == 0 {
      assert refs[..1][1..] == [];
      assert RefOctets(refs[0]) + [] == RefOctets(refs[0]);
    } else {
      assert refs[..i + 1][1..] == refs[1..][..i] && refs[..i][1..] == refs[1..][..i - 1];
      RefsSnoc(refs[1..], i - 1);
    }
  }

  /** `read_access_specification`, appending reference by reference. */
  method BuildSpecification(s: Specification) returns (out: Bytes)
    ensures out == SpecificationOctets(s)
  {
    hide *;
    var head := ContextObjectId(0, s.target) + Opening(1);
    out := head;
    NoRefs(s.references);
    for i := 0 to |s.references|
      invariant out == head + RefsOctets(s.references[..i])
    {
      RefsSnoc(s.references, i);
      out := out + RefOctets(s.references[i]);
    }
    out := out + Closing(1);
    SpecificationParts(s);
  }

  lemma NoRefs(refs: seq<Ref>)
    ensures RefsOctets(refs[..0]) == []
  {
  }

  lemma SpecificationParts(s: Specification)
    ensures SpecificationOctets(s) ==
            ContextObjectId(0, s.target) + Opening(1) + RefsOctets(s.references[..|s.references|]) + Closing(1)
  {
    hide ReadTag, Encodes;
    assert s.references[..|s.references|] == s.references;
  }

  /** Object [0] and, inside [1], property [0] and index [1] of each reference. */
  function RefPieces(refs: seq<Ref>): seq<Piece> {
    if refs == [] then []
    else [Context(0, UnsignedOctets(refs[0].property))] + OptionalPiece(1, refs[0].index) + RefPieces(refs[1..])
  }

  function SpecificationPieces(specs: seq<Specification>): seq<Piece> {
    if specs == [] then []
    else [Context(0, ObjectIdOctets(specs[0].target))] + Grouped(1, RefPieces(specs[0].references)) +
         SpecificationPieces(specs[1..])
  }

  lemma {:induction false} RefsLay(refs: seq<Ref>)
    ensures Lays(RefsOctets(refs), RefPieces(refs))
  {
    hide Lays, ContextUnsigned, OptionalUnsigned, OptionalPiece, Context, UnsignedOctets;
    if refs == [] {
      LaysNothing();
    } else {
      var r := refs[0];
      var p := Context(0, UnsignedOctets(r.property));
      LaysContextUnsigned(0, r.property);
      OptionalLays(1, r.index);
      LaysBoth(ContextUnsigned(0, r.property), [p], OptionalUnsigned(1, r.index), OptionalPiece(1, r.index));
      RefsLay(refs[1..]);
      LaysBoth(RefOctets(r), [p] + OptionalPiece(1, r.index), RefsOctets(refs[1..]), RefPieces(refs[1..]));
    }
  }

  lemma {:induction false} SpecificationsLay(specs: seq<Specification>)
    ensures Lays(SpecificationsOctets(specs), SpecificationPieces(specs))
  {
    hide Lays, ContextObjectId, Enclosed, RefsOctets, RefPieces, Context, Grouped, ObjectIdOctets;
    if specs == [] {
      LaysNothing();
    } else {
      var o, body, inner := specs[0].target, RefsOctets(specs[0].references), RefPieces(specs[0].references);
      var p := Context(0, ObjectIdOctets(o));
      LaysContextObjectId(0, o);
      RefsLay(specs[0].references);
      LaysGroup(1, body, inner);
      LaysBoth(ContextObjectId(0, o), [p], Enclosed(1, body), Grouped(1, inner));
      SpecificationsLay(specs[1..]);
      LaysBoth(SpecificationOctets(specs[0]), [p] + Grouped(1, inner),
               SpecificationsOctets(specs[1..]), SpecificationPieces(specs[1..]));
    }
  }

  /** On the wire: the header and every specification, tag by tag. */
  lemma RequestLayout(invokeId: byte, specs: seq<Specification>)
    ensures RequestLays(MultipleRequest(invokeId, specs), invokeId, 14, SpecificationPieces(specs))
  {
    hide Lays, SpecificationsOctets, SpecificationPieces;
    SpecificationsLay(specs);
    assert MultipleRequest(invokeId, specs)[4..] == SpecificationsOctets(specs);
  }

  // ----- the server's reading of it

  /** A Python dictionary: the keys in the order they were first inserted. */
  datatype Members = Members(order: seq<ObjectId>, lists: map<ObjectId, seq<nat>>)

  const NO_MEMBERS := Members([], map[])

  function Assign(m: Members, o: ObjectId, properties: seq<nat>): Members {
    Members(if o in m.lists then m.order else m.order + [o], m.lists[o := properties])
  }

  /** `read_access_specifications`. An array index ([1]) is passed over. */
  function SpecificationsFrom(value: Bytes, position: nat, current: Option<ObjectId>, m: Members): Result<Members>
    requires current.Some? ==> current.value in m.lists
    decreases if position < |value| then |value| - position else 0
  {
    if position >= |value| then Ok(m) else
    var t :- ReadTag(value, position);
    if t.kind.Value? && t.context && t.number == 0 && |t.body| == 4 && current.None? then
      var o :- ObjectIdFrom(t.body);
      SpecificationsFrom(value, t.next, Some(o), Assign(m, o, []))
    else if t.kind.Value? && t.context && t.number == 0 && current.Some? then
      var o := current.value;
      SpecificationsFrom(value, t.next, current, Assign(m, o, m.lists[o] + [FromBytes(t.body)]))
    else if t.kind.Close? && t.number == 1 then SpecificationsFrom(value, t.next, None, m)
    else SpecificationsFrom(value, t.next, current, m)
  }

  method ReadAccessSpecifications(value: Bytes) returns (r: Result<Members>)
    ensures r == SpecificationsFrom(value, 0, None, NO_MEMBERS)
  {
    hide ReadTag, FromBytes;
    var members, position := NO_MEMBERS, 0;
    var current: Option<ObjectId> := None;
    while position < |value|
      invariant current.Some? ==> current.value in members.lists
      invariant SpecificationsFrom(value, position, current, members) ==
                SpecificationsFrom(value, 0, None, NO_MEMBERS)
      decreases |value| - position
    {
      var t := ReadTag(value, position);
      if t.Err? {
        return Err(t.fault);
      }
      var tag := t.value;
      position := tag.next;
      if tag.kind.Value? && tag.context && tag.number == 0 && |tag.body| == 4 && current.None? {
        var o := ObjectIdFrom(tag.body);
        current := Some(o.value);
        members := Assign(members, o.value, []);
      } else if tag.kind.Value? && tag.context && tag.number == 0 && current.Some? {
        members := Assign(members, current.value, members.lists[current.value] + [FromBytes(tag.body)]);
      } else if tag.kind.Close? && tag.number == 1 {
        current := None;
      }
    }
    return Ok(members);
  }

  function PropertiesOf(refs: seq<Ref>): (r: seq<nat>)
    ensures |r| == |refs| && forall i | 0 <= i < |r| :: r[i] == refs[i].property
  {
    seq(|refs|, i requires 0 <= i < |refs| => refs[i].property)
  }

  /** What the request means to the server: for a repeated object, the last specification. */
  function Merged(specs: seq<Specification>, m: Members): Members {
    if specs == [] then m
    else Merged(specs[1..], Assign(m, specs[0].target, PropertiesOf(specs[0].references)))
  }

  /** What the server passes over in a request: application tags, opening tags, closing tags of other numbers,
      context primitives other than [0], and a [0] of another length before an object was named. */
  lemma StrayPassed(value: Bytes, q: nat, x: Bytes, number: byte, context: bool, kind: Kind, body: Bytes,
                    current: Option<ObjectId>, m: Members)
    requires current.Some? ==> current.value in m.lists
    requires At(value, q, x) && Encodes(x, number, context, kind, body)
    requires kind == Open || (kind == Close && number != 1) || (kind == Value && !context) ||
             (kind == Value && number != 0) || (kind == Value && |body| != 4 && current.None?)
    ensures SpecificationsFrom(value, q, current, m) == SpecificationsFrom(value, q + |x|, current, m)
  {
    hide At, Encodes, ReadTag, FromBytes, ObjectIdFrom;
    ReadAt(value, q, x, number, context, kind, body);
  }

  /** Where an object is first named. */
  function FirstAsked(specs: seq<Specification>, o: ObjectId): nat {
    if specs == [] || specs[0].target == o then 0 else 1 + FirstAsked(specs[1..], o)
  }

  /** The objects stand in the order in which they were first named, after those that stood there before. */
  lemma {:induction false} MergedOrder(specs: seq<Specification>, m: Members)
    requires forall o :: o in m.order <==> o in m.lists
    ensures m.order <= Merged(specs, m).order
    ensures forall i, j | |m.order| <= i < j < |Merged(specs, m).order| ::
              FirstAsked(specs, Merged(specs, m).order[i]) < FirstAsked(specs, Merged(specs, m).order[j])
    ensures forall i | |m.order| <= i < |Merged(specs, m).order| :: Merged(specs, m).order[i] !in m.lists
    decreases |specs|
  {
    hide PropertiesOf;
    if specs != [] {
      var o := specs[0].target;
      var n := Assign(m, o, PropertiesOf(specs[0].references));
      MergedOrder(specs[1..], n);
      var order := Merged(specs, m).order;
      assert order == Merged(specs[1..], n).order;
      forall i, j | |m.order| <= i < j < |order|
        ensures FirstAsked(specs, order[i]) < FirstAsked(specs, order[j])
      {
        assert order[j] !in n.lists && order[j] != o;
        if i < |n.order| {
          assert order[i] == n.order[i] == o;
        } else {
          assert order[i] != o;
        }
      }
    }
  }

  lemma RefRead(value: Bytes, q: nat, r: Ref, o: ObjectId, m: Members)
    requires At(value, q, RefOctets(r)) && o in m.lists
    ensures SpecificationsFrom(value, q, Some(o), m) ==
            SpecificationsFrom(value, q + |RefOctets(r)|, Some(o), Assign(m, o, m.lists[o] + [r.property]))
  {
    hide At, Encodes, ReadTag, ContextUnsigned, FromBytes;
    var a, b := ContextUnsigned(0, r.property), OptionalUnsigned(1, r.index);
    AtSplit(value, q, a, b);
    ReadAt(value, q, a, 0, true, Value, UnsignedOctets(r.property));
    if r.index.Some? {
      ReadAt(value, q + |a|, b, 1, true, Value, UnsignedOctets(r.index.value));
    }
  }

  lemma {:induction false} RefsRead(value: Bytes, q: nat, refs: seq<Ref>, o: ObjectId, m: Members)
    requires At(value, q, RefsOctets(refs)) && o in m.lists
    ensures SpecificationsFrom(value, q, Some(o), m) ==
            SpecificationsFrom(value, q + |RefsOctets(refs)|, Some(o), Assign(m, o, m.lists[o] + PropertiesOf(refs)))
    decreases |refs|
  {
    hide At, RefOctets, SpecificationsFrom;
    if refs == [] {
      assert m.lists[o] + PropertiesOf(refs) == m.lists[o];
      assert m.lists[o := m.lists[o]] == m.lists;
    } else {
      var r := refs[0];
      AtSplit(value, q, RefOctets(r), RefsOctets(refs[1..]));
      RefRead(value, q, r, o, m);
      var n := Assign(m, o, m.lists[o] + [r.property]);
      RefsRead(value, q + |RefOctets(r)|, refs[1..], o, n);
      assert n.lists[o] + PropertiesOf(refs[1..]) == m.lists[o] + PropertiesOf(refs);
      assert n.lists[o := m.lists[o] + PropertiesOf(refs)] == m.lists[o := m.lists[o] + PropertiesOf(refs)];
    }
  }

  lemma SpecificationRead(value: Bytes, q: nat, s: Specification, m: Members)
    requires At(value, q, SpecificationOctets(s))
    ensures SpecificationsFrom(value, q, None, m) ==
            SpecificationsFrom(value, q + |SpecificationOctets(s)|, None,
                               Assign(m, s.target, PropertiesOf(s.references)))
  {
    hide At, Encodes, ReadTag, ContextObjectId, FromBytes, RefsOctets, Enclosed, PropertiesOf, ObjectIdFrom;
    var a, refs := ContextObjectId(0, s.target), RefsOctets(s.references);
    AtSplit(value, q, a, Enclosed(1, refs));
    ReadAt(value, q, a, 0, true, Value, ObjectIdOctets(s.target));
    ObjectIdRoundTrip(s.target, []);
    EnclosedParts(value, q + |a|, 1, refs);
    EnclosedLength(1, refs);
    var m0 := Assign(m, s.target, []);
    RefsRead(value, q + |a| + 1, s.references, s.target, m0);
    assert m0.lists[s.target] + PropertiesOf(s.references) == PropertiesOf(s.references);
    assert Assign(m0, s.target, PropertiesOf(s.references)) == Assign(m, s.target, PropertiesOf(s.references));
  }

  lemma SpecificationsDone(value: Bytes, m: Members)
    ensures SpecificationsFrom(value, |value|, None, m) == Ok(m)
  {
  }

  lemma {:induction false} SpecificationsRead(value: Bytes, q: nat, specs: seq<Specification>, m: Members)
    requires At(value, q, SpecificationsOctets(specs)) && q + |SpecificationsOctets(specs)| == |value|
    ensures SpecificationsFrom(value, q, None, m) == Ok(Merged(specs, m))
    decreases |specs|
  {
    hide At, SpecificationOctets, Assign, SpecificationsFrom, PropertiesOf;
    if specs == [] {
      SpecificationsDone(value, m);
    } else {
      AtSplit(value, q, SpecificationOctets(specs[0]), SpecificationsOctets(specs[1..]));
      SpecificationRead(value, q, specs[0], m);
      SpecificationsRead(value, q + |SpecificationOctets(specs[0])|, specs[1..],
                         Assign(m, specs[0].target, PropertiesOf(specs[0].references)));
    }
  }

  /** The server reads from `read_property_multiple_request` what it was given, up to the merging of
      repeated objects and the loss of the array indices. */
  lemma RequestRead(invokeId: byte, specs: seq<Specification>)
    ensures SpecificationsFrom(Slice(MultipleRequest(invokeId, specs), 4, 4 + |MultipleRequest(invokeId, specs)|),
                               0, None, NO_MEMBERS) == Ok(Merged(specs, NO_MEMBERS))
    ensures forall i, j | 0 <= i < j < |Merged(specs, NO_MEMBERS).order| ::
              FirstAsked(specs, Merged(specs, NO_MEMBERS).order[i]) <
              FirstAsked(specs, Merged(specs, NO_MEMBERS).order[j])
  {
    hide SpecificationsOctets, SpecificationsFrom;
    var apdu, body := MultipleRequest(invokeId, specs), SpecificationsOctets(specs);
    assert apdu[4..] == body;
    assert Slice(apdu, 4, 4 + |apdu|) == body;
    SpecificationsRead(body, 0, specs, NO_MEMBERS);
    MergedOrder(specs, NO_MEMBERS);
  }

  // ----- the ACK

  datatype Reading = Reading(property: uint32, value: Option<Bytes>)
  datatype Access = Access(target: ObjectId, readings: seq<Reading>)

  function ReadingOctets(r: Reading): Bytes {
    ContextUnsigned(2, r.property) +
    (if r.value.None? then Enclosed(5, ErrorCodes(2, 32)) else Enclosed(4, r.value.value))
  }

  function ReadingsOctets(rs: seq<Reading>): Bytes {
    if rs == [] then [] else ReadingOctets(rs[0]) + ReadingsOctets(rs[1..])
  }

  function AccessOctets(a: Access): Bytes { ContextObjectId(0, a.target) + Enclosed(1, ReadingsOctets(a.readings)) }

  function AccessesOctets(accesses: seq<Access>): Bytes {
    if accesses == [] then [] else AccessOctets(accesses[0]) + AccessesOctets(accesses[1..])
  }

  /** `read_property_multiple_ack`. */
  function MultipleAck(invokeId: byte, accesses: seq<Access>): Bytes {
    [0x30, invokeId, READ_PROPERTY_MULTIPLE] + AccessesOctets(accesses)
  }

  lemma {:induction false} ReadingsSnoc(rs: seq<Reading>, i: nat)
    requires i < |rs|
    ensures ReadingsOctets(rs[..0]) == []
    ensures ReadingsOctets(rs[..i + 1]) == ReadingsOctets(rs[..i]) + ReadingOctets(rs[i])
    decreases i
  {
    hide ReadingOctets;
    if i == 0 {
      assert rs[..1][1..] == [];
      assert ReadingOctets(rs[0]) + [] == ReadingOctets(rs[0]);
    } else {
      assert rs[..i + 1][1..] == rs[1..][..i] && rs[..i][1..] == rs[1..][..i - 1];
      ReadingsSnoc(rs[1..], i - 1);
    }
  }

  lemma {:induction false} AccessesSnoc(accesses: seq<Access>, i: nat)
    requires i < |accesses|
    ensures AccessesOctets(accesses[..i + 1]) == AccessesOctets(accesses[..i]) + AccessOctets(accesses[i])
    decreases i
  {
    hide AccessOctets;
    if i == 0 {
      assert accesses[..1][1..] == [];
      assert AccessOctets(accesses[0]) + [] == AccessOctets(accesses[0]);
    } else {
      assert accesses[..i + 1][1..] == accesses[1..][..i] && accesses[..i][1..] == accesses[1..][..i - 1];
      AccessesSnoc(accesses[1..], i - 1);
    }
  }

  lemma AccessParts(a: Access)
    ensures AccessOctets(a) ==
            ContextObjectId(0, a.target) + Opening(1) + ReadingsOctets(a.readings[..|a.readings|]) + Closing(1)
    ensures ReadingsOctets(a.readings[..0]) == []
  {
    hide ReadTag, Encodes;
    assert a.readings[..|a.readings|] == a.readings;
  }

  lemma NoAccesses(accesses: seq<Access>)
    ensures AccessesOctets(accesses[..0]) == [] && accesses[..|accesses|] == accesses
  {
  }

  /** `read_property_multiple_ack`, object by object and property by property. */
  method BuildMultipleAck(invokeId: byte, accesses: seq<Access>) returns (apdu: Bytes)
    ensures apdu == MultipleAck(invokeId, accesses)
  {
    hide AccessesOctets, AccessOctets, ReadingsOctets, ReadingOctets, ContextObjectId, Opening, Closing;
    var body: Bytes := [];
    NoAccesses(accesses);
    for i := 0 to |accesses|
      invariant body == AccessesOctets(accesses[..i])
    {
      var a := accesses[i];
      AccessParts(a);
      AccessesSnoc(accesses, i);
      var head := ContextObjectId(0, a.target) + Opening(1);
      var one := head;
      for j := 0 to |a.readings|
        invariant one == head + ReadingsOctets(a.readings[..j])
      {
        ReadingsSnoc(a.readings, j);
        one := one + ReadingOctets(a.readings[j]);
      }
      body := body + (one + Closing(1));
    }
    apdu := [0x30, invokeId, READ_PROPERTY_MULTIPLE] + body;
  }

  // ----- the client's reading of it

  datatype Key = Key(property: Option<nat>, index: Option<nat>)
  datatype Outcome = ValueOctets(octets: Bytes) | AccessError(codes: seq<nat>)
  type Row = map<Key, Outcome>
  type Results = map<ObjectId, Row>

  datatype Client = Client(results: Results, current: Option<ObjectId>, property: Option<nat>, index: Option<nat>)

  const NO_RESULTS := Client(map[], None, None, None)

  ghost predicate Consistent(c: Client) { c.current.Some? ==> c.current.value in c.results }

  function Entered(c: Client, o: ObjectId): Client {
    c.(results := if o in c.results then c.results else c.results[o := map[]], current := Some(o))
  }

  function Recorded(c: Client, outcome: Outcome): Client
    requires c.current.Some? && c.current.value in c.results
  {
    var o := c.current.value;
    c.(results := c.results[o := c.results[o][Key(c.property, c.index) := outcome]])
  }

  /** The inside of [4] is the value, the inside of [5] an error class and code. */
  function OutcomeOf(number: byte, inner: Bytes): Result<Outcome> {
    if number == 4 then Ok(ValueOctets(inner)) else
    var values :- ApplicationValues(inner, 0, []);
    Ok(AccessError(FirstTwo(values)))
  }

  function ResultsFrom(apdu: Bytes, position: nat, c: Client): Result<Results>
    requires Consistent(c)
    decreases if position < |apdu| then |apdu| - position else 0
  {
    if position >= |apdu| then Ok(c.results) else
    var t :- ReadTag(apdu, position);
    if t.kind.Value? && t.context && t.number == 0 then
      var o :- ObjectIdFrom(t.body);
      ResultsFrom(apdu, t.next, Entered(c, o))
    else if t.kind.Value? && t.context && t.number == 2 then
      ResultsFrom(apdu, t.next, c.(property := Some(FromBytes(t.body)), index := None))
    else if t.kind.Value? && t.context && t.number == 3 then
      ResultsFrom(apdu, t.next, c.(index := Some(FromBytes(t.body))))
    else if t.kind.Open? && (t.number == 4 || t.number == 5) && c.current.Some? then
      var end :- CloseAt(apdu, t.next, 1);
      var outcome :- OutcomeOf(t.number, apdu[t.next..end.start]);
      ResultsFrom(apdu, end.after, Recorded(c, outcome))
    else ResultsFrom(apdu, t.next, c)
  }

  /** `parse_read_property_multiple_ack`, of a ComplexACK for this service. */
  function ParseMultipleAck(apdu: Bytes): Result<Option<Results>> { Caught(ResultsFrom(apdu, 3, NO_RESULTS)) }

  method ParseReadPropertyMultipleAck(apdu: Bytes) returns (r: Result<Option<Results>>)
    ensures r == ParseMultipleAck(apdu)
  {
    hide ReadTag, FromBytes, CloseAt, ApplicationValues, ObjectIdFrom, Entered, Recorded;
    var c, position := NO_RESULTS, 3;
    while position < |apdu|
      invariant Consistent(c) && ResultsFrom(apdu, position, c) == ResultsFrom(apdu, 3, NO_RESULTS)
      decreases |apdu| - position
    {
      var t := ReadTag(apdu, position);
      if t.Err? {
        return Caught(t.PropagateFailure());
      }
      var tag := t.value;
      position := tag.next;
      if tag.kind.Value? && tag.context && tag.number == 0 {
        var o := ObjectIdFrom(tag.body);
        if o.Err? {
          return Caught(o.PropagateFailure());
        }
        EnteredConsistent(c, o.value);
        c := Entered(c, o.value);
      } else if tag.kind.Value? && tag.context && tag.number == 2 {
        c := c.(property := Some(FromBytes(tag.body)), index := None);
      } else if tag.kind.Value? && tag.context && tag.number == 3 {
        c := c.(index := Some(FromBytes(tag.body)));
      } else if tag.kind.Open? && (tag.number == 4 || tag.number == 5) && c.current.Some? {
        var body := ConstructedBody(apdu, position);
        if body.Err? {
          return Caught(body.PropagateFailure());
        }
        var inner, after := body.value.0, body.value.1;
        var outcome := ValueOctets(inner);
        if tag.number == 5 {
          var values := CollectApplicationValues(inner);
          if values.Err? {
            return Caught(values.PropagateFailure());
          }
          outcome := AccessError(FirstTwo(values.value));
        }
        position := after;
        RecordedConsistent(c, outcome);
        c := Recorded(c, outcome);
      }
    }
    return Ok(Some(c.results));
  }

  /** Meeting an object again keeps what was recorded for it and for every other. */
  lemma EnteredConsistent(c: Client, o: ObjectId)
    ensures Consistent(Entered(c, o)) && Entered(c, o).current == Some(o)
    ensures forall x | x in c.results :: x in Entered(c, o).results && Entered(c, o).results[x] == c.results[x]
  {
  }

  lemma RecordedConsistent(c: Client, outcome: Outcome)
    requires Consistent(c) && c.current.Some?
    ensures Consistent(Recorded(c, outcome))
  {
  }

  // ----- the client reads the ACK exactly

  /** A result as the standard has it: of a property or of one element of it, a value or an error. */
  datatype Content = Holds(value: Bytes) | Lacks(errorClass: uint32, errorCode: uint32)
  datatype Entry = Entry(property: uint32, index: Option<uint32>, content: Content)
  datatype Listing = Listing(target: ObjectId, entries: seq<Entry>)

  function ContentOctets(c: Content): Bytes {
    match c
    case Holds(value) => Enclosed(4, value)
    case Lacks(errorClass, errorCode) => Enclosed(5, ErrorCodes(errorClass, errorCode))
  }

  function EntryOctets(e: Entry): Bytes {
    ContextUnsigned(2, e.property) + OptionalUnsigned(3, e.index) + ContentOctets(e.content)
  }

  function EntriesOctets(es: seq<Entry>): Bytes {
    if es == [] then [] else EntryOctets(es[0]) + EntriesOctets(es[1..])
  }

  function ListingOctets(l: Listing): Bytes { ContextObjectId(0, l.target) + Enclosed(1, EntriesOctets(l.entries)) }

  function ListingsOctets(ls: seq<Listing>): Bytes {
    if ls == [] then [] else ListingOctets(ls[0]) + ListingsOctets(ls[1..])
  }

  function OutcomeFor(c: Content): Outcome {
    match c
    case Holds(value) => ValueOctets(value)
    case Lacks(errorClass, errorCode) => AccessError([errorClass, errorCode])
  }

  function EntryKey(e: Entry): Key { Key(Some(e.property), Natural(e.index)) }

  predicate BalancedEntry(e: Entry) { e.content.Holds? ==> Balanced(e.content.value) }

  predicate BalancedEntries(es: seq<Entry>) { forall i | 0 <= i < |es| :: BalancedEntry(es[i]) }

  predicate BalancedListings(ls: seq<Listing>) { forall i | 0 <= i < |ls| :: BalancedEntries(ls[i].entries) }

  function Taken(c: Client, e: Entry): Client
    requires c.current.Some? && c.current.value in c.results
  {
    Recorded(c.(property := Some(e.property), index := Natural(e.index)), OutcomeFor(e.content))
  }

  function TakenAll(c: Client, es: seq<Entry>): (r: Client)
    requires c.current.Some? && c.current.value in c.results
    ensures r.current == c.current && r.results.Keys == c.results.Keys
    decreases |es|
  {
    if es == [] then c else TakenAll(Taken(c, es[0]), es[1..])
  }

  lemma ContentRead(apdu: Bytes, q: nat, content: Content, c: Client)
    requires (content.Holds? ==> Balanced(content.value)) && Consistent(c) && c.current.Some?
    requires At(apdu, q, ContentOctets(content))
    ensures ResultsFrom(apdu, q, c) ==
            ResultsFrom(apdu, q + |ContentOctets(content)|, Recorded(c, OutcomeFor(content)))
  {
    hide ReadTag, Enclosed, Balanced, CloseAt, ApplicationValues, ErrorCodes, FirstTwo, Recorded, FromBytes;
    var inner := if content.Lacks? then ErrorCodes(content.errorClass, content.errorCode) else content.value;
    var tag := if content.Lacks? then 5 else 4;
    if content.Lacks? {
      ErrorCodesRead(content.errorClass, content.errorCode);
    }
    EnclosedParts(apdu, q, tag, inner);
    EnclosedLength(tag, inner);
    WalkIffBalanced(apdu, q + 1, inner, tag);
    assert OutcomeOf(tag, inner) == Ok(OutcomeFor(content));
    assert apdu[q + 1..q + 1 + |inner|] == inner;
    RecordedConsistent(c, OutcomeFor(content));
  }

  lemma EntryRead(apdu: Bytes, q: nat, e: Entry, c: Client)
    requires At(apdu, q, EntryOctets(e)) && BalancedEntry(e) && Consistent(c) && c.current.Some?
    ensures Consistent(Taken(c, e))
    ensures ResultsFrom(apdu, q, c) == ResultsFrom(apdu, q + |EntryOctets(e)|, Taken(c, e))
  {
    hide At, Encodes, ContextUnsigned, OptionalUnsigned, ContentOctets, Recorded, ResultsFrom, Balanced, OutcomeFor,
         UnsignedOctets;
    var a, b := ContextUnsigned(2, e.property), OptionalUnsigned(3, e.index);
    AtSplit(apdu, q, a + b, ContentOctets(e.content));
    AtSplit(apdu, q, a, b);
    ReferenceNamed(apdu, q, e.property, e.index, c);
    var d := c.(property := Some(e.property), index := Natural(e.index));
    RecordedConsistent(d, OutcomeFor(e.content));
    ContentRead(apdu, q + |a| + |b|, e.content, d);
  }

  lemma ReferenceNamed(apdu: Bytes, q: nat, property: uint32, index: Option<uint32>, c: Client)
    requires Consistent(c)
    requires At(apdu, q, ContextUnsigned(2, property))
    requires At(apdu, q + |ContextUnsigned(2, property)|, OptionalUnsigned(3, index))
    ensures ResultsFrom(apdu, q, c) ==
            ResultsFrom(apdu, q + |ContextUnsigned(2, property)| + |OptionalUnsigned(3, index)|,
                        c.(property := Some(property), index := Natural(index)))
  {
    hide At, Encodes, ReadTag, ContextUnsigned, FromBytes;
    var a, b := ContextUnsigned(2, property), OptionalUnsigned(3, index);
    ReadAt(apdu, q, a, 2, true, Value, UnsignedOctets(property));
    if index.Some? {
      ReadAt(apdu, q + |a|, b, 3, true, Value, UnsignedOctets(index.value));
    }
  }

  lemma {:induction false} EntriesRead(apdu: Bytes, q: nat, es: seq<Entry>, c: Client)
    requires At(apdu, q, EntriesOctets(es)) && BalancedEntries(es) && Consistent(c) && c.current.Some?
    ensures Consistent(TakenAll(c, es))
    ensures ResultsFrom(apdu, q, c) == ResultsFrom(apdu, q + |EntriesOctets(es)|, TakenAll(c, es))
    decreases |es|
  {
    hide At, EntryOctets, ResultsFrom, Taken, BalancedEntry;
    if es != [] {
      AtSplit(apdu, q, EntryOctets(es[0]), EntriesOctets(es[1..]));
      assert BalancedEntry(es[0]);
      TakenKeeps(c, es[0]);
      EntryRead(apdu, q, es[0], c);
      EntriesRead(apdu, q + |EntryOctets(es[0])|, es[1..], Taken(c, es[0]));
    }
  }

  lemma TakenKeeps(c: Client, e: Entry)
    requires c.current.Some? && c.current.value in c.results
    ensures Taken(c, e).current == c.current && Taken(c, e).results.Keys == c.results.Keys
  {
  }

  lemma ListingRead(apdu: Bytes, q: nat, l: Listing, c: Client)
    requires At(apdu, q, ListingOctets(l)) && BalancedEntries(l.entries) && Consistent(c)
    ensures Consistent(TakenAll(Entered(c, l.target), l.entries))
    ensures ResultsFrom(apdu, q, c) ==
            ResultsFrom(apdu, q + |ListingOctets(l)|, TakenAll(Entered(c, l.target), l.entries))
  {
    hide At, Encodes, ReadTag, ContextObjectId, FromBytes, Enclosed, EntriesOctets, BalancedEntries, TakenAll,
         ObjectIdFrom, Entered;
    var h, es := ContextObjectId(0, l.target), EntriesOctets(l.entries);
    AtSplit(apdu, q, h, Enclosed(1, es));
    ReadAt(apdu, q, h, 0, true, Value, ObjectIdOctets(l.target));
    ObjectIdRoundTrip(l.target, []);
    EnclosedParts(apdu, q + |h|, 1, es);
    EnclosedLength(1, es);
    EnteredConsistent(c, l.target);
    EntriesRead(apdu, q + |h| + 1, l.entries, Entered(c, l.target));
  }

  function TakenListings(c: Client, ls: seq<Listing>): Client
    decreases |ls|
  {
    if ls == [] then c else TakenListings(TakenAll(Entered(c, ls[0].target), ls[0].entries), ls[1..])
  }

  lemma ResultsDone(apdu: Bytes, c: Client)
    requires Consistent(c)
    ensures ResultsFrom(apdu, |apdu|, c) == Ok(c.results)
  {
  }

  lemma {:induction false} ListingsRead(apdu: Bytes, q: nat, ls: seq<Listing>, c: Client)
    requires At(apdu, q, ListingsOctets(ls)) && q + |ListingsOctets(ls)| == |apdu|
    requires BalancedListings(ls) && Consistent(c)
    ensures ResultsFrom(apdu, q, c) == Ok(TakenListings(c, ls).results)
    decreases |ls|
  {
    hide At, ListingOctets, TakenAll, BalancedEntries, ResultsFrom, Entered;
    if ls == [] {
      ResultsDone(apdu, c);
    } else {
      AtSplit(apdu, q, ListingOctets(ls[0]), ListingsOctets(ls[1..]));
      EnteredConsistent(c, ls[0].target);
      ListingRead(apdu, q, ls[0], c);
      ListingsRead(apdu, q + |ListingOctets(ls[0])|, ls[1..], TakenAll(Entered(c, ls[0].target), ls[0].entries));
    }
  }

  /** What the client passes over in an ACK: application tags, closing tags, context primitives other than [0],
      [2] and [3], and opening tags other than [4] and [5] - and those, before an object was named. */
  lemma StrayResult(apdu: Bytes, q: nat, x: Bytes, number: byte, context: bool, kind: Kind, body: Bytes, c: Client)
    requires Consistent(c) && At(apdu, q, x) && Encodes(x, number, context, kind, body)
    requires kind == Close || (kind == Value && !context) || (kind == Value && number !in {0, 2, 3}) ||
             (kind == Open && (number !in {4, 5} || c.current.None?))
    ensures ResultsFrom(apdu, q, c) == ResultsFrom(apdu, q + |x|, c)
  {
    hide At, Encodes, ReadTag, FromBytes, ObjectIdFrom, CloseAt, OutcomeOf, Entered, Recorded;
    ReadAt(apdu, q, x, number, context, kind, body);
  }

  // ----- the dictionary, said without the reading

  /** The content of the last entry for this object and key. */
  function LastOf(flat: seq<(ObjectId, Entry)>, o: ObjectId, k: Key): Option<Content> {
    if flat == [] then None
    else
      var (x, e) := flat[|flat| - 1];
      if x == o && EntryKey(e) == k then Some(e.content) else LastOf(flat[..|flat| - 1], o, k)
  }

  function FlatEntries(o: ObjectId, es: seq<Entry>): seq<(ObjectId, Entry)> {
    if es == [] then [] else [(o, es[0])] + FlatEntries(o, es[1..])
  }

  function Flat(ls: seq<Listing>): seq<(ObjectId, Entry)> {
    if ls == [] then [] else FlatEntries(ls[0].target, ls[0].entries) + Flat(ls[1..])
  }

  /** Each object's row has exactly the keys that occur, each with its last content. */
  ghost predicate Matches(results: Results, flat: seq<(ObjectId, Entry)>) {
    forall o, k :: match LastOf(flat, o, k)
                   case None => o !in results || k !in results[o]
                   case Some(content) => o in results && k in results[o] && results[o][k] == OutcomeFor(content)
  }

  lemma LastOfSnoc(flat: seq<(ObjectId, Entry)>, x: ObjectId, e: Entry, o: ObjectId, k: Key)
    ensures LastOf(flat + [(x, e)], o, k) ==
            if x == o && EntryKey(e) == k then Some(e.content) else LastOf(flat, o, k)
  {
    assert (flat + [(x, e)])[..|flat|] == flat;
  }

  lemma TakenMatches(c: Client, e: Entry, done: seq<(ObjectId, Entry)>)
    requires c.current.Some? && c.current.value in c.results && Matches(c.results, done)
    ensures Matches(Taken(c, e).results, done + [(c.current.value, e)])
  {
    hide LastOf, OutcomeFor;
    var x := c.current.value;
    forall o, k
      ensures match LastOf(done + [(x, e)], o, k)
              case None => o !in Taken(c, e).results || k !in Taken(c, e).results[o]
              case Some(content) => o in Taken(c, e).results && k in Taken(c, e).results[o] &&
                                    Taken(c, e).results[o][k] == OutcomeFor(content)
    {
      LastOfSnoc(done, x, e, o, k);
    }
  }

  lemma {:induction false} TakenAllMatches(c: Client, es: seq<Entry>, done: seq<(ObjectId, Entry)>)
    requires c.current.Some? && c.current.value in c.results && Matches(c.results, done)
    ensures Matches(TakenAll(c, es).results, done + FlatEntries(c.current.value, es))
    decreases |es|
  {
    hide Matches, Taken;
    var x := c.current.value;
    if es == [] {
      assert done + FlatEntries(x, es) == done;
    } else {
      TakenMatches(c, es[0], done);
      TakenKeeps(c, es[0]);
      TakenAllMatches(Taken(c, es[0]), es[1..], done + [(x, es[0])]);
      assert done + FlatEntries(x, es) == done + [(x, es[0])] + FlatEntries(x, es[1..]);
    }
  }

  lemma EnteredMatches(c: Client, o: ObjectId, done: seq<(ObjectId, Entry)>)
    requires Matches(c.results, done)
    ensures Matches(Entered(c, o).results, done)
  {
    hide LastOf;
  }

  lemma {:induction false} TakenListingsMatch(c: Client, ls: seq<Listing>, done: seq<(ObjectId, Entry)>)
    requires Matches(c.results, done)
    ensures Matches(TakenListings(c, ls).results, done + Flat(ls))
    ensures TakenListings(c, ls).results.Keys == c.results.Keys + set l | l in ls :: l.target
    decreases |ls|
  {
    hide Matches, TakenAll, FlatEntries;
    if ls == [] {
      assert done + Flat(ls) == done;
    } else {
      var o := ls[0].target;
      var d := Entered(c, o);
      EnteredMatches(c, o, done);
      TakenAllMatches(d, ls[0].entries, done);
      var more := done + FlatEntries(o, ls[0].entries);
      TakenListingsMatch(TakenAll(d, ls[0].entries), ls[1..], more);
      assert done + Flat(ls) == more + Flat(ls[1..]);
      assert ls == [ls[0]] + ls[1..];
    }
  }

  /** Any ReadPropertyMultiple ACK with balanced values: the client's dictionary has exactly the objects
      listed, and in each row exactly the keys - property, or property and index - that occur for the
      object, each with the value or the error class and code that came last for it. */
  lemma EveryAckRead(invokeId: byte, ls: seq<Listing>) returns (results: Results)
    requires BalancedListings(ls)
    ensures ParseMultipleAck([0x30, invokeId, READ_PROPERTY_MULTIPLE] + ListingsOctets(ls)) == Ok(Some(results))
    ensures Matches(results, Flat(ls)) && results.Keys == set l | l in ls :: l.target
  {
    hide ListingsOctets, ResultsFrom, BalancedListings, LastOf;
    AtTail([0x30, invokeId, READ_PROPERTY_MULTIPLE], ListingsOctets(ls));
    ListingsRead([0x30, invokeId, READ_PROPERTY_MULTIPLE] + ListingsOctets(ls), 3, ls, NO_RESULTS);
    NothingMatches();
    hide Matches, TakenListings, Flat;
    TakenListingsMatch(NO_RESULTS, ls, []);
    assert [] + Flat(ls) == Flat(ls);
    results := TakenListings(NO_RESULTS, ls).results;
  }

  lemma NothingMatches()
    ensures Matches(map[], [])
  {
  }

  /** Two elements of one property are two entries. */
  lemma ElementsKept(invokeId: byte, o: ObjectId, property: uint32, i: uint32, j: uint32, v: Bytes, w: Bytes)
    returns (results: Results)
    requires i != j && Balanced(v) && Balanced(w)
    ensures var entries := [Entry(property, Some(i), Holds(v)), Entry(property, Some(j), Holds(w))];
            ParseMultipleAck([0x30, invokeId, READ_PROPERTY_MULTIPLE] + ListingsOctets([Listing(o, entries)])) ==
            Ok(Some(results))
    ensures results.Keys == {o}
    ensures results[o] == map[Key(Some(property), Some(i)) := ValueOctets(v),
                              Key(Some(property), Some(j)) := ValueOctets(w)]
  {
    hide ParseMultipleAck, ListingsOctets, Balanced;
    var a, b := Entry(property, Some(i), Holds(v)), Entry(property, Some(j), Holds(w));
    var ls := [Listing(o, [a, b])];
    results := EveryAckRead(invokeId, ls);
    assert ls[0] in ls;
    assert [a, b][1..] == [b] && [b][1..] == [] && ls[1..] == [];
    var flat := [(o, a), (o, b)];
    assert FlatEntries(o, [b]) == [(o, b)] + FlatEntries(o, []) == [(o, b)];
    assert FlatEntries(o, [a, b]) == [(o, a)] + [(o, b)] == flat;
    assert Flat(ls) == FlatEntries(o, [a, b]) + Flat([]) == flat;
    assert flat[..1] == [(o, a)] && flat[..1][..0] == [];
    forall k
      ensures LastOf(flat, o, k) ==
              if k == EntryKey(b) then Some(Holds(w)) else if k == EntryKey(a) then Some(Holds(v)) else None
    {
      LastOfSnoc([(o, a)], o, b, o, k);
      LastOfSnoc([], o, a, o, k);
      assert [(o, a)] + [(o, b)] == flat && [] + [(o, a)] == [(o, a)];
    }
    hide LastOf, Flat;
  }

  // ----- the server's ACK is such an ACK

  function EntryFor(r: Reading): Entry {
    Entry(r.property, None, if r.value.Some? then Holds(r.value.value) else Lacks(2, 32))
  }

  function Entries(rs: seq<Reading>): (es: seq<Entry>)
    ensures |es| == |rs| && forall i | 0 <= i < |rs| :: es[i] == EntryFor(rs[i])
  {
    seq(|rs|, i requires 0 <= i < |rs| => EntryFor(rs[i]))
  }

  function ListingsOf(accesses: seq<Access>): (ls: seq<Listing>)
    ensures |ls| == |accesses|
    ensures forall i | 0 <= i < |ls| :: ls[i] == Listing(accesses[i].target, Entries(accesses[i].readings))
  {
    seq(|accesses|, i requires 0 <= i < |accesses| => Listing(accesses[i].target, Entries(accesses[i].readings)))
  }

  function Reported(value: Option<Bytes>): Outcome {
    if value.Some? then ValueOctets(value.value) else AccessError([2, 32])
  }

  lemma ReadingIsEntry(r: Reading)
    ensures EntryOctets(EntryFor(r)) == ReadingOctets(r)
  {
    hide ContextUnsigned, Enclosed, ErrorCodes;
    assert ContextUnsigned(2, r.property) + [] == ContextUnsigned(2, r.property);
  }

  lemma {:induction false} ReadingsAreEntries(rs: seq<Reading>)
    ensures EntriesOctets(Entries(rs)) == ReadingsOctets(rs)
  {
    hide EntryOctets, ReadingOctets, EntryFor;
    if rs != [] {
      ReadingIsEntry(rs[0]);
      ReadingsAreEntries(rs[1..]);
      assert Entries(rs)[1..] == Entries(rs[1..]);
    }
  }

  lemma {:induction false} AccessesAreListings(accesses: seq<Access>)
    ensures ListingsOctets(ListingsOf(accesses)) == AccessesOctets(accesses)
  {
    hide EntriesOctets, ReadingsOctets, Enclosed, ContextObjectId, Entries;
    if accesses != [] {
      ReadingsAreEntries(accesses[0].readings);
      AccessesAreListings(accesses[1..]);
      assert ListingsOf(accesses)[1..] == ListingsOf(accesses[1..]);
    }
  }

  predicate BalancedAccesses(accesses: seq<Access>) { BalancedListings(ListingsOf(accesses)) }

  /** Every balanced reading or error of the server's ACK is read by the client. */
  lemma AckRead(invokeId: byte, accesses: seq<Access>)
    requires BalancedAccesses(accesses)
    ensures ParseMultipleAck(MultipleAck(invokeId, accesses)) ==
            Ok(Some(TakenListings(NO_RESULTS, ListingsOf(accesses)).results))
  {
    hide AccessesOctets, ResultsFrom, TakenListings, ListingsOctets, BalancedListings;
    AccessesAreListings(accesses);
    AtTail([0x30, invokeId, READ_PROPERTY_MULTIPLE], AccessesOctets(accesses));
    ListingsRead(MultipleAck(invokeId, accesses), 3, ListingsOf(accesses), NO_RESULTS);
  }

  /** Property [2] and index [3] of each entry, and its value inside [4] or its error inside [5]. */
  ghost function EntryPieces(e: Entry): seq<Piece>
    requires e.content.Holds? ==> Pieces(e.content.value).Ok?
  {
    [Context(2, UnsignedOctets(e.property))] + OptionalPiece(3, e.index) +
    match e.content
    case Holds(value) => Grouped(4, Pieces(value).value)
    case Lacks(errorClass, errorCode) =>
      Grouped(5, [Application(9, UnsignedOctets(errorClass)), Application(9, UnsignedOctets(errorCode))])
  }

  lemma EntryLays(e: Entry)
    requires BalancedEntry(e)
    ensures e.content.Holds? ==> Pieces(e.content.value).Ok?
    ensures Lays(EntryOctets(e), EntryPieces(e))
  {
    hide Pieces, ContextUnsigned, OptionalUnsigned, OptionalPiece, Context, UnsignedOctets, Enclosed, ErrorCodes, Grouped,
         Balanced;
    var a, b, c := ContextUnsigned(2, e.property), OptionalUnsigned(3, e.index), ContentOctets(e.content);
    var p, q := [Context(2, UnsignedOctets(e.property))], OptionalPiece(3, e.index);
    LaysContextUnsigned(2, e.property);
    OptionalLays(3, e.index);
    LaysBoth(a, p, b, q);
    match e.content
    case Holds(value) =>
      BalancedIsLaid(value);
      LaysGroup(4, value, Pieces(value).value);
      LaysBoth(a + b, p + q, c, Grouped(4, Pieces(value).value));
    case Lacks(errorClass, errorCode) =>
      var codes := [Application(9, UnsignedOctets(errorClass)), Application(9, UnsignedOctets(errorCode))];
      ErrorCodesLay(errorClass, errorCode);
      LaysGroup(5, ErrorCodes(errorClass, errorCode), codes);
      LaysBoth(a + b, p + q, c, Grouped(5, codes));
  }

  ghost function EntriesPieces(es: seq<Entry>): seq<Piece>
    requires forall i | 0 <= i < |es| && es[i].content.Holds? :: Pieces(es[i].content.value).Ok?
  {
    if es == [] then [] else EntryPieces(es[0]) + EntriesPieces(es[1..])
  }

  ghost predicate WholeListings(ls: seq<Listing>) {
    forall l, i | l in ls && 0 <= i < |l.entries| && l.entries[i].content.Holds? ::
      Pieces(l.entries[i].content.value).Ok?
  }

  ghost function ListingPieces(ls: seq<Listing>): seq<Piece>
    requires WholeListings(ls)
  {
    if ls == [] then []
    else [Context(0, ObjectIdOctets(ls[0].target))] + Grouped(1, EntriesPieces(ls[0].entries)) + ListingPieces(ls[1..])
  }

  lemma {:induction false} EntriesLay(es: seq<Entry>)
    requires BalancedEntries(es)
    ensures forall i | 0 <= i < |es| && es[i].content.Holds? :: Pieces(es[i].content.value).Ok?
    ensures Lays(EntriesOctets(es), EntriesPieces(es))
  {
    hide Pieces, EntryOctets, EntryPieces, Balanced;
    if es == [] {
      LaysNothing();
    } else {
      EntryLays(es[0]);
      EntriesLay(es[1..]);
      forall i | 0 <= i < |es| && es[i].content.Holds?
        ensures Pieces(es[i].content.value).Ok?
      {
        EntryLays(es[i]);
      }
      LaysBoth(EntryOctets(es[0]), EntryPieces(es[0]), EntriesOctets(es[1..]), EntriesPieces(es[1..]));
    }
  }

  lemma {:induction false} ListingsLay(ls: seq<Listing>)
    requires BalancedListings(ls)
    ensures WholeListings(ls) && Lays(ListingsOctets(ls), ListingPieces(ls))
  {
    hide Pieces, EntriesOctets, EntriesPieces, BalancedEntries, ContextObjectId, Enclosed, Context, Grouped, ObjectIdOctets;
    if ls == [] {
      LaysNothing();
    } else {
      var l := ls[0];
      var p := [Context(0, ObjectIdOctets(l.target))];
      EntriesLay(l.entries);
      ListingsLay(ls[1..]);
      assert ls == [l] + ls[1..];
      var inner := EntriesPieces(l.entries);
      LaysContextObjectId(0, l.target);
      LaysGroup(1, EntriesOctets(l.entries), inner);
      LaysBoth(ContextObjectId(0, l.target), p, Enclosed(1, EntriesOctets(l.entries)), Grouped(1, inner));
      LaysBoth(ListingOctets(l), p + Grouped(1, inner), ListingsOctets(ls[1..]), ListingPieces(ls[1..]));
    }
  }

  /** The server's ACK on the wire, tag by tag. */
  lemma AckLayout(invokeId: byte, accesses: seq<Access>)
    requires BalancedAccesses(accesses)
    ensures WholeListings(ListingsOf(accesses))
    ensures ResponseLays(MultipleAck(invokeId, accesses), 0x30, invokeId, 14, ListingPieces(ListingsOf(accesses)))
  {
    hide Pieces, ListingsOctets, ListingPieces, AccessesOctets, ListingsOf, BalancedListings, WholeListings;
    AccessesAreListings(accesses);
    ListingsLay(ListingsOf(accesses));
    assert MultipleAck(invokeId, accesses)[3..] == AccessesOctets(accesses);
  }

  // ----- the whole exchange

  type Source = (ObjectId, nat) -> Option<Bytes>

  predicate AllUint32(properties: seq<nat>) { forall i | 0 <= i < |properties| :: properties[i] < 0x1_0000_0000 }

  predicate Encodable(m: Members) { forall o | o in m.lists :: AllUint32(m.lists[o]) }

  function ReadingsFor(o: ObjectId, properties: seq<nat>, value: Source): (r: seq<Reading>)
    requires AllUint32(properties)
    ensures |r| == |properties|
    ensures forall i | 0 <= i < |r| :: r[i] == Reading(properties[i], value(o, properties[i]))
  {
    seq(|properties|, i requires 0 <= i < |properties| => Reading(properties[i], value(o, properties[i])))
  }

  function AccessesFor(order: seq<ObjectId>, m: Members, value: Source): (r: seq<Access>)
    requires Encodable(m) && forall o | o in order :: o in m.lists
    ensures |r| == |order|
    ensures forall i | 0 <= i < |r| :: r[i] == Access(order[i], ReadingsFor(order[i], m.lists[order[i]], value))
  {
    seq(|order|, i requires 0 <= i < |order| => Access(order[i], ReadingsFor(order[i], m.lists[order[i]], value)))
  }

  ghost predicate Ordered(m: Members) {
    (forall o :: o in m.order <==> o in m.lists) &&
    forall i, j | 0 <= i < j < |m.order| :: m.order[i] != m.order[j]
  }

  /** Every list of properties a request can bring the server is keyed by distinct objects. */
  lemma {:induction false} SpecificationsOrdered(value: Bytes, position: nat, current: Option<ObjectId>, m: Members)
    requires (current.Some? ==> current.value in m.lists) && Ordered(m)
    ensures var r := SpecificationsFrom(value, position, current, m); r.Ok? ==> Ordered(r.value)
    decreases if position < |value| then |value| - position else 0
  {
    hide ReadTag, FromBytes, ObjectIdFrom;
    if position < |value| && ReadTag(value, position).Ok? {
      var t := ReadTag(value, position).value;
      if t.kind.Value? && t.context && t.number == 0 && |t.body| == 4 && current.None? {
        var o := ObjectIdFrom(t.body);
        if o.Ok? {
          SpecificationsOrdered(value, t.next, Some(o.value), Assign(m, o.value, []));
        }
      } else if t.kind.Value? && t.context && t.number == 0 && current.Some? {
        SpecificationsOrdered(value, t.next, current,
                              Assign(m, current.value, m.lists[current.value] + [FromBytes(t.body)]));
      } else if t.kind.Close? && t.number == 1 {
        SpecificationsOrdered(value, t.next, None, m);
      } else {
        SpecificationsOrdered(value, t.next, current, m);
      }
    }
  }

  /** `_read_multiple` of any request octets, `value` being what the server serves. */
  function AnswerMultiple(invokeId: byte, payload: Bytes, value: Source): Result<Bytes> {
    var m :- SpecificationsFrom(Slice(payload, 4, 4 + |payload|), 0, None, NO_MEMBERS);
    SpecificationsOrdered(Slice(payload, 4, 4 + |payload|), 0, None, NO_MEMBERS);
    if Encodable(m) then Ok(MultipleAck(invokeId, AccessesFor(m.order, m, value)))
    else Err(Invalid) // context_unsigned refuses the property identifier
  }

  /** The properties the last specification of `o` asks for. */
  function LastAsked(specs: seq<Specification>, o: ObjectId): seq<nat> {
    if specs == [] then []
    else if specs[|specs| - 1].target == o then PropertiesOf(specs[|specs| - 1].references)
    else LastAsked(specs[..|specs| - 1], o)
  }

  predicate Asked(specs: seq<Specification>, o: ObjectId) { exists s | s in specs :: s.target == o }

  /** The client's dictionary holds, for each object asked for, one entry for each property its last
      specification names: the value served, or the error class PROPERTY and code UNKNOWN_PROPERTY. */
  ghost predicate Exact(results: Results, specs: seq<Specification>, value: Source) {
    && (forall o :: o in results <==> Asked(specs, o))
    && (forall o | o in results :: ExactRow(results[o], LastAsked(specs, o), o, value))
  }

  ghost predicate ExactRow(row: Row, properties: seq<nat>, o: ObjectId, value: Source) {
    && (forall k: Key | k in row :: k.index.None? && k.property.Some? && k.property.value in properties)
    && (forall p | p in properties :: Key(Some(p), None) in row && row[Key(Some(p), None)] == Reported(value(o, p)))
  }

  lemma {:induction false} MergedLists(specs: seq<Specification>, m: Members)
    requires Ordered(m)
    ensures Ordered(Merged(specs, m))
    ensures forall o :: o in Merged(specs, m).lists <==> o in m.lists || Asked(specs, o)
    ensures forall o | Asked(specs, o) :: Merged(specs, m).lists[o] == LastAsked(specs, o)
    ensures forall o | o in m.lists && !Asked(specs, o) :: Merged(specs, m).lists[o] == m.lists[o]
    decreases |specs|
  {
    hide PropertiesOf;
    if specs != [] {
      var n := Assign(m, specs[0].target, PropertiesOf(specs[0].references));
      MergedLists(specs[1..], n);
      forall o
        ensures Asked(specs, o) <==> specs[0].target == o || Asked(specs[1..], o)
        ensures LastAsked(specs, o) ==
                if Asked(specs[1..], o) then LastAsked(specs[1..], o)
                else if specs[0].target == o then PropertiesOf(specs[0].references) else []
      {
        AskedFirst(specs, o);
      }
    }
  }

  lemma {:induction false} AskedFirst(specs: seq<Specification>, o: ObjectId)
    requires specs != []
    ensures Asked(specs, o) <==> specs[0].target == o || Asked(specs[1..], o)
    ensures LastAsked(specs, o) ==
            if Asked(specs[1..], o) then LastAsked(specs[1..], o)
            else if specs[0].target == o then PropertiesOf(specs[0].references) else []
    decreases |specs|
  {
    hide PropertiesOf;
    assert specs == [specs[0]] + specs[1..];
    if |specs| > 1 {
      var front := specs[..|specs| - 1];
      assert front[1..] == specs[1..][..|specs| - 2];
      AskedFirst(front, o);
      var last := specs[|specs| - 1];
      assert last in specs[1..];
      assert specs[1..] == front[1..] + [last];
    } else {
      assert LastAsked(specs[..0], o) == [];
    }
  }

  lemma {:induction false} RowTaken(c: Client, o: ObjectId, properties: seq<nat>, done: seq<nat>, value: Source)
    requires c.current == Some(o) && o in c.results
    requires AllUint32(properties)
    requires ExactRow(c.results[o], done, o, value)
    ensures var d := TakenAll(c, Entries(ReadingsFor(o, properties, value)));
            && ExactRow(d.results[o], done + properties, o, value)
            && forall x | x in c.results && x != o :: d.results[x] == c.results[x]
    decreases |properties|
  {
    var rs := ReadingsFor(o, properties, value);
    if properties == [] {
      assert done + properties == done;
    } else {
      var p := properties[0];
      assert rs[1..] == ReadingsFor(o, properties[1..], value);
      assert Entries(rs)[1..] == Entries(rs[1..]);
      assert (done + [p]) + properties[1..] == done + properties;
      var d := Taken(c, EntryFor(rs[0]));
      assert ExactRow(d.results[o], done + [p], o, value);
      RowTaken(d, o, properties[1..], done + [p], value);
    }
  }

  lemma {:induction false} AccessesTaken(c: Client, order: seq<ObjectId>, m: Members, value: Source)
    requires Encodable(m) && forall o | o in order :: o in m.lists && o !in c.results
    requires forall i, j | 0 <= i < j < |order| :: order[i] != order[j]
    ensures var d := TakenListings(c, ListingsOf(AccessesFor(order, m, value)));
            && (forall o :: o in d.results <==> o in c.results || o in order)
            && (forall o | o in order :: ExactRow(d.results[o], m.lists[o], o, value))
            && (forall o | o in c.results :: d.results[o] == c.results[o])
    decreases |order|
  {
    hide ExactRow, TakenAll;
    if order != [] {
      var o := order[0];
      var a := AccessesFor(order, m, value);
      assert a[1..] == AccessesFor(order[1..], m, value);
      assert ListingsOf(a)[1..] == ListingsOf(a[1..]);
      var e := Entered(c, o);
      EmptyRow(o, value);
      RowTaken(e, o, m.lists[o], [], value);
      assert [] + m.lists[o] == m.lists[o];
      AccessesTaken(TakenAll(e, Entries(a[0].readings)), order[1..], m, value);
    }
  }

  lemma EmptyRow(o: ObjectId, value: Source)
    ensures ExactRow(map[], [], o, value)
  {
  }

  /** A whole ReadPropertyMultiple exchange: encode, parse, answer, encode, parse. For any
      specifications, and any server whose values are balanced, the client ends with exactly the
      values the server serves for what was last asked of each object. */
  lemma MultipleExchange(invokeId: byte, specs: seq<Specification>, value: Source)
    requires forall o: ObjectId, p: nat :: value(o, p).Some? ==> Balanced(value(o, p).value)
    ensures var ack := AnswerMultiple(invokeId, MultipleRequest(invokeId, specs), value);
            ack.Ok? &&
            var parsed := ParseMultipleAck(ack.value);
            parsed.Ok? && parsed.value.Some? && Exact(parsed.value.value, specs, value)
  {
    hide MultipleRequest, MultipleAck, ParseMultipleAck, SpecificationsFrom, Merged, TakenListings, ExactRow, Balanced,
         BalancedAccesses, AccessesFor, ListingsOf, Asked, LastAsked, FirstAsked, Encodable;
    RequestRead(invokeId, specs);
    var m := Merged(specs, NO_MEMBERS);
    MergedLists(specs, NO_MEMBERS);
    MergedEncodable(specs);
    AccessesBalanced(m, value);
    AckRead(invokeId, AccessesFor(m.order, m, value));
    AccessesTaken(NO_RESULTS, m.order, m, value);
  }

  lemma AccessesBalanced(m: Members, value: Source)
    requires forall o: ObjectId, p: nat :: value(o, p).Some? ==> Balanced(value(o, p).value)
    requires Encodable(m) && forall o | o in m.order :: o in m.lists
    ensures BalancedAccesses(AccessesFor(m.order, m, value))
  {
    hide Balanced;
  }

  lemma {:induction false} LastAskedEncodable(specs: seq<Specification>, o: ObjectId)
    ensures AllUint32(LastAsked(specs, o))
    decreases |specs|
  {
    if specs != [] {
      LastAskedEncodable(specs[..|specs| - 1], o);
    }
  }

  lemma MergedEncodable(specs: seq<Specification>)
    ensures Encodable(Merged(specs, NO_MEMBERS))
  {
    MergedLists(specs, NO_MEMBERS);
    forall o | o in Merged(specs, NO_MEMBERS).lists
      ensures AllUint32(Merged(specs, NO_MEMBERS).lists[o])
    {
      LastAskedEncodable(specs, o);
    }
  }

  // ----- exactly when every reference is answered

  predicate IsLast(specs: seq<Specification>, l: nat) {
    l < |specs| && forall j | l < j < |specs| :: specs[j].target != specs[l].target
  }

  lemma {:induction false} LastAskedIs(specs: seq<Specification>, l: nat)
    requires IsLast(specs, l)
    ensures LastAsked(specs, specs[l].target) == PropertiesOf(specs[l].references)
    decreases |specs|
  {
    hide PropertiesOf;
    if l < |specs| - 1 {
      LastAskedIs(specs[..|specs| - 1], l);
    }
  }

  lemma LastFor(specs: seq<Specification>, k: nat) returns (l: nat)
    requires k < |specs|
    ensures k <= l && IsLast(specs, l) && specs[l].target == specs[k].target
  {
    l := |specs| - 1;
    while specs[l].target != specs[k].target
      invariant k <= l < |specs| && forall j | l < j < |specs| :: specs[j].target != specs[k].target
      decreases l
    {
      l := l - 1;
    }
  }

  function KeyOf(r: Ref): Key { Key(Some(r.property), if r.index.Some? then Some(r.index.value) else None) }

  /** The client finds an entry under the reference's own property and index. */
  predicate Answered(results: Results, o: ObjectId, r: Ref) { o in results && KeyOf(r) in results[o] }

  ghost predicate AllAnswered(results: Results, specs: seq<Specification>) {
    forall k: nat, r | k < |specs| && r in specs[k].references :: Answered(results, specs[k].target, r)
  }

  predicate Repeated(specs: seq<Specification>, k: nat, l: nat)
    requires k < |specs| && l < |specs|
  {
    forall i | 0 <= i < |specs[k].references| ::
      specs[k].references[i].property in PropertiesOf(specs[l].references)
  }

  /** What a caller can check of the specifications: no reference has an array index, and each names a
      property that the last specification of the same object names too. */
  ghost predicate LosesNothing(specs: seq<Specification>) {
    && (forall k: nat, r | k < |specs| && r in specs[k].references :: r.index.None?)
    && (forall k: nat, l: nat | k < |specs| && IsLast(specs, l) && specs[l].target == specs[k].target ::
          Repeated(specs, k, l))
  }

  /** What the client has at the end of the exchange. */
  function Gets(invokeId: byte, specs: seq<Specification>, value: Source): Result<Option<Results>> {
    var ack :- AnswerMultiple(invokeId, MultipleRequest(invokeId, specs), value);
    ParseMultipleAck(ack)
  }

  lemma AnsweredIf(results: Results, specs: seq<Specification>, value: Source, o: ObjectId, r: Ref)
    requires Exact(results, specs, value) && Asked(specs, o)
    ensures Answered(results, o, r) <==> r.index.None? && r.property in LastAsked(specs, o)
  {
    assert o in results && ExactRow(results[o], LastAsked(specs, o), o, value);
    hide LastAsked;
  }

  lemma AnsweredInLast(results: Results, specs: seq<Specification>, value: Source, k: nat, l: nat)
    requires Exact(results, specs, value) && k < |specs| && IsLast(specs, l) && specs[l].target == specs[k].target
    ensures (forall r | r in specs[k].references :: Answered(results, specs[k].target, r)) <==>
            (forall r | r in specs[k].references :: r.index.None?) && Repeated(specs, k, l)
  {
    var o := specs[k].target;
    var refs := specs[k].references;
    assert Asked(specs, o);
    LastAskedIs(specs, l);
    hide IsLast, Answered, PropertiesOf, LastAsked, Exact;
    forall i | 0 <= i < |refs|
      ensures refs[i] in refs
      ensures Answered(results, o, refs[i]) <==>
              refs[i].index.None? && refs[i].property in PropertiesOf(specs[l].references)
    {
      hide Exact;
      AnsweredIf(results, specs, value, o, refs[i]);
    }
  }

  lemma AllAnsweredIf(results: Results, specs: seq<Specification>, value: Source)
    requires Exact(results, specs, value)
    ensures AllAnswered(results, specs) <==> LosesNothing(specs)
  {
    hide Exact, Answered, Repeated;
    if AllAnswered(results, specs) {
      forall k: nat, r | k < |specs| && r in specs[k].references
        ensures r.index.None?
      {
        var l := LastFor(specs, k);
        AnsweredInLast(results, specs, value, k, l);
      }
      forall k: nat, l: nat | k < |specs| && IsLast(specs, l) && specs[l].target == specs[k].target
        ensures Repeated(specs, k, l)
      {
        AnsweredInLast(results, specs, value, k, l);
      }
    }
    if LosesNothing(specs) {
      forall k: nat, r | k < |specs| && r in specs[k].references
        ensures Answered(results, specs[k].target, r)
      {
        var l := LastFor(specs, k);
        AnsweredInLast(results, specs, value, k, l);
      }
    }
  }

  lemma Received(invokeId: byte, specs: seq<Specification>, value: Source) returns (results: Results)
    requires forall o: ObjectId, p: nat :: value(o, p).Some? ==> Balanced(value(o, p).value)
    ensures Gets(invokeId, specs, value) == Ok(Some(results)) && Exact(results, specs, value)
  {
    hide AnswerMultiple, ParseMultipleAck, MultipleRequest, Exact, Balanced;
    MultipleExchange(invokeId, specs, value);
    results := Gets(invokeId, specs, value).value.value;
  }

  /** The client finds every reference it asked for, under its own key, exactly if none has an array
      index and none is missing from the last specification of its object. */
  lemma AnsweredExactly(invokeId: byte, specs: seq<Specification>, value: Source) returns (results: Results)
    requires forall o: ObjectId, p: nat :: value(o, p).Some? ==> Balanced(value(o, p).value)
    ensures Gets(invokeId, specs, value) == Ok(Some(results))
    ensures AllAnswered(results, specs) <==> LosesNothing(specs)
  {
    hide Gets, Balanced, Exact, AllAnswered, LosesNothing;
    results := Received(invokeId, specs, value);
    AllAnsweredIf(results, specs, value);
  }

  /** With distinct objects and no index every reference is answered. */
  lemma DistinctObjectsKeepAll(invokeId: byte, specs: seq<Specification>, value: Source) returns (results: Results)
    requires forall o: ObjectId, p: nat :: value(o, p).Some? ==> Balanced(value(o, p).value)
    requires forall i, j | 0 <= i < j < |specs| :: specs[i].target != specs[j].target
    requires forall k: nat, r | k < |specs| && r in specs[k].references :: r.index.None?
    ensures Gets(invokeId, specs, value) == Ok(Some(results)) && AllAnswered(results, specs)
  {
    hide Gets, AllAnswered, Balanced;
    results := AnsweredExactly(invokeId, specs, value);
    assert LosesNothing(specs);
  }

  /** Two specifications of one object: the client finds the property of the second and not that of the
      first. */
  lemma RepeatedObjectLoses(invokeId: byte, o: ObjectId, value: Source) returns (results: Results)
    requires forall x: ObjectId, p: nat :: value(x, p).Some? ==> Balanced(value(x, p).value)
    ensures Gets(invokeId, [Specification(o, [Ref(85, None)]), Specification(o, [Ref(28, None)])], value) ==
            Ok(Some(results))
    ensures !Answered(results, o, Ref(85, None)) && Answered(results, o, Ref(28, None))
  {
    hide Gets, Exact, Balanced, Answered;
    var specs := [Specification(o, [Ref(85, None)]), Specification(o, [Ref(28, None)])];
    results := Received(invokeId, specs, value);
    assert specs[1].target == o && specs[1] in specs;
    assert LastAsked(specs, o) == PropertiesOf([Ref(28, None)]) == [28];
    AnsweredIf(results, specs, value, o, Ref(85, None));
    AnsweredIf(results, specs, value, o, Ref(28, None));
  }

  /** A reference with an array index: the client finds the whole property and not the element. */
  lemma IndexedReferenceLost(invokeId: byte, o: ObjectId, value: Source) returns (results: Results)
    requires forall x: ObjectId, p: nat :: value(x, p).Some? ==> Balanced(value(x, p).value)
    ensures Gets(invokeId, [Specification(o, [Ref(87, Some(3))])], value) == Ok(Some(results))
    ensures !Answered(results, o, Ref(87, Some(3))) && Answered(results, o, Ref(87, None))
  {
    hide Gets, Exact, Balanced, Answered;
    var specs := [Specification(o, [Ref(87, Some(3))])];
    results := Received(invokeId, specs, value);
    assert specs[0].target == o && specs[0] in specs;
    assert LastAsked(specs, o) == PropertiesOf([Ref(87, Some(3))]) == [87];
    AnsweredIf(results, specs, value, o, Ref(87, Some(3)));
    AnsweredIf(results, specs, value, o, Ref(87, None));
  }
}
