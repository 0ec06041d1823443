/** `application_elements`: a list or array value split into its elements. */
module Elements {
  import opened Octets
  import opened Tags
  import opened Nesting
  import opened Layout

  function ElementsFrom(octets: Bytes, position: nat, found: seq<Bytes>): Result<seq<Bytes>>
    decreases if position < |octets| then |octets| - position else 0
  {
    if position >= |octets| then Ok(found) else
    var t :- ReadTag(octets, position);
    ElementsFrom(octets, t.next, found + [Slice(octets, position, t.next)])
  }

  method ApplicationElements(octets: Bytes) returns (r: Result<seq<Bytes>>)
    ensures r == ElementsFrom(octets, 0, [])
  {
    hide ReadTag, Slice;
    var elements, position := [], 0;
    while position < |octets|
      invariant ElementsFrom(octets, position, elements) == ElementsFrom(octets, 0, [])
      decreases |octets| - position
    {
      var start := position;
      var t := ReadTag(octets, position);
      if t.Err? {
        return Err(t.fault);
      }
      position := t.value.next;
      elements := elements + [Slice(octets, start, position)];
    }
    return Ok(elements);
  }

  function Joined(elements: seq<Bytes>): Bytes {
    if elements == [] then [] else Joined(elements[..|elements| - 1]) + elements[|elements| - 1]
  }

  lemma JoinedSnoc(elements: seq<Bytes>, e: Bytes)
    ensures Joined(elements + [e]) == Joined(elements) + e
  {
    assert (elements + [e])[..|elements|] == elements;
  }

  /** A run of complete application primitives: what a list or array property holds. */
  predicate Run(octets: Bytes, position: nat)
    decreases if position < |octets| then |octets| - position else 0
  {
    if position >= |octets| then position == |octets|
    else Complete(octets, position) &&
         var t := ReadTag(octets, position).value;
         t.kind.Value? && !t.context && Run(octets, t.next)
  }

  /** One whole application primitive. */
  ghost predicate IsElement(e: Bytes) {
    exists t: Tag :: ReadTag(e, 0) == Ok(t) && t.kind.Value? && !t.context && t.next == |e|
  }

  ghost predicate AreElements(elements: seq<Bytes>) { forall i | 0 <= i < |elements| :: IsElement(elements[i]) }

  lemma CutElement(octets: Bytes, position: nat)
    requires position < |octets| && Run(octets, position)
    ensures IsElement(octets[position..ReadTag(octets, position).value.next])
  {
    hide ReadTag;
    var t := ReadTag(octets, position).value;
    var e := octets[position..t.next];
    LocalBack(octets, position, e, 0);
    Local(octets, position, e, 0);
    assert ReadTag(e, 0) == Ok(t.(next := |e|));
  }

  /** The elements of a run are its primitives, and together they are the run: nothing is lost. */
  lemma {:induction false} ElementsOfRun(octets: Bytes, position: nat, found: seq<Bytes>)
    requires Run(octets, position) && position <= |octets|
    requires AreElements(found) && Joined(found) == octets[..position]
    ensures var r := ElementsFrom(octets, position, found);
            r.Ok? && AreElements(r.value) && Joined(r.value) == octets && |r.value| <= |found| + |octets| - position
    decreases |octets| - position
  {
    hide ReadTag, IsElement;
    if position < |octets| {
      var t := ReadTag(octets, position).value;
      var e := octets[position..t.next];
      CutElement(octets, position);
      JoinedSnoc(found, e);
      assert octets[..position] + e == octets[..t.next];
      ElementsOfRun(octets, t.next, found + [e]);
    } else {
      assert octets[..position] == octets;
    }
  }

  /** Of any whole tags, application or context, primitives or the ends of groups, each is one element: the
      elements are as many as the tags, each is one tag, and together they are the value. */
  lemma {:induction false} ElementsArePieces(octets: Bytes, q: nat, pieces: seq<Piece>, found: seq<Bytes>)
    requires q <= |octets| && Lays(octets[q..], pieces) && Joined(found) == octets[..q]
    ensures var r := ElementsFrom(octets, q, found);
            && r.Ok? && |r.value| == |found| + |pieces| && Joined(r.value) == octets
            && r.value[..|found|] == found
            && forall i | 0 <= i < |pieces| :: Lays(r.value[|found| + i], [pieces[i]])
    decreases |pieces|
  {
    hide ReadTag, Joined;
    if q == |octets| {
      assert octets[..q] == octets;
    } else {
      var rest := octets[q..];
      var t := ReadTag(rest, 0).value;
      assert At(octets, q, rest);
      Local(octets, q, rest, 0);
      var next := q + t.next;
      var e := octets[q..next];
      assert rest[t.next..] == octets[next..];
      JoinedSnoc(found, e);
      assert octets[..q] + e == octets[..next];
      FirstIsOne(octets, q, pieces);
      ElementsArePieces(octets, next, pieces[1..], found + [e]);
      var r := ElementsFrom(octets, next, found + [e]).value;
      assert r[|found|] == r[..|found| + 1][|found|] == e;
      assert r[..|found|] == r[..|found| + 1][..|found|] == found;
      forall i | 0 <= i < |pieces|
        ensures Lays(r[|found| + i], [pieces[i]])
      {
        if i > 0 {
          assert pieces[1..][i - 1] == pieces[i];
          assert Lays(r[|found + [e]| + (i - 1)], [pieces[1..][i - 1]]);
        }
      }
    }
  }

  lemma FirstIsOne(octets: Bytes, q: nat, pieces: seq<Piece>)
    requires q < |octets| && Lays(octets[q..], pieces)
    ensures pieces != [] && Lays(octets[q..q + ReadTag(octets[q..], 0).value.next], [pieces[0]])
  {
    hide ReadTag;
    var rest := octets[q..];
    var t := ReadTag(rest, 0).value;
    var e := octets[q..q + t.next];
    assert At(rest, 0, e);
    LocalBack(rest, 0, e, 0);
    Local(rest, 0, e, 0);
    LaysOne(e, t.number, t.context, t.kind, t.body);
  }

  lemma ElementBalanced(e: Bytes)
    requires IsElement(e)
    ensures Balanced(e)
  {
    hide ReadTag;
    var t :| ReadTag(e, 0) == Ok(t) && t.kind.Value? && !t.context && t.next == |e|;
    OneTag(e, t.number, t.context, t.body);
  }
}
