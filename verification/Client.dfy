/** The single-threaded client (wiretest/client.py, wiretest/endpoint.py): waiting for an answer, and the
    retries. */
module Client {
  import opened Octets
  import opened Frames

  /** What one receive brings: a frame that is kept, a datagram whose decoding raises, a connection reset
      without a frame, or the end of the waiting. */
  datatype Arrival = Brings(frame: Frame) | Undecodable(fault: Fault) | Reset | TimedOut

  function Arrived(data: Bytes): Arrival {
    match DecodeFrame(data)
    case Ok(f) => Brings(f)
    case Err(fault) => Undecodable(fault)
  }

  /** A response too short to hold an invoke id: the client looks at the id, and that raises. */
  predicate Unreadable(f: Frame) { f.ok && IsResponse(PduType(f)) && InvokeId(f).Err? }

  /** What arrives before the waiting ends. */
  function Heard(inbox: seq<Arrival>): seq<Arrival> {
    if inbox == [] || inbox[0].TimedOut? then [] else [inbox[0]] + Heard(inbox[1..])
  }

  /** What is heard over all the attempts, in order. */
  function HeardAll(inboxes: seq<seq<Arrival>>): seq<Arrival> {
    if inboxes == [] then [] else HeardAll(inboxes[..|inboxes| - 1]) + Heard(inboxes[|inboxes| - 1])
  }

  /** The frames among them, which the endpoint keeps. */
  function FramesOf(items: seq<Arrival>): seq<Frame> {
    if items == [] then [] else (if items[0].Brings? then [items[0].frame] else []) + FramesOf(items[1..])
  }

  function Brought(frames: seq<Frame>): seq<Arrival> {
    if frames == [] then [] else [Brings(frames[0])] + Brought(frames[1..])
  }

  /** What waiting over these arrivals must come to: the first that decides does. */
  function Judge(items: seq<Arrival>, id: byte): Result<Option<Frame>> {
    if items == [] then Ok(None)
    else
      match items[0]
      case Undecodable(fault) => Err(fault)
      case Brings(f) =>
        if Unreadable(f) then Err(Short) else if Accepts(f, id) then Ok(Some(f)) else Judge(items[1..], id)
      case Reset => Judge(items[1..], id)
      case TimedOut => Judge(items[1..], id)
  }

  predicate Faulty(a: Arrival) { a.Undecodable? || (a.Brings? && Unreadable(a.frame)) }

  predicate Acceptable(a: Arrival, id: byte) { a.Brings? && Accepts(a.frame, id) }

  predicate Decides(a: Arrival, id: byte) { Faulty(a) || Acceptable(a, id) }

  /** The arrival at `k` is the first that decides. */
  ghost predicate FirstDecides(items: seq<Arrival>, id: byte, k: nat) {
    k < |items| && Decides(items[k], id) && forall j | 0 <= j < k :: !Decides(items[j], id)
  }

  lemma NeverBoth(a: Arrival, id: byte)
    ensures !(Faulty(a) && Acceptable(a, id))
  {
  }

  /** The outcome, both ways. The request raises exactly if a faulty arrival comes before the first
      acceptable frame; it is answered exactly if an acceptable frame comes before the first faulty
      arrival, and by the first such frame; it stays unanswered exactly if neither comes. */
  lemma {:induction false} JudgeExact(items: seq<Arrival>, id: byte)
    ensures Judge(items, id).Err? <==>
            exists k: nat :: k < |items| && Faulty(items[k]) && forall j | 0 <= j < k :: !Acceptable(items[j], id)
    ensures Judge(items, id).Ok? && Judge(items, id).value.Some? <==>
            exists k: nat :: FirstDecides(items, id, k) && Acceptable(items[k], id)
    ensures forall k: nat | FirstDecides(items, id, k) && Acceptable(items[k], id) ::
              Judge(items, id) == Ok(Some(items[k].frame))
    ensures Judge(items, id) == Ok(None) <==> forall k | 0 <= k < |items| :: !Decides(items[k], id)
  {
    hide Accepts, Unreadable;
    if exists k: nat :: k < |items| && Decides(items[k], id) {
      var k := FirstOf(items, id);
      JudgedAt(items, id, k);
      NeverBoth(items[k], id);
      assert Faulty(items[k]) ==> forall j | 0 <= j < k :: !Acceptable(items[j], id);
    } else {
      JudgedNone(items, id);
    }
  }

  lemma {:induction false} FirstOf(items: seq<Arrival>, id: byte) returns (k: nat)
    requires exists j: nat :: j < |items| && Decides(items[j], id)
    ensures FirstDecides(items, id, k)
  {
    hide Decides;
    k := 0;
    while !Decides(items[k], id)
      invariant k < |items| && forall j | 0 <= j < k :: !Decides(items[j], id)
      decreases |items| - k
    {
      k := k + 1;
    }
  }

  lemma {:induction false} JudgedAt(items: seq<Arrival>, id: byte, k: nat)
    requires FirstDecides(items, id, k)
    ensures if Acceptable(items[k], id) then Judge(items, id) == Ok(Some(items[k].frame)) else Judge(items, id).Err?
    decreases k
  {
    NeverBoth(items[k], id);
    hide Accepts, Unreadable;
    if k > 0 {
      assert !Decides(items[0], id);
      assert items[1..][k - 1] == items[k];
      assert forall j | 0 <= j < k - 1 :: items[1..][j] == items[j + 1];
      JudgedAt(items[1..], id, k - 1);
    }
  }

  lemma {:induction false} JudgedNone(items: seq<Arrival>, id: byte)
    requires forall k | 0 <= k < |items| :: !Decides(items[k], id)
    ensures Judge(items, id) == Ok(None)
  {
    hide Accepts, Unreadable;
    if items != [] {
      assert !Decides(items[0], id);
      JudgedNone(items[1..], id);
    }
  }

  /** What comes after a decision does not change it. */
  lemma {:induction false} JudgeThen(x: seq<Arrival>, y: seq<Arrival>, id: byte)
    ensures Judge(x + y, id) == if Judge(x, id) == Ok(None) then Judge(y, id) else Judge(x, id)
  {
    hide Accepts, Unreadable;
    if x == [] {
      assert x + y == y;
    } else {
      assert (x + y)[1..] == x[1..] + y;
      JudgeThen(x[1..], y, id);
    }
  }

  /** Frames that were looked at and decided nothing decide nothing when looked at again. */
  lemma {:induction false} LookedAt(items: seq<Arrival>, id: byte)
    requires Judge(items, id) == Ok(None)
    ensures Judge(Brought(FramesOf(items)), id) == Ok(None)
  {
    hide Accepts, Unreadable;
    if items != [] {
      LookedAt(items[1..], id);
      if items[0].Brings? {
        var f := items[0].frame;
        assert FramesOf(items)[1..] == FramesOf(items[1..]);
        var b := Brought(FramesOf(items));
        assert b[1..] == Brought(FramesOf(items[1..])) && b[0] == Brings(f);
      } else {
        assert FramesOf(items) == FramesOf(items[1..]);
      }
    }
  }

  lemma {:induction false} FramesThen(x: seq<Arrival>, y: seq<Arrival>)
    ensures FramesOf(x + y) == FramesOf(x) + FramesOf(y)
  {
    if x == [] {
      assert x + y == y;
    } else {
      assert (x + y)[1..] == x[1..] + y;
      FramesThen(x[1..], y);
      var head, rest := if x[0].Brings? then [x[0].frame] else [], FramesOf(x[1..]);
      assert FramesOf(x + y) == head + (rest + FramesOf(y));
      assert head + (rest + FramesOf(y)) == head + rest + FramesOf(y);
    }
  }

  /** The frames kept come from this prefix of what was heard, after those kept before. */
  ghost predicate KeptFrom(frames: seq<Frame>, before: seq<Frame>, heard: seq<Arrival>, n: nat) {
    n <= |heard| && frames == before + FramesOf(heard[..n])
  }

  /** The frames kept are those heard before attempt `a`, and then those heard in it up to what decided. */
  ghost predicate KeptSoFar(frames: seq<Frame>, inboxes: seq<seq<Arrival>>, a: nat, id: byte) {
    a < |inboxes| &&
    var before, heard := HeardAll(inboxes[..a]), Heard(inboxes[a]);
    exists n: nat :: KeptFrom(frames, FramesOf(before), heard, n) &&
                     forall m: nat | m < n :: Judge(before + heard[..m], id) == Ok(None)
  }

  lemma {:induction false} HeardPrefix(inbox: seq<Arrival>, n: nat)
    requires n <= |inbox| && forall j | 0 <= j < n :: !inbox[j].TimedOut?
    ensures n <= |Heard(inbox)| && Heard(inbox)[..n] == inbox[..n] && Heard(inbox)[n..] == Heard(inbox[n..])
    decreases n
  {
    if n == 0 {
      assert inbox[0..] == inbox;
    } else {
      HeardPrefix(inbox[1..], n - 1);
      var h, t := Heard(inbox), Heard(inbox[1..]);
      assert h == [inbox[0]] + t;
      assert h[..n] == [inbox[0]] + t[..n - 1];
      assert h[n..] == t[n - 1..];
      assert inbox[1..][n - 1..] == inbox[n..];
      assert inbox[..n] == [inbox[0]] + inbox[1..][..n - 1];
    }
  }

  lemma HeardEnds(inbox: seq<Arrival>, n: nat)
    requires n <= |inbox| && forall j | 0 <= j < n :: !inbox[j].TimedOut?
    requires n == |inbox| || inbox[n].TimedOut?
    ensures |Heard(inbox)| == n
  {
    HeardPrefix(inbox, n);
    assert Heard(inbox[n..]) == [];
  }

  lemma BroughtNext(frames: seq<Frame>, i: nat)
    requires i < |frames|
    ensures Brought(frames[i..]) == [Brings(frames[i])] + Brought(frames[i + 1..])
  {
    assert frames[i..][1..] == frames[i + 1..];
  }

  /** Looking at the next kept frame: it decides, or the judgment is that of the rest. */
  lemma JudgeFrame(frames: seq<Frame>, i: nat, id: byte)
    requires i < |frames|
    ensures Judge(Brought(frames[i..]), id) ==
            if Unreadable(frames[i]) then Err(Short)
            else if Accepts(frames[i], id) then Ok(Some(frames[i]))
            else Judge(Brought(frames[i + 1..]), id)
  {
    hide Accepts, Unreadable;
    BroughtNext(frames, i);
    assert Brought(frames[i..])[1..] == Brought(frames[i + 1..]);
  }

  lemma JudgeNothing(id: byte)
    ensures Judge([], id) == Ok(None) && Brought([]) == [] && HeardAll([]) == [] && FramesOf([]) == []
  {
  }

  /** A decision over what was heard so far is the decision over all of it. */
  lemma JudgedEarly(before: seq<Arrival>, heard: seq<Arrival>, n: nat, id: byte)
    requires n <= |heard|
    ensures Judge(before + heard[..n], id) != Ok(None) ==>
              Judge(before + heard, id) == Judge(before + heard[..n], id)
  {
    hide Judge;
    assert before + heard == before + heard[..n] + heard[n..];
    JudgeThen(before + heard[..n], heard[n..], id);
  }

  /** As long as nothing decided, the next arrival is judged alone. */
  lemma JudgeArrival(before: seq<Arrival>, heard: seq<Arrival>, n: nat, id: byte)
    requires n < |heard| && Judge(before + heard[..n], id) == Ok(None)
    ensures Judge(before + heard[..n + 1], id) ==
            if heard[n].Undecodable? then Err(heard[n].fault)
            else if heard[n].Brings? then Judge(Brought([heard[n].frame]), id)
            else Ok(None)
  {
    hide Accepts, Unreadable;
    assert before + heard[..n + 1] == before + heard[..n] + [heard[n]];
    JudgeThen(before + heard[..n], [heard[n]], id);
    assert [heard[n]][1..] == [];
    if heard[n].Brings? {
      assert [heard[n].frame][1..] == [];
      assert Brought([heard[n].frame]) == [heard[n]];
    }
  }

  lemma FramesStep(heard: seq<Arrival>, n: nat)
    requires n < |heard|
    ensures FramesOf(heard[..n + 1]) == FramesOf(heard[..n]) + (if heard[n].Brings? then [heard[n].frame] else [])
  {
    assert heard[..n + 1] == heard[..n] + [heard[n]];
    FramesThen(heard[..n], [heard[n]]);
  }

  lemma {:induction false} HeardAllThen(inboxes: seq<seq<Arrival>>, a: nat, id: byte)
    requires a <= |inboxes|
    ensures Judge(HeardAll(inboxes[..a]), id) != Ok(None) ==>
              Judge(HeardAll(inboxes), id) == Judge(HeardAll(inboxes[..a]), id)
    decreases |inboxes|
  {
    hide Judge;
    if a == |inboxes| {
      assert inboxes[..a] == inboxes;
    } else {
      var front := inboxes[..|inboxes| - 1];
      assert front[..a] == inboxes[..a];
      HeardAllThen(front, a, id);
      JudgeThen(HeardAll(front), Heard(inboxes[|inboxes| - 1]), id);
    }
  }

  class Client {
    var frames: seq<Frame>
    var invokeId: byte

    constructor ()
      ensures frames == [] && invokeId == 0
    {
      frames, invokeId := [], 0;
    }

    /** How a request begins: the next invoke id, and no frame kept. */
    method Begin() returns (id: byte)
      modifies this
      ensures id == invokeId == (old(invokeId) + 1) % 256 && frames == []
    {
      invokeId := (invokeId + 1) % 256;
      id := invokeId;
      frames := [];
    }

    /** `wait_for`: the cursor `seen` never passes a frame that was not looked at, so the outcome is the
        judgment over the frames kept and then those that arrive; and nothing is received beyond what
        decided. */
    method WaitFor(id: byte, inbox: seq<Arrival>) returns (r: Result<Option<Frame>>)
      modifies this`frames
      ensures r == Judge(Brought(old(frames)) + Heard(inbox), id)
      ensures exists n: nat :: KeptFrom(frames, old(frames), Heard(inbox), n) &&
                               (r == Ok(None) ==> n == |Heard(inbox)|) &&
                               forall m: nat | m < n ::
                                 Judge(Brought(old(frames)) + Heard(inbox)[..m], id) == Ok(None)
    {
      hide Accepts, Unreadable, Judge, Brought, FramesOf, Heard;
      ghost var kept, before, heard := frames, Brought(frames), Heard(inbox);
      var seen, n := 0, 0;
      JudgeNothing(id);
      assert frames[0..] == frames && before + heard[..0] == before;
      assert KeptFrom(frames, kept, heard, 0);
      while true
        invariant 0 <= n <= |inbox| && 0 <= seen <= |frames|
        invariant forall j | 0 <= j < n :: !inbox[j].TimedOut?
        invariant KeptFrom(frames, kept, heard, n)
        invariant Judge(Brought(frames[seen..]), id) == Judge(before + heard[..n], id)
        invariant forall m: nat | m < n :: Judge(before + heard[..m], id) == Ok(None)
        decreases |inbox| - n
      {
        var look := frames;
        JudgedEarly(before, heard, n, id);
        for i := seen to |look|
          invariant frames == look && Judge(Brought(look[i..]), id) == Judge(before + heard[..n], id)
        {
          JudgeFrame(look, i, id);
          if Unreadable(look[i]) {
            return Err(Short);
          }
          if Accepts(look[i], id) {
            return Ok(Some(look[i]));
          }
        }
        seen := |look|;
        assert look[seen..] == [];
        JudgeNothing(id);
        HeardPrefix(inbox, n);
        if n == |inbox| || inbox[n].TimedOut? {
          HeardEnds(inbox, n);
          assert heard[..n] == heard;
          return Ok(None);
        }
        HeardPrefix(inbox, n + 1);
        assert heard[n] == heard[..n + 1][n] == inbox[n];
        JudgeArrival(before, heard, n, id);
        JudgedEarly(before, heard, n + 1, id);
        FramesStep(heard, n);
        if inbox[n].Undecodable? {
          return Err(inbox[n].fault);
        }
        if inbox[n].Brings? {
          frames := frames + [inbox[n].frame];
        }
        n := n + 1;
        assert frames[seen..] == if inbox[n - 1].Brings? then [inbox[n - 1].frame] else [];
      }
    }

    /** `send_with_retries`: at most 1 + `retries` attempts, each over everything kept since the request
        began. `inboxes[a]` is what arrives in attempt `a`. The outcome is the judgment over all that is
        heard, and nothing is received beyond what decided. */
    method Request(retries: nat, inboxes: seq<seq<Arrival>>)
      returns (id: byte, r: Result<Option<Frame>>, attempts: nat)
      requires |inboxes| == 1 + retries
      modifies this
      ensures id == invokeId == (old(invokeId) + 1) % 256
      ensures 1 <= attempts <= 1 + retries
      ensures r == Judge(HeardAll(inboxes), id)
      ensures r == Ok(None) ==> attempts == 1 + retries
      ensures KeptSoFar(frames, inboxes, attempts - 1, id)
    {
      hide Accepts, Unreadable, Judge, Brought;
      id := Begin();
      r, attempts := Ok(None), 0;
      JudgeNothing(id);
      while attempts < 1 + retries && r == Ok(None)
        invariant 0 <= attempts <= 1 + retries && id == invokeId == (old(invokeId) + 1) % 256
        invariant r == Judge(HeardAll(inboxes[..attempts]), id)
        invariant attempts == 0 ==> frames == [] && r == Ok(None)
        invariant r == Ok(None) ==> frames == FramesOf(HeardAll(inboxes[..attempts]))
        invariant attempts > 0 ==> KeptSoFar(frames, inboxes, attempts - 1, id)
        decreases 1 + retries - attempts
      {
        ghost var before := HeardAll(inboxes[..attempts]);
        ghost var heard := Heard(inboxes[attempts]);
        assert inboxes[..attempts + 1][..attempts] == inboxes[..attempts];
        assert HeardAll(inboxes[..attempts + 1]) == before + heard;
        LookedAt(before, id);
        JudgeThen(Brought(FramesOf(before)), heard, id);
        JudgeThen(before, heard, id);
        FramesThen(before, heard);
        assert heard[..|heard|] == heard;
        r := WaitFor(id, inboxes[attempts]);
        ghost var n: nat :| KeptFrom(frames, FramesOf(before), heard, n) &&
                            (r == Ok(None) ==> n == |heard|) &&
                            forall m: nat | m < n :: Judge(Brought(FramesOf(before)) + heard[..m], id) == Ok(None);
        forall m: nat | m < n
          ensures Judge(before + heard[..m], id) == Ok(None)
        {
          JudgeThen(Brought(FramesOf(before)), heard[..m], id);
          JudgeThen(before, heard[..m], id);
        }
        attempts := attempts + 1;
      }
      assert attempts == |inboxes| ==> inboxes[..attempts] == inboxes;
      HeardAllThen(inboxes, attempts, id);
    }
  }

  /** What every frame that can be sent is to a client that waits for this id, by what was sent. */
  lemma SentJudged(w: Wrapping, r: Routing, apdu: Bytes, id: byte)
    requires ValidWrapping(w) && FitsBvll(WrappingMac(w) + Npdu(r, apdu))
    ensures var a := Arrived(Wrap(w, Npdu(r, apdu)));
            && a.Brings?
            && (Acceptable(a, id) <==> r.message.None? && ResponseApdu(apdu) && |apdu| > 1 && apdu[1] == id)
            && (Faulty(a) <==> r.message.None? && ResponseApdu(apdu) && |apdu| == 1)
            && (Acceptable(a, id) ==> a.frame == FrameSent(w, r, apdu))
  {
    hide DecodeFrame, Npdu;
    FrameRoundTrip(w, r, apdu);
  }

  /** A response of one octet, a well-formed datagram, makes the request that receives it raise,
      whatever arrives after it; and so does a datagram with a truncated NPDU. */
  lemma OneOctetResponse(id: byte, more: seq<Arrival>)
    ensures Faulty(Arrived([0x81, 0x0A, 0, 7, 1, 0, 0x20]))
    ensures Judge([Arrived([0x81, 0x0A, 0, 7, 1, 0, 0x20])] + more, id) == Err(Short)
    ensures Judge([Arrived([0x81, 0x0A, 0, 7, 1, 0x20, 0])] + more, id) == Err(Short)
  {
    var d := [0x81, 0x0A, 0, 7, 1, 0, 0x20];
    assert Slice(d, 4, 10 + |d|) == [1, 0, 0x20];
    assert Slice([1, 0, 0x20], 2, 5) == [0x20];
    var e := [0x81, 0x0A, 0, 7, 1, 0x20, 0];
    assert Slice(e, 4, 10 + |e|) == [1, 0x20, 0];
  }
}
