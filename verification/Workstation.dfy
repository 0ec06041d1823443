/** Matching responses to requests (wiretest/workstation.py): one receiver thread and any number of
    requesters share a lock. Each step below is one stretch of code that holds it. */
module Workstation {
  import opened Octets
  import opened Frames
  import Alarm

  /** A kept response frame. `invokeId` is None for a frame too short to have one: looking at it raises
      IndexError. `arrival` numbers the frames in the order received; two frames are never the same one. */
  datatype Response = Response(invokeId: Option<byte>, arrival: nat)

  // ----- what the code does to the list of responses

  predicate Readable(responses: seq<Response>) { forall i | 0 <= i < |responses| :: responses[i].invokeId.Some? }

  /** What the start of a request leaves in the list: the responses that do not bear its id. */
  function Purged(responses: seq<Response>, id: byte): seq<Response> {
    if responses == [] then []
    else Purged(responses[..|responses| - 1], id) +
         (if responses[|responses| - 1].invokeId == Some(id) then [] else [responses[|responses| - 1]])
  }

  /** The scan for a response with this id: Ok(None) if there is none, Err if it meets an unreadable
      frame first. */
  function Found(responses: seq<Response>, id: byte, i: nat): (r: Result<Option<nat>>)
    ensures r.Ok? && r.value.Some? ==> i <= r.value.value < |responses| && responses[r.value.value].invokeId == Some(id)
    decreases if i < |responses| then |responses| - i else 0
  {
    if i >= |responses| then Ok(None)
    else if responses[i].invokeId.None? then Err(Short)
    else if responses[i].invokeId == Some(id) then Ok(Some(i))
    else Found(responses, id, i + 1)
  }

  function Without(responses: seq<Response>, i: nat): seq<Response>
    requires i < |responses|
  {
    responses[..i] + responses[i + 1..]
  }

  class Workstation {
    var responses: seq<Response>
    var invokeId: byte
    var arrived: nat                 // the identity of the next frame
    ghost var history: seq<Option<byte>>
    ghost var requests: seq<Request>

    ghost predicate Valid()
      reads this
    {
      arrived == |history|
    }

    /** The workstation as a state of the machine below. */
    ghost function View(): Station
      reads this
    {
      Station(responses, invokeId, history, requests)
    }

    constructor ()
      ensures Valid() && View() == START
    {
      responses, invokeId, arrived, history, requests := [], 0, 0, [], [];
    }

    /** The receiver thread keeps a response. */
    method Keep(id: Option<byte>)
      requires Valid()
      modifies this
      ensures Valid() && View() == Step(old(View()), Arrives(id))
      ensures responses == old(responses) + [Response(id, old(arrived))]
    {
      responses := responses + [Response(id, arrived)];
      arrived, history := arrived + 1, history + [id];
    }

    /** The start of `request`: a new invoke id, and no old response that bears it; it raises if a kept
        response has no id. */
    method Begin() returns (id: byte, ok: bool)
      requires Valid()
      modifies this
      ensures Valid() && View() == Step(old(View()), Begins)
      ensures id == invokeId == (old(invokeId) + 1) % 256
      ensures ok == Readable(old(responses))
      ensures responses == if ok then Purged(old(responses), id) else old(responses)
    {
      invokeId := (invokeId + 1) % 256;
      id := invokeId;
      var kept: seq<Response> := [];
      for i := 0 to |responses|
        invariant kept == Purged(responses[..i], id) && View() == old(View()).(invokeId := id) && Valid()
        invariant forall j | 0 <= j < i :: responses[j].invokeId.Some?
      {
        assert responses[..i + 1][..i] == responses[..i];
        if responses[i].invokeId.None? {
          ok, requests := false, requests + [Request(id, |history|, Failed)];
          return;
        }
        if responses[i].invokeId != Some(id) {
          kept := kept + [responses[i]];
        }
      }
      assert responses[..|responses|] == responses;
      responses := kept;
      ok, requests := true, requests + [Request(id, |history|, Waiting)];
    }

    /** One pass of `attempt` over the list, for request number `k`: the first response with its id is
        taken out and returned. `last` says that the last attempt's time is up. */
    method Look(id: byte, last: bool, ghost k: nat) returns (r: Result<Option<Response>>)
      requires Valid() && IsWaiting(View(), k) && requests[k].invokeId == id
      modifies this`responses, this`requests
      ensures Valid() && View() == Step(old(View()), if last then TimesOut(k) else Looks(k))
      ensures match Found(old(responses), id, 0)
              case Ok(Some(i)) => r == Ok(Some(old(responses)[i])) && responses == Without(old(responses), i)
              case Ok(None) => r == Ok(None) && responses == old(responses)
              case Err(f) => r == Err(f) && responses == old(responses)
    {
      for i := 0 to |responses|
        invariant View() == old(View()) && Found(responses, id, i) == Found(responses, id, 0)
      {
        if responses[i].invokeId.None? {
          requests := requests[k := requests[k].(phase := Failed)];
          return Err(Short);
        }
        if responses[i].invokeId == Some(id) {
          r := Ok(Some(responses[i]));
          requests := requests[k := requests[k].(phase := Returned(responses[i]))];
          responses := responses[..i] + responses[i + 1..];
          return;
        }
      }
      requests := requests[k := requests[k].(phase := if last then GaveUp else Waiting)];
      return Ok(None);
    }
  }

  // ----- all interleavings

  datatype Phase = Waiting | Returned(response: Response) | GaveUp | Failed

  /** A request: its id, how many frames had arrived when it began, and what became of it. */
  datatype Request = Request(invokeId: byte, began: nat, phase: Phase)

  /** `history` is the id of every response that ever arrived, in order. */
  datatype Station = Station(
    responses: seq<Response>,
    invokeId: byte,
    history: seq<Option<byte>>,
    requests: seq<Request>)

  const START := Station([], 0, [], [])

  datatype Action =
    | Arrives(invokeId: Option<byte>)   // the receiver thread
    | Begins                            // some thread calls request()
    | Looks(request: nat)               // the requester scans, after a wake-up or a resend
    | TimesOut(request: nat)            // it scans once more, and the last attempt's time is up

  predicate IsWaiting(s: Station, k: nat) { k < |s.requests| && s.requests[k].phase.Waiting? }

  function Ended(s: Station, k: nat, phase: Phase): Station
    requires k < |s.requests|
  {
    s.(requests := s.requests[k := s.requests[k].(phase := phase)])
  }

  /** A scan by request `k`, and what it is after finding nothing. */
  function Pass(s: Station, k: nat, unanswered: Phase): Station {
    if !IsWaiting(s, k) then s else
    match Found(s.responses, s.requests[k].invokeId, 0)
    case Ok(Some(i)) => Ended(s, k, Returned(s.responses[i])).(responses := Without(s.responses, i))
    case Ok(None) => Ended(s, k, unanswered)
    case Err(_) => Ended(s, k, Failed)
  }

  function Step(s: Station, a: Action): Station {
    match a
    case Arrives(id) => s.(responses := s.responses + [Response(id, |s.history|)], history := s.history + [id])
    case Begins =>
      var id := (s.invokeId + 1) % 256;
      var ok := Readable(s.responses);
      s.(invokeId := id, responses := if ok then Purged(s.responses, id) else s.responses,
         requests := s.requests + [Request(id, |s.history|, if ok then Waiting else Failed)])
    case Looks(k) => Pass(s, k, Waiting)
    case TimesOut(k) => Pass(s, k, GaveUp)
  }

  function After(actions: seq<Action>): Station {
    if actions == [] then START else Step(After(actions[..|actions| - 1]), actions[|actions| - 1])
  }

  // ----- the invariant

  ghost predicate Increasing(rs: seq<Response>) { forall i, j | 0 <= i < j < |rs| :: rs[i].arrival < rs[j].arrival }

  ghost predicate Before(rs: seq<Response>, n: nat) { forall r | r in rs :: r.arrival < n }

  ghost predicate NotKept(rs: seq<Response>, arrival: nat) { forall r | r in rs :: r.arrival != arrival }

  /** No response kept for the request is older than the request. */
  ghost predicate Fresh(rs: seq<Response>, q: Request) {
    forall r | r in rs && r.invokeId == Some(q.invokeId) :: q.began <= r.arrival
  }

  /** A returned response bears the request's id, arrived after the request began, and is no longer kept. */
  ghost predicate Matched(rs: seq<Response>, q: Request, arrivals: nat) {
    q.phase.Returned? ==>
      && q.phase.response.invokeId == Some(q.invokeId)
      && q.began <= q.phase.response.arrival < arrivals
      && NotKept(rs, q.phase.response.arrival)
  }

  ghost predicate RequestOk(s: Station, k: nat)
    requires k < |s.requests|
  {
    var q := s.requests[k];
    && q.invokeId == (k + 1) % 256 && q.began <= |s.history|
    && (q.phase.Waiting? ==> Fresh(s.responses, q))
    && Matched(s.responses, q, |s.history|)
  }

  /** No response is delivered twice. */
  ghost predicate Apart(p: Request, q: Request) {
    p.phase.Returned? && q.phase.Returned? ==> p.phase.response.arrival != q.phase.response.arrival
  }

  ghost predicate Invariant(s: Station) {
    && Increasing(s.responses) && Before(s.responses, |s.history|) && s.invokeId == |s.requests| % 256
    && (forall k: nat | k < |s.requests| :: RequestOk(s, k))
    && (forall k: nat, l: nat | k < l < |s.requests| :: Apart(s.requests[k], s.requests[l]))
  }

  /** A purge keeps the order and exactly what does not bear the id. */
  lemma {:induction false} PurgedParts(responses: seq<Response>, id: byte)
    ensures forall r :: r in Purged(responses, id) <==> r in responses && r.invokeId != Some(id)
    ensures Increasing(responses) ==> Increasing(Purged(responses, id))
  {
    if responses != [] {
      var front := responses[..|responses| - 1];
      PurgedParts(front, id);
      if Increasing(responses) {
        assert Increasing(front);
        assert forall r | r in front :: r.arrival < responses[|responses| - 1].arrival;
      }
    }
  }

  lemma ArrivesKeeps(s: Station, id: Option<byte>)
    requires Invariant(s)
    ensures Invariant(Step(s, Arrives(id)))
  {
    var t := Step(s, Arrives(id));
    assert forall r | r in t.responses :: r in s.responses || r.arrival == |s.history|;
    forall k: nat | k < |t.requests|
      ensures RequestOk(t, k)
    {
      assert RequestOk(s, k);
    }
  }

  /** With fewer responses kept, what held of a request still holds. */
  lemma FewerKept(s: Station, t: Station, k: nat)
    requires k < |s.requests| && k < |t.requests| && s.requests[k] == t.requests[k] && t.history == s.history
    requires RequestOk(s, k) && forall r | r in t.responses :: r in s.responses
    ensures RequestOk(t, k)
  {
  }

  lemma BeginsKeeps(s: Station)
    requires Invariant(s)
    ensures Invariant(Step(s, Begins))
  {
    hide Purged, Matched;
    var id := (s.invokeId + 1) % 256;
    PurgedParts(s.responses, id);
    var t := Step(s, Begins);
    assert id == (|s.requests| + 1) % 256;
    assert forall r | r in t.responses :: r in s.responses;
    forall k: nat | k < |t.requests|
      ensures RequestOk(t, k)
    {
      if k < |s.requests| {
        FewerKept(s, t, k);
      } else {
        NewRequestOk(t);
      }
    }
    hide RequestOk;
  }

  lemma NewRequestOk(t: Station)
    requires t.requests != []
    requires var q := t.requests[|t.requests| - 1];
             q.invokeId == |t.requests| % 256 && q.began == |t.history| && !q.phase.Returned? &&
             (q.phase.Waiting? ==> forall r | r in t.responses :: r.invokeId != Some(q.invokeId))
    ensures RequestOk(t, |t.requests| - 1)
  {
  }

  lemma WithoutParts(rs: seq<Response>, i: nat)
    requires i < |rs| && Increasing(rs)
    ensures Increasing(Without(rs, i)) && NotKept(Without(rs, i), rs[i].arrival)
    ensures forall r | r in Without(rs, i) :: r in rs
  {
    var w := Without(rs, i);
    assert forall j | 0 <= j < |w| :: w[j] == rs[if j < i then j else j + 1];
  }

  lemma TakesKeeps(s: Station, k: nat, i: nat)
    requires Invariant(s) && IsWaiting(s, k) && i < |s.responses|
    requires s.responses[i].invokeId == Some(s.requests[k].invokeId)
    ensures Invariant(Ended(s, k, Returned(s.responses[i])).(responses := Without(s.responses, i)))
  {
    var t := Ended(s, k, Returned(s.responses[i])).(responses := Without(s.responses, i));
    WithoutParts(s.responses, i);
    assert s.responses[i] in s.responses;
    assert RequestOk(s, k);
    forall l: nat | l < |t.requests|
      ensures RequestOk(t, l) && (l != k ==> Apart(t.requests[l], t.requests[k]))
    {
      assert RequestOk(s, l);
      if l != k {
        FewerKept(s, t, l);
      }
    }
    hide RequestOk, Without;
    forall l: nat, m: nat | l < m < |t.requests|
      ensures Apart(t.requests[l], t.requests[m])
    {
      assert Apart(s.requests[l], s.requests[m]);
    }
  }

  lemma EndsKeeps(s: Station, k: nat, phase: Phase)
    requires Invariant(s) && IsWaiting(s, k) && !phase.Returned?
    ensures Invariant(Ended(s, k, phase))
  {
    var t := Ended(s, k, phase);
    forall l: nat | l < |t.requests|
      ensures RequestOk(t, l)
    {
      assert RequestOk(s, l);
    }
    hide RequestOk;
    forall l: nat, m: nat | l < m < |t.requests|
      ensures Apart(t.requests[l], t.requests[m])
    {
      assert Apart(s.requests[l], s.requests[m]);
    }
  }

  lemma PassKeeps(s: Station, k: nat, unanswered: Phase)
    requires Invariant(s) && !unanswered.Returned?
    ensures Invariant(Pass(s, k, unanswered))
  {
    hide Invariant;
    if IsWaiting(s, k) {
      var r := Found(s.responses, s.requests[k].invokeId, 0);
      if r.Ok? && r.value.Some? {
        TakesKeeps(s, k, r.value.value);
      } else {
        EndsKeeps(s, k, if r.Ok? then unanswered else Failed);
      }
    }
  }

  /** In every interleaving of the receiver thread and any number of requesters: a request returns only a
      response with its own invoke id that arrived after the request began, no response is delivered
      twice, and the n-th request has the id n modulo 256. */
  lemma {:induction false} EveryInterleaving(actions: seq<Action>)
    ensures Invariant(After(actions))
    decreases |actions|
  {
    if actions != [] {
      var s := After(actions[..|actions| - 1]);
      EveryInterleaving(actions[..|actions| - 1]);
      hide Invariant;
      match actions[|actions| - 1]
      case Arrives(id) => ArrivesKeeps(s, id);
      case Begins => BeginsKeeps(s);
      case TimesOut(k) => PassKeeps(s, k, GaveUp);
      case Looks(k) => PassKeeps(s, k, Waiting);
    }
  }

  lemma Modulo256(a: nat, b: nat)
    requires a < b < a + 256
    ensures a % 256 != b % 256
  {
    assert a == 256 * (a / 256) + a % 256 && b == 256 * (b / 256) + b % 256;
  }

  // ----- nothing is lost

  predicate Kept(s: Station, a: nat) { a < |s.history| && Response(s.history[a], a) in s.responses }

  predicate Delivered(s: Station, a: nat, k: nat) {
    k < |s.requests| && s.requests[k].phase.Returned? && s.requests[k].phase.response.arrival == a
  }

  /** A later request took the same id. */
  predicate Superseded(s: Station, a: nat, k: nat) {
    a < |s.history| && k < |s.requests| && a < s.requests[k].began && s.history[a] == Some(s.requests[k].invokeId)
  }

  ghost predicate Accounted(s: Station, a: nat) {
    Kept(s, a) || exists k: nat :: Delivered(s, a, k) || Superseded(s, a, k)
  }

  ghost predicate AllAccounted(s: Station) { forall a: nat | a < |s.history| :: Accounted(s, a) }

  /** A response once delivered or superseded stays so: requests only end, and none is forgotten. */
  lemma StaysAccounted(s: Station, t: Station, a: nat)
    requires Accounted(s, a) && a < |s.history| && s.history <= t.history && |s.requests| <= |t.requests|
    requires Kept(s, a) ==> Kept(t, a) || exists k: nat :: Delivered(t, a, k) || Superseded(t, a, k)
    requires forall k: nat | k < |s.requests| ::
               t.requests[k].invokeId == s.requests[k].invokeId && t.requests[k].began == s.requests[k].began &&
               (s.requests[k].phase.Returned? ==> t.requests[k] == s.requests[k])
    ensures Accounted(t, a)
  {
    if !Kept(s, a) {
      var k: nat :| Delivered(s, a, k) || Superseded(s, a, k);
      assert Delivered(t, a, k) || Superseded(t, a, k);
    }
  }

  lemma StepAccounts(s: Station, action: Action, a: nat)
    requires AllAccounted(s) && a < |Step(s, action).history|
    ensures Accounted(Step(s, action), a)
  {
    var t := Step(s, action);
    if a == |s.history| {
      assert Response(t.history[a], a) in t.responses;
    } else {
      assert Accounted(s, a);
      if Kept(s, a) {
        KeptMoves(s, action, a);
      }
      StaysAccounted(s, t, a);
    }
  }

  lemma KeptMoves(s: Station, action: Action, a: nat)
    requires Kept(s, a)
    ensures var t := Step(s, action); Kept(t, a) || exists k: nat :: Delivered(t, a, k) || Superseded(t, a, k)
  {
    var t := Step(s, action);
    var r := Response(s.history[a], a);
    match action
    case Arrives(_) => assert r in t.responses && t.history[a] == s.history[a];
    case Begins =>
      var id := (s.invokeId + 1) % 256;
      PurgedParts(s.responses, id);
      if r.invokeId == Some(id) {
        assert Superseded(t, a, |s.requests|);
      }
    case Looks(k) => KeptPass(s, k, Waiting, a);
    case TimesOut(k) => KeptPass(s, k, GaveUp, a);
  }

  lemma KeptPass(s: Station, k: nat, unanswered: Phase, a: nat)
    requires Kept(s, a)
    ensures Kept(Pass(s, k, unanswered), a) || Delivered(Pass(s, k, unanswered), a, k)
  {
    if IsWaiting(s, k) {
      var r := Response(s.history[a], a);
      var found := Found(s.responses, s.requests[k].invokeId, 0);
      if found.Ok? && found.value.Some? && s.responses[found.value.value] != r {
        OthersKept(s.responses, found.value.value, r);
      }
    }
  }

  lemma OthersKept(rs: seq<Response>, i: nat, r: Response)
    requires i < |rs| && r in rs && rs[i] != r
    ensures r in Without(rs, i)
  {
    var j :| 0 <= j < |rs| && rs[j] == r;
    assert Without(rs, i)[if j < i then j else j - 1] == r;
  }

  /** In every interleaving each response that arrived is still kept, was delivered to one request, or
      gave way to a later request with the same id. */
  lemma {:induction false} NothingLost(actions: seq<Action>)
    ensures AllAccounted(After(actions))
    decreases |actions|
  {
    if actions != [] {
      var s := After(actions[..|actions| - 1]);
      NothingLost(actions[..|actions| - 1]);
      forall a: nat | a < |After(actions).history|
        ensures Accounted(After(actions), a)
      {
        StepAccounts(s, actions[|actions| - 1], a);
      }
    }
  }

  lemma IdsApart(s: Station, k: nat, l: nat)
    requires Invariant(s) && k < l < |s.requests| && l < k + 256
    ensures s.requests[k].invokeId != s.requests[l].invokeId
  {
    assert RequestOk(s, k) && RequestOk(s, l);
    hide Invariant, Matched, Fresh;
    Modulo256(k + 1, l + 1);
  }

  /** Any 256 consecutive requests have distinct ids. */
  lemma DistinctIds(actions: seq<Action>, k: nat, l: nat)
    requires k < l < |After(actions).requests| && l < k + 256
    ensures After(actions).requests[k].invokeId != After(actions).requests[l].invokeId
  {
    EveryInterleaving(actions);
    hide After, Invariant;
    IdsApart(After(actions), k, l);
  }

  /** What a look comes to, exactly: it raises if it meets an unreadable response before one with the
      id, it finds the first with the id, and it finds nothing if all are readable and none has the id. */
  lemma {:induction false} FoundFrom(responses: seq<Response>, id: byte, i: nat)
    ensures Found(responses, id, i).Err? <==>
            exists j | i <= j < |responses| ::
              responses[j].invokeId.None? && forall l | i <= l < j :: responses[l].invokeId != Some(id)
    ensures Found(responses, id, i) == Ok(None) <==>
            forall j | i <= j < |responses| :: responses[j].invokeId.Some? && responses[j].invokeId != Some(id)
    ensures Found(responses, id, i).Ok? && Found(responses, id, i).value.Some? ==>
              forall j | i <= j < Found(responses, id, i).value.value ::
                responses[j].invokeId.Some? && responses[j].invokeId != Some(id)
    decreases if i < |responses| then |responses| - i else 0
  {
    if i < |responses| && responses[i].invokeId.Some? && responses[i].invokeId != Some(id) {
      FoundFrom(responses, id, i + 1);
    }
  }

  /** The first response with the id, and none before it that cannot be read. */
  predicate IsFirst(responses: seq<Response>, id: byte, i: nat) {
    && i < |responses| && responses[i].invokeId == Some(id)
    && forall j | 0 <= j < i :: responses[j].invokeId.Some? && responses[j].invokeId != Some(id)
  }

  /** A response that cannot be read, and none with the id before it. */
  predicate IsObstacle(responses: seq<Response>, id: byte, i: nat) {
    && i < |responses| && responses[i].invokeId.None?
    && forall j | 0 <= j < i :: responses[j].invokeId.Some? && responses[j].invokeId != Some(id)
  }

  /** What a scan by a waiting request comes to, exactly: it returns the first response with its id and takes
      it out of the list; it raises at a response that cannot be read; or it goes on waiting, or gives up
      if its time is up. Every other request is as it was. */
  lemma LookExactly(s: Station, k: nat, last: bool)
    requires IsWaiting(s, k)
    ensures var t, rs := Step(s, if last then TimesOut(k) else Looks(k)), s.responses;
            var id := s.requests[k].invokeId;
            && |t.requests| == |s.requests| && t.history == s.history && t.invokeId == s.invokeId
            && (forall l | 0 <= l < |s.requests| && l != k :: t.requests[l] == s.requests[l])
            && (forall i: nat | IsFirst(rs, id, i) ::
                  t.requests[k].phase == Returned(rs[i]) && t.responses == rs[..i] + rs[i + 1..])
            && (forall i: nat | IsObstacle(rs, id, i) :: t.requests[k].phase == Failed && t.responses == rs)
            && ((forall j | 0 <= j < |rs| :: rs[j].invokeId.Some? && rs[j].invokeId != Some(id)) ==>
                  t.requests[k].phase == (if last then GaveUp else Waiting) && t.responses == rs)
  {
    var rs, id := s.responses, s.requests[k].invokeId;
    FoundFrom(rs, id, 0);
    if Found(rs, id, 0).Ok? && Found(rs, id, 0).value.Some? {
      assert IsFirst(rs, id, Found(rs, id, 0).value.value);
    } else if Found(rs, id, 0).Err? {
      ObstacleMet(rs, id, 0);
      var j: nat :| IsObstacle(rs, id, j);
      assert rs[j].invokeId.None?;
    }
  }

  lemma {:induction false} ObstacleMet(responses: seq<Response>, id: byte, i: nat)
    requires Found(responses, id, i).Err?
    requires forall j | 0 <= j < i && j < |responses| :: responses[j].invokeId.Some? && responses[j].invokeId != Some(id)
    ensures exists j: nat :: IsObstacle(responses, id, j)
    decreases if i < |responses| then |responses| - i else 0
  {
    if responses[i].invokeId.None? {
      assert IsObstacle(responses, id, i);
    } else {
      ObstacleMet(responses, id, i + 1);
    }
  }

  // ----- who takes a response

  /** The id counter has not come round since request `k` began. */
  predicate Latest(s: Station, k: nat) { k < |s.requests| <= k + 256 }

  /** `l` is an earlier request with the id of `k`: whole turns of the id counter lie between them. */
  predicate Older(k: nat, l: nat) { l + 256 <= k && (k - l) % 256 == 0 }

  lemma Turns(k: nat, l: nat)
    requires l <= k
    ensures (l + 1) % 256 == (k + 1) % 256 <==> (k - l) % 256 == 0
  {
    var d := k - l;
    assert l + 1 == 256 * ((l + 1) / 256) + (l + 1) % 256 && d == 256 * (d / 256) + d % 256;
    assert k + 1 == 256 * ((k + 1) / 256) + (k + 1) % 256;
  }

  lemma SameIdOlder(s: Station, k: nat, l: nat)
    requires Invariant(s) && Latest(s, k) && l < |s.requests| && l != k
    ensures s.requests[l].invokeId == s.requests[k].invokeId <==> Older(k, l)
  {
    assert RequestOk(s, k) && RequestOk(s, l);
    hide Invariant, Matched, Fresh;
    if k < l {
      Modulo256(k + 1, l + 1);
    } else {
      Turns(k, l);
      if k < l + 256 {
        Modulo256(l + 1, k + 1);
      }
    }
  }

  predicate Finds(s: Station, id: byte) { Found(s.responses, id, 0).Ok? && Found(s.responses, id, 0).value.Some? }

  /** The step hands a response with this id to request `l`. */
  predicate Takes(s: Station, action: Action, l: nat, id: byte) {
    var t := Step(s, action);
    && IsWaiting(s, l) && l < |t.requests| && t.requests[l].phase.Returned?
    && t.requests[l].phase.response.invokeId == Some(id)
  }

  lemma TakesByLooking(s: Station, action: Action, l: nat, id: byte)
    ensures Takes(s, action, l, id) <==>
            && IsWaiting(s, l) && (action == Looks(l) || action == TimesOut(l))
            && s.requests[l].invokeId == id && Finds(s, id)
  {
    hide Found, Purged, Readable;
  }

  /** While the id counter has not come round, a step takes a response with the id of request `k` for
      another request exactly if it is a scan by an older waiting request with that id, and the scan
      finds one. */
  lemma TakenExactly(actions: seq<Action>, action: Action, k: nat, l: nat)
    requires Latest(After(actions), k) && l != k
    ensures var s := After(actions);
            Takes(s, action, l, s.requests[k].invokeId) <==>
            && Older(k, l) && IsWaiting(s, l) && (action == Looks(l) || action == TimesOut(l))
            && Finds(s, s.requests[k].invokeId)
  {
    EveryInterleaving(actions);
    var s := After(actions);
    hide After, Invariant, Finds, Takes;
    TakesByLooking(s, action, l, s.requests[k].invokeId);
    if l < |s.requests| {
      SameIdOlder(s, k, l);
    }
  }

  /** While the id counter has not come round, the next step can take a response with the id of a waiting
      request for another one exactly if a response can be found and an older request with the id
      still waits. */
  lemma OnlyTaker(actions: seq<Action>, k: nat)
    requires Latest(After(actions), k) && IsWaiting(After(actions), k)
    ensures var s := After(actions);
            var id := s.requests[k].invokeId;
            (exists action, l: nat :: Takes(s, action, l, id) && l != k) <==>
            Finds(s, id) && exists l: nat :: Older(k, l) && IsWaiting(s, l)
  {
    var s := After(actions);
    var id := s.requests[k].invokeId;
    hide Finds, Takes, IsWaiting, Older;
    if action, l: nat :| Takes(s, action, l, id) && l != k {
      TakenExactly(actions, action, k, l);
    }
    if l: nat :| Finds(s, id) && Older(k, l) && IsWaiting(s, l) {
      OlderIsOther(k, l);
      TakenExactly(actions, Looks(l), k, l);
      assert Takes(s, Looks(l), l, id);
    }
  }

  lemma OlderIsOther(k: nat, l: nat)
    requires Older(k, l)
    ensures l < k
  {
  }

  function Begun(n: nat): seq<Action> { if n == 0 then [] else Begun(n - 1) + [Begins] }

  function AllWaiting(n: nat): seq<Request> {
    if n == 0 then [] else AllWaiting(n - 1) + [Request(n % 256, 0, Waiting)]
  }

  lemma {:induction false} AllWaitingAt(n: nat, k: nat)
    requires k < n
    ensures |AllWaiting(n)| == n && AllWaiting(n)[k] == Request((k + 1) % 256, 0, Waiting)
  {
    if n > 1 {
      AllWaitingAt(n - 1, if k < n - 1 then k else 0);
    }
  }

  lemma {:induction false} AfterBegun(n: nat)
    ensures After(Begun(n)) == Station([], n % 256, [], AllWaiting(n))
  {
    if n > 0 {
      AfterBegun(n - 1);
      AfterOneMore(Begun(n - 1), Begins);
      hide After, Step;
      NextId(n);
      NoneKept((n - 1) % 256, AllWaiting(n - 1));
    }
  }

  lemma NextId(n: nat)
    requires n > 0
    ensures ((n - 1) % 256 + 1) % 256 == n % 256
  {
  }

  lemma NoneKept(id: byte, requests: seq<Request>)
    ensures var next := (id + 1) % 256;
            Step(Station([], id, [], requests), Begins) ==
            Station([], next, [], requests + [Request(next, 0, Waiting)])
  {
  }

  lemma OneKept(id: byte, requests: seq<Request>)
    requires requests != [] && requests[0] == Request(1, 0, Waiting)
    ensures var s := Step(Station([], id, [], requests), Arrives(Some(1)));
            && s == Station([Response(Some(1), 0)], id, [Some(1)], requests)
            && Step(s, Looks(0)) ==
               Station([], id, [Some(1)], requests[0 := Request(1, 0, Returned(Response(Some(1), 0)))])
  {
    var s := Step(Station([], id, [], requests), Arrives(Some(1)));
    assert Found(s.responses, 1, 0) == Ok(Some(0));
  }

  lemma AfterOneMore(actions: seq<Action>, a: Action)
    ensures After(actions + [a]) == Step(After(actions), a)
  {
    assert (actions + [a])[..|actions|] == actions;
  }

  /** Runs in which the first request takes the response of a later one: after `k` more have begun, `k` a
      multiple of 256, the last request waits with the id 1, nothing has begun since it did, a response
      with this id arrives, and the first request, which also waits, scans. */
  lemma OlderTakes(k: nat)
    requires k > 0 && k % 256 == 0
    ensures var s := After(Begun(k + 1) + [Arrives(Some(1))]);
            && Latest(s, k) && |s.requests| == k + 1 && s.requests[k] == Request(1, 0, Waiting)
            && s.history == [Some(1)]
    ensures var t := After(Begun(k + 1) + [Arrives(Some(1))] + [Looks(0)]);
            && |t.requests| == k + 1 && t.requests[0].phase == Returned(Response(Some(1), 0))
            && t.requests[k].phase.Waiting? && t.responses == []
  {
    hide After, AllWaiting, Begun, Step;
    var n, id := k + 1, (k + 1) % 256;
    FirstId(k);
    AfterBegun(n);
    AfterOneMore(Begun(n), Arrives(Some(1)));
    AfterOneMore(Begun(n) + [Arrives(Some(1))], Looks(0));
    AllWaitingAt(n, 0);
    AllWaitingAt(n, k);
    OneKept(id, AllWaiting(n));
  }

  lemma FirstId(k: nat)
    requires k > 0 && k % 256 == 0
    ensures (k + 1) % 256 == 1 && k >= 256
  {
  }

  // ----- where a response goes

  ghost predicate Chronological(s: Station) {
    && (forall k | 0 <= k < |s.requests| :: s.requests[k].began <= |s.history|)
    && (forall k, l | 0 <= k < l < |s.requests| :: s.requests[k].began <= s.requests[l].began)
  }

  /** What a step never changes of a request. */
  lemma StepPersists(s: Station, a: Action)
    ensures var t := Step(s, a);
            && |s.requests| <= |t.requests| && s.history <= t.history
            && (forall k | 0 <= k < |s.requests| ::
                  && t.requests[k].began == s.requests[k].began && t.requests[k].invokeId == s.requests[k].invokeId
                  && (!s.requests[k].phase.Waiting? ==> t.requests[k] == s.requests[k]))
            && (forall k | |s.requests| <= k < |t.requests| :: t.requests[k].began == |s.history|)
  {
    hide Found, Purged, Readable, Without;
  }

  lemma {:induction false} InOrder(actions: seq<Action>)
    ensures Chronological(After(actions))
    decreases |actions|
  {
    if actions != [] {
      InOrder(actions[..|actions| - 1]);
      hide Step;
      StepPersists(After(actions[..|actions| - 1]), actions[|actions| - 1]);
    }
  }

  lemma {:induction false} Persists(before: seq<Action>, after: seq<Action>, k: nat)
    requires k < |After(before).requests|
    ensures var s, t := After(before), After(before + after);
            && k < |t.requests| && t.requests[k].began == s.requests[k].began && s.history <= t.history
            && (!IsWaiting(s, k) ==> t.requests[k] == s.requests[k])
    decreases |after|
  {
    if after == [] {
      assert before + after == before;
    } else {
      var front, last := after[..|after| - 1], after[|after| - 1];
      Persists(before, front, k);
      assert before + after == before + front + [last];
      AfterOneMore(before + front, last);
      hide After, Step;
      StepPersists(After(before + front), last);
    }
  }

  ghost predicate TakenByOlder(s: Station, a: nat, k: nat) { exists l: nat :: Older(k, l) && Delivered(s, a, l) }

  /** In every interleaving, while the id counter has not come round, a response with the id of a request
      that arrived since it began is still kept, was delivered to that request, or was delivered to an
      older request with the same id. */
  lemma ResponseGoes(actions: seq<Action>, k: nat, a: nat)
    requires var s := After(actions);
             Latest(s, k) && s.requests[k].began <= a < |s.history| && s.history[a] == Some(s.requests[k].invokeId)
    ensures var s := After(actions); Kept(s, a) || Delivered(s, a, k) || TakenByOlder(s, a, k)
  {
    EveryInterleaving(actions);
    NothingLost(actions);
    HistoryKept(actions);
    InOrder(actions);
    hide After, Invariant;
    GoesTo(After(actions), k, a);
  }

  lemma GoesTo(s: Station, k: nat, a: nat)
    requires Invariant(s) && AllAccounted(s) && TrueToHistory(s) && Chronological(s) && Latest(s, k)
    requires s.requests[k].began <= a < |s.history| && s.history[a] == Some(s.requests[k].invokeId)
    ensures Kept(s, a) || Delivered(s, a, k) || TakenByOlder(s, a, k)
  {
    assert Accounted(s, a);
    if !Kept(s, a) && !Delivered(s, a, k) {
      var l: nat :| Delivered(s, a, l) || Superseded(s, a, l);
      assert l != k;
      BearsId(s, a, l);
      hide Invariant, AllAccounted, TrueToHistory;
      SameIdOlder(s, k, l);
      assert !Superseded(s, a, l);
    }
  }

  lemma BearsId(s: Station, a: nat, l: nat)
    requires Invariant(s) && TrueToHistory(s) && (Delivered(s, a, l) || Superseded(s, a, l)) && a < |s.history|
    ensures s.history[a] == Some(s.requests[l].invokeId)
  {
    assert RequestOk(s, l) && DeliveredTrue(s, l);
  }

  /** Request number `k` begins after `before`, and the run goes on. Until the id counter has come round, if
      the response that arrives as number `a` bears its id, it is kept for it or delivered to it. */
  ghost predicate Own(before: seq<Action>, after: seq<Action>, a: nat) {
    var k, s := |After(before).requests|, After(before + [Begins] + after);
    Latest(s, k) && |After(before).history| <= a < |s.history| && s.history[a] == Some(s.requests[k].invokeId) ==>
      Kept(s, a) || Delivered(s, a, k)
  }

  ghost predicate NoOlderWaits(s: Station, k: nat) { forall l: nat | Older(k, l) :: !IsWaiting(s, l) }

  lemma OwnResponses(before: seq<Action>, after: seq<Action>, a: nat)
    requires NoOlderWaits(After(before), |After(before).requests|)
    ensures Own(before, after, a)
  {
    hide After, TakenByOlder, NoOlderWaits, Purged;
    var k := |After(before).requests|;
    var run := before + [Begins] + after;
    AfterOneMore(before, Begins);
    Persists(before + [Begins], after, k);
    assert run == before + ([Begins] + after);
    if !Own(before, after, a) {
      assert After(run).requests[k].began == |After(before).history|;
      ResponseGoes(run, k, a);
      OlderEnded(before, [Begins] + after, k, a);
    }
  }

  /** With an older request waiting, one response and one scan by it are enough. */
  lemma OlderCanTake(before: seq<Action>, k: nat, l: nat)
    requires k == |After(before).requests| && IsWaiting(After(before + [Begins]), k)
    requires Older(k, l) && IsWaiting(After(before), l)
    ensures !Own(before, [Arrives(Some((k + 1) % 256)), Looks(l)], |After(before).history|)
  {
    hide After, Step;
    var id := (k + 1) % 256;
    var s := After(before);
    EveryInterleaving(before);
    AfterOneMore(before, Begins);
    AfterOneMore(before + [Begins], Arrives(Some(id)));
    AfterOneMore(before + [Begins] + [Arrives(Some(id))], Looks(l));
    assert before + [Begins] + [Arrives(Some(id)), Looks(l)] == before + [Begins] + [Arrives(Some(id))] + [Looks(l)];
    TakesFromNew(s, k, l);
  }

  lemma TakesFromNew(s: Station, k: nat, l: nat)
    requires Invariant(s) && k == |s.requests| && Older(k, l) && IsWaiting(s, l) && IsWaiting(Step(s, Begins), k)
    ensures var id := (k + 1) % 256;
            var t := Step(Step(Step(s, Begins), Arrives(Some(id))), Looks(l));
            && |t.requests| == k + 1 && t.requests[k].phase.Waiting? && t.requests[k].invokeId == id
            && |t.history| == |s.history| + 1 && t.history[|s.history|] == Some(id) && !Kept(t, |s.history|)
  {
    hide Found, Purged, Without, Invariant;
    var id := (k + 1) % 256;
    var u := Step(s, Begins);
    BeginsId(s, k, l);
    PurgedParts(s.responses, id);
    assert forall r | r in s.responses :: r.invokeId.Some?;
    NewestFound(u.responses, Response(Some(id), |s.history|), id);
  }

  lemma BeginsId(s: Station, k: nat, l: nat)
    requires Invariant(s) && k == |s.requests| && Older(k, l)
    ensures (s.invokeId + 1) % 256 == (k + 1) % 256 == s.requests[l].invokeId
  {
    assert RequestOk(s, l);
    hide RequestOk;
    NextId(k + 1);
    Turns(k, l);
  }

  lemma NewestFound(responses: seq<Response>, r: Response, id: byte)
    requires r.invokeId == Some(id) && forall x | x in responses :: x.invokeId.Some? && x.invokeId != Some(id)
    ensures Found(responses + [r], id, 0) == Ok(Some(|responses|))
    ensures Without(responses + [r], |responses|) == responses
  {
    var all := responses + [r];
    FoundFrom(all, id, 0);
    assert all[|responses|] == r;
    assert forall i | 0 <= i < |responses| :: all[i] in responses;
    assert Found(all, id, 0).Ok? && Found(all, id, 0).value.Some?;
  }

  /** A request that waits once it has begun can count on every response with its id, until the id counter
      has come round and however the run goes on, exactly if no older request with that id waited when it
      began. */
  lemma OwnExactly(before: seq<Action>)
    requires IsWaiting(After(before + [Begins]), |After(before).requests|)
    ensures (forall after, a: nat :: Own(before, after, a)) <==>
            NoOlderWaits(After(before), |After(before).requests|)
  {
    hide Own, After, IsWaiting, Older;
    var k := |After(before).requests|;
    if NoOlderWaits(After(before), k) {
      forall after, a: nat
        ensures Own(before, after, a)
      {
        OwnResponses(before, after, a);
      }
    } else {
      var l: nat :| Older(k, l) && IsWaiting(After(before), l);
      OlderCanTake(before, k, l);
    }
  }

  lemma OlderEnded(before: seq<Action>, after: seq<Action>, k: nat, a: nat)
    requires k == |After(before).requests| && |After(before).history| <= a
    requires NoOlderWaits(After(before), k)
    ensures !TakenByOlder(After(before + after), a, k)
  {
    EveryInterleaving(before);
    forall l: nat | Older(k, l)
      ensures !Delivered(After(before + after), a, l)
    {
      Persists(before, after, l);
      assert RequestOk(After(before), l);
    }
  }

  /** While the id counter has not come round, a request gives up only if every response with its id that
      arrived since it began went to an older request with the same id. */
  lemma GivesUpAfter(actions: seq<Action>, k: nat, a: nat)
    requires var s := After(actions);
             && IsWaiting(s, k) && Latest(s, k) && Step(s, TimesOut(k)).requests[k].phase.GaveUp?
             && s.requests[k].began <= a < |s.history| && s.history[a] == Some(s.requests[k].invokeId)
    ensures TakenByOlder(After(actions), a, k)
  {
    var s := After(actions);
    ResponseGoes(actions, k, a);
    hide After, Found, TakenByOlder;
    FoundFrom(s.responses, s.requests[k].invokeId, 0);
    assert Found(s.responses, s.requests[k].invokeId, 0) == Ok(None);
    assert !Kept(s, a);
  }

  /** While at most 256 requests have begun, a request gives up only if no response with its id has
      arrived since it began. */
  lemma GivesUpUnanswered(actions: seq<Action>, k: nat, a: nat)
    requires var s := After(actions);
             && IsWaiting(s, k) && |s.requests| <= 256 && Step(s, TimesOut(k)).requests[k].phase.GaveUp?
             && s.requests[k].began <= a < |s.history|
    ensures After(actions).history[a] != Some(After(actions).requests[k].invokeId)
  {
    hide After, Step;
    if After(actions).history[a] == Some(After(actions).requests[k].invokeId) {
      GivesUpAfter(actions, k, a);
    }
  }

  // ----- responses without an invoke id

  /** What the receiver thread does with a datagram. A response is kept, its id None if it is too short
      for one; an event notification is kept elsewhere; anything else is dropped. A datagram, or a
      notification, that cannot be decoded ends the thread. */
  function Receives(data: Bytes): Result<Option<Action>> {
    var f :- DecodeFrame(data);
    if !f.ok || f.networkMessage.Some? then Ok(None)
    else if Alarm.IsEventNotification(f) then
      var _ :- Alarm.DecodedEvent(f);
      Ok(None)
    else if IsResponse(PduType(f)) then Ok(Some(Arrives(if InvokeId(f).Ok? then InvokeId(f).value else None)))
    else Ok(None)
  }

  /** A response has no invoke id exactly if it is one octet long, and there is such a datagram. */
  lemma NoIdExactly(data: Bytes)
    ensures Receives(data) == Ok(Some(Arrives(None))) <==>
            && DecodeFrame(data).Ok? && DecodeFrame(data).value.ok
            && IsResponse(PduType(DecodeFrame(data).value)) && |DecodeFrame(data).value.payload| == 1
    ensures Receives(data) == Ok(Some(Arrives(None))) ==> InvokeId(DecodeFrame(data).value).Err?
    ensures Receives([0x81, 0x0A, 0, 7, 1, 0, 0x20]) == Ok(Some(Arrives(None)))
  {
    ShortResponse();
    hide Alarm.DecodedEvent, DecodeFrame;
  }

  /** The services of an event notification, by their octets. */
  predicate NotificationApdu(apdu: Bytes) {
    || (|apdu| > 3 && apdu[0] / 16 == 0 && apdu[3] == 2)
    || (|apdu| > 1 && apdu[0] / 16 == 1 && apdu[1] == 3)
  }

  /** What the receiver thread does with every frame that can be sent, by what was sent: a response is kept
      under the id in its second octet, without an id if it has none; a network message, a request and
      anything else bring nothing; only an event notification can end the thread. */
  lemma ReceivesSent(w: Wrapping, r: Routing, apdu: Bytes)
    requires ValidWrapping(w) && FitsBvll(WrappingMac(w) + Npdu(r, apdu))
    ensures var got := Receives(Wrap(w, Npdu(r, apdu)));
            if r.message.None? && ResponseApdu(apdu) then
              got == Ok(Some(Arrives(if |apdu| > 1 then Some(apdu[1]) else None)))
            else
              got == Ok(None) || (got.Err? && r.message.None? && NotificationApdu(apdu))
  {
    hide DecodeFrame, Npdu, Alarm.DecodedEvent;
    FrameRoundTrip(w, r, apdu);
  }

  /** A notification as `event_notification` makes it is decoded, and brings no response. */
  lemma NotificationReceived(w: Wrapping, r: Routing, n: Alarm.Notification, confirmed: Option<byte>)
    requires Alarm.Sendable(n) && (n.messageText.Some? ==> |n.messageText.value| <= 252) && r.message.None?
    requires ValidWrapping(w) && FitsBvll(WrappingMac(w) + Npdu(r, Alarm.EventNotificationApdu(n, confirmed)))
    ensures Receives(Wrap(w, Npdu(r, Alarm.EventNotificationApdu(n, confirmed)))) == Ok(None)
  {
    hide DecodeFrame, Npdu, Alarm.DecodedEvent, Alarm.EventNotificationApdu, Alarm.IsEventNotification, Alarm.Span,
         Alarm.Message, Alarm.Meant;
    var apdu := Alarm.EventNotificationApdu(n, confirmed);
    FrameRoundTrip(w, r, apdu);
    Alarm.NotificationRoundTrip(n, confirmed, FrameSent(w, r, apdu));
  }

  /** The workstation keeps a response under an id exactly if the single-threaded client would accept it
      for that id. */
  lemma KeptIfAccepted(data: Bytes, id: byte)
    ensures Receives(data) == Ok(Some(Arrives(Some(id)))) <==>
            DecodeFrame(data).Ok? && Accepts(DecodeFrame(data).value, id)
  {
    hide DecodeFrame, Alarm.DecodedEvent;
  }

  lemma ShortResponse()
    ensures DecodeFrame([0x81, 0x0A, 0, 7, 1, 0, 0x20]) ==
            Ok(BLANK.(ok := true, bvlcFunction := Some(0x0A), bvllData := [1, 0, 0x20], hasNpdu := true,
                      payload := [0x20]))
  {
    var d := [0x81, 0x0A, 0, 7, 1, 0, 0x20];
    assert d[4..] == [1, 0, 0x20];
    assert Slice(d, 4, 10 + |d|) == [1, 0, 0x20];
    assert Slice([1, 0, 0x20], 2, 5) == [0x20];
  }

  ghost predicate KeptTrue(s: Station, r: Response) { r.arrival < |s.history| && s.history[r.arrival] == r.invokeId }

  ghost predicate DeliveredTrue(s: Station, k: nat)
    requires k < |s.requests|
  {
    s.requests[k].phase.Returned? ==> KeptTrue(s, s.requests[k].phase.response)
  }

  /** Kept and delivered responses are as they arrived, and one without an id is never removed. */
  ghost predicate TrueToHistory(s: Station) {
    && (forall r | r in s.responses :: KeptTrue(s, r))
    && (forall k: nat | k < |s.requests| :: DeliveredTrue(s, k))
    && (forall a: nat | a < |s.history| && s.history[a].None? :: Kept(s, a))
  }

  lemma PassTrue(s: Station, k: nat, unanswered: Phase)
    requires TrueToHistory(s) && !unanswered.Returned?
    ensures TrueToHistory(Pass(s, k, unanswered))
  {
    var t := Pass(s, k, unanswered);
    if IsWaiting(s, k) {
      var found := Found(s.responses, s.requests[k].invokeId, 0);
      if found.Ok? && found.value.Some? {
        var i := found.value.value;
        assert s.responses[i] in s.responses && KeptTrue(s, s.responses[i]);
        assert forall r | r in t.responses :: r in s.responses;
        forall a: nat | a < |t.history| && t.history[a].None?
          ensures Kept(t, a)
        {
          assert Kept(s, a);
          OthersKept(s.responses, i, Response(None, a));
        }
      }
      forall l: nat | l < |t.requests|
        ensures DeliveredTrue(t, l)
      {
        assert DeliveredTrue(s, l);
      }
    }
  }

  lemma BeginsTrue(s: Station)
    requires TrueToHistory(s)
    ensures TrueToHistory(Step(s, Begins))
  {
    hide Purged;
    var t := Step(s, Begins);
    PurgedParts(s.responses, t.invokeId);
    forall l: nat | l < |t.requests|
      ensures DeliveredTrue(t, l)
    {
      assert l < |s.requests| ==> DeliveredTrue(s, l);
    }
    assert forall a: nat | a < |t.history| && t.history[a].None? :: Kept(s, a);
  }

  lemma ArrivesTrue(s: Station, id: Option<byte>)
    requires TrueToHistory(s)
    ensures TrueToHistory(Step(s, Arrives(id)))
  {
    var t := Step(s, Arrives(id));
    forall r | r in t.responses
      ensures KeptTrue(t, r)
    {
      assert r in s.responses || r == Response(id, |s.history|);
    }
    forall l: nat | l < |t.requests|
      ensures DeliveredTrue(t, l)
    {
      assert DeliveredTrue(s, l);
    }
    forall a: nat | a < |t.history| && t.history[a].None?
      ensures Kept(t, a)
    {
      assert a < |s.history| ==> Kept(s, a);
    }
  }

  lemma {:induction false} HistoryKept(actions: seq<Action>)
    ensures TrueToHistory(After(actions))
    decreases |actions|
  {
    if actions != [] {
      var s := After(actions[..|actions| - 1]);
      HistoryKept(actions[..|actions| - 1]);
      hide TrueToHistory;
      match actions[|actions| - 1]
      case Arrives(id) => ArrivesTrue(s, id);
      case Begins => BeginsTrue(s);
      case TimesOut(k) => PassTrue(s, k, GaveUp);
      case Looks(k) => PassTrue(s, k, Waiting);
    }
  }

  /** In every interleaving the list can be scanned exactly if every response that ever arrived has an id. */
  lemma ReadableExactly(actions: seq<Action>)
    ensures Readable(After(actions).responses) <==>
            forall a | 0 <= a < |After(actions).history| :: After(actions).history[a].Some?
  {
    HistoryKept(actions);
    var s := After(actions);
    hide After;
    forall a | 0 <= a < |s.history| && s.history[a].None?
      ensures !Readable(s.responses)
    {
      assert Kept(s, a);
    }
    assert forall i | 0 <= i < |s.responses| :: s.responses[i] in s.responses;
  }

  /** A request that begins raises at once exactly if a response without an invoke id has ever arrived. */
  lemma BeginsFailed(actions: seq<Action>)
    ensures var s := After(actions + [Begins]);
            && |s.requests| == |After(actions).requests| + 1
            && (s.requests[|s.requests| - 1].phase.Failed? <==>
                exists a | 0 <= a < |After(actions).history| :: After(actions).history[a].None?)
            && (!s.requests[|s.requests| - 1].phase.Failed? ==> s.requests[|s.requests| - 1].phase.Waiting?)
  {
    assert (actions + [Begins])[..|actions|] == actions;
    ReadableExactly(actions);
  }

  /** One response too short for an invoke id makes every later request raise: nothing removes it. */
  lemma {:induction false} UnreadableResponseStays(actions: seq<Action>, more: seq<Action>)
    requires !Readable(After(actions).responses)
    ensures !Readable(After(actions + more).responses)
    ensures |After(actions).requests| <= |After(actions + more).requests|
    ensures forall k | |After(actions).requests| <= k < |After(actions + more).requests| ::
              After(actions + more).requests[k].phase.Failed?
    decreases |more|
  {
    if more == [] {
      assert actions + more == actions;
    } else {
      var front, last := more[..|more| - 1], more[|more| - 1];
      assert (actions + more)[..|actions + more| - 1] == actions + front;
      assert (actions + more)[|actions + more| - 1] == last;
      UnreadableResponseStays(actions, front);
      hide Readable, Step;
      UnreadableStep(After(actions + front), last, |After(actions).requests|);
    }
  }

  lemma UnreadableStep(s: Station, a: Action, n: nat)
    requires !Readable(s.responses) && n <= |s.requests|
    requires forall k | n <= k < |s.requests| :: s.requests[k].phase.Failed?
    ensures !Readable(Step(s, a).responses) && n <= |Step(s, a).requests|
    ensures forall k | n <= k < |Step(s, a).requests| :: Step(s, a).requests[k].phase.Failed?
  {
    var bad :| 0 <= bad < |s.responses| && s.responses[bad].invokeId.None?;
    var t := Step(s, a);
    match a
    case Arrives(_) => assert t.responses[bad] == s.responses[bad];
    case Begins =>
    case TimesOut(k) => UnreadablePass(s, k, GaveUp, bad);
    case Looks(k) => UnreadablePass(s, k, Waiting, bad);
  }

  lemma UnreadablePass(s: Station, k: nat, unanswered: Phase, bad: nat)
    requires bad < |s.responses| && s.responses[bad].invokeId.None?
    ensures !Readable(Pass(s, k, unanswered).responses)
  {
    if IsWaiting(s, k) {
      var r := Found(s.responses, s.requests[k].invokeId, 0);
      if r.Ok? && r.value.Some? {
        var i := r.value.value;
        assert Without(s.responses, i)[if bad < i then bad else bad - 1] == s.responses[bad];
      }
    }
  }
}
