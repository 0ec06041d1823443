/** Whole runs of the simulated server: datagrams of any content and a test changing its settings, in
    any order. */
module ServerHistory {
  import opened Octets
  import opened Tags
  import opened Nesting
  import opened Frames
  import opened Properties
  import opened Server
  import opened ServerRuns

  datatype Event =
    | Arrives(data: Bytes)
    | SetMode(mode: Mode)
    | SetFailures(failures: map<ObjectId, Failure>)
    | SetRefused(refused: set<(ObjectId, nat)>)

  /** The server and whether its thread still runs. */
  datatype Machine = Machine(state: State, alive: bool)

  type Objects = map<ObjectId, map<nat, Bytes>>

  function CommandableObjects(c: Config): set<ObjectId> {
    if c.commandable.Some? then c.commandable.value else {}
  }

  /** The constructor raises KeyError for a commandable object without a Present_Value. */
  predicate Constructible(c: Config, objects: Objects) {
    forall o | o in CommandableObjects(c) :: o in objects && PRESENT_VALUE in objects[o]
  }

  /** A new server; the initial Present_Value of a commandable object is its Relinquish_Default. */
  function Initial(c: Config, objects: Objects): State
    requires Constructible(c, objects)
  {
    State(c.(relinquishDefaults := map o | o in CommandableObjects(c) :: objects[o][PRESENT_VALUE]), objects,
          map o | o in CommandableObjects(c) :: seq(PRIORITIES, _ => None),
          Online, map[], {}, [], [], [], 0, 0)
  }

  function Step(m: Machine, e: Event): Machine {
    match e
    case SetMode(mode) => m.(state := m.state.(mode := mode))
    case SetFailures(failures) => m.(state := m.state.(failures := failures))
    case SetRefused(refused) => m.(state := m.state.(wholeArraysRefused := refused))
    case Arrives(data) =>
      if !m.alive then m else
      var (s, sent) := Receive(m.state, data);
      Machine(s, !sent.Died?)
  }

  function After(s: State, events: seq<Event>): Machine {
    if events == [] then Machine(s, true) else Step(After(s, events[..|events| - 1]), events[|events| - 1])
  }

  // ----- what every step keeps

  lemma InitialBalanced(c: Config, objects: Objects)
    requires Constructible(c, objects)
    requires forall o, p | o in objects && p in objects[o] :: Balanced(objects[o][p])
    ensures StoreBalanced(Initial(c, objects))
  {
    hide Balanced;
  }

  lemma InitialArbitrated(c: Config, objects: Objects)
    requires Constructible(c, objects)
    ensures AllArbitrated(Initial(c, objects))
  {
    var slots: Slots := seq(PRIORITIES, _ => None);
    NothingFilled(slots);
  }

  lemma {:induction false} NothingFilled(slots: Slots)
    requires forall i | 0 <= i < |slots| :: slots[i].None?
    ensures Filled(slots) == []
  {
    if slots != [] {
      NothingFilled(slots[1..]);
    }
  }

  /** The frame a datagram brings to `_answer`, if it does. */
  function RequestIn(data: Bytes): Option<Frame> {
    match DecodeFrame(data)
    case Ok(f) => if f.ok && f.networkMessage.None? then Some(f) else None
    case Err(_) => None
  }

  lemma ReceiveIsAnswer(s: State, data: Bytes)
    ensures match RequestIn(data)
            case None => Receive(s, data) == (s, if DecodeFrame(data).Ok? then Nothing else Died)
            case Some(f) => Receive(s, data) == (Answer(s, f).0, Send(f, Answer(s, f).1))
  {
    hide DecodeFrame, Answer, Send;
  }

  lemma SendDies(f: Frame, reply: Reply)
    requires reply.Raised?
    ensures Send(f, reply).Died?
  {
  }

  /** Whatever arrives, the store stays balanced. */
  lemma ReceiveBalanced(s: State, data: Bytes)
    requires StoreBalanced(s)
    ensures StoreBalanced(Receive(s, data).0)
  {
    hide Receive, Answer, Write, RequestIn, Balanced, ParseWrite, SlotsBalanced, IsService;
    ReceiveIsAnswer(s, data);
    if RequestIn(data).Some? {
      var f := RequestIn(data).value;
      AnswerStores(s, f);
      if AsWritten(s, f, Answer(s, f).0, Answer(s, f).1) {
        ParsedValueBalanced(f.payload);
        WriteBalanced(s, RequestId(f), WriteOf(f).value);
      }
    }
  }

  /** While the thread lives, every Present_Value stays arbitrated, whatever arrives. */
  lemma ReceiveArbitrated(s: State, data: Bytes)
    ensures AllArbitrated(s) && !Receive(s, data).1.Died? ==> AllArbitrated(Receive(s, data).0)
    ensures Receive(s, data).0.config == s.config
  {
    hide Receive, Answer, Write, Send, RequestIn, Arbitrated, ParseWrite, IsService;
    ReceiveIsAnswer(s, data);
    if RequestIn(data).Some? {
      var f := RequestIn(data).value;
      var (t, reply) := Answer(s, f);
      AnswerStores(s, f);
      if reply.Raised? {
        SendDies(f, reply);
      }
      if AsWritten(s, f, t, reply) {
        var w := WriteOf(f).value;
        WriteTellsConfig(s, RequestId(f), w);
        if AllArbitrated(s) && !reply.Raised? {
          WriteArbitrated(s, RequestId(f), w);
          ArbitratedMoves(Write(s, RequestId(f), w).0, t);
        }
      } else if AllArbitrated(s) {
        ArbitratedMoves(s, t);
      }
    }
  }

  lemma WriteTellsConfig(s: State, id: byte, w: WriteRequest)
    ensures Write(s, id, w).0.config == s.config
  {
    hide Winner, ApplicationTag;
  }

  lemma ArbitratedMoves(s: State, t: State)
    requires SameStore(s, t) && AllArbitrated(s)
    ensures AllArbitrated(t)
  {
    forall o | Commandable(t, o)
      ensures Arbitrated(t, o)
    {
      assert Commandable(s, o) && Arbitrated(s, o);
    }
  }

  /** In every state any run can reach, every value the server could serve is balanced. */
  lemma {:induction false} ReachableBalanced(s: State, events: seq<Event>)
    requires StoreBalanced(s)
    ensures StoreBalanced(After(s, events).state)
    decreases |events|
  {
    hide Receive, Balanced, SlotsBalanced;
    if events != [] {
      var before := After(s, events[..|events| - 1]);
      ReachableBalanced(s, events[..|events| - 1]);
      if events[|events| - 1].Arrives? {
        ReceiveBalanced(before.state, events[|events| - 1].data);
      }
    }
  }

  /** As long as the thread lives, every commandable object serves the winner of its priority array. */
  lemma {:induction false} ReachableArbitrated(s: State, events: seq<Event>)
    requires AllArbitrated(s)
    ensures After(s, events).alive ==> AllArbitrated(After(s, events).state)
    ensures After(s, events).state.config == s.config
    decreases |events|
  {
    hide AllArbitrated, Receive;
    if events != [] {
      var before := After(s, events[..|events| - 1]);
      ReachableArbitrated(s, events[..|events| - 1]);
      if events[|events| - 1].Arrives? {
        ReceiveArbitrated(before.state, events[|events| - 1].data);
      } else if before.alive {
        ArbitratedMoves(before.state, After(s, events).state);
      }
    }
  }

  // ----- the priority array refines a plain log of writes

  /** An accepted write of Present_Value, as its sender knows it: the priority, and the value or NULL. */
  datatype LogEntry = LogEntry(priority: nat, value: Option<Bytes>)

  function Acknowledged(s: State, data: Bytes, o: ObjectId): Option<LogEntry> {
    match RequestIn(data)
    case None => None
    case Some(f) =>
      match WriteOf(f)
      case None => None
      case Some(w) =>
        if w.target == o && w.property == PRESENT_VALUE &&
           Answer(s, f).1 == Apdu(SimpleAck(RequestId(f), WRITE_PROPERTY))
        then Some(LogEntry(if w.priority in {None, Some(0)} then 16 else w.priority.value,
                           if ApplicationTag(w.value) == Ok(Some(0)) then None else Some(w.value)))
        else None
  }

  /** The acknowledged writes of a run, in order. */
  function Log(s: State, events: seq<Event>, o: ObjectId): seq<LogEntry> {
    if events == [] then [] else
    var front, e := events[..|events| - 1], events[|events| - 1];
    var before := After(s, front);
    Log(s, front, o) +
    (if before.alive && e.Arrives? && Acknowledged(before.state, e.data, o).Some?
     then [Acknowledged(before.state, e.data, o).value] else [])
  }

  /** The last write at a priority; a NULL relinquishes it. */
  function LastAt(log: seq<LogEntry>, p: nat): Option<Bytes> {
    if log == [] then None
    else if log[|log| - 1].priority == p then log[|log| - 1].value
    else LastAt(log[..|log| - 1], p)
  }

  /** From priority `p` on: the value of the lowest-numbered priority that has one. */
  function Commands(log: seq<LogEntry>, p: nat, default: Bytes): Bytes
    decreases if p <= PRIORITIES then PRIORITIES + 1 - p else 0
  {
    if p > PRIORITIES then default
    else if LastAt(log, p).Some? then LastAt(log, p).value
    else Commands(log, p + 1, default)
  }

  /** The slots are what the log leaves at each priority. */
  ghost predicate SlotsAreLog(slots: Slots, log: seq<LogEntry>) {
    |slots| == PRIORITIES && forall p | 1 <= p <= PRIORITIES :: slots[p - 1] == LastAt(log, p)
  }

  lemma {:induction false} WinnerIsCommand(slots: Slots, log: seq<LogEntry>, p: nat, default: Bytes)
    requires SlotsAreLog(slots, log) && 1 <= p <= PRIORITIES + 1
    ensures Winner(slots[p - 1..], default) == Commands(log, p, default)
    decreases PRIORITIES + 1 - p
  {
    hide LastAt;
    if p <= PRIORITIES {
      WinnerIsCommand(slots, log, p + 1, default);
      assert slots[p - 1..][1..] == slots[p..];
    }
  }

  lemma LoggedWrite(slots: Slots, log: seq<LogEntry>, e: LogEntry)
    requires SlotsAreLog(slots, log) && 1 <= e.priority <= PRIORITIES
    ensures SlotsAreLog(slots[e.priority - 1 := e.value], log + [e])
  {
    assert (log + [e])[..|log|] == log;
  }

  lemma EntryOf(s: State, data: Bytes, o: ObjectId, f: Frame, w: WriteRequest)
    requires RequestIn(data) == Some(f) && WriteOf(f) == Some(w)
    ensures Acknowledged(s, data, o) ==
            if w.target == o && w.property == PRESENT_VALUE &&
               Answer(s, f).1 == Apdu(SimpleAck(RequestId(f), WRITE_PROPERTY))
            then Some(LogEntry(Priority(w), if ApplicationTag(w.value) == Ok(Some(0)) then None else Some(w.value)))
            else None
  {
    hide RequestIn, WriteOf, Answer, ApplicationTag, SimpleAck;
  }

  /** An answer of `Write` changes the slots of `o` exactly if it acknowledges a Present_Value of `o`. */
  lemma WriteLogs(s: State, id: byte, w: WriteRequest, o: ObjectId, log: seq<LogEntry>)
    requires Arbitrated(s, o) && Commandable(s, o) && SlotsAreLog(s.priorityArrays[o], log)
    requires !Write(s, id, w).1.Raised?
    ensures var t := Write(s, id, w).0;
            var logged := w.target == o && w.property == PRESENT_VALUE &&
                          Write(s, id, w).1 == Apdu(SimpleAck(id, WRITE_PROPERTY));
            var e := LogEntry(Priority(w), if ApplicationTag(w.value) == Ok(Some(0)) then None else Some(w.value));
            o in t.priorityArrays && SlotsAreLog(t.priorityArrays[o], if logged then log + [e] else log)
  {
    hide Write, Winner, LastAt, SlotsAreLog, ApplicationTag, SimpleAck;
    WriteTellsTruth(s, id, w);
    if Write(s, id, w).1 == Apdu(SimpleAck(id, WRITE_PROPERTY)) {
      WriteTakesEffect(s, id, w);
      if Commanded(s, w) && w.target == o {
        LoggedWrite(s.priorityArrays[o], log,
                    LogEntry(Priority(w), if ApplicationTag(w.value) == Ok(Some(0)) then None else Some(w.value)));
      }
    }
  }

  /** One datagram changes the slots of `o` exactly by the write it acknowledges. */
  lemma ReceiveLogs(s: State, data: Bytes, o: ObjectId, log: seq<LogEntry>)
    requires AllArbitrated(s) && Commandable(s, o) && SlotsAreLog(s.priorityArrays[o], log)
    requires !Receive(s, data).1.Died?
    ensures var t := Receive(s, data).0;
            var a := Acknowledged(s, data, o);
            o in t.priorityArrays && SlotsAreLog(t.priorityArrays[o], if a.Some? then log + [a.value] else log)
  {
    hide Receive, Answer, Write, Send, RequestIn, Winner, WriteOf, IsService, LastAt, SlotsAreLog, Priority, ApplicationTag,
         SimpleAck;
    assert Arbitrated(s, o);
    ReceiveIsAnswer(s, data);
    if RequestIn(data).Some? {
      var f := RequestIn(data).value;
      var (t, reply) := Answer(s, f);
      AnswerStores(s, f);
      if reply.Raised? {
        SendDies(f, reply);
      }
      if WriteOf(f).Some? {
        EntryOf(s, data, o, f, WriteOf(f).value);
        if AsWritten(s, f, t, reply) {
          WriteLogs(s, RequestId(f), WriteOf(f).value, o, log);
        }
      }
    }
  }

  lemma {:induction false} RunLogs(s: State, events: seq<Event>, o: ObjectId)
    requires AllArbitrated(s) && Commandable(s, o) && SlotsAreLog(s.priorityArrays[o], [])
    requires After(s, events).alive
    ensures AllArbitrated(After(s, events).state) && After(s, events).state.config == s.config
    ensures o in After(s, events).state.priorityArrays
    ensures SlotsAreLog(After(s, events).state.priorityArrays[o], Log(s, events, o))
    decreases |events|
  {
    hide Receive, SlotsAreLog, Acknowledged, Arbitrated;
    ReachableArbitrated(s, events);
    if events == [] {
      assert Arbitrated(s, o);
      SlotsExist(s, o);
    } else {
      var front, e := events[..|events| - 1], events[|events| - 1];
      var before := After(s, front);
      RunLogs(s, front, o);
      if e.Arrives? {
        ReceiveLogs(before.state, e.data, o, Log(s, front, o));
      }
      var l := Log(s, front, o);
      assert l + [] == l;
    }
  }

  lemma SlotsExist(s: State, o: ObjectId)
    requires Arbitrated(s, o)
    ensures o in s.priorityArrays
  {
  }

  /** Over every history, the Present_Value served is that of the lowest-numbered priority whose last
      acknowledged write was not NULL, else the Relinquish_Default. */
  lemma ServedIsLogged(c: Config, objects: Objects, events: seq<Event>, o: ObjectId)
    requires Constructible(c, objects) && o in CommandableObjects(c)
    ensures var s := Initial(c, objects);
            var m := After(s, events);
            m.alive ==> Served(m.state, o, PRESENT_VALUE) ==
                        Some(Commands(Log(s, events, o), 1, objects[o][PRESENT_VALUE]))
  {
    hide After, Log, Winner, Commands;
    var s := Initial(c, objects);
    InitialArbitrated(c, objects);
    if After(s, events).alive {
      assert SlotsAreLog(s.priorityArrays[o], []);
      RunLogs(s, events, o);
      var t := After(s, events).state;
      assert Commandable(t, o) && Arbitrated(t, o);
      WinnerIsCommand(t.priorityArrays[o], Log(s, events, o), 1, objects[o][PRESENT_VALUE]);
      assert t.priorityArrays[o][0..] == t.priorityArrays[o];
    }
  }

  // ----- settings

  function Datagrams(data: seq<Bytes>): seq<Event> {
    if data == [] then [] else Datagrams(data[..|data| - 1]) + [Arrives(data[|data| - 1])]
  }

  lemma AfterSnoc(s: State, events: seq<Event>, e: Event)
    ensures After(s, events + [e]) == Step(After(s, events), e)
  {
    assert (events + [e])[..|events|] == events;
  }

  /** From the moment a test takes the server off line, whatever arrives, nothing is answered and nothing that
      is served changes, until another setting. */
  lemma {:induction false} OfflineFrom(s: State, events: seq<Event>, data: seq<Bytes>, next: Bytes)
    ensures var t := After(s, events + [SetMode(Offline)] + Datagrams(data)).state;
            && t.mode == Offline && SameStore(After(s, events).state, t) && !Receive(t, next).1.Datagram?
    decreases |data|
  {
    hide After, Receive, SameStore;
    var quiet := events + [SetMode(Offline)];
    if data == [] {
      assert quiet + Datagrams(data) == quiet;
      AfterSnoc(s, events, SetMode(Offline));
      SameStoreAfterSetting(After(s, events).state, Offline);
    } else {
      var front, last := data[..|data| - 1], data[|data| - 1];
      assert quiet + Datagrams(data) == quiet + Datagrams(front) + [Arrives(last)];
      AfterSnoc(s, quiet + Datagrams(front), Arrives(last));
      OfflineFrom(s, events, front, last);
      OfflineReceives(After(s, quiet + Datagrams(front)).state, last);
      StoreChain(After(s, events).state, After(s, quiet + Datagrams(front)).state,
                 After(s, quiet + Datagrams(data)).state);
    }
    OfflineReceives(After(s, quiet + Datagrams(data)).state, next);
  }

  lemma SameStoreAfterSetting(s: State, mode: Mode)
    ensures SameStore(s, s.(mode := mode)) && SameStore(s, s)
  {
  }

  lemma StoreChain(s: State, t: State, u: State)
    ensures SameStore(s, t) && (t == u || SameStore(t, u)) ==> SameStore(s, u)
  {
  }

  lemma OfflineReceives(s: State, data: Bytes)
    requires s.mode == Offline
    ensures var (t, sent) := Receive(s, data); t.mode == Offline && SameStore(s, t) && !sent.Datagram?
  {
    hide Answer, RequestIn, DecodeFrame, Npdu, Wrap;
    ReceiveIsAnswer(s, data);
    if RequestIn(data).Some? {
      ModesProtect(s, RequestIn(data).value);
      OfflineStays(s, RequestIn(data).value);
    }
  }

  lemma OfflineStays(s: State, f: Frame)
    requires s.mode == Offline
    ensures Answer(s, f).0.mode == Offline
  {
    hide ParseWrite, IsService;
  }

  /** A setting takes effect at once, and is all that changes. */
  lemma SettingsApply(s: State, events: seq<Event>, mode: Mode, failures: map<ObjectId, Failure>,
                      refused: set<(ObjectId, nat)>)
    ensures var t := After(s, events + [SetMode(mode)] + [SetFailures(failures)] + [SetRefused(refused)]);
            t == After(s, events).(state := t.state) &&
            t.state == After(s, events).state.(mode := mode, failures := failures, wholeArraysRefused := refused)
  {
    hide After;
    AfterSnoc(s, events, SetMode(mode));
    AfterSnoc(s, events + [SetMode(mode)], SetFailures(failures));
    AfterSnoc(s, events + [SetMode(mode)] + [SetFailures(failures)], SetRefused(refused));
  }
}
