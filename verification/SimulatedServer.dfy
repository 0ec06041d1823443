/** The simulated server as an object: each method updates the fields in place, statement by statement
    as the source does, and is proved to be the step the model of Server.dfy makes. */
module SimulatedServer {
  import opened Octets
  import opened Tags
  import opened Frames
  import opened Properties
  import opened Multiple
  import Server
  import ServerHistory

  class SimulatedServer {
    const config: Server.Config
    var objects: map<ObjectId, map<nat, Bytes>>
    var priorityArrays: map<ObjectId, Server.Slots>
    var mode: Server.Mode
    var failures: map<ObjectId, Server.Failure>
    var wholeArraysRefused: set<(ObjectId, nat)>
    var readRequests: seq<Server.ReadRecord>
    var writeRequests: seq<WriteRequest>
    var arrayReads: seq<ReadRequest>
    var requestsWhileOffline: nat
    var silentRequests: nat

    /** The whole state, as a value. */
    ghost function View(): Server.State
      reads this
    {
      Server.State(config, objects, priorityArrays, mode, failures, wholeArraysRefused, readRequests, writeRequests,
                   arrayReads, requestsWhileOffline, silentRequests)
    }

    constructor (c: Server.Config, initial: map<ObjectId, map<nat, Bytes>>)
      requires ServerHistory.Constructible(c, initial)
      ensures View() == ServerHistory.Initial(c, initial)
    {
      var keys := ServerHistory.CommandableObjects(c);
      objects := initial;
      mode := Server.Online;
      readRequests, writeRequests, arrayReads := [], [], [];
      requestsWhileOffline, silentRequests := 0, 0;
      config := c.(relinquishDefaults := map o | o in keys :: initial[o][Server.PRESENT_VALUE]);
      priorityArrays := map o | o in keys :: seq(Server.PRIORITIES, _ => None);
      failures, wholeArraysRefused := map[], {};
    }

    /** `value`. */
    method Value(o: ObjectId, property: nat) returns (served: Option<Bytes>)
      ensures served == Server.Served(View(), o, property)
    {
      served := None;
      if o in objects && property in objects[o] {
        served := Some(objects[o][property]);
      }
    }

    /** `_read_special`: a malformed answer, a refused whole array or an array element; None otherwise. */
    method ReadSpecial(id: byte, r: ReadRequest, failure: Option<Server.Failure>) returns (special: Option<Server.Reply>)
      modifies this
      ensures var (s, reply) := Server.ReadListed(old(View()), id, r, failure);
              if special.Some? then View() == s && special.value == reply
              else View() == old(View()) && (s, reply) == Server.ReadPlain(old(View()), id, r)
    {
      if failure == Some(Server.Malformed) {
        return Some(Server.Ack(id, r.target, r.property, None, [0]));
      }
      if r.index.None? {
        if (r.target, r.property) in wholeArraysRefused {
          RecordRead(r.target, r.property);
          return Some(Server.Apdu(AbortPdu(id, 4)));
        }
        return None;
      }
      if !config.arrayElements {
        return None;
      }
      var served := Value(r.target, r.property);
      if served.None? {
        return None;
      }
      RecordRead(r.target, r.property);
      arrayReads := arrayReads + [r];
      return Some(Server.ReadElement(id, r, r.index.value, served.value));
    }

    method RecordRead(o: ObjectId, property: nat)
      modifies this`readRequests
      ensures View() == Server.RecordRead(old(View()), o, property)
    {
      readRequests := readRequests + [Server.ReadRecord(READ_PROPERTY, Members([o], map[o := [property]]))];
    }

    /** `_read_multiple`. */
    method ReadMultiple(f: Frame) returns (reply: Server.Reply)
      modifies this
      ensures (View(), reply) == Server.ReadMultiple(old(View()), f)
    {
      hide SpecificationsFrom, AnswerMultiple;
      var members := ReadAccessSpecifications(Slice(f.payload, 4, 4 + |f.payload|));
      if members.Err? {
        return Server.Raised(members.fault);
      }
      readRequests := readRequests + [Server.ReadRecord(READ_PROPERTY_MULTIPLE, members.value)];
      var served := objects;
      var value: Source := (o: ObjectId, p: nat) => if o in served && p in served[o] then Some(served[o][p]) else None;
      ghost var expected: Source := (o: ObjectId, p: nat) => Server.Served(old(View()), o, p);
      AnswerExtensional(Server.RequestId(f), f.payload, value, expected);
      var ack := AnswerMultiple(Server.RequestId(f), f.payload, value);
      reply := match ack case Ok(octets) => Server.Apdu(octets) case Err(fault) => Server.Raised(fault);
    }

    /** `_write`. */
    method Write(id: byte, w: WriteRequest) returns (reply: Server.Reply)
      modifies this
      ensures (View(), reply) == Server.Write(old(View()), id, w)
    {
      hide Server.ApplicationTag, Server.Filled, ErrorPdu, SimpleAck;
      var tag := Server.ApplicationTag(w.value);
      if tag.Err? {
        return Server.Raised(tag.fault);
      }
      var isNull := tag.value == Some(0);
      var commanded := config.commandable.Some? && w.target in config.commandable.value &&
                       w.property == Server.PRESENT_VALUE;
      if config.commandable.Some? && isNull && !commanded && mode.Online? && w.target in objects &&
         w.property in objects[w.target] {
        return Server.Apdu(SimpleAck(id, WRITE_PROPERTY));
      }
      if w.target !in objects {
        return Server.Apdu(ErrorPdu(id, WRITE_PROPERTY, 1, 31));
      }
      var allowed := if config.writable.None? then w.property in objects[w.target]
                     else (w.target, w.property) in config.writable.value;
      if mode.Refusing? || !allowed {
        return Server.Apdu(ErrorPdu(id, WRITE_PROPERTY, 2, 40));
      }
      Store(w.target, w.property, w.value);
      if commanded {
        var p := Server.Priority(w);
        if w.target !in priorityArrays || w.target !in config.relinquishDefaults || p > |priorityArrays[w.target]| {
          return Server.Raised(Invalid);
        }
        var slots := priorityArrays[w.target][p - 1 := if isNull then None else Some(w.value)];
        priorityArrays := priorityArrays[w.target := slots];
        var winning := Server.Filled(slots);
        Store(w.target, w.property, if winning != [] then winning[0] else config.relinquishDefaults[w.target]);
      }
      return Server.Apdu(SimpleAck(id, WRITE_PROPERTY));
    }

    method Store(o: ObjectId, property: nat, value: Bytes)
      requires o in objects
      modifies this`objects
      ensures View() == Server.Stored(old(View()), o, property, value)
    {
      var row: map<nat, Bytes> := objects[o][property := value];
      objects := objects[o := row];
    }

    /** `_answer`, after the scripted failures. */
    method Proceed(f: Frame, failure: Option<Server.Failure>) returns (reply: Server.Reply)
      modifies this
      ensures (View(), reply) == Server.Proceed(old(View()), f, failure)
    {
      hide Server.Write, Server.ReadMultiple, Server.AnswerAsDevice, Server.ReadElement, Server.IsService, ParseWrite,
           ParseRead, ErrorPdu, AbortPdu, Server.Ack;
      var request := None;
      if Server.IsService(f, WRITE_PROPERTY) {
        var parsed := ParseWritePropertyRequest(f.payload);
        if parsed.Err? {
          return Server.Raised(parsed.fault);
        }
        request := parsed.value;
        if request.Some? {
          writeRequests := writeRequests + [request.value];
        }
      }
      if mode.Offline? {
        if Server.IsService(f, READ_PROPERTY) || Server.IsService(f, READ_PROPERTY_MULTIPLE) ||
           Server.IsService(f, WRITE_PROPERTY) {
          requestsWhileOffline := requestsWhileOffline + 1;
        }
        return Server.NoReply;
      }
      if Server.IsService(f, WRITE_PROPERTY) {
        if request.None? {
          return Server.NoReply;
        }
        reply := Write(Server.RequestId(f), request.value);
        return;
      }
      if Server.IsService(f, READ_PROPERTY_MULTIPLE) {
        reply := ReadMultiple(f);
        return;
      }
      if Server.IsService(f, READ_PROPERTY) {
        var parsed := Caught(ParseRead(f.payload));
        if parsed.Err? {
          return Server.Raised(parsed.fault);
        }
        if parsed.value.Some? && parsed.value.value.target in objects {
          var r := parsed.value.value;
          var special := ReadSpecial(Server.RequestId(f), r, failure);
          if special.Some? {
            return special.value;
          }
          var served := Value(r.target, r.property);
          RecordRead(r.target, r.property);
          if served.None? {
            return Server.Apdu(ErrorPdu(Server.RequestId(f), READ_PROPERTY, 2, 32));
          }
          return Server.Ack(Server.RequestId(f), r.target, r.property, None, served.value);
        }
      }
      return Server.AnswerAsDevice(config, f);
    }

    /** `_answer`. */
    method Answer(f: Frame) returns (reply: Server.Reply)
      modifies this
      ensures (View(), reply) == Server.Answer(old(View()), f)
    {
      hide Server.Proceed, Server.RequestedObject;
      var failure := None;
      if Server.Confirmed(f) && mode.Online? && failures != map[] {
        var o := Server.RequestedObject(f);
        if o.Err? {
          return Server.Raised(o.fault);
        }
        if o.value.Some? && o.value.value in failures {
          failure := Some(failures[o.value.value]);
        }
        if failure == Some(Server.Rejects) {
          return Server.Apdu(RejectPdu(Server.RequestId(f), 9));
        }
        if failure == Some(Server.Aborts) {
          return Server.Apdu(AbortPdu(Server.RequestId(f), 4));
        }
        if failure == Some(Server.Silent) {
          silentRequests := silentRequests + 1;
          return Server.NoReply;
        }
      }
      reply := Proceed(f, failure);
    }
  }

  /** An answer depends on the values served, not on how they are computed. */
  lemma AnswerExtensional(id: byte, payload: Bytes, value: Source, value': Source)
    requires forall o: ObjectId, p: nat :: value(o, p) == value'(o, p)
    ensures AnswerMultiple(id, payload, value) == AnswerMultiple(id, payload, value')
  {
    hide SpecificationsFrom, MultipleAck;
    var m := SpecificationsFrom(Slice(payload, 4, 4 + |payload|), 0, None, NO_MEMBERS);
    if m.Ok? {
      SpecificationsOrdered(Slice(payload, 4, 4 + |payload|), 0, None, NO_MEMBERS);
      if Encodable(m.value) {
        forall i | 0 <= i < |m.value.order|
          ensures AccessesFor(m.value.order, m.value, value)[i] == AccessesFor(m.value.order, m.value, value')[i]
        {
          var o := m.value.order[i];
          assert ReadingsFor(o, m.value.lists[o], value) == ReadingsFor(o, m.value.lists[o], value');
        }
        assert AccessesFor(m.value.order, m.value, value) == AccessesFor(m.value.order, m.value, value');
      }
    }
  }
}
