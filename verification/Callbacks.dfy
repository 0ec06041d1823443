/** The property callbacks of main.ts and the device name of common/CASExampleHelper.ts. */
module Callbacks {
  import opened Octets
  import Sensor

  const ANALOG_INPUT := 0
  const BINARY_INPUT := 3
  const DEVICE := 8
  const MULTI_STATE_INPUT := 13
  const NETWORK_PORT := 56

  const APPLICATION_SOFTWARE_VERSION := 12
  const DESCRIPTION := 28
  const FIRMWARE_REVISION := 44
  const MODEL_NAME := 70
  const NUMBER_OF_STATES := 74
  const OBJECT_NAME := 77
  const PRESENT_VALUE := 85
  const STATE_TEXT := 110
  const OUT_OF_SERVICE := 81
  const POLARITY := 84
  const RELIABILITY := 103
  const UNITS := 117
  const VENDOR_IDENTIFIER := 120
  const VENDOR_NAME := 121
  const APDU_LENGTH := 399
  const IP_ADDRESS := 400
  const IP_DEFAULT_GATEWAY := 401
  const BACNET_IP_MODE := 408
  const IP_SUBNET_MASK := 411
  const BACNET_IP_UDP_PORT := 412
  const REFERENCE_PORT := 483

  const NO_FAULT_DETECTED := 0
  const OPEN_LOOP := 4
  const INVALID_ARRAY_INDEX := 42

  /** What the stack asks for. */
  datatype Query = Query(device: nat, objectType: nat, instance: nat, property: nat, index: Option<nat>)

  /** true with a value; false leaving errorCode alone; false with errorCode set. */
  datatype Verdict<T> = Serves(value: T) | Declines | Fails(errorCode: nat)

  datatype Identity = Identity(instance: nat, udpPort: nat, address: Bytes, mask: Bytes, name: Bytes,
                               description: Bytes, vendorName: Bytes, modelName: Bytes, firmware: Bytes,
                               version: Bytes)

  function Ascii(text: string): (r: Bytes)
    requires forall i | 0 <= i < |text| :: text[i] < 128 as char
    ensures |r| == |text|
  {
    seq(|text|, i requires 0 <= i < |text| => text[i] as int)
  }

  const STATE_TEXTS := [Ascii("On"), Ascii("Off"), Ascii("Auto")]

  function GetPropertyReal(d: Identity, r: Sensor.Readings, q: Query): Verdict<real> {
    if q.device == d.instance && q.objectType == ANALOG_INPUT && q.instance == 1 && q.property == PRESENT_VALUE
    then Serves(r.analog) else Declines
  }

  function GetPropertyEnumerated(d: Identity, r: Sensor.Readings, q: Query): Verdict<nat> {
    if q.device != d.instance then Declines
    else if q.objectType == BINARY_INPUT && q.instance == 1 && q.property == PRESENT_VALUE then Serves(r.binary)
    else if q.objectType == BINARY_INPUT && q.instance == 1 && q.property == POLARITY then Serves(0)
    else if q.objectType == ANALOG_INPUT && q.instance == 1 && q.property == UNITS then Serves(62)
    else if q.objectType == ANALOG_INPUT && q.instance == 1 && q.property == RELIABILITY then
      Serves(if r.openLoop then OPEN_LOOP else NO_FAULT_DETECTED)
    else if q.objectType == NETWORK_PORT && q.instance == 1 && q.property == BACNET_IP_MODE then Serves(0)
    else Declines
  }

  function GetPropertyBool(d: Identity, q: Query): Verdict<bool> {
    if q.device == d.instance && q.property == OUT_OF_SERVICE &&
       q.objectType in {ANALOG_INPUT, BINARY_INPUT, MULTI_STATE_INPUT, NETWORK_PORT}
    then Serves(false) else Declines
  }

  function GetPropertyOctetString(d: Identity, q: Query, maxElementCount: nat): Verdict<Bytes> {
    if q.device != d.instance || q.objectType != NETWORK_PORT || q.instance != 1 || maxElementCount < 4 then Declines
    else if q.property == IP_ADDRESS then Serves(d.address)
    else if q.property == IP_SUBNET_MASK then Serves(d.mask)
    else if q.property == IP_DEFAULT_GATEWAY then Serves([0, 0, 0, 0])
    else Declines
  }

  function GetPropertyUnsignedInteger(d: Identity, r: Sensor.Readings, q: Query): Verdict<nat> {
    if q.device != d.instance then Declines
    else if q.objectType == MULTI_STATE_INPUT && q.instance == 1 && q.property == PRESENT_VALUE then Serves(r.multi)
    else if q.objectType == MULTI_STATE_INPUT && q.instance == 1 && q.property == NUMBER_OF_STATES then
      Serves(Sensor.STATES)
    else if q.objectType == MULTI_STATE_INPUT && q.instance == 1 && q.property == STATE_TEXT && q.index == Some(0) then
      Serves(Sensor.STATES)
    else if q.objectType == DEVICE && q.instance == d.instance && q.property == VENDOR_IDENTIFIER then Serves(389)
    else if q.objectType == NETWORK_PORT && q.instance == 1 && q.property == APDU_LENGTH then Serves(1476)
    else if q.objectType == NETWORK_PORT && q.instance == 1 && q.property == REFERENCE_PORT then Serves(4194303)
    else if q.objectType == NETWORK_PORT && q.instance == 1 && q.property == BACNET_IP_UDP_PORT then Serves(d.udpPort)
    else Declines
  }

  function ObjectName(d: Identity, q: Query): Verdict<Bytes> {
    if q.objectType == DEVICE && q.instance == d.instance then Serves(d.name)
    else if q.objectType == ANALOG_INPUT && q.instance == 1 then Serves(Ascii("Bronze"))
    else if q.objectType == BINARY_INPUT && q.instance == 1 then Serves(Ascii("Emerald"))
    else if q.objectType == MULTI_STATE_INPUT && q.instance == 1 then Serves(Ascii("Hot Pink"))
    else if q.objectType == NETWORK_PORT && q.instance == 1 then Serves(Ascii("Vermilion"))
    else Declines
  }

  function DeviceText(d: Identity, property: nat): Verdict<Bytes> {
    if property == DESCRIPTION then Serves(d.description)
    else if property == VENDOR_NAME then Serves(d.vendorName)
    else if property == MODEL_NAME then Serves(d.modelName)
    else if property == FIRMWARE_REVISION then Serves(d.firmware)
    else if property == APPLICATION_SOFTWARE_VERSION then Serves(d.version)
    else Declines
  }

  predicate AsksStateText(d: Identity, q: Query) {
    q.device == d.instance && q.objectType == MULTI_STATE_INPUT && q.instance == 1 && q.property == STATE_TEXT &&
    q.index.Some?
  }

  function GetPropertyCharacterString(d: Identity, q: Query): Verdict<Bytes> {
    if q.device != d.instance then Declines
    else if AsksStateText(d, q) then
      if 1 <= q.index.value <= Sensor.STATES then Serves(STATE_TEXTS[q.index.value - 1])
      else Fails(INVALID_ARRAY_INDEX)
    else if q.property == OBJECT_NAME && ObjectName(d, q).Serves? then ObjectName(d, q)
    else if q.objectType == DEVICE && q.instance == d.instance then DeviceText(d, q.property)
    else Declines
  }

  function StateQuery(d: Identity, property: nat, index: Option<nat>): Query {
    Query(d.instance, MULTI_STATE_INPUT, 1, property, index)
  }

  /** In every reachable state of the simulation the Present_Value served indexes a State_Text element
      that is served, the length served at index 0 is the Number_Of_States served, elements are served for
      exactly 1..length, and an error code is set for the other indices of State_Text and nowhere else. */
  lemma {:induction false} CallbacksAgree(d: Identity, inputs: seq<Sensor.Input>, q: Query)
    ensures var r := Sensor.AfterInputs(inputs);
            var present := GetPropertyUnsignedInteger(d, r, StateQuery(d, PRESENT_VALUE, None));
            var length := GetPropertyUnsignedInteger(d, r, StateQuery(d, STATE_TEXT, Some(0)));
            && present.Serves? && length.Serves? && 1 <= present.value <= length.value
            && length == GetPropertyUnsignedInteger(d, r, StateQuery(d, NUMBER_OF_STATES, None))
            && |STATE_TEXTS| == length.value
            && GetPropertyCharacterString(d, StateQuery(d, STATE_TEXT, Some(present.value))) ==
               Serves(STATE_TEXTS[present.value - 1])
            && (AsksStateText(d, q) ==>
                  (GetPropertyCharacterString(d, q).Serves? <==> 1 <= q.index.value <= length.value))
            && (GetPropertyCharacterString(d, q).Fails? <==>
                  AsksStateText(d, q) && !(1 <= q.index.value <= length.value))
            && !GetPropertyUnsignedInteger(d, r, q).Fails? && !GetPropertyReal(d, r, q).Fails?
            && !GetPropertyEnumerated(d, r, q).Fails? && !GetPropertyBool(d, q).Fails?
            && forall n: nat :: !GetPropertyOctetString(d, q, n).Fails?
  {
    Sensor.AlwaysSound(inputs);
  }

  /** What a client reads of the sensors after any run of ticks without keys: the triangle wave of the
      healthy seconds, and OPEN_LOOP exactly while the last counted second saw a broken wire. */
  lemma SensorsServed(d: Identity, beats: seq<Sensor.Beat>)
    ensures var r, c := Sensor.After(beats), Sensor.Counted(beats);
            && GetPropertyReal(d, r, Query(d.instance, ANALOG_INPUT, 1, PRESENT_VALUE, None)) ==
               Serves(Sensor.Wave(Sensor.Healthy(c)))
            && GetPropertyEnumerated(d, r, Query(d.instance, ANALOG_INPUT, 1, RELIABILITY, None)) ==
               Serves(if c != [] && c[|c| - 1].broken then OPEN_LOOP else NO_FAULT_DETECTED)
            && GetPropertyEnumerated(d, r, Query(d.instance, BINARY_INPUT, 1, PRESENT_VALUE, None)) ==
               Serves(Sensor.Multiples(c, 3) % 2)
            && GetPropertyUnsignedInteger(d, r, StateQuery(d, PRESENT_VALUE, None)) ==
               Serves(Sensor.Multiples(c, 4) % 3 + 1)
  {
    hide Sensor.Wave, Sensor.After, Sensor.Counted, Sensor.Healthy, Sensor.Multiples;
    Sensor.ClosedForm(beats);
  }

  function Whole(d: Identity, objectType: nat, instance: nat, property: nat): Query {
    Query(d.instance, objectType, instance, property, None)
  }

  /** The rows of the conformance statement that the application answers, and what the wire tests expect:
      each is served, and with this value. The numbers are those of the standard's enumerations. */
  lemma ServesAsDocumented(d: Identity, r: Sensor.Readings)
    ensures GetPropertyCharacterString(d, Whole(d, 8, d.instance, 77)) == Serves(d.name)
    ensures GetPropertyCharacterString(d, Whole(d, 8, d.instance, 121)) == Serves(d.vendorName)
    ensures GetPropertyCharacterString(d, Whole(d, 8, d.instance, 70)) == Serves(d.modelName)
    ensures GetPropertyCharacterString(d, Whole(d, 8, d.instance, 44)) == Serves(d.firmware)
    ensures GetPropertyCharacterString(d, Whole(d, 8, d.instance, 12)) == Serves(d.version)
    ensures GetPropertyCharacterString(d, Whole(d, 8, d.instance, 28)) == Serves(d.description)
    ensures GetPropertyUnsignedInteger(d, r, Whole(d, 8, d.instance, 120)) == Serves(389)
    ensures GetPropertyCharacterString(d, Whole(d, 0, 1, 77)) == Serves(Ascii("Bronze"))
    ensures GetPropertyCharacterString(d, Whole(d, 3, 1, 77)) == Serves(Ascii("Emerald"))
    ensures GetPropertyCharacterString(d, Whole(d, 13, 1, 77)) == Serves(Ascii("Hot Pink"))
    ensures GetPropertyCharacterString(d, Whole(d, 56, 1, 77)) == Serves(Ascii("Vermilion"))
    ensures forall t | t in {0, 3, 13, 56} :: GetPropertyBool(d, Whole(d, t, 1, 81)) == Serves(false)
    ensures GetPropertyEnumerated(d, r, Whole(d, 0, 1, 117)) == Serves(62)
    ensures GetPropertyEnumerated(d, r, Whole(d, 3, 1, 84)) == Serves(0)
    ensures GetPropertyUnsignedInteger(d, r, Whole(d, 13, 1, 74)) == Serves(3)
    ensures GetPropertyCharacterString(d, StateQuery(d, 110, Some(1))) == Serves(Ascii("On"))
    ensures GetPropertyCharacterString(d, StateQuery(d, 110, Some(2))) == Serves(Ascii("Off"))
    ensures GetPropertyCharacterString(d, StateQuery(d, 110, Some(3))) == Serves(Ascii("Auto"))
    ensures GetPropertyOctetString(d, Whole(d, 56, 1, 400), 4) == Serves(d.address)
    ensures GetPropertyOctetString(d, Whole(d, 56, 1, 411), 4) == Serves(d.mask)
    ensures GetPropertyOctetString(d, Whole(d, 56, 1, 401), 4) == Serves([0, 0, 0, 0])
    ensures GetPropertyUnsignedInteger(d, r, Whole(d, 56, 1, 399)) == Serves(1476)
    ensures GetPropertyUnsignedInteger(d, r, Whole(d, 56, 1, 412)) == Serves(d.udpPort)
    ensures GetPropertyUnsignedInteger(d, r, Whole(d, 56, 1, 483)) == Serves(4194303)
    ensures GetPropertyEnumerated(d, r, Whole(d, 56, 1, 408)) == Serves(0)
  {
    hide Ascii;
  }

  /** An address is never cut to a smaller buffer. */
  lemma SmallBufferDeclined(d: Identity, q: Query, n: nat)
    requires n < 4
    ensures GetPropertyOctetString(d, q, n) == Declines
  {
  }

  /** Another device, and another instance of an object, is answered by no callback but the one for
      Out_Of_Service, which does not look at the instance. */
  lemma OthersDeclined(d: Identity, r: Sensor.Readings, q: Query, n: nat)
    requires q.device != d.instance || (q.objectType != 8 && q.instance != 1) || q.objectType !in {0, 3, 8, 13, 56}
    ensures GetPropertyReal(d, r, q) == Declines && GetPropertyEnumerated(d, r, q) == Declines
    ensures GetPropertyUnsignedInteger(d, r, q) == Declines && GetPropertyOctetString(d, q, n) == Declines
    ensures GetPropertyCharacterString(d, q) == Declines
    ensures GetPropertyBool(d, q).Serves? <==>
            q.device == d.instance && q.property == 81 && q.objectType in {0, 3, 13, 56}
  {
    hide Ascii;
  }

  predicate ServesName(d: Identity, q: Query) {
    q.property == OBJECT_NAME && GetPropertyCharacterString(d, q).Serves?
  }

  predicate SameObject(q: Query, p: Query) { q.objectType == p.objectType && q.instance == p.instance }

  /** No two objects are served under one Object_Name. */
  ghost predicate NamesApart(d: Identity) {
    forall q, p | ServesName(d, q) && ServesName(d, p) &&
                  GetPropertyCharacterString(d, q) == GetPropertyCharacterString(d, p) :: SameObject(q, p)
  }

  predicate IsColour(name: Bytes) {
    name in {Ascii("Bronze"), Ascii("Emerald"), Ascii("Hot Pink"), Ascii("Vermilion")}
  }

  /** The object type served under a colour. */
  function ColouredType(name: Bytes): nat {
    if name == Ascii("Bronze") then ANALOG_INPUT
    else if name == Ascii("Emerald") then BINARY_INPUT
    else if name == Ascii("Hot Pink") then MULTI_STATE_INPUT
    else NETWORK_PORT
  }

  function NameQuery(d: Identity, objectType: nat, instance: nat): Query {
    Query(d.instance, objectType, instance, OBJECT_NAME, None)
  }

  /** The objects of the device have distinct names exactly if the configured device name is not one of
      the four colours. */
  lemma NamesDistinct(d: Identity)
    ensures NamesApart(d) <==> !IsColour(d.name)
  {
    assert |Ascii("Bronze")| == 6 && |Ascii("Emerald")| == 7 && |Ascii("Hot Pink")| == 8 && |Ascii("Vermilion")| == 9;
    hide Ascii;
    if IsColour(d.name) {
      var q, p := NameQuery(d, DEVICE, d.instance), NameQuery(d, ColouredType(d.name), 1);
      assert ServesName(d, q) && ServesName(d, p);
      assert GetPropertyCharacterString(d, q) == GetPropertyCharacterString(d, p) && !SameObject(q, p);
    }
  }

  // ----- the device name

  const OPTION := Ascii("--deviceName")
  const MAX_DEVICE_NAME_LENGTH := 255

  /** UTF-8: a control character is a single octet below 0x20 or 0x7F, and no other octet is. */
  predicate Printable(name: Bytes) { forall i | 0 <= i < |name| :: name[i] >= 0x20 && name[i] != 0x7F }

  predicate ValidName(name: Bytes) { 0 < |name| <= MAX_DEVICE_NAME_LENGTH && Printable(name) }

  /** Which names are valid, by example: of one octet all but the control characters, and of the same printable
      octet repeated those of 1 to 255. */
  lemma NameBounds(b: byte, n: nat)
    ensures ValidName([b]) <==> b > 31 && b != 127
    ensures ValidName(seq(n, _ => 65)) <==> 1 <= n < 256
  {
    assert [b][0] == b;
  }

  /** The option stands at `i` and a valid name follows. */
  predicate Configures(argv: seq<Bytes>, i: nat) {
    i + 1 < |argv| && argv[i] == OPTION && ValidName(argv[i + 1])
  }

  /** `ParseDeviceNameArg`: the first valid name given, else the default. */
  method ParseDeviceNameArg(argv: seq<Bytes>, default: Bytes) returns (name: Bytes)
    ensures (exists i: nat :: Configures(argv, i) && name == argv[i + 1] && forall j: nat | j < i :: !Configures(argv, j))
            || (name == default && forall j: nat :: !Configures(argv, j))
  {
    var i := 0;
    while i + 1 < |argv|
      invariant forall j: nat | j < i :: !Configures(argv, j)
    {
      if argv[i] == OPTION {
        name := argv[i + 1];
        var printable := 0 < |name| <= MAX_DEVICE_NAME_LENGTH;
        for c := 0 to |name|
          invariant printable <==> 0 < |name| <= MAX_DEVICE_NAME_LENGTH && Printable(name[..c])
        {
          assert name[..c + 1] == name[..c] + [name[c]];
          if name[c] < 0x20 || name[c] == 0x7F {
            printable := false;
          }
        }
        assert name[..|name|] == name;
        if printable {
          assert Configures(argv, i);
          return;
        }
      }
      i := i + 1;
    }
    name := default;
  }

  /** `ReturnCharacterString`: silently truncated to the buffer. */
  method ReturnCharacterString(text: Bytes, value: array<byte>, maxElementCount: nat) returns (count: nat)
    requires maxElementCount <= value.Length
    modifies value
    ensures count == if |text| < maxElementCount then |text| else maxElementCount
    ensures value[..count] == text[..count]
    ensures value[count..] == old(value[count..])
  {
    count := if |text| < maxElementCount then |text| else maxElementCount;
    for i := 0 to count
      invariant value[..i] == text[..i] && value[count..] == old(value[count..])
    {
      value[i] := text[i];
    }
  }

  /** For every command line, a client that reads the Device's Object_Name gets the configured name, or
      the default, octet for octet and whole, if the buffer takes 255 octets. */
  method ReadDeviceName(argv: seq<Bytes>, default: Bytes, d: Identity, value: array<byte>, maxElementCount: nat)
    returns (count: nat, name: Bytes)
    requires |default| <= MAX_DEVICE_NAME_LENGTH <= maxElementCount <= value.Length
    modifies value
    ensures (exists i: nat :: Configures(argv, i) && name == argv[i + 1] && forall j: nat | j < i :: !Configures(argv, j))
            || (name == default && forall j: nat :: !Configures(argv, j))
    ensures count == |name| && value[..count] == name
  {
    name := ParseDeviceNameArg(argv, default);
    var served := GetPropertyCharacterString(d.(name := name), Query(d.instance, DEVICE, d.instance, OBJECT_NAME, None));
    assert served == Serves(name);
    count := ReturnCharacterString(served.value, value, maxElementCount);
    assert name[..count] == name;
  }
}
