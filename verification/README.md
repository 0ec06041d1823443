# A Dafny model of the BACnet example and its wire-test codec

This project models the logic of the B-SS (Smart Sensor) example and of the `wiretest` package beside
it, and proves properties of the model. Nothing of the original program is executed; Dafny's verifier
is the only judge.

## What is modelled

| file | models |
|---|---|
| `Octets.dfy` | octets, big-endian integers, shortest forms, clamped slices |
| `Tags.dfy` | the tag reader and the tag encoders (section 20.2.1 of ANSI/ASHRAE 135-2024) |
| `Nesting.dfy` | nested values, the depth-counting walkers, an independent grammar of values |
| `Layout.dfy` | an independent reading of octets, tag by tag, with which the encoders are compared |
| `Primitives.dfy` | application-tagged primitives and `decode_application` |
| `Frames.dfy` | BVLL (Annex J) and NPDU (section 6.2), `Frame` |
| `Summary.dfy` | `SummarizeBacnetFrame`, the second decoder of the same layout |
| `Properties.dfy` | ReadProperty, WriteProperty and Error APDUs |
| `Multiple.dfy` | ReadPropertyMultiple, both ends |
| `Elements.dfy` | array values and their elements |
| `Server.dfy`, `SimulatedServer.dfy` | the simulated server: as a function of its state, and as an object that updates its fields |
| `ServerRuns.dfy`, `ServerHistory.dfy` | what each answer keeps, and what holds over whole runs |
| `Exchange.dfy`, `Discovery.dfy` | client and server over the wire |
| `Resends.dfy` | a request that is sent again |
| `Alarm.dfy` | event notifications |
| `Workstation.dfy`, `Client.dfy` | matching responses to requests, with and without a receiver thread |
| `Sensor.dfy`, `Callbacks.dfy` | the sensor simulation, the property callbacks, the device name |

How to read it. An exception of the source is a value: `Err(Short)` is IndexError or struct.error, which
the parsers catch and turn into None; `Err(Invalid)` and `Raised` are exceptions nobody catches. A loop
of the source is a method with a loop, proved equal to a recursive function that the lemmas are about.
`At(data, q, e)` says that the octets `e` stand in `data` at `q`, whatever is around them; the locality
lemma `Tags.Local` then lets every reader be reasoned about in place. A value is *balanced* when it is
whole primitives and matched groups, nested to any depth; the code counts depth and does not compare tag
numbers, and neither does the definition. `Nesting.ItemsBalanced` shows that every value of an
independently written grammar is balanced. What the encoders write is stated a second time, without them:
`Layout.Pieces` reads octets tag by tag, and the `...Layout` lemmas say which tags, with which numbers and
contents and in which order, each message consists of.

The theorems that tie the pieces together:

- the store of the simulated server stays balanced whatever octets arrive (`ReachableBalanced`), so
  every read over the wire shows exactly what the server serves (`ReadExchange`, `SnapshotExchange`);
- over every history of datagrams and of settings changed by a test, the Present_Value of a commandable
  object is the one a plain log of acknowledged writes commands (`ServedIsLogged`), and a client that
  reads it through any router sees that value (`HistoryRead`);
- in every interleaving of the workstation's receiver thread and any number of requesters, a request
  returns only a response with its id that arrived after it began, no response is delivered twice
  (`EveryInterleaving`), and none is lost (`NothingLost`); a request can count on the responses with its
  id exactly if no request 256 or a multiple before it still waits when it begins (`OwnExactly`);
- a request sent again, any number of times, is answered alike and changes nothing more
  (`ResendsHarmless`).

## What the proofs turned up

Each of these is kept in the model as the code has it, and the exact condition is proved.

- A character string of 253 or 254 octets is encoded without complaint, with a length octet that the
  reader takes for "a longer length follows". Text survives exactly up to 252 octets
  (`PrimitiveRoundTrip`, `Survives`).
- A bit string of 25 to 32 bits has the same fault; one of 33 to 48 bits survives only because the
  reader takes a header length of 6 or 7 at face value for an application tag.
- `npdu` writes no vendor identifier after a proprietary message type, but `Frame` skips one: the round
  trip fails exactly for a message type of 0x80 or more that carries data (`FrameRoundTrip`).
- A ReadPropertyMultiple request that names an object twice loses the properties asked for first: the
  server's dictionary entry is reset. Array indices are dropped. `AnsweredExactly` says when every
  reference is answered; `RepeatedObjectLoses` and `IndexedReferenceLost` are requests that lose one.
- A Present_Value written with a priority above 16 is stored as it is before the exception that ends the
  serving thread (`PriorityBeyondSlots`). Priority 0 means 16.
- The invoke ids of a workstation repeat after 256 requests, and a request that still waits from the turn
  before takes the response of the new one (`OlderTakes`, `OnlyTaker`, `OwnExactly`). A late answer to a
  request 256 back bears the same id too, and is not told apart.
- A notification with a message text of 253 or 254 octets is encoded without complaint. What the decoder
  recovers of it then depends on the first octets of the text, and on what the rest of it reads as
  (`NotificationRoundTrip`, `SpacesSurvive`, `LettersLost`).
- A ReadPropertyMultiple that is cut off, and the write of a BOOLEAN with a length above 255, end the
  thread of the simulated server (`FatalRequests`, `CutOff`). Of a read whose index is cut off it reports
  a listed object as unknown.
- The write parser does not look at tag numbers (`NumbersIgnored`).
- One response of a single octet makes every later request of a workstation raise: it is kept, and
  nothing removes it. A request that begins raises exactly if such a response has ever arrived
  (`BeginsFailed`, `NoIdExactly`, `UnreadableResponseStays`).
- The same datagram, if it arrives before the answer, makes `Client.request` raise, and so does one whose
  NPDU is truncated (`JudgeExact`, `OneOctetResponse`). A datagram that `Frame` cannot decode, and an event
  notification that cannot be decoded, also end the receiver thread of a workstation: runs in which nothing
  more arrives are among the interleavings.
- `SummarizeBacnetFrame` and `Frame` agree on every octet string both can decode, except that the summary
  looks elsewhere for the service of a segmented request or ComplexACK, and names an ACK or Error too short
  to have one, of which `Frame.service` raises; it also ignores the NPDU version
  and does not open a Distribute-Broadcast-To-Network (`DecodersAgree`, `VersionIgnored`,
  `WhereTheyDiffer`, `SegmentedDiffers`, `ShortAckDiffers`).
- A device given one of the four colours as its name shares it with an object (`NamesDistinct`).
- The comment at main.ts:227-229 says only the simulation changes the readings; the arrow keys
  (main.ts:894-901) change one too. The model follows the code.

## Model

| member | source | states |
|---|---|---|
| `Octets.FromToBytes` | wiretest/codec.py:291-295 | reading back the big-endian octets of a number gives the number |
| `Octets.UnsignedOctetsShortest` | wiretest/codec.py:291-295 | an Unsigned below 2^32 is encoded in the fewest octets that hold it, and that form is unique |
| `Octets.SignedOctetsShortest` | wiretest/codec.py:448-452 | a signed 32-bit number decodes to itself and no two's-complement form of it is shorter |
| `Tags.ReadTag` | wiretest/codec.py:690-716 | a tag that is read starts inside the data and always advances, the measure every decoder loop terminates by |
| `Tags.Local` | wiretest/codec.py:690-716 | what the tag reader sees of a complete tag does not depend on what precedes or follows it |
| `Tags.LocalBack` | wiretest/codec.py:690-716 | a tag that starts in a part of the data and ends in it is complete there |
| `Tags.ObjectIdRoundTrip` | wiretest/codec.py:287-304 | the four identifier octets and the (type, instance) pair determine each other |
| `Tags.ContextUnsigned` | wiretest/codec.py:298-300 | the octets read back as one context primitive with the number's shortest form |
| `Nesting.WalkIffBalanced` | wiretest/services.py:111-129 | the depth-counting walk over an opened value finds exactly the value and its closing tag if and only if the value is balanced, whatever surrounds it |
| `Nesting.WalkedIsBalanced` | wiretest/services.py:120-129 | whatever octets a walk succeeds on were balanced |
| `Nesting.ConstructedEnd` | wiretest/alarm.py:169-175 | the loop of `_skip_constructed` and `_constructed_end` returns the position after the closing tag the walk finds |
| `Nesting.ConstructedBody` | wiretest/services.py:120-129 | the loop returns the octets up to the closing tag the walk finds, and the same position |
| `Nesting.PrimitiveReads` | wiretest/codec.py:690-716 | every primitive of the grammar, in every tag-number and length form, reads back as itself |
| `Nesting.ItemsBalanced` | wiretest/codec.py:313-318 | every value of the grammar, nested to any depth, is balanced |
| `Layout.BalancedIsLaid` | wiretest/codec.py:690-716 | every balanced value is a sequence of whole tags |
| `Primitives.BuildBitString` | wiretest/codec.py:490-497 | setting bits in place yields the packed octets and the count of unused bits |
| `Primitives.BitStringRoundTrip` | wiretest/codec.py:849-854 | unpacking a packed bit string gives the same bits, for any number of bits |
| `Primitives.UnusedBits` | wiretest/codec.py:849-854 | how many bits are kept for any count of unused bits, a count beyond the bits included |
| `Primitives.PrimitiveRoundTrip` | wiretest/codec.py:824-858 | every primitive the encoders accept decodes to its meaning if and only if it is within its bound |
| `Primitives.PrimitiveLayout` | wiretest/codec.py:321-351 | on the wire: within its bounds every primitive is one application tag, with the number of its datatype and its content octets |
| `Primitives.OthersDecode` | wiretest/codec.py:824-858 | NULL, context tags and opening tags decode to None, an empty text to no text, a double to its octets, a date or time to raw octets; a real, double, bit string or identifier of the wrong length raises |
| `Frames.BuildNpdu` | wiretest/codec.py:262-284 | the accumulated octets are the NPDU of the routing and payload |
| `Frames.BvllLength` | wiretest/codec.py:220-222 | the length field of a BVLL message is the length of the whole message |
| `Frames.NpduLayout` | wiretest/codec.py:262-284 | every octet of an NPDU in its place: version, every bit of the control octet, DNET/DADR, SNET/SADR, the hop count if there is a destination, the message type, the payload |
| `Frames.WrapLayout` | wiretest/codec.py:220-236 | every octet of the four BVLL messages that carry an NPDU: type, function, length, the originating address of a Forwarded-NPDU, the NPDU |
| `Frames.BvllOnly` | wiretest/codec.py:588-595 | a BVLL message without an NPDU decodes to its function and data and is accepted for no request |
| `Frames.FrameRoundTrip` | wiretest/codec.py:588-624 | `Frame` inverts `bvll` over `npdu` for every DNET/DADR, SNET/SADR, reply flag, message type and wrapping, exactly unless a proprietary message carries data; and it always decodes, with the message type that was sent |
| `Frames.AddressCutOff` | wiretest/codec.py:604-613 | an address that is cut off is taken as far as it goes; a network number or length that is cut off raises |
| `Summary.SummarizeBacnetFrame` | common/CASExampleHelper.ts:162-250 | the offset-advancing decoder returns the summary on every octet string |
| `Summary.DecodersAgree` | common/CASExampleHelper.ts:162-250 | on every octet string: without a BVLC header neither reads anything; `Frame` accepts the NPDU of a function both know exactly if it has two octets and version 1; the summary names what `Frame` reads of the same octets with version 1 exactly if the service octet is there and segmentation does not move it, and "?" where `Frame` raises on the NPDU; `Frame.service` raises exactly if an ACK or Error has fewer than three octets; the kind and PDU type always agree |
| `Summary.VersionIgnored` | common/CASExampleHelper.ts:168-198 | the summary of any frame does not depend on the NPDU version octet |
| `Summary.SummaryOfSent` | common/CASExampleHelper.ts:199-249 | for every frame the encoders build, the summary is what `Frame` reads if and only if the service octet is there and where `Frame` looks for it, and it always names the message type or PDU type sent; a distributed broadcast is named as such |
| `Summary.WhereTheyDiffer` | common/CASExampleHelper.ts:168-183 | a frame of another NPDU version, and a distributed broadcast, on which the two decoders differ |
| `Summary.SegmentedDiffers` | common/CASExampleHelper.ts:207-215 | a segmented request of which the two decoders name different services |
| `Summary.ShortAckDiffers` | wiretest/codec.py:639-641 | a SimpleACK of one octet: the summary names it, `Frame.service` raises |
| `Properties.ReadRequestRoundTrip` | wiretest/codec.py:359-363 | parsing a ReadProperty request recovers object, property and array index |
| `Properties.ReadRequestLayout` | wiretest/codec.py:354-363 | on the wire: the four header octets, then object [0], property [1] and, if there is one, index [2] |
| `Properties.TrailingIgnored` | wiretest/codec.py:750-770 | a tag behind the property that is not a context primitive [2] is no index |
| `Properties.ReadPropertyValue` | wiretest/codec.py:730-747 | the nested loops return the inside of the first [3] the scan finds, or None |
| `Properties.ReadAckRoundTrip` | wiretest/codec.py:388-391 | the value of a ReadProperty ACK is recovered if and only if it is balanced, and the ACK names the object, property and index it is made for |
| `Properties.ReadAckLayout` | wiretest/codec.py:388-391 | on the wire: the three header octets, the reference tag by tag, and the tags of the value inside [3] |
| `Properties.ParseWritePropertyRequest` | wiretest/codec.py:891-925 | the parsing loop returns the request of the recursive reading, None for another PDU or a short one |
| `Properties.WriteRequestRoundTrip` | wiretest/codec.py:366-376 | a WriteProperty request parses to what was encoded, for every object, property, index and priority, if and only if the value is balanced |
| `Properties.WriteRequestLayout` | wiretest/codec.py:366-376 | on the wire: the header, the reference, the tags of the value inside [3] and, if there is one, the priority [4] |
| `Properties.NumbersIgnored` | wiretest/codec.py:891-925 | the write parser takes object, property, value and priority by their order, whatever the numbers of their tags |
| `Properties.ParsedValueBalanced` | wiretest/codec.py:908-919 | the value of any request that parses, whatever octets arrived, is balanced |
| `Properties.CollectApplicationValues` | wiretest/codec.py:785-793 | the loop collects the content of the application primitives in order |
| `Properties.ValuesArePieces` | wiretest/codec.py:785-793 | of any whole tags, the values are the bodies of the application primitives, in order, and nothing else |
| `Properties.ErrorRoundTrip` | wiretest/codec.py:394-395 | the error class and code of an Error PDU are read back |
| `Properties.ErrorLayout` | wiretest/codec.py:394-395 | on the wire: the header, then class and code, both ENUMERATED |
| `Properties.ErrorIncomplete` | wiretest/codec.py:883-888 | an Error without its class or its code has none |
| `Multiple.BuildSpecification` | wiretest/codec.py:411-422 | the accumulated octets are the access specification |
| `Multiple.RequestRead` | wiretest/codec.py:806-821 | the server reads from a ReadPropertyMultiple request, for each object, the properties of its last specification, the objects in the order first named |
| `Multiple.RequestLayout` | wiretest/codec.py:411-422 | on the wire: for each specification object [0] and, inside [1], property [0] and index [1] of every reference |
| `Multiple.StrayPassed` | wiretest/codec.py:806-821 | what the server passes over in a request: application tags, opening tags, other closing tags and context primitives, a [0] of another length before an object |
| `Multiple.ReadAccessSpecifications` | wiretest/codec.py:806-821 | the loop over tags builds the dictionary of the recursive reading, in insertion order |
| `Multiple.BuildMultipleAck` | wiretest/codec.py:526-541 | the nested loops accumulate the ACK |
| `Multiple.AckRead` | wiretest/services.py:144-177 | the client reads every access result of an ACK with balanced values, values and property errors alike |
| `Multiple.EveryAckRead` | wiretest/services.py:144-177 | any ACK with balanced values, with or without array indices, values or errors, objects repeated or not: the dictionary has exactly the objects listed, and in each row exactly the keys (property, index) that occur, each with what came last for it |
| `Multiple.ElementsKept` | wiretest/services.py:165-172 | two elements of one property are two entries of the row, and all of it |
| `Multiple.StrayResult` | wiretest/services.py:159-175 | what the client passes over in an ACK: application tags, closing tags, other context primitives and groups, and any group before an object |
| `Multiple.AckLayout` | wiretest/codec.py:526-541 | the server's ACK on the wire, tag by tag, with the tags of every value |
| `Multiple.ParseReadPropertyMultipleAck` | wiretest/services.py:144-177 | the loop returns the dictionary of the recursive reading, None on short data |
| `Multiple.SpecificationsOrdered` | wiretest/codec.py:806-821 | whatever octets arrive, the dictionary read from them has distinct keys in its order |
| `Multiple.MultipleExchange` | wiretest/peer.py:354-363 | encode, parse, answer, encode, parse: the client ends with exactly the values served, or the error (2, 32), for what was last asked of each object |
| `Multiple.AnsweredExactly` | wiretest/codec.py:806-821 | after the whole exchange the client finds every reference under its own property and index if and only if no reference has an index and each property is also named by the last specification of its object |
| `Multiple.DistinctObjectsKeepAll` | wiretest/services.py:136-141 | with distinct objects and no array index, the client finds every reference it asked for |
| `Multiple.RepeatedObjectLoses` | wiretest/codec.py:813-816 | two specifications of one object, with any balanced server: the client's dictionary has the property of the second and not that of the first |
| `Multiple.IndexedReferenceLost` | wiretest/codec.py:817-821 | a reference with an array index: the client finds the whole property and not the element |
| `Elements.ApplicationElements` | wiretest/codec.py:773-782 | the loop cuts the value into the elements of the recursive reading |
| `Elements.ElementsOfRun` | wiretest/codec.py:773-782 | the elements of a run of application primitives are single primitives and concatenate to the run |
| `Elements.ElementsArePieces` | wiretest/codec.py:773-782 | of any whole tags, each is one element: as many as the tags, each a single tag, and together the value |
| `Server.ReadLimits` | wiretest/peer.py:134-146 | the loop over tags collects every primitive as a number |
| `ServerRuns.WriteBalanced` | wiretest/peer.py:365-398 | a write of a balanced value leaves every stored value, slot and default balanced, even when the thread dies of it |
| `ServerRuns.WriteArbitrated` | wiretest/peer.py:391-396 | a write that is answered leaves every Present_Value the winner of its 16 slots, else the Relinquish_Default |
| `ServerRuns.WriteTellsTruth` | wiretest/peer.py:379-398 | an Error answer leaves the state as it was; a write changes only the named property and, if commanded, the slot of its priority |
| `ServerRuns.WriteRefused` | wiretest/peer.py:365-390 | if and only if, for each of the four outcomes: a write is acknowledged, refused as UNKNOWN_OBJECT, refused as WRITE_ACCESS_DENIED, or raises; a NULL that is ignored is acknowledged though not writable |
| `ServerRuns.WriteTakesEffect` | wiretest/peer.py:369-398 | what an acknowledged write leaves: the slot filled or relinquished, the value stored, or nothing for a NULL to a property that is not commanded |
| `ServerRuns.RelinquishRestores` | wiretest/peer.py:392-396 | writing at an empty slot and then NULL at the same slot restores the whole state |
| `ServerRuns.PriorityBeyondSlots` | wiretest/peer.py:391-394 | an otherwise acceptable commanded write raises if and only if its priority is above 16, and then the value is already stored |
| `ServerRuns.AnswerStores` | wiretest/peer.py:275-319 | for any state and frame, only a WriteProperty that parses touches what is served, and then exactly as `_write` does |
| `ServerRuns.AnswerResponds` | wiretest/peer.py:275-319 | every answer to a confirmed request is a response PDU with that request's invoke id and, if an ACK or Error, its service |
| `ServerRuns.ModesProtect` | wiretest/peer.py:294-299 | offline or refusing, nothing served changes whatever arrives; offline, nothing is answered and the unanswered confirmed requests are counted |
| `ServerRuns.OthersIgnored` | wiretest/peer.py:289-319 | another confirmed service, or an unconfirmed request that is no Who-Is, goes unanswered and leaves no trace |
| `ServerRuns.CutOff` | wiretest/peer.py:302-319 | a read or write that ends too soon goes unanswered; of a read whose index is cut off the server answers as the device object does; a ReadPropertyMultiple that is cut off raises |
| `ServerHistory.ReachableBalanced` | wiretest/peer.py:83-105 | over every run, every value the server could serve is balanced |
| `ServerHistory.ReachableArbitrated` | wiretest/peer.py:224-227 | over every run, while the thread lives, every commandable object serves the winner of its slots |
| `ServerHistory.ReceiveLogs` | wiretest/peer.py:392-398 | one datagram changes the slots of an object exactly by the write it acknowledges |
| `ServerHistory.ServedIsLogged` | wiretest/peer.py:365-398 | over every history the Present_Value is that of the lowest-numbered priority whose last acknowledged write was not NULL, else the Relinquish_Default |
| `ServerHistory.OfflineFrom` | wiretest/peer.py:294-299 | from the moment it is taken off line, whatever and however much arrives, nothing is answered and nothing served changes |
| `ServerHistory.SettingsApply` | wiretest/peer.py:219-232 | the mode, the failures and the refused arrays are what a test last set, and setting them changes nothing else |
| `SimulatedServer.SimulatedServer.constructor` | wiretest/peer.py:216-233 | a new server: empty slots, the initial Present_Value as Relinquish_Default, online |
| `SimulatedServer.SimulatedServer.Answer` | wiretest/peer.py:275-319 | the fields afterwards and the reply are the step of the model, for every frame |
| `SimulatedServer.SimulatedServer.ReadSpecial` | wiretest/peer.py:321-352 | a malformed answer, a refused whole array or an element, with its bookkeeping; None leaves the state alone |
| `SimulatedServer.SimulatedServer.ReadMultiple` | wiretest/peer.py:354-363 | the fields afterwards and the reply are those of the model |
| `SimulatedServer.SimulatedServer.Write` | wiretest/peer.py:365-398 | the fields afterwards and the reply are those of the model, also when it raises half-way |
| `Exchange.ReplyReaches` | wiretest/peer.py:148-153 | every reply to a confirmed request decodes to a frame `Client.request` accepts for that id, with DNET/DADR equal to the request's SNET/SADR |
| `Exchange.ReplyLayout` | wiretest/peer.py:148-153 | the octets of a reply: Original-Unicast-NPDU and its length, no reply expected, and back through a router DNET/DADR and hop count 255 |
| `Exchange.ReadExchange` | wiretest/peer.py:304-318 | a ReadProperty over the wire shows exactly the octets served, or the error (2, 32), through any router, and changes nothing served; the ACK names what was asked; the reply is sent if and only if it fits the BVLC length, else the thread dies |
| `Exchange.FreshRead` | wiretest/peer.py:216-233 | a new server answers every read of a listed object with what it was made with |
| `Exchange.ReadRecorded` | wiretest/peer.py:308-341 | what a read leaves: one record of its service, object and property, one of the element if it was one, and nothing else |
| `Exchange.SpecialReads` | wiretest/peer.py:321-340 | a refused whole array shows an Abort for segmentation; an index that does not apply is not looked at |
| `Exchange.ScriptedFailure` | wiretest/peer.py:277-287 | a failure set for an object, listed or not, turns a read of it, with or without an index, into a Reject with reason 9, an Abort with reason 4 or silence that is counted, or into a NULL if the object is listed; nothing served changes |
| `Exchange.ScriptedWrite` | wiretest/peer.py:277-301 | the same failures meet a WriteProperty, which is then neither made nor recorded; a malformed answer does not affect a write |
| `Exchange.SnapshotExchange` | wiretest/peer.py:354-363 | a ReadPropertyMultiple over the wire gives the client an exact snapshot of what was asked, addressed back through the router, and leaves one record of it; the reply is sent if and only if it fits the BVLC length, else the thread dies |
| `Exchange.WriteExchange` | wiretest/peer.py:289-301 | a WriteProperty over the wire is the write the client meant, is recorded, and its answer - a SimpleACK, UNKNOWN_OBJECT or WRITE_ACCESS_DENIED, each when it should be - reaches the client unless the server raises |
| `Exchange.FreshWrite` | wiretest/peer.py:216-233 | a new server without lists of writable or commandable ones takes a write to any property it lists, serves it, and has recorded that write only |
| `Exchange.OfflineWrite` | wiretest/peer.py:289-298 | off line, a write is recorded and counted, and neither made nor answered |
| `Resends.WriteAgain` | wiretest/peer.py:365-398 | a write that was answered, made again, gives the same answer and changes nothing |
| `Resends.ResendsHarmless` | wiretest/client.py:86-101 | any datagram the server survives, sent again any number of times, gets the same answer each time and leaves the server as the first copy did, but for its records of requests |
| `Exchange.HistoryRead` | wiretest/peer.py:304-318 | after any run, reading a commandable Present_Value over the wire shows what the log of acknowledged writes commands, in an ACK that names it, and the reply is sent if and only if that value fits |
| `Exchange.ArrayReads` | wiretest/peer.py:321-352 | index 0 shows the number of elements, 1..n the elements whose concatenation is the value, above n the error INVALID_ARRAY_INDEX; the ACK names the element asked for |
| `Exchange.FatalRequests` | wiretest/codec.py:806-821 | two requests that end the serving thread: a ReadPropertyMultiple cut off in its first tag, and the write of a BOOLEAN with a length above 255 |
| `Discovery.IAmReads` | wiretest/codec.py:719-727 | the device instance an I-Am announces is read back |
| `Discovery.AnnouncedExactly` | wiretest/codec.py:719-727 | of an I-Am of any object an instance is read if and only if the object is a Device |
| `Discovery.OnlyIAm` | wiretest/codec.py:719-727 | whatever octets an instance is read from, they are an unconfirmed I-Am that begins with that Device |
| `Discovery.IAmFields` | wiretest/codec.py:405-408 | an I-Am carries the identifier, the APDU size, the segmentation and the vendor in that order |
| `Discovery.IAmLayout` | wiretest/codec.py:405-408 | on the wire: the service, then identifier, APDU size, segmentation and vendor, each with the tag of its datatype |
| `Discovery.WhoIsLayout` | wiretest/codec.py:398-402 | on the wire: the service, and low limit [0] and high limit [1] or nothing |
| `Discovery.WhoIsAnswered` | wiretest/peer.py:133-138 | a Who-Is is answered if and only if its limits are absent or contain the instance |
| `Discovery.AnyWhoIs` | wiretest/peer.py:133-146 | a Who-Is with any tags goes unanswered if and only if exactly two are primitives and the instance is not between them |
| `Discovery.DeviceRead` | wiretest/peer.py:114-131 | reading the device's own object shows its decoded name if and only if that has at most 252 octets, raises if and only if it has more than 254, and shows its identifier, else the proper error; the ACK names the device itself, also when asked by the wildcard |
| `Alarm.DecodeEventNotification` | wiretest/alarm.py:191-252 | the field-assigning loop returns the event of the recursive reading, with the confirmed flag and invoke id of the frame |
| `Alarm.NotificationRoundTrip` | wiretest/alarm.py:128-162 | for everything the encoder takes: a frame carrying an event notification is recognised; decoding recovers the confirmed flag, the invoke id, every field and the time stamp if there is no text or it has at most 252 octets, and whenever the length read is that of the text; otherwise the reading goes on where the false length ends, and past the end nothing after the text is recovered, as for every text of 254 octets that does not begin with a NUL |
| `Alarm.NotificationLayout` | wiretest/alarm.py:128-162 | on the wire, tag by tag: the header, every field with its number and in its place, the date and time octets, and the event values - value [0], status flags [1] with in-alarm unless the state is NORMAL, deadband 1.0 [2], limit [3] - inside [12] and [5] |
| `Alarm.SimpleStampRead` | wiretest/alarm.py:178-189 | a time stamp that is a time or a sequence number is read as None, and the reading goes on after it |
| `Alarm.StampCutOff` | wiretest/alarm.py:247-252 | without the tag that closes [3] the reading raises |
| `Alarm.GroupStampRead` | wiretest/alarm.py:178-189 | so is one that is any other group |
| `Alarm.OthersPassed` | wiretest/alarm.py:212-222 | application tags, closing tags and other groups are passed over |
| `Alarm.SpacesSurvive` | wiretest/alarm.py:136-148 | 253 spaces as message text: every field is recovered all the same |
| `Alarm.LettersLost` | wiretest/alarm.py:136-148 | 253 letters as message text of an acknowledgement: the notify type and the state are lost |
| `Workstation.Workstation.Begin` | wiretest/workstation.py:120-124 | the next id modulo 256, and no kept response bears it, or an exception if a kept response has no id; the step of the machine |
| `Workstation.Workstation.Look` | wiretest/workstation.py:130-139 | the first kept response with the id is taken out and returned, a frame too short raises; with the last attempt's time up or not, the step of the machine |
| `Workstation.Workstation.Keep` | wiretest/workstation.py:91-94 | the response is kept last; the step of the machine |
| `Workstation.ReceivesSent` | wiretest/workstation.py:78-94 | of every frame that can be sent: a response is kept under the id in its second octet, a network message, a request or anything else brings no response, and only an event notification can end the thread |
| `Workstation.NotificationReceived` | wiretest/workstation.py:82-90 | an event notification as the encoder makes it is decoded and brings no response |
| `Workstation.KeptIfAccepted` | wiretest/workstation.py:91-94 | a datagram is kept under an id if and only if the single-threaded client would accept it for that id |
| `Workstation.LookExactly` | wiretest/workstation.py:130-139 | what a scan leaves, exactly: the first response with the id returned and taken out, the request failed at an unreadable one, or waiting on or given up; every other request as it was |
| `Workstation.EveryInterleaving` | wiretest/workstation.py:66-140 | in every interleaving a request returns only a response with its own id that arrived after it began, and no response is delivered twice |
| `Workstation.NothingLost` | wiretest/workstation.py:91-135 | in every interleaving each response that arrived is still kept, was delivered, or gave way to a later request with its id |
| `Workstation.DistinctIds` | wiretest/workstation.py:121-123 | any 256 consecutive requests have distinct ids |
| `Workstation.OnlyTaker` | wiretest/workstation.py:132-135 | until the id counter has come round, the next step can take a response with the id of a waiting request for another one if and only if a response can be found and an older request with that id still waits |
| `Workstation.TakenExactly` | wiretest/workstation.py:130-139 | which steps do so: exactly the scans of such an older request that find a response |
| `Workstation.OlderTakes` | wiretest/workstation.py:120-139 | runs in which the first request takes the response of the one 256 (or a multiple) after it |
| `Workstation.ResponseGoes` | wiretest/workstation.py:120-139 | in every interleaving, until the id counter has come round, a response with the id of a request that arrived since it began is kept, was delivered to it, or to an older request with the id |
| `Workstation.OwnExactly` | wiretest/workstation.py:120-139 | a request that waits gets or keeps every response with its id, however the run goes on, if and only if no older request with the id waited when it began |
| `Workstation.FoundFrom` | wiretest/workstation.py:132-135 | a look raises if and only if an unreadable response comes before one with the id, finds the first with the id, and finds nothing if and only if all are readable and none has it |
| `Workstation.GivesUpAfter` | wiretest/workstation.py:130-139 | until the id counter has come round, a request gives up only if every response with its id that arrived since it began went to an older request with the id |
| `Workstation.GivesUpUnanswered` | wiretest/workstation.py:130-139 | while at most 256 requests have begun, a request gives up only if no response with its id arrived since it began |
| `Workstation.NoIdExactly` | wiretest/codec.py:631-637 | the response in a datagram has no invoke id if and only if it is one octet long; a datagram for which it is so |
| `Workstation.ReadableExactly` | wiretest/workstation.py:120-124 | in every interleaving the kept responses can all be read if and only if every response that ever arrived has an id |
| `Workstation.BeginsFailed` | wiretest/workstation.py:120-124 | in every interleaving a request that begins raises if and only if a response without an id has arrived before, and else waits |
| `Workstation.UnreadableResponseStays` | wiretest/workstation.py:91-94 | once a response too short for an id is kept it stays, and every later request fails, whatever happens |
| `Client.Client.WaitFor` | wiretest/endpoint.py:56-70 | the outcome is that of the first deciding frame among those kept and those that arrive, in order: it is returned if acceptable, raises if unreadable or undecodable, and None only if none decides; nothing is received beyond it |
| `Client.Client.Request` | wiretest/client.py:90-101 | at most 1 + retries attempts with one id; the outcome is the judgment over all that arrives in all attempts, None only after the last; the frames kept are those that arrived, up to the deciding one |
| `Client.JudgeExact` | wiretest/client.py:147-162 | a request raises if and only if a faulty arrival comes before the first acceptable frame, is answered if and only if an acceptable frame comes first, and then by the first, and is unanswered if and only if neither comes |
| `Client.SentJudged` | wiretest/client.py:157-161 | of every frame that can be sent: acceptable if and only if it is a response with the id in its second octet, faulty if and only if it is a response of one octet |
| `Client.OneOctetResponse` | wiretest/codec.py:631-637 | a datagram with a response of one octet, and one with a truncated NPDU, each make the request raise, whatever arrives after |
| `Sensor.Simulation.SensorSimulationTick` | main.ts:279-308 | the module variables afterwards are the step of the model |
| `Sensor.Simulation.ArrowKey` | main.ts:894-901 | a key moves the analog reading by 1.1 and nothing else |
| `Sensor.WaveNext` | main.ts:294-301 | one healthy second moves the triangle wave on; the wave has period 32 and stays in 18.0..26.0 |
| `Sensor.ClosedForm` | main.ts:279-308 | after any run of ticks the analog reading is the triangle wave of the healthy seconds, Reliability tells of the last counted second, the digital values count the multiples of 3 and 4 |
| `Sensor.FrozenWhileBroken` | main.ts:286-301 | the reading is unchanged by a counted second if and only if the wire was broken in it |
| `Sensor.SteadyForm` | main.ts:302-307 | when no second is skipped the binary value is floor(s/3) mod 2 and the state floor(s/4) mod 3 + 1 |
| `Sensor.ConvergesToBand` | main.ts:294-301 | however the reading was reached by ticks and keys, after any ticks it is strictly between 17.5 and 26.5 if and only if it was there or the healthy seconds counted since exceed twice its distance |
| `Sensor.KeysMove` | main.ts:894-901 | however the readings were reached, keys move the analog one by 1.1 for every up that no down cancels, and nothing else |
| `Callbacks.CallbacksAgree` | main.ts:604-646 | in every reachable state the state served indexes a served State_Text, elements are served for exactly 1..length, and an error code is set for the other indices and nowhere else |
| `Callbacks.SensorsServed` | main.ts:372-449 | after any run of ticks the callbacks serve the closed forms of the readings and the Reliability |
| `Callbacks.ServesAsDocumented` | docs/PICS.md:143-215 | every property the conformance statement says the application answers is served, with the value the documents and wire tests give |
| `Callbacks.OthersDeclined` | main.ts:353-363 | another device, another object type or another instance is answered by no callback, except Out_Of_Service, which does not look at the instance |
| `Callbacks.SmallBufferDeclined` | main.ts:552-559 | an address is never cut to a buffer of fewer than four octets |
| `Callbacks.NamesDistinct` | main.ts:649-665 | no two objects served share an Object_Name if and only if the device was not given one of the four colours |
| `Callbacks.ParseDeviceNameArg` | common/CASExampleHelper.ts:539-562 | the first valid name after the option, else the default |
| `Callbacks.NameBounds` | common/CASExampleHelper.ts:539-562 | of one octet every name but a control character is valid, and of a repeated letter those of 1 to 255 |
| `Callbacks.ReturnCharacterString` | main.ts:581-600 | the buffer holds the text, cut to the buffer, and is otherwise unchanged |
| `Callbacks.ReadDeviceName` | main.ts:649-652 | for every command line the Object_Name read back is the chosen name, whole, given a buffer of 255 octets |

## Left out

- The CAS BACnet Stack (`BACnetStack_*`): native code that is not part of the repository. Callback
  arguments are arbitrary, and its fallback defaults are not part of this model.
- Sockets, clocks, threads' scheduling, processes, console output and files: arrivals, seconds and the
  broken wire are inputs; a 2048-octet receive buffer does not cut datagrams short, and whatever the
  16-bit BVLC length can count is sent.
- Floating-point rounding: a REAL is its four octets in the codec and a mathematical real in the
  simulation.
- UTF-8 decoding: text is octets.
- The words of `SummarizeBacnetFrame`: a summary is the PDU type and number it names, not the text.
- Callable values of the simulated server, `check_write` and `on_write` overrides, and the lists of
  received frames: the default hooks are modelled.
- Decoders without an encoder here (`parse_event_summaries`, `event_log_records`,
  `CovNotificationMultiple`), and the smaller values (landing calls, lighting commands, files, BDT and
  FDT entries): their walks are instances of the lemmas in `Nesting.dfy`.
- `mark` and `wait_for_notification`, the retransmission timing, and `Endpoint.collect`: easy.
- Addresses (`GetLocalIPv4`, connection strings), `--port` and `--deviceID`, help text: easy.
- `Frame` as a mutable object: its fields are assigned once, by its constructor, so it is a value here.
- NotificationRoundTrip: for a text of 253 octets, or of 254 that begins with a NUL, whose false length ends inside
  the octets but not at the end of the text, no condition short of the reading itself is given: what is recovered
  depends on what the remaining octets read as, and `SpacesSurvive` and `LettersLost` show both cases.
- NamesDistinct: the names of the model's five objects; the stack's own objects are not part of this model.
