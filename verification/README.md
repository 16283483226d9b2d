# Verified model of the fidoh authenticator stack

A Dafny project that models the hand-written protocol code of the repository and proves what it
promises. `dafny verify dfyconfig.toml` checks everything.

Five parts, each with its own modules:

- **Canonical CBOR** (`Cbor*`, `KeyOrder`, `ByteOrder`, `Utf8`): the recursive encoder and the
  cursor decoder of `cbor.rs` as classes, proved against functions that say what they answer, and
  the two-way theorems about those functions: byte identity, round trip, uniqueness of the
  canonical form, prefix-freeness, and the exact languages and errors of the two policies.
- **Messages** (`Members`, `MessageReorder`, `MessageWire`, `MessageAccepts`, `Credentials`, `GetAssertion*`, `GetInfo*`,
  `ClientPin`, `PinRequestFacts`): printers and parsers of the getAssertion, getInfo and clientPIN bodies.
  Parsers undo printers through the codec, which reorders map entries, and the bytes hold each member
  under its own key.
- **CTAPHID** (`Budget`, `Hid*`): packet splitting, the assembler, the transaction loop and channel
  allocation over an arbitrary scripted descriptor, every wait charged to one budget.
- **APDU** (`Apdu*`): the three framings of one command against an independent ISO 7816-4 reader,
  and the response-assembly machine against cards that split their answers.
- **Token and ceremony** (`Pin*`, `Assertions`, `Soft*`, `Ceremony*`, `TwoParty`, `DrainTogether`,
  `WaitTogether`, `WholeCeremony`): the soft authenticator and its device shim as classes, the client ceremony, and
  both running against each other over the encoded bytes: the token acts on what it reads in the bytes
  of a clientPIN request, the client on what it reads in the bytes of every answer.

How things are represented:

- Text strings are held as their UTF-8 bytes; integers are unbounded, with every cut the source
  makes (`as u64`, `as u16`, one-byte counters, the 32-bit signature counter) written out. `usize`
  is 64 bits wide.
- Lengths of inputs held in memory are below 2^64, and a string's at most 2^63 - 1 (`isize::MAX`); where a
  theorem needs that, it says so.
- The cryptographic library is a record of functions (`PinCrypto.Crypto`, `Assertions.Signer`). Its
  laws - symmetric key agreement, decryption undoing encryption, digest lengths - are hypotheses,
  and `PinCrypto.LawfulExists` shows they can be met. Entropy is a pool of bytes that fails when it
  runs dry.
- A device is any function from the calls so far to an answer, with a budget that lasts for a given
  number of calls; a HID file descriptor is a script of reads followed by silence.
- The decoders a ceremony applies to bodies are a parameter of its runs; `SoftLink` supplies the
  real ones for the two-party theorems.
- `getInfo`'s eleven unsigned members are held in one map by key. Errors of the message parsers
  carry the key of the member concerned instead of its name.

Where the code and its own documentation disagree the model follows the code: the key order
(`CborTheorems.OrdersPart`, `MajorFirstRefused`), the delay knob (`SoftRuns.DelayedDelivery`), an
undecryptable pinHashEnc that costs a retry (`PinRuns.NothingToCompareCosts`), and `set_pin` leaving
the power-cycle latch engaged although a field comment says it clears it
(`PinRuns.LatchOutlivesSetPin`).

One expectation fails at the edge: a HID transaction writes its request once more than it meets busy
frames, except when the last busy frame finds the budget spent (`HidRuns.BusyWithNothingLeft`).
`HidRuns.TransactionRun` counts the copies exactly, `EveryBusyReissued` gives the budget that always
suffices, and `OnlyBusy` and `HidBusy.BusyUnanswered` say exactly when a busy frame goes unanswered.

## Model

| member | source | states |
|---|---|---|
| `KeyOrder.KeyTotal` | crates/fidoh-core/src/cbor.rs:223-225 | the key order (encoded length, then bytes) is a strict total order: distinct keys compare one way, a key never precedes itself |
| `KeyOrder.KeyTransitive` | crates/fidoh-core/src/cbor.rs:223-225 | the key order is transitive |
| `KeyOrder.SortOrdered` | crates/fidoh-core/src/cbor.rs:191 | sorting leaves no key above a later one |
| `KeyOrder.SortMultiset` | crates/fidoh-core/src/cbor.rs:191 | sorting keeps exactly the pairs it was given |
| `KeyOrder.RepeatAfterSort` | crates/fidoh-core/src/cbor.rs:191-196 | comparing neighbours after the sort finds a repeat exactly when two keys were equal before it |
| `KeyOrder.SortPermutation` | crates/fidoh-core/src/cbor.rs:186-196 | with distinct keys the sorted entries do not depend on the order they came in |
| `CborBytes.KeyOrderExact` | crates/fidoh-core/src/cbor.rs:223-225 | one key precedes another if and only if its encoding is shorter, or as long and smaller at the first byte in which they differ |
| `CborBytes.ShortHeadBytes` | crates/fidoh-core/src/cbor.rs:138-150 | heads of arguments below 65536, every byte written out |
| `CborBytes.LongHeadBytes` | crates/fidoh-core/src/cbor.rs:145-155 | heads of larger arguments, every byte written out, most significant first |
| `CborEncoder.Encoder.WriteHead` | crates/fidoh-core/src/cbor.rs:138-155 | appends the shortest head for the low 64 bits of the argument, nothing else |
| `CborEncoder.Encoder.EncodeValue` | crates/fidoh-core/src/cbor.rs:157-207 | appends exactly what the specification function answers, or stops with the same first error; recursion over arrays, maps and keys |
| `CborEncoder.Encoder.EncodeArrayBody` | crates/fidoh-core/src/cbor.rs:178-182 | the array loop emits every item in order or stops at the first that fails |
| `CborEncoder.Encoder.EncodeMapBody` | crates/fidoh-core/src/cbor.rs:184-200 | keys are encoded apart, sorted and checked for repeats before any entry is written |
| `CborEncoder.Encoder.EncodeOwnKeys` | crates/fidoh-core/src/cbor.rs:186-189 | each key is encoded on its own, in entry order, carrying its value |
| `CborEncoder.Encoder.EmitSorted` | crates/fidoh-core/src/cbor.rs:197-200 | the sorted keys are written with their encoded values, stopping at the first value that fails |
| `CborEncoderFacts.EncodeExact` | crates/fidoh-core/src/cbor.rs:157-207 | the encoder succeeds exactly when the depth rule and the no-duplicates rule hold, with the canonical bytes; each error names a rule that is broken |
| `CborReorder.ReorderedAlike` | crates/fidoh-core/src/cbor.rs:184-200 | listing the entries of any maps in another order, at any level and inside keys too, keeps both rules, and with them the bytes and the canonical form |
| `CborReorder.CanonReordered` | crates/fidoh-core/src/cbor.rs:184-200 | the converse: values with one canonical form are reorderings of each other |
| `Cbor.CanonFacts` | crates/fidoh-core/src/cbor.rs:184-200 | reordering every map canonically keeps the encoding and all rules, and yields the canonical form |
| `CborDecoder.Decoder.Take` | crates/fidoh-core/src/cbor.rs:420-428 | reads N bytes big-endian or reports the end of input, never out of bounds |
| `CborDecoder.Decoder.Argument` | crates/fidoh-core/src/cbor.rs:363-402 | reads an argument of any width; under strict decoding a width that is not the shortest is refused |
| `CborDecoder.Decoder.LengthArgument` | crates/fidoh-core/src/cbor.rs:346-355 | a length argument; the indefinite form is refused |
| `CborDecoder.Decoder.ReadValue` | crates/fidoh-core/src/cbor.rs:242-335 | one data item as the specification function says, and no more items built than bytes consumed, whatever the outcome |
| `CborDecoder.Decoder.ReadString` | crates/fidoh-core/src/cbor.rs:258-282 | byte and text strings, with the overflow, end-of-input and UTF-8 errors |
| `CborDecoder.Decoder.ReadItems` | crates/fidoh-core/src/cbor.rs:283-294 | the array loop reads exactly the announced number of items or fails as the specification says |
| `CborDecoder.Decoder.ReadEntries` | crates/fidoh-core/src/cbor.rs:295-326 | the map loop with its set of seen raw keys and its previous key |
| `CborDecoder.Decoder.ReadEntry` | crates/fidoh-core/src/cbor.rs:304-323 | one entry: the raw key is checked for repeats first, then, under strict decoding only, for order, then the value is read; the two languages that come of it are CborSpelled.TolerantLanguage and MapInAnyOrder |
| `CborDecoder.DecodeBytes` | crates/fidoh-core/src/cbor.rs:104-111 | the running decoder answers what the specification function answers, trailing bytes included |
| `CborTheorems.EncodeBytes` | crates/fidoh-core/src/cbor.rs:95-99 | the running encoder answers what the specification function answers |
| `CborTheorems.EncodeCharacterised` | crates/fidoh-core/src/cbor.rs:91-99 | success if and only if the depth and key rules hold; the bytes are the encoding of the value and of its canonical form |
| `CborTheorems.ByteIdentity` | crates/fidoh-core/src/cbor.rs:104-111 | whatever strict decoding accepts re-encodes to the very same bytes, and is canonical |
| `CborTheorems.StrictInjective` | crates/fidoh-core/src/cbor.rs:104-111 | two inputs that strict decoding maps to one value are equal |
| `CborTheorems.ReadsBack` | crates/fidoh-core/src/cbor.rs:242-335 | an encoding, with anything before and after it, is read back in canonical form and the cursor stops exactly at its end, under either policy |
| `CborTheorems.RoundTrip` | crates/fidoh-core/src/cbor.rs:95-111 | of the values that encode, decoding gives the canonical form back if and only if every integer fits the 64-bit argument |
| `CborTheorems.StrictAcceptsExactlyTheImage` | crates/fidoh-core/src/cbor.rs:104-111 | strict decoding accepts exactly the byte strings the encoder emits for values in range |
| `CborTheorems.CanonicalUnique` | crates/fidoh-core/src/cbor.rs:157-207 | two in-range encodable values encode equally exactly when their canonical forms are equal, and exactly when one is the other with map entries reordered |
| `CborTheorems.PrefixFree` | crates/fidoh-core/src/cbor.rs:104-111 | no encoding is a proper prefix of another |
| `CborTheorems.OrderIrrelevant` | crates/fidoh-core/src/cbor.rs:68-70 | listing map entries in another order, at any level and inside keys too, changes neither success nor the bytes of encoding |
| `CborTheorems.StrictWithinTolerant` | crates/fidoh-core/src/cbor.rs:312-320 | what strict decoding accepts, tolerant decoding accepts with the same value |
| `CborSpelling.SpellingRead` | crates/fidoh-core/src/cbor.rs:242-335 | tolerant decoding reads every legible spelling (heads of any width, map entries in any order, no key spelled twice) wherever it stands, and stops at its end |
| `CborSpelled.SpellingDecoded` | crates/fidoh-core/src/cbor.rs:104-111 | a legible spelling decodes tolerantly to what it means; strict decoding accepts it if and only if every head is the shortest and all keys ascend, and then with the same value |
| `CborSpelled.TolerantLanguage` | crates/fidoh-core/src/cbor.rs:242-335 | tolerant decoding gives a value if and only if the input is a legible spelling of that value: nothing else is accepted |
| `CborSpelled.MapInAnyOrder` | crates/fidoh-core/src/cbor.rs:295-326 | a map head of any width and then canonical entries with distinct keys in any order: tolerant decoding gives exactly those entries in that order, strict decoding accepts if and only if the head is the shortest and the keys ascend |
| `CborErrors.CutShort` | crates/fidoh-core/src/cbor.rs:242-335 | under either policy an accepted input cut short anywhere is refused as ending too early |
| `CborErrors.MoreAfter` | crates/fidoh-core/src/cbor.rs:104-111 | under either policy an accepted input with anything after it is refused for trailing bytes, at their offset |
| `CborErrors.OnlyUntidyRefused` | crates/fidoh-core/src/cbor.rs:312-402 | what strict decoding refuses of the tolerated inputs it refuses for a head that is not the shortest or for keys out of order, and for nothing else |
| `CborTheorems.ReEncodeTolerated` | fuzz/fuzz_targets/cbor_decode_roundtrip.rs:31-60 | re-encoding a tolerantly accepted value fails only with a duplicate key, never grows, and strict decoding then gives the canonical form |
| `CborTheorems.LinearSize` | crates/fidoh-core/src/cbor.rs:283-326 | an accepted value has no more data items than the input has bytes, whatever lengths the heads claim |
| `CborTheorems.OrdersPart` | crates/fidoh-core/src/cbor.rs:13-15 | the order the module header describes and the order of the code agree on two keys unless the one of lower major type is the longer |
| `CborTheorems.OutOfOrderRefused` | crates/fidoh-core/src/cbor.rs:314-320 | a map whose second key sorts below the first is refused at that second key |
| `CborTheorems.MajorFirstRefused` | crates/fidoh-core/src/cbor.rs:13-15 | entries listed as the header describes are refused wherever the two orders part |
| `CborTheorems.OrdersDoPart` | crates/fidoh-core/src/cbor.rs:13-15 | the two orders do part: for every integer from 24 up against the empty text |
| `Members.ReadMembers` | crates/fidoh-core/src/get_assertion.rs:370-429 | the member loop: last value of a key wins, the first ill-typed member stops it, unknown keys are skipped |
| `Members.OrderIgnored` | crates/fidoh-core/src/get_assertion.rs:370-429 | with distinct keys the members read do not depend on the order of the entries |
| `Members.CanonReads` | crates/fidoh-core/src/cbor.rs:184-200 | reading the canonical form of a printed message finds every member, canonicalised, and no other |
| `Members.PushPresent` | crates/fidoh-core/src/get_assertion.rs:295-347 | pushing the present members one by one gives the entries of the message |
| `Credentials.DescriptorBack` | crates/fidoh-core/src/get_assertion.rs:57-134 | parsing undoes printing for credential descriptors although the codec reorders their entries |
| `Credentials.UserBack` | crates/fidoh-core/src/get_assertion.rs:153-208 | the same for user entities |
| `GetAssertion.EncodeRequestBytes` | crates/fidoh-core/src/get_assertion.rs:293-349 | the two wire rules are checked first, then the members present are encoded |
| `GetAssertionFacts.RequestEncodable` | crates/fidoh-core/src/get_assertion.rs:281-349 | a request without extensions, or with encodable ones, encodes exactly when it keeps the two wire rules, whatever its size |
| `GetAssertionFacts.RequestRoundTrip` | crates/fidoh-core/src/get_assertion.rs:276-443 | a typed request encodes if and only if the wire rules hold; decoded and parsed it is the request in normal form, hence itself exactly when it was normal |
| `GetAssertionFacts.ResponseRoundTrip` | crates/fidoh-core/src/get_assertion.rs:479-592 | a typed response encodes, and comes back unless it reports a user selection among several credentials, which is refused |
| `GetAssertionFacts.AssertionOrderIgnored` | crates/fidoh-core/src/get_assertion.rs:57-552 | request, response, descriptor and user parsing ignore the order of entries with distinct keys |
| `MessageWire.RequestExact` | crates/fidoh-core/src/get_assertion.rs:293-349 | the bytes of a getAssertion request strictly decode to a map of exactly its members, each under its own key, allow list and options included |
| `MessageWire.ResponseExact` | crates/fidoh-core/src/get_assertion.rs:556-592 | the same for the getAssertion response, its descriptor and its user entity |
| `GetInfo.EncodeInfoBytes` | crates/fidoh-core/src/get_info.rs:576-706 | pushes the present members in the printer's order and encodes them |
| `GetInfoFacts.OptionMapBack` | crates/fidoh-core/src/get_info.rs:231-269 | an options map comes back with exactly its identifiers and values |
| `GetInfoFacts.AlgorithmsBack` | crates/fidoh-core/src/get_info.rs:790-847 | the algorithm parameters come back in order |
| `GetInfoFacts.InfoRoundTrip` | crates/fidoh-core/src/get_info.rs:286-561 | every typed response encodes; decoding and parsing give it back in normal form, or the first rule of validation it breaks |
| `GetInfoFacts.FaultExact` | crates/fidoh-core/src/get_info.rs:440-561 | validation reports the first member whose rule is broken, and none exactly when every rule is kept: 16-byte aaguid, lists neither empty nor repeating, the least values 1, 1024, 32 and 1 |
| `GetInfoFacts.InfoAcceptedExactly` | crates/fidoh-core/src/get_info.rs:440-561 | of the typed responses exactly those that keep every rule come through the wire |
| `MessageWire.InfoExact` | crates/fidoh-core/src/get_info.rs:576-706 | the bytes of a getInfo response strictly decode to a map of exactly its members, each under its own key |
| `GetInfoFacts.InfoOrderIgnored` | crates/fidoh-core/src/get_info.rs:322-410 | parsing ignores the order of members with distinct keys |
| `MessageAccepts.ResponseAccepted` | crates/fidoh-core/src/get_assertion.rs:479-552 | a getAssertion response is accepted if and only if every member is of its type, the first three are there and no selection among several is claimed; of a repeated member the last one counts |
| `MessageAccepts.RequestAccepted` | crates/fidoh-core/src/get_assertion.rs:353-443 | a getAssertion request is accepted if and only if its members are of their types and the first two are there; the allow list is none exactly when it is absent or empty |
| `MessageAccepts.DescriptorAccepted` | crates/fidoh-core/src/get_assertion.rs:57-108 | a descriptor is accepted if and only if its members are of their types, the type is public-key, and type and id are there |
| `MessageAccepts.InfoAccepted` | crates/fidoh-core/src/get_info.rs:286-436 | the members of a getInfo response are read if and only if each is of its type; without versions or aaguid it is refused |
| `MessageReorder.ParseCanon` | crates/fidoh-core/src/get_assertion.rs:370-429 | where no map repeats a key, a message and its canonical form are accepted alike and hold the same members up to canonical form |
| `MessageReorder.AssertionReordered` | crates/fidoh-core/src/get_assertion.rs:57-552 | values that differ only in how maps are ordered, at any level, are the same getAssertion request, up to the order inside uninterpreted extensions, and the same response |
| `MessageReorder.InfoReordered` | crates/fidoh-core/src/get_info.rs:322-410 | likewise for getInfo responses, up to the order inside the uninterpreted certifications, and for clientPIN responses, up to that inside the key |
| `ClientPin.PinResponseRoundTrip` | crates/fidoh-core/src/pin.rs:272-321 | a clientPIN response comes back under either policy with its key agreement canonicalised |
| `MessageAccepts.PinResponseAccepted` | crates/fidoh-core/src/pin.rs:272-321 | a clientPIN response is accepted if and only if the token is a byte string and the counters fit one byte; of a repeated member the last one counts |
| `MessageAccepts.PeerPointAccepted` | crates/fidoh-core/src/crypto.rs:202-248 | the platform reads a point from a key if and only if it says EC2, P-256, no other integer algorithm, and coordinates of 32 bytes |
| `ClientPin.CoseKeyRead` | crates/fidoh-core/src/crypto.rs:162-248 | each side reads back the point the other printed, the platform through canonical reordering |
| `MessageWire.CoseKeyWired` | crates/fidoh-core/src/crypto.rs:162-174 | the key-agreement key on the wire: kty 2, alg -25, crv 1 and the two coordinates, and nothing else |
| `MessageWire.PinResponseExact` | crates/fidoh-transport-soft/src/device.rs:578-598 | the bytes of a clientPIN response strictly decode to a map of exactly its members |
| `PinRequestFacts.PinRequestExact` | crates/fidoh-core/src/pin.rs:223-262 | every typed clientPIN request encodes unless its permissions are zero; its bytes strictly decode to a map of exactly the members 1, 2, 3, 4, 6, 9 and 10 that it has, each its own field, sub-commands as 1, 2, 5 and 9 |
| `PinRequestFacts.PinRequestRoundTrip` | crates/fidoh-core/src/pin.rs:223-262 | an authenticator that reads those bytes finds the request that was sent, its key canonicalised |
| `PinRequestFacts.PinRequestInjective` | crates/fidoh-core/src/pin.rs:223-262 | two requests encoded alike agree in every field, keys up to canonical form |
| `ClientPin.PinResponseOrderIgnored` | crates/fidoh-core/src/pin.rs:287-319 | parsing ignores the order of members with distinct keys |
| `Budget.Deadline.Consume` | crates/fidoh-core/src/time.rs:169-179 | spends the saturated duration whole or exhausts the budget, with the right outcome |
| `Budget.Deadline.ConsumeSlice` | crates/fidoh-core/src/time.rs:184-192 | grants the shorter of the request and the remainder, nothing once exhausted |
| `Budget.Deadline.ConsumeInSlices` | crates/fidoh-transport-soft/src/device.rs:603-612 | the slicing loop terminates, succeeds exactly when the duration is covered, and leaves what one-shot spending leaves |
| `Budget.BudgetConserved` | crates/fidoh-core/src/time.rs:169-192 | over any mix of calls, together they take the total asked for or the whole budget if that is less, and exactly the rest is left; charges plus remainder equal the starting budget |
| `Budget.ExhaustedForGood` | crates/fidoh-core/src/time.rs:184-192 | an exhausted budget stays exhausted under every later call |
| `Budget.SlicedRefinesOneShot` | crates/fidoh-transport-soft/src/device.rs:603-612 | sliced and one-shot spending leave the same; the outcomes agree if and only if the duration fits 64 bits or the budget is not the largest that does |
| `Budget.SlicesTakeTheTotal` | crates/fidoh-core/src/time.rs:184-192 | any sequence of slices takes together what one slice of their total would, whatever their lengths |
| `HidPacket.EncodeMessage` | crates/fidoh-transport-hid/src/packet.rs:42-71 | the packet-filling loop produces exactly the specified packets, or refuses an oversized payload |
| `HidPacket.FillInit` | crates/fidoh-transport-hid/src/packet.rs:46-57 | the initialization packet built in a zeroed 64-byte buffer |
| `HidPacket.FillCont` | crates/fidoh-transport-hid/src/packet.rs:62-66 | a continuation packet built in a zeroed 64-byte buffer |
| `HidPacket.PacketsCounted` | crates/fidoh-transport-hid/src/packet.rs:76-82 | the number of packets is the split rule's, at most 129 |
| `HidPacket.InitPacketRead` | crates/fidoh-transport-hid/src/packet.rs:96-151 | classification, header and payload of an initialization packet read back what was written |
| `HidPacket.ContPacketRead` | crates/fidoh-transport-hid/src/packet.rs:96-137 | the same for continuation packets |
| `HidBytes.PacketsExact` | crates/fidoh-transport-hid/src/packet.rs:42-71 | every byte of every packet: channel, tagged command and length, or number; 57 and then 59 bytes of the payload; zeros |
| `HidBytes.StepByBytes` | crates/fidoh-transport-hid/src/fsm.rs:500-591 | one report judged by its bytes alone: short, foreign, keepalive, error, busy, another command, too long, beginning or continuing a message, out of sequence, with the new state and the exact outcome |
| `HidAssembler.Assembler.Begin` | crates/fidoh-transport-hid/src/fsm.rs:210-221 | a new message replaces whatever was in progress, unless its length exceeds the maximum |
| `HidAssembler.Assembler.PushContinuation` | crates/fidoh-transport-hid/src/fsm.rs:226-249 | ignored outside a message, an error out of sequence, appended otherwise, with the length check |
| `HidAssembler.Assembler.Finish` | crates/fidoh-transport-hid/src/fsm.rs:258-262 | the message is the payload cut to the announced length; the assembler is idle afterwards |
| `HidAssembler.StepReport` | crates/fidoh-transport-hid/src/fsm.rs:500-591 | one report folded into the assembler: new state, surfaced status and outcome are the specified ones |
| `HidAssembler.StepSafe` | crates/fidoh-transport-hid/src/fsm.rs:210-262 | every step keeps payload = 57 + 59 * next_seq < BCNT, never wraps the one-byte counter, and never meets the length-mismatch branch |
| `HidAssembler.RunSafe` | crates/fidoh-transport-hid/src/fsm.rs:468-497 | the same over every inbound run of reports |
| `HidReassembly.ReassemblyThroughNoise` | crates/fidoh-transport-hid/src/fsm.rs:500-591 | through foreign traffic, keepalives and early stray continuations a message completes exactly at its last packet with exactly its payload, and the sink sees exactly the keepalives |
| `HidSoundness.DeliveredWasSent` | crates/fidoh-transport-hid/src/fsm.rs:500-591 | on any inbound run a delivered frame is one initialization packet of the awaited command and its continuations in sequence, cut to the announced length |
| `HidTransaction.ReadReportBounded` | crates/fidoh-transport-hid/src/fd_wait.rs:34-61 | the polling loop: first report, device gone, or timeout with the budget spent in ticks |
| `HidTransaction.Fsm.ReceiveLoop` | crates/fidoh-transport-hid/src/fsm.rs:469-497 | the receive loop of one attempt |
| `HidTransaction.Fsm.SendAndReceive` | crates/fidoh-transport-hid/src/fsm.rs:444-450 | one attempt: the encoded request written whole, then the receive loop |
| `HidTransaction.Fsm.Transaction` | crates/fidoh-transport-hid/src/fsm.rs:427-466 | the transaction with its unallocated-channel refusal and its retry loop |
| `HidTransaction.Fsm.RetryWhileBusy` | crates/fidoh-transport-hid/src/fsm.rs:443-465 | the full request again after a budgeted delay for every busy frame |
| `HidTransaction.Fsm.InitHandshake` | crates/fidoh-transport-hid/src/fsm.rs:349-385 | one INIT exchange with a fresh nonce; frames of other channels or commands are skipped |
| `HidTransaction.Fsm.Allocate` | crates/fidoh-transport-hid/src/fsm.rs:319-332 | the channel changes only on success, never to a reserved one |
| `HidTransaction.Fsm.Resync` | crates/fidoh-transport-hid/src/fsm.rs:337-346 | INIT on the held channel keeps it; without one this is allocation; what goes out and when it succeeds are HidAllocation.ResyncExact and ResyncAllocates |
| `HidAllocation.ResyncExact` | crates/fidoh-transport-hid/src/fsm.rs:337-346 | with a channel held: the one INIT packet carrying that channel is what is written, and it succeeds if and only if the write is accepted, the budget lasts, and the first report not passed over on that channel echoes the nonce |
| `HidAllocation.ResyncAllocates` | crates/fidoh-transport-hid/src/fsm.rs:337-346 | with none held, it is the allocation on the broadcast channel |
| `HidAllocation.HandshakeExact` | crates/fidoh-transport-hid/src/fsm.rs:349-385 | the handshake on any channel: what is written, and exactly when and with what it succeeds |
| `HidRuns.TransactionRun` | crates/fidoh-transport-hid/src/fsm.rs:427-497 | for any inbound stream, writes refused or not: sleeps plus remaining budget equal the starting budget; the request went out busy + 1 times, or busy times exactly when the last attempt met a busy frame too and found the budget spent; a refused write leaves busy whole copies and part of one more; timeout only at zero budget with the caller's phase |
| `HidWaits.TransactionWaits` | crates/fidoh-transport-hid/src/fsm.rs:427-497 | over any stream every sleep of a transaction is 5 ms or 50 ms, except that the last may take what was left of the budget |
| `HidRuns.BusyWithNothingLeft` | crates/fidoh-transport-hid/src/fsm.rs:443-464 | the failing input: with no budget left a first busy frame ends the transaction after one copy, so copies equal busy frames |
| `HidRuns.EveryBusyReissued` | crates/fidoh-transport-hid/src/fsm.rs:427-497 | with a budget above all waits the reads to come can cause, the last re-issue's delay aside, the request always goes out busy + 1 times |
| `HidRuns.OnlyBusy` | crates/fidoh-transport-hid/src/fsm.rs:443-464 | on a stream of nothing but busy frames that bound is exact: the last one goes unanswered if and only if the budget is below it |
| `HidBusy.BusyUnanswered` | crates/fidoh-transport-hid/src/fsm.rs:443-464 | while no answer comes (busy frames, empty reads, ignored frames, removal): a busy frame goes unanswered if and only if at some busy read the waits before it have taken up the budget, with no empty read in between |
| `HidRuns.TooLongRefused` | crates/fidoh-transport-hid/src/packet.rs:43-45 | an oversized request is refused before anything is written or waited for |
| `HidRuns.TransactionDelivers` | crates/fidoh-transport-hid/src/fsm.rs:427-497 | a delivered frame is one message in the reports read after the request went out for the last time, and nothing is written after that |
| `HidRuns.TransactionThroughNoise` | crates/fidoh-transport-hid/src/fsm.rs:427-497 | when the answer arrives in order among noise and the budget lasts, it is delivered whole, as the ping echo, the wink or the CBOR body of its command, keepalives surfaced, one copy written |
| `HidRuns.AllocationAnswered` | crates/fidoh-transport-hid/src/fsm.rs:319-385 | an allocated channel comes from a broadcast answer echoing the nonce just sent, and is not reserved |
| `HidAllocation.AwaitDecided` | crates/fidoh-transport-hid/src/fsm.rs:360-385 | the handshake ends with the verdict on the first report that is not passed over while the budget lasts, and otherwise in a timeout or removal |
| `HidAllocation.AllocationExact` | crates/fidoh-transport-hid/src/fsm.rs:319-385 | a channel is allocated if and only if the write is accepted, the budget lasts to the first report not passed over, and that one answers the nonce on broadcast with an unreserved channel |
| `HidAllocation.OtherHostsAnswer` | crates/fidoh-transport-hid/src/fsm.rs:360-384 | an INIT answer with another nonce on broadcast is not skipped: it ends the allocation in a nonce mismatch |
| `HidRuns.NoncesDiffer` | crates/fidoh-transport-hid/src/fsm.rs:150-155 | two nonces are equal exactly when their calls are a multiple of 2^64 apart |
| `ApduFrame.ChainShort` | crates/fidoh-transport-pcsc/src/apdu.rs:120-140 | the fragmenting loop produces the specified blocks |
| `ApduFrame.FramedChained` | crates/fidoh-transport-pcsc/src/framing.rs:86-108 | the short-form chain of a command |
| `ApduFrame.FramedMeans` | crates/fidoh-transport-pcsc/src/framing.rs:76-79 | an ISO 7816-4 reader recovers class, instruction, parameters, the whole data and Le 256 from the frame, for all and only payloads up to 65534 bytes |
| `ApduFrame.FramedInjective` | crates/fidoh-transport-pcsc/src/framing.rs:76-79 | two requests framed alike are alike, whichever of short and extended form each took |
| `ApduBytes.FramedBytes` | crates/fidoh-transport-pcsc/src/framing.rs:76-79 | every byte of the frame: 80 10 80 00, the length in its short or extended form, the command and its payload, and an Le of 256 |
| `ApduFrame.ExtendedParses` | crates/fidoh-transport-pcsc/src/apdu.rs:79-101 | an extended command is read back exactly when its data fits the 16-bit length field |
| `ApduFrame.ShortParses` | crates/fidoh-transport-pcsc/src/apdu.rs:62-101 | short-form commands are read back with their data and Le |
| `ApduFrame.NoDataParses` | crates/fidoh-transport-pcsc/src/apdu.rs:46-56 | a command without data is read back with its Le, zero meaning 256 |
| `ApduFrame.ChainedMeansFramed` | crates/fidoh-transport-pcsc/src/framing.rs:86-108 | the data of the chain's blocks concatenate to the command; the chain means what the single frame means exactly where that can say it |
| `ApduFrame.ChainShape` | crates/fidoh-transport-pcsc/src/apdu.rs:120-140 | block by block: class 0x90 without Le and 255 bytes, except the last, in class 0x80 with Le |
| `ApduExchange.StatusWordRoundTrip` | crates/fidoh-transport-pcsc/src/sw.rs:66-97 | every pair of bytes has its own typed status word |
| `ApduExchange.Exchange.GuardHop` | crates/fidoh-transport-pcsc/src/framing.rs:260-269 | spends a hop, or refuses when none is left |
| `ApduExchange.Exchange.Advance` | crates/fidoh-transport-pcsc/src/framing.rs:202-258 | one step of the response-assembly machine: new state and answer are the specified ones |
| `ApduExchange.SendsBounded` | crates/fidoh-transport-pcsc/src/framing.rs:202-269 | every command sent costs one credit of hops and Le retry |
| `ApduExchange.ExchangeSendsBounded` | crates/fidoh-transport-pcsc/src/framing.rs:182-269 | in any run of responses at most 65 follow-up commands are sent |
| `ApduExchange.DoneIsGathered` | crates/fidoh-transport-pcsc/src/framing.rs:202-238 | on Done, status and body are exactly the data of all 61xx answers and the final 9000, in order |
| `ApduBytes.StepByBytes` | crates/fidoh-transport-pcsc/src/framing.rs:202-258 | one answer judged by its two status bytes: 9000, 61xx, 9100, 6Cxx and the rest, with the command sent next written out byte by byte |
| `ApduCard.SplitAnswer` | crates/fidoh-transport-pcsc/src/framing.rs:202-323 | however a card splits its answer among 61xx, 9100 and 6Cxx answers, the exchange returns it unchanged if and only if there are at most 64 hops and one Le demand |
| `ApduCard.DriveExchange` | crates/fidoh-transport-pcsc/src/engine.rs:406-422 | the transmit-step loop terminates and answers what the specification function answers |
| `ApduCard.Transceive` | crates/fidoh-transport-pcsc/src/engine.rs:404-422 | a whole exchange against a card, from the framed command |
| `ApduCard.CardDelivers` | crates/fidoh-transport-pcsc/src/framing.rs:182-323 | a card that reads its commands by ISO 7816-4 delivers its response unchanged exactly when status updates and pieces stay within the hop limit; otherwise the runaway error |
| `PinCrypto.LawfulExists` | crates/fidoh-core/src/crypto.rs:138-418 | the assumed laws of the cryptographic library can be met |
| `PinCrypto.DecryptsBack` | crates/fidoh-core/src/crypto.rs:348-417 | decrypting undoes encrypting under both protocols, the IV included |
| `PinWire.SealedOnWire` | crates/fidoh-core/src/crypto.rs:348-387 | pinHashEnc in a token request, from the agreed secret and the PIN: 16 bytes of its digest under the digest of the secret and a zero IV, or under the derived key behind a fresh IV |
| `PinWire.ParamOnWire` | crates/fidoh-core/src/crypto.rs:333-341 | pinUvAuthParam: the HMAC of the client data hash under the token, cut to 16 bytes under protocol one |
| `PinWire.PinSetMatches` | crates/fidoh-transport-soft/src/auth.rs:423-441 | the PIN last set is the right one, with eight retries, and leaves an unlatched token armed |
| `PinRuns.RunSafe` | crates/fidoh-transport-soft/src/auth.rs:423-712 | on every run retries plus mismatches stay within 8, mismatches within 3, and three mismatches mean the latch |
| `PinRuns.AttemptCounts` | crates/fidoh-transport-soft/src/auth.rs:588-712 | what a PIN-bearing request does to the counters, by its answer |
| `PinRuns.RefusalCosts` | crates/fidoh-transport-soft/src/auth.rs:588-699 | which refusals cost a retry: a wrong PIN, a missing pinHashEnc and one that cannot be decrypted cost exactly one, every other refusal changes nothing at all |
| `PinRuns.NothingToCompareCosts` | crates/fidoh-transport-soft/src/auth.rs:653-676 | a request that reaches the comparison with a missing or undecryptable pinHashEnc pays a retry, although a comment says no counter is implicated |
| `PinRuns.RetriesAccounted` | crates/fidoh-transport-soft/src/auth.rs:423-712 | over any run without a refill the retries spent are exactly the costly refusals |
| `PinRuns.RetriesTold` | crates/fidoh-transport-soft/src/auth.rs:500-542 | after any run without a refill getPinRetries answers the starting count less the costly refusals, and asking changes nothing |
| `PinRuns.RefillExact` | crates/fidoh-transport-soft/src/auth.rs:423-451 | whatever refills the counters leaves eight retries and no mismatch |
| `PinRuns.AttemptStatus` | crates/fidoh-transport-soft/src/auth.rs:588-712 | the status of a PIN-bearing request: the checks in their order, each with its own code |
| `PinRuns.GuessesBounded` | crates/fidoh-transport-soft/src/auth.rs:653-706 | between refills at most eight wrong guesses occur, one retry each, however often power is cycled |
| `PinRuns.GuessesPaidFor` | crates/fidoh-transport-soft/src/auth.rs:423-712 | over any run wrong guesses never exceed the starting retries plus eight per refill |
| `PinRuns.GuessesPerCycle` | crates/fidoh-transport-soft/src/auth.rs:681-694 | within one power cycle at most three wrong guesses occur, exactly the mismatch count |
| `PinRuns.BlockedForGood` | crates/fidoh-transport-soft/src/auth.rs:601-603 | at zero retries no token is minted or granted until the PIN is set or cleared |
| `PinRuns.LatchHolds` | crates/fidoh-transport-soft/src/auth.rs:604-612 | while latched, every PIN-bearing request with retries left is refused and changes nothing |
| `PinRuns.LatchedUntilCycled` | crates/fidoh-transport-soft/src/auth.rs:604-612 | on every run without a power cycle a latched token stays latched, mints and hands out no token, and answers no guess with PIN invalid, whatever is set, cleared or asked |
| `PinRuns.LatchOutlivesSetPin` | crates/fidoh-transport-soft/src/auth.rs:423-463 | setting or clearing the PIN leaves the latch as it is, a power cycle releases it |
| `SoftToken.Entropy.DrawKey` | crates/fidoh-transport-soft/src/auth.rs:759-782 | the bounded search for a scalar in range |
| `SoftToken.ClientPinState.NewAgreement` | crates/fidoh-transport-soft/src/auth.rs:543-584 | a fresh key pair in the register, whose other fields are untouched on failure |
| `SoftToken.ClientPinState.Attempt` | crates/fidoh-transport-soft/src/auth.rs:588-654 | the checks of a PIN-bearing request in their order, ending in the decrement |
| `SoftToken.ClientPinState.Compare` | crates/fidoh-transport-soft/src/auth.rs:656-699 | decrypt and compare: mismatch counter and latch, or refill |
| `SoftToken.ClientPinState.Mint` | crates/fidoh-transport-soft/src/auth.rs:700-712 | a fresh token in the register, returned encrypted |
| `SoftToken.SoftAuthenticator.ClientPinExchange` | crates/fidoh-transport-soft/src/auth.rs:500-713 | the whole request: state, answer and entropy left are the specified ones |
| `SoftToken.SoftAuthenticator.SetPin` | crates/fidoh-transport-soft/src/auth.rs:423-441 | the PIN hash replaced and the counters refilled, the latch left alone |
| `SoftToken.SoftAuthenticator.ClearPin` | crates/fidoh-transport-soft/src/auth.rs:445-451 | the PIN cleared and the counters refilled |
| `SoftToken.SoftAuthenticator.PowerCycle` | crates/fidoh-transport-soft/src/auth.rs:458-463 | latch and mismatch counter cleared, nothing else |
| `SoftToken.SoftAuthenticator.SetPinProtocols` | crates/fidoh-transport-soft/src/auth.rs:475-477 | the advertised protocols replaced, nothing else of the PIN state |
| `SoftToken.SoftAuthenticator.SetPinKnobs` | crates/fidoh-transport-soft/src/auth.rs:489-491 | the two clientPIN knobs written, nothing else of the PIN state |
| `SoftToken.SoftAuthenticator.MakeCredential` | crates/fidoh-transport-soft/src/auth.rs:256-297 | the key is the first in-range scalar of two draws and the id the 32 bytes drawn next; the record stored last, the counter up by one modulo 2^32; nothing stored on failure |
| `SoftToken.MintingDraws` | crates/fidoh-transport-soft/src/auth.rs:256-297 | by the bytes of the entropy: the key is the first 32 or, out of range, the next 32, the id the 32 after; every shortage and two misses fail |
| `SoftToken.SoftAuthenticator.SignAssertion` | crates/fidoh-transport-soft/src/auth.rs:343-370 | the counter up by one modulo 2^32, then the signature over authenticator data and hash |
| `SoftToken.SoftAuthenticator.Assert` | crates/fidoh-transport-soft/src/device.rs:371-423 | selection, signature, queue and counter as specified |
| `SoftToken.SoftAuthenticator.NextAssertion` | crates/fidoh-transport-soft/src/device.rs:497-531 | the first parked credential signed for and removed, or not allowed |
| `Assertions.SelectCredentials` | crates/fidoh-transport-soft/src/auth.rs:305-331 | an index is selected if and only if that credential belongs to the relying party asked for and is listed or, without a list, resident; in store order; none is status 0x2E |
| `Assertions.MatchingExact` | crates/fidoh-transport-soft/src/auth.rs:309-326 | the selection holds exactly the credentials of the relying party that are listed or, without a list, resident, each once, in store order |
| `Assertions.AssertionsOwned` | crates/fidoh-transport-soft/src/device.rs:371-423 | the answer to a request and everything drained after it show a credential of the relying party that asked: its id, its user handle, that party's digest, the flags, the counter, and a signature over just that |
| `Assertions.WrongIdShown` | crates/fidoh-transport-soft/src/device.rs:387-404 | with the wrong-id knob on, the id shown is that of the first credential in the store with another id, and nothing else differs |
| `Assertions.QueueKept` | crates/fidoh-transport-soft/src/device.rs:405-415 | a request with one match, or with none, leaves what was parked before as it is |
| `Assertions.StoreRunSound` | crates/fidoh-transport-soft/src/device.rs:387-415 | over every run of minting, getAssertion and getNextAssertion no call indexes outside the store, at most eight credentials are parked, none is lost, and the counter went up once per signature modulo 2^32 |
| `Assertions.AssertParks` | crates/fidoh-transport-soft/src/device.rs:387-415 | a request with several matches answers the first with their number and parks the others, eight at most |
| `Assertions.DrainRest` | crates/fidoh-transport-soft/src/device.rs:497-531 | draining answers each parked credential once, in order, under consecutive counters, and empties the queue |
| `Assertions.DrainComplete` | crates/fidoh-transport-soft/src/device.rs:405-415 | after a request with several matches the drain is complete for at most nine; with more, the ninth call is refused |
| `SoftDevice.Handle.Send` | crates/fidoh-transport-soft/src/device.rs:121-164 | one send: budget, staged event, held-back response or command, in that order, with the whole new state |
| `SoftDevice.Handle.ExchangeGetAssertion` | crates/fidoh-transport-soft/src/device.rs:267-309 | injected status, then the keepalive sequence, then presence and verification |
| `SoftDevice.Handle.StageKeepalives` | crates/fidoh-transport-soft/src/device.rs:296-301 | each spacing is charged before its keepalive is staged; the first that does not fit stops the loop |
| `SoftDevice.Handle.AwaitMode` | crates/fidoh-transport-soft/src/device.rs:453-489 | one requirement under its mode: granted, denied, pending for a charged slice, or out of budget |
| `SoftDevice.Handle.ChargeDelay` | crates/fidoh-transport-soft/src/device.rs:357-369 | the delay charged to the budget, cut to 60 seconds beyond it |
| `SoftDevice.Handle.PokeUp` | crates/fidoh-transport-soft/src/auth.rs:197-199 | a presence poke sets that latch and nothing else |
| `SoftDevice.Handle.PokeUv` | crates/fidoh-transport-soft/src/auth.rs:202-204 | a verification poke sets that latch and nothing else |
| `SoftRuns.KeepaliveSequence` | crates/fidoh-transport-soft/src/device.rs:284-309 | a one-shot sequence that fits the budget surfaces every keepalive once and in order, charges the spacings, and then the command is answered as without it |
| `SoftRuns.KeepaliveSequenceCut` | crates/fidoh-transport-soft/src/device.rs:284-309 | a sequence that does not fit: the first keepalive is surfaced if the spacings take the budget exactly, none if they take more, and every other send times out |
| `SoftRuns.PersistentNeverAnswers` | crates/fidoh-transport-soft/src/device.rs:288-309 | with a persistent sequence no send is ever answered with a response |
| `SoftRuns.DelayedDelivery` | crates/fidoh-transport-soft/src/device.rs:351-369 | the held-back response is delivered on the third send exactly when the delay is shorter than the budget, although the comment says never |
| `SoftRuns.BothPokesAtOnce` | crates/fidoh-transport-soft/src/device.rs:466-488 | with both requirements poked by hand, a send is answered exactly when both latches are set; a lone presence poke is used up |
| `SoftRuns.PokedRuns` | crates/fidoh-transport-soft/src/device.rs:453-489 | over every run of pokes and requests within the budget, the latches are a function of the acts alone, and a request waits exactly when one of them is not set |
| `SoftRuns.InjectedOnce` | crates/fidoh-transport-soft/src/device.rs:553-560 | an injected status is answered to the next command of any kind, and only to that one unless it persists |
| `SoftRuns.AlwaysFails` | crates/fidoh-transport-soft/src/device.rs:453-489 | presence or verification set to fail denies the request with 0x27 and changes nothing |
| `SoftRuns.WaitingAnswers` | crates/fidoh-transport-soft/src/device.rs:453-489 | waiting for a poke costs 100 ms and is answered with keepalive 0x02; with less left it times out |
| `SoftRuns.WrongIdOnce` | crates/fidoh-transport-soft/src/device.rs:387-404 | the wrong-id knob is used up by an assertion and by nothing less |
| `SoftRuns.InfoTells` | crates/fidoh-transport-soft/src/device.rs:185-201 | what getInfo tells of the token: versions, identifier, options by mode and PIN, protocols |
| `CeremonySession.Session.Race` | crates/fidoh-core/src/ceremony.rs:914-930 | one hop against the budget: trace and outcome are the specified ones |
| `CeremonySession.Session.ClientPinHop` | crates/fidoh-core/src/ceremony.rs:702-753 | encodability, exchange, PIN-invalid with its retries, status and body |
| `CeremonySession.Session.AcquirePinUvAuthToken` | crates/fidoh-core/src/ceremony.rs:562-639 | protocol selection, key agreement and the shared secret, then the PIN |
| `CeremonySession.Session.RequestToken` | crates/fidoh-core/src/ceremony.rs:640-698 | the PIN length check, the token request and the parameter |
| `CeremonySession.Session.RunKeepaliveLoop` | crates/fidoh-core/src/ceremony.rs:820-864 | the loop terminates with the budget and names the phase of a timeout |
| `CeremonySession.Session.RunDrainHop` | crates/fidoh-core/src/ceremony.rs:796-808 | one drain hop with its budget check, status and body |
| `CeremonySession.Session.RunDrain` | crates/fidoh-core/src/ceremony.rs:525-527 | the drain loop stops at the first failure and collects in order otherwise |
| `CeremonySession.Session.RunExchange` | crates/fidoh-core/src/ceremony.rs:484-541 | exchange, allow-list check, drain and outcome |
| `CeremonySession.Session.Run` | crates/fidoh-core/src/ceremony.rs:399-542 | the whole pipeline: trace and outcome are the specified ones |
| `CeremonyRuns.StageCounts` | crates/fidoh-core/src/ceremony.rs:420-466 | a lawful trace starts with the probe and holds at most one prompt and two PIN hops, a token request only after the prompt and with a PIN of at most 63 bytes, a prompt only if verification is preferred |
| `CeremonyRuns.AcquireMoves` | crates/fidoh-core/src/ceremony.rs:562-698 | acquisition takes only the steps key agreement, prompt, token request, in that order, and has taken all of them when it succeeds |
| `CeremonyRuns.RequestWireOk` | crates/fidoh-core/src/ceremony.rs:206-278 | the request built never carries both uv and pinUvAuthParam, no empty allow list and no extensions, and the parameter exactly when there is material; when uv is asked for or the run refused is CeremonyPosture.PostureExact |
| `CeremonyPosture.PostureExact` | crates/fidoh-core/src/ceremony.rs:399-482 | against any device whose probe was answered: every request sent has the caller's fields, the parameter exactly when material is held or must be acquired, and uv exactly when there is none, verification is preferred and the probe says uv; clientPIN is asked only when a token must be acquired, on the protocol pinned or else the first listed that is implemented, with getAssertion permission for this relying party where the probe offers it; a provider that fails or a PIN over 63 bytes ends the run at the prompt; the run ends in PinRequired, with nothing sent after the probe, exactly when only a PIN would do and none can be had |
| `CeremonyPosture.NeverDowngraded` | crates/fidoh-core/src/ceremony.rs:257-278 | preferred verification on a device with a verifier or a PIN: whatever is sent asks for verification |
| `CeremonyPosture.DiscouragedStaysQuiet` | crates/fidoh-core/src/ceremony.rs:257-260 | discouraged verification: no PIN is asked for, no clientPIN is sent, no request carries options, nor a parameter the caller did not hold |
| `CeremonyStatus.PipelineTold` | crates/fidoh-core/src/error.rs:512-533 | against any device: every call but the last was answered well; a status, keepalive, fault or expiry answered to the last ends the run in exactly the error it stands for, status by status and phase by phase, and no run with a bad answer succeeds |
| `CeremonyStatus.PipelineAnswered` | crates/fidoh-core/src/ceremony.rs:484-541 | a run that ends in a good answer to its request ends in just what that answer says: an unreadable body, a credential not on the list with both named, a drain that is missing or out of budget, or the one assertion |
| `CeremonyStatus.PipelineJudgesPin` | crates/fidoh-core/src/ceremony.rs:590-690 | a run that ends on a good answer to a clientPIN request names what is wrong with it: an unreadable body, no key, a key off the curve, no token |
| `CeremonyStatus.PipelineEarnsPrompts` | crates/fidoh-core/src/ceremony.rs:590-640 | no run asks for the PIN before an answer with a key-agreement key on the curve |
| `CeremonyStatus.NoneChosenEnds` | crates/fidoh-core/src/ceremony.rs:562-590 | without a protocol in common, or with a pinned one that is not listed, the run ends right after the probe and says which |
| `CeremonyRuns.LoopRuns` | crates/fidoh-core/src/ceremony.rs:820-864 | the request goes out once and once more per keepalive; after a keepalive a timeout names user presence |
| `CeremonyRuns.DrainRuns` | crates/fidoh-core/src/ceremony.rs:525-527 | the drain makes exactly the announced number of hops on success and never more |
| `CeremonyRuns.PipelineRuns` | crates/fidoh-core/src/ceremony.rs:399-542 | against any device: the trace is lawful, requests sent are keepalives plus one on success, as many assertions as announced, the first one on any allow list sent, the posture reported truly |
| `CeremonyRuns.RequestsEncode` | crates/fidoh-core/src/ceremony.rs:206-278 | every getAssertion request in a lawful trace keeps the wire rules and encodes, whatever its size |
| `CeremonyRuns.PipelineEncodes` | crates/fidoh-core/src/ceremony.rs:399-542 | every getAssertion request any run of the pipeline sends encodes |
| `SoftLink.StaysInStore` | crates/fidoh-transport-soft/src/device.rs:497-531 | after any calls at all the parked credentials are in the store, so a drain never indexes outside it |
| `SoftLink.ProbeArmed` | crates/fidoh-transport-soft/src/device.rs:185-201 | an armed token's probe answer reaches the ceremony unchanged through the codec |
| `TwoParty.AttemptCompares` | crates/fidoh-transport-soft/src/auth.rs:614-706 | both sides derive one secret, so the token compares exactly the hash the client sent |
| `TwoParty.TokenRequested` | crates/fidoh-core/src/ceremony.rs:651-671 | the token request encodes, the token reads in its bytes exactly what was sent, and it compares the PIN hash it decrypts from them |
| `TwoParty.RightPinAcquires` | crates/fidoh-core/src/ceremony.rs:562-698 | with the right PIN the client ends with the MAC of its client data hash under the very token in the authenticator's register, retries back at 8 |
| `TwoParty.WrongPinCosts` | crates/fidoh-core/src/ceremony.rs:672-678 | with a wrong PIN the ceremony ends in IncorrectPin with exactly the old retries minus one, and so does the token |
| `DrainTogether.CeremonyDrains` | crates/fidoh-core/src/ceremony.rs:506-528 | ceremony and token on one to nine matches: each credential asserted once, in store order, consecutive counters, queue empty |
| `DrainTogether.CeremonyOverflows` | crates/fidoh-transport-soft/src/device.rs:405-415 | with ten or more matches the ceremony fails with not-allowed on the tenth assertion |
| `WaitTogether.NeverPoked` | crates/fidoh-core/src/ceremony.rs:820-864 | against a token never poked: one keepalive per whole poll slice in the budget, then a timeout naming user presence, or the getAssertion phase if not one slice fits; the budget spent and nothing else changed |
| `WholeCeremony.RightPinSucceeds` | crates/fidoh-core/src/ceremony.rs:399-542 | the right PIN and one to nine matches: the whole pipeline succeeds with every assertion, the acquired parameter, and the token's counters and queue as stated |

## Left out

- Operating-system edges: hidraw files, sysfs, PC/SC library binding, the tokio adapter and the CLI; I/O and rendering only.
- HID report descriptor parsing, error display text, status-code names: finite tables or separate small parsers that would add easy members only.
- Real cryptography (ECDH, HKDF, AES-CBC, HMAC, ECDSA): functions with stated laws; key bytes, zeroization and signature verification are not modelled.
- Entropy sources that fail and later recover, and the source's panic when a ceremony that must acquire a token was given none: the pool always exists and fails for good.
- Futures, wakers and cancellation by dropping: a hop either answers, fails or exhausts the budget.
- Discovery, selection and connection before the exchange pipeline, and the PC/SC engine around one exchange; no bound on total waiting is claimed for PC/SC.
- Attested credential data of a minted credential: the stored record and the counter are modelled, the COSE and AAGUID bytes of the minting response are not.
- `send_cancel`, `ensure_cbor_ready`, and opening or closing the soft device's channel: single calls without state of their own.
- The getInfo duplicate checks are modelled by their meaning (no repeated element), not by their sort-and-compare; a drain hook that expires is a GetNextAssertion hop that times out.
- Memory growth of the decoder's result vectors (`with_capacity`), which has no effect on results.
- Drained assertions are not compared with the allow list, as in the source; only the first one is.
- HidAssembler.StepReport: for reports of at most 64 bytes, which is all the descriptor delivers.
- HidRuns.TransactionDelivers: for writes that succeed; a refused write ends the transaction without a frame.
- HidBusy.BusyUnanswered: for writes that succeed, and streams without a frame that begins or answers a message.
- MessageReorder.AssertionReordered: for values in which no map repeats a key, as in everything the decoder accepts in strict mode.
- CeremonySession.Session.Race: the time a hop spends is not stated; a hop may expire whenever the device lets it, and the budget is otherwise a bound on the number of calls.
- A getAssertion request is handed to the soft token as it is, not read back from its bytes; what those hold is `MessageWire.RequestExact` and `GetAssertionFacts.RequestRoundTrip`.
- MessageAccepts.InfoAccepted: says which members are read; the rules that decide after that are `GetInfoFacts.FaultExact`, on the response they are read into.
- DrainTogether.CeremonyDrains: for a token that approves presence and verification at once, has no knob armed, and whose ids and user handles are shorter than 2^32 bytes.
- WholeCeremony.RightPinSucceeds: under the same conditions, and with enough entropy on both sides for the keys, the IVs and the token.
