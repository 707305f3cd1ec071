# Verified models of the HX link, the CANopen slave and their neighbours

This project models the platform-neutral protocol code of the repository in Dafny and proves what it
is for. It is checked with `dafny verify dfyconfig.toml`.

**HX wireless link.** `crc32.dfy` and `crc_burst.dfy` hold the CRC-32 of IEEE 802.3 and its burst
detection over bit vectors; `hx_codec.dfy` the packet codec, its fields in `hx_layout.dfy`;
`hx_stream.dfy` the resynchronising stream decoder; `hx_link.dfy` the per-client transmit ring with
short writes and the drain loop. `hx_delivery.dfy` composes them into delivery over whole runs:
`HxDelivery.DeliveredInEveryRun` for the sending side, `HxDelivery.ReceiveStream` for any number of
receives. `hx_damage.dfy` says what one damaged packet costs.

**CANopen slave (CiA 301).** `object_dictionary.dfy` is the table both services share.
`sdo_server.dfy` is the SDO server of section 7.2.4; `sdo_transfers.dfy` plays a conforming client
against it, `sdo_refusals.dfy` an erring one, and `sdo_runs.dfy` any client. `pdo.dfy` specifies the
PDO manager of section 7.2.2 as functions on values, `pdo_safety.dfy` proves mapping safety and that
the revision-stamped cache cannot be observed, `pdo_transport.dfy` carries a value from one node to
another, `pdo_configuration.dfy` configures a mapping from outside, `pdo_addressing.dfy` says what the
parameters mean and whose frame it is, `pdo_timing.dfy` and `pdo_event_timer.dfy` say when a channel
sends in whole runs, `pdo_limits.dfy` where that falls short, and `pdo_manager.dfy` is the manager in
place, each method proved against those functions. `heartbeat.dfy`, `node.dfy`, `node_commands.dfy`
and `node_in_place.dfy` are the NMT node of section 7.2.8 with both services under it.

**Neighbours.** `twai_transport.dfy` (transmit slots between senders and a completion interrupt),
`spsc_ring.dfy` (the lock-free ring, split at every atomic load and store), `hexfellow.dfy` and
`mit_packing.dfy` (one-to-many motor frames), `buttons.dfy`, `button_runs.dfy` and `button_events.dfy`
(the button worker) and `lifecycle.dfy` (the application manager). `bytes.dfy`, `can.dfy`, `arith.dfy`
and `wrappers.dfy` are shared.

Where the source changes objects in place, a class with the same fields does, and its methods are tied
to functions on values: `Model()` gives the value, and the theorems are about the functions. What
comes from outside is a parameter and arbitrary: what a socket takes or delivers, what the driver or
the transport answers, what hooks of the application answer, the level of a pin, and the time. The
clock of the CANopen stack only grows; the ticks of the buttons wrap at 2^32. The statistics and the
configuration revision do not wrap.

Seven promises hold only under a condition, which is proved to be exact:

- After garbage the decoder itself always finds the next packet (`HxStream.Resynchronises`), but the
  TCP server drops the connection at the eighth consecutive rejection, so there the packet is handed
  on if and only if there are fewer (`HxDelivery.HandedOnAfterGarbage`, with inputs in
  `HxDelivery.DroppedByGarbage`). The sentence on eight consecutive invalid packets
  (canopen-esp32c5/docs/wireless-gateway.md:91) names the limit, but the code counts false starts: one
  damaged packet can reach it (`HxDamage.OneDamagedPacket`).
- Damage within 32 bits is rejected unless it leaves a plausible header with another length; then the
  decoder waits, or accepts a shorter packet, exactly when `HxCodec.BurstRejected` says (with inputs
  in `HxCodec.LengthDamageMayWait` and `HxCodec.LengthDamageMayDecode`).
- A transmit mapping passes validation with entries of any length, but values are collected through
  eight bytes: it is sent if and only if no entry is longer (`PdoLimits.TransmitsExactly`, with an
  input in `PdoLimits.AcceptedAndNeverSent`).
- Transmissions of a channel keep the inhibit time, but a time of zero stands for none: an early
  attempt is refused if and only if the one before was not at zero (`PdoTiming.InhibitExactly`, with
  an input in `PdoLimits.ForgottenAtZero`).
- A button's level is accepted only after the debounce time, unless an edge is stamped after the pass
  has read the clock (`Buttons.SettledExactly`, with an input in `Buttons.TakenAtOnce`).
- A press released before the long-press time ends in a click, unless a pass reads the bouncing line
  as pressed when that time is over (`ButtonRuns.BouncingRelease`, with an input in
  `ButtonRuns.LetGoInTime`).
- The lifecycle invariant survives a registration if and only if the module comes stopped, which
  nothing checks (`Lifecycle.RegisterKeepsInvExactly`, with an input in
  `Lifecycle.InitialisedBeforeRegistration`).

## Model

| member | source | states |
|---|---|---|
| Crc32.Crc32Ieee | canopen-esp32c5/components/wireless_protocol/src/protocol.cpp:83-94 | the byte-and-mask loop computes the bit-serial CRC-32 of IEEE 802.3 section 3.2.9 (`Crc`), which is defined one message bit at a time |
| Crc32.RegisterAppend | canopen-esp32c5/components/wireless_protocol/src/protocol.cpp:83-94 | feeding two bit strings one after the other is feeding their concatenation |
| Crc32.RegisterOfWord | canopen-esp32c5/components/wireless_protocol/src/protocol.cpp:83-94 | 32 bits fed serially have the effect of one XOR into the register followed by 32 shifts |
| Crc32.ShiftAbsorbs | canopen-esp32c5/components/wireless_protocol/src/protocol.cpp:89-90 | the masked shift of the code distributes over XOR with a shifted-in bit: a byte entering later equals one XORed earlier at a shifted position |
| Crc32.CheckValue | canopen-esp32c5/components/wireless_protocol/src/protocol.cpp:83-94 | the published check value: the CRC of the digits one to nine is 0xCBF43926 |
| CrcBurst.ShiftInjective | canopen-esp32c5/components/wireless_protocol/src/protocol.cpp:89-90 | the bit step is injective, hence a bijection of 32-bit registers |
| CrcBurst.RegisterInjective | canopen-esp32c5/components/wireless_protocol/src/protocol.cpp:83-94 | no bit string maps two different registers to one |
| CrcBurst.BurstDetected | canopen-esp32c5/components/wireless_protocol/src/protocol.cpp:83-94 | two different byte strings of equal length that differ only within 32 consecutive bits, at any bit position, have different CRCs |
| CrcBurst.FourByteBurstDetected | canopen-esp32c5/components/wireless_protocol/src/protocol.cpp:83-94 | the same for a window of four consecutive bytes |
| CrcBurst.SealedIsResidue | canopen-esp32c5/components/wireless_protocol/src/protocol.cpp:135-136 | a string carries its own CRC exactly if feeding all of it, CRC included, leaves the fixed residue |
| CrcBurst.SealBroken | canopen-esp32c5/components/wireless_protocol/src/protocol.cpp:135-138 | a burst of up to 32 bits anywhere in a sealed string, its CRC field included, breaks the seal |
| CrcBurst.BurstStaysNear | canopen-esp32c5/components/wireless_protocol/src/protocol.cpp:135-138 | a burst of up to 32 bits that hits some bytes leaves all bytes four or more away from them intact |
| HxCodec.EncodePacket | canopen-esp32c5/components/wireless_protocol/src/protocol.cpp:96-115 | refuses exactly the packets that are too long or of unknown type; otherwise the buffer holds the encoding and zeros after it |
| HxCodec.DecodePacket | canopen-esp32c5/components/wireless_protocol/src/protocol.cpp:117-146 | the imperative decoder is the function `Decode`, in all its incomplete and invalid cases |
| HxLayout.PacketLayout | canopen-esp32c5/components/wireless_protocol/src/protocol.cpp:96-115 | an encoded packet field by field: offsets, constants and little-endian numbers as the protocol document lists them |
| HxLayout.Types | canopen-esp32c5/components/wireless_protocol/src/protocol.cpp:60-81 | the message types that are known |
| HxCodec.DecodeEncode | canopen-esp32c5/components/wireless_protocol/src/protocol.cpp:96-146 | decoding an encoded packet followed by anything returns that packet and its exact length |
| HxCodec.EncodeDecode | canopen-esp32c5/components/wireless_protocol/src/protocol.cpp:96-146 | re-encoding a decoded packet reproduces the consumed bytes |
| HxCodec.DecodeExactly | canopen-esp32c5/components/wireless_protocol/src/protocol.cpp:96-146 | a string decodes to a packet if and only if it starts with the encoding of that packet |
| HxCodec.PrefixFree | canopen-esp32c5/components/wireless_protocol/src/protocol.cpp:96-146 | no encoding is a proper prefix of another |
| HxCodec.DecodeMonotone | canopen-esp32c5/components/wireless_protocol/src/protocol.cpp:117-146 | a decision, once made, does not change when more bytes arrive |
| HxCodec.PrefixIncomplete | canopen-esp32c5/components/wireless_protocol/src/protocol.cpp:117-134 | every proper prefix of an encoding is incomplete, never invalid |
| HxCodec.BurstRejected | canopen-esp32c5/components/wireless_protocol/src/protocol.cpp:117-138 | an encoding damaged within 32 consecutive bits is rejected, with two exceptions that are stated exactly: type and version still plausible, the decoder waits if and only if the damaged length is larger and at most 128, and accepts if and only if it is smaller and the payload holds, where that length makes the decoder look, the checksum of what stands before it; and it then accepts that shorter packet |
| HxCodec.LengthDamageExactly | canopen-esp32c5/components/wireless_protocol/src/protocol.cpp:117-138 | the same for another length field and no other damage, for every packet and every length: a sender can tell beforehand which lengths would be accepted |
| HxCodec.LengthDamageMayWait | canopen-esp32c5/components/wireless_protocol/src/protocol.cpp:126-134 | every packet of fewer than 128 bytes with its length raised by one leaves the decoder waiting |
| HxCodec.LengthDamageMayDecode | canopen-esp32c5/components/wireless_protocol/src/protocol.cpp:117-138 | that case exists: for all flags and sequences, a packet whose encoding with one changed length byte decodes as an empty packet, since the checksum is looked for where the length says |
| HxCodec.ParseMake | canopen-esp32c5/components/wireless_protocol/src/protocol.cpp:148-199 | parsing the packet made of a valid frame and metadata returns both, the unused data bytes cleared |
| HxCodec.MakeParse | canopen-esp32c5/components/wireless_protocol/src/protocol.cpp:148-199 | making the packet of what was parsed reproduces type, length and payload |
| HxLayout.CanLayout | canopen-esp32c5/components/wireless_protocol/src/protocol.cpp:148-199 | which CAN frames can be carried, and each field of their packets: identifier, length, the four flag bits, origin, bus, time, data |
| HxStream.StreamDecoder.Append | canopen-esp32c5/components/wireless_protocol/src/protocol.cpp:201-209 | appends all bytes, or none and says so exactly when they do not fit |
| HxStream.StreamDecoder.Discard | canopen-esp32c5/components/wireless_protocol/src/protocol.cpp:229-236 | drops the first bytes, all of them at most, keeping the rest in order |
| HxStream.StreamDecoder.Next | canopen-esp32c5/components/wireless_protocol/src/protocol.cpp:211-227 | one call takes exactly the first event of a one-shot parse of the buffer, and leaves what that parse would continue with |
| HxStream.ScanIsNextThenScan | canopen-esp32c5/components/wireless_protocol/src/protocol.cpp:211-227 | draining by repeated `next` is the one-shot parse |
| HxStream.ScanLeavesLittle | canopen-esp32c5/components/wireless_protocol/src/protocol.cpp:211-227 | a drained buffer holds fewer than 144 bytes and yields nothing more |
| HxStream.ScanSplit | canopen-esp32c5/components/wireless_protocol/src/protocol.cpp:201-227 | parsing what one part leaves together with the next part is parsing both at once |
| HxStream.ChunkIndependence | canopen-esp32c5/components/wireless_protocol/src/protocol.cpp:201-227 | for every split into chunks, each drained, events and remainder are those of a one-shot parse of the whole stream |
| HxStream.ScanPackets | canopen-esp32c5/components/wireless_protocol/src/protocol.cpp:201-227 | a concatenation of encodings followed by anything parses to exactly those packets |
| HxStream.ScanPartial | canopen-esp32c5/components/wireless_protocol/src/protocol.cpp:211-227 | an unfinished encoding yields no event and is kept |
| HxStream.Resynchronises | canopen-esp32c5/components/wireless_protocol/src/protocol.cpp:211-227 | garbage in which no packet decodes at any offset costs one rejection per false start and never the packet that follows |
| HxLink.ClientTx.SendPacket | canopen-esp32c5/components/wireless_esp32/src/tcp_server.cpp:442-461 | accepts exactly when the ring has room and the packet encodes, and appends it to the queue; a full ring counts a drop |
| HxLink.ClientTx.FlushClient | canopen-esp32c5/components/wireless_esp32/src/tcp_server.cpp:463-496 | for any short writes, EAGAIN or errors, what is written, what leaves the ring and how many calls are made |
| HxLink.ClientRx.ReceiveClient | canopen-esp32c5/components/wireless_esp32/src/tcp_server.cpp:319-351 | one receive hands on exactly the packets of the parse, up to the eighth consecutive rejection or a refused packet; appending never fails |
| HxLink.RingPush | canopen-esp32c5/components/wireless_esp32/src/tcp_server.cpp:456-459 | writing behind the last element of the ring appends to the queue it stands for |
| HxLink.RingPop | canopen-esp32c5/components/wireless_esp32/src/tcp_server.cpp:483-485 | advancing the head drops the first element of that queue |
| HxLink.ConservedPush | canopen-esp32c5/components/wireless_esp32/src/tcp_server.cpp:442-461 | queueing keeps: the wire bytes are the encodings of the packets sent and the written part of the oldest one waiting |
| HxLink.ConservedWrite | canopen-esp32c5/components/wireless_esp32/src/tcp_server.cpp:473-488 | and so does writing any non-empty part of the oldest packet |
| HxLink.FlushFacts | canopen-esp32c5/components/wireless_esp32/src/tcp_server.cpp:463-496 | a flush keeps that, only adds to the wire, loses and duplicates nothing, takes at least a byte with every call but the last, and stops only when the ring is empty, one ring of packets has gone out, or the socket blocks or fails |
| HxDelivery.EndToEnd | canopen-esp32c5/components/wireless_esp32/src/tcp_server.cpp:442-496 | a peer fed the wire bytes in any chunks emits exactly the packets sent completely, in order, and holds the beginning of the next |
| HxDelivery.DeliveredInEveryRun | canopen-esp32c5/components/wireless_esp32/src/tcp_server.cpp:442-496 | for every run of sends and flushes: the packets whose send succeeded are those gone out followed by those waiting, and a peer receives exactly the former under every chunking of the wire bytes |
| HxDelivery.Run | canopen-esp32c5/components/wireless_esp32/src/tcp_server.cpp:442-496 | the class, driven by any such run, ends in the state and gives the results of that theorem |
| HxDelivery.ReceiveStream | canopen-esp32c5/components/wireless_esp32/src/tcp_server.cpp:319-351 | any number of receives hand on, and keep or drop the connection, as one parse of everything received decides, however the stream is cut |
| HxDelivery.HandleSplit | canopen-esp32c5/components/wireless_esp32/src/tcp_server.cpp:332-350 | handling the packets of two parts one after the other is handling them at once, unless the first part ends the connection |
| HxDelivery.HandedOnInOrder | canopen-esp32c5/components/wireless_esp32/src/tcp_server.cpp:332-350 | packets go to the handler in order and none is left out; the connection ends at the first refusal or the eighth rejection in a row, and at nothing else |
| HxDelivery.WireIsHandedOn | canopen-esp32c5/components/wireless_esp32/src/tcp_server.cpp:319-496 | the bytes of any run of a sender are handed on completely and never drop the connection |
| HxDelivery.HandedOnAfterGarbage | canopen-esp32c5/components/wireless_esp32/src/tcp_server.cpp:338-345 | received garbage, then a packet: the packet is handed on first if and only if the false starts in the garbage, with the rejections counted before, stay below eight; otherwise nothing is and the connection ends |
| HxDelivery.DroppedByGarbage | canopen-esp32c5/components/wireless_esp32/src/tcp_server.cpp:338-345 | inputs for both: the magic bytes k times over before any packet are survived for k below eight and drop the connection from eight on |
| HxDamage.OneDamagedPacket | canopen-esp32c5/components/wireless_esp32/src/tcp_server.cpp:338-345 | a single damaged packet whose payload holds the magic bytes k times, with any wrong checksum free of the first magic byte: the packet after it is handed on if and only if k + 1 is below eight, and otherwise the connection is dropped |
| ObjectDictionary.Dictionary.IndexOf | canopen-esp32c5/components/canopen/src/object_dictionary.cpp:58-76 | the linear search finds the first entry with the key, or none |
| ObjectDictionary.Dictionary.Add | canopen-esp32c5/components/canopen/src/object_dictionary.cpp:34-44 | adds exactly when not frozen, not full, not empty and the key is new; the error otherwise, and nothing changed |
| ObjectDictionary.Dictionary.ReadValue | canopen-esp32c5/components/canopen/src/object_dictionary.cpp:78-106 | access, capacity and hook decide in this order; the bytes are little-endian |
| ObjectDictionary.Dictionary.WriteValue | canopen-esp32c5/components/canopen/src/object_dictionary.cpp:108-135 | access, size and hook decide in this order; only then the storage changes |
| ObjectDictionary.FindUnique | canopen-esp32c5/components/canopen/src/object_dictionary.cpp:58-76 | with unique keys the search finds the entry itself |
| ObjectDictionary.ReadAfterWrite | canopen-esp32c5/components/canopen/src/object_dictionary.cpp:78-135 | what is written reads back, on machines of either byte order |
| ObjectDictionary.ReadShows | canopen-esp32c5/components/canopen/src/object_dictionary.cpp:15-106 | which code for which cause; a scalar is shown as the little-endian number that the application variable has on a machine of either byte order, a string unchanged |
| ObjectDictionary.WriteStores | canopen-esp32c5/components/canopen/src/object_dictionary.cpp:24-135 | which code for which cause; an accepted write leaves the application variable with the number written, on a machine of either byte order, a string unchanged |
| ObjectDictionary.WriteTouchesOne | canopen-esp32c5/components/canopen/src/object_dictionary.cpp:108-135 | a write changes one entry at most, and nothing when refused |
| SdoServer.Server.Handle | canopen-esp32c5/components/canopen/src/sdo_server.cpp:35-72 | which frames are for this server, and the identifier of its answers; dispatch on state and command; the new state, dictionary and response are those of `Request` |
| SdoServer.Server.HandleInitiate | canopen-esp32c5/components/canopen/src/sdo_server.cpp:74-164 | expedited and segmented initiates with every size check and abort |
| SdoServer.Server.HandleUploadSegment | canopen-esp32c5/components/canopen/src/sdo_server.cpp:166-191 | one upload segment out of the workspace, toggle checked |
| SdoServer.Server.HandleDownloadSegment | canopen-esp32c5/components/canopen/src/sdo_server.cpp:193-237 | one download segment into the workspace, committed by the last |
| SdoServer.Server.ProcessTimeout | canopen-esp32c5/components/canopen/src/sdo_server.cpp:239-245 | an overdue transfer is aborted |
| SdoTransfers.DownloadIsWrite | canopen-esp32c5/components/canopen/src/sdo_server.cpp:74-237 | for a client that judges replies by specifier, toggle bit and entry: a segmented download of any data succeeds exactly if it is at most 512 bytes and the write of all of it at once is accepted, and then has exactly that effect; announced size or not |
| SdoTransfers.ExpeditedIsWrite | canopen-esp32c5/components/canopen/src/sdo_server.cpp:111-129 | an expedited download is the write of its data, answered by an acknowledgement or by an abort with the reason |
| SdoTransfers.UploadIsRead | canopen-esp32c5/components/canopen/src/sdo_server.cpp:80-191 | for a client that checks entry, toggle bits and announced size: an upload returns what reading the entry gave at the first request, whatever happens to the dictionary between segments |
| SdoTransfers.RoundTrip | canopen-esp32c5/components/canopen/src/sdo_server.cpp:74-237 | downloading b to a readable, writable entry without hooks of 1 to 512 bytes and uploading it again returns exactly b |
| SdoTransfers.AckAcknowledges | canopen-esp32c5/components/canopen/src/sdo_server.cpp:228-230 | a segment is acknowledged with specifier 1 and its own toggle bit, all else zero |
| SdoTransfers.AbortRefuses | canopen-esp32c5/components/canopen/src/sdo_server.cpp:257-267 | an abort has specifier 4, the entry, and the reason as a 32-bit number |
| SdoRefusals.InitiateRefused | canopen-esp32c5/components/canopen/src/sdo_server.cpp:74-164 | every reason not to start a transfer, with the abort code that the client gets; nothing is written |
| SdoRefusals.TransferRefused | canopen-esp32c5/components/canopen/src/sdo_server.cpp:52-237 | every reason to end one: wrong command, wrong toggle bit, too much data, too little, a refused write; nothing is written |
| SdoRuns.StepIsAtomic | canopen-esp32c5/components/canopen/src/sdo_server.cpp:35-255 | one request, timeout or reset changes the dictionary exactly by the write it completes, and keeps offset, toggle parity and workspace consistent with the data received |
| SdoRuns.RunIsAtomic | canopen-esp32c5/components/canopen/src/sdo_server.cpp:35-255 | over every sequence of inputs the dictionary is the initial one with the completed writes applied in order |
| SdoRuns.TransferTerminates | canopen-esp32c5/components/canopen/src/sdo_server.cpp:166-237 | a transfer accepts at most size/7 + 1 segments |
| SdoRuns.TimeoutInEveryRun | canopen-esp32c5/components/canopen/src/sdo_server.cpp:160-245 | after every run from idle, a client that falls silent in a transfer gets exactly one abort, from the first periodic call at least one second after the last message that the transfer accepted; until then the transfer stays open |
| SdoRuns.FirstLateIsFirst | canopen-esp32c5/components/canopen/src/sdo_server.cpp:239-245 | that call is one of the calls, it is late, and none before it is |
| Pdo.ValidateWordsExactly | canopen-esp32c5/components/canopen/src/pdo.cpp:241-257 | a mapping set is accepted if and only if every word is mappable and the total is within 512 bits, 64 without FD |
| Pdo.ValidateWordExactly | canopen-esp32c5/components/canopen/src/pdo.cpp:221-239 | a word is accepted if and only if it names a mappable entry by its exact size that may be accessed in the direction of the channel |
| PdoAddressing.WordRefused | canopen-esp32c5/components/canopen/src/pdo.cpp:221-239 | and which abort code for which fault |
| PdoAddressing.WordWritten | canopen-esp32c5/components/canopen/src/pdo.cpp:206-218 | a mapping word can be written while the mapping is off, if it is mappable; the code otherwise |
| PdoAddressing.CountWritten | canopen-esp32c5/components/canopen/src/pdo.cpp:197-257 | the number of words is accepted if and only if these are safe; too many words and too many bits have their own codes |
| PdoAddressing.CobIdWritten | canopen-esp32c5/components/canopen/src/pdo.cpp:180-190 | which COB-IDs are accepted and which code otherwise: eleven bits and two switches, and an enabled channel keeps its own until it is switched off |
| PdoAddressing.TypeWritten | canopen-esp32c5/components/canopen/src/pdo.cpp:190-192 | transmission types 241 to 253 are refused, and an accepted one is in force |
| PdoAddressing.TimesWritten | canopen-esp32c5/components/canopen/src/pdo.cpp:192-196 | inhibit time in units of 100 microseconds and event timer in milliseconds, in force once written |
| PdoAddressing.ParametersAreEntries | canopen-esp32c5/components/canopen/src/pdo.cpp:50-146 | all parameters of a channel are what a client reads under the indices of CiA 301 |
| PdoAddressing.DefaultParameters | canopen-esp32c5/components/canopen/src/pdo.cpp:33-48 | the identifiers of the predefined connection set, nothing mapped, type 255, no timers |
| PdoAddressing.FreshNodeListens | canopen-esp32c5/components/canopen/src/pdo.cpp:33-48 | a fresh node n listens to 0x200 + 0x100 ch + n on its channel ch, for every n from 1 to 127 |
| PdoAddressing.ResetIsFresh | canopen-esp32c5/components/canopen/src/pdo.cpp:388-399 | a reset restores these |
| PdoInPlace.PdoManager.ValidateMappingWord | canopen-esp32c5/components/canopen/src/pdo.cpp:221-239 | the checks on one word, in order |
| PdoInPlace.PdoManager.ValidateMappingSet | canopen-esp32c5/components/canopen/src/pdo.cpp:241-257 | the loop over the words returns the first error, then checks the total |
| PdoInPlace.PdoManager.ValidateConfigWrite | canopen-esp32c5/components/canopen/src/pdo.cpp:155-219 | which configuration writes are accepted, and that exactly these move the revision on |
| PdoInPlace.PdoManager.RefreshMapping | canopen-esp32c5/components/canopen/src/pdo.cpp:259-281 | the cache of a channel is decoded again exactly if the revision has moved on |
| PdoInPlace.PdoManager.Handle | canopen-esp32c5/components/canopen/src/pdo.cpp:283-311 | first matching enabled channel, refresh, length check, writes up to the first refusal, counter |
| PdoInPlace.PdoManager.Transmit | canopen-esp32c5/components/canopen/src/pdo.cpp:348-386 | no frame when off, unmapped, inhibited or unreadable; otherwise the frame of the collected values |
| PdoInPlace.PdoManager.OnSync | canopen-esp32c5/components/canopen/src/pdo.cpp:313-328 | over all four channels, each at its own SYNC count |
| PdoInPlace.PdoManager.Process | canopen-esp32c5/components/canopen/src/pdo.cpp:330-346 | over all four channels, each at its own event timer |
| PdoInPlace.PdoManager.ResetCommunication | canopen-esp32c5/components/canopen/src/pdo.cpp:388-399 | parameters at their defaults, revision moved on, caches forgotten |
| PdoInPlace.PdoManager.RegisterDictionaryEntries | canopen-esp32c5/components/canopen/src/pdo.cpp:50-146 | succeeds if and only if the table is not frozen, has room for 172 entries and holds none of them; then every entry stands at its default, the manager starts in its invariant and other entries are as before |
| PdoSafety.ConfigWriteKeepsSafe | canopen-esp32c5/components/canopen/src/pdo.cpp:155-219 | every accepted configuration write leaves every channel with mappable words within the length of a frame |
| PdoSafety.OdWriteKeepsInv | canopen-esp32c5/components/canopen/src/pdo.cpp:155-281 | every write, accepted or not, keeps mappings safe and cached mappings of the current revision equal to a fresh decoding |
| PdoSafety.HandleCacheTransparent | canopen-esp32c5/components/canopen/src/pdo.cpp:259-311 | receiving acts as if the words were decoded for every frame, and never changes the configuration |
| PdoAddressing.ReceivedByLowest | canopen-esp32c5/components/canopen/src/pdo.cpp:283-311 | a frame is consumed if and only if the node is operational, it is a valid data frame with eleven identifier bits, and some enabled channel has these; the lowest such channel distributes it |
| PdoAddressing.ReceivedIsCounted | canopen-esp32c5/components/canopen/src/pdo.cpp:294-307 | the statistics count exactly the frames whose values have all been written |
| PdoSafety.TransmitCacheTransparent | canopen-esp32c5/components/canopen/src/pdo.cpp:259-281 | transmitting acts as if the words were decoded every time; the frame is valid and as long as the mapping |
| PdoTransport.SentUnder | canopen-esp32c5/components/canopen/src/pdo.cpp:348-386 | frames go out under the low eleven bits of an enabled COB-ID, as CAN-FD exactly when they need it |
| PdoAddressing.SentIsCounted | canopen-esp32c5/components/canopen/src/pdo.cpp:378-386 | the statistics count exactly the frames that the transport has taken |
| PdoSafety.ResetKeepsInv | canopen-esp32c5/components/canopen/src/pdo.cpp:388-399 | after a reset nothing is mapped and the invariant holds |
| PdoSafety.ConstructedInv | canopen-esp32c5/components/canopen/src/pdo.cpp:33-48 | the freshly constructed manager over its registered entries satisfies the invariant |
| PdoSafety.ApplyKeepsInv | canopen-esp32c5/components/canopen/src/pdo.cpp:155-399 | safety and coherence are kept by every write, frame, SYNC, timer call and reset, hence hold in every run |
| PdoTransport.TransmitReceive | canopen-esp32c5/components/canopen/src/pdo.cpp:283-386 | a transmitted frame, padded on the wire and received by a node whose lowest enabled channel with the same identifier maps distinct hook-free targets of the same lengths, writes to each target exactly the producer value and leaves all other entries unchanged |
| PdoLimits.TransmitsExactly | canopen-esp32c5/components/canopen/src/pdo.cpp:348-386 | a channel without reading hooks sends a frame if and only if it is enabled, mapped, not inhibited, and no mapped entry has more than 64 bits |
| PdoLimits.LongEntryNeverSent | canopen-esp32c5/components/canopen/src/pdo.cpp:197-386 | on every manager: mapping a readable entry of 9 to 31 bytes is accepted, and from then on the channel sends nothing |
| PdoLimits.AcceptedAndNeverSent | canopen-esp32c5/components/canopen/src/pdo.cpp:197-386 | such a manager, freshly registered beside a 16-byte string, for every channel: enabled, not inhibited, and silent |
| PdoTiming.EveryNthSync | canopen-esp32c5/components/canopen/src/pdo.cpp:313-328 | in every run without changes of the configuration, a channel of type n whose counter stands at c attempts floor((c + k)/n) transmissions in k SYNCs and ends at (c + k) mod n |
| PdoTiming.AttemptsByChannel | canopen-esp32c5/components/canopen/src/pdo.cpp:313-346 | the attempts counted there are all that the manager makes, channel by channel |
| PdoTiming.InhibitKept | canopen-esp32c5/components/canopen/src/pdo.cpp:330-386 | in every such run the successful transmissions of a channel, by SYNC or timer, keep the inhibit time, the last one before the run included; one at time zero is not remembered |
| PdoTiming.SpacedApart | canopen-esp32c5/components/canopen/src/pdo.cpp:362-367 | hence n transmissions take at least n - 1 inhibit times |
| PdoTiming.InhibitExactly | canopen-esp32c5/components/canopen/src/pdo.cpp:362-367 | an attempt within the inhibit time after a success is refused if and only if that was not at time zero |
| PdoEventTimer.TimerKept | canopen-esp32c5/components/canopen/src/pdo.cpp:330-346 | in every run without changes of the configuration the transmissions of a channel of type 254 or 255 with an event timer lie at least that time, and the inhibit time, apart; one at time zero is not remembered |
| PdoEventTimer.TimerServed | canopen-esp32c5/components/canopen/src/pdo.cpp:330-386 | with periodic calls at most g apart whose frames are taken, on an enabled channel mapped to entries of at most 64 bits without reading hooks, they lie less than the longer of the two times plus g apart, and at the end of the run less than the longer one has passed since the last |
| PdoLimits.ForgottenAtZero | canopen-esp32c5/components/canopen/src/pdo.cpp:362-367 | a manager that sends two frames within one inhibit time, the first at time zero |
| PdoConfiguration.ConfigurationTakesEffect | canopen-esp32c5/components/canopen/src/pdo.cpp:197-218 | switching off, writing the words and switching on is accepted as a whole if and only if the words are mappable and fit a frame; then exactly they are in force |
| TwaiTransport.CanonicalIsLeast | canopen-esp32c5/components/canopen_esp32/src/esp_twai_transport.cpp:291-300 | the least CAN-FD length of the list that holds the payload |
| TwaiTransport.WireCarries | canopen-esp32c5/components/canopen_esp32/src/esp_twai_transport.cpp:159-170 | what goes out has the identifier, flags and payload passed to `send`, zeros behind it, and for CAN-FD the least possible length |
| TwaiTransport.Transport.Initialize | canopen-esp32c5/components/canopen_esp32/src/esp_twai_transport.cpp:38-42 | queues every slot once |
| TwaiTransport.Transport.SlotIndex | canopen-esp32c5/components/canopen_esp32/src/esp_twai_transport.cpp:302-310 | the first slot in use with the address, or -1 |
| TwaiTransport.Transport.Send | canopen-esp32c5/components/canopen_esp32/src/esp_twai_transport.cpp:144-185 | which result for which cause, and that an uninterrupted call is five steps of the protocol |
| TwaiTransport.Transport.OnTxDone | canopen-esp32c5/components/canopen_esp32/src/esp_twai_transport.cpp:219-238 | a completion is the step of its slot, counts a stray frame, or puts back a slot that is not in flight |
| TwaiTransport.CompletedAgainBreaks | canopen-esp32c5/components/canopen_esp32/src/esp_twai_transport.cpp:219-238 | a completion of a slot that is not in flight always breaks the accounts, and with room in the queue the slot is in two places |
| TwaiTransport.GiveBackSucceeds | canopen-esp32c5/components/canopen_esp32/src/esp_twai_transport.cpp:174-236 | the queue sends whose results are ignored never fail |
| TwaiTransport.NextKeepsInv | canopen-esp32c5/components/canopen_esp32/src/esp_twai_transport.cpp:144-238 | each step of any sender or interrupt keeps every slot in exactly one place and every accepted frame intact |
| TwaiTransport.SlotsPartition | canopen-esp32c5/components/canopen_esp32/src/esp_twai_transport.cpp:38-236 | free, held and in-flight slots partition the slots in use and their numbers add up |
| TwaiTransport.AcquireFailsExactly | canopen-esp32c5/components/canopen_esp32/src/esp_twai_transport.cpp:155-157 | a sender is turned away exactly when every slot is held or in flight |
| TwaiTransport.InFlightUntouched | canopen-esp32c5/components/canopen_esp32/src/esp_twai_transport.cpp:159-170 | no step but its own completion rewrites a slot in flight |
| TwaiTransport.SendsWhatWasAccepted | canopen-esp32c5/components/canopen_esp32/src/esp_twai_transport.cpp:144-238 | in every interleaving the controller completes exactly accepted frames, each at most once and as passed to `send`, padded; the statistics add up |
| TwaiTransport.StatisticsExactly | canopen-esp32c5/components/canopen_esp32/src/esp_twai_transport.cpp:144-238 | over every run, frames are counted as sent exactly when their completion reports success, and as failed when it does not, when the controller refused them, or when no slot knows them |
| Heartbeat.ProcessHeartbeat | canopen-esp32c5/components/canopen/src/node.cpp:65-77 | the catch-up loop is the step function of the schedule |
| Heartbeat.BeatOnGrid | canopen-esp32c5/components/canopen/src/node.cpp:65-77 | one call moves the deadline from the grid point after the previous call to the one after this call |
| Heartbeat.HeartbeatGrid | canopen-esp32c5/components/canopen/src/node.cpp:56-122 | for all nondecreasing call times the deadline is start plus a multiple of the period, in (now, now + period]; at most one heartbeat per call; with gaps of at most a period exactly floor((now - start)/period) |
| Node.NodeHeartbeatGrid | canopen-esp32c5/components/canopen/src/node.cpp:37-122 | for a node that enters a state and then runs through any frames and periodic calls that neither restart it nor change its period: the deadline is the first point after the last call of the grid of that moment; with calls at least once per period, floor((now - start)/period) heartbeats are attempted; none with period zero |
| NodeInPlace.CanOpenNode.Start | canopen-esp32c5/components/canopen/src/node.cpp:25-35 | boots only with a valid number over a frozen dictionary, once |
| NodeInPlace.CanOpenNode.HandleNmt | canopen-esp32c5/components/canopen/src/node.cpp:80-122 | commands for this node or all nodes, and what each does |
| NodeCommands.CommandsByNumber | canopen-esp32c5/components/canopen/src/node.cpp:80-122 | the NMT commands by number and target, and that everything else leaves the node alone |
| NodeInPlace.CanOpenNode.ResetCommunication | canopen-esp32c5/components/canopen/src/node.cpp:105-112 | transfer, parameters, caches and schedule are reset |
| NodeInPlace.CanOpenNode.Handle | canopen-esp32c5/components/canopen/src/node.cpp:37-54 | the order of services, the effect of each on the shared dictionary, and whether the frame was for this node |
| Node.UnconsumedIsIgnored | canopen-esp32c5/components/canopen/src/node.cpp:37-54 | a frame reported as not for this node has changed nothing |
| NodeInPlace.CanOpenNode.HandleSdo | canopen-esp32c5/components/canopen/src/node.cpp:46-48 | an SDO request on a dictionary whose configuration entries the PDO manager guards, with the revision it moves |
| NodeInPlace.CanOpenNode.Process | canopen-esp32c5/components/canopen/src/node.cpp:56-78 | clock entry, SDO timeout, PDO timers and heartbeat in one periodic call |
| Node.SdoFrameIsWrite | canopen-esp32c5/components/canopen/src/node.cpp:46-48 | an SDO request acts on the PDO manager like the one write it completes, or not at all |
| Node.ApplyKeepsInv | canopen-esp32c5/components/canopen/src/node.cpp:37-78 | every frame and every periodic call keeps the mappings safe, the caches coherent and the transfer consistent, hence every run does |
| Node.NmtGates | canopen-esp32c5/components/canopen/src/node.cpp:37-54 | a stopped node ignores all but NMT; before operational only SDO changes the dictionary; receive PDOs never change the configuration |
| NodeCommands.ServicesByState | canopen-esp32c5/components/canopen/src/node.cpp:37-54 | by identifier and length: a stopped node ignores all other frames, a pre-operational one serves SDO requests only, an operational one SDO, SYNC and receive PDOs |
| NodeCommands.PeriodWritten | canopen-esp32c5/components/canopen/src/node.cpp:65-69 | writing the producer heartbeat time sets the period to as many milliseconds |
| NodeCommands.ClockIsShown | canopen-esp32c5/components/canopen/src/node.cpp:61 | the clock variable holds the low 32 bits of the microseconds, on a machine of either byte order |
| SpscRing.AtomicArray.Push | can-fd_hexmotor/components/base/include/atomic_array.hpp:14-37 | an uninterrupted push appends unless capacity - 1 values wait |
| SpscRing.AtomicArray.Pop | can-fd_hexmotor/components/base/include/atomic_array.hpp:39-58 | an uninterrupted pop takes the oldest value |
| SpscRing.NextKeepsInv | can-fd_hexmotor/components/base/include/atomic_array.hpp:14-58 | every atomic load or store of either thread keeps the ring a queue, stale indices included |
| SpscRing.Fifo | can-fd_hexmotor/components/base/include/atomic_array.hpp:14-58 | in every interleaving the popped values are a prefix of the pushed ones and at most capacity - 1 are between |
| SpscRing.SlotsDisjoint | can-fd_hexmotor/components/base/include/atomic_array.hpp:31-52 | the slot about to be written is never the slot about to be read |
| SpscRing.RefusedExactly | can-fd_hexmotor/components/base/include/atomic_array.hpp:21-49 | a push fails exactly if the ring was full when the tail was loaded, a pop exactly if it was empty when the head was loaded |
| SpscRing.SizeBetween | can-fd_hexmotor/components/base/include/atomic_array.hpp:74-86 | `size` stays below the capacity whatever happens between its loads, and is exact if and only if the pops have not overtaken the loaded head |
| Hexfellow.Controller.RpdoMapMotor | can-fd_hexmotor/components/hardware/motor/hexfellow_motor_controller.cpp:113-172 | the downloads are: off, the mapping of this motor word by word, its count |
| Hexfellow.Controller.BuildRpdoFrame | can-fd_hexmotor/components/hardware/motor/hexfellow_motor_controller.cpp:347-377 | one CAN-FD frame with the targets of all motors one after the other, zeros behind |
| Hexfellow.LayoutAgrees | can-fd_hexmotor/components/hardware/motor/hexfellow_motor_controller.cpp:113-377 | under its mapping each motor finds in the common frame, in the right objects, exactly its own targets as it decodes them: torque limit and velocity, or the five quantised fields; the mapping covers the frame to the last byte, with at most two entries per motor (16 entries and 64 bytes for 8 motors) |
| Hexfellow.ReceivedIsWritten | can-fd_hexmotor/components/hardware/motor/hexfellow_motor_controller.cpp:113-172 | the pieces of that statement are what a receiving PDO manager writes |
| Hexfellow.MotorAcceptsMapping | can-fd_hexmotor/components/hardware/motor/hexfellow_motor_controller.cpp:113-172 | a motor with the mapped objects and this PDO manager accepts the download and then uses exactly this mapping |
| MitPacking.QuantiseFits | can-fd_hexmotor/components/hardware/motor/hexfellow_motor_controller.cpp:464-470 | every target, in range or not, fits its field |
| MitPacking.QuantiseMonotone | can-fd_hexmotor/components/hardware/motor/hexfellow_motor_controller.cpp:464-470 | quantisation is monotone |
| MitPacking.QuantisationError | can-fd_hexmotor/components/hardware/motor/hexfellow_motor_controller.cpp:464-470 | the field stands for a value below the clamped target by less than span/(2^bits - 1) |
| MitPacking.FieldsApart | can-fd_hexmotor/components/hardware/motor/hexfellow_motor_controller.cpp:447-448 | the five fields do not overlap in the two words |
| MitPacking.MitRoundTrip | can-fd_hexmotor/components/hardware/motor/hexfellow_motor_controller.cpp:433-452 | all five fields are recovered from the eight bytes |
| MitPacking.MitAccuracy | can-fd_hexmotor/components/hardware/motor/hexfellow_motor_controller.cpp:433-470 | from target to recovered value, the error of all five fields |
| Buttons.ButtonService.AddButton | gpio_button_project/components/button/src/gpio_button_service.cpp:37-57 | which buttons are accepted, exactly |
| Buttons.ButtonService.Examine | gpio_button_project/components/button/src/gpio_button_service.cpp:204-240 | one slot of the worker pass: new state, event and sleep |
| Buttons.ButtonService.ProcessButtons | gpio_button_project/components/button/src/gpio_button_service.cpp:199-244 | one pass over all buttons: states, events queued in order while there is room and counted otherwise, and the sleep |
| Buttons.OneEventPerPress | gpio_button_project/components/button/src/gpio_button_service.cpp:199-244 | for every run of edges and passes with wrapping ticks: each accepted press yields exactly one event, long press or click, before its release, and nothing else does |
| Buttons.NothingEarly | gpio_button_project/components/button/src/gpio_button_service.cpp:206-240 | a level is only accepted when the debounce time has passed by the wrapping tick difference, so for edges not stamped after the tick that the pass has read; a long press is only reported after the long-press time, and which of the two events comes |
| Buttons.SettledExactly | gpio_button_project/components/button/src/gpio_button_service.cpp:206-222 | in real time: a pass takes an edge into account if and only if the debounce time is over or the edge was stamped after the pass had read the clock |
| Buttons.TakenAtOnce | gpio_button_project/components/button/src/gpio_button_service.cpp:190-222 | an input for the latter: the first contact of a bounce becomes a press at once |
| Buttons.ElapsedIsTime | gpio_button_project/components/button/src/gpio_button_service.cpp:208 | the wrapping subtraction measures time up to a full turn of the counter |
| Buttons.TicksMeaning | gpio_button_project/components/button/src/gpio_button_service.cpp:11-14 | a time in milliseconds is taken in whole ticks, rounded down, but at least one |
| Buttons.EventsMatchReleases | gpio_button_project/components/button/src/gpio_button_service.cpp:199-244 | counted: as many events as accepted releases, plus one while a reported press lasts |
| ButtonEvents.ToldExactly | gpio_button_project/components/button/src/gpio_button_service.cpp:143-254 | over every run of the service, as long as no event is dropped, what the application has taken and what still waits are, for each button and in order, exactly the events of that button alone, with its pin, their kinds and the times of the passes in milliseconds |
| ButtonEvents.OneMessagePerPress | gpio_button_project/components/button/src/gpio_button_service.cpp:143-254 | from a fresh service the messages of a button have the kinds of its events, one for each accepted press that has been reported or released |
| Buttons.WaitIsFirst | gpio_button_project/components/button/src/gpio_button_service.cpp:199-244 | the sleep is at least one tick, is the first deadline of any button, and is infinite if and only if nothing is pending |
| Buttons.WokenForReason | gpio_button_project/components/button/src/gpio_button_service.cpp:199-244 | an uninterrupted sleep ends with something to settle or report |
| ButtonRuns.HeldLine | gpio_button_project/components/button/src/gpio_button_service.cpp:199-244 | on a line held pressed from an edge on, earlier edges still settling or not, with every sleep ending when asked: no mark before the debounce time is over, the press from then on, the long press when the long-press time after that is over, nothing else; until then each sleep ends at the next of the two |
| ButtonRuns.ReleasedLine | gpio_button_project/components/button/src/gpio_button_service.cpp:199-244 | letting go of an accepted press for good, earlier edges still settling or not, yields its release when the debounce time is over, with a click before it unless the long press had been reported, however close its deadline was |
| ButtonRuns.BurstSettlesNothing | gpio_button_project/components/button/src/gpio_button_service.cpp:206-240 | for any burst of edges and passes at any levels, each pass inside the debounce time of the edge before it and fewer than 2^32 edges open: nothing is accepted and the last edge stays unsettled; a long press comes of it if and only if one is owed and a pass reads the line as pressed after its time |
| ButtonRuns.BouncingPress | gpio_button_project/components/button/src/gpio_button_service.cpp:199-244 | such a burst and then the line held pressed: exactly one press, one debounce time after the last edge, and its long press in time |
| ButtonRuns.BouncingRelease | gpio_button_project/components/button/src/gpio_button_service.cpp:206-240 | such a burst and then the line released: one release, one debounce time after the last edge, with a click before it, or the long press in place of the click if and only if a pass reads the bouncing line as pressed when that is overdue |
| ButtonRuns.BounceIgnored | gpio_button_project/components/button/src/gpio_button_service.cpp:206-240 | a burst on a released button after which the line stands as before yields nothing, however late the passes |
| ButtonRuns.LetGoInTime | gpio_button_project/components/button/src/gpio_button_service.cpp:228-235 | an input for the long press in place of the click: let go before the deadline, read as pressed at it |
| Lifecycle.AppModule.Initialize | esp_idf_template/components/app/include/app_module.hpp:15-32 | the three-state machine, hook by hook |
| Lifecycle.AppModule.Deinitialize | esp_idf_template/components/app/include/app_module.hpp:34-43 | likewise for the cleanup |
| Lifecycle.AppManager.RegisterModule | esp_idf_template/components/app/src/app_manager.cpp:5-26 | who is refused and why, in order; otherwise appended |
| Lifecycle.AppManager.InitializeAll | esp_idf_template/components/app/src/app_manager.cpp:28-60 | forward loop and rollback, as the recursive specification |
| Lifecycle.AppManager.DeinitializeAll | esp_idf_template/components/app/src/app_manager.cpp:62-78 | backward loop, skipping stopped modules |
| Lifecycle.StackDiscipline | esp_idf_template/components/app/src/app_manager.cpp:5-78 | for every history of registrations of stopped modules, bring-ups and tear-downs with any hook answers: configuring means all stopped, running all initialised, faulted one uncleaned module with initialised ones below and stopped ones above; hooks nest last in, first out |
| Lifecycle.StatusTellsPhase | esp_idf_template/components/app/src/app_manager.cpp:28-78 | what each result says about the modules |
| Lifecycle.RegisteredExactly | esp_idf_template/components/app/src/app_manager.cpp:5-26 | a registration succeeds exactly while configuring, for a module, with room, under a new name; which refusal comes first |
| Lifecycle.NamesStayDistinct | esp_idf_template/components/app/src/app_manager.cpp:5-26 | over every history no name is registered twice |
| Lifecycle.RegisterKeepsInvExactly | esp_idf_template/components/app/src/app_manager.cpp:5-26 | registration keeps the invariant if and only if it is refused or the module comes stopped |
| Lifecycle.InitialisedBeforeRegistration | esp_idf_template/components/app/src/app_manager.cpp:5-26 | a module registered while initialised leaves the manager configuring with a module up |

## Left out

- HxLink.ClientTx: the transmit half and the receive half of a client are two classes, and one client is modelled; clients share nothing but counters in this path.
- HxLink.ClientRx.ReceiveClient: what handling a packet does is a parameter that accepts or refuses it; authentication and the packet sink are not modelled.
- SpscRing.Next: atomic steps are sequentially consistent; the weaker orders of the code and torn copies of large items are not modelled.
- SpscRing.AtomicArray.Pop: reads the slot before it knows that there is a value, so that an item can be returned in either case.
- TwaiTransport.Next: filling a slot is one step; it happens while its sender alone owns the slot. In the runs the driver completes each accepted frame once. Stopping and restarting the transport, bus-off recovery and the receive queue are not modelled.
- PdoInPlace.PdoManager.Process: time is unbounded, so the subtraction of 64-bit microseconds never wraps.
- PdoTiming.EveryNthSync: runs with writes to the configuration or resets are covered from one of these to the next.
- PdoSafety.ApplyKeepsInv: the configuration revision is unbounded; after 2^32 accepted changes the real counter repeats.
- NodeInPlace.CanOpenNode.Process: clock and heartbeat period are reached through the dictionary where the source uses the variables behind the entries.
- NodeInPlace.CanOpenNode.HandleSdo: hooks are functions, so the revision moves after the request instead of inside its hook, by the same condition; nothing reads it in between.
- Node.Handle: heartbeats and boot messages are counted when attempted; their frames and the emergency producer are not modelled.
- MitPacking.MitRoundTrip: targets and ranges are real numbers, so floating-point rounding is not modelled; a range must not be empty, which the source does not check.
- Hexfellow.Controller.BuildRpdoFrame: covers the frame builder; start-up over the blocking SDO client, TPDO decoding and multi-turn counting are not modelled.
- Hexfellow.MotorAcceptsMapping: the firmware of the motors is not part of this repository; the statement is about a motor that uses this repository's PDO manager.
- Buttons.ButtonService.ProcessButtons: an interrupt falls before or after a pass looks at a button, not in the middle of it; the level is read once per pass, as the code does on each path; starting and stopping the service and its worker are not modelled.
- Lifecycle.AppManager.InitializeAll: modules are used by one manager; the periodic processing of running modules would only add an easy member.
- The access-point and Bluetooth sides of the link, discovery, the CAN gateway, the device profile with its node-number storage, the SDO client and all drivers, screens, sensors and audio are not modelled.
