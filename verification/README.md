# A verified model of the firmware codec, the timer machine and the tools around them

This project models, in Dafny, the parts of the repository where a mistake is
silent: the code that packs, frames, seals and re-reads a firmware file; the
clock that decides on which instruction an emulated interrupt lands; the search
that decides which bytes of an image may be patched; and the small devices
(eDMA, eMMC, front panel) whose state survives between instructions. Nothing in
it was executed; its results are proved for all inputs, except the few lemmas
that exhibit a counterexample.

## How it is organised

* **Codec.** `LzLayout` is the byte layout in which control bits and payload
  bytes share one stream; `LzFormat` gives the token language and its meaning;
  `LzDecoder` is the decoder with its 9-bit sentinel register as a class;
  `LzTheorems` shows that the decoder accepts exactly the token streams.
  `Aplib` is the literal-only writer, `ShadowDecoder` the second decoder with a
  counted bit reader. `EightInSeven`, `Sysex`, `Checksums`, `Container`,
  `SectionStore`, `Authcode` and `Rebuild` are the layers above, and
  `FirmwareRoundTrip` composes them. `LzCodes`, `SysexLayout` and
  `ContainerLayout` say what stands at which bit, byte and offset, and
  `Replacements` what becomes of each replacement asked for. SHA-256 and
  HMAC-SHA256 (RFC 2104, section 2) are parameters: any functions with 32-byte
  results.
* **Timers.** `Machine` is memory, status register, exception frames and the
  interrupt controllers. `Timers` and `Ssi` describe one step and one service of
  each source; `TimerDevices` and `SsiDevice` are the objects, proved against
  those descriptions. `Spin` and `SpinLoop` are the scheduler loop over an
  arbitrary deterministic guest. `SpinTheorems`, `NoDrift`, `EventNoDrift`,
  `Nesting`, `BoundaryNesting` and `SsiTheorems` hold the results about whole runs;
  `Deadlines` says when the scheduler stops, and `Interrupts` what the registers,
  at their addresses, decide about rates and ticks.
* **Cave finder.** `RangeRegex`, `CaveCandidates`, `CaveExclusions`.
* **Devices.** `Edma`, `Esdhc` with `EsdhcDevice`, `EsdhcTheorems` and
  `EsdhcRegisters`, `Panel` with `PanelTheorems`.

Objects whose methods update fields are classes, loops are methods with
invariants, and each method's contract equates its result or new state with a
function of the old one; the lemmas are about those functions.

## What turned out to be conditional

* **Reading a rebuilt file.** A reader gathers what was put in exactly when the
  content checksum does not spell `ELE3` and every section's content survives
  storing (`FirmwareRoundTrip.RebuildReadsBack`). When it does
  spell it, the search for the magic stops four bytes early, at the checksum
  (`FirmwareRoundTrip.MagicFoundAtContainer`).
* **Storing section 4 and section 5.** `classify` recognises a stored section
  exactly when section 4's bytes do not sum to zero modulo 2^32 and section 5
  looks neither like a packed stream nor like a header with a zero sum
  (`SectionStore.StoredClassifies`). A section it mistakes comes back only if it
  looks packed and is a token stream of its own content
  (`SectionStore.StoredComesBack`); an empty section 4 is the smallest content
  that is lost (`SectionStore.EmptyUpdaterIsLost`).
* **Cave exclusion.** The documentation says any unbounded hit rejects a
  candidate. The code looks only at the nearest hit before it. The two differ
  exactly when nothing overlaps or lies in the candidate, the nearest hit before
  it is bounded and a farther one is not; the code then keeps what the rule
  rejects (`CaveExclusions.RuleAgainstDocumentation`), as on the image of
  `FartherHitIsIgnored`. The branches that trim a candidate cannot be taken: the
  overlap check comes first.
* **ARM_STEP.** The comment at emu/dtim.py:93-98 says a recorded register write
  shortens the following step. `deadline` forgets every such write before the
  step is chosen, so it does so only while the source is held
  (`SpinTheorems.ArmShortensOnlyHeld`). The model follows the code.
* **DTIM3's rate.** The comment at emu/dtim.py:40-44 takes the reference 0x43238 for
  274,488 and the tick for 30.05 Hz. The word is 275,000, and by the code's own
  formula the tick is just below 30 Hz (`Interrupts.FirmwareRates`).

## Model

| member | source | states |
|---|---|---|
| LzLayout.AssembledLength | dt2/aplib.py:111-125 | the writer spends one tag byte per eight control bits and keeps every payload byte once |
| LzLayout.AssembledLays | dt2/aplib.py:111-125 | reading the written stream bit by bit takes back exactly the events written, payload bytes right after their bit, and ends at the stream's last byte |
| LzLayout.AssembleGroup | dt2/aplib.py:117-124 | one group's tag byte holds its bits most significant first, and its payload bytes follow in order |
| LzLayout.Assemble | dt2/aplib.py:111-125 | the loop over groups writes the whole event list in this layout |
| LzTheorems.ReadsGamma | dt2/elz.py:47-54 | the reader takes back any gamma code the overflow check lets through, and leaves the rest of the stream as it was |
| LzTheorems.UnreadsGamma | dt2/elz.py:47-54 | whatever gamma value is read, the bits consumed were exactly that value's code |
| LzTheorems.EndCodes | dt2/elz.py:47-73 | under the overflow bound a fresh code ends the stream exactly when gamma is 2^24+2, 2^25+2 or 3*2^24+2 and the byte is 0xFF |
| LzTheorems.NoMarkerWithoutWrap | dt2/elz.py:66-73 | in unbounded arithmetic no fresh code is the marker; every marker has wrapped past 2^32 |
| LzTheorems.FreshOffsetNotZero | dt2/elz.py:70-74 | a fresh offset is zero only for the marker, so a match never copies from offset zero |
| LzTheorems.ZeroOffsetNeverMet | dt2/elz.py:57-82 | on no input does any turn of the decoder meet offset zero: that half of its check never fires, and a bad offset always means one that reaches before the output |
| LzTheorems.ReadsToken | dt2/elz.py:61-78 | one turn of the loop takes back any encodable token: literal, fresh or reuse match, short or gamma length |
| LzTheorems.UnreadsStep | dt2/elz.py:61-78 | whatever one turn reads, the bytes consumed were that token's serialisation, or the marker's |
| LzTheorems.DecodesStream | dt2/elz.py:57-82 | any laid-out token stream decodes to its overlap-copy meaning, errors included, and to the position just past its marker |
| LzTheorems.SuccessIsStream | dt2/elz.py:57-82 | every successful decode had a well-formed token stream in front of it |
| LzTheorems.DepackedIff | dt2/elz.py:57-82 | decoding succeeds with an output and position if and only if the bytes up to that position are a token stream with that meaning |
| LzTheorems.DepackedIsLocal | dt2/elz.py:32-82 | a successful result is unchanged by a larger end or by any byte outside the ones consumed |
| LzCodes.ReuseMeansLastFresh | dt2/elz.py:66-74 | a match leaves its offset for the next reuse code: over any literals and reuses in between, a reuse decodes to what the last fresh code would in its place |
| LzCodes.ReuseAfterLiterals | dt2/elz.py:66-74 | in particular a fresh match, literals and a reuse decode as the same list with the fresh code written again |
| LzCodes.FirstReuseRepeats | dt2/elz.py:57-82 | a reuse before any fresh match copies from offset one and repeats the last byte |
| LzCodes.LengthCodesExact | dt2/elz.py:75-82 | every copy length has exactly one length code, three bytes being the least past offset 3328 and two below |
| LzCodes.OffsetCodesExact | dt2/elz.py:66-74 | every offset up to 2^32 - 767 has exactly one code that has not wrapped, and it is neither a reuse nor the marker |
| LzCodes.TagByteBits | dt2/elz.py:39-45 | a tag byte gives its bits most significant first |
| LzCodes.LiteralBits | dt2/elz.py:61-65 | a one bit is a literal, the next byte |
| LzCodes.ReuseBits | dt2/elz.py:66-78 | bits 0, 01 and a length pair are a reuse without an offset byte |
| LzCodes.FreshBits | dt2/elz.py:66-78 | bits 0, 11 and a length pair are a fresh match, its offset one more than the next byte |
| LzCodes.LongBits | dt2/elz.py:75-76 | a length pair of zero bits puts the length in a gamma code |
| LzDecoder.Bits.constructor | dt2/elz.py:28-30 | a fresh register holds no bits |
| LzDecoder.Bits.Byte | dt2/elz.py:32-37 | a byte read moves one place, or fails at the end or past the data |
| LzDecoder.Bits.Bit | dt2/elz.py:39-45 | the 9-bit register with its sentinel returns the bits of each tag byte in order, refilling exactly when they run out |
| LzDecoder.Bits.GammaCode | dt2/elz.py:47-54 | the gamma loop, its overflow check and its termination |
| LzDecoder.CopyBack | dt2/elz.py:80-81 | the byte-by-byte copy repeats the last `off` bytes periodically when source and output overlap |
| LzDecoder.Turn | dt2/elz.py:61-78 | one turn of the decoder on the register is one step of the format |
| LzDecoder.Depack | dt2/elz.py:57-82 | the decoder terminates on every input (eight times the bytes left plus the bits held decreases) and computes the format's meaning or its error |
| Aplib.GammaBits | dt2/aplib.py:76-89 | the written bits are the value's binary digits below the leading one, each with a stop bit; values below two are refused |
| Aplib.OpenedIsOpenGamma | dt2/aplib.py:76-89 | those bits, as events, are the gamma code of the format |
| Aplib.AppendGamma | dt2/aplib.py:103-107 | the terminator's gamma code carries its byte on the last bit |
| Aplib.Events | dt2/aplib.py:98-108 | the writer emits one literal per byte and then the marker |
| Aplib.Pack | dt2/aplib.py:128-132 | the packed stream is the assembled event list |
| Aplib.PackSection | dt2/aplib.py:135-142 | the section is its packed length, its byte sum modulo 2^32 and the packed stream, or an error when the length does not fit |
| Aplib.DepackSection | dt2/elz.py:85-95 | a section decodes only if the marker lands exactly on its declared end |
| Aplib.PackRoundTrip | dt2/aplib.py:98-132 | a packed stream met anywhere in a buffer decodes to the data and stops at its own end |
| Aplib.SectionRoundTrip | dt2/aplib.py:135-142 | decoding a packed section returns the data, for every byte string whose packed length fits |
| Aplib.SectionIff | dt2/elz.py:85-95 | a section decodes to an output if and only if its body is one token stream that ends on the declared length |
| Aplib.PackedLength | dt2/aplib.py:128-132 | the packed length of n bytes is n + 1 + ceil((n + 49) / 8) |
| ShadowDecoder.CountedReader.Bit | dt2/aplib.py:158-172 | the counted bit reader returns the same bits as the sentinel register |
| ShadowDecoder.ShadowDecode | dt2/aplib.py:145-193 | the second decoder computes the literal-only reading or its error |
| ShadowDecoder.ShadowAgrees | dt2/aplib.py:145-193 | whatever the second decoder accepts, the first decodes to the same bytes |
| ShadowDecoder.ShadowRoundTrip | dt2/aplib.py:128-193 | the second decoder returns the data that was packed |
| EightInSeven.Encode | dt2/build.py:49-63 | the loop writes a marker of high bits and the low bits of each group of seven |
| EightInSeven.Decode | dt2/container.py:36-44 | the reader takes a marker and up to seven bytes at a time |
| EightInSeven.RoundTrip | dt2/build.py:49-63 | decoding an encoding returns the data, every encoded byte is 7-bit, and the length is one more byte per started group of seven |
| SysexLayout.PackedAt | dt2/build.py:49-63 | byte r of a group has its low seven bits r places behind the marker and its high bit at bit 6 - r of the marker |
| Checksums.ComputeContentChecksum | dt2/build.py:66-77 | the word loop computes the running sum it is defined by |
| Checksums.ComputePacketChecksum | dt2/build.py:80-91 | the byte loop computes the running sum it is defined by |
| Checksums.ContentChecksumDetects | dt2/build.py:66-77 | containers of equal length that differ in exactly one complete word have different checksums |
| Checksums.PacketChecksumDetects | dt2/build.py:80-91 | 7-bit messages that differ in exactly one covered byte have different checksums, for every constant |
| Checksums.ContentChecksumIsTotal | dt2/build.py:66-77 | a container whose words are given values under the mask 1, 2, 3 and on has their sum for its checksum |
| Checksums.CountingContainer | dt2/build.py:66-77 | the container whose words count from one has checksum zero |
| Checksums.PacketChecksumIsTotal | dt2/build.py:80-91 | a message whose bytes from the sixth on are given values under the mask k, k+1 and on has k plus their sum modulo 128 for its checksum |
| Sysex.FindStop | dt2/container.py:22-29 | the search finds the first stop byte, or none |
| Sysex.DecodeSyx | dt2/container.py:19-45 | the message walk collects the payload of every 128-byte data message, or reports the malformed one |
| Sysex.PatchFramingCount | dt2/build.py:156-165 | the patched framing message differs from the original in its three count bytes only, which hold the count in base 128 |
| Sysex.PatchedWellFormed | dt2/build.py:156-165 | patching keeps a framing message clean, and patching twice is patching once |
| Sysex.EncodeSyx | dt2/build.py:168-216 | the file is the patched opening, one message per 101 bytes with a running counter, and the patched closing |
| Sysex.ChecksumIsSevenBit | dt2/build.py:88-91 | a packet checksum is a 7-bit byte |
| Sysex.DataMessageParts | dt2/build.py:201-213 | each data message carries its encoded chunk in a body of exactly 126 bytes without a stop byte, all of them 7-bit for a 7-bit device id |
| Sysex.MessagesOfConcat | dt2/container.py:19-45 | a file of well-formed messages splits into exactly those messages |
| Sysex.EncodedMessages | dt2/build.py:168-216 | an encoded file splits into the messages that were written |
| Sysex.SyxRoundTrip | dt2/build.py:168-216 | decoding an encoded stream returns it, padded with zeros to a multiple of 101, for every device byte but the stop byte and framing without a stop byte inside |
| SysexLayout.MessageLayout | dt2/build.py:201-213 | a data message byte by byte: manufacturer, device, its number in base 128 most significant first, the packed chunk, the checksum of bytes 1 to 125, stop |
| SysexLayout.FramingLayout | dt2/build.py:156-165 | the three count bytes of a patched framing message spell the count in base 128, and all before them is kept |
| SysexLayout.EncodedLayout | dt2/build.py:168-216 | the messages of an encoded file: message i + 1 is numbered 242 + i modulo 2^21, carries bytes 101 i on and its checksum, and both framings spell how many data messages there are |
| Container.LayOut | dt2/build.py:131-143 | sections are laid end to end, each but the last padded to sixteen, and the offsets are where they start |
| Container.PackTable | dt2/build.py:145-149 | the table row of each section is its id, offset, size and destination, or an error when a value does not fit |
| Container.BuildContainer | dt2/build.py:108-153 | header, count, table, bodies and the reserved trailer, or the error: a wrong header length or more than six sections |
| Container.FindMagic | dt2/container.py:48-55 | the search returns the first offset the magic is at, or none |
| Container.FindMagicIsFirst | dt2/container.py:48-55 | the magic is found at an offset exactly when it is there and nowhere before |
| Container.ReadSections | dt2/container.py:57-70 | the table loop reads every row, or fails where the container is short |
| Container.SectionsReadBack | dt2/container.py:57-70 | a container that was built reads back the ids, offsets, sizes and destinations it was built from |
| ContainerLayout.SectionsAre | dt2/container.py:57-70 | a reader takes row j from the four words at 32 + 16 j and the row count from the word at 28 |
| ContainerLayout.BuiltLayout | dt2/build.py:108-153 | a built container at its offsets: header, count, the rows of id, offset, size and destination, each section on the next multiple of sixteen from 128 on, and 32 zero bytes |
| SectionStore.Recover | emu/extract.py:61-76 | classifying and decoding a stored section |
| SectionStore.StoredClassifies | emu/extract.py:61-76 | a stored section is taken for what it is if and only if section 4's byte sum is not zero modulo 2^32 and section 5 looks neither packed nor like a header with a zero sum |
| SectionStore.MistakenFor | emu/extract.py:61-76 | a stored section that is not taken for what it is looks packed, or is a section 5 that loses exactly its first eight bytes |
| SectionStore.StoredComesBack | dt2/build.py:94-105 | a stored section comes back unchanged if and only if it is classified rightly or, mistaken for packed, is a token stream of its own content |
| SectionStore.EmptyUpdaterIsLost | dt2/build.py:94-105 | an empty section 4 does not come back: it reads as a packed stream without a marker |
| ContainerLayout.StoredLayout | dt2/build.py:94-105 | a stored section by position: length, byte sum and stream; length, zero and content for section 4; the content alone for section 5 |
| Authcode.SealVerifies | dt2/authcode.py:90-119 | a stream that carries a sealed container behind its length verifies, and sealing changes the trailer only |
| Authcode.CoveredBytes | dt2/authcode.py:90-96 | from 32 bytes on, the covered bytes are all between the preamble and the last 32 of the declared length, and those 32 are the trailer |
| Authcode.SealCovers | dt2/authcode.py:104-111 | a sealed container ends in the code of everything before its trailer |
| Authcode.TamperingDetected | dt2/authcode.py:90-119 | a stream verifies if and only if the code of its covered bytes under the device key is its trailer; so of two streams with one trailer, the first genuine, the second verifies if and only if those codes are equal |
| Authcode.KeyHidesConstant | dt2/authcode.py:81-87 | taking both digests off a device key again, of the string forwards and backwards, leaves the device constant |
| Rebuild.SourceFraming | dt2/build.py:219-233 | the first and last messages of the source, which must be sixteen bytes |
| Rebuild.Restore | dt2/build.py:277-285 | every section's content is its replacement or its decoded old content, stored again, or the first failure |
| Rebuild.RebuildFile | dt2/build.py:236-291 | the whole of rebuild, with the error of the first step that fails |
| Replacements.GatheredIsAsked | dt2/build.py:236-285 | what rebuild gathers is the source header and, for each of its sections in order, the replacement of its id or else what its own bytes decode to |
| Replacements.ReplacementsAreDelivered | dt2/build.py:236-291 | a reader of the new file finds each replacement asked for, and every other section with the content, id and destination it had, whenever the checksum does not spell the magic and every content survives storing |
| FirmwareRoundTrip.MagicFoundAtContainer | dt2/container.py:48-55 | behind a preamble whose length is a multiple of sixteen the magic is found at the container, unless the checksum spells it, and then at the checksum |
| FirmwareRoundTrip.GatheredShape | dt2/build.py:236-276 | what rebuild gathers always has clean framing, a known device and a header that begins with the magic |
| FirmwareRoundTrip.RebuiltVerifies | dt2/authcode.py:90-119 | the file rebuild writes decodes; its preamble gives the length and checksum of the sealed container, and verification finds and computes the same trailer |
| FirmwareRoundTrip.RebuiltTrailer | dt2/authcode.py:81-119 | in the decoded new file the last 32 bytes of the declared length are the code of all bytes between them and the preamble |
| FirmwareRoundTrip.EmittedReadsBack | dt2/build.py:236-291 | reading an emitted file gives back header, device, ids, destinations and contents if and only if the checksum does not spell the magic and every content survives storing |
| FirmwareRoundTrip.CountedEmitsSame | dt2/build.py:156-165 | emitting an image whose framing already counts its messages changes nothing |
| FirmwareRoundTrip.RebuildReadsBack | dt2/build.py:236-291 | end to end: whatever rebuild succeeds on, the new file reads back as what was put in under exactly those conditions, and rebuilding it then changes nothing |
| Machine.IplOfEntry | emu/harness.py:431-434 | after exception entry the interrupt mask is the level taken |
| Machine.Cpu.RaiseVector | emu/harness.py:382-436 | an interrupt with a handler pushes format, vector, status and program counter and enters it; without one nothing changes |
| Machine.EnterReturn | emu/harness.py:345-436 | a frame still in memory returns to exactly the interrupted state |
| Interrupts.EntryIs | emu/harness.py:382-436 | a handler starts at its table entry with the supervisor bit set, the mask at its level and the other status bits kept, above format 4, vector, status and program counter in eight bytes, no other byte changed |
| TimerDevices.TimerSource.constructor | emu/pit.py:189-202 | a fresh source has no deadline and no counts |
| TimerDevices.TimerSource.OnWrite | emu/dtim.py:140-144 | a guest write to a watched DMA timer is recorded |
| TimerDevices.TimerSource.Deadline | emu/dtim.py:233-258 | the deadline loop arms running channels, disarms stopped ones, forgets recorded writes and returns the earliest deadline |
| TimerDevices.TimerSource.Step | emu/dtim.py:260-273 | the step is the ceiling of the distance to the deadline, at least one, with the idle, recorded-write and budget caps |
| TimerDevices.TimerSource.DeliverTick | emu/dtim.py:286-303 | a due tick sets the event bit, then is missed under the mask, taken, or dropped without a handler |
| TimerDevices.TimerSource.ServeChannel | emu/dtim.py:279-307 | one channel: off, not armed, not due, or due with its deadline moved on and a backlog dropped |
| Interrupts.PitRate | emu/pit.py:223-229 | a PIT runs while enable and interrupt bits are set, a period of two to the prescaler plus one times the modulus plus one cycles of a 132 MHz bus |
| Interrupts.DtimRate | emu/dtim.py:198-213 | a DMA timer runs under its enable, interrupt and clock bits, a period of prescaler plus one times reference plus one cycles, sixteen times that for clock field 10 |
| Interrupts.FirmwareRates | emu/dtim.py:198-213 | the rates the firmware programs: DTIM3 with 0x43238 between 29.99 and 30 Hz, PIT0 with 0x053F and 0xA121 exactly 50 Hz |
| Interrupts.PitTick | emu/pit.py:305-329 | a due PIT tick is missed if bit 13 + ch of the mask word at 0xFC05000C is set or the level at 0xFC05004D + ch is not above the mask, and otherwise taken at that level if it has a handler |
| Interrupts.DtimTick | emu/dtim.py:279-307 | likewise a DMA timer by bit ch of 0xFC048008 and byte 0xFC048060 + ch; its event bit is set whatever becomes of the tick |
| Deadlines.VisitCases | emu/pit.py:305-329 | a visit case by case: off forgets, fresh starts a period ahead, waiting waits, due moves one period on or, if that is past too, a period from now |
| Deadlines.HeldIsInert | emu/dtim.py:233-311 | a held source has no deadline and no tick |
| TimerDevices.TimerSource.Service | emu/pit.py:292-329 | the service loop visits the channels in order, each seeing the machine the one before left |
| TimerDevices.TimerSet.Step | emu/dtim.py:359-360 | every source steps and the least step wins |
| Deadlines.StepWithinBudget | emu/dtim.py:260-273 | a step is at least one instruction and never more than the budget |
| TimerDevices.TimerSet.Service | emu/dtim.py:362-364 | the sources are served in construction order |
| SpinTheorems.RunToReaches | emu/longrun.py:893-947 | a run that nothing stops reaches its target, however many turns that takes |
| SpinLoop.StepWorld | emu/longrun.py:901-908 | the step is the least over the timers and the asynchronous events |
| SpinLoop.ApplyRun | emu/longrun.py:911-925 | what the guest's run wrote reaches every source's hooks in order |
| Deadlines.HooksInOrder | emu/longrun.py:911-925 | the hooks of a run reach the serial interface in the order they fired |
| SpinLoop.ServeWorld | emu/longrun.py:930-934 | the clock moves, the events are served, then the timers |
| SpinLoop.TakeTurn | emu/longrun.py:893-939 | one turn of the loop: a stop credits no instructions, a step that completes credits all it ran |
| SpinLoop.SpinFor | emu/longrun.py:827-947 | the loop resumes from the timers' clock and ends exactly where the run to its target ends |
| SpinTheorems.RunToCompose | emu/longrun.py:849-855 | a run to one target and on to a later one visits the boundaries of a run to the later one |
| SpinTheorems.Overshoot | emu/longrun.py:849-855 | the last step starts before the target, so a call overshoots by less than that step |
| SpinTheorems.ArmShortensOnlyHeld | emu/dtim.py:233-273 | recorded writes shorten a step only while the source is held |
| SpinTheorems.TurnKeepsClock | emu/longrun.py:931-931 | after every turn each source's clock is the boundary's clock |
| SpinTheorems.CheckpointedSame | emu/dtim.py:343-411 | saving the timers and restoring them gives the same timers |
| SpinTheorems.CallsAreOneCall | emu/longrun.py:893-947 | successive calls with any budgets end where one call with some budget ends, after visiting the same boundaries |
| SpinTheorems.SavingChangesNothing | emu/dtim.py:343-411 | saving and restoring the timers between calls changes no boundary visited and no end |
| SpinTheorems.BudgetSplitInvariance | emu/longrun.py:844-855 | however a budget is split, with or without saving and restoring the timers in between, the boundaries visited are a prefix of a single call's or extend them |
| NoDrift.PassChannel | emu/dtim.py:279-307 | what a pass does to a channel is what serving it alone does, at the machine state the pass reaches it in |
| NoDrift.StepReaches | emu/pit.py:239-290 | no step goes past the instruction an armed channel is due at, whatever the other channels |
| Deadlines.EveryBoundaryIsADeadline | emu/longrun.py:893-934 | after every step some armed channel or request is due, unless nothing is armed or a held source was just written to |
| NoDrift.TurnServes | emu/longrun.py:893-947 | in one turn of the scheduler each channel is visited once |
| NoDrift.SteadyTurn | emu/longrun.py:893-947 | while its registers give one period, a deadline stays until it falls due, falls due less than one instruction late and moves by exactly one period |
| NoDrift.SteadyTurnOnGrid | emu/pit.py:239-329 | the same, on the grid of instants since arming, with the tick counted once when its handler exists |
| NoDrift.NoDriftFrom | emu/pit.py:239-329 | at every later boundary a channel is as many periods on as ticks have come due, each counted at most once, and exactly once with handlers |
| NoDrift.NoDrift | emu/dtim.py:233-311 | the ticks that have come due since arming are exactly the elapsed time divided by the period, rounded down |
| NoDrift.NoDriftSinceArming | emu/dtim.py:233-311 | the same from the boundary at which a running channel is found not yet armed |
| EventNoDrift.ServiceCadence | emu/ssi.py:195-205 | a service runs a request exactly when one is due and moves the next on by one period |
| EventNoDrift.EventTurn | emu/longrun.py:893-947 | in one turn a request runs exactly once when due, less than one instruction late, and not otherwise |
| EventNoDrift.RequestsDoNotDrift | emu/ssi.py:186-205 | from any boundary with the next request ahead, the requests run are the elapsed time on their grid divided by the period, rounded down |
| Nesting.NestServed | emu/pit.py:305-329 | serving a channel takes at most one interrupt, above every level already taken |
| Nesting.NestingIsBounded | emu/dtim.py:362-364 | in one pass over all timers the levels taken strictly increase above the mask, so at most 7 minus the mask frames are pushed |
| Nesting.ReturnsUnwindThePass | emu/harness.py:345-436 | as many returns as interrupts taken restore program counter, status register and stack pointer, each return needing only the frames still stacked then: handlers may reuse the bytes of frames already popped |
| Nesting.TieIsMissed | emu/pit.py:305-329 | within a source a later channel due at no higher a level is missed and counted so |
| Nesting.TieBetweenSources | emu/dtim.py:314-364 | and so is a channel of a later source |
| Nesting.PassCountsOnce | emu/dtim.py:279-307 | a pass counts a due tick exactly once unless it could be taken and has no handler, and counts nothing else |
| BoundaryNesting.MinorOnly | emu/ssi.py:226-282 | a minor loop changes its own channel's descriptor and nothing else of the guest |
| BoundaryNesting.BoundaryNests | emu/longrun.py:930-934 | at one boundary of the scheduler the serial interface's deliveries and the timers' together push at most 7 minus the mask frames, and as many returns restore program counter, status register and stack pointer, each needing only the frames still stacked then |
| Ssi.CrcContinues | emu/ssi.py:257-260 | continuing a checksum over more bytes is the checksum of the concatenation |
| Ssi.CrcOfOneBit | emu/ssi.py:257-260 | a bit that leaves at the low end puts in the reflected polynomial, whatever the number of places it had to go |
| SsiDevice.SsiDma.Step | emu/ssi.py:186-193 | the step to the next request, which is set if the channels run and none is |
| SsiDevice.SsiDma.Transfer | emu/ssi.py:247-254 | the word loop walks both addresses modulo 2^32 and captures what the transmit side reads |
| SsiDevice.SsiDma.RunMinorLoop | emu/ssi.py:226-282 | one minor loop with its error cases, count, capture and major-loop end |
| SsiDevice.SsiDma.RunRequest | emu/ssi.py:197-202 | a request runs the receive and then the transmit minor loop and moves the cadence on |
| SsiDevice.SsiDma.Service | emu/ssi.py:195-205 | a due request, then both deliveries |
| SsiDevice.SsiDma.DeliverVector170 | emu/ssi.py:284-297 | the transmit interrupt is delivered when asserted, not yet delivered, above the mask and handled |
| SsiDevice.SsiDma.DeliverVector191 | emu/ssi.py:341-355 | the forced interrupt likewise |
| SsiDevice.SsiDma.WriteIntfrch1 | emu/ssi.py:312-321 | the force latch follows bit 31 of the register as written |
| SsiDevice.SsiDma.ReachForceRte | emu/ssi.py:323-339 | the second delivery route judges by the mask saved in the frame |
| Interrupts.TransmitInterrupt | emu/ssi.py:284-297 | vector 170, when owed, is taken exactly if bit 10 of 0xFC04C008 is clear, the level at 0xFC04C06A is above the mask and it has a handler |
| Interrupts.ForcedInterrupt | emu/ssi.py:341-355 | vector 191 by the level at 0xFC04C07F alone |
| Interrupts.ForcedAtReturn | emu/ssi.py:323-339 | on the other route the mask compared is the one in the frame about to be popped |
| SsiTheorems.SerqTable | emu/ssi.py:299-305 | which bytes written to SERQ enable which channels, and that the first one enabled starts the cadence |
| SsiTheorems.CintTable | emu/ssi.py:307-310 | which bytes written to CINT release the transmit latch |
| SsiTheorems.ForceLatch | emu/ssi.py:312-321 | the force latch follows the top bit of the first byte as written or kept, and only a rise owes a delivery |
| SsiTheorems.MinorLatches | emu/ssi.py:226-282 | a minor loop replaces the latch only when it asserts, delivers nothing and counts exactly what it captured |
| SsiTheorems.AllAccounted | emu/ssi.py:226-355 | over every interleaving, deliveries plus what is still owed never exceed assertions plus what was owed |
| SsiTheorems.DeliveredOncePerAssertion | emu/ssi.py:284-355 | vector 170 is delivered at most once per major-loop assertion, vector 191 at most once per rising edge, by whichever route |
| SsiTheorems.TransmitRecord | emu/ssi.py:257-260 | the byte count and checksum are those of the concatenation of all captured bytes |
| SsiTheorems.WalkClosed | emu/ssi.py:247-254 | n steps of an address are one multiplication modulo 2^32 |
| SsiTheorems.TransmitSends | emu/ssi.py:226-262 | byte b of word k a transmit minor loop sends comes from SADDR + k SOFF + b |
| SsiTheorems.GatherReplaces | emu/ssi.py:264-282 | scatter/gather makes the descriptor the 32 bytes its pointer names, and refuses a misaligned one |
| SsiTheorems.MinorAdvances | emu/ssi.py:226-262 | a minor loop that does not finish the major loop advances SADDR and DADDR by a quarter of NBYTES times their offsets and CITER by minus one |
| SsiTheorems.MajorAdjusts | emu/ssi.py:264-282 | one that does also adds the last adjustments, reloads CITER and interrupts exactly when its control bit says so |
| RangeRegex.ByteClass | tools/cavefind.py:444-447 | the class matches exactly the one-byte strings in the interval |
| RangeRegex.Compile | tools/cavefind.py:450-469 | the pattern matches exactly the n-byte strings whose big-endian number is in the interval, through disjoint alternatives; the recursion terminates |
| RangeRegex.CatDenotes | tools/cavefind.py:458-467 | a first byte and a tail interval denote the interval shifted by that byte's weight |
| RangeRegex.Search | tools/cavefind.py:486-487 | the leftmost offset a match starts at, or none |
| RangeRegex.FindBe32InRange | tools/cavefind.py:472-491 | exactly the values in the interval that the image holds at any byte offset, overlapping ones included |
| CaveCandidates.FindRuns | tools/cavefind.py:426-429 | exactly the maximal runs of the fill byte in the window, in order |
| CaveCandidates.FindCandidates | tools/cavefind.py:422-437 | exactly the aligned whole runs of 0x00 or 0xFF that are long enough, each once, sorted by address |
| CaveCandidates.CandidateIsFill | tools/cavefind.py:422-437 | a candidate lies in the window and holds its fill byte only; it is 4-aligned exactly when the load address is |
| CaveCandidates.FillIsInCandidate | tools/cavefind.py:422-437 | every aligned run of fill of the minimum size lies inside a candidate |
| CaveCandidates.CandidatesApart | tools/cavefind.py:422-437 | two candidates never share an address |
| CaveExclusions.CoveringRange | tools/cavefind.py:523-529 | the tightest function range around an address, or none when no range holds it |
| CaveExclusions.ApplyExclusions | tools/cavefind.py:556-628 | the whole candidate or nothing, and the whole one exactly when no function overlaps it, no hit lies in it and the nearest hit before it is bounded |
| CaveExclusions.NotTrimmed | tools/cavefind.py:570-621 | after the overlap check no covering range reaches into the candidate, so neither trimming branch can be taken |
| CaveExclusions.SurvivorIsClean | tools/cavefind.py:556-628 | a kept candidate contains no referenced address and no address of a known function |
| CaveExclusions.RuleAgainstDocumentation | tools/cavefind.py:556-566 | the code keeps all the documented rule keeps, and departs from it if and only if nothing overlaps or lies in the candidate, the nearest hit before it is bounded and a farther one is not |
| CaveExclusions.FartherHitIsIgnored | tools/cavefind.py:585-605 | an image on which an unbounded farther hit does not reject the candidate |
| Edma.ReadsStayInRing | emu/edma.py:123-134 | byte k comes from inside the source ring, for every signed step and modulo |
| Edma.AddressStep | emu/edma.py:128-134 | one step of the inner loop moves from one address of the closed form to the next |
| Edma.TxChannel.Move | emu/edma.py:127-134 | the nested loop reads exactly the bytes of the closed form, and fails only on an address outside 32 bits |
| Edma.TxChannel.Run | emu/edma.py:114-145 | a run outputs those bytes, moves SADDR, reloads CITER and counts; an idle channel moves nothing, and a read outside 32 bits is reported and changes nothing |
| Edma.RingIsInRange | emu/edma.py:123-134 | with a modulo no run fails |
| Edma.RingDelivers | emu/edma.py:114-145 | channel 35 at its registers with a modulo of 2^12 and a step of one: output byte k is the ring byte k places on, wrapping at 4096, and SADDR and CITER follow |
| Edma.EndedClosed | emu/edma.py:135-139 | SADDR ends at the closed form, inside the ring when there is a modulo |
| Edma.TwoRunsAreOne | emu/edma.py:114-145 | with a modulo and no last adjustment, two runs leave what one run of the summed count leaves |
| EsdhcDevice.Card.Command | emu/esdhc.py:184-201 | the response words and what selection and address commands change |
| EsdhcDevice.Card.DataFor | emu/esdhc.py:214-232 | a read block is the image, zero-extended, under the overlay |
| EsdhcDevice.Card.WriteData | emu/esdhc.py:234-240 | a written block goes into the overlay |
| EsdhcDevice.Controller.OnSerq | emu/esdhc.py:452-455 | only a single-channel request for channel 59 arms the controller |
| EsdhcDevice.Controller.DmaOut | emu/esdhc.py:457-496 | the payload fills the destination and the descriptor is completed |
| EsdhcDevice.Controller.Pull | emu/esdhc.py:529-535 | the row loop reads the host buffer, failing where a row leaves the address space |
| EsdhcDevice.Controller.DmaIn | emu/esdhc.py:511-540 | the host buffer is taken, SADDR moves and the descriptor is completed |
| EsdhcDevice.Controller.OnXfertyp | emu/esdhc.py:385-450 | a command answers, moves its data once if armed, disarms, and posts the right semaphores |
| EsdhcTheorems.ReadDelivers | emu/esdhc.py:385-496 | an armed CMD18 fills the buffer with the flat array from the addressed block and changes no other data |
| EsdhcTheorems.IssueOnCard | emu/esdhc.py:385-450 | only an armed CMD25 changes the flat array, by exactly the bytes it took |
| EsdhcTheorems.PulledIsBuffer | emu/esdhc.py:511-540 | those bytes are the guest's buffer as the descriptor lays it out |
| EsdhcTheorems.NoArmNoTransfer | emu/esdhc.py:385-450 | without a fresh arm a command moves no data in either direction |
| EsdhcTheorems.RunRefinesFlat | emu/esdhc.py:214-240 | after any sequence of steps the card is the flat array its stored blocks make of it, and it moved data at most once per arm |
| EsdhcTheorems.EveryReadDelivers | emu/esdhc.py:385-540 | after any sequence an armed CMD18 delivers exactly the last bytes written over the image |
| EsdhcTheorems.CountReloads | emu/esdhc.py:457-540 | CITER reloads from BITER at every transfer, in either direction |
| EsdhcRegisters.FirstReadIsImage | emu/esdhc.py:214-232 | on a card nothing was written to an armed CMD18 delivers the image from byte 512 times the argument on, and zeros past its end |
| EsdhcRegisters.Selection | emu/esdhc.py:184-201 | CMD3 gives the address, CMD7 with that address alone selects, CMD0 deselects |
| EsdhcRegisters.Responses | emu/esdhc.py:184-201 | the response words of the identification sequence, and the ready status of every other command |
| EsdhcRegisters.AnswerInRegisters | emu/esdhc.py:395-403 | a command leaves its response in the four words from 0xFC0CC010, the inhibit bits clear, the completion bits set and the other status bits alone |
| EsdhcRegisters.BusTest | emu/esdhc.py:203-212 | CMD14 reads back the inverse of the last word the host wrote |
| EsdhcRegisters.BufferReady | emu/esdhc.py:404-427 | a read sets the read-ready bits and a write the write-ready bits |
| EsdhcRegisters.PostedIsPositive | emu/esdhc.py:334-360 | a posted semaphore is positive, and one that was is left alone |
| EsdhcRegisters.RowsAt | emu/esdhc.py:529-534 | byte b of row i taken from the host is the byte at the source plus i times the offset plus b |
| EsdhcRegisters.DescriptorAfterOut | emu/esdhc.py:457-496 | a transfer to the host leaves DADDR just past the buffer and the done bit set |
| EsdhcRegisters.DescriptorAfterIn | emu/esdhc.py:511-540 | a transfer from the host leaves SADDR past the rows taken and the last adjustment, and the done bit set |
| Panel.SwitchedBits | emu/panelin.py:222-230 | a press or release changes one bit of its channel's mask |
| Panel.SwitchedValue | emu/panelin.py:222-230 | as a number the mask gains or loses exactly the value of the bit, and only if the button was not already so |
| Panel.OthersStay | emu/panelin.py:222-230 | switching one button makes its bit what was asked and leaves the other seven as they were |
| Panel.PressSends | emu/panelin.py:73-97 | the code of a linear place, pressed or released, sends tag and channel in one byte and the whole switched mask in the other |
| Panel.Held.Change | emu/panelin.py:222-238 | a press or release updates the mask and returns the message to send, or nothing for a code the product lacks |
| Panel.Held.DropAll | emu/panelin.py:258-268 | letting go sends a zero for each channel that is down, in order, and forgets all |
| Panel.Emulator.DrainInput | emu/gui.py:257-294 | the pass waits out the dwell, drains encoders and at most one button when paced, puts the rest back in order, and sends one byte stream |
| PanelTheorems.PassLosesNothing | emu/gui.py:259-290 | what a pass consumes and leaves is what was queued, in order; paced, it takes at most one button event |
| PanelTheorems.NothingIsLost | emu/gui.py:231-305 | over every history each button event is consumed exactly once and in order, and so each encoder event |
| PanelTheorems.DeliveriesDwell | emu/gui.py:259-263 | two deliveries have at least the dwell count of chunks between them |
| PanelTheorems.PassMakesProgress | emu/gui.py:259-294 | every chunk brings the queue nearer to having no button event |
| PanelTheorems.AllConsumedInTime | emu/gui.py:259-294 | after a dwell and a pass for each queued button event none is left |
| PanelTheorems.ParseEncode | emu/panelin.py:73-97 | the firmware's two-byte parse returns the messages that were encoded |
| PanelTheorems.ReplayGivesHeldMasks | emu/panelin.py:204-268 | the delivered bytes, replayed, are the held masks, releases of everything included |

## Left out

- ShadowDecoder.ShadowAgrees: one direction only, because the second decoder refuses every real match.
- Rebuild.RebuildFile: the checksum override and the paths are left out; files are byte sequences.
- NoDrift.NoDrift: periods are exact rationals, where the original rounds them in floating point.
- NoDrift.NoDriftSinceArming: likewise.
- EventNoDrift.RequestsDoNotDrift: the request period is an exact rational too.
- SpinLoop.SpinFor: only the counted mode with a timer set; the uncounted stepper, the chunk and tick callbacks and the mode without timers are estimates or experiments. The guest's program counter is read from the machine rather than passed in and out.
- SpinLoop.ServeWorld: what a service that raises an error had changed is not specified.
- SpinLoop.TakeTurn: a service that raises an error stops the run as a fault; what was already changed in that service is not specified.
- SpinTheorems.CheckpointedSame: the timers' saved fields; the list of stopped stale channels, reading a checkpoint file and its validation errors are not modelled, nor are the serial interface's own checkpoints.
- Machine.Cpu.RaiseVector: the path without the status-register trampoline, for asynchronous interrupts; traps raised from an instruction and faults are left out.
- Machine.EnterReturn: stack addresses do not wrap at 2^32 in the model.
- Memory is a map whose unmapped bytes read as zero; page mapping and the errors of unmapped host accesses are left out, except addresses outside 32 bits in Edma and Esdhc.
- TimerDevices.TimerSource.Step: one class serves for both timer kinds; a deadline that is not a number does not exist in the model.
- TimerDevices.TimerSet.Step: as the scheduler calls it, without a remaining budget.
- SsiDevice.SsiDma.Step: as the scheduler calls it, without a remaining budget.
- SsiDevice.SsiDma.RunMinorLoop: a transfer that fails half way reports the fault; what it had changed is not specified.
- SsiDevice.SsiDma.RunRequest: likewise after a fault.
- SsiDevice.SsiDma.Service: likewise after a fault.
- SsiDevice.SsiDma.ForceWasTaken: the effect on the guest of a forced delivery inside its own run is part of that run.
- Edma.TwoRunsAreOne: needs a source modulo; without one the walk may leave the address space where the second run would start again inside it. Delivery of the completion interrupt is left out.
- EsdhcDevice.Controller.DmaOut: a destination past the address space is reported; what had been written by then is not specified.
- EsdhcDevice.Controller.OnXfertyp: the state after such a fault is not specified; the card's extended register block is a parameter, and the self-clearing bits of the system control register are left out.
- Panel.Emulator.DrainInput: the product is known; an encoder turn outside a signed byte, which the original refuses, is excluded by type; the receive ring behind the feed is left out.
- PanelTheorems.ReplayGivesHeldMasks: assumes every feed works; a feed that fails loses what it carried, as the code does.
- CaveExclusions.ApplyExclusions: the evidence strings are left out; the database is a list of ranges and references.
- The boot map, cache report, runtime confirmation and ranking of the cave finder, and everything that runs the guest: foreign code or tables of one image.
- SHA-256, HMAC and zlib internals: abstract functions, except the CRC-32 whose continuation law is proved.
- Software floating point, symbol scanning, disassembly, the widgets, command lines and file access.
