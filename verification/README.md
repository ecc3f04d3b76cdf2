# Formal model of an RFID reader base station

The repository is a software-radio RFID reader and the CRC tool it carries along. This project models
three parts of it and proves that they do what they are for.

## What is modelled

**Checksums.** `pycrc` computes a cyclic redundancy check in several ways: bit by bit over a message
with zeros appended, bit by bit directly, from a table, from a file in pieces, and in C code that it
emits. The downlink has a CRC-5 on strings. `Bits` and `Gf2` give numbers as bit strings and as
polynomials over GF(2), with a remainder defined without any algorithm; `CrcModel` says what a checksum
is; `NonDirect`, `TableLaws` and `RegisterLaws` relate the loops to it; `CrcAlgorithms`, `Pycrc`,
`Downlink`, `EmittedC`, `EmittedNarrow`, `EmittedBitwise`, `EmittedFast` and `TestMain` hold the code;
`CrcTheorems` the laws of the checksum itself.
Widths, messages and parameters are unbounded. Python's unbounded registers are modelled as they are,
with bits above the width where the code leaves them; C registers have the width of their type.

**The reader.** A controller queues commands for a transmitter and a receive gate and is called back
by the receiving blocks. `Pie` holds the waveforms and an independent receiver (sections 6.3.1.2.3 and
6.3.1.2.8 of the EPCglobal UHF Class-1 Generation-2 standard, version 1.2.0), `PieEncoder` the
transmitter, `ReceiveGate` the gate, `GateEdges` the moments at which it opens, `Controller` and
`Packetizer` those blocks, `Commands` what the commands mean on the air, and `Reader` their composition, in which blocks step in any order and calls may be of any size. The acknowledgement sent
in a round is that of section 6.3.2.11.2.4. Each block is a class whose methods are proved against a
value-level description (a line of pending samples, a machine fed one sample at a time, the guards,
transitions and answers of the controller, a collector of frame bits). `Reader` is a transition system
over values whose steps are those descriptions, taken from the modules of the blocks.

**The macro parser.** The C generator expands templates with a recursive-descent parser that pushes the
values of identifiers back onto its own input. `MacroSyntax` has tokens, symbol table and the measure
by which parsing ends; `MacroParser` the parser; `MacroMeaning` an independent meaning of well-nested
texts; `MacroComparisons` the laws of its comparisons; `MacroLexer` the lexer outside conditions, and
`MacroPrinting` the round trip with a printer.

## What the code does not do

Some promises hold only under a condition; the code is modelled as it is and the exact condition proved.

- Even polynomials: the bit-by-bit form agrees with the others for all messages exactly when the
  polynomial is odd or the initial value is 0 (`NonDirect.AgreementTheorem`). The options code only warns.
- Table index widths below 8: `check_string` sets the option to 8 after building the object, and the
  Python table code is right on all messages exactly with index width 8 (`CrcAlgorithms.TableTheorem`).
- Files: with reflected input `check_file` also reflects `XorIn`, so it agrees with the other forms
  exactly when `XorIn` is a palindrome or input is not reflected (`Pycrc.FileAgreementTheorem`).
- Emitted C, sub-byte index, plain input: the loop is wrong below width 8 for every polynomial
  (`EmittedNarrow.PlainLoopTheorem`), and with an odd one some message comes out wrong
  (`EmittedNarrow.PlainChecksumTheorem`).
- Emitted C89, bit by bit, both forms: the tested bit is kept in an `int`; for registers wider than `int`
  some message comes out wrong unless the polynomial is 0 (`EmittedBitwise.FlagTheorem`,
  `EmittedFast.FastTheorem`). The self-test does not notice (`TestMain.Run`).
- Timed carrier: the fill ends at `output + m` instead of `output + nn + m`
  (`lib/rfidbts_pie_encoder.cc:251-253`). It is right exactly when every timed carrier starts at the
  start of a call (`PieEncoder.MisplacedTheorem`), which the controller's one timed task always does
  (`Reader.NoAssertionFails`).
- Acknowledgement gate: its length allows for two ones in the reply, so it opens before the end of the
  transmission exactly if there are more (`Commands.AckGateTime`).
- The order of the macro language is not transitive on two numbers and a text (`MacroComparisons.MixedOrder`).
- Conditions that hold an operand standing alone, or an expression in parentheses, are in the grammar but
  always fail (`MacroMeaning.ConditionTheorem`).
- Plain text in templates: with every `$` doubled it survives exactly if it holds no block delimiter
  (`MacroLexer.PlainTextTheorem`).

Assumptions: polynomial, initial value and output mask are below `2^W` and `W >= 1`, as the options code
enforces (`python/pycrc/crc_opt.py:221-235`); the C type `crc_t` has at least `W` and at least 8 bits and
`unsigned int` at least 16, both unsigned and wrapping; the packetizer starts between frames, although its constructor does not set
the state (`lib/rfidbts_pick.cc:432-437`); the transmitter's symbol timings leave room for their pulses.

## Model

| member | source | states |
|---|---|---|
| `NonDirect.AgreementTheorem` | python/pycrc/crc_algorithms.py:95-174 | The bit-by-bit and the direct form agree on every message exactly when the polynomial is odd or the initial value is 0, for every width. |
| `NonDirect.AugmentedIsChecksum` | python/pycrc/crc_algorithms.py:125-174 | Under that condition the two forms agree on each message. |
| `NonDirect.EffectiveInit` | python/pycrc/crc_algorithms.py:95-149 | For any polynomial the bit-by-bit form is the direct form from `XorIn` with certain bits flipped, and none are flipped exactly for an odd polynomial or a zero initial value. |
| `NonDirect.ForwardOfNonDirect` | python/pycrc/crc_algorithms.py:95-107 | As many zero bits as backward steps bring the direct initial value back, up to the bits an even polynomial loses. |
| `NonDirect.NonDirectOfForward` | python/pycrc/crc_algorithms.py:95-107 | For an odd polynomial the backward steps also undo the zero bits: with the row above, a two-sided inverse. |
| `NonDirect.NothingLost` | python/pycrc/crc_algorithms.py:95-107 | The backward steps lose nothing exactly when the polynomial is odd or the value is 0. |
| `NonDirect.ShiftInvertible` | python/pycrc/crc_algorithms.py:95-107 | For an odd polynomial, zero bits never bring a non-zero register to zero. |
| `CrcTheorems.ChecksumIsRemainder` | python/pycrc/crc_algorithms.py:154-174 | The direct checksum is the output stage applied to the one remainder of `XorIn * x^(8n) + message * x^W` modulo `x^W + Poly` over GF(2); both directions. |
| `CrcTheorems.AugmentedIsRemainder` | python/pycrc/crc_algorithms.py:125-149 | The register of the bit-by-bit form is the remainder of `NonDirectInit * x^(8n+W) + message * x^W`; both directions. |
| `CrcTheorems.MsgPolyBit` | python/pycrc/crc_algorithms.py:131-138 | The coefficients of the message polynomial are the message bits in the order in which the loops consume them, reflected input included. |
| `CrcTheorems.UndetectedChanges` | python/pycrc/crc_algorithms.py:125-174 | For an odd polynomial two messages of equal length have the same checksum exactly when the modulus divides their difference, whatever initial value, reflection and output mask. |
| `CrcTheorems.BurstDetection` | python/pycrc/crc_algorithms.py:125-174 | For an odd polynomial, different messages of equal length whose differing bits lie within `W` consecutive positions never have the same checksum, in either form. |
| `CrcTheorems.ParameterLaws` | python/pycrc/crc_algorithms.py:125-174 | `XorOut` is added to the result, reflected output is the result in reverse bit order before that, and reflected input is a message whose bytes are in reverse bit order, in both forms. |
| `CrcTheorems.PowerTheorem` | python/pycrc/crc_algorithms.py:154-174 | The modulus divides a power of `x` exactly when the polynomial is 0. |
| `Gf2.RemainderTheorem` | python/pycrc/crc_algorithms.py:154-174 | The shift-and-subtract division yields the unique remainder in the algorithm-free sense. |
| `CrcAlgorithms.Crc.constructor` | python/pycrc/crc_algorithms.py:58-90 | Masks, table size, shift and both initial values as the other methods rely on them; the index width defaults to 8. |
| `CrcAlgorithms.Crc.GetNonDirectInit` | python/pycrc/crc_algorithms.py:95-107 | The loop computes `W` backward zero-input steps. |
| `CrcAlgorithms.Crc.ReflectWord` | python/pycrc/crc_algorithms.py:112-120 | Bit `i` of the result is bit `width - 1 - i` of the argument. |
| `CrcAlgorithms.Crc.BitByBit` | python/pycrc/crc_algorithms.py:125-149 | The value of the augmented form, and the checksum when the polynomial is odd or the initial value 0. |
| `CrcAlgorithms.Crc.BitByBitFast` | python/pycrc/crc_algorithms.py:154-174 | The checksum of every message, for every width and every parameter set, although the register is masked once a byte only. |
| `CrcAlgorithms.Crc.GenTable` | python/pycrc/crc_algorithms.py:179-200 | Entry `i` is the remainder of `i * x^W`, reflected and aligned as the look-up needs it, for every width and index width. |
| `CrcAlgorithms.Crc.TableDriven` | python/pycrc/crc_algorithms.py:205-226 | The loops compute the table form for every index width, exceptions included; with an 8-bit index that is the checksum of every message, narrow widths and reflection included. |
| `CrcAlgorithms.TableFormIsChecksum` | python/pycrc/crc_algorithms.py:205-226 | With 8-bit indexes the table form is the checksum of every message. |
| `CrcAlgorithms.TableTheorem` | python/pycrc/crc_algorithms.py:205-226 | The table form gives the checksum of every message exactly if the index has eight bits, for every parameter set. |
| `CrcAlgorithms.TableRunIsDirect` | python/pycrc/crc_algorithms.py:211-222 | After any part of a message the table register holds the direct register, aligned and in its own direction. |
| `CrcAlgorithms.NarrowTableFails` | python/pycrc/crc_algorithms.py:211-222 | For every parameter set and index width below 8 some message of one byte raises an index error. |
| `CrcAlgorithms.NegativeShiftFails` | python/pycrc/crc_algorithms.py:213-215 | With plain input and an index narrower than the alignment every message but the empty one raises an exception. |
| `TableLaws.LookUp` | python/pycrc/crc_algorithms.py:211-216 | `t` bits at once through a table entry equal `t` single steps. |
| `TableLaws.ShiftedLookUp` | python/pycrc/crc_algorithms.py:87-90 | The same in a register kept left-aligned because the width is below 8. |
| `TableLaws.ReflectedLookUp` | python/pycrc/crc_algorithms.py:217-222 | The same in a reversed register that runs to the right. |
| `TableLaws.RemShifted` | python/pycrc/crc_algorithms.py:87-90 | Division commutes with the alignment shift of register and polynomial. |
| `Pycrc.CheckString` | python/pycrc/pycrc.py:73-115 | The outcome for every selection, string and index width: failure if the table form fails, the common value if all selected algorithms agree, else the complaint; a single algorithm gives its own value, and with an odd polynomial and index width 8 it is always the checksum. |
| `Pycrc.ComparisonTheorem` | python/pycrc/pycrc.py:81-104 | Without an algorithm option, as with all three, three algorithms are run, and they agree on the checksum of every string exactly if the index width is 8 and the polynomial odd or the initial value 0. |
| `Pycrc.CrcFileUpdate` | python/pycrc/pycrc.py:141-157 | Updating a register with a piece of a file is feeding its bits. |
| `Pycrc.CheckFile` | python/pycrc/pycrc.py:162-202 | The result depends on the contents only, not on how they are cut into pieces. |
| `Pycrc.ContentIs` | python/pycrc/pycrc.py:184-195 | Everything up to the first empty read counts, and nothing after it. |
| `Pycrc.FileAgreement` | python/pycrc/pycrc.py:181-202 | For an odd polynomial file and string check agree on a message exactly when the input is not reflected or `XorIn` is its own reflection. |
| `Pycrc.FileAgreementTheorem` | python/pycrc/pycrc.py:181-202 | For any polynomial they agree on all messages exactly under that condition. |
| `Downlink.StringXor` | python/rfidbts_downlink.py:8-15 | Character by character difference of two strings. |
| `Downlink.Make3Crc5` | python/rfidbts_downlink.py:17-30 | Five binary characters that are the remainder register after the string, for every binary string. |
| `Downlink.Crc5IsChecksum` | python/rfidbts_downlink.py:17-30 | On whole bytes this is the checksum of width 5, polynomial 9, initial value 9 without reflection or output mask. |
| `Downlink.SelfCheck` | python/rfidbts_downlink.py:17-30 | A string followed by its own result gives `00000`, for every length. |
| `EmittedC.CrcTable` | python/pycrc/crc_symtable.py:1261-1291 | The printed table holds the remainders the update loop needs. |
| `EmittedC.CrcReflect` | python/pycrc/crc_symtable.py:418-435 | The emitted reflect function reverses the low bits. |
| `EmittedC.CrcInit` | python/pycrc/crc_symtable.py:1239-1253 | The emitted initial value is the held form of `XorIn`. |
| `EmittedC.CrcFinalize` | python/pycrc/crc_symtable.py:242-254 | The emitted final expression applies the output stage to the held register. |
| `EmittedC.ReflectedByte` | python/pycrc/crc_symtable.py:1332-1356 | The reflected loop body, for 1-, 2-, 4- and 8-bit indexes and every width, consumes the eight bits of the byte. |
| `EmittedC.PlainWholeByte` | python/pycrc/crc_symtable.py:1319-1321 | The plain 8-bit-index body consumes the byte, narrow widths included. |
| `EmittedC.PlainByte` | python/pycrc/crc_symtable.py:1322-1326 | The plain sub-byte body runs the chunks of the byte, high end first, without masking in between. |
| `EmittedC.PlainChunksAreDirect` | python/pycrc/crc_symtable.py:1322-1326 | For `W >= 8` the low `W` bits after the chunks are the right register, whatever was left above them. |
| `EmittedNarrow.PlainLateFails` | python/pycrc/crc_symtable.py:1309-1326 | For `W < 8`, an index wider than the alignment and any polynomial but 0, a register and a byte for which the plain sub-byte loop is wrong. |
| `EmittedNarrow.PlainEqualFails` | python/pycrc/crc_symtable.py:1309-1326 | The same for an index as wide as the alignment. |
| `EmittedNarrow.PlainZeroFails` | python/pycrc/crc_symtable.py:1309-1326 | The same for polynomial 0: register 1 and byte 0. |
| `EmittedNarrow.PlainLoopTheorem` | python/pycrc/crc_symtable.py:1309-1326 | For each parameter set by itself: the plain sub-byte loop is right for all registers and bytes exactly from width 8 on. |
| `EmittedNarrow.SecondByte` | python/pycrc/crc_symtable.py:788-816 | What a first byte leaves in an unmasked narrow register is to the second byte what the held register would be. |
| `EmittedNarrow.PlainChecksumTheorem` | python/pycrc/crc_symtable.py:719-840 | With an odd polynomial, plain input and a sub-byte index the emitted functions give the checksum of every message exactly from width 8 on. |
| `EmittedC.CrcUpdate` | python/pycrc/crc_symtable.py:788-816 | The emitted update function feeds the data to the held register where the loops are right, and otherwise does what the plain sub-byte loop does. |
| `EmittedC.CrcOfMessage` | python/pycrc/crc_symtable.py:719-840 | Init, update and finalize give the checksum of the message, or the value of the plain sub-byte loop, for every setting with non-negative shift counts. |
| `EmittedC.CrcOfPieces` | python/pycrc/crc_symtable.py:719-840 | Init, any number of updates and finalize give the checksum of the direct form for the concatenated pieces. |
| `EmittedBitwise.CrcInit` | python/pycrc/crc_symtable.py:572-586 | The emitted loop yields the non-direct initial value. |
| `EmittedBitwise.CrcUpdate` | python/pycrc/crc_symtable.py:589-618 | The emitted update feeds the message to the augmented register, with the polynomial 0 if the tested bit does not fit its variable, although the C type may be wider than the register. |
| `EmittedBitwise.CrcFinalize` | python/pycrc/crc_symtable.py:621-642 | The emitted finalisation appends `W` zero bits, with the same polynomial, and applies the output stage. |
| `EmittedBitwise.FlagTheorem` | python/pycrc/crc_symtable.py:571-642 | Emitted init, update and finalize give the bit-by-bit value of every message exactly when the width does not exceed that of the variable for the tested bit (a `bool` always does, in C89 it is an `int`) or the polynomial is 0. |
| `EmittedFast.LowBitsFirst` | python/pycrc/crc_symtable.py:676-689 | The loop from bit 0 up, over the byte as it is, feeds the reflected byte. |
| `EmittedFast.HighBitsFirst` | python/pycrc/crc_symtable.py:678-689 | The loop from bit 7 down feeds the byte. |
| `EmittedFast.FeedCompose` | python/pycrc/crc_symtable.py:666-692 | Feeding bits in two lots is feeding them in one, also where the tested bit is lost. |
| `EmittedFast.CrcUpdate` | python/pycrc/crc_symtable.py:660-693 | The emitted direct update feeds the message, whether the reflection is known when the code is emitted or at run time. |
| `EmittedFast.CrcFinalize` | python/pycrc/crc_symtable.py:695-707 | The emitted direct finalisation applies the output stage. |
| `EmittedFast.FastTheorem` | python/pycrc/crc_symtable.py:645-707 | The emitted direct functions give the checksum of every message exactly when the tested bit fits its variable or the polynomial is 0. |
| `TestMain.CrcReflect` | python/pycrc/test/main.c:203-219 | The reflect loop of the test program reverses the low bits. |
| `TestMain.CrcVerify` | python/pycrc/test/main.c:169-201 | For widths that are multiples of 8 the verification yields 0 for the checksum belonging to the pre-final register and for no other value; for other widths it yields 0. |
| `TestMain.Residue` | python/pycrc/test/main.c:169-201 | Feeding the remainder itself after a register leaves zero. |
| `TestMain.ResidueLaw` | python/pycrc/test/main.c:169-201 | For widths that are multiples of 8, a message followed by the bytes of its checksum, output stage undone, brings the register to 0, for every message and reflection. |
| `TestMain.Run` | python/pycrc/test/main.c:247-269 | The self-test never complains and yields the value of the emitted functions, also where the tested bit does not fit and that value is wrong. |
| `Pie.FrameSyncRoundTrip` | lib/rfidbts_pie_encoder.cc:73-208 | A receiver that measures RTcal and compares each symbol with RTcal/2 recovers every bit sequence after a frame-sync. |
| `Pie.PreambleRoundTrip` | lib/rfidbts_pie_encoder.cc:73-208 | The same after a preamble, if TRcal is longer than RTcal. |
| `Pie.PivotTheorem` | lib/rfidbts_pie_encoder.cc:73-208 | The pivot rule recovers every bit sequence exactly when a 1 takes longer than a 0. |
| `Pie.FrameShape` | lib/rfidbts_pie_encoder.cc:73-208 | Every frame on the air is a low delimiter of its length and then symbols that each end with a low pulse of `pw` samples, with the durations of data-0, RTcal, in a preamble TRcal, and the bits in order. |
| `Pie.DurationsBits` | lib/rfidbts_pie_encoder.cc:178-208 | The intervals between rising edges of an encoded bit sequence are its symbol durations. |
| `PieEncoder.PieEncoderBlock.constructor` | lib/rfidbts_pie_encoder.cc:60-168 | The pieces filled into the vectors are the symbols, frame-sync and preamble of the standard. |
| `PieEncoder.PieEncoderBlock.BuildInterval` | lib/rfidbts_pie_encoder.cc:76-95 | Sample `k` of a symbol of `n` samples is on exactly if `k < n - pw`. |
| `PieEncoder.PieEncoderBlock.BuildFrame` | lib/rfidbts_pie_encoder.cc:96-167 | The frame-sync and the preamble, filled piece by piece. |
| `PieEncoder.PieEncoderBlock.BitToPie` | lib/rfidbts_pie_encoder.cc:178-208 | The waveform is the concatenation of the symbols, and its computed size is exact. |
| `PieEncoder.PieEncoderBlock.NextTask` | lib/rfidbts_pie_encoder.cc:293-339 | Taking a task starts exactly its waveform or its idle level. |
| `PieEncoder.PieEncoderBlock.TimedTurn` | lib/rfidbts_pie_encoder.cc:248-260 | The timed carrier is right at the start of a call; elsewhere its last sample is not written, or the fill is undefined. |
| `PieEncoder.PieEncoderBlock.GeneralWork` | lib/rfidbts_pie_encoder.cc:211-291 | The call advances the line of task waveforms and idle level, and the buffer holds the samples the line provides if timed carriers start at the start of the call; otherwise some carrier sample stays unwritten or the call is undefined. It terminates. |
| `PieEncoder.CarrierBehindFrame` | lib/rfidbts_pie_encoder.cc:248-260 | A timed carrier queued behind a frame is misplaced in every call that reaches it. |
| `PieEncoder.ReadyIsAligned` | lib/rfidbts_pie_encoder.cc:248-260 | A timed carrier at the very front of the queue is right for buffers of every size. |
| `PieEncoder.MovedAligned` | lib/rfidbts_pie_encoder.cc:211-291 | No turn of the loop moves the places where later carriers start. |
| `PieEncoder.SplitCall` | lib/rfidbts_pie_encoder.cc:211-291 | Two calls in a row do what one call for both sizes does. |
| `PieEncoder.LineTheorem` | lib/rfidbts_pie_encoder.cc:211-339 | What a line provides in any sequence of tasks and calls, with what is pending, is the task waveforms in queue order with only idle level in between. |
| `PieEncoder.RunFollowsLine` | lib/rfidbts_pie_encoder.cc:211-339 | In every run of the block its state follows the line, and the buffers hold what the line provides if no carrier is misplaced. |
| `PieEncoder.RunTheorem` | lib/rfidbts_pie_encoder.cc:211-339 | In every run of the block without a misplaced carrier, for every task list and sequence of call sizes, the buffers written and what is pending together are the task waveforms in queue order with nothing but idle level in between: no sample lost, repeated or reordered. |
| `PieEncoder.IdleTheorem` | lib/rfidbts_pie_encoder.cc:224-247 | Once everything is sent, calls give the off level at first and after TURN_OFF, the on level after TURN_ON, and no samples after any other task. |
| `PieEncoder.MisplacedTheorem` | lib/rfidbts_pie_encoder.cc:248-260 | On buffers that held the off level, a run whose calls are all defined writes what its line provides exactly if no carrier is misplaced. |
| `ReceiveGate.GateBlock.constructor` | lib/rfidbts_receive_gate.cc:45-59 | The gate starts muted with a boot-up delay of 10000 samples. |
| `ReceiveGate.GateBlock.AddTag` | lib/rfidbts_receive_gate.cc:164-173 | A tag stands at the absolute output position. |
| `ReceiveGate.GateBlock.DecodeTask` | lib/rfidbts_receive_gate.cc:183-203 | Each command sets counter, state and tags as the sample-wise machine does. |
| `ReceiveGate.GateBlock.GeneralWork` | lib/rfidbts_receive_gate.cc:66-162 | A call reads and writes exactly what the sample-wise machine does on the samples consumed, whose laws are the edge, time and tag theorems, and stops only for want of input, room or a command. It terminates. |
| `ReceiveGate.FeedAppend` | lib/rfidbts_receive_gate.cc:66-162 | Samples offered in two lots have the effect of one lot. |
| `ReceiveGate.RunTheorem` | lib/rfidbts_receive_gate.cc:66-162 | Any sequence of calls does what feeding the consumed samples one by one does. |
| `ReceiveGate.SplitIndependence` | lib/rfidbts_receive_gate.cc:66-162 | With commands queued in advance, two finished runs on the same stream read the same samples, write the same samples and end in the same state, tags included, however the calls are cut. |
| `ReceiveGate.GateTheorem` | lib/rfidbts_receive_gate.cc:66-203 | In every run commands are executed in order, a gate or ungate is followed by the next command after exactly its number of samples, each tag stands at the sum of earlier opening lengths, and each opening lets through consecutive input samples from where it was executed. |
| `GateEdges.EdgeTheorem` | lib/rfidbts_receive_gate.cc:81-130 | In every run the first command, and the one after each done, is executed at exactly the first sample that ends a dip of at most `off_max` samples of a carrier seen after the 10000 boot samples, or after that done; as long as it is not, there was no such sample. |
| `GateEdges.WorkKeepsEdges` | lib/rfidbts_receive_gate.cc:81-130 | A call keeps that account, also when commands arrive between calls. |
| `GateEdges.OneDip` | lib/rfidbts_receive_gate.cc:100-119 | The last dip before a sample is unique. |
| `ReceiveGate.FaithfulWork` | lib/rfidbts_receive_gate.cc:66-203 | A call keeps that account from any state that has it, also when commands arrive between calls. |
| `ReceiveGate.FaithfulFeed` | lib/rfidbts_receive_gate.cc:66-203 | That account of tags and openings is kept by whatever is offered next. |
| `Controller.ControllerBlock.IssueDownlinkCommand` | lib/rfidbts_controller.cc:18-25 | Under its guard it makes the transition that the transition system of the reader takes for it, and queues the query for both blocks. |
| `Controller.ControllerBlock.SetupQueryAckRepBurst` | lib/rfidbts_controller.cc:167-177 | The query burst: carrier, preamble, query bits, carrier on; gate, ungate, done. |
| `Commands.QueryIsValid` | lib/rfidbts_controller.cc:78-87 | The 22 bits are a Query command, field by field, whose last five bits are the CRC-5 that the downlink computes of the first 17. |
| `Commands.QueryGateTime` | lib/rfidbts_controller.cc:174 | The gate stays closed for the preamble and query without the delimiter, in microseconds, and ten more. |
| `Commands.AckGateTime` | lib/rfidbts_controller.cc:186 | The gate of the acknowledgement opens before its end exactly if the reply has more than two ones. |
| `Commands.AnswersFit` | lib/rfidbts_controller.cc:167-263 | In both phases opening, samples cut out, symbols and bits fit into each other. |
| `Commands.PhaseNumbers` | lib/rfidbts_controller.cc:167-263 | The numbers of both phases. |
| `Controller.ControllerBlock.SetupAckBurst` | lib/rfidbts_controller.cc:179-189 | The acknowledgement burst: frame-sync, `0, 1` and the received bits, carrier on; gate, ungate, done. |
| `Controller.ControllerBlock.PreambleSearch` | lib/rfidbts_controller.cc:191-221 | Under its assertion it makes the transition, and gives the answer, that the transition system of the reader takes for it, in both phases. |
| `Controller.ControllerBlock.SymbolSynch` | lib/rfidbts_controller.cc:223-242 | The same, with the number of symbols that the system then emits. |
| `Controller.ControllerBlock.StartBitDecode` | lib/rfidbts_controller.cc:244-263 | Where the message lies in the bits of a frame. |
| `Controller.ControllerBlock.DecodedMessage` | lib/rfidbts_controller.cc:265-294 | The first message is acknowledged with exactly its bits, the second only reported. |
| `Controller.SymbolsMatchBits` | lib/rfidbts_controller.cc:223-263 | In both phases the symbols asked for are twice offset plus message length. |
| `Packetizer.CollectSplit` | lib/rfidbts_pick.cc:439-488 | Bits may be delivered in any portions. |
| `Packetizer.PacketizerBlock.StartFrame` | lib/rfidbts_pick.cc:451-459 | A frame starts by asking the controller where its message lies. |
| `Packetizer.PacketizerBlock.SkipBits` | lib/rfidbts_pick.cc:460-468 | Exactly the bits before the offset are skipped. |
| `Packetizer.PacketizerBlock.CollectBits` | lib/rfidbts_pick.cc:469-483 | The packet holds the message bits so far, and the complete message is handed over. |
| `Packetizer.PacketizerBlock.Work` | lib/rfidbts_pick.cc:439-488 | All bits are used; each complete frame reports exactly its bits from offset 9 and leaves the block between frames; the controller queues the acknowledgement of a first message. |
| `Reader.RunInvariant` | lib/rfidbts_controller.cc:18-294 | The invariants of the round, of the transmitter and of the gate hold in every state of every run, for any interleaving of block steps. |
| `Reader.GateOpens` | lib/rfidbts_receive_gate.cc:66-203 | Every opening that leaves the queue of the gate has its tag in the output, and the gate keeps its account while commands arrive. |
| `Reader.SendCall` | lib/rfidbts_pie_encoder.cc:211-291 | A call of the transmitter extends its own run and cannot misplace a carrier. |
| `Reader.EnabledIsSafe` | lib/rfidbts_controller.cc:191-294 | In a state of the invariant no step that can be taken fails an ordering assertion or misplaces a carrier. |
| `Reader.NoAssertionFails` | lib/rfidbts_controller.cc:191-294 | Along every run the ordering assertions of the four callbacks never fail and no carrier is misplaced. |
| `Reader.RoundTheorem` | lib/rfidbts_controller.cc:18-189 | In every run callbacks come in the strict order, the tasks ever queued are a prefix of query then acknowledgement of the reply, at most two openings are queued, and the gate executes its commands in order and accounts for every sample. |
| `Reader.StartedOnce` | lib/rfidbts_controller.cc:18-25 | The start guard holds at most once in a run. |
| `Reader.RoundPortion` | lib/rfidbts_pick.cc:439-488 | A portion of bits that ends inside a frame keeps the account of the frame. |
| `Reader.RoundMessage` | lib/rfidbts_elg_timing_cc.cc:257-270 | The bits decoded from the symbols asked for complete the frame with no bit left over. |
| `Reader.EndToEnd` | lib/rfidbts_controller.cc:123-189 | In every run that reaches the acknowledgement the buffers written by the transmitter are the query and then, after a frame-sync, the encoding of `0, 1` and exactly the 16 bits cut at offset 9; a receiver gets the bits of both frames back. |
| `MacroSyntax.ExpansionIsLighter` | python/pycrc/crc_parser.py:178-190 | Pushing the value of an identifier back onto the input decreases the measure that ends the parse. |
| `MacroSyntax.WeightBound` | python/pycrc/crc_parser.py:178-190 | The measure of a value does not depend on symbols it cannot mention. |
| `MacroParser.MacroParserBlock.Parse` | python/pycrc/crc_parser.py:128-137 | A whole input is parsed to its value or refused, and anything left over is an error. |
| `MacroParser.MacroParserBlock.ReadData` | python/pycrc/crc_parser.py:143-160 | The loop with push-back terminates on every token stream and does what the parse function says. |
| `MacroParser.MacroParserBlock.ReadIdentifier` | python/pycrc/crc_parser.py:178-190 | An identifier is looked up, and replaced on the input by its value only when output is on. |
| `MacroParser.MacroParserBlock.ReadIf` | python/pycrc/crc_parser.py:195-217 | Output is on for a later branch only if no earlier condition held. |
| `MacroParser.MacroParserBlock.ReadConditional` | python/pycrc/crc_parser.py:223-257 | Condition in parentheses, then a block that is written if output is on and the condition holds. |
| `MacroParser.MacroParserBlock.ReadBlock` | python/pycrc/crc_parser.py:263-280 | A block is delimited on both sides. |
| `MacroParser.MacroParserBlock.ReadOr` | python/pycrc/crc_parser.py:285-304 | A disjunction, up to the first token that does not continue it. |
| `MacroParser.MacroParserBlock.ReadAnd` | python/pycrc/crc_parser.py:309-328 | A conjunction, up to the first token that does not continue it. |
| `MacroParser.MacroParserBlock.ReadComparison` | python/pycrc/crc_parser.py:333-372 | A comparison of two texts, read as `ParseComparison` does, whose laws are the next rows. |
| `MacroComparisons.NumberLaw` | python/pycrc/crc_parser.py:352-372 | Two numbers are compared as numbers, by each of the six operators. |
| `MacroComparisons.TextLaw` | python/pycrc/crc_parser.py:352-372 | Anything else is compared as text: equal exactly if the same, less exactly if before it in the dictionary. |
| `MacroComparisons.OperatorLaws` | python/pycrc/crc_parser.py:358-372 | Equality is reflexive, the operators are negations and combinations of each other, and exactly one of less, equal and greater holds. |
| `MacroComparisons.OrderLaw` | python/pycrc/crc_parser.py:358-372 | Less is transitive unless exactly two of the three sides are numbers. |
| `MacroComparisons.MixedOrder` | python/pycrc/crc_parser.py:352-372 | With two numbers and a text it is not: 10, 1x, 9. |
| `MacroComparisons.SymbolLaw` | python/pycrc/crc_parser.py:377-390 | A symbol is compared by its value, an undefined one as the text `Undefined`. |
| `MacroComparisons.NumeralsAreNumbers` | python/pycrc/crc_parser.py:410-425 | Decimal numerals with or without sign and hexadecimal ones in either case are read as their numbers, before a final line feed too. |
| `MacroComparisons.NumberShape` | python/pycrc/crc_parser.py:74-76 | A text is a number exactly if it has that form. |
| `MacroParser.MacroParserBlock.ReadTerm` | python/pycrc/crc_parser.py:377-405 | The value of a term, an undefined symbol reading as `Undefined`. |
| `MacroMeaning.MutedData` | python/pycrc/crc_parser.py:143-280 | Whatever the input, parsing with output off writes nothing and expands nothing, at any nesting depth. |
| `MacroMeaning.OrRead` | python/pycrc/crc_parser.py:285-372 | A disjunction of conjunctions is read to its truth value if it consists of known comparisons, and refused otherwise. |
| `MacroMeaning.Chosen` | python/pycrc/crc_parser.py:195-217 | The first branch whose condition holds. |
| `MacroMeaning.BranchesRead` | python/pycrc/crc_parser.py:195-217 | Of the later branches of a chain exactly the first true one is written, else the `$else` branch; the chain fails exactly if one of its conditions or blocks is not accepted. |
| `MacroMeaning.ChainRead` | python/pycrc/crc_parser.py:195-217 | A chain writes its first true branch, else its `$else` branch, and nothing of the others. |
| `MacroMeaning.TextRead` | python/pycrc/crc_parser.py:143-280 | A well-nested text in front of any input writes what it stands for and leaves that input to be parsed, or fails exactly if it is not accepted, whether written or passed over. |
| `MacroMeaning.MeaningTheorem` | python/pycrc/crc_parser.py:128-280 | Every well-nested text parses to the end, push-back included, exactly if its symbols are known, and defined where written, and its conditions consist of known comparisons; the output is then its meaning. |
| `MacroMeaning.MisnestedFails` | python/pycrc/crc_parser.py:128-137 | A closing delimiter too many, or an opening one that is not closed, is always an error. |
| `MacroMeaning.ConditionTheorem` | python/pycrc/crc_parser.py:92-105 | A condition is read to its truth value exactly when it consists of comparisons whose sides are constants or known symbols; operands standing alone and expressions in parentheses inside, which the grammar allows, are always refused. |
| `MacroLexer.TextLexer.ParseGibberish` | python/pycrc/crc_lexer.py:183-235 | The next token of a text, as the token stream of the next rows has it. |
| `MacroPrinting.NameLexed` | python/pycrc/crc_lexer.py:81-193 | An identifier is a letter and then all letters, digits, `_` and `-` that follow. |
| `MacroPrinting.PieceLexed` | python/pycrc/crc_lexer.py:216-235 | A text piece reaches up to the next `$` or delimiter. |
| `MacroPrinting.DelimiterLexed` | python/pycrc/crc_lexer.py:113-206 | Each delimiter is one token, and swallows a line feed behind it unless that ends the text. |
| `MacroPrinting.DollarLexed` | python/pycrc/crc_lexer.py:206-209 | A doubled `$` is the text `$`. |
| `MacroPrinting.LoneDollar` | python/pycrc/crc_lexer.py:211-231 | A `$` that starts neither a name nor a doubled one is an unknown token, unless it is the last character. |
| `MacroPrinting.RoundTrip` | python/pycrc/crc_lexer.py:183-235 | A list of pieces, identifiers and delimiters that is printed as a macro text is lexed back to itself. |
| `MacroLexer.TextLexer.Peek` | python/pycrc/crc_lexer.py:102-108 | Looking at the next token does not change the tokens to come. |
| `MacroLexer.TextLexer.Advance` | python/pycrc/crc_lexer.py:113-120 | Taking it drops exactly that token, and a line feed after a delimiter. |
| `MacroLexer.TextLexer.Prepend` | python/pycrc/crc_lexer.py:147-151 | The tokens to come are those of the longer text. |
| `MacroLexer.CutIsFirstSpecial` | python/pycrc/crc_lexer.py:216-227 | The least of the three searches is the first special character. |
| `MacroLexer.DoubledLexes` | python/pycrc/crc_lexer.py:183-235 | A text with every `$` doubled lexes to its own characters, block delimiters excepted. |
| `MacroLexer.BlocksTheorem` | python/pycrc/crc_parser.py:263-280 | Pieces and delimiters are parsed to the end exactly if the delimiters match, and then only the pieces are written. |
| `MacroLexer.PlainTextTheorem` | python/pycrc/crc_parser.py:143-173 | A text with every `$` doubled parses back to itself exactly when it holds no block delimiter. |

## Left out

- Signal processing (preamble correlation, symbol timing, orthogonal decoding): reduced in `Reader` to what each block takes, hands on, and calls; its floating-point decisions are free choices of a run.
- The rest of `lib/rfidbts_pick.cc`: peak picking is a comparison of floats, and the mux bounds a copy by the whole input rather than by what remains.
- Sample magnitudes: whether a sample of the gate is above, below or at the threshold is given with the sample.
- GNU Radio scheduling, tag objects and message memory: plain sequences, queues and positions.
- Setup functions the controller never calls (`setup_ack_rep`, `setup_end_query_rep`, `setup_end_ack`, `setup_end`).
- The classes and the steps of `Reader` share their descriptions but not one heap: `Reader` has no objects.
- Emitted C table generation (`crc_table_gen`): the loops of `gen_table`.
- Plain sub-byte loops whose shift count would be negative (alignment larger than the index): undefined in C, outside `EmittedNarrow`.
- `crc_finalize` of the emitted table code: `EmittedC.CrcFinalize` models the inlined final expression, which lacks only a mask without effect on values below `2^W`.
- White space: the parser's stripping of spaces around conditional blocks is taken to have happened in the token stream; the line feed after a delimiter is modelled in `MacroLexer`.
- Lexing inside conditions: `MacroParser` works on tokens there, and a symbol's value is a sequence of complete tokens.
- Option parsing, file access, messages, printing and the text of the C templates.
- Pycrc.CheckFile: pieces are what successive reads deliver; opening and reading the file is not modelled.
- MacroMeaning.MeaningTheorem: white space that the parser strips around conditional blocks is not in its texts, and symbol values name symbols of lower rank only, since others need not terminate.
- EmittedNarrow.PlainChecksumTheorem: whole messages for odd polynomials only, since with an even one no message reaches some of the registers; `EmittedNarrow.PlainLoopTheorem` covers the loop for every polynomial.
- ReceiveGate.SplitIndependence: speaks of commands queued in advance; with commands arriving during the run `Reader.RoundTheorem` gives the account of samples instead.
- Packetizer.PacketizerBlock.Work: a call may not bring bits beyond the frame the controller is ready for, where the code would fail its assertion; `Reader.NoAssertionFails` shows that it never does.
