# Hi3521 driver models

Dafny models of the parts of a Hi3521 kernel driver collection that hold real state, a protocol or
arithmetic, with proofs of what they keep and where they fall short. `dafny verify dfyconfig.toml`
checks everything.

Each part has a model on values, about which the properties are proved, and where the driver works
in place a class or methods proved to perform exactly the modelled steps.

| files | what they model |
|---|---|
| `CipherRing`, `CipherTasks`, `CipherDriver` | the descriptor ring of a cipher channel: submission, engine, interrupt; key, IV and callback bookkeeping over whole runs; the driver over its arrays |
| `CipherLayout`, `CipherHandles` | where descriptor lists lie in memory; who owns a channel |
| `Crc32`, `Arc4`, `Wep` | the FCS-32 table and its error-detection bound; the cipher; WEP encapsulation in place |
| `EdidBlocks`, `EdidParser` | the CEA-861 data block parser of an EDID extension |
| `HdmiTx`, `HdmiTxDriver` | hot plug, receiver sense, HDCP and muting of the HDMI transmitter |
| `ClientWds`, `ClientWdsMap`, `ClientWdsPool` | the client-WDS proxy table: lists on values, the finite map they implement, the linked lists |
| `I2cWire`, `GpioI2c` | what is heard on an I2C bus; the GPIO driver that drives it |
| `IrQueue`, `IrDevice` | the infrared key ring and the grammar of its events; the driver over its buffer |
| `RalinkPower`, `RalinkTables`, `FilterCalibration` | rounding, interpolation and packed power offsets of the RT5390; the rt30xx filter calibration |
| `Common`, `Arithmetic` | shared datatypes and quotient facts |

Standards: section 8.2.1 of IEEE 802.11-2007 (WEP), Appendix C.3 of RFC 1662 (FCS-32), section 7.5
of CEA-861-D (EDID data blocks), sections 3.1.3 to 3.1.5 of NXP UM10204 (I2C).

## What the code does not do

Where the code falls short of what it is meant to do, or of its own comments, the model follows the
code, and the members named exhibit the failure or say exactly when the code is right:

- The ring's room test reads IBUF_CNT only, so a 129th unacknowledged task is accepted and its slot
  is invalidated by an earlier completion (`CipherRing.StartSafeIff`, `RoomTestInsufficient`).
- Callbacks receive the newest argument, and direction, algorithm, key source and key are registers
  of the channel, so a queued task can be overtaken (`CipherTasks.OwnArgumentIff`,
  `ArgumentOvertaken`, `QueueMatchesIff`, `DirectionOvertaken`, `SettingsOvertaken`).
- A creation whose handle cannot be copied to the user loses a channel for good
  (`CipherHandles.ConsistentIff`, `LostForGood`).
- A lookup of an entry with an invalid Aid reports nothing, so the next update duplicates the
  address (`ClientWdsMap.RunUniqueIff`, `StaleDuplicates`), and an entry old enough for the tick count to wrap
  counts as fresh again (`ClientWds.AgedIffElapsed`).
- The EDID parser has no bound on its descriptor arrays: well-formed blocks with more than twenty
  video or ten audio descriptors are written beyond them (`EdidBlocks.EscapesIff`,
  `TwentyTwoEscape`).
- A short vendor block of another vendor keeps it on the same block for ever
  (`EdidBlocks.NeverEndsIff`, `ForeignVendorLoops`).
- The filter calibration returns with loopback on when the adapter disappears between its tests
  (`FilterCalibration.Adapter.Calibrate`).
- The pin writes of the transmitter's hardware reset are commented out (sil9022/sil9024.c:321-330),
  so a mode setting finds the registers as they were: HDCP goes on running in the chip while the
  driver has it as not started (`HdmiTx.KeptRegistersIff`, `ModeSettingForgetsHdcp`).
- A refused DDC request does not restore the control register, although the comment says so
  (`HdmiTxDriver.Transmitter.RequestDdc`); going straight to extended protection never unmutes
  (`HdmiTx.UnmutedIff`); with bad HDCP keys a powered receiver leaves every interrupt masked
  (`HdmiTx.PowerUpListensIff`).
- The acknowledge routine's comment has its results the wrong way round, and the stop routine
  always clocks one more bit (`GpioI2c.Bus.ReceiveAck`, `StopBit`).
- An infrared ring that fills looks empty (`IrQueue.LooksEmptyIff`, `OverflowHides`), beyond that it
  returns newer events first (`IrQueue.ReadReturns`, `RunTakesOldestIff`), and after a
  reset the first event is compared with a stale slot (`IrQueue.StaleReleaseIff`,
  `StaleReceiveIff`).
- `Rounding` returns 0 for quotients in (-1, -1/2] (`RalinkPower.RoundedIff`), and the desired TSSI
  is truncated to a CHAR before its range check (`RalinkPower.DesiredIff`, `DesiredTruncates`).

HDCP is compiled out by default (sil9022/sil9024.h:40); `HdmiTx` models the build with it on. A DDC
bus that could not be released makes register 0x1A read as all ones, as a comment in the driver
says (sil9022/sil9024.c:482-483), and the model includes that.

## How hardware and environment enter

- Cipher counters: a write to IBUF_CNT or OBUF_CNT adds, to IEMPTY_CNT or OFULL_CNT subtracts
  (cipher/src/drv_cipher.c:368, 495-497); the engine moves one unit from IBUF to IEMPTY and from
  OBUF to OFULL per descriptor. Runs are interleavings of submissions, engine steps and interrupts.
- HDMI: a poll's inputs are the status byte, the readings while the cable bounces, the register
  images during the DDC handshake, what the EDID said, and three reads of the HDCP query register,
  all arbitrary, except that the bouncing ends. Registers are records of the fields their disjoint masks select
  (sil9022/sil9024.h:401-409, 818-836, 897-929). What the registers
  hold once the chip has been started is a parameter of every initialisation: the reset values, or
  what they held before.
- I2C: a trace of (SCL, SDA) after every register write; a released SDA carries a level chosen by
  the slave after each fall of SCL; while the driver drives SDA the wire is its value. The bus is
  idle before the first call.
- Infrared: interrupts, timer expiries, settings and single reads in any order.
- Filter calibration: arbitrary streams of readings, and of answers to whether the adapter is gone.
- Clocks are parameters; tick counters wrap at 32 bits where the code compares them.

## Model

| member | source | states |
|---|---|---|
| `CipherRing.RunKeepsInv` | cipher/src/drv_cipher.c:279-380 | For every interleaving of submissions, refused ones included, engine steps and interrupts in which no task is accepted on top of 128 unacknowledged ones, nothing faults and the invariant holds: IBUF_CNT+OFULL_CNT is submitted minus acknowledged, OBUF_CNT+OFULL_CNT stays 128, both ring pointers are those counts modulo 128, the engine meets the descriptors in submission order, and every completed slot belongs to this channel |
| `CipherRing.RunSafeIff` | cipher/src/drv_cipher.c:279-518 | A run is safe throughout, that is, at no point can engine steps and interrupts alone make an interrupt read an invalidated slot, exactly when it never accepts a task on top of 128 unacknowledged ones |
| `CipherRing.StepKeepsInv` | cipher/src/drv_cipher.c:440-518 | Each single step keeps the counter, ownership and queue invariants, by which the slots of the tasks not yet consumed hold source, destination, both lengths and both end-of-list bits; only an accepted submission needs the 128 bound, a refused one changes nothing |
| `CipherRing.AcceptedEntries` | cipher/src/drv_cipher.c:305-368 | An accepted task's slot holds its source, destination and length in both entries, end-of-list in both, its soft channel and its argument; every other slot and the completion counters are as they were |
| `CipherRing.AcceptsIff` | cipher/src/drv_cipher.c:305 | A submission is accepted exactly while fewer than 128 accepted tasks await the engine; a refused one leaves channel, registers and history as they were |
| `CipherRing.FreshInv` | cipher/src/drv_cipher.c:127-155 | The state the channel initialisation leaves satisfies the invariant with an empty history |
| `CipherRing.DrainOwn` | cipher/src/drv_cipher.c:470-494 | Draining finished slots yields this channel for each of them, in ring order, invalidates exactly those slots and no others |
| `CipherRing.DrainInvalid` | cipher/src/drv_cipher.c:476-479 | A drain that comes across an invalidated slot reads a channel number outside the table |
| `CipherRing.StartSafeIff` | cipher/src/drv_cipher.c:305 | Accepting a task is safe exactly while fewer than 128 tasks are unacknowledged, which is not what the room test on IBUF_CNT checks |
| `CipherRing.OverrunFaults` | cipher/src/drv_cipher.c:305-380 | A task accepted on top of 128 unacknowledged ones leads to an interrupt that reads an invalidated slot |
| `CipherRing.RoomTestInsufficient` | cipher/src/drv_cipher.c:305 | The driver's own test admits that task: fill the ring, let the engine finish one, submit another |
| `CipherRing.RunConcat` | cipher/src/drv_cipher.c:279-518 | A run is the composition of its parts, faults included |
| `CipherRing.EnginesRun` | cipher/src/drv_cipher.c:366-368 | n engine steps move n units from IBUF to IEMPTY and from OBUF to OFULL, advance the hardware pointer by n, and touch neither the channel nor the soft channel |
| `CipherTasks.FlagsTrack` | cipher/src/drv_cipher.c:212-234 | Over every run of a configured channel the IV-change flag is set exactly while an IV renewal awaits its first accepted task, and the stored key and IV are the latest given |
| `CipherTasks.AcceptedTaskCarries` | cipher/src/drv_cipher.c:305-368 | An accepted descriptor carries the IV flag, and the latest IV in its buffer, exactly when it is the first since the last renewal; at the doorbell the key registers hold the latest user key unless it comes from the key ladder |
| `CipherTasks.RefusedTaskKeepsPending` | cipher/src/drv_cipher.c:373-380 | A refused task changes neither ring nor registers, and whatever it renewed stays pending |
| `CipherTasks.ConfiguredChannel` | cipher/src/drv_cipher.c:212-234 | Configuring an initialised channel establishes everything the run theorems start from |
| `CipherTasks.OwnArgumentIff` | cipher/src/drv_cipher.c:479-485 | The callbacks of one interrupt all receive the newest argument: every task gets its own exactly when all tasks being completed were submitted with that argument |
| `CipherTasks.ArgumentOvertaken` | cipher/src/drv_cipher.c:479-485 | Of two tasks with different arguments the first, finished alone, is called back with the second one's |
| `CipherTasks.OneCallbackEach` | cipher/src/cipher_intf.c:87-94 | Under the ioctl layer's rule that the argument is the soft channel id, every acknowledged task has had exactly one callback, with that id |
| `CipherTasks.QueueMatchesIff` | cipher/src/hal_cipher.c:539-605 | Direction, algorithm, key source and key belong to the channel, not to a task: a step leaves every queued task the settings it was submitted under exactly when it is steady: nothing is queued, or a configuration finds the channel encrypting with the algorithm and key source it asks for, or an accepted task brings the direction, algorithm, key source and key that the registers hold already |
| `CipherTasks.SteadyKeepsMode` | cipher/src/hal_cipher.c:539-605 | With tasks queued that guard, read off the event and the registers before it, holds exactly of the events that leave direction, algorithm, key source and key of the channel alone |
| `CipherTasks.RunMatchesIff` | cipher/src/drv_cipher.c:346-348 | No queued task loses its settings at any point of a run exactly when every event of the run is steady |
| `CipherTasks.SteadyRunModes` | cipher/src/drv_cipher.c:346-348 | In a steady run every task the engine consumed ran under its own direction, algorithm, key source and key |
| `CipherTasks.DirectionOvertaken` | cipher/src/drv_cipher.c:346-348 | A decryption queued behind an encryption makes the engine run the first task in the second one's direction |
| `CipherTasks.SettingsOvertaken` | cipher/src/hal_cipher.c:569-590 | A second configuration with a task queued makes the engine run that task with the new algorithm and key source |
| `CipherTasks.ChannelsIndependent` | cipher/src/drv_cipher.c:521-545 | In a run of the whole driver each channel's outcome is its own run over its own events |
| `CipherDriver.Driver.SetInBufCnt` | cipher/src/hal_cipher.c:87-110 | The doorbell write adds to IBUF_CNT of one channel |
| `CipherDriver.Driver.Acknowledge` | cipher/src/drv_cipher.c:495-497 | The three acknowledging writes subtract, subtract and add |
| `CipherDriver.OwnCalls` | cipher/src/drv_cipher.c:479-485 | For finished tasks of one soft channel the drain makes as many calls with its stored argument, or none without a routine |
| `CipherDriver.Driver.ConfigChn` | cipher/src/drv_cipher.c:212-234 | Configuring performs exactly the modelled step on one channel and none on the others |
| `CipherDriver.Driver.StartMultiPkg` | cipher/src/drv_cipher.c:279-380 | Submission over the descriptor arrays performs exactly the modelled step: accepted and published, or refused without a trace |
| `CipherDriver.Driver.CreateTask` | cipher/src/drv_cipher.c:384-422 | A task with its optional key and IV performs exactly the modelled step |
| `CipherDriver.Driver.DataDoneMultiPkg` | cipher/src/drv_cipher.c:440-518 | The interrupt's drain performs exactly the modelled step, with one callback per finished slot in order, or reports the invalidated slot |
| `CipherDriver.Driver.DataDoneSinglePkg` | cipher/src/drv_cipher.c:424-438 | The single-packet interrupt calls back with the stored argument, where a callback is registered, and changes nothing |
| `CipherDriver.Driver.Isr` | cipher/src/drv_cipher.c:521-545 | Every channel whose status bit is set is served, channel 0 as a single packet and the others by the drain; the callbacks made are those of its finished tasks, in order, where one is registered, and the other channels are untouched |
| `CipherLayout.SlotsDisjoint` | cipher/src/drv_cipher.c:604-607 | For any list length, two different IV, input or output slots of any two channels do not overlap |
| `CipherLayout.SlotsInside` | cipher/src/drv_cipher.c:655-685 | Every slot lies inside the allocated block, at the same offset physically and virtually |
| `CipherLayout.SlotSpacing` | cipher/src/drv_cipher.c:604-607 | The slots of an area lie 16 bytes apart |
| `CipherLayout.AreaOffsets` | cipher/src/drv_cipher.c:655-685 | The three areas of a channel start where the driver's pointer arithmetic puts them |
| `CipherLayout.PlacedAddresses` | cipher/src/drv_cipher.c:655-685 | What is recorded, in numbers: 48 bytes a slot and channel, IVs first, then the input list, then the output list, with physical addresses in the list registers |
| `CipherLayout.MemoryMap.Init` | cipher/src/drv_cipher.c:655-685 | The placement loop gives every channel's slots the modelled addresses, physical and virtual |
| `CipherLayout.MemoryMap.Resume` | cipher/src/drv_cipher.c:762-791 | Resuming recomputes the same addresses the initialisation chose |
| `CipherHandles.HandleRoundTrip` | cipher/src/cipher_intf.c:207-292 | A channel is recovered from its handle by both masks the driver uses |
| `CipherHandles.MasksKeep` | cipher/src/cipher_intf.c:207-292 | The two masks keep the low octet and the low sixteen bits of any handle |
| `CipherHandles.ConsistentIff` | cipher/src/cipher_intf.c:178-228 | Upper and lower open flags and the owner agree after a request exactly when it is not a creation whose handle cannot be copied out |
| `CipherHandles.StepRefinesMap` | cipher/src/cipher_intf.c:178-302 | One request is one step of a partial map from channels 1-7 to files, with the reply the map dictates |
| `CipherHandles.RunRefinesMap` | cipher/src/cipher_intf.c:111-302 | So is every sequence of requests, releases included |
| `CipherHandles.ReleaseClears` | cipher/src/cipher_intf.c:111-126 | Closing a file frees exactly that file's channels |
| `CipherHandles.LostForGood` | cipher/src/cipher_intf.c:217-222 | A channel whose handle could not be copied out stays open without owner through every later sequence of requests |
| `CipherHandles.Device.CreateHandle` | cipher/src/cipher_intf.c:178-228 | The allocation scan over the open flags in place performs the modelled step |
| `CipherHandles.Device.DestroyHandle` | cipher/src/cipher_intf.c:230-250 | Destroying is the modelled step, harmless on a foreign or closed handle |
| `CipherHandles.Device.Begin` | cipher/src/cipher_intf.c:263-312 | Configure, encrypt and decrypt proceed for the owner only |
| `CipherHandles.Device.ReleaseFile` | cipher/src/cipher_intf.c:111-126 | The release scan performs the modelled step |
| `CipherHandles.Device.CallBack` | cipher/src/cipher_intf.c:87-94 | The completion callback sets the done flag of one channel |
| `Crc32.BitStepLinear` | rt3370/common/cmm_wep.c:118-127 | One shift of the checksum register is linear over GF(2) |
| `Crc32.CrcLinear` | rt3370/common/cmm_wep.c:118-127 | The checksum of a bitwise difference is the difference of the checksums |
| `Crc32.CrcConcat` | rt3370/common/cmm_wep.c:118-127 | Checksumming a concatenation continues from the first part's register |
| `Crc32.HighBitSurvives` | rt3370/common/cmm_wep.c:118-127 | A register with a high bit set stays nonzero while at most that many bits can still arrive |
| `Crc32.BurstDetected` | rt3370/common/cmm_wep.c:118-127 | Every nonzero error whose set bits span at most 32 positions changes the checksum, for every length |
| `Crc32.TableEntry` | rt3370/common/cmm_wep.c:30-96 | Each of the 256 table entries is eight zero shifts of its index with the reflected polynomial 0xEDB88320; by linearity, from the entries of the single bits |
| `Crc32.TableStep` | rt3370/common/cmm_wep.c:123-124 | The table-driven step is eight steps of the bit-level definition |
| `Crc32.CalcFcs32` | rt3370/common/cmm_wep.c:118-127 | The table-driven loop over a buffer computes the bit-level checksum, for every length |
| `Crc32.UpdateFcs32` | rt3370/common/cmm_wep.c:123-124 | One octet through the table |
| `Crc32.WordStep` | rt3370/common/cmm_wep.c:257-262 | Appending a little-endian word shifts the register with that word xored in |
| `Crc32.GoodFcsIff` | rt3370/common/cmm_wep.c:257-262 | Appendix C.3 of RFC 1662: the FCS over data and a trailing word is 0xdebb20e3 exactly when the word is the complement of the data's FCS |
| `Crc32.FirstWordComplemented` | rt3370/common/cmm_wep.c:257-262 | The FCS complements the first 32 bits of a message: from the start register 0xffffffff it is what a register of zeros makes of the message so changed |
| `Arc4.XorStreamInvolutive` | rt3370/common/crypt_arc4.c:84-106 | Encrypting twice with the same context gives the input back |
| `Arc4.FirstRounds` | rt3370/common/crypt_arc4.c:43-67 | The first round exchanges entry 0 with the one the first key octet names; the second adds entry 1 and the next octet of the key, which starts over at its end |
| `Arc4.IdentityStream` | rt3370/common/crypt_arc4.c:84-106 | The first three key octets out of the identity block are 2, 5 and 7 |
| `Arc4.Context.constructor` | rt3370/common/crypt_arc4.c:43-67 | The identity fill and the 256 rounds leave the specified key schedule |
| `Arc4.Context.Compute` | rt3370/common/crypt_arc4.c:84-106 | In-place keystream xor in ascending order, correct although the output overwrites consumed input at a lower offset, everything else kept |
| `Arc4.Context.NextOctet` | rt3370/common/crypt_arc4.c:95-103 | One keystream octet and the advanced context |
| `Wep.ConstructIvHdr` | rt3370/common/cmm_wep.c:197-208 | The IV header is the counter followed by the key index in the top two bits |
| `Wep.SoftEncrypt` | rt3370/common/cmm_wep.c:227-271 | In-place encapsulation: the body and its appended ICV become the specified ciphertext, the rest of the buffer is kept; an empty key is refused untouched |
| `Wep.SoftDecrypt` | rt3370/common/cmm_wep.c:293-363 | In-place decapsulation over the IV header: accepts exactly when the specification does, leaves the plaintext at offset 0 and the length reduced; lengths wrap at 16 bits as in the code |
| `Wep.SendAndReceive` | rt3370/common/cmm_wep.c:227-363 | The two routines on one buffer: what is encrypted in place behind its header is accepted by the decryption of header and body, which leaves the payload where the header was and reports its length; an empty key is refused |
| `Wep.IcvIsGood` | rt3370/common/cmm_wep.c:342-354 | The recomputed check value is compared with the decrypted one |
| `Wep.IcvValues` | rt3370/common/cmm_wep.c:257-262 | The check value of no data is 0, that of the octet 0x61 is 0xe8b7be43 |
| `Wep.RoundTrip` | rt3370/common/cmm_wep.c:227-363 | For every key of 1 to 13 octets, IV header and payload, what encapsulation produces is accepted and decrypts to the payload |
| `Wep.MatchesIffGood` | rt3370/common/cmm_wep.c:342-354 | The integrity check is exactly the good-FCS test over data and ICV |
| `Wep.DifferenceSurvivesStream` | rt3370/common/cmm_wep.c:333-336 | The key stream cancels out of the difference of two bodies |
| `Wep.AlteredAcceptedIff` | rt3370/common/cmm_wep.c:342-354 | Another body under the same IV and key is accepted exactly when the checksum of its difference from an accepted one is zero |
| `Wep.BurstRejected` | rt3370/common/cmm_wep.c:293-363 | Of two bodies that differ only within 32 consecutive bits at most one is accepted |
| `Wep.FourOctetsRejected` | rt3370/common/cmm_wep.c:293-363 | A change confined to four consecutive octets of ciphertext and ICV makes an accepted frame be refused, for every key, IV and length |
| `Wep.ReceiveAltered` | rt3370/common/cmm_wep.c:293-363 | The decryption routine on a buffer holding an accepted frame altered within four consecutive octets of its body reports failure and keeps the count |
| `EdidBlocks.BoundaryIff` | sil9022/sil9024.c:940-1052 | A block is left at the next header exactly when it is of a kind and length the parser steps over cleanly |
| `EdidBlocks.StuckIff` | sil9022/sil9024.c:1006-1046 | A turn of the block loop fails to move the parser forward exactly when it is at a short vendor block of another vendor |
| `EdidBlocks.ForeignVendorLoops` | sil9022/sil9024.c:1006-1046 | A vendor block of length one of another vendor is parsed again and again for ever |
| `EdidBlocks.StepOnEncoded` | sil9022/sil9024.c:940-1052 | The parser's turn over one encoded well-formed block ends on the next boundary and has recorded that block |
| `EdidBlocks.RecordCons` | sil9022/sil9024.c:952-1046 | Recording the first block and then the others is recording them all |
| `EdidBlocks.EncodedOctets` | sil9022/sil9024.h:722-734 | The encoded blocks are the octets of the standard: each kind's tag code in the top three bits, its length in the low five, then its payload, extended tag codes and the identifier of HDMI included |
| `EdidBlocks.FlattenOctets` | sil9022/sil9024.c:963-975 | Audio descriptors lie three octets apart, in order |
| `EdidBlocks.ParseRecovers` | sil9022/sil9024.c:901-1056 | For every list of well-formed data blocks that fits, encoded from offset 4 to the long-descriptor pointer, the parser returns OK and recovers the four support bits from the top of byte 3, every video and audio descriptor in order and the other blocks' fields |
| `EdidBlocks.ParseStops` | sil9022/sil9024.c:938-1052 | Behind such a list a block that runs past the long-descriptor pointer ends the parse with the overflow code, and one with a tag code 0, 5 or 6 with the unknown-tag code; everything before it is recorded |
| `EdidBlocks.HeaderRefused` | sil9022/sil9024.c:917-927 | The parse ends with the tag error exactly when byte 0 is not 0x02, and with the revision error exactly when it is and byte 1 is not 0x03 |
| `EdidBlocks.EscapesIff` | sil9022/sil9024.c:952-975 | Of the encoded lists of well-formed data blocks the parser is led outside its buffers by exactly those with more than twenty video descriptors, at most twenty counted of each block, or more than ten audio descriptors; it parses all others |
| `EdidBlocks.TwentyTwoEscape` | sil9022/sil9024.c:952-961 | Two video blocks of eleven descriptors are such a list |
| `EdidBlocks.ForwardEnds` | sil9022/sil9024.c:938-1053 | A parse that always moves forward takes no more turns than there are bytes of data, whatever the data |
| `EdidBlocks.NeverEndsIff` | sil9022/sil9024.c:1006-1046 | The parse of a list of encoded blocks, one-byte blocks of foreign vendors among them, is still running after every number of turns exactly when the descriptors before the first foreign block fit and three more bytes follow its header |
| `EdidParser.GlobalEdid.ReadVideo` | sil9022/sil9024.c:952-961 | The video loop writes the descriptors behind those already there and skips what exceeds twenty of a block, or reports that it leaves its buffers |
| `EdidParser.GlobalEdid.ReadAudio` | sil9022/sil9024.c:963-975 | The nested audio loops write whole three-byte descriptors, or report that they leave their buffers |
| `EdidParser.GlobalEdid.ReadVendor` | sil9022/sil9024.c:1006-1046 | The vendor block, with the short-circuit comparison of the identifier that moves the index; a byte outside the data is reported exactly when the step touches one |
| `EdidParser.GlobalEdid.ReadExtended` | sil9022/sil9024.c:983-1004 | Video capability is skipped, colorimetry recorded, other extended tags consume one byte |
| `EdidParser.GlobalEdid.ReadSpeaker` | sil9022/sil9024.c:977-981 | The first allocation byte is recorded, three are consumed |
| `EdidParser.GlobalEdid.ReadBlock` | sil9022/sil9024.c:950-1052 | The switch on the tag performs the modelled step, or reports an unknown tag or an access outside the buffers |
| `EdidParser.GlobalEdid.ParseShortDescriptors` | sil9022/sil9024.c:901-1056 | For every block of data the loop, in place on g_edid, has exactly the modelled outcome: return code and recorded fields, also on every error path; where the code would touch memory outside its buffers or stay on a block, it stops with a code of its own instead |
| `HdmiTx.RunKeepsInv` | sil9022/sil9024.c:3119-3201 | From an initialisation that finds the chip muted, a run of polls with arbitrary readings, mode settings, sleeps and wake-ups keeps the following throughout exactly when every mode setting and every wake-up from D2 meets its guard: TMDS recorded as powered exactly while the receiver is powered (and keys are valid where required), receiver powered only with the cable in, EDID valid only with the cable in, HDCP started only where supported with valid keys on a powered link, and a protected picture unmuted only with local-secure recorded; such a run that starts with the power-down bit right, or with the record of HDCP right, keeps it right exactly when its mode settings do |
| `HdmiTx.RunAsWritten` | sil9022/sil9024.c:3119-3201 | For the code as it is, whose mode settings reset nothing, every run from an initialisation that finds the chip muted keeps those invariants throughout, whatever else the registers hold and also after a mode setting made while the chip runs HDCP; the power-down bit too if it starts right |
| `HdmiTx.RunInvIff` | sil9022/sil9024.c:3119-3201 | From any state that has the invariants, they hold throughout a run exactly when its mode settings and wake-ups meet their guards |
| `HdmiTx.RunTracksIff` | sil9022/sil9024.c:3119-3201 | In such a run the power-down bit stays right throughout exactly when every mode setting leaves it so |
| `HdmiTx.RunRecordedIff` | sil9022/sil9024.c:3119-3201 | And the chip runs HDCP only when the driver has it as started, throughout, exactly when every mode setting finds protection off or, with a chip that does not answer, recorded |
| `HdmiTx.PollInv` | sil9022/sil9024.c:3119-3201 | One poll keeps all of it |
| `HdmiTx.InitialInvIff` | sil9022/sil9024.c:2906-2938 | The initialisation of a chip that answers establishes the invariants exactly when it finds the picture muted, the power-down bit right exactly when TMDS is powered down, and the record of HDCP exactly when protection is off, whatever else the registers hold |
| `HdmiTx.VideoSetInvIff` | sil9022/sil9024.c:2514-2543 | For every content of the registers, setting a video mode, which takes cable and receiver as present, keeps the invariants exactly when, where HDCP is required with bad keys, the picture is muted already; the power-down bit ends right exactly when with bad keys TMDS is powered down already; and the record of HDCP exactly when protection is off or, with a chip that does not answer, recorded |
| `HdmiTx.KeptRegistersIff` | sil9022/sil9024.c:321-330 | Without the reset, whose pin writes are commented out, a mode setting always keeps the invariants and the power-down bit and leaves a protected picture muted; the record of HDCP is right exactly when the chip is not running it |
| `HdmiTx.ModeSettingForgetsHdcp` | sil9022/sil9024.c:2514-2543 | Start, cable in with protection offered, mode setting without reset: the chip still runs HDCP and the driver has it as not started |
| `HdmiTx.PollTracksPins` | sil9022/sil9024.c:3130-3179 | After a poll the recorded cable and receiver states are what the settled status said |
| `HdmiTx.UnmutedIff` | sil9022/sil9024.c:1604-1656 | A muted protected picture is unmuted by a status check exactly when the chip reports a change to local protection from another recorded level; going straight to extended protection keeps it muted |
| `HdmiTx.IdleStartsIff` | sil9022/sil9024.c:1555-1567 | With no event pending HDCP starts, in driver and chip, exactly when the chip offers it and no protection is recorded; nothing else changes |
| `HdmiTx.CheckStatusMatched` | sil9022/sil9024.c:1543-1690 | A status check keeps driver and chip agreed on whether HDCP runs, whatever the chip reports |
| `HdmiTx.LostLinkMutes` | sil9022/sil9024.c:1570-1588 | A lost link is answered with a muted picture, no recorded protection, HDCP off and TMDS up |
| `HdmiTx.LinkAnswers` | sil9022/sil9024.c:1570-1600 | A suspended link has HDCP turned on again and nothing else touched; one to be renegotiated is muted, its recorded protection dropped, and HDCP turned off and on; a normal one leaves picture and protection level alone |
| `HdmiTx.ExtendedRecorded` | sil9022/sil9024.c:1604-1656 | A report of extended protection from another level, with HDCP started, is recorded, and nothing else changes |
| `HdmiTx.UnplugSilences` | sil9022/sil9024.c:2989-3000 | Unplugging mutes, powers TMDS down, forgets the EDID and records HDCP as stopped; the chip goes on running it exactly if it ran unrecorded |
| `HdmiTx.PlugInReads` | sil9022/sil9024.c:1190-1266 | A poll that settles from unplugged to plugged records as sink what was read, valid exactly if the bus was granted and released: the parsed value, DVI for no extensions, HDMI for a failed parse or a refused bus; it leaves the bus with the host exactly when it could not give it back, and otherwise selects the output mode of that sink |
| `HdmiTx.PowerUpListensIff` | sil9022/sil9024.c:2474-2500 | After the receiver powers up the hot-plug interrupt is enabled again unless HDCP is required and the keys are bad: then all interrupts stay masked |
| `HdmiTx.InitStarts` | sil9022/sil9024.c:2474-2500 | Starting the video path records D0; with HDCP required TMDS goes up muted if the keys are good, and power and picture stay alone if not; without, the picture is shown. The output mode is that of the sink |
| `HdmiTx.HeldWrites` | sil9022/sil9024.c:482-483 | On a bus that could not be released the handlers read all ones and write back all ones but the bit they clear |
| `HdmiTx.WakeFromD2Iff` | sil9022/sil9024.c:3078-3090 | Waking from D2 keeps the invariants exactly when TMDS was up already and muting is allowed; the power-down bit and the record of HDCP end right in any case |
| `HdmiTxDriver.Transmitter.TpiInit` | sil9022/sil9024.c:2906-2938 | The initialisation performs the modelled step, and establishes the invariants exactly when the registers it finds mute |
| `HdmiTxDriver.Transmitter.WakeFromD2` | sil9022/sil9024.c:3078-3090 | HDCP restarted and the state recorded as D0 |
| `HdmiTxDriver.Transmitter.HdcpInit` | sil9022/sil9024.c:1425-1461 | HDCP abilities recorded from the two start-up checks |
| `HdmiTxDriver.Transmitter.HdcpOff` | sil9022/sil9024.c:1368-1378 | Mute, protection off, level forgotten |
| `HdmiTxDriver.Transmitter.RestartHdcp` | sil9022/sil9024.c:1404-1411 | TMDS off, HDCP off, TMDS on |
| `HdmiTxDriver.Transmitter.CheckStatus` | sil9022/sil9024.c:1543-1690 | The status check performs the modelled step |
| `HdmiTxDriver.Transmitter.Init` | sil9022/sil9024.c:2474-2500 | The three ways the video path is started |
| `HdmiTxDriver.Transmitter.OnRxPoweredDown` | sil9022/sil9024.c:2948-2962 | Receiver loss |
| `HdmiTxDriver.Transmitter.RequestDdc` | sil9022/sil9024.c:431-461 | Up to fifty reads for the grant bit; a refused request leaves the request bit set, against the comment that the original value is restored |
| `HdmiTxDriver.Transmitter.ReleaseDdc` | sil9022/sil9024.c:471-494 | Up to fifty writes until both bus bits read clear |
| `HdmiTxDriver.Transmitter.DoEdidRead` | sil9022/sil9024.c:1190-1266 | The EDID is valid exactly when the bus was granted and released, whatever the parser said |
| `HdmiTxDriver.Transmitter.OnCableConnected` | sil9022/sil9024.c:3010-3050 | Cable insertion: EDID read, output mode after the sink |
| `HdmiTxDriver.Transmitter.Debounce` | sil9022/sil9024.c:3136-3142 | The status after the cable has stopped bouncing |
| `HdmiTxDriver.Transmitter.Poll` | sil9022/sil9024.c:3119-3201 | The poll performs the modelled step and keeps the invariants, the power-down bit and the record of HDCP |
| `ClientWds.AgedIffElapsed` | rt3370/common/client_wds.c:188 | On a tick counter modulo 2^32 an entry is aged exactly when more than five seconds' ticks have elapsed, as long as it is not more by over 2^31; beyond that exactly in every first half of a range, and in the second halves an old entry counts as fresh |
| `ClientWds.AgedIs` | rt3370/common/client_wds.c:188 | On any two tick counts an entry is aged exactly when they are more than five seconds' ticks apart, modulo 2^32 and by at most half the range |
| `ClientWds.MoveKeepsPartition` | rt3370/common/client_wds.c:90-116 | Moving an entry between two lists keeps every pool entry in exactly one list |
| `ClientWds.SweepFilters` | rt3370/common/client_wds.c:174-197 | Maintenance keeps in every chain, in order, exactly the entries not aged out and appends the others to the free list |
| `ClientWds.RunKeepsGood` | rt3370/common/client_wds.c:119-197 | In every run each pool entry lies in exactly one list, and each chained entry in the chain that the low six bits of its address's last octet name |
| `ClientWdsMap.UpdateUniqueIff` | rt3370/common/client_wds.c:155-169 | An update keeps addresses unique exactly when it does not meet a stale entry of its address while a free entry is left |
| `ClientWdsMap.StaleDuplicates` | rt3370/common/client_wds.c:155-169 | An update with an invalid Aid and another of the same address leaves the address in the table twice |
| `ClientWdsMap.RunUniqueIff` | rt3370/common/client_wds.c:147-171 | Addresses stay unique throughout a run exactly when no update of it meets a stale entry of its address while a free entry is left |
| `ClientWdsMap.RunKeepsUnique` | rt3370/common/client_wds.c:147-171 | While every update names a valid station, addresses stay unique over every run |
| `ClientWdsMap.FullIff` | rt3370/common/client_wds.c:155-169 | No pool entry is free exactly when the map has as many bindings as the pool has entries |
| `ClientWdsMap.LookupIsMap` | rt3370/common/client_wds.c:119-144 | A lookup is a lookup in the finite map from addresses to stations, refreshing the entry |
| `ClientWdsMap.UpdateIsMap` | rt3370/common/client_wds.c:147-171 | An update refreshes a bound address, and binds a new one while the map has fewer bindings than the pool has entries |
| `ClientWdsMap.MaintainIsMap` | rt3370/common/client_wds.c:174-197 | Maintenance removes exactly the bindings referred to more than five seconds ago, by the wrapping tick count |
| `ClientWdsMap.StepIsMap` | rt3370/common/client_wds.c:119-197 | One operation of the table is one operation of the map, with the map's answer to a lookup |
| `ClientWdsMap.RunIsMap` | rt3370/common/client_wds.c:119-197 | Over every run whose updates name valid stations the table is a finite map of bounded size: the same bindings and the same answers to all lookups |
| `ClientWdsPool.ProxyTable.constructor` | rt3370/common/client_wds.c:32-58 | Every entry in the free list, in pool order, and empty chains |
| `ClientWdsPool.HeaderSays` | rt3370/include/link_list.h:36-82 | A list header has the first and the last entry of the list and its length |
| `ClientWdsPool.ProxyTable.InsertTail` | rt3370/include/link_list.h:51-64 | Appending through the tail pointer appends to the list and leaves the others alone |
| `ClientWdsPool.ProxyTable.RemoveHead` | rt3370/include/link_list.h:66-82 | Taking the head |
| `ClientWdsPool.ProxyTable.DelEntry` | rt3370/include/link_list.h:90-128 | Unlinking an entry from anywhere in a chain by walking to its predecessor |
| `ClientWdsPool.ProxyTable.ProxyLookup` | rt3370/common/client_wds.c:119-144 | The pointer walk performs the modelled lookup |
| `ClientWdsPool.ProxyTable.ProxyTabUpdate` | rt3370/common/client_wds.c:147-171 | The update over the linked lists performs the modelled step |
| `ClientWdsPool.ProxyTable.SweepOneChain` | rt3370/common/client_wds.c:184-194 | One chain is swept while it is being unlinked, the successor saved before an entry moves to the free list |
| `ClientWdsPool.ProxyTable.ProxyTabMaintain` | rt3370/common/client_wds.c:174-197 | The maintenance over all chains performs the modelled step |
| `ClientWdsPool.InitialTable` | rt3370/common/client_wds.c:32-58 | The initial table meets everything the run theorems start from |
| `I2cWire.ListenConcat` | gpio_i2c_8b/gpio_i2c.c:404-455 | Concatenated traces are heard one after the other |
| `I2cWire.ChangesAreConditions` | gpio_i2c_8b/gpio_i2c.c:248-277 | The start and stop conditions heard are all the changes SDA made under a high SCL |
| `I2cWire.BitAt` | gpio_i2c_8b/gpio_i2c.c:295 | The mask the driver shifts out selects the bits most significant first |
| `I2cWire.ValueOfBits` | gpio_i2c_8b/gpio_i2c.c:315-346 | The value of the bits of a byte, read most significant first, is the byte |
| `I2cWire.CallReadBack` | gpio_i2c_8b/gpio_i2c.c:403-455 | Each call is read back from the wire as its intended transaction: device, register, and the byte written or the byte returned; gpio_sccb_read clocks one bit too many before its first stop |
| `I2cWire.CallsReadBack` | gpio_i2c_8b/gpio_i2c.c:403-455 | Every sequence of calls is read back as the concatenated transactions |
| `I2cWire.RequestOctets` | gpio_i2c_8b/gpio_i2c.c:458-497 | The argument word is device, register and, in the low half, data, from the top octet down; the answer replaces the low half; an unknown command makes no call, keeps the word and returns -1 |
| `GpioI2c.Bus.Drive` | gpio_i2c_8b/gpio_i2c.c:60-141 | Driving a line, direction register first: a fall of SCL ends a bit, SDA moving under a high SCL is a start or stop condition, and nothing else is heard |
| `GpioI2c.Bus.ReadSda` | gpio_i2c_8b/gpio_i2c.c:226-240 | Releasing SDA and sampling what the slave puts there, unheard |
| `GpioI2c.Bus.StartBit` | gpio_i2c_8b/gpio_i2c.c:248-255 | Exactly a start condition, on an idle bus or between bits |
| `GpioI2c.Bus.StopBit` | gpio_i2c_8b/gpio_i2c.c:261-277 | One more bit, whatever SDA carries, then exactly a stop condition and an idle bus |
| `GpioI2c.Bus.SendByte` | gpio_i2c_8b/gpio_i2c.c:285-308 | Exactly the eight bits of the byte |
| `GpioI2c.Bus.ReceiveByte` | gpio_i2c_8b/gpio_i2c.c:315-346 | Exactly eight bits of the slave, whose value is returned |
| `GpioI2c.Bus.ReceiveAck` | gpio_i2c_8b/gpio_i2c.c:353-384 | One bit of the slave; the result is 1 for an acknowledged byte, against the comment that it is 0 |
| `GpioI2c.Bus.Write` | gpio_i2c_8b/gpio_i2c.c:445-455 | The wire carries exactly the write transaction |
| `GpioI2c.Bus.Read` | gpio_i2c_8b/gpio_i2c.c:404-421 | The wire carries exactly the read transaction and the byte on it is returned |
| `GpioI2c.Bus.SccbRead` | gpio_i2c_8b/gpio_i2c.c:424-442 | The same for the read with a separate stop |
| `GpioI2c.Bus.Ioctl` | gpio_i2c_8b/gpio_i2c.c:458-497 | A request's argument word is taken apart into its call, whose transaction the wire gains and whose byte is put into the word; an unknown command touches nothing |
| `GpioI2c.Bus.Serve` | gpio_i2c_8b/i2c_read.c:71-82 | For every sequence of requests the wire gains exactly their transactions, which a listener reads back as the intended items, and each reply is the one its own transaction determines |
| `IrQueue.RunKeepsRing` | hisi-irda/hiir.c:116-121 | In every run head and tail are the numbers of events made and read modulo the length, and every slot holds the newest event counted into it |
| `IrQueue.LooksEmptyIff` | hisi-irda/hiir.c:411 | It looks empty exactly when the number of unread events is a multiple of the length |
| `IrQueue.EmptyIff` | hisi-irda/hiir.c:411 | The ring is right about being empty exactly when nothing is unread or the number of unread events is no multiple of the length |
| `IrQueue.ReadReturns` | hisi-irda/hiir.c:422-425 | A read returns the oldest unread event exactly when no more than the length are unread, otherwise a newer one of the same slot |
| `IrQueue.OverflowHides` | hisi-irda/hiir.c:223-264 | The event that fills the last free slot makes the ring look empty |
| `IrQueue.RunTakesOldestIff` | hisi-irda/hiir.c:422-433 | Every read of a run takes the oldest unread event exactly when none finds more than the length unread |
| `IrQueue.RunIsFifo` | hisi-irda/hiir.c:422-433 | In every such run the reader gets exactly the events made, in order, full ring or not |
| `IrQueue.ReadManyOldest` | hisi-irda/hiir.c:422-433 | A call returns the oldest unread events, as many as there are and fit |
| `IrQueue.Reported` | hisi-irda/hiir.c:215-266 | After the first event no reception goes unreported but a repetition of the last key while it is on or its repeat check armed, and no release but with key-ups off or after a key-up; what is reported is the received key down or the last key up |
| `IrQueue.FirstReported` | hisi-irda/hiir.c:215-266 | As long as no event has been made since a reset, interrupts are judged by what the last slot still holds in the same way as later by the last event |
| `IrQueue.RunUps` | hisi-irda/hiir.c:223-229 | Over every run, overflow included, each key-up after the first event directly follows a key-down with the same data |
| `IrQueue.RunNoRepeats` | hisi-irda/hiir.c:258-266 | With repeat checking constantly off no key-down equals the event just before it |
| `IrQueue.RunMarked` | hisi-irda/hiir.c:236-257 | With it constantly on a repeated key-down has a timer expiry or a release in between |
| `IrQueue.SettingsDecide` | hisi-irda/hiir.c:278-345 | After an expiry a repetition is reported again; a release is reported or not as key-ups were set; a buffer setting takes 1 to 100 and ignores other values |
| `IrQueue.DeliversFromReset` | hisi-irda/hiir.c:285-295 | From any state of the device an open or an accepted buffer setting starts a run with all of this: ring and counts, first in first out and the exact condition for it, the grammar of key-ups and of repetitions with repeat checking off or on |
| `IrQueue.DeliversFromOpen` | hisi-irda/hiir.c:464-472 | So does the first open, over whatever the buffer holds |
| `IrQueue.StaleReleaseIff` | hisi-irda/hiir.c:285-295 | After a buffer setting or an open a release reports a key-up, of the stale key, exactly when the last slot holds a key-down and key-ups are on, as an open leaves them |
| `IrQueue.StaleReceiveIff` | hisi-irda/hiir.c:234-266 | After a buffer setting a reception is lost exactly when it repeats the stale key and the check is still armed or, with repeat checking off, the slot holds a key-down; after an open none is lost |
| `IrDevice.Device.OnInterrupt` | hisi-irda/hiir.c:200-276 | The handler performs the modelled step, with its branches in this order |
| `IrDevice.StatusDecides` | hisi-irda/hiir.c:200-276 | An error bit hides everything else, a release hides a reception, and only a reception uses the two key words, high and low |
| `IrDevice.Device.SetBuf` | hisi-irda/hiir.c:285-295 | The buffer setting performs the modelled step |
| `IrDevice.Device.OnTimeout` | hisi-irda/hiir.c:194-198 | The timer disarms repeat checking |
| `IrDevice.Device.Open` | hisi-irda/hiir.c:449-478 | Opening resets indices and switches and keeps the old buffer contents |
| `IrDevice.Device.Read` | hisi-irda/hiir.c:403-434 | The read loop returns what the modelled reads return, in whole entries within the byte count, or refuses when the ring looks empty |
| `RalinkPower.Rounding` | rt3370/chips/rt5390.c:2956-3063 | Digit stripping decides by whether the fraction is at least half, for every power-of-ten denominator |
| `RalinkPower.FirstDigit` | rt3370/chips/rt5390.c:2993-3010 | The loop ends with the leading digit of the fraction |
| `RalinkPower.RoundedIff` | rt3370/chips/rt5390.c:2956-3063 | On C's quotient and remainder the result is rounded half away from zero exactly when the quotient is not in (-1, -1/2] |
| `RalinkPower.ScaledNearest` | rt3370/chips/rt5390.c:2105 | Every table product is rounded half away from zero |
| `RalinkPower.ScaledMonotone` | rt3370/chips/rt5390.c:403-431 | The rounded value grows with the power index, for every base |
| `RalinkPower.RatioGeometric` | rt3370/chips/rt5390.c:403-431 | The ratio table is a geometric progression up to the rounding of its entries, with 1 in the middle |
| `RalinkPower.DesiredIff` | rt3370/chips/rt5390.c:2105-2129 | An entry is the rounded value clamped to [0, 0x7C] exactly when that value is below 128 or its low octet lies in 0x7C to 0x7F, where the truncated value is clamped to the same bound |
| `RalinkPower.DesiredTruncates` | rt3370/chips/rt5390.c:2105-2129 | A base of 127 at +1 dBm gives 0 where 0x7C is meant |
| `RalinkPower.DesiredMonotone` | rt3370/chips/rt5390.c:2102-2130 | As long as the larger value fits a CHAR more power never asks for less TSSI |
| `RalinkPower.InterpolatedEnds` | rt3370/chips/rt5390.c:3473-3505 | Interpolation is exact at both calibrated channels |
| `RalinkPower.InterpolatedMonotone` | rt3370/chips/rt5390.c:3473-3505 | It follows the slope of the line |
| `RalinkPower.InterpolatedBetween` | rt3370/chips/rt5390.c:3473-3505 | It lies between the two calibrated values |
| `RalinkPower.InterpolatedNear` | rt3370/chips/rt5390.c:3473-3505 | It is within half a unit of the true line |
| `RalinkPower.InsertTssi` | rt3370/chips/rt5390.c:3473-3505 | The first-decimal test makes RTATEInsertTssi the nearest integer to the line, for distinct channels and deltas that fit a CHAR |
| `RalinkTables.SignedNibble` | rt3370/chips/rt5390.c:2047-2057 | Sign extension undoes the masking to four bits |
| `RalinkTables.PackParts` | rt3370/chips/rt5390.c:3739-3740 | The four nibbles of a word are recovered from it |
| `RalinkTables.DeltaInRange` | rt3370/chips/rt5390.c:3695-3724 | Interpolated deltas of deltas within [-8, 7] stay there, so the boundary check changes nothing |
| `RalinkTables.Interpolate` | rt3370/chips/rt5390.c:3695-3709 | All fourteen deltas from the measured three |
| `RalinkTables.StoreOffsets` | rt3370/chips/rt5390.c:3729-3743 | Every nibble is where the reader looks for it, the TSSI base byte and all other words are kept |
| `RalinkTables.Calibrate` | rt3370/chips/rt5390.c:3670-3743 | After the calibration the reader finds exactly the interpolated deltas and the base |
| `RalinkTables.LoadOffsets` | rt3370/chips/rt5390.c:2022-2057 | The sign-extending reader over the four words |
| `RalinkTables.ChannelPlaces` | rt3370/chips/rt5390.c:2022-2042 | Bytes 0x6F to 0x75 hold two channels each, the lower one in the low four bits |
| `RalinkTables.OffsetPlaces` | rt3370/chips/rt5390.c:2022-2042 | The offset of a channel is the sign-extended nibble there, by the octets of its word |
| `RalinkTables.FillRates` | rt3370/chips/rt5390.c:2102-2130 | One channel loop: two adjacent rates get the clamped entry, all others are kept |
| `RalinkTables.PowerOctets` | rt3370/chips/rt5390.c:2099-2131 | Of a word the even address is the low octet and the odd one the high, and the low four bits of an octet count |
| `RalinkTables.EntryIs` | rt3370/chips/rt5390.c:2104-2105 | The ratio applied is the one as many steps from the middle of the table as power setting and channel offset say together, or the last one that way |
| `RalinkTables.EntryGrows` | rt3370/chips/rt5390.c:2104-2105 | An entry grows with the power setting and with the channel's offset, while the larger value fits a CHAR |
| `RalinkTables.InitDesiredTables` | rt3370/chips/rt5390.c:2097-2341 | Both tables, every channel and rate |
| `FilterCalibration.SettingIs` | rt3370/chips/rt30xx.c:302-330 | A search settles on the last setting within the target if some reading hit it exactly, else on the first one beyond |
| `FilterCalibration.PassParameters` | rt3370/chips/rt30xx.c:226-257 | The four targets, and start settings 0x07 and 0x27 under the two top bits of RF_R24 |
| `FilterCalibration.Adapter.PassBand` | rt3370/chips/rt30xx.c:273-285 | The pass-band loop is bounded by a retry count shared by both passes |
| `FilterCalibration.Adapter.StopBand` | rt3370/chips/rt30xx.c:290-325 | The stop-band loop counts its readings and hits, and stops beyond the target or at the shared limit |
| `FilterCalibration.Adapter.Calibrate` | rt3370/chips/rt30xx.c:210-371 | For every sequence of readings and of answers to the presence tests: at most two passes, 103 stop-band and 102 pass-band readings; the call finishes exactly when no test finds the adapter gone, and gone at the first test it leaves every register alone, gone at a later one loopback on; a normal exit leaves BBP_R24 at 0, loopback off and BBP_R4[4:3] clear; the stored settings are those of the searches that stayed below the limit |

## Left out

- Kernel plumbing: locks, wait queues, user copies other than the one that loses a channel, interrupt registration, allocation failures, the time-outs of waiting for a cipher result.
- Channel 0 of the cipher, which takes single packets by polling, and several producers on one channel.
- The cipher engine's own transformation, and the bit layout of the control register HAL_Cipher_Config packs: direction, mode and key source are modelled as separate fields.
- Physical IV addresses in the ring: a descriptor refers to an IV buffer by its slot; CipherLayout models the addresses.
- RTMPInitWepEngine's allocation failure, which would leave the key stream uninitialised.
- CliWds_ProxyTabDestory, which frees the pool while its lists still refer to it.
- EDID block 0, its header and checksum, detailed timings, and the loop over several extension blocks.
- EdidBlocks.StuckIff: is about one turn; whole parses that never end are characterised for lists of encoded blocks (EdidBlocks.NeverEndsIff). Foreign vendor blocks of other lengths than one leave the parser on bytes that are no header (EdidBlocks.BoundaryIff), and what it goes on to make of those is not followed.
- EdidParser.GlobalEdid.ParseShortDescriptors: where the code would touch memory outside its buffers or stay on a block for ever, the method stops with OutsideBuffers or NoProgress, and does not say what has been recorded by then.
- Video timing, InfoFrame and audio registers of the transmitter, CEC, and the KSV features, which are compiled out.
- The colour-depth workaround that repeats the output-mode writes: they are idempotent.
- I2C bus contention: when the driver still drives SDA during the ninth clock of a written byte, the slave's acknowledge is not seen.
- Arbitration, clock stretching and time-outs of I2C, which the driver does not have.
- Infrared reads that block; the register configuration that follows every setting.
- GetPowerDeltaFromTssiRatio: its table entry 12 is on another scale, so what it returns is a parameter within its index range.
- RalinkPower.InsertTssi: requires two distinct channels; for equal ones the code sets a result and then divides by zero.
- RF and BBP register access failures during calibration; RF_R31, RF_R24 and BBP_R25 are written but not specified at the end.
- Register-table drivers, switch-channel code and command-line tools of the collection.
