# AutoTux in Dafny

A model of the parts of the AutoTux car that decide something, and proofs about them: the firmware of the
board (C on ChibiOS), the proxy on the Odroid, and the decision maker that overtakes and parks.

Every component is modelled twice. The code itself appears in its own form: classes with the fields the
source updates, loops over arrays, methods that change them in place. Each method is proved against a function
on values, and the theorems are about these functions: over whole runs, over every interleaving, or across the
two ends of a wire.

| files | component |
|---|---|
| `Word32`, `SoftwareCrc`, `CrcTheorems`, `CrcBursts`, `CrcTables`, `CrcResidues` | the software CRC driver: table-driven and bit-serial branch, the errors they detect, and what they compute |
| `PacketHandler`, `ControlLink` | the receive buffer of the board, the frame the proxy builds, and what a read returns |
| `SensorLink` | the sensor bytes, their packet, and the proxy's backward scan for it |
| `RcMode`, `ControlOutput`, `ControlDriving` | RC takeover, failsafe, and the pulse widths of motor and servo |
| `MemTest`, `MemTestTheorems`, `MemTestWalking` | the memory tester over a memory with a fault parameter |
| `IrqStorm`, `IrqStormTheorems` | the chain of threads and mailboxes under two timers |
| `TriBuf` | the triple buffer between a producer and a consumer |
| `Shell` | the tokeniser and the line reader of the shell |
| `Overtaker`, `OvertakerTheorems`, `OvertakerManoeuvres`, `OvertakerWitnesses` | the overtaking state machine, and runs its idle reset upsets |
| `Parker`, `ParkerTheorems`, `ParkerManoeuvres` | the parking state machine, under its caller |
| `XorChecksum`, `Options` | shared by the above |

`dafny verify dfyconfig.toml` checks everything.

## Modelling choices

- Words of the CRC driver are `bv32`, bytes of the links `bv8`. The operators of `bv32` have names, and proofs
  hide what they mean, so that most of the algebra is reasoning about symbols.
- Distances, speeds and angles are `real`.
- `CRCSW_PROGRAMMABLE` is TRUE and both tables are built in; widths are 8 to 32.
- The receive buffer of the board has a 129th cell, for the byte that is written before the counter is checked.
- `char` is unsigned on the board. Characters of the shell are Dafny characters, of which the 256 of the source
  are a part.
- An interrupt may come between any two calls of a getter. Each call that the control output makes for a pulse
  width, and each call that the sensor input makes for a value, sees a value of its own. A call itself is one step.
- Threads, semaphores and mailboxes are steps of a state machine: a fetch, a post, the store to the flag that
  follows a lost one, a swap or a wait is one step. A callback of a timer runs in a lock and is one step. A thread
  that would block does not step.
- The faults of the memory tester are a map from words to cells and a set of stuck bits for each cell; the
  area is an array of words of the width under test.
- The parker's two file-level variables and its fields are one state. The decision maker is modelled by the
  frames it passes to the parker, in any order.

## Where code and documentation disagree

The proofs follow the code.

- `packetHandler.c:99-101` says a successful read discards everything up to and including the packet. The code
  keeps the closing comma (`ControlLink.PacketEndStays`) and every older frame behind the cells it moves, and
  the next read delivers the latest of those (`ControlLink.OlderFrameIff`, `ControlLink.UpperHalfReads`). It also
  makes stale bytes beyond the counter readable again (`ControlLink.StaleFrameReturns`):
  `ControlLink.SecondFrameReturns` is a run in which a frame is delivered twice.
- `packetHandler.c:82-83` says that half the buffer is discarded when it is full. The byte that overflows is lost
  as well, so that some frame is lost in all but one case (`ControlLink.RoundTripIff`).
- `SerialBuffer.cpp:97-99` means to jump over a packet with a bad checksum. It jumps 17 positions, into the packet
  before it, which is lost (`SensorLink.ValidThenDamagedIsLost`, `SensorLink.PassedOverIff`).
- `sensorInput.c:67-68` says values above 255 are kept out. For the rear infrared value the test is not against 255
  but against zero, which becomes 255; that is what is sent until the first conversion has completed
  (`SensorLink.RearArrivesIff`). As long as a call of the getter is one step, its driver's own cap keeps it within a
  byte.
- `sensorInput.c:82-86` asks for the odometer once for each of its bytes. If it moves on meanwhile, by less than
  2.56 m, either its last value arrives or one behind the car, below every value that was seen
  (`SensorLink.TornFallsBack`, `SensorLink.TornIff`, `SensorLink.TornOdometer`).
- `controlOutput.c:164` speaks of 0.8 for the throttle backwards; the multiplier is 0.7
  (`ControlDriving.ThrottleForwards`).
- `tribuf.c:99` asks for new data in the orphan buffer before a front swap. Taking the signal ensures that as long
  as no frame is published between the wait and the swap, and in particular if the two are one step; a frame
  published there breaks the order (`TriBuf.OrderlyConsumerGetsNewest`, `TriBuf.OverlapBreaksOrder`).
- `irq_storm.c:250-257` takes the flag for a loss at the interval just tried. A thread stores to the flag after its post
  and outside of any lock, so the flag may come late: after it was read, or after it was cleared for the next
  iteration (`IrqStormTheorems.FlagComesLate`, `IrqStormTheorems.ThresholdIsFirst`).
- `Parker.cpp:40-48` starts the search over after a curve, but leaves the counted readings, so that fewer than three
  readings of an object may do (`ParkerManoeuvres.ThreeReadings`, `ParkerManoeuvres.OneObjectReading`).
- `Overtaker.cpp:162-183` says it resets the machine, but leaves the flags (`OvertakerTheorems.ResetBreaksFlags`,
  `OvertakerWitnesses.ResetStrandsFlags`), the counted readings, so that one front reading may start an overtake
  (`OvertakerTheorems.StartReadings`, `OvertakerWitnesses.OneReadingStarts`), and the averaged angles, so that a
  recommendation may be the mean of an earlier overtake and one new angle
  (`OvertakerTheorems.AverageFromEntry`, `OvertakerWitnesses.MeanOutlivesReset`).

## Model

| member | source | states |
|---|---|---|
| `CrcTables.Crc32TableMatchesSerial` | stm32/lib/ChibiOS_16.1.4/community/os/various/crcsw.c:157-177 | CRC-32 (section 8 of RFC 1952): every sequence of resets and calculations returns the same values with the shipped 256-entry table as with the same configuration and no table |
| `CrcTables.Crc16TableMatchesSerial` | stm32/lib/ChibiOS_16.1.4/community/os/various/crcsw.c:157-177 | the same for CRC-16 |
| `CrcTheorems.TableAgreesIff` | stm32/lib/ChibiOS_16.1.4/community/os/various/crcsw.c:282-334 | for any reflecting configuration whose table is generated from its polynomial: table and bit-serial branch agree on every sequence of calls if and only if the initial value is palindromic within the register |
| `CrcTheorems.RegistersMirrored` | stm32/lib/ChibiOS_16.1.4/community/os/various/crcsw.c:286-325 | the invariant behind it: on every message the table register is the bit reflection of the low bits of the bit-serial register |
| `CrcTheorems.MirroredOutputs` | stm32/lib/ChibiOS_16.1.4/community/os/various/crcsw.c:282-334 | with a palindromic initial value the two branches hand out the same values from mirrored registers on, call after call |
| `CrcTheorems.FeedMirrored` | stm32/lib/ChibiOS_16.1.4/community/os/various/crcsw.c:301-323 | one byte of the bit-serial branch, reflected, is one byte of a register that shifts right |
| `CrcTheorems.FeedTableIsFeedRight` | stm32/lib/ChibiOS_16.1.4/community/os/various/crcsw.c:286-291 | one table lookup does what eight steps of that register do, for any generated table |
| `CrcTables.Crc32TableGenerated` | stm32/lib/ChibiOS_16.1.4/community/os/various/crcsw.c:42-107 | all 256 entries of the CRC-32 table are eight steps of the register with the reflected polynomial |
| `CrcTables.Crc16TableGenerated` | stm32/lib/ChibiOS_16.1.4/community/os/various/crcsw.c:111-144 | the same for the 256 entries of the CRC-16 table |
| `CrcBursts.BitBurstDetected` | stm32/lib/ChibiOS_16.1.4/community/os/various/crcsw.c:297-333 | for every odd polynomial and width from 8 to 32: two messages of equal length that differ only within as many consecutive bits as the register has, in the order of transmission, never get the same result from the bit-serial branch |
| `CrcBursts.TableBitBurstDetected` | stm32/lib/ChibiOS_16.1.4/community/os/various/crcsw.c:284-294 | nor from the table branch, for any table generated from such a polynomial, any initial value and any setting of the reflect flags |
| `CrcBursts.RegistersDiffer` | stm32/lib/ChibiOS_16.1.4/community/os/various/crcsw.c:286-291 | the registers after two such messages differ, and within the width of the register |
| `CrcBursts.TakeBitsXor` | stm32/lib/ChibiOS_16.1.4/community/os/various/crcsw.c:286-291 | the difference of two registers depends only on where the bits they take in differ |
| `CrcBursts.FeedTakesBits` | stm32/lib/ChibiOS_16.1.4/community/os/various/crcsw.c:313-322 | a byte fed at once is its eight bits fed one by one, lowest first |
| `CrcBursts.BurstDetected` | stm32/lib/ChibiOS_16.1.4/community/os/various/crcsw.c:297-333 | in particular a change within a window of whole bytes that fits into the register, whatever precedes and follows |
| `CrcBursts.TableBurstDetected` | stm32/lib/ChibiOS_16.1.4/community/os/various/crcsw.c:284-294 | the same for the table branch |
| `CrcTables.Crc32DetectsBitBursts` | stm32/lib/ChibiOS_16.1.4/community/os/various/crcsw.c:157-165 | CRC-32 detects every change confined to 32 consecutive bits in the order of transmission |
| `CrcTables.Crc16DetectsBitBursts` | stm32/lib/ChibiOS_16.1.4/community/os/various/crcsw.c:168-177 | CRC-16 detects every change confined to 16 consecutive bits in the order of transmission |
| `CrcTables.Crc32DetectsBursts` | stm32/lib/ChibiOS_16.1.4/community/os/various/crcsw.c:157-165 | CRC-32 detects every change confined to a window of at most 4 bytes |
| `CrcTables.Crc16DetectsBursts` | stm32/lib/ChibiOS_16.1.4/community/os/various/crcsw.c:168-177 | CRC-16 detects every change confined to a window of at most 2 bytes |
| `CrcTheorems.ZerosSeparate` | stm32/lib/ChibiOS_16.1.4/community/os/various/crcsw.c:286-294 | two table registers whose results agree on up to three zero bytes, and on none, are equal: results determine the register |
| `CrcTheorems.SpillNeverShows` | stm32/lib/ChibiOS_16.1.4/community/os/various/crcsw.c:297-333 | for every width from 8 to 32, results equal those of a register that is masked after every bit |
| `CrcTheorems.SplitAnywhere` | stm32/lib/ChibiOS_16.1.4/community/os/various/crcsw.c:282-334 | calculating over a and then b ends in the same results, also of all later calls, as calculating over a + b |
| `CrcTheorems.FlagsMirror` | stm32/lib/ChibiOS_16.1.4/community/os/various/crcsw.c:304-330 | what the two reflect flags mean: reflecting the data is taking in reflected bytes, and reflecting the remainder turns the result around within the register, before the final value is added |
| `CrcResidues.Crc32Residue` | stm32/lib/ChibiOS_16.1.4/community/os/various/crcsw.c:157-165 | CRC-32: the checksum of any message with its own checksum behind it, lowest byte first, is 0x2144DF1C, and the checksum of no bytes is 0 |
| `CrcResidues.Crc16Residue` | stm32/lib/ChibiOS_16.1.4/community/os/various/crcsw.c:168-177 | CRC-16: there both are 0 |
| `CrcResidues.CheckValues` | stm32/lib/ChibiOS_16.1.4/community/os/various/crcsw.c:157-177 | the checksums of the characters 1 to 9 are 0xCBF43926 and 0xBB3D, the check values by which these CRCs are named |
| `CrcResidues.SealedRegister` | stm32/lib/ChibiOS_16.1.4/community/os/various/crcsw.c:282-334 | for every two- or four-byte configuration with a generated table: a message with its checksum behind it leaves in the register what the final value alone would |
| `CrcResidues.FeedsWord` | stm32/lib/ChibiOS_16.1.4/community/os/various/crcsw.c:286-291 | bytes fed lowest first enter the register like the word they make up |
| `SoftwareCrc.ReflectBits` | stm32/lib/ChibiOS_16.1.4/community/os/various/crcsw.c:189-204 | the reflection loop computes the word with its low bits in the opposite order |
| `Word32.ReflectBit` | stm32/lib/ChibiOS_16.1.4/community/os/various/crcsw.c:189-204 | bit i of a reflection is bit n - 1 - i of the word |
| `Word32.ReflectReflect` | stm32/lib/ChibiOS_16.1.4/community/os/various/crcsw.c:189-204 | reflecting twice gives the low bits back |
| `SoftwareCrc.Driver.constructor` | stm32/lib/ChibiOS_16.1.4/community/os/various/crcsw.c:220-223 | a fresh driver holds the initial value |
| `SoftwareCrc.Driver.Reset` | stm32/lib/ChibiOS_16.1.4/community/os/various/crcsw.c:269-271 | a reset restores the initial value |
| `SoftwareCrc.Driver.Calc` | stm32/lib/ChibiOS_16.1.4/community/os/various/crcsw.c:282-334 | both branches: the register after the buffer and the value returned |
| `SoftwareCrc.Driver.DivideByte` | stm32/lib/ChibiOS_16.1.4/community/os/various/crcsw.c:301-323 | one byte of the bit-serial loop |
| `PacketHandler.Handler.ReadPacketFromBuffer` | stm32/src/serial/packetHandler.c:107-156 | PACKET_OK exactly when a well-formed frame lies in the buffered bytes; then the latest one is delivered and the counter falls strictly; on NO_PACKET nothing changes |
| `PacketHandler.Handler.TakeFrame` | stm32/src/serial/packetHandler.c:114-149 | the body of the backward scan at one position |
| `PacketHandler.LatestEnd` | stm32/src/serial/packetHandler.c:114-149 | no frame ends behind the position found, or none at all |
| `PacketHandler.Handler.AddToRcvBuffer` | stm32/src/serial/packetHandler.c:86-94 | a byte is appended; the byte that overflows is written one cell past the end, and lost as the older half is dropped; the counter stays within 0..128 |
| `PacketHandler.Handler.constructor` | stm32/src/serial/packetHandler.c:44-52 | the buffer starts out empty |
| `PacketHandler.Strnshift` | stm32/src/serial/packetHandler.c:174-178 | cells move to the front as far as they lie within the size; the others stay |
| `PacketHandler.GenerateChecksum` | stm32/src/serial/packetHandler.c:183-189 | the exclusive or of the data bytes |
| `PacketHandler.CopyBytes` | stm32/src/serial/packetHandler.c:129-130 | the byte-by-byte copies of the reader |
| `ControlLink.Run` | stm32/src/serial/packetHandler.c:86-156 | 0 <= bufferCounter <= 128 after every call in every run of appends and reads |
| `ControlLink.ReadsTerminate` | stm32/src/serial/packetHandler.c:136-137 | repeated reads stop succeeding, after at most bufferCounter - 6 of them |
| `ControlLink.RoundTrip` | stm32/src/serial/packetHandler.c:86-156 | from any buffer with room for a frame, feeding a frame and reading returns its payload, whatever was buffered |
| `ControlLink.DeliveredWasSent` | stm32/src/serial/packetHandler.c:107-156 | a read succeeds if and only if some frame as the proxy sends it, header, checksum and comma, is buffered byte for byte, and it delivers the payload of the latest one |
| `ControlLink.DamagedFrameIgnored` | stm32/src/serial/packetHandler.c:133 | a frame damaged in any one of its seven bytes, fed to an empty buffer, is never delivered |
| `ControlLink.FrameEndIff` | stm32/src/serial/packetHandler.c:116-133 | the parser accepts the seven bytes 34 3A a b c a^b^c 2C and nothing else |
| `ControlLink.ControlFrameBytes` | Odroid/AutoTuxProxy/src/proxy/Proxy.cpp:163-177 | which is what the proxy sends |
| `ControlLink.RoundTripIff` | stm32/src/serial/packetHandler.c:86-94 | every payload gets through if and only if the frame fits, or the buffer is exactly full and ends in the digit of a frame header |
| `ControlLink.OverflowingFrame` | stm32/src/serial/packetHandler.c:87-93 | a frame that overflows the buffer arrives short of exactly one byte, behind the newer half |
| `ControlLink.BrokenFrameIgnored` | stm32/src/serial/packetHandler.c:86-156 | after an overflow breaks a comma-free frame, what the read finds does not depend on the frame |
| `ControlLink.FirstFrameLost` | stm32/src/serial/packetHandler.c:86-156 | so of two payloads at least one is lost |
| `ControlLink.DigitReplaced` | stm32/src/serial/packetHandler.c:86-156 | the one case in which a frame survives the loss of a byte |
| `ControlLink.OlderFrameIff` | stm32/src/serial/packetHandler.c:133-145 | against the comment: behind the cells that were moved the next read finds a frame if and only if there is an older frame there, and then it delivers the latest such one |
| `ControlLink.KeptFrameIff` | stm32/src/serial/packetHandler.c:174-178 | which frames stay where they are |
| `ControlLink.BeyondStays` | stm32/src/serial/packetHandler.c:174-178 | cells beyond the packet stay in place with their frames, for a later read to bring along |
| `ControlLink.MovedFrameIff` | stm32/src/serial/packetHandler.c:174-178 | which frames are moved to the front, also from beyond what was buffered |
| `ControlLink.OlderFrameSurvives` | stm32/src/serial/packetHandler.c:133-137 | in particular an older frame that lies wholly behind the moved cells survives the read, with its payload |
| `ControlLink.StaleFrameReturns` | stm32/src/serial/packetHandler.c:136-137 | a stale frame at or beyond bufferCounter becomes readable again |
| `ControlLink.LowerHalfReadsStale` | stm32/src/serial/packetHandler.c:136-137 | if the packet ended in the lower half of the buffer, the next read succeeds if and only if such a stale frame is among the cells that were moved, and delivers the latest one |
| `ControlLink.UpperHalfReads` | stm32/src/serial/packetHandler.c:133-145 | if the packet ended at e in the upper half, the next read finds exactly what the cells e..128 followed by the unmoved cells 128 - e..e hold, frames across that seam included, and delivers the latest one |
| `ControlLink.SecondFrameReturns` | stm32/src/serial/packetHandler.c:86-156 | a run from the empty buffer, for all payloads of the first and all comma-free payloads of the second of two frames: three reads deliver the second, the first and the second once more |
| `ControlLink.CommaRepeatsFrame` | stm32/src/serial/packetHandler.c:136-137 | after a read of a packet that ends late enough, a single comma makes the next read deliver it again |
| `ControlLink.PacketEndStays` | stm32/src/serial/packetHandler.c:135-137 | against the comment: after every successful read the closing comma of the packet is still buffered |
| `ControlLink.ContToVec` | Odroid/AutoTuxProxy/src/proxy/Proxy.cpp:131-178 | the seven bytes of a control frame |
| `ControlLink.Checksum` | Odroid/AutoTuxProxy/src/proxy/Proxy.cpp:180-187 | the loop computes the exclusive or of the bytes |
| `ControlLink.DegreesCutOff` | Odroid/AutoTuxProxy/src/proxy/Proxy.cpp:137 | the angle in degrees is cut off towards zero |
| `ControlLink.AngleKept` | Odroid/AutoTuxProxy/src/proxy/Proxy.cpp:137-138 | the angle byte is the angle plus 90 if and only if the angle is in -90..165 degrees |
| `ControlLink.LampsKept` | Odroid/AutoTuxProxy/src/proxy/Proxy.cpp:157-160 | each of the four lamps can be read off its own bit, and there are no other bits |
| `SensorLink.Send` | stm32/src/serial/packetHandler.c:65-76 | the printed packet: decimal size with checksum, colon, data, checksum, comma |
| `SensorLink.PrintersAgree` | stm32/src/serial/packetHandler.c:65-76 | for three bytes the printer of the board prints the control frame of the proxy |
| `SensorLink.SerialBuffer.constructor` | Odroid/AutoTuxProxy/src/serial/SerialBuffer.cpp:26-33 | both buffers start out empty |
| `SensorLink.SerialBuffer.AppendReceiveBuffer` | Odroid/AutoTuxProxy/src/serial/SerialBuffer.cpp:45-111 | the backward scan stores the payload it finds and nothing else |
| `SensorLink.SerialBuffer.ReadReceiveBuffer` | Odroid/AutoTuxProxy/src/serial/SerialBuffer.cpp:115-132 | returns the stored packet, or nothing |
| `SensorLink.SerialBuffer.AppendSendBuffer` | Odroid/AutoTuxProxy/src/serial/SerialBuffer.cpp:136-151 | keeps the newest packet only |
| `SensorLink.SerialBuffer.ReadSendBuffer` | Odroid/AutoTuxProxy/src/serial/SerialBuffer.cpp:155-172 | returns the packet to send, or nothing |
| `SensorLink.ScanFindsValid` | Odroid/AutoTuxProxy/src/serial/SerialBuffer.cpp:58-108 | the scan returns a checksum-valid packet, or every position it inspected holds none |
| `SensorLink.PassedOverIff` | Odroid/AutoTuxProxy/src/serial/SerialBuffer.cpp:97-99 | a valid packet is passed over if and only if an inspected packet with a bad checksum ends at most 16 positions behind it |
| `SensorLink.DamagedHidesLastByte` | Odroid/AutoTuxProxy/src/serial/SerialBuffer.cpp:97-99 | whatever directly precedes a packet with a bad checksum fares as if its last byte had not arrived |
| `SensorLink.ValidThenDamagedIsLost` | Odroid/AutoTuxProxy/src/serial/SerialBuffer.cpp:97-99 | so a valid packet that such a packet follows directly is always lost |
| `SensorLink.SensorRoundTrip` | Odroid/AutoTuxProxy/src/serial/SerialBuffer.cpp:45-132 | for every 11-byte payload and every prefix in the chunk, the printed packet is read back |
| `SensorLink.StoredPacketIsGenuine` | Odroid/AutoTuxProxy/src/serial/SerialBuffer.cpp:45-132 | in every run the stored packet is empty, or some chunk contains it byte for byte as the board prints it |
| `SensorLink.ValidIff` | Odroid/AutoTuxProxy/src/serial/SerialBuffer.cpp:58-88 | the scanner accepts the packets of the printer and nothing else |
| `SensorLink.SensorPacketBytes` | stm32/src/serial/packetHandler.c:65-76 | a sensor packet is 31 32 3A, eleven bytes, their checksum, 2C |
| `SensorLink.DecimalStandsFor` | stm32/src/serial/packetHandler.c:68 | the size is printed in decimal digits that stand for it, without leading zeros |
| `SensorLink.GetData` | stm32/src/sensorInput.c:66-91 | the eleven bytes, each call of a getter seeing a value of its own |
| `SensorLink.DistanceRejoined` | Odroid/AutoTuxProxy/src/containerfactory/VDContainer.cpp:37-40 | the four distance bytes join to the 32-bit distance that was split |
| `SensorLink.OdometerArrives` | Odroid/AutoTuxProxy/src/containerfactory/VDContainer.cpp:31-42 | sensor bytes printed, scanned and joined give what the four calls saw of the odometer, so the odometer exactly if it did not move meanwhile; and a speed that does not change, up to 255 cm/s |
| `SensorLink.TornIff` | stm32/src/sensorInput.c:82-86 | the last odometer value arrives if and only if none of the bytes taken before it has changed |
| `SensorLink.TornFallsBack` | stm32/src/sensorInput.c:82-86 | if it moves on by less than 2.56 m between the four calls and does not overflow, either its last value arrives or one below all four that were seen |
| `SensorLink.TornOdometer` | stm32/src/sensorInput.c:82-86 | an input on which it does not: one centimetre at the wrong moment makes 2.56 m arrive as zero |
| `SensorLink.SensorsArrive` | Odroid/AutoTuxProxy/src/containerfactory/SBDContainer.cpp:29-43 | through the wire and the reordering at its end every distance arrives exactly as its driver reported it, in centimetres up to 90 or 28, under the key the decision maker uses for that sensor; the rear one if and only if the driver did not say zero |
| `SensorLink.RearArrivesIff` | stm32/src/hardware/hardwareIR.c:76-112 | the rear distance arrives if and only if a conversion has completed |
| `SensorLink.InfraredIsPositive` | stm32/src/hardware/hardwareIR.c:91-112 | the infrared distance is zero before the first conversion and from 1 to 579 ever after |
| `SensorLink.InfraredFollows` | stm32/src/hardware/hardwareIR.c:91-112 | each sample takes the infrared distance half of the way to its own, and not past it |
| `SensorLink.CappedMetres` | stm32/src/sensorInput.c:69-76 | a value that its driver caps below 255 passes unchanged |
| `SensorLink.RearMetres` | stm32/src/sensorInput.c:77-78 | the rear distance passes unchanged if and only if it is not zero |
| `RcMode.FlipIsArmed` | stm32/src/controlOutput.c:215-242 | RC mode changes only at a centred sample with at most nine others since step 1 was completed |
| `RcMode.TurnsOnOnly` | stm32/src/controlOutput.c:193-250 | it turns on only after at least 21 samples in (2060, 2400) with none at or below 2060 between, and a sample in (1540, 1640) at most ten later |
| `RcMode.TurnsOffOnly` | stm32/src/controlOutput.c:193-250 | it turns off only after 21 consecutive samples below 1140 and one in (1540, 1640) at most ten later |
| `RcMode.FlipsFarApart` | stm32/src/controlOutput.c:180-252 | two flips are at least 22 calls apart |
| `RcMode.ArmingsFarApart` | stm32/src/controlOutput.c:215-219 | step 1 of the gesture is completed at most every 22 calls, because waiting for step 2 clears both counters |
| `RcMode.GestureTurnsOn` | stm32/src/controlOutput.c:193-250 | conversely, 21 samples in (2060, 2400), at most nine outside (1540, 1640) and one within do turn it on |
| `RcMode.GestureTurnsOff` | stm32/src/controlOutput.c:193-250 | and 21 samples below 1140, at most nine outside (1540, 1640) and one within turn it off |
| `RcMode.RunRemembers` | stm32/src/controlOutput.c:181-184 | what the static counters remember of every run |
| `RcMode.RightStreakMeans` | stm32/src/controlOutput.c:248-250 | the counted samples to the right lie in one stretch above the threshold |
| `RcMode.LeftStreakMeans` | stm32/src/controlOutput.c:245-247 | the counted samples to the left are consecutive |
| `ControlOutput.Failsafe` | stm32/src/controlOutput.c:81-147 | after six automatic iterations without new data every further one outputs 1400 and 1590, whatever RC and brake iterations lie between, unless the nested check turned RC mode on |
| `ControlOutput.FailsafeInEveryRun` | stm32/src/controlOutput.c:68-147 | in every run of data and iterations: once the data last received has been output, six automatic iterations later every further one outputs 1400 and 1590, until new data comes or RC mode takes over within it |
| `ControlOutput.QuietCountsFromNew` | stm32/src/controlOutput.c:98-121 | new data is output once, and the counter then counts from zero |
| `ControlOutput.QuietCounts` | stm32/src/controlOutput.c:110-121 | the counter counts automatic iterations and nothing else |
| `ControlOutput.NoEarlyStop` | stm32/src/controlOutput.c:113-120 | before the sixth, the outputs stay as they are |
| `ControlOutput.NoTakeoverWithoutInterrupt` | stm32/src/controlOutput.c:139-142 | the nested check cannot turn RC mode on unless the pulse widths changed within the iteration |
| `ControlOutput.QuietStep` | stm32/src/controlOutput.c:81-123 | what one iteration does to the counter |
| `ControlOutput.QuietBounded` | stm32/src/controlOutput.c:82-120 | the counter stays at most six in every run |
| `ControlOutput.CommandReachesOutputs` | stm32/src/controlOutput.c:98-110 | a command that fits the receive buffer is read back, drives motor and servo to the pulse widths of its speed and angle, and its lamps are passed on |
| `ControlOutput.NewDataDrives` | stm32/src/controlOutput.c:98-110 | what an automatic iteration does with new data |
| `ControlDriving.IterationDrives` | stm32/src/controlOutput.c:81-127 | what each kind of iteration does with motor, servo and lights, for every state and all values seen: RC mode, the brake of the transmitter, new data, and none |
| `ControlDriving.ServoTurnsTo` | stm32/src/hardware/hardwarePWM.c:54-68 | the servo turns in proportion from 1220 at 60 degrees over 1590 at 90 to 1980 at 120, and no further |
| `ControlDriving.ThrottleForwards` | stm32/src/controlOutput.c:157-169 | the throttle of the transmitter reaches the motor at a fifth of its way forwards and seven tenths of its way backwards |
| `ControlDriving.FailsafeForgetsAngle` | stm32/src/controlOutput.c:138-147 | once the failsafe has run, the brake of the transmitter centres as well |
| `ControlDriving.SwitchFollows` | stm32/src/controlOutput.c:153-156 | in every run of data and iterations, the RC switch is where the samples seen with a signal on the throttle have brought it |
| `ControlDriving.RcModeNeedsGesture` | stm32/src/controlOutput.c:180-252 | so in every such run RC mode is on only if those samples contain the gesture |
| `ControlDriving.LedBlinks` | stm32/src/controlOutput.c:188-227 | the LED shows the mode, and changes with every look between the two steps of the gesture |
| `ControlOutput.SpeedSteps` | stm32/src/hardware/hardwarePWM.c:69-75 | every speed byte of the proxy selects an existing pulse width |
| `ControlOutput.ServoPulseRange` | stm32/src/hardware/hardwarePWM.c:54-68 | servo pulses stay in range, rise with the angle, and are centred only at 90 |
| `ControlOutput.Pwm.constructor` | stm32/src/hardware/hardwarePWM.c:45-47 | the outputs start stopped and centred |
| `ControlOutput.Pwm.SetServo` | stm32/src/hardware/hardwarePWM.c:55-68 | the servo channel |
| `ControlOutput.Pwm.SetEsc` | stm32/src/hardware/hardwarePWM.c:69-75 | the motor channel; a step that does not exist leaves it alone |
| `ControlOutput.Pwm.SetValuesRC` | stm32/src/hardware/hardwarePWM.c:82-85 | pulse widths passed through |
| `ControlOutput.Controller.constructor` | stm32/src/controlOutput.c:37-45 | the initial state |
| `ControlOutput.Controller.ControlOutputSetData` | stm32/src/controlOutput.c:68-76 | new data is copied and marked new |
| `ControlOutput.Controller.ControlOutputIteration` | stm32/src/controlOutput.c:81-127 | one iteration: RC mode, transmitter brake, new data, failsafe, and what the lights are told; every look at the transmitter sees values of its own |
| `ControlOutput.Controller.ControlOutputStopCenter` | stm32/src/controlOutput.c:138-147 | stop and centre, unless RC mode |
| `ControlOutput.Controller.HandleRCMode` | stm32/src/controlOutput.c:153-174 | RC values are attenuated and forwarded |
| `ControlOutput.Controller.RcModeCheck` | stm32/src/controlOutput.c:180-252 | the counters of the RC switch, and its LED |
| `MemTestTheorems.HealthyNeverReports` | stm32/lib/ChibiOS_16.1.4/community/os/various/memtest.cpp:165-187 | a healthy area of any size never triggers the callback, with any generator, width and seed |
| `MemTestTheorems.ReportNamesFaultyWord` | stm32/lib/ChibiOS_16.1.4/community/os/various/memtest.cpp:179-186 | every report points at a word with a stuck bit or a shared cell |
| `MemTestTheorems.MovingInversionIff` | stm32/lib/ChibiOS_16.1.4/community/os/various/memtest.cpp:208-215 | the two passes call back if and only if a covered word has a stuck bit or two covered words of different parity share a cell |
| `MemTestTheorems.StuckReports` | stm32/lib/ChibiOS_16.1.4/community/os/various/memtest.cpp:208-215 | any non-empty set of stuck bits in a covered word makes one of the passes report |
| `MemTestTheorems.OwnAddressDetects` | stm32/lib/ChibiOS_16.1.4/community/os/various/memtest.cpp:202-205 | any two covered words that share a cell and whose indices differ modulo 2^width make the own-address test report |
| `MemTestTheorems.OwnAddressIff` | stm32/lib/ChibiOS_16.1.4/community/os/various/memtest.cpp:202-205 | without stuck bits it reports exactly those, under its own tag |
| `MemTestTheorems.OwnAddressPattern` | stm32/lib/ChibiOS_16.1.4/community/os/various/memtest.cpp:86-96 | the wrapping counter emits the index modulo 2^width |
| `MemTestWalking.WalkingIff` | stm32/lib/ChibiOS_16.1.4/community/os/various/memtest.cpp:190-199 | a walking test calls back if and only if some bit of a covered word is stuck against the walking bit, or two covered words share a cell at which it stands differently; and its tag says which test it is |
| `MemTestWalking.BitWalks` | stm32/lib/ChibiOS_16.1.4/community/os/various/memtest.cpp:44-78 | word i gets bit i modulo the width |
| `MemTestWalking.ReportTells` | stm32/lib/ChibiOS_16.1.4/community/os/various/memtest.cpp:179-186 | up to 32 bits the callback is told two different values, what was read and what was wanted; beyond, it is told the same value twice if and only if their low halves agree |
| `MemTestWalking.AreaCovered` | stm32/lib/ChibiOS_16.1.4/community/os/various/memtest.cpp:167 | the words covered are those that lie wholly within the area |
| `MemTestWalking.FivesAre` | stm32/lib/ChibiOS_16.1.4/community/os/various/memtest.cpp:218-225 | the seeds of the 0x55 test |
| `MemTestTheorems.MovingTags` | stm32/lib/ChibiOS_16.1.4/community/os/various/memtest.cpp:109-114 | the tag of a report tells the two moving inversions apart, although it is read after the pattern has moved on |
| `MemTest.MemtestSequential` | stm32/lib/ChibiOS_16.1.4/community/os/various/memtest.cpp:165-187 | the first mismatch between what was written and what is read back is reported, if there is a callback; otherwise nothing |
| `MemTest.FillRam` | stm32/lib/ChibiOS_16.1.4/community/os/various/memtest.cpp:172-175 | each cell holds what the last write to it put there |
| `MemTest.ReadBack` | stm32/lib/ChibiOS_16.1.4/community/os/various/memtest.cpp:177-186 | the replayed generator and the first mismatch |
| `MemTest.Generator.Init` | stm32/lib/ChibiOS_16.1.4/community/os/various/memtest.cpp:35-37 | seeding |
| `MemTest.Generator.Get` | stm32/lib/ChibiOS_16.1.4/community/os/various/memtest.cpp:46-115 | the four generators, with wrap-around |
| `MemTest.WalkingOneTest` | stm32/lib/ChibiOS_16.1.4/community/os/various/memtest.cpp:190-193 | the walking-one test |
| `MemTest.WalkingZeroTest` | stm32/lib/ChibiOS_16.1.4/community/os/various/memtest.cpp:196-199 | the walking-zero test |
| `MemTest.OwnAddressTest` | stm32/lib/ChibiOS_16.1.4/community/os/various/memtest.cpp:202-205 | the own-address test |
| `MemTest.MovingInversionZero` | stm32/lib/ChibiOS_16.1.4/community/os/various/memtest.cpp:208-215 | moving inversion of zero |
| `MemTest.MovingInversion55AA` | stm32/lib/ChibiOS_16.1.4/community/os/various/memtest.cpp:218-225 | moving inversion of 0x55 |
| `IrqStormTheorems.Conservation` | stm32/lib/ChibiOS_16.1.4/testhal/common/irq_storm.c:84-167 | in every interleaving each message that was injected, and no other, is queued, in hand, out of the chain or dropped, exactly once |
| `IrqStormTheorems.RunNumbers` | stm32/lib/ChibiOS_16.1.4/testhal/common/irq_storm.c:144-167 | messages are numbered in the order of their injection |
| `IrqStormTheorems.LossIff` | stm32/lib/ChibiOS_16.1.4/testhal/common/irq_storm.c:127-151 | a message is lost if and only if the mailbox it is posted to holds as many messages as it has room for |
| `IrqStormTheorems.FillsUp` | stm32/lib/ChibiOS_16.1.4/testhal/common/irq_storm.c:144-153 | from the start the first mailbox takes as many injected messages as it has room for, without loss and with the flag down; the next one is lost and raises it |
| `IrqStormTheorems.SaturatedMeansDropped` | stm32/lib/ChibiOS_16.1.4/testhal/common/irq_storm.c:127-129 | in every interleaving, a message dropped since the flag was last cleared means that the flag is up or some thread, between its post and its store, is about to raise it; if none was at the last clear and none is now, the flag is up if and only if a message was dropped since |
| `IrqStormTheorems.FlagComesLate` | stm32/lib/ChibiOS_16.1.4/testhal/common/irq_storm.c:127-129 | a run in which both conditions fail: a loss with the flag still down, and a late store that raises it after it was cleared |
| `IrqStormTheorems.RunFlag` | stm32/lib/ChibiOS_16.1.4/testhal/common/irq_storm.c:127-129 | the invariant behind it |
| `IrqStormTheorems.SurvivorsKeepOrder` | stm32/lib/ChibiOS_16.1.4/testhal/common/irq_storm.c:118-130 | in every interleaving the survivors of one direction leave in injection order |
| `IrqStormTheorems.RunInOrder` | stm32/lib/ChibiOS_16.1.4/testhal/common/irq_storm.c:84-167 | the invariant: all messages of a direction still alive, from the exit to the entry, are in injection order |
| `IrqStormTheorems.ThreadStepDrains` | stm32/lib/ChibiOS_16.1.4/testhal/common/irq_storm.c:95-138 | every step of a thread that can run lowers what is left to do: remaining hops and losses to be reported |
| `IrqStormTheorems.DrainIsBounded` | stm32/lib/ChibiOS_16.1.4/testhal/common/irq_storm.c:260-261 | with the timers stopped, no schedule is longer than that total |
| `IrqStormTheorems.NoDeadlock` | stm32/lib/ChibiOS_16.1.4/testhal/common/irq_storm.c:97-98 | no thread can run if and only if no message is left in the chain and no loss is left to be reported |
| `IrqStormTheorems.DrainedChainLosesNothing` | stm32/lib/ChibiOS_16.1.4/testhal/common/irq_storm.c:84-167 | then every injected message has left the chain or was dropped, and a loss since the last clear is on the flag |
| `IrqStorm.SweepFalls` | stm32/lib/ChibiOS_16.1.4/testhal/common/irq_storm.c:237-259 | the intervals fall strictly, by a tenth rounded up, never pass below two, and an uninterrupted sweep ends at two |
| `IrqStormTheorems.ThresholdIsFirst` | stm32/lib/ChibiOS_16.1.4/testhal/common/irq_storm.c:232-259 | whatever happens at each interval: before the threshold, or in the whole sweep if it is zero, a loss since the iteration cleared the flag is only possible while some thread is still about to raise it; and a nonzero threshold means a loss since then, if no thread was about to raise the flag as it was cleared |
| `IrqStormTheorems.QuietThreshold` | stm32/lib/ChibiOS_16.1.4/testhal/common/irq_storm.c:232-259 | so if no thread is about to raise the flag whenever it is cleared or read, the threshold is the first interval of the sweep at whose end a message had been dropped since it was cleared, or zero if none was |
| `IrqStormTheorems.RunKeepsFlag` | stm32/lib/ChibiOS_16.1.4/testhal/common/irq_storm.c:127-129 | while nothing clears the flag it keeps its meaning, with respect to the same clear |
| `IrqStormTheorems.WorstIsGreatest` | stm32/lib/ChibiOS_16.1.4/testhal/common/irq_storm.c:263-264 | the worst case is the greatest threshold of all iterations |
| `IrqStorm.Chain.SweepOnce` | stm32/lib/ChibiOS_16.1.4/testhal/common/irq_storm.c:233-259 | the interval loop on the chain |
| `IrqStorm.Chain.Execute` | stm32/lib/ChibiOS_16.1.4/testhal/common/irq_storm.c:228-265 | the test loop on the chain |
| `IrqStorm.Chain.Storming` | stm32/lib/ChibiOS_16.1.4/testhal/common/irq_storm.c:239-248 | timers and threads run for a while |
| `IrqStorm.Chain.constructor` | stm32/lib/ChibiOS_16.1.4/testhal/common/irq_storm.c:190-192 | empty mailboxes |
| `IrqStorm.Chain.MbPost` | stm32/lib/ChibiOS_16.1.4/testhal/common/irq_storm.c:127 | a post that does not wait; whether the message was taken or lost is returned |
| `IrqStorm.Chain.SendOn` | stm32/lib/ChibiOS_16.1.4/testhal/common/irq_storm.c:127-128 | the post of a thread, which is about to raise the flag if it lost the message |
| `IrqStorm.Chain.ThreadRaise` | stm32/lib/ChibiOS_16.1.4/testhal/common/irq_storm.c:129 | the store to the flag, a step after the post |
| `IrqStorm.Chain.Gpt1Callback` | stm32/lib/ChibiOS_16.1.4/testhal/common/irq_storm.c:144-153 | injection at the left end |
| `IrqStorm.Chain.Gpt2Callback` | stm32/lib/ChibiOS_16.1.4/testhal/common/irq_storm.c:158-167 | injection at the right end |
| `IrqStorm.Chain.ThreadFetch` | stm32/lib/ChibiOS_16.1.4/testhal/common/irq_storm.c:97-98 | a fetch |
| `IrqStorm.Chain.ThreadForward` | stm32/lib/ChibiOS_16.1.4/testhal/common/irq_storm.c:118-137 | a message is passed on, dropped, or leaves the chain; the target below zero wraps beyond it |
| `IrqStorm.Chain.ClearSaturated` | stm32/lib/ChibiOS_16.1.4/testhal/common/irq_storm.c:232 | the flag is cleared |
| `TriBuf.StaysPermutation` | stm32/lib/ChibiOS_16.1.4/community/os/various/tribuf.c:62-188 | in every interleaving front, back and orphan are a permutation of the three buffers, and at most one signal is pending |
| `TriBuf.AtomicConsumerGetsNewest` | stm32/lib/ChibiOS_16.1.4/community/os/various/tribuf.c:107-116 | if wait and front swap are one step, every delivery is the newest published frame and frame numbers strictly increase |
| `TriBuf.OrderlyConsumerGetsNewest` | stm32/lib/ChibiOS_16.1.4/community/os/various/tribuf.c:172-188 | with wait and swap apart, the same holds in every run in which no frame is published between a wait and its swap |
| `TriBuf.OverlapBreaksOrder` | stm32/lib/ChibiOS_16.1.4/community/os/various/tribuf.c:182-184 | from every run that leaves the consumer between the two, a frame published at that moment leads to deliveries out of order |
| `TriBuf.SplitGoesBackwards` | stm32/lib/ChibiOS_16.1.4/community/os/various/tribuf.c:182-184 | a concrete such run from the start: newest frame first, an older one after it |
| `TriBuf.SwapDeliversNewestIff` | stm32/lib/ChibiOS_16.1.4/community/os/various/tribuf.c:107-116 | in every interleaving a front swap delivers the newest, undelivered frame if and only if one was published since the previous front swap |
| `TriBuf.SignalIff` | stm32/lib/ChibiOS_16.1.4/community/os/various/tribuf.c:182-184 | in every interleaving the pending signal announces a new frame or an overlap of publishing and waiting, and is up whenever there is one |
| `TriBuf.FrontIsStable` | stm32/lib/ChibiOS_16.1.4/community/os/various/tribuf.c:172-188 | the producer never touches the buffer the consumer reads |
| `TriBuf.RunTracks` | stm32/lib/ChibiOS_16.1.4/community/os/various/tribuf.c:62-188 | where the newest frame is, in every interleaving |
| `TriBuf.Tribuf.ObjectInit` | stm32/lib/ChibiOS_16.1.4/community/os/various/tribuf.c:62-72 | initialisation |
| `TriBuf.Tribuf.SwapFrontI` | stm32/lib/ChibiOS_16.1.4/community/os/various/tribuf.c:107-116 | the front swap |
| `TriBuf.Tribuf.SwapBackI` | stm32/lib/ChibiOS_16.1.4/community/os/various/tribuf.c:172-188 | the back swap, with the signal given at most once |
| `TriBuf.Tribuf.WaitReady` | stm32/lib/ChibiOS_16.1.4/community/os/various/tribuf.h:167-170 | taking the signal |
| `Shell.TokensAreRuns` | stm32/lib/ChibiOS_16.1.4/os/various/shell.c:37-52 | repeated calls return the starts of the runs of the line, left to right, and then NULL for ever |
| `Shell.TokensStay` | stm32/lib/ChibiOS_16.1.4/os/various/shell.c:46-51 | every returned token stays a string of its own, equal to its run, however many calls follow |
| `Shell.RunsAreMaximal` | stm32/lib/ChibiOS_16.1.4/os/various/shell.c:46-51 | the runs are exactly the maximal delimiter-free intervals |
| `Shell.RunsAscend` | stm32/lib/ChibiOS_16.1.4/os/various/shell.c:46-51 | the runs are listed from left to right with a delimiter between any two |
| `Shell.TokTakesRun` | stm32/lib/ChibiOS_16.1.4/os/various/shell.c:37-52 | one call hands out the next run, ends it with NUL and moves past it |
| `Shell.ShellThread.GetLine` | stm32/lib/ChibiOS_16.1.4/os/various/shell.c:268-301 | the line read is the fold of the keys up to return, NUL-terminated within the size, nothing beyond the size is written, and what is echoed; control-D or the end of input logs out |
| `Shell.ScreenShowsText` | stm32/lib/ChibiOS_16.1.4/os/various/shell.c:276-299 | while a line is typed, a terminal that shows the echo shows exactly the text stored, and blanks where it was erased |
| `Shell.TextIsPlain` | stm32/lib/ChibiOS_16.1.4/os/various/shell.c:280-299 | the text fits with its NUL and holds no control characters and no erasures |
| `Shell.PlainKeysAreKept` | stm32/lib/ChibiOS_16.1.4/os/various/shell.c:296-299 | plain keys are kept as typed, up to the size of the line |
| `Shell.EraseUndoesIff` | stm32/lib/ChibiOS_16.1.4/os/various/shell.c:280-288 | erasing takes back the last plain key if and only if that key was not dropped for want of room, or the line is empty |
| `Shell.ControlsAreDropped` | stm32/lib/ChibiOS_16.1.4/os/various/shell.c:294-295 | dropped control characters might as well not have been typed |
| `Shell.CommandArrives` | stm32/lib/ChibiOS_16.1.4/os/various/shell.c:147-161 | plain words typed with blanks between them, if they fit, are the runs of the line that is read |
| `Shell.ShellThread.StrTok` | stm32/lib/ChibiOS_16.1.4/os/various/shell.c:37-52 | the tokeniser on the line in place |
| `Shell.ShellThread.SplitLine` | stm32/lib/ChibiOS_16.1.4/os/various/shell.c:151-162 | the command and at most SHELL_MAX_ARGUMENTS arguments; with more there is no command |
| `Shell.ShellThread.ReadCommand` | stm32/lib/ChibiOS_16.1.4/os/various/shell.c:147-162 | what was typed, read and cut up: command and arguments are the first runs of the text |
| `OvertakerTheorems.RunConsistent` | Odroid/DecisionMaker/src/overtaker/Overtaker.cpp:23-135 | in every run without an idle reset outside FREE_LANE the four flags are functions of the state and states follow the nine-state cycle |
| `OvertakerTheorems.ResetBreaksFlags` | Odroid/DecisionMaker/src/overtaker/Overtaker.cpp:165-183 | after an idle reset outside FREE_LANE the flags fit the state if and only if it came out of LEFT_SWITCH with four readings counted and a front reading in [0, 7) |
| `OvertakerWitnesses.ResetStrandsFlags` | Odroid/DecisionMaker/src/overtaker/Overtaker.cpp:165-183 | a run from the start in which that reset fires: an overtake that never gets moving is given up with the controls overridden and the left lamps flashing |
| `OvertakerTheorems.AverageFromEntry` | Odroid/DecisionMaker/src/overtaker/Overtaker.cpp:411-422 | in every run RIGHT_SWITCH is entered after as many angles as are missing to five at the entry of COMPUTE_ANGLE, at least one, with a fifth of their sum and of what was left from before; they are exactly five, and their mean, if and only if the counter was zero at entry |
| `OvertakerTheorems.MeanOfFive` | Odroid/DecisionMaker/src/overtaker/Overtaker.cpp:411-422 | in every run without an idle reset outside FREE_LANE, the recommendation on entering RIGHT_SWITCH is the mean of the lane angles of exactly the five frames seen in COMPUTE_ANGLE |
| `OvertakerWitnesses.MeanOutlivesReset` | Odroid/DecisionMaker/src/overtaker/Overtaker.cpp:165-183 | a run with such a reset: the second overtake leaves COMPUTE_ANGLE after one angle of -0.2 and recommends -0.02 |
| `OvertakerTheorems.StartReadings` | Odroid/DecisionMaker/src/overtaker/Overtaker.cpp:188-205 | in every run an overtake starts only on consecutive front readings in [0, 7), up to the frame in which it starts: five of them, or fewer if an idle reset outside FREE_LANE fired at the first of them with readings of another kind counted that make them five |
| `OvertakerTheorems.StartsAfterFive` | Odroid/DecisionMaker/src/overtaker/Overtaker.cpp:188-205 | in every run without an idle reset outside FREE_LANE, an overtake starts only after five consecutive front readings in [0, 7) |
| `OvertakerWitnesses.OneReadingStarts` | Odroid/DecisionMaker/src/overtaker/Overtaker.cpp:165-183 | a run with such a reset: one front reading starts an overtake |
| `OvertakerTheorems.SearchAfterDistance` | Odroid/DecisionMaker/src/overtaker/Overtaker.cpp:257-273 | in every run with a non-decreasing odometer, resets included, SEARCH_END is entered only after the odometer advanced more than 3.0 + 3.6 since the overtake started |
| `OvertakerManoeuvres.FiveAwaitedIff` | Odroid/DecisionMaker/src/overtaker/Overtaker.cpp:278-299 | in every run: from SEARCH_END on if and only if no reset fires and five frames in a row since its entry had the front-right ultrasonic value outside [0, 3) and both infrared values in [0, 7); and from REACH_END on with the ultrasonic value outside [0, 8) and both infrared values outside [0, 7) (lines 343 to 365) |
| `OvertakerManoeuvres.FiveReadingsStart` | Odroid/DecisionMaker/src/overtaker/Overtaker.cpp:188-205 | in every run, five front readings in [0, 7) in a row do start an overtake |
| `OvertakerManoeuvres.CornerPassedIff` | Odroid/DecisionMaker/src/overtaker/Overtaker.cpp:227-252 | in every run the corner is passed if and only if no reset fires and a fifth reading lies beyond the nearest one of the turn, with none between them that saw nothing |
| `OvertakerManoeuvres.ManoeuvreEnds` | Odroid/DecisionMaker/src/overtaker/Overtaker.cpp:28-131 | in every run each manoeuvre by distance ends in the first frame more than 3.0, 3.6, 3.85, 4.0 or 4.2, 2.0 or 0.0 past its mark, the last two according to the recommendation, and not before |
| `OvertakerManoeuvres.PathIsMarked` | Odroid/DecisionMaker/src/overtaker/Overtaker.cpp:33-108 | the mark is the odometer on entering INIT_LEFT_SWITCH, ADJUST_LEFT_SWITCH, COMPUTE_ANGLE or ADJUST_RIGHT_SWITCH |
| `OvertakerManoeuvres.SteeringOfRun` | Odroid/DecisionMaker/src/overtaker/Overtaker.cpp:211-336 | in every run: the steering angle of each state as long as it lasts, straight on reaching the left lane and after a reset, and speed one throughout an overtake |
| `OvertakerManoeuvres.AveragingEnds` | Odroid/DecisionMaker/src/overtaker/Overtaker.cpp:411-422 | in every run COMPUTE_ANGLE is left if and only if no reset fires and the counter reaches five |
| `OvertakerManoeuvres.ResetIff` | Odroid/DecisionMaker/src/overtaker/Overtaker.cpp:165-183 | in every run the reset fires after every 125 frames in a row without odometer change, and in no other frame |
| `OvertakerTheorems.RunSound` | Odroid/DecisionMaker/src/overtaker/Overtaker.cpp:165-183 | what every run keeps, resets included: fewer than five readings are counted, and only in the states that count; a sum without angles is zero |
| `OvertakerTheorems.StandingStillResets` | Odroid/DecisionMaker/src/overtaker/Overtaker.cpp:165-183 | in every run, 125 frames without odometer change leave the machine in FREE_LANE or INIT_LEFT_SWITCH |
| `Overtaker.OvertakerObject.constructor` | Odroid/DecisionMaker/src/overtaker/Overtaker.cpp:15-17 | the initial state |
| `Overtaker.OvertakerObject.ObstacleDetection` | Odroid/DecisionMaker/src/overtaker/Overtaker.cpp:23-135 | one frame of the machine |
| `Overtaker.OvertakerObject.StartOvertake` | Odroid/DecisionMaker/src/overtaker/Overtaker.cpp:28-48 | the states FREE_LANE and INIT_LEFT_SWITCH |
| `Overtaker.OvertakerObject.SwitchLeft` | Odroid/DecisionMaker/src/overtaker/Overtaker.cpp:49-66 | the states LEFT_SWITCH and ADJUST_LEFT_SWITCH |
| `Overtaker.OvertakerObject.PassObstacle` | Odroid/DecisionMaker/src/overtaker/Overtaker.cpp:67-90 | the states SEARCH_END, REACH_END and COMPUTE_ANGLE |
| `Overtaker.OvertakerObject.SwitchRight` | Odroid/DecisionMaker/src/overtaker/Overtaker.cpp:91-133 | the states RIGHT_SWITCH and ADJUST_RIGHT_SWITCH |
| `Overtaker.OvertakerObject.ResetFSM` | Odroid/DecisionMaker/src/overtaker/Overtaker.cpp:165-183 | the idle reset |
| `Overtaker.OvertakerObject.CornerDetection` | Odroid/DecisionMaker/src/overtaker/Overtaker.cpp:227-252 | passing the corner of the obstacle |
| `Overtaker.OvertakerObject.SteerFor` | Odroid/DecisionMaker/src/overtaker/Overtaker.cpp:211-222 | steering until far enough; the same code drives the three later manoeuvres |
| `Overtaker.OvertakerObject.CheckReadingsCounter` | Odroid/DecisionMaker/src/overtaker/Overtaker.cpp:383-394 | counting readings up to five |
| `Overtaker.OvertakerObject.CountReading` | Odroid/DecisionMaker/src/overtaker/Overtaker.cpp:278-299 | a reading that does not count starts over |
| `Overtaker.OvertakerObject.ComputeLaneAngle` | Odroid/DecisionMaker/src/overtaker/Overtaker.cpp:411-422 | adding up lane angles |
| `Overtaker.OvertakerObject.SetLaneFollowerAngle` | Odroid/DecisionMaker/src/overtaker/Overtaker.cpp:151-153 | the angle of the lane follower |
| `ParkerTheorems.SpotIsReal` | Odroid/DecisionMaker/src/parker/Parker.cpp:281-322 | in every run a reported spot is real: an object closes a gap longer than 0.60 and at most 1.05, or the odometer is more than 1.05 past its start; nothing measured changes afterwards |
| `ParkerTheorems.PhasesInOrder` | Odroid/DecisionMaker/src/parker/Parker.cpp:188-276 | in every run parking phases advance in order or stop, and PHASE4 is entered only more than 0.56 + 0.66 past the point where PHASE1 began |
| `ParkerTheorems.StopIsForGood` | Odroid/DecisionMaker/src/decisionmaker/DecisionMaker.cpp:195-226 | SAFETYSTOP is absorbing and every later parallelPark yields speed zero, whatever frames lie between |
| `ParkerTheorems.SafetyStopIff` | Odroid/DecisionMaker/src/parker/Parker.cpp:77-84 | the stop is reached in exactly the frames in which one of five sensors reads between 0.04 and 0.06 while the car backs and has not been in the spot |
| `ParkerManoeuvres.InSpotAfterThree` | Odroid/DecisionMaker/src/parker/Parker.cpp:422-439 | in every run the car is taken to be in the spot only in the third checked frame in a row with all three sensors on the right outside [0.05, 0.25] |
| `ParkerManoeuvres.ThreeClearFrames` | Odroid/DecisionMaker/src/parker/Parker.cpp:422-439 | conversely, before the car creeps to its place, three such frames in a row are enough |
| `ParkerManoeuvres.CreepingStartsOver` | Odroid/DecisionMaker/src/parker/Parker.cpp:146-179 | creeping makes that count start over |
| `ParkerManoeuvres.ThreeReadings` | Odroid/DecisionMaker/src/parker/Parker.cpp:305-358 | in every run the search moves on only after three readings in a row of what it is after, an object within (0.05, 0.25) or a gap outside; or fewer, if a curve fired at the first of them with readings of another kind pending that make them three |
| `ParkerManoeuvres.ThreeReadingsMoveOn` | Odroid/DecisionMaker/src/parker/Parker.cpp:305-358 | conversely, three such readings in a row move it on, at the latest |
| `ParkerManoeuvres.OneObjectReading` | Odroid/DecisionMaker/src/parker/Parker.cpp:41-50 | a run in which a curve leaves two readings of a gap counted, and a single one of an object is taken for three |
| `ParkerManoeuvres.CurveIff` | Odroid/DecisionMaker/src/parker/Parker.cpp:41-51 | in every run the search starts over after every 30 frames in a row of steering beyond 0.42, and in no other |
| `ParkerManoeuvres.SpotIff` | Odroid/DecisionMaker/src/parker/Parker.cpp:281-303 | in every run a spot is reported if and only if the odometer is more than 1.05 past the third reading of the gap, or the third reading of the object that closed it was more than 0.60 past it |
| `ParkerManoeuvres.GapIsMeasured` | Odroid/DecisionMaker/src/parker/Parker.cpp:312-338 | start and end of a gap are where the search moved on |
| `ParkerManoeuvres.DrivesInRun` | Odroid/DecisionMaker/src/parker/Parker.cpp:118-276 | in every run, speed, steering and brake lights of each phase, and how far past the point where backing began it ends |
| `ParkerManoeuvres.OutOfSpotIff` | Odroid/DecisionMaker/src/parker/Parker.cpp:446-467 | in every run of the return to the lane: back until something is within 0.05, then forward, and out of the spot if and only if the odometer is 0.1 past the last frame of backing |
| `ParkerTheorems.RunMeasures` | Odroid/DecisionMaker/src/parker/Parker.cpp:39-72 | what has been measured when the space is checked, in every run |
| `ParkerTheorems.RunBacks` | Odroid/DecisionMaker/src/parker/Parker.cpp:188-276 | how far the car has come in each phase, in every run |
| `ParkerTheorems.RunStops` | Odroid/DecisionMaker/src/decisionmaker/DecisionMaker.cpp:195-226 | in every run the stop belongs to a reported spot in which the car is not parked |
| `Parker.ParkerObject.constructor` | Odroid/DecisionMaker/src/parker/Parker.cpp:17-32 | the initial state |
| `Parker.ParkerObject.FindSpotFrame` | Odroid/DecisionMaker/src/parker/Parker.cpp:39-72 | one frame of the search, and the curve that starts it over |
| `Parker.ParkerObject.FindObjectFrame` | Odroid/DecisionMaker/src/parker/Parker.cpp:345-359 | looking for an object |
| `Parker.ParkerObject.FindGapStartFrame` | Odroid/DecisionMaker/src/parker/Parker.cpp:326-341 | looking for the start of a gap |
| `Parker.ParkerObject.FindGapEndFrame` | Odroid/DecisionMaker/src/parker/Parker.cpp:295-322 | looking for the end of the gap |
| `Parker.ParkerObject.FindClosingObjectFrame` | Odroid/DecisionMaker/src/parker/Parker.cpp:305-321 | the object that closes it |
| `Parker.ParkerObject.CheckSpace` | Odroid/DecisionMaker/src/parker/Parker.cpp:281-290 | is the gap long enough |
| `Parker.ParkerObject.ParallelParkFrame` | Odroid/DecisionMaker/src/parker/Parker.cpp:77-114 | one frame of the parking |
| `Parker.ParkerObject.CheckIfInSpotFrame` | Odroid/DecisionMaker/src/parker/Parker.cpp:422-435 | has the car been in the spot |
| `Parker.ParkerObject.AdjustFrame` | Odroid/DecisionMaker/src/parker/Parker.cpp:262-276 | PHASE0 |
| `Parker.ParkerObject.BackAroundCornerFrame` | Odroid/DecisionMaker/src/parker/Parker.cpp:243-258 | PHASE1 |
| `Parker.ParkerObject.BackStraightFrame` | Odroid/DecisionMaker/src/parker/Parker.cpp:225-238 | PHASE2 |
| `Parker.ParkerObject.GetParallelFrame` | Odroid/DecisionMaker/src/parker/Parker.cpp:188-221 | PHASE3 |
| `Parker.ParkerObject.MidOfSpotFrame` | Odroid/DecisionMaker/src/parker/Parker.cpp:118-182 | PHASE4 |
| `Parker.ParkerObject.GoBackToLaneFrame` | Odroid/DecisionMaker/src/parker/Parker.cpp:446-467 | returning to the lane |
| `Parker.ParkerObject.CountReading` | Odroid/DecisionMaker/src/parker/Parker.cpp:347-352 | readings must agree in a row |

## Left out

- OverflowingFrame: says what remains of one frame that overflows the buffer; runs of several such frames are not summarised.
- AppendReceiveBuffer: the scan stops below index 15, where the iterator of the source would step before the beginning of the vector.
- AppendReceiveBuffer: the mutexes are not modelled; each call is one step.
- MovingInversionZero: the area is a sequence of words of the width under test, so overlap between words of different widths is not modelled.
- WaitReady: a wait that would block is a step that does nothing; fairness and timeouts of the semaphore are not modelled.
- GetLine: how a terminal takes the two erasing characters is assumed, as moving the cursor to the left.
- ControlOutputIteration: what the lights do with what they are told is not modelled.
- HandleRCMode: the attenuation is computed over reals, so rounding of the multiplication with 0.2 and 0.7 is not modelled.
- ContToVec: degrees and speed thresholds are computed over reals, so rounding of doubles is not modelled.
- Rounding of doubles in the overtaker and the parker: distances and angles are reals.
- The reading counters of the overtaker and the parker are unbounded; none is ever compared after an overflow.
- The random moving inversion of the memory tester, which depends on the C library's generator, and the dispatch over widths and test masks.
- The delay loops, the LED and the printed report of the storm.
- The build of the triple buffer without waiting: its flag is the counter of the model, which never passes one; nothing else differs.
- Commands of the shell, their execution, and the comparison of names.
- The loops of the serial connection, the USB transport and the threads that call these modules.
- Lane following, the camera, the stop-line counter and the lights of the decision maker.
- InfraredIsPositive: the ADC samples are parameters of at most twelve bits.
- IrValues: a call of the getter is one step; the source reads its variable twice, for the test against the cap and for the result.
- GetData: the ultrasonic averages, the wheel encoder's speed and odometer and the light sensor are parameters.
- ADC, ICU, PWM and I2C drivers.
- The ncurses configurator, the recorder, containers and conferences.
