# mochad: model and proofs

mochad is a gateway between text clients and an X10 controller (CM15A or CM19A) on USB. These modules model its
behaviour as a single-threaded state machine. Its inputs are bytes from clients, packets from the controller
and poll timeouts; clock readings come with the inputs. The state is the device tracker, the sensor table, the
duplicate filter, the two forwarding settings, the unfinished line, the output queue, and the replies sent so far, each
with the client it was sent to.

Everything is described twice and the two descriptions are connected:

* The C statics are classes over arrays (`HouseUnits`, `SensorTable`, `DupCache`, `X10Out`, `StrTok`,
  `ClientTables`, and `Gateway.Mochad`, which holds them all). Their methods follow the C loops and in-place updates.
* Pure functions give the value of the same state and the effect of each step (`Commands`, `System`). Every method
  is proved to do exactly what its function says, so `Gateway.Mochad.Encode`, `IntrIn` and `PollTimesOut` together
  refine `System.Step`.
* The lemmas are about those functions, over all inputs and all runs, and use independent definitions: the meaning of
  an event history, a gateway with an unbounded expiry map, a plain sequence of frames, a map of sensors, the words of
  a line.

| file | what it holds |
|---|---|
| `Common`, `Text`, `Codes` | bytes and clocks; C strings, `strtok`, numbers; code and name tables |
| `OutputQueue` | the 256-slot ring of `x10_write.c` |
| `DeviceState`, `Sensors` | the tracker and the sensor table of `x10state.c` |
| `DupFilter`, `Eviction` | `dup_filter` of `decode.c`; which entry a full filter gives up, in every run |
| `Frames` | the layouts of power-line and radio frames, sent, echoed and received |
| `Commands`, `CommandProperties` | the parser and the decoder, mutually recursive, and what they guarantee |
| `System` | the line splitter, one input, whole runs |
| `Words`, `Names`, `Documented` | the command words, names and numbers letter by letter; the code tables by a rule, and the example frames of the comments |
| `PowerLine`, `Repeater`, `Settings` | effects stated on bytes, words and units: power line, radio, settings and reset |
| `SensorMeaning`, `SecurityRuns` | what a sensor is answered to be, from the bytes of a packet or the words of a line |
| `SensorRuns`, `Answers`, `OverTheAir`, `Unbounded` | whole runs: the sensor table, who is answered what, radio from one controller to another, and the gateway with an ideal filter |
| `Parser`, `Gateway` | the imperative program, proved against the modules above |
| `Clients` | the client tables of `mochad.c` |
| `HexDump`, `StatusRow` | two printers and their readers |

## Where the code differs from what its text says

* `decode.c:656` says that a full filter reuses "the entry closest to expiring". The running minimum is an `int`, so
  this holds for every cache exactly under the condition of `DupFilter.EvictsEarliestIff`. On times below 2^31 it holds.
  From 2^31 on, in every run and away from a multiple of 2^31, the entry in slot 0 is given up (slot 15 in the upper half
  of 2^32) whatever expires first, so the comment holds exactly when that entry was accepted first
  (`Eviction.EvictsEarliestInRunIff`). `Eviction.LosesNewestOnRealClock` gives runs in which the newest entry is given up
  and its frame is accepted again 50 ms later; `CommandProperties.NewestEntryLost` is one of them, in November 2004.
* `decode.c:597-600` speaks of 100 ms; the code uses 650.
* `decode.c:158` calls 5D 20 E0 1F 20 DF an "off" of P1; by the tables it is one of I1: `Documented.RadioExamples`.
* `x10_write.c:92` ignores that the ring may be full and reports success: `OutputQueue.LostIffFull`.
* `encode.c:333` asks for six hexadecimal digits. Any number is accepted, taken modulo 2^24, and heard by the decoder
  only if its low 16 bits have even parity: `CommandProperties.LongSecurityFrame`.
* The filter is meant to drop repetitions, but it also drops a command that undoes a command in between:
  `OverTheAir.LastPressLostInRun`, from every reachable state in which both frames have expired and at most 14 others
  are live.
* A CM19A starts with frames in flight and the poll timer off (`OutputQueue.Cm19aStartsWithTimerOff`), so the first
  timeout can come only after the queue has been idle once (`OutputQueue.PollTimerMeaning`).
* An `accept` that failed gives descriptor -1, which counts a client without occupying a slot:
  `Clients.AddKeepsCountIff`.

## Model

| member | source | states |
|---|---|---|
| OutputQueue.SubmitAllWithRoom | x10_write.c:88-100 | with room, a burst is accepted whole and in order; the first frame goes to USB at once iff the queue was idle |
| OutputQueue.RingIsFifo | x10_write.c:39-100 | in every run, frames written then frames waiting are the accepted frames in order; idle implies nothing waits |
| OutputQueue.LostIffFull | x10_write.c:50-58 | a submitted frame is lost iff it meets a busy queue with 255 waiting; otherwise it is last in line |
| OutputQueue.OneFrameInFlight | x10_write.c:68-100 | in every run, USB writes minus busy-time releases equals the busy flag |
| OutputQueue.ReleaseMakesProgress | x10_write.c:68-86 | every release of a busy queue reduces what is pending by one; an idle queue has nothing pending |
| OutputQueue.Drains | x10_write.c:68-86 | n releases write the n waiting frames in order, one more leaves the queue idle with the timer off |
| OutputQueue.StartUpState | mochad.c:679-683 | what the main loop finds: nothing on a CM15A; on a CM19A one initial frame in flight, seven waiting, timer off |
| OutputQueue.PollTimerMeaning | x10_write.c:72-98 | in every run after start-up the timer is 2000 iff a frame is in flight and the queue has been idle before |
| OutputQueue.PollTimerArmedImpliesBusy | mochad.c:743 | an armed timer means busy; on a CM15A the two are equivalent |
| OutputQueue.Cm19aStartsWithTimerOff | mochad.c:680-743 | the converse fails on a CM19A at start-up |
| OutputQueue.X10Out.AddX10Out | x10_write.c:50-66 | on the ring array: appends and returns the length, or changes nothing and returns -1 when 255 wait |
| OutputQueue.X10Out.SendNextX10Out | x10_write.c:68-86 | on the ring array: exactly one release of the queue |
| OutputQueue.X10Out.X10Write | x10_write.c:88-100 | on the ring array: exactly one submission; returns the length even when the frame is dropped |
| OutputQueue.X10Out.StartUpQueue | mochad.c:397-404 | submits the initial frames of the controller, then sets the timer to wait forever |
| DeviceState.TrackerMeetsHistory | x10state.c:156-238 | after every history: selected iff in the last address group; each unit shows what the last event that touched it wrote, or unknown |
| DeviceState.SelectionMeaning | x10state.c:169-184 | selected iff addressed in the current group, where only On, Off, All and extended events close a group |
| DeviceState.ClosedMeaning | x10state.c:186-228 | the protocol state of a house is "function applied" iff its last group has been closed |
| DeviceState.StatusOfLastTouch | x10state.c:186-228 | status and dim level are those written by the last event that touched the unit |
| DeviceState.OnIffDimmed | x10state.c:156-228 | in every reachable state a unit is on iff its dim level is non-zero |
| DeviceState.HousesIndependent | x10state.c:141-238 | the row of a house depends only on that house's events and on resets |
| DeviceState.RepeatedOnOffNarrows | x10state.c:169-228 | repeating an address and On/Off only narrows the selection to that unit |
| DeviceState.HouseUnits.HuaSecInit | x10state.c:65-74 | the arrays show a reset |
| DeviceState.HouseUnits.HuaInit | x10state.c:141-144 | clears one row of selections and no other |
| DeviceState.HouseUnits.HuaAdd | x10state.c:169-184 | the arrays show one more addressed unit |
| DeviceState.HouseUnits.HuaFuncAll | x10state.c:186-209 | the arrays show an All On or All Off |
| DeviceState.HouseUnits.HuaFunc | x10state.c:211-238 | the arrays show On or Off applied to the selected units |
| DeviceState.HouseUnits.HuaSetStatusXdim | x10state.c:156-167 | the arrays show an extended dim |
| DeviceState.HouseUnits.HuaGetStatus | x10state.c:146-149 | the status the history gives the unit |
| DeviceState.HouseUnits.HuaGetStatusXdim | x10state.c:151-154 | the dim level the history gives the unit |
| Sensors.UpdateRefinesMap | x10state.c:79-112 | one event updates a map of at most 511 addresses that keeps the address kind of the first event |
| Sensors.RunRefinesMap | x10state.c:65-112 | in every run of events, listings and resets the table is that map, with distinct addresses |
| Sensors.FirstKindStays | x10state.c:93-110 | a known sensor stays known and keeps its first address kind until a reset |
| Sensors.CmpIsNumericOrder | x10state.c:279-284 | unsigned subtraction read as int orders 24-bit addresses numerically |
| Sensors.SortIsUnique | x10state.c:340 | any permutation sorted by the comparison function is the same sequence, so qsort's choice does not matter |
| Sensors.ShowingKeepsAnswers | x10state.c:240-277 | sorting the table changes no answer |
| Sensors.SensorTable.Clear | x10state.c:65-74 | the table becomes empty |
| Sensors.SensorTable.HuaSecEvent | x10state.c:79-112 | on the array: one update |
| Sensors.SensorTable.HuaGetStatusSec | x10state.c:240-277 | on the array: the verdict of the map, which SensorMeaning.AnswersAlerts states on the keys |
| Sensors.SensorTable.SortSensors | x10state.c:340 | on the array, in place: the sorted table |
| DupFilter.AnswersLikeUnbounded | decode.c:603-672 | while at most 16 frames are ever live at once, every answer of a run is that of an unbounded expiry map |
| DupFilter.AcceptancesFarApart | decode.c:595-649 | under the same condition two acceptances of one frame are more than 650 ms apart |
| DupFilter.SuppressionHasCause | decode.c:617-635 | in every run, a suppressed frame was accepted before and its 650 ms are not over |
| DupFilter.SuppressedIffLive | decode.c:617-635 | a frame is suppressed iff an identical one holds an unexpired slot |
| DupFilter.FilterStaysValid | decode.c:617-671 | used slots always hold distinct frames |
| DupFilter.LiveSlotsStay | decode.c:651-671 | a live slot loses its frame only when all 16 are live, and then only the evicted one does |
| DupFilter.EvictsEarliestIff | decode.c:655-665 | for every cache, also one whose times straddle 2^31: the evicted slot is an earliest-expiring one iff the stated condition on the expiry times holds; the form for runs is Eviction.EvictsEarliestInRunIff |
| DupFilter.EvictedOnLargeTimes | decode.c:657-664 | on times of 2^31 and more the evicted slot is the first with non-negative low 32 bits, else the last, whatever expires first |
| DupFilter.EvictsEarliestOnSmallTimes | decode.c:656 | below 2^31 the evicted slot expires earliest |
| Eviction.EvictsByPosition | decode.c:655-665 | in every run, from 2^31 on and away from its multiples, a full filter gives up slot 0 in the lower half of 2^32 and slot 15 in the upper, without regard to the expiries |
| Eviction.EvictsEarliestInRunIff | decode.c:655-665 | in every run, away from multiples of 2^31: an entry closest to expiring is given up iff the clock is below 2^31 or the frame in that slot was accepted no later than the other fifteen |
| Eviction.ExpiriesClose | decode.c:667-670 | in every run the expiries of a full filter lie within 650 ms of the clock |
| Eviction.FullFilterEvicts | decode.c:653-671 | a frame that a full filter does not hold replaces the chosen slot and nothing else |
| Eviction.LosesNewestOnRealClock | decode.c:657-664 | a run for every sixteen frames and every real clock in which the last entry to expire is given up, and its frame accepted again 50 ms after it was accepted |
| DupFilter.DupCache.DupFilter | decode.c:603-672 | on the array: the answer and the slots of the filter |
| DupFilter.DupCache.ClosestToExpiring | decode.c:657-664 | on the array: the scan with the truncated minimum |
| Text.StrUpper | encode.c:91-96 | upper-cases the C string in a buffer in place |
| Text.UpperTokens | encode.c:608-616 | upper-casing a line upper-cases its words |
| Text.StrTok.First | encode.c:616 | returns the first word and cuts the buffer; the remaining words are still to come |
| Text.StrTok.Next | encode.c:103 | returns the next word of the remembered buffer |
| Codes.CodesInverse | decode.c:137-152 | decoder and encoder tables for houses and units are inverse, for power line and radio |
| Codes.CodesInverseBack | encode.c:154-190 | the same in the other direction |
| Documented.CodeRule | encode.c:154-171 | every house and unit code of the power line, by a rule on the bits of its number |
| Documented.RadioCodeReversed | encode.c:173-190 | the radio code of a house is its power-line code with the bits reversed |
| Documented.PowerLineExamples | decode.c:184-209 | the example packets of the comment are read as it says |
| Documented.ExtendedExamples | decode.c:313-350 | the example extended packets are read as the comments say |
| Documented.RadioExamples | decode.c:155-158 | the example radio frames, read by the tables |
| Documented.SecurityExamples | decode.c:459-518 | the example security and camera frames are read as the comments say |
| Documented.InitialFrames | mochad.c:384-404 | the frames a CM19A is sent at start-up, in order |
| Codes.PrintedFuncParses | decode.c:118-135 | the printed names of On, Off, Dim and Bright parse back to the same function |
| Frames.PlUnitAgrees | encode.c:376-389 | echo and transmitted frame carry the same house and unit, the latter read by the layout of the interface, header bits included |
| Frames.PlFuncAgrees | encode.c:467-480 | echo and transmitted frame carry the same house and function |
| Frames.PlDimAgrees | encode.c:429-449 | echo and transmitted frame carry the same function and the amount modulo 32, for every int |
| Frames.PlExtAgrees | encode.c:392-417 | echo and transmitted frame carry the same unit and command, and the level modulo 256, for every int |
| Frames.OnOffRoundTrip | encode.c:542-585 | a radio On/Off frame decodes to its house and unit |
| Frames.DimBrightRoundTrip | encode.c:566-571 | a radio Dim/Bright frame decodes to its house |
| Frames.Sec8RoundTrip | encode.c:508-514 | an 8-bit security frame decodes to its address modulo 256 and its key |
| Frames.Sec24RoundTrip | encode.c:519-528 | a long security frame decodes to its three address bytes and key iff the parity of the low 16 bits is even |
| Frames.AddressParity | decode.c:529-532 | the parity table test is the parity of the number of ones in the low 16 address bits |
| Frames.AddressBytes | encode.c:521-527 | the three transmitted address bytes are the address modulo 2^24 |
| Frames.CamRoundTrip | encode.c:696-703 | a camera frame decodes to its house and key for every code that names a key, and is refused for every other code |
| Frames.ExtraBytesSkipped | decode.c:716-720 | any number of leading 0x5D is skipped |
| Commands.AddrRoundTrip | encode.c:282-317 | a printed device address parses to itself |
| Commands.BridgeLineIsPl | decode.c:793-817 | every line the decoder prints is a PL command, so the recursion ends |
| Commands.BridgeLineTokens | decode.c:793-817 | the words of a printed line |
| CommandProperties.PlLineTransmitsWhatIsAsked | encode.c:618-662 | every line whose first word is PL transmits, in every state, exactly the reports its words ask for (house letter, unit number, function name, amounts), and records their events; what these do unit by unit is in PowerLine |
| PowerLine.LineFramesLaidOut | encode.c:362-375 | every frame a PL line submits has header bits 7 to 3 clear and bit 2 set, bit 1 for a function, bit 0 for an extended code, its length, and 110 below a dim amount |
| PowerLine.SentDetermined | encode.c:362-375 | a transmitted power-line frame is determined byte for byte by what it says |
| PowerLine.FunctionPacket | decode.c:244-300 | packet 5A 02 01 b: codes 0 and 6 leave every unit of the house off, 1 every one on, 2 and 13, 3 and 14 the selected ones; no other code, house or unit changes |
| PowerLine.AddressPacket | decode.c:232-243 | packet 5A 02 00 b selects the unit and changes no status |
| PowerLine.ExtendedPacket | decode.c:313-364 | packets 5A x 07 and 5A x 08, with their bytes in opposite orders, set the level of one unit and select it alone |
| PowerLine.OtherPacketsDoNothing | decode.c:874-916 | every other packet that is not a radio frame changes nothing and submits nothing |
| PowerLine.Cm19aPackets | decode.c:879-889 | every packet of a CM19A of four bytes or more is a radio frame |
| PowerLine.HouseFunctionLine | encode.c:623-632 | PL, a house and a function name: the code of the name is applied to the house, unit by unit |
| PowerLine.UnitFunctionLine | encode.c:633-661 | PL, a unit and a function name: the unit is addressed, and then the code applied |
| PowerLine.AllUnitsOff | encode.c:134-152 | PL, a house and ALL_UNITS_OFF leaves every unit of the house off at level 0 |
| PowerLine.ExtendedLine | encode.c:640-657 | PL, a unit and XDIM or EXTENDED_CODE_1 sets the level of the unit modulo 256 |
| CommandProperties.AddressMeaning | encode.c:282-317 | for every word: house letter, and unit number when it is 1 to 16 |
| CommandProperties.RfWritesAtMostThree | decode.c:703-872 | a radio frame submits at most three frames |
| CommandProperties.LineWritesAtMostFour | encode.c:599-792 | a line submits at most four frames |
| CommandProperties.ProcessKeepsValid | encode.c:599-792 | no line breaks the invariants of tracker, sensors or filter |
| CommandProperties.HandleRfKeepsValid | decode.c:703-872 | nor does any radio frame |
| CommandProperties.BridgeLineEffect | decode.c:813-817 | printing and parsing again yields the power-line address and function and their two events |
| CommandProperties.BridgeOnOff | decode.c:803-822 | in every state a bridged On/Off queues the repetition, address and function; status and dim are as without the bridge, the selection is the unit alone |
| CommandProperties.MaskMeaning | encode.c:338-360 | the mask has the bit of a house iff the word is "*" or contains its letter in either case |
| CommandProperties.RfToPlLine | encode.c:738-741 | after any line whose first word is RFTOPL exactly the houses its second word names are bridged, and nothing else changed |
| Settings.AllOrNone | README:103-107 | RFTOPL * bridges every house, RFTOPL 0 and RFTOPL alone none |
| Settings.RfToRfLine | encode.c:742-746 | a line whose first word is RFTORF stores the number of its second word modulo 2^16, or nothing without one |
| Settings.RfToRfNumber | encode.c:742-746 | a decimal number n switches repetition off iff n is a multiple of 2^16 |
| Settings.StatusReset | encode.c:747-751 | ST 0 leaves every unit unknown and unselected and no sensor, and changes nothing else |
| Settings.StatusListed | encode.c:752-753 | any other ST line leaves tracker and sensors as they were |
| Settings.StartsBlank | global.c:25-30 | a gateway starts with every house bridged, no repetition, every unit unknown, no sensors, an empty filter |
| Settings.LineEnds | encode.c:815-825 | exactly line feed, carriage return and NUL end a line |
| Words.PowerAndRadioWords | encode.c:616-711 | a line runs PL, RF, RFSEC, RFCAM or PT if its first word spells that, in capital or small letters |
| Words.SettingAndQueryWords | encode.c:738-780 | the same for RFTOPL, RFTORF, ST, GETSTATUS and GETSTATUSSEC |
| Words.OtherLinesDoNothing | encode.c:786-791 | a line with any other first word changes nothing, submits nothing and has no reply |
| Names.FunctionNames | encode.c:134-152 | each function is named as the decoder prints its code |
| Names.FunctionFound | encode.c:192-204 | each function name is read as its code |
| Names.SecurityFound | encode.c:240-261 | each security name is read as its code |
| Names.MotionKeys | encode.c:206-225 | the keys of the motion names |
| Names.ContactKeys | encode.c:206-225 | the keys of the contact names |
| Names.LowContactKeys | encode.c:206-225 | the keys of the contact names with a low battery |
| Names.ConsoleKeys | encode.c:206-225 | the keys of the console names for long addresses |
| Names.ArmingKeys | encode.c:227-238 | the keys of the arming names for short addresses |
| Names.RemoteKeys | encode.c:227-238 | the keys of the other names for short addresses |
| Names.AlertNames | encode.c:206-225 | among the names for long addresses, the motion and contact alerts are those with the key of an alerting sensor |
| Names.PresetKeys | decode.c:427-457 | the two keys of camera preset d, by a rule |
| Names.MoveKeys | decode.c:427-457 | the keys that move the camera |
| Names.DecimalRead | encode.c:263-269 | a number in decimal, with or without a minus sign, is read as itself |
| Names.LongAddressWord | encode.c:333-335 | six hexadecimal digits are a long address, first byte first |
| Names.ShortAddressWord | encode.c:327-331 | two hexadecimal digits behind 0x are a short address |
| Names.Int32Wraps | encode.c:268 | a number is stored in an int modulo 2^32 |
| CommandProperties.RadioLineMeaning | encode.c:663-710 | local echo and received frame of every radio line mean what its words say, whatever follows them in memory |
| CommandProperties.OnAir | decode.c:731-833 | a transmitted frame received behind 0x5D reads like the local echo |
| Repeater.FrameRepeated | decode.c:566-582 | in every state an accepted frame is submitted again first, if repetition is on, led by EB on a CM15A and without its first byte on a CM19A; behind it come at most two power-line frames; any other frame submits nothing |
| Repeater.PacketRepeated | decode.c:571-580 | in every state an accepted packet is sent again with EB for 5D on a CM15A, and as it is on a CM19A |
| Repeater.FrameChanges | decode.c:731-858 | refused frames change nothing, duplicates only the filter, camera, dim and bright frames nothing else, security frames only the sensor table besides |
| Repeater.WellFormedIff | decode.c:731-858 | exactly the frames with good checksums, parity and a known camera key mean anything |
| Repeater.BadFramesDoNothing | decode.c:721-870 | every other frame, and every frame that is too short or too long, changes nothing and submits nothing |
| Repeater.RadioLineSubmits | encode.c:663-710 | a line that begins with RF, RFSEC or RFCAM submits, last, the frame its words make, led by EB on a CM15A; before it what the local decoder does with it; a line that makes no frame does nothing |
| Repeater.RfWords | encode.c:542-576 | which RF lines make which frame: On and Off with a unit, Dim and Bright |
| Repeater.RfSecWords | encode.c:675-684 | which RFSEC lines make which frame |
| Repeater.RfCamWords | encode.c:685-703 | which RFCAM lines make which frame |
| Repeater.OnOffBytes | encode.c:552-578 | an On or Off frame byte for byte |
| Repeater.DimBrightBytes | encode.c:566-578 | a Dim or Bright frame byte for byte |
| Repeater.SecurityBytes | encode.c:507-527 | the bytes of security frames besides the address |
| Repeater.CameraBytes | encode.c:696-701 | a camera frame byte for byte |
| Repeater.PassThroughWords | encode.c:711-716 | PT submits its first eight words as bytes in one frame, and nothing without words |
| OverTheAir.PacketDecodes | decode.c:874-889 | a frame sent by either controller is decoded by either as the same frame behind 0x5D |
| OverTheAir.RadioLineHeard | encode.c:663-710 | for every radio line and both kinds of sender and receiver, the receiving gateway acts on what the words mean, if that is acceptable and no duplicate |
| OverTheAir.RadioLineArrives | encode.c:663-710 | what another gateway of either kind makes of the last frame that a radio line submits is what the words mean |
| CommandProperties.LongSecurityFrame | encode.c:519-533 | in every state, what an RFSEC line with a long address records, repeats and sends |
| CommandProperties.ExtraBytesHarmless | decode.c:716-720 | in every state, extra leading 0x5D bytes change nothing |
| CommandProperties.ThreeAnswers | decode.c:617-635 | of frames f, g, f that find no live copy and at most 14 live others, the third is accepted iff it comes more than 650 ms after the first |
| CommandProperties.LastPressLost | decode.c:784-808 | on either controller, bridged or not: after On, Off, On the tracker shows on iff the last press came more than 650 ms after the first |
| OverTheAir.LastPressLostInRun | decode.c:784-808 | the same of three packets from every reachable state in which both frames have expired and at most 14 frames are live |
| CommandProperties.NewestEntryLost | decode.c:655-671 | one run of On frames at 2^40 ms in which the newest entry is given up |
| CommandProperties.BridgeDimBright | decode.c:787-802 | in every state a bridged Dim/Bright queues the repetition and one power-line step, and leaves the tracker as it was |
| System.ChunkingIrrelevant | encode.c:798-827 | two ways to cut one stream into chunks lead to the same state |
| System.SplitConserves | encode.c:812-826 | lines and leftover are the stream without its terminators |
| System.SplitCuts | encode.c:815-822 | no dispatched line is empty or holds a terminator |
| System.SplitTags | encode.c:813-818 | each line is the leftover just before its terminator, given to the client of that byte, in order |
| System.ReachableStatesValid | encode.c:599-827 | the invariants of tracker, sensors, filter and queue hold in every reachable state |
| System.QueueRuns | x10_write.c:68-100 | over every run of the gateway the queue undergoes exactly the submissions and releases of the inputs |
| System.FramesConserved | x10_write.c:68-100 | over every run of the gateway written and waiting frames are the initial ones and the accepted ones, in order |
| System.InputWritesBounded | encode.c:798-827 | a packet submits at most three frames, a chunk at most four for each line it completes |
| System.BridgedPacketIsQueued | decode.c:803-822 | from any reachable state of a CM15A with room, a fresh On/Off packet of a bridged house is queued as repetition, address, function |
| System.FilterRuns | decode.c:734-834 | over every run the filter's slots are those of the run of its queries |
| SensorRuns.SensorTableIsMap | x10state.c:65-112 | over every run of the gateway the sensor table is the map of the accepted sensor events since the last reset |
| Answers.RepliesGoToAskers | encode.c:815-819 | every reply to a chunk goes to the client whose byte ended the line, and is the answer in the state before that byte; replies are never withdrawn or reordered |
| Answers.OneByteReplies | encode.c:815-819 | exactly one byte, the one that ends a line, has a reply sent, to its client |
| Answers.StatusAnswered | encode.c:754-777 | in every run a line whose first word is GETSTATUS, in any letters, sends one reply, to the asking client: "on" iff the last event that touched the unit switched it on |
| Answers.DimAnswered | encode.c:758-764 | in every run GETSTATUS with XDIM sends the level written by the last event that touched the unit |
| Answers.OtherQueryAnswered | encode.c:765-770 | GETSTATUS with any other third word is answered -1 |
| Answers.UnnamedNotAnswered | encode.c:778-783 | a query that names no unit or no sensor has no reply |
| Answers.SensorAnswered | encode.c:780-785 | in every run a line whose first word is GETSTATUSSEC sends one reply, to the asking client: "on" iff the address was first heard as the kind asked for and its last event since the last reset carries the key of an alert |
| SensorMeaning.AnswersAlerts | x10state.c:240-277 | in every run of sensor events the answer is "alert" iff first kind and last key say so: key & 0x80 clear and key & 0x7F in {0, 1, 4, 5, C, D}, or 4 for a short address |
| SensorMeaning.EventAlerts | x10state.c:79-112 | after one more event of an address with an entry of the kind, or a new one with room, it alerts iff that event carries the key of an alert |
| SecurityRuns.LongPacketHeard | decode.c:830-841 | the bytes of a sensor packet with even parity, if no duplicate, are an event of its three-byte address with its key |
| SecurityRuns.ShortPacketHeard | decode.c:747-768 | the same of a remote control with an 8-bit address |
| SecurityRuns.PacketAnswered | decode.c:830-841 | such a packet, and then GETSTATUSSEC with its address in six digits, is answered "on" iff the key is that of an alert |
| SecurityRuns.ReportedAndAnswered | encode.c:675-684 | RFSEC with an address and a name, and then GETSTATUSSEC with that address, is answered "on" iff the address is long and the name is that of a motion or contact alert |
| Answers.PageAnswered | encode.c:747-753 | in every run a line whose first word is ST sends the device rows to the asking client, and the web page shows for a unit what the last event that touched it wrote |
| Unbounded.GatewayIsIdeal | decode.c:603-672 | in every run with a monotone clock and at most 16 live frames, tracker, sensors, settings, queue and replies are those of a gateway with an unbounded filter |
| Parser.GetDeviceAddr | encode.c:282-317 | reads one word as a device address |
| Parser.GetFunc | encode.c:192-204 | reads one word as a function name |
| Parser.GetRfFunc | encode.c:240-261 | reads one word as a security function of the given kind |
| Parser.GetParam | encode.c:263-269 | reads one word as a number, -1 if there is none |
| Parser.GetRfAddr | encode.c:319-336 | reads one word as a short or long address |
| Parser.GetHouseCodes | encode.c:338-360 | reads one word as a mask, by the loop over its letters |
| Parser.GetHexData | encode.c:98-113 | reads up to eight words as bytes |
| Parser.FindCamRemoteCommand | decode.c:496-507 | finds a camera key by name |
| Gateway.Mochad.constructor | encode.c:798-801 | the statics at process start |
| Gateway.Mochad.StartUp | mochad.c:679-743 | the state in which the main loop begins |
| Gateway.Mochad.RepeatRf | decode.c:566-582 | submits the repetition if enabled, patches the first byte in place and restores it; its bytes are pinned by Repeater.PacketRepeated |
| Gateway.Mochad.DecodePlc | decode.c:210-370 | the tracker hears what the power-line frame reports; the effect unit by unit is PowerLine.FunctionPacket and its neighbours |
| Gateway.Mochad.PlTxHouseUnit | encode.c:376-389 | from one patched buffer: echo and submission of an address frame, whose bytes PowerLine.LineFramesLaidOut and SentDetermined pin |
| Gateway.Mochad.PlTxHouseFunc | encode.c:419-482 | from one patched buffer: echo and submission of a function frame |
| Gateway.Mochad.PlTxExtendedCode1 | encode.c:392-417 | from one buffer: echo and submission of an extended frame |
| Gateway.Mochad.PlCommand | encode.c:618-662 | the words still to be read of any PL line are transmitted and recorded as `Commands.PlLine` says |
| Gateway.Mochad.DecodeRf | decode.c:703-872 | a radio frame in a buffer: filter, tracker, sensors, repetition, bridge |
| Gateway.Mochad.Bridge | decode.c:792-822 | the printed line, parsed again by the same parser |
| Gateway.Mochad.TransmitRf | encode.c:580-584 | local echo, then submission without the first byte on a CM19A |
| Gateway.Mochad.ProcessCommandLine | encode.c:599-792 | a line in a buffer that it rewrites: the new state, the frames submitted and the reply; which first word does what is stated in Words |
| Gateway.Mochad.RfCommand | encode.c:663-674 | address and function are read word by word; the frame, its echo and its effect are those of `Commands.Run` |
| Gateway.Mochad.RfSecCommand | encode.c:675-684 | the same for a security address and key, short or long |
| Gateway.Mochad.RfCamCommand | encode.c:685-710 | the same for a camera key; the unit is ignored |
| Gateway.Mochad.PassThrough | encode.c:711-716 | up to eight hexadecimal words are submitted unchanged; the state stays as it was |
| Gateway.Mochad.RfToPlCommand | encode.c:738-741 | only the bridge mask changes, to the mask of the next word |
| Gateway.Mochad.RfToRfCommand | encode.c:742-746 | only the repeat setting changes, to the next word modulo 2^16, and only if there is one |
| Gateway.Mochad.StatusCommand | encode.c:747-753 | "0" adds a reset to the history and empties the sensor table; anything else replies with the device rows and sorts the table |
| Gateway.Mochad.HuaShow | x10state.c:318-340 | the device rows of all houses as the history gives them, and the sorted sensor table |
| Gateway.Mochad.StatusPrintf | mochad.c:84-94 | a reply goes to the client it is for, after all earlier ones |
| Gateway.Mochad.GetStatusCommand | encode.c:754-779 | the reply to GETSTATUS is what the history gives the unit |
| Gateway.Mochad.GetStatusSecCommand | encode.c:780-785 | the reply to GETSTATUSSEC is the verdict of the sensor map |
| Gateway.Mochad.ByteIn | encode.c:814-825 | one byte of a client: the line buffer, the parser and the reply to that client |
| Gateway.Mochad.Encode | encode.c:798-827 | a chunk of bytes of a client takes the whole gateway one step, the parser rewriting the line buffer in place, the replies going to that client |
| Gateway.Mochad.IntrIn | mochad.c:499-529 | a packet takes the whole gateway one step |
| Gateway.Mochad.DecodePacket | decode.c:874-889 | the dispatch on the leading byte, which a CM19A packet gets first |
| Gateway.Mochad.PollTimesOut | mochad.c:765-768 | a poll timeout takes the whole gateway one step |
| Clients.RunsStayExact | mochad.c:233-333 | in every run of adds of fresh descriptors and deletes, counters equal occupied slots and no descriptor sits in two |
| Clients.AddKeepsCountIff | mochad.c:244-261 | the counter stays exact iff the descriptor is not -1 or the table is full |
| Clients.AddThenDelRestores | mochad.c:244-333 | adding a fresh descriptor to a table with room and deleting it restores everything |
| Clients.DelMissing | mochad.c:331-332 | deleting an unknown descriptor changes nothing |
| Clients.CopyIsExact | mochad.c:336-354 | the copy has as many entries as the counters say and holds every connected descriptor once |
| Clients.ClientTables.constructor | mochad.c:233-241 | empty tables |
| Clients.ClientTables.AddClient | mochad.c:244-261 | on the array: fills the first free slot, or fails |
| Clients.ClientTables.AddXmlClient | mochad.c:264-281 | the same for XML clients |
| Clients.ClientTables.AddOr20Client | mochad.c:284-301 | the same for OpenRemote clients |
| Clients.ClientTables.DelClient | mochad.c:304-333 | on the arrays: frees the first slot with the descriptor |
| Clients.ClientTables.CopyClients | mochad.c:336-354 | on the arrays: writes the copy and returns the sum of the counters |
| HexDump.PrintHex | mochad.c:188-202 | the text written into the buffer, and that nothing is written for no bytes |
| HexDump.HexRoundTrip | encode.c:106 | the two printed digits of a byte are read as that byte |
| HexDump.PrintedBytesPassThrough | encode.c:711-715 | PT followed by the printed form of one to eight bytes submits exactly those bytes |
| StatusRow.ArrayHoldsState | x10state.c:322-324 | the status array of a valid tracker holds, house by house, what its history says |
| StatusRow.RowIs | x10state.c:326-336 | the row of a house in full: House, its letter and a colon, the items separated by commas, a line feed |
| StatusRow.ShowRow | x10state.c:319-336 | from the tracker's array, by the loop over the units: the row that the history gives the house |
| StatusRow.ParseRow | cgi/getsensors.pl:85-109 | the house and the cells read from a line, by the loop over its fields |
| StatusRow.PageShowsRow | cgi/getsensors.pl:85-115 | for every non-empty row the page shows the house and on, off or unknown for all 16 units |
| StatusRow.PageShowsLastTouch | x10state.c:318-338 | over every history, the page's cell of a unit tells what the last event that touched it wrote |

## Left out

- `sensorflare.c`: the AMQP client and its threads, one of which calls the parser without a lock; the model is single-threaded.
- libusb set-up, endpoints, sockets, the `poll` call itself, daemon mode and signals; failed USB writes are not modelled, every frame handed to `write_usb` counts as written.
- Text sent to clients, except the replies to GETSTATUS, GETSTATUSSEC and the device rows of ST, and the hexadecimal dump; also debug output, the policy-file reply and raw-data dumps.
- The NUL that replaces the final newline of a row for an XML client.
- The "ok" reply to OpenRemote clients, and their removal after each line (`encode.c:819`); the tables themselves are in `Clients`.
- The calls that close a deleted client's socket, and the poll events in client records.
- Overflow in `strtol` and `strtoul`, and the error return of `gethexdata` that follows from it: numbers are read exactly, and wrap where the code stores them in a narrower type.
- The `qsort` algorithm: the array is sorted by insertion, and `Sensors.SortIsUnique` shows that every sorting permutation gives the same table.
- Gateway.Mochad.Encode: requires lines of at most 79 bytes, because the C buffer has 80 and no check.
- Gateway.Mochad.IntrIn: the bytes behind the transfer buffer in memory are an input, since the decoder may read past the packet; the decoder works on a copy of that memory, so the byte that the repeater patches and restores is patched in the copy. The unset end of the camera buffer is taken as zero.
- Gateway.Mochad.ProcessCommandLine: returns the reply, and its caller sends it; the original sends it inside. ST replies once with all rows, an empty row standing for a house of which nothing is sent.
- DupFilter.DupCache.DupFilter: the query with length -1 has no caller and is not modelled; a slot holds the frame as a value instead of 16 bytes and a length.
- DupFilter.EvictsEarliestIff: expiry times within 2^31 of 2^64 are excluded; no clock in milliseconds reaches them.
- Gateway.Mochad.PlTxHouseFunc: the extended-dim case (`encode.c:450-466`) is not reached by any caller.
- Frames.AddressParity: the 256-entry parity table is represented by the parity of the bits it tabulates.
- HexDump.PrintHex: requires room for the final terminator, which the 301-byte buffers of all callers have.
- The age shown for each sensor, and the headings and the rows of selected units and of sensors in ST.
- StatusRow.ParseRow: Perl array indices that are negative or above 16 are not modelled, nor fractional numbers; `hua_show` prints none of them.
- The other Perl, Python and shell programs, the HTML around the table, and the build files.
- Long C functions appear as several methods, one for each command or frame kind, in the order of the original branches; the decoder checks a frame's shape before the filter in one place instead of in every branch.
