# ADAS demo car: a verified model of the braking loop

The car has a Raspberry Pi that measures distances and decides on a state, and an ESP32 that drives the motors.
This project models the loop that connects them and proves what it guarantees.

- **`Distances`, `EchoTiming`**: the timed echo of an ultrasonic sensor, the median over the samples of one tick,
  the minimum over the two sensors, and the zone (danger, warning, safe) this distance falls into.
- **`FalseAlarmFilter`, `FilterLaws`, `Monotonicity`**: the false-alarm filter as a function of the zone history: a
  window of twenty written values and a latched state (0 NORMAL, 1 PRECOLLISION, 2 AUTOBRAKE); what it guarantees over
  whole runs; and when a more dangerous run reaches a higher state.
- **`DecisionThread`**: the same filter as the code runs it, a twenty-slot array overwritten in place behind an
  index wrapped by hand, proved to be the window of the history. `SpeedStages` has the speed-dependent thresholds.
- **`PiThreads`**: the Pi's threads interleaved one statement at a time, with both locks explicit.
- **`StateLink`**: the state messages on the serial line and what read chunks make of them.
- **`Motors`, `Firmware`**: the ESP32: driver calls, H-bridge outputs, the blocking brake sequence, joystick packets.
- **`SpeedLine`, `Decimal`**: the speed line printed by the ESP32 and parsed by the Pi.
- **`EndToEnd`**: everything composed, from samples to motors.
- **`Sequences`**: small facts on sequences.

## Assumptions

- The firmware interleaves only where the UART task waits: at its read and at the two delays of the emergency
  brake. One joystick packet is handled in one step. Preemption inside a motor command is not modelled.
- The decision thread of the Pi is interleaved statement by statement while it touches shared lists, locks and the
  shared speed; the rest of its tick, which touches nothing another thread writes, is one step.
- `SpeedLine.Session` and `EndToEnd.SlowCarDecidesForever` take the first byte the Pi reads to start a line.
  `SpeedLine.JoinedStream` and `EndToEnd.JoinedCarDecidesExactly` say what happens when it is any other byte.
- Distances, speeds, duties and times are reals. The clock of the echo measurement never runs backwards (the code
  reads the wall clock) and eventually leaves the 10 ms window.
- `EndToEnd.ObstacleStopsCar`, `FalseAlarmsNeverBrake`, `ClearRoadReleasesCar` and `BrakesBounded` take each chunk to
  be one or more whole messages. `EndToEnd.CutDelivery` says for every other cut of the bytes sent how many brake
  sequences run and when AUTOBRAKE is on. The motor theorems take any bytes in any chunks.
- The configuration is the one in the code: both distance sensors on, the camera off.

## What the proofs found in the code

- Both thresholds are local variables of the thread function. If the three comparisons of the first tick find
  speeds of at least 5, 25 and 80, the thread dies of an unset variable, and this is the only way it can die
  (`SpeedStages.StagesIrrelevantExactly`, `PiThreads.DeathExactly`). Any speed of at least 80 read before the first
  tick can do it (`PiThreads.FastStartKills`).
- A slow car can do it too if the Pi joins the speed line in the middle: after the point of `0.9999` it reads 9999
  (`SpeedLine.JoinedLine`, `EndToEnd.JoinedCarDecidesExactly`). Joined at the newline, the reader thread dies.
- The state is not monotone in the danger: six warning ticks after power-on give PRECOLLISION, six danger ticks stay
  NORMAL (`Monotonicity.StateNotMonotone`). Which pairs of zones (milder, more dangerous) may stand at the same tick
  decides it. Being in AUTOBRAKE is monotone at every time exactly if (safe, warning) and (danger, danger) are not both
  allowed, nor (safe, danger), (warning, warning) and (danger, danger) all three
  (`Monotonicity.AutobrakeMonotoneExactly`); the state is, exactly if moreover (warning, danger) is not allowed
  (`Monotonicity.StateMonotoneExactly`). Entering AUTOBRAKE at some time always is monotone.
- A chunk is taken for AUTOBRAKE exactly if it starts at the head of an AUTOBRAKE message or at the last digit of
  slot number 2 or 12 (`StateLink.CutChunkDecodes`). So from the third tick on, whatever was seen, the car can brake
  (`EndToEnd.SpuriousBrakeExactly`), one entry into AUTOBRAKE can brake twice (`EndToEnd.CutBrakesTwice`), and a chunk
  that starts inside an AUTOBRAKE message makes the car obey a forward stick although the Pi is in AUTOBRAKE
  (`EndToEnd.CutLosesAutobrake`).
- A joystick packet that does not ask for reverse cuts the 120 ms reverse pulse short
  (`Firmware.PulseHeldExactly`).
- The comment above the test of the state in `mcpwm_motor_control` speaks of not being in auto brake, while the
  branch below it is the auto-brake one; the model follows the code.

## Model

| member | source | states |
|---|---|---|
| `FalseAlarmFilter.WindowIsSuffix` | ECU_RASP/main.py:268-306 | The ring's contents are the last twenty of the start contents followed by everything written since |
| `FalseAlarmFilter.NonZeroIsNonSafe` | ECU_RASP/main.py:271-306 | The number of non-zero slots is the number of non-safe ticks among the last twenty, whichever of 1 or 2 was written |
| `FalseAlarmFilter.RecentTicksCounted` | ECU_RASP/main.py:271-306 | From any state all of up to twenty recent ticks are still counted in their counters |
| `FilterLaws.LatchInvariant` | ECU_RASP/main.py:48-57 | In every reachable state AUTOBRAKE implies at least 7, PRECOLLISION at least 5 non-zero slots |
| `FilterLaws.DangerTickDecides` | ECU_RASP/main.py:268-279 | After a danger tick the state is AUTOBRAKE iff at least 7 of the 20 ticks before it were not safe, and otherwise what it was |
| `FilterLaws.WarningTickDecides` | ECU_RASP/main.py:281-293 | After a warning tick it is PRECOLLISION if at least five slots of the ring, told from the zones, hold 1, and otherwise what it was |
| `FilterLaws.SafeTickDecides` | ECU_RASP/main.py:295-306 | After a safe tick it is NORMAL if at most 15 of the 20 ticks before it were not safe, and otherwise what it was |
| `FilterLaws.LastDecisionCounts` | ECU_RASP/main.py:268-306 | The whole filter in closed form: the state is that of the zone of the last deciding tick, NORMAL if there is none, deciding told from the zones alone |
| `FilterLaws.DangerAfterSevenNonSafe` | ECU_RASP/main.py:268-275 | From any state, 7 non-safe ticks within 20 and then a danger tick give AUTOBRAKE |
| `FilterLaws.Latency` | ECU_RASP/main.py:268-306 | From any state 8 danger, 6 warning or 6 safe ticks in a row give their state, and more keep it |
| `FilterLaws.InitialLatencyTight` | ECU_RASP/main.py:268-293 | From power-on these numbers are exact: one tick fewer leaves NORMAL |
| `FilterLaws.HoldBudget` | ECU_RASP/main.py:281-306 | From any state AUTOBRAKE outlives at most 5 safe and 5 warning ticks, in any order |
| `FilterLaws.BoundedRelease` | ECU_RASP/main.py:281-306 | From any state 11 ticks without danger leave AUTOBRAKE |
| `FilterLaws.SaturatedHoldsExactly` | ECU_RASP/main.py:281-306 | From a ring full of 2s AUTOBRAKE holds iff neither count exceeds 5, so ten ticks may not release it |
| `FilterLaws.SaturatedReachable` | ECU_RASP/main.py:268-275 | That ring is reached from power-on by 27 danger ticks |
| `FilterLaws.AutobrakeIffConfirmed` | ECU_RASP/main.py:268-279 | A run ever enters AUTOBRAKE iff some danger tick has 7 non-safe ticks among the twenty before it |
| `FilterLaws.SixFalseAlarmsTolerated` | ECU_RASP/main.py:55 | If no twenty consecutive ticks contain more than 6 non-safe ones, AUTOBRAKE is never entered |
| `FilterLaws.StaysNormalExactly` | ECU_RASP/main.py:268-306 | The state stays NORMAL for the whole run iff no danger tick follows 7 and no warning tick follows 5 non-safe ticks within twenty |
| `FilterLaws.FourFalseAlarmsTolerated` | ECU_RASP/main.py:56 | If no twenty consecutive ticks contain more than 4 non-safe ones, the state is always NORMAL |
| `Monotonicity.DangerEndMonotone` | ECU_RASP/main.py:268-293 | If the pointwise more dangerous run ends in danger it is in AUTOBRAKE whenever the milder one is, however that ends |
| `FilterLaws.WindowClosedForm` | ECU_RASP/main.py:268-306 | Every slot of the ring told from the zones alone: 0 for a safe tick, 2 for a danger tick confirmed by 7 of the 20 before it, else 1 |
| `Monotonicity.AutobrakeByLastZone` | ECU_RASP/main.py:268-306 | Over all pairs of runs whose more dangerous one ends in zone z, being in AUTOBRAKE is monotone iff z is danger |
| `Monotonicity.AutobrakeMonotoneExactly` | ECU_RASP/main.py:268-306 | Over all runs made of allowed pairs of ticks AUTOBRAKE is monotone at every time iff neither (S,W) with (D,D), nor (S,D) with (W,W) and (D,D), is allowed |
| `Monotonicity.EverAutobrakeMonotone` | ECU_RASP/main.py:268-293 | A pointwise more dangerous run enters AUTOBRAKE at some time if the milder one does |
| `Monotonicity.StateNotMonotone` | ECU_RASP/main.py:268-293 | The state itself is not monotone: a milder run can end in a higher state |
| `Monotonicity.NoDangerStateMonotone` | ECU_RASP/main.py:281-306 | Without danger ticks the state is monotone: a pointwise more dangerous run is never in a lower state |
| `Monotonicity.StateMonotoneExactly` | ECU_RASP/main.py:268-306 | Over all runs made of allowed pairs of ticks the state is monotone at every time iff that holds and (W,D) is not allowed |
| `Monotonicity.AutobrakeNotMonotone` | ECU_RASP/main.py:281-306 | For each zone but danger there are runs, the more dangerous one ending in it, of which only the milder is still in AUTOBRAKE |
| `Distances.MedianIsMiddle` | ECU_RASP/main.py:225 | The median is the sample of middle rank, or lies halfway between the two of middle ranks, ranks said without sorting |
| `Distances.MedianBelow` | ECU_RASP/main.py:225-238 | Median below t against how many samples are: more than half suffices, half is necessary, exact for odd lengths |
| `Distances.MedianOrderFree` | ECU_RASP/main.py:225-238 | The median does not depend on the order the samples came in |
| `Distances.MajorityDecides` | ECU_RASP/main.py:221-281 | A strict majority of samples below 16 cm at one sensor makes a danger tick, below 25 cm a non-safe one, whatever the other reports |
| `Distances.TickZoneExactly` | ECU_RASP/main.py:221-281 | Danger iff a sensor with samples has its median below 16 cm, not safe iff one below 25 cm |
| `Distances.MinIsLeast` | ECU_RASP/main.py:250 | The distance decided on is one of the two and not above either |
| `Distances.ZoneHasCause` | ECU_RASP/main.py:221-281 | A danger or non-safe tick has a live sensor with half its samples below that limit; silent sensors never alarm |
| `SpeedStages.StagesIrrelevantExactly` | ECU_RASP/main.py:255-268 | With the configured constants the staged filter equals the fixed-threshold one iff some stage matches in the first tick; else the thread dies |
| `SpeedStages.SteadyFirstSpeed` | ECU_RASP/main.py:255-263 | For a speed steady during the first tick that condition is that it is below 80 |
| `DecisionThread.Decision.constructor` | ECU_RASP/main.py:64-69 | The zeroed ring represents the empty history |
| `DecisionThread.Decision.CalculateCollision` | ECU_RASP/main.py:268-306 | The branches over the array write what the history-based filter does and latch what the zones before demand: the numbers 15, 5 and 7 of the three tick laws |
| `DecisionThread.Decision.SendAndAdvance` | ECU_RASP/main.py:316-323 | Sending state and slot and wrapping the index by hand keeps the ring, read from the index round, the sliding window |
| `DecisionThread.Decision.Iterate` | ECU_RASP/main.py:205-323 | One round drains both lists and extends the history by the zone of their medians, or dies with ring and state unchanged |
| `DecisionThread.Decision.Serve` | ECU_RASP/main.py:198-323 | Any number of rounds: state and messages are those of the zone history, and exactly when the thread dies |
| `DecisionThread.RingMeaning` | ECU_RASP/main.py:268-323 | Index is ticks mod 20, the counts add to 20, non-zero slots count non-safe ticks, the rotated ring is the last twenty entries |
| `EchoTiming.WaitWhile` | ECU_RASP/main.py:140-152 | A wait loop ends in the first round that finds the pin changed or the window over, keeps the last clock reading before, and says why it ended |
| `EchoTiming.MeasureDistance` | ECU_RASP/main.py:137-167 | A sample is kept iff neither late test finds the window exceeded; then twice its distance is 34300 times the echo, in [0, 171.5] cm, below 16 iff the echo was shorter than 32/34300 s and 25 iff than 50/34300 s; strictly inside the window it times exactly one high phase of the pin |
| `EchoTiming.LongestSample` | ECU_RASP/main.py:137-167 | The bound is attained: some clock and pin give exactly 171.5 cm |
| `PiThreads.SamplesAppended` | ECU_RASP/main.py:163-178 | For every interleaving, what a sensor thread appended followed by the sample in flight is exactly what it sensed, told from the schedule |
| `PiThreads.SamplesConserved` | ECU_RASP/main.py:169-178 | For every interleaving, batches consumed followed by the pending list are the samples appended |
| `PiThreads.EverySampleCounts` | ECU_RASP/main.py:163-245 | So consumed, pending and in-flight samples together are exactly those sensed, in order |
| `PiThreads.SampleArrives` | ECU_RASP/main.py:169-172 | A sensor thread that finds its lock free has its next sample in the list after four statements, and the lock free again |
| `PiThreads.DrainTakesAll` | ECU_RASP/main.py:221-245 | When a tick is done with a list nothing is pending: all appended before has been consumed |
| `PiThreads.TickOrder` | ECU_RASP/main.py:221-268 | A tick drains sensor 0, then sensor 1, and only then compares speeds and decides |
| `PiThreads.SpeedsFound` | ECU_RASP/main.py:86-99 | For every interleaving each comparison finds the last speed stored, 0 before any |
| `PiThreads.ComparisonsStop` | ECU_RASP/main.py:255-263 | A later stage is compared only after the earlier ones found at least 5 and 25 |
| `PiThreads.SectionsExclusive` | ECU_RASP/main.py:221-245 | For every interleaving the locked sections exclude each other and the list about to be cleared is the one the median was taken of |
| `PiThreads.DecisionsFollowBatches` | ECU_RASP/main.py:205-323 | For every interleaving, zones, filter state and messages are those of the batches consumed |
| `PiThreads.OnlyFirstTickCanKill` | ECU_RASP/main.py:225-268 | No interleaving kills the decision thread except by unset thresholds in its first tick |
| `PiThreads.DeathExactly` | ECU_RASP/main.py:255-268 | Under every interleaving it has died iff it went on after first three comparisons that found at least 5, 25 and 80 |
| `PiThreads.FastStartKills` | ECU_RASP/main.py:255-268 | Death is reachable: any speed of at least 80 read before the first tick, then ten statements of the decision thread |
| `PiThreads.SlowCarNeverKills` | ECU_RASP/main.py:86-99 | It never dies if no speed of 80 or more is read |
| `PiThreads.TickCompletes` | ECU_RASP/main.py:169-323 | No deadlock: from every reachable state at most 18 moves of the threads involved complete the tick, or the first tick dies of unset thresholds |
| `EndToEnd.SlowCarDecidesForever` | ECU_RASP/main.py:86-99 | If all speeds printed have magnitude below 80 and the first byte read starts a line, no interleaving with the parsed stream kills the decision thread, and every tick can complete |
| `EndToEnd.JoinedCarDecidesExactly` | ECU_RASP/main.py:15-99 | Joined at any byte of any line of such a stream, no interleaving kills the decision thread iff the rest of that line is refused or worth less than 80 |
| `StateLink.MessageAt` | ECU_RASP/main.py:317 | Message k carries the state after tick k and the slot it wrote |
| `StateLink.MessageRoundTrip` | ECU_RASP/main.py:317 | State and slot number are recovered from the bytes of a message, which has exactly three or four |
| `StateLink.StreamDecodable` | ECU_RASP/main.py:317 | Though nothing separates the messages, the bytes of a stream determine all of them |
| `StateLink.WholeChunksDecode` | ESP_IDF_CarControlESP32/main/uart_handler.c:76-87 | Chunks of whole messages decode to exactly the states of their first messages |
| `StateLink.HeadsNeverAddEdges` | ESP_IDF_CarControlESP32/main/uart_handler.c:83-93 | Looking only at chunk heads never adds a rising edge into AUTOBRAKE |
| `StateLink.WholeDeliveryEdges` | ESP_IDF_CarControlESP32/main/uart_handler.c:76-98 | Edges seen never exceed the Pi's AUTOBRAKE entries, and equal them with one message a chunk |
| `StateLink.CutChunkDecodes` | ESP_IDF_CarControlESP32/main/uart_handler.c:78-87 | For every stream and every cut, a chunk decodes to AUTOBRAKE iff it starts at the head of an AUTOBRAKE message or at the last digit of slot 2 or 12 |
| `StateLink.CutEdgesExactly` | ESP_IDF_CarControlESP32/main/uart_handler.c:83-93 | For every stream and every cut, the rising edges seen are the chunks that start so while the one before does not |
| `StateLink.ChunkHonestExactly` | ESP_IDF_CarControlESP32/main/uart_handler.c:78-87 | A chunk shows AUTOBRAKE as the message it starts in does iff it neither starts inside an AUTOBRAKE message, off such a digit, nor at such a digit of another message |
| `StateLink.HonestCutNeverOverBrakes` | ESP_IDF_CarControlESP32/main/uart_handler.c:76-98 | Any cut all of whose chunks are of that kind shows no more edges than the Pi has AUTOBRAKE entries, whole messages or not |
| `EndToEnd.CutDelivery` | ESP_IDF_CarControlESP32/main/uart_handler.c:76-98 | For every interleaving and every cut: the exact number of brake sequences, when AUTOBRAKE is on, and the bound for honest cuts |
| `EndToEnd.SpuriousBrakeExactly` | ESP_IDF_CarControlESP32/main/uart_handler.c:78-93 | For every history: some run has read all its messages and braked iff it has three ticks or more |
| `EndToEnd.SpuriousEdgeHappens` | ESP_IDF_CarControlESP32/main/uart_handler.c:78-93 | Three safe ticks from power-on never enter AUTOBRAKE, and a run that has read their messages has run one brake sequence |
| `EndToEnd.CutLosesAutobrake` | ESP_IDF_CarControlESP32/main/uart_handler.c:83-93 | For every history ending in AUTOBRAKE a run has read all its messages and still drives forward at the stick |
| `EndToEnd.CutBrakesTwice` | ESP_IDF_CarControlESP32/main/uart_handler.c:83-93 | A stream from power-on with one AUTOBRAKE entry has a run with two brake sequences |
| `Motors.CommandEffect` | ESP_IDF_CarControlESP32/main/mcpwm_brushed_dc_control.c:58-82 | Forward, backward and stop give one motor exactly that drive from any safe state, safely at each call, and leave the other alone |
| `Firmware.NeverForwardInAutobrake` | ESP_IDF_CarControlESP32/main/mcpwm_brushed_dc_control.c:84-192 | For any bytes and packets, in AUTOBRAKE and while the brake sequence sleeps no motor is driven forward |
| `Firmware.BridgesNeverShorted` | ESP_IDF_CarControlESP32/main/mcpwm_brushed_dc_control.c:58-97 | After no driver call of any run are both outputs of a bridge driven |
| `Firmware.UartMeaning` | ESP_IDF_CarControlESP32/main/uart_handler.c:76-98 | A read in any run: the state is the first byte minus 48; a brake sequence begins, stopping and then reversing both motors at 50, iff the byte is '2' and the state was not AUTOBRAKE; else no motor is touched |
| `Firmware.OnlyReadsCount` | ESP_IDF_CarControlESP32/main/uart_handler.c:76-98 | No other event changes the state, the chunks read or the number of brake sequences |
| `Firmware.EveryReadCounts` | ESP_IDF_CarControlESP32/main/uart_handler.c:70-100 | Over a whole run the chunks recorded are exactly the non-empty ones that found the task at its read, and brake sequences are their rising edges |
| `Firmware.OneBrakePerEdge` | ESP_IDF_CarControlESP32/main/uart_handler.c:76-98 | The brake sequence has begun exactly once per rising edge among the chunks read |
| `Firmware.DelayMeaning` | ESP_IDF_CarControlESP32/main/mcpwm_brushed_dc_control.c:92-102 | The end of a delay in any run: the pulse ends with both motors stopped, the hold with the next read |
| `Firmware.BrakeSequence` | ESP_IDF_CarControlESP32/main/mcpwm_brushed_dc_control.c:84-102 | Undisturbed, it reverses both motors at 50, stops them, and returns to the read still in AUTOBRAKE |
| `Firmware.PulseHeldExactly` | ESP_IDF_CarControlESP32/main/mcpwm_brushed_dc_control.c:92-94 | During the pulse both motors pull backward iff no packet came or the latest asks for reverse |
| `Firmware.StickMeaning` | ESP_IDF_CarControlESP32/main/mcpwm_brushed_dc_control.c:143-193 | Which drives a stick position gives both motors, in and outside AUTOBRAKE, whatever they did before |
| `Firmware.PacketMeaning` | ESP_IDF_CarControlESP32/main/bt_handler.c:75-80 | Any packet in any run: each axis is what its three digits report modulo 256, and both motors get the drives of these axes |
| `Firmware.StickThroughPacket` | ESP_IDF_CarControlESP32/main/bt_handler.c:75-80 | A position that fits an int8, sent in any run, is stored unchanged and gives both motors its own drives |
| `Firmware.JoystickRoundTrip` | ESP_IDF_CarControlESP32/main/bt_handler.c:75-76 | A stick position sent as digits of position + 200 arrives unchanged iff both axes fit an int8, and otherwise modulo 256 |
| `Firmware.Controller.McpwmMotorControl` | ESP_IDF_CarControlESP32/main/mcpwm_brushed_dc_control.c:143-193 | The function makes exactly the driver calls of the commands wanted |
| `Firmware.Controller.EmergencyBrake` | ESP_IDF_CarControlESP32/main/mcpwm_brushed_dc_control.c:84-94 | Up to its first delay it makes exactly the stop and reverse calls, once |
| `Firmware.Controller.GetEcuSerialParameters` | ESP_IDF_CarControlESP32/main/uart_handler.c:76-98 | One round of the task is the step of the step system, takes on the first byte minus 48 and brakes iff it is '2' and the state was not AUTOBRAKE |
| `Firmware.Controller.SppDataInd` | ESP_IDF_CarControlESP32/main/bt_handler.c:69-82 | Handling a packet is the step of the step system, stores the axes reported modulo 256 and gives both motors their drives |
| `Firmware.Controller.Schedule` | ESP_IDF_CarControlESP32/main/uart_handler.c:70-100 | Under any schedule the code's state is the step system's, bridges are exclusive, and AUTOBRAKE never drives forward |
| `SpeedLine.PrintedShape` | ESP_IDF_CarControlESP32/main/uart_handler.c:55-62 | A printed speed has a whole part without leading zeros, a point, exactly four digits and a newline, worth the ten-thousandths of its magnitude |
| `SpeedLine.ParsePrinted` | ECU_RASP/main.py:91-96 | Parsing it gives a value below the magnitude by less than 1/10000 |
| `SpeedLine.ParseExactly` | ECU_RASP/main.py:96 | Of all texts exactly the plain decimals are numbers, and worth what their digits say |
| `SpeedLine.LinesExactly` | ECU_RASP/main.py:91 | Any bytes: the lines are the stream up to its last newline, and each ends in its only newline |
| `SpeedLine.ReceivedExactly` | ECU_RASP/main.py:91-96 | The speeds received are the values of the lines in order, up to the first that is no number |
| `SpeedLine.StreamRoundTrip` | ECU_RASP/main.py:89-96 | Any sequence of speeds survives printing, concatenation, splitting at newlines and parsing, complete and in order |
| `SpeedLine.SpeedLink.SendSpeed` | ESP_IDF_CarControlESP32/main/uart_handler.c:50-68 | The stepwise printer appends exactly the printed line |
| `SpeedLine.ArrivedLines` | ECU_RASP/main.py:91 | When a sent stream has arrived in part, its complete lines are the first lines printed |
| `SpeedLine.SpeedLink.ReadSpeeds` | ECU_RASP/main.py:86-99 | The reader yields the parsed lines in order, takes away exactly the lines read, keeps the last as current speed, and dies iff a line is no number |
| `SpeedLine.Session` | ECU_RASP/main.py:86-99 | Sends, partial arrivals and reads in any order, the first byte read starting a line: the reader stays alive, has at any time the first speeds sent, and in the end all of them |
| `SpeedLine.JoinedLine` | ECU_RASP/main.py:15-99 | The rest of a printed line from any byte on: up to the point the speed without its leading digits, behind it an integer of up to four digits, and only the bare newline is no number |
| `SpeedLine.JoinedTooFast` | ECU_RASP/main.py:86-99 | A speed below 80 is so read as 80 or more iff joined behind the point at last digits worth that much |
| `SpeedLine.JoinPlace` | ECU_RASP/main.py:15-91 | Every byte of a sent stream is a byte of one of its lines |
| `SpeedLine.JoinedStream` | ECU_RASP/main.py:15-99 | A reader joining a stream at any byte gets that first value and then every later speed, or dies at once, iff it joined at a newline |
| `EndToEnd.CurrentIsFilterState` | ESP_IDF_CarControlESP32/main/uart_handler.c:83-87 | The ESP32's state is the filter's state after the tick whose message it acted on last |
| `EndToEnd.ObstacleStopsCar` | ECU_RASP/main.py:221-279 | Eight ticks with a close majority at some sensor: the brake has run and no motor is driven forward |
| `EndToEnd.BrakesBounded` | ECU_RASP/main.py:317 | Brake sequences never outnumber the filter's AUTOBRAKE entries, under any interleaving |
| `EndToEnd.FalseAlarmsNeverBrake` | ECU_RASP/main.py:53-57 | If no twenty consecutive ticks contain more than six close ones, no brake sequence ever runs and AUTOBRAKE is never taken on |
| `EndToEnd.ClearRoadReleasesCar` | ECU_RASP/main.py:281-306 | After eleven ticks without danger a forward stick drives both motors forward with exactly its duty |

## Left out

- Preemption inside a motor command, dual-core races and real time: interleaving is only at the points named above.
- Integer width of the printed speed: the whole part is unbounded here, while the code converts it to a C int.
- IEEE rounding of distances, speeds, duties and times.
- Firmware.Controller.SppDataInd: a packet shorter than seven bytes is modelled by arbitrary bytes, since the callback reads its buffer without looking at the length.
- SpeedLine.SpeedLink.ReadSpeeds: signs, exponents, underscores and surrounding blanks that Python's `float` accepts are treated as no number; the printer never sends them.
- The receive buffers of both UARTs: they never overflow here, and a chunk may have any length.
- The buzzer, the LEDs and the task that blinks them.
- The camera branch, the debug branches with random samples, and all of `ECU_RASP/TFLite_detection_webcam_mod.py`.
- `ESP_IDF_CarControlESP32/main/encoder_isr.c`, whose task does not compile, and `test_emergency_brakes`, which is never started.
- Bluetooth pairing, GPIO, NVS and PWM driver internals; of the PWM hardware only mode and duty of each output are kept.
- The older firmware in `CarControlESP32/` and the standalone scripts of `ECU_RASP/`.
