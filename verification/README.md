# The gripper SDK, verified

A Dafny model of the C++ SDK under `sdk_cpp/`: a background thread that keeps
exchanging a 16-byte command block for a 16-byte status block with a gripper,
the shared process image other threads read and wait on, the blocking
procedures written over it, the register model of the device, and the arithmetic
around them. `dafny verify dfyconfig.toml` checks all of it.

## How the pieces fit

- **The exchange cycle** (`ExchangeCycle`, `Carriage`, `LinkState`, `Pacing`) is
  a transition system. A `World` holds the image, the exchange thread's place in
  its loop, the link, the clock and the history; an `Event` is one atomic action
  of one thread; a run is any sequence of events. One transaction on the link has
  three outcomes: it never reached the device, it was acted on but its reply was
  lost, or it was answered. FC 0x17 writes before it reads (section 6.17 of the
  MODBUS Application Protocol Specification V1.1b3).
- **The code that makes those steps** (`GripperState`, `ProcessImage`,
  `ModbusClient`, `RegisterModel`, `StatusWriter`, `Packing`) is imperative, with
  the source's fields, arrays and loops. `GripperState.Valid` says that its fields,
  its image and the device at the far end are a reachable `World`; every method
  that touches shared state is proved to be exactly one event, and between any
  two of them arbitrary other threads run.
- **The clients' side** (`Waits`, `Activation`, `Procedures`) runs against every
  script of events the other threads and the link may produce between two of a
  client's own actions. `Waits.Gripper` is the handle of the one commander or of an
  observer: an observer's waits are proved for scripts in which commands are set, the
  commander's for scripts in which nobody else sets one. The handle keeps a trail of
  its own actions (the world and what is left of the script where each began, and
  whether it slept there), and of the time the others took while it was awake: the
  clock less that time is its own clock, by which its deadlines are judged. What a
  wait or a procedure did is stated of that trail, so that no run but the one taken
  can stand in for it. What the procedures promise about the device rests on
  `Manual.FollowsManual`, the register model's contract: it is proved to meet it from
  every state any sequence of writes can leave it in. A gripper that latches a new
  fault while rACT stays set is outside that contract.
- **The lock and the condition variable** (`Monitor`) repeat the process image one
  field access at a time, for any number of threads, and refine the atomic calls
  used above. `ThreadXCondition` does the same for the semaphore emulation.
- **Arithmetic and a client**: `Ticks` (64-bit integers), `Units` (exact reals),
  `Connecting` (seeding the command), `Recorder` (the logging example).

The clock is an integer in nanoseconds that never goes back. Blocks are byte
sequences, bits are bit-vectors, and two commands are equal when the whole blocks
are, as in the source.

## What the code does that its documentation does not say

- `ThreadXConditionVariable` documents that no notification is ever lost. With two
  waiters or more one can be: a waiter whose count is not reached registers again
  and takes another waiter's token. `ThreadXCondition.StrandsExactlyWithTwoWaiters`
  gives the run and the exact condition. The waiter left behind sleeps until its
  own deadline or a later notification.
- `blockingTicks` documents that any time left is worth at least one tick. That
  holds exactly up to 0xFFFFFFFE * 10^9 ticks a second
  (`Ticks.ZeroMeansNothingLeft`), so for every rate that fits 32 bits.
- `AlreadyActive` is documented for a gripper without a fault. The code looks at the
  gripper's own fault code only and refuses major ones, so it is returned on a faulted
  gripper if and only if that gripper is complete and its fault byte is
  `Blocks.Tolerated`: a minor fault or a warning of its own, or no fault of its own
  under any controller fault, major ones included (`Procedures.Activate`).
  `Manual.ToleratedWhileActive` reaches an active device with fault byte 0x08 and one
  with 0xC0.
- `containsRange` refuses an empty range at address 0, where its 32-bit
  subtraction wraps, and accepts one that starts just past the last register
  (`DeviceLaws.ContainsRangeMeaning`).
- Connecting leaves the status block bit-identical exactly when the device already
  reports its current, which a register model that was never written does not
  (`Connecting.ConnectingDisturbsNothing`, `ConnectingDisturbsTheUnwritten`).

## Model

| member | source | states |
|---|---|---|
| Procedures.RecoverFromFault | sdk_cpp/src/gripper.cpp:206-214 | until it sees a first exchange it sleeps only while nothing has completed since its first look; without one, or with less than half the timeout left, it commands nothing; otherwise the handshake runs, from the command on entry (see `RunActivationHandshake`), and `Activated` proves that during the call, whatever was in flight and whichever replies were lost, the device acted on a block with rACT clear and later on one with rACT set, and that from the completing exchange on every record is active, complete and fault-free; never asleep, on its own clock, from two milliseconds past its deadline on |
| Procedures.TriedInCall | sdk_cpp/src/gripper.cpp:199-213 | a handshake that ran after an exchange completed in the call reset the device during the call, not before it, and not with too little time left; one that did not run left everything alone |
| Procedures.HandshakeInTime | sdk_cpp/src/gripper.cpp:199-203 | the handshake runs if and only if twice the time left when the clock is read is the timeout or more, an odd millisecond dropped, and otherwise no command is set |
| Procedures.HalfTheTimeout | sdk_cpp/src/gripper.cpp:144-147 | the guard of the handshake, for every timeout, negative ones included: half the timeout in whole milliseconds, rounded toward zero |
| Procedures.AwaitFirstExchange | sdk_cpp/src/gripper.cpp:178-183 | the deadline counts from the clock read first; the exchange found is the newest, completed since the first look, and it slept only before it; none means none completed and the deadline passed or the image closed; never asleep, on its own clock, from two milliseconds past the deadline on |
| Procedures.Activate | sdk_cpp/src/gripper.cpp:176-204 | the whole decision on the first exchange seen: refused if and only if it shows a major fault, left alone if and only if it is complete without one (and which faults that tolerates), nothing done in either case; under way, the wait for completion and what it looked at; anything else, the handshake exactly as in `RecoverFromFault`; never asleep, on its own clock, from two milliseconds past the deadline on |
| Procedures.RunActivationHandshake | sdk_cpp/src/gripper.cpp:152-173 | the trail is exactly the two legs, one after the other; each leg sets its command, looks at every exchange it sees up to the one that shows it, and gives up only past the deadline or on a closed image with nothing newer than the last exchange it turned down; the first leg, and on a gripper that activates at once the second, looks at two exchanges at most and sleeps, or gives up, only up to the count at its first look or the first exchange since its command; given up on the reset, the entry command is back as the last action, else the block with rGTO cleared and rACT set stays; `Activated`: both edges reached the device, in order; after the reset nothing asks for a motion; neither leg goes to sleep, on its own clock, from two milliseconds past the deadline on |
| Procedures.SetAndAwait | sdk_cpp/src/gripper.cpp:163-164 | one leg: the command set, what was looked at from two gaps later on, and every action taken on the way |
| Procedures.WaitForActivationComplete | sdk_cpp/src/gripper.cpp:132-142 | `Activated` names the newest record, which shows completion; `Timeout`: every exchange looked at, up to the newest, was not complete, past the deadline or on a closed image; it never slept on one it had not turned down; nor from two milliseconds past the deadline on |
| Procedures.WaitForStatus | sdk_cpp/src/gripper.cpp:112-121 | from the newest record at its first look on, in strictly increasing counts, only the last exchange judged can meet the predicate; empty, nothing has completed since the last one judged, and the deadline passed or the image closed; it never slept on an exchange it had not turned down, nor, on its own clock, from two milliseconds past the deadline on |
| Procedures.Promptly | sdk_cpp/src/gripper.cpp:112-173 | a wait for what every record of the commanded block shows judges two exchanges at most, and turns down, or gives up at, nothing past its first look but the first record after the command |
| Waits.LookMayComeLate | sdk_cpp/include/Robotiq/gripper/wait.hpp:88-97 | why that bound counts from the first look and not from the command: the exchange thread may complete any number of exchanges in between |
| Procedures.WaitOperational | sdk_cpp/src/gripper.cpp:127-130 | the first exchange looked at is the answer, the only one judged: the newest, completed since the first look; until it came the wait slept only while there was none |
| Activation.HandshakeReactivates | sdk_cpp/src/gripper.cpp:152-173 | from a record that shows a reset and one that shows completion under the second command: the two blocks behind them, their order on the wire, the cleared fault and the completed state ever since |
| Activation.HeldForGood | sdk_cpp/src/gripper.cpp:149-173 | after that, in every run whose commands keep rACT, every further record shows an active, complete, fault-free gripper |
| Activation.NoMotionAfterReset | sdk_cpp/src/gripper.cpp:156-170 | no block the device acts on after the exchange that shows the reset has rGTO set |
| Activation.HandshakeBlocks | sdk_cpp/src/gripper.cpp:154-161 | the two handshake blocks differ from the entry block in rGTO and rACT and nowhere else in the other request bits or bytes |
| Activation.HandshakeBytes | sdk_cpp/src/gripper.cpp:154-161 | on the wire: the reset clears bits 0 and 3 of the first byte, the re-activation clears bit 3 and sets bit 0, and no other bit of the block differs from the entry block |
| Activation.AtMostTwoLooks | sdk_cpp/src/gripper.cpp:112-173 | a wait for something every record of the commanded block shows judges two exchanges at most: only the first can carry an older block |
| Manual.RegisterModelFollowsManual | sdk_cpp/src/fake/register_model.cpp:96-131 | the register model meets the contract the handshake relies on, from every state any sequence of register writes leaves it in |
| Manual.FaultStaysCleared | sdk_cpp/src/fake/register_model.cpp:100-112 | after a block with rACT clear the fault byte is 0 under every later sequence of blocks |
| Manual.CompletionStays | sdk_cpp/src/fake/register_model.cpp:104-120 | a completed activation stays complete for as long as every block keeps rACT |
| Manual.RecordShowsItsBlock | sdk_cpp/src/gripper_state.cpp:77-104 | a record's gACT is the rACT of the very block its transaction wrote; only a block with rACT set can show completion |
| Manual.AnyFaultWhileActive | sdk_cpp/src/fake/register_model.cpp:58-131 | for every fault byte, register writes reach a device whose first exchange under rACT shows complete with that fault |
| Manual.ToleratedWhileActive | sdk_cpp/src/gripper.cpp:185-194 | an active device with a minor fault (0x08), and one with a controller fault under no fault of its own (0xC0), neither refused |
| Blocks.ToleratedFaults | sdk_cpp/include/Robotiq/gripper/fault_status.hpp:68-91 | exactly which fault bytes are faults and yet not major |
| Carriage.CommandCarriage | sdk_cpp/src/gripper_state.cpp:75-104 | a command set at count n: one older block at most reaches the device afterwards, record n + 1 alone may carry an older one, and every record from n + 2 on carries it, put on the wire after the call |
| Carriage.OldBlockLands | sdk_cpp/src/gripper_state.cpp:77-104 | the exception is real: a block latched before the call is what record n + 1 carries |
| Carriage.WholeRecords | sdk_cpp/src/gripper_state.cpp:83-104 | in every run record k has count k, the block one transaction wrote and the device's answer to exactly that block, transactions in order, timestamps never going back |
| Carriage.StampedWhenAnswered | sdk_cpp/src/gripper_state.cpp:79-87 | in every run a record is stamped when its answer arrives: not before any moment at which the exchange had not been answered, not after any at which it had, however long publishing takes |
| Carriage.StopPublishesAtMostOnce | sdk_cpp/src/gripper_state.cpp:111-177 | once the running flag is clear, every run publishes at most one more record, and a closed image stays closed |
| Carriage.StopTakes | sdk_cpp/src/gripper_state.cpp:168-177 | from any reachable state, whatever happens before and after: once a run holds the clearing of the running flag it ends with the flag clear and at most one record more than then, and once it holds the closing of the image it ends with the image closed |
| Carriage.EndsOnlyWhenStopped | sdk_cpp/src/gripper_state.cpp:111-138 | no run of a started thread ends, or clears the running flag, unless it holds a stop |
| Carriage.LinkInEveryRun | sdk_cpp/src/gripper_state.cpp:88-109 | in every reachable state: records are published only in state Operational; between cycles the state is Faulted exactly when the last three attempts failed; the log lines alternate, and the last is the fault line exactly when Faulted |
| Carriage.NoBurstInAnyRun | sdk_cpp/src/gripper_state.cpp:111-137 | in every run of the whole system no window of length L holds more than L / period + 2 cycle starts |
| Carriage.NoDriftInAnyRun | sdk_cpp/src/gripper_state.cpp:114-135 | in every run from the start of the thread at t: deadline i is t + i * period for all i if and only if every cycle was over by its next such deadline |
| ExchangeCycle.RunKeepsInv | sdk_cpp/src/gripper_state.cpp:75-138 | every event keeps the invariant: records and their wire positions, the pending answer, timestamps, link and pacing |
| Carriage.RecordsAreAnsweredAttempts | sdk_cpp/src/gripper_state.cpp:75-109 | in every run there are as many records as answered attempts, the one about to be published aside |
| Carriage.AnyNumberMore | sdk_cpp/src/gripper_state.cpp:111-138 | a running thread is never stuck: from every reachable state some run completes any number of further exchanges |
| LinkState.FaultedExactlyOnThreeFailures | sdk_cpp/src/gripper_state.cpp:88-108 | over every sequence of attempts, through every wrap of the 32-bit counter: Faulted if and only if the last three or more all failed; "faulted" and "recovered" lines strictly alternate, faulted first |
| LinkState.AlwaysSettled | sdk_cpp/src/gripper_state.hpp:75-79 | the counter is the number of trailing failures modulo 2^32 |
| Pacing.NoBurst | sdk_cpp/src/gripper_state.cpp:132-135 | at most L / period + 2 starts in any window, for arbitrary exchange durations and oversleep |
| Pacing.NoDrift | sdk_cpp/src/gripper_state.cpp:115-135 | the i-th deadline is start + i * period for all i if and only if every cycle was over by its next grid deadline |
| Pacing.StartsApart | sdk_cpp/src/gripper_state.cpp:134-135 | cycles i < j start at least j - i - 1 periods apart |
| GripperState.GripperState.Start | sdk_cpp/src/gripper_state.cpp:111-138 | the whole loop, under any interference and any outcomes, is a run of the transition system from the image and clock found on entry, one attempt per outcome in order and one record per answered attempt, and it leaves the loop early only when another thread has told it to stop |
| GripperState.GripperState.ExchangeOnce | sdk_cpp/src/gripper_state.cpp:75-109 | an answered attempt adds exactly one record, carried by the block it put on the wire, any other none; earlier records stay; the attempt is counted as what it was |
| GripperState.GripperState.Conclude | sdk_cpp/src/gripper_state.cpp:100-108 | the success path adds one answered attempt and one record, the link turned before the record is out |
| GripperState.GripperState.Cycle | sdk_cpp/src/gripper_state.cpp:116-136 | one turn of the loop: an attempt and, when it is answered, a record; or the exit, when told to stop |
| GripperState.GripperState.InitializeImage | sdk_cpp/src/gripper_state.cpp:42-73 | succeeds if and only if one of three reads is answered; then record 0 holds that status, the seeded command and the clock, the image that command, and the state is Operational; otherwise both are untouched |
| GripperState.GripperState.CountFailure | sdk_cpp/src/gripper_state.cpp:88-98 | the catch block is the link's failure step, wrap and log line included |
| GripperState.GripperState.Transact | sdk_cpp/src/gripper_state.cpp:79-87 | the device is left as the blocks it has acted on dictate, for each of the three outcomes, and an answer is stamped with the clock at its arrival |
| GripperState.GripperState.TurnOperational | sdk_cpp/src/gripper_state.cpp:100-103 | the state turns, as one step, before the record is published |
| GripperState.GripperState.Publish | sdk_cpp/src/gripper_state.cpp:104-104 | the record published is the latched command and the status of its own transaction |
| GripperState.GripperState.ComputeNextCycle | sdk_cpp/src/gripper_state.cpp:132-134 | the next deadline is the pacing recurrence's |
| GripperState.GripperState.SleepUntilNextCycle | sdk_cpp/src/gripper_state.cpp:135-135 | the next cycle begins no earlier than its deadline, however late |
| Monitor.NoWakeupIsLost | sdk_cpp/src/process_image.cpp:76-107 | in every reachable state of any number of threads, a thread blocked in `sync` whose count is reached or whose image is closed has some thread standing between its unlock and its `notifyAll`, spurious wakes allowed |
| Monitor.ReadsAreWhole | sdk_cpp/src/process_image.cpp:64-98 | whatever the interleaving of field writes and field copies, every record returned is exactly the one published under its count, and no reader's counts decrease |
| Monitor.CallsAreAtomic | sdk_cpp/src/process_image.cpp:40-107 | the field-by-field system refines one atomic operation per call, and a `sync` returns only when its count is reached, the image is closed or its deadline passed |
| Monitor.ClosingIsFinal | sdk_cpp/src/process_image.cpp:90-107 | once closed, closed in every run, and no `sync` blocks again |
| Monitor.CloseTakes | sdk_cpp/src/process_image.cpp:90-107 | after any run in which a `close` has left the mutex the image is closed, and no `sync` that has not blocked before blocks |
| Monitor.BlocksExactly | sdk_cpp/src/process_image.cpp:90-97 | inside the mutex a `sync` blocks if and only if its count is not reached, the image is open and its deadline is ahead, and it gives the mutex up in doing so |
| Monitor.NotifyWakesAll | sdk_cpp/include/Robotiq/gripper/platform.hpp:38-40 | a notification leaves no thread blocked |
| Monitor.CallFinishes | sdk_cpp/src/process_image.cpp:40-107 | from every reachable state a thread that holds the mutex or finds it free, and whose `sync` has what it waits for, finishes its call by its own steps, with the whole effect of the call and no other |
| ProcessImage.ProcessImage.Publish | sdk_cpp/src/process_image.cpp:81-86 | one more completed exchange, the command image untouched |
| ProcessImage.ProcessImage.Seed | sdk_cpp/src/process_image.cpp:40-50 | count 0, and the same command in the record and the image |
| Waits.Gripper.WaitForExchangeAfter | sdk_cpp/include/Robotiq/gripper/wait.hpp:30-50 | for the commander or an observer: judges only records completed after the starting count, in strictly increasing counts; what it returns met the predicate, is the last judged and the newest; empty, nothing has completed since the last one judged, and the deadline computed on entry really passed or the image closed; it never slept on an exchange newer than the last it turned down; it went to sleep, on its own clock, for less than a millisecond past the timeout, and for no time at all without one; it ends within the others' events |
| Waits.Gripper.Round | sdk_cpp/include/Robotiq/gripper/wait.hpp:40-44 | one turn of its loop: the newest record when the count is reached, none only past the deadline or on a closed image; asleep only while the count is not reached and, on its own clock, less than a millisecond past the deadline |
| Waits.FirstMatch | sdk_cpp/include/Robotiq/gripper/wait.hpp:76-87 | when no count was skipped, what comes back is the first record after the start that meets the predicate |
| Waits.JudgedBound | sdk_cpp/include/Robotiq/gripper/wait.hpp:38-49 | never more exchanges judged than completed since the start |
| Waits.RoundInTime | sdk_cpp/include/Robotiq/gripper/wait.hpp:23-43 | neither the rounding up to milliseconds nor the cap ends a round before the wait's own deadline, nor a millisecond after it, and past it a round waits for no time at all |
| Waits.Remaining | sdk_cpp/src/gripper.cpp:106-110 | the least whole number of milliseconds that reaches the deadline, 0 when it passed |
| Waits.Gripper.SetCommandAndWaitForExchange | sdk_cpp/src/wait.cpp:18-31 | the record returned completed after the call began, carries the whole block, and that block was written to the device; of the exchanges looked at, from the newest before the command on, it is the only one that carries it (with `FirstMatch`, the first of all when no count was skipped); empty, at most one exchange has completed since the command |
| Waits.CarriedByThen | sdk_cpp/src/wait.cpp:22-31 | once two exchanges have completed since the command, the last one looked at carries it |
| Waits.Gripper.WaitFor | sdk_cpp/include/Robotiq/gripper/wait.hpp:88-97 | the same wait, from the newest record at its first look |
| Waits.Gripper.WaitForExchangeCount | sdk_cpp/src/gripper.cpp:79-89 | the newest record, at or past the count asked for; empty if and only if the count is not reached, and then only at the deadline or when closed |
| Waits.Gripper.WaitForExchange | sdk_cpp/src/gripper_state.cpp:155-161 | the newest record; a count of zero is met at once by the seed |
| Waits.Gripper.Sync | sdk_cpp/src/process_image.cpp:90-98 | the newest record, past the count unless the deadline passed or the image closed, under any interference, commands included; it sleeps only while the count is not reached |
| Waits.Gripper.WaitUntil | sdk_cpp/include/Robotiq/gripper/platform.hpp:33-36 | the platform contract: others run, the wait may end for no reason, and at the latest at the deadline |
| DeviceLaws.AlwaysConsistent | sdk_cpp/src/fake/register_model.cpp:58-131 | over every sequence of writes from power-up, partial, overlapping or refused: gACT = rACT = the remembered bit, gSTA Complete exactly when rACT, gGTO and AtRequestedPosition exactly when rACT and rGTO, gPR = gPO = rPR, no fault without rACT |
| DeviceLaws.WriteKeepsConsistent | sdk_cpp/src/fake/register_model.cpp:58-131 | one write keeps that; a refused one changes nothing; the fault byte is 0 when rACT is clear afterwards, else what the write stored over it, else what it was |
| DeviceLaws.ContainsRangeMeaning | sdk_cpp/src/fake/register_model.cpp:27-31 | for a non-empty range, true if and only if no register it reaches is outside the file; for an empty one, the wrap's exact effect |
| RegisterModel.RegisterModel.Write | sdk_cpp/src/fake/register_model.cpp:58-68 | the array, the remembered bit and the activation flag become the specified device, refused ranges included |
| RegisterModel.RegisterModel.Read | sdk_cpp/src/fake/register_model.cpp:41-56 | the addressed registers with the command block reading as zeros, nothing past the quantity touched, nothing at all for a refused range |
| RegisterModel.RegisterModel.ProcessCommand | sdk_cpp/src/fake/register_model.cpp:96-131 | the edge tracking and the whole answering block |
| RegisterModel.RegisterModel.SetStatus | sdk_cpp/src/fake/register_model.cpp:90-94 | the status block replaced, every other register kept |
| Connecting.ConnectingDisturbsNothing | sdk_cpp/src/gripper_state.cpp:67-72 | the first exchange after seeding makes no rACT edge, and leaves the status block bit-identical if and only if the device already reports its current |
| Connecting.ConnectingAfterAnyWrite | sdk_cpp/src/gripper_state.cpp:67-72 | so every device any accepted write has reached is left undisturbed |
| Connecting.ConnectingDisturbsTheUnwritten | sdk_cpp/src/gripper_state.cpp:67-72 | a device nothing was ever written to is disturbed: its current byte changes |
| Connecting.SeedBytes | sdk_cpp/src/gripper_state.cpp:67-70 | all sixteen bytes of the seeded command: gACT and gGTO in bits 0 and 3, gPR in byte 3, 0xFF in bytes 4 and 5, zeros elsewhere |
| ModbusClient.DeviceDecodesCommand | sdk_cpp/src/modbus_client.cpp:180-191 | the device decodes the six documented bytes the client encoded and keeps its own reserved tail |
| ModbusClient.ClientDecodesStatus | sdk_cpp/src/modbus_client.cpp:157-168 | the client decodes the device's six status bytes under a zero tail, which for a device in its invariant is the whole block |
| ModbusClient.Exchange | sdk_cpp/src/modbus_client.cpp:180-195 | written before read; the device acts unless the request never arrived, and the reply is its state after acting |
| ModbusClient.ReadStatus | sdk_cpp/src/modbus_client.cpp:157-168 | a read answers the device's status and changes nothing |
| ModbusClient.Delivered | sdk_cpp/src/modbus_client.cpp:170-178 | what a delivered block leaves in a consistent device |
| ModbusClient.OnTheWire | sdk_cpp/src/fake/register_model.cpp:58-131 | register by register, for a consistent device: the command goes to 1000 to 1002, more significant byte first; the flags, the fault byte, rPR twice and the current appear in 2000 to 2002, zeros up to 2007; nothing else changes |
| ModbusClient.ReadOnTheWire | sdk_cpp/src/fake/register_model.cpp:41-56 | the command registers read as zero, all others as stored, and the client takes the bytes of 2000 to 2002 in order |
| Packing.BytesRoundTrip | sdk_cpp/include/Robotiq/detail/byte_packing.hpp:27-46 | bytes to registers to bytes is the identity, for any register count |
| Packing.RegistersRoundTrip | sdk_cpp/include/Robotiq/detail/byte_packing.hpp:27-46 | registers to bytes to registers is the identity |
| Packing.MostSignificantFirst | sdk_cpp/include/Robotiq/detail/byte_packing.hpp:27-36 | the even byte of a pair is the more significant half of its register |
| Packing.RegistersFromBytes | sdk_cpp/include/Robotiq/detail/byte_packing.hpp:27-36 | the loop fills the array with the MSB-first registers of the block |
| Packing.BytesFromRegisters | sdk_cpp/include/Robotiq/detail/byte_packing.hpp:38-46 | the loop writes the registers' bytes and leaves the rest of the block |
| StatusWriter.SetActivationState | sdk_cpp/src/fake/status_writer.cpp:52-58 | readers of the block decode the state written, and every other flag, the reserved bits and bytes 1 to 15 as before |
| StatusWriter.SetObjectDetection | sdk_cpp/src/fake/status_writer.cpp:60-66 | readers of the block decode the detection written, and every other flag, the reserved bits and bytes 1 to 15 as before |
| StatusWriter.SetActivated | sdk_cpp/src/fake/status_writer.cpp:40-44 | readers decode gACT as written and everything else as before |
| StatusWriter.SetGoToEnabled | sdk_cpp/src/fake/status_writer.cpp:46-50 | readers decode gGTO as written and everything else as before |
| StatusWriter.FlagsDetermineByte | sdk_cpp/src/fake/status_writer.cpp:28-66 | the flags byte is nothing but the four decoded fields and the reserved bits |
| RegisterModel.ResponseFlagsMeaning | sdk_cpp/src/fake/register_model.cpp:115-126 | the answering flags decode to exactly what the command asks for, and no other byte does |
| Blocks.SetTouchesOneBit | sdk_cpp/include/Robotiq/detail/named_bit_array.hpp:31-45 | setting a bit gives it the value asked for and leaves every other named bit |
| Blocks.SetKeepsTheRest | sdk_cpp/include/Robotiq/detail/named_bit_array.hpp:31-45 | all other bits and bytes stay, undocumented ones included, and the edit is the identity if and only if the bit had the value |
| Blocks.CommandLayout | sdk_cpp/include/Robotiq/gripper/command.hpp:18-30 | rACT, rGTO, rATR and rARD are bits 0, 3, 4 and 5 of byte 0, the position request is byte 3 |
| Blocks.EditLayout | sdk_cpp/include/Robotiq/detail/named_bit_array.hpp:31-45 | what setting and clearing each of them makes of the byte |
| Blocks.StatusLayout | sdk_cpp/include/Robotiq/gripper/status.hpp:62-111 | where gACT, gGTO, gSTA and gOBJ lie in byte 0, value by value, and the fault, echo, position and current bytes |
| ThreadXCondition.AlwaysAccounted | sdk_cpp/ports/threadx/threadx_platform.hpp:96-112 | in every run of any number of waiters and notifiers, the count is the number of threads between increment and decrement, and tokens left plus tokens taken are the tokens put |
| ThreadXCondition.InsideTheMutex | sdk_cpp/src/process_image.cpp:76-107 | inside the mutex a publish counts one record more and a close closes; a wait returns when its count is reached or the image is closed, else it registers before it lets the mutex go |
| ThreadXCondition.StrandsExactlyWithTwoWaiters | sdk_cpp/ports/threadx/threadx_platform.hpp:73-112 | some run leaves a waiter whose condition holds on an empty semaphore with nobody about to put a token if and only if there are two waiters or more and a notifier |
| ThreadXCondition.AlwaysLone | sdk_cpp/ports/threadx/threadx_platform.hpp:96-112 | with a single waiter and any number of notifiers, a waiter whose condition holds has a token or one coming, in every run |
| ThreadXCondition.TokenStolen | sdk_cpp/ports/threadx/threadx_platform.hpp:96-112 | the concrete run in which one waiter takes the other's token |
| Ticks.BlockingTicks | sdk_cpp/ports/threadx/threadx_ticks.hpp:23-38 | no intermediate leaves 64 bits and the result is never TX_WAIT_FOREVER, for every duration and rate |
| Ticks.LeastThatLasts | sdk_cpp/ports/threadx/threadx_ticks.hpp:31-37 | the least number of ticks that lasts the duration, whenever a finite wait can |
| Ticks.CutShortExactlyWhenTooLong | sdk_cpp/ports/threadx/threadx_ticks.hpp:29-36 | the cap cuts a duration short if and only if no finite wait could last it |
| Ticks.SaturatesAtTheTop | sdk_cpp/ports/threadx/threadx_ticks.hpp:30-37 | a longer duration becomes the longest finite wait, less at most one nanosecond's worth of ticks (none for rates up to one tick a nanosecond) |
| Ticks.Monotone | sdk_cpp/ports/threadx/threadx_ticks.hpp:23-38 | a longer duration never blocks for less |
| Ticks.ZeroMeansNothingLeft | sdk_cpp/ports/threadx/threadx_ticks.hpp:17-37 | "zero exactly when nothing is left", for all durations, if and only if the rate is at most 0xFFFFFFFE * 10^9 |
| Ticks.AbsurdRateRoundsToNothing | sdk_cpp/ports/threadx/threadx_ticks.hpp:31-37 | a rate and a duration for which it fails |
| Units.RegisterRoundTrip | sdk_cpp/src/units.cpp:60-81 | register to opening to register is the identity inside the profile's band, the nearer end outside it |
| Units.OpeningRoundTrip | sdk_cpp/src/units.cpp:60-81 | the register stays in the band, its opening misses the clamped one by span / (2 * band) at most, and no register's opening is nearer |
| Units.OrderReversed | sdk_cpp/src/units.cpp:60-81 | both maps reverse the order, strictly so for registers in the band |
| Units.EndsMeet | sdk_cpp/include/Robotiq/gripper/device_profile.hpp:36-46 | an opening at or past an end is that end's register |
| Units.NormalizedRoundTrip | sdk_cpp/src/units.cpp:38-58 | every register survives; a value comes back clamped within 1/510, in order |
| Units.SpanRegister | sdk_cpp/src/units.cpp:23-31 | accepted exactly when all three are finite, the value is not negative and the span not empty; then the register nearest the clamped value |
| Units.SpanInOrder | sdk_cpp/src/units.cpp:23-31 | monotone, 0 at and below the minimum, 255 at and above the maximum |
| Units.Nearest | sdk_cpp/src/units.cpp:17-20 | the rounding cast keeps its value, is nearest, and ties go up |
| Recorder.Recorder.Run | sdk_cpp/examples/exchange_log.cpp:127-162 | rows and reported gaps tile the counts from the newest record at the start to the newest at the end, each row the record published under its count; rows + skipped is the number of exchanges passed, one less after a write failure; it ends at a set stop flag or a failed write and for no other reason, every look before that at a clear flag becoming a row, the failed write or a wait in vain, and each wait in vain took its 500 ms unless the image is closed; for every stop and write behaviour, while another thread commands the gripper |
| Recorder.Recorder.Take | sdk_cpp/examples/exchange_log.cpp:142-160 | a record that landed adds one row, preceded by one gap exactly covering what was missed |
| Recorder.Conservation | sdk_cpp/examples/exchange_log.cpp:143-160 | rows plus exchanges in gaps is the count difference |
| Recorder.ExactlyOne | sdk_cpp/examples/exchange_log.cpp:143-160 | every exchange in between is a row or inside a gap, and in exactly one of them |
| Recorder.InCountOrder | sdk_cpp/examples/exchange_log.cpp:151-152 | row counts strictly increase, and gaps lie between them |

## Left out

- nanoMODBUS framing, CRC and slave addressing: one transaction is its three outcomes. A request the device acts on only after the client gave up on it, later than the next transaction, is not modelled.
- Serial ports, drivers, sysfs and termios plumbing, the Windows timer: calls into the operating system.
- `StdConditionVariable` and `StdMutex` internals: `Monitor` uses the platform contract (unlock and block in one step, spurious wakes allowed), which the standard-library wrapper is taken to meet.
- ThreadX kernel calls: `ThreadXCondition` models the condition variable as a transition system over kernel calls, not as a class; thread creation, `join` and the mutex object are left out.
- ThreadXCondition.StrandsExactlyWithTwoWaiters: the timeout of a get is a step that may happen at any time, so nothing is said about how long a waiter left behind sleeps.
- Several commanders: documented as undefined behaviour. The procedures and `setCommandAndWaitForExchange` are proved for the one commander (`Gripper.commander`); the theorems about a command's fate say `Uncommanded` or `KeepsActive` where they speak of one.
- Waits.Gripper.WaitForExchangeAfter: ends because the other threads' script is finite; past the deadline it no longer sleeps, but each further round still consumes a newly completed exchange, so no bound on the number of rounds is stated.
- ProcessImage.ProcessImage.Publish: one critical section; the lock around it and the notification after it are modelled in `Monitor`.
- Waits.Gripper.Sync: one client's view of the shared image, the mutex and the condition variable being those of `Monitor`; when the script runs out the other threads have stopped.
- Monitor.ClosingIsFinal: concerns the image; that `join` in `stop` returns is the platform's business.
- GripperState.GripperState.Start: the thread runs as many cycles as it is given outcomes; the failure log throttle and the text of log lines are left out.
- Procedures.RunActivationHandshake: that the second leg is prompt needs `ActivatesAtOnce`, which the register model meets; a gripper whose sweep takes time keeps that wait judging until it is done.
- Floating-point rounding, and a span that overflows although both its ends are finite: `Units` computes over exact reals, with infinities and NaN as one non-finite value.
- Width of the 64-bit exchange count and of the steady clock: both unbounded here; `deadlineAfter`'s cap is modelled, and the procedures' own `now + timeout`, which has none, is computed without overflow.
- Command blocks and the action byte are values, not objects updated in place; the image's `setCommand` copies a whole block in the source as well.
- Test-only staging of the device (`setFault`, pinned statuses, direct register pokes): it breaks the device invariant on purpose.
- `waitForPositionEcho`, `waitForObjectDetection`, `waitForMotionEnd`, `waitForExchange(timeout)`, `speedToRegister`, `effortToRegister`: one predicate, one addition or one choice of bounds over what is above.
- Deprecated polling waits and shims, loggers, `toString`, throttle, frequency clamp, connection configuration, the other examples, motor current: input and output, or easy members.
