// The thread that runs the exchange cycle, as code: every line of it that touches
// shared state is one step of the cycle's transition system.
module GripperState {
  import opened Blocks
  import opened ProcessImage
  import opened RegisterModel
  import opened LinkState
  import opened Pacing
  import opened ModbusClient
  import opened ExchangeCycle
  import opened Carriage
  import opened Manual
  import opened Connecting

  const INITIAL_READ_ATTEMPTS := 3

  // What the other threads may do: anything but the exchange thread's own steps.
  predicate ByOthers(events: seq<Event>) {
    forall i :: 0 <= i < |events| ==> !events[i].Thread?
  }

  lemma DeliverOneMore(d: Device, written: seq<GripperCommand>, c: GripperCommand)
    ensures DeliverAll(d, written + [c]) == Deliver(DeliverAll(d, written), c)
    ensures RegisterGripper(d)(written + [c]) == Observed(DeliverAll(d, written + [c]))
  {
    assert (written + [c])[..|written|] == written;
  }

  // The attempts on record are the first outcomes, in order.
  predicate AttemptsOf(attempts: seq<bool>, outcomes: seq<Outcome>) {
    |attempts| <= |outcomes| && forall i :: 0 <= i < |attempts| ==> attempts[i] == outcomes[i].Answered?
  }

  lemma OneMoreOutcome(attempts: seq<bool>, outcomes: seq<Outcome>, completed: bool)
    requires AttemptsOf(attempts, outcomes) && |attempts| < |outcomes| && completed == outcomes[|attempts|].Answered?
    ensures AttemptsOf(attempts + [completed], outcomes)
  {
  }

  class GripperState {
    const image: ProcessImage
    const device: RegisterModel // at the far end of the link
    const period: nat
    ghost const connected: Device // the device as the connection found it
    var consecutiveFailures: nat
    var connectionState: ConnectionState
    var running: bool
    var nextCycle: int
    var now: int
    var lines: seq<Line>
    // what the other threads do in each gap of the exchange thread's run
    var script: seq<seq<Event>>
    ghost var start: World
    ghost var past: seq<Event>
    ghost var world: World

    // The fields, the image and the device are what the transition system says.
    ghost predicate Valid()
      reads this, image, device, device.registers
    {
      && device.Valid()
      && Initial(start) && start.pace.deadlines != [] && world == Run(start, past)
      && Inv(world) && world.pace.deadlines != []
      && world.gripper == RegisterGripper(connected)
      && device.State() == DeliverAll(connected, world.written)
      && world.image == image.Value()
      && world.link.failures == consecutiveFailures && world.link.state == connectionState && world.link.lines == lines
      && world.running == running
      && world.now == now && world.pace.period == period
      && world.pace.deadlines[|world.pace.deadlines| - 1] == nextCycle
      && forall i :: 0 <= i < |script| ==> ByOthers(script[i])
    }

    constructor (d: RegisterModel, exchangePeriod: nat, t: int, others: seq<seq<Event>>)
      requires d.Valid() && forall i :: 0 <= i < |others| ==> ByOthers(others[i])
      ensures device == d && connected == d.State() && period == exchangePeriod && fresh(image)
      ensures connectionState == Connecting && !running && consecutiveFailures == 0 && lines == [] && now == t
      ensures !image.Value().closed && script == others
    {
      image := new ProcessImage();
      device, period := d, exchangePeriod;
      connected := d.State();
      consecutiveFailures, connectionState, running, lines := 0, Connecting, false, [];
      nextCycle, now, script := t, t, others;
    }

    // Read the status, trying three times, and seed the command image from its
    // echoes; false is the source's exception.
    method InitializeImage(tries: seq<Outcome>) returns (ok: bool)
      requires |tries| == 3
      requires device.Valid() && connected == device.State()
      modifies this, image
      ensures ok <==> tries[0].Answered? || tries[1].Answered? || tries[2].Answered?
      ensures !ok ==> image.Value() == old(image.Value()) && connectionState == old(connectionState)
      ensures ok ==>
        var status := Observed(connected);
        && image.Value().stamped == StampedExchange(0, now, SeedCommand(status), status)
        && image.Value().command == SeedCommand(status) && image.Value().closed == old(image.Value().closed)
        && connectionState == Operational
      ensures now == old(now) && consecutiveFailures == old(consecutiveFailures)
      ensures lines == old(lines) && script == old(script)
    {
      var attempt := 1;
      var reply := ReadStatus(device, tries[attempt - 1]);
      while reply.Failed?
        modifies {}
        invariant 1 <= attempt <= INITIAL_READ_ATTEMPTS
        invariant forall i :: 0 <= i < attempt - 1 ==> !tries[i].Answered?
        invariant reply == if tries[attempt - 1].Answered? then Status(Observed(connected)) else Failed
        invariant image.Value() == old(image.Value()) && connectionState == old(connectionState)
        decreases INITIAL_READ_ATTEMPTS - attempt
      {
        if attempt >= INITIAL_READ_ATTEMPTS {
          return false;
        }
        attempt := attempt + 1;
        reply := ReadStatus(device, tries[attempt - 1]);
      }
      var status := reply.status;
      var command := DefaultCommand();
      command := command.Set(Activate, status.Activated());
      command := command.Set(GoTo, status.GoToEnabled());
      command := command.WithPositionRequest(status.PositionRequestEcho());
      image.Seed(status, now, command);
      connectionState := Operational;
      return true;
    }

    // The other threads run until the exchange thread's next action.
    method Others()
      requires Valid()
      modifies this, image
      ensures Valid() && Undisturbed() && now >= old(now)
    {
      hide Inv, Run, Initial, Observed, Deliver, RegisterGripper, DeliverAll;
      if script == [] {
        return;
      }
      var events := script[0];
      script := script[1..];
      for i := 0 to |events|
        invariant Valid() && Undisturbed() && ByOthers(events) && now >= old(now)
      {
        Act(events[i]);
      }
    }

    // The other threads touch neither the thread's place in its loop, nor the
    // link, nor any record.
    twostate predicate Undisturbed()
      reads this
    {
      && SameRecords() && nextCycle == old(nextCycle)
      && world.phase == old(world.phase) && world.link == old(world.link) && world.pace == old(world.pace)
    }

    twostate predicate SameRecords()
      reads this
    {
      && start == old(start) && old(past) <= past
      && world.written == old(world.written) && world.history == old(world.history) && world.wires == old(world.wires)
      && world.Count() == old(world).Count()
    }

    // One action of another thread.
    method Act(e: Event)
      requires Valid() && !e.Thread?
      modifies this, image
      ensures Valid() && world == Step(old(world), e) && start == old(start)
      ensures script == old(script) && old(past) <= past
    {
      hide Inv, Run, Initial, Observed, Deliver, RegisterGripper, DeliverAll;
      match e {
        case Command(c) => image.SetCommand(c);
        case StopRunning => running := false;
        case CloseImage => image.Close();
        case Tick(elapsed) => now := now + elapsed;
        case Thread(_) => assert false;
      }
      Advance(e);
    }

    ghost method Advance(e: Event)
      requires start.pace.deadlines != [] && world == Run(start, past) && Inv(world)
      modifies `world, `past
      ensures world == Step(old(world), e) && world == Run(start, past) && Inv(world) && past == old(past) + [e]
    {
      assert [e][..0] == [] && Run(world, []) == world;
      RunConcat(start, past, [e]);
      StepKeepsInv(world, e);
      past := past + [e];
      world := Step(world, e);
    }
  
    // ----- The exchange thread's actions -----

    // `while(_running.load())`
    method TestRunning(outcome: Outcome) returns (goOn: bool)
      requires Valid() && world.phase.LoopHead?
      modifies this
      ensures Valid() && Stepped(outcome) && SameRecords() && world.link == old(world.link)
      ensures goOn <==> old(running)
      ensures if goOn then world.phase.Latching? else world.phase.Exited?
    {
      hide Inv, Run, Initial, Observed, Deliver, RegisterGripper, DeliverAll;
      goOn := running;
      Advance(Thread(outcome));
    }

    method Latch(outcome: Outcome) returns (commandCopy: GripperCommand)
      requires Valid() && world.phase.Latching?
      modifies this
      ensures Valid() && Stepped(outcome) && world.phase == OnWire(commandCopy)
    {
      hide Inv, Run, Initial, Observed, Deliver, RegisterGripper, DeliverAll;
      commandCopy := image.command;
      Advance(Thread(outcome));
    }

    method Transact(commandCopy: GripperCommand, outcome: Outcome) returns (reply: Reply, completedAt: int)
      requires Valid() && world.phase == OnWire(commandCopy)
      modifies this, device, device.registers
      ensures Valid() && Stepped(outcome)
      ensures reply.Failed? <==> !outcome.Answered?
      ensures reply.Failed? ==> world.phase.Failing?
      ensures !reply.Failed? ==> world.phase == Phase.Answered(commandCopy, reply.status, completedAt)
      ensures completedAt == old(now) == now
    {
      hide Inv, Run, Initial, Observed, Deliver, RegisterGripper, DeliverAll;
      DeliverOneMore(connected, world.written, commandCopy);
      reply := Exchange(device, commandCopy, outcome);
      completedAt := now;
      Advance(Thread(outcome));
    }

    // The catch block.
    method CountFailure(outcome: Outcome)
      requires Valid() && world.phase.Failing?
      modifies this
      ensures Valid() && Stepped(outcome) && world.phase.PacingNext?
    {
      hide Inv, Run, Initial, Observed, Deliver, RegisterGripper, DeliverAll;
      consecutiveFailures := (consecutiveFailures + 1) % COUNTER_RANGE;
      if consecutiveFailures >= FAULT_THRESHOLD {
        var was := connectionState;
        connectionState := Faulted;
        if was != Faulted {
          lines := lines + [LinkFaulted];
        }
      }
      Advance(Thread(outcome));
    }

    method ClearFailures(outcome: Outcome)
      requires Valid() && world.phase.Answered?
      modifies this
      ensures Valid() && Stepped(outcome) && SameRecords() && world.link.attempts == old(world.link.attempts)
      ensures world.phase == Cleared(old(world.phase.command), old(world.phase.status), old(world.phase.at))
    {
      hide Inv, Run, Initial, Observed, Deliver, RegisterGripper, DeliverAll;
      consecutiveFailures := 0;
      Advance(Thread(outcome));
    }

    method TurnOperational(outcome: Outcome) returns (recovered: bool)
      requires Valid() && world.phase.Cleared?
      modifies this
      ensures Valid() && Stepped(outcome) && SameRecords() && world.link.attempts == old(world.link.attempts) + [true]
      ensures world.phase == Turned(old(world.phase.command), old(world.phase.status), old(world.phase.at), recovered)
    {
      hide Inv, Run, Initial, Observed, Deliver, RegisterGripper, DeliverAll;
      recovered := connectionState == Faulted;
      connectionState := Operational;
      Advance(Thread(outcome));
    }

    method Publish(commandCopy: GripperCommand, freshStatus: GripperStatus, completedAt: int, recovered: bool,
        outcome: Outcome)
      requires Valid() && world.phase == Turned(commandCopy, freshStatus, completedAt, recovered)
      modifies this, image
      ensures Valid() && Stepped(outcome) && world.phase == Phase.Published(recovered) && world.link == old(world.link)
      ensures world.history == old(world.history) + [world.image.stamped]
      ensures world.wires == old(world.wires) + [|old(world.written)| - 1] && world.written == old(world.written)
      ensures world.Count() == old(world).Count() + 1
    {
      hide Inv, Run, Initial, Observed, Deliver, RegisterGripper, DeliverAll;
      image.Publish(commandCopy, freshStatus, completedAt);
      Advance(Thread(outcome));
    }

    method AnnounceRecovery(recovered: bool, outcome: Outcome)
      requires Valid() && world.phase == Phase.Published(recovered)
      modifies this
      ensures Valid() && Stepped(outcome) && world.phase.PacingNext? && SameRecords()
      ensures world.link.attempts == old(world.link.attempts)
    {
      hide Inv, Run, Initial, Observed, Deliver, RegisterGripper, DeliverAll;
      if recovered {
        lines := lines + [LinkRecovered];
      }
      Advance(Thread(outcome));
    }

    method ComputeNextCycle(outcome: Outcome)
      requires Valid() && world.phase.PacingNext?
      modifies this
      ensures Valid() && Stepped(outcome) && SameRecords() && world.phase.Sleeping? && world.link == old(world.link)
    {
      hide Inv, Run, Initial, Observed, Deliver, RegisterGripper, DeliverAll;
      nextCycle := Max(nextCycle + period, now);
      Advance(Thread(outcome));
    }

    // Platform::sleepUntil: never early, however late.
    method SleepUntilNextCycle(outcome: Outcome)
      requires Valid() && world.phase.Sleeping?
      modifies this, image
      ensures Valid() && world.phase.LoopHead? && SameRecords() && world.link == old(world.link)
    {
      hide Valid;
      Others();
      SleepRest();
      Others();
      Wake(outcome);
    }

    method SleepRest()
      requires Valid() && world.phase.Sleeping?
      modifies this
      ensures Valid() && Undisturbed() && now >= nextCycle
    {
      hide Inv, Run, Initial, Observed, Deliver, RegisterGripper, DeliverAll;
      if now < nextCycle {
        ghost var rest := nextCycle - now;
        now := nextCycle;
        Advance(Tick(rest));
      }
    }

    method Wake(outcome: Outcome)
      requires Valid() && world.phase.Sleeping? && now >= nextCycle
      modifies this
      ensures Valid() && Stepped(outcome) && SameRecords() && world.phase.LoopHead?
    {
      hide Inv, Run, Initial, Observed, Deliver, RegisterGripper, DeliverAll;
      Advance(Thread(outcome));
    }

    // One action of the exchange thread has just been taken.
    twostate predicate Stepped(outcome: Outcome)
      reads this
    {
      && old(world.pace.deadlines) != []
      && world == Step(old(world), Thread(outcome))
      && start == old(start) && old(past) <= past
    }

    // ----- The exchange thread -----

    method ExchangeOnce(outcome: Outcome) returns (completed: bool)
      requires Valid() && world.phase.Latching?
      modifies this, image, device, device.registers
      ensures Valid() && world.phase.PacingNext? && start == old(start) && old(past) <= past
      ensures completed <==> outcome.Answered?
      ensures world.link.attempts == old(world.link.attempts) + [completed]
      ensures |world.written| == |old(world.written)| + if outcome.NotApplied? then 0 else 1
      // one whole record more, or none
      ensures !completed ==> world.history == old(world.history) && world.wires == old(world.wires)
      ensures completed ==>
        && world.history == old(world.history) + [world.image.stamped]
        && world.wires == old(world.wires) + [|old(world.written)|]
      ensures world.Count() == old(world).Count() + if completed then 1 else 0
    {
      hide Valid;
      Others();
      var commandCopy := Latch(outcome);
      Others();
      var reply, completedAt := Transact(commandCopy, outcome);
      Others();
      if reply.Failed? {
        CountFailure(outcome);
        return false;
      }
      Conclude(commandCopy, reply.status, completedAt, outcome);
      return true;
    }

    // The success path: the link first, the record second, the line last, so
    // that a thread the record wakes finds the link Operational.
    method Conclude(commandCopy: GripperCommand, freshStatus: GripperStatus, completedAt: int, outcome: Outcome)
      requires Valid() && world.phase == Phase.Answered(commandCopy, freshStatus, completedAt)
      modifies this, image
      ensures Valid() && world.phase.PacingNext? && start == old(start) && old(past) <= past
      ensures world.link.attempts == old(world.link.attempts) + [true] && world.written == old(world.written)
      ensures world.history == old(world.history) + [world.image.stamped]
      ensures world.wires == old(world.wires) + [|old(world.written)| - 1]
      ensures world.Count() == old(world).Count() + 1
    {
      hide Valid, Step;
      ClearFailures(outcome);
      Others();
      var recovered := TurnOperational(outcome);
      Others();
      Publish(commandCopy, freshStatus, completedAt, recovered, outcome);
      Others();
      AnnounceRecovery(recovered, outcome);
      RecordLast();
    }

    lemma RecordLast()
      requires Valid()
      ensures world.history != [] && world.history[|world.history| - 1] == world.image.stamped
    {
    }

    // The exchange thread, from its first line, for as many cycles as there are
    // outcomes or until it is told to stop. Whatever it does is a run of the
    // transition system.
    method Start(outcomes: seq<Outcome>)
      requires device.Valid() && device.State() == connected
      requires image.Value().stamped.exchangeCount == 0 && image.Value().stamped.command == image.Value().command
      requires !image.Value().closed && image.Value().stamped.timestamp <= now
      requires consecutiveFailures == 0 && lines == [] && connectionState == Operational
      requires forall i :: 0 <= i < |script| ==> ByOthers(script[i])
      modifies this, image, device, device.registers
      ensures Valid()
      ensures start == ExchangeCycle.Start(RegisterGripper(connected), old(image.Value()), period, old(now))
      ensures AttemptsOf(world.link.attempts, outcomes)
      ensures if |world.link.attempts| < |outcomes| then world.phase.Exited? else world.phase.LoopHead?
      ensures world.Count() == Completed(world.link.attempts)
      // it stops early only because somebody told it to
      ensures |world.link.attempts| < |outcomes| ==> exists i :: 0 <= i < |past| && past[i].StopRunning?
    {
      Launch();
      InStep();
      ghost var launched := start;
      assert AttemptsOf([], outcomes);
      hide Valid, Step, Inv, Run, Initial, AttemptsOf, Completed, RegisterGripper, ExchangeCycle.Start;
      var cycle := 0;
      while cycle < |outcomes|
        invariant Valid() && world.phase.LoopHead? && 0 <= cycle <= |outcomes| && start == launched
        invariant |world.link.attempts| == cycle && AttemptsOf(world.link.attempts, outcomes)
        invariant world.Count() == Completed(world.link.attempts)
      {
        ghost var attempts := world.link.attempts;
        var goOn := Cycle(outcomes[cycle]);
        InStep();
        if !goOn {
          EndedByStop();
          break;
        }
        OneMoreOutcome(attempts, outcomes, outcomes[cycle].Answered?);
        cycle := cycle + 1;
      }
    }

    // One turn of the loop: unless told to stop, one exchange and its pacing.
    method Cycle(outcome: Outcome) returns (goOn: bool)
      requires Valid() && world.phase.LoopHead?
      modifies this, image, device, device.registers
      ensures Valid() && start == old(start) && old(past) <= past
      ensures if goOn then world.phase.LoopHead? else world.phase.Exited?
      ensures world.link.attempts == old(world.link.attempts) + if goOn then [outcome.Answered?] else []
      ensures world.Count() == old(world).Count() + if goOn && outcome.Answered? then 1 else 0
    {
      hide Valid, Step;
      Others();
      goOn := TestRunning(outcome);
      if goOn {
        var completed := ExchangeOnce(outcome);
        Others();
        ComputeNextCycle(outcome);
        SleepUntilNextCycle(outcome);
      }
    }

    lemma EndedByStop()
      requires Valid() && world.phase.Exited?
      ensures exists i :: 0 <= i < |past| && past[i].StopRunning?
    {
      EndsOnlyWhenStopped(start, past);
    }

    // Between two cycles there are as many records as answered attempts.
    lemma InStep()
      requires Valid() && !world.phase.Turned?
      ensures world.Count() == Completed(world.link.attempts)
    {
      RecordsAreAnsweredAttempts(start, past);
    }

    method Launch()
      requires device.Valid() && device.State() == connected
      requires image.Value().stamped.exchangeCount == 0 && image.Value().stamped.command == image.Value().command
      requires !image.Value().closed && image.Value().stamped.timestamp <= now
      requires consecutiveFailures == 0 && lines == [] && connectionState == Operational
      requires forall i :: 0 <= i < |script| ==> ByOthers(script[i])
      modifies this
      ensures Valid() && world.phase.LoopHead? && world.link.attempts == [] && past == []
      ensures start == ExchangeCycle.Start(RegisterGripper(connected), old(image.Value()), period, old(now))
    {
      hide Inv, Observed, Deliver, Device.Command, RegisterGripper;
      running := true;
      nextCycle := now;
      start := ExchangeCycle.Start(RegisterGripper(connected), image.Value(), period, now);
      past, world := [], start;
      InitialInv(start);
    }
  }
}
