// The exchange thread, the process image it shares with every other thread,
// and the link it runs on, as a transition system. One event is one atomic
// action of one thread; a run is any sequence of events.
module ExchangeCycle {
  import opened Blocks
  import opened ProcessImage
  import opened LinkState
  import opened Pacing
  import opened ModbusClient

  // Where the exchange thread stands in its loop.
  datatype Phase =
    | LoopHead
    | Latching
    | OnWire(command: GripperCommand)
    | Failing
    | Answered(command: GripperCommand, status: GripperStatus, at: int)
    | Cleared(command: GripperCommand, status: GripperStatus, at: int)
    | Turned(command: GripperCommand, status: GripperStatus, at: int, recovered: bool)
    | Published(recovered: bool)
    | PacingNext
    | Sleeping
    | Exited

  // The device at the far end of the link, as the status block it answers
  // after the command blocks it has acted on.
  type FarEnd = seq<GripperCommand> -> GripperStatus

  // `written` (the blocks the device acted on, in order), `history` (the seed
  // and every completed exchange) and `wires` (the position in `written` of
  // each of those exchanges, -1 for the seed) are history.
  datatype World = World(
    gripper: FarEnd,
    image: Image,
    phase: Phase,
    link: Link,
    pace: Pace,
    running: bool,
    now: int,
    written: seq<GripperCommand>,
    history: seq<StampedExchange>,
    wires: seq<int>)
  {
    function Count(): int { image.stamped.exchangeCount }
  }

  datatype Event =
    | Thread(outcome: Outcome) // the exchange thread's next action
    | Command(command: GripperCommand) // Gripper::setCommand
    | StopRunning | CloseImage // GripperState::stop
    | Tick(elapsed: nat)

  // The block the exchange thread has latched and the device has not acted on.
  function InFlight(w: World): set<GripperCommand> {
    if w.phase.OnWire? then {w.phase.command} else {}
  }

  // The block of an answered exchange that is still to be published.
  function Unpublished(w: World): set<GripperCommand> {
    if w.phase.Answered? || w.phase.Cleared? || w.phase.Turned? then {w.phase.command} else {}
  }

  function ThreadStep(w: World, outcome: Outcome): World
    requires w.pace.deadlines != []
  {
    match w.phase
    case LoopHead =>
      if w.running then w.(phase := Latching, pace := w.pace.Begin(w.now)) else w.(phase := Exited)
    case Latching =>
      w.(phase := OnWire(w.image.command))
    case OnWire(c) =>
      (match outcome
       case NotApplied => w.(phase := Failing)
       case ReplyLost => w.(phase := Failing, written := w.written + [c])
       case Answered => w.(phase := Phase.Answered(c, w.gripper(w.written + [c]), w.now), written := w.written + [c]))
    case Failing =>
      w.(phase := PacingNext, link := w.link.Fail())
    case Answered(c, s, at) =>
      w.(phase := Cleared(c, s, at), link := w.link.Clear())
    case Cleared(c, s, at) =>
      w.(phase := Turned(c, s, at, w.link.Recovers()), link := w.link.Turn())
    case Turned(c, s, at, recovered) =>
      var image := w.image.Published(c, s, at);
      w.(phase := Published(recovered), image := image, history := w.history + [image.stamped],
          wires := w.wires + [|w.written| - 1])
    case Published(recovered) =>
      w.(phase := PacingNext, link := w.link.Announce(recovered))
    case PacingNext =>
      w.(phase := Sleeping, pace := w.pace.Finish(w.now))
    case Sleeping =>
      if w.now >= w.pace.deadlines[|w.pace.deadlines| - 1] then w.(phase := LoopHead) else w
    case Exited => w
  }

  function Step(w: World, e: Event): World
    requires w.pace.deadlines != []
  {
    match e
    case Thread(outcome) => ThreadStep(w, outcome)
    case Command(c) => w.(image := w.image.Commanded(c))
    case StopRunning => w.(running := false)
    case CloseImage => w.(image := w.image.Closed())
    case Tick(elapsed) => w.(now := w.now + elapsed)
  }

  function Run(w: World, events: seq<Event>): (w': World)
    requires w.pace.deadlines != []
    ensures w'.pace.deadlines != []
  {
    if events == [] then w else Step(Run(w, events[..|events| - 1]), events[|events| - 1])
  }

  lemma {:induction false} RunConcat(w: World, a: seq<Event>, b: seq<Event>)
    requires w.pace.deadlines != []
    ensures Run(w, a + b) == Run(Run(w, a), b)
  {
    if b == [] {
      assert a + b == a;
    } else {
      var b' := b[..|b| - 1];
      RunConcat(w, a, b');
      assert (a + b)[..|a + b| - 1] == a + b';
    }
  }

  // A gripper just connected: the image seeded, the thread about to loop.
  function Start(gripper: FarEnd, seeded: Image, period: nat, now: int): World {
    World(gripper, seeded, LoopHead, Connected(), Opened(period, now), true, now, [], [seeded.stamped], [-1])
  }

  ghost predicate Initial(w: World) {
    && w == Start(w.gripper, w.image, w.pace.period, w.now)
    && w.image.stamped.exchangeCount == 0
    && w.image.stamped.command == w.image.command
    && w.image.stamped.timestamp <= w.now
    && !w.image.closed
  }

  // ----- The invariant of every run -----

  // Record r is the exchange that put block number `wire` on the wire: its
  // command is that block, its status the device's answer to it.
  ghost predicate Carried(gripper: FarEnd, written: seq<GripperCommand>, r: StampedExchange, wire: int) {
    && 0 <= wire < |written|
    && r.command == written[wire]
    && r.status == gripper(written[..wire + 1])
  }

  ghost predicate Recorded(w: World) {
    && |w.history| == |w.wires| == w.Count() + 1
    && w.history[w.Count()] == w.image.stamped
    && w.wires[0] == -1
    && (forall k :: 0 <= k < |w.history| ==> w.history[k].exchangeCount == k)
    && (forall k :: 0 < k < |w.history| ==> Carried(w.gripper, w.written, w.history[k], w.wires[k]))
    && (forall j, k :: 0 <= j < k < |w.wires| ==> w.wires[j] < w.wires[k])
  }

  predicate Answering(w: World) {
    w.phase.Answered? || w.phase.Cleared? || w.phase.Turned?
  }

  ghost predicate Pending(w: World) {
    Answering(w) ==>
      && (forall k :: 0 <= k < |w.wires| ==> w.wires[k] < |w.written| - 1)
      && |w.written| > 0
      && w.written[|w.written| - 1] == w.phase.command
      && w.gripper(w.written) == w.phase.status
  }

  ghost predicate Stamps(w: World) {
    && (forall j, k :: 0 <= j < k < |w.history| ==> w.history[j].timestamp <= w.history[k].timestamp)
    && (forall k :: 0 <= k < |w.history| ==> w.history[k].timestamp <= if Answering(w) then w.phase.at else w.now)
    && (Answering(w) ==> w.phase.at <= w.now)
  }

  ghost predicate LinkInPhase(w: World) {
    match w.phase
    case Cleared(_, _, _) => exists l: Link :: Settled(l) && w.link == l.Clear()
    case Turned(_, _, _, recovered) =>
      exists l: Link :: Settled(l) && w.link == l.Clear().Turn() && recovered == l.Recovers()
    case Published(recovered) => exists l: Link :: Settled(l) && w.link == l.Clear().Turn() && recovered == l.Recovers()
    case _ => Settled(w.link)
  }

  ghost predicate PacedInPhase(w: World) {
    && Paced(w.pace)
    && (match w.phase
        case LoopHead => |w.pace.starts| == |w.pace.ends| && w.now >= w.pace.deadlines[|w.pace.ends|]
        case Sleeping => |w.pace.starts| == |w.pace.ends|
        case Exited => |w.pace.starts| == |w.pace.ends|
        case _ => |w.pace.starts| == |w.pace.ends| + 1 && w.now >= w.pace.starts[|w.pace.ends|])
  }

  ghost predicate Inv(w: World) {
    && w.pace.deadlines != []
    && Recorded(w) && Pending(w) && Stamps(w) && LinkInPhase(w) && PacedInPhase(w)
  }

  lemma InitialInv(w: World)
    requires Initial(w)
    ensures Inv(w)
  {
  }

  lemma CarriedStays(gripper: FarEnd, written: seq<GripperCommand>, c: GripperCommand, r: StampedExchange, wire: int)
    requires Carried(gripper, written, r, wire)
    ensures Carried(gripper, written + [c], r, wire)
  {
    assert (written + [c])[..wire + 1] == written[..wire + 1];
  }

  // The device acts on the latched block.
  lemma WireKeepsRecorded(w: World, outcome: Outcome)
    requires w.pace.deadlines != [] && Recorded(w) && w.phase.OnWire? && !outcome.NotApplied?
    ensures Recorded(ThreadStep(w, outcome)) && Pending(ThreadStep(w, outcome))
  {
    var w' := ThreadStep(w, outcome);
    assert w'.written == w.written + [w.phase.command];
    forall k | 0 < k < |w.history| ensures Carried(w'.gripper, w'.written, w'.history[k], w'.wires[k]) {
      CarriedStays(w.gripper, w.written, w.phase.command, w.history[k], w.wires[k]);
    }
    forall k | 0 <= k < |w.wires| ensures w.wires[k] < |w.written| {
      if k > 0 {
        CarriedBound(w, k);
      }
    }
  }

  // The answered exchange is published.
  lemma PublishKeepsRecorded(w: World, outcome: Outcome)
    requires w.pace.deadlines != [] && Recorded(w) && Pending(w) && w.phase.Turned?
    ensures Recorded(ThreadStep(w, outcome)) && Pending(ThreadStep(w, outcome))
  {
    var w' := ThreadStep(w, outcome);
    assert w.written[..|w.written| - 1 + 1] == w.written;
    assert Carried(w.gripper, w.written, w'.image.stamped, |w.written| - 1);
    assert w'.history == w.history + [w'.image.stamped] && w'.wires == w.wires + [|w.written| - 1];
  }

  lemma SameRecords(w: World, w': World)
    requires Recorded(w) && Pending(w)
    requires w'.gripper == w.gripper && w'.written == w.written && w'.history == w.history && w'.wires == w.wires
    requires w'.image.stamped == w.image.stamped
    requires Answering(w') ==> Answering(w) && w'.phase.command == w.phase.command && w'.phase.status == w.phase.status
    ensures Recorded(w') && Pending(w')
  {
  }

  lemma StepKeepsRecorded(w: World, e: Event)
    requires w.pace.deadlines != [] && Recorded(w) && Pending(w)
    ensures Recorded(Step(w, e)) && Pending(Step(w, e))
  {
    hide Recorded, Pending;
    if e.Thread? && w.phase.OnWire? && !e.outcome.NotApplied? {
      WireKeepsRecorded(w, e.outcome);
    } else if e.Thread? && w.phase.Turned? {
      PublishKeepsRecorded(w, e.outcome);
    } else {
      SameRecords(w, Step(w, e));
    }
  }

  lemma CarriedBound(w: World, k: nat)
    requires Recorded(w) && 0 < k < |w.history|
    ensures 0 <= w.wires[k] < |w.written|
  {
    assert Carried(w.gripper, w.written, w.history[k], w.wires[k]);
  }

  lemma StepKeepsStamps(w: World, e: Event)
    requires w.pace.deadlines != [] && Stamps(w)
    ensures Stamps(Step(w, e))
  {
  }

  lemma StepKeepsLink(w: World, e: Event)
    requires w.pace.deadlines != [] && LinkInPhase(w)
    ensures LinkInPhase(Step(w, e))
  {
    if e.Thread? {
      match w.phase {
        case Failing => FailKeepsSettled(w.link);
        case Answered(_, _, _) => assert Settled(w.link) && Step(w, e).link == w.link.Clear();
        case Cleared(_, _, _) =>
          var l: Link :| Settled(l) && w.link == l.Clear();
          assert Step(w, e).link == l.Clear().Turn() && w.link.Recovers() == l.Recovers();
        case Turned(_, _, _, recovered) =>
          var l: Link :| Settled(l) && w.link == l.Clear().Turn() && recovered == l.Recovers();
          assert Step(w, e).link == l.Clear().Turn();
        case Published(recovered) =>
          var l: Link :| Settled(l) && w.link == l.Clear().Turn() && recovered == l.Recovers();
          assert Step(w, e).link == l.Succeed();
          SucceedKeepsSettled(l);
        case _ =>
      }
    }
  }

  lemma StepKeepsPaced(w: World, e: Event)
    requires PacedInPhase(w) && w.pace.deadlines != []
    ensures PacedInPhase(Step(w, e))
  {
    if e.Thread? && w.phase.LoopHead? {
      BeginKeepsPaced(w.pace, w.now);
    }
    if e.Thread? && w.phase.PacingNext? {
      FinishKeepsPaced(w.pace, w.now);
    }
  }

  lemma StepKeepsInv(w: World, e: Event)
    requires Inv(w)
    ensures Inv(Step(w, e))
  {
    StepKeepsRecorded(w, e);
    StepKeepsStamps(w, e);
    StepKeepsLink(w, e);
    StepKeepsPaced(w, e);
  }

  lemma {:induction false} RunKeepsInv(w: World, events: seq<Event>)
    requires Inv(w)
    ensures Inv(Run(w, events))
  {
    if events != [] {
      var before := events[..|events| - 1];
      RunKeepsInv(w, before);
      StepKeepsInv(Run(w, before), events[|events| - 1]);
    }
  }
}
