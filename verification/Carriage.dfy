// Which command block a record can carry, and what else one state of the
// exchange cycle says about every later one.
module Carriage {
  import opened Blocks
  import opened LinkState
  import opened Pacing
  import opened ModbusClient
  import opened ExchangeCycle

  // Nobody sets a command during these events.
  predicate Uncommanded(events: seq<Event>) {
    forall i :: 0 <= i < |events| ==> !events[i].Command?
  }

  // What w says about a state w' reached from it without a setCommand: the
  // blocks that reach the device and the records that get published carry the
  // image's command, except for the one block that was already on its way.
  ghost predicate Later(w: World, w': World) {
    && w'.gripper == w.gripper
    && w'.image.command == w.image.command
    && w.now <= w'.now
    && (w.image.closed ==> w'.image.closed)
    && w.history <= w'.history && w.wires <= w'.wires && w.written <= w'.written
    && (forall i :: |w.written| <= i < |w'.written| ==>
          w'.written[i] == w.image.command || (i == |w.written| && w'.written[i] in InFlight(w)))
    && (forall k :: |w.history| <= k < |w'.history| ==>
          w'.history[k].command == w.image.command
          || (k == |w.history| && w'.history[k].command in InFlight(w) + Unpublished(w)))
    && (forall k :: |w.wires| <= k < |w'.wires| ==>
          w'.wires[k] >= if Unpublished(w) == {} then |w.written| else |w.written| - 1)
    && (Unpublished(w) == {} && Unpublished(w') != {} ==> |w.written| < |w'.written|)
    && (forall c :: c in InFlight(w') ==>
          c == w.image.command || (c in InFlight(w) && w'.written == w.written && w'.history == w.history))
    && (forall c :: c in Unpublished(w') ==>
          c == w.image.command || (c in InFlight(w) + Unpublished(w) && w'.history == w.history))
  }

  lemma LaterSelf(w: World)
    ensures Later(w, w)
  {
  }

  // The block in flight reaches the device.
  lemma LaterWire(w: World, w': World, outcome: Outcome)
    requires w'.pace.deadlines != [] && Recorded(w') && Later(w, w') && w'.phase.OnWire? && !outcome.NotApplied?
    ensures Later(w, ThreadStep(w', outcome))
  {
    hide Carried;
    var w'' := ThreadStep(w', outcome);
    assert w'.phase.command in InFlight(w');
    assert w''.written == w'.written + [w'.phase.command];
    assert Unpublished(w'') <= InFlight(w');
  }

  // The answered exchange is published.
  lemma LaterPublish(w: World, w': World, outcome: Outcome)
    requires w'.pace.deadlines != [] && Recorded(w') && Pending(w') && Later(w, w') && w'.phase.Turned?
    ensures Later(w, ThreadStep(w', outcome))
  {
    hide Carried;
    var w'' := ThreadStep(w', outcome);
    assert w'.phase.command in Unpublished(w');
    assert w''.history == w'.history + [w''.image.stamped] && w''.wires == w'.wires + [|w'.written| - 1];
  }

  lemma LaterQuiet(w: World, w': World, w'': World)
    requires Later(w, w')
    requires w''.gripper == w'.gripper && w''.image.command == w'.image.command && w'.now <= w''.now
    requires w'.image.closed ==> w''.image.closed
    requires w''.history == w'.history && w''.wires == w'.wires && w''.written == w'.written
    requires InFlight(w'') <= InFlight(w') + {w'.image.command} && Unpublished(w'') <= Unpublished(w')
    ensures Later(w, w'')
  {
  }

  lemma LaterStep(w: World, w': World, e: Event)
    requires Inv(w') && Later(w, w') && !e.Command?
    ensures Later(w, Step(w', e))
  {
    hide Later, Recorded, Pending, Stamps, LinkInPhase, PacedInPhase;
    if e.Thread? && w'.phase.OnWire? && !e.outcome.NotApplied? {
      LaterWire(w, w', e.outcome);
    } else if e.Thread? && w'.phase.Turned? {
      LaterPublish(w, w', e.outcome);
    } else {
      LaterQuiet(w, w', Step(w', e));
    }
  }

  lemma {:induction false} LaterRun(w: World, events: seq<Event>)
    requires Inv(w) && Uncommanded(events)
    ensures Inv(Run(w, events)) && Later(w, Run(w, events))
  {
    hide Later, Recorded, Pending, Stamps, LinkInPhase, PacedInPhase, Step;
    if events == [] {
      LaterSelf(w);
    } else {
      var before := events[..|events| - 1];
      LaterRun(w, before);
      LaterStep(w, Run(w, before), events[|events| - 1]);
      StepKeepsInv(Run(w, before), events[|events| - 1]);
    }
  }

  lemma LaterTrans(a: World, b: World, c: World)
    requires Later(a, b) && Later(b, c)
    ensures Later(a, c)
  {
  }

  // Nothing already on record changes, whoever sets commands.
  ghost predicate Grown(w: World, w': World) {
    && w'.gripper == w.gripper
    && w.history <= w'.history && w.wires <= w'.wires && w.written <= w'.written
    && w.now <= w'.now
    && (w.image.closed ==> w'.image.closed)
  }

  lemma GrownTrans(a: World, b: World, c: World)
    requires (Later(a, b) || Grown(a, b)) && (Later(b, c) || Grown(b, c))
    ensures Grown(a, c)
  {
  }

  lemma GrownStep(w: World, e: Event)
    requires w.pace.deadlines != []
    ensures Grown(w, Step(w, e))
  {
  }

  lemma {:induction false} GrownRun(w: World, events: seq<Event>)
    requires w.pace.deadlines != []
    ensures Grown(w, Run(w, events))
  {
    if events != [] {
      var before := events[..|events| - 1];
      GrownRun(w, before);
      hide Step, Grown;
      GrownStep(Run(w, before), events[|events| - 1]);
      GrownTrans(w, Run(w, before), Run(w, events));
    }
  }

  // What a client may rely on from one moment to a later one: nothing on record
  // changes and, when it is the one commander, neither does its command but by
  // its own hand.
  ghost predicate Onward(commander: bool, w: World, w': World) {
    Grown(w, w') && (commander ==> Later(w, w'))
  }

  lemma OnwardSelf(commander: bool, w: World)
    ensures Onward(commander, w, w)
  {
  }

  lemma OnwardTrans(commander: bool, a: World, b: World, c: World)
    requires Onward(commander, a, b) && Onward(commander, b, c)
    ensures Onward(commander, a, c)
  {
    hide Grown, Later;
    GrownTrans(a, b, c);
    if commander {
      LaterTrans(a, b, c);
    }
  }

  lemma OnwardRun(commander: bool, w: World, events: seq<Event>)
    requires Inv(w) && (commander ==> Uncommanded(events))
    ensures Inv(Run(w, events)) && Onward(commander, w, Run(w, events))
  {
    hide Grown, Later, Uncommanded;
    RunKeepsInv(w, events);
    GrownRun(w, events);
    if commander {
      LaterRun(w, events);
    }
  }

  // ----- Command carriage -----

  // A block set at count n reaches the wire no later than the second
  // transaction the device acts on afterwards, record n + 1 is the only one
  // that may still carry an older block, and every record from n + 2 on
  // carries the new one, written to the device after the call.
  lemma CommandCarriage(w: World, c: GripperCommand, events: seq<Event>)
    requires Inv(w) && Uncommanded(events)
    ensures
      var w' := Run(Step(w, Command(c)), events);
      var n := w.Count();
      && Inv(w')
      && (forall i :: |w.written| < i < |w'.written| ==> w'.written[i] == c)
      && (forall k :: n + 2 <= k <= w'.Count() ==>
            && w'.history[k].command == c
            && |w.written| <= w'.wires[k] < |w'.written| && w'.written[w'.wires[k]] == c)
      && (n + 1 <= w'.Count() ==> w'.history[n + 1].command in {c} + InFlight(w) + Unpublished(w))
  {
    var w0 := Step(w, Command(c));
    StepKeepsInv(w, Command(c));
    LaterRun(w0, events);
    var w' := Run(w0, events);
    hide Run;
    var n := w.Count();
    forall k | n + 2 <= k <= w'.Count()
      ensures w'.history[k].command == c
      ensures |w.written| <= w'.wires[k] < |w'.written| && w'.written[w'.wires[k]] == c
    {
      assert Carried(w'.gripper, w'.written, w'.history[k], w'.wires[k]);
      assert w'.wires[k - 1] < w'.wires[k];
    }
  }

  // The exception is real: a block latched before the call is what record
  // n + 1 carries when its exchange is answered.
  lemma OldBlockLands(w: World, c: GripperCommand)
    requires Inv(w) && w.phase.OnWire?
    ensures
      var t := Thread(Outcome.Answered);
      var w' := Run(Step(w, Command(c)), [t, t, t, t]);
      Inv(w') && w'.Count() == w.Count() + 1 && w'.history[w'.Count()].command == w.phase.command
  {
    hide Recorded, Pending, Stamps, LinkInPhase, PacedInPhase;
    var t := Thread(Outcome.Answered);
    var w0 := Step(w, Command(c));
    var w1 := Step(w0, t);
    var w2 := Step(w1, t);
    var w3 := Step(w2, t);
    assert Run(w0, []) == w0;
    assert [t][..0] == [] && [t, t][..1] == [t] && [t, t, t][..2] == [t, t] && [t, t, t, t][..3] == [t, t, t];
    assert Run(w0, [t]) == w1;
    assert Run(w0, [t, t]) == w2;
    assert Run(w0, [t, t, t]) == w3;
    StepKeepsInv(w, Command(c));
    StepKeepsInv(w0, t);
    StepKeepsInv(w1, t);
    StepKeepsInv(w2, t);
    StepKeepsInv(w3, t);
    LastRecord(Step(w3, t));
  }

  lemma LastRecord(w: World)
    requires Inv(w)
    ensures |w.history| == w.Count() + 1 && w.history[w.Count()] == w.image.stamped
  {
  }

  // ----- Progress -----

  // How far the exchange thread is from its next record.
  function Distance(phase: Phase): nat {
    match phase
    case Exited => 0
    case Turned(_, _, _, _) => 1
    case Cleared(_, _, _) => 2
    case Answered(_, _, _) => 3
    case OnWire(_) => 4
    case Latching => 5
    case LoopHead => 6
    case Sleeping => 7
    case PacingNext => 8
    case Published(_) => 9
    case Failing => 9
  }

  lemma {:induction false} OneMore(w: World) returns (events: seq<Event>)
    requires Inv(w) && w.running && !w.phase.Exited?
    ensures Uncommanded(events)
    ensures var w' := Run(w, events);
      Inv(w') && w'.running && !w'.phase.Exited? && w'.Count() == w.Count() + 1
    decreases Distance(w.phase)
  {
    hide Recorded, Pending, Stamps, LinkInPhase, PacedInPhase;
    var due := w.pace.deadlines[|w.pace.deadlines| - 1];
    var first := [Tick(if w.phase.Sleeping? && due > w.now then due - w.now else 0), Thread(Outcome.Answered)];
    var w' := Step(Step(w, first[0]), first[1]);
    assert first[..0] == [] && first[..1] == [first[0]] && first[..1][..0] == [];
    assert Run(w, []) == w && Run(w, first[..1]) == Step(w, first[0]) && Run(w, first) == w';
    RunKeepsInv(w, first);
    if w.phase.Turned? {
      events := first;
    } else {
      var rest := OneMore(w');
      RunConcat(w, first, rest);
      events := first + rest;
    }
  }

  // A running thread can complete any number of exchanges.
  lemma {:induction false} AnyNumberMore(w: World, n: nat) returns (events: seq<Event>)
    requires Inv(w) && w.running && !w.phase.Exited?
    ensures Uncommanded(events)
    ensures Inv(Run(w, events)) && Run(w, events).Count() == w.Count() + n
    ensures Run(w, events).running && !Run(w, events).phase.Exited?
  {
    if n == 0 {
      events := [];
      assert Run(w, []) == w;
    } else {
      hide Recorded, Pending, Stamps, LinkInPhase, PacedInPhase;
      var before := AnyNumberMore(w, n - 1);
      var last := OneMore(Run(w, before));
      RunConcat(w, before, last);
      events := before + last;
    }
  }

  // ----- Records and attempts -----

  function Completed(attempts: seq<bool>): nat {
    if attempts == [] then 0
    else Completed(attempts[..|attempts| - 1]) + if attempts[|attempts| - 1] then 1 else 0
  }

  // As many records as answered attempts, but for the one about to be published.
  predicate Tallied(w: World) {
    w.Count() + (if w.phase.Turned? then 1 else 0) == Completed(w.link.attempts)
  }

  lemma OneMoreAttempt(attempts: seq<bool>, completed: bool)
    ensures Completed(attempts + [completed]) == Completed(attempts) + if completed then 1 else 0
  {
    assert (attempts + [completed])[..|attempts|] == attempts;
  }

  lemma StepKeepsTally(w: World, e: Event)
    requires w.pace.deadlines != [] && Tallied(w)
    ensures Tallied(Step(w, e))
  {
    hide Completed;
    if e.Thread? {
      OneMoreAttempt(w.link.attempts, w.phase.Cleared?);
    }
  }

  // In every run each answered attempt, and no other, becomes one record.
  lemma {:induction false} RecordsAreAnsweredAttempts(w0: World, events: seq<Event>)
    requires Initial(w0)
    ensures Tallied(Run(w0, events))
  {
    if events != [] {
      RecordsAreAnsweredAttempts(w0, events[..|events| - 1]);
      StepKeepsTally(Run(w0, events[..|events| - 1]), events[|events| - 1]);
    }
  }

  // ----- Stopping -----

  // The thread has at most one more record to publish once it is told to stop.
  ghost predicate Winding(w: World, w': World) {
    && !w'.running
    && (w'.Count() == w.Count()
        || (w'.Count() == w.Count() + 1
            && (w'.phase.Published? || w'.phase.PacingNext? || w'.phase.Sleeping?
                || w'.phase.LoopHead? || w'.phase.Exited?)))
    && (w.image.closed ==> w'.image.closed)
  }

  lemma {:induction false} StopPublishesAtMostOnce(w: World, events: seq<Event>)
    requires Inv(w) && !w.running
    ensures Winding(w, Run(w, events))
    ensures Run(w, events).Count() <= w.Count() + 1
  {
    if events != [] {
      StopPublishesAtMostOnce(w, events[..|events| - 1]);
      assert Run(w, events).pace.deadlines != [];
    }
  }

  lemma {:induction false} StopIsForGood(w: World, events: seq<Event>)
    requires w.pace.deadlines != []
    ensures !w.running ==> !Run(w, events).running
    ensures w.image.closed ==> Run(w, events).image.closed
  {
    if events != [] {
      StopIsForGood(w, events[..|events| - 1]);
    }
  }

  // A stop takes: whenever the running flag is cleared in a run, and whenever the
  // image is closed, they stay so, and the thread publishes one more record at
  // most from then on.
  lemma StopTakes(w: World, events: seq<Event>, i: nat)
    requires Inv(w) && i < |events|
    ensures events[i].StopRunning? ==>
      !Run(w, events).running && Run(w, events).Count() <= Run(w, events[..i]).Count() + 1
    ensures events[i].CloseImage? ==> Run(w, events).image.closed
  {
    hide Recorded, Pending, Stamps, LinkInPhase, PacedInPhase;
    var before, upTo, after := events[..i], events[..i + 1], events[i + 1..];
    assert upTo[..i] == before && upTo + after == events && upTo[|upTo| - 1] == events[i];
    RunKeepsInv(w, before);
    StepKeepsInv(Run(w, before), events[i]);
    assert Run(w, upTo) == Step(Run(w, before), events[i]);
    RunConcat(w, upTo, after);
    StopIsForGood(Run(w, upTo), after);
    if events[i].StopRunning? {
      StopPublishesAtMostOnce(Run(w, upTo), after);
    }
  }

  // Nothing else ends the thread: until a stop it runs on.
  lemma {:induction false} EndsOnlyWhenStopped(w0: World, events: seq<Event>)
    requires Initial(w0)
    ensures Run(w0, events).phase.Exited? || !Run(w0, events).running ==>
      exists i :: 0 <= i < |events| && events[i].StopRunning?
  {
    if events != [] && !events[|events| - 1].StopRunning? {
      var before := events[..|events| - 1];
      EndsOnlyWhenStopped(w0, before);
      if i :| 0 <= i < |before| && before[i].StopRunning? {
        assert events[i].StopRunning?;
      }
    }
  }

  // ----- When a record is stamped -----

  // Every exchange answered by now, the one about to be published included.
  function Taken(w: World): int { w.Count() + if Answering(w) then 1 else 0 }

  ghost predicate StampedSince(w: World, w': World) {
    && |w'.history| == w'.Count() + 1 && w.Count() <= w'.Count() && w.now <= w'.now
    && (forall k :: 0 <= k && Taken(w) < k <= w'.Count() ==> w.now <= w'.history[k].timestamp)
    && (Answering(w') && Taken(w) <= w'.Count() ==> w.now <= w'.phase.at)
    && (Answering(w) ==>
          if w'.Count() == w.Count() then Answering(w') && w'.phase.at == w.phase.at
          else w'.history[w.Count() + 1].timestamp == w.phase.at)
  }

  lemma StampedStep(w: World, w': World, e: Event)
    requires Inv(w') && Inv(Step(w', e)) && StampedSince(w, w')
    ensures StampedSince(w, Step(w', e))
  {
    hide Pending, LinkInPhase, PacedInPhase, Carried;
  }

  lemma {:induction false} StampedRun(w: World, events: seq<Event>)
    requires Inv(w)
    ensures Inv(Run(w, events)) && StampedSince(w, Run(w, events))
  {
    if events != [] {
      var before, e := events[..|events| - 1], events[|events| - 1];
      StampedRun(w, before);
      StepKeepsInv(Run(w, before), e);
      hide Inv, StampedSince, Step;
      StampedStep(w, Run(w, before), e);
    }
  }

  // The stamp is taken when the answer arrives: not before any moment at which
  // the exchange was still to be answered, and not after any at which it had
  // been, however long publishing then takes.
  lemma StampedWhenAnswered(w: World, events: seq<Event>, k: nat)
    requires Inv(w)
    ensures var w' := Run(w, events);
      && (Taken(w) < k <= w'.Count() ==> |w'.history| == w'.Count() + 1 && w.now <= w'.history[k].timestamp <= w'.now)
      && (Answering(w) && k == w.Count() + 1 <= w'.Count() ==>
            |w'.history| == w'.Count() + 1 && w'.history[k].timestamp == w.phase.at <= w.now)
  {
    StampedRun(w, events);
  }

  // ----- The link and the pacing, in every reachable state -----

  // A record is only ever published while the link is Operational, and between
  // two cycles the state is Faulted exactly when the last three attempts failed.
  lemma LinkInEveryRun(w0: World, events: seq<Event>)
    requires Initial(w0)
    ensures
      var w := Run(w0, events);
      var n := |w.link.attempts|;
      && (w.phase.Turned? ==> w.link.state == Operational)
      && Alternating(w.link.lines)
      && (w.phase.LoopHead? || w.phase.Sleeping? || w.phase.Exited? ==>
            && (w.link.state == Faulted <==> n >= 3 && forall i :: n - 3 <= i < n ==> !w.link.attempts[i])
            && (|w.link.lines| % 2 == 1 <==> w.link.state == Faulted))
  {
    InitialInv(w0);
    RunKeepsInv(w0, events);
    ThreeTrailing(Run(w0, events).link.attempts);
  }

  lemma NoBurstInAnyRun(w0: World, events: seq<Event>, from: int, length: nat)
    requires Initial(w0) && w0.pace.period > 0
    ensures |StartsWithin(Run(w0, events).pace, from, length)| <= length / w0.pace.period + 2
  {
    InitialInv(w0);
    RunKeepsInv(w0, events);
    PeriodFixed(w0, events);
    NoBurst(Run(w0, events).pace, from, length);
  }

  // From the moment the thread starts: deadline i is that moment and i periods for
  // every i if and only if every cycle was over by its next such deadline.
  lemma NoDriftInAnyRun(w0: World, events: seq<Event>)
    requires Initial(w0)
    ensures var p := Run(w0, events).pace;
      && |p.deadlines| == |p.ends| + 1
      && ((forall i :: 0 <= i < |p.deadlines| ==> p.deadlines[i] == w0.now + i * w0.pace.period)
          <==> (forall i :: 0 <= i < |p.ends| ==> p.ends[i] <= w0.now + (i + 1) * w0.pace.period))
  {
    InitialInv(w0);
    RunKeepsInv(w0, events);
    PeriodFixed(w0, events);
    FirstDeadlineFixed(w0, events);
    NoDrift(Run(w0, events).pace);
  }

  lemma {:induction false} FirstDeadlineFixed(w: World, events: seq<Event>)
    requires w.pace.deadlines != []
    ensures Run(w, events).pace.deadlines[0] == w.pace.deadlines[0]
  {
    if events != [] {
      FirstDeadlineFixed(w, events[..|events| - 1]);
    }
  }

  lemma {:induction false} PeriodFixed(w: World, events: seq<Event>)
    requires w.pace.deadlines != []
    ensures Run(w, events).pace.period == w.pace.period
  {
    if events != [] {
      PeriodFixed(w, events[..|events| - 1]);
    }
  }

  // ----- Records -----

  // In every run each record is its own completed exchange: its number, the
  // block its transaction wrote, and the answer the device gave to exactly
  // that block; stamps never go back.
  lemma WholeRecords(w0: World, events: seq<Event>, k: nat)
    requires Initial(w0) && 0 < k <= Run(w0, events).Count()
    ensures
      var w := Run(w0, events);
      && Inv(w)
      && var r := w.history[k];
      && r.exchangeCount == k
      && w.wires[k - 1] < w.wires[k] < |w.written|
      && r.command == w.written[w.wires[k]]
      && r.status == w0.gripper(w.written[..w.wires[k] + 1])
      && w.history[k - 1].timestamp <= r.timestamp <= w.now
  {
    InitialInv(w0);
    RunKeepsInv(w0, events);
    GripperFixed(w0, events);
    WholeRecord(Run(w0, events), k);
  }

  lemma WholeRecord(w: World, k: nat)
    requires Inv(w) && 0 < k <= w.Count()
    ensures
      var r := w.history[k];
      && r.exchangeCount == k
      && w.wires[k - 1] < w.wires[k] < |w.written|
      && r.command == w.written[w.wires[k]]
      && r.status == w.gripper(w.written[..w.wires[k] + 1])
      && w.history[k - 1].timestamp <= r.timestamp <= w.now
  {
    assert Carried(w.gripper, w.written, w.history[k], w.wires[k]);
  }

  lemma {:induction false} GripperFixed(w: World, events: seq<Event>)
    requires w.pace.deadlines != []
    ensures Run(w, events).gripper == w.gripper
  {
    if events != [] {
      GripperFixed(w, events[..|events| - 1]);
    }
  }
}
