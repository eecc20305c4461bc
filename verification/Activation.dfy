// The activation and recovery handshake, against every behaviour of the
// exchange cycle and of a link that loses requests and replies.
module Activation {
  import opened Wrappers
  import opened Blocks
  import opened ProcessImage
  import opened ExchangeCycle
  import opened Carriage
  import opened Manual
  import opened Waits

  datatype ActivationResult = Activated | AlreadyActive | FaultLatched | Timeout

  // What the handshake leaves in the image: the entry block with only rGTO
  // cleared and rACT set; and that block with rACT cleared.
  function ActivateBlock(c: GripperCommand): GripperCommand {
    c.Set(GoTo, false).Set(Activate, true)
  }

  function DeactivateBlock(c: GripperCommand): GripperCommand {
    ActivateBlock(c).Set(Activate, false)
  }

  lemma HandshakeBlocks(c: GripperCommand, other: ActionRequestBit)
    ensures var a, d := ActivateBlock(c), DeactivateBlock(c);
      && a.Get(Activate) && !d.Get(Activate) && !a.Get(GoTo) && !d.Get(GoTo)
      && (other != Activate && other != GoTo ==> a.Get(other) == d.Get(other) == c.Get(other))
      && a.data[1..] == d.data[1..] == c.data[1..]
  {
    hide GripperCommand.Get, GripperCommand.Set;
    var g := c.Set(GoTo, false);
    var a := g.Set(Activate, true);
    SetTouchesOneBit(c, GoTo, false, GoTo);
    SetTouchesOneBit(c, GoTo, false, other);
    SetTouchesOneBit(g, Activate, true, Activate);
    SetTouchesOneBit(g, Activate, true, GoTo);
    SetTouchesOneBit(g, Activate, true, other);
    SetTouchesOneBit(a, Activate, false, Activate);
    SetTouchesOneBit(a, Activate, false, GoTo);
    SetTouchesOneBit(a, Activate, false, other);
    SetKeepsTheRest(c, GoTo, false);
    SetKeepsTheRest(g, Activate, true);
    SetKeepsTheRest(a, Activate, false);
  }

  // The same on the wire: rGTO is bit 3 and rACT bit 0 of the first byte, and the
  // reset and the re-activation touch no other bit of it.
  lemma HandshakeBytes(c: GripperCommand)
    ensures ActivateBlock(c).data[0] == (c.data[0] | 0x01) & 0xF7
    ensures DeactivateBlock(c).data[0] == c.data[0] & 0xF6
    ensures ActivateBlock(c).data[1..] == DeactivateBlock(c).data[1..] == c.data[1..]
  {
    HandshakeBlocks(c, Activate);
    hide GripperCommand.Set;
    var g := c.Set(GoTo, false);
    EditLayout(c, false);
    EditLayout(g, true);
    EditLayout(ActivateBlock(c), false);
  }

  // ----- From one command to the next -----

  // Once a record has been published under a command, every later block on the
  // wire is that command.
  lemma AfterFirstRecord(s: World, w: World, k: nat)
    requires Inv(s) && Inv(w) && Later(s, w) && s.Count() < k <= w.Count()
    ensures 0 <= w.wires[k]
    ensures forall i :: w.wires[k] < i < |w.written| ==> w.written[i] == s.image.command
    ensures InFlight(w) <= {s.image.command}
  {
    hide Stamps, LinkInPhase, PacedInPhase;
    assert Carried(w.gripper, w.written, w.history[k], w.wires[k]);
    forall i | w.wires[k] < i < |w.written| ensures w.written[i] == s.image.command {
      assert w.wires[k] >= |s.written| - 1;
    }
  }

  // The second record published under a command was put on the wire under it.
  lemma SecondRecord(s: World, w: World, k: nat)
    requires Inv(s) && Inv(w) && Later(s, w) && s.Count() + 1 < k <= w.Count()
    ensures |s.written| <= w.wires[k]
    ensures w.history[k].command == s.image.command
  {
    assert w.wires[k - 1] < w.wires[k];
  }

  // ----- A device held active and fault-free -----

  // The device is activated and fault-free, and so is every answer on its way;
  // every block on its way keeps it so.
  ghost predicate Held(w: World) {
    && w.image.command.Get(Activate)
    && (forall c :: c in InFlight(w) ==> c.Get(Activate))
    && Healthy(w.gripper(w.written))
    && (Answering(w) ==> Healthy(w.phase.status))
  }

  ghost predicate Healthy(status: GripperStatus) {
    status.Activated() && status.State() == Complete && status.FaultByte() == 0
  }

  predicate KeepsActive(events: seq<Event>) {
    forall i :: 0 <= i < |events| && events[i].Command? ==> events[i].command.Get(Activate)
  }

  lemma HeldStep(w: World, e: Event)
    requires Inv(w) && FollowsManual(w.gripper) && Held(w)
    requires e.Command? ==> e.command.Get(Activate)
    ensures Held(Step(w, e))
    ensures Step(w, e).gripper == w.gripper && w.history <= Step(w, e).history
    ensures |Step(w, e).history| <= |w.history| + 1
    ensures |Step(w, e).history| > |w.history| ==> Healthy(Step(w, e).history[|w.history|].status)
  {
    hide Stamps, LinkInPhase, PacedInPhase, GripperCommand.Get, Healthy;
    if e.Thread? && w.phase.OnWire? {
      var c := w.phase.command;
      assert c in InFlight(w);
      HealthyAnswer(w.gripper, w.written, c);
    }
  }

  lemma HealthyAnswer(gripper: FarEnd, written: seq<GripperCommand>, c: GripperCommand)
    requires FollowsManual(gripper) && Healthy(gripper(written)) && c.Get(Activate)
    ensures Healthy(gripper(written + [c]))
  {
    assert Answers(c, gripper(written), gripper(written + [c]));
  }

  // From then on, as long as every command set keeps rACT, every record shows
  // an activated, fault-free gripper.
  lemma {:induction false} HeldForGood(w: World, events: seq<Event>)
    requires Inv(w) && FollowsManual(w.gripper) && Held(w) && KeepsActive(events)
    ensures var w' := Run(w, events);
      && Inv(w') && Held(w') && w'.gripper == w.gripper && w.history <= w'.history
      && forall k :: |w.history| <= k < |w'.history| ==> Healthy(w'.history[k].status)
  {
    if events != [] {
      var before, e := events[..|events| - 1], events[|events| - 1];
      HeldForGood(w, before);
      hide Held, Healthy, Step, Recorded, Pending, Stamps, LinkInPhase, PacedInPhase;
      HeldStep(Run(w, before), e);
      StepKeepsInv(Run(w, before), e);
    }
  }

  // ----- The handshake -----

  // What a completed handshake proves about the device, by the records that
  // showed its reset and its completion.
  ghost predicate Reactivated(w: World, reset: nat, back: nat) {
    && |w.history| == |w.wires| == w.Count() + 1
    && 0 < reset < back <= w.Count()
    && 0 <= w.wires[reset] < w.wires[back] < |w.written|
    // the device acted on a block with rACT clear, and later on one with it set
    && !w.written[w.wires[reset]].Get(Activate) && w.written[w.wires[back]].Get(Activate)
    && w.history[reset].command == w.written[w.wires[reset]] && w.history[back].command == w.written[w.wires[back]]
    // after the reset nothing asked it to move
    && (forall i :: w.wires[reset] < i < |w.written| ==> !w.written[i].Get(GoTo))
    // from the completing exchange on it is activated and fault-free
    && (forall k :: back <= k <= w.Count() ==> Healthy(w.history[k].status))
    && Held(w)
  }

  // The worlds a handshake passes through up to its second command: the
  // commands set and the exchange that showed the reset.
  ghost predicate ResetShown(b: World, p: GripperCommand, t: World, reset: nat, b2: World, w: World) {
    && Inv(b) && Inv(t) && Inv(b2) && Inv(w) && FollowsManual(b.gripper)
    && Later(Step(b, Command(DeactivateBlock(p))), t)
    && b.Count() < reset <= t.Count() && !t.history[reset].status.Activated()
    && Later(t, b2)
    && Later(Step(b2, Command(ActivateBlock(p))), w)
  }

  // Two commands in a row: past position `from` only the one or the other.
  lemma BlocksFrom(s: World, w: World, from: int, first: GripperCommand)
    requires Later(s, w) && InFlight(s) <= {first}
    requires forall i :: 0 <= i && from < i < |s.written| ==> s.written[i] == first
    ensures forall i :: 0 <= i && from < i < |w.written| ==> w.written[i] in {first, s.image.command}
  {
  }

  lemma BlocksAfterReset(b: World, p: GripperCommand, t: World, reset: nat, b2: World, w: World)
    requires ResetShown(b, p, t, reset, b2, w)
    ensures t.gripper == w.gripper == b.gripper && w.image.command == ActivateBlock(p)
    ensures reset <= b2.Count() <= w.Count() && t.history <= w.history && t.wires <= w.wires
    ensures 0 <= w.wires[reset] < |w.written|
    ensures forall i :: w.wires[reset] < i < |w.written| ==> w.written[i] in {DeactivateBlock(p), ActivateBlock(p)}
  {
    hide ActivateBlock, DeactivateBlock, Pending, Stamps, LinkInPhase, PacedInPhase;
    var s, s2 := Step(b, Command(DeactivateBlock(p))), Step(b2, Command(ActivateBlock(p)));
    StepKeepsInv(b, Command(DeactivateBlock(p)));
    LaterTrans(s, t, b2);
    AfterFirstRecord(s, b2, reset);
    BlocksFrom(s2, w, w.wires[reset], DeactivateBlock(p));
    assert Carried(w.gripper, w.written, w.history[reset], w.wires[reset]);
  }

  // After the exchange that shows the reset no block asks for a motion.
  lemma NoMotionAfterReset(b: World, p: GripperCommand, t: World, reset: nat, b2: World, w: World)
    requires ResetShown(b, p, t, reset, b2, w)
    ensures 0 < reset <= w.Count() && |w.wires| == w.Count() + 1 && 0 <= w.wires[reset]
    ensures forall i :: w.wires[reset] < i < |w.written| ==> !w.written[i].Get(GoTo)
  {
    hide ActivateBlock, DeactivateBlock, GripperCommand.Get, Later, Pending, Stamps, LinkInPhase, PacedInPhase;
    BlocksAfterReset(b, p, t, reset, b2, w);
    HandshakeBlocks(p, GoTo);
  }

  lemma HandshakeReactivates(b: World, p: GripperCommand, t: World, reset: nat, b2: World, w: World, back: nat)
    requires ResetShown(b, p, t, reset, b2, w)
    requires b2.Count() < back <= w.Count() && w.history[back].status.State() == Complete
    ensures Reactivated(w, reset, back) && w.image.command == ActivateBlock(p)
  {
    var s2 := Step(b2, Command(ActivateBlock(p)));
    StepKeepsInv(b2, Command(ActivateBlock(p)));
    AfterFirstRecord(s2, w, back);
    assert s2.image.command == ActivateBlock(p);
    hide ActivateBlock, DeactivateBlock, Later, Step, Held, Healthy, Carried, FollowsManual, Pending, InFlight, Stamps,
      LinkInPhase, PacedInPhase, GripperCommand.Get, GripperStatus.State, GripperStatus.Activated;
    BlocksAfterReset(b, p, t, reset, b2, w);
    NoMotionAfterReset(b, p, t, reset, b2, w);
    HandshakeBlocks(p, Activate);
    RecordShowsItsBlock(w, reset);
    RecordShowsItsBlock(w, back);
    RecordShowsItsBlock(t, reset);
    var i, j := w.wires[reset], w.wires[back];
    assert !w.written[i].Get(Activate) && w.written[j].Get(Activate);
    assert i < j;
    forall k | j < k < |w.written| ensures w.written[k].Get(Activate) {
      assert w.written[k] == ActivateBlock(p);
    }
    HealthyFrom(w, i, back);
    HeldAfter(w, i, j);
  }

  // A reset at position i, a completion at record `back`, rACT set ever since.
  lemma HealthyFrom(w: World, i: nat, back: nat)
    requires Inv(w) && FollowsManual(w.gripper) && 0 < back <= w.Count()
    requires i < w.wires[back] && i < |w.written| && !w.written[i].Get(Activate)
    requires w.history[back].status.State() == Complete
    requires forall k :: w.wires[back] < k < |w.written| ==> w.written[k].Get(Activate)
    ensures forall k :: back <= k <= w.Count() ==> Healthy(w.history[k].status)
  {
    hide GripperCommand.Get, GripperStatus.State, GripperStatus.Activated, Stamps, LinkInPhase, PacedInPhase;
    RecordShowsItsBlock(w, back);
    forall k | back <= k <= w.Count() ensures Healthy(w.history[k].status) {
      RecordShowsItsBlock(w, k);
      assert w.wires[back] <= w.wires[k];
      FaultStaysCleared(w.gripper, w.written, i, w.wires[k]);
      CompletionStays(w.gripper, w.written, w.wires[back], w.wires[k]);
    }
  }

  lemma HeldAfter(w: World, i: nat, j: nat)
    requires Inv(w) && FollowsManual(w.gripper) && i < j < |w.written|
    requires !w.written[i].Get(Activate) && w.gripper(w.written[..j + 1]).State() == Complete
    requires forall k :: j < k < |w.written| ==> w.written[k].Get(Activate)
    requires w.image.command.Get(Activate) && InFlight(w) <= {w.image.command}
    ensures Held(w)
  {
    hide GripperCommand.Get, GripperStatus.State, GripperStatus.Activated, Stamps, LinkInPhase, PacedInPhase;
    var last := |w.written| - 1;
    FaultStaysCleared(w.gripper, w.written, i, last);
    CompletionStays(w.gripper, w.written, j, last);
    assert w.written[..last + 1] == w.written;
  }

  // ----- Bounded progress -----

  // A wait for something every record carrying the command shows looks at two
  // exchanges at most: only the first can carry an older block.
  lemma AtMostTwoLooks(s: World, w: World, judged: seq<StampedExchange>, met: StampedExchange -> bool,
      r: Option<StampedExchange>)
    requires Inv(s) && Inv(w) && Later(s, w)
    requires Judged(w, s.Count(), judged) && Answer(judged, met, r)
    requires forall k :: 0 < k <= w.Count() && w.history[k].command == s.image.command ==> met(w.history[k])
    ensures |judged| <= 2
  {
    if |judged| > 2 {
      SecondLook(s, w, judged);
      assert false;
    }
  }

  lemma SecondLook(s: World, w: World, judged: seq<StampedExchange>)
    requires Inv(s) && Inv(w) && Later(s, w) && Judged(w, s.Count(), judged) && |judged| > 1
    ensures judged[1].command == s.image.command
    ensures 0 < judged[1].exchangeCount <= w.Count() && judged[1] == w.history[judged[1].exchangeCount]
  {
    assert judged[0].exchangeCount < judged[1].exchangeCount;
    SecondRecord(s, w, judged[1].exchangeCount);
  }

  lemma EveryRecordShows(w: World, c: GripperCommand)
    requires Inv(w) && FollowsManual(w.gripper)
    ensures forall k :: 0 < k <= w.Count() && w.history[k].command == c ==>
      && w.history[k].status.Activated() == c.Get(Activate)
      && (ActivatesAtOnce(w.gripper) && c.Get(Activate) ==> w.history[k].status.State() == Complete)
  {
    hide GripperCommand.Get, GripperStatus.State, GripperStatus.Activated, Stamps, LinkInPhase, PacedInPhase;
    forall k | 0 < k <= w.Count() && w.history[k].command == c
      ensures w.history[k].status.Activated() == c.Get(Activate)
      ensures ActivatesAtOnce(w.gripper) && c.Get(Activate) ==> w.history[k].status.State() == Complete
    {
      RecordShowsItsBlock(w, k);
    }
  }
}
