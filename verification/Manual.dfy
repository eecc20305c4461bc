// What the handshake relies on the gripper for, and that the register model
// provides it.
module Manual {
  import opened Blocks
  import opened Packing
  import opened RegisterModel
  import opened DeviceLaws
  import opened ModbusClient
  import opened ExchangeCycle

  // Each answer shows the block it answers: gACT echoes rACT; a clear rACT
  // resets the gripper and clears its fault byte; a set one keeps the fault
  // byte and starts, continues or keeps a completed activation.
  ghost predicate Answers(command: GripperCommand, before: GripperStatus, after: GripperStatus) {
    && after.Activated() == command.Get(Activate)
    && (if command.Get(Activate) then
          && (after.State() == InProgress || after.State() == Complete)
          && (before.Activated() && before.State() == Complete ==> after.State() == Complete)
          && after.FaultByte() == before.FaultByte()
        else
          after.State() == Reset && after.FaultByte() == 0)
  }

  ghost predicate FollowsManual(gripper: FarEnd) {
    forall blocks: seq<GripperCommand>, c: GripperCommand ::
      Answers(c, gripper(blocks), gripper(blocks + [c]))
  }

  // The calibration sweep takes no time, as in the register model.
  ghost predicate ActivatesAtOnce(gripper: FarEnd) {
    forall blocks: seq<GripperCommand>, c: GripperCommand ::
      c.Get(Activate) ==> gripper(blocks + [c]).State() == Complete
  }

  function DeliverAll(d: Device, blocks: seq<GripperCommand>): Device {
    if blocks == [] then d
    else Deliver(DeliverAll(d, blocks[..|blocks| - 1]), blocks[|blocks| - 1])
  }

  // The register model at the far end of the link, from state d on.
  function RegisterGripper(d: Device): FarEnd {
    (blocks: seq<GripperCommand>) => Observed(DeliverAll(d, blocks))
  }

  lemma DeliverAnswers(d: Device, c: GripperCommand)
    requires Consistent(d)
    ensures Consistent(Deliver(d, c))
    ensures Answers(c, Observed(d), Observed(Deliver(d, c)))
    ensures c.Get(Activate) ==> Observed(Deliver(d, c)).State() == Complete
  {
    hide Deliver, Observed, Device.Status, Device.Command, GripperCommand.Get, GripperStatus.Activated,
      GripperStatus.State;
    Delivered(d, c);
    ClientDecodesStatus(d);
    ClientDecodesStatus(Deliver(d, c));
  }

  lemma {:induction false} DeliverAllConsistent(d: Device, blocks: seq<GripperCommand>)
    requires Consistent(d)
    ensures Consistent(DeliverAll(d, blocks))
  {
    hide Consistent, Deliver;
    if blocks != [] {
      DeliverAllConsistent(d, blocks[..|blocks| - 1]);
      DeliverAnswers(DeliverAll(d, blocks[..|blocks| - 1]), blocks[|blocks| - 1]);
    }
  }

  // The register model follows the manual from every state any sequence of
  // register writes can leave it in.
  lemma RegisterModelFollowsManual(requests: seq<Request>)
    ensures FollowsManual(RegisterGripper(WriteAll(Blank(), requests)))
    ensures ActivatesAtOnce(RegisterGripper(WriteAll(Blank(), requests)))
  {
    var d := WriteAll(Blank(), requests);
    AlwaysConsistent(requests);
    hide Consistent, Deliver, Observed, Answers;
    forall blocks: seq<GripperCommand>, c: GripperCommand
      ensures Answers(c, RegisterGripper(d)(blocks), RegisterGripper(d)(blocks + [c]))
      ensures c.Get(Activate) ==> RegisterGripper(d)(blocks + [c]).State() == Complete
    {
      DeliverAllConsistent(d, blocks);
      DeliverAnswers(DeliverAll(d, blocks), c);
      assert (blocks + [c])[..|blocks|] == blocks;
    }
  }

  // A cleared rACT leaves the fault byte at 0 for good.
  lemma {:induction false} FaultStaysCleared(gripper: FarEnd, written: seq<GripperCommand>, i: nat, j: nat)
    requires FollowsManual(gripper) && i <= j < |written| && !written[i].Get(Activate)
    ensures gripper(written[..j + 1]).FaultByte() == 0
    decreases j - i
  {
    AnswerAt(gripper, written, j);
    if i < j {
      FaultStaysCleared(gripper, written, i, j - 1);
    }
  }

  // A completed activation stays complete for as long as rACT is set.
  lemma {:induction false} CompletionStays(gripper: FarEnd, written: seq<GripperCommand>, i: nat, j: nat)
    requires FollowsManual(gripper) && i <= j < |written|
    requires gripper(written[..i + 1]).State() == Complete
    requires forall k :: i < k <= j ==> written[k].Get(Activate)
    ensures gripper(written[..j + 1]).State() == Complete && gripper(written[..j + 1]).Activated()
    decreases j - i
  {
    AnswerAt(gripper, written, j);
    if i < j {
      CompletionStays(gripper, written, i, j - 1);
    }
  }

  lemma AnswerAt(gripper: FarEnd, written: seq<GripperCommand>, i: nat)
    requires FollowsManual(gripper) && i < |written|
    ensures Answers(written[i], gripper(written[..i]), gripper(written[..i + 1]))
  {
    assert written[..i + 1] == written[..i] + [written[i]];
  }

  // A record shows its own block: gACT is its rACT, and only a block with rACT
  // set can show a completed activation.
  lemma RecordShowsItsBlock(w: World, k: nat)
    requires Recorded(w) && FollowsManual(w.gripper) && 0 < k <= w.Count()
    ensures 0 <= w.wires[k] < |w.written| && w.history[k].command == w.written[w.wires[k]]
    ensures w.history[k].status == w.gripper(w.written[..w.wires[k] + 1])
    ensures w.history[k].status.Activated() == w.history[k].command.Get(Activate)
    ensures w.history[k].status.State() == Complete ==> w.history[k].command.Get(Activate)
    ensures ActivatesAtOnce(w.gripper) && w.history[k].command.Get(Activate) ==> w.history[k].status.State() == Complete
  {
    var i := w.wires[k];
    assert Carried(w.gripper, w.written, w.history[k], i);
    AnswerAt(w.gripper, w.written, i);
    assert w.written[..i + 1] == w.written[..i] + [w.written[i]];
  }

  // ----- An active gripper with a fault -----

  // Whatever block with rACT set the first exchange writes, its record is
  // complete and shows the fault byte.
  ghost predicate ActiveWithFault(d: Device, fault: bv8) {
    forall c: GripperCommand :: c.Get(Activate) ==>
      var status := RegisterGripper(d)([c]);
      status.Activated() && status.State() == Complete && status.FaultByte() == fault
  }

  // Register writes reach a device that is active with any fault byte at all.
  lemma AnyFaultWhileActive(fault: bv8) returns (requests: seq<Request>)
    ensures ActiveWithFault(WriteAll(Blank(), requests), fault)
  {
    hide Device.Write, Consistent, Device.Status, Device.Command, GripperCommand.Get, ActiveWithFault;
    var activate, fail := RegisterWrite(COMMAND_ADDRESS, [0x0100]), RegisterWrite(STATUS_ADDRESS + 1, [Pack(fault, 0)]);
    var active := Blank().Write(activate.address, activate.values);
    requests := [activate, fail];
    TwoWrites(Blank(), activate, fail);
    Activates();
    StatusWriteKeepsCommand(active, fail);
    PackLaws(fault, 0, 0);
    BlankConsistent();
    WriteKeepsConsistent(Blank(), activate);
    WriteKeepsConsistent(active, fail);
    ShownByFirstExchange(active.Write(fail.address, fail.values), fault);
  }

  lemma TwoWrites(d: Device, first: Request, second: Request)
    ensures WriteAll(d, [first, second]) == d.Write(first.address, first.values).Write(second.address, second.values)
  {
    hide Device.Write;
    assert [first, second][..1] == [first] && [first][..0] == [];
    assert WriteAll(d, [first]) == d.Write(first.address, first.values);
  }

  lemma Activates()
    ensures Blank().Write(COMMAND_ADDRESS, [0x0100]).Command().Get(Activate)
  {
    var stored := Blank().Stored(COMMAND_ADDRESS, [0x0100]);
    ReactStatus(stored);
    assert stored.Command().data[0] == HighByte(stored.registers[COMMAND_ADDRESS]);
  }

  lemma StatusWriteKeepsCommand(d: Device, w: Request)
    requires w.address == STATUS_ADDRESS + 1 && |w.values| == 1
    ensures d.Write(w.address, w.values).Command() == d.Command() && w.Accepted() && w.Covers(STATUS_ADDRESS + 1)
  {
    var stored := d.Stored(w.address, w.values);
    ReactStatus(stored);
    var from, to := COMMAND_ADDRESS, COMMAND_ADDRESS + BLOCK_REGISTERS;
    assert stored.registers[from..to] == d.registers[from..to];
  }

  lemma ShownByFirstExchange(d: Device, fault: bv8)
    requires Consistent(d) && d.Status().FaultByte() == fault
    ensures ActiveWithFault(d, fault)
  {
    hide Deliver, Observed, Consistent, Device.Status, GripperCommand.Get, GripperStatus.State, GripperStatus.Activated;
    forall c: GripperCommand | c.Get(Activate)
      ensures var status := RegisterGripper(d)([c]);
        status.Activated() && status.State() == Complete && status.FaultByte() == fault
    {
      assert [c][..0] == [] && DeliverAll(d, []) == d && DeliverAll(d, [c]) == Deliver(d, c);
      DeliverAnswers(d, c);
      ClientDecodesFault(d);
    }
  }

  lemma ClientDecodesFault(d: Device)
    requires Consistent(d)
    ensures Observed(d).FaultByte() == d.Status().FaultByte()
  {
    hide Consistent, Observed, Device.Status;
    ClientDecodesStatus(d);
  }

  // So activate() can find an active gripper with a minor fault, and one with a
  // controller fault, and tolerates both.
  lemma ToleratedWhileActive() returns (minor: seq<Request>, controllers: seq<Request>)
    ensures ActiveWithFault(WriteAll(Blank(), minor), 0x08) && Severity(0x08) == Minor && Tolerated(0x08)
    ensures ActiveWithFault(WriteAll(Blank(), controllers), 0xC0) && Severity(0xC0) == NoFault && Tolerated(0xC0)
  {
    hide ActiveWithFault;
    minor := AnyFaultWhileActive(0x08);
    controllers := AnyFaultWhileActive(0xC0);
  }
}
