// The gripper's register file and what it does with a written command block.
module RegisterModel {
  import opened Blocks
  import opened Packing
  import Writer = StatusWriter

  const COMMAND_ADDRESS := 1000
  const STATUS_ADDRESS := 2000
  const BLOCK_REGISTERS := 8
  const REGISTER_COUNT := 2008
  const REPORTED_CURRENT: bv8 := 0x2A

  type Registers = r: seq<bv16> | |r| == REGISTER_COUNT witness seq(REGISTER_COUNT, _ => 0)

  // The device's whole state: the register file and the rACT edge tracking.
  datatype Device = Device(registers: Registers, previousActivateBit: bool, activationDone: bool) {
    function Command(): GripperCommand {
      GripperCommand(BytesOf(registers[COMMAND_ADDRESS..COMMAND_ADDRESS + BLOCK_REGISTERS]))
    }

    function Status(): GripperStatus {
      GripperStatus(BytesOf(registers[STATUS_ADDRESS..STATUS_ADDRESS + BLOCK_REGISTERS]))
    }

    // One register as a client reads it; the command block never reads back.
    function Read(address: nat): bv16
      requires address < REGISTER_COUNT
    {
      if COMMAND_ADDRESS <= address < COMMAND_ADDRESS + BLOCK_REGISTERS then 0 else registers[address]
    }

    // A register write, then the device's reaction to its command block.
    function Write(address: nat, values: seq<bv16>): Device
      requires address < 0x1_0000 && |values| < 0x1_0000
    {
      if ContainsRange(address, |values|) then
        Stored(address, values).React()
      else
        this
    }

    function Stored(address: nat, values: seq<bv16>): Device
      requires address + |values| <= REGISTER_COUNT
    {
      this.(registers := registers[..address] + values + registers[address + |values|..])
    }

    function React(): Device {
      var active := Command().Get(Activate);
      var done := active && (activationDone || !previousActivateBit);
      var fault := if active then Status().FaultByte() else 0;
      Device(
        registers[..STATUS_ADDRESS] + RegistersOf(Response(Command(), done, fault).data),
        active,
        done)
    }
  }

  // An unpowered-state device: every register zero, no edge seen.
  function Blank(): Device {
    Device(seq(REGISTER_COUNT, _ => 0), false, false)
  }

  // The source's range test, in its 32-bit unsigned arithmetic.
  predicate ContainsRange(address: nat, quantity: nat)
    requires address < 0x1_0000 && quantity < 0x1_0000
  {
    (address + quantity - 1) % 0x1_0000_0000 < REGISTER_COUNT
  }

  // The status block that answers `command`.
  function Response(command: GripperCommand, done: bool, fault: bv8): GripperStatus {
    var flags := ResponseFlags(command.Get(Activate), done, command.Get(GoTo));
    var position := command.PositionRequest();
    GripperStatus([flags, 0, fault, position, position, REPORTED_CURRENT, 0, 0, 0, 0, 0, 0, 0, 0, 0, 0])
  }

  function ResponseFlags(active: bool, done: bool, goTo: bool): bv8 {
    (if active then ACTIVATION_STATUS_MASK else 0)
    | (if active && done then ACTIVATION_STATE_MASK else 0)
    | (if active && done && goTo then GO_TO_ECHO_MASK | OBJECT_DETECTION_MASK else 0)
  }

  // What a reader decodes from those flags, and from no others.
  lemma ResponseFlagsMeaning(block: Block, active: bool, done: bool, goTo: bool)
    ensures block[0] == ResponseFlags(active, done, goTo) <==>
      Writer.FlagsOf(block) == Writer.Flags(
        active,
        active && done && goTo,
        if active && done then Complete else Reset,
        if active && done && goTo then AtRequestedPosition else Moving,
        0)
  {
  }

  class RegisterModel {
    const registers: array<bv16>
    var previousActivateBit: bool
    var activationDone: bool

    ghost predicate Valid()
      reads this
    {
      registers.Length == REGISTER_COUNT
    }

    ghost function State(): Device
      reads this, registers
      requires Valid()
    {
      Device(registers[..], previousActivateBit, activationDone)
    }

    constructor ()
      ensures Valid() && fresh(registers)
      ensures State() == Blank()
    {
      registers := new bv16[REGISTER_COUNT](_ => 0);
      previousActivateBit, activationDone := false, false;
    }

    method Read(address: nat, quantity: nat, out: array<bv16>)
      requires Valid() && out != registers
      requires address < 0x1_0000 && quantity < 0x1_0000 && quantity <= out.Length
      modifies out
      ensures ContainsRange(address, quantity) ==>
        forall k :: 0 <= k < quantity ==> address + k < REGISTER_COUNT && out[k] == State().Read(address + k)
      ensures !ContainsRange(address, quantity) ==> out[..] == old(out[..])
      ensures out[quantity..] == old(out[quantity..])
    {
      if !ContainsRange(address, quantity) {
        return;
      }
      for i := 0 to quantity
        invariant forall k :: 0 <= k < i ==> out[k] == State().Read(address + k)
        invariant out[quantity..] == old(out[quantity..])
      {
        var reg := address + i;
        var inCommandBlock := COMMAND_ADDRESS <= reg < COMMAND_ADDRESS + BLOCK_REGISTERS;
        out[i] := if inCommandBlock then 0 else registers[reg];
      }
    }

    method Write(address: nat, quantity: nat, values: array<bv16>)
      requires Valid() && values != registers
      requires address < 0x1_0000 && quantity < 0x1_0000 && quantity <= values.Length
      modifies this, registers
      ensures Valid() && State() == old(State()).Write(address, values[..quantity])
    {
      if !ContainsRange(address, quantity) {
        return;
      }
      for i := 0 to quantity
        modifies registers
        invariant registers[..] == old(registers[..])[..address] + values[..i] + old(registers[..])[address + i..]
      {
        registers[address + i] := values[i];
      }
      hide Response, BytesOf, RegistersOf, GripperCommand.Get, GripperStatus.FaultByte;
      ghost var stored := old(State()).Stored(address, values[..quantity]);
      assert State() == stored;
      var command := Command();
      var status := Status();
      var next := ProcessCommand(command, status);
      SetStatus(next);
    }

    method Command() returns (command: GripperCommand)
      requires Valid()
      ensures command == State().Command()
    {
      var block := new bv16[BLOCK_REGISTERS](i
        requires 0 <= i < BLOCK_REGISTERS && Valid()
        reads this, registers => registers[COMMAND_ADDRESS + i]);
      assert block[..] == registers[COMMAND_ADDRESS..COMMAND_ADDRESS + BLOCK_REGISTERS];
      var decoded := new bv8[BLOCK_BYTES](_ => 0);
      BytesFromRegisters(block, decoded);
      command := GripperCommand(decoded[..]);
    }

    method Status() returns (status: GripperStatus)
      requires Valid()
      ensures status == State().Status()
    {
      var block := new bv16[BLOCK_REGISTERS](i
        requires 0 <= i < BLOCK_REGISTERS && Valid()
        reads this, registers => registers[STATUS_ADDRESS + i]);
      assert block[..] == registers[STATUS_ADDRESS..STATUS_ADDRESS + BLOCK_REGISTERS];
      var decoded := new bv8[BLOCK_BYTES](_ => 0);
      BytesFromRegisters(block, decoded);
      status := GripperStatus(decoded[..]);
    }

    method SetStatus(status: GripperStatus)
      requires Valid()
      modifies registers
      ensures registers[..] == old(registers[..])[..STATUS_ADDRESS] + RegistersOf(status.data)
    {
      var bytes := new bv8[BLOCK_BYTES](i requires 0 <= i < BLOCK_BYTES => status.data[i]);
      assert bytes[..] == status.data;
      var block := RegistersFromBytes(BLOCK_REGISTERS, bytes);
      assert bytes[..2 * BLOCK_REGISTERS] == status.data;
      for i := 0 to BLOCK_REGISTERS
        invariant registers[..] ==
          old(registers[..])[..STATUS_ADDRESS] + block[..i] + old(registers[..])[STATUS_ADDRESS + i..]
        invariant block[..] == RegistersOf(status.data)
      {
        registers[STATUS_ADDRESS + i] := block[i];
      }
    }

    method ProcessCommand(command: GripperCommand, currentStatus: GripperStatus) returns (nextStatus: GripperStatus)
      requires Valid()
      modifies this
      ensures Valid()
      ensures previousActivateBit == command.Get(Activate)
      ensures activationDone == (command.Get(Activate) && (old(activationDone) || !old(previousActivateBit)))
      ensures nextStatus ==
        Response(command, activationDone, if command.Get(Activate) then currentStatus.FaultByte() else 0)
    {
      var activateBit := command.Get(Activate);
      var fault := currentStatus.FaultByte();
      if activateBit && !previousActivateBit {
        activationDone := true;
      }
      if !activateBit {
        activationDone := false;
        fault := 0;
      }
      previousActivateBit := activateBit;

      var next := new bv8[BLOCK_BYTES](_ => 0);
      Writer.SetFaultStatusByte(next, fault);
      var goTo := command.Get(GoTo);
      WriteFlags(next, activateBit, goTo);
      ghost var flags := ResponseFlags(activateBit, activationDone, goTo);
      assert next[0] == flags && next[2] == fault;
      next[3] := command.PositionRequest(); // gPR
      next[4] := command.PositionRequest(); // gPO: motion takes no time
      next[5] := REPORTED_CURRENT;
      ghost var position := command.PositionRequest();
      assert next[..] == [flags, 0, fault, position, position, REPORTED_CURRENT, 0, 0, 0, 0, 0, 0, 0, 0, 0, 0];
      nextStatus := GripperStatus(next[..]);
    }

    method WriteFlags(next: array<bv8>, activateBit: bool, goTo: bool)
      requires next.Length == BLOCK_BYTES && next[0] == 0
      modifies next
      ensures next[..] == old(next[..])[0 := ResponseFlags(activateBit, activationDone, goTo)]
    {
      Writer.SetActivated(next, activateBit);
      if activateBit && activationDone {
        Writer.SetActivationState(next, Complete);
        if goTo {
          Writer.SetGoToEnabled(next, true);
          Writer.SetObjectDetection(next, AtRequestedPosition);
        }
      }
      ResponseFlagsMeaning(next[..], activateBit, activationDone, goTo);
      assert next[..] == [next[0]] + next[1..];
    }
  }
}
