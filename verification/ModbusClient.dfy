// The three-register transactions between the client and the device, and what
// each side decodes from them.
module ModbusClient {
  import opened Blocks
  import opened Packing
  import opened RegisterModel
  import opened DeviceLaws

  const COMMAND_REGISTER_COUNT := DOCUMENTED_BYTES / 2
  const STATUS_REGISTER_COUNT := DOCUMENTED_BYTES / 2

  // What becomes of one transaction on the link: the request never reached the
  // device, the device acted on it but its reply was lost, or it was answered.
  datatype Outcome = NotApplied | ReplyLost | Answered

  datatype Reply = Status(status: GripperStatus) | Failed

  // The device after it acted on the command block the wire carries.
  function Deliver(d: Device, command: GripperCommand): Device {
    d.Write(COMMAND_ADDRESS, RegistersOf(command.data[..DOCUMENTED_BYTES]))
  }

  function StatusRegisters(d: Device): seq<bv16> {
    [d.Read(STATUS_ADDRESS), d.Read(STATUS_ADDRESS + 1), d.Read(STATUS_ADDRESS + 2)]
  }

  // The status block the client decodes from the three status registers.
  function Observed(d: Device): GripperStatus {
    GripperStatus(BytesOf(StatusRegisters(d)) + ZERO_BLOCK[DOCUMENTED_BYTES..])
  }

  lemma StoredCommand(d: Device, bytes: seq<bv8>)
    requires |bytes| == DOCUMENTED_BYTES
    ensures d.Stored(COMMAND_ADDRESS, RegistersOf(bytes)).Command().data == bytes + d.Command().data[DOCUMENTED_BYTES..]
  {
    hide BytesOf, RegistersOf;
    var values := RegistersOf(bytes);
    var was := d.registers[COMMAND_ADDRESS..COMMAND_ADDRESS + BLOCK_REGISTERS];
    var block := d.Stored(COMMAND_ADDRESS, values).registers[COMMAND_ADDRESS..COMMAND_ADDRESS + BLOCK_REGISTERS];
    assert |values| == COMMAND_REGISTER_COUNT;
    forall i | 0 <= i < COMMAND_REGISTER_COUNT ensures block[i] == values[i] {
    }
    assert block[..COMMAND_REGISTER_COUNT] == values;
    assert block[COMMAND_REGISTER_COUNT..] == was[COMMAND_REGISTER_COUNT..];
    BytesOfSlice(block, 0, COMMAND_REGISTER_COUNT);
    BytesRoundTrip(bytes);
    TailBytes(block, was);
    assert BytesOf(block) == BytesOf(block)[..DOCUMENTED_BYTES] + BytesOf(block)[DOCUMENTED_BYTES..];
  }

  // The device decodes the six documented bytes the client encoded, and keeps
  // its own reserved tail.
  lemma DeviceDecodesCommand(d: Device, command: GripperCommand)
    ensures Deliver(d, command).Command().data
         == command.data[..DOCUMENTED_BYTES] + d.Command().data[DOCUMENTED_BYTES..]
  {
    hide BytesOf, RegistersOf, Device.Command;
    var bytes := command.data[..DOCUMENTED_BYTES];
    StoredCommand(d, bytes);
    ReactStatus(d.Stored(COMMAND_ADDRESS, RegistersOf(bytes)));
  }

  lemma TailBytes(a: seq<bv16>, b: seq<bv16>)
    requires |a| == |b| == BLOCK_REGISTERS && a[COMMAND_REGISTER_COUNT..] == b[COMMAND_REGISTER_COUNT..]
    ensures BytesOf(a)[DOCUMENTED_BYTES..] == BytesOf(b)[DOCUMENTED_BYTES..]
  {
    forall i | DOCUMENTED_BYTES <= i < BLOCK_BYTES ensures BytesOf(a)[i] == BytesOf(b)[i] {
      assert a[i / 2] == a[COMMAND_REGISTER_COUNT..][i / 2 - COMMAND_REGISTER_COUNT];
      assert b[i / 2] == b[COMMAND_REGISTER_COUNT..][i / 2 - COMMAND_REGISTER_COUNT];
    }
  }

  // The client decodes the device's six documented status bytes, under a zero
  // tail; for a device in its invariant that is the device's whole block.
  lemma ClientDecodesStatus(d: Device)
    ensures Observed(d).data[..DOCUMENTED_BYTES] == d.Status().data[..DOCUMENTED_BYTES]
    ensures Observed(d).data[DOCUMENTED_BYTES..] == ZERO_BLOCK[DOCUMENTED_BYTES..]
    ensures Consistent(d) ==> Observed(d) == d.Status()
  {
    var block := d.registers[STATUS_ADDRESS..STATUS_ADDRESS + BLOCK_REGISTERS];
    assert block[..STATUS_REGISTER_COUNT] == StatusRegisters(d);
    BytesOfSlice(block, 0, STATUS_REGISTER_COUNT);
    var s, o := d.Status().data, Observed(d).data;
    assert s == s[..DOCUMENTED_BYTES] + s[DOCUMENTED_BYTES..];
    assert o == o[..DOCUMENTED_BYTES] + o[DOCUMENTED_BYTES..];
  }

  lemma SameDocumentedBits(a: GripperCommand, b: GripperCommand)
    requires a.data[..DOCUMENTED_BYTES] == b.data[..DOCUMENTED_BYTES]
    ensures a.Get(Activate) == b.Get(Activate) && a.Get(GoTo) == b.Get(GoTo)
    ensures a.PositionRequest() == b.PositionRequest()
  {
    assert a.data[0] == a.data[..DOCUMENTED_BYTES][0] && a.data[3] == a.data[..DOCUMENTED_BYTES][3];
    assert b.data[0] == b.data[..DOCUMENTED_BYTES][0] && b.data[3] == b.data[..DOCUMENTED_BYTES][3];
  }

  // What the device makes of a delivered block.
  lemma Delivered(d: Device, c: GripperCommand)
    requires Consistent(d)
    ensures
      var d' := Deliver(d, c);
      && Consistent(d')
      && d'.Command().Get(Activate) == c.Get(Activate)
      && d'.Command().Get(GoTo) == c.Get(GoTo)
      && d'.Command().PositionRequest() == c.PositionRequest()
      && d'.Status().Current() == REPORTED_CURRENT
      && d'.Status().FaultByte() == if c.Get(Activate) then d.Status().FaultByte() else 0
  {
    hide Consistent, Device.Command, GripperCommand.Get, Device.Status;
    var w := RegisterWrite(COMMAND_ADDRESS, RegistersOf(c.data[..DOCUMENTED_BYTES]));
    WriteKeepsConsistent(d, w);
    DeviceDecodesCommand(d, c);
    SameDocumentedBits(c, Deliver(d, c).Command());
  }

  // The flags byte of an answer.
  function AnswerFlags(c: GripperCommand): bv8 {
    if c.data[0] & 0x01 == 0 then 0x00 else if c.data[0] & 0x08 == 0 then 0x31 else 0xF9
  }

  // One delivery, register by register: the command goes to 1000 to 1002, the
  // answer appears from 2000 on, and nothing else changes.
  lemma OnTheWire(d: Device, c: GripperCommand, r: nat)
    requires Consistent(d) && r < 2008
    ensures var after := Deliver(d, c).registers[r];
      && (r < 1000 || 1003 <= r < 2000 ==> after == d.registers[r])
      && (1000 <= r < 1003 ==> after == Pack(c.data[2 * (r - 1000)], c.data[2 * (r - 1000) + 1]))
      && (r == 2000 ==> after == Pack(AnswerFlags(c), 0))
      && (r == 2001 ==> after == Pack(if c.data[0] & 0x01 == 0 then 0 else HighByte(d.registers[r]), c.data[3]))
      && (r == 2002 ==> after == Pack(c.data[3], 0x2A))
      && (r > 2002 ==> after == Pack(0, 0))
  {
    hide Consistent, BytesOf, Response, Pack, HighByte, AnswerFlags;
    var bytes := c.data[..DOCUMENTED_BYTES];
    var stored := d.Stored(COMMAND_ADDRESS, RegistersOf(bytes));
    assert Deliver(d, c) == stored.React();
    if r < 2000 {
      assert Deliver(d, c).registers[r] == stored.registers[r];
    } else {
      AnswerBytes(d, c);
      AnswerRegister(Deliver(d, c), r - 2000);
    }
  }

  lemma AnswerRegister(d: Device, k: nat)
    requires k < BLOCK_REGISTERS
    ensures d.registers[2000 + k] == Pack(d.Status().data[2 * k], d.Status().data[2 * k + 1])
  {
    hide Pack, HighByte, LowByte;
    hide BytesOf;
    BytesAt(d.registers[STATUS_ADDRESS..STATUS_ADDRESS + BLOCK_REGISTERS], k);
    PackLaws(0, 0, d.registers[2000 + k]);
  }

  // The answering block, byte by byte.
  lemma AnswerBytes(d: Device, c: GripperCommand)
    requires Consistent(d)
    ensures Deliver(d, c).Status().data ==
      [AnswerFlags(c), 0, if c.data[0] & 0x01 == 0 then 0 else HighByte(d.registers[2001]), c.data[3], c.data[3], 0x2A,
       0, 0, 0, 0, 0, 0, 0, 0, 0, 0]
  {
    hide Deliver, Consistent, Device.Status, Device.Command, ResponseFlags, GripperCommand.Get, AnswerFlags, HighByte,
      Device.React, Device.Stored;
    var d' := Deliver(d, c);
    Delivered(d, c);
    CommandLayout(c, 0);
    FaultByteOf(d);
    FlagsOnTheWire(c);
    InStep(d');
    DeliveredStatus(d, c);
  }

  lemma DeliveredStatus(d: Device, c: GripperCommand)
    requires Consistent(d)
    ensures var d' := Deliver(d, c); d'.Status() == Response(d'.Command(), d'.activationDone, d'.Status().FaultByte())
  {
    hide Consistent, Device.Status, Device.Command, ResponseFlags, GripperCommand.Get;
    ReactStatus(d.Stored(COMMAND_ADDRESS, RegistersOf(c.data[..DOCUMENTED_BYTES])));
  }

  lemma InStep(d: Device)
    requires Consistent(d)
    ensures d.activationDone == d.Command().Get(Activate)
  {
  }

  lemma FlagsOnTheWire(c: GripperCommand)
    ensures ResponseFlags(c.Get(Activate), c.Get(Activate), c.Get(GoTo)) == AnswerFlags(c)
  {
    CommandLayout(c, 0);
  }

  // What a client reads: the command registers never answer, the status ones do,
  // and the client takes the bytes of 2000 to 2002 in order.
  lemma ReadOnTheWire(d: Device, r: nat)
    requires r < 2008
    ensures d.Read(r) == if 1000 <= r < 1008 then 0 else d.registers[r]
    ensures 2000 <= r < 2003 ==>
      && Observed(d).data[2 * (r - 2000)] == HighByte(d.registers[r])
      && Observed(d).data[2 * (r - 2000) + 1] == LowByte(d.registers[r])
  {
    hide HighByte, LowByte;
    if 2000 <= r < 2003 {
      var k := r - 2000;
      assert StatusRegisters(d)[k] == d.registers[r];
      BytesAt(StatusRegisters(d), k);
    }
  }

  // The transaction FC 0x17: the device stores and acts before it answers.
  method Exchange(device: RegisterModel, command: GripperCommand, outcome: Outcome) returns (reply: Reply)
    requires device.Valid()
    modifies device, device.registers
    ensures device.Valid()
    ensures device.State() == if outcome.NotApplied? then old(device.State()) else Deliver(old(device.State()), command)
    ensures reply == if outcome.Answered? then Status(Observed(device.State())) else Failed
  {
    var bytes := new bv8[BLOCK_BYTES](i requires 0 <= i < BLOCK_BYTES => command.data[i]);
    assert bytes[..] == command.data;
    var commandRegisters := RegistersFromBytes(COMMAND_REGISTER_COUNT, bytes);
    assert commandRegisters[..] == RegistersOf(command.data[..DOCUMENTED_BYTES]);
    if outcome.NotApplied? {
      return Failed;
    }
    device.Write(COMMAND_ADDRESS, COMMAND_REGISTER_COUNT, commandRegisters);
    assert commandRegisters[..COMMAND_REGISTER_COUNT] == commandRegisters[..];
    if outcome.ReplyLost? {
      return Failed;
    }
    var status := FetchStatus(device);
    reply := Status(status);
  }

  // The transaction FC 0x03 on the status block.
  method ReadStatus(device: RegisterModel, outcome: Outcome) returns (reply: Reply)
    requires device.Valid()
    ensures reply == if outcome.Answered? then Status(Observed(device.State())) else Failed
  {
    if !outcome.Answered? {
      return Failed;
    }
    var status := FetchStatus(device);
    reply := Status(status);
  }

  method FetchStatus(device: RegisterModel) returns (status: GripperStatus)
    requires device.Valid()
    ensures status == Observed(device.State())
  {
    var statusRegisters := new bv16[STATUS_REGISTER_COUNT](_ => 0);
    device.Read(STATUS_ADDRESS, STATUS_REGISTER_COUNT, statusRegisters);
    assert statusRegisters[..] == StatusRegisters(device.State());
    var block := new bv8[BLOCK_BYTES](_ => 0);
    assert block[2 * STATUS_REGISTER_COUNT..] == ZERO_BLOCK[DOCUMENTED_BYTES..];
    BytesFromRegisters(statusRegisters, block);
    status := GripperStatus(block[..]);
  }
}
