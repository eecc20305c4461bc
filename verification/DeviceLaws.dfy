// What the device keeps over any sequence of register writes.
module DeviceLaws {
  import opened Blocks
  import opened Packing
  import opened StatusWriter
  import opened RegisterModel

  // One FC 0x10 request: an address and the register values to store there.
  datatype RegisterWrite = RegisterWrite(address: nat, values: seq<bv16>) {
    predicate Encodable() { address < 0x1_0000 && |values| < 0x1_0000 }
    predicate Accepted() requires Encodable() { ContainsRange(address, |values|) }
    predicate Covers(register: nat) { address <= register < address + |values| }
  }

  type Request = w: RegisterWrite | w.Encodable() witness RegisterWrite(0, [])

  function WriteAll(d: Device, requests: seq<Request>): Device {
    if requests == [] then d
    else
      var last := requests[|requests| - 1];
      WriteAll(d, requests[..|requests| - 1]).Write(last.address, last.values)
  }

  // The status block tells the truth about the command block, and the edge
  // tracking is in step with it.
  ghost predicate Consistent(d: Device) {
    var command, status := d.Command(), d.Status();
    var active := command.Get(Activate);
    var goTo := active && command.Get(GoTo);
    && d.previousActivateBit == d.activationDone == active
    && status.Activated() == active
    && status.State() == (if active then Complete else Reset)
    && status.GoToEnabled() == goTo
    && status.Detection() == (if goTo then AtRequestedPosition else Moving)
    && status.PositionRequestEcho() == status.Position() == command.PositionRequest()
    && (!active ==> status.FaultByte() == 0)
    && status.data[0] & RESERVED_FLAGS_MASK == 0 && status.data[1] == 0
    && status.data[DOCUMENTED_BYTES..] == ZERO_BLOCK[DOCUMENTED_BYTES..]
  }

  // For a non-empty range the 32-bit test is exactly "no access leaves the
  // register file"; an empty range is refused at address 0, where it wraps.
  lemma ContainsRangeMeaning(address: nat, quantity: nat)
    requires address < 0x1_0000 && quantity < 0x1_0000
    ensures quantity > 0 ==>
      (ContainsRange(address, quantity) <==> forall r: nat :: Reached(address, quantity, r) ==> InFile(r))
    ensures quantity == 0 ==> (ContainsRange(address, quantity) <==> 0 < address <= 2008)
  {
    if quantity > 0 && !ContainsRange(address, quantity) {
      assert Reached(address, quantity, address + quantity - 1);
    }
  }

  predicate Reached(address: nat, quantity: nat, register: nat) { address <= register < address + quantity }

  predicate InFile(register: nat) { register < 2008 }

  lemma StatusSlots(r: Registers, data: Block)
    ensures
      var r' := r[..STATUS_ADDRESS] + RegistersOf(data);
      && |r'| == REGISTER_COUNT
      && BytesOf(r'[STATUS_ADDRESS..STATUS_ADDRESS + BLOCK_REGISTERS]) == data
      && r'[COMMAND_ADDRESS..COMMAND_ADDRESS + BLOCK_REGISTERS] == r[COMMAND_ADDRESS..COMMAND_ADDRESS + BLOCK_REGISTERS]
  {
    var r' := r[..STATUS_ADDRESS] + RegistersOf(data);
    assert r'[STATUS_ADDRESS..STATUS_ADDRESS + BLOCK_REGISTERS] == RegistersOf(data);
    BytesRoundTrip(data);
  }

  lemma ReactStatus(d: Device)
    ensures d.React().Command() == d.Command()
    ensures d.React().Status() ==
      Response(d.Command(), d.React().activationDone, if d.Command().Get(Activate) then d.Status().FaultByte() else 0)
  {
    var active := d.Command().Get(Activate);
    var done := active && (d.activationDone || !d.previousActivateBit);
    StatusSlots(d.registers, Response(d.Command(), done, if active then d.Status().FaultByte() else 0).data);
  }

  lemma ResponseConsistent(command: GripperCommand, fault: bv8, d: Device)
    requires command.Get(Activate) || fault == 0
    requires d.Command() == command && d.Status() == Response(command, command.Get(Activate), fault)
    requires d.previousActivateBit == d.activationDone == command.Get(Activate)
    ensures Consistent(d)
    ensures d.Status().Current() == REPORTED_CURRENT && d.Status().FaultByte() == fault
  {
    hide ResponseFlags, GripperCommand.Get, GripperStatus.Activated, GripperStatus.GoToEnabled, GripperStatus.State,
      GripperStatus.Detection, Device.Status, Device.Command;
    ResponseFlagsMeaning(d.Status().data, command.Get(Activate), command.Get(Activate), command.Get(GoTo));
  }

  lemma ReactConsistent(d: Device)
    requires d.previousActivateBit == d.activationDone
    ensures Consistent(d.React())
    ensures d.React().Status().Current() == REPORTED_CURRENT
    ensures d.React().Status().FaultByte() == if d.Command().Get(Activate) then d.Status().FaultByte() else 0
  {
    ReactStatus(d);
    ResponseConsistent(d.Command(), if d.Command().Get(Activate) then d.Status().FaultByte() else 0, d.React());
  }

  // Every accepted write, whatever it covers, leaves the device consistent, and
  // settles the fault byte: 0 when rACT is clear afterwards, else what the write
  // stored over it, else what it was.
  lemma WriteKeepsConsistent(d: Device, w: Request)
    requires Consistent(d)
    ensures Consistent(d.Write(w.address, w.values))
    ensures !w.Accepted() ==> d.Write(w.address, w.values) == d
    ensures w.Accepted() ==>
      var d' := d.Write(w.address, w.values);
      && d'.Status().Current() == REPORTED_CURRENT
      && (!d'.Command().Get(Activate) ==> d'.Status().FaultByte() == 0)
      && (d'.Command().Get(Activate) && !w.Covers(STATUS_ADDRESS + 1) ==>
            d'.Status().FaultByte() == d.Status().FaultByte())
      && (d'.Command().Get(Activate) && w.Covers(STATUS_ADDRESS + 1) ==>
            d'.Status().FaultByte() == HighByte(w.values[STATUS_ADDRESS + 1 - w.address]))
  {
    if w.Accepted() {
      ContainsRangeMeaning(w.address, |w.values|);
      var stored := d.Stored(w.address, w.values);
      ReactConsistent(stored);
      ReactStatus(stored);
      StoredFault(d, w);
    }
  }

  lemma StoredFault(d: Device, w: Request)
    requires w.Accepted() && w.address + |w.values| <= REGISTER_COUNT
    ensures !w.Covers(STATUS_ADDRESS + 1) ==>
      d.Stored(w.address, w.values).Status().FaultByte() == d.Status().FaultByte()
    ensures w.Covers(STATUS_ADDRESS + 1) ==>
      d.Stored(w.address, w.values).Status().FaultByte() == HighByte(w.values[STATUS_ADDRESS + 1 - w.address])
  {
    FaultByteOf(d);
    FaultByteOf(d.Stored(w.address, w.values));
    hide BytesOf, HighByte, Device.Status;
    var register := d.Stored(w.address, w.values).registers[STATUS_ADDRESS + 1];
    if w.Covers(STATUS_ADDRESS + 1) {
      assert register == w.values[STATUS_ADDRESS + 1 - w.address];
    } else {
      assert register == d.registers[STATUS_ADDRESS + 1];
    }
  }

  lemma FaultByteOf(d: Device)
    ensures d.Status().FaultByte() == HighByte(d.registers[STATUS_ADDRESS + 1])
  {
    var block := d.registers[STATUS_ADDRESS..STATUS_ADDRESS + BLOCK_REGISTERS];
    assert block[1] == d.registers[STATUS_ADDRESS + 1];
    assert BytesOf(block)[2] == HighByte(block[1]);
  }

  lemma BlankConsistent()
    ensures Consistent(Blank())
    ensures Blank().Status().data == ZERO_BLOCK
  {
    assert Blank().Command().data == ZERO_BLOCK;
    assert Blank().Status().data == ZERO_BLOCK;
    ResponseFlagsMeaning(ZERO_BLOCK, false, false, false);
  }

  // The device invariant over whole runs, and what its first accepted write
  // settles for good.
  lemma {:induction false} AlwaysConsistent(requests: seq<Request>)
    ensures Consistent(WriteAll(Blank(), requests))
    ensures (exists i :: 0 <= i < |requests| && requests[i].Accepted()) ==>
      WriteAll(Blank(), requests).Status().Current() == REPORTED_CURRENT
    ensures (forall i :: 0 <= i < |requests| ==> !requests[i].Accepted()) ==>
      WriteAll(Blank(), requests) == Blank()
  {
    hide Device.Write, Consistent, Device.Status, Device.Command;
    if requests == [] {
      BlankConsistent();
    } else {
      var before, last := requests[..|requests| - 1], requests[|requests| - 1];
      AlwaysConsistent(before);
      WriteKeepsConsistent(WriteAll(Blank(), before), last);
      if exists i :: 0 <= i < |requests| && requests[i].Accepted() {
        var i :| 0 <= i < |requests| && requests[i].Accepted();
        if i < |before| {
          assert before[i].Accepted();
        }
      }
    }
  }
}
