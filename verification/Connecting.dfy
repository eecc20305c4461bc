// What a new connection seeds its command image with, and what the first exchange
// then does to the device.
module Connecting {
  import opened Blocks
  import opened StatusWriter
  import opened RegisterModel
  import opened DeviceLaws
  import opened ModbusClient

  // Everything the status echoes; the two fields it does not are at maximum.
  function SeedCommand(status: GripperStatus): GripperCommand {
    DefaultCommand()
      .Set(Activate, status.Activated())
      .Set(GoTo, status.GoToEnabled())
      .WithPositionRequest(status.PositionRequestEcho())
  }

  lemma SeedBits(status: GripperStatus)
    ensures SeedCommand(status).Get(Activate) == status.Activated()
    ensures SeedCommand(status).Get(GoTo) == status.GoToEnabled()
    ensures SeedCommand(status).PositionRequest() == status.PositionRequestEcho()
    ensures SeedCommand(status).data[4] == SeedCommand(status).data[5] == 0xFF
  {
    hide GripperCommand.Get, GripperStatus.Activated, GripperStatus.GoToEnabled, SetBit, UnsetBit, DefaultCommand;
    var a := DefaultCommand().Set(Activate, status.Activated());
    var g := a.Set(GoTo, status.GoToEnabled());
    SetTouchesOneBit(DefaultCommand(), Activate, status.Activated(), Activate);
    SetTouchesOneBit(a, GoTo, status.GoToEnabled(), GoTo);
    SetTouchesOneBit(a, GoTo, status.GoToEnabled(), Activate);
    SamePositionBits(g, status.PositionRequestEcho());
    DefaultSpeedAndForce();
  }

  // The seeded command, byte by byte: nothing but rACT, rGTO, the position echo,
  // and speed and force at maximum.
  lemma SeedBytes(status: GripperStatus)
    ensures SeedCommand(status).data ==
      [(if status.Activated() then 0x01 else 0x00) | (if status.GoToEnabled() then 0x08 else 0x00),
       0, 0, status.PositionRequestEcho(), 0xFF, 0xFF, 0, 0, 0, 0, 0, 0, 0, 0, 0, 0]
  {
    hide GripperStatus.Activated, GripperStatus.GoToEnabled;
    var data := SeedCommand(status).data;
    assert DefaultCommand().data[0] == 0x01;
    EditLayout(DefaultCommand(), status.Activated());
    EditLayout(DefaultCommand().Set(Activate, status.Activated()), status.GoToEnabled());
  }

  lemma DefaultSpeedAndForce()
    ensures DefaultCommand().data[4] == DefaultCommand().data[5] == 0xFF
  {
  }

  lemma SamePositionBits(c: GripperCommand, position: bv8)
    ensures c.WithPositionRequest(position).Get(Activate) == c.Get(Activate)
    ensures c.WithPositionRequest(position).Get(GoTo) == c.Get(GoTo)
  {
  }

  // Two consistent devices whose rACT, effective rGTO, position request and
  // fault byte agree show the same status, the current byte aside.
  lemma StatusDetermined(d: Device, d': Device)
    requires Consistent(d) && Consistent(d')
    requires d.Status().Activated() == d'.Status().Activated() && d.Status().GoToEnabled() == d'.Status().GoToEnabled()
    requires d.Status().PositionRequestEcho() == d'.Status().PositionRequestEcho()
    requires d.Status().FaultByte() == d'.Status().FaultByte()
    ensures d.Status() == d'.Status() <==> d.Status().Current() == d'.Status().Current()
  {
    hide Device.Status, Device.Command, GripperCommand.Get;
    FlagsDetermineByte(d.Status().data, d'.Status().data);
    var s, s' := d.Status().data, d'.Status().data;
    if s[5] == s'[5] {
      hide GripperStatus.Activated, GripperStatus.GoToEnabled, GripperStatus.State, GripperStatus.Detection;
      assert s == s[..DOCUMENTED_BYTES] + s[DOCUMENTED_BYTES..];
      assert s' == s'[..DOCUMENTED_BYTES] + s'[DOCUMENTED_BYTES..];
      assert s[..DOCUMENTED_BYTES] == s'[..DOCUMENTED_BYTES];
    }
  }

  // Connecting disturbs nothing: the first exchange after seeding produces no
  // rACT edge, and leaves the status block bit-identical exactly when the
  // device already reports its current, as it does from its first write on.
  lemma ConnectingDisturbsNothing(d: Device)
    requires Consistent(d)
    ensures
      var d' := Deliver(d, SeedCommand(Observed(d)));
      && d'.previousActivateBit == d.previousActivateBit && d'.activationDone == d.activationDone
      && (d'.Status() == d.Status() <==> d.Status().Current() == REPORTED_CURRENT)
      && (Observed(d') == Observed(d) <==> d.Status().Current() == REPORTED_CURRENT)
  {
    hide Deliver, SeedCommand, Observed, Device.Status, Device.Command, GripperCommand.Get, GripperStatus.Activated,
      GripperStatus.GoToEnabled, GripperStatus.State, GripperStatus.Detection;
    var c := SeedCommand(Observed(d));
    ClientDecodesStatus(d);
    SeedBits(Observed(d));
    Delivered(d, c);
    ClientDecodesStatus(Deliver(d, c));
    StatusDetermined(d, Deliver(d, c));
  }

  // Every device some register write has reached is left undisturbed.
  lemma ConnectingAfterAnyWrite(requests: seq<Request>)
    requires exists i :: 0 <= i < |requests| && requests[i].Accepted()
    ensures
      var d := WriteAll(Blank(), requests);
      var d' := Deliver(d, SeedCommand(Observed(d)));
      d'.Status() == d.Status() && d'.previousActivateBit == d.previousActivateBit
  {
    hide Deliver, SeedCommand, Observed, Consistent, Device.Status;
    AlwaysConsistent(requests);
    ConnectingDisturbsNothing(WriteAll(Blank(), requests));
  }

  // A device nothing was ever written to is disturbed: its current is zero.
  lemma ConnectingDisturbsTheUnwritten()
    ensures
      var d' := Deliver(Blank(), SeedCommand(Observed(Blank())));
      d'.Status() != Blank().Status() && d'.Status().Current() != Blank().Status().Current()
  {
    hide Deliver, SeedCommand, Observed, Consistent, Device.Command, GripperCommand.Get;
    BlankConsistent();
    ConnectingDisturbsNothing(Blank());
    SeededCurrent(Blank());
  }

  lemma SeededCurrent(d: Device)
    requires Consistent(d)
    ensures Deliver(d, SeedCommand(Observed(d))).Status().Current() == REPORTED_CURRENT
  {
    hide Consistent, Deliver, SeedCommand, Observed, Device.Command, Device.Status, GripperCommand.Get;
    Delivered(d, SeedCommand(Observed(d)));
  }
}
