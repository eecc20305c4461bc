// The 16-byte command and status blocks, their packed bytes and the named
// bits inside them.
module Blocks {
  const BLOCK_BYTES := 16
  const DOCUMENTED_BYTES := 6

  type Block = b: seq<bv8> | |b| == BLOCK_BYTES witness ZERO_BLOCK

  const ZERO_BLOCK: seq<bv8> := [0, 0, 0, 0, 0, 0, 0, 0, 0, 0, 0, 0, 0, 0, 0, 0]

  // ----- The action-request byte -----

  datatype ActionRequestBit = Activate | GoTo | AutoRelease | AutoReleaseOpenDirection

  // One bit, shifted to the index the manual gives it.
  function Mask(bit: ActionRequestBit): bv8 {
    match bit
    case Activate => 1 << 0
    case GoTo => 1 << 3
    case AutoRelease => 1 << 4
    case AutoReleaseOpenDirection => 1 << 5
  }

  function SetBit(value: bv8, bit: ActionRequestBit): bv8 {
    value | Mask(bit)
  }

  function UnsetBit(value: bv8, bit: ActionRequestBit): bv8 {
    value & !Mask(bit)
  }

  // ----- The command block -----

  datatype GripperCommand = GripperCommand(data: Block) {
    predicate Get(bit: ActionRequestBit) {
      data[0] & Mask(bit) != 0
    }

    function Set(bit: ActionRequestBit, on: bool): GripperCommand {
      GripperCommand(data[0 := if on then SetBit(data[0], bit) else UnsetBit(data[0], bit)])
    }

    function PositionRequest(): bv8 { data[3] }

    function WithPositionRequest(position: bv8): GripperCommand {
      GripperCommand(data[3 := position])
    }
  }

  // Activate set, speed and force at maximum.
  function DefaultCommand(): GripperCommand {
    GripperCommand(ZERO_BLOCK[4 := 0xFF][5 := 0xFF]).Set(Activate, true)
  }

  // Where the manual puts the four bits of byte 0, and the position request.
  lemma CommandLayout(c: GripperCommand, position: bv8)
    ensures c.Get(Activate) <==> c.data[0] & 0x01 != 0
    ensures c.Get(GoTo) <==> c.data[0] & 0x08 != 0
    ensures c.Get(AutoRelease) <==> c.data[0] & 0x10 != 0
    ensures c.Get(AutoReleaseOpenDirection) <==> c.data[0] & 0x20 != 0
    ensures c.PositionRequest() == c.data[3] && c.WithPositionRequest(position).data == c.data[3 := position]
  {
  }

  // And what editing them does to the byte.
  lemma EditLayout(c: GripperCommand, on: bool)
    ensures c.Set(Activate, on).data[0] == if on then c.data[0] | 0x01 else c.data[0] & 0xFE
    ensures c.Set(GoTo, on).data[0] == if on then c.data[0] | 0x08 else c.data[0] & 0xF7
    ensures c.Set(AutoRelease, on).data[0] == if on then c.data[0] | 0x10 else c.data[0] & 0xEF
    ensures c.Set(AutoReleaseOpenDirection, on).data[0] == if on then c.data[0] | 0x20 else c.data[0] & 0xDF
  {
  }

  // And the fields of a status block: gACT, gGTO, gSTA, gOBJ in byte 0, then the
  // fault, gPR, gPO and gCU bytes.
  lemma StatusLayout(s: GripperStatus)
    ensures s.Activated() <==> s.data[0] & 0x01 != 0
    ensures s.GoToEnabled() <==> s.data[0] & 0x08 != 0
    ensures s.State() == Reset <==> s.data[0] & 0x30 == 0x00
    ensures s.State() == InProgress <==> s.data[0] & 0x30 == 0x10
    ensures s.State() == Reserved <==> s.data[0] & 0x30 == 0x20
    ensures s.State() == Complete <==> s.data[0] & 0x30 == 0x30
    ensures s.Detection() == Moving <==> s.data[0] & 0xC0 == 0x00
    ensures s.Detection() == DetectedWhileOpening <==> s.data[0] & 0xC0 == 0x40
    ensures s.Detection() == DetectedWhileClosing <==> s.data[0] & 0xC0 == 0x80
    ensures s.Detection() == AtRequestedPosition <==> s.data[0] & 0xC0 == 0xC0
    ensures s.FaultByte() == s.data[2] && s.PositionRequestEcho() == s.data[3]
    ensures s.Position() == s.data[4] && s.Current() == s.data[5]
  {
  }

  // What a bit edit does to every bit of the action byte.
  lemma SetTouchesOneBit(c: GripperCommand, bit: ActionRequestBit, on: bool, other: ActionRequestBit)
    ensures c.Set(bit, on).Get(other) == if other == bit then on else c.Get(other)
  {
    MasksDiffer(bit, other);
    ByteEdit(c.data[0], Mask(bit), Mask(other), on);
  }

  // The rest of the block is left alone, undocumented action bits included,
  // and the edit is the identity exactly when the bit already has the value.
  lemma SetKeepsTheRest(c: GripperCommand, bit: ActionRequestBit, on: bool)
    ensures c.Set(bit, on).data[1..] == c.data[1..]
    ensures UnsetBit(c.Set(bit, on).data[0], bit) == UnsetBit(c.data[0], bit)
    ensures c.Set(bit, on) == c <==> c.Get(bit) == on
  {
    MasksDiffer(bit, bit);
    ByteEdit(c.data[0], Mask(bit), Mask(bit), on);
    FirstByteEdit(c, c.Set(bit, on).data[0]);
  }

  lemma FirstByteEdit(c: GripperCommand, w: bv8)
    ensures GripperCommand(c.data[0 := w]).data[1..] == c.data[1..]
    ensures GripperCommand(c.data[0 := w]) == c <==> w == c.data[0]
  {
    if w == c.data[0] {
      assert c.data[0 := w] == c.data;
    }
  }

  lemma MasksDiffer(bit: ActionRequestBit, other: ActionRequestBit)
    ensures OneBit(Mask(bit)) && OneBit(Mask(other))
    ensures Mask(bit) == Mask(other) <==> bit == other
  {
  }

  predicate OneBit(m: bv8) {
    m == 1 || m == 8 || m == 16 || m == 32
  }

  lemma ByteEdit(v: bv8, m: bv8, o: bv8, on: bool)
    requires OneBit(m) && OneBit(o)
    ensures var w := if on then v | m else v & !m;
      && ((w & o != 0) == if o == m then on else v & o != 0)
      && w & !m == v & !m
      && (w == v <==> (v & m != 0) == on)
  {
  }

  // ----- The status block -----

  datatype ActivationState = Reset | InProgress | Reserved | Complete
  datatype ObjectDetection = Moving | DetectedWhileOpening | DetectedWhileClosing | AtRequestedPosition

  const ACTIVATION_STATUS_MASK: bv8 := 0x01
  const GO_TO_ECHO_MASK: bv8 := 0x08
  const ACTIVATION_STATE_MASK: bv8 := 0x30
  const OBJECT_DETECTION_MASK: bv8 := 0xC0
  const GRIPPER_FAULT_MASK: bv8 := 0x0F

  datatype GripperStatus = GripperStatus(data: Block) {
    predicate Activated() { data[0] & ACTIVATION_STATUS_MASK != 0 }
    predicate GoToEnabled() { data[0] & GO_TO_ECHO_MASK != 0 }

    function State(): ActivationState {
      var field := (data[0] & ACTIVATION_STATE_MASK) >> 4;
      if field == 0 then Reset else if field == 1 then InProgress else if field == 2 then Reserved else Complete
    }

    function Detection(): ObjectDetection {
      var field := (data[0] & OBJECT_DETECTION_MASK) >> 6;
      if field == 0 then Moving
      else if field == 1 then DetectedWhileOpening
      else if field == 2 then DetectedWhileClosing
      else AtRequestedPosition
    }

    function FaultByte(): bv8 { data[2] }
    function PositionRequestEcho(): bv8 { data[3] }
    function Position(): bv8 { data[4] }
    function Current(): bv8 { data[5] }
  }

  // ----- Fault severity -----

  datatype FaultSeverity = NoFault | Warning | Minor | Major

  function Severity(faultByte: bv8): FaultSeverity {
    var code := faultByte & GRIPPER_FAULT_MASK;
    if code == 0x0 then NoFault
    else if code == 0x4 || code == 0x5 || code == 0x7 then Warning
    else if code == 0x8 || code == 0x9 then Minor
    else Major
  }

  // The latched faults activate() does not refuse: the gripper's own minor faults
  // and warnings, and whatever the controller reports while the gripper has none.
  predicate Tolerated(faultByte: bv8) {
    var own, controllers := faultByte & 0x0F, faultByte & 0xF0;
    own in {0x4, 0x5, 0x7, 0x8, 0x9} || (own == 0 && controllers != 0)
  }

  lemma ToleratedFaults(faultByte: bv8)
    ensures faultByte != 0 && Severity(faultByte) != Major <==> Tolerated(faultByte)
  {
  }
}
