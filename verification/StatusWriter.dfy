// How the device sets one field of its status block, in place.
module StatusWriter {
  import opened Blocks

  // The masked bits come from `value`, which is in position already.
  function WithField(bits: bv8, mask: bv8, value: bv8): bv8 {
    (bits & !mask) | (value & mask)
  }

  function WithFlag(bits: bv8, mask: bv8, on: bool): bv8 {
    if on then bits | mask else bits & !mask
  }

  function StateCode(state: ActivationState): bv8 {
    match state
    case Reset => 0
    case InProgress => 1
    case Reserved => 2
    case Complete => 3
  }

  function DetectionCode(detection: ObjectDetection): bv8 {
    match detection
    case Moving => 0
    case DetectedWhileOpening => 1
    case DetectedWhileClosing => 2
    case AtRequestedPosition => 3
  }

  // What the readers of a status block see in its flags byte, and the bits none
  // of them reads.
  datatype Flags = Flags(activated: bool, goTo: bool, state: ActivationState, detection: ObjectDetection, reserved: bv8)

  const RESERVED_FLAGS_MASK: bv8 := 0x06

  function FlagsOf(data: Block): Flags {
    var status := GripperStatus(data);
    Flags(status.Activated(), status.GoToEnabled(), status.State(), status.Detection(), data[0] & RESERVED_FLAGS_MASK)
  }

  // The flags byte holds nothing else.
  lemma FlagsDetermineByte(a: Block, b: Block)
    ensures FlagsOf(a) == FlagsOf(b) <==> a[0] == b[0]
  {
  }

  lemma StateWritten(before: Block, after: Block, state: ActivationState)
    requires after[0] == WithField(before[0], ACTIVATION_STATE_MASK, StateCode(state) << 4)
    ensures FlagsOf(after) == FlagsOf(before).(state := state)
  {
  }

  lemma DetectionWritten(before: Block, after: Block, detection: ObjectDetection)
    requires after[0] == WithField(before[0], OBJECT_DETECTION_MASK, DetectionCode(detection) << 6)
    ensures FlagsOf(after) == FlagsOf(before).(detection := detection)
  {
  }

  method SetActivated(status: array<bv8>, on: bool)
    requires status.Length == BLOCK_BYTES
    modifies status
    ensures FlagsOf(status[..]) == FlagsOf(old(status[..])).(activated := on)
    ensures status[1..] == old(status[1..])
  {
    status[0] := WithFlag(status[0], ACTIVATION_STATUS_MASK, on);
  }

  method SetGoToEnabled(status: array<bv8>, on: bool)
    requires status.Length == BLOCK_BYTES
    modifies status
    ensures FlagsOf(status[..]) == FlagsOf(old(status[..])).(goTo := on)
    ensures status[1..] == old(status[1..])
  {
    status[0] := WithFlag(status[0], GO_TO_ECHO_MASK, on);
  }

  method SetActivationState(status: array<bv8>, state: ActivationState)
    requires status.Length == BLOCK_BYTES
    modifies status
    ensures FlagsOf(status[..]) == FlagsOf(old(status[..])).(state := state)
    ensures status[1..] == old(status[1..])
  {
    status[0] := WithField(status[0], ACTIVATION_STATE_MASK, StateCode(state) << 4);
    StateWritten(old(status[..]), status[..], state);
  }

  method SetObjectDetection(status: array<bv8>, detection: ObjectDetection)
    requires status.Length == BLOCK_BYTES
    modifies status
    ensures FlagsOf(status[..]) == FlagsOf(old(status[..])).(detection := detection)
    ensures status[1..] == old(status[1..])
  {
    status[0] := WithField(status[0], OBJECT_DETECTION_MASK, DetectionCode(detection) << 6);
    DetectionWritten(old(status[..]), status[..], detection);
  }

  method SetFaultStatusByte(status: array<bv8>, fault: bv8)
    requires status.Length == BLOCK_BYTES
    modifies status
    ensures status[..] == old(status[..])[2 := fault]
  {
    status[2] := fault;
  }
}
