// What the threads share: a command to send and the newest record.
// Each function is what one critical section does to the image.
module ProcessImage {
  import opened Blocks

  // Record number `exchangeCount`; number 0 is the seed, no exchange at all.
  datatype StampedExchange = StampedExchange(exchangeCount: nat, timestamp: int, command: GripperCommand,
      status: GripperStatus)

  datatype Image = Image(command: GripperCommand, stamped: StampedExchange, closed: bool) {
    function Seeded(newStatus: GripperStatus, at: int, newCommand: GripperCommand): Image {
      Image(newCommand, StampedExchange(0, at, newCommand, newStatus), closed)
    }

    function Commanded(newCommand: GripperCommand): Image {
      this.(command := newCommand)
    }

    function Published(written: GripperCommand, read: GripperStatus, completedAt: int): Image {
      this.(stamped := StampedExchange(stamped.exchangeCount + 1, completedAt, written, read))
    }

    function Closed(): Image {
      this.(closed := true)
    }
  }

  class ProcessImage {
    var command: GripperCommand
    var exchangeCount: nat
    var timestamp: int
    var exchangedCommand: GripperCommand
    var exchangedStatus: GripperStatus
    var closed: bool

    ghost function Value(): Image
      reads this
    {
      Image(command, StampedExchange(exchangeCount, timestamp, exchangedCommand, exchangedStatus), closed)
    }

    constructor ()
      ensures Value() == Image(GripperCommand(ZERO_BLOCK),
          StampedExchange(0, 0, GripperCommand(ZERO_BLOCK), GripperStatus(ZERO_BLOCK)), false)
    {
      command, exchangedCommand := GripperCommand(ZERO_BLOCK), GripperCommand(ZERO_BLOCK);
      exchangedStatus := GripperStatus(ZERO_BLOCK);
      exchangeCount, timestamp, closed := 0, 0, false;
    }

    method Seed(status: GripperStatus, at: int, seeded: GripperCommand)
      modifies this
      ensures Value() == old(Value()).Seeded(status, at, seeded)
    {
      exchangeCount := 0;
      timestamp := at;
      exchangedCommand := seeded;
      exchangedStatus := status;
      command := seeded;
    }

    method SetCommand(newCommand: GripperCommand)
      modifies this
      ensures Value() == old(Value()).Commanded(newCommand)
    {
      command := newCommand;
    }

    method Publish(written: GripperCommand, read: GripperStatus, completedAt: int)
      modifies this
      ensures Value() == old(Value()).Published(written, read, completedAt)
    {
      exchangeCount := exchangeCount + 1;
      timestamp := completedAt;
      exchangedCommand := written;
      exchangedStatus := read;
    }

    method Close()
      modifies this
      ensures Value() == old(Value()).Closed()
    {
      closed := true;
    }
  }
}
