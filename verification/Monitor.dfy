// The process image at the grain of single field accesses: any number of
// threads, one mutex, and a condition variable that meets the platform
// contract (it unlocks and blocks in one step, and may wake for no reason).
module Monitor {
  import opened Blocks
  import opened ProcessImage

  datatype Call =
    | SetCommand(command: GripperCommand)
    | Publish(written: GripperCommand, read: GripperStatus, at: int)
    | Close
    | Snapshot
    | Sync(count: nat, deadline: int)

  // Where a thread stands in its call. From Writing to Unlocking it holds the
  // mutex; `done` counts the fields of the record already written or copied.
  datatype Pc =
    | Outside
    | Locking(call: Call)
    | Writing(call: Call, done: nat)
    | Guarding(call: Call)
    | Copying(call: Call, done: nat, copy: StampedExchange)
    | Unlocking(call: Call, copy: StampedExchange)
    | Blocked(call: Call)
    | Woken(call: Call)
    | Notifying

  // `returned` is every record this thread's reads have returned, in order.
  datatype Thread = Thread(pc: Pc, returned: seq<StampedExchange>)

  // `memory` is the shared fields as they stand; `agreed` and `records` are
  // what the finished critical sections amount to.
  datatype State = State(
    owner: int, // the thread holding the mutex, -1 when it is free
    memory: Image,
    now: int,
    threads: seq<Thread>,
    agreed: Image,
    records: seq<StampedExchange>)

  const RECORD_FIELDS := 4
  const BLANK := StampedExchange(0, 0, GripperCommand(ZERO_BLOCK), GripperStatus(ZERO_BLOCK))

  predicate Holds(pc: Pc) {
    pc.Writing? || pc.Guarding? || pc.Copying? || pc.Unlocking?
  }

  function WriteField(m: Image, call: Call, field: nat): Image {
    match call
    case SetCommand(c) => m.(command := c)
    case Close => m.(closed := true)
    case Publish(c, s, at) =>
      if field == 0 then m.(stamped := m.stamped.(exchangeCount := m.stamped.exchangeCount + 1))
      else if field == 1 then m.(stamped := m.stamped.(timestamp := at))
      else if field == 2 then m.(stamped := m.stamped.(command := c))
      else m.(stamped := m.stamped.(status := s))
    case _ => m
  }

  function CopyField(copy: StampedExchange, from: StampedExchange, field: nat): StampedExchange {
    if field == 0 then copy.(exchangeCount := from.exchangeCount)
    else if field == 1 then copy.(timestamp := from.timestamp)
    else if field == 2 then copy.(command := from.command)
    else copy.(status := from.status)
  }

  function Fields(call: Call): nat {
    if call.Publish? then RECORD_FIELDS else 1
  }

  // What a finished critical section does, as one step.
  function Effect(m: Image, call: Call): Image {
    match call
    case SetCommand(c) => m.Commanded(c)
    case Publish(c, s, at) => m.Published(c, s, at)
    case Close => m.Closed()
    case Snapshot => m
    case Sync(_, _) => m
  }

  predicate Reads(call: Call) { call.Snapshot? || call.Sync? }
  predicate Announces(call: Call) { call.Publish? || call.Close? }

  // The wait condition of sync().
  predicate Waits(m: Image, call: Call, now: int) {
    call.Sync? && m.stamped.exchangeCount <= call.count && !m.closed && now < call.deadline
  }

  datatype Move =
    | Enter(thread: nat, call: Call)
    | Proceed(thread: nat)
    | Wake(thread: nat) // the deadline, or no reason at all
    | Tick(elapsed: nat)

  function Goto(s: State, t: nat, pc: Pc): State
    requires t < |s.threads|
  {
    s.(threads := s.threads[t := s.threads[t].(pc := pc)])
  }

  function WokenUp(thread: Thread): Thread {
    if thread.pc.Blocked? then thread.(pc := Woken(thread.pc.call)) else thread
  }

  // Inside the mutex.
  function Section(call: Call): Pc {
    if call.Sync? then Guarding(call) else if call.Snapshot? then Copying(call, 0, BLANK) else Writing(call, 0)
  }

  function Finish(s: State, t: nat, call: Call, copy: StampedExchange): State
    requires t < |s.threads|
  {
    var agreed := Effect(s.agreed, call);
    var thread := s.threads[t];
    var thread' := Thread(if Announces(call) then Notifying else Outside,
        if Reads(call) then thread.returned + [copy] else thread.returned);
    s.(owner := -1, agreed := agreed, threads := s.threads[t := thread'],
       records := if call.Publish? then s.records + [agreed.stamped] else s.records)
  }

  function Advance(s: State, t: nat): State
    requires t < |s.threads|
  {
    match s.threads[t].pc
    case Outside => s
    case Locking(call) =>
      if s.owner == -1 then Goto(s.(owner := t), t, Section(call)) else s
    case Writing(call, done) =>
      var s' := s.(memory := WriteField(s.memory, call, done));
      Goto(s', t, if done + 1 < Fields(call) then Writing(call, done + 1) else Unlocking(call, BLANK))
    case Guarding(call) =>
      if Waits(s.memory, call, s.now) then Goto(s.(owner := -1), t, Blocked(call))
      else Goto(s, t, Copying(call, 0, BLANK))
    case Copying(call, done, copy) =>
      var copy' := CopyField(copy, s.memory.stamped, done);
      Goto(s, t, if done + 1 < RECORD_FIELDS then Copying(call, done + 1, copy') else Unlocking(call, copy'))
    case Unlocking(call, copy) => Finish(s, t, call, copy)
    case Blocked(_) => s
    case Woken(call) => if s.owner == -1 then Goto(s.(owner := t), t, Guarding(call)) else s
    case Notifying =>
      var woken := s.(threads := seq(|s.threads|, i requires 0 <= i < |s.threads| => WokenUp(s.threads[i])));
      Goto(woken, t, Outside)
  }

  // The move that ends a critical section.
  predicate Unlocks(s: State, move: Move) {
    move.Proceed? && move.thread < |s.threads| && s.threads[move.thread].pc.Unlocking?
  }

  function Step(s: State, move: Move): State {
    match move
    case Enter(t, call) =>
      if t < |s.threads| && s.threads[t].pc.Outside? then Goto(s, t, Locking(call)) else s
    case Proceed(t) => if t < |s.threads| then Advance(s, t) else s
    case Wake(t) =>
      if t < |s.threads| && s.threads[t].pc.Blocked? then Goto(s, t, Woken(s.threads[t].pc.call)) else s
    case Tick(elapsed) => s.(now := s.now + elapsed)
  }

  function Run(s: State, moves: seq<Move>): State {
    if moves == [] then s else Step(Run(s, moves[..|moves| - 1]), moves[|moves| - 1])
  }

  ghost predicate Initial(s: State) {
    && s.owner == -1 && s.memory == s.agreed && s.agreed.stamped.exchangeCount == 0
    && s.records == [s.agreed.stamped]
    && forall i :: 0 <= i < |s.threads| ==> s.threads[i] == Thread(Outside, [])
  }

  // ----- The invariant -----

  // One thread at most is inside, and it is the owner.
  ghost predicate Exclusive(s: State) {
    && -1 <= s.owner < |s.threads|
    && (s.owner >= 0 ==> Holds(s.threads[s.owner].pc))
    && forall i :: 0 <= i < |s.threads| && Holds(s.threads[i].pc) ==> s.owner == i
  }

  function Written(m: Image, call: Call, done: nat): Image
  {
    if done == 0 then m else WriteField(Written(m, call, done - 1), call, done - 1)
  }

  // The shared fields as the owner's program counter says they must be.
  function Expected(agreed: Image, pc: Pc): Image {
    match pc
    case Writing(call, done) => Written(agreed, call, done)
    case Unlocking(call, _) => Effect(agreed, call)
    case _ => agreed
  }

  function Copied(copy: StampedExchange, from: StampedExchange, done: nat): StampedExchange {
    if done == 0 then copy else CopyField(Copied(copy, from, done - 1), from, done - 1)
  }

  ghost predicate PcFits(s: State, pc: Pc) {
    match pc
    case Writing(call, done) => !Reads(call) && done < Fields(call)
    case Guarding(call) => call.Sync?
    case Copying(call, done, copy) =>
      Reads(call) && done < RECORD_FIELDS && Granted(s, call) && Copied(copy, s.agreed.stamped, done) == copy
    case Unlocking(call, copy) => Reads(call) ==> copy == s.agreed.stamped && Granted(s, call)
    case Blocked(call) => call.Sync?
    case Woken(call) => call.Sync?
    case _ => true
  }

  // A read may return: a sync() only with its count reached, its image closed
  // or its deadline passed.
  predicate Granted(s: State, call: Call) {
    call.Sync? ==> s.agreed.stamped.exchangeCount > call.count || s.agreed.closed || s.now >= call.deadline
  }

  ghost predicate Coherent(s: State)
    requires Exclusive(s)
  {
    && s.memory == (if s.owner == -1 then s.agreed else Expected(s.agreed, s.threads[s.owner].pc))
    && forall i :: 0 <= i < |s.threads| ==> PcFits(s, s.threads[i].pc)
  }

  ghost predicate Recorded(s: State) {
    && |s.records| == s.agreed.stamped.exchangeCount + 1
    && s.records[|s.records| - 1] == s.agreed.stamped
    && forall k :: 0 <= k < |s.records| ==> s.records[k].exchangeCount == k
  }

  ghost predicate Whole(s: State, returned: seq<StampedExchange>) {
    && (forall j :: 0 <= j < |returned| ==>
          returned[j].exchangeCount < |s.records| && returned[j] == s.records[returned[j].exchangeCount])
    && (forall i, j :: 0 <= i < j < |returned| ==> returned[i].exchangeCount <= returned[j].exchangeCount)
  }

  ghost predicate ReadsWhole(s: State) {
    forall i :: 0 <= i < |s.threads| ==> Whole(s, s.threads[i].returned)
  }

  ghost predicate Announcing(s: State) {
    exists j :: 0 <= j < |s.threads| && s.threads[j].pc.Notifying?
  }

  predicate Due(s: State, pc: Pc) {
    pc.Blocked? && pc.call.Sync? && (s.agreed.stamped.exchangeCount > pc.call.count || s.agreed.closed)
  }

  // A thread blocked in sync() although its count is reached or the image is
  // closed has a notifyAll coming.
  ghost predicate NoLostWakeup(s: State) {
    forall i :: 0 <= i < |s.threads| && Due(s, s.threads[i].pc) ==> Announcing(s)
  }

  ghost predicate Inv(s: State) {
    Exclusive(s) && Coherent(s) && Recorded(s) && ReadsWhole(s) && NoLostWakeup(s)
  }

  lemma InitialInv(s: State)
    requires Initial(s)
    ensures Inv(s)
  {
  }

  // Four field writes make a publish; one makes the other two.
  lemma AllWritten(m: Image, call: Call)
    requires !Reads(call)
    ensures Written(m, call, Fields(call)) == Effect(m, call)
  {
    if call.Publish? {
      assert Written(m, call, 1) == WriteField(m, call, 0);
      assert Written(m, call, 2) == WriteField(Written(m, call, 1), call, 1);
      assert Written(m, call, 3) == WriteField(Written(m, call, 2), call, 2);
      assert Written(m, call, 4) == WriteField(Written(m, call, 3), call, 3);
    } else {
      assert Written(m, call, 1) == WriteField(m, call, 0);
    }
  }

  // Four field copies make a whole record.
  lemma NextCopied(copy: StampedExchange, from: StampedExchange, done: nat)
    requires done < RECORD_FIELDS && Copied(copy, from, done) == copy
    ensures Copied(CopyField(copy, from, done), from, done + 1) == CopyField(copy, from, done)
    ensures done + 1 == RECORD_FIELDS ==> CopyField(copy, from, done) == from
  {
    var next := CopyField(copy, from, done);
    assert Copied(copy, from, 1) == CopyField(copy, from, 0);
    assert Copied(copy, from, 2) == CopyField(Copied(copy, from, 1), from, 1);
    assert Copied(copy, from, 3) == CopyField(Copied(copy, from, 2), from, 2);
    assert Copied(next, from, 1) == CopyField(next, from, 0);
    assert Copied(next, from, 2) == CopyField(Copied(next, from, 1), from, 1);
    assert Copied(next, from, 3) == CopyField(Copied(next, from, 2), from, 2);
    assert Copied(next, from, 4) == CopyField(Copied(next, from, 3), from, 3);
  }

  lemma StepKeepsExclusive(s: State, move: Move)
    requires Exclusive(s)
    ensures Exclusive(Step(s, move))
  {
  }

  lemma StepKeepsCoherent(s: State, move: Move)
    requires Exclusive(s) && Coherent(s)
    ensures Exclusive(Step(s, move)) && Coherent(Step(s, move))
  {
    StepKeepsExclusive(s, move);
    if move.Proceed? && move.thread < |s.threads| {
      match s.threads[move.thread].pc {
        case Writing(call, done) =>
          AllWritten(s.agreed, call);
        case Copying(call, done, copy) =>
          NextCopied(copy, s.agreed.stamped, done);
        case _ =>
      }
    }
  }

  lemma StepKeepsRecorded(s: State, move: Move)
    requires Recorded(s)
    ensures Recorded(Step(s, move))
    ensures s.records <= Step(s, move).records
  {
  }

  lemma WholeStays(s: State, s': State, returned: seq<StampedExchange>)
    requires Whole(s, returned) && s.records <= s'.records
    ensures Whole(s', returned)
  {
  }

  lemma OneMoreRead(s: State, returned: seq<StampedExchange>)
    requires Recorded(s) && Whole(s, returned)
    ensures Whole(s, returned + [s.agreed.stamped])
  {
  }

  // A step appends to one thread's reads at most, and then the newest record.
  lemma ReadsOf(s: State, move: Move, i: nat)
    requires Exclusive(s) && Coherent(s) && i < |s.threads|
    ensures |Step(s, move).threads| == |s.threads|
    ensures var before, after := s.threads[i].returned, Step(s, move).threads[i].returned;
      after == before || (after == before + [s.agreed.stamped] && Step(s, move).agreed == s.agreed)
  {
  }

  lemma StepKeepsReads(s: State, move: Move)
    requires Exclusive(s) && Coherent(s) && Recorded(s) && ReadsWhole(s)
    ensures ReadsWhole(Step(s, move))
  {
    hide Coherent, Whole, Step;
    StepKeepsRecorded(s, move);
    var s' := Step(s, move);
    forall i | 0 <= i < |s'.threads| ensures Whole(s', s'.threads[i].returned) {
      StepKeepsThreads(s, move);
      ReadsOf(s, move, i);
      OneMoreRead(s, s.threads[i].returned);
      WholeStays(s, s', s.threads[i].returned);
      WholeStays(s, s', s.threads[i].returned + [s.agreed.stamped]);
    }
  }

  lemma StepKeepsThreads(s: State, move: Move)
    ensures |Step(s, move).threads| == |s.threads|
  {
  }

  lemma StepKeepsWakeups(s: State, move: Move)
    requires Exclusive(s) && Coherent(s) && NoLostWakeup(s)
    ensures NoLostWakeup(Step(s, move))
  {
    var s' := Step(s, move);
    if Unlocks(s, move) && Announces(s.threads[move.thread].pc.call) {
      assert s'.threads[move.thread].pc.Notifying?;
    } else if Announcing(s) {
      var j :| 0 <= j < |s.threads| && s.threads[j].pc.Notifying?;
      assert s'.threads[j].pc.Notifying? || move == Proceed(j);
    }
  }

  lemma StepKeepsInv(s: State, move: Move)
    requires Inv(s)
    ensures Inv(Step(s, move))
  {
    StepKeepsCoherent(s, move);
    StepKeepsRecorded(s, move);
    StepKeepsReads(s, move);
    StepKeepsWakeups(s, move);
  }

  lemma {:induction false} RunKeepsInv(s: State, moves: seq<Move>)
    requires Inv(s)
    ensures Inv(Run(s, moves))
  {
    if moves != [] {
      RunKeepsInv(s, moves[..|moves| - 1]);
      StepKeepsInv(Run(s, moves[..|moves| - 1]), moves[|moves| - 1]);
    }
  }

  // ----- What every run has -----

  // No lost wakeup: in every reachable state, a thread blocked in sync() whose
  // count is reached or whose image is closed has some thread standing between
  // its unlock and its notifyAll.
  lemma NoWakeupIsLost(s0: State, moves: seq<Move>, i: nat)
    requires Initial(s0) && i < |Run(s0, moves).threads|
    ensures
      var s := Run(s0, moves);
      Due(s, s.threads[i].pc) ==> exists j :: 0 <= j < |s.threads| && s.threads[j].pc.Notifying?
  {
    InitialInv(s0);
    RunKeepsInv(s0, moves);
  }

  // Whole records, monotone readers: whatever the interleaving of field writes
  // and field copies, every record a read returned is exactly the one published
  // under its count, and no thread ever reads a smaller count after a larger.
  lemma ReadsAreWhole(s0: State, moves: seq<Move>, i: nat, j: nat, k: nat)
    requires Initial(s0) && i < |Run(s0, moves).threads|
    requires j <= k < |Run(s0, moves).threads[i].returned|
    ensures
      var s := Run(s0, moves);
      var earlier, later := s.threads[i].returned[j], s.threads[i].returned[k];
      && later.exchangeCount < |s.records| && later == s.records[later.exchangeCount]
      && earlier.exchangeCount <= later.exchangeCount <= s.agreed.stamped.exchangeCount
  {
    InitialInv(s0);
    RunKeepsInv(s0, moves);
    hide Run;
    assert Whole(Run(s0, moves), Run(s0, moves).threads[i].returned);
  }

  // The fine grain refines one atomic operation for each call: a step either
  // leaves the agreed image alone or finishes one call's whole effect on it; a
  // finished read returned the agreed record; and between critical sections the
  // fields are the agreed image.
  lemma CallsAreAtomic(s: State, move: Move)
    requires Inv(s)
    ensures
      var s' := Step(s, move);
      && (s'.agreed != s.agreed ==>
            && Unlocks(s, move)
            && s'.agreed == Effect(s.agreed, s.threads[move.thread].pc.call))
      && (s'.owner == -1 ==> s'.memory == s'.agreed)
    ensures
      Unlocks(s, move) && Reads(s.threads[move.thread].pc.call) ==>
        s.threads[move.thread].pc.copy == s.agreed.stamped && Granted(s, s.threads[move.thread].pc.call)
  {
    StepKeepsInv(s, move);
    if move.Proceed? && move.thread < |s.threads| {
      assert PcFits(s, s.threads[move.thread].pc);
    }
  }

  // Closing is final: the image stays closed, and no later sync() blocks.
  lemma {:induction false} ClosingIsFinal(s: State, moves: seq<Move>, t: nat)
    requires Inv(s) && s.agreed.closed
    ensures Inv(Run(s, moves)) && Run(s, moves).agreed.closed
    ensures t < |Run(s, moves).threads| && !Run(s, moves).threads[t].pc.Blocked? ==>
      t < |Step(Run(s, moves), Proceed(t)).threads| && !Step(Run(s, moves), Proceed(t)).threads[t].pc.Blocked?
  {
    hide Inv, Step;
    if moves != [] {
      var before, last := Run(s, moves[..|moves| - 1]), moves[|moves| - 1];
      ClosingIsFinal(s, moves[..|moves| - 1], t);
      StepKeepsInv(before, last);
      ClosedStays(before, last);
    }
    if t < |Run(s, moves).threads| && !Run(s, moves).threads[t].pc.Blocked? {
      ClosedNeverBlocks(Run(s, moves), t);
    }
  }

  lemma ClosedStays(s: State, move: Move)
    requires s.agreed.closed
    ensures Step(s, move).agreed.closed
  {
  }

  lemma ClosedNeverBlocks(s: State, t: nat)
    requires Inv(s) && s.agreed.closed && t < |s.threads| && !s.threads[t].pc.Blocked?
    ensures t < |Step(s, Proceed(t)).threads| && !Step(s, Proceed(t)).threads[t].pc.Blocked?
  {
    hide Recorded, ReadsWhole, NoLostWakeup;
  }

  // What each finished call leaves agreed, field by field.
  lemma WhatCallsDo(s: State, move: Move)
    requires Unlocks(s, move)
    ensures var agreed, next := s.agreed, Step(s, move).agreed;
      match s.threads[move.thread].pc.call
      case SetCommand(c) => next.command == c && next.stamped == agreed.stamped && next.closed == agreed.closed
      case Publish(c, status, at) =>
        && next.stamped == StampedExchange(agreed.stamped.exchangeCount + 1, at, c, status)
        && next.command == agreed.command && next.closed == agreed.closed
      case Close => next.closed && next.command == agreed.command && next.stamped == agreed.stamped
      case _ => next == agreed
  {
  }

  // A sync() inside the mutex blocks, and gives the mutex up in doing so, exactly
  // while its count is not reached, the image is open and its deadline ahead.
  lemma BlocksExactly(s: State, t: nat)
    requires Inv(s) && t < |s.threads| && s.threads[t].pc.Guarding?
    ensures var call, s' := s.threads[t].pc.call, Step(s, Proceed(t));
      && call.Sync? && |s'.threads| == |s.threads|
      && (s'.threads[t].pc.Blocked? <==>
            s.agreed.stamped.exchangeCount <= call.count && !s.agreed.closed && s.now < call.deadline)
      && (s'.threads[t].pc.Blocked? <==> s'.owner == -1)
  {
    hide Recorded, ReadsWhole, NoLostWakeup;
    assert PcFits(s, s.threads[t].pc);
  }

  // A notifyAll leaves nobody blocked.
  lemma NotifyWakesAll(s: State, t: nat, i: nat)
    requires t < |s.threads| && s.threads[t].pc.Notifying? && i < |s.threads|
    ensures |Step(s, Proceed(t)).threads| == |s.threads| && !Step(s, Proceed(t)).threads[i].pc.Blocked?
  {
  }

  lemma {:induction false} RunConcat(s: State, a: seq<Move>, b: seq<Move>)
    ensures Run(s, a + b) == Run(Run(s, a), b)
  {
    if b == [] {
      assert a + b == a;
    } else {
      hide Step;
      RunConcat(s, a, b[..|b| - 1]);
      assert (a + b)[..|a + b| - 1] == a + b[..|b| - 1];
    }
  }

  // A close takes: after any run in which a close() has left the mutex the image
  // is closed, and no sync() blocks any more.
  lemma CloseTakes(s: State, moves: seq<Move>, i: nat, t: nat)
    requires Inv(s) && i < |moves| && Unlocks(Run(s, moves[..i]), moves[i])
    requires Run(s, moves[..i]).threads[moves[i].thread].pc.call.Close?
    ensures Run(s, moves).agreed.closed
    ensures t < |Run(s, moves).threads| && !Run(s, moves).threads[t].pc.Blocked? ==>
      t < |Step(Run(s, moves), Proceed(t)).threads| && !Step(Run(s, moves), Proceed(t)).threads[t].pc.Blocked?
  {
    hide Inv, Step;
    var before, upTo, after := moves[..i], moves[..i + 1], moves[i + 1..];
    assert upTo[..i] == before && upTo + after == moves && upTo[|upTo| - 1] == moves[i];
    RunKeepsInv(s, before);
    StepKeepsInv(Run(s, before), moves[i]);
    WhatCallsDo(Run(s, before), moves[i]);
    assert Run(s, upTo) == Step(Run(s, before), moves[i]);
    RunConcat(s, upTo, after);
    ClosingIsFinal(Run(s, upTo), after, t);
  }

  // ----- Calls get done -----

  // How many steps of its own a call is from its end.
  function Left(pc: Pc): nat {
    match pc
    case Outside => 0
    case Notifying => 1
    case Unlocking(_, _) => 2
    case Copying(_, done, _) => if done < RECORD_FIELDS then 2 + RECORD_FIELDS - done else 2
    case Writing(call, done) => if done < Fields(call) then 2 + Fields(call) - done else 2
    case Guarding(_) => 7
    case Locking(_) => 8
    case Woken(_) => 8
    case Blocked(_) => 9
  }

  // The call in hand, when its effect is still to come.
  predicate Ahead(pc: Pc) { !pc.Outside? && !pc.Notifying? }

  // Nothing but itself to wait for: the mutex is free or its own, and a sync() has
  // what it waits for.
  predicate Unhindered(s: State, t: nat)
    requires t < |s.threads|
  {
    var pc := s.threads[t].pc;
    && !pc.Blocked? && (s.owner == -1 || s.owner == t)
    && (Ahead(pc) && pc.call.Sync? ==>
          s.agreed.stamped.exchangeCount > pc.call.count || s.agreed.closed || s.now >= pc.call.deadline)
  }

  lemma OneStepNearer(s: State, t: nat)
    requires Inv(s) && t < |s.threads| && Unhindered(s, t) && !s.threads[t].pc.Outside?
    ensures var pc, s' := s.threads[t].pc, Step(s, Proceed(t));
      && |s'.threads| == |s.threads| && Unhindered(s', t) && Left(s'.threads[t].pc) < Left(pc)
      && (if Ahead(pc) && !Ahead(s'.threads[t].pc) then s'.agreed == Effect(s.agreed, pc.call)
          else s'.agreed == s.agreed)
      && (Ahead(s'.threads[t].pc) ==> Ahead(pc) && s'.threads[t].pc.call == pc.call)
  {
    hide Recorded, ReadsWhole, NoLostWakeup, Written, Copied;
    assert PcFits(s, s.threads[t].pc);
  }

  // Left to itself an unhindered thread finishes its call, with the call's whole
  // effect and no other.
  lemma {:induction false} CallFinishes(s: State, t: nat) returns (moves: seq<Move>)
    requires Inv(s) && t < |s.threads| && Unhindered(s, t)
    ensures forall i :: 0 <= i < |moves| ==> moves[i] == Proceed(t)
    ensures |Run(s, moves).threads| == |s.threads| && Run(s, moves).threads[t].pc.Outside?
    ensures Run(s, moves).agreed ==
      if Ahead(s.threads[t].pc) then Effect(s.agreed, s.threads[t].pc.call) else s.agreed
    decreases Left(s.threads[t].pc)
  {
    if s.threads[t].pc.Outside? {
      moves := [];
    } else {
      OneStepNearer(s, t);
      StepKeepsInv(s, Proceed(t));
      hide Inv, Unhindered, Step, Effect;
      var rest := CallFinishes(Step(s, Proceed(t)), t);
      moves := [Proceed(t)] + rest;
      assert [Proceed(t)][..0] == [] && Run(s, [Proceed(t)]) == Step(s, Proceed(t));
      RunConcat(s, [Proceed(t)], rest);
    }
  }
}
