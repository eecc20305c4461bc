// A client's calls: each reads or writes the shared image while every other
// thread runs.
module Waits {
  import opened Wrappers
  import opened Blocks
  import opened ProcessImage
  import opened ExchangeCycle
  import opened Carriage

  const NS_PER_MS := 1_000_000
  // Half of the longest steady-clock duration, in milliseconds.
  const LONGEST_MS := 9_223_372_036_854 / 2

  function Min(a: int, b: int): int { if a < b then a else b }

  // A timeout in milliseconds, capped at some 146 years and turned into clock units.
  function Capped(timeout: int): (ns: int)
    ensures timeout <= 4_611_686_018_427 ==> ns == timeout * 1_000_000
    ensures timeout > 4_611_686_018_427 ==> ns == 4_611_686_018_427_000_000
  {
    Min(timeout, LONGEST_MS) * NS_PER_MS
  }

  // What is left until `deadline`, rounded up to whole milliseconds.
  function Remaining(deadline: int, now: int): (ms: nat)
    ensures deadline <= now ==> ms == 0
    ensures deadline > now ==> now + (ms - 1) * 1_000_000 < deadline <= now + ms * 1_000_000
  {
    if deadline > now then (deadline - now + NS_PER_MS - 1) / NS_PER_MS else 0
  }

  // The wait gave up for one of the two reasons it may.
  predicate GaveUp(w: World, deadline: int) {
    w.image.closed || w.now >= deadline
  }

  // The exchanges a wait looked at: all completed after `afterCount`, each
  // newer than the one before.
  ghost predicate Judged(w: World, afterCount: nat, judged: seq<StampedExchange>) {
    && |w.history| == w.Count() + 1
    && (forall i :: 0 <= i < |judged| ==> afterCount < judged[i].exchangeCount <= w.Count())
    && (forall i :: 0 <= i < |judged| ==> judged[i] == w.history[judged[i].exchangeCount])
    && (forall i, j :: 0 <= i < j < |judged| ==> judged[i].exchangeCount < judged[j].exchangeCount)
  }

  // The outcome of a wait: the last exchange looked at is the only one that can
  // have met the predicate, and it is what the wait returns.
  ghost predicate Answer(judged: seq<StampedExchange>, met: StampedExchange -> bool, r: Option<StampedExchange>) {
    && (forall i :: 0 <= i < |judged| - 1 ==> !met(judged[i]))
    && (match r
        case None => judged != [] ==> !met(judged[|judged| - 1])
        case Some(e) => judged != [] && e == judged[|judged| - 1] && met(e))
  }

  function Carrying(command: GripperCommand): StampedExchange -> bool {
    (e: StampedExchange) => e.command == command
  }

  // Nothing completed since the last exchange the wait looked at.
  ghost predicate Exhausted(w: World, afterCount: nat, judged: seq<StampedExchange>) {
    w.Count() <= if judged == [] then afterCount else judged[|judged| - 1].exchangeCount
  }

  // The newest count the wait had turned down when it last slept, or the count it
  // started from.
  function TurnedDown(afterCount: nat, judged: seq<StampedExchange>, r: Option<StampedExchange>): nat {
    var turned := if r.Some? then |judged| - 1 else |judged|;
    if 0 < turned <= |judged| then judged[turned - 1].exchangeCount else afterCount
  }

  // Never more exchanges looked at than completed since the start.
  lemma {:induction false} JudgedBound(w: World, afterCount: nat, judged: seq<StampedExchange>)
    requires Judged(w, afterCount, judged)
    ensures judged != [] ==> |judged| <= judged[|judged| - 1].exchangeCount - afterCount
    ensures |judged| <= if w.Count() > afterCount then w.Count() - afterCount else 0
  {
    if |judged| > 1 {
      JudgedBound(w, afterCount, judged[..|judged| - 1]);
    }
  }

  // When the wait skipped no count, what it returns is the first exchange after
  // the start that meets the predicate.
  lemma {:induction false} FirstMatch(w: World, afterCount: nat, judged: seq<StampedExchange>,
      met: StampedExchange -> bool, r: Option<StampedExchange>)
    requires Judged(w, afterCount, judged) && Answer(judged, met, r) && r.Some?
    requires r.value.exchangeCount == afterCount + |judged|
    ensures met(w.history[r.value.exchangeCount])
    ensures forall k :: afterCount < k < r.value.exchangeCount ==> !met(w.history[k])
  {
    forall k | afterCount < k < r.value.exchangeCount ensures !met(w.history[k]) {
      Consecutive(w, afterCount, judged, k - afterCount - 1);
    }
  }

  lemma {:induction false} Consecutive(w: World, afterCount: nat, judged: seq<StampedExchange>, i: nat)
    requires Judged(w, afterCount, judged) && i < |judged|
    requires judged[|judged| - 1].exchangeCount == afterCount + |judged|
    ensures judged[i].exchangeCount == afterCount + i + 1
  {
    JudgedBound(w, afterCount, judged[..i + 1]);
    Above(judged, w, afterCount, i, |judged| - 1);
  }

  lemma {:induction false} Above(judged: seq<StampedExchange>, w: World, afterCount: nat, i: nat, j: nat)
    requires Judged(w, afterCount, judged) && i <= j < |judged|
    ensures judged[j].exchangeCount >= judged[i].exchangeCount + (j - i)
    decreases j - i
  {
    if i < j {
      Above(judged, w, afterCount, i, j - 1);
    }
  }

  lemma {:induction false} RunCounts(w: World, events: seq<Event>)
    requires w.pace.deadlines != []
    ensures w.Count() <= Run(w, events).Count() <= w.Count() + |events|
  {
    if events != [] {
      RunCounts(w, events[..|events| - 1]);
    }
  }

  function TotalEvents(script: seq<seq<Event>>): nat {
    if script == [] then 0 else |script[0]| + TotalEvents(script[1..])
  }

  // The others' next stretch of the script, and what is left of it afterwards.
  function Gap(w: World, script: seq<seq<Event>>): (w': World)
    requires w.pace.deadlines != []
    ensures w'.pace.deadlines != []
  {
    if script == [] then w else Run(w, script[0])
  }

  function Rest(script: seq<seq<Event>>): seq<seq<Event>> {
    if script == [] then [] else script[1..]
  }

  function TwoGaps(w: World, script: seq<seq<Event>>): (w': World)
    requires w.pace.deadlines != []
    ensures w'.pace.deadlines != []
  {
    Gap(Gap(w, script), Rest(script))
  }

  lemma GapOnward(commander: bool, w: World, script: seq<seq<Event>>)
    requires Inv(w) && (commander ==> forall i :: 0 <= i < |script| ==> Uncommanded(script[i]))
    ensures Inv(Gap(w, script)) && Onward(commander, w, Gap(w, script)) && w.Count() <= Gap(w, script).Count()
    ensures commander ==> forall i :: 0 <= i < |Rest(script)| ==> Uncommanded(Rest(script)[i])
  {
    hide Onward, Recorded, Pending, Stamps, LinkInPhase, PacedInPhase;
    OnwardSelf(commander, w);
    if script != [] {
      OnwardRun(commander, w, script[0]);
      RunCounts(w, script[0]);
    }
  }

  // A wait cannot count its looks from the command: between the two, any number
  // of exchanges may complete unseen.
  lemma LookMayComeLate(w: World, n: nat) returns (script: seq<seq<Event>>)
    requires Inv(w) && w.running && !w.phase.Exited?
    ensures forall i :: 0 <= i < |script| ==> Uncommanded(script[i])
    ensures TwoGaps(w, script).Count() == w.Count() + n
  {
    var events := AnyNumberMore(w, n);
    script := [events];
  }

  // Whether the client goes to sleep on the image; and how much time the others
  // have taken, by then, while it was awake.
  datatype Sleep = Awake | Asleep(spent: int)

  // Where a client takes an action of its own: what it starts from, what the
  // others have left to do.
  datatype Moment = Moment(world: World, script: seq<seq<Event>>, sleep: Sleep)

  // From `from` on the client went to sleep only while the count was below `bound`
  // and the image open.
  ghost predicate SleptBelow(trail: seq<Moment>, from: nat, bound: int) {
    forall i :: from <= i < |trail| && trail[i].sleep.Asleep? ==>
      trail[i].world.Count() < bound && !trail[i].world.image.closed
  }

  // And only while its own clock, which stands still as long as it is awake, was
  // from `low` on and before `until`.
  ghost predicate SleptWithin(trail: seq<Moment>, from: nat, low: int, until: int) {
    forall i :: from <= i < |trail| && trail[i].sleep.Asleep? ==>
      low <= trail[i].world.now - trail[i].sleep.spent < until
  }

  // A client's handle on a connected gripper. `script` is what every other
  // thread does between the client's own actions, one entry for each gap; all
  // theorems are for every script. When it runs out, the others have stopped and
  // a wait lasts until its deadline. The one commander knows that nobody else
  // sets a command; an observer does not.
  class Gripper {
    ghost const origin: World
    ghost const commander: bool
    ghost var past: seq<Event>
    ghost var trail: seq<Moment>
    ghost var spent: int // by the others, while this client was awake
    var world: World
    var script: seq<seq<Event>>

    ghost predicate Valid()
      reads this
    {
      && origin.pace.deadlines != []
      && world == Run(origin, past)
      && Inv(world) && world.pace.deadlines != []
      && (commander ==> forall i :: 0 <= i < |script| ==> Uncommanded(script[i]))
    }

    lemma Holds()
      requires Valid()
      ensures Inv(world) && world.pace.deadlines != []
    {
    }

    // The client's own clock.
    ghost function Net(): int
      reads this
    {
      world.now - spent
    }

    // No count beyond this can be reached before the script runs out.
    ghost function Reach(): int
      reads this
    {
      world.Count() + TotalEvents(script)
    }

    constructor (start: World, others: seq<seq<Event>>, ghost commands: bool)
      requires Inv(start) && (commands ==> forall i :: 0 <= i < |others| ==> Uncommanded(others[i]))
      ensures Valid() && world == start && origin == start && script == others && commander == commands
      ensures past == [] && trail == [] && spent == 0
    {
      origin, past, world, script, commander, trail, spent := start, [], start, others, commands, [], 0;
    }

    // The others have had one stretch, and the client did not sleep.
    twostate predicate OneGap()
      reads this
    {
      && old(world.pace.deadlines) != []
      && world == Gap(old(world), old(script)) && script == Rest(old(script))
      && trail == old(trail) + [Moment(old(world), old(script), Awake)]
      && Net() == old(Net()) && spent >= old(spent)
    }

    // The other threads run until the client's next action.
    method Others(ghost asleep: bool)
      requires Valid()
      modifies this
      ensures Valid() && Onward(commander, old(world), world) && Reach() <= old(Reach())
      ensures |script| <= old(|script|) && (old(script) != [] ==> |script| < old(|script|))
      ensures trail == old(trail) + [Moment(old(world), old(script), if asleep then Asleep(old(spent)) else Awake)]
      ensures if asleep then spent == old(spent) else spent >= old(spent) && Net() == old(Net())
      ensures world == Gap(old(world), old(script)) && script == Rest(old(script))
      ensures !asleep ==> OneGap()
    {
      hide Onward, Recorded, Pending, Stamps, LinkInPhase, PacedInPhase;
      trail := trail + [Moment(world, script, if asleep then Asleep(spent) else Awake)];
      if !asleep {
        spent := spent + Gap(world, script).now - world.now;
      }
      if script == [] {
        OnwardSelf(commander, world);
      } else {
        RunConcat(origin, past, script[0]);
        OnwardRun(commander, world, script[0]);
        OnwardClock(commander, world, Run(world, script[0]));
        RunCounts(world, script[0]);
        past := past + script[0];
        world := Run(world, script[0]);
        script := script[1..];
      }
    }

    // ConditionVariable::waitUntil: give way to the others; woken by anything,
    // or by the deadline.
    method WaitUntil(deadline: int)
      requires Valid()
      modifies this
      ensures Valid() && Onward(commander, old(world), world) && Reach() <= old(Reach())
      ensures |script| < old(|script|) || (|script| == old(|script|) && world.now >= deadline)
      ensures trail == old(trail) + [Moment(old(world), old(script), Asleep(old(spent)))] && spent == old(spent)
    {
      hide Onward, Recorded, Pending, Stamps, LinkInPhase, PacedInPhase;
      if script == [] && world.now < deadline {
        trail := trail + [Moment(world, script, Asleep(spent))];
        var events := [Tick(deadline - world.now)];
        assert events[..0] == [] && Run(world, []) == world;
        RunConcat(origin, past, events);
        OnwardRun(commander, world, events);
        RunCounts(world, []);
        past := past + events;
        world := Run(world, events);
      } else {
        Others(true);
      }
    }

    // Only the commander calls this.
    method SetCommand(command: GripperCommand) returns (ghost before: World)
      requires Valid() && commander
      modifies this
      ensures Valid() && Later(old(world), before) && Inv(before) && world == Step(before, Command(command))
      ensures before == Gap(old(world), old(script)) && script == Rest(old(script))
      ensures trail == old(trail) + [Moment(old(world), old(script), Awake)]
      ensures Net() == old(Net()) && spent >= old(spent)
      ensures Reach() <= old(Reach()) && |script| <= old(|script|)
    {
      hide Later, Recorded, Pending, Stamps, LinkInPhase, PacedInPhase;
      Others(false);
      before := world;
      var events := [Command(command)];
      assert events[..0] == [] && Run(world, []) == world;
      RunConcat(origin, past, events);
      StepKeepsInv(world, Command(command));
      past := past + events;
      world := Step(world, Command(command));
    }

    method GetCommand() returns (command: GripperCommand)
      requires Valid()
      modifies this
      ensures Valid() && Onward(commander, old(world), world) && Reach() <= old(Reach()) && |script| <= old(|script|)
      ensures OneGap() && command == world.image.command
    {
      Others(false);
      command := world.image.command;
    }

    method GetMostRecentStampedExchange() returns (stamped: StampedExchange)
      requires Valid()
      modifies this
      ensures Valid() && Onward(commander, old(world), world) && Reach() <= old(Reach()) && |script| <= old(|script|)
      ensures OneGap() && stamped == world.image.stamped
    {
      Others(false);
      stamped := world.image.stamped;
    }

    method Now() returns (now: int)
      requires Valid()
      modifies this
      ensures Valid() && Onward(commander, old(world), world) && Reach() <= old(Reach()) && |script| <= old(|script|)
      ensures OneGap() && now == world.now
    {
      Others(false);
      now := world.now;
    }

    method DeadlineAfter(timeout: int) returns (deadline: int)
      requires Valid()
      modifies this
      ensures Valid() && Onward(commander, old(world), world) && Reach() <= old(Reach()) && |script| <= old(|script|)
      ensures OneGap() && deadline == world.now + Capped(timeout)
    {
      var now := Now();
      deadline := now + Capped(timeout);
    }

    // ProcessImage::sync. It sleeps only while the count is not reached.
    method Sync(count: int, deadline: int) returns (stamped: StampedExchange)
      requires Valid()
      modifies this
      ensures Valid() && Onward(commander, old(world), world) && Reach() <= old(Reach()) && |script| <= old(|script|)
      ensures stamped == world.image.stamped
      ensures stamped.exchangeCount > count || GaveUp(world, deadline)
      ensures old(trail) < trail && SleptBelow(trail, old(|trail|), count + 1)
      ensures SleptWithin(trail, old(|trail|), old(Net()), deadline - old(spent))
      ensures Net() >= old(Net()) && spent >= old(spent)
      ensures trail[old(|trail|)] == Moment(old(world), old(script), Awake)
    {
      hide Onward, Inv, Gap, Rest;
      Others(false);
      ghost var entry := world;
      OnwardSelf(commander, world);
      while world.image.stamped.exchangeCount <= count && !world.image.closed && world.now < deadline
        invariant Valid() && Onward(commander, entry, world) && Reach() <= old(Reach()) && |script| <= old(|script|)
        invariant old(trail) < trail && SleptBelow(trail, old(|trail|), count + 1)
        invariant SleptWithin(trail, old(|trail|), old(Net()), deadline - old(spent))
        invariant Net() >= old(Net()) && spent >= old(spent)
        invariant trail[old(|trail|)] == Moment(old(world), old(script), Awake)
        decreases |script|, world.now < deadline
      {
        ghost var asleep := world;
        WaitUntil(deadline);
        OnwardClock(commander, asleep, world);
        OnwardTrans(commander, entry, asleep, world);
      }
      OnwardTrans(commander, old(world), entry, world);
      stamped := world.image.stamped;
    }

    // Asked for record 0 it need not wait, whatever the image holds.
    method WaitForExchange(desiredExchangeCount: nat, deadline: int) returns (stamped: StampedExchange)
      requires Valid()
      modifies this
      ensures Valid() && Onward(commander, old(world), world) && Reach() <= old(Reach()) && |script| <= old(|script|)
      ensures stamped == world.image.stamped
      ensures stamped.exchangeCount >= desiredExchangeCount || GaveUp(world, deadline)
      ensures old(trail) < trail && SleptBelow(trail, old(|trail|), desiredExchangeCount)
      ensures SleptWithin(trail, old(|trail|), old(Net()), deadline - old(spent))
      ensures Net() >= old(Net()) && spent >= old(spent)
    {
      if desiredExchangeCount == 0 {
        stamped := GetMostRecentStampedExchange();
      } else {
        stamped := Sync(desiredExchangeCount - 1, deadline);
      }
    }

    method WaitForExchangeCount(desiredExchangeCount: nat, timeout: int) returns (r: Option<StampedExchange>)
      requires Valid()
      modifies this
      ensures Valid() && Onward(commander, old(world), world) && Reach() <= old(Reach()) && |script| <= old(|script|)
      ensures r.Some? ==> r.value == world.image.stamped && r.value.exchangeCount >= desiredExchangeCount
      ensures r.None? ==> world.Count() < desiredExchangeCount
      ensures r.None? ==> GaveUp(world, old(world.now) + Capped(timeout))
      ensures old(trail) < trail && SleptBelow(trail, old(|trail|), desiredExchangeCount)
      ensures SleptWithin(trail, old(|trail|), old(Net()), old(Net()) + Capped(timeout))
      ensures Net() >= old(Net()) && spent >= old(spent)
    {
      hide Inv, Gap, Rest, Later;
      var deadline := DeadlineAfter(timeout);
      ghost var entry := world;
      var newest := WaitForExchange(desiredExchangeCount, deadline);
      OnwardTrans(commander, old(world), entry, world);
      if newest.exchangeCount < desiredExchangeCount {
        return None;
      }
      return Some(newest);
    }

    // detail::waitForExchangeAfter. An empty answer means the deadline the call
    // computed on entry really passed (the per-round conversion to whole
    // milliseconds never ends a wait early), or the image closed, and that
    // nothing completed since the last exchange looked at. It never slept on an
    // exchange newer than the last one it had turned down.
    method WaitForExchangeAfter(afterCount: nat, met: StampedExchange -> bool, timeout: int)
      returns (r: Option<StampedExchange>, ghost judged: seq<StampedExchange>)
      requires Valid()
      modifies this
      ensures Valid() && Onward(commander, old(world), world) && Reach() <= old(Reach()) && |script| <= old(|script|)
      ensures Judged(world, afterCount, judged) && Answer(judged, met, r)
      ensures r.Some? ==> r.value == world.image.stamped
      ensures r.None? ==> Exhausted(world, afterCount, judged)
      ensures r.None? ==> GaveUp(world, old(world.now) + Capped(timeout))
      ensures old(trail) < trail && SleptBelow(trail, old(|trail|), TurnedDown(afterCount, judged, r) + 1)
      ensures SleptWithin(trail, old(|trail|), old(Net()), old(Net()) + Allowance(timeout))
      ensures Net() >= old(Net()) && spent >= old(spent)
    {
      hide Onward, Judged, Answer, TurnedDown, Inv, TotalEvents, Run, Capped, Remaining, Uncommanded, Gap, Rest,
        Gripper.Valid, SleptBelow, SleptWithin, Allowance;
      ghost var entry, low, from, limit := world, Net(), |trail|, Net() + Allowance(timeout);
      var deadline := DeadlineAfter(timeout);
      OnwardClock(commander, entry, world);
      judged := [];
      Holds();
      JudgedNone(world, afterCount);
      AwakeSoFar(trail, from, afterCount + 1, low, limit);
      var desired := afterCount + 1;
      while true
        invariant Valid() && Onward(commander, entry, world) && Reach() <= old(Reach()) && |script| <= old(|script|)
        invariant Judged(world, afterCount, judged) && forall i :: 0 <= i < |judged| ==> !met(judged[i])
        invariant desired == if judged == [] then afterCount + 1 else judged[|judged| - 1].exchangeCount + 1
        invariant old(trail) < trail && SleptBelow(trail, from, desired)
        invariant SleptWithin(trail, from, low, limit)
        invariant Net() >= low && spent >= deadline - Capped(timeout) - low >= old(spent)
        decreases Reach() + 1 - desired
      {
        ghost var round, walked, net, passed := world, trail, Net(), spent;
        var exchange := Round(desired, deadline);
        Holds();
        OnwardTrans(commander, entry, round, world);
        OnwardGrows(commander, round, world);
        JudgedStays(round, world, afterCount, judged);
        SleptRound(walked, trail, from, desired, low, net, deadline, timeout, passed, round.now);
        if exchange.None? {
          FoundNone(afterCount, judged, met);
          return None, judged;
        }
        JudgedNewest(world, afterCount, judged);
        if met(exchange.value) {
          FoundIt(afterCount, judged, met, exchange.value);
          return exchange, judged + [exchange.value];
        }
        judged := judged + [exchange.value];
        SleptHigher(trail, from, desired, exchange.value.exchangeCount + 1);
        desired := exchange.value.exchangeCount + 1;
      }
    }

    // One turn of the loop above: what is left of its time, in whole milliseconds,
    // and a wait for that long. Past the deadline it does not sleep.
    method Round(desired: nat, deadline: int) returns (r: Option<StampedExchange>)
      requires Valid() && deadline <= world.now + 4_611_686_018_427_000_000
      modifies this
      ensures Valid() && Onward(commander, old(world), world) && Reach() <= old(Reach()) && |script| <= old(|script|)
      ensures r.Some? ==> r.value == world.image.stamped && r.value.exchangeCount >= desired
      ensures r.None? ==> world.Count() < desired && GaveUp(world, deadline)
      ensures old(trail) < trail && SleptBelow(trail, old(|trail|), desired)
      ensures SleptWithin(trail, old(|trail|), old(Net()), deadline - old(spent) + 1_000_000)
      ensures deadline <= old(world.now) ==> SleptWithin(trail, old(|trail|), old(Net()), old(Net()))
      ensures Net() >= old(Net()) && spent >= old(spent)
    {
      hide Onward, Inv, TotalEvents, Run, Uncommanded, Gap, Rest, SleptBelow, SleptWithin;
      ghost var round, walked, passed := world, trail, spent;
      var now := Now();
      ghost var polled, asked := world, trail;
      r := WaitForExchangeCount(desired, Remaining(deadline, now));
      OnwardTrans(commander, round, polled, world);
      OnwardClock(commander, round, polled);
      RoundInTime(deadline, now);
      ghost var net := now - spent;
      NotYetSlept(walked, desired, old(Net()), deadline - passed + 1_000_000);
      SleptOn(walked, asked, trail, |walked|, desired);
      SleptWithinOn(walked, asked, trail, |walked|, old(Net()), deadline - passed + 1_000_000, old(Net()),
        old(Net()) + Capped(Remaining(deadline, now)));
      if deadline <= round.now {
        NotYetSlept(walked, desired, old(Net()), old(Net()));
        SleptWithinOn(walked, asked, trail, |walked|, old(Net()), old(Net()), old(Net()),
          old(Net()) + Capped(Remaining(deadline, now)));
      }
    }

    // Looks from the newest record at the call on.
    method WaitFor(met: StampedExchange -> bool, timeout: int)
      returns (r: Option<StampedExchange>, ghost judged: seq<StampedExchange>)
      requires Valid()
      modifies this
      ensures Valid() && Onward(commander, old(world), world) && |script| <= old(|script|)
      ensures Onward(commander, Gap(old(world), old(script)), world)
      ensures var after := Gap(old(world), old(script)).Count();
        && Judged(world, after, judged) && Answer(judged, met, r)
        && (r.None? ==> Exhausted(world, after, judged))
        && old(trail) < trail && SleptBelow(trail, old(|trail|), TurnedDown(after, judged, r) + 1)
      ensures SleptWithin(trail, old(|trail|), old(Net()), old(Net()) + Allowance(timeout))
      ensures Net() >= old(Net()) && spent >= old(spent)
      ensures r.Some? ==> r.value == world.image.stamped
      ensures r.None? ==> GaveUp(world, old(world.now) + Capped(timeout))
    {
      hide Onward, Judged, Answer, Inv, Capped;
      var recent := GetMostRecentStampedExchange();
      ghost var entry := world;
      r, judged := WaitForExchangeAfter(recent.exchangeCount, met, timeout);
      OnwardTrans(commander, old(world), entry, world);
      OnwardClock(commander, old(world), entry);
      LaterGaveUp(world, old(world.now), entry.now, timeout);
    }

    // setCommandAndWaitForExchange: what comes back was completed after the
    // call began, holds the whole block, and that block was written; `judged`
    // are the exchanges it looked at, from the newest before the command on. An
    // empty answer: at most one exchange completed since the command.
    method SetCommandAndWaitForExchange(command: GripperCommand, timeout: int)
      returns (r: Option<StampedExchange>, ghost judged: seq<StampedExchange>)
      requires Valid() && commander
      modifies this
      ensures Valid() && world.image.command == command
      ensures r.Some? ==>
        && old(world).Count() < r.value.exchangeCount <= world.Count()
        && r.value == world.history[r.value.exchangeCount]
        && r.value.command == command
        && 0 <= world.wires[r.value.exchangeCount] < |world.written|
        && world.written[world.wires[r.value.exchangeCount]] == command
      ensures var after := Gap(old(world), old(script)).Count();
        && Judged(world, after, judged) && Answer(judged, Carrying(command), r)
        && (r.None? ==> Exhausted(world, after, judged))
        && old(trail) < trail && SleptBelow(trail, old(|trail|), TurnedDown(after, judged, r) + 1)
      ensures SleptWithin(trail, old(|trail|), old(Net()), old(Net()) + Allowance(timeout))
      ensures r.None? ==> world.Count() <= TwoGaps(old(world), old(script)).Count() + 1
      ensures r.None? ==> GaveUp(world, old(world.now) + Capped(timeout))
    {
      hide Later, Grown, Judged, Answer, Gap, Rest, Run, Inv, Uncommanded, TotalEvents, Capped, TurnedDown;
      ghost var entry := world;
      var recent := GetMostRecentStampedExchange();
      ghost var looked := world;
      ghost var before := SetCommand(command);
      ghost var commanded := world;
      r, judged := WaitForExchangeAfter(recent.exchangeCount, Carrying(command), timeout);
      CommandBetween(entry, looked, before, world, command);
      LaterGaveUp(world, entry.now, commanded.now, timeout);
      if r.Some? {
        AnswerOnWire(world, recent.exchangeCount, judged, Carrying(command), r);
      } else {
        NotCarriedYet(commanded, world, recent.exchangeCount, judged);
      }
    }
  }

  lemma AwakeSoFar(trail: seq<Moment>, from: nat, bound: int, low: int, until: int)
    requires from + 1 == |trail| && trail[from].sleep.Awake?
    ensures SleptBelow(trail, from, bound) && SleptWithin(trail, from, low, until)
  {
  }

  lemma SleptOn(walked: seq<Moment>, asked: seq<Moment>, trail: seq<Moment>, from: nat, bound: int)
    requires from <= |walked| && SleptBelow(walked, from, bound) && walked < asked < trail
    requires |asked| == |walked| + 1 && asked[|walked|].sleep.Awake? && SleptBelow(trail, |asked|, bound)
    ensures SleptBelow(trail, from, bound)
  {
    forall i | from <= i < |trail| && trail[i].sleep.Asleep?
      ensures trail[i].world.Count() < bound && !trail[i].world.image.closed
    {
      if i < |asked| {
        assert trail[i] == asked[i];
        assert i < |walked| ==> asked[i] == walked[i];
      }
    }
  }

  // A later, narrower stretch of sleep fits the whole, also when it is empty.
  lemma SleptWithinOn(walked: seq<Moment>, asked: seq<Moment>, trail: seq<Moment>, from: nat, low: int, until: int,
      low': int, until': int)
    requires from <= |walked| && SleptWithin(walked, from, low, until) && walked < asked < trail
    requires |asked| == |walked| + 1 && asked[|walked|].sleep.Awake? && SleptWithin(trail, |asked|, low', until')
    requires low <= low' && (until' <= until || until' <= low')
    ensures SleptWithin(trail, from, low, until)
  {
    forall i | from <= i < |trail| && trail[i].sleep.Asleep?
      ensures low <= trail[i].world.now - trail[i].sleep.spent < until
    {
      if i < |asked| {
        assert trail[i] == asked[i];
        assert i < |walked| ==> asked[i] == walked[i];
      }
    }
  }

  // How long a wait of so many milliseconds may still go to sleep: the rounding up
  // of a round adds less than a millisecond.
  function Allowance(timeout: int): int {
    if timeout > 0 then Capped(timeout) + 1_000_000 else 0
  }

  lemma FoundNone(afterCount: nat, judged: seq<StampedExchange>, met: StampedExchange -> bool)
    requires forall i :: 0 <= i < |judged| ==> !met(judged[i])
    ensures Answer(judged, met, None)
    ensures TurnedDown(afterCount, judged, None) ==
      if judged == [] then afterCount else judged[|judged| - 1].exchangeCount
  {
  }

  lemma FoundIt(afterCount: nat, judged: seq<StampedExchange>, met: StampedExchange -> bool, e: StampedExchange)
    requires met(e) && forall i :: 0 <= i < |judged| ==> !met(judged[i])
    ensures Answer(judged + [e], met, Some(e))
    ensures TurnedDown(afterCount, judged + [e], Some(e)) ==
      if judged == [] then afterCount else judged[|judged| - 1].exchangeCount
  {
  }

  lemma NotYetSlept(trail: seq<Moment>, bound: int, low: int, until: int)
    ensures SleptBelow(trail, |trail|, bound) && SleptWithin(trail, |trail|, low, until)
  {
  }

  // Neither the rounding up nor the cap ends a round before the wait's deadline,
  // nor a millisecond after it.
  lemma RoundInTime(deadline: int, now: int)
    requires deadline <= now + 4_611_686_018_427_000_000
    ensures var left := Capped(Remaining(deadline, now));
      && deadline <= now + left
      && (deadline <= now ==> left == 0)
      && (deadline > now ==> now + left < deadline + 1_000_000)
  {
  }

  // A round within the whole wait.
  lemma SleptRound(walked: seq<Moment>, trail: seq<Moment>, from: nat, bound: int, low: int, net: int, deadline: int,
      timeout: int, spent: int, now: int)
    requires from <= |walked| && walked < trail
    requires SleptBelow(walked, from, bound) && SleptWithin(walked, from, low, low + Allowance(timeout))
    requires SleptBelow(trail, |walked|, bound) && SleptWithin(trail, |walked|, net, deadline - spent + 1_000_000)
    requires deadline <= now ==> SleptWithin(trail, |walked|, net, net)
    requires net == now - spent && low <= net && spent >= deadline - Capped(timeout) - low
    ensures SleptBelow(trail, from, bound) && SleptWithin(trail, from, low, low + Allowance(timeout))
  {
    forall i | from <= i < |walked| ensures trail[i] == walked[i] {
    }
  }

  lemma SleptHigher(trail: seq<Moment>, from: nat, bound: int, higher: int)
    requires SleptBelow(trail, from, bound) && bound <= higher
    ensures SleptBelow(trail, from, higher)
  {
  }

  lemma LaterGaveUp(w: World, early: int, late: int, timeout: int)
    requires early <= late
    ensures GaveUp(w, late + Capped(timeout)) ==> GaveUp(w, early + Capped(timeout))
  {
  }

  // The exchange a successful wait returns is a record of the image, and its
  // block was written to the device.
  lemma AnswerOnWire(w: World, afterCount: nat, judged: seq<StampedExchange>, met: StampedExchange -> bool,
      r: Option<StampedExchange>)
    requires Inv(w) && Judged(w, afterCount, judged) && Answer(judged, met, r) && r.Some?
    ensures afterCount < r.value.exchangeCount <= w.Count()
    ensures w.history[r.value.exchangeCount] == r.value && met(r.value)
    ensures 0 <= w.wires[r.value.exchangeCount] < |w.written|
    ensures w.written[w.wires[r.value.exchangeCount]] == r.value.command
  {
    var k := r.value.exchangeCount;
    assert Carried(w.gripper, w.written, w.history[k], w.wires[k]);
  }

  // Once two exchanges have completed since a command, a wait that has looked at
  // everything since before it has last looked at one that carries it.
  lemma CarriedByThen(s: World, w: World, afterCount: nat, judged: seq<StampedExchange>)
    requires Inv(s) && Inv(w) && Later(s, w) && afterCount <= s.Count()
    requires Judged(w, afterCount, judged) && Exhausted(w, afterCount, judged)
    ensures w.Count() > s.Count() + 1 ==> judged != [] && judged[|judged| - 1].command == s.image.command
  {
    if w.Count() > s.Count() + 1 {
      assert judged[|judged| - 1] == w.history[w.Count()];
    }
  }

  lemma NotCarriedYet(s: World, w: World, afterCount: nat, judged: seq<StampedExchange>)
    requires Inv(s) && Inv(w) && Later(s, w) && afterCount <= s.Count()
    requires Judged(w, afterCount, judged) && Exhausted(w, afterCount, judged)
    requires Answer(judged, Carrying(s.image.command), None)
    ensures w.Count() <= s.Count() + 1
  {
    CarriedByThen(s, w, afterCount, judged);
  }

  // What a command set between two reads of the image leaves.
  lemma CommandBetween(entry: World, looked: World, before: World, w: World, command: GripperCommand)
    requires Inv(entry) && Inv(looked) && Inv(before) && Later(entry, looked) && Later(looked, before)
    requires Later(Step(before, Command(command)), w)
    ensures Inv(Step(before, Command(command)))
    ensures Step(before, Command(command)).image.command == command == w.image.command
    ensures entry.Count() <= looked.Count() <= before.Count() == Step(before, Command(command)).Count()
    ensures entry.now <= Step(before, Command(command)).now
  {
    StepKeepsInv(before, Command(command));
  }

  lemma OnwardGrows(commander: bool, w: World, w': World)
    requires Onward(commander, w, w')
    ensures Grown(w, w')
  {
  }

  lemma OnwardClock(commander: bool, w: World, w': World)
    requires Onward(commander, w, w')
    ensures w.now <= w'.now
  {
  }

  lemma JudgedNone(w: World, afterCount: nat)
    requires Inv(w)
    ensures Judged(w, afterCount, [])
  {
  }

  lemma JudgedStays(w: World, w': World, afterCount: nat, judged: seq<StampedExchange>)
    requires Judged(w, afterCount, judged) && Grown(w, w') && Inv(w')
    ensures Judged(w', afterCount, judged)
  {
  }

  lemma JudgedNewest(w: World, afterCount: nat, judged: seq<StampedExchange>)
    requires Inv(w) && Judged(w, afterCount, judged)
    requires w.Count() > if judged == [] then afterCount else judged[|judged| - 1].exchangeCount
    ensures Judged(w, afterCount, judged + [w.image.stamped])
  {
    var last := |judged| - 1;
    forall i | 0 <= i < |judged| ensures judged[i].exchangeCount < w.Count() {
      if i < last {
        assert judged[i].exchangeCount < judged[last].exchangeCount;
      }
    }
  }
}
