// activate() and recoverFromFault(): the blocking procedures as the client
// runs them, every other thread and the link behaving as they may.
module Procedures {
  import opened Wrappers
  import opened Blocks
  import opened ProcessImage
  import opened ExchangeCycle
  import opened Carriage
  import opened Manual
  import opened Waits
  import opened Activation

  function OnStatus(met: GripperStatus -> bool): StampedExchange -> bool {
    (e: StampedExchange) => met(e.status)
  }

  const ANY_STATUS: GripperStatus -> bool := (s: GripperStatus) => true
  const IS_RESET: GripperStatus -> bool := (s: GripperStatus) => !s.Activated()
  const IS_COMPLETE: GripperStatus -> bool := (s: GripperStatus) => s.State() == Complete

  // The procedure's own deadline, or the longest single wait, has passed, or
  // the image closed.
  predicate Expired(w: World, start: int, deadline: int) {
    w.image.closed || w.now >= Min(deadline, start + 4_611_686_018_427_000_000)
  }

  // Half a millisecond duration, truncating toward zero.
  function Half(timeout: int): int {
    if timeout >= 0 then timeout / 2 else -(-timeout / 2)
  }

  lemma RemainingHolds(deadline: int, now: int, start: int)
    requires start <= now
    ensures now + Capped(Remaining(deadline, now)) >= Min(deadline, start + 4_611_686_018_427_000_000)
  {
  }

  // A wait from the count `after` on, over at `w`: what it looked at, what it
  // found, and what it slept on, from `from` on in the trail.
  ghost predicate Looked(w: World, after: nat, trail: seq<Moment>, from: nat, judged: seq<StampedExchange>,
      met: GripperStatus -> bool, found: bool)
  {
    var r := if found then Some(w.image.stamped) else None;
    && Judged(w, after, judged) && Answer(judged, OnStatus(met), r)
    && (!found ==> Exhausted(w, after, judged))
    && SleptBelow(trail, from, TurnedDown(after, judged, r) + 1)
  }

  lemma LookedFound(w: World, after: nat, trail: seq<Moment>, from: nat, judged: seq<StampedExchange>,
      met: GripperStatus -> bool)
    requires Inv(w) && Looked(w, after, trail, from, judged, met, true)
    ensures after < w.Count() == w.image.stamped.exchangeCount && met(w.image.stamped.status)
    ensures w.history[w.Count()] == w.image.stamped
  {
    AnswerOnWire(w, after, judged, OnStatus(met), Some(w.image.stamped));
  }

  // What a procedure's wait for `deadline` may sleep: on its own clock from `low`
  // on, until two roundings up to a millisecond past the deadline.
  ghost predicate InTime(trail: seq<Moment>, from: nat, low: int, spent: int, deadline: int) {
    SleptWithin(trail, from, low, deadline - spent + 2_000_000)
  }

  lemma RemainingAllows(deadline: int, now: int)
    ensures if deadline > now then Allowance(Remaining(deadline, now)) < deadline - now + 2_000_000
      else Allowance(Remaining(deadline, now)) == 0
  {
  }

  lemma NoSleepYet(trail: seq<Moment>, low: int, spent: int, deadline: int)
    ensures InTime(trail, |trail|, low, spent, deadline)
  {
  }

  lemma StillInTime(walked: seq<Moment>, trail: seq<Moment>, from: nat, low: int, spent: int, deadline: int)
    requires from <= |walked| && InTime(walked, from, low, spent, deadline)
    requires walked < trail && |trail| == |walked| + 1 && trail[|walked|].sleep.Awake?
    ensures InTime(trail, from, low, spent, deadline)
  {
    forall i | from <= i < |walked| ensures trail[i] == walked[i] {
    }
  }

  // A wait after one waking action of the client's, within what it does in all.
  lemma InTimeOn(walked: seq<Moment>, asked: seq<Moment>, trail: seq<Moment>, from: nat, low: int, spent: int,
      low': int, spent': int, deadline: int)
    requires from <= |walked| && InTime(walked, from, low, spent, deadline) && walked < asked < trail
    requires |asked| == |walked| + 1 && asked[|walked|].sleep.Awake?
    requires InTime(trail, |asked|, low', spent', deadline) && low <= low' && spent <= spent'
    ensures InTime(trail, from, low, spent, deadline)
  {
    SleptWithinOn(walked, asked, trail, from, low, deadline - spent + 2_000_000, low', deadline - spent' + 2_000_000);
  }

  // Looks at every exchange it sees from the newest one on, read after the
  // clock: two gaps into what the others do. It never sleeps on an exchange it
  // has not turned down.
  method WaitForStatus(gripper: Gripper, met: GripperStatus -> bool, deadline: int)
    returns (r: Option<StampedExchange>, ghost judged: seq<StampedExchange>)
    requires gripper.Valid() && gripper.commander
    modifies gripper
    ensures gripper.Valid() && Later(old(gripper.world), gripper.world)
    ensures var looked := TwoGaps(old(gripper.world), old(gripper.script));
      && old(gripper.world).Count() <= looked.Count() && Later(looked, gripper.world)
      && Looked(gripper.world, looked.Count(), gripper.trail, old(|gripper.trail|), judged, met, r.Some?)
    ensures InTime(gripper.trail, old(|gripper.trail|), old(gripper.Net()), old(gripper.spent), deadline)
    ensures gripper.Net() >= old(gripper.Net()) && gripper.spent >= old(gripper.spent)
    ensures old(gripper.trail) < gripper.trail
    ensures gripper.trail[old(|gripper.trail|)] == Moment(old(gripper.world), old(gripper.script), Awake)
    ensures r.Some? ==> r.value == gripper.world.image.stamped
    ensures r.None? ==> Expired(gripper.world, old(gripper.world.now), deadline)
  {
    hide Later, Grown, Judged, Answer, Exhausted, Run, Uncommanded, Remaining, Inv, TurnedDown, SleptBelow, SleptWithin,
      Allowance, Gap, Rest;
    ghost var entry, script, walked := gripper.world, gripper.script, gripper.trail;
    ghost var low, passed := gripper.Net(), gripper.spent;
    GapOnward(true, entry, script);
    GapOnward(true, Gap(entry, script), Rest(script));
    var now := gripper.Now();
    ghost var asked, trail := gripper.world, gripper.trail;
    r, judged := gripper.WaitFor(OnStatus(met), Remaining(deadline, now));
    LaterTrans(entry, asked, gripper.world);
    LaterClock(entry, asked);
    RemainingHolds(deadline, now, entry.now);
    ghost var bound := TurnedDown(TwoGaps(entry, script).Count(), judged, r) + 1;
    NotYetSlept(walked, bound, low, deadline - passed + 2_000_000);
    SleptOn(walked, trail, gripper.trail, |walked|, bound);
    RemainingAllows(deadline, now);
    SleptWithinOn(walked, trail, gripper.trail, |walked|, low, deadline - passed + 2_000_000, low,
      low + Allowance(Remaining(deadline, now)));
  }

  lemma LaterClock(w: World, w': World)
    requires Later(w, w')
    ensures w.now <= w'.now
  {
  }

  lemma LaterCount(w: World, w': World)
    requires Later(w, w') && Inv(w) && Inv(w')
    ensures w.Count() <= w'.Count()
  {
  }

  // Any status will do, so the first exchange looked at is the answer: until it
  // came the wait slept only while nothing had completed since its first look.
  method WaitOperational(gripper: Gripper, deadline: int)
    returns (r: Option<StampedExchange>, ghost judged: seq<StampedExchange>)
    requires gripper.Valid() && gripper.commander
    modifies gripper
    ensures gripper.Valid() && Later(old(gripper.world), gripper.world)
    ensures var looked := TwoGaps(old(gripper.world), old(gripper.script));
      && old(gripper.world).Count() <= looked.Count()
      && SleptBelow(gripper.trail, old(|gripper.trail|), looked.Count() + 1)
      && (if r.Some? then looked.Count() < gripper.world.Count() else gripper.world.Count() <= looked.Count())
      && Looked(gripper.world, looked.Count(), gripper.trail, old(|gripper.trail|), judged, ANY_STATUS, r.Some?)
    ensures judged == if r.Some? then [r.value] else []
    ensures InTime(gripper.trail, old(|gripper.trail|), old(gripper.Net()), old(gripper.spent), deadline)
    ensures gripper.Net() >= old(gripper.Net()) && gripper.spent >= old(gripper.spent)
    ensures old(gripper.trail) < gripper.trail
    ensures r.Some? ==>
      r.value == gripper.world.image.stamped == gripper.world.history[gripper.world.Count()]
    ensures r.None? ==> Expired(gripper.world, old(gripper.world.now), deadline)
  {
    hide Later, TwoGaps, Run, SleptBelow;
    ghost var looked := TwoGaps(gripper.world, gripper.script);
    r, judged := WaitForStatus(gripper, ANY_STATUS, deadline);
    OneLook(gripper.world, looked.Count(), gripper.trail, old(|gripper.trail|), judged, r.Some?);
  }

  lemma OneLook(w: World, after: nat, trail: seq<Moment>, from: nat, judged: seq<StampedExchange>, found: bool)
    requires Inv(w) && Looked(w, after, trail, from, judged, ANY_STATUS, found)
    ensures SleptBelow(trail, from, after + 1)
    ensures if found then after < w.Count() && judged == [w.history[w.Count()]] else judged == [] && w.Count() <= after
    ensures w.history[w.Count()] == w.image.stamped
  {
    if judged != [] {
      assert OnStatus(ANY_STATUS)(judged[0]);
    }
  }

  // The count up to which a wait for a command to show may have to sleep: what
  // was there at its first look, or the first exchange since the command, the
  // only one that can carry an older block.
  function Horizon(looked: nat, commanded: nat): nat {
    if looked > commanded then looked else commanded + 1
  }

  // A wait for something every record carrying the command shows is prompt: it
  // looks at two exchanges at most, sleeps below the horizon only, and gives up
  // only there.
  lemma Promptly(s: World, w: World, looked: nat, judged: seq<StampedExchange>, met: GripperStatus -> bool,
      r: Option<StampedExchange>)
    requires Inv(s) && Inv(w) && Later(s, w) && s.Count() <= looked
    requires Judged(w, looked, judged) && Answer(judged, OnStatus(met), r)
    requires r.None? ==> Exhausted(w, looked, judged)
    requires forall k :: 0 < k <= w.Count() && w.history[k].command == s.image.command ==> met(w.history[k].status)
    ensures |judged| <= 2 && TurnedDown(looked, judged, r) <= Horizon(looked, s.Count())
    ensures r.None? ==> w.Count() <= Horizon(looked, s.Count())
  {
    Sooner(w, looked, s.Count(), judged);
    AtMostTwoLooks(s, w, judged, OnStatus(met), r);
    var turned := if r.Some? then |judged| - 1 else |judged|;
    if turned > 0 {
      var e := judged[turned - 1];
      assert !OnStatus(met)(e) && e == w.history[e.exchangeCount];
      if e.exchangeCount > s.Count() + 1 {
        SecondRecord(s, w, e.exchangeCount);
      }
    }
  }

  lemma Sooner(w: World, afterCount: nat, sooner: nat, judged: seq<StampedExchange>)
    requires Judged(w, afterCount, judged) && sooner <= afterCount
    ensures Judged(w, sooner, judged)
  {
  }

  // The wait both paths of activate() end in.
  method WaitForActivationComplete(gripper: Gripper, deadline: int)
    returns (result: ActivationResult, ghost back: nat, ghost judged: seq<StampedExchange>)
    requires gripper.Valid() && gripper.commander && FollowsManual(gripper.world.gripper)
    modifies gripper
    ensures gripper.Valid() && Later(old(gripper.world), gripper.world)
    ensures result == if back != 0 then Activated else Timeout
    ensures back != 0 ==>
      && old(gripper.world).Count() < back == gripper.world.Count()
      && gripper.world.history[back].status.State() == Complete
    ensures back == 0 ==> Expired(gripper.world, old(gripper.world.now), deadline)
    ensures InTime(gripper.trail, old(|gripper.trail|), old(gripper.Net()), old(gripper.spent), deadline)
    ensures gripper.Net() >= old(gripper.Net()) && gripper.spent >= old(gripper.spent)
    ensures var looked := TwoGaps(old(gripper.world), old(gripper.script));
      && old(gripper.world).Count() <= looked.Count() && Later(looked, gripper.world)
      && Looked(gripper.world, looked.Count(), gripper.trail, old(|gripper.trail|), judged, IS_COMPLETE, back != 0)
    ensures old(gripper.trail) < gripper.trail
    ensures gripper.trail[old(|gripper.trail|)] == Moment(old(gripper.world), old(gripper.script), Awake)
  {
    hide Later, Looked, TwoGaps, Run, FollowsManual, GripperStatus.State;
    var r;
    ghost var looked := TwoGaps(gripper.world, gripper.script);
    r, judged := WaitForStatus(gripper, IS_COMPLETE, deadline);
    back := 0;
    if r.Some? {
      LookedFound(gripper.world, looked.Count(), gripper.trail, old(|gripper.trail|), judged, IS_COMPLETE);
      back := r.value.exchangeCount;
      return Activated, back, judged;
    }
    return Timeout, back, judged;
  }

  // One leg of the handshake: the client's own actions from the call that sets
  // its command on; where its wait was over and what the others had left to do;
  // and the exchanges the wait looked at.
  datatype Leg = Leg(trail: seq<Moment>, over: World, rest: seq<seq<Event>>, judged: seq<StampedExchange>) {
    ghost predicate Begun() { trail != [] && trail[0].world.pace.deadlines != [] }

    ghost function Commanded(c: GripperCommand): World
      requires Begun()
    {
      Step(Gap(trail[0].world, trail[0].script), Command(c))
    }

    ghost function FirstLook(c: GripperCommand): World
      requires Begun()
    {
      TwoGaps(Commanded(c), Rest(trail[0].script))
    }

    // The leg set the command and waited for it to show.
    ghost predicate Ran(c: GripperCommand, met: GripperStatus -> bool, found: bool) {
      && Begun() && Inv(trail[0].world) && Inv(over)
      && Later(Commanded(c), over) && Later(FirstLook(c), over)
      && Looked(over, FirstLook(c).Count(), trail, 0, judged, met, found)
    }

    // Two looks at most, no sleep past the horizon, no giving up past it either.
    ghost predicate Prompt(c: GripperCommand, found: bool)
      requires Begun()
    {
      var horizon := Horizon(FirstLook(c).Count(), Commanded(c).Count());
      && |judged| <= 2 && SleptBelow(trail, 0, horizon + 1)
      && (!found ==> over.Count() <= horizon)
    }
  }

  // A whole handshake: its legs, the record `reset` that showed the reset and the
  // record `back` that showed completion (0 where none did).
  datatype Handshake = Handshake(first: Leg, second: Leg, reset: nat, back: nat) {
    // Over the command p: the first leg, up to the record of the reset or to
    // giving up and restoring p; then, at once, the second, up to the record of
    // completion or to giving up.
    ghost predicate Ran(p: GripperCommand, w: World) {
      && first.Ran(DeactivateBlock(p), IS_RESET, reset != 0) && first.Prompt(DeactivateBlock(p), reset != 0)
      && (if reset == 0 then
            back == 0 && w == Step(Gap(first.over, first.rest), Command(p))
          else
            && first.over.Count() == reset
            && second.Ran(ActivateBlock(p), IS_COMPLETE, back != 0)
            && second.trail[0] == Moment(first.over, first.rest, Awake) && second.over == w
            && (back != 0 ==> back == w.Count())
            && (ActivatesAtOnce(w.gripper) ==> second.Prompt(ActivateBlock(p), back != 0)))
    }

    // The client's own actions in it, one after the other.
    function Trail(): seq<Moment> {
      first.trail + if reset == 0 then [Moment(first.over, first.rest, Awake)] else second.trail
    }

    function LastWait(): World { if reset == 0 then first.over else second.over }
  }

  // The record that showed the reset.
  ghost predicate ShowsReset(start: World, w: World, reset: nat) {
    start.Count() < reset < |w.history| && !w.history[reset].status.Activated()
  }

  // The reset handshake.
  method RunActivationHandshake(gripper: Gripper, deadline: int) returns (result: ActivationResult, ghost h: Handshake)
    requires gripper.Valid() && gripper.commander && FollowsManual(gripper.world.gripper)
    modifies gripper
    ensures gripper.Valid() && Grown(old(gripper.world), gripper.world)
    // everything it did, for either outcome
    ensures result == if h.back != 0 then Activated else Timeout
    ensures h.Ran(old(gripper.world.image.command), gripper.world)
    ensures gripper.trail == old(gripper.trail) + [Moment(old(gripper.world), old(gripper.script), Awake)] + h.Trail()
    ensures h.first.trail != []
    ensures h.first.trail[0] == Moment(Gap(old(gripper.world), old(gripper.script)), Rest(old(gripper.script)), Awake)
    ensures h.reset == 0 ==> gripper.script == Rest(h.first.rest)
    ensures InTime(gripper.trail, old(|gripper.trail|), old(gripper.Net()), old(gripper.spent), deadline)
    // what an Activated proves, and what a Timeout means
    ensures h.back != 0 ==> h.reset != 0 && Reactivated(gripper.world, h.reset, h.back)
    ensures h.back == 0 ==> Expired(h.LastWait(), old(gripper.world.now), deadline)
    // what becomes of the command
    ensures gripper.world.image.command ==
      if h.reset == 0 then old(gripper.world.image.command) else ActivateBlock(old(gripper.world.image.command))
    ensures h.reset != 0 ==>
      ShowsReset(old(gripper.world), gripper.world, h.reset) && NoMotionSince(gripper.world, h.reset)
  {
    hide Later, Grown, Looked, Inv, Run, Step, Gap, Rest, TwoGaps, Uncommanded, Reactivated, ResetShown, NoMotionSince,
      FollowsManual, ActivatesAtOnce, Expired, GripperCommand.Get, GripperCommand.Set, Handshake.Ran, ShowsReset,
      Leg.Ran, Leg.Prompt, GripperStatus.State, ActivateBlock, DeactivateBlock, Gripper.Valid, InTime;
    ghost var entry, low, passed := gripper.world, gripper.Net(), gripper.spent;
    gripper.Holds();
    var previous := gripper.GetCommand();
    gripper.Holds();
    ghost var asked, script, trail1 := gripper.world, gripper.script, gripper.trail;
    ghost var low1, passed1 := gripper.Net(), gripper.spent;
    var activateCommand := previous.Set(GoTo, false).Set(ActionRequestBit.Activate, true);
    var deactivateCommand := activateCommand.Set(ActionRequestBit.Activate, false);
    SameBlocks(previous);

    var seen;
    ghost var first;
    seen, first := SetAndAwait(gripper, deactivateCommand, IS_RESET, deadline);
    FirstLegDone(entry, asked, script, first, seen.Some?, deadline);
    ghost var walked := gripper.trail;
    NoSleepYet(old(gripper.trail), low, passed, deadline);
    InTimeOn(old(gripper.trail), trail1, walked, old(|gripper.trail|), low, passed, low1, passed1, deadline);
    if seen.None? {
      ghost var before := gripper.SetCommand(previous);
      h := Handshake(first, first, 0, 0);
      Restored(entry, previous, before, h, gripper.world);
      StillInTime(walked, gripper.trail, old(|gripper.trail|), low, passed, deadline);
      return Timeout, h;
    }

    ghost var before := gripper.SetCommand(activateCommand);
    ghost var trail2, low2, passed2 := gripper.trail, gripper.Net(), gripper.spent;
    SetGrows(entry, first.over, before, activateCommand);
    ghost var back, judged;
    result, back, judged := WaitForActivationComplete(gripper, deadline);
    ghost var second := Leg(gripper.trail[|walked|..], gripper.world, gripper.script, judged);
    h := Handshake(first, second, seen.value.exchangeCount, back);
    InTimeOn(walked, trail2, gripper.trail, old(|gripper.trail|), low, passed, low2, passed2, deadline);
    gripper.Holds();
    SecondLegDone(entry, asked, Gap(asked, script), before, h, gripper.trail, |walked|, gripper.world, deadline);
  }

  // Sets a command and waits for it to show: one leg.
  method SetAndAwait(gripper: Gripper, command: GripperCommand, met: GripperStatus -> bool, deadline: int)
    returns (r: Option<StampedExchange>, ghost leg: Leg)
    requires gripper.Valid() && gripper.commander
    modifies gripper
    ensures gripper.Valid() && Inv(gripper.world) && gripper.trail == old(gripper.trail) + leg.trail
    ensures leg.trail != [] && leg.trail[0] == Moment(old(gripper.world), old(gripper.script), Awake) && leg.Begun()
    ensures leg.over == gripper.world && leg.over.pace.deadlines != [] && leg.rest == gripper.script
    ensures Later(old(gripper.world), Gap(old(gripper.world), old(gripper.script)))
    ensures Inv(Gap(old(gripper.world), old(gripper.script)))
    ensures Later(leg.Commanded(command), leg.over) && Later(leg.FirstLook(command), leg.over)
    ensures leg.Commanded(command).Count() <= leg.FirstLook(command).Count()
    ensures Looked(leg.over, leg.FirstLook(command).Count(), leg.trail, 0, leg.judged, met, r.Some?)
    ensures r.Some? ==> r.value == leg.over.image.stamped
    ensures r.None? ==> Expired(leg.over, leg.Commanded(command).now, deadline)
    ensures InTime(gripper.trail, old(|gripper.trail|), old(gripper.Net()), old(gripper.spent), deadline)
    ensures gripper.Net() >= old(gripper.Net()) && gripper.spent >= old(gripper.spent)
  {
    hide Later, Looked, Inv, Run, Step, Gap, Rest, TwoGaps, Uncommanded, Expired, InTime;
    ghost var walked, low, passed := gripper.trail, gripper.Net(), gripper.spent;
    ghost var before := gripper.SetCommand(command);
    ghost var asked, low', passed' := gripper.trail, gripper.Net(), gripper.spent;
    ghost var after := TwoGaps(gripper.world, gripper.script).Count();
    ghost var judged;
    r, judged := WaitForStatus(gripper, met, deadline);
    leg := Leg(gripper.trail[|walked|..], gripper.world, gripper.script, judged);
    LookedLeg(gripper.world, after, gripper.trail, |walked|, judged, met, r.Some?);
    NoSleepYet(walked, low, passed, deadline);
    InTimeOn(walked, asked, gripper.trail, |walked|, low, passed, low', passed', deadline);
  }

  lemma SameBlocks(previous: GripperCommand)
    ensures var activateCommand := previous.Set(GoTo, false).Set(ActionRequestBit.Activate, true);
      && activateCommand == ActivateBlock(previous)
      && activateCommand.Set(ActionRequestBit.Activate, false) == DeactivateBlock(previous)
  {
  }

  // What the first leg leaves, at its last look.
  lemma FirstLegDone(entry: World, asked: World, script: seq<seq<Event>>, first: Leg, found: bool, deadline: int)
    requires Inv(entry) && Inv(asked) && Inv(first.over) && FollowsManual(entry.gripper)
    requires first.Begun() && first.trail[0] == Moment(asked, script, Awake)
    requires Inv(Gap(asked, script)) && Later(entry, asked) && Later(asked, Gap(asked, script))
    requires var c := DeactivateBlock(asked.image.command);
      && Later(first.Commanded(c), first.over) && Later(first.FirstLook(c), first.over)
      && first.Commanded(c).Count() <= first.FirstLook(c).Count()
      && Looked(first.over, first.FirstLook(c).Count(), first.trail, 0, first.judged, IS_RESET, found)
      && (!found ==> Expired(first.over, first.Commanded(c).now, deadline))
    ensures Grown(entry, first.over) && first.over.gripper == Gap(asked, script).gripper == entry.gripper
    ensures asked.image.command == entry.image.command
    ensures var c := DeactivateBlock(asked.image.command);
      first.Ran(c, IS_RESET, found) && first.Prompt(c, found)
    ensures found ==>
      && entry.Count() <= Gap(asked, script).Count() < first.over.Count() == first.over.image.stamped.exchangeCount
      && !first.over.history[first.over.Count()].status.Activated()
    ensures !found ==> Expired(first.over, entry.now, deadline)
  {
    hide Later, Grown, Looked, TwoGaps, Inv, Gap, Rest, Expired, Leg.Ran, Leg.Prompt, GripperCommand.Get,
      GripperCommand.Set;
    var p := asked.image.command;
    FirstLeg(entry, asked, Gap(asked, script), first.over);
    FirstLegRan(first, p, found);
    if found {
      LookedFound(first.over, first.FirstLook(DeactivateBlock(p)).Count(), first.trail, 0, first.judged, IS_RESET);
    } else {
      ExpiredSooner(first.over, first.Commanded(DeactivateBlock(p)).now, entry.now, deadline);
    }
  }

  // The first leg in vain: the entry command is back.
  lemma Restored(entry: World, p: GripperCommand, before: World, h: Handshake, w: World)
    requires h.reset == 0 && h.back == 0 && Inv(before) && h.first.over.pace.deadlines != []
    requires Grown(entry, h.first.over) && Later(h.first.over, before)
    requires before == Gap(h.first.over, h.first.rest) && w == Step(before, Command(p))
    requires h.first.Ran(DeactivateBlock(p), IS_RESET, false) && h.first.Prompt(DeactivateBlock(p), false)
    ensures h.Ran(p, w) && Grown(entry, w) && w.image.command == p
  {
    hide Leg.Ran, Leg.Prompt, Inv, Later, Grown;
    SetGrows(entry, h.first.over, before, p);
  }

  // Both legs.
  lemma SecondLegDone(entry: World, asked: World, before: World, before2: World, h: Handshake, trail: seq<Moment>,
      n: nat, w: World, deadline: int)
    requires Inv(entry) && Inv(before) && Inv(h.first.over) && Inv(before2) && Inv(w) && FollowsManual(before.gripper)
    requires Grown(entry, h.first.over) && asked.image.command == entry.image.command && before.gripper == entry.gripper
    requires entry.Count() <= before.Count() < h.reset == h.first.over.Count()
    requires !h.first.over.history[h.reset].status.Activated()
    requires n < |trail| && h.second.trail == trail[n..] && trail[n] == Moment(h.first.over, h.first.rest, Awake)
    requires h.second.over == w && h.second.Begun()
    requires Later(Step(before, Command(DeactivateBlock(asked.image.command))), h.first.over)
    requires Later(h.first.over, before2) && before2 == Gap(h.first.over, h.first.rest)
    requires var p := asked.image.command;
      h.first.Ran(DeactivateBlock(p), IS_RESET, true) && h.first.Prompt(DeactivateBlock(p), true)
    requires var c := ActivateBlock(asked.image.command);
      var commanded := h.second.Commanded(c);
      && Later(commanded, w) && Later(h.second.FirstLook(c), w) && commanded.Count() <= h.second.FirstLook(c).Count()
      && Looked(w, h.second.FirstLook(c).Count(), trail, n + 1, h.second.judged, IS_COMPLETE, h.back != 0)
      && (h.back == 0 ==> Expired(w, commanded.now, deadline))
      && (h.back != 0 ==> commanded.Count() < h.back == w.Count() && w.history[h.back].status.State() == Complete)
    ensures h.Ran(asked.image.command, w) && Grown(entry, w)
    ensures h.back != 0 ==> Reactivated(w, h.reset, h.back)
    ensures h.back == 0 ==> Expired(w, entry.now, deadline)
    ensures w.image.command == ActivateBlock(asked.image.command)
    ensures ShowsReset(entry, w, h.reset) && NoMotionSince(w, h.reset)
  {
    hide Later, Grown, Looked, TwoGaps, Inv, Rest, Expired, Leg.Ran, Leg.Prompt, GripperCommand.Get, GripperCommand.Set,
      GripperStatus.State, GripperStatus.Activated, ResetShown, Reactivated, NoMotionSince, ShowsReset, FollowsManual;
    var p := asked.image.command;
    var commanded := Step(before2, Command(ActivateBlock(p)));
    SetGrows(entry, h.first.over, before2, ActivateBlock(p));
    GrownTrans(entry, commanded, w);
    SecondLeg(entry, asked, before, h.first.over, h.reset, before2, w);
    SecondLegRan(h.second, trail, n, p, h.back != 0);
    if h.back != 0 {
      HandshakeReactivates(before, p, h.first.over, h.reset, before2, w, h.back);
    } else {
      ExpiredSooner(w, commanded.now, entry.now, deadline);
    }
  }

  lemma ExpiredSooner(w: World, from: int, start: int, deadline: int)
    requires Expired(w, from, deadline) && start <= from
    ensures Expired(w, start, deadline)
  {
  }

  // A wait seen from the moment just before it.
  lemma LookedLeg(w: World, after: nat, trail: seq<Moment>, n: nat, judged: seq<StampedExchange>,
      met: GripperStatus -> bool, found: bool)
    requires n < |trail| && !trail[n].sleep.Asleep? && Looked(w, after, trail, n + 1, judged, met, found)
    ensures Looked(w, after, trail[n..], 0, judged, met, found)
  {
  }

  lemma LookedFrom(w: World, after: nat, trail: seq<Moment>, n: nat, judged: seq<StampedExchange>,
      met: GripperStatus -> bool, found: bool)
    requires n <= |trail| && Looked(w, after, trail, n, judged, met, found)
    ensures Looked(w, after, trail[n..], 0, judged, met, found)
  {
  }

  lemma FirstLegRan(leg: Leg, p: GripperCommand, found: bool)
    requires leg.Begun() && Inv(leg.trail[0].world) && Inv(Gap(leg.trail[0].world, leg.trail[0].script))
    requires Inv(leg.over) && FollowsManual(leg.over.gripper)
    requires var c := DeactivateBlock(p);
      && Later(leg.Commanded(c), leg.over) && Later(leg.FirstLook(c), leg.over)
      && leg.Commanded(c).Count() <= leg.FirstLook(c).Count()
      && Looked(leg.over, leg.FirstLook(c).Count(), leg.trail, 0, leg.judged, IS_RESET, found)
    ensures leg.Ran(DeactivateBlock(p), IS_RESET, found) && leg.Prompt(DeactivateBlock(p), found)
  {
    hide GripperCommand.Set, GripperCommand.Get, Later, Looked, TwoGaps, Inv, Gap, Rest, FollowsManual;
    var c := DeactivateBlock(p);
    StepKeepsInv(Gap(leg.trail[0].world, leg.trail[0].script), Command(c));
    EveryRecordShows(leg.over, c);
    HandshakeBlocks(p, ActionRequestBit.Activate);
    LegIsPrompt(leg, c, IS_RESET, found);
  }

  lemma SecondLegRan(leg: Leg, trail: seq<Moment>, n: nat, p: GripperCommand, found: bool)
    requires n < |trail| && leg.trail == trail[n..] && !trail[n].sleep.Asleep? && leg.Begun()
    requires Inv(leg.trail[0].world) && Inv(Gap(leg.trail[0].world, leg.trail[0].script)) && Inv(leg.over)
    requires FollowsManual(leg.over.gripper)
    requires var c := ActivateBlock(p);
      && Later(leg.Commanded(c), leg.over) && Later(leg.FirstLook(c), leg.over)
      && leg.Commanded(c).Count() <= leg.FirstLook(c).Count()
      && Looked(leg.over, leg.FirstLook(c).Count(), trail, n + 1, leg.judged, IS_COMPLETE, found)
    ensures leg.Ran(ActivateBlock(p), IS_COMPLETE, found)
    ensures ActivatesAtOnce(leg.over.gripper) ==> leg.Prompt(ActivateBlock(p), found)
  {
    hide GripperCommand.Set, GripperCommand.Get, GripperStatus.State, Later, Looked, TwoGaps, Inv, Gap, Rest,
      FollowsManual, ActivatesAtOnce;
    var c := ActivateBlock(p);
    StepKeepsInv(Gap(leg.trail[0].world, leg.trail[0].script), Command(c));
    EveryRecordShows(leg.over, c);
    HandshakeBlocks(p, ActionRequestBit.Activate);
    LookedLeg(leg.over, leg.FirstLook(c).Count(), trail, n, leg.judged, IS_COMPLETE, found);
    if ActivatesAtOnce(leg.over.gripper) {
      LegIsPrompt(leg, c, IS_COMPLETE, found);
    }
  }

  // A leg whose command every record carrying it shows is prompt.
  lemma LegIsPrompt(leg: Leg, c: GripperCommand, met: GripperStatus -> bool, found: bool)
    requires leg.Ran(c, met, found) && Inv(leg.Commanded(c)) && leg.Commanded(c).Count() <= leg.FirstLook(c).Count()
    requires forall k :: 0 < k <= leg.over.Count() && leg.over.history[k].command == c ==>
      met(leg.over.history[k].status)
    ensures leg.Prompt(c, found)
  {
    hide Later, Judged, Answer, Exhausted, TwoGaps, Inv, Gap, Rest, TurnedDown;
    var r := if found then Some(leg.over.image.stamped) else None;
    Promptly(leg.Commanded(c), leg.over, leg.FirstLook(c).Count(), leg.judged, met, r);
  }

  lemma Newest(w: World, e: StampedExchange)
    requires Inv(w) && e == w.image.stamped
    ensures e.exchangeCount == w.Count() && w.history[w.Count()] == e && |w.history| == w.Count() + 1
  {
  }

  lemma FirstLeg(entry: World, asked: World, before: World, shown: World)
    requires Inv(entry) && Inv(asked) && Inv(before) && Inv(shown) && FollowsManual(entry.gripper)
    requires Later(entry, asked) && Later(asked, before)
    requires Later(Step(before, Command(DeactivateBlock(asked.image.command))), shown)
    ensures Grown(entry, shown) && shown.gripper == before.gripper == entry.gripper
    ensures asked.image.command == entry.image.command
    ensures var commanded := Step(before, Command(DeactivateBlock(asked.image.command)));
      entry.now <= commanded.now && entry.Count() <= commanded.Count() == before.Count()
  {
    hide GripperCommand.Set, GripperCommand.Get;
    var p := asked.image.command;
    LaterTrans(entry, asked, before);
    SetGrows(entry, entry, before, DeactivateBlock(p));
    GrownTrans(entry, Step(before, Command(DeactivateBlock(p))), shown);
  }

  lemma SecondLeg(entry: World, asked: World, before: World, shown: World, reset: nat, before2: World, w: World)
    requires Inv(entry) && Inv(before) && Inv(shown) && Inv(before2) && Inv(w) && FollowsManual(before.gripper)
    requires Later(Step(before, Command(DeactivateBlock(asked.image.command))), shown)
    requires entry.Count() <= before.Count() < reset <= shown.Count() && !shown.history[reset].status.Activated()
    requires Later(shown, before2)
    requires Later(Step(before2, Command(ActivateBlock(asked.image.command))), w)
    ensures ResetShown(before, asked.image.command, shown, reset, before2, w)
    ensures NoMotionSince(w, reset) && w.image.command == ActivateBlock(asked.image.command)
    ensures w.gripper == before.gripper
    ensures ShowsReset(entry, w, reset)
  {
    NoMotionAfterReset(before, asked.image.command, shown, reset, before2, w);
    BlocksAfterReset(before, asked.image.command, shown, reset, before2, w);
    assert w.history[reset] == shown.history[reset];
  }

  // No block the device acted on since the exchange that showed the reset asks
  // for a motion.
  ghost predicate NoMotionSince(w: World, reset: nat) {
    && 0 < reset < |w.wires| && 0 <= w.wires[reset]
    && forall i :: w.wires[reset] < i < |w.written| ==> !w.written[i].Get(GoTo)
  }

  lemma SetGrows(entry: World, mid: World, before: World, c: GripperCommand)
    requires (Later(entry, mid) || Grown(entry, mid) || entry == mid) && Later(mid, before) && Inv(before)
    ensures Grown(entry, Step(before, Command(c))) && Step(before, Command(c)).image.command == c
    ensures Grown(mid, Step(before, Command(c)))
    ensures Step(before, Command(c)).Count() == before.Count() && Step(before, Command(c)).now >= entry.now
    ensures Step(before, Command(c)).gripper == entry.gripper
  {
  }

  // ----- The two procedures -----

  predicate HandshakeAllowed(deadline: int, now: int, timeout: int) {
    deadline - now >= Half(timeout) * NS_PER_MS
  }

  // That is half the timeout, in nanoseconds, with an odd millisecond dropped; a
  // negative timeout asks for no time at all.
  lemma HalfTheTimeout(deadline: int, now: int, timeout: int)
    ensures timeout >= 0 ==>
      (HandshakeAllowed(deadline, now, timeout) <==> 2 * (deadline - now) >= (timeout - timeout % 2) * 1_000_000)
    ensures timeout < 0 ==>
      (HandshakeAllowed(deadline, now, timeout) <==> 2 * (now - deadline) <= (-timeout - -timeout % 2) * 1_000_000)
  {
  }

  // The procedure's deadline: the timeout from the clock it reads first.
  function DeadlineOf(start: World, script: seq<seq<Event>>, timeout: int): int
    requires start.pace.deadlines != []
  {
    Gap(start, script).now + timeout * NS_PER_MS
  }

  // Less than half the timeout was left when the exchange the procedure waited
  // for completed.
  ghost predicate TooLate(w: World, seen: nat, timeout: int, deadline: int) {
    0 < seen < |w.history| && !HandshakeAllowed(deadline, w.history[seen].timestamp, timeout)
  }

  // What an Activated proves when the handshake ran: during the call the device
  // acted on a block with rACT clear and later on one with it set, and from the
  // completing exchange on it is activated and fault-free.
  ghost predicate ReactivatedDuring(start: World, w: World, reset: nat, back: nat) {
    && Reactivated(w, reset, back)
    && |start.written| <= w.wires[reset]
    && w.image.command == ActivateBlock(start.image.command)
  }

  lemma LaterGrows(w: World, w': World)
    requires Later(w, w')
    ensures Grown(w, w') && w'.image.command == w.image.command && w'.gripper == w.gripper && w.now <= w'.now
  {
  }

  // A read or a wait of the call, after another.
  lemma Waited(start: World, from: World, w: World)
    requires Inv(start) && Inv(from) && Inv(w) && Later(start, from) && Later(from, w)
    ensures Later(start, w) && Grown(start, w) && Grown(from, w)
    ensures w.image.command == start.image.command && w.gripper == start.gripper
    ensures start.now <= from.now <= w.now && start.Count() <= from.Count() <= w.Count()
  {
    hide Inv;
    LaterTrans(start, from, w);
    LaterCount(start, from);
    LaterCount(from, w);
    LaterGrows(from, w);
    LaterGrows(start, w);
    LaterGrows(start, from);
  }

  // A record published after one that was completed during the call was put on
  // the wire during the call.
  lemma DuringTheCall(start: World, live: World, w: World, k: nat)
    requires Inv(start) && Inv(live) && Inv(w) && Later(start, live) && Grown(live, w)
    requires start.Count() < live.Count() < k <= w.Count()
    ensures |start.written| <= w.wires[k]
  {
    assert live.wires[live.Count()] == w.wires[live.Count()] < w.wires[k];
  }

  // The world a procedure begins to look for its first exchange in: three gaps
  // into what the others do.
  function FirstLookOf(start: World, script: seq<seq<Event>>): World
    requires start.pace.deadlines != []
  {
    TwoGaps(Gap(start, script), Rest(script))
  }

  // How a procedure begins, up to the actions in `tail`: the first exchange it
  // sees is `seen`, and until then it sleeps only while nothing has completed
  // since its first look; or it sees none, and then there is no more.
  ghost predicate Began(look: World, w: World, trail: seq<Moment>, from: nat, tail: seq<Moment>, seen: nat) {
    && from + |tail| <= |trail| && trail[|trail| - |tail|..] == tail
    && SleptBelow(trail[..|trail| - |tail|], from, look.Count() + 1)
    && (if seen == 0 then tail == [] && w.Count() <= look.Count() else look.Count() < seen <= w.Count())
  }

  // After the first wait, at `walked`, a few waking actions and then the tail.
  lemma BeganWith(look: World, live: World, w: World, walked: seq<Moment>, awake: seq<Moment>, trail: seq<Moment>,
      from: nat, tail: seq<Moment>, seen: nat)
    requires from <= |walked| && SleptBelow(walked, from, look.Count() + 1)
    requires trail == walked + awake + tail && forall i :: 0 <= i < |awake| ==> !awake[i].sleep.Asleep?
    requires look.Count() < live.Count() == seen && live.Count() <= w.Count()
    ensures Began(look, w, trail, from, tail, seen)
  {
    var n := |walked + awake|;
    assert trail[..n] == walked + awake && trail[n..] == tail;
    SleptAwake(walked, awake, from, look.Count() + 1);
  }

  lemma SleptAwake(walked: seq<Moment>, awake: seq<Moment>, from: nat, bound: int)
    requires SleptBelow(walked, from, bound) && forall i :: 0 <= i < |awake| ==> !awake[i].sleep.Asleep?
    ensures SleptBelow(walked + awake, from, bound)
  {
  }

  lemma BeganInVain(look: World, w: World, trail: seq<Moment>, from: nat)
    requires from <= |trail| && SleptBelow(trail, from, look.Count() + 1) && w.Count() <= look.Count()
    ensures Began(look, w, trail, from, [], 0)
  {
    assert trail[..|trail|] == trail;
  }

  lemma InTimeBoth(walked: seq<Moment>, trail: seq<Moment>, from: nat, low: int, spent: int, low': int, spent': int,
      deadline: int)
    requires from <= |walked| && walked <= trail && InTime(walked, from, low, spent, deadline)
    requires InTime(trail, |walked|, low', spent', deadline) && low <= low' && spent <= spent'
    ensures InTime(trail, from, low, spent, deadline)
  {
    forall i | from <= i < |walked| ensures trail[i] == walked[i] {
    }
  }

  // The handshake the call ran, if it did: it began from the command on entry.
  ghost predicate HandshakeOf(start: World, w: World, script: seq<seq<Event>>, h: Handshake) {
    && h.Ran(start.image.command, w) && h.first.trail != []
    && Later(start, h.first.trail[0].world)
    && (h.reset == 0 ==> script == Rest(h.first.rest))
  }

  // The clock, and then the wait for a first exchange: how both procedures begin.
  method AwaitFirstExchange(gripper: Gripper, timeout: int)
    returns (operational: Option<StampedExchange>, until: int)
    requires gripper.Valid() && gripper.commander
    modifies gripper
    ensures gripper.Valid() && Later(old(gripper.world), gripper.world)
    ensures until == DeadlineOf(old(gripper.world), old(gripper.script), timeout)
    ensures until == Gap(old(gripper.world), old(gripper.script)).now + timeout * 1_000_000
    ensures InTime(gripper.trail, old(|gripper.trail|), old(gripper.Net()), old(gripper.spent), until)
    ensures gripper.Net() >= old(gripper.Net()) && gripper.spent >= old(gripper.spent)
    ensures var look := FirstLookOf(old(gripper.world), old(gripper.script));
      && old(gripper.world).Count() <= look.Count()
      && SleptBelow(gripper.trail, old(|gripper.trail|), look.Count() + 1)
      && (if operational.Some? then look.Count() < gripper.world.Count() else gripper.world.Count() <= look.Count())
    ensures old(gripper.trail) < gripper.trail
    ensures operational.Some? ==>
      && operational.value == gripper.world.image.stamped == gripper.world.history[gripper.world.Count()]
      && operational.value.exchangeCount == gripper.world.Count()
    ensures operational.None? ==> Expired(gripper.world, old(gripper.world.now), until)
  {
    hide Later, Inv, Run, TwoGaps, Rest, Uncommanded, Expired, SleptBelow, InTime, Looked;
    ghost var start, walked, low, passed := gripper.world, gripper.trail, gripper.Net(), gripper.spent;
    var now := gripper.Now();
    ghost var asked, trail, low', passed' := gripper.world, gripper.trail, gripper.Net(), gripper.spent;
    until := now + timeout * NS_PER_MS;
    ghost var judged;
    operational, judged := WaitOperational(gripper, until);
    Waited(start, asked, gripper.world);
    ghost var bound := FirstLookOf(start, old(gripper.script)).Count() + 1;
    NotYetSlept(walked, bound, 0, 0);
    SleptOn(walked, trail, gripper.trail, |walked|, bound);
    NoSleepYet(walked, low, passed, until);
    InTimeOn(walked, trail, gripper.trail, |walked|, low, passed, low', passed', until);
    if operational.None? {
      ExpiredSooner(gripper.world, asked.now, start.now, until);
    } else {
      Newest(gripper.world, operational.value);
    }
  }

  // The handshake, unless too little time is left for it: how recoverFromFault()
  // always ends, and activate() where it must. `awake` are the actions before it.
  method HandshakeInTime(gripper: Gripper, deadline: int, timeout: int)
    returns (result: ActivationResult, ghost ran: bool, ghost h: Handshake, ghost awake: seq<Moment>)
    requires gripper.Valid() && gripper.commander && FollowsManual(gripper.world.gripper)
    modifies gripper
    ensures gripper.Valid() && Grown(old(gripper.world), gripper.world)
    ensures old(gripper.world).Count() <= gripper.world.Count()
    ensures ran <==> HandshakeAllowed(deadline, Gap(old(gripper.world), old(gripper.script)).now, timeout)
    ensures var left := deadline - Gap(old(gripper.world), old(gripper.script)).now;
      timeout >= 0 ==> (ran <==> 2 * left >= (timeout - timeout % 2) * 1_000_000)
    ensures forall i :: 0 <= i < |awake| ==> !awake[i].sleep.Asleep?
    ensures gripper.trail == old(gripper.trail) + awake + if ran then h.Trail() else []
    ensures !ran ==> h.reset == 0 && h.back == 0
    ensures old(gripper.world.now) <= Gap(old(gripper.world), old(gripper.script)).now
    ensures !ran ==> Later(old(gripper.world), gripper.world) && !HandshakeAllowed(deadline, gripper.world.now, timeout)
    ensures result == if h.back != 0 then Activated else Timeout
    ensures InTime(gripper.trail, old(|gripper.trail|), old(gripper.Net()), old(gripper.spent), deadline)
    ensures ran ==> HandshakeOf(old(gripper.world), gripper.world, gripper.script, h) && h.Trail() != []
    ensures ran && h.back == 0 ==> Expired(h.LastWait(), old(gripper.world.now), deadline)
    ensures h.back != 0 ==> h.reset != 0 && Reactivated(gripper.world, h.reset, h.back)
    ensures gripper.world.image.command ==
      if !ran || h.reset == 0 then old(gripper.world.image.command) else ActivateBlock(old(gripper.world.image.command))
    ensures ran && h.reset != 0 ==>
      ShowsReset(old(gripper.world), gripper.world, h.reset) && NoMotionSince(gripper.world, h.reset)
  {
    hide Later, Grown, Inv, Run, Gap, Rest, Uncommanded, Reactivated, NoMotionSince, FollowsManual, ActivatesAtOnce,
      Expired, Half, ActivateBlock, Leg.Ran, Leg.Prompt, Step, ShowsReset, InTime;
    ghost var start, script, walked := gripper.world, gripper.script, gripper.trail;
    ghost var low, passed := gripper.Net(), gripper.spent;
    ghost var noLeg := Leg([], start, [], []);
    var now := gripper.Now();
    ghost var checked, script2, trail := gripper.world, gripper.script, gripper.trail;
    ghost var low', passed' := gripper.Net(), gripper.spent;
    NoSleepYet(walked, low, passed, deadline);
    StillInTime(walked, trail, |walked|, low, passed, deadline);
    LaterGrows(start, checked);
    LaterCount(start, checked);
    awake := [Moment(start, script, Awake)];
    HalfTheTimeout(deadline, now, timeout);
    if !HandshakeAllowed(deadline, now, timeout) {
      return Timeout, false, Handshake(noLeg, noLeg, 0, 0), awake;
    }
    GapOnward(true, checked, script2);
    ran := true;
    result, h := RunActivationHandshake(gripper, deadline);
    awake := awake + [Moment(checked, script2, Awake)];
    InTimeAfter(walked, trail, gripper.trail, low, passed, low', passed', deadline);
    HandshakeLater(start, checked, Gap(checked, script2), gripper.world, gripper.script, h, deadline);
  }

  lemma InTimeAfter(walked: seq<Moment>, asked: seq<Moment>, trail: seq<Moment>, low: int, spent: int, low': int,
      spent': int, deadline: int)
    requires walked < asked <= trail && |asked| == |walked| + 1 && asked[|walked|].sleep.Awake?
    requires InTime(trail, |asked|, low', spent', deadline) && low <= low' && spent <= spent'
    ensures InTime(trail, |walked|, low, spent, deadline)
  {
    assert trail[|walked|] == asked[|walked|];
  }

  lemma HandshakeLater(start: World, checked: World, asked: World, w: World, script: seq<seq<Event>>, h: Handshake,
      deadline: int)
    requires Inv(start) && Inv(checked) && Inv(w) && Later(start, checked) && Later(checked, asked) && Grown(checked, w)
    requires h.Ran(checked.image.command, w) && h.first.trail != [] && h.first.trail[0].world == asked
    requires h.reset == 0 ==> script == Rest(h.first.rest)
    requires h.back == 0 ==> Expired(h.LastWait(), checked.now, deadline)
    requires h.reset != 0 ==> ShowsReset(checked, w, h.reset)
    ensures HandshakeOf(start, w, script, h) && Grown(start, w) && start.Count() <= w.Count()
    ensures checked.image.command == start.image.command
    ensures h.back == 0 ==> Expired(h.LastWait(), start.now, deadline)
    ensures h.reset != 0 ==> ShowsReset(start, w, h.reset)
  {
    hide Handshake.Ran, Step;
    GrownTrans(start, checked, w);
    LaterGrows(start, checked);
    LaterTrans(start, checked, asked);
    LaterCount(start, checked);
    if h.back == 0 {
      ExpiredSooner(h.LastWait(), checked.now, start.now, deadline);
    }
  }

  // What comes of the handshake a procedure decides on after the exchange `seen`,
  // from its entry at `start` to its end at `w`.
  ghost predicate TriedHandshake(start: World, script: seq<seq<Event>>, w: World, rest: seq<seq<Event>>, timeout: int,
      seen: nat, h: Handshake, tail: seq<Moment>)
    requires start.pace.deadlines != []
  {
    var deadline := DeadlineOf(start, script, timeout);
    // too late for it: nothing commanded
    && (tail == [] ==>
          Later(start, w) && !HandshakeAllowed(deadline, w.now, timeout) && h.reset == 0 && h.back == 0)
    // in time: it ran
    && (tail != [] ==>
          && tail == h.Trail() && HandshakeOf(start, w, rest, h) && !TooLate(w, seen, timeout, deadline)
          && (h.back == 0 ==> Expired(h.LastWait(), start.now, deadline)))
    // what it proves of the device, and what it leaves commanded
    && (h.back != 0 ==> ReactivatedDuring(start, w, h.reset, h.back))
    && (h.reset != 0 ==> ShowsReset(start, w, h.reset) && NoMotionSince(w, h.reset))
    && w.image.command == (if h.reset == 0 then start.image.command else ActivateBlock(start.image.command))
  }

  lemma TriedInCall(start: World, script: seq<seq<Event>>, live: World, now: int, w: World, rest: seq<seq<Event>>,
      ran: bool, h: Handshake, timeout: int, tail: seq<Moment>)
    requires Inv(start) && Inv(live) && Inv(w) && Later(start, live) && Grown(live, w) && start.Count() < live.Count()
    requires live.now <= now && (ran <==> HandshakeAllowed(DeadlineOf(start, script, timeout), now, timeout))
    requires if ran then HandshakeOf(live, w, rest, h) && tail == h.Trail() && tail != []
      else Later(live, w) && h.reset == 0 && h.back == 0 && tail == []
    requires !ran ==> !HandshakeAllowed(DeadlineOf(start, script, timeout), w.now, timeout)
    requires ran && h.back == 0 ==> Expired(h.LastWait(), live.now, DeadlineOf(start, script, timeout))
    requires h.reset != 0 ==> ShowsReset(live, w, h.reset) && NoMotionSince(w, h.reset)
    requires h.back != 0 ==> h.reset != 0 && Reactivated(w, h.reset, h.back)
    requires w.image.command == if h.reset == 0 then live.image.command else ActivateBlock(live.image.command)
    ensures TriedHandshake(start, script, w, rest, timeout, live.Count(), h, tail)
    ensures Grown(start, w) && w.history[live.Count()] == live.history[live.Count()]
  {
    hide Later, Reactivated, Handshake.Ran, Gap;
    GrownTrans(start, live, w);
    LaterGrows(start, live);
    if ran {
      LaterTrans(start, live, h.first.trail[0].world);
      assert w.history[live.Count()] == live.history[live.Count()];
    } else {
      LaterTrans(start, live, w);
    }
    if h.back != 0 {
      DuringTheCall(start, live, w, h.reset);
    }
  }

  method RecoverFromFault(gripper: Gripper, timeout: int)
    returns (result: ActivationResult, ghost seen: nat, ghost h: Handshake, ghost tail: seq<Moment>)
    requires gripper.Valid() && gripper.commander && FollowsManual(gripper.world.gripper)
    modifies gripper
    ensures gripper.Valid() && Grown(old(gripper.world), gripper.world)
    ensures Began(FirstLookOf(old(gripper.world), old(gripper.script)), gripper.world, gripper.trail,
      old(|gripper.trail|), tail, seen)
    ensures InTime(gripper.trail, old(|gripper.trail|), old(gripper.Net()), old(gripper.spent),
      DeadlineOf(old(gripper.world), old(gripper.script), timeout))
    ensures result == if h.back != 0 then Activated else Timeout
    ensures seen == 0 ==> h.back == 0 && Later(old(gripper.world), gripper.world)
    ensures seen == 0 ==>
      Expired(gripper.world, old(gripper.world.now), DeadlineOf(old(gripper.world), old(gripper.script), timeout))
    ensures seen != 0 ==>
      TriedHandshake(old(gripper.world), old(gripper.script), gripper.world, gripper.script, timeout, seen, h, tail)
  {
    hide Later, Grown, Inv, Run, Gap, Rest, TwoGaps, Uncommanded, Began, TriedHandshake, HandshakeOf, ShowsReset,
      Reactivated, NoMotionSince, FollowsManual, ActivatesAtOnce, Expired, HandshakeAllowed, ActivateBlock, SleptBelow,
      InTime;
    ghost var start, script, look := gripper.world, gripper.script, FirstLookOf(gripper.world, gripper.script);
    var operational, until := AwaitFirstExchange(gripper, timeout);
    ghost var live, walked, rest := gripper.world, gripper.trail, gripper.script;
    ghost var low, passed := gripper.Net(), gripper.spent;
    LaterGrows(start, live);
    if operational.None? {
      BeganInVain(look, live, walked, old(|gripper.trail|));
      ghost var noLeg := Leg([], start, [], []);
      return Timeout, 0, Handshake(noLeg, noLeg, 0, 0), [];
    }
    seen := operational.value.exchangeCount;
    ghost var ran, awake;
    result, ran, h, awake := HandshakeInTime(gripper, until, timeout);
    InTimeBoth(walked, gripper.trail, old(|gripper.trail|), old(gripper.Net()), old(gripper.spent), low, passed, until);
    tail := if ran then h.Trail() else [];
    BeganWith(look, live, gripper.world, walked, awake, gripper.trail, old(|gripper.trail|), tail, seen);
    TriedInCall(start, script, live, Gap(live, rest).now, gripper.world, gripper.script, ran, h, timeout, tail);
  }

  // The wait for an activation already under way, from the exchange `seen` that
  // showed it on, up to the record `back` of completion or to giving up.
  ghost predicate CompletionAwaited(start: World, w: World, leg: Leg, seen: nat, back: nat) {
    && leg.Begun()
    && var begun := leg.trail[0];
    var after := TwoGaps(begun.world, begun.script);
    && begun.world.Count() == seen && Later(start, begun.world)
    && leg.over == w && Later(after, w)
    && Looked(w, after.Count(), leg.trail, 0, leg.judged, IS_COMPLETE, back != 0)
    && (back != 0 ==> back == w.Count() && w.history[back].status.State() == Complete)
  }

  lemma CompletionInCall(start: World, live: World, script: seq<seq<Event>>, walked: seq<Moment>, trail: seq<Moment>,
      w: World, leg: Leg, back: nat, deadline: int)
    requires Inv(start) && Inv(live) && Inv(w) && Later(start, live) && Later(live, w) && live.pace.deadlines != []
    requires walked < trail && leg.trail == trail[|walked|..] && leg.over == w
    requires trail[|walked|] == Moment(live, script, Awake)
    requires var after := TwoGaps(live, script);
      Later(after, w) && Looked(w, after.Count(), trail, |walked|, leg.judged, IS_COMPLETE, back != 0)
    requires back != 0 ==> live.Count() < back == w.Count() && w.history[back].status.State() == Complete
    requires back == 0 ==> Expired(w, live.now, deadline)
    ensures CompletionAwaited(start, w, leg, live.Count(), back)
    ensures Later(start, w) && Grown(start, w) && live.Count() <= w.Count()
    ensures w.image.command == start.image.command
    ensures w.history[live.Count()] == live.history[live.Count()]
    ensures back == 0 ==> Expired(w, start.now, deadline)
    ensures trail == walked + [] + leg.trail
  {
    hide TwoGaps, Looked, Inv, GripperStatus.State;
    var n := live.Count();
    StillRecorded(live, w, n);
    LookedFrom(w, TwoGaps(live, script).Count(), trail, |walked|, leg.judged, IS_COMPLETE, back != 0);
    Waited(start, live, w);
  }

  lemma StillRecorded(w: World, w': World, k: nat)
    requires Inv(w) && Later(w, w') && k <= w.Count()
    ensures k < |w'.history| && w'.history[k] == w.history[k]
  {
  }

  // An activation is under way, and nothing forbids waiting for it.
  predicate AwaitsActivation(status: GripperStatus) {
    Severity(status.FaultByte()) != Major && status.State() == InProgress
  }

  // A gripper that is neither active nor becoming so, and has no major fault.
  predicate TakesHandshake(status: GripperStatus) {
    Severity(status.FaultByte()) != Major && status.State() != Complete && status.State() != InProgress
  }

  // The whole decision activate() takes, on the first exchange it sees.
  method Activate(gripper: Gripper, timeout: int)
    returns (result: ActivationResult, ghost seen: nat, ghost h: Handshake, ghost tail: seq<Moment>)
    requires gripper.Valid() && gripper.commander && FollowsManual(gripper.world.gripper)
    modifies gripper
    ensures gripper.Valid() && Grown(old(gripper.world), gripper.world)
    ensures Began(FirstLookOf(old(gripper.world), old(gripper.script)), gripper.world, gripper.trail,
      old(|gripper.trail|), tail, seen)
    ensures InTime(gripper.trail, old(|gripper.trail|), old(gripper.Net()), old(gripper.spent),
      DeadlineOf(old(gripper.world), old(gripper.script), timeout))
    ensures seen == 0 ==> result == Timeout && Later(old(gripper.world), gripper.world)
    ensures seen == 0 ==>
      Expired(gripper.world, old(gripper.world.now), DeadlineOf(old(gripper.world), old(gripper.script), timeout))
    // refused exactly on a major fault, left alone exactly when active without one,
    // and then nothing is done or commanded
    ensures result == FaultLatched <==> seen != 0 && Severity(gripper.world.history[seen].status.FaultByte()) == Major
    ensures result == AlreadyActive <==>
      && seen != 0 && gripper.world.history[seen].status.State() == Complete
      && Severity(gripper.world.history[seen].status.FaultByte()) != Major
    ensures result == FaultLatched || result == AlreadyActive ==>
      tail == [] && Later(old(gripper.world), gripper.world) && seen == gripper.world.Count()
    // so a fault is tolerated exactly when it is neither major nor none
    ensures result == AlreadyActive && gripper.world.history[seen].status.FaultByte() != 0 <==>
      && seen != 0 && gripper.world.history[seen].status.State() == Complete
      && Tolerated(gripper.world.history[seen].status.FaultByte())
    // an activation already under way is waited for
    ensures seen != 0 && AwaitsActivation(gripper.world.history[seen].status) ==>
      && result == (if h.back != 0 then Activated else Timeout)
      && tail == h.second.trail && Later(old(gripper.world), gripper.world)
      && CompletionAwaited(old(gripper.world), gripper.world, h.second, seen, h.back)
      && (h.back == 0 ==> Expired(gripper.world, old(gripper.world.now),
            DeadlineOf(old(gripper.world), old(gripper.script), timeout)))
    // anything else takes a handshake
    ensures seen != 0 && TakesHandshake(gripper.world.history[seen].status) ==>
      && result == (if h.back != 0 then Activated else Timeout)
      && TriedHandshake(old(gripper.world), old(gripper.script), gripper.world, gripper.script, timeout, seen, h, tail)
  {
    hide Later, Grown, Inv, Run, Gap, Rest, TwoGaps, Uncommanded, Began, TriedHandshake, HandshakeOf, ShowsReset,
      Reactivated, NoMotionSince, FollowsManual, ActivatesAtOnce, Expired, HandshakeAllowed, ActivateBlock, SleptBelow,
      InTime, Looked, CompletionAwaited, Severity, Tolerated, GripperStatus.State;
    ghost var start, script, look := gripper.world, gripper.script, FirstLookOf(gripper.world, gripper.script);
    ghost var noLeg := Leg([], start, [], []);
    h, tail, seen := Handshake(noLeg, noLeg, 0, 0), [], 0;
    var operational, until := AwaitFirstExchange(gripper, timeout);
    ghost var live, walked, rest := gripper.world, gripper.trail, gripper.script;
    ghost var low, passed := gripper.Net(), gripper.spent;
    LaterGrows(start, live);
    if operational.None? {
      BeganInVain(look, live, walked, old(|gripper.trail|));
      return Timeout, seen, h, tail;
    }
    seen := operational.value.exchangeCount;
    var status := operational.value.status;
    ToleratedFaults(status.FaultByte());
    if Severity(status.FaultByte()) == Major {
      BeganWith(look, live, live, walked, [], walked, old(|gripper.trail|), [], seen);
      return FaultLatched, seen, h, tail;
    }
    if status.State() == Complete {
      BeganWith(look, live, live, walked, [], walked, old(|gripper.trail|), [], seen);
      return AlreadyActive, seen, h, tail;
    }
    if status.State() == InProgress {
      ghost var back, judged;
      result, back, judged := WaitForActivationComplete(gripper, until);
      tail := gripper.trail[|walked|..];
      h := Handshake(noLeg, Leg(tail, gripper.world, gripper.script, judged), 0, back);
      InTimeBoth(walked, gripper.trail, old(|gripper.trail|), old(gripper.Net()), old(gripper.spent), low, passed,
        until);
      CompletionInCall(start, live, rest, walked, gripper.trail, gripper.world, h.second, back, until);
      BeganWith(look, live, gripper.world, walked, [], gripper.trail, old(|gripper.trail|), tail, seen);
      return result, seen, h, tail;
    }
    ghost var ran, awake;
    result, ran, h, awake := HandshakeInTime(gripper, until, timeout);
    InTimeBoth(walked, gripper.trail, old(|gripper.trail|), old(gripper.Net()), old(gripper.spent), low, passed, until);
    tail := if ran then h.Trail() else [];
    BeganWith(look, live, gripper.world, walked, awake, gripper.trail, old(|gripper.trail|), tail, seen);
    TriedInCall(start, script, live, Gap(live, rest).now, gripper.world, gripper.script, ran, h, timeout, tail);
  }
}
