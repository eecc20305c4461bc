// The exchange recorder: one row for each exchange it sees, one warning for
// each stretch it falls behind.
module Recorder {
  import opened ProcessImage
  import opened ExchangeCycle
  import opened Carriage
  import opened Waits

  const CYCLE_TIMEOUT := 500

  // What the run leaves behind, in order: rows of the file, and the warnings
  // that name the exchanges not logged.
  datatype Entry =
    | Row(exchange: StampedExchange)
    | FellBehind(first: nat, last: nat)

  function First(e: Entry): nat { if e.Row? then e.exchange.exchangeCount else e.first }
  function Last(e: Entry): nat { if e.Row? then e.exchange.exchangeCount else e.last }

  predicate Covers(e: Entry, count: nat) { First(e) <= count <= Last(e) }

  // The entries take the counts above `start` up to `end`, each beginning right
  // after the one before.
  ghost predicate Tiles(start: nat, log: seq<Entry>, end: nat) {
    if log == [] then start == end
    else
      var entry := log[|log| - 1];
      First(entry) <= Last(entry) == end && First(entry) > start && Tiles(start, log[..|log| - 1], First(entry) - 1)
  }

  function RowsIn(log: seq<Entry>): nat {
    if log == [] then 0 else RowsIn(log[..|log| - 1]) + if log[|log| - 1].Row? then 1 else 0
  }

  // The exchanges inside reported gaps.
  function SkippedIn(log: seq<Entry>): int {
    if log == [] then 0
    else
      var entry := log[|log| - 1];
      SkippedIn(log[..|log| - 1]) + if entry.Row? then 0 else entry.last - entry.first + 1
  }

  // Nothing is lost and nothing counted twice.
  lemma {:induction false} Conservation(start: nat, log: seq<Entry>, end: nat)
    requires Tiles(start, log, end)
    ensures RowsIn(log) + SkippedIn(log) == end - start
  {
    if log != [] {
      Conservation(start, log[..|log| - 1], First(log[|log| - 1]) - 1);
    }
  }

  // Entries come in the order of their counts; so row counts strictly increase.
  lemma {:induction false} InCountOrder(start: nat, log: seq<Entry>, end: nat, i: nat, j: nat)
    requires Tiles(start, log, end) && i < j < |log|
    ensures start < First(log[i]) <= Last(log[i]) < First(log[j]) <= Last(log[j]) <= end
    ensures log[i].Row? && log[j].Row? ==> log[i].exchange.exchangeCount < log[j].exchange.exchangeCount
  {
    var last := |log| - 1;
    if j < last {
      InCountOrder(start, log[..last], First(log[last]) - 1, i, j);
    } else {
      Within(start, log[..last], First(log[last]) - 1, i);
    }
  }

  lemma {:induction false} Within(start: nat, log: seq<Entry>, end: nat, i: nat)
    requires Tiles(start, log, end) && i < |log|
    ensures start < First(log[i]) <= Last(log[i]) <= end
  {
    var last := |log| - 1;
    if i < last {
      Within(start, log[..last], First(log[last]) - 1, i);
    }
  }

  // Every exchange between the start and the end is a row or inside a reported
  // gap, and in exactly one of them.
  lemma {:induction false} ExactlyOne(start: nat, log: seq<Entry>, end: nat, count: nat) returns (i: nat)
    requires Tiles(start, log, end) && start < count <= end
    ensures i < |log| && Covers(log[i], count)
    ensures forall j :: 0 <= j < |log| && Covers(log[j], count) ==> j == i
  {
    var last := |log| - 1;
    if count >= First(log[last]) {
      i := last;
    } else {
      i := ExactlyOne(start, log[..last], First(log[last]) - 1, count);
    }
    forall j | 0 <= j < |log| && Covers(log[j], count) ensures j == i {
      if i < j {
        InCountOrder(start, log, end, i, j);
      } else if j < i {
        InCountOrder(start, log, end, j, i);
      }
    }
  }

  // Every row is the record published under its count.
  ghost predicate Faithful(w: World, log: seq<Entry>) {
    forall i :: 0 <= i < |log| && log[i].Row? ==>
      log[i].exchange.exchangeCount < |w.history| && log[i].exchange == w.history[log[i].exchange.exchangeCount]
  }

  lemma Advanced(commander: bool, w: World, w': World, log: seq<Entry>)
    requires Onward(commander, w, w') && Inv(w) && Inv(w')
    ensures w.Count() <= w'.Count()
    ensures Faithful(w, log) ==> Faithful(w', log)
  {
  }

  lemma StaysClosed(commander: bool, w: World, w': World)
    requires Onward(commander, w, w')
    ensures w.now <= w'.now && (w.image.closed ==> w'.image.closed)
  {
  }

  lemma NothingLogged(w: World, start: nat)
    ensures Faithful(w, []) && Tiles(start, [], start) && RowsIn([]) == 0 && SkippedIn([]) == 0
  {
  }

  lemma FaithfulGrows(w: World, log: seq<Entry>, log': seq<Entry>)
    requires Inv(w) && Faithful(w, log) && log < log' && log'[|log'| - 1] == Row(w.image.stamped)
    requires forall i :: |log| <= i < |log'| - 1 ==> log'[i].FellBehind?
    ensures Faithful(w, log')
  {
    forall i | 0 <= i < |log'| && log'[i].Row?
      ensures log'[i].exchange.exchangeCount < |w.history|
      ensures log'[i].exchange == w.history[log'[i].exchange.exchangeCount]
    {
      if i < |log| {
        assert log'[i] == log[i];
      }
    }
  }

  lemma TilesOne(start: nat, log: seq<Entry>, end: nat, entry: Entry)
    requires Tiles(start, log, end) && start <= end && First(entry) == end + 1 && First(entry) <= Last(entry)
    ensures Tiles(start, log + [entry], Last(entry))
    ensures RowsIn(log + [entry]) == RowsIn(log) + if entry.Row? then 1 else 0
    ensures SkippedIn(log + [entry]) == SkippedIn(log) + if entry.Row? then 0 else entry.last - entry.first + 1
  {
    assert (log + [entry])[..|log + [entry]| - 1] == log;
  }

  class Recorder {
    const gripper: Gripper
    var log: seq<Entry>
    var rows: nat
    var skipped: nat
    var writeFailed: bool

    constructor (g: Gripper)
      ensures gripper == g && log == [] && rows == 0 && skipped == 0 && !writeFailed
    {
      gripper, log, rows, skipped, writeFailed := g, [], 0, 0, false;
    }

    // A record that landed: what was missed since `written` is reported, the
    // record becomes a row, and the row counts if the file is still good.
    method Take(exchange: StampedExchange, written: nat, good: bool, ghost start: nat)
      requires exchange.exchangeCount > written >= start && Tiles(start, log, written)
      modifies this
      ensures Tiles(start, log, exchange.exchangeCount) && old(log) < log && log[|log| - 1] == Row(exchange)
      ensures forall i :: |old(log)| <= i < |log| - 1 ==> log[i].FellBehind?
      ensures RowsIn(log) == RowsIn(old(log)) + 1
      ensures SkippedIn(log) - skipped == old(SkippedIn(log) - skipped)
      ensures rows == old(rows) + if good then 1 else 0
      ensures writeFailed == (old(writeFailed) || !good)
    {
      hide Tiles, RowsIn, SkippedIn;
      var count := exchange.exchangeCount;
      if count != written + 1 {
        TilesOne(start, log, written, FellBehind(written + 1, count - 1));
        skipped := skipped + (count - written - 1);
        log := log + [FellBehind(written + 1, count - 1)];
      }
      TilesOne(start, log, count - 1, Row(exchange));
      log := log + [Row(exchange)];
      if !good {
        writeFailed := true;
        return;
      }
      rows := rows + 1;
    }

    // The recording thread. `stops` is what each look at the stop flag sees and
    // `writes` whether the file is still good after each row; both are anything.
    // It looks `looks` times at a flag that is clear, and `vain` of the waits that
    // follow end with nothing new, each after its whole timeout unless the image
    // is closed. Whenever it stops, nothing has completed that it did not take.
    method Run(stops: seq<bool>, writes: seq<bool>)
      returns (start: nat, written: nat, ghost looks: nat, ghost vain: nat)
      requires gripper.Valid() && log == [] && rows == 0 && skipped == 0 && !writeFailed
      modifies this, gripper
      ensures gripper.Valid() && Onward(gripper.commander, old(gripper.world), gripper.world)
      ensures old(gripper.world.Count()) <= start <= written == gripper.world.Count()
      ensures Tiles(start, log, written) && Faithful(gripper.world, log)
      ensures skipped == SkippedIn(log)
      ensures rows == RowsIn(log) - if writeFailed then 1 else 0
      ensures rows + skipped == written - start - if writeFailed then 1 else 0
      ensures forall k :: 0 <= k < rows && k < |writes| ==> writes[k]
      ensures writeFailed ==> rows < |writes| && !writes[rows]
      // why it ended, and what became of each look
      ensures looks <= |stops| && forall i :: 0 <= i < looks ==> !stops[i]
      ensures writeFailed || looks == |stops| || stops[looks]
      ensures rows + vain + (if writeFailed then 1 else 0) == looks
      ensures gripper.world.image.closed || gripper.world.now >= old(gripper.world.now) + vain * 500_000_000
    {
      hide Onward, Later, Grown, SleptBelow, SleptWithin, Tiles, RowsIn, SkippedIn, Inv, Faithful, Capped, Uncommanded,
        TotalEvents, Gap, Rest, Gripper.Valid, Gripper.Reach;
      gripper.Holds();
      var recent := gripper.GetMostRecentStampedExchange();
      start, written := recent.exchangeCount, recent.exchangeCount;
      gripper.Holds();
      Advanced(gripper.commander, old(gripper.world), gripper.world, log);
      NothingLogged(gripper.world, start);
      var look := 0;
      looks, vain := 0, 0;
      while look < |stops| && !stops[look]
        invariant gripper.Valid() && Onward(gripper.commander, old(gripper.world), gripper.world)
        invariant old(gripper.world.Count()) <= start <= written == gripper.world.Count()
        invariant Tiles(start, log, written) && Faithful(gripper.world, log)
        invariant skipped == SkippedIn(log) && rows == RowsIn(log) && !writeFailed
        invariant forall k :: 0 <= k < rows && k < |writes| ==> writes[k]
        invariant looks == look <= |stops| && forall i :: 0 <= i < looks ==> !stops[i]
        invariant rows + vain == looks
        invariant gripper.world.image.closed || gripper.world.now >= old(gripper.world.now) + vain * 500_000_000
      {
        look, looks := look + 1, looks + 1;
        ghost var before, logged := gripper.world, log;
        gripper.Holds();
        var exchange := gripper.WaitForExchangeCount(written + 1, CYCLE_TIMEOUT);
        gripper.Holds();
          Advanced(gripper.commander, before, gripper.world, log);
        OnwardTrans(gripper.commander, old(gripper.world), before, gripper.world);
        StaysClosed(gripper.commander, before, gripper.world);
        if exchange.None? {
          vain := vain + 1;
          continue;
        }
        var good := rows < |writes| ==> writes[rows];
        Take(exchange.value, written, good, start);
        FaithfulGrows(gripper.world, logged, log);
        written := exchange.value.exchangeCount;
        if writeFailed {
          break;
        }
      }
      Conservation(start, log, written);
    }
  }
}
