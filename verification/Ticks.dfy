// Durations to kernel ticks on ThreadX, in 64-bit integers: the newtype makes
// Dafny check that no intermediate leaves them.
module Ticks {
  newtype Count = x: int | -0x8000_0000_0000_0000 <= x < 0x8000_0000_0000_0000
  newtype Ulong = x: int | 0 <= x < 0x1_0000_0000

  const NS_PER_SECOND: Count := 1_000_000_000
  const MAX_TICKS: Count := 0xFFFF_FFFE

  // The longest duration that is not cut short.
  function MaxNs(perSecond: Count): (ns: Count)
    requires perSecond >= 1
    ensures 0 <= ns as int * perSecond as int <= MAX_TICKS as int * NS_PER_SECOND as int
    ensures MAX_TICKS as int * NS_PER_SECOND as int < (ns as int + 1) * perSecond as int
    ensures ns > 0 <==> perSecond <= MAX_TICKS * NS_PER_SECOND
  {
    Quotient((MAX_TICKS * NS_PER_SECOND) as int, perSecond as int);
    MAX_TICKS * NS_PER_SECOND / perSecond
  }

  lemma Quotient(a: int, b: int)
    requires a >= 0 && b >= 1
    ensures 0 <= a / b * b <= a < (a / b + 1) * b
    ensures 0 <= a / b <= a
    ensures a / b > 0 <==> b <= a
  {
    assert a == a / b * b + a % b;
    if a / b > 0 {
      assert a / b * b >= b;
    }
  }

  lemma Product(x: int, y: int, b: int)
    requires x <= y && b >= 0
    ensures x * b <= y * b
  {
  }

  function BlockingTicks(duration: Count, perSecond: Count): (ticks: Ulong)
    requires perSecond >= 1
    ensures ticks < 0xFFFF_FFFF
  {
    if duration <= 0 then 0 else
    var ns := if duration < MaxNs(perSecond) then duration else MaxNs(perSecond);
    Product(0, ns as int, perSecond as int);
    Product(ns as int, MaxNs(perSecond) as int, perSecond as int);
    ((ns * perSecond + NS_PER_SECOND - 1) / NS_PER_SECOND) as Ulong
  }

  // So many ticks last at least so long.
  predicate Lasts(ticks: int, duration: Count, perSecond: Count) {
    ticks * 1_000_000_000 >= duration as int * perSecond as int
  }

  // What the function computes, for a positive duration.
  lemma TicksOf(duration: Count, perSecond: Count)
    requires perSecond >= 1 && duration > 0
    ensures
      var ns := if duration < MaxNs(perSecond) then duration else MaxNs(perSecond);
      var ticks := BlockingTicks(duration, perSecond) as int;
      (ticks - 1) * NS_PER_SECOND as int < ns as int * perSecond as int <= ticks * NS_PER_SECOND as int
  {
  }

  // No finite number of ticks short of waiting forever lasts as long exactly
  // when the duration is beyond the longest one.
  lemma CutShortExactlyWhenTooLong(duration: Count, perSecond: Count)
    requires perSecond >= 1
    ensures Lasts(0xFFFF_FFFE, duration, perSecond) <==> duration <= MaxNs(perSecond)
  {
    if duration <= MaxNs(perSecond) {
      Product(duration as int, MaxNs(perSecond) as int, perSecond as int);
    } else {
      Product(MaxNs(perSecond) as int + 1, duration as int, perSecond as int);
    }
  }

  // The least number of ticks that lasts the whole duration, whenever a finite
  // wait can.
  lemma LeastThatLasts(duration: Count, perSecond: Count, fewer: nat)
    requires perSecond >= 1 && Lasts(0xFFFF_FFFE, duration, perSecond)
    ensures Lasts(BlockingTicks(duration, perSecond) as int, duration, perSecond)
    ensures fewer < BlockingTicks(duration, perSecond) as int ==> !Lasts(fewer, duration, perSecond)
  {
    CutShortExactlyWhenTooLong(duration, perSecond);
    if duration > 0 {
      TicksOf(duration, perSecond);
    } else {
      Product(duration as int, 0, perSecond as int);
    }
  }

  // A longer duration falls short of the longest finite wait by less than one
  // nanosecond's worth of ticks; so, up to one tick a nanosecond, by none.
  lemma SaturatesAtTheTop(duration: Count, perSecond: Count)
    requires perSecond >= 1 && !Lasts(0xFFFF_FFFE, duration, perSecond)
    ensures var short := 0xFFFF_FFFE - BlockingTicks(duration, perSecond) as int;
      0 <= short * 1_000_000_000 < perSecond as int
    ensures perSecond <= 1_000_000_000 ==> BlockingTicks(duration, perSecond) == 0xFFFF_FFFE
  {
    CutShortExactlyWhenTooLong(duration, perSecond);
    TicksOf(duration, perSecond);
  }

  lemma Monotone(shorter: Count, longer: Count, perSecond: Count)
    requires perSecond >= 1 && shorter <= longer
    ensures BlockingTicks(shorter, perSecond) <= BlockingTicks(longer, perSecond)
  {
    if shorter > 0 {
      TicksOf(shorter, perSecond);
      TicksOf(longer, perSecond);
      var max := MaxNs(perSecond);
      Product((if shorter < max then shorter else max) as int, (if longer < max then longer else max) as int,
          perSecond as int);
    }
  }

  // "Zero exactly when there is nothing left to wait for" holds for every
  // duration if and only if the tick rate leaves the longest duration at least
  // one nanosecond; every 32-bit rate does.
  lemma ZeroMeansNothingLeft(perSecond: Count)
    requires perSecond >= 1
    ensures (forall duration: Count :: BlockingTicks(duration, perSecond) == 0 <==> duration <= 0) <==>
            perSecond as int <= 0xFFFF_FFFE * 1_000_000_000
  {
    hide BlockingTicks;
    if perSecond <= MAX_TICKS * NS_PER_SECOND {
      forall duration: Count ensures BlockingTicks(duration, perSecond) == 0 <==> duration <= 0 {
        ZeroAt(duration, perSecond);
      }
    } else {
      ZeroAt(1, perSecond);
    }
  }

  // For one duration.
  lemma ZeroAt(duration: Count, perSecond: Count)
    requires perSecond >= 1
    ensures BlockingTicks(duration, perSecond) == 0 <==> duration <= 0 || perSecond > MAX_TICKS * NS_PER_SECOND
  {
    if duration > 0 {
      TicksOf(duration, perSecond);
      if perSecond <= MAX_TICKS * NS_PER_SECOND {
        Product(1, (if duration < MaxNs(perSecond) then duration else MaxNs(perSecond)) as int, perSecond as int);
      }
    }
  }

  // The concrete input that shows it failing: one nanosecond left, at a rate of
  // 2^63 - 1 ticks a second.
  lemma AbsurdRateRoundsToNothing()
    ensures BlockingTicks(1, 0x7FFF_FFFF_FFFF_FFFF) == 0
  {
    assert MaxNs(0x7FFF_FFFF_FFFF_FFFF) == 0;
  }
}
