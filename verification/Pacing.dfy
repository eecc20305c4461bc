// The pacing of the exchange loop: when cycles start, and the deadlines they
// start by.
module Pacing {
  function Max(a: int, b: int): int { if a > b then a else b }

  // deadlines[i] is the time the i-th cycle may start (deadlines[0] is when the
  // thread began), starts[i] when it did, ends[i] when its work was over and
  // the next deadline was computed.
  datatype Pace = Pace(period: nat, deadlines: seq<int>, starts: seq<int>, ends: seq<int>) {
    function Begin(now: int): Pace {
      this.(starts := starts + [now])
    }

    function Finish(now: int): Pace
      requires deadlines != []
    {
      this.(ends := ends + [now], deadlines := deadlines + [Max(deadlines[|deadlines| - 1] + period, now)])
    }
  }

  function Opened(period: nat, now: int): Pace { Pace(period, [now], [], []) }

  // No cycle starts before its deadline, and each deadline is the later of one
  // period after the last and the moment the last cycle was over.
  ghost predicate Paced(p: Pace) {
    && |p.deadlines| == |p.ends| + 1
    && |p.ends| <= |p.starts| <= |p.deadlines|
    && (forall i :: 0 <= i < |p.starts| ==> p.deadlines[i] <= p.starts[i])
    && (forall i :: 0 <= i < |p.ends| ==> p.starts[i] <= p.ends[i])
    && (forall i :: 0 <= i < |p.ends| ==> p.deadlines[i + 1] == Max(p.deadlines[i] + p.period, p.ends[i]))
  }

  lemma BeginKeepsPaced(p: Pace, now: int)
    requires Paced(p) && |p.starts| == |p.ends| && now >= p.deadlines[|p.starts|]
    ensures Paced(p.Begin(now))
  {
  }

  lemma FinishKeepsPaced(p: Pace, now: int)
    requires Paced(p) && |p.starts| == |p.ends| + 1 && now >= p.starts[|p.ends|]
    ensures Paced(p.Finish(now))
  {
  }

  lemma {:induction false} DeadlinesApart(p: Pace, i: nat, j: nat)
    requires Paced(p) && i <= j < |p.deadlines|
    ensures p.deadlines[j] >= p.deadlines[i] + (j - i) * p.period
    decreases j - i
  {
    if i < j {
      DeadlinesApart(p, i, j - 1);
      assert p.deadlines[j - 1 + 1] >= p.deadlines[j - 1] + p.period;
      assert (j - i) * p.period == (j - 1 - i) * p.period + p.period;
    }
  }

  // Two starts are at least their distance less one, in periods, apart.
  lemma StartsApart(p: Pace, i: nat, j: nat)
    requires Paced(p) && i < j < |p.starts|
    ensures p.starts[j] >= p.starts[i] + (j - i - 1) * p.period
  {
    assert p.deadlines[i + 1] >= p.ends[i] >= p.starts[i];
    DeadlinesApart(p, i + 1, j);
  }

  ghost function StartsWithin(p: Pace, from: int, length: nat): set<int> {
    set i | 0 <= i < |p.starts| && from <= p.starts[i] <= from + length
  }

  // No burst: whatever the exchanges and the sleeps took, no window of the
  // given length holds more than length / period + 2 cycle starts.
  lemma NoBurst(p: Pace, from: int, length: nat)
    requires Paced(p) && p.period > 0
    ensures |StartsWithin(p, from, length)| <= length / p.period + 2
  {
    var inside := StartsWithin(p, from, length);
    if inside != {} {
      var a, b := Extremes(inside);
      if a < b {
        StartsApart(p, a, b);
        Quotient(b - a - 1, p.period, length);
      } else {
        Quotient(0, p.period, length);
      }
      WithinInterval(inside, a, b);
    }
  }

  lemma Quotient(n: nat, period: nat, length: nat)
    requires period > 0 && n * period <= length
    ensures n <= length / period
  {
    var q := length / period;
    assert length == q * period + length % period;
    if n > q {
      Monotone(q + 1, n, period);
      assert false;
    }
  }

  lemma Monotone(a: nat, b: nat, period: nat)
    requires a <= b
    ensures a * period <= b * period
  {
    assert b * period == a * period + (b - a) * period;
  }

  lemma Inhabited(s: set<int>)
    ensures s == {} || exists x :: x in s
  {
    if forall x :: x !in s {
      assert s == {};
    }
  }

  lemma {:induction false} Extremes(s: set<int>) returns (least: int, greatest: int)
    requires s != {}
    ensures least in s && greatest in s && forall x :: x in s ==> least <= x <= greatest
    decreases |s|
  {
    Inhabited(s);
    var x :| x in s;
    if s == {x} {
      return x, x;
    }
    var l, g := Extremes(s - {x});
    least, greatest := if x < l then x else l, if x > g then x else g;
    assert s == {x} + (s - {x});
  }

  lemma {:induction false} WithinInterval(s: set<int>, a: int, b: int)
    requires forall x :: x in s ==> a <= x <= b
    ensures |s| <= Max(0, b - a + 1)
    decreases Max(0, b - a + 1)
  {
    Inhabited(s);
    if s != {} {
      var x :| x in s;
      WithinInterval(s - {b}, a, b - 1);
    }
  }

  // No drift: the deadlines stay on the grid the thread started exactly when
  // every cycle was over by its next grid deadline.
  lemma {:induction false} NoDrift(p: Pace)
    requires Paced(p)
    ensures (forall i :: 0 <= i < |p.deadlines| ==> p.deadlines[i] == p.deadlines[0] + i * p.period)
       <==> (forall i :: 0 <= i < |p.ends| ==> p.ends[i] <= p.deadlines[0] + (i + 1) * p.period)
  {
    if forall i :: 0 <= i < |p.deadlines| ==> p.deadlines[i] == p.deadlines[0] + i * p.period {
      forall i | 0 <= i < |p.ends| ensures p.ends[i] <= p.deadlines[0] + (i + 1) * p.period {
        assert p.deadlines[i + 1] == p.deadlines[0] + (i + 1) * p.period;
      }
    }
    if forall i :: 0 <= i < |p.ends| ==> p.ends[i] <= p.deadlines[0] + (i + 1) * p.period {
      forall i | 0 <= i < |p.deadlines| ensures p.deadlines[i] == p.deadlines[0] + i * p.period {
        OnGrid(p, i);
      }
    }
  }

  lemma {:induction false} OnGrid(p: Pace, i: nat)
    requires Paced(p) && i < |p.deadlines|
    requires forall k :: 0 <= k < |p.ends| ==> p.ends[k] <= p.deadlines[0] + (k + 1) * p.period
    ensures p.deadlines[i] == p.deadlines[0] + i * p.period
  {
    if i > 0 {
      OnGrid(p, i - 1);
      var k := i - 1;
      assert p.deadlines[k + 1] == Max(p.deadlines[k] + p.period, p.ends[k]);
      assert (k + 1) * p.period == k * p.period + p.period;
    }
  }
}
