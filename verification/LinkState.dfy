// The link state machine: a wrapping failure counter, the connection state and
// the two log lines that announce its turns.
module LinkState {
  const FAULT_THRESHOLD := 3
  const COUNTER_RANGE := 0x1_0000_0000

  datatype ConnectionState = Connecting | Operational | Faulted
  datatype Line = LinkFaulted | LinkRecovered

  // `attempts` (true for an answered one) and `lines` are history.
  datatype Link = Link(failures: nat, state: ConnectionState, attempts: seq<bool>, lines: seq<Line>) {
    // The catch block: count, degrade at the threshold, announce the turn.
    function Fail(): Link {
      var counted := (failures + 1) % COUNTER_RANGE;
      var turns := counted >= FAULT_THRESHOLD && state != Faulted;
      Link(
        counted,
        if counted >= FAULT_THRESHOLD then Faulted else state,
        attempts + [false],
        if turns then lines + [LinkFaulted] else lines)
    }

    // The success path, one atomic access at a time.
    function Clear(): Link { this.(failures := 0) }

    function Turn(): Link { this.(state := Operational, attempts := attempts + [true]) }

    predicate Recovers() { state == Faulted }

    function Announce(recovered: bool): Link {
      if recovered then this.(lines := lines + [LinkRecovered]) else this
    }

    function Succeed(): Link { Clear().Turn().Announce(Clear().Recovers()) }
  }

  function Connected(): Link { Link(0, Operational, [], []) }

  // How many of the latest attempts failed in a row.
  function TrailingFailures(attempts: seq<bool>): nat {
    if attempts == [] || attempts[|attempts| - 1] then 0
    else 1 + TrailingFailures(attempts[..|attempts| - 1])
  }

  predicate Alternating(lines: seq<Line>) {
    forall i :: 0 <= i < |lines| ==> lines[i] == if i % 2 == 0 then LinkFaulted else LinkRecovered
  }

  // What holds between two cycles.
  predicate Settled(l: Link) {
    && l.failures == TrailingFailures(l.attempts) % COUNTER_RANGE
    && l.state == (if TrailingFailures(l.attempts) >= FAULT_THRESHOLD then Faulted else Operational)
    && Alternating(l.lines)
    && (|l.lines| % 2 == 1 <==> l.state == Faulted)
  }

  lemma FailKeepsSettled(l: Link)
    requires Settled(l)
    ensures Settled(l.Fail())
  {
    var n := TrailingFailures(l.attempts);
    assert l.Fail().attempts[..|l.attempts|] == l.attempts;
    assert TrailingFailures(l.Fail().attempts) == n + 1;
    assert (n % COUNTER_RANGE + 1) % COUNTER_RANGE == (n + 1) % COUNTER_RANGE;
    assert n < FAULT_THRESHOLD ==> n % COUNTER_RANGE == n;
  }

  lemma SucceedKeepsSettled(l: Link)
    requires Settled(l)
    ensures Settled(l.Succeed())
    ensures l.Clear().Turn().state == Operational
  {
  }

  function After(outcomes: seq<bool>): Link {
    if outcomes == [] then Connected()
    else
      var before := After(outcomes[..|outcomes| - 1]);
      if outcomes[|outcomes| - 1] then before.Succeed() else before.Fail()
  }

  lemma {:induction false} AlwaysSettled(outcomes: seq<bool>)
    ensures Settled(After(outcomes)) && After(outcomes).attempts == outcomes
    ensures After(outcomes).failures == TrailingFailures(outcomes) % 4_294_967_296
  {
    if outcomes != [] {
      var before := outcomes[..|outcomes| - 1];
      AlwaysSettled(before);
      hide Link.Fail, Link.Succeed;
      FailKeepsSettled(After(before));
      SucceedKeepsSettled(After(before));
      assert outcomes == before + [outcomes[|outcomes| - 1]];
    }
  }

  // Over every run, through every wrap of the 32-bit counter: the state is
  // Faulted exactly when the last three or more attempts all failed, and the
  // two log lines alternate, starting with the fault.
  lemma FaultedExactlyOnThreeFailures(outcomes: seq<bool>)
    ensures var l := After(outcomes);
      && (l.state == Faulted <==> |outcomes| >= 3 && forall i :: |outcomes| - 3 <= i < |outcomes| ==> !outcomes[i])
      && Alternating(l.lines) && (|l.lines| % 2 == 1 <==> l.state == Faulted)
  {
    AlwaysSettled(outcomes);
    ThreeTrailing(outcomes);
  }

  lemma ThreeTrailing(attempts: seq<bool>)
    ensures TrailingFailures(attempts) >= 3 <==>
      |attempts| >= 3 && forall i :: |attempts| - 3 <= i < |attempts| ==> !attempts[i]
  {
    var n := |attempts|;
    if n >= 3 {
      var a, b := attempts[..n - 1], attempts[..n - 2];
      assert a[..n - 2] == b && b[..n - 3] == attempts[..n - 3];
      assert a[n - 2] == attempts[n - 2] && b[n - 3] == attempts[n - 3];
      if !attempts[n - 1] && !attempts[n - 2] && !attempts[n - 3] {
        assert TrailingFailures(b) >= 1;
      }
    } else {
      ShortTrailing(attempts);
    }
  }

  lemma ShortTrailing(attempts: seq<bool>)
    ensures TrailingFailures(attempts) <= |attempts|
  {
  }
}
