// A condition variable made of a semaphore and an atomic counter, under the wait
// loop of sync() and the notification of publish() and close(), one kernel call
// or atomic access a step.
module ThreadXCondition {
  // A sync() call, waiting for a count past `target`.
  datatype Waiter =
    | Idle
    | Locking(target: nat)
    | Checking(target: nat) // holds the mutex
    | Registered(target: nat) // holds the mutex, counted
    | Getting(target: nat) // mutex released, at tx_semaphore_get
    | Got(target: nat) // the get returned, still counted
    | Relocking(target: nat)

  // A publish() or close() call.
  datatype Notifier =
    | Resting
    | AtMutex(closing: bool)
    | Inside(closing: bool)
    | Unlocked // between its unlock and its load of the waiter count
    | Putting(pending: nat)

  datatype State = State(
    owner: int, // -1 free, a waiter's index, or the number of waiters plus a notifier's
    count: nat, closed: bool,
    counted: int, // _waiters
    tokens: nat, // the semaphore
    put: nat, taken: nat, // tokens ever put and ever taken
    waiters: seq<Waiter>, notifiers: seq<Notifier>)

  datatype Move =
    | Ask(i: nat, target: nat)
    | Wait(i: nat)
    | TimeOut(i: nat)
    | Notify(j: nat, closing: bool)
    | Tell(j: nat)

  function Start(waiters: nat, notifiers: nat): State {
    State(-1, 0, false, 0, 0, 0, 0, seq(waiters, _ => Idle), seq(notifiers, _ => Resting))
  }

  function SetWaiter(s: State, i: nat, w: Waiter): State
    requires i < |s.waiters|
  {
    s.(waiters := s.waiters[i := w])
  }

  function SetNotifier(s: State, j: nat, n: Notifier): State
    requires j < |s.notifiers|
  {
    s.(notifiers := s.notifiers[j := n])
  }

  predicate Met(s: State, target: nat) { s.count > target || s.closed }

  function WaiterStep(s: State, i: nat): State
    requires i < |s.waiters|
  {
    match s.waiters[i]
    case Idle => s
    case Locking(c) => if s.owner == -1 then SetWaiter(s.(owner := i), i, Checking(c)) else s
    case Checking(c) =>
      if Met(s, c) then SetWaiter(s.(owner := -1), i, Idle)
      else SetWaiter(s.(counted := s.counted + 1), i, Registered(c))
    case Registered(c) => SetWaiter(s.(owner := -1), i, Getting(c))
    case Getting(c) =>
      if s.tokens > 0 then SetWaiter(s.(tokens := s.tokens - 1, taken := s.taken + 1), i, Got(c)) else s
    case Got(c) => SetWaiter(s.(counted := s.counted - 1), i, Relocking(c))
    case Relocking(c) => if s.owner == -1 then SetWaiter(s.(owner := i), i, Checking(c)) else s
  }

  function NotifierStep(s: State, j: nat): State
    requires j < |s.notifiers|
  {
    match s.notifiers[j]
    case Resting => s
    case AtMutex(closing) => if s.owner == -1 then SetNotifier(s.(owner := |s.waiters| + j), j, Inside(closing)) else s
    case Inside(closing) =>
      var s' := if closing then s.(closed := true) else s.(count := s.count + 1);
      SetNotifier(s'.(owner := -1), j, Unlocked)
    case Unlocked => SetNotifier(s, j, Putting(if s.counted > 0 then s.counted else 0))
    case Putting(pending) =>
      if pending > 0 then SetNotifier(s.(tokens := s.tokens + 1, put := s.put + 1), j, Putting(pending - 1))
      else SetNotifier(s, j, Resting)
  }

  function Step(s: State, m: Move): State {
    match m
    case Ask(i, target) => if i < |s.waiters| && s.waiters[i].Idle? then SetWaiter(s, i, Locking(target)) else s
    case Wait(i) => if i < |s.waiters| then WaiterStep(s, i) else s
    case TimeOut(i) => // the kernel's timeout, or the deadline seen by the loop
      if i < |s.waiters| && s.waiters[i].Getting? then SetWaiter(s, i, Got(s.waiters[i].target))
      else if i < |s.waiters| && s.waiters[i].Checking? then SetWaiter(s.(owner := -1), i, Idle)
      else s
    case Notify(j, closing) =>
      if j < |s.notifiers| && s.notifiers[j].Resting? then SetNotifier(s, j, AtMutex(closing)) else s
    case Tell(j) => if j < |s.notifiers| then NotifierStep(s, j) else s
  }

  function Run(s: State, moves: seq<Move>): State {
    if moves == [] then s else Step(Run(s, moves[..|moves| - 1]), moves[|moves| - 1])
  }

  // What a call does inside the mutex: a publish counts one more, a close closes;
  // a wait returns when its count is reached or the image is closed, else it
  // registers before it lets the mutex go.
  lemma InsideTheMutex(s: State, i: nat, j: nat)
    ensures j < |s.notifiers| && s.notifiers[j].Inside? ==>
      var s' := Step(s, Tell(j));
      && s'.owner == -1 && s'.notifiers == s.notifiers[j := Unlocked] && s'.waiters == s.waiters
      && s'.count == (if s.notifiers[j].closing then s.count else s.count + 1)
      && s'.closed == (s.notifiers[j].closing || s.closed)
    ensures i < |s.waiters| && s.waiters[i].Checking? ==>
      var s' := Step(s, Wait(i));
      if s.count > s.waiters[i].target || s.closed then s'.owner == -1 && s'.waiters == s.waiters[i := Idle]
      else
        && s'.owner == s.owner && s'.counted == s.counted + 1
        && s'.waiters == s.waiters[i := Registered(s.waiters[i].target)]
  {
  }

  // ----- Token accounting -----

  predicate IsCounted(w: Waiter) { w.Registered? || w.Getting? || w.Got? }

  function CountedIn(ws: seq<Waiter>): nat {
    if ws == [] then 0
    else CountedIn(ws[..|ws| - 1]) + if IsCounted(ws[|ws| - 1]) then 1 else 0
  }

  lemma {:induction false} CountedUpdate(ws: seq<Waiter>, i: nat, w: Waiter)
    requires i < |ws|
    ensures CountedIn(ws[i := w]) ==
      CountedIn(ws) + (if IsCounted(w) then 1 else 0) - (if IsCounted(ws[i]) then 1 else 0)
  {
    var last := |ws| - 1;
    if i == last {
      assert ws[i := w][..last] == ws[..last];
    } else {
      assert ws[i := w][..last] == ws[..last][i := w];
      CountedUpdate(ws[..last], i, w);
    }
  }

  ghost predicate Accounted(s: State) {
    s.counted == CountedIn(s.waiters) && s.tokens + s.taken == s.put
  }

  lemma StepKeepsAccounted(s: State, m: Move)
    requires Accounted(s)
    ensures Accounted(Step(s, m))
  {
    hide CountedIn;
    if !m.Notify? && !m.Tell? && m.i < |s.waiters| {
      CountedUpdate(s.waiters, m.i, Step(s, m).waiters[m.i]);
    }
  }

  lemma {:induction false} NobodyCounted(ws: seq<Waiter>)
    requires forall i :: 0 <= i < |ws| ==> ws[i].Idle?
    ensures CountedIn(ws) == 0
  {
    if ws != [] {
      NobodyCounted(ws[..|ws| - 1]);
    }
  }

  // For any number of waiters and notifiers: the waiter count is the number of
  // threads between its increment and its decrement, and every token put is
  // either available or was taken.
  lemma {:induction false} AlwaysAccounted(waiters: nat, notifiers: nat, moves: seq<Move>)
    ensures Accounted(Run(Start(waiters, notifiers), moves))
  {
    if moves == [] {
      NobodyCounted(Start(waiters, notifiers).waiters);
    } else {
      AlwaysAccounted(waiters, notifiers, moves[..|moves| - 1]);
      StepKeepsAccounted(Run(Start(waiters, notifiers), moves[..|moves| - 1]), moves[|moves| - 1]);
    }
  }

  // ----- Lost wakeups -----

  predicate Telling(n: Notifier) { n.Unlocked? || (n.Putting? && n.pending > 0) }

  // A token is there to take, or a notifier is about to put one.
  ghost predicate Rescued(s: State) {
    s.tokens > 0 || exists j :: 0 <= j < |s.notifiers| && Telling(s.notifiers[j])
  }

  predicate Owed(s: State, i: nat)
    requires i < |s.waiters|
  {
    s.waiters[i].Getting? && Met(s, s.waiters[i].target)
  }

  // A waiter whose condition is met is left on an empty semaphore with nobody
  // about to put a token.
  ghost predicate Stranded(s: State) {
    (exists i :: 0 <= i < |s.waiters| && Owed(s, i)) && !Rescued(s)
  }

  // One thread at most is inside the mutex, and a waiter registers only while
  // its condition does not hold.
  ghost predicate Exclusive(s: State) {
    && (forall i :: 0 <= i < |s.waiters| && (s.waiters[i].Checking? || s.waiters[i].Registered?) ==> s.owner == i)
    && (forall j :: 0 <= j < |s.notifiers| && s.notifiers[j].Inside? ==> s.owner == |s.waiters| + j)
    && (forall i :: 0 <= i < |s.waiters| && s.waiters[i].Registered? ==> !Met(s, s.waiters[i].target))
  }

  lemma WaitKeepsExclusive(s: State, i: nat)
    requires Exclusive(s) && i < |s.waiters|
    ensures Exclusive(WaiterStep(s, i))
  {
  }

  lemma TellKeepsExclusive(s: State, j: nat)
    requires Exclusive(s) && j < |s.notifiers|
    ensures Exclusive(NotifierStep(s, j))
  {
    hide WaiterStep, Step;
  }

  lemma StepKeepsExclusive(s: State, m: Move)
    requires Exclusive(s)
    ensures Exclusive(Step(s, m))
  {
    hide WaiterStep, NotifierStep;
    match m
    case Wait(i) => if i < |s.waiters| { WaitKeepsExclusive(s, i); }
    case Tell(j) => if j < |s.notifiers| { TellKeepsExclusive(s, j); }
    case _ =>
  }

  ghost predicate Lone(s: State) {
    && |s.waiters| == 1 && Exclusive(s) && Accounted(s)
    && (Owed(s, 0) ==> Rescued(s))
  }

  lemma StepKeepsLone(s: State, m: Move)
    requires Lone(s)
    ensures Lone(Step(s, m))
  {
    hide Step, Accounted, CountedIn, Owed, Rescued, Exclusive;
    StepKeepsExclusive(s, m);
    StepKeepsAccounted(s, m);
    StepKeepsWaiters(s, m);
    LoneFacts(s);
    if Owed(Step(s, m), 0) {
      RescueComes(s, m);
    }
  }

  lemma StepKeepsWaiters(s: State, m: Move)
    ensures |Step(s, m).waiters| == |s.waiters|
  {
  }

  lemma LoneFacts(s: State)
    requires |s.waiters| == 1 && Exclusive(s) && Accounted(s)
    ensures s.waiters[0].Registered? ==> !Met(s, s.waiters[0].target)
    ensures s.counted == if IsCounted(s.waiters[0]) then 1 else 0
  {
    assert CountedIn(s.waiters) == if IsCounted(s.waiters[0]) then 1 else 0 by {
      assert s.waiters[..0] == [];
    }
  }

  lemma RescueComes(s: State, m: Move)
    requires |s.waiters| == 1 && Owed(Step(s, m), 0) && (Owed(s, 0) ==> Rescued(s))
    requires s.waiters[0].Registered? ==> !Met(s, s.waiters[0].target)
    requires s.counted == if IsCounted(s.waiters[0]) then 1 else 0
    ensures Rescued(Step(s, m))
  {
    var s' := Step(s, m);
    if m.Tell? && m.j < |s.notifiers| && (s.notifiers[m.j].Inside? || Telling(s.notifiers[m.j])) {
      assert s'.tokens > 0 || Telling(s'.notifiers[m.j]);
    } else if s.tokens == 0 {
      var j :| 0 <= j < |s.notifiers| && Telling(s.notifiers[j]);
      assert s'.notifiers[j] == s.notifiers[j];
    }
  }

  lemma {:induction false} AlwaysLone(notifiers: nat, moves: seq<Move>)
    ensures Lone(Run(Start(1, notifiers), moves))
  {
    if moves == [] {
      NobodyCounted(Start(1, notifiers).waiters);
    } else {
      AlwaysLone(notifiers, moves[..|moves| - 1]);
      hide Lone, Step;
      StepKeepsLone(Run(Start(1, notifiers), moves[..|moves| - 1]), moves[|moves| - 1]);
    }
  }

  // Without a notifier no condition is ever met, and without a waiter nobody waits.
  ghost predicate Quiet(s: State, waiters: nat, notifiers: nat) {
    && |s.waiters| == waiters && |s.notifiers| == notifiers
    && (notifiers == 0 ==> s.count == 0 && !s.closed)
  }

  lemma StepKeepsQuiet(s: State, waiters: nat, notifiers: nat, m: Move)
    requires Quiet(s, waiters, notifiers)
    ensures Quiet(Step(s, m), waiters, notifiers)
  {
  }

  lemma {:induction false} AlwaysQuiet(waiters: nat, notifiers: nat, moves: seq<Move>)
    ensures Quiet(Run(Start(waiters, notifiers), moves), waiters, notifiers)
  {
    if moves != [] {
      hide Step;
      AlwaysQuiet(waiters, notifiers, moves[..|moves| - 1]);
      StepKeepsQuiet(Run(Start(waiters, notifiers), moves[..|moves| - 1]), waiters, notifiers, moves[|moves| - 1]);
    }
  }

  ghost predicate Reachable(s: State, waiters: nat, notifiers: nat) {
    exists moves :: Run(Start(waiters, notifiers), moves) == s
  }

  lemma ReachStep(s: State, waiters: nat, notifiers: nat, m: Move)
    requires Reachable(s, waiters, notifiers)
    ensures Reachable(Step(s, m), waiters, notifiers)
  {
    hide Step;
    var moves :| Run(Start(waiters, notifiers), moves) == s;
    assert (moves + [m])[..|moves + [m]| - 1] == moves;
    assert Run(Start(waiters, notifiers), moves + [m]) == Step(s, m);
  }

  // Threads 0 and 1 wait, notifier 0 notifies, everyone else is idle.
  ghost predicate Scene(s: State, owner: int, count: nat, counted: int, tokens: nat, first: Waiter, second: Waiter,
      teller: Notifier) {
    && |s.waiters| >= 2 && |s.notifiers| >= 1
    && s.owner == owner && s.count == count && !s.closed && s.counted == counted && s.tokens == tokens
    && s.waiters[0] == first && s.waiters[1] == second && s.notifiers[0] == teller
    && forall j :: 1 <= j < |s.notifiers| ==> s.notifiers[j].Resting?
  }

  // Both threads reach the semaphore, the first waiting for the second exchange
  // and the second for the first.
  lemma BothAsleep(waiters: nat, notifiers: nat) returns (s: State)
    requires waiters >= 2 && notifiers >= 1
    ensures Reachable(s, waiters, notifiers)
    ensures Scene(s, -1, 0, 2, 0, Getting(1), Getting(0), Resting)
  {
    hide Reachable;
    s := Start(waiters, notifiers);
    StartReachable(waiters, notifiers);
    assert Scene(s, -1, 0, 0, 0, Idle, Idle, Resting);
    s := Moved(s, waiters, notifiers, Ask(0, 1));
    assert Scene(s, -1, 0, 0, 0, Locking(1), Idle, Resting);
    s := Moved(s, waiters, notifiers, Ask(1, 0));
    assert Scene(s, -1, 0, 0, 0, Locking(1), Locking(0), Resting);
    s := Moved(s, waiters, notifiers, Wait(0));
    assert Scene(s, 0, 0, 0, 0, Checking(1), Locking(0), Resting);
    s := Moved(s, waiters, notifiers, Wait(0));
    assert Scene(s, 0, 0, 1, 0, Registered(1), Locking(0), Resting);
    s := Moved(s, waiters, notifiers, Wait(0));
    assert Scene(s, -1, 0, 1, 0, Getting(1), Locking(0), Resting);
    s := Moved(s, waiters, notifiers, Wait(1));
    assert Scene(s, 1, 0, 1, 0, Getting(1), Checking(0), Resting);
    s := Moved(s, waiters, notifiers, Wait(1));
    assert Scene(s, 1, 0, 2, 0, Getting(1), Registered(0), Resting);
    s := Moved(s, waiters, notifiers, Wait(1));
  }

  // The first exchange is published and notified: two tokens for two waiters.
  lemma TwoTokens(before: State, waiters: nat, notifiers: nat) returns (s: State)
    requires Reachable(before, waiters, notifiers)
    requires Scene(before, -1, 0, 2, 0, Getting(1), Getting(0), Resting)
    ensures Reachable(s, waiters, notifiers)
    ensures Scene(s, -1, 1, 2, 2, Getting(1), Getting(0), Putting(0))
  {
    hide Reachable;
    s := Moved(before, waiters, notifiers, Notify(0, false));
    assert Scene(s, -1, 0, 2, 0, Getting(1), Getting(0), AtMutex(false));
    s := Moved(s, waiters, notifiers, Tell(0));
    assert Scene(s, |s.waiters|, 0, 2, 0, Getting(1), Getting(0), Inside(false));
    s := Moved(s, waiters, notifiers, Tell(0));
    assert Scene(s, -1, 1, 2, 0, Getting(1), Getting(0), Unlocked);
    s := Moved(s, waiters, notifiers, Tell(0));
    assert Scene(s, -1, 1, 2, 0, Getting(1), Getting(0), Putting(2));
    s := Moved(s, waiters, notifiers, Tell(0));
    assert Scene(s, -1, 1, 2, 1, Getting(1), Getting(0), Putting(1));
    s := Moved(s, waiters, notifiers, Tell(0));
  }

  // The first thread takes its token, finds its count not reached, registers
  // again and takes the second thread's token too.
  lemma TokenStolen(before: State, waiters: nat, notifiers: nat) returns (s: State)
    requires Reachable(before, waiters, notifiers)
    requires Scene(before, -1, 1, 2, 2, Getting(1), Getting(0), Putting(0))
    ensures Reachable(s, waiters, notifiers)
    ensures Scene(s, -1, 1, 2, 0, Got(1), Getting(0), Putting(0))
  {
    hide Reachable;
    s := Moved(before, waiters, notifiers, Wait(0));
    assert Scene(s, -1, 1, 2, 1, Got(1), Getting(0), Putting(0));
    s := Moved(s, waiters, notifiers, Wait(0));
    assert Scene(s, -1, 1, 1, 1, Relocking(1), Getting(0), Putting(0));
    s := Moved(s, waiters, notifiers, Wait(0));
    assert Scene(s, 0, 1, 1, 1, Checking(1), Getting(0), Putting(0));
    s := Moved(s, waiters, notifiers, Wait(0));
    assert Scene(s, 0, 1, 2, 1, Registered(1), Getting(0), Putting(0));
    s := Moved(s, waiters, notifiers, Wait(0));
    assert Scene(s, -1, 1, 2, 1, Getting(1), Getting(0), Putting(0));
    s := Moved(s, waiters, notifiers, Wait(0));
  }

  lemma StartReachable(waiters: nat, notifiers: nat)
    ensures Reachable(Start(waiters, notifiers), waiters, notifiers)
  {
    assert Run(Start(waiters, notifiers), []) == Start(waiters, notifiers);
  }

  lemma Moved(s: State, waiters: nat, notifiers: nat, m: Move) returns (s': State)
    requires Reachable(s, waiters, notifiers)
    ensures s' == Step(s, m) && Reachable(s', waiters, notifiers)
  {
    ReachStep(s, waiters, notifiers, m);
    s' := Step(s, m);
  }

  // Exactly when the emulation can lose a wakeup: some run strands a waiter if
  // and only if there are two waiters or more and anyone to notify them. With a
  // single waiter, and any number of notifiers, no run does.
  lemma StrandsExactlyWithTwoWaiters(waiters: nat, notifiers: nat)
    ensures (exists moves :: Stranded(Run(Start(waiters, notifiers), moves))) <==> waiters >= 2 && notifiers >= 1
  {
    hide Run, Step, Start;
    if waiters >= 2 && notifiers >= 1 {
      var s := BothAsleep(waiters, notifiers);
      s := TwoTokens(s, waiters, notifiers);
      s := TokenStolen(s, waiters, notifiers);
      assert Owed(s, 1) && !Rescued(s);
      var moves :| Run(Start(waiters, notifiers), moves) == s;
      assert Stranded(Run(Start(waiters, notifiers), moves));
    } else {
      forall moves ensures !Stranded(Run(Start(waiters, notifiers), moves)) {
        if waiters == 1 {
          AlwaysLone(notifiers, moves);
        } else {
          AlwaysQuiet(waiters, notifiers, moves);
        }
      }
    }
  }
}
