/**
 Progress of core/messagebatch.go over infinite runs: the flush lock is always released again, and
 every Flush and Close returns.
 */
module BatchProgress {
  import opened Utilities
  import opened BatchCalls
  import opened MessageBatch

  // ---------------------------------------------------------------------- infinite runs

  /** One step, or nothing happens. */
  ghost predicate Goes(s: State, action: Action, s': State) { Moves(s, action, s') || s' == s }

  ghost predicate IsEndless(capacity: nat, states: nat -> State, actions: nat -> Action) {
    states(0) == NewMessageBatch(capacity) && forall i: nat :: Goes(states(i), actions(i), states(i + 1))
  }

  /** Thread `t` can do its next operation. */
  predicate Able(s: State, t: nat) { Shaped(s) && t < |s.threads| && Advance(s, t, true).Some? }

  /** Thread `t` does its next operation at step `i`. */
  ghost predicate Takes(states: nat -> State, actions: nat -> Action, t: nat, i: nat) {
    actions(i).Go? && actions(i).t == t && Moves(states(i), actions(i), states(i + 1))
  }

  /** No thread that stays able waits for ever. */
  ghost predicate Fair(states: nat -> State, actions: nat -> Action) {
    forall i: nat, t: nat | Able(states(i), t) ::
      exists j: nat :: i <= j && (Takes(states, actions, t, j) || !Able(states(j), t))
  }

  ghost predicate AbleFrom(states: nat -> State, t: nat, i: nat) { exists j: nat :: i <= j && Able(states(j), t) }

  ghost predicate TakesFrom(states: nat -> State, actions: nat -> Action, t: nat, i: nat) {
    exists j: nat :: i <= j && Takes(states, actions, t, j)
  }

  ghost predicate AbleAgain(states: nat -> State, t: nat) { forall i: nat :: AbleFrom(states, t, i) }

  /** No thread that is able again and again waits for ever. */
  ghost predicate StronglyFair(states: nat -> State, actions: nat -> Action) {
    forall t: nat, i: nat | AbleAgain(states, t) :: TakesFrom(states, actions, t, i)
  }

  lemma TakesInTheEnd(states: nat -> State, actions: nat -> Action, t: nat, from: nat)
    requires StronglyFair(states, actions) && forall i: nat :: from <= i ==> AbleFrom(states, t, i)
    ensures TakesFrom(states, actions, t, from)
  {
    forall i: nat ensures AbleFrom(states, t, i) {
      if i < from {
        assert AbleFrom(states, t, from);
        var j: nat :| from <= j && Able(states(j), t);
        assert i <= j;
      }
    }
    assert AbleAgain(states, t);
  }

  lemma StrongIsFair(states: nat -> State, actions: nat -> Action)
    requires StronglyFair(states, actions)
    ensures Fair(states, actions)
  {
    forall i: nat, t: nat | Able(states(i), t)
      ensures exists j: nat :: i <= j && (Takes(states, actions, t, j) || !Able(states(j), t))
    {
      if forall j: nat :: i <= j ==> Able(states(j), t) {
        forall k: nat | i <= k ensures AbleFrom(states, t, k) { assert Able(states(k), t); }
        TakesInTheEnd(states, actions, t, i);
      }
    }
  }

  lemma {:induction false} EndlessInv(capacity: nat, states: nat -> State, actions: nat -> Action, i: nat)
    requires IsEndless(capacity, states, actions)
    ensures Inv(states(i), capacity)
  {
    hide Inv, Moves;
    if i == 0 {
      InitialInv(capacity);
    } else {
      EndlessInv(capacity, states, actions, i - 1);
      assert Goes(states(i - 1), actions(i - 1), states(i - 1 + 1));
      if states(i) != states(i - 1) { StepInv(states(i - 1), capacity, actions(i - 1), states(i)); }
    }
  }

  // -------------------------------------------------------------- the holder of the lock

  /** The operations that the holder of the lock still has to do. */
  function Rank(pc: Thread): nat {
    match pc
    case LoadSet(_) => 5
    case SwapSet(_, _) => 4
    case AwaitWriters(_, _, _) => 3
    case Assemble(_, _) => 2
    case ResetDone(_) => 1
    case _ => 0
  }

  predicate Held(s: State) { 0 <= s.holder < |s.threads| }

  /** The operations that the late writers still have to do. */
  function Waiting(s: State): nat
    requires Held(s)
  {
    if s.threads[s.holder].AwaitWriters? && |s.delivered| < |s.logs| then Backlog(s.logs[|s.delivered|]) else 0
  }

  predicate Nearer(s: State, s': State)
    requires Held(s) && Held(s')
  {
    var r, r' := Rank(s.threads[s.holder]), Rank(s'.threads[s'.holder]);
    r' < r || (r' == r && Waiting(s') < Waiting(s))
  }

  /** A thread whose next operation brings the release of the lock nearer. */
  predicate Helpful(s: State, u: nat) {
    Held(s) && Able(s, u) && (u == s.holder || (s.threads[s.holder].AwaitWriters? && IsLate(s, u)))
  }

  /** A waiting flush can go on exactly when the late writers are done. */
  lemma AbleWhenDone(s: State, capacity: nat)
    requires Inv(s, capacity) && s.holder >= 0 && s.threads[s.holder].AwaitWriters?
    ensures |s.delivered| < |s.logs| && (Able(s, s.holder) <==> Backlog(s.logs[|s.delivered|]) == 0)
  {
    assert ThreadOk(s, capacity, s.holder);
    var log := s.logs[|s.delivered|];
    if Backlog(log) == 0 { CountDoneAll(log); }
    if CountDone(log) == |log| { CountDoneFull(log); }
  }

  lemma SomeoneHelps(s: State, capacity: nat) returns (u: nat)
    requires Inv(s, capacity) && s.holder >= 0
    ensures Helpful(s, u)
  {
    u := s.holder;
    assert Holding(s.threads[u]) && ThreadOk(s, capacity, u);
    if s.threads[u].AwaitWriters? {
      AbleWhenDone(s, capacity);
      var e := |s.delivered|;
      if Backlog(s.logs[e]) > 0 {
        var k :| 0 <= k < |s.logs[e]| && !s.logs[e][k].phase.Done?;
        assert TicketOk(s, capacity, e, k);
        u := s.logs[e][k].owner;
        assert ThreadOk(s, capacity, u);
      }
    }
  }

  /** The holder's own operation. */
  lemma HolderStep(s: State, capacity: nat, choice: bool, s': State)
    requires Inv(s, capacity) && Inv(s', capacity) && s.holder >= 0 && Advance(s, s.holder, choice) == Some(s')
    ensures s'.holder >= 0 ==> Nearer(s, s')
  {
    assert Holding(s.threads[s.holder]);
  }

  /** Anybody else's. */
  lemma OtherStep(s: State, capacity: nat, action: Action, s': State)
    requires Inv(s, capacity) && Moves(s, action, s') && s.holder >= 0 && !(action.Go? && action.t == s.holder)
    ensures s'.holder == s.holder < |s'.threads| && s'.threads[s.holder] == s.threads[s.holder]
    ensures s'.delivered == s.delivered
  {
    if action.Go? { assert Holding(s.threads[action.t]) <==> action.t == s.holder; }
  }

  /** After any step the lock is free, or its release is nearer, or the helpful thread has not moved
      and still helps. */
  lemma StepHelps(s: State, capacity: nat, action: Action, s': State, u: nat)
    requires Inv(s, capacity) && Moves(s, action, s') && Helpful(s, u)
    ensures s'.holder < 0 || (Held(s') && Nearer(s, s'))
      || (Helpful(s', u) && !(action.Go? && action.t == u)
          && Rank(s'.threads[s'.holder]) == Rank(s.threads[s.holder]) && Waiting(s') == Waiting(s))
  {
    StepInv(s, capacity, action, s');
    if action.Go? && action.t == s.holder {
      HolderStep(s, capacity, action.choice, s');
    } else {
      OtherStep(s, capacity, action, s');
      OtherKeepsHelpful(s, capacity, action, s', u);
    }
  }

  lemma OtherKeepsHelpful(s: State, capacity: nat, action: Action, s': State, u: nat)
    requires Inv(s, capacity) && Inv(s', capacity) && Moves(s, action, s') && Helpful(s, u)
    requires !(action.Go? && action.t == s.holder)
    requires s'.holder == s.holder && s'.threads[s.holder] == s.threads[s.holder] && s'.delivered == s.delivered
    ensures Held(s')
    ensures Nearer(s, s') || (Helpful(s', u) && !(action.Go? && action.t == u) && Waiting(s') == Waiting(s))
  {
    if s.threads[s.holder].AwaitWriters? {
      BacklogStep(s, capacity, action, s');
      AbleWhenDone(s, capacity);
      AbleWhenDone(s', capacity);
      if !Nearer(s, s') { StaysHelpful(s, capacity, action, s', u); }
    } else {
      HolderStaysAble(s, capacity, s');
    }
  }

  /** A late writer stays one until it moves. */
  lemma StaysHelpful(s: State, capacity: nat, action: Action, s': State, u: nat)
    requires Inv(s, capacity) && Inv(s', capacity) && Moves(s, action, s') && Helpful(s, u)
    requires s.threads[s.holder].AwaitWriters? && !(action.Go? && action.t == s.holder)
    requires s'.holder == s.holder && s'.threads[s.holder] == s.threads[s.holder] && s'.delivered == s.delivered
    requires Waiting(s') == Waiting(s) && (action.Go? ==> !IsLate(s, action.t))
    requires Able(s, s.holder) ==> Able(s', s.holder)
    ensures Helpful(s', u) && !(action.Go? && action.t == u)
  {
    if u != s.holder {
      StepFrame(s, action, s', u);
      assert ThreadOk(s', capacity, u);
    }
  }

  lemma HolderStaysAble(s: State, capacity: nat, s': State)
    requires Inv(s, capacity) && Inv(s', capacity) && s.holder >= 0 && !s.threads[s.holder].AwaitWriters?
    requires s'.holder == s.holder && s'.threads[s.holder] == s.threads[s.holder]
    ensures Able(s', s.holder) && Waiting(s') == Waiting(s) == 0
  {
    assert Holding(s.threads[s.holder]) && ThreadOk(s', capacity, s.holder);
  }

  // ---------------------------------------------------------------- the lock is released

  /** Until the promised index the release comes nearer. */
  lemma {:induction false} ComesNearer(capacity: nat, states: nat -> State, actions: nat -> Action, i: nat, j: nat,
                                       u: nat)
    returns (k: nat)
    requires IsEndless(capacity, states, actions) && Helpful(states(i), u)
    requires i <= j && (Takes(states, actions, u, j) || !Able(states(j), u))
    ensures i <= k && (states(k).holder < 0 || (Held(states(k)) && Nearer(states(i), states(k))))
    decreases j - i
  {
    hide Inv, Moves, Able, IsLate;
    EndlessInv(capacity, states, actions, i);
    assert Goes(states(i), actions(i), states(i + 1));
    k := i + 1;
    if Moves(states(i), actions(i), states(i + 1)) {
      StepHelps(states(i), capacity, actions(i), states(i + 1), u);
      if states(k).holder >= 0 && !(Held(states(k)) && Nearer(states(i), states(k))) {
        k := ComesNearer(capacity, states, actions, i + 1, j, u);
      }
    } else {
      k := ComesNearer(capacity, states, actions, i + 1, j, u);
    }
  }

  lemma {:induction false} ReleasedFrom(capacity: nat, states: nat -> State, actions: nat -> Action, i: nat)
    returns (k: nat)
    requires IsEndless(capacity, states, actions) && Fair(states, actions)
    ensures i <= k && states(k).holder < 0
    decreases if Held(states(i)) then Rank(states(i).threads[states(i).holder]) else 0,
              if Held(states(i)) then Waiting(states(i)) else 0
  {
    hide Moves, Able, Waiting;
    EndlessInv(capacity, states, actions, i);
    k := i;
    if states(i).holder >= 0 {
      var u := SomeoneHelps(states(i), capacity);
      assert Able(states(i), u);
      var j: nat :| i <= j && (Takes(states, actions, u, j) || !Able(states(j), u));
      k := ComesNearer(capacity, states, actions, i, j, u);
      if states(k).holder >= 0 { k := ReleasedFrom(capacity, states, actions, k); }
    }
  }

  /** In every fair run the flush lock is released again after every step. */
  lemma LockIsReleased(capacity: nat, states: nat -> State, actions: nat -> Action, i: nat)
    requires IsEndless(capacity, states, actions) && Fair(states, actions)
    ensures exists k: nat :: i <= k && states(k).flushing == 0
  {
    var k := ReleasedFrom(capacity, states, actions, i);
    EndlessInv(capacity, states, actions, k);
    assert states(k).flushing == 0;
  }

  lemma {:induction false} KeepsAll(capacity: nat, states: nat -> State, actions: nat -> Action, i: nat, j: nat)
    requires IsEndless(capacity, states, actions) && i <= j
    ensures Keeps(states(i), states(j))
    decreases j - i
  {
    if i < j {
      hide Moves;
      KeepsAll(capacity, states, actions, i, j - 1);
      assert Goes(states(j - 1), actions(j - 1), states(j - 1 + 1));
      if states(j) != states(j - 1) { StepKeeps(states(j - 1), actions(j - 1), states(j)); }
    }
  }

  // ------------------------------------------------------------------ every call is answered

  predicate Finished(pc: Thread) { pc.Accepted? || pc.Refused? || pc.Dropped? || pc.Closed? || pc.Returned? }

  /** The operations left, as long as AppendOrBlock does not start over. */
  function Stage(pc: Thread): nat {
    match pc
    case ClosedTest(_, onFail) => if onFail == FlushThenBlock then 11 else 5
    case Draw(_, onFail) => if onFail == FlushThenBlock then 10 else 4
    case Slot(_, onFail, _, _, _) => if onFail == FlushThenBlock then 9 else 3
    case Finish(_, onFail, _, _, _, _) => if onFail == FlushThenBlock then 8 else 2
    case CloseMark => 8
    case EmptyTest(_) => 7
    case Acquire(_) => 6
    case LoadSet(_) => 5
    case SwapSet(_, _) => 4
    case AwaitWriters(_, _, _) => 3
    case Assemble(_, _) => 3
    case ResetDone(_) => 2
    case CanBlock(_) => 2
    case CallbackAcquire => 2
    case CallbackRun => 1
    case LoopTest(_, _) => 1
    case AwaitFlush => 1
    case Release => 1
    case _ => 0
  }

  /** AppendOrBlock starts over. */
  predicate StartsOver(s: State, pc: Thread) { pc.LoopTest? && !s.closed }

  /** The thread's own operation brings it further. */
  lemma MovesFurther(s: State, choice: bool, s': State, c: nat)
    requires Shaped(s) && c < |s.threads| && Advance(s, c, choice) == Some(s') && !StartsOver(s, s.threads[c])
    ensures c < |s'.threads| && Stage(s'.threads[c]) < Stage(s.threads[c])
  {
    var pc := s.threads[c];
    if pc.ClosedTest? || pc.Draw? || pc.Slot? || pc.Finish? {
      TryingFurther(s, choice, s', c);
    } else if FlushPoint(pc) {
      FlushFurther(s, choice, s', c);
    } else {
      RestFurther(s, choice, s', c);
    }
  }

  lemma TryingFurther(s: State, choice: bool, s': State, c: nat)
    requires Shaped(s) && c < |s.threads| && Advance(s, c, choice) == Some(s')
    requires var pc := s.threads[c]; pc.ClosedTest? || pc.Draw? || pc.Slot? || pc.Finish?
    ensures c < |s'.threads| && Stage(s'.threads[c]) < Stage(s.threads[c])
  {
  }

  lemma FlushFurther(s: State, choice: bool, s': State, c: nat)
    requires Shaped(s) && c < |s.threads| && Advance(s, c, choice) == Some(s') && FlushPoint(s.threads[c])
    ensures c < |s'.threads| && Stage(s'.threads[c]) < Stage(s.threads[c])
  {
  }

  lemma RestFurther(s: State, choice: bool, s': State, c: nat)
    requires Shaped(s) && c < |s.threads| && Advance(s, c, choice) == Some(s') && !StartsOver(s, s.threads[c])
    requires var pc := s.threads[c];
      !pc.ClosedTest? && !pc.Draw? && !pc.Slot? && !pc.Finish? && !FlushPoint(pc)
    ensures c < |s'.threads| && Stage(s'.threads[c]) < Stage(s.threads[c])
  {
    match s.threads[c]
    case LoopTest(_, _) =>
    case CanBlock(_) =>
    case CloseMark =>
    case _ =>
  }

  /** Until then it stays where it is. */
  lemma {:induction false} StandsStill(capacity: nat, states: nat -> State, actions: nat -> Action, i: nat, j: nat,
                                       c: nat)
    requires IsEndless(capacity, states, actions) && i <= j && c < |states(i).threads|
    requires forall k: nat :: i <= k < j ==> !Takes(states, actions, c, k)
    ensures c < |states(j).threads| && states(j).threads[c] == states(i).threads[c]
    decreases j - i
  {
    if i < j {
      hide Moves;
      StandsStill(capacity, states, actions, i, j - 1, c);
      assert Goes(states(j - 1), actions(j - 1), states(j - 1 + 1));
      assert !Takes(states, actions, c, j - 1);
      if states(j) != states(j - 1) { StepFrame(states(j - 1), actions(j - 1), states(j), c); }
    }
  }

  /** A thread that is not finished is able to go on as soon as the lock is free. */
  lemma AbleWhenFree(s: State, capacity: nat, c: nat)
    requires Inv(s, capacity) && c < |s.threads| && !Finished(s.threads[c]) && s.holder < 0
    ensures Able(s, c)
  {
    hide TicketOk, EpochsOk, DeliveredOk;
    assert !Holding(s.threads[c]) && ThreadOk(s, capacity, c);
  }

  /** It takes its next operation. */
  lemma GoesOn(capacity: nat, states: nat -> State, actions: nat -> Action, i: nat, c: nat)
    requires IsEndless(capacity, states, actions) && StronglyFair(states, actions)
    requires c < |states(i).threads| && !Finished(states(i).threads[c])
    ensures TakesFrom(states, actions, c, i)
  {
    hide Moves, Able, Inv, Finished;
    if !TakesFrom(states, actions, c, i) {
      StrongIsFair(states, actions);
      forall j: nat | i <= j ensures AbleFrom(states, c, j) {
        var k := ReleasedFrom(capacity, states, actions, j);
        StandsStill(capacity, states, actions, i, k, c);
        EndlessInv(capacity, states, actions, k);
        AbleWhenFree(states(k), capacity, c);
      }
      TakesInTheEnd(states, actions, c, i);
    }
  }

  lemma {:induction false} FirstTaken(states: nat -> State, actions: nat -> Action, c: nat, i: nat, j: nat)
    returns (k: nat)
    requires i <= j && Takes(states, actions, c, j)
    ensures i <= k && Takes(states, actions, c, k) && forall m: nat :: i <= m < k ==> !Takes(states, actions, c, m)
    decreases j - i
  {
    if Takes(states, actions, c, i) { k := i; } else { k := FirstTaken(states, actions, c, i + 1, j); }
  }

  /** Its first operation behind index `i`, taken from where it is at `i`. */
  lemma NextOperation(capacity: nat, states: nat -> State, actions: nat -> Action, i: nat, c: nat) returns (k: nat)
    requires IsEndless(capacity, states, actions) && c < |states(i).threads| && TakesFrom(states, actions, c, i)
    ensures i <= k && c < |states(k).threads| && states(k).threads[c] == states(i).threads[c]
    ensures actions(k).Go? && Shaped(states(k)) && Advance(states(k), c, actions(k).choice) == Some(states(k + 1))
  {
    var m: nat :| i <= m && Takes(states, actions, c, m);
    k := FirstTaken(states, actions, c, i, m);
    StandsStill(capacity, states, actions, i, k, c);
    assert Moves(states(k), actions(k), states(k + 1));
  }

  /** Every thread finishes, or comes to start over an AppendOrBlock on an open batch. */
  lemma {:induction false} FinishesOrStartsOver(capacity: nat, states: nat -> State, actions: nat -> Action, i: nat,
                                                c: nat)
    returns (j: nat)
    requires IsEndless(capacity, states, actions) && StronglyFair(states, actions) && c < |states(i).threads|
    ensures i <= j && c < |states(j).threads|
    ensures Finished(states(j).threads[c]) || StartsOver(states(j), states(j).threads[c])
    decreases Stage(states(i).threads[c])
  {
    hide Advance, Stage, IsEndless, StronglyFair;
    j := i;
    if !Finished(states(i).threads[c]) && !StartsOver(states(i), states(i).threads[c]) {
      GoesOn(capacity, states, actions, i, c);
      j := NextOperation(capacity, states, actions, i, c);
      if !StartsOver(states(j), states(j).threads[c]) {
        MovesFurther(states(j), actions(j).choice, states(j + 1), c);
        j := FinishesOrStartsOver(capacity, states, actions, j + 1, c);
      }
    }
  }

  /** Action `i` starts the call. */
  ghost predicate Begins(capacity: nat, states: nat -> State, actions: nat -> Action, i: nat, call: Call) {
    IsEndless(capacity, states, actions) && actions(i) == Start(call) && Moves(states(i), actions(i), states(i + 1))
  }

  lemma {:induction false} KeepsServing(capacity: nat, states: nat -> State, actions: nat -> Action, i: nat,
                                        call: Call, j: nat)
    requires Begins(capacity, states, actions, i, call) && i < j
    ensures |states(i).threads| < |states(j).threads| && Serves(call, states(j).threads[|states(i).threads|])
    decreases j
  {
    hide Moves, Serves;
    if i + 1 == j {
      StartedAs(states(i), call, states(j));
      EntryServes(call);
    } else {
      KeepsServing(capacity, states, actions, i, call, j - 1);
      assert Goes(states(j - 1), actions(j - 1), states(j - 1 + 1));
      if states(j) != states(j - 1) {
        ServesStep(states(j - 1), actions(j - 1), states(j), |states(i).threads|, call);
      }
    }
  }

  /** What a finished call has answered. */
  predicate Answer(call: Call, pc: Thread) {
    match call
    case Append(m) => IsAccepted(pc, m) || pc == Refused(m)
    case AppendOrBlock(m) => IsAccepted(pc, m) || pc == Refused(m)
    case AppendOrFlush(m) => IsAccepted(pc, m) || pc == Dropped(m)
    case Flush => pc == Returned
    case Close => pc == Closed
    case AfterFlushDo => pc == Returned
  }

  lemma ServesToTheEnd(call: Call, pc: Thread)
    requires Serves(call, pc) && Finished(pc)
    ensures Answer(call, pc)
  {
  }

  /** In every strongly fair run, every call is answered, unless it is an AppendOrBlock or an
      AppendOrFlush that comes to start over on an open batch. */
  lemma AnswersOrStartsOver(capacity: nat, states: nat -> State, actions: nat -> Action, i: nat, call: Call, from: nat)
    returns (j: nat)
    requires Begins(capacity, states, actions, i, call) && StronglyFair(states, actions) && i < from
    ensures from <= j && |states(i).threads| < |states(j).threads|
    ensures var pc := states(j).threads[|states(i).threads|];
      Answer(call, pc) || (StartsOver(states(j), pc) && (call.AppendOrBlock? || call.AppendOrFlush?))
  {
    hide Moves, StronglyFair;
    var c := |states(i).threads|;
    KeepsServing(capacity, states, actions, i, call, from);
    j := FinishesOrStartsOver(capacity, states, actions, from, c);
    KeepsServing(capacity, states, actions, i, call, j);
    if Finished(states(j).threads[c]) { ServesToTheEnd(call, states(j).threads[c]); }
  }

  /** In every strongly fair run in which the batch is closed at some time, every call is answered. */
  lemma ClosedAnswersAll(capacity: nat, states: nat -> State, actions: nat -> Action, i: nat, call: Call, n: nat)
    returns (j: nat)
    requires Begins(capacity, states, actions, i, call) && StronglyFair(states, actions) && states(n).closed
    ensures i < j && |states(i).threads| < |states(j).threads|
    ensures Answer(call, states(j).threads[|states(i).threads|])
  {
    hide Moves, StronglyFair, Answer;
    j := AnswersOrStartsOver(capacity, states, actions, i, call, i + n + 1);
    KeepsAll(capacity, states, actions, n, j);
  }

  /** In every strongly fair run every Flush returns. */
  lemma FlushReturns(capacity: nat, states: nat -> State, actions: nat -> Action, i: nat)
    returns (j: nat)
    requires Begins(capacity, states, actions, i, Flush) && StronglyFair(states, actions)
    ensures i < j && |states(i).threads| < |states(j).threads| && states(j).threads[|states(i).threads|] == Returned
  {
    hide Begins, StronglyFair;
    j := AnswersOrStartsOver(capacity, states, actions, i, Flush, i + 1);
  }

  /** And so do every Close and */
  lemma CloseReturns(capacity: nat, states: nat -> State, actions: nat -> Action, i: nat)
    returns (j: nat)
    requires Begins(capacity, states, actions, i, Close) && StronglyFair(states, actions)
    ensures i < j && |states(i).threads| < |states(j).threads| && states(j).threads[|states(i).threads|] == Closed
  {
    hide Begins, StronglyFair;
    j := AnswersOrStartsOver(capacity, states, actions, i, Close, i + 1);
  }

  /** every AfterFlushDo. */
  lemma CallbackReturns(capacity: nat, states: nat -> State, actions: nat -> Action, i: nat)
    returns (j: nat)
    requires Begins(capacity, states, actions, i, AfterFlushDo) && StronglyFair(states, actions)
    ensures i < j && |states(i).threads| < |states(j).threads| && states(j).threads[|states(i).threads|] == Returned
  {
    hide Begins, StronglyFair;
    j := AnswersOrStartsOver(capacity, states, actions, i, AfterFlushDo, i + 1);
  }

  lemma {:induction false} CloserEndless(capacity: nat, states: nat -> State, actions: nat -> Action, i: nat, j: nat,
                                         t: nat)
    requires Begins(capacity, states, actions, i, Close) && i < j
    requires t < |states(i).threads| && states(i).threads[t].Accepted?
    ensures |states(i).threads| < |states(j).threads|
    ensures CloserOk(states(j), |states(i).threads|, states(i).threads[t].epoch)
    decreases j
  {
    hide Inv, Moves;
    if i + 1 == j {
      StartsClosing(states(i), states(j));
    } else {
      CloserEndless(capacity, states, actions, i, j - 1, t);
      EndlessInv(capacity, states, actions, j - 1);
      KeepsAll(capacity, states, actions, i, j - 1);
      assert Goes(states(j - 1), actions(j - 1), states(j - 1 + 1));
      AcceptedHasTicket(states(j - 1), capacity, t);
      var pc := states(i).threads[t];
      if states(j) != states(j - 1) {
        CloserStep(states(j - 1), capacity, actions(j - 1), states(j), |states(i).threads|, pc.epoch, pc.ticket);
      }
    }
  }

  /** In every strongly fair run, once a Close has started, every message that was accepted before is
      in the end handed to `assemble`, at its own ticket. */
  lemma AcceptedIsDelivered(capacity: nat, states: nat -> State, actions: nat -> Action, i: nat, t: nat)
    returns (j: nat)
    requires Begins(capacity, states, actions, i, Close) && StronglyFair(states, actions)
    requires t < |states(i).threads| && states(i).threads[t].Accepted?
    ensures var pc, s := states(i).threads[t], states(j);
      && i < j && pc.epoch < |s.delivered| && pc.ticket < |s.delivered[pc.epoch]|
      && s.delivered[pc.epoch][pc.ticket] == pc.msg
  {
    hide Moves;
    j := CloseReturns(capacity, states, actions, i);
    CloserEndless(capacity, states, actions, i, j, t);
    EndlessInv(capacity, states, actions, j);
    KeepsAll(capacity, states, actions, i, j);
    assert ThreadOk(states(j), capacity, t);
  }

  lemma {:induction false} FlusherEndless(capacity: nat, states: nat -> State, actions: nat -> Action, i: nat, j: nat,
                                          t: nat)
    requires Begins(capacity, states, actions, i, Flush) && i < j
    requires t < |states(i).threads| && states(i).threads[t].Accepted?
    ensures |states(i).threads| < |states(j).threads|
    ensures FlusherOk(states(j), states(j).threads[|states(i).threads|], states(i).threads[t].epoch)
    decreases j
  {
    hide Inv, Moves;
    if i + 1 == j {
      StartedAs(states(i), Flush, states(j));
    } else {
      FlusherEndless(capacity, states, actions, i, j - 1, t);
      EndlessInv(capacity, states, actions, j - 1);
      KeepsAll(capacity, states, actions, i, j - 1);
      assert Goes(states(j - 1), actions(j - 1), states(j - 1 + 1));
      AcceptedHasTicket(states(j - 1), capacity, t);
      var pc := states(i).threads[t];
      if states(j) != states(j - 1) {
        FlusherStep(states(j - 1), capacity, actions(j - 1), states(j), |states(i).threads|, pc.epoch, pc.ticket);
      }
    }
  }

  lemma {:induction false} EpochsGrow(capacity: nat, states: nat -> State, actions: nat -> Action, i: nat, j: nat)
    requires IsEndless(capacity, states, actions) && i <= j
    ensures states(i).Epoch() <= states(j).Epoch()
    decreases j - i
  {
    if i < j {
      hide Moves;
      EpochsGrow(capacity, states, actions, i, j - 1);
      assert Goes(states(j - 1), actions(j - 1), states(j - 1 + 1));
      if states(j) != states(j - 1) { LogsGrow(states(j - 1), actions(j - 1), states(j)); }
    }
  }

  lemma LogsGrow(s: State, action: Action, s': State)
    requires Moves(s, action, s')
    ensures |s.logs| <= |s'.logs|
  {
  }

  /** When the lock is free, every buffer that was switched has been assembled. */
  lemma FreeMeansAssembled(s: State, capacity: nat, t: nat)
    requires Inv(s, capacity) && s.holder < 0 && t < |s.threads| && s.threads[t].Accepted?
    requires s.threads[t].epoch < s.Epoch()
    ensures var pc := s.threads[t];
      && pc.epoch < |s.delivered| && pc.ticket < |s.delivered[pc.epoch]|
      && s.delivered[pc.epoch][pc.ticket] == pc.msg
  {
    assert ThreadOk(s, capacity, t);
  }

  /** In every strongly fair run every Flush that was started leads to all messages accepted before it
      being handed to `assemble`, at their own tickets. */
  lemma FlushDelivers(capacity: nat, states: nat -> State, actions: nat -> Action, i: nat, t: nat)
    returns (j: nat)
    requires Begins(capacity, states, actions, i, Flush) && StronglyFair(states, actions)
    requires t < |states(i).threads| && states(i).threads[t].Accepted?
    ensures var pc, s := states(i).threads[t], states(j);
      && i < j && pc.epoch < |s.delivered| && pc.ticket < |s.delivered[pc.epoch]|
      && s.delivered[pc.epoch][pc.ticket] == pc.msg
  {
    hide Moves, StronglyFair, Inv;
    var k := FlushReturns(capacity, states, actions, i);
    FlusherEndless(capacity, states, actions, i, k, t);
    StrongIsFair(states, actions);
    j := ReleasedFrom(capacity, states, actions, k);
    EpochsGrow(capacity, states, actions, k, j);
    KeepsAll(capacity, states, actions, i, j);
    EndlessInv(capacity, states, actions, j);
    FreeMeansAssembled(states(j), capacity, t);
  }

  // ----------------------------------------------------------------- weak fairness is enough

  lemma TryingIsAble(s: State, capacity: nat, c: nat, m: Message)
    requires Inv(s, capacity) && c < |s.threads| && Trying(s.threads[c], m, ReturnFalse)
    ensures Able(s, c)
  {
    hide TicketOk, EpochsOk, DeliveredOk;
    assert ThreadOk(s, capacity, c);
  }

  lemma TryingTakes(capacity: nat, states: nat -> State, actions: nat -> Action, i: nat, c: nat, m: Message)
    requires IsEndless(capacity, states, actions) && Fair(states, actions)
    requires c < |states(i).threads| && Trying(states(i).threads[c], m, ReturnFalse)
    ensures TakesFrom(states, actions, c, i)
  {
    hide Inv, Able, Moves, Trying;
    EndlessInv(capacity, states, actions, i);
    TryingIsAble(states(i), capacity, c, m);
    var j: nat :| i <= j && (Takes(states, actions, c, j) || !Able(states(j), c));
    if !TakesFrom(states, actions, c, i) {
      StandsStill(capacity, states, actions, i, j, c);
      EndlessInv(capacity, states, actions, j);
      TryingIsAble(states(j), capacity, c, m);
    }
  }

  lemma {:induction false} TryEnds(capacity: nat, states: nat -> State, actions: nat -> Action, i: nat, c: nat,
                                   m: Message)
    returns (j: nat)
    requires IsEndless(capacity, states, actions) && Fair(states, actions)
    requires c < |states(i).threads| && Serves(Append(m), states(i).threads[c])
    ensures i <= j && c < |states(j).threads| && Answer(Append(m), states(j).threads[c])
    decreases Stage(states(i).threads[c])
  {
    hide Advance, Stage, IsEndless, Fair, Trying;
    j := i;
    if Trying(states(i).threads[c], m, ReturnFalse) {
      TryingTakes(capacity, states, actions, i, c, m);
      j := NextOperation(capacity, states, actions, i, c);
      TryingIsNoLoop(states(i).threads[c], m);
      MovesFurther(states(j), actions(j).choice, states(j + 1), c);
      ServesMove(states(j), c, actions(j).choice, states(j + 1), Append(m));
      j := TryEnds(capacity, states, actions, j + 1, c, m);
    }
  }

  lemma TryingIsNoLoop(pc: Thread, m: Message)
    requires Trying(pc, m, ReturnFalse)
    ensures !pc.LoopTest?
  {
  }

  /** Append is answered whatever the other threads do, as long as it gets its turns. */
  lemma AppendIsAnswered(capacity: nat, states: nat -> State, actions: nat -> Action, i: nat, msg: Message)
    returns (j: nat)
    requires Begins(capacity, states, actions, i, Append(msg)) && Fair(states, actions)
    ensures i < j && |states(i).threads| < |states(j).threads|
    ensures Answer(Append(msg), states(j).threads[|states(i).threads|])
  {
    hide Moves, Fair, Answer;
    KeepsServing(capacity, states, actions, i, Append(msg), i + 1);
    j := TryEnds(capacity, states, actions, i + 1, |states(i).threads|, msg);
  }
}
