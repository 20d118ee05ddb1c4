/**
 Why the progress of core/messagebatch.go needs strong fairness: a run in which no thread that stays
 able to move waits for ever, and in which a Flush never gets the lock, since callbacks that others
 run under it (AfterFlushDo) take it whenever it is free.
 */
module BatchStarving {
  import opened Utilities
  import opened MessageBatch
  import opened BatchProgress

  /** A message is appended, and a flush comes up to the lock. */
  function Opening(m: Message): seq<Action> {
    [Start(Append(m)), Go(0, true), Go(0, true), Go(0, true), Go(0, true), Start(Flush), Go(1, true)]
  }

  function Next(s: State, action: Action): State {
    if Shaped(s) && Step(s, action).Some? then Step(s, action).value else s
  }

  function Opened(capacity: nat, m: Message, i: nat): State
    requires i <= 7
  {
    if i == 0 then NewMessageBatch(capacity) else Next(Opened(capacity, m, i - 1), Opening(m)[i - 1])
  }

  /** Then one callback after the other starts, takes the lock, and returns. */
  function Round(from: State, k: nat, phase: nat): State {
    var done := from.threads + seq(k, _ => Returned);
    from.(threads := done + (if phase == 1 then [CallbackAcquire] else if phase == 2 then [CallbackRun] else []),
          flushing := if phase == 2 then 1 else 0,
          holder := if phase == 2 then |done| else -1)
  }

  function StateAt(capacity: nat, m: Message, i: nat): State {
    if i < 7 then Opened(capacity, m, i) else Round(Opened(capacity, m, 7), (i - 7) / 3, (i - 7) % 3)
  }

  function ActionAt(m: Message, i: nat): Action {
    if i < 7 then Opening(m)[i]
    else if (i - 7) % 3 == 0 then Start(AfterFlushDo)
    else Go(2 + (i - 7) / 3, true)
  }

  predicate Over(pc: Thread) { pc.Accepted? || pc.Refused? || pc.Returned? }

  /** The flush stands in front of the free lock. */
  predicate Waits(s: State) {
    && Shaped(s) && |s.threads| == 2 && Over(s.threads[0]) && s.threads[1] == Acquire(Return)
    && s.flushing == 0 && s.holder == -1
  }

  lemma Moved(s: State, action: Action, s': State)
    requires Shaped(s) && NoCarry(s, action) && Step(s, action) == Some(s')
    ensures Moves(s, action, s') && Next(s, action) == s'
  {
  }

  /** Up to the ticket. */
  lemma OpensDrawing(capacity: nat, m: Message)
    ensures forall i: nat :: i < 3 ==> Moves(Opened(capacity, m, i), Opening(m)[i], Opened(capacity, m, i + 1))
    ensures Opened(capacity, m, 3) == NewMessageBatch(capacity).(word := 1,
      threads := [Slot(m, ReturnFalse, 0, 0, 0)], logs := [[Ticket(0, m, Drawn)]])
  {
    var s0 := NewMessageBatch(capacity);
    var s1 := s0.(threads := [ClosedTest(m, ReturnFalse)]);
    var s2 := s0.(threads := [Draw(m, ReturnFalse)]);
    var s3 := s0.(word := 1, threads := [Slot(m, ReturnFalse, 0, 0, 0)], logs := [[Ticket(0, m, Drawn)]]);
    assert Step(s0, Opening(m)[0]).value.threads == s1.threads;
    Moved(s0, Opening(m)[0], s1);
    assert Step(s1, Opening(m)[1]).value.threads == s2.threads;
    Moved(s1, Opening(m)[1], s2);
    assert DrawStep(s2, 0).logs[0] == [Ticket(0, m, Drawn)];
    assert DrawStep(s2, 0).threads == s3.threads && DrawStep(s2, 0).logs == s3.logs;
    Moved(s2, Opening(m)[2], s3);
    hide Moves, Next;
    assert Opened(capacity, m, 0) == s0;
    assert Opened(capacity, m, 1) == Next(s0, Opening(m)[0]);
    assert Opened(capacity, m, 2) == Next(s1, Opening(m)[1]);
    assert Opened(capacity, m, 3) == Next(s2, Opening(m)[2]);
  }

  /** The append returns. */
  lemma OpensAppending(capacity: nat, m: Message)
    ensures forall i: nat :: 3 <= i < 5 ==> Moves(Opened(capacity, m, i), Opening(m)[i], Opened(capacity, m, i + 1))
    ensures var s := Opened(capacity, m, 5);
      && Shaped(s) && |s.threads| == 1 && Over(s.threads[0]) && s.word == 1 && s.flushing == 0 && s.holder == -1
  {
    OpensDrawing(capacity, m);
    var s3 := Opened(capacity, m, 3);
    var s4 := SlotStep(s3, 0);
    var s5 := FinishStep(s4, 0);
    Moved(s3, Opening(m)[3], s4);
    Moved(s4, Opening(m)[4], s5);
    hide Moves, Next;
    assert Opened(capacity, m, 4) == Next(s3, Opening(m)[3]);
    assert Opened(capacity, m, 5) == Next(s4, Opening(m)[4]);
  }

  lemma OpeningMoves(capacity: nat, m: Message)
    ensures forall i: nat :: i < 7 ==> Moves(Opened(capacity, m, i), Opening(m)[i], Opened(capacity, m, i + 1))
    ensures Waits(Opened(capacity, m, 7))
    ensures |Opened(capacity, m, 5).threads| == 1 && Opened(capacity, m, 6).threads[1..] == [EmptyTest(Return)]
  {
    OpensDrawing(capacity, m);
    OpensAppending(capacity, m);
    hide Moves;
    var s5 := Opened(capacity, m, 5);
    var s6 := s5.(threads := s5.threads + [EmptyTest(Return)]);
    var s7 := s5.(threads := s5.threads + [Acquire(Return)]);
    Moved(s5, Opening(m)[5], s6);
    assert s6.threads[1 := Acquire(Return)] == s7.threads;
    Moved(s6, Opening(m)[6], s7);
    hide Next;
    assert Opened(capacity, m, 6) == Next(s5, Opening(m)[5]);
    assert Opened(capacity, m, 7) == Next(s6, Opening(m)[6]);
  }

  lemma RoundMoves(from: State, k: nat)
    requires Waits(from)
    ensures Moves(Round(from, k, 0), Start(AfterFlushDo), Round(from, k, 1))
    ensures Moves(Round(from, k, 1), Go(2 + k, true), Round(from, k, 2))
    ensures Moves(Round(from, k, 2), Go(2 + k, true), Round(from, k + 1, 0))
  {
    var done := from.threads + seq(k, _ => Returned);
    assert done + [] == done && |done| == 2 + k;
    assert (done + [CallbackAcquire])[2 + k := CallbackRun] == done + [CallbackRun];
    assert (done + [CallbackRun])[2 + k := Returned] == from.threads + seq(k + 1, _ => Returned);
    assert from.threads + seq(k + 1, _ => Returned) + [] == from.threads + seq(k + 1, _ => Returned);
  }

  lemma RunMoves(capacity: nat, m: Message, i: nat)
    ensures Moves(StateAt(capacity, m, i), ActionAt(m, i), StateAt(capacity, m, i + 1))
  {
    hide Moves, Round, Opened, Waits;
    OpeningMoves(capacity, m);
    var from := Opened(capacity, m, 7);
    if i < 7 {
      RoundZero(from);
    } else {
      var k, phase := (i - 7) / 3, (i - 7) % 3;
      RoundMoves(from, k);
      assert (i + 1 - 7) / 3 == if phase == 2 then k + 1 else k;
      assert (i + 1 - 7) % 3 == if phase == 2 then 0 else phase + 1;
    }
  }

  lemma RoundZero(from: State)
    requires Waits(from)
    ensures Round(from, 0, 0) == from
  {
    assert from.threads + seq(0, _ => Returned) + [] == from.threads;
  }

  /** In a round the flush stands where it was; while the callback runs it can not move, and when it has
      returned nobody else can. */
  lemma RoundStands(from: State, k: nat, t: nat)
    requires Waits(from)
    ensures forall phase: nat ::
      |Round(from, k, phase).threads| > 1 && Round(from, k, phase).threads[1] == Acquire(Return)
    ensures !Able(Round(from, k, 2), 1)
    ensures t != 1 ==> !Able(Round(from, k, 0), t)
  {
  }

  lemma NobodyWaits(capacity: nat, m: Message, i: nat, t: nat) returns (j: nat)
    ensures i <= j && !Able(StateAt(capacity, m, j), t)
  {
    hide Round, Opened, Waits, Able;
    OpeningMoves(capacity, m);
    RoundStands(Opened(capacity, m, 7), i, t);
    if t == 1 {
      j := 7 + 3 * i + 2;
      assert (j - 7) / 3 == i && (j - 7) % 3 == 2;
    } else {
      j := 7 + 3 * i;
      assert (j - 7) / 3 == i && (j - 7) % 3 == 0;
    }
  }

  /** Weak fairness does not make a started Flush return. */
  lemma WeakFairnessStarves(capacity: nat, m: Message) returns (states: nat -> State, actions: nat -> Action, i: nat)
    ensures IsEndless(capacity, states, actions) && Fair(states, actions)
    ensures actions(i) == Start(Flush) && Moves(states(i), actions(i), states(i + 1))
    ensures forall j: nat :: i < j ==>
      |states(i).threads| < |states(j).threads| && !Finished(states(j).threads[|states(i).threads|])
  {
    states, actions, i := (i: nat) => StateAt(capacity, m, i), (i: nat) => ActionAt(m, i), 5;
    hide Moves, StateAt, ActionAt, Able;
    forall j: nat ensures Goes(states(j), actions(j), states(j + 1)) { RunMoves(capacity, m, j); }
    assert states(0) == NewMessageBatch(capacity) by { FirstState(capacity, m); }
    forall j: nat, t: nat | Able(states(j), t)
      ensures exists k: nat :: j <= k && (Takes(states, actions, t, k) || !Able(states(k), t)) {
      var k := NobodyWaits(capacity, m, j, t);
      assert !Able(states(k), t);
    }
    RunMoves(capacity, m, 5);
    FlushStarts(capacity, m);
    forall j: nat | 5 < j ensures |states(j).threads| > 1 && !Finished(states(j).threads[1]) {
      FlushStands(capacity, m, j);
    }
  }

  lemma FirstState(capacity: nat, m: Message)
    ensures StateAt(capacity, m, 0) == NewMessageBatch(capacity)
  {
  }

  lemma FlushStarts(capacity: nat, m: Message)
    ensures ActionAt(m, 5) == Start(Flush) && |StateAt(capacity, m, 5).threads| == 1
  {
    OpeningMoves(capacity, m);
  }

  lemma FlushStands(capacity: nat, m: Message, j: nat)
    requires j > 5
    ensures |StateAt(capacity, m, j).threads| > 1 && !Finished(StateAt(capacity, m, j).threads[1])
  {
    hide Round, Opened, Waits;
    OpeningMoves(capacity, m);
    if j == 6 {
      assert Opened(capacity, m, 6).threads[1] == Opened(capacity, m, 6).threads[1..][0];
    } else {
      RoundStands(Opened(capacity, m, 7), (j - 7) / 3, 0);
    }
  }
}
