/**
 What the calls of core/messagebatch.go answer, in every interleaving: when a message is accepted,
 refused or dropped, in terms of what the call can have seen since it started.
 */
module BatchCalls {
  import opened Utilities
  import opened MessageBatch

  // -------------------------------------------------------------- where a call can be

  predicate IsAccepted(pc: Thread, msg: Message) { pc.Accepted? && pc.msg == msg }

  /** Inside of Append. */
  predicate Trying(pc: Thread, msg: Message, onFail: OnFail) {
    || pc == ClosedTest(msg, onFail)
    || pc == Draw(msg, onFail)
    || (pc.Slot? && pc.msg == msg && pc.onFail == onFail)
    || (pc.Finish? && pc.msg == msg && pc.onFail == onFail)
  }

  /** Inside of Flush. */
  predicate FlushPoint(pc: Thread) {
    pc.EmptyTest? || pc.Acquire? || pc.LoadSet? || pc.SwapSet? || pc.AwaitWriters?
  }

  /** Behind the test for an empty buffer. */
  predicate Switching(pc: Thread) { FlushPoint(pc) && !pc.EmptyTest? }

  predicate InFlush(pc: Thread, next: AfterFlush) { FlushPoint(pc) && pc.next == next }

  /** What the thread of a call does, and with what it ends. */
  predicate Serves(call: Call, pc: Thread) {
    match call
    case Append(m) => Trying(pc, m, ReturnFalse) || IsAccepted(pc, m) || pc == Refused(m)
    case AppendOrBlock(m) =>
      pc == LoopTest(m, false) || Trying(pc, m, TryAgain(false)) || IsAccepted(pc, m) || pc == Refused(m)
    case AppendOrFlush(m) => Trying(pc, m, FlushThenBlock) || Behind(m, pc)
    case Flush => InFlush(pc, AfterFlush.Return) || pc == Returned
    case Close => pc == CloseMark || InFlush(pc, WaitForFlush) || pc == AwaitFlush || pc == Closed
    case AfterFlushDo => pc == CallbackAcquire || pc == CallbackRun || pc == Returned
  }

  /** AppendOrFlush when its first try has been answered. */
  predicate Behind(m: Message, pc: Thread) {
    InFlush(pc, AskCanBlock(m)) || pc == CanBlock(m) || pc == LoopTest(m, true) || Trying(pc, m, TryAgain(true))
    || IsAccepted(pc, m) || pc == Dropped(m)
  }

  lemma ServesStep(s: State, action: Action, s': State, c: nat, call: Call)
    requires Moves(s, action, s') && c < |s.threads| && Serves(call, s.threads[c])
    ensures c < |s'.threads| && Serves(call, s'.threads[c])
  {
    hide Serves;
    StepFrame(s, action, s', c);
    if action.Go? && action.t == c { ServesMove(s, c, action.choice, s', call); }
  }

  lemma ServesMove(s: State, c: nat, choice: bool, s': State, call: Call)
    requires Shaped(s) && c < |s.threads| && Advance(s, c, choice) == Some(s') && Serves(call, s.threads[c])
    ensures c < |s'.threads| && Serves(call, s'.threads[c])
  {
    hide Advance, Serves, Trying, IsAccepted, InFlush, Leads;
    var pc := s.threads[c];
    if pc.ClosedTest? || pc.Draw? || pc.Slot? || pc.Finish? {
      TryingMove(s, c, choice, s');
      TryingServes(call, pc, s'.threads[c]);
    } else if FlushPoint(pc) {
      FlushMove(s, c, choice, s');
      FlushServes(call, pc, s'.threads[c]);
    } else {
      RestMove(s, c, choice, s');
      RestServes(call, pc, s'.threads[c]);
    }
  }

  lemma TryingServes(call: Call, pc: Thread, pc': Thread)
    requires Serves(call, pc) && (pc.ClosedTest? || pc.Draw? || pc.Slot? || pc.Finish?)
    requires Trying(pc', pc.msg, pc.onFail) || IsAccepted(pc', pc.msg) || pc' == AfterFailure(pc.msg, pc.onFail)
    ensures Serves(call, pc')
  {
  }

  lemma FlushServes(call: Call, pc: Thread, pc': Thread)
    requires Serves(call, pc) && FlushPoint(pc) && (InFlush(pc', pc.next) || pc' == Continue(pc.next))
    ensures Serves(call, pc')
  {
  }

  lemma RestServes(call: Call, pc: Thread, pc': Thread)
    requires Serves(call, pc) && !FlushPoint(pc) && Leads(pc, pc')
    requires !pc.ClosedTest? && !pc.Draw? && !pc.Slot? && !pc.Finish?
    ensures Serves(call, pc')
  {
  }

  /** Where the other points lead to. */
  predicate Leads(pc: Thread, pc': Thread) {
    match pc
    case LoopTest(msg, drop) =>
      pc' == ClosedTest(msg, TryAgain(drop)) || pc' == if drop then Dropped(msg) else Refused(msg)
    case CanBlock(msg) => pc' == LoopTest(msg, true) || pc' == Dropped(msg)
    case CloseMark => pc' == EmptyTest(WaitForFlush)
    case AwaitFlush => pc' == Closed
    case CallbackAcquire => pc' == CallbackRun
    case CallbackRun => pc' == Returned
    case Accepted(_, _, _) => false
    case Refused(_) => false
    case Dropped(_) => false
    case Closed => false
    case Returned => false
    case _ => true
  }

  lemma RestMove(s: State, c: nat, choice: bool, s': State)
    requires Shaped(s) && c < |s.threads| && Advance(s, c, choice) == Some(s')
    ensures c < |s'.threads| && Leads(s.threads[c], s'.threads[c])
  {
  }

  lemma TryingMove(s: State, c: nat, choice: bool, s': State)
    requires Shaped(s) && c < |s.threads| && Advance(s, c, choice) == Some(s')
    requires var pc := s.threads[c]; pc.ClosedTest? || pc.Draw? || pc.Slot? || pc.Finish?
    ensures c < |s'.threads|
    ensures var pc, pc' := s.threads[c], s'.threads[c];
      Trying(pc', pc.msg, pc.onFail) || IsAccepted(pc', pc.msg) || pc' == AfterFailure(pc.msg, pc.onFail)
  {
  }

  lemma FlushMove(s: State, c: nat, choice: bool, s': State)
    requires Shaped(s) && c < |s.threads| && Advance(s, c, choice) == Some(s') && FlushPoint(s.threads[c])
    ensures c < |s'.threads|
    ensures InFlush(s'.threads[c], s.threads[c].next) || s'.threads[c] == Continue(s.threads[c].next)
  {
  }

  /** Action `i` starts the call. */
  ghost predicate Starts(capacity: nat, states: seq<State>, actions: seq<Action>, i: nat, call: Call) {
    IsRun(capacity, states, actions) && i < |actions| && actions[i] == Start(call)
  }

  lemma StartedAs(s: State, call: Call, s': State)
    requires Moves(s, Start(call), s')
    ensures s'.threads == s.threads + [Entry(call)] && s'.closed == s.closed && s'.word == s.word
  {
  }

  lemma {:induction false} ThreadsStay(capacity: nat, states: seq<State>, actions: seq<Action>, i: nat, call: Call,
                                       j: nat)
    requires Starts(capacity, states, actions, i, call) && i < j < |states|
    ensures |states[i].threads| < |states[j].threads|
    decreases j
  {
    hide Moves;
    assert Moves(states[j - 1], actions[j - 1], states[j]);
    if i + 1 == j {
      StartedAs(states[i], call, states[j]);
    } else {
      ThreadsStay(capacity, states, actions, i, call, j - 1);
      StepFrame(states[j - 1], actions[j - 1], states[j], |states[i].threads|);
    }
  }

  /** The thread of a call stays with the call and its message, and ends with one of its answers. */
  lemma {:induction false} StaysWithItsCall(capacity: nat, states: seq<State>, actions: seq<Action>, i: nat,
                                            call: Call, j: nat)
    requires Starts(capacity, states, actions, i, call) && i < j < |states|
    ensures |states[i].threads| < |states[j].threads| && Serves(call, states[j].threads[|states[i].threads|])
    decreases j
  {
    hide Moves, Serves;
    assert Moves(states[j - 1], actions[j - 1], states[j]);
    if i + 1 == j {
      StartedAs(states[i], call, states[j]);
      EntryServes(call);
    } else {
      StaysWithItsCall(capacity, states, actions, i, call, j - 1);
      ServesStep(states[j - 1], actions[j - 1], states[j], |states[i].threads|, call);
    }
  }

  lemma EntryServes(call: Call)
    ensures Serves(call, Entry(call))
  {
  }

  // ------------------------------------------------------------------- a closed batch

  /** The thread has no ticket, is not about to draw one and has not been accepted. */
  predicate OffTheQueue(pc: Thread) { !pc.Draw? && !pc.Slot? && !pc.Finish? && !pc.Accepted? }

  lemma OffTheQueueStep(s: State, action: Action, s': State, c: nat)
    requires Moves(s, action, s') && c < |s.threads| && s.closed && OffTheQueue(s.threads[c])
    ensures c < |s'.threads| && s'.closed && OffTheQueue(s'.threads[c])
  {
    hide OffTheQueue;
    StepFrame(s, action, s', c);
    StepKeeps(s, action, s');
    if action.Go? && action.t == c { OffTheQueueMove(s, c, action.choice, s'); }
  }

  lemma OffTheQueueMove(s: State, c: nat, choice: bool, s': State)
    requires Shaped(s) && c < |s.threads| && Advance(s, c, choice) == Some(s')
    requires s.closed && OffTheQueue(s.threads[c])
    ensures c < |s'.threads| && OffTheQueue(s'.threads[c])
  {
  }

  /** A call that starts when the batch is closed draws no ticket and is never accepted. */
  lemma {:induction false} ClosedRefuses(capacity: nat, states: seq<State>, actions: seq<Action>, i: nat, call: Call,
                                         j: nat)
    requires Starts(capacity, states, actions, i, call) && i < j < |states| && states[i].closed
    ensures |states[i].threads| < |states[j].threads|
    ensures states[j].closed && OffTheQueue(states[j].threads[|states[i].threads|])
    decreases j
  {
    hide Moves, OffTheQueue;
    assert Moves(states[j - 1], actions[j - 1], states[j]);
    if i + 1 == j {
      StartedAs(states[i], call, states[j]);
      assert OffTheQueue(Entry(call)) by { EntryIsOff(call); }
    } else {
      ClosedRefuses(capacity, states, actions, i, call, j - 1);
      OffTheQueueStep(states[j - 1], actions[j - 1], states[j], |states[i].threads|);
    }
  }

  lemma EntryIsOff(call: Call)
    ensures OffTheQueue(Entry(call))
  {
  }

  lemma CloseMarks(s: State, action: Action, s': State, c: nat)
    requires Moves(s, action, s') && c < |s.threads| && Serves(Close, s.threads[c])
    requires s.threads[c] == CloseMark || s.closed
    ensures c < |s'.threads| && (s'.threads[c] == CloseMark || s'.closed)
  {
    StepFrame(s, action, s', c);
  }

  /** Behind the first operation of a Close the batch is closed. */
  lemma {:induction false} CloseCloses(capacity: nat, states: seq<State>, actions: seq<Action>, i: nat, j: nat)
    requires Starts(capacity, states, actions, i, Close) && i < j < |states|
    ensures |states[i].threads| < |states[j].threads|
    ensures states[j].threads[|states[i].threads|] == CloseMark || states[j].closed
    decreases j
  {
    hide Moves;
    assert Moves(states[j - 1], actions[j - 1], states[j]);
    if i + 1 == j {
      StartedAs(states[i], Close, states[j]);
    } else {
      CloseCloses(capacity, states, actions, i, j - 1);
      StaysWithItsCall(capacity, states, actions, i, Close, j - 1);
      CloseMarks(states[j - 1], actions[j - 1], states[j], |states[i].threads|);
    }
  }

  /** When a Close has returned, no message of a call that starts afterwards is accepted. */
  lemma NothingAfterClose(capacity: nat, states: seq<State>, actions: seq<Action>, i: nat, j: nat, k: nat, call: Call,
                          l: nat)
    requires Starts(capacity, states, actions, i, Close) && i < j <= k < l < |states|
    requires |states[i].threads| < |states[j].threads| && states[j].threads[|states[i].threads|] == Closed
    requires Starts(capacity, states, actions, k, call)
    ensures |states[k].threads| < |states[l].threads| && !states[l].threads[|states[k].threads|].Accepted?
  {
    CloseCloses(capacity, states, actions, i, j);
    HistoryGrows(capacity, states, actions, j, k);
    ClosedRefuses(capacity, states, actions, k, call, l);
  }

  // --------------------------------------------------- what a call has seen since it started

  ghost predicate WasClosed(states: seq<State>, i: nat, j: nat) {
    exists k :: i < k < j && k < |states| && states[k].closed
  }

  ghost predicate WasOpen(states: seq<State>, i: nat, j: nat) {
    exists k :: i < k < j && k < |states| && !states[k].closed
  }

  /** The front buffer had no slot left. */
  ghost predicate WasFull(states: seq<State>, i: nat, j: nat, capacity: nat) {
    exists k :: i < k < j && k < |states| && CountOf(states[k].word) >= capacity
  }

  ghost predicate HadRoom(states: seq<State>, i: nat, j: nat, capacity: nat) {
    exists k :: i < k < j && k < |states| && CountOf(states[k].word) < capacity
  }

  ghost predicate HadTickets(states: seq<State>, i: nat, j: nat) {
    exists k :: i < k < j && k < |states| && CountOf(states[k].word) > 0
  }

  ghost predicate CouldFail(states: seq<State>, i: nat, j: nat, capacity: nat) {
    WasClosed(states, i, j) || WasFull(states, i, j, capacity)
  }

  ghost predicate CouldSucceed(states: seq<State>, i: nat, j: nat, capacity: nat) {
    WasOpen(states, i, j) && HadRoom(states, i, j, capacity)
  }

  lemma SeenStays(states: seq<State>, i: nat, j: nat, capacity: nat)
    requires i < j < |states|
    ensures WasClosed(states, i, j) || states[j].closed ==> WasClosed(states, i, j + 1)
    ensures WasOpen(states, i, j) || !states[j].closed ==> WasOpen(states, i, j + 1)
    ensures WasFull(states, i, j, capacity) || CountOf(states[j].word) >= capacity
      ==> WasFull(states, i, j + 1, capacity)
    ensures HadRoom(states, i, j, capacity) || CountOf(states[j].word) < capacity
      ==> HadRoom(states, i, j + 1, capacity)
    ensures HadTickets(states, i, j) || CountOf(states[j].word) > 0 ==> HadTickets(states, i, j + 1)
  {
  }

  /** What the thread of a call has seen when it is at this point. */
  ghost predicate Seen(states: seq<State>, i: nat, j: nat, capacity: nat, pc: Thread) {
    match pc
    case Draw(_, _) => WasOpen(states, i, j)
    case Slot(_, _, _, ticket, _) =>
      WasOpen(states, i, j)
      && if ticket < capacity then HadRoom(states, i, j, capacity) else WasFull(states, i, j, capacity)
    case Finish(_, _, _, ok, _, _) =>
      WasOpen(states, i, j) && if ok then HadRoom(states, i, j, capacity) else WasFull(states, i, j, capacity)
    case Accepted(_, _, _) => CouldSucceed(states, i, j, capacity)
    case Refused(_) => CouldFail(states, i, j, capacity)
    case _ => Switching(pc) ==> HadTickets(states, i, j)
  }

  /** What the next point of a try depends on. */
  predicate Depends(s: State, capacity: nat, pc: Thread, pc': Thread) {
    && (pc'.Draw? ==> !s.closed)
    && (pc'.Slot? ==> pc.Draw? && pc'.ticket == CountOf(s.word))
    && (pc'.Finish? ==> pc.Slot? && (pc'.ok <==> pc.ticket < capacity))
    && (pc'.Accepted? ==> pc.Finish? && pc.ok)
    && (pc'.Refused? ==> s.closed || (pc.Finish? && !pc.ok))
    && (Switching(pc') ==> Switching(pc) || CountOf(s.word) > 0)
  }

  lemma DrawDepends(s: State, capacity: nat, c: nat, choice: bool, s': State)
    requires Inv(s, capacity) && c < |s.threads| && NoCarry(s, Go(c, choice)) && Advance(s, c, choice) == Some(s')
    requires s.threads[c].Draw?
    ensures c < |s'.threads| && Depends(s, capacity, s.threads[c], s'.threads[c])
  {
    hide ThreadOk, TicketOk, EpochsOk, DeliveredOk, LockOk;
    DrawWord(s, capacity);
    assert s' == DrawStep(s, c);
  }

  lemma OtherDepends(s: State, capacity: nat, c: nat, choice: bool, s': State)
    requires Shaped(s) && c < |s.threads| && !s.threads[c].Draw? && Advance(s, c, choice) == Some(s')
    requires |s.queues[0].messages| == |s.queues[1].messages| == capacity
    ensures c < |s'.threads| && Depends(s, capacity, s.threads[c], s'.threads[c])
  {
    var pc := s.threads[c];
    if pc.ClosedTest? || pc.Slot? || pc.Finish? {
      TryingDepends(s, capacity, c, choice, s');
    } else if FlushPoint(pc) {
      FlushDepends(s, c, choice, s');
      hide Advance;
      FlushMove(s, c, choice, s');
    } else {
      RestDepends(s, capacity, c, choice, s');
    }
  }

  lemma FlushDepends(s: State, c: nat, choice: bool, s': State)
    requires Shaped(s) && c < |s.threads| && Advance(s, c, choice) == Some(s') && FlushPoint(s.threads[c])
    ensures c < |s'.threads|
    ensures Switching(s'.threads[c]) ==> Switching(s.threads[c]) || CountOf(s.word) > 0
  {
  }

  lemma RestDepends(s: State, capacity: nat, c: nat, choice: bool, s': State)
    requires Shaped(s) && c < |s.threads| && Advance(s, c, choice) == Some(s')
    requires var pc := s.threads[c];
      !pc.ClosedTest? && !pc.Draw? && !pc.Slot? && !pc.Finish? && !FlushPoint(pc)
    ensures c < |s'.threads| && Depends(s, capacity, s.threads[c], s'.threads[c])
  {
    match s.threads[c]
    case LoopTest(_, _) =>
    case CanBlock(_) =>
    case _ =>
  }

  lemma TryingDepends(s: State, capacity: nat, c: nat, choice: bool, s': State)
    requires Shaped(s) && c < |s.threads| && Advance(s, c, choice) == Some(s')
    requires var pc := s.threads[c]; pc.ClosedTest? || pc.Slot? || pc.Finish?
    requires |s.queues[0].messages| == |s.queues[1].messages| == capacity
    ensures c < |s'.threads| && Depends(s, capacity, s.threads[c], s'.threads[c])
  {
  }

  lemma SeenMove(states: seq<State>, i: nat, j: nat, capacity: nat, c: nat, choice: bool)
    requires i < j && j + 1 < |states| && Inv(states[j], capacity) && c < |states[j].threads|
    requires NoCarry(states[j], Go(c, choice)) && Advance(states[j], c, choice) == Some(states[j + 1])
    requires Seen(states, i, j, capacity, states[j].threads[c])
    ensures c < |states[j + 1].threads| && Seen(states, i, j + 1, capacity, states[j + 1].threads[c])
  {
    hide HadTickets, WasClosed, WasOpen, WasFull, HadRoom, Advance, NoCarry;
    hide ThreadOk, TicketOk, EpochsOk, DeliveredOk, LockOk;
    SeenStays(states, i, j, capacity);
    if states[j].threads[c].Draw? {
      DrawDepends(states[j], capacity, c, choice, states[j + 1]);
    } else {
      OtherDepends(states[j], capacity, c, choice, states[j + 1]);
    }
  }

  lemma {:induction false} SeenRun(capacity: nat, states: seq<State>, actions: seq<Action>, i: nat, call: Call, j: nat)
    requires Starts(capacity, states, actions, i, call) && i < j < |states|
    ensures |states[i].threads| < |states[j].threads|
    ensures Seen(states, i, j, capacity, states[j].threads[|states[i].threads|])
    decreases j
  {
    hide Seen, Inv;
    assert Moves(states[j - 1], actions[j - 1], states[j]);
    if i + 1 == j {
      StartedAs(states[i], call, states[j]);
      EntryHasSeen(states, i, j, capacity, call);
    } else {
      SeenRun(capacity, states, actions, i, call, j - 1);
      RunInv(capacity, states, actions, j - 1);
      var c := |states[i].threads|;
      StepFrame(states[j - 1], actions[j - 1], states[j], c);
      if actions[j - 1].Go? && actions[j - 1].t == c {
        SeenMove(states, i, j - 1, capacity, c, actions[j - 1].choice);
      } else {
        SeenMore(states, i, j - 1, capacity, states[j].threads[c]);
      }
    }
  }

  lemma EntryHasSeen(states: seq<State>, i: nat, j: nat, capacity: nat, call: Call)
    ensures Seen(states, i, j, capacity, Entry(call))
  {
  }

  lemma SeenMore(states: seq<State>, i: nat, j: nat, capacity: nat, pc: Thread)
    requires i < j < |states| && Seen(states, i, j, capacity, pc)
    ensures Seen(states, i, j + 1, capacity, pc)
  {
    hide HadTickets, WasClosed, WasOpen, WasFull, HadRoom;
    SeenStays(states, i, j, capacity);
  }

  /** Append answers true only if since its start the batch was open and the front buffer had a slot
      left, and false only if it was closed or had none. */
  lemma AnswerOfAppend(capacity: nat, states: seq<State>, actions: seq<Action>, i: nat, msg: Message, j: nat)
    requires Starts(capacity, states, actions, i, Append(msg)) && i < j < |states|
    ensures |states[i].threads| < |states[j].threads|
    ensures var pc := states[j].threads[|states[i].threads|];
      && (pc.Accepted? ==> pc.msg == msg && CouldSucceed(states, i, j, capacity))
      && (pc.Refused? ==> pc.msg == msg && CouldFail(states, i, j, capacity))
      && !pc.Dropped?
  {
    hide CouldSucceed, CouldFail;
    StaysWithItsCall(capacity, states, actions, i, Append(msg), j);
    SeenRun(capacity, states, actions, i, Append(msg), j);
  }

  // ---------------------------------------------------------------- AppendOrBlock

  lemma BlockMove(s: State, c: nat, choice: bool, s': State, m: Message)
    requires Shaped(s) && c < |s.threads| && Advance(s, c, choice) == Some(s')
    requires Serves(AppendOrBlock(m), s.threads[c])
    ensures c < |s'.threads| && (s'.threads[c].Refused? ==> s.closed)
  {
    if !s.threads[c].LoopTest? {
      hide Advance;
      TryingMove(s, c, choice, s');
    }
  }

  lemma BlockStep(s: State, action: Action, s': State, c: nat, m: Message)
    requires Moves(s, action, s') && c < |s.threads| && Serves(AppendOrBlock(m), s.threads[c])
    requires s.threads[c].Refused? ==> s.closed
    ensures c < |s'.threads| && (s'.threads[c].Refused? ==> s'.closed)
  {
    StepFrame(s, action, s', c);
    StepKeeps(s, action, s');
    if action.Go? && action.t == c {
      hide Serves;
      BlockMove(s, c, action.choice, s', m);
    }
  }

  /** AppendOrBlock answers false only if the batch is closed; a full buffer is not enough. */
  lemma {:induction false} AnswerOfAppendOrBlock(capacity: nat, states: seq<State>, actions: seq<Action>, i: nat,
                                                 msg: Message, j: nat)
    requires Starts(capacity, states, actions, i, AppendOrBlock(msg)) && i < j < |states|
    ensures |states[i].threads| < |states[j].threads|
    ensures var pc := states[j].threads[|states[i].threads|];
      && (pc.Accepted? ==> pc.msg == msg && CouldSucceed(states, i, j, capacity))
      && (pc.Refused? ==> pc.msg == msg && states[j].closed)
      && !pc.Dropped?
    decreases j
  {
    hide CouldSucceed, Moves;
    StaysWithItsCall(capacity, states, actions, i, AppendOrBlock(msg), j);
    SeenRun(capacity, states, actions, i, AppendOrBlock(msg), j);
    assert Moves(states[j - 1], actions[j - 1], states[j]);
    if i + 1 == j {
      StartedAs(states[i], AppendOrBlock(msg), states[j]);
    } else {
      AnswerOfAppendOrBlock(capacity, states, actions, i, msg, j - 1);
      StaysWithItsCall(capacity, states, actions, i, AppendOrBlock(msg), j - 1);
      hide Serves;
      BlockStep(states[j - 1], actions[j - 1], states[j], |states[i].threads|, msg);
    }
  }

  // ---------------------------------------------------------------- AppendOrFlush

  /** In the AppendOrBlock that follows if `canBlock` agreed. */
  predicate Blocking(m: Message, pc: Thread) { pc == LoopTest(m, true) || Trying(pc, m, TryAgain(true)) }

  /** Its own Flush has started. */
  ghost predicate Flushed(states: seq<State>, i: nat, j: nat, c: nat, m: Message) {
    exists k :: i < k < j && k < |states| && c < |states[k].threads|
                && states[k].threads[c] == EmptyTest(AskCanBlock(m))
  }

  /** `canBlock` was asked and gave this answer. */
  ghost predicate Asked(states: seq<State>, actions: seq<Action>, i: nat, j: nat, c: nat, m: Message, answer: bool) {
    exists k :: i < k < j && k < |states| && k < |actions| && c < |states[k].threads|
                && states[k].threads[c] == CanBlock(m) && actions[k] == Go(c, answer)
  }

  /** What has happened in an AppendOrFlush that is at this point. */
  ghost predicate Went(states: seq<State>, actions: seq<Action>, i: nat, j: nat, capacity: nat, c: nat, m: Message,
                       closed: bool, pc: Thread) {
    && (Behind(m, pc) && !pc.Accepted? ==>
          CouldFail(states, i, j, capacity) && (!pc.EmptyTest? ==> Flushed(states, i, j, c, m)))
    && (Blocking(m, pc) ==> Asked(states, actions, i, j, c, m, true))
    && (pc == Dropped(m) ==>
          Asked(states, actions, i, j, c, m, false) || (Asked(states, actions, i, j, c, m, true) && closed))
    && (Asked(states, actions, i, j, c, m, false) ==> pc == Dropped(m))
  }

  /** The next operation of an AppendOrFlush. */
  predicate Route(m: Message, closed: bool, choice: bool, pc: Thread, pc': Thread) {
    if Trying(pc, m, FlushThenBlock) then
      || Trying(pc', m, FlushThenBlock) || IsAccepted(pc', m)
      || (pc' == EmptyTest(AskCanBlock(m)) && ((pc.ClosedTest? && closed) || (pc.Finish? && !pc.ok)))
    else if InFlush(pc, AskCanBlock(m)) then
      (InFlush(pc', AskCanBlock(m)) && !pc'.EmptyTest?) || pc' == CanBlock(m)
    else if pc == CanBlock(m) then pc' == if choice then LoopTest(m, true) else Dropped(m)
    else if pc == LoopTest(m, true) then pc' == if closed then Dropped(m) else ClosedTest(m, TryAgain(true))
    else Trying(pc', m, TryAgain(true)) || IsAccepted(pc', m) || pc' == LoopTest(m, true)
  }

  lemma RouteMove(s: State, c: nat, choice: bool, s': State, m: Message)
    requires Shaped(s) && c < |s.threads| && Advance(s, c, choice) == Some(s')
    requires Serves(AppendOrFlush(m), s.threads[c])
    ensures c < |s'.threads| && Route(m, s.closed, choice, s.threads[c], s'.threads[c])
  {
    var pc := s.threads[c];
    if pc.ClosedTest? || pc.Draw? || pc.Slot? || pc.Finish? {
      TryingRoute(s, c, choice, s');
      hide Advance;
      TryingMove(s, c, choice, s');
    } else if FlushPoint(pc) {
      FlushRoute(s, c, choice, s');
      hide Advance;
      FlushMove(s, c, choice, s');
    }
  }

  lemma TryingRoute(s: State, c: nat, choice: bool, s': State)
    requires Shaped(s) && c < |s.threads| && Advance(s, c, choice) == Some(s')
    requires var pc := s.threads[c]; pc.ClosedTest? || pc.Draw? || pc.Slot? || pc.Finish?
    ensures c < |s'.threads|
    ensures var pc, pc' := s.threads[c], s'.threads[c];
      pc'.EmptyTest? ==> (pc.ClosedTest? && s.closed) || (pc.Finish? && !pc.ok)
  {
  }

  lemma FlushRoute(s: State, c: nat, choice: bool, s': State)
    requires Shaped(s) && c < |s.threads| && Advance(s, c, choice) == Some(s') && FlushPoint(s.threads[c])
    ensures c < |s'.threads| && !s'.threads[c].EmptyTest?
  {
  }

  lemma WentStays(states: seq<State>, actions: seq<Action>, i: nat, j: nat, capacity: nat, c: nat, m: Message)
    requires i < j < |states| && c < |states[j].threads|
    ensures CouldFail(states, i, j, capacity) || states[j].closed || WasFull(states, i, j, capacity)
      ==> CouldFail(states, i, j + 1, capacity)
    ensures Flushed(states, i, j, c, m) || states[j].threads[c] == EmptyTest(AskCanBlock(m))
      ==> Flushed(states, i, j + 1, c, m)
    ensures forall answer :: Asked(states, actions, i, j + 1, c, m, answer) <==>
      Asked(states, actions, i, j, c, m, answer)
      || (j < |actions| && states[j].threads[c] == CanBlock(m) && actions[j] == Go(c, answer))
  {
  }

  lemma WentMove(states: seq<State>, actions: seq<Action>, i: nat, j: nat, capacity: nat, c: nat, m: Message)
    requires i < j < |actions| && j + 1 < |states| && c < |states[j].threads| && c < |states[j + 1].threads|
    requires actions[j].Go? && actions[j].t == c && Serves(AppendOrFlush(m), states[j].threads[c])
    requires Route(m, states[j].closed, actions[j].choice, states[j].threads[c], states[j + 1].threads[c])
    requires states[j].closed ==> states[j + 1].closed
    requires !states[j].threads[c].Accepted? && !states[j].threads[c].Dropped?
    requires Seen(states, i, j, capacity, states[j].threads[c])
    requires Went(states, actions, i, j, capacity, c, m, states[j].closed, states[j].threads[c])
    ensures Went(states, actions, i, j + 1, capacity, c, m, states[j + 1].closed, states[j + 1].threads[c])
  {
    hide Flushed, Asked, CouldFail, CouldSucceed, WasOpen, WasFull, HadRoom;
    WentStays(states, actions, i, j, capacity, c, m);
  }

  lemma WentMore(states: seq<State>, actions: seq<Action>, i: nat, j: nat, capacity: nat, c: nat, m: Message)
    requires i < j < |actions| && j + 1 < |states| && c < |states[j].threads|
    requires !(actions[j].Go? && actions[j].t == c) && (states[j].closed ==> states[j + 1].closed)
    requires Went(states, actions, i, j, capacity, c, m, states[j].closed, states[j].threads[c])
    ensures Went(states, actions, i, j + 1, capacity, c, m, states[j + 1].closed, states[j].threads[c])
  {
    hide Flushed, Asked, CouldFail;
    WentStays(states, actions, i, j, capacity, c, m);
  }

  lemma {:induction false} WentRun(capacity: nat, states: seq<State>, actions: seq<Action>, i: nat, msg: Message,
                                   j: nat)
    requires Starts(capacity, states, actions, i, AppendOrFlush(msg)) && i < j < |states|
    ensures |states[i].threads| < |states[j].threads|
    ensures var c := |states[i].threads|;
      Went(states, actions, i, j, capacity, c, msg, states[j].closed, states[j].threads[c])
    decreases j
  {
    hide Moves, Went, Serves, Seen;
    var c := |states[i].threads|;
    assert Moves(states[j - 1], actions[j - 1], states[j]);
    if i + 1 == j {
      StartedAs(states[i], AppendOrFlush(msg), states[j]);
      StartWent(states, actions, i, capacity, c, msg);
    } else {
      WentRun(capacity, states, actions, i, msg, j - 1);
      WentNext(capacity, states, actions, i, msg, j - 1);
    }
  }

  lemma StartWent(states: seq<State>, actions: seq<Action>, i: nat, capacity: nat, c: nat, m: Message)
    requires i + 1 < |states|
    ensures Went(states, actions, i, i + 1, capacity, c, m, states[i + 1].closed, Entry(AppendOrFlush(m)))
  {
  }

  lemma WentNext(capacity: nat, states: seq<State>, actions: seq<Action>, i: nat, msg: Message, j: nat)
    requires Starts(capacity, states, actions, i, AppendOrFlush(msg)) && i < j && j + 1 < |states|
    requires |states[i].threads| < |states[j].threads|
    requires var c := |states[i].threads|;
      Went(states, actions, i, j, capacity, c, msg, states[j].closed, states[j].threads[c])
    ensures |states[i].threads| < |states[j + 1].threads|
    ensures var c := |states[i].threads|;
      Went(states, actions, i, j + 1, capacity, c, msg, states[j + 1].closed, states[j + 1].threads[c])
  {
    hide Went, Serves, Seen, Route, Advance;
    var c := |states[i].threads|;
    assert Moves(states[j], actions[j], states[j + 1]);
    StaysWithItsCall(capacity, states, actions, i, AppendOrFlush(msg), j);
    StepFrame(states[j], actions[j], states[j + 1], c);
    StepKeeps(states[j], actions[j], states[j + 1]);
    if actions[j].Go? && actions[j].t == c {
      SeenRun(capacity, states, actions, i, AppendOrFlush(msg), j);
      RouteMove(states[j], c, actions[j].choice, states[j + 1], msg);
      MovesOn(states[j], c, actions[j].choice);
      WentMove(states, actions, i, j, capacity, c, msg);
    } else {
      WentMore(states, actions, i, j, capacity, c, msg);
    }
  }

  /** A thread that moves has not been answered. */
  lemma MovesOn(s: State, c: nat, choice: bool)
    requires Shaped(s) && c < |s.threads| && Advance(s, c, choice).Some?
    ensures !s.threads[c].Accepted? && !s.threads[c].Dropped?
  {
  }

  /** AppendOrFlush drops its message only after its first try could fail, its Flush has started and
      `canBlock` was asked, and only if that said no, or it said yes and the batch is closed; after a
      no it drops it; and it blocks only after a yes. */
  lemma AnswerOfAppendOrFlush(capacity: nat, states: seq<State>, actions: seq<Action>, i: nat, msg: Message, j: nat)
    requires Starts(capacity, states, actions, i, AppendOrFlush(msg)) && i < j < |states|
    ensures |states[i].threads| < |states[j].threads|
    ensures var c := |states[i].threads|; var pc := states[j].threads[c];
      && (pc.Accepted? ==> pc.msg == msg && CouldSucceed(states, i, j, capacity))
      && (pc.Dropped? ==> pc.msg == msg && CouldFail(states, i, j, capacity) && Flushed(states, i, j, c, msg))
      && (pc.Dropped? ==> Asked(states, actions, i, j, c, msg, false)
                          || (Asked(states, actions, i, j, c, msg, true) && states[j].closed))
      && (Asked(states, actions, i, j, c, msg, false) ==> pc.Dropped?)
      && (Blocking(msg, pc) ==> Asked(states, actions, i, j, c, msg, true))
      && !pc.Refused?
  {
    hide CouldSucceed, CouldFail, Flushed, Asked;
    StaysWithItsCall(capacity, states, actions, i, AppendOrFlush(msg), j);
    SeenRun(capacity, states, actions, i, AppendOrFlush(msg), j);
    WentRun(capacity, states, actions, i, msg, j);
  }

  // ------------------------------------------------------------------------ Flush

  /** A call goes on behind the test for an empty buffer only if since its start there was a ticket
      in the front buffer. */
  lemma EmptyIsNotFlushed(capacity: nat, states: seq<State>, actions: seq<Action>, i: nat, call: Call, j: nat)
    requires Starts(capacity, states, actions, i, call) && i < j < |states|
    ensures |states[i].threads| < |states[j].threads|
    ensures Switching(states[j].threads[|states[i].threads|]) ==> HadTickets(states, i, j)
  {
    SeenRun(capacity, states, actions, i, call, j);
  }

  /** How far a Flush is, relative to a message accepted in epoch `e` before it started. */
  predicate FlusherOk(s: State, pc: Thread, e: nat) {
    e < s.Epoch() || (FlushPoint(pc) && !pc.AwaitWriters?)
  }

  lemma FlusherStep(s: State, capacity: nat, action: Action, s': State, c: nat, e: nat, k: nat)
    requires Inv(s, capacity) && Moves(s, action, s') && c < |s.threads|
    requires e < |s.logs| && k < |s.logs[e]| && FlusherOk(s, s.threads[c], e)
    ensures c < |s'.threads| && FlusherOk(s', s'.threads[c], e)
  {
    StepFrame(s, action, s', c);
    if action.Go? && action.t == c && FlushPoint(s.threads[c]) {
      FlusherMove(s, capacity, c, action.choice, s', e, k);
    }
  }

  lemma FlusherMove(s: State, capacity: nat, c: nat, choice: bool, s': State, e: nat, k: nat)
    requires Inv(s, capacity) && c < |s.threads| && Advance(s, c, choice) == Some(s') && FlushPoint(s.threads[c])
    requires e < |s.logs| && k < |s.logs[e]| && FlusherOk(s, s.threads[c], e)
    ensures c < |s'.threads| && FlusherOk(s', s'.threads[c], e)
  {
    hide ThreadOk, TicketOk, EpochsOk, DeliveredOk, LockOk;
    match s.threads[c]
    case EmptyTest(_) => assert CountOf(s.word) == |s.logs[s.Epoch()]|;
    case SwapSet(_, _) => assert s'.Epoch() == s.Epoch() + 1;
    case _ =>
  }

  /** When a Flush has returned, the buffers have been switched for every message that was accepted
      before it started. */
  lemma {:induction false} FlushSwitches(capacity: nat, states: seq<State>, actions: seq<Action>, i: nat, j: nat,
                                         t: nat)
    requires Starts(capacity, states, actions, i, Flush) && i < j < |states|
    requires t < |states[i].threads| && states[i].threads[t].Accepted?
    ensures |states[i].threads| < |states[j].threads|
    ensures FlusherOk(states[j], states[j].threads[|states[i].threads|], states[i].threads[t].epoch)
    ensures states[j].threads[|states[i].threads|] == Returned ==> states[i].threads[t].epoch < states[j].Epoch()
    decreases j
  {
    hide Inv, Step;
    assert Moves(states[j - 1], actions[j - 1], states[j]);
    if i + 1 == j {
      StartedAs(states[i], Flush, states[j]);
    } else {
      FlushSwitches(capacity, states, actions, i, j - 1, t);
      RunInv(capacity, states, actions, j - 1);
      HistoryGrows(capacity, states, actions, i, j - 1);
      AcceptedHasTicket(states[j - 1], capacity, t);
      var pc := states[i].threads[t];
      FlusherStep(states[j - 1], capacity, actions[j - 1], states[j], |states[i].threads|, pc.epoch, pc.ticket);
    }
  }
}
