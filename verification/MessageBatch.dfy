/**
 The ticketed double buffer of core/messagebatch.go together with its flush lock
 (shared/waitgroup.go), as a step system at the granularity of its atomic operations.

 Any number of threads run; an action names the thread that moves next, so a run is one
 interleaving.  The fields `logs`, `delivered` and `holder` are history variables: no
 step reads them, they only record what happened so that the theorems can talk about it.
 */
module MessageBatch {
  import opened Utilities

  datatype Message = Message(streamID: nat, sequence: nat, data: bytes)

  /** The packed word: bit 31 is the index of the active queue, the rest counts tickets. */
  const INDEX_BIT := 0x8000_0000
  const WORD := 0x1_0000_0000

  function IndexOf(word: nat): nat { word / INDEX_BIT }

  function CountOf(word: nat): nat { word % INDEX_BIT }

  /** `(word & messageBatchIndexMask) ^ messageBatchIndexMask`: the other queue, no tickets. */
  function Flipped(word: nat): nat { if IndexOf(word) == 0 then INDEX_BIT else 0 }

  datatype Queue = Queue(messages: seq<Message>, doneCount: nat)

  // ------------------------------------------------------------------ threads

  /** What the caller of Append does with the answer false. */
  datatype OnFail = ReturnFalse | TryAgain(dropWhenClosed: bool) | FlushThenBlock

  /** Where a thread goes on when its call of Flush returns. */
  datatype AfterFlush = Return | WaitForFlush | AskCanBlock(msg: Message)

  /** A program counter: the next atomic operation of a thread and its local variables.
      `epoch` counts the buffer switches before the ticket was drawn (history only). */
  datatype Thread =
    | LoopTest(msg: Message, dropWhenClosed: bool)
    | ClosedTest(msg: Message, onFail: OnFail)
    | Draw(msg: Message, onFail: OnFail)
    | Slot(msg: Message, onFail: OnFail, idx: nat, ticket: nat, epoch: nat)
    | Finish(msg: Message, onFail: OnFail, idx: nat, ok: bool, ticket: nat, epoch: nat)
    | EmptyTest(next: AfterFlush)
    | Acquire(next: AfterFlush)
    | LoadSet(next: AfterFlush)
    | SwapSet(next: AfterFlush, loaded: nat)
    | AwaitWriters(next: AfterFlush, idx: nat, count: nat)
    | Assemble(idx: nat, count: nat)
    | ResetDone(idx: nat)
    | Release
    | CanBlock(msg: Message)
    | CloseMark
    | AwaitFlush
    | CallbackAcquire
    | CallbackRun
    | Accepted(msg: Message, ticket: nat, epoch: nat)
    | Refused(msg: Message)
    | Dropped(msg: Message)
    | Closed
    | Returned

  datatype Call =
    | Append(msg: Message)
    | AppendOrBlock(msg: Message)
    | AppendOrFlush(msg: Message)
    | Flush
    | Close
    | AfterFlushDo

  function Entry(call: Call): Thread {
    match call
    case Append(m) => ClosedTest(m, ReturnFalse)
    case AppendOrBlock(m) => LoopTest(m, false)
    case AppendOrFlush(m) => ClosedTest(m, FlushThenBlock)
    case Flush => EmptyTest(Return)
    case Close => CloseMark
    case AfterFlushDo => CallbackAcquire
  }

  // -------------------------------------------------------------------- state

  datatype Phase = Drawn | Written | Done

  /** One ticket of an epoch: the thread that drew it, its message, how far it got. */
  datatype Ticket = Ticket(owner: nat, msg: Message, phase: Phase)

  datatype State = State(
    word: nat,
    queues: seq<Queue>,
    flushing: int,
    closed: bool,
    threads: seq<Thread>,
    logs: seq<seq<Ticket>>,
    delivered: seq<seq<Message>>,
    holder: int)
  {
    function Epoch(): int { |logs| - 1 }
  }

  function Blank(capacity: nat): Queue {
    Queue(seq(capacity, i => Message(0, 0, [])), 0)
  }

  function NewMessageBatch(capacity: nat): State {
    State(0, [Blank(capacity), Blank(capacity)], 0, false, [], [[]], [], -1)
  }

  // -------------------------------------------------------------------- steps

  /** An action starts a new call, or lets thread `t` do its next atomic operation.
      `choice` is the answer of the `canBlock` callback where that is what `t` asks for. */
  datatype Action = Start(call: Call) | Go(t: nat, choice: bool)

  function AfterFailure(msg: Message, onFail: OnFail): Thread {
    match onFail
    case ReturnFalse => Refused(msg)
    case TryAgain(drop) => LoopTest(msg, drop)
    case FlushThenBlock => EmptyTest(AskCanBlock(msg))
  }

  function Continue(next: AfterFlush): Thread {
    match next
    case Return => Returned
    case WaitForFlush => AwaitFlush
    case AskCanBlock(msg) => CanBlock(msg)
  }

  predicate Shaped(s: State) {
    |s.queues| == 2 && |s.logs| > 0 && s.word < WORD
  }

  function To(s: State, t: nat, next: Thread): State
    requires t < |s.threads|
  {
    s.(threads := s.threads[t := next])
  }

  function DrawStep(s: State, t: nat): State
    requires Shaped(s) && t < |s.threads| && s.threads[t].Draw?
  {
    var pc := s.threads[t];
    var word := (s.word + 1) % WORD;
    var ticket := (CountOf(word) + WORD - 1) % WORD;
    var log := s.logs[s.Epoch()];
    s.(word := word,
       threads := s.threads[t := Slot(pc.msg, pc.onFail, IndexOf(word), ticket, s.Epoch())],
       logs := s.logs[s.Epoch() := log + [Ticket(t, pc.msg, Drawn)]])
  }

  function Mark(s: State, epoch: nat, ticket: nat, phase: Phase): seq<seq<Ticket>> {
    if epoch < |s.logs| && ticket < |s.logs[epoch]| then
      s.logs[epoch := s.logs[epoch][ticket := s.logs[epoch][ticket].(phase := phase)]]
    else s.logs
  }

  function SlotStep(s: State, t: nat): State
    requires Shaped(s) && t < |s.threads| && s.threads[t].Slot? && s.threads[t].idx < 2
  {
    var pc := s.threads[t];
    var queue := s.queues[pc.idx];
    var fits := pc.ticket < |queue.messages|;
    s.(queues := if fits then s.queues[pc.idx := queue.(messages := queue.messages[pc.ticket := pc.msg])] else s.queues,
       threads := s.threads[t := Finish(pc.msg, pc.onFail, pc.idx, fits, pc.ticket, pc.epoch)],
       logs := Mark(s, pc.epoch, pc.ticket, Written))
  }

  function FinishStep(s: State, t: nat): State
    requires Shaped(s) && t < |s.threads| && s.threads[t].Finish? && s.threads[t].idx < 2
  {
    var pc := s.threads[t];
    var queue := s.queues[pc.idx];
    var next := if pc.ok then Accepted(pc.msg, pc.ticket, pc.epoch) else AfterFailure(pc.msg, pc.onFail);
    s.(queues := s.queues[pc.idx := queue.(doneCount := queue.doneCount + 1)],
       threads := s.threads[t := next],
       logs := Mark(s, pc.epoch, pc.ticket, Done))
  }

  function SwapStep(s: State, t: nat): State
    requires Shaped(s) && t < |s.threads| && s.threads[t].SwapSet?
  {
    var pc := s.threads[t];
    s.(word := Flipped(pc.loaded),
       threads := s.threads[t := AwaitWriters(pc.next, IndexOf(s.word), CountOf(s.word))],
       logs := s.logs + [[]])
  }

  /** The waiting flusher starts the asynchronous part as a thread of its own and returns. */
  function SpawnStep(s: State, t: nat): State
    requires t < |s.threads| && s.threads[t].AwaitWriters?
  {
    var pc := s.threads[t];
    s.(threads := s.threads[t := Continue(pc.next)] + [Assemble(pc.idx, pc.count)],
       holder := |s.threads|)
  }

  function AssembleStep(s: State, t: nat): State
    requires Shaped(s) && t < |s.threads| && s.threads[t].Assemble? && s.threads[t].idx < 2
  {
    var pc := s.threads[t];
    var messages := s.queues[pc.idx].messages;
    var count := if pc.count < |messages| then pc.count else |messages|;
    s.(threads := s.threads[t := ResetDone(pc.idx)],
       delivered := s.delivered + [messages[..count]])
  }

  function ResetStep(s: State, t: nat): State
    requires Shaped(s) && t < |s.threads| && s.threads[t].ResetDone? && s.threads[t].idx < 2
  {
    var pc := s.threads[t];
    s.(queues := s.queues[pc.idx := s.queues[pc.idx].(doneCount := 0)],
       threads := s.threads[t := Release])
  }

  /** Thread `t` does its next operation; None when it spins or has returned. */
  function Advance(s: State, t: nat, choice: bool): Option<State>
    requires Shaped(s) && t < |s.threads|
  {
    var pc := s.threads[t];
    match pc
    case LoopTest(msg, drop) =>
      Some(To(s, t, if !s.closed then ClosedTest(msg, TryAgain(drop)) else if drop then Dropped(msg) else Refused(msg)))
    case ClosedTest(msg, onFail) =>
      Some(To(s, t, if s.closed then AfterFailure(msg, onFail) else Draw(msg, onFail)))
    case Draw(_, _) => Some(DrawStep(s, t))
    case Slot(_, _, idx, _, _) => if idx < 2 then Some(SlotStep(s, t)) else None
    case Finish(_, _, idx, _, _, _) => if idx < 2 then Some(FinishStep(s, t)) else None
    case EmptyTest(next) => Some(To(s, t, if CountOf(s.word) == 0 then Continue(next) else Acquire(next)))
    case Acquire(next) =>
      if s.flushing == 0 then Some(To(s, t, LoadSet(next)).(flushing := 1, holder := t)) else None
    case LoadSet(next) => Some(To(s, t, SwapSet(next, s.word)))
    case SwapSet(_, _) => Some(SwapStep(s, t))
    case AwaitWriters(_, idx, count) =>
      if idx < 2 && s.queues[idx].doneCount == count then Some(SpawnStep(s, t)) else None
    case Assemble(idx, _) => if idx < 2 then Some(AssembleStep(s, t)) else None
    case ResetDone(idx) => if idx < 2 then Some(ResetStep(s, t)) else None
    case Release => Some(To(s, t, Returned).(flushing := s.flushing - 1, holder := -1))
    case CanBlock(msg) => Some(To(s, t, if choice then LoopTest(msg, true) else Dropped(msg)))
    case CloseMark => Some(To(s, t, EmptyTest(WaitForFlush)).(closed := true))
    case AwaitFlush => if s.flushing <= 0 then Some(To(s, t, Closed)) else None
    case CallbackAcquire =>
      if s.flushing == 0 then Some(To(s, t, CallbackRun).(flushing := 1, holder := t)) else None
    case CallbackRun => Some(To(s, t, Returned).(flushing := s.flushing - 1, holder := -1))
    case Accepted(_, _, _) => None
    case Refused(_) => None
    case Dropped(_) => None
    case Closed => None
    case Returned => None
  }

  function Step(s: State, action: Action): Option<State>
    requires Shaped(s)
  {
    match action
    case Start(call) => Some(s.(threads := s.threads + [Entry(call)]))
    case Go(t, choice) => if t < |s.threads| then Advance(s, t, choice) else None
  }

  /** Fewer than 2^31 tickets per epoch: a draw never carries into the index bit. */
  ghost predicate NoCarry(s: State, action: Action) {
    action.Go? && action.t < |s.threads| && s.threads[action.t].Draw? ==> CountOf(s.word) < INDEX_BIT - 1
  }

  ghost predicate Moves(s: State, action: Action, s': State) {
    Shaped(s) && NoCarry(s, action) && Step(s, action) == Some(s')
  }

  ghost predicate IsRun(capacity: nat, states: seq<State>, actions: seq<Action>) {
    && |states| == |actions| + 1
    && states[0] == NewMessageBatch(capacity)
    && forall i :: 0 <= i < |actions| ==> Moves(states[i], actions[i], states[i + 1])
  }

  // ---------------------------------------------------------------- invariant

  function CountDone(log: seq<Ticket>): (n: nat)
    ensures n <= |log|
  {
    if log == [] then 0
    else CountDone(log[..|log| - 1]) + (if log[|log| - 1].phase.Done? then 1 else 0)
  }

  /** The messages of the first `limit` tickets, in ticket order. */
  function Messages(log: seq<Ticket>, limit: nat): (r: seq<Message>)
    ensures |r| == if |log| < limit then |log| else limit
    ensures forall k :: 0 <= k < |r| ==> r[k] == log[k].msg
  {
    seq(if |log| < limit then |log| else limit, k requires 0 <= k < |log| => log[k].msg)
  }

  /** The threads between acquiring and releasing the flush lock. */
  predicate Holding(pc: Thread) {
    pc.LoadSet? || pc.SwapSet? || pc.AwaitWriters? || pc.Assemble? || pc.ResetDone? || pc.Release? || pc.CallbackRun?
  }

  /** A flush has switched the queues and not assembled the old one yet. */
  predicate Draining(pc: Thread) { pc.AwaitWriters? || pc.Assemble? }

  predicate InLog(s: State, epoch: nat, ticket: nat, entry: Ticket) {
    epoch < |s.logs| && ticket < |s.logs[epoch]| && s.logs[epoch][ticket] == entry
  }

  predicate ThreadOk(s: State, capacity: nat, t: nat)
    requires t < |s.threads|
  {
    match s.threads[t]
    case Slot(msg, _, idx, ticket, epoch) =>
      idx == epoch % 2 && InLog(s, epoch, ticket, Ticket(t, msg, Drawn))
    case Finish(msg, _, idx, ok, ticket, epoch) =>
      idx == epoch % 2 && ok == (ticket < capacity) && InLog(s, epoch, ticket, Ticket(t, msg, Written))
    case Accepted(msg, ticket, epoch) =>
      ticket < capacity && InLog(s, epoch, ticket, Ticket(t, msg, Done))
    case SwapSet(_, loaded) => IndexOf(loaded) == s.Epoch() % 2
    case AwaitWriters(_, idx, count) =>
      |s.delivered| < |s.logs| && idx == |s.delivered| % 2 && count == |s.logs[|s.delivered|]|
    case Assemble(idx, count) =>
      |s.delivered| < |s.logs| && idx == |s.delivered| % 2
        && count == |s.logs[|s.delivered|]| == CountDone(s.logs[|s.delivered|])
    case ResetDone(idx) => idx == |s.logs| % 2
    case _ => true
  }

  /** Ticket `k` of epoch `e` and the thread that owns it agree. */
  predicate TicketOk(s: State, capacity: nat, e: nat, k: nat)
    requires e < |s.logs| && k < |s.logs[e]|
  {
    var ticket := s.logs[e][k];
    && ticket.owner < |s.threads|
    && (e < |s.delivered| ==> ticket.phase.Done?)
    && var pc := s.threads[ticket.owner];
       match ticket.phase
       case Drawn => pc.Slot? && pc.ticket == k && pc.epoch == e && pc.msg == ticket.msg
       case Written => pc.Finish? && pc.ticket == k && pc.epoch == e && pc.msg == ticket.msg
       case Done => k < capacity ==> pc == Accepted(ticket.msg, k, e)
  }

  /** What the slots and the done counter of the queue of a live epoch hold. */
  predicate QueueOk(s: State, capacity: nat, e: nat)
    requires Shaped(s) && e < |s.logs|
  {
    && s.queues[e % 2].doneCount == CountDone(s.logs[e])
    && forall k :: 0 <= k < |s.logs[e]| && k < capacity && !s.logs[e][k].phase.Drawn?
                   && |s.queues[e % 2].messages| == capacity
         ==> s.queues[e % 2].messages[k] == s.logs[e][k].msg
  }

  predicate WordOk(s: State) {
    && |s.logs| > 0
    && s.word < WORD
    && IndexOf(s.word) == s.Epoch() % 2
    && CountOf(s.word) == |s.logs[s.Epoch()]|
  }

  predicate LockOk(s: State) {
    && (s.flushing == if s.holder < 0 then 0 else 1)
    && -1 <= s.holder < |s.threads|
    && (forall t :: 0 <= t < |s.threads| ==> (Holding(s.threads[t]) <==> t == s.holder))
  }

  predicate EpochsOk(s: State, capacity: nat)
    requires Shaped(s) && -1 <= s.holder < |s.threads|
  {
    var draining := s.holder >= 0 && Draining(s.threads[s.holder]);
    var resetting := s.holder >= 0 && s.threads[s.holder].ResetDone?;
    && |s.delivered| == (if draining then s.Epoch() - 1 else s.Epoch())
    && QueueOk(s, capacity, s.Epoch())
    && (draining ==> QueueOk(s, capacity, s.Epoch() - 1))
    && (!draining && !resetting ==> s.queues[|s.logs| % 2].doneCount == 0)
  }

  predicate DeliveredOk(s: State, capacity: nat) {
    && |s.delivered| < |s.logs|
    && forall e :: 0 <= e < |s.delivered| ==> s.delivered[e] == Messages(s.logs[e], capacity)
  }

  predicate Inv(s: State, capacity: nat) {
    && |s.queues| == 2
    && |s.queues[0].messages| == |s.queues[1].messages| == capacity
    && WordOk(s)
    && LockOk(s)
    && EpochsOk(s, capacity)
    && DeliveredOk(s, capacity)
    && (forall t :: 0 <= t < |s.threads| ==> ThreadOk(s, capacity, t))
    && (forall e, k :: 0 <= e < |s.logs| && 0 <= k < |s.logs[e]| ==> TicketOk(s, capacity, e, k))
  }

  lemma InitialInv(capacity: nat)
    ensures Inv(NewMessageBatch(capacity), capacity)
  {
  }

  lemma {:induction false} CountDoneAppend(log: seq<Ticket>, ticket: Ticket)
    ensures CountDone(log + [ticket]) == CountDone(log) + (if ticket.phase.Done? then 1 else 0)
  {
    assert (log + [ticket])[..|log|] == log;
  }

  /** Marking one ticket changes the count by exactly that ticket. */
  lemma {:induction false} CountDoneMark(log: seq<Ticket>, k: nat, phase: Phase)
    requires k < |log| && !log[k].phase.Done?
    ensures CountDone(log[k := log[k].(phase := phase)]) == CountDone(log) + (if phase.Done? then 1 else 0)
  {
    var marked := log[k := log[k].(phase := phase)];
    var last := |log| - 1;
    if k == last {
      assert marked[..last] == log[..last];
    } else {
      assert marked[..last] == log[..last][k := log[k].(phase := phase)];
      CountDoneMark(log[..last], k, phase);
    }
  }

  lemma {:induction false} CountDoneFull(log: seq<Ticket>)
    requires CountDone(log) == |log|
    ensures forall k :: 0 <= k < |log| ==> log[k].phase.Done?
  {
    if log != [] {
      CountDoneFull(log[..|log| - 1]);
      forall k | 0 <= k < |log| - 1 ensures log[k].phase.Done? {
        assert log[k] == log[..|log| - 1][k];
      }
    }
  }

  /** Steps that only move one thread, between program points that own no ticket and no lock. */
  lemma PlainMove(s: State, capacity: nat, t: nat, next: Thread, s': State)
    requires Inv(s, capacity) && t < |s.threads|
    requires s' == s.(threads := s.threads[t := next], closed := s'.closed)
    requires Holding(s.threads[t]) <==> Holding(next)
    requires !s.threads[t].Slot? && !s.threads[t].Finish? && !s.threads[t].Accepted?
    requires !Draining(s.threads[t]) && !Draining(next) && !s.threads[t].ResetDone? && !next.ResetDone?
    requires ThreadOk(s', capacity, t)
    ensures Inv(s', capacity)
  {
    forall u | 0 <= u < |s'.threads| ensures ThreadOk(s', capacity, u) {
      assert ThreadOk(s, capacity, u);
    }
    forall e, k | 0 <= e < |s'.logs| && 0 <= k < |s'.logs[e]| ensures TicketOk(s', capacity, e, k) {
      assert TicketOk(s, capacity, e, k);
    }
  }

  lemma StartInv(s: State, capacity: nat, call: Call, s': State)
    requires Inv(s, capacity) && Step(s, Start(call)) == Some(s')
    ensures Inv(s', capacity)
  {
    forall u | 0 <= u < |s'.threads| ensures ThreadOk(s', capacity, u) {
      if u < |s.threads| { assert ThreadOk(s, capacity, u); }
    }
    forall e, k | 0 <= e < |s'.logs| && 0 <= k < |s'.logs[e]| ensures TicketOk(s', capacity, e, k) {
      assert TicketOk(s, capacity, e, k);
    }
  }

  /** `s'` differs from `s` in thread `t` and its ticket `k` of epoch `e`, and perhaps in the queues and the word. */
  predicate Edits(s: State, s': State, t: nat, e: nat, k: nat) {
    && t < |s.threads| == |s'.threads|
    && e < |s.logs| == |s'.logs|
    && k <= |s.logs[e]|
    && |s'.logs[e]| == (if k < |s.logs[e]| then |s.logs[e]| else k + 1)
    && s' == s.(threads := s.threads[t := s'.threads[t]], logs := s.logs[e := s'.logs[e]], queues := s'.queues,
      word := s'.word)
    && s'.logs[e] == s.logs[e][..k] + [s'.logs[e][k]] + (if k < |s.logs[e]| then s.logs[e][k + 1..] else [])
    && (k < |s.logs[e]| ==> s.logs[e][k].owner == t)
    && !Holding(s.threads[t]) && !Holding(s'.threads[t])
  }

  lemma EditFramesThread(s: State, s': State, capacity: nat, t: nat, e: nat, k: nat, u: nat)
    requires Inv(s, capacity) && Edits(s, s', t, e, k) && u < |s.threads| && u != t
    requires |s.delivered| <= e
    requires s.holder >= 0 && s.threads[s.holder].Assemble? ==> e == s.Epoch()
    requires k == |s.logs[e]| ==> e == s.Epoch()
    ensures ThreadOk(s', capacity, u)
  {
    assert ThreadOk(s, capacity, u);
    assert s'.threads[u] == s.threads[u];
    assert forall f, j, entry: Ticket {:trigger InLog(s, f, j, entry)} :: InLog(s, f, j, entry) && entry.owner == u ==>
      InLog(s', f, j, entry);
    assert Holding(s.threads[u]) ==> u == s.holder;
  }

  lemma EditFramesTicket(s: State, s': State, capacity: nat, t: nat, e: nat, k: nat, f: nat, j: nat)
    requires Inv(s, capacity) && Edits(s, s', t, e, k)
    requires f < |s'.logs| && j < |s'.logs[f]| && !(f == e && j == k)
    requires TicketOk(s', capacity, e, k)
    requires s.threads[t].Draw? || (s.threads[t].Slot? && s.threads[t].epoch == e && s.threads[t].ticket == k)
          || (s.threads[t].Finish? && s.threads[t].epoch == e && s.threads[t].ticket == k)
    ensures TicketOk(s', capacity, f, j)
  {
    assert j < |s.logs[f]| && s'.logs[f][j] == s.logs[f][j];
    assert TicketOk(s, capacity, f, j);
  }

  /** A thread that still owns an unfinished ticket works on a queue not yet assembled. */
  lemma OwnerIsLive(s: State, capacity: nat, t: nat)
    requires Inv(s, capacity) && t < |s.threads| && (s.threads[t].Slot? || s.threads[t].Finish?)
    ensures var e := s.threads[t].epoch;
      && |s.delivered| <= e <= s.Epoch() && s.Epoch() - 1 <= e
      && QueueOk(s, capacity, e)
      && s.threads[t].ticket < |s.logs[e]|
      && (s.holder >= 0 && s.threads[s.holder].Assemble? ==> e == s.Epoch())
      && (e < s.Epoch() ==> s.holder >= 0 && s.threads[s.holder].AwaitWriters?)
  {
    var e, k := s.threads[t].epoch, s.threads[t].ticket;
    assert ThreadOk(s, capacity, t);
    assert TicketOk(s, capacity, e, k);
    if s.holder >= 0 && s.threads[s.holder].Assemble? {
      assert ThreadOk(s, capacity, s.holder);
      CountDoneFull(s.logs[|s.delivered|]);
    }
  }

  lemma DrawWord(s: State, capacity: nat)
    requires Inv(s, capacity) && CountOf(s.word) < INDEX_BIT - 1
    ensures var word := (s.word + 1) % WORD;
      CountOf(word) == CountOf(s.word) + 1 && IndexOf(word) == IndexOf(s.word)
      && (CountOf(word) + WORD - 1) % WORD == |s.logs[s.Epoch()]|
  {
  }

  lemma EditInv(s: State, s': State, capacity: nat, t: nat, e: nat, k: nat)
    requires Inv(s, capacity) && Edits(s, s', t, e, k)
    requires |s.delivered| <= e
    requires s.holder >= 0 && s.threads[s.holder].Assemble? ==> e == s.Epoch()
    requires k == |s.logs[e]| ==> e == s.Epoch()
    requires s.threads[t].Draw? || (s.threads[t].Slot? && s.threads[t].epoch == e && s.threads[t].ticket == k)
          || (s.threads[t].Finish? && s.threads[t].epoch == e && s.threads[t].ticket == k)
    requires |s'.queues| == 2 && |s'.queues[0].messages| == |s'.queues[1].messages| == capacity
    requires WordOk(s') && EpochsOk(s', capacity) && ThreadOk(s', capacity, t) && TicketOk(s', capacity, e, k)
    ensures Inv(s', capacity)
  {
    forall u | 0 <= u < |s'.threads| ensures ThreadOk(s', capacity, u) {
      if u != t { EditFramesThread(s, s', capacity, t, e, k, u); }
    }
    forall f, j | 0 <= f < |s'.logs| && 0 <= j < |s'.logs[f]| ensures TicketOk(s', capacity, f, j) {
      if !(f == e && j == k) { EditFramesTicket(s, s', capacity, t, e, k, f, j); }
    }
    assert DeliveredOk(s', capacity);
    assert LockOk(s');
  }

  lemma DrawInv(s: State, capacity: nat, t: nat)
    requires Inv(s, capacity) && t < |s.threads| && s.threads[t].Draw? && CountOf(s.word) < INDEX_BIT - 1
    ensures Inv(DrawStep(s, t), capacity)
  {
    var s' := DrawStep(s, t);
    var e, k := s.Epoch(), |s.logs[s.Epoch()]|;
    DrawWord(s, capacity);
    CountDoneAppend(s.logs[e], Ticket(t, s.threads[t].msg, Drawn));
    assert Edits(s, s', t, e, k);
    assert ThreadOk(s', capacity, t);
    assert EpochsOk(s', capacity);
    EditInv(s, s', capacity, t, e, k);
  }

  lemma SlotEdits(s: State, capacity: nat, t: nat)
    requires Inv(s, capacity) && t < |s.threads| && s.threads[t].Slot?
    ensures s.threads[t].idx < 2 && s.threads[t].epoch < |s.logs| && s.threads[t].ticket < |s.logs[s.threads[t].epoch]|
    ensures var s' := SlotStep(s, t); var e, k := s.threads[t].epoch, s.threads[t].ticket;
      Edits(s, s', t, e, k) && ThreadOk(s', capacity, t) && TicketOk(s', capacity, e, k)
  {
    hide EpochsOk, DeliveredOk, WordOk;
    assert ThreadOk(s, capacity, t);
    assert TicketOk(s, capacity, s.threads[t].epoch, s.threads[t].ticket);
  }

  lemma SlotQueue(s: State, capacity: nat, t: nat)
    requires Inv(s, capacity) && t < |s.threads| && s.threads[t].Slot? && s.threads[t].idx < 2
    requires Edits(s, SlotStep(s, t), t, s.threads[t].epoch, s.threads[t].ticket)
    requires |s.delivered| <= s.threads[t].epoch
    ensures Shaped(SlotStep(s, t)) && QueueOk(SlotStep(s, t), capacity, s.threads[t].epoch)
  {
    hide TicketOk, DeliveredOk, LockOk;
    assert ThreadOk(s, capacity, t);
    CountDoneMark(s.logs[s.threads[t].epoch], s.threads[t].ticket, Written);
  }

  lemma SlotEpochs(s: State, capacity: nat, t: nat)
    requires Inv(s, capacity) && t < |s.threads| && s.threads[t].Slot? && s.threads[t].idx < 2
    requires Edits(s, SlotStep(s, t), t, s.threads[t].epoch, s.threads[t].ticket)
    ensures Shaped(SlotStep(s, t)) && EpochsOk(SlotStep(s, t), capacity)
  {
    hide TicketOk, DeliveredOk;
    assert ThreadOk(s, capacity, t);
    OwnerIsLive(s, capacity, t);
    SlotQueue(s, capacity, t);
  }

  lemma SlotInv(s: State, capacity: nat, t: nat)
    requires Inv(s, capacity) && t < |s.threads| && s.threads[t].Slot?
    ensures s.threads[t].idx < 2 && Inv(SlotStep(s, t), capacity)
  {
    hide ThreadOk, TicketOk, QueueOk, EpochsOk, DeliveredOk, LockOk, Edits;
    SlotEdits(s, capacity, t);
    SlotEpochs(s, capacity, t);
    OwnerIsLive(s, capacity, t);
    EditInv(s, SlotStep(s, t), capacity, t, s.threads[t].epoch, s.threads[t].ticket);
  }

  lemma FinishEdits(s: State, capacity: nat, t: nat)
    requires Inv(s, capacity) && t < |s.threads| && s.threads[t].Finish?
    ensures s.threads[t].idx < 2 && s.threads[t].epoch < |s.logs| && s.threads[t].ticket < |s.logs[s.threads[t].epoch]|
    ensures var s' := FinishStep(s, t); var e, k := s.threads[t].epoch, s.threads[t].ticket;
      Edits(s, s', t, e, k) && ThreadOk(s', capacity, t) && TicketOk(s', capacity, e, k)
  {
    hide EpochsOk, DeliveredOk, WordOk;
    assert ThreadOk(s, capacity, t);
    assert TicketOk(s, capacity, s.threads[t].epoch, s.threads[t].ticket);
  }

  lemma FinishEpochs(s: State, capacity: nat, t: nat)
    requires Inv(s, capacity) && t < |s.threads| && s.threads[t].Finish? && s.threads[t].idx < 2
    requires Edits(s, FinishStep(s, t), t, s.threads[t].epoch, s.threads[t].ticket)
    ensures Shaped(FinishStep(s, t)) && EpochsOk(FinishStep(s, t), capacity)
  {
    hide TicketOk, DeliveredOk;
    var e, k := s.threads[t].epoch, s.threads[t].ticket;
    assert ThreadOk(s, capacity, t);
    OwnerIsLive(s, capacity, t);
    CountDoneMark(s.logs[e], k, Done);
    assert QueueOk(FinishStep(s, t), capacity, e);
  }

  lemma FinishInv(s: State, capacity: nat, t: nat)
    requires Inv(s, capacity) && t < |s.threads| && s.threads[t].Finish?
    ensures s.threads[t].idx < 2 && Inv(FinishStep(s, t), capacity)
  {
    hide ThreadOk, TicketOk, QueueOk, EpochsOk, DeliveredOk, LockOk, Edits;
    FinishEdits(s, capacity, t);
    FinishEpochs(s, capacity, t);
    OwnerIsLive(s, capacity, t);
    EditInv(s, FinishStep(s, t), capacity, t, s.threads[t].epoch, s.threads[t].ticket);
  }

  lemma SwapInv(s: State, capacity: nat, t: nat)
    requires Inv(s, capacity) && t < |s.threads| && s.threads[t].SwapSet?
    ensures Inv(SwapStep(s, t), capacity)
  {
    var s' := SwapStep(s, t);
    assert ThreadOk(s, capacity, t);
    forall u | 0 <= u < |s'.threads| ensures ThreadOk(s', capacity, u) {
      if u != t { assert ThreadOk(s, capacity, u); }
    }
    forall f, k | 0 <= f < |s'.logs| && 0 <= k < |s'.logs[f]| ensures TicketOk(s', capacity, f, k) {
      assert TicketOk(s, capacity, f, k);
    }
  }

  lemma SpawnInv(s: State, capacity: nat, t: nat)
    requires Inv(s, capacity) && t < |s.threads| && s.threads[t].AwaitWriters?
    requires s.threads[t].idx < 2 && s.queues[s.threads[t].idx].doneCount == s.threads[t].count
    ensures Inv(SpawnStep(s, t), capacity)
  {
    var s' := SpawnStep(s, t);
    assert ThreadOk(s, capacity, t);
    forall u | 0 <= u < |s'.threads| ensures ThreadOk(s', capacity, u) {
      if u != t && u < |s.threads| { assert ThreadOk(s, capacity, u); }
    }
    forall f, k | 0 <= f < |s'.logs| && 0 <= k < |s'.logs[f]| ensures TicketOk(s', capacity, f, k) {
      assert TicketOk(s, capacity, f, k);
    }
  }

  lemma AssembleInv(s: State, capacity: nat, t: nat)
    requires Inv(s, capacity) && t < |s.threads| && s.threads[t].Assemble?
    ensures s.threads[t].idx < 2 && Inv(AssembleStep(s, t), capacity)
  {
    assert ThreadOk(s, capacity, t);
    var s' := AssembleStep(s, t);
    var e := |s.delivered|;
    CountDoneFull(s.logs[e]);
    assert s'.delivered[e] == Messages(s.logs[e], capacity);
    forall u | 0 <= u < |s'.threads| ensures ThreadOk(s', capacity, u) {
      if u != t { assert ThreadOk(s, capacity, u); }
    }
    forall f, k | 0 <= f < |s'.logs| && 0 <= k < |s'.logs[f]| ensures TicketOk(s', capacity, f, k) {
      assert TicketOk(s, capacity, f, k);
    }
  }

  lemma ResetInv(s: State, capacity: nat, t: nat)
    requires Inv(s, capacity) && t < |s.threads| && s.threads[t].ResetDone?
    ensures s.threads[t].idx < 2 && Inv(ResetStep(s, t), capacity)
  {
    assert ThreadOk(s, capacity, t);
    var s' := ResetStep(s, t);
    forall u | 0 <= u < |s'.threads| ensures ThreadOk(s', capacity, u) {
      if u != t { assert ThreadOk(s, capacity, u); }
    }
    forall f, k | 0 <= f < |s'.logs| && 0 <= k < |s'.logs[f]| ensures TicketOk(s', capacity, f, k) {
      assert TicketOk(s, capacity, f, k);
    }
  }

  /** Acquiring and releasing the flush lock. */
  lemma LockInv(s: State, capacity: nat, t: nat, choice: bool, s': State)
    requires Inv(s, capacity) && t < |s.threads| && Advance(s, t, choice) == Some(s')
    requires var pc := s.threads[t]; pc.Acquire? || pc.CallbackAcquire? || pc.Release? || pc.CallbackRun?
    ensures Inv(s', capacity)
  {
    forall u | 0 <= u < |s'.threads| ensures ThreadOk(s', capacity, u) {
      if u != t { assert ThreadOk(s, capacity, u); }
    }
    forall f, k | 0 <= f < |s'.logs| && 0 <= k < |s'.logs[f]| ensures TicketOk(s', capacity, f, k) {
      assert TicketOk(s, capacity, f, k);
    }
  }

  /** Program points whose step touches neither a ticket, a queue nor the lock. */
  predicate Plain(pc: Thread) {
    pc.LoopTest? || pc.ClosedTest? || pc.EmptyTest? || pc.LoadSet? || pc.CanBlock? || pc.CloseMark? || pc.AwaitFlush?
  }

  lemma PlainInv(s: State, capacity: nat, t: nat, choice: bool, s': State)
    requires Inv(s, capacity) && t < |s.threads| && Plain(s.threads[t]) && Advance(s, t, choice) == Some(s')
    ensures Inv(s', capacity)
  {
    PlainMove(s, capacity, t, s'.threads[t], s');
  }

  lemma StepInv(s: State, capacity: nat, action: Action, s': State)
    requires Inv(s, capacity) && Moves(s, action, s')
    ensures Inv(s', capacity)
  {
    if action.Start? {
      StartInv(s, capacity, action.call, s');
    } else {
      var t := action.t;
      assert Advance(s, t, action.choice) == Some(s');
      if Plain(s.threads[t]) {
        PlainInv(s, capacity, t, action.choice, s');
      } else {
        TicketOrLockInv(s, capacity, t, action.choice, s');
      }
    }
  }

  lemma TicketOrLockInv(s: State, capacity: nat, t: nat, choice: bool, s': State)
    requires Inv(s, capacity) && t < |s.threads| && !Plain(s.threads[t])
    requires NoCarry(s, Go(t, choice)) && Advance(s, t, choice) == Some(s')
    ensures Inv(s', capacity)
  {
    match s.threads[t]
    case Draw(_, _) => DrawInv(s, capacity, t);
    case Slot(_, _, _, _, _) => SlotInv(s, capacity, t);
    case Finish(_, _, _, _, _, _) => FinishInv(s, capacity, t);
    case SwapSet(_, _) => SwapInv(s, capacity, t);
    case AwaitWriters(_, _, _) => SpawnInv(s, capacity, t);
    case Assemble(_, _) => AssembleInv(s, capacity, t);
    case ResetDone(_) => ResetInv(s, capacity, t);
    case Acquire(_) => LockInv(s, capacity, t, choice, s');
    case CallbackAcquire => LockInv(s, capacity, t, choice, s');
    case Release => LockInv(s, capacity, t, choice, s');
    case CallbackRun => LockInv(s, capacity, t, choice, s');
    case _ =>
  }

  // ----------------------------------------------------------------- theorems

  lemma {:induction false} RunInv(capacity: nat, states: seq<State>, actions: seq<Action>, i: nat)
    requires IsRun(capacity, states, actions) && i < |states|
    ensures Inv(states[i], capacity)
  {
    if i == 0 {
      InitialInv(capacity);
    } else {
      RunInv(capacity, states, actions, i - 1);
      assert Moves(states[i - 1], actions[i - 1], states[i]);
      StepInv(states[i - 1], capacity, actions[i - 1], states[i]);
    }
  }

  /** Where the message of ticket `k` of epoch `e` is. */
  datatype Place = Active | Flushing | Delivered

  predicate At(s: State, e: nat, k: nat, msg: Message, place: Place)
    requires Shaped(s)
  {
    match place
    case Active => e == s.Epoch() && IndexOf(s.word) == e % 2 && k < CountOf(s.word)
                   && k < |s.queues[e % 2].messages| && s.queues[e % 2].messages[k] == msg
    case Flushing => |s.delivered| == e == s.Epoch() - 1
                     && k < |s.queues[e % 2].messages| && s.queues[e % 2].messages[k] == msg
    case Delivered => e < |s.delivered| && k < |s.delivered[e]| && s.delivered[e][k] == msg
  }

  /** An accepted message sits at its own ticket, in exactly one of the three places, and no
      other accepted message has that ticket. */
  lemma AcceptedIsInOnePlace(capacity: nat, states: seq<State>, actions: seq<Action>, i: nat, t: nat)
    requires IsRun(capacity, states, actions) && i < |states|
    requires t < |states[i].threads| && states[i].threads[t].Accepted?
    ensures Shaped(states[i])
    ensures var s := states[i]; var pc := s.threads[t];
      && (exists place :: At(s, pc.epoch, pc.ticket, pc.msg, place))
      && (forall place, other ::
            At(s, pc.epoch, pc.ticket, pc.msg, place) && At(s, pc.epoch, pc.ticket, pc.msg, other) ==> place == other)
      && (forall u :: 0 <= u < |s.threads| && s.threads[u].Accepted? && u != t
            ==> !(s.threads[u].epoch == pc.epoch && s.threads[u].ticket == pc.ticket))
  {
    RunInv(capacity, states, actions, i);
    var s := states[i];
    var pc := s.threads[t];
    assert ThreadOk(s, capacity, t);
    assert TicketOk(s, capacity, pc.epoch, pc.ticket);
    var place := if pc.epoch < |s.delivered| then Delivered else if pc.epoch == s.Epoch() then Active else Flushing;
    assert At(s, pc.epoch, pc.ticket, pc.msg, place);
    forall u | 0 <= u < |s.threads| && s.threads[u].Accepted? && u != t
      ensures !(s.threads[u].epoch == pc.epoch && s.threads[u].ticket == pc.ticket)
    {
      assert ThreadOk(s, capacity, u);
    }
  }

  /** Whatever was handed to `assemble` was handed over once per accepting thread: the k-th
      message of the e-th call belongs to exactly one thread, and that thread's Append
      returned true with ticket k of epoch e.  A refused or dropped message is never there. */
  lemma DeliveredIsAccepted(capacity: nat, states: seq<State>, actions: seq<Action>, i: nat, e: nat, k: nat)
    requires IsRun(capacity, states, actions) && i < |states|
    requires e < |states[i].delivered| && k < |states[i].delivered[e]|
    ensures var s := states[i];
      && |s.delivered[e]| <= capacity
      && (exists t :: 0 <= t < |s.threads| && s.threads[t] == Accepted(s.delivered[e][k], k, e))
      && (forall t, u | 0 <= t < |s.threads| && 0 <= u < |s.threads|
            :: s.threads[t] == s.threads[u] == Accepted(s.delivered[e][k], k, e) ==> t == u)
  {
    RunInv(capacity, states, actions, i);
    var s := states[i];
    assert TicketOk(s, capacity, e, k);
    forall t, u | 0 <= t < |s.threads| && 0 <= u < |s.threads|
            && s.threads[t] == Accepted(s.delivered[e][k], k, e) && s.threads[u] == Accepted(s.delivered[e][k], k, e)
      ensures t == u
    {
      assert ThreadOk(s, capacity, t) && ThreadOk(s, capacity, u);
    }
  }

  /** Each `assemble` call got exactly the tickets of its own epoch that fit, in ticket order. */
  lemma CallsFollowTicketOrder(capacity: nat, states: seq<State>, actions: seq<Action>, i: nat, e: nat)
    requires IsRun(capacity, states, actions) && i < |states| && e < |states[i].delivered|
    ensures e < |states[i].logs| && states[i].delivered[e] == Messages(states[i].logs[e], capacity)
  {
    RunInv(capacity, states, actions, i);
  }

  /** Calls already made and messages already accepted stay as they are. */
  predicate Keeps(s: State, s': State) {
    && s.delivered <= s'.delivered
    && |s.threads| <= |s'.threads|
    && (forall t :: 0 <= t < |s.threads| && s.threads[t].Accepted? ==> s'.threads[t] == s.threads[t])
    && (s.closed ==> s'.closed)
  }

  lemma StepKeeps(s: State, action: Action, s': State)
    requires Moves(s, action, s')
    ensures Keeps(s, s')
  {
  }

  /** Nothing is taken back: calls already made and messages already accepted stay as they are. */
  lemma {:induction false} HistoryGrows(capacity: nat, states: seq<State>, actions: seq<Action>, i: nat, j: nat)
    requires IsRun(capacity, states, actions) && i <= j < |states|
    ensures Keeps(states[i], states[j])
    decreases j
  {
    if i < j {
      hide Moves;
      HistoryGrows(capacity, states, actions, i, j - 1);
      StepKeeps(states[j - 1], actions[j - 1], states[j]);
    }
  }

  // Close -------------------------------------------------------------------

  /** How far the closing thread `c` is, relative to a message accepted in epoch `e` before it started. */
  predicate CloserOk(s: State, c: nat, e: nat)
    requires c < |s.threads|
  {
    match s.threads[c]
    case CloseMark => true
    case EmptyTest(next) => next == WaitForFlush
    case Acquire(next) => next == WaitForFlush
    case LoadSet(next) => next == WaitForFlush
    case SwapSet(next, _) => next == WaitForFlush
    case AwaitWriters(next, _, _) => next == WaitForFlush && e < s.Epoch()
    case AwaitFlush => e < s.Epoch()
    case Closed => e < |s.delivered|
    case _ => false
  }

  lemma StepFrame(s: State, action: Action, s': State, c: nat)
    requires Moves(s, action, s') && c < |s.threads|
    ensures |s.threads| <= |s'.threads| && |s.logs| <= |s'.logs| && |s.delivered| <= |s'.delivered|
    ensures !(action.Go? && action.t == c) ==> s'.threads[c] == s.threads[c]
  {
  }

  lemma CloserStep(s: State, capacity: nat, action: Action, s': State, c: nat, e: nat, k: nat)
    requires Inv(s, capacity) && Moves(s, action, s') && c < |s.threads|
    requires e < |s.logs| && k < |s.logs[e]| && CloserOk(s, c, e)
    ensures |s.threads| <= |s'.threads| && CloserOk(s', c, e)
  {
    StepFrame(s, action, s', c);
    if action.Go? && action.t == c { CloserMoves(s, capacity, c, action.choice, s', e, k); }
  }

  lemma CloserMoves(s: State, capacity: nat, c: nat, choice: bool, s': State, e: nat, k: nat)
    requires Inv(s, capacity) && c < |s.threads| && Advance(s, c, choice) == Some(s')
    requires e < |s.logs| && k < |s.logs[e]| && CloserOk(s, c, e)
    ensures c < |s'.threads| && CloserOk(s', c, e)
  {
    match s.threads[c]
    case EmptyTest(_) => assert CountOf(s.word) == |s.logs[s.Epoch()]|;
    case SwapSet(_, _) => assert s'.Epoch() == s.Epoch() + 1;
    case AwaitFlush => assert s.holder < 0 && |s.delivered| == s.Epoch();
    case _ =>
  }

  lemma StartsClosing(s: State, s': State)
    requires Moves(s, Start(Close), s')
    ensures s'.threads == s.threads + [CloseMark]
  {
  }

  lemma AcceptedHasTicket(s: State, capacity: nat, t: nat)
    requires Inv(s, capacity) && t < |s.threads| && s.threads[t].Accepted?
    ensures s.threads[t].epoch < |s.logs| && s.threads[t].ticket < |s.logs[s.threads[t].epoch]|
  {
    assert ThreadOk(s, capacity, t);
  }

  lemma {:induction false} CloserRun(capacity: nat, states: seq<State>, actions: seq<Action>, i: nat, j: nat, t: nat)
    requires IsRun(capacity, states, actions) && i < j < |states| && actions[i] == Start(Close)
    requires t < |states[i].threads| && states[i].threads[t].Accepted?
    ensures |states[i].threads| < |states[j].threads|
    ensures CloserOk(states[j], |states[i].threads|, states[i].threads[t].epoch)
    decreases j
  {
    hide Inv, Step;
    assert Moves(states[i], actions[i], states[i + 1]);
    if i + 1 == j {
      StartsClosing(states[i], states[j]);
    } else {
      CloserRun(capacity, states, actions, i, j - 1, t);
      RunInv(capacity, states, actions, j - 1);
      HistoryGrows(capacity, states, actions, i, j - 1);
      assert Moves(states[j - 1], actions[j - 1], states[j]);
      AcceptedHasTicket(states[j - 1], capacity, t);
      var pc := states[i].threads[t];
      CloserStep(states[j - 1], capacity, actions[j - 1], states[j], |states[i].threads|, pc.epoch, pc.ticket);
    }
  }

  /** If a Close that starts at step `i` has returned at step `j`, every message accepted
      before step `i` has been handed to `assemble`, at its own ticket, whatever ran beside it. */
  lemma CloseDelivers(capacity: nat, states: seq<State>, actions: seq<Action>, i: nat, j: nat, t: nat)
    requires IsRun(capacity, states, actions) && i < j < |states| && actions[i] == Start(Close)
    requires |states[i].threads| < |states[j].threads| && states[j].threads[|states[i].threads|].Closed?
    requires t < |states[i].threads| && states[i].threads[t].Accepted?
    ensures var pc := states[i].threads[t]; var s := states[j];
      pc.epoch < |s.delivered| && pc.ticket < |s.delivered[pc.epoch]| && s.delivered[pc.epoch][pc.ticket] == pc.msg
  {
    CloserRun(capacity, states, actions, i, j, t);
    RunInv(capacity, states, actions, j);
    HistoryGrows(capacity, states, actions, i, j);
    assert ThreadOk(states[j], capacity, t);
  }

  // The lock ------------------------------------------------------------------

  /** The flush counter is 0 or 1, and it is 1 exactly while one thread is inside a flush or an
      AfterFlushDo callback: no two flushes or callbacks overlap. */
  lemma FlushesExclude(capacity: nat, states: seq<State>, actions: seq<Action>, i: nat)
    requires IsRun(capacity, states, actions) && i < |states|
    ensures var s := states[i];
      && (s.flushing == 0 || s.flushing == 1)
      && (s.flushing == 1 <==> exists t :: 0 <= t < |s.threads| && Holding(s.threads[t]))
      && (forall t, u | 0 <= t < |s.threads| && 0 <= u < |s.threads| ::
            Holding(s.threads[t]) && Holding(s.threads[u]) ==> t == u)
  {
    RunInv(capacity, states, actions, i);
    var s := states[i];
    if s.holder >= 0 { assert Holding(s.threads[s.holder]); }
  }

  /** No writer touches a slot while it is assembled, or the done counter while it is reset,
      and no two writers share a slot. */
  lemma SlotsAreExclusive(capacity: nat, states: seq<State>, actions: seq<Action>, i: nat, t: nat, u: nat)
    requires IsRun(capacity, states, actions) && i < |states|
    requires t < |states[i].threads| && u < |states[i].threads|
    ensures var a, b := states[i].threads[t], states[i].threads[u];
      && (a.Assemble? && (b.Slot? || b.Finish?) ==> a.idx != b.idx)
      && (a.ResetDone? && (b.Slot? || b.Finish?) ==> a.idx != b.idx)
      && (a.Slot? && b.Slot? && a.idx == b.idx && a.ticket == b.ticket ==> t == u)
  {
    RunInv(capacity, states, actions, i);
    var s := states[i];
    assert ThreadOk(s, capacity, t) && ThreadOk(s, capacity, u);
    if s.threads[t].Slot? { OwnerIsLive(s, capacity, t); }
    if s.threads[u].Slot? || s.threads[u].Finish? { OwnerIsLive(s, capacity, u); }
  }

  // Progress ------------------------------------------------------------------

  /** Operations the owners of the tickets of a log still have to do. */
  function Backlog(log: seq<Ticket>): (n: nat)
    ensures n == 0 <==> forall k :: 0 <= k < |log| ==> log[k].phase.Done?
  {
    if log == [] then 0
    else
      var last := log[|log| - 1];
      assert log == log[..|log| - 1] + [last];
      Backlog(log[..|log| - 1]) + (if last.phase.Done? then 0 else if last.phase.Written? then 1 else 2)
  }

  lemma {:induction false} BacklogMark(log: seq<Ticket>, k: nat, phase: Phase)
    requires k < |log|
    requires (log[k].phase.Drawn? && phase.Written?) || (log[k].phase.Written? && phase.Done?)
    ensures Backlog(log[k := log[k].(phase := phase)]) == Backlog(log) - 1
  {
    var marked := log[k := log[k].(phase := phase)];
    var last := |log| - 1;
    if k == last {
      assert marked[..last] == log[..last];
    } else {
      assert marked[..last] == log[..last][k := log[k].(phase := phase)];
      BacklogMark(log[..last], k, phase);
    }
  }

  lemma {:induction false} CountDoneAll(log: seq<Ticket>)
    requires Backlog(log) == 0
    ensures CountDone(log) == |log|
  {
    if log != [] { CountDoneAll(log[..|log| - 1]); }
  }

  /** Whoever holds the flush lock can move, or it waits for late writers of the switched
      queue and one of those can move and shortens the backlog. */
  lemma LockHolderProgress(capacity: nat, states: seq<State>, actions: seq<Action>, i: nat)
    requires IsRun(capacity, states, actions) && i < |states| && states[i].flushing != 0
    ensures Shaped(states[i])
    ensures var s := states[i];
      && 0 <= s.holder < |s.threads|
      && (Advance(s, s.holder, true).Some?
          || (|s.delivered| < |s.logs|
              && exists t :: 0 <= t < |s.threads| && Advance(s, t, true).Some?
                             && |s.delivered| < |Advance(s, t, true).value.logs|
                             && Backlog(Advance(s, t, true).value.logs[|s.delivered|])
                                  < Backlog(s.logs[|s.delivered|])))
  {
    RunInv(capacity, states, actions, i);
    var s := states[i];
    assert Holding(s.threads[s.holder]);
    assert ThreadOk(s, capacity, s.holder);
    if Advance(s, s.holder, true).None? {
      var e := |s.delivered|;
      if Backlog(s.logs[e]) == 0 { CountDoneAll(s.logs[e]); }
      var k :| 0 <= k < |s.logs[e]| && !s.logs[e][k].phase.Done?;
      assert TicketOk(s, capacity, e, k);
      var t := s.logs[e][k].owner;
      assert ThreadOk(s, capacity, t);
      BacklogMark(s.logs[e], k, if s.threads[t].Slot? then Written else Done);
      assert Backlog(Advance(s, t, true).value.logs[e]) < Backlog(s.logs[e]);
    }
  }

  /** While a flush waits, no step of any thread adds to the backlog it waits for. */
  lemma BacklogNeverGrows(capacity: nat, states: seq<State>, actions: seq<Action>, i: nat)
    requires IsRun(capacity, states, actions) && i + 1 < |states|
    requires 0 <= states[i].holder < |states[i].threads| && states[i].threads[states[i].holder].AwaitWriters?
    ensures var e := |states[i].delivered|;
      e < |states[i].logs| && e < |states[i + 1].logs| && Backlog(states[i + 1].logs[e]) <= Backlog(states[i].logs[e])
  {
    RunInv(capacity, states, actions, i);
    assert Moves(states[i], actions[i], states[i + 1]);
    BacklogStep(states[i], capacity, actions[i], states[i + 1]);
  }

  /** One step; those of the late writers shorten the backlog. */
  lemma BacklogStep(s: State, capacity: nat, action: Action, s': State)
    requires Inv(s, capacity) && Moves(s, action, s')
    requires 0 <= s.holder && s.threads[s.holder].AwaitWriters?
    ensures var e := |s.delivered|;
      && e < |s.logs| && e < |s'.logs| && Backlog(s'.logs[e]) <= Backlog(s.logs[e])
      && (action.Go? && IsLate(s, action.t) ==> Backlog(s'.logs[e]) < Backlog(s.logs[e]))
  {
    var e := |s.delivered|;
    if action.Go? {
      var t := action.t;
      var pc := s.threads[t];
      assert ThreadOk(s, capacity, t);
      assert Holding(pc) ==> t == s.holder;
      if (pc.Slot? || pc.Finish?) && pc.epoch == e {
        BacklogMark(s.logs[e], pc.ticket, if pc.Slot? then Written else Done);
      }
    }
  }

  /** The thread has a ticket of the queue that is flushed next. */
  predicate IsLate(s: State, t: nat) {
    t < |s.threads| && (s.threads[t].Slot? || s.threads[t].Finish?) && s.threads[t].epoch == |s.delivered|
  }

  /** The bound on the tickets is exact: a draw keeps the invariant iff its count does not carry
      into the index bit, that is below 2^31 - 1 draws since the buffers were last switched. */
  lemma DrawKeepsInvIffNoCarry(s: State, capacity: nat, t: nat)
    requires Inv(s, capacity) && t < |s.threads| && s.threads[t].Draw?
    ensures Inv(DrawStep(s, t), capacity) <==> CountOf(s.word) < INDEX_BIT - 1
  {
    if CountOf(s.word) < INDEX_BIT - 1 {
      DrawInv(s, capacity, t);
    } else {
      CarryFlips(s.word);
      assert !WordOk(DrawStep(s, t));
    }
  }

  lemma CarryFlips(word: nat)
    requires word < WORD && CountOf(word) >= INDEX_BIT - 1
    ensures IndexOf((word + 1) % WORD) != IndexOf(word)
  {
  }
}
