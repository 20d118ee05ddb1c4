/** The batch-to-bytes assembly of core/writerassembly.go with its reused buffer. */
module WriterAssembly {
  import opened Utilities
  import opened MessageBatch

  /** What the io.Writer and the two callbacks answer during one call of Write. */
  datatype Answers = Answers(hasWriter: bool, fails: bool, handled: bool, valid: bool)

  /** What the outside has seen: the bytes of every successful write, and the flushed messages. */
  datatype History = History(written: seq<bytes>, flushed: seq<Message>)

  datatype Callbacks = Callbacks(errorHandler: bool, validator: bool)

  function Text(format: Message -> bytes, messages: seq<Message>): bytes {
    if messages == [] then [] else Text(format, messages[..|messages| - 1]) + format(messages[|messages| - 1])
  }

  /** Messages are flushed if there is no writer, if the write failed and the error handler did
      not take care of it, or if the write is not confirmed.  Without an error handler a failed
      write flushes nothing. */
  predicate Flushes(callbacks: Callbacks, a: Answers) {
    || !a.hasWriter
    || (a.fails && callbacks.errorHandler && !a.handled)
    || (!a.fails && callbacks.validator && !a.valid)
  }

  predicate Succeeds(a: Answers) { a.hasWriter && !a.fails }

  /** One call of Write, seen from outside. */
  function After(h: History, format: Message -> bytes, callbacks: Callbacks, messages: seq<Message>,
                 a: Answers): History {
    History(if Succeeds(a) then h.written + [Text(format, messages)] else h.written,
            if Flushes(callbacks, a) then h.flushed + messages else h.flushed)
  }

  class WriterAssembly {
    const format: Message -> bytes
    const callbacks: Callbacks
    var buffer: bytes
    ghost var history: History

    constructor (format: Message -> bytes, callbacks: Callbacks)
      ensures this.format == format && this.callbacks == callbacks && history == History([], []) && buffer == []
    {
      this.format, this.callbacks, buffer, history := format, callbacks, [], History([], []);
    }

    /** The bytes written are the formatted messages, whatever the buffer held before; its old
        content survives only behind them. */
    method Write(messages: seq<Message>, a: Answers)
      modifies this
      ensures history == After(old(history), format, callbacks, messages, a)
      ensures a.hasWriter ==> var text := Text(format, messages);
        buffer == text + if |text| < |old(buffer)| then old(buffer)[|text|..] else []
      ensures !a.hasWriter ==> buffer == old(buffer)
    {
      if !a.hasWriter {
        Flush(messages);
        return;
      }
      var contentLen: nat := 0;
      assert messages[..|messages|] == messages;
      for i := 0 to |messages|
        invariant contentLen <= |buffer| && buffer[..contentLen] == Text(format, messages[..i])
        invariant buffer[contentLen..] == if contentLen < |old(buffer)| then old(buffer)[contentLen..] else []
        invariant history == old(history)
      {
        assert messages[..i + 1][..i] == messages[..i];
        var payload := format(messages[i]);
        if contentLen + |payload| > |buffer| {
          buffer := buffer[..contentLen] + payload;
        } else {
          buffer := buffer[..contentLen] + payload + buffer[contentLen + |payload|..];
        }
        contentLen := contentLen + |payload|;
      }
      assert buffer == buffer[..contentLen] + buffer[contentLen..];
      if a.fails {
        if callbacks.errorHandler && !a.handled { Flush(messages); }
        return;
      }
      history := history.(written := history.written + [buffer[..contentLen]]);
      if callbacks.validator && !a.valid { Flush(messages); }
    }

    method Flush(messages: seq<Message>)
      modifies this`history
      ensures history == old(history).(flushed := old(history).flushed + messages)
    {
      assert messages[..|messages|] == messages;
      for i := 0 to |messages|
        invariant history == old(history).(flushed := old(history).flushed + messages[..i])
      {
        history := history.(flushed := history.flushed + [messages[i]]);
      }
    }
  }

  // ------------------------------------------------------- a whole run of batches

  /** All calls in their order. */
  function AfterAll(format: Message -> bytes, callbacks: Callbacks, batches: seq<seq<Message>>,
                    answers: seq<Answers>): History
    requires |answers| == |batches|
  {
    if batches == [] then History([], [])
    else
      var n := |batches| - 1;
      After(AfterAll(format, callbacks, batches[..n], answers[..n]), format, callbacks, batches[n], answers[n])
  }

  function Concat<T>(parts: seq<seq<T>>): seq<T> {
    if parts == [] then [] else Concat(parts[..|parts| - 1]) + parts[|parts| - 1]
  }

  function Successes(answers: seq<Answers>): seq<bool> {
    seq(|answers|, i requires 0 <= i < |answers| => Succeeds(answers[i]))
  }

  /** What becomes of the messages of a call. */
  datatype Fate = Confirmed | TakenOver | Lost | HandedBack

  predicate IsConfirmed(callbacks: Callbacks, a: Answers) {
    a.hasWriter && !a.fails && (callbacks.validator ==> a.valid)
  }

  predicate IsTakenOver(callbacks: Callbacks, a: Answers) {
    a.hasWriter && a.fails && callbacks.errorHandler && a.handled
  }

  predicate IsLost(callbacks: Callbacks, a: Answers) { a.hasWriter && a.fails && !callbacks.errorHandler }

  predicate Meets(callbacks: Callbacks, a: Answers, fate: Fate) {
    match fate
    case Confirmed => IsConfirmed(callbacks, a)
    case TakenOver => IsTakenOver(callbacks, a)
    case Lost => IsLost(callbacks, a)
    case HandedBack => !IsConfirmed(callbacks, a) && !IsTakenOver(callbacks, a) && !IsLost(callbacks, a)
  }

  function Meeting(callbacks: Callbacks, answers: seq<Answers>, fate: Fate): seq<bool> {
    seq(|answers|, i requires 0 <= i < |answers| => Meets(callbacks, answers[i], fate))
  }

  /** The messages of the calls whose answer satisfies a condition. */
  function Chosen(batches: seq<seq<Message>>, chosen: seq<bool>): seq<Message>
    requires |chosen| == |batches|
  {
    if batches == [] then []
    else
      var n := |batches| - 1;
      Chosen(batches[..n], chosen[..n]) + if chosen[n] then batches[n] else []
  }

  lemma {:induction false} TextAppend(format: Message -> bytes, a: seq<Message>, b: seq<Message>)
    ensures Text(format, a + b) == Text(format, a) + Text(format, b)
  {
    if b == [] {
      assert a + b == a;
    } else {
      var n := |b| - 1;
      TextAppend(format, a, b[..n]);
      assert (a + b)[..|a + b| - 1] == a + b[..n];
    }
  }

  lemma FlushedOfLast(format: Message -> bytes, callbacks: Callbacks, batches: seq<seq<Message>>,
                      answers: seq<Answers>)
    requires |answers| == |batches| > 0
    requires var n := |batches| - 1;
      AfterAll(format, callbacks, batches[..n], answers[..n]).flushed
        == Chosen(batches[..n], Meeting(callbacks, answers[..n], HandedBack))
    ensures AfterAll(format, callbacks, batches, answers).flushed
         == Chosen(batches, Meeting(callbacks, answers, HandedBack))
  {
    var n := |batches| - 1;
    assert Meeting(callbacks, answers, HandedBack)[..n] == Meeting(callbacks, answers[..n], HandedBack);
    assert Flushes(callbacks, answers[n]) <==> Meeting(callbacks, answers, HandedBack)[n];
  }

  /** The output is the text of the messages of all successful calls, in order; the flushed
      messages are, in order, those of all calls that were not confirmed and not taken over by the
      error handler, and whose messages are not lost for want of one. */
  lemma {:induction false} OutputOfAll(format: Message -> bytes, callbacks: Callbacks, batches: seq<seq<Message>>,
                                       answers: seq<Answers>)
    requires |answers| == |batches|
    ensures var h := AfterAll(format, callbacks, batches, answers);
      && Concat(h.written) == Text(format, Chosen(batches, Successes(answers)))
      && h.flushed == Chosen(batches, Meeting(callbacks, answers, HandedBack))
  {
    if batches != [] {
      var n := |batches| - 1;
      OutputOfAll(format, callbacks, batches[..n], answers[..n]);
      assert Successes(answers)[..n] == Successes(answers[..n]);
      FlushedOfLast(format, callbacks, batches, answers);
      hide Flushes, Meets;
      var before := AfterAll(format, callbacks, batches[..n], answers[..n]).written;
      var chosen := Chosen(batches[..n], Successes(answers[..n]));
      if Succeeds(answers[n]) {
        var written := before + [Text(format, batches[n])];
        assert written[..|before|] == before;
        assert Concat(written) == Concat(before) + Text(format, batches[n]);
        TextAppend(format, chosen, batches[n]);
        assert Chosen(batches, Successes(answers)) == chosen + batches[n];
      } else {
        assert Chosen(batches, Successes(answers)) == chosen + [] == chosen;
      }
    }
  }

  function Share(callbacks: Callbacks, batches: seq<seq<Message>>, answers: seq<Answers>, fate: Fate): seq<Message>
    requires |answers| == |batches|
  {
    Chosen(batches, Meeting(callbacks, answers, fate))
  }

  lemma ShareOfLast(callbacks: Callbacks, batches: seq<seq<Message>>, answers: seq<Answers>, fate: Fate)
    requires |answers| == |batches| > 0
    ensures var n := |batches| - 1;
      Share(callbacks, batches, answers, fate)
        == Share(callbacks, batches[..n], answers[..n], fate)
           + if Meets(callbacks, answers[n], fate) then batches[n] else []
  {
    var n := |batches| - 1;
    assert Meeting(callbacks, answers, fate)[..n] == Meeting(callbacks, answers[..n], fate);
  }

  /** Accounting over any sequence of calls: each message meets exactly one of the four fates, and
      with an error handler none is lost. */
  lemma {:induction false} Accounts(callbacks: Callbacks, batches: seq<seq<Message>>, answers: seq<Answers>)
    requires |answers| == |batches|
    ensures multiset(Concat(batches))
         == multiset(Share(callbacks, batches, answers, Confirmed))
            + multiset(Share(callbacks, batches, answers, TakenOver))
            + multiset(Share(callbacks, batches, answers, Lost))
            + multiset(AfterAll(m => [], callbacks, batches, answers).flushed)
    ensures callbacks.errorHandler ==> Share(callbacks, batches, answers, Lost) == []
  {
    OutputOfAll(m => [], callbacks, batches, answers);
    SharesMakeUpAll(callbacks, batches, answers);
  }

  lemma {:induction false} SharesMakeUpAll(callbacks: Callbacks, batches: seq<seq<Message>>, answers: seq<Answers>)
    requires |answers| == |batches|
    ensures multiset(Concat(batches))
         == multiset(Share(callbacks, batches, answers, Confirmed))
            + multiset(Share(callbacks, batches, answers, TakenOver))
            + multiset(Share(callbacks, batches, answers, Lost))
            + multiset(Share(callbacks, batches, answers, HandedBack))
    ensures callbacks.errorHandler ==> Share(callbacks, batches, answers, Lost) == []
  {
    if batches != [] {
      var n := |batches| - 1;
      SharesMakeUpAll(callbacks, batches[..n], answers[..n]);
      ShareOfLast(callbacks, batches, answers, Confirmed);
      ShareOfLast(callbacks, batches, answers, TakenOver);
      ShareOfLast(callbacks, batches, answers, Lost);
      ShareOfLast(callbacks, batches, answers, HandedBack);
      hide Share;
    }
  }

  /** The accepted tickets of each flushed epoch, epoch after epoch. */
  function InTicketOrder(logs: seq<seq<Ticket>>, epochs: nat, capacity: nat): seq<Message>
    requires epochs <= |logs|
  {
    if epochs == 0 then [] else InTicketOrder(logs, epochs - 1, capacity) + Messages(logs[epochs - 1], capacity)
  }

  lemma {:induction false} ConcatInOrder(logs: seq<seq<Ticket>>, delivered: seq<seq<Message>>, capacity: nat)
    requires |delivered| <= |logs|
    requires forall e :: 0 <= e < |delivered| ==> delivered[e] == Messages(logs[e], capacity)
    ensures Concat(delivered) == InTicketOrder(logs, |delivered|, capacity)
  {
    if delivered != [] { ConcatInOrder(logs, delivered[..|delivered| - 1], capacity); }
  }

  lemma {:induction false} AllChosen(batches: seq<seq<Message>>, chosen: seq<bool>)
    requires |chosen| == |batches| && forall i :: 0 <= i < |chosen| ==> chosen[i]
    ensures Chosen(batches, chosen) == Concat(batches)
  {
    if batches != [] { AllChosen(batches[..|batches| - 1], chosen[..|batches| - 1]); }
  }

  /** Batch protocol and assembly together: in every interleaving, if all writes succeed, the
      output is the text of the accepted messages, epoch after epoch and in ticket order. */
  lemma OutputIsAcceptedMessages(capacity: nat, states: seq<State>, actions: seq<Action>, i: nat,
                                 format: Message -> bytes, callbacks: Callbacks, answers: seq<Answers>)
    requires IsRun(capacity, states, actions) && i < |states|
    requires |answers| == |states[i].delivered| && forall e :: 0 <= e < |answers| ==> Succeeds(answers[e])
    ensures |states[i].delivered| <= |states[i].logs|
    ensures Concat(AfterAll(format, callbacks, states[i].delivered, answers).written)
         == Text(format, InTicketOrder(states[i].logs, |states[i].delivered|, capacity))
  {
    var s := states[i];
    forall e: nat | e < |s.delivered| ensures e < |s.logs| && s.delivered[e] == Messages(s.logs[e], capacity) {
      CallsFollowTicketOrder(capacity, states, actions, i, e);
    }
    if s.delivered != [] { CallsFollowTicketOrder(capacity, states, actions, i, |s.delivered| - 1); }
    OutputOfAll(format, callbacks, s.delivered, answers);
    AllChosen(s.delivered, Successes(answers));
    ConcatInOrder(s.logs, s.delivered, capacity);
  }
}
