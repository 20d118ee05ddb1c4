/** The in-place reader of shared/bufferedreader.go. */
module BufferedReader {
  import opened Utilities
  import opened Framing

  datatype ReadError = NoError | EOF | Failure

  /** One answer of an io.Reader: some bytes and an error. */
  datatype Event = Event(data: bytes, err: ReadError)

  /** An io.Reader with a finite script of answers, then EOF for ever.  An answer that does not
      fit into the offered space is delivered in pieces, so every way of cutting a stream into
      chunks, empty reads, and errors with or without bytes are among the scripts. */
  class Reader {
    var script: seq<Event>

    constructor (script: seq<Event>)
      ensures this.script == script
    {
      this.script := script;
    }

    ghost function Bytes(): bytes reads this { AllBytes(script) }

    ghost predicate MayFail() reads this { CanFail(script) }

    ghost function Work(): nat reads this { |script| + |AllBytes(script)| }

    method Read(buffer: array<byte>, from: nat) returns (n: nat, err: ReadError, ghost chunk: bytes)
      requires from < buffer.Length
      modifies this, buffer
      ensures from + n <= buffer.Length && n == |chunk|
      ensures buffer[..] == old(buffer[..])[..from] + chunk + old(buffer[..])[from + n..]
      ensures old(Bytes()) == chunk + Bytes()
      ensures old(script) == [] ==> n == 0 && err == EOF && script == []
      ensures old(script) != [] ==> Work() < old(Work()) && Work() + n <= old(Work())
      ensures err == old(NextError(script, buffer.Length - from))
      ensures err == Failure || MayFail() ==> old(MayFail())
    {
      if script == [] { return 0, EOF, []; }
      hide AllBytes, CanFail;
      var head, space := script[0], buffer.Length - from;
      n := if |head.data| <= space then |head.data| else space;
      err := NextError(script, space);
      chunk := head.data[..n];
      CopyInto(buffer, from, head.data[..n]);
      StaysFree(script, n);
      AllBytesLeft(script, n);
      script := Left(script, n);
    }
  }

  method CopyInto(buffer: array<byte>, from: nat, chunk: bytes)
    requires from + |chunk| <= buffer.Length
    modifies buffer
    ensures buffer[..] == old(buffer[..])[..from] + chunk + old(buffer[..])[from + |chunk|..]
  {
    forall i | 0 <= i < |chunk| { buffer[from + i] := chunk[i]; }
  }

  /** The script after `n` bytes of its first answer. */
  function Left(script: seq<Event>, n: nat): (left: seq<Event>)
    requires script != [] && n <= |script[0].data|
    ensures |left| == if n == |script[0].data| then |script| - 1 else |script|
  {
    var head := script[0];
    if n == |head.data| then script[1..] else [Event(head.data[n..], head.err)] + script[1..]
  }

  lemma AllBytesLeft(script: seq<Event>, n: nat)
    requires script != [] && n <= |script[0].data|
    ensures AllBytes(script) == script[0].data[..n] + AllBytes(Left(script, n))
  {
    var data := script[0].data;
    assert data == data[..n] + data[n..];
    if n < |data| {
      AllBytesUnfold(script);
      AllBytesUnfold(Left(script, n));
      hide AllBytes;
      assert Left(script, n)[1..] == script[1..];
      Associative(data[..n], data[n..], AllBytes(script[1..]));
    }
  }

  lemma AllBytesUnfold(script: seq<Event>)
    requires script != []
    ensures AllBytes(script) == script[0].data + AllBytes(script[1..])
  {
  }

  function AllBytes(script: seq<Event>): bytes {
    if script == [] then [] else script[0].data + AllBytes(script[1..])
  }

  /** Some answer of the script is an error other than EOF. */
  ghost predicate CanFail(script: seq<Event>) { exists i :: 0 <= i < |script| && script[i].err == Failure }

  lemma StaysFree(script: seq<Event>, n: nat)
    requires script != [] && n <= |script[0].data|
    ensures script[0].err == Failure || CanFail(Left(script, n)) ==> CanFail(script)
  {
    var left := Left(script, n);
    if CanFail(left) {
      var i :| 0 <= i < |left| && left[i].err == Failure;
      assert script[|script| - |left| + i].err == Failure;
    }
  }

  /** The error that comes with the next answer into `space` bytes. */
  function NextError(script: seq<Event>, space: nat): ReadError {
    if script == [] then EOF else if |script[0].data| <= space then script[0].err else NoError
  }

  lemma SliceOfSlice(s: bytes, from: nat, to: nat, i: nat, j: nat)
    requires from <= to <= |s| && i <= j <= to - from
    ensures s[from..to][i..j] == s[from + i..from + j]
  {
    var part := s[from..to];
    assert forall k :: i <= k < j ==> part[k] == s[from + k];
    assert forall k :: 0 <= k < j - i ==> part[i..j][k] == part[i + k];
  }

  lemma SpliceSlices(s: bytes, from: nat, to: nat, chunk: bytes, t: bytes)
    requires from <= to && to + |chunk| <= |s| && t == s[..to] + chunk + s[to + |chunk|..]
    ensures t[from..to] == s[from..to] && t[from..to + |chunk|] == s[from..to] + chunk
  {
  }

  /** What happened since the last reset: the size of the buffer then, the first sequence number,
      the bytes taken over, the messages handed out, the bytes still buffered; and all bytes lost
      to failing reads. */
  datatype History = History(size: nat, start: nat, received: bytes, emitted: seq<bytes>, pending: bytes, lost: bytes)
  {
    /** A buffer of `length` bytes is not larger than the largest message of the stream requires. */
    ghost predicate Bound(check: Recogniser, growSize: nat, length: int)
      requires WellFormed(check)
    {
      PrefixStable(check) ==>
        forall n: nat :: FrameBounded(check, received, n) ==> length <= size || length <= n - 1 + growSize
    }

    /** Messages handed out plus messages still buffered are the messages of all bytes received. */
    ghost predicate Sound(check: Recogniser)
      requires WellFormed(check)
    {
      PrefixStable(check) ==>
        && Frames(check, received) == emitted + Frames(check, pending)
        && Rest(check, received) == Rest(check, pending)
    }

    function Arrive(chunk: bytes): History {
      this.(received := received + chunk, pending := pending + chunk)
    }

    function Cut(check: Recogniser): History
      requires WellFormed(check) && Fits(check, pending)
    {
      this.(emitted := emitted + [Message(check, pending)], pending := After(check, pending))
    }
  }

  lemma ArriveSound(check: Recogniser, h: History, chunk: bytes)
    requires WellFormed(check) && h.Sound(check)
    ensures h.Arrive(chunk).Sound(check)
  {
    if PrefixStable(check) {
      FramesAppend(check, h.received, chunk);
      FramesAppend(check, h.pending, chunk);
      Associate(h.emitted, Frames(check, h.pending), Frames(check, Rest(check, h.received) + chunk));
    }
  }

  lemma Associate(a: seq<bytes>, b: seq<bytes>, c: seq<bytes>)
    ensures (a + b) + c == a + (b + c)
  {
  }

  lemma ArriveBound(check: Recogniser, growSize: nat, length: int, h: History, chunk: bytes)
    requires WellFormed(check) && h.Bound(check, growSize, length)
    ensures h.Arrive(chunk).Bound(check, growSize, length)
  {
    if PrefixStable(check) {
      forall n: nat | FrameBounded(check, h.received + chunk, n)
        ensures length <= h.size || length <= n - 1 + growSize {
        forall i | 0 <= i <= |h.received| ensures |Rest(check, h.received[..i])| < n {
          assert h.received[..i] == (h.received + chunk)[..i];
        }
        assert FrameBounded(check, h.received, n);
      }
    }
  }

  /** Growing a full buffer without a complete message keeps the bound. */
  lemma GrowBound(check: Recogniser, growSize: nat, h: History)
    requires WellFormed(check) && h.Sound(check) && !Fits(check, h.pending)
    ensures h.Bound(check, growSize, |h.pending| + growSize)
  {
    if PrefixStable(check) {
      forall n: nat | FrameBounded(check, h.received, n) ensures |h.pending| <= n - 1 {
        assert h.received[..|h.received|] == h.received;
        assert |Rest(check, h.received[..|h.received|])| < n;
      }
    }
  }

  lemma CutSound(check: Recogniser, h: History)
    requires WellFormed(check) && Fits(check, h.pending) && h.Sound(check)
    ensures h.Cut(check).Sound(check)
  {
    assert h.emitted + Frames(check, h.pending) == h.Cut(check).emitted + Frames(check, After(check, h.pending));
  }

  class BufferedReader {
    const check: Recogniser
    const growSize: nat
    var data: array<byte>
    var sequence: nat
    var begin: nat
    var end: nat
    var incomplete: bool
    ghost var history: History

    /** Holds between the parts of ReadOne, too. */
    ghost predicate Base()
      reads this, data
    {
      && growSize > 0 && WellFormed(check)
      && begin <= end <= data.Length && 0 < data.Length
      && history.pending == data[begin..end]
      && history.Sound(check)
      && history.Bound(check, growSize, data.Length)
    }

    /** `incomplete` asks for a read: then there is room for it and no message is buffered.
        Sequence numbers count the messages. */
    ghost predicate Valid()
      reads this, data
    {
      && Base()
      && sequence == (history.start + |history.emitted|) % UINT64
      && (if incomplete then end < data.Length && !Fits(check, history.pending) else begin < end)
    }

    /** Decreases with every read, message and request for more bytes. */
    ghost function Todo(reader: Reader): nat
      reads this, reader
    {
      4 * reader.Work() + 2 * |history.pending| + (if incomplete then 0 else 1)
    }

    constructor (bufferSize: nat, check: Recogniser)
      requires bufferSize > 0 && WellFormed(check)
      ensures Valid() && fresh(data)
      ensures this.check == check && growSize == bufferSize == data.Length
      ensures incomplete && history == History(bufferSize, 0, [], [], [], [])
    {
      this.check := check;
      growSize := bufferSize;
      data := new byte[bufferSize](i => 0);
      sequence, begin, end, incomplete := 0, 0, 0, true;
      history := History(bufferSize, 0, [], [], [], []);
    }

    /** Restart on a new stream: buffered bytes are thrown away. */
    method Reset(sequence: nat)
      requires Valid() && sequence < UINT64
      modifies this
      ensures Valid() && data == old(data) && incomplete && this.sequence == sequence
      ensures history == History(data.Length, sequence, [], [], [], old(history.lost))
    {
      this.sequence := sequence;
      begin, end, incomplete := 0, 0, true;
      history := History(data.Length, sequence, [], [], [], history.lost);
    }

    /** extractMessage behind the recogniser's answer: the next message, or None. */
    method Parse() returns (msg: Option<bytes>)
      requires Base()
      modifies this`begin, this`history
      ensures Base()
      ensures old(Fits(check, history.pending)) ==>
        history == old(history).Cut(check) && msg == Some(Message(check, old(history.pending))) && old(begin) < begin
      ensures !old(Fits(check, history.pending)) ==> msg == None && begin == old(begin) && history == old(history)
    {
      var frame := check(data[begin..end]);
      if frame.len <= 0 { return None; }
      var next := begin + frame.offset + frame.len + frame.pad;
      if next > end { return None; }
      CutSound(check, history);
      SliceOfSlice(data[..], begin, end, frame.offset, frame.offset + frame.len);
      SliceOfSlice(data[..], begin, end, frame.Total(), end - begin);
      msg := Some(data[begin + frame.offset..begin + frame.offset + frame.len]);
      begin, history := next, history.Cut(check);
    }

    /** Read once into the free space behind `end`; true when there are new bytes. */
    method Fill(reader: Reader) returns (filled: bool, err: ReadError, ghost got: bytes, ghost gone: bytes)
      requires Valid() && incomplete
      modifies this`end, this`incomplete, this`history, data, reader
      ensures Base() && begin == old(begin)
      ensures Todo(reader) < old(Todo(reader))
        || (Todo(reader) == old(Todo(reader)) && reader.script == old(reader.script) == [] && err == EOF && !filled)
      ensures history == old(history).Arrive(got).(lost := old(history.lost) + gone)
      ensures old(reader.Bytes()) == got + gone + reader.Bytes() && (if err == Failure then got == [] else gone == [])
      ensures (filled <==> got != []) && (!filled ==> err == old(NextError(reader.script, data.Length - end)))
      ensures err == Failure || reader.MayFail() ==> old(reader.MayFail())
      ensures if filled then !incomplete && begin < end && gone == []
        else incomplete && end == old(end) && got == [] && history.pending == old(history.pending)
    {
      hide FrameBounded, PrefixStable;
      ghost var before := data[..];
      var n;
      ghost var chunk;
      n, err, chunk := reader.Read(data, end);
      SpliceSlices(before, begin, end, chunk, data[..]);
      if err == Failure || n == 0 {
        history := history.(lost := history.lost + chunk);
        assert history.pending + [] == history.pending && history.received + [] == history.received;
        return false, err, [], chunk;
      }
      ArriveSound(check, history, chunk);
      ArriveBound(check, growSize, data.Length, history, chunk);
      history := history.Arrive(chunk);
      assert history.lost + [] == history.lost;
      end := end + n;
      incomplete := false;
      return true, err, chunk, [];
    }

    /** Behind a parse without result: compact or grow a full buffer, and ask for more bytes. */
    method MakeRoom()
      requires Base() && begin < end && !Fits(check, history.pending)
      modifies this`data, this`begin, this`end, this`incomplete, data
      ensures Base() && incomplete && end < data.Length
      ensures data == old(data) || fresh(data)
    {
      if data.Length == end {
        if begin != 0 {
          forall i | 0 <= i < end - begin { data[i] := data[begin + i]; }
          end := end - begin;
          begin := 0;
        } else {
          GrowBound(check, growSize, history);
          var temp := data;
          data := new byte[temp.Length + growSize](i => 0);
          forall i | 0 <= i < temp.Length { data[i] := temp[i]; }
        }
        assert history.pending == data[begin..end];
      }
      incomplete := true;
    }

    /** The empty buffer is reused from its start. */
    method Rewind()
      requires Base()
      modifies this`begin, this`end, this`incomplete
      ensures Base()
      ensures if old(begin != 0 && begin == end) then begin == end == 0 && incomplete
              else begin == old(begin) && end == old(end) && incomplete == old(incomplete)
    {
      if begin != 0 && begin == end {
        begin, end, incomplete := 0, 0, true;
      }
    }

    /** ReadOne behind the read: the next message, or room for more bytes. */
    method Next() returns (msg: Option<bytes>, number: nat)
      requires Base() && !incomplete && begin < end && sequence == (history.start + |history.emitted|) % UINT64
      modifies this`data, this`sequence, this`begin, this`end, this`incomplete, this`history, data
      ensures Valid()
      ensures Extracted(check, old(history), history, msg) && (msg.Some? ==> number == old(sequence))
        && (msg.None? ==> incomplete)
      ensures data == old(data) || fresh(data)
    {
      hide FrameBounded, PrefixStable;
      number := 0;
      msg := Parse();
      if msg == None {
        // never empty here: a read leaves bytes behind, and a parse without result takes none
        MakeRoom();
      } else {
        Rewind();
        number := sequence;
        sequence := (sequence + 1) % UINT64;
      }
    }

    /** ReadOne: at most one read, at most one message. */
    method ReadOne(reader: Reader)
      returns (msg: Option<bytes>, number: nat, more: bool, err: ReadError, ghost got: bytes, ghost gone: bytes)
      requires Valid()
      modifies this, data, reader
      ensures Valid() && (data == old(data) || fresh(data))
      // no byte is dropped, except those that came together with a failure: all of those
      ensures old(reader.Bytes()) == got + gone + reader.Bytes() && (if err == Failure then got == [] else gone == [])
      // the next message of everything received, numbered, or none because none is complete
      ensures Extracted(check, old(history).Arrive(got).(lost := old(history.lost) + gone), history, msg)
      ensures msg.Some? ==> number == (old(history).start + |old(history).emitted|) % UINT64
      // what the caller learns
      ensures err == if old(incomplete) && got == [] then old(NextError(reader.script, data.Length - end)) else NoError
      ensures err != NoError ==> msg.None? && incomplete
      ensures err == Failure || reader.MayFail() ==> old(reader.MayFail())
      ensures more <==> history.pending != [] || (msg.None? && got != [])
      // progress
      ensures Todo(reader) < old(Todo(reader))
        || (Todo(reader) == old(Todo(reader)) && err == EOF && reader.script == old(reader.script) == [])
    {
      hide FrameBounded, PrefixStable;
      got, gone, err, number, msg := [], [], NoError, 0, None;
      if incomplete {
        var filled, readError;
        filled, readError, got, gone := Fill(reader);
        if !filled {
          return None, 0, end - begin > 0, readError, got, gone;
        }
      } else {
        assert history == history.Arrive([]).(lost := history.lost + []);
      }
      msg, number := Next();
      more := msg == None || end - begin > 0;
    }

    /** Every complete message of the received bytes has been handed out, and nothing else. */
    ghost predicate Drained()
      reads this
    {
      WellFormed(check) && (PrefixStable(check) ==>
        && history.emitted == Frames(check, history.received)
        && history.pending == Rest(check, history.received))
    }

    lemma DrainedWhenIncomplete()
      requires Valid() && incomplete
      ensures Drained()
    {
    }

    /** The bound on the buffer in terms of the messages: on a stream whose messages, with header
        and padding, have at most `size` bytes the buffer never holds more than size - 1 + growSize. */
    lemma BufferIsBounded(stream: bytes, size: nat)
      requires Valid() && PrefixStable(check) && Prompt(check)
      requires history.received <= stream && FramesAtMost(check, stream, size)
      ensures data.Length <= history.size || data.Length <= size - 1 + growSize
    {
      SmallFramesBoundTheRest(check, stream, size);
      forall n | 0 <= n <= |history.received| ensures |Rest(check, history.received[..n])| < size {
        assert history.received[..n] == stream[..n];
      }
      assert FrameBounded(check, history.received, size);
    }

    /** ReadAll: messages go to the callback, here collected in `out`, until the reader reports
        an error or the buffer is used up. */
    method ReadAll(reader: Reader) returns (out: seq<(bytes, nat)>, err: ReadError, ghost got: bytes, ghost gone: bytes)
      requires Valid()
      modifies this, data, reader
      ensures Valid() && (data == old(data) || fresh(data)) && incomplete && Drained()
      ensures old(reader.Bytes()) == got + gone + reader.Bytes() && (err != Failure ==> gone == [])
      ensures Ran(old(history), history, out, got, gone)
      ensures err == NoError ==> history.pending == []
      ensures err == Failure || reader.MayFail() ==> old(reader.MayFail())
      ensures Todo(reader) < old(Todo(reader)) || reader.script == old(reader.script) == []
    {
      hide FrameBounded, PrefixStable, Ran, CanFail, AllBytes;
      out, got, gone, err := [], [], [], NoError;
      RanNothing(history);
      ghost var total, todo, script := reader.Bytes(), Todo(reader), reader.script;
      var more := true;
      while more && err == NoError
        invariant Valid() && (data == old(data) || fresh(data))
        invariant total == got + gone + reader.Bytes() && (err != Failure ==> gone == [])
        invariant Ran(old(history), history, out, got, gone)
        invariant err == Failure || reader.MayFail() ==> old(reader.MayFail())
        invariant (err != NoError ==> incomplete) && (!more && err == NoError ==> history.pending == [])
        invariant Todo(reader) < todo
          || (Todo(reader) == todo && reader.script == script && ((more && err == NoError) || script == []))
        decreases Todo(reader), more && err == NoError
      {
        out, more, err, got, gone := Turn(reader, old(history), total, out, got);
      }
      DrainedWhenIncomplete();
    }

    /** One turn of ReadAll, after it has collected `out` from the bytes `soFar`. */
    method Turn(reader: Reader, ghost first: History, ghost total: bytes, out: seq<(bytes, nat)>, ghost soFar: bytes)
      returns (out': seq<(bytes, nat)>, more: bool, err: ReadError, ghost got: bytes, ghost gone: bytes)
      requires Valid() && Ran(first, history, out, soFar, [])
      requires total == soFar + reader.Bytes()
      modifies this, data, reader
      ensures Valid() && (data == old(data) || fresh(data))
      ensures total == got + gone + reader.Bytes() && (err != Failure ==> gone == [])
      ensures Ran(first, history, out', got, gone)
      ensures err != NoError ==> incomplete
      ensures err == Failure || reader.MayFail() ==> old(reader.MayFail())
      ensures !more ==> history.pending == []
      ensures Todo(reader) < old(Todo(reader))
        || (Todo(reader) == old(Todo(reader)) && err == EOF && reader.script == old(reader.script) == [])
    {
      hide FrameBounded, PrefixStable;
      ghost var before := history;
      var msg, number;
      ghost var chunk;
      msg, number, more, err, chunk, gone := ReadOne(reader);
      RanStep(check, first, before, history, out, soFar, chunk, gone, msg, number);
      out' := if msg.Some? then out + [(msg.value, number)] else out;
      got := soFar + chunk;
      Regroup(soFar, chunk, gone, reader.Bytes());
    }

    /** A consumer's loop around ReadAll until its stream is used up. */
    method Consume(reader: Reader) returns (out: seq<(bytes, nat)>, failed: bool)
      requires Valid() && incomplete
      modifies this, data, reader
      ensures Valid() && incomplete && reader.script == [] && Drained()
      ensures !failed ==> Ran(old(history), history, out, old(reader.Bytes()), [])
      ensures failed ==> old(reader.MayFail())
    {
      out, failed := [], false;
      RanNothing(history);
      ghost var total, got: bytes := reader.Bytes(), [];
      while reader.script != []
        invariant Valid() && (data == old(data) || fresh(data)) && incomplete
        invariant !failed ==> total == got + reader.Bytes() && Ran(old(history), history, out, got, [])
        invariant failed || reader.MayFail() ==> old(reader.MayFail())
        decreases Todo(reader)
      {
        out, failed, got := ConsumeTurn(reader, old(history), total, out, failed, got);
      }
      DrainedWhenIncomplete();
    }

    method ConsumeTurn(reader: Reader, ghost first: History, ghost total: bytes, out: seq<(bytes, nat)>, failed: bool,
                       ghost soFar: bytes)
      returns (out': seq<(bytes, nat)>, failed': bool, ghost got: bytes)
      requires Valid() && incomplete && reader.script != []
      requires !failed ==> total == soFar + reader.Bytes() && Ran(first, history, out, soFar, [])
      modifies this, data, reader
      ensures Valid() && (data == old(data) || fresh(data)) && incomplete && Todo(reader) < old(Todo(reader))
      ensures !failed' ==> total == got + reader.Bytes() && Ran(first, history, out', got, [])
      ensures failed' || reader.MayFail() ==> failed || old(reader.MayFail())
    {
      hide FrameBounded, PrefixStable, Ran, Valid, Todo, AllBytes, CanFail;
      ghost var before := history;
      var more, err;
      ghost var more', gone;
      more, err, more', gone := ReadAll(reader);
      out', failed', got := out + more, failed || err == Failure, soFar + more';
      if !failed' {
        RanTrans(first, before, history, out, more, soFar, more');
        NothingGone(soFar, more', gone, reader.Bytes());
      }
    }
  }

  lemma NothingGone(a: bytes, b: bytes, gone: bytes, c: bytes)
    requires gone == []
    ensures a + (b + gone + c) == a + b + c
  {
    Regroup(a, b, gone, c);
  }

  function Texts(out: seq<(bytes, nat)>): seq<bytes> { seq(|out|, i requires 0 <= i < |out| => out[i].0) }

  /** Between two states the reader took over `got`, lost `gone` and handed out `out`,
      numbered consecutively from its start number. */
  predicate Ran(before: History, after: History, out: seq<(bytes, nat)>, got: bytes, gone: bytes) {
    && after == before.(received := before.received + got, lost := before.lost + gone,
                        emitted := before.emitted + Texts(out), pending := after.pending)
    && forall i :: 0 <= i < |out| ==> out[i].1 == (before.start + |before.emitted| + i) % UINT64
  }

  lemma RanNothing(h: History)
    ensures Ran(h, h, [], [], [])
  {
  }

  /** The first buffered message has been handed out, or none was complete. */
  ghost predicate Extracted(check: Recogniser, before: History, after: History, msg: Option<bytes>)
    requires WellFormed(check)
  {
    if msg.Some? then Fits(check, before.pending) && after == before.Cut(check)
      && msg.value == Message(check, before.pending)
    else after == before && !Fits(check, before.pending)
  }

  lemma Regroup(a: bytes, b: bytes, c: bytes, d: bytes)
    ensures a + (b + c + d) == a + b + c + d
  {
  }

  lemma RanStep(check: Recogniser, first: History, before: History, after: History, out: seq<(bytes, nat)>,
                got: bytes, chunk: bytes, gone: bytes, msg: Option<bytes>, number: nat)
    requires WellFormed(check) && Ran(first, before, out, got, [])
    requires Extracted(check, before.Arrive(chunk).(lost := before.lost + gone), after, msg)
    requires msg.Some? ==> number == (before.start + |before.emitted|) % UINT64
    ensures Ran(first, after, if msg.Some? then out + [(msg.value, number)] else out, got + chunk, gone)
  {
    assert msg.Some? ==> Texts(out + [(msg.value, number)]) == Texts(out) + [msg.value];
  }

  lemma RanTrans(a: History, b: History, c: History, out: seq<(bytes, nat)>, out': seq<(bytes, nat)>, got: bytes,
                 got': bytes)
    requires Ran(a, b, out, got, []) && Ran(b, c, out', got', [])
    ensures Ran(a, c, out + out', got + got', [])
  {
    assert Texts(out + out') == Texts(out) + Texts(out');
  }

  /** Chunk independence: however a stream is cut into reads and whatever the size of the
      buffer, the messages are those of the whole stream, numbered from 0. */
  method ConsumeScript(bufferSize: nat, check: Recogniser, script: seq<Event>)
    returns (out: seq<(bytes, nat)>, failed: bool)
    requires bufferSize > 0 && WellFormed(check)
    ensures !CanFail(script) ==> !failed
    ensures !failed && PrefixStable(check) ==> Texts(out) == Frames(check, AllBytes(script))
    ensures !failed ==> forall i :: 0 <= i < |out| ==> out[i].1 == i % UINT64
  {
    var reader := new Reader(script);
    var buffer := new BufferedReader(bufferSize, check);
    out, failed := buffer.Consume(reader);
    assert !failed ==> buffer.history.received == AllBytes(script);
  }
}
