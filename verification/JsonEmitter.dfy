/**
 The callbacks of format/json.go as functions on the output so far: which JSON tokens they
 write, that the brackets always match, and for which documents the output is their JSON text.
 */
module JsonEmitter {
  import opened Utilities

  datatype ReaderState = ArrayEnd | ObjectEnd | Object | Key | Value | Array | ArrayAppend
  {
    predicate InArray() { Array? || ArrayAppend? }

    /** `state > jsonReadKey` */
    predicate BeyondKey() { Value? || Array? || ArrayAppend? }
  }

  /** Structural tokens; names and scalar texts are opaque. */
  datatype Token =
    | OpenObject | CloseObject | OpenArray | CloseArray | Comma
    | Name(key: bytes) | Scalar(text: bytes) | Null

  datatype Emitter = Emitter(message: seq<Token>, state: ReaderState, stack: seq<ReaderState>)
  {
    function Write(tokens: seq<Token>): Emitter { this.(message := message + tokens) }
  }

  /** The library functions the callbacks use, trimming, JSON encoding and date conversion, and what
      the spelling of a string means in the input (the callbacks never ask for that). */
  datatype Library = Library(trim: bytes -> bytes, encode: bytes -> bytes, date: bytes -> bytes, decode: bytes -> bytes)

  datatype Callback =
    | ReadKey(data: bytes)
    | ReadValue(data: bytes)
    | ReadEscaped(data: bytes)
    | ReadDate(data: bytes)
    | ReadArray
    | ReadObject
    | ReadEnd
    | ReadArrayValue(data: bytes)
    | ReadArrayEscaped(data: bytes)
    | ReadValueEnd(data: bytes)
    | ReadEscapedEnd(data: bytes)
    | ReadDateEnd(data: bytes)

  /** A callback and the name of the parser state it is called from. */
  datatype Call = Call(callback: Callback, name: bytes)

  // ---------------------------------------------------------------- callbacks

  function End(e: Emitter): Emitter {
    var size := |e.stack|;
    var closed := if size > 0 then e.Write([if e.state.InArray() then CloseArray else CloseObject]) else e;
    if size > 1 then
      var top := e.stack[size - 1];
      closed.(state := if top == Array then ArrayAppend else top, stack := e.stack[..size - 1])
    else closed.(state := Key, stack := [])
  }

  function CloseArrays(e: Emitter): Emitter
    decreases |e.stack| + if e.state.InArray() then 1 else 0
  {
    if e.state.InArray() then CloseArrays(End(e)) else e
  }

  function WriteKey(e: Emitter, key: bytes): Emitter {
    var c := CloseArrays(e);
    c.Write((if c.state.BeyondKey() then [Null] else []) + (if c.state != Object then [Comma] else []) + [Name(key)])
  }

  function WriteScalar(e: Emitter, name: bytes, blank: bool, text: bytes): Emitter {
    if blank then if e.state.InArray() then e else e.(state := Key)
    else
      match e.state
      case Array => e.Write([Scalar(text)]).(state := ArrayAppend)
      case ArrayAppend => e.Write([Comma, Scalar(text)])
      case Value => e.Write([Scalar(text)]).(state := Key)
      case _ => WriteKey(e, name).Write([Scalar(text)]).(state := Key)
  }

  function Plain(lib: Library, e: Emitter, data: bytes, name: bytes): Emitter {
    WriteScalar(e, name, lib.trim(data) == [], lib.trim(data))
  }

  function Escaped(lib: Library, e: Emitter, data: bytes, name: bytes): Emitter {
    WriteScalar(e, name, lib.trim(data) == [], lib.encode(lib.trim(data)))
  }

  function Open(e: Emitter, name: bytes, bracket: Token, inside: ReaderState): Emitter {
    var written :=
      match e.state
      case Value => e.Write([bracket])
      case Array => e.Write([bracket])
      case Object => e.Write([bracket])
      case ArrayAppend => e.Write([Comma, bracket])
      case _ => WriteKey(e, name).Write([bracket]);
    written.(state := inside, stack := written.stack + [written.state])
  }

  function OpenArr(e: Emitter, name: bytes): Emitter { Open(e, name, OpenArray, Array) }

  function OpenObj(e: Emitter, name: bytes): Emitter { Open(e, name, OpenObject, Object) }

  /** The end callbacks with a value: the value does not change the state the end is read in. */
  function EndAfter(before: Emitter, after: Emitter): Emitter { End(after.(state := before.state)) }

  function Apply(lib: Library, e: Emitter, call: Call): Emitter {
    var name := call.name;
    match call.callback
    case ReadKey(data) => WriteKey(e, data).(state := Value)
    case ReadValue(data) => Plain(lib, e, data, name)
    case ReadEscaped(data) => Escaped(lib, e, data, name)
    case ReadDate(data) => Escaped(lib, e, lib.date(lib.trim(data)), name)
    case ReadArray => OpenArr(e, name)
    case ReadObject => OpenObj(e, name)
    case ReadEnd => End(e)
    case ReadArrayValue(data) => Plain(lib, OpenArr(e, name), data, name)
    case ReadArrayEscaped(data) => Escaped(lib, OpenArr(e, name), data, name)
    case ReadValueEnd(data) => EndAfter(e, Plain(lib, e, data, name))
    case ReadEscapedEnd(data) => EndAfter(e, Escaped(lib, e, data, name))
    case ReadDateEnd(data) => EndAfter(e, Escaped(lib, e, lib.date(lib.trim(data)), name))
  }

  function Run(lib: Library, e: Emitter, calls: seq<Call>): Emitter
    decreases |calls|
  {
    if calls == [] then e else Run(lib, Apply(lib, e, calls[0]), calls[1..])
  }

  /** The final loop of Format. */
  function CloseAll(e: Emitter): Emitter
    decreases |e.stack| + if e.state.InArray() || e.state.Object? then 1 else 0
  {
    if e.state.InArray() || e.state.Object? then CloseAll(End(e)) else e
  }

  /** A new message, on whatever the last one left on the stack. */
  function Begin(stack: seq<ReaderState>): Emitter { Emitter([OpenObject], Object, stack) }

  function WithRemains(lib: Library, e: Emitter, remains: Option<bytes>, name: bytes): Emitter {
    if remains.Some? then Escaped(lib, e, remains.value, name) else e
  }

  function Closed(e: Emitter): Emitter { if |e.message| > 1 then CloseAll(e) else e }

  /** Format for the calls the parser makes and what it leaves over. */
  function Formatted(lib: Library, stack: seq<ReaderState>, calls: seq<Call>, remains: Option<bytes>,
                     name: bytes): Emitter {
    Closed(WithRemains(lib, Run(lib, Begin(stack), calls), remains, name)).Write([CloseObject])
  }

  // ----------------------------------------------------------------- brackets

  datatype Kind = InObject | InArray

  function KindOf(s: ReaderState): Kind { if s.InArray() then InArray else InObject }

  function Kinds(states: seq<ReaderState>): (kinds: seq<Kind>)
    ensures |kinds| == |states| && forall i :: 0 <= i < |states| ==> kinds[i] == KindOf(states[i])
  {
    seq(|states|, i requires 0 <= i < |states| => KindOf(states[i]))
  }

  /** One bracket after the open brackets `open`; None if it does not match. */
  function Scanned(open: Option<seq<Kind>>, token: Token): Option<seq<Kind>> {
    if open.None? then None
    else
      var kinds := open.value;
      match token
      case OpenObject => Some(kinds + [InObject])
      case OpenArray => Some(kinds + [InArray])
      case CloseObject => if kinds != [] && kinds[|kinds| - 1] == InObject then Some(kinds[..|kinds| - 1]) else None
      case CloseArray => if kinds != [] && kinds[|kinds| - 1] == InArray then Some(kinds[..|kinds| - 1]) else None
      case _ => open
  }

  /** The brackets that are open after the tokens, innermost last. */
  function Scan(tokens: seq<Token>): Option<seq<Kind>> {
    if tokens == [] then Some([]) else Scanned(Scan(tokens[..|tokens| - 1]), tokens[|tokens| - 1])
  }

  /** The open brackets are the outer object and one per stack entry, of the kind that the states
      record; the entries of the stack are the states around the inner brackets. */
  ghost predicate Matched(e: Emitter) {
    KindOf((e.stack + [e.state])[0]) == InObject && Scan(e.message) == Some(Kinds(e.stack + [e.state]))
  }

  lemma ScanLast(tokens: seq<Token>, token: Token)
    ensures Scan(tokens + [token]) == Scanned(Scan(tokens), token)
  {
    assert (tokens + [token])[..|tokens|] == tokens;
  }

  predicate Flat(tokens: seq<Token>) {
    forall i :: 0 <= i < |tokens| ==> tokens[i].Comma? || tokens[i].Name? || tokens[i].Scalar? || tokens[i].Null?
  }

  lemma {:induction false} ScanFlat(tokens: seq<Token>, more: seq<Token>)
    requires Flat(more)
    ensures Scan(tokens + more) == Scan(tokens)
  {
    if more == [] {
      assert tokens + more == tokens;
    } else {
      var n := |more| - 1;
      ScanFlat(tokens, more[..n]);
      ScanLast(tokens + more[..n], more[n]);
      assert tokens + more == tokens + more[..n] + [more[n]];
    }
  }

  lemma EndMatched(e: Emitter)
    requires Matched(e)
    ensures Matched(End(e)) && |End(e).stack| <= |e.stack|
  {
    hide Scan;
    var size := |e.stack|;
    if size > 0 {
      var token := if e.state.InArray() then CloseArray else CloseObject;
      ScanLast(e.message, token);
      var kinds := Kinds(e.stack + [e.state]);
      assert kinds[|kinds| - 1] == KindOf(e.state);
      assert kinds[..|kinds| - 1] == Kinds(End(e).stack + [End(e).state]);
    } else {
      assert Kinds(e.stack + [e.state]) == Kinds([] + [Key]);
    }
  }

  lemma {:induction false} CloseArraysMatched(e: Emitter)
    requires Matched(e)
    ensures Matched(CloseArrays(e)) && !CloseArrays(e).state.InArray()
    decreases |e.stack| + if e.state.InArray() then 1 else 0
  {
    if e.state.InArray() {
      EndMatched(e);
      CloseArraysMatched(End(e));
    }
  }

  lemma WriteMatched(e: Emitter, tokens: seq<Token>, state: ReaderState)
    requires Matched(e) && Flat(tokens) && KindOf(state) == KindOf(e.state)
    ensures Matched(e.Write(tokens).(state := state))
  {
    ScanFlat(e.message, tokens);
    assert Kinds(e.stack + [state]) == Kinds(e.stack + [e.state]);
  }

  lemma WriteKeyMatched(e: Emitter, key: bytes)
    requires Matched(e)
    ensures Matched(WriteKey(e, key)) && !WriteKey(e, key).state.InArray()
  {
    CloseArraysMatched(e);
    var c := CloseArrays(e);
    WriteMatched(c, (if c.state.BeyondKey() then [Null] else []) + (if c.state != Object then [Comma] else [])
      + [Name(key)], c.state);
  }

  lemma WriteScalarMatched(e: Emitter, name: bytes, blank: bool, text: bytes)
    requires Matched(e)
    ensures Matched(WriteScalar(e, name, blank, text))
    ensures WriteScalar(e, name, blank, text).stack == e.stack
      && KindOf(WriteScalar(e, name, blank, text).state) == KindOf(e.state)
  {
    if blank {
      WriteMatched(e, [], if e.state.InArray() then e.state else Key);
      assert e.message + [] == e.message;
    } else if e.state.InArray() || e.state.Value? {
      WriteMatched(e, if e.state.ArrayAppend? then [Comma, Scalar(text)] else [Scalar(text)],
        if e.state.Value? then Key else ArrayAppend);
    } else {
      WriteKeyMatched(e, name);
      WriteMatched(WriteKey(e, name), [Scalar(text)], Key);
    }
  }

  lemma BracketMatched(e: Emitter, bracket: Token, inside: ReaderState)
    requires Matched(e)
    requires (bracket == OpenArray && inside == Array) || (bracket == OpenObject && inside == Object)
    ensures Matched(Emitter(e.message + [bracket], inside, e.stack + [e.state]))
  {
    ScanLast(e.message, bracket);
    assert Kinds(e.stack + [e.state] + [inside]) == Kinds(e.stack + [e.state]) + [KindOf(inside)];
  }

  lemma OpenMatched(e: Emitter, name: bytes, bracket: Token, inside: ReaderState)
    requires Matched(e)
    requires (bracket == OpenArray && inside == Array) || (bracket == OpenObject && inside == Object)
    ensures Matched(Open(e, name, bracket, inside))
  {
    match e.state
    case ArrayAppend =>
      WriteMatched(e, [Comma], e.state);
      assert e.message + [Comma, bracket] == e.message + [Comma] + [bracket];
      BracketMatched(e.Write([Comma]), bracket, inside);
    case ArrayEnd => WriteKeyMatched(e, name); BracketMatched(WriteKey(e, name), bracket, inside);
    case ObjectEnd => WriteKeyMatched(e, name); BracketMatched(WriteKey(e, name), bracket, inside);
    case Key => WriteKeyMatched(e, name); BracketMatched(WriteKey(e, name), bracket, inside);
    case _ => BracketMatched(e, bracket, inside);
  }

  lemma EndAfterMatched(before: Emitter, after: Emitter)
    requires Matched(after) && KindOf(after.state) == KindOf(before.state)
    ensures Matched(EndAfter(before, after))
  {
    WriteMatched(after, [], before.state);
    assert after.message + [] == after.message;
    EndMatched(after.(state := before.state));
  }

  lemma ApplyMatched(lib: Library, e: Emitter, call: Call)
    requires Matched(e)
    ensures Matched(Apply(lib, e, call))
  {
    hide Matched, WriteScalar, WriteKey, End, Open;
    var name := call.name;
    match call.callback
    case ReadKey(data) =>
      WriteKeyMatched(e, data);
      var k := WriteKey(e, data);
      WriteMatched(k, [], Value);
      assert k.message + [] == k.message;
    case ReadValue(data) => WriteScalarMatched(e, name, lib.trim(data) == [], lib.trim(data));
    case ReadEscaped(data) => WriteScalarMatched(e, name, lib.trim(data) == [], lib.encode(lib.trim(data)));
    case ReadDate(data) =>
      var date := lib.trim(lib.date(lib.trim(data)));
      WriteScalarMatched(e, name, date == [], lib.encode(date));
    case ReadArray => OpenMatched(e, name, OpenArray, Array);
    case ReadObject => OpenMatched(e, name, OpenObject, Object);
    case ReadEnd => EndMatched(e);
    case ReadArrayValue(data) =>
      OpenMatched(e, name, OpenArray, Array);
      WriteScalarMatched(OpenArr(e, name), name, lib.trim(data) == [], lib.trim(data));
    case ReadArrayEscaped(data) =>
      OpenMatched(e, name, OpenArray, Array);
      WriteScalarMatched(OpenArr(e, name), name, lib.trim(data) == [], lib.encode(lib.trim(data)));
    case ReadValueEnd(data) =>
      WriteScalarMatched(e, name, lib.trim(data) == [], lib.trim(data));
      EndAfterMatched(e, Plain(lib, e, data, name));
    case ReadEscapedEnd(data) =>
      WriteScalarMatched(e, name, lib.trim(data) == [], lib.encode(lib.trim(data)));
      EndAfterMatched(e, Escaped(lib, e, data, name));
    case ReadDateEnd(data) =>
      var date := lib.date(lib.trim(data));
      WriteScalarMatched(e, name, lib.trim(date) == [], lib.encode(lib.trim(date)));
      EndAfterMatched(e, Escaped(lib, e, date, name));
  }

  /** After any sequence of callbacks every close bracket has matched, and the outer object is
      still open. */
  lemma {:induction false} RunMatched(lib: Library, e: Emitter, calls: seq<Call>)
    requires Matched(e)
    ensures Matched(Run(lib, e, calls))
    decreases |calls|
  {
    if calls != [] {
      ApplyMatched(lib, e, calls[0]);
      RunMatched(lib, Apply(lib, e, calls[0]), calls[1..]);
    }
  }

  lemma {:induction false} CloseAllMatched(e: Emitter)
    requires Matched(e)
    ensures Matched(CloseAll(e)) && KindOf(CloseAll(e).state) == InObject
    decreases |e.stack| + if e.state.InArray() || e.state.Object? then 1 else 0
  {
    if e.state.InArray() || e.state.Object? {
      EndMatched(e);
      CloseAllMatched(End(e));
    }
  }

  lemma BeginMatched()
    ensures Matched(Begin([]))
  {
    var none: seq<Token> := [];
    ScanLast(none, OpenObject);
    assert none + [OpenObject] == Begin([]).message;
    assert Scan(none) == Some([]);
    assert [] + [InObject] == Kinds(Begin([]).stack + [Object]);
  }

  lemma RemainsMatched(lib: Library, e: Emitter, remains: Option<bytes>, name: bytes)
    requires Matched(e)
    ensures Matched(WithRemains(lib, e, remains, name))
  {
    if remains.Some? {
      WriteScalarMatched(e, name, lib.trim(remains.value) == [], lib.encode(lib.trim(remains.value)));
    }
  }

  lemma ScanShort(tokens: seq<Token>)
    requires |tokens| <= 1
    ensures Scan(tokens).Some? ==> |Scan(tokens).value| <= 1
  {
    if |tokens| == 1 {
      ScanLast([], tokens[0]);
      assert [] + [tokens[0]] == tokens;
    }
  }

  lemma ClosedMatched(e: Emitter)
    requires Matched(e)
    ensures Matched(Closed(e)) && KindOf(Closed(e).state) == InObject
  {
    if |e.message| > 1 { CloseAllMatched(e); } else { ScanShort(e.message); }
  }

  /** Whatever the parser calls: all brackets of a formatted message match, as many are left open
      as there are states on the stack, and so the output is balanced iff the stack is empty. */
  lemma BalancedIffStackEmpty(lib: Library, calls: seq<Call>, remains: Option<bytes>, name: bytes)
    ensures var out := Formatted(lib, [], calls, remains, name);
      Scan(out.message).Some? && |Scan(out.message).value| == |out.stack|
  {
    hide Run, Closed, WithRemains, Matched;
    var read := Run(lib, Begin([]), calls);
    var all := WithRemains(lib, read, remains, name);
    var closed := Closed(all);
    BeginMatched();
    RunMatched(lib, Begin([]), calls);
    RemainsMatched(lib, read, remains, name);
    ClosedMatched(all);
    OuterCloses(closed);
  }

  predicate Balanced(tokens: seq<Token>) { Scan(tokens) == Some([]) }

  /** The states in which the final loop closes a bracket. */
  predicate Closing(s: ReaderState) { s.InArray() || s.Object? }

  /** The final loop empties the stack if it closes the current bracket and all states behind the
      first one on the stack. */
  predicate Closes(state: ReaderState, stack: seq<ReaderState>) {
    stack == [] || (Closing(state) && forall i :: 1 <= i < |stack| ==> Closing(stack[i]))
  }

  lemma {:induction false} CloseAllIff(e: Emitter)
    ensures CloseAll(e).stack == [] <==> Closes(e.state, e.stack)
    decreases |e.stack| + if e.state.InArray() || e.state.Object? then 1 else 0
  {
    if Closing(e.state) {
      CloseAllIff(End(e));
      var n := |e.stack| - 1;
      if n > 0 {
        assert End(e).stack == e.stack[..n];
        assert Closing(End(e).state) == Closing(e.stack[n]);
        if forall i :: 1 <= i < |e.stack[..n]| ==> Closing(e.stack[..n][i]) {
          assert forall i :: 1 <= i < n ==> e.stack[i] == e.stack[..n][i];
        }
      }
    }
  }

  /** A message is balanced exactly if, behind the last callback, nothing is left on the stack but
      arrays and objects that wait for their first field; an object whose last field was written
      and that was not ended stays open. */
  lemma BalancedIff(lib: Library, calls: seq<Call>, remains: Option<bytes>, name: bytes)
    ensures var r := WithRemains(lib, Run(lib, Begin([]), calls), remains, name);
      Balanced(Formatted(lib, [], calls, remains, name).message) <==> Closes(r.state, r.stack)
  {
    hide Run, WithRemains, Matched, CloseAll;
    var r := WithRemains(lib, Run(lib, Begin([]), calls), remains, name);
    BalancedIffStackEmpty(lib, calls, remains, name);
    CloseAllIff(r);
    BeginMatched();
    RunMatched(lib, Begin([]), calls);
    RemainsMatched(lib, Run(lib, Begin([]), calls), remains, name);
    if |r.message| <= 1 { ShortHasNoStack(r); }
  }

  lemma ShortHasNoStack(e: Emitter)
    requires Matched(e) && |e.message| <= 1
    ensures e.stack == []
  {
    ScanShort(e.message);
  }

  /** Such a message: a key, an object in it, and a field that is the last callback. */
  lemma OpenObjectStaysOpen(lib: Library, a: bytes, b: bytes, data: bytes, name: bytes)
    requires lib.trim(data) != []
    ensures var calls := [Call(ReadKey(a), name), Call(ReadObject, name), Call(ReadKey(b), name),
      Call(ReadValue(data), name)];
      Formatted(lib, [], calls, None, name).stack == [Value] && !Balanced(Formatted(lib, [], calls, None, name).message)
  {
    var c0, c1, c2, c3 := Call(ReadKey(a), name), Call(ReadObject, name), Call(ReadKey(b), name),
      Call(ReadValue(data), name);
    assert [c0, c1, c2, c3] == [c0] + ([c1] + ([c2] + [c3]));
    RunAppend(lib, Begin([]), [c0], [c1] + ([c2] + [c3]));
    RunOne(lib, Begin([]), c0);
    var e0 := Apply(lib, Begin([]), c0);
    RunAppend(lib, e0, [c1], [c2] + [c3]);
    RunOne(lib, e0, c1);
    var e1 := Apply(lib, e0, c1);
    RunAppend(lib, e1, [c2], [c3]);
    RunOne(lib, e1, c2);
    RunOne(lib, Apply(lib, e1, c2), c3);
    assert e1.stack == [Value];
    BalancedIffStackEmpty(lib, [c0, c1, c2, c3], None, name);
  }

  lemma OuterCloses(e: Emitter)
    requires Matched(e) && KindOf(e.state) == InObject
    ensures Scan(e.message + [CloseObject]).Some? && |Scan(e.message + [CloseObject]).value| == |e.stack|
  {
    ScanLast(e.message, CloseObject);
    var kinds := Kinds(e.stack + [e.state]);
    assert kinds[|kinds| - 1] == KindOf(e.state);
  }

  // --------------------------------------------------------- composed callbacks

  /** A composed callback as simple ones. */
  function Parts(call: Call): (parts: seq<Call>) {
    var name := call.name;
    match call.callback
    case ReadArrayValue(data) => [Call(ReadArray, name), Call(ReadValue(data), name)]
    case ReadArrayEscaped(data) => [Call(ReadArray, name), Call(ReadEscaped(data), name)]
    case ReadValueEnd(data) => [Call(ReadValue(data), name), Call(ReadEnd, name)]
    case ReadEscapedEnd(data) => [Call(ReadEscaped(data), name), Call(ReadEnd, name)]
    case ReadDateEnd(data) => [Call(ReadDate(data), name), Call(ReadEnd, name)]
    case _ => [call]
  }

  function Simple(calls: seq<Call>): seq<Call> {
    if calls == [] then [] else Parts(calls[0]) + Simple(calls[1..])
  }

  lemma {:induction false} RunAppend(lib: Library, e: Emitter, a: seq<Call>, b: seq<Call>)
    ensures Run(lib, e, a + b) == Run(lib, Run(lib, e, a), b)
    decreases |a|
  {
    if a == [] {
      assert a + b == b;
    } else {
      assert (a + b)[1..] == a[1..] + b;
      RunAppend(lib, Apply(lib, e, a[0]), a[1..], b);
    }
  }

  lemma RunOne(lib: Library, e: Emitter, call: Call)
    ensures Run(lib, e, [call]) == Apply(lib, e, call)
  {
  }

  /** A value does not leave the container it is read in, so resetting the state before the end
      makes no difference. */
  lemma ScalarKeepsPlace(e: Emitter, name: bytes, blank: bool, text: bytes)
    ensures EndAfter(e, WriteScalar(e, name, blank, text)) == End(WriteScalar(e, name, blank, text))
  {
    hide End;
    WriteScalarKind(e, name, blank, text);
    EndByKind(WriteScalar(e, name, blank, text), e.state);
  }

  lemma EndByKind(e: Emitter, state: ReaderState)
    requires KindOf(state) == KindOf(e.state)
    ensures End(e.(state := state)) == End(e)
  {
  }

  lemma WriteScalarKind(e: Emitter, name: bytes, blank: bool, text: bytes)
    ensures KindOf(WriteScalar(e, name, blank, text).state) == KindOf(e.state)
  {
    hide WriteKey;
  }

  lemma PartsOfOne(lib: Library, e: Emitter, call: Call)
    ensures Run(lib, e, Parts(call)) == Apply(lib, e, call)
  {
    hide WriteScalar, Open, End, EndAfter;
    var parts, name := Parts(call), call.name;
    if |parts| == 1 {
      RunOne(lib, e, call);
    } else {
      assert parts == [parts[0]] + [parts[1]];
      RunAppend(lib, e, [parts[0]], [parts[1]]);
      RunOne(lib, e, parts[0]);
      RunOne(lib, Apply(lib, e, parts[0]), parts[1]);
      match call.callback
      case ReadValueEnd(data) => ScalarKeepsPlace(e, name, lib.trim(data) == [], lib.trim(data));
      case ReadEscapedEnd(data) => ScalarKeepsPlace(e, name, lib.trim(data) == [], lib.encode(lib.trim(data)));
      case ReadDateEnd(data) =>
        var date := lib.trim(lib.date(lib.trim(data)));
        ScalarKeepsPlace(e, name, date == [], lib.encode(date));
      case _ =>
    }
  }

  /** The composed callbacks are their parts, one after the other, in every state. */
  lemma {:induction false} ComposedAreSimple(lib: Library, e: Emitter, calls: seq<Call>)
    ensures Run(lib, e, Simple(calls)) == Run(lib, e, calls)
    decreases |calls|
  {
    hide Apply;
    if calls != [] {
      RunAppend(lib, e, Parts(calls[0]), Simple(calls[1..]));
      PartsOfOne(lib, e, calls[0]);
      ComposedAreSimple(lib, Apply(lib, e, calls[0]), calls[1..]);
    }
  }

  // ---------------------------------------------------------------- documents

  /** A JSON document, with scalars as the parser reads them.  Directive tables commonly call `val`
      at every separator, so there may be a `val` callback with blank data behind a value, and
      right behind the bracket that opens an array. */
  datatype Json =
    | Bare(data: bytes)
    | Quoted(data: bytes)
    | Arr(lead: Option<bytes>, items: seq<Item>)
    | Obj(fields: seq<Field>)

  datatype Item = Item(value: Json, blank: Option<bytes>)

  datatype Field = Field(key: bytes, value: Json, blank: Option<bytes>)

  predicate IsScalar(v: Json) { v.Bare? || v.Quoted? }

  /** A scalar for which nothing is written. */
  predicate IsBlank(lib: Library, v: Json) { IsScalar(v) && lib.trim(v.data) == [] }

  /** The callbacks for a value. */
  function Feed(v: Json): seq<Callback> {
    match v
    case Bare(data) => [ReadValue(data)]
    case Quoted(data) => [ReadEscaped(data)]
    case Arr(lead, items) => [ReadArray] + (FeedBlank(lead) + FeedItems(items)) + [ReadEnd]
    case Obj(fields) => [ReadObject] + FeedFields(fields) + [ReadEnd]
  }

  function FeedBlank(blank: Option<bytes>): seq<Callback> {
    if blank.Some? then [ReadValue(blank.value)] else []
  }

  function FeedItems(items: seq<Item>): seq<Callback> {
    if items == [] then []
    else
      assert items[0].value < items[0];
      Feed(items[0].value) + FeedBlank(items[0].blank) + FeedItems(items[1..])
  }

  function FeedField(f: Field): seq<Callback> {
    [ReadKey(f.key)] + Feed(f.value) + FeedBlank(f.blank)
  }

  function FeedFields(fields: seq<Field>): seq<Callback> {
    if fields == [] then [] else FeedField(fields[0]) + FeedFields(fields[1..])
  }

  /** The JSON text of a value (sections 4 and 5 of RFC 8259), as tokens.  Blank space around a bare
      scalar is not part of it, in a string it is.  A string is encoded for what its spelling means. */
  function Text(lib: Library, v: Json): seq<Token> {
    match v
    case Bare(data) => [Scalar(lib.trim(data))]
    case Quoted(data) => [Scalar(lib.encode(lib.decode(data)))]
    case Arr(_, items) => [OpenArray] + TextItems(lib, items, true) + [CloseArray]
    case Obj(fields) => [OpenObject] + TextFields(lib, fields, true) + [CloseObject]
  }

  function TextItems(lib: Library, items: seq<Item>, first: bool): seq<Token> {
    if items == [] then []
    else
      assert items[0].value < items[0];
      (if first then [] else [Comma]) + Text(lib, items[0].value) + TextItems(lib, items[1..], false)
  }

  function TextFields(lib: Library, fields: seq<Field>, first: bool): seq<Token> {
    if fields == [] then []
    else
      (if first then [] else [Comma]) + [Name(fields[0].key)] + Text(lib, fields[0].value)
      + TextFields(lib, fields[1..], false)
  }

  /** The additional callbacks of a document have blank data. */
  predicate Spaced(lib: Library, v: Json) {
    match v
    case Bare(_) => true
    case Quoted(_) => true
    case Arr(lead, items) => SpaceIn(lib, lead) && AllItemsSpaced(lib, items)
    case Obj(fields) => AllSpaced(lib, fields)
  }

  predicate SpaceIn(lib: Library, blank: Option<bytes>) { blank.Some? ==> lib.trim(blank.value) == [] }

  predicate AllItemsSpaced(lib: Library, items: seq<Item>) {
    forall i :: 0 <= i < |items| ==>
      assert items[i].value < items[i];
      Spaced(lib, items[i].value) && SpaceIn(lib, items[i].blank)
  }

  predicate AllSpaced(lib: Library, fields: seq<Field>) {
    forall i :: 0 <= i < |fields| ==> Spaced(lib, fields[i].value) && SpaceIn(lib, fields[i].blank)
  }

  /** No scalar is blank. */
  predicate Filled(lib: Library, v: Json) {
    match v
    case Bare(data) => lib.trim(data) != []
    case Quoted(data) => lib.trim(data) != []
    case Arr(_, items) => AllItemsFilled(lib, items)
    case Obj(fields) => AllFilled(lib, fields)
  }

  predicate AllItemsFilled(lib: Library, items: seq<Item>) {
    forall i :: 0 <= i < |items| ==>
      assert items[i].value < items[i];
      Filled(lib, items[i].value)
  }

  predicate AllFilled(lib: Library, fields: seq<Field>) {
    forall i :: 0 <= i < |fields| ==> Filled(lib, fields[i].value)
  }

  /** No string changes: trimming its spelling and encoding that gives what it means, encoded. */
  predicate Kept(lib: Library, v: Json) {
    match v
    case Bare(_) => true
    case Quoted(data) => lib.encode(lib.trim(data)) == lib.encode(lib.decode(data))
    case Arr(_, items) => AllItemsKept(lib, items)
    case Obj(fields) => AllKept(lib, fields)
  }

  predicate AllItemsKept(lib: Library, items: seq<Item>) {
    forall i :: 0 <= i < |items| ==>
      assert items[i].value < items[i];
      Kept(lib, items[i].value)
  }

  predicate AllKept(lib: Library, fields: seq<Field>) {
    forall i :: 0 <= i < |fields| ==> Kept(lib, fields[i].value)
  }

  /** Inside objects other than the outermost one, every array or object that another field follows
      is followed by a blank value. */
  predicate Tidy(v: Json) {
    match v
    case Bare(_) => true
    case Quoted(_) => true
    case Arr(_, items) => forall i :: 0 <= i < |items| ==> Tidy(items[i].value)
    case Obj(fields) =>
      && (forall i :: 0 <= i < |fields| ==> Tidy(fields[i].value))
      && forall i :: 0 <= i < |fields| - 1 ==> IsScalar(fields[i].value) || fields[i].blank.Some?
  }

  // --------------------------------------------------------------- what is written

  /** The state after a value: the outermost object forgets that a value is expected, inner
      objects get the state back that they had before an array or object was opened. */
  function StateAfter(inner: bool, v: Json): ReaderState { if inner && !IsScalar(v) then Value else Key }

  /** The state after a field; a blank value ends the wait for a value. */
  function StateAfterField(inner: bool, f: Field): ReaderState {
    if f.blank.Some? then Key else StateAfter(inner, f.value)
  }

  /** What is written for a value: its text without blank scalars, and with a null in front of each
      name that follows an array or object in an inner object without a blank value between them. */
  function Written(lib: Library, v: Json): seq<Token> {
    match v
    case Bare(data) => if lib.trim(data) == [] then [] else [Scalar(lib.trim(data))]
    case Quoted(data) => if lib.trim(data) == [] then [] else [Scalar(lib.encode(lib.trim(data)))]
    case Arr(_, items) => [OpenArray] + WrittenItems(lib, items, true) + [CloseArray]
    case Obj(fields) => [OpenObject] + WrittenFields(lib, fields, Object, true) + [CloseObject]
  }

  function WrittenItems(lib: Library, items: seq<Item>, first: bool): seq<Token> {
    if items == [] then []
    else
      assert items[0].value < items[0];
      (if first || IsBlank(lib, items[0].value) then [] else [Comma]) + Written(lib, items[0].value)
      + WrittenItems(lib, items[1..], first && IsBlank(lib, items[0].value))
  }

  function Separator(state: ReaderState): seq<Token> {
    (if state.BeyondKey() then [Null] else []) + (if state.Object? then [] else [Comma])
  }

  function WrittenFields(lib: Library, fields: seq<Field>, state: ReaderState, inner: bool): seq<Token> {
    if fields == [] then []
    else
      Separator(state) + [Name(fields[0].key)] + Written(lib, fields[0].value)
      + WrittenFields(lib, fields[1..], StateAfterField(inner, fields[0]), inner)
  }

  /** The callbacks of calls, which come from whatever parser states. */
  function Callbacks(calls: seq<Call>): (callbacks: seq<Callback>)
    ensures |callbacks| == |calls| && forall i :: 0 <= i < |calls| ==> callbacks[i] == calls[i].callback
  {
    seq(|calls|, i requires 0 <= i < |calls| => calls[i].callback)
  }

  lemma RunSplit(lib: Library, e: Emitter, calls: seq<Call>, a: seq<Callback>, b: seq<Callback>)
    requires Callbacks(calls) == a + b
    ensures |calls| == |a| + |b| && Callbacks(calls[..|a|]) == a && Callbacks(calls[|a|..]) == b
    ensures Run(lib, e, calls) == Run(lib, Run(lib, e, calls[..|a|]), calls[|a|..])
  {
    assert |Callbacks(calls)| == |a| + |b|;
    assert calls == calls[..|a|] + calls[|a|..];
    RunAppend(lib, e, calls[..|a|], calls[|a|..]);
    assert forall i :: 0 <= i < |a| ==> a[i] == (a + b)[i];
    assert forall i :: 0 <= i < |b| ==> b[i] == (a + b)[|a| + i];
  }

  lemma RunCallback(lib: Library, e: Emitter, calls: seq<Call>, callback: Callback)
    requires Callbacks(calls) == [callback]
    ensures |calls| == 1 && calls[0].callback == callback && Run(lib, e, calls) == Apply(lib, e, calls[0])
  {
    assert |Callbacks(calls)| == 1;
    assert calls == [calls[0]] && Callbacks(calls)[0] == callback;
    RunOne(lib, e, calls[0]);
  }

  lemma RunContainer(lib: Library, e: Emitter, calls: seq<Call>, open: Callback, inner: seq<Callback>)
    requires Callbacks(calls) == [open] + inner + [ReadEnd]
    ensures |calls| == |inner| + 2 && calls[0].callback == open && Callbacks(calls[1..|inner| + 1]) == inner
    ensures Run(lib, e, calls) == End(Run(lib, Apply(lib, e, calls[0]), calls[1..|inner| + 1]))
  {
    hide Apply;
    RunSplit(lib, e, calls, [open] + inner, [ReadEnd]);
    var front := calls[..|inner| + 1];
    RunSplit(lib, e, front, [open], inner);
    RunCallback(lib, e, front[..1], open);
    RunCallback(lib, Run(lib, e, front), calls[|inner| + 1..], ReadEnd);
    assert front[1..] == calls[1..|inner| + 1];
    ApplyEnd(lib, Run(lib, e, front), calls[|inner| + 1]);
  }

  lemma ApplyEnd(lib: Library, e: Emitter, call: Call)
    requires call.callback == ReadEnd
    ensures Apply(lib, e, call) == End(e)
  {
  }

  /** A value expected after a name, or inside of an array. */
  predicate Expects(e: Emitter) { e.state.Value? || (e.state.InArray() && e.stack != []) }

  /** What a value adds at its position, and the state behind it. */
  function Emits(lib: Library, e: Emitter, v: Json): Emitter {
    var comma := if e.state.ArrayAppend? && !IsBlank(lib, v) then [Comma] else [];
    e.Write(comma + Written(lib, v)).(state := Behind(lib, e, v))
  }

  function Behind(lib: Library, e: Emitter, v: Json): ReaderState {
    if !e.state.InArray() then StateAfter(e.stack != [], v)
    else if IsBlank(lib, v) then e.state
    else ArrayAppend
  }

  /** From the open to the close bracket of a container. */
  lemma BracketsAround(lib: Library, e: Emitter, name: bytes, bracket: Token, inside: ReaderState,
                       text: seq<Token>, last: ReaderState, v: Json)
    requires Expects(e) && !IsScalar(v)
    requires
      || (bracket == OpenArray && inside == Array && last.InArray())
      || (bracket == OpenObject && inside == Object && !last.InArray())
    ensures End(Open(e, name, bracket, inside).Write(text).(state := last)) ==
      e.Write((if e.state.ArrayAppend? then [Comma] else [])
              + ([bracket] + text + [if bracket == OpenArray then CloseArray else CloseObject]))
       .(state := Behind(lib, e, v))
  {
    hide WriteKey;
    var comma := if e.state.ArrayAppend? then [Comma] else [];
    var close := [if bracket == OpenArray then CloseArray else CloseObject];
    var begun := Open(e, name, bracket, inside);
    assert begun.message == e.message + (comma + [bracket]);
    var inner := begun.Write(text).(state := last);
    assert inner.stack[..|inner.stack| - 1] == e.stack;
    Associative(e.message, comma + [bracket], text + close);
    Associative(e.message + (comma + [bracket]), text, close);
    assert comma + [bracket] + (text + close) == comma + ([bracket] + text + close);
  }

  lemma OpenInside(e: Emitter, name: bytes, bracket: Token, inside: ReaderState)
    ensures Open(e, name, bracket, inside).state == inside && Open(e, name, bracket, inside).stack != []
  {
  }

  lemma ScalarIs(lib: Library, e: Emitter, v: Json, call: Call)
    requires Expects(e) && IsScalar(v) && [call.callback] == Feed(v)
    ensures Apply(lib, e, call) == Emits(lib, e, v)
  {
    hide WriteKey;
    assert [call.callback][0] == Feed(v)[0];
    assert e.message + [] == e.message;
  }

  /** What the callbacks of any value write after a name or inside an array, and the state they
      leave behind. */
  lemma {:induction false} RunFeed(lib: Library, e: Emitter, v: Json, calls: seq<Call>)
    requires Expects(e) && Spaced(lib, v) && Callbacks(calls) == Feed(v)
    ensures Run(lib, e, calls) == Emits(lib, e, v)
    decreases v
  {
    hide Run, FeedItems, FeedFields, WrittenItems, WrittenFields, Open, End, WriteKey;
    match v
    case Arr(lead, items) =>
      var inner := FeedBlank(lead) + FeedItems(items);
      RunContainer(lib, e, calls, ReadArray, inner);
      var inside, name := OpenArr(e, calls[0].name), calls[0].name;
      OpenInside(e, name, OpenArray, Array);
      var lines := calls[1..|inner| + 1];
      RunSplit(lib, inside, lines, FeedBlank(lead), FeedItems(items));
      RunBlank(lib, inside, lead, lines[..|FeedBlank(lead)|]);
      RunItems(lib, inside, items, lines[|FeedBlank(lead)|..]);
      BehindItemsInArray(lib, Array, items);
      BracketsAround(lib, e, name, OpenArray, Array, WrittenItems(lib, items, true), BehindItems(lib, Array, items), v);
    case Obj(fields) =>
      RunContainer(lib, e, calls, ReadObject, FeedFields(fields));
      var inside, name := OpenObj(e, calls[0].name), calls[0].name;
      OpenInside(e, name, OpenObject, Object);
      RunFields(lib, inside, fields, calls[1..|FeedFields(fields)| + 1]);
      BracketsAround(lib, e, name, OpenObject, Object, WrittenFields(lib, fields, Object, true),
                     BehindFields(Object, fields, true), v);
    case _ =>
      RunCallback(lib, e, calls, Feed(v)[0]);
      ScalarIs(lib, e, v, calls[0]);
  }

  lemma KeyIs(lib: Library, e: Emitter, key: bytes, name: bytes)
    requires e.state.Object? || e.state.Key? || e.state.Value?
    ensures Apply(lib, e, Call(ReadKey(key), name)) == e.Write(Separator(e.state) + [Name(key)]).(state := Value)
  {
  }

  lemma RunBlank(lib: Library, e: Emitter, blank: Option<bytes>, calls: seq<Call>)
    requires SpaceIn(lib, blank) && Callbacks(calls) == FeedBlank(blank)
    ensures Run(lib, e, calls) == if blank.Some? && !e.state.InArray() then e.(state := Key) else e
  {
    if blank.Some? {
      RunCallback(lib, e, calls, ReadValue(blank.value));
    } else {
      assert |Callbacks(calls)| == 0;
    }
  }

  /** The state behind the items of an array. */
  function BehindItems(lib: Library, state: ReaderState, items: seq<Item>): ReaderState
    decreases |items|
  {
    if items == [] then state
    else BehindItems(lib, if IsBlank(lib, items[0].value) then state else ArrayAppend, items[1..])
  }

  lemma {:induction false} BehindItemsInArray(lib: Library, state: ReaderState, items: seq<Item>)
    requires state.InArray()
    ensures BehindItems(lib, state, items).InArray()
    decreases items
  {
    if items != [] {
      BehindItemsInArray(lib, if IsBlank(lib, items[0].value) then state else ArrayAppend, items[1..]);
    }
  }

  lemma {:induction false} RunItems(lib: Library, e: Emitter, items: seq<Item>, calls: seq<Call>)
    requires e.state.InArray() && e.stack != []
    requires AllItemsSpaced(lib, items) && Callbacks(calls) == FeedItems(items)
    ensures Run(lib, e, calls) ==
      e.Write(WrittenItems(lib, items, e.state.Array?)).(state := BehindItems(lib, e.state, items))
    decreases items
  {
    if items == [] {
      assert |Callbacks(calls)| == 0;
      assert e.message + [] == e.message;
    } else {
      hide Run, Apply, Feed, Written, Spaced, FeedBlank, IsBlank;
      var item := items[0];
      assert item.value < item;
      var feed, blank, rest := Feed(item.value), FeedBlank(item.blank), FeedItems(items[1..]);
      var comma := if e.state.ArrayAppend? && !IsBlank(lib, item.value) then [Comma] else [];
      var next := Emits(lib, e, item.value);
      RunSplit(lib, e, calls, feed + blank, rest);
      var front, back := calls[..|feed + blank|], calls[|feed + blank|..];
      RunSplit(lib, e, front, feed, blank);
      RunFeed(lib, e, item.value, front[..|feed|]);
      RunBlank(lib, next, item.blank, front[|feed|..]);
      RunItems(lib, next, items[1..], back);
      Associative(e.message, comma + Written(lib, item.value), WrittenItems(lib, items[1..], next.state.Array?));
    }
  }

  /** The state behind the fields of an object. */
  function BehindFields(state: ReaderState, fields: seq<Field>, inner: bool): ReaderState {
    if fields == [] then state else StateAfterField(inner, fields[|fields| - 1])
  }

  lemma RunField(lib: Library, e: Emitter, f: Field, calls: seq<Call>)
    requires e.state.Object? || e.state.Key? || e.state.Value?
    requires Spaced(lib, f.value) && SpaceIn(lib, f.blank) && Callbacks(calls) == FeedField(f)
    ensures Run(lib, e, calls) ==
      e.Write(Separator(e.state) + [Name(f.key)] + Written(lib, f.value)).(state := StateAfterField(e.stack != [], f))
    decreases f, 0
  {
    hide Run, Apply, Feed, Written, Spaced, Separator, StateAfter, FeedBlank;
    var key, feed, blank := [ReadKey(f.key)], Feed(f.value), FeedBlank(f.blank);
    RunSplit(lib, e, calls, key + feed, blank);
    var front := calls[..|key + feed|];
    RunSplit(lib, e, front, key, feed);
    RunCallback(lib, e, front[..1], ReadKey(f.key));
    assert front[..1][0] == Call(ReadKey(f.key), front[0].name);
    KeyIs(lib, e, f.key, front[0].name);
    var named := e.Write(Separator(e.state) + [Name(f.key)]).(state := Value);
    RunFeed(lib, named, f.value, front[1..]);
    AfterIsNoArray(e.stack != [], f.value);
    RunBlank(lib, Emits(lib, named, f.value), f.blank, calls[|key + feed|..]);
    assert e.message + (Separator(e.state) + [Name(f.key)]) + ([] + Written(lib, f.value))
        == e.message + (Separator(e.state) + [Name(f.key)] + Written(lib, f.value));
  }

  lemma AfterIsNoArray(inner: bool, v: Json)
    ensures !StateAfter(inner, v).InArray()
  {
  }

  lemma {:induction false} RunFields(lib: Library, e: Emitter, fields: seq<Field>, calls: seq<Call>)
    requires e.state.Object? || e.state.Key? || e.state.Value?
    requires AllSpaced(lib, fields) && Callbacks(calls) == FeedFields(fields)
    ensures Run(lib, e, calls) ==
      e.Write(WrittenFields(lib, fields, e.state, e.stack != [])).(state := BehindFields(e.state, fields,
        e.stack != []))
    decreases fields
  {
    if fields == [] {
      assert |Callbacks(calls)| == 0;
      assert e.message + [] == e.message;
    } else {
      hide Run, Apply, FeedField, Written, Spaced, Separator;
      var inner, feed := e.stack != [], FeedField(fields[0]);
      var first := Separator(e.state) + [Name(fields[0].key)] + Written(lib, fields[0].value);
      var next := e.Write(first).(state := StateAfterField(inner, fields[0]));
      RunSplit(lib, e, calls, feed, FeedFields(fields[1..]));
      RunField(lib, e, fields[0], calls[..|feed|]);
      assert AllSpaced(lib, fields[1..]);
      RunFields(lib, next, fields[1..], calls[|feed|..]);
      Associative(e.message, first, WrittenFields(lib, fields[1..], next.state, inner));
    }
  }

  // ------------------------------------------------------- when it is the text

  function Nulls(v: Json): nat {
    match v
    case Bare(_) => 0
    case Quoted(_) => 0
    case Arr(_, items) => NullsInItems(items)
    case Obj(fields) => NullsInFields(fields, Object, true)
  }

  function NullsInItems(items: seq<Item>): nat {
    if items == [] then 0
    else
      assert items[0].value < items[0];
      Nulls(items[0].value) + NullsInItems(items[1..])
  }

  function NullsInFields(fields: seq<Field>, state: ReaderState, inner: bool): nat {
    if fields == [] then 0
    else (if state.BeyondKey() then 1 else 0) + Nulls(fields[0].value)
         + NullsInFields(fields[1..], StateAfterField(inner, fields[0]), inner)
  }

  /** One null too much per field that follows a container, and less than that if there is a blank
      scalar. */
  lemma {:induction false} WrittenLength(lib: Library, v: Json)
    ensures Filled(lib, v) ==> |Written(lib, v)| == |Text(lib, v)| + Nulls(v)
    ensures !Filled(lib, v) ==> |Written(lib, v)| < |Text(lib, v)| + Nulls(v)
    decreases v
  {
    match v
    case Arr(_, items) => WrittenItemsLength(lib, items, true, true);
    case Obj(fields) => WrittenFieldsLength(lib, fields, Object, true);
    case _ =>
  }

  /** The three functions on items, one step at a time. */
  lemma ItemsUnfold(lib: Library, items: seq<Item>, written: bool, first: bool)
    requires items != []
    ensures var v := items[0].value;
      && WrittenItems(lib, items, written)
           == (if written || IsBlank(lib, v) then [] else [Comma]) + Written(lib, v)
              + WrittenItems(lib, items[1..], written && IsBlank(lib, v))
      && TextItems(lib, items, first)
           == (if first then [] else [Comma]) + Text(lib, v) + TextItems(lib, items[1..], false)
      && NullsInItems(items) == Nulls(v) + NullsInItems(items[1..])
      && (AllItemsFilled(lib, items) <==> Filled(lib, v) && AllItemsFilled(lib, items[1..]))
      && (IsBlank(lib, v) ==> !Filled(lib, v))
  {
    assert forall i :: 1 <= i < |items| ==> items[i] == items[1..][i - 1];
  }

  lemma {:induction false} WrittenItemsLength(lib: Library, items: seq<Item>, written: bool, first: bool)
    requires first ==> written
    ensures |WrittenItems(lib, items, written)| <= |TextItems(lib, items, first)| + NullsInItems(items)
    ensures !AllItemsFilled(lib, items) ==>
      |WrittenItems(lib, items, written)| < |TextItems(lib, items, first)| + NullsInItems(items)
    ensures AllItemsFilled(lib, items) && written == first ==>
      |WrittenItems(lib, items, written)| == |TextItems(lib, items, first)| + NullsInItems(items)
    decreases items
  {
    if items != [] {
      var v := items[0].value;
      assert v < items[0];
      WrittenLength(lib, v);
      WrittenItemsLength(lib, items[1..], written && IsBlank(lib, v), false);
      ItemsUnfold(lib, items, written, first);
      hide WrittenItems, TextItems, NullsInItems, Written, Text, Nulls, IsBlank, Filled, AllItemsFilled;
    }
  }

  /** The three functions on fields, one step at a time. */
  lemma FieldsUnfold(lib: Library, fields: seq<Field>, state: ReaderState, inner: bool)
    requires fields != []
    ensures var f, next := fields[0], StateAfterField(inner, fields[0]);
      && !next.Object?
      && WrittenFields(lib, fields, state, inner)
           == Separator(state) + [Name(f.key)] + Written(lib, f.value)
              + WrittenFields(lib, fields[1..], next, inner)
      && TextFields(lib, fields, state.Object?)
           == (if state.Object? then [] else [Comma]) + [Name(f.key)] + Text(lib, f.value)
              + TextFields(lib, fields[1..], false)
      && NullsInFields(fields, state, inner)
           == (if state.BeyondKey() then 1 else 0) + Nulls(f.value) + NullsInFields(fields[1..], next, inner)
      && (AllFilled(lib, fields) <==> Filled(lib, f.value) && AllFilled(lib, fields[1..]))
  {
    assert forall i :: 1 <= i < |fields| ==> fields[i] == fields[1..][i - 1];
  }

  lemma FieldLengths(lib: Library, fields: seq<Field>, state: ReaderState, inner: bool)
    requires fields != []
    ensures var f, next := fields[0], StateAfterField(inner, fields[0]);
      var separator := |Separator(state)| - if state.BeyondKey() then 1 else 0;
      && |WrittenFields(lib, fields, state, inner)|
           == |Separator(state)| + 1 + |Written(lib, f.value)| + |WrittenFields(lib, fields[1..], next, inner)|
      && |TextFields(lib, fields, state.Object?)|
           == separator + 1 + |Text(lib, f.value)| + |TextFields(lib, fields[1..], next.Object?)|
      && NullsInFields(fields, state, inner)
           == |Separator(state)| - separator + Nulls(f.value) + NullsInFields(fields[1..], next, inner)
      && (AllFilled(lib, fields) <==> Filled(lib, f.value) && AllFilled(lib, fields[1..]))
  {
    hide WrittenFields, TextFields, NullsInFields, Written, Text, Nulls, Filled, AllFilled;
    FieldsUnfold(lib, fields, state, inner);
  }

  lemma {:induction false} WrittenFieldsLength(lib: Library, fields: seq<Field>, state: ReaderState, inner: bool)
    ensures AllFilled(lib, fields) ==>
      |WrittenFields(lib, fields, state, inner)|
        == |TextFields(lib, fields, state.Object?)| + NullsInFields(fields, state, inner)
    ensures !AllFilled(lib, fields) ==>
      |WrittenFields(lib, fields, state, inner)| < |TextFields(lib, fields, state.Object?)|
        + NullsInFields(fields, state, inner)
    decreases fields
  {
    if fields != [] {
      var v, next := fields[0].value, StateAfterField(inner, fields[0]);
      WrittenLength(lib, v);
      WrittenFieldsLength(lib, fields[1..], next, inner);
      FieldLengths(lib, fields, state, inner);
      hide WrittenFields, TextFields, NullsInFields, Written, Text, Nulls, StateAfterField, Filled, AllFilled;
    }
  }

  lemma SameParts<T>(head: seq<T>, a: seq<T>, b: seq<T>, a': seq<T>, b': seq<T>)
    requires |a| == |a'|
    ensures head + a + b == head + a' + b' <==> a == a' && b == b'
  {
    var n, m := |head|, |head| + |a|;
    if head + a + b == head + a' + b' {
      assert a == (head + a + b)[n..m] == (head + a' + b')[n..m] == a';
      assert b == (head + a + b)[m..] == (head + a' + b')[m..] == b';
    }
  }

  /** With neither, it is the text exactly if no string was changed. */
  lemma {:induction false} WrittenIsTextIffKept(lib: Library, v: Json)
    requires Filled(lib, v) && Nulls(v) == 0
    ensures Written(lib, v) == Text(lib, v) <==> Kept(lib, v)
    decreases v
  {
    hide WrittenItems, TextItems, WrittenFields, TextFields;
    match v
    case Arr(_, items) =>
      ItemsAreTextIffKept(lib, items, true);
      WrittenItemsLength(lib, items, true, true);
      SameParts([OpenArray], WrittenItems(lib, items, true), [CloseArray], TextItems(lib, items, true), [CloseArray]);
    case Obj(fields) =>
      FieldsAreTextIffKept(lib, fields, Object, true);
      WrittenFieldsLength(lib, fields, Object, true);
      SameParts([OpenObject], WrittenFields(lib, fields, Object, true), [CloseObject],
        TextFields(lib, fields, true), [CloseObject]);
    case _ =>
      if Written(lib, v) == Text(lib, v) { assert Written(lib, v)[0] == Text(lib, v)[0]; }
  }

  lemma {:induction false} ItemsAreTextIffKept(lib: Library, items: seq<Item>, first: bool)
    requires AllItemsFilled(lib, items) && NullsInItems(items) == 0
    ensures WrittenItems(lib, items, first) == TextItems(lib, items, first) <==> AllItemsKept(lib, items)
    decreases items
  {
    if items != [] {
      var v := items[0].value;
      assert v < items[0];
      hide WrittenItems, TextItems, NullsInItems, Written, Text, Nulls, IsBlank, Filled, AllItemsFilled, AllItemsKept;
      ItemsUnfold(lib, items, first, first);
      WrittenIsTextIffKept(lib, v);
      ItemsAreTextIffKept(lib, items[1..], false);
      WrittenLength(lib, v);
      SameParts(if first then [] else [Comma], Written(lib, v), WrittenItems(lib, items[1..], false),
        Text(lib, v), TextItems(lib, items[1..], false));
      AllItemsKeptUnfold(lib, items);
    }
  }

  lemma AllItemsKeptUnfold(lib: Library, items: seq<Item>)
    requires items != []
    ensures AllItemsKept(lib, items) <==> Kept(lib, items[0].value) && AllItemsKept(lib, items[1..])
  {
    assert forall i :: 1 <= i < |items| ==> items[i] == items[1..][i - 1];
  }

  lemma FieldsSplit(lib: Library, fields: seq<Field>, state: ReaderState, inner: bool)
    requires fields != [] && !state.BeyondKey()
    requires |Written(lib, fields[0].value)| == |Text(lib, fields[0].value)|
    ensures var v, next := fields[0].value, StateAfterField(inner, fields[0]);
      WrittenFields(lib, fields, state, inner) == TextFields(lib, fields, state.Object?) <==>
        && Written(lib, v) == Text(lib, v)
        && WrittenFields(lib, fields[1..], next, inner) == TextFields(lib, fields[1..], next.Object?)
  {
    hide WrittenFields, TextFields, NullsInFields, Written, Text, Nulls, Filled, AllFilled;
    FieldsUnfold(lib, fields, state, inner);
    var v, next := fields[0].value, StateAfterField(inner, fields[0]);
    SameParts(Separator(state) + [Name(fields[0].key)], Written(lib, v), WrittenFields(lib, fields[1..], next, inner),
      Text(lib, v), TextFields(lib, fields[1..], false));
  }

  lemma {:induction false} FieldsAreTextIffKept(lib: Library, fields: seq<Field>, state: ReaderState, inner: bool)
    requires AllFilled(lib, fields) && NullsInFields(fields, state, inner) == 0
    ensures WrittenFields(lib, fields, state, inner) == TextFields(lib, fields, state.Object?) <==> AllKept(lib, fields)
    decreases fields
  {
    if fields != [] {
      hide WrittenFields, TextFields, NullsInFields, Written, Text, Nulls, Filled, AllFilled, AllKept;
      var v, next := fields[0].value, StateAfterField(inner, fields[0]);
      FieldLengths(lib, fields, state, inner);
      WrittenIsTextIffKept(lib, v);
      FieldsAreTextIffKept(lib, fields[1..], next, inner);
      WrittenLength(lib, v);
      FieldsSplit(lib, fields, state, inner);
      AllKeptUnfold(lib, fields);
    }
  }

  lemma AllKeptUnfold(lib: Library, fields: seq<Field>)
    requires fields != []
    ensures AllKept(lib, fields) <==> Kept(lib, fields[0].value) && AllKept(lib, fields[1..])
  {
    assert forall i :: 1 <= i < |fields| ==> fields[i] == fields[1..][i - 1];
  }

  lemma {:induction false} NoNullsIffTidy(v: Json)
    ensures Nulls(v) == 0 <==> Tidy(v)
    decreases v
  {
    match v
    case Arr(_, items) => NoNullsInItems(items);
    case Obj(fields) => NoNullsInFields(fields, Object, true);
    case _ =>
  }

  lemma {:induction false} NoNullsInItems(items: seq<Item>)
    ensures NullsInItems(items) == 0 <==> forall i :: 0 <= i < |items| ==> Tidy(items[i].value)
    decreases items
  {
    if items != [] {
      assert items[0].value < items[0];
      NoNullsIffTidy(items[0].value);
      NoNullsInItems(items[1..]);
      assert forall i :: 1 <= i < |items| ==> items[i] == items[1..][i - 1];
    }
  }

  lemma {:induction false} NoNullsInFields(fields: seq<Field>, state: ReaderState, inner: bool)
    ensures NullsInFields(fields, state, inner) == 0 <==>
      && (state.BeyondKey() ==> fields == [])
      && (forall i :: 0 <= i < |fields| ==> Tidy(fields[i].value))
      && (inner ==> forall i :: 0 <= i < |fields| - 1 ==> IsScalar(fields[i].value) || fields[i].blank.Some?)
    decreases fields
  {
    if fields != [] {
      NoNullsIffTidy(fields[0].value);
      NoNullsInFields(fields[1..], StateAfterField(inner, fields[0]), inner);
      assert forall i :: 1 <= i < |fields| ==> fields[i] == fields[1..][i - 1];
    }
  }

  // A null that is counted is visible: no text has one.

  lemma {:induction false} TextHasNoNull(lib: Library, v: Json)
    ensures Null !in Text(lib, v)
    decreases v
  {
    match v
    case Arr(_, items) => ItemsHaveNoNull(lib, items, true);
    case Obj(fields) => FieldsHaveNoNull(lib, fields, true);
    case _ =>
  }

  lemma {:induction false} ItemsHaveNoNull(lib: Library, items: seq<Item>, first: bool)
    ensures Null !in TextItems(lib, items, first)
    decreases items
  {
    if items != [] {
      assert items[0].value < items[0];
      TextHasNoNull(lib, items[0].value);
      ItemsHaveNoNull(lib, items[1..], false);
    }
  }

  lemma {:induction false} FieldsHaveNoNull(lib: Library, fields: seq<Field>, first: bool)
    ensures Null !in TextFields(lib, fields, first)
    decreases fields
  {
    if fields != [] {
      TextHasNoNull(lib, fields[0].value);
      FieldsHaveNoNull(lib, fields[1..], false);
    }
  }

  lemma {:induction false} NullIsWritten(lib: Library, v: Json)
    ensures Nulls(v) > 0 ==> Null in Written(lib, v)
    decreases v
  {
    match v
    case Arr(_, items) => NullIsWrittenInItems(lib, items, true);
    case Obj(fields) => NullIsWrittenInFields(lib, fields, Object, true);
    case _ =>
  }

  lemma {:induction false} NullIsWrittenInItems(lib: Library, items: seq<Item>, first: bool)
    ensures NullsInItems(items) > 0 ==> Null in WrittenItems(lib, items, first)
    decreases items
  {
    if items != [] {
      assert items[0].value < items[0];
      NullIsWritten(lib, items[0].value);
      NullIsWrittenInItems(lib, items[1..], first && IsBlank(lib, items[0].value));
    }
  }

  lemma {:induction false} NullIsWrittenInFields(lib: Library, fields: seq<Field>, state: ReaderState, inner: bool)
    ensures NullsInFields(fields, state, inner) > 0 ==> Null in WrittenFields(lib, fields, state, inner)
    decreases fields
  {
    if fields != [] {
      NullIsWritten(lib, fields[0].value);
      NullIsWrittenInFields(lib, fields[1..], StateAfterField(inner, fields[0]), inner);
      if state.BeyondKey() { assert Separator(state)[0] == Null; }
    }
  }

  // ----------------------------------------------------------- the whole message

  /** The callbacks read a document: those of its fields, simple or composed, from any parser
      states, and possibly an end for the outermost object. */
  predicate Reads(calls: seq<Call>, fields: seq<Field>) {
    Callbacks(Simple(calls)) == FeedFields(fields) || Callbacks(Simple(calls)) == FeedFields(fields) + [ReadEnd]
  }

  /** What Format writes for any document, and that it leaves the stack empty. */
  lemma FormattedDocument(lib: Library, fields: seq<Field>, calls: seq<Call>, remains: Option<bytes>, name: bytes)
    requires AllSpaced(lib, fields) && Reads(calls, fields) && SpaceIn(lib, remains)
    ensures var out := Formatted(lib, [], calls, remains, name);
      out.message == [OpenObject] + WrittenFields(lib, fields, Object, false) + [CloseObject] && out.stack == []
  {
    hide Run, FeedFields, WrittenFields, Spaced, Simple;
    ComposedAreSimple(lib, Begin([]), calls);
    var simple, feed := Simple(calls), FeedFields(fields);
    var end := if Callbacks(simple) == feed then [] else [ReadEnd];
    RunSplit(lib, Begin([]), simple, feed, end);
    RunFields(lib, Begin([]), fields, simple[..|feed|]);
    var read := Run(lib, Begin([]), simple[..|feed|]);
    if end != [] {
      RunCallback(lib, read, simple[|feed|..], ReadEnd);
    } else {
      RunNone(lib, read, simple[|feed|..]);
    }
    NothingToClose(WithRemains(lib, Run(lib, Begin([]), calls), remains, name));
  }

  lemma NothingToClose(e: Emitter)
    requires e.stack == [] && !e.state.InArray()
    ensures Closed(e).message == e.message && Closed(e).stack == []
  {
    if e.state.Object? { assert CloseAll(e) == CloseAll(End(e)) == End(e); }
  }

  lemma RunNone(lib: Library, e: Emitter, calls: seq<Call>)
    requires Callbacks(calls) == []
    ensures Run(lib, e, calls) == e
  {
    assert |Callbacks(calls)| == 0;
  }

  /** The formatter keeps the document: no scalar is blank, no string has blank space around it, and
      inside of the objects nested in it, every array or object that another field follows is
      followed by a blank value. */
  predicate Preserved(lib: Library, fields: seq<Field>) {
    AllFilled(lib, fields) && AllKept(lib, fields) && forall i :: 0 <= i < |fields| ==> Tidy(fields[i].value)
  }

  /** Format writes exactly the JSON text of a document if and only if it is one of these. */
  lemma PrintsIffPreserved(lib: Library, fields: seq<Field>, calls: seq<Call>, remains: Option<bytes>, name: bytes)
    requires AllSpaced(lib, fields) && Reads(calls, fields) && SpaceIn(lib, remains)
    ensures Formatted(lib, [], calls, remains, name).message == Text(lib, Obj(fields)) <==> Preserved(lib, fields)
  {
    hide Formatted, Preserved, Spaced, Reads, WrittenFields, TextFields, NullsInFields;
    FormattedDocument(lib, fields, calls, remains, name);
    FieldsPrintIff(lib, fields);
    var written, text := WrittenFields(lib, fields, Object, false), TextFields(lib, fields, true);
    assert ([OpenObject] + written + [CloseObject])[1..|written| + 1] == written;
    assert ([OpenObject] + text + [CloseObject])[1..|text| + 1] == text;
  }

  lemma FieldsPrintIff(lib: Library, fields: seq<Field>)
    ensures WrittenFields(lib, fields, Object, false) == TextFields(lib, fields, true) <==> Preserved(lib, fields)
  {
    hide WrittenFields, TextFields, NullsInFields, AllFilled, AllKept, Tidy;
    WrittenFieldsLength(lib, fields, Object, false);
    NoNullsInFields(fields, Object, false);
    FieldsHaveNoNull(lib, fields, true);
    NullIsWrittenInFields(lib, fields, Object, false);
    if AllFilled(lib, fields) && NullsInFields(fields, Object, false) == 0 {
      FieldsAreTextIffKept(lib, fields, Object, false);
    }
  }
}
