/**
 Values without names in format/json.go: the key that is generated from the name of the parser
 state, dates, and the bytes that the parser leaves over.
 */
module JsonKeys {
  import opened Utilities
  import opened JsonEmitter

  // --------------------------------------------------------------------- dates

  /** A date is a string of its conversion. */
  function Undated(lib: Library, callback: Callback): Callback {
    match callback
    case ReadDate(data) => ReadEscaped(lib.date(lib.trim(data)))
    case ReadDateEnd(data) => ReadEscapedEnd(lib.date(lib.trim(data)))
    case _ => callback
  }

  function AllUndated(lib: Library, calls: seq<Call>): seq<Call> {
    if calls == [] then [] else [Call(Undated(lib, calls[0].callback), calls[0].name)] + AllUndated(lib, calls[1..])
  }

  lemma DateIsString(lib: Library, e: Emitter, call: Call)
    ensures Apply(lib, e, Call(Undated(lib, call.callback), call.name)) == Apply(lib, e, call)
  {
    hide Open, End, WriteScalar, WriteKey;
  }

  lemma {:induction false} DatesAreStrings(lib: Library, e: Emitter, calls: seq<Call>)
    ensures Run(lib, e, AllUndated(lib, calls)) == Run(lib, e, calls)
    decreases |calls|
  {
    if calls != [] {
      DateIsString(lib, e, calls[0]);
      hide Apply, Undated;
      DatesAreStrings(lib, Apply(lib, e, calls[0]), calls[1..]);
    }
  }

  // ------------------------------------------------------------- generated keys

  /** No value is expected, and it is not an array. */
  predicate Keyless(s: ReaderState) { !s.InArray() && !s.Value? }

  /** A scalar callback that has something to write. */
  predicate Says(lib: Library, callback: Callback) {
    match Undated(lib, callback)
    case ReadValue(data) => lib.trim(data) != []
    case ReadEscaped(data) => lib.trim(data) != []
    case ReadValueEnd(data) => lib.trim(data) != []
    case ReadEscapedEnd(data) => lib.trim(data) != []
    case _ => false
  }

  function KeyCall(name: bytes): Call { Call(ReadKey(name), name) }

  lemma ScalarKey(e: Emitter, name: bytes, text: bytes)
    requires Keyless(e.state)
    ensures WriteScalar(e, name, false, text) == WriteScalar(WriteKey(e, name).(state := Value), name, false, text)
  {
  }

  lemma EndAfterKey(e: Emitter, name: bytes, text: bytes)
    requires Keyless(e.state)
    ensures var named := WriteKey(e, name).(state := Value);
      EndAfter(e, WriteScalar(e, name, false, text)) == EndAfter(named, WriteScalar(named, name, false, text))
  {
    hide End, WriteKey;
    ScalarKey(e, name, text);
    ScalarKeepsPlace(e, name, false, text);
    ScalarKeepsPlace(WriteKey(e, name).(state := Value), name, false, text);
  }

  /** A value without a key gets the name of the parser state as its key. */
  lemma GeneratedKey(lib: Library, e: Emitter, call: Call)
    requires Keyless(e.state) && Says(lib, call.callback)
    ensures Apply(lib, e, call) == Apply(lib, Apply(lib, e, KeyCall(call.name)), call)
  {
    hide WriteScalar, WriteKey, EndAfter;
    var name := call.name;
    match call.callback
    case ReadValue(data) => ScalarKey(e, name, lib.trim(data));
    case ReadEscaped(data) => ScalarKey(e, name, lib.encode(lib.trim(data)));
    case ReadDate(data) => ScalarKey(e, name, lib.encode(lib.trim(lib.date(lib.trim(data)))));
    case ReadValueEnd(data) => EndAfterKey(e, name, lib.trim(data));
    case ReadEscapedEnd(data) => EndAfterKey(e, name, lib.encode(lib.trim(data)));
    case ReadDateEnd(data) => EndAfterKey(e, name, lib.encode(lib.trim(lib.date(lib.trim(data)))));
  }

  /** So does an array or object, except right behind the brace of an object; and the state without a
      key is the one that comes back behind it. */
  lemma GeneratedContainerKey(lib: Library, e: Emitter, call: Call)
    requires Keyless(e.state) && !e.state.Object? && (call.callback.ReadArray? || call.callback.ReadObject?)
    ensures Apply(lib, e, call)
         == Apply(lib, Apply(lib, e, KeyCall(call.name)), call).(stack := e.stack + [e.state])
  {
  }

  /** Where a value is expected, and inside of an array, no key is generated. */
  lemma NameIsNotUsed(lib: Library, e: Emitter, call: Call, other: bytes)
    requires !Keyless(e.state) || (e.state.Object? && (call.callback.ReadArray? || call.callback.ReadObject?))
    requires !call.callback.ReadKey?
    ensures Apply(lib, e, call) == Apply(lib, e, call.(name := other))
  {
    hide WriteKey, End;
  }

  /** Right behind a brace an array gets no key, so this is not JSON. */
  lemma ArrayWithoutKey(lib: Library, name: bytes)
    ensures Formatted(lib, [], [Call(ReadArray, name), Call(ReadEnd, name)], None, name).message
         == [OpenObject, OpenArray, CloseArray, CloseObject]
  {
    var open, end := Call(ReadArray, name), Call(ReadEnd, name);
    assert [open, end] == [open] + [end];
    RunAppend(lib, Begin([]), [open], [end]);
    RunOne(lib, Begin([]), open);
    RunOne(lib, OpenArr(Begin([]), name), end);
    assert OpenArr(Begin([]), name) == Emitter([OpenObject, OpenArray], Array, [Object]);
    assert End(OpenArr(Begin([]), name)) == Emitter([OpenObject, OpenArray, CloseArray], Key, []);
    hide Run, Apply, End, Open;
  }

  /** The calls with the keys that they generate. */
  function Keyed(lib: Library, e: Emitter, calls: seq<Call>): seq<Call>
    decreases |calls|
  {
    if calls == [] then []
    else
      (if Keyless(e.state) && Says(lib, calls[0].callback) then [KeyCall(calls[0].name)] else []) + [calls[0]]
      + Keyed(lib, Apply(lib, e, calls[0]), calls[1..])
  }

  /** In any run, values without a key are what they would be behind a key of that name. */
  lemma {:induction false} KeysAreGenerated(lib: Library, e: Emitter, calls: seq<Call>)
    ensures Run(lib, e, Keyed(lib, e, calls)) == Run(lib, e, calls)
    decreases |calls|
  {
    if calls != [] {
      hide Apply;
      var call, rest := calls[0], Keyed(lib, Apply(lib, e, calls[0]), calls[1..]);
      KeysAreGenerated(lib, Apply(lib, e, call), calls[1..]);
      if Keyless(e.state) && Says(lib, call.callback) {
        var key := KeyCall(call.name);
        GeneratedKey(lib, e, call);
        assert [key] + [call] + rest == [key] + ([call] + rest);
        RunAppend(lib, e, [key], [call] + rest);
        RunOne(lib, e, key);
        RunAppend(lib, Apply(lib, e, key), [call], rest);
        RunOne(lib, Apply(lib, e, key), call);
      } else {
        assert [] + [call] + rest == [call] + rest;
        RunAppend(lib, e, [call], rest);
        RunOne(lib, e, call);
      }
    }
  }

  // ------------------------------------------------------- objects without key callbacks

  /** The calls for values, one after the other, and the first call of each comes from a parser state
      with the name of the field. */
  predicate Names(calls: seq<Call>, fields: seq<Field>)
    decreases |fields|
  {
    if fields == [] then calls == []
    else
      var n := |Feed(fields[0].value)|;
      && 0 < n <= |calls| && Callbacks(calls[..n]) == Feed(fields[0].value) && calls[0].name == fields[0].key
      && Names(calls[n..], fields[1..])
  }

  /** A container in a place without a key. */
  lemma NamedContainer(lib: Library, e: Emitter, name: bytes, bracket: Token, inside: ReaderState, text: seq<Token>,
                       last: ReaderState)
    requires e.state.Key?
    requires
      || (bracket == OpenArray && inside == Array && last.InArray())
      || (bracket == OpenObject && inside == Object && !last.InArray())
    ensures End(Open(e, name, bracket, inside).Write(text).(state := last)) ==
      e.Write([Comma, Name(name)] + ([bracket] + text + [if bracket == OpenArray then CloseArray else CloseObject]))
  {
    var close := [if bracket == OpenArray then CloseArray else CloseObject];
    var begun := Open(e, name, bracket, inside);
    assert begun.message == e.message + [Comma, Name(name)] + [bracket];
    var inner := begun.Write(text).(state := last);
    assert inner.stack[..|inner.stack| - 1] == e.stack;
    Associative(e.message, [Comma, Name(name)] + [bracket], text + close);
    Associative(e.message + ([Comma, Name(name)] + [bracket]), text, close);
    assert begun.message == e.message + ([Comma, Name(name)] + [bracket]);
    assert [Comma, Name(name)] + [bracket] + (text + close) == [Comma, Name(name)] + ([bracket] + text + close);
  }

  lemma NamedScalar(lib: Library, e: Emitter, v: Json, call: Call)
    requires (e.state.Key? || e.state.Object?) && IsScalar(v) && !IsBlank(lib, v) && [call.callback] == Feed(v)
    ensures Apply(lib, e, call) == e.Write(Separator(e.state) + [Name(call.name)] + Written(lib, v)).(state := Key)
  {
    assert [call.callback][0] == Feed(v)[0];
    var head := Separator(e.state) + [Name(call.name)];
    assert WriteKey(e, call.name).message == e.message + head;
    assert e.message + head + Written(lib, v) == e.message + (head + Written(lib, v));
  }

  lemma {:induction false} NamedArray(lib: Library, e: Emitter, lead: Option<bytes>, items: seq<Item>, calls: seq<Call>)
    requires e.state.Key? && SpaceIn(lib, lead) && AllItemsSpaced(lib, items)
    requires |calls| > 0 && Callbacks(calls) == [ReadArray] + (FeedBlank(lead) + FeedItems(items)) + [ReadEnd]
    ensures Run(lib, e, calls)
         == e.Write([Comma, Name(calls[0].name)] + ([OpenArray] + WrittenItems(lib, items, true) + [CloseArray]))
  {
    hide Run, FeedItems, WrittenItems, Open, End, Apply, AllItemsSpaced, FeedBlank;
    var name, inner := calls[0].name, FeedBlank(lead) + FeedItems(items);
    RunContainer(lib, e, calls, ReadArray, inner);
    var inside := OpenArr(e, name);
    ApplyOpens(lib, e, calls[0]);
    OpenInside(e, name, OpenArray, Array);
    var lines := calls[1..|inner| + 1];
    RunSplit(lib, inside, lines, FeedBlank(lead), FeedItems(items));
    RunBlank(lib, inside, lead, lines[..|FeedBlank(lead)|]);
    RunItems(lib, inside, items, lines[|FeedBlank(lead)|..]);
    BehindItemsInArray(lib, Array, items);
    NamedContainer(lib, e, name, OpenArray, Array, WrittenItems(lib, items, true), BehindItems(lib, Array, items));
  }

  lemma {:induction false} NamedObject(lib: Library, e: Emitter, fields: seq<Field>, calls: seq<Call>)
    requires e.state.Key? && AllSpaced(lib, fields)
    requires |calls| > 0 && Callbacks(calls) == [ReadObject] + FeedFields(fields) + [ReadEnd]
    ensures Run(lib, e, calls) == e.Write([Comma, Name(calls[0].name)]
      + ([OpenObject] + WrittenFields(lib, fields, Object, true) + [CloseObject]))
  {
    hide Run, FeedFields, WrittenFields, Open, End, Apply, AllSpaced;
    var name := calls[0].name;
    RunContainer(lib, e, calls, ReadObject, FeedFields(fields));
    ApplyOpens(lib, e, calls[0]);
    OpenInside(e, name, OpenObject, Object);
    RunFields(lib, OpenObj(e, name), fields, calls[1..|FeedFields(fields)| + 1]);
    NamedContainer(lib, e, name, OpenObject, Object, WrittenFields(lib, fields, Object, true),
                   BehindFields(Object, fields, true));
  }

  lemma RunNamedScalar(lib: Library, e: Emitter, v: Json, calls: seq<Call>)
    requires (e.state.Key? || e.state.Object?) && IsScalar(v) && !IsBlank(lib, v)
    requires |calls| > 0 && Callbacks(calls) == Feed(v)
    ensures Run(lib, e, calls)
         == e.Write(Separator(e.state) + [Name(calls[0].name)] + Written(lib, v)).(state := Key)
  {
    hide Run, Apply;
    var callback := if v.Bare? then ReadValue(v.data) else ReadEscaped(v.data);
    RunCallback(lib, e, calls, callback);
    NamedScalar(lib, e, v, calls[0]);
  }

  /** A value in a place without a key is a field of the name of the parser state. */
  lemma {:induction false} RunNamed(lib: Library, e: Emitter, v: Json, calls: seq<Call>)
    requires e.state.Key? || (e.state.Object? && IsScalar(v))
    requires Spaced(lib, v) && !IsBlank(lib, v) && |calls| > 0 && Callbacks(calls) == Feed(v)
    ensures Run(lib, e, calls)
         == e.Write(Separator(e.state) + [Name(calls[0].name)] + Written(lib, v)).(state := Key)
  {
    hide Run, FeedItems, FeedFields, WrittenItems, WrittenFields, FeedBlank, Apply;
    match v
    case Arr(lead, items) => NamedArray(lib, e, lead, items, calls);
    case Obj(fields) => NamedObject(lib, e, fields, calls);
    case _ => RunNamedScalar(lib, e, v, calls);
  }

  lemma ApplyOpens(lib: Library, e: Emitter, call: Call)
    ensures call.callback.ReadArray? ==> Apply(lib, e, call) == OpenArr(e, call.name)
    ensures call.callback.ReadObject? ==> Apply(lib, e, call) == OpenObj(e, call.name)
  {
    hide WriteScalar, Open, End, WriteKey;
  }

  /** The fields that are written: a blank value without a key writes nothing. */
  function Shown(lib: Library, fields: seq<Field>): seq<Field> {
    if fields == [] then []
    else (if IsBlank(lib, fields[0].value) then [] else [fields[0]]) + Shown(lib, fields[1..])
  }

  /** A blank value ends the wait for a first field, too. */
  function First(lib: Library, state: ReaderState, fields: seq<Field>): ReaderState {
    if fields != [] && IsBlank(lib, fields[0].value) then Key else state
  }

  lemma BlankIsRead(lib: Library, e: Emitter, v: Json, calls: seq<Call>)
    requires !e.state.InArray() && IsBlank(lib, v) && Callbacks(calls) == Feed(v)
    ensures Run(lib, e, calls) == e.(state := Key)
  {
    var callback := if v.Bare? then ReadValue(v.data) else ReadEscaped(v.data);
    RunCallback(lib, e, calls, callback);
  }

  lemma {:induction false} RunNames(lib: Library, e: Emitter, fields: seq<Field>, calls: seq<Call>)
    requires e.state.Key? || (e.state.Object? && (fields != [] ==> IsScalar(fields[0].value)))
    requires AllSpaced(lib, fields) && Names(calls, fields)
    ensures Run(lib, e, calls) ==
      e.Write(WrittenFields(lib, Shown(lib, fields), First(lib, e.state, fields), false))
       .(state := if fields == [] then e.state else Key)
    decreases |fields|
  {
    if fields == [] {
      assert e.message + [] == e.message;
    } else {
      var n, f := |Feed(fields[0].value)|, fields[0];
      assert Callbacks(calls[..n]) == Feed(f.value) && calls[0].name == f.key;
      hide Run, Feed, Written, Spaced, Separator, IsBlank, Callbacks;
      assert calls == calls[..n] + calls[n..];
      RunAppend(lib, e, calls[..n], calls[n..]);
      assert AllSpaced(lib, fields[1..]);
      if IsBlank(lib, f.value) {
        BlankIsRead(lib, e, f.value, calls[..n]);
        RunNames(lib, e.(state := Key), fields[1..], calls[n..]);
        assert Shown(lib, fields) == Shown(lib, fields[1..]);
      } else {
        var first := Separator(e.state) + [Name(f.key)] + Written(lib, f.value);
        RunNamed(lib, e, f.value, calls[..n]);
        RunNames(lib, e.Write(first).(state := Key), fields[1..], calls[n..]);
        ShownUnfold(lib, fields, e.state);
        Associative(e.message, first, WrittenFields(lib, Shown(lib, fields[1..]), Key, false));
      }
    }
  }

  lemma ShownUnfold(lib: Library, fields: seq<Field>, state: ReaderState)
    requires fields != [] && !IsBlank(lib, fields[0].value)
    ensures WrittenFields(lib, Shown(lib, fields), state, false)
         == Separator(state) + [Name(fields[0].key)] + Written(lib, fields[0].value)
            + WrittenFields(lib, Shown(lib, fields[1..]), Key, false)
  {
    var shown := Shown(lib, fields);
    assert shown[0] == fields[0] && shown[1..] == Shown(lib, fields[1..]);
    assert StateAfterField(false, fields[0]) == Key;
  }

  /** The bytes that the parser leaves over, as one more string. */
  function Leftover(remains: Option<bytes>, name: bytes): seq<Field> {
    if remains.Some? then [Field(name, Quoted(remains.value), None)] else []
  }

  /** They are read like a string callback. */
  lemma RemainsAreRead(lib: Library, e: Emitter, remains: Option<bytes>, name: bytes) returns (calls: seq<Call>)
    ensures WithRemains(lib, e, remains, name) == Run(lib, e, calls) && Names(calls, Leftover(remains, name))
  {
    calls := [];
    if remains.Some? {
      calls := [Call(ReadEscaped(remains.value), name)];
      RunOne(lib, e, calls[0]);
      assert Feed(Quoted(remains.value)) == [ReadEscaped(remains.value)] == Callbacks(calls[..1]);
      assert Leftover(remains, name)[1..] == [] && calls[1..] == [];
    }
  }

  lemma {:induction false} NamesAppend(a: seq<Call>, fields: seq<Field>, b: seq<Call>, more: seq<Field>)
    requires Names(a, fields) && Names(b, more)
    ensures Names(a + b, fields + more)
    decreases |fields|
  {
    hide Feed;
    if fields == [] {
      assert a + b == b && fields + more == more;
    } else {
      var n := |Feed(fields[0].value)|;
      assert (a + b)[..n] == a[..n] && (a + b)[n..] == a[n..] + b;
      assert (fields + more)[0] == fields[0] && (fields + more)[1..] == fields[1..] + more;
      NamesAppend(a[n..], fields[1..], b, more);
    }
  }

  lemma LeadingComma(lib: Library, fields: seq<Field>)
    ensures WrittenFields(lib, fields, Key, false) == TextFields(lib, fields, true) ==> fields == []
  {
    if fields != [] {
      assert WrittenFields(lib, fields, Key, false)[0] == Comma;
      assert TextFields(lib, fields, true)[0] == Name(fields[0].key);
    }
  }

  lemma NamesAreWritten(lib: Library, fields: seq<Field>, calls: seq<Call>, remains: Option<bytes>, name: bytes)
    requires AllSpaced(lib, fields) && (fields != [] ==> IsScalar(fields[0].value))
    requires Names(AllUndated(lib, Simple(calls)), fields)
    ensures var out, all := Formatted(lib, [], calls, remains, name), fields + Leftover(remains, name);
      && out.message
           == [OpenObject] + WrittenFields(lib, Shown(lib, all), First(lib, Object, all), false) + [CloseObject]
      && out.stack == []
  {
    hide Run, Names, WrittenFields, Spaced, Simple, AllUndated, Shown, First, WithRemains, Closed;
    var plain, all := AllUndated(lib, Simple(calls)), fields + Leftover(remains, name);
    ComposedAreSimple(lib, Begin([]), calls);
    DatesAreStrings(lib, Begin([]), Simple(calls));
    var rest := RemainsAreRead(lib, Run(lib, Begin([]), calls), remains, name);
    NamesAppend(plain, fields, rest, Leftover(remains, name));
    RunAppend(lib, Begin([]), plain, rest);
    LeftoverIsSpaced(lib, remains, name);
    RunNames(lib, Begin([]), all, plain + rest);
    NothingToClose(WithRemains(lib, Run(lib, Begin([]), calls), remains, name));
  }

  lemma BracesAround(a: seq<Token>, b: seq<Token>)
    ensures [OpenObject] + a + [CloseObject] == [OpenObject] + b + [CloseObject] <==> a == b
  {
    assert ([OpenObject] + a + [CloseObject])[1..|a| + 1] == a;
    assert ([OpenObject] + b + [CloseObject])[1..|b| + 1] == b;
  }

  /** Calls that never write a key, with dates and composed callbacks, and a remainder: Format writes
      the object whose names are those of the parser states, without the blank values and with the
      remainder as its last field.  That is its JSON text exactly if the values are preserved and no
      blank value comes before all others. */
  lemma NamesBecomeKeys(lib: Library, fields: seq<Field>, calls: seq<Call>, remains: Option<bytes>, name: bytes)
    requires AllSpaced(lib, fields) && (fields != [] ==> IsScalar(fields[0].value))
    requires Names(AllUndated(lib, Simple(calls)), fields)
    ensures var out := Formatted(lib, [], calls, remains, name);
      var all := fields + Leftover(remains, name);
      var shown, first := Shown(lib, all), First(lib, Object, all);
      && out.message == [OpenObject] + WrittenFields(lib, shown, first, false) + [CloseObject] && out.stack == []
      && (out.message == Text(lib, Obj(shown)) <==> Preserved(lib, shown) && (first.Key? ==> shown == []))
  {
    hide Formatted, Names, WrittenFields, Spaced, Simple, AllUndated, TextFields, Preserved, Shown;
    NamesAreWritten(lib, fields, calls, remains, name);
    var all := fields + Leftover(remains, name);
    var shown, first := Shown(lib, all), First(lib, Object, all);
    FieldsPrintIff(lib, shown);
    LeadingComma(lib, shown);
    BracesAround(WrittenFields(lib, shown, first, false), TextFields(lib, shown, true));
    if first.Key? && shown == [] { NothingShown(lib); }
  }

  lemma NothingShown(lib: Library)
    ensures WrittenFields(lib, [], Key, false) == [] == TextFields(lib, [], true) && Preserved(lib, [])
  {
  }

  lemma LeftoverIsSpaced(lib: Library, remains: Option<bytes>, name: bytes)
    ensures AllSpaced(lib, Leftover(remains, name))
    ensures forall i :: 0 <= i < |Leftover(remains, name)| ==> IsScalar(Leftover(remains, name)[i].value)
  {
    if remains.Some? {
      var field := Field(name, Quoted(remains.value), None);
      assert Leftover(remains, name) == [field] && Spaced(lib, field.value);
    }
  }

  /** Without any calls the object is empty, whatever earlier messages have left on the stack. */
  lemma NothingIsEmpty(lib: Library, stack: seq<ReaderState>, name: bytes)
    ensures Formatted(lib, stack, [], None, name).message == [OpenObject, CloseObject]
  {
  }
}
