/**
 The scalars and the names among the tokens that the callbacks of format/json.go write, in order:
 what each callback adds to them, and what a document's text has of them.
 */
module JsonMarks {
  import opened Utilities
  import opened JsonEmitter

  /** The names of the output, or its scalars. */
  function Marks(tokens: seq<Token>, names: bool): seq<Token> {
    if tokens == [] then []
    else (if IsMark(tokens[0], names) then [tokens[0]] else []) + Marks(tokens[1..], names)
  }

  predicate IsMark(token: Token, names: bool) { if names then token.Name? else token.Scalar? }

  lemma {:induction false} MarksSum(a: seq<Token>, b: seq<Token>, names: bool)
    ensures Marks(a + b, names) == Marks(a, names) + Marks(b, names)
    decreases |a|
  {
    if a == [] {
      assert a + b == b;
    } else {
      assert (a + b)[1..] == a[1..] + b;
      MarksSum(a[1..], b, names);
    }
  }

  lemma MarksOfOne(token: Token, names: bool)
    ensures Marks([token], names) == if IsMark(token, names) then [token] else []
  {
    assert [token][1..] == [];
  }

  lemma MarksOfFront(a: seq<Token>, b: seq<Token>, names: bool)
    requires a <= b
    ensures Marks(a, names) <= Marks(b, names)
  {
    assert b == a + b[|a|..];
    MarksSum(a, b[|a|..], names);
  }

  /** What one callback is for: the name, the scalar of the document's text, or the scalar that is
      written. */
  datatype Aspect = Keys | Meant | Made

  function Adds(lib: Library, aspect: Aspect, callback: Callback): seq<Token> {
    match callback
    case ReadKey(data) => if aspect.Keys? then [Name(data)] else []
    case ReadValue(data) => if aspect.Keys? || lib.trim(data) == [] then [] else [Scalar(lib.trim(data))]
    case ReadEscaped(data) =>
      (match aspect
       case Keys => []
       case Meant => [Scalar(lib.encode(lib.decode(data)))]
       case Made => if lib.trim(data) == [] then [] else [Scalar(lib.encode(lib.trim(data)))])
    case _ => []
  }

  function Each(lib: Library, aspect: Aspect, callbacks: seq<Callback>): seq<Token> {
    if callbacks == [] then [] else Adds(lib, aspect, callbacks[0]) + Each(lib, aspect, callbacks[1..])
  }

  lemma {:induction false} EachSum(lib: Library, aspect: Aspect, a: seq<Callback>, b: seq<Callback>)
    ensures Each(lib, aspect, a + b) == Each(lib, aspect, a) + Each(lib, aspect, b)
    decreases |a|
  {
    if a == [] {
      assert a + b == b;
    } else {
      hide Adds;
      assert (a + b)[1..] == a[1..] + b;
      EachSum(lib, aspect, a[1..], b);
      Associative(Adds(lib, aspect, a[0]), Each(lib, aspect, a[1..]), Each(lib, aspect, b));
    }
  }

  lemma EachOfOne(lib: Library, aspect: Aspect, callback: Callback)
    ensures Each(lib, aspect, [callback]) == Adds(lib, aspect, callback)
  {
    assert [callback][1..] == [];
  }

  // -------------------------------------------------------------------- in a document

  /** No literal is blank; the additional callbacks are. */
  predicate Solid(lib: Library, v: Json) {
    match v
    case Bare(data) => lib.trim(data) != []
    case Quoted(_) => true
    case Arr(lead, items) =>
      SpaceIn(lib, lead) && forall i :: 0 <= i < |items| ==>
        assert items[i].value < items[i];
        Solid(lib, items[i].value) && SpaceIn(lib, items[i].blank)
    case Obj(fields) => forall i :: 0 <= i < |fields| ==> Solid(lib, fields[i].value) && SpaceIn(lib, fields[i].blank)
  }

  lemma BlankHasNone(lib: Library, aspect: Aspect, blank: Option<bytes>)
    requires SpaceIn(lib, blank)
    ensures Each(lib, aspect, FeedBlank(blank)) == []
  {
    if blank.Some? { EachOfOne(lib, aspect, ReadValue(blank.value)); }
  }

  /** The text has the names of the keys and the scalars that are meant. */
  lemma {:induction false} TextMarks(lib: Library, v: Json, names: bool)
    requires Solid(lib, v)
    ensures Marks(Text(lib, v), names) == Each(lib, if names then Keys else Meant, Feed(v))
    decreases v
  {
    hide Marks, Each, TextItems, TextFields, FeedItems, FeedFields, FeedBlank;
    var aspect := if names then Keys else Meant;
    match v
    case Bare(data) =>
      MarksOfOne(Scalar(lib.trim(data)), names);
      EachOfOne(lib, aspect, ReadValue(data));
    case Quoted(data) =>
      MarksOfOne(Scalar(lib.encode(lib.decode(data))), names);
      EachOfOne(lib, aspect, ReadEscaped(data));
    case Arr(lead, items) =>
      ItemsMarks(lib, items, true, names);
      BlankHasNone(lib, aspect, lead);
      Bracketed(OpenArray, TextItems(lib, items, true), CloseArray, names);
      FeedBracketed(lib, aspect, ReadArray, FeedBlank(lead) + FeedItems(items));
      EachSum(lib, aspect, FeedBlank(lead), FeedItems(items));
    case Obj(fields) =>
      FieldsMarks(lib, fields, true, names);
      Bracketed(OpenObject, TextFields(lib, fields, true), CloseObject, names);
      FeedBracketed(lib, aspect, ReadObject, FeedFields(fields));
  }

  lemma Bracketed(open: Token, tokens: seq<Token>, close: Token, names: bool)
    requires !IsMark(open, names) && !IsMark(close, names)
    ensures Marks([open] + tokens + [close], names) == Marks(tokens, names)
  {
    MarksSum([open] + tokens, [close], names);
    MarksSum([open], tokens, names);
    MarksOfOne(open, names);
    MarksOfOne(close, names);
  }

  lemma FeedBracketed(lib: Library, aspect: Aspect, open: Callback, callbacks: seq<Callback>)
    requires open.ReadArray? || open.ReadObject?
    ensures Each(lib, aspect, [open] + callbacks + [ReadEnd]) == Each(lib, aspect, callbacks)
  {
    EachSum(lib, aspect, [open] + callbacks, [ReadEnd]);
    EachSum(lib, aspect, [open], callbacks);
    EachOfOne(lib, aspect, open);
    EachOfOne(lib, aspect, ReadEnd);
  }

  lemma MarksOfThree(a: seq<Token>, b: seq<Token>, c: seq<Token>, names: bool)
    ensures Marks(a + b + c, names) == Marks(a, names) + Marks(b, names) + Marks(c, names)
  {
    MarksSum(a + b, c, names);
    MarksSum(a, b, names);
  }

  lemma EachOfThree(lib: Library, aspect: Aspect, a: seq<Callback>, b: seq<Callback>, c: seq<Callback>)
    ensures Each(lib, aspect, a + b + c) == Each(lib, aspect, a) + Each(lib, aspect, b) + Each(lib, aspect, c)
  {
    EachSum(lib, aspect, a + b, c);
    EachSum(lib, aspect, a, b);
  }

  lemma Nothing<T>(a: seq<T>, b: seq<T>)
    ensures [] + a + b == a + b && a + [] + b == a + b && a + [] == a
  {
  }

  lemma NoMarkInComma(first: bool, names: bool)
    ensures Marks(if first then [] else [Comma], names) == []
  {
    MarksOfOne(Comma, names);
  }

  lemma {:induction false} ItemsMarks(lib: Library, items: seq<Item>, first: bool, names: bool)
    requires Solid(lib, Arr(None, items))
    ensures Marks(TextItems(lib, items, first), names) == Each(lib, if names then Keys else Meant, FeedItems(items))
    decreases items
  {
    if items != [] {
      hide Marks, Each, Text, Feed, FeedBlank, Solid;
      var aspect, item, rest := if names then Keys else Meant, items[0], items[1..];
      assert item.value < item;
      SolidFirst(lib, items);
      TextMarks(lib, item.value, names);
      ItemsMarks(lib, rest, false, names);
      BlankHasNone(lib, aspect, item.blank);
      NoMarkInComma(first, names);
      MarksOfThree(if first then [] else [Comma], Text(lib, item.value), TextItems(lib, rest, false), names);
      EachOfThree(lib, aspect, Feed(item.value), FeedBlank(item.blank), FeedItems(rest));
      Nothing(Each(lib, aspect, Feed(item.value)), Each(lib, aspect, FeedItems(rest)));
    }
  }

  lemma SolidFirst(lib: Library, items: seq<Item>)
    requires items != [] && Solid(lib, Arr(None, items))
    ensures Solid(lib, items[0].value) && SpaceIn(lib, items[0].blank) && Solid(lib, Arr(None, items[1..]))
  {
    assert items[0].value < items[0];
    forall i | 0 <= i < |items[1..]| ensures Solid(lib, items[1..][i].value) && SpaceIn(lib, items[1..][i].blank) {
      assert items[1..][i] == items[i + 1];
    }
  }

  lemma {:induction false} FieldsMarks(lib: Library, fields: seq<Field>, first: bool, names: bool)
    requires Solid(lib, Obj(fields))
    ensures Marks(TextFields(lib, fields, first), names) == Each(lib, if names then Keys else Meant, FeedFields(fields))
    decreases fields
  {
    if fields != [] {
      hide Marks, Each, Text, Feed, FeedBlank, Solid;
      var aspect, f, rest := if names then Keys else Meant, fields[0], fields[1..];
      var comma := if first then [] else [Comma];
      SolidFirstField(lib, fields);
      TextMarks(lib, f.value, names);
      FieldsMarks(lib, rest, false, names);
      BlankHasNone(lib, aspect, f.blank);
      NoMarkInComma(first, names);
      MarksSum(comma + [Name(f.key)] + Text(lib, f.value), TextFields(lib, rest, false), names);
      MarksOfThree(comma, [Name(f.key)], Text(lib, f.value), names);
      MarksOfOne(Name(f.key), names);
      EachSum(lib, aspect, FeedField(f), FeedFields(rest));
      EachOfThree(lib, aspect, [ReadKey(f.key)], Feed(f.value), FeedBlank(f.blank));
      EachOfOne(lib, aspect, ReadKey(f.key));
      var key := Adds(lib, aspect, ReadKey(f.key));
      Nothing(key, Each(lib, aspect, Feed(f.value)));
      Nothing(key + Each(lib, aspect, Feed(f.value)), []);
    }
  }

  lemma SolidFirstField(lib: Library, fields: seq<Field>)
    requires fields != [] && Solid(lib, Obj(fields))
    ensures Solid(lib, fields[0].value) && SpaceIn(lib, fields[0].blank) && Solid(lib, Obj(fields[1..]))
  {
  }

  /** What is written has the names of the keys. */
  lemma {:induction false} WrittenNames(lib: Library, v: Json)
    requires Solid(lib, v)
    ensures Marks(Written(lib, v), true) == Each(lib, Keys, Feed(v))
    decreases v
  {
    hide Marks, Each, WrittenItems, WrittenFields, FeedItems, FeedFields, FeedBlank;
    match v
    case Bare(data) =>
      MarksOfOne(Scalar(lib.trim(data)), true);
      EachOfOne(lib, Keys, ReadValue(data));
    case Quoted(data) =>
      NoName(if lib.trim(data) == [] then [] else [Scalar(lib.encode(lib.trim(data)))]);
      EachOfOne(lib, Keys, ReadEscaped(data));
    case Arr(lead, items) =>
      WrittenItemsNames(lib, items, true);
      BlankHasNone(lib, Keys, lead);
      Bracketed(OpenArray, WrittenItems(lib, items, true), CloseArray, true);
      FeedBracketed(lib, Keys, ReadArray, FeedBlank(lead) + FeedItems(items));
      EachSum(lib, Keys, FeedBlank(lead), FeedItems(items));
    case Obj(fields) =>
      WrittenFieldsNames(lib, fields, Object, true);
      Bracketed(OpenObject, WrittenFields(lib, fields, Object, true), CloseObject, true);
      FeedBracketed(lib, Keys, ReadObject, FeedFields(fields));
  }

  lemma {:induction false} NoName(tokens: seq<Token>)
    requires forall i :: 0 <= i < |tokens| ==> !tokens[i].Name?
    ensures Marks(tokens, true) == []
  {
    if tokens != [] { NoName(tokens[1..]); }
  }

  lemma {:induction false} WrittenItemsNames(lib: Library, items: seq<Item>, first: bool)
    requires Solid(lib, Arr(None, items))
    ensures Marks(WrittenItems(lib, items, first), true) == Each(lib, Keys, FeedItems(items))
    decreases items
  {
    if items != [] {
      hide Marks, Each, Written, Feed, FeedBlank, Solid, WrittenItems;
      var item, rest := items[0], items[1..];
      assert item.value < item;
      SolidFirst(lib, items);
      WrittenNames(lib, item.value);
      BlankHasNone(lib, Keys, item.blank);
      EachOfThree(lib, Keys, Feed(item.value), FeedBlank(item.blank), FeedItems(rest));
      var comma, more := WrittenItemsAre(lib, items, first);
      WrittenItemsNames(lib, rest, more);
      NoName(comma);
      MarksOfThree(comma, Written(lib, item.value), WrittenItems(lib, rest, more), true);
      Nothing(Each(lib, Keys, Feed(item.value)), Each(lib, Keys, FeedItems(rest)));
    }
  }

  lemma WrittenItemsAre(lib: Library, items: seq<Item>, first: bool) returns (comma: seq<Token>, more: bool)
    requires items != []
    ensures comma == [] || comma == [Comma]
    ensures WrittenItems(lib, items, first)
      == comma + Written(lib, items[0].value) + WrittenItems(lib, items[1..], more)
  {
    var blank := IsBlank(lib, items[0].value);
    comma := if first || blank then [] else [Comma];
    more := first && blank;
  }

  lemma {:induction false} WrittenFieldsNames(lib: Library, fields: seq<Field>, state: ReaderState, inner: bool)
    requires Solid(lib, Obj(fields))
    ensures Marks(WrittenFields(lib, fields, state, inner), true) == Each(lib, Keys, FeedFields(fields))
    decreases fields
  {
    if fields != [] {
      hide Marks, Each, Written, Feed, FeedBlank, Solid, Separator;
      var f, rest := fields[0], fields[1..];
      var next := StateAfterField(inner, f);
      SolidFirstField(lib, fields);
      WrittenNames(lib, f.value);
      WrittenFieldsNames(lib, rest, next, inner);
      BlankHasNone(lib, Keys, f.blank);
      SeparatorHasNone(state);
      MarksSum(Separator(state) + [Name(f.key)] + Written(lib, f.value), WrittenFields(lib, rest, next, inner), true);
      MarksOfThree(Separator(state), [Name(f.key)], Written(lib, f.value), true);
      MarksOfOne(Name(f.key), true);
      EachSum(lib, Keys, FeedField(f), FeedFields(rest));
      EachOfThree(lib, Keys, [ReadKey(f.key)], Feed(f.value), FeedBlank(f.blank));
      EachOfOne(lib, Keys, ReadKey(f.key));
      Nothing([Name(f.key)], Each(lib, Keys, Feed(f.value)));
      Nothing([Name(f.key)] + Each(lib, Keys, Feed(f.value)), []);
    }
  }

  lemma SeparatorHasNone(state: ReaderState)
    ensures Marks(Separator(state), true) == []
  {
    NoName(Separator(state));
  }

  // ----------------------------------------------------------------------- in a run

  /** Nothing but brackets, commas and nulls. */
  predicate Unmarked(tokens: seq<Token>) { Marks(tokens, false) == [] && Marks(tokens, true) == [] }

  lemma {:induction false} NoMarks(tokens: seq<Token>)
    requires forall i :: 0 <= i < |tokens| ==> !tokens[i].Name? && !tokens[i].Scalar?
    ensures Unmarked(tokens)
  {
    if tokens != [] { NoMarks(tokens[1..]); }
  }

  lemma EndAdds(e: Emitter) returns (more: seq<Token>)
    ensures End(e).message == e.message + more && Unmarked(more)
  {
    more := if e.stack == [] then [] else [if e.state.InArray() then CloseArray else CloseObject];
    NoMarks(more);
    assert e.message + [] == e.message;
  }

  lemma {:induction false} ArraysAdd(e: Emitter) returns (more: seq<Token>)
    ensures CloseArrays(e).message == e.message + more && Unmarked(more)
    decreases |e.stack| + if e.state.InArray() then 1 else 0
  {
    if e.state.InArray() {
      var one := EndAdds(e);
      hide End, Marks;
      EndIsSmaller(e);
      var rest := ArraysAdd(End(e));
      more := one + rest;
      MarksSum(one, rest, false);
      MarksSum(one, rest, true);
      Associative(e.message, one, rest);
    } else {
      more := [];
      assert e.message + [] == e.message;
      assert Unmarked([]);
    }
  }

  lemma EndIsSmaller(e: Emitter)
    requires e.state.InArray()
    ensures |End(e).stack| + (if End(e).state.InArray() then 1 else 0) < |e.stack| + 1
  {
  }

  lemma KeyAdds(e: Emitter, key: bytes) returns (more: seq<Token>)
    ensures WriteKey(e, key).message == e.message + (more + [Name(key)]) && Unmarked(more)
  {
    var arrays := ArraysAdd(e);
    hide CloseArrays, Marks;
    var c := CloseArrays(e);
    var rest := (if c.state.BeyondKey() then [Null] else []) + (if c.state != Object then [Comma] else []);
    NoMarks(rest);
    more := arrays + rest;
    MarksSum(arrays, rest, false);
    MarksSum(arrays, rest, true);
    Associative(e.message, arrays, rest + [Name(key)]);
    Associative(arrays, rest, [Name(key)]);
  }

  /** What a scalar adds; in some states a name in front of it. */
  lemma ScalarAdds(e: Emitter, name: bytes, blank: bool, text: bytes) returns (more: seq<Token>)
    ensures WriteScalar(e, name, blank, text).message == e.message + more
    ensures Marks(more, false) == if blank then [] else [Scalar(text)]
  {
    hide WriteKey;
    if blank {
      more := [];
      assert e.message + [] == e.message;
    } else {
      MarksOfOne(Scalar(text), false);
      if e.state.Array? || e.state.Value? {
        more := [Scalar(text)];
      } else if e.state.ArrayAppend? {
        more := [Comma, Scalar(text)];
        MarksSum([Comma], [Scalar(text)], false);
        MarksOfOne(Comma, false);
        assert [Comma] + [Scalar(text)] == more;
      } else {
        var front := KeyAdds(e, name);
        more := front + [Name(name)] + [Scalar(text)];
        MarksOfThree(front, [Name(name)], [Scalar(text)], false);
        MarksOfOne(Name(name), false);
        Associative(e.message, front + [Name(name)], [Scalar(text)]);
      }
    }
  }

  lemma OpenAdds(e: Emitter, name: bytes, bracket: Token, inside: ReaderState) returns (more: seq<Token>)
    requires bracket == OpenArray || bracket == OpenObject
    ensures Open(e, name, bracket, inside).message == e.message + more && Marks(more, false) == []
  {
    hide WriteKey;
    MarksOfOne(bracket, false);
    if e.state.Array? || e.state.Value? || e.state.Object? {
      more := [bracket];
    } else if e.state.ArrayAppend? {
      more := [Comma, bracket];
      NoMarks(more);
    } else {
      var front := KeyAdds(e, name);
      more := front + [Name(name)] + [bracket];
      MarksOfThree(front, [Name(name)], [bracket], false);
      MarksOfOne(Name(name), false);
      Associative(e.message, front + [Name(name)], [bracket]);
    }
  }

  predicate IsSimple(c: Callback) {
    c.ReadKey? || c.ReadValue? || c.ReadEscaped? || c.ReadArray? || c.ReadObject? || c.ReadEnd?
  }

  /** One callback adds its scalar; a key adds its name last. */
  lemma CallAdds(lib: Library, e: Emitter, call: Call) returns (more: seq<Token>)
    requires IsSimple(call.callback)
    ensures Apply(lib, e, call).message == e.message + more
    ensures Marks(more, false) == Adds(lib, Made, call.callback)
    ensures call.callback.ReadKey? ==> Marks(more, true) == [Name(call.callback.data)]
  {
    hide WriteKey, WriteScalar, Open, End, Marks;
    match call.callback
    case ReadKey(data) =>
      var front := KeyAdds(e, data);
      more := front + [Name(data)];
      MarksSum(front, [Name(data)], false);
      MarksSum(front, [Name(data)], true);
      MarksOfOne(Name(data), false);
      MarksOfOne(Name(data), true);
    case ReadValue(data) => more := ScalarAdds(e, call.name, lib.trim(data) == [], lib.trim(data));
    case ReadEscaped(data) => more := ScalarAdds(e, call.name, lib.trim(data) == [], lib.encode(lib.trim(data)));
    case ReadArray => more := OpenAdds(e, call.name, OpenArray, Array);
    case ReadObject => more := OpenAdds(e, call.name, OpenObject, Object);
    case ReadEnd => more := EndAdds(e);
  }

  predicate AllSimple(calls: seq<Call>) { forall i :: 0 <= i < |calls| ==> IsSimple(calls[i].callback) }

  /** The scalars of a run are those of its callbacks; every key adds a name. */
  lemma {:induction false} RunAdds(lib: Library, e: Emitter, calls: seq<Call>) returns (more: seq<Token>)
    requires AllSimple(calls)
    ensures Run(lib, e, calls).message == e.message + more
    ensures Marks(more, false) == Each(lib, Made, Callbacks(calls))
    ensures |Marks(more, true)| >= |Each(lib, Keys, Callbacks(calls))|
    decreases |calls|
  {
    if calls == [] {
      more := [];
      assert Callbacks(calls) == [] && e.message + [] == e.message;
    } else {
      hide Apply, Marks, Adds;
      var one := CallAdds(lib, e, calls[0]);
      var rest := RunAdds(lib, Apply(lib, e, calls[0]), calls[1..]);
      more := one + rest;
      MarksSum(one, rest, false);
      MarksSum(one, rest, true);
      assert Callbacks(calls)[1..] == Callbacks(calls[1..]) && Callbacks(calls)[0] == calls[0].callback;
      Associative(e.message, one, rest);
      KeyOfOne(lib, calls[0].callback);
    }
  }

  lemma KeyOfOne(lib: Library, c: Callback)
    ensures Adds(lib, Keys, c) == if c.ReadKey? then [Name(c.data)] else []
  {
  }

  // ------------------------------------------------------------------ what cannot be a text

  /** The calls for some callbacks, from a state without name. */
  function CallsFor(callbacks: seq<Callback>): (calls: seq<Call>)
    ensures Callbacks(calls) == callbacks
  {
    var calls := seq(|callbacks|, i requires 0 <= i < |callbacks| => Call(callbacks[i], []));
    assert forall i :: 0 <= i < |callbacks| ==> Callbacks(calls)[i] == callbacks[i];
    calls
  }

  lemma {:induction false} FeedIsSimple(v: Json)
    ensures forall i :: 0 <= i < |Feed(v)| ==> IsSimple(Feed(v)[i])
    decreases v
  {
    match v
    case Arr(_, items) => FeedItemsAreSimple(items);
    case Obj(fields) => FeedFieldsAreSimple(fields);
    case _ =>
  }

  lemma {:induction false} FeedItemsAreSimple(items: seq<Item>)
    ensures forall i :: 0 <= i < |FeedItems(items)| ==> IsSimple(FeedItems(items)[i])
    decreases items
  {
    if items != [] {
      assert items[0].value < items[0];
      FeedIsSimple(items[0].value);
      FeedItemsAreSimple(items[1..]);
    }
  }

  lemma {:induction false} FeedFieldsAreSimple(fields: seq<Field>)
    ensures forall i :: 0 <= i < |FeedFields(fields)| ==> IsSimple(FeedFields(fields)[i])
    decreases fields
  {
    if fields != [] {
      FeedIsSimple(fields[0].value);
      FeedFieldsAreSimple(fields[1..]);
      var f := fields[0];
      assert forall i :: 0 <= i < |FeedField(f)| ==> IsSimple(FeedField(f)[i]);
    }
  }

  /** In a document's run no scalar brings a name with it: up to any callback, the names are the keys. */
  lemma NamesAreKeys(lib: Library, fields: seq<Field>, calls: seq<Call>)
    requires AllSpaced(lib, fields) && Solid(lib, Obj(fields)) && Callbacks(calls) <= FeedFields(fields)
    ensures Marks(Run(lib, Begin([]), calls).message, true) == Each(lib, Keys, Callbacks(calls))
  {
    hide Run, Marks, Each, WrittenFields, FeedFields, Solid, Spaced;
    var feed, front := FeedFields(fields), Callbacks(calls);
    var all := calls + CallsFor(feed[|front|..]);
    assert Callbacks(all) == front + feed[|front|..] == feed;
    FeedFieldsAreSimple(fields);
    assert AllSimple(all) by { SimpleCalls(all, feed); }
    assert AllSimple(calls) && AllSimple(all[|calls|..]);
    RunFields(lib, Begin([]), fields, all);
    RunAppend(lib, Begin([]), calls, CallsFor(feed[|front|..]));
    var a := RunAdds(lib, Begin([]), calls);
    var b := RunAdds(lib, Run(lib, Begin([]), calls), CallsFor(feed[|front|..]));
    WrittenFieldsNames(lib, fields, Object, false);
    MarksSum([OpenObject], WrittenFields(lib, fields, Object, false), true);
    MarksSum([OpenObject], a, true);
    MarksSum([OpenObject] + a, b, true);
    MarksOfOne(OpenObject, true);
    Nothing(Marks(a, true), Marks(b, true));
    Nothing(Each(lib, Keys, feed), []);
    EachSum(lib, Keys, front, feed[|front|..]);
    assert feed == front + feed[|front|..];
    SameFront(Marks(a, true), Marks(b, true), Each(lib, Keys, front), Each(lib, Keys, feed[|front|..]));
  }

  lemma SimpleCalls(calls: seq<Call>, feed: seq<Callback>)
    requires Callbacks(calls) == feed && forall i :: 0 <= i < |feed| ==> IsSimple(feed[i])
    ensures AllSimple(calls)
  {
    assert forall i :: 0 <= i < |calls| ==> calls[i].callback == feed[i];
  }

  lemma SameFront<T>(a: seq<T>, b: seq<T>, c: seq<T>, d: seq<T>)
    requires a + b == c + d && |a| >= |c| && |b| >= |d|
    ensures a == c && b == d
  {
    assert a == (a + b)[..|a|] && c == (c + d)[..|c|];
    assert b == (a + b)[|a|..] && d == (c + d)[|c|..];
  }
}
