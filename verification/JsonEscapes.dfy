/** The JSON formatter on every JSON text: which documents come out as they went in. */
module JsonEscapes {
  import opened Utilities
  import opened ByteTables
  import opened JsonEmitter
  import opened T = JsonTable
  import opened JsonMarks
  import opened JsonTexts
  import S = JsonStrings
  import A = Automaton
  import P = TransitionParsers

  // --------------------------------------------------------------------- the library

  /** A JSON string that means `s`. */
  predicate Quotes(text: bytes, s: bytes) {
    |text| >= 2 && text[0] == QUOTE && text[|text| - 1] == QUOTE && S.Decode(text[1..|text| - 1]) == Some(s)
  }

  /** What the formatter gets from Go's library: bytes.TrimSpace, and json.Marshal, which makes a
      JSON string of a text in UTF-8. */
  ghost predicate Usual(lib: Library) {
    && (forall s :: lib.trim(s) == S.TrimSpace(s))
    && (forall s :: S.Utf8(s) ==> Quotes(lib.encode(s), s))
    && (forall s :: S.Decode(s).Some? ==> lib.decode(s) == S.Decode(s).value)
  }

  /** There are such functions. */
  lemma UsualExists() returns (lib: Library)
    ensures Usual(lib)
  {
    lib := Library((s: bytes) => S.TrimSpace(s), (s: bytes) => [QUOTE] + S.Encode(s) + [QUOTE], (s: bytes) => s,
      (s: bytes) => if S.Decode(s).Some? then S.Decode(s).value else s);
    forall s ensures Quotes(lib.encode(s), s) {
      S.DecodeOfEncode(s);
      assert lib.encode(s)[1..|lib.encode(s)| - 1] == S.Encode(s);
    }
  }

  lemma EncodesApart(lib: Library, a: bytes, b: bytes)
    requires Usual(lib) && S.Utf8(a) && S.Utf8(b)
    ensures lib.encode(a) == lib.encode(b) <==> a == b
    ensures lib.encode(a) != [] && lib.encode(a)[0] == QUOTE
  {
  }

  lemma {:induction false} WhiteIsTrimmed(s: bytes)
    requires White(s)
    ensures S.TrimSpace(s) == []
    decreases |s|
  {
    if s != [] {
      assert s[0] in s && S.IsSpace(s[..1]) && S.Leading(s) == 1;
      assert forall b :: b in s[1..] ==> b in s;
      WhiteIsTrimmed(s[1..]);
    }
  }

  lemma TrimsWhiteSpace(lib: Library)
    requires Usual(lib)
    ensures TrimsWhite(lib)
  {
    forall s | White(s) ensures lib.trim(s) == [] { WhiteIsTrimmed(s); }
  }

  /** What the formatter does to one string. */
  lemma StringIsKeptIff(lib: Library, data: bytes)
    requires Usual(lib) && LegalString(data)
    ensures lib.trim(data) != [] && lib.encode(lib.trim(data)) == lib.encode(lib.decode(data))
      <==> data != [] && S.BACKSLASH !in data && S.TrimSpace(data) == data
  {
    S.TrimSpaceIsUtf8(data);
    S.DecodeIsUtf8(data);
    EncodesApart(lib, lib.trim(data), lib.decode(data));
    S.SameMeaningIff(data);
  }

  lemma {:induction false} VerbatimIff(lib: Library, l: Layout)
    requires Usual(lib) && Legal(l) && Unbroken(l)
    ensures Filled(lib, Content(l)) && Kept(lib, Content(l)) <==> Verbatim(l)
    decreases l, 1
  {
    hide Usual, LegalString, S.TrimSpace, AllFilled, AllKept, AllItemsFilled, AllItemsKept, AllVerbatim, AllUnbroken;
    match l
    case Literal(data) => Trims(lib, data);
    case String(_, data) => StringIsKeptIff(lib, data);
    case List(gap, inner, elements) => ElementsVerbatimIff(lib, gap, inner, elements);
    case Record(_, _, members) => MembersVerbatimIff(lib, members);
  }

  predicate Good(lib: Library, v: Json) { Filled(lib, v) && Kept(lib, v) }

  lemma ElementsVerbatimIff(lib: Library, gap: bytes, inner: bytes, elements: seq<Element>)
    requires Usual(lib) && Legal(List(gap, inner, elements)) && Unbroken(List(gap, inner, elements))
    ensures AllItemsFilled(lib, Items(elements)) && AllItemsKept(lib, Items(elements))
      <==> Verbatim(List(gap, inner, elements))
    decreases elements, 0
  {
    hide Usual, Legal, Filled, Kept, Content;
    forall i: nat | i < |elements| ensures Good(lib, Items(elements)[i].value) <==> Verbatim(elements[i].value) {
      ItemAt(elements, i);
      LegalAt(gap, inner, elements, i);
      VerbatimIff(lib, elements[i].value);
    }
    assert forall i :: 0 <= i < |elements| ==>
      var v := Items(elements)[i].value;
      Good(lib, v) == (Filled(lib, v) && Kept(lib, v));
  }

  lemma LegalAt(gap: bytes, inner: bytes, elements: seq<Element>, i: nat)
    requires i < |elements| && Legal(List(gap, inner, elements)) && Unbroken(List(gap, inner, elements))
    ensures elements[i].value < elements[i] && Legal(elements[i].value) && Unbroken(elements[i].value)
  {
    assert LegalElement(elements[i]);
  }

  lemma MembersVerbatimIff(lib: Library, members: seq<Member>)
    requires Usual(lib) && AllLegal(members) && AllUnbroken(members)
    ensures AllFilled(lib, Fields(members)) && AllKept(lib, Fields(members)) <==> AllVerbatim(members)
    decreases members, 0
  {
    hide Usual, Legal, Filled, Kept, Content, Verbatim, Unbroken;
    forall i: nat | i < |members| ensures Good(lib, Fields(members)[i].value) <==> Verbatim(members[i].value) {
      FieldAt(members, i);
      assert LegalMember(members[i]);
      VerbatimIff(lib, members[i].value);
    }
    assert forall i :: 0 <= i < |members| ==>
      var v := Fields(members)[i].value;
      Good(lib, v) == (Filled(lib, v) && Kept(lib, v));
  }

  lemma Trims(lib: Library, s: bytes)
    requires Usual(lib)
    ensures lib.trim(s) == S.TrimSpace(s)
  {
  }

  lemma Decodes(lib: Library, s: bytes)
    requires Usual(lib) && S.Decode(s).Some?
    ensures lib.decode(s) == S.Decode(s).value
  {
  }

  // ------------------------------------------------------------ what the formatter makes of it

  /** The callbacks of a JSON text. */
  predicate Usable(c: Callback) {
    IsSimple(c) && (c.ReadValue? ==> QUOTE !in c.data) && (c.ReadEscaped? ==> LegalString(c.data))
  }

  predicate AllUsable(callbacks: seq<Callback>) { forall i :: 0 <= i < |callbacks| ==> Usable(callbacks[i]) }

  lemma {:induction false} LegalIsSolid(lib: Library, l: Layout)
    requires Usual(lib) && Legal(l)
    ensures Solid(lib, Content(l)) && Spaced(lib, Content(l))
    decreases l
  {
    hide Usual;
    match l
    case Literal(data) => Trims(lib, data);
    case String(_, _) =>
    case List(_, inner, elements) =>
      WhiteTrims(lib, inner);
      forall i | 0 <= i < |elements|
        ensures var item := Items(elements)[i];
          Solid(lib, item.value) && Spaced(lib, item.value) && SpaceIn(lib, item.blank) {
        ItemAt(elements, i);
        assert LegalElement(elements[i]) && elements[i].value < elements[i];
        LegalIsSolid(lib, elements[i].value);
        WhiteTrims(lib, elements[i].behind);
      }
    case Record(_, _, members) =>
      forall i | 0 <= i < |members|
        ensures var f := Fields(members)[i];
          Solid(lib, f.value) && Spaced(lib, f.value) && SpaceIn(lib, f.blank) {
        FieldAt(members, i);
        assert LegalMember(members[i]);
        LegalIsSolid(lib, members[i].value);
        WhiteTrims(lib, members[i].behind);
      }
  }

  lemma WhiteTrims(lib: Library, s: bytes)
    requires Usual(lib) && White(s)
    ensures lib.trim(s) == []
  {
    WhiteIsTrimmed(s);
  }

  lemma UsableSum(a: seq<Callback>, b: seq<Callback>)
    requires AllUsable(a) && AllUsable(b)
    ensures AllUsable(a + b)
  {
  }

  lemma UsableOne(c: Callback)
    requires Usable(c)
    ensures AllUsable([c])
  {
  }

  lemma WhiteIsUsable(blank: Option<bytes>)
    requires blank.Some? ==> White(blank.value)
    ensures AllUsable(FeedBlank(blank))
  {
  }

  lemma {:induction false} FeedIsUsable(l: Layout)
    requires Legal(l)
    ensures AllUsable(Feed(Content(l)))
    decreases l, 1
  {
    hide LegalString, AllUsable, FeedItems, FeedFields, FeedBlank, S.TrimSpace;
    UsableOne(ReadArray);
    UsableOne(ReadObject);
    UsableOne(ReadEnd);
    match l
    case Literal(data) => UsableOne(ReadValue(data));
    case String(_, data) => UsableOne(ReadEscaped(data));
    case List(_, inner, elements) =>
      ElementsAreUsable(elements);
      var lead := if elements == [] then Some(inner) else None;
      WhiteIsUsable(lead);
      UsableSum(FeedBlank(lead), FeedItems(Items(elements)));
      UsableSum([ReadArray], FeedBlank(lead) + FeedItems(Items(elements)));
      UsableSum([ReadArray] + (FeedBlank(lead) + FeedItems(Items(elements))), [ReadEnd]);
    case Record(_, _, members) =>
      MembersAreUsable(members);
      UsableSum([ReadObject], FeedFields(Fields(members)));
      UsableSum([ReadObject] + FeedFields(Fields(members)), [ReadEnd]);
  }

  lemma {:induction false} ElementsAreUsable(elements: seq<Element>)
    requires forall i :: 0 <= i < |elements| ==> LegalElement(elements[i])
    ensures AllUsable(FeedItems(Items(elements)))
    decreases elements, 0
  {
    if elements == [] {
      assert FeedItems(Items(elements)) == [];
    } else {
      hide LegalString, AllUsable, FeedItems, FeedBlank, Legal, Content, Feed;
      var e := elements[0];
      assert LegalElement(e) && e.value < e;
      FeedIsUsable(e.value);
      ElementsAreUsable(elements[1..]);
      FeedItemsAre(elements);
      WhiteIsUsable(ItemOf(e).blank);
      UsableSum(Feed(Content(e.value)), FeedBlank(ItemOf(e).blank));
      UsableSum(FeedItem(ItemOf(e)), FeedItems(Items(elements[1..])));
    }
  }

  lemma {:induction false} MembersAreUsable(members: seq<Member>)
    requires AllLegal(members)
    ensures AllUsable(FeedFields(Fields(members)))
    decreases members, 0
  {
    if members == [] {
      assert FeedFields(Fields(members)) == [];
    } else {
      hide LegalString, AllUsable, FeedFields, FeedBlank, Legal, Content, Feed;
      var m := members[0];
      assert LegalMember(m);
      FeedIsUsable(m.value);
      MembersAreUsable(members[1..]);
      FeedFieldsAre(members);
      WhiteIsUsable(FieldOf(m).blank);
      UsableOne(ReadKey(m.name));
      UsableSum([ReadKey(m.name)], Feed(Content(m.value)));
      UsableSum([ReadKey(m.name)] + Feed(Content(m.value)), FeedBlank(FieldOf(m).blank));
      UsableSum(FeedField(FieldOf(m)), FeedFields(Fields(members[1..])));
    }
  }

  /** Not the scalar of a blank string. */
  ghost predicate Full(lib: Library, token: Token) {
    forall d :: LegalString(d) && lib.trim(d) == [] ==> token != Scalar(lib.encode(lib.decode(d)))
  }

  lemma TrimmedIsFull(lib: Library, data: bytes)
    requires Usual(lib) && S.Utf8(data) && lib.trim(data) != []
    ensures Full(lib, Scalar(lib.encode(lib.trim(data))))
  {
    S.TrimSpaceIsUtf8(data);
    S.TrimmedHasNoEnds(data);
    forall d | LegalString(d) && lib.trim(d) == []
      ensures lib.encode(lib.trim(data)) != lib.encode(lib.decode(d)) {
      S.BlankMeansBlank(d);
      S.DecodeIsUtf8(d);
      EncodesApart(lib, lib.trim(data), lib.decode(d));
    }
  }

  lemma LiteralIsFull(lib: Library, data: bytes)
    requires Usual(lib) && QUOTE !in data
    ensures Full(lib, Scalar(lib.trim(data)))
  {
    forall d | LegalString(d) && lib.trim(d) == [] ensures lib.trim(data) != lib.encode(lib.decode(d)) {
      S.DecodeIsUtf8(d);
      EncodesApart(lib, lib.decode(d), []);
      if QUOTE in lib.trim(data) { S.TrimmedIsPart(data, QUOTE); }
    }
  }

  lemma MadeIsFull(lib: Library, c: Callback)
    requires Usual(lib) && Usable(c) && Adds(lib, Made, c) != []
    ensures |Adds(lib, Made, c)| == 1 && Full(lib, Adds(lib, Made, c)[0]) && |Adds(lib, Meant, c)| == 1
  {
    hide Usual, Full, LegalString;
    assert c.ReadEscaped? ==> S.Utf8(c.data) by { LegalIsUtf8(c); }
    match c
    case ReadValue(data) => LiteralIsFull(lib, data);
    case ReadEscaped(data) => TrimmedIsFull(lib, data);
    case _ =>
  }

  lemma LegalIsUtf8(c: Callback)
    requires Usable(c)
    ensures c.ReadEscaped? ==> S.Utf8(c.data)
  {
  }

  /** Blank strings only bring the scalars out of step. */
  lemma {:induction false} OutOfStep(lib: Library, done: seq<Callback>, bad: Token, good: Token, rest: seq<Token>)
    requires Usual(lib) && AllUsable(done) && Full(lib, bad) && bad != good
    ensures !(Each(lib, Made, done) + [bad] <= Each(lib, Meant, done) + [good] + rest)
    decreases |done|
  {
    hide Usual, Full;
    if done == [] {
      assert ([] + [bad])[0] == bad && ([] + [good] + rest)[0] == good;
    } else {
      var c, later := done[0], done[1..];
      assert Usable(c) && AllUsable(later);
      var made, meant := Adds(lib, Made, c), Adds(lib, Meant, c);
      var a, b := Each(lib, Made, later) + [bad], Each(lib, Meant, later) + [good] + rest;
      Associative(made, Each(lib, Made, later), [bad]);
      Regrouped(meant, Each(lib, Meant, later), [good], rest);
      OutOfStep(lib, later, bad, good, rest);
      if made == [] {
        if meant != [] {
          HeadIsFull(lib, later, bad);
          BlankIsNotFull(lib, c, a[0]);
          assert (meant + b)[0] == meant[0];
        } else {
          assert [] + a == a && [] + b == b;
        }
      } else {
        MadeIsFull(lib, c);
        Heads(made, meant, a, b);
      }
    }
  }

  lemma Heads<T>(x: seq<T>, y: seq<T>, a: seq<T>, b: seq<T>)
    requires |x| == |y|
    ensures x + a <= y + b <==> x == y && a <= b
  {
    assert (x + a)[..|x|] == x && (y + b)[..|y|] == y && (x + a)[|x|..] == a && (y + b)[|y|..] == b;
    if x + a <= y + b { assert (y + b)[..|x + a|] == x + a; }
  }

  lemma Regrouped<T>(a: seq<T>, b: seq<T>, c: seq<T>, d: seq<T>)
    ensures a + b + c + d == a + (b + c + d)
  {
  }

  lemma BlankIsNotFull(lib: Library, c: Callback, token: Token)
    requires Usual(lib) && Usable(c) && Adds(lib, Made, c) == [] && Adds(lib, Meant, c) != [] && Full(lib, token)
    ensures Adds(lib, Meant, c)[0] != token
  {
    hide Usual, LegalString;
  }

  lemma {:induction false} HeadIsFull(lib: Library, done: seq<Callback>, bad: Token)
    requires Usual(lib) && AllUsable(done) && Full(lib, bad)
    ensures Full(lib, (Each(lib, Made, done) + [bad])[0])
    decreases |done|
  {
    hide Usual, Full;
    if done != [] {
      assert Usable(done[0]) && AllUsable(done[1..]);
      HeadIsFull(lib, done[1..], bad);
      if Adds(lib, Made, done[0]) != [] {
        MadeIsFull(lib, done[0]);
      } else {
        assert [] + Each(lib, Made, done[1..]) == Each(lib, Made, done[1..]);
      }
    }
  }

  /** A string that is cut at its first quote is another one. */
  lemma CutIsOther(lib: Library, got: bytes, want: bytes)
    requires Usual(lib) && LegalString(want) && Cut(got, want)
    ensures lib.trim(got) != [] && Full(lib, Scalar(lib.encode(lib.trim(got))))
    ensures lib.encode(lib.trim(got)) != lib.encode(lib.decode(want))
  {
    hide Usual, Full, S.Utf8, S.Decode, S.TrimSpace;
    Trims(lib, got);
    Decodes(lib, want);
    var rest := want[|got|..];
    assert want == got + rest && rest[0] == QUOTE;
    S.Utf8Cut(got, rest);
    S.BackslashInFront(want, |got|);
    S.BackslashStays(got);
    TrimmedIsFull(lib, got);
    assert want[|got|] in want;
    S.QuoteIsMeant(want);
    S.TrimSpaceIsUtf8(got);
    S.DecodeIsUtf8(want);
    EncodesApart(lib, lib.trim(got), lib.decode(want));
    if QUOTE in lib.trim(got) { S.TrimmedIsPart(got, QUOTE); }
  }

  /** Output that starts like this is not the text of the document. */
  lemma BrokenIsNotText(lib: Library, fields: seq<Field>, calls: seq<Call>, out: seq<Token>)
    requires Usual(lib) && AllSpaced(lib, fields) && Solid(lib, Obj(fields)) && AllUsable(FeedFields(fields))
    requires Breaks(Callbacks(calls), FeedFields(fields)) && Run(lib, Begin([]), calls).message <= out
    ensures out != Text(lib, Obj(fields))
  {
    hide Usual, Run, Marks, Each, Text, Spaced, Solid, FeedFields, Short;
    var feed, n := FeedFields(fields), |calls| - 1;
    var done, last, good := calls[..n], calls[n], feed[n];
    SimpleFront(calls, feed);
    LastOfFront(calls, feed);
    assert Usable(good);
    if good.ReadKey? {
      NamesDiffer(lib, fields, done, last, good, out);
    } else {
      assert good.ReadEscaped? by { ShortIsKind(last.callback, good); }
      ScalarsDiffer(lib, fields, calls, done, last, good, out);
    }
  }

  lemma ShortIsKind(got: Callback, want: Callback)
    requires Short(got, want)
    ensures want.ReadKey? || want.ReadEscaped?
  {
  }

  lemma LastOfFront(calls: seq<Call>, feed: seq<Callback>)
    requires Breaks(Callbacks(calls), feed)
    ensures var n := |calls| - 1;
      && n >= 0 && n < |feed| && calls == calls[..n] + [calls[n]]
      && Callbacks(calls[..n]) == feed[..n] && Callbacks(calls) == Callbacks(calls[..n]) + [calls[n].callback]
      && Callbacks(calls[..n]) + [feed[n]] <= feed && Short(calls[n].callback, feed[n])
  {
    var n := |calls| - 1;
    assert |Callbacks(calls)| == |calls| && Callbacks(calls)[n] == calls[n].callback;
    assert Callbacks(calls[..n]) == Callbacks(calls)[..n] == feed[..n];
    assert feed[..n] + [feed[n]] == feed[..n + 1];
  }

  lemma SimpleFront(calls: seq<Call>, feed: seq<Callback>)
    requires Breaks(Callbacks(calls), feed) && AllUsable(feed)
    ensures AllSimple(calls)
  {
    var n := |calls| - 1;
    forall i | 0 <= i < |calls| ensures IsSimple(calls[i].callback) {
      assert Callbacks(calls)[i] == calls[i].callback;
      if i < n { assert calls[i].callback == Callbacks(calls)[..n][i] == feed[..n][i] == feed[i]; }
    }
  }

  lemma ScalarsDiffer(lib: Library, fields: seq<Field>, calls: seq<Call>, done: seq<Call>, last: Call, good: Callback,
                      out: seq<Token>)
    requires Usual(lib) && Solid(lib, Obj(fields)) && AllSimple(calls) && AllUsable(FeedFields(fields))
    requires calls == done + [last] && Callbacks(calls) == Callbacks(done) + [last.callback]
    requires Callbacks(done) + [good] <= FeedFields(fields) && AllUsable(Callbacks(done)) && Usable(good)
    requires good.ReadEscaped? && Short(last.callback, good) && Run(lib, Begin([]), calls).message <= out
    ensures out != Text(lib, Obj(fields))
  {
    hide Usual, Run, Marks, Each, Text, Solid, Full;
    var feed, front := FeedFields(fields), Callbacks(done);
    var rest := feed[|front| + 1..];
    assert feed == front + [good] + rest;
    var more := RunAdds(lib, Begin([]), calls);
    MarksSum([OpenObject], more, false);
    MarksOfOne(OpenObject, false);
    EachSum(lib, Made, front, [last.callback]);
    EachOfOne(lib, Made, last.callback);
    CutIsOther(lib, last.callback.data, good.data);
    var bad, meant := Scalar(lib.encode(lib.trim(last.callback.data))), Scalar(lib.encode(lib.decode(good.data)));
    MarksOfFront(Run(lib, Begin([]), calls).message, out, false);
    TextMarks(lib, Obj(fields), false);
    FeedBracketed(lib, Meant, ReadObject, feed);
    EachOfThree(lib, Meant, front, [good], rest);
    EachOfOne(lib, Meant, good);
    OutOfStep(lib, front, bad, meant, Each(lib, Meant, rest));
    Nothing(Each(lib, Made, front) + [bad], []);
    assert [] + (Each(lib, Made, front) + [bad]) == Each(lib, Made, front) + [bad];
  }

  lemma NamesDiffer(lib: Library, fields: seq<Field>, done: seq<Call>, last: Call, good: Callback, out: seq<Token>)
    requires AllSpaced(lib, fields) && Solid(lib, Obj(fields)) && IsSimple(last.callback)
    requires Callbacks(done) + [good] <= FeedFields(fields) && good.ReadKey? && Short(last.callback, good)
    requires Run(lib, Begin([]), done + [last]).message <= out
    ensures out != Text(lib, Obj(fields))
  {
    hide Run, Apply, Marks, Each, Text, Solid, Spaced;
    var feed, front := FeedFields(fields), Callbacks(done);
    var rest := feed[|front| + 1..];
    assert feed == front + [good] + rest;
    assert front <= feed;
    NamesAreKeys(lib, fields, done);
    var e := Run(lib, Begin([]), done);
    RunAppend(lib, Begin([]), done, [last]);
    RunOne(lib, e, last);
    var more := CallAdds(lib, e, last);
    MarksSum(e.message, more, true);
    MarksOfFront(e.message + more, out, true);
    TextMarks(lib, Obj(fields), true);
    FeedBracketed(lib, Keys, ReadObject, feed);
    EachOfThree(lib, Keys, front, [good], rest);
    EachOfOne(lib, Keys, good);
    var keys := Each(lib, Keys, front);
    Associative(keys, [Name(good.data)], Each(lib, Keys, rest));
    Heads(keys, keys, [Name(last.callback.data)], [Name(good.data)] + Each(lib, Keys, rest));
    Heads([Name(last.callback.data)], [Name(good.data)], [], Each(lib, Keys, rest));
    assert [Name(last.callback.data)] + [] == [Name(last.callback.data)];
  }

  // ------------------------------------------------------------------ every JSON text

  lemma {:induction false} CloseAllAdds(e: Emitter)
    ensures e.message <= CloseAll(e).message
    decreases |e.stack| + if e.state.InArray() || e.state.Object? then 1 else 0
  {
    if e.state.InArray() || e.state.Object? { CloseAllAdds(End(e)); }
  }

  lemma FormattedStarts(lib: Library, calls: seq<Call>, remains: Option<bytes>, name: bytes, front: seq<Call>)
    requires AllSimple(Simple(calls)) && front <= Simple(calls)
    ensures Run(lib, Begin([]), front).message <= Formatted(lib, [], calls, remains, name).message
  {
    hide Run, CloseAll, WriteScalar;
    var simple := Simple(calls);
    ComposedAreSimple(lib, Begin([]), calls);
    assert simple == front + simple[|front|..];
    RunAppend(lib, Begin([]), front, simple[|front|..]);
    var more := RunAdds(lib, Run(lib, Begin([]), front), simple[|front|..]);
    var e := Run(lib, Begin([]), calls);
    if remains.Some? {
      var scalar := ScalarAdds(e, name, lib.trim(remains.value) == [], lib.encode(lib.trim(remains.value)));
    }
    CloseAllAdds(WithRemains(lib, e, remains, name));
  }

  lemma {:induction false} FedIsAllSimple(calls: seq<A.Call>)
    ensures forall i :: 0 <= i < |Fed(calls)| ==> IsSimple(Fed(calls)[i])
    decreases |calls|
  {
    if calls != [] { FedIsAllSimple(calls[..|calls| - 1]); }
  }

  /** Parser and callbacks together, on every JSON text: the formatter writes the document exactly if no
      name has an escaped quote and no string is empty, has an escape, or has blank characters at its
      ends. */
  lemma FormatsText(lib: Library, names: nat -> bytes, doc: Layout, tail: bytes)
    requires Usual(lib) && doc.Record? && Legal(doc) && White(tail)
    ensures P.Ends(TABLE, Spell(doc) + tail, FIND_KEY, [], |Spell(doc) + tail| + 1)
    ensures FormattedText(lib, names, Spell(doc) + tail) == Text(lib, Content(doc)) <==> Verbatim(doc)
  {
    hide Usual, Legal, Unbroken, Verbatim, Spell, FormattedText, Text, Filled, Kept, Content, P.Ends;
    if Verbatim(doc) { VerbatimIsUnbroken(doc); }
    if Unbroken(doc) {
      LegalIsLaid(doc);
      TrimsWhiteSpace(lib);
      FormatsDocument(lib, names, doc, tail);
      VerbatimIff(lib, doc);
    } else {
      BrokenIsOther(lib, names, doc, tail);
    }
  }

  lemma RecordIsUsable(lib: Library, doc: Layout)
    requires Usual(lib) && doc.Record? && Legal(doc)
    ensures var fields := Fields(doc.members);
      && Content(doc) == Obj(fields) && AllSpaced(lib, fields) && Solid(lib, Obj(fields))
      && AllUsable(FeedFields(fields))
  {
    hide Usual, Solid, Usable;
    LegalIsSolid(lib, doc);
    MembersAreUsable(doc.members);
  }

  lemma BrokenIsOther(lib: Library, names: nat -> bytes, doc: Layout, tail: bytes)
    requires Usual(lib) && doc.Record? && Legal(doc) && !Unbroken(doc)
    ensures P.Ends(TABLE, Spell(doc) + tail, FIND_KEY, [], |Spell(doc) + tail| + 1)
    ensures FormattedText(lib, names, Spell(doc) + tail) != Text(lib, Content(doc))
  {
    hide Usual, Legal, Unbroken, Spell, Text, Fed, Breaks, T.Scan, Fields, FeedFields, Formatted, T.Parsed, A.Calls,
      Named, Simple, P.Ends, AllSimple, Run, Solid, Spaced;
    var data, fields := Spell(doc) + tail, Fields(doc.members);
    ParsedByScan(data);
    var got, more := DocumentBreaks(doc, tail);
    var calls := ParsedCalls(data, names);
    var simple := Simple(calls);
    FedIsSimple(A.Calls(data, T.Parsed(data).log), names);
    FedIsAllSimple(A.Calls(data, T.Parsed(data).log));
    assert AllSimple(simple) by { SimpleCalls(simple, got + more); }
    var front := simple[..|got|];
    RunSplit(lib, Begin([]), simple, got, more);
    var rest := data[T.Parsed(data).readStart..];
    var remains := if rest == [] then None else Some(rest);
    FormattedStarts(lib, calls, remains, names(T.Parsed(data).state), front);
    RecordIsUsable(lib, doc);
    BrokenIsNotText(lib, fields, front, FormattedText(lib, names, data));
  }

  /** The text `{"a":...}` with one string. */
  lemma OneString(data: bytes) returns (doc: Layout)
    requires LegalString(data)
    ensures doc.Record? && Legal(doc) && Content(doc) == Obj([Field([97], Quoted(data), None)])
    ensures Spell(doc) == [OPEN_BRACE, QUOTE, 97, QUOTE, COLON, QUOTE] + data + [QUOTE, CLOSE_BRACE]
    ensures Verbatim(doc) ==> S.BACKSLASH !in data
  {
    hide LegalString, Spell, Feed, FeedField;
    var member := Member([], [97], [], String([], data), []);
    doc := Record([], [], [member]);
    OneLetter(97);
    assert Legal(member.value) && LegalMember(member);
    assert [member][0] == member && [member][1..] == [] && Legal(doc);
    assert Fields([member]) == [FieldOf(member)];
    OneStringSpelled(data, member);
    assert Verbatim(doc) ==> AllVerbatim([member]) && Verbatim([member][0].value);
  }

  lemma OneStringSpelled(data: bytes, member: Member)
    requires member == Member([], [97], [], String([], data), [])
    ensures Spell(Record([], [], [member]))
      == [OPEN_BRACE, QUOTE, 97, QUOTE, COLON, QUOTE] + data + [QUOTE, CLOSE_BRACE]
  {
    assert [member][0] == member && [member][1..] == [];
    assert SpellName(member) == [QUOTE, 97, QUOTE, COLON];
    assert SpellMember(member) == [QUOTE, 97, QUOTE, COLON, QUOTE] + data + [QUOTE];
    assert SpellMembers([member]) == SpellMember(member) + [CLOSE_BRACE];
  }

  lemma OneLetter(b: byte)
    requires 32 <= b < 0x80 && b != QUOTE && b != S.BACKSLASH
    ensures LegalString([b])
  {
    assert S.CharLen([b]) == 1 && [b][1..] == [];
  }

  /** The backslash of an escape is escaped itself: the line feed in `{"a":"\n"}` is lost. */
  lemma EscapeIsEscaped(lib: Library, names: nat -> bytes)
    requires Usual(lib)
    ensures S.Decode([92, 110]) == Some([10])
    ensures var data := [OPEN_BRACE, QUOTE, 97, QUOTE, COLON, QUOTE, 92, 110, QUOTE, CLOSE_BRACE];
      && P.Ends(TABLE, data, FIND_KEY, [], |data| + 1)
      && FormattedText(lib, names, data) != Text(lib, Obj([Field([97], Quoted([92, 110]), None)]))
  {
    hide Usual, FormattedText, Text, P.Ends, Spell, Legal, Verbatim;
    S.OneEscape(110);
    var doc := OneString([92, 110]);
    assert Spell(doc) + [] == [OPEN_BRACE, QUOTE, 97, QUOTE, COLON, QUOTE, 92, 110, QUOTE, CLOSE_BRACE];
    FormatsText(lib, names, doc, []);
  }

  /** And an escaped quote ends the string: in `{"a":"\""}`. */
  lemma EscapedQuoteEnds(lib: Library, names: nat -> bytes)
    requires Usual(lib)
    ensures S.Decode([92, QUOTE]) == Some([QUOTE])
    ensures var data := [OPEN_BRACE, QUOTE, 97, QUOTE, COLON, QUOTE, 92, QUOTE, QUOTE, CLOSE_BRACE];
      && P.Ends(TABLE, data, FIND_KEY, [], |data| + 1)
      && FormattedText(lib, names, data) != Text(lib, Obj([Field([97], Quoted([92, QUOTE]), None)]))
  {
    hide Usual, FormattedText, Text, P.Ends, Spell, Legal, Verbatim;
    S.OneEscape(QUOTE);
    var doc := OneString([92, QUOTE]);
    assert Spell(doc) + [] == [OPEN_BRACE, QUOTE, 97, QUOTE, COLON, QUOTE, 92, QUOTE, QUOTE, CLOSE_BRACE];
    FormatsText(lib, names, doc, []);
  }
}
