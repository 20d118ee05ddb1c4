/**
 JSON texts with escapes in their strings and names, and the parser with the directives of
 format/json_test.go: which documents it reads, and where it loses the others.
 */
module JsonTexts {
  import opened Utilities
  import opened ByteTables
  import opened JsonEmitter
  import opened T = JsonTable
  import S = JsonStrings
  import A = Automaton

  // ------------------------------------------------------------------------ JSON texts

  /** What stands between the quotes of a JSON string. */
  predicate LegalString(data: bytes) { S.Utf8(data) && S.Decode(data).Some? }

  /** The layouts of JSON texts.  Escaped quotes are allowed; a literal is whatever is not blank and
      has no structure in it. */
  predicate Legal(l: Layout) {
    match l
    case Literal(data) => T.Plain(data) && S.TrimSpace(data) != []
    case String(gap, data) => White(gap) && LegalString(data)
    case List(gap, inner, elements) =>
      && White(gap) && White(inner) && (elements != [] ==> inner == [])
      && forall i :: 0 <= i < |elements| ==> LegalElement(elements[i])
    case Record(gap, inner, members) => White(gap) && White(inner) && AllLegal(members)
  }

  predicate LegalElement(e: Element) { Legal(e.value) && White(e.behind) && (e.value.Literal? ==> e.behind == []) }

  predicate LegalMember(m: Member) {
    && White(m.front) && LegalString(m.name) && White(m.colon)
    && Legal(m.value) && White(m.behind) && (m.value.Literal? ==> m.behind == [])
  }

  predicate AllLegal(members: seq<Member>) { forall i :: 0 <= i < |members| ==> LegalMember(members[i]) }

  /** No string and no name has a quote in it. */
  predicate Unbroken(l: Layout) {
    match l
    case Literal(_) => true
    case String(_, data) => QUOTE !in data
    case List(_, _, elements) =>
      forall i :: 0 <= i < |elements| ==>
        assert elements[i].value < elements[i];
        Unbroken(elements[i].value)
    case Record(_, _, members) => AllUnbroken(members)
  }

  predicate AllUnbroken(members: seq<Member>) {
    forall i :: 0 <= i < |members| ==> QUOTE !in members[i].name && Unbroken(members[i].value)
  }

  /** No name has an escaped quote, and no string is empty, or has an escape or blank characters at its
      ends. */
  predicate Verbatim(l: Layout) {
    match l
    case Literal(_) => true
    case String(_, data) => data != [] && S.BACKSLASH !in data && S.TrimSpace(data) == data
    case List(_, _, elements) =>
      forall i :: 0 <= i < |elements| ==>
        assert elements[i].value < elements[i];
        Verbatim(elements[i].value)
    case Record(_, _, members) => AllVerbatim(members)
  }

  predicate AllVerbatim(members: seq<Member>) {
    forall i :: 0 <= i < |members| ==> QUOTE !in members[i].name && Verbatim(members[i].value)
  }

  lemma {:induction false} LegalIsLaid(l: Layout)
    requires Legal(l) && Unbroken(l)
    ensures Laid(l)
    decreases l
  {
    match l
    case List(_, _, elements) =>
      forall i | 0 <= i < |elements| ensures LaidElement(elements[i]) {
        assert LegalElement(elements[i]) && elements[i].value < elements[i];
        LegalIsLaid(elements[i].value);
      }
    case Record(_, _, members) =>
      forall i | 0 <= i < |members| ensures LaidMember(members[i]) {
        assert LegalMember(members[i]);
        LegalIsLaid(members[i].value);
      }
    case _ =>
  }

  lemma {:induction false} VerbatimIsUnbroken(l: Layout)
    requires Legal(l) && Verbatim(l)
    ensures Unbroken(l)
    decreases l
  {
    hide LegalString, S.TrimSpace;
    match l
    case String(_, data) => NoQuoteWithoutEscape(data);
    case List(_, _, elements) =>
      forall i | 0 <= i < |elements| ensures Unbroken(elements[i].value) {
        assert LegalElement(elements[i]) && elements[i].value < elements[i];
        VerbatimIsUnbroken(elements[i].value);
      }
    case Record(_, _, members) =>
      forall i | 0 <= i < |members| ensures QUOTE !in members[i].name && Unbroken(members[i].value) {
        assert LegalMember(members[i]);
        VerbatimIsUnbroken(members[i].value);
      }
    case _ =>
  }

  lemma NoQuoteWithoutEscape(data: bytes)
    requires LegalString(data) && S.BACKSLASH !in data
    ensures QUOTE !in data
  {
    if QUOTE in data { S.QuoteIsEscaped(data); }
  }

  // ---------------------------------------------- where the parser loses a broken document

  /** The callback gets the data up to the first quote in it. */
  predicate Cut(got: bytes, want: bytes) {
    |got| < |want| && want[..|got|] == got && want[|got|] == QUOTE && QUOTE !in got
  }

  predicate Short(got: Callback, want: Callback) {
    || (got.ReadEscaped? && want.ReadEscaped? && Cut(got.data, want.data))
    || (got.ReadKey? && want.ReadKey? && Cut(got.data, want.data))
  }

  /** The callbacks are those of the document up to the last, which gets too little. */
  predicate Breaks(got: seq<Callback>, want: seq<Callback>) {
    && 0 < |got| <= |want| && got[..|got| - 1] == want[..|got| - 1]
    && Short(got[|got| - 1], want[|got| - 1])
  }

  lemma BreaksWithin(front: seq<Callback>, got: seq<Callback>, want: seq<Callback>, rest: seq<Callback>)
    requires Breaks(got, want)
    ensures Breaks(front + got, front + want + rest)
  {
    var n := |front + got| - 1;
    assert (front + got)[..n] == front + got[..|got| - 1];
    assert (front + want + rest)[..n] == front + want[..|got| - 1];
  }

  lemma PrefixSum(front: bytes, cut: bytes, text: bytes, rest: bytes)
    requires Prefix(cut, text)
    ensures Prefix(front + cut, front + text) && Prefix(cut, text + rest)
  {
    assert (front + text)[..|front + cut|] == front + text[..|cut|];
    assert (text + rest)[..|cut|] == text[..|cut|];
  }

  /** Up to the first quote. */
  function UpToQuote(data: bytes): (front: bytes)
    requires QUOTE in data
    ensures Cut(front, data)
  {
    if data[0] == QUOTE then []
    else
      assert data == [data[0]] + data[1..];
      [data[0]] + UpToQuote(data[1..])
  }

  /** After `cut`, the scanner has broken off from `want`. */
  predicate BrokenOff(s: Scanner, cut: bytes, got: seq<Callback>, want: seq<Callback>) {
    Fed(T.Scan(s, cut).calls) == Fed(s.calls) + got && Breaks(got, want)
  }

  lemma BrokenBehind(s: Scanner, front: bytes, done: seq<Callback>, cut: bytes, got: seq<Callback>,
                     want: seq<Callback>, rest: seq<Callback>)
    requires Fed(T.Scan(s, front).calls) == Fed(s.calls) + done && BrokenOff(T.Scan(s, front), cut, got, want)
    ensures BrokenOff(s, front + cut, done + got, done + want + rest)
  {
    hide T.Scan, Fed, Breaks;
    Then(s, front, cut);
    BreaksWithin(done, got, want, rest);
    Associative(Fed(s.calls), done, got);
  }

  lemma StringBreaks(s: Scanner, data: bytes) returns (cut: bytes, got: seq<Callback>)
    requires ExpectsValue(s) && QUOTE in data
    ensures Prefix(cut, [QUOTE] + data + [QUOTE]) && BrokenOff(s, cut, got, [ReadEscaped(data)])
  {
    hide T.Scan, Fed;
    var front := UpToQuote(data);
    cut, got := [QUOTE] + front + [QUOTE], [ReadEscaped(front)];
    assert data == front + [QUOTE] + data[|front| + 1..];
    assert [QUOTE] + data + [QUOTE] == cut + (data[|front| + 1..] + [QUOTE]);
    ReadsString(s, front);
  }

  lemma {:induction false} ValueBreaks(s: Scanner, l: Layout) returns (cut: bytes, got: seq<Callback>)
    requires ExpectsValue(s) && s.window == [] && Legal(l) && !Unbroken(l)
    ensures Prefix(cut, Spell(l)) && BrokenOff(s, cut, got, Feed(Content(l)))
    decreases l, 0
  {
    hide T.Scan, Fed, BrokenOff;
    var gap := l.gap;
    SkipsWhite(s, gap);
    var there := s.(window := s.window + gap);
    assert Fed(s.calls) + [] == Fed(s.calls);
    match l
    case String(_, data) =>
      cut, got := StringBreaks(there, data);
      PrefixSum(gap, cut, [QUOTE] + data + [QUOTE], []);
      BrokenBehind(s, gap, [], cut, got, [ReadEscaped(data)], []);
      assert [] + got == got && [] + [ReadEscaped(data)] + [] == [ReadEscaped(data)];
      cut := gap + cut;
    case List(_, inner, elements) =>
      cut, got := ListBreaks(there, inner, elements);
      PrefixSum(gap, cut, [OPEN_BRACKET] + inner + SpellElements(elements), []);
      BrokenBehind(s, gap, [], cut, got, Feed(Content(l)), []);
      assert [] + got == got && [] + Feed(Content(l)) + [] == Feed(Content(l));
      cut := gap + cut;
    case Record(_, inner, members) =>
      cut, got := RecordBreaks(there, inner, members);
      PrefixSum(gap, cut, [OPEN_BRACE] + inner + SpellMembers(members), []);
      BrokenBehind(s, gap, [], cut, got, Feed(Content(l)), []);
      assert [] + got == got && [] + Feed(Content(l)) + [] == Feed(Content(l));
      cut := gap + cut;
  }

  predicate BrokenElements(elements: seq<Element>) {
    exists i :: 0 <= i < |elements| && !Unbroken(elements[i].value)
  }

  lemma ListBreaks(s: Scanner, inner: bytes, elements: seq<Element>) returns (cut: bytes, got: seq<Callback>)
    requires ExpectsValue(s) && Legal(List([], inner, elements)) && BrokenElements(elements)
    ensures Prefix(cut, [OPEN_BRACKET] + inner + SpellElements(elements))
    ensures BrokenOff(s, cut, got, Feed(Content(List([], inner, elements))))
    decreases elements, 1
  {
    hide T.Scan, Fed, SpellElements, Content, Feed, BrokenOff;
    OpensArray(s);
    var inside, text := T.Scan(s, [OPEN_BRACKET]), SpellElements(elements);
    cut, got := ElementsBreak(inside, elements);
    assert [OPEN_BRACKET] + inner == [OPEN_BRACKET];
    PrefixSum([OPEN_BRACKET], cut, text, []);
    FeedOfList(inner, elements);
    BrokenBehind(s, [OPEN_BRACKET], [ReadArray], cut, got, FeedItems(Items(elements)), [ReadEnd]);
    Associative([ReadArray], FeedItems(Items(elements)), [ReadEnd]);
    cut, got := [OPEN_BRACKET] + cut, [ReadArray] + got;
  }

  lemma {:induction false} ElementsBreak(s: Scanner, elements: seq<Element>) returns (cut: bytes, got: seq<Callback>)
    requires s.state == ARRAY && s.window == [] && elements != [] && BrokenElements(elements)
    requires forall i :: 0 <= i < |elements| ==> LegalElement(elements[i])
    ensures Prefix(cut, SpellElements(elements)) && BrokenOff(s, cut, got, FeedItems(Items(elements)))
    decreases elements, 0
  {
    hide T.Scan, Fed, Content, Feed, BrokenOff, SpellElements, Items, FeedItems, FeedItem, ItemOf, SpellElement,
      LegalString, Legal, Unbroken, Left, Prefix, BrokenElements;
    var e, rest := elements[0], elements[1..];
    assert LegalElement(e) && e.value < e;
    ElementsAre(elements);
    FeedItemsAre(elements);
    if Unbroken(e.value) {
      LegalIsLaid(e.value);
      ReadsElement(s, e);
      var next := T.Scan(s, SpellElement(e) + [COMMA]);
      BrokenLater(elements);
      cut, got := ElementsBreak(next, rest);
      PrefixSum(SpellElement(e) + [COMMA], cut, SpellElements(rest), []);
      BrokenBehind(s, SpellElement(e) + [COMMA], FeedItem(ItemOf(e)), cut, got, FeedItems(Items(rest)), []);
      assert FeedItem(ItemOf(e)) + FeedItems(Items(rest)) + [] == FeedItem(ItemOf(e)) + FeedItems(Items(rest));
      cut, got := SpellElement(e) + [COMMA] + cut, FeedItem(ItemOf(e)) + got;
    } else {
      cut, got := ValueBreaks(s, e.value);
      SpellStarts(elements);
      var more := SpellElements(elements)[|Spell(e.value)|..];
      PrefixSum([], cut, Spell(e.value), more);
      assert BrokenOff(s, cut, got, FeedItems(Items(elements))) by {
        FeedStarts(s, cut, got, elements);
      }
    }
  }

  lemma BrokenLater(elements: seq<Element>)
    requires BrokenElements(elements) && Unbroken(elements[0].value)
    ensures elements[1..] != [] && BrokenElements(elements[1..])
  {
    var i :| 0 <= i < |elements| && !Unbroken(elements[i].value);
    assert elements[1..][i - 1] == elements[i];
  }

  lemma FeedItemsAre(elements: seq<Element>)
    requires elements != []
    ensures FeedItems(Items(elements)) == FeedItem(ItemOf(elements[0])) + FeedItems(Items(elements[1..]))
  {
    hide Feed, FeedBlank, ItemOf;
    assert Items(elements)[1..] == Items(elements[1..]);
  }

  lemma SpellStarts(elements: seq<Element>)
    requires elements != []
    ensures |Spell(elements[0].value)| <= |SpellElements(elements)|
    ensures SpellElements(elements)
      == Spell(elements[0].value) + SpellElements(elements)[|Spell(elements[0].value)|..]
  {
    hide Spell;
  }

  lemma FeedStarts(s: Scanner, cut: bytes, got: seq<Callback>, elements: seq<Element>)
    requires elements != [] && BrokenOff(s, cut, got, Feed(Content(elements[0].value)))
    ensures BrokenOff(s, cut, got, FeedItems(Items(elements)))
  {
    hide T.Scan, Fed, Breaks, Feed, FeedItems, BrokenOff;
    var item := ItemOf(elements[0]);
    FeedItemsAre(elements);
    var rest := FeedBlank(item.blank) + FeedItems(Items(elements[1..]));
    MoreWanted(s, cut, got, Feed(item.value), rest);
    Associative(Feed(item.value), FeedBlank(item.blank), FeedItems(Items(elements[1..])));
  }

  predicate BrokenMembers(members: seq<Member>) {
    exists i :: 0 <= i < |members| && BrokenMember(members[i])
  }

  predicate BrokenMember(m: Member) { QUOTE in m.name || !Unbroken(m.value) }

  lemma RecordBreaks(s: Scanner, inner: bytes, members: seq<Member>) returns (cut: bytes, got: seq<Callback>)
    requires ExpectsValue(s) && Legal(Record([], inner, members)) && BrokenMembers(members)
    ensures Prefix(cut, [OPEN_BRACE] + inner + SpellMembers(members))
    ensures BrokenOff(s, cut, got, Feed(Content(Record([], inner, members))))
    decreases members, 1
  {
    hide T.Scan, Fed, SpellMembers, Content, Feed, BrokenOff;
    OpensObject(s);
    var inside, text := T.Scan(s, [OPEN_BRACE]), SpellMembers(members);
    SkipsWhite(inside, inner);
    var there := inside.(window := inside.window + inner);
    cut, got := MembersBreak(there, members);
    Then(s, [OPEN_BRACE], inner);
    PrefixSum([OPEN_BRACE] + inner, cut, text, []);
    FeedOfRecord(inner, members);
    BrokenBehind(s, [OPEN_BRACE] + inner, [ReadObject], cut, got, FeedFields(Fields(members)), [ReadEnd]);
    Associative([ReadObject], FeedFields(Fields(members)), [ReadEnd]);
    cut, got := [OPEN_BRACE] + inner + cut, [ReadObject] + got;
  }

  lemma {:induction false} MembersBreak(s: Scanner, members: seq<Member>) returns (cut: bytes, got: seq<Callback>)
    requires s.state == FIND_KEY && AllLegal(members) && BrokenMembers(members)
    ensures Prefix(cut, SpellMembers(members)) && BrokenOff(s, cut, got, FeedFields(Fields(members)))
    decreases members, 0
  {
    hide T.Scan, Fed, Content, Feed, BrokenOff, SpellMembers, SpellMember, Fields, FeedFields, FeedField, FieldOf,
      LegalString, Legal, Unbroken, Left, Prefix;
    var m, rest := members[0], members[1..];
    assert LegalMember(m) && AllLegal(rest);
    MembersAre(members);
    FeedFieldsAre(members);
    if BrokenMember(m) {
      cut, got := MemberBreaks(s, m);
      SpellMembersStart(members);
      PrefixSum([], cut, SpellMember(m), SpellMembers(members)[|SpellMember(m)|..]);
      assert BrokenOff(s, cut, got, FeedFields(Fields(members))) by { FieldStarts(s, cut, got, members); }
    } else {
      LegalIsLaid(m.value);
      ReadsMember(s, m);
      var next := T.Scan(s, SpellMember(m) + [COMMA]);
      BrokenRest(members);
      cut, got := MembersBreak(next, rest);
      PrefixSum(SpellMember(m) + [COMMA], cut, SpellMembers(rest), []);
      var done, more := FeedField(FieldOf(m)), FeedFields(Fields(rest));
      BrokenBehind(s, SpellMember(m) + [COMMA], done, cut, got, more, []);
      assert done + more + [] == done + more;
      cut, got := SpellMember(m) + [COMMA] + cut, done + got;
    }
  }

  lemma BrokenRest(members: seq<Member>)
    requires BrokenMembers(members) && !BrokenMember(members[0])
    ensures members[1..] != [] && BrokenMembers(members[1..])
  {
    var i :| 0 <= i < |members| && BrokenMember(members[i]);
    assert members[1..][i - 1] == members[i];
  }

  lemma FeedFieldsAre(members: seq<Member>)
    requires members != []
    ensures FeedFields(Fields(members)) == FeedField(FieldOf(members[0])) + FeedFields(Fields(members[1..]))
  {
    hide FeedField, FieldOf;
    assert Fields(members)[1..] == Fields(members[1..]);
  }

  lemma SpellMembersStart(members: seq<Member>)
    requires members != []
    ensures |SpellMember(members[0])| <= |SpellMembers(members)|
    ensures SpellMembers(members) == SpellMember(members[0]) + SpellMembers(members)[|SpellMember(members[0])|..]
  {
    hide SpellMember;
  }

  lemma FieldStarts(s: Scanner, cut: bytes, got: seq<Callback>, members: seq<Member>)
    requires members != [] && BrokenOff(s, cut, got, FeedField(FieldOf(members[0])))
    ensures BrokenOff(s, cut, got, FeedFields(Fields(members)))
  {
    hide BrokenOff, FeedField, FieldOf, FeedFields, Fields;
    FeedFieldsAre(members);
    MoreWanted(s, cut, got, FeedField(FieldOf(members[0])), FeedFields(Fields(members[1..])));
  }

  lemma MemberBreaks(s: Scanner, m: Member) returns (cut: bytes, got: seq<Callback>)
    requires s.state == FIND_KEY && LegalMember(m) && BrokenMember(m)
    ensures Prefix(cut, SpellMember(m)) && BrokenOff(s, cut, got, FeedField(FieldOf(m)))
    decreases m, 0
  {
    hide T.Scan, Fed, Content, Feed, BrokenOff, Spell, FeedBlank;
    var f := FieldOf(m);
    var rest := FeedBlank(f.blank);
    if QUOTE in m.name {
      cut, got := NameBreaks(s, m);
      PrefixSum([], cut, SpellName(m), Spell(m.value) + m.behind);
      assert BrokenOff(s, cut, got, FeedField(f)) by {
        MoreWanted(s, cut, got, [ReadKey(m.name)], Feed(f.value) + rest);
        assert FeedField(f) == [ReadKey(m.name)] + (Feed(f.value) + rest);
      }
    } else {
      assert LaidMember(m.(value := Literal([]), behind := []));
      ReadsName(s, m.(value := Literal([]), behind := []));
      var named := T.Scan(s, SpellName(m));
      cut, got := ValueBreaks(named, m.value);
      PrefixSum([], cut, Spell(m.value), m.behind);
      PrefixSum(SpellName(m), cut, Spell(m.value) + m.behind, []);
      BrokenBehind(s, SpellName(m), [ReadKey(m.name)], cut, got, Feed(f.value), rest);
      cut, got := SpellName(m) + cut, [ReadKey(m.name)] + got;
    }
  }

  lemma MoreWanted(s: Scanner, cut: bytes, got: seq<Callback>, want: seq<Callback>, rest: seq<Callback>)
    requires BrokenOff(s, cut, got, want)
    ensures BrokenOff(s, cut, got, want + rest)
  {
    hide T.Scan, Fed, Breaks;
    BreaksWithin([], got, want, rest);
    assert [] + got == got && [] + want + rest == want + rest;
  }

  lemma NameBreaks(s: Scanner, m: Member) returns (cut: bytes, got: seq<Callback>)
    requires s.state == FIND_KEY && White(m.front) && QUOTE in m.name
    ensures Prefix(cut, SpellName(m)) && BrokenOff(s, cut, got, [ReadKey(m.name)])
  {
    hide T.Scan, Fed;
    var front := UpToQuote(m.name);
    var quoted, rest := [QUOTE] + front + [QUOTE], m.name[|front| + 1..];
    cut, got := m.front + quoted, [ReadKey(front)];
    assert m.name == front + [QUOTE] + rest;
    assert SpellName(m) == cut + (rest + [QUOTE] + (m.colon + [COLON]));
    SkipsWhite(s, m.front);
    var there := s.(window := s.window + m.front);
    ReadsQuotedName(there, front);
    Then(s, m.front, quoted);
  }

  lemma {:induction false} ScanKeeps(s: Scanner, data: bytes) returns (more: seq<Callback>)
    ensures Fed(T.Scan(s, data).calls) == Fed(s.calls) + more
    decreases |data|
  {
    if data == [] {
      more := [];
      assert Fed(s.calls) + [] == Fed(s.calls);
    } else {
      var next := Read(TABLE, s, data[0]);
      var rest := ScanKeeps(next, data[1..]);
      var t := Answer(TABLE, s.state, data[0]);
      if t.Some? && t.value.callback.Some? {
        var call := A.Call(t.value.callback.value, s.window, s.state);
        FedOne(s.calls, call);
        more := PartsOf(call) + rest;
        Associative(Fed(s.calls), PartsOf(call), rest);
      } else {
        assert s.calls + [] == s.calls;
        more := rest;
      }
    }
  }

  /** Where a document has a quote in a string or a name, the parser makes other callbacks. */
  lemma DocumentBreaks(doc: Layout, tail: bytes) returns (got: seq<Callback>, more: seq<Callback>)
    requires doc.Record? && Legal(doc) && !Unbroken(doc)
    ensures Fed(T.Scan(Scanner(FIND_KEY, [], [], []), Spell(doc) + tail).calls) == got + more
    ensures Breaks(got, FeedFields(Fields(doc.members)))
  {
    hide T.Scan, Fed, Breaks, SpellMembers, Fields, FeedFields;
    var start, text := Scanner(FIND_KEY, [], [], []), SpellMembers(doc.members);
    var gap, inner := doc.gap, doc.inner;
    SkipsWhite(start, gap);
    var there := start.(window := start.window + gap);
    SkipsBrace(there);
    var brace := there.(window := there.window + [OPEN_BRACE]);
    SkipsWhite(brace, inner);
    var inside := brace.(window := brace.window + inner);
    var front := gap + ([OPEN_BRACE] + inner);
    Then(there, [OPEN_BRACE], inner);
    Then(start, gap, [OPEN_BRACE] + inner);
    assert BrokenMembers(doc.members) by { MembersAreBroken(doc.members); }
    var cut;
    cut, got := MembersBreak(inside, doc.members);
    var all := Spell(doc) + tail;
    assert all == front + text + tail;
    PrefixSum(front, cut, text, []);
    PrefixSum([], front + cut, front + text, tail);
    var rest := all[|front + cut|..];
    assert all == front + cut + rest;
    Then(start, front + cut, rest);
    Then(start, front, cut);
    more := ScanKeeps(T.Scan(start, front + cut), rest);
    assert Fed(start.calls) == [] by { FedNone(); }
    assert [] + got == got;
  }

  lemma MembersAreBroken(members: seq<Member>)
    requires !AllUnbroken(members)
    ensures BrokenMembers(members)
  {
    var i :| 0 <= i < |members| && !(QUOTE !in members[i].name && Unbroken(members[i].value));
    assert BrokenMember(members[i]);
  }

  /** The parser makes exactly the callbacks of the document if and only if no string and no name in it
      has an escaped quote. */
  lemma ReadsIffUnbroken(doc: Layout, tail: bytes)
    requires doc.Record? && Legal(doc)
    ensures var s := T.Scan(Scanner(FIND_KEY, [], [], []), Spell(doc) + tail);
      Fed(s.calls) == FeedFields(Fields(doc.members)) + [ReadEnd] <==> Unbroken(doc)
  {
    hide T.Scan, Fed, Fields, FeedFields, Spell, Unbroken, Legal;
    var feed := FeedFields(Fields(doc.members));
    if Unbroken(doc) {
      LegalIsLaid(doc);
      ReadsDocument(doc, tail);
      assert Fed([]) == [] by { FedNone(); }
      assert [] + (feed + [ReadEnd]) == feed + [ReadEnd];
    } else {
      var got, more := DocumentBreaks(doc, tail);
      var n := |got| - 1;
      assert (got + more)[n] == got[n] && (feed + [ReadEnd])[n] == feed[n];
    }
  }
}
