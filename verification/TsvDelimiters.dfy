/**
 Lines with quoted values (format/processtsv.go) for every delimiter, whether or not it has a quote in
 it: which values are read back as they were written.
 */
module TsvDelimiters {
  import opened Utilities
  import opened ProcessTsv

  /** The number of unquoted values in front. */
  function RunLength(values: seq<TsvValue>): (n: nat)
    ensures n <= |values| && forall i :: 0 <= i < n ==> !values[i].quoted
    ensures n < |values| ==> values[n].quoted
  {
    if values == [] || values[0].quoted then 0 else 1 + RunLength(values[1..])
  }

  function Texts(values: seq<TsvValue>): (texts: seq<bytes>)
    ensures |texts| == |values| && forall i :: 0 <= i < |texts| ==> texts[i] == values[i].value
  {
    seq(|values|, i requires 0 <= i < |values| => values[i].value)
  }

  /** The closing quote is the first one in front of a delimiter. */
  predicate Closes(value: bytes, sep: bytes, last: bool) {
    if last then Find(value + [QUOTE], [QUOTE] + sep, 0) == None else Clean(value, [QUOTE] + sep, false)
  }

  /** Unquoted values next to each other: the parts are clean, the first delimiter in front of a quote is
      the one behind them, and the line does not start with a quote. */
  predicate RunIsRead(parts: seq<bytes>, sep: bytes, last: bool) {
    var line := Join(parts, sep);
    && (forall i :: 0 <= i < |parts| ==> Clean(parts[i], sep, i == |parts| - 1))
    && Clean(line, sep + [QUOTE], last)
    && var start := if last then line else line + sep;
      start != [] && start[0] != QUOTE
  }

  predicate ReadsBack(values: seq<TsvValue>, sep: bytes)
    decreases |values|
  {
    if values == [] then false
    else if values[0].quoted then
      Closes(values[0].value, sep, |values| == 1) && (|values| == 1 || ReadsBack(values[1..], sep))
    else
      var n := RunLength(values);
      RunIsRead(Texts(values[..n]), sep, n == |values|) && (n == |values| || ReadsBack(values[n..], sep))
  }

  // ------------------------------------------------------------------------ one quoted value

  /** A successful parse has values; behind an opening quote the first one is quoted. */
  lemma ParsedHasValues(s: bytes, sep: bytes)
    requires sep != []
    ensures Parse(s, sep).Values? ==> Parse(s, sep).values != []
    ensures ParseQuoted(s, sep).Values? ==> ParseQuoted(s, sep).values != [] && ParseQuoted(s, sep).values[0].quoted
  {
    hide Parse, ParseQuoted;
    if Parse(s, sep).Values? { PrintOfParse(s, sep); }
    if ParseQuoted(s, sep).Values? { QuotedIsWellFormed(s, sep); }
  }

  lemma OnlyQuoted(v: TsvValue, sep: bytes)
    requires sep != [] && v.quoted
    ensures Parse(Print([v], sep), sep) == Values([v]) <==> Closes(v.value, sep, true)
  {
    hide Parse, ParseQuoted, Find;
    var s, line := v.value + [QUOTE], [QUOTE] + v.value + [QUOTE];
    PrintOne(v, sep);
    assert line[1..] == s && s[..|s| - 1] == v.value;
    ParseCases(line, sep);
    QuotedCases(s, sep);
    var i := Find(s, [QUOTE] + sep, 0);
    if i.Some? { ParsedHasValues(s[i.value + 1 + |sep|..], sep); }
  }

  lemma QuotedInFront(v: TsvValue, rest: seq<TsvValue>, sep: bytes)
    requires sep != [] && v.quoted && rest != []
    ensures Parse(Print([v] + rest, sep), sep) == Values([v] + rest)
      <==> Closes(v.value, sep, false) && Parse(Print(rest, sep), sep) == Values(rest)
  {
    hide Parse, ParseQuoted, Find, Print;
    var tail, mark := Print(rest, sep), [QUOTE] + sep;
    var s, line := v.value + mark + tail, Rendered(v) + sep + tail;
    PrintCons(v, rest, sep);
    Regrouped(v.value, sep, tail);
    assert line == [QUOTE] + s && line[1..] == s;
    ParseCases(line, sep);
    QuotedCases(s, sep);
    FindInFront(v.value, mark, tail);
    var i := Find(s, mark, 0).value;
    assert Find(s, mark, 0) == Some(i) && i <= |v.value|;
    if i == |v.value| {
      assert s[..i] == v.value && s[i + 1 + |sep|..] == tail;
      SameBehind([v], rest, Parse(tail, sep));
    } else {
      FirstIs(TsvValue(true, s[..i]), Parse(s[i + 1 + |sep|..], sep));
      assert ([v] + rest)[0] == v;
    }
  }

  lemma SameBehind(front: seq<TsvValue>, rest: seq<TsvValue>, outcome: Outcome)
    ensures Prepend(front, outcome) == Values(front + rest) <==> outcome == Values(rest)
  {
    if outcome.Values? && front + outcome.values == front + rest {
      assert outcome.values == (front + outcome.values)[|front|..] == rest;
    }
  }

  lemma FirstIs(v: TsvValue, outcome: Outcome)
    ensures Prepend([v], outcome).Values? ==> Prepend([v], outcome).values != [] && Prepend([v], outcome).values[0] == v
  {
  }

  // ------------------------------------------------------------------- a run of unquoted values

  lemma UnquotedTexts(values: seq<TsvValue>)
    requires forall i :: 0 <= i < |values| ==> !values[i].quoted
    ensures Unquoted(Texts(values)) == values
  {
  }

  lemma SameParts(a: seq<bytes>, b: seq<bytes>)
    ensures Unquoted(a) == Unquoted(b) <==> a == b
  {
    if Unquoted(a) == Unquoted(b) {
      assert |a| == |Unquoted(a)| == |b|;
      assert forall i :: 0 <= i < |a| ==> a[i] == Unquoted(a)[i].value == Unquoted(b)[i].value == b[i];
    }
  }

  lemma {:induction false} RunOfUnquoted(parts: seq<bytes>, rest: seq<TsvValue>)
    requires rest != [] ==> rest[0].quoted
    ensures RunLength(Unquoted(parts) + rest) == |parts|
    decreases |parts|
  {
    var values := Unquoted(parts) + rest;
    if parts == [] {
      assert values == rest;
    } else {
      assert values[1..] == Unquoted(parts[1..]) + rest;
      RunOfUnquoted(parts[1..], rest);
    }
  }

  /** A list falls into unquoted values and the rest from the first quoted one on in one way. */
  lemma SameRuns(a: seq<bytes>, c: seq<TsvValue>, b: seq<bytes>, d: seq<TsvValue>)
    requires (c != [] ==> c[0].quoted) && (d != [] ==> d[0].quoted)
    ensures Unquoted(a) + c == Unquoted(b) + d <==> a == b && c == d
  {
    RunOfUnquoted(a, c);
    RunOfUnquoted(b, d);
    var x, y := Unquoted(a) + c, Unquoted(b) + d;
    if x == y {
      assert Unquoted(a) == x[..|a|] == y[..|b|] == Unquoted(b) && c == x[|a|..] && d == y[|b|..];
      SameParts(a, b);
    }
  }

  lemma LastRun(parts: seq<bytes>, sep: bytes)
    requires sep != [] && parts != []
    ensures Parse(Join(parts, sep), sep) == Values(Unquoted(parts)) <==> RunIsRead(parts, sep, true)
  {
    hide Parse, ParseQuoted, Find, Split, Join;
    var s, mark := Join(parts, sep), sep + [QUOTE];
    ParseCases(s, sep);
    if s != [] {
      if s[0] == QUOTE {
        ParsedHasValues(s[1..], sep);
      } else {
        var i := Find(s, mark, 0);
        if i.None? {
          SameParts(Split(s, sep), parts);
          SplitOfJoinIff(parts, sep);
        } else {
          var rest := s[i.value + |sep| + 1..];
          ParsedHasValues(rest, sep);
          if ParseQuoted(rest, sep).Values? {
            SameRuns(Split(s[..i.value], sep), ParseQuoted(rest, sep).values, parts, []);
            assert Unquoted(parts) + [] == Unquoted(parts);
          }
        }
      }
    }
  }

  lemma RunInFront(parts: seq<bytes>, rest: seq<TsvValue>, sep: bytes)
    requires sep != [] && parts != [] && rest != [] && rest[0].quoted
    ensures Parse(Print(Unquoted(parts) + rest, sep), sep) == Values(Unquoted(parts) + rest)
      <==> RunIsRead(parts, sep, false) && Parse(Print(rest, sep), sep) == Values(rest)
  {
    hide Parse, ParseQuoted, Find, Split, Join, Print;
    var run, tail, mark := Join(parts, sep), Print(rest, sep), sep + [QUOTE];
    var s := run + sep + tail;
    PrintAppend(Unquoted(parts), rest, sep);
    PrintUnquoted(parts, sep);
    PrintStarts(rest, sep);
    assert tail == [QUOTE] + tail[1..];
    Regrouped(run, sep, tail[1..]);
    assert s == run + mark + tail[1..] && s[0] == (run + sep)[0];
    ParseCases(s, sep);
    ParseCases(tail, sep);
    if s[0] == QUOTE {
      ParsedHasValues(s[1..], sep);
      assert (Unquoted(parts) + rest)[0] == Unquoted(parts)[0];
    } else {
      FindInFront(run, mark, tail[1..]);
      RunIsCut(parts, rest, sep, s, Find(s, mark, 0).value);
    }
  }

  lemma RunIsCut(parts: seq<bytes>, rest: seq<TsvValue>, sep: bytes, s: bytes, i: nat)
    requires sep != [] && parts != [] && rest != [] && rest[0].quoted
    requires var run, tail := Join(parts, sep), Print(rest, sep);
      && tail != [] && tail[0] == QUOTE && s == run + sep + tail && s[0] != QUOTE && s[0] == (run + sep)[0]
      && Find(s, sep + [QUOTE], 0) == Some(i) == Find(run + (sep + [QUOTE]), sep + [QUOTE], 0) && i <= |run|
    ensures Parse(s, sep) == Values(Unquoted(parts) + rest)
      <==> RunIsRead(parts, sep, false) && Parse(Print(rest, sep), sep) == Values(rest)
  {
    hide Parse, ParseQuoted, Find, Split, Join, Print;
    var run, tail := Join(parts, sep), Print(rest, sep);
    ParseCases(s, sep);
    ParseCases(tail, sep);
    var front, behind := s[..i], s[i + |sep| + 1..];
    ParsedHasValues(behind, sep);
    JoinOfSplit(front, sep);
    SplitOfJoinIff(parts, sep);
    if ParseQuoted(behind, sep).Values? {
      SameRuns(Split(front, sep), ParseQuoted(behind, sep).values, parts, rest);
    }
    if i == |run| {
      assert front == run && behind == tail[1..];
    } else {
      assert |front| == i;
    }
  }

  /** For every delimiter: parsing a print gives the values back exactly if each closing quote is the first
      one that looks like one, and each run of unquoted values is cut where it should be. */
  lemma {:induction false} ParseOfPrintIff(values: seq<TsvValue>, sep: bytes)
    requires sep != []
    ensures Parse(Print(values, sep), sep) == Values(values) <==> ReadsBack(values, sep)
    decreases |values|
  {
    hide Parse, Print, Closes, RunIsRead, Join;
    if values == [] {
      NothingIsPrinted(sep);
    } else if values[0].quoted {
      var v, rest := values[0], values[1..];
      assert values == [v] + rest;
      if rest == [] {
        assert values == [v];
        OnlyQuoted(v, sep);
      } else {
        ParseOfPrintIff(rest, sep);
        QuotedInFront(v, rest, sep);
      }
    } else {
      var n := RunLength(values);
      var parts, rest := Texts(values[..n]), values[n..];
      UnquotedTexts(values[..n]);
      assert values == Unquoted(parts) + rest;
      if rest == [] {
        assert values == Unquoted(parts);
        PrintUnquoted(parts, sep);
        LastRun(parts, sep);
      } else {
        ParseOfPrintIff(rest, sep);
        RunInFront(parts, rest, sep);
      }
    }
  }

  lemma NothingIsPrinted(sep: bytes)
    requires sep != []
    ensures Parse(Print([], sep), sep) == Panic
  {
  }

  /** And a line is parsed exactly if it is the print of such values. */
  lemma ParsesIffReadBack(s: bytes, sep: bytes)
    requires sep != []
    ensures Parse(s, sep).Values? <==> exists values :: ReadsBack(values, sep) && Print(values, sep) == s
  {
    hide Parse, Print, ReadsBack;
    if Parse(s, sep).Values? {
      PrintOfParse(s, sep);
      ParseOfPrintIff(Parse(s, sep).values, sep);
    }
    if values :| ReadsBack(values, sep) && Print(values, sep) == s { ParseOfPrintIff(values, sep); }
  }

  /** For a delimiter without a quote these are the well-formed values. */
  lemma ReadsBackIsReads(values: seq<TsvValue>, sep: bytes)
    requires sep != [] && QUOTE !in sep
    ensures ReadsBack(values, sep) <==> Reads(values, sep, true)
  {
    hide Parse, Print, ReadsBack, Reads;
    ParseOfPrintIff(values, sep);
    ParseOfPrintIffWellFormed(values, sep);
  }

  // ------------------------------------------------------------ when the parser panics

  /** Values in front of a line's end that is missing: behind the delimiter of the last one, which is
      quoted, or in its opening quote. */
  predicate BreaksOff(values: seq<TsvValue>, sep: bytes, within: bool)
    decreases |values|
  {
    if values == [] then false
    else if |values| == 1 then
      values[0].quoted && if within then values[0].value == [] else Closes(values[0].value, sep, false)
    else if values[0].quoted then Closes(values[0].value, sep, false) && BreaksOff(values[1..], sep, within)
    else
      var n := RunLength(values);
      n < |values| && RunIsRead(Texts(values[..n]), sep, false) && BreaksOff(values[n..], sep, within)
  }

  lemma QuotedStepOfAny(v: TsvValue, sep: bytes, tail: bytes)
    requires sep != [] && v.quoted && Closes(v.value, sep, false)
    ensures Parse(Rendered(v) + sep + tail, sep) == Prepend([v], Parse(tail, sep))
  {
    hide Parse, ParseQuoted, Find, Prepend;
    var s, line := v.value + ([QUOTE] + sep) + tail, Rendered(v) + sep + tail;
    Regrouped(v.value, sep, tail);
    assert line == [QUOTE] + s && line[1..] == s;
    ParseCases(line, sep);
    QuotedCases(s, sep);
    FindInFront(v.value, [QUOTE] + sep, tail);
    assert s[..|v.value|] == v.value && s[|v.value| + 1 + |sep|..] == tail;
  }

  lemma RunStepOfAny(parts: seq<bytes>, sep: bytes, tail: bytes)
    requires sep != [] && parts != [] && RunIsRead(parts, sep, false) && tail != [] && tail[0] == QUOTE
    ensures Parse(Join(parts, sep) + sep + tail, sep) == Prepend(Unquoted(parts), Parse(tail, sep))
  {
    hide Parse, ParseQuoted, Find, Prepend, Split, Join;
    var run, mark := Join(parts, sep), sep + [QUOTE];
    var s := run + sep + tail;
    assert tail == [QUOTE] + tail[1..];
    Regrouped(run, sep, tail[1..]);
    assert s == run + mark + tail[1..] && s[0] == (run + sep)[0];
    FindInFront(run, mark, tail[1..]);
    ParseCases(s, sep);
    ParseCases(tail, sep);
    SplitOfJoinIff(parts, sep);
    assert s[..|run|] == run && s[|run| + |sep| + 1..] == tail[1..];
  }

  lemma {:induction false} BrokenRun(parts: seq<bytes>, more: seq<TsvValue>, sep: bytes, within: bool)
    requires parts != [] && more != []
    ensures Broken(Unquoted(parts) + more, sep, within) == Join(parts, sep) + sep + Broken(more, sep, within)
    decreases |parts|
  {
    var values := Unquoted(parts) + more;
    if |parts| == 1 {
      assert values[1..] == more;
    } else {
      assert values[1..] == Unquoted(parts[1..]) + more;
      BrokenRun(parts[1..], more, sep, within);
      hide Broken;
      Associative(parts[0] + sep, Join(parts[1..], sep), sep);
      Associative(parts[0] + sep, Join(parts[1..], sep) + sep, Broken(more, sep, within));
    }
  }

  lemma BrokenStartsWithQuote(values: seq<TsvValue>, sep: bytes, within: bool)
    requires values != [] && values[0].quoted
    ensures Broken(values, sep, within) != [] && Broken(values, sep, within)[0] == QUOTE
  {
  }

  lemma {:induction false} BreakingPanics(values: seq<TsvValue>, sep: bytes, within: bool)
    requires sep != [] && BreaksOff(values, sep, within)
    ensures Parse(Broken(values, sep, within), sep) == Panic
    decreases |values|
  {
    hide Parse, Closes, RunIsRead, Join;
    var v := values[0];
    if |values| == 1 {
      if within {
        PanicOfQuote(sep);
      } else {
        QuotedStepOfAny(v, sep, []);
        ParseCases([], sep);
        assert Rendered(v) + sep + [] == Rendered(v) + sep;
      }
    } else if v.quoted {
      BreakingPanics(values[1..], sep, within);
      QuotedStepOfAny(v, sep, Broken(values[1..], sep, within));
    } else {
      var n := RunLength(values);
      var parts, rest := Texts(values[..n]), values[n..];
      UnquotedTexts(values[..n]);
      assert values == Unquoted(parts) + rest;
      hide Broken, BreaksOff;
      BreakingPanics(rest, sep, within);
      BrokenStartsWithQuote(rest, sep, within);
      BrokenRun(parts, rest, sep, within);
      RunStepOfAny(parts, sep, Broken(rest, sep, within));
    }
  }

  /** What stands in front of the break. */
  lemma {:induction false} PanicIsBreaking(s: bytes, sep: bytes) returns (values: seq<TsvValue>, within: bool)
    requires sep != [] && s != [] && Parse(s, sep) == Panic
    ensures BreaksOff(values, sep, within) && Broken(values, sep, within) == s
    ensures s[0] == QUOTE ==> values[0].quoted
    decreases |s|, 1
  {
    hide Parse, ParseQuoted, Find, Split, Join, Broken, BreaksOff, RunIsRead;
    ParseCases(s, sep);
    if s[0] == QUOTE {
      values, within := QuotedIsBreaking(s[1..], sep);
      assert s == [QUOTE] + s[1..];
    } else {
      var i := Find(s, sep + [QUOTE], 0).value;
      var run, behind := s[..i], s[i + |sep| + 1..];
      CutAt(s, sep + [QUOTE], i);
      var more;
      more, within := QuotedIsBreaking(behind, sep);
      values := Unquoted(Split(run, sep)) + more;
      CutRunIsRead(s, sep, i);
      Regrouped(run, sep, behind);
      RunBreaks(Split(run, sep), more, sep, within);
      JoinOfSplit(run, sep);
      BrokenRun(Split(run, sep), more, sep, within);
    }
  }

  lemma CutRunIsRead(s: bytes, sep: bytes, i: nat)
    requires sep != [] && s != [] && s[0] != QUOTE && Find(s, sep + [QUOTE], 0) == Some(i)
    ensures RunIsRead(Split(s[..i], sep), sep, false)
  {
    hide Find, Split, Join;
    var run, parts, mark := s[..i], Split(s[..i], sep), sep + [QUOTE];
    CutAt(s, mark, i);
    var rest := s[i + |mark|..];
    assert s == run + mark + rest;
    FindInFront(run, mark, rest);
    JoinOfSplit(run, sep);
    SplitOfJoinIff(parts, sep);
    assert (run + sep)[0] == s[0] by { assert run + sep == s[..i + |sep|]; }
  }

  lemma RunBreaks(parts: seq<bytes>, more: seq<TsvValue>, sep: bytes, within: bool)
    requires parts != [] && RunIsRead(parts, sep, false) && more != [] && more[0].quoted && BreaksOff(more, sep, within)
    ensures BreaksOff(Unquoted(parts) + more, sep, within)
  {
    hide RunIsRead;
    var values, n := Unquoted(parts) + more, |parts|;
    RunOfUnquoted(parts, more);
    assert values[..n] == Unquoted(parts) && values[n..] == more;
    assert Texts(Unquoted(parts)) == parts;
  }

  lemma {:induction false} QuotedIsBreaking(s: bytes, sep: bytes) returns (values: seq<TsvValue>, within: bool)
    requires sep != [] && ParseQuoted(s, sep) == Panic
    ensures values != [] && values[0].quoted && BreaksOff(values, sep, within)
    ensures Broken(values, sep, within) == [QUOTE] + s
    decreases |s|, 0
  {
    hide Parse, ParseQuoted, Find;
    QuotedCases(s, sep);
    var i := Find(s, [QUOTE] + sep, 0);
    if i.Some? {
      var v, rest := TsvValue(true, s[..i.value]), s[i.value + 1 + |sep|..];
      CutAt(s, [QUOTE] + sep, i.value);
      FindInFront(v.value, [QUOTE] + sep, rest);
      Regrouped(v.value, sep, rest);
      if rest == [] {
        values, within := [v], false;
        assert Rendered(v) + sep + [] == Rendered(v) + sep;
      } else {
        var more;
        more, within := PanicIsBreaking(rest, sep);
        values := [v] + more;
        assert values[1..] == more;
      }
    } else {
      values, within := [TsvValue(true, [])], true;
    }
  }

  /** For every delimiter: exactly the empty line and the lines that break off make the parser slice
      behind the end. */
  lemma PanicsIffBreaksOff(s: bytes, sep: bytes)
    requires sep != []
    ensures Parse(s, sep) == Panic
      <==> s == [] || exists values, within :: BreaksOff(values, sep, within) && Broken(values, sep, within) == s
  {
    hide Parse, Broken;
    ParseCases(s, sep);
    if Parse(s, sep) == Panic && s != [] { var values, within := PanicIsBreaking(s, sep); }
    if values, within :| BreaksOff(values, sep, within) && Broken(values, sep, within) == s {
      BreakingPanics(values, sep, within);
    }
  }
}
