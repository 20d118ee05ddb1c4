/** Splitting a line into values, some of them quoted, and joining them again (format/processtsv.go). */
module ProcessTsv {
  import opened Utilities

  const QUOTE: byte := 34

  datatype TsvValue = TsvValue(quoted: bool, value: bytes)

  /** A quote that is not closed leaves the message as it is; slicing into an empty rest panics. */
  datatype Outcome = Values(values: seq<TsvValue>) | Unmatched | Panic

  // ------------------------------------------------------------------- strings

  predicate At(s: bytes, sep: bytes, i: nat) {
    i + |sep| <= |s| && forall k :: 0 <= k < |sep| ==> s[i + k] == sep[k]
  }

  /** The first place of `sep` at or behind `from`. */
  function Find(s: bytes, sep: bytes, from: nat): (i: Option<nat>)
    requires from <= |s|
    ensures i.Some? ==> from <= i.value && i.value + |sep| <= |s| && At(s, sep, i.value)
    ensures i.Some? ==> forall j :: from <= j < i.value ==> !At(s, sep, j)
    ensures i.None? ==> forall j :: from <= j <= |s| ==> !At(s, sep, j)
    decreases |s| - from
  {
    if At(s, sep, from) then Some(from) else if from < |s| then Find(s, sep, from + 1) else None
  }

  lemma FindIs(s: bytes, sep: bytes, i: nat)
    requires At(s, sep, i) && forall j :: 0 <= j < i ==> !At(s, sep, j)
    ensures Find(s, sep, 0) == Some(i)
  {
  }

  /** strings.Split for a separator that is not empty. */
  function Split(s: bytes, sep: bytes): (parts: seq<bytes>)
    requires sep != []
    ensures parts != []
    decreases |s|
  {
    match Find(s, sep, 0)
    case None => [s]
    case Some(i) => [s[..i]] + Split(s[i + |sep|..], sep)
  }

  /** strings.Join */
  function Join(parts: seq<bytes>, sep: bytes): bytes {
    if parts == [] then []
    else if |parts| == 1 then parts[0]
    else parts[0] + sep + Join(parts[1..], sep)
  }

  lemma {:induction false} JoinOfSplit(s: bytes, sep: bytes)
    requires sep != []
    ensures Join(Split(s, sep), sep) == s
    decreases |s|
  {
    var i := Find(s, sep, 0);
    if i.Some? {
      var rest := s[i.value + |sep|..];
      JoinOfSplit(rest, sep);
      assert Split(s, sep)[1..] == Split(rest, sep);
      assert s == s[..i.value] + sep + rest;
    }
  }

  lemma JoinCons(part: bytes, rest: seq<bytes>, sep: bytes)
    requires rest != []
    ensures Join([part] + rest, sep) == part + sep + Join(rest, sep)
  {
    assert ([part] + rest)[1..] == rest;
  }

  lemma {:induction false} JoinAppend(a: seq<bytes>, b: seq<bytes>, sep: bytes)
    requires a != [] && b != []
    ensures Join(a + b, sep) == Join(a, sep) + sep + Join(b, sep)
  {
    var part, rest := a[0], a[1..];
    if rest == [] {
      assert a == [part];
      JoinCons(part, b, sep);
    } else {
      assert a == [part] + rest && a + b == [part] + (rest + b);
      JoinAppend(rest, b, sep);
      hide Join;
      JoinCons(part, rest, sep);
      JoinCons(part, rest + b, sep);
      Associative(part + sep, Join(rest, sep), sep);
      Associative(part + sep, Join(rest, sep) + sep, Join(b, sep));
    }
  }

  // --------------------------------------------------------- parsing and printing

  function Unquoted(parts: seq<bytes>): (values: seq<TsvValue>)
    ensures |values| == |parts| && forall i :: 0 <= i < |parts| ==> values[i] == TsvValue(false, parts[i])
  {
    seq(|parts|, i requires 0 <= i < |parts| => TsvValue(false, parts[i]))
  }

  function Prepend(values: seq<TsvValue>, rest: Outcome): Outcome {
    if rest.Values? then Values(values + rest.values) else rest
  }

  /** The values of a line in quoted mode. */
  function Parse(s: bytes, sep: bytes): Outcome
    requires sep != []
    decreases |s|, 1
  {
    if s == [] then Panic
    else if s[0] == QUOTE then ParseQuoted(s[1..], sep)
    else
      match Find(s, sep + [QUOTE], 0)
      case None => Values(Unquoted(Split(s, sep)))
      case Some(i) => Prepend(Unquoted(Split(s[..i], sep)), ParseQuoted(s[i + |sep| + 1..], sep))
  }

  /** The same behind an opening quote. */
  function ParseQuoted(s: bytes, sep: bytes): Outcome
    requires sep != []
    decreases |s|, 0
  {
    match Find(s, [QUOTE] + sep, 0)
    case Some(i) => Prepend([TsvValue(true, s[..i])], Parse(s[i + 1 + |sep|..], sep))
    case None =>
      if s == [] then Panic
      else if s[|s| - 1] != QUOTE then Unmatched
      else Values([TsvValue(true, s[..|s| - 1])])
  }

  function Rendered(v: TsvValue): bytes { if v.quoted then [QUOTE] + v.value + [QUOTE] else v.value }

  function RenderedAll(values: seq<TsvValue>): (parts: seq<bytes>)
    ensures |parts| == |values| && forall i :: 0 <= i < |parts| ==> parts[i] == Rendered(values[i])
  {
    seq(|values|, i requires 0 <= i < |values| => Rendered(values[i]))
  }

  function Print(values: seq<TsvValue>, sep: bytes): bytes { Join(RenderedAll(values), sep) }

  /** The loop of Format in quoted mode. */
  method ParseLine(data: bytes, sep: bytes) returns (outcome: Outcome)
    requires sep != []
    ensures outcome == Parse(data, sep)
  {
    hide Split, Find, At, Prepend, Parse, ParseQuoted;
    var remainder, values := data, [];
    Prepends([], [], Parse(data, sep));
    while true
      invariant Prepend(values, Parse(remainder, sep)) == Parse(data, sep)
      decreases |remainder|
    {
      ParseCases(remainder, sep);
      if remainder == [] {
        Prepends(values, [], Panic);
        return Panic;
      }
      if remainder[0] != QUOTE {
        var i := Find(remainder, sep + [QUOTE], 0);
        if i.None? {
          Prepends(values, [], Parse(remainder, sep));
          return Values(values + Unquoted(Split(remainder, sep)));
        }
        var parts := Unquoted(Split(remainder[..i.value], sep));
        Prepends(values, parts, ParseQuoted(remainder[i.value + |sep| + 1..], sep));
        values := values + parts;
        remainder := remainder[i.value + |sep| + 1..];
      } else {
        remainder := remainder[1..];
      }
      assert Prepend(values, ParseQuoted(remainder, sep)) == Parse(data, sep);
      QuotedCases(remainder, sep);
      var i := Find(remainder, [QUOTE] + sep, 0);
      if i.None? {
        Prepends(values, [], ParseQuoted(remainder, sep));
        if remainder == [] { return Panic; }
        if remainder[|remainder| - 1] != QUOTE { return Unmatched; }
        return Values(values + [TsvValue(true, remainder[..|remainder| - 1])]);
      }
      var v := TsvValue(true, remainder[..i.value]);
      Prepends(values, [v], Parse(remainder[i.value + 1 + |sep|..], sep));
      values := values + [v];
      remainder := remainder[i.value + 1 + |sep|..];
    }
  }

  // The definitions again, to be used one step at a time.

  lemma ParseCases(s: bytes, sep: bytes)
    requires sep != []
    ensures s == [] ==> Parse(s, sep) == Panic
    ensures s != [] && s[0] == QUOTE ==> Parse(s, sep) == ParseQuoted(s[1..], sep)
    ensures s != [] && s[0] != QUOTE ==>
      match Find(s, sep + [QUOTE], 0)
      case None => Parse(s, sep) == Values(Unquoted(Split(s, sep)))
      case Some(i) =>
        Parse(s, sep) == Prepend(Unquoted(Split(s[..i], sep)), ParseQuoted(s[i + |sep| + 1..], sep))
  {
  }

  lemma QuotedCases(s: bytes, sep: bytes)
    requires sep != []
    ensures
      match Find(s, [QUOTE] + sep, 0)
      case None =>
        ParseQuoted(s, sep) ==
          if s == [] then Panic
          else if s[|s| - 1] != QUOTE then Unmatched
          else Values([TsvValue(true, s[..|s| - 1])])
      case Some(i) => ParseQuoted(s, sep) == Prepend([TsvValue(true, s[..i])], Parse(s[i + 1 + |sep|..], sep))
  {
  }

  lemma Prepends(a: seq<TsvValue>, b: seq<TsvValue>, rest: Outcome)
    ensures Prepend(a + b, rest) == Prepend(a, Prepend(b, rest))
    ensures Prepend(a, rest) == if rest.Values? then Values(a + rest.values) else rest
    ensures Prepend([], rest) == rest
  {
    if rest.Values? {
      assert a + b + rest.values == a + (b + rest.values);
      assert [] + rest.values == rest.values;
    }
  }

  /** Writing the values: each is rendered, then all are joined. */
  method PrintLine(values: seq<TsvValue>, sep: bytes) returns (line: bytes)
    ensures line == Print(values, sep)
  {
    var stringValues := new bytes[|values|];
    for i := 0 to |values|
      invariant forall j :: 0 <= j < i ==> stringValues[j] == Rendered(values[j])
    {
      stringValues[i] := if values[i].quoted then [QUOTE] + values[i].value + [QUOTE] else values[i].value;
    }
    assert stringValues[..] == RenderedAll(values);
    line := Join(stringValues[..], sep);
  }

  // --------------------------------------------------------- printing undoes parsing

  lemma PrintAppend(a: seq<TsvValue>, b: seq<TsvValue>, sep: bytes)
    requires a != [] && b != []
    ensures Print(a + b, sep) == Print(a, sep) + sep + Print(b, sep)
  {
    assert RenderedAll(a + b) == RenderedAll(a) + RenderedAll(b);
    JoinAppend(RenderedAll(a), RenderedAll(b), sep);
  }

  lemma PrintUnquoted(parts: seq<bytes>, sep: bytes)
    ensures Print(Unquoted(parts), sep) == Join(parts, sep)
  {
    assert RenderedAll(Unquoted(parts)) == parts;
  }

  lemma CutAt(s: bytes, sep: bytes, i: nat)
    requires At(s, sep, i)
    ensures i + |sep| <= |s|
    ensures s == s[..i] + sep + s[i + |sep|..]
  {
  }

  lemma PrintOne(v: TsvValue, sep: bytes)
    ensures Print([v], sep) == Rendered(v)
  {
  }

  /** Whenever the parse succeeds, printing its values gives the line back, for every delimiter. */
  lemma {:induction false} PrintOfParse(s: bytes, sep: bytes)
    requires sep != [] && Parse(s, sep).Values?
    ensures Parse(s, sep).values != [] && Print(Parse(s, sep).values, sep) == s
    decreases |s|, 1
  {
    hide Split, Join, Print, At;
    if s[0] == QUOTE {
      PrintOfQuoted(s[1..], sep);
      assert s == [QUOTE] + s[1..];
    } else {
      var i := Find(s, sep + [QUOTE], 0);
      if i.None? {
        JoinOfSplit(s, sep);
        PrintUnquoted(Split(s, sep), sep);
      } else {
        CutAt(s, sep + [QUOTE], i.value);
        PrintOfCut(s, sep, i.value);
      }
    }
  }

  lemma Regrouped(head: bytes, sep: bytes, rest: bytes)
    ensures head + sep + ([QUOTE] + rest) == head + (sep + [QUOTE]) + rest
    ensures [QUOTE] + (head + ([QUOTE] + sep) + rest) == [QUOTE] + head + [QUOTE] + sep + rest
  {
  }

  lemma PrintOfCut(s: bytes, sep: bytes, i: nat)
    requires sep != [] && i + |sep| + 1 <= |s| && s == s[..i] + (sep + [QUOTE]) + s[i + |sep| + 1..]
    requires ParseQuoted(s[i + |sep| + 1..], sep).Values?
    ensures Print(Unquoted(Split(s[..i], sep)) + ParseQuoted(s[i + |sep| + 1..], sep).values, sep) == s
    decreases |s|, 0
  {
    hide Split, Join, Print, ParseQuoted;
    var head, rest := s[..i], s[i + |sep| + 1..];
    JoinOfSplit(head, sep);
    PrintUnquoted(Split(head, sep), sep);
    PrintOfQuoted(rest, sep);
    PrintAppend(Unquoted(Split(head, sep)), ParseQuoted(rest, sep).values, sep);
    Regrouped(head, sep, rest);
  }

  lemma {:induction false} PrintOfQuoted(s: bytes, sep: bytes)
    requires sep != [] && ParseQuoted(s, sep).Values?
    ensures ParseQuoted(s, sep).values != [] && Print(ParseQuoted(s, sep).values, sep) == [QUOTE] + s
    decreases |s|, 0
  {
    hide Split, Join, Print, At, Find;
    var i := Find(s, [QUOTE] + sep, 0);
    if i.None? {
      var v := TsvValue(true, s[..|s| - 1]);
      PrintOne(v, sep);
      assert [QUOTE] + s == Rendered(v);
    } else {
      CutAt(s, [QUOTE] + sep, i.value);
      var v, rest := TsvValue(true, s[..i.value]), s[i.value + 1 + |sep|..];
      PrintOfParse(rest, sep);
      PrintOne(v, sep);
      PrintAppend([v], Parse(rest, sep).values, sep);
      Regrouped(v.value, sep, rest);
    }
  }

  // ------------------------------------------------ without quotes, for every delimiter

  /** The delimiter begins nowhere in the part, not even together with the delimiter behind it. */
  predicate Clean(part: bytes, sep: bytes, last: bool) {
    if last then Find(part, sep, 0) == None else Find(part + sep, sep, 0) == Some(|part|)
  }

  /** Where the delimiter is found first, in front of anything. */
  lemma FindInFront(part: bytes, sep: bytes, rest: bytes)
    requires sep != []
    ensures Find(part + sep, sep, 0).Some? && Find(part + sep, sep, 0).value <= |part|
    ensures Find(part + sep + rest, sep, 0) == Find(part + sep, sep, 0)
  {
    var head := part + sep;
    assert At(head, sep, |part|);
    var i := Find(head, sep, 0).value;
    hide At, Find;
    forall j: nat | j <= i ensures At(head + rest, sep, j) <==> At(head, sep, j) { AtInFront(head, rest, sep, j); }
    FindIs(head + rest, sep, i);
  }

  lemma AtInFront(head: bytes, rest: bytes, sep: bytes, j: nat)
    requires j + |sep| <= |head|
    ensures At(head + rest, sep, j) <==> At(head, sep, j)
  {
    assert forall k :: 0 <= k < |head| ==> (head + rest)[k] == head[k];
  }

  /** Without quotes: splitting undoes joining exactly for lists of clean parts. */
  lemma {:induction false} SplitOfJoinIff(parts: seq<bytes>, sep: bytes)
    requires sep != []
    ensures Split(Join(parts, sep), sep) == parts
      <==> parts != [] && forall i :: 0 <= i < |parts| ==> Clean(parts[i], sep, i == |parts| - 1)
  {
    if |parts| == 1 {
      SplitOfLast(parts[0], sep);
      assert parts == [parts[0]];
    } else if |parts| > 1 {
      var part, rest := parts[0], parts[1..];
      SplitOfJoinIff(rest, sep);
      SplitOfMore(part, rest, sep);
      assert parts == [part] + rest;
      assert forall i :: 1 <= i < |parts| ==> parts[i] == rest[i - 1];
    }
  }

  lemma SplitOfLast(part: bytes, sep: bytes)
    requires sep != []
    ensures Split(part, sep) == [part] <==> Clean(part, sep, true)
  {
    var i := Find(part, sep, 0);
    if i.Some? { assert Split(part, sep) == [part[..i.value]] + Split(part[i.value + |sep|..], sep); }
  }

  lemma SplitOfMore(part: bytes, rest: seq<bytes>, sep: bytes)
    requires sep != [] && rest != []
    ensures Split(Join([part] + rest, sep), sep) == [part] + rest
      <==> Clean(part, sep, false) && Split(Join(rest, sep), sep) == rest
  {
    hide At, Find;
    var tail := Join(rest, sep);
    var line := part + sep + tail;
    assert ([part] + rest)[1..] == rest && Join([part] + rest, sep) == line;
    FindInFront(part, sep, tail);
    var i := Find(line, sep, 0).value;
    var parts := [line[..i]] + Split(line[i + |sep|..], sep);
    assert Split(line, sep) == parts;
    if i == |part| {
      assert line[..i] == part && line[i + |sep|..] == tail;
      assert parts[1..] == Split(tail, sep) && ([part] + rest)[1..] == rest;
    } else {
      assert parts[0] != ([part] + rest)[0];
    }
  }

  lemma NoPlace(s: bytes, d: byte, sep: bytes)
    requires d !in s && d in sep
    ensures Find(s, sep, 0) == None
  {
    var k :| 0 <= k < |sep| && sep[k] == d;
    forall i: nat | i + |sep| <= |s| ensures !At(s, sep, i) { assert s[i + k] in s; }
  }

  /** A delimiter of one byte must not occur at all. */
  lemma CleanOfByte(part: bytes, d: byte, last: bool)
    ensures Clean(part, [d], last) <==> d !in part
  {
    if d in part {
      var k :| 0 <= k < |part| && part[k] == d;
      assert At(part, [d], k) && At(part + [d], [d], k);
    } else {
      NoPlace(part, d, [d]);
      assert [d][0] == d;
      assert forall j :: 0 <= j < |part| ==> (part + [d])[j + 0] == part[j];
      FindIs(part + [d], [d], |part|);
    }
  }

  // ------------------------------ parsing undoes printing, for a delimiter without quotes

  /** `m` occurs nowhere. */
  predicate Lacks(s: bytes, m: bytes) { forall j :: 0 <= j <= |s| ==> !At(s, m, j) }

  /** Values that are read back as themselves.  A quoted one must not have a quote in front of a
      delimiter.  An unquoted one must be clean; it must not start with a quote where the parser looks
      for one, and otherwise, together with the delimiter in front of it, must not have a delimiter in
      front of a quote.  An empty unquoted value can not be last on its own or behind a quoted one. */
  predicate Reads(values: seq<TsvValue>, sep: bytes, first: bool) {
    if values == [] then false
    else
      var v, rest := values[0], values[1..];
      && ReadsOne(v, sep, first, rest == [] || rest[0].quoted)
      && if rest == [] then !(first && v == TsvValue(false, [])) else Reads(rest, sep, v.quoted)
  }

  predicate ReadsOne(v: TsvValue, sep: bytes, first: bool, last: bool) {
    if v.quoted then Lacks(v.value, [QUOTE] + sep)
    else
      && Clean(v.value, sep, last)
      && if first then v.value == [] || v.value[0] != QUOTE else Lacks(sep + v.value, sep + [QUOTE])
  }

  lemma CleanLacks(v: bytes, sep: bytes, last: bool)
    requires sep != [] && Clean(v, sep, last)
    ensures Lacks(v, sep)
  {
    if !last {
      forall j: nat | j <= |v| ensures !At(v, sep, j) {
        if j + |sep| <= |v| { AtInFront(v, sep, sep, j); }
      }
    }
  }

  /** The mark in front of a quoted value does not begin in what is in front of it. */
  lemma NoOpenInside(v: bytes, sep: bytes, rest: bytes)
    requires sep != [] && QUOTE !in sep && Lacks(v, sep)
    ensures forall j :: 0 <= j < |v| ==> !At(v + sep + rest, sep + [QUOTE], j)
  {
    var s := v + sep + rest;
    assert s == v + (sep + rest);
    forall j: nat | j < |v| ensures !At(s, sep + [QUOTE], j) {
      MarkIs(s, sep, j);
      if j + |sep| < |v| { AtInFront(v, sep + rest, sep, j); } else { assert s[j + |sep|] == sep[j + |sep| - |v|]; }
    }
  }

  lemma MarkIs(s: bytes, sep: bytes, j: nat)
    ensures At(s, sep + [QUOTE], j) <==> At(s, sep, j) && j + |sep| < |s| && s[j + |sep|] == QUOTE
  {
    var mark := sep + [QUOTE];
    assert mark[|sep|] == QUOTE && forall k :: 0 <= k < |sep| ==> mark[k] == sep[k];
  }

  /** A line that starts with an unquoted value. */
  predicate StartsWith(line: bytes, v: bytes, sep: bytes) {
    line == v || (|line| >= |v| + |sep| && line[..|v| + |sep|] == v + sep)
  }

  /** Nor in the delimiter in front of an unquoted value. */
  lemma NoOpenInGap(v: bytes, sep: bytes, rest: bytes)
    requires QUOTE !in sep && Lacks(sep + v, sep + [QUOTE]) && StartsWith(rest, v, sep)
    ensures forall j :: 0 <= j < |sep| ==> !At(sep + rest, sep + [QUOTE], j)
  {
    var s, mark := sep + rest, sep + [QUOTE];
    if rest != v { assert rest == v + sep + rest[|v| + |sep|..]; }
    assert s == sep + v + rest[|v|..];
    forall j: nat | j < |sep| ensures !At(s, mark, j) {
      MarkIs(s, sep, j);
      if j < |v| {
        AtInFront(sep + v, rest[|v|..], mark, j);
      } else if rest != v {
        assert s[j + |sep|] == rest[j] == sep[j - |v|];
      }
    }
  }

  lemma Shifted(head: bytes, rest: bytes, mark: bytes, j: nat)
    ensures At(head + rest, mark, |head| + j) <==> At(rest, mark, j)
  {
    assert (head + rest)[|head|..] == rest;
  }

  lemma NoOpenBefore(v: bytes, sep: bytes, rest: bytes)
    requires sep != [] && QUOTE !in sep && Lacks(v, sep)
    requires forall j :: 0 <= j < |sep| ==> !At(sep + rest, sep + [QUOTE], j)
    ensures forall j :: 0 <= j < |v + sep| ==> !At(v + sep + rest, sep + [QUOTE], j)
  {
    hide At, Lacks;
    NoOpenInside(v, sep, rest);
    assert v + sep + rest == v + (sep + rest);
    forall j: nat | |v| <= j < |v + sep| ensures !At(v + sep + rest, sep + [QUOTE], j) {
      Shifted(v, sep + rest, sep + [QUOTE], j - |v|);
    }
  }

  lemma SplitOne(v: bytes, sep: bytes)
    requires sep != [] && Clean(v, sep, true)
    ensures Split(v, sep) == [v]
  {
  }

  lemma SplitCons(v: bytes, sep: bytes, rest: bytes)
    requires sep != [] && Clean(v, sep, false)
    ensures Split(v + sep + rest, sep) == [v] + Split(rest, sep)
  {
    hide At, Find;
    FindInFront(v, sep, rest);
    var s := v + sep + rest;
    assert s[..|v|] == v && s[|v| + |sep|..] == rest;
  }

  lemma NotQuoted(v: bytes, sep: bytes, rest: bytes)
    requires sep != [] && QUOTE !in sep && (v == [] || v[0] != QUOTE)
    ensures v + sep + rest != [] && (v + sep + rest)[0] != QUOTE
  {
    assert (v + sep + rest)[0] == if v == [] then sep[0] else v[0];
  }

  /** An unquoted value in front of a quote. */
  lemma BeforeQuoted(v: bytes, sep: bytes, rest: bytes)
    requires sep != [] && QUOTE !in sep && Clean(v, sep, true) && (v == [] || v[0] != QUOTE)
    requires rest != [] && rest[0] == QUOTE
    ensures Parse(v + sep + rest, sep) == Prepend([TsvValue(false, v)], Parse(rest, sep))
  {
    hide Parse, ParseQuoted, Split, Find, Prepend, Lacks, Clean;
    var s := v + sep + rest;
    CleanLacks(v, sep, true);
    NoOpenInside(v, sep, rest);
    OpensAt(v, sep, rest);
    hide At;
    FindIs(s, sep + [QUOTE], |v|);
    NotQuoted(v, sep, rest);
    ParseCases(s, sep);
    ParseCases(rest, sep);
    assert s[..|v|] == v && s[|v| + |sep| + 1..] == rest[1..];
    SplitOne(v, sep);
    assert Unquoted([v]) == [TsvValue(false, v)];
  }

  lemma OpensAt(v: bytes, sep: bytes, rest: bytes)
    requires rest != [] && rest[0] == QUOTE
    ensures At(v + sep + rest, sep + [QUOTE], |v|)
  {
    var s := v + sep + rest;
    assert s[|v| + |sep|] == QUOTE;
    assert forall k :: 0 <= k < |sep| ==> s[|v| + k] == sep[k] == (sep + [QUOTE])[k];
  }

  /** An unquoted value in front of another one. */
  lemma BeforeUnquoted(v: bytes, sep: bytes, rest: bytes)
    requires sep != [] && QUOTE !in sep && Clean(v, sep, false) && (v == [] || v[0] != QUOTE)
    requires rest != [] && rest[0] != QUOTE
    requires forall j :: 0 <= j < |sep| ==> !At(sep + rest, sep + [QUOTE], j)
    ensures Parse(v + sep + rest, sep) == Prepend([TsvValue(false, v)], Parse(rest, sep))
  {
    hide At, Lacks, Clean;
    CleanLacks(v, sep, false);
    NoOpenBefore(v, sep, rest);
    NotQuoted(v, sep, rest);
    var i := Find(rest, sep + [QUOTE], 0);
    if i.Some? { BeforeMarked(v, sep, rest, i.value); } else { BeforeUnmarked(v, sep, rest); }
  }

  lemma BeforeMarked(v: bytes, sep: bytes, rest: bytes, i: nat)
    requires sep != [] && Clean(v, sep, false) && rest != [] && rest[0] != QUOTE
    requires (v + sep + rest)[0] != QUOTE && Find(rest, sep + [QUOTE], 0) == Some(i)
    requires forall j :: 0 <= j < |v + sep| ==> !At(v + sep + rest, sep + [QUOTE], j)
    ensures Parse(v + sep + rest, sep) == Prepend([TsvValue(false, v)], Parse(rest, sep))
  {
    hide At, Parse, ParseQuoted, Split, Find, Prepend, Clean;
    var s, n := v + sep + rest, |v + sep|;
    ShiftedFind(v + sep, rest, sep + [QUOTE], i);
    ParseCases(rest, sep);
    ParseCases(s, sep);
    var run, more := rest[..i], rest[i + |sep| + 1..];
    assert s[..n + i] == v + sep + run && s[n + i + |sep| + 1..] == more;
    SplitCons(v, sep, run);
    UnquotedCons(v, Split(run, sep));
    Prepends([TsvValue(false, v)], Unquoted(Split(run, sep)), ParseQuoted(more, sep));
  }

  lemma BeforeUnmarked(v: bytes, sep: bytes, rest: bytes)
    requires sep != [] && Clean(v, sep, false) && rest != [] && rest[0] != QUOTE
    requires (v + sep + rest)[0] != QUOTE && Find(rest, sep + [QUOTE], 0) == None
    requires forall j :: 0 <= j < |v + sep| ==> !At(v + sep + rest, sep + [QUOTE], j)
    ensures Parse(v + sep + rest, sep) == Prepend([TsvValue(false, v)], Parse(rest, sep))
  {
    hide At, Parse, ParseQuoted, Split, Find, Prepend, Clean;
    NotShifted(v + sep, rest, sep + [QUOTE]);
    ParseCases(rest, sep);
    ParseCases(v + sep + rest, sep);
    SplitCons(v, sep, rest);
    UnquotedCons(v, Split(rest, sep));
    Prepends([TsvValue(false, v)], [], Parse(rest, sep));
  }

  lemma UnquotedCons(v: bytes, parts: seq<bytes>)
    ensures Unquoted([v] + parts) == [TsvValue(false, v)] + Unquoted(parts)
  {
  }

  lemma ShiftedFind(head: bytes, rest: bytes, mark: bytes, i: nat)
    requires Find(rest, mark, 0) == Some(i)
    requires forall j :: 0 <= j < |head| ==> !At(head + rest, mark, j)
    ensures Find(head + rest, mark, 0) == Some(|head| + i)
  {
    hide At, Find;
    var s := head + rest;
    forall j: nat | |head| <= j <= |head| + i ensures At(s, mark, j) <==> At(rest, mark, j - |head|) {
      Shifted(head, rest, mark, j - |head|);
    }
    FindIs(s, mark, |head| + i);
  }

  lemma NotShifted(head: bytes, rest: bytes, mark: bytes)
    requires Find(rest, mark, 0) == None
    requires forall j :: 0 <= j < |head| ==> !At(head + rest, mark, j)
    ensures Find(head + rest, mark, 0) == None
  {
    hide At, Find;
    var s := head + rest;
    forall j: nat | |head| <= j <= |s| ensures !At(s, mark, j) { Shifted(head, rest, mark, j - |head|); }
  }

  /** The closing quote does not end a mark that starts in the value. */
  lemma NoCloseInside(v: bytes, sep: bytes, rest: bytes)
    requires QUOTE !in sep && Lacks(v, [QUOTE] + sep)
    ensures forall j :: 0 <= j < |v| ==> !At(v + [QUOTE] + rest, [QUOTE] + sep, j)
  {
    var s, mark := v + [QUOTE] + rest, [QUOTE] + sep;
    assert s == v + ([QUOTE] + rest);
    forall j: nat | j < |v| ensures !At(s, mark, j) {
      if j + |mark| <= |v| {
        AtInFront(v, [QUOTE] + rest, mark, j);
      } else {
        assert s[j + (|v| - j)] == QUOTE && mark[|v| - j] == sep[|v| - j - 1];
      }
    }
  }

  /** A quoted value in front of more. */
  lemma QuotedStep(v: bytes, sep: bytes, rest: bytes)
    requires sep != [] && QUOTE !in sep && Lacks(v, [QUOTE] + sep)
    ensures Parse([QUOTE] + v + [QUOTE] + sep + rest, sep) == Prepend([TsvValue(true, v)], Parse(rest, sep))
  {
    hide At, Find, Parse, ParseQuoted, Lacks, Prepend;
    var s, line := v + [QUOTE] + (sep + rest), [QUOTE] + v + [QUOTE] + sep + rest;
    QuotedLine(v, sep, rest);
    NoCloseInside(v, sep, sep + rest);
    ClosesAt(v, sep, rest);
    FindIs(s, [QUOTE] + sep, |v|);
    ParseCases(line, sep);
    QuotedCases(s, sep);
  }

  lemma QuotedLine(v: bytes, sep: bytes, rest: bytes)
    ensures var s, line := v + [QUOTE] + (sep + rest), [QUOTE] + v + [QUOTE] + sep + rest;
      && line != [] && line[0] == QUOTE && line[1..] == s
      && s[..|v|] == v && s[|v| + 1 + |sep|..] == rest
  {
    Associative([QUOTE] + v + [QUOTE], sep, rest);
    assert [QUOTE] + v + [QUOTE] + (sep + rest) == [QUOTE] + (v + [QUOTE] + (sep + rest));
  }

  lemma ClosesAt(v: bytes, sep: bytes, rest: bytes)
    ensures At(v + [QUOTE] + (sep + rest), [QUOTE] + sep, |v|)
  {
    assert v + [QUOTE] + (sep + rest) == v + ([QUOTE] + sep) + rest;
    assert (v + ([QUOTE] + sep) + rest)[|v|..|v| + 1 + |sep|] == [QUOTE] + sep;
  }

  lemma LastQuoted(v: bytes, sep: bytes)
    requires sep != [] && QUOTE !in sep && Lacks(v, [QUOTE] + sep)
    ensures Parse([QUOTE] + v + [QUOTE], sep) == Values([TsvValue(true, v)])
  {
    var s, line := v + [QUOTE], [QUOTE] + v + [QUOTE];
    assert line[1..] == s && line[0] == QUOTE;
    assert v + [QUOTE] + [] == s;
    NoCloseInside(v, sep, []);
    assert Find(s, [QUOTE] + sep, 0) == None;
    hide At, Find, Parse, ParseQuoted, Lacks;
    ParseCases(line, sep);
    QuotedCases(s, sep);
    assert s[..|s| - 1] == v;
  }

  lemma LastUnquoted(v: bytes, sep: bytes)
    requires sep != [] && Clean(v, sep, true) && v != [] && v[0] != QUOTE
    ensures Parse(v, sep) == Values([TsvValue(false, v)])
  {
    NoOpenWithout(v, sep);
    hide At, Find, Parse, ParseQuoted, Clean;
    ParseCases(v, sep);
    SplitOne(v, sep);
    assert Unquoted([v]) == [TsvValue(false, v)];
  }

  lemma NoOpenWithout(v: bytes, sep: bytes)
    requires sep != [] && Clean(v, sep, true)
    ensures Find(v, sep + [QUOTE], 0) == None
  {
    CleanLacks(v, sep, true);
    forall j: nat | j <= |v| ensures !At(v, sep + [QUOTE], j) { MarkIs(v, sep, j); }
  }

  /** An unquoted value and an empty one. */
  lemma LastEmpty(v: bytes, sep: bytes)
    requires sep != [] && QUOTE !in sep && Clean(v, sep, false) && (v == [] || v[0] != QUOTE)
    ensures Parse(v + sep, sep) == Values([TsvValue(false, v), TsvValue(false, [])])
  {
    var s := v + sep;
    assert v + sep + [] == s;
    CleanLacks(v, sep, false);
    NoOpenInside(v, sep, []);
    assert Find(s, sep + [QUOTE], 0) == None && Find([], sep, 0) == None;
    hide At, Find, Parse, ParseQuoted, Clean, Split;
    NotQuoted(v, sep, []);
    ParseCases(s, sep);
    SplitCons(v, sep, []);
    assert Split([], sep) == [[]] by { SplitOfNothing(sep); }
    assert Unquoted([v] + [[]]) == [TsvValue(false, v), TsvValue(false, [])];
  }

  lemma SplitOfNothing(sep: bytes)
    requires sep != []
    ensures Split([], sep) == [[]]
  {
  }

  lemma PrintCons(v: TsvValue, rest: seq<TsvValue>, sep: bytes)
    requires rest != []
    ensures Print([v] + rest, sep) == Rendered(v) + sep + Print(rest, sep)
  {
    PrintAppend([v], rest, sep);
    PrintOne(v, sep);
  }

  /** How a line starts and when it is empty. */
  lemma PrintStarts(values: seq<TsvValue>, sep: bytes)
    requires values != [] && sep != []
    ensures var line, v := Print(values, sep), values[0];
      && (v.quoted ==> line != [] && line[0] == QUOTE)
      && (!v.quoted ==> StartsWith(line, v.value, sep))
      && (line == [] <==> values == [TsvValue(false, [])])
  {
    if |values| == 1 {
      PrintOne(values[0], sep);
      assert values == [values[0]];
    } else {
      assert values == [values[0]] + values[1..];
      PrintCons(values[0], values[1..], sep);
      var line, v := Print(values, sep), values[0];
      if !v.quoted { assert line[..|v.value| + |sep|] == v.value + sep; }
    }
  }

  /** An unquoted value does not start with a quote. */
  lemma ReadsNotQuote(v: TsvValue, sep: bytes, first: bool, last: bool)
    requires !v.quoted && ReadsOne(v, sep, first, last)
    ensures v.value == [] || v.value[0] != QUOTE
  {
    if !first && v.value != [] && v.value[0] == QUOTE {
      assert forall k :: 0 <= k < |sep + [QUOTE]| ==> (sep + v.value)[0 + k] == (sep + [QUOTE])[k];
      assert At(sep + v.value, sep + [QUOTE], 0);
    }
  }

  lemma ReadsUnfold(values: seq<TsvValue>, sep: bytes, first: bool)
    requires Reads(values, sep, first)
    ensures values != []
    ensures var v, rest := values[0], values[1..];
      && ReadsOne(v, sep, first, rest == [] || rest[0].quoted)
      && (rest == [] ==> !(first && v == TsvValue(false, [])))
      && (rest != [] ==> Reads(rest, sep, v.quoted))
  {
  }

  /** Parsing the print of such values gives them back, with their quoted flags. */
  lemma {:induction false} ParseOfPrint(values: seq<TsvValue>, sep: bytes, first: bool)
    requires sep != [] && QUOTE !in sep && Reads(values, sep, first) && Print(values, sep) != []
    ensures Parse(Print(values, sep), sep) == Values(values)
    decreases |values|
  {
    hide Reads, ReadsOne, Parse, Print, At, Clean, Lacks, Find;
    ReadsUnfold(values, sep, first);
    var v, rest := values[0], values[1..];
    if rest == [] {
      assert values == [v];
      PrintOne(v, sep);
      LastOfLine(v, sep, first);
    } else {
      assert values == [v] + rest;
      PrintCons(v, rest, sep);
      PrintStarts(rest, sep);
      var line := Print(rest, sep);
      if line == [] {
        assert v.quoted ==> false by { if v.quoted { ReadsUnfold(rest, sep, true); } }
        EmptyBehind(v, sep, first);
        assert Rendered(v) + sep + [] == v.value + sep;
      } else {
        ParseOfPrint(rest, sep, v.quoted);
        if !v.quoted && !rest[0].quoted { NextLacks(rest, sep); }
        FirstOfLine(v, rest, sep, first, line);
      }
    }
  }

  lemma NextLacks(rest: seq<TsvValue>, sep: bytes)
    requires Reads(rest, sep, false) && !rest[0].quoted
    ensures Lacks(sep + rest[0].value, sep + [QUOTE])
  {
  }

  lemma LastOfLine(v: TsvValue, sep: bytes, first: bool)
    requires sep != [] && QUOTE !in sep && ReadsOne(v, sep, first, true) && Rendered(v) != []
    ensures Parse(Rendered(v), sep) == Values([v])
  {
    hide Parse, At, Clean, Lacks;
    if v.quoted {
      LastQuoted(v.value, sep);
    } else {
      ReadsNotQuote(v, sep, first, true);
      LastUnquoted(v.value, sep);
    }
  }

  lemma EmptyBehind(v: TsvValue, sep: bytes, first: bool)
    requires sep != [] && QUOTE !in sep && !v.quoted && ReadsOne(v, sep, first, false)
    ensures Parse(v.value + sep, sep) == Values([v, TsvValue(false, [])])
  {
    hide Parse, At, Clean, Lacks;
    ReadsNotQuote(v, sep, first, false);
    LastEmpty(v.value, sep);
  }

  /** One value in front of a line of others. */
  lemma FirstOfLine(v: TsvValue, rest: seq<TsvValue>, sep: bytes, first: bool, line: bytes)
    requires sep != [] && QUOTE !in sep && rest != [] && line != []
    requires ReadsOne(v, sep, first, rest[0].quoted)
    requires rest[0].quoted ==> line[0] == QUOTE
    requires !rest[0].quoted ==> StartsWith(line, rest[0].value, sep)
    requires !v.quoted && !rest[0].quoted ==> Lacks(sep + rest[0].value, sep + [QUOTE])
    ensures Parse(Rendered(v) + sep + line, sep) == Prepend([v], Parse(line, sep))
  {
    hide Parse, At, Clean, Lacks, Prepend;
    if v.quoted {
      QuotedStep(v.value, sep, line);
      assert Rendered(v) + sep + line == [QUOTE] + v.value + [QUOTE] + sep + line;
    } else {
      ReadsNotQuote(v, sep, first, rest[0].quoted);
      if rest[0].quoted {
        BeforeQuoted(v.value, sep, line);
      } else {
        NoOpenInGap(rest[0].value, sep, line);
        StartsNoQuote(rest[0].value, sep, line);
        BeforeUnquoted(v.value, sep, line);
      }
    }
  }

  lemma StartsNoQuote(v: bytes, sep: bytes, line: bytes)
    requires sep != [] && QUOTE !in sep && Lacks(sep + v, sep + [QUOTE]) && StartsWith(line, v, sep) && line != []
    ensures line[0] != QUOTE
  {
    if v == [] {
      assert line[0] == line[..|v| + |sep|][0] == sep[0];
    } else {
      QuoteIsMarked(v, sep);
      assert line != v ==> line[0] == line[..|v| + |sep|][0] == v[0];
    }
  }

  lemma QuoteIsMarked(v: bytes, sep: bytes)
    requires v != [] && Lacks(sep + v, sep + [QUOTE])
    ensures v[0] != QUOTE
  {
    if v[0] == QUOTE {
      assert forall k :: 0 <= k < |sep + [QUOTE]| ==> (sep + v)[0 + k] == (sep + [QUOTE])[k];
      assert At(sep + v, sep + [QUOTE], 0);
    }
  }

  // --------------------------------------- and nothing but such values comes out of a parse

  lemma LacksPart(s: bytes, m: bytes, i: nat, n: nat)
    requires i <= n <= |s| && Lacks(s, m)
    ensures Lacks(s[i..n], m)
  {
    forall j: nat | j <= n - i ensures !At(s[i..n], m, j) { AtPart(s, m, i, n, j); }
  }

  lemma AtPart(s: bytes, m: bytes, i: nat, n: nat, j: nat)
    requires i <= n <= |s|
    ensures At(s[i..n], m, j) ==> At(s, m, i + j)
  {
    assert forall k :: 0 <= k < n - i ==> s[i..n][k] == s[i + k];
    if At(s[i..n], m, j) {
      assert forall k :: 0 <= k < |m| ==> s[i + j + k] == s[i..n][j + k] == m[k];
    }
  }

  /** In front of the first place there is none. */
  lemma LacksBefore(s: bytes, m: bytes, i: nat)
    requires m != [] && i <= |s| && forall j :: 0 <= j < i ==> !At(s, m, j)
    ensures Lacks(s[..i], m)
  {
    forall j: nat | j <= i ensures !At(s[..i], m, j) {
      assert s[0..i] == s[..i];
      AtPart(s, m, 0, i, j);
    }
  }

  /** Where the parser has nothing or a quoted value behind a run of unquoted ones. */
  predicate ReadsBehind(more: seq<TsvValue>, sep: bytes) {
    more == [] || (more[0].quoted && Reads(more, sep, true))
  }

  /** The parts of a run without a mark, with what is read behind it. */
  lemma {:induction false} RunReads(h: bytes, more: seq<TsvValue>, sep: bytes, first: bool)
    requires sep != [] && ReadsBehind(more, sep)
    requires if first then h == [] || h[0] != QUOTE else Lacks(sep + h, sep + [QUOTE])
    requires Lacks(h, sep + [QUOTE]) && (more == [] && first ==> h != [])
    ensures Reads(Unquoted(Split(h, sep)) + more, sep, first)
    decreases |h|
  {
    hide At, Find, Lacks, Clean, Reads;
    var i := Find(h, sep, 0);
    if i.None? {
      assert Clean(h, sep, true) by { WholeIsClean(h, sep); }
      ReadsFold(TsvValue(false, h), more, sep, first);
      assert Unquoted([h]) + more == [TsvValue(false, h)] + more;
    } else {
      var v, tail := h[..i.value], h[i.value + |sep|..];
      CutAt(h, sep, i.value);
      HeadReads(v, tail, sep, first);
      RunReads(tail, more, sep, false);
      UnquotedCons(v, Split(tail, sep));
      var rest := Unquoted(Split(tail, sep)) + more;
      ReadsFold(TsvValue(false, v), rest, sep, first);
      assert [TsvValue(false, v)] + Unquoted(Split(tail, sep)) + more == [TsvValue(false, v)] + rest;
    }
  }

  lemma WholeIsClean(h: bytes, sep: bytes)
    requires Find(h, sep, 0) == None
    ensures Clean(h, sep, true)
  {
  }

  lemma HeadReads(v: bytes, tail: bytes, sep: bytes, first: bool)
    requires sep != [] && Find(v + sep + tail, sep, 0) == Some(|v|)
    requires if first then v == [] || v[0] != QUOTE else Lacks(sep + (v + sep + tail), sep + [QUOTE])
    requires Lacks(v + sep + tail, sep + [QUOTE])
    ensures ReadsOne(TsvValue(false, v), sep, first, false)
    ensures Lacks(sep + tail, sep + [QUOTE]) && Lacks(tail, sep + [QUOTE])
  {
    hide At, Find, Lacks;
    var h := v + sep + tail;
    FindInFront(v, sep, tail);
    assert Clean(v, sep, false);
    assert h[|v|..|h|] == sep + tail && h[|v| + |sep|..|h|] == tail;
    LacksPart(h, sep + [QUOTE], |v|, |h|);
    LacksPart(h, sep + [QUOTE], |v| + |sep|, |h|);
    if !first {
      assert (sep + h)[0..|sep| + |v|] == sep + v;
      LacksPart(sep + h, sep + [QUOTE], 0, |sep| + |v|);
    }
  }

  lemma ReadsFold(v: TsvValue, rest: seq<TsvValue>, sep: bytes, first: bool)
    requires ReadsOne(v, sep, first, rest == [] || rest[0].quoted)
    requires rest == [] ==> !(first && v == TsvValue(false, []))
    requires rest != [] ==> Reads(rest, sep, v.quoted) || (rest[0].quoted && Reads(rest, sep, true))
    ensures Reads([v] + rest, sep, first)
  {
    assert ([v] + rest)[1..] == rest;
  }

  /** Every successful parse yields such values, for every delimiter. */
  lemma {:induction false} ParseIsWellFormed(s: bytes, sep: bytes)
    requires sep != [] && Parse(s, sep).Values?
    ensures Reads(Parse(s, sep).values, sep, true)
    decreases |s|, 1
  {
    hide At, Find, Lacks, Reads, Parse, ParseQuoted, Split;
    ParseCases(s, sep);
    if s[0] == QUOTE {
      QuotedIsWellFormed(s[1..], sep);
    } else {
      var i := Find(s, sep + [QUOTE], 0);
      if i.None? {
        LacksAll(s, sep + [QUOTE]);
        RunReads(s, [], sep, true);
        assert Unquoted(Split(s, sep)) + [] == Unquoted(Split(s, sep));
      } else {
        LacksBefore(s, sep + [QUOTE], i.value);
        QuotedIsWellFormed(s[i.value + |sep| + 1..], sep);
        RunReads(s[..i.value], ParseQuoted(s[i.value + |sep| + 1..], sep).values, sep, true);
      }
    }
  }

  lemma LacksAll(s: bytes, m: bytes)
    requires Find(s, m, 0) == None
    ensures Lacks(s, m)
  {
  }

  lemma {:induction false} QuotedIsWellFormed(s: bytes, sep: bytes)
    requires sep != [] && ParseQuoted(s, sep).Values?
    ensures var values := ParseQuoted(s, sep).values;
      values != [] && values[0].quoted && Reads(values, sep, true)
    decreases |s|, 0
  {
    hide At, Find, Lacks, Reads, Parse, ParseQuoted;
    QuotedCases(s, sep);
    var i := Find(s, [QUOTE] + sep, 0);
    if i.Some? {
      var v := TsvValue(true, s[..i.value]);
      LacksBefore(s, [QUOTE] + sep, i.value);
      var rest := s[i.value + 1 + |sep|..];
      ParseIsWellFormed(rest, sep);
      ReadsUnfold(Parse(rest, sep).values, sep, true);
      ReadsFold(v, Parse(rest, sep).values, sep, true);
    } else {
      var v := TsvValue(true, s[..|s| - 1]);
      LacksBefore(s, [QUOTE] + sep, |s| - 1);
      ReadsFold(v, [], sep, true);
      assert [v] + [] == [v];
    }
  }

  /** For a delimiter of one byte: unquoted values without it that do not start with a quote. */
  predicate WellFormed(values: seq<TsvValue>, d: byte, first: bool) {
    if values == [] then false
    else
      var v, rest := values[0], values[1..];
      && (if v.quoted then Lacks(v.value, [QUOTE, d]) else d !in v.value && (v.value == [] || v.value[0] != QUOTE))
      && if rest == [] then !(first && v == TsvValue(false, [])) else WellFormed(rest, d, v.quoted)
  }

  lemma {:induction false} ReadsOfByte(values: seq<TsvValue>, d: byte, first: bool)
    requires d != QUOTE && values != []
    ensures Reads(values, [d], first) <==> WellFormed(values, d, first)
  {
    hide Lacks, Clean;
    var v, rest := values[0], values[1..];
    if !v.quoted { OneOfByte(v.value, d, first, rest == [] || rest[0].quoted); }
    if rest != [] { ReadsOfByte(rest, d, v.quoted); }
    assert [QUOTE] + [d] == [QUOTE, d];
  }

  lemma OneOfByte(v: bytes, d: byte, first: bool, last: bool)
    requires d != QUOTE
    ensures ReadsOne(TsvValue(false, v), [d], first, last) <==> d !in v && (v == [] || v[0] != QUOTE)
  {
    CleanOfByte(v, d, last);
    if d !in v && (v == [] || v[0] != QUOTE) {
      var s, mark := [d] + v, [d] + [QUOTE];
      assert mark[0] == d && mark[1] == QUOTE;
      forall j: nat | j <= |s| ensures !At(s, mark, j) { assert 0 < j < |s| ==> s[j + 0] == v[j - 1]; }
    }
    if !first && v != [] && Lacks([d] + v, [d] + [QUOTE]) { QuoteIsMarked(v, [d]); }
  }

  /** Parsing undoes printing exactly for such values, for every delimiter without a quote. */
  lemma ParseOfPrintIffWellFormed(values: seq<TsvValue>, sep: bytes)
    requires sep != [] && QUOTE !in sep
    ensures Parse(Print(values, sep), sep) == Values(values) <==> Reads(values, sep, true)
  {
    hide Parse, Print, At;
    if Reads(values, sep, true) {
      PrintStarts(values, sep);
      ParseOfPrint(values, sep, true);
    }
    if Parse(Print(values, sep), sep) == Values(values) { ParseIsWellFormed(Print(values, sep), sep); }
  }

  /** With a quote in the delimiter that is not enough: around an empty value, two delimiters are
      taken for a delimiter and an opening quote. */
  lemma QuoteInDelimiter()
    ensures var values := [TsvValue(false, [120]), TsvValue(false, []), TsvValue(false, [121])];
      Reads(values, [QUOTE], true) && Parse(Print(values, [QUOTE]), [QUOTE]) == Unmatched
  {
    hide Parse, ParseQuoted, Print, Reads, ReadsOne, Find, At;
    var x, empty, y, sep := TsvValue(false, [120]), TsvValue(false, []), TsvValue(false, [121]), [QUOTE];
    ShortIsRead([120], true, false);
    ShortIsRead([], false, false);
    ShortIsRead([121], false, true);
    assert [y] + [] == [y] && [empty] + [y] == [empty, y] && [x] + [empty, y] == [x, empty, y];
    ReadsFold(y, [], sep, false);
    ReadsFold(empty, [y], sep, false);
    ReadsFold(x, [empty, y], sep, true);
    PrintOne(y, sep);
    PrintCons(empty, [y], sep);
    PrintCons(x, [empty, y], sep);
    assert Print([x, empty, y], sep) == [120, QUOTE, QUOTE, 121];
    OpensBetween();
  }

  lemma ShortIsRead(v: bytes, first: bool, last: bool)
    requires |v| <= 1 && QUOTE !in v
    ensures ReadsOne(TsvValue(false, v), [QUOTE], first, last)
  {
    CleanOfByte(v, QUOTE, last);
    var s := [QUOTE] + v;
    forall j: nat | j <= |s| ensures !At(s, [QUOTE] + [QUOTE], j) { MarkIs(s, [QUOTE], j); }
  }

  lemma OpensBetween()
    ensures Parse([120, QUOTE, QUOTE, 121], [QUOTE]) == Unmatched
  {
    hide Parse, ParseQuoted, Find, Split;
    var line, sep := [120, QUOTE, QUOTE, 121], [QUOTE];
    assert line == [120] + sep + [QUOTE, 121];
    OpensAt([120], sep, [QUOTE, 121]);
    assert line[0 + 0] != (sep + [QUOTE])[0];
    FindIs(line, sep + [QUOTE], 1);
    ParseCases(line, sep);
    assert line[1 + 1 + 1..] == [121];
    NoPlace([121], QUOTE, [QUOTE] + sep);
    QuotedCases([121], sep);
  }

  /** A line is parsed exactly if it is the print of such values. */
  lemma ParsesIffPrinted(s: bytes, sep: bytes)
    requires sep != [] && QUOTE !in sep
    ensures Parse(s, sep).Values? <==> exists values :: Reads(values, sep, true) && Print(values, sep) == s
  {
    hide Parse, Print, Reads, At;
    if Parse(s, sep).Values? {
      PrintOfParse(s, sep);
      ParseIsWellFormed(s, sep);
    }
    if values :| Reads(values, sep, true) && Print(values, sep) == s { ParseOfPrintIffWellFormed(values, sep); }
  }

  // ----------------------------------------------------------- when the parser panics

  /** The line breaks off behind the delimiter of a quoted value, or in an opening quote. */
  predicate Breaks(s: bytes, values: seq<TsvValue>, sep: bytes) {
    && Reads(values, sep, true)
    && var last := values[|values| - 1];
      && last.quoted
      && (s == Print(values, sep) + sep || (last.value == [] && s + [QUOTE] == Print(values, sep)))
  }

  /** Exactly the empty line and the lines that break off like this make the parser slice behind the
      end, for every delimiter without a quote. */
  lemma PanicsIffBreaks(s: bytes, sep: bytes)
    requires sep != [] && QUOTE !in sep
    ensures Parse(s, sep) == Panic <==> s == [] || exists values :: Breaks(s, values, sep)
  {
    hide Parse, Print, Reads;
    ParseCases(s, sep);
    if Parse(s, sep) == Panic && s != [] { var values := PanicBreaks(s, sep); }
    if values :| Breaks(s, values, sep) {
      var within := s != Print(values, sep) + sep;
      ReadsUnfold(values, sep, true);
      BrokenIs(values, sep, within);
      if within { assert s == Broken(values, sep, true) by { SameFront(s, Broken(values, sep, true)); } }
      PanicOfBroken(values, sep, within, true);
    }
  }

  lemma SameFront(a: bytes, b: bytes)
    requires a + [QUOTE] == b + [QUOTE]
    ensures a == b
  {
    assert a == (a + [QUOTE])[..|a|] && b == (b + [QUOTE])[..|b|];
  }

  /** The values in front of the end of a line that makes the parser panic. */
  lemma {:induction false} PanicBreaks(s: bytes, sep: bytes) returns (values: seq<TsvValue>)
    requires sep != [] && s != [] && Parse(s, sep) == Panic
    ensures Breaks(s, values, sep) && values[0].quoted == (s[0] == QUOTE)
    decreases |s|, 1
  {
    hide At, Find, Lacks, Reads, Parse, ParseQuoted, Print, Split;
    ParseCases(s, sep);
    if s[0] == QUOTE {
      values := QuotedBreaks(s[1..], sep);
      assert s == [QUOTE] + s[1..];
    } else {
      var i := Find(s, sep + [QUOTE], 0).value;
      var head, rest := s[..i], s[i + |sep| + 1..];
      CutAt(s, sep + [QUOTE], i);
      LacksBefore(s, sep + [QUOTE], i);
      var more := QuotedBreaks(rest, sep);
      ReadsUnfold(more, sep, true);
      RunReads(head, more, sep, true);
      values := Unquoted(Split(head, sep)) + more;
      BreaksBehindRun(head, rest, more, sep);
      assert s == head + (sep + [QUOTE]) + rest;
    }
  }

  lemma BreaksBehindRun(head: bytes, rest: bytes, more: seq<TsvValue>, sep: bytes)
    requires sep != [] && Breaks([QUOTE] + rest, more, sep)
    requires Reads(Unquoted(Split(head, sep)) + more, sep, true)
    ensures Breaks(head + (sep + [QUOTE]) + rest, Unquoted(Split(head, sep)) + more, sep)
  {
    hide Reads, Print, Split;
    ReadsUnfold(more, sep, true);
    JoinOfSplit(head, sep);
    PrintUnquoted(Split(head, sep), sep);
    BreaksBehind(head, Unquoted(Split(head, sep)), [QUOTE] + rest, more, sep);
    Regrouped(head, sep, rest);
  }

  lemma BreaksBehind(head: bytes, front: seq<TsvValue>, s: bytes, more: seq<TsvValue>, sep: bytes)
    requires front != [] && more != [] && Print(front, sep) == head && Breaks(s, more, sep)
    requires Reads(front + more, sep, true)
    ensures Breaks(head + sep + s, front + more, sep)
  {
    hide Reads, Print;
    PrintAppend(front, more, sep);
    assert head + sep + (Print(more, sep) + sep) == head + sep + Print(more, sep) + sep;
    assert head + sep + (s + [QUOTE]) == head + sep + s + [QUOTE];
    assert (front + more)[|front + more| - 1] == more[|more| - 1];
  }

  lemma {:induction false} QuotedBreaks(s: bytes, sep: bytes) returns (values: seq<TsvValue>)
    requires sep != [] && ParseQuoted(s, sep) == Panic
    ensures Breaks([QUOTE] + s, values, sep) && values[0].quoted
    decreases |s|, 0
  {
    hide At, Find, Lacks, Reads, Parse, ParseQuoted, Print;
    QuotedCases(s, sep);
    var i := Find(s, [QUOTE] + sep, 0);
    if i.Some? {
      var v, rest := TsvValue(true, s[..i.value]), s[i.value + 1 + |sep|..];
      CutAt(s, [QUOTE] + sep, i.value);
      LacksBefore(s, [QUOTE] + sep, i.value);
      PrintOne(v, sep);
      Regrouped(v.value, sep, rest);
      if rest == [] {
        values := [v];
        ReadsFold(v, [], sep, true);
        assert [v] + [] == [v] && Rendered(v) + sep + [] == Rendered(v) + sep;
      } else {
        var more := PanicBreaks(rest, sep);
        ReadsUnfold(more, sep, true);
        ReadsFold(v, more, sep, true);
        BreaksBehind(Rendered(v), [v], rest, more, sep);
        values := [v] + more;
      }
    } else {
      values := [TsvValue(true, [])];
      LacksNothing([QUOTE] + sep);
      ReadsFold(values[0], [], sep, true);
      PrintOne(values[0], sep);
      assert values + [] == values && [QUOTE] + [] + [QUOTE] == [QUOTE] + s + [QUOTE];
    }
  }

  lemma LacksNothing(m: bytes)
    requires m != []
    ensures Lacks([], m)
  {
  }

  /** A printed line that breaks off in or behind its last value. */
  function Broken(values: seq<TsvValue>, sep: bytes, within: bool): (line: bytes)
    requires values != []
    ensures line != [] || sep == []
  {
    if |values| > 1 then Rendered(values[0]) + sep + Broken(values[1..], sep, within)
    else if within then [QUOTE]
    else Rendered(values[0]) + sep
  }

  lemma {:induction false} BrokenIs(values: seq<TsvValue>, sep: bytes, within: bool)
    requires values != [] && (within ==> values[|values| - 1] == TsvValue(true, []))
    ensures within ==> Broken(values, sep, true) + [QUOTE] == Print(values, sep)
    ensures !within ==> Broken(values, sep, false) == Print(values, sep) + sep
  {
    hide Print;
    var v, rest := values[0], values[1..];
    assert values == [v] + rest;
    if rest == [] {
      PrintOne(v, sep);
      assert values == [v];
    } else {
      BrokenIs(rest, sep, within);
      PrintCons(v, rest, sep);
      var front, line := Rendered(v) + sep, Broken(rest, sep, within);
      assert front + line + [QUOTE] == front + (line + [QUOTE]);
      assert front + Print(rest, sep) + sep == front + (Print(rest, sep) + sep);
    }
  }

  lemma BrokenStarts(values: seq<TsvValue>, sep: bytes, within: bool)
    requires values != [] && values[|values| - 1].quoted
    ensures var line, v := Broken(values, sep, within), values[0];
      && line != []
      && (v.quoted ==> line[0] == QUOTE)
      && (!v.quoted ==> StartsWith(line, v.value, sep))
  {
    var v := values[0];
    if !v.quoted {
      assert |values| > 1;
      var line, rest := Broken(values, sep, within), Broken(values[1..], sep, within);
      assert line == v.value + sep + rest;
      assert line[..|v.value| + |sep|] == v.value + sep;
      BrokenStarts(values[1..], sep, within);
    }
  }

  lemma {:induction false} PanicOfBroken(values: seq<TsvValue>, sep: bytes, within: bool, first: bool)
    requires sep != [] && QUOTE !in sep && Reads(values, sep, first)
    requires values[|values| - 1].quoted && (within ==> values[|values| - 1].value == [])
    ensures Parse(Broken(values, sep, within), sep) == Panic
    decreases |values|
  {
    hide Reads, ReadsOne, Parse, At, Clean, Lacks, Find;
    ReadsUnfold(values, sep, first);
    var v, rest := values[0], values[1..];
    if rest == [] {
      if within { PanicOfQuote(sep); } else { PanicOfEnd(v, sep, first); }
    } else {
      var line := Broken(rest, sep, within);
      PanicOfBroken(rest, sep, within, v.quoted);
      BrokenStarts(rest, sep, within);
      if !v.quoted && !rest[0].quoted { NextLacks(rest, sep); }
      FirstOfLine(v, rest, sep, first, line);
    }
  }

  lemma PanicOfQuote(sep: bytes)
    requires sep != []
    ensures Parse([QUOTE], sep) == Panic
  {
    assert [QUOTE][1..] == [];
  }

  lemma PanicOfEnd(v: TsvValue, sep: bytes, first: bool)
    requires sep != [] && QUOTE !in sep && v.quoted && ReadsOne(v, sep, first, true)
    ensures Parse(Rendered(v) + sep, sep) == Panic
  {
    QuotedStep(v.value, sep, []);
    assert [QUOTE] + v.value + [QUOTE] + sep + [] == Rendered(v) + sep;
  }
}
