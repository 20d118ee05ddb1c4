/**
 The spelling of JSON strings: what escapes mean (section 7 of RFC 8259), well-formed UTF-8 (section 4
 of RFC 3629), and trimming as bytes.TrimSpace does it.
 */
module JsonStrings {
  import opened Utilities

  const QUOTE: byte := 34
  const BACKSLASH: byte := 92

  // ---------------------------------------------------------------------------- UTF-8

  predicate Tail(b: byte) { 0x80 <= b < 0xC0 }

  predicate Second(a: byte, b: byte) {
    && Tail(b) && (a == 0xE0 ==> b >= 0xA0) && (a == 0xED ==> b < 0xA0)
    && (a == 0xF0 ==> b >= 0x90) && (a == 0xF4 ==> b < 0x90)
  }

  /** The length of the first character; 0 if there is none. */
  function CharLen(s: bytes): (n: nat)
    ensures n <= |s|
    ensures forall i :: 1 <= i < n ==> Tail(s[i])
  {
    if |s| >= 1 && s[0] < 0x80 then 1
    else if |s| >= 2 && 0xC2 <= s[0] < 0xE0 && Tail(s[1]) then 2
    else if |s| >= 3 && 0xE0 <= s[0] < 0xF0 && Second(s[0], s[1]) && Tail(s[2]) then 3
    else if |s| >= 4 && 0xF0 <= s[0] < 0xF5 && Second(s[0], s[1]) && Tail(s[2]) && Tail(s[3]) then 4
    else 0
  }

  predicate Utf8(s: bytes)
    decreases |s|
  {
    s == [] || (CharLen(s) > 0 && Utf8(s[CharLen(s)..]))
  }

  lemma CharInFront(a: bytes, b: bytes)
    requires CharLen(a) > 0
    ensures CharLen(a + b) == CharLen(a)
  {
    assert forall i :: 0 <= i < |a| ==> (a + b)[i] == a[i];
  }

  lemma SliceOfSum(a: bytes, b: bytes, n: nat)
    requires n <= |a|
    ensures (a + b)[n..] == a[n..] + b
  {
  }

  lemma {:induction false} Utf8Sum(a: bytes, b: bytes)
    requires Utf8(a) && Utf8(b)
    ensures Utf8(a + b)
    decreases |a|
  {
    if a == [] {
      assert a + b == b;
    } else {
      hide CharLen;
      var n := CharLen(a);
      CharInFront(a, b);
      Utf8Sum(a[n..], b);
      SliceOfSum(a, b, n);
    }
  }

  lemma CharEnds(s: bytes, i: nat)
    requires 0 < i < |s| && !Tail(s[i])
    ensures CharLen(s) <= i
  {
  }

  /** A text may be cut in front of a byte that starts a character. */
  lemma {:induction false} Utf8Cut(a: bytes, b: bytes)
    requires Utf8(a + b) && b != [] && !Tail(b[0])
    ensures Utf8(a) && Utf8(b)
    decreases |a|
  {
    if a == [] {
      assert a + b == b;
    } else {
      var n := CharLen(a + b);
      assert (a + b)[|a|] == b[0];
      assert forall i :: 0 <= i < |a| ==> (a + b)[i] == a[i];
      CharEnds(a + b, |a|);
      assert CharLen(a) == n;
      assert (a + b)[n..] == a[n..] + b;
      Utf8Cut(a[n..], b);
    }
  }

  // ------------------------------------------------------------------------- trimming

  /** The characters that unicode.IsSpace accepts. */
  predicate IsSpace(w: bytes) {
    || (|w| == 1 && (9 <= w[0] <= 13 || w[0] == 32))
    || (|w| == 2 && w[0] == 0xC2 && (w[1] == 0x85 || w[1] == 0xA0))
    || (|w| == 3 && w[0] == 0xE1 && w[1] == 0x9A && w[2] == 0x80)
    || (|w| == 3 && w[0] == 0xE2 && w[1] == 0x80 && (w[2] <= 0x8A || w[2] in [0xA8, 0xA9, 0xAF]) && Tail(w[2]))
    || (|w| == 3 && w[0] == 0xE2 && w[1] == 0x81 && w[2] == 0x9F)
    || (|w| == 3 && w[0] == 0xE3 && w[1] == 0x80 && w[2] == 0x80)
  }

  predicate StartsBlank(s: bytes, n: nat) { 0 < n <= |s| && IsSpace(s[..n]) }

  /** The length of the blank character in front; 0 if there is none. */
  function Leading(s: bytes): (n: nat)
    ensures n > 0 ==> StartsBlank(s, n)
  {
    if StartsBlank(s, 1) then 1
    else if StartsBlank(s, 2) then 2
    else if StartsBlank(s, 3) then 3
    else 0
  }

  predicate EndsBlank(s: bytes, n: nat) { 0 < n <= |s| && IsSpace(s[|s| - n..]) }

  function Trailing(s: bytes): (n: nat)
    ensures n > 0 ==> EndsBlank(s, n)
  {
    if EndsBlank(s, 1) then 1
    else if EndsBlank(s, 2) then 2
    else if EndsBlank(s, 3) then 3
    else 0
  }

  lemma LeadingIs(w: bytes, s: bytes)
    requires IsSpace(w)
    ensures Leading(w + s) > 0
  {
    assert (w + s)[..|w|] == w;
  }

  lemma TrailingIs(s: bytes, w: bytes)
    requires IsSpace(w)
    ensures Trailing(s + w) > 0
  {
    assert (s + w)[|s + w| - |w|..] == w;
  }

  function TrimLeft(s: bytes): (r: bytes)
    ensures Leading(r) == 0 && |r| <= |s| && r == s[|s| - |r|..]
    ensures Leading(s) == 0 ==> r == s
    decreases |s|
  {
    if Leading(s) == 0 then s else TrimLeft(s[Leading(s)..])
  }

  function TrimRight(s: bytes): (r: bytes)
    ensures Trailing(r) == 0 && |r| <= |s| && r == s[..|r|]
    ensures Trailing(s) == 0 ==> r == s
    decreases |s|
  {
    if Trailing(s) == 0 then s else TrimRight(s[..|s| - Trailing(s)])
  }

  /** bytes.TrimSpace */
  function TrimSpace(s: bytes): bytes { TrimRight(TrimLeft(s)) }

  lemma TrimmedHasNoEnds(s: bytes)
    ensures Leading(TrimSpace(s)) == 0 && Trailing(TrimSpace(s)) == 0
    ensures TrimSpace(s) == s <==> Leading(s) == 0 && Trailing(s) == 0
  {
    hide IsSpace, Leading, Trailing;
    var left, all := TrimLeft(s), TrimSpace(s);
    var n := Leading(all);
    if n > 0 {
      assert left == all[..n] + left[n..];
      LeadingIs(all[..n], left[n..]);
    }
    if all == s { assert left == s; }
  }

  lemma {:induction false} TrimLeftIsUtf8(s: bytes)
    requires Utf8(s)
    ensures Utf8(TrimLeft(s))
    decreases |s|
  {
    var n := Leading(s);
    if n > 0 {
      assert forall i :: 0 <= i < n ==> s[i] == s[..n][i];
      assert CharLen(s) == n;
      TrimLeftIsUtf8(s[n..]);
    }
  }

  lemma {:induction false} TrimRightIsUtf8(s: bytes)
    requires Utf8(s)
    ensures Utf8(TrimRight(s))
    decreases |s|
  {
    var n := Trailing(s);
    if n > 0 {
      var front, space := s[..|s| - n], s[|s| - n..];
      assert s == front + space;
      Utf8Cut(front, space);
      TrimRightIsUtf8(front);
    }
  }

  lemma TrimSpaceIsUtf8(s: bytes)
    requires Utf8(s)
    ensures Utf8(TrimSpace(s))
  {
    TrimLeftIsUtf8(s);
    TrimRightIsUtf8(TrimLeft(s));
  }

  // -------------------------------------------------------------------------- escapes

  function Hex(b: byte): Option<nat> {
    if 48 <= b <= 57 then Some((b - 48) as nat)
    else if 65 <= b <= 70 then Some((b - 55) as nat)
    else if 97 <= b <= 102 then Some((b - 87) as nat)
    else None
  }

  /** The code unit that four digits spell. */
  function Unit(s: bytes): (u: Option<nat>)
    ensures u.Some? ==> |s| >= 4 && u.value < 0x1_0000
  {
    if |s| >= 4 && Hex(s[0]).Some? && Hex(s[1]).Some? && Hex(s[2]).Some? && Hex(s[3]).Some? then
      Some(((Hex(s[0]).value * 16 + Hex(s[1]).value) * 16 + Hex(s[2]).value) * 16 + Hex(s[3]).value)
    else None
  }

  /** A character in UTF-8. */
  function Char(c: nat): (s: bytes)
    requires c < 0x11_0000
    ensures 0 < |s| <= 4 && (c < 0x1_0000 ==> |s| <= 3)
  {
    if c < 0x80 then [c as byte]
    else if c < 0x800 then [(0xC0 + c / 64) as byte, (0x80 + c % 64) as byte]
    else if c < 0x1_0000 then [(0xE0 + c / 4096) as byte, (0x80 + c / 64 % 64) as byte, (0x80 + c % 64) as byte]
    else [(0xF0 + c / 262144) as byte, (0x80 + c / 4096 % 64) as byte, (0x80 + c / 64 % 64) as byte,
          (0x80 + c % 64) as byte]
  }

  lemma CharIsUtf8(c: nat)
    requires c < 0x11_0000 && !(0xD800 <= c < 0xE000)
    ensures Utf8(Char(c))
  {
    var s := Char(c);
    assert CharLen(s) == |s|;
    assert s[|s|..] == [];
  }

  const REPLACEMENT: bytes := [0xEF, 0xBF, 0xBD]

  predicate HasUnit(s: bytes) { |s| >= 6 && s[0] == BACKSLASH && s[1] == 117 && Unit(s[2..]).Some? }

  /** How many bytes the escape in front takes, and what it means; a surrogate without its partner
      means no character. */
  function Escape(s: bytes): (r: Option<(nat, bytes)>)
    requires s != [] && s[0] == BACKSLASH
    ensures r.Some? ==> |r.value.1| < r.value.0 <= |s|
  {
    if |s| < 2 then None
    else if s[1] in [QUOTE, BACKSLASH, 47] then Some((2, [s[1]]))
    else if s[1] == 98 then Some((2, [8]))
    else if s[1] == 102 then Some((2, [12]))
    else if s[1] == 110 then Some((2, [10]))
    else if s[1] == 114 then Some((2, [13]))
    else if s[1] == 116 then Some((2, [9]))
    else if !HasUnit(s) then None
    else
      var u := Unit(s[2..]).value;
      if !(0xD800 <= u < 0xE000) then Some((6, Char(u)))
      else if u < 0xDC00 && HasUnit(s[6..]) && 0xDC00 <= Unit(s[8..]).value < 0xE000 then
        Some((12, Char(0x1_0000 + (u - 0xD800) * 0x400 + (Unit(s[8..]).value - 0xDC00))))
      else Some((6, REPLACEMENT))
  }

  function Behind(front: bytes, rest: Option<bytes>): Option<bytes> {
    if rest.Some? then Some(front + rest.value) else None
  }

  /** What stands between two quotes, if it is a string. */
  function Decode(s: bytes): Option<bytes>
    decreases |s|
  {
    if s == [] then Some([])
    else if s[0] == BACKSLASH then
      match Escape(s)
      case None => None
      case Some((n, meaning)) => Behind(meaning, Decode(s[n..]))
    else if s[0] < 32 || s[0] == QUOTE then None
    else Behind([s[0]], Decode(s[1..]))
  }

  /** A string of one escape. */
  lemma OneEscape(b: byte)
    requires b < 0x80 && b != 117 && Escape([BACKSLASH, b]).Some?
    ensures Utf8([BACKSLASH, b]) && Decode([BACKSLASH, b]) == Some(Escape([BACKSLASH, b]).value.1)
  {
    var s, meaning := [BACKSLASH, b], Escape([BACKSLASH, b]).value.1;
    assert s[2..] == [] && meaning + [] == meaning;
    assert CharLen(s) == 1 && s[1..] == [b] && CharLen([b]) == 1 && [b][1..] == [];
  }

  /** Bytes that are not special mean themselves. */
  predicate Unescaped(w: bytes) { forall b :: b in w ==> b >= 32 && b != QUOTE && b != BACKSLASH }

  lemma {:induction false} DecodePasses(w: bytes, s: bytes)
    requires Unescaped(w)
    ensures Decode(w + s) == Behind(w, Decode(s))
    decreases |w|
  {
    if w == [] {
      assert w + s == s;
      assert Decode(s).Some? ==> [] + Decode(s).value == Decode(s).value;
    } else {
      assert (w + s)[0] == w[0] && (w + s)[1..] == w[1..] + s && w[0] in w;
      assert forall b :: b in w[1..] ==> b in w;
      DecodePasses(w[1..], s);
      assert w == [w[0]] + w[1..];
      if Decode(s).Some? { Associative([w[0]], w[1..], Decode(s).value); }
    }
  }

  /** A string is shorter than its spelling exactly if that has escapes; otherwise it is the same. */
  lemma {:induction false} DecodeShortens(s: bytes)
    requires Decode(s).Some?
    ensures if BACKSLASH in s then |Decode(s).value| < |s| else Decode(s).value == s
    decreases |s|
  {
    if s != [] {
      if s[0] == BACKSLASH {
        DecodeShortens(s[Escape(s).value.0..]);
      } else {
        DecodeShortens(s[1..]);
        assert s == [s[0]] + s[1..];
      }
    }
  }

  /** A quote has to be escaped. */
  lemma {:induction false} QuoteIsEscaped(s: bytes)
    requires Decode(s).Some? && QUOTE in s
    ensures BACKSLASH in s
    decreases |s|
  {
    if s[0] != BACKSLASH { QuoteIsEscaped(s[1..]); }
  }

  // ----------------------------------------------------- blank characters at the ends

  lemma UnitInFront(s: bytes, w: bytes)
    requires w != [] && Hex(w[0]).None? && w[0] != BACKSLASH && w[0] != 117
    ensures HasUnit(s + w) <==> HasUnit(s)
    ensures HasUnit(s) ==> Unit((s + w)[2..]) == Unit(s[2..])
  {
    var all := s + w;
    assert all[|s|] == w[0] && forall i :: 0 <= i < |s| ==> all[i] == s[i];
    if |s| >= 2 {
      assert all[2..] == s[2..] + w;
      DigitsInFront(s[2..], w);
    }
  }

  lemma DigitsInFront(s: bytes, w: bytes)
    requires w != [] && Hex(w[0]).None?
    ensures Unit(s + w) == Unit(s)
  {
    var all := s + w;
    assert all[|s|] == w[0] && forall i :: 0 <= i < |s| ==> all[i] == s[i];
  }

  /** An escape ends in front of a blank character. */
  lemma EscapeInFront(s: bytes, w: bytes)
    requires s != [] && s[0] == BACKSLASH && IsSpace(w) && Escape(s + w).Some?
    ensures Escape(s) == Escape(s + w)
  {
    hide Unit, Char, IsSpace;
    BlankIsPlain(w);
    var all := s + w;
    assert |s| >= 2 by { assert all[|s|] == w[0]; }
    assert all[1] == s[1];
    UnitInFront(s, w);
    if |s| >= 6 {
      assert all[6..] == s[6..] + w;
      UnitInFront(s[6..], w);
      if HasUnit(s[6..]) { SecondUnit(s, w); }
    }
  }

  lemma BlankIsPlain(w: bytes)
    requires IsSpace(w)
    ensures w != [] && Hex(w[0]).None? && !Tail(w[0])
    ensures w[0] !in [QUOTE, BACKSLASH, 47, 98, 102, 110, 114, 116, 117]
    ensures BACKSLASH !in w && QUOTE !in w
  {
  }

  lemma SecondUnit(s: bytes, w: bytes)
    requires |s| >= 6 && HasUnit(s[6..]) && HasUnit((s + w)[6..])
    ensures Unit((s + w)[8..]) == Unit(s[8..])
  {
    assert (s + w)[8..] == s[8..] + w && s[6..][2..] == s[8..];
    assert forall i :: 0 <= i < 4 ==> (s[8..] + w)[i] == s[8..][i];
  }

  /** A blank character in front of a string is part of it, and so is one behind it. */
  lemma DecodeLeading(s: bytes)
    requires Decode(s).Some? && Leading(s) > 0
    ensures Leading(Decode(s).value) > 0
  {
    var w, rest := s[..Leading(s)], s[Leading(s)..];
    assert s == w + rest;
    BlankIsPlain(w);
    if w[0] >= 32 {
      assert Unescaped(w);
      DecodePasses(w, rest);
      LeadingIs(w, Decode(rest).value);
    }
  }

  lemma {:induction false} DecodeBehind(s: bytes, w: bytes)
    requires IsSpace(w) && Decode(s + w).Some?
    ensures Decode(s).Some? && Decode(s + w).value == Decode(s).value + w
    decreases |s|
  {
    var all := s + w;
    if s == [] {
      assert all == w;
      BlankIsPlain(w);
      DecodeShortens(w);
    } else if s[0] == BACKSLASH {
      EscapeInFront(s, w);
      var (n, meaning) := Escape(s).value;
      assert all[n..] == s[n..] + w;
      DecodeBehind(s[n..], w);
      Associative(meaning, Decode(s[n..]).value, w);
    } else {
      assert all[1..] == s[1..] + w;
      DecodeBehind(s[1..], w);
      Associative([s[0]], Decode(s[1..]).value, w);
    }
  }

  lemma DecodeTrailing(s: bytes)
    requires Decode(s).Some? && Trailing(s) > 0
    ensures Trailing(Decode(s).value) > 0
  {
    var front, w := s[..|s| - Trailing(s)], s[|s| - Trailing(s)..];
    assert s == front + w;
    DecodeBehind(front, w);
    TrailingIs(Decode(front).value, w);
  }

  /** Trimming its spelling gives what a string means exactly if it has no escapes and no blank
      characters at its ends. */
  lemma SameMeaningIff(s: bytes)
    requires Decode(s).Some?
    ensures TrimSpace(s) == Decode(s).value <==> BACKSLASH !in s && TrimSpace(s) == s
  {
    hide Decode, TrimSpace, Leading, Trailing;
    TrimmedHasNoEnds(s);
    DecodeShortens(s);
    if Leading(s) > 0 { DecodeLeading(s); }
    if Trailing(s) > 0 { DecodeTrailing(s); }
  }

  // ------------------------------------------------------------- meanings are UTF-8

  lemma {:induction false} Utf8BehindAscii(s: bytes, n: nat)
    requires Utf8(s) && n <= |s| && forall i :: 0 <= i < n ==> s[i] < 0x80
    ensures Utf8(s[n..])
    decreases n
  {
    if n > 0 {
      assert CharLen(s) == 1;
      hide CharLen;
      var rest := s[1..];
      assert forall i :: 0 <= i < n - 1 ==> rest[i] == s[i + 1];
      Utf8BehindAscii(rest, n - 1);
      assert rest[n - 1..] == s[n..];
    }
  }

  lemma EscapeIsAscii(s: bytes)
    requires s != [] && s[0] == BACKSLASH && Escape(s).Some?
    ensures forall i :: 0 <= i < Escape(s).value.0 ==> s[i] < 0x80
    ensures Utf8(Escape(s).value.1)
  {
    var (n, meaning) := Escape(s).value;
    if n == 2 {
      assert CharLen(meaning) == 1 && meaning[1..] == [];
    } else {
      UnitIsAscii(s);
      var u := Unit(s[2..]).value;
      if n == 12 {
        UnitIsAscii(s[6..]);
        assert forall i :: 6 <= i < 12 ==> s[i] == s[6..][i - 6];
        CharIsUtf8(0x1_0000 + (u - 0xD800) * 0x400 + (Unit(s[8..]).value - 0xDC00));
      } else if !(0xD800 <= u < 0xE000) {
        CharIsUtf8(u);
      } else {
        assert CharLen(REPLACEMENT) == 3 && REPLACEMENT[3..] == [];
      }
    }
  }

  lemma UnitIsAscii(s: bytes)
    requires HasUnit(s)
    ensures forall i :: 0 <= i < 6 ==> s[i] < 0x80
  {
    assert s[2..][0] == s[2] && s[2..][1] == s[3] && s[2..][2] == s[4] && s[2..][3] == s[5];
  }

  lemma {:induction false} DecodeIsUtf8(s: bytes)
    requires Utf8(s) && Decode(s).Some?
    ensures Utf8(Decode(s).value)
    decreases |s|
  {
    hide Escape;
    if s != [] {
      if s[0] == BACKSLASH {
        EscapeIsAscii(s);
        var (n, meaning) := Escape(s).value;
        Utf8BehindAscii(s, n);
        DecodeIsUtf8(s[n..]);
        Utf8Sum(meaning, Decode(s[n..]).value);
      } else {
        var w, rest := s[..CharLen(s)], s[CharLen(s)..];
        CharIsUnescaped(s);
        assert s == w + rest;
        DecodePasses(w, rest);
        DecodeIsUtf8(rest);
        Utf8Sum(w, Decode(rest).value);
      }
    }
  }

  lemma CharIsUnescaped(s: bytes)
    requires s != [] && CharLen(s) > 0 && s[0] >= 32 && s[0] != QUOTE && s[0] != BACKSLASH
    ensures Unescaped(s[..CharLen(s)]) && Utf8(s[..CharLen(s)])
  {
    var w := s[..CharLen(s)];
    assert forall i :: 0 <= i < |w| ==> w[i] == s[i];
    assert CharLen(w) == |w| && w[|w|..] == [];
  }

  // ------------------------------------------------------------------ cut at a quote

  /** In front of the first quote of a string's spelling there is a backslash. */
  lemma {:induction false} BackslashInFront(s: bytes, n: nat)
    requires Decode(s).Some? && n < |s| && s[n] == QUOTE && QUOTE !in s[..n]
    ensures n > 0 && s[n - 1] == BACKSLASH
    decreases |s|
  {
    var m := if s[0] == BACKSLASH then Escape(s).value.0 else 1;
    if m <= n {
      assert s[m..][..n - m] == s[..n][m..];
      BackslashInFront(s[m..], n - m);
    } else {
      QuoteInEscape(s, n);
    }
  }

  lemma QuoteInEscape(s: bytes, i: nat)
    requires s != [] && s[0] == BACKSLASH && Escape(s).Some? && i < Escape(s).value.0
    ensures s[i] == QUOTE ==> i == 1 && Escape(s) == Some((2, [QUOTE]))
  {
    if s[1] == 117 {
      UnitHasNoQuote(s);
      if Escape(s).value.0 == 12 {
        UnitHasNoQuote(s[6..]);
        assert i >= 6 ==> s[i] == s[6..][i - 6];
      }
    }
  }

  lemma UnitHasNoQuote(s: bytes)
    requires HasUnit(s)
    ensures forall i :: 0 <= i < 6 ==> s[i] != QUOTE
  {
    assert s[2..][0] == s[2] && s[2..][1] == s[3] && s[2..][2] == s[4] && s[2..][3] == s[5];
  }

  lemma {:induction false} QuoteIsMeant(s: bytes)
    requires Decode(s).Some? && QUOTE in s
    ensures QUOTE in Decode(s).value
    decreases |s|
  {
    var i: nat :| i < |s| && s[i] == QUOTE;
    var m := if s[0] == BACKSLASH then Escape(s).value.0 else 1;
    if i < m {
      QuoteInEscape(s, i);
    } else {
      assert s[m..][i - m] == QUOTE;
      QuoteIsMeant(s[m..]);
    }
  }

  /** A backslash at the end stays. */
  lemma {:induction false} BackslashStays(s: bytes)
    requires s != [] && s[|s| - 1] == BACKSLASH
    ensures TrimSpace(s) != []
    decreases |s|
  {
    BlankEnds(s);
    var n := Leading(s);
    if n > 0 {
      BlankInFront(s, n);
      BackslashStays(s[n..]);
    }
  }

  lemma BlankEnds(s: bytes)
    requires s != []
    ensures Trailing(s) > 0 ==> s[|s| - 1] != BACKSLASH
  {
    var n := Trailing(s);
    if n > 0 {
      BlankIsPlain(s[|s| - n..]);
      assert s[|s| - n..][n - 1] == s[|s| - 1];
    }
  }

  lemma BlankInFront(s: bytes, n: nat)
    requires 0 < n <= |s| && IsSpace(s[..n])
    ensures s[n - 1] != BACKSLASH
  {
    BlankIsPlain(s[..n]);
    assert s[..n][n - 1] == s[n - 1];
  }

  lemma TrimmedIsPart(s: bytes, b: byte)
    requires b in TrimSpace(s)
    ensures b in s
  {
    var left := TrimLeft(s);
    assert b in left;
  }

  /** A blank string means something with blank ends, or nothing. */
  lemma BlankMeansBlank(s: bytes)
    requires Decode(s).Some? && TrimSpace(s) == []
    ensures var meaning := Decode(s).value; meaning == [] || Leading(meaning) > 0 || Trailing(meaning) > 0
  {
    TrimmedHasNoEnds(s);
    if Leading(s) > 0 {
      DecodeLeading(s);
    } else if Trailing(s) > 0 {
      DecodeTrailing(s);
    }
  }

  // ------------------------------------------------------------------------- encoding

  function Digit(n: nat): byte
    requires n < 16
  {
    if n < 10 then (48 + n) as byte else (87 + n) as byte
  }

  /** One way to spell a byte: escaped where it has to be. */
  function Spelling(b: byte): bytes {
    if b == QUOTE || b == BACKSLASH then [BACKSLASH, b]
    else if b < 32 then [BACKSLASH, 117, 48, 48, Digit((b / 16) as nat), Digit((b % 16) as nat)]
    else [b]
  }

  function Encode(s: bytes): bytes { if s == [] then [] else Spelling(s[0]) + Encode(s[1..]) }

  lemma SpellingIsEscape(b: byte, rest: bytes)
    requires |Spelling(b)| > 1
    ensures Escape(Spelling(b) + rest) == Some((|Spelling(b)|, [b]))
  {
    var all := Spelling(b) + rest;
    if b < 32 {
      var high, low := (b / 16) as nat, (b % 16) as nat;
      assert all[2..] == [48, 48, Digit(high), Digit(low)] + rest;
      assert Hex(Digit(high)) == Some(high) && Hex(Digit(low)) == Some(low);
      assert Unit(all[2..]) == Some(b as nat);
    }
  }

  /** Reading undoes spelling. */
  lemma {:induction false} DecodeOfEncode(s: bytes)
    ensures Decode(Encode(s)) == Some(s)
  {
    if s != [] {
      var b, rest := s[0], Encode(s[1..]);
      DecodeOfEncode(s[1..]);
      var all := Spelling(b) + rest;
      assert s == [b] + s[1..] && all[|Spelling(b)|..] == rest;
      if |Spelling(b)| > 1 { SpellingIsEscape(b, rest); }
    }
  }
}
