/**
 The JSON formatter for JSON input (the directives of format/json_test.go): the parser and the
 callbacks together.
 */
module JsonTable {
  import opened Utilities
  import opened ByteTables
  import opened JsonEmitter
  import opened JsonFormatters
  import A = Automaton
  import P = TransitionParsers

  const QUOTE: byte := 34
  const COMMA: byte := 44
  const COLON: byte := 58
  const OPEN_BRACKET: byte := 91
  const CLOSE_BRACKET: byte := 93
  const OPEN_BRACE: byte := 123
  const CLOSE_BRACE: byte := 125

  const DO_KEY: nat := 0
  const DO_VAL: nat := 1
  const DO_ESC: nat := 2
  const DO_ARR: nat := 3
  const DO_OBJ: nat := 4
  const DO_END: nat := 5
  const DO_VAL_END: nat := 6

  // The states in the order in which compiling the directives numbers them.
  const KEY: nat := 0
  const FIND_KEY: nat := 1
  const FIND_VAL: nat := 2
  const VALUE: nat := 3
  const STRING: nat := 4
  const ARRAY: nat := 5
  const ARR_STRING: nat := 6

  const NO_FLAGS := A.Flags(false, false, false, false, false)
  const PUSH := A.Flags(false, false, false, true, false)
  const POP := A.Flags(false, false, false, false, true)

  const NAMES: seq<string> := ["key", "findKey", "findVal", "value", "string", "array", "arrString"]

  const DIRECTIVES: seq<P.Directive> := [
    P.Directive("findKey", [QUOTE], "key", NO_FLAGS, None),
    P.Directive("findKey", [CLOSE_BRACE], "", POP, Some(DO_END)),
    P.Directive("key", [QUOTE], "findVal", NO_FLAGS, Some(DO_KEY)),
    P.Directive("findVal", [COLON], "value", NO_FLAGS, None),
    P.Directive("value", [QUOTE], "string", NO_FLAGS, None),
    P.Directive("value", [OPEN_BRACKET], "array", PUSH, Some(DO_ARR)),
    P.Directive("value", [OPEN_BRACE], "findKey", PUSH, Some(DO_OBJ)),
    P.Directive("value", [COMMA], "findKey", NO_FLAGS, Some(DO_VAL)),
    P.Directive("value", [CLOSE_BRACE], "", POP, Some(DO_VAL_END)),
    P.Directive("string", [QUOTE], "findKey", NO_FLAGS, Some(DO_ESC)),
    P.Directive("array", [OPEN_BRACKET], "array", PUSH, Some(DO_ARR)),
    P.Directive("array", [OPEN_BRACE], "findKey", PUSH, Some(DO_OBJ)),
    P.Directive("array", [CLOSE_BRACKET], "", POP, Some(DO_VAL_END)),
    P.Directive("array", [COMMA], "array", NO_FLAGS, Some(DO_VAL)),
    P.Directive("array", [QUOTE], "arrString", NO_FLAGS, None),
    P.Directive("arrString", [QUOTE], "array", NO_FLAGS, Some(DO_ESC))
  ]

  /** The directives compiled. */
  const TABLE: seq<A.Tokens> := [
    [([QUOTE], A.Transition(FIND_VAL, NO_FLAGS, Some(DO_KEY)))],
    [([QUOTE], A.Transition(KEY, NO_FLAGS, None)),
     ([CLOSE_BRACE], A.Transition(A.STOP, POP, Some(DO_END)))],
    [([COLON], A.Transition(VALUE, NO_FLAGS, None))],
    [([QUOTE], A.Transition(STRING, NO_FLAGS, None)),
     ([OPEN_BRACKET], A.Transition(ARRAY, PUSH, Some(DO_ARR))),
     ([OPEN_BRACE], A.Transition(FIND_KEY, PUSH, Some(DO_OBJ))),
     ([COMMA], A.Transition(FIND_KEY, NO_FLAGS, Some(DO_VAL))),
     ([CLOSE_BRACE], A.Transition(A.STOP, POP, Some(DO_VAL_END)))],
    [([QUOTE], A.Transition(FIND_KEY, NO_FLAGS, Some(DO_ESC)))],
    [([OPEN_BRACKET], A.Transition(ARRAY, PUSH, Some(DO_ARR))),
     ([OPEN_BRACE], A.Transition(FIND_KEY, PUSH, Some(DO_OBJ))),
     ([CLOSE_BRACKET], A.Transition(A.STOP, POP, Some(DO_VAL_END))),
     ([COMMA], A.Transition(ARRAY, NO_FLAGS, Some(DO_VAL))),
     ([QUOTE], A.Transition(ARR_STRING, NO_FLAGS, None))],
    [([QUOTE], A.Transition(ARRAY, NO_FLAGS, Some(DO_ESC)))]
  ]

  lemma TableHasBytes()
    ensures ByteTable(TABLE)
  {
  }

  // --------------------------------------------------------------- compiling the directives

  /** A directive between two known states. */
  lemma Line(m: P.Machine, d: P.Directive, from: nat, to: nat)
    requires P.Names(m.lookup) && |m.table| == |m.lookup| && from < |m.lookup| && m.lookup[from] == d.state
    requires if d.nextState == "" then to == A.STOP else to < |m.lookup| && m.lookup[to] == d.nextState
    ensures P.Directed(m, d) == Put(m, from, d, to)
  {
    P.IdOfName(m.lookup, from);
    if d.nextState != "" { P.IdOfName(m.lookup, to); }
  }

  /** A directive to a state that has not been named before. */
  lemma NewLine(m: P.Machine, d: P.Directive, from: nat)
    requires P.Names(m.lookup) && |m.table| == |m.lookup| < A.STOP && from < |m.lookup| && m.lookup[from] == d.state
    requires d.nextState != "" && d.nextState !in m.lookup
    ensures P.Directed(m, d) == Put(P.Machine(m.lookup + [d.nextState], m.table + [[]]), from, d, |m.lookup|)
  {
    var m' := P.Machine(m.lookup + [d.nextState], m.table + [[]]);
    P.NewName(m.lookup, d.nextState);
    P.IdOfName(m'.lookup, from);
  }

  function Put(m: P.Machine, from: nat, d: P.Directive, to: nat): P.Machine
    requires from < |m.table|
  {
    m.(table := m.table[from := m.table[from] + [(d.token, A.Transition(to, d.flags, d.callback))]])
  }

  /** So many of the directives make so many tokens of each state. */
  ghost predicate Lines(i: nat, counts: seq<nat>) {
    && i <= |DIRECTIVES| && |counts| <= |NAMES|
    && (forall r :: 0 <= r < |counts| ==> counts[r] <= |TABLE[r]|)
    && P.Compiled(P.Machine([], []), DIRECTIVES[..i])
         == P.Machine(NAMES[..|counts|], seq(|counts|, r requires 0 <= r < |counts| => TABLE[r][..counts[r]]))
  }

  lemma Compiling(i: nat)
    requires i < |DIRECTIVES|
    ensures var start := P.Machine([], []);
      P.Compiled(start, DIRECTIVES[..i + 1]) == P.Directed(P.Compiled(start, DIRECTIVES[..i]), DIRECTIVES[i])
  {
    assert DIRECTIVES[..i + 1] == DIRECTIVES[..i] + [DIRECTIVES[i]];
    P.CompiledLast(P.Machine([], []), DIRECTIVES[..i], DIRECTIVES[i]);
  }

  lemma NamesAreNew(k: nat)
    requires k <= |NAMES|
    ensures P.Names(NAMES[..k])
  {
  }

  lemma NextLine(i: nat, counts: seq<nat>, from: nat, to: nat) returns (next: seq<nat>)
    requires Lines(i, counts) && i < |DIRECTIVES| && from < |counts| && counts[from] < |TABLE[from]|
    requires var d := DIRECTIVES[i];
      && d.state == NAMES[from]
      && TABLE[from][counts[from]] == (d.token, A.Transition(to, d.flags, d.callback))
      && if d.nextState == "" then to == A.STOP else to < |counts| && NAMES[to] == d.nextState
    ensures next == counts[from := counts[from] + 1] && Lines(i + 1, next)
  {
    hide P.Directed, P.Compiled;
    next := counts[from := counts[from] + 1];
    NamesAreNew(|counts|);
    Line(P.Compiled(P.Machine([], []), DIRECTIVES[..i]), DIRECTIVES[i], from, to);
    Compiling(i);
    assert TABLE[from][..counts[from]] + [TABLE[from][counts[from]]] == TABLE[from][..counts[from] + 1];
  }

  lemma NextNewLine(i: nat, counts: seq<nat>, from: nat) returns (next: seq<nat>)
    requires Lines(i, counts) && i < |DIRECTIVES| && from < |counts| < |NAMES| && counts[from] < |TABLE[from]|
    requires var d := DIRECTIVES[i];
      && d.state == NAMES[from] && d.nextState == NAMES[|counts|]
      && TABLE[from][counts[from]] == (d.token, A.Transition(|counts|, d.flags, d.callback))
    ensures next == (counts + [0])[from := counts[from] + 1] && Lines(i + 1, next)
  {
    hide P.Directed, P.Compiled;
    next := (counts + [0])[from := counts[from] + 1];
    NamesAreNew(|counts|);
    NamesAreNew(|counts| + 1);
    assert NAMES[..|counts| + 1] == NAMES[..|counts|] + [NAMES[|counts|]];
    assert NAMES[..|counts| + 1][|counts|] !in NAMES[..|counts|];
    NewLine(P.Compiled(P.Machine([], []), DIRECTIVES[..i]), DIRECTIVES[i], from);
    Compiling(i);
    assert TABLE[from][..counts[from]] + [TABLE[from][counts[from]]] == TABLE[from][..counts[from] + 1];
  }

  lemma FirstLine()
    ensures Lines(1, [0, 1])
  {
    hide P.Compiled, P.Directed;
    NothingCompiled();
    FirstDirected();
    Compiling(0);
  }

  lemma FirstNames()
    ensures P.Registered(P.Machine([], []), "key") == P.Machine(NAMES[..1], [[]])
    ensures P.Registered(P.Machine(NAMES[..1], [[]]), "findKey") == P.Machine(NAMES[..2], [[], []])
    ensures P.IdOf(NAMES[..1], "key") == KEY && P.IdOf(NAMES[..2], "findKey") == FIND_KEY
  {
    NamesAreNew(1);
    NamesAreNew(2);
    P.IdOfName(NAMES[..1], 0);
    P.IdOfName(NAMES[..2], 1);
  }

  /** The first directive names two states. */
  lemma FirstDirected()
    ensures P.Directed(P.Machine([], []), DIRECTIVES[0]) == P.Machine(NAMES[..2], [[], TABLE[FIND_KEY][..1]])
  {
    hide P.Registered, P.Register, P.IdOf;
    FirstNames();
    var first := (DIRECTIVES[0].token, A.Transition(KEY, NO_FLAGS, None));
    assert TABLE[FIND_KEY][..1] == [first] == [] + [first];
  }

  lemma NothingCompiled()
    ensures P.Compiled(P.Machine([], []), DIRECTIVES[..0]) == P.Machine([], [])
  {
  }

  /** The parser that Configure sets up for these directives has this table. */
  lemma TableIsCompiled()
    ensures P.Compiled(P.Machine([], []), DIRECTIVES) == P.Machine(NAMES, TABLE)
  {
    hide Lines;
    FirstLine();
    var n: seq<nat> := [0, 1];
    n := NextLine(1, n, FIND_KEY, A.STOP);
    n := NextNewLine(2, n, KEY);
    n := NextNewLine(3, n, FIND_VAL);
    n := NextNewLine(4, n, VALUE);
    n := NextNewLine(5, n, VALUE);
    n := NextLine(6, n, VALUE, FIND_KEY);
    n := NextLine(7, n, VALUE, FIND_KEY);
    n := NextLine(8, n, VALUE, A.STOP);
    n := NextLine(9, n, STRING, FIND_KEY);
    n := NextLine(10, n, ARRAY, ARRAY);
    n := NextLine(11, n, ARRAY, FIND_KEY);
    n := NextLine(12, n, ARRAY, A.STOP);
    n := NextLine(13, n, ARRAY, ARRAY);
    n := NextNewLine(14, n, ARRAY);
    n := NextLine(15, n, ARR_STRING, ARRAY);
    assert n == [1, 2, 1, 5, 1, 5, 1];
    AllLines();
  }

  lemma AllLines()
    requires Lines(|DIRECTIVES|, [1, 2, 1, 5, 1, 5, 1])
    ensures P.Compiled(P.Machine([], []), DIRECTIVES) == P.Machine(NAMES, TABLE)
  {
    hide P.Compiled;
    assert DIRECTIVES[..|DIRECTIVES|] == DIRECTIVES && NAMES[..|NAMES|] == NAMES;
    assert forall r :: 0 <= r < |TABLE| ==> TABLE[r][..[1, 2, 1, 5, 1, 5, 1][r]] == TABLE[r];
  }

  // ---------------------------------------------------------------------- the callbacks

  function CallbackOf(number: nat, value: bytes): Callback {
    if number == DO_KEY then ReadKey(value)
    else if number == DO_VAL then ReadValue(value)
    else if number == DO_ESC then ReadEscaped(value)
    else if number == DO_ARR then ReadArray
    else if number == DO_OBJ then ReadObject
    else if number == DO_END then ReadEnd
    else ReadValueEnd(value)
  }

  /** The calls with the names of the states they come from. */
  function Named(calls: seq<A.Call>, names: nat -> bytes): (named: seq<Call>)
    ensures |named| == |calls|
  {
    seq(|calls|, i requires 0 <= i < |calls| => Call(CallbackOf(calls[i].callback, calls[i].value),
      names(calls[i].state)))
  }

  function PartsOf(call: A.Call): seq<Callback> {
    if call.callback < DO_VAL_END then [CallbackOf(call.callback, call.value)] else [ReadValue(call.value), ReadEnd]
  }

  /** The simple callbacks of the calls. */
  function Fed(calls: seq<A.Call>): seq<Callback> {
    if calls == [] then [] else Fed(calls[..|calls| - 1]) + PartsOf(calls[|calls| - 1])
  }

  lemma FedOne(calls: seq<A.Call>, call: A.Call)
    ensures Fed(calls + [call]) == Fed(calls) + PartsOf(call)
  {
    assert (calls + [call])[..|calls|] == calls;
  }

  lemma {:induction false} SimpleOne(calls: seq<Call>, call: Call)
    ensures Simple(calls + [call]) == Simple(calls) + Parts(call)
    decreases |calls|
  {
    hide Parts;
    if calls == [] {
      assert calls + [call] == [call] && [call][1..] == [] && Parts(call) + [] == Parts(call);
    } else {
      assert (calls + [call])[1..] == calls[1..] + [call];
      SimpleOne(calls[1..], call);
    }
  }

  lemma PartsAre(call: A.Call, names: nat -> bytes)
    ensures Callbacks(Parts(Call(CallbackOf(call.callback, call.value), names(call.state)))) == PartsOf(call)
  {
  }

  lemma {:induction false} FedIsSimple(calls: seq<A.Call>, names: nat -> bytes)
    ensures Callbacks(Simple(Named(calls, names))) == Fed(calls)
    decreases |calls|
  {
    if calls != [] {
      var last := |calls| - 1;
      var call := Named(calls, names)[last];
      FedIsSimple(calls[..last], names);
      assert Named(calls, names) == Named(calls[..last], names) + [call];
      SimpleOne(Named(calls[..last], names), call);
      hide Simple, Named;
      PartsAre(calls[last], names);
    }
  }

  // -------------------------------------------------------------------------- the text

  /** A document as it is laid out in a text.  Blank space may stand wherever section 2 of RFC 8259
      allows it: `gap` in front of a value, `inner` behind an opening bracket, `front` and `colon` in
      front of a name and its colon, `behind` in front of a separator.  The data of a literal (a
      number, true, false or null) reaches up to its separator. */
  datatype Layout =
    | Literal(data: bytes)
    | String(gap: bytes, data: bytes)
    | List(gap: bytes, inner: bytes, elements: seq<Element>)
    | Record(gap: bytes, inner: bytes, members: seq<Member>)

  datatype Element = Element(value: Layout, behind: bytes)

  datatype Member = Member(front: bytes, name: bytes, colon: bytes, value: Layout, behind: bytes)

  /** The blank space of JSON: space, tab, line feed and carriage return. */
  predicate White(s: bytes) { forall b :: b in s ==> b in [32, 9, 10, 13] }

  /** No byte of JSON's structure. */
  predicate Plain(data: bytes) {
    forall b :: b in data ==> b !in [QUOTE, COMMA, OPEN_BRACKET, CLOSE_BRACKET, OPEN_BRACE, CLOSE_BRACE]
  }

  /** Strings and names have no quote in them: the directives know no escapes. */
  predicate Laid(l: Layout) {
    match l
    case Literal(data) => Plain(data)
    case String(gap, data) => White(gap) && QUOTE !in data
    case List(gap, inner, elements) =>
      && White(gap) && White(inner) && (elements != [] ==> inner == [])
      && forall i :: 0 <= i < |elements| ==> LaidElement(elements[i])
    case Record(gap, inner, members) => White(gap) && White(inner) && AllLaid(members)
  }

  predicate LaidElement(e: Element) { Laid(e.value) && White(e.behind) && (e.value.Literal? ==> e.behind == []) }

  predicate LaidMember(m: Member) {
    && White(m.front) && QUOTE !in m.name && White(m.colon)
    && Laid(m.value) && White(m.behind) && (m.value.Literal? ==> m.behind == [])
  }

  predicate AllLaid(members: seq<Member>) { forall i :: 0 <= i < |members| ==> LaidMember(members[i]) }

  /** The text. */
  function Spell(l: Layout): bytes {
    match l
    case Literal(data) => data
    case String(gap, data) => gap + ([QUOTE] + data + [QUOTE])
    case List(gap, inner, elements) => gap + ([OPEN_BRACKET] + inner + SpellElements(elements))
    case Record(gap, inner, members) => gap + ([OPEN_BRACE] + inner + SpellMembers(members))
  }

  function SpellElements(elements: seq<Element>): bytes {
    if elements == [] then [CLOSE_BRACKET]
    else
      SpellElement(elements[0])
      + if |elements| == 1 then [CLOSE_BRACKET] else [COMMA] + SpellElements(elements[1..])
  }

  function SpellElement(e: Element): bytes { Spell(e.value) + e.behind }

  function SpellMembers(members: seq<Member>): bytes {
    if members == [] then [CLOSE_BRACE]
    else SpellMember(members[0]) + if |members| == 1 then [CLOSE_BRACE] else [COMMA] + SpellMembers(members[1..])
  }

  function SpellMember(m: Member): bytes { SpellName(m) + (Spell(m.value) + m.behind) }

  function SpellName(m: Member): bytes { m.front + ([QUOTE] + m.name + [QUOTE]) + (m.colon + [COLON]) }

  /** The document itself.  The directives call `val` with blank data behind lists and records, behind
      strings in lists, and in empty lists. */
  function Content(l: Layout): Json {
    match l
    case Literal(data) => Bare(data)
    case String(_, data) => Quoted(data)
    case List(_, inner, elements) => Arr(if elements == [] then Some(inner) else None, Items(elements))
    case Record(_, _, members) => Obj(Fields(members))
  }

  function Items(elements: seq<Element>): (items: seq<Item>)
    ensures |items| == |elements|
  {
    if elements == [] then [] else [ItemOf(elements[0])] + Items(elements[1..])
  }

  function ItemOf(e: Element): Item { Item(Content(e.value), if e.value.Literal? then None else Some(e.behind)) }

  function Fields(members: seq<Member>): (fields: seq<Field>)
    ensures |fields| == |members|
  {
    if members == [] then [] else [FieldOf(members[0])] + Fields(members[1..])
  }

  function FieldOf(m: Member): Field {
    Field(m.name, Content(m.value), if m.value.Literal? || m.value.String? then None else Some(m.behind))
  }

  // ------------------------------------------------------------------------- one token

  function Scan(s: Scanner, data: bytes): Scanner { ReadAll(TABLE, s, data) }

  /** What the scanner has become: the callbacks come on top of those of `calls`. */
  predicate Got(s: Scanner, state: nat, window: bytes, stack: seq<nat>, calls: seq<A.Call>, more: seq<Callback>) {
    s.state == state && s.window == window && s.stack == stack && Fed(s.calls) == Fed(calls) + more
  }

  /** The scanner behind the bracket that closes the current container. */
  predicate Left(s: Scanner, from: Scanner, more: seq<Callback>) {
    Got(s, if from.stack == [] then A.STOP else from.stack[|from.stack| - 1], [],
        if from.stack == [] then [] else from.stack[..|from.stack| - 1], from.calls, more)
  }

  /** A transition with and without a callback. */
  lemma Token(s: Scanner, b: byte, i: nat)
    requires s.state < |TABLE| && i < |TABLE[s.state]| && TABLE[s.state][i].0 == [b]
    ensures var t := TABLE[s.state][i].1;
      && Scan(s, [b]) == Taken(s, t)
      && Fed(Taken(s, t).calls)
           == Fed(s.calls) + if t.callback.Some? then PartsOf(A.Call(t.callback.value, s.window, s.state)) else []
  {
    var t := TABLE[s.state][i].1;
    ReadByte(TABLE, s, b);
    OfIs(TABLE[s.state], b, i);
    if t.callback.Some? {
      FedOne(s.calls, A.Call(t.callback.value, s.window, s.state));
    } else {
      assert s.calls + [] == s.calls;
    }
  }

  /** A transition that closes a container. */
  lemma Pops(s: Scanner, b: byte, i: nat, callback: nat)
    requires s.state < |TABLE| && i < |TABLE[s.state]|
    requires TABLE[s.state][i] == ([b], A.Transition(A.STOP, POP, Some(callback)))
    ensures Left(Scan(s, [b]), s, PartsOf(A.Call(callback, s.window, s.state)))
  {
    hide Scan, PartsOf, Fed;
    Token(s, b, i);
    var next := Taken(s, A.Transition(A.STOP, POP, Some(callback)));
    assert next.stack == if s.stack == [] then [] else s.stack[..|s.stack| - 1];
  }

  predicate ExpectsValue(s: Scanner) { s.state == VALUE || s.state == ARRAY }

  lemma OpensArray(s: Scanner)
    requires ExpectsValue(s)
    ensures Got(Scan(s, [OPEN_BRACKET]), ARRAY, [], s.stack + [s.state], s.calls, [ReadArray])
  {
    Token(s, OPEN_BRACKET, if s.state == VALUE then 1 else 0);
  }

  lemma OpensObject(s: Scanner)
    requires ExpectsValue(s)
    ensures Got(Scan(s, [OPEN_BRACE]), FIND_KEY, [], s.stack + [s.state], s.calls, [ReadObject])
  {
    Token(s, OPEN_BRACE, if s.state == VALUE then 2 else 1);
  }

  lemma StartsString(s: Scanner)
    requires ExpectsValue(s)
    ensures Got(Scan(s, [QUOTE]), if s.state == VALUE then STRING else ARR_STRING, [], s.stack, s.calls, [])
  {
    Token(s, QUOTE, if s.state == VALUE then 0 else 4);
  }

  lemma EndsString(s: Scanner)
    requires s.state == STRING || s.state == ARR_STRING
    ensures Got(Scan(s, [QUOTE]), if s.state == STRING then FIND_KEY else ARRAY, [], s.stack, s.calls,
      [ReadEscaped(s.window)])
  {
    Token(s, QUOTE, 0);
  }

  lemma StartsKey(s: Scanner)
    requires s.state == FIND_KEY
    ensures Got(Scan(s, [QUOTE]), KEY, [], s.stack, s.calls, [])
  {
    Token(s, QUOTE, 0);
  }

  lemma EndsKey(s: Scanner)
    requires s.state == KEY
    ensures Got(Scan(s, [QUOTE]), FIND_VAL, [], s.stack, s.calls, [ReadKey(s.window)])
  {
    Token(s, QUOTE, 0);
  }

  lemma PassesColon(s: Scanner)
    requires s.state == FIND_VAL
    ensures Got(Scan(s, [COLON]), VALUE, [], s.stack, s.calls, [])
  {
    Token(s, COLON, 0);
  }

  lemma SeparatesItems(s: Scanner)
    requires s.state == ARRAY
    ensures Got(Scan(s, [COMMA]), ARRAY, [], s.stack, s.calls, [ReadValue(s.window)])
    ensures Left(Scan(s, [CLOSE_BRACKET]), s, [ReadValue(s.window), ReadEnd])
  {
    Token(s, COMMA, 3);
    Pops(s, CLOSE_BRACKET, 2, DO_VAL_END);
  }

  lemma SeparatesValues(s: Scanner)
    requires s.state == VALUE
    ensures Got(Scan(s, [COMMA]), FIND_KEY, [], s.stack, s.calls, [ReadValue(s.window)])
    ensures Left(Scan(s, [CLOSE_BRACE]), s, [ReadValue(s.window), ReadEnd])
  {
    Token(s, COMMA, 3);
    Pops(s, CLOSE_BRACE, 4, DO_VAL_END);
  }

  lemma ClosesObject(s: Scanner)
    requires s.state == FIND_KEY
    ensures Left(Scan(s, [CLOSE_BRACE]), s, [ReadEnd])
  {
    Pops(s, CLOSE_BRACE, 1, DO_END);
  }

  lemma Skips(s: Scanner, data: bytes)
    requires s.state < |TABLE|
    requires forall b :: b in data ==> forall i :: 0 <= i < |TABLE[s.state]| ==> TABLE[s.state][i].0 != [b]
    ensures Scan(s, data) == s.(window := s.window + data)
  {
    forall b | b in data ensures Answer(TABLE, s.state, b).None? { OfNone(TABLE[s.state], b); }
    ReadNone(TABLE, s, data);
  }

  lemma SkipsInString(s: Scanner, data: bytes)
    requires s.window == [] && (s.state == KEY || s.state == STRING || s.state == ARR_STRING) && QUOTE !in data
    ensures Scan(s, data) == s.(window := data)
  {
    Skips(s, data);
    assert [] + data == data;
  }

  lemma SkipsPlain(s: Scanner, data: bytes)
    requires ExpectsValue(s) && Plain(data)
    ensures Scan(s, data) == s.(window := s.window + data)
  {
    forall b, i | b in data && 0 <= i < |TABLE[s.state]| ensures TABLE[s.state][i].0 != [b] {
      assert TABLE[s.state][i].0[0] in [QUOTE, COMMA, OPEN_BRACKET, CLOSE_BRACKET, OPEN_BRACE, CLOSE_BRACE];
    }
    Skips(s, data);
  }

  lemma SkipsWhite(s: Scanner, data: bytes)
    requires (ExpectsValue(s) || s.state == FIND_KEY || s.state == FIND_VAL) && White(data)
    ensures Scan(s, data) == s.(window := s.window + data)
  {
    forall b, i | b in data && 0 <= i < |TABLE[s.state]| ensures TABLE[s.state][i].0 != [b] {
      assert TABLE[s.state][i].0[0] !in [32, 9, 10, 13];
    }
    Skips(s, data);
  }

  lemma SkipsComma(s: Scanner)
    requires s.state == FIND_KEY
    ensures Scan(s, [COMMA]) == s.(window := s.window + [COMMA])
  {
    Skips(s, [COMMA]);
  }

  lemma Then(s: Scanner, a: bytes, b: bytes)
    ensures Scan(s, a + b) == Scan(Scan(s, a), b)
  {
    ReadAppend(TABLE, s, a, b);
  }

  // ------------------------------------------------------------------------ a document

  /** The scanner behind a value and the blank space that follows it: a literal is still in the
      window. */
  predicate Pending(s: Scanner, from: Scanner, l: Layout, behind: bytes) {
    Got(s, if l.String? && from.state == VALUE then FIND_KEY else from.state, if l.Literal? then l.data else behind,
        from.stack, from.calls, if l.Literal? then [] else Feed(Content(l)))
  }

  lemma {:induction false} ReadsValue(s: Scanner, l: Layout)
    requires ExpectsValue(s) && s.window == [] && Laid(l)
    ensures Pending(Scan(s, Spell(l)), s, l, [])
    decreases l, 0
  {
    hide Scan, Fed;
    if l.Literal? {
      SkipsPlain(s, l.data);
      assert [] + l.data == l.data;
    } else {
      SkipsWhite(s, l.gap);
      var there := s.(window := s.window + l.gap);
      match l
      case String(gap, data) =>
        Then(s, gap, [QUOTE] + data + [QUOTE]);
        ReadsString(there, data);
      case List(gap, inner, elements) =>
        Then(s, gap, [OPEN_BRACKET] + inner + SpellElements(elements));
        ReadsList(there, inner, elements);
      case Record(gap, inner, members) =>
        Then(s, gap, [OPEN_BRACE] + inner + SpellMembers(members));
        ReadsRecord(there, inner, members);
    }
  }

  lemma ReadsString(s: Scanner, data: bytes)
    requires ExpectsValue(s) && QUOTE !in data
    ensures Pending(Scan(s, [QUOTE] + data + [QUOTE]), s, String([], data), [])
  {
    hide Scan, Fed;
    StartsString(s);
    var inside := Scan(s, [QUOTE]);
    SkipsInString(inside, data);
    EndsString(inside.(window := data));
    Then(s, [QUOTE], data);
    Then(s, [QUOTE] + data, [QUOTE]);
  }

  /** From the opening to the closing bracket of a container. */
  lemma ComesBack(s: Scanner, inside: Scanner, end: Scanner, open: Callback, more: seq<Callback>)
    requires inside.stack == s.stack + [s.state] && Fed(inside.calls) == Fed(s.calls) + [open]
    requires Left(end, inside, more)
    ensures Got(end, s.state, [], s.stack, s.calls, [open] + more)
  {
    hide Fed;
    assert inside.stack[..|s.stack|] == s.stack;
    Associative(Fed(s.calls), [open], more);
  }

  lemma ReadsList(s: Scanner, inner: bytes, elements: seq<Element>)
    requires ExpectsValue(s) && Laid(List([], inner, elements))
    ensures Pending(Scan(s, [OPEN_BRACKET] + inner + SpellElements(elements)), s, List([], inner, elements), [])
    decreases elements, 1
  {
    hide Scan, Fed, SpellElements, Content, Feed, Left;
    OpensArray(s);
    var inside, text := Scan(s, [OPEN_BRACKET]), SpellElements(elements);
    Then(s, [OPEN_BRACKET] + inner, text);
    FeedOfList(inner, elements);
    if elements == [] {
      SkipsWhite(inside, inner);
      assert [] + inner == inner;
      SeparatesItems(inside.(window := inner));
      Then(s, [OPEN_BRACKET], inner);
      LeftFrom(Scan(inside.(window := inner), text), inside, inner, [ReadValue(inner), ReadEnd]);
      ComesBack(s, inside, Scan(inside.(window := inner), text), ReadArray, [ReadValue(inner), ReadEnd]);
    } else {
      ReadsElements(inside, elements);
      assert [OPEN_BRACKET] + [] == [OPEN_BRACKET];
      ComesBack(s, inside, Scan(inside, text), ReadArray, FeedItems(Items(elements)) + [ReadEnd]);
    }
  }

  lemma LeftFrom(end: Scanner, from: Scanner, window: bytes, more: seq<Callback>)
    ensures Left(end, from.(window := window), more) <==> Left(end, from, more)
  {
  }

  lemma FeedOfList(inner: bytes, elements: seq<Element>)
    ensures elements == [] ==> SpellElements(elements) == [CLOSE_BRACKET]
    ensures Feed(Content(List([], inner, elements))) == [ReadArray] +
      if elements == [] then [ReadValue(inner), ReadEnd] else FeedItems(Items(elements)) + [ReadEnd]
  {
    if elements != [] {
      assert [] + FeedItems(Items(elements)) == FeedItems(Items(elements));
      Associative([ReadArray], FeedItems(Items(elements)), [ReadEnd]);
    }
  }

  lemma ReadsRecord(s: Scanner, inner: bytes, members: seq<Member>)
    requires ExpectsValue(s) && Laid(Record([], inner, members))
    ensures Pending(Scan(s, [OPEN_BRACE] + inner + SpellMembers(members)), s, Record([], inner, members), [])
    decreases members, 1
  {
    hide Scan, Fed, SpellMembers, Content, Feed, Left;
    OpensObject(s);
    var inside, text := Scan(s, [OPEN_BRACE]), SpellMembers(members);
    SkipsWhite(inside, inner);
    var there := inside.(window := inside.window + inner);
    ReadsMembers(there, members);
    Then(s, [OPEN_BRACE], inner);
    Then(s, [OPEN_BRACE] + inner, text);
    FeedOfRecord(inner, members);
    ComesBack(s, there, Scan(there, text), ReadObject, FeedFields(Fields(members)) + [ReadEnd]);
  }

  lemma FeedOfRecord(inner: bytes, members: seq<Member>)
    ensures Feed(Content(Record([], inner, members))) == [ReadObject] + (FeedFields(Fields(members)) + [ReadEnd])
  {
    Associative([ReadObject], FeedFields(Fields(members)), [ReadEnd]);
  }

  /** A value and the blank space behind it. */
  lemma ReadsSpaced(s: Scanner, l: Layout, behind: bytes)
    requires ExpectsValue(s) && s.window == [] && Laid(l) && White(behind) && (l.Literal? ==> behind == [])
    ensures Pending(Scan(s, Spell(l) + behind), s, l, behind)
    decreases l, 1
  {
    hide Scan, Fed, Spell, Content, Feed;
    ReadsValue(s, l);
    Then(s, Spell(l), behind);
    if l.Literal? {
      assert Spell(l) + [] == Spell(l);
    } else {
      SkipsWhite(Scan(s, Spell(l)), behind);
      assert [] + behind == behind;
    }
  }

  /** The callbacks of an element, and of a member. */
  function FeedItem(item: Item): seq<Callback> { Feed(item.value) + FeedBlank(item.blank) }

  /** The separator behind an element. */
  lemma ElementEnds(s: Scanner, from: Scanner, e: Element)
    requires from.state == ARRAY && Pending(s, from, e.value, e.behind)
    ensures Left(Scan(s, [CLOSE_BRACKET]), from, FeedItem(ItemOf(e)) + [ReadEnd])
    ensures Got(Scan(s, [COMMA]), ARRAY, [], from.stack, from.calls, FeedItem(ItemOf(e)))
  {
    hide Scan, Fed;
    SeparatesItems(s);
    assert [ReadValue(s.window), ReadEnd] == [ReadValue(s.window)] + [ReadEnd];
  }

  lemma ElementsAre(elements: seq<Element>)
    requires elements != []
    ensures var e, rest := elements[0], elements[1..];
      if rest == [] then
        && SpellElements(elements) == SpellElement(e) + [CLOSE_BRACKET]
        && FeedItems(Items(elements)) == FeedItem(ItemOf(e))
      else
        && SpellElements(elements) == SpellElement(e) + [COMMA] + SpellElements(rest)
        && FeedItems(Items(elements)) + [ReadEnd] == FeedItem(ItemOf(e)) + (FeedItems(Items(rest)) + [ReadEnd])
  {
    hide SpellElement, ItemOf, Feed, FeedBlank;
    assert Items(elements)[1..] == Items(elements[1..]);
    if elements[1..] == [] { assert Items(elements[1..]) == []; }
  }

  /** Leaving a container some callbacks later. */
  lemma LeavesLater(s: Scanner, from: Scanner, done: seq<Callback>, end: Scanner, more: seq<Callback>)
    requires Got(s, s.state, s.window, from.stack, from.calls, done) && Left(end, s, more)
    ensures Left(end, from, done + more)
  {
    hide Fed;
  }

  lemma ReadsElement(s: Scanner, e: Element)
    requires s.state == ARRAY && s.window == [] && LaidElement(e)
    ensures var next := Scan(s, SpellElement(e) + [COMMA]);
      && Left(Scan(s, SpellElement(e) + [CLOSE_BRACKET]), s, FeedItem(ItemOf(e)) + [ReadEnd])
      && next.state == ARRAY && next.window == []
      && Got(next, next.state, next.window, s.stack, s.calls, FeedItem(ItemOf(e)))
    decreases e, 0
  {
    hide Scan, Fed, Spell, ItemOf, FeedItem, Laid, Left;
    assert e.value < e;
    ReadsSpaced(s, e.value, e.behind);
    ElementEnds(Scan(s, SpellElement(e)), s, e);
    Then(s, SpellElement(e), [CLOSE_BRACKET]);
    Then(s, SpellElement(e), [COMMA]);
  }

  lemma {:induction false} ReadsElements(s: Scanner, elements: seq<Element>)
    requires s.state == ARRAY && s.window == [] && elements != []
    requires forall i :: 0 <= i < |elements| ==> LaidElement(elements[i])
    ensures Left(Scan(s, SpellElements(elements)), s, FeedItems(Items(elements)) + [ReadEnd])
    decreases elements, 0
  {
    hide Scan, ItemOf, FeedItem, LaidElement, SpellElement, SpellElements, Items, FeedItems, Got, Left;
    var e, rest := elements[0], elements[1..];
    ReadsElement(s, e);
    ElementsAre(elements);
    if rest != [] {
      var next := Scan(s, SpellElement(e) + [COMMA]);
      ReadsElements(next, rest);
      Then(s, SpellElement(e) + [COMMA], SpellElements(rest));
      LeavesLater(next, s, FeedItem(ItemOf(e)), Scan(next, SpellElements(rest)), FeedItems(Items(rest)) + [ReadEnd]);
    }
  }

  /** The separator behind the value of a member. */
  lemma MemberEnds(s: Scanner, from: Scanner, m: Member)
    requires from.state == VALUE && Pending(s, from, m.value, m.behind)
    ensures var f, next := FieldOf(m), Scan(s, [COMMA]);
      && Left(Scan(s, [CLOSE_BRACE]), from, Feed(f.value) + FeedBlank(f.blank) + [ReadEnd])
      && Got(next, FIND_KEY, next.window, from.stack, from.calls, Feed(f.value) + FeedBlank(f.blank))
  {
    hide Scan, Fed;
    if m.value.String? {
      ClosesObject(s);
      SkipsComma(s);
    } else {
      SeparatesValues(s);
      assert [ReadValue(s.window), ReadEnd] == [ReadValue(s.window)] + [ReadEnd];
    }
  }

  /** A name up to its colon. */
  lemma ReadsName(s: Scanner, m: Member)
    requires s.state == FIND_KEY && LaidMember(m)
    ensures Got(Scan(s, SpellName(m)), VALUE, [], s.stack, s.calls, [ReadKey(m.name)])
  {
    hide Scan, Fed, Laid;
    var front, quoted := m.front, [QUOTE] + m.name + [QUOTE];
    SkipsWhite(s, front);
    var there := s.(window := s.window + front);
    ReadsQuotedName(there, m.name);
    var named := Scan(there, quoted);
    SkipsWhite(named, m.colon);
    PassesColon(named.(window := named.window + m.colon));
    Then(s, front, quoted);
    Then(s, front + quoted, m.colon + [COLON]);
    Then(named, m.colon, [COLON]);
  }

  lemma ReadsQuotedName(s: Scanner, name: bytes)
    requires s.state == FIND_KEY && QUOTE !in name
    ensures Got(Scan(s, [QUOTE] + name + [QUOTE]), FIND_VAL, [], s.stack, s.calls, [ReadKey(name)])
  {
    hide Scan, Fed;
    StartsKey(s);
    var inside := Scan(s, [QUOTE]);
    SkipsInString(inside, name);
    EndsKey(inside.(window := name));
    Then(s, [QUOTE], name);
    Then(s, [QUOTE] + name, [QUOTE]);
  }

  lemma ReadsMember(s: Scanner, m: Member)
    requires s.state == FIND_KEY && LaidMember(m)
    ensures var next := Scan(s, SpellMember(m) + [COMMA]);
      && Left(Scan(s, SpellMember(m) + [CLOSE_BRACE]), s, FeedField(FieldOf(m)) + [ReadEnd])
      && next.state == FIND_KEY && Got(next, next.state, next.window, s.stack, s.calls, FeedField(FieldOf(m)))
    decreases m, 0
  {
    hide Scan, Fed, Spell, SpellName, Content, Feed, Laid, FeedBlank;
    var name, front, f := SpellName(m), Spell(m.value) + m.behind, FieldOf(m);
    ReadsName(s, m);
    var named := Scan(s, name);
    ReadsSpaced(named, m.value, m.behind);
    Then(s, name, front);
    MemberEnds(Scan(named, front), named, m);
    Then(s, name + front, [CLOSE_BRACE]);
    Then(s, name + front, [COMMA]);
    assert FeedField(f) == [ReadKey(f.key)] + (Feed(f.value) + FeedBlank(f.blank));
    assert FeedField(f) + [ReadEnd] == [ReadKey(f.key)] + (Feed(f.value) + FeedBlank(f.blank) + [ReadEnd]);
  }

  lemma MembersAre(members: seq<Member>)
    requires members != []
    ensures var m, rest := members[0], members[1..];
      if rest == [] then
        && SpellMembers(members) == SpellMember(m) + [CLOSE_BRACE]
        && FeedFields(Fields(members)) == FeedField(FieldOf(m))
      else
        && SpellMembers(members) == SpellMember(m) + [COMMA] + SpellMembers(rest)
        && FeedFields(Fields(members)) + [ReadEnd] == FeedField(FieldOf(m)) + (FeedFields(Fields(rest)) + [ReadEnd])
  {
    hide SpellMember, FieldOf, FeedField;
    assert Fields(members)[1..] == Fields(members[1..]);
    if members[1..] == [] { assert Fields(members[1..]) == []; }
  }

  lemma {:induction false} ReadsMembers(s: Scanner, members: seq<Member>)
    requires s.state == FIND_KEY && AllLaid(members)
    ensures Left(Scan(s, SpellMembers(members)), s, FeedFields(Fields(members)) + [ReadEnd])
    decreases members, 0
  {
    if members == [] {
      ClosesObject(s);
    } else {
      hide Scan, SpellMember, FieldOf, FeedField, LaidMember, SpellMembers, Fields, FeedFields, Got, Left;
      var m, rest := members[0], members[1..];
      ReadsMember(s, m);
      MembersAre(members);
      if rest != [] {
        var next := Scan(s, SpellMember(m) + [COMMA]);
        ReadsMembers(next, rest);
        Then(s, SpellMember(m) + [COMMA], SpellMembers(rest));
        LeavesLater(next, s, FeedField(FieldOf(m)), Scan(next, SpellMembers(rest)),
          FeedFields(Fields(rest)) + [ReadEnd]);
      }
    }
  }

  // ------------------------------------------------------------------ the whole message

  /** Where the parser ends on a text. */
  ghost function Parsed(data: bytes): (end: A.Config)
    requires P.Ends(TABLE, data, FIND_KEY, [], |data| + 1)
    ensures end.readStart <= |data| && A.AllInRange(data, end.log)
  {
    P.ParserRun(TABLE, data, FIND_KEY, [], |data| + 1).config
  }

  ghost function ParsedCalls(data: bytes, names: nat -> bytes): seq<Call>
    requires P.Ends(TABLE, data, FIND_KEY, [], |data| + 1)
  {
    Named(A.Calls(data, Parsed(data).log), names)
  }

  /** What the formatter makes of a text: the calls of the parser's run, and the remainder. */
  ghost function FormattedText(lib: Library, names: nat -> bytes, data: bytes): seq<Token>
    requires P.Ends(TABLE, data, FIND_KEY, [], |data| + 1)
  {
    var rest := data[Parsed(data).readStart..];
    Formatted(lib, [], ParsedCalls(data, names), if rest == [] then None else Some(rest),
      names(Parsed(data).state)).message
  }

  /** The parser makes the callbacks of the document, and leaves over what follows it. */
  lemma ReadsDocument(doc: Layout, tail: bytes)
    requires doc.Record? && Laid(doc)
    ensures var s := Scan(Scanner(FIND_KEY, [], [], []), Spell(doc) + tail);
      Got(s, A.STOP, tail, [], [], FeedFields(Fields(doc.members)) + [ReadEnd])
  {
    hide Scan, SpellMembers, Fields, FeedFields, Fed;
    var start, text := Scanner(FIND_KEY, [], [], []), SpellMembers(doc.members);
    var gap, inner := doc.gap, doc.inner;
    SkipsWhite(start, gap);
    var there := start.(window := start.window + gap);
    SkipsBrace(there);
    var brace := there.(window := there.window + [OPEN_BRACE]);
    SkipsWhite(brace, inner);
    var inside := brace.(window := brace.window + inner);
    ReadsMembers(inside, doc.members);
    Then(start, gap, [OPEN_BRACE] + inner + text);
    Then(there, [OPEN_BRACE] + inner, text);
    Then(there, [OPEN_BRACE], inner);
    Then(start, Spell(doc), tail);
    SkipsAtStop(Scan(inside, text), tail);
  }

  lemma SkipsBrace(s: Scanner)
    requires s.state == FIND_KEY
    ensures Scan(s, [OPEN_BRACE]) == s.(window := s.window + [OPEN_BRACE])
  {
    Skips(s, [OPEN_BRACE]);
  }

  lemma SkipsAtStop(s: Scanner, data: bytes)
    requires s.state == A.STOP && s.window == []
    ensures Scan(s, data) == s.(window := data)
  {
    StopReads(TABLE, s, data);
    assert [] + data == data;
  }

  lemma ParsedByScan(data: bytes)
    ensures P.Ends(TABLE, data, FIND_KEY, [], |data| + 1)
    ensures P.ParserRun(TABLE, data, FIND_KEY, [], |data| + 1).Finished?
    ensures var s, end := Scan(Scanner(FIND_KEY, [], [], []), data), Parsed(data);
      s.window == data[end.readStart..] && s.calls == A.Calls(data, end.log)
  {
    TableHasBytes();
    ParseIsScan(TABLE, data, FIND_KEY, []);
  }

  /** The parser returns on the text of a document; the calls of its run are those of the document. */
  lemma ParsesDocument(names: nat -> bytes, doc: Layout, tail: bytes)
    requires doc.Record? && Laid(doc)
    ensures P.Ends(TABLE, Spell(doc) + tail, FIND_KEY, [], |Spell(doc) + tail| + 1)
    ensures var data := Spell(doc) + tail;
      Reads(ParsedCalls(data, names), Fields(doc.members)) && data[Parsed(data).readStart..] == tail
  {
    hide Scan, Spell, Fields, FeedFields, Fed, Laid, A.Calls, Simple, Named, Parsed, P.Ends;
    var data := Spell(doc) + tail;
    ParsedByScan(data);
    ReadsDocument(doc, tail);
    FedIsSimple(A.Calls(data, Parsed(data).log), names);
    FedNone();
  }

  /** Nothing is left of blank space when it is trimmed. */
  ghost predicate TrimsWhite(lib: Library) { forall s :: White(s) ==> lib.trim(s) == [] }

  /** Parser and callbacks together: for the text of any document without quotes in its strings and
      names, in any layout, the formatter writes that document, exactly if no scalar in it is blank and
      no string in it changes when its spelling is trimmed and encoded instead of what it means. */
  lemma FormatsDocument(lib: Library, names: nat -> bytes, doc: Layout, tail: bytes)
    requires doc.Record? && Laid(doc) && White(tail) && TrimsWhite(lib)
    ensures P.Ends(TABLE, Spell(doc) + tail, FIND_KEY, [], |Spell(doc) + tail| + 1)
    ensures FormattedText(lib, names, Spell(doc) + tail) == Text(lib, Content(doc))
      <==> Filled(lib, Content(doc)) && Kept(lib, Content(doc))
  {
    hide Spell, Fields, Text, Formatted, Reads, ParsedCalls, Parsed, P.Ends, AllFilled, AllKept, AllSpaced, TrimsWhite;
    var data := Spell(doc) + tail;
    ParsesDocument(names, doc, tail);
    LaidIsTidy(doc);
    LaidIsSpaced(lib, doc);
    assert lib.trim(tail) == [] by { TrimsAll(lib, tail); }
    var rest := if tail == [] then None else Some(tail);
    PrintsIffPreserved(lib, Fields(doc.members), ParsedCalls(data, names), rest, names(Parsed(data).state));
  }

  lemma TrimsAll(lib: Library, s: bytes)
    requires TrimsWhite(lib) && White(s)
    ensures lib.trim(s) == []
  {
  }

  /** A string that changes: the blank space in `{"a":" x "}` is lost. */
  lemma OuterSpaceIsLost(lib: Library, names: nat -> bytes)
    requires TrimsWhite(lib) && lib.trim([32, 120, 32]) == [120]
    requires lib.encode(lib.decode([32, 120, 32])) != lib.encode([120])
    ensures var data := [OPEN_BRACE, QUOTE, 97, QUOTE, COLON, QUOTE, 32, 120, 32, QUOTE, CLOSE_BRACE];
      && P.Ends(TABLE, data, FIND_KEY, [], |data| + 1)
      && FormattedText(lib, names, data) != Text(lib, Obj([Field([97], Quoted([32, 120, 32]), None)]))
  {
    hide FormattedText, Text, P.Ends;
    var member := Member([], [97], [], String([], [32, 120, 32]), []);
    var doc := Record([], [], [member]);
    assert LaidMember(member) by { assert Laid(member.value); }
    assert [member][0] == member && Laid(doc);
    assert SpellMembers([member])
        == [QUOTE, 97, QUOTE, COLON, QUOTE, 32, 120, 32, QUOTE] + [CLOSE_BRACE];
    assert Spell(doc) + [] == [OPEN_BRACE, QUOTE, 97, QUOTE, COLON, QUOTE, 32, 120, 32, QUOTE, CLOSE_BRACE];
    assert Fields([member]) == [FieldOf(member)];
    assert !Kept(lib, Content(doc)) by { assert !Kept(lib, Fields([member])[0].value); }
    FormatsDocument(lib, names, doc, []);
  }

  lemma ItemAt(elements: seq<Element>, i: nat)
    requires i < |elements|
    ensures Items(elements)[i] == ItemOf(elements[i])
  {
    if i > 0 { ItemAt(elements[1..], i - 1); }
  }

  lemma FieldAt(members: seq<Member>, i: nat)
    requires i < |members|
    ensures Fields(members)[i] == FieldOf(members[i])
  {
    if i > 0 { FieldAt(members[1..], i - 1); }
  }

  /** The directives call `val` wherever a null would be written otherwise. */
  lemma {:induction false} LaidIsTidy(l: Layout)
    ensures Tidy(Content(l))
    ensures l.Record? ==> forall i :: 0 <= i < |l.members| ==> Tidy(Fields(l.members)[i].value)
    decreases l
  {
    match l
    case List(_, _, elements) =>
      forall i | 0 <= i < |elements| ensures Tidy(Items(elements)[i].value) {
        ItemAt(elements, i);
        assert elements[i].value < elements[i];
        LaidIsTidy(elements[i].value);
      }
    case Record(_, _, members) =>
      forall i | 0 <= i < |members|
        ensures var f := Fields(members)[i]; Tidy(f.value) && (IsScalar(f.value) || f.blank.Some?) {
        FieldAt(members, i);
        LaidIsTidy(members[i].value);
      }
    case _ =>
  }

  lemma {:induction false} LaidIsSpaced(lib: Library, l: Layout)
    requires Laid(l) && TrimsWhite(lib)
    ensures Spaced(lib, Content(l)) && (l.Record? ==> AllSpaced(lib, Fields(l.members)))
    decreases l
  {
    match l
    case List(_, inner, elements) =>
      forall i | 0 <= i < |elements|
        ensures Spaced(lib, Items(elements)[i].value) && SpaceIn(lib, Items(elements)[i].blank) {
        ItemAt(elements, i);
        assert LaidElement(elements[i]) && elements[i].value < elements[i];
        LaidIsSpaced(lib, elements[i].value);
      }
    case Record(_, _, members) =>
      forall i | 0 <= i < |members|
        ensures Spaced(lib, Fields(members)[i].value) && SpaceIn(lib, Fields(members)[i].blank) {
        FieldAt(members, i);
        assert LaidMember(members[i]);
        LaidIsSpaced(lib, members[i].value);
      }
    case _ =>
  }

  lemma FedNone()
    ensures Fed([]) == [] && forall more: seq<Callback> :: [] + more == more
  {
  }

  /** Format with the parser that Configure sets up, in place. */
  method FormatMessage(parser: P.TransitionParser, formatter: JsonFormatter, data: bytes, names: nat -> bytes)
    returns (text: seq<Token>)
    requires parser.Valid() && parser.Description() == P.Machine(NAMES, TABLE)
    requires parser.stack == [] && formatter.stack == [] && formatter !in parser.repr
    modifies parser`lookup, parser`tokens, parser`table, parser`stack, formatter
    ensures parser.Valid() && parser.Description() == P.Machine(NAMES, TABLE)
    ensures P.Ends(TABLE, data, FIND_KEY, [], |data| + 1) && text == FormattedText(formatter.lib, names, data)
  {
    hide P.TransitionParser.Valid, P.Ends, P.ParserRun, Formatted, Named, A.Calls;
    ParsedByScan(data);
    KnowsFindKey();
    var rest, last, calls, crashed := parser.Parse(data, "findKey", |data| + 1);
    text := formatter.Format(Named(calls, names), rest, names(last));
  }

  lemma KnowsFindKey()
    ensures P.Registered(P.Machine(NAMES, TABLE), "findKey") == P.Machine(NAMES, TABLE)
    ensures P.Register(NAMES, "findKey") == NAMES && P.IdOf(NAMES, "findKey") == FIND_KEY
  {
    NamesAreNew(|NAMES|);
    assert NAMES[..|NAMES|] == NAMES && NAMES[FIND_KEY] == "findKey";
    P.IdOfName(NAMES, FIND_KEY);
    assert TABLE + [] == TABLE;
  }

  // --------------------------------------------------------------- the text itself again

  function Bytes(token: Token): bytes {
    match token
    case OpenObject => [OPEN_BRACE]
    case CloseObject => [CLOSE_BRACE]
    case OpenArray => [OPEN_BRACKET]
    case CloseArray => [CLOSE_BRACKET]
    case Comma => [COMMA]
    case Name(key) => [QUOTE] + key + [QUOTE, COLON]
    case Scalar(text) => text
    case Null => [110, 117, 108, 108]
  }

  function Rendered(tokens: seq<Token>): bytes {
    if tokens == [] then [] else Bytes(tokens[0]) + Rendered(tokens[1..])
  }

  lemma {:induction false} RenderedAppend(a: seq<Token>, b: seq<Token>)
    ensures Rendered(a + b) == Rendered(a) + Rendered(b)
    decreases |a|
  {
    if a == [] {
      assert a + b == b;
    } else {
      assert (a + b)[1..] == a[1..] + b;
      RenderedAppend(a[1..], b);
    }
  }

  lemma RenderedOne(token: Token)
    ensures Rendered([token]) == Bytes(token)
  {
    assert [token][1..] == [];
  }

  /** No blank space between the tokens, and no string that would have to be escaped. */
  predicate Compact(lib: Library, l: Layout) {
    match l
    case Literal(data) => lib.trim(data) == data
    case String(gap, data) => gap == [] && lib.encode(lib.decode(data)) == [QUOTE] + data + [QUOTE]
    case List(gap, inner, elements) =>
      gap == inner == [] && forall i :: 0 <= i < |elements| ==> CompactElement(lib, elements[i])
    case Record(gap, inner, members) =>
      gap == inner == [] && forall i :: 0 <= i < |members| ==> CompactMember(lib, members[i])
  }

  predicate CompactElement(lib: Library, e: Element) { Compact(lib, e.value) && e.behind == [] }

  predicate CompactMember(lib: Library, m: Member) {
    m.front == m.colon == m.behind == [] && Compact(lib, m.value)
  }

  lemma {:induction false} TextIsSpelled(lib: Library, l: Layout)
    requires Compact(lib, l)
    ensures Rendered(Text(lib, Content(l))) == Spell(l)
    decreases l, 0
  {
    hide Rendered, SpellElements, SpellMembers;
    match l
    case Literal(data) => RenderedOne(Scalar(data));
    case String(gap, data) => StringIsSpelled(lib, data);
    case List(_, _, elements) =>
      ElementsAreSpelled(lib, elements, true);
      ListIsSpelled(lib, elements);
    case Record(_, _, members) =>
      MembersAreSpelled(lib, members, true);
      RecordIsSpelled(lib, members);
  }

  lemma StringIsSpelled(lib: Library, data: bytes)
    requires lib.encode(lib.decode(data)) == [QUOTE] + data + [QUOTE]
    ensures Rendered(Text(lib, Quoted(data))) == Spell(String([], data))
  {
    hide Rendered;
    RenderedOne(Scalar(lib.encode(lib.decode(data))));
    assert [] + ([QUOTE] + data + [QUOTE]) == [QUOTE] + data + [QUOTE];
  }

  lemma ListIsSpelled(lib: Library, elements: seq<Element>)
    requires Rendered(TextItems(lib, Items(elements), true)) + [CLOSE_BRACKET] == [] + SpellElements(elements)
    ensures Rendered(Text(lib, Content(List([], [], elements)))) == Spell(List([], [], elements))
  {
    hide Rendered, SpellElements, TextItems, Items;
    var tokens := TextItems(lib, Items(elements), true);
    RenderedAround(OpenArray, tokens, CloseArray);
    NoGaps([OPEN_BRACKET], Rendered(tokens), [CLOSE_BRACKET], SpellElements(elements));
  }

  lemma RecordIsSpelled(lib: Library, members: seq<Member>)
    requires Rendered(TextFields(lib, Fields(members), true)) + [CLOSE_BRACE] == [] + SpellMembers(members)
    ensures Rendered(Text(lib, Content(Record([], [], members)))) == Spell(Record([], [], members))
  {
    hide Rendered, SpellMembers, TextFields, Fields;
    var tokens := TextFields(lib, Fields(members), true);
    RenderedAround(OpenObject, tokens, CloseObject);
    NoGaps([OPEN_BRACE], Rendered(tokens), [CLOSE_BRACE], SpellMembers(members));
  }

  lemma NoGaps(left: bytes, text: bytes, right: bytes, rest: bytes)
    requires text + right == [] + rest
    ensures left + (text + right) == [] + (left + [] + rest)
  {
    assert [] + rest == rest;
  }

  lemma RenderedAround(left: Token, tokens: seq<Token>, right: Token)
    ensures Rendered([left] + tokens + [right]) == Bytes(left) + (Rendered(tokens) + Bytes(right))
  {
    hide Rendered, Bytes;
    RenderedAppend([left] + tokens, [right]);
    RenderedAppend([left], tokens);
    RenderedOne(left);
    RenderedOne(right);
  }

  lemma CommaFirst(first: bool, tokens: seq<Token>)
    ensures Rendered((if first then [] else [Comma]) + tokens) == (if first then [] else [COMMA]) + Rendered(tokens)
  {
    if first { assert [] + tokens == tokens; } else { assert ([Comma] + tokens)[1..] == tokens; }
  }

  /** The two texts of a list, one step at a time. */
  lemma ElementsStep(lib: Library, elements: seq<Element>, first: bool)
    requires elements != [] && elements[0].behind == []
    ensures var l, rest := elements[0].value, elements[1..];
      && TextItems(lib, Items(elements), first)
           == (if first then [] else [Comma]) + Text(lib, Content(l)) + TextItems(lib, Items(rest), false)
      && SpellElements(elements) == Spell(l) + ((if rest == [] then [] else [COMMA]) + SpellElements(rest))
  {
    hide Text, Spell, Content;
    assert Spell(elements[0].value) + [] == Spell(elements[0].value);
    assert Items(elements)[1..] == Items(elements[1..]);
  }

  lemma {:induction false} ElementsAreSpelled(lib: Library, elements: seq<Element>, first: bool)
    requires forall i :: 0 <= i < |elements| ==> CompactElement(lib, elements[i])
    ensures Rendered(TextItems(lib, Items(elements), first)) + [CLOSE_BRACKET]
         == (if first || elements == [] then [] else [COMMA]) + SpellElements(elements)
    decreases elements
  {
    RenderedNone();
    if elements != [] {
      hide Rendered, Text, Spell, Content, Compact, TextItems, SpellElements, Items;
      var e, rest := elements[0], elements[1..];
      assert e.value < e && CompactElement(lib, e);
      var text, tokens := Text(lib, Content(e.value)), TextItems(lib, Items(rest), false);
      TextIsSpelled(lib, e.value);
      ElementsAreSpelled(lib, rest, false);
      ElementsStep(lib, elements, first);
      CommaFirst(first, text);
      RenderedAppend((if first then [] else [Comma]) + text, tokens);
      Regroup(if first then [] else [COMMA], Spell(e.value), Rendered(tokens), [CLOSE_BRACKET]);
    }
  }

  lemma Regroup<T>(a: seq<T>, b: seq<T>, c: seq<T>, d: seq<T>)
    ensures a + b + c + d == a + (b + (c + d))
  {
  }

  lemma RenderedNone()
    ensures Rendered([]) == []
  {
  }

  /** The two texts of a record, one step at a time. */
  lemma MembersStep(lib: Library, members: seq<Member>, first: bool)
    requires members != [] && members[0].front == members[0].colon == members[0].behind == []
    ensures var m, rest := members[0], members[1..];
      && TextFields(lib, Fields(members), first)
           == (if first then [] else [Comma]) + [Name(m.name)] + Text(lib, Content(m.value))
              + TextFields(lib, Fields(rest), false)
      && SpellMembers(members)
           == (Bytes(Name(m.name)) + Spell(m.value)) + ((if rest == [] then [] else [COMMA]) + SpellMembers(rest))
  {
    hide Text, Spell, Content;
    var m := members[0];
    assert Spell(m.value) + [] == Spell(m.value);
    assert SpellName(m) == Bytes(Name(m.name));
    assert Fields(members)[1..] == Fields(members[1..]);
  }

  lemma MemberIsSpelled(lib: Library, m: Member, first: bool)
    requires Rendered(Text(lib, Content(m.value))) == Spell(m.value)
    ensures Rendered((if first then [] else [Comma]) + [Name(m.name)] + Text(lib, Content(m.value)))
         == (if first then [] else [COMMA]) + (Bytes(Name(m.name)) + Spell(m.value))
  {
    hide Rendered, Text, Spell, Content, Bytes;
    var comma := if first then [] else [Comma];
    RenderedOne(Name(m.name));
    CommaFirst(first, [Name(m.name)]);
    RenderedAppend(comma + [Name(m.name)], Text(lib, Content(m.value)));
  }

  lemma {:induction false} MembersAreSpelled(lib: Library, members: seq<Member>, first: bool)
    requires forall i :: 0 <= i < |members| ==> CompactMember(lib, members[i])
    ensures Rendered(TextFields(lib, Fields(members), first)) + [CLOSE_BRACE]
         == (if first || members == [] then [] else [COMMA]) + SpellMembers(members)
    decreases members
  {
    RenderedNone();
    if members != [] {
      hide Rendered, Text, Spell, Content, Compact, TextFields, SpellMembers, Fields, Bytes;
      var m, rest := members[0], members[1..];
      assert CompactMember(lib, m);
      var text, tokens := Text(lib, Content(m.value)), TextFields(lib, Fields(rest), false);
      TextIsSpelled(lib, m.value);
      MembersAreSpelled(lib, rest, false);
      MembersStep(lib, members, first);
      MemberIsSpelled(lib, m, first);
      RenderedAppend((if first then [] else [Comma]) + [Name(m.name)] + text, tokens);
      Regroup(if first then [] else [COMMA], Bytes(Name(m.name)) + Spell(m.value), Rendered(tokens), [CLOSE_BRACE]);
    }
  }

  /** For every compact document without strings that are empty, have escapes, or have blank space
      around them, the formatter writes its input. */
  lemma FormatsToItself(lib: Library, names: nat -> bytes, doc: Layout)
    requires doc.Record? && Laid(doc) && Compact(lib, doc) && TrimsWhite(lib)
    requires Filled(lib, Content(doc)) && Kept(lib, Content(doc))
    ensures P.Ends(TABLE, Spell(doc), FIND_KEY, [], |Spell(doc)| + 1)
    ensures Rendered(FormattedText(lib, names, Spell(doc))) == Spell(doc)
  {
    hide Spell, Text, Rendered, FormattedText, Filled, Kept, Laid, Content, P.Ends, TrimsWhite;
    FormatsDocument(lib, names, doc, []);
    assert Spell(doc) + [] == Spell(doc);
    TextIsSpelled(lib, doc);
  }
}
