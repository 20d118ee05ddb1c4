/**
 Tables whose tokens are single bytes, without the flags Continue, Append and Include: for them
 the loop of Parse (shared/parser.go) is a scanner that takes one byte after the other.
 */
module ByteTables {
  import opened Utilities
  import opened Automaton
  import Trie
  import TransitionParsers

  /** The window is what was read since the last token. */
  datatype Scanner = Scanner(state: nat, window: bytes, stack: seq<nat>, calls: seq<Call>)

  predicate ByteToken(entry: (bytes, Transition), size: nat) {
    var (token, t) := entry;
    && |token| == 1 && !t.flags.continue_ && !t.flags.append && !t.flags.include_
    && (t.nextState == STOP || t.nextState < size)
  }

  predicate ByteTokens(tokens: Tokens, size: nat) { forall i :: 0 <= i < |tokens| ==> ByteToken(tokens[i], size) }

  predicate ByteTable(table: seq<Tokens>) {
    |table| <= STOP && forall i :: 0 <= i < |table| ==> table[i] != [] && ByteTokens(table[i], |table|)
  }

  /** The last transition of a byte. */
  function Of(tokens: Tokens, b: byte): Option<Transition> {
    if tokens == [] then None
    else if tokens[|tokens| - 1].0 == [b] then Some(tokens[|tokens| - 1].1)
    else Of(tokens[..|tokens| - 1], b)
  }

  function Answer(table: seq<Tokens>, state: nat, b: byte): Option<Transition> {
    if state < |table| then Of(table[state], b) else None
  }

  /** One byte; the stop state has no tokens. */
  function Read(table: seq<Tokens>, s: Scanner, b: byte): Scanner {
    match Answer(table, s.state, b)
    case None => s.(window := s.window + [b])
    case Some(t) => Taken(s, t)
  }

  /** A transition closes the window. */
  function Taken(s: Scanner, t: Transition): Scanner {
    var popped := t.flags.pop && s.stack != [];
    Scanner(if popped then s.stack[|s.stack| - 1] else t.nextState,
            [],
            (if popped then s.stack[..|s.stack| - 1] else s.stack) + (if t.flags.push then [s.state] else []),
            s.calls + if t.callback.Some? then [Call(t.callback.value, s.window, s.state)] else [])
  }

  function ReadAll(table: seq<Tokens>, s: Scanner, data: bytes): Scanner
    decreases |data|
  {
    if data == [] then s else ReadAll(table, Read(table, s, data[0]), data[1..])
  }

  lemma {:induction false} ReadAppend(table: seq<Tokens>, s: Scanner, a: bytes, b: bytes)
    ensures ReadAll(table, s, a + b) == ReadAll(table, ReadAll(table, s, a), b)
    decreases |a|
  {
    if a == [] {
      assert a + b == b;
    } else {
      assert (a + b)[1..] == a[1..] + b;
      ReadAppend(table, Read(table, s, a[0]), a[1..], b);
    }
  }

  lemma ReadByte(table: seq<Tokens>, s: Scanner, b: byte)
    ensures ReadAll(table, s, [b]) == Read(table, s, b)
  {
    assert [b][1..] == [];
  }

  /** Bytes that are no tokens of the state fill the window. */
  lemma {:induction false} ReadNone(table: seq<Tokens>, s: Scanner, data: bytes)
    requires forall b :: b in data ==> Answer(table, s.state, b).None?
    ensures ReadAll(table, s, data) == s.(window := s.window + data)
    decreases |data|
  {
    if data == [] {
      assert s.window + data == s.window;
    } else {
      assert data[0] in data && s.window + [data[0]] + data[1..] == s.window + data;
      ReadNone(table, Read(table, s, data[0]), data[1..]);
    }
  }

  lemma {:induction false} OfIs(tokens: Tokens, b: byte, i: nat)
    requires i < |tokens| && tokens[i].0 == [b] && forall j :: i < j < |tokens| ==> tokens[j].0 != [b]
    ensures Of(tokens, b) == Some(tokens[i].1)
  {
    if i < |tokens| - 1 { OfIs(tokens[..|tokens| - 1], b, i); }
  }

  lemma {:induction false} OfNone(tokens: Tokens, b: byte)
    requires forall j :: 0 <= j < |tokens| ==> tokens[j].0 != [b]
    ensures Of(tokens, b).None?
  {
    if tokens != [] { OfNone(tokens[..|tokens| - 1], b); }
  }

  // ------------------------------------------------------------- against the automaton

  lemma {:induction false} AnswerOfBytes(tokens: Tokens, data: bytes, size: nat)
    requires ByteTokens(tokens, size) && data != []
    ensures Longest(tokens, data)
      == match Of(tokens, data[0]) case None => None case Some(t) => Some(Trie.Hit(1, Some(t)))
    ensures Of(tokens, data[0]).Some? ==> ByteToken(([data[0]], Of(tokens, data[0]).value), size)
  {
    if tokens != [] {
      var last := |tokens| - 1;
      AnswerOfBytes(tokens[..last], data, size);
      assert ByteToken(tokens[last], size);
      assert tokens[last].0 == [tokens[last].0[0]] && data[..1] == [data[0]];
    }
  }

  lemma TableIsSane(table: seq<Tokens>)
    requires ByteTable(table)
    ensures Ordered(table) && Sane(Lists(table))
  {
    forall i | 0 <= i < |table| ensures Trie.NonEmpty(table[i]) && Trie.ByLength(table[i]) {
      assert forall j :: 0 <= j < |table[i]| ==> ByteToken(table[i][j], |table|);
    }
    ListsAreSane(table);
  }

  predicate Within(stack: seq<nat>, size: nat) { forall i :: 0 <= i < |stack| ==> stack[i] < size }

  /** The scanner and the loop are at the same place. */
  predicate Beside(data: bytes, c: Config, s: Scanner) {
    && Tiled(data, c) && s == Scanner(c.state, data[c.readStart..c.parseIdx], c.stack, Calls(data, c.log))
  }

  /** The loop's lookup. */
  lemma LookOfBytes(table: seq<Tokens>, data: bytes, c: Config)
    requires ByteTable(table) && Sane(Lists(table)) && c.state < |table| && c.parseIdx < |data|
    ensures table[c.state] != []
    ensures match Answer(table, c.state, data[c.parseIdx])
      case None => Step(Lists(table), data, c) == Next(c.(parseIdx := c.parseIdx + 1))
      case Some(t) =>
        var c' := After(c, 1, t);
        && ByteToken(([data[c.parseIdx]], t), |table|)
        && Step(Lists(table), data, c) == (if c'.state == STOP then Done(Finished(c'))
                                           else if c'.state < |table| then Next(c') else Done(Crashed(c')))
  {
    hide Longest, Of, After;
    assert data[c.parseIdx..][0] == data[c.parseIdx];
    AnswerOfBytes(table[c.state], data[c.parseIdx..], |table|);
  }

  lemma BesideAfter(data: bytes, c: Config, s: Scanner, t: Transition)
    requires Beside(data, c, s) && c.parseIdx < |data| && ByteToken(([data[c.parseIdx]], t), STOP)
    ensures After(c, 1, t).parseIdx == c.parseIdx + 1 && Beside(data, After(c, 1, t), Taken(s, t))
  {
    hide Covered;
    MoveTiles(data, c, 1, t);
    assert After(c, 1, t).log[..|c.log|] == c.log;
    assert data[c.parseIdx + 1..c.parseIdx + 1] == [];
  }

  lemma BesideNext(data: bytes, c: Config, s: Scanner)
    requires Beside(data, c, s) && c.parseIdx < |data|
    ensures Beside(data, c.(parseIdx := c.parseIdx + 1), s.(window := s.window + [data[c.parseIdx]]))
  {
    assert data[c.readStart..c.parseIdx + 1] == data[c.readStart..c.parseIdx] + [data[c.parseIdx]];
  }

  lemma WithinAfter(table: seq<Tokens>, c: Config, t: Transition, b: byte)
    requires c.state < |table| && Within(c.stack, |table|) && ByteToken(([b], t), |table|)
    ensures Within(After(c, 1, t).stack, |table|) && (After(c, 1, t).state == STOP || After(c, 1, t).state < |table|)
  {
  }

  /** One byte of the loop is one byte of the scanner. */
  lemma StepReads(table: seq<Tokens>, data: bytes, c: Config, s: Scanner)
    requires ByteTable(table) && Sane(Lists(table)) && c.state < |table| && c.parseIdx < |data|
    requires Beside(data, c, s) && Within(c.stack, |table|)
    ensures var s' := Read(table, s, data[c.parseIdx]);
      if s'.state == STOP then
        var p := Step(Lists(table), data, c);
        p.Done? && p.outcome.Finished? && p.outcome.config.parseIdx == c.parseIdx + 1
          && Beside(data, p.outcome.config, s')
      else
        var p := Step(Lists(table), data, c);
        && p.Next? && p.config.parseIdx == c.parseIdx + 1 && p.config.state < |table|
        && Beside(data, p.config, s') && Within(p.config.stack, |table|)
  {
    hide Step, Answer, After, Taken, Within, Covered, Calls;
    LookOfBytes(table, data, c);
    BesideNext(data, c, s);
    var answer := Answer(table, c.state, data[c.parseIdx]);
    if answer.Some? {
      BesideAfter(data, c, s, answer.value);
      WithinAfter(table, c, answer.value, data[c.parseIdx]);
    }
  }

  /** Parse ends for every such table and all data, and its run is the scanner's. */
  lemma {:induction false} RunReads(table: seq<Tokens>, data: bytes, c: Config, s: Scanner)
    requires ByteTable(table) && Sane(Lists(table)) && c.state < |table|
    requires Beside(data, c, s) && Within(c.stack, |table|)
    ensures HaltsIn(Lists(table), data, c, |data| - c.parseIdx + 1)
    ensures var outcome := Run(Lists(table), data, c, |data| - c.parseIdx + 1);
      var end := outcome.config;
      && outcome.Finished? && Tiled(data, end)
      && ReadAll(table, s, data[c.parseIdx..])
        == Scanner(end.state, data[end.readStart..], end.stack, Calls(data, end.log))
    decreases |data| - c.parseIdx
  {
    hide Step, Read, Covered, Answer, Within;
    if c.parseIdx == |data| {
      assert data[c.parseIdx..] == [] && data[c.readStart..] == data[c.readStart..c.parseIdx];
    } else {
      var p, s' := Step(Lists(table), data, c), Read(table, s, data[c.parseIdx]);
      StepReads(table, data, c, s);
      assert data[c.parseIdx..][1..] == data[c.parseIdx + 1..];
      if p.Next? {
        RunReads(table, data, p.config, s');
      } else {
        var end := p.outcome.config;
        StopReads(table, s', data[c.parseIdx + 1..]);
        assert data[end.readStart..end.parseIdx] + data[c.parseIdx + 1..] == data[end.readStart..];
      }
    }
  }

  lemma StopReads(table: seq<Tokens>, s: Scanner, data: bytes)
    requires |table| <= STOP && s.state == STOP
    ensures ReadAll(table, s, data) == s.(window := s.window + data)
  {
    ReadNone(table, s, data);
  }

  /** For such a table Parse returns on all data after at most one lookup per byte, and the calls,
      the remainder, the last state and the stack are those of the scanner. */
  lemma ParseIsScan(table: seq<Tokens>, data: bytes, state: nat, stack: seq<nat>)
    requires ByteTable(table) && state < |table| && Within(stack, |table|)
    ensures TransitionParsers.Ends(table, data, state, stack, |data| + 1)
    ensures var outcome := TransitionParsers.ParserRun(table, data, state, stack, |data| + 1);
      var end := outcome.config;
      && outcome.Finished? && Tiled(data, end)
      && ReadAll(table, Scanner(state, [], stack, []), data)
         == Scanner(end.state, data[end.readStart..], end.stack, Calls(data, end.log))
  {
    hide Run, HaltsIn, Covered, Calls, Within, Sane, Built;
    TableIsSane(table);
    TransitionParsers.ParserRunByLists(table, data, state, stack, |data| + 1);
    var c := Config(0, 0, state, stack, []);
    assert data[0..] == data && data[0..0] == [];
    StartsBeside(data, state, stack);
    RunReads(table, data, c, Scanner(state, [], stack, []));
  }

  lemma StartsBeside(data: bytes, state: nat, stack: seq<nat>)
    ensures Beside(data, Config(0, 0, state, stack, []), Scanner(state, [], stack, []))
  {
  }
}
