/**
 The stack automaton of shared/parser.go as a value: what Parse does for a table of tokens per
 state, whether the tokens are looked up in tries or in plain lists.
 */
module Automaton {
  import opened Utilities
  import opened Trie

  const STOP: nat := 0xFFFF_FFFF

  datatype Flags = Flags(continue_: bool, append: bool, include_: bool, push: bool, pop: bool)

  /** Callbacks are told apart by a number; None writes nothing. */
  datatype Transition = Transition(nextState: nat, flags: Flags, callback: Option<nat>)

  type Tokens = seq<(bytes, Transition)>

  /** One matched token: the state, the start of the read window, and the token's place and length. */
  datatype Move = Move(state: nat, start: nat, at: nat, len: nat, t: Transition)
  {
    /** Where reading goes on. */
    function End(): nat { if t.flags.continue_ then at else at + len }
  }

  datatype Config = Config(parseIdx: nat, readStart: nat, state: nat, stack: seq<nat>, log: seq<Move>)

  /** A call of a callback with the value read. */
  datatype Call = Call(callback: nat, value: bytes, state: nat)

  /** Parse returns, or trips over a state without tokens or outside of the table. */
  datatype Outcome = Finished(config: Config) | Crashed(config: Config)

  datatype Progress = Next(config: Config) | Done(outcome: Outcome)

  /** How the token at the start of some data is looked up. */
  datatype Matcher = Lists(table: seq<Tokens>) | Tries(models: seq<Option<Trie<Transition>>>)
  {
    function Size(): nat { if Lists? then |table| else |models| }

    predicate HasTokens(state: nat)
      requires state < Size()
    {
      if Lists? then table[state] != [] else models[state].Some?
    }

    function Look(state: nat, data: bytes): Option<Hit<Transition>>
      requires state < Size() && HasTokens(state)
    {
      if Lists? then Longest(table[state], data) else MatchStart(models[state].value, data)
    }
  }

  // --------------------------------------------------------------- the automaton

  /** The last of the longest tokens that are a prefix of the data, by looking at each of them. */
  function Longest(tokens: Tokens, data: bytes): Option<Hit<Transition>> {
    if tokens == [] then None
    else
      var (token, t) := tokens[|tokens| - 1];
      var best := Longest(tokens[..|tokens| - 1], data);
      if Prefix(token, data) && (best.None? || best.value.pathLen <= |token|) then Some(Hit(|token|, Some(t))) else best
  }

  /** What one match does. */
  function After(c: Config, len: nat, t: Transition): Config {
    var move := Move(c.state, c.readStart, c.parseIdx, len, t);
    var popped := t.flags.pop && c.stack != [];
    var stack := if popped then c.stack[..|c.stack| - 1] else c.stack;
    Config(move.End(),
           if t.flags.append then c.readStart else move.End(),
           if popped then c.stack[|c.stack| - 1] else t.nextState,
           if t.flags.push then stack + [c.state] else stack,
           c.log + [move])
  }

  /** One iteration of the loop. */
  function Step(m: Matcher, data: bytes, c: Config): Progress
    requires c.parseIdx < |data| && c.state < m.Size() && Sane(m)
  {
    if !m.HasTokens(c.state) then Done(Crashed(c))
    else
      match m.Look(c.state, data[c.parseIdx..])
      case None => Next(c.(parseIdx := c.parseIdx + 1))
      case Some(hit) =>
        var c' := After(c, hit.pathLen, hit.payload.value);
        if c'.state == STOP then Done(Finished(c'))
        else if c'.state < m.Size() then Next(c') else Done(Crashed(c'))
  }

  /** Answers are non-empty, lie within the data and carry a transition. */
  ghost predicate Sane(m: Matcher) {
    forall state: nat, data | state < m.Size() && m.HasTokens(state) && m.Look(state, data).Some? ::
      var hit := m.Look(state, data).value;
      1 <= hit.pathLen <= |data| && hit.payload.Some?
  }

  /** The loop ends within `n` iterations, the last of which only finds the data used up. */
  ghost predicate HaltsIn(m: Matcher, data: bytes, c: Config, n: nat)
    requires c.state < m.Size() && Sane(m)
    decreases n
  {
    n > 0 && (c.parseIdx >= |data| || Step(m, data, c).Done? || HaltsIn(m, data, Step(m, data, c).config, n - 1))
  }

  ghost predicate Halts(m: Matcher, data: bytes, c: Config)
    requires c.state < m.Size() && Sane(m)
  {
    exists n :: HaltsIn(m, data, c, n)
  }

  ghost function Run(m: Matcher, data: bytes, c: Config, n: nat): Outcome
    requires c.state < m.Size() && Sane(m) && HaltsIn(m, data, c, n)
    decreases n
  {
    if c.parseIdx >= |data| then Finished(c)
    else
      match Step(m, data, c)
      case Next(c') => Run(m, data, c', n - 1)
      case Done(outcome) => outcome
  }

  /** The number of lookups. */
  ghost function Steps(m: Matcher, data: bytes, c: Config, n: nat): nat
    requires c.state < m.Size() && Sane(m) && HaltsIn(m, data, c, n)
    decreases n
  {
    if c.parseIdx >= |data| then 0
    else
      match Step(m, data, c)
      case Next(c') => 1 + Steps(m, data, c', n - 1)
      case Done(_) => 1
  }

  lemma {:induction false} HaltsLater(m: Matcher, data: bytes, c: Config, n: nat, n': nat)
    requires c.state < m.Size() && Sane(m) && HaltsIn(m, data, c, n) && n <= n'
    ensures HaltsIn(m, data, c, n') && Run(m, data, c, n') == Run(m, data, c, n)
      && Steps(m, data, c, n') == Steps(m, data, c, n)
    decreases n
  {
    if c.parseIdx < |data| && Step(m, data, c).Next? { HaltsLater(m, data, Step(m, data, c).config, n - 1, n' - 1); }
  }

  // ------------------------------------------------------ tries against plain lists

  lemma {:induction false} LongestIsLongest(tokens: Tokens, data: bytes)
    ensures IsLongestMatch(tokens, data, Longest(tokens, data))
  {
    if tokens != [] {
      var last := |tokens| - 1;
      var init, best := tokens[..last], Longest(tokens[..last], data);
      LongestIsLongest(init, data);
      assert forall j :: 0 <= j < last ==> init[j] == tokens[j];
      if Prefix(tokens[last].0, data) && (best.None? || best.value.pathLen <= |tokens[last].0|) {
        assert IsLongest(tokens, data, last);
      } else if best.Some? {
        var i: nat :| IsLongest(init, data, i) && best.value == Hit(|init[i].0|, Some(init[i].1));
        assert IsLongest(tokens, data, i);
      }
    }
  }

  /** The tries that adding the tokens of the table one by one builds. */
  ghost function Built(table: seq<Tokens>): seq<Option<Trie<Transition>>> {
    seq(|table|, i requires 0 <= i < |table| => if table[i] == [] then None else Some(Build(table[i])))
  }

  /** All tokens are non-empty and were added in order of their length. */
  predicate Ordered(table: seq<Tokens>) {
    forall i :: 0 <= i < |table| ==> NonEmpty(table[i]) && ByLength(table[i])
  }

  lemma {:induction false} AnswersArePositive<P>(node: Trie<P>, data: bytes)
    requires MatchStart(node, data).Some?
    ensures MatchStart(node, data).value.pathLen > 0
    decreases node, 1
  {
    var rest := data[|node.suffix|..];
    if MatchStartAny(node.children, rest).Some? { AnyAnswerIsPositive(node.children, rest); }
  }

  lemma {:induction false} AnyAnswerIsPositive<P>(children: seq<Trie<P>>, data: bytes)
    requires MatchStartAny(children, data).Some?
    ensures MatchStartAny(children, data).value.pathLen > 0
    decreases children, 0
  {
    if MatchStart(children[0], data).Some? {
      AnswersArePositive(children[0], data);
    } else {
      AnyAnswerIsPositive(children[1..], data);
    }
  }

  /** Tries built from any table, in any order, drive the automaton. */
  lemma TriesAreSane(table: seq<Tokens>)
    ensures Sane(Tries(Built(table)))
  {
    var m := Tries(Built(table));
    forall state: nat, data | state < m.Size() && m.HasTokens(state) && m.Look(state, data).Some?
      ensures var hit := m.Look(state, data).value; 1 <= hit.pathLen <= |data| && hit.payload.Some?
    {
      MatchStartIsSound(table[state], data);
      AnswersArePositive(Build(table[state]), data);
    }
  }

  lemma SameAnswer(table: seq<Tokens>, state: nat, data: bytes)
    requires Ordered(table) && state < |table| && table[state] != []
    ensures Tries(Built(table)).Look(state, data) == Lists(table).Look(state, data)
  {
    MatchStartIsLongest(table[state], data);
    LongestIsLongest(table[state], data);
    LongestMatchUnique(table[state], data, MatchStart(Build(table[state]), data), Longest(table[state], data));
  }

  lemma ListsAreSane(table: seq<Tokens>)
    requires forall i :: 0 <= i < |table| ==> NonEmpty(table[i])
    ensures Sane(Lists(table))
  {
    var m := Lists(table);
    forall state: nat, data | state < m.Size() && m.HasTokens(state) && m.Look(state, data).Some?
      ensures var hit := m.Look(state, data).value; 1 <= hit.pathLen <= |data| && hit.payload.Some?
    {
      LongestIsLongest(table[state], data);
    }
  }

  /** Parsing with tries is parsing with plain lists: it ends at the same time, with the same
      moves, remainder and stack. */
  lemma {:induction false} SameRun(table: seq<Tokens>, data: bytes, c: Config, n: nat)
    requires Ordered(table) && c.state < |table| && Sane(Lists(table)) && Sane(Tries(Built(table)))
    ensures HaltsIn(Tries(Built(table)), data, c, n) <==> HaltsIn(Lists(table), data, c, n)
    ensures HaltsIn(Lists(table), data, c, n) ==> Run(Tries(Built(table)), data, c, n) == Run(Lists(table), data, c, n)
    decreases n
  {
    if n > 0 && c.parseIdx < |data| {
      var m := Lists(table);
      if m.HasTokens(c.state) { SameAnswer(table, c.state, data[c.parseIdx..]); }
      assert Step(m, data, c) == Step(Tries(Built(table)), data, c);
      if Step(m, data, c).Next? { SameRun(table, data, Step(m, data, c).config, n - 1); }
    }
  }

  // ------------------------------------------------------------ every run's shape

  /** No iteration goes back, or leaves the data or the table. */
  lemma StepProgress(m: Matcher, data: bytes, c: Config)
    requires c.parseIdx < |data| && c.state < m.Size() && Sane(m) && Step(m, data, c).Next?
    ensures var c' := Step(m, data, c).config; c'.state < m.Size() && c.parseIdx <= c'.parseIdx <= |data|
  {
  }

  /** The log never loses a move. */
  lemma {:induction false} LogGrows(m: Matcher, data: bytes, c: Config, n: nat)
    requires c.state < m.Size() && Sane(m) && HaltsIn(m, data, c, n)
    ensures c.log <= Run(m, data, c, n).config.log
    decreases n
  {
    if c.parseIdx < |data| && Step(m, data, c).Next? { LogGrows(m, data, Step(m, data, c).config, n - 1); }
  }

  /** No token of the state is found from `from` up to `to`. */
  ghost predicate Quiet(m: Matcher, data: bytes, state: nat, from: nat, to: nat)
    requires state < m.Size() && m.HasTokens(state) && to <= |data|
  {
    forall p :: from <= p < to ==> m.Look(state, data[p..]).None?
  }

  /** The move takes the first place where the state finds a token. */
  ghost predicate Leftmost(m: Matcher, data: bytes, c: Config, move: Move)
    requires c.state < m.Size()
  {
    && move.state == c.state && move.start == c.readStart && c.parseIdx <= move.at < |data|
    && m.HasTokens(c.state) && Quiet(m, data, c.state, c.parseIdx, move.at)
    && m.Look(c.state, data[move.at..]) == Some(Hit(move.len, Some(move.t)))
  }

  lemma AfterLogs(c: Config, len: nat, t: Transition)
    ensures After(c, len, t).log == c.log + [Move(c.state, c.readStart, c.parseIdx, len, t)]
  {
  }

  lemma SaneAnswer(m: Matcher, state: nat, data: bytes)
    requires Sane(m) && state < m.Size() && m.HasTokens(state) && m.Look(state, data).Some?
    ensures m.Look(state, data).value.payload.Some? && 1 <= m.Look(state, data).value.pathLen <= |data|
  {
  }

  /** A run goes from one leftmost token to the next, and finishes where no token is left or
      in the stop state. */
  lemma {:induction false} RunIsLeftmost(m: Matcher, data: bytes, c: Config, n: nat)
    requires c.state < m.Size() && Sane(m) && HaltsIn(m, data, c, n)
    ensures var log := Run(m, data, c, n).config.log;
      |c.log| < |log| ==>
        var move := log[|c.log|];
        var c' := After(c.(parseIdx := move.at), move.len, move.t);
        && Leftmost(m, data, c, move)
        && if c'.state == STOP then Run(m, data, c, n) == Finished(c')
           else if c'.state < m.Size() then HaltsIn(m, data, c', n) && Run(m, data, c, n) == Run(m, data, c', n)
           else Run(m, data, c, n) == Crashed(c')
    ensures Run(m, data, c, n).Finished? && Run(m, data, c, n).config.log == c.log && c.parseIdx < |data| ==>
      m.HasTokens(c.state) && Quiet(m, data, c.state, c.parseIdx, |data|)
    decreases n
  {
    hide MatchStart, Longest, After, Sane, Matcher.Look;
    if c.parseIdx < |data| && m.HasTokens(c.state) {
      var answer := m.Look(c.state, data[c.parseIdx..]);
      if answer.None? {
        RunIsLeftmost(m, data, c.(parseIdx := c.parseIdx + 1), n - 1);
        var log := Run(m, data, c, n).config.log;
        if |c.log| < |log| {
          var move := log[|c.log|];
          var c' := After(c.(parseIdx := move.at), move.len, move.t);
          if c'.state != STOP && c'.state < m.Size() { HaltsLater(m, data, c', n - 1, n); }
        }
      } else {
        var hit := answer.value;
        assert hit.payload.Some? by { SaneAnswer(m, c.state, data[c.parseIdx..]); }
        AfterLogs(c, hit.pathLen, hit.payload.value);
        if Step(m, data, c).Next? {
          StepProgress(m, data, c);
          LogGrows(m, data, Step(m, data, c).config, n - 1);
          HaltsLater(m, data, Step(m, data, c).config, n - 1, n);
        }
      }
    }
  }

  predicate InRange(data: bytes, move: Move) { move.start <= move.at && 1 <= move.len && move.at + move.len <= |data| }

  predicate AllInRange(data: bytes, log: seq<Move>) { forall i :: 0 <= i < |log| ==> InRange(data, log[i]) }

  /** What the closed read windows cover, one after the other; Append leaves a window open. */
  function Covered(data: bytes, log: seq<Move>): bytes
    requires AllInRange(data, log)
  {
    if log == [] then []
    else
      var last := log[|log| - 1];
      Covered(data, log[..|log| - 1]) + if last.t.flags.append then [] else data[last.start..last.End()]
  }

  /** The calls the moves make. */
  function Calls(data: bytes, log: seq<Move>): (calls: seq<Call>)
    requires AllInRange(data, log)
  {
    if log == [] then []
    else Calls(data, log[..|log| - 1]) + Called(data, log[|log| - 1])
  }

  function Called(data: bytes, move: Move): seq<Call>
    requires InRange(data, move)
  {
    if move.t.callback.None? then []
    else [Call(move.t.callback.value, data[move.start..if move.t.flags.include_ then move.at + move.len else move.at],
      move.state)]
  }

  predicate Tiled(data: bytes, c: Config) {
    && c.readStart <= c.parseIdx <= |data|
    && AllInRange(data, c.log) && Covered(data, c.log) == data[..c.readStart]
  }

  lemma MoveTiles(data: bytes, c: Config, len: nat, t: Transition)
    requires Tiled(data, c) && 1 <= len && c.parseIdx + len <= |data|
    ensures Tiled(data, After(c, len, t))
  {
    var c' := After(c, len, t);
    assert c'.log[..|c.log|] == c.log;
    var move := c'.log[|c.log|];
    assert data[..move.End()] == data[..c.readStart] + data[c.readStart..move.End()];
  }

  /** Every slice of every run is in range. */
  lemma {:induction false} RunTiles(m: Matcher, data: bytes, c: Config, n: nat)
    requires c.state < m.Size() && Sane(m) && HaltsIn(m, data, c, n) && Tiled(data, c)
    ensures Tiled(data, Run(m, data, c, n).config)
    decreases n
  {
    hide Matcher.Look, Matcher.HasTokens, Matcher.Size, Sane, After, Covered, AllInRange;
    if c.parseIdx < |data| {
      if m.HasTokens(c.state) && m.Look(c.state, data[c.parseIdx..]).Some? {
        var hit := m.Look(c.state, data[c.parseIdx..]).value;
        SaneAnswer(m, c.state, data[c.parseIdx..]);
        MoveTiles(data, c, hit.pathLen, hit.payload.value);
      }
      if Step(m, data, c).Next? {
        StepProgress(m, data, c);
        RunTiles(m, data, Step(m, data, c).config, n - 1);
      }
    }
  }

  /** The read windows tile the input: those that were closed and the remainder that Parse
      returns make up the data. */
  lemma WindowsTile(m: Matcher, data: bytes, state: nat, stack: seq<nat>, n: nat)
    requires state < m.Size() && Sane(m) && HaltsIn(m, data, Config(0, 0, state, stack, []), n)
    ensures var end := Run(m, data, Config(0, 0, state, stack, []), n).config;
      end.readStart <= |data| && AllInRange(data, end.log) && Covered(data, end.log) + data[end.readStart..] == data
  {
    RunTiles(m, data, Config(0, 0, state, stack, []), n);
  }

  /** A callback is called once, from the state that found the token, and the windows closed before,
      the value it gets and the token spell the input up to the end of the token. */
  predicate Spells(data: bytes, before: seq<Move>, move: Move)
    requires AllInRange(data, before) && InRange(data, move)
  {
    if move.t.callback.None? then Called(data, move) == []
    else
      && |Called(data, move)| == 1
      && Called(data, move)[0].callback == move.t.callback.value && Called(data, move)[0].state == move.state
      && Covered(data, before) + Called(data, move)[0].value
           + (if move.t.flags.include_ then [] else data[move.at..move.at + move.len]) == data[..move.at + move.len]
  }

  predicate AllSpell(data: bytes, log: seq<Move>)
    requires AllInRange(data, log)
  {
    forall i :: 0 <= i < |log| ==> Spells(data, log[..i], log[i])
  }

  lemma MoveSpells(data: bytes, c: Config, len: nat, t: Transition)
    requires Tiled(data, c) && AllSpell(data, c.log) && 1 <= len && c.parseIdx + len <= |data|
    ensures AllInRange(data, After(c, len, t).log) && AllSpell(data, After(c, len, t).log)
  {
    MoveTiles(data, c, len, t);
    var log := After(c, len, t).log;
    forall i | 0 <= i < |log| ensures Spells(data, log[..i], log[i]) {
      if i < |c.log| {
        assert log[..i] == c.log[..i];
        assert Spells(data, c.log[..i], c.log[i]);
      } else {
        assert log[..i] == c.log;
        assert data[..c.readStart] + data[c.readStart..c.parseIdx + len] == data[..c.parseIdx + len];
        assert data[..c.readStart] + data[c.readStart..c.parseIdx] + data[c.parseIdx..c.parseIdx + len]
          == data[..c.parseIdx + len];
      }
    }
  }

  /** In every run each callback gets exactly what was read since the last closed window. */
  lemma {:induction false} CallsReadWindows(m: Matcher, data: bytes, c: Config, n: nat)
    requires c.state < m.Size() && Sane(m) && HaltsIn(m, data, c, n) && Tiled(data, c) && AllSpell(data, c.log)
    ensures var log := Run(m, data, c, n).config.log; AllInRange(data, log) && AllSpell(data, log)
    decreases n
  {
    hide Matcher.Look, Matcher.HasTokens, Matcher.Size, Sane, After, Covered, AllInRange, AllSpell;
    if c.parseIdx < |data| {
      if m.HasTokens(c.state) && m.Look(c.state, data[c.parseIdx..]).Some? {
        var hit := m.Look(c.state, data[c.parseIdx..]).value;
        SaneAnswer(m, c.state, data[c.parseIdx..]);
        MoveTiles(data, c, hit.pathLen, hit.payload.value);
        MoveSpells(data, c, hit.pathLen, hit.payload.value);
      }
      if Step(m, data, c).Next? {
        StepProgress(m, data, c);
        CallsReadWindows(m, data, Step(m, data, c).config, n - 1);
      }
    }
  }

  // ------------------------------------------------------------------ push and pop

  predicate Pops(depth: nat, move: Move) { move.t.flags.pop && depth > 0 }

  /** How deep the stack is behind the pop of a move. */
  function Under(depth: nat, move: Move): nat { if Pops(depth, move) then depth - 1 else depth }

  /** How deep it is behind the moves, by counting. */
  function Depth(depth: nat, log: seq<Move>): nat {
    if log == [] then depth
    else
      var last := log[|log| - 1];
      Under(Depth(depth, log[..|log| - 1]), last) + if last.t.flags.push then 1 else 0
  }

  /** Who pushed last onto a level, or what lay there at the beginning. */
  function Pushed(stack: seq<nat>, log: seq<Move>, level: nat): nat
    requires level < Depth(|stack|, log)
  {
    if log == [] then stack[level]
    else
      var before, last := log[..|log| - 1], log[|log| - 1];
      if last.t.flags.push && level == Under(Depth(|stack|, before), last) then last.state
      else Pushed(stack, before, level)
  }

  /** The state behind the moves: a pop goes back to who pushed last onto the level it takes away. */
  function StateAfter(stack: seq<nat>, state: nat, log: seq<Move>): nat {
    if log == [] then state
    else
      var before, last := log[..|log| - 1], log[|log| - 1];
      var depth := Depth(|stack|, before);
      if Pops(depth, last) then Pushed(stack, before, depth - 1) else last.t.nextState
  }

  predicate Matches(stack: seq<nat>, state: nat, c: Config) {
    && |c.stack| == Depth(|stack|, c.log)
    && (forall level :: 0 <= level < |c.stack| ==> c.stack[level] == Pushed(stack, c.log, level))
    && c.state == StateAfter(stack, state, c.log)
    && (forall i :: 0 <= i < |c.log| ==> c.log[i].state == StateAfter(stack, state, c.log[..i]))
  }

  lemma AfterMatches(stack: seq<nat>, state: nat, c: Config, at: nat, len: nat, t: Transition)
    requires Matches(stack, state, c)
    ensures Matches(stack, state, After(c.(parseIdx := at), len, t))
  {
    var c' := After(c.(parseIdx := at), len, t);
    assert c'.log[..|c.log|] == c.log;
    forall i | 0 <= i < |c'.log| ensures c'.log[i].state == StateAfter(stack, state, c'.log[..i]) {
      if i < |c.log| { assert c'.log[..i] == c.log[..i]; }
    }
  }

  /** In every run each token is looked up in the state that the tokens before it lead to, and a pop
      leads back to the state that pushed last onto the level it takes away. */
  lemma {:induction false} RunMatches(m: Matcher, data: bytes, c: Config, n: nat, stack: seq<nat>, state: nat)
    requires c.state < m.Size() && Sane(m) && HaltsIn(m, data, c, n) && Matches(stack, state, c)
    ensures Matches(stack, state, Run(m, data, c, n).config)
    decreases n
  {
    hide Matcher.Look, Matcher.HasTokens, Matcher.Size, Sane, After, Matches;
    if c.parseIdx < |data| {
      if m.HasTokens(c.state) {
        var answer := m.Look(c.state, data[c.parseIdx..]);
        if answer.Some? {
          SaneAnswer(m, c.state, data[c.parseIdx..]);
          AfterMatches(stack, state, c, c.parseIdx, answer.value.pathLen, answer.value.payload.value);
        } else {
          MatchesElsewhere(stack, state, c);
        }
      }
      if Step(m, data, c).Next? {
        StepProgress(m, data, c);
        RunMatches(m, data, Step(m, data, c).config, n - 1, stack, state);
      }
    }
  }

  lemma MatchesElsewhere(stack: seq<nat>, state: nat, c: Config)
    requires Matches(stack, state, c)
    ensures Matches(stack, state, c.(parseIdx := c.parseIdx + 1))
  {
  }

  // ------------------------------------------------------- where tokens are looked for

  /** Reading goes on behind the last token, or at it if it was only looked at. */
  function Resume(from: nat, log: seq<Move>): nat {
    if log == [] then from
    else
      var last := log[|log| - 1];
      if last.t.flags.continue_ then last.at else last.at + last.len
  }

  /** What has been read starts there as well, or where it did if it is appended to. */
  function Window(from: nat, start: nat, log: seq<Move>): nat {
    if log == [] then start
    else if log[|log| - 1].t.flags.append then log[|log| - 1].start
    else Resume(from, log)
  }

  /** The i-th move takes the first place behind the moves before where its state finds a token. */
  ghost predicate TakesFirst(m: Matcher, data: bytes, from: nat, start: nat, log: seq<Move>, i: nat)
    requires i < |log|
  {
    var move, resume := log[i], Resume(from, log[..i]);
    && move.state < m.Size() && m.HasTokens(move.state)
    && move.start == Window(from, start, log[..i]) && resume <= move.at < |data|
    && Quiet(m, data, move.state, resume, move.at)
    && m.Look(move.state, data[move.at..]) == Some(Hit(move.len, Some(move.t)))
  }

  ghost predicate Placed(m: Matcher, data: bytes, from: nat, start: nat, c: Config) {
    && Resume(from, c.log) <= c.parseIdx <= |data| && c.readStart == Window(from, start, c.log)
    && (c.state < m.Size() && m.HasTokens(c.state) ==>
          Quiet(m, data, c.state, Resume(from, c.log), c.parseIdx))
    && (forall i :: 0 <= i < |c.log| ==> TakesFirst(m, data, from, start, c.log, i))
  }

  lemma MoveIsPlaced(m: Matcher, data: bytes, from: nat, start: nat, c: Config)
    requires c.parseIdx < |data| && c.state < m.Size() && Sane(m) && m.HasTokens(c.state)
    requires m.Look(c.state, data[c.parseIdx..]).Some? && Placed(m, data, from, start, c)
    ensures var hit := m.Look(c.state, data[c.parseIdx..]).value;
      hit.payload.Some? && Placed(m, data, from, start, After(c, hit.pathLen, hit.payload.value))
  {
    hide MatchStart, Longest;
    SaneAnswer(m, c.state, data[c.parseIdx..]);
    var hit := m.Look(c.state, data[c.parseIdx..]).value;
    var log := After(c, hit.pathLen, hit.payload.value).log;
    forall i | 0 <= i < |log| ensures TakesFirst(m, data, from, start, log, i) {
      if i < |c.log| {
        assert TakesFirst(m, data, from, start, c.log, i);
        assert log[..i] == c.log[..i];
      } else {
        assert log[..i] == c.log;
      }
    }
  }

  lemma NoneIsPlaced(m: Matcher, data: bytes, from: nat, start: nat, c: Config)
    requires c.parseIdx < |data| && c.state < m.Size() && m.HasTokens(c.state)
    requires m.Look(c.state, data[c.parseIdx..]).None? && Placed(m, data, from, start, c)
    ensures Placed(m, data, from, start, c.(parseIdx := c.parseIdx + 1))
  {
    hide MatchStart, Longest, TakesFirst;
  }

  /** In every run each move takes the first token behind the ones before, and its read window starts
      behind them or where the last one did.  It finishes in the stop state or when the data is used
      up, without another token, and crashes only in a state without tokens or outside of the table. */
  lemma {:induction false} RunIsPlaced(m: Matcher, data: bytes, from: nat, start: nat, c: Config, n: nat)
    requires c.state < m.Size() && Sane(m) && HaltsIn(m, data, c, n) && Placed(m, data, from, start, c)
    ensures var end := Run(m, data, c, n);
      && Placed(m, data, from, start, end.config)
      && (end.Finished? ==> end.config.state == STOP || end.config.parseIdx == |data|)
      && (end.Crashed? ==> end.config.state >= m.Size() || !m.HasTokens(end.config.state))
    decreases n
  {
    hide Matcher.Look, Matcher.HasTokens, Sane, After, Placed;
    assert c.parseIdx <= |data| by { PlacedIsInside(m, data, from, start, c); }
    if c.parseIdx < |data| {
      if m.HasTokens(c.state) {
        if m.Look(c.state, data[c.parseIdx..]).Some? {
          MoveIsPlaced(m, data, from, start, c);
        } else {
          NoneIsPlaced(m, data, from, start, c);
        }
      }
      if Step(m, data, c).Next? {
        StepProgress(m, data, c);
        RunIsPlaced(m, data, from, start, Step(m, data, c).config, n - 1);
      }
    }
  }

  lemma PlacedIsInside(m: Matcher, data: bytes, from: nat, start: nat, c: Config)
    requires Placed(m, data, from, start, c)
    ensures c.parseIdx <= |data|
  {
  }
}
