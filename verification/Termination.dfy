/**
 When the loop of Parse (shared/parser.go) ends, for tables whose Continue transitions do not both
 push and pop.
 */
module Termination {
  import opened Utilities
  import opened Trie
  import opened Automaton

  // ------------------------------------------------------------------ Continue chains

  /** The state a Continue transition leads to on fixed data. */
  function Chained(m: Matcher, data: bytes, state: nat): (next: Option<nat>)
    requires Sane(m) && state < m.Size()
    ensures next.Some? ==> next.value < m.Size()
  {
    if !m.HasTokens(state) then None
    else
      match m.Look(state, data)
      case None => None
      case Some(hit) =>
        var t := hit.payload.value;
        if t.flags.continue_ && t.nextState != STOP && t.nextState < m.Size() then Some(t.nextState) else None
  }

  /** The state after `k` Continue transitions in a row. */
  function Follow(m: Matcher, data: bytes, state: nat, k: nat): (last: Option<nat>)
    requires Sane(m) && state < m.Size()
    ensures last.Some? ==> last.value < m.Size()
    decreases k
  {
    if k == 0 then Some(state)
    else
      match Chained(m, data, state)
      case None => None
      case Some(next) => Follow(m, data, next, k - 1)
  }

  ghost predicate ContinueNeverPops(m: Matcher)
    requires Sane(m)
  {
    forall state: nat, data | state < m.Size() && m.HasTokens(state) && m.Look(state, data).Some? ::
      var t := m.Look(state, data).value.payload.value; t.flags.continue_ ==> !t.flags.pop
  }

  ghost predicate ContinueNeverPushes(m: Matcher)
    requires Sane(m)
  {
    forall state: nat, data | state < m.Size() && m.HasTokens(state) && m.Look(state, data).Some? ::
      var t := m.Look(state, data).value.payload.value; t.flags.continue_ ==> !t.flags.push
  }

  /** On some data a chain of Continue transitions comes back to its state. */
  ghost predicate Returns(m: Matcher)
    requires Sane(m)
  {
    exists data, state: nat, k: nat :: state < m.Size() && k > 0 && Follow(m, data, state, k) == Some(state)
  }

  function Start(state: nat, stack: seq<nat>): Config { Config(0, 0, state, stack, []) }

  ghost predicate HaltsAlways(m: Matcher)
    requires Sane(m)
  {
    forall data, state: nat, stack | state < m.Size() :: Halts(m, data, Start(state, stack))
  }

  lemma {:induction false} FollowAdd(m: Matcher, data: bytes, state: nat, j: nat, k: nat)
    requires Sane(m) && state < m.Size() && Follow(m, data, state, j).Some?
    ensures Follow(m, data, state, j + k) == Follow(m, data, Follow(m, data, state, j).value, k)
    decreases j
  {
    if j > 0 { FollowAdd(m, data, Chained(m, data, state).value, j - 1, k); }
  }

  lemma {:induction false} FollowLess(m: Matcher, data: bytes, state: nat, j: nat, k: nat)
    requires Sane(m) && state < m.Size() && j <= k && Follow(m, data, state, k).Some?
    ensures Follow(m, data, state, j).Some?
    decreases j
  {
    if j > 0 { FollowLess(m, data, Chained(m, data, state).value, j - 1, k - 1); }
  }

  // ------------------------------------------------------------------ a chain in the loop

  /** One Continue transition stays at its place. */
  lemma ChainedStep(m: Matcher, data: bytes, c: Config)
    requires Sane(m) && ContinueNeverPops(m) && c.state < m.Size() && c.parseIdx < |data|
    ensures match Chained(m, data[c.parseIdx..], c.state)
      case Some(next) =>
        && Step(m, data, c).Next? && Step(m, data, c).config.parseIdx == c.parseIdx
          && Step(m, data, c).config.state == next
      case None => Step(m, data, c).Next? ==> Step(m, data, c).config.parseIdx > c.parseIdx
  {
    hide MatchStart, Longest;
    if m.HasTokens(c.state) && m.Look(c.state, data[c.parseIdx..]).Some? {
      var t := m.Look(c.state, data[c.parseIdx..]).value.payload.value;
      assert t.flags.continue_ ==> !t.flags.pop;
    }
  }

  /** Along a chain the loop makes one iteration for each transition. */
  lemma {:induction false} ChainTakesSteps(m: Matcher, data: bytes, c: Config, k: nat, n: nat) returns (c': Config)
    requires Sane(m) && ContinueNeverPops(m) && c.state < m.Size() && c.parseIdx < |data|
    requires Follow(m, data[c.parseIdx..], c.state, k).Some? && HaltsIn(m, data, c, n)
    ensures n > k && c'.parseIdx == c.parseIdx && Some(c'.state) == Follow(m, data[c.parseIdx..], c.state, k)
    ensures HaltsIn(m, data, c', n - k)
    decreases k
  {
    hide Sane, Step, Chained, ContinueNeverPops;
    c' := c;
    if k > 0 {
      ChainedStep(m, data, c);
      c' := ChainTakesSteps(m, data, Step(m, data, c).config, k - 1, n - 1);
    }
  }

  /** A chain that comes back goes on forever. */
  lemma {:induction false} ReturnNeverEnds(m: Matcher, data: bytes, state: nat, k: nat, c: Config, n: nat)
    requires Sane(m) && ContinueNeverPops(m) && state < m.Size() && k > 0
    requires c.state == state && c.parseIdx < |data| && Follow(m, data[c.parseIdx..], state, k) == Some(state)
    ensures !HaltsIn(m, data, c, n)
    decreases n
  {
    hide Sane, Step, Follow, Chained, ContinueNeverPops;
    if HaltsIn(m, data, c, n) {
      var c' := ChainTakesSteps(m, data, c, k, n);
      ReturnNeverEnds(m, data, state, k, c', n - k);
    }
  }

  // ---------------------------------------------------------------- chains have an end

  /** More numbers below `n` than `n` have a duplicate. */
  lemma {:induction false} Pigeonhole(s: seq<nat>, n: nat)
    requires NoDuplicates(s) && forall i :: 0 <= i < |s| ==> s[i] < n
    ensures |s| <= n
    decreases n
  {
    if s != [] {
      assert s[0] < n;
      if n - 1 in s {
        var i :| 0 <= i < |s| && s[i] == n - 1;
        Pigeonhole(s[..i] + s[i + 1..], n - 1);
      } else {
        Pigeonhole(s, n - 1);
      }
    }
  }

  /** The states of a chain. */
  function Visited(m: Matcher, data: bytes, state: nat, k: nat): (states: seq<nat>)
    requires Sane(m) && state < m.Size() && Follow(m, data, state, k).Some?
    ensures |states| == k + 1
    decreases k
  {
    if k == 0 then [state] else [state] + Visited(m, data, Chained(m, data, state).value, k - 1)
  }

  lemma {:induction false} VisitedAt(m: Matcher, data: bytes, state: nat, k: nat, i: nat)
    requires Sane(m) && state < m.Size() && Follow(m, data, state, k).Some? && i <= k
    ensures Some(Visited(m, data, state, k)[i]) == Follow(m, data, state, i)
    decreases k
  {
    if i > 0 { VisitedAt(m, data, Chained(m, data, state).value, k - 1, i - 1); }
  }

  /** A chain as long as the table is big has come back to one of its states. */
  lemma LongChainReturns(m: Matcher, data: bytes, state: nat)
    requires Sane(m) && state < m.Size() && Follow(m, data, state, m.Size()).Some?
    ensures Returns(m)
  {
    hide Visited, Sane, Chained;
    var n := m.Size();
    var states := Visited(m, data, state, n);
    forall i: nat | i <= n ensures states[i] < n && Follow(m, data, state, i) == Some(states[i]) {
      VisitedAt(m, data, state, n, i);
    }
    if NoDuplicates(states) {
      Pigeonhole(states, n);
    } else {
      var i: nat, j: nat :| i < j < |states| && states[i] == states[j];
      FollowAdd(m, data, state, i, j - i);
      assert Follow(m, data, states[i], j - i) == Some(states[i]);
    }
  }

  /** On any data a chain has at most `width` states. */
  ghost predicate Width(m: Matcher, width: nat)
    requires Sane(m)
  {
    width > 0 && forall data, state: nat | state < m.Size() :: Follow(m, data, state, width).None?
  }

  /** The lookups that `length` bytes allow: `width` for each. */
  ghost function Budget(length: nat, width: nat): nat { if length == 0 then 0 else Budget(length - 1, width) + width }

  lemma {:induction false} BudgetIsProduct(length: nat, width: nat)
    ensures Budget(length, width) == length * width
  {
    if length > 0 { BudgetIsProduct(length - 1, width); }
  }

  lemma {:induction false} BudgetGrows(a: nat, b: nat, width: nat)
    requires a <= b
    ensures Budget(a, width) <= Budget(b, width)
  {
    if a < b { BudgetGrows(a, b - 1, width); }
  }

  /** What is left of the iterations at one place, and those of the places behind it. */
  lemma {:induction false} HaltsWithin(m: Matcher, data: bytes, c: Config, width: nat, left: nat)
    requires Sane(m) && ContinueNeverPops(m) && Width(m, width)
    requires c.state < m.Size() && c.parseIdx < |data| && Follow(m, data[c.parseIdx..], c.state, left).None?
    ensures var n := left + Budget(|data| - c.parseIdx - 1, width) + 1;
      HaltsIn(m, data, c, n) && Steps(m, data, c, n) < n
    decreases |data| - c.parseIdx, left
  {
    hide Budget, Sane, Step, Chained, Width, ContinueNeverPops;
    ChainedStep(m, data, c);
    StepProgress'(m, data, c);
    if Step(m, data, c).Next? {
      var c' := Step(m, data, c).config;
      if c'.parseIdx == c.parseIdx {
        HaltsWithin(m, data, c', width, left - 1);
      } else if c'.parseIdx < |data| {
        WidthHere(m, data[c'.parseIdx..], c'.state, width);
        HaltsWithin(m, data, c', width, width);
        NextBudget(|data| - c'.parseIdx, |data| - c.parseIdx - 1, width);
        HaltsLater(m, data, c', width + Budget(|data| - c'.parseIdx - 1, width) + 1,
          left + Budget(|data| - c.parseIdx - 1, width));
      }
    }
  }

  lemma WidthHere(m: Matcher, data: bytes, state: nat, width: nat)
    requires Sane(m) && Width(m, width) && state < m.Size()
    ensures Follow(m, data, state, width).None?
  {
  }

  lemma NextBudget(a: nat, b: nat, width: nat)
    requires 0 < a <= b
    ensures width + Budget(a - 1, width) <= Budget(b, width)
  {
    BudgetGrows(a, b, width);
  }

  lemma StepProgress'(m: Matcher, data: bytes, c: Config)
    requires c.parseIdx < |data| && c.state < m.Size() && Sane(m)
    ensures Step(m, data, c).Next? ==>
      var c' := Step(m, data, c).config; c'.state < m.Size() && c.parseIdx <= c'.parseIdx <= |data|
  {
    if Step(m, data, c).Next? { StepProgress(m, data, c); }
  }

  /** With chains of at most `width` states, n bytes take at most n * width lookups. */
  lemma StepsAreBounded(m: Matcher, data: bytes, c: Config, width: nat)
    requires Sane(m) && ContinueNeverPops(m) && Width(m, width) && c.state < m.Size() && c.parseIdx <= |data|
    ensures var n := Budget(|data| - c.parseIdx, width) + 1; HaltsIn(m, data, c, n) && Steps(m, data, c, n) < n
  {
    hide HaltsIn, Steps, Follow, Width, Sane, ContinueNeverPops, Budget;
    if c.parseIdx < |data| {
      WidthHere(m, data[c.parseIdx..], c.state, width);
      HaltsWithin(m, data, c, width, width);
      BudgetLast(|data| - c.parseIdx, width);
    } else {
      EndHalts(m, data, c, width);
    }
  }

  lemma EndHalts(m: Matcher, data: bytes, c: Config, width: nat)
    requires Sane(m) && c.state < m.Size() && c.parseIdx == |data|
    ensures Budget(0, width) == 0 && HaltsIn(m, data, c, 1) && Steps(m, data, c, 1) == 0
  {
  }

  lemma BudgetLast(length: nat, width: nat)
    requires length > 0
    ensures width + Budget(length - 1, width) == Budget(length, width)
  {
  }

  // Continue transitions that pop and do not push: every pop shortens the stack, and on an empty stack
  // they follow the chain.

  lemma UnpushedStep(m: Matcher, data: bytes, c: Config)
    requires Sane(m) && ContinueNeverPushes(m) && c.state < m.Size() && c.parseIdx < |data| && Step(m, data, c).Next?
    ensures var c', next := Step(m, data, c).config, Chained(m, data[c.parseIdx..], c.state);
      || c'.parseIdx > c.parseIdx
      || (c'.parseIdx == c.parseIdx && |c'.stack| < |c.stack|)
      || (c'.parseIdx == c.parseIdx && c'.stack == c.stack && next == Some(c'.state))
  {
    hide MatchStart, Longest;
    if m.HasTokens(c.state) && m.Look(c.state, data[c.parseIdx..]).Some? {
      var t := m.Look(c.state, data[c.parseIdx..]).value.payload.value;
      assert t.flags.continue_ ==> !t.flags.push;
    }
  }

  lemma {:induction false} UnpushedHalts(m: Matcher, data: bytes, c: Config, left: nat)
    requires Sane(m) && ContinueNeverPushes(m) && Width(m, m.Size())
    requires c.state < m.Size() && c.parseIdx < |data| && Follow(m, data[c.parseIdx..], c.state, left).None?
    ensures Halts(m, data, c)
    decreases |data| - c.parseIdx, |c.stack|, left
  {
    hide Sane, Step, Chained, Width, ContinueNeverPushes;
    var n: nat := 0;
    if Step(m, data, c).Next? {
      UnpushedStep(m, data, c);
      StepProgress'(m, data, c);
      var c' := Step(m, data, c).config;
      if c'.parseIdx == |data| {
        n := 1;
      } else {
        if c'.parseIdx == c.parseIdx && c'.stack == c.stack {
          UnpushedHalts(m, data, c', left - 1);
        } else {
          WidthHere(m, data[c'.parseIdx..], c'.state, m.Size());
          UnpushedHalts(m, data, c', m.Size());
        }
        n :| HaltsIn(m, data, c', n);
      }
    }
    assert HaltsIn(m, data, c, n + 1);
  }

  /** On an empty stack a chain that comes back goes on forever. */
  lemma {:induction false} UnpushedNeverEnds(m: Matcher, data: bytes, state: nat, k: nat, left: nat, c: Config, n: nat)
    requires Sane(m) && ContinueNeverPushes(m) && state < m.Size() && 0 < left <= k && c.state < m.Size()
    requires Follow(m, data, state, k) == Some(state) && Follow(m, data, c.state, left) == Some(state)
    requires c.parseIdx == 0 && c.stack == [] && data != []
    ensures !HaltsIn(m, data, c, n)
    decreases n
  {
    hide Sane, Step, ContinueNeverPushes;
    assert data[0..] == data;
    EmptyStackStep(m, data, c);
    var c' := Step(m, data, c).config;
    if n > 0 {
      if left > 1 {
        UnpushedNeverEnds(m, data, state, k, left - 1, c', n - 1);
      } else {
        UnpushedNeverEnds(m, data, state, k, k, c', n - 1);
      }
    }
  }

  lemma EmptyStackStep(m: Matcher, data: bytes, c: Config)
    requires Sane(m) && ContinueNeverPushes(m) && c.state < m.Size() && c.parseIdx == 0 && c.stack == [] && data != []
    requires Chained(m, data, c.state).Some?
    ensures Step(m, data, c).Next?
    ensures var c' := Step(m, data, c).config;
      c'.parseIdx == 0 && c'.stack == [] && Some(c'.state) == Chained(m, data, c.state)
  {
    hide MatchStart, Longest;
    assert data[0..] == data;
    assert m.HasTokens(c.state) && m.Look(c.state, data).Some?;
  }

  /** Parsing ends on all data, from all states and stacks, exactly if no chain of Continue
      transitions comes back to its own state: for tables whose Continue transitions do not pop, and
      for those whose Continue transitions do not push. */
  lemma HaltsIffNoReturn(m: Matcher)
    requires Sane(m) && (ContinueNeverPops(m) || ContinueNeverPushes(m))
    ensures HaltsAlways(m) <==> !Returns(m)
  {
    if Returns(m) {
      var data, state: nat, k: nat :| state < m.Size() && k > 0 && Follow(m, data, state, k) == Some(state);
      var c := Start(state, []);
      assert data[0..] == data;
      assert data != [] by { ChainNeedsData(m, data, state); }
      forall n ensures !HaltsIn(m, data, c, n) {
        if ContinueNeverPops(m) {
          ReturnNeverEnds(m, data, state, k, c, n);
        } else {
          UnpushedNeverEnds(m, data, state, k, k, c, n);
        }
      }
      assert !Halts(m, data, c);
    } else {
      forall data, state: nat, stack | state < m.Size() ensures Halts(m, data, Start(state, stack)) {
        NoReturnHalts(m, data, state, stack);
      }
    }
  }

  lemma NoReturnHalts(m: Matcher, data: bytes, state: nat, stack: seq<nat>)
    requires Sane(m) && (ContinueNeverPops(m) || ContinueNeverPushes(m)) && !Returns(m) && state < m.Size()
    ensures Halts(m, data, Start(state, stack))
  {
    hide Width, Returns, ContinueNeverPops, ContinueNeverPushes;
    NoReturnWidth(m, m.Size());
    if ContinueNeverPops(m) {
      StepsAreBounded(m, data, Start(state, stack), m.Size());
      assert HaltsIn(m, data, Start(state, stack), Budget(|data|, m.Size()) + 1);
    } else if data != [] {
      assert data[0..] == data;
      WidthHere(m, data, state, m.Size());
      UnpushedHalts(m, data, Start(state, stack), m.Size());
    } else {
      assert HaltsIn(m, data, Start(state, stack), 1);
    }
  }

  /** With both, no chain need come back: one transition pushes its state and the next one pops it. */
  const PING_PONG: seq<Tokens> := [
    [([97], Transition(1, Flags(true, false, false, true, false), None))],
    [([97], Transition(STOP, Flags(true, false, false, false, true), None))]
  ]

  lemma PingPongAnswers(state: nat)
    requires state < 2
    ensures Sane(Lists(PING_PONG)) && Lists(PING_PONG).HasTokens(state)
    ensures Lists(PING_PONG).Look(state, [97]) == Some(Hit(1, Some(PING_PONG[state][0].1)))
  {
    ListsAreSane(PING_PONG);
    var tokens := PING_PONG[state];
    assert tokens[..0] == [] && Longest(tokens[..0], [97]) == None;
    assert [97 as byte][..1] == [97];
  }

  lemma {:induction false} PingPongGoesOn(c: Config, n: nat)
    requires c.parseIdx == 0 && ((c.state == 0 && c.stack == []) || (c.state == 1 && c.stack == [0]))
    ensures Sane(Lists(PING_PONG)) && !HaltsIn(Lists(PING_PONG), [97], c, n)
    decreases n
  {
    hide Longest, Sane, Matcher.Look;
    PingPongAnswers(c.state);
    assert [97 as byte][0..] == [97];
    if n > 0 {
      var c' := After(c, 1, PING_PONG[c.state][0].1);
      assert Step(Lists(PING_PONG), [97], c) == Next(c');
      PingPongGoesOn(c', n - 1);
    }
  }

  lemma PushAndPopCanLoop()
    ensures Sane(Lists(PING_PONG)) && ChainsEnd(PING_PONG, |PING_PONG|) && !HaltsAlways(Lists(PING_PONG))
  {
    var m := Lists(PING_PONG);
    PingPongAnswers(0);
    PingPongAnswers(1);
    forall i, j, state: nat | 0 <= i < 2 && 0 <= j < |PING_PONG[i]| && state < 2
      ensures Follow(m, PING_PONG[i][j].0, state, 2).None?
    {
      assert PING_PONG[i][j].0 == [97];
      assert Chained(m, [97], 1).None?;
      assert Follow(m, [97], 1, 1).None?;
    }
    forall n ensures !HaltsIn(m, [97], Start(0, []), n) { PingPongGoesOn(Start(0, []), n); }
    assert !Halts(m, [97], Start(0, []));
  }

  lemma ChainNeedsData(m: Matcher, data: bytes, state: nat)
    requires Sane(m) && state < m.Size() && Chained(m, data, state).Some?
    ensures data != []
  {
  }

  lemma NoReturnWidth(m: Matcher, size: nat)
    requires Sane(m) && !Returns(m) && size == m.Size() > 0
    ensures Width(m, size)
  {
    forall data, state: nat | state < m.Size() ensures Follow(m, data, state, size).None? {
      if Follow(m, data, state, size).Some? { LongChainReturns(m, data, state); }
    }
  }

  // ------------------------------------------------- it suffices to look at the tokens

  predicate IsToken(table: seq<Tokens>, token: bytes) {
    exists i, j :: 0 <= i < |table| && 0 <= j < |table[i]| && table[i][j].0 == token
  }

  predicate AllNonEmpty(table: seq<Tokens>) { forall i :: 0 <= i < |table| ==> NonEmpty(table[i]) }

  lemma PrefixTransitive(a: bytes, b: bytes, c: bytes)
    requires Prefix(a, b) && Prefix(b, c)
    ensures Prefix(a, c)
  {
    assert c[..|a|] == c[..|b|][..|a|];
  }

  lemma IsLongestOnPrefix(tokens: Tokens, data: bytes, prefix: bytes, i: nat)
    requires Prefix(prefix, data) && IsLongest(tokens, data, i) && |tokens[i].0| <= |prefix|
    ensures IsLongest(tokens, prefix, i)
  {
    PrefixesNest(prefix, tokens[i].0, data);
    hide Prefix;
    forall j | 0 <= j < |tokens| && Prefix(tokens[j].0, prefix) ensures Prefix(tokens[j].0, data) {
      PrefixTransitive(tokens[j].0, prefix, data);
    }
  }

  /** A prefix that still holds the longest token gives the same answer. */
  lemma LongestOnPrefix(tokens: Tokens, data: bytes, prefix: bytes)
    requires Prefix(prefix, data) && Longest(tokens, data).Some? && Longest(tokens, data).value.pathLen <= |prefix|
    ensures Longest(tokens, prefix) == Longest(tokens, data)
  {
    hide Longest, Prefix;
    LongestIsLongest(tokens, data);
    LongestIsLongest(tokens, prefix);
    var hit := Longest(tokens, data).value;
    var i: nat :| i < |tokens| && IsLongest(tokens, data, i) && hit == Hit(|tokens[i].0|, Some(tokens[i].1));
    IsLongestOnPrefix(tokens, data, prefix, i);
    LongestMatchUnique(tokens, prefix, Longest(tokens, prefix), Some(hit));
  }

  /** The longest token that a chain finds; the chain is the same on that token alone. */
  lemma {:induction false} ChainOnToken(table: seq<Tokens>, data: bytes, state: nat, k: nat) returns (token: bytes)
    requires Sane(Lists(table)) && state < |table| && k > 0 && Follow(Lists(table), data, state, k).Some?
    ensures IsToken(table, token) && Prefix(token, data)
    ensures forall longer :: Prefix(token, longer) && Prefix(longer, data) ==>
      Follow(Lists(table), longer, state, k) == Follow(Lists(table), data, state, k)
    decreases k
  {
    var m := Lists(table);
    LongestIsLongest(table[state], data);
    var hit := Longest(table[state], data).value;
    var i: nat :| IsLongest(table[state], data, i) && hit == Hit(|table[state][i].0|, Some(table[state][i].1));
    token := table[state][i].0;
    var next := Chained(m, data, state).value;
    var first, deeper := token, token;
    if k > 1 {
      deeper := ChainOnToken(table, data, next, k - 1);
      if |deeper| > |first| { token := deeper; }
    }
    forall longer | Prefix(token, longer) && Prefix(longer, data)
      ensures Follow(m, longer, state, k) == Follow(m, data, state, k)
    {
      LongestOnPrefix(table[state], data, longer);
      if k > 1 {
        PrefixesNest(longer, deeper, data);
        assert Follow(m, longer, next, k - 1) == Follow(m, data, next, k - 1);
      }
    }
  }

  lemma PrefixesNest(a: bytes, b: bytes, data: bytes)
    requires Prefix(a, data) && Prefix(b, data) && |b| <= |a|
    ensures Prefix(b, a)
  {
    assert a[..|b|] == data[..|a|][..|b|];
  }

  /** On every token of the table the chains from all states end before they have visited more
      than `width` states. */
  predicate ChainsEnd(table: seq<Tokens>, width: nat)
    requires Sane(Lists(table))
  {
    forall i, j, state: nat :: 0 <= i < |table| && 0 <= j < |table[i]| && state < |table| ==>
      Follow(Lists(table), table[i][j].0, state, width).None?
  }

  /** The number of states of the longest chain, if there is none that comes back. */
  function LongestChain(table: seq<Tokens>, from: nat): (width: nat)
    requires Sane(Lists(table)) && from <= |table|
    ensures from <= width <= |table|
    ensures forall k :: from <= k < width ==> !ChainsEnd(table, k)
    ensures width < |table| ==> ChainsEnd(table, width)
    decreases |table| - from
  {
    if from == |table| || ChainsEnd(table, from) then from else LongestChain(table, from + 1)
  }

  /** What ends on the tokens of the table ends on all data. */
  lemma TokensSuffice(table: seq<Tokens>, width: nat)
    requires Sane(Lists(table)) && ChainsEnd(table, width) && width > 0
    ensures Width(Lists(table), width)
  {
    var m := Lists(table);
    forall data, state: nat | state < m.Size() ensures Follow(m, data, state, width).None? {
      if Follow(m, data, state, width).Some? {
        var token := ChainOnToken(table, data, state, width);
        PrefixOfItself(token);
      }
    }
  }

  lemma PrefixOfItself(a: bytes)
    ensures Prefix(a, a)
  {
  }

  /** A chain that comes back has no end. */
  lemma {:induction false} ReturnGoesOn(m: Matcher, data: bytes, state: nat, k: nat, n: nat)
    requires Sane(m) && state < m.Size() && k > 0 && Follow(m, data, state, k) == Some(state)
    ensures Follow(m, data, state, n).Some?
    decreases n
  {
    if n < k {
      FollowLess(m, data, state, n, k);
    } else {
      ReturnGoesOn(m, data, state, k, n - k);
      FollowAdd(m, data, state, k, n - k);
    }
  }

  /** A caller can decide beforehand whether parsing always ends: follow the Continue transitions
      from every state on every token of the table for as many steps as there are states. */
  lemma HaltsIffChainsEnd(table: seq<Tokens>)
    requires AllNonEmpty(table) && Sane(Lists(table))
    requires ContinueNeverPops(Lists(table)) || ContinueNeverPushes(Lists(table))
    ensures HaltsAlways(Lists(table)) <==> ChainsEnd(table, |table|)
  {
    var m := Lists(table);
    HaltsIffNoReturn(m);
    if ChainsEnd(table, |table|) {
      if Returns(m) {
        var data, state: nat, k: nat :| state < m.Size() && k > 0 && Follow(m, data, state, k) == Some(state);
        TokensSuffice(table, |table|);
        ReturnGoesOn(m, data, state, k, |table|);
      }
    } else {
      var i, j, state: nat :| 0 <= i < |table| && 0 <= j < |table[i]| && state < |table|
        && Follow(m, table[i][j].0, state, |table|).Some?;
      LongChainReturns(m, table[i][j].0, state);
    }
  }

  /** And then n bytes take at most n times as many lookups as the longest chain has states. */
  lemma LookupsOfLongestChain(table: seq<Tokens>, data: bytes, state: nat, stack: seq<nat>)
    requires AllNonEmpty(table) && Sane(Lists(table)) && ContinueNeverPops(Lists(table)) && ChainsEnd(table, |table|)
    requires state < |table|
    ensures var n := Budget(|data|, LongestChain(table, 1)) + 1;
      HaltsIn(Lists(table), data, Start(state, stack), n) && Steps(Lists(table), data, Start(state, stack), n) < n
  {
    hide ChainsEnd, Width;
    TokensSuffice(table, LongestChain(table, 1));
    StepsAreBounded(Lists(table), data, Start(state, stack), LongestChain(table, 1));
  }
}
