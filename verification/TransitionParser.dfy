/** The transition parser of shared/parser.go, with its tries in place, proved against Automaton. */
module TransitionParsers {
  import opened Utilities
  import opened Automaton
  import opened TrieNodes
  import Termination
  import Trie

  /** The lookup table after asking for a name; empty names stand for the stop state. */
  function Register(lookup: seq<string>, name: string): seq<string> {
    if name == "" || name in lookup then lookup else lookup + [name]
  }

  function IdOf(lookup: seq<string>, name: string): (id: nat)
    ensures id == STOP || id < |lookup|
    ensures name != "" && name in lookup && |lookup| <= STOP ==> id < |lookup| && lookup[id] == name
  {
    if name == "" || name !in lookup then STOP
    else if lookup[0] == name then 0
    else
      var rest := IdOf(lookup[1..], name);
      if rest == STOP then STOP else 1 + rest
  }

  /** The names of the states and the tokens of each state, in the order they were added. */
  datatype Machine = Machine(lookup: seq<string>, table: seq<Tokens>)

  function Registered(m: Machine, name: string): Machine {
    var lookup := Register(m.lookup, name);
    Machine(lookup, m.table + if |lookup| > |m.lookup| then [[]] else [])
  }

  function Added(m: Machine, name: string, t: Transition, token: bytes): Machine
    requires |m.lookup| == |m.table|
  {
    var m' := Registered(m, name);
    var id := IdOf(m'.lookup, name);
    if id < |m'.table| then m'.(table := m'.table[id := m'.table[id] + [(token, t)]]) else m'
  }

  /** The loop of Parse ends within `n` iterations; otherwise the original does not return. */
  ghost predicate Ends(table: seq<Tokens>, data: bytes, state: nat, stack: seq<nat>, n: nat) {
    && state < |table| && Sane(Tries(Built(table)))
    && HaltsIn(Tries(Built(table)), data, Config(0, 0, state, stack, []), n)
  }

  /** The run that Parse makes. */
  ghost function ParserRun(table: seq<Tokens>, data: bytes, state: nat, stack: seq<nat>, n: nat): (outcome: Outcome)
    requires Ends(table, data, state, stack, n)
    ensures Tiled(data, outcome.config)
  {
    RunTiles(Tries(Built(table)), data, Config(0, 0, state, stack, []), n);
    Run(Tries(Built(table)), data, Config(0, 0, state, stack, []), n)
  }

  /** With all tokens in order of their length, Parse is the automaton that looks at each token
      of a plain list: it ends when that ends, with the same outcome. */
  lemma ParserRunByLists(table: seq<Tokens>, data: bytes, state: nat, stack: seq<nat>, n: nat)
    requires Ordered(table) && state < |table|
    ensures Sane(Lists(table))
    ensures Ends(table, data, state, stack, n) <==> HaltsIn(Lists(table), data, Config(0, 0, state, stack, []), n)
    ensures Ends(table, data, state, stack, n) ==>
      ParserRun(table, data, state, stack, n) == Run(Lists(table), data, Config(0, 0, state, stack, []), n)
  {
    TriesAreSane(table);
    ListsAreSane(table);
    SameRun(table, data, Config(0, 0, state, stack, []), n);
  }

  /** If moreover Continue transitions do not pop and their chains end on all tokens of the table,
      Parse returns for all data, states and stacks. */
  lemma ParseAlwaysReturns(table: seq<Tokens>, data: bytes, state: nat, stack: seq<nat>)
    requires Ordered(table) && state < |table| && Sane(Lists(table))
    requires Termination.ContinueNeverPops(Lists(table)) && Termination.ChainsEnd(table, |table|)
    ensures Ends(table, data, state, stack, Termination.Budget(|data|, Termination.LongestChain(table, 1)) + 1)
  {
    Termination.LookupsOfLongestChain(table, data, state, stack);
    ParserRunByLists(table, data, state, stack, Termination.Budget(|data|, Termination.LongestChain(table, 1)) + 1);
  }

  /** What a caller sees of a run; a crash returns nothing. */
  ghost predicate Yields(outcome: Outcome, data: bytes, rest: Option<bytes>, last: nat, calls: seq<Call>,
                         stack: seq<nat>, crashed: bool)
    requires Tiled(data, outcome.config)
  {
    var end := outcome.config;
    && crashed == outcome.Crashed? && calls == Calls(data, end.log) && stack == end.stack
    && (!crashed ==> last == end.state && rest == if end.readStart == |data| then None else Some(data[end.readStart..]))
  }

  /** The calls made so far are those of the moves so far. */
  ghost predicate Reported(data: bytes, c: Config, calls: seq<Call>) { Tiled(data, c) && calls == Calls(data, c.log) }

  /** The run goes on from here and ends with the outcome. */
  ghost predicate OnTrack(m: Matcher, data: bytes, c: Config, n: nat, calls: seq<Call>, outcome: Outcome) {
    && c.state < m.Size() && Sane(m) && Reported(data, c, calls)
    && HaltsIn(m, data, c, n) && Run(m, data, c, n) == outcome
  }

  lemma StartsOnTrack(table: seq<Tokens>, data: bytes, state: nat, stack: seq<nat>, n: nat)
    requires Ends(table, data, state, stack, n)
    ensures state < |table|
    ensures OnTrack(Tries(Built(table)), data, Config(0, 0, state, stack, []), n, [],
      ParserRun(table, data, state, stack, n))
  {
    hide Run, HaltsIn;
  }

  lemma TrackEnds(m: Matcher, data: bytes, c: Config, n: nat, calls: seq<Call>, outcome: Outcome)
    requires OnTrack(m, data, c, n, calls, outcome) && c.parseIdx >= |data|
    ensures Reported(data, c, calls) && outcome == Finished(c)
  {
  }

  lemma TrackCrashes(m: Matcher, data: bytes, c: Config, n: nat, calls: seq<Call>, outcome: Outcome)
    requires OnTrack(m, data, c, n, calls, outcome) && c.parseIdx < |data| && c.state < m.Size()
      && !m.HasTokens(c.state)
    ensures Reported(data, c, calls) && outcome == Crashed(c)
  {
  }

  lemma TrackQuiet(m: Matcher, data: bytes, c: Config, n: nat, calls: seq<Call>, outcome: Outcome)
    requires OnTrack(m, data, c, n, calls, outcome) && c.parseIdx < |data|
    requires c.state < m.Size() && m.HasTokens(c.state) && m.Look(c.state, data[c.parseIdx..]).None?
    ensures n > 0 && OnTrack(m, data, c.(parseIdx := c.parseIdx + 1), n - 1, calls, outcome)
  {
  }

  lemma TrackHit(m: Matcher, data: bytes, c: Config, n: nat, calls: seq<Call>, outcome: Outcome, len: nat,
                 t: Transition)
    requires OnTrack(m, data, c, n, calls, outcome) && c.parseIdx < |data|
    requires c.state < m.Size() && m.HasTokens(c.state)
    requires m.Look(c.state, data[c.parseIdx..]) == Some(Trie.Hit(len, Some(t)))
    ensures c.parseIdx + len <= |data| && InRange(data, Move(c.state, c.readStart, c.parseIdx, len, t))
    ensures var c' := After(c, len, t);
      var calls' := calls + Called(data, Move(c.state, c.readStart, c.parseIdx, len, t));
      && c'.parseIdx == (if t.flags.continue_ then c.parseIdx else c.parseIdx + len)
      && c'.readStart == (if t.flags.append then c.readStart else c'.parseIdx)
      && n > 0 && Reported(data, c', calls')
      && if c'.state == STOP then outcome == Finished(c')
         else if c'.state < m.Size() then OnTrack(m, data, c', n - 1, calls', outcome)
         else outcome == Crashed(c')
  {
    hide Trie.MatchStart, Longest, Covered;
    SaneAnswer(m, c.state, data[c.parseIdx..]);
    MoveTiles(data, c, len, t);
    if Step(m, data, c).Next? { StepProgress(m, data, c); }
    assert After(c, len, t).log[..|c.log|] == c.log;
  }

  lemma YieldsOf(outcome: Outcome, data: bytes, calls: seq<Call>, stack: seq<nat>)
    requires Reported(data, outcome.config, calls) && stack == outcome.config.stack
    ensures Tiled(data, outcome.config)
    ensures var end := outcome.config;
      Yields(outcome, data, if end.readStart == |data| then None else Some(data[end.readStart..]), end.state, calls,
        stack, outcome.Crashed?)
  {
  }

  lemma NamedOrStop(lookup: seq<string>, name: string)
    requires |Register(lookup, name)| <= STOP
    ensures var lookup' := Register(lookup, name);
      if name == "" then IdOf(lookup', name) == STOP else IdOf(lookup', name) < |lookup'|
  {
  }

  class TransitionParser {
    var lookup: seq<string>
    var tokens: seq<TrieNode?<Transition>>
    var stack: seq<nat>
    /** The tokens of each state in the order they were added, and the objects of their tries. */
    ghost var table: seq<Tokens>
    ghost var repr: set<object>

    ghost function Description(): Machine
      reads this
    {
      Machine(lookup, table)
    }

    /** The trie of one state holds the state's tokens. */
    static ghost predicate Holds(trie: TrieNode?<Transition>, list: Tokens, repr: set<object>)
      reads repr
    {
      if trie == null then list == []
      else
        && trie in repr && trie.repr <= repr && trie.Outline() && trie.Valid()
        && list != [] && trie.model == Trie.Build(list) && Trie.WellFormed(trie.model)
    }

    static ghost predicate Separate(a: TrieNode?<Transition>, b: TrieNode?<Transition>, repr: set<object>)
      reads repr
    {
      a != null && b != null && a in repr && b in repr ==> a.repr !! b.repr
    }

    static lemma NoTrie(tries: seq<TrieNode?<Transition>>, repr: set<object>)
      ensures Holds(null, [], repr) && forall a :: a in tries ==> Separate(a, null, repr)
    {
    }

    ghost predicate Valid()
      reads this, repr, tokens
    {
      && this !in repr
      && |lookup| == |tokens| == |table| <= STOP
      && "" !in lookup && NoDuplicates(lookup)
      && (forall i :: 0 <= i < |tokens| ==> Holds(tokens[i], table[i], repr))
      && (forall i, j :: 0 <= i < j < |tokens| ==> Separate(tokens[i], tokens[j], repr))
    }

    function GetStateName(id: nat): string
      reads this
    {
      if id < |lookup| then lookup[id] else ""
    }

    constructor ()
      ensures Valid() && fresh(repr) && lookup == [] && table == [] && stack == []
    {
      lookup, tokens, stack, table, repr := [], [], [], [], {};
    }

    /** The state's number, which is a new one for a new name. */
    method GetStateID(stateName: string) returns (id: nat)
      requires Valid() && |Register(lookup, stateName)| <= STOP
      modifies this`lookup, this`tokens, this`table
      ensures Valid() && Description() == Registered(old(Description()), stateName) && id == IdOf(lookup, stateName)
      ensures GetStateName(id) == stateName
    {
      hide Holds, Separate, Register, IdOf;
      if |stateName| == 0 {
        StopName(lookup);
        return STOP;
      }
      for i := 0 to |lookup|
        invariant stateName !in lookup[..i]
      {
        if lookup[i] == stateName {
          KnownName(lookup, i);
          return i;
        }
      }
      NewName(lookup, stateName);
      NoTrie(tokens, repr);
      id := |lookup|;
      lookup, tokens, table := lookup + [stateName], tokens + [null], table + [[]];
    }

    static lemma BuildStep(list: Tokens, token: bytes, t: Transition)
      ensures list == [] ==> Trie.Build(list + [(token, t)]) == Trie.NewTrie(token, Some(t))
      ensures list != [] ==> Trie.Build(list + [(token, t)]) == Trie.Add(Trie.Build(list), token, t)
    {
      assert (list + [(token, t)])[..|list|] == list;
    }

    /** The trie of a state with one more token; the first token makes the trie. */
    static method Grow(trie: TrieNode?<Transition>, token: bytes, t: Transition, ghost list: Tokens,
                       ghost r: set<object>)
      returns (root: TrieNode<Transition>)
      requires Holds(trie, list, r)
      modifies if trie == null then {} else trie.repr
      ensures Holds(root, list + [(token, t)], root.repr)
        && fresh(root.repr - if trie == null then {} else old(trie.repr))
    {
      BuildStep(list, token, t);
      if trie == null {
        root := new TrieNode(token, Some(t));
        root.Unfold();
      } else {
        root := trie.Add(token, t);
        root.Unfold();
      }
    }

    /** AddTransition for a state that is known. */
    method AddToken(id: nat, token: bytes, t: Transition)
      requires Valid() && id < |tokens|
      modifies this`tokens, this`table, this`repr, repr
      ensures Valid() && fresh(repr - old(repr)) && table == old(table)[id := old(table)[id] + [(token, t)]]
      ensures lookup == old(lookup) && stack == old(stack)
    {
      hide TrieNode.Valid, Trie.Build, Trie.WellFormed;
      var root := Grow(tokens[id], token, t, table[id], repr);
      forall i | 0 <= i < |tokens| && i != id && tokens[i] != null
        ensures tokens[i].Valid() && tokens[i].repr !! root.repr {
        assert old(Holds(tokens[i], table[i], repr) && Holds(tokens[id], table[id], repr));
        assert old(if i < id then Separate(tokens[i], tokens[id], repr) else Separate(tokens[id], tokens[i], repr));
        TrieNode<Transition>.Untouched(tokens[i]);
      }
      tokens, table, repr := tokens[id := root], table[id := table[id] + [(token, t)]], repr + root.repr;
    }

    /** A token for a state, which must have a name; its number has to fit. */
    method AddTransition(stateName: string, newTrans: Transition, token: bytes)
      requires Valid() && stateName != "" && |Register(lookup, stateName)| <= STOP
      modifies this`lookup, this`tokens, this`table, this`repr, repr
      ensures Valid() && fresh(repr - old(repr))
      ensures Description() == Added(old(Description()), stateName, newTrans, token)
    {
      hide Valid, Register, IdOf;
      NamedIds(lookup, stateName);
      var stateID := GetStateID(stateName);
      assert |lookup| == |tokens| == |table| by { Sizes(); }
      AddToken(stateID, token, newTrans);
    }

    lemma Sizes()
      requires Valid()
      ensures |lookup| == |tokens| == |table| <= STOP
    {
    }

    method Add(stateName: string, token: bytes, nextStateName: string, flags: Flags, callback: Option<nat>)
      requires Valid() && stateName != "" && |Register(Register(lookup, nextStateName), stateName)| <= STOP
      modifies this`lookup, this`tokens, this`table, this`repr, repr
      ensures Valid() && fresh(repr - old(repr))
      ensures Description() == Directed(old(Description()), Directive(stateName, token, nextStateName, flags, callback))
    {
      hide Valid, IdOf, Added;
      Sizes();
      var nextStateID := GetStateID(nextStateName);
      AddTransition(stateName, Transition(nextStateID, flags, callback), token);
    }

    method AddDirectives(directives: seq<Directive>)
      requires Valid() && (forall d :: d in directives ==> d.state != "")
      requires |Compiled(Description(), directives).lookup| <= STOP
      modifies this`lookup, this`tokens, this`table, this`repr, repr
      ensures Valid() && fresh(repr - old(repr))
      ensures Description() == Compiled(old(Description()), directives)
    {
      hide Valid, IdOf, Register;
      ghost var start := Description();
      Sizes();
      assert directives[..|directives|] == directives;
      for i := 0 to |directives|
        invariant Valid() && fresh(repr - old(repr))
        invariant Description() == Compiled(start, directives[..i])
      {
        assert directives[..i + 1][..i] == directives[..i];
        var dir := directives[i];
        Sizes();
        NamesKept(start, directives, i + 1);
        assert directives[..i + 1][i] == dir;
        Add(dir.state, dir.token, dir.nextState, dir.flags, dir.callback);
      }
    }

    /** One lookup in the trie of a state; `tries` stands for all of them. */
    method Find(state: nat, data: bytes, ghost tries: Matcher) returns (missing: bool, node: TrieNode?<Transition>)
      requires Valid() && state < |tokens| && tries == Tries(Built(table))
      ensures missing <==> !tries.HasTokens(state)
      ensures !missing ==> TrieNode<Transition>.Answers(node, tries.Look(state, data))
    {
      hide TrieNode.Valid, Trie.MatchStart, Trie.Build, Trie.WellFormed;
      assert Holds(tokens[state], table[state], repr);
      if tokens[state] == null { return true, null; }
      missing := false;
      node := tokens[state].MatchStart(data);
    }

    /** The stack and the next state after a match: pop before push. */
    method Transit(current: nat, t: Transition, ghost c: Config, ghost len: nat) returns (next: nat)
      requires Valid() && c.state == current && c.stack == stack
      modifies this`stack
      ensures Valid()
      ensures After(c, len, t).state == next && After(c, len, t).stack == stack
    {
      hide Holds, Separate;
      next := t.nextState;
      if t.flags.pop {
        var stackLen := |stack|;
        if stackLen > 0 {
          next := stack[stackLen - 1];
          stack := stack[..stackLen - 1];
        }
      }
      if t.flags.push { stack := stack + [current]; }
    }

    /** Parses from a state.  The run must end, as the original does not return otherwise. */
    method Parse(data: bytes, state: string, ghost n: nat)
      returns (rest: Option<bytes>, last: nat, calls: seq<Call>, crashed: bool)
      requires Valid() && |Register(lookup, state)| <= STOP
      requires state != "" ==>
        var m := Registered(Description(), state); Ends(m.table, data, IdOf(m.lookup, state), stack, n)
      modifies this`lookup, this`tokens, this`table, this`stack
      ensures Valid() && Description() == Registered(old(Description()), state)
      ensures state == "" ==> rest == None && last == STOP && calls == [] && !crashed && stack == old(stack)
      ensures state != "" ==> Ends(table, data, IdOf(lookup, state), old(stack), n)
      ensures state != "" ==>
        Yields(ParserRun(table, data, IdOf(lookup, state), old(stack), n), data, rest, last, calls, stack, crashed)
    {
      hide Valid, IdOf, Register, Run, Sane, Tiled, Yields, HaltsIn;
      NamedOrStop(lookup, state);
      var currentStateID: nat := GetStateID(state);
      Sizes();
      if currentStateID == STOP { return None, STOP, [], false; }
      rest, last, calls, crashed := ParseFrom(data, currentStateID, n);
    }

    /** The call of the callback, if there is one. */
    static method Notify(data: bytes, readStartIdx: nat, parseIdx: nat, pathLen: nat, current: nat, t: Transition)
      returns (made: seq<Call>)
      requires InRange(data, Move(current, readStartIdx, parseIdx, pathLen, t))
      ensures made == Called(data, Move(current, readStartIdx, parseIdx, pathLen, t))
    {
      made := [];
      if t.callback.Some? {
        if t.flags.include_ {
          made := [Call(t.callback.value, data[readStartIdx..parseIdx + pathLen], current)];
        } else {
          made := [Call(t.callback.value, data[readStartIdx..parseIdx], current)];
        }
      }
    }

    /** The loop of Parse. */
    method ParseFrom(data: bytes, state: nat, ghost n: nat)
      returns (rest: Option<bytes>, last: nat, calls: seq<Call>, crashed: bool)
      requires Valid() && Ends(table, data, state, stack, n)
      modifies this`stack
      ensures Valid() && Yields(ParserRun(table, data, state, old(stack), n), data, rest, last, calls, stack, crashed)
    {
      hide Valid, OnTrack, Reported, After, Called, Yields, Ends, ParserRun;
      Sizes();
      var current: nat := state;
      ghost var m, outcome := Tries(Built(table)), ParserRun(table, data, current, stack, n);
      ghost var c, left := Config(0, 0, current, stack, []), n;
      StartsOnTrack(table, data, current, stack, n);
      var parseIdx: int, readStartIdx: nat := 0, 0;
      calls, crashed := [], false;
      while parseIdx < |data|
        modifies this`stack
        invariant parseIdx >= 0 && current < |table| == |tokens|
        invariant Valid() && c == Config(parseIdx, readStartIdx, current, stack, c.log)
        invariant OnTrack(m, data, c, left, calls, outcome)
        decreases left
      {
        var missing, node := Find(current, data[parseIdx..], m);
        if missing {
          TrackCrashes(m, data, c, left, calls, outcome);
          crashed := true;
          break;
        }
        if node == null {
          TrackQuiet(m, data, c, left, calls, outcome);
          parseIdx := parseIdx + 1;
          c, left := c.(parseIdx := parseIdx), left - 1;
          continue;
        }
        var t := Payload(node, m, data, c, left, calls, outcome);
        TrackHit(m, data, c, left, calls, outcome, node.pathLen, t);
        var made := Notify(data, readStartIdx, parseIdx, node.pathLen, current, t);
        calls := calls + made;
        parseIdx := parseIdx + if t.flags.continue_ then -1 else node.pathLen - 1;
        var continueIdx := parseIdx + 1;
        if !t.flags.append { readStartIdx := continueIdx; }
        current := Transit(current, t, c, node.pathLen);
        c := After(c, node.pathLen, t);
        if current == STOP { break; }
        if current >= |tokens| {
          crashed := true;
          break;
        }
        parseIdx, left := parseIdx + 1, left - 1;
      }
      if !crashed && current != STOP { TrackEnds(m, data, c, left, calls, outcome); }
      YieldsOf(outcome, data, calls, stack);
      rest := if readStartIdx == |data| then None else Some(data[readStartIdx..]);
      last := current;
    }

    /** The payload of a node that was found. */
    static method Payload(node: TrieNode<Transition>, ghost m: Matcher, ghost data: bytes, ghost c: Config,
                          ghost n: nat,
                          ghost calls: seq<Call>, ghost outcome: Outcome)
      returns (t: Transition)
      requires OnTrack(m, data, c, n, calls, outcome) && c.parseIdx < |data| && m.HasTokens(c.state)
      requires TrieNode<Transition>.Answers(node, m.Look(c.state, data[c.parseIdx..]))
      ensures m.Look(c.state, data[c.parseIdx..]) == Some(Trie.Hit(node.pathLen, Some(t)))
    {
      SaneAnswer(m, c.state, data[c.parseIdx..]);
      t := node.payload.value;
    }
  }

  /** One line of a parser description. */
  datatype Directive = Directive(state: string, token: bytes, nextState: string, flags: Flags, callback: Option<nat>)

  function Directed(m: Machine, d: Directive): Machine
    requires |m.lookup| == |m.table|
  {
    var m' := Registered(m, d.nextState);
    Added(m', d.state, Transition(IdOf(m'.lookup, d.nextState), d.flags, d.callback), d.token)
  }

  function Compiled(m: Machine, ds: seq<Directive>): (m': Machine)
    requires |m.lookup| == |m.table|
    ensures |m'.lookup| == |m'.table|
  {
    if ds == [] then m else Directed(Compiled(m, ds[..|ds| - 1]), ds[|ds| - 1])
  }

  /** What the directives say about one state, in their order. */
  function TokensOf(ds: seq<Directive>, lookup: seq<string>, name: string): Tokens {
    if ds == [] then []
    else
      var d := ds[|ds| - 1];
      TokensOf(ds[..|ds| - 1], lookup, name)
        + if d.state == name then [(d.token, Transition(IdOf(lookup, d.nextState), d.flags, d.callback))] else []
  }

  /** Numbers never change: names are only appended. */
  lemma {:induction false} IdsAreStable(lookup: seq<string>, lookup': seq<string>, name: string)
    requires lookup <= lookup' && |lookup'| <= STOP && (name == "" || name in lookup)
    ensures IdOf(lookup', name) == IdOf(lookup, name)
  {
    if name != "" && lookup[0] != name {
      assert lookup == [lookup[0]] + lookup[1..] && lookup' == [lookup'[0]] + lookup'[1..];
      IdsAreStable(lookup[1..], lookup'[1..], name);
    }
  }

  lemma {:induction false} NamesKept(m: Machine, ds: seq<Directive>, n: nat)
    requires |m.lookup| == |m.table| && n <= |ds|
    ensures Compiled(m, ds[..n]).lookup <= Compiled(m, ds).lookup
    decreases |ds|
  {
    if n < |ds| {
      var init := ds[..|ds| - 1];
      assert ds[..n] == init[..n];
      NamesKept(m, init, n);
    } else {
      assert ds[..n] == ds;
    }
  }

  lemma RegisterExtends(lookup: seq<string>, name: string)
    ensures lookup <= Register(lookup, name) && (name == "" || name in Register(lookup, name))
    ensures "" !in lookup ==> "" !in Register(lookup, name)
  {
  }

  /** More names change nothing for directives whose names are known. */
  lemma {:induction false} TokensAreStable(ds: seq<Directive>, lookup: seq<string>, lookup': seq<string>, name: string)
    requires lookup <= lookup' && |lookup'| <= STOP
    requires forall d :: d in ds ==> d.nextState == "" || d.nextState in lookup
    ensures TokensOf(ds, lookup', name) == TokensOf(ds, lookup, name)
  {
    if ds != [] {
      assert ds == ds[..|ds| - 1] + [ds[|ds| - 1]];
      TokensAreStable(ds[..|ds| - 1], lookup, lookup', name);
      IdsAreStable(lookup, lookup', ds[|ds| - 1].nextState);
    }
  }

  lemma {:induction false} NoTokens(ds: seq<Directive>, lookup: seq<string>, name: string)
    requires forall d :: d in ds ==> d.state != name
    ensures TokensOf(ds, lookup, name) == []
  {
    if ds != [] {
      assert ds == ds[..|ds| - 1] + [ds[|ds| - 1]];
      NoTokens(ds[..|ds| - 1], lookup, name);
    }
  }

  predicate Known(lookup: seq<string>, name: string) { name == "" || name in lookup }

  predicate Names(lookup: seq<string>) {
    |lookup| <= STOP && "" !in lookup && NoDuplicates(lookup)
  }

  /** Each state has exactly the tokens of its directives, in order, and its transitions lead to
      the states they name. */
  predicate Means(m: Machine, ds: seq<Directive>) {
    && Names(m.lookup) && |m.table| == |m.lookup|
    && (forall d :: d in ds ==> d.state in m.lookup && Known(m.lookup, d.nextState))
    && forall id :: 0 <= id < |m.lookup| ==> m.table[id] == TokensOf(ds, m.lookup, m.lookup[id])
  }

  lemma RegisteredMeans(m: Machine, ds: seq<Directive>, name: string)
    requires Means(m, ds) && |Register(m.lookup, name)| <= STOP
    ensures Means(Registered(m, name), ds) && Known(Register(m.lookup, name), name)
  {
    var m' := Registered(m, name);
    RegisterExtends(m.lookup, name);
    forall id | 0 <= id < |m'.lookup| ensures m'.table[id] == TokensOf(ds, m'.lookup, m'.lookup[id]) {
      if id < |m.lookup| {
        TokensAreStable(ds, m.lookup, m'.lookup, m.lookup[id]);
      } else {
        NoTokens(ds, m'.lookup, name);
      }
    }
  }

  lemma IdOfName(lookup: seq<string>, id: nat)
    requires Names(lookup) && id < |lookup|
    ensures IdOf(lookup, lookup[id]) == id
  {
    FirstIndex(lookup, id);
  }

  /** One more token for a known state. */
  lemma AddedMeans(m: Machine, ds: seq<Directive>, d: Directive, at: nat)
    requires Means(m, ds) && Known(m.lookup, d.nextState) && at < |m.lookup| && m.lookup[at] == d.state
    ensures Means(m.(table := m.table[at := m.table[at]
      + [(d.token, Transition(IdOf(m.lookup, d.nextState), d.flags, d.callback))]]), ds + [d])
  {
    assert (ds + [d])[..|ds|] == ds;
  }

  lemma DirectedMeans(m: Machine, ds: seq<Directive>, d: Directive)
    requires Means(m, ds) && d.state != "" && |Directed(m, d).lookup| <= STOP
    ensures Means(Directed(m, d), ds + [d])
  {
    hide Means;
    var m1 := Registered(m, d.nextState);
    var m2 := Registered(m1, d.state);
    RegisterExtends(m1.lookup, d.state);
    RegisteredMeans(m, ds, d.nextState);
    RegisteredMeans(m1, ds, d.state);
    IdsAreStable(m1.lookup, m2.lookup, d.nextState);
    var at :| 0 <= at < |m2.lookup| && m2.lookup[at] == d.state;
    NamesOf(m2, ds);
    IdOfName(m2.lookup, at);
    AddedMeans(m2, ds, d, at);
  }

  lemma NamesOf(m: Machine, ds: seq<Directive>)
    requires Means(m, ds)
    ensures Names(m.lookup) && |m.table| == |m.lookup|
  {
  }

  lemma CompiledLast(m: Machine, init: seq<Directive>, d: Directive)
    requires |m.lookup| == |m.table|
    ensures Compiled(m, init + [d]) == Directed(Compiled(m, init), d)
  {
    assert (init + [d])[..|init|] == init;
  }

  lemma NothingMeans()
    ensures Compiled(Machine([], []), []) == Machine([], []) && Means(Machine([], []), [])
  {
  }

  lemma {:induction false} CompiledMeans(ds: seq<Directive>)
    requires forall i :: 0 <= i < |ds| ==> ds[i].state != ""
    requires |Compiled(Machine([], []), ds).lookup| <= STOP
    ensures Means(Compiled(Machine([], []), ds), ds)
  {
    hide Directed, Means, Compiled;
    var start := Machine([], []);
    if ds == [] {
      NothingMeans();
    } else {
      var init, d := ds[..|ds| - 1], ds[|ds| - 1];
      assert ds == init + [d];
      CompiledLast(start, init, d);
      NamesKept(start, ds, |init|);
      CompiledMeans(init);
      DirectedMeans(Compiled(start, init), init, d);
    }
  }

  lemma NamedIds(lookup: seq<string>, name: string)
    requires name != "" && |Register(lookup, name)| <= STOP
    ensures var lookup' := Register(lookup, name); IdOf(lookup', name) < |lookup'|
  {
  }

  lemma StopName(lookup: seq<string>)
    ensures Register(lookup, "") == lookup && IdOf(lookup, "") == STOP
  {
  }

  lemma KnownName(lookup: seq<string>, i: nat)
    requires i < |lookup| <= STOP && lookup[i] != "" && lookup[i] !in lookup[..i]
    ensures Register(lookup, lookup[i]) == lookup && IdOf(lookup, lookup[i]) == i
  {
    FirstIndex(lookup, i);
  }

  lemma NewName(lookup: seq<string>, name: string)
    requires name != "" && name !in lookup && |Register(lookup, name)| <= STOP
    ensures |lookup| < STOP && Register(lookup, name) == lookup + [name] && IdOf(lookup + [name], name) == |lookup|
  {
    FirstIndex(lookup + [name], |lookup|);
  }

  lemma {:induction false} FirstIndex(lookup: seq<string>, i: nat)
    requires i < |lookup| <= STOP && lookup[i] != "" && lookup[i] !in lookup[..i]
    ensures IdOf(lookup, lookup[i]) == i
  {
    if i > 0 {
      assert lookup[0] == lookup[..i][0];
      assert lookup[1..][..i - 1] == lookup[..i][1..];
      FirstIndex(lookup[1..], i - 1);
    }
  }
}
