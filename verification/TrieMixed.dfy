/**
 Lists of tokens with different first bytes.  The first token with another first byte gives the trie
 of shared/trie.go a root without suffix, below which all later tokens stay leaves: which lists are
 then answered with the longest match, in terms of the tokens alone.
 */
module TrieMixed {
  import opened Utilities
  import opened Trie
  import opened TrieOrder
  import opened TrieFound
  import opened TrieLists

  // ---------------------------------------------------------- the longest match as a value

  function Best<P>(tokens: seq<(bytes, P)>, data: bytes): Option<Hit<P>> {
    if tokens == [] then None
    else
      var n := |tokens| - 1;
      Raised(Best(tokens[..n], data), tokens[n].0, tokens[n].1, |tokens[n].0|, data)
  }

  lemma {:induction false} BestIsLongest<P>(tokens: seq<(bytes, P)>, data: bytes)
    ensures IsLongestMatch(tokens, data, Best(tokens, data))
  {
    if tokens != [] {
      var n := |tokens| - 1;
      BestIsLongest(tokens[..n], data);
      RaisedIsLongest(tokens[..n], tokens[n].0, tokens[n].1, data, Best(tokens[..n], data));
      assert tokens == tokens[..n] + [(tokens[n].0, tokens[n].1)];
    }
  }

  lemma BestIs<P>(tokens: seq<(bytes, P)>, data: bytes, answer: Option<Hit<P>>)
    ensures IsLongestMatch(tokens, data, answer) <==> answer == Best(tokens, data)
  {
    BestIsLongest(tokens, data);
    if IsLongestMatch(tokens, data, answer) { LongestMatchUnique(tokens, data, answer, Best(tokens, data)); }
  }

  /** The longest match is that of a known token, and no shorter than any. */
  lemma BestIsKnown<P>(tokens: seq<(bytes, P)>, data: bytes)
    ensures var best := Best(tokens, data);
      && (best.Some? ==> exists x :: x in tokens && Prefix(x.0, data) && |x.0| == best.value.pathLen)
      && (forall x :: x in tokens && Prefix(x.0, data) ==> best.Some? && best.value.pathLen >= |x.0|)
  {
    BestIsLongest(tokens, data);
    var best := Best(tokens, data);
    if best.Some? {
      var i: nat :| IsLongest(tokens, data, i) && best.value == Hit(|tokens[i].0|, Some(tokens[i].1));
      assert tokens[i] in tokens;
    }
  }

  /** The answer of a list behind another one. */
  function Later<P>(a: Option<Hit<P>>, b: Option<Hit<P>>): Option<Hit<P>> {
    if b.Some? && (a.None? || a.value.pathLen <= b.value.pathLen) then b else a
  }

  lemma {:induction false} BestOfBoth<P>(a: seq<(bytes, P)>, b: seq<(bytes, P)>, data: bytes)
    ensures Best(a + b, data) == Later(Best(a, data), Best(b, data))
  {
    if b == [] {
      assert a + b == a;
    } else {
      var n := |b| - 1;
      BestOfBoth(a, b[..n], data);
      assert (a + b)[..|a + b| - 1] == a + b[..n];
    }
  }

  /** The tokens that have at least `n` bytes, or those that do not. */
  function Pick<P>(tokens: seq<(bytes, P)>, n: nat, long: bool): seq<(bytes, P)> {
    if tokens == [] then []
    else
      var last := tokens[|tokens| - 1];
      var picked := Pick(tokens[..|tokens| - 1], n, long);
      if (|last.0| >= n) == long then picked + [last] else picked
  }

  lemma {:induction false} PickedIs<P>(tokens: seq<(bytes, P)>, n: nat, long: bool)
    ensures forall x :: x in Pick(tokens, n, long) ==> x in tokens && (|x.0| >= n) == long
    ensures forall x :: x in tokens && (|x.0| >= n) == long ==> x in Pick(tokens, n, long)
  {
    if tokens != [] {
      var last := tokens[|tokens| - 1];
      PickedIs(tokens[..|tokens| - 1], n, long);
      assert tokens == tokens[..|tokens| - 1] + [last];
    }
  }

  lemma PickLast<P>(tokens: seq<(bytes, P)>, x: (bytes, P), n: nat, long: bool)
    ensures Pick(tokens + [x], n, long)
      == if (|x.0| >= n) == long then Pick(tokens, n, long) + [x] else Pick(tokens, n, long)
  {
    assert (tokens + [x])[..|tokens|] == tokens;
  }

  lemma {:induction false} BestOfPicks<P>(tokens: seq<(bytes, P)>, n: nat, data: bytes)
    ensures Best(tokens, data) == Later(Best(Pick(tokens, n, false), data), Best(Pick(tokens, n, true), data))
  {
    if tokens != [] {
      hide Best, Pick, Raised, Later;
      var init, last := tokens[..|tokens| - 1], tokens[|tokens| - 1];
      BestOfPicks(init, n, data);
      assert tokens == init + [last];
      BestLast(init, last, data);
      BestLast(Pick(init, n, |last.0| >= n), last, data);
      PickLast(init, last, n, true);
      PickLast(init, last, n, false);
      PickedLengths(init, n, data);
      RaisedLater(Best(Pick(init, n, false), data), Best(Pick(init, n, true), data), n, last, data);
    }
  }

  lemma RaisedLater<P>(short: Option<Hit<P>>, long: Option<Hit<P>>, n: nat, x: (bytes, P), data: bytes)
    requires (short.Some? ==> short.value.pathLen < n) && (long.Some? ==> long.value.pathLen >= n)
    ensures Raised(Later(short, long), x.0, x.1, |x.0|, data)
      == if |x.0| >= n then Later(short, Raised(long, x.0, x.1, |x.0|, data))
         else Later(Raised(short, x.0, x.1, |x.0|, data), long)
  {
    hide Prefix;
  }

  lemma BestLast<P>(tokens: seq<(bytes, P)>, x: (bytes, P), data: bytes)
    ensures Best(tokens + [x], data) == Raised(Best(tokens, data), x.0, x.1, |x.0|, data)
  {
    assert (tokens + [x])[..|tokens|] == tokens;
  }

  lemma PickedLengths<P>(tokens: seq<(bytes, P)>, n: nat, data: bytes)
    ensures var short, long := Best(Pick(tokens, n, false), data), Best(Pick(tokens, n, true), data);
      (short.Some? ==> short.value.pathLen < n) && (long.Some? ==> long.value.pathLen >= n)
  {
    hide Best, Pick;
    var short, long := Pick(tokens, n, false), Pick(tokens, n, true);
    PickedIs(tokens, n, false);
    PickedIs(tokens, n, true);
    BestIsKnown(short, data);
    BestIsKnown(long, data);
    if Best(short, data).Some? { var x :| x in short && |x.0| == Best(short, data).value.pathLen; }
    if Best(long, data).Some? { var x :| x in long && |x.0| == Best(long, data).value.pathLen; }
  }

  // ------------------------------------------------------------------ leaves in order

  function Leaf<P>(token: (bytes, P)): Trie<P> { NewTrie(token.0, Some(token.1)) }

  function Insert<P>(children: seq<Trie<P>>, token: (bytes, P)): seq<Trie<P>> {
    var at := InsertAt(children, |token.0|);
    children[..at] + [Leaf(token)] + children[at..]
  }

  function Leaves<P>(tokens: seq<(bytes, P)>): seq<Trie<P>> {
    if tokens == [] then [] else Insert(Leaves(tokens[..|tokens| - 1]), tokens[|tokens| - 1])
  }

  /** Leaves of the tokens, the longest first. */
  ghost predicate InOrder<P>(children: seq<Trie<P>>, tokens: seq<(bytes, P)>) {
    Descending(children) && forall i :: 0 <= i < |children| ==> IsLeaf(children[i], tokens)
  }

  predicate Descending<P>(children: seq<Trie<P>>) {
    forall i, j :: 0 <= i < j < |children| ==> children[i].longestPath >= children[j].longestPath
  }

  ghost predicate IsLeaf<P>(child: Trie<P>, tokens: seq<(bytes, P)>) { exists x :: x in tokens && child == Leaf(x) }

  lemma {:induction false} LeavesInOrder<P>(tokens: seq<(bytes, P)>)
    ensures InOrder(Leaves(tokens), tokens)
  {
    if tokens != [] {
      var init, last := tokens[..|tokens| - 1], tokens[|tokens| - 1];
      LeavesInOrder(init);
      assert tokens == init + [last];
      InsertInOrder(Leaves(init), init, last);
    }
  }

  lemma InsertInOrder<P>(children: seq<Trie<P>>, tokens: seq<(bytes, P)>, token: (bytes, P))
    requires InOrder(children, tokens)
    ensures InOrder(Insert(children, token), tokens + [token])
  {
    hide IsLeaf, Descending;
    InsertDescending(children, token);
    OwnLeaf(tokens, token);
    var at, inserted := InsertAt(children, |token.0|), Insert(children, token);
    forall i | 0 <= i < |inserted| ensures IsLeaf(inserted[i], tokens + [token]) {
      if i != at { StillLeaf(children[if i < at then i else i - 1], tokens, token); }
    }
  }

  lemma InsertDescending<P>(children: seq<Trie<P>>, token: (bytes, P))
    requires Descending(children)
    ensures Descending(Insert(children, token))
  {
    hide Insert, InsertAt;
    forall i: nat, j: nat | i < j < |Insert(children, token)|
      ensures Insert(children, token)[i].longestPath >= Insert(children, token)[j].longestPath {
      InsertIs(children, token, i);
      InsertIs(children, token, j);
      AtPlace(children, |token.0|, i);
      AtPlace(children, |token.0|, j - 1);
    }
  }

  lemma InsertIs<P>(children: seq<Trie<P>>, token: (bytes, P), i: nat)
    requires i < |Insert(children, token)|
    ensures |Insert(children, token)| == |children| + 1
    ensures var at := InsertAt(children, |token.0|);
      Insert(children, token)[i] == if i < at then children[i] else if i == at then Leaf(token) else children[i - 1]
  {
  }

  /** In front of the place are the longer ones. */
  lemma AtPlace<P>(children: seq<Trie<P>>, length: nat, i: nat)
    requires Descending(children)
    ensures i < |children| ==> (i < InsertAt(children, length) <==> children[i].longestPath > length)
  {
    var at := InsertAt(children, length);
    assert i + 1 < at ==> children[i].longestPath >= children[at - 1].longestPath;
  }

  lemma OwnLeaf<P>(tokens: seq<(bytes, P)>, token: (bytes, P))
    ensures IsLeaf(Leaf(token), tokens + [token])
  {
    assert token in tokens + [token];
  }

  lemma StillLeaf<P>(child: Trie<P>, tokens: seq<(bytes, P)>, token: (bytes, P))
    requires IsLeaf(child, tokens)
    ensures IsLeaf(child, tokens + [token])
  {
    var x :| x in tokens && child == Leaf(x);
    assert x in tokens + [token];
  }

  /** The answer of leaves is that of one of them. */
  lemma {:induction false} LeafAnswer<P>(children: seq<Trie<P>>, tokens: seq<(bytes, P)>, data: bytes) returns (i: nat)
    requires forall i :: 0 <= i < |children| ==> IsLeaf(children[i], tokens)
    requires NonEmpty(tokens) && MatchStartAny(children, data).Some?
    ensures i < |children| && MatchStartAny(children, data).value.pathLen == children[i].longestPath
  {
    if MatchStart(children[0], data).Some? {
      i := 0;
      LeafMatches(children[0], tokens, data);
    } else {
      i := LeafAnswer(children[1..], tokens, data);
      i := i + 1;
    }
  }

  lemma LeafMatches<P>(leaf: Trie<P>, tokens: seq<(bytes, P)>, data: bytes)
    requires NonEmpty(tokens) && IsLeaf(leaf, tokens)
    ensures MatchStart(leaf, data)
      == if Prefix(leaf.suffix, data) then Some(Hit(leaf.longestPath, leaf.payload)) else None
  {
    var x :| x in tokens && leaf == Leaf(x);
    assert x.0 != [];
  }

  /** Leaves answer with the longest match. */
  lemma {:induction false} LeavesAnswer<P>(tokens: seq<(bytes, P)>, data: bytes)
    requires NonEmpty(tokens)
    ensures MatchStartAny(Leaves(tokens), data) == Best(tokens, data)
  {
    if tokens != [] {
      var init, last := tokens[..|tokens| - 1], tokens[|tokens| - 1];
      LeavesAnswer(init, data);
      LeavesInOrder(init);
      InsertAnswers(Leaves(init), init, last, data);
    }
  }

  lemma InsertAnswers<P>(children: seq<Trie<P>>, tokens: seq<(bytes, P)>, token: (bytes, P), data: bytes)
    requires InOrder(children, tokens) && NonEmpty(tokens) && token.0 != []
    ensures MatchStartAny(Insert(children, token), data)
      == Raised(MatchStartAny(children, data), token.0, token.1, |token.0|, data)
  {
    hide MatchStartAny, InOrder, IsLeaf;
    var at := InsertAt(children, |token.0|);
    var front, back := children[..at], children[at..];
    assert children == front + back;
    Associative(front, [Leaf(token)], back);
    AnyAppend(front, back, data);
    AnyAppend(front, [Leaf(token)] + back, data);
    AnyAppend([Leaf(token)], back, data);
    OneChildAnswers(Leaf(token), data);
    OwnLeaf([], token);
    LeafMatches(Leaf(token), [] + [token], data);
    SidesAnswer(children, tokens, |token.0|, data);
  }

  /** In front of the place are the longer leaves. */
  lemma SidesAnswer<P>(children: seq<Trie<P>>, tokens: seq<(bytes, P)>, length: nat, data: bytes)
    requires InOrder(children, tokens) && NonEmpty(tokens)
    ensures var at := InsertAt(children, length);
      var front, back := MatchStartAny(children[..at], data), MatchStartAny(children[at..], data);
      (front.Some? ==> front.value.pathLen > length) && (back.Some? ==> back.value.pathLen <= length)
  {
    hide MatchStartAny, IsLeaf;
    var at := InsertAt(children, length);
    if MatchStartAny(children[..at], data).Some? { var i := LeafAnswer(children[..at], tokens, data); }
    if MatchStartAny(children[at..], data).Some? { var i := LeafAnswer(children[at..], tokens, data); }
  }

  // ------------------------------------------------------- the root and what is below it

  /** Tokens with one first byte, and then one with another. */
  predicate Mixed<P>(tokens: seq<(bytes, P)>, k: nat, b: byte) {
    1 <= k < |tokens| && StartsAllWith(tokens[..k], b) && NonEmpty(tokens) && tokens[k].0[0] != b
  }

  /** The trie of the first tokens, between the later tokens that are longer than its recorded
      longest path and those that are shorter. */
  function RootChildren<P>(stem: Trie<P>, later: seq<(bytes, P)>): seq<Trie<P>> {
    Leaves(Pick(later, stem.longestPath, true)) + [stem] + Leaves(Pick(later, stem.longestPath, false))
  }

  lemma InsertStep<P>(children: seq<Trie<P>>, last: Trie<P>, pathLen: nat)
    ensures InsertAt(children + [last], pathLen)
      == if last.longestPath > pathLen then |children| + 1 else InsertAt(children, pathLen)
  {
    assert (children + [last])[..|children|] == children;
  }

  lemma {:induction false} InsertBehind<P>(a: seq<Trie<P>>, b: seq<Trie<P>>, pathLen: nat)
    requires a != [] && a[|a| - 1].longestPath > pathLen
    ensures InsertAt(a + b, pathLen) == |a| + InsertAt(b, pathLen)
  {
    if b == [] {
      assert a + b == a;
    } else {
      hide InsertAt;
      var init, last := b[..|b| - 1], b[|b| - 1];
      InsertBehind(a, init, pathLen);
      InsertStep(init, last, pathLen);
      InsertStep(a + init, last, pathLen);
      assert b == init + [last];
      Associative(a, init, [last]);
    }
  }

  lemma {:induction false} InsertBefore<P>(a: seq<Trie<P>>, b: seq<Trie<P>>, pathLen: nat)
    requires forall i :: 0 <= i < |b| ==> b[i].longestPath <= pathLen
    ensures InsertAt(a + b, pathLen) == InsertAt(a, pathLen)
  {
    hide InsertAt;
    if b == [] {
      assert a + b == a;
    } else {
      var init, last := b[..|b| - 1], b[|b| - 1];
      InsertBefore(a, init, pathLen);
      InsertStep(a + init, last, pathLen);
      assert b == init + [last];
      Associative(a, init, [last]);
    }
  }

  lemma InsertInRoot<P>(stem: Trie<P>, later: seq<(bytes, P)>, token: (bytes, P))
    ensures Insert(RootChildren(stem, later), token) == RootChildren(stem, later + [token])
  {
    hide Leaves, Pick;
    var n, length := stem.longestPath, |token.0|;
    var long, short := Pick(later, n, true), Pick(later, n, false);
    var a, b := Leaves(long), Leaves(short);
    PickLast(later, token, n, true);
    PickLast(later, token, n, false);
    if length >= n {
      LeavesInOrder(short);
      PickedIs(later, n, false);
      forall i | 0 <= i < |b| ensures b[i].longestPath <= length {
        assert IsLeaf(b[i], short);
        var x :| x in short && b[i] == Leaf(x);
      }
      InsertBefore(a, [stem] + b, length);
      LeavesLast(long, token);
      InsertInFront(a, [stem] + b, token);
      Associative(a, [stem], b);
      Associative(Insert(a, token), [stem], b);
    } else {
      InsertBehind(a + [stem], b, length);
      LeavesLast(short, token);
      InsertInBack(a + [stem], b, token);
    }
  }

  lemma LeavesLast<P>(tokens: seq<(bytes, P)>, token: (bytes, P))
    ensures Leaves(tokens + [token]) == Insert(Leaves(tokens), token)
  {
    assert (tokens + [token])[..|tokens|] == tokens;
  }

  lemma InsertInFront<P>(a: seq<Trie<P>>, b: seq<Trie<P>>, token: (bytes, P))
    requires InsertAt(a + b, |token.0|) == InsertAt(a, |token.0|)
    ensures Insert(a + b, token) == Insert(a, token) + b
  {
    hide InsertAt;
    var at := InsertAt(a, |token.0|);
    assert (a + b)[..at] == a[..at] && (a + b)[at..] == a[at..] + b;
    Associative(a[..at] + [Leaf(token)], a[at..], b);
  }

  lemma InsertInBack<P>(a: seq<Trie<P>>, b: seq<Trie<P>>, token: (bytes, P))
    requires InsertAt(a + b, |token.0|) == |a| + InsertAt(b, |token.0|)
    ensures Insert(a + b, token) == a + Insert(b, token)
  {
    hide InsertAt;
    var at := InsertAt(b, |token.0|);
    assert (a + b)[..|a| + at] == a + b[..at] && (a + b)[|a| + at..] == b[at..];
    Associative(a, b[..at], [Leaf(token)]);
    Associative(a, b[..at] + [Leaf(token)], b[at..]);
  }

  lemma {:induction false} BuildMixed<P>(tokens: seq<(bytes, P)>, k: nat, b: byte)
    requires Mixed(tokens, k, b)
    ensures var trie := Build(tokens);
      trie.suffix == [] && trie.pathLen == 0 && trie.children == RootChildren(Build(tokens[..k]), tokens[k..])
  {
    hide RootChildren, AddPath, WellFormed, Insert;
    var n := |tokens| - 1;
    var stem, init, last := Build(tokens[..k]), tokens[..n], tokens[n];
    BuildLast(tokens, n);
    assert tokens[..n + 1] == tokens;
    if n == k {
      BuildKeepsFirst(tokens[..k], b);
      assert tokens[k..] == [] + [last];
      AddAtRoot(stem, last.0, last.1);
      StemAlone(stem);
      InsertInRoot(stem, [], last);
    } else {
      assert init[..k] == tokens[..k] && tokens[k..] == init[k..] + [last];
      BuildMixed(init, k, b);
      AddBelowRoot(Build(init), last.0, last.1);
      InsertInRoot(stem, init[k..], last);
    }
  }

  lemma AddAtRoot<P>(stem: Trie<P>, token: bytes, payload: P)
    requires stem.suffix != [] && token != [] && token[0] != stem.suffix[0]
    ensures var trie := Add(stem, token, payload);
      trie.suffix == [] && trie.pathLen == 0 && trie.children == Insert([stem], (token, payload))
  {
    SplitIs(token, stem.suffix, 0);
    assert stem.(suffix := stem.suffix[0..]) == stem && token[0..] == token;
  }

  lemma AddBelowRoot<P>(root: Trie<P>, token: bytes, payload: P)
    requires root.suffix == [] && token != []
    ensures var trie := Add(root, token, payload);
      trie.suffix == [] && trie.pathLen == root.pathLen && trie.children == Insert(root.children, (token, payload))
  {
    assert token[0..] == token;
  }

  lemma StemAlone<P>(stem: Trie<P>)
    ensures RootChildren(stem, []) == [stem]
  {
  }

  /** What a trie with such a root answers. */
  function Asked<P>(long: Option<Hit<P>>, stem: Option<Hit<P>>, short: Option<Hit<P>>): Option<Hit<P>> {
    if long.Some? then long else if stem.Some? then stem else short
  }

  lemma PickedNonEmpty<P>(tokens: seq<(bytes, P)>, n: nat, long: bool)
    requires NonEmpty(tokens)
    ensures NonEmpty(Pick(tokens, n, long))
  {
    PickedIs(tokens, n, long);
    var picked := Pick(tokens, n, long);
    forall i | 0 <= i < |picked| ensures picked[i].0 != [] { assert picked[i] in picked; }
  }

  lemma MixedAnswer<P>(tokens: seq<(bytes, P)>, k: nat, b: byte, data: bytes)
    requires Mixed(tokens, k, b)
    ensures var stem, later := Build(tokens[..k]), tokens[k..];
      var n := stem.longestPath;
      && MatchStart(Build(tokens), data)
        == Asked(Best(Pick(later, n, true), data), MatchStart(stem, data), Best(Pick(later, n, false), data))
      && Best(tokens, data) == Later(Best(tokens[..k], data),
           Later(Best(Pick(later, n, false), data), Best(Pick(later, n, true), data)))
  {
    hide Build, Leaves, Best, Pick, MatchStartAny;
    var stem, later := Build(tokens[..k]), tokens[k..];
    var long, short := Pick(later, stem.longestPath, true), Pick(later, stem.longestPath, false);
    BuildMixed(tokens, k, b);
    PickedNonEmpty(later, stem.longestPath, true);
    PickedNonEmpty(later, stem.longestPath, false);
    LeavesAnswer(long, data);
    LeavesAnswer(short, data);
    AnyAppend(Leaves(long) + [stem], Leaves(short), data);
    AnyAppend(Leaves(long), [stem], data);
    OneChildAnswers(stem, data);
    assert data[0..] == data;
    assert tokens == tokens[..k] + later;
    BestOfBoth(tokens[..k], later, data);
    BestOfPicks(later, stem.longestPath, data);
  }

  // ------------------------------------------------------------ which lists are answered

  /** A later token fits to the first ones: when it is asked before them it is not in front of one of
      them, when it is asked behind them none of them is in front of it. */
  predicate Fits<P>(first: seq<(bytes, P)>, n: nat, token: bytes) {
    forall i :: 0 <= i < |first| ==>
      if |token| >= n then !Prefix(token, first[i].0) else !Prefix(first[i].0, token)
  }

  /** No later token is one of the first ones again. */
  predicate NoneAgain<P>(tokens: seq<(bytes, P)>, k: nat) {
    forall i, j :: 0 <= i < k <= j < |tokens| ==> tokens[i].0 != tokens[j].0
  }

  lemma SamePrefix(a: bytes, b: bytes, data: bytes)
    requires Prefix(a, data) && Prefix(b, data) && |a| == |b|
    ensures a == b
  {
  }

  /** If the first tokens are answered and all later ones fit, the whole list is answered. */
  lemma FittingAnswers<P(!new)>(tokens: seq<(bytes, P)>, k: nat, b: byte, data: bytes)
    requires Mixed(tokens, k, b) && NoneAgain(tokens, k)
    requires MatchStart(Build(tokens[..k]), data) == Best(tokens[..k], data)
    requires forall j :: k <= j < |tokens| ==> Fits(tokens[..k], Build(tokens[..k]).longestPath, tokens[j].0)
    ensures MatchStart(Build(tokens), data) == Best(tokens, data)
  {
    hide Build, Best, Pick, MatchStart;
    var first, later := tokens[..k], tokens[k..];
    var n := Build(first).longestPath;
    MixedAnswer(tokens, k, b, data);
    PickedLengths(later, n, data);
    if Best(first, data).Some? {
      BestIsKnown(first, data);
      var i: nat :| i < k && Prefix(first[i].0, data) && |first[i].0| == Best(first, data).value.pathLen;
      if Best(Pick(later, n, true), data).Some? {
        var j := PickedAnswer(tokens, k, n, true, data);
        FittingLengths(tokens, k, n, i, j, data);
      }
      if Best(Pick(later, n, false), data).Some? {
        var j := PickedAnswer(tokens, k, n, false, data);
        FittingLengths(tokens, k, n, i, j, data);
      }
    }
  }

  /** The later token that answers. */
  lemma PickedAnswer<P>(tokens: seq<(bytes, P)>, k: nat, n: nat, long: bool, data: bytes) returns (j: nat)
    requires k <= |tokens| && Best(Pick(tokens[k..], n, long), data).Some?
    ensures k <= j < |tokens| && Prefix(tokens[j].0, data) && (|tokens[j].0| >= n) == long
    ensures |tokens[j].0| == Best(Pick(tokens[k..], n, long), data).value.pathLen
  {
    hide Best, Pick;
    var picked := Pick(tokens[k..], n, long);
    BestIsKnown(picked, data);
    PickedIs(tokens[k..], n, long);
    var x :| x in picked && Prefix(x.0, data) && |x.0| == Best(picked, data).value.pathLen;
    assert x in tokens[k..];
    var m: nat :| m < |tokens| - k && tokens[k..][m] == x;
    j := k + m;
  }

  lemma FittingLengths<P>(tokens: seq<(bytes, P)>, k: nat, n: nat, i: nat, j: nat, data: bytes)
    requires i < k <= j < |tokens| && NoneAgain(tokens, k) && Fits(tokens[..k], n, tokens[j].0)
    requires Prefix(tokens[i].0, data) && Prefix(tokens[j].0, data)
    ensures if |tokens[j].0| >= n then |tokens[i].0| < |tokens[j].0| else |tokens[j].0| < |tokens[i].0|
  {
    var s, t := tokens[i].0, tokens[j].0;
    assert tokens[..k][i] == tokens[i];
    if |t| == |s| { SamePrefix(t, s, data); }
    if |t| < |s| { PrefixOfLonger(t, s, data); } else { PrefixOfLonger(s, t, data); }
  }

  /** A token that does not fit makes an input that is answered wrongly. */
  lemma MisfitIsWrong<P(!new)>(tokens: seq<(bytes, P)>, k: nat, b: byte, j: nat)
    requires Mixed(tokens, k, b) && NoneAgain(tokens, k) && k <= j < |tokens|
    requires Answers(Build(tokens[..k]), tokens[..k])
    requires !Fits(tokens[..k], Build(tokens[..k]).longestPath, tokens[j].0)
    ensures !Answers(Build(tokens), tokens)
  {
    hide Build, Best, Pick, MatchStart;
    var first, later, token := tokens[..k], tokens[k..], tokens[j].0;
    var n := Build(first).longestPath;
    assert later[j - k] == tokens[j] && tokens[j] in later;
    var i :| 0 <= i < k && if |token| >= n then Prefix(token, first[i].0) else Prefix(first[i].0, token);
    assert tokens[i] == first[i] && tokens[i].0 != tokens[j].0;
    var data := if |token| >= n then first[i].0 else token;
    assert Prefix(data, data);
    MixedAnswer(tokens, k, b, data);
    assert IsLongestMatch(first, data, MatchStart(Build(first), data));
    BestIs(first, data, MatchStart(Build(first), data));
    BestIsKnown(first, data);
    BestIsKnown(Pick(later, n, true), data);
    BestIsKnown(Pick(later, n, false), data);
    PickedIs(later, n, true);
    PickedIs(later, n, false);
    assert first[i] in first;
    NoOther(tokens, k, i, j, data);
    BestIs(tokens, data, MatchStart(Build(tokens), data));
  }

  /** The token in question is the only one with all of `data`, on its side. */
  lemma NoOther<P>(tokens: seq<(bytes, P)>, k: nat, i: nat, j: nat, data: bytes)
    requires i < k <= j < |tokens| && NoneAgain(tokens, k)
    ensures data == tokens[i].0 ==> forall x :: x in tokens[k..] && Prefix(x.0, data) ==> |x.0| < |data|
    ensures data == tokens[j].0 ==> forall x :: x in tokens[..k] && Prefix(x.0, data) ==> |x.0| < |data|
  {
    if data == tokens[i].0 {
      forall x | x in tokens[k..] && Prefix(x.0, data) ensures |x.0| < |data| {
        var m :| 0 <= m < |tokens| - k && tokens[k..][m] == x;
        assert tokens[k + m] == x;
      }
    }
    if data == tokens[j].0 {
      forall x | x in tokens[..k] && Prefix(x.0, data) ensures |x.0| < |data| {
        var m :| 0 <= m < k && tokens[..k][m] == x;
        assert tokens[m] == x;
      }
    }
  }

  /** A token that is lost among the first ones stays lost. */
  lemma LostStaysLost<P(!new)>(tokens: seq<(bytes, P)>, k: nat, b: byte)
    requires Mixed(tokens, k, b) && NoneAgain(tokens, k) && !NoneOnBranch(tokens[..k])
    ensures !Answers(Build(tokens), tokens)
  {
    hide Build, Best, Pick, MatchStart, EndsOnBranch, Stores, WellFormed;
    var first, later := tokens[..k], tokens[k..];
    var n := Build(first).longestPath;
    var m :| 1 <= m < k && EndsOnBranch(Build(first[..m]), first[m].0);
    var token := first[m].0;
    LostForever(first, b, m, k);
    assert first[..k] == first;
    BuildKeepsFirst(first, b);
    BuildStores(first);
    StoresDeep(Build(first), [], first);
    BranchIsShort(Build(first), 0, token);
    assert Prefix(token, token) && tokens[m] == first[m];
    MixedAnswer(tokens, k, b, token);
    BestIsKnown(tokens, token);
    BestIsKnown(Pick(later, n, true), token);
    BestIsKnown(Pick(later, n, false), token);
    PickedIs(later, n, true);
    PickedIs(later, n, false);
    NoOther(tokens, k, m, k, token);
    BestIs(tokens, token, MatchStart(Build(tokens), token));
  }

  // -------------------------------------------------------- the recorded longest path

  /** The longest common prefix of all tokens. */
  function Common<P>(tokens: seq<(bytes, P)>): bytes
    requires tokens != []
  {
    var n := |tokens| - 1;
    if n == 0 then tokens[0].0
    else
      var common := Common(tokens[..n]);
      common[..Split(tokens[n].0, common)]
  }

  /** Behind the common prefix the token goes on like one of the tokens. */
  predicate GoesOn<P>(tokens: seq<(bytes, P)>, token: bytes)
    requires tokens != []
  {
    var common := Common(tokens);
    && Prefix(common, token) && |common| < |token|
    && exists i :: 0 <= i < |tokens| && |common| < |tokens[i].0| && tokens[i].0[|common|] == token[|common|]
  }

  /** The longest path that the root records: tokens that go on like an earlier one are not counted. */
  function Recorded<P>(tokens: seq<(bytes, P)>): nat
    requires tokens != []
  {
    var n := |tokens| - 1;
    if n == 0 then |tokens[0].0|
    else
      var recorded := Recorded(tokens[..n]);
      if GoesOn(tokens[..n], tokens[n].0) || |tokens[n].0| < recorded then recorded else |tokens[n].0|
  }

  lemma {:induction false} CommonIs<P>(tokens: seq<(bytes, P)>, b: byte)
    requires tokens != [] && StartsAllWith(tokens, b)
    ensures Build(tokens).suffix == Common(tokens)
  {
    var n := |tokens| - 1;
    if n > 0 {
      CommonIs(tokens[..n], b);
      BuildKeepsFirst(tokens[..n], b);
      SuffixIs(Build(tokens[..n]), tokens[n].0, tokens[n].1, |tokens[n].0|);
    }
  }

  /** What adding a path does to the suffix and the recorded longest path of a node. */
  lemma SuffixIs<P>(node: Trie<P>, data: bytes, payload: P, pathLen: nat)
    requires node.suffix != []
    ensures AddPath(node, data, payload, pathLen).suffix == node.suffix[..Split(data, node.suffix)]
    ensures pathLen >= |data| && node.longestPath >= |node.suffix| ==>
      var descends := Prefix(node.suffix, data) && |node.suffix| < |data|
        && ChildWith(node.children, data[|node.suffix|]) < |node.children|;
      AddPath(node, data, payload, pathLen).longestPath
        == if descends || pathLen < node.longestPath then node.longestPath
          else if Prefix(data, node.suffix) then node.longestPath
          else pathLen
  {
    SplitIsAll(data, node.suffix);
    SplitIsAll(node.suffix, data);
  }

  /** The root has a child for a byte exactly if some token goes on with it. */
  lemma ChildIffGoesOn<P(!new)>(tokens: seq<(bytes, P)>, b: byte, token: bytes)
    requires tokens != [] && StartsAllWith(tokens, b) && Answers(Build(tokens), tokens)
    requires Prefix(Common(tokens), token) && |Common(tokens)| < |token|
    ensures ChildWith(Build(tokens).children, token[|Common(tokens)|]) < |Build(tokens).children|
      <==> GoesOn(tokens, token)
  {
    hide Build, Answers, Branchy, Common;
    var trie, n := Build(tokens), |Common(tokens)|;
    CommonIs(tokens, b);
    BuildStores(tokens);
    BuildBranchy(tokens);
    var c := ChildWith(trie.children, token[n]);
    if c < |trie.children| {
      var i := SomeTokenBelow(trie, c, tokens);
      assert |Common(tokens)| < |tokens[i].0| && tokens[i].0[n] == token[n];
    }
    if i: nat :| i < |tokens| && n < |tokens[i].0| && tokens[i].0[n] == token[n] { KnownEnds(tokens, b, i); }
  }

  lemma SomeTokenBelow<P>(trie: Trie<P>, c: nat, tokens: seq<(bytes, P)>) returns (i: nat)
    requires Branchy(trie) && Stores(trie, [], tokens) && c < |trie.children| && trie.children[c].suffix != []
    ensures i < |tokens| && |trie.suffix| < |tokens[i].0| && tokens[i].0[|trie.suffix|] == trie.children[c].suffix[0]
  {
    assert [] + trie.suffix == trie.suffix;
    i := SomeToken(trie.children[c], trie.suffix, tokens);
    PrefixOfSum(trie.suffix, trie.children[c].suffix, tokens[i].0);
  }

  lemma {:induction false} RecordedIs<P(!new)>(tokens: seq<(bytes, P)>, b: byte)
    requires tokens != [] && StartsAllWith(tokens, b) && ForkFree(tokens)
    ensures Build(tokens).longestPath == Recorded(tokens) >= |Build(tokens).suffix|
  {
    hide Answers, Common, Forks, AddPath, GoesOn;
    var n := |tokens| - 1;
    if n > 0 {
      var init, token := tokens[..n], tokens[n].0;
      assert forall k :: 1 <= k < n ==> init[..k] == tokens[..k];
      RecordedIs(init, b);
      ForkFreeAnswers(init, b);
      CommonIs(init, b);
      BuildKeepsFirst(init, b);
      SuffixIs(Build(init), token, tokens[n].1, |token|);
      if Prefix(Common(init), token) && |Common(init)| < |token| {
        ChildIffGoesOn(init, b, token);
      } else {
        NotOn(init, token);
      }
    }
  }

  lemma NotOn<P>(tokens: seq<(bytes, P)>, token: bytes)
    requires tokens != [] && !(Prefix(Common(tokens), token) && |Common(tokens)| < |token|)
    ensures !GoesOn(tokens, token)
  {
  }

  /** For tokens with different first bytes, in any order: the trie finds the longest match for all inputs
      exactly if the tokens in front of the first one with another first byte are fork-free, and every
      token from there on fits to them. */
  lemma LongestIffFits<P(!new)>(tokens: seq<(bytes, P)>, k: nat, b: byte)
    requires Mixed(tokens, k, b) && NoDuplicates(tokens[..k]) && NoneAgain(tokens, k)
    ensures Answers(Build(tokens), tokens) <==>
      && ForkFree(tokens[..k])
      && forall j :: k <= j < |tokens| ==> Fits(tokens[..k], Recorded(tokens[..k]), tokens[j].0)
  {
    hide NoneOnBranch, ForkFree, Build, Recorded, MatchStart, Best;
    var first := tokens[..k];
    NoneOnBranchIffForkFree(first, b);
    if !ForkFree(first) {
      LostStaysLost(tokens, k, b);
    } else {
      LongestIffForkFree(first, b);
      RecordedIs(first, b);
      if j :| k <= j < |tokens| && !Fits(first, Recorded(first), tokens[j].0) {
        MisfitIsWrong(tokens, k, b, j);
      } else {
        forall data ensures IsLongestMatch(tokens, data, MatchStart(Build(tokens), data)) {
          BestIs(first, data, MatchStart(Build(first), data));
          FittingAnswers(tokens, k, b, data);
          BestIs(tokens, data, MatchStart(Build(tokens), data));
        }
      }
    }
  }
}
