/**
 For tokens with a common first byte: which lists of tokens the trie of shared/trie.go answers with
 the longest match, in terms of the tokens alone.
 */
module TrieLists {
  import opened Utilities
  import opened Trie
  import opened TrieOrder

  /** The path length of the node at which `w` ends, if one does. */
  function EndsAt<P>(node: Trie<P>, w: bytes): Option<nat>
    decreases node
  {
    var n := |node.suffix|;
    if !Prefix(node.suffix, w) then None
    else if n == |w| then Some(node.pathLen)
    else
      var i := ChildWith(node.children, w[n]);
      if i < |node.children| then EndsAt(node.children[i], w[n..]) else None
  }

  lemma SplitIsAll(w: bytes, suffix: bytes)
    ensures Split(w, suffix) == |suffix| <==> Prefix(suffix, w)
  {
    if Prefix(suffix, w) {
      assert forall i :: 0 <= i < |suffix| ==> w[i] == w[..|suffix|][i];
      SplitIs(w, suffix, |suffix|);
    }
  }

  lemma {:induction false} BranchIsEnd<P>(node: Trie<P>, w: bytes)
    requires WellFormed(node) && node.suffix != []
    ensures EndsOnBranch(node, w) <==> EndsAt(node, w) == Some(0)
    decreases node
  {
    var n := |node.suffix|;
    SplitIsAll(w, node.suffix);
    if Prefix(node.suffix, w) && n < |w| {
      var i := ChildWith(node.children, w[n]);
      if i < |node.children| { BranchIsEnd(node.children[i], w[n..]); }
    }
  }

  /** Where a token is its own longest match, a node with a token ends. */
  lemma {:induction false} AnswerEnds<P>(node: Trie<P>, depth: nat, w: bytes)
    requires WellFormed(node) && Deep(node, depth) && node.suffix != []
    requires MatchStart(node, w).Some? && MatchStart(node, w).value.pathLen == depth + |w|
    ensures EndsAt(node, w) == Some(depth + |w|)
    decreases node
  {
    var n, rest := |node.suffix|, w[|node.suffix|..];
    if n == |w| {
      NoChild(node.children, rest);
    } else {
      var i := ChildWith(node.children, w[n]);
      if i < |node.children| {
        OnlyChild(node.children, i, rest);
        if MatchStart(node.children[i], rest).Some? { AnswerEnds(node.children[i], depth + n, rest); }
      } else {
        NoChild(node.children, rest);
      }
    }
  }

  /** A node with a token holds a known one. */
  lemma {:induction false} EndIsToken<P>(node: Trie<P>, path: bytes, tokens: seq<(bytes, P)>, w: bytes) returns (k: nat)
    requires Stores(node, path, tokens) && EndsAt(node, w).Some? && EndsAt(node, w).value > 0
    ensures k < |tokens| && tokens[k].0 == path + w
    decreases node
  {
    var n := |node.suffix|;
    assert w == node.suffix + w[n..];
    if n == |w| {
      k :| 0 <= k < |tokens| && tokens[k] == (path + node.suffix, node.payload.value);
    } else {
      k := EndIsToken(node.children[ChildWith(node.children, w[n])], path + node.suffix, tokens, w[n..]);
      assert path + node.suffix + w[n..] == path + w;
    }
  }

  // ---------------------------------------------------------------- where tokens part

  /** `w` is the longest common prefix of `a` and `b`, and shorter than both. */
  predicate Parts(a: bytes, b: bytes, w: bytes) {
    Prefix(w, a) && Prefix(w, b) && |w| < |a| && |w| < |b| && a[|w|] != b[|w|]
  }

  lemma PartsBehind(a: bytes, b: bytes, w: bytes, head: bytes)
    requires Parts(a, b, w) && Prefix(head, a) && Prefix(head, b)
    ensures Prefix(head, w)
    ensures var n := |head|; Parts(a[n..], b[n..], w[n..])
  {
    var n := |head|;
    assert forall k :: 0 <= k < n ==> a[k] == a[..n][k] == b[..n][k] == b[k];
    assert w[..n] == a[..|w|][..n] == a[..n];
    assert a[n..][..|w| - n] == a[..|w|][n..] && b[n..][..|w| - n] == b[..|w|][n..];
  }

  /** Two words that end in the trie part at a node. */
  lemma {:induction false} PartsAtNode<P>(node: Trie<P>, a: bytes, b: bytes, w: bytes)
    requires EndsAt(node, a).Some? && EndsAt(node, b).Some? && Parts(a, b, w)
    ensures EndsAt(node, w).Some?
    decreases node
  {
    var n := |node.suffix|;
    PartsBehind(a, b, w, node.suffix);
    if n < |w| {
      assert a[n] == a[..|w|][n] == b[..|w|][n] == b[n] == w[n];
      PartsAtNode(node.children[ChildWith(node.children, w[n])], a[n..], b[n..], w[n..]);
    }
  }

  /** Nodes without a token have at least two children. */
  predicate Branchy<P>(node: Trie<P>) {
    (node.pathLen == 0 ==> |node.children| >= 2)
    && forall i :: 0 <= i < |node.children| ==> Branchy(node.children[i])
  }

  lemma NewChildBranchy<P>(node: Trie<P>, data: bytes, payload: P, pathLen: nat)
    requires pathLen > 0 && forall i :: 0 <= i < |node.children| ==> Branchy(node.children[i])
    requires node.pathLen == 0 ==> |node.children| >= 1
    ensures Branchy(AddNewChild(node, data, payload, pathLen))
  {
    var leaf, at := Node(data, [], pathLen, pathLen, Some(payload)), InsertAt(node.children, pathLen);
    var children := AddNewChild(node, data, payload, pathLen).children;
    forall i | 0 <= i < |children| ensures Branchy(children[i]) {
      assert children[i] == if i < at then node.children[i] else if i == at then leaf else node.children[i - 1];
    }
  }

  lemma {:induction false} AddPathBranchy<P>(node: Trie<P>, data: bytes, payload: P, pathLen: nat)
    requires Branchy(node) && pathLen > 0
    ensures Branchy(AddPath(node, data, payload, pathLen))
    decreases node
  {
    var n := Split(data, node.suffix);
    if n == |node.suffix| {
      if n < |data| {
        var i := if |node.suffix| > 0 then ChildWith(node.children, data[n]) else |node.children|;
        if i < |node.children| {
          AddPathBranchy(node.children[i], data[n..], payload, pathLen);
        } else {
          NewChildBranchy(node, data[n..], payload, pathLen);
        }
      }
    } else {
      var lower := node.(suffix := node.suffix[n..]);
      assert Branchy(lower);
      if n < |data| {
        NewChildBranchy(Node(data[..n], [lower], node.longestPath, 0, None), data[n..], payload, pathLen);
      }
    }
  }

  lemma {:induction false} BuildBranchy<P>(tokens: seq<(bytes, P)>)
    requires tokens != [] && NonEmpty(tokens)
    ensures Branchy(Build(tokens))
  {
    var n := |tokens| - 1;
    if n > 0 {
      BuildBranchy(tokens[..n]);
      AddPathBranchy(Build(tokens[..n]), tokens[n].0, tokens[n].1, |tokens[n].0|);
    }
  }

  /** Below every node there is a token. */
  lemma {:induction false} SomeToken<P>(node: Trie<P>, path: bytes, tokens: seq<(bytes, P)>) returns (k: nat)
    requires Branchy(node) && Stores(node, path, tokens)
    ensures k < |tokens| && Prefix(path + node.suffix, tokens[k].0)
    decreases node
  {
    var here := path + node.suffix;
    if node.pathLen > 0 {
      k :| 0 <= k < |tokens| && tokens[k] == (here, node.payload.value);
    } else {
      k := SomeToken(node.children[0], here, tokens);
      PrefixOfSum(here, node.children[0].suffix, tokens[k].0);
    }
  }

  lemma PrefixOfSum(a: bytes, b: bytes, c: bytes)
    requires Prefix(a + b, c)
    ensures Prefix(a, c) && (b != [] ==> |a| < |c| && c[|a|] == b[0])
  {
    assert c[..|a|] == c[..|a + b|][..|a|] == a;
    if b != [] { assert c[|a|] == c[..|a + b|][|a|] == b[0]; }
  }

  /** At a branch node two tokens part. */
  lemma {:induction false} TokensPart<P>(node: Trie<P>, path: bytes, tokens: seq<(bytes, P)>, w: bytes)
    returns (i: nat, j: nat)
    requires WellFormed(node) && node.suffix != [] && Branchy(node) && Stores(node, path, tokens)
    requires EndsAt(node, w) == Some(0)
    ensures i < |tokens| && j < |tokens| && Parts(tokens[i].0, tokens[j].0, path + w)
    decreases node
  {
    var n := |node.suffix|;
    var here := path + node.suffix;
    assert w == node.suffix + w[n..];
    if n == |w| {
      var a, b := node.children[0], node.children[1];
      i := SomeToken(a, here, tokens);
      j := SomeToken(b, here, tokens);
      PrefixOfSum(here, a.suffix, tokens[i].0);
      PrefixOfSum(here, b.suffix, tokens[j].0);
      assert here == path + w;
    } else {
      i, j := TokensPart(node.children[ChildWith(node.children, w[n])], here, tokens, w[n..]);
      assert here + w[n..] == path + w;
    }
  }

  // -------------------------------------------------------------- on the list of tokens

  predicate Known<P>(tokens: seq<(bytes, P)>, token: bytes) { exists k :: 0 <= k < |tokens| && tokens[k].0 == token }

  /** The token is where two longer tokens of the list part, and not in the list itself. */
  predicate Forks<P>(tokens: seq<(bytes, P)>, token: bytes) {
    && (exists i, j :: 0 <= i < |tokens| && 0 <= j < |tokens| && Parts(tokens[i].0, tokens[j].0, token))
    && !Known(tokens, token)
  }

  predicate ForkFree<P>(tokens: seq<(bytes, P)>) {
    forall k :: 1 <= k < |tokens| ==> !Forks(tokens[..k], tokens[k].0)
  }

  lemma KnownEnds<P(!new)>(tokens: seq<(bytes, P)>, b: byte, k: nat)
    requires tokens != [] && StartsAllWith(tokens, b) && Answers(Build(tokens), tokens) && k < |tokens|
    ensures EndsAt(Build(tokens), tokens[k].0) == Some(|tokens[k].0|)
  {
    hide Build, Answers, EndsAt, MatchStart;
    var trie, token := Build(tokens), tokens[k].0;
    BuildKeepsFirst(tokens, b);
    BuildStores(tokens);
    StoresDeep(trie, [], tokens);
    OwnAnswer(trie, tokens, k);
    AnswerEnds(trie, 0, token);
  }

  lemma OwnAnswer<P(!new)>(trie: Trie<P>, tokens: seq<(bytes, P)>, k: nat)
    requires Answers(trie, tokens) && k < |tokens|
    ensures MatchStart(trie, tokens[k].0).Some? && MatchStart(trie, tokens[k].0).value.pathLen == |tokens[k].0|
  {
    var token := tokens[k].0;
    assert Prefix(token, token);
    assert IsLongestMatch(tokens, token, MatchStart(trie, token));
  }

  /** Among tokens that are all answered, the next one ends on a branch exactly if it forks the list. */
  lemma BranchIffForks<P(!new)>(tokens: seq<(bytes, P)>, b: byte, token: bytes)
    requires tokens != [] && StartsAllWith(tokens, b) && Answers(Build(tokens), tokens)
    ensures EndsOnBranch(Build(tokens), token) <==> Forks(tokens, token)
  {
    hide Build, Answers, EndsOnBranch, EndsAt, Branchy, WellFormed, Stores;
    var trie := Build(tokens);
    BuildKeepsFirst(tokens, b);
    BuildStores(tokens);
    BuildBranchy(tokens);
    BranchIsEnd(trie, token);
    assert [] + token == token;
    if EndsOnBranch(trie, token) {
      var i, j := TokensPart(trie, [], tokens, token);
      if k: nat :| k < |tokens| && tokens[k].0 == token { KnownEnds(tokens, b, k); }
    } else if i: nat, j: nat :| i < |tokens| && j < |tokens| && Parts(tokens[i].0, tokens[j].0, token) {
      KnownEnds(tokens, b, i);
      KnownEnds(tokens, b, j);
      PartsAtNode(trie, tokens[i].0, tokens[j].0, token);
      var k := EndIsToken(trie, [], tokens, token);
      assert Known(tokens, token);
    }
  }

  lemma {:induction false} NoneOnBranchIffForkFree<P(!new)>(tokens: seq<(bytes, P)>, b: byte)
    requires tokens != [] && StartsAllWith(tokens, b) && NoDuplicates(tokens)
    ensures NoneOnBranch(tokens) <==> ForkFree(tokens)
  {
    hide Build, Answers, EndsOnBranch, Forks;
    var n := |tokens| - 1;
    if n > 0 {
      var init := tokens[..n];
      NoneOnBranchIffForkFree(init, b);
      assert forall k :: 1 <= k < n ==> init[..k] == tokens[..k];
      if NoneOnBranch(init) {
        NoneLost(init, b);
        BranchIffForks(init, b, tokens[n].0);
      }
    }
  }

  /** For tokens with a common first byte, added in any order: the trie finds the longest match for all
      inputs exactly if no token is, when it is added, the place where two earlier tokens part, unless it
      was added before. */
  lemma LongestIffForkFree<P(!new)>(tokens: seq<(bytes, P)>, b: byte)
    requires tokens != [] && StartsAllWith(tokens, b) && NoDuplicates(tokens)
    ensures Answers(Build(tokens), tokens) <==> ForkFree(tokens)
  {
    hide NoneOnBranch, ForkFree, Answers;
    LongestIffNoneOnBranch(tokens, b);
    NoneOnBranchIffForkFree(tokens, b);
  }
}
