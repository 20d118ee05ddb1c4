/**
 For tokens with a common first byte, added in any order: which of them the trie of shared/trie.go
 finds, and that its answers are the longest matches among these.
 */
module TrieFound {
  import opened Utilities
  import opened Trie
  import opened TrieOrder
  import opened TrieLists

  /** The same tries but for the payloads of nodes without a token. */
  predicate Alike<P(==)>(a: Trie<P>, b: Trie<P>)
    decreases a
  {
    && a.suffix == b.suffix && a.longestPath == b.longestPath && a.pathLen == b.pathLen
    && (a.pathLen > 0 ==> a.payload == b.payload)
    && |a.children| == |b.children|
    && forall i :: 0 <= i < |a.children| ==> Alike(a.children[i], b.children[i])
  }

  predicate AllAlike<P(==)>(a: seq<Trie<P>>, b: seq<Trie<P>>) {
    |a| == |b| && forall i :: 0 <= i < |a| ==> Alike(a[i], b[i])
  }

  lemma {:induction false} AlikeSelf<P>(a: Trie<P>)
    ensures Alike(a, a)
    decreases a
  {
    forall i | 0 <= i < |a.children| ensures Alike(a.children[i], a.children[i]) { AlikeSelf(a.children[i]); }
  }

  lemma {:induction false} AlikeTrans<P>(a: Trie<P>, b: Trie<P>, c: Trie<P>)
    requires Alike(a, b) && Alike(b, c)
    ensures Alike(a, c)
    decreases a
  {
    forall i | 0 <= i < |a.children| ensures Alike(a.children[i], c.children[i]) {
      AlikeTrans(a.children[i], b.children[i], c.children[i]);
    }
  }

  /** They answer alike. */
  lemma {:induction false} AlikeAnswers<P>(a: Trie<P>, b: Trie<P>, data: bytes)
    requires Alike(a, b)
    ensures MatchStart(a, data) == MatchStart(b, data)
    decreases a, 1
  {
    hide MatchStart, MatchStartAny;
    MatchStartCases(a, data);
    MatchStartCases(b, data);
    if Prefix(a.suffix, data) { AllAlikeAnswer(a.children, b.children, data[|a.suffix|..]); }
  }

  lemma {:induction false} AllAlikeAnswer<P>(a: seq<Trie<P>>, b: seq<Trie<P>>, data: bytes)
    requires AllAlike(a, b)
    ensures MatchStartAny(a, data) == MatchStartAny(b, data)
    decreases a, 0
  {
    hide MatchStart, MatchStartAny;
    MatchStartAnyCases(a, data);
    MatchStartAnyCases(b, data);
    if a != [] {
      AlikeAnswers(a[0], b[0], data);
      AllAlikeAnswer(a[1..], b[1..], data);
    }
  }

  lemma {:induction false} SameChild<P>(a: seq<Trie<P>>, b: seq<Trie<P>>, first: byte)
    requires AllAlike(a, b)
    ensures ChildWith(a, first) == ChildWith(b, first)
  {
    if a != [] { SameChild(a[1..], b[1..], first); }
  }

  lemma {:induction false} SamePlace<P>(a: seq<Trie<P>>, b: seq<Trie<P>>, pathLen: nat)
    requires AllAlike(a, b)
    ensures InsertAt(a, pathLen) == InsertAt(b, pathLen)
  {
    if a != [] { SamePlace(a[..|a| - 1], b[..|b| - 1], pathLen); }
  }

  lemma {:induction false} AlikeBranch<P>(a: Trie<P>, b: Trie<P>, token: bytes)
    requires Alike(a, b)
    ensures EndsOnBranch(a, token) <==> EndsOnBranch(b, token)
    decreases a
  {
    var n := Split(token, a.suffix);
    if n == |a.suffix| && n < |token| && n > 0 {
      SameChild(a.children, b.children, token[n]);
      var i := ChildWith(a.children, token[n]);
      if i < |a.children| { AlikeBranch(a.children[i], b.children[i], token[n..]); }
    }
  }

  lemma NewChildIs<P>(node: Trie<P>, data: bytes, payload: P, pathLen: nat, i: nat)
    requires i <= |node.children|
    ensures var at, leaf := InsertAt(node.children, pathLen), Node(data, [], pathLen, pathLen, Some(payload));
      AddNewChild(node, data, payload, pathLen).children[i]
        == if i < at then node.children[i] else if i == at then leaf else node.children[i - 1]
  {
  }

  lemma NewChildAlike<P>(a: Trie<P>, b: Trie<P>, data: bytes, payload: P, pathLen: nat)
    requires Alike(a, b)
    ensures Alike(AddNewChild(a, data, payload, pathLen), AddNewChild(b, data, payload, pathLen))
  {
    SamePlace(a.children, b.children, pathLen);
    AlikeSelf(Node(data, [], pathLen, pathLen, Some(payload)));
    var a', b' := AddNewChild(a, data, payload, pathLen), AddNewChild(b, data, payload, pathLen);
    forall i: nat | i < |a'.children| ensures Alike(a'.children[i], b'.children[i]) {
      hide Alike;
      NewChildIs(a, data, payload, pathLen, i);
      NewChildIs(b, data, payload, pathLen, i);
    }
  }

  /** Adding a token keeps them alike. */
  lemma {:induction false} AddAlike<P>(a: Trie<P>, b: Trie<P>, data: bytes, payload: P, pathLen: nat)
    requires Alike(a, b)
    ensures Alike(AddPath(a, data, payload, pathLen), AddPath(b, data, payload, pathLen))
    decreases a
  {
    var n := Split(data, a.suffix);
    if n == |a.suffix| {
      if n < |data| {
        SameChild(a.children, b.children, data[n]);
        var i := if n > 0 then ChildWith(a.children, data[n]) else |a.children|;
        if i < |a.children| {
          AddAlike(a.children[i], b.children[i], data[n..], payload, pathLen);
        } else {
          NewChildAlike(a, b, data[n..], payload, pathLen);
        }
      }
    } else {
      var low, low' := a.(suffix := a.suffix[n..]), b.(suffix := b.suffix[n..]);
      assert Alike(low, low');
      if n < |data| {
        var up, up' := Node(data[..n], [low], a.longestPath, 0, None), Node(data[..n], [low'], b.longestPath, 0, None);
        assert Alike(up, up') by { assert up.children[0] == low && up'.children[0] == low'; }
        NewChildAlike(up, up', data[n..], payload, pathLen);
      }
    }
  }

  /** A token that ends on a branch node changes nothing but a payload there. */
  lemma {:induction false} BranchAlike<P>(node: Trie<P>, token: bytes, payload: P, pathLen: nat)
    requires EndsOnBranch(node, token)
    ensures Alike(AddPath(node, token, payload, pathLen), node)
    decreases node
  {
    var n := |node.suffix|;
    AlikeSelf(node);
    if n < |token| {
      var i := ChildWith(node.children, token[n]);
      BranchAlike(node.children[i], token[n..], payload, pathLen);
      forall j | 0 <= j < |node.children| ensures Alike(node.children[j], node.children[j]) {
        AlikeSelf(node.children[j]);
      }
    }
  }

  // ------------------------------------------------------------------------ found tokens

  /** The tokens without those that fork the ones in front of them. */
  function Found<P>(tokens: seq<(bytes, P)>): (found: seq<(bytes, P)>)
    ensures tokens != [] ==> found != []
    ensures forall x :: x in found ==> x in tokens
  {
    if |tokens| <= 1 then tokens
    else
      var n := |tokens| - 1;
      var found := Found(tokens[..n]);
      if Forks(found, tokens[n].0) then found else found + [tokens[n]]
  }

  lemma FoundStart<P>(tokens: seq<(bytes, P)>, b: byte)
    requires StartsAllWith(tokens, b)
    ensures StartsAllWith(Found(tokens), b)
  {
    var found := Found(tokens);
    forall i | 0 <= i < |found| ensures found[i].0 != [] && found[i].0[0] == b { assert found[i] in tokens; }
  }

  lemma FoundStep<P>(init: seq<(bytes, P)>, last: (bytes, P))
    requires init != []
    ensures Found(init + [last]) == if Forks(Found(init), last.0) then Found(init) else Found(init) + [last]
  {
    assert (init + [last])[..|init|] == init;
  }

  lemma ForkFreeStep<P>(init: seq<(bytes, P)>, last: (bytes, P))
    requires init != []
    ensures ForkFree(init + [last]) <==> ForkFree(init) && !Forks(init, last.0)
  {
    hide Forks;
    var all := init + [last];
    assert forall k :: 1 <= k < |init| ==> all[..k] == init[..k] && all[k] == init[k];
    assert all[..|init|] == init && all[|init|] == last;
  }

  lemma {:induction false} FoundIsForkFree<P>(tokens: seq<(bytes, P)>)
    ensures ForkFree(Found(tokens))
    ensures ForkFree(tokens) ==> Found(tokens) == tokens
  {
    if |tokens| > 1 {
      hide Forks, ForkFree, Found;
      var init, last := tokens[..|tokens| - 1], tokens[|tokens| - 1];
      assert tokens == init + [last];
      FoundIsForkFree(init);
      FoundStep(init, last);
      ForkFreeStep(init, last);
      ForkFreeStep(Found(init), last);
    }
  }

  /** The trie of all tokens is that of the found ones, and finds the longest of these for all inputs. */
  lemma {:induction false} FoundIs<P(!new)>(tokens: seq<(bytes, P)>, b: byte)
    requires tokens != [] && StartsAllWith(tokens, b)
    ensures Alike(Build(tokens), Build(Found(tokens))) && Answers(Build(Found(tokens)), Found(tokens))
  {
    var n := |tokens| - 1;
    if n == 0 {
      AlikeSelf(Build(tokens));
      assert tokens == [(tokens[0].0, tokens[0].1)];
      OneTokenAnswers(tokens[0].0, tokens[0].1);
    } else {
      hide Build, Answers, EndsOnBranch, Forks, AddPath, Alike, Found;
      var init, last := tokens[..n], tokens[n];
      assert tokens == init + [last];
      assert StartsAllWith(init, b);
      FoundIs(init, b);
      FoundStart(init, b);
      FoundAdded(init, b, last);
    }
  }

  lemma FoundAdded<P(!new)>(init: seq<(bytes, P)>, b: byte, last: (bytes, P))
    requires init != [] && StartsAllWith(Found(init), b) && last.0 != []
    requires Alike(Build(init), Build(Found(init))) && Answers(Build(Found(init)), Found(init))
    ensures Alike(Build(init + [last]), Build(Found(init + [last])))
    ensures Answers(Build(Found(init + [last])), Found(init + [last]))
  {
    hide Build, Answers, EndsOnBranch, Forks, AddPath, Alike, Found, StartsAllWith;
    var found, trie, token, payload := Found(init), Build(init), last.0, last.1;
    FoundStep(init, last);
    BuildOfLast(init, last);
    AlikeBranch(trie, Build(found), token);
    BranchIffForks(found, b, token);
    if Forks(found, token) {
      BranchAlike(trie, token, payload, |token|);
      AlikeTrans(Build(init + [last]), trie, Build(found));
    } else {
      AddAlike(trie, Build(found), token, payload, |token|);
      BuildOfLast(found, last);
      FoundRaises(found, b, token, payload);
    }
  }

  lemma BuildOfLast<P>(tokens: seq<(bytes, P)>, last: (bytes, P))
    requires tokens != []
    ensures Build(tokens + [last]) == AddPath(Build(tokens), last.0, last.1, |last.0|)
  {
    hide AddPath;
    assert (tokens + [last])[..|tokens|] == tokens;
  }

  lemma FoundRaises<P(!new)>(found: seq<(bytes, P)>, b: byte, token: bytes, payload: P)
    requires found != [] && StartsAllWith(found, b) && Answers(Build(found), found)
    requires token != [] && !EndsOnBranch(Build(found), token)
    ensures Answers(Build(found + [(token, payload)]), found + [(token, payload)])
  {
    hide Build, Answers, EndsOnBranch, AddPath, Stores, WellFormed, Deep;
    var trie := Build(found);
    BuildKeepsFirst(found, b);
    BuildStores(found);
    StoresDeep(trie, [], found);
    DeepIsRaised(trie, token, payload);
    AnswersIffRaised(trie, Add(trie, token, payload), found, token, payload);
    BuildOfLast(found, (token, payload));
  }

  /** Fork-free lists are answered, even when they repeat tokens. */
  lemma ForkFreeAnswers<P(!new)>(tokens: seq<(bytes, P)>, b: byte)
    requires tokens != [] && StartsAllWith(tokens, b) && ForkFree(tokens)
    ensures Answers(Build(tokens), tokens)
  {
    FoundIsForkFree(tokens);
    FoundIs(tokens, b);
  }
}
