/** Whole matches in the trie of shared/trie.go: which inputs Match accepts, and with which payload. */
module TrieMatch {
  import opened Utilities
  import opened Trie

  // ------------------------------------------------------------------- any order

  lemma {:induction false} StoresMatches<P>(node: Trie<P>, path: bytes, tokens: seq<(bytes, P)>, data: bytes)
    requires Stores(node, path, tokens) && Match(node, data).Some?
    ensures var hit := Match(node, data).value;
      hit.pathLen == |path| + |data| && hit.payload.Some? && (path + data, hit.payload.value) in tokens
    decreases node, 1
  {
    var rest := data[|node.suffix|..];
    assert data == node.suffix + rest;
    if |data| == |node.suffix| {
      assert data == node.suffix;
    } else {
      StoresMatchesAny(node.children, path + node.suffix, tokens, rest);
      assert path + node.suffix + rest == path + data;
    }
  }

  lemma {:induction false} StoresMatchesAny<P>(children: seq<Trie<P>>, path: bytes, tokens: seq<(bytes, P)>,
                                               data: bytes)
    requires forall i :: 0 <= i < |children| ==> Stores(children[i], path, tokens)
    requires MatchAny(children, data).Some?
    ensures var hit := MatchAny(children, data).value;
      hit.pathLen == |path| + |data| && hit.payload.Some? && (path + data, hit.payload.value) in tokens
    decreases children, 0
  {
    if Match(children[0], data).Some? {
      StoresMatches(children[0], path, tokens, data);
    } else {
      StoresMatchesAny(children[1..], path, tokens, data);
    }
  }

  /** In whatever order tokens are added, Match accepts nothing but added tokens, and answers with a
      payload one was added with. */
  lemma MatchIsSound<P>(tokens: seq<(bytes, P)>, data: bytes)
    requires tokens != [] && Match(Build(tokens), data).Some?
    ensures var hit := Match(Build(tokens), data).value;
      exists i :: 0 <= i < |tokens| && tokens[i].0 == data && hit == Hit(|data|, Some(tokens[i].1))
  {
    hide Match, Stores;
    BuildStores(tokens);
    StoresMatches(Build(tokens), [], tokens, data);
    var hit := Match(Build(tokens), data).value;
    assert [] + data == data;
    var i :| 0 <= i < |tokens| && tokens[i] == (data, hit.payload.value);
  }

  // -------------------------------------------------------------- order of length

  lemma {:induction false} MatchNeedsStart<P>(node: Trie<P>, data: bytes)
    requires Match(node, data).Some?
    ensures MatchStart(node, data).Some?
    decreases node, 1
  {
    if |data| > |node.suffix| { AnyNeedsStart(node.children, data[|node.suffix|..]); }
  }

  lemma {:induction false} AnyNeedsStart<P>(children: seq<Trie<P>>, data: bytes)
    requires MatchAny(children, data).Some?
    ensures MatchStartAny(children, data).Some?
    decreases children, 0
  {
    if Match(children[0], data).Some? {
      MatchNeedsStart(children[0], data);
    } else {
      AnyNeedsStart(children[1..], data);
    }
  }

  /** An answer that takes all of the data is the whole match. */
  lemma {:induction false} FullIsMatch<P>(node: Trie<P>, depth: nat, size: nat, data: bytes)
    requires WellFormed(node) && Sized(node, depth, size)
    requires MatchStart(node, data).Some? && MatchStart(node, data).value.pathLen == depth + |data|
    ensures Match(node, data) == MatchStart(node, data)
    decreases node, 1
  {
    var rest := data[|node.suffix|..];
    if MatchStartAny(node.children, rest).Some? {
      if rest == [] { NothingStarts(node.children); }
      FullIsAny(node.children, depth + |node.suffix|, size, rest);
    }
  }

  lemma {:induction false} FullIsAny<P>(children: seq<Trie<P>>, depth: nat, size: nat, data: bytes)
    requires forall i :: 0 <= i < |children| ==> WellFormed(children[i]) && Sized(children[i], depth, size)
    requires MatchStartAny(children, data).Some? && MatchStartAny(children, data).value.pathLen == depth + |data|
    ensures MatchAny(children, data) == MatchStartAny(children, data)
    decreases children, 0
  {
    if MatchStart(children[0], data).Some? {
      FullIsMatch(children[0], depth, size, data);
    } else {
      if Match(children[0], data).Some? { MatchNeedsStart(children[0], data); }
      FullIsAny(children[1..], depth, size, data);
    }
  }

  lemma NothingStarts<P>(children: seq<Trie<P>>)
    requires forall i :: 0 <= i < |children| ==> children[i].suffix != []
    ensures MatchStartAny(children, []).None?
  {
    MatchStartAnyNone(children, []);
  }

  /** For tokens added in order of their length, Match accepts exactly the tokens, each with the
      payload it was given last. */
  lemma MatchIsExact<P>(tokens: seq<(bytes, P)>, data: bytes)
    requires tokens != [] && NonEmpty(tokens) && ByLength(tokens)
    ensures match Match(Build(tokens), data)
      case None => forall i :: 0 <= i < |tokens| ==> tokens[i].0 != data
      case Some(hit) =>
        exists i: nat :: IsLongest(tokens, data, i) && tokens[i].0 == data && hit == Hit(|data|, Some(tokens[i].1))
  {
    hide Match, MatchStart, Build, WellFormed, Sized;
    var trie := Build(tokens);
    BuildIsSized(tokens);
    MatchStartIsLongest(tokens, data);
    var start := MatchStart(trie, data);
    if Match(trie, data).Some? {
      MatchIsSound(tokens, data);
      MatchNeedsStart(trie, data);
    }
    if k: nat :| k < |tokens| && tokens[k].0 == data {
      assert Prefix(tokens[k].0, data);
      var i: nat :| IsLongest(tokens, data, i) && start.value == Hit(|tokens[i].0|, Some(tokens[i].1));
      assert |tokens[i].0| == |data|;
      FullIsMatch(trie, 0, |tokens[|tokens| - 1].0|, data);
      assert IsLongest(tokens, data, i) && tokens[i].0 == data;
    }
  }
}
