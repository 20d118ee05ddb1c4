/**
 Adding tokens to the trie of shared/trie.go in any order: exactly when an added token keeps the
 trie answering with the longest match.
 */
module TrieOrder {
  import opened Utilities
  import opened Trie

  /** Path lengths are the depths at which tokens end. */
  predicate Deep<P>(node: Trie<P>, depth: nat) {
    && (node.pathLen == 0 || node.pathLen == depth + |node.suffix|)
    && forall i :: 0 <= i < |node.children| ==> Deep(node.children[i], depth + |node.suffix|)
  }

  lemma {:induction false} StoresDeep<P>(node: Trie<P>, path: bytes, tokens: seq<(bytes, P)>)
    requires Stores(node, path, tokens)
    ensures Deep(node, |path|)
  {
    forall i | 0 <= i < |node.children| ensures Deep(node.children[i], |path| + |node.suffix|) {
      StoresDeep(node.children[i], path + node.suffix, tokens);
    }
  }

  /** The answer after adding a token that takes over from shorter and equal ones. */
  function Raised<P>(before: Option<Hit<P>>, token: bytes, payload: P, pathLen: nat, data: bytes): Option<Hit<P>> {
    if Prefix(token, data) && (before.None? || before.value.pathLen <= pathLen) then Some(Hit(pathLen, Some(payload)))
    else before
  }

  // -------------------------------------------------------------- answers of children

  lemma {:induction false} AnyAppend<P>(a: seq<Trie<P>>, b: seq<Trie<P>>, data: bytes)
    ensures MatchStartAny(a + b, data) == if MatchStartAny(a, data).Some? then MatchStartAny(a, data)
      else MatchStartAny(b, data)
  {
    if a == [] {
      assert a + b == b;
    } else {
      assert (a + b)[1..] == a[1..] + b;
      AnyAppend(a[1..], b, data);
    }
  }

  /** With a new child among them the front is asked first, then the new child, then the back. */
  lemma NewChildAnswers<P>(node: Trie<P>, token: bytes, payload: P, pathLen: nat, data: bytes)
    requires pathLen > 0
    ensures var at := InsertAt(node.children, pathLen);
      var front, back := MatchStartAny(node.children[..at], data), MatchStartAny(node.children[at..], data);
      && MatchStartAny(AddNewChild(node, token, payload, pathLen).children, data)
        == (if front.Some? then front else if Prefix(token, data) then Some(Hit(pathLen, Some(payload))) else back)
      && MatchStartAny(node.children, data) == if front.Some? then front else back
  {
    var at := InsertAt(node.children, pathLen);
    var leaf := Node(token, [], pathLen, pathLen, Some(payload));
    var front, back := node.children[..at], node.children[at..];
    assert AddNewChild(node, token, payload, pathLen).children == front + ([leaf] + back);
    assert node.children == front + back;
    AnyAppend(front, [leaf] + back, data);
    AnyAppend(front, back, data);
    assert ([leaf] + back)[1..] == back;
    assert MatchStart(leaf, data) == if Prefix(token, data) then Some(Hit(pathLen, Some(payload))) else None;
  }

  /** What a node answers lies at its end or deeper, what its children answer lies deeper. */
  lemma {:induction false} AnswersAreDeep<P>(node: Trie<P>, depth: nat, data: bytes)
    requires WellFormed(node) && Deep(node, depth) && MatchStart(node, data).Some?
    ensures depth + |node.suffix| <= MatchStart(node, data).value.pathLen <= depth + |data|
    decreases node, 1
  {
    var rest := data[|node.suffix|..];
    if MatchStartAny(node.children, rest).Some? { AnyAnswersAreDeep(node.children, depth + |node.suffix|, rest); }
  }

  lemma {:induction false} AnyAnswersAreDeep<P>(children: seq<Trie<P>>, depth: nat, data: bytes)
    requires forall i :: 0 <= i < |children| ==>
      children[i].suffix != [] && WellFormed(children[i]) && Deep(children[i], depth)
    requires MatchStartAny(children, data).Some?
    ensures depth < MatchStartAny(children, data).value.pathLen <= depth + |data|
    decreases children, 0
  {
    if MatchStart(children[0], data).Some? {
      AnswersAreDeep(children[0], depth, data);
    } else {
      AnyAnswersAreDeep(children[1..], depth, data);
    }
  }

  /** More data never silences a node. */
  lemma {:induction false} AnswersExtend<P>(node: Trie<P>, data: bytes, more: bytes)
    requires MatchStart(node, data).Some?
    ensures MatchStart(node, data + more).Some?
    decreases node, 1
  {
    var rest := data[|node.suffix|..];
    assert (data + more)[..|node.suffix|] == data[..|node.suffix|];
    assert (data + more)[|node.suffix|..] == rest + more;
    if MatchStartAny(node.children, rest).Some? { AnyAnswersExtend(node.children, rest, more); }
  }

  lemma {:induction false} AnyAnswersExtend<P>(children: seq<Trie<P>>, data: bytes, more: bytes)
    requires MatchStartAny(children, data).Some?
    ensures MatchStartAny(children, data + more).Some?
    decreases children, 0
  {
    if MatchStart(children[0], data).Some? {
      AnswersExtend(children[0], data, more);
    } else {
      AnyAnswersExtend(children[1..], data, more);
    }
  }

  /** An answer of at most `m` bytes needs only `m` bytes. */
  lemma {:induction false} AnswersShorten<P>(node: Trie<P>, depth: nat, data: bytes, m: nat)
    requires WellFormed(node) && Deep(node, depth) && m <= |data|
    requires MatchStart(node, data).Some? && MatchStart(node, data).value.pathLen <= depth + m
    ensures MatchStart(node, data[..m]).Some?
    decreases node, 1
  {
    var n := |node.suffix|;
    AnswersAreDeep(node, depth, data);
    assert data[..m][..n] == data[..n];
    assert data[..m][n..] == data[n..][..m - n];
    if MatchStartAny(node.children, data[n..]).Some? { AnyAnswersShorten(node.children, depth + n, data[n..], m - n); }
  }

  lemma {:induction false} AnyAnswersShorten<P>(children: seq<Trie<P>>, depth: nat, data: bytes, m: nat)
    requires forall i :: 0 <= i < |children| ==>
      children[i].suffix != [] && WellFormed(children[i]) && Deep(children[i], depth)
    requires m <= |data| && MatchStartAny(children, data).Some?
      && MatchStartAny(children, data).value.pathLen <= depth + m
    ensures MatchStartAny(children, data[..m]).Some?
    decreases children, 0
  {
    if MatchStart(children[0], data).Some? {
      AnswersShorten(children[0], depth, data, m);
    } else {
      AnyAnswersShorten(children[1..], depth, data, m);
    }
  }

  // ------------------------------------------------- below a suffix: off the branch nodes

  /** Below a suffix a token that does not end on a branch node takes over exactly the inputs it
      is a prefix of and that no longer token answers. */
  lemma {:induction false} AddPathRaises<P>(node: Trie<P>, depth: nat, token: bytes, payload: P, data: bytes)
    requires WellFormed(node) && Deep(node, depth) && node.suffix != [] && token != [] && !EndsOnBranch(node, token)
    ensures MatchStart(AddPath(node, token, payload, depth + |token|), data)
         == Raised(MatchStart(node, data), token, payload, depth + |token|, data)
    decreases node, 1
  {
    var n := Split(token, node.suffix);
    if n == |node.suffix| == |token| {
      EndRaises(node, depth, token, payload, data);
    } else if n == |node.suffix| {
      var i := ChildWith(node.children, token[n]);
      if i < |node.children| {
        DescendRaises(node, depth, token, payload, data, i);
      } else {
        LeafRaises(node, depth, token, payload, data);
      }
    } else if n == |token| {
      SplitEndRaises(node, depth, token, payload, data);
    } else {
      SplitRaises(node, depth, token, payload, data);
    }
  }

  lemma EndRaises<P>(node: Trie<P>, depth: nat, token: bytes, payload: P, data: bytes)
    requires WellFormed(node) && Deep(node, depth) && node.suffix == token != [] && node.pathLen > 0
    ensures MatchStart(node.(payload := Some(payload)), data)
         == Raised(MatchStart(node, data), token, payload, depth + |token|, data)
  {
    if Prefix(token, data) {
      var rest := data[|token|..];
      if MatchStartAny(node.children, rest).Some? { AnyAnswersAreDeep(node.children, depth + |token|, rest); }
    }
  }

  lemma DescendRaises<P>(node: Trie<P>, depth: nat, token: bytes, payload: P, data: bytes, i: nat)
    requires WellFormed(node) && Deep(node, depth) && node.suffix != []
    requires Prefix(node.suffix, token) && |node.suffix| < |token| && !EndsOnBranch(node, token)
    requires Split(token, node.suffix) == |node.suffix|
    requires i < |node.children| && i == ChildWith(node.children, token[|node.suffix|])
    ensures var n := |node.suffix|;
      var child' := AddPath(node.children[i], token[n..], payload, depth + |token|);
      MatchStart(node.(children := node.children[i := child']), data)
        == Raised(MatchStart(node, data), token, payload, depth + |token|, data)
    decreases node, 0
  {
    hide AddPath;
    var n := |node.suffix|;
    var rest, child := token[n..], node.children[i];
    var child' := AddPath(child, rest, payload, depth + |token|);
    assert token == node.suffix + rest;
    PrefixSplit(node.suffix, rest, data);
    AddPathSuffix(child, rest, payload, depth + |token|);
    if Prefix(node.suffix, data) {
      AddPathRaises(child, depth + n, rest, payload, data[n..]);
      ReplacedChild(node.children, i, child', data[n..]);
      if Prefix(rest, data[n..]) { PrefixHead(rest, data[n..]); }
    }
  }

  lemma LeafRaises<P>(node: Trie<P>, depth: nat, token: bytes, payload: P, data: bytes)
    requires WellFormed(node) && Deep(node, depth)
    requires Prefix(node.suffix, token) && |node.suffix| < |token|
    requires ChildWith(node.children, token[|node.suffix|]) == |node.children|
    ensures MatchStart(AddNewChild(node, token[|node.suffix|..], payload, depth + |token|), data)
         == Raised(MatchStart(node, data), token, payload, depth + |token|, data)
  {
    var n := |node.suffix|;
    var rest := token[n..];
    assert token == node.suffix + rest;
    PrefixSplit(node.suffix, rest, data);
    if Prefix(node.suffix, data) {
      NewChildAnswers(node, rest, payload, depth + |token|, data[n..]);
      if Prefix(rest, data[n..]) {
        PrefixHead(rest, data[n..]);
        NoChild(node.children, data[n..]);
      }
    }
  }

  /** The token ends inside the suffix. */
  lemma SplitEndRaises<P>(node: Trie<P>, depth: nat, token: bytes, payload: P, data: bytes)
    requires WellFormed(node) && Deep(node, depth) && token != []
    requires Split(token, node.suffix) == |token| < |node.suffix|
    ensures MatchStart(AddPath(node, token, payload, depth + |token|), data)
         == Raised(MatchStart(node, data), token, payload, depth + |token|, data)
  {
    hide WellFormed, Deep, AddNewChild;
    var n := |token|;
    var lower := node.(suffix := node.suffix[n..]);
    assert node.suffix == token + lower.suffix && token[..n] == token;
    PrefixSplit(token, lower.suffix, data);
    if Prefix(token, data) {
      TrimSuffix(node, n, data);
      OneChildAnswers(lower, data[n..]);
      if MatchStart(node, data).Some? { AnswersAreDeep(node, depth, data); }
    }
  }

  lemma SplitRaises<P>(node: Trie<P>, depth: nat, token: bytes, payload: P, data: bytes)
    requires WellFormed(node) && Deep(node, depth) && token != []
    requires Split(token, node.suffix) < |node.suffix| && Split(token, node.suffix) < |token|
    ensures MatchStart(AddPath(node, token, payload, depth + |token|), data)
         == Raised(MatchStart(node, data), token, payload, depth + |token|, data)
  {
    hide MatchStart, MatchStartAny, AddPath, AddNewChild, WellFormed, Deep;
    var n := Split(token, node.suffix);
    var head, lower := token[..n], node.(suffix := node.suffix[n..]);
    assert node.suffix == head + lower.suffix && token == head + token[n..];
    PrefixSplit(head, lower.suffix, data);
    PrefixSplit(head, token[n..], data);
    var upper := Node(head, [lower], node.longestPath, 0, None);
    SplitsHere(node, token, payload, depth + |token|);
    NewChildShape(upper, token[n..], payload, depth + |token|);
    MatchStartCases(AddNewChild(upper, token[n..], payload, depth + |token|), data);
    if Prefix(head, data) {
      TrimSuffix(node, n, data);
      OneChildAnswers(lower, data[n..]);
      NewChildAnswers(upper, token[n..], payload, depth + |token|, data[n..]);
      OneOrNone(lower, InsertAt([lower], depth + |token|), data[n..]);
      if Prefix(token[n..], data[n..]) {
        PrefixHead(token[n..], data[n..]);
        assert data[n..][0] == token[n] != lower.suffix[0];
        NoChild([lower], data[n..]);
      }
    } else {
      MatchStartCases(node, data);
    }
  }

  lemma OneOrNone<P>(child: Trie<P>, at: nat, data: bytes)
    requires at <= 1
    ensures MatchStartAny([child][..at], data) == if at == 0 then None else MatchStartAny([child], data)
    ensures MatchStartAny([child][at..], data) == if at == 0 then MatchStartAny([child], data) else None
  {
    if at == 0 {
      assert [child][..0] == [] && [child][0..] == [child];
    } else {
      assert [child][..1] == [child] && [child][1..] == [];
    }
  }

  /** A token that ends on a branch node changes no answer. */
  lemma {:induction false} BranchKeepsAnswers<P>(node: Trie<P>, token: bytes, payload: P, pathLen: nat, data: bytes)
    requires token != [] && EndsOnBranch(node, token)
    ensures MatchStart(AddPath(node, token, payload, pathLen), data) == MatchStart(node, data)
    decreases node
  {
    var n := Split(token, node.suffix);
    if n < |token| {
      var i := ChildWith(node.children, token[n]);
      var child' := AddPath(node.children[i], token[n..], payload, pathLen);
      if Prefix(node.suffix, data) {
        BranchKeepsAnswers(node.children[i], token[n..], payload, pathLen, data[n..]);
        SameAnswer(node.children, i, child', data[n..]);
      }
    }
  }

  lemma {:induction false} SameAnswer<P>(children: seq<Trie<P>>, i: nat, child: Trie<P>, data: bytes)
    requires i < |children| && MatchStart(child, data) == MatchStart(children[i], data)
    ensures MatchStartAny(children[i := child], data) == MatchStartAny(children, data)
  {
    if i == 0 {
      assert children[0 := child][1..] == children[1..];
    } else {
      assert children[i := child][1..] == children[1..][i - 1 := child];
      SameAnswer(children[1..], i - 1, child, data);
    }
  }

  lemma PrefixHead(a: bytes, b: bytes)
    requires a != [] && Prefix(a, b)
    ensures b != [] && b[0] == a[0]
  {
    assert b[..|a|][0] == b[0];
  }

  // ------------------------------------------------------------ one token, in any order

  /** The trie answers every input with the longest match of the tokens. */
  ghost predicate Answers<P(!new)>(trie: Trie<P>, tokens: seq<(bytes, P)>) {
    forall data :: IsLongestMatch(tokens, data, MatchStart(trie, data))
  }

  /** The children that are asked before a new token of that length. */
  function Front<P>(trie: Trie<P>, length: nat): seq<Trie<P>> { trie.children[..InsertAt(trie.children, length)] }

  /** Adding the token keeps the longest match.  Under a suffix the token must not end on a branch
      node.  A root without suffix keeps its children apart, so the children in front must not
      answer for the token, but must answer for all known tokens that extend it. */
  predicate Admits<P>(trie: Trie<P>, tokens: seq<(bytes, P)>, token: bytes) {
    if trie.suffix != [] then !EndsOnBranch(trie, token)
    else
      && MatchStartAny(Front(trie, |token|), token).None?
      && forall i :: 0 <= i < |tokens| && |tokens[i].0| > |token| && Prefix(token, tokens[i].0) ==>
           MatchStartAny(Front(trie, |token|), tokens[i].0).Some?
  }

  lemma RaisedIsLongest<P>(tokens: seq<(bytes, P)>, token: bytes, payload: P, data: bytes, answer: Option<Hit<P>>)
    requires IsLongestMatch(tokens, data, answer)
    ensures IsLongestMatch(tokens + [(token, payload)], data, Raised(answer, token, payload, |token|, data))
  {
    var all := tokens + [(token, payload)];
    assert forall i :: 0 <= i < |tokens| ==> all[i] == tokens[i];
    if answer.Some? {
      var i: nat :| IsLongest(tokens, data, i) && answer.value == Hit(|tokens[i].0|, Some(tokens[i].1));
      if Prefix(token, data) && answer.value.pathLen <= |token| {
        assert IsLongest(all, data, |tokens|);
      } else {
        assert IsLongest(all, data, i);
      }
    } else if Prefix(token, data) {
      assert IsLongest(all, data, |tokens|);
    }
  }

  /** The longest match of the longer list is determined by that of the shorter one. */
  lemma LongestMatchIsRaised<P>(tokens: seq<(bytes, P)>, token: bytes, payload: P, data: bytes, before: Option<Hit<P>>,
                                after: Option<Hit<P>>)
    requires IsLongestMatch(tokens, data, before) && IsLongestMatch(tokens + [(token, payload)], data, after)
    ensures after == Raised(before, token, payload, |token|, data)
  {
    RaisedIsLongest(tokens, token, payload, data, before);
    LongestMatchUnique(tokens + [(token, payload)], data, after, Raised(before, token, payload, |token|, data));
  }

  /** The token takes over from shorter and equal ones, for all inputs. */
  ghost predicate Raises<P(!new)>(trie: Trie<P>, trie': Trie<P>, token: bytes, payload: P) {
    forall data :: MatchStart(trie', data) == Raised(MatchStart(trie, data), token, payload, |token|, data)
  }

  /** So the new trie has to raise every answer. */
  lemma AnswersIffRaised<P(!new)>(trie: Trie<P>, trie': Trie<P>, tokens: seq<(bytes, P)>, token: bytes, payload: P)
    requires Answers(trie, tokens)
    ensures Answers(trie', tokens + [(token, payload)]) <==> Raises(trie, trie', token, payload)
  {
    var all := tokens + [(token, payload)];
    if Answers(trie', all) {
      forall data ensures MatchStart(trie', data) == Raised(MatchStart(trie, data), token, payload, |token|, data) {
        assert IsLongestMatch(tokens, data, MatchStart(trie, data))
          && IsLongestMatch(all, data, MatchStart(trie', data));
        LongestMatchIsRaised(tokens, token, payload, data, MatchStart(trie, data), MatchStart(trie', data));
      }
    }
    if Raises(trie, trie', token, payload) {
      forall data ensures IsLongestMatch(all, data, MatchStart(trie', data)) {
        assert MatchStart(trie', data) == Raised(MatchStart(trie, data), token, payload, |token|, data);
        RaisedIsLongest(tokens, token, payload, data, MatchStart(trie, data));
      }
    }
  }

  /** A payload that is new for the token is no answer yet. */
  lemma NewPayloadIsNoAnswer<P>(trie: Trie<P>, tokens: seq<(bytes, P)>, token: bytes, payload: P)
    requires Stores(trie, [], tokens) && (token, payload) !in tokens
    ensures MatchStart(trie, token) != Some(Hit(|token|, Some(payload)))
  {
    if MatchStart(trie, token).Some? {
      StoresFinds(trie, [], tokens, token);
      assert token[..|token|] == token && [] + token == token;
    }
  }

  /** Whatever tokens a trie answers with the longest match, and in whatever order they came:
      adding one more keeps that up exactly if the trie admits the token. */
  lemma AddKeepsLongestIff<P(!new)>(trie: Trie<P>, tokens: seq<(bytes, P)>, token: bytes, payload: P)
    requires WellFormed(trie) && Stores(trie, [], tokens) && Answers(trie, tokens)
    requires token != [] && (token, payload) !in tokens
    ensures Answers(Add(trie, token, payload), tokens + [(token, payload)]) <==> Admits(trie, tokens, token)
  {
    hide Answers, Stores, Raises, Raised, WellFormed, Deep, MatchStart, EndsOnBranch;
    StoresDeep(trie, [], tokens);
    AnswersIffRaised(trie, Add(trie, token, payload), tokens, token, payload);
    if trie.suffix != [] {
      if EndsOnBranch(trie, token) {
        BranchKeepsAnswers(trie, token, payload, |token|, token);
        NewPayloadIsNoAnswer(trie, tokens, token, payload);
        BranchIsNotRaised(trie, token, payload);
      } else {
        DeepIsRaised(trie, token, payload);
      }
    } else {
      RootRaisesIff(trie, tokens, token, payload);
    }
  }

  lemma DeepIsRaised<P(!new)>(trie: Trie<P>, token: bytes, payload: P)
    requires WellFormed(trie) && Deep(trie, 0) && trie.suffix != [] && token != [] && !EndsOnBranch(trie, token)
    ensures Raises(trie, Add(trie, token, payload), token, payload)
  {
    forall data ensures MatchStart(Add(trie, token, payload), data)
      == Raised(MatchStart(trie, data), token, payload, |token|, data) {
      AddPathRaises(trie, 0, token, payload, data);
    }
  }

  lemma BranchIsNotRaised<P(!new)>(trie: Trie<P>, token: bytes, payload: P)
    requires token != [] && WellFormed(trie) && Deep(trie, 0)
    requires MatchStart(Add(trie, token, payload), token)
      == MatchStart(trie, token) != Some(Hit(|token|, Some(payload)))
    ensures !Raises(trie, Add(trie, token, payload), token, payload)
  {
    assert Prefix(token, token);
    if MatchStart(trie, token).Some? { AnswersAreDeep(trie, 0, token); }
    assert Raised(MatchStart(trie, token), token, payload, |token|, token) == Some(Hit(|token|, Some(payload)));
  }

  /** A root without suffix gets a new child, between those that are asked before and after it. */
  lemma RootAnswers<P>(trie: Trie<P>, token: bytes, payload: P, data: bytes)
    requires trie.suffix == [] && Deep(trie, 0) && token != []
    ensures var front := MatchStartAny(Front(trie, |token|), data);
      && MatchStart(Add(trie, token, payload), data)
        == (if front.Some? then front else if Prefix(token, data) then Some(Hit(|token|, Some(payload)))
          else MatchStart(trie, data))
      && (front.Some? ==> MatchStart(trie, data) == front)
  {
    NewChildAnswers(trie, token, payload, |token|, data);
    assert data[0..] == data && token[0..] == token;
  }

  lemma RootRaisesIff<P(!new)>(trie: Trie<P>, tokens: seq<(bytes, P)>, token: bytes, payload: P)
    requires trie.suffix == [] && WellFormed(trie) && Stores(trie, [], tokens) && Deep(trie, 0) && Answers(trie, tokens)
    requires token != [] && (token, payload) !in tokens
    ensures Raises(trie, Add(trie, token, payload), token, payload) <==> Admits(trie, tokens, token)
  {
    if Admits(trie, tokens, token) {
      forall data ensures MatchStart(Add(trie, token, payload), data)
        == Raised(MatchStart(trie, data), token, payload, |token|, data) {
        RootAnswers(trie, token, payload, data);
        if Prefix(token, data) { FrontDecides(trie, tokens, token, data); }
      }
    } else {
      RootRefuses(trie, tokens, token, payload);
    }
  }

  /** Where the token matches, an admitting front answers exactly when a longer token matches. */
  lemma FrontDecides<P(!new)>(trie: Trie<P>, tokens: seq<(bytes, P)>, token: bytes, data: bytes)
    requires trie.suffix == [] && WellFormed(trie) && Deep(trie, 0) && Answers(trie, tokens)
    requires token != [] && Admits(trie, tokens, token) && Prefix(token, data)
    ensures MatchStartAny(Front(trie, |token|), data).Some?
      <==> MatchStart(trie, data).Some? && MatchStart(trie, data).value.pathLen > |token|
  {
    var front := Front(trie, |token|);
    RootFront(trie, |token|, data);
    if MatchStartAny(front, data).Some? {
      if MatchStartAny(front, data).value.pathLen <= |token| {
        AnyAnswersShorten(front, 0, data, |token|);
        assert false;
      }
    } else if MatchStart(trie, data).Some? && MatchStart(trie, data).value.pathLen > |token| {
      assert IsLongestMatch(tokens, data, MatchStart(trie, data));
      var i: nat :| IsLongest(tokens, data, i) && MatchStart(trie, data).value == Hit(|tokens[i].0|, Some(tokens[i].1));
      PrefixOfLonger(token, tokens[i].0, data);
      assert tokens[i].0 + data[|tokens[i].0|..] == data;
      AnyAnswersExtend(front, tokens[i].0, data[|tokens[i].0|..]);
    }
  }

  lemma RootFront<P>(trie: Trie<P>, length: nat, data: bytes)
    requires trie.suffix == [] && Deep(trie, 0)
    ensures MatchStartAny(Front(trie, length), data).Some? ==>
      MatchStart(trie, data) == MatchStartAny(Front(trie, length), data)
  {
    var at := InsertAt(trie.children, length);
    assert trie.children == trie.children[..at] + trie.children[at..];
    AnyAppend(trie.children[..at], trie.children[at..], data);
    assert data[0..] == data;
  }

  lemma PrefixOfLonger(a: bytes, b: bytes, data: bytes)
    requires Prefix(a, data) && Prefix(b, data) && |a| <= |b|
    ensures Prefix(a, b)
  {
    assert b[..|a|] == data[..|b|][..|a|];
  }

  /** What a root does not admit it answers wrongly: the token itself, or a longer known one. */
  lemma RootRefuses<P(!new)>(trie: Trie<P>, tokens: seq<(bytes, P)>, token: bytes, payload: P)
    requires trie.suffix == [] && WellFormed(trie) && Stores(trie, [], tokens) && Deep(trie, 0) && Answers(trie, tokens)
    requires token != [] && (token, payload) !in tokens && !Admits(trie, tokens, token)
    ensures !Raises(trie, Add(trie, token, payload), token, payload)
  {
    if MatchStartAny(Front(trie, |token|), token).Some? {
      RootAnswers(trie, token, payload, token);
      NewPayloadIsNoAnswer(trie, tokens, token, payload);
      BranchIsNotRaised(trie, token, payload);
    } else {
      var i :| 0 <= i < |tokens| && |tokens[i].0| > |token| && Prefix(token, tokens[i].0)
        && MatchStartAny(Front(trie, |token|), tokens[i].0).None?;
      var data := tokens[i].0;
      RootAnswers(trie, token, payload, data);
      assert IsLongestMatch(tokens, data, MatchStart(trie, data));
      assert Prefix(data, data);
      assert MatchStart(trie, data).value.pathLen > |token|;
    }
  }

  // -------------------------------------------------------- the exact match of a new token

  lemma {:induction false} MatchAnyAppend<P>(a: seq<Trie<P>>, b: seq<Trie<P>>, data: bytes)
    ensures MatchAny(a + b, data) == if MatchAny(a, data).Some? then MatchAny(a, data) else MatchAny(b, data)
  {
    if a == [] {
      assert a + b == b;
    } else {
      assert (a + b)[1..] == a[1..] + b;
      MatchAnyAppend(a[1..], b, data);
    }
  }

  lemma NewChildMatches<P>(node: Trie<P>, token: bytes, payload: P, pathLen: nat)
    requires pathLen > 0 && token != []
    ensures var front := MatchAny(Front(node, pathLen), token);
      MatchAny(AddNewChild(node, token, payload, pathLen).children, token) == if front.Some? then front
        else Some(Hit(pathLen, Some(payload)))
  {
    var at := InsertAt(node.children, pathLen);
    var leaf := Node(token, [], pathLen, pathLen, Some(payload));
    assert AddNewChild(node, token, payload, pathLen).children == node.children[..at] + ([leaf] + node.children[at..]);
    MatchAnyAppend(node.children[..at], [leaf] + node.children[at..], token);
    assert Match(leaf, token) == Some(Hit(pathLen, Some(payload)));
  }

  lemma NoChildMatches<P>(children: seq<Trie<P>>, data: bytes)
    requires forall j :: 0 <= j < |children| ==>
      children[j].suffix != [] && (data == [] || children[j].suffix[0] != data[0])
    ensures MatchAny(children, data).None?
  {
    MatchAnyNone(children, data);
  }

  lemma {:induction false} OnlyChildMatches<P>(children: seq<Trie<P>>, i: nat, data: bytes)
    requires i < |children| && Distinct(children) && data != [] && children[i].suffix != []
      && children[i].suffix[0] == data[0]
    requires forall j :: 0 <= j < |children| ==> children[j].suffix != []
    ensures MatchAny(children, data) == Match(children[i], data)
  {
    var front, back := children[..i], children[i + 1..];
    assert children == front + ([children[i]] + back);
    MatchAnyAppend(front, [children[i]] + back, data);
    MatchAnyAppend([children[i]], back, data);
    assert [children[i]][1..] == [];
    forall j | 0 <= j < |front| ensures front[j].suffix[0] != data[0] {
      assert children[j].suffix[0] != children[i].suffix[0];
    }
    forall j | 0 <= j < |back| ensures back[j].suffix[0] != data[0] {
      assert children[i].suffix[0] != children[i + 1 + j].suffix[0];
    }
    NoChildMatches(front, data);
    NoChildMatches(back, data);
  }

  /** Matching a token that was just added gives its new payload exactly if it did not end on a
      branch node; at a root without suffix, if no child in front answers with another payload. */
  lemma {:induction false} AddedAnswers<P>(node: Trie<P>, depth: nat, token: bytes, payload: P)
    requires WellFormed(node) && Deep(node, depth) && token != []
    ensures var hit := Some(Hit(depth + |token|, Some(payload)));
      Match(AddPath(node, token, payload, depth + |token|), token) == hit <==>
        if node.suffix != [] then !EndsOnBranch(node, token)
        else MatchAny(Front(node, depth + |token|), token) in {None, hit}
    decreases node
  {
    if node.suffix == [] {
      NewChildMatches(node, token, payload, depth + |token|);
      assert token[0..] == token;
    } else if EndsOnBranch(node, token) {
      AddedIsFound(node, token, payload, depth + |token|);
    } else {
      InnerAnswers(node, depth, token, payload);
    }
  }

  lemma {:induction false} InnerAnswers<P>(node: Trie<P>, depth: nat, token: bytes, payload: P)
    requires WellFormed(node) && Deep(node, depth) && token != [] && node.suffix != [] && !EndsOnBranch(node, token)
    ensures Match(AddPath(node, token, payload, depth + |token|), token) == Some(Hit(depth + |token|, Some(payload)))
    decreases node, 1
  {
    var n := Split(token, node.suffix);
    if n < |node.suffix| {
      if n < |token| { UpperAnswers(node, token, payload, depth + |token|); }
    } else if n < |token| {
      var i := ChildWith(node.children, token[n]);
      if i < |node.children| {
        DescendAnswers(node, depth, token, payload, i);
      } else {
        LeafAnswers(node, depth, token, payload);
      }
    }
  }

  lemma LeafAnswers<P>(node: Trie<P>, depth: nat, token: bytes, payload: P)
    requires WellFormed(node) && Deep(node, depth) && node.suffix != []
    requires Split(token, node.suffix) == |node.suffix| < |token|
    requires ChildWith(node.children, token[|node.suffix|]) == |node.children|
    ensures Match(AddPath(node, token, payload, depth + |token|), token) == Some(Hit(depth + |token|, Some(payload)))
  {
    var rest := token[|node.suffix|..];
    NewChildMatches(node, rest, payload, depth + |token|);
    NoChildMatches(Front(node, depth + |token|), rest);
  }

  lemma UpperAnswers<P>(node: Trie<P>, token: bytes, payload: P, pathLen: nat)
    requires pathLen > 0 && Split(token, node.suffix) < |node.suffix| && Split(token, node.suffix) < |token|
    ensures Match(AddPath(node, token, payload, pathLen), token) == Some(Hit(pathLen, Some(payload)))
  {
    var n := Split(token, node.suffix);
    var lower := node.(suffix := node.suffix[n..]);
    var upper := Node(token[..n], [lower], node.longestPath, 0, None);
    NewChildMatches(upper, token[n..], payload, pathLen);
    assert forall j :: 0 <= j < |Front(upper, pathLen)| ==> Front(upper, pathLen)[j] == lower;
    NoChildMatches(Front(upper, pathLen), token[n..]);
  }

  lemma DescendAnswers<P>(node: Trie<P>, depth: nat, token: bytes, payload: P, i: nat)
    requires WellFormed(node) && Deep(node, depth) && node.suffix != [] && !EndsOnBranch(node, token)
    requires Split(token, node.suffix) == |node.suffix| < |token| && Prefix(node.suffix, token)
    requires i < |node.children| && i == ChildWith(node.children, token[|node.suffix|])
    ensures var child' := AddPath(node.children[i], token[|node.suffix|..], payload, depth + |token|);
      Match(node.(children := node.children[i := child']), token) == Some(Hit(depth + |token|, Some(payload)))
    decreases node, 0
  {
    hide AddPath;
    var rest := token[|node.suffix|..];
    var child' := AddPath(node.children[i], rest, payload, depth + |token|);
    AddPathSuffix(node.children[i], rest, payload, depth + |token|);
    InnerAnswers(node.children[i], depth + |node.suffix|, rest, payload);
    assert forall k :: 0 <= k < |node.children| ==>
      node.children[i := child'][k].suffix[0] == node.children[k].suffix[0];
    OnlyChildMatches(node.children[i := child'], i, rest);
  }

  // ------------------------------------------- whole lists of tokens with one first byte

  predicate StartsAllWith<P>(tokens: seq<(bytes, P)>, b: byte) {
    forall i :: 0 <= i < |tokens| ==> tokens[i].0 != [] && tokens[i].0[0] == b
  }

  /** No token ended on a branch node when it was added. */
  predicate NoneOnBranch<P>(tokens: seq<(bytes, P)>) {
    forall k :: 1 <= k < |tokens| ==> !EndsOnBranch(Build(tokens[..k]), tokens[k].0)
  }

  lemma BuildLast<P>(tokens: seq<(bytes, P)>, k: nat)
    requires 1 <= k < |tokens|
    ensures Build(tokens[..k + 1]) == Add(Build(tokens[..k]), tokens[k].0, tokens[k].1)
  {
    hide AddPath;
    assert tokens[..k + 1][..k] == tokens[..k];
  }

  /** Such a trie never splits at its root. */
  lemma {:induction false} BuildKeepsFirst<P>(tokens: seq<(bytes, P)>, b: byte)
    requires tokens != [] && StartsAllWith(tokens, b)
    ensures WellFormed(Build(tokens)) && Build(tokens).suffix != [] && Build(tokens).suffix[0] == b
  {
    var n := |tokens| - 1;
    if n > 0 {
      BuildKeepsFirst(tokens[..n], b);
      AddPathWellFormed(Build(tokens[..n]), tokens[n].0, tokens[n].1, |tokens[n].0|);
      AddPathSuffix(Build(tokens[..n]), tokens[n].0, tokens[n].1, |tokens[n].0|);
    }
  }

  lemma ChildIs<P>(children: seq<Trie<P>>, i: nat, b: byte)
    requires i < |children| && Distinct(children) && children[i].suffix != [] && children[i].suffix[0] == b
    ensures ChildWith(children, b) == i
  {
  }

  /** Cutting the first bytes off a node and a token. */
  lemma TrimSplit(suffix: bytes, token: bytes, n: nat)
    requires n < |suffix| && Split(token, suffix) == |suffix|
    ensures n < |token| && suffix[..n] == token[..n] && token[n] == suffix[n]
    ensures Split(token[n..], suffix[n..]) == |suffix| - n && token[n..][|suffix| - n..] == token[|suffix|..]
  {
    var m := |suffix|;
    assert token[..m] == suffix;
    assert token[..n] == token[..m][..n] && token[n] == token[..m][n];
    assert forall i :: 0 <= i < m - n ==> token[n..][i] == token[..m][n + i] == suffix[n..][i];
    SplitIs(token[n..], suffix[n..], m - n);
  }

  lemma TrimBranch<P>(node: Trie<P>, n: nat, token: bytes)
    requires n < |node.suffix| && EndsOnBranch(node, token)
    ensures n < |token| && node.suffix[..n] == token[..n] && token[n] == node.suffix[n]
    ensures EndsOnBranch(node.(suffix := node.suffix[n..]), token[n..])
  {
    hide ChildWith, Split;
    TrimSplit(node.suffix, token, n);
  }

  /** A token on a branch node stays there, whatever is added. */
  lemma {:induction false} BranchStays<P>(node: Trie<P>, token: bytes, added: bytes, payload: P, pathLen: nat)
    requires WellFormed(node) && node.suffix != [] && EndsOnBranch(node, token)
    requires added != [] && added[0] == node.suffix[0]
    ensures EndsOnBranch(AddPath(node, added, payload, pathLen), token)
    decreases node, 1
  {
    var n := Split(added, node.suffix);
    var node' := AddPath(node, added, payload, pathLen);
    if n == |node.suffix| {
      if n < |added| {
        var i := ChildWith(node.children, added[n]);
        if i < |node.children| {
          DescendStays(node, token, added, payload, pathLen, i);
        } else {
          LeafStays(node, token, added[n..], payload, pathLen);
        }
      }
    } else {
      UpperStays(node, token, added, payload, pathLen);
    }
  }

  lemma DescendStays<P>(node: Trie<P>, token: bytes, added: bytes, payload: P, pathLen: nat, i: nat)
    requires WellFormed(node) && node.suffix != [] && EndsOnBranch(node, token)
    requires Prefix(node.suffix, added) && |node.suffix| < |added|
    requires i < |node.children| && i == ChildWith(node.children, added[|node.suffix|])
    ensures EndsOnBranch(node.(children := node.children[i := AddPath(node.children[i], added[|node.suffix|..],
      payload, pathLen)]), token)
    decreases node, 0
  {
    hide AddPath;
    var n := |node.suffix|;
    var child' := AddPath(node.children[i], added[n..], payload, pathLen);
    var children' := node.children[i := child'];
    AddPathSuffix(node.children[i], added[n..], payload, pathLen);
    if n < |token| {
      var j := ChildWith(node.children, token[n]);
      if j == i { BranchStays(node.children[i], token[n..], added[n..], payload, pathLen); }
      assert Distinct(children') by {
        assert forall k :: 0 <= k < |children'| ==> children'[k].suffix[0] == node.children[k].suffix[0];
      }
      ChildIs(children', j, token[n]);
    }
  }

  lemma LeafStays<P>(node: Trie<P>, token: bytes, rest: bytes, payload: P, pathLen: nat)
    requires WellFormed(node) && node.suffix != [] && EndsOnBranch(node, token)
    requires rest != [] && ChildWith(node.children, rest[0]) == |node.children|
    ensures EndsOnBranch(AddNewChild(node, rest, payload, pathLen), token)
  {
    var n := |node.suffix|;
    var node' := AddNewChild(node, rest, payload, pathLen);
    if n < |token| {
      var j, at := ChildWith(node.children, token[n]), InsertAt(node.children, pathLen);
      AddNewChildWellFormed(node, rest, payload, pathLen);
      var j' := if j < at then j else j + 1;
      assert node'.children[j'] == node.children[j];
      ChildIs(node'.children, j', token[n]);
    }
  }

  lemma UpperStays<P>(node: Trie<P>, token: bytes, added: bytes, payload: P, pathLen: nat)
    requires WellFormed(node) && node.suffix != [] && EndsOnBranch(node, token)
    requires added != [] && added[0] == node.suffix[0] && Split(added, node.suffix) < |node.suffix|
    ensures EndsOnBranch(AddPath(node, added, payload, pathLen), token)
  {
    var n := Split(added, node.suffix);
    var lower := node.(suffix := node.suffix[n..]);
    var node' := AddPath(node, added, payload, pathLen);
    TrimBranch(node, n, token);
    assert added[..n] == token[..n];
    assert forall k :: 0 <= k < n ==> token[k] == token[..n][k] == added[..n][k];
    SplitIs(token, added[..n], n);
    AddPathWellFormed(node, added, payload, pathLen);
    assert node'.suffix == added[..n] && n > 0;
    var j := if n < |added| then (if InsertAt([lower], pathLen) == 0 then 1 else 0) else 0;
    assert node'.children[j] == lower;
    ChildIs(node'.children, j, token[n]);
  }

  /** A token on a branch node is never the answer for itself. */
  lemma {:induction false} BranchIsShort<P>(node: Trie<P>, depth: nat, token: bytes)
    requires WellFormed(node) && Deep(node, depth) && node.suffix != [] && token != [] && EndsOnBranch(node, token)
    ensures MatchStart(node, token).Some? ==> MatchStart(node, token).value.pathLen < depth + |token|
    decreases node
  {
    var n := |node.suffix|;
    var rest := token[n..];
    if n == |token| {
      NoChild(node.children, rest);
    } else {
      var i := ChildWith(node.children, token[n]);
      OnlyChild(node.children, i, rest);
      BranchIsShort(node.children[i], depth + n, rest);
    }
  }

  lemma {:induction false} LostForever<P>(tokens: seq<(bytes, P)>, b: byte, k: nat, m: nat)
    requires StartsAllWith(tokens, b) && 1 <= k <= m <= |tokens| && k < |tokens|
    requires EndsOnBranch(Build(tokens[..k]), tokens[k].0)
    ensures EndsOnBranch(Build(tokens[..m]), tokens[k].0)
  {
    hide Build, AddPath, EndsOnBranch, WellFormed;
    if k < m {
      LostForever(tokens, b, k, m - 1);
      BuildKeepsFirst(tokens[..m - 1], b);
      BuildLast(tokens, m - 1);
      BranchStays(Build(tokens[..m - 1]), tokens[k].0, tokens[m - 1].0, tokens[m - 1].1, |tokens[m - 1].0|);
    }
  }

  /** For tokens that share their first byte, added in any order, the trie finds the longest match
      for all inputs exactly if no token ended on a branch node when it was added. */
  lemma LongestIffNoneOnBranch<P(!new)>(tokens: seq<(bytes, P)>, b: byte)
    requires tokens != [] && StartsAllWith(tokens, b) && NoDuplicates(tokens)
    ensures Answers(Build(tokens), tokens) <==> NoneOnBranch(tokens)
  {
    if NoneOnBranch(tokens) {
      NoneLost(tokens, b);
    } else {
      var k :| 1 <= k < |tokens| && EndsOnBranch(Build(tokens[..k]), tokens[k].0);
      LostIsWrong(tokens, b, k);
    }
  }

  lemma LostIsWrong<P(!new)>(tokens: seq<(bytes, P)>, b: byte, k: nat)
    requires StartsAllWith(tokens, b) && 1 <= k < |tokens| && EndsOnBranch(Build(tokens[..k]), tokens[k].0)
    ensures !Answers(Build(tokens), tokens)
  {
    hide Build, EndsOnBranch;
    var trie, token := Build(tokens), tokens[k].0;
    LostForever(tokens, b, k, |tokens|);
    assert tokens[..|tokens|] == tokens;
    BuildKeepsFirst(tokens, b);
    BuildStores(tokens);
    StoresDeep(trie, [], tokens);
    BranchIsShort(trie, 0, token);
    assert Prefix(token, token);
    assert !IsLongestMatch(tokens, token, MatchStart(trie, token));
  }

  lemma OneTokenAnswers<P(!new)>(token: bytes, payload: P)
    requires token != []
    ensures Answers(Build([(token, payload)]), [(token, payload)])
  {
    var none: seq<(bytes, P)> := [];
    forall data ensures IsLongestMatch([(token, payload)], data, MatchStart(Build([(token, payload)]), data)) {
      RaisedIsLongest(none, token, payload, data, None);
      assert none + [(token, payload)] == [(token, payload)];
    }
  }

  lemma {:induction false} NoneLost<P(!new)>(tokens: seq<(bytes, P)>, b: byte)
    requires tokens != [] && StartsAllWith(tokens, b) && NoDuplicates(tokens) && NoneOnBranch(tokens)
    ensures Answers(Build(tokens), tokens)
  {
    hide Build, AddPath, EndsOnBranch, WellFormed, Stores, Answers;
    var n := |tokens| - 1;
    var init, last := tokens[..n], tokens[n];
    assert tokens == init + [last];
    if n == 0 {
      OneTokenAnswers(last.0, last.1);
      assert tokens == [(last.0, last.1)];
    } else {
      forall k | 1 <= k < |init| ensures !EndsOnBranch(Build(init[..k]), init[k].0) { assert init[..k] == tokens[..k]; }
      NoneLost(init, b);
      BuildKeepsFirst(init, b);
      BuildStores(init);
      AddKeepsLongestIff(Build(init), init, last.0, last.1);
      BuildLast(tokens, n);
      assert tokens[..n + 1] == tokens;
    }
  }
}
