/**
 The radix trie of shared/trie.go as a value: what its operations compute, and what a trie
 built from a list of tokens finds.  TrieNode.dfy proves the in-place code against this.
 */
module Trie {
  import opened Utilities

  datatype Trie<P> = Node(suffix: bytes, children: seq<Trie<P>>, longestPath: nat, pathLen: nat, payload: Option<P>)

  /** The node a search ends in, by its `PathLen` and `Payload`. */
  datatype Hit<P> = Hit(pathLen: nat, payload: Option<P>)

  // --------------------------------------------------------------- operations

  function NewTrie<P>(data: bytes, payload: Option<P>): Trie<P> {
    Node(data, [], |data|, |data|, payload)
  }

  predicate AgreeUpTo(a: bytes, b: bytes, n: nat) { n <= |a| && n <= |b| && a[..n] == b[..n] }

  /** The length of the longest common prefix. */
  function Split(a: bytes, b: bytes): (n: nat)
    ensures AgreeUpTo(a, b, n)
    ensures n < |a| && n < |b| ==> a[n] != b[n]
  {
    if a == [] || b == [] || a[0] != b[0] then 0
    else
      var n := 1 + Split(a[1..], b[1..]);
      assert a[..n] == [a[0]] + a[1..][..n - 1] && b[..n] == [b[0]] + b[1..][..n - 1];
      assert n < |a| && n < |b| ==> a[n] == a[1..][n - 1] && b[n] == b[1..][n - 1];
      n
  }

  lemma SplitIs(a: bytes, b: bytes, n: nat)
    requires n <= |a| && n <= |b| && forall i :: 0 <= i < n ==> a[i] == b[i]
    requires n < |a| && n < |b| ==> a[n] != b[n]
    ensures n == Split(a, b)
  {
  }

  /** Where a new child goes: behind the last child with a longer path. */
  function InsertAt<P>(children: seq<Trie<P>>, pathLen: nat): (i: nat)
    ensures i <= |children|
    ensures i > 0 ==> children[i - 1].longestPath > pathLen
    ensures forall j :: i <= j < |children| ==> children[j].longestPath <= pathLen
  {
    if children == [] || children[|children| - 1].longestPath > pathLen then |children|
    else InsertAt(children[..|children| - 1], pathLen)
  }

  function AddNewChild<P>(node: Trie<P>, data: bytes, payload: P, pathLen: nat): Trie<P> {
    var i := InsertAt(node.children, pathLen);
    node.(longestPath := if node.longestPath < pathLen then pathLen else node.longestPath,
          children := node.children[..i] + [Node(data, [], pathLen, pathLen, Some(payload))] + node.children[i..])
  }

  /** The first child whose suffix starts with `b`; the number of children if there is none. */
  function ChildWith<P>(children: seq<Trie<P>>, b: byte): (i: nat)
    ensures i <= |children|
    ensures i < |children| ==> children[i].suffix != [] && children[i].suffix[0] == b
    ensures forall j :: 0 <= j < i ==> children[j].suffix == [] || children[j].suffix[0] != b
  {
    if children == [] then 0
    else if children[0].suffix != [] && children[0].suffix[0] == b then 0
    else 1 + ChildWith(children[1..], b)
  }

  function AddPath<P>(node: Trie<P>, data: bytes, payload: P, pathLen: nat): Trie<P>
    decreases node
  {
    var n := Split(data, node.suffix);
    if n == |node.suffix| then
      if n == |data| then node.(payload := Some(payload))
      else
        var rest := data[n..];
        var i := if |node.suffix| > 0 then ChildWith(node.children, rest[0]) else |node.children|;
        if i < |node.children| then
          node.(children := node.children[i := AddPath(node.children[i], rest, payload, pathLen)])
        else AddNewChild(node, rest, payload, pathLen)
    else
      var lower := node.(suffix := node.suffix[n..]);
      if n == |data| then Node(data, [lower], node.longestPath, pathLen, Some(payload))
      else AddNewChild(Node(data[..n], [lower], node.longestPath, 0, None), data[n..], payload, pathLen)
  }

  function Add<P>(node: Trie<P>, data: bytes, payload: P): Trie<P> { AddPath(node, data, payload, |data|) }

  function MatchStart<P>(node: Trie<P>, data: bytes): Option<Hit<P>>
    decreases node, 1
  {
    if !Prefix(node.suffix, data) then None
    else
      var inner := MatchStartAny(node.children, data[|node.suffix|..]);
      if inner.Some? then inner
      else if node.pathLen > 0 then Some(Hit(node.pathLen, node.payload))
      else None
  }

  /** The children are asked in order; the first answer counts. */
  function MatchStartAny<P>(children: seq<Trie<P>>, data: bytes): Option<Hit<P>>
    decreases children, 0
  {
    if children == [] then None
    else
      var first := MatchStart(children[0], data);
      if first.Some? then first else MatchStartAny(children[1..], data)
  }

  function Match<P>(node: Trie<P>, data: bytes): Option<Hit<P>>
    decreases node, 1
  {
    if !Prefix(node.suffix, data) then None
    else if |data| == |node.suffix| then
      if node.pathLen > 0 then Some(Hit(node.pathLen, node.payload)) else None
    else MatchAny(node.children, data[|node.suffix|..])
  }

  function MatchAny<P>(children: seq<Trie<P>>, data: bytes): Option<Hit<P>>
    decreases children, 0
  {
    if children == [] then None
    else
      var first := Match(children[0], data);
      if first.Some? then first else MatchAny(children[1..], data)
  }

  // The definitions again, to be used one step at a time.

  lemma MatchStartCases<P>(node: Trie<P>, data: bytes)
    ensures !Prefix(node.suffix, data) ==> MatchStart(node, data) == None
    ensures Prefix(node.suffix, data) ==> var inner := MatchStartAny(node.children, data[|node.suffix|..]);
      MatchStart(node, data) == if inner.Some? then inner
        else if node.pathLen > 0 then Some(Hit(node.pathLen, node.payload)) else None
  {
  }

  lemma MatchStartAnyCases<P>(children: seq<Trie<P>>, data: bytes)
    ensures children == [] ==> MatchStartAny(children, data) == None
    ensures children != [] ==> var first := MatchStart(children[0], data);
      MatchStartAny(children, data) == if first.Some? then first else MatchStartAny(children[1..], data)
  {
  }

  lemma MatchCases<P>(node: Trie<P>, data: bytes)
    ensures !Prefix(node.suffix, data) ==> Match(node, data) == None
    ensures Prefix(node.suffix, data) ==>
      Match(node, data) == if |data| > |node.suffix| then MatchAny(node.children, data[|node.suffix|..])
        else if node.pathLen > 0 then Some(Hit(node.pathLen, node.payload)) else None
  {
  }

  lemma MatchAnyCases<P>(children: seq<Trie<P>>, data: bytes)
    ensures children == [] ==> MatchAny(children, data) == None
    ensures children != [] ==> var first := Match(children[0], data);
      MatchAny(children, data) == if first.Some? then first else MatchAny(children[1..], data)
  {
  }

  // ---------------------------------------------------------------- structure

  predicate Distinct<P>(children: seq<Trie<P>>) {
    forall i, j :: 0 <= i < j < |children| ==>
      children[i].suffix != [] && children[j].suffix != [] ==> children[i].suffix[0] != children[j].suffix[0]
  }

  /** Children have non-empty suffixes, and below a non-empty suffix they differ in the first byte. */
  predicate WellFormed<P>(node: Trie<P>) {
    && (node.suffix != [] ==> Distinct(node.children))
    && forall i :: 0 <= i < |node.children| ==> node.children[i].suffix != [] && WellFormed(node.children[i])
  }

  /** The tokens known to a node at `depth`: their lengths are right and at most `size`; the
      recorded longest paths are at most `size`; every leaf holds a token. */
  predicate Sized<P>(node: Trie<P>, depth: nat, size: nat) {
    var end := depth + |node.suffix|;
    && (node.pathLen == 0 || node.pathLen == end)
    && end <= size && node.longestPath <= size
    && (node.children == [] ==> node.pathLen == end)
    && forall i :: 0 <= i < |node.children| ==> Sized(node.children[i], end, size)
  }

  lemma {:induction false} SizedMonotone<P>(node: Trie<P>, depth: nat, size: nat, size': nat)
    requires Sized(node, depth, size) && size <= size'
    ensures Sized(node, depth, size')
  {
    forall i | 0 <= i < |node.children| ensures Sized(node.children[i], depth + |node.suffix|, size') {
      SizedMonotone(node.children[i], depth + |node.suffix|, size, size');
    }
  }

  lemma {:induction false} MatchStartAnyNone<P>(children: seq<Trie<P>>, data: bytes)
    requires forall i :: 0 <= i < |children| ==> MatchStart(children[i], data).None?
    ensures MatchStartAny(children, data).None?
  {
    if children != [] { MatchStartAnyNone(children[1..], data); }
  }

  /** Cutting the first bytes off suffix and data changes no answer. */
  lemma TrimSuffix<P>(node: Trie<P>, n: nat, data: bytes)
    requires n <= |node.suffix| && Prefix(node.suffix[..n], data)
    ensures MatchStart(node.(suffix := node.suffix[n..]), data[n..]) == MatchStart(node, data)
  {
    var low := node.suffix[n..];
    assert node.suffix == node.suffix[..n] + low;
    if Prefix(node.suffix, data) {
      assert data[n..][..|low|] == data[..|node.suffix|][n..];
      assert data[n..][|low|..] == data[|node.suffix|..];
    } else {
      assert |data| >= |node.suffix| ==> data[..|node.suffix|] == data[..n] + data[n..][..|low|];
    }
  }

  /** Among children that differ in their first byte only one can answer. */
  lemma {:induction false} OnlyChild<P>(children: seq<Trie<P>>, i: nat, data: bytes)
    requires i < |children| && Distinct(children)
    requires forall j :: 0 <= j < |children| ==> children[j].suffix != []
    requires data != [] && children[i].suffix[0] == data[0]
    ensures MatchStartAny(children, data) == MatchStart(children[i], data)
  {
    if i == 0 {
      forall j | 1 <= j < |children| ensures MatchStart(children[j], data).None? {
        assert children[0].suffix[0] != children[j].suffix[0];
      }
      MatchStartAnyNone(children[1..], data);
    } else {
      assert children[0].suffix[0] != children[i].suffix[0];
      OnlyChild(children[1..], i - 1, data);
    }
  }

  lemma NoChild<P>(children: seq<Trie<P>>, data: bytes)
    requires forall j :: 0 <= j < |children| ==>
      children[j].suffix != [] && (data == [] || children[j].suffix[0] != data[0])
    ensures MatchStartAny(children, data).None?
  {
    MatchStartAnyNone(children, data);
  }

  // ------------------------------------------------- adding in order of length

  /** A leaf of a trie of known tokens ends no deeper than the longest of them. */
  lemma {:induction false} ChildrenAreDeeper<P>(node: Trie<P>, depth: nat, size: nat)
    requires WellFormed(node) && Sized(node, depth, size) && size <= depth + |node.suffix|
    ensures node.children == [] && node.pathLen == size == depth + |node.suffix|
  {
    assert node.children != [] ==> Sized(node.children[0], depth + |node.suffix|, size);
  }

  lemma EndsInside<P>(node: Trie<P>, depth: nat, size: nat)
    requires WellFormed(node) && Sized(node, depth, size)
    ensures depth + |node.suffix| <= size
  {
    if size <= depth + |node.suffix| { ChildrenAreDeeper(node, depth, size); }
  }

  /** The answer after adding the token `data` with `payload`, if it is not shorter than the others. */
  function Updated<P>(before: Option<Hit<P>>, token: bytes, payload: P, pathLen: nat, data: bytes): Option<Hit<P>> {
    if Prefix(token, data) then Some(Hit(pathLen, Some(payload))) else before
  }

  /** A new leaf in front of all children. */
  lemma LeafFirst<P>(node: Trie<P>, token: bytes, payload: P, pathLen: nat, data: bytes)
    requires pathLen > 0
    requires forall j :: 0 <= j < |node.children| ==> node.children[j].longestPath <= pathLen
    ensures AddNewChild(node, token, payload, pathLen).children
      == [Node(token, [], pathLen, pathLen, Some(payload))] + node.children
    ensures MatchStartAny(AddNewChild(node, token, payload, pathLen).children, data)
         == Updated(MatchStartAny(node.children, data), token, payload, pathLen, data)
  {
    var leaf := Node(token, [], pathLen, pathLen, Some(payload));
    var children := AddNewChild(node, token, payload, pathLen).children;
    assert children == [leaf] + node.children;
    assert children[1..] == node.children;
    assert MatchStart(leaf, data) == if Prefix(token, data) then Some(Hit(pathLen, Some(payload))) else None;
  }

  lemma PrefixSplit(head: bytes, tail: bytes, data: bytes)
    ensures Prefix(head + tail, data) <==> Prefix(head, data) && Prefix(tail, data[|head|..])
  {
    if Prefix(head + tail, data) {
      assert data[..|head + tail|] == head + tail;
      assert data[..|head|] == (head + tail)[..|head|];
      assert data[|head|..][..|tail|] == (head + tail)[|head|..];
    } else {
      assert Prefix(head, data) && |head + tail| <= |data| ==>
        data[..|head + tail|] == data[..|head|] + data[|head|..][..|tail|];
    }
  }

  /** One step of the longest-match theorem: a token at least as long as all others takes over
      exactly the inputs it is a prefix of. */
  lemma {:induction false} AddPathFinds<P>(node: Trie<P>, depth: nat, token: bytes, payload: P, data: bytes)
    requires WellFormed(node) && token != [] && Sized(node, depth, depth + |token|)
    ensures MatchStart(AddPath(node, token, payload, depth + |token|), data)
         == Updated(MatchStart(node, data), token, payload, depth + |token|, data)
    decreases node
  {
    var n := Split(token, node.suffix);
    if n == |node.suffix| {
      if n == |token| {
        ChildrenAreDeeper(node, depth, depth + |token|);
      } else if |node.suffix| > 0 && ChildWith(node.children, token[n]) < |node.children| {
        DescendFinds(node, depth, token, payload, data, ChildWith(node.children, token[n]));
      } else {
        NewLeafFinds(node, depth, token, payload, data);
      }
    } else {
      EndsInside(node, depth, depth + |token|);
      SplitFinds(node, depth, token, payload, data);
    }
  }

  lemma NewLeafFinds<P>(node: Trie<P>, depth: nat, token: bytes, payload: P, data: bytes)
    requires Sized(node, depth, depth + |token|) && Prefix(node.suffix, token) && |node.suffix| < |token|
    ensures MatchStart(AddNewChild(node, token[|node.suffix|..], payload, depth + |token|), data)
         == Updated(MatchStart(node, data), token, payload, depth + |token|, data)
  {
    var n := |node.suffix|;
    assert token == node.suffix + token[n..];
    PrefixSplit(node.suffix, token[n..], data);
    if Prefix(node.suffix, data) { LeafFirst(node, token[n..], payload, depth + |token|, data[n..]); }
  }

  lemma SplitFinds<P>(node: Trie<P>, depth: nat, token: bytes, payload: P, data: bytes)
    requires Sized(node, depth, depth + |token|)
    requires var n := Split(token, node.suffix); n < |node.suffix| && n < |token|
    ensures MatchStart(AddPath(node, token, payload, depth + |token|), data)
         == Updated(MatchStart(node, data), token, payload, depth + |token|, data)
  {
    hide MatchStart, MatchStartAny, AddPath, AddNewChild, Sized;
    var n := Split(token, node.suffix);
    var head := token[..n];
    assert token == head + token[n..];
    assert node.suffix == head + node.suffix[n..];
    PrefixSplit(head, token[n..], data);
    PrefixSplit(head, node.suffix[n..], data);
    var upper := Node(head, [node.(suffix := node.suffix[n..])], node.longestPath, 0, None);
    var added := AddNewChild(upper, token[n..], payload, depth + |token|);
    SplitsHere(node, token, payload, depth + |token|);
    NewChildShape(upper, token[n..], payload, depth + |token|);
    MatchStartCases(added, data);
    if Prefix(head, data) {
      SizedIsDeep(node, depth, depth + |token|);
      LeafFirst(upper, token[n..], payload, depth + |token|, data[n..]);
      TrimSuffix(node, n, data);
      OneChildAnswers(upper.children[0], data[n..]);
    } else {
      MatchStartCases(node, data);
    }
  }

  lemma SizedIsDeep<P>(node: Trie<P>, depth: nat, size: nat)
    requires Sized(node, depth, size)
    ensures node.longestPath <= size
  {
  }

  lemma SplitsHere<P>(node: Trie<P>, token: bytes, payload: P, pathLen: nat)
    requires var n := Split(token, node.suffix); n < |node.suffix| && n < |token|
    ensures var n := Split(token, node.suffix);
      AddPath(node, token, payload, pathLen)
        == AddNewChild(Node(token[..n], [node.(suffix := node.suffix[n..])], node.longestPath, 0, None), token[n..],
          payload, pathLen)
  {
  }

  lemma NewChildShape<P>(node: Trie<P>, token: bytes, payload: P, pathLen: nat)
    ensures var node' := AddNewChild(node, token, payload, pathLen);
      node'.suffix == node.suffix && node'.pathLen == node.pathLen && node'.payload == node.payload
  {
  }

  lemma OneChildAnswers<P>(child: Trie<P>, data: bytes)
    ensures MatchStartAny([child], data) == MatchStart(child, data)
  {
  }

  lemma DescendFinds<P>(node: Trie<P>, depth: nat, token: bytes, payload: P, data: bytes, i: nat)
    requires WellFormed(node) && Sized(node, depth, depth + |token|)
    requires node.suffix != [] && Prefix(node.suffix, token) && |node.suffix| < |token|
    requires i < |node.children| && i == ChildWith(node.children, token[|node.suffix|])
    ensures var n := |node.suffix|;
      MatchStart(node.(children := node.children[i := AddPath(node.children[i], token[n..], payload,
        depth + |token|)]), data)
        == Updated(MatchStart(node, data), token, payload, depth + |token|, data)
    decreases node, 0
  {
    hide AddPath;
    var n := |node.suffix|;
    var rest := token[n..];
    var child := node.children[i];
    var child' := AddPath(child, rest, payload, depth + |token|);
    assert token == node.suffix + rest;
    PrefixSplit(node.suffix, rest, data);
    AddPathSuffix(child, rest, payload, depth + |token|);
    if Prefix(node.suffix, data) {
      AddPathFinds(child, depth + n, rest, payload, data[n..]);
      ReplacedChild(node.children, i, child', data[n..]);
    }
  }

  /** Replacing the child for one first byte changes the answers for that byte only. */
  lemma ReplacedChild<P>(children: seq<Trie<P>>, i: nat, child: Trie<P>, data: bytes)
    requires i < |children| && Distinct(children)
    requires forall j :: 0 <= j < |children| ==> children[j].suffix != []
    requires child.suffix != [] && child.suffix[0] == children[i].suffix[0]
    ensures MatchStartAny(children[i := child], data)
         == if data != [] && data[0] == child.suffix[0] then MatchStart(child, data) else MatchStartAny(children, data)
    ensures data != [] && data[0] == child.suffix[0] ==> MatchStartAny(children, data) == MatchStart(children[i], data)
  {
    if data == [] {
      NoChild(children, data);
      NoChild(children[i := child], data);
    } else if data[0] == child.suffix[0] {
      OnlyChild(children, i, data);
      OnlyChild(children[i := child], i, data);
    } else {
      SameElsewhere(children, i, child, data);
    }
  }

  /** Below the root a child keeps its first byte. */
  lemma AddPathSuffix<P>(node: Trie<P>, token: bytes, payload: P, pathLen: nat)
    requires node.suffix != [] && token != [] && node.suffix[0] == token[0]
    ensures AddPath(node, token, payload, pathLen).suffix != []
    ensures AddPath(node, token, payload, pathLen).suffix[0] == node.suffix[0]
  {
  }

  lemma {:induction false} SameElsewhere<P>(children: seq<Trie<P>>, i: nat, child: Trie<P>, data: bytes)
    requires i < |children| && data != []
    requires children[i].suffix != [] && child.suffix != [] && children[i].suffix[0] == child.suffix[0] != data[0]
    ensures MatchStartAny(children[i := child], data) == MatchStartAny(children, data)
  {
    assert MatchStart(child, data).None? && MatchStart(children[i], data).None?;
    if i == 0 {
      assert children[0 := child][1..] == children[1..];
    } else {
      assert children[i := child][1..] == children[1..][i - 1 := child];
      SameElsewhere(children[1..], i - 1, child, data);
    }
  }

  lemma AddNewChildWellFormed<P>(node: Trie<P>, data: bytes, payload: P, pathLen: nat)
    requires WellFormed(node) && data != []
    requires node.suffix != [] ==> ChildWith(node.children, data[0]) == |node.children|
    ensures WellFormed(AddNewChild(node, data, payload, pathLen))
  {
    var leaf := Node(data, [], pathLen, pathLen, Some(payload));
    var at := InsertAt(node.children, pathLen);
    assert WellFormed(leaf);
    InsertWellFormed(node.children, at, leaf);
    if node.suffix != [] { InsertDistinct(node.children, at, leaf); }
  }

  lemma InsertWellFormed<P>(children: seq<Trie<P>>, at: nat, leaf: Trie<P>)
    requires at <= |children| && leaf.suffix != [] && WellFormed(leaf)
    requires forall j :: 0 <= j < |children| ==> children[j].suffix != [] && WellFormed(children[j])
    ensures var all := children[..at] + [leaf] + children[at..];
      forall j :: 0 <= j < |all| ==> all[j].suffix != [] && WellFormed(all[j])
  {
    var all := children[..at] + [leaf] + children[at..];
    forall j | 0 <= j < |all| ensures all[j].suffix != [] && WellFormed(all[j]) {
      assert all[j] == if j < at then children[j] else if j == at then leaf else children[j - 1];
    }
  }

  lemma InsertDistinct<P>(children: seq<Trie<P>>, at: nat, leaf: Trie<P>)
    requires at <= |children| && Distinct(children) && leaf.suffix != []
    requires forall j :: 0 <= j < |children| ==> children[j].suffix != [] && children[j].suffix[0] != leaf.suffix[0]
    ensures Distinct(children[..at] + [leaf] + children[at..])
  {
    var all := children[..at] + [leaf] + children[at..];
    assert forall j :: 0 <= j < |all| ==> all[j] == if j < at then children[j] else if j == at then leaf
      else children[j - 1];
  }

  lemma {:induction false} AddPathWellFormed<P>(node: Trie<P>, data: bytes, payload: P, pathLen: nat)
    requires WellFormed(node)
    ensures WellFormed(AddPath(node, data, payload, pathLen))
    decreases node
  {
    var n := Split(data, node.suffix);
    if n == |node.suffix| {
      if n < |data| {
        var i := if |node.suffix| > 0 then ChildWith(node.children, data[n]) else |node.children|;
        if i < |node.children| {
          AddPathWellFormed(node.children[i], data[n..], payload, pathLen);
          AddPathSuffix(node.children[i], data[n..], payload, pathLen);
        } else {
          AddNewChildWellFormed(node, data[n..], payload, pathLen);
        }
      }
    } else if n < |data| {
      AddNewChildWellFormed(Node(data[..n], [node.(suffix := node.suffix[n..])], node.longestPath, 0, None), data[n..],
        payload, pathLen);
    }
  }

  lemma {:induction false} AddPathSized<P>(node: Trie<P>, depth: nat, token: bytes, payload: P)
    requires WellFormed(node) && Sized(node, depth, depth + |token|)
    ensures Sized(AddPath(node, token, payload, depth + |token|), depth, depth + |token|)
    decreases node
  {
    hide Sized;
    var size := depth + |token|;
    var n := Split(token, node.suffix);
    var rest := token[n..];
    SizedParts(node, depth, size);
    if n == |node.suffix| {
      if n == |token| {
        PayloadSized(node, depth, size, payload);
      } else {
        var i := if |node.suffix| > 0 then ChildWith(node.children, rest[0]) else |node.children|;
        if i < |node.children| {
          AddPathSized(node.children[i], depth + n, rest, payload);
          ChildSized(node, depth, size, i, AddPath(node.children[i], rest, payload, size));
        } else {
          NewLeafSized(node, depth, rest, payload, size);
        }
      }
    } else if n < |token| {
      LowerSized(node, depth, n, size);
      SplitSized(token[..n], node.(suffix := node.suffix[n..]), depth, rest, payload, size);
    }
  }

  lemma SizedParts<P>(node: Trie<P>, depth: nat, size: nat)
    requires Sized(node, depth, size)
    ensures depth + |node.suffix| <= size
    ensures forall i :: 0 <= i < |node.children| ==> Sized(node.children[i], depth + |node.suffix|, size)
  {
  }

  lemma PayloadSized<P>(node: Trie<P>, depth: nat, size: nat, payload: P)
    requires Sized(node, depth, size)
    ensures Sized(node.(payload := Some(payload)), depth, size)
  {
  }

  lemma ChildSized<P>(node: Trie<P>, depth: nat, size: nat, i: nat, child: Trie<P>)
    requires Sized(node, depth, size) && i < |node.children| && Sized(child, depth + |node.suffix|, size)
    ensures Sized(node.(children := node.children[i := child]), depth, size)
  {
  }

  lemma LowerSized<P>(node: Trie<P>, depth: nat, n: nat, size: nat)
    requires Sized(node, depth, size) && n <= |node.suffix|
    ensures Sized(node.(suffix := node.suffix[n..]), depth + n, size)
  {
    assert depth + n + |node.suffix[n..]| == depth + |node.suffix|;
  }

  lemma NewLeafSized<P>(node: Trie<P>, depth: nat, rest: bytes, payload: P, size: nat)
    requires Sized(node, depth, size) && size == depth + |node.suffix| + |rest|
    ensures Sized(AddNewChild(node, rest, payload, size), depth, size)
  {
    assert Sized(Node(rest, [], size, size, Some(payload)), depth + |node.suffix|, size);
  }

  lemma SplitSized<P>(head: bytes, lower: Trie<P>, depth: nat, rest: bytes, payload: P, size: nat)
    requires Sized(lower, depth + |head|, size) && size == depth + |head| + |rest|
    ensures Sized(AddNewChild(Node(head, [lower], lower.longestPath, 0, None), rest, payload, size), depth, size)
  {
    assert Sized(Node(rest, [], size, size, Some(payload)), depth + |head|, size);
  }

  // ------------------------------------------------------ tries made of a list

  /** The trie after `NewTrie` with the first token and `Add` with the others. */
  function Build<P>(tokens: seq<(bytes, P)>): Trie<P>
    requires tokens != []
  {
    var (token, payload) := tokens[|tokens| - 1];
    if |tokens| == 1 then NewTrie(token, Some(payload))
    else Add(Build(tokens[..|tokens| - 1]), token, payload)
  }

  predicate NonEmpty<P>(tokens: seq<(bytes, P)>) { forall i :: 0 <= i < |tokens| ==> tokens[i].0 != [] }

  predicate ByLength<P>(tokens: seq<(bytes, P)>) {
    forall i, j :: 0 <= i < j < |tokens| ==> |tokens[i].0| <= |tokens[j].0|
  }

  /** Token `i` is the longest one that is a prefix of `data`, and the last of these. */
  predicate IsLongest<P>(tokens: seq<(bytes, P)>, data: bytes, i: nat) {
    && i < |tokens| && Prefix(tokens[i].0, data)
    && forall j :: 0 <= j < |tokens| && Prefix(tokens[j].0, data) ==>
         |tokens[j].0| < |tokens[i].0| || (|tokens[j].0| == |tokens[i].0| && j <= i)
  }

  ghost predicate IsLongestMatch<P>(tokens: seq<(bytes, P)>, data: bytes, answer: Option<Hit<P>>) {
    match answer
    case None => forall i :: 0 <= i < |tokens| ==> !Prefix(tokens[i].0, data)
    case Some(hit) => exists i: nat :: IsLongest(tokens, data, i) && hit == Hit(|tokens[i].0|, Some(tokens[i].1))
  }

  lemma SizedStep<P>(trie: Trie<P>, token: bytes, payload: P)
    requires WellFormed(trie) && Sized(trie, 0, |token|)
    ensures WellFormed(Add(trie, token, payload)) && Sized(Add(trie, token, payload), 0, |token|)
  {
    AddPathWellFormed(trie, token, payload, |token|);
    AddPathSized(trie, 0, token, payload);
  }

  lemma {:induction false} BuildIsSized<P>(tokens: seq<(bytes, P)>)
    requires tokens != [] && ByLength(tokens)
    ensures WellFormed(Build(tokens)) && Sized(Build(tokens), 0, |tokens[|tokens| - 1].0|)
    decreases |tokens|, 1
  {
    if |tokens| > 1 {
      var init := Build(tokens[..|tokens| - 1]);
      var (token, payload) := tokens[|tokens| - 1];
      InitIsSized(tokens);
      SizedStep(init, token, payload);
      assert Build(tokens) == Add(init, token, payload);
    }
  }

  lemma {:induction false} InitIsSized<P>(tokens: seq<(bytes, P)>)
    requires |tokens| > 1 && ByLength(tokens)
    ensures var init := Build(tokens[..|tokens| - 1]);
      WellFormed(init) && Sized(init, 0, |tokens[|tokens| - 1].0|)
    decreases |tokens|, 0
  {
    var init := tokens[..|tokens| - 1];
    BuildIsSized(init);
    SizedMonotone(Build(init), 0, |init[|init| - 1].0|, |tokens[|tokens| - 1].0|);
  }

  lemma LongestExtends<P>(tokens: seq<(bytes, P)>, token: bytes, payload: P, data: bytes, answer: Option<Hit<P>>)
    requires IsLongestMatch(tokens, data, answer)
    requires forall i :: 0 <= i < |tokens| ==> |tokens[i].0| <= |token|
    ensures IsLongestMatch(tokens + [(token, payload)], data, Updated(answer, token, payload, |token|, data))
  {
    var all := tokens + [(token, payload)];
    assert forall i :: 0 <= i < |tokens| ==> all[i] == tokens[i];
    if Prefix(token, data) {
      assert IsLongest(all, data, |tokens|);
    } else if answer.Some? {
      var i: nat :| IsLongest(tokens, data, i) && answer.value == Hit(|tokens[i].0|, Some(tokens[i].1));
      assert IsLongest(all, data, i);
    }
  }

  lemma LastTokenTakesOver<P>(tokens: seq<(bytes, P)>, data: bytes)
    requires |tokens| > 1 && tokens[|tokens| - 1].0 != [] && ByLength(tokens)
    ensures var last := |tokens| - 1; var (token, payload) := tokens[last];
      MatchStart(Build(tokens), data) == Updated(MatchStart(Build(tokens[..last]), data), token, payload, |token|, data)
  {
    hide WellFormed, Sized, MatchStart, AddPath;
    var init := Build(tokens[..|tokens| - 1]);
    var (token, payload) := tokens[|tokens| - 1];
    InitIsSized(tokens);
    AddPathFinds(init, 0, token, payload, data);
    assert Build(tokens) == Add(init, token, payload);
  }

  /** For tokens added in order of their length, MatchStart finds the longest one that is a
      prefix of the data, with the payload it was given last, and nothing iff none is. */
  lemma {:induction false} MatchStartIsLongest<P>(tokens: seq<(bytes, P)>, data: bytes)
    requires tokens != [] && NonEmpty(tokens) && ByLength(tokens)
    ensures IsLongestMatch(tokens, data, MatchStart(Build(tokens), data))
  {
    var last := |tokens| - 1;
    var (token, payload) := tokens[last];
    assert tokens == tokens[..last] + [(token, payload)];
    if last == 0 {
      LongestExtends([], token, payload, data, None);
    } else {
      hide Build, MatchStart, IsLongestMatch;
      MatchStartIsLongest(tokens[..last], data);
      LastTokenTakesOver(tokens, data);
      assert forall i :: 0 <= i < |tokens[..last]| ==> tokens[..last][i] == tokens[i];
      LongestExtends(tokens[..last], token, payload, data, MatchStart(Build(tokens[..last]), data));
    }
  }

  /** The longest match is unique, so the theorem pins the answer down. */
  lemma LongestMatchUnique<P>(tokens: seq<(bytes, P)>, data: bytes, a: Option<Hit<P>>, b: Option<Hit<P>>)
    requires IsLongestMatch(tokens, data, a) && IsLongestMatch(tokens, data, b)
    ensures a == b
  {
    if a.Some? && b.Some? {
      var i: nat :| IsLongest(tokens, data, i) && a.value == Hit(|tokens[i].0|, Some(tokens[i].1));
      var j: nat :| IsLongest(tokens, data, j) && b.value == Hit(|tokens[j].0|, Some(tokens[j].1));
      assert i == j;
    }
  }

  // --------------------------------------------------------- adding in any order

  /** Every token stored in the node, behind `path`, is one of the tokens, with its length and
      one of its payloads. */
  predicate Stores<P(==)>(node: Trie<P>, path: bytes, tokens: seq<(bytes, P)>) {
    && (node.pathLen > 0 ==>
      node.payload.Some? && (path + node.suffix, node.payload.value) in tokens && node.pathLen == |path + node.suffix|)
    && forall i :: 0 <= i < |node.children| ==> Stores(node.children[i], path + node.suffix, tokens)
  }

  lemma {:induction false} StoresMore<P>(node: Trie<P>, path: bytes, tokens: seq<(bytes, P)>, more: seq<(bytes, P)>)
    requires Stores(node, path, tokens)
    ensures Stores(node, path, tokens + more)
  {
    forall i | 0 <= i < |node.children| ensures Stores(node.children[i], path + node.suffix, tokens + more) {
      StoresMore(node.children[i], path + node.suffix, tokens, more);
    }
  }

  /** Moving the cut between path and suffix changes nothing. */
  lemma StoresLower<P>(node: Trie<P>, path: bytes, n: nat, tokens: seq<(bytes, P)>)
    requires n <= |node.suffix| && Stores(node, path, tokens)
    ensures Stores(node.(suffix := node.suffix[n..]), path + node.suffix[..n], tokens)
  {
    assert path + node.suffix[..n] + node.suffix[n..] == path + node.suffix;
  }

  lemma StoresNewChild<P>(node: Trie<P>, path: bytes, data: bytes, payload: P, tokens: seq<(bytes, P)>)
    requires Stores(node, path, tokens) && (path + node.suffix + data, payload) in tokens
    ensures Stores(AddNewChild(node, data, payload, |path + node.suffix + data|), path, tokens)
  {
    var leaf := Node(data, [], |path + node.suffix + data|, |path + node.suffix + data|, Some(payload));
    assert Stores(leaf, path + node.suffix, tokens);
    var at := InsertAt(node.children, leaf.pathLen);
    var all := node.children[..at] + [leaf] + node.children[at..];
    forall j | 0 <= j < |all| ensures Stores(all[j], path + node.suffix, tokens) {
      assert all[j] == if j < at then node.children[j] else if j == at then leaf else node.children[j - 1];
    }
  }

  lemma {:induction false} AddPathStores<P>(node: Trie<P>, path: bytes, data: bytes, payload: P,
                                            tokens: seq<(bytes, P)>)
    requires Stores(node, path, tokens) && (path + data, payload) in tokens
    ensures Stores(AddPath(node, data, payload, |path + data|), path, tokens)
    decreases node
  {
    var n := Split(data, node.suffix);
    var head, rest := data[..n], data[n..];
    assert path + data == (path + head) + rest;
    assert node.suffix[..n] == head;
    assert n == |data| ==> head == data;
    if n == |node.suffix| {
      assert node.suffix == head;
      if n < |data| {
        var i := if |node.suffix| > 0 then ChildWith(node.children, rest[0]) else |node.children|;
        if i < |node.children| {
          AddPathStores(node.children[i], path + head, rest, payload, tokens);
        } else {
          StoresNewChild(node, path, rest, payload, tokens);
        }
      }
    } else {
      StoresLower(node, path, n, tokens);
      if n < |data| {
        StoresNewChild(Node(head, [node.(suffix := node.suffix[n..])], node.longestPath, 0, None), path, rest, payload,
          tokens);
      }
    }
  }

  lemma {:induction false} BuildStores<P>(tokens: seq<(bytes, P)>)
    requires tokens != []
    ensures Stores(Build(tokens), [], tokens)
  {
    var last := |tokens| - 1;
    assert [] + tokens[last].0 == tokens[last].0;
    if last > 0 {
      BuildStores(tokens[..last]);
      assert tokens == tokens[..last] + [tokens[last]];
      StoresMore(Build(tokens[..last]), [], tokens[..last], [tokens[last]]);
      AddPathStores(Build(tokens[..last]), [], tokens[last].0, tokens[last].1, tokens);
    }
  }

  lemma {:induction false} StoresFinds<P>(node: Trie<P>, path: bytes, tokens: seq<(bytes, P)>, data: bytes)
    requires Stores(node, path, tokens) && MatchStart(node, data).Some?
    ensures var hit := MatchStart(node, data).value;
      |path| <= hit.pathLen <= |path| + |data| && hit.payload.Some?
      && (path + data[..hit.pathLen - |path|], hit.payload.value) in tokens
    decreases node, 1
  {
    var rest := data[|node.suffix|..];
    if MatchStartAny(node.children, rest).Some? {
      StoresFindsAny(node.children, path + node.suffix, tokens, rest);
      var hit := MatchStart(node, data).value;
      assert data == node.suffix + rest;
      assert path + data[..hit.pathLen - |path|] == path + node.suffix + rest[..hit.pathLen - |path + node.suffix|];
    }
  }

  lemma {:induction false} StoresFindsAny<P>(children: seq<Trie<P>>, path: bytes, tokens: seq<(bytes, P)>, data: bytes)
    requires forall i :: 0 <= i < |children| ==> Stores(children[i], path, tokens)
    requires MatchStartAny(children, data).Some?
    ensures var hit := MatchStartAny(children, data).value;
      |path| <= hit.pathLen <= |path| + |data| && hit.payload.Some?
      && (path + data[..hit.pathLen - |path|], hit.payload.value) in tokens
    decreases children, 0
  {
    if MatchStart(children[0], data).Some? {
      StoresFinds(children[0], path, tokens, data);
    } else {
      StoresFindsAny(children[1..], path, tokens, data);
    }
  }

  /** In whatever order tokens are added, an answer always spells an added token that is a
      prefix of the data, with a payload it was added with. */
  lemma MatchStartIsSound<P>(tokens: seq<(bytes, P)>, data: bytes)
    requires tokens != [] && MatchStart(Build(tokens), data).Some?
    ensures var hit := MatchStart(Build(tokens), data).value;
      exists i :: 0 <= i < |tokens| && Prefix(tokens[i].0, data) && hit == Hit(|tokens[i].0|, Some(tokens[i].1))
  {
    BuildStores(tokens);
    StoresFinds(Build(tokens), [], tokens, data);
    var hit := MatchStart(Build(tokens), data).value;
    assert [] + data[..hit.pathLen - 0] == data[..hit.pathLen];
    var i :| 0 <= i < |tokens| && tokens[i] == (data[..hit.pathLen], hit.payload.value);
  }

  /** The token ends on an existing branch node, which never gets a path length. */
  predicate EndsOnBranch<P>(node: Trie<P>, data: bytes)
    decreases node
  {
    var n := Split(data, node.suffix);
    n == |node.suffix| &&
    if n == |data| then node.pathLen == 0
    else
      var i := if |node.suffix| > 0 then ChildWith(node.children, data[n]) else |node.children|;
      i < |node.children| && EndsOnBranch(node.children[i], data[n..])
  }

  lemma {:induction false} MatchAnySome<P>(children: seq<Trie<P>>, i: nat, data: bytes)
    requires i < |children| && Match(children[i], data).Some?
    ensures MatchAny(children, data).Some?
  {
    if i > 0 { MatchAnySome(children[1..], i - 1, data); }
  }

  lemma {:induction false} MatchAnyNone<P>(children: seq<Trie<P>>, data: bytes)
    requires forall i :: 0 <= i < |children| ==> Match(children[i], data).None?
    ensures MatchAny(children, data).None?
  {
    if children != [] { MatchAnyNone(children[1..], data); }
  }

  /** A token that was just added is found, in any trie, exactly if it did not end on a branch. */
  lemma {:induction false} AddedIsFound<P>(node: Trie<P>, data: bytes, payload: P, pathLen: nat)
    requires WellFormed(node) && data != [] && pathLen > 0
    ensures Match(AddPath(node, data, payload, pathLen), data).Some? <==> !EndsOnBranch(node, data)
    decreases node
  {
    var n := Split(data, node.suffix);
    var rest := data[n..];
    var node' := AddPath(node, data, payload, pathLen);
    assert data[..n] == node.suffix[..n];
    if n < |data| {
      var leaf := Node(rest, [], pathLen, pathLen, Some(payload));
      assert Match(leaf, rest).Some?;
      if n == |node.suffix| {
        var i := if |node.suffix| > 0 then ChildWith(node.children, data[n]) else |node.children|;
        if i < |node.children| {
          AddedIsFound(node.children[i], rest, payload, pathLen);
          if EndsOnBranch(node.children[i], rest) {
            forall j | 0 <= j < |node'.children| ensures Match(node'.children[j], rest).None? {
              if j != i { assert node.children[j].suffix[0] != node.children[i].suffix[0]; }
            }
            MatchAnyNone(node'.children, rest);
          } else {
            MatchAnySome(node'.children, i, rest);
          }
        } else {
          var at := InsertAt(node.children, pathLen);
          assert node'.children[at] == leaf;
          MatchAnySome(node'.children, at, rest);
        }
      } else {
        var at := InsertAt([node.(suffix := node.suffix[n..])], pathLen);
        assert node'.children[at] == leaf;
        MatchAnySome(node'.children, at, rest);
      }
    }
  }

  /** The order of insertion matters: after "ab" and "ac" the token "a" is added in vain. */
  lemma BranchTokenIsLost()
    ensures var tokens: seq<(bytes, int)> := [([97, 98], 1), ([97, 99], 2), ([97], 3)];
      Prefix(tokens[2].0, [97]) && MatchStart(Build(tokens), [97]).None? && !IsLongestMatch(tokens, [97], None)
  {
    var t0, t1, t2 := ([97 as byte, 98 as byte], 1), ([97 as byte, 99 as byte], 2), ([97 as byte], 3);
    assert [t0, t1, t2][..2] == [t0, t1] && [t0, t1][..1] == [t0];
    var leafB, leafC := Node([98 as byte], [], 2, 2, Some(1)), Node([99 as byte], [], 2, 2, Some(2));
    assert Build([t0]) == Node([97, 98], [], 2, 2, Some(1));
    assert Split([97, 99], [97, 98]) == 1;
    assert Build([t0, t1]) == Node([97], [leafC, leafB], 2, 0, None);
    assert Split([97], [97]) == 1;
    assert Build([t0, t1, t2]) == Node([97], [leafC, leafB], 2, 0, Some(3));
    assert [leafC, leafB][1..] == [leafB];
    assert MatchStartAny([leafB], []) == None && MatchStartAny([leafC, leafB], []) == None;
    assert [97 as byte][1..] == [];
    assert Prefix(t2.0, [97]);
  }

  /** The trie of the tokens "abc", "a", "x", "ab". */
  lemma FourTokens()
    ensures var bc := Node([98 as byte, 99 as byte], [], 3, 3, Some(1));
      var a := Node([97 as byte], [bc], 3, 1, Some(2));
      var x, ab := Node([120 as byte], [], 1, 1, Some(3)), Node([97 as byte, 98 as byte], [], 2, 2, Some(4));
      Build([([97 as byte, 98 as byte, 99 as byte], 1), ([97 as byte], 2), ([120 as byte], 3),
             ([97 as byte, 98 as byte], 4)])
        == Node([], [a, ab, x], 3, 0, None)
  {
    var t0, t1 := ([97 as byte, 98 as byte, 99 as byte], 1), ([97 as byte], 2);
    var t2, t3 := ([120 as byte], 3), ([97 as byte, 98 as byte], 4);
    assert [t0, t1, t2, t3][..3] == [t0, t1, t2] && [t0, t1, t2][..2] == [t0, t1] && [t0, t1][..1] == [t0];
    var a := Node([97 as byte], [Node([98 as byte, 99 as byte], [], 3, 3, Some(1))], 3, 1, Some(2));
    var x := Node([120 as byte], [], 1, 1, Some(3));
    assert Build([t0]) == Node([97, 98, 99], [], 3, 3, Some(1));
    assert Split([97], [97, 98, 99]) == 1;
    assert Build([t0, t1]) == a;
    assert Split([120], [97]) == 0;
    assert Build([t0, t1, t2]) == Node([], [a, x], 3, 0, None);
    assert Split([97, 98], []) == 0;
    assert InsertAt([a, x], 2) == 1 by { assert [a, x][..1] == [a]; }
  }

  /** Under a root without suffix children are never merged: after "abc", "a", "x" the token
      "ab" stands behind "a", and "a" answers for "abz". */
  lemma ShorterTokenAnswers()
    ensures var tokens: seq<(bytes, int)> := [([97, 98, 99], 1), ([97], 2), ([120], 3), ([97, 98], 4)];
      MatchStart(Build(tokens), [97, 98, 122]) == Some(Hit(1, Some(2))) && Prefix(tokens[3].0, [97, 98, 122])
  {
    hide Build;
    FourTokens();
    var bc := Node([98 as byte, 99 as byte], [], 3, 3, Some(1));
    var a := Node([97 as byte], [bc], 3, 1, Some(2));
    assert [97 as byte, 98, 122][1..] == [98, 122];
    assert [98 as byte, 122][..2][1] == 122;
    assert MatchStart(bc, [98, 122]) == None;
    assert MatchStartAny([bc], [98, 122]) == None;
    assert MatchStart(a, [97, 98, 122]) == Some(Hit(1, Some(2)));
    assert [97 as byte, 98, 122][0..] == [97, 98, 122];
  }
}
