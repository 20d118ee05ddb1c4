/** The in-place trie nodes of shared/trie.go, proved against the values of module Trie. */
module TrieNodes {
  import opened Utilities
  import Trie

  class TrieNode<P> {
    var suffix: bytes
    var children: seq<TrieNode<P>>
    var longestPath: nat
    var pathLen: nat
    var payload: Option<P>
    /** The trie below this node as a value, and the objects it is made of. */
    ghost var model: Trie.Trie<P>
    ghost var repr: set<object>

    /** What a parent sees of a node. */
    ghost predicate Outline()
      reads this
    {
      this in repr && suffix == model.suffix && longestPath == model.longestPath
    }

    /** What a node knows about itself and its children. */
    ghost predicate Local()
      reads this, children
    {
      && Outline()
      && model == Trie.Node(suffix, model.children, longestPath, pathLen, payload)
      && |children| == |model.children|
      && (forall i :: 0 <= i < |children| ==> children[i].model == model.children[i])
      && (forall c :: c in children ==> c.Outline())
      && (forall c :: c in children ==> c in repr && c.repr <= repr && this !in c.repr)
      && (forall c, d :: c in children && d in children && c != d ==> c.repr !! d.repr)
      && NoDuplicates(children)
    }

    ghost predicate Valid()
      reads this, repr
      decreases repr
    {
      this in repr && (forall c :: c in children ==> c in repr) && Local() && forall c :: c in children ==> c.Valid()
    }

    lemma Unfold()
      requires Valid()
      ensures Local() && forall c :: c in children ==> c.Valid()
    {
    }

    lemma Fold()
      requires Local() && forall c :: c in children ==> c.Valid()
      ensures Valid()
    {
    }

    /** A node whose objects did not change is still the same trie. */
    static twostate lemma Untouched(c: TrieNode<P>)
      requires old(c.Valid()) && unchanged(c, old(c.repr))
      ensures c.Valid()
    {
    }

    constructor (data: bytes, payload: Option<P>)
      ensures Valid() && repr == {this} && model == Trie.NewTrie(data, payload)
    {
      suffix, children, longestPath, pathLen := data, [], |data|, |data|;
      this.payload := payload;
      model, repr := Trie.NewTrie(data, payload), {this};
    }

    static lemma InsertedMembers<T>(before: seq<T>, x: T, at: nat, after: seq<T>)
      requires Inserted(before, x, at, after)
      ensures forall y :: y in after <==> y in before || y == x
      ensures NoDuplicates(before) && x !in before ==> NoDuplicates(after)
    {
      forall y | y in before ensures y in after {
        var i :| 0 <= i < |before| && before[i] == y;
        assert after[if i < at then i else i + 1] == y;
      }
    }

    static lemma InsertedModels(before: seq<TrieNode<P>>, x: TrieNode<P>, at: nat, after: seq<TrieNode<P>>,
        models: seq<Trie.Trie<P>>, models': seq<Trie.Trie<P>>)
      requires Inserted(before, x, at, after) && Inserted(models, x.model, at, models')
      requires |before| == |models| && forall i :: 0 <= i < |before| ==> before[i].model == models[i]
      ensures |after| == |models'| && forall i :: 0 <= i < |after| ==> after[i].model == models'[i]
    {
    }

    static predicate Inserted<T(==)>(before: seq<T>, x: T, at: nat, after: seq<T>) {
      && at <= |before| && |after| == |before| + 1
      && (forall i :: 0 <= i < at ==> after[i] == before[i])
      && after[at] == x
      && (forall i :: at < i < |after| ==> after[i] == before[i - 1])
    }

    static lemma ModelInserted(node: Trie.Trie<P>, data: bytes, payload: P, pathLen: nat)
      ensures Inserted(node.children, Trie.Node(data, [], pathLen, pathLen, Some(payload)),
        Trie.InsertAt(node.children, pathLen),
                       Trie.AddNewChild(node, data, payload, pathLen).children)
      ensures var node' := Trie.AddNewChild(node, data, payload, pathLen);
        node' == Trie.Node(node.suffix, node'.children,
          if node.longestPath < pathLen then pathLen else node.longestPath, node.pathLen, node.payload)
    {
    }

    /** The loop of addNewChild: the slot at the end moves left past all children that are not longer. */
    static method Insert(nodes: seq<TrieNode<P>>, leaf: TrieNode<P>, pathLen: nat, ghost models: seq<Trie.Trie<P>>)
      returns (children: seq<TrieNode<P>>)
      requires |nodes| == |models| && forall i :: 0 <= i < |nodes| ==> nodes[i].model == models[i]
      requires forall c :: c in nodes ==> c.Outline()
      ensures Inserted(nodes, leaf, Trie.InsertAt(models, pathLen), children)
    {
      var idx := |nodes|;
      forall i | 0 <= i < |nodes| ensures nodes[i].longestPath == models[i].longestPath { assert nodes[i] in nodes; }
      children := nodes + [leaf];
      while idx > 0 && !(children[idx - 1].longestPath > pathLen)
        invariant 0 <= idx <= |nodes| && |children| == |nodes| + 1
        invariant forall i :: 0 <= i < idx ==> children[i] == nodes[i]
        invariant forall i :: idx < i < |children| ==> children[i] == nodes[i - 1]
        invariant forall i :: idx <= i < |nodes| ==> models[i].longestPath <= pathLen
      {
        children := children[idx := children[idx - 1]];
        idx := idx - 1;
      }
      children := children[idx := leaf];
      assert idx == Trie.InsertAt(models, pathLen);
    }

    method AddNewChild(data: bytes, payload: P, pathLen: nat)
      requires Valid()
      modifies this
      ensures Valid() && Outline() && fresh(repr - old(repr))
      ensures model == Trie.AddNewChild(old(model), data, payload, pathLen)
    {
      hide Valid, Trie.AddNewChild, Trie.InsertAt, NoDuplicates, Inserted;
      Unfold();
      ghost var nodes, before, at := children, model, Trie.InsertAt(model.children, pathLen);
      var leaf := NewLeaf(data, payload, pathLen);
      var inserted := Insert(children, leaf, pathLen, model.children);
      InsertedMembers(nodes, leaf, at, inserted);
      ModelInserted(before, data, payload, pathLen);
      InsertedModels(nodes, leaf, at, inserted, model.children,
        Trie.AddNewChild(model, data, payload, pathLen).children);
      label changed:
      if longestPath < pathLen { longestPath := pathLen; }
      children, model, repr := inserted, Trie.AddNewChild(model, data, payload, pathLen), repr + {leaf};
      forall c | c in nodes ensures c.Valid() && c.repr == old(c.repr) { Untouched(c); }
      Untouched@changed(leaf);
      FoldWith(nodes, leaf);
    }

    /** A node that got one more child. */
    lemma FoldWith(nodes: seq<TrieNode<P>>, leaf: TrieNode<P>)
      requires Outline() && model == Trie.Node(suffix, model.children, longestPath, pathLen, payload)
      requires |children| == |model.children| && forall i :: 0 <= i < |children| ==>
        children[i].model == model.children[i]
      requires NoDuplicates(children) && forall c :: c in children ==> c in nodes || c == leaf
      requires forall c :: c in nodes ==>
        c.Valid() && c.Outline() && c in repr && c.repr <= repr && this !in c.repr && leaf !in c.repr
      requires forall c, d :: c in nodes && d in nodes && c != d ==> c.repr !! d.repr
      requires leaf.Valid() && leaf.Outline() && leaf.repr == {leaf} && leaf in repr && leaf != this
      ensures Valid()
    {
      hide Valid, NoDuplicates;
      Fold();
    }

    static method NewLeaf(data: bytes, payload: P, pathLen: nat) returns (leaf: TrieNode<P>)
      ensures fresh(leaf) && leaf.Valid() && leaf.Outline() && leaf.repr == {leaf}
        && leaf.model == Trie.Node(data, [], pathLen, pathLen, Some(payload))
    {
      leaf := new TrieNode(data, Some(payload));
      leaf.longestPath, leaf.pathLen := pathLen, pathLen;
      leaf.model := Trie.Node(data, [], pathLen, pathLen, Some(payload));
    }

    /** A child that is not there is not replaced. */
    method Replace(oldChild: TrieNode<P>, newChild: TrieNode<P>)
      modifies this`children
      ensures Replaced(old(children), oldChild, newChild, children)
    {
      for i := 0 to |children|
        invariant children == old(children) && forall j :: 0 <= j < i ==> children[j] != oldChild
      {
        if children[i] == oldChild {
          children := children[i := newChild];
          return;
        }
      }
    }

    static predicate Replaced(before: seq<TrieNode<P>>, x: TrieNode<P>, y: TrieNode<P>, after: seq<TrieNode<P>>) {
      && |after| == |before|
      && forall i :: 0 <= i < |before| ==> after[i] == if before[i] == x && x !in before[..i] then y else before[i]
    }

    static lemma OthersDiffer<T>(nodes: seq<T>, i: nat)
      requires i < |nodes| && NoDuplicates(nodes)
      ensures forall j :: 0 <= j < |nodes| && j != i ==> nodes[j] != nodes[i]
    {
    }

    static lemma ReplacedAt(before: seq<TrieNode<P>>, i: nat, y: TrieNode<P>, after: seq<TrieNode<P>>)
      requires i < |before| && NoDuplicates(before) && Replaced(before, before[i], y, after)
      ensures after == before[i := y]
      ensures forall c :: c in after ==> c == y || (c in before && c != before[i])
      ensures y == before[i] || y !in before ==> NoDuplicates(after)
    {
    }

    method SplitIndex(data: bytes) returns (splitIdx: nat)
      ensures splitIdx == Trie.Split(data, suffix)
    {
      var testLen := if |data| < |suffix| then |data| else |suffix|;
      splitIdx := 0;
      while splitIdx < testLen && data[splitIdx] == suffix[splitIdx]
        invariant splitIdx <= testLen && forall i :: 0 <= i < splitIdx ==> data[i] == suffix[i]
      {
        splitIdx := splitIdx + 1;
      }
      Trie.SplitIs(data, suffix, splitIdx);
    }

    /** The first child whose suffix starts with `b`, by the loop over the children. */
    method FindChild(b: byte) returns (i: nat)
      requires Local() && Trie.WellFormed(model)
      ensures i == Trie.ChildWith(model.children, b)
    {
      i := 0;
      forall j | 0 <= j < |children| ensures children[j].suffix == model.children[j].suffix {
        assert children[j] in children;
      }
      while i < |children| && children[i].suffix[0] != b
        invariant i <= |children|
        invariant forall j :: 0 <= j < i ==> model.children[j].suffix[0] != b
      {
        i := i + 1;
      }
    }

    /** The new node that takes this node's place, with the rest of this node as its only child. */
    method NewParent(n: nat, data: bytes, payload: Option<P>, pathLen: nat) returns (newParent: TrieNode<P>)
      requires Valid() && n <= |suffix|
      modifies this
      ensures newParent.Valid() && newParent.Outline() && fresh(newParent) && newParent.repr == {newParent} + old(repr)
      ensures newParent.model
        == Trie.Node(data, [old(model).(suffix := old(model).suffix[n..])], old(model).longestPath, pathLen, payload)
    {
      hide Valid;
      Unfold();
      suffix, model := suffix[n..], model.(suffix := model.suffix[n..]);
      forall c | c in children ensures c.Valid() { Untouched(c); }
      Fold();
      newParent := new TrieNode(data, payload);
      newParent.Unfold();
      label before:
      newParent.pathLen, newParent.longestPath, newParent.children := pathLen, longestPath, [this];
      newParent.model, newParent.repr := Trie.Node(data, [model], longestPath, pathLen, payload), {newParent} + repr;
      Untouched@before(this);
      newParent.Fold();
    }

    static function Maybe(parent: TrieNode?<P>): set<TrieNode<P>> { if parent == null then {} else {parent} }

    /** What addPath does to the parent: its child pointer follows the new root. */
    twostate predicate ParentFollows(parent: TrieNode?<P>, new root: TrieNode<P>)
      reads Maybe(parent)
    {
      parent != null ==> Replaced(old(parent.children), this, root, parent.children)
    }

    method AddPath(data: bytes, payload: P, pathLen: nat, parent: TrieNode?<P>) returns (root: TrieNode<P>)
      requires Valid() && Trie.WellFormed(model)
      requires parent != null ==> parent !in repr && this in parent.children && NoDuplicates(parent.children)
      modifies repr, Maybe(parent)`children
      ensures root.Valid() && root.Outline() && fresh(root.repr - old(repr))
        && root.model == Trie.AddPath(old(model), data, payload, pathLen)
      ensures ParentFollows(parent, root)
      decreases repr, 1
    {
      hide Valid, Trie.WellFormed, Trie.AddNewChild, Trie.AddPath;
      Unfold();
      var splitIdx := SplitIndex(data);
      if splitIdx == |suffix| {
        root := this;
        Continue(data, payload, pathLen);
      } else {
        root := Split(splitIdx, data, payload, pathLen);
        label split:
        if parent != null {
          assert parent !in root.repr;
          parent.Replace(this, root);
          Untouched@split(root);
        }
      }
    }

    method Split(n: nat, data: bytes, payload: P, pathLen: nat) returns (root: TrieNode<P>)
      requires Valid() && n == Trie.Split(data, model.suffix) && n < |suffix|
      modifies this
      ensures root.Valid() && root.Outline() && fresh(root.repr - old(repr))
        && root.model == Trie.AddPath(old(model), data, payload, pathLen)
    {
      hide Valid, Trie.WellFormed, Trie.AddNewChild;
      Unfold();
      if n == |data| {
        root := NewParent(n, data, Some(payload), pathLen);
      } else {
        root := NewParent(n, data[..n], None, 0);
        root.AddNewChild(data[n..], payload, pathLen);
      }
    }

    /** The data goes on below this node, or ends here. */
    method Continue(data: bytes, payload: P, pathLen: nat)
      requires Valid() && Trie.WellFormed(model) && Trie.Split(data, model.suffix) == |model.suffix|
      modifies repr
      ensures Valid() && Outline() && fresh(repr - old(repr))
        && model == Trie.AddPath(old(model), data, payload, pathLen)
      decreases repr, 0, 1
    {
      hide Valid, Trie.WellFormed, Trie.AddNewChild;
      Unfold();
      if |suffix| == |data| {
        SetPayload(payload);
      } else {
        var rest := data[|suffix|..];
        if |suffix| > 0 {
          var i := FindChild(rest[0]);
          if i < |children| {
            Descend(i, rest, payload, pathLen);
            return;
          }
        }
        AddNewChild(rest, payload, pathLen);
      }
    }

    method SetPayload(payload: P)
      requires Valid()
      modifies this
      ensures Valid() && Outline() && repr == old(repr) && model == old(model).(payload := Some(payload))
    {
      hide Valid;
      Unfold();
      this.payload, model := Some(payload), model.(payload := Some(payload));
      forall c | c in children ensures c.Valid() { Untouched(c); }
      Fold();
    }

    method Descend(i: nat, rest: bytes, payload: P, pathLen: nat)
      requires Valid() && Trie.WellFormed(model) && i < |model.children|
      modifies repr
      ensures Valid() && Outline() && fresh(repr - old(repr))
      ensures
        var child := Trie.AddPath(old(model).children[i], rest, payload, pathLen);
        model == old(model).(children := old(model).children[i := child])
      decreases repr, 0, 0
    {
      hide Valid, Trie.AddPath, NoDuplicates, Replaced;
      Unfold();
      ghost var nodes := children;
      var child := children[i];
      OthersDiffer(nodes, i);
      assert Trie.WellFormed(child.model);
      var root := child.AddPath(rest, payload, pathLen, this);
      ReplacedAt(nodes, i, root, children);
      model, repr := model.(children := model.children[i := root.model]), repr + root.repr;
      forall c | c in nodes && c != child ensures c.Valid() && unchanged(c) && c.repr !! root.repr { Untouched(c); }
      forall j | 0 <= j < |children| ensures children[j].model == model.children[j] {
        assert j != i ==> nodes[j] in nodes;
      }
      Fold();
    }

    /** Add: the caller must go on with the node it returns. */
    method Add(data: bytes, payload: P) returns (root: TrieNode<P>)
      requires Valid() && Trie.WellFormed(model)
      modifies repr
      ensures root.Valid() && fresh(root.repr - old(repr))
      ensures root.model == Trie.Add(old(model), data, payload) && Trie.WellFormed(root.model)
    {
      hide Valid, Trie.AddPath;
      Trie.AddPathWellFormed(model, data, payload, |data|);
      root := AddPath(data, payload, |data|, null);
    }

    /** The loop that compares the suffix with the data. */
    method StartsHere(data: bytes) returns (yes: bool)
      ensures yes <==> Prefix(suffix, data)
    {
      if |data| < |suffix| { return false; }
      for i := 0 to |suffix|
        invariant data[..i] == suffix[..i]
      {
        if data[i] != suffix[i] { return false; }
      }
      return true;
    }

    /** The node that answers, or null. */
    static ghost predicate Answers(found: TrieNode?<P>, answer: Option<Trie.Hit<P>>)
      reads Maybe(found)
    {
      if found == null then answer.None? else answer == Some(Trie.Hit(found.pathLen, found.payload))
    }

    method MatchStart(data: bytes) returns (found: TrieNode?<P>)
      requires Valid()
      ensures Answers(found, Trie.MatchStart(model, data))
      ensures found != null ==> found in repr
      decreases repr
    {
      hide Valid, Trie.MatchStart, Trie.MatchStartAny;
      Unfold();
      Trie.MatchStartCases(model, data);
      var starts := StartsHere(data);
      if !starts { return null; }
      var rest := data[|suffix|..];
      for i := 0 to |children|
        invariant Trie.MatchStartAny(model.children, rest) == Trie.MatchStartAny(model.children[i..], rest)
      {
        Trie.MatchStartAnyCases(model.children[i..], rest);
        assert children[i] in children;
        found := children[i].MatchStart(rest);
        if found != null { return; }
      }
      Trie.MatchStartAnyCases(model.children[|children|..], rest);
      return if pathLen > 0 then this else null;
    }

    method Match(data: bytes) returns (found: TrieNode?<P>)
      requires Valid()
      ensures Answers(found, Trie.Match(model, data))
      ensures found != null ==> found in repr
      decreases repr
    {
      hide Valid, Trie.Match, Trie.MatchAny;
      Unfold();
      Trie.MatchCases(model, data);
      var starts := StartsHere(data);
      if !starts { return null; }
      if |data| == |suffix| { return if pathLen > 0 then this else null; }
      var rest := data[|suffix|..];
      for i := 0 to |children|
        invariant Trie.MatchAny(model.children, rest) == Trie.MatchAny(model.children[i..], rest)
      {
        Trie.MatchAnyCases(model.children[i..], rest);
        assert children[i] in children;
        found := children[i].Match(rest);
        if found != null { return; }
      }
      Trie.MatchAnyCases(model.children[|children|..], rest);
      return null;
    }
  }
}
