/**
 What the trie of shared/trie.go answers for any list of tokens, in any order and with repetitions,
 and for which lists that is always the longest match.
 */
module TrieAnswers {
  import opened Utilities
  import opened Trie
  import opened TrieFound
  import opened TrieLists
  import opened TrieMixed
  import opened TrieOrder

  /** The place of the first token that starts with another byte than `b`. */
  function Others<P>(tokens: seq<(bytes, P)>, b: byte): (k: nat)
    requires NonEmpty(tokens)
    ensures k <= |tokens| && forall i :: 0 <= i < k ==> tokens[i].0[0] == b
    ensures k < |tokens| ==> tokens[k].0[0] != b
  {
    if tokens == [] || tokens[0].0[0] != b then 0
    else
      assert forall i :: 1 <= i < |tokens| ==> tokens[i] == tokens[1..][i - 1];
      1 + Others(tokens[1..], b)
  }

  /** The answer in terms of the tokens alone.  Those in front of the first one with another first
      byte are looked up together, without the lost ones; the others one by one, in order of length,
      and the longer ones before those. */
  function Reply<P>(tokens: seq<(bytes, P)>, data: bytes): Option<Hit<P>>
    requires tokens != [] && NonEmpty(tokens)
  {
    var k := Others(tokens, tokens[0].0[0]);
    var found, later := Found(tokens[..k]), tokens[k..];
    var n := Recorded(found);
    Asked(Best(Pick(later, n, true), data), Best(found, data), Best(Pick(later, n, false), data))
  }

  lemma FirstAnswer<P(!new)>(tokens: seq<(bytes, P)>, b: byte, data: bytes)
    requires tokens != [] && StartsAllWith(tokens, b)
    ensures MatchStart(Build(tokens), data) == Best(Found(tokens), data)
    ensures Build(tokens).longestPath == Recorded(Found(tokens))
  {
    hide Build, Best, Found, MatchStart, ForkFree, Recorded;
    var found := Found(tokens);
    FoundIs(tokens, b);
    FoundStart(tokens, b);
    FoundIsForkFree(tokens);
    AlikeAnswers(Build(tokens), Build(found), data);
    assert IsLongestMatch(found, data, MatchStart(Build(found), data));
    BestIs(found, data, MatchStart(Build(found), data));
    RecordedIs(found, b);
  }

  /** For every list of tokens and all inputs. */
  lemma TrieReplies<P(!new)>(tokens: seq<(bytes, P)>, data: bytes)
    requires tokens != [] && NonEmpty(tokens)
    ensures MatchStart(Build(tokens), data) == Reply(tokens, data)
  {
    hide Build, Best, Found, MatchStart, Recorded, Pick;
    var b := tokens[0].0[0];
    var k := Others(tokens, b);
    assert k > 0;
    FirstAnswer(tokens[..k], b, data);
    if k < |tokens| {
      MixedAnswer(tokens, k, b, data);
    } else {
      assert tokens[..k] == tokens && tokens[k..] == [];
      PickNone<P>(Recorded(Found(tokens)), data);
    }
  }

  lemma PickNone<P>(n: nat, data: bytes)
    ensures forall long :: Best(Pick<P>([], n, long), data) == None
  {
  }

  // ------------------------------------------------------------- where it is the longest match

  /** Behind the longest token of a list that matches, the input does not matter. */
  lemma {:induction false} BestInFront<P>(tokens: seq<(bytes, P)>, front: bytes, data: bytes)
    requires Prefix(front, data)
    requires forall x :: x in tokens && Prefix(x.0, data) ==> |x.0| <= |front|
    ensures Best(tokens, front) == Best(tokens, data)
  {
    if tokens != [] {
      var n := |tokens| - 1;
      var x := tokens[n];
      assert x in tokens && forall y :: y in tokens[..n] ==> y in tokens;
      BestInFront(tokens[..n], front, data);
      if Prefix(x.0, data) { PrefixOfLonger(x.0, front, data); }
      if Prefix(x.0, front) { assert data[..|x.0|] == data[..|front|][..|x.0|]; }
    }
  }

  /** Each of the lists that are looked up is a part of the whole. */
  lemma PartsOfReply<P>(tokens: seq<(bytes, P)>, k: nat, n: nat)
    requires k <= |tokens|
    ensures forall x :: x in Found(tokens[..k]) ==> x in tokens
    ensures forall x :: x in Pick(tokens[k..], n, true) ==> x in tokens
    ensures forall x :: x in Pick(tokens[k..], n, false) ==> x in tokens
  {
    hide Found, Pick;
    PickedFrom(tokens, k, n, true);
    PickedFrom(tokens, k, n, false);
    forall x | x in Found(tokens[..k]) ensures x in tokens { assert x in tokens[..k]; }
  }

  lemma PickedFrom<P>(tokens: seq<(bytes, P)>, k: nat, n: nat, long: bool)
    requires k <= |tokens|
    ensures forall x :: x in Pick(tokens[k..], n, long) ==> x in tokens
  {
    PickedIs(tokens[k..], n, long);
    forall x | x in Pick(tokens[k..], n, long) ensures x in tokens { assert x in tokens[k..]; }
  }

  lemma ReplyInFront<P>(tokens: seq<(bytes, P)>, front: bytes, data: bytes)
    requires tokens != [] && NonEmpty(tokens) && Prefix(front, data)
    requires forall x :: x in tokens && Prefix(x.0, data) ==> |x.0| <= |front|
    ensures Reply(tokens, front) == Reply(tokens, data)
  {
    hide Best, Found, Recorded, Pick;
    var k := Others(tokens, tokens[0].0[0]);
    var found, later := Found(tokens[..k]), tokens[k..];
    var n := Recorded(found);
    PartsOfReply(tokens, k, n);
    BestInFront(found, front, data);
    BestInFront(Pick(later, n, true), front, data);
    BestInFront(Pick(later, n, false), front, data);
  }

  lemma NoneOfPart<P>(part: seq<(bytes, P)>, tokens: seq<(bytes, P)>, data: bytes)
    requires forall x :: x in part ==> x in tokens
    ensures Best(part, data).Some? ==> Best(tokens, data).Some?
  {
    hide Best;
    BestIsKnown(tokens, data);
    BestIsKnown(part, data);
    if Best(part, data).Some? { var x :| x in part && Prefix(x.0, data); }
  }

  lemma NoneReplies<P>(tokens: seq<(bytes, P)>, data: bytes)
    requires tokens != [] && NonEmpty(tokens) && Best(tokens, data).None?
    ensures Reply(tokens, data).None?
  {
    hide Best, Found, Recorded, Pick, Prefix;
    var k := Others(tokens, tokens[0].0[0]);
    var found, later := Found(tokens[..k]), tokens[k..];
    var n := Recorded(found);
    PartsOfReply(tokens, k, n);
    NoneOfPart(found, tokens, data);
    NoneOfPart(Pick(later, n, true), tokens, data);
    NoneOfPart(Pick(later, n, false), tokens, data);
  }

  /** Every list of tokens is answered with the longest match on all inputs exactly if it is on its own
      tokens. */
  lemma LongestIffOwn<P(!new)>(tokens: seq<(bytes, P)>)
    requires tokens != [] && NonEmpty(tokens)
    ensures Answers(Build(tokens), tokens)
      <==> forall i :: 0 <= i < |tokens| ==> Reply(tokens, tokens[i].0) == Best(tokens, tokens[i].0)
  {
    hide Build, Best, Reply, MatchStart;
    forall data ensures IsLongestMatch(tokens, data, MatchStart(Build(tokens), data))
      <==> Reply(tokens, data) == Best(tokens, data) {
      TrieReplies(tokens, data);
      BestIs(tokens, data, MatchStart(Build(tokens), data));
    }
    if forall i :: 0 <= i < |tokens| ==> Reply(tokens, tokens[i].0) == Best(tokens, tokens[i].0) {
      forall data ensures Reply(tokens, data) == Best(tokens, data) { OwnSuffice(tokens, data); }
    }
  }

  lemma OwnSuffice<P>(tokens: seq<(bytes, P)>, data: bytes)
    requires tokens != [] && NonEmpty(tokens)
    requires forall i :: 0 <= i < |tokens| ==> Reply(tokens, tokens[i].0) == Best(tokens, tokens[i].0)
    ensures Reply(tokens, data) == Best(tokens, data)
  {
    hide Best, Reply;
    BestIsKnown(tokens, data);
    if Best(tokens, data).None? {
      NoneReplies(tokens, data);
    } else {
      var i: nat :| i < |tokens| && Prefix(tokens[i].0, data) && |tokens[i].0| == Best(tokens, data).value.pathLen;
      ReplyInFront(tokens, tokens[i].0, data);
      BestInFront(tokens, tokens[i].0, data);
    }
  }
}
