/**
 When the loop of Parse (shared/parser.go) ends, for every table: also where Continue transitions
 push and pop.
 */
module StackTermination {
  import opened Utilities
  import opened Trie
  import opened Automaton
  import opened Termination

  /** A state and the stack, or as much of it as matters. */
  datatype Place = Place(state: nat, stack: seq<nat>)

  function Moved(p: Place, t: Transition): Place {
    var popped := t.flags.pop && p.stack != [];
    var stack := if popped then p.stack[..|p.stack| - 1] else p.stack;
    Place(if popped then p.stack[|p.stack| - 1] else t.nextState, if t.flags.push then stack + [p.state] else stack)
  }

  function Found(m: Matcher, data: bytes, state: nat): (t: Option<Transition>)
    requires Sane(m) && state < m.Size()
  {
    if m.HasTokens(state) && m.Look(state, data).Some? then m.Look(state, data).value.payload else None
  }

  /** A Continue transition on fixed data. */
  function Hop(m: Matcher, data: bytes, p: Place): (next: Option<Place>)
    requires Sane(m) && p.state < m.Size()
    ensures next.Some? ==> next.value.state < m.Size() && Found(m, data, p.state).Some?
    ensures next.Some? ==> next.value == Moved(p, Found(m, data, p.state).value)
  {
    match Found(m, data, p.state)
    case None => None
    case Some(t) =>
      var next := Moved(p, t);
      if t.flags.continue_ && next.state != STOP && next.state < m.Size() then Some(next) else None
  }

  function Hops(m: Matcher, data: bytes, p: Place, k: nat): (last: Option<Place>)
    requires Sane(m) && p.state < m.Size()
    ensures last.Some? ==> last.value.state < m.Size()
    decreases k
  {
    if k == 0 then Some(p)
    else
      match Hop(m, data, p)
      case None => None
      case Some(next) => Hops(m, data, next, k - 1)
  }

  /** The transition pops and there is nothing to pop. */
  predicate Underflows(m: Matcher, data: bytes, p: Place)
    requires Sane(m) && p.state < m.Size()
  {
    Found(m, data, p.state).Some? && Found(m, data, p.state).value.flags.pop && p.stack == []
  }

  /** None of `k` transitions pops what is not there. */
  predicate Stays(m: Matcher, data: bytes, p: Place, k: nat)
    requires Sane(m) && p.state < m.Size()
    decreases k
  {
    k == 0 || (!Underflows(m, data, p) && Hop(m, data, p).Some? && Stays(m, data, Hop(m, data, p).value, k - 1))
  }

  predicate EndsWith(stack: seq<nat>, top: seq<nat>) { |top| <= |stack| && stack[|stack| - |top|..] == top }

  /** From a state and at most one state on the stack, some Continue transitions come back: to just
      that, or without popping what is below, to that on top of more. */
  predicate Circles(m: Matcher, data: bytes, p: Place, k: nat)
    requires Sane(m)
  {
    && p.state < m.Size() && |p.stack| <= 1 && k > 0 && Hops(m, data, p, k).Some?
    && var last := Hops(m, data, p, k).value;
      && last.state == p.state
      && (last.stack == p.stack || (Stays(m, data, p, k) && EndsWith(last.stack, p.stack)))
  }

  ghost predicate NoCircle(m: Matcher)
    requires Sane(m)
  {
    forall data, p, k: nat :: !Circles(m, data, p, k)
  }

  lemma HopsStep(m: Matcher, data: bytes, p: Place, k: nat)
    requires Sane(m) && p.state < m.Size()
    ensures k == 0 ==> Hops(m, data, p, k) == Some(p)
    ensures k > 0 ==>
      var next := Hop(m, data, p);
      Hops(m, data, p, k) == if next.None? then None else Hops(m, data, next.value, k - 1)
  {
    hide Sane, Hop;
  }

  lemma {:induction false} HopsAdd(m: Matcher, data: bytes, p: Place, j: nat, k: nat)
    requires Sane(m) && p.state < m.Size() && Hops(m, data, p, j).Some?
    ensures Hops(m, data, p, j + k) == Hops(m, data, Hops(m, data, p, j).value, k)
    decreases j
  {
    hide Sane, Hop, Hops;
    HopsStep(m, data, p, j);
    if j > 0 {
      var next := Hop(m, data, p).value;
      HopsStep(m, data, p, j + k);
      HopsAdd(m, data, next, j - 1, k);
    }
  }

  lemma {:induction false} HopsLess(m: Matcher, data: bytes, p: Place, j: nat, k: nat)
    requires Sane(m) && p.state < m.Size() && j <= k && Hops(m, data, p, k).Some?
    ensures Hops(m, data, p, j).Some?
    decreases j
  {
    if j > 0 { HopsLess(m, data, Hop(m, data, p).value, j - 1, k - 1); }
  }

  // ------------------------------------------------------------- a circle never ends

  lemma MovedAbove(base: seq<nat>, p: Place, t: Transition)
    requires !(t.flags.pop && p.stack == [])
    ensures Moved(Place(p.state, base + p.stack), t) == Place(Moved(p, t).state, base + Moved(p, t).stack)
  {
    if t.flags.pop {
      var rest := p.stack[..|p.stack| - 1];
      assert (base + p.stack)[..|base + p.stack| - 1] == base + rest;
      Associative(base, rest, [p.state]);
    } else {
      Associative(base, p.stack, [p.state]);
    }
  }

  lemma HopAbove(m: Matcher, data: bytes, base: seq<nat>, p: Place)
    requires Sane(m) && p.state < m.Size() && !Underflows(m, data, p) && Hop(m, data, p).Some?
    ensures var next := Hop(m, data, p).value;
      Hop(m, data, Place(p.state, base + p.stack)) == Some(Place(next.state, base + next.stack))
  {
    hide Sane, Moved;
    MovedAbove(base, p, Found(m, data, p.state).value);
  }

  /** What does not pop below the stack is the same on more stack. */
  lemma {:induction false} HopsAbove(m: Matcher, data: bytes, base: seq<nat>, p: Place, k: nat)
    requires Sane(m) && p.state < m.Size() && Stays(m, data, p, k)
    ensures Hops(m, data, p, k).Some?
    ensures var last := Hops(m, data, p, k).value;
      Hops(m, data, Place(p.state, base + p.stack), k) == Some(Place(last.state, base + last.stack))
    decreases k
  {
    hide Sane, Hop, Underflows;
    if k > 0 {
      HopAbove(m, data, base, p);
      HopsAbove(m, data, base, Hop(m, data, p).value, k - 1);
    }
  }

  lemma {:induction false} CircleGoesOn(m: Matcher, data: bytes, p: Place, k: nat, n: nat)
    requires Sane(m) && p.state < m.Size() && k > 0 && Hops(m, data, p, k) == Some(p)
    ensures Hops(m, data, p, n).Some?
    decreases n
  {
    hide Sane, Hop;
    if n < k {
      HopsLess(m, data, p, n, k);
    } else {
      CircleGoesOn(m, data, p, k, n - k);
      HopsAdd(m, data, p, k, n - k);
    }
  }

  /** A circle on a growing stack. */
  lemma {:induction false} SpiralGoesOn(m: Matcher, data: bytes, base: seq<nat>, p: Place, k: nat, n: nat)
    requires Sane(m) && p.state < m.Size() && k > 0 && Stays(m, data, p, k) && Hops(m, data, p, k).Some?
    requires Hops(m, data, p, k).value.state == p.state && EndsWith(Hops(m, data, p, k).value.stack, p.stack)
    ensures Hops(m, data, Place(p.state, base + p.stack), n).Some?
    decreases n
  {
    hide Sane, Hop, Stays, Hops;
    var last := Hops(m, data, p, k).value;
    var from := Place(p.state, base + p.stack);
    HopsAbove(m, data, base, p, k);
    if n < k {
      HopsLess(m, data, from, n, k);
    } else {
      var more := base + last.stack[..|last.stack| - |p.stack|];
      assert base + last.stack == more + p.stack by { EndOf(base, last.stack, p.stack); }
      SpiralGoesOn(m, data, more, p, k, n - k);
      HopsAdd(m, data, from, k, n - k);
    }
  }

  lemma EndOf(base: seq<nat>, stack: seq<nat>, top: seq<nat>)
    requires EndsWith(stack, top)
    ensures base + stack == base + stack[..|stack| - |top|] + top
  {
    var front := stack[..|stack| - |top|];
    assert stack == front + top;
    Associative(base, front, top);
  }

  /** One transition of the loop. */
  lemma HopStep(m: Matcher, data: bytes, c: Config)
    requires Sane(m) && c.state < m.Size() && c.parseIdx < |data|
    ensures match Hop(m, data[c.parseIdx..], Place(c.state, c.stack))
      case Some(next) =>
        && Step(m, data, c).Next? && Step(m, data, c).config.parseIdx == c.parseIdx
          && Step(m, data, c).config.state == next.state && Step(m, data, c).config.stack == next.stack
      case None => Step(m, data, c).Next? ==> Step(m, data, c).config.parseIdx > c.parseIdx
  {
    hide MatchStart, Longest;
  }

  lemma {:induction false} ManyHops(m: Matcher, data: bytes, c: Config, n: nat)
    requires Sane(m) && c.state < m.Size() && c.parseIdx < |data|
    requires Hops(m, data[c.parseIdx..], Place(c.state, c.stack), n).Some?
    ensures !HaltsIn(m, data, c, n)
    decreases n
  {
    hide Sane, Step, Hop;
    if n > 0 {
      HopStep(m, data, c);
      ManyHops(m, data, Step(m, data, c).config, n - 1);
    }
  }

  lemma CircleNeverHalts(m: Matcher, data: bytes, p: Place, k: nat)
    requires Sane(m) && Circles(m, data, p, k)
    ensures !Halts(m, data, Start(p.state, p.stack))
  {
    hide HaltsIn, Stays, EndsWith, Hop, Sane;
    assert p.state < m.Size() && data != [] by { CircleNeedsData(m, data, p, k); }
    assert data[0..] == data;
    forall n ensures !HaltsIn(m, data, Start(p.state, p.stack), n) {
      if n >= 0 {
        assert Place(p.state, [] + p.stack) == p && [] + p.stack == p.stack;
        if Hops(m, data, p, k) == Some(p) {
          CircleGoesOn(m, data, p, k, n);
        } else {
          SpiralGoesOn(m, data, [], p, k, n);
        }
        ManyHops(m, data, Start(p.state, p.stack), n);
      }
    }
  }

  lemma CircleNeedsData(m: Matcher, data: bytes, p: Place, k: nat)
    requires Sane(m) && Circles(m, data, p, k)
    ensures p.state < m.Size() && data != []
  {
  }

  // ------------------------------------------------- what never ends comes to a circle

  ghost predicate IsRun(m: Matcher, data: bytes, at: nat -> Place)
    requires Sane(m)
  {
    forall i: nat :: at(i).state < m.Size() && Hop(m, data, at(i)) == Some(at(i + 1))
  }

  lemma {:induction false} RunHops(m: Matcher, data: bytes, at: nat -> Place, i: nat, k: nat)
    requires Sane(m) && IsRun(m, data, at)
    ensures at(i).state < m.Size() && Hops(m, data, at(i), k) == Some(at(i + k))
    decreases k
  {
    hide Sane, Hop;
    if k > 0 { RunHops(m, data, at, i + 1, k - 1); }
  }

  /** The height of the stack between popping and pushing. */
  function Dip(m: Matcher, data: bytes, p: Place): (n: nat)
    requires Sane(m) && p.state < m.Size()
    ensures n <= |p.stack|
  {
    var t := Found(m, data, p.state);
    if t.Some? && t.value.flags.pop && p.stack != [] then |p.stack| - 1 else |p.stack|
  }

  /** The state behind a transition, and what it left above the height it dipped to. */
  ghost function Head(m: Matcher, data: bytes, at: nat -> Place, i: nat): (head: Place)
    requires Sane(m) && IsRun(m, data, at)
    ensures head.state < m.Size() && |head.stack| <= 1
    ensures |head.stack| == 1 ==> head.stack[0] < m.Size()
    ensures head.state == at(i + 1).state
    ensures at(i + 1).stack == at(i).stack[..Dip(m, data, at(i))] + head.stack
  {
    assert Hop(m, data, at(i)) == Some(at(i + 1)) && at(i + 1).state < m.Size();
    Place(at(i + 1).state, at(i + 1).stack[Dip(m, data, at(i))..])
  }

  ghost function Heads(size: nat): (heads: set<Place>)
    ensures forall p: Place :: p.state < size && p.stack == [] ==> p in heads
    ensures forall p: Place :: p.state < size && |p.stack| == 1 && p.stack[0] < size ==> p in heads
  {
    var heads := (set q: nat | q < size :: Place(q, [])) + (set q: nat, x: nat | q < size && x < size :: Place(q, [x]));
    forall p: Place | p.state < size && |p.stack| == 1 && p.stack[0] < size ensures p in heads {
      assert p == Place(p.state, [p.stack[0]]);
    }
    heads
  }

  lemma {:induction false} PlacesRepeat(s: seq<Place>, places: set<Place>)
    requires NoDuplicates(s) && forall i :: 0 <= i < |s| ==> s[i] in places
    ensures |s| <= |places|
    decreases |s|
  {
    if s != [] { PlacesRepeat(s[1..], places - {s[0]}); }
  }

  ghost predicate Comes(marked: nat -> bool, i: nat) { exists j: nat :: i <= j && marked(j) }

  /** As many marked places as one wants. */
  lemma {:induction false} Collect(marked: nat -> bool, count: nat) returns (s: seq<nat>)
    requires forall i: nat :: Comes(marked, i)
    ensures |s| == count
    ensures forall i :: 0 <= i < |s| ==> marked(s[i])
    ensures forall i, j :: 0 <= i < j < |s| ==> s[i] < s[j]
  {
    if count == 0 {
      s := [];
    } else {
      s := Collect(marked, count - 1);
      var from: nat := if s == [] then 0 else s[|s| - 1] + 1;
      assert Comes(marked, from);
      var j: nat :| from <= j && marked(j);
      s := s + [j];
    }
  }

  /** Two of them with the same head. */
  lemma SameHead(m: Matcher, data: bytes, at: nat -> Place, marked: nat -> bool) returns (a: nat, b: nat)
    requires Sane(m) && IsRun(m, data, at) && forall i: nat :: Comes(marked, i)
    ensures a < b && marked(a) && marked(b) && Head(m, data, at, a) == Head(m, data, at, b)
  {
    hide Sane, IsRun, Comes;
    var s := Collect(marked, |Heads(m.Size())| + 1);
    var heads := seq(|s|, i requires 0 <= i < |s| => Head(m, data, at, s[i]));
    forall i | 0 <= i < |heads| ensures heads[i] in Heads(m.Size()) {
      var head := Head(m, data, at, s[i]);
      assert head.stack == [] || |head.stack| == 1;
    }
    if NoDuplicates(heads) { PlacesRepeat(heads, Heads(m.Size())); }
    var i, j :| 0 <= i < j < |heads| && heads[i] == heads[j];
    a, b := s[i], s[j];
  }

  /** From here on no transition dips lower. */
  ghost predicate Low(m: Matcher, data: bytes, at: nat -> Place, i: nat)
    requires Sane(m) && IsRun(m, data, at)
  {
    forall j: nat :: i <= j ==> Dip(m, data, at(i)) <= Dip(m, data, at(j))
  }

  lemma {:induction false} LowFrom(m: Matcher, data: bytes, at: nat -> Place, i: nat) returns (j: nat)
    requires Sane(m) && IsRun(m, data, at)
    ensures i <= j && Low(m, data, at, j)
    decreases Dip(m, data, at(i))
  {
    assert forall i: nat :: at(i).state < m.Size();
    hide Sane, IsRun, Dip;
    if Low(m, data, at, i) {
      j := i;
    } else {
      var k: nat :| i <= k && Dip(m, data, at(k)) < Dip(m, data, at(i));
      j := LowFrom(m, data, at, k);
    }
  }

  /** Above the lowest dip the run is the same without what is below. */
  lemma {:induction false} RunAbove(m: Matcher, data: bytes, at: nat -> Place, base: seq<nat>, p: Place, i: nat, k: nat)
    requires Sane(m) && IsRun(m, data, at) && at(i) == Place(p.state, base + p.stack) && p.state < m.Size()
    requires forall j: nat :: i <= j < i + k ==> Dip(m, data, at(j)) >= |base| && !Underflows(m, data, at(j))
    ensures Stays(m, data, p, k) && Hops(m, data, p, k).Some?
    ensures var last := Hops(m, data, p, k).value; at(i + k) == Place(last.state, base + last.stack)
    decreases k
  {
    hide Sane, IsRun, Dip, Underflows, Hop;
    if k > 0 {
      RunHopAbove(m, data, at, base, p, i);
      RunAbove(m, data, at, base, Hop(m, data, p).value, i + 1, k - 1);
    }
  }

  lemma RunHopAbove(m: Matcher, data: bytes, at: nat -> Place, base: seq<nat>, p: Place, i: nat)
    requires Sane(m) && IsRun(m, data, at) && at(i) == Place(p.state, base + p.stack) && p.state < m.Size()
    requires Dip(m, data, at(i)) >= |base| && !Underflows(m, data, at(i))
    ensures !Underflows(m, data, p) && Hop(m, data, p).Some?
    ensures var next := Hop(m, data, p).value; at(i + 1) == Place(next.state, base + next.stack)
  {
    hide Sane;
    assert Hop(m, data, at(i)) == Some(at(i + 1));
    var t := Found(m, data, p.state).value;
    assert p.stack == [] ==> base + p.stack == base;
    if t.flags.pop { assert (base + p.stack)[..|base + p.stack| - 1] == base + p.stack[..|p.stack| - 1]; }
  }

  /** A run that pops on an empty stack again and again. */
  lemma EmptyCircles(m: Matcher, data: bytes, at: nat -> Place) returns (p: Place, k: nat)
    requires Sane(m) && IsRun(m, data, at)
    requires var marked := (i: nat) => at(i).state < m.Size() && Underflows(m, data, at(i));
      forall i: nat :: Comes(marked, i)
    ensures Circles(m, data, p, k)
  {
    hide Sane, Hop, IsRun, Comes, Stays, EndsWith, Hops;
    var marked := (i: nat) => at(i).state < m.Size() && Underflows(m, data, at(i));
    var a, b := SameHead(m, data, at, marked);
    p, k := Head(m, data, at, a), b - a;
    EmptyHead(m, data, at, a);
    EmptyHead(m, data, at, b);
    RunHops(m, data, at, a + 1, k);
  }

  lemma EmptyHead(m: Matcher, data: bytes, at: nat -> Place, i: nat)
    requires Sane(m) && IsRun(m, data, at) && at(i).stack == []
    ensures at(i + 1) == Head(m, data, at, i)
  {
    hide Sane, IsRun, Hop;
    var head := Head(m, data, at, i);
    assert [][..0] + head.stack == head.stack;
  }

  /** A run that does not. */
  lemma LowCircles(m: Matcher, data: bytes, at: nat -> Place, from: nat) returns (p: Place, k: nat)
    requires Sane(m) && IsRun(m, data, at)
    requires forall i: nat :: from <= i ==> at(i).state < m.Size() && !Underflows(m, data, at(i))
    ensures Circles(m, data, p, k)
  {
    hide Sane, Hop, IsRun, Underflows, Dip;
    var marked := (i: nat) => from <= i && Low(m, data, at, i);
    forall i: nat ensures Comes(marked, i) {
      var j := LowFrom(m, data, at, if i < from then from else i);
      assert i <= j && marked(j);
    }
    var a, b := SameHead(m, data, at, marked);
    p, k := SpiralBetween(m, data, at, a, b);
  }

  lemma SpiralBetween(m: Matcher, data: bytes, at: nat -> Place, a: nat, b: nat) returns (p: Place, k: nat)
    requires Sane(m) && IsRun(m, data, at) && a < b && Low(m, data, at, a)
    requires forall i: nat :: a <= i ==> at(i).state < m.Size() && !Underflows(m, data, at(i))
    requires Head(m, data, at, a) == Head(m, data, at, b)
    ensures Circles(m, data, p, k)
  {
    hide Sane, Hop, IsRun, Underflows, Dip, EndsWith;
    p, k := Head(m, data, at, a), b - a;
    var base := at(a).stack[..Dip(m, data, at(a))];
    RunAbove(m, data, at, base, p, a + 1, k);
    LowerTop(m, data, at, a, b, base, p, Hops(m, data, p, k).value);
  }

  lemma LowerTop(m: Matcher, data: bytes, at: nat -> Place, a: nat, b: nat, base: seq<nat>, p: Place, last: Place)
    requires Sane(m) && IsRun(m, data, at) && a < b && Low(m, data, at, a)
    requires p == Head(m, data, at, a) == Head(m, data, at, b) && base == at(a).stack[..Dip(m, data, at(a))]
    requires at(b + 1) == Place(last.state, base + last.stack)
    ensures last.state == p.state && EndsWith(last.stack, p.stack)
  {
    assert at(b).state < m.Size();
    hide Sane, IsRun, Dip;
    SameTop(base, last.stack, at(b).stack[..Dip(m, data, at(b))], p.stack);
  }

  lemma SameTop(a: seq<nat>, b: seq<nat>, c: seq<nat>, d: seq<nat>)
    requires a + b == c + d && |a| <= |c|
    ensures |d| <= |b| && b[|b| - |d|..] == d
  {
    assert (a + b)[|c|..] == d && (a + b)[|c|..] == b[|c| - |a|..];
  }

  lemma RunCircles(m: Matcher, data: bytes, at: nat -> Place)
    requires Sane(m) && IsRun(m, data, at)
    ensures !NoCircle(m)
  {
    hide Sane, Hop, IsRun, Underflows, Circles;
    var marked := (i: nat) => at(i).state < m.Size() && Underflows(m, data, at(i));
    if forall i: nat :: Comes(marked, i) {
      var p, k := EmptyCircles(m, data, at);
    } else {
      var from: nat :| !Comes(marked, from);
      forall i: nat | from <= i ensures at(i).state < m.Size() && !Underflows(m, data, at(i)) {
        RunHops(m, data, at, i, 0);
        assert !marked(i);
      }
      var p, k := LowCircles(m, data, at, from);
    }
  }

  /** Without circles every chain ends. */
  lemma ChainEnds(m: Matcher, data: bytes, p: Place) returns (k: nat)
    requires Sane(m) && NoCircle(m) && p.state < m.Size()
    ensures Hops(m, data, p, k).None?
  {
    hide Sane, NoCircle;
    if forall k: nat :: Hops(m, data, p, k).Some? {
      var at := (i: nat) => if Hops(m, data, p, i).Some? then Hops(m, data, p, i).value else p;
      forall i: nat ensures at(i).state < m.Size() && Hop(m, data, at(i)) == Some(at(i + 1)) {
        assert Hops(m, data, p, i).Some? && Hops(m, data, p, i + 1).Some?;
        HopsAdd(m, data, p, i, 1);
        assert Hops(m, data, at(i), 1) == Some(at(i + 1));
        OneHop(m, data, at(i));
      }
      RunCircles(m, data, at);
    }
    k :| Hops(m, data, p, k).None?;
  }

  lemma OneHop(m: Matcher, data: bytes, p: Place)
    requires Sane(m) && p.state < m.Size()
    ensures Hops(m, data, p, 1) == Hop(m, data, p)
  {
  }

  lemma {:induction false} NoCircleHalts(m: Matcher, data: bytes, c: Config, left: nat)
    requires Sane(m) && NoCircle(m) && c.state < m.Size() && c.parseIdx < |data|
    requires Hops(m, data[c.parseIdx..], Place(c.state, c.stack), left).None?
    ensures Halts(m, data, c)
    decreases |data| - c.parseIdx, left
  {
    hide Sane, Step, NoCircle, Hop;
    var n: nat := 0;
    if Step(m, data, c).Next? {
      HopStep(m, data, c);
      StepProgress(m, data, c);
      var c' := Step(m, data, c).config;
      if c'.parseIdx == |data| {
        n := 1;
      } else {
        if c'.parseIdx == c.parseIdx {
          NoCircleHalts(m, data, c', left - 1);
        } else {
          var k := ChainEnds(m, data[c'.parseIdx..], Place(c'.state, c'.stack));
          NoCircleHalts(m, data, c', k);
        }
        n :| HaltsIn(m, data, c', n);
      }
    }
    assert HaltsIn(m, data, c, n + 1);
  }

  /** For every table: parsing ends on all data, from all states and stacks, exactly if on no data the
      Continue transitions come back to a state and the top of the stack. */
  lemma HaltsIffNoCircle(m: Matcher)
    requires Sane(m)
    ensures HaltsAlways(m) <==> NoCircle(m)
  {
    hide Sane, Halts, Circles;
    if NoCircle(m) {
      forall data, state: nat, stack | state < m.Size() ensures Halts(m, data, Start(state, stack)) {
        StartHalts(m, data, state, stack);
      }
    } else {
      var data, p, k: nat :| Circles(m, data, p, k);
      CircleNeedsData(m, data, p, k);
      CircleNeverHalts(m, data, p, k);
    }
  }

  lemma StartHalts(m: Matcher, data: bytes, state: nat, stack: seq<nat>)
    requires Sane(m) && NoCircle(m) && state < m.Size()
    ensures Halts(m, data, Start(state, stack))
  {
    hide Sane, NoCircle;
    if data == [] {
      assert HaltsIn(m, data, Start(state, stack), 1);
    } else {
      assert data[0..] == data;
      var k := ChainEnds(m, data, Place(state, stack));
      NoCircleHalts(m, data, Start(state, stack), k);
    }
  }

  // ------------------------------------------------- it suffices to look at the tokens

  /** Some transitions do on the longest token they find what they do on all data. */
  lemma {:induction false} HopsOnToken(table: seq<Tokens>, data: bytes, p: Place, k: nat) returns (token: bytes)
    requires Sane(Lists(table)) && p.state < |table| && k > 0 && Hops(Lists(table), data, p, k).Some?
    ensures IsToken(table, token) && Prefix(token, data)
    ensures forall longer :: Prefix(token, longer) && Prefix(longer, data) ==>
      && Hops(Lists(table), longer, p, k) == Hops(Lists(table), data, p, k)
      && Stays(Lists(table), longer, p, k) == Stays(Lists(table), data, p, k)
    decreases k
  {
    var m := Lists(table);
    hide Sane, Longest, Prefix;
    var first := FoundOnToken(table, data, p.state);
    var next := Hop(m, data, p).value;
    var deeper := first;
    token := first;
    if k > 1 {
      deeper := HopsOnToken(table, data, next, k - 1);
      if |deeper| > |first| { token := deeper; }
    }
    forall longer | Prefix(token, longer) && Prefix(longer, data)
      ensures Hops(m, longer, p, k) == Hops(m, data, p, k) && Stays(m, longer, p, k) == Stays(m, data, p, k) {
      PrefixIsShort(token, longer);
      PrefixesNest(longer, first, data);
      assert Found(m, longer, p.state) == Found(m, data, p.state);
      assert Hop(m, longer, p) == Some(next);
      if k > 1 { PrefixesNest(longer, deeper, data); }
    }
  }

  lemma PrefixIsShort(a: bytes, b: bytes)
    requires Prefix(a, b)
    ensures |a| <= |b|
  {
  }

  lemma FoundOnToken(table: seq<Tokens>, data: bytes, state: nat) returns (token: bytes)
    requires Sane(Lists(table)) && state < |table| && Found(Lists(table), data, state).Some?
    ensures IsToken(table, token) && Prefix(token, data)
    ensures forall longer :: Prefix(token, longer) && Prefix(longer, data) ==>
      Found(Lists(table), longer, state) == Found(Lists(table), data, state)
  {
    hide Longest, Sane;
    LongestIsLongest(table[state], data);
    var hit := Longest(table[state], data).value;
    var i: nat :| IsLongest(table[state], data, i) && hit == Hit(|table[state][i].0|, Some(table[state][i].1));
    token := table[state][i].0;
    forall longer | Prefix(token, longer) && Prefix(longer, data)
      ensures Found(Lists(table), longer, state) == Found(Lists(table), data, state) {
      LongestOnPrefix(table[state], data, longer);
    }
  }

  /** On no token of the table the Continue transitions come back. */
  ghost predicate TokensDoNotCircle(table: seq<Tokens>)
    requires Sane(Lists(table))
  {
    forall token, p, k: nat :: IsToken(table, token) ==> !Circles(Lists(table), token, p, k)
  }

  /** So the tokens of a table decide whether parsing always ends. */
  lemma HaltsIffTokensDoNotCircle(table: seq<Tokens>)
    requires Sane(Lists(table))
    ensures HaltsAlways(Lists(table)) <==> TokensDoNotCircle(table)
  {
    hide Sane, HaltsAlways, IsToken, Prefix;
    var m := Lists(table);
    HaltsIffNoCircle(m);
    if data, p, k: nat :| Circles(m, data, p, k) {
      var token := HopsOnToken(table, data, p, k);
      PrefixOfItself(token);
      assert Circles(m, token, p, k);
    }
  }
}
