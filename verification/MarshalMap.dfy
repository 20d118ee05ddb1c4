/** The path language of shared/marshalmap.go over nested values. */
module MarshalMap {
  import opened Utilities

  const SLASH: byte := 47
  const OPEN: byte := 91
  const CLOSE: byte := 93
  const PLUS: byte := 43
  const MINUS: byte := 45

  datatype Value = Leaf(id: int) | Array(items: seq<Value>) | Map(fields: map<bytes, Value>)

  /** A negative index passes the length check and panics. */
  datatype Outcome = Found(value: Value) | Missing | Panic

  // ---------------------------------------------------------------- resolution

  /** strings.Index for one byte. */
  function IndexOf(s: bytes, b: byte): (i: int)
    ensures -1 <= i < |s|
    ensures i == -1 <==> b !in s
    ensures i >= 0 ==> s[i] == b && forall j :: 0 <= j < i ==> s[j] != b
  {
    assert forall j :: 0 <= j < |s| ==> (Prefix([b], s[j..]) <==> s[j..][..1] == [s[j]] == [b]);
    Index(s, [b])
  }

  /** strconv.Atoi: an optional sign and digits, within 64 bits. */
  function Atoi(s: bytes): Option<int> {
    var negative := s != [] && s[0] == MINUS;
    var digits := if negative || (s != [] && s[0] == PLUS) then s[1..] else s;
    if digits == [] || !AllDigits(digits) then None
    else
      var n: int := Number(digits);
      if negative then if n <= INT64_LIMIT then Some(-n) else None
      else if n < INT64_LIMIT then Some(n) else None
  }

  /** Where the first name of a path ends, and where the rest begins. */
  function ResolvePathKey(key: bytes): (r: (nat, nat))
    ensures r.0 <= |key| && forall j :: 0 <= j < r.0 ==> key[j] != SLASH && key[j] != OPEN
    ensures r.1 == if r.0 < |key| && key[r.0] != OPEN then r.0 + 1 else r.0
    ensures r.0 < |key| ==> key[r.0] == SLASH || key[r.0] == OPEN
  {
    var pathIdx, arrayIdx := IndexOf(key, SLASH), IndexOf(key, OPEN);
    var keyEnd := if pathIdx > -1 then pathIdx else |key|;
    var nextKeyStart := if pathIdx > -1 then pathIdx + 1 else |key|;
    if arrayIdx > -1 && arrayIdx < keyEnd then (arrayIdx, arrayIdx) else (keyEnd, nextKeyStart)
  }

  /** Resolution always ends: the path gets shorter, or stays as it is on a smaller value. */
  function Resolve(key: bytes, value: Value): Outcome
    decreases |key|, value
  {
    if key == [] then Found(value)
    else
      match value
      case Leaf(_) => Missing
      case Array(items) =>
        var startIdx := IndexOf(key, OPEN) + 1;
        var endIdx := IndexOf(key, CLOSE);
        if startIdx == 1 && endIdx > startIdx then
          match Atoi(key[startIdx..endIdx])
          case None => Missing
          case Some(index) =>
            if index >= |items| then Missing
            else if index < 0 then Panic
            else Resolve(key[endIdx + 1..], items[index])
        else Missing
      case Map(fields) =>
        var (keyEnd, nextKeyStart) := ResolvePathKey(key);
        if key[..keyEnd] in fields then Resolve(key[nextKeyStart..], fields[key[..keyEnd]]) else Missing
  }

  // ------------------------------------------------------------- walking a value

  datatype Accessor = Key(name: bytes) | At(index: nat)

  /** What the accessors select, one after the other. */
  function Walk(value: Value, accessors: seq<Accessor>): Outcome
    decreases |accessors|
  {
    if accessors == [] then Found(value)
    else
      match (accessors[0], value)
      case (Key(name), Map(fields)) => if name in fields then Walk(fields[name], accessors[1..]) else Missing
      case (At(i), Array(items)) => if i < |items| then Walk(items[i], accessors[1..]) else Missing
      case _ => Missing
  }

  /** The same, where an index looks through the empty name of a map: a bracket ends the name in
      front of it, which is empty. */
  function Through(value: Value, accessors: seq<Accessor>): Outcome
    decreases |accessors|, value
  {
    if accessors == [] then Found(value)
    else
      match (accessors[0], value)
      case (Key(name), Map(fields)) => if name in fields then Through(fields[name], accessors[1..]) else Missing
      case (At(i), Array(items)) => if i < |items| then Through(items[i], accessors[1..]) else Missing
      case (At(_), Map(fields)) => if [] in fields then Through(fields[[]], accessors) else Missing
      case _ => Missing
  }

  /** The path of an accessor list: a slash stands between two names only. */
  function Path(accessors: seq<Accessor>): bytes {
    if accessors == [] then []
    else
      match accessors[0]
      case At(i) => [OPEN] + Decimal(i) + [CLOSE] + Path(accessors[1..])
      case Key(name) =>
        name + (if |accessors| > 1 && accessors[1].Key? then [SLASH] else []) + Path(accessors[1..])
  }

  predicate GoodName(name: bytes) { name != [] && SLASH !in name && OPEN !in name }

  predicate Good(a: Accessor) {
    match a
    case Key(name) => GoodName(name)
    case At(i) => i < INT64_LIMIT
  }

  predicate AllGood(accessors: seq<Accessor>) { forall i :: 0 <= i < |accessors| ==> Good(accessors[i]) }

  predicate NoEmptyNames(value: Value) {
    match value
    case Leaf(_) => true
    case Array(items) => forall i :: 0 <= i < |items| ==> NoEmptyNames(items[i])
    case Map(fields) => [] !in fields && forall name :: name in fields ==> NoEmptyNames(fields[name])
  }

  lemma IndexIs(s: bytes, b: byte, i: nat)
    requires i < |s| && s[i] == b && b !in s[..i]
    ensures IndexOf(s, b) == i
  {
    var j := IndexOf(s, b);
    assert s[i] in s;
    assert forall k :: 0 <= k < i ==> s[k] == s[..i][k] != b;
    assert forall k :: 0 <= k < j ==> s[k] == s[..j][k] != b;
  }

  lemma AtoiOfDecimal(i: nat)
    requires i < INT64_LIMIT
    ensures Atoi(Decimal(i)) == Some(i)
  {
    NumberOfDecimal(i);
    assert IsDigit(Decimal(i)[0]);
  }

  /** Signs, and numbers that an int can not hold. */
  lemma AtoiOfSigned(n: nat)
    ensures Atoi([PLUS] + Decimal(n)) == Atoi(Decimal(n)) == if n < INT64_LIMIT then Some(n as int) else None
    ensures Atoi([MINUS] + Decimal(n)) == if n <= INT64_LIMIT then Some(-(n as int)) else None
  {
    hide Decimal;
    NumberOfDecimal(n);
    assert IsDigit(Decimal(n)[0]);
    assert ([PLUS] + Decimal(n))[1..] == Decimal(n) == ([MINUS] + Decimal(n))[1..];
  }

  lemma DigitsAreNoBrackets(digits: bytes)
    requires AllDigits(digits)
    ensures CLOSE !in digits && OPEN !in digits
  {
  }

  /** An index in front of a path. */
  lemma IndexStep(i: nat, rest: bytes)
    requires i < INT64_LIMIT
    ensures var key := [OPEN] + Decimal(i) + [CLOSE] + rest; var end := IndexOf(key, CLOSE);
      && IndexOf(key, OPEN) == 0 && end > 1 && key[1..end] == Decimal(i) && key[end + 1..] == rest
      && ResolvePathKey(key) == (0, 0)
  {
    var key := [OPEN] + Decimal(i) + [CLOSE] + rest;
    var end := 1 + |Decimal(i)|;
    DigitsAreNoBrackets(Decimal(i));
    assert key[..end] == [OPEN] + Decimal(i) && key[end] == CLOSE;
    IndexIs(key, CLOSE, end);
    IndexIs(key, OPEN, 0);
  }

  /** A name in front of the rest of a path. */
  lemma NameStep(name: bytes, rest: bytes)
    requires GoodName(name) && (rest == [] || rest[0] == SLASH || rest[0] == OPEN)
    ensures ResolvePathKey(name + rest) == (|name|, if rest != [] && rest[0] == SLASH then |name| + 1 else |name|)
    ensures IndexOf(name + rest, OPEN) != 0
  {
    var key := name + rest;
    assert key[..|name|] == name;
    if rest == [] {
      assert key == name;
    } else {
      IndexIs(key, rest[0], |name|);
      assert forall k :: 0 <= k < |name| ==> key[k] == name[k];
    }
    assert key[0] == name[0] && name[0] in name;
  }

  lemma PathStart(accessors: seq<Accessor>)
    requires AllGood(accessors) && accessors != []
    ensures Path(accessors) != [] && (accessors[0].At? ==> Path(accessors)[0] == OPEN)
  {
  }

  /** What resolving an index in front of a path comes to. */
  lemma ResolveIndex(value: Value, i: nat, rest: bytes)
    requires i < INT64_LIMIT
    ensures var key := [OPEN] + Decimal(i) + [CLOSE] + rest;
      Resolve(key, value) ==
        if value.Array? && i < |value.items| then Resolve(rest, value.items[i])
        else if value.Map? && [] in value.fields then Resolve(key, value.fields[[]])
        else Missing
  {
    hide Decimal, Atoi, IndexOf, ResolvePathKey;
    var key := [OPEN] + Decimal(i) + [CLOSE] + rest;
    IndexStep(i, rest);
    AtoiOfDecimal(i);
    assert key[..0] == [] && key[0..] == key;
  }

  /** What resolving a name in front of a path comes to. */
  lemma ResolveName(value: Value, name: bytes, rest: bytes)
    requires GoodName(name) && (rest == [] || rest[0] == SLASH || rest[0] == OPEN)
    ensures Resolve(name + rest, value) ==
      if value.Map? && name in value.fields
      then Resolve(if rest != [] && rest[0] == SLASH then rest[1..] else rest, value.fields[name]) else Missing
  {
    hide IndexOf, ResolvePathKey, GoodName;
    var key := name + rest;
    NameStep(name, rest);
    assert name != [] by { assert GoodName(name); IsNotEmpty(name); }
    assert key[..|name|] == name && key[|name|..] == rest;
    assert rest != [] ==> key[|name| + 1..] == rest[1..];
  }

  lemma IsNotEmpty(name: bytes)
    requires GoodName(name)
    ensures name != []
  {
  }

  /** Resolving the printed path of any accessors on any value finds exactly what the accessors
      select, and nothing where they select nothing. */
  lemma {:induction false} PathIsThrough(value: Value, accessors: seq<Accessor>)
    requires AllGood(accessors)
    ensures Resolve(Path(accessors), value) == Through(value, accessors)
    decreases |accessors|, value
  {
    if accessors != [] {
      match accessors[0]
      case At(_) => IndexIsThrough(value, accessors);
      case Key(_) => NameIsThrough(value, accessors);
    } else {
      assert Resolve([], value) == Found(value);
    }
  }

  lemma IndexIsThrough(value: Value, accessors: seq<Accessor>)
    requires AllGood(accessors) && accessors != [] && accessors[0].At?
    ensures Resolve(Path(accessors), value) == Through(value, accessors)
    decreases |accessors|, value, 0
  {
    hide Resolve, Decimal;
    var i, rest := accessors[0].index, accessors[1..];
    assert Good(accessors[0]);
    ResolveIndex(value, i, Path(rest));
    if value.Array? && i < |value.items| {
      PathIsThrough(value.items[i], rest);
    } else if value.Map? && [] in value.fields {
      PathIsThrough(value.fields[[]], accessors);
    }
  }

  lemma NameIsThrough(value: Value, accessors: seq<Accessor>)
    requires AllGood(accessors) && accessors != [] && accessors[0].Key?
    ensures Resolve(Path(accessors), value) == Through(value, accessors)
    decreases |accessors|, value, 0
  {
    hide Resolve, Decimal;
    var name, rest := accessors[0].name, accessors[1..];
    assert Good(accessors[0]);
    if rest != [] { PathStart(rest); }
    var tail := (if rest != [] && rest[0].Key? then [SLASH] else []) + Path(rest);
    assert Path(accessors) == name + tail;
    assert tail != [] && tail[0] == SLASH ==> rest[0].Key? && tail[1..] == Path(rest);
    assert tail == [] || tail[0] != SLASH ==> tail == Path(rest);
    ResolveName(value, name, tail);
    if value.Map? && name in value.fields { PathIsThrough(value.fields[name], rest); }
  }

  lemma {:induction false} ThroughIsWalk(value: Value, accessors: seq<Accessor>)
    requires NoEmptyNames(value)
    ensures Through(value, accessors) == Walk(value, accessors)
    decreases |accessors|
  {
    if accessors != [] {
      match (accessors[0], value)
      case (Key(name), Map(fields)) => if name in fields { ThroughIsWalk(fields[name], accessors[1..]); }
      case (At(i), Array(items)) => if i < |items| { ThroughIsWalk(items[i], accessors[1..]); }
      case _ =>
    }
  }

  /** Without empty names that is walking the value. */
  lemma PathIsWalk(value: Value, accessors: seq<Accessor>)
    requires NoEmptyNames(value) && AllGood(accessors)
    ensures Resolve(Path(accessors), value) == Walk(value, accessors)
  {
    PathIsThrough(value, accessors);
    ThroughIsWalk(value, accessors);
  }

  /** A single name selects its field in every value exactly if it is not empty and has neither
      a slash nor a bracket. */
  lemma NameIsGoodIff(name: bytes)
    ensures GoodName(name) <==> forall value :: Resolve(name, value) == Walk(value, [Key(name)])
  {
    if GoodName(name) {
      forall value ensures Resolve(name, value) == Walk(value, [Key(name)]) {
        assert Path([Key(name)]) == name && [Key(name)][1..] == [];
        PathIsThrough(value, [Key(name)]);
      }
    } else if name == [] {
      assert Walk(Map(map[]), [Key(name)]) == Missing;
    } else {
      var value := Map(map[name := Leaf(0)]);
      assert [Key(name)][1..] == [];
      assert Walk(value, [Key(name)]) == Found(Leaf(0));
      assert |name[..ResolvePathKey(name).0]| < |name|;
      assert Resolve(name, value) == Missing;
    }
  }

  // ---------------------------------------------------------------------- panics

  predicate StartsWithIndex(key: bytes, end: nat) {
    1 < end < |key| && key[0] == OPEN && Atoi(key[1..end]).Some?
  }

  /** Where an index at the start of a path ends, if it is one. */
  function IndexEnd(key: bytes): (end: Option<nat>)
    ensures end.Some? ==> StartsWithIndex(key, end.value)
  {
    var end := IndexOf(key, CLOSE);
    if key != [] && key[0] == OPEN && end > 1 && Atoi(key[1..end]).Some? then Some(end) else None
  }

  /** Going through the path name by name and index by index, one comes to a negative index; behind
      brackets without a number in them resolution does not go on. */
  predicate MeetsNegative(key: bytes)
    decreases |key|
  {
    if key == [] then false
    else if key[0] != OPEN then MeetsNegative(key[ResolvePathKey(key).1..])
    else
      match IndexEnd(key)
      case None => false
      case Some(end) => Atoi(key[1..end]).value < 0 || MeetsNegative(key[end + 1..])
  }

  lemma OpensAt(key: bytes)
    requires key != []
    ensures key[0] == OPEN ==> IndexOf(key, OPEN) == 0 && ResolvePathKey(key) == (0, 0)
    ensures key[0] != OPEN ==> IndexOf(key, OPEN) != 0
  {
    if key[0] == OPEN {
      assert key[..0] == [];
      IndexIs(key, OPEN, 0);
    }
  }

  /** Resolution of an array, one index at a time. */
  lemma ResolveArray(key: bytes, items: seq<Value>)
    requires key != []
    ensures Resolve(key, Array(items)) ==
      match IndexEnd(key)
      case None => Missing
      case Some(end) =>
        var index := Atoi(key[1..end]).value;
        if index >= |items| then Missing
        else if index < 0 then Panic
        else Resolve(key[end + 1..], items[index])
  {
    hide Atoi, IndexOf, ResolvePathKey;
    OpensAt(key);
    var end := IndexOf(key, CLOSE);
    if key[0] == OPEN && end > 1 { assert IndexEnd(key) == if Atoi(key[1..end]).Some? then Some(end) else None; }
  }

  lemma {:induction false} PanicMeetsNegative(key: bytes, value: Value)
    requires Resolve(key, value) == Panic
    ensures MeetsNegative(key)
    decreases |key|, value
  {
    hide Atoi, IndexOf, IndexEnd, ResolvePathKey;
    OpensAt(key);
    match value
    case Array(items) =>
      ResolveArray(key, items);
      var end := IndexEnd(key);
      if end.Some? && 0 <= Atoi(key[1..end.value]).value < |items| {
        PanicMeetsNegative(key[end.value + 1..], items[Atoi(key[1..end.value]).value]);
      }
    case Map(fields) =>
      var (keyEnd, nextKeyStart) := ResolvePathKey(key);
      PanicMeetsNegative(key[nextKeyStart..], fields[key[..keyEnd]]);
      assert key[0] == OPEN ==> key[0..] == key;
    case _ =>
  }

  /** A value with just the names and indices that the path needs. */
  function Along(key: bytes): Value
    decreases |key|
  {
    if key == [] then Leaf(0)
    else if key[0] != OPEN then
      var (keyEnd, nextKeyStart) := ResolvePathKey(key);
      Map(map[key[..keyEnd] := Along(key[nextKeyStart..])])
    else
      match IndexEnd(key)
      case None => Leaf(0)
      case Some(end) =>
        var index := Atoi(key[1..end]).value;
        if index < 0 then Array([]) else Array(seq(index + 1, _ => Along(key[end + 1..])))
  }

  lemma {:induction false} NegativePanics(key: bytes)
    requires MeetsNegative(key)
    ensures Resolve(key, Along(key)) == Panic
    decreases |key|
  {
    hide Atoi, IndexOf, IndexEnd, ResolvePathKey;
    OpensAt(key);
    if key[0] != OPEN {
      NegativePanics(key[ResolvePathKey(key).1..]);
    } else {
      var end := IndexEnd(key).value;
      var items := Along(key).items;
      ResolveArray(key, items);
      if Atoi(key[1..end]).value >= 0 { NegativePanics(key[end + 1..]); }
    }
  }

  /** A path makes resolution panic on some value exactly if it comes to a negative index. */
  lemma PanicsIffNegative(key: bytes)
    ensures (exists value :: Resolve(key, value) == Panic) <==> MeetsNegative(key)
  {
    if MeetsNegative(key) { NegativePanics(key); }
    if value :| Resolve(key, value) == Panic { PanicMeetsNegative(key, value); }
  }

  // ------------------------------------------------------------------- any path at all

  /** How reading a path ends. */
  datatype Ending = Whole | Malformed | Negative

  datatype Reading = Reading(accessors: seq<Accessor>, ending: Ending)

  /** How many bytes there are in front of the first slash or bracket. */
  function NameLength(key: bytes): (n: nat)
    ensures n <= |key|
  {
    if key == [] || key[0] == SLASH || key[0] == OPEN then 0 else 1 + NameLength(key[1..])
  }

  /** One slash separates two names. */
  function BehindName(rest: bytes): bytes { if rest != [] && rest[0] == SLASH then rest[1..] else rest }

  function Prepend(a: Accessor, r: Reading): Reading { Reading([a] + r.accessors, r.ending) }

  /** Reading a path from front to back: names, numbers in brackets, and up to what is neither. */
  function Read(key: bytes): Reading
    decreases |key|
  {
    if key == [] then Reading([], Whole)
    else if key[0] == OPEN then
      match IndexEnd(key)
      case None => Reading([], Malformed)
      case Some(end) =>
        var index := Atoi(key[1..end]).value;
        if index < 0 then Reading([], Negative) else Prepend(At(index), Read(key[end + 1..]))
    else Prepend(Key(key[..NameLength(key)]), Read(BehindName(key[NameLength(key)..])))
  }

  /** A negative index panics in an array, and in what the empty name of a map leads to. */
  predicate Breaks(value: Value) {
    match value
    case Leaf(_) => false
    case Array(_) => true
    case Map(fields) => [] in fields && Breaks(fields[[]])
  }

  /** What the accessors select if the path is read to its end; nothing if it is malformed. */
  function Selected(value: Value, r: Reading): Outcome {
    match Through(value, r.accessors)
    case Found(v) =>
      (match r.ending
       case Whole => Found(v)
       case Malformed => Missing
       case Negative => if Breaks(v) then Panic else Missing)
    case other => other
  }

  lemma {:induction false} NameEnds(key: bytes)
    ensures ResolvePathKey(key).0 == NameLength(key)
    ensures key[ResolvePathKey(key).1..] == BehindName(key[NameLength(key)..])
  {
    hide ResolvePathKey;
    NameLengthIs(key, ResolvePathKey(key).0);
  }

  lemma {:induction false} NameLengthIs(key: bytes, n: nat)
    requires n <= |key| && forall j :: 0 <= j < n ==> key[j] != SLASH && key[j] != OPEN
    requires n < |key| ==> key[n] == SLASH || key[n] == OPEN
    ensures NameLength(key) == n
  {
    if n > 0 {
      assert forall j :: 1 <= j < |key| ==> key[j] == key[1..][j - 1];
      NameLengthIs(key[1..], n - 1);
    }
  }

  /** Resolution of a map, one name at a time. */
  lemma ResolveMap(key: bytes, fields: map<bytes, Value>)
    requires key != []
    ensures var n := NameLength(key);
      Resolve(key, Map(fields))
        == if key[..n] in fields then Resolve(BehindName(key[n..]), fields[key[..n]]) else Missing
  {
    hide ResolvePathKey, NameLength;
    NameEnds(key);
  }

  lemma SelectedBehindName(value: Value, name: bytes, r: Reading)
    ensures Selected(value, Prepend(Key(name), r)) ==
      if value.Map? && name in value.fields then Selected(value.fields[name], r) else Missing
  {
    assert Prepend(Key(name), r).accessors[1..] == r.accessors;
  }

  lemma SelectedBehindIndex(value: Value, i: nat, r: Reading)
    ensures Selected(value, Prepend(At(i), r)) ==
      if value.Array? && i < |value.items| then Selected(value.items[i], r)
      else if value.Map? && [] in value.fields then Selected(value.fields[[]], Prepend(At(i), r))
      else Missing
  {
    assert Prepend(At(i), r).accessors[1..] == r.accessors;
  }

  /** For every path and every value: resolution selects what the names and indices of the path
      select, finds nothing if the path is malformed where it gets to, and panics exactly where it
      gets to a negative index of an array. */
  lemma {:induction false} ResolveIsReading(key: bytes, value: Value)
    ensures Resolve(key, value) == Selected(value, Read(key))
    decreases |key|, value
  {
    if key != [] {
      if key[0] == OPEN { BracketIsRead(key, value); } else { NameIsRead(key, value); }
    }
  }

  lemma {:induction false} NameIsRead(key: bytes, value: Value)
    requires key != [] && key[0] != OPEN
    ensures Resolve(key, value) == Selected(value, Read(key))
    decreases |key|, value, 0
  {
    hide Resolve, Selected, Atoi, IndexOf, IndexEnd, ResolvePathKey;
    var n := NameLength(key);
    SelectedBehindName(value, key[..n], Read(BehindName(key[n..])));
    match value
    case Map(fields) =>
      ResolveMap(key, fields);
      if key[..n] in fields { ResolveIsReading(BehindName(key[n..]), fields[key[..n]]); }
    case Array(items) =>
      ResolveArray(key, items);
      NoIndexThere(key);
    case Leaf(_) => LeafIsMissing(key, value.id);
  }

  lemma NoIndexThere(key: bytes)
    requires key != [] && key[0] != OPEN
    ensures IndexEnd(key).None?
  {
  }

  lemma LeafIsMissing(key: bytes, id: int)
    requires key != []
    ensures Resolve(key, Leaf(id)) == Missing
  {
  }

  lemma {:induction false} BracketIsRead(key: bytes, value: Value)
    requires key != [] && key[0] == OPEN
    ensures Resolve(key, value) == Selected(value, Read(key))
    decreases |key|, value, 0
  {
    hide Resolve, Atoi, IndexOf, IndexEnd, ResolvePathKey;
    var end := IndexEnd(key);
    var index := if end.Some? then Atoi(key[1..end.value]).value else -1;
    if index >= 0 { SelectedBehindIndex(value, index, Read(key[end.value + 1..])); }
    match value
    case Array(items) =>
      ResolveArray(key, items);
      if 0 <= index < |items| {
        hide Selected;
        ResolveIsReading(key[end.value + 1..], items[index]);
      }
    case Map(fields) =>
      ResolveMap(key, fields);
      assert NameLength(key) == 0 && BehindName(key[0..]) == key && key[..0] == [];
      if [] in fields { BracketIsRead(key, fields[[]]); }
    case Leaf(_) => LeafIsMissing(key, value.id);
  }
}
