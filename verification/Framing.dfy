/**
 Cutting a byte stream into frames: the reference the buffered reader refines, and the
 built-in frame recognisers of shared/bufferedreader.go.
 */
module Framing {
  import opened Utilities

  /** The answer (msgLen, msgStartOffset, padLen) of a check for completeness. */
  datatype Frame = Frame(len: int, offset: int, pad: int)
  {
    function Total(): int { offset + len + pad }
  }

  type Recogniser = bytes -> Frame

  /** The recogniser found a message in `data` and all of it has arrived. */
  predicate Fits(check: Recogniser, data: bytes) {
    check(data).len > 0 && check(data).Total() <= |data|
  }

  ghost predicate WellFormed(check: Recogniser) {
    forall data :: check(data).len > 0 ==> check(data).offset >= 0 && check(data).pad >= 0
  }

  /** A frame that fits stays the same frame when more bytes arrive. */
  ghost predicate PrefixStable(check: Recogniser) {
    forall data, more :: Fits(check, data) ==> check(data + more) == check(data)
  }

  /** A frame is recognised as soon as its last byte has arrived. */
  ghost predicate Prompt(check: Recogniser) {
    forall data, more :: Fits(check, data + more) && check(data + more).Total() <= |data| ==> Fits(check, data)
  }

  function Message(check: Recogniser, data: bytes): bytes
    requires WellFormed(check) && Fits(check, data)
  {
    data[check(data).offset..check(data).offset + check(data).len]
  }

  function After(check: Recogniser, data: bytes): (r: bytes)
    requires WellFormed(check) && Fits(check, data)
    ensures |r| < |data|
  {
    data[check(data).Total()..]
  }

  /** All messages of a stream, front to back. */
  function Frames(check: Recogniser, data: bytes): seq<bytes>
    requires WellFormed(check)
    decreases |data|
  {
    if Fits(check, data) then [Message(check, data)] + Frames(check, After(check, data)) else []
  }

  /** What is left of a stream behind its last complete message. */
  function Rest(check: Recogniser, data: bytes): (r: bytes)
    requires WellFormed(check)
    ensures !Fits(check, r)
    decreases |data|
  {
    if Fits(check, data) then Rest(check, After(check, data)) else data
  }

  lemma FirstFrameStays(check: Recogniser, data: bytes, more: bytes)
    requires WellFormed(check) && PrefixStable(check) && Fits(check, data)
    ensures Fits(check, data + more) && Message(check, data + more) == Message(check, data)
    ensures After(check, data + more) == After(check, data) + more
  {
    assert check(data + more) == check(data);
  }

  /** Bytes that arrive later never change what has been cut off already. */
  lemma {:induction false} FramesAppend(check: Recogniser, data: bytes, more: bytes)
    requires WellFormed(check) && PrefixStable(check)
    ensures Frames(check, data + more) == Frames(check, data) + Frames(check, Rest(check, data) + more)
    ensures Rest(check, data + more) == Rest(check, Rest(check, data) + more)
    decreases |data|
  {
    hide Fits, Message, WellFormed, PrefixStable;
    if Fits(check, data) {
      FirstFrameStays(check, data, more);
      AfterIsShorter(check, data);
      FramesAppend(check, After(check, data), more);
      FramesUnfold(check, data);
      FramesUnfold(check, data + more);
      hide Frames;
      Associative([Message(check, data)], Frames(check, After(check, data)), Frames(check, Rest(check, data) + more));
    }
  }

  lemma FramesUnfold(check: Recogniser, data: bytes)
    requires WellFormed(check) && Fits(check, data)
    ensures Frames(check, data) == [Message(check, data)] + Frames(check, After(check, data))
  {
  }

  lemma AfterIsShorter(check: Recogniser, data: bytes)
    requires WellFormed(check) && Fits(check, data)
    ensures |After(check, data)| < |data|
  {
  }

  /** No prefix of the stream leaves `size` or more bytes behind without a complete message. */
  ghost predicate FrameBounded(check: Recogniser, stream: bytes, size: nat)
    requires WellFormed(check)
  {
    forall n :: 0 <= n <= |stream| ==> |Rest(check, stream[..n])| < size
  }

  /** Every message of the stream, with its header and padding, has at most `size` bytes. */
  predicate FramesAtMost(check: Recogniser, stream: bytes, size: nat)
    requires WellFormed(check)
    decreases |stream|
  {
    if Fits(check, stream) then check(stream).Total() <= size && FramesAtMost(check, After(check, stream), size)
    else |stream| < size
  }

  lemma {:induction false} SmallFramesBoundTheRest(check: Recogniser, stream: bytes, size: nat)
    requires WellFormed(check) && PrefixStable(check) && Prompt(check)
    requires FramesAtMost(check, stream, size)
    ensures FrameBounded(check, stream, size)
    decreases |stream|
  {
    if Fits(check, stream) { SmallFramesBoundTheRest(check, After(check, stream), size); }
    forall n | 0 <= n <= |stream| ensures |Rest(check, stream[..n])| < size {
      var data, more := stream[..n], stream[n..];
      assert data + more == stream;
      if Fits(check, stream) {
        if n >= check(stream).Total() {
          assert Fits(check, data);
          assert check(stream) == check(data);
          assert After(check, data) == After(check, stream)[..n - check(stream).Total()];
        } else {
          assert Fits(check, data) ==> check(data + more) == check(data);
        }
      } else {
        assert Fits(check, data) ==> check(data + more) == check(data);
      }
    }
  }

  // ------------------------------------------------------ built-in recognisers

  datatype Encoding = Delimiter | MLEText | MLEBinary(width: nat) | MLEFixed

  /** The configuration of a reader: flags, delimiter and `paramMLE`. */
  datatype Settings = Settings(encoding: Encoding, param: nat, delimiter: bytes, everything: bool, bigEndian: bool)

  predicate ValidSettings(s: Settings) {
    s.encoding.MLEBinary? ==> s.encoding.width in {1, 2, 4, 8}
  }

  const INCOMPLETE := Frame(0, 0, 0)

  function CheckDelimiter(s: Settings, data: bytes): Frame {
    var idx := Index(data, s.delimiter);
    if idx == -1 then INCOMPLETE
    else if s.everything then Frame(idx + |s.delimiter|, 0, 0)
    else Frame(idx, 0, |s.delimiter|)
  }

  function CheckMLEFixed(s: Settings, data: bytes): Frame {
    if |data| >= s.param then Frame(s.param, 0, 0) else INCOMPLETE
  }

  /** The common tail of the runlength modes: `len` bytes behind a header of `offset` bytes. */
  function Payload(s: Settings, data: bytes, len: int, offset: nat): Frame {
    if len + offset > |data| then INCOMPLETE
    else if s.everything then Frame(len + offset, 0, 0)
    else Frame(len, offset, 0)
  }

  /** A header cut inside its delimiter counts as incomplete. */
  function CheckMLEText(s: Settings, data: bytes): Frame {
    if |data| <= s.param then INCOMPLETE
    else
      var (number, digits) := Parsed(data[s.param..]);
      var start := s.param + digits;
      if digits == 0 then INCOMPLETE
      else if !Prefix(s.delimiter, data[start..]) then INCOMPLETE
      else Payload(s, data, ToInt(number), start + |s.delimiter|)
  }

  function LittleEndian(s: bytes): nat {
    if s == [] then 0 else s[0] as nat + 256 * LittleEndian(s[1..])
  }

  function BigEndian(s: bytes): nat {
    if s == [] then 0 else 256 * BigEndian(s[..|s| - 1]) + s[|s| - 1] as nat
  }

  function Power(n: nat): (r: nat) ensures r > 0 { if n == 0 then 1 else 256 * Power(n - 1) }

  function Decode(s: Settings, field: bytes): nat {
    if s.bigEndian then BigEndian(field) else LittleEndian(field)
  }

  lemma {:induction false} FieldBound(s: bytes)
    ensures LittleEndian(s) < Power(|s|) && BigEndian(s) < Power(|s|)
    decreases |s|
  {
    if s != [] {
      FieldBound(s[1..]);
      FieldBound(s[..|s| - 1]);
    }
  }

  lemma EightBytes()
    ensures Power(8) == UINT64
  {
    assert Power(4) == 0x1_0000_0000;
    assert Power(8) == 256 * (256 * (256 * (256 * Power(4))));
  }

  function CheckMLEBinary(s: Settings, data: bytes): Frame
    requires ValidSettings(s) && s.encoding.MLEBinary?
  {
    var start := s.param + s.encoding.width;
    if |data| < start then Frame(0, -1, 0)
    else
      var field := data[s.param..start];
      FieldBound(field); EightBytes();
      var number := Decode(s, field);
      Payload(s, data, if s.encoding.width == 8 then ToInt(number) else number, start)
  }

  function Check(s: Settings): Recogniser
    requires ValidSettings(s)
  {
    match s.encoding
    case Delimiter => data => CheckDelimiter(s, data)
    case MLEText => data => CheckMLEText(s, data)
    case MLEBinary(_) => data => CheckMLEBinary(s, data)
    case MLEFixed => data => CheckMLEFixed(s, data)
  }

  lemma BuiltInsAreWellFormed(s: Settings)
    requires ValidSettings(s)
    ensures WellFormed(Check(s))
  {
  }

  lemma {:induction false} IndexAppend(data: bytes, more: bytes, part: bytes)
    requires Index(data, part) >= 0
    ensures Index(data + more, part) == Index(data, part)
  {
    assert |part| <= |data|;
    assert (data + more)[..|part|] == data[..|part|];
    if !Prefix(part, data) {
      assert (data + more)[1..] == data[1..] + more;
      IndexAppend(data[1..], more, part);
    }
  }

  lemma DigitRunAppend(data: bytes, more: bytes)
    requires DigitRun(data) < |data|
    ensures DigitRun(data + more) == DigitRun(data) && Parsed(data + more) == Parsed(data)
  {
    var n := DigitRun(data);
    assert (data + more)[..n] == data[..n];
    DigitRunUnique(data + more, n);
  }

  lemma DelimiterIsStable(s: Settings, data: bytes, more: bytes)
    requires ValidSettings(s) && s.encoding.Delimiter? && Fits(Check(s), data)
    ensures CheckDelimiter(s, data + more) == CheckDelimiter(s, data)
  {
    IndexAppend(data, more, s.delimiter);
  }

  lemma MLETextIsStable(s: Settings, data: bytes, more: bytes)
    requires ValidSettings(s) && s.encoding.MLEText? && Fits(Check(s), data)
    requires s.everything ==> s.delimiter != []
    ensures CheckMLEText(s, data + more) == CheckMLEText(s, data)
  {
    hide Prefix, DigitRun;
    var head := data[s.param..];
    var start := s.param + DigitRun(head);
    assert (data + more)[s.param..] == head + more;
    StartFits(data, start, s.delimiter);
    DigitRunAppend(head, more);
    AppendKeepsStart(data, more, start, s.delimiter);
  }

  lemma StartFits(data: bytes, start: nat, part: bytes)
    requires start <= |data| && Prefix(part, data[start..])
    ensures start + |part| <= |data|
  {
  }

  lemma MLEBinaryIsStable(s: Settings, data: bytes, more: bytes)
    requires ValidSettings(s) && s.encoding.MLEBinary? && Fits(Check(s), data)
    ensures CheckMLEBinary(s, data + more) == CheckMLEBinary(s, data)
  {
    AppendKeepsSlice(data, more, s.param, s.param + s.encoding.width);
  }

  lemma AppendKeepsStart(data: bytes, more: bytes, i: nat, part: bytes)
    requires i + |part| <= |data|
    ensures Prefix(part, (data + more)[i..]) == Prefix(part, data[i..])
  {
    AppendKeepsSlice(data, more, i, i + |part|);
    assert (data + more)[i..][..|part|] == (data + more)[i..i + |part|];
    assert data[i..][..|part|] == data[i..i + |part|];
  }

  lemma AppendKeepsSlice(data: bytes, more: bytes, from: nat, to: nat)
    requires from <= to <= |data|
    ensures (data + more)[from..to] == data[from..to]
  {
  }

  /** Exactly one configuration is not prefix-stable: text runlengths without a delimiter that
      keep the header, where "0" is a message until another digit arrives. */
  lemma StableSettings(s: Settings)
    requires ValidSettings(s)
    ensures PrefixStable(Check(s)) <==> !(s.encoding.MLEText? && s.everything && s.delimiter == [])
  {
    if s.encoding.MLEText? && s.everything && s.delimiter == [] {
      ZeroIsUnstable(s);
    } else {
      forall data, more | Fits(Check(s), data) ensures Check(s)(data + more) == Check(s)(data) {
        match s.encoding
        case Delimiter => DelimiterIsStable(s, data, more);
        case MLEText => MLETextIsStable(s, data, more);
        case MLEBinary(_) => MLEBinaryIsStable(s, data, more);
        case MLEFixed =>
      }
    }
  }

  /** A zero that is a message, and what another digit makes of it. */
  lemma ZeroThenFive(s: Settings) returns (data: bytes, more: bytes)
    requires s.encoding.MLEText? && s.everything && s.delimiter == []
    ensures Check(s)(data) == Frame(|data|, 0, 0) && data != [] && Check(s)(data + more) == INCOMPLETE
  {
    data, more := seq(s.param, i => 48 as byte) + [48], [53];
    assert data[s.param..] == [48] && (data + more)[s.param..] == [48, 53];
    DigitRunUnique([48], 1);
    DigitRunUnique([48, 53], 2);
    NumberOfDecimal(0);
    assert [48, 53][..1] == [48] && [48 as byte][..1] == [48];
    assert Number([48]) == 0 && Number([48, 53]) == 5;
    assert [48 as byte, 53][..2] == [48, 53];
    assert data[s.param + 1..] == [] && (data + more)[s.param + 2..] == [];
  }

  /** In the unstable configuration the messages depend on where the chunks are cut. */
  lemma ZeroIsUnstable(s: Settings)
    requires ValidSettings(s) && s.encoding.MLEText? && s.everything && s.delimiter == []
    ensures !PrefixStable(Check(s)) && WellFormed(Check(s))
    ensures exists data, more ::
      Frames(Check(s), data + more) != Frames(Check(s), data) + Frames(Check(s), Rest(Check(s), data) + more)
  {
    hide Check;
    BuiltInsAreWellFormed(s);
    var data, more := ZeroThenFive(s);
    var check := Check(s);
    assert Fits(check, data) && !Fits(check, data + more);
    var now, later := Frames(check, data), Frames(check, Rest(check, data) + more);
    assert now[0] == Message(check, data);
    assert |now + later| > 0 && Frames(check, data + more) == [];
  }

  lemma PromptDelimiter(s: Settings, data: bytes, more: bytes)
    requires ValidSettings(s) && s.encoding.Delimiter?
    requires Fits(Check(s), data + more) && CheckDelimiter(s, data + more).Total() <= |data|
    ensures Fits(Check(s), data)
  {
    var i := Index(data + more, s.delimiter);
    AppendKeepsStart(data, more, i, s.delimiter);
    IndexAppend(data, more, s.delimiter);
  }

  lemma PromptMLEText(s: Settings, data: bytes, more: bytes)
    requires ValidSettings(s) && s.encoding.MLEText? && !s.everything
    requires Fits(Check(s), data + more) && CheckMLEText(s, data + more).Total() <= |data|
    ensures Fits(Check(s), data)
  {
    var whole := (data + more)[s.param..];
    var n := DigitRun(whole);
    var head := data[s.param..];
    assert whole == head + more;
    assert head[..n] == whole[..n];
    DigitRunUnique(head, n);
    AppendKeepsStart(data, more, s.param + n, s.delimiter);
  }

  lemma PromptMLEBinary(s: Settings, data: bytes, more: bytes)
    requires ValidSettings(s) && s.encoding.MLEBinary? && !(s.everything && s.encoding.width == 8)
    requires Fits(Check(s), data + more) && CheckMLEBinary(s, data + more).Total() <= |data|
    ensures Fits(Check(s), data)
  {
    var start := s.param + s.encoding.width;
    assert |data| >= start;
    AppendKeepsSlice(data, more, s.param, start);
  }

  /** Behind the digits there is no digit, so this delimiter is never found. */
  lemma DigitDelimiterNeverFits(s: Settings, data: bytes)
    requires s.encoding.MLEText? && s.delimiter != [] && IsDigit(s.delimiter[0])
    ensures !Fits(Check(s), data)
  {
    if |data| > s.param {
      var start := s.param + DigitRun(data[s.param..]);
      assert start < |data| ==> data[start] == data[s.param..][DigitRun(data[s.param..])];
      HeadDiffers(data[start..], s.delimiter);
    }
  }

  lemma HeadDiffers(data: bytes, part: bytes)
    requires part != [] && (data == [] || data[0] != part[0])
    ensures !Prefix(part, data)
  {
  }

  function Ones(n: nat): (r: bytes)
    ensures |r| == n
  {
    if n == 0 then [] else [255] + Ones(n - 1)
  }

  lemma {:induction false} OnesEnd(n: nat)
    ensures Ones(n + 1) == Ones(n) + [255]
  {
    if n > 0 { OnesEnd(n - 1); }
  }

  lemma {:induction false} OnesDecode(n: nat)
    ensures LittleEndian(Ones(n)) == Power(n) - 1 && BigEndian(Ones(n)) == Power(n) - 1
  {
    if n > 0 {
      OnesDecode(n - 1);
      OnesEnd(n - 1);
      assert Ones(n)[1..] == Ones(n - 1);
      assert Ones(n)[..n - 1] == Ones(n - 1);
    }
  }

  /** A length of 2^64 - 1 wraps to -1: the message with its header is shorter than the header. */
  lemma WrappedFieldIsLate(s: Settings)
    requires ValidSettings(s) && s.encoding == MLEBinary(8) && s.everything
    ensures !Prompt(Check(s))
    ensures exists data :: |data| == s.param + 8 && Fits(Check(s), data) && Check(s)(data).Total() < |data|
  {
    var data := seq(s.param, i => 0 as byte) + Ones(7);
    OnesEnd(7);
    OnesDecode(8);
    EightBytes();
    assert (data + [255])[s.param..s.param + 8] == Ones(8);
    assert Check(s)(data + [255]) == Frame(s.param + 7, 0, 0);
    assert !Fits(Check(s), data);
  }

  /** A text length behind `pad` bytes, with what follows it. */
  lemma TextLength(s: Settings, number: nat, pad: bytes, rest: bytes)
    requires |pad| == s.param && number < UINT64 && (rest == [] || !IsDigit(rest[0]))
    ensures CheckMLEText(s, pad + Decimal(number) + rest) ==
      if !Prefix(s.delimiter, rest) then INCOMPLETE
      else Payload(s, pad + Decimal(number) + rest, ToInt(number), s.param + |Decimal(number)| + |s.delimiter|)
  {
    hide Decimal, Parsed, Payload, Prefix;
    var digits := Decimal(number);
    var data := pad + digits + rest;
    assert data[s.param..] == digits + rest;
    BtoiInvertsDecimal(number, rest);
    assert data[s.param + |digits|..] == rest;
  }

  lemma WrappedTextIsLate(s: Settings)
    requires s.encoding.MLEText? && s.everything && (s.delimiter == [] || !IsDigit(s.delimiter[0]))
    ensures !Prompt(Check(s))
  {
    hide CheckMLEText, Decimal;
    var number, pad := UINT64 - 1, seq(s.param, i => 0 as byte);
    var full := pad + Decimal(number) + s.delimiter;
    TextLength(s, number, pad, s.delimiter);
    assert Prefix(s.delimiter, s.delimiter);
    assert Check(s)(full) == Frame(|full| - 1, 0, 0);
    var data, last;
    if s.delimiter == [] {
      LastDigitOf(number);
      data, last := pad + Decimal(number / 10), [(48 + number % 10) as byte];
      TextLength(s, number / 10, pad, []);
      assert pad + Decimal(number / 10) + [] == data;
    } else {
      var n := |s.delimiter| - 1;
      data, last := pad + Decimal(number) + s.delimiter[..n], s.delimiter[n..];
      TextLength(s, number, pad, s.delimiter[..n]);
    }
    assert data + last == full;
    assert !Fits(Check(s), data);
  }

  lemma LastDigitOf(n: nat)
    requires n >= 10
    ensures Decimal(n) == Decimal(n / 10) + [(48 + n % 10) as byte]
  {
  }

  /** Messages are recognised on their last byte, except exactly where a length of 2^63 or more
      wraps to a negative one, the header is part of the message and the delimiter can be found. */
  lemma PromptSettings(s: Settings)
    requires ValidSettings(s)
    ensures Prompt(Check(s)) <==>
      !(s.everything && (s.encoding == MLEBinary(8)
        || (s.encoding.MLEText? && (s.delimiter == [] || !IsDigit(s.delimiter[0])))))
  {
    if s.everything && s.encoding == MLEBinary(8) {
      WrappedFieldIsLate(s);
    } else if s.everything && s.encoding.MLEText? && (s.delimiter == [] || !IsDigit(s.delimiter[0])) {
      WrappedTextIsLate(s);
    } else {
      forall data, more | Fits(Check(s), data + more) && Check(s)(data + more).Total() <= |data|
        ensures Fits(Check(s), data) {
        match s.encoding
        case Delimiter => PromptDelimiter(s, data, more);
        case MLEText =>
          if s.everything {
            DigitDelimiterNeverFits(s, data + more);
          } else {
            PromptMLEText(s, data, more);
          }
        case MLEBinary(_) => PromptMLEBinary(s, data, more);
        case MLEFixed =>
      }
    }
  }

  // --------------------------------------------------------------- what is a message

  /** Behind a header of the configured size stand `k` digits, no more, and the delimiter. */
  predicate LengthAt(s: Settings, data: bytes, k: nat) {
    && k > 0 && s.param + k + |s.delimiter| <= |data|
    && AllDigits(data[s.param..s.param + k])
    && (s.param + k < |data| ==> !IsDigit(data[s.param + k]))
    && data[s.param + k..s.param + k + |s.delimiter|] == s.delimiter
  }

  /** What the digits say. */
  function LengthOf(s: Settings, data: bytes, k: nat): int
    requires LengthAt(s, data, k)
  {
    ToInt(Number(data[s.param..s.param + k]) % UINT64)
  }

  /** So many bytes are there, and there is something to hand out. */
  predicate Arrived(s: Settings, data: bytes, k: nat)
    requires LengthAt(s, data, k)
  {
    var head, length := s.param + k + |s.delimiter|, LengthOf(s, data, k);
    head + length <= |data| && if s.everything then head + length > 0 else length > 0
  }

  lemma LengthIsRun(s: Settings, data: bytes, k: nat)
    requires s.param <= |data| && s.param + k <= |data| && AllDigits(data[s.param..s.param + k])
    requires s.param + k < |data| ==> !IsDigit(data[s.param + k])
    ensures DigitRun(data[s.param..]) == k && data[s.param..][..k] == data[s.param..s.param + k]
  {
    assert data[s.param..][..k] == data[s.param..s.param + k];
    DigitRunUnique(data[s.param..], k);
  }

  lemma RunIsLength(s: Settings, data: bytes)
    requires |data| > s.param
    ensures var k := DigitRun(data[s.param..]);
      && s.param + k <= |data| && AllDigits(data[s.param..s.param + k])
      && (s.param + k < |data| ==> !IsDigit(data[s.param + k]))
  {
    var k := DigitRun(data[s.param..]);
    assert s.param + k < |data| ==> data[s.param + k] == data[s.param..][k];
  }

  lemma LengthFrame(s: Settings, data: bytes, k: nat)
    requires LengthAt(s, data, k)
    ensures CheckMLEText(s, data) == Payload(s, data, LengthOf(s, data, k), s.param + k + |s.delimiter|)
  {
    hide Payload, DigitRun;
    LengthIsRun(s, data, k);
    assert data[s.param + k..][..|s.delimiter|] == data[s.param + k..s.param + k + |s.delimiter|];
  }

  lemma FitsHasLength(s: Settings, data: bytes)
    requires s.encoding.MLEText? && Fits(Check(s), data)
    ensures |data| > s.param && LengthAt(s, data, DigitRun(data[s.param..]))
  {
    hide Payload, DigitRun;
    RunIsLength(s, data);
    var k := DigitRun(data[s.param..]);
    assert data[s.param + k..][..|s.delimiter|] == data[s.param + k..s.param + k + |s.delimiter|];
  }

  /** In the text mode there is a message exactly if all its parts are there: header, digits,
      delimiter and as many bytes as the digits say; and these bytes are handed out. */
  lemma TextFitsIff(s: Settings, data: bytes)
    requires s.encoding.MLEText?
    ensures WellFormed(Check(s))
    ensures Fits(Check(s), data) <==> exists k: nat :: LengthAt(s, data, k) && Arrived(s, data, k)
    ensures forall k: nat :: LengthAt(s, data, k) && Arrived(s, data, k) ==>
      var head, end := s.param + k + |s.delimiter|, s.param + k + |s.delimiter| + LengthOf(s, data, k);
      && Message(Check(s), data) == (if s.everything then data[..end] else data[head..end])
      && After(Check(s), data) == data[end..]
  {
    hide CheckMLEText, LengthOf, LengthAt, DigitRun;
    BuiltInsAreWellFormed(s);
    if Fits(Check(s), data) {
      FitsHasLength(s, data);
      LengthFrame(s, data, DigitRun(data[s.param..]));
    }
    forall k: nat | LengthAt(s, data, k) && Arrived(s, data, k)
      ensures Fits(Check(s), data)
      ensures var head, end := s.param + k + |s.delimiter|, s.param + k + |s.delimiter| + LengthOf(s, data, k);
        && Message(Check(s), data) == (if s.everything then data[..end] else data[head..end])
        && After(Check(s), data) == data[end..]
    {
      LengthFrame(s, data, k);
    }
  }

  /** The delimiter stands at `i` and nowhere before. */
  predicate FirstAt(part: bytes, data: bytes, i: nat) {
    i <= |data| && Prefix(part, data[i..]) && forall j :: 0 <= j < i ==> !Prefix(part, data[j..])
  }

  lemma FirstIsIndex(part: bytes, data: bytes, i: nat)
    requires FirstAt(part, data, i)
    ensures i == Index(data, part) && i + |part| <= |data|
  {
  }

  /** In the delimiter mode: exactly if the delimiter is there, and not at the very front unless it is
      handed out as well. */
  lemma DelimiterFitsIff(s: Settings, data: bytes)
    requires s.encoding.Delimiter? && s.delimiter != []
    ensures Fits(Check(s), data) <==> exists i: nat :: FirstAt(s.delimiter, data, i) && (s.everything || i > 0)
  {
    var index := Index(data, s.delimiter);
    if index >= 0 { assert FirstAt(s.delimiter, data, index); }
  }

  /** The message is what stands in front of the first delimiter. */
  lemma DelimiterMessageIs(s: Settings, data: bytes, i: nat)
    requires s.encoding.Delimiter? && s.delimiter != [] && FirstAt(s.delimiter, data, i) && (s.everything || i > 0)
    ensures WellFormed(Check(s)) && Fits(Check(s), data) && i + |s.delimiter| <= |data|
    ensures Message(Check(s), data) == if s.everything then data[..i + |s.delimiter|] else data[..i]
    ensures After(Check(s), data) == data[i + |s.delimiter|..]
  {
    FirstIsIndex(s.delimiter, data, i);
    hide FirstAt;
  }
}
