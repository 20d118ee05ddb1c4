/**
 The writers that belong to the frame recognisers: format/runlength.go for the text runlength,
 and the plain encodings the other modes expect.  Reading what was written gives the payloads
 back, up to the first payload the reader can not see.
 */
module Runlength {
  import opened Utilities
  import opened Framing
  import BufferedReader

  /** A payload, and the bytes that stand in front of its length if the reader is told an offset. */
  datatype Packet = Packet(header: bytes, payload: bytes)

  type Writer = Packet -> bytes

  function Text(separator: bytes, payload: bytes): bytes { Decimal(|payload|) + separator + payload }

  /** Format: the buffer is allocated once and filled by two copies. */
  method Format(separator: bytes, base: bytes) returns (payload: array<byte>)
    ensures fresh(payload) && payload[..] == Text(separator, base)
  {
    var lengthStr := Decimal(|base|) + separator;
    payload := new byte[|lengthStr| + |base|](i => 0);
    var n := |lengthStr|;
    forall i | 0 <= i < n { payload[i] := lengthStr[i]; }
    forall i | 0 <= i < |base| { payload[n + i] := base[i]; }
    assert payload[..] == lengthStr + base;
  }

  // -------------------------------------------------------- the general theorem

  /** The stream made of the given packets. */
  function Stream(write: Writer, packets: seq<Packet>): bytes {
    if packets == [] then [] else write(packets[0]) + Stream(write, packets[1..])
  }

  /** What the reader should hand out: everything that was written, or the payload. */
  function Expected(write: Writer, everything: bool, packet: Packet): bytes {
    if everything then write(packet) else packet.payload
  }

  function AllExpected(write: Writer, everything: bool, packets: seq<Packet>): seq<bytes> {
    seq(|packets|, i requires 0 <= i < |packets| => Expected(write, everything, packets[i]))
  }

  function Payloads(packets: seq<Packet>): seq<bytes> {
    seq(|packets|, i requires 0 <= i < |packets| => packets[i].payload)
  }

  /** The messages before the first empty one. */
  function UpToEmpty(messages: seq<bytes>): (r: seq<bytes>)
    ensures r <= messages
    ensures r == messages <==> forall i :: 0 <= i < |messages| ==> messages[i] != []
  {
    if messages == [] || messages[0] == [] then []
    else
      var r := [messages[0]] + UpToEmpty(messages[1..]);
      assert messages == [messages[0]] + messages[1..];
      assert forall i :: 1 <= i < |messages| ==> messages[i] == messages[1..][i - 1];
      r
  }

  /** With `rest` behind it, the recogniser cuts exactly this message, or nothing if it is empty. */
  predicate Cuts(check: Recogniser, message: bytes, written: bytes, rest: bytes)
    requires WellFormed(check)
  {
    if message == [] then !Fits(check, written + rest)
    else
      && Fits(check, written + rest) && Message(check, written + rest) == message
      && After(check, written + rest) == rest
  }

  ghost predicate Recognises(check: Recogniser, message: bytes, written: bytes)
    requires WellFormed(check)
  {
    forall rest :: Cuts(check, message, written, rest)
  }

  /** The runlength modes: a header and as many bytes as it says. */
  lemma RunlengthCuts(check: Recogniser, everything: bool, header: bytes, payload: bytes, rest: bytes)
    requires WellFormed(check) && header != []
    requires check(header + payload + rest) == if everything then Frame(|header| + |payload|, 0, 0)
      else Frame(|payload|, |header|, 0)
    ensures Cuts(check, if everything then header + payload else payload, header + payload, rest)
  {
    var data := header + payload + rest;
    assert data[..|header| + |payload|] == header + payload;
    assert data[|header|..|header| + |payload|] == payload;
    assert data[|header| + |payload|..] == rest;
  }

  lemma {:induction false} ReadsBack(check: Recogniser, write: Writer, everything: bool, packets: seq<Packet>)
    requires WellFormed(check) && !Fits(check, [])
    requires forall i :: 0 <= i < |packets| ==>
      Recognises(check, Expected(write, everything, packets[i]), write(packets[i]))
    ensures Frames(check, Stream(write, packets)) == UpToEmpty(AllExpected(write, everything, packets))
  {
    if packets != [] {
      var rest := Stream(write, packets[1..]);
      assert Recognises(check, Expected(write, everything, packets[0]), write(packets[0]));
      assert AllExpected(write, everything, packets)[1..] == AllExpected(write, everything, packets[1..]);
      assert Cuts(check, Expected(write, everything, packets[0]), write(packets[0]), rest);
      if Expected(write, everything, packets[0]) != [] {
        forall i | 0 <= i < |packets[1..]|
          ensures Recognises(check, Expected(write, everything, packets[1..][i]), write(packets[1..][i])) {
          assert packets[1..][i] == packets[i + 1];
        }
        ReadsBack(check, write, everything, packets[1..]);
      }
    }
  }

  // ------------------------------------------------------------- text runlength

  function TextSettings(offset: nat, separator: bytes, everything: bool): Settings {
    Settings(MLEText, offset, separator, everything, false)
  }

  predicate GoodSeparator(separator: bytes) { separator != [] && !IsDigit(separator[0]) }

  /** A header of the length the reader is told, and a payload whose length an int can hold. */
  predicate Sendable(offset: nat, packet: Packet) { |packet.header| == offset && |packet.payload| < INT64_LIMIT }

  function TextPacket(separator: bytes, packet: Packet): bytes { packet.header + Text(separator, packet.payload) }

  lemma TextParts(separator: bytes, packet: Packet, rest: bytes)
    ensures var head := packet.header + Decimal(|packet.payload|) + separator;
      var behind := separator + packet.payload + rest;
      && TextPacket(separator, packet) == head + packet.payload
      && head + packet.payload + rest == packet.header + Decimal(|packet.payload|) + behind
      && Prefix(separator, behind)
  {
    hide Decimal;
  }

  lemma TextFrame(offset: nat, separator: bytes, everything: bool, packet: Packet, rest: bytes)
    requires GoodSeparator(separator) && Sendable(offset, packet)
    ensures var n := offset + |Decimal(|packet.payload|)| + |separator|;
      CheckMLEText(TextSettings(offset, separator, everything), TextPacket(separator, packet) + rest)
        == if everything then Frame(n + |packet.payload|, 0, 0) else Frame(|packet.payload|, n, 0)
  {
    hide Decimal, CheckMLEText, Prefix, TextPacket;
    TextParts(separator, packet, rest);
    TextLength(TextSettings(offset, separator, everything), |packet.payload|, packet.header,
      separator + packet.payload + rest);
  }

  lemma TextCuts(offset: nat, separator: bytes, everything: bool, packet: Packet, rest: bytes)
    requires GoodSeparator(separator) && Sendable(offset, packet)
    requires WellFormed(Check(TextSettings(offset, separator, everything)))
    ensures Cuts(Check(TextSettings(offset, separator, everything)),
                 if everything then TextPacket(separator, packet) else packet.payload,
                 TextPacket(separator, packet), rest)
  {
    hide Decimal, CheckMLEText, TextPacket, Cuts;
    TextFrame(offset, separator, everything, packet, rest);
    TextParts(separator, packet, rest);
    RunlengthCuts(Check(TextSettings(offset, separator, everything)), everything,
      packet.header + Decimal(|packet.payload|) + separator, packet.payload, rest);
  }

  /** Reading back a stream of Runlength messages, behind headers of any content if the reader is told
      their length, for every list of packets. */
  lemma TextRoundTrip(offset: nat, separator: bytes, everything: bool, packets: seq<Packet>)
    requires GoodSeparator(separator)
    requires forall i :: 0 <= i < |packets| ==> Sendable(offset, packets[i])
    ensures WellFormed(Check(TextSettings(offset, separator, everything)))
    ensures var write := (p: Packet) => TextPacket(separator, p);
      Frames(Check(TextSettings(offset, separator, everything)), Stream(write, packets))
        == UpToEmpty(AllExpected(write, everything, packets))
  {
    var write := (p: Packet) => TextPacket(separator, p);
    var check := Check(TextSettings(offset, separator, everything));
    forall i | 0 <= i < |packets|
      ensures Recognises(check, Expected(write, everything, packets[i]), write(packets[i])) {
      forall rest ensures Cuts(check, Expected(write, everything, packets[i]), write(packets[i]), rest) {
        TextCuts(offset, separator, everything, packets[i], rest);
      }
    }
    ReadsBack(check, write, everything, packets);
  }

  /** The separator condition is exact: with any other separator some payload is not read back. */
  lemma SeparatorIsNeeded(separator: bytes)
    requires !GoodSeparator(separator)
    ensures WellFormed(Check(TextSettings(0, separator, false)))
    ensures exists p ::
      && p != [] && |p| < INT64_LIMIT
      && Frames(Check(TextSettings(0, separator, false)), Text(separator, p)) != [p]
  {
    hide Check, Text;
    var p: bytes := if separator == [] then [49] else [97];
    BuiltInsAreWellFormed(TextSettings(0, separator, false));
    if separator == [] { NoSeparator(); } else { DigitSeparator(separator); }
    assert Frames(Check(TextSettings(0, separator, false)), Text(separator, p)) == [];
  }

  /** The length 1 and the payload "1" read as the length 11. */
  lemma NoSeparator()
    ensures !Fits(Check(TextSettings(0, [], false)), Text([], [49]))
  {
    var data := Text([], [49]);
    assert Decimal(1) == [49] && data == [49, 49] && data[0..] == data;
    DigitRunUnique(data, 2);
    assert data[..2] == data && data[..1] == [49];
    assert Number([49]) == 1 && Number(data) == 11;
  }

  /** The first byte of the separator counts as part of the length, so the separator is not found. */
  lemma DigitSeparator(separator: bytes)
    requires separator != [] && IsDigit(separator[0])
    ensures !Fits(Check(TextSettings(0, separator, false)), Text(separator, [97]))
  {
    DigitDelimiterNeverFits(TextSettings(0, separator, false), Text(separator, [97]));
  }

  // ---------------------------------------------------------- binary runlengths

  function LittleField(n: nat, width: nat): bytes {
    if width == 0 then [] else [(n % 256) as byte] + LittleField(n / 256, width - 1)
  }

  function BigField(n: nat, width: nat): bytes {
    if width == 0 then [] else BigField(n / 256, width - 1) + [(n % 256) as byte]
  }

  lemma {:induction false} FieldsDecode(n: nat, width: nat)
    requires n < Power(width)
    ensures |LittleField(n, width)| == width && LittleEndian(LittleField(n, width)) == n
    ensures |BigField(n, width)| == width && BigEndian(BigField(n, width)) == n
  {
    if width > 0 {
      FieldsDecode(n / 256, width - 1);
      assert LittleField(n, width)[1..] == LittleField(n / 256, width - 1);
      assert BigField(n, width)[..width - 1] == BigField(n / 256, width - 1);
    }
  }

  function FieldOf(width: nat, bigEndian: bool, n: nat): bytes {
    if bigEndian then BigField(n, width) else LittleField(n, width)
  }

  function Binary(width: nat, bigEndian: bool, packet: Packet): bytes {
    packet.header + FieldOf(width, bigEndian, |packet.payload|) + packet.payload
  }

  function BinarySettings(offset: nat, width: nat, bigEndian: bool, everything: bool): Settings {
    Settings(MLEBinary(width), offset, [], everything, bigEndian)
  }

  /** Lengths that the field can hold, too. */
  predicate FieldHolds(offset: nat, width: nat, packet: Packet) {
    Sendable(offset, packet) && |packet.payload| < Power(width)
  }

  lemma BinaryFrame(offset: nat, width: nat, bigEndian: bool, everything: bool, packet: Packet, rest: bytes)
    requires width in {1, 2, 4, 8} && FieldHolds(offset, width, packet)
    ensures
      CheckMLEBinary(BinarySettings(offset, width, bigEndian, everything), Binary(width, bigEndian, packet) + rest)
         == if everything then Frame(offset + width + |packet.payload|, 0, 0)
            else Frame(|packet.payload|, offset + width, 0)
  {
    hide Power, LittleField, BigField, LittleEndian, BigEndian;
    var field := FieldOf(width, bigEndian, |packet.payload|);
    FieldsDecode(|packet.payload|, width);
    AppendKeepsSlice(packet.header + field, packet.payload + rest, offset, offset + width);
    Associative(packet.header + field, packet.payload, rest);
    assert (packet.header + field)[offset..offset + width] == field;
  }

  lemma BinaryCuts(offset: nat, width: nat, bigEndian: bool, everything: bool, packet: Packet, rest: bytes)
    requires width in {1, 2, 4, 8} && FieldHolds(offset, width, packet)
    requires WellFormed(Check(BinarySettings(offset, width, bigEndian, everything)))
    ensures Cuts(Check(BinarySettings(offset, width, bigEndian, everything)),
                 if everything then Binary(width, bigEndian, packet) else packet.payload,
                 Binary(width, bigEndian, packet), rest)
  {
    hide CheckMLEBinary, FieldOf, Cuts;
    FieldHasWidth(width, bigEndian, |packet.payload|);
    BinaryFrame(offset, width, bigEndian, everything, packet, rest);
    RunlengthCuts(Check(BinarySettings(offset, width, bigEndian, everything)), everything,
      packet.header + FieldOf(width, bigEndian, |packet.payload|), packet.payload, rest);
  }

  lemma FieldHasWidth(width: nat, bigEndian: bool, n: nat)
    requires n < Power(width)
    ensures |FieldOf(width, bigEndian, n)| == width
  {
    FieldsDecode(n, width);
  }

  lemma NothingFitsNothing(check: Recogniser)
    requires WellFormed(check)
    ensures !Fits(check, [])
  {
  }

  lemma BinaryRoundTrip(offset: nat, width: nat, bigEndian: bool, everything: bool, packets: seq<Packet>)
    requires width in {1, 2, 4, 8}
    requires forall i :: 0 <= i < |packets| ==> FieldHolds(offset, width, packets[i])
    ensures WellFormed(Check(BinarySettings(offset, width, bigEndian, everything)))
    ensures var write := (p: Packet) => Binary(width, bigEndian, p);
      Frames(Check(BinarySettings(offset, width, bigEndian, everything)), Stream(write, packets))
        == UpToEmpty(AllExpected(write, everything, packets))
  {
    hide Check, Cuts, Fits, Binary;
    var write := (p: Packet) => Binary(width, bigEndian, p);
    var check := Check(BinarySettings(offset, width, bigEndian, everything));
    BuiltInsAreWellFormed(BinarySettings(offset, width, bigEndian, everything));
    NothingFitsNothing(check);
    forall i | 0 <= i < |packets|
      ensures Recognises(check, Expected(write, everything, packets[i]), write(packets[i])) {
      forall rest ensures Cuts(check, Expected(write, everything, packets[i]), write(packets[i]), rest) {
        BinaryCuts(offset, width, bigEndian, everything, packets[i], rest);
      }
    }
    ReadsBack(check, write, everything, packets);
  }

  // ---------------------------------------------------------------- fixed lengths

  function FixedSettings(length: nat, everything: bool): Settings { Settings(MLEFixed, length, [], everything, false) }

  lemma FixedCuts(length: nat, everything: bool, payload: bytes, rest: bytes)
    requires length > 0 && |payload| == length
    requires WellFormed(Check(FixedSettings(length, everything)))
    ensures Cuts(Check(FixedSettings(length, everything)), payload, payload, rest)
  {
  }

  /** Messages of a fixed length need no header: any bytes are cut into pieces of that length. */
  lemma {:induction false} FixedRoundTrip(length: nat, everything: bool, packets: seq<Packet>, rest: bytes)
    requires length > 0 && |rest| < length && forall i :: 0 <= i < |packets| ==> |packets[i].payload| == length
    ensures WellFormed(Check(FixedSettings(length, everything)))
    ensures var check := Check(FixedSettings(length, everything));
      var data := Stream((p: Packet) => p.payload, packets) + rest;
      Frames(check, data) == Payloads(packets) && Rest(check, data) == rest
  {
    var write, check := (p: Packet) => p.payload, Check(FixedSettings(length, everything));
    assert WellFormed(check);
    if packets != [] {
      hide Check, Fits, Message, WellFormed;
      var tail := Stream(write, packets[1..]) + rest;
      FixedRoundTrip(length, everything, packets[1..], rest);
      Associative(packets[0].payload, Stream(write, packets[1..]), rest);
      FixedCuts(length, everything, packets[0].payload, tail);
      assert Payloads(packets) == [packets[0].payload] + Payloads(packets[1..]);
    } else {
      assert Stream(write, packets) + rest == rest;
    }
  }

  /** With the length 0 nothing is ever a message. */
  lemma NothingOfLengthZero(everything: bool, data: bytes)
    ensures !Fits(Check(FixedSettings(0, everything)), data)
  {
  }

  // ------------------------------------------------------------------ delimiter

  function DelimiterSettings(delimiter: bytes, everything: bool): Settings {
    Settings(Delimiter, 0, delimiter, everything, false)
  }

  /** The delimiter behind the payload is the first one. */
  predicate EndsAtDelimiter(delimiter: bytes, payload: bytes) {
    delimiter != [] && Index(payload + delimiter, delimiter) == |payload|
  }

  lemma DelimiterFrame(delimiter: bytes, everything: bool, payload: bytes, rest: bytes)
    requires EndsAtDelimiter(delimiter, payload)
    ensures CheckDelimiter(DelimiterSettings(delimiter, everything), payload + delimiter + rest)
         == if everything then Frame(|payload| + |delimiter|, 0, 0) else Frame(|payload|, 0, |delimiter|)
  {
    IndexAppend(payload + delimiter, rest, delimiter);
  }

  lemma DelimiterCuts(delimiter: bytes, everything: bool, payload: bytes, rest: bytes)
    requires EndsAtDelimiter(delimiter, payload)
    requires WellFormed(Check(DelimiterSettings(delimiter, everything)))
    ensures Cuts(Check(DelimiterSettings(delimiter, everything)), if everything then payload + delimiter else payload,
      payload + delimiter, rest)
  {
    hide Index;
    var data := payload + delimiter + rest;
    DelimiterFrame(delimiter, everything, payload, rest);
    assert data[..|payload|] == payload && data[..|payload| + |delimiter|] == payload + delimiter;
    assert data[|payload| + |delimiter|..] == rest;
  }

  lemma DelimiterRoundTrip(delimiter: bytes, everything: bool, packets: seq<Packet>)
    requires delimiter != []
    requires forall i :: 0 <= i < |packets| ==> EndsAtDelimiter(delimiter, packets[i].payload)
    ensures WellFormed(Check(DelimiterSettings(delimiter, everything)))
    ensures var write := (p: Packet) => p.payload + delimiter;
      Frames(Check(DelimiterSettings(delimiter, everything)), Stream(write, packets))
        == UpToEmpty(AllExpected(write, everything, packets))
  {
    hide Index, EndsAtDelimiter, Stream, AllExpected;
    var write := (p: Packet) => p.payload + delimiter;
    var check := Check(DelimiterSettings(delimiter, everything));
    forall i | 0 <= i < |packets|
      ensures Recognises(check, Expected(write, everything, packets[i]), write(packets[i])) {
      forall rest ensures Cuts(check, Expected(write, everything, packets[i]), write(packets[i]), rest) {
        DelimiterCuts(delimiter, everything, packets[i].payload, rest);
      }
    }
    EmptyDoesNotFit(delimiter, everything);
    ReadsBack(check, write, everything, packets);
  }

  lemma EmptyDoesNotFit(delimiter: bytes, everything: bool)
    requires delimiter != []
    ensures !Fits(Check(DelimiterSettings(delimiter, everything)), [])
  {
  }

  // ---------------------------------------------------------------- end to end

  /** Writer and reader together: whatever pieces the written stream arrives in and however small
      the buffer is, the reader hands out exactly the payloads, numbered from 0. */
  method Transfer(offset: nat, separator: bytes, packets: seq<Packet>, bufferSize: nat,
                  script: seq<BufferedReader.Event>)
    returns (out: seq<(bytes, nat)>)
    requires GoodSeparator(separator) && bufferSize > 0 && !BufferedReader.CanFail(script)
    requires forall i :: 0 <= i < |packets| ==> packets[i].payload != [] && Sendable(offset, packets[i])
    requires BufferedReader.AllBytes(script) == Stream((p: Packet) => TextPacket(separator, p), packets)
    ensures BufferedReader.Texts(out) == Payloads(packets)
    ensures forall i :: 0 <= i < |out| ==> out[i].1 == i % UINT64
  {
    hide Stream, AllExpected;
    var check := Check(TextSettings(offset, separator, false));
    TextRoundTrip(offset, separator, false, packets);
    StableSettings(TextSettings(offset, separator, false));
    PayloadsAreExpected((p: Packet) => TextPacket(separator, p), packets);
    var failed;
    out, failed := BufferedReader.ConsumeScript(bufferSize, check, script);
  }

  lemma PayloadsAreExpected(write: Writer, packets: seq<Packet>)
    ensures AllExpected(write, false, packets) == Payloads(packets)
  {
  }
}
