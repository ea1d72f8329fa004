/** How messages are delimited on a pipe: one JSON line each, or a header block and a counted
    body, told apart by the first byte and free to be mixed on one stream. */
module Framing {
  import opened Wrappers
  import opened ByteText

  /** What `json.loads` makes of bytes. */
  datatype Loaded<M> = Object(message: M) | OtherValue | NotJson

  /** `json.dumps` and `json.loads`, which are foreign here. */
  datatype Codec<!M(!new)> = Codec(dumps: M -> Bytes, loads: Bytes -> Loaded<M>)

  const OPEN_BRACE: Byte := 123
  const OPEN_BRACKET: Byte := 91
  const CLOSE_BRACE: Byte := 125

  /** The text of `m` is one line between braces, and decodes back. */
  ghost predicate IsEncoding<M(!new)>(codec: Codec<M>, m: M) {
    var text := codec.dumps(m);
    && |text| >= 2 && text[0] == OPEN_BRACE && text[|text| - 1] == CLOSE_BRACE && LF !in text
    && codec.loads(text) == Object(m)
  }

  /** `b"Content-Length"` as it is written, and as header names are compared. */
  const CONTENT_LENGTH: Bytes := [67, 111, 110, 116, 101, 110, 116, 45, 76, 101, 110, 103, 116, 104]
  const CONTENT_LENGTH_LOWER: Bytes := [99, 111, 110, 116, 101, 110, 116, 45, 108, 101, 110, 103, 116, 104]

  function Encode<M(!new)>(codec: Codec<M>, m: M): Bytes {
    codec.dumps(m) + [LF]
  }

  function HeaderBlock(length: nat): Bytes {
    CONTENT_LENGTH + [COLON, 32] + Decimal(length) + [CR, LF] + [CR, LF]
  }

  function EncodeWithHeaders<M(!new)>(codec: Codec<M>, m: M): Bytes {
    var body := codec.dumps(m);
    HeaderBlock(|body|) + body
  }

  // --------------------------------------------------------------------------------- reading

  datatype Fault = NoColon | NoLength | LengthNotANumber | Truncated | InvalidJson | NotAnObject

  /** A negative length makes `readexactly` raise something `read_message` does not catch. */
  datatype Outcome<M> = Message(message: M) | EndOfInput | Malformed(fault: Fault) | Escaped

  function Lowered(s: Bytes): Bytes {
    seq(|s|, i requires 0 <= i < |s| => if 65 <= s[i] <= 90 then s[i] + 32 else s[i])
  }

  predicate Blank(line: Bytes) {
    line == [LF] || line == [CR, LF]
  }

  /** The first line that is not blank, and what follows it. */
  function SkipBlank(input: Bytes): (split: (Bytes, Bytes))
    ensures |split.0| + |split.1| <= |input|
    ensures split.0 == [] ==> split.1 == []
    decreases |input|
  {
    var (line, rest) := SplitLine(input);
    if Blank(line) then
      assert |rest| < |input|;
      SkipBlank(rest)
    else (line, rest)
  }

  function Load<M(!new)>(codec: Codec<M>, raw: Bytes): Outcome<M> {
    match codec.loads(raw)
    case Object(m) => Message(m)
    case OtherValue => Malformed(NotAnObject)
    case NotJson => Malformed(InvalidJson)
  }

  /** The fields of a header block that starts with the stripped line `line`; the last of several
      with one name counts. */
  function Headers(line: Bytes, fields: map<Bytes, Bytes>, input: Bytes)
    : (read: (Option<map<Bytes, Bytes>>, Bytes))
    ensures |read.1| <= |input|
    decreases |input|, |line|
  {
    if line == [] then (Some(fields), input)
    else
      var colon := IndexOf(line, COLON);
      if colon == |line| then (None, input)
      else
        var name := Lowered(Stripped(line[..colon]));
        var (next, rest) := SplitLine(input);
        assert input == [] ==> Stripped(next) == [];
        Headers(Stripped(next), fields[name := Stripped(line[colon + 1..])], rest)
  }

  /** A counted body: too short a rest is consumed whole. */
  function Body<M(!new)>(codec: Codec<M>, length: int, input: Bytes): (Outcome<M>, Bytes) {
    if length < 0 then (Escaped, input)
    else if length > |input| then (Malformed(Truncated), [])
    else (Load(codec, input[..length]), input[length..])
  }

  /** One message, and the input left after it. */
  function Read<M(!new)>(codec: Codec<M>, input: Bytes): (read: (Outcome<M>, Bytes))
    ensures read.0 != EndOfInput ==> |read.1| < |input|
  {
    var (line, rest) := SkipBlank(input);
    if line == [] then (EndOfInput, rest)
    else
      var text := Stripped(line);
      if text != [] && (text[0] == OPEN_BRACE || text[0] == OPEN_BRACKET) then (Load(codec, text), rest)
      else
        var (fields, after) := Headers(text, map[], rest);
        if fields.None? then (Malformed(NoColon), after)
        else if CONTENT_LENGTH_LOWER !in fields.value then (Malformed(NoLength), after)
        else
          match ParseInt(fields.value[CONTENT_LENGTH_LOWER])
          case None => (Malformed(LengthNotANumber), after)
          case Some(length) => Body(codec, length, after)
  }

  /** An `asyncio.StreamReader`: the bytes still to come before the end of input. */
  class StreamReader {
    var buffer: Bytes

    constructor (input: Bytes)
      ensures buffer == input
    {
      buffer := input;
    }

    method ReadLine() returns (line: Bytes)
      modifies this
      ensures (line, buffer) == SplitLine(old(buffer))
    {
      var i := 0;
      while i < |buffer| && buffer[i] != LF
        invariant i <= |buffer| && LF !in buffer[..i]
      {
        i := i + 1;
      }
      FirstIndex(buffer, LF, i);
      var end := if i < |buffer| then i + 1 else i;
      line := buffer[..end];
      buffer := buffer[end..];
    }

    /** None is an `IncompleteReadError`. */
    method ReadExactly(length: nat) returns (body: Option<Bytes>)
      modifies this
      ensures if length <= |old(buffer)|
              then body == Some(old(buffer)[..length]) && buffer == old(buffer)[length..]
              else body == None && buffer == []
    {
      if length <= |buffer| {
        body := Some(buffer[..length]);
        buffer := buffer[length..];
      } else {
        body := None;
        buffer := [];
      }
    }
  }

  /** The first line that is not blank. */
  method ReadPastBlank(reader: StreamReader) returns (line: Bytes)
    modifies reader
    ensures (line, reader.buffer) == SkipBlank(old(reader.buffer))
  {
    line := reader.ReadLine();
    while Blank(line)
      invariant SkipBlank(old(reader.buffer))
                == if Blank(line) then SkipBlank(reader.buffer) else (line, reader.buffer)
      invariant line == [] ==> reader.buffer == []
      decreases |line| + |reader.buffer|
    {
      line := reader.ReadLine();
    }
  }

  /** The header block whose first line, stripped, is `first`. */
  method ReadHeaders(reader: StreamReader, first: Bytes) returns (read: Option<map<Bytes, Bytes>>)
    modifies reader
    ensures (read, reader.buffer) == Headers(first, map[], old(reader.buffer))
  {
    var text := first;
    var fields: map<Bytes, Bytes> := map[];
    while text != []
      invariant Headers(first, map[], old(reader.buffer)) == Headers(text, fields, reader.buffer)
      decreases |reader.buffer|, |text|
    {
      var colon := IndexOf(text, COLON);
      if colon == |text| {
        return None;
      }
      fields := fields[Lowered(Stripped(text[..colon])) := Stripped(text[colon + 1..])];
      var next := reader.ReadLine();
      text := Stripped(next);
    }
    return Some(fields);
  }

  method ReadMessage<M(!new)>(codec: Codec<M>, reader: StreamReader) returns (outcome: Outcome<M>)
    modifies reader
    ensures (outcome, reader.buffer) == Read(codec, old(reader.buffer))
  {
    var line := ReadPastBlank(reader);
    if line == [] {
      return EndOfInput;
    }
    var text := Stripped(line);
    if text != [] && (text[0] == OPEN_BRACE || text[0] == OPEN_BRACKET) {
      return Load(codec, text);
    }
    var fields := ReadHeaders(reader, text);
    if fields.None? {
      return Malformed(NoColon);
    }
    if CONTENT_LENGTH_LOWER !in fields.value {
      return Malformed(NoLength);
    }
    var length := ParseInt(fields.value[CONTENT_LENGTH_LOWER]);
    if length.None? {
      return Malformed(LengthNotANumber);
    }
    if length.value < 0 {
      return Escaped;
    }
    var body := reader.ReadExactly(length.value);
    if body.None? {
      return Malformed(Truncated);
    }
    return Load(codec, body.value);
  }

  // ---------------------------------------------------------------------------- whole streams

  /** Everything reading a stream to its end yields. */
  function Outcomes<M(!new)>(codec: Codec<M>, input: Bytes): seq<Outcome<M>>
    decreases |input|
  {
    var (outcome, rest) := Read(codec, input);
    if outcome.EndOfInput? || outcome.Escaped? then [outcome] else [outcome] + Outcomes(codec, rest)
  }

  lemma FirstOutcome<M(!new)>(codec: Codec<M>, input: Bytes)
    ensures var (outcome, rest) := Read(codec, input);
            Outcomes(codec, input)
            == [outcome] + if outcome.EndOfInput? || outcome.Escaped? then [] else Outcomes(codec, rest)
  {
    hide Read;
  }

  method ReadToEnd<M(!new)>(codec: Codec<M>, reader: StreamReader) returns (outcomes: seq<Outcome<M>>)
    modifies reader
    ensures outcomes == Outcomes(codec, old(reader.buffer))
  {
    hide Outcomes, Read;
    outcomes := [];
    FirstOutcome(codec, reader.buffer);
    var outcome := ReadMessage(codec, reader);
    while !outcome.EndOfInput? && !outcome.Escaped?
      invariant Outcomes(codec, old(reader.buffer))
                == (outcomes + [outcome])
                   + if outcome.EndOfInput? || outcome.Escaped? then [] else Outcomes(codec, reader.buffer)
      decreases !outcome.EndOfInput?, |reader.buffer|
    {
      outcomes := outcomes + [outcome];
      FirstOutcome(codec, reader.buffer);
      outcome := ReadMessage(codec, reader);
      ghost var tail := if outcome.EndOfInput? || outcome.Escaped? then [] else Outcomes(codec, reader.buffer);
      assert outcomes + ([outcome] + tail) == (outcomes + [outcome]) + tail;
    }
    outcomes := outcomes + [outcome];
  }

  /** What a peer may put on a stream: frames of either kind, blank lines, and lines that are no
      frame at all. */
  datatype Item<M> =
    | BlankLine(crlf: bool)
    | Line(message: M)
    | Counted(message: M)
    | BadValue(text: Bytes)
    | NotAHeader(text: Bytes)

  ghost predicate Proper<M(!new)>(codec: Codec<M>, item: Item<M>) {
    match item
    case Line(m) => IsEncoding(codec, m)
    case Counted(m) => IsEncoding(codec, m)
    case BadValue(text) =>
      && LF !in text && Solid(text) && (text[0] == OPEN_BRACE || text[0] == OPEN_BRACKET)
      && !codec.loads(text).Object?
    case NotAHeader(text) =>
      && LF !in text && Solid(text) && text[0] != OPEN_BRACE && text[0] != OPEN_BRACKET
      && COLON !in text
    case _ => true
  }

  function Written<M(!new)>(codec: Codec<M>, item: Item<M>): Bytes {
    match item
    case BlankLine(crlf) => if crlf then [CR, LF] else [LF]
    case Line(m) => Encode(codec, m)
    case Counted(m) => EncodeWithHeaders(codec, m)
    case BadValue(text) => text + [LF]
    case NotAHeader(text) => text + [LF]
  }

  function Meaning<M(!new)>(codec: Codec<M>, item: Item<M>): seq<Outcome<M>> {
    match item
    case BlankLine(_) => []
    case Line(m) => [Message(m)]
    case Counted(m) => [Message(m)]
    case BadValue(text) => [Malformed(if codec.loads(text).NotJson? then InvalidJson else NotAnObject)]
    case NotAHeader(_) => [Malformed(NoColon)]
  }

  function WrittenAll<M(!new)>(codec: Codec<M>, items: seq<Item<M>>): Bytes
    decreases |items|
  {
    if items == [] then [] else Written(codec, items[0]) + WrittenAll(codec, items[1..])
  }

  function MeaningAll<M(!new)>(codec: Codec<M>, items: seq<Item<M>>): seq<Outcome<M>>
    decreases |items|
  {
    if items == [] then [] else Meaning(codec, items[0]) + MeaningAll(codec, items[1..])
  }

  lemma ReadTextLine<M(!new)>(codec: Codec<M>, text: Bytes, rest: Bytes)
    requires LF !in text && Solid(text)
    ensures SkipBlank(text + [LF] + rest) == (text + [LF], rest) && Stripped(text + [LF]) == text
  {
    SplitLineAt(text, rest);
    StrippedBetween([], text, [LF]);
    assert [] + text + [LF] == text + [LF];
    assert (text + [LF])[0] == text[0];
  }

  lemma ReadsOneValue<M(!new)>(codec: Codec<M>, text: Bytes, rest: Bytes)
    requires LF !in text && Solid(text) && (text[0] == OPEN_BRACE || text[0] == OPEN_BRACKET)
    ensures Read(codec, text + [LF] + rest) == (Load(codec, text), rest)
  {
    ReadTextLine(codec, text, rest);
  }

  lemma SkipsBlankLine(crlf: bool, rest: Bytes)
    ensures SkipBlank((if crlf then [CR, LF] else [LF]) + rest) == SkipBlank(rest)
  {
    var line: Bytes := if crlf then [CR] else [];
    SplitLineAt(line, rest);
    assert line + [LF] == if crlf then [CR, LF] else [LF];
  }

  /** The header block `%d` writes says what it counts, and ends where the body starts. */
  lemma ReadsHeaderBlock(length: nat, rest: Bytes)
    ensures var (line, after) := SkipBlank(HeaderBlock(length) + rest);
            && line != [] && Stripped(line) != []
            && Stripped(line)[0] != OPEN_BRACE && Stripped(line)[0] != OPEN_BRACKET
            && Headers(Stripped(line), map[], after) == (Some(map[CONTENT_LENGTH_LOWER := Decimal(length)]), rest)
  {
    DecimalRoundTrip(length);
    var text := CONTENT_LENGTH + [COLON, 32] + Decimal(length);
    var ending: Bytes := [CR, LF] + rest;
    assert HeaderBlock(length) + rest == (text + [CR]) + [LF] + ending;
    SplitLineAt(text + [CR], ending);
    assert Solid(text);
    StrippedBetween([], text, [CR, LF]);
    assert [] + text + [CR, LF] == text + [CR] + [LF];
    HeaderField(text, length);
    assert ending == [CR] + [LF] + rest;
    SplitLineAt([CR], rest);
    EmptyLine();
  }

  lemma EmptyLine()
    ensures Stripped([CR] + [LF]) == []
  {
    var line: Bytes := [CR] + [LF];
    assert line[1..] == [LF] && line[1..][1..] == [];
    assert LeftStripped([]) == [];
    assert LeftStripped(line[1..]) == [];
  }

  lemma NameComparesLowered()
    ensures Lowered(CONTENT_LENGTH) == CONTENT_LENGTH_LOWER && Solid(CONTENT_LENGTH) && COLON !in CONTENT_LENGTH
  {
  }

  lemma FieldSplits(name: Bytes, value: Bytes)
    requires Solid(name) && COLON !in name && Solid(value)
    ensures var text := name + [COLON, 32] + value;
            && IndexOf(text, COLON) == |name|
            && Stripped(text[..|name|]) == name && Stripped(text[|name| + 1..]) == value
  {
    var text := name + [COLON, 32] + value;
    assert text[..|name|] == name;
    FirstIndex(text, COLON, |name|);
    StrippedBetween([], name, []);
    assert [] + name + [] == name;
    StrippedBetween([32], value, []);
    assert text[|name| + 1..] == [32] + value + [];
  }

  lemma HeaderField(text: Bytes, length: nat)
    requires text == CONTENT_LENGTH + [COLON, 32] + Decimal(length)
    ensures IndexOf(text, COLON) == |CONTENT_LENGTH|
    ensures Lowered(Stripped(text[..|CONTENT_LENGTH|])) == CONTENT_LENGTH_LOWER
    ensures Stripped(text[|CONTENT_LENGTH| + 1..]) == Decimal(length)
  {
    DecimalRoundTrip(length);
    NameComparesLowered();
    hide *;
    FieldSplits(CONTENT_LENGTH, Decimal(length));
  }

  lemma ReadsCounted<M(!new)>(codec: Codec<M>, m: M, rest: Bytes)
    requires IsEncoding(codec, m)
    ensures Read(codec, EncodeWithHeaders(codec, m) + rest) == (Message(m), rest)
  {
    var body := codec.dumps(m);
    assert EncodeWithHeaders(codec, m) + rest == HeaderBlock(|body|) + (body + rest);
    hide Headers, SkipBlank, HeaderBlock;
    ReadsHeaderBlock(|body|, body + rest);
    DecimalRoundTrip(|body|);
  }

  lemma ReadsNotAHeader<M(!new)>(codec: Codec<M>, text: Bytes, rest: Bytes)
    requires Proper(codec, NotAHeader(text))
    ensures Read(codec, text + [LF] + rest) == (Malformed(NoColon), rest)
  {
    ReadTextLine(codec, text, rest);
    FirstIndex(text, COLON, |text|);
  }

  lemma SkippedAlike<M(!new)>(codec: Codec<M>, input: Bytes, rest: Bytes)
    requires SkipBlank(input) == SkipBlank(rest)
    ensures Outcomes(codec, input) == Outcomes(codec, rest)
  {
    hide SkipBlank, Headers, Body, Load;
  }

  lemma ReadsItem<M(!new)>(codec: Codec<M>, item: Item<M>, rest: Bytes)
    requires Proper(codec, item)
    ensures Outcomes(codec, Written(codec, item) + rest) == Meaning(codec, item) + Outcomes(codec, rest)
  {
    hide Read, EncodeWithHeaders;
    match item
    case BlankLine(crlf) =>
      SkipsBlankLine(crlf, rest);
      SkippedAlike(codec, Written(codec, item) + rest, rest);
    case Line(m) => ReadsOneValue(codec, codec.dumps(m), rest);
    case Counted(m) => ReadsCounted(codec, m, rest);
    case BadValue(text) => ReadsOneValue(codec, text, rest);
    case NotAHeader(text) => ReadsNotAHeader(codec, text, rest);
  }

  /** Whatever frames of either kind, blank lines and lines that are no frame a stream holds, each
      is read as what it is, consumes exactly its own bytes, and disturbs nothing after it. */
  lemma {:induction false} StreamReadsBack<M(!new)>(codec: Codec<M>, items: seq<Item<M>>, tail: Bytes)
    requires forall i :: 0 <= i < |items| ==> Proper(codec, items[i])
    ensures Outcomes(codec, WrittenAll(codec, items) + tail) == MeaningAll(codec, items) + Outcomes(codec, tail)
    decreases |items|
  {
    hide Proper, Written, Meaning, Read;
    if items == [] {
      assert WrittenAll(codec, items) + tail == tail;
    } else {
      var rest := WrittenAll(codec, items[1..]) + tail;
      assert WrittenAll(codec, items) + tail == Written(codec, items[0]) + rest;
      ReadsItem(codec, items[0], rest);
      StreamReadsBack(codec, items[1..], tail);
    }
  }

  /** The messages written in either framing, mixed and with blank lines between, are what is read,
      and then the end of input. */
  lemma MixedFramingsRoundTrip<M(!new)>(codec: Codec<M>, items: seq<Item<M>>)
    requires forall i :: 0 <= i < |items| ==> items[i].BlankLine? || items[i].Line? || items[i].Counted?
    requires forall i :: 0 <= i < |items| && !items[i].BlankLine? ==> IsEncoding(codec, items[i].message)
    ensures Outcomes(codec, WrittenAll(codec, items))
            == MessagesOf(items) + [EndOfInput]
  {
    StreamReadsBack(codec, items, []);
    assert WrittenAll(codec, items) + [] == WrittenAll(codec, items);
    MeaningIsMessages(codec, items);
  }

  function MessagesOf<M(!new)>(items: seq<Item<M>>): seq<Outcome<M>>
    decreases |items|
  {
    if items == [] then []
    else (if items[0].Line? || items[0].Counted? then [Message(items[0].message)] else []) + MessagesOf(items[1..])
  }

  lemma {:induction false} MeaningIsMessages<M(!new)>(codec: Codec<M>, items: seq<Item<M>>)
    requires forall i :: 0 <= i < |items| ==> items[i].BlankLine? || items[i].Line? || items[i].Counted?
    ensures MeaningAll(codec, items) == MessagesOf(items)
    decreases |items|
  {
    if items != [] {
      MeaningIsMessages(codec, items[1..]);
    }
  }

  /** A body cut short by the end of input is a fault of its own, and only then the end. */
  lemma TruncatedBodyIsNotTheEnd<M(!new)>(codec: Codec<M>, items: seq<Item<M>>, length: nat, part: Bytes)
    requires forall i :: 0 <= i < |items| ==> Proper(codec, items[i])
    requires |part| < length
    ensures Outcomes(codec, WrittenAll(codec, items) + (HeaderBlock(length) + part))
            == MeaningAll(codec, items) + [Malformed(Truncated), EndOfInput]
  {
    StreamReadsBack(codec, items, HeaderBlock(length) + part);
    hide Proper, Outcomes;
    TruncatedTail(codec, length, part);
  }

  lemma TruncatedTail<M(!new)>(codec: Codec<M>, length: nat, part: Bytes)
    requires |part| < length
    ensures Outcomes(codec, HeaderBlock(length) + part) == [Malformed(Truncated), EndOfInput]
  {
    var input := HeaderBlock(length) + part;
    assert Read(codec, input) == (Malformed(Truncated), []) by {
      hide Headers, SkipBlank, HeaderBlock;
      ReadsHeaderBlock(length, part);
      DecimalRoundTrip(length);
    }
    hide Read, HeaderBlock;
    FirstOutcome(codec, input);
    NothingLeft(codec);
  }

  lemma NothingLeft<M(!new)>(codec: Codec<M>)
    ensures Outcomes(codec, []) == [EndOfInput]
  {
  }

  // ------------------------------------------------------------------- the hypothesis is met

  ghost function Place<M>(messages: seq<M>, m: M): (k: nat)
    ensures m in messages ==> k < |messages| && messages[k] == m
  {
    if messages == [] || messages[0] == m then 0 else 1 + Place(messages[1..], m)
  }

  function Numbered(k: nat): Bytes {
    [OPEN_BRACE] + Decimal(k) + [CLOSE_BRACE]
  }

  function Recalled<M(!new)>(messages: seq<M>, raw: Bytes): Loaded<M> {
    if |raw| < 2 then NotJson
    else
      match ParseInt(raw[1..|raw| - 1])
      case Some(k) => if 0 <= k < |messages| then Object(messages[k]) else OtherValue
      case None => NotJson
  }

  /** Whatever messages a stream holds, there is a codec that encodes all of them as lines. */
  lemma SomeCodecEncodes<M(!new)>(messages: seq<M>) returns (codec: Codec<M>)
    ensures forall i :: 0 <= i < |messages| ==> IsEncoding(codec, messages[i])
  {
    codec := Codec((m: M) => Numbered(Place(messages, m)), (raw: Bytes) => Recalled(messages, raw));
    forall i | 0 <= i < |messages|
      ensures IsEncoding(codec, messages[i])
    {
      var k := Place(messages, messages[i]);
      DecimalRoundTrip(k);
      var text := Numbered(k);
      assert text[1..|text| - 1] == Decimal(k);
    }
  }
}
