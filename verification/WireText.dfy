/** The bytes on the pipe, spelled out: what each framing writes, what counts as white space, which
    texts are numbers, and what a header block of any fields is read as. */
module WireText {
  import opened ByteText
  import opened Framing
  import opened Wrappers

  predicate IsLatin(s: string) {
    forall i :: 0 <= i < |s| ==> s[i] as int < 256
  }

  function Text(s: string): Bytes
    requires IsLatin(s)
  {
    seq(|s|, i requires 0 <= i < |s| => s[i] as int)
  }

  // ------------------------------------------------------------------------------ what is written

  /** Both framings, byte for byte, and the blank lines that may stand between frames. */
  lemma FramesAreSpelled<M(!new)>(codec: Codec<M>, m: M)
    ensures Encode(codec, m) == codec.dumps(m) + Text("\n")
    ensures EncodeWithHeaders(codec, m)
            == Text("Content-Length: ") + Decimal(|codec.dumps(m)|) + Text("\r\n\r\n") + codec.dumps(m)
    ensures Written(codec, BlankLine(false)) == Text("\n") && Written(codec, BlankLine(true)) == Text("\r\n")
    ensures IsEncoding(codec, m) ==>
              var text := codec.dumps(m); text[0] == '{' as int && text[|text| - 1] == '}' as int
  {
    assert Text("Content-Length: ") == CONTENT_LENGTH + [COLON, 32];
    assert Text("\r\n\r\n") == [CR, LF] + [CR, LF];
  }

  /** Decimal digits, most significant first. */
  lemma DigitsAreSpelled(n: nat, d: nat)
    requires d < 10
    ensures Decimal(d) == ["0123456789"[d] as int]
    ensures n > 0 ==> Decimal(10 * n + d) == Decimal(n) + ["0123456789"[d] as int]
  {
  }

  // --------------------------------------------------------------------------------- white space

  lemma {:induction false} LeftStrippedIsTail(s: Bytes) returns (head: Bytes)
    ensures s == head + LeftStripped(s) && forall b :: b in head ==> b in {9, 10, 11, 12, 13, 32}
    ensures LeftStripped(s) != [] ==> LeftStripped(s)[0] !in {9, 10, 11, 12, 13, 32}
    decreases |s|
  {
    if s != [] && IsSpace(s[0]) {
      var rest := LeftStrippedIsTail(s[1..]);
      head := [s[0]] + rest;
    } else {
      head := [];
    }
  }

  lemma {:induction false} RightStrippedIsHead(s: Bytes) returns (tail: Bytes)
    ensures s == RightStripped(s) + tail && forall b :: b in tail ==> b in {9, 10, 11, 12, 13, 32}
    ensures RightStripped(s) != [] ==>
              RightStripped(s)[|RightStripped(s)| - 1] !in {9, 10, 11, 12, 13, 32} && RightStripped(s)[0] == s[0]
    decreases |s|
  {
    if s != [] && IsSpace(s[|s| - 1]) {
      var rest := RightStrippedIsHead(s[..|s| - 1]);
      tail := rest + [s[|s| - 1]];
    } else {
      tail := [];
    }
  }

  /** Stripping takes away tabs, line ends, vertical tabs, form feeds and blanks at both ends, all of
      them, and nothing else. */
  lemma StrippedIsBetween(s: Bytes) returns (head: Bytes, tail: Bytes)
    ensures s == head + Stripped(s) + tail
    ensures forall b :: b in head || b in tail ==> b in {9, 10, 11, 12, 13, 32}
    ensures var text := Stripped(s);
            text != [] ==>
              text[0] !in {9, 10, 11, 12, 13, 32} && text[|text| - 1] !in {9, 10, 11, 12, 13, 32}
  {
    head := LeftStrippedIsTail(s);
    tail := RightStrippedIsHead(LeftStripped(s));
    hide LeftStripped, RightStripped;
    assert head + (Stripped(s) + tail) == head + Stripped(s) + tail;
  }

  // ------------------------------------------------------------------------------------- numbers

  function Unsigned(s: Bytes): Bytes {
    if s != [] && s[0] in {'+' as int, '-' as int} then s[1..] else s
  }

  /** A digit, or an underscore between two of them. */
  predicate FitsANumber(u: Bytes, i: nat)
    requires i < |u|
  {
    '0' as int <= u[i] <= '9' as int || (u[i] == '_' as int && 0 < i < |u| - 1 && u[i - 1] != '_' as int)
  }

  /** A number is an optional sign and then digits, with an underscore allowed only between two. */
  lemma NumbersAreExactly(s: Bytes)
    ensures var u := Unsigned(s);
            ParseInt(s).Some? <==> u != [] && forall i :: 0 <= i < |u| ==> FitsANumber(u, i)
  {
    NumeralsAreExactly(Unsigned(s));
    hide FitsANumber, IsNumeral;
  }

  lemma NumeralsAreExactly(u: Bytes)
    ensures IsNumeral(u) <==> u != [] && forall i :: 0 <= i < |u| ==> FitsANumber(u, i)
  {
    if IsNumeral(u) {
      forall i | 0 <= i < |u|
        ensures FitsANumber(u, i)
      {
        assert i > 0 ==> IsDigit(u[i - 1]) || IsDigit(u[i]);
      }
    }
    if u != [] && forall i :: 0 <= i < |u| ==> FitsANumber(u, i) {
      assert FitsANumber(u, 0) && FitsANumber(u, |u| - 1);
      forall i | 0 <= i < |u|
        ensures IsDigit(u[i]) || u[i] == UNDERSCORE
      {
        assert FitsANumber(u, i);
      }
      forall i | 0 < i < |u|
        ensures IsDigit(u[i - 1]) || IsDigit(u[i])
      {
        assert FitsANumber(u, i) && FitsANumber(u, i - 1);
      }
    }
  }

  /** A minus negates; a plus and a leading zero change nothing. */
  lemma NumbersAreRead(n: nat)
    ensures ParseInt(Decimal(n)) == Some(n) && ParseInt(Text("0") + Decimal(n)) == Some(n)
    ensures ParseInt(Text("-") + Decimal(n)) == Some(-(n as int)) && ParseInt(Text("+") + Decimal(n)) == Some(n)
  {
    var d := Decimal(n);
    DecimalRoundTrip(n);
    ValueOfDecimal(n);
    ValueOfZero(d);
    DecimalIsNumeral(n);
    assert Text("-") == [MINUS] && Text("+") == [PLUS] && Text("0") == [48];
    hide Text, Decimal, Value, IsNumeral;
    SignedIsRead(d);
    ZeroIsNumeral(d);
  }

  lemma DecimalIsNumeral(n: nat)
    ensures IsNumeral(Decimal(n))
  {
    hide Decimal;
  }

  lemma ZeroIsNumeral(d: Bytes)
    requires IsNumeral(d) && forall i :: 0 <= i < |d| ==> IsDigit(d[i])
    ensures IsNumeral([48] + d)
  {
    var zero := [48] + d;
    assert forall i :: 0 <= i < |zero| ==> zero[i] == if i == 0 then 48 else d[i - 1];
  }

  lemma SignedIsRead(d: Bytes)
    requires IsNumeral(d)
    ensures ParseInt([MINUS] + d) == Some(-(Value(d) as int)) && ParseInt([PLUS] + d) == Some(Value(d))
  {
    assert ([MINUS] + d)[1..] == d && ([PLUS] + d)[1..] == d;
    hide Value;
  }

  /** An underscore between two numbers changes nothing either: they are read as if run together. */
  lemma UnderscoresAreRead(s: Bytes, t: Bytes)
    requires IsNumeral(s) && IsNumeral(t)
    ensures ParseInt(s + t).Some? && ParseInt(s + Text("_") + t) == ParseInt(s + t)
  {
    UnderscoreIsNothing(s, t);
    assert Text("_") == [UNDERSCORE];
    hide Text, Value;
    var joined, both := s + [UNDERSCORE] + t, s + t;
    assert both[0] == s[0] && both[|both| - 1] == t[|t| - 1];
    assert joined[0] == s[0] && joined[|joined| - 1] == t[|t| - 1] && joined[|s|] == UNDERSCORE;
  }

  lemma {:induction false} ValueOfZero(s: Bytes)
    requires forall i :: 0 <= i < |s| ==> IsDigit(s[i]) || s[i] == UNDERSCORE
    ensures Value(Text("0") + s) == Value(s)
    decreases |s|
  {
    var zero := Text("0");
    if s == [] {
      assert zero + s == zero && zero[..0] == [];
    } else {
      assert (zero + s)[..|s|] == zero + s[..|s| - 1];
      ValueOfZero(s[..|s| - 1]);
    }
  }

  lemma {:induction false} UnderscoreIsNothing(s: Bytes, t: Bytes)
    requires forall i :: 0 <= i < |s| ==> IsDigit(s[i]) || s[i] == UNDERSCORE
    requires forall i :: 0 <= i < |t| ==> IsDigit(t[i]) || t[i] == UNDERSCORE
    ensures Value(s + Text("_") + t) == Value(s + t)
    decreases |t|
  {
    var joined := s + Text("_") + t;
    if t == [] {
      assert joined[..|s|] == s && s + t == s;
    } else {
      assert joined[..|joined| - 1] == s + Text("_") + t[..|t| - 1];
      assert (s + t)[..|s + t| - 1] == s + t[..|t| - 1];
      UnderscoreIsNothing(s, t[..|t| - 1]);
    }
  }

  // --------------------------------------------------------------------------------- header blocks

  datatype Field = Field(name: Bytes, value: Bytes)

  predicate IsField(f: Field) {
    && Solid(f.name) && ':' as int !in f.name && '\n' as int !in f.name
    && Solid(f.value) && '\n' as int !in f.value
  }

  function FieldText(f: Field): Bytes {
    f.name + Text(": ") + f.value
  }

  function Block(fields: seq<Field>): Bytes
    decreases |fields|
  {
    if fields == [] then Text("\r\n") else FieldText(fields[0]) + Text("\r\n") + Block(fields[1..])
  }

  function Folded(acc: map<Bytes, Bytes>, fields: seq<Field>): map<Bytes, Bytes>
    decreases |fields|
  {
    if fields == [] then acc else Folded(acc[Lowered(fields[0].name) := fields[0].value], fields[1..])
  }

  /** The value of the last field of this name, in whatever case it is written. */
  ghost predicate IsLastValue(fields: seq<Field>, name: Bytes, value: Option<Bytes>) {
    match value
    case None => forall i :: 0 <= i < |fields| ==> Lowered(fields[i].name) != name
    case Some(v) =>
      exists i :: 0 <= i < |fields| && Lowered(fields[i].name) == name && fields[i].value == v
        && forall j :: i < j < |fields| ==> Lowered(fields[j].name) != name
  }

  lemma {:induction false} FoldedAt(acc: map<Bytes, Bytes>, fields: seq<Field>, name: Bytes)
    ensures var all := Folded(acc, fields);
            if IsLastValue(fields, name, None) then
              (name in all <==> name in acc) && (name in acc ==> all[name] == acc[name])
            else
              name in all && IsLastValue(fields, name, Some(all[name]))
    decreases |fields|
  {
    if fields != [] {
      var first, rest := fields[0], fields[1..];
      FoldedAt(acc[Lowered(first.name) := first.value], rest, name);
      var all := Folded(acc, fields);
      if name in all && IsLastValue(rest, name, Some(all[name])) {
        var i :| 0 <= i < |rest| && Lowered(rest[i].name) == name && rest[i].value == all[name]
          && forall j :: i < j < |rest| ==> Lowered(rest[j].name) != name;
        assert Lowered(fields[i + 1].name) == name && fields[i + 1].value == all[name];
        assert forall j :: i + 1 < j < |fields| ==> fields[j] == rest[j - 1];
      } else {
        assert forall j :: 0 < j < |fields| ==> fields[j] == rest[j - 1];
        if Lowered(first.name) == name {
          assert Lowered(fields[0].name) == name && fields[0].value == all[name];
        }
      }
    }
  }

  /** One line of a block: what it strips to, and what is left. */
  lemma FieldLine(f: Field, rest: Bytes)
    requires IsField(f)
    ensures var (line, after) := SplitLine(FieldText(f) + Text("\r\n") + rest);
            Stripped(line) == FieldText(f) && after == rest && Solid(FieldText(f)) && line != []
            && line == FieldText(f) + Text("\r\n")
    ensures var text := FieldText(f);
            && IndexOf(text, COLON) == |f.name| < |text|
            && Stripped(text[..|f.name|]) == f.name && Stripped(text[|f.name| + 1..]) == f.value
  {
    var text := FieldText(f);
    assert Text(": ") == [COLON, 32] && Text("\r\n") == [CR, LF];
    FieldSplits(f.name, f.value);
    assert text[0] == f.name[0] && text[|text| - 1] == f.value[|f.value| - 1];
    assert Solid(text) && LF !in text + [CR];
    hide Text, FieldText, IsField, Solid, IndexOf;
    LineOf(text, rest);
  }

  lemma LineOf(text: Bytes, rest: Bytes)
    requires Solid(text) && LF !in text + [CR]
    ensures SplitLine(text + [CR, LF] + rest) == (text + [CR, LF], rest)
    ensures Stripped(text + [CR, LF]) == text
  {
    assert text + [CR, LF] == (text + [CR]) + [LF];
    assert text + [CR, LF] + rest == (text + [CR]) + [LF] + rest;
    SplitLineAt(text + [CR], rest);
    StrippedBetween([], text, [CR, LF]);
    assert [] + text + [CR, LF] == text + [CR, LF];
  }

  lemma EndLine(rest: Bytes)
    ensures var (line, after) := SplitLine(Text("\r\n") + rest); Stripped(line) == [] && after == rest
  {
    assert Text("\r\n") + rest == [CR] + [LF] + rest;
    SplitLineAt([CR], rest);
    EmptyLine();
  }

  /** Line by line a block is read as its fields, to its end. */
  lemma {:induction false} FieldsAreRead(fields: seq<Field>, acc: map<Bytes, Bytes>, rest: Bytes)
    requires forall i :: 0 <= i < |fields| ==> IsField(fields[i])
    ensures var (line, after) := SplitLine(Block(fields) + rest);
            Headers(Stripped(line), acc, after) == (Some(Folded(acc, fields)), rest)
    decreases |fields|
  {
    if fields == [] {
      assert Block(fields) + rest == Text("\r\n") + rest;
      EndLine(rest);
    } else {
      var f, tail := fields[0], Block(fields[1..]) + rest;
      assert Block(fields) + rest == FieldText(f) + Text("\r\n") + tail;
      FieldLine(f, tail);
      FieldsAreRead(fields[1..], acc[Lowered(f.name) := f.value], rest);
      hide SplitLine, Stripped, Lowered, IndexOf, Block, FieldText;
    }
  }

  /** What a block of any fields makes of the bytes after it: the last `Content-Length`, in any case,
      counts; without one, or with one that is no number, the block is a fault and the body is left; a
      body too short is a fault and consumed; else exactly so many bytes are the message. */
  ghost predicate IsReadAs<M(!new)>(
    codec: Codec<M>, length: Option<Bytes>, rest: Bytes, read: (Outcome<M>, Bytes))
  {
    match length
    case None => read == (Malformed(NoLength), rest)
    case Some(text) =>
      match ParseInt(text)
      case None => read == (Malformed(LengthNotANumber), rest)
      case Some(n) =>
        if n < 0 then read == (Escaped, rest)
        else if n > |rest| then read == (Malformed(Truncated), [])
        else
          && read.1 == rest[n..]
          && match codec.loads(rest[..n])
             case Object(m) => read.0 == Outcome.Message(m)
             case OtherValue => read.0 == Malformed(NotAnObject)
             case NotJson => read.0 == Malformed(InvalidJson)
  }

  lemma BlocksAreRead<M(!new)>(codec: Codec<M>, fields: seq<Field>, rest: Bytes) returns (length: Option<Bytes>)
    requires fields != [] && IsField(fields[0]) && forall i :: 0 <= i < |fields| ==> IsField(fields[i])
    requires fields[0].name[0] !in {'{' as int, '[' as int}
    ensures IsLastValue(fields, Text("content-length"), length)
    ensures IsReadAs(codec, length, rest, Read(codec, Block(fields) + rest))
  {
    var name, all := Text("content-length"), Folded(map[], fields);
    length := if name in all then Some(all[name]) else None;
    FoldedAt(map[], fields, name);
    assert name == CONTENT_LENGTH_LOWER;
    FieldsAreRead(fields, map[], rest);
    FirstLineOf(fields, rest);
    hide Headers, Folded, Block, SplitLine, IsLastValue, Stripped, FieldText, SkipBlank, Text, ParseInt, Body, Load;
    ReadByLength(codec, fields, all, rest);
    LengthDecides(codec, length, rest);
  }

  /** Past its first line a block is read as its fields say. */
  lemma ReadByLength<M(!new)>(codec: Codec<M>, fields: seq<Field>, all: map<Bytes, Bytes>, rest: Bytes)
    requires var (line, after) := SplitLine(Block(fields) + rest);
             && SkipBlank(Block(fields) + rest) == (line, after) && line != []
             && Stripped(line) != [] && Stripped(line)[0] != OPEN_BRACE && Stripped(line)[0] != OPEN_BRACKET
             && Headers(Stripped(line), map[], after) == (Some(all), rest)
    ensures var length := if CONTENT_LENGTH_LOWER in all then Some(all[CONTENT_LENGTH_LOWER]) else None;
            Read(codec, Block(fields) + rest) == Counted(codec, length, rest)
  {
    hide Headers, Block, SplitLine, Stripped, SkipBlank, ParseInt, Body;
  }

  function Counted<M(!new)>(codec: Codec<M>, length: Option<Bytes>, rest: Bytes): (Outcome<M>, Bytes) {
    match length
    case None => (Malformed(NoLength), rest)
    case Some(text) =>
      match ParseInt(text)
      case None => (Malformed(LengthNotANumber), rest)
      case Some(n) => Body(codec, n, rest)
  }

  lemma LengthDecides<M(!new)>(codec: Codec<M>, length: Option<Bytes>, rest: Bytes)
    ensures IsReadAs(codec, length, rest, Counted(codec, length, rest))
  {
    hide ParseInt;
  }

  lemma FirstLineOf(fields: seq<Field>, rest: Bytes)
    requires fields != [] && IsField(fields[0]) && fields[0].name[0] !in {'{' as int, '[' as int}
    ensures var (line, after) := SplitLine(Block(fields) + rest);
            && SkipBlank(Block(fields) + rest) == (line, after) && line != []
            && Stripped(line) != [] && Stripped(line)[0] != OPEN_BRACE && Stripped(line)[0] != OPEN_BRACKET
  {
    var tail := Block(fields[1..]) + rest;
    assert Block(fields) + rest == FieldText(fields[0]) + Text("\r\n") + tail;
    hide Block;
    FieldLine(fields[0], tail);
    FirstIsNotBlank(fields[0], tail);
    hide SplitLine, Stripped, FieldText, SkipBlank;
  }

  lemma FirstIsNotBlank(f: Field, tail: Bytes)
    requires IsField(f)
    ensures var input := FieldText(f) + Text("\r\n") + tail;
            SkipBlank(input) == SplitLine(input)
    ensures FieldText(f)[0] == f.name[0]
  {
    FieldLine(f, tail);
    hide SplitLine, Stripped;
    var line := FieldText(f) + Text("\r\n");
    assert line[0] == f.name[0];
  }

  /** Header names are compared without regard to the case of ASCII letters. */
  lemma NamesAreLowered(s: Bytes)
    ensures Lowered(Text("ABCDEFGHIJKLMNOPQRSTUVWXYZ")) == Text("abcdefghijklmnopqrstuvwxyz")
    ensures (forall i :: 0 <= i < |s| ==> !('A' as int <= s[i] <= 'Z' as int)) ==> Lowered(s) == s
    ensures Lowered(Text("Content-Length")) == Text("content-length")
  {
  }
}
