/** Bytes as text: stripping, splitting at a byte, lines, and decimal numbers as Python's `int`
    reads them and `%d` writes them. */
module ByteText {
  import opened Wrappers

  type Byte = b: int | 0 <= b < 256
  type Bytes = seq<Byte>

  const LF: Byte := 10
  const CR: Byte := 13
  const COLON: Byte := 58
  const PLUS: Byte := 43
  const MINUS: Byte := 45
  const UNDERSCORE: Byte := 95

  predicate IsSpace(b: Byte) {
    9 <= b <= 13 || b == 32
  }

  predicate IsDigit(b: Byte) {
    48 <= b <= 57
  }

  // ------------------------------------------------------------------------------- stripping

  function LeftStripped(s: Bytes): Bytes
    decreases |s|
  {
    if s != [] && IsSpace(s[0]) then LeftStripped(s[1..]) else s
  }

  function RightStripped(s: Bytes): Bytes
    decreases |s|
  {
    if s != [] && IsSpace(s[|s| - 1]) then RightStripped(s[..|s| - 1]) else s
  }

  function Stripped(s: Bytes): Bytes {
    RightStripped(LeftStripped(s))
  }

  predicate Solid(s: Bytes) {
    s != [] && !IsSpace(s[0]) && !IsSpace(s[|s| - 1])
  }

  lemma {:induction false} RightStrippedTail(s: Bytes, tail: Bytes)
    requires s == [] || !IsSpace(s[|s| - 1])
    requires forall i :: 0 <= i < |tail| ==> IsSpace(tail[i])
    ensures RightStripped(s + tail) == s
    decreases |tail|
  {
    if tail == [] {
      assert s + tail == s;
    } else {
      assert (s + tail)[..|s + tail| - 1] == s + tail[..|tail| - 1];
      RightStrippedTail(s, tail[..|tail| - 1]);
    }
  }

  lemma {:induction false} LeftStrippedHead(head: Bytes, s: Bytes)
    requires s == [] || !IsSpace(s[0])
    requires forall i :: 0 <= i < |head| ==> IsSpace(head[i])
    ensures LeftStripped(head + s) == s
    decreases |head|
  {
    if head == [] {
      assert head + s == s;
    } else {
      assert (head + s)[1..] == head[1..] + s;
      LeftStrippedHead(head[1..], s);
    }
  }

  /** White space around a text that neither starts nor ends with any is what goes. */
  lemma StrippedBetween(head: Bytes, s: Bytes, tail: Bytes)
    requires Solid(s)
    requires forall i :: 0 <= i < |head| ==> IsSpace(head[i])
    requires forall i :: 0 <= i < |tail| ==> IsSpace(tail[i])
    ensures Stripped(head + s + tail) == s
  {
    assert head + s + tail == head + (s + tail);
    LeftStrippedHead(head, s + tail);
    RightStrippedTail(s, tail);
  }

  // ------------------------------------------------------------------------------- splitting

  /** Where `b` first occurs, or the length when it does not. */
  function IndexOf(s: Bytes, b: Byte): (i: nat)
    ensures i <= |s| && b !in s[..i] && (i < |s| ==> s[i] == b)
    decreases |s|
  {
    if s == [] || s[0] == b then 0
    else
      var i := 1 + IndexOf(s[1..], b);
      assert s[..i] == [s[0]] + s[1..][..i - 1];
      i
  }

  lemma {:induction false} FirstIndex(s: Bytes, b: Byte, i: nat)
    requires i <= |s| && b !in s[..i] && (i < |s| ==> s[i] == b)
    ensures IndexOf(s, b) == i
  {
    var j := IndexOf(s, b);
    forall k | 0 <= k < i
      ensures s[k] != b
    {
      assert s[k] == s[..i][k];
    }
    forall k | 0 <= k < j
      ensures s[k] != b
    {
      assert s[k] == s[..j][k];
    }
  }

  /** One line with its end, or whatever is left when the input ends first. */
  function SplitLine(s: Bytes): (split: (Bytes, Bytes))
    ensures split.0 + split.1 == s
    ensures split.0 == [] <==> s == []
  {
    var i := IndexOf(s, LF);
    if i < |s| then (s[..i + 1], s[i + 1..]) else (s, [])
  }

  lemma SplitLineAt(line: Bytes, rest: Bytes)
    requires LF !in line
    ensures SplitLine(line + [LF] + rest) == (line + [LF], rest)
  {
    var s := line + [LF] + rest;
    assert s[..|line|] == line;
    FirstIndex(s, LF, |line|);
    assert s[..|line| + 1] == line + [LF];
    assert s[|line| + 1..] == rest;
  }

  // -------------------------------------------------------------------------- decimal numbers

  function Decimal(n: nat): (s: Bytes)
    ensures s != [] && forall i :: 0 <= i < |s| ==> IsDigit(s[i])
  {
    if n < 10 then [48 + n] else Decimal(n / 10) + [48 + n % 10]
  }

  function Digit(b: Byte): nat
    requires IsDigit(b)
  {
    var n: int := b;
    n - 48
  }

  /** The number that digits spell, underscores between them aside. */
  function Value(s: Bytes): nat
    requires forall i :: 0 <= i < |s| ==> IsDigit(s[i]) || s[i] == UNDERSCORE
    decreases |s|
  {
    if s == [] then 0
    else
      var before := Value(s[..|s| - 1]);
      if s[|s| - 1] == UNDERSCORE then before else 10 * before + Digit(s[|s| - 1])
  }

  /** Digits, with single underscores allowed between two of them. */
  predicate IsNumeral(s: Bytes) {
    && s != [] && IsDigit(s[0]) && IsDigit(s[|s| - 1])
    && (forall i :: 0 <= i < |s| ==> IsDigit(s[i]) || s[i] == UNDERSCORE)
    && (forall i :: 0 < i < |s| ==> IsDigit(s[i - 1]) || IsDigit(s[i]))
  }

  /** `int` of stripped bytes: an optional sign and a numeral. */
  function ParseInt(s: Bytes): Option<int> {
    if s != [] && s[0] == MINUS then
      if IsNumeral(s[1..]) then Some(0 - Value(s[1..])) else None
    else if s != [] && s[0] == PLUS then
      if IsNumeral(s[1..]) then Some(Value(s[1..])) else None
    else if IsNumeral(s) then Some(Value(s)) else None
  }

  lemma {:induction false} ValueOfDecimal(n: nat)
    ensures Value(Decimal(n)) == n
  {
    if n < 10 {
      assert Decimal(n)[..0] == [];
    } else {
      var s := Decimal(n);
      assert s[..|s| - 1] == Decimal(n / 10);
      ValueOfDecimal(n / 10);
    }
  }

  /** What `%d` writes, `int` reads back. */
  lemma DecimalRoundTrip(n: nat)
    ensures ParseInt(Decimal(n)) == Some(n) && Solid(Decimal(n)) && COLON !in Decimal(n) && LF !in Decimal(n)
  {
    ValueOfDecimal(n);
    var s := Decimal(n);
    assert IsDigit(s[0]) && IsDigit(s[|s| - 1]);
  }
}
