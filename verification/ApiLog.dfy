/** The log of API calls: how strings and symbols are written, and that the replayer
    reads back exactly what was written. */
module ApiLog {

  type Byte = b: int | 0 <= b < 256 witness 0

  const NEWLINE: Byte := 10
  const BLANK: Byte := 32
  const QUOTE: Byte := 34
  const BACKSLASH: Byte := 92
  const BAR: Byte := 124

  predicate Digit(c: Byte) { 48 <= c <= 57 }

  /** The bytes that are written as they are: letters, digits and some punctuation. */
  predicate Plain(c: Byte) {
    || Digit(c) || 97 <= c <= 122 || 65 <= c <= 90
    || c in [126, 33, 64, 35, 36, 37, 94, 38, 42, 45, 95, 43, 46, 63, 47, 32, 60, 62]
  }

  function EscapedByte(c: Byte): seq<Byte> {
    if Plain(c) then [c] else [BACKSLASH, 48 + c / 100, 48 + c / 10 % 10, 48 + c % 10]
  }

  function Escaped(s: seq<Byte>): seq<Byte> {
    if s == [] then [] else Escaped(s[..|s| - 1]) + EscapedByte(s[|s| - 1])
  }

  /** The string at the start of `mem`: the bytes before the first zero. */
  function CString(mem: seq<Byte>): (s: seq<Byte>)
    requires 0 in mem
    ensures |s| < |mem| && s == mem[..|s|] && mem[|s|] == 0 && 0 !in s
  {
    if mem[0] == 0 then [] else [mem[0]] + CString(mem[1..])
  }

  /** The digits of a byte, written into a buffer from the last to the first. */
  method WriteCode(str: array<Byte>, code: Byte)
    requires str.Length == 4 && str[3] == 0
    modifies str
    ensures str[..] == [48 + code / 100, 48 + code / 10 % 10, 48 + code % 10, 0]
  {
    var c := code;
    str[2] := 48 + c % 10;
    c := c / 10;
    str[1] := 48 + c % 10;
    c := c / 10;
    str[0] := 48 + c;
    assert c == code / 100;
  }

  method WriteEscaped(mem: seq<Byte>) returns (out: seq<Byte>)
    requires 0 in mem
    ensures out == Escaped(CString(mem))
  {
    ghost var str := CString(mem);
    out := [];
    var s := 0;
    while mem[s] != 0
      invariant s <= |str| && out == Escaped(mem[..s])
      decreases |str| - s
    {
      var c := mem[s];
      assert s != |str|;
      assert mem[..s + 1][..s] == mem[..s];
      if Plain(c) {
        out := out + [c];
      } else {
        var buffer := new Byte[4] [48, 48, 48, 0];
        WriteCode(buffer, c);
        assert buffer[..][..3] == buffer[..3];
        out := out + [BACKSLASH] + buffer[..3];
      }
      s := s + 1;
    }
    assert forall k :: 0 <= k < |str| ==> mem[k] == str[k] && str[k] in str;
    assert mem[..s] == str;
  }

  /** What is written for a byte: letters, digits, `~!@#$%^&*-_+.?/ <>` as they are, any
      other byte as a backslash and its three decimal digits. */
  lemma ByteWritten(c: Byte)
    ensures (48 <= c <= 57 || 65 <= c <= 90 || 97 <= c <= 122
             || c in {126, 33, 64, 35, 36, 37, 94, 38, 42, 45, 95, 43, 46, 63, 47, 32, 60, 62})
            ==> Escaped([c]) == [c]
    ensures !(48 <= c <= 57 || 65 <= c <= 90 || 97 <= c <= 122
              || c in {126, 33, 64, 35, 36, 37, 94, 38, 42, 45, 95, 43, 46, 63, 47, 32, 60, 62})
            ==> Escaped([c]) == [92, 48 + c / 100, 48 + c / 10 % 10, 48 + c % 10]
  {
    assert [c][..0] == [] && Escaped([]) + EscapedByte(c) == EscapedByte(c);
  }

  lemma {:induction false} WrittenInParts(s: seq<Byte>, t: seq<Byte>)
    ensures Escaped(s + t) == Escaped(s) + Escaped(t)
  {
    if t == [] {
      assert s + t == s;
    } else {
      var n := |t| - 1;
      WrittenInParts(s, t[..n]);
      assert (s + t)[..|s + t| - 1] == s + t[..n] && (s + t)[|s + t| - 1] == t[n];
      WrittenNext(Escaped(s), Escaped(t[..n]), EscapedByte(t[n]));
    }
  }

  lemma WrittenNext(a: seq<Byte>, b: seq<Byte>, c: seq<Byte>)
    ensures (a + b) + c == a + (b + c)
  {
  }

  // ---------- delimiter safety ----------

  predicate CodeAt(s: seq<Byte>, i: nat) {
    i + 3 < |s| && Digit(s[i + 1]) && Digit(s[i + 2]) && Digit(s[i + 3])
  }

  /** Nothing in the text can end a string, a quoted symbol or a line, and a backslash
      only starts a code of three digits. */
  ghost predicate Safe(s: seq<Byte>) {
    forall i :: 0 <= i < |s| ==>
      s[i] != QUOTE && s[i] != BAR && s[i] != NEWLINE && s[i] != 0 && (s[i] == BACKSLASH ==> CodeAt(s, i))
  }

  lemma SafeConcat(s: seq<Byte>, t: seq<Byte>)
    requires Safe(s) && Safe(t)
    ensures Safe(s + t)
  {
    var u := s + t;
    forall i | 0 <= i < |u|
      ensures u[i] != QUOTE && u[i] != BAR && u[i] != NEWLINE && u[i] != 0 && (u[i] == BACKSLASH ==> CodeAt(u, i))
    {
      if i < |s| {
        assert s[i] == BACKSLASH ==> CodeAt(s, i);
      } else {
        assert t[i - |s|] == BACKSLASH ==> CodeAt(t, i - |s|);
      }
    }
  }

  lemma {:induction false} EscapedIsSafe(s: seq<Byte>)
    ensures Safe(Escaped(s))
  {
    if s != [] {
      EscapedIsSafe(s[..|s| - 1]);
      assert Safe(EscapedByte(s[|s| - 1]));
      SafeConcat(Escaped(s[..|s| - 1]), EscapedByte(s[|s| - 1]));
    }
  }

  // ---------- the replayer ----------

  datatype Read = Done(bytes: seq<Byte>, rest: seq<Byte>) | InvalidString | EndOfFile | EndOfLine | InvalidEscape

  function CodeOf(a: Byte, b: Byte, c: Byte): int { (a - 48) * 100 + (b - 48) * 10 + (c - 48) }

  function Prepend(c: Byte, r: Read): Read { if r.Done? then Done([c] + r.bytes, r.rest) else r }

  /** What follows the opening delimiter. */
  function ReadBody(input: seq<Byte>, delimiter: Byte): Read
    decreases |input|
  {
    if input == [] then EndOfFile
    else if input[0] == NEWLINE then EndOfLine
    else if input[0] == BACKSLASH then
      if CodeAt(input, 0) && CodeOf(input[1], input[2], input[3]) <= 255 then
        Prepend(CodeOf(input[1], input[2], input[3]), ReadBody(input[4..], delimiter))
      else InvalidEscape
    else if input[0] == delimiter then Done([], input[1..])
    else Prepend(input[0], ReadBody(input[1..], delimiter))
  }

  function ReadString(input: seq<Byte>, delimiter: Byte): Read {
    if input == [] || input[0] != delimiter then InvalidString else ReadBody(input[1..], delimiter)
  }

  /** Puts what has been read so far in front. */
  function Continue(read: seq<Byte>, r: Read): Read { if r.Done? then Done(read + r.bytes, r.rest) else r }

  lemma BodyAt(input: seq<Byte>, p: nat, delimiter: Byte)
    requires p < |input|
    ensures var c, r := input[p], ReadBody(input[p..], delimiter);
            && (c == NEWLINE ==> r == EndOfLine)
            && (c == BACKSLASH ==>
                  r == if CodeAt(input, p) && CodeOf(input[p + 1], input[p + 2], input[p + 3]) <= 255
                       then Prepend(CodeOf(input[p + 1], input[p + 2], input[p + 3]),
                                    ReadBody(input[p + 4..], delimiter))
                       else InvalidEscape)
            && (c != NEWLINE && c != BACKSLASH ==>
                  r == if c == delimiter then Done([], input[p + 1..])
                       else Prepend(c, ReadBody(input[p + 1..], delimiter)))
  {
    assert input[p..][1..] == input[p + 1..];
    if p + 4 <= |input| { assert input[p..][4..] == input[p + 4..]; }
  }

  lemma ContinueNext(read: seq<Byte>, c: Byte, r: Read)
    ensures Continue(read, Prepend(c, r)) == Continue(read + [c], r)
  {
    if r.Done? { assert read + ([c] + r.bytes) == read + [c] + r.bytes; }
  }

  method ReadStringCore(input: seq<Byte>, delimiter: Byte) returns (r: Read)
    ensures r == ReadString(input, delimiter)
  {
    if input == [] || input[0] != delimiter { return InvalidString; }
    var str: seq<Byte> := [];
    var p := 1;
    ContinueNothing(ReadBody(input[1..], delimiter));
    while true
      invariant 1 <= p <= |input|
      invariant ReadString(input, delimiter) == Continue(str, ReadBody(input[p..], delimiter))
      decreases |input| - p
    {
      if p == |input| { return EndOfFile; }
      BodyAt(input, p, delimiter);
      var c := input[p];
      if c == NEWLINE {
        return EndOfLine;
      } else if c == BACKSLASH {
        var code := ReadCode(input, p + 1);
        if code < 0 { return InvalidEscape; }
        ContinueNext(str, code, ReadBody(input[p + 4..], delimiter));
        str, p := str + [code], p + 4;
      } else if c == delimiter {
        return Done(str, input[p + 1..]);
      } else {
        ContinueNext(str, c, ReadBody(input[p + 1..], delimiter));
        str, p := str + [c], p + 1;
      }
    }
  }

  lemma ContinueNothing(r: Read)
    ensures Continue([], r) == r
  {
    if r.Done? { assert [] + r.bytes == r.bytes; }
  }

  /** The number that a list of digits denotes. */
  function Number(ds: seq<Byte>): int {
    if ds == [] then 0 else 10 * Number(ds[..|ds| - 1]) + (ds[|ds| - 1] as int - 48)
  }

  lemma NumberOfThree(ds: seq<Byte>)
    requires |ds| == 3
    ensures Number(ds) == CodeOf(ds[0], ds[1], ds[2])
  {
    assert ds[..2][..1] == ds[..1] && ds[..1][..0] == [];
    assert Number(ds[..1]) == ds[0] as int - 48;
    assert Number(ds[..2]) == 10 * Number(ds[..1]) + (ds[1] as int - 48);
  }

  /** Three digits with a value of at most 255, or -1. */
  method ReadCode(input: seq<Byte>, p: nat) returns (val: int)
    requires 1 <= p <= |input|
    ensures var ok := CodeAt(input, p - 1) && CodeOf(input[p], input[p + 1], input[p + 2]) <= 255;
            val == if ok then CodeOf(input[p], input[p + 1], input[p + 2]) else -1
  {
    val := 0;
    var sz := 0;
    while sz < 3
      invariant sz <= 3 && p + sz <= |input| && 0 <= val <= 255
      invariant sz > 0 ==> Digit(input[p])
      invariant sz > 1 ==> Digit(input[p + 1])
      invariant sz > 2 ==> Digit(input[p + 2])
      invariant val == Number(input[p..p + sz])
    {
      if p + sz == |input| || !Digit(input[p + sz]) { return -1; }
      NextDigit(input, p, sz);
      val := val * 10 + (input[p + sz] as int - 48);
      if val > 255 {
        TooBig(input, p, sz);
        return -1;
      }
      sz := sz + 1;
    }
    NumberOfThree(input[p..p + 3]);
  }

  lemma NextDigit(input: seq<Byte>, p: nat, sz: nat)
    requires p + sz < |input|
    ensures Number(input[p..p + sz + 1]) == 10 * Number(input[p..p + sz]) + (input[p + sz] as int - 48)
  {
    assert input[p..p + sz + 1][..sz] == input[p..p + sz];
  }

  lemma TooBig(input: seq<Byte>, p: nat, sz: nat)
    requires sz < 3 && p + sz < |input| && forall k: nat :: p <= k <= p + sz ==> Digit(input[k])
    requires Number(input[p..p + sz + 1]) > 255
    ensures sz == 2 && CodeOf(input[p], input[p + 1], input[p + 2]) > 255
  {
    var ds := input[p..p + sz + 1];
    forall d | d in ds ensures Digit(d) {
      var k :| 0 <= k < |ds| && ds[k] == d;
      assert ds[k] == input[p + k];
    }
    NumberBound(ds);
    NumberOfThree(ds);
  }

  lemma {:induction false} NumberBound(ds: seq<Byte>)
    requires forall d :: d in ds ==> Digit(d)
    ensures Number(ds) >= 0 && (|ds| <= 1 ==> Number(ds) < 10) && (|ds| <= 2 ==> Number(ds) < 100)
  {
    if ds != [] {
      NumberBound(ds[..|ds| - 1]);
      assert ds[|ds| - 1] in ds;
    }
  }

  lemma CodeRoundTrip(c: Byte)
    ensures CodeOf(48 + c / 100, 48 + c / 10 % 10, 48 + c % 10) == c
    ensures Digit(48 + c / 100) && Digit(48 + c / 10 % 10) && Digit(48 + c % 10)
  {
  }

  /** One written byte is read back, whatever follows. */
  lemma ByteRoundTrip(c: Byte, tail: seq<Byte>, delimiter: Byte)
    requires delimiter == QUOTE || delimiter == BAR
    ensures ReadBody(EscapedByte(c) + tail, delimiter) == Prepend(c, ReadBody(tail, delimiter))
  {
    if Plain(c) {
      PlainRead(c, tail, delimiter);
    } else {
      CodeRoundTrip(c);
      CodeRead(48 + c / 100, 48 + c / 10 % 10, 48 + c % 10, tail, delimiter);
    }
  }

  lemma PlainRead(c: Byte, tail: seq<Byte>, delimiter: Byte)
    requires Plain(c) && (delimiter == QUOTE || delimiter == BAR)
    ensures ReadBody([c] + tail, delimiter) == Prepend(c, ReadBody(tail, delimiter))
  {
    assert ([c] + tail)[1..] == tail;
  }

  lemma CodeRead(d1: Byte, d2: Byte, d3: Byte, tail: seq<Byte>, delimiter: Byte)
    requires Digit(d1) && Digit(d2) && Digit(d3) && CodeOf(d1, d2, d3) <= 255
    ensures ReadBody([BACKSLASH, d1, d2, d3] + tail, delimiter)
            == Prepend(CodeOf(d1, d2, d3), ReadBody(tail, delimiter))
  {
    var input := [BACKSLASH, d1, d2, d3] + tail;
    assert input[0] == BACKSLASH && input[1] == d1 && input[2] == d2 && input[3] == d3;
    assert input[4..] == tail;
  }

  lemma {:induction false} BodyRoundTrip(s: seq<Byte>, tail: seq<Byte>, delimiter: Byte)
    requires delimiter == QUOTE || delimiter == BAR
    ensures ReadBody(Escaped(s) + tail, delimiter) == Continue(s, ReadBody(tail, delimiter))
    decreases |s|
  {
    if s == [] {
      assert Escaped(s) + tail == tail;
      ContinueNothing(ReadBody(tail, delimiter));
    } else {
      var n := |s| - 1;
      assert Escaped(s) + tail == Escaped(s[..n]) + (EscapedByte(s[n]) + tail);
      BodyRoundTrip(s[..n], EscapedByte(s[n]) + tail, delimiter);
      ByteRoundTrip(s[n], tail, delimiter);
      ContinueNext(s[..n], s[n], ReadBody(tail, delimiter));
      assert s[..n] + [s[n]] == s;
    }
  }

  /** The replayer reads an escaped and quoted string back, and goes on behind it. */
  lemma StringRoundTrip(s: seq<Byte>, delimiter: Byte, rest: seq<Byte>)
    requires delimiter == QUOTE || delimiter == BAR
    ensures ReadString([delimiter] + Escaped(s) + [delimiter] + rest, delimiter) == Done(s, rest)
  {
    var input := [delimiter] + Escaped(s) + [delimiter] + rest;
    var tail := [delimiter] + rest;
    assert input[1..] == Escaped(s) + tail;
    BodyRoundTrip(s, tail, delimiter);
    assert tail[1..] == rest;
    assert ReadBody(tail, delimiter) == Done([], rest);
    assert s + [] == s;
  }

  /** The reader takes bytes as they are up to the first special one. */
  lemma {:induction false} ReadsThrough(w: seq<Byte>, rest: seq<Byte>, delimiter: Byte)
    requires forall b :: b in w ==> b != 10 && b != 92 && b != delimiter
    ensures ReadBody(w + rest, delimiter) == Continue(w, ReadBody(rest, delimiter))
  {
    if w == [] {
      assert w + rest == rest;
      ContinueNothing(ReadBody(rest, delimiter));
    } else {
      assert (w + rest)[0] == w[0] && w[0] in w && (w + rest)[1..] == w[1..] + rest;
      assert forall b :: b in w[1..] ==> b in w;
      ReadsThrough(w[1..], rest, delimiter);
      ContinueFirst(w, ReadBody(rest, delimiter));
    }
  }

  lemma ContinueFirst(w: seq<Byte>, r: Read)
    requires w != []
    ensures Prepend(w[0], Continue(w[1..], r)) == Continue(w, r)
  {
    if r.Done? { assert [w[0]] + (w[1..] + r.bytes) == w + r.bytes; }
  }

  function CodeValue(rest: seq<Byte>): int
    requires |rest| >= 4
  {
    (rest[1] as int - 48) * 100 + (rest[2] as int - 48) * 10 + (rest[3] as int - 48)
  }

  /** What the special bytes decide: the end of the input and of the line are errors, the
      delimiter ends the text, and a backslash needs three digits of a byte. */
  lemma SpecialBytes(rest: seq<Byte>, delimiter: Byte)
    ensures rest == [] ==> ReadBody(rest, delimiter) == EndOfFile
    ensures rest != [] && rest[0] == 10 ==> ReadBody(rest, delimiter) == EndOfLine
    ensures rest != [] && rest[0] == delimiter && delimiter != 10 && delimiter != 92 ==>
              ReadBody(rest, delimiter) == Done([], rest[1..])
    ensures rest != [] && rest[0] == 92 && (|rest| < 4 || exists i :: 0 < i < 4 && !(48 <= rest[i] <= 57)) ==>
              ReadBody(rest, delimiter) == InvalidEscape
    ensures |rest| >= 4 && rest[0] == 92 && CodeValue(rest) > 255 ==>
              ReadBody(rest, delimiter) == InvalidEscape
  {
  }

  lemma NoDelimiter(input: seq<Byte>, delimiter: Byte)
    ensures input == [] || input[0] != delimiter ==> ReadString(input, delimiter) == InvalidString
    ensures input != [] && input[0] == delimiter ==> ReadString(input, delimiter) == ReadBody(input[1..], delimiter)
  {
  }

  // ---------- numbers ----------

  function Decimal(n: nat): seq<Byte> {
    if n < 10 then [48 + n] else Decimal(n / 10) + [48 + n % 10]
  }

  const U32 := 0x1_0000_0000
  const U64 := 0x1_0000_0000_0000_0000

  /** The value of a list of digits, in 64 bits. */
  function Value(ds: seq<Byte>): nat
    requires forall d :: d in ds ==> Digit(d)
  {
    if ds == [] then 0 else (10 * Value(ds[..|ds| - 1]) + (ds[|ds| - 1] as int - 48)) % U64
  }

  function DigitsOf(input: seq<Byte>): (ds: seq<Byte>)
    ensures |ds| <= |input| && ds == input[..|ds|] && (forall d :: d in ds ==> Digit(d))
    ensures |ds| < |input| ==> !Digit(input[|ds|])
  {
    if input == [] || !Digit(input[0]) then [] else [input[0]] + DigitsOf(input[1..])
  }

  method ReadUint64(input: seq<Byte>) returns (ok: bool, n: nat, rest: seq<Byte>)
    ensures ok <==> DigitsOf(input) != []
    ensures ok ==> n == Value(DigitsOf(input)) && rest == input[|DigitsOf(input)|..]
  {
    ghost var ds := DigitsOf(input);
    n, rest := 0, input;
    if input == [] || !Digit(input[0]) { return false, 0, input; }
    var p := 0;
    while p < |input| && Digit(input[p])
      invariant p <= |ds| && n == Value(ds[..p])
      decreases |input| - p
    {
      assert p < |ds| && ds[p] == input[p] && ds[..p + 1][..p] == ds[..p];
      n := (10 * n + (input[p] as int - 48)) % U64;
      p := p + 1;
    }
    assert forall k :: 0 <= k < |ds| ==> input[k] == ds[k] && ds[k] in ds;
    assert ds[..p] == ds;
    return true, n, input[p..];
  }

  lemma {:induction false} DecimalValue(n: nat)
    requires n < U64
    ensures Decimal(n) != [] && (forall d :: d in Decimal(n) ==> Digit(d)) && Value(Decimal(n)) == n
  {
    if n < 10 {
      assert Value([]) == 0 && Decimal(n)[..0] == [];
    } else {
      DecimalValue(n / 10);
      assert Decimal(n)[..|Decimal(n)| - 1] == Decimal(n / 10);
    }
  }

  /** There are no leading zeros, and a number that is too long is read modulo 2^64. */
  lemma {:induction false} DecimalShape(n: nat)
    ensures Decimal(n) != [] && (forall d :: d in Decimal(n) ==> Digit(d))
    ensures Decimal(n)[0] == 48 <==> n == 0
    ensures Value(Decimal(n)) == n % 0x1_0000_0000_0000_0000
  {
    if n < 10 {
      assert Value([]) == 0 && Decimal(n)[..0] == [];
    } else {
      DecimalShape(n / 10);
      assert Decimal(n)[..|Decimal(n)| - 1] == Decimal(n / 10);
      DigitWraps(n / 10, n % 10);
    }
  }

  lemma DigitWraps(a: nat, d: nat)
    ensures (10 * (a % U64) + d) % U64 == (10 * a + d) % U64
  {
    var q, r := a / U64, a % U64;
    assert 10 * a + d == (10 * r + d) + U64 * (10 * q);
    MultipleDropped(10 * r + d, 10 * q);
  }

  lemma {:induction false} MultipleDropped(x: nat, k: nat)
    ensures (x + U64 * k) % U64 == x % U64
    decreases k
  {
    if k > 0 { MultipleDropped(x, k - 1); }
  }

  lemma {:induction false} DigitsFirst(ds: seq<Byte>, rest: seq<Byte>)
    requires (forall d :: d in ds ==> Digit(d)) && (rest == [] || !Digit(rest[0]))
    ensures DigitsOf(ds + rest) == ds
  {
    if ds == [] { assert ds + rest == rest; } else {
      assert ds[0] in ds && (ds + rest)[1..] == ds[1..] + rest;
      DigitsFirst(ds[1..], rest);
    }
  }

  // ---------- lines ----------

  /** An argument of a logged call. */
  datatype Arg = Str(bytes: seq<Byte>) | NullSymbol | NumSymbol(n: nat) | StrSymbol(bytes: seq<Byte>)

  predicate Loggable(a: Arg) {
    match a
    case Str(s) => 0 !in s
    case StrSymbol(s) => 0 !in s
    case NumSymbol(n) => n < U32
    case NullSymbol => true
  }

  /** The line of an argument, without its newline. */
  function Line(a: Arg): seq<Byte> {
    match a
    case Str(s) => [83, BLANK, QUOTE] + Escaped(s) + [QUOTE]
    case NullSymbol => [78]
    case NumSymbol(n) => [35, BLANK] + Decimal(n)
    case StrSymbol(s) => [36, BLANK, BAR] + Escaped(s) + [BAR]
  }

  datatype ReadArg = Arg(arg: Arg, rest: seq<Byte>) | Failed

  function SkipBlank(input: seq<Byte>): seq<Byte> {
    if input != [] && (input[0] == NEWLINE || input[0] == BLANK || input[0] == 9) then SkipBlank(input[1..]) else input
  }

  /** Blanks, tabs and newlines are skipped, and nothing else. */
  lemma {:induction false} BlanksSkipped(w: seq<Byte>, rest: seq<Byte>)
    requires (forall b :: b in w ==> b in [9, 10, 32]) && (rest == [] || rest[0] !in [9, 10, 32])
    ensures SkipBlank(w + rest) == rest
  {
    if w == [] {
      assert w + rest == rest;
    } else {
      assert (w + rest)[0] == w[0] && w[0] in w && (w + rest)[1..] == w[1..] + rest;
      BlanksSkipped(w[1..], rest);
    }
  }

  lemma SkipOne(tail: seq<Byte>)
    requires tail != [] && tail[0] != NEWLINE && tail[0] != BLANK && tail[0] != 9
    ensures SkipBlank([BLANK] + tail) == tail
  {
    assert ([BLANK] + tail)[1..] == tail;
  }

  /** How the replayer takes an argument from the log. */
  function Replay(input: seq<Byte>): ReadArg {
    if input == [] then Failed
    else
      var tail := SkipBlank(input[1..]);
      match input[0]
      case 83 => var r := ReadString(tail, QUOTE); if r.Done? then ReadArg.Arg(Str(r.bytes), r.rest) else Failed
      case 78 => ReadArg.Arg(NullSymbol, input[1..])
      case 35 =>
        var ds := DigitsOf(tail);
        if ds == [] then Failed else ReadArg.Arg(NumSymbol(Value(ds) % U32), tail[|ds|..])
      case 36 => var r := ReadString(tail, BAR); if r.Done? then ReadArg.Arg(StrSymbol(r.bytes), r.rest) else Failed
      case _ => Failed
  }

  /** A kind letter, a blank, and a quoted text. */
  lemma QuotedRoundTrip(kind: Byte, s: seq<Byte>, delimiter: Byte, rest: seq<Byte>)
    requires delimiter == QUOTE || delimiter == BAR
    ensures var input := [kind, BLANK, delimiter] + Escaped(s) + [delimiter] + rest;
            ReadString(SkipBlank(input[1..]), delimiter) == Done(s, rest)
  {
    var input := [kind, BLANK, delimiter] + Escaped(s) + [delimiter] + rest;
    var quoted := [delimiter] + Escaped(s) + [delimiter] + rest;
    assert input[1..] == [BLANK] + quoted;
    SkipOne(quoted);
    StringRoundTrip(s, delimiter, rest);
  }

  lemma NumberRoundTrip(kind: Byte, n: nat, rest: seq<Byte>)
    requires n < U64 && (rest == [] || !Digit(rest[0]))
    ensures var tail := SkipBlank(([kind, BLANK] + Decimal(n) + rest)[1..]);
            tail == Decimal(n) + rest && DigitsOf(tail) == Decimal(n) && Value(Decimal(n)) == n
  {
    DecimalValue(n);
    assert Decimal(n)[0] in Decimal(n);
    assert ([kind, BLANK] + Decimal(n) + rest)[1..] == [BLANK] + (Decimal(n) + rest);
    SkipOne(Decimal(n) + rest);
    DigitsFirst(Decimal(n), rest);
  }

  lemma StringLine(s: seq<Byte>, after: seq<Byte>)
    ensures Replay(Line(Str(s)) + after) == ReadArg.Arg(Str(s), after)
  {
    QuotedRoundTrip(83, s, QUOTE, after);
  }

  lemma NameLine(s: seq<Byte>, after: seq<Byte>)
    ensures Replay(Line(StrSymbol(s)) + after) == ReadArg.Arg(StrSymbol(s), after)
  {
    QuotedRoundTrip(36, s, BAR, after);
  }

  lemma NumberReplayed(input: seq<Byte>, ds: seq<Byte>, n: nat)
    requires |input| > 1 && input[0] == 35 && DigitsOf(SkipBlank(input[1..])) == ds != [] && Value(ds) == n < U32
    ensures Replay(input) == ReadArg.Arg(NumSymbol(n), SkipBlank(input[1..])[|ds|..])
  {
  }

  lemma NumberLine(n: nat, after: seq<Byte>)
    requires n < U32 && after != [] && !Digit(after[0])
    ensures Replay(Line(NumSymbol(n)) + after) == ReadArg.Arg(NumSymbol(n), after)
  {
    var ds := Decimal(n);
    DecimalValue(n);
    NumberRoundTrip(35, n, after);
    NumberReplayed([35, BLANK] + ds + after, ds, n);
    assert (ds + after)[|ds|..] == after;
  }

  /** Every line is replayed as the argument it was written for. */
  lemma LineRoundTrip(a: Arg, rest: seq<Byte>)
    requires Loggable(a)
    ensures Replay(Line(a) + [NEWLINE] + rest) == ReadArg.Arg(a, [NEWLINE] + rest)
  {
    var after := [NEWLINE] + rest;
    assert Line(a) + [NEWLINE] + rest == Line(a) + after;
    match a {
      case Str(s) => StringLine(s, after);
      case NullSymbol => assert ([78] + after)[1..] == after;
      case NumSymbol(n) => NumberLine(n, after);
      case StrSymbol(s) => NameLine(s, after);
    }
  }

  /** So a line determines its argument. */
  lemma LineDetermines(a: Arg, b: Arg)
    requires Loggable(a) && Loggable(b) && Line(a) == Line(b)
    ensures a == b
  {
    LineRoundTrip(a, []);
    LineRoundTrip(b, []);
  }

  method S(mem: seq<Byte>) returns (line: seq<Byte>)
    requires 0 in mem
    ensures line == Line(Str(CString(mem))) + [NEWLINE]
    ensures line == [83, 32, 34] + Escaped(CString(mem)) + [34] + [10]
  {
    var e := WriteEscaped(mem);
    line := [83, BLANK, QUOTE] + e + [QUOTE] + [NEWLINE];
  }

  /** A symbol: its name, if it has one, lies in memory and ends at a zero. */
  datatype Symbol = Null | Num(n: nat) | Name(mem: seq<Byte>)

  function ArgOf(sym: Symbol): Arg
    requires sym.Name? ==> 0 in sym.mem
  {
    match sym case Null => NullSymbol case Num(n) => NumSymbol(n) case Name(mem) => StrSymbol(CString(mem))
  }

  method Sy(sym: Symbol) returns (line: seq<Byte>)
    requires sym.Name? ==> 0 in sym.mem
    ensures line == Line(ArgOf(sym)) + [NEWLINE]
    ensures sym.Null? ==> line == [78, 10]
    ensures sym.Num? ==> line == [35, 32] + Decimal(sym.n) + [10]
    ensures sym.Name? ==> line == [36, 32, 124] + Escaped(CString(sym.mem)) + [124] + [10]
  {
    if sym.Null? {
      line := [78];
    } else if sym.Num? {
      line := [35, BLANK] + Decimal(sym.n);
    } else {
      var e := WriteEscaped(sym.mem);
      line := [36, BLANK, BAR] + e + [BAR];
    }
    line := line + [NEWLINE];
  }
}
