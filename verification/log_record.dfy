/** Log records as one line of text: nine fields separated by bars, text fields escaped. */
module LogRecords {
  import opened Numbers

  datatype Error = InvalidArgument | OutOfRange

  datatype Result<+T> = Ok(value: T) | Err(error: Error) {
    predicate IsFailure() {
      Err?
    }

    function PropagateFailure<U>(): Result<U>
      requires Err?
    {
      Err(error)
    }

    function Extract(): T
      requires Ok?
    {
      value
    }
  }

  const UINT8: nat := 0x100
  const UINT32: nat := 0x1_0000_0000
  const UINT64: nat := 0x1_0000_0000_0000_0000
  const INT64_MAX: int := 0x7FFF_FFFF_FFFF_FFFF

  /** `ticks` is the time in units of the system clock, signed. */
  datatype Message = Message(
    id: nat,
    level: nat,
    ticks: int,
    line: nat,
    column: nat,
    category: string,
    file: string,
    func: string,
    text: string)

  /** The C++ field types, and a time stamp that 64 bits of nanoseconds can express. */
  predicate Representable(m: Message, nanosPerTick: nat) {
    && m.id < UINT64 && m.level < UINT8 && m.line < UINT32 && m.column < UINT32
    && -INT64_MAX - 1 <= m.ticks * nanosPerTick <= INT64_MAX
  }

  // ---------------------------------------------------------------------------
  // Decimal numbers
  // ---------------------------------------------------------------------------

  function Digit(d: nat): char
    requires d < 10
  {
    '0' + d as char
  }

  predicate IsDigit(c: char) {
    '0' <= c <= '9'
  }

  function Decimal(n: nat): (s: string)
    ensures s != [] && forall k :: 0 <= k < |s| ==> IsDigit(s[k])
    ensures n > 0 ==> s[0] != '0'
  {
    if n < 10 then [Digit(n)] else Decimal(n / 10) + [Digit(n % 10)]
  }

  function SignedDecimal(n: int): string {
    if n < 0 then "-" + Decimal(-n) else Decimal(n)
  }

  predicate IsSpace(c: char) {
    c == ' ' || '\t' <= c <= '\r'
  }

  /** The longest prefix of digits. */
  function DigitsOf(s: string): (d: string)
    ensures forall k :: 0 <= k < |d| ==> IsDigit(d[k])
  {
    if s == [] || !IsDigit(s[0]) then [] else [s[0]] + DigitsOf(s[1..])
  }

  function ValueOf(digits: string): nat
    requires forall k :: 0 <= k < |digits| ==> IsDigit(digits[k])
  {
    if digits == [] then 0
    else
      assert IsDigit(digits[|digits| - 1]);
      ValueOf(digits[..|digits| - 1]) * 10 + (digits[|digits| - 1] - '0') as nat
  }

  function SkipSpaces(s: string): string {
    if s != [] && IsSpace(s[0]) then SkipSpaces(s[1..]) else s
  }

  /** The sign and magnitude the standard conversions read: spaces, an optional sign, digits,
      and anything after them ignored. */
  function ScanNumber(s: string): Result<(bool, nat)> {
    var rest := SkipSpaces(s);
    var negative := rest != [] && rest[0] == '-';
    var signed := rest != [] && (rest[0] == '-' || rest[0] == '+');
    var digits := DigitsOf(if signed then rest[1..] else rest);
    if digits == [] then Err(InvalidArgument) else Ok((negative, ValueOf(digits)))
  }

  /** `std::stoull` and 64-bit `std::stoul`: a minus sign negates modulo 2^64. */
  function ParseUnsigned(s: string): Result<nat> {
    var (negative, magnitude) :- ScanNumber(s);
    if magnitude >= UINT64 then Err(OutOfRange)
    else Ok(if negative then (UINT64 - magnitude) % UINT64 else magnitude)
  }

  /** `std::stoll`. */
  function ParseSigned(s: string): Result<int> {
    var (negative, magnitude) :- ScanNumber(s);
    var value := if negative then -(magnitude as int) else magnitude as int;
    if -INT64_MAX - 1 <= value <= INT64_MAX then Ok(value) else Err(OutOfRange)
  }

  /** C++ integer division truncates toward zero. */
  function TruncatedQuotient(n: int, d: nat): int
    requires d > 0
  {
    if n < 0 then -(-n / d) else n / d
  }

  // ---------------------------------------------------------------------------
  // Escaping
  // ---------------------------------------------------------------------------

  function EscapedChar(c: char): string {
    if c == '\\' then "\\\\"
    else if c == '|' then "\\|"
    else if c == '\n' then "\\n"
    else if c == '\r' then "\\r"
    else if c == '\t' then "\\t"
    else [c]
  }

  function Escaped(s: string): string {
    if s == [] then [] else EscapedChar(s[0]) + Escaped(s[1..])
  }

  function Unquoted(c: char): char {
    if c == 'n' then '\n' else if c == 'r' then '\r' else if c == 't' then '\t' else c
  }

  /** The text an escaped string stands for; `escaped` says that a backslash is pending. */
  function Unescaped(s: string, escaped: bool): string {
    if s == [] then (if escaped then "\\" else [])
    else if escaped then [Unquoted(s[0])] + Unescaped(s[1..], false)
    else if s[0] == '\\' then Unescaped(s[1..], true)
    else [s[0]] + Unescaped(s[1..], false)
  }

  /** The fields of a line, given the field being collected. */
  function Fields(line: string, current: string, escaped: bool): (r: seq<string>)
    ensures |r| > 0
    decreases |line|
  {
    if line == [] then [current]
    else if escaped then Fields(line[1..], current + [line[0]], false)
    else if line[0] == '|' then [current] + Fields(line[1..], [], false)
    else Fields(line[1..], current + [line[0]], line[0] == '\\')
  }

  method EscapeField(input: string) returns (output: string)
    ensures output == Escaped(input)
  {
    hide Escaped;
    output := "";
    var k := 0;
    assert input[0..] == input;
    while k < |input|
      invariant k <= |input| && output + Escaped(input[k..]) == Escaped(input)
    {
      EscapeNext(input, k);
      ghost var before := output;
      var c := input[k];
      match c {
        case '\\' => output := output + "\\\\";
        case '|' => output := output + "\\|";
        case '\n' => output := output + "\\n";
        case '\r' => output := output + "\\r";
        case '\t' => output := output + "\\t";
        case _ => output := output + [c];
      }
      assert output == before + EscapedChar(c);
      Associative(before, EscapedChar(c), Escaped(input[k + 1..]));
      k := k + 1;
    }
    NothingEscaped(input);
  }

  lemma EscapeNext(input: string, k: nat)
    requires k < |input|
    ensures Escaped(input[k..]) == EscapedChar(input[k]) + Escaped(input[k + 1..])
  {
    assert input[k..][1..] == input[k + 1..];
  }

  lemma Associative(a: string, b: string, c: string)
    ensures a + (b + c) == a + b + c
  {
  }

  lemma NothingEscaped(input: string)
    ensures Escaped(input[|input|..]) == [] && Unescaped(input[|input|..], false) == []
    ensures Unescaped(input[|input|..], true) == "\\"
  {
  }

  method UnescapeField(input: string) returns (output: string)
    ensures output == Unescaped(input, false)
  {
    hide Unescaped;
    output := "";
    var escaped := false;
    var k := 0;
    assert input[0..] == input;
    while k < |input|
      invariant k <= |input| && output + Unescaped(input[k..], escaped) == Unescaped(input, false)
    {
      UnescapeNext(input, k, escaped);
      ghost var before := output;
      var c := input[k];
      k := k + 1;
      if !escaped {
        if c == '\\' {
          escaped := true;
        } else {
          output := output + [c];
          assert before + ([c] + Unescaped(input[k..], false)) == output + Unescaped(input[k..], false);
        }
        continue;
      }
      match c {
        case 'n' => output := output + "\n";
        case 'r' => output := output + "\r";
        case 't' => output := output + "\t";
        case _ => output := output + [c];
      }
      escaped := false;
      assert output == before + [Unquoted(c)];
      assert before + ([Unquoted(c)] + Unescaped(input[k..], false)) == output + Unescaped(input[k..], false);
    }
    NothingEscaped(input);
    if escaped {
      output := output + "\\";
    }
  }

  lemma UnescapeNext(input: string, k: nat, escaped: bool)
    requires k < |input|
    ensures Unescaped(input[k..], escaped) ==
            if escaped then [Unquoted(input[k])] + Unescaped(input[k + 1..], false)
            else if input[k] == '\\' then Unescaped(input[k + 1..], true)
            else [input[k]] + Unescaped(input[k + 1..], false)
  {
    assert input[k..][1..] == input[k + 1..];
  }

  method SplitEscapedFields(line: string) returns (out: seq<string>)
    ensures out == Fields(line, [], false)
  {
    out := [];
    var current := "";
    var escaped := false;
    var k := 0;
    while k < |line|
      invariant k <= |line| && out + Fields(line[k..], current, escaped) == Fields(line, [], false)
    {
      assert line[k..][1..] == line[k + 1..];
      var c := line[k];
      k := k + 1;
      if !escaped {
        if c == '\\' {
          escaped := true;
          current := current + [c];
        } else if c == '|' {
          out := out + [current];
          current := "";
        } else {
          current := current + [c];
        }
        continue;
      }
      escaped := false;
      current := current + [c];
    }
    assert line[k..] == [];
    out := out + [current];
  }

  // ---------------------------------------------------------------------------
  // Records
  // ---------------------------------------------------------------------------

  function Joined(fields: seq<string>): string
    requires fields != []
  {
    if |fields| == 1 then fields[0] else fields[0] + "|" + Joined(fields[1..])
  }

  function FieldTexts(m: Message, nanosPerTick: nat): (fields: seq<string>)
    ensures |fields| == 9
  {
    [Decimal(m.id), Decimal(m.level), SignedDecimal(m.ticks * nanosPerTick), Decimal(m.line), Decimal(m.column),
     Escaped(m.category), Escaped(m.file), Escaped(m.func), Escaped(m.text)]
  }

  function Serialized(m: Message, nanosPerTick: nat): string {
    Joined(FieldTexts(m, nanosPerTick))
  }

  /** What a line of text stands for; numbers are converted before any text is used. */
  function Deserialized(line: string, nanosPerTick: nat): Result<Message>
    requires nanosPerTick > 0
  {
    var fields := Fields(line, [], false);
    if |fields| != 9 then Err(InvalidArgument)
    else
      var id :- ParseUnsigned(fields[0]);
      var level :- ParseUnsigned(fields[1]);
      var stamp :- ParseSigned(fields[2]);
      var row :- ParseUnsigned(fields[3]);
      var column :- ParseUnsigned(fields[4]);
      Ok(Message(id, level % UINT8, TruncatedQuotient(stamp, nanosPerTick), row % UINT32, column % UINT32,
                 Unescaped(fields[5], false), Unescaped(fields[6], false),
                 Unescaped(fields[7], false), Unescaped(fields[8], false)))
  }

  method Serialize(m: Message, nanosPerTick: nat) returns (line: string)
    ensures line == Serialized(m, nanosPerTick)
  {
    var category := EscapeField(m.category);
    var file := EscapeField(m.file);
    var func := EscapeField(m.func);
    var text := EscapeField(m.text);
    line := Joined([Decimal(m.id), Decimal(m.level), SignedDecimal(m.ticks * nanosPerTick), Decimal(m.line),
                    Decimal(m.column), category, file, func, text]);
  }

  method Deserialize(line: string, nanosPerTick: nat) returns (r: Result<Message>)
    requires nanosPerTick > 0
    ensures r == Deserialized(line, nanosPerTick)
  {
    var fields := SplitEscapedFields(line);
    if |fields| != 9 {
      return Err(InvalidArgument);
    }
    var id :- ParseUnsigned(fields[0]);
    var level :- ParseUnsigned(fields[1]);
    var stamp :- ParseSigned(fields[2]);
    var row :- ParseUnsigned(fields[3]);
    var column :- ParseUnsigned(fields[4]);
    var category := UnescapeField(fields[5]);
    var file := UnescapeField(fields[6]);
    var func := UnescapeField(fields[7]);
    var text := UnescapeField(fields[8]);
    r := Ok(Message(id, level % UINT8, TruncatedQuotient(stamp, nanosPerTick), row % UINT32, column % UINT32,
                    category, file, func, text));
  }

  // ---------------------------------------------------------------------------
  // Numbers survive
  // ---------------------------------------------------------------------------

  lemma {:induction false} DecimalValue(n: nat)
    ensures ValueOf(Decimal(n)) == n
  {
    if n >= 10 {
      DecimalValue(n / 10);
      var s := Decimal(n);
      assert s[..|s| - 1] == Decimal(n / 10);
    } else {
      assert Decimal(n)[..0] == [];
    }
  }

  lemma {:induction false} AllDigits(s: string)
    requires forall k :: 0 <= k < |s| ==> IsDigit(s[k])
    ensures DigitsOf(s) == s
  {
    if s != [] {
      AllDigits(s[1..]);
    }
  }

  lemma DecimalParses(n: nat)
    ensures ScanNumber(Decimal(n)) == Ok((false, n))
    ensures ScanNumber("-" + Decimal(n)) == Ok((true, n))
  {
    AllDigits(Decimal(n));
    DecimalValue(n);
    assert ("-" + Decimal(n))[1..] == Decimal(n);
  }

  lemma SignedDecimalParses(n: int)
    requires -INT64_MAX - 1 <= n <= INT64_MAX
    ensures ParseSigned(SignedDecimal(n)) == Ok(n)
  {
    DecimalParses(if n < 0 then -n else n);
  }

  lemma TicksSurvive(ticks: int, nanosPerTick: nat)
    requires nanosPerTick > 0
    ensures TruncatedQuotient(ticks * nanosPerTick, nanosPerTick) == ticks
  {
    if ticks >= 0 {
      DivisionIs(ticks * nanosPerTick, nanosPerTick, ticks, 0);
    } else {
      DivisionIs(-ticks * nanosPerTick, nanosPerTick, -ticks, 0);
      assert -(ticks * nanosPerTick) == -ticks * nanosPerTick;
      assert ticks * nanosPerTick < 0;
    }
  }

  // ---------------------------------------------------------------------------
  // Text survives
  // ---------------------------------------------------------------------------

  lemma {:induction false} UnescapeEscaped(s: string)
    ensures Unescaped(Escaped(s), false) == s
  {
    if s != [] {
      UnescapeEscaped(s[1..]);
      var rest := Escaped(s[1..]);
      var e := EscapedChar(s[0]);
      if |e| == 2 {
        assert (e + rest)[1..] == [e[1]] + rest && ([e[1]] + rest)[1..] == rest;
        assert e[0] == '\\' && Unquoted(e[1]) == s[0];
      } else {
        assert (e + rest)[1..] == rest;
      }
    }
  }

  /** A text that the splitter passes over whole: every bar in it is escaped, no escape open. */
  ghost predicate Passes(f: string) {
    forall rest: string, current: string :: Fields(f + rest, current, false) == Fields(rest, current + f, false)
  }

  lemma {:induction false} EscapedPasses(s: string, rest: string, current: string)
    ensures Fields(Escaped(s) + rest, current, false) == Fields(rest, current + Escaped(s), false)
    decreases |s|
  {
    if s == [] {
      assert [] + rest == rest && current + [] == current;
    } else {
      var e, tail := EscapedChar(s[0]), Escaped(s[1..]);
      assert Escaped(s) + rest == e + (tail + rest);
      assert current + Escaped(s) == current + e + tail;
      EscapedPasses(s[1..], rest, current + e);
      CharPasses(s[0], tail + rest, current);
    }
  }

  lemma CharPasses(c: char, rest: string, current: string)
    ensures Fields(EscapedChar(c) + rest, current, false) == Fields(rest, current + EscapedChar(c), false)
  {
    var e := EscapedChar(c);
    if |e| == 2 {
      assert (e + rest)[1..] == [e[1]] + rest && ([e[1]] + rest)[1..] == rest;
      assert current + [e[0]] + [e[1]] == current + e;
    } else {
      assert (e + rest)[1..] == rest;
    }
  }

  lemma {:induction false} PlainPasses(s: string, rest: string, current: string)
    requires forall k :: 0 <= k < |s| ==> IsDigit(s[k]) || s[k] == '-'
    ensures Fields(s + rest, current, false) == Fields(rest, current + s, false)
    decreases |s|
  {
    if s == [] {
      assert [] + rest == rest && current + [] == current;
    } else {
      assert (s + rest)[1..] == s[1..] + rest;
      assert current + [s[0]] + s[1..] == current + s;
      PlainPasses(s[1..], rest, current + [s[0]]);
    }
  }

  /** Joining and splitting are inverse on fields that pass. */
  lemma {:induction false} FieldsOfJoined(fields: seq<string>)
    requires fields != [] && forall k :: 0 <= k < |fields| ==> Passes(fields[k])
    ensures Fields(Joined(fields), [], false) == fields
    decreases |fields|
  {
    var f := fields[0];
    assert Passes(f) && [] + f == f;
    if |fields| == 1 {
      assert f + [] == f;
      assert Fields(f + [], [], false) == Fields([], [] + f, false);
    } else {
      FieldsOfJoined(fields[1..]);
      var rest := "|" + Joined(fields[1..]);
      assert Joined(fields) == f + rest;
      assert Fields(f + rest, [], false) == Fields(rest, [] + f, false);
      assert rest[1..] == Joined(fields[1..]);
    }
  }

  lemma FieldTextsPass(m: Message, nanosPerTick: nat)
    ensures forall k :: 0 <= k < 9 ==> Passes(FieldTexts(m, nanosPerTick)[k])
  {
    var fields := FieldTexts(m, nanosPerTick);
    forall k | 0 <= k < 9 ensures Passes(fields[k]) {
      forall rest: string, current: string
        ensures Fields(fields[k] + rest, current, false) == Fields(rest, current + fields[k], false)
      {
        if k < 5 {
          PlainPasses(fields[k], rest, current);
        } else {
          var s := if k == 5 then m.category else if k == 6 then m.file else if k == 7 then m.func else m.text;
          EscapedPasses(s, rest, current);
        }
      }
    }
  }

  // ---------------------------------------------------------------------------
  // Main results
  // ---------------------------------------------------------------------------

  /** Reading back a written record gives the record, whatever its texts contain. */
  lemma RoundTrip(m: Message, nanosPerTick: nat)
    requires nanosPerTick > 0 && Representable(m, nanosPerTick)
    ensures Deserialized(Serialized(m, nanosPerTick), nanosPerTick) == Ok(m)
  {
    hide Fields, Joined, Decimal, SignedDecimal, Escaped, Unescaped, ParseUnsigned, ParseSigned, TruncatedQuotient,
        Passes;
    FieldTextsPass(m, nanosPerTick);
    FieldsOfJoined(FieldTexts(m, nanosPerTick));
    NumberRoundTrip(m.id);
    NumberRoundTrip(m.level);
    NumberRoundTrip(m.line);
    NumberRoundTrip(m.column);
    SignedDecimalParses(m.ticks * nanosPerTick);
    TicksSurvive(m.ticks, nanosPerTick);
    UnescapeEscaped(m.category);
    UnescapeEscaped(m.file);
    UnescapeEscaped(m.func);
    UnescapeEscaped(m.text);
  }

  lemma NumberRoundTrip(n: nat)
    requires n < UINT64
    ensures ParseUnsigned(Decimal(n)) == Ok(n)
  {
    DecimalParses(n);
  }

  /** The fields of a record's line, in order. */
  lemma RecordFields(m: Message, nanosPerTick: nat)
    ensures Fields(Serialized(m, nanosPerTick), [], false)
            == [Decimal(m.id), Decimal(m.level), SignedDecimal(m.ticks * nanosPerTick), Decimal(m.line),
                Decimal(m.column), Escaped(m.category), Escaped(m.file), Escaped(m.func), Escaped(m.text)]
  {
    hide Fields, Joined, Decimal, SignedDecimal, Escaped, Passes;
    FieldTextsPass(m, nanosPerTick);
    FieldsOfJoined(FieldTexts(m, nanosPerTick));
  }

  /** The five escapes, and what is read where no writer left an escape. */
  lemma EscapesAre(c: char)
    ensures Escaped("\\") == "\\\\" && Escaped("|") == "\\|"
    ensures Escaped("\n") == "\\n" && Escaped("\r") == "\\r" && Escaped("\t") == "\\t"
    ensures c !in "\\|\n\r\t" ==> Escaped([c]) == [c]
    ensures c !in "nrt" ==> Unescaped(['\\', c], false) == [c]
    ensures Unescaped("\\", false) == "\\"
  {
    assert ['\\', c][1..] == [c] && [c][1..] == [];
    assert forall d: char :: d in "nrt" <==> d == 'n' || d == 'r' || d == 't';
    Last(c, EscapedChar(c));
    assert "|"[1..] == "" && "\\"[1..] == "" && "\n"[1..] == "" && "\r"[1..] == "" && "\t"[1..] == "";
    assert Unescaped("", true) == "\\";
  }

  lemma Last(c: char, e: string)
    requires e == EscapedChar(c)
    ensures Escaped([c]) == e
    ensures c !in "\\|\n\r\t" ==> e == [c]
  {
    assert [c][1..] == [] && e + [] == e;
    var special := "\\|\n\r\t";
    assert special[0] == '\\' && special[1] == '|' && special[2] == '\n' && special[3] == '\r' && special[4] == '\t';
  }

  // ---------------------------------------------------------------------------
  // Lines that nobody wrote
  // ---------------------------------------------------------------------------

  /** How many backslashes end the text. */
  function Backslashes(s: string): nat {
    if s == [] || s[|s| - 1] != '\\' then 0 else 1 + Backslashes(s[..|s| - 1])
  }

  /** The bars from `k` on that no backslash escapes. */
  function BareBars(line: string, k: nat): set<nat> {
    set j: nat | k <= j < |line| && line[j] == '|' && Backslashes(line[..j]) % 2 == 0
  }

  lemma {:induction false} FieldsCount(line: string, k: nat, current: string)
    requires k <= |line|
    ensures |Fields(line[k..], current, Backslashes(line[..k]) % 2 == 1)| == 1 + |BareBars(line, k)|
    decreases |line| - k
  {
    hide Backslashes;
    if k == |line| {
      assert BareBars(line, k) == {};
    } else {
      var bare := line[k] == '|' && Backslashes(line[..k]) % 2 == 0;
      assert line[k..][1..] == line[k + 1..];
      NextParity(line, k);
      NextBar(line, k);
      hide BareBars;
      FieldsCount(line, k + 1, if bare then [] else current + [line[k]]);
    }
  }

  lemma NextParity(line: string, k: nat)
    requires k < |line|
    ensures Backslashes(line[..k + 1]) % 2 == 1 <==> line[k] == '\\' && Backslashes(line[..k]) % 2 == 0
  {
    assert line[..k + 1][..k] == line[..k];
  }

  lemma NextBar(line: string, k: nat)
    requires k < |line|
    ensures var bare := line[k] == '|' && Backslashes(line[..k]) % 2 == 0;
            |BareBars(line, k)| == |BareBars(line, k + 1)| + if bare then 1 else 0
  {
    hide Backslashes;
    var bare := line[k] == '|' && Backslashes(line[..k]) % 2 == 0;
    assert BareBars(line, k) == BareBars(line, k + 1) + if bare then {k} else {};
  }

  /** A line is refused unless it has exactly eight bars that are not escaped. */
  lemma WrongFieldCountIsRefused(line: string, nanosPerTick: nat)
    requires nanosPerTick > 0 && |BareBars(line, 0)| != 8
    ensures Deserialized(line, nanosPerTick) == Err(InvalidArgument)
  {
    FieldsCount(line, 0, []);
    assert line[0..] == line && line[..0] == [];
  }

  /** Whatever line is accepted, the record read can be written and is read back the same. */
  lemma AcceptedIsStable(line: string, nanosPerTick: nat)
    requires nanosPerTick > 0 && Deserialized(line, nanosPerTick).Ok?
    ensures var m := Deserialized(line, nanosPerTick).value;
            && Representable(m, nanosPerTick)
            && Deserialized(Serialized(m, nanosPerTick), nanosPerTick) == Ok(m)
  {
    hide Fields, Unescaped, ScanNumber;
    var m := Deserialized(line, nanosPerTick).value;
    var stamp := ParseSigned(Fields(line, [], false)[2]).value;
    TruncationShrinks(stamp, nanosPerTick);
    RoundTrip(m, nanosPerTick);
  }

  lemma TruncationShrinks(n: int, d: nat)
    requires d > 0
    ensures var q := TruncatedQuotient(n, d);
            if n < 0 then n <= q * d <= 0 else 0 <= q * d <= n
  {
    hide TruncatedQuotient;
    if n < 0 {
      var k: int := ShrunkProduct(-n, d);
      Negated(k, d);
      assert TruncatedQuotient(n, d) == -k by { QuotientOfNegative(n, d); }
    } else {
      var k := ShrunkProduct(n, d);
      assert TruncatedQuotient(n, d) == k by { QuotientOfOther(n, d); }
    }
  }

  lemma ShrunkProduct(a: nat, d: nat) returns (k: nat)
    requires d > 0
    ensures k == a / d && 0 <= k * d <= a
  {
    k := a / d;
    QuotientBounds(a, d);
  }

  lemma QuotientOfNegative(n: int, d: nat)
    requires d > 0 && n < 0
    ensures TruncatedQuotient(n, d) == -(-n / d)
  {
  }

  lemma QuotientOfOther(n: int, d: nat)
    requires d > 0 && n >= 0
    ensures TruncatedQuotient(n, d) == n / d
  {
  }

  lemma Negated(k: int, d: int)
    ensures (-k) * d == -(k * d)
  {
  }

  // ---------------------------------------------------------------------------
  // A log is its records
  // ---------------------------------------------------------------------------

  /** What the writer appends to the file: each record followed by a newline. */
  function Written(log: seq<Message>, nanosPerTick: nat): string {
    if log == [] then [] else Serialized(log[0], nanosPerTick) + "\n" + Written(log[1..], nanosPerTick)
  }

  /** The lines of a text, each ended by a newline; `current` is the line being collected. */
  function Lines(text: string, current: string): seq<string>
    decreases |text|
  {
    if text == [] then (if current == [] then [] else [current])
    else if text[0] == '\n' then [current] + Lines(text[1..], [])
    else Lines(text[1..], current + [text[0]])
  }

  predicate OneLine(s: string) {
    forall k :: 0 <= k < |s| ==> s[k] != '\n'
  }

  lemma {:induction false} EscapedIsOneLine(s: string)
    ensures OneLine(Escaped(s))
  {
    if s != [] {
      EscapedIsOneLine(s[1..]);
    }
  }

  lemma {:induction false} JoinedIsOneLine(fields: seq<string>)
    requires fields != [] && forall k :: 0 <= k < |fields| ==> OneLine(fields[k])
    ensures OneLine(Joined(fields))
    decreases |fields|
  {
    if |fields| > 1 {
      assert OneLine(fields[0]);
      JoinedIsOneLine(fields[1..]);
    }
  }

  /** No record contains a raw newline. */
  lemma SerializedIsOneLine(m: Message, nanosPerTick: nat)
    ensures OneLine(Serialized(m, nanosPerTick))
  {
    var fields := FieldTexts(m, nanosPerTick);
    EscapedIsOneLine(m.category);
    EscapedIsOneLine(m.file);
    EscapedIsOneLine(m.func);
    EscapedIsOneLine(m.text);
    hide Decimal, Escaped, Joined;
    forall k | 0 <= k < 9 ensures OneLine(fields[k]) {
    }
    JoinedIsOneLine(fields);
  }

  lemma {:induction false} LineThenRest(s: string, rest: string, current: string)
    requires OneLine(s)
    ensures Lines(s + "\n" + rest, current) == [current + s] + Lines(rest, [])
    decreases |s|
  {
    if s == [] {
      assert s + "\n" + rest == "\n" + rest && current + s == current;
      assert ("\n" + rest)[1..] == rest;
    } else {
      assert (s + "\n" + rest)[1..] == s[1..] + "\n" + rest;
      assert current + [s[0]] + s[1..] == current + s;
      LineThenRest(s[1..], rest, current + [s[0]]);
    }
  }

  /** Splitting a written log at its newlines recovers every record, in order. */
  lemma {:induction false} LogRoundTrip(log: seq<Message>, nanosPerTick: nat)
    requires nanosPerTick > 0 && forall k :: 0 <= k < |log| ==> Representable(log[k], nanosPerTick)
    ensures var lines := Lines(Written(log, nanosPerTick), []);
            && |lines| == |log|
            && forall k :: 0 <= k < |log| ==> Deserialized(lines[k], nanosPerTick) == Ok(log[k])
    decreases |log|
  {
    hide Deserialized, Serialized;
    if log != [] {
      LogRoundTrip(log[1..], nanosPerTick);
      var first, rest := Serialized(log[0], nanosPerTick), Written(log[1..], nanosPerTick);
      SerializedIsOneLine(log[0], nanosPerTick);
      LineThenRest(first, rest, []);
      assert [] + first == first;
      RoundTrip(log[0], nanosPerTick);
      var lines := Lines(Written(log, nanosPerTick), []);
      assert lines == [first] + Lines(rest, []);
      forall k | 0 <= k < |log| ensures Deserialized(lines[k], nanosPerTick) == Ok(log[k]) {
        if k > 0 {
          assert lines[k] == Lines(rest, [])[k - 1] && log[1..][k - 1] == log[k];
        }
      }
    }
  }
}
