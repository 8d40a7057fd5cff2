/** Python's `json.dumps` and JavaScript's `JSON.parse` (RFC 8259), as the query stream
    and the chat page use them.

    A Python string is a sequence of code points, surrogates included; a JavaScript
    string is a sequence of UTF-16 code units.  The text between the two is a
    Dafny string: the printer emits printable ASCII only. */
module Json {
  import opened Wrappers
  import opened Decimal
  import opened Strings

  type CodePoint = c: int | 0 <= c < 0x11_0000
  type CodeUnit = u: int | 0 <= u < 0x1_0000
  type PyString = seq<CodePoint>
  type JsString = seq<CodeUnit>

  datatype Value<S> =
    | Null | True | False
    | Num(lexeme: string)   // a number as it is written
    | NotANumber            // Python's float('nan'), which `json.dumps` prints as NaN
    | Str(s: S)
    | Arr(items: seq<Value<S>>)
    | Obj(fields: seq<Field<S>>)

  datatype Field<S> = Field(key: S, value: Value<S>)

  function Utf16One(c: CodePoint): JsString {
    if c < 0x1_0000 then [c] else [0xD800 + (c - 0x1_0000) / 0x400, 0xDC00 + (c - 0x1_0000) % 0x400]
  }

  function Utf16(s: PyString): JsString {
    if s == [] then [] else Utf16One(s[0]) + Utf16(s[1..])
  }

  lemma {:induction false} Utf16Append(a: PyString, b: PyString)
    ensures Utf16(a + b) == Utf16(a) + Utf16(b)
  {
    if a == [] {
      assert a + b == b;
    } else {
      assert (a + b)[1..] == a[1..] + b;
      Utf16Append(a[1..], b);
    }
  }

  predicate IsHigh(u: int) { 0xD800 <= u < 0xDC00 }

  predicate IsLow(u: int) { 0xDC00 <= u < 0xE000 }

  /** The code points of a UTF-16 text: a high surrogate and a low one after it stand for one. */
  function FromUtf16(units: JsString): PyString {
    if units == [] then []
    else if |units| > 1 && IsHigh(units[0]) && IsLow(units[1]) then
      [0x1_0000 + (units[0] - 0xD800) * 0x400 + (units[1] - 0xDC00)] + FromUtf16(units[2..])
    else [units[0]] + FromUtf16(units[1..])
  }

  /** A supplementary character becomes a high surrogate and a low one that stand for it. */
  lemma SurrogatePair(c: CodePoint)
    ensures c < 0x1_0000 ==> Utf16([c]) == [c]
    ensures c >= 0x1_0000 ==>
      && |Utf16([c])| == 2
      && var high: int, low: int := Utf16([c])[0], Utf16([c])[1];
         0xD800 <= high < 0xDC00 <= low < 0xE000 && c == 0x1_0000 + (high - 0xD800) * 0x400 + (low - 0xDC00)
  {
    assert [c][1..] == [];
    assert Utf16([c]) == Utf16One(c);
  }

  lemma DecodeOne(units: JsString, more: JsString)
    requires (|units| == 1 && !IsHigh(units[0])) || (|units| == 2 && IsHigh(units[0]) && IsLow(units[1]))
    ensures FromUtf16(units + more) == FromUtf16(units) + FromUtf16(more)
  {
    if |units| == 1 {
      assert (units + more)[1..] == more && units[1..] == [];
    } else {
      assert (units + more)[2..] == more && units[2..] == [];
    }
  }

  /** Decoding inverts the encoding of every text without surrogates. */
  lemma {:induction false} Utf16RoundTrip(s: PyString)
    requires forall c :: c in s ==> !(0xD800 <= c < 0xE000)
    ensures FromUtf16(Utf16(s)) == s
  {
    if s != [] {
      assert s[0] in s && [s[0]] + s[1..] == s && forall c :: c in s[1..] ==> c in s;
      Utf16RoundTrip(s[1..]);
      hide Utf16, FromUtf16;
      Utf16Append([s[0]], s[1..]);
      DecodeChar(s[0], Utf16(s[1..]));
    }
  }

  lemma DecodeChar(c: CodePoint, more: JsString)
    requires !(0xD800 <= c < 0xE000)
    ensures FromUtf16(Utf16([c]) + more) == [c] + FromUtf16(more)
  {
    SurrogatePair(c);
    hide Utf16;
    DecodeOne(Utf16([c]), more);
    if c >= 0x1_0000 {
      assert Utf16([c])[2..] == [];
    }
  }

  // ---------------------------------------------------------------- printing

  function Hex(d: int): char
    requires 0 <= d < 16
  {
    if d < 10 then ('0' as int + d) as char else ('a' as int + d - 10) as char
  }

  function EscapeUnit(u: CodeUnit): string {
    ['\\', 'u', Hex(u / 0x1000), Hex(u / 0x100 % 0x10), Hex(u / 0x10 % 0x10), Hex(u % 0x10)]
  }

  function EscapeOne(c: CodePoint): string {
    if c == 0x22 then ['\\', '"']
    else if c == 0x5C then ['\\', '\\']
    else if c == 0x0A then ['\\', 'n']
    else if c == 0x0D then ['\\', 'r']
    else if c == 0x09 then ['\\', 't']
    else if c == 0x0C then ['\\', 'f']
    else if c == 0x08 then ['\\', 'b']
    else if 0x20 <= c <= 0x7E then [c as char]
    else if c < 0x1_0000 then EscapeUnit(c)
    else EscapeUnit(Utf16One(c)[0]) + EscapeUnit(Utf16One(c)[1])
  }

  function Escape(s: PyString): string {
    if s == [] then "" else EscapeOne(s[0]) + Escape(s[1..])
  }

  /** The characters written with a letter, section 7 of RFC 8259. */
  const LETTERS: map<int, char> :=
    map[0x22 := '"', 0x5C := '\\', 0x0A := 'n', 0x0D := 'r', 0x09 := 't', 0x0C := 'f', 0x08 := 'b']

  /** How `json.dumps` writes a character: quote, backslash and five control characters with a
      letter, other printable ASCII as it stands, and every other UTF-16 unit as \\u and four
      lower-case digits. */
  lemma EscapeText(c: CodePoint)
    ensures c in LETTERS ==> Escape([c]) == ['\\', LETTERS[c]]
    ensures c !in LETTERS && 0x20 <= c <= 0x7E ==> Escape([c]) == [c as char]
    ensures c !in LETTERS && !(0x20 <= c <= 0x7E) ==>
      Escape([c]) == if c < 0x1_0000 then FourDigits(c) else FourDigits(Utf16([c])[0]) + FourDigits(Utf16([c])[1])
  {
    assert [c][1..] == [];
    assert Escape([c]) == EscapeOne(c) && Utf16([c]) == Utf16One(c);
    hide Escape, Utf16, FourDigits, EscapeUnit;
    if c in LETTERS {
      LetterText(c);
    } else if c < 0x1_0000 {
      UnitText(c);
    } else {
      UnitText(Utf16One(c)[0]);
      UnitText(Utf16One(c)[1]);
    }
  }

  lemma LetterText(c: CodePoint)
    requires c in LETTERS
    ensures EscapeOne(c) == ['\\', LETTERS[c]]
  {
  }

  const HEX_DIGITS := "0123456789abcdef"

  function FourDigits(u: CodeUnit): string {
    "\\u" + [HEX_DIGITS[u / 4096], HEX_DIGITS[u / 256 % 16], HEX_DIGITS[u / 16 % 16], HEX_DIGITS[u % 16]]
  }

  lemma UnitText(u: CodeUnit)
    ensures EscapeUnit(u) == FourDigits(u)
  {
    DigitText(u / 4096);
    DigitText(u / 256 % 16);
    DigitText(u / 16 % 16);
    DigitText(u % 16);
  }

  lemma DigitText(d: int)
    requires 0 <= d < 16
    ensures Hex(d) == HEX_DIGITS[d]
  {
  }

  /** The text of a character outside the basic plane. */
  lemma EscapeExample()
    ensures Utf16([0x1F600]) == [0xD83D, 0xDE00] && Escape([0x1F600]) == "\\ud83d\\ude00"
  {
    hide Escape, Utf16, FourDigits;
    SurrogatePair(0x1F600);
    EscapeText(0x1F600);
    var units := Utf16([0x1F600]);
    assert units[0] == 0xD83D && units[1] == 0xDE00;
    UnitExample();
  }

  lemma UnitExample()
    ensures FourDigits(0xD83D) == "\\ud83d" && FourDigits(0xDE00) == "\\ude00"
  {
    assert 0xD83D / 4096 == 13 && 0xD83D / 256 % 16 == 8 && 0xD83D / 16 % 16 == 3 && 0xD83D % 16 == 13;
    assert 0xDE00 / 4096 == 13 && 0xDE00 / 256 % 16 == 14 && 0xDE00 / 16 % 16 == 0 && 0xDE00 % 16 == 0;
  }

  function Quote(s: PyString): string { ['"'] + Escape(s) + ['"'] }

  function Dumps(v: Value<PyString>): string
    decreases v
  {
    match v
    case Null => "null"
    case True => "true"
    case False => "false"
    case Num(lexeme) => lexeme
    case NotANumber => "NaN"
    case Str(s) => Quote(s)
    case Arr(items) => ['['] + DumpItems(items) + [']']
    case Obj(fields) => ['{'] + DumpFields(fields) + ['}']
  }

  function DumpItems(items: seq<Value<PyString>>): string
    decreases items
  {
    if items == [] then ""
    else if |items| == 1 then Dumps(items[0])
    else Dumps(items[0]) + ([',', ' '] + DumpItems(items[1..]))
  }

  function DumpField(f: Field<PyString>): string
    decreases f
  {
    Quote(f.key) + ([':', ' '] + Dumps(f.value))
  }

  function DumpFields(fields: seq<Field<PyString>>): string
    decreases fields
  {
    if fields == [] then ""
    else if |fields| == 1 then DumpField(fields[0])
    else DumpField(fields[0]) + ([',', ' '] + DumpFields(fields[1..]))
  }

  // ---------------------------------------------------------------- numbers

  predicate IsNumChar(c: char) { IsDigit(c) || c == '-' || c == '+' || c == '.' || c == 'e' || c == 'E' }

  predicate ValidExponent(s: string) {
    s == "" ||
    ((s[0] == 'e' || s[0] == 'E') &&
     var t := if |s| > 1 && (s[1] == '+' || s[1] == '-') then s[2..] else s[1..];
     t != "" && LeadingDigits(t) == |t|)
  }

  predicate ValidFraction(s: string) {
    if s != "" && s[0] == '.' then
      var n := LeadingDigits(s[1..]);
      n > 0 && ValidExponent(s[1 + n..])
    else ValidExponent(s)
  }

  /** The grammar of numbers, section 6 of RFC 8259. */
  predicate ValidNumber(s: string) {
    && s != "" && (forall c :: c in s ==> IsNumChar(c))
    && var t := if s[0] == '-' then s[1..] else s;
       var n := LeadingDigits(t);
       n > 0 && (t[0] == '0' ==> n == 1) && ValidFraction(t[n..])
  }

  /** The decimal text of a natural number is a number of the grammar. */
  lemma DigitsAreJson(n: nat)
    ensures ValidNumber(Digits(n))
  {
    DigitsShape(n);
    AllDigits(Digits(n));
  }

  // ---------------------------------------------------------------- parsing

  datatype Parsed<T> = Fail | Got(value: T, rest: string)

  predicate IsSpace(c: char) { c == ' ' || c == '\t' || c == '\n' || c == '\r' }

  function SkipSpace(s: string): (t: string)
    ensures |t| <= |s|
    ensures t == "" || !IsSpace(t[0])
  {
    if s != "" && IsSpace(s[0]) then SkipSpace(s[1..]) else s
  }

  function HexValue(c: char): int {
    if '0' <= c <= '9' then c as int - '0' as int
    else if 'a' <= c <= 'f' then c as int - 'a' as int + 10
    else if 'A' <= c <= 'F' then c as int - 'A' as int + 10
    else -1
  }

  predicate IsHex(c: char) { HexValue(c) >= 0 }

  function Prepend(units: JsString, p: Parsed<JsString>): Parsed<JsString> {
    if p.Fail? then Fail else Got(units + p.value, p.rest)
  }

  /** The one-letter escapes of section 7 of RFC 8259; -1 for any other letter. */
  function Unescape(c: char): int {
    if c == '"' then 0x22
    else if c == '\\' then 0x5C
    else if c == '/' then 0x2F
    else if c == 'n' then 0x0A
    else if c == 'r' then 0x0D
    else if c == 't' then 0x09
    else if c == 'f' then 0x0C
    else if c == 'b' then 0x08
    else -1
  }

  /** A string, from after its opening quote. */
  function ParseChars(s: string): (p: Parsed<JsString>)
    ensures p.Got? ==> |p.rest| < |s|
  {
    if s == "" then Fail
    else if s[0] == '"' then Got([], s[1..])
    else if s[0] == '\\' then
      if |s| >= 6 && s[1] == 'u' && IsHex(s[2]) && IsHex(s[3]) && IsHex(s[4]) && IsHex(s[5]) then
        var unit := HexValue(s[2]) * 0x1000 + HexValue(s[3]) * 0x100 + HexValue(s[4]) * 0x10 + HexValue(s[5]);
        Prepend([unit], ParseChars(s[6..]))
      else if |s| >= 2 && Unescape(s[1]) >= 0 then
        Prepend([Unescape(s[1])], ParseChars(s[2..]))
      else Fail
    else if s[0] < ' ' then Fail
    else Prepend(Utf16One(s[0] as int), ParseChars(s[1..]))
  }

  function RunLength(s: string): (n: nat)
    ensures n <= |s|
  {
    if s != "" && IsNumChar(s[0]) then 1 + RunLength(s[1..]) else 0
  }

  function ParseNumber(s: string): Parsed<Value<JsString>> {
    var n := RunLength(s);
    if ValidNumber(s[..n]) then Got(Num(s[..n]), s[n..]) else Fail
  }

  function ParseLiteral(s: string): Parsed<Value<JsString>> {
    if "null" <= s then Got(Null, s[4..])
    else if "true" <= s then Got(True, s[4..])
    else if "false" <= s then Got(False, s[5..])
    else Fail
  }

  function ParseValue(s: string): (p: Parsed<Value<JsString>>)
    ensures p.Got? ==> |p.rest| < |s|
    decreases |s|, 0
  {
    var t := SkipSpace(s);
    if t == "" then Fail
    else if t[0] == '"' then
      var p := ParseChars(t[1..]);
      if p.Fail? then Fail else Got(Str(p.value), p.rest)
    else if t[0] == '[' then
      var u := SkipSpace(t[1..]);
      if u != "" && u[0] == ']' then Got(Arr([]), u[1..])
      else
        var p := ParseItems(t[1..]);
        if p.Fail? then Fail else Got(Arr(p.value), p.rest)
    else if t[0] == '{' then
      var u := SkipSpace(t[1..]);
      if u != "" && u[0] == '}' then Got(Obj([]), u[1..])
      else
        var p := ParseFields(t[1..]);
        if p.Fail? then Fail else Got(Obj(p.value), p.rest)
    else if IsNumChar(t[0]) then ParseNumber(t)
    else ParseLiteral(t)
  }

  function ParseItems(s: string): (p: Parsed<seq<Value<JsString>>>)
    ensures p.Got? ==> |p.rest| < |s|
    decreases |s|, 1
  {
    var v := ParseValue(s);
    if v.Fail? then Fail
    else
      var t := SkipSpace(v.rest);
      if t != "" && t[0] == ',' then
        var p := ParseItems(t[1..]);
        if p.Fail? then Fail else Got([v.value] + p.value, p.rest)
      else if t != "" && t[0] == ']' then Got([v.value], t[1..])
      else Fail
  }

  function ParseField(s: string): (p: Parsed<Field<JsString>>)
    ensures p.Got? ==> |p.rest| < |s|
    decreases |s|, 1
  {
    var t := SkipSpace(s);
    if t == "" || t[0] != '"' then Fail
    else
      var k := ParseChars(t[1..]);
      if k.Fail? then Fail
      else
        var u := SkipSpace(k.rest);
        if u == "" || u[0] != ':' then Fail
        else
          var v := ParseValue(u[1..]);
          if v.Fail? then Fail else Got(Field(k.value, v.value), v.rest)
  }

  function ParseFields(s: string): (p: Parsed<seq<Field<JsString>>>)
    ensures p.Got? ==> |p.rest| < |s|
    decreases |s|, 2
  {
    var f := ParseField(s);
    if f.Fail? then Fail
    else
      var t := SkipSpace(f.rest);
      if t != "" && t[0] == ',' then
        var p := ParseFields(t[1..]);
        if p.Fail? then Fail else Got([f.value] + p.value, p.rest)
      else if t != "" && t[0] == '}' then Got([f.value], t[1..])
      else Fail
  }

  /** `JSON.parse`: None stands for the exception it throws. */
  function Parse(s: string): Option<Value<JsString>> {
    var p := ParseValue(s);
    if p.Got? && SkipSpace(p.rest) == "" then Some(p.value) else None
  }

  // ---------------------------------------------------------------- what survives the trip

  /** Numbers are written as JSON numbers, as Python writes its integers and finite floats. */
  ghost predicate WellFormed(v: Value<PyString>)
    decreases v
  {
    match v
    case Num(lexeme) => ValidNumber(lexeme)
    case Arr(items) => forall i :: 0 <= i < |items| ==> WellFormed(items[i])
    case Obj(fields) => forall i :: 0 <= i < |fields| ==> WellFormed(fields[i].value)
    case _ => true
  }

  /** No NaN anywhere. */
  predicate Finite(v: Value<PyString>)
    decreases v
  {
    match v
    case NotANumber => false
    case Arr(items) => forall i :: 0 <= i < |items| ==> Finite(items[i])
    case Obj(fields) => forall i :: 0 <= i < |fields| ==> Finite(fields[i].value)
    case _ => true
  }

  /** The same value with its strings in UTF-16. */
  function ToJs(v: Value<PyString>): Value<JsString>
    decreases v
  {
    match v
    case Null => Null
    case True => True
    case False => False
    case Num(lexeme) => Num(lexeme)
    case NotANumber => NotANumber
    case Str(s) => Str(Utf16(s))
    case Arr(items) => Arr(ToJsItems(items))
    case Obj(fields) => Obj(ToJsFields(fields))
  }

  function ToJsItems(items: seq<Value<PyString>>): seq<Value<JsString>>
    decreases items
  {
    if items == [] then [] else [ToJs(items[0])] + ToJsItems(items[1..])
  }

  function ToJsFields(fields: seq<Field<PyString>>): seq<Field<JsString>>
    decreases fields
  {
    if fields == [] then [] else [ToJsField(fields[0])] + ToJsFields(fields[1..])
  }

  function ToJsField(f: Field<PyString>): Field<JsString>
    decreases f
  {
    Field(Utf16(f.key), ToJs(f.value))
  }

  // ---------------------------------------------------------------- strings round trip

  lemma HexRoundTrip(d: int)
    requires 0 <= d < 16
    ensures HexValue(Hex(d)) == d
  {
  }

  lemma ParseHex(a: char, b: char, c: char, d: char, rest: string)
    requires IsHex(a) && IsHex(b) && IsHex(c) && IsHex(d)
    ensures ParseChars(['\\', 'u', a, b, c, d] + rest) ==
      Prepend([HexValue(a) * 0x1000 + HexValue(b) * 0x100 + HexValue(c) * 0x10 + HexValue(d)], ParseChars(rest))
  {
    assert (['\\', 'u', a, b, c, d] + rest)[6..] == rest;
  }

  lemma HexDigits(u: CodeUnit)
    ensures u / 0x1000 * 0x1000 + u / 0x100 % 0x10 * 0x100 + u / 0x10 % 0x10 * 0x10 + u % 0x10 == u
  {
    var a, b := u / 0x10, u / 0x100;
    assert u == a * 0x10 + u % 0x10;
    assert a / 0x10 == b && a == b * 0x10 + a % 0x10;
    assert b / 0x10 == u / 0x1000 && b == u / 0x1000 * 0x10 + b % 0x10;
  }

  lemma UnitRoundTrip(u: CodeUnit, rest: string)
    ensures ParseChars(EscapeUnit(u) + rest) == Prepend([u], ParseChars(rest))
  {
    HexDigits(u);
    HexRoundTrip(u / 0x1000);
    HexRoundTrip(u / 0x100 % 0x10);
    HexRoundTrip(u / 0x10 % 0x10);
    HexRoundTrip(u % 0x10);
    ParseHex(Hex(u / 0x1000), Hex(u / 0x100 % 0x10), Hex(u / 0x10 % 0x10), Hex(u % 0x10), rest);
  }

  lemma PrependTwice(a: JsString, b: JsString, p: Parsed<JsString>)
    ensures Prepend(a, Prepend(b, p)) == Prepend(a + b, p)
  {
    if p.Got? {
      assert a + (b + p.value) == (a + b) + p.value;
    }
  }

  lemma LetterRoundTrip(c: CodePoint, e: char, rest: string)
    requires EscapeOne(c) == ['\\', e] && Unescape(e) == c && c < 0x1_0000 && e != 'u'
    ensures ParseChars(EscapeOne(c) + rest) == Prepend([c], ParseChars(rest))
  {
    assert (EscapeOne(c) + rest)[2..] == rest;
  }

  lemma PairRoundTrip(c: CodePoint, rest: string)
    requires c >= 0x1_0000
    ensures ParseChars(EscapeOne(c) + rest) == Prepend(Utf16One(c), ParseChars(rest))
  {
    var hi, lo := Utf16One(c)[0], Utf16One(c)[1];
    assert EscapeOne(c) + rest == EscapeUnit(hi) + (EscapeUnit(lo) + rest);
    UnitRoundTrip(hi, EscapeUnit(lo) + rest);
    UnitRoundTrip(lo, rest);
    PrependTwice([hi], [lo], ParseChars(rest));
    assert [hi] + [lo] == Utf16One(c);
  }

  lemma PlainRoundTrip(c: char, rest: string)
    requires ' ' <= c <= '~' && c != '"' && c != '\\'
    ensures ParseChars([c] + rest) == Prepend(Utf16One(c as int), ParseChars(rest))
  {
    assert ([c] + rest)[1..] == rest;
  }

  lemma CharRoundTrip(c: CodePoint, rest: string)
    ensures ParseChars(EscapeOne(c) + rest) == Prepend(Utf16One(c), ParseChars(rest))
  {
    if c >= 0x1_0000 {
      PairRoundTrip(c, rest);
    } else if |EscapeOne(c)| == 6 {
      UnitRoundTrip(c, rest);
    } else if |EscapeOne(c)| == 2 {
      LetterRoundTrip(c, EscapeOne(c)[1], rest);
    } else {
      PlainRoundTrip(c as char, rest);
    }
  }

  /** Escaping and unescaping is encoding in UTF-16, for every Python string and whatever follows. */
  lemma {:induction false} StringRoundTrip(s: PyString, rest: string)
    ensures ParseChars(Escape(s) + (['"'] + rest)) == Got(Utf16(s), rest)
  {
    if s == [] {
      assert Escape(s) + (['"'] + rest) == ['"'] + rest;
      assert (['"'] + rest)[1..] == rest;
    } else {
      var tail := Escape(s[1..]) + (['"'] + rest);
      assert Escape(s) + (['"'] + rest) == EscapeOne(s[0]) + tail;
      CharRoundTrip(s[0], tail);
      StringRoundTrip(s[1..], rest);
    }
  }

  // ---------------------------------------------------------------- every string of the grammar

  /** One character of a JSON string as it may be written, section 7 of RFC 8259. */
  datatype Piece = Raw(c: char) | Letter(l: char) | Code(a: char, b: char, c: char, d: char)

  const LETTER_VALUES: map<char, CodeUnit> :=
    map['"' := 0x22, '\\' := 0x5C, '/' := 0x2F, 'b' := 0x08, 'f' := 0x0C, 'n' := 0x0A, 'r' := 0x0D, 't' := 0x09]

  const DIGIT_VALUES: map<char, int> :=
    map['0' := 0, '1' := 1, '2' := 2, '3' := 3, '4' := 4, '5' := 5, '6' := 6, '7' := 7, '8' := 8, '9' := 9,
        'a' := 10, 'b' := 11, 'c' := 12, 'd' := 13, 'e' := 14, 'f' := 15,
        'A' := 10, 'B' := 11, 'C' := 12, 'D' := 13, 'E' := 14, 'F' := 15]

  predicate ValidPiece(p: Piece) {
    match p
    case Raw(c) => c != '"' && c != '\\' && c as int >= 0x20
    case Letter(l) => l in LETTER_VALUES
    case Code(a, b, c, d) => a in DIGIT_VALUES && b in DIGIT_VALUES && c in DIGIT_VALUES && d in DIGIT_VALUES
  }

  function PieceText(p: Piece): string {
    match p
    case Raw(c) => [c]
    case Letter(l) => ['\\', l]
    case Code(a, b, c, d) => ['\\', 'u', a, b, c, d]
  }

  function PieceUnits(p: Piece): JsString
    requires ValidPiece(p)
  {
    match p
    case Raw(c) => Utf16([c as int])
    case Letter(l) => [LETTER_VALUES[l]]
    case Code(a, b, c, d) => CodeValue(a, b, c, d)
  }

  function CodeValue(a: char, b: char, c: char, d: char): JsString
    requires a in DIGIT_VALUES && b in DIGIT_VALUES && c in DIGIT_VALUES && d in DIGIT_VALUES
  {
    DigitValue(a);
    DigitValue(b);
    DigitValue(c);
    DigitValue(d);
    [((DIGIT_VALUES[a] * 16 + DIGIT_VALUES[b]) * 16 + DIGIT_VALUES[c]) * 16 + DIGIT_VALUES[d]]
  }

  lemma DigitValue(c: char)
    ensures IsHex(c) <==> c in DIGIT_VALUES
    ensures c in DIGIT_VALUES ==> 0 <= DIGIT_VALUES[c] == HexValue(c) < 16
  {
  }

  lemma LetterValue(l: char)
    ensures Unescape(l) >= 0 <==> l in LETTER_VALUES
    ensures l in LETTER_VALUES ==> LETTER_VALUES[l] == Unescape(l)
  {
  }

  function PiecesText(pieces: seq<Piece>): string {
    if pieces == [] then "" else PieceText(pieces[0]) + PiecesText(pieces[1..])
  }

  function PiecesUnits(pieces: seq<Piece>): JsString
    requires forall p :: p in pieces ==> ValidPiece(p)
  {
    if pieces == [] then [] else PieceUnits(pieces[0]) + PiecesUnits(pieces[1..])
  }

  lemma PieceParsed(p: Piece, rest: string)
    requires ValidPiece(p)
    ensures ParseChars(PieceText(p) + rest) == Prepend(PieceUnits(p), ParseChars(rest))
  {
    hide Unescape, HexValue, LETTER_VALUES, DIGIT_VALUES;
    var s := PieceText(p) + rest;
    match p
    case Raw(c) =>
      var point: CodePoint := c as int;
      assert s[1..] == rest && [point][1..] == [];
      assert Utf16([point]) == Utf16One(point);
    case Letter(l) =>
      LetterValue(l);
      assert s[1] == l && s[2..] == rest;
      NotU(l);
    case Code(a, b, c, d) =>
      DigitValue(a);
      DigitValue(b);
      DigitValue(c);
      DigitValue(d);
      assert s[2] == a && s[3] == b && s[4] == c && s[5] == d && s[6..] == rest;
  }

  lemma NotU(l: char)
    requires l in LETTER_VALUES
    ensures l != 'u'
  {
  }

  /** The parser reads every string of the grammar, however its characters are written. */
  lemma {:induction false} StringAccepted(pieces: seq<Piece>, rest: string)
    requires forall p :: p in pieces ==> ValidPiece(p)
    ensures ParseChars(PiecesText(pieces) + (['"'] + rest)) == Got(PiecesUnits(pieces), rest)
    decreases |pieces|
  {
    if pieces == [] {
      assert PiecesText(pieces) + (['"'] + rest) == ['"'] + rest;
      assert (['"'] + rest)[1..] == rest;
    } else {
      var more := PiecesText(pieces[1..]) + (['"'] + rest);
      assert PiecesText(pieces) + (['"'] + rest) == PieceText(pieces[0]) + more;
      PieceParsed(pieces[0], more);
      StringAccepted(pieces[1..], rest);
    }
  }

  /** And it reads nothing else. */
  lemma {:induction false} OnlyStringsAccepted(s: string) returns (pieces: seq<Piece>)
    requires ParseChars(s).Got?
    ensures forall p :: p in pieces ==> ValidPiece(p)
    ensures s == PiecesText(pieces) + (['"'] + ParseChars(s).rest) && ParseChars(s).value == PiecesUnits(pieces)
    decreases |s|
  {
    if s[0] == '"' {
      pieces := [];
      assert s == ['"'] + s[1..];
      assert PiecesText(pieces) + (['"'] + s[1..]) == ['"'] + s[1..];
    } else {
      var p, tail := FirstPiece(s);
      hide ParseChars, PieceText, PieceUnits, PiecesText, PiecesUnits, ValidPiece;
      var more := OnlyStringsAccepted(tail);
      pieces := [p] + more;
      PiecesFirst(p, more);
      Assoc(PieceText(p), PiecesText(more), ['"'] + ParseChars(s).rest);
    }
  }

  lemma PiecesFirst(p: Piece, more: seq<Piece>)
    requires ValidPiece(p) && forall q :: q in more ==> ValidPiece(q)
    ensures forall q :: q in [p] + more ==> ValidPiece(q)
    ensures PiecesText([p] + more) == PieceText(p) + PiecesText(more)
    ensures PiecesUnits([p] + more) == PieceUnits(p) + PiecesUnits(more)
  {
    assert ([p] + more)[1..] == more;
  }

  lemma FirstPiece(s: string) returns (p: Piece, tail: string)
    requires ParseChars(s).Got? && s[0] != '"'
    ensures ValidPiece(p) && s == PieceText(p) + tail && |tail| < |s|
    ensures ParseChars(s) == Prepend(PieceUnits(p), ParseChars(tail)) && ParseChars(tail).Got?
  {
    hide Unescape, HexValue, LETTER_VALUES, DIGIT_VALUES, PieceUnits;
    if s[0] != '\\' {
      p, tail := Raw(s[0]), s[1..];
    } else if |s| >= 6 && s[1] == 'u' && IsHex(s[2]) && IsHex(s[3]) && IsHex(s[4]) && IsHex(s[5]) {
      p, tail := Code(s[2], s[3], s[4], s[5]), s[6..];
      DigitValue(s[2]);
      DigitValue(s[3]);
      DigitValue(s[4]);
      DigitValue(s[5]);
    } else {
      p, tail := Letter(s[1]), s[2..];
      LetterValue(s[1]);
    }
    assert s == PieceText(p) + tail;
    PieceParsed(p, tail);
  }

  // ---------------------------------------------------------------- every number of the grammar

  /** A number has an optional minus, an integer without a leading zero, and optionally a
      fraction and an exponent, section 6 of RFC 8259. */
  ghost predicate NumberParts(sign: string, whole: string, fraction: string, exponent: string) {
    && (sign == "" || sign == "-")
    && AreDigits(whole) && (whole[0] == '0' ==> |whole| == 1)
    && (fraction == "" || (fraction[0] == '.' && AreDigits(fraction[1..])))
    && (exponent == "" || ((exponent[0] == 'e' || exponent[0] == 'E') && IsExponent(exponent[1..])))
  }

  ghost predicate AreDigits(s: string) { s != "" && forall c :: c in s ==> '0' <= c <= '9' }

  ghost predicate IsExponent(s: string) {
    AreDigits(s) || (s != "" && (s[0] == '+' || s[0] == '-') && AreDigits(s[1..]))
  }

  lemma {:induction false} DigitsThen(digits: string, rest: string)
    requires forall c :: c in digits ==> IsDigit(c)
    requires rest == "" || !IsDigit(rest[0])
    ensures LeadingDigits(digits + rest) == |digits|
  {
    if digits == "" {
      assert digits + rest == rest;
    } else {
      assert (digits + rest)[1..] == digits[1..] + rest;
      DigitsThen(digits[1..], rest);
    }
  }

  lemma {:induction false} TakenDigits(s: string)
    ensures forall c :: c in s[..LeadingDigits(s)] ==> '0' <= c <= '9'
    ensures LeadingDigits(s) < |s| ==> !IsDigit(s[LeadingDigits(s)])
  {
    if s != "" && IsDigit(s[0]) {
      TakenDigits(s[1..]);
      var n := LeadingDigits(s[1..]);
      assert s[..n + 1] == [s[0]] + s[1..][..n];
    }
  }

  lemma ExponentIs(s: string)
    ensures ValidExponent(s) <==> s == "" || ((s[0] == 'e' || s[0] == 'E') && IsExponent(s[1..]))
  {
    if s != "" && (s[0] == 'e' || s[0] == 'E') {
      var signed := |s| > 1 && (s[1] == '+' || s[1] == '-');
      var t := if signed then s[2..] else s[1..];
      assert signed ==> s[1..][0] == s[1] && s[1..][1..] == t;
      AllTaken(t);
      if AreDigits(s[1..]) {
        assert s[1..][0] in s[1..];
      }
    }
  }

  lemma AllTaken(s: string)
    ensures s != "" && LeadingDigits(s) == |s| <==> AreDigits(s)
  {
    TakenDigits(s);
    if AreDigits(s) {
      DigitsThen(s, "");
      assert s + "" == s;
    } else if LeadingDigits(s) == |s| {
      assert s[..|s|] == s;
    }
  }

  lemma FractionIs(s: string) returns (fraction: string, exponent: string)
    requires ValidFraction(s)
    ensures s == fraction + exponent
    ensures fraction == "" || (fraction[0] == '.' && AreDigits(fraction[1..]))
    ensures exponent == "" || ((exponent[0] == 'e' || exponent[0] == 'E') && IsExponent(exponent[1..]))
  {
    if s != "" && s[0] == '.' {
      var n := LeadingDigits(s[1..]);
      fraction, exponent := s[..1 + n], s[1 + n..];
      TakenDigits(s[1..]);
      assert fraction[1..] == s[1..][..n];
      ExponentIs(exponent);
    } else {
      fraction, exponent := "", s;
      ExponentIs(s);
    }
  }

  lemma FractionAccepted(fraction: string, exponent: string)
    requires fraction == "" || (fraction[0] == '.' && AreDigits(fraction[1..]))
    requires exponent == "" || ((exponent[0] == 'e' || exponent[0] == 'E') && IsExponent(exponent[1..]))
    ensures ValidFraction(fraction + exponent)
  {
    ExponentIs(exponent);
    if fraction == "" {
      assert fraction + exponent == exponent;
    } else {
      var s := fraction + exponent;
      assert s[1..] == fraction[1..] + exponent;
      DigitsThen(fraction[1..], exponent);
      assert s[1 + |fraction[1..]|..] == exponent;
    }
  }

  /** Every number of the grammar is one for the parser, */
  lemma NumberAccepted(sign: string, whole: string, fraction: string, exponent: string)
    requires NumberParts(sign, whole, fraction, exponent)
    ensures ValidNumber(sign + whole + (fraction + exponent))
  {
    var rest := fraction + exponent;
    var s := sign + whole + rest;
    FractionAccepted(fraction, exponent);
    NumberChars(sign, whole, fraction, exponent);
    assert whole[0] in whole;
    assert s[|sign|..] == whole + rest;
    DigitsThen(whole, rest);
    assert (whole + rest)[|whole|..] == rest;
  }

  lemma NumberChars(sign: string, whole: string, fraction: string, exponent: string)
    requires NumberParts(sign, whole, fraction, exponent)
    ensures forall c :: c in sign + whole + (fraction + exponent) ==> IsNumChar(c)
  {
    forall c | c in fraction ensures IsNumChar(c) {
      assert fraction == [fraction[0]] + fraction[1..];
    }
    forall c | c in exponent ensures IsNumChar(c) {
      var e := exponent[1..];
      assert exponent == [exponent[0]] + e;
      if c in e && !AreDigits(e) {
        assert e == [e[0]] + e[1..];
      }
    }
  }

  lemma Unsigned(t: string) returns (whole: string, fraction: string, exponent: string)
    requires var n := LeadingDigits(t); n > 0 && (t[0] == '0' ==> n == 1) && ValidFraction(t[n..])
    ensures NumberParts("", whole, fraction, exponent) && t == whole + (fraction + exponent)
  {
    hide ValidFraction, LeadingDigits, IsExponent;
    var n := LeadingDigits(t);
    whole := t[..n];
    TakenDigits(t);
    fraction, exponent := FractionIs(t[n..]);
  }

  /** and nothing else is. */
  lemma OnlyNumbersAccepted(s: string) returns (sign: string, whole: string, fraction: string, exponent: string)
    requires ValidNumber(s)
    ensures NumberParts(sign, whole, fraction, exponent) && s == sign + whole + (fraction + exponent)
  {
    hide ValidFraction, LeadingDigits, AreDigits, IsExponent, IsNumChar;
    sign := s[..if s[0] == '-' then 1 else 0];
    whole, fraction, exponent := Unsigned(s[|sign|..]);
    Assoc(sign, whole, fraction + exponent);
    assert s == sign + s[|sign|..];
  }

  // ---------------------------------------------------------------- values round trip

  /** A number cannot run on into what follows it. */
  predicate Ends(rest: string) { rest == "" || !IsNumChar(rest[0]) }

  lemma {:induction false} RunLengthIs(s: string, rest: string)
    requires (forall c :: c in s ==> IsNumChar(c)) && Ends(rest)
    ensures RunLength(s + rest) == |s|
  {
    if s == "" {
      assert s + rest == rest;
    } else {
      assert (s + rest)[1..] == s[1..] + rest;
      RunLengthIs(s[1..], rest);
    }
  }

  lemma Starts(v: Value<PyString>)
    requires WellFormed(v)
    ensures Dumps(v) != "" && !IsSpace(Dumps(v)[0]) && Dumps(v)[0] != ']'
  {
  }

  lemma SkipNothing(s: string)
    requires s != "" && !IsSpace(s[0])
    ensures SkipSpace(s) == s && SkipSpace([' '] + s) == s
  {
    assert ([' '] + s)[1..] == s;
  }

  lemma ParseArr(body: string)
    requires body != "" && !IsSpace(body[0]) && body[0] != ']'
    ensures var p := ParseItems(body); ParseValue(['['] + body) == if p.Fail? then Fail else Got(Arr(p.value), p.rest)
  {
    assert (['['] + body)[1..] == body;
  }

  lemma ParseObj(body: string)
    requires body != "" && body[0] == '"'
    ensures var p := ParseFields(body); ParseValue(['{'] + body) == if p.Fail? then Fail else Got(Obj(p.value), p.rest)
  {
    assert (['{'] + body)[1..] == body;
  }

  lemma ParseEmpty(rest: string)
    ensures ParseValue(['[', ']'] + rest) == Got(Arr([]), rest)
    ensures ParseValue(['{', '}'] + rest) == Got(Obj([]), rest)
  {
    assert (['[', ']'] + rest)[1..] == [']'] + rest && ([']'] + rest)[1..] == rest;
    assert (['{', '}'] + rest)[1..] == ['}'] + rest && (['}'] + rest)[1..] == rest;
  }

  lemma ParseStr(x: PyString, rest: string)
    ensures ParseValue(Quote(x) + rest) == Got(Str(Utf16(x)), rest)
  {
    StringRoundTrip(x, rest);
    assert (Quote(x) + rest)[1..] == Escape(x) + (['"'] + rest);
  }

  lemma ParseNum(lexeme: string, rest: string)
    requires ValidNumber(lexeme) && Ends(rest)
    ensures ParseValue(lexeme + rest) == Got(Num(lexeme), rest)
  {
    RunLengthIs(lexeme, rest);
    assert (lexeme + rest)[..|lexeme|] == lexeme && (lexeme + rest)[|lexeme|..] == rest;
  }

  lemma ParseWord(v: Value<PyString>, rest: string)
    requires v.Null? || v.True? || v.False? || v.NotANumber?
    ensures ParseValue(Dumps(v) + rest) == if v.NotANumber? then Fail else Got(ToJs(v), rest)
  {
    var s := Dumps(v) + rest;
    assert s[|Dumps(v)|..] == rest;
  }

  /** One step of the item loop of the parser. */
  lemma NextItem(s: string, v: Value<JsString>, more: string)
    requires ParseValue(s) == Got(v, [',', ' '] + more)
    requires more != "" && !IsSpace(more[0])
    ensures var p := ParseItems(more); ParseItems(s) == if p.Fail? then Fail else Got([v] + p.value, p.rest)
  {
    assert ([',', ' '] + more)[1..] == [' '] + more;
    SkipNothing(more);
    assert ParseValue([' '] + more) == ParseValue(more);
    assert ParseItems([' '] + more) == ParseItems(more);
  }

  lemma LastItem(s: string, v: Value<JsString>, rest: string)
    requires ParseValue(s) == Got(v, [']'] + rest)
    ensures ParseItems(s) == Got([v], rest)
  {
    assert ([']'] + rest)[1..] == rest;
  }

  lemma NextField(s: string, f: Field<JsString>, more: string)
    requires ParseField(s) == Got(f, [',', ' '] + more)
    requires more != "" && !IsSpace(more[0])
    ensures var p := ParseFields(more); ParseFields(s) == if p.Fail? then Fail else Got([f] + p.value, p.rest)
  {
    assert ([',', ' '] + more)[1..] == [' '] + more;
    SkipNothing(more);
    assert ParseField([' '] + more) == ParseField(more);
    assert ParseFields([' '] + more) == ParseFields(more);
  }

  lemma LastField(s: string, f: Field<JsString>, rest: string)
    requires ParseField(s) == Got(f, ['}'] + rest)
    ensures ParseFields(s) == Got([f], rest)
  {
    assert (['}'] + rest)[1..] == rest;
  }

  lemma SpaceBefore(value: string)
    requires value != "" && !IsSpace(value[0])
    ensures ParseValue([' '] + value) == ParseValue(value)
  {
    SkipNothing(value);
  }

  /** What follows a parsed key: a colon and the value. */
  lemma AfterKey(s: string, k: JsString, value: string)
    requires s != "" && s[0] == '"' && ParseChars(s[1..]) == Got(k, [':', ' '] + value)
    requires value != "" && !IsSpace(value[0])
    ensures var p := ParseValue(value); ParseField(s) == if p.Fail? then Fail else Got(Field(k, p.value), p.rest)
  {
    assert ([':', ' '] + value)[1..] == [' '] + value;
    SpaceBefore(value);
  }

  lemma ParseKey(key: PyString, value: string)
    requires value != "" && !IsSpace(value[0])
    ensures var p := ParseValue(value);
      ParseField(Quote(key) + ([':', ' '] + value)) == if p.Fail? then Fail else Got(Field(Utf16(key), p.value), p.rest)
  {
    var after := [':', ' '] + value;
    StringRoundTrip(key, after);
    assert (Quote(key) + after)[1..] == Escape(key) + (['"'] + after);
    AfterKey(Quote(key) + after, Utf16(key), value);
  }

  /** The parser inverts the printer on every value without NaN and rejects every value with one. */
  lemma {:induction false} ValueRoundTrip(v: Value<PyString>, rest: string)
    requires WellFormed(v) && Ends(rest)
    ensures ParseValue(Dumps(v) + rest) == if Finite(v) then Got(ToJs(v), rest) else Fail
    decreases v, 0
  {
    match v
    case Num(lexeme) => ParseNum(lexeme, rest);
    case Str(x) => ParseStr(x, rest);
    case Arr(items) => ArrRoundTrip(items, rest);
    case Obj(fields) => ObjRoundTrip(fields, rest);
    case _ => ParseWord(v, rest);
  }

  lemma {:induction false} ArrRoundTrip(items: seq<Value<PyString>>, rest: string)
    requires forall i :: 0 <= i < |items| ==> WellFormed(items[i])
    ensures ParseValue(Dumps(Arr(items)) + rest) ==
      if FiniteItems(items) then Got(Arr(ToJsItems(items)), rest) else Fail
    decreases items, 1
  {
    if items == [] {
      ParseEmpty(rest);
      assert Dumps(Arr(items)) == ['[', ']'];
    } else {
      var body := DumpItems(items) + ([']'] + rest);
      assert Dumps(Arr(items)) + rest == ['['] + body;
      ItemsRoundTrip(items, rest);
      ItemsStart(items, rest);
      ParseArr(body);
    }
  }

  lemma {:induction false} ObjRoundTrip(fields: seq<Field<PyString>>, rest: string)
    requires forall i :: 0 <= i < |fields| ==> WellFormed(fields[i].value)
    ensures ParseValue(Dumps(Obj(fields)) + rest) ==
      if FiniteFields(fields) then Got(Obj(ToJsFields(fields)), rest) else Fail
    decreases fields, 1
  {
    if fields == [] {
      ParseEmpty(rest);
      assert Dumps(Obj(fields)) == ['{', '}'];
    } else {
      var body := DumpFields(fields) + (['}'] + rest);
      assert Dumps(Obj(fields)) + rest == ['{'] + body;
      FieldsRoundTrip(fields, rest);
      FieldsStart(fields, rest);
      ParseObj(body);
    }
  }

  lemma ItemsStart(items: seq<Value<PyString>>, rest: string)
    requires items != [] && WellFormed(items[0])
    ensures var s := DumpItems(items) + ([']'] + rest); s != "" && !IsSpace(s[0]) && s[0] != ']'
  {
    Starts(items[0]);
  }

  lemma FieldsStart(fields: seq<Field<PyString>>, rest: string)
    requires fields != []
    ensures var s := DumpFields(fields) + (['}'] + rest); s != "" && s[0] == '"'
  {
  }

  predicate FiniteItems(items: seq<Value<PyString>>) { forall i :: 0 <= i < |items| ==> Finite(items[i]) }

  predicate FiniteFields(fields: seq<Field<PyString>>) { forall i :: 0 <= i < |fields| ==> Finite(fields[i].value) }

  lemma FiniteSplit(items: seq<Value<PyString>>)
    requires items != []
    ensures FiniteItems(items) <==> Finite(items[0]) && FiniteItems(items[1..])
  {
    assert items == [items[0]] + items[1..];
  }

  lemma FiniteFieldsSplit(fields: seq<Field<PyString>>)
    requires fields != []
    ensures FiniteFields(fields) <==> Finite(fields[0].value) && FiniteFields(fields[1..])
  {
    assert fields == [fields[0]] + fields[1..];
  }

  /** Concatenation regrouped around a separator. */
  lemma Regroup(a: string, sep: string, b: string, c: string)
    ensures (a + (sep + b)) + c == a + (sep + (b + c))
  {
  }

  lemma ItemsText(items: seq<Value<PyString>>, rest: string)
    requires |items| > 1
    ensures DumpItems(items) + ([']'] + rest) ==
      Dumps(items[0]) + ([',', ' '] + (DumpItems(items[1..]) + ([']'] + rest)))
  {
    Regroup(Dumps(items[0]), [',', ' '], DumpItems(items[1..]), [']'] + rest);
  }

  lemma FieldsText(fields: seq<Field<PyString>>, rest: string)
    requires |fields| > 1
    ensures DumpFields(fields) + (['}'] + rest) ==
      DumpField(fields[0]) + ([',', ' '] + (DumpFields(fields[1..]) + (['}'] + rest)))
  {
    Regroup(DumpField(fields[0]), [',', ' '], DumpFields(fields[1..]), ['}'] + rest);
  }

  lemma {:induction false} ItemsRoundTrip(items: seq<Value<PyString>>, rest: string)
    requires items != [] && forall i :: 0 <= i < |items| ==> WellFormed(items[i])
    ensures ParseItems(DumpItems(items) + ([']'] + rest)) ==
      if FiniteItems(items) then Got(ToJsItems(items), rest) else Fail
    decreases items, 0
  {
    var s := DumpItems(items) + ([']'] + rest);
    if |items| == 1 {
      ValueRoundTrip(items[0], [']'] + rest);
      if Finite(items[0]) {
        LastItem(s, ToJs(items[0]), rest);
      }
      assert ToJsItems(items) == [ToJs(items[0])];
    } else {
      var tail := items[1..];
      var more := DumpItems(tail) + ([']'] + rest);
      ItemsText(items, rest);
      ValueRoundTrip(items[0], [',', ' '] + more);
      ItemsStart(tail, rest);
      ItemsRoundTrip(tail, rest);
      if Finite(items[0]) {
        NextItem(s, ToJs(items[0]), more);
      }
      FiniteSplit(items);
    }
  }

  lemma {:induction false} FieldsRoundTrip(fields: seq<Field<PyString>>, rest: string)
    requires fields != [] && forall i :: 0 <= i < |fields| ==> WellFormed(fields[i].value)
    ensures ParseFields(DumpFields(fields) + (['}'] + rest)) ==
      if FiniteFields(fields) then Got(ToJsFields(fields), rest) else Fail
    decreases fields, 0
  {
    var s := DumpFields(fields) + (['}'] + rest);
    var f := fields[0];
    if |fields| == 1 {
      FieldRoundTrip(f, ['}'] + rest);
      if Finite(f.value) {
        LastField(s, ToJsField(f), rest);
      }
      assert ToJsFields(fields) == [ToJsField(f)];
    } else {
      var tail := fields[1..];
      var more := DumpFields(tail) + (['}'] + rest);
      FieldsText(fields, rest);
      FieldRoundTrip(f, [',', ' '] + more);
      FieldsStart(tail, rest);
      FieldsRoundTrip(tail, rest);
      if Finite(f.value) {
        NextField(s, ToJsField(f), more);
      }
      FiniteFieldsSplit(fields);
    }
  }

  lemma {:induction false} FieldRoundTrip(f: Field<PyString>, rest: string)
    requires WellFormed(f.value) && Ends(rest)
    ensures ParseField(DumpField(f) + rest) == if Finite(f.value) then Got(ToJsField(f), rest) else Fail
    decreases f, 0
  {
    var value := Dumps(f.value) + rest;
    Starts(f.value);
    assert DumpField(f) + rest == Quote(f.key) + ([':', ' '] + value);
    ParseKey(f.key, value);
    ValueRoundTrip(f.value, rest);
  }

  /** `JSON.parse(json.dumps(v))` is `v` in UTF-16 exactly when `v` holds no NaN; otherwise it throws. */
  lemma DumpsParse(v: Value<PyString>)
    requires WellFormed(v)
    ensures Parse(Dumps(v)) == if Finite(v) then Some(ToJs(v)) else None
  {
    ValueRoundTrip(v, "");
    assert Dumps(v) + "" == Dumps(v);
  }

  // ---------------------------------------------------------------- the printed text

  predicate Printable(s: string) { forall c :: c in s ==> ' ' <= c <= '~' }

  lemma EscapeOnePrintable(c: CodePoint)
    ensures Printable(EscapeOne(c))
  {
    if 0x20 <= c <= 0x7E {
    } else if c < 0x1_0000 {
      UnitPrintable(c);
    } else {
      UnitPrintable(Utf16One(c)[0]);
      UnitPrintable(Utf16One(c)[1]);
    }
  }

  lemma UnitPrintable(u: CodeUnit)
    ensures Printable(EscapeUnit(u))
  {
    assert forall d :: 0 <= d < 16 ==> ' ' <= Hex(d) <= '~';
  }

  lemma {:induction false} EscapePrintable(s: PyString)
    ensures Printable(Escape(s))
  {
    if s != [] {
      EscapeOnePrintable(s[0]);
      EscapePrintable(s[1..]);
    }
  }

  /** Printed text is printable ASCII: it holds no line break, whatever the strings in it. */
  lemma {:induction false} DumpsPrintable(v: Value<PyString>)
    requires WellFormed(v)
    ensures Printable(Dumps(v))
    decreases v, 0
  {
    match v
    case Str(s) => EscapePrintable(s);
    case Arr(items) => ItemsPrintable(items);
    case Obj(fields) => FieldsPrintable(fields);
    case _ =>
  }

  lemma {:induction false} ItemsPrintable(items: seq<Value<PyString>>)
    requires forall i :: 0 <= i < |items| ==> WellFormed(items[i])
    ensures Printable(DumpItems(items))
    decreases items, 0
  {
    if items != [] {
      DumpsPrintable(items[0]);
      ItemsPrintable(items[1..]);
    }
  }

  lemma {:induction false} FieldPrintable(f: Field<PyString>)
    requires WellFormed(f.value)
    ensures Printable(DumpField(f))
    decreases f, 0
  {
    EscapePrintable(f.key);
    DumpsPrintable(f.value);
  }

  lemma {:induction false} FieldsPrintable(fields: seq<Field<PyString>>)
    requires forall i :: 0 <= i < |fields| ==> WellFormed(fields[i].value)
    ensures Printable(DumpFields(fields))
    decreases fields, 0
  {
    if fields != [] {
      FieldPrintable(fields[0]);
      FieldsPrintable(fields[1..]);
    }
  }
}
