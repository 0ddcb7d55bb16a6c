/**
  json.dumps of every value without floats, and its round trip: whatever follows it, the text
  reads back as the value.  Every writing function takes the text that follows.
 */
module JsonDump {
  import opened Wrappers
  import opened Text
  import opened Decimal
  import opened Json
  import opened JsonText

  /** No float at any depth. */
  predicate Simple(v: Json) {
    match v
    case Float(_) => false
    case Arr(items) => forall i :: 0 <= i < |items| ==> Simple(items[i])
    case Obj(fields) => forall i :: 0 <= i < |fields| ==> Simple(fields[i].value)
    case _ => true
  }

  // ---------------------------------------------------------------- texts

  function HexDigit(d: nat): (c: char)
    requires d < 16
    ensures IsHex(c) && HexValue(c) == d
  {
    if d < 10 then '0' + d as char else 'a' + (d - 10) as char
  }

  /** \uXXXX */
  function UnitEscape(n: nat): (t: string)
    requires n < 0x10000
    ensures |t| == 6
  {
    ['\\', 'u', HexDigit(n / 0x1000), HexDigit(n / 0x100 % 0x10), HexDigit(n / 0x10 % 0x10), HexDigit(n % 0x10)]
  }

  /** The letter of a two-character escape. */
  function ShortEscape(c: char): Option<char> {
    if c == '"' || c == '\\' then Some(c)
    else if c == '\n' then Some('n')
    else if c == '\r' then Some('r')
    else if c == '\t' then Some('t')
    else if c == '\U{0008}' then Some('b')
    else if c == '\U{000C}' then Some('f')
    else None
  }

  function HighHalf(n: nat): (high: nat)
    requires 0x10000 <= n < 0x110000
    ensures high < 0x10000 && HighSurrogate(high)
  {
    0xD800 + (n - 0x10000) / 0x400
  }

  function LowHalf(n: nat): (low: nat)
    requires 0x10000 <= n < 0x110000
    ensures low < 0x10000 && LowSurrogate(low)
  {
    0xDC00 + (n - 0x10000) % 0x400
  }

  /** Above 0xFFFF a surrogate pair. */
  function LongEscape(n: nat): (t: string)
    requires n < 0x110000
    ensures t != ""
  {
    if n < 0x10000 then UnitEscape(n) else UnitEscape(HighHalf(n)) + UnitEscape(LowHalf(n))
  }

  /** Everything outside printable ASCII is escaped. */
  function EscapeChar(c: char): (t: string)
    ensures t != ""
  {
    if ShortEscape(c).Some? then ['\\', ShortEscape(c).value]
    else if ' ' <= c <= '~' then [c]
    else LongEscape(c as int)
  }

  function Escaped(s: string): string {
    if s == "" then "" else EscapeChar(s[0]) + Escaped(s[1..])
  }

  function Quoted(s: string, rest: string): string {
    "\"" + (Escaped(s) + ("\"" + rest))
  }

  lemma HexDigitsSum(n: nat)
    requires n < 0x10000
    ensures n / 0x1000 * 0x1000 + n / 0x100 % 0x10 * 0x100 + n / 0x10 % 0x10 * 0x10 + n % 0x10 == n
  {
    assert n / 0x100 == n / 0x10 / 0x10 && n / 0x1000 == n / 0x100 / 0x10;
  }

  lemma UnitReadsBack(n: nat, rest: string)
    requires n < 0x10000
    ensures (UnitEscape(n) + rest)[..2] == "\\u" && Hex4((UnitEscape(n) + rest)[2..]) == Some(n)
    ensures (UnitEscape(n) + rest)[6..] == rest
  {
    var t := (UnitEscape(n) + rest)[2..];
    assert t[0] == HexDigit(n / 0x1000) && t[1] == HexDigit(n / 0x100 % 0x10);
    assert t[2] == HexDigit(n / 0x10 % 0x10) && t[3] == HexDigit(n % 0x10);
    HexDigitsSum(n);
  }

  /** One \uXXXX that is no surrogate. */
  lemma BasicEscapeReadsBack(py: Python, n: nat, rest: string)
    requires n < 0x10000 && !HighSurrogate(n) && !LowSurrogate(n)
    ensures ReadEscape(py, (UnitEscape(n) + rest)[1..]) == Parsed(n as char, rest)
  {
    var t := UnitEscape(n) + rest;
    UnitReadsBack(n, rest);
    assert t[1..][0] == t[..2][1] == 'u' && t[1..][1..] == t[2..] && t[1..][5..] == t[6..];
  }

  lemma UnitIsPairable(low: nat, rest: string)
    requires low < 0x10000 && LowSurrogate(low)
    ensures PairedWith(UnitEscape(low) + rest) == Some(low)
  {
    var t := UnitEscape(low) + rest;
    UnitReadsBack(low, rest);
    assert t[0] == t[..2][0] == '\\' && t[1] == t[..2][1] == 'u';
  }

  /** A surrogate pair. */
  lemma PairReadsBack(py: Python, high: nat, low: nat, rest: string)
    requires high < 0x10000 && low < 0x10000 && HighSurrogate(high) && LowSurrogate(low)
    ensures ReadEscape(py, (UnitEscape(high) + (UnitEscape(low) + rest))[1..])
            == Parsed((0x10000 + (high - 0xD800) * 0x400 + (low - 0xDC00)) as char, rest)
  {
    var second := UnitEscape(low) + rest;
    var t := UnitEscape(high) + second;
    UnitReadsBack(high, second);
    UnitReadsBack(low, rest);
    UnitIsPairable(low, rest);
    assert t[1..][0] == t[..2][1] == 'u' && t[1..][1..] == t[2..] && t[1..][5..] == t[6..] == second;
    assert t[1..][11..] == second[6..] == rest;
  }

  lemma ShortEscapeReadsBack(py: Python, c: char, t: string)
    requires ShortEscape(c).Some?
    ensures ReadEscape(py, [ShortEscape(c).value] + t) == Parsed(c, t)
  {
    assert ([ShortEscape(c).value] + t)[1..] == t;
  }

  lemma WideEscapeReadsBack(py: Python, n: nat, t: string)
    requires 0x10000 <= n < 0x110000
    ensures ReadEscape(py, (LongEscape(n) + t)[1..]) == Parsed(n as char, t)
  {
    PairReadsBack(py, HighHalf(n), LowHalf(n), t);
    assert LongEscape(n) + t == UnitEscape(HighHalf(n)) + (UnitEscape(LowHalf(n)) + t);
    assert 0x10000 + (HighHalf(n) - 0xD800) * 0x400 + (LowHalf(n) - 0xDC00) == n;
  }

  lemma LongEscapeReadsBack(py: Python, c: char, t: string)
    ensures LongEscape(c as int)[0] == '\\' && ReadEscape(py, (LongEscape(c as int) + t)[1..]) == Parsed(c, t)
  {
    if c as int < 0x10000 {
      BasicEscapeReadsBack(py, c as int, t);
    } else {
      WideEscapeReadsBack(py, c as int, t);
    }
  }

  /** A character that is not itself: its escape reads back, whatever follows. */
  lemma EscapeReadsBack(py: Python, c: char, t: string)
    requires ShortEscape(c).Some? || !(' ' <= c <= '~')
    ensures (EscapeChar(c) + t)[0] == '\\' && ReadEscape(py, (EscapeChar(c) + t)[1..]) == Parsed(c, t)
  {
    if ShortEscape(c).Some? {
      ShortEscapeReadsBack(py, c, t);
      assert (EscapeChar(c) + t)[1..] == [ShortEscape(c).value] + t;
    } else {
      LongEscapeReadsBack(py, c, t);
    }
  }

  lemma BodyAfterEscape(py: Python, u: string, c: char, t: string)
    requires u != "" && u[0] == '\\' && ReadEscape(py, u[1..]) == Parsed(c, t) && ReadBody(py, t).Parsed?
    ensures ReadBody(py, u) == Parsed([c] + ReadBody(py, t).value, ReadBody(py, t).rest)
  {
  }

  /** One character, whatever follows. */
  lemma CharReadsBack(py: Python, c: char, t: string)
    requires ReadBody(py, t).Parsed?
    ensures ReadBody(py, EscapeChar(c) + t) == Parsed([c] + ReadBody(py, t).value, ReadBody(py, t).rest)
  {
    if ShortEscape(c).None? && ' ' <= c <= '~' {
      assert ([c] + t)[1..] == t;
    } else {
      EscapeReadsBack(py, c, t);
      BodyAfterEscape(py, EscapeChar(c) + t, c, t);
    }
  }

  lemma Regroup(a: string, b: string, c: string)
    ensures (a + b) + c == a + (b + c)
  {
  }

  lemma HeadAndTail(s: string)
    requires s != ""
    ensures [s[0]] + s[1..] == s
  {
  }

  lemma EscapedText(s: string, t: string)
    requires s != ""
    ensures Escaped(s) + t == EscapeChar(s[0]) + (Escaped(s[1..]) + t)
  {
    var head, tail := EscapeChar(s[0]), Escaped(s[1..]);
    assert Escaped(s) == head + tail;
    Regroup(head, tail, t);
  }

  /** Any text at all reads back from its quoted form. */
  lemma {:induction false} EscapedReadsBack(py: Python, s: string, rest: string)
    ensures ReadBody(py, Escaped(s) + ("\"" + rest)) == Parsed(s, rest)
    decreases |s|
  {
    if s == "" {
      assert Escaped(s) + ("\"" + rest) == "\"" + rest && ("\"" + rest)[1..] == rest;
    } else {
      HeadAndTail(s);
      EscapedText(s, "\"" + rest);
      EscapedReadsBack(py, s[1..], rest);
      CharReadsBack(py, s[0], Escaped(s[1..]) + ("\"" + rest));
    }
  }

  lemma QuotedReadsBack(py: Python, s: string, rest: string)
    ensures ReadValue(py, Quoted(s, rest)) == Parsed(Str(s), rest)
  {
    assert Quoted(s, rest)[1..] == Escaped(s) + ("\"" + rest);
    EscapedReadsBack(py, s, rest);
  }

  // ---------------------------------------------------------------- counts

  /** What may follow a number: nothing that would make it longer. */
  predicate EndsNumber(rest: string) {
    rest == "" || (!IsDigit(rest[0]) && rest[0] !in ".eE")
  }

  lemma {:induction false} RunOfDigits(s: string, rest: string)
    requires (forall i :: 0 <= i < |s| ==> IsDigit(s[i])) && EndsNumber(rest)
    ensures DigitRun(s + rest) == |s|
    decreases |s|
  {
    if s == "" {
      assert s + rest == rest;
    } else {
      assert (s + rest)[1..] == s[1..] + rest;
      RunOfDigits(s[1..], rest);
    }
  }

  lemma {:induction false} NoLeadingZero(n: nat)
    ensures PrintNat(n)[0] == '0' <==> n == 0
    ensures n == 0 ==> |PrintNat(n)| == 1
    decreases n
  {
    if n >= 10 {
      NoLeadingZero(n / 10);
      assert PrintNat(n)[0] == PrintNat(n / 10)[0];
    }
  }

  lemma NatIsANumber(py: Python, n: nat, rest: string)
    requires EndsNumber(rest)
    ensures ReadNumber(py, PrintNat(n) + rest) == Parsed(Int(n), rest)
  {
    var s := PrintNat(n);
    var t := s + rest;
    PrintParse(n);
    NoLeadingZero(n);
    RunOfDigits(s, rest);
    assert IsDigit(t[0]) && t[0] == s[0] && t[0..] == t;
    assert t[..|s|] == s && t[|s|..] == rest;
    assert FractionRun(rest) == 0 && ExponentRun(rest) == 0;
  }

  lemma ScalarReads(py: Python, t: string)
    requires t != "" && t[0] != '"' && t[0] != '{' && t[0] != '['
    ensures ReadValue(py, t) == if ReadLiteral(py, t).Parsed? then ReadLiteral(py, t) else ReadNumber(py, t)
  {
  }

  lemma DigitStartsNumber(py: Python, t: string)
    requires t != "" && IsDigit(t[0])
    ensures ReadValue(py, t) == ReadNumber(py, t)
  {
    NoLiteral(py, t);
    ScalarReads(py, t);
  }

  lemma DifferAt(w: string, t: string, i: nat)
    requires i < |w| && i < |t| && w[i] != t[i]
    ensures !(w <= t)
  {
  }

  /** A number is none of the literals. */
  lemma NoLiteral(py: Python, t: string)
    requires t != "" && (IsDigit(t[0]) || (t[0] == '-' && |t| >= 2 && IsDigit(t[1])))
    ensures ReadLiteral(py, t).Failed?
  {
    DifferAt("null", t, 0);
    DifferAt("true", t, 0);
    DifferAt("false", t, 0);
    DifferAt("NaN", t, 0);
    DifferAt("Infinity", t, 0);
    DifferAt("-Infinity", t, if t[0] == '-' then 1 else 0);
  }

  lemma NatReadsBack(py: Python, n: nat, rest: string)
    requires EndsNumber(rest)
    ensures ReadValue(py, PrintNat(n) + rest) == Parsed(Int(n), rest)
  {
    PrintParse(n);
    NatIsANumber(py, n, rest);
    assert (PrintNat(n) + rest)[0] == PrintNat(n)[0];
    DigitStartsNumber(py, PrintNat(n) + rest);
  }

  lemma MinusNumber(py: Python, u: string, n: int, rest: string)
    requires u != "" && IsDigit(u[0]) && ReadNumber(py, u) == Parsed(Int(n), rest)
    ensures ReadNumber(py, "-" + u) == Parsed(Int(0 - n), rest)
  {
    assert ("-" + u)[1..] == u && u[0..] == u;
  }

  /** A minus sign before a number: not "-Infinity", and the number negated. */
  lemma MinusReads(py: Python, t: string)
    requires |t| >= 2 && t[0] == '-' && IsDigit(t[1])
    ensures ReadValue(py, t) == ReadNumber(py, t)
  {
    NoLiteral(py, t);
    ScalarReads(py, t);
  }

  lemma NegativeReadsBack(py: Python, m: nat, rest: string)
    requires EndsNumber(rest)
    ensures ReadValue(py, "-" + (PrintNat(m) + rest)) == Parsed(Int(0 - m), rest)
  {
    var u := PrintNat(m) + rest;
    PrintParse(m);
    NatIsANumber(py, m, rest);
    assert u[0] == PrintNat(m)[0] && ("-" + u)[1] == u[0];
    MinusNumber(py, u, m, rest);
    MinusReads(py, "-" + u);
  }

  lemma IntReadsBack(py: Python, n: int, rest: string)
    requires EndsNumber(rest)
    ensures ReadValue(py, PrintInt(n) + rest) == Parsed(Int(n), rest)
  {
    if n >= 0 {
      NatReadsBack(py, n, rest);
    } else {
      var m := -n;
      NegativeReadsBack(py, m, rest);
      Regroup("-", PrintNat(m), rest);
      assert PrintInt(n) + rest == "-" + (PrintNat(m) + rest);
    }
  }

  /** true, false and null, whatever follows. */
  lemma LiteralReads(py: Python, word: string, value: Json, rest: string)
    requires (word == "null" && value == Null) || (word == "true" && value == Bool(true))
             || (word == "false" && value == Bool(false))
    ensures ReadValue(py, word + rest) == Parsed(value, rest)
  {
    var t := word + rest;
    assert t[..|word|] == word && t[|word|..] == rest && t[0] == word[0];
    assert word <= t;
  }

  // ---------------------------------------------------------------- objects

  function Dumps(v: Json, rest: string): string
    requires Simple(v)
    decreases v, 0
  {
    match v
    case Str(s) => Quoted(s, rest)
    case Int(n) => PrintInt(n) + rest
    case Obj(fields) => if fields == [] then "{" + ("}" + rest) else "{" + DumpsFields(fields, rest)
    case Arr(items) => if items == [] then "[" + ("]" + rest) else "[" + DumpsItems(items, rest)
    case Bool(b) => if b then "true" + rest else "false" + rest
    case Null => "null" + rest
  }

  /** The items of a non-empty list and its closing bracket. */
  function DumpsItems(items: seq<Json>, rest: string): string
    requires items != [] && forall i :: 0 <= i < |items| ==> Simple(items[i])
    decreases items, 1
  {
    Dumps(items[0], if |items| == 1 then "]" + rest else "," + (" " + DumpsItems(items[1..], rest)))
  }

  /** The members of a non-empty object and its closing brace. */
  function DumpsFields(fields: seq<Field>, rest: string): string
    requires fields != [] && forall i :: 0 <= i < |fields| ==> Simple(fields[i].value)
    decreases fields, 1
  {
    var after := if |fields| == 1 then "}" + rest else "," + (" " + DumpsFields(fields[1..], rest));
    Quoted(fields[0].key, ": " + Dumps(fields[0].value, after))
  }

  lemma {:induction false} BlanksBefore(blanks: string, t: string)
    requires (forall i :: 0 <= i < |blanks| ==> IsSpace(blanks[i])) && t != "" && !IsSpace(t[0])
    ensures SkipBlanks(blanks + t) == t
    decreases |blanks|
  {
    if blanks == "" {
      assert blanks + t == t;
    } else {
      assert (blanks + t)[1..] == blanks[1..] + t;
      BlanksBefore(blanks[1..], t);
    }
  }

  lemma ColonText(valueText: string)
    requires valueText != "" && !IsSpace(valueText[0])
    ensures var colon := ": " + valueText;
            SkipBlanks(colon) == colon && colon[0] == ':' && SkipBlanks(colon[1..]) == valueText
  {
    var colon := ": " + valueText;
    assert colon[1..] == " " + valueText;
    BlanksBefore(" ", valueText);
  }

  /** A member whose key has been read: its value decides. */
  lemma MemberFromKey(py: Python, body: string, key: string, colon: string, valueText: string)
    requires ReadBody(py, body) == Parsed(key, colon)
    requires SkipBlanks(colon) == colon != "" && colon[0] == ':' && SkipBlanks(colon[1..]) == valueText
    ensures var value := ReadValue(py, valueText);
            ReadMember(py, "\"" + body)
            == if value.Failed? then Failed else Parsed(Field(key, value.value), value.rest)
  {
    assert ("\"" + body)[1..] == body;
  }

  /** One member, from a quoted key's text and the text of its value. */
  lemma MemberReads(py: Python, keyText: string, key: string, valueText: string, value: Json, after: string)
    requires ReadBody(py, keyText + ("\"" + (": " + valueText))) == Parsed(key, ": " + valueText)
    requires valueText != "" && !IsSpace(valueText[0]) && ReadValue(py, valueText) == Parsed(value, after)
    ensures ReadMember(py, "\"" + (keyText + ("\"" + (": " + valueText)))) == Parsed(Field(key, value), after)
  {
    ColonText(valueText);
    MemberFromKey(py, keyText + ("\"" + (": " + valueText)), key, ": " + valueText, valueText);
  }

  lemma LastPair(py: Python, t: string, first: Field, blanks: string, after: string)
    requires forall i :: 0 <= i < |blanks| ==> IsSpace(blanks[i])
    requires ReadMember(py, t) == Parsed(first, blanks + ("}" + after))
    ensures ReadPairs(py, t) == Parsed([first], after)
  {
    BlanksBefore(blanks, "}" + after);
    assert ("}" + after)[1..] == after;
  }

  lemma NextPair(py: Python, t: string, first: Field, blanks: string, next: string)
    requires (forall i :: 0 <= i < |blanks| ==> IsSpace(blanks[i])) && next != "" && !IsSpace(next[0])
    requires ReadMember(py, t) == Parsed(first, "," + (blanks + next))
    ensures var more := ReadPairs(py, next);
            ReadPairs(py, t) == if more.Failed? then Failed else Parsed([first] + more.value, more.rest)
  {
    var after := "," + (blanks + next);
    assert SkipBlanks(after) == after && after[1..] == blanks + next;
    BlanksBefore(blanks, next);
  }

  lemma DumpsHead(v: Json, rest: string)
    requires Simple(v)
    ensures Dumps(v, rest) != "" && !IsSpace(Dumps(v, rest)[0]) && Dumps(v, rest)[0] != ']'
    decreases v, 0
  {
    if v.Int? {
      PrintParse(if v.n < 0 then -v.n else v.n);
      assert Dumps(v, rest)[0] == PrintInt(v.n)[0];
    }
  }

  /** An object from its members. */
  lemma ObjectReads(py: Python, text: string, pairs: seq<Field>, rest: string)
    requires text != "" && text[0] == '"' && DistinctKeys(pairs) && ReadPairs(py, text) == Parsed(pairs, rest)
    ensures ReadValue(py, "{" + text) == Parsed(Obj(pairs), rest)
  {
    var t := "{" + text;
    assert t[1..] == text && SkipBlanks(text) == text;
    DistinctPairsStay(pairs);
  }

  lemma EmptyObjectReads(py: Python, rest: string)
    ensures ReadValue(py, "{" + ("}" + rest)) == Parsed(Obj([]), rest)
  {
    assert ("{" + ("}" + rest))[1..] == "}" + rest && ("}" + rest)[1..] == rest;
  }

  /** What json.dumps writes, json.loads reads back, and stops right after it. */
  lemma {:induction false} DumpReadsBack(py: Python, v: Json, rest: string)
    requires Simple(v) && WellFormed(v) && EndsNumber(rest)
    ensures ReadValue(py, Dumps(v, rest)) == Parsed(v, rest)
    decreases v, 0
  {
    if v.Str? {
      QuotedReadsBack(py, v.s, rest);
    } else if v.Int? {
      IntReadsBack(py, v.n, rest);
    } else if v.Bool? {
      LiteralReads(py, if v.b then "true" else "false", v, rest);
    } else if v.Null? {
      LiteralReads(py, "null", v, rest);
    } else if v.Arr? {
      ListReadsBack(py, v.items, rest);
    } else if v.fields == [] {
      EmptyObjectReads(py, rest);
    } else {
      FieldsReadBack(py, v.fields, rest);
      ObjectReads(py, DumpsFields(v.fields, rest), v.fields, rest);
    }
  }

  /** A list from its items. */
  lemma ListReads(py: Python, text: string, items: seq<Json>, rest: string)
    requires text != "" && !IsSpace(text[0]) && text[0] != ']' && ReadItems(py, text) == Parsed(items, rest)
    ensures ReadValue(py, "[" + text) == Parsed(Arr(items), rest)
  {
    var t := "[" + text;
    assert t[1..] == text && SkipBlanks(text) == text;
  }

  lemma EmptyListReads(py: Python, rest: string)
    ensures ReadValue(py, "[" + ("]" + rest)) == Parsed(Arr([]), rest)
  {
    assert ("[" + ("]" + rest))[1..] == "]" + rest && ("]" + rest)[1..] == rest;
  }

  lemma LastItem(py: Python, t: string, first: Json, after: string)
    requires ReadValue(py, t) == Parsed(first, "]" + after)
    ensures ReadItems(py, t) == Parsed([first], after)
  {
    assert ("]" + after)[1..] == after && SkipBlanks("]" + after) == "]" + after;
  }

  lemma NextItem(py: Python, t: string, first: Json, next: string, more: seq<Json>, rest: string)
    requires next != "" && !IsSpace(next[0]) && ReadItems(py, next) == Parsed(more, rest)
    requires ReadValue(py, t) == Parsed(first, "," + (" " + next))
    ensures ReadItems(py, t) == Parsed([first] + more, rest)
  {
    var after := "," + (" " + next);
    assert SkipBlanks(after) == after && after[1..] == " " + next;
    BlanksBefore(" ", next);
  }

  lemma {:induction false} ListReadsBack(py: Python, items: seq<Json>, rest: string)
    requires EndsNumber(rest) && forall i :: 0 <= i < |items| ==> Simple(items[i]) && WellFormed(items[i])
    ensures ReadValue(py, if items == [] then "[" + ("]" + rest) else "[" + DumpsItems(items, rest))
            == Parsed(Arr(items), rest)
    decreases items, 2
  {
    if items == [] {
      EmptyListReads(py, rest);
    } else {
      ItemsReadBack(py, items, rest);
      ItemsHead(items, rest);
      ListReads(py, DumpsItems(items, rest), items, rest);
    }
  }

  lemma ItemsHead(items: seq<Json>, rest: string)
    requires items != [] && forall i :: 0 <= i < |items| ==> Simple(items[i])
    ensures var t := DumpsItems(items, rest); t != "" && !IsSpace(t[0]) && t[0] != ']'
  {
    DumpsHead(items[0], if |items| == 1 then "]" + rest else "," + (" " + DumpsItems(items[1..], rest)));
  }

  lemma {:induction false} ItemsReadBack(py: Python, items: seq<Json>, rest: string)
    requires items != [] && forall i :: 0 <= i < |items| ==> Simple(items[i]) && WellFormed(items[i])
    ensures ReadItems(py, DumpsItems(items, rest)) == Parsed(items, rest)
    decreases items, 1
  {
    if |items| == 1 {
      DumpReadsBack(py, items[0], "]" + rest);
      LastItem(py, DumpsItems(items, rest), items[0], rest);
      assert items == [items[0]];
    } else {
      var next := DumpsItems(items[1..], rest);
      ItemsReadBack(py, items[1..], rest);
      ItemsHead(items[1..], rest);
      DumpReadsBack(py, items[0], "," + (" " + next));
      NextItem(py, DumpsItems(items, rest), items[0], next, items[1..], rest);
      assert items == [items[0]] + items[1..];
    }
  }

  lemma {:induction false} FieldsReadBack(py: Python, fields: seq<Field>, rest: string)
    requires fields != []
    requires forall i :: 0 <= i < |fields| ==> Simple(fields[i].value) && WellFormed(fields[i].value)
    ensures ReadPairs(py, DumpsFields(fields, rest)) == Parsed(fields, rest)
    decreases fields, 1
  {
    if |fields| == 1 {
      FirstFieldReads(py, fields[0], "}" + rest);
      OnlyFieldReads(py, DumpsFields(fields, rest), fields, rest);
    } else {
      var next := DumpsFields(fields[1..], rest);
      FieldsReadBack(py, fields[1..], rest);
      FieldsHead(fields[1..], rest);
      FirstFieldReads(py, fields[0], "," + (" " + next));
      MoreFieldsRead(py, DumpsFields(fields, rest), next, fields, rest);
    }
  }

  lemma FieldsHead(fields: seq<Field>, rest: string)
    requires fields != [] && forall i :: 0 <= i < |fields| ==> Simple(fields[i].value)
    ensures DumpsFields(fields, rest) != "" && DumpsFields(fields, rest)[0] == '"'
  {
  }

  lemma OnlyFieldReads(py: Python, t: string, fields: seq<Field>, rest: string)
    requires |fields| == 1 && ReadMember(py, t) == Parsed(fields[0], "}" + rest)
    ensures ReadPairs(py, t) == Parsed(fields, rest)
  {
    assert "" + ("}" + rest) == "}" + rest && fields == [fields[0]];
    LastPair(py, t, fields[0], "", rest);
  }

  lemma ConsReads(py: Python, t: string, next: string, first: Field, more: seq<Field>, rest: string)
    requires next != "" && next[0] == '"'
    requires ReadMember(py, t) == Parsed(first, "," + (" " + next))
    requires ReadPairs(py, next) == Parsed(more, rest)
    ensures ReadPairs(py, t) == Parsed([first] + more, rest)
  {
    NextPair(py, t, first, " ", next);
  }

  lemma MoreFieldsRead(py: Python, t: string, next: string, fields: seq<Field>, rest: string)
    requires |fields| > 1 && next != "" && next[0] == '"'
    requires ReadMember(py, t) == Parsed(fields[0], "," + (" " + next))
    requires ReadPairs(py, next) == Parsed(fields[1..], rest)
    ensures ReadPairs(py, t) == Parsed(fields, rest)
  {
    ConsReads(py, t, next, fields[0], fields[1..], rest);
    assert fields == [fields[0]] + fields[1..];
  }

  lemma {:induction false} FirstFieldReads(py: Python, first: Field, after: string)
    requires Simple(first.value) && WellFormed(first.value) && EndsNumber(after)
    ensures ReadMember(py, Quoted(first.key, ": " + Dumps(first.value, after))) == Parsed(first, after)
    decreases first.value, 1
  {
    DumpReadsBack(py, first.value, after);
    DumpsHead(first.value, after);
    EscapedReadsBack(py, first.key, ": " + Dumps(first.value, after));
    MemberReads(py, Escaped(first.key), first.key, Dumps(first.value, after), first.value, after);
  }
}
