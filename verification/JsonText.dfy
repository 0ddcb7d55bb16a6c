/**
  JSON as text: json.loads.  Reading consumes a prefix of the text and returns what is left.
 */
module JsonText {
  import opened Wrappers
  import opened Text
  import opened Decimal
  import opened Json

  datatype Parsed<T> = Parsed(value: T, rest: string) | Failed

  /** What is left to the library: float(), and the code point of an unpaired surrogate escape. */
  datatype Python = Python(float: string -> real, surrogate: int -> char)

  /** Text that means itself between two quotes. */
  predicate PlainChar(c: char) {
    c != '"' && c != '\\' && c >= ' '
  }

  predicate JsonPlain(s: string) {
    forall i :: 0 <= i < |s| ==> PlainChar(s[i])
  }

  predicate IsSuffix(r: string, t: string) {
    |r| <= |t| && r == t[|t| - |r|..]
  }

  // ---------------------------------------------------------------- strings

  predicate IsHex(c: char) {
    IsDigit(c) || 'a' <= c <= 'f' || 'A' <= c <= 'F'
  }

  function HexValue(c: char): (d: nat)
    requires IsHex(c)
    ensures d < 16
  {
    if IsDigit(c) then c as int - '0' as int
    else if 'a' <= c <= 'f' then c as int - 'a' as int + 10
    else c as int - 'A' as int + 10
  }

  function Hex4(t: string): (n: Option<nat>)
    ensures n.Some? ==> n.value < 0x10000 && |t| >= 4 && forall i :: 0 <= i < 4 ==> IsHex(t[i])
  {
    if |t| >= 4 && IsHex(t[0]) && IsHex(t[1]) && IsHex(t[2]) && IsHex(t[3])
    then Some(HexValue(t[0]) * 0x1000 + HexValue(t[1]) * 0x100 + HexValue(t[2]) * 0x10 + HexValue(t[3]))
    else None
  }

  predicate HighSurrogate(n: int) {
    0xD800 <= n < 0xDC00
  }

  predicate LowSurrogate(n: int) {
    0xDC00 <= n < 0xE000
  }

  function UnitChar(py: Python, n: nat): char
    requires n < 0x10000
  {
    if HighSurrogate(n) || LowSurrogate(n) then py.surrogate(n) else n as char
  }

  /** The second half of a surrogate pair, when the text goes on with one. */
  function PairedWith(t: string): (low: Option<nat>)
    ensures low.Some? ==> LowSurrogate(low.value) && |t| >= 6 && t[0] == '\\'
  {
    if |t| >= 6 && t[0] == '\\' && t[1] == 'u' then
      var low := Hex4(t[2..]);
      if low.Some? && LowSurrogate(low.value) then low else None
    else None
  }

  /** What follows a backslash. */
  function ReadEscape(py: Python, t: string): (r: Parsed<char>)
    ensures r.Parsed? ==> |r.rest| < |t| && r.rest == t[|t| - |r.rest|..]
  {
    if t == "" then Failed
    else if t[0] in "\"\\/" then Parsed(t[0], t[1..])
    else if t[0] == 'b' then Parsed('\U{0008}', t[1..])
    else if t[0] == 'f' then Parsed('\U{000C}', t[1..])
    else if t[0] == 'n' then Parsed('\n', t[1..])
    else if t[0] == 'r' then Parsed('\r', t[1..])
    else if t[0] == 't' then Parsed('\t', t[1..])
    else if t[0] != 'u' then Failed
    else
      var unit := Hex4(t[1..]);
      if unit.None? then Failed
      else
        var low := PairedWith(t[5..]);
        if HighSurrogate(unit.value) && low.Some?
        then Parsed((0x10000 + (unit.value - 0xD800) * 0x400 + (low.value - 0xDC00)) as char, t[11..])
        else Parsed(UnitChar(py, unit.value), t[5..])
  }

  /** The rest of a string literal, after its opening quote; control characters are refused. */
  function ReadBody(py: Python, t: string): (r: Parsed<string>)
    ensures r.Parsed? ==> |r.rest| < |t|
    decreases |t|
  {
    if t == "" then Failed
    else if t[0] == '"' then Parsed("", t[1..])
    else if t[0] == '\\' then
      var c := ReadEscape(py, t[1..]);
      if c.Failed? then Failed
      else
        var more := ReadBody(py, c.rest);
        if more.Failed? then Failed else Parsed([c.value] + more.value, more.rest)
    else if t[0] < ' ' then Failed
    else
      var more := ReadBody(py, t[1..]);
      if more.Failed? then Failed else Parsed([t[0]] + more.value, more.rest)
  }

  /** A plain text reads back as itself. */
  lemma {:induction false} PlainReadsBack(py: Python, s: string, rest: string)
    requires JsonPlain(s)
    ensures ReadBody(py, s + ("\"" + rest)) == Parsed(s, rest)
    decreases |s|
  {
    var t := s + ("\"" + rest);
    if s == "" {
      assert t[1..] == rest;
    } else {
      assert t[0] == s[0] && PlainChar(s[0]);
      assert t[1..] == s[1..] + ("\"" + rest);
      PlainReadsBack(py, s[1..], rest);
      assert [s[0]] + s[1..] == s;
    }
  }

  /** An escape that starts inside s ends inside s, because a quote cannot be part of \uXXXX. */
  lemma EscapeStaysInside(py: Python, s: string, rest: string)
    requires s != "" && ReadEscape(py, s + ("\"" + rest)).Parsed?
    ensures |ReadEscape(py, s + ("\"" + rest)).rest| > |rest|
  {
    var t := s + ("\"" + rest);
    assert t[|s|] == '"';
    if t[0] == 'u' {
      var unit := Hex4(t[1..]);
      assert |s| >= 5 by {
        assert forall i :: 0 <= i < 4 ==> t[1..][i] == t[i + 1];
      }
      var low := PairedWith(t[5..]);
      if HighSurrogate(unit.value) && low.Some? {
        assert t[5..][0] == t[5] && t[5..][1] == t[6];
        assert Hex4(t[5..][2..]).Some?;
        assert t[5..][2..] == t[7..];
        assert forall i :: 0 <= i < 4 ==> t[7..][i] == t[i + 7];
      }
    }
  }

  /** The line break after the slot's quote ends every reading that takes the quote for content. */
  lemma NothingPastTheSlot(py: Python, rest: string)
    requires |rest| >= 2 && PlainChar(rest[0]) && rest[1] == '\n'
    ensures ReadBody(py, rest).Failed?
  {
    assert rest[1..][0] == '\n';
    assert ReadBody(py, rest[1..]).Failed?;
  }

  lemma LastBackslashFails(py: Python, rest: string)
    requires |rest| >= 2 && PlainChar(rest[0]) && rest[1] == '\n'
    ensures ReadBody(py, "\\" + ("\"" + rest)).Failed?
  {
    var t := "\\" + ("\"" + rest);
    assert t[1..] == "\"" + rest && ("\"" + rest)[1..] == rest;
    assert ReadEscape(py, t[1..]) == Parsed('"', rest);
    NothingPastTheSlot(py, rest);
  }

  lemma EscapeStep(py: Python, t: string)
    requires t != "" && t[0] == '\\' && ReadBody(py, t).Parsed?
    ensures var c := ReadEscape(py, t[1..]);
            && c.Parsed? && ReadBody(py, c.rest).Parsed?
            && ReadBody(py, t) == Parsed([c.value] + ReadBody(py, c.rest).value, ReadBody(py, c.rest).rest)
  {
  }

  /** Where the slot goes on after an escape at its head. */
  lemma EscapeCut(py: Python, s: string, rest: string) returns (k: nat)
    requires |s| >= 2 && ReadEscape(py, s[1..] + ("\"" + rest)).Parsed?
    ensures 2 <= k <= |s| && ReadEscape(py, s[1..] + ("\"" + rest)).rest == s[k..] + ("\"" + rest)
  {
    EscapeStaysInside(py, s[1..], rest);
    var u := s[1..] + ("\"" + rest);
    var r := ReadEscape(py, u).rest;
    k := |u| - |r| + 1;
    assert r == u[k - 1..] == s[1..][k - 1..] + ("\"" + rest);
    assert s[1..][k - 1..] == s[k..];
  }

  /** Reading an escape at the head of a slot leaves a shorter slot. */
  lemma EscapeLeavesSlot(py: Python, s: string, rest: string) returns (k: nat)
    requires |rest| >= 2 && PlainChar(rest[0]) && rest[1] == '\n' && s != "" && s[0] == '\\'
    requires ReadBody(py, s + ("\"" + rest)).Parsed?
    ensures 2 <= k <= |s|
    ensures var r, m := ReadBody(py, s + ("\"" + rest)), ReadBody(py, s[k..] + ("\"" + rest));
            m.Parsed? && r.rest == m.rest && |r.value| == |m.value| + 1
  {
    var t := s + ("\"" + rest);
    assert |s| >= 2 by {
      LastBackslashFails(py, rest);
      assert |s| == 1 ==> s == "\\";
    }
    EscapeStep(py, t);
    assert t[1..] == s[1..] + ("\"" + rest);
    k := EscapeCut(py, s, rest);
  }

  /**
    A quoted slot followed by a line break: whatever s holds, reading it never gets past the
    slot's own quote, and gets no more characters than s has.
   */
  lemma {:induction false} SlotIsBounded(py: Python, s: string, rest: string)
    requires |rest| >= 2 && PlainChar(rest[0]) && rest[1] == '\n'
    ensures var r := ReadBody(py, s + ("\"" + rest)); r.Parsed? ==> |r.value| <= |s| && |r.rest| >= |rest|
    decreases |s|
  {
    var t := s + ("\"" + rest);
    if s == "" {
      assert t[1..] == rest;
    } else if s[0] == '\\' {
      if ReadBody(py, t).Parsed? {
        var k := EscapeLeavesSlot(py, s, rest);
        SlotIsBounded(py, s[k..], rest);
      }
    } else {
      assert t[1..] == s[1..] + ("\"" + rest);
      SlotIsBounded(py, s[1..], rest);
    }
  }

  /** Text that is not plain never reads back as itself. */
  lemma {:induction false} OnlyPlainReadsBack(py: Python, s: string, rest: string)
    requires |rest| >= 2 && PlainChar(rest[0]) && rest[1] == '\n' && !JsonPlain(s)
    ensures var r := ReadBody(py, s + ("\"" + rest)); r.Parsed? ==> r.value != s
    decreases |s|
  {
    var t := s + ("\"" + rest);
    assert t[0] == s[0];
    if PlainChar(s[0]) {
      assert t[1..] == s[1..] + ("\"" + rest);
      assert !JsonPlain(s[1..]) by {
        assert forall i :: 0 <= i < |s| - 1 ==> s[1..][i] == s[i + 1];
        assert s == [s[0]] + s[1..];
      }
      OnlyPlainReadsBack(py, s[1..], rest);
    } else if s[0] == '\\' {
      if ReadBody(py, t).Parsed? {
        var k := EscapeLeavesSlot(py, s, rest);
        SlotIsBounded(py, s[k..], rest);
      }
    }
  }

  /** The slot, exactly: it reads back as itself if and only if it is plain. */
  lemma SlotReadsBackIffPlain(py: Python, s: string, rest: string)
    requires |rest| >= 2 && PlainChar(rest[0]) && rest[1] == '\n'
    ensures (ReadBody(py, s + ("\"" + rest)).Parsed? && ReadBody(py, s + ("\"" + rest)).value == s) <==> JsonPlain(s)
  {
    if JsonPlain(s) { PlainReadsBack(py, s, rest); } else { OnlyPlainReadsBack(py, s, rest); }
  }

  /** Without backslashes every string read is plain. */
  lemma {:induction false} PlainWithoutBackslash(py: Python, t: string)
    requires '\\' !in t
    ensures ReadBody(py, t).Parsed? ==> JsonPlain(ReadBody(py, t).value)
    decreases |t|
  {
    if t != "" {
      assert t[0] in t;
      PlainWithoutBackslash(py, t[1..]);
    }
  }

  // ---------------------------------------------------------------- numbers and blanks

  function SkipBlanks(t: string): (r: string)
    ensures |r| <= |t|
    ensures r != "" ==> !IsSpace(r[0])
    decreases |t|
  {
    if t != "" && IsSpace(t[0]) then SkipBlanks(t[1..]) else t
  }

  /** Length of the digits at the head. */
  function DigitRun(t: string): (n: nat)
    ensures n <= |t|
    decreases |t|
  {
    if t != "" && IsDigit(t[0]) then DigitRun(t[1..]) + 1 else 0
  }

  function FractionRun(t: string): (n: nat)
    ensures n <= |t|
  {
    if |t| >= 2 && t[0] == '.' && IsDigit(t[1]) then 1 + DigitRun(t[1..]) else 0
  }

  function ExponentRun(t: string): (n: nat)
    ensures n <= |t|
  {
    if |t| >= 2 && t[0] in "eE" then
      var k := if t[1] in "+-" then 2 else 1;
      if |t| > k && IsDigit(t[k]) then k + DigitRun(t[k..]) else 0
    else 0
  }

  function ReadNumber(py: Python, t: string): (r: Parsed<Json>)
    ensures r.Parsed? ==> |r.rest| < |t| && !r.value.Str?
  {
    var sign := if t != "" && t[0] == '-' then 1 else 0;
    var u := t[sign..];
    if u == "" || !IsDigit(u[0]) then Failed
    else
      var n: nat := if u[0] == '0' then 1 else DigitRun(u);
      var f: nat := n + FractionRun(u[n..]);
      var e: nat := f + ExponentRun(u[f..]);
      var value: int := ParseDigits(u[..n]);
      if e == n then Parsed(Int(if sign == 1 then -value else value), u[n..])
      else Parsed(Float(py.float(t[..sign + e])), u[e..])
  }

  // ---------------------------------------------------------------- values

  /** The literals json.loads knows, NaN and the infinities included. */
  function ReadLiteral(py: Python, t: string): (r: Parsed<Json>)
    ensures r.Parsed? ==> |r.rest| < |t| && !r.value.Str?
  {
    if "null" <= t then Parsed(Null, t[4..])
    else if "true" <= t then Parsed(Bool(true), t[4..])
    else if "false" <= t then Parsed(Bool(false), t[5..])
    else if "NaN" <= t then Parsed(Float(py.float("NaN")), t[3..])
    else if "Infinity" <= t then Parsed(Float(py.float("Infinity")), t[8..])
    else if "-Infinity" <= t then Parsed(Float(py.float("-Infinity")), t[9..])
    else Failed
  }

  /** A dict from its pairs: a repeated key keeps its place and takes the later value. */
  function FromPairs(pairs: seq<Field>): seq<Field> {
    if pairs == [] then []
    else Put(FromPairs(pairs[..|pairs| - 1]), pairs[|pairs| - 1].key, pairs[|pairs| - 1].value)
  }

  function ReadValue(py: Python, t: string): (r: Parsed<Json>)
    ensures r.Parsed? ==> |r.rest| < |t|
    ensures r.Parsed? && r.value.Str? ==> t[0] == '"' && ReadBody(py, t[1..]) == Parsed(r.value.s, r.rest)
    decreases |t|, 0
  {
    if t == "" then Failed
    else if t[0] == '"' then
      var body := ReadBody(py, t[1..]);
      if body.Failed? then Failed else Parsed(Str(body.value), body.rest)
    else if t[0] == '{' then
      var u := SkipBlanks(t[1..]);
      if u != "" && u[0] == '}' then Parsed(Obj([]), u[1..])
      else
        var pairs := ReadPairs(py, u);
        if pairs.Failed? then Failed else Parsed(Obj(FromPairs(pairs.value)), pairs.rest)
    else if t[0] == '[' then
      var u := SkipBlanks(t[1..]);
      if u != "" && u[0] == ']' then Parsed(Arr([]), u[1..])
      else
        var items := ReadItems(py, u);
        if items.Failed? then Failed else Parsed(Arr(items.value), items.rest)
    else
      var literal := ReadLiteral(py, t);
      if literal.Parsed? then literal else ReadNumber(py, t)
  }

  /** One member of an object, from its key's quote. */
  function ReadMember(py: Python, t: string): (r: Parsed<Field>)
    ensures r.Parsed? ==> |r.rest| < |t|
    decreases |t|, 0
  {
    if t == "" || t[0] != '"' then Failed
    else
      var key := ReadBody(py, t[1..]);
      if key.Failed? then Failed
      else
        var colon := SkipBlanks(key.rest);
        if colon == "" || colon[0] != ':' then Failed
        else
          var value := ReadValue(py, SkipBlanks(colon[1..]));
          if value.Failed? then Failed else Parsed(Field(key.value, value.value), value.rest)
  }

  /** The members of an object, from the first key's quote to the closing brace. */
  function ReadPairs(py: Python, t: string): (r: Parsed<seq<Field>>)
    ensures r.Parsed? ==> |r.rest| < |t|
    decreases |t|, 1
  {
    var first := ReadMember(py, t);
    if first.Failed? then Failed
    else
      var after := SkipBlanks(first.rest);
      if after == "" then Failed
      else if after[0] == '}' then Parsed([first.value], after[1..])
      else if after[0] != ',' then Failed
      else
        var more := ReadPairs(py, SkipBlanks(after[1..]));
        if more.Failed? then Failed else Parsed([first.value] + more.value, more.rest)
  }

  function ReadItems(py: Python, t: string): (r: Parsed<seq<Json>>)
    ensures r.Parsed? ==> |r.rest| < |t|
    decreases |t|, 1
  {
    var value := ReadValue(py, t);
    if value.Failed? then Failed
    else
      var after := SkipBlanks(value.rest);
      if after == "" then Failed
      else if after[0] == ']' then Parsed([value.value], after[1..])
      else if after[0] != ',' then Failed
      else
        var more := ReadItems(py, SkipBlanks(after[1..]));
        if more.Failed? then Failed else Parsed([value.value] + more.value, more.rest)
  }

  /** json.loads; None stands for the JSONDecodeError. */
  function Loads(py: Python, t: string): Option<Json> {
    var r := ReadValue(py, SkipBlanks(t));
    if r.Parsed? && SkipBlanks(r.rest) == "" then Some(r.value) else None
  }

  // ---------------------------------------------------------------- where strings come from

  /** Some quote in the text opens a string that reads as w. */
  ghost predicate ReadsSomewhere(py: Python, t: string, w: string) {
    exists i :: ReadsAt(py, t, w, i)
  }

  predicate ReadsAt(py: Python, t: string, w: string, i: int) {
    0 <= i < |t| && t[i] == '"' && ReadBody(py, t[i + 1..]).Parsed? && ReadBody(py, t[i + 1..]).value == w
  }

  lemma SuffixReads(py: Python, r: string, t: string, w: string)
    requires IsSuffix(r, t) && ReadsSomewhere(py, r, w)
    ensures ReadsSomewhere(py, t, w)
  {
    var i :| ReadsAt(py, r, w, i);
    var k := |t| - |r|;
    assert t[k + i + 1..] == r[i + 1..];
    assert ReadsAt(py, t, w, k + i);
  }

  lemma SuffixOfSuffix(a: string, b: string, c: string)
    requires IsSuffix(a, b) && IsSuffix(b, c)
    ensures IsSuffix(a, c)
  {
  }

  lemma {:induction false} BlanksLeaveSuffix(t: string)
    ensures IsSuffix(SkipBlanks(t), t)
    decreases |t|
  {
    if t != "" && IsSpace(t[0]) {
      BlanksLeaveSuffix(t[1..]);
      SuffixOfSuffix(SkipBlanks(t), t[1..], t);
    }
  }

  lemma {:induction false} BodyLeavesSuffix(py: Python, t: string)
    requires ReadBody(py, t).Parsed?
    ensures IsSuffix(ReadBody(py, t).rest, t)
    decreases |t|
  {
    if t[0] == '"' {
    } else if t[0] == '\\' {
      var c := ReadEscape(py, t[1..]);
      BodyLeavesSuffix(py, c.rest);
      SuffixOfSuffix(ReadBody(py, t).rest, c.rest, t);
    } else {
      BodyLeavesSuffix(py, t[1..]);
      SuffixOfSuffix(ReadBody(py, t).rest, t[1..], t);
    }
  }

  /** Blanks, one character, blanks. */
  lemma SeparatorLeavesSuffix(r: string, t: string)
    requires IsSuffix(r, t) && SkipBlanks(r) != ""
    ensures IsSuffix(SkipBlanks(r)[1..], t) && IsSuffix(SkipBlanks(SkipBlanks(r)[1..]), t)
  {
    var u := SkipBlanks(r);
    BlanksLeaveSuffix(r);
    SuffixOfSuffix(u, r, t);
    SuffixOfSuffix(u[1..], u, t);
    BlanksLeaveSuffix(u[1..]);
    SuffixOfSuffix(SkipBlanks(u[1..]), u[1..], t);
  }

  lemma NumberLeavesSuffix(py: Python, t: string)
    requires ReadNumber(py, t).Parsed?
    ensures IsSuffix(ReadNumber(py, t).rest, t)
  {
    var sign := if t[0] == '-' then 1 else 0;
    SuffixOfSuffix(ReadNumber(py, t).rest, t[sign..], t);
  }

  lemma LiteralLeavesSuffix(py: Python, t: string)
    requires ReadLiteral(py, t).Parsed?
    ensures IsSuffix(ReadLiteral(py, t).rest, t)
  {
  }

  lemma ScalarLeavesSuffix(py: Python, t: string)
    requires ReadValue(py, t).Parsed? && t[0] != '{' && t[0] != '['
    ensures IsSuffix(ReadValue(py, t).rest, t)
  {
    if t[0] == '"' {
      BodyLeavesSuffix(py, t[1..]);
      SuffixOfSuffix(ReadBody(py, t[1..]).rest, t[1..], t);
    } else if ReadLiteral(py, t).Parsed? {
      LiteralLeavesSuffix(py, t);
    } else {
      NumberLeavesSuffix(py, t);
    }
  }

  lemma OpeningLeavesSuffix(t: string)
    requires t != ""
    ensures IsSuffix(SkipBlanks(t[1..]), t)
    ensures SkipBlanks(t[1..]) != "" ==> IsSuffix(SkipBlanks(t[1..])[1..], t)
  {
    var u := SkipBlanks(t[1..]);
    BlanksLeaveSuffix(t[1..]);
    SuffixOfSuffix(u, t[1..], t);
    if u != "" { SuffixOfSuffix(u[1..], u, t); }
  }

  lemma {:induction false} ValueLeavesSuffix(py: Python, t: string)
    requires ReadValue(py, t).Parsed?
    ensures IsSuffix(ReadValue(py, t).rest, t)
    decreases |t|, 0
  {
    if t[0] != '{' && t[0] != '[' {
      ScalarLeavesSuffix(py, t);
    } else {
      var u := SkipBlanks(t[1..]);
      OpeningLeavesSuffix(t);
      if t[0] == '{' && (u == "" || u[0] != '}') {
        PairsLeaveSuffix(py, u);
        SuffixOfSuffix(ReadPairs(py, u).rest, u, t);
      } else if t[0] == '[' && (u == "" || u[0] != ']') {
        ItemsLeaveSuffix(py, u);
        SuffixOfSuffix(ReadItems(py, u).rest, u, t);
      }
    }
  }

  lemma {:induction false} MemberLeavesSuffix(py: Python, t: string)
    requires ReadMember(py, t).Parsed?
    ensures IsSuffix(ReadMember(py, t).rest, t)
    decreases |t|, 0
  {
    var key := ReadBody(py, t[1..]);
    BodyLeavesSuffix(py, t[1..]);
    SuffixOfSuffix(key.rest, t[1..], t);
    SeparatorLeavesSuffix(key.rest, t);
    var u := SkipBlanks(SkipBlanks(key.rest)[1..]);
    ValueLeavesSuffix(py, u);
    SuffixOfSuffix(ReadValue(py, u).rest, u, t);
  }

  lemma {:induction false} PairsLeaveSuffix(py: Python, t: string)
    requires ReadPairs(py, t).Parsed?
    ensures IsSuffix(ReadPairs(py, t).rest, t)
    decreases |t|, 1
  {
    var first := ReadMember(py, t);
    MemberLeavesSuffix(py, t);
    SeparatorLeavesSuffix(first.rest, t);
    var after := SkipBlanks(first.rest);
    if after[0] == ',' {
      var next := SkipBlanks(after[1..]);
      PairsLeaveSuffix(py, next);
      SuffixOfSuffix(ReadPairs(py, next).rest, next, t);
    }
  }

  lemma {:induction false} ItemsLeaveSuffix(py: Python, t: string)
    requires ReadItems(py, t).Parsed?
    ensures IsSuffix(ReadItems(py, t).rest, t)
    decreases |t|, 1
  {
    var first := ReadValue(py, t);
    ValueLeavesSuffix(py, t);
    SeparatorLeavesSuffix(first.rest, t);
    var after := SkipBlanks(first.rest);
    if after[0] == ',' {
      var next := SkipBlanks(after[1..]);
      ItemsLeaveSuffix(py, next);
      SuffixOfSuffix(ReadItems(py, next).rest, next, t);
    }
  }

  lemma MemberValueReads(py: Python, t: string)
    requires ReadMember(py, t).Parsed? && ReadMember(py, t).value.value.Str?
    ensures ReadsSomewhere(py, t, ReadMember(py, t).value.value.s)
  {
    var key := ReadBody(py, t[1..]);
    BodyLeavesSuffix(py, t[1..]);
    SuffixOfSuffix(key.rest, t[1..], t);
    SeparatorLeavesSuffix(key.rest, t);
    var u := SkipBlanks(SkipBlanks(key.rest)[1..]);
    assert ReadsAt(py, u, ReadValue(py, u).value.s, 0);
    SuffixReads(py, u, t, ReadValue(py, u).value.s);
  }

  /** The members after the first. */
  lemma MorePairs(py: Python, t: string) returns (next: string)
    requires ReadPairs(py, t).Parsed? && |ReadPairs(py, t).value| > 1
    ensures ReadMember(py, t).Parsed? && ReadPairs(py, t).value[0] == ReadMember(py, t).value
    ensures |next| < |t| && IsSuffix(next, ReadMember(py, t).rest) && IsSuffix(next, t) && ReadPairs(py, next).Parsed?
    ensures ReadPairs(py, t).value[1..] == ReadPairs(py, next).value
  {
    var first := ReadMember(py, t);
    MemberLeavesSuffix(py, t);
    SeparatorLeavesSuffix(first.rest, first.rest);
    next := SkipBlanks(SkipBlanks(first.rest)[1..]);
    SuffixOfSuffix(next, first.rest, t);
  }

  /** A string value of a member is read at some quote of the text. */
  lemma {:induction false} PairValueReads(py: Python, t: string, k: nat)
    requires ReadPairs(py, t).Parsed? && k < |ReadPairs(py, t).value| && ReadPairs(py, t).value[k].value.Str?
    ensures ReadsSomewhere(py, t, ReadPairs(py, t).value[k].value.s)
    decreases |t|
  {
    if k == 0 {
      MemberValueReads(py, t);
    } else {
      var next := MorePairs(py, t);
      assert ReadPairs(py, t).value[k] == ReadPairs(py, next).value[k - 1];
      PairValueReads(py, next, k - 1);
      SuffixReads(py, next, t, ReadPairs(py, t).value[k].value.s);
    }
  }

  /** After a dict is built, a key has the value of its last pair. */
  lemma {:induction false} LastPairWins(pairs: seq<Field>, key: string)
    ensures Has(FromPairs(pairs), key) <==> exists k :: 0 <= k < |pairs| && pairs[k].key == key
    ensures Has(FromPairs(pairs), key) ==>
              exists k :: 0 <= k < |pairs| && pairs[k] == Field(key, Get(FromPairs(pairs), key))
    decreases |pairs|
  {
    if pairs != [] {
      var n := |pairs| - 1;
      LastPairWins(pairs[..n], key);
      PutSpec(FromPairs(pairs[..n]), pairs[n].key, pairs[n].value);
      if Has(FromPairs(pairs[..n]), key) {
        var k :| 0 <= k < n && pairs[..n][k] == Field(key, Get(FromPairs(pairs[..n]), key));
        assert pairs[k] == pairs[..n][k];
      }
      assert forall k :: 0 <= k < n ==> pairs[k] == pairs[..n][k];
    }
  }

  lemma {:induction false} DistinctPairsStay(pairs: seq<Field>)
    requires DistinctKeys(pairs)
    ensures FromPairs(pairs) == pairs
    decreases |pairs|
  {
    if pairs != [] {
      var n := |pairs| - 1;
      DistinctPairsStay(pairs[..n]);
      assert pairs == pairs[..n] + [pairs[n]];
      assert IndexOf(pairs[..n], pairs[n].key).None?;
    }
  }
}
