/**
  The container's opencode.json.j2 with its three slots substituted, and what the resulting text
  reads as (containers/review-runner/entrypoint.py).  The provider and the model go between the
  template's own quotes as they are.
 */
module ConfigTemplate {
  import opened Json
  import opened JsonText
  import opened JsonDump
  import opened Text
  import opened Wrappers

  const ALLOWED := ["bash", "edit", "webfetch", "external_directory"]

  function Allowances(keys: seq<string>): (fields: seq<Field>)
    ensures |fields| == |keys| && forall i :: 0 <= i < |keys| ==> fields[i] == Field(keys[i], Str("allow"))
  {
    if keys == [] then [] else [Field(keys[0], Str("allow"))] + Allowances(keys[1..])
  }

  const PERMISSIONS := Obj(Allowances(ALLOWED))

  function Document(provider: string, model: string, block: Json): Json {
    Obj([Field("provider", Obj([Field(provider, block)])),
         Field("model", Str(model)),
         Field("permission", PERMISSIONS)])
  }

  /** A quoted key, a colon, and what follows. */
  function Line(key: string, rest: string): string {
    "\"" + (key + ("\"" + (": " + rest)))
  }

  /** "allow", and what follows. */
  function Allow(rest: string): string {
    "\"" + ("allow" + ("\"" + rest))
  }

  /** "bash": "allow", "edit": "allow" and so on, a closing brace, and what follows. */
  function AllowText(keys: seq<string>, rest: string): string
    requires keys != []
  {
    Line(keys[0], Allow(if |keys| == 1 then "}" + rest else "," + (" " + AllowText(keys[1..], rest))))
  }

  function PermissionLine(): string {
    Line("permission", "{" + AllowText(ALLOWED, "\n" + ("}" + "\n")))
  }

  /** The template after the closing quote of the model slot. */
  const AFTER_MODEL := "," + ("\n  " + PermissionLine())

  function ModelLine(model: string): string {
    Line("model", "\"" + (model + ("\"" + AFTER_MODEL)))
  }

  function ProviderLine(provider: string, block: Json, rest: string): string
    requires Simple(block)
  {
    Line("provider", "{" + Line(provider, Dumps(block, "}" + rest)))
  }

  /** opencode.json.j2, substituted: provider and model go between quotes as they are. */
  function Rendered(provider: string, model: string, block: Json): string
    requires Simple(block)
  {
    "{" + ("\n  " + ProviderLine(provider, block, "," + ("\n  " + ModelLine(model))))
  }

  // ---------------------------------------------------------------- reading the lines

  lemma LineReads(py: Python, key: string, valueText: string, value: Json, after: string)
    requires JsonPlain(key) && valueText != "" && !IsSpace(valueText[0])
    requires ReadValue(py, valueText) == Parsed(value, after)
    ensures ReadMember(py, Line(key, valueText)) == Parsed(Field(key, value), after)
  {
    PlainReadsBack(py, key, ": " + valueText);
    MemberReads(py, key, key, valueText, value, after);
  }

  lemma LineFails(py: Python, key: string, valueText: string)
    requires JsonPlain(key) && valueText != "" && !IsSpace(valueText[0]) && ReadValue(py, valueText).Failed?
    ensures ReadMember(py, Line(key, valueText)).Failed?
  {
    PlainReadsBack(py, key, ": " + valueText);
    ColonText(valueText);
    MemberFromKey(py, key + ("\"" + (": " + valueText)), key, ": " + valueText, valueText);
  }

  /** The first line: the provider's name must be plain, and its block is read back whole. */
  lemma ProviderLineReads(py: Python, provider: string, block: Json, rest: string)
    requires JsonPlain(provider) && Simple(block) && WellFormed(block)
    ensures ReadMember(py, ProviderLine(provider, block, rest))
            == Parsed(Field("provider", Obj([Field(provider, block)])), rest)
  {
    BlockLineReads(py, provider, block, rest);
    ObjectLineReads(py, "provider", Line(provider, Dumps(block, "}" + rest)), [Field(provider, block)], rest);
  }

  lemma ObjectLineReads(py: Python, key: string, text: string, pairs: seq<Field>, rest: string)
    requires JsonPlain(key) && text != "" && text[0] == '"' && DistinctKeys(pairs)
    requires ReadPairs(py, text) == Parsed(pairs, rest)
    ensures ReadMember(py, Line(key, "{" + text)) == Parsed(Field(key, Obj(pairs)), rest)
  {
    ObjectReads(py, text, pairs, rest);
    LineReads(py, key, "{" + text, Obj(pairs), rest);
  }

  lemma BlockLineReads(py: Python, provider: string, block: Json, rest: string)
    requires JsonPlain(provider) && Simple(block) && WellFormed(block)
    ensures ReadPairs(py, Line(provider, Dumps(block, "}" + rest))) == Parsed([Field(provider, block)], rest)
  {
    var after := "}" + rest;
    DumpReadsBack(py, block, after);
    DumpsHead(block, after);
    LineReads(py, provider, Dumps(block, after), block, after);
    OnlyFieldReads(py, Line(provider, Dumps(block, after)), [Field(provider, block)], rest);
  }

  lemma AllowReads(py: Python, rest: string)
    ensures ReadValue(py, Allow(rest)) == Parsed(Str("allow"), rest) && Allow(rest) != "" && !IsSpace(Allow(rest)[0])
  {
    assert Allow(rest)[1..] == "allow" + ("\"" + rest);
    PlainReadsBack(py, "allow", rest);
  }

  lemma AllowedReads(py: Python, key: string, rest: string)
    requires JsonPlain(key)
    ensures ReadMember(py, Line(key, Allow(rest))) == Parsed(Field(key, Str("allow")), rest)
  {
    AllowReads(py, rest);
    LineReads(py, key, Allow(rest), Str("allow"), rest);
  }

  lemma {:induction false} AllowTextReads(py: Python, keys: seq<string>, rest: string)
    requires keys != [] && forall i :: 0 <= i < |keys| ==> JsonPlain(keys[i])
    ensures AllowText(keys, rest)[0] == '"' && ReadPairs(py, AllowText(keys, rest)) == Parsed(Allowances(keys), rest)
    decreases |keys|
  {
    var first := Field(keys[0], Str("allow"));
    if |keys| == 1 {
      AllowedReads(py, keys[0], "}" + rest);
      OnlyFieldReads(py, AllowText(keys, rest), [first], rest);
      assert Allowances(keys) == [first];
    } else {
      var next := AllowText(keys[1..], rest);
      AllowTextReads(py, keys[1..], rest);
      AllowedReads(py, keys[0], "," + (" " + next));
      ConsReads(py, AllowText(keys, rest), next, first, Allowances(keys[1..]), rest);
    }
  }

  lemma AllowLineReads(py: Python, keys: seq<string>, rest: string)
    requires keys != [] && forall i :: 0 <= i < |keys| ==> JsonPlain(keys[i])
    requires forall i, j :: 0 <= i < j < |keys| ==> keys[i] != keys[j]
    ensures ReadMember(py, Line("permission", "{" + AllowText(keys, rest)))
            == Parsed(Field("permission", Obj(Allowances(keys))), rest)
  {
    AllowTextReads(py, keys, rest);
    ObjectLineReads(py, "permission", AllowText(keys, rest), Allowances(keys), rest);
  }

  lemma AllowedKeys()
    ensures ALLOWED != [] && forall i :: 0 <= i < |ALLOWED| ==> JsonPlain(ALLOWED[i])
    ensures forall i, j :: 0 <= i < j < |ALLOWED| ==> ALLOWED[i] != ALLOWED[j]
  {
    assert ALLOWED[0][0] == 'b' && ALLOWED[1] == "edit" && ALLOWED[2][0] == 'w' && ALLOWED[3][1] == 'x';
  }

  // ---------------------------------------------------------------- reading the whole text

  lemma LoadsObject(py: Python, blanks: string, text: string)
    requires (forall i :: 0 <= i < |blanks| ==> IsSpace(blanks[i])) && text != "" && text[0] == '"'
    ensures var pairs := ReadPairs(py, text);
            Loads(py, "{" + (blanks + text)) ==
            if pairs.Parsed? && SkipBlanks(pairs.rest) == "" then Some(Obj(FromPairs(pairs.value))) else None
  {
    var t := "{" + (blanks + text);
    assert SkipBlanks(t) == t && t[1..] == blanks + text;
    BlanksBefore(blanks, text);
  }

  function ProviderField(provider: string, block: Json): Field {
    Field("provider", Obj([Field(provider, block)]))
  }

  /** With a plain provider the reading comes down to the model line and what is after it. */
  lemma RenderedReads(py: Python, provider: string, model: string, block: Json)
    requires JsonPlain(provider) && Simple(block) && WellFormed(block)
    ensures var more := ReadPairs(py, ModelLine(model));
            Loads(py, Rendered(provider, model, block)) ==
            if more.Parsed? && SkipBlanks(more.rest) == ""
            then Some(Obj(FromPairs([ProviderField(provider, block)] + more.value))) else None
  {
    var next := ModelLine(model);
    var rest := "," + ("\n  " + next);
    ProviderLineReads(py, provider, block, rest);
    NextPair(py, ProviderLine(provider, block, rest), ProviderField(provider, block), "\n  ", next);
    LoadsObject(py, "\n  ", ProviderLine(provider, block, rest));
  }

  /** What the reader makes of the model slot, its closing quote and everything after. */
  function SlotRead(py: Python, model: string): Parsed<string> {
    ReadBody(py, model + ("\"" + AFTER_MODEL))
  }

  lemma ModelLineReads(py: Python, model: string)
    ensures var r := SlotRead(py, model);
            ReadMember(py, ModelLine(model))
            == if r.Failed? then Failed else Parsed(Field("model", Str(r.value)), r.rest)
  {
    var body := model + ("\"" + AFTER_MODEL);
    var valueText := "\"" + body;
    assert valueText[1..] == body;
    if SlotRead(py, model).Failed? {
      LineFails(py, "model", valueText);
    } else {
      LineReads(py, "model", valueText, Str(SlotRead(py, model).value), SlotRead(py, model).rest);
    }
  }

  lemma LastLineReads(py: Python)
    ensures ReadPairs(py, PermissionLine()) == Parsed([Field("permission", PERMISSIONS)], "\n")
  {
    AllowedKeys();
    AllowLineReads(py, ALLOWED, "\n" + ("}" + "\n"));
    LastPair(py, PermissionLine(), Field("permission", PERMISSIONS), "\n", "\n");
  }

  /** The slot closes at the template's own quote. */
  predicate SlotCloses(py: Python, model: string) {
    SlotRead(py, model).Parsed? && SlotRead(py, model).rest == AFTER_MODEL
  }

  lemma ClosedSlotReads(py: Python, model: string)
    requires SlotCloses(py, model)
    ensures ReadPairs(py, ModelLine(model))
            == Parsed([Field("model", Str(SlotRead(py, model).value))] + [Field("permission", PERMISSIONS)], "\n")
  {
    ModelLineReads(py, model);
    LastLineReads(py);
    NextPair(py, ModelLine(model), Field("model", Str(SlotRead(py, model).value)), "\n  ", PermissionLine());
  }

  /** Then the document is the intended one, with the slot as it reads for a model. */
  lemma ClosedSlotRenders(py: Python, provider: string, model: string, block: Json)
    requires JsonPlain(provider) && Simple(block) && WellFormed(block) && SlotCloses(py, model)
    ensures Loads(py, Rendered(provider, model, block)) == Some(Document(provider, SlotRead(py, model).value, block))
  {
    RenderedReads(py, provider, model, block);
    ClosedSlotReads(py, model);
    assert SkipBlanks("\n") == "";
    DocumentPairs(provider, SlotRead(py, model).value, block);
  }

  lemma DocumentPairs(provider: string, model: string, block: Json)
    ensures var after := [Field("model", Str(model))] + [Field("permission", PERMISSIONS)];
            FromPairs([ProviderField(provider, block)] + after)
            == Document(provider, model, block).fields
  {
    var pairs := [ProviderField(provider, block)] + ([Field("model", Str(model))] + [Field("permission", PERMISSIONS)]);
    assert pairs == Document(provider, model, block).fields;
    DistinctPairsStay(pairs);
  }

  lemma AfterModelIsPlainLine()
    ensures |AFTER_MODEL| >= 2 && PlainChar(AFTER_MODEL[0]) && AFTER_MODEL[1] == '\n'
  {
  }

  /** A plain model reads as itself. */
  lemma PlainSlotCloses(py: Python, model: string)
    requires JsonPlain(model)
    ensures SlotCloses(py, model) && SlotRead(py, model).value == model
  {
    PlainReadsBack(py, model, AFTER_MODEL);
  }

  // ---------------------------------------------------------------- slots that are not plain

  lemma NoBackslashLine(key: string, rest: string)
    requires '\\' !in key && '\\' !in rest
    ensures '\\' !in Line(key, rest)
  {
  }

  lemma NoBackslashAllow(rest: string)
    requires '\\' !in rest
    ensures '\\' !in Allow(rest)
  {
  }

  lemma {:induction false} NoBackslashAllowed(keys: seq<string>, rest: string)
    requires keys != [] && '\\' !in rest && forall i :: 0 <= i < |keys| ==> '\\' !in keys[i]
    ensures '\\' !in AllowText(keys, rest)
    decreases |keys|
  {
    if |keys| > 1 { NoBackslashAllowed(keys[1..], rest); }
    var after := if |keys| == 1 then "}" + rest else "," + (" " + AllowText(keys[1..], rest));
    assert '\\' !in after;
    NoBackslashAllow(after);
    NoBackslashLine(keys[0], Allow(after));
  }

  lemma NoBackslashAfterModel()
    ensures '\\' !in AFTER_MODEL
  {
    AllowedKeys();
    forall i | 0 <= i < |ALLOWED| ensures '\\' !in ALLOWED[i] { PlainHasNoBackslash(ALLOWED[i]); }
    NoBackslashAllowed(ALLOWED, "\n" + ("}" + "\n"));
    var text := AllowText(ALLOWED, "\n" + ("}" + "\n"));
    assert '\\' !in "{" + text;
    NoBackslashLine("permission", "{" + text);
  }

  lemma PlainHasNoBackslash(s: string)
    requires JsonPlain(s)
    ensures '\\' !in s
  {
  }

  /** No string opened after the slot began reads as the model. */
  lemma NotReadAt(py: Python, model: string, j: nat)
    requires !JsonPlain(model) && 0 < j <= |model + ("\"" + AFTER_MODEL)|
    ensures var r := ReadBody(py, (model + ("\"" + AFTER_MODEL))[j..]); r.Parsed? ==> r.value != model
  {
    var t := model + ("\"" + AFTER_MODEL);
    AfterModelIsPlainLine();
    if j <= |model| {
      assert t[j..] == model[j..] + ("\"" + AFTER_MODEL);
      SlotIsBounded(py, model[j..], AFTER_MODEL);
    } else if j == |model| + 1 {
      assert t[j..] == AFTER_MODEL;
      NothingPastTheSlot(py, AFTER_MODEL);
    } else {
      var u := AFTER_MODEL[j - |model| - 1..];
      assert t[j..] == u;
      NoBackslashAfterModel();
      assert '\\' !in u;
      PlainWithoutBackslash(py, u);
    }
  }

  lemma NotReadAgain(py: Python, model: string, r: string)
    requires !JsonPlain(model) && IsSuffix(r, model + ("\"" + AFTER_MODEL)) && |r| < |model + ("\"" + AFTER_MODEL)|
    ensures !ReadsSomewhere(py, r, model)
  {
    var t := model + ("\"" + AFTER_MODEL);
    forall i ensures !ReadsAt(py, r, model, i) {
      if 0 <= i < |r| {
        var j := |t| - |r| + i + 1;
        assert r[i + 1..] == t[j..];
        NotReadAt(py, model, j);
      }
    }
  }

  /** Of the members from the model line on, none is the model as it was meant. */
  lemma ModelLineNeverSays(py: Python, model: string, k: nat)
    requires !JsonPlain(model) && ReadPairs(py, ModelLine(model)).Parsed? && k < |ReadPairs(py, ModelLine(model)).value|
    ensures ReadPairs(py, ModelLine(model)).value[k].value != Str(model)
    ensures ReadPairs(py, ModelLine(model)).value[0].key == "model"
  {
    var t := ModelLine(model);
    ModelLineReads(py, model);
    AfterModelIsPlainLine();
    SlotReadsBackIffPlain(py, model, AFTER_MODEL);
    assert ReadPairs(py, t).value[0] == ReadMember(py, t).value;
    if k > 0 && ReadPairs(py, t).value[k].value.Str? {
      var next := MorePairs(py, t);
      BodyLeavesSuffix(py, model + ("\"" + AFTER_MODEL));
      SuffixOfSuffix(next, SlotRead(py, model).rest, model + ("\"" + AFTER_MODEL));
      NotReadAgain(py, model, next);
      assert ReadPairs(py, t).value[k] == ReadPairs(py, next).value[k - 1];
      PairValueReads(py, next, k - 1);
    }
  }

  /** A slot that is not plain never renders the model it was given. */
  lemma TornSlotNeverRenders(py: Python, provider: string, model: string, block: Json)
    requires JsonPlain(provider) && Simple(block) && WellFormed(block) && !JsonPlain(model)
    ensures var r := Loads(py, Rendered(provider, model, block));
            r.Some? ==> r.value.Obj? && Has(r.value.fields, "model") && Get(r.value.fields, "model") != Str(model)
  {
    RenderedReads(py, provider, model, block);
    var more := ReadPairs(py, ModelLine(model));
    if more.Parsed? {
      var pairs := [ProviderField(provider, block)] + more.value;
      ModelLineNeverSays(py, model, 0);
      LastPairWins(pairs, "model");
      assert pairs[1] == more.value[0];
      forall k | 0 <= k < |pairs| ensures pairs[k].value != Str(model) {
        if k > 0 { ModelLineNeverSays(py, model, k - 1); }
      }
    }
  }

  // ---------------------------------------------------------------- two ways to raise

  lemma {:induction false} PlainPrefixReads(py: Python, s: string, t: string)
    requires JsonPlain(s)
    ensures var r := ReadBody(py, t);
            ReadBody(py, s + t) == if r.Failed? then Failed else Parsed(s + r.value, r.rest)
    decreases |s|
  {
    if s == "" {
      assert s + t == t;
      assert ReadBody(py, t).Parsed? ==> s + ReadBody(py, t).value == ReadBody(py, t).value;
    } else {
      PlainPrefixReads(py, s[1..], t);
      PlainHeadReads(py, s, t);
    }
  }

  lemma PlainHeadReads(py: Python, s: string, t: string)
    requires JsonPlain(s) && s != ""
    ensures var more := ReadBody(py, s[1..] + t);
            ReadBody(py, s + t) == if more.Failed? then Failed else Parsed([s[0]] + more.value, more.rest)
    ensures forall u :: [s[0]] + (s[1..] + u) == s + u
  {
    assert (s + t)[0] == s[0] && (s + t)[1..] == s[1..] + t;
  }

  lemma SlotText(x: string, c: string, y: string)
    ensures x + (c + y) + ("\"" + AFTER_MODEL) == x + (c + (y + ("\"" + AFTER_MODEL)))
  {
  }

  /** A quote in the model with more text right after it. */
  lemma QuoteRaises(py: Python, provider: string, x: string, y: string, block: Json)
    requires JsonPlain(provider) && Simple(block) && WellFormed(block)
    requires JsonPlain(x) && y != "" && !IsSpace(y[0]) && y[0] != ',' && y[0] != '}'
    ensures Loads(py, Rendered(provider, x + ("\"" + y), block)) == None
  {
    var model, after := x + ("\"" + y), y + ("\"" + AFTER_MODEL);
    RenderedReads(py, provider, model, block);
    SlotText(x, "\"", y);
    PlainReadsBack(py, x, after);
    ModelLineReads(py, model);
    assert after[0] == y[0] && SkipBlanks(after) == after;
  }

  /** A backslash in the model with no escape letter after it. */
  lemma BackslashRaises(py: Python, provider: string, x: string, y: string, block: Json)
    requires JsonPlain(provider) && Simple(block) && WellFormed(block)
    requires JsonPlain(x) && y != "" && y[0] !in "\"\\/bfnrtu"
    ensures Loads(py, Rendered(provider, x + ("\\" + y), block)) == None
  {
    var model, after := x + ("\\" + y), y + ("\"" + AFTER_MODEL);
    RenderedReads(py, provider, model, block);
    SlotText(x, "\\", y);
    assert after[0] == y[0] && ("\\" + after)[1..] == after;
    assert ReadEscape(py, after).Failed?;
    PlainPrefixReads(py, x, "\\" + after);
    ModelLineReads(py, model);
  }
}
