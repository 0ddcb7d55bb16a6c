/**
  Secret scrubbing of app/orchestrator/run_review.py: sequential replacement of secrets in
  text, lifted to parsed JSON.  The exact condition on a secret under which no replacement can
  ever leave or recreate it.
 */
module Scrub {
  import opened Wrappers
  import opened Text
  import opened Json

  const MIN_SCRUB_LEN := 8
  const STARS := "***"

  predicate Effective(secret: string) {
    |secret| >= MIN_SCRUB_LEN
  }

  function ScrubOne(text: string, secret: string): string {
    if Effective(secret) then Replace(text, secret, STARS) else text
  }

  /** The loop of scrub_secrets: each secret in turn, on the result of the previous ones. */
  function ScrubSecrets(text: string, secrets: seq<string>): string {
    if secrets == [] then text
    else ScrubOne(ScrubSecrets(text, secrets[..|secrets| - 1]), secrets[|secrets| - 1])
  }

  /** The replacement can neither overlap an end of the secret nor appear inside it. */
  predicate StarSafe(secret: string) {
    && secret != "" && secret[0] != '*' && secret[|secret| - 1] != '*'
    && !Contains(secret, STARS)
  }

  predicate AllSafe(secrets: seq<string>) {
    forall k :: 0 <= k < |secrets| && Effective(secrets[k]) ==> StarSafe(secrets[k])
  }

  // ---------------------------------------------------------------- completeness

  /** Where an occurrence of a star-safe word can lie in a ++ "***" ++ b. */
  lemma OccurrenceAvoidsStars(a: string, b: string, w: string, i: int)
    requires StarSafe(w) && MatchesAt(a + STARS + b, w, i)
    ensures i + |w| <= |a| || i >= |a| + |STARS|
  {
    var t := a + STARS + b;
    var n := |a|;
    assert t[n] == t[n + 1] == t[n + 2] == '*';
    if i < n && i + |w| > n + 3 {
      ContainsAt(w, STARS, n - i);
    }
  }

  /** One replacement: what is left of it, the stars, and a clean rest are clean together. */
  lemma JoinKeepsOut(t: string, s: string, w: string, k: nat, b: string)
    requires s != "" && StarSafe(w) && (s == w || !Contains(t, w))
    requires MatchesAt(t, s, k) && (forall j :: 0 <= j < k ==> !MatchesAt(t, s, j))
    requires !Contains(b, w)
    ensures !Contains(t[..k] + STARS + b, w)
  {
    var out := t[..k] + STARS + b;
    forall i | 0 <= i <= |out| ensures !MatchesAt(out, w, i) {
      if MatchesAt(out, w, i) {
        OccurrenceAvoidsStars(t[..k], b, w, i);
      }
      if i + |w| <= k || i >= k + 3 {
        NoOccurrenceAround(t, s, w, k, b, i);
      }
    }
  }

  /** Replacing s neither leaves s behind nor creates a star-safe w that was not there. */
  lemma {:induction false} ReplaceKeepsOut(t: string, s: string, w: string)
    requires s != "" && StarSafe(w) && (s == w || !Contains(t, w))
    ensures !Contains(Replace(t, s, STARS), w)
    decreases |t|
  {
    var k := Find(t, s, 0);
    if k.Some? {
      var rest := t[k.value + |s|..];
      assert rest == t[k.value + |s|..|t|];
      if s != w && Contains(rest, w) { SliceContains(t, k.value + |s|, |t|, w); }
      ReplaceKeepsOut(rest, s, w);
      JoinKeepsOut(t, s, w, k.value, Replace(rest, s, STARS));
    }
  }

  lemma NoOccurrenceAround(t: string, s: string, w: string, k: nat, b: string, i: int)
    requires s != "" && w != "" && MatchesAt(t, s, k) && (forall j :: 0 <= j < k ==> !MatchesAt(t, s, j))
    requires s == w || !Contains(t, w)
    requires !Contains(b, w)
    requires i + |w| <= k || i >= k + 3
    ensures !MatchesAt(t[..k] + STARS + b, w, i)
  {
    var out := t[..k] + STARS + b;
    if 0 <= i && i + |w| <= k {
      assert MatchesAt(out, w, i) == MatchesAt(t, w, i);
      assert !MatchesAt(t, w, i);
    } else if i >= k + 3 && i + |w| <= |out| {
      assert MatchesAt(out, w, i) == MatchesAt(b, w, i - k - 3);
    }
  }

  /** After scrubbing, a star-safe secret is left nowhere in the text, whatever the other secrets are. */
  lemma {:induction false} ScrubRemovesSecrets(text: string, secrets: seq<string>, k: nat)
    requires k < |secrets| && Effective(secrets[k]) && StarSafe(secrets[k])
    ensures !Contains(ScrubSecrets(text, secrets), secrets[k])
    decreases |secrets|
  {
    var n := |secrets| - 1;
    var before := ScrubSecrets(text, secrets[..n]);
    if k < n {
      ScrubRemovesSecrets(text, secrets[..n], k);
    }
    if Effective(secrets[n]) {
      ReplaceKeepsOut(before, secrets[n], secrets[k]);
    }
  }

  predicate Clean(text: string, secrets: seq<string>) {
    forall k :: 0 <= k < |secrets| && Effective(secrets[k]) ==> !Contains(text, secrets[k])
  }

  lemma ScrubIsClean(text: string, secrets: seq<string>)
    requires AllSafe(secrets)
    ensures Clean(ScrubSecrets(text, secrets), secrets)
  {
    forall k | 0 <= k < |secrets| && Effective(secrets[k])
      ensures !Contains(ScrubSecrets(text, secrets), secrets[k])
    {
      ScrubRemovesSecrets(text, secrets, k);
    }
  }

  /** Text free of secrets is left alone. */
  lemma {:induction false} CleanTextUnchanged(text: string, secrets: seq<string>)
    requires Clean(text, secrets)
    ensures ScrubSecrets(text, secrets) == text
    decreases |secrets|
  {
    if secrets != [] {
      var n := |secrets| - 1;
      assert Clean(text, secrets[..n]) by {
        assert forall k :: 0 <= k < n ==> secrets[..n][k] == secrets[k];
      }
      CleanTextUnchanged(text, secrets[..n]);
      if Effective(secrets[n]) { NoMatchNoReplace(text, secrets[n], STARS); }
    }
  }

  lemma ScrubTwice(text: string, secrets: seq<string>)
    requires AllSafe(secrets)
    ensures ScrubSecrets(ScrubSecrets(text, secrets), secrets) == ScrubSecrets(text, secrets)
  {
    ScrubIsClean(text, secrets);
    CleanTextUnchanged(ScrubSecrets(text, secrets), secrets);
  }

  // ---------------------------------------------------------------- what is kept

  /** One secret of at least 8 characters: no occurrence, no change. */
  lemma AbsentSecret(text: string, secret: string)
    requires !Contains(text, secret)
    ensures ScrubSecrets(text, [secret]) == text
  {
    OneSecret(text, secret);
    if |secret| >= 8 { NoMatchNoReplace(text, secret, STARS); }
  }

  lemma OneSecret(text: string, secret: string)
    ensures ScrubSecrets(text, [secret]) == if |secret| >= 8 then Replace(text, secret, "***") else text
  {
    assert [secret][..0] == [];
  }

  /**
    The first occurrence becomes three stars, the text before it stays, and the scrubbing goes
    on right behind it.  With AbsentSecret this determines the scrubbing of every text.
   */
  lemma FirstOccurrence(before: string, secret: string, rest: string)
    requires |secret| >= 8
    requires forall i :: 0 <= i < |before| ==> !MatchesAt(before + secret, secret, i)
    ensures ScrubSecrets(before + (secret + rest), [secret]) == before + ("***" + ScrubSecrets(rest, [secret]))
  {
    OneSecret(before + (secret + rest), secret);
    OneSecret(rest, secret);
    ReplaceFirst(before, secret, rest, STARS);
  }

  /** Secrets shorter than 8 characters are not scrubbed at all. */
  lemma ShortSecretStays(text: string, secret: string)
    requires |secret| < 8
    ensures ScrubSecrets(text, [secret]) == text
  {
    OneSecret(text, secret);
  }

  /** Secrets are scrubbed in the order of the list, each from the result of those before it. */
  lemma {:induction false} InListOrder(text: string, first: seq<string>, second: seq<string>)
    ensures ScrubSecrets(text, first + second) == ScrubSecrets(ScrubSecrets(text, first), second)
    decreases |second|
  {
    if second == [] {
      assert first + second == first;
    } else {
      var n := |second| - 1;
      assert (first + second)[..|first| + n] == first + second[..n];
      InListOrder(text, first, second[..n]);
    }
  }

  // ---------------------------------------------------------------- the condition is exact

  /**
    For a secret that is not star-safe, LeakBefore(s) + s + LeakAfter(s) is a text whose
    scrubbing still shows the secret.
   */
  function LeakBefore(s: string): string
    requires s != ""
  {
    if s[0] == '*' then ""
    else if s[|s| - 1] == '*' then s[..|s| - 1]
    else
      var p := Find(s, STARS, 0);
      if p.Some? then s[..p.value] else ""
  }

  function LeakAfter(s: string): string
    requires s != ""
  {
    if s[0] == '*' then s[1..]
    else if s[|s| - 1] == '*' then ""
    else
      var p := Find(s, STARS, 0);
      if p.Some? then s[p.value + 3..] else ""
  }

  /** Replacing in a ++ s ++ b, when s does not occur earlier and b is too short for it. */
  lemma ReplaceOnce(a: string, s: string, b: string)
    requires s != "" && |b| < |s|
    requires forall i :: 0 <= i < |a| ==> !MatchesAt(a + s + b, s, i)
    ensures Replace(a + s + b, s, STARS) == a + STARS + b
  {
    var t := a + s + b;
    var k := Find(t, s, 0);
    assert MatchesAt(t, s, |a|);
    assert k == Some(|a|);
    assert t[..|a|] == a && t[|a| + |s|..] == b;
    NoMatchNoReplace(b, s, STARS);
  }

  /** s ends with a star but does not begin with one: it does not occur early in s[..n-1] ++ s. */
  lemma NothingBeforeBack(s: string, k: nat)
    requires s != "" && s[0] != '*' && s[|s| - 1] == '*' && k < |s| - 1
    ensures !MatchesAt(s[..|s| - 1] + s, s, k)
  {
    var n := |s|;
    var t := s[..n - 1] + s;
    assert t[k + 0] == s[k] && t[k + (n - 1)] == s[k];
  }

  /** s first shows three stars at p: it does not occur early in s[..p] ++ s ++ anything. */
  lemma NothingBeforeInside(s: string, p: nat, b: string, k: nat)
    requires MatchesAt(s, STARS, p) && k < p && !MatchesAt(s, STARS, k)
    ensures !MatchesAt(s[..p] + s + b, s, k)
  {
    var t := s[..p] + s + b;
    assert s[p + 0] == STARS[0] && s[p + 1] == STARS[1] && s[p + 2] == STARS[2];
    assert t[k + p] == s[k] && t[k + (p + 1)] == s[k + 1] && t[k + (p + 2)] == s[k + 2];
    var x, y, z := t[k + p], t[k + (p + 1)], t[k + (p + 2)];
    assert MatchesAt(t, s, k) ==> x == y == z == '*';
    assert s[k] == '*' && s[k + 1] == '*' && s[k + 2] == '*' ==> MatchesAt(s, STARS, k);
  }

  /** The secret does not occur before its deliberate occurrence. */
  lemma NothingBeforeLeak(s: string, k: nat)
    requires s != "" && !StarSafe(s) && k < |LeakBefore(s)|
    ensures !MatchesAt(LeakBefore(s) + s + LeakAfter(s), s, k)
  {
    if s[|s| - 1] == '*' {
      NothingBeforeBack(s, k);
      assert LeakBefore(s) + s + LeakAfter(s) == s[..|s| - 1] + s;
    } else {
      NothingBeforeInside(s, |LeakBefore(s)|, LeakAfter(s), k);
    }
  }

  lemma LeakShowsSecret(s: string)
    requires s != "" && !StarSafe(s)
    ensures |LeakAfter(s)| < |s|
    ensures Contains(LeakBefore(s) + STARS + LeakAfter(s), s)
  {
    var out := LeakBefore(s) + STARS + LeakAfter(s);
    if s[0] == '*' {
      ContainsAt(out, s, 2);
    } else if s[|s| - 1] == '*' {
      ContainsAt(out, s, 0);
    } else {
      assert MatchesAt(s, STARS, |LeakBefore(s)|);
      assert out == s;
      ContainsAt(out, s, 0);
    }
  }

  lemma ScrubLeaks(s: string) returns (t: string)
    requires Effective(s) && !StarSafe(s)
    ensures Contains(ScrubSecrets(t, [s]), s)
  {
    t := LeakBefore(s) + s + LeakAfter(s);
    LeakShowsSecret(s);
    forall k | 0 <= k < |LeakBefore(s)| ensures !MatchesAt(t, s, k) { NothingBeforeLeak(s, k); }
    ReplaceOnce(LeakBefore(s), s, LeakAfter(s));
    assert [s][..0] == [];
    assert ScrubSecrets(t, [s]) == Replace(t, s, STARS);
  }

  /** Scrubbing the text for this one secret leaves no trace of it. */
  predicate Hides(secret: string, text: string) {
    !Contains(ScrubSecrets(text, [secret]), secret)
  }

  /**
    Scrubbing one secret removes it from every text if and only if the secret neither begins
    nor ends with a star nor contains three stars in a row.
   */
  lemma CompleteIffStarSafe(secret: string)
    requires Effective(secret)
    ensures (forall text :: Hides(secret, text)) <==> StarSafe(secret)
  {
    if StarSafe(secret) {
      forall text ensures Hides(secret, text) {
        ScrubRemovesSecrets(text, [secret], 0);
      }
    } else {
      var leak := ScrubLeaks(secret);
      assert !Hides(secret, leak);
    }
  }

  // ---------------------------------------------------------------- JSON trees

  /** scrub_json: strings, keys and values alike; a key that collides after scrubbing overwrites. */
  function ScrubJson(v: Json, secrets: seq<string>): Json {
    match v
    case Str(s) => Str(ScrubSecrets(s, secrets))
    case Arr(items) => Arr(seq(|items|, i requires 0 <= i < |items| => ScrubJson(items[i], secrets)))
    case Obj(fields) => Obj(ScrubFields(fields, secrets))
    case _ => v
  }

  function ScrubFields(fields: seq<Field>, secrets: seq<string>): seq<Field> {
    if fields == [] then []
    else
      var last := fields[|fields| - 1];
      Put(ScrubFields(fields[..|fields| - 1], secrets),
          ScrubSecrets(last.key, secrets), ScrubJson(last.value, secrets))
  }

  /** No secret in any key or string at any depth. */
  ghost predicate CleanJson(v: Json, secrets: seq<string>) {
    match v
    case Str(s) => Clean(s, secrets)
    case Arr(items) => forall i :: 0 <= i < |items| ==> CleanJson(items[i], secrets)
    case Obj(fields) =>
      forall i :: 0 <= i < |fields| ==> Clean(fields[i].key, secrets) && CleanJson(fields[i].value, secrets)
    case _ => true
  }

  /** Scrubbed JSON is clean at every depth and its objects have distinct keys. */
  lemma {:induction false} ScrubJsonIsClean(v: Json, secrets: seq<string>)
    requires AllSafe(secrets)
    ensures CleanJson(ScrubJson(v, secrets), secrets) && WellFormed(ScrubJson(v, secrets))
  {
    match v
    case Str(s) => ScrubIsClean(s, secrets);
    case Arr(items) =>
      forall i | 0 <= i < |items|
        ensures CleanJson(ScrubJson(items[i], secrets), secrets) && WellFormed(ScrubJson(items[i], secrets))
      {
        ScrubJsonIsClean(items[i], secrets);
      }
    case Obj(fields) => ScrubFieldsAreClean(fields, secrets);
    case _ =>
  }

  lemma {:induction false} ScrubFieldsAreClean(fields: seq<Field>, secrets: seq<string>)
    requires AllSafe(secrets)
    ensures CleanJson(Obj(ScrubFields(fields, secrets)), secrets)
    ensures WellFormed(Obj(ScrubFields(fields, secrets)))
  {
    if fields != [] {
      var n := |fields| - 1;
      var rest := ScrubFields(fields[..n], secrets);
      ScrubFieldsAreClean(fields[..n], secrets);
      ScrubIsClean(fields[n].key, secrets);
      ScrubJsonIsClean(fields[n].value, secrets);
      PutSpec(rest, ScrubSecrets(fields[n].key, secrets), ScrubJson(fields[n].value, secrets));
    }
  }

  /** Clean JSON with distinct keys is left alone. */
  lemma {:induction false} CleanJsonUnchanged(v: Json, secrets: seq<string>)
    requires CleanJson(v, secrets) && WellFormed(v)
    ensures ScrubJson(v, secrets) == v
  {
    match v
    case Str(s) => CleanTextUnchanged(s, secrets);
    case Arr(items) =>
      forall i | 0 <= i < |items| ensures ScrubJson(items[i], secrets) == items[i] {
        CleanJsonUnchanged(items[i], secrets);
      }
      assert ScrubJson(v, secrets).items == items;
    case Obj(fields) => CleanFieldsUnchanged(fields, secrets);
    case _ =>
  }

  lemma {:induction false} CleanFieldsUnchanged(fields: seq<Field>, secrets: seq<string>)
    requires DistinctKeys(fields)
    requires forall i :: 0 <= i < |fields| ==>
               && Clean(fields[i].key, secrets)
               && CleanJson(fields[i].value, secrets) && WellFormed(fields[i].value)
    ensures ScrubFields(fields, secrets) == fields
  {
    if fields != [] {
      var n := |fields| - 1;
      var last := fields[n];
      CleanFieldsUnchanged(fields[..n], secrets);
      CleanTextUnchanged(last.key, secrets);
      CleanJsonUnchanged(last.value, secrets);
      assert IndexOf(fields[..n], last.key).None?;
      assert fields == fields[..n] + [last];
    }
  }

  lemma ScrubJsonTwice(v: Json, secrets: seq<string>)
    requires AllSafe(secrets)
    ensures ScrubJson(ScrubJson(v, secrets), secrets) == ScrubJson(v, secrets)
  {
    ScrubJsonIsClean(v, secrets);
    CleanJsonUnchanged(ScrubJson(v, secrets), secrets);
  }

  /** The last field whose key scrubs to `key`. */
  function LastWith(fields: seq<Field>, secrets: seq<string>, key: string): (k: Option<nat>)
    ensures k.Some? ==> k.value < |fields| && ScrubSecrets(fields[k.value].key, secrets) == key
    ensures k.Some? ==> forall j :: k.value < j < |fields| ==> ScrubSecrets(fields[j].key, secrets) != key
    ensures k.None? ==> forall j :: 0 <= j < |fields| ==> ScrubSecrets(fields[j].key, secrets) != key
  {
    if fields == [] then None
    else if ScrubSecrets(fields[|fields| - 1].key, secrets) == key then Some(|fields| - 1)
    else LastWith(fields[..|fields| - 1], secrets, key)
  }

  /**
    What scrubbing keeps of an object: it maps exactly the scrubbed keys, each to the scrubbed
    value of the last field with that scrubbed key.  (Lists keep their length and non-string
    leaves themselves by definition.)
   */
  lemma {:induction false} ScrubFieldsMeaning(fields: seq<Field>, secrets: seq<string>, key: string)
    ensures var r, k := ScrubFields(fields, secrets), LastWith(fields, secrets, key);
            && (Has(r, key) <==> k.Some?)
            && (k.Some? ==> Get(r, key) == ScrubJson(fields[k.value].value, secrets))
    decreases |fields|
  {
    if fields != [] {
      var n := |fields| - 1;
      ScrubFieldsMeaning(fields[..n], secrets, key);
      var key, value := ScrubSecrets(fields[n].key, secrets), ScrubJson(fields[n].value, secrets);
      PutSpec(ScrubFields(fields[..n], secrets), key, value);
    }
  }

  /** A list keeps its length and its order; a string is scrubbed; any other leaf stays. */
  lemma ScrubItems(v: Json, secrets: seq<string>)
    ensures v.Arr? ==> ScrubJson(v, secrets).Arr? && |ScrubJson(v, secrets).items| == |v.items|
    ensures v.Arr? ==>
              forall i :: 0 <= i < |v.items| ==> ScrubJson(v, secrets).items[i] == ScrubJson(v.items[i], secrets)
    ensures v.Str? ==> ScrubJson(v, secrets) == Str(ScrubSecrets(v.s, secrets))
    ensures v.Obj? ==> ScrubJson(v, secrets).Obj? && |ScrubJson(v, secrets).fields| <= |v.fields|
    ensures !v.Arr? && !v.Str? && !v.Obj? ==> ScrubJson(v, secrets) == v
  {
    if v.Obj? { FieldsDoNotGrow(v.fields, secrets); }
  }

  lemma {:induction false} FieldsDoNotGrow(fields: seq<Field>, secrets: seq<string>)
    ensures |ScrubFields(fields, secrets)| <= |fields|
  {
    if fields != [] { FieldsDoNotGrow(fields[..|fields| - 1], secrets); }
  }

  /** scrub_secrets as the loop it is. */
  method ScrubText(text: string, secrets: seq<string>) returns (r: string)
    ensures r == ScrubSecrets(text, secrets)
    ensures AllSafe(secrets) ==> Clean(r, secrets)
  {
    r := text;
    for k := 0 to |secrets|
      invariant r == ScrubSecrets(text, secrets[..k])
    {
      assert secrets[..k + 1][..k] == secrets[..k];
      if |secrets[k]| >= MIN_SCRUB_LEN {
        r := Replace(r, secrets[k], STARS);
      }
    }
    assert secrets[..|secrets|] == secrets;
    if AllSafe(secrets) { ScrubIsClean(text, secrets); }
  }
}
