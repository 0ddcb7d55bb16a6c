/** Substring search and replacement as Python's str does them. */
module Text {
  import opened Wrappers

  predicate MatchesAt(t: string, w: string, i: int) {
    0 <= i && i + |w| <= |t| && forall j :: 0 <= j < |w| ==> w[j] == t[i + j]
  }

  predicate Contains(t: string, w: string) {
    exists i :: 0 <= i <= |t| && MatchesAt(t, w, i)
  }

  /** The first occurrence at or after `from`. */
  function Find(t: string, w: string, from: nat): (k: Option<nat>)
    ensures k.Some? ==> from <= k.value && MatchesAt(t, w, k.value)
                        && forall i :: from <= i < k.value ==> !MatchesAt(t, w, i)
    ensures k.None? ==> forall i :: from <= i ==> !MatchesAt(t, w, i)
    decreases |t| - from
  {
    if from + |w| > |t| then None
    else if MatchesAt(t, w, from) then Some(from)
    else Find(t, w, from + 1)
  }

  lemma {:induction false} FindFirst(t: string, w: string, from: nat, k: nat)
    requires from <= k && MatchesAt(t, w, k) && forall i :: from <= i < k ==> !MatchesAt(t, w, i)
    ensures Find(t, w, from) == Some(k)
    decreases k - from
  {
    if from < k { FindFirst(t, w, from + 1, k); }
  }

  /** t.replace(w, mark) for a non-empty w: leftmost, non-overlapping. */
  function Replace(t: string, w: string, mark: string): string
    requires w != ""
    decreases |t|
  {
    var k := Find(t, w, 0);
    if k.None? then t
    else t[..k.value] + mark + Replace(t[k.value + |w|..], w, mark)
  }

  lemma ContainsAt(t: string, w: string, i: int)
    requires MatchesAt(t, w, i)
    ensures Contains(t, w)
  {
  }

  lemma {:induction false} NoMatchNoReplace(t: string, w: string, mark: string)
    requires w != "" && !Contains(t, w)
    ensures Replace(t, w, mark) == t
  {
    var k := Find(t, w, 0);
    assert k.Some? ==> MatchesAt(t, w, k.value);
  }

  /** The text before the first occurrence is kept, and the replacing goes on right behind it. */
  lemma {:induction false} ReplaceFirst(before: string, w: string, rest: string, mark: string)
    requires w != "" && forall i :: 0 <= i < |before| ==> !MatchesAt(before + w, w, i)
    ensures Replace(before + (w + rest), w, mark) == before + (mark + Replace(rest, w, mark))
  {
    FoundBehind(before, w, rest);
    Pieces(before, w, rest);
    ReplaceStep(before + (w + rest), w, mark, before, rest);
  }

  lemma {:induction false} FoundBehind(before: string, w: string, rest: string)
    requires forall i :: 0 <= i < |before| ==> !MatchesAt(before + w, w, i)
    ensures Find(before + (w + rest), w, 0) == Some(|before|)
  {
    var t, n := before + (w + rest), |before|;
    forall i | 0 <= i < n ensures !MatchesAt(t, w, i) { FrontMatches(before, w, rest, i); }
    assert MatchesAt(t, w, n);
    FindFirst(t, w, 0, n);
  }

  lemma Pieces(before: string, w: string, rest: string)
    ensures (before + (w + rest))[..|before|] == before && (before + (w + rest))[|before| + |w|..] == rest
  {
  }

  lemma Grouped(a: string, b: string, c: string)
    ensures a + b + c == a + (b + c)
  {
  }

  lemma {:induction false} ReplaceStep(t: string, w: string, mark: string, before: string, rest: string)
    requires w != "" && Find(t, w, 0) == Some(|before|)
    requires t[..|before|] == before && t[|before| + |w|..] == rest
    ensures Replace(t, w, mark) == before + (mark + Replace(rest, w, mark))
  {
    Grouped(before, mark, Replace(rest, w, mark));
  }

  /** Whether a word occurs that early does not depend on the rest. */
  lemma FrontMatches(before: string, w: string, rest: string, i: int)
    requires 0 <= i <= |before|
    ensures MatchesAt(before + (w + rest), w, i) == MatchesAt(before + w, w, i)
  {
    assert forall j :: 0 <= j < |before| + |w| ==> (before + (w + rest))[j] == (before + w)[j];
  }

  /** An occurrence in a slice is an occurrence in the whole. */
  lemma SliceContains(t: string, lo: nat, hi: nat, w: string)
    requires lo <= hi <= |t| && Contains(t[lo..hi], w)
    ensures Contains(t, w)
  {
    var i :| 0 <= i <= hi - lo && MatchesAt(t[lo..hi], w, i);
    ContainsAt(t, w, lo + i);
  }

  predicate IsSpace(c: char) {
    c in " \t\n\r"
  }

  predicate IsDigit(c: char) {
    '0' <= c <= '9'
  }

  /** strip() of the characters chosen by `drop`. */
  function Strip(s: string, drop: char -> bool): (r: string)
    ensures r != "" ==> !drop(r[0]) && !drop(r[|r| - 1])
    ensures forall c :: c in r ==> c in s
    decreases |s|
  {
    if s == "" then ""
    else if drop(s[0]) then Strip(s[1..], drop)
    else if drop(s[|s| - 1]) then Strip(s[..|s| - 1], drop)
    else s
  }

  /** Exactly the two ends go, however many characters they have; what is between them stays. */
  lemma {:induction false} StripEnds(front: string, middle: string, back: string, drop: char -> bool)
    requires forall i :: 0 <= i < |front| ==> drop(front[i])
    requires forall i :: 0 <= i < |back| ==> drop(back[i])
    requires middle != "" ==> !drop(middle[0]) && !drop(middle[|middle| - 1])
    ensures Strip(front + (middle + back), drop) == middle
    decreases |front| + |back|
  {
    var s := front + (middle + back);
    if front != "" {
      assert s[1..] == front[1..] + (middle + back);
      StripEnds(front[1..], middle, back, drop);
    } else if middle == "" {
      assert s == back;
      StripToNothing(back, drop);
    } else if back != "" {
      assert s[..|s| - 1] == front + (middle + back[..|back| - 1]);
      StripEnds(front, middle, back[..|back| - 1], drop);
    } else {
      assert s == middle;
    }
  }

  lemma {:induction false} StripIdle(s: string, drop: char -> bool)
    requires s == "" || (!drop(s[0]) && !drop(s[|s| - 1]))
    ensures Strip(s, drop) == s
  {
  }

  lemma {:induction false} StripToNothing(s: string, drop: char -> bool)
    ensures Strip(s, drop) == "" <==> forall i :: 0 <= i < |s| ==> drop(s[i])
    decreases |s|
  {
    if s == "" {
    } else if drop(s[0]) {
      StripToNothing(s[1..], drop);
      assert forall i :: 0 < i < |s| ==> s[i] == s[1..][i - 1];
      assert forall i :: 0 <= i < |s| - 1 ==> s[1..][i] == s[i + 1];
    } else if drop(s[|s| - 1]) {
      StripToNothing(s[..|s| - 1], drop);
    }
  }
}
