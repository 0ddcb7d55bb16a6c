/** First occurrences in a sequence. */
module Sequences {

  function FirstAt<T(==)>(s: seq<T>, x: T): (k: nat)
    requires x in s
    ensures k < |s| && s[k] == x && forall i :: 0 <= i < k ==> s[i] != x
  {
    if s[0] == x then 0 else FirstAt(s[1..], x) + 1
  }

  lemma FirstAtPrefix<T>(s: seq<T>, n: nat, x: T)
    requires n <= |s| && x in s[..n]
    ensures x in s && FirstAt(s, x) == FirstAt(s[..n], x)
  {
    var k := FirstAt(s[..n], x);
    assert s[k] == x;
    assert forall i :: 0 <= i < k ==> s[i] == s[..n][i];
  }
}
