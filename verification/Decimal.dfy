/** Decimal numerals: Python's str(n), isdigit and int on ASCII text. */
module Decimal {
  import opened Text

  function Digit(d: nat): (c: char)
    requires d < 10
    ensures IsDigit(c) && c as int - '0' as int == d
  {
    '0' + d as char
  }

  function PrintNat(n: nat): (s: string)
    ensures s != ""
  {
    if n < 10 then [Digit(n)] else PrintNat(n / 10) + [Digit(n % 10)]
  }

  /** str(n) */
  function PrintInt(n: int): string {
    if n < 0 then "-" + PrintNat(-n) else PrintNat(n)
  }

  /** s.isdigit() on ASCII text */
  predicate AllDigits(s: string) {
    s != "" && forall i :: 0 <= i < |s| ==> IsDigit(s[i])
  }

  /** int(s) for a digit string */
  function ParseDigits(s: string): nat {
    if s == "" then 0
    else
      var c := s[|s| - 1];
      10 * ParseDigits(s[..|s| - 1]) + if IsDigit(c) then c as int - '0' as int else 0
  }

  lemma TenDigits(c: char)
    ensures IsDigit(c) <==> c in "0123456789"
  {
    var d := c as int - '0' as int;
    if IsDigit(c) { assert "0123456789"[d] == c; }
  }

  /** Reading digits from left to right in base ten. */
  lemma ParseLast(s: string, c: char)
    requires IsDigit(c)
    ensures ParseDigits(s + [c]) == 10 * ParseDigits(s) + (c as int - '0' as int) && ParseDigits("") == 0
  {
    assert (s + [c])[..|s|] == s;
  }

  lemma {:induction false} PrintParse(n: nat)
    ensures AllDigits(PrintNat(n)) && ParseDigits(PrintNat(n)) == n
  {
    var s := PrintNat(n);
    if n >= 10 {
      PrintParse(n / 10);
      assert s[..|s| - 1] == PrintNat(n / 10);
    } else {
      assert s[..|s| - 1] == "";
    }
  }
}
