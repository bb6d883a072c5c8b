/** The two pieces of Java string behaviour the services rely on: `%s` applied
    to a `Long` (decimal, with a leading '-' for negatives) and the case-blind
    comparison behind `findByEmailIgnoreCase`. */
module Strings {

  predicate IsDigit(c: char) {
    '0' <= c <= '9'
  }

  function DigitChar(d: nat): (c: char)
    requires d < 10
    ensures IsDigit(c) && c as int - '0' as int == d
  {
    (d + '0' as int) as char
  }

  /** Decimal digits of `n`, most significant first, without leading zeros. */
  function NatToString(n: nat): (s: string)
    ensures |s| > 0
    ensures forall i :: 0 <= i < |s| ==> IsDigit(s[i])
  {
    if n < 10 then [DigitChar(n)] else NatToString(n / 10) + [DigitChar(n % 10)]
  }

  /** What `String.format("%s", id)` prints for a `Long` id: a '-' exactly
      for a negative id, then decimal digits only. */
  function IntToString(n: int): (s: string)
    ensures |s| > 0
    ensures s[0] == '-' <==> n < 0
    ensures forall i :: (if n < 0 then 1 else 0) <= i < |s| ==> IsDigit(s[i])
  {
    if n < 0 then "-" + NatToString(-n) else NatToString(n)
  }

  /** Reads back a run of decimal digits. */
  function ParseDigits(s: string): nat
    requires forall i :: 0 <= i < |s| ==> IsDigit(s[i])
  {
    if s == [] then 0
    else
      assert IsDigit(s[|s| - 1]);
      ParseDigits(s[..|s| - 1]) * 10 + (s[|s| - 1] as int - '0' as int)
  }

  lemma {:induction false} ParseNatToString(n: nat)
    ensures ParseDigits(NatToString(n)) == n
  {
    var s := NatToString(n);
    if n >= 10 {
      ParseNatToString(n / 10);
      assert s[..|s| - 1] == NatToString(n / 10);
    }
  }

  /** Different ids never print the same: a message that names an id names
      exactly that id. */
  lemma IntToStringInjective(a: int, b: int)
    ensures IntToString(a) == IntToString(b) ==> a == b
  {
    var sa, sb := IntToString(a), IntToString(b);
    if (a < 0) != (b < 0) {
      assert sa[0] != sb[0];
    } else if a < 0 {
      assert sa[1..] == NatToString(-a) && sb[1..] == NatToString(-b);
      ParseNatToString(-a);
      ParseNatToString(-b);
    } else {
      ParseNatToString(a);
      ParseNatToString(b);
    }
  }

  /** ASCII upper-casing of one character; other characters are unchanged. */
  function ToUpper(c: char): char {
    if 'a' <= c <= 'z' then (c as int - 'a' as int + 'A' as int) as char else c
  }

  function UpperCase(s: string): (r: string)
    ensures |r| == |s|
    ensures forall i :: 0 <= i < |s| ==> r[i] == ToUpper(s[i])
  {
    if s == [] then [] else [ToUpper(s[0])] + UpperCase(s[1..])
  }

  /** Upper-casing twice is upper-casing once. */
  lemma UpperCaseIdempotent(s: string)
    ensures UpperCase(UpperCase(s)) == UpperCase(s)
  {
    var u := UpperCase(s);
    assert forall i :: 0 <= i < |u| ==> ToUpper(u[i]) == u[i];
  }

  /** Equality up to letter case, as a case-insensitive database lookup compares. */
  predicate EqualsIgnoreCase(a: string, b: string) {
    UpperCase(a) == UpperCase(b)
  }
}
