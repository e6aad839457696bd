/** Decimal numerals: printing, reading, and the digits at the front of a string. */
module Decimal {
  predicate IsDigit(c: char) {
    '0' <= c <= '9'
  }

  predicate AllDigits(s: string) {
    forall i :: 0 <= i < |s| ==> IsDigit(s[i])
  }

  function Value(s: string): nat
    requires AllDigits(s)
  {
    if s == "" then 0 else Value(s[..|s| - 1]) * 10 + (s[|s| - 1] as int - '0' as int)
  }

  function Digits(n: nat): (s: string)
    ensures s != "" && AllDigits(s)
  {
    var last := ('0' as int + n % 10) as char;
    if n < 10 then [last] else Digits(n / 10) + [last]
  }

  lemma {:induction false} ValueOfDigits(n: nat)
    ensures Value(Digits(n)) == n
  {
    if n >= 10 {
      ValueOfDigits(n / 10);
      assert Digits(n)[..|Digits(n)| - 1] == Digits(n / 10);
    }
  }

  /** The numeral without its leading zeros; a lone zero stays. */
  function Trimmed(s: string): string
  {
    if |s| > 1 && s[0] == '0' then Trimmed(s[1..]) else s
  }

  lemma {:induction false} TrimmedSnoc(s: string, c: char)
    requires s != ""
    ensures Trimmed(s + [c]) == if Trimmed(s) == "0" then [c] else Trimmed(s) + [c]
    decreases |s|
  {
    var longer := s + [c];
    if s[0] == '0' {
      assert longer[1..] == s[1..] + [c];
      if |s| > 1 { TrimmedSnoc(s[1..], c); } else { assert longer[1..] == [c]; assert s == "0"; }
    }
  }

  /** Reading a numeral and printing it drops exactly its leading zeros. */
  lemma {:induction false} DigitsOfValue(s: string)
    requires s != "" && AllDigits(s)
    ensures Digits(Value(s)) == Trimmed(s)
    decreases |s|
  {
    var front, last := s[..|s| - 1], s[|s| - 1];
    assert s == front + [last];
    if front != "" {
      DigitsOfValue(front);
      ZeroDigits(Value(front));
      TrimmedSnoc(front, last);
    }
  }

  lemma ZeroDigits(n: nat)
    ensures Digits(n) == "0" <==> n == 0
  {
    ValueOfDigits(n);
    assert "0"[..0] == "" && Value("0") == 0;
  }

  /** How many digits s starts with. */
  function LeadingDigits(s: string): (n: nat)
    ensures n <= |s| && AllDigits(s[..n]) && (n < |s| ==> !IsDigit(s[n]))
  {
    if s == "" || !IsDigit(s[0]) then 0
    else
      var n := 1 + LeadingDigits(s[1..]);
      assert forall i :: 1 <= i < n ==> s[i] == s[1..][i - 1];
      n
  }

  lemma {:induction false} LeadingDigitsOf(digits: string, rest: string)
    requires AllDigits(digits) && (rest != "" ==> !IsDigit(rest[0]))
    ensures LeadingDigits(digits + rest) == |digits|
    ensures (digits + rest)[..|digits|] == digits && (digits + rest)[|digits|..] == rest
  {
    var whole := digits + rest;
    assert forall i :: 0 <= i < |digits| ==> IsDigit(whole[i]);
    assert forall i :: 0 <= i < LeadingDigits(whole) ==> IsDigit(whole[..LeadingDigits(whole)][i]);
    assert rest != "" ==> whole[|digits|] == rest[0];
  }
}
