/** Decimal page tokens: what the server prints with %d and reads back with strconv.Atoi. */
module Decimal {
  import opened Wrappers

  function Print(n: nat): (s: string)
    ensures s != ""
  {
    if n < 10 then [Digit(n)] else Print(n / 10) + [Digit(n % 10)]
  }

  function Digit(d: nat): char
    requires d < 10
  {
    '0' + d as char
  }

  predicate IsDigit(c: char) {
    '0' <= c <= '9'
  }

  predicate AllDigits(s: string) {
    forall i :: 0 <= i < |s| ==> IsDigit(s[i])
  }

  function Value(s: string): nat
    requires AllDigits(s)
  {
    if s == "" then 0
    else 10 * Value(s[..|s| - 1]) + (s[|s| - 1] - '0') as int
  }

  /** An optional sign, then at least one digit and nothing else; None stands for the parse error. */
  function Atoi(s: string): Option<int> {
    if s == "" then None
    else if s[0] == '-' then
      if |s| > 1 && AllDigits(s[1..]) then Some(0 - Value(s[1..])) else None
    else if s[0] == '+' then
      if |s| > 1 && AllDigits(s[1..]) then Some(Value(s[1..])) else None
    else if AllDigits(s) then Some(Value(s))
    else None
  }

  lemma {:induction false} PrintedValue(n: nat)
    ensures AllDigits(Print(n)) && Value(Print(n)) == n
  {
    if n >= 10 {
      PrintedValue(n / 10);
      var s := Print(n);
      assert s[..|s| - 1] == Print(n / 10);
    } else {
      assert Print(n)[..0] == "";
    }
  }

  /** A printed token reads back as the number that was printed. */
  lemma TokenRoundTrip(n: nat)
    ensures Atoi(Print(n)) == Some(n)
  {
    PrintedValue(n);
    assert IsDigit(Print(n)[0]);
  }

  lemma PrintInjective(m: nat, n: nat)
    requires Print(m) == Print(n)
    ensures m == n
  {
    PrintedValue(m);
    PrintedValue(n);
  }

  /** A sign is read too; anything else that is not all digits is no number. */
  lemma SignedTokens(n: nat)
    ensures Atoi("-" + Print(n)) == Some(0 - n) && Atoi("+" + Print(n)) == Some(n)
  {
    PrintedValue(n);
    assert ("-" + Print(n))[1..] == Print(n) && ("+" + Print(n))[1..] == Print(n);
  }

  lemma NoToken(s: string)
    requires s == "" || exists i :: 0 <= i < |s| && !IsDigit(s[i]) && (i > 0 || (s[i] != '-' && s[i] != '+'))
    ensures Atoi(s) == None
  {
    if s != "" {
      var i :| 0 <= i < |s| && !IsDigit(s[i]) && (i > 0 || (s[i] != '-' && s[i] != '+'));
      assert i > 0 ==> s[1..][i - 1] == s[i];
    }
  }
}
