/** The string operations of Go's strings package that the driver relies on. */
module Text {

  /** strings.Contains */
  predicate Contains(s: string, sub: string) {
    sub <= s || (s != "" && Contains(s[1..], sub))
  }

  /** strings.Split with a one-character separator */
  function Split(s: string, sep: char): (parts: seq<string>)
    ensures |parts| >= 1
  {
    if s == "" then [""]
    else
      var rest := Split(s[1..], sep);
      if s[0] == sep then [""] + rest else [[s[0]] + rest[0]] + rest[1..]
  }

  /** strings.Cut, the part before the separator */
  function Before(s: string, sep: char): (r: string)
    ensures r <= s && sep !in r
  {
    if s == "" || s[0] == sep then "" else [s[0]] + Before(s[1..], sep)
  }

  /** strings.Cut, the part after the separator; empty when there is none */
  function After(s: string, sep: char): string {
    if s == "" then "" else if s[0] == sep then s[1..] else After(s[1..], sep)
  }

  /** strings.Trim(s, "/") */
  function TrimSlashes(s: string): string {
    if s == "" then ""
    else if s[0] == '/' then TrimSlashes(s[1..])
    else if s[|s| - 1] == '/' then TrimSlashes(s[..|s| - 1])
    else s
  }

  predicate AllSlashes(s: string) {
    forall i :: 0 <= i < |s| ==> s[i] == '/'
  }

  /** What is trimmed off are slashes only. */
  lemma {:induction false} TrimSlashesMeans(s: string) returns (a: string, b: string)
    ensures s == a + TrimSlashes(s) + b && AllSlashes(a) && AllSlashes(b)
  {
    if s == "" {
      a, b := "", "";
    } else if s[0] == '/' {
      a, b := TrimSlashesMeans(s[1..]);
      assert s == [s[0]] + s[1..];
      a := [s[0]] + a;
    } else if s[|s| - 1] == '/' {
      a, b := TrimSlashesMeans(s[..|s| - 1]);
      assert s == s[..|s| - 1] + [s[|s| - 1]];
      b := b + [s[|s| - 1]];
    } else {
      a, b := "", "";
    }
  }

  /** Slashes around a string that neither begins nor ends with one are all trimmed off. */
  lemma {:induction false} TrimBetween(a: string, r: string, b: string)
    requires AllSlashes(a) && AllSlashes(b) && r != "" && r[0] != '/' && r[|r| - 1] != '/'
    ensures TrimSlashes(a + r + b) == r
    decreases |a| + |b|
  {
    var s := a + r + b;
    if a != "" {
      assert s[1..] == a[1..] + r + b;
      TrimBetween(a[1..], r, b);
    } else if b != "" {
      assert s[0] == r[0] && s[|s| - 1] == b[|b| - 1];
      assert s[..|s| - 1] == a + r + b[..|b| - 1];
      TrimBetween(a, r, b[..|b| - 1]);
    } else {
      assert s == r;
    }
  }

  lemma TrimSlashesSlash(path: string)
    ensures TrimSlashes("/" + path) == TrimSlashes(path)
  {
    assert ("/" + path)[1..] == path;
  }

  predicate StandsAt(s: string, sub: string, i: nat) {
    i + |sub| <= |s| && s[i..i + |sub|] == sub
  }

  /** One string contains another exactly when it stands at some position. */
  lemma {:induction false} ContainsIff(s: string, sub: string)
    ensures Contains(s, sub) <==> exists i: nat :: StandsAt(s, sub, i)
  {
    if sub <= s {
      assert StandsAt(s, sub, 0);
    }
    if s != "" {
      ContainsIff(s[1..], sub);
      forall i: nat ensures StandsAt(s[1..], sub, i) <==> StandsAt(s, sub, i + 1) {
        if i + |sub| <= |s| - 1 {
          assert s[1..][i..i + |sub|] == s[i + 1..i + 1 + |sub|];
        }
      }
      if i: nat :| StandsAt(s[1..], sub, i) {
        assert StandsAt(s, sub, i + 1);
      }
      if i: nat :| StandsAt(s, sub, i) && i > 0 {
        assert StandsAt(s[1..], sub, i - 1);
      }
    }
    if StandsAt(s, sub, 0) {
      assert sub <= s;
    }
  }

  lemma {:induction false} TooShort(s: string, sub: string)
    requires |s| < |sub|
    ensures !Contains(s, sub)
  {
    if s != "" {
      TooShort(s[1..], sub);
    }
  }

  lemma {:induction false} SplitFree(s: string, sep: char)
    requires sep !in s
    ensures Split(s, sep) == [s]
  {
    if s != "" {
      assert s[0] in s;
      SplitFree(s[1..], sep);
      assert [s[0]] + s[1..] == s;
    }
  }

  lemma {:induction false} SplitConcat(a: string, sep: char, b: string)
    ensures Split(a + [sep] + b, sep) == Split(a, sep) + Split(b, sep)
  {
    var s := a + [sep] + b;
    if a == "" {
      assert s[1..] == b;
    } else {
      assert s[1..] == a[1..] + [sep] + b;
      SplitConcat(a[1..], sep, b);
    }
  }

  /** A string with the separator splits around its last occurrence. */
  lemma {:induction false} SplitLast(s: string, sep: char) returns (a: string, b: string)
    requires sep in s
    ensures s == a + [sep] + b && sep !in b
  {
    if sep in s[1..] {
      a, b := SplitLast(s[1..], sep);
      a := [s[0]] + a;
      assert s == [s[0]] + s[1..];
    } else {
      assert s == [s[0]] + s[1..];
      a, b := "", s[1..];
    }
  }

  lemma {:induction false} BeforeFree(s: string, sep: char)
    requires sep !in s
    ensures Before(s, sep) == s && After(s, sep) == ""
  {
    if s != "" {
      assert s[0] in s;
      BeforeFree(s[1..], sep);
      assert [s[0]] + s[1..] == s;
    }
  }

  /** What stands before the first separator reaches every position before which there is none. */
  lemma {:induction false} BeforeReaches(s: string, sep: char, i: nat)
    requires i < |s| && sep !in s[..i] && s[i] != sep
    ensures i < |Before(s, sep)| && Before(s, sep)[i] == s[i]
  {
    if i > 0 {
      assert s[0] in s[..i] && s[1..][..i - 1] == s[1..i];
      assert forall c :: c in s[1..i] ==> c in s[..i];
      BeforeReaches(s[1..], sep, i - 1);
    }
  }

  lemma {:induction false} BeforeConcat(a: string, sep: char, b: string)
    requires sep !in a
    ensures Before(a + [sep] + b, sep) == a && After(a + [sep] + b, sep) == b
  {
    var s := a + [sep] + b;
    if a == "" {
      assert s[1..] == b;
    } else {
      assert a[0] in a;
      assert s[1..] == a[1..] + [sep] + b;
      BeforeConcat(a[1..], sep, b);
      assert [a[0]] + a[1..] == a;
    }
  }
}
