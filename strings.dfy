/** The Kotlin standard-library string operations the capture pipeline relies on. */
module Strings {

  /** Number of occurrences of `c` in `s`. */
  function Count(s: string, c: char): (n: nat)
    ensures n <= |s|
    ensures n == 0 <==> c !in s
  {
    if s == [] then 0 else (if s[0] == c then 1 else 0) + Count(s[1..], c)
  }

  /** Kotlin's `s.replace(c.toString(), repl)`: every occurrence of `c`, left to right, becomes `repl`. */
  function Replace(s: string, c: char, repl: string): (r: string)
    ensures forall d :: d in r <==> (d in s && d != c) || (d in repl && c in s)
  {
    if s == [] then []
    else
      assert forall d :: d in s <==> d == s[0] || d in s[1..];
      (if s[0] == c then repl else [s[0]]) + Replace(s[1..], c, repl)
  }

  /** Each replaced occurrence changes the length by `|repl| - 1`. */
  lemma {:induction false} ReplaceLength(s: string, c: char, repl: string)
    ensures |Replace(s, c, repl)| == |s| + Count(s, c) * (|repl| - 1)
  {
    if s != [] {
      ReplaceLength(s[1..], c, repl);
      var k, w := Count(s[1..], c), |repl| - 1;
      var tail := Replace(s[1..], c, repl);
      assert |tail| == |s| - 1 + k * w;
      if s[0] == c {
        assert Replace(s, c, repl) == repl + tail;
        assert Count(s, c) == k + 1;
        MulSucc(k, w);
      } else {
        assert Replace(s, c, repl) == [s[0]] + tail;
        assert Count(s, c) == k;
      }
    }
  }

  lemma MulSucc(k: int, w: int)
    ensures (k + 1) * w == k * w + w
  {
  }

  /** Replacing in a concatenation replaces in each part. */
  lemma {:induction false} ReplaceConcat(a: string, b: string, c: char, repl: string)
    ensures Replace(a + b, c, repl) == Replace(a, c, repl) + Replace(b, c, repl)
  {
    if a == [] {
      assert a + b == b;
    } else {
      assert (a + b)[1..] == a[1..] + b;
      ReplaceConcat(a[1..], b, c, repl);
    }
  }

  /** Kotlin's `s.endsWith(suffix)`: `s` is some string followed by `suffix`. */
  predicate EndsWith(s: string, suffix: string)
    ensures EndsWith(s, suffix) <==> |suffix| <= |s| && s == s[..|s| - |suffix|] + suffix
  {
    |suffix| <= |s| && s[|s| - |suffix|..] == suffix
  }

  /** `endsWith` holds exactly when the string is some string followed by the suffix. */
  lemma EndsWithSuffix(s: string, suffix: string)
    ensures EndsWith(s, suffix) <==> exists p :: s == p + suffix
  {
    if EndsWith(s, suffix) {
      assert s == s[..|s| - |suffix|] + suffix;
    }
    if exists p :: s == p + suffix {
      var p :| s == p + suffix;
      assert s[|s| - |suffix|..] == suffix;
    }
  }

  /** The ASCII character of a decimal digit. */
  function Digit(d: nat): (c: char)
    requires d < 10
    ensures '0' <= c <= '9'
  {
    (48 + d) as char
  }

  /** Kotlin's `n.toString()` for a non-negative integer: decimal, no leading zeros. */
  function NatToString(n: nat): (r: string)
    ensures 1 <= |r|
    ensures n < 10 <==> |r| == 1
    ensures forall c :: c in r ==> '0' <= c <= '9'
    decreases n
  {
    if n < 10 then [Digit(n)] else NatToString(n / 10) + [Digit(n % 10)]
  }

  /** Different numbers have different decimal renderings. */
  lemma {:induction false} NatToStringInjective(m: nat, n: nat)
    requires NatToString(m) == NatToString(n)
    ensures m == n
  {
    var sm, sn := NatToString(m), NatToString(n);
    if m >= 10 && n >= 10 {
      assert sm[..|sm| - 1] == NatToString(m / 10);
      assert sn[..|sn| - 1] == NatToString(n / 10);
      NatToStringInjective(m / 10, n / 10);
      assert Digit(m % 10) == sm[|sm| - 1] == sn[|sn| - 1] == Digit(n % 10);
    }
  }

  /** No string occurs twice in `names`. */
  predicate AllDifferent(names: seq<string>) {
    forall i, j :: 0 <= i < j < |names| ==> names[i] != names[j]
  }
}
