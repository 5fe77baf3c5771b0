/** Numbers as text, and where a character first occurs. */
module Text {
  // ----- numbers as text -----

  function Digit(n: nat): char
    requires n < 10
  {
    "0123456789"[n]
  }

  function NatText(n: nat): (t: string)
    ensures t != [] && forall i :: 0 <= i < |t| ==> '0' <= t[i] <= '9'
  {
    if n < 10 then [Digit(n)] else NatText(n / 10) + [Digit(n % 10)]
  }

  function IntText(n: int): string {
    if n < 0 then "-" + NatText(-n) else NatText(n)
  }

  /** The number a text of digits stands for. */
  function NatValue(t: string): int {
    if t == [] then 0 else 10 * NatValue(t[..|t| - 1]) + (t[|t| - 1] as int - '0' as int)
  }

  lemma {:induction false} NatTextReads(n: nat)
    ensures NatValue(NatText(n)) == n
  {
    if n >= 10 {
      NatTextReads(n / 10);
      assert NatText(n)[..|NatText(n)| - 1] == NatText(n / 10);
    }
  }

  lemma IntTextSign(n: int)
    ensures IntText(n) != [] && (IntText(n)[0] == '-' <==> n < 0)
  {
  }

  lemma IntTextInjective(m: int, n: int)
    requires IntText(m) == IntText(n)
    ensures m == n
  {
    IntTextSign(m);
    IntTextSign(n);
    hide NatText, NatValue;
    if m < 0 {
      assert IntText(m)[1..] == NatText(-m) && IntText(n)[1..] == NatText(-n);
      NatTextReads(-m);
      NatTextReads(-n);
    } else {
      NatTextReads(m);
      NatTextReads(n);
    }
  }

  // ----- first occurrences -----

  /** The position of the first `c` in a text, or its length. */
  function FirstOf(c: char, s: string): nat {
    if s == [] || s[0] == c then 0 else 1 + FirstOf(c, s[1..])
  }

  lemma {:induction false} FirstIsFound(c: char, a: string, x: string)
    requires forall i :: 0 <= i < |a| ==> a[i] != c
    ensures FirstOf(c, a + [c] + x) == |a|
  {
    if a != [] {
      assert (a + [c] + x)[1..] == a[1..] + [c] + x;
      FirstIsFound(c, a[1..], x);
    }
  }

  /** Texts without a `c` can be told from what follows the first one. */
  lemma SplitAtFirst(c: char, a: string, b: string, x: string, y: string)
    requires a + [c] + x == b + [c] + y
    requires (forall i :: 0 <= i < |a| ==> a[i] != c) && (forall i :: 0 <= i < |b| ==> b[i] != c)
    ensures a == b && x == y
  {
    FirstIsFound(c, a, x);
    FirstIsFound(c, b, y);
    hide FirstOf;
    var s, t := a + [c] + x, b + [c] + y;
    assert a == s[..|a|] && b == t[..|b|];
    assert x == s[|a| + 1..] && y == t[|b| + 1..];
  }

  // ----- order -----

  /** The order of texts: by the first difference, or by length. */
  predicate After(a: string, b: string) {
    if a == [] then false
    else if b == [] then true
    else a[0] > b[0] || (a[0] == b[0] && After(a[1..], b[1..]))
  }

  /** The texts agree up to position `k`, where the first one goes on or has the greater character. */
  ghost predicate DiffersAt(a: string, b: string, k: nat) {
    k < |a| && k <= |b| && a[..k] == b[..k] && (k == |b| || a[k] > b[k])
  }

  lemma {:induction false} AfterExactly(a: string, b: string)
    ensures After(a, b) <==> exists k: nat :: DiffersAt(a, b, k)
  {
    if a != [] && b != [] && a[0] == b[0] {
      var c, d := a[1..], b[1..];
      AfterExactly(c, d);
      assert a == [a[0]] + c && b == [a[0]] + d;
      if After(c, d) {
        var k: nat :| DiffersAt(c, d, k);
        assert a[..k + 1] == [a[0]] + c[..k] && b[..k + 1] == [a[0]] + d[..k];
        assert DiffersAt(a, b, k + 1);
      }
      if k: nat :| DiffersAt(a, b, k) {
        assert k > 0;
        assert c[..k - 1] == a[..k][1..] && d[..k - 1] == b[..k][1..];
        assert DiffersAt(c, d, k - 1);
      }
    } else if After(a, b) {
      assert DiffersAt(a, b, 0);
    } else {
      FirstDecides(a, b);
    }
  }

  lemma FirstDecides(a: string, b: string)
    requires a == [] || (b != [] && a[0] < b[0])
    ensures forall k: nat :: !DiffersAt(a, b, k)
  {
    forall k: nat
      ensures !DiffersAt(a, b, k)
    {
      SameFirst(a, b, k);
    }
  }

  lemma SameFirst(a: string, b: string, k: nat)
    ensures DiffersAt(a, b, k) && k > 0 ==> b != [] && a[0] == b[0]
  {
    if DiffersAt(a, b, k) && k > 0 {
      assert a[..k][0] == b[..k][0];
    }
  }

  lemma {:induction false} AfterIsTotal(a: string, b: string)
    ensures a == b || After(a, b) || After(b, a)
    ensures !(After(a, b) && After(b, a))
    ensures After(a, b) ==> a != b
  {
    if a != [] && b != [] {
      AfterIsTotal(a[1..], b[1..]);
      assert a == [a[0]] + a[1..] && b == [b[0]] + b[1..];
    }
  }
}
