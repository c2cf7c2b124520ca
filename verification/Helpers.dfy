/** Sizes and members of finite sets. */
module Collections {

  lemma SubsetSize<T>(a: set<T>, b: set<T>)
    requires a <= b
    ensures |a| <= |b| && |b - a| == |b| - |a|
  {
    assert b == a + (b - a);
  }

  lemma Any<T>(s: set<T>) returns (x: T)
    requires s != {}
    ensures x in s
  {
    x :| x in s;
  }
}

/** Decimal digits. */
module Digits {

  predicate IsDigit(c: char) { '0' <= c <= '9' }

  /** The number that a string of digits denotes. */
  function DigitsValue(s: string): int {
    if s == "" then 0 else 10 * DigitsValue(s[..|s| - 1]) + (s[|s| - 1] as int - '0' as int)
  }

  function Decimal(n: nat): string {
    if n < 10 then [('0' as int + n) as char] else Decimal(n / 10) + [('0' as int + n % 10) as char]
  }

  lemma {:induction false} DecimalReadBack(n: nat)
    ensures Decimal(n) != "" && DigitsValue(Decimal(n)) == n && forall i | 0 <= i < |Decimal(n)| :: IsDigit(Decimal(n)[i])
  {
    if n >= 10 {
      DecimalReadBack(n / 10);
      assert Decimal(n)[..|Decimal(n)| - 1] == Decimal(n / 10);
    } else {
      assert Decimal(n)[..0] == "";
    }
  }
}

/** Applying a function again and again. */
module Iteration {

  function Iterate<T>(f: T -> T, x: T, n: nat): T
    decreases n
  {
    if n == 0 then x else Iterate(f, f(x), n - 1)
  }

  lemma {:induction false} IterateStays<T>(f: T -> T, x: T, n: nat)
    requires f(x) == x
    ensures Iterate(f, x, n) == x
    decreases n
  {
    if n > 0 { IterateStays(f, x, n - 1); }
  }

  /** Iteration settles when every step within `inside` lowers a measure until one more step is a fixed point. */
  lemma {:induction false} Settles<T(!new)>(f: T -> T, inside: T -> bool, measure: T -> nat, x: T, n: nat)
    requires inside(x) && measure(x) < n
    requires forall y | inside(y) && measure(y) > 0 :: inside(f(y)) && measure(f(y)) < measure(y)
    requires forall y | inside(y) && measure(y) == 0 :: f(f(y)) == f(y)
    ensures Iterate(f, x, n + 1) == Iterate(f, x, n)
    decreases n
  {
    if measure(x) > 0 {
      Settles(f, inside, measure, f(x), n - 1);
    } else {
      IterateStays(f, f(x), n);
      IterateStays(f, f(x), n - 1);
    }
  }

  /** Iteration along a sequence that every step walks down by one. */
  lemma {:induction false} WalksDown<T>(f: T -> T, g: nat -> T, m: nat, n: nat)
    requires n <= m && forall k: nat | 1 <= k :: f(g(k)) == g(k - 1)
    ensures Iterate(f, g(m), n) == g(m - n)
    decreases n
  {
    if n > 0 { WalksDown(f, g, m - 1, n - 1); }
  }
}
