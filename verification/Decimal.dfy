/** Decimal digit strings of any length and the natural numbers they denote, as BigInt(...) and
    toString() read and write them. */
module Decimal {

  predicate IsDigit(c: char) {
    '0' <= c <= '9'
  }

  predicate AllDigits(s: string) {
    forall i :: 0 <= i < |s| ==> IsDigit(s[i])
  }

  function Digit(n: nat): (c: char)
    requires n < 10
    ensures IsDigit(c) && c as int - '0' as int == n
  {
    ('0' as int + n) as char
  }

  /** The number a digit string denotes; the empty string denotes 0. */
  function Value(s: string): nat
    requires AllDigits(s)
  {
    if s == [] then 0 else 10 * Value(s[..|s| - 1]) + (s[|s| - 1] as int - '0' as int)
  }

  /** The shortest digit string of a number. */
  function Show(n: nat): string {
    if n < 10 then [Digit(n)] else Show(n / 10) + [Digit(n % 10)]
  }

  /** A digit string without superfluous leading zeros. */
  predicate Shortest(s: string) {
    AllDigits(s) && |s| > 0 && (|s| > 1 ==> s[0] != '0')
  }

  function Pow10(n: nat): (p: nat)
    ensures p > 0
  {
    if n == 0 then 1 else 10 * Pow10(n - 1)
  }

  function Zeros(n: nat): string {
    seq(n, _ => '0')
  }

  lemma {:induction false} ShowValue(n: nat)
    ensures Shortest(Show(n)) && Value(Show(n)) == n
    ensures Show(n)[0] == '0' <==> n == 0
  {
    if n >= 10 {
      ShowValue(n / 10);
      var s := Show(n);
      assert s[..|s| - 1] == Show(n / 10);
    }
  }

  lemma ShowNext(v: nat, c: char)
    requires v > 0 && IsDigit(c)
    ensures Show(10 * v + (c as int - '0' as int)) == Show(v) + [c]
  {
    var n := 10 * v + (c as int - '0' as int);
    assert n / 10 == v && n % 10 == c as int - '0' as int;
  }

  lemma {:induction false} ValueShow(s: string)
    requires Shortest(s)
    ensures Show(Value(s)) == s
  {
    hide Show;
    var init, last := s[..|s| - 1], s[|s| - 1];
    assert s == init + [last];
    if |s| > 1 {
      ValueShow(init);
      ShowValue(Value(init));
      assert Value(init) != 0;
      ShowNext(Value(init), last);
    } else {
      assert Value(init) == 0;
      ShowOne(last);
    }
  }

  lemma ShowOne(c: char)
    requires IsDigit(c)
    ensures Show(c as int - '0' as int) == [c]
  {
  }

  lemma TenTimes(v: int, p: int, w: int)
    ensures 10 * (v * p + w) == v * (10 * p) + 10 * w
  {
  }

  lemma {:induction false} ValueConcat(a: string, b: string)
    requires AllDigits(a) && AllDigits(b)
    ensures AllDigits(a + b) && Value(a + b) == Value(a) * Pow10(|b|) + Value(b)
  {
    if b == [] {
      assert a + b == a;
    } else {
      var b', last := b[..|b| - 1], b[|b| - 1];
      ValueConcat(a, b');
      var ab := a + b;
      assert ab[..|ab| - 1] == a + b' && ab[|ab| - 1] == last;
      assert Value(ab) == 10 * Value(a + b') + (last as int - '0' as int);
      TenTimes(Value(a), Pow10(|b'|), Value(b'));
    }
  }

  lemma {:induction false} ValueZeros(n: nat)
    ensures AllDigits(Zeros(n)) && Value(Zeros(n)) == 0
  {
    if n > 0 {
      ValueZeros(n - 1);
      assert Zeros(n)[..n - 1] == Zeros(n - 1);
    }
  }

  lemma {:induction false} Pow10Add(a: nat, b: nat)
    ensures Pow10(a + b) == Pow10(a) * Pow10(b)
  {
    if b > 0 {
      Pow10Add(a, b - 1);
    }
  }

  /** Strings `id + sep + digits` split uniquely when the separator is no digit: the number and
      the id are both recoverable. */
  lemma {:induction false} TaggedNumberInjective(a: string, m: nat, b: string, n: nat, sep: char)
    requires !IsDigit(sep)
    requires a + [sep] + Show(m) == b + [sep] + Show(n)
    ensures a == b && m == n
  {
    ShowValue(m);
    ShowValue(n);
    var s := a + [sep] + Show(m);
    assert s[|a|] == sep;
    assert (b + [sep] + Show(n))[|b|] == sep;
    assert forall i :: |a| < i < |s| ==> s[i] == Show(m)[i - |a| - 1];
    assert forall i :: |b| < i < |s| ==> s[i] == Show(n)[i - |b| - 1];
    assert |a| == |b|;
    assert a == s[..|a|] == b;
    assert Show(m) == s[|a| + 1..] == Show(n);
  }
}
