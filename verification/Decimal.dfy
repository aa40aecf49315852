/** Decimal rendering, as strconv.Itoa and the %d verb produce it, and the facts that make it safe to
    embed a rendered number in a longer string. */
module Decimal {

  predicate IsDigit(c: char) {
    '0' <= c <= '9'
  }

  predicate AllDigits(s: string) {
    forall i | 0 <= i < |s| :: IsDigit(s[i])
  }

  function Digit(n: nat): (c: char)
    requires n < 10
    ensures IsDigit(c)
  {
    '0' + n as char
  }

  /** The decimal digits of a non-negative number, most significant first. */
  function Digits(n: nat): (s: string)
    ensures s != "" && AllDigits(s)
  {
    if n < 10 then [Digit(n)] else Digits(n / 10) + [Digit(n % 10)]
  }

  function Itoa(n: int): string {
    if n < 0 then "-" + Digits(-n) else Digits(n)
  }

  /** Horner evaluation of a digit string: the inverse of Digits. */
  function Value(s: string): nat
    requires AllDigits(s)
  {
    if s == "" then 0 else 10 * Value(s[..|s| - 1]) + (s[|s| - 1] - '0') as nat
  }

  lemma {:induction false} ValueOfDigits(n: nat)
    ensures Value(Digits(n)) == n
  {
    if n < 10 {
      assert Digits(n)[..0] == "";
    } else {
      ValueOfDigits(n / 10);
      assert Digits(n)[..|Digits(n)| - 1] == Digits(n / 10);
    }
  }

  lemma ItoaInjective(a: int, b: int)
    requires Itoa(a) == Itoa(b)
    ensures a == b
  {
    assert Itoa(a)[0] == Itoa(b)[0];
    if a < 0 {
      assert b < 0;
      assert Itoa(a)[1..] == Digits(-a) && Itoa(b)[1..] == Digits(-b);
      ValueOfDigits(-a);
      ValueOfDigits(-b);
    } else {
      assert b >= 0;
      ValueOfDigits(a);
      ValueOfDigits(b);
    }
  }

  /** A run of digits closed by a non-digit can be cut off in only one way. */
  lemma CutUnique(d1: string, x: string, d2: string, y: string, sep: char)
    requires AllDigits(d1) && AllDigits(d2) && !IsDigit(sep)
    requires d1 + [sep] + x == d2 + [sep] + y
    ensures d1 == d2 && x == y
  {
    var a, b := d1 + [sep] + x, d2 + [sep] + y;
    assert (forall i | 0 <= i < |d1| :: IsDigit(a[i])) && a[|d1|] == sep;
    assert (forall i | 0 <= i < |d2| :: IsDigit(b[i])) && b[|d2|] == sep;
    assert |d1| == |d2|;
    assert d1 == a[..|d1|] && d2 == b[..|d2|];
    assert x == a[|d1| + 1..] && y == b[|d2| + 1..];
  }

  /** The content digest under which checkpoint objects are stored. SHA-256 is idealised as an injective
      function into slash-free text: every character as its code point, each closed by a dot. */
  function Digest(content: string): string {
    if content == "" then "" else Digits(content[0] as int) + "." + Digest(content[1..])
  }

  lemma {:induction false} DigestInjective(a: string, b: string)
    requires Digest(a) == Digest(b)
    ensures a == b
  {
    if a != "" && b != "" {
      CutUnique(Digits(a[0] as int), Digest(a[1..]), Digits(b[0] as int), Digest(b[1..]), '.');
      ValueOfDigits(a[0] as int);
      ValueOfDigits(b[0] as int);
      DigestInjective(a[1..], b[1..]);
      assert a == [a[0]] + a[1..] && b == [b[0]] + b[1..];
    }
  }

  lemma {:induction false} DigestSlashFree(content: string)
    ensures '/' !in Digest(content)
  {
    if content != "" {
      DigestSlashFree(content[1..]);
    }
  }
}
