/** Decimal notation of integers, as fmt prints them, and its inverse. */
module Decimal {
  import opened Text

  predicate IsDigit(c: char) { '0' <= c <= '9' }

  function DigitChar(d: nat): (c: char)
    requires d < 10
    ensures IsDigit(c)
  {
    (('0' as int) + d) as char
  }

  function DigitValue(c: char): (d: nat)
    requires IsDigit(c)
    ensures d < 10
  {
    (c as int) - ('0' as int)
  }

  function OfNat(n: nat): (s: string)
    ensures s != [] && forall i :: 0 <= i < |s| ==> IsDigit(s[i])
  {
    if n < 10 then [DigitChar(n)] else OfNat(n / 10) + [DigitChar(n % 10)]
  }

  function OfInt(n: int): (s: string)
    ensures s != []
  {
    if n < 0 then "-" + OfNat(-n) else OfNat(n)
  }

  lemma OfIntChars(n: int)
    ensures forall k :: 0 <= k < |OfInt(n)| ==> OfInt(n)[k] == '-' || IsDigit(OfInt(n)[k])
  {
    var digits := OfNat(if n < 0 then -n else n);
    assert n < 0 ==> forall k :: 0 < k < |OfInt(n)| ==> OfInt(n)[k] == digits[k - 1];
  }

  function ToNat(s: string): nat
    requires forall i :: 0 <= i < |s| ==> IsDigit(s[i])
  {
    if s == [] then 0 else 10 * ToNat(s[..|s| - 1]) + DigitValue(s[|s| - 1])
  }

  lemma {:induction false} ToNatOfNat(n: nat)
    ensures ToNat(OfNat(n)) == n
  {
    var s := OfNat(n);
    if n < 10 {
      assert s[..|s| - 1] == [];
    } else {
      ToNatOfNat(n / 10);
      assert s[..|s| - 1] == OfNat(n / 10);
    }
  }

  function Pow10(k: nat): (p: nat)
    ensures p > 0
  {
    if k == 0 then 1 else 10 * Pow10(k - 1)
  }

  /** The digit of n for the k-th power of ten. */
  function Digit(n: nat, k: nat): char
  {
    "0123456789"[(n / Pow10(k)) % 10]
  }

  /** digits is n written in base ten without leading zeros. */
  predicate Spells(n: nat, digits: string)
  {
    && digits != [] && FitsIn(n, |digits|)
    && forall i :: 0 <= i < |digits| ==> digits[i] == Digit(n, |digits| - 1 - i)
  }

  predicate FitsIn(n: nat, m: nat)
  {
    n < Pow10(m) && (m > 1 ==> Pow10(m - 1) <= n)
  }

  /** OfNat spells its argument. */
  lemma {:induction false} OfNatSpells(n: nat)
    ensures Spells(n, OfNat(n))
  {
    if n < 10 {
      assert n / Pow10(0) == n && Pow10(1) == 10 * Pow10(0);
      assert OfNat(n)[0] == DigitChar(n) == "0123456789"[n];
    } else {
      OfNatSpells(n / 10);
      assert DigitChar(n % 10) == "0123456789"[n % 10];
      SpellsMore(n, OfNat(n / 10));
    }
  }

  lemma SpellsMore(n: nat, head: string)
    requires n >= 10 && Spells(n / 10, head)
    ensures Spells(n, head + ["0123456789"[n % 10]])
  {
    var digits := head + ["0123456789"[n % 10]];
    var m := |head|;
    FitsMore(n, m);
    forall i | 0 <= i < |digits|
      ensures digits[i] == Digit(n, |digits| - 1 - i)
    {
      if i < m {
        DigitMore(n, m - 1 - i);
      } else {
        assert n / Pow10(0) == n;
      }
    }
  }

  lemma FitsMore(n: nat, m: nat)
    requires n >= 10 && m > 0 && FitsIn(n / 10, m)
    ensures FitsIn(n, m + 1)
  {
    if m == 1 { assert Pow10(1) == 10 * Pow10(0); }
  }

  lemma DigitMore(n: nat, k: nat)
    ensures Digit(n, k + 1) == Digit(n / 10, k)
  {
    DivTen(n, Pow10(k));
  }

  lemma DivTen(n: nat, p: nat)
    requires p > 0
    ensures n / (10 * p) == (n / 10) / p
  {
    var q, r := (n / 10) / p, (n / 10) % p;
    Times(q, p, r, n % 10);
    DivUnique(n, 10 * p, q, 10 * r + n % 10);
  }

  lemma Times(q: nat, p: nat, r: nat, d: nat)
    ensures 10 * (q * p + r) + d == q * (10 * p) + (10 * r + d)
  {
  }

  lemma DivUnique(n: nat, d: nat, q: nat, r: nat)
    requires d > 0 && n == q * d + r && r < d
    ensures n / d == q
  {
    var e := n / d;
    assert n == e * d + n % d;
    TimesGrows(e + 1, q, d);
    TimesGrows(q + 1, e, d);
  }

  lemma TimesGrows(a: nat, b: nat, d: nat)
    ensures a <= b ==> a * d <= b * d
  {
  }

  lemma {:induction false} SpellsOne(n: nat, a: string, b: string)
    requires Spells(n, a) && Spells(n, b)
    ensures a == b
  {
    PowGrows(|a|, |b| - 1);
    PowGrows(|b|, |a| - 1);
  }

  lemma {:induction false} PowGrows(a: nat, b: nat)
    ensures a <= b ==> Pow10(a) <= Pow10(b)
  {
    if a < b { PowGrows(a, b - 1); }
  }

  /** A negative number is printed as a minus sign and its absolute value. */
  lemma OfIntSpells(n: int)
    ensures n >= 0 ==> Spells(n, OfInt(n))
    ensures n < 0 ==> OfInt(n)[0] == '-' && Spells(-n, OfInt(n)[1..])
  {
    OfNatSpells(if n < 0 then -n else n);
    if n < 0 { assert OfInt(n)[1..] == OfNat(-n); }
  }

  /** Different integers print differently. */
  lemma OfIntInjective(m: int, n: int)
    ensures OfInt(m) == OfInt(n) <==> m == n
  {
    ToNatOfNat(if m < 0 then -m else m);
    ToNatOfNat(if n < 0 then -n else n);
    if OfInt(m) == OfInt(n) {
      assert IsDigit(OfNat(if m < 0 then -m else m)[0]) && IsDigit(OfNat(if n < 0 then -n else n)[0]);
      if m < 0 { assert OfInt(m)[0] == '-' && OfInt(m)[1..] == OfNat(-m); }
      if n < 0 { assert OfInt(n)[0] == '-' && OfInt(n)[1..] == OfNat(-n); }
    }
  }
}
