/** Bitwise or of naturals, and the fields it packs into a word. */
module Bits {
  import Arith

  function Pow2(n: nat): (p: nat)
    ensures p > 0
  {
    if n == 0 then 1 else 2 * Pow2(n - 1)
  }

  lemma {:induction false} Pow2Add(a: nat, b: nat)
    ensures Pow2(a + b) == Pow2(a) * Pow2(b)
    decreases a
  {
    if a == 0 {
    } else {
      Pow2Add(a - 1, b);
      Arith.MulAssoc(2, Pow2(a - 1), Pow2(b));
    }
  }

  function BitOr(a: nat, b: nat): nat
    decreases a
  {
    if a == 0 then b
    else if b == 0 then a
    else 2 * BitOr(a / 2, b / 2) + (if a % 2 == 1 || b % 2 == 1 then 1 else 0)
  }

  lemma OrHalf(a: nat, b: nat)
    ensures BitOr(a, b) / 2 == BitOr(a / 2, b / 2)
    ensures BitOr(a, b) % 2 == (if a % 2 == 1 || b % 2 == 1 then 1 else 0)
  {
  }

  function Div(a: nat, m: nat): nat
    requires m > 0
  {
    a / m
  }

  function Mod(a: nat, m: nat): nat
    requires m > 0
  {
    a % m
  }

  /** Halving first: division and remainder by twice m. */
  lemma HalfFirst(a: nat, m: nat)
    requires m > 0
    ensures Div(a, 2 * m) == Div(a / 2, m)
    ensures Mod(a, 2 * m) == 2 * Mod(a / 2, m) + a % 2
  {
    var h := a / 2;
    var q, r := h / m, h % m;
    assert h == q * m + r;
    assert a == q * (2 * m) + (2 * r + a % 2) by {
      assert a == 2 * h + a % 2;
      assert 2 * (q * m) == q * (2 * m);
    }
    Arith.DivModUnique(a, q, 2 * r + a % 2, 2 * m);
  }

  lemma DivModOne(a: nat)
    ensures Div(a, 1) == a && Mod(a, 1) == 0
  {
  }

  lemma {:induction false} OrDiv(a: nat, b: nat, s: nat)
    ensures Div(BitOr(a, b), Pow2(s)) == BitOr(Div(a, Pow2(s)), Div(b, Pow2(s)))
    decreases s
  {
    hide BitOr, Div, Mod;
    if s == 0 {
      DivModOne(a);
      DivModOne(b);
      DivModOne(BitOr(a, b));
    } else {
      var m := Pow2(s - 1);
      HalfFirst(a, m);
      HalfFirst(b, m);
      HalfFirst(BitOr(a, b), m);
      OrHalf(a, b);
      OrDiv(a / 2, b / 2, s - 1);
    }
  }

  lemma {:induction false} OrMod(a: nat, b: nat, w: nat)
    ensures Mod(BitOr(a, b), Pow2(w)) == BitOr(Mod(a, Pow2(w)), Mod(b, Pow2(w)))
    decreases w
  {
    hide Div, Mod;
    if w == 0 {
      DivModOne(a);
      DivModOne(b);
      DivModOne(BitOr(a, b));
    } else {
      var m := Pow2(w - 1);
      HalfFirst(a, m);
      HalfFirst(b, m);
      HalfFirst(BitOr(a, b), m);
      OrHalf(a, b);
      OrMod(a / 2, b / 2, w - 1);
      OrHalf(Mod(a, 2 * m), Mod(b, 2 * m));
    }
  }

  /** The `w` bits of `v` from bit `s` on. */
  function Field(v: nat, s: nat, w: nat): nat { Mod(Div(v, Pow2(s)), Pow2(w)) }

  lemma OrField(a: nat, b: nat, s: nat, w: nat)
    ensures Field(BitOr(a, b), s, w) == BitOr(Field(a, s, w), Field(b, s, w))
  {
    hide BitOr, Pow2;
    OrDiv(a, b, s);
    OrMod(Div(a, Pow2(s)), Div(b, Pow2(s)), w);
  }

  lemma OrZero(a: nat)
    ensures BitOr(a, 0) == a && BitOr(0, a) == a
  {
  }

  lemma Exact(a: nat, m: nat)
    requires m > 0
    ensures a * m / m == a && a * m % m == 0
  {
    Arith.DivModUnique(a * m, a, 0, m);
  }

  lemma Small(a: nat, m: nat)
    requires a < m
    ensures a / m == 0 && a % m == a
  {
    Arith.DivModUnique(a, 0, a, m);
  }

  /** A value put at its place is found there... */
  lemma FieldOfShifted(f: nat, s: nat, w: nat)
    requires f < Pow2(w)
    ensures Field(f * Pow2(s), s, w) == f
  {
    hide Pow2;
    Exact(f, Pow2(s));
    Small(f, Pow2(w));
  }

  /** ...and nowhere else. */
  lemma FieldElsewhere(f: nat, t: nat, u: nat, s: nat, w: nat)
    requires f < Pow2(u) && (t >= s + w || t + u <= s)
    ensures Field(f * Pow2(t), s, w) == 0
  {
    hide Pow2;
    if t >= s + w {
      Pow2Add(t - s - w, w);
      Pow2Add(t - s, s);
      Arith.MulAssoc(f, Pow2(t - s), Pow2(s));
      Arith.MulAssoc(f, Pow2(t - s - w), Pow2(w));
      Exact(f * Pow2(t - s), Pow2(s));
      Exact(f * Pow2(t - s - w), Pow2(w));
    } else {
      ShiftedBelow(f, t, u, s);
      Small(f * Pow2(t), Pow2(s));
      Small(0, Pow2(w));
    }
  }

  lemma ShiftedBelow(f: nat, t: nat, u: nat, s: nat)
    requires f < Pow2(u) && t + u <= s
    ensures f * Pow2(t) < Pow2(s)
  {
    hide Pow2;
    Pow2Add(u, t);
    Pow2Add(s - t - u, t + u);
    Below(f, Pow2(u), Pow2(t), Pow2(s - t - u));
  }

  lemma Below(f: nat, p: nat, q: nat, r: nat)
    requires f < p && q > 0 && r > 0
    ensures f * q < r * (p * q)
  {
    Arith.MulAtLeast(p - f, q);
    Arith.MulSplit(p, f, q);
    Arith.MulAtLeast(r, p * q);
  }

  lemma DivModTimes(q: nat, d: nat, e: nat, m: nat)
    requires m > 0 && e < m
    ensures ((q * m) + (d * m + e)) / m == q + d
  {
    assert (q + d) * m + e == (q * m) + (d * m + e);
    Arith.DivModUnique((q * m) + (d * m + e), q + d, e, m);
  }

  lemma Split(v: nat, m: nat)
    requires m > 0
    ensures v == v / m * m + v % m
  {
  }

  lemma TruncatedQuotient(v: nat, big: nat, k: nat, m: nat)
    requires m > 0 && big == k * m && big > 0
    ensures v / m == v / big * k + v % big / m
  {
    Split(v, big);
    Split(v % big, m);
    QuotientOfSum(v, v / big, k, v % big / m, v % big % m, m);
  }

  lemma QuotientOfSum(v: nat, q: nat, k: nat, d: nat, e: nat, m: nat)
    requires m > 0 && e < m && v == q * (k * m) + (d * m + e)
    ensures v / m == q * k + d
  {
    Arith.MulAssoc(q, k, m);
    DivModTimes(q * k, d, e, m);
  }

  /** Dropping bits from `n` on leaves the fields below alone. */
  lemma FieldOfTruncated(v: nat, n: nat, s: nat, w: nat)
    requires s + w <= n
    ensures Field(v % Pow2(n), s, w) == Field(v, s, w)
  {
    hide Pow2;
    Pow2Add(n - s, s);
    TruncatedQuotient(v, Pow2(n), Pow2(n - s), Pow2(s));
    Pow2Add(n - s - w, w);
    var q, d := v / Pow2(n), v % Pow2(n) / Pow2(s);
    Arith.MulAssoc(q, Pow2(n - s - w), Pow2(w));
    Arith.ModMultiple(d, q * Pow2(n - s - w), Pow2(w));
  }
}
