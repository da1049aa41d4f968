/** Congruences and big-endian numbers, as n-fold needs them. */
module Modular {
  import opened Bytes

  /** `a` and `b` leave the same remainder: `k` is how many times `m` lies between them. */
  ghost predicate Cong(a: int, b: int, m: int) { exists k: int :: a == b + k * m }

  lemma CongBy(a: int, b: int, m: int, k: int)
    requires a == b + k * m
    ensures Cong(a, b, m)
  {
  }

  lemma CongRefl(a: int, m: int)
    ensures Cong(a, a, m)
  {
    CongBy(a, a, m, 0);
  }

  lemma CongSym(a: int, b: int, m: int)
    requires Cong(a, b, m)
    ensures Cong(b, a, m)
  {
    var k :| a == b + k * m;
    assert b == a + (-k) * m;
    CongBy(b, a, m, -k);
  }

  lemma CongTrans(a: int, b: int, c: int, m: int)
    requires Cong(a, b, m) && Cong(b, c, m)
    ensures Cong(a, c, m)
  {
    var k :| a == b + k * m;
    var l :| b == c + l * m;
    assert a == c + (k + l) * m;
    CongBy(a, c, m, k + l);
  }

  lemma CongAdd(a: int, b: int, c: int, d: int, m: int)
    requires Cong(a, b, m) && Cong(c, d, m)
    ensures Cong(a + c, b + d, m)
  {
    var k :| a == b + k * m;
    var l :| c == d + l * m;
    assert a + c == b + d + (k + l) * m;
    CongBy(a + c, b + d, m, k + l);
  }

  lemma CongMul(a: int, b: int, x: int, m: int)
    requires Cong(a, b, m)
    ensures Cong(x * a, x * b, m)
  {
    var k :| a == b + k * m;
    assert x * a == x * b + (x * k) * m by {
      assert x * (b + k * m) == x * b + x * (k * m);
      assert x * (k * m) == (x * k) * m;
    }
    CongBy(x * a, x * b, m, x * k);
  }

  /** Congruent numbers less than `m` apart are equal. */
  lemma CongNear(a: int, b: int, m: int)
    requires Cong(a, b, m) && m > 0 && -m < a - b < m
    ensures a == b
  {
    var k :| a == b + k * m;
    MulBounds(m, k);
    assert m * k == k * m;
  }

  function Pow2(n: nat): (r: nat)
    ensures r > 0
  {
    if n == 0 then 1 else 2 * Pow2(n - 1)
  }

  lemma MulAssoc(a: int, b: int, c: int)
    ensures (a * b) * c == a * (b * c)
  {
  }

  lemma {:induction false} Pow2Add(a: nat, b: nat)
    ensures Pow2(a + b) == Pow2(a) * Pow2(b)
  {
    if a > 0 {
      Pow2Add(a - 1, b);
      assert Pow2(a + b) == 2 * Pow2(a - 1 + b);
      MulAssoc(2, Pow2(a - 1), Pow2(b));
    }
  }

  lemma {:induction false} Pow256Is(n: nat)
    ensures Pow256(n) == Pow2(8 * n)
  {
    if n > 0 {
      Pow256Is(n - 1);
      Pow2Add(8, 8 * (n - 1));
      assert Pow2(8) == 256 by { Pow2Small(); }
    }
  }

  lemma Pow2Small()
    ensures Pow2(0) == 1 && Pow2(1) == 2 && Pow2(2) == 4 && Pow2(3) == 8
    ensures Pow2(4) == 16 && Pow2(5) == 32 && Pow2(6) == 64 && Pow2(7) == 128 && Pow2(8) == 256
  {
    assert Pow2(4) == 2 * Pow2(3);
    assert Pow2(5) == 2 * Pow2(4);
    assert Pow2(6) == 2 * Pow2(5);
    assert Pow2(7) == 2 * Pow2(6);
    assert Pow2(8) == 2 * Pow2(7);
  }

  lemma {:induction false} Pow256Add(a: nat, b: nat)
    ensures Pow256(a + b) == Pow256(a) * Pow256(b)
  {
    if a > 0 {
      Pow256Add(a - 1, b);
      assert Pow256(a + b) == 256 * Pow256(a - 1 + b);
      MulAssoc(256, Pow256(a - 1), Pow256(b));
    }
  }

  // ----- big-endian numbers; digits may exceed the base -----

  function Num(s: seq<int>): int {
    if |s| == 0 then 0 else 256 * Num(s[..|s| - 1]) + s[|s| - 1]
  }

  ghost predicate Digits(s: seq<int>) { forall i | 0 <= i < |s| :: 0 <= s[i] < 256 }

  ghost predicate Naturals(s: seq<int>) { forall i | 0 <= i < |s| :: 0 <= s[i] }

  ghost predicate AllZero(s: seq<int>) { forall i | 0 <= i < |s| :: s[i] == 0 }

  lemma NumSnoc(s: seq<int>, d: int)
    ensures Num(s + [d]) == 256 * Num(s) + d
  {
    assert (s + [d])[..|s|] == s;
  }

  lemma {:induction false} NumConcat(a: seq<int>, b: seq<int>)
    ensures Num(a + b) == Num(a) * Pow256(|b|) + Num(b)
    decreases |b|
  {
    if |b| == 0 {
      assert a + b == a;
    } else {
      var b' := b[..|b| - 1];
      NumConcat(a, b');
      assert (a + b)[..|a + b| - 1] == a + b';
      assert 256 * (Num(a) * Pow256(|b'|)) == Num(a) * (256 * Pow256(|b'|));
    }
  }

  lemma NumOne(d: int)
    ensures Num([d]) == d
  {
    assert [d][..0] == [];
  }

  lemma NumCons(d: int, s: seq<int>)
    ensures Num([d] + s) == d * Pow256(|s|) + Num(s)
  {
    hide Num, Pow256;
    NumConcat([d], s);
    NumOne(d);
  }

  lemma {:induction false} NumBounds(s: seq<int>)
    requires Digits(s)
    ensures 0 <= Num(s) < Pow256(|s|)
  {
    if |s| > 0 {
      NumBounds(s[..|s| - 1]);
    }
  }

  lemma {:induction false} NumNatural(s: seq<int>)
    requires Naturals(s)
    ensures Num(s) >= 0 && (Num(s) == 0 <==> AllZero(s))
  {
    if |s| > 0 {
      NumNatural(s[..|s| - 1]);
    }
  }

  /** Two digit strings of one length with one value are the same string. */
  lemma {:induction false} NumInjective(s: seq<int>, t: seq<int>)
    requires Digits(s) && Digits(t) && |s| == |t| && Num(s) == Num(t)
    ensures s == t
  {
    if |s| > 0 {
      var s', t' := s[..|s| - 1], t[..|t| - 1];
      assert s[|s| - 1] == t[|t| - 1] && Num(s') == Num(t');
      NumInjective(s', t');
      assert s == s' + [s[|s| - 1]] && t == t' + [t[|t| - 1]];
    }
  }

  /** Numbers of a sum taken digit by digit. */
  lemma {:induction false} NumPlus(s: seq<int>, t: seq<int>, u: seq<int>)
    requires |s| == |t| == |u| && forall i | 0 <= i < |s| :: u[i] == s[i] + t[i]
    ensures Num(u) == Num(s) + Num(t)
  {
    if |s| > 0 {
      NumPlus(s[..|s| - 1], t[..|s| - 1], u[..|s| - 1]);
    }
  }

  lemma {:induction false} NumTimes(s: seq<int>, u: seq<int>, x: int)
    requires |s| == |u| && forall i | 0 <= i < |s| :: u[i] == x * s[i]
    ensures Num(u) == x * Num(s)
  {
    if |s| > 0 {
      NumTimes(s[..|s| - 1], u[..|s| - 1], x);
      assert 256 * (x * Num(s[..|s| - 1])) == x * (256 * Num(s[..|s| - 1]));
      assert x * (256 * Num(s[..|s| - 1]) + s[|s| - 1]) == x * (256 * Num(s[..|s| - 1])) + x * s[|s| - 1];
    }
  }

  /** All bytes set: one less than a power. */
  function Full(n: nat): (r: nat) { Pow256(n) - 1 }

  lemma PowIsOne(n: nat)
    ensures Cong(Pow256(n), 1, Full(n))
  {
    CongBy(Pow256(n), 1, Full(n), 1);
  }

  lemma RotateAlgebra(d: int, p: int, x: int)
    ensures 256 * x + d == 256 * (d * p + x) - d * (256 * p - 1)
  {
  }

  /** Moving the first digit to the end. */
  lemma NumRotateLeft(s: seq<int>)
    requires |s| > 0
    ensures Num(s[1..] + [s[0]]) == 256 * Num(s) - s[0] * Full(|s|)
  {
    hide Num;
    var d, r := s[0], s[1..];
    NumSnoc(r, d);
    assert s == [d] + r;
    NumCons(d, r);
    RotateAlgebra(d, Pow256(|r|), Num(r));
  }
}
