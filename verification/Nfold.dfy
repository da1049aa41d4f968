/**
 * The n-fold function of section 5.1 of RFC 3961: copies of the input, each rotated 13 bits
 * further, cut into blocks of the output length and added with end-around carry.
 */
module Nfold {
  import opened Bytes
  import opened Modular

  // ----- greatest common divisor -----

  ghost predicate Divides(d: nat, a: nat) { exists k: nat :: a == d * k }

  function Gcd(a: nat, b: nat): nat
    decreases b
  {
    if b == 0 then a else Gcd(b, a % b)
  }

  method ComputeGcd(a: nat, b: nat) returns (g: nat)
    ensures g == Gcd(a, b)
  {
    var x, y := a, b;
    while y != 0
      invariant Gcd(x, y) == Gcd(a, b)
      decreases y
    {
      x, y := y, x % y;
    }
    g := x;
  }

  lemma DividesBy(d: nat, a: nat, k: nat)
    requires a == d * k
    ensures Divides(d, a)
  {
  }

  lemma DividesSum(d: nat, x: nat, y: nat)
    requires Divides(d, x) && Divides(d, y)
    ensures Divides(d, x + y)
  {
    var k: nat :| x == d * k;
    var l: nat :| y == d * l;
    DividesBy(d, x + y, k + l);
  }

  lemma DividesDifference(d: nat, x: nat, y: nat)
    requires Divides(d, x) && Divides(d, x + y)
    ensures Divides(d, y)
  {
    var k: nat :| x == d * k;
    var l: nat :| x + y == d * l;
    assert y == d * (l - k);
    if l < k {
      assert d * (l - k) <= 0;
      DividesBy(d, y, 0);
    } else {
      DividesBy(d, y, l - k);
    }
  }

  lemma DividesTimes(d: nat, x: nat, q: nat)
    requires Divides(d, x)
    ensures Divides(d, x * q)
  {
    var k: nat :| x == d * k;
    assert x * q == d * (k * q);
    DividesBy(d, x * q, k * q);
  }

  /** `d` divides `a` and `b` exactly when it divides `b` and the remainder. */
  lemma DividesMod(d: nat, a: nat, b: nat)
    requires b > 0 && Divides(d, b)
    ensures Divides(d, a) <==> Divides(d, a % b)
  {
    hide Divides;
    var q := a / b;
    assert a == b * q + a % b;
    DividesTimes(d, b, q);
    if Divides(d, a) {
      DividesDifference(d, b * q, a % b);
    }
    if Divides(d, a % b) {
      DividesSum(d, b * q, a % b);
    }
  }

  /** The loop computes the greatest common divisor: the common divisors are its divisors. */
  lemma {:induction false} GcdIsGreatest(a: nat, b: nat, d: nat)
    ensures Divides(d, a) && Divides(d, b) <==> Divides(d, Gcd(a, b))
    decreases b
  {
    if b == 0 {
      DividesBy(d, 0, 0);
    } else {
      GcdIsGreatest(b, a % b, d);
      if Divides(d, b) {
        DividesMod(d, a, b);
      }
    }
  }

  lemma {:induction false} GcdPositive(a: nat, b: nat)
    requires a > 0 || b > 0
    ensures Gcd(a, b) > 0
    decreases b
  {
    if b != 0 { GcdPositive(b, a % b); }
  }

  lemma GcdDivides(a: nat, b: nat)
    requires a > 0
    ensures Gcd(a, b) > 0 && a == Gcd(a, b) * (a / Gcd(a, b)) && b == Gcd(a, b) * (b / Gcd(a, b))
  {
    hide Gcd;
    GcdPositive(a, b);
    var g := Gcd(a, b);
    DividesBy(g, g, 1);
    GcdIsGreatest(a, b, g);
    var k: nat :| a == g * k;
    var l: nat :| b == g * l;
    ModUnique(a, g, k, 0);
    ModUnique(b, g, l, 0);
  }

  function Lcm(a: nat, b: nat): nat
    requires a > 0
  {
    GcdPositive(a, b);
    QuotientTimes(a, Gcd(a, b), b);
    a / Gcd(a, b) * b
  }

  lemma QuotientTimes(a: nat, g: nat, b: nat)
    requires g > 0
    ensures a / g * b >= 0
  {
    assert a / g >= 0;
  }

  /** The series is a whole number of copies and a whole number of blocks. */
  lemma LcmSplits(a: nat, b: nat)
    requires a > 0 && b > 0
    ensures Gcd(a, b) > 0
    ensures Lcm(a, b) == (b / Gcd(a, b)) * a && Lcm(a, b) == (a / Gcd(a, b)) * b
    ensures Lcm(a, b) / a == b / Gcd(a, b) && Lcm(a, b) / b == a / Gcd(a, b)
    ensures a / Gcd(a, b) > 0 && b / Gcd(a, b) > 0
  {
    hide Gcd;
    GcdDivides(a, b);
    var g := Gcd(a, b);
    var x, y := a / g, b / g;
    assert x * b == x * (g * y) == (g * x) * y == a * y;
    ModUnique(x * b, b, x, 0);
    ModUnique(x * b, a, y, 0);
    assert x == 0 ==> g * x == 0;
    assert y == 0 ==> g * y == 0;
  }

  // ----- cyclic rotation -----

  /**
   * One byte of the rotation: high bits from `a`, low bits from the byte before it. The two
   * shifted halves share no bit, so their bitwise or is their sum.
   */
  function Spliced(a: int, b: int, bitShift: nat): (r: byte)
    requires bitShift < 8
  {
    (a / Pow2(bitShift) + b * Pow2(8 - bitShift)) % 256
  }

  /** A position of a string of length `n`, counted cyclically. */
  function Cyclic(i: nat, n: nat): (r: nat)
    requires n > 0
    ensures r < n
  {
    i % n
  }

  function Rotated(data: seq<byte>, nbits: nat): (r: seq<byte>)
    ensures |r| == |data|
  {
    var len := |data|;
    if len == 0 then [] else
    var byteShift := Cyclic(nbits / 8, len);
    seq<byte>(len, i requires 0 <= i < len =>
      Spliced(data[Cyclic(i + len - byteShift, len)], data[Cyclic(i + len - byteShift + len - 1, len)], nbits % 8))
  }

  method RotateRightBits(data: seq<byte>, nbits: nat) returns (out: seq<byte>)
    ensures out == Rotated(data, nbits)
  {
    hide Spliced, Cyclic;
    var len := |data|;
    out := [];
    if len == 0 {
      return;
    }
    var byteShift := Cyclic(nbits / 8, len);
    var bitShift := nbits % 8;
    for i := 0 to len
      invariant |out| == i && forall k | 0 <= k < i :: out[k] == Rotated(data, nbits)[k]
    {
      var a := Cyclic(i + len - byteShift, len);
      var b := Cyclic(i + len - byteShift + len - 1, len);
      out := out + [Spliced(data[a], data[b], bitShift)];
    }
  }

  /** The bytes rotated, before the bits. */
  function RotBytes(data: seq<byte>, q: nat): (r: seq<byte>)
    requires q <= |data|
    ensures |r| == |data|
  {
    data[|data| - q..] + data[..|data| - q]
  }

  lemma ShiftAlgebra(x: int, y: int, p: int, p': int, m: int)
    requires m == p * p' - 1
    ensures p * (y * p' + x) == (x * p + y) + y * m
  {
    assert p * (y * p') == y * (p * p') by { assert p * (y * p') == (p * y) * p'; }
    assert y * (p * p' - 1) == y * (p * p') - y;
    assert p * (y * p' + x) == p * (y * p') + p * x;
  }

  lemma RotBytesValue(data: seq<byte>, q: nat)
    requires q <= |data|
    ensures Cong(Pow256(q) * Num(RotBytes(data, q)), Num(data), Full(|data|))
  {
    hide Num, Pow256, Cong, Full;
    var n := |data|;
    var a, b := data[..n - q], data[n - q..];
    assert data == a + b && RotBytes(data, q) == b + a;
    SwapValue(a, b);
  }

  lemma SwapValue(a: seq<byte>, b: seq<byte>)
    ensures Cong(Pow256(|b|) * Num(b + a), Num(a + b), Full(|a| + |b|))
  {
    hide Num, Pow256, Cong;
    var x, y, p, p' := Num(a), Num(b), Pow256(|b|), Pow256(|a|);
    assert Num(a + b) == x * p + y by { NumConcat(a, b); }
    assert Num(b + a) == y * p' + x by { NumConcat(b, a); }
    assert Full(|a| + |b|) == p * p' - 1 by { Pow256Add(|b|, |a|); }
    ShiftCong(x, y, p, p', Full(|a| + |b|), Num(b + a), Num(a + b));
  }

  lemma ShiftCong(x: int, y: int, p: int, p': int, m: int, r: int, v: int)
    requires m == p * p' - 1 && r == y * p' + x && v == x * p + y
    ensures Cong(p * r, v, m)
  {
    ShiftAlgebra(x, y, p, p', m);
    CongBy(p * r, v, m, y);
  }

  lemma SpliceSum(b: byte, x: int, y: int, p: nat, t: nat)
    requires p * t == 256 && b == p * x + y
    ensures b * t == 256 * x + y * t
  {
    assert (p * x + y) * t == (p * t) * x + y * t;
  }

  lemma SpliceBound(c: int, y: int, p: nat, t: nat)
    requires p > 0 && p * t == 256 && 0 <= y <= p - 1 && 0 <= c && p * c < 256
    ensures 0 <= c + y * t < 256 && p * (c + y * t) == p * c + 256 * y
  {
    assert c >= t ==> p * c >= p * t;
    assert y * t <= (p - 1) * t;
    assert p * (y * t) == y * (p * t);
  }

  lemma SpliceAlgebra(a: byte, b: byte, p: nat, t: nat)
    requires p > 0 && p * t == 256
    ensures p * ((a / p + b * t) % 256) == a - a % p + 256 * (b % p)
  {
    var x, y, c := b / p, b % p, a / p;
    SpliceSum(b, x, y, p, t);
    assert p * c == a - a % p;
    SpliceBound(c, y, p, t);
    ModUnique(c + b * t, 256, x, c + y * t);
  }

  /** Multiplying a spliced byte back up. */
  lemma SplicedValue(a: byte, b: byte, s: nat)
    requires s < 8
    ensures Pow2(s) * Spliced(a, b, s) == a - a % Pow2(s) + 256 * (b % Pow2(s))
  {
    hide Pow2;
    Pow2Add(s, 8 - s);
    Pow2Small();
    SpliceAlgebra(a, b, Pow2(s), Pow2(8 - s));
  }

  /** The low bits each byte hands to its right neighbour. */
  function LowBits(r: seq<byte>, p: nat): (l: seq<int>)
    requires p > 0
    ensures |l| == |r| && forall i | 0 <= i < |r| :: l[i] == r[i] % p
  {
    seq(|r|, i requires 0 <= i < |r| => r[i] % p)
  }

  lemma RotatedAt(data: seq<byte>, nbits: nat, i: nat)
    requires i < |data|
    ensures var n := |data|;
            var r := RotBytes(data, Cyclic(nbits / 8, n));
            Rotated(data, nbits)[i] == Spliced(r[i], r[if i == 0 then n - 1 else i - 1], nbits % 8)
  {
    hide Spliced, Cyclic, RotBytes;
    var n := |data|;
    var q := Cyclic(nbits / 8, n);
    RotIndex(data, q, i);
    RotIndex(data, q, if i == 0 then n - 1 else i - 1);
    if i > 0 {
      CyclicPlus(i - 1 + n - q, n);
      assert (i - 1 + n - q) + n == i + n - q + n - 1;
    }
  }

  lemma CyclicPlus(a: nat, n: nat)
    requires n > 0
    ensures Cyclic(a + n, n) == Cyclic(a, n)
  {
    assert a == n * (a / n) + a % n;
    assert a + n == n * (a / n + 1) + a % n;
    ModUnique(a + n, n, a / n + 1, a % n);
  }

  lemma RotIndex(data: seq<byte>, q: nat, i: nat)
    requires i < |data| && q < |data|
    ensures RotBytes(data, q)[i] == data[Cyclic(i + |data| - q, |data|)]
  {
    var n := |data|;
    if i < q {
      ModUnique(i + n - q, n, 0, i + n - q);
    } else {
      ModUnique(i + n - q, n, 1, i - q);
    }
  }

  /** Digits that trade their low part for their left neighbour's, by value. */
  lemma TradedValue(r: seq<int>, low: seq<int>, out: seq<int>, p: int)
    requires |r| == |low| == |out| > 0
    requires forall i | 0 <= i < |r| :: p * out[i] == r[i] - low[i] + 256 * low[if i == 0 then |r| - 1 else i - 1]
    ensures p * Num(out) == Num(r) + low[|r| - 1] * Full(|r|)
  {
    hide Num, Full;
    var n := |r|;
    var moved := [low[n - 1]] + low[..n - 1];
    var up := seq(n, i requires 0 <= i < n => p * out[i]);
    var rest := seq(n, i requires 0 <= i < n => r[i] - low[i]);
    var carried := seq(n, i requires 0 <= i < n => 256 * moved[i]);
    NumTimes(out, up, p);
    NumPlus(rest, carried, up);
    NumTimes(moved, carried, 256);
    NumPlus(rest, low, r);
    assert moved[1..] + [moved[0]] == low;
    NumRotateLeft(moved);
  }

  /** `p * value(out)` exceeds `value(r)` by the wrapped low bits. */
  lemma BitShiftValue(data: seq<byte>, nbits: nat)
    requires |data| > 0
    ensures var n := |data|;
            var r := RotBytes(data, Cyclic(nbits / 8, n));
            && Pow2(nbits % 8) * Num(Rotated(data, nbits)) == Num(r) + (r[n - 1] % Pow2(nbits % 8)) * Full(n)
  {
    hide Num, Spliced, Rotated, RotBytes, Full, Pow2, Cyclic;
    var n, s := |data|, nbits % 8;
    var p := Pow2(s);
    var r, out := RotBytes(data, Cyclic(nbits / 8, n)), Rotated(data, nbits);
    var low := LowBits(r, p);
    forall i | 0 <= i < n
      ensures p * out[i] == r[i] - low[i] + 256 * low[if i == 0 then n - 1 else i - 1]
    {
      RotatedAt(data, nbits, i);
      SplicedValue(r[i], r[if i == 0 then n - 1 else i - 1], s);
    }
    TradedValue(r, low, out, p);
  }

  lemma {:induction false} PowMultiple(n: nat, c: nat)
    ensures Cong(Pow256(n * c), 1, Full(n))
    decreases c
  {
    if c == 0 {
      assert n * c == 0;
      CongRefl(1, Full(n));
    } else {
      PowMultiple(n, c - 1);
      assert n * c == n + n * (c - 1);
      Pow256Add(n, n * (c - 1));
      CongMul(Pow256(n * (c - 1)), 1, Pow256(n), Full(n));
      PowIsOne(n);
      CongTrans(Pow256(n * c), Pow256(n), 1, Full(n));
    }
  }

  lemma DivSplit(b: nat, n: nat)
    requires n > 0
    ensures n * (b / n) >= 0 && b == n * (b / n) + b % n
  {
  }

  /** The power of two a rotation stands for. */
  lemma PowOfBits(nbits: nat, n: nat)
    requires n > 0
    ensures Pow2(nbits) == Pow256(n * (nbits / 8 / n)) * (Pow256(Cyclic(nbits / 8, n)) * Pow2(nbits % 8))
  {
    hide Pow2, Pow256;
    var b := nbits / 8;
    Pow2Add(8 * b, nbits % 8);
    Pow256Is(b);
    DivSplit(b, n);
    Pow256Add(n * (b / n), b % n);
    MulAssoc(Pow256(n * (b / n)), Pow256(b % n), Pow2(nbits % 8));
  }

  /** Rotation right by `nbits` divides the value by 2^nbits, modulo 2^(8 len) - 1, and keeps zero apart. */
  lemma RotatedValue(data: seq<byte>, nbits: nat)
    requires |data| > 0
    ensures Cong(Pow2(nbits) * Num(Rotated(data, nbits)), Num(data), Full(|data|))
    ensures AllZero(Rotated(data, nbits)) <==> AllZero(data)
  {
    hide Num, Pow2, Pow256, Full, Rotated, RotBytes;
    var n := |data|;
    var m, out, q, s := Full(n), Rotated(data, nbits), Cyclic(nbits / 8, n), nbits % 8;
    var r := RotBytes(data, q);
    var v := Num(out);
    BitShiftValue(data, nbits);
    CongBy(Pow2(s) * v, Num(r), m, r[n - 1] % Pow2(s));
    RotBytesValue(data, q);
    PowMultiple(n, nbits / 8 / n);
    RotateCong(v, Num(r), Num(data), Pow256(q), Pow2(s), Pow256(n * (nbits / 8 / n)), m);
    PowOfBits(nbits, n);
    RotatedZero(data, nbits);
  }

  /** Shifting bits by `s`, bytes by `p` and whole turns by `t`. */
  lemma RotateCong(v: int, r: int, d: int, p: int, s: int, t: int, m: int)
    requires Cong(s * v, r, m) && Cong(p * r, d, m) && Cong(t, 1, m)
    ensures Cong((t * (p * s)) * v, d, m)
  {
    hide Cong;
    var w := p * (s * v);
    CongMul(s * v, r, p, m);
    CongTrans(w, p * r, d, m);
    CongMul(t, 1, w, m);
    CongTrans(w * t, w * 1, d, m);
    assert w * t == (t * (p * s)) * v by {
      MulAssoc(p, s, v);
      MulAssoc(t, p * s, v);
    }
  }

  lemma RotatedZero(data: seq<byte>, nbits: nat)
    requires |data| > 0
    ensures AllZero(Rotated(data, nbits)) <==> AllZero(data)
  {
    hide Num, Rotated, RotBytes;
    var n := |data|;
    var out, q, p := Rotated(data, nbits), Cyclic(nbits / 8, n), Pow2(nbits % 8);
    var r := RotBytes(data, q);
    BitShiftValue(data, nbits);
    NumNatural(out);
    NumNatural(r);
    if AllZero(out) {
      var x := r[n - 1] % p;
      assert p * 0 == Num(r) + x * Full(n) && x * Full(n) >= 0;
      RotZero(data, q);
    }
    if AllZero(data) {
      RotZero(data, q);
      ZeroDivides(p);
      assert Num(out) > 0 ==> p * Num(out) > 0;
      assert p * Num(out) == 0 + 0 * Full(n);
    }
  }

  lemma ZeroDivides(p: nat)
    requires p > 0
    ensures 0 % p == 0
  {
  }

  lemma RotZero(data: seq<byte>, q: nat)
    requires q <= |data|
    ensures AllZero(RotBytes(data, q)) <==> AllZero(data)
  {
    var r, n := RotBytes(data, q), |data|;
    if AllZero(r) {
      forall i | 0 <= i < n
        ensures data[i] == 0
      {
        var k := if i < n - q then i + q else i - (n - q);
        assert r[k] == data[i];
      }
    }
  }

  /** Undoing a power of two modulo 2^(8n) - 1. */
  lemma CancelPow(x: int, y: int, k: nat, n: nat)
    requires n > 0 && Cong(Pow2(k) * x, Pow2(k) * y, Full(n))
    ensures Cong(x, y, Full(n))
  {
    hide Pow2, Pow256, Full;
    var m := Full(n);
    var e := 8 * (n * k) - k;
    assert e >= 0 by { assert n * k >= k; }
    Pow2Add(e, k);
    Pow256Is(n * k);
    var t := Pow256(n * k);
    assert t == Pow2(e) * Pow2(k);
    PowMultiple(n, k);
    CongMul(Pow2(k) * x, Pow2(k) * y, Pow2(e), m);
    MulAssoc(Pow2(e), Pow2(k), x);
    MulAssoc(Pow2(e), Pow2(k), y);
    CongMul(t, 1, x, m);
    CongMul(t, 1, y, m);
    assert x * t == t * x && y * t == t * y;
    CongSym(t * x, x, m);
    CongTrans(x, t * x, t * y, m);
    CongTrans(x, t * y, y, m);
  }

  /** Congruent digit strings of one length are equal, if both or neither are all zero. */
  lemma SameString(s: seq<byte>, t: seq<byte>)
    requires |s| == |t| > 0 && Cong(Num(s), Num(t), Full(|s|)) && (AllZero(s) <==> AllZero(t))
    ensures s == t
  {
    hide Num;
    var m := Full(|s|);
    NumBounds(s);
    NumBounds(t);
    NumNatural(s);
    NumNatural(t);
    CongNear(Num(s), Num(t), m);
    NumInjective(s, t);
  }

  /** The value congruence and the zero rule determine a rotation. */
  lemma RotationUnique(data: seq<byte>, nbits: nat, out: seq<byte>)
    requires |data| == |out| > 0
    requires Cong(Pow2(nbits) * Num(out), Num(data), Full(|data|)) && (AllZero(out) <==> AllZero(data))
    ensures out == Rotated(data, nbits)
  {
    hide Num, Pow2, Rotated, Full;
    var r, m := Rotated(data, nbits), Full(|data|);
    RotatedValue(data, nbits);
    CongSym(Pow2(nbits) * Num(r), Num(data), m);
    CongTrans(Pow2(nbits) * Num(out), Num(data), Pow2(nbits) * Num(r), m);
    CancelPow(Num(out), Num(r), nbits, |data|);
    SameString(out, r);
  }

  /** Rotations compose by adding counts. */
  lemma RotationsCompose(data: seq<byte>, a: nat, b: nat)
    ensures Rotated(Rotated(data, a), b) == Rotated(data, a + b)
  {
    hide Num, Pow2, Full;
    if |data| > 0 {
      hide Rotated;
      var r := Rotated(data, a);
      var out, m := Rotated(r, b), Full(|data|);
      RotatedValue(data, a);
      RotatedValue(r, b);
      CongMul(Pow2(b) * Num(out), Num(r), Pow2(a), m);
      Pow2Add(a, b);
      MulAssoc(Pow2(a), Pow2(b), Num(out));
      CongTrans(Pow2(a + b) * Num(out), Pow2(a) * Num(r), Num(data), m);
      RotationUnique(data, a + b, out);
    }
  }

  // ----- the rotated copies, cut into blocks and added -----

  /** The copies one after another, the i-th rotated right by 13 i bits. */
  function Series(input: seq<byte>, copies: nat): (r: seq<byte>)
    ensures |r| == copies * |input|
  {
    if copies == 0 then [] else Series(input, copies - 1) + Rotated(input, 13 * (copies - 1))
  }

  /** Block `c` of a series cut into blocks of `n`. */
  function Block(series: seq<byte>, n: nat, c: nat): (r: seq<byte>)
    requires (c + 1) * n <= |series|
    ensures |r| == n
  {
    assert (c + 1) * n == c * n + n;
    series[c * n..c * n + n]
  }

  /** The 16-bit cells after `c` blocks. */
  function Cells(series: seq<byte>, n: nat, c: nat): (r: seq<int>)
    requires c * n <= |series|
    ensures |r| == n && forall j | 0 <= j < n :: 0 <= r[j] < TWO16
    decreases c
  {
    if c == 0 then seq(n, _ => 0) else
    assert c * n == (c - 1) * n + n;
    var before := Cells(series, n, c - 1);
    seq(n, j requires 0 <= j < n => (before[j] + Block(series, n, c - 1)[j]) % TWO16)
  }

  /** The same sums without the 16-bit bound. */
  function Sums(series: seq<byte>, n: nat, c: nat): (r: seq<int>)
    requires c * n <= |series|
    ensures |r| == n && forall j | 0 <= j < n :: 0 <= r[j] <= 255 * c
    decreases c
  {
    if c == 0 then seq(n, _ => 0) else
    assert c * n == (c - 1) * n + n;
    var before, block := Sums(series, n, c - 1), Block(series, n, c - 1);
    assert forall j | 0 <= j < n :: 0 <= block[j] <= 255;
    seq(n, j requires 0 <= j < n => before[j] + block[j])
  }

  // ----- end-around carry -----

  /** One pass: every cell keeps its low byte and takes its right neighbour's high byte. */
  function CarryPass(r: seq<int>): (next: seq<int>)
    requires |r| > 0
    ensures |next| == |r|
  {
    seq(|r|, i requires 0 <= i < |r| => r[Cyclic(i + 1, |r|)] / 256 + r[i] % 256)
  }

  function DigitSum(r: seq<int>): int {
    if |r| == 0 then 0 else DigitSum(r[..|r| - 1]) + r[|r| - 1]
  }

  lemma {:induction false} SumPlus(s: seq<int>, t: seq<int>, u: seq<int>)
    requires |s| == |t| == |u| && forall i | 0 <= i < |s| :: u[i] == s[i] + t[i]
    ensures DigitSum(u) == DigitSum(s) + DigitSum(t)
  {
    if |s| > 0 { SumPlus(s[..|s| - 1], t[..|s| - 1], u[..|s| - 1]); }
  }

  lemma {:induction false} SumTimes(s: seq<int>, u: seq<int>, x: int)
    requires |s| == |u| && forall i | 0 <= i < |s| :: u[i] == x * s[i]
    ensures DigitSum(u) == x * DigitSum(s)
  {
    if |s| > 0 {
      SumTimes(s[..|s| - 1], u[..|s| - 1], x);
      assert x * (DigitSum(s[..|s| - 1]) + s[|s| - 1]) == x * DigitSum(s[..|s| - 1]) + x * s[|s| - 1];
    }
  }

  lemma {:induction false} SumConcat(a: seq<int>, b: seq<int>)
    ensures DigitSum(a + b) == DigitSum(a) + DigitSum(b)
    decreases |b|
  {
    if |b| == 0 {
      assert a + b == a;
    } else {
      SumConcat(a, b[..|b| - 1]);
      assert (a + b)[..|a + b| - 1] == a + b[..|b| - 1];
    }
  }

  lemma {:induction false} SumNatural(s: seq<int>)
    requires Naturals(s)
    ensures DigitSum(s) >= 0 && (DigitSum(s) == 0 <==> AllZero(s))
  {
    if |s| > 0 { SumNatural(s[..|s| - 1]); }
  }

  /** High and low bytes of every cell, the high ones moved one cell left. */
  lemma CarrySplit(r: seq<int>) returns (high: seq<int>, low: seq<int>, moved: seq<int>, up: seq<int>)
    requires |r| > 0 && Naturals(r)
    ensures |high| == |low| == |moved| == |up| == |r| && Naturals(high) && Naturals(low)
    ensures forall i | 0 <= i < |r| :: high[i] == r[i] / 256 && up[i] == 256 * high[i] && r[i] == up[i] + low[i]
    ensures moved == high[1..] + [high[0]]
    ensures forall i | 0 <= i < |r| :: CarryPass(r)[i] == moved[i] + low[i]
  {
    var n := |r|;
    high := seq(n, i requires 0 <= i < n => r[i] / 256);
    low := seq(n, i requires 0 <= i < n => r[i] % 256);
    up := seq(n, i requires 0 <= i < n => 256 * high[i]);
    moved := high[1..] + [high[0]];
    forall i | 0 <= i < n
      ensures CarryPass(r)[i] == moved[i] + low[i]
    {
      CarryAt(r, i);
      var k := if i + 1 < n then i + 1 else 0;
      ModUnique(i + 1, n, if i + 1 < n then 0 else 1, k);
      assert Cyclic(i + 1, n) == k && moved[i] == high[k];
    }
  }

  /** A pass keeps the value modulo 2^(8n) - 1 and keeps zero apart. */
  lemma CarryKeepsValue(r: seq<int>)
    requires |r| > 0 && Naturals(r)
    ensures Naturals(CarryPass(r))
    ensures Cong(Num(CarryPass(r)), Num(r), Full(|r|))
    ensures AllZero(CarryPass(r)) <==> AllZero(r)
  {
    hide CarryPass, Num, Full, Cong, DigitSum, AllZero;
    CarryKeepsSum(r);
    SumNatural(r);
    SumNatural(CarryPass(r));
    CarryNum(r);
  }

  lemma CarryNum(r: seq<int>)
    requires |r| > 0 && Naturals(r)
    ensures Cong(Num(CarryPass(r)), Num(r), Full(|r|))
  {
    hide CarryPass, Num, Full, Cong;
    var high, low, moved, up := CarrySplit(r);
    NumPlus(moved, low, CarryPass(r));
    NumPlus(up, low, r);
    NumTimes(high, up, 256);
    NumRotateLeft(high);
    var h, f := high[0], Full(|r|);
    assert (-h) * f == -(h * f);
    CongBy(Num(CarryPass(r)), Num(r), f, -h);
  }

  /** A pass takes 255 off the digit sum for every unit carried. */
  lemma CarryKeepsSum(r: seq<int>)
    requires |r| > 0 && Naturals(r)
    ensures Naturals(CarryPass(r))
    ensures DigitSum(CarryPass(r)) <= DigitSum(r)
    ensures (exists i | 0 <= i < |r| :: r[i] > 255) ==> DigitSum(CarryPass(r)) < DigitSum(r)
    ensures DigitSum(CarryPass(r)) == 0 <==> DigitSum(r) == 0
  {
    hide CarryPass, DigitSum;
    var high, low, moved, up := CarrySplit(r);
    SumPlus(moved, low, CarryPass(r));
    SumPlus(up, low, r);
    SumTimes(high, up, 256);
    SumConcat([high[0]], high[1..]);
    SumConcat(high[1..], [high[0]]);
    assert [high[0]] + high[1..] == high;
    SumNatural(high);
    SumNatural(low);
  }

  /** Passes until no cell exceeds a byte. */
  function Settled(r: seq<int>): (s: seq<byte>)
    requires |r| > 0 && Naturals(r)
    ensures |s| == |r|
    decreases DigitSum(r)
  {
    CarryKeepsSum(r);
    SumNatural(r);
    SumNatural(CarryPass(r));
    if exists i | 0 <= i < |r| :: r[i] > 255 then Settled(CarryPass(r)) else r
  }

  lemma {:induction false} SettledValue(r: seq<int>)
    requires |r| > 0 && Naturals(r)
    ensures Cong(Num(Settled(r)), Num(r), Full(|r|))
    ensures AllZero(Settled(r)) <==> AllZero(r)
    decreases DigitSum(r)
  {
    hide CarryPass, Num, Full;
    CongRefl(Num(r), Full(|r|));
    CarryKeepsSum(r);
    SumNatural(r);
    SumNatural(CarryPass(r));
    if exists i | 0 <= i < |r| :: r[i] > 255 {
      CarryKeepsValue(r);
      SettledValue(CarryPass(r));
      CongTrans(Num(Settled(CarryPass(r))), Num(CarryPass(r)), Num(r), Full(|r|));
    }
  }

  // ----- n-fold -----

  /** How many blocks are added: the input length over the common divisor. */
  function Blocks(inLen: nat, outLen: nat): nat
    requires inLen > 0
  {
    GcdPositive(inLen, outLen);
    inLen / Gcd(inLen, outLen)
  }

  function Copies(inLen: nat, outLen: nat): nat
    requires inLen > 0
  {
    Lcm(inLen, outLen) / inLen
  }

  lemma SeriesLength(input: seq<byte>, outLen: nat)
    requires input != [] && outLen > 0
    ensures Copies(|input|, outLen) > 0 && Blocks(|input|, outLen) > 0
    ensures Copies(|input|, outLen) * |input| == Lcm(|input|, outLen)
    ensures Blocks(|input|, outLen) * outLen == Lcm(|input|, outLen)
  {
    hide Lcm, Gcd;
    LcmSplits(|input|, outLen);
  }

  function NFold(input: seq<byte>, outLen: nat): (r: seq<byte>)
    requires input != [] && outLen > 0
    ensures |r| == outLen
  {
    SeriesLength(input, outLen);
    Settled(Cells(Series(input, Copies(|input|, outLen)), outLen, Blocks(|input|, outLen)))
  }

  /** `nfold` for inputs it accepts: it divides by the input length and steps by the output length. */
  method ComputeNFold(input: seq<byte>, outLen: nat) returns (out: seq<byte>)
    requires input != [] && outLen > 0
    ensures out == NFold(input, outLen)
  {
    hide Rotated, Gcd, Settled, CarryPass, DigitSum;
    var inLen := |input|;
    SeriesLength(input, outLen);
    var g := ComputeGcd(inLen, outLen);
    GcdPositive(inLen, outLen);
    var lcm := inLen / g * outLen;
    var copies := lcm / inLen;
    var series: seq<byte> := [];
    for i := 0 to copies
      invariant series == Series(input, i)
    {
      var rotated := RotateRightBits(input, 13 * i);
      series := series + rotated;
    }
    var result := AddBlocks(series, outLen, Blocks(inLen, outLen));
    ghost var cells := result[..];
    while exists i | 0 <= i < outLen :: result[i] > 255
      invariant result.Length == outLen && Naturals(result[..]) && fresh(result)
      invariant Settled(result[..]) == Settled(cells)
      decreases DigitSum(result[..])
    {
      ghost var r := result[..];
      SettledStep(r);
      var next := new nat[outLen](_ => 0);
      for i := 0 to outLen
        invariant result[..] == r && next[..i] == CarryPass(r)[..i]
      {
        var from := Cyclic(i + 1, outLen);
        CarryAt(r, i);
        next[i] := result[from] / 256 + result[i] % 256;
        assert next[..i + 1] == next[..i] + [next[i]];
        assert CarryPass(r)[..i + 1] == CarryPass(r)[..i] + [CarryPass(r)[i]];
      }
      result := next;
      assert result[..] == CarryPass(r);
    }
    SettledDone(result[..]);
    out := seq(outLen, i requires 0 <= i < outLen reads result => if result[i] < 256 then result[i] else 0);
    assert out == result[..];
  }

  lemma CarryAt(r: seq<int>, i: nat)
    requires i < |r| && Naturals(r)
    ensures CarryPass(r)[i] == r[Cyclic(i + 1, |r|)] / 256 + r[i] % 256 >= 0
  {
  }

  lemma SettledStep(r: seq<int>)
    requires |r| > 0 && Naturals(r) && exists i | 0 <= i < |r| :: r[i] > 255
    ensures Naturals(CarryPass(r)) && Settled(r) == Settled(CarryPass(r)) && DigitSum(CarryPass(r)) < DigitSum(r)
    ensures DigitSum(CarryPass(r)) >= 0
  {
    CarryKeepsSum(r);
    SumNatural(CarryPass(r));
  }

  lemma SettledDone(r: seq<int>)
    requires |r| > 0 && Naturals(r) && forall i | 0 <= i < |r| :: r[i] <= 255
    ensures Settled(r) == r
  {
  }

  /** The nested loop that adds the blocks into the 16-bit cells, in place. */
  method AddBlocks(series: seq<byte>, n: nat, ghost c: nat) returns (result: array<nat>)
    requires n > 0 && |series| == c * n
    ensures fresh(result) && result.Length == n && result[..] == Cells(series, n, c)
  {
    result := new nat[n](_ => 0);
    ghost var k := 0;
    var start := 0;
    assert result[..] == Cells(series, n, 0);
    while start < |series|
      invariant 0 <= k <= c && start == k * n
      invariant result[..] == Cells(series, n, k)
      decreases |series| - start
    {
      assert k < c;
      MulLe(k + 1, c, n);
      ghost var before := result[..];
      for j := 0 to n
        invariant forall i | 0 <= i < j :: result[i] == Cells(series, n, k + 1)[i]
        invariant forall i | j <= i < n :: result[i] == before[i]
      {
        assert Block(series, n, k)[j] == series[start + j];
        result[j] := (result[j] + series[start + j]) % TWO16;
      }
      start := start + n;
      k := k + 1;
    }
    assert k == c by { MulLe(k, c, n); }
  }

  lemma MulLe(a: nat, b: nat, n: nat)
    requires n > 0
    ensures a <= b ==> a * n <= b * n
    ensures a < b ==> a * n < b * n
  {
  }

  // ----- what n-fold computes -----

  /** The 16-bit cells hold the sums modulo 2^16. */
  lemma {:induction false} CellsWrap(series: seq<byte>, n: nat, c: nat)
    requires c * n <= |series|
    ensures forall j | 0 <= j < n :: Cells(series, n, c)[j] == Sums(series, n, c)[j] % TWO16
    decreases c
  {
    hide Cells, Sums, Block;
    if c == 0 {
      CellsNone(series, n);
    } else {
      assert c * n == (c - 1) * n + n;
      CellsWrap(series, n, c - 1);
      forall j | 0 <= j < n
        ensures Cells(series, n, c)[j] == Sums(series, n, c)[j] % TWO16
      {
        CellsStep(series, n, c, j);
        WrapAdd(Sums(series, n, c - 1)[j], Block(series, n, c - 1)[j]);
      }
    }
  }

  lemma CellsNone(series: seq<byte>, n: nat)
    ensures forall j | 0 <= j < n :: Cells(series, n, 0)[j] == Sums(series, n, 0)[j] == 0
  {
  }

  lemma CellsStep(series: seq<byte>, n: nat, c: nat, j: nat)
    requires c > 0 && c * n <= |series| && j < n
    ensures (c - 1) * n <= |series| && (c - 1 + 1) * n <= |series|
    ensures Cells(series, n, c)[j] == (Cells(series, n, c - 1)[j] + Block(series, n, c - 1)[j]) % TWO16
    ensures Sums(series, n, c)[j] == Sums(series, n, c - 1)[j] + Block(series, n, c - 1)[j]
  {
    hide Block;
    assert c * n == (c - 1) * n + n;
  }

  lemma WrapAdd(x: nat, b: nat)
    ensures (x % TWO16 + b) % TWO16 == (x + b) % TWO16
  {
  }

  lemma BlocksSplit(series: seq<byte>, n: nat, c: nat)
    requires c > 0 && c * n <= |series|
    ensures (c - 1) * n + n == c * n && series[..c * n] == series[..(c - 1) * n] + Block(series, n, c - 1)
  {
    assert c * n == (c - 1) * n + n;
  }

  /** The column sums have the value of the series modulo 2^(8n) - 1. */
  lemma {:induction false} SumsValue(series: seq<byte>, n: nat, c: nat)
    requires n > 0 && c * n <= |series|
    ensures Cong(Num(Sums(series, n, c)), Num(series[..c * n]), Full(n))
    ensures AllZero(Sums(series, n, c)) <==> AllZero(series[..c * n])
    decreases c
  {
    var m, after := Full(n), Sums(series, n, c);
    if c == 0 {
      NumNatural(after);
      NumNatural(series[..0]);
      CongRefl(0, m);
    } else {
      BlocksSplit(series, n, c);
      hide Num, Pow256, Cong;
      var before, pre, block := Sums(series, n, c - 1), series[..(c - 1) * n], Block(series, n, c - 1);
      SumsValue(series, n, c - 1);
      NumPlus(before, block, after);
      NumConcat(pre, block);
      PowIsOne(n);
      CongMul(Pow256(n), 1, Num(pre), m);
      CongSym(Num(pre) * Pow256(n), Num(pre) * 1, m);
      CongTrans(Num(before), Num(pre), Num(pre) * Pow256(n), m);
      CongRefl(Num(block), m);
      CongAdd(Num(before), Num(pre) * Pow256(n), Num(block), Num(block), m);
      ZeroSum(before, block, after);
      ZeroConcat(pre, block);
    }
  }

  lemma ZeroSum(a: seq<int>, b: seq<int>, c: seq<int>)
    requires |a| == |b| == |c| && Naturals(a) && Naturals(b) && forall j | 0 <= j < |c| :: c[j] == a[j] + b[j]
    ensures AllZero(c) <==> AllZero(a) && AllZero(b)
  {
    if AllZero(c) {
      forall j | 0 <= j < |a| ensures a[j] == 0 && b[j] == 0 { assert c[j] == 0; }
    }
  }

  lemma ZeroConcat(a: seq<int>, b: seq<int>)
    ensures AllZero(a + b) <==> AllZero(a) && AllZero(b)
  {
    if AllZero(a + b) {
      forall j | 0 <= j < |a| ensures a[j] == 0 { assert (a + b)[j] == a[j]; }
      forall j | 0 <= j < |b| ensures b[j] == 0 { assert (a + b)[|a| + j] == b[j]; }
    }
  }

  lemma {:induction false} SeriesZero(input: seq<byte>, copies: nat)
    requires input != [] && copies > 0
    ensures AllZero(Series(input, copies)) <==> AllZero(input)
  {
    hide Rotated;
    RotatedZero(input, 13 * (copies - 1));
    ZeroConcat(Series(input, copies - 1), Rotated(input, 13 * (copies - 1)));
    if copies > 1 {
      SeriesZero(input, copies - 1);
    }
  }

  /** The unbounded column sums of an input. */
  function Columns(input: seq<byte>, outLen: nat): (r: seq<int>)
    requires input != [] && outLen > 0
    ensures |r| == outLen
  {
    SeriesLength(input, outLen);
    Sums(Series(input, Copies(|input|, outLen)), outLen, Blocks(|input|, outLen))
  }

  /** What n-fold is specified to return: the non-zero representative, zero only for zero. */
  ghost predicate Representative(out: seq<byte>, input: seq<byte>)
    requires input != [] && out != []
  {
    && Cong(Num(out), Num(Series(input, Copies(|input|, |out|))), Full(|out|))
    && 0 <= Num(out) <= Full(|out|)
    && (Num(out) == 0 <==> AllZero(input))
  }

  /**
   * With at most 257 blocks n-fold returns the representative in 1 .. 2^(8n) - 1 of the
   * concatenated rotated copies modulo 2^(8n) - 1, and zero only for an all-zero input.
   */
  lemma NFoldIsRepresentative(input: seq<byte>, outLen: nat)
    requires input != [] && outLen > 0 && Blocks(|input|, outLen) <= 257
    ensures Representative(NFold(input, outLen), input)
  {
    hide Num, Cong, Full, Series, Settled, Cells, Sums, Blocks, Copies;
    SeriesLength(input, outLen);
    var c, copies := Blocks(|input|, outLen), Copies(|input|, outLen);
    var series, m := Series(input, copies), Full(outLen);
    var cells, sums := Cells(series, outLen, c), Sums(series, outLen, c);
    CellsWrap(series, outLen, c);
    assert cells == sums;
    SumsValue(series, outLen, c);
    assert series[..c * outLen] == series;
    SettledValue(cells);
    var out := Settled(cells);
    CongTrans(Num(out), Num(sums), Num(series), m);
    SeriesZero(input, copies);
    NumNatural(out);
    NumBounds(out);
    FullIs(outLen);
  }

  lemma FullIs(n: nat)
    ensures Full(n) == Pow256(n) - 1
  {
  }

  /** There is only one such string, so the property above says which one n-fold returns. */
  lemma RepresentativeUnique(input: seq<byte>, a: seq<byte>, b: seq<byte>)
    requires input != [] && |a| == |b| > 0 && Representative(a, input) && Representative(b, input)
    ensures a == b
  {
    hide Num, Full, Series;
    var v, m := Num(Series(input, Copies(|input|, |a|))), Full(|a|);
    CongSym(Num(b), v, m);
    CongTrans(Num(a), v, Num(b), m);
    NumNatural(a);
    NumNatural(b);
    SameString(a, b);
  }

  // ----- when the 16-bit cells suffice -----

  ghost predicate NeverOverflows(inLen: nat, outLen: nat)
    requires inLen > 0 && outLen > 0
  {
    forall input: seq<byte>, j | |input| == inLen && 0 <= j < outLen :: Columns(input, outLen)[j] < TWO16
  }

  function Ones(n: nat): (r: seq<byte>)
    ensures |r| == n
  {
    seq<byte>(n, _ => 255)
  }

  lemma SplicedOnes(s: nat)
    requires s < 8
    ensures Spliced(255, 255, s) == 255
  {
    hide Pow2, Spliced;
    var p, t := Pow2(s), Pow2(8 - s);
    Pow2Add(s, 8 - s);
    Pow2Small();
    assert 255 == p * (t - 1) + (p - 1);
    ModUnique(255, p, t - 1, p - 1);
    SplicedValue(255, 255, s);
    var x := Spliced(255, 255, s);
    assert p * x == p * 255;
    MulBounds(p, x - 255);
    assert p * (x - 255) == 0;
  }

  lemma RotatedOnes(n: nat, nbits: nat)
    ensures Rotated(Ones(n), nbits) == Ones(n)
  {
    hide Spliced, Cyclic, Rotated;
    SplicedOnes(nbits % 8);
    forall i | 0 <= i < n
      ensures Rotated(Ones(n), nbits)[i] == 255
    {
      RotatedAt(Ones(n), nbits, i);
    }
  }

  lemma {:induction false} SeriesOnes(n: nat, copies: nat)
    ensures Series(Ones(n), copies) == Ones(copies * n)
  {
    hide Rotated;
    if copies > 0 {
      SeriesOnes(n, copies - 1);
      RotatedOnes(n, 13 * (copies - 1));
      assert copies * n == (copies - 1) * n + n;
    }
  }

  lemma {:induction false} SumsOnes(len: nat, n: nat, c: nat)
    requires c * n <= len
    ensures forall j | 0 <= j < n :: Sums(Ones(len), n, c)[j] == 255 * c
    decreases c
  {
    hide Cells, Sums, Block;
    if c == 0 {
      CellsNone(Ones(len), n);
    } else {
      assert c * n == (c - 1) * n + n;
      SumsOnes(len, n, c - 1);
      forall j | 0 <= j < n ensures Sums(Ones(len), n, c)[j] == 255 * c {
        CellsStep(Ones(len), n, c, j);
        BlockOnes(len, n, c - 1, j);
      }
    }
  }

  lemma BlockOnes(len: nat, n: nat, c: nat, j: nat)
    requires (c + 1) * n <= len && j < n
    ensures Block(Ones(len), n, c)[j] == 255
  {
  }

  /** No input of these lengths overflows a cell exactly when at most 257 blocks are added. */
  lemma OverflowExactly(inLen: nat, outLen: nat)
    requires inLen > 0 && outLen > 0
    ensures NeverOverflows(inLen, outLen) <==> Blocks(inLen, outLen) <= 257
  {
    hide Blocks, Copies, Series, Sums;
    var c, copies := Blocks(inLen, outLen), Copies(inLen, outLen);
    var input := Ones(inLen);
    SeriesLength(input, outLen);
    SeriesOnes(inLen, copies);
    SumsOnes(copies * inLen, outLen, c);
    assert Columns(input, outLen)[0] == 255 * c;
  }

  lemma {:induction false} NumOfOnes(n: nat)
    ensures Num(Ones(n)) == Full(n) && DigitSum(Ones(n)) == 255 * n
  {
    if n > 0 {
      NumOfOnes(n - 1);
      assert Ones(n)[..n - 1] == Ones(n - 1);
    }
  }

  lemma {:induction false} SettledSum(r: seq<int>)
    requires |r| > 0 && Naturals(r)
    ensures DigitSum(Settled(r)) <= DigitSum(r)
    decreases DigitSum(r)
  {
    hide CarryPass, DigitSum, Settled;
    SumNatural(r);
    if exists i | 0 <= i < |r| :: r[i] > 255 {
      SettledStep(r);
      SettledSum(CarryPass(r));
    } else {
      SettledDone(r);
    }
  }

  /** Digits that stand for a nonzero multiple of the modulus add up to at least 255 each. */
  lemma MultipleIsLarge(r: seq<int>)
    requires |r| > 0 && Naturals(r) && !AllZero(r) && Cong(Num(r), 0, Full(|r|))
    ensures DigitSum(r) >= 255 * |r|
  {
    hide Num, Cong, Full, Settled, DigitSum;
    var n, m, s := |r|, Full(|r|), Settled(r);
    SettledValue(r);
    SettledSum(r);
    NumOfOnes(n);
    CongBy(0, m, m, -1);
    CongTrans(Num(s), Num(r), 0, m);
    CongTrans(Num(s), 0, m, m);
    assert Ones(n)[0] == 255;
    SameString(s, Ones(n));
  }

  /** The columns add up to what the series adds up to. */
  lemma {:induction false} ColumnSum(series: seq<byte>, n: nat, c: nat)
    requires c * n <= |series|
    ensures DigitSum(Sums(series, n, c)) == DigitSum(series[..c * n])
    decreases c
  {
    hide DigitSum;
    var after := Sums(series, n, c);
    if c == 0 {
      SumNatural(after);
      SumNatural(series[..0]);
    } else {
      assert c * n == (c - 1) * n + n;
      ColumnSum(series, n, c - 1);
      var before, block := Sums(series, n, c - 1), Block(series, n, c - 1);
      SumPlus(before, block, after);
      SumConcat(series[..(c - 1) * n], block);
      assert series[..c * n] == series[..(c - 1) * n] + block;
    }
  }

  lemma ColumnsSum(input: seq<byte>, outLen: nat)
    requires input != [] && outLen > 0
    ensures DigitSum(Columns(input, outLen)) == DigitSum(Series(input, Copies(|input|, outLen)))
  {
    hide DigitSum, Series, Sums, Blocks, Copies;
    SeriesLength(input, outLen);
    var series, c := Series(input, Copies(|input|, outLen)), Blocks(|input|, outLen);
    ColumnSum(series, outLen, c);
    assert series[..c * outLen] == series;
  }

  ghost predicate Overflows(columns: seq<int>) { exists j | 0 <= j < |columns| :: columns[j] >= TWO16 }

  /** What 16-bit cells drop, cell by cell. */
  lemma Dropped(sums: seq<int>, cells: seq<int>) returns (over: seq<int>)
    requires |sums| == |cells| && Naturals(sums) && forall j | 0 <= j < |sums| :: cells[j] == sums[j] % TWO16
    ensures |over| == |sums| && Naturals(over) && (AllZero(over) <==> !Overflows(sums))
    ensures Num(sums) == Num(cells) + TWO16 * Num(over) && TWO16 * DigitSum(over) <= DigitSum(sums)
  {
    hide Num, DigitSum;
    var n := |sums|;
    over := seq(n, j requires 0 <= j < n => sums[j] / TWO16);
    var lost := seq(n, j requires 0 <= j < n => TWO16 * over[j]);
    assert forall j | 0 <= j < n :: (over[j] == 0 <==> sums[j] < TWO16) && over[j] >= 0;
    NumTimes(over, lost, TWO16);
    NumPlus(cells, lost, sums);
    SumTimes(over, lost, TWO16);
    SumPlus(cells, lost, sums);
    SumNatural(cells);
  }

  /** An input that overflows a cell, but not by too much altogether, is folded to something else than it should be. */
  lemma FoldsWrong(input: seq<byte>, outLen: nat)
    requires input != [] && outLen > 0 && Overflows(Columns(input, outLen))
    requires DigitSum(Columns(input, outLen)) < TWO16 * (255 * outLen)
    ensures !Representative(NFold(input, outLen), input)
  {
    hide Series, Sums, Cells, Num, Cong, Settled, Full, Blocks, Copies, DigitSum, Overflows;
    SeriesLength(input, outLen);
    var c, series, m := Blocks(|input|, outLen), Series(input, Copies(|input|, outLen)), Full(outLen);
    var cells, sums, out := Cells(series, outLen, c), Sums(series, outLen, c), NFold(input, outLen);
    CellsWrap(series, outLen, c);
    var over := Dropped(sums, cells);
    if Representative(out, input) {
      SumsValue(series, outLen, c);
      assert series[..c * outLen] == series;
      SettledValue(cells);
      CongSym(Num(out), Num(series), m);
      CongTrans(Num(sums), Num(series), Num(out), m);
      CongTrans(Num(sums), Num(out), Num(cells), m);
      NothingDropped(Num(sums), Num(cells), Num(over), outLen);
      MultipleIsLarge(over);
    }
  }

  lemma NothingDropped(sums: int, cells: int, over: int, n: nat)
    requires n > 0 && Cong(sums, cells, Full(n)) && sums == cells + TWO16 * over
    ensures Cong(over, 0, Full(n))
  {
    hide Full, Pow2;
    Pow2Sixteen();
    var k :| sums == cells + k * Full(n);
    CongBy(Pow2(16) * over, Pow2(16) * 0, Full(n), k);
    CancelPow(over, 0, 16, n);
  }

  lemma Pow2Sixteen()
    ensures Pow2(16) == TWO16
  {
    hide Pow2;
    Pow2Small();
    Pow2Add(8, 8);
  }

  /** The all-ones input of any lengths that add 258 to 65535 blocks is folded wrong. */
  lemma OnesFoldWrong(inLen: nat, outLen: nat)
    requires inLen > 0 && outLen > 0 && 258 <= Blocks(inLen, outLen) < TWO16
    ensures !Representative(NFold(Ones(inLen), outLen), Ones(inLen))
  {
    hide Series, Sums, Blocks, Copies, DigitSum, Columns, Overflows, Lcm, NFold, Representative;
    var input, c, copies := Ones(inLen), Blocks(inLen, outLen), Copies(inLen, outLen);
    OnesOverflow(inLen, outLen);
    SeriesLength(input, outLen);
    SeriesOnes(inLen, copies);
    ColumnsSum(input, outLen);
    NumOfOnes(copies * inLen);
    BlocksBelow(c, outLen, 255 * (copies * inLen));
    FoldsWrong(input, outLen);
  }

  lemma BlocksBelow(c: nat, n: nat, total: int)
    requires c < TWO16 && n > 0 && total == 255 * (c * n)
    ensures total < TWO16 * (255 * n)
  {
    MulBounds(n, TWO16 - c);
    assert c * n + n * (TWO16 - c) == TWO16 * n;
  }

  lemma OnesOverflow(inLen: nat, outLen: nat)
    requires inLen > 0 && outLen > 0 && 258 <= Blocks(inLen, outLen)
    ensures Overflows(Columns(Ones(inLen), outLen))
  {
    hide Blocks, Copies, Series, Sums;
    var input, c, copies := Ones(inLen), Blocks(inLen, outLen), Copies(inLen, outLen);
    SeriesLength(input, outLen);
    SeriesOnes(inLen, copies);
    SumsOnes(copies * inLen, outLen, c);
    assert Columns(input, outLen)[0] == 255 * c;
  }

  // ----- turning the bytes of an input to ones one by one -----

  function Filled(k: nat, n: nat): (r: seq<byte>)
    ensures |r| == n
  {
    seq<byte>(n, i => if i < k then 255 else 0)
  }

  /** Strings of bytes that differ in two places at most. */
  lemma {:induction false} TwoDiffer(s: seq<byte>, t: seq<byte>, p: nat, q: nat)
    requires |s| == |t| && forall i | 0 <= i < |s| && i != p && i != q :: s[i] == t[i]
    ensures DigitSum(t) <= DigitSum(s) + (if p < |s| then 255 else 0) + (if q < |s| then 255 else 0)
  {
    if |s| > 0 {
      TwoDiffer(s[..|s| - 1], t[..|s| - 1], p, q);
    }
  }

  lemma RotBytesDiffer(s: seq<byte>, t: seq<byte>, b: nat, k: nat) returns (p: nat)
    requires |s| == |t| && b < |s| && k < |s| && forall i | 0 <= i < |s| && i != k :: s[i] == t[i]
    ensures p < |s| && forall i | 0 <= i < |s| && i != p :: RotBytes(s, b)[i] == RotBytes(t, b)[i]
  {
    p := if k + b < |s| then k + b else k + b - |s|;
  }

  /** Changing one byte changes at most two bytes of a rotation. */
  lemma RotationStep(s: seq<byte>, t: seq<byte>, nbits: nat, k: nat)
    requires |s| == |t| && k < |s| && forall i | 0 <= i < |s| && i != k :: s[i] == t[i]
    ensures DigitSum(Rotated(t, nbits)) <= DigitSum(Rotated(s, nbits)) + 510
  {
    hide Rotated, RotBytes, Spliced, DigitSum;
    var n := |s|;
    var p := RotBytesDiffer(s, t, Cyclic(nbits / 8, n), k);
    var q := if p + 1 < n then p + 1 else 0;
    forall i | 0 <= i < n && i != p && i != q
      ensures Rotated(s, nbits)[i] == Rotated(t, nbits)[i]
    {
      RotatedAt(s, nbits, i);
      RotatedAt(t, nbits, i);
    }
    TwoDiffer(Rotated(s, nbits), Rotated(t, nbits), p, q);
  }

  lemma {:induction false} SeriesStep(s: seq<byte>, t: seq<byte>, copies: nat, k: nat)
    requires |s| == |t| && k < |s| && forall i | 0 <= i < |s| && i != k :: s[i] == t[i]
    ensures DigitSum(Series(t, copies)) <= DigitSum(Series(s, copies)) + 510 * copies
  {
    hide Rotated, DigitSum;
    if copies == 0 {
      assert Series(t, copies) == Series(s, copies);
    } else {
      var nbits := 13 * (copies - 1);
      SeriesStep(s, t, copies - 1, k);
      RotationStep(s, t, nbits, k);
      SumConcat(Series(s, copies - 1), Rotated(s, nbits));
      SumConcat(Series(t, copies - 1), Rotated(t, nbits));
    }
  }

  lemma {:induction false} SmallSum(r: seq<int>)
    requires !Overflows(r)
    ensures DigitSum(r) <= (TWO16 - 1) * |r|
  {
    if |r| > 0 {
      SmallSum(r[..|r| - 1]);
    }
  }

  lemma FewCopies(inLen: nat, outLen: nat)
    requires inLen > 0 && outLen > 0
    ensures Copies(inLen, outLen) <= outLen
  {
    hide Lcm, Blocks, Copies;
    SeriesLength(Ones(inLen), outLen);
    FewBlocks(inLen, outLen);
    Exchange(Copies(inLen, outLen), inLen, Blocks(inLen, outLen), outLen);
  }

  lemma FewBlocks(inLen: nat, outLen: nat)
    requires inLen > 0
    ensures Blocks(inLen, outLen) <= inLen
  {
    hide Gcd;
    GcdPositive(inLen, outLen);
    var g := Gcd(inLen, outLen);
    DivSplit(inLen, g);
    Factor(g, inLen / g, inLen);
  }

  lemma Factor(g: nat, q: nat, a: nat)
    requires g > 0 && g * q <= a
    ensures q <= a
  {
    assert g * q == (g - 1) * q + q;
  }

  lemma Exchange(a: nat, b: nat, c: nat, d: nat)
    requires a * b == c * d && c <= b && b > 0
    ensures a <= d
  {
    assert c * d <= b * d;
    MulBounds(b, a - d);
    assert b * (a - d) == a * b - b * d;
  }

  /** The first filling that overflows a cell does not overflow by much. */
  lemma {:induction false} FirstOverflow(k: nat, inLen: nat, outLen: nat) returns (input: seq<byte>)
    requires inLen > 0 && outLen > 0 && k <= inLen && Overflows(Columns(Filled(k, inLen), outLen))
    ensures |input| == inLen && Overflows(Columns(input, outLen))
    ensures DigitSum(Columns(input, outLen)) < TWO16 * (255 * outLen)
  {
    hide Columns, Overflows, DigitSum, Series, Copies;
    input := Filled(k, inLen);
    var copies := Copies(inLen, outLen);
    ColumnsSum(input, outLen);
    if k == 0 {
      SeriesLength(input, outLen);
      SeriesZero(input, copies);
      SumNatural(Series(input, copies));
    } else {
      var less := Filled(k - 1, inLen);
      if Overflows(Columns(less, outLen)) {
        input := FirstOverflow(k - 1, inLen, outLen);
      } else {
        SmallSum(Columns(less, outLen));
        ColumnsSum(less, outLen);
        SeriesStep(less, input, copies, k - 1);
        FewCopies(inLen, outLen);
      }
    }
  }

  /** n-fold is right on every input of these lengths exactly when at most 257 blocks are added. */
  lemma RightExactly(inLen: nat, outLen: nat)
    requires inLen > 0 && outLen > 0
    ensures (forall input: seq<byte> | |input| == inLen :: Representative(NFold(input, outLen), input))
            <==> Blocks(inLen, outLen) <= 257
  {
    hide NFold, Representative, Blocks, Columns, Overflows, DigitSum;
    if Blocks(inLen, outLen) <= 257 {
      forall input: seq<byte> | |input| == inLen ensures Representative(NFold(input, outLen), input) {
        NFoldIsRepresentative(input, outLen);
      }
    } else {
      OnesOverflow(inLen, outLen);
      assert Filled(inLen, inLen) == Ones(inLen);
      var input := FirstOverflow(inLen, inLen, outLen);
      FoldsWrong(input, outLen);
    }
  }
}
