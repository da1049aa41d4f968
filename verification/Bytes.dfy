/** Bytes and the fixed-width integers the wire formats are built from. */
module Bytes {

  type byte = x: int | 0 <= x < 256

  const TWO16 := 0x1_0000
  const TWO31 := 0x8000_0000
  const TWO32 := 0x1_0000_0000
  const TWO63 := 0x8000_0000_0000_0000
  const TWO64 := 0x1_0000_0000_0000_0000

  /** The low `n` bytes of `v`, least significant first (Rust `to_le_bytes` after an `as` cast). */
  function Le(v: nat, n: nat): (r: seq<byte>)
    ensures |r| == n
  {
    seq(n, i requires 0 <= i < n => v / Pow256(i) % 256)
  }

  /** Rust `from_le_bytes`. */
  function FromLe(s: seq<byte>): nat
  {
    if |s| == 0 then 0 else s[0] + 256 * FromLe(s[1..])
  }

  function Pow256(n: nat): (r: nat)
    ensures r > 0
  {
    if n == 0 then 1 else 256 * Pow256(n - 1)
  }

  lemma {:induction false} FromLeLe(v: nat, n: nat)
    ensures FromLe(Le(v, n)) == v % Pow256(n)
  {
    hide Le;
    if n > 0 {
      var p := Pow256(n - 1);
      FromLeLe(v / 256, n - 1);
      LeRest(v, n);
      ModSplit(v, p);
    }
  }

  lemma LeRest(v: nat, n: nat)
    requires n > 0
    ensures Le(v, n)[0] == v % 256 && Le(v, n)[1..] == Le(v / 256, n - 1)
  {
    forall i | 0 <= i < n - 1
      ensures Le(v, n)[1..][i] == Le(v / 256, n - 1)[i]
    {
      DivDiv(v, Pow256(i));
    }
  }

  lemma DivDiv(v: nat, p: nat)
    requires p > 0
    ensures v / (256 * p) == v / 256 / p
  {
    var q := v / 256;
    var a, b := q / p, q % p;
    assert v == (256 * p) * a + (256 * b + v % 256) by {
      assert 256 * (p * a + b) == (256 * p) * a + 256 * b;
    }
    assert 256 * b + v % 256 < 256 * p by { assert b <= p - 1; }
    ModUnique(v, 256 * p, a, 256 * b + v % 256);
  }

  lemma ModSplit(v: nat, p: nat)
    requires p > 0
    ensures v % 256 + 256 * (v / 256 % p) == v % (256 * p)
  {
    var q, r := v / 256, v % 256;
    var a, b := q / p, q % p;
    assert v == 256 * q + r && q == p * a + b;
    assert v == (256 * p) * a + (256 * b + r) by {
      assert 256 * (p * a + b) == (256 * p) * a + 256 * b;
    }
    assert 256 * b + r < 256 * p by { assert b <= p - 1; }
    ModUnique(v, 256 * p, a, 256 * b + r);
  }

  lemma ModUnique(v: int, m: int, q: int, r: int)
    requires m > 0 && v == m * q + r && 0 <= r < m
    ensures v % m == r && v / m == q
  {
    var q', r' := v / m, v % m;
    assert v == m * q' + r';
    MulBounds(m, q - q');
    assert m * (q - q') == r' - r;
  }

  lemma MulBounds(m: int, k: int)
    requires m > 0
    ensures k >= 1 ==> m * k >= m
    ensures k <= -1 ==> m * k <= -m
  {
  }

  lemma PowFacts()
    ensures Pow256(1) == 0x100 && Pow256(2) == TWO16 && Pow256(4) == TWO32 && Pow256(8) == TWO64
  {
    assert Pow256(0) == 1;
    assert Pow256(2) == 256 * Pow256(1);
    assert Pow256(3) == 256 * Pow256(2);
    assert Pow256(4) == 256 * Pow256(3);
    assert Pow256(5) == 256 * Pow256(4);
    assert Pow256(6) == 256 * Pow256(5);
    assert Pow256(7) == 256 * Pow256(6);
    assert Pow256(8) == 256 * Pow256(7);
  }

  lemma Le16(v: nat)
    ensures FromLe(Le(v, 2)) == v % TWO16
  {
    FromLeLe(v, 2);
    PowFacts();
  }

  lemma Le32(v: nat)
    ensures FromLe(Le(v, 4)) == v % TWO32
  {
    FromLeLe(v, 4);
    PowFacts();
  }

  lemma Le64(v: nat)
    ensures FromLe(Le(v, 8)) == v % TWO64
  {
    FromLeLe(v, 8);
    PowFacts();
  }

  /** Splitting a concatenation at its seam. */
  lemma Seam<T>(a: seq<T>, b: seq<T>)
    ensures (a + b)[..|a|] == a && (a + b)[|a|..] == b
  {
  }

  // ----- either byte order -----

  function Reversed<T>(s: seq<T>): (r: seq<T>)
    ensures |r| == |s| && forall i | 0 <= i < |s| :: r[i] == s[|s| - 1 - i]
  {
    seq(|s|, i requires 0 <= i < |s| => s[|s| - 1 - i])
  }

  /** The low `n` bytes of `v`, most significant first when `be`. */
  function Word(v: nat, n: nat, be: bool): (r: seq<byte>)
    ensures |r| == n
  {
    if be then Reversed(Le(v, n)) else Le(v, n)
  }

  function FromWord(s: seq<byte>, be: bool): nat { FromLe(if be then Reversed(s) else s) }

  lemma WordRoundTrip(v: nat, n: nat, be: bool)
    ensures FromWord(Word(v, n, be), be) == v % Pow256(n)
  {
    FromLeLe(v, n);
    assert Reversed(Reversed(Le(v, n))) == Le(v, n);
  }

  lemma {:induction false} FromLeBound(s: seq<byte>)
    ensures FromLe(s) < Pow256(|s|)
    decreases |s|
  {
    if s != [] { FromLeBound(s[1..]); }
  }

  lemma WordBound(s: seq<byte>, be: bool)
    ensures FromWord(s, be) < Pow256(|s|)
  {
    FromLeBound(if be then Reversed(s) else s);
  }

  /** `u32 as i32` and `u16 as i16`: the two's complement reading of `n` bytes. */
  function Signed(v: nat, n: nat): int {
    if 2 * v < Pow256(n) then v else v - Pow256(n)
  }

  /** `as u32` and `as u16` of a signed value. */
  function Unsigned(v: int, n: nat): (r: nat)
    ensures r < Pow256(n)
  {
    v % Pow256(n)
  }

  ghost predicate FitsSigned(v: int, n: nat) { 0 <= 2 * v + Pow256(n) < 2 * Pow256(n) }

  lemma SignedUnsigned(v: int, n: nat)
    requires FitsSigned(v, n)
    ensures Signed(Unsigned(v, n), n) == v
  {
    var p := Pow256(n);
    if v >= 0 { ModUnique(v, p, 0, v); } else { ModUnique(v, p, -1, v + p); }
  }

  /** `d` holds `s` at `pos`. */
  ghost predicate Holds<T>(d: seq<T>, pos: nat, s: seq<T>) {
    pos + |s| <= |d| && d[pos..pos + |s|] == s
  }

  lemma HoldsBoth<T>(d: seq<T>, pos: nat, a: seq<T>, b: seq<T>)
    ensures Holds(d, pos, a + b) <==> Holds(d, pos, a) && Holds(d, pos + |a|, b)
  {
    if Holds(d, pos, a + b) {
      assert (a + b)[..|a|] == a && (a + b)[|a|..] == b;
      assert d[pos..pos + |a + b|][..|a|] == d[pos..pos + |a|];
      assert d[pos..pos + |a + b|][|a|..] == d[pos + |a|..pos + |a| + |b|];
    }
    if Holds(d, pos, a) && Holds(d, pos + |a|, b) {
      assert d[pos..pos + |a + b|] == d[pos..pos + |a|] + d[pos + |a|..pos + |a| + |b|];
    }
  }

  lemma HoldsPrefix<T>(a: seq<T>, b: seq<T>)
    ensures Holds(a + b, 0, a) && Holds(a + b, |a|, b)
  {
    assert (a + b)[0..|a|] == a && (a + b)[|a|..|a| + |b|] == b;
  }

  /** A slice of a suffix, and of a prefix, is a slice of the whole. */
  lemma Slices<T>(d: seq<T>, lo: nat, hi: nat, i: nat, j: nat)
    requires lo <= i <= j <= hi <= |d|
    ensures d[lo..][i - lo..j - lo] == d[i..j] && d[..hi][i..j] == d[i..j]
  {
  }
}
