/** The schema hash of src/utils/utils.c: shift-and-add over `char`, modulo 2^64. */
module SchemaHash {
  import opened CFormat

  const M: int := 0x1_0000_0000_0000_0000

  /** The inverse of 33 modulo 2^64, and the carry of the product. */
  const INV33: int := 1117984489315730401
  const INV33_CARRY: int := 2

  /** The byte of `c` as the conversion of a signed char to int32_t reads it. */
  function Signed(c: char): (v: int)
    ensures -128 <= v < 128
  {
    var b := c as int % 256;
    if b >= 128 then b - 256 else b
  }

  /** What shifting and adding reaches from `x` when nothing wraps. */
  function Horner(x: int, s: string): int
    decreases s
  {
    if s == "" then x else Horner(33 * x + Signed(s[0]), s[1..])
  }

  function HashLongOf(s: string): (h: nat)
    ensures h < M
  {
    Horner(5381, s) % M
  }

  /** The string form compared between endpoints. */
  function HashOf(s: string): string {
    PrintNat(HashLongOf(s))
  }

  /** x * 33^k. Multiplying step by step keeps the arithmetic linear. */
  function Scale(x: int, k: nat): int {
    if k == 0 then x else 33 * Scale(x, k - 1)
  }

  /** Sum of c_i * 33^(n-1-i). */
  function WeightedSum(s: string): int {
    if s == "" then 0 else Scale(Signed(s[0]), |s| - 1) + WeightedSum(s[1..])
  }

  function Pow33(k: nat): int {
    if k == 0 then 1 else 33 * Pow33(k - 1)
  }

  /** The sum of the character codes from the i-th on, each times 33 to the number of characters
      after it; codes from 128 to 255 are those of negative chars. */
  function CodeSum(s: string, i: nat): int
    requires i <= |s|
    decreases |s| - i
  {
    if i == |s| then 0
    else (if s[i] as int < 128 then s[i] as int else s[i] as int - 256) * Pow33(|s| - 1 - i) + CodeSum(s, i + 1)
  }

  predicate IsBytes(s: string) {
    forall i | 0 <= i < |s| :: s[i] as int < 256
  }

  // ---------- Arithmetic ----------

  lemma ModShift(a: int, k: int)
    ensures (a + k * M) % M == a % M
  {
  }

  lemma ModEqual(a: int, b: int)
    ensures a % M == b % M <==> (a - b) % M == 0
  {
    var qa, qb := a / M, b / M;
    assert a == qa * M + a % M && b == qb * M + b % M;
    ModShift(a % M - b % M, qa - qb);
  }

  lemma {:induction false} ScaleAdd(x: int, y: int, k: nat)
    ensures Scale(x + y, k) == Scale(x, k) + Scale(y, k)
  {
    if k > 0 { ScaleAdd(x, y, k - 1); }
  }

  lemma {:induction false} ScaleTwice(x: int, i: nat, j: nat)
    ensures Scale(Scale(x, i), j) == Scale(x, i + j)
  {
    if j > 0 { ScaleTwice(x, i, j - 1); }
  }

  lemma {:induction false} ScaleMultiple(q: int, k: nat)
    ensures Scale(q * M, k) == Scale(q, k) * M
  {
    if k > 0 { ScaleMultiple(q, k - 1); }
  }

  lemma {:induction false} ScaleInside(x: int, k: nat)
    ensures Scale(33 * x, k) == 33 * Scale(x, k)
  {
    if k > 0 { ScaleInside(x, k - 1); }
  }

  lemma {:induction false} HornerConcat(x: int, a: string, b: string)
    ensures Horner(x, a + b) == Horner(Horner(x, a), b)
    decreases a
  {
    if a == "" {
      assert a + b == b;
    } else {
      assert (a + b)[0] == a[0] && (a + b)[1..] == a[1..] + b;
      HornerConcat(33 * x + Signed(a[0]), a[1..], b);
    }
  }

  /** The starting value and the characters contribute independently. */
  lemma {:induction false} HornerClosed(x: int, s: string)
    ensures Horner(x, s) == Scale(x, |s|) + WeightedSum(s)
    decreases s
  {
    if s != "" {
      HornerClosed(33 * x + Signed(s[0]), s[1..]);
      ScaleAdd(33 * x, Signed(s[0]), |s| - 1);
      ScaleInside(x, |s| - 1);
    }
  }

  lemma HornerExtends(x: int, a: string, b: string)
    ensures Horner(x, a + b) == Scale(Horner(x, a), |b|) + WeightedSum(b)
  {
    HornerConcat(x, a, b);
    HornerClosed(Horner(x, a), b);
  }

  // ---------- The loop ----------

  lemma StepModulo(x: int, c: int)
    ensures ((x % M * 32) % M + x % M + c) % M == (33 * x + c) % M
  {
    var r, q := x % M, x / M;
    var p := r * 32 / M;
    assert x == q * M + r && r * 32 == p * M + r * 32 % M;
    assert (r * 32) % M + r + c == (33 * r + c) + (-p) * M;
    ModShift(33 * r + c, -p);
    assert 33 * x + c == (33 * r + c) + (33 * q) * M;
    ModShift(33 * r + c, 33 * q);
  }

  lemma HornerSnoc(x: int, s: string, c: char)
    ensures Horner(x, s + [c]) == 33 * Horner(x, s) + Signed(c)
  {
    HornerConcat(x, s, [c]);
    assert [c][1..] == "";
  }

  /** `hash = ((hash << 5) + hash) + c`, wrapping; the loop index is an int32_t.
      The result is 5381 * 33^n plus the weighted character codes, modulo 2^64. */
  method HashLong(str: string) returns (hash: nat)
    requires |str| <= INT_MAX
    ensures hash == HashLongOf(str)
    ensures IsBytes(str) ==> hash == (5381 * Pow33(|str|) + CodeSum(str, 0)) % M
  {
    hash := 5381;
    var i := 0;
    while i < |str|
      invariant 0 <= i <= |str|
      invariant hash == HashLongOf(str[..i])
    {
      var c := Signed(str[i]);
      StepModulo(Horner(5381, str[..i]), c);
      HornerSnoc(5381, str[..i], str[i]);
      assert str[..i + 1] == str[..i] + [str[i]];
      hash := ((hash * 32) % M + hash + c) % M;
      i := i + 1;
    }
    assert str[..i] == str;
    if IsBytes(str) { HashByCodes(str); }
  }

  lemma {:induction false} ScaleIsPower(x: int, k: nat)
    ensures Scale(x, k) == x * Pow33(k)
  {
    if k > 0 {
      ScaleIsPower(x, k - 1);
      MoveFactor(x, Pow33(k - 1));
    }
  }

  lemma MoveFactor(x: int, y: int)
    ensures 33 * (x * y) == x * (33 * y)
  {
  }

  lemma {:induction false} SumIsCodeSum(s: string, i: nat)
    requires IsBytes(s) && i <= |s|
    ensures WeightedSum(s[i..]) == CodeSum(s, i)
    decreases |s| - i
  {
    if i < |s| {
      assert s[i..][0] == s[i] && s[i..][1..] == s[i + 1..];
      SumIsCodeSum(s, i + 1);
      ScaleIsPower(Signed(s[i]), |s| - 1 - i);
    }
  }

  /** The hash of a byte string, written out in its character codes: 5381 * 33^n plus the sum of
      the codes times 33^(n-1-i), modulo 2^64. */
  lemma HashByCodes(s: string)
    requires IsBytes(s)
    ensures HashLongOf(s) == (5381 * Pow33(|s|) + CodeSum(s, 0)) % M
  {
    HornerClosed(5381, s);
    ScaleIsPower(5381, |s|);
    SumIsCodeSum(s, 0);
    assert s[0..] == s;
  }

  /** The hash of a longer string is determined by the hash of its beginning and the rest. */
  lemma HashExtends(a: string, b: string)
    ensures HashLongOf(a + b) == (Scale(HashLongOf(a), |b|) + WeightedSum(b)) % M
  {
    HornerExtends(5381, a, b);
    ReduceScaled(Horner(5381, a), |b|, WeightedSum(b));
  }

  lemma ReduceScaled(x: int, k: nat, w: int)
    ensures (Scale(x, k) + w) % M == (Scale(x % M, k) + w) % M
  {
    var r, q := x % M, x / M;
    assert x == r + q * M;
    ScaleAdd(r, q * M, k);
    ScaleMultiple(q, k);
    ModShift(Scale(r, k) + w, Scale(q, k));
  }

  // ---------- Discrimination ----------

  /** 33 can be cancelled modulo 2^64. */
  lemma Cancel33(x: int)
    requires (33 * x) % M == 0
    ensures x % M == 0
  {
    var q := 33 * x / M;
    assert 33 * x == q * M;
    assert 33 * INV33 == 1 + INV33_CARRY * M;
    assert x == (INV33 * q - INV33_CARRY * x) * M;
    ModShift(0, INV33 * q - INV33_CARRY * x);
  }

  lemma {:induction false} CancelScale(x: int, k: nat)
    requires Scale(x, k) % M == 0
    ensures x % M == 0
  {
    if k > 0 {
      Cancel33(Scale(x, k - 1));
      CancelScale(x, k - 1);
    }
  }

  lemma {:induction false} ScaleBound(x: int, k: nat)
    requires -128 <= x <= 128
    ensures -32 * Scale(4, k) <= Scale(x, k) <= 32 * Scale(4, k)
  {
    if k > 0 { ScaleBound(x, k - 1); }
  }

  lemma {:induction false} ScaleMonotone(i: nat, j: nat)
    requires i <= j
    ensures Scale(4, i) <= Scale(4, j) && 4 <= Scale(4, j)
  {
    if i < j { ScaleMonotone(i, j - 1); } else if i > 0 { ScaleMonotone(i - 1, i - 1); }
  }

  lemma {:induction false} SumBound(s: string)
    ensures -Scale(4, |s|) < WeightedSum(s) < Scale(4, |s|)
  {
    if s == "" {
      assert Scale(4, 0) == 4;
    } else {
      SumBound(s[1..]);
      ScaleBound(Signed(s[0]), |s| - 1);
    }
  }

  lemma WindowDifference(u: string, v: string)
    requires |u| == |v| <= 12
    ensures -M < WeightedSum(u) - WeightedSum(v) < M
  {
    SumBound(u);
    SumBound(v);
    ScaleMonotone(|u|, 12);
    assert Scale(4, 6) == 5165871876;
    ScaleTwice(4, 6, 6);
    assert Scale(5165871876, 6) < M / 2;
  }

  /** Two strings that agree outside a window of up to twelve characters collide exactly when
      the weighted sums of the windows are equal as integers. */
  lemma WindowCollision(a: string, u: string, v: string, b: string)
    requires |u| == |v| <= 12
    ensures HashLongOf(a + u + b) == HashLongOf(a + v + b) <==> WeightedSum(u) == WeightedSum(v)
  {
    var x := Horner(5381, a);
    HornerConcat(5381, a, u);
    HornerConcat(5381, a, v);
    HornerConcat(5381, a + u, b);
    HornerConcat(5381, a + v, b);
    HornerCollision(x, u, v, b);
  }

  lemma HornerCollision(x: int, u: string, v: string, b: string)
    requires |u| == |v| <= 12
    ensures Horner(Horner(x, u), b) % M == Horner(Horner(x, v), b) % M <==> WeightedSum(u) == WeightedSum(v)
  {
    var d := WeightedSum(u) - WeightedSum(v);
    HornerClosed(x, u);
    HornerClosed(x, v);
    WindowDifference(u, v);
    ShiftCollision(Horner(x, v), d, b);
  }

  lemma ShiftCollision(y: int, d: int, b: string)
    requires -M < d < M
    ensures Horner(y + d, b) % M == Horner(y, b) % M <==> d == 0
  {
    HornerClosed(y + d, b);
    HornerClosed(y, b);
    ScaleAdd(y, d, |b|);
    ModEqual(Horner(y + d, b), Horner(y, b));
    if Scale(d, |b|) % M == 0 {
      CancelScale(d, |b|);
      SmallMultiple(d);
    }
  }

  lemma SmallMultiple(d: int)
    requires -M < d < M && d % M == 0
    ensures d == 0
  {
  }

  /** Two byte strings of equal length that differ in exactly one position never collide. */
  lemma SingleEditChangesHash(s: string, i: nat, c: char)
    requires i < |s| && c != s[i] && c < 256 as char && s[i] < 256 as char
    ensures HashLongOf(s[i := c]) != HashLongOf(s)
    ensures HashOf(s[i := c]) != HashOf(s)
  {
    var a, b := s[..i], s[i + 1..];
    assert s == a + [s[i]] + b && s[i := c] == a + [c] + b;
    WindowCollision(a, [s[i]], [c], b);
    WeightOfOne(s[i]);
    WeightOfOne(c);
    PrintNatInjective(HashLongOf(s[i := c]), HashLongOf(s));
  }

  lemma WeightOfOne(c: char)
    ensures WeightedSum([c]) == Signed(c)
  {
    assert [c][1..] == "";
  }

  lemma WeightOfTwo(c0: char, c1: char)
    ensures WeightedSum([c0, c1]) == 33 * Signed(c0) + Signed(c1)
  {
    assert [c0, c1][1..] == [c1];
    WeightOfOne(c1);
    assert Scale(Signed(c0), 1) == 33 * Scale(Signed(c0), 0);
  }

  /** Neighbouring edits collide exactly when they compensate. */
  lemma AdjacentEditsCollideIff(a: string, b: string, c0: char, c1: char, d0: char, d1: char)
    ensures HashLongOf(a + [c0, c1] + b) == HashLongOf(a + [d0, d1] + b)
            <==> 33 * (Signed(c0) - Signed(d0)) == Signed(d1) - Signed(c1)
  {
    WindowCollision(a, [c0, c1], [d0, d1], b);
    WeightOfTwo(c0, c1);
    WeightOfTwo(d0, d1);
  }

  /** The printed hash fits the twenty digits of an unsigned 64-bit number. */
  lemma HashFits(s: string)
    ensures 1 <= |HashOf(s)| <= 20 && forall c | c in HashOf(s) :: IsDigit(c)
  {
    NatIsDigits(HashLongOf(s));
    Pow10Twenty();
    NatLength(HashLongOf(s), 20);
  }

  lemma Pow10Twenty()
    ensures Pow10(20) > M
  {
    assert Pow10(10) == 10_000_000_000 by { Pow10Ten(); }
    assert Pow10(14) == 10000 * Pow10(10);
    assert Pow10(18) == 10000 * Pow10(14);
    assert Pow10(20) == 100 * Pow10(18);
  }
}
