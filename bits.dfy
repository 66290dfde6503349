/**
 * numpy's `uint64` arithmetic as the graphene label codec uses it: values are
 * naturals below 2^64, `&` is defined bit by bit, `x >> k` divides by 2^k and
 * `x << k` multiplies by 2^k and wraps around at 2^64.
 */
module Uint64 {

  const TWO_64: nat := 0x1_0000_0000_0000_0000

  type U64 = x: nat | x < TWO_64

  function Pow2(k: nat): (r: nat)
    ensures r >= 1
  {
    if k == 0 then 1 else 2 * Pow2(k - 1)
  }

  /** `a & b`, bit by bit from the least significant end. */
  function And(a: nat, b: nat): (r: nat)
    ensures r <= a && r <= b
  {
    if a == 0 || b == 0 then 0
    else 2 * And(a / 2, b / 2) + (if a % 2 == 1 && b % 2 == 1 then 1 else 0)
  }

  /** `x | 1`. */
  function OrOne(x: U64): (r: U64)
    ensures r % 2 == 1 && r - r % 2 == x - x % 2
  {
    if x % 2 == 1 then x else x + 1
  }

  /** `x << k`, one bit at a time: the bits shifted past bit 63 are lost. */
  function Shl(x: U64, k: nat): U64
    requires k < 64
  {
    if k == 0 then x else (Shl(x, k - 1) * 2) % TWO_64
  }

  /** `x >> k`, one bit at a time. */
  function Shr(x: U64, k: nat): U64
    requires k < 64
  {
    if k == 0 then x else Shr(x, k - 1) / 2
  }

  /** The number whose low `k` bits are set, 2^k - 1. */
  function LowOnes(k: nat): nat {
    Pow2(k) - 1
  }

  lemma {:induction false} Pow2Add(a: nat, b: nat)
    ensures Pow2(a + b) == Pow2(a) * Pow2(b)
    decreases b
  {
    if b > 0 {
      Pow2Add(a, b - 1);
      assert Pow2(a + b) == 2 * Pow2(a + b - 1);
    }
  }

  lemma {:induction false} Pow2Monotone(a: nat, b: nat)
    requires a <= b
    ensures Pow2(a) <= Pow2(b)
    decreases b
  {
    if a < b {
      Pow2Monotone(a, b - 1);
    }
  }

  /** Five powers of two multiply to the power of the sum of their exponents. */
  lemma Pow2Sum5(a: nat, b: nat, c: nat, d: nat, e: nat)
    ensures Pow2(a) * Pow2(b) * Pow2(c) * Pow2(d) * Pow2(e) == Pow2(a + b + c + d + e)
  {
    Pow2Add(a, b);
    Pow2Add(a + b, c);
    Pow2Add(a + b + c, d);
    Pow2Add(a + b + c + d, e);
  }

  lemma Two64()
    ensures Pow2(8) == 256 && Pow2(64) == TWO_64
  {
    assert Pow2(4) == 16;
    Pow2Add(4, 4);
    assert Pow2(8) == 256;
    Pow2Add(8, 8);
    assert Pow2(16) == 0x1_0000;
    Pow2Add(16, 16);
    assert Pow2(32) == 0x1_0000_0000;
    Pow2Add(32, 32);
  }

  lemma MulAtLeast(k: int, d: nat)
    requires k >= 1
    ensures k * d >= d
  {
  }

  /** Division and remainder are determined by the quotient and remainder one exhibits. */
  lemma DivModUnique(n: nat, d: nat, q: nat, m: nat)
    requires d > 0 && m < d && n == q * d + m
    ensures n / d == q && n % d == m
  {
    var q', m' := n / d, n % d;
    assert (q - q') * d == m' - m;
    if q > q' {
      MulAtLeast(q - q', d);
    } else if q < q' {
      MulAtLeast(q' - q, d);
    }
  }

  lemma TwiceProduct(f: nat, q: nat)
    ensures 2 * (f * q) == f * (2 * q)
  {
  }

  lemma MulLe(x: nat, y: nat, c: nat)
    requires x <= y
    ensures x * c <= y * c
  {
  }

  /** Dividing by `A` and then by `B` is dividing by `A * B`. */
  lemma DivDivBy(n: nat, A: nat, B: nat)
    requires A > 0 && B > 0
    ensures n / A / B == n / (A * B)
  {
    var q1, r1 := n / A, n % A;
    var q2, r2 := q1 / B, q1 % B;
    DivDivStep(n, A, B, q1, r1, q2, r2);
    DivModUnique(n, A * B, q2, A * r2 + r1);
  }

  /** The quotient and remainder of `n` by `A * B`, from those by `A` and then by `B`. */
  lemma DivDivStep(n: nat, A: nat, B: nat, q1: nat, r1: nat, q2: nat, r2: nat)
    requires A > 0 && B > 0 && r1 < A && r2 < B
    requires n == A * q1 + r1 && q1 == B * q2 + r2
    ensures n == q2 * (A * B) + (A * r2 + r1) && A * r2 + r1 < A * B
  {
    assert A * q1 == A * (B * q2) + A * r2;
    assert A * (B * q2) == q2 * (A * B);
    MulLe(r2, B - 1, A);
    assert (B - 1) * A == A * B - A;
  }

  /** Dividing by 2^a and then by 2^b is dividing by 2^(a+b). */
  lemma DivDiv(n: nat, a: nat, b: nat)
    ensures n / Pow2(a) / Pow2(b) == n / Pow2(a + b)
  {
    Pow2Add(a, b);
    DivDivBy(n, Pow2(a), Pow2(b));
  }

  /** The low `w` bits of `n` are its low bit and then the low `w - 1` bits of `n / 2`. */
  lemma ModHalf(n: nat, w: nat)
    requires w > 0
    ensures n % Pow2(w) == 2 * ((n / 2) % Pow2(w - 1)) + n % 2
  {
    var P := Pow2(w - 1);
    var q := (n / 2) / P;
    var u := (n / 2) % P;
    assert n == q * (2 * P) + (2 * u + n % 2);
    DivModUnique(n, 2 * P, q, 2 * u + n % 2);
  }

  /** An even mask keeps no low bit: `n & 2x == 2 * (n/2 & x)`. */
  lemma AndEven(n: nat, x: nat)
    ensures And(n, 2 * x) == 2 * And(n / 2, x)
  {
    if n != 0 && x != 0 {
      assert (2 * x) / 2 == x;
    }
  }

  /** `n & (2^w - 1)` is `n mod 2^w`. */
  lemma {:induction false} AndLowOnes(n: nat, w: nat)
    ensures And(n, LowOnes(w)) == n % Pow2(w)
    decreases w
  {
    if w > 0 {
      var M := LowOnes(w);
      assert M == 2 * LowOnes(w - 1) + 1;
      assert M / 2 == LowOnes(w - 1) && M % 2 == 1;
      AndLowOnes(n / 2, w - 1);
      ModHalf(n, w);
      if n == 0 {
        assert n % Pow2(w) == 0;
      }
    }
  }

  /**
   * A mask of `w` bits starting at bit `p` keeps exactly that field of `n`:
   * `n & ((2^w - 1) << p) == ((n >> p) mod 2^w) << p`.
   */
  lemma {:induction false} AndField(n: nat, w: nat, p: nat)
    ensures And(n, LowOnes(w) * Pow2(p)) == (n / Pow2(p)) % Pow2(w) * Pow2(p)
    decreases p
  {
    if p == 0 {
      AndLowOnes(n, w);
    } else {
      var L, Q := LowOnes(w), Pow2(p - 1);
      var X := L * Q;
      assert Pow2(p) == 2 * Q;
      assert L * Pow2(p) == 2 * X;
      AndEven(n, X);
      AndField(n / 2, w, p - 1);
      DivDiv(n, 1, p - 1);
      assert Pow2(1) == 2;
      var F := (n / Pow2(p)) % Pow2(w);
      assert And(n / 2, X) == F * Q;
      TwiceProduct(F, Q);
    }
  }

  /** The field of `w` bits at `p` of a number built from such fields is the one put there. */
  lemma FieldOf(hi: nat, f: nat, lo: nat, W: nat, P: nat)
    requires W > 0 && P > 0 && f < W && lo < P
    ensures ((hi * W + f) * P + lo) / P % W == f
  {
    DivModUnique((hi * W + f) * P + lo, P, hi * W + f, lo);
    DivModUnique(hi * W + f, W, hi, f);
  }

  /** A number below `k * d` has a quotient by `d` below `k`. */
  lemma DivBelow(n: nat, d: nat, k: nat)
    requires d > 0 && n < k * d
    ensures n / d < k
  {
    if n / d >= k {
      MulLe(k, n / d, d);
    }
  }

  lemma Regroup(q: nat, p: nat, w: nat, a: nat, b: nat)
    ensures q * (p * w) + (a * p + b) == (q * w + a) * p + b
  {
    assert q * (p * w) == (q * w) * p;
  }

  /** The low bits of `n` below `P * W`, divided by `P`, are `n / P` modulo `W`. */
  lemma ModDivBy(n: nat, P: nat, W: nat)
    requires P > 0 && W > 0
    ensures (n % (P * W)) / P == (n / P) % W
  {
    var Q, R := n / (P * W), n % (P * W);
    var A, B := R / P, R % P;
    Regroup(Q, P, W, A, B);
    DivModUnique(n, P, Q * W + A, B);
    assert R < W * P;
    DivBelow(R, P, W);
    DivModUnique(Q * W + A, W, Q, A);
  }

  /** The low `s + w` bits of `n`, without their low `s` bits, are bits `s` to `s + w - 1` of `n`. */
  lemma ModDiv(n: nat, s: nat, w: nat)
    ensures (n % Pow2(s + w)) / Pow2(s) == (n / Pow2(s)) % Pow2(w)
  {
    Pow2Add(s, w);
    ModDivBy(n, Pow2(s), Pow2(w));
  }

  /** A field of `w` bits placed at bit `p` fits in the word when `w + p <= 64`. */
  lemma FieldFits(w: nat, p: nat)
    requires w + p <= 64
    ensures LowOnes(w) * Pow2(p) < TWO_64
  {
    Pow2Add(w, p);
    Pow2Monotone(w + p, 64);
    Two64();
    OneLessTimes(Pow2(w), Pow2(p));
  }

  /** `(a - 1) * c` is `a * c - c`. */
  lemma OneLessTimes(a: nat, c: nat)
    requires a >= 1
    ensures (a - 1) * c == a * c - c
  {
  }

  /** Shifting a product of 2^p back by `p`. */
  lemma MulDiv(f: nat, p: nat)
    ensures f * Pow2(p) / Pow2(p) == f
  {
    DivModUnique(f * Pow2(p), Pow2(p), f, 0);
  }

  lemma Assoc(f: nat, P: nat)
    ensures f * (2 * P) == (f * 2) * P
  {
  }

  /** Shifting a product of 2^(p+1) back by `p` leaves it doubled. */
  lemma MulDivUp(f: nat, p: nat)
    ensures f * Pow2(p + 1) / Pow2(p) == f * 2
  {
    assert Pow2(p + 1) == 2 * Pow2(p);
    Assoc(f, Pow2(p));
    MulDiv(f * 2, p);
  }

  /** The number 2^s has bit `s` set and nothing above it. */
  lemma BitFields(s: nat, w: nat)
    requires w >= 1
    ensures Pow2(s) / Pow2(s + 1) % Pow2(w) * 2 == 0
    ensures Pow2(s) / Pow2(s) % Pow2(w) == 1
  {
    assert Pow2(s + 1) == 2 * Pow2(s);
    SmallDiv(Pow2(s), Pow2(s + 1));
    Pow2Monotone(1, w);
    SmallDiv(0, Pow2(w));
    SmallDiv(1, Pow2(w));
  }

  /** A quotient of naturals is a natural. */
  lemma DivNat(n: nat, d: nat)
    requires d > 0
    ensures n / d >= 0
  {
  }

  /** A number below the divisor is its own remainder. */
  lemma SmallDiv(x: nat, y: nat)
    requires x < y
    ensures x / y == 0 && x % y == x
  {
    DivModUnique(x, y, 0, x);
  }

  /** Placing a field below a number keeps it under the product of the bounds. */
  lemma Pack(hi: nat, f: nat, W: nat, H: nat)
    requires hi < H && f < W
    ensures hi * W + f < H * W
  {
    MulLe(hi, H - 1, W);
    assert (H - 1) * W == H * W - W;
  }

  /** Dropping the bits above `A` twice over. */
  lemma ModModBy(n: nat, A: nat, B: nat)
    requires A > 0 && B > 0
    ensures n % (A * B) % A == n % A
  {
    var q, r := n / (A * B), n % (A * B);
    var r1, r0 := r / A, r % A;
    Regroup(q, A, B, r1, r0);
    DivModUnique(n, A, q * B + r1, r0);
  }

  lemma ModModEq(n: nat, A: nat, B: nat, M: nat)
    requires A > 0 && B > 0 && M == A * B
    ensures n % M % A == n % A
  {
    ModModBy(n, A, B);
  }

  lemma Expand(h: nat, x: nat, y: nat, z: nat, W: nat, WWW: nat)
    requires WWW == W * W * W
    ensures ((h * W + x) * W + y) * W + z == h * WWW + ((x * W + y) * W + z)
  {
  }

  lemma LowBound(x: nat, y: nat, z: nat, W: nat, WWW: nat)
    requires x < W && y < W && z < W && WWW == W * W * W
    ensures 0 <= (x * W + y) * W + z < WWW
  {
    Pack(x, y, W, W);
    Pack(x * W + y, z, W, W * W);
  }

  /** Positive widths `W` and `S`, with the products `SW == S * W`, `SWW == SW * W`, `SWWW == SWW * W` and `WWW == W * W * W`. */
  predicate Widths(W: nat, S: nat, SW: nat, SWW: nat, SWWW: nat, WWW: nat) {
    W > 0 && S > 0 && SW == S * W && SWW == SW * W && SWWW == SWW * W && WWW == W * W * W
  }

  /**
   * Four fields of width `W` over one of width `S`, from the most significant:
   * each comes back out of the packed number by division and remainder.  The
   * products of the widths are passed in, `SW == S * W` and so on.
   */
  lemma Unpack(h: nat, x: nat, y: nat, z: nat, lo: nat, W: nat, S: nat, SW: nat, SWW: nat, SWWW: nat, WWW: nat)
    requires Widths(W, S, SW, SWW, SWWW, WWW) && x < W && y < W && z < W && lo < S
    ensures Packed(h, x, y, z, lo, W, S) % S == lo
    ensures Packed(h, x, y, z, lo, W, S) / S % W == z
    ensures Packed(h, x, y, z, lo, W, S) / SW % W == y
    ensures Packed(h, x, y, z, lo, W, S) / SWW % W == x
    ensures Packed(h, x, y, z, lo, W, S) / SWWW == h
    ensures Packed(h, x, y, z, lo, W, S) / S % WWW == Digits3(x, y, z, W)
  {
    var n := Packed(h, x, y, z, lo, W, S);
    var a := h * W + x;
    var b := a * W + y;
    var c := b * W + z;
    DivModUnique(n, S, c, lo);
    Peel(c, b, z, W);
    Peel(b, a, y, W);
    Peel(a, h, x, W);
    DivDivBy(n, S, W);
    DivDivBy(n, SW, W);
    DivDivBy(n, SWW, W);
    LowFields(h, x, y, z, W, WWW);
  }

  /** One field of width `W` off the bottom of `q * W + f`. */
  lemma Peel(n: nat, q: nat, f: nat, W: nat)
    requires f < W && n == q * W + f
    ensures n / W == q && n % W == f
  {
    DivModUnique(n, W, q, f);
  }

  /** The three low fields of a four-field number are its remainder by `W^3`. */
  lemma LowFields(h: nat, x: nat, y: nat, z: nat, W: nat, WWW: nat)
    requires x < W && y < W && z < W && WWW == W * W * W
    ensures (((h * W + x) * W + y) * W + z) % WWW == (x * W + y) * W + z
  {
    var c := (x * W + y) * W + z;
    LowBound(x, y, z, W, WWW);
    Expand(h, x, y, z, W, WWW);
    DivModUnique(h * WWW + c, WWW, h, c);
  }

  /** The packed number stays below the product of all the widths. */
  lemma PackBound(h: nat, x: nat, y: nat, z: nat, lo: nat, H: nat, W: nat, S: nat)
    requires h < H && x < W && y < W && z < W && lo < S
    ensures (((h * W + x) * W + y) * W + z) * S + lo < H * W * W * W * S
  {
    Pack(h, x, W, H);
    Pack(h * W + x, y, W, H * W);
    Pack((h * W + x) * W + y, z, W, H * W * W);
    Pack(((h * W + x) * W + y) * W + z, lo, S, H * W * W * W);
  }

  lemma FieldBelowBy(n: nat, P: nat, A: nat, B: nat, M: nat, T: nat)
    requires P > 0 && A > 0 && B > 0 && M == A * B && T == P * M
    ensures n % T / P % A == n / P % A
  {
    ModDivBy(n, P, M);
    ModModBy(n / P, A, B);
  }

  /** A field of `w` bits at `p` reads the same after the bits from `p + w + v` up are dropped. */
  lemma FieldBelow(n: nat, p: nat, w: nat, v: nat)
    ensures n % Pow2(p + (w + v)) / Pow2(p) % Pow2(w) == n / Pow2(p) % Pow2(w)
  {
    Pow2Add(p, w + v);
    Pow2Add(w, v);
    FieldBelowBy(n, Pow2(p), Pow2(w), Pow2(v), Pow2(w + v), Pow2(p + (w + v)));
  }

  /** Four fields of width `W` over one of width `S`, from the most significant, packed into one number. */
  /** Three digits in base `W`, the most significant first. */
  function Digits3(x: nat, y: nat, z: nat, W: nat): nat {
    (x * W + y) * W + z
  }

  function Packed(h: nat, x: nat, y: nat, z: nat, lo: nat, W: nat, S: nat): nat {
    (((h * W + x) * W + y) * W + z) * S + lo
  }

  /** A packing whose widths multiply to 2^64 fits in the word. */
  lemma PackedFits(h: nat, x: nat, y: nat, z: nat, lo: nat, H: nat, W: nat, S: nat)
    requires h < H && x < W && y < W && z < W && lo < S && H * W * W * W * S == TWO_64
    ensures Packed(h, x, y, z, lo, W, S) < TWO_64
  {
    PackBound(h, x, y, z, lo, H, W, S);
  }

  /** Adding multiples of the modulus does not change the remainder. */
  lemma ModAddMultiple(n: nat, q: nat, M: nat)
    requires M > 0
    ensures (q * M + n) % M == n % M
  {
    var q', r := n / M, n % M;
    assert q * M + n == (q + q') * M + r;
    DivModUnique(q * M + n, M, q + q', r);
  }

  /** Doubling before or after reducing modulo `M` gives the same remainder. */
  lemma ModDouble(a: nat, M: nat)
    requires M > 0
    ensures (a % M * 2) % M == (a * 2) % M
  {
    var q, r := a / M, a % M;
    assert a * 2 == (2 * q) * M + r * 2;
    ModAddMultiple(r * 2, 2 * q, M);
  }

  /** Doubling `x * P` modulo `M` is multiplying `x` by `2 * P` modulo `M`. */
  lemma ShlStep(x: nat, P: nat, M: nat)
    requires M > 0
    ensures ((x * P) % M * 2) % M == (x * (2 * P)) % M
  {
    ModDouble(x * P, M);
    DoubledProduct(x, P);
  }

  lemma DoubledProduct(x: nat, P: nat)
    ensures (x * P) * 2 == x * (2 * P)
  {
  }

  /** `x >> k` divides by 2^k. */
  lemma {:induction false} ShrIs(x: U64, k: nat)
    requires k < 64
    ensures Shr(x, k) == x / Pow2(k)
    decreases k
  {
    if k > 0 {
      ShrIs(x, k - 1);
      DivDivBy(x, Pow2(k - 1), 2);
      assert Pow2(k - 1) * 2 == Pow2(k);
    }
  }

  /** Shifting a multiple of 2^k down by `k`. */
  lemma ShrMultiple(x: U64, t: nat, k: nat)
    requires k < 64 && x == t * Pow2(k)
    ensures Shr(x, k) == t
  {
    ShrIs(x, k);
    MulDiv(t, k);
  }

  /** Shifting a number up `k` bits when nothing passes bit 63. */
  lemma ShlNoWrap(x: U64, k: nat, y: nat)
    requires k < 64 && y == x * Pow2(k) && y < TWO_64
    ensures Shl(x, k) == y
  {
    ShlIs(x, k);
    SmallDiv(y, TWO_64);
  }

  /** Shifting zero gives zero. */
  lemma {:induction false} ShrZero(k: nat)
    requires k < 64
    ensures Shr(0, k) == 0
    decreases k
  {
    if k > 0 {
      ShrZero(k - 1);
    }
  }

  /** `1 & m` is the low bit of `m`. */
  lemma AndOne(m: nat)
    ensures And(1, m) == m % 2
  {
  }

  /** `x << k` multiplies by 2^k and wraps around at 2^64. */
  lemma {:induction false} ShlIs(x: U64, k: nat)
    requires k < 64
    ensures Shl(x, k) == (x * Pow2(k)) % TWO_64
    decreases k
  {
    if k > 0 {
      ShlIs(x, k - 1);
      ShlStep(x, Pow2(k - 1), TWO_64);
      assert Pow2(k) == 2 * Pow2(k - 1);
    }
  }
}
