/**
 * Most-significant-bit-first bit strings and the power-of-two arithmetic that
 * relates them to the integer bit buffers of the Base32 codec.
 */
module Bits {

  function Pow2(n: nat): (p: nat)
    ensures p >= 1
  {
    if n == 0 then 1 else 2 * Pow2(n - 1)
  }

  /** The value of a bit string read most significant bit first. */
  function Value(bits: seq<bool>): (v: nat)
    ensures v < Pow2(|bits|)
  {
    if |bits| == 0 then 0
    else (if bits[0] then Pow2(|bits| - 1) else 0) + Value(bits[1..])
  }

  /** The `width` low bits of `v`, most significant first. */
  function FromNat(v: nat, width: nat): (bits: seq<bool>)
    requires v < Pow2(width)
    ensures |bits| == width
    decreases v, width
  {
    if width == 0 then []
    else if v >= Pow2(width - 1) then [true] + FromNat(v - Pow2(width - 1), width - 1)
    else [false] + FromNat(v, width - 1)
  }

  /** `x << n`: multiplication by 2^n. */
  function Shl(x: nat, n: nat): nat
    decreases x, n
  {
    if n == 0 then x else 2 * Shl(x, n - 1)
  }

  /** `x >> n`: division by 2^n, rounding down. */
  function Shr(x: nat, n: nat): nat
    decreases x, n
  {
    if n == 0 then x else Shr(x, n - 1) / 2
  }

  /** The value of the `n` low bits of `x`: `x & (2^n - 1)`. */
  function Low(x: nat, n: nat): nat
    decreases x, n
  {
    if n == 0 then 0 else 2 * Low(x / 2, n - 1) + x % 2
  }

  /** The bit pattern an `int` keeps of `x`: its low 32 bits. */
  function Wrap(x: nat): nat
  {
    Low(x, 32)
  }

  function Zeros(n: nat): (bits: seq<bool>)
    ensures |bits| == n && forall i :: 0 <= i < n ==> !bits[i]
  {
    seq(n, _ => false)
  }

  lemma {:induction false} ValueFromNat(v: nat, width: nat)
    requires v < Pow2(width)
    ensures Value(FromNat(v, width)) == v
  {
    if width > 0 {
      if v >= Pow2(width - 1) {
        ValueFromNat(v - Pow2(width - 1), width - 1);
      } else {
        ValueFromNat(v, width - 1);
      }
    }
  }

  lemma {:induction false} FromNatValue(bits: seq<bool>)
    ensures FromNat(Value(bits), |bits|) == bits
  {
    if |bits| > 0 {
      FromNatValue(bits[1..]);
      assert [bits[0]] + bits[1..] == bits;
    }
  }

  lemma {:induction false} ZerosValue(n: nat)
    ensures Value(Zeros(n)) == 0
  {
    if n > 0 {
      assert Zeros(n)[1..] == Zeros(n - 1);
      ZerosValue(n - 1);
    }
  }

  lemma {:induction false} ZerosFromNat(n: nat)
    ensures FromNat(0, n) == Zeros(n)
  {
    if n > 0 {
      ZerosFromNat(n - 1);
      assert Zeros(n) == [false] + Zeros(n - 1);
    }
  }

  lemma {:induction false} Pow2Add(a: nat, b: nat)
    ensures Pow2(a + b) == Pow2(a) * Pow2(b)
  {
    if b > 0 {
      Pow2Add(a, b - 1);
      calc {
        Pow2(a + b);
        2 * Pow2(a + b - 1);
        2 * (Pow2(a) * Pow2(b - 1));
        Pow2(a) * (2 * Pow2(b - 1));
      }
    }
  }

  lemma Distribute(a: int, b: int, c: int)
    ensures (a + b) * c == a * c + b * c
  {
  }

  lemma {:induction false} ValueAppend(a: seq<bool>, b: seq<bool>)
    ensures Value(a + b) == Value(a) * Pow2(|b|) + Value(b)
  {
    if |a| == 0 {
      assert a + b == b;
    } else {
      assert (a + b)[1..] == a[1..] + b;
      assert (a + b)[0] == a[0];
      ValueAppend(a[1..], b);
      var p := Pow2(|b|);
      var h := if a[0] then Pow2(|a| - 1) else 0;
      var hb := if a[0] then Pow2(|a| + |b| - 1) else 0;
      assert hb == h * p by {
        Pow2Add(|a| - 1, |b|);
      }
      assert Value(a + b) == hb + Value(a[1..] + b);
      assert Value(a + b) == h * p + Value(a[1..]) * p + Value(b);
      Distribute(h, Value(a[1..]), p);
    }
  }

  lemma MulLeftMonotone(a: int, b: int, m: int)
    requires a <= b && m >= 0
    ensures a * m <= b * m
  {
  }

  /** Euclidean division is determined by any quotient/remainder pair. */
  lemma DivModUnique(x: int, m: int, q: int, r: int)
    requires m > 0 && 0 <= r < m && x == q * m + r
    ensures x / m == q && x % m == r
  {
    var q', r' := x / m, x % m;
    assert (q - q') * m == r' - r;
    if q > q' {
      MulLeftMonotone(1, q - q', m);
    } else if q < q' {
      MulLeftMonotone(1, q' - q, m);
    }
  }

  lemma SmallMod(x: nat, m: nat)
    requires x < m
    ensures x % m == x && x / m == 0
  {
    DivModUnique(x, m, 0, x);
  }

  lemma MulAssociate(a: int, b: int, c: int)
    ensures a * (b * c) == (a * b) * c
  {
  }

  lemma ExtractArith(x: int, p: int, wp: int, m: int, hi: int, lo: int)
    requires p > 0 && wp > 0 && m == wp * p
    requires 0 <= lo < p && 0 <= hi < wp && x >= 0 && x % m == hi * p + lo
    ensures (x / p) % wp == hi && x % p == lo
  {
    var q := x / m;
    assert x == q * m + (hi * p + lo);
    MulAssociate(q, wp, p);
    Distribute(q * wp, hi, p);
    assert x == (q * wp + hi) * p + lo;
    DivModUnique(x, p, q * wp + hi, lo);
    DivModUnique(x / p, wp, q, hi);
  }

  /**
   * If the low k + w bits of x are the bit string `bits`, shifting x right
   * by k and keeping w bits yields the first w bits of `bits`, and the low k
   * bits of x are the rest of `bits`.
   */
  lemma Extract(x: nat, k: nat, w: nat, bits: seq<bool>)
    requires |bits| == k + w && x % Pow2(k + w) == Value(bits)
    ensures (x / Pow2(k)) % Pow2(w) == Value(bits[..w])
    ensures x % Pow2(k) == Value(bits[w..])
  {
    var hi, lo := bits[..w], bits[w..];
    assert bits == hi + lo;
    ValueAppend(hi, lo);
    Pow2Add(w, k);
    ExtractArith(x, Pow2(k), Pow2(w), Pow2(k + w), Value(hi), Value(lo));
  }

  lemma ShiftInArith(x: int, p: int, wp: int, m: int, e: int, full: int, v: int, b: int)
    requires p > 0 && wp > 0 && e > 0 && m == p * wp && full == m * e
    requires x >= 0 && 0 <= v < wp && 0 <= b < p && x % p == b
    ensures ((x * wp + v) % full) % m == b * wp + v
  {
    var low := b * wp + v;
    assert low < m by {
      MulLeftMonotone(b + 1, p, wp);
      Distribute(b, 1, wp);
    }
    var q := x / p;
    var y := x * wp + v;
    assert y == q * m + low by {
      assert x == q * p + b;
      Distribute(q * p, b, wp);
      MulAssociate(q, p, wp);
    }
    var t := y / full;
    assert y % full == y - t * full;
    assert t * full == (t * e) * m by {
      MulAssociate(t, e, m);
    }
    assert y % full == (q - t * e) * m + low by {
      Distribute(q, -(t * e), m);
    }
    DivModUnique(y % full, m, q - t * e, low);
  }

  /**
   * Shifting an n-bit buffer left by w (dropping the bits pushed past the
   * top) and or-ing in a w-bit value v appends v's bits to the live low bits.
   */
  lemma ShiftIn(x: nat, n: nat, k: nat, w: nat, v: nat, bits: seq<bool>)
    requires k + w <= n && v < Pow2(w)
    requires |bits| == k && x % Pow2(k) == Value(bits)
    ensures ((x * Pow2(w) + v) % Pow2(n)) % Pow2(k + w) == Value(bits + FromNat(v, w))
  {
    var p, wp, m, e := Pow2(k), Pow2(w), Pow2(k + w), Pow2(n - (k + w));
    assert m == p * wp by {
      Pow2Add(k, w);
    }
    assert Pow2(n) == m * e by {
      Pow2Add(k + w, n - (k + w));
    }
    assert Value(bits + FromNat(v, w)) == Value(bits) * wp + v by {
      ValueAppend(bits, FromNat(v, w));
      ValueFromNat(v, w);
    }
    ShiftInArith(x, p, wp, m, e, Pow2(n), v, Value(bits));
  }

  // ----- shifts and masks as arithmetic -----------------------------------

  lemma {:induction false} ShlIsMul(x: nat, n: nat)
    ensures Shl(x, n) == x * Pow2(n)
  {
    if n > 0 {
      ShlIsMul(x, n - 1);
      MulAssociate(x, 2, Pow2(n - 1));
    }
  }

  lemma {:induction false} ShrIsDiv(x: nat, n: nat)
    ensures Shr(x, n) == x / Pow2(n)
  {
    if n > 0 {
      ShrIsDiv(x, n - 1);
      var p := Pow2(n - 1);
      var q, r := x / p, x % p;
      var q2, r2 := q / 2, q % 2;
      assert x == q2 * (2 * p) + (r2 * p + r) by {
        assert x == q * p + r;
        Distribute(2 * q2, r2, p);
        MulAssociate(q2, 2, p);
      }
      assert r2 * p + r < 2 * p by {
        MulLeftMonotone(r2, 1, p);
      }
      DivModUnique(x, 2 * p, q2, r2 * p + r);
    }
  }

  lemma {:induction false} LowIsMod(x: nat, n: nat)
    ensures Low(x, n) == x % Pow2(n)
  {
    if n == 0 {
      DivModUnique(x, 1, x, 0);
    } else {
      LowIsMod(x / 2, n - 1);
      var p := Pow2(n - 1);
      var q, m := (x / 2) / p, (x / 2) % p;
      assert x == q * (2 * p) + (2 * m + x % 2) by {
        assert x / 2 == q * p + m;
        MulAssociate(q, 2, p);
      }
      DivModUnique(x, 2 * p, q, 2 * m + x % 2);
    }
  }

  lemma {:induction false} LowBound(x: nat, n: nat)
    ensures Low(x, n) < Pow2(n)
  {
    if n > 0 {
      LowBound(x / 2, n - 1);
    }
  }

  /**
   * If the low k bits of x are `bits`, shifting x left by w, or-ing in a
   * w-bit value v and keeping n >= k + w bits makes the low k + w bits `bits`
   * followed by the bits of v.
   */
  lemma ShiftInBits(x: nat, n: nat, k: nat, w: nat, v: nat, bits: seq<bool>)
    requires k + w <= n && v < Pow2(w)
    requires |bits| == k && Low(x, k) == Value(bits)
    ensures Low(Low(Shl(x, w) + v, n), k + w) == Value(bits + FromNat(v, w))
  {
    var y := Shl(x, w) + v;
    LowIsMod(x, k);
    ShlIsMul(x, w);
    LowIsMod(y, n);
    LowIsMod(Low(y, n), k + w);
    ShiftIn(x, n, k, w, v, bits);
  }

  /** Shifting a whole bit string in, rather than a value of a given width. */
  lemma ShiftInGroup(x: nat, n: nat, group: seq<bool>, bits: seq<bool>)
    requires |bits| + |group| <= n && Low(x, |bits|) == Value(bits)
    ensures Low(Low(Shl(x, |group|) + Value(group), n), |bits| + |group|) == Value(bits + group)
  {
    FromNatValue(group);
    ShiftInBits(x, n, |bits|, |group|, Value(group), bits);
  }

  /**
   * If the low k + w bits of x are `bits`, the w bits above the low k are the
   * first w of `bits`, and the low k bits are the rest.
   */
  lemma ExtractBits(x: nat, k: nat, w: nat, bits: seq<bool>)
    requires |bits| == k + w && Low(x, k + w) == Value(bits)
    ensures Low(Shr(x, k), w) == Value(bits[..w])
    ensures Low(x, k) == Value(bits[w..])
  {
    LowIsMod(x, k + w);
    LowIsMod(x, k);
    ShrIsDiv(x, k);
    LowIsMod(Shr(x, k), w);
    Extract(x, k, w, bits);
  }
}
