// Bytes, 64-bit bounds and little-endian integers, shared by every wire format.
module Bytes {
  type byte = x: int | 0 <= x < 256

  /** Character data, one byte a character. */
  type Text = seq<byte>

  const U64 := 0x1_0000_0000_0000_0000
  const I64_LIMIT := 0x8000_0000_0000_0000

  /** `e` occurs in `b` starting at index `p`. */
  predicate At(b: seq<byte>, p: nat, e: seq<byte>) {
    p + |e| <= |b| && b[p..p + |e|] == e
  }

  lemma AtSplit(b: seq<byte>, p: nat, e: seq<byte>, f: seq<byte>)
    requires At(b, p, e + f)
    ensures At(b, p, e) && At(b, p + |e|, f) && p + |e| + |f| <= |b|
  {
    assert b[p..p + |e|] == b[p..p + |e + f|][..|e|];
    assert b[p + |e|..p + |e| + |f|] == b[p..p + |e + f|][|e|..];
  }

  lemma AtHead(b: seq<byte>, p: nat, e: seq<byte>)
    requires At(b, p, e) && |e| > 0
    ensures p < |b| && b[p] == e[0]
  {
    assert b[p] == b[p..p + |e|][0];
  }

  lemma AtMiddle(pre: seq<byte>, e: seq<byte>, post: seq<byte>)
    ensures At(pre + e + post, |pre|, e)
  {
    assert (pre + e + post)[|pre|..|pre| + |e|] == e;
  }

  // ---- Little-endian integers -------------------------------------------------------------

  function Pow256(n: nat): (r: nat)
    ensures r > 0
  {
    if n == 0 then 1 else 256 * Pow256(n - 1)
  }

  lemma Pow256Eight()
    ensures Pow256(8) == U64
  {
    assert Pow256(2) == 0x1_0000;
    assert Pow256(4) == 0x1_0000_0000;
    assert Pow256(6) == 0x1_0000_0000_0000;
  }

  lemma Pow256Grows(m: nat, n: nat)
    requires m <= n
    ensures Pow256(m) <= Pow256(n)
  {
    if m < n { Pow256Grows(m, n - 1); }
  }

  /** The number a little-endian byte string stands for: what `memcpy` into a zeroed integer loads. */
  function FromLittle(s: seq<byte>): (n: nat) {
    if s == [] then 0 else s[0] + 256 * FromLittle(s[1..])
  }

  /** The low `k` bytes of `n`, least significant first. */
  function ToLittle(n: nat, k: nat): (s: seq<byte>)
    ensures |s| == k
  {
    if k == 0 then [] else [n % 256] + ToLittle(n / 256, k - 1)
  }

  lemma {:induction false} LittleRoundTrip(n: nat, k: nat)
    requires n < Pow256(k)
    ensures FromLittle(ToLittle(n, k)) == n
  {
    if k > 0 {
      LittleRoundTrip(n / 256, k - 1);
      assert ToLittle(n, k)[1..] == ToLittle(n / 256, k - 1);
    }
  }

  lemma {:induction false} LittleBound(s: seq<byte>)
    ensures FromLittle(s) < Pow256(|s|)
  {
    if s != [] { LittleBound(s[1..]); }
  }

  lemma {:induction false} LittleInverse(s: seq<byte>)
    ensures ToLittle(FromLittle(s), |s|) == s
  {
    if s != [] {
      LittleInverse(s[1..]);
      var n := FromLittle(s);
      assert n % 256 == s[0] && n / 256 == FromLittle(s[1..]);
      assert s == [s[0]] + s[1..];
    }
  }

  /** `value >> 8 * i` */
  function ShiftRight(n: nat, i: nat): nat { if i == 0 then n else ShiftRight(n / 256, i - 1) }

  lemma {:induction false} LittleDigit(n: nat, k: nat, i: nat)
    requires i < k
    ensures ToLittle(n, k)[i] == ShiftRight(n, i) % 256
  {
    if i > 0 { LittleDigit(n / 256, k - 1, i - 1); }
  }

  /** Byte i is `(value >> 8 * i) & 0xff`, on any host. */
  method ShiftStore(value: nat, count: nat) returns (s: seq<byte>)
    ensures s == ToLittle(value, count)
  {
    s := [];
    while |s| < count
      invariant |s| <= count && s == ToLittle(value, count)[..|s|]
    {
      LittleDigit(value, count, |s|);
      s := s + [ShiftRight(value, |s|) % 256];
    }
  }

  // ---- Division --------------------------------------------------------------------------------------

  lemma Quotient(m: nat, p: nat, q: nat, r: nat)
    requires p > 0 && r < p && m == p * q + r
    ensures m / p == q
  {
    var d := m / p;
    assert m == p * d + m % p;
    assert d < q ==> p * (d + 1) <= p * q;
    assert d > q ==> p * (q + 1) <= p * d;
  }

  lemma DivideShift(c: nat, a: nat, r: nat)
    requires c > 0
    ensures (c * a + r) / c == a + r / c
  {
    assert c * a + r == c * (a + r / c) + r % c;
    Quotient(c * a + r, c, a + r / c, r % c);
  }

  lemma DivideLess(r: nat, c: nat, p: nat)
    requires c > 0 && r < c * p
    ensures r / c < p
  {
    var q := r / c;
    assert r == c * q + r % c;
    assert q >= p ==> c * q >= c * p;
  }

  /** Dividing twice is dividing once by the product. */
  lemma DivideTwice(n: nat, c: nat, p: nat)
    requires c > 0 && p > 0
    ensures c * p > 0 && n / c / p == n / (c * p)
  {
    assert c * p > 0;
    var q := n / (c * p);
    var r := n % (c * p);
    assert n == c * (p * q) + r by {
      assert n == c * p * q + r;
      assert c * p * q == c * (p * q);
    }
    DivideShift(c, p * q, r);
    DivideLess(r, c, p);
    Quotient(n / c, p, q, r / c);
  }

  // ---- Bitwise operators on unsigned numbers -------------------------------------------------

  function Pow2(n: nat): (r: nat)
    ensures r > 0
  {
    if n == 0 then 1 else 2 * Pow2(n - 1)
  }

  lemma Pow2Sum(m: nat, n: nat)
    ensures Pow2(m + n) == Pow2(m) * Pow2(n)
  {
    if m == 0 {
    } else {
      Pow2Sum(m - 1, n);
      assert Pow2(m + n) == 2 * Pow2(m - 1 + n);
    }
  }

  /** Bitwise or, bit by bit from the least significant end. */
  function BitOr(a: nat, b: nat): nat {
    if a == 0 && b == 0 then 0
    else (if a % 2 == 1 || b % 2 == 1 then 1 else 0) + 2 * BitOr(a / 2, b / 2)
  }

  lemma OrZero(a: nat)
    ensures BitOr(a, 0) == a && BitOr(0, a) == a
  {
    if a != 0 { OrZero(a / 2); }
  }

  /** Or-ing a number below 2^k with one shifted left by k is addition: no bit is shared. */
  lemma {:induction false} OrDisjoint(a: nat, b: nat, k: nat)
    requires a < Pow2(k)
    ensures BitOr(a, b * Pow2(k)) == a + b * Pow2(k)
    ensures BitOr(b * Pow2(k), a) == a + b * Pow2(k)
  {
    if k == 0 {
      OrZero(b);
    } else {
      var c := b * Pow2(k);
      var d := b * Pow2(k - 1);
      assert c == 2 * d;
      OrDisjoint(a / 2, b, k - 1);
      if a != 0 || c != 0 {
        assert c % 2 == 0 && c / 2 == d;
        assert a == a % 2 + 2 * (a / 2);
      }
    }
  }

  lemma Pow2Is256(n: nat)
    ensures Pow2(8 * n) == Pow256(n)
  {
    if n > 0 {
      Pow2Is256(n - 1);
      Pow2Sum(8, 8 * (n - 1));
      assert Pow2(8) == 256;
    }
  }
}
