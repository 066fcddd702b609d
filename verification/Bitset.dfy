// std::bitset layouts: packed bytes, least significant bit first, and the binary adapter's u64.
module Bitset {
  import opened Bytes

  function ByteCount(n: nat): nat { (n + 7) / 8 }

  /** The number whose i-th binary digit is `f[i]`: `to_ullong`. */
  function Number(f: seq<bool>): (n: nat) {
    if f == [] then 0 else (if f[0] then 1 else 0) + 2 * Number(f[1..])
  }

  /** The j-th binary digit: `(n >> j) & 1`. */
  predicate BitAt(n: nat, j: nat)
    decreases j
  {
    if j == 0 then n % 2 == 1 else BitAt(n / 2, j - 1)
  }

  function Digits(n: nat, k: nat): (f: seq<bool>)
    ensures |f| == k
  {
    seq(k, j requires 0 <= j < k => BitAt(n, j))
  }

  function Shl(n: nat, w: nat): nat { if w == 0 then n else 2 * Shl(n, w - 1) }

  lemma {:induction false} NumberBound(f: seq<bool>, k: nat)
    requires |f| <= k
    ensures Number(f) < Pow2(k)
  {
    if f != [] { NumberBound(f[1..], k - 1); }
  }

  lemma Pow2Eight()
    ensures Pow2(8) == 256
  {
    assert Pow2(4) == 16;
  }

  /** Reading a digit of the number gives the flag; digits past the flags are zero. */
  lemma {:induction false} NumberBit(f: seq<bool>, j: nat)
    ensures BitAt(Number(f), j) == (j < |f| && f[j])
    decreases j, |f|
  {
    if f == [] {
      if j > 0 { NumberBit(f, j - 1); }
    } else if j > 0 {
      assert Number(f) / 2 == Number(f[1..]);
      NumberBit(f[1..], j - 1);
    }
  }

  /** Digits of a number below 2^k give it back. */
  lemma {:induction false} NumberOfDigits(n: nat, k: nat)
    requires n < Pow2(k)
    ensures Number(Digits(n, k)) == n
  {
    if k > 0 {
      assert Digits(n, k)[1..] == Digits(n / 2, k - 1);
      NumberOfDigits(n / 2, k - 1);
    }
  }

  lemma {:induction false} SplitNumber(f: seq<bool>, w: nat)
    requires w <= |f|
    ensures Number(f) == Number(f[..w]) + Shl(Number(f[w..]), w)
  {
    if w == 0 {
      assert f[0..] == f;
    } else {
      SplitNumber(f[1..], w - 1);
      assert f[..w][1..] == f[1..][..w - 1];
      assert f[1..][w - 1..] == f[w..];
    }
  }

  // ---- Packed bytes -----------------------------------------------------------------------------

  /** The flags byte `i` carries. */
  function Chunk(f: seq<bool>, i: nat): (g: seq<bool>)
    requires 8 * i <= |f|
    ensures |g| <= 8
  {
    f[8 * i..if 8 * i + 8 < |f| then 8 * i + 8 else |f|]
  }

  function PackByte(f: seq<bool>, i: nat): byte
    requires 8 * i <= |f|
  {
    NumberBound(Chunk(f, i), 8); Pow2Eight();
    Number(Chunk(f, i))
  }

  function Pack(f: seq<bool>): (s: seq<byte>)
    ensures |s| == ByteCount(|f|)
  {
    seq(ByteCount(|f|), i requires 0 <= i < ByteCount(|f|) => PackByte(f, i))
  }

  function Unpack(s: seq<byte>, n: nat): (f: seq<bool>)
    requires |s| == ByteCount(n)
    ensures |f| == n
  {
    seq(n, i requires 0 <= i < n => BitAt(s[i / 8], i % 8))
  }

  /** Bit j of packed byte k is flag 8k+j, and padding bits are zero. */
  lemma PackedBit(f: seq<bool>, k: nat, j: nat)
    requires k < ByteCount(|f|) && j < 8
    ensures BitAt(Pack(f)[k], j) == (8 * k + j < |f| && f[8 * k + j])
  {
    NumberBit(Chunk(f, k), j);
  }

  /** Unpacking inverts packing, for every size. */
  lemma UnpackPack(f: seq<bool>)
    ensures Unpack(Pack(f), |f|) == f
  {
    hide Pack, BitAt;
    forall i: nat | i < |f| ensures Unpack(Pack(f), |f|)[i] == f[i] {
      PackedBit(f, i / 8, i % 8);
    }
  }

  lemma SameDigits(x: byte, y: byte)
    requires forall j: nat :: j < 8 ==> BitAt(x, j) == BitAt(y, j)
    ensures x == y
  {
    Pow2Eight();
    NumberOfDigits(x, 8);
    NumberOfDigits(y, 8);
    assert Digits(x, 8) == Digits(y, 8);
  }

  /** Repacking unpacked bytes clears the padding bits and changes no other bit. */
  lemma RepackedBit(s: seq<byte>, n: nat, k: nat, j: nat)
    requires |s| == ByteCount(n) && k < |s| && j < 8
    ensures BitAt(Pack(Unpack(s, n))[k], j) == (8 * k + j < n && BitAt(s[k], j))
  {
    hide Pack, BitAt;
    PackedBit(Unpack(s, n), k, j);
    if 8 * k + j < n { assert (8 * k + j) / 8 == k && (8 * k + j) % 8 == j; }
  }

  /** Every byte but the last comes back unchanged, and the last too when no bit of it is padding. */
  lemma PackUnpack(s: seq<byte>, n: nat)
    requires |s| == ByteCount(n)
    ensures forall k: nat :: 8 * k + 8 <= n ==> Pack(Unpack(s, n))[k] == s[k]
  {
    hide Pack, Unpack, BitAt;
    forall k: nat | 8 * k + 8 <= n ensures Pack(Unpack(s, n))[k] == s[k] {
      forall j: nat | j < 8 ensures BitAt(Pack(Unpack(s, n))[k], j) == BitAt(s[k], j) {
        RepackedBit(s, n, k, j);
      }
      SameDigits(Pack(Unpack(s, n))[k], s[k]);
    }
  }

  lemma AppendFlag(g: seq<bool>, b: bool)
    ensures Number(g + [b]) == BitOr(Number(g), if b then Pow2(|g|) else 0)
  {
    hide Number, Shl, BitOr, Pow2;
    SplitNumber(g + [b], |g|);
    NumberOne(b);
    assert (g + [b])[..|g|] == g && (g + [b])[|g|..] == [b];
    NumberBound(g, |g|);
    ShlPow2(if b then 1 else 0, |g|);
    if b { OrDisjoint(Number(g), 1, |g|); } else { OrZero(Number(g)); }
  }

  lemma NumberOne(b: bool)
    ensures Number([b]) == if b then 1 else 0
  {}

  lemma ShlPow2(n: nat, w: nat)
    ensures Shl(n, w) == n * Pow2(w)
  {}

  /** The codec's packing loop: `bytes[i / 8] |= 1 << (i % 8)`. */
  method PackLoop(f: seq<bool>) returns (bytes: array<byte>)
    ensures fresh(bytes) && bytes[..] == Pack(f)
  {
    bytes := new byte[ByteCount(|f|)](_ => 0);
    var i := 0;
    while i < |f|
      invariant i <= |f| && bytes.Length == ByteCount(|f|)
      invariant forall k :: 0 <= k < bytes.Length ==> bytes[k] == Partial(f, i, k)
    {
      PartialStep(f, i);
      if f[i] {
        bytes[i / 8] := BitOr(bytes[i / 8], Pow2(i % 8));
      }
      i := i + 1;
    }
    forall k | 0 <= k < bytes.Length ensures bytes[k] == Pack(f)[k] {
      assert f[..|f|] == f;
    }
  }

  /** Byte k of the packed form of the first i flags. */
  function Partial(f: seq<bool>, i: nat, k: nat): byte
    requires i <= |f|
  {
    if 8 * k < i then PackByte(f[..i], k) else 0
  }

  lemma PartialStep(f: seq<bool>, i: nat)
    requires i < |f|
    ensures Partial(f, i + 1, i / 8) ==
            if f[i] then BitOr(Partial(f, i, i / 8), Pow2(i % 8)) else Partial(f, i, i / 8)
    ensures forall k: nat :: k != i / 8 ==> Partial(f, i + 1, k) == Partial(f, i, k)
  {
    hide Number, BitOr, Pow2;
    var k := i / 8;
    var g := if 8 * k < i then Chunk(f[..i], k) else [];
    assert g == f[8 * k..i];
    assert Chunk(f[..i + 1], k) == g + [f[i]];
    AppendFlag(g, f[i]);
    OrZero(Number(g));
    NumberEmpty();
    forall k': nat | k' != k ensures Partial(f, i + 1, k') == Partial(f, i, k') { PartialOther(f, i, k'); }
  }

  lemma PartialOther(f: seq<bool>, i: nat, k: nat)
    requires i < |f| && k != i / 8
    ensures Partial(f, i + 1, k) == Partial(f, i, k)
  {
    hide Number;
    assert 8 * k != i;
    if 8 * k < i { assert Chunk(f[..i + 1], k) == Chunk(f[..i], k); }
  }

  lemma NumberEmpty()
    ensures Number([]) == 0
  {}

  /** The codec's unpacking loops. */
  method UnpackLoop(bytes: seq<byte>, n: nat) returns (flags: array<bool>)
    requires |bytes| == ByteCount(n)
    ensures fresh(flags) && flags[..] == Unpack(bytes, n)
  {
    flags := new bool[n](_ => false);
    var i := 0;
    while i < |bytes|
      invariant i <= |bytes|
      invariant forall x :: 0 <= x < n ==> flags[x] == (x < 8 * i && BitAt(bytes[x / 8], x % 8))
    {
      var bit := 0;
      while bit < 8
        invariant 0 <= bit <= 8
        invariant forall x :: 0 <= x < n ==> flags[x] == (x < 8 * i + bit && BitAt(bytes[x / 8], x % 8))
      {
        var index := 8 * i + bit;
        assert index / 8 == i && index % 8 == bit;
        if index < n && BitAt(bytes[i], bit) {
          flags[index] := true;
        }
        bit := bit + 1;
      }
      i := i + 1;
    }
  }

  // ---- The u64 layout -----------------------------------------------------------------------------

  lemma FirstByte(f: seq<bool>)
    requires |f| >= 8
    ensures Pack(f) == [PackByte(f, 0)] + Pack(f[8..])
  {
    hide Number;
    forall i: nat | 0 < i < ByteCount(|f|) ensures Chunk(f, i) == Chunk(f[8..], i - 1) {
      assert f[8 * i..] == f[8..][8 * (i - 1)..];
    }
  }

  lemma NumberFirstByte(f: seq<bool>)
    requires |f| >= 8
    ensures Number(f) == PackByte(f, 0) + 256 * Number(f[8..])
  {
    hide Number, Shl;
    SplitNumber(f, 8);
    ShlEight(Number(f[8..]));
    assert Chunk(f, 0) == f[..8];
  }

  lemma ShlEight(n: nat)
    ensures Shl(n, 8) == 256 * n
  {
    assert Shl(n, 1) == 2 * n && Shl(n, 2) == 4 * n && Shl(n, 3) == 8 * n;
    assert Shl(n, 4) == 16 * n && Shl(n, 5) == 32 * n && Shl(n, 6) == 64 * n && Shl(n, 7) == 128 * n;
  }

  /** Up to 64 flags (k = 8): the bytes of the binary adapter's u64 are the packed bytes and zeros. */
  lemma {:induction false} U64IsPacked(f: seq<bool>, k: nat)
    requires |f| <= 8 * k
    ensures ToLittle(Number(f), k) == Pack(f) + seq(k - ByteCount(|f|), _ => 0)
    decreases k
  {
    hide Number, Pack, ToLittle, PackByte;
    if |f| < 8 {
      LastByte(f, k);
    } else {
      FirstByte(f);
      NumberFirstByte(f);
      var b := PackByte(f, 0);
      LittleStep(b, Number(f[8..]), k);
      U64IsPacked(f[8..], k - 1);
      var pad := seq(k - ByteCount(|f|), _ => 0);
      assert [b] + (Pack(f[8..]) + pad) == ([b] + Pack(f[8..])) + pad;
    }
  }

  lemma LittleStep(b: byte, n: nat, k: nat)
    requires k > 0
    ensures ToLittle(b + 256 * n, k) == [b] + ToLittle(n, k - 1)
  {
    var m := b + 256 * n;
    LowByte(b, n);
    assert ToLittle(m, k) == [m % 256] + ToLittle(m / 256, k - 1);
  }

  lemma LowByte(b: byte, n: nat)
    ensures (b + 256 * n) % 256 == b && (b + 256 * n) / 256 == n
  {}

  lemma LastByte(f: seq<bool>, k: nat)
    requires |f| < 8 && |f| <= 8 * k
    ensures ToLittle(Number(f), k) == Pack(f) + seq(k - ByteCount(|f|), _ => 0)
  {
    if f == [] {
      ZeroBytes(k);
      assert Pack(f) == [];
    } else {
      NumberBound(f, 8); Pow2Eight();
      ZeroBytes(k - 1);
      assert Chunk(f, 0) == f;
      assert Pack(f) == [Number(f)];
    }
  }

  lemma ZeroBytes(k: nat)
    ensures ToLittle(0, k) == seq(k, _ => 0)
  {
    if k > 0 {
      ZeroBytes(k - 1);
      assert seq<byte>(k, _ => 0) == [0] + seq<byte>(k - 1, _ => 0);
    }
  }
}
