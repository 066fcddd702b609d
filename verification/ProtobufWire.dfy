// Protocol Buffers wire primitives: base-128 varints, record keys and length prefixes.
module ProtobufWire {
  import opened Bytes

  datatype Code =
    | Truncated
    | InvalidVarint
    | FieldNumberZero
    | UnknownField
    | DuplicateField
    | WireTypeMismatch
    | InvalidSize

  const VARINT := 0
  const FIXED64 := 1
  const LENGTH_DELIMITED := 2
  const FIXED32 := 5

  // ---- Writing -----------------------------------------------------------------------------------

  /** Seven bits a byte, least significant group first; every byte but the last is 128 or more. */
  function ToVarint(n: nat): (s: seq<byte>)
    ensures |s| >= 1
  {
    if n < 128 then [n] else [n % 128 + 128] + ToVarint(n / 128)
  }

  function Tag(id: nat, wire: nat): seq<byte> { ToVarint(8 * id + wire) }

  function Prefixed(payload: seq<byte>): seq<byte> { ToVarint(|payload|) + payload }

  // ---- Reading -----------------------------------------------------------------------------------

  /** The number the groups of `s` stand for. */
  function FromVarint(s: seq<byte>): nat {
    if s == [] then 0 else s[0] % 128 + 128 * FromVarint(s[1..])
  }

  /** How many leading bytes carry the continuation bit. */
  function Continued(s: seq<byte>): (k: nat)
    ensures k <= |s|
    ensures k < |s| ==> s[k] < 128
    ensures forall i :: 0 <= i < k ==> s[i] >= 128
  {
    if s == [] || s[0] < 128 then 0 else 1 + Continued(s[1..])
  }

  /** A primitive read of the front of the input: what it got and how many bytes that took. A failed
      read reports where, relative to the front, the cursor stood. */
  datatype Num = Got(val: nat, used: nat) | Bad(code: Code)

  /** At most ten bytes; bits past the 64th are lost. */
  function ReadVarint(s: seq<byte>): (r: Num)
    ensures r.Got? ==> 1 <= r.used <= |s| && r.used <= 10 && r.val < U64
  {
    var k := Continued(s);
    if k < 10 && k < |s| then Got(FromVarint(s[..k + 1]) % U64, k + 1)
    else if |s| < 10 then Bad(Truncated)
    else Bad(InvalidVarint)
  }

  function FieldNumber(key: nat): nat { key / 8 % 0x1_0000_0000 }

  function WireType(key: nat): nat { key % 8 }

  /** A length prefix and the bytes it announces: the payload is `s[head..head + size]`. */
  datatype Span = Span(head: nat, size: nat) | NoSpan(code: Code, at: nat)

  function ReadSpan(s: seq<byte>): (r: Span)
    ensures r.Span? ==> 1 <= r.head && r.head + r.size <= |s|
    ensures r.NoSpan? ==> r.at <= |s|
  {
    match ReadVarint(s)
    case Bad(c) => NoSpan(c, 0)
    case Got(n, u) => if n > |s| - u then NoSpan(Truncated, u) else Span(u, n)
  }

  // ---- Round trip --------------------------------------------------------------------------------

  lemma {:induction false} VarintInverse(n: nat)
    ensures FromVarint(ToVarint(n)) == n
    ensures Continued(ToVarint(n)) == |ToVarint(n)| - 1
  {
    if n >= 128 {
      VarintInverse(n / 128);
      assert ToVarint(n)[1..] == ToVarint(n / 128);
    }
  }

  lemma {:induction false} ContinuedPrefix(s: seq<byte>, t: seq<byte>)
    requires Continued(s) < |s|
    ensures Continued(s + t) == Continued(s)
  {
    if s[0] >= 128 {
      assert (s + t)[1..] == s[1..] + t;
      ContinuedPrefix(s[1..], t);
    }
  }

  lemma VarintBound(n: nat)
    requires n < U64
    ensures |ToVarint(n)| <= 10
  {
    Pow2Word();
    VarintLength(n, 64);
  }

  /** Every u64 round trips in front of any bytes. */
  lemma VarintRoundTrip(n: nat, rest: seq<byte>)
    requires n < U64
    ensures ReadVarint(ToVarint(n) + rest) == Got(n, |ToVarint(n)|)
  {
    hide ToVarint, FromVarint, Continued;
    var e := ToVarint(n);
    VarintInverse(n);
    ContinuedPrefix(e, rest);
    VarintBound(n);
    assert (e + rest)[..|e|] == e;
  }

  lemma TagRoundTrip(id: nat, wire: nat, rest: seq<byte>)
    requires id < 0x1_0000_0000 && wire < 8
    ensures ReadVarint(Tag(id, wire) + rest) == Got(8 * id + wire, |Tag(id, wire)|)
    ensures FieldNumber(8 * id + wire) == id && WireType(8 * id + wire) == wire
  {
    hide ReadVarint, ToVarint;
    VarintRoundTrip(8 * id + wire, rest);
  }

  lemma SpanRoundTrip(payload: seq<byte>, rest: seq<byte>)
    requires |payload| < U64
    ensures var h := |ToVarint(|payload|)|;
            var s := Prefixed(payload) + rest;
            ReadSpan(s) == Span(h, |payload|) && s[h..h + |payload|] == payload
  {
    hide ReadVarint, ToVarint;
    var e := ToVarint(|payload|);
    assert Prefixed(payload) + rest == e + (payload + rest);
    VarintRoundTrip(|payload|, payload + rest);
  }

  /** More input never changes a successful read. */
  lemma VarintExtends(s: seq<byte>, t: seq<byte>)
    requires ReadVarint(s).Got?
    ensures ReadVarint(s + t) == ReadVarint(s)
  {
    hide FromVarint;
    ContinuedPrefix(s, t);
    var k := Continued(s);
    assert (s + t)[..k + 1] == s[..k + 1];
  }

  lemma SpanExtends(s: seq<byte>, t: seq<byte>)
    requires ReadSpan(s).Span?
    ensures ReadSpan(s + t) == ReadSpan(s)
  {
    hide ReadVarint;
    VarintExtends(s, t);
  }

  // ---- The closed-form length ------------------------------------------------------------------

  /** `std::countl_zero` of the low `w` bits. */
  function CountlZero(n: nat, w: nat): (z: nat)
    ensures z <= w
  {
    if w == 0 || n >= Pow2(w - 1) then 0 else 1 + CountlZero(n, w - 1)
  }

  /** `varint_byte_count` */
  function VarintByteCount(value: nat): nat {
    var bits := 64 - CountlZero(BitOr(value, 1), 64);
    (bits + 6) / 7
  }

  lemma {:induction false} BitWidth(n: nat, w: nat)
    requires 1 <= n < Pow2(w)
    ensures var bits := w - CountlZero(n, w);
            bits >= 1 && Pow2(bits - 1) <= n < Pow2(bits)
  {
    if w > 0 && n < Pow2(w - 1) { BitWidth(n, w - 1); }
  }

  /** A number of `bits` significant bits takes ceil(bits / 7) bytes. */
  lemma {:induction false} VarintLength(n: nat, bits: nat)
    requires n < Pow2(bits)
    ensures |ToVarint(n)| <= if bits == 0 then 1 else (bits + 6) / 7
    ensures bits >= 1 && Pow2(bits - 1) <= n ==> |ToVarint(n)| == (bits + 6) / 7
  {
    Pow2Seven();
    if n >= 128 {
      if bits < 8 {
        Pow2Grows(bits, 7);
        assert false;
      }
      Pow2Sum(7, bits - 7);
      Pow2Sum(7, bits - 8);
      DivideBound(n, Pow2(bits - 7));
      if Pow2(bits - 1) <= n { DivideBelow(n, Pow2(bits - 8)); }
      VarintLength(n / 128, bits - 7);
    } else if bits >= 8 {
      Pow2Grows(7, bits - 1);
    }
  }

  lemma Pow2Seven()
    ensures Pow2(7) == 128
  {
    assert Pow2(4) == 16;
  }

  lemma Pow2Grows(m: nat, n: nat)
    requires m <= n
    ensures Pow2(m) <= Pow2(n)
  {
    if m < n { Pow2Grows(m, n - 1); }
  }

  lemma DivideBound(n: nat, a: nat)
    requires n < 128 * a
    ensures n / 128 < a
  {}

  lemma DivideBelow(n: nat, a: nat)
    requires 128 * a <= n
    ensures a <= n / 128
  {}

  lemma OrOne(n: nat)
    ensures BitOr(n, 1) == if n % 2 == 1 then n else n + 1
  {
    OrZero(n / 2);
  }

  lemma Pow2Word()
    ensures Pow2(64) == U64
  {
    Pow2Is256(8);
    Pow256Eight();
  }

  /** For every u64 the closed form is the number of bytes the shift loop emits. */
  lemma ByteCountExact(value: nat)
    requires value < U64
    ensures VarintByteCount(value) == |ToVarint(value)|
  {
    hide ToVarint, BitOr, CountlZero, Pow2;
    Pow2Word();
    OrOne(value);
    var n := BitOr(value, 1);
    BitWidth(n, 64);
    var bits := 64 - CountlZero(n, 64);
    SameLength(value);
    VarintLength(n, bits);
  }

  /** Setting the low bit changes no length. */
  lemma SameLength(n: nat)
    ensures |ToVarint(if n % 2 == 1 then n else n + 1)| == |ToVarint(n)|
  {
    if n % 2 == 0 { assert (n + 1) / 128 == n / 128; }
  }
}
