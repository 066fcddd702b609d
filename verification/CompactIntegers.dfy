// Compact integer and size headers: what the reader accepts, what the writer emits, and why the
// writer's form is the only shortest one.
module CompactIntegers {
  import opened Bytes

  const SMALL_UINT_MAX: byte := 0x3f
  const SMALL_NEG_MIN: byte := 0x40
  const SMALL_NEG_MAX: byte := 0x4f
  const INT_PAYLOAD_MIN: byte := 0x50
  const INT_PAYLOAD_MAX: byte := 0x5f
  const BYTES_BASE: byte := 0x60
  const STRING_BASE: byte := 0x70
  const ARRAY_BASE: byte := 0x80
  const MAP_BASE: byte := 0x90
  const OBJECT_BASE: byte := 0xa0
  const INLINE_MAX := 14
  const EXTENDED := 15
  const FALSE_HEADER: byte := 0xb0
  const TRUE_HEADER: byte := 0xb1
  const NULL_HEADER: byte := 0xb2
  const FLOAT_HEADER: byte := 0xc4
  const DOUBLE_HEADER: byte := 0xc8

  datatype Code =
    | Truncated
    | InvalidHeader
    | InvalidSize
    | InvalidInteger
    | InvalidFieldId
    | DuplicateKey
    | VariantIndexOutOfRange

  /** A read from a cursor: the value and the new cursor, or the error code and its offset,
      which is where the cursor was when the error was created and where it stays. */
  datatype Res<+T> = Ok(val: T, pos: nat) | Err(code: Code, at: nat)

  // ---- Reader ----------------------------------------------------------------------------------

  function ReadByte(b: seq<byte>, p: nat): Res<byte>
    requires p <= |b|
  {
    if p == |b| then Err(Truncated, p) else Ok(b[p], p + 1)
  }

  function ReadRaw(n: nat, b: seq<byte>, p: nat): Res<seq<byte>>
    requires p <= |b|
  {
    if p + n <= |b| then Ok(b[p..p + n], p + n) else Err(Truncated, p)
  }

  function ReadUint(b: seq<byte>, p: nat): (r: Res<nat>)
    requires p <= |b|
    ensures r.Ok? ==> p < r.pos <= |b| && r.val < U64
    ensures r.Err? ==> r.at == p
  {
    if p == |b| then Err(Truncated, p)
    else
      var h := b[p];
      if h <= SMALL_UINT_MAX then Ok(h, p + 1)
      else if h / 8 == 10 then
        var n := h % 8 + 1;
        if |b| - (p + 1) < n then Err(Truncated, p)
        else
          LittleBound(b[p + 1..p + 1 + n]); Pow256Grows(n, 8); Pow256Eight();
          Ok(FromLittle(b[p + 1..p + 1 + n]), p + 1 + n)
      else if h <= SMALL_NEG_MAX then Err(InvalidInteger, p)
      else if h > INT_PAYLOAD_MAX then Err(InvalidHeader, p)
      else Err(InvalidInteger, p)
  }

  function ReadInt(b: seq<byte>, p: nat): (r: Res<int>)
    requires p <= |b|
    ensures r.Ok? ==> p < r.pos <= |b| && -I64_LIMIT <= r.val < I64_LIMIT
    ensures r.Err? ==> r.at == p
  {
    if p == |b| then Err(Truncated, p)
    else
      var h := b[p];
      if h <= SMALL_UINT_MAX then Ok(h, p + 1)
      else if h <= SMALL_NEG_MAX then Ok(-(h - SMALL_NEG_MIN + 1), p + 1)
      else if h > INT_PAYLOAD_MAX then Err(InvalidHeader, p)
      else
        var n := h % 8 + 1;
        if |b| - (p + 1) < n then Err(Truncated, p)
        else
          var m := FromLittle(b[p + 1..p + 1 + n]);
          if h < 0x58 then
            if m >= I64_LIMIT then Err(InvalidInteger, p) else Ok(m, p + 1 + n)
          else if m > I64_LIMIT then Err(InvalidInteger, p)
          else Ok(-(m as int), p + 1 + n)
  }

  /** Header byte of a sized kind followed, when its low nibble is 15, by an extended size. */
  function ReadSize(base: byte, b: seq<byte>, p: nat): (r: Res<nat>)
    requires p <= |b|
    ensures r.Ok? ==> p < r.pos <= |b| && r.val < U64
    ensures r.Err? ==> p <= r.at <= |b|
  {
    if p == |b| then Err(Truncated, p)
    else if !(base <= b[p] <= base + EXTENDED) then Err(InvalidHeader, p + 1)
    else if b[p] - base < EXTENDED then Ok(b[p] - base, p + 1)
    else ReadUint(b, p + 1)
  }

  // ---- Writer ----------------------------------------------------------------------------------

  /** Number of significant bytes; at least one. */
  function ByteLen(n: nat): (k: nat)
    ensures k >= 1
  {
    if n < 256 then 1 else 1 + ByteLen(n / 256)
  }

  function IntPayload(negative: bool, magnitude: nat): seq<byte>
    requires ByteLen(magnitude) <= 8
  {
    [INT_PAYLOAD_MIN + (if negative then 8 else 0) + ByteLen(magnitude) - 1] +
    ToLittle(magnitude, ByteLen(magnitude))
  }

  function EncodeUint(n: nat): (e: seq<byte>)
    requires n < U64
    ensures 1 <= |e| <= 9
  {
    ByteLenBound(n, 8); Pow256Eight();
    if n <= SMALL_UINT_MAX then [n] else IntPayload(false, n)
  }

  function EncodeInt(n: int): (e: seq<byte>)
    requires -I64_LIMIT <= n < I64_LIMIT
    ensures 1 <= |e| <= 9
  {
    if n >= 0 then EncodeUint(n)
    else
      ByteLenBound(-n, 8); Pow256Eight();
      if -n <= 16 then [SMALL_NEG_MIN + (-n - 1)] else IntPayload(true, -n)
  }

  predicate IsSizeBase(base: byte) {
    base == BYTES_BASE || base == STRING_BASE || base == ARRAY_BASE || base == MAP_BASE || base == OBJECT_BASE
  }

  function EncodeSize(base: byte, n: nat): (e: seq<byte>)
    requires IsSizeBase(base) && n < U64
    ensures |e| >= 1 && base <= e[0] <= base + EXTENDED
  {
    if n <= INLINE_MAX then [base + n] else [base + EXTENDED] + EncodeUint(n)
  }

  // ---- Facts ---------------------------------------------------------------------------------

  lemma ByteLenBound(n: nat, k: nat)
    requires k >= 1
    ensures ByteLen(n) <= k <==> n < Pow256(k)
  {
    if n < 256 {
      Pow256Grows(1, k);
    } else if k == 1 {
      assert Pow256(1) == 256;
    } else {
      ByteLenBound(n / 256, k - 1);
      assert n < 256 * Pow256(k - 1) <==> n / 256 < Pow256(k - 1);
    }
  }

  /** Every u64 round trips at any position of any buffer. */
  lemma UintRoundTrip(n: nat, b: seq<byte>, p: nat)
    requires n < U64 && At(b, p, EncodeUint(n))
    ensures ReadUint(b, p) == Ok(n, p + |EncodeUint(n)|)
  {
    var e := EncodeUint(n);
    AtHead(b, p, e);
    if n > SMALL_UINT_MAX {
      var k := ByteLen(n);
      ByteLenBound(n, 8); Pow256Eight(); ByteLenBound(n, k);
      LittleRoundTrip(n, k);
      assert e[1..] == ToLittle(n, k);
      assert b[p + 1..p + 1 + k] == b[p..p + |e|][1..];
    }
  }

  /** Every i64, the minimum included, round trips. */
  lemma IntRoundTrip(n: int, b: seq<byte>, p: nat)
    requires -I64_LIMIT <= n < I64_LIMIT && At(b, p, EncodeInt(n))
    ensures ReadInt(b, p) == Ok(n, p + |EncodeInt(n)|)
  {
    var e := EncodeInt(n);
    AtHead(b, p, e);
    var m: nat := if n >= 0 then n else -n;
    if (n > SMALL_UINT_MAX || n < -16) {
      var k := ByteLen(m);
      ByteLenBound(m, 8); Pow256Eight(); ByteLenBound(m, k);
      LittleRoundTrip(m, k);
      assert e[1..] == ToLittle(m, k);
      assert b[p + 1..p + 1 + k] == b[p..p + |e|][1..];
    }
  }

  lemma SizeRoundTrip(base: byte, n: nat, b: seq<byte>, p: nat)
    requires IsSizeBase(base) && n < U64 && At(b, p, EncodeSize(base, n))
    ensures ReadSize(base, b, p) == Ok(n, p + |EncodeSize(base, n)|)
  {
    hide EncodeUint, ReadUint;
    var e := EncodeSize(base, n);
    AtHead(b, p, e);
    if n > INLINE_MAX {
      AtSplit(b, p, [base + EXTENDED], EncodeUint(n));
      UintRoundTrip(n, b, p + 1);
    }
  }

  /** A payload that stands for `m` is no shorter than its significant bytes; at that length it is unique. */
  lemma PayloadShortest(s: seq<byte>, m: nat)
    requires FromLittle(s) == m && 1 <= |s|
    ensures ByteLen(m) <= |s|
    ensures ByteLen(m) == |s| ==> s == ToLittle(m, ByteLen(m))
  {
    LittleBound(s);
    ByteLenBound(m, |s|);
    LittleInverse(s);
  }

  /** The writer's form of an unsigned integer is the unique shortest string the reader accepts for it. */
  lemma UintShortest(b: seq<byte>, p: nat)
    requires p <= |b| && ReadUint(b, p).Ok?
    ensures var r := ReadUint(b, p);
            var e := EncodeUint(r.val);
            |e| <= r.pos - p && (|e| == r.pos - p ==> b[p..r.pos] == e)
  {
    var r := ReadUint(b, p);
    var h := b[p];
    if h > SMALL_UINT_MAX {
      var s := b[p + 1..r.pos];
      PayloadShortest(s, r.val);
      assert b[p..r.pos] == [h] + s;
    } else {
      assert b[p..r.pos] == [h];
    }
  }

  lemma IntForm(n: int)
    requires -I64_LIMIT <= n < I64_LIMIT
    ensures var m: nat := if n < 0 then -n else n;
            if -16 <= n <= SMALL_UINT_MAX then |EncodeInt(n)| == 1
            else EncodeInt(n) == [(if n < 0 then 0x58 else 0x50) + ByteLen(m) - 1] + ToLittle(m, ByteLen(m))
  {
    ByteLenBound(if n < 0 then -n else n, 8);
    Pow256Eight();
  }

  lemma IntShortest(b: seq<byte>, p: nat)
    requires p <= |b| && ReadInt(b, p).Ok?
    ensures var r := ReadInt(b, p);
            var e := EncodeInt(r.val);
            |e| <= r.pos - p && (|e| == r.pos - p ==> b[p..r.pos] == e)
  {
    hide EncodeInt, ByteLen, ToLittle;
    var r := ReadInt(b, p);
    var h := b[p];
    IntForm(r.val);
    if h > SMALL_NEG_MAX {
      var s := b[p + 1..r.pos];
      PayloadShortest(s, if r.val >= 0 then r.val else -r.val);
      assert b[p..r.pos] == [h] + s;
    } else {
      SmallIntForm(h);
      assert b[p..r.pos] == [h];
    }
  }

  lemma SmallIntForm(h: byte)
    requires h <= SMALL_NEG_MAX
    ensures EncodeInt(if h <= SMALL_UINT_MAX then h else -(h - SMALL_NEG_MIN + 1)) == [h]
  {}
}
