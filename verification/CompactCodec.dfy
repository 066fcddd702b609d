// The compact codecs: the bytes a value is written as, and what a read returns from any bytes.
module CompactCodec {
  import opened Bytes
  import opened Schema
  import opened CompactIntegers
  import Bitset

  // ---- Writing -----------------------------------------------------------------------------------

  function EncodeLeaf(t: Leaf, v: Value): (e: seq<byte>)
    requires LeafHas(t, v) == true
    ensures |e| > 0
  {
    match t
    case BoolL => [if v.on then TRUE_HEADER else FALSE_HEADER]
    case UIntL(_) => EncodeUint(v.n)
    case IntL(_) => EncodeInt(v.n)
    case FloatL => [FLOAT_HEADER] + ToLittle(v.bits, 4)
    case DoubleL => [DOUBLE_HEADER] + ToLittle(v.bits, 8)
    case StringL => EncodeBlob(STRING_BASE, v.bytes)
    case BytesL(_) => EncodeBlob(BYTES_BASE, TrimZeros(v.bytes))
    case BitsetL(_) => EncodeBlob(BYTES_BASE, Bitset.Pack(v.flags))
  }

  function EncodeBlob(base: byte, s: seq<byte>): (e: seq<byte>)
    requires IsSizeBase(base) && |s| < U64
    ensures |e| > 0
  {
    EncodeSize(base, |s|) + s
  }

  function EncodeIn(t: Type, v: Value, o: Order): (e: seq<byte>)
    requires Typed(t, v) == true
    ensures |e| > 0
    decreases t, 1, 0
  {
    if t.LeafT? then EncodeLeaf(t.leaf, v)
    else if t.OptionalT? then if v.Nothing? then [NULL_HEADER] else EncodeIn(t.elem, v.payload, o)
    else if t.VariantT? then
      EncodeSize(ARRAY_BASE, 2) + EncodeUint(v.index) + EncodeIn(t.alts[v.index], v.payload, o)
    else if t.MapT? then EncodeSize(MAP_BASE, |v.entries|) + EncodeEntries(t, v.entries, o, 0)
    else if t.ObjectT? then
      EncodeSize(OBJECT_BASE, |t.fields|) + EncodeRecords(t, v.items, o, Permutation(o, |t.fields|), 0)
    else EncodeSize(ARRAY_BASE, |v.items|) + EncodeElems(t, v.items, o, 0)
  }

  function EncodeElems(t: Type, vs: seq<Value>, o: Order, i: nat): seq<byte>
    requires IsSequence(t) && i <= |vs| && Typed(t, List(vs)) == true
    decreases t, 0, |vs| - i
  {
    if i == |vs| then [] else EncodeIn(ElemType(t, i), vs[i], Kid(o, i)) + EncodeElems(t, vs, o, i + 1)
  }

  /** Keys hold no objects, so only the mapped values have an order of their own. */
  function EncodeEntries(t: Type, es: seq<Entry>, o: Order, i: nat): seq<byte>
    requires t.MapT? && i <= |es| && Typed(t, Dict(es)) == true
    decreases t, 0, |es| - i
  {
    if i == |es| then []
    else EncodeIn(t.key, es[i].key, Plain) + EncodeIn(t.mapped, es[i].mapped, Kid(o, i)) +
         EncodeEntries(t, es, o, i + 1)
  }

  function EncodeRecords(t: Type, vs: seq<Value>, o: Order, perm: seq<nat>, k: nat): seq<byte>
    requires t.ObjectT? && Typed(t, Record(vs)) == true
    requires IsPermutation(perm, |vs|) && k <= |vs|
    decreases t, 0, |vs| - k
  {
    if k == |vs| then []
    else EncodeUint(t.fields[perm[k]].id) + EncodeIn(t.fields[perm[k]].ty, vs[perm[k]], Kid(o, perm[k])) +
         EncodeRecords(t, vs, o, perm, k + 1)
  }

  /** What the library's writer produces. */
  function Encode(t: Type, v: Value): seq<byte>
    requires Typed(t, v) == true
  {
    EncodeIn(t, v, Plain)
  }

  // ---- Skipping ----------------------------------------------------------------------------------

  /** A skip reports, besides its outcome, how many times the recursive `read` was entered. */
  datatype Skipped = Skipped(res: Res<()>, calls: nat)

  function Cursor<T>(r: Res<T>): nat { if r.Ok? then r.pos else r.at }

  /** Discarding goes through a 64-byte scratch buffer, so a short input is consumed in whole chunks. */
  function SkipRaw(n: nat, b: seq<byte>, p: nat): (r: Res<()>)
    requires p <= |b|
    ensures p <= Cursor(r) <= |b|
    ensures r.Ok? <==> p + n <= |b|
    ensures r.Ok? ==> r.pos == p + n
  {
    if p + n <= |b| then Ok((), p + n) else Err(Truncated, p + (|b| - p) / 64 * 64)
  }

  function SizeTail(h: byte, b: seq<byte>, p: nat): (r: Res<nat>)
    requires p <= |b|
    ensures p <= Cursor(r) <= |b|
  {
    if h % 16 < EXTENDED then Ok(h % 16, p) else ReadUint(b, p)
  }

  function Skip(b: seq<byte>, p: nat): (s: Skipped)
    requires p <= |b|
    ensures p <= Cursor(s.res) <= |b|
    ensures s.res.Ok? ==> p < s.res.pos
    decreases |b| - p, 0, 0
  {
    if p == |b| then Skipped(Err(Truncated, p), 1)
    else
      var h := b[p];
      var q := p + 1;
      if h <= SMALL_NEG_MAX then Skipped(Ok((), q), 1)
      else if h <= INT_PAYLOAD_MAX then Skipped(SkipRaw(h % 8 + 1, b, q), 1)
      else if h < ARRAY_BASE then
        match SizeTail(h, b, q)
        case Err(c, a) => Skipped(Err(c, a), 1)
        case Ok(n, q') => Skipped(SkipRaw(n, b, q'), 1)
      else if h < FALSE_HEADER then
        match SizeTail(h, b, q)
        case Err(c, a) => Skipped(Err(c, a), 1)
        case Ok(n, q') =>
          var s := if h < MAP_BASE then SkipMany(n, b, q')
                   else if h < OBJECT_BASE then SkipMany(2 * n, b, q')
                   else SkipRecords(n, b, q');
          Skipped(s.res, 1 + s.calls)
      else if h <= NULL_HEADER then Skipped(Ok((), q), 1)
      else if h == FLOAT_HEADER then Skipped(SkipRaw(4, b, q), 1)
      else if h == DOUBLE_HEADER then Skipped(SkipRaw(8, b, q), 1)
      else Skipped(Err(InvalidHeader, q), 1)
  }

  function SkipMany(n: nat, b: seq<byte>, p: nat): (s: Skipped)
    requires p <= |b|
    ensures p <= Cursor(s.res) <= |b|
    decreases |b| - p, 1, n
  {
    if n == 0 then Skipped(Ok((), p), 0)
    else
      var s := Skip(b, p);
      if s.res.Err? then s
      else
        var s' := SkipMany(n - 1, b, s.res.pos);
        Skipped(s'.res, s.calls + s'.calls)
  }

  function SkipRecords(n: nat, b: seq<byte>, p: nat): (s: Skipped)
    requires p <= |b|
    ensures p <= Cursor(s.res) <= |b|
    decreases |b| - p, 1, n
  {
    if n == 0 then Skipped(Ok((), p), 0)
    else
      match ReadUint(b, p)
      case Err(c, a) => Skipped(Err(c, a), 0)
      case Ok(_, q) =>
        var s := Skip(b, q);
        if s.res.Err? then s
        else
          var s' := SkipRecords(n - 1, b, s.res.pos);
          Skipped(s'.res, s.calls + s'.calls)
  }

  // ---- Reading -----------------------------------------------------------------------------------

  function DecodeLeaf(t: Leaf, b: seq<byte>, p: nat): (r: Res<Value>)
    requires p <= |b|
    ensures p <= Cursor(r) <= |b|
    ensures r.Ok? ==> p < r.pos
  {
    match t
    case BoolL =>
      (match ReadByte(b, p)
       case Err(c, a) => Err(c, a)
       case Ok(h, q) =>
         if h == FALSE_HEADER then Ok(Bool(false), q)
         else if h == TRUE_HEADER then Ok(Bool(true), q)
         else Err(InvalidHeader, q))
    case UIntL(w) =>
      (match ReadUint(b, p)
       case Err(c, a) => Err(c, a)
       case Ok(n, q) => if n > w.UMax() then Err(InvalidInteger, q) else Ok(Int(n), q))
    case IntL(w) =>
      (match ReadInt(b, p)
       case Err(c, a) => Err(c, a)
       case Ok(n, q) => if n < w.SMin() || n > w.SMax() then Err(InvalidInteger, q) else Ok(Int(n), q))
    case FloatL => DecodeFloat(FLOAT_HEADER, 4, b, p)
    case DoubleL => DecodeFloat(DOUBLE_HEADER, 8, b, p)
    case StringL =>
      (match DecodeBlob(STRING_BASE, U64, b, p)
       case Err(c, a) => Err(c, a)
       case Ok(s, q) => Ok(Blob(s), q))
    case BytesL(n) =>
      (match DecodeBlob(BYTES_BASE, n, b, p)
       case Err(c, a) => Err(c, a)
       case Ok(s, q) => Ok(Blob(Fill(s, n)), q))
    case BitsetL(n) =>
      match ReadSize(BYTES_BASE, b, p)
      case Err(c, a) => Err(c, a)
      case Ok(k, q) =>
        if k != Bitset.ByteCount(n) then Err(InvalidSize, q)
        else match ReadRaw(k, b, q)
          case Err(c, a) => Err(c, a)
          case Ok(s, q') => Ok(Flags(Bitset.Unpack(s, n)), q')
  }

  /** A sized run of at most `limit` raw bytes. */
  function DecodeBlob(base: byte, limit: nat, b: seq<byte>, p: nat): (r: Res<seq<byte>>)
    requires p <= |b|
    ensures p <= Cursor(r) <= |b|
    ensures r.Ok? ==> p < r.pos && |r.val| <= limit
  {
    match ReadSize(base, b, p)
    case Err(c, a) => Err(c, a)
    case Ok(k, q) => if k > limit then Err(InvalidSize, q) else ReadRaw(k, b, q)
  }

  /** A typed read at `p` into a target that holds `prior`. */
  function Decode(t: Type, prior: Value, b: seq<byte>, p: nat): (r: Res<Value>)
    requires p <= |b|
    ensures p <= Cursor(r) <= |b|
    ensures r.Ok? ==> p < r.pos
    decreases t, 1, 0
  {
    if t.LeafT? then DecodeLeaf(t.leaf, b, p)
    else if t.OptionalT? then DecodeOptional(t, b, p)
    else if t.VariantT? then DecodeVariant(t, b, p)
    else if t.MapT? then DecodeMap(t, b, p)
    else if t.ObjectT? then DecodeObject(t, prior, b, p)
    else DecodeSequence(t, prior, b, p)
  }

  /** The header is only peeked at unless it is null. */
  function DecodeOptional(t: Type, b: seq<byte>, p: nat): (r: Res<Value>)
    requires p <= |b| && t.OptionalT?
    ensures p <= Cursor(r) <= |b|
    ensures r.Ok? ==> p < r.pos
    decreases t, 0, 0
  {
    if p == |b| then Err(Truncated, p)
    else if b[p] == NULL_HEADER then Ok(Nothing, p + 1)
    else match Decode(t.elem, Default(t.elem), b, p)
      case Err(c, a) => Err(c, a)
      case Ok(v, q) => Ok(Just(v), q)
  }

  /** A two-element array: index and alternative. */
  function DecodeVariant(t: Type, b: seq<byte>, p: nat): (r: Res<Value>)
    requires p <= |b| && t.VariantT?
    ensures p <= Cursor(r) <= |b|
    ensures r.Ok? ==> p < r.pos
    decreases t, 0, 1
  {
    match ReadSize(ARRAY_BASE, b, p)
    case Err(c, a) => Err(c, a)
    case Ok(k, q) => if k != 2 then Err(InvalidSize, q) else DecodeAlt(t, b, q)
  }

  function DecodeMap(t: Type, b: seq<byte>, p: nat): (r: Res<Value>)
    requires p <= |b| && t.MapT?
    ensures p <= Cursor(r) <= |b|
    ensures r.Ok? ==> p < r.pos
    decreases t, 0, U64
  {
    match ReadSize(MAP_BASE, b, p)
    case Err(c, a) => Err(c, a)
    case Ok(n, q) => DecodeEntries(t, n, [], b, q)
  }

  function DecodeObject(t: Type, prior: Value, b: seq<byte>, p: nat): (r: Res<Value>)
    requires p <= |b| && t.ObjectT?
    ensures p <= Cursor(r) <= |b|
    ensures r.Ok? ==> p < r.pos
    decreases t, 0, U64
  {
    match ReadSize(OBJECT_BASE, b, p)
    case Err(c, a) => Err(c, a)
    case Ok(n, q) => DecodeRecords(t, n, Slots(t, prior), b, q)
  }

  function DecodeSequence(t: Type, prior: Value, b: seq<byte>, p: nat): (r: Res<Value>)
    requires p <= |b| && IsSequence(t)
    ensures p <= Cursor(r) <= |b|
    ensures r.Ok? ==> p < r.pos
    decreases t, 0, U64
  {
    match ReadSize(ARRAY_BASE, b, p)
    case Err(c, a) => Err(c, a)
    case Ok(n, q) => if !LengthOk(t, n) then Err(InvalidSize, q) else DecodeElems(t, prior, n, [], b, q)
  }

  /** The current contents of the fields of an object. */
  function Slots(t: Type, prior: Value): (c: seq<Value>)
    requires t.ObjectT?
    ensures |c| == |t.fields|
  {
    seq(|t.fields|, i requires 0 <= i < |t.fields| => Slot(prior, i))
  }

  function DecodeAlt(t: Type, b: seq<byte>, p: nat): (r: Res<Value>)
    requires p <= |b| && t.VariantT?
    ensures p <= Cursor(r) <= |b|
    ensures r.Ok? ==> p < r.pos
    decreases t, 0, 0
  {
    match ReadUint(b, p)
    case Err(c, a) => Err(c, a)
    case Ok(i, q) =>
      if i >= |t.alts| then Err(VariantIndexOutOfRange, q)
      else match Decode(t.alts[i], Default(t.alts[i]), b, q)
        case Err(c, a) => Err(c, a)
        case Ok(v, q') => Ok(Alt(i, v), q')
  }

  function DecodeFloat(header: byte, n: nat, b: seq<byte>, p: nat): (r: Res<Value>)
    requires p <= |b|
    ensures p <= Cursor(r) <= |b|
    ensures r.Ok? ==> p < r.pos
  {
    match ReadByte(b, p)
    case Err(c, a) => Err(c, a)
    case Ok(h, q) =>
      if h != header then Err(InvalidHeader, q)
      else match ReadRaw(n, b, q)
        case Err(c, a) => Err(c, a)
        case Ok(s, q') => Ok(Float(FromLittle(s)), q')
  }

  /** What the i-th element is decoded into: a fresh item in a vector, the slot itself otherwise. */
  function ElemPrior(t: Type, prior: Value, i: nat): Value
    requires IsSequence(t)
  {
    if t.VectorT? then Default(t.elem) else Slot(prior, i)
  }

  /** The remaining elements of a sequence of `n`, after those in `acc`. */
  function DecodeElems(t: Type, prior: Value, n: nat, acc: seq<Value>, b: seq<byte>, p: nat): (r: Res<Value>)
    requires p <= |b| && IsSequence(t) && |acc| <= n && (t.TupleT? ==> n == |t.elems|)
    ensures p <= Cursor(r) <= |b|
    decreases t, 0, n - |acc|
  {
    if |acc| == n then Ok(List(acc), p)
    else match Decode(ElemType(t, |acc|), ElemPrior(t, prior, |acc|), b, p)
      case Err(c, a) => Err(c, a)
      case Ok(v, q) => DecodeElems(t, prior, n, acc + [v], b, q)
  }

  /** One key/value pair, emplaced. */
  function DecodeEntry(t: Type, acc: seq<Entry>, b: seq<byte>, p: nat): (r: Res<seq<Entry>>)
    requires p <= |b| && t.MapT?
    ensures p <= Cursor(r) <= |b|
    decreases t, 0, 0
  {
    match Decode(t.key, Default(t.key), b, p)
    case Err(c, a) => Err(c, a)
    case Ok(k, q) =>
      match Decode(t.mapped, Default(t.mapped), b, q)
      case Err(c, a) => Err(c, a)
      case Ok(m, q') =>
        match Emplace(acc, Entry(k, m))
        case None => Err(DuplicateKey, q')
        case Some(acc') => Ok(acc', q')
  }

  /** The next `n` key/value pairs. */
  function DecodeEntries(t: Type, n: nat, acc: seq<Entry>, b: seq<byte>, p: nat): (r: Res<Value>)
    requires p <= |b| && t.MapT?
    ensures p <= Cursor(r) <= |b|
    decreases t, 0, n
  {
    if n == 0 then Ok(Dict(acc), p)
    else match DecodeEntry(t, acc, b, p)
      case Err(c, a) => Err(c, a)
      case Ok(acc', q) => DecodeEntries(t, n - 1, acc', b, q)
  }

  /** One id/value record, into the object whose fields hold `cur`. */
  function DecodeRecord(t: Type, cur: seq<Value>, b: seq<byte>, p: nat): (r: Res<seq<Value>>)
    requires p <= |b| && t.ObjectT? && |cur| == |t.fields|
    ensures p <= Cursor(r) <= |b|
    ensures r.Ok? ==> |r.val| == |cur|
    decreases t, 0, 0
  {
    match ReadUint(b, p)
    case Err(c, a) => Err(c, a)
    case Ok(id, q) =>
      if id == 0 then Err(InvalidFieldId, q)
      else
        var k := FieldIndex(t.fields, id, 0);
        if k < |t.fields| then
          match Decode(t.fields[k].ty, cur[k], b, q)
          case Err(c, a) => Err(c, a)
          case Ok(v, q') => Ok(cur[k := v], q')
        else
          match Skip(b, q).res
          case Err(c, a) => Err(c, a)
          case Ok(_, q') => Ok(cur, q')
  }

  /** The next `n` records. */
  function DecodeRecords(t: Type, n: nat, cur: seq<Value>, b: seq<byte>, p: nat): (r: Res<Value>)
    requires p <= |b| && t.ObjectT? && |cur| == |t.fields|
    ensures p <= Cursor(r) <= |b|
    decreases t, 0, n
  {
    if n == 0 then Ok(Record(cur), p)
    else match DecodeRecord(t, cur, b, p)
      case Err(c, a) => Err(c, a)
      case Ok(cur', q) => DecodeRecords(t, n - 1, cur', b, q)
  }
}
