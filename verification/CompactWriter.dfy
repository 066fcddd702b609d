// The compact writer into a bounded window, and exactly what it has committed when it stops.
module CompactWriter {
  import opened Bytes
  import opened Schema
  import opened CompactIntegers
  import opened CompactCodec
  import opened ByteWindow
  import Bitset

  // ---- All-or-nothing writes -----------------------------------------------------------------------

  function Flat(cs: seq<seq<byte>>): seq<byte> {
    if cs == [] then [] else cs[0] + Flat(cs[1..])
  }

  datatype Run = Run(bytes: seq<byte>, ok: bool)

  /** What a window of `capacity` bytes holding `bytes` ends up with when each chunk is written whole
      or not at all, stopping at the first that does not fit. */
  function Emit(bytes: seq<byte>, capacity: nat, cs: seq<seq<byte>>): (r: Run)
    ensures |bytes| <= capacity ==> |r.bytes| <= capacity
    decreases |cs|
  {
    if cs == [] then Run(bytes, true)
    else if |bytes| + |cs[0]| > capacity then Run(bytes, false)
    else Emit(bytes + cs[0], capacity, cs[1..])
  }

  /** How many leading chunks fit. */
  function Fitting(room: nat, cs: seq<seq<byte>>): (k: nat)
    ensures k <= |cs|
  {
    if cs == [] || |cs[0]| > room then 0 else 1 + Fitting(room - |cs[0]|, cs[1..])
  }

  /** Capacity theorem: writing succeeds exactly when the whole encoding fits; otherwise what was
      committed is the longest run of leading chunks that fits, always a prefix of the encoding. */
  lemma {:induction false} Capacity(bytes: seq<byte>, capacity: nat, cs: seq<seq<byte>>)
    requires |bytes| <= capacity
    ensures var r := Emit(bytes, capacity, cs);
            var k := Fitting(capacity - |bytes|, cs);
            (r.ok <==> |bytes| + |Flat(cs)| <= capacity) &&
            r.bytes == bytes + Flat(cs[..k]) && Flat(cs[..k]) <= Flat(cs) &&
            (r.ok ==> r.bytes == bytes + Flat(cs)) &&
            (!r.ok ==> k < |cs| && |r.bytes| + |cs[k]| > capacity)
    decreases |cs|
  {
    if cs != [] && |bytes| + |cs[0]| <= capacity {
      var k := Fitting(capacity - |bytes|, cs);
      Capacity(bytes + cs[0], capacity, cs[1..]);
      assert cs[..k][1..] == cs[1..][..k - 1];
      assert cs[..k][0] == cs[0];
      assert bytes + cs[0] + Flat(cs[1..][..k - 1]) == bytes + (cs[0] + Flat(cs[1..][..k - 1]));
      assert bytes + cs[0] + Flat(cs[1..]) == bytes + (cs[0] + Flat(cs[1..]));
    }
  }

  lemma {:induction false} EmitSplit(bytes: seq<byte>, capacity: nat, a: seq<seq<byte>>, b: seq<seq<byte>>)
    ensures var f := Emit(bytes, capacity, a);
            Emit(bytes, capacity, a + b) == if f.ok then Emit(f.bytes, capacity, b) else f
    decreases |a|
  {
    if a == [] {
      assert a + b == b;
    } else {
      assert (a + b)[1..] == a[1..] + b;
      if |bytes| + |a[0]| <= capacity { EmitSplit(bytes + a[0], capacity, a[1..], b); }
    }
  }

  lemma {:induction false} FlatAppend(a: seq<seq<byte>>, b: seq<seq<byte>>)
    ensures Flat(a + b) == Flat(a) + Flat(b)
  {
    if a == [] {
      assert a + b == b;
    } else {
      assert (a + b)[1..] == a[1..] + b;
      FlatAppend(a[1..], b);
    }
  }

  // ---- The chunks of a value --------------------------------------------------------------------

  function SizeChunks(base: byte, n: nat): seq<seq<byte>>
    requires IsSizeBase(base) && n < U64
  {
    if n <= INLINE_MAX then [[base + n]] else [[base + EXTENDED], EncodeUint(n)]
  }

  function BlobChunks(base: byte, s: seq<byte>): seq<seq<byte>>
    requires IsSizeBase(base) && |s| < U64
  {
    SizeChunks(base, |s|) + [s]
  }

  function LeafChunks(t: Leaf, v: Value): seq<seq<byte>>
    requires LeafHas(t, v) == true
  {
    match t
    case StringL => BlobChunks(STRING_BASE, v.bytes)
    case BytesL(_) => BlobChunks(BYTES_BASE, TrimZeros(v.bytes))
    case BitsetL(_) => BlobChunks(BYTES_BASE, Bitset.Pack(v.flags))
    case _ => [EncodeLeaf(t, v)]
  }

  function Chunks(t: Type, v: Value): seq<seq<byte>>
    requires Typed(t, v) == true
    decreases t, 1, 0
  {
    if t.LeafT? then LeafChunks(t.leaf, v)
    else if t.OptionalT? then if v.Nothing? then [[NULL_HEADER]] else Chunks(t.elem, v.payload)
    else if t.VariantT? then
      SizeChunks(ARRAY_BASE, 2) + [EncodeUint(v.index)] + Chunks(t.alts[v.index], v.payload)
    else if t.MapT? then SizeChunks(MAP_BASE, |v.entries|) + EntryChunks(t, v.entries, 0)
    else if t.ObjectT? then SizeChunks(OBJECT_BASE, |t.fields|) + FieldChunks(t, v.items, 0)
    else SizeChunks(ARRAY_BASE, |v.items|) + ElemChunks(t, v.items, 0)
  }

  function ElemChunks(t: Type, vs: seq<Value>, i: nat): seq<seq<byte>>
    requires IsSequence(t) && i <= |vs| && Typed(t, List(vs)) == true
    decreases t, 0, |vs| - i
  {
    if i == |vs| then [] else Chunks(ElemType(t, i), vs[i]) + ElemChunks(t, vs, i + 1)
  }

  function EntryChunks(t: Type, es: seq<Entry>, i: nat): seq<seq<byte>>
    requires t.MapT? && i <= |es| && Typed(t, Dict(es)) == true
    decreases t, 0, |es| - i
  {
    if i == |es| then []
    else Chunks(t.key, es[i].key) + Chunks(t.mapped, es[i].mapped) + EntryChunks(t, es, i + 1)
  }

  function FieldChunks(t: Type, vs: seq<Value>, i: nat): seq<seq<byte>>
    requires t.ObjectT? && i <= |vs| && Typed(t, Record(vs)) == true
    decreases t, 0, |vs| - i
  {
    if i == |vs| then []
    else [EncodeUint(t.fields[i].id)] + Chunks(t.fields[i].ty, vs[i]) + FieldChunks(t, vs, i + 1)
  }

  // ---- The chunks are the encoding -----------------------------------------------------------------

  lemma SizeFlat(base: byte, n: nat)
    requires IsSizeBase(base) && n < U64
    ensures Flat(SizeChunks(base, n)) == EncodeSize(base, n)
  {
    hide EncodeUint;
    if n > INLINE_MAX { FlatPair([base + EXTENDED], EncodeUint(n)); } else { FlatPair([base + n], []); }
  }

  lemma FlatPair(x: seq<byte>, y: seq<byte>)
    ensures Flat([x, y]) == x + y && Flat([x]) == x
  {
    assert [x, y][1..] == [y] && [x][1..] == [] && [y][1..] == [];
    assert x + [] == x && y + [] == y;
    assert Flat([y]) == y;
  }

  lemma LeafFlat(t: Leaf, v: Value)
    requires LeafHas(t, v) == true
    ensures Flat(LeafChunks(t, v)) == EncodeLeaf(t, v)
  {
    match t
    case StringL => BlobFlat(STRING_BASE, v.bytes);
    case BytesL(_) => BlobFlat(BYTES_BASE, TrimZeros(v.bytes));
    case BitsetL(_) => BlobFlat(BYTES_BASE, Bitset.Pack(v.flags));
    case _ => FlatPair(EncodeLeaf(t, v), []);
  }

  lemma BlobFlat(base: byte, s: seq<byte>)
    requires IsSizeBase(base) && |s| < U64
    ensures Flat(BlobChunks(base, s)) == EncodeBlob(base, s)
  {
    hide SizeChunks, EncodeSize;
    SizeFlat(base, |s|);
    FlatPair(s, []);
    FlatAppend(SizeChunks(base, |s|), [s]);
  }

  /** Whatever the room, the writer's chunks joined together are the bytes the value is encoded as. */
  lemma {:induction false} ChunksFlat(t: Type, v: Value)
    requires Typed(t, v) == true
    ensures Flat(Chunks(t, v)) == Encode(t, v)
    decreases t, 1, 0
  {
    hide LeafChunks, EncodeLeaf, SizeChunks, EncodeSize, EncodeUint;
    if t.LeafT? {
      LeafFlat(t.leaf, v);
    } else if t.OptionalT? {
      if v.Nothing? { FlatPair([NULL_HEADER], []); } else { ChunksFlat(t.elem, v.payload); }
    } else if t.VariantT? {
      var h, x, e := SizeChunks(ARRAY_BASE, 2), [EncodeUint(v.index)], Chunks(t.alts[v.index], v.payload);
      FlatAppend(h + x, e); FlatAppend(h, x); FlatPair(EncodeUint(v.index), []);
      SizeFlat(ARRAY_BASE, 2);
      ChunksFlat(t.alts[v.index], v.payload);
    } else if t.MapT? {
      FlatAppend(SizeChunks(MAP_BASE, |v.entries|), EntryChunks(t, v.entries, 0));
      SizeFlat(MAP_BASE, |v.entries|);
      EntriesFlat(t, v.entries, 0);
    } else if t.ObjectT? {
      FlatAppend(SizeChunks(OBJECT_BASE, |v.items|), FieldChunks(t, v.items, 0));
      SizeFlat(OBJECT_BASE, |v.items|);
      FieldsFlat(t, v.items, 0);
    } else {
      FlatAppend(SizeChunks(ARRAY_BASE, |v.items|), ElemChunks(t, v.items, 0));
      SizeFlat(ARRAY_BASE, |v.items|);
      ElemsFlat(t, v.items, 0);
    }
  }

  lemma {:induction false} ElemsFlat(t: Type, vs: seq<Value>, i: nat)
    requires IsSequence(t) && i <= |vs| && Typed(t, List(vs)) == true
    ensures Flat(ElemChunks(t, vs, i)) == EncodeElems(t, vs, Plain, i)
    decreases t, 0, |vs| - i
  {
    hide Flat, EncodeIn, Chunks;
    if i == |vs| {
      FlatNone();
    } else {
      ChunksFlat(ElemType(t, i), vs[i]);
      FlatAppend(Chunks(ElemType(t, i), vs[i]), ElemChunks(t, vs, i + 1));
      ElemsFlat(t, vs, i + 1);
    }
  }

  lemma {:induction false} EntriesFlat(t: Type, es: seq<Entry>, i: nat)
    requires t.MapT? && i <= |es| && Typed(t, Dict(es)) == true
    ensures Flat(EntryChunks(t, es, i)) == EncodeEntries(t, es, Plain, i)
    decreases t, 0, |es| - i
  {
    hide Flat, EncodeIn, Chunks;
    if i == |es| {
      FlatNone();
    } else {
      var k, m := Chunks(t.key, es[i].key), Chunks(t.mapped, es[i].mapped);
      ChunksFlat(t.key, es[i].key);
      ChunksFlat(t.mapped, es[i].mapped);
      FlatAppend(k + m, EntryChunks(t, es, i + 1));
      FlatAppend(k, m);
      EntriesFlat(t, es, i + 1);
    }
  }

  lemma {:induction false} FieldsFlat(t: Type, vs: seq<Value>, i: nat)
    requires t.ObjectT? && i <= |vs| && Typed(t, Record(vs)) == true
    ensures Flat(FieldChunks(t, vs, i)) == EncodeRecords(t, vs, Plain, Permutation(Plain, |vs|), i)
    decreases t, 0, |vs| - i
  {
    hide Flat, EncodeUint, EncodeIn, Chunks;
    if i == |vs| {
      FlatNone();
    } else {
      ChunksFlat(t.fields[i].ty, vs[i]);
      FlatThree(EncodeUint(t.fields[i].id), Chunks(t.fields[i].ty, vs[i]), FieldChunks(t, vs, i + 1));
      FieldsFlat(t, vs, i + 1);
    }
  }

  lemma FlatNone()
    ensures Flat([]) == []
  {}

  lemma FlatThree(x: seq<byte>, m: seq<seq<byte>>, r: seq<seq<byte>>)
    ensures Flat([x] + m + r) == x + Flat(m) + Flat(r)
  {
    hide Flat;
    FlatPair(x, []);
    FlatAppend([x] + m, r);
    FlatAppend([x], m);
  }

  // ---- The writer -----------------------------------------------------------------------------------

  datatype WriteError = OutputError(offset: nat)

  /** `compact_byte_count` */
  method CountBytes(value: nat) returns (bytes: nat)
    ensures bytes == ByteLen(value)
  {
    bytes := 1;
    var rest: nat := value / 256;
    while rest != 0
      invariant ByteLen(value) == bytes + (if rest == 0 then 0 else ByteLen(rest))
      decreases rest
    {
      bytes := bytes + 1;
      rest := rest / 256;
    }
  }

  /** `trim_trailing_zeros` */
  method CountTrimmed(s: seq<byte>) returns (count: nat)
    ensures count == |TrimZeros(s)|
  {
    count := |s|;
    assert s[..count] == s;
    while count > 0 && s[count - 1] == 0
      invariant count <= |s| && TrimZeros(s) == TrimZeros(s[..count])
    {
      assert s[..count][..count - 1] == s[..count - 1];
      count := count - 1;
    }
  }

  class Writer {
    const out: WindowOutput
    const littleEndian: bool            // std::endian::native
    var error: Option<WriteError>

    ghost predicate Valid()
      reads this, out
    {
      out.Valid()
    }

    constructor (out: WindowOutput, littleEndian: bool)
      requires out.Valid()
      ensures Valid() && error.None? && this.out == out && this.littleEndian == littleEndian
    {
      this.out := out;
      this.littleEndian := littleEndian;
      error := None;
    }

    /** The chunks `cs` were written as far as they fit; the error keeps the offset of the first failure. */
    twostate predicate Wrote(cs: seq<seq<byte>>, ok: bool)
      requires old(Valid())
      reads this, out, out.data
    {
      var r := Emit(old(out.Contents()), out.data.Length, cs);
      Valid() && ok == r.ok && out.Contents() == r.bytes &&
      error == if ok then old(error)
               else Some(OutputError(if old(error).Some? then old(error).value.offset else out.current))
    }

    method Fail()
      requires Valid()
      modifies this
      ensures error == Some(OutputError(if old(error).Some? then old(error).value.offset else out.current))
    {
      error := Some(OutputError(if error.Some? then error.value.offset else out.current));
    }

    method Write(bytes: seq<byte>) returns (ok: bool)
      requires Valid()
      modifies this, out, out.data
      ensures Wrote([bytes], ok)
    {
      if bytes == [] {
        return true;
      }
      if out.Prepare(|bytes|) != |bytes| {
        Fail();
        return false;
      }
      out.Append(bytes);
      ok := true;
    }

    method WriteUint(value: nat) returns (ok: bool)
      requires Valid() && value < U64
      modifies this, out, out.data
      ensures Wrote([EncodeUint(value)], ok)
    {
      if value <= SMALL_UINT_MAX {
        ok := Write([value]);
      } else {
        ok := WriteIntegerPayload(false, value);
      }
    }

    method WriteInt(value: int) returns (ok: bool)
      requires Valid() && -I64_LIMIT <= value < I64_LIMIT
      modifies this, out, out.data
      ensures Wrote([EncodeInt(value)], ok)
    {
      if value >= 0 {
        ok := WriteUint(value);
        return;
      }
      var magnitude := -(value + 1) + 1;
      if magnitude <= 16 {
        ok := Write([SMALL_NEG_MIN + (magnitude - 1)]);
      } else {
        ok := WriteIntegerPayload(true, magnitude);
      }
    }

    method WriteIntegerPayload(negative: bool, magnitude: nat) returns (ok: bool)
      requires Valid() && magnitude < U64
      modifies this, out, out.data
      ensures ByteLen(magnitude) <= 8 && Wrote([IntPayload(negative, magnitude)], ok)
    {
      ByteLenBound(magnitude, 8); Pow256Eight();
      var count := CountBytes(magnitude);
      ok := WriteLittle(INT_PAYLOAD_MIN + (if negative then 8 else 0) + count - 1, magnitude, count);
    }

    method WriteLittle(header: byte, value: nat, count: nat) returns (ok: bool)
      requires Valid()
      modifies this, out, out.data
      ensures Wrote([[header] + ToLittle(value, count)], ok)
    {
      if out.Prepare(count + 1) != count + 1 {
        Fail();
        return false;
      }
      var payload: seq<byte>;
      if littleEndian {
        payload := ToLittle(value, count);   // memcpy
      } else {
        payload := ShiftStore(value, count);
      }
      out.Append([header] + payload);
      ok := true;
    }

    method WriteSize(base: byte, size: nat) returns (ok: bool)
      requires Valid() && IsSizeBase(base) && size < U64
      modifies this, out, out.data
      ensures Wrote(SizeChunks(base, size), ok)
    {
      hide EncodeUint;
      if size <= INLINE_MAX {
        ok := Write([base + size]);
        return;
      }
      EmitSplit(out.Contents(), out.data.Length, [[base + EXTENDED]], [EncodeUint(size)]);
      assert [[base + EXTENDED]] + [EncodeUint(size)] == SizeChunks(base, size);
      ok := Write([base + EXTENDED]);
      if ok { ok := WriteUint(size); }
    }

    method WriteBlob(base: byte, bytes: seq<byte>) returns (ok: bool)
      requires Valid() && IsSizeBase(base) && |bytes| < U64
      modifies this, out, out.data
      ensures Wrote(BlobChunks(base, bytes), ok)
    {
      hide SizeChunks;
      EmitSplit(out.Contents(), out.data.Length, SizeChunks(base, |bytes|), [bytes]);
      ok := WriteSize(base, |bytes|);
      if ok { ok := Write(bytes); }
    }

    method WriteLeaf(t: Leaf, v: Value) returns (ok: bool)
      requires Valid() && LeafHas(t, v) == true
      modifies this, out, out.data
      ensures Wrote(LeafChunks(t, v), ok)
    {
      hide BlobChunks, EncodeUint, EncodeInt;
      match t
      case BoolL => ok := Write([if v.on then TRUE_HEADER else FALSE_HEADER]);
      case UIntL(_) => ok := WriteUint(v.n);
      case IntL(_) => ok := WriteInt(v.n);
      case FloatL => ok := WriteLittle(FLOAT_HEADER, v.bits, 4);
      case DoubleL => ok := WriteLittle(DOUBLE_HEADER, v.bits, 8);
      case StringL => ok := WriteBlob(STRING_BASE, v.bytes);
      case BytesL(_) =>
        var count := CountTrimmed(v.bytes);
        ok := WriteBlob(BYTES_BASE, v.bytes[..count]);
      case BitsetL(_) =>
        var packed := Bitset.PackLoop(v.flags);
        ok := WriteBlob(BYTES_BASE, packed[..]);
    }

    method WriteValue(t: Type, v: Value) returns (ok: bool)
      requires Valid() && Typed(t, v) == true
      modifies this, out, out.data
      ensures Wrote(Chunks(t, v), ok)
      decreases t, 2
    {
      hide LeafChunks, SizeChunks, EncodeUint;
      if t.LeafT? {
        ok := WriteLeaf(t.leaf, v);
      } else if t.OptionalT? {
        if v.Nothing? { ok := Write([NULL_HEADER]); } else { ok := WriteValue(t.elem, v.payload); }
      } else if t.VariantT? {
        ok := WriteVariant(t, v);
      } else if t.MapT? {
        EmitSplit(out.Contents(), out.data.Length, SizeChunks(MAP_BASE, |v.entries|), EntryChunks(t, v.entries, 0));
        ok := WriteSize(MAP_BASE, |v.entries|);
        if ok { ok := WriteEntries(t, v.entries); }
      } else if t.ObjectT? {
        EmitSplit(out.Contents(), out.data.Length, SizeChunks(OBJECT_BASE, |t.fields|), FieldChunks(t, v.items, 0));
        ok := WriteSize(OBJECT_BASE, |t.fields|);
        if ok { ok := WriteFields(t, v.items); }
      } else {
        EmitSplit(out.Contents(), out.data.Length, SizeChunks(ARRAY_BASE, |v.items|), ElemChunks(t, v.items, 0));
        ok := WriteSize(ARRAY_BASE, |v.items|);
        if ok { ok := WriteElems(t, v.items); }
      }
    }

    method WriteVariant(t: Type, v: Value) returns (ok: bool)
      requires Valid() && t.VariantT? && Typed(t, v) == true
      modifies this, out, out.data
      ensures Wrote(Chunks(t, v), ok)
      decreases t, 0
    {
      hide SizeChunks, EncodeUint;
      var h, x, e := SizeChunks(ARRAY_BASE, 2), [EncodeUint(v.index)], Chunks(t.alts[v.index], v.payload);
      EmitSplit(out.Contents(), out.data.Length, h + x, e);
      EmitSplit(out.Contents(), out.data.Length, h, x);
      ok := WriteSize(ARRAY_BASE, 2);
      if !ok { return; }
      ok := WriteUint(v.index);
      if !ok { return; }
      ok := WriteValue(t.alts[v.index], v.payload);
    }

    method WriteElems(t: Type, vs: seq<Value>) returns (ok: bool)
      requires Valid() && IsSequence(t) && Typed(t, List(vs)) == true
      modifies this, out, out.data
      ensures Wrote(ElemChunks(t, vs, 0), ok)
      decreases t, 1
    {
      hide Chunks;
      ghost var r := Emit(out.Contents(), out.data.Length, ElemChunks(t, vs, 0));
      var i := 0;
      while i < |vs|
        invariant Valid() && error == old(error) && i <= |vs|
        invariant r == Emit(out.Contents(), out.data.Length, ElemChunks(t, vs, i))
      {
        EmitSplit(out.Contents(), out.data.Length, Chunks(ElemType(t, i), vs[i]), ElemChunks(t, vs, i + 1));
        ok := WriteValue(ElemType(t, i), vs[i]);
        if !ok { return; }
        i := i + 1;
      }
      ok := true;
    }

    method WriteEntries(t: Type, es: seq<Entry>) returns (ok: bool)
      requires Valid() && t.MapT? && Typed(t, Dict(es)) == true
      modifies this, out, out.data
      ensures Wrote(EntryChunks(t, es, 0), ok)
      decreases t, 1
    {
      hide Chunks;
      ghost var r := Emit(out.Contents(), out.data.Length, EntryChunks(t, es, 0));
      var i := 0;
      while i < |es|
        invariant Valid() && error == old(error) && i <= |es|
        invariant r == Emit(out.Contents(), out.data.Length, EntryChunks(t, es, i))
      {
        ghost var k, m := Chunks(t.key, es[i].key), Chunks(t.mapped, es[i].mapped);
        EmitSplit(out.Contents(), out.data.Length, k + m, EntryChunks(t, es, i + 1));
        EmitSplit(out.Contents(), out.data.Length, k, m);
        ok := WriteValue(t.key, es[i].key);
        if !ok { return; }
        ok := WriteValue(t.mapped, es[i].mapped);
        if !ok { return; }
        i := i + 1;
      }
      ok := true;
    }

    method WriteFields(t: Type, vs: seq<Value>) returns (ok: bool)
      requires Valid() && t.ObjectT? && Typed(t, Record(vs)) == true
      modifies this, out, out.data
      ensures Wrote(FieldChunks(t, vs, 0), ok)
      decreases t, 1
    {
      hide EncodeUint;
      ghost var r := Emit(out.Contents(), out.data.Length, FieldChunks(t, vs, 0));
      var i := 0;
      while i < |vs|
        invariant Valid() && error == old(error) && i <= |vs|
        invariant r == Emit(out.Contents(), out.data.Length, FieldChunks(t, vs, i))
      {
        ghost var k, m := [EncodeUint(t.fields[i].id)], Chunks(t.fields[i].ty, vs[i]);
        EmitSplit(out.Contents(), out.data.Length, k + m, FieldChunks(t, vs, i + 1));
        EmitSplit(out.Contents(), out.data.Length, k, m);
        ok := WriteUint(t.fields[i].id);
        if !ok { return; }
        ok := WriteValue(t.fields[i].ty, vs[i]);
        if !ok { return; }
        i := i + 1;
      }
      ok := true;
    }
  }
}
