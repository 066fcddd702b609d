// The protobuf writer over a bounded window or a byte counter, and exactly what it commits.
module ProtobufWriter {
  import opened Bytes
  import opened Schema
  import opened ProtobufWire
  import opened ProtobufCodec
  import opened ByteWindow
  import Bitset

  // ---- Sinks -------------------------------------------------------------------------------------

  /** The bytes committed to a window of `capacity` bytes, or the total of a counting output. */
  datatype Sink = Window(bytes: seq<byte>, capacity: nat) | Counter(total: nat)

  predicate Fits(s: Sink, e: seq<byte>) {
    s.Window? ==> |s.bytes| + |e| <= s.capacity
  }

  /** As many bytes of `e` as there is room for. */
  function Push(s: Sink, e: seq<byte>): (r: Sink)
    ensures r.Window? == s.Window?
    ensures s.Window? ==> r.capacity == s.capacity
  {
    match s
    case Counter(n) => Counter(n + |e|)
    case Window(b, c) => Window(if Fits(s, e) || |b| > c then b + e else b + e[..c - |b|], c)
  }

  /** Two writes in a row, the second attempted only if the first fits, are one write of both. */
  lemma PushSplit(s: Sink, a: seq<byte>, b: seq<byte>)
    requires s.Window? ==> |s.bytes| <= s.capacity
    ensures Fits(s, a + b) <==> Fits(s, a) && Fits(Push(s, a), b)
    ensures Push(s, a + b) == if Fits(s, a) then Push(Push(s, a), b) else Push(s, a)
  {
    match s
    case Counter(_) =>
    case Window(c, n) =>
      if Fits(s, a) {
        assert c + (a + b) == c + a + b;
        if !Fits(s, a + b) { assert (a + b)[..n - |c|] == a + b[..n - |c + a|]; }
      } else {
        assert (a + b)[..n - |c|] == a[..n - |c|];
      }
  }

  lemma PushNone(s: Sink)
    requires s.Window? ==> |s.bytes| <= s.capacity
    ensures Fits(s, []) && Push(s, []) == s
  {
    if s.Window? { assert s.bytes + [] == s.bytes; }
  }

  lemma PushRoom(s: Sink, e: seq<byte>)
    requires s.Window? && |s.bytes| + |e| <= s.capacity
    ensures Fits(s, e) && Push(s, e) == Window(s.bytes + e, s.capacity)
  {}

  lemma PushFull(s: Sink, e: seq<byte>)
    requires s.Window? && |s.bytes| == s.capacity && e != []
    ensures !Fits(s, e) && Push(s, e) == s
  {
    assert s.bytes + e[..0] == s.bytes;
  }

  /** Capacity theorem: a window ends up with the encoding when that fits and is otherwise filled to
      the last byte with a prefix of it; a counter always ends up with the encoding's length. */
  lemma Capacity(s: Sink, e: seq<byte>)
    requires s.Window? ==> |s.bytes| <= s.capacity
    ensures s.Window? && Fits(s, e) ==> Push(s, e).bytes == s.bytes + e
    ensures s.Window? && !Fits(s, e) ==>
              |Push(s, e).bytes| == s.capacity && s.bytes <= Push(s, e).bytes <= s.bytes + e
    ensures s.Counter? ==> Fits(s, e) && Push(s, e).total == s.total + |e|
  {
    if s.Window? && !Fits(s, e) {
      var k := s.capacity - |s.bytes|;
      assert s.bytes + e == s.bytes + e[..k] + e[k..];
    }
  }

  /** One step of the shift loop: a continuation byte and what is left. */
  lemma VarintStep(v: nat)
    requires v >= 128
    ensures BitOr(v % 128, 128) == v % 128 + 128
    ensures ToVarint(v) == [v % 128 + 128] + ToVarint(v / 128)
  {
    hide BitOr;
    Pow2Seven();
    OrDisjoint(v % 128, 1, 7);
  }

  lemma VarintLast(v: nat)
    requires v < 128
    ensures ToVarint(v) == [v]
  {}

  /** `field_number << 3 | type` */
  lemma KeyOr(id: nat, wire: nat)
    requires wire < 8
    ensures BitOr(8 * id, wire) == 8 * id + wire
  {
    hide BitOr;
    assert Pow2(3) == 8;
    OrDisjoint(wire, id, 3);
  }

  /** The shift loop: groups of seven bits stored from `start` on. */
  method StoreVarint(data: array<byte>, start: nat, value: nat) returns (count: nat)
    requires value < U64 && start + 10 <= data.Length
    modifies data
    ensures count == |ToVarint(value)| <= 10
    ensures data[..start + count] == old(data[..start]) + ToVarint(value)
  {
    hide BitOr, ToVarint;
    VarintBound(value);
    count := 0;
    var v := value;
    ghost var done: seq<byte> := [];
    while v >= 128
      invariant |done| == count && count + |ToVarint(v)| == |ToVarint(value)| <= 10
      invariant data[..start + count] == old(data[..start]) + done
      invariant ToVarint(value) == done + ToVarint(v)
      decreases v
    {
      VarintStep(v);
      data[start + count] := BitOr(v % 128, 128);
      done := done + [v % 128 + 128];
      count := count + 1;
      v := v / 128;
    }
    VarintLast(v);
    data[start + count] := v;
    count := count + 1;
    assert data[..start + count] == old(data[..start]) + (done + [v]);
  }

  datatype WriteError = OutputError(offset: nat)

  class Writer {
    const out: WindowOutput?            // null: the writer counts
    var counted: nat
    var error: Option<WriteError>

    ghost predicate Valid()
      reads this, out
    {
      out != null ==> out.Valid()
    }

    ghost function Sunk(): (s: Sink)
      requires Valid()
      reads this, out, if out == null then null else out.data
      ensures s.Window? ==> |s.bytes| <= s.capacity
    {
      if out == null then Counter(counted) else Window(out.Contents(), out.data.Length)
    }

    ghost function Frame(): set<object>
      reads this
    {
      if out == null then {this} else {this, out, out.data}
    }

    constructor ToWindow(out: WindowOutput)
      requires out.Valid()
      ensures Valid() && this.out == out && error.None?
    {
      this.out := out;
      counted := 0;
      error := None;
    }

    constructor Counting()
      ensures Valid() && out == null && error.None? && Sunk() == Counter(0)
    {
      out := null;
      counted := 0;
      error := None;
    }

    /** `e` was written, as far as it fits, and nothing else. */
    twostate predicate Wrote(e: seq<byte>, ok: bool)
      requires old(Valid())
      reads this, out, if out == null then null else out.data
    {
      Valid() && ok == Fits(old(Sunk()), e) && Sunk() == Push(old(Sunk()), e) &&
      (ok ==> error == old(error)) && (!ok ==> error.Some?)
    }

    // ---- Bytes and varints ------------------------------------------------------------------------

    method WriteBytes(s: seq<byte>) returns (ok: bool)
      requires Valid()
      modifies Frame()
      ensures Wrote(s, ok)
    {
      hide Push, Fits;
      PushNone(Sunk());
      if s == [] {
        return true;
      }
      Capacity(Sunk(), s);
      if out == null {
        counted := counted + |s|;
        return true;
      }
      ghost var sink := Sunk();
      var written := 0;
      assert s[0..] == s;
      while written != |s|
        invariant Valid() && error == old(error) && written <= |s|
        invariant Push(Sunk(), s[written..]) == Push(sink, s) && Fits(Sunk(), s[written..]) == Fits(sink, s)
        decreases |s| - written
      {
        var size := out.Prepare(|s| - written);
        ghost var chunk, rest := s[written..written + size], s[written + size..];
        if size == 0 {
          PushFull(Sunk(), s[written..]);
          error := Some(if error.Some? then error.value else OutputError(out.current));
          return false;
        }
        assert s[written..] == chunk + rest;
        PushSplit(Sunk(), chunk, rest);
        PushRoom(Sunk(), chunk);
        out.Append(s[written..written + size]);
        written := written + size;
      }
      assert s[written..] == [];
      PushNone(Sunk());
      ok := true;
    }

    method WriteVarint(value: nat) returns (ok: bool)
      requires Valid() && value < U64
      modifies Frame()
      ensures Wrote(ToVarint(value), ok)
    {
      hide ToVarint, VarintByteCount;
      if out == null {
        ByteCountExact(value);
        counted := counted + VarintByteCount(value);
        return true;
      }
      if out.Prepare(10) >= 10 {
        WriteVarintInPlace(value);
        return true;
      }
      ok := WriteVarintFallback(value);
    }

    /** The fast path: straight into a window that has room for any 64-bit varint. */
    method WriteVarintInPlace(value: nat)
      requires Valid() && value < U64 && out != null && out.Room() >= 10
      modifies Frame()
      ensures Wrote(ToVarint(value), true)
    {
      hide ToVarint, Push, Fits;
      VarintBound(value);
      PushRoom(Sunk(), ToVarint(value));
      var count := StoreVarint(out.data, out.current, value);
      out.Commit(count);
    }

    method WriteVarintFallback(value: nat) returns (ok: bool)
      requires Valid() && value < U64
      modifies Frame()
      ensures Wrote(ToVarint(value), ok)
    {
      hide ToVarint, Push, Fits;
      var bytes := new byte[10];
      var count := StoreVarint(bytes, 0, value);
      assert bytes[..count] == ToVarint(value);
      ok := WriteBytes(bytes[..count]);
    }

    method WriteTag(id: nat, wire: nat) returns (ok: bool)
      requires Valid() && id < 0x1_0000_0000 && wire < 8
      modifies Frame()
      ensures Wrote(Tag(id, wire), ok)
    {
      hide BitOr, ToVarint, Push, Fits;
      KeyOr(id, wire);
      ok := WriteVarint(BitOr(8 * id, wire));
    }

    method WriteFixed(bits: nat, n: nat) returns (ok: bool)
      requires Valid()
      modifies Frame()
      ensures Wrote(ToLittle(bits, n), ok)
    {
      var bytes := ShiftStore(bits, n);
      ok := WriteBytes(bytes);
    }

    // ---- Values -----------------------------------------------------------------------------------

    method WritePrefixed(s: seq<byte>) returns (ok: bool)
      requires Valid() && |s| < U64
      modifies Frame()
      ensures Wrote(Prefixed(s), ok)
    {
      hide Push, Fits, ToVarint;
      PushSplit(Sunk(), ToVarint(|s|), s);
      ok := WriteVarint(|s|);
      if !ok { return; }
      ok := WriteBytes(s);
    }

    method WriteLeaf(t: Leaf, v: Value) returns (ok: bool)
      requires Valid() && LeafHas(t, v) == true
      modifies Frame()
      ensures Wrote(EncodeLeaf(t, v), ok)
    {
      hide Push, Fits, ToVarint, Prefixed, ToLittle, Bitset.Pack, TrimZeros;
      match t
      case BoolL => ok := WriteVarint(if v.on then 1 else 0);
      case UIntL(_) => ok := WriteVarint(v.n);
      case IntL(_) => ok := WriteVarint(AsU64(v.n));
      case FloatL => ok := WriteFixed(v.bits, 4);
      case DoubleL => ok := WriteFixed(v.bits, 8);
      case StringL => ok := WritePrefixed(v.bytes);
      case BytesL(_) => ok := WritePrefixed(TrimZeros(v.bytes));
      case BitsetL(_) =>
        var bytes := Bitset.PackLoop(v.flags);
        ok := WritePrefixed(bytes[..]);
    }

    /** `codec<T>::write(out, field, value)` */
    method WriteField(id: nat, t: Type, v: Value) returns (ok: bool)
      requires Valid() && 0 < id < 0x1_0000_0000 && Message(t, v) == true && |EncodeField(id, t, v)| < U64
      modifies Frame()
      ensures Wrote(EncodeField(id, t, v), ok)
      decreases t, 3
    {
      hide Push, Fits, Tag, Prefixed, EncodeLeaf, EncodeBody, EncodeEntries, LeafHas;
      PushNone(Sunk());
      if t.OptionalT? {
        if v.Nothing? { return true; }
        ok := WriteField(id, t.elem, v.payload);
      } else if t.MapT? {
        ok := WriteEntries(id, t, v.entries);
      } else if t.LeafT? {
        LeafWireBound(t.leaf);
        PushSplit(Sunk(), Tag(id, LeafWire(t.leaf)), EncodeLeaf(t.leaf, v));
        ok := WriteTag(id, LeafWire(t.leaf));
        if !ok { return; }
        ok := WriteLeaf(t.leaf, v);
      } else {
        PrefixedSize(EncodeBody(t, v));
        ok := WriteDelimited(id, t, v);
      }
    }

    /** Key, measured length and payload. */
    method WriteDelimited(id: nat, t: Type, v: Value) returns (ok: bool)
      requires Valid() && 0 < id < 0x1_0000_0000 && Message(t, v) == true
      requires (t.ArrayT? || t.TupleT? || t.ObjectT?) && |EncodeBody(t, v)| < U64
      modifies Frame()
      ensures Wrote(Tag(id, LENGTH_DELIMITED) + Prefixed(EncodeBody(t, v)), ok)
      decreases t, 2
    {
      hide Push, Fits, Tag, ToVarint, EncodeBody;
      var size := MeasureBody(t, v);
      PushSplit(Sunk(), Tag(id, LENGTH_DELIMITED), Prefixed(EncodeBody(t, v)));
      ok := WriteTag(id, LENGTH_DELIMITED);
      if !ok { return; }
      PushSplit(Sunk(), ToVarint(size), EncodeBody(t, v));
      ok := WriteVarint(size);
      if !ok { return; }
      ok := WriteBody(t, v);
    }

    /** `measure_encoded_size`: the same codecs against a counting output. The size is exact. */
    method MeasureBody(t: Type, v: Value) returns (size: nat)
      requires Message(t, v) == true && (t.ArrayT? || t.TupleT? || t.ObjectT?) && |EncodeBody(t, v)| < U64
      ensures size == |EncodeBody(t, v)|
      decreases t, 1
    {
      hide EncodeBody;
      var sizing := new Writer.Counting();
      Capacity(sizing.Sunk(), EncodeBody(t, v));
      var ok := sizing.WriteBody(t, v);
      size := sizing.counted;
    }

    method WriteBody(t: Type, v: Value) returns (ok: bool)
      requires Valid() && Message(t, v) == true && (t.ArrayT? || t.TupleT? || t.ObjectT?) && |EncodeBody(t, v)| < U64
      modifies Frame()
      ensures Wrote(EncodeBody(t, v), ok)
      decreases t, 0, U64
    {
      hide EncodePacked, EncodeElems, EncodeFields, Push, Fits;
      if t.ArrayT? {
        ok := WritePacked(t, v.items);
      } else if t.TupleT? {
        ok := WriteElems(t, v.items, 0);
      } else {
        ok := WriteFields(t, v.items, 0);
      }
    }

    method WritePacked(t: Type, vs: seq<Value>) returns (ok: bool)
      requires Valid() && t.ArrayT? && Message(t, List(vs)) == true
      modifies Frame()
      ensures Wrote(EncodePacked(t, vs, 0), ok)
      decreases t, 0
    {
      hide Push, Fits, EncodeLeaf, LeafHas;
      ghost var sink := Sunk();
      ghost var e := EncodePacked(t, vs, 0);
      var i := 0;
      while i < |vs|
        invariant Valid() && error == old(error) && i <= |vs|
        invariant Push(Sunk(), EncodePacked(t, vs, i)) == Push(sink, e)
        invariant Fits(Sunk(), EncodePacked(t, vs, i)) == Fits(sink, e)
      {
        assert HasType(ElemType(t, i), vs[i]);
        PushSplit(Sunk(), EncodeLeaf(t.elem.leaf, vs[i]), EncodePacked(t, vs, i + 1));
        ok := WriteLeaf(t.elem.leaf, vs[i]);
        if !ok { return; }
        i := i + 1;
      }
      PushNone(Sunk());
      ok := true;
    }

    method WriteElems(t: Type, vs: seq<Value>, i: nat) returns (ok: bool)
      requires Valid() && t.TupleT? && i <= |vs| && Message(t, List(vs)) == true && |EncodeElems(t, vs, i)| < U64
      modifies Frame()
      ensures Wrote(EncodeElems(t, vs, i), ok)
      decreases t, 0, |vs| - i
    {
      hide Push, Fits, EncodeField;
      PushNone(Sunk());
      if i == |vs| {
        return true;
      }
      assert HasType(ElemType(t, i), vs[i]);
      PushSplit(Sunk(), EncodeField(i + 1, t.elems[i], vs[i]), EncodeElems(t, vs, i + 1));
      ok := WriteField(i + 1, t.elems[i], vs[i]);
      if !ok { return; }
      ok := WriteElems(t, vs, i + 1);
    }

    method WriteFields(t: Type, vs: seq<Value>, i: nat) returns (ok: bool)
      requires Valid() && t.ObjectT? && i <= |vs| && Message(t, Record(vs)) == true && |EncodeFields(t, vs, i)| < U64
      modifies Frame()
      ensures Wrote(EncodeFields(t, vs, i), ok)
      decreases t, 0, |vs| - i
    {
      hide Push, Fits, EncodeField;
      PushNone(Sunk());
      if i == |vs| {
        return true;
      }
      PushSplit(Sunk(), EncodeField(t.fields[i].id, t.fields[i].ty, vs[i]), EncodeFields(t, vs, i + 1));
      ok := WriteField(t.fields[i].id, t.fields[i].ty, vs[i]);
      if !ok { return; }
      ok := WriteFields(t, vs, i + 1);
    }

    /** Each entry is written twice: into a counter for its length, then for real. */
    method WriteEntries(id: nat, t: Type, es: seq<Entry>) returns (ok: bool)
      requires Valid() && 0 < id < 0x1_0000_0000 && t.MapT? && Message(t, Dict(es)) == true
      requires |EncodeEntries(id, t, es, 0)| < U64
      modifies Frame()
      ensures Wrote(EncodeEntries(id, t, es, 0), ok)
      decreases t, 2
    {
      hide Push, Fits, Tag, ToVarint, EncodeEntry;
      ghost var sink := Sunk();
      ghost var e := EncodeEntries(id, t, es, 0);
      var i := 0;
      while i < |es|
        invariant Valid() && error == old(error) && i <= |es| && |EncodeEntries(id, t, es, i)| <= |e|
        invariant Push(Sunk(), EncodeEntries(id, t, es, i)) == Push(sink, e)
        invariant Fits(Sunk(), EncodeEntries(id, t, es, i)) == Fits(sink, e)
      {
        ghost var k, p := Tag(id, LENGTH_DELIMITED), EncodeEntry(t, es, i);
        ghost var rest := EncodeEntries(id, t, es, i + 1);
        PushSplit(Sunk(), k + Prefixed(p), rest);
        PushSplit(Sunk(), k, Prefixed(p));
        var size := MeasureEntry(t, es, i);
        ok := WriteTag(id, LENGTH_DELIMITED);
        if !ok { return; }
        PushSplit(Sunk(), ToVarint(size), p);
        ok := WriteVarint(size);
        if !ok { return; }
        ok := WriteEntry(t, es, i);
        if !ok { return; }
        i := i + 1;
      }
      PushNone(Sunk());
      ok := true;
    }

    method MeasureEntry(t: Type, es: seq<Entry>, i: nat) returns (size: nat)
      requires t.MapT? && i < |es| && Message(t, Dict(es)) == true && |EncodeEntry(t, es, i)| < U64
      ensures size == |EncodeEntry(t, es, i)|
      decreases t, 1
    {
      hide EncodeEntry;
      var sizing := new Writer.Counting();
      Capacity(sizing.Sunk(), EncodeEntry(t, es, i));
      var ok := sizing.WriteEntry(t, es, i);
      size := sizing.counted;
    }

    method WriteEntry(t: Type, es: seq<Entry>, i: nat) returns (ok: bool)
      requires Valid() && t.MapT? && i < |es| && Message(t, Dict(es)) == true && |EncodeEntry(t, es, i)| < U64
      modifies Frame()
      ensures Wrote(EncodeEntry(t, es, i), ok)
      decreases t, 0
    {
      hide Push, Fits, EncodeField;
      PushSplit(Sunk(), EncodeField(1, t.key, es[i].key), EncodeField(2, t.mapped, es[i].mapped));
      ok := WriteField(1, t.key, es[i].key);
      if !ok { return; }
      ok := WriteField(2, t.mapped, es[i].mapped);
    }
  }

  lemma LeafWireBound(t: Leaf)
    ensures LeafWire(t) < 8
  {}

  lemma PrefixedSize(s: seq<byte>)
    ensures |s| <= |Prefixed(s)|
  {}
}
