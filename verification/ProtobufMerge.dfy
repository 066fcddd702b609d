// What the protobuf reader does to concatenated input, and where in the root buffer its errors lie.
module ProtobufMerge {
  import opened Bytes
  import opened Schema
  import opened ProtobufWire
  import opened ProtobufCodec
  import Bitset

  // ---- Concatenation is merge --------------------------------------------------------------------

  lemma LeafExtends(t: Leaf, s: seq<byte>, more: seq<byte>, base: nat, o: Value)
    requires ReadLeaf(t, s, base, o).Done?
    ensures ReadLeaf(t, s + more, base, o) == ReadLeaf(t, s, base, o)
  {
    hide ReadNumber, ReadFixed, ReadString, ReadBytes, ReadBitset;
    match t
    case BoolL => NumberExtends(t, s, more, base, o);
    case UIntL(_) => NumberExtends(t, s, more, base, o);
    case IntL(_) => NumberExtends(t, s, more, base, o);
    case FloatL => FixedExtends(4, s, more, base, o);
    case DoubleL => FixedExtends(8, s, more, base, o);
    case StringL => StringExtends(s, more, base, o);
    case BytesL(n) => BytesExtend(n, s, more, base, o);
    case BitsetL(n) => BitsetExtends(n, s, more, base);
  }

  lemma NumberExtends(t: Leaf, s: seq<byte>, more: seq<byte>, base: nat, o: Value)
    requires (t.BoolL? || t.UIntL? || t.IntL?) && ReadNumber(t, s, base, o).Done?
    ensures ReadNumber(t, s + more, base, o) == ReadNumber(t, s, base, o)
  {
    hide ReadVarint, LeafNumber;
    VarintExtends(s, more);
  }

  lemma FixedExtends(n: nat, s: seq<byte>, more: seq<byte>, base: nat, o: Value)
    requires n > 0 && ReadFixed(n, s, base, o).Done?
    ensures ReadFixed(n, s + more, base, o) == ReadFixed(n, s, base, o)
  {
    hide FromLittle;
    assert (s + more)[..n] == s[..n];
  }

  lemma StringExtends(s: seq<byte>, more: seq<byte>, base: nat, o: Value)
    requires ReadString(s, base, o).Done?
    ensures ReadString(s + more, base, o) == ReadString(s, base, o)
  {
    hide ReadSpan;
    SpanExtends(s, more);
    var n := ReadSpan(s);
    assert (s + more)[n.head..n.head + n.size] == s[n.head..n.head + n.size];
  }

  lemma BytesExtend(size: nat, s: seq<byte>, more: seq<byte>, base: nat, o: Value)
    requires ReadBytes(size, s, base, o).Done?
    ensures ReadBytes(size, s + more, base, o) == ReadBytes(size, s, base, o)
  {
    hide ReadVarint, Fill;
    BlobExtends(s, more);
  }

  lemma BitsetExtends(size: nat, s: seq<byte>, more: seq<byte>, base: nat)
    requires ReadBitset(size, s, base).Done?
    ensures ReadBitset(size, s + more, base) == ReadBitset(size, s, base)
  {
    hide ReadVarint, Bitset.Unpack;
    BlobExtends(s, more);
  }

  lemma BlobExtends(s: seq<byte>, more: seq<byte>)
    requires ReadVarint(s).Got?
    ensures var r := ReadVarint(s);
            ReadVarint(s + more) == r &&
            (r.val <= |s| - r.used ==>
               (s + more)[r.used..r.used + r.val] == s[r.used..r.used + r.val])
  {
    hide ReadVarint;
    VarintExtends(s, more);
  }

  /** A record that was read completely reads the same in front of more input. */
  lemma {:induction false} FieldExtends(t: Type, wire: nat, s: seq<byte>, more: seq<byte>, base: nat, o: Value)
    requires Supported(t) == true && ReadField(t, wire, s, base, o).Done?
    ensures ReadField(t, wire, s + more, base, o) == ReadField(t, wire, s, base, o)
    decreases t
  {
    hide ReadField, ReadLeaf, ReadSpan, ReadBody, Default, WireOf;
    if t.OptionalT? {
      OptionalStep(t, wire, s, base, o);
      OptionalStep(t, wire, s + more, base, o);
      FieldExtends(t.elem, wire, s, more, base, Default(t.elem));
    } else {
      FieldStep(t, wire, s, base, o);
      FieldStep(t, wire, s + more, base, o);
      if t.LeafT? {
        LeafExtends(t.leaf, s, more, base, o);
      } else {
        SpanExtends(s, more);
        var n := ReadSpan(s);
        assert (s + more)[n.head..n.head + n.size] == s[n.head..n.head + n.size];
      }
    }
  }

  lemma RecordExtends(t: Type, s: seq<byte>, more: seq<byte>, base: nat, o: Value)
    requires Supported(t) == true && t.ObjectT? && s != [] && ReadRecord(t, s, base, o).Done?
    ensures ReadRecord(t, s + more, base, o) == ReadRecord(t, s, base, o)
  {
    hide ReadVarint, ReadField, SetSlot, Slot, FieldNumber, WireType;
    VarintExtends(s, more);
    var u := ReadVarint(s).used;
    var i := FieldIndex(t.fields, FieldNumber(ReadVarint(s).val), 0);
    assert (s + more)[u..] == s[u..] + more;
    FieldExtends(t.fields[i].ty, WireType(ReadVarint(s).val), s[u..], more, base + u, Slot(o, i));
  }

  /** Decoding `a` followed by `b` into an object is decoding `b` into what `a` made of it: the same
      status, object and error, whatever `b` is. */
  lemma {:induction false} ConcatenationMerges(t: Type, a: seq<byte>, b: seq<byte>, base: nat, o: Value)
    requires Supported(t) == true && t.ObjectT? && ReadMessage(t, a, base, o).Done?
    ensures ReadMessage(t, a + b, base, o) ==
            Advance(ReadMessage(t, b, base + |a|, ReadMessage(t, a, base, o).val), |a|)
    decreases |a|
  {
    hide ReadRecord, ReadMessage;
    if a == [] {
      MessageEnd(t, base, o);
      assert a + b == b;
    } else {
      MessageStep(t, a, base, o);
      MessageStep(t, a + b, base, o);
      var r := ReadRecord(t, a, base, o);
      RecordExtends(t, a, b, base, o);
      assert (a + b)[r.used..] == a[r.used..] + b;
      ConcatenationMerges(t, a[r.used..], b, base + r.used, r.val);
      assert base + r.used + |a[r.used..]| == base + |a|;
    }
  }

  // ---- Offsets -----------------------------------------------------------------------------------

  function Shift(r: Res, d: nat): Res {
    if r.Fail? then r.(at := r.at + d) else r
  }

  function ShiftEntry(r: EntryRes, d: nat): EntryRes {
    if r.Bad? then r.(at := r.at + d) else r
  }

  lemma LeafShift(t: Leaf, s: seq<byte>, base: nat, d: nat, o: Value)
    ensures ReadLeaf(t, s, base + d, o) == Shift(ReadLeaf(t, s, base, o), d)
  {
    hide ReadNumber, ReadFixed, ReadString, ReadBytes, ReadBitset;
    match t
    case BoolL => PrimitiveShift(t, 1, s, base, d, o);
    case UIntL(_) => PrimitiveShift(t, 1, s, base, d, o);
    case IntL(_) => PrimitiveShift(t, 1, s, base, d, o);
    case FloatL => PrimitiveShift(BoolL, 4, s, base, d, o);
    case DoubleL => PrimitiveShift(BoolL, 8, s, base, d, o);
    case StringL => BlobShift(0, s, base, d, o);
    case BytesL(n) => BlobShift(n, s, base, d, o);
    case BitsetL(n) => BlobShift(n, s, base, d, o);
  }

  lemma PrimitiveShift(t: Leaf, n: nat, s: seq<byte>, base: nat, d: nat, o: Value)
    requires (t.BoolL? || t.UIntL? || t.IntL?) && n > 0
    ensures ReadNumber(t, s, base + d, o) == Shift(ReadNumber(t, s, base, o), d)
    ensures ReadFixed(n, s, base + d, o) == Shift(ReadFixed(n, s, base, o), d)
  {
    hide ReadVarint, LeafNumber, FromLittle;
  }

  lemma BlobShift(size: nat, s: seq<byte>, base: nat, d: nat, o: Value)
    ensures ReadString(s, base + d, o) == Shift(ReadString(s, base, o), d)
    ensures ReadBytes(size, s, base + d, o) == Shift(ReadBytes(size, s, base, o), d)
    ensures ReadBitset(size, s, base + d) == Shift(ReadBitset(size, s, base), d)
  {
    hide ReadVarint, ReadSpan, Fill, LeafDefault, Bitset.Unpack;
  }

  /** A reader over a nested window counts offsets from the start of its own window. Adding where that
      window starts in the parent, at every level, turns them into offsets in the root buffer. */
  lemma {:induction false} FieldShift(t: Type, wire: nat, s: seq<byte>, base: nat, d: nat, o: Value)
    requires Supported(t) == true
    ensures ReadField(t, wire, s, base + d, o) == Shift(ReadField(t, wire, s, base, o), d)
    decreases |s|, t
  {
    hide ReadField, ReadLeaf, ReadSpan, ReadBody, Default, WireOf;
    if t.OptionalT? {
      OptionalStep(t, wire, s, base, o);
      OptionalStep(t, wire, s, base + d, o);
      FieldShift(t.elem, wire, s, base, d, Default(t.elem));
    } else {
      FieldStep(t, wire, s, base, o);
      FieldStep(t, wire, s, base + d, o);
      if t.LeafT? {
        LeafShift(t.leaf, s, base, d, o);
      } else if ReadSpan(s).Span? {
        var n := ReadSpan(s);
        assert base + d + n.head == base + n.head + d;
        BodyShift(t, s[n.head..n.head + n.size], base + n.head, d, o);
      }
    }
  }

  lemma {:induction false} BodyShift(t: Type, s: seq<byte>, base: nat, d: nat, o: Value)
    requires Supported(t) == true && !t.LeafT? && !t.OptionalT?
    ensures ReadBody(t, s, base + d, o) == Shift(ReadBody(t, s, base, o), d)
    decreases |s|, t, 2
  {
    hide ReadPacked, ReadTuple, ReadEntry, ReadMessage;
    if t.ArrayT? { PackedShift(t, 0, s, base, d, o); }
    else if t.TupleT? { TupleShift(t, {}, s, base, d, o); }
    else if t.MapT? { EntryShift(t, Default(t.key), Default(t.mapped), s, base, d); }
    else { MessageShift(t, s, base, d, o); }
  }

  lemma {:induction false} MessageShift(t: Type, s: seq<byte>, base: nat, d: nat, o: Value)
    requires Supported(t) == true && t.ObjectT?
    ensures ReadMessage(t, s, base + d, o) == Shift(ReadMessage(t, s, base, o), d)
    decreases |s|, t, 1
  {
    hide ReadRecord, ReadMessage;
    if s == [] {
      MessageEnd(t, base, o);
      MessageEnd(t, base + d, o);
    } else {
      MessageStep(t, s, base, o);
      MessageStep(t, s, base + d, o);
      RecordShift(t, s, base, d, o);
      var r := ReadRecord(t, s, base, o);
      if r.Done? {
        assert base + d + r.used == base + r.used + d;
        MessageShift(t, s[r.used..], base + r.used, d, r.val);
      }
    }
  }

  lemma {:induction false} RecordShift(t: Type, s: seq<byte>, base: nat, d: nat, o: Value)
    requires Supported(t) == true && t.ObjectT? && s != []
    ensures ReadRecord(t, s, base + d, o) == Shift(ReadRecord(t, s, base, o), d)
    decreases |s|, t, 0
  {
    hide ReadVarint, ReadField, ReadRecord, Slot, SetSlot, FieldNumber, WireType;
    if ReadVarint(s).Bad? {
      RecordEnd(t, s, base, o);
      RecordEnd(t, s, base + d, o);
    } else {
      RecordStep(t, s, base, o);
      RecordStep(t, s, base + d, o);
      var key, u := ReadVarint(s).val, ReadVarint(s).used;
      var i := FieldIndex(t.fields, FieldNumber(key), 0);
      assert base + d + u == base + u + d;
      if i < |t.fields| { FieldShift(t.fields[i].ty, WireType(key), s[u..], base + u, d, Slot(o, i)); }
    }
  }

  lemma {:induction false} TupleShift(t: Type, seen: set<nat>, s: seq<byte>, base: nat, d: nat, o: Value)
    requires Supported(t) == true && t.TupleT?
    ensures ReadTuple(t, seen, s, base + d, o) == Shift(ReadTuple(t, seen, s, base, o), d)
    decreases |s|, t, 1
  {
    hide ReadVarint, ReadField, ReadTuple, Slot, SetSlot, FieldNumber, WireType;
    if s == [] || ReadVarint(s).Bad? {
      TupleEnd(t, seen, s, base, o);
      TupleEnd(t, seen, s, base + d, o);
    } else {
      TupleStep(t, seen, s, base, o);
      TupleStep(t, seen, s, base + d, o);
      var key, u := ReadVarint(s).val, ReadVarint(s).used;
      var i := FieldNumber(key) - 1;
      if 0 <= i < |t.elems| && i !in seen {
        assert base + d + u == base + u + d;
        FieldShift(t.elems[i], WireType(key), s[u..], base + u, d, Slot(o, i));
        var r := ReadField(t.elems[i], WireType(key), s[u..], base + u, Slot(o, i));
        if r.Done? {
          var n := u + r.used;
          assert base + d + n == base + n + d;
          TupleShift(t, seen + {i}, s[n..], base + n, d, SetSlot(o, i, r.val));
        }
      }
    }
  }

  lemma {:induction false} PackedShift(t: Type, i: nat, s: seq<byte>, base: nat, d: nat, o: Value)
    requires Supported(t) == true && t.ArrayT?
    ensures ReadPacked(t, i, s, base + d, o) == Shift(ReadPacked(t, i, s, base, o), d)
    decreases |s|, t, 1
  {
    hide ReadLeaf, ReadPacked, Slot, SetSlot;
    PackedStep(t, i, s, base, o);
    PackedStep(t, i, s, base + d, o);
    if s != [] && i < t.count {
      LeafShift(t.elem.leaf, s, base, d, Slot(o, i));
      var r := ReadLeaf(t.elem.leaf, s, base, Slot(o, i));
      if r.Done? {
        assert base + d + r.used == base + r.used + d;
        PackedShift(t, i + 1, s[r.used..], base + r.used, d, SetSlot(o, i, r.val));
      }
    }
  }

  lemma {:induction false} EntryShift(t: Type, key: Value, mapped: Value, s: seq<byte>, base: nat, d: nat)
    requires Supported(t) == true && t.MapT?
    ensures ReadEntry(t, key, mapped, s, base + d) == ShiftEntry(ReadEntry(t, key, mapped, s, base), d)
    decreases |s|, t, 1
  {
    hide ReadVarint, ReadEntry, FieldNumber;
    if s == [] || ReadVarint(s).Bad? {
      EntryEnd(t, key, mapped, s, base);
      EntryEnd(t, key, mapped, s, base + d);
    } else if !(1 <= FieldNumber(ReadVarint(s).val) <= 2) {
      EntryRefused(t, key, mapped, s, base);
      EntryRefused(t, key, mapped, s, base + d);
    } else {
      HalfShift(t, key, mapped, s, base, d);
    }
  }

  lemma {:induction false} HalfShift(t: Type, key: Value, mapped: Value, s: seq<byte>, base: nat, d: nat)
    requires Supported(t) == true && t.MapT? && s != [] && ReadVarint(s).Got?
    requires 1 <= FieldNumber(ReadVarint(s).val) <= 2
    ensures ReadEntry(t, key, mapped, s, base + d) == ShiftEntry(ReadEntry(t, key, mapped, s, base), d)
    decreases |s|, t, 0
  {
    hide ReadVarint, ReadField, ReadEntry, FieldNumber, WireType, Half, Supported;
    EntryStep(t, key, mapped, s, base);
    EntryStep(t, key, mapped, s, base + d);
    var k, u := ReadVarint(s).val, ReadVarint(s).used;
    var n := FieldNumber(k);
    var half := if n == 1 then key else mapped;
    assert base + d + u == base + u + d;
    FieldShift(Half(t, n), WireType(k), s[u..], base + u, d, half);
    var r := ReadField(Half(t, n), WireType(k), s[u..], base + u, half);
    if r.Done? {
      assert base + d + u + r.used == base + u + r.used + d;
      EntryShift(t, if n == 1 then r.val else key, if n == 1 then mapped else r.val,
                 s[u + r.used..], base + u + r.used, d);
    }
  }
}
