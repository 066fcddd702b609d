// The protobuf codecs: the records a value is written as, and what reading any input does to a target.
module ProtobufCodec {
  import opened Bytes
  import opened Schema
  import opened ProtobufWire
  import Bitset

  // ---- Supported types -------------------------------------------------------------------------

  /** 8-bit integers have no codec of their own. */
  predicate LeafSupported(t: Leaf) {
    (t.UIntL? || t.IntL?) ==> t.width != W8
  }

  /** The element types of a packed array. */
  predicate IsScalar(t: Type) {
    t.LeafT? && LeafSupported(t.leaf) &&
    (t.leaf.BoolL? || t.leaf.UIntL? || t.leaf.IntL? || t.leaf.FloatL? || t.leaf.DoubleL?)
  }

  predicate Supported(t: Type)
    decreases t
  {
    if t.LeafT? then LeafSupported(t.leaf)
    else if t.ArrayT? then IsScalar(t.elem)
    else if t.TupleT? then |t.elems| < 0x1_0000_0000 && forall i :: 0 <= i < |t.elems| ==> Supported(t.elems[i])
    else if t.OptionalT? then Supported(t.elem)
    else if t.MapT? then Supported(t.key) && Supported(t.mapped)
    else if t.ObjectT? then
      forall i :: 0 <= i < |t.fields| ==> Supported(t.fields[i].ty) && HasType(t.fields[i].ty, t.fields[i].initial)
    else false
  }

  predicate Message(t: Type, v: Value) { Supported(t) && Typed(t, v) }

  // ---- Writing -----------------------------------------------------------------------------------

  function LeafWire(t: Leaf): nat {
    match t
    case BoolL => VARINT
    case UIntL(_) => VARINT
    case IntL(_) => VARINT
    case FloatL => FIXED32
    case DoubleL => FIXED64
    case _ => LENGTH_DELIMITED
  }

  function WireOf(t: Type): nat
    decreases t
  {
    if t.LeafT? then LeafWire(t.leaf)
    else if t.OptionalT? then WireOf(t.elem)
    else LENGTH_DELIMITED
  }

  /** Conversion to `uint64_t`: negative integers are sign-extended to 64 bits. */
  function AsU64(n: int): (u: nat)
    requires -I64_LIMIT <= n < U64
    ensures u < U64
  {
    if n < 0 then n + U64 else n
  }

  function EncodeLeaf(t: Leaf, v: Value): seq<byte>
    requires LeafHas(t, v) == true
  {
    match t
    case BoolL => ToVarint(if v.on then 1 else 0)
    case UIntL(_) => ToVarint(v.n)
    case IntL(_) => ToVarint(AsU64(v.n))
    case FloatL => ToLittle(v.bits, 4)
    case DoubleL => ToLittle(v.bits, 8)
    case StringL => Prefixed(v.bytes)
    case BytesL(_) => Prefixed(TrimZeros(v.bytes))
    case BitsetL(_) => Prefixed(Bitset.Pack(v.flags))
  }

  /** `codec<T>::write(out, field, value)`: the records of a value under a field number. */
  function EncodeField(id: nat, t: Type, v: Value): seq<byte>
    requires Message(t, v) == true
    decreases t, 2, 0
  {
    if t.OptionalT? then if v.Nothing? then [] else EncodeField(id, t.elem, v.payload)
    else if t.MapT? then EncodeEntries(id, t, v.entries, 0)
    else if t.LeafT? then Tag(id, LeafWire(t.leaf)) + EncodeLeaf(t.leaf, v)
    else Tag(id, LENGTH_DELIMITED) + Prefixed(EncodeBody(t, v))
  }

  /** What the length prefix of an array, tuple or object covers. */
  function EncodeBody(t: Type, v: Value): seq<byte>
    requires Message(t, v) == true && (t.ArrayT? || t.TupleT? || t.ObjectT?)
    decreases t, 1, 0
  {
    if t.ArrayT? then EncodePacked(t, v.items, 0)
    else if t.TupleT? then EncodeElems(t, v.items, 0)
    else EncodeFields(t, v.items, 0)
  }

  function EncodePacked(t: Type, vs: seq<Value>, i: nat): seq<byte>
    requires t.ArrayT? && i <= |vs| && Message(t, List(vs)) == true
    decreases t, 0, |vs| - i
  {
    if i == |vs| then []
    else
      assert HasType(ElemType(t, i), vs[i]);
      EncodeLeaf(t.elem.leaf, vs[i]) + EncodePacked(t, vs, i + 1)
  }

  /** Element i of a tuple is field i + 1. */
  function EncodeElems(t: Type, vs: seq<Value>, i: nat): seq<byte>
    requires t.TupleT? && i <= |vs| && Message(t, List(vs)) == true
    decreases t, 0, |vs| - i
  {
    if i == |vs| then [] else EncodeField(i + 1, t.elems[i], vs[i]) + EncodeElems(t, vs, i + 1)
  }

  function EncodeFields(t: Type, vs: seq<Value>, i: nat): seq<byte>
    requires t.ObjectT? && i <= |vs| && Message(t, Record(vs)) == true
    decreases t, 0, |vs| - i
  {
    if i == |vs| then [] else EncodeField(t.fields[i].id, t.fields[i].ty, vs[i]) + EncodeFields(t, vs, i + 1)
  }

  /** One record an entry; key and mapped value are fields 1 and 2 of it. */
  function EncodeEntries(id: nat, t: Type, es: seq<Entry>, i: nat): seq<byte>
    requires t.MapT? && i <= |es| && Message(t, Dict(es)) == true
    decreases t, 1, |es| - i
  {
    if i == |es| then []
    else Tag(id, LENGTH_DELIMITED) + Prefixed(EncodeEntry(t, es, i)) + EncodeEntries(id, t, es, i + 1)
  }

  function EncodeEntry(t: Type, es: seq<Entry>, i: nat): seq<byte>
    requires t.MapT? && i < |es| && Message(t, Dict(es)) == true
    decreases t, 0, 0
  {
    EncodeField(1, t.key, es[i].key) + EncodeField(2, t.mapped, es[i].mapped)
  }

  // ---- Reading -----------------------------------------------------------------------------------

  /** The target after a read, and either how much input the read took or the error with its offset.
      `base` is everywhere the offset of the first byte of the input in the root buffer, so a fault's
      offset is the root index of the cursor of the reader that raised it. */
  datatype Res = Done(val: Value, used: nat) | Fail(val: Value, code: Code, at: nat)

  /** The outcome of a read that continues another one, `n` bytes further on. */
  function Advance(r: Res, n: nat): (q: Res)
  {
    if r.Done? then Done(r.val, r.used + n) else r
  }

  /** Truncation of a 64-bit pattern to `w` bits, as signed. */
  function ToSigned(raw: nat, w: Width): int {
    var m := raw % (2 * (w.SMax() + 1));
    if m > w.SMax() then m - 2 * (w.SMax() + 1) else m
  }

  function LeafNumber(t: Leaf, raw: nat): Value
    requires t.BoolL? || t.UIntL? || t.IntL?
  {
    match t
    case BoolL => Bool(raw != 0)
    case UIntL(w) => Int(raw % (w.UMax() + 1))
    case IntL(w) => Int(ToSigned(raw, w))
  }

  /** `codec<T>::read(in, value)` for a leaf. */
  function ReadLeaf(t: Leaf, s: seq<byte>, base: nat, o: Value): (r: Res)
    ensures r.Done? ==> 1 <= r.used <= |s|
    ensures r.Fail? ==> base <= r.at <= base + |s|
  {
    match t
    case BoolL => ReadNumber(t, s, base, o)
    case UIntL(_) => ReadNumber(t, s, base, o)
    case IntL(_) => ReadNumber(t, s, base, o)
    case FloatL => ReadFixed(4, s, base, o)
    case DoubleL => ReadFixed(8, s, base, o)
    case StringL => ReadString(s, base, o)
    case BytesL(n) => ReadBytes(n, s, base, o)
    case BitsetL(n) => ReadBitset(n, s, base)
  }

  function ReadNumber(t: Leaf, s: seq<byte>, base: nat, o: Value): (r: Res)
    requires t.BoolL? || t.UIntL? || t.IntL?
    ensures r.Done? ==> 1 <= r.used <= |s|
    ensures r.Fail? ==> base <= r.at <= base + |s|
  {
    match ReadVarint(s)
    case Bad(c) => Fail(o, c, base)
    case Got(n, u) => Done(LeafNumber(t, n), u)
  }

  function ReadFixed(n: nat, s: seq<byte>, base: nat, o: Value): (r: Res)
    requires n > 0
    ensures r.Done? ==> 1 <= r.used <= |s|
    ensures r.Fail? ==> base <= r.at <= base + |s|
  {
    if n <= |s| then Done(Float(FromLittle(s[..n])), n) else Fail(o, Truncated, base)
  }

  function ReadString(s: seq<byte>, base: nat, o: Value): (r: Res)
    ensures r.Done? ==> 1 <= r.used <= |s|
    ensures r.Fail? ==> base <= r.at <= base + |s|
  {
    match ReadSpan(s)
    case NoSpan(c, a) => Fail(o, c, base + a)
    case Span(h, n) => Done(Blob(s[h..h + n]), h + n)
  }

  /** A byte array: the size is checked before the bytes are looked for, and the tail is zeroed. */
  function ReadBytes(size: nat, s: seq<byte>, base: nat, o: Value): (r: Res)
    ensures r.Done? ==> 1 <= r.used <= |s|
    ensures r.Fail? ==> base <= r.at <= base + |s|
  {
    match ReadVarint(s)
    case Bad(c) => Fail(o, c, base)
    case Got(n, u) =>
      if n > size then Fail(o, InvalidSize, base + u)
      else if n > |s| - u then Fail(o, Truncated, base + u)
      else Done(Blob(Fill(s[u..u + n], size)), u + n)
  }

  /** A bitset is reset before anything is read. */
  function ReadBitset(size: nat, s: seq<byte>, base: nat): (r: Res)
    ensures r.Done? ==> 1 <= r.used <= |s|
    ensures r.Fail? ==> base <= r.at <= base + |s|
  {
    match ReadVarint(s)
    case Bad(c) => Fail(LeafDefault(BitsetL(size)), c, base)
    case Got(n, u) =>
      if n != Bitset.ByteCount(size) then Fail(LeafDefault(BitsetL(size)), InvalidSize, base + u)
      else if n > |s| - u then Fail(LeafDefault(BitsetL(size)), Truncated, base + u)
      else Done(Flags(Bitset.Unpack(s[u..u + n], size)), u + n)
  }

  function SetSlot(o: Value, i: nat, v: Value): Value {
    if o.Record? && i < |o.items| then Record(o.items[i := v])
    else if o.List? && i < |o.items| then List(o.items[i := v])
    else o
  }

  /** `codec<T>::read(in, field, wire, value)`: what follows a record's key, into the target `o`. */
  function ReadField(t: Type, wire: nat, s: seq<byte>, base: nat, o: Value): (r: Res)
    requires Supported(t) == true
    ensures r.Done? ==> r.used <= |s|
    ensures r.Fail? ==> base <= r.at <= base + |s|
    decreases |s|, t
  {
    if t.OptionalT? then
      var r := ReadField(t.elem, wire, s, base, Default(t.elem));     // emplace()
      if r.Done? then Done(Just(r.val), r.used) else Fail(Just(r.val), r.code, r.at)
    else if wire != WireOf(t) then Fail(o, WireTypeMismatch, base)
    else if t.LeafT? then ReadLeaf(t.leaf, s, base, o)
    else match ReadSpan(s)
      case NoSpan(c, a) => Fail(o, c, base + a)
      case Span(h, n) =>
        Advance(ReadBody(t, s[h..h + n], base + h, o), h)
  }

  /** The whole of a length-delimited payload. */
  function ReadBody(t: Type, s: seq<byte>, base: nat, o: Value): (r: Res)
    requires Supported(t) == true && !t.LeafT? && !t.OptionalT?
    ensures r.Done? ==> r.used == |s|
    ensures r.Fail? ==> base <= r.at <= base + |s|
    decreases |s|, t, 2
  {
    if t.ArrayT? then ReadPacked(t, 0, s, base, o)
    else if t.TupleT? then ReadTuple(t, {}, s, base, o)
    else if t.MapT? then
      var r := ReadEntry(t, Default(t.key), Default(t.mapped), s, base);
      if r.Bad? then Fail(o, r.code, r.at)
      else Done(Dict(InsertOrAssign(if o.Dict? then o.entries else [], r.entry)), |s|)
    else ReadMessage(t, s, base, o)
  }

  /** `read_message` */
  function ReadMessage(t: Type, s: seq<byte>, base: nat, o: Value): (r: Res)
    requires Supported(t) == true && t.ObjectT?
    ensures r.Done? ==> r.used == |s|
    ensures r.Fail? ==> base <= r.at <= base + |s|
    decreases |s|, t, 1
  {
    if s == [] then Done(o, 0)
    else
      var r := ReadRecord(t, s, base, o);
      if r.Fail? then r
      else
        Advance(ReadMessage(t, s[r.used..], base + r.used, r.val), r.used)
  }

  /** One key and the field it dispatches to. */
  function ReadRecord(t: Type, s: seq<byte>, base: nat, o: Value): (r: Res)
    requires Supported(t) == true && t.ObjectT? && s != []
    ensures r.Done? ==> 1 <= r.used <= |s|
    ensures r.Fail? ==> base <= r.at <= base + |s|
    decreases |s|, t, 0
  {
    match ReadVarint(s)
    case Bad(c) => Fail(o, c, base)
    case Got(key, u) =>
      if FieldNumber(key) == 0 then Fail(o, FieldNumberZero, base + u)
      else
        var i := FieldIndex(t.fields, FieldNumber(key), 0);
        if i == |t.fields| then Fail(o, UnknownField, base + u)
        else
          var r := ReadField(t.fields[i].ty, WireType(key), s[u..], base + u, Slot(o, i));
          if r.Done? then Done(SetSlot(o, i, r.val), u + r.used)
          else Fail(SetSlot(o, i, r.val), r.code, r.at)
  }

  /** A tuple's records, given the indices already seen. */
  function ReadTuple(t: Type, seen: set<nat>, s: seq<byte>, base: nat, o: Value): (r: Res)
    requires Supported(t) == true && t.TupleT?
    ensures r.Done? ==> r.used == |s|
    ensures r.Fail? ==> base <= r.at <= base + |s|
    decreases |s|, t, 1
  {
    if s == [] then if |seen| == |t.elems| then Done(o, 0) else Fail(o, InvalidSize, base)
    else
      match ReadVarint(s)
      case Bad(c) => Fail(o, c, base)
      case Got(key, u) =>
        var i := FieldNumber(key) - 1;
        if i < 0 then Fail(o, FieldNumberZero, base + u)
        else if i >= |t.elems| then Fail(o, UnknownField, base + u)
        else if i in seen then Fail(o, DuplicateField, base + u)
        else
          var r := ReadField(t.elems[i], WireType(key), s[u..], base + u, Slot(o, i));
          if r.Fail? then Fail(SetSlot(o, i, r.val), r.code, r.at)
          else
            var n := u + r.used;
            Advance(ReadTuple(t, seen + {i}, s[n..], base + n, SetSlot(o, i, r.val)), n)
  }

  /** Packed elements from index `i` on; count errors are raised once the whole payload is consumed. */
  function ReadPacked(t: Type, i: nat, s: seq<byte>, base: nat, o: Value): (r: Res)
    requires Supported(t) == true && t.ArrayT?
    ensures r.Done? ==> r.used == |s|
    ensures r.Fail? ==> base <= r.at <= base + |s|
    decreases |s|, t, 1
  {
    if s == [] then if i == t.count then Done(o, 0) else Fail(o, InvalidSize, base)
    else if i >= t.count then Fail(o, InvalidSize, base + |s|)
    else
      var r := ReadLeaf(t.elem.leaf, s, base, Slot(o, i));
      if r.Fail? then Fail(SetSlot(o, i, r.val), r.code, r.at)
      else
        Advance(ReadPacked(t, i + 1, s[r.used..], base + r.used, SetSlot(o, i, r.val)), r.used)
  }

  datatype EntryRes = Pair(entry: Entry) | Bad(code: Code, at: nat)

  /** The type of field `n` of a map entry. */
  function Half(t: Type, n: nat): Type
    requires t.MapT?
  {
    if n == 1 then t.key else t.mapped
  }

  /** The fields of a map entry, into the given key and mapped value. */
  function ReadEntry(t: Type, key: Value, mapped: Value, s: seq<byte>, base: nat): (r: EntryRes)
    requires Supported(t) == true && t.MapT?
    ensures r.Bad? ==> base <= r.at <= base + |s|
    decreases |s|, t, 0
  {
    if s == [] then Pair(Entry(key, mapped))
    else
      match ReadVarint(s)
      case Bad(c) => EntryRes.Bad(c, base)
      case Got(k, u) =>
        var n := FieldNumber(k);
        if n == 0 then EntryRes.Bad(FieldNumberZero, base + u)
        else if n > 2 then EntryRes.Bad(UnknownField, base + u)
        else
          var r := ReadField(Half(t, n), WireType(k), s[u..], base + u, if n == 1 then key else mapped);
          if r.Fail? then EntryRes.Bad(r.code, r.at)
          else
            ReadEntry(t, if n == 1 then r.val else key, if n == 1 then mapped else r.val,
                      s[u + r.used..], base + u + r.used)
  }

  // ---- One step of each reader -----------------------------------------------------------------

  lemma OptionalStep(t: Type, wire: nat, s: seq<byte>, base: nat, o: Value)
    requires Supported(t) == true && t.OptionalT?
    ensures ReadField(t, wire, s, base, o) ==
            var r := ReadField(t.elem, wire, s, base, Default(t.elem));
            if r.Done? then Done(Just(r.val), r.used) else Fail(Just(r.val), r.code, r.at)
  {}

  lemma FieldStep(t: Type, wire: nat, s: seq<byte>, base: nat, o: Value)
    requires Supported(t) == true && !t.OptionalT?
    ensures ReadField(t, wire, s, base, o) ==
            if wire != WireOf(t) then Fail(o, WireTypeMismatch, base)
            else if t.LeafT? then ReadLeaf(t.leaf, s, base, o)
            else match ReadSpan(s)
              case NoSpan(c, a) => Fail(o, c, base + a)
              case Span(h, n) => Advance(ReadBody(t, s[h..h + n], base + h, o), h)
  {}

  lemma MessageStep(t: Type, s: seq<byte>, base: nat, o: Value)
    requires Supported(t) == true && t.ObjectT? && s != []
    ensures ReadMessage(t, s, base, o) ==
            var r := ReadRecord(t, s, base, o);
            if r.Fail? then r else Advance(ReadMessage(t, s[r.used..], base + r.used, r.val), r.used)
  {}

  lemma RecordStep(t: Type, s: seq<byte>, base: nat, o: Value)
    requires Supported(t) == true && t.ObjectT? && s != [] && ReadVarint(s).Got?
    ensures var u := ReadVarint(s).used;
            var i := FieldIndex(t.fields, FieldNumber(ReadVarint(s).val), 0);
            ReadRecord(t, s, base, o) ==
            if FieldNumber(ReadVarint(s).val) == 0 then Fail(o, FieldNumberZero, base + u)
            else if i == |t.fields| then Fail(o, UnknownField, base + u)
            else
              var r := ReadField(t.fields[i].ty, WireType(ReadVarint(s).val), s[u..], base + u, Slot(o, i));
              if r.Done? then Done(SetSlot(o, i, r.val), u + r.used) else Fail(SetSlot(o, i, r.val), r.code, r.at)
  {
    hide ReadVarint, ReadField, FieldNumber, WireType, Slot, SetSlot;
  }

  lemma RecordEnd(t: Type, s: seq<byte>, base: nat, o: Value)
    requires Supported(t) == true && t.ObjectT? && s != [] && ReadVarint(s).Bad?
    ensures ReadRecord(t, s, base, o) == Fail(o, ReadVarint(s).code, base)
  {
    hide ReadVarint, ReadField;
  }

  lemma MessageEnd(t: Type, base: nat, o: Value)
    requires Supported(t) == true && t.ObjectT?
    ensures ReadMessage(t, [], base, o) == Done(o, 0)
  {}

  lemma TupleStep(t: Type, seen: set<nat>, s: seq<byte>, base: nat, o: Value)
    requires Supported(t) == true && t.TupleT? && s != [] && ReadVarint(s).Got?
    ensures var u := ReadVarint(s).used;
            var i := FieldNumber(ReadVarint(s).val) - 1;
            ReadTuple(t, seen, s, base, o) ==
            if i < 0 then Fail(o, FieldNumberZero, base + u)
            else if i >= |t.elems| then Fail(o, UnknownField, base + u)
            else if i in seen then Fail(o, DuplicateField, base + u)
            else
              var r := ReadField(t.elems[i], WireType(ReadVarint(s).val), s[u..], base + u, Slot(o, i));
              if r.Fail? then Fail(SetSlot(o, i, r.val), r.code, r.at)
              else
                var n := u + r.used;
                Advance(ReadTuple(t, seen + {i}, s[n..], base + n, SetSlot(o, i, r.val)), n)
  {
    hide ReadVarint, ReadField, FieldNumber, WireType, Slot, SetSlot;
  }

  lemma TupleEnd(t: Type, seen: set<nat>, s: seq<byte>, base: nat, o: Value)
    requires Supported(t) == true && t.TupleT? && (s == [] || ReadVarint(s).Bad?)
    ensures ReadTuple(t, seen, s, base, o) ==
            if s != [] then Fail(o, ReadVarint(s).code, base)
            else if |seen| == |t.elems| then Done(o, 0)
            else Fail(o, InvalidSize, base)
  {}

  lemma PackedEnd(t: Type, i: nat, s: seq<byte>, base: nat, o: Value)
    requires Supported(t) == true && t.ArrayT? && (s == [] || i >= t.count)
    ensures ReadPacked(t, i, s, base, o) ==
            if s == [] && i == t.count then Done(o, 0) else Fail(o, InvalidSize, base + |s|)
  {}

  lemma PackedStep(t: Type, i: nat, s: seq<byte>, base: nat, o: Value)
    requires Supported(t) == true && t.ArrayT?
    ensures ReadPacked(t, i, s, base, o) ==
            if s == [] then if i == t.count then Done(o, 0) else Fail(o, InvalidSize, base)
            else if i >= t.count then Fail(o, InvalidSize, base + |s|)
            else
              var r := ReadLeaf(t.elem.leaf, s, base, Slot(o, i));
              if r.Fail? then Fail(SetSlot(o, i, r.val), r.code, r.at)
              else Advance(ReadPacked(t, i + 1, s[r.used..], base + r.used, SetSlot(o, i, r.val)), r.used)
  {}

  lemma EntryStep(t: Type, key: Value, mapped: Value, s: seq<byte>, base: nat)
    requires Supported(t) == true && t.MapT? && s != [] && ReadVarint(s).Got?
    requires 1 <= FieldNumber(ReadVarint(s).val) <= 2
    ensures Supported(Half(t, FieldNumber(ReadVarint(s).val)))
    ensures var n, u := FieldNumber(ReadVarint(s).val), ReadVarint(s).used;
            var r := ReadField(Half(t, n), WireType(ReadVarint(s).val), s[u..], base + u,
                               if n == 1 then key else mapped);
            ReadEntry(t, key, mapped, s, base) ==
            if r.Fail? then EntryRes.Bad(r.code, r.at)
            else
              ReadEntry(t, if n == 1 then r.val else key, if n == 1 then mapped else r.val,
                        s[u + r.used..], base + u + r.used)
  {
    hide ReadVarint, ReadField, FieldNumber, WireType;
  }

  lemma EntryRefused(t: Type, key: Value, mapped: Value, s: seq<byte>, base: nat)
    requires Supported(t) == true && t.MapT? && s != [] && ReadVarint(s).Got?
    requires !(1 <= FieldNumber(ReadVarint(s).val) <= 2)
    ensures ReadEntry(t, key, mapped, s, base) ==
            EntryRes.Bad(if FieldNumber(ReadVarint(s).val) == 0 then FieldNumberZero else UnknownField,
                         base + ReadVarint(s).used)
  {
    hide ReadVarint, ReadField, FieldNumber, WireType;
  }

  lemma EntryEnd(t: Type, key: Value, mapped: Value, s: seq<byte>, base: nat)
    requires Supported(t) == true && t.MapT? && (s == [] || ReadVarint(s).Bad?)
    ensures ReadEntry(t, key, mapped, s, base) ==
            if s == [] then Pair(Entry(key, mapped)) else EntryRes.Bad(ReadVarint(s).code, base)
  {
    hide ReadVarint, ReadField, FieldNumber, WireType;
  }
}
