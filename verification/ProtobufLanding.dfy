// What decoding an encoding does to any target: records land one after another.
module ProtobufLanding {
  import opened Bytes
  import opened Schema
  import opened ProtobufWire
  import opened ProtobufCodec
  import Bitset

  // ---- Records -----------------------------------------------------------------------------------

  /** The value of exactly one record: an engaged optional, a map of one entry, or any other value. */
  predicate IsPart(t: Type, p: Value)
    decreases t
  {
    Message(t, p) && (t.OptionalT? ==> p.Just? && IsPart(t.elem, p.payload)) && (t.MapT? ==> |p.entries| == 1)
  }

  predicate AllParts(t: Type, ps: seq<Value>) { forall k :: 0 <= k < |ps| ==> IsPart(t, ps[k]) }

  function Wrapped(ps: seq<Value>): (r: seq<Value>)
    ensures |r| == |ps|
  {
    seq(|ps|, i requires 0 <= i < |ps| => Just(ps[i]))
  }

  /** The values the records of `v` carry, in wire order. */
  function Parts(t: Type, v: Value): (ps: seq<Value>)
    requires Message(t, v) == true
    ensures AllParts(t, ps)
    decreases t
  {
    if t.OptionalT? then if v.Nothing? then [] else Wrapped(Parts(t.elem, v.payload))
    else if t.MapT? then seq(|v.entries|, i requires 0 <= i < |v.entries| => Dict([v.entries[i]]))
    else [v]
  }

  /** What follows the key of a record. */
  function RecordBody(t: Type, p: Value): seq<byte>
    requires IsPart(t, p) == true
    decreases t
  {
    if t.OptionalT? then RecordBody(t.elem, p.payload)
    else if t.LeafT? then EncodeLeaf(t.leaf, p)
    else if t.MapT? then Prefixed(EncodeEntry(t, p.entries, 0))
    else Prefixed(EncodeBody(t, p))
  }

  function Records(id: nat, t: Type, ps: seq<Value>): seq<byte>
    requires AllParts(t, ps) == true
  {
    if ps == [] then [] else Tag(id, WireOf(t)) + RecordBody(t, ps[0]) + Records(id, t, ps[1..])
  }

  lemma {:induction false} FieldIsRecords(id: nat, t: Type, v: Value)
    requires Message(t, v) == true
    ensures EncodeField(id, t, v) == Records(id, t, Parts(t, v))
    decreases t
  {
    hide Tag, Prefixed, EncodeLeaf, EncodeBody, EncodeEntry;
    if t.OptionalT? {
      if v.Just? {
        FieldIsRecords(id, t.elem, v.payload);
        WrappedRecords(id, t, Parts(t.elem, v.payload));
      }
    } else if t.MapT? {
      assert Parts(t, v)[0..] == Parts(t, v);
      EntriesAreRecords(id, t, v.entries, 0);
    } else {
      OneRecord(id, t, v);
    }
  }

  lemma OneRecord(id: nat, t: Type, p: Value)
    requires IsPart(t, p) == true
    ensures Records(id, t, [p]) == Tag(id, WireOf(t)) + RecordBody(t, p)
  {
    hide Tag, RecordBody, IsPart;
    assert [p][1..] == [];
  }

  lemma {:induction false} WrappedRecords(id: nat, t: Type, ps: seq<Value>)
    requires Supported(t) && WellFormed(t) && t.OptionalT? && AllParts(t.elem, ps) == true
    ensures AllParts(t, Wrapped(ps)) && Records(id, t, Wrapped(ps)) == Records(id, t.elem, ps)
    decreases |ps|
  {
    hide Tag, Prefixed, EncodeLeaf, EncodeBody, EncodeEntry;
    if ps != [] {
      WrappedRecords(id, t, ps[1..]);
      assert Wrapped(ps)[1..] == Wrapped(ps[1..]);
    }
  }

  lemma {:induction false} EntriesAreRecords(id: nat, t: Type, es: seq<Entry>, i: nat)
    requires t.MapT? && i <= |es| && Message(t, Dict(es)) == true
    ensures EncodeEntries(id, t, es, i) == Records(id, t, Parts(t, Dict(es))[i..])
    decreases |es| - i
  {
    hide Tag, Prefixed, EncodeField, WellFormed;
    if i < |es| {
      var ps := Parts(t, Dict(es));
      assert ps[i..][0] == Dict([es[i]]) && ps[i..][1..] == ps[i + 1..];
      EntriesAreRecords(id, t, es, i + 1);
    }
  }

  // ---- Landing -------------------------------------------------------------------------------------

  /** The target after one record is decoded into it; nothing when decoding fails. */
  function Take(t: Type, o: Value, p: Value): Option<Value>
    requires IsPart(t, p) == true
    decreases t, 3, 0
  {
    if t.LeafT? then Some(p)
    else if t.ArrayT? then Some(TakeItems(o, p.items, 0))
    else if t.OptionalT? then TakeFresh(t, p)
    else if t.MapT? then TakeEntry(t, o, p)
    else if t.TupleT? then TakeElems(t, o, p.items, 0)
    else TakeFields(t, o, p.items, 0)
  }

  /** An optional is emptied and default-engaged before every record. */
  function TakeFresh(t: Type, p: Value): Option<Value>
    requires t.OptionalT? && IsPart(t, p) == true
    decreases t, 2, 0
  {
    match Take(t.elem, Default(t.elem), p.payload)
    case None => None
    case Some(x) => Some(Just(x))
  }

  /** Key and mapped value start from their defaults; the pair replaces an equivalent entry. */
  function TakeEntry(t: Type, o: Value, p: Value): Option<Value>
    requires t.MapT? && IsPart(t, p) == true
    decreases t, 2, 0
  {
    match Fold(t.key, Default(t.key), Parts(t.key, p.entries[0].key))
    case None => None
    case Some(k) =>
      match Fold(t.mapped, Default(t.mapped), Parts(t.mapped, p.entries[0].mapped))
      case None => None
      case Some(m) => Some(Dict(InsertOrAssign(if o.Dict? then o.entries else [], Entry(k, m))))
  }

  function Fold(t: Type, o: Value, ps: seq<Value>): Option<Value>
    requires AllParts(t, ps) == true
    decreases t, 4, |ps|
  {
    if ps == [] then Some(o)
    else match Take(t, o, ps[0])
      case None => None
      case Some(x) => Fold(t, x, ps[1..])
  }

  function TakeItems(o: Value, vs: seq<Value>, i: nat): Value
    requires i <= |vs|
    decreases |vs| - i
  {
    if i == |vs| then o else TakeItems(SetSlot(o, i, vs[i]), vs, i + 1)
  }

  /** Every element of a tuple must arrive in exactly one record. */
  function TakeElems(t: Type, o: Value, vs: seq<Value>, i: nat): Option<Value>
    requires t.TupleT? && i <= |vs| && Message(t, List(vs)) == true
    decreases t, 1, |vs| - i
  {
    if i == |vs| then Some(o)
    else
      var ps := Parts(t.elems[i], vs[i]);
      if |ps| != 1 then None
      else match Take(t.elems[i], Slot(o, i), ps[0])
        case None => None
        case Some(x) => TakeElems(t, SetSlot(o, i, x), vs, i + 1)
  }

  function TakeFields(t: Type, o: Value, vs: seq<Value>, i: nat): Option<Value>
    requires t.ObjectT? && i <= |vs| && Message(t, Record(vs)) == true
    decreases t, 1, |vs| - i
  {
    if i == |vs| then Some(o)
    else match FoldAt(t, o, i, Parts(t.fields[i].ty, vs[i]))
      case None => None
      case Some(x) => TakeFields(t, x, vs, i + 1)
  }

  /** Records of field `i` landing in the object. */
  function FoldAt(t: Type, o: Value, i: nat, ps: seq<Value>): Option<Value>
    requires t.ObjectT? && i < |t.fields| && AllParts(t.fields[i].ty, ps) == true
    decreases t, 0, |ps|
  {
    if ps == [] then Some(o)
    else match Take(t.fields[i].ty, Slot(o, i), ps[0])
      case None => None
      case Some(x) => FoldAt(t, SetSlot(o, i, x), i, ps[1..])
  }

  // ---- Leaves --------------------------------------------------------------------------------------

  lemma LeafLands(t: Leaf, v: Value, rest: seq<byte>, base: nat, o: Value)
    requires LeafHas(t, v) == true
    ensures ReadLeaf(t, EncodeLeaf(t, v) + rest, base, o) == Done(v, |EncodeLeaf(t, v)|)
  {
    hide ReadLeaf, EncodeLeaf, LeafHas;
    match t
    case BoolL => NumberLands(t, v, rest, base, o);
    case UIntL(_) => NumberLands(t, v, rest, base, o);
    case IntL(_) => NumberLands(t, v, rest, base, o);
    case FloatL => FloatLands(t, v, rest, base, o);
    case DoubleL => FloatLands(t, v, rest, base, o);
    case _ => BlobLeafLands(t, v, rest, base, o);
  }

  lemma NumberLands(t: Leaf, v: Value, rest: seq<byte>, base: nat, o: Value)
    requires LeafHas(t, v) == true && (t.BoolL? || t.UIntL? || t.IntL?)
    ensures ReadLeaf(t, EncodeLeaf(t, v) + rest, base, o) == Done(v, |EncodeLeaf(t, v)|)
  {
    hide ReadVarint, ToVarint, ToSigned;
    match t
    case BoolL => VarintRoundTrip(if v.on then 1 else 0, rest);
    case UIntL(w) => VarintRoundTrip(v.n, rest);
    case IntL(w) =>
      VarintRoundTrip(AsU64(v.n), rest);
      SignedRoundTrip(v.n, w);
  }

  lemma FloatLands(t: Leaf, v: Value, rest: seq<byte>, base: nat, o: Value)
    requires LeafHas(t, v) == true && (t.FloatL? || t.DoubleL?)
    ensures ReadLeaf(t, EncodeLeaf(t, v) + rest, base, o) == Done(v, |EncodeLeaf(t, v)|)
  {
    hide ToLittle, FromLittle;
    FixedLands(v.bits, if t.FloatL? then 4 else 8, rest);
  }

  lemma BlobLeafLands(t: Leaf, v: Value, rest: seq<byte>, base: nat, o: Value)
    requires LeafHas(t, v) == true && (t.StringL? || t.BytesL? || t.BitsetL?)
    ensures ReadLeaf(t, EncodeLeaf(t, v) + rest, base, o) == Done(v, |EncodeLeaf(t, v)|)
  {
    hide ReadVarint, ToVarint, Bitset.Pack, Bitset.Unpack, TrimZeros, Fill;
    match t
    case StringL => SpanRoundTrip(v.bytes, rest);
    case BytesL(n) =>
      BlobLands(TrimZeros(v.bytes), rest);
      TrimFill(v.bytes);
    case BitsetL(n) =>
      BlobLands(Bitset.Pack(v.flags), rest);
      Bitset.UnpackPack(v.flags);
  }

  /** Sign extension to 64 bits and truncation back. */
  lemma SignedRoundTrip(n: int, w: Width)
    requires w.SMin() <= n <= w.SMax()
    ensures ToSigned(AsU64(n), w) == n
  {}

  lemma FixedLands(bits: nat, n: nat, rest: seq<byte>)
    requires (n == 4 && bits < 0x1_0000_0000) || (n == 8 && bits < U64)
    ensures FromLittle((ToLittle(bits, n) + rest)[..n]) == bits
  {
    hide ToLittle, FromLittle;
    Pow256Eight();
    assert Pow256(2) == 0x1_0000 && Pow256(4) == 0x1_0000_0000;
    LittleRoundTrip(bits, n);
    assert (ToLittle(bits, n) + rest)[..n] == ToLittle(bits, n);
  }

  lemma BlobLands(payload: seq<byte>, rest: seq<byte>)
    requires |payload| < U64
    ensures var h := |ToVarint(|payload|)|;
            var s := Prefixed(payload) + rest;
            ReadVarint(s) == Got(|payload|, h) && |payload| <= |s| - h && s[h..h + |payload|] == payload
  {
    hide ReadVarint, ToVarint;
    assert Prefixed(payload) + rest == ToVarint(|payload|) + (payload + rest);
    VarintRoundTrip(|payload|, payload + rest);
  }

  // ---- Records land ----------------------------------------------------------------------------------

  /** Decoding the body of one record, whatever follows it and whatever the target holds, leaves what
      `Take` says and consumes exactly the body; it fails exactly when `Take` yields nothing. */
  lemma {:induction false} RecordLands(t: Type, p: Value, rest: seq<byte>, base: nat, o: Value)
    requires IsPart(t, p) == true && |RecordBody(t, p)| < U64
    ensures var r := ReadField(t, WireOf(t), RecordBody(t, p) + rest, base, o);
            match Take(t, o, p)
            case None => r.Fail?
            case Some(x) => r == Done(x, |RecordBody(t, p)|)
    decreases t, 4, 0
  {
    hide ReadField, ReadLeaf, ReadBody, EncodeLeaf, EncodeBody, EncodeEntry, Prefixed, Take, TakeFresh, Default;
    var s := RecordBody(t, p) + rest;
    TakeStep(t, o, p);
    if t.OptionalT? {
      OptionalStep(t, WireOf(t), s, base, o);
      RecordLands(t.elem, p.payload, rest, base, Default(t.elem));
      FreshStep(t, p);
    } else if t.LeafT? {
      FieldStep(t, WireOf(t), s, base, o);
      LeafLands(t.leaf, p, rest, base, o);
    } else {
      var payload := if t.MapT? then EncodeEntry(t, p.entries, 0) else EncodeBody(t, p);
      PrefixedLength(payload);
      DelimitedLands(t, payload, rest, base, o);
      BodyLands(t, p, base + |ToVarint(|payload|)|, o);
    }
  }

  lemma TakeStep(t: Type, o: Value, p: Value)
    requires IsPart(t, p) == true
    ensures Take(t, o, p) ==
            if t.LeafT? then Some(p)
            else if t.ArrayT? then Some(TakeItems(o, p.items, 0))
            else if t.OptionalT? then TakeFresh(t, p)
            else if t.MapT? then TakeEntry(t, o, p)
            else if t.TupleT? then TakeElems(t, o, p.items, 0)
            else TakeFields(t, o, p.items, 0)
  {}

  lemma FreshStep(t: Type, p: Value)
    requires t.OptionalT? && IsPart(t, p) == true
    ensures TakeFresh(t, p) == match Take(t.elem, Default(t.elem), p.payload)
                               case None => None
                               case Some(x) => Some(Just(x))
  {
    hide Take;
  }

  lemma PrefixedLength(payload: seq<byte>)
    ensures |Prefixed(payload)| == |ToVarint(|payload|)| + |payload|
  {}

  lemma DelimitedLands(t: Type, payload: seq<byte>, rest: seq<byte>, base: nat, o: Value)
    requires Supported(t) == true && !t.LeafT? && !t.OptionalT? && |payload| < U64
    ensures var h := |ToVarint(|payload|)|;
            ReadField(t, LENGTH_DELIMITED, Prefixed(payload) + rest, base, o) ==
            Advance(ReadBody(t, payload, base + h, o), h)
  {
    hide ReadField, ReadBody, ReadSpan, ToVarint, Prefixed, Supported;
    FieldStep(t, LENGTH_DELIMITED, Prefixed(payload) + rest, base, o);
    SpanRoundTrip(payload, rest);
  }

  /** The payload of a record, read to its end. */
  lemma {:induction false} BodyLands(t: Type, p: Value, base: nat, o: Value)
    requires IsPart(t, p) == true && !t.LeafT? && !t.OptionalT? && |RecordBody(t, p)| < U64
    ensures var payload := if t.MapT? then EncodeEntry(t, p.entries, 0) else EncodeBody(t, p);
            var r := ReadBody(t, payload, base, o);
            match Take(t, o, p)
            case None => r.Fail?
            case Some(x) => r == Done(x, |payload|)
    decreases t, 3, 1
  {
    hide ReadPacked, ReadTuple, ReadEntry, ReadMessage, EncodePacked, EncodeElems, EncodeFields,
      EncodeEntry, Prefixed, Take, TakeItems, TakeElems, TakeFields, TakeEntry, Default;
    TakeStep(t, o, p);
    if t.MapT? {
      PrefixedLength(EncodeEntry(t, p.entries, 0));
      EntryLands(t, p, base, o);
    } else {
      PrefixedLength(EncodeBody(t, p));
      if t.ArrayT? { PackedLands(t, p.items, 0, base, o); }
      else if t.TupleT? { ElemsLand(t, p.items, 0, {}, base, o); }
      else { FieldsLand(t, p.items, 0, base, o); }
    }
  }

  lemma {:induction false} PackedLands(t: Type, vs: seq<Value>, i: nat, base: nat, o: Value)
    requires t.ArrayT? && i <= |vs| && Message(t, List(vs)) == true && |EncodePacked(t, vs, i)| < U64
    ensures ReadPacked(t, i, EncodePacked(t, vs, i), base, o) ==
            Done(TakeItems(o, vs, i), |EncodePacked(t, vs, i)|)
    decreases t, 0, |vs| - i
  {
    hide ReadPacked, ReadLeaf, EncodeLeaf, Slot, SetSlot;
    PackedStep(t, i, EncodePacked(t, vs, i), base, o);
    if i < |vs| {
      assert HasType(ElemType(t, i), vs[i]);
      var e, rest := EncodeLeaf(t.elem.leaf, vs[i]), EncodePacked(t, vs, i + 1);
      LeafLands(t.elem.leaf, vs[i], rest, base, Slot(o, i));
      assert (e + rest)[|e|..] == rest;
      PackedLands(t, vs, i + 1, base + |e|, SetSlot(o, i, vs[i]));
    }
  }

  /** Key and body of the first record of a run. */
  lemma RecordsHead(id: nat, t: Type, ps: seq<Value>, tail: seq<byte>)
    requires AllParts(t, ps) == true && ps != [] && 0 < id < 0x1_0000_0000
    ensures var s := Records(id, t, ps) + tail;
            var k := Tag(id, WireOf(t));
            var b, rest := RecordBody(t, ps[0]), Records(id, t, ps[1..]) + tail;
            ReadVarint(s) == Got(8 * id + WireOf(t), |k|) && s[|k|..] == b + rest &&
            s[|k| + |b|..] == rest &&
            FieldNumber(8 * id + WireOf(t)) == id && WireType(8 * id + WireOf(t)) == WireOf(t) &&
            |Records(id, t, ps)| == |k| + |b| + |Records(id, t, ps[1..])|
  {
    hide Records, ReadVarint, Tag, RecordBody, IsPart, FieldNumber, WireType, WireOf;
    RecordsCons(id, t, ps);
    var k, b := Tag(id, WireOf(t)), RecordBody(t, ps[0]);
    Slices(k, b, Records(id, t, ps[1..]), tail);
    WireBound(t);
    TagRoundTrip(id, WireOf(t), b + (Records(id, t, ps[1..]) + tail));
  }

  lemma RecordsCons(id: nat, t: Type, ps: seq<Value>)
    requires AllParts(t, ps) == true && ps != []
    ensures Records(id, t, ps) == Tag(id, WireOf(t)) + RecordBody(t, ps[0]) + Records(id, t, ps[1..])
  {
    hide Tag, RecordBody, IsPart;
  }

  lemma Slices(k: seq<byte>, b: seq<byte>, r: seq<byte>, tail: seq<byte>)
    ensures var s := k + b + r + tail;
            s == k + (b + (r + tail)) && s[|k|..] == b + (r + tail) && s[|k| + |b|..] == r + tail
  {}

  lemma WireBound(t: Type)
    ensures WireOf(t) < 8
  {}

  /** The records of one field of an object land in its slot. */
  lemma {:induction false} RecordsLand(t: Type, i: nat, ps: seq<Value>, tail: seq<byte>, base: nat, o: Value)
    requires Supported(t) && WellFormed(t) && t.ObjectT? && i < |t.fields|
    requires AllParts(t.fields[i].ty, ps) == true && |Records(t.fields[i].id, t.fields[i].ty, ps)| < U64
    ensures var e := Records(t.fields[i].id, t.fields[i].ty, ps);
            var r := ReadMessage(t, e + tail, base, o);
            match FoldAt(t, o, i, ps)
            case None => r.Fail?
            case Some(x) => r == Advance(ReadMessage(t, tail, base + |e|, x), |e|)
    decreases t, 1, |ps|
  {
    hide ReadMessage, ReadVarint, ReadField, Records, RecordBody, IsPart, Tag, Take, FieldNumber, WireType, WireOf,
      Slot, SetSlot;
    var id, ty := t.fields[i].id, t.fields[i].ty;
    if ps == [] {
      NoRecords(id, ty, tail);
    } else {
      var s := Records(id, ty, ps) + tail;
      RecordsHead(id, ty, ps, tail);
      MessageStep(t, s, base, o);
      FieldIndexUnique(t.fields, i);
      var k, b, rest := Tag(id, WireOf(ty)), RecordBody(ty, ps[0]), Records(id, ty, ps[1..]) + tail;
      RecordLands(ty, ps[0], rest, base + |k|, Slot(o, i));
      var x := Take(ty, Slot(o, i), ps[0]);
      if x.Some? {
        RecordsLand(t, i, ps[1..], tail, base + |k| + |b|, SetSlot(o, i, x.value));
      }
    }
  }

  lemma FieldsHead(t: Type, vs: seq<Value>, i: nat)
    requires t.ObjectT? && i < |vs| && Message(t, Record(vs)) == true
    ensures Message(t.fields[i].ty, vs[i]) && 0 < t.fields[i].id < 0x1_0000_0000
    ensures EncodeFields(t, vs, i) ==
            Records(t.fields[i].id, t.fields[i].ty, Parts(t.fields[i].ty, vs[i])) + EncodeFields(t, vs, i + 1)
  {
    hide EncodeField, Records, Parts;
    FieldIsRecords(t.fields[i].id, t.fields[i].ty, vs[i]);
  }

  lemma {:induction false} FieldsLand(t: Type, vs: seq<Value>, i: nat, base: nat, o: Value)
    requires t.ObjectT? && i <= |vs| && Message(t, Record(vs)) == true && |EncodeFields(t, vs, i)| < U64
    ensures var r := ReadMessage(t, EncodeFields(t, vs, i), base, o);
            match TakeFields(t, o, vs, i)
            case None => r.Fail?
            case Some(x) => r == Done(x, |EncodeFields(t, vs, i)|)
    decreases t, 2, |vs| - i
  {
    hide ReadMessage, EncodeField, Records, Parts, FoldAt;
    if i == |vs| {
      MessageEnd(t, base, o);
    } else {
      FieldsHead(t, vs, i);
      var ps := Parts(t.fields[i].ty, vs[i]);
      RecordsLand(t, i, ps, EncodeFields(t, vs, i + 1), base, o);
      var x := FoldAt(t, o, i, ps);
      if x.Some? {
        FieldsLand(t, vs, i + 1, base + |Records(t.fields[i].id, t.fields[i].ty, ps)|, x.value);
      }
    }
  }

  /** The records of a tuple's elements: `seen` holds the elements before `i` that arrived. Unless all
      of them did, and every later element arrives in exactly one record, the tuple is refused. */
  lemma {:induction false} ElemsLand(t: Type, vs: seq<Value>, i: nat, seen: set<nat>, base: nat, o: Value)
    requires t.TupleT? && i <= |vs| && Message(t, List(vs)) == true && |EncodeElems(t, vs, i)| < U64
    requires (forall x :: x in seen ==> x < i) && |seen| <= i
    ensures var r := ReadTuple(t, seen, EncodeElems(t, vs, i), base, o);
            var x := TakeElems(t, o, vs, i);
            if |seen| == i && x.Some? then r == Done(x.value, |EncodeElems(t, vs, i)|) else r.Fail?
    decreases t, 2, |vs| - i
  {
    hide ReadTuple, ReadField, ReadVarint, EncodeField, Records, RecordBody, Parts, IsPart, Tag, Take, FieldNumber,
      WireType, WireOf, Slot, SetSlot;
    if i == |vs| {
      TupleEnd(t, seen, [], base, o);
    } else {
      ElemsHead(t, vs, i);
      var ty, ps, tail := t.elems[i], Parts(t.elems[i], vs[i]), EncodeElems(t, vs, i + 1);
      if ps == [] {
        NoRecords(i + 1, ty, tail);
        ElemsLand(t, vs, i + 1, seen, base, o);
      } else {
        RecordsHead(i + 1, ty, ps, tail);
        var k, b, rest := Tag(i + 1, WireOf(ty)), RecordBody(ty, ps[0]), Records(i + 1, ty, ps[1..]) + tail;
        TupleStep(t, seen, EncodeElems(t, vs, i), base, o);
        RecordLands(ty, ps[0], rest, base + |k|, Slot(o, i));
        var x := Take(ty, Slot(o, i), ps[0]);
        if x.Some? {
          if |ps| == 1 {
            NoRecords(i + 1, ty, tail);
            assert ps[1..] == [];
            ElemsLand(t, vs, i + 1, seen + {i}, base + |k| + |b|, SetSlot(o, i, x.value));
          } else {
            SecondRefused(t, i, ps[1..], tail, seen + {i}, base + |k| + |b|, SetSlot(o, i, x.value));
          }
        }
      }
    }
  }

  lemma ElemsHead(t: Type, vs: seq<Value>, i: nat)
    requires t.TupleT? && i < |vs| && Message(t, List(vs)) == true
    ensures Message(t.elems[i], vs[i]) && i + 1 < 0x1_0000_0000
    ensures EncodeElems(t, vs, i) ==
            Records(i + 1, t.elems[i], Parts(t.elems[i], vs[i])) + EncodeElems(t, vs, i + 1)
  {
    hide EncodeField, Records, Parts;
    assert HasType(ElemType(t, i), vs[i]);
    FieldIsRecords(i + 1, t.elems[i], vs[i]);
  }

  lemma NoRecords(id: nat, t: Type, tail: seq<byte>)
    ensures AllParts(t, []) && Records(id, t, []) == [] && [] + tail == tail
  {}

  lemma SecondRefused(t: Type, i: nat, ps: seq<Value>, tail: seq<byte>, seen: set<nat>, base: nat, o: Value)
    requires Supported(t) == true && t.TupleT? && i < |t.elems| && i in seen && i + 1 < 0x1_0000_0000
    requires AllParts(t.elems[i], ps) == true && ps != []
    ensures ReadTuple(t, seen, Records(i + 1, t.elems[i], ps) + tail, base, o).Fail?
  {
    hide ReadTuple, ReadField, ReadVarint, Records, RecordBody, IsPart, Tag, FieldNumber, WireType, WireOf;
    RecordsHead(i + 1, t.elems[i], ps, tail);
    TupleStep(t, seen, Records(i + 1, t.elems[i], ps) + tail, base, o);
  }

  /** Records of field `n` of an entry land in the key or in the mapped value. */
  lemma {:induction false} HalfLands(
    t: Type, n: nat, ps: seq<Value>, key: Value, mapped: Value, tail: seq<byte>, base: nat)
    requires Supported(t) == true && t.MapT? && 1 <= n <= 2
    requires AllParts(Half(t, n), ps) == true && |Records(n, Half(t, n), ps)| < U64
    ensures var e := Records(n, Half(t, n), ps);
            var r := ReadEntry(t, key, mapped, e + tail, base);
            match Fold(Half(t, n), if n == 1 then key else mapped, ps)
            case None => r.Bad?
            case Some(x) =>
              r == ReadEntry(t, if n == 1 then x else key, if n == 1 then mapped else x, tail, base + |e|)
    decreases t, 1, |ps|
  {
    hide ReadEntry, ReadVarint, ReadField, Records, RecordBody, IsPart, Tag, Take, FieldNumber, WireType, WireOf,
      Supported;
    var ty := Half(t, n);
    if ps == [] {
      NoRecords(n, ty, tail);
    } else {
      var s := Records(n, ty, ps) + tail;
      RecordsHead(n, ty, ps, tail);
      EntryStep(t, key, mapped, s, base);
      var cur := if n == 1 then key else mapped;
      var k, b, rest := Tag(n, WireOf(ty)), RecordBody(ty, ps[0]), Records(n, ty, ps[1..]) + tail;
      RecordLands(ty, ps[0], rest, base + |k|, cur);
      var x := Take(ty, cur, ps[0]);
      if x.Some? {
        HalfLands(t, n, ps[1..], if n == 1 then x.value else key, if n == 1 then mapped else x.value, tail,
                  base + |k| + |b|);
      }
    }
  }

  lemma EntryHead(t: Type, p: Value)
    requires t.MapT? && IsPart(t, p) == true
    ensures p.Dict? && |p.entries| == 1
    ensures var e := p.entries[0];
            Message(t.key, e.key) && Message(t.mapped, e.mapped) &&
            EncodeEntry(t, p.entries, 0) ==
            Records(1, t.key, Parts(t.key, e.key)) + Records(2, t.mapped, Parts(t.mapped, e.mapped))
  {
    hide EncodeField, Records, Parts;
    FieldIsRecords(1, t.key, p.entries[0].key);
    FieldIsRecords(2, t.mapped, p.entries[0].mapped);
  }

  lemma TakeEntryStep(t: Type, o: Value, p: Value)
    requires t.MapT? && IsPart(t, p) == true
    ensures TakeEntry(t, o, p) ==
            match Fold(t.key, Default(t.key), Parts(t.key, p.entries[0].key))
            case None => None
            case Some(k) =>
              match Fold(t.mapped, Default(t.mapped), Parts(t.mapped, p.entries[0].mapped))
              case None => None
              case Some(m) => Some(Dict(InsertOrAssign(if o.Dict? then o.entries else [], Entry(k, m))))
  {
    hide Fold, Parts, Default, InsertOrAssign;
  }

  lemma {:induction false} EntryLands(t: Type, p: Value, base: nat, o: Value)
    requires t.MapT? && IsPart(t, p) == true && |EncodeEntry(t, p.entries, 0)| < U64
    ensures var r := ReadBody(t, EncodeEntry(t, p.entries, 0), base, o);
            match TakeEntry(t, o, p)
            case None => r.Fail?
            case Some(x) => r == Done(x, |EncodeEntry(t, p.entries, 0)|)
    decreases t, 2, 0
  {
    hide ReadEntry, EncodeEntry, Fold, Parts, Records, Default, TakeEntry, InsertOrAssign, IsPart;
    EntryHead(t, p);
    TakeEntryStep(t, o, p);
    var e := p.entries[0];
    var ks, ms := Parts(t.key, e.key), Parts(t.mapped, e.mapped);
    var kb, mb := Records(1, t.key, ks), Records(2, t.mapped, ms);
    var key, mapped := Default(t.key), Default(t.mapped);
    HalfLands(t, 1, ks, key, mapped, mb, base);
    var k := Fold(t.key, key, ks);
    if k.Some? {
      assert mb + [] == mb;
      HalfLands(t, 2, ms, k.value, mapped, [], base + |kb|);
      if Fold(t.mapped, mapped, ms).Some? {
        EntryEnd(t, k.value, Fold(t.mapped, mapped, ms).value, [], base + |kb| + |mb|);
      }
    }
  }
}
