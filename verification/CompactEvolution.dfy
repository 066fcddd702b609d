// Schema evolution of the compact format, and the round trip as its special case.
module CompactEvolution {
  import opened Bytes
  import opened Schema
  import opened CompactIntegers
  import opened CompactCodec
  import CompactSkip
  import Bitset

  // ---- Which schemas may talk to each other --------------------------------------------------------

  predicate LeafCompatible(w: Leaf, r: Leaf) {
    match w
    case UIntL(a) => r.UIntL? && a.UMax() <= r.width.UMax()
    case IntL(a) => r.IntL? && a.SMax() <= r.width.SMax()
    case _ => w == r
  }

  /** A reader of type `r` may be given what a writer of type `w` wrote: shared field ids agree,
      recursively; integers may widen; alternatives may be added at the end of a variant; a
      fixed-size sequence may be read as any sequence of that length. */
  predicate Compatible(w: Type, r: Type)
    decreases w
  {
    if w.LeafT? then r.LeafT? && LeafCompatible(w.leaf, r.leaf)
    else if w.OptionalT? then r.OptionalT? && Compatible(w.elem, r.elem)
    else if w.VariantT? then
      r.VariantT? && |w.alts| <= |r.alts| && forall i :: 0 <= i < |w.alts| ==> Compatible(w.alts[i], r.alts[i])
    else if w.MapT? then r.MapT? && w.key == r.key && Compatible(w.mapped, r.mapped)
    else if w.ObjectT? then
      r.ObjectT? &&
      forall i, j :: 0 <= i < |w.fields| && 0 <= j < |r.fields| && w.fields[i].id == r.fields[j].id ==>
        Compatible(w.fields[i].ty, r.fields[j].ty)
    else if w.VectorT? then r.VectorT? && Compatible(w.elem, r.elem)
    else
      IsSequence(r) && LengthOk(r, FixedLength(w)) &&
      forall i :: 0 <= i < FixedLength(w) ==> Compatible(ElemType(w, i), ElemType(r, i))
  }

  function FixedLength(t: Type): nat
    requires t.ArrayT? || t.TupleT?
  {
    if t.ArrayT? then t.count else |t.elems|
  }

  /** `v` is a value of the writer's type `w`, and `r` is a reader's type compatible with `w`. */
  predicate Sent(w: Type, v: Value, r: Type) { Typed(w, v) && WellFormed(r) && Compatible(w, r) }

  /** An optional value the wire cannot tell from an empty one. */
  predicate Nullish(v: Value) { v.Nothing? || (v.Just? && Nullish(v.payload)) }

  /** What a reader of type `r` must end up holding when it held `prior` and is sent `v`: shared
      fields take the written value, reader-only fields keep the prior one. */
  function Project(w: Type, v: Value, r: Type, prior: Value): (x: Value)
    requires Sent(w, v, r) == true
    ensures IsSequence(w) ==> x.List? && |x.items| == |v.items|
    decreases w
  {
    if w.LeafT? then v
    else if w.OptionalT? then
      if v.Nothing? || Nullish(v.payload) then Nothing
      else Just(Project(w.elem, v.payload, r.elem, Default(r.elem)))
    else if w.VariantT? then
      Alt(v.index, Project(w.alts[v.index], v.payload, r.alts[v.index], Default(r.alts[v.index])))
    else if w.MapT? then
      Dict(seq(|v.entries|, i requires 0 <= i < |v.entries| =>
        Entry(v.entries[i].key, Project(w.mapped, v.entries[i].mapped, r.mapped, Default(r.mapped)))))
    else if w.ObjectT? then
      Record(seq(|r.fields|, j requires 0 <= j < |r.fields| => ProjectField(w, v.items, r, prior, j)))
    else
      List(seq(|v.items|, i requires 0 <= i < |v.items| =>
        Project(ElemType(w, i), v.items[i], ElemType(r, i), ElemPrior(r, prior, i))))
  }

  function ProjectField(w: Type, vs: seq<Value>, r: Type, prior: Value, j: nat): Value
    requires w.ObjectT? && Sent(w, Record(vs), r) == true && j < |r.fields|
    decreases w, 0
  {
    var i := FieldIndex(w.fields, r.fields[j].id, 0);
    if i < |w.fields| then Project(w.fields[i].ty, vs[i], r.fields[j].ty, Slot(prior, j))
    else Slot(prior, j)
  }

  // ---- The reader ends up with the projection ----------------------------------------------------

  /** For every value, every order of the records of every object in it, every prior content of the
      target, and every buffer around the bytes: the read succeeds, holds the projection, and ends
      exactly after the value. */
  lemma {:induction false} Evolution(w: Type, v: Value, o: Order, r: Type, prior: Value, b: seq<byte>, p: nat)
    requires Sent(w, v, r) == true
    requires At(b, p, EncodeIn(w, v, o))
    ensures Decode(r, prior, b, p) == Ok(Project(w, v, r, prior), p + |EncodeIn(w, v, o)|)
    decreases w, 1, 0
  {
    hide Sent, Typed, WellFormed, HasType, Compatible, Project, EncodeIn, Decode, Default;
    if w.LeafT? {
      LeafFacts(w, v, o, r, prior, b, p);
      LeafDecodes(w.leaf, v, r.leaf, b, p);
    }
    else if w.OptionalT? { OptionalDecodes(w, v, o, r, prior, b, p); }
    else if w.VariantT? { VariantDecodes(w, v, o, r, prior, b, p); }
    else if w.MapT? { MapDecodes(w, v, o, r, prior, b, p); }
    else if w.ObjectT? { ObjectDecodes(w, v, o, r, prior, b, p); }
    else { SequenceDecodes(w, v, o, r, prior, b, p); }
  }

  lemma LeafFacts(w: Type, v: Value, o: Order, r: Type, prior: Value, b: seq<byte>, p: nat)
    requires w.LeafT? && Sent(w, v, r) == true && p <= |b|
    ensures r.LeafT? && LeafHas(w.leaf, v) && LeafCompatible(w.leaf, r.leaf)
    ensures EncodeIn(w, v, o) == EncodeLeaf(w.leaf, v) && Project(w, v, r, prior) == v
    ensures Decode(r, prior, b, p) == DecodeLeaf(r.leaf, b, p)
  {}

  lemma LeafDecodes(w: Leaf, v: Value, r: Leaf, b: seq<byte>, p: nat)
    requires LeafHas(w, v) == true && LeafCompatible(w, r) == true
    requires At(b, p, EncodeLeaf(w, v))
    ensures DecodeLeaf(r, b, p) == Ok(v, p + |EncodeLeaf(w, v)|)
  {
    if w.StringL? || w.BytesL? || w.BitsetL? { BlobLeafDecodes(w, v, r, b, p); }
    else { NumberLeafDecodes(w, v, r, b, p); }
  }

  lemma NumberLeafDecodes(w: Leaf, v: Value, r: Leaf, b: seq<byte>, p: nat)
    requires !w.StringL? && !w.BytesL? && !w.BitsetL?
    requires LeafHas(w, v) == true && LeafCompatible(w, r) == true
    requires At(b, p, EncodeLeaf(w, v))
    ensures DecodeLeaf(r, b, p) == Ok(v, p + |EncodeLeaf(w, v)|)
  {
    hide EncodeUint, EncodeInt, ReadUint, ReadInt, DecodeFloat;
    AtHead(b, p, EncodeLeaf(w, v));
    match w
    case UIntL(_) => UintRoundTrip(v.n, b, p);
    case IntL(_) => IntRoundTrip(v.n, b, p);
    case FloatL => FloatDecodes(FLOAT_HEADER, v.bits, 4, b, p);
    case DoubleL => FloatDecodes(DOUBLE_HEADER, v.bits, 8, b, p);
    case _ =>
  }

  lemma BlobLeafDecodes(w: Leaf, v: Value, r: Leaf, b: seq<byte>, p: nat)
    requires w.StringL? || w.BytesL? || w.BitsetL?
    requires LeafHas(w, v) == true && LeafCompatible(w, r) == true
    requires At(b, p, EncodeLeaf(w, v))
    ensures DecodeLeaf(r, b, p) == Ok(v, p + |EncodeLeaf(w, v)|)
  {
    hide EncodeSize, ReadSize, EncodeBlob, Bitset.Pack, Bitset.Unpack, TrimZeros, Fill;
    match w
    case StringL => BlobDecodes(STRING_BASE, v.bytes, b, p);
    case BytesL(_) =>
      TrimFill(v.bytes);
      BlobDecodes(BYTES_BASE, TrimZeros(v.bytes), b, p);
    case BitsetL(_) =>
      Bitset.UnpackPack(v.flags);
      BlobDecodes(BYTES_BASE, Bitset.Pack(v.flags), b, p);
  }

  lemma FloatDecodes(h: byte, bits: nat, n: nat, b: seq<byte>, p: nat)
    requires (n == 4 && bits < 0x1_0000_0000) || (n == 8 && bits < U64)
    requires At(b, p, [h] + ToLittle(bits, n))
    ensures DecodeFloat(h, n, b, p) == Ok(Float(bits), p + 1 + n)
  {
    AtHead(b, p, [h] + ToLittle(bits, n));
    AtSplit(b, p, [h], ToLittle(bits, n));
    assert Pow256(4) == 0x1_0000_0000;
    Pow256Eight();
    LittleRoundTrip(bits, n);
  }

  /** A size header and that many raw bytes. */
  lemma BlobDecodes(base: byte, s: seq<byte>, b: seq<byte>, p: nat)
    requires IsSizeBase(base) && |s| < U64 && At(b, p, EncodeBlob(base, s))
    ensures var q := p + |EncodeSize(base, |s|)|;
            q <= |b| && ReadSize(base, b, p) == Ok(|s|, q) && ReadRaw(|s|, b, q) == Ok(s, p + |EncodeBlob(base, s)|)
  {
    hide EncodeSize, ReadSize, IsSizeBase;
    AtSplit(b, p, EncodeSize(base, |s|), s);
    SizeRoundTrip(base, |s|, b, p);
  }

  /** An encoding starts with the null header exactly when it is of a nullish value. */
  lemma {:induction false} NullHeaded(t: Type, v: Value, o: Order)
    requires Typed(t, v) == true
    ensures EncodeIn(t, v, o)[0] == NULL_HEADER <==> Nullish(v)
    ensures Nullish(v) ==> EncodeIn(t, v, o) == [NULL_HEADER]
  {
    if t.OptionalT? && v.Just? { NullHeaded(t.elem, v.payload, o); }
  }

  lemma {:induction false} OptionalDecodes(w: Type, v: Value, o: Order, r: Type, prior: Value, b: seq<byte>, p: nat)
    requires w.OptionalT? && Sent(w, v, r) == true
    requires At(b, p, EncodeIn(w, v, o))
    ensures Decode(r, prior, b, p) == Ok(Project(w, v, r, prior), p + |EncodeIn(w, v, o)|)
    decreases w, 0, U64
  {
    AtHead(b, p, EncodeIn(w, v, o));
    NullHeaded(w, v, o);
    if !Nullish(v) { Evolution(w.elem, v.payload, o, r.elem, Default(r.elem), b, p); }
  }

  lemma VariantFacts(w: Type, v: Value, o: Order, r: Type, prior: Value)
    requires w.VariantT? && Sent(w, v, r) == true
    ensures v.Alt? && r.VariantT? && v.index < |w.alts| && v.index < |r.alts| && v.index < U64
    ensures Sent(w.alts[v.index], v.payload, r.alts[v.index])
    ensures Typed(w, v) && Typed(w.alts[v.index], v.payload)
    ensures EncodeIn(w, v, o) ==
            EncodeSize(ARRAY_BASE, 2) + EncodeUint(v.index) + EncodeIn(w.alts[v.index], v.payload, o)
    ensures Project(w, v, r, prior) ==
            Alt(v.index, Project(w.alts[v.index], v.payload, r.alts[v.index], Default(r.alts[v.index])))
  {}

  lemma VariantRead(r: Type, prior: Value, b: seq<byte>, p: nat)
    requires r.VariantT? && p <= |b| && ReadSize(ARRAY_BASE, b, p).Ok? && ReadSize(ARRAY_BASE, b, p).val == 2
    requires ReadUint(b, ReadSize(ARRAY_BASE, b, p).pos).Ok?
    ensures var i := ReadUint(b, ReadSize(ARRAY_BASE, b, p).pos);
            i.val < |r.alts| ==>
              (var d := Decode(r.alts[i.val], Default(r.alts[i.val]), b, i.pos);
               d.Ok? ==> Decode(r, prior, b, p) == Ok(Alt(i.val, d.val), d.pos))
  {
    assert DecodeVariant(r, b, p) == DecodeAlt(r, b, ReadSize(ARRAY_BASE, b, p).pos);
  }

  lemma {:induction false} VariantDecodes(w: Type, v: Value, o: Order, r: Type, prior: Value, b: seq<byte>, p: nat)
    requires w.VariantT? && Sent(w, v, r) == true
    requires At(b, p, EncodeIn(w, v, o))
    ensures Decode(r, prior, b, p) == Ok(Project(w, v, r, prior), p + |EncodeIn(w, v, o)|)
    decreases w, 0, U64
  {
    hide Sent, Typed, WellFormed, HasType, Compatible, Project, EncodeIn, Decode, Default, EncodeUint, ReadUint,
      EncodeSize, ReadSize;
    VariantFacts(w, v, o, r, prior);
    var h := EncodeSize(ARRAY_BASE, 2);
    var x := EncodeUint(v.index);
    var e := EncodeIn(w.alts[v.index], v.payload, o);
    AtSplit(b, p, h + x, e);
    AtSplit(b, p, h, x);
    SizeRoundTrip(ARRAY_BASE, 2, b, p);
    UintRoundTrip(v.index, b, p + |h|);
    Evolution(w.alts[v.index], v.payload, o, r.alts[v.index], Default(r.alts[v.index]), b, p + |h + x|);
    VariantRead(r, prior, b, p);
  }

  lemma SequenceFacts(w: Type, v: Value, o: Order, r: Type)
    requires IsSequence(w) && Sent(w, v, r) == true
    ensures v == List(v.items) && |v.items| < U64 && IsSequence(r) && Typed(w, v)
    ensures LengthOk(r, |v.items|) && LengthOk(w, |v.items|)
    ensures EncodeIn(w, v, o) == EncodeSize(ARRAY_BASE, |v.items|) + EncodeElems(w, v.items, o, 0)
  {}

  lemma SequenceRead(r: Type, prior: Value, b: seq<byte>, p: nat)
    requires IsSequence(r) && p <= |b| && ReadSize(ARRAY_BASE, b, p).Ok? && LengthOk(r, ReadSize(ARRAY_BASE, b, p).val)
    ensures var x := ReadSize(ARRAY_BASE, b, p);
            Decode(r, prior, b, p) == DecodeElems(r, prior, x.val, [], b, x.pos)
  {}

  lemma {:induction false} SequenceDecodes(w: Type, v: Value, o: Order, r: Type, prior: Value, b: seq<byte>, p: nat)
    requires IsSequence(w) && Sent(w, v, r) == true
    requires At(b, p, EncodeIn(w, v, o))
    ensures Decode(r, prior, b, p) == Ok(Project(w, v, r, prior), p + |EncodeIn(w, v, o)|)
    decreases w, 0, U64
  {
    hide Sent, Typed, WellFormed, HasType, Compatible, Project, EncodeIn, Decode, Default, EncodeElems, DecodeElems,
      EncodeSize, ReadSize;
    SequenceFacts(w, v, o, r);
    ProjectList(w, v.items, r, prior);
    var h := EncodeSize(ARRAY_BASE, |v.items|);
    AtSplit(b, p, h, EncodeElems(w, v.items, o, 0));
    SizeRoundTrip(ARRAY_BASE, |v.items|, b, p);
    SequenceRead(r, prior, b, p);
    ElemsDecode(w, v.items, o, r, prior, 0, b, p + |h|);
    assert Project(w, v, r, prior).items[..0] == [];
  }

  lemma ProjectList(w: Type, vs: seq<Value>, r: Type, prior: Value)
    requires IsSequence(w) && Sent(w, List(vs), r) == true
    ensures var x := Project(w, List(vs), r, prior); x == List(x.items)
  {}

  lemma ElemFacts(w: Type, vs: seq<Value>, r: Type, prior: Value, i: nat)
    requires IsSequence(w) && Sent(w, List(vs), r) == true && i < |vs|
    ensures IsSequence(r) && LengthOk(r, |vs|) && LengthOk(w, |vs|)
    ensures Typed(w, List(vs)) && Sent(ElemType(w, i), vs[i], ElemType(r, i))
    ensures Typed(ElemType(w, i), vs[i])
    ensures Project(w, List(vs), r, prior).items[i] ==
            Project(ElemType(w, i), vs[i], ElemType(r, i), ElemPrior(r, prior, i))
  {}

  lemma DecodeElemStep(r: Type, prior: Value, n: nat, acc: seq<Value>, b: seq<byte>, p: nat)
    requires p <= |b| && IsSequence(r) && |acc| < n && LengthOk(r, n)
    ensures var d := Decode(ElemType(r, |acc|), ElemPrior(r, prior, |acc|), b, p);
            d.Ok? ==> DecodeElems(r, prior, n, acc, b, p) == DecodeElems(r, prior, n, acc + [d.val], b, d.pos)
  {}

  lemma DecodeElemsEnd(r: Type, prior: Value, acc: seq<Value>, b: seq<byte>, p: nat)
    requires p <= |b| && IsSequence(r) && LengthOk(r, |acc|)
    ensures DecodeElems(r, prior, |acc|, acc, b, p) == Ok(List(acc), p)
  {}

  lemma {:induction false} ElemsDecode(
      w: Type, vs: seq<Value>, o: Order, r: Type, prior: Value, i: nat, b: seq<byte>, p: nat)
    requires IsSequence(w) && Sent(w, List(vs), r) == true
    requires i <= |vs| && At(b, p, EncodeElems(w, vs, o, i))
    ensures var x := Project(w, List(vs), r, prior);
            DecodeElems(r, prior, |vs|, x.items[..i], b, p) == Ok(x, p + |EncodeElems(w, vs, o, i)|)
    decreases w, 0, |vs| - i
  {
    hide Sent, Typed, WellFormed, HasType, Compatible, Project, EncodeIn, Decode, Default, DecodeElems;
    SequenceFacts(w, List(vs), o, r);
    var x := Project(w, List(vs), r, prior);
    if i == |vs| {
      ProjectList(w, vs, r, prior);
      assert x.items[..i] == x.items;
      DecodeElemsEnd(r, prior, x.items, b, p);
    } else {
      ElemFacts(w, vs, r, prior, i);
      var e := EncodeIn(ElemType(w, i), vs[i], Kid(o, i));
      AtSplit(b, p, e, EncodeElems(w, vs, o, i + 1));
      Evolution(ElemType(w, i), vs[i], Kid(o, i), ElemType(r, i), ElemPrior(r, prior, i), b, p);
      DecodeElemStep(r, prior, |vs|, x.items[..i], b, p);
      assert x.items[..i + 1] == x.items[..i] + [x.items[i]];
      ElemsDecode(w, vs, o, r, prior, i + 1, b, p + |e|);
    }
  }

  // ---- Maps --------------------------------------------------------------------------------------

  /** Emplacing a key greater than all present ones appends it. */
  lemma {:induction false} EmplaceLast(es: seq<Entry>, e: Entry)
    requires forall i :: 0 <= i < |es| ==> Compare(es[i].key, e.key) < 0
    ensures Emplace(es, e) == Some(es + [e])
  {
    if es == [] {
      assert es + [e] == [e];
    } else {
      EmplaceLast(es[1..], e);
      assert es + [e] == [es[0]] + (es[1..] + [e]);
    }
  }

  lemma MapFacts(w: Type, v: Value, o: Order, r: Type, prior: Value)
    requires w.MapT? && Sent(w, v, r) == true
    ensures v.Dict? && |v.entries| < U64 && r.MapT? && r.key == w.key
    ensures Typed(w, v) && v == Dict(v.entries)
    ensures EncodeIn(w, v, o) == EncodeSize(MAP_BASE, |v.entries|) + EncodeEntries(w, v.entries, o, 0)
    ensures var x := Project(w, v, r, prior); x.Dict? && |x.entries| == |v.entries| && x == Dict(x.entries)
  {}

  lemma MapRead(r: Type, prior: Value, b: seq<byte>, p: nat)
    requires r.MapT? && p <= |b| && ReadSize(MAP_BASE, b, p).Ok?
    ensures var x := ReadSize(MAP_BASE, b, p);
            Decode(r, prior, b, p) == DecodeEntries(r, x.val, [], b, x.pos)
  {}

  lemma {:induction false} MapDecodes(w: Type, v: Value, o: Order, r: Type, prior: Value, b: seq<byte>, p: nat)
    requires w.MapT? && Sent(w, v, r) == true
    requires At(b, p, EncodeIn(w, v, o))
    ensures Decode(r, prior, b, p) == Ok(Project(w, v, r, prior), p + |EncodeIn(w, v, o)|)
    decreases w, 0, U64
  {
    hide Sent, Typed, WellFormed, HasType, Compatible, Project, EncodeIn, Decode, Default, EncodeEntries,
      DecodeEntries, EncodeSize, ReadSize;
    MapFacts(w, v, o, r, prior);
    var h := EncodeSize(MAP_BASE, |v.entries|);
    AtSplit(b, p, h, EncodeEntries(w, v.entries, o, 0));
    SizeRoundTrip(MAP_BASE, |v.entries|, b, p);
    MapRead(r, prior, b, p);
    EntriesDecode(w, v.entries, o, r, prior, 0, b, p + |h|);
    assert Project(w, v, r, prior).entries[..0] == [];
  }

  lemma EntryFacts(w: Type, es: seq<Entry>, r: Type, prior: Value, i: nat)
    requires w.MapT? && Sent(w, Dict(es), r) == true && i < |es|
    ensures KeyType(w.key) && Typed(w.key, es[i].key) && Typed(w.mapped, es[i].mapped)
    ensures Sent(w.mapped, es[i].mapped, r.mapped)
    ensures Project(w, Dict(es), r, prior).entries[i] ==
            Entry(es[i].key, Project(w.mapped, es[i].mapped, r.mapped, Default(r.mapped)))
  {}

  lemma EntryOrder(w: Type, es: seq<Entry>, r: Type, prior: Value, i: nat)
    requires w.MapT? && Sent(w, Dict(es), r) == true && i < |es|
    ensures var x := Project(w, Dict(es), r, prior).entries;
            forall j :: 0 <= j < i ==> Compare(x[..i][j].key, x[i].key) < 0
  {}

  /** The key and the mapped value at `p`, read into fresh objects. */
  lemma {:induction false} EntryDecodes(
      w: Type, es: seq<Entry>, o: Order, r: Type, i: nat, b: seq<byte>, p: nat)
    requires w.MapT? && Sent(w, Dict(es), r) == true && i < |es|
    requires r.MapT? && r.key == w.key && Typed(w.key, es[i].key) == true && Typed(w.mapped, es[i].mapped) == true
    requires Sent(w.mapped, es[i].mapped, r.mapped) == true && KeyType(w.key) == true
    requires At(b, p, EncodeIn(w.key, es[i].key, Plain) + EncodeIn(w.mapped, es[i].mapped, Kid(o, i)))
    ensures var k := EncodeIn(w.key, es[i].key, Plain);
            var m := EncodeIn(w.mapped, es[i].mapped, Kid(o, i));
            p + |k + m| <= |b| &&
            Decode(r.key, Default(r.key), b, p) == Ok(es[i].key, p + |k|) &&
            Decode(r.mapped, Default(r.mapped), b, p + |k|) ==
            Ok(Project(w.mapped, es[i].mapped, r.mapped, Default(r.mapped)), p + |k + m|)
    decreases w, 0, 0
  {
    hide Sent, Typed, WellFormed, HasType, Compatible, Project, EncodeIn, Decode, Default, KeyType;
    KeyUnchanged(w.key, es[i].key, Default(r.key));
    var k := EncodeIn(w.key, es[i].key, Plain);
    AtSplit(b, p, k, EncodeIn(w.mapped, es[i].mapped, Kid(o, i)));
    Evolution(w.key, es[i].key, Plain, r.key, Default(r.key), b, p);
    Evolution(w.mapped, es[i].mapped, Kid(o, i), r.mapped, Default(r.mapped), b, p + |k|);
  }

  lemma EntriesEnd(r: Type, acc: seq<Entry>, b: seq<byte>, p: nat)
    requires r.MapT? && p <= |b|
    ensures DecodeEntries(r, 0, acc, b, p) == Ok(Dict(acc), p)
  {}

  lemma EntryStep(r: Type, n: nat, acc: seq<Entry>, b: seq<byte>, p: nat)
    requires r.MapT? && n > 0 && p <= |b| && Decode(r.key, Default(r.key), b, p).Ok?
    requires Decode(r.mapped, Default(r.mapped), b, Decode(r.key, Default(r.key), b, p).pos).Ok?
    ensures var k := Decode(r.key, Default(r.key), b, p);
            var m := Decode(r.mapped, Default(r.mapped), b, k.pos);
            var acc' := Emplace(acc, Entry(k.val, m.val));
            acc'.Some? ==> DecodeEntries(r, n, acc, b, p) == DecodeEntries(r, n - 1, acc'.value, b, m.pos)
  {}

  lemma {:induction false} EntriesDecode(
      w: Type, es: seq<Entry>, o: Order, r: Type, prior: Value, i: nat, b: seq<byte>, p: nat)
    requires w.MapT? && Sent(w, Dict(es), r) == true
    requires i <= |es| && At(b, p, EncodeEntries(w, es, o, i))
    ensures r.MapT?
    ensures var x := Project(w, Dict(es), r, prior);
            DecodeEntries(r, |es| - i, x.entries[..i], b, p) == Ok(x, p + |EncodeEntries(w, es, o, i)|)
    decreases w, 0, |es| - i
  {
    hide Sent, Typed, WellFormed, HasType, Compatible, Project, EncodeIn, Decode, Default, DecodeEntries, KeyType,
      Compare, Emplace, Sorted;
    MapFacts(w, Dict(es), o, r, prior);
    var x := Project(w, Dict(es), r, prior);
    if i == |es| {
      assert x.entries[..i] == x.entries;
      EntriesEnd(r, x.entries, b, p);
    } else {
      EntryFacts(w, es, r, prior, i);
      EntryOrder(w, es, r, prior, i);
      var e := EncodeIn(w.key, es[i].key, Plain) + EncodeIn(w.mapped, es[i].mapped, Kid(o, i));
      AtSplit(b, p, e, EncodeEntries(w, es, o, i + 1));
      EntryDecodes(w, es, o, r, i, b, p);
      EmplaceLast(x.entries[..i], x.entries[i]);
      EntryStep(r, |es| - i, x.entries[..i], b, p);
      assert x.entries[..i + 1] == x.entries[..i] + [x.entries[i]];
      EntriesDecode(w, es, o, r, prior, i + 1, b, p + |e|);
    }
  }

  lemma KeyUnchanged(t: Type, v: Value, prior: Value)
    requires KeyType(t) && Typed(t, v) == true
    ensures Sent(t, v, t) && Project(t, v, t, prior) == v
  {
    SelfCompatible(t);
    KeyHasNoHiddenNull(t, v);
    ProjectSelf(t, v, prior);
  }

  // ---- Objects -------------------------------------------------------------------------------------

  /** The reader's fields once the first `k` records on the wire have been applied. */
  function After(w: Type, vs: seq<Value>, r: Type, prior: Value, perm: seq<nat>, k: nat): (c: seq<Value>)
    requires w.ObjectT? && Sent(w, Record(vs), r) == true && k <= |perm|
    ensures |c| == |r.fields|
  {
    seq(|r.fields|, j requires 0 <= j < |r.fields| =>
      if FieldIndex(w.fields, r.fields[j].id, 0) in perm[..k] then ProjectField(w, vs, r, prior, j)
      else Slot(prior, j))
  }

  lemma AfterStep(w: Type, vs: seq<Value>, r: Type, prior: Value, perm: seq<nat>, k: nat)
    requires w.ObjectT? && Sent(w, Record(vs), r) == true
    requires IsPermutation(perm, |vs|) && k < |vs|
    ensures var j := FieldIndex(r.fields, w.fields[perm[k]].id, 0);
            var c := After(w, vs, r, prior, perm, k);
            After(w, vs, r, prior, perm, k + 1) ==
            if j < |r.fields| then c[j := ProjectField(w, vs, r, prior, j)] else c
    ensures var j := FieldIndex(r.fields, w.fields[perm[k]].id, 0);
            j < |r.fields| ==> After(w, vs, r, prior, perm, k)[j] == Slot(prior, j)
  {
    var i := perm[k];
    var id := w.fields[i].id;
    FieldIndexUnique(w.fields, i);
    assert i !in perm[..k];
    assert perm[..k + 1] == perm[..k] + [i];
    var j := FieldIndex(r.fields, id, 0);
    forall l: nat | l < |r.fields| && l != j
      ensures FieldIndex(w.fields, r.fields[l].id, 0) != i
    {}
  }

  lemma ObjectFacts(w: Type, v: Value, o: Order, r: Type, prior: Value)
    requires w.ObjectT? && Sent(w, v, r) == true
    ensures v.Record? && |v.items| == |w.fields| < U64 && r.ObjectT?
    ensures Typed(w, v) && v == Record(v.items)
    ensures EncodeIn(w, v, o) ==
            EncodeSize(OBJECT_BASE, |w.fields|) + EncodeRecords(w, v.items, o, Permutation(o, |w.fields|), 0)
    ensures After(w, v.items, r, prior, Permutation(o, |w.fields|), 0) == Slots(r, prior)
  {}

  lemma {:induction false} ObjectDecodes(w: Type, v: Value, o: Order, r: Type, prior: Value, b: seq<byte>, p: nat)
    requires w.ObjectT? && Sent(w, v, r) == true
    requires At(b, p, EncodeIn(w, v, o))
    ensures Decode(r, prior, b, p) == Ok(Project(w, v, r, prior), p + |EncodeIn(w, v, o)|)
    decreases w, 0, U64
  {
    hide Sent, Typed, WellFormed, HasType, Compatible, Project, EncodeIn, Decode, Default, EncodeRecords,
      DecodeRecords, EncodeSize, ReadSize, After, Slots, Permutation;
    ObjectFacts(w, v, o, r, prior);
    var n := |w.fields|;
    var h := EncodeSize(OBJECT_BASE, n);
    AtSplit(b, p, h, EncodeRecords(w, v.items, o, Permutation(o, n), 0));
    SizeRoundTrip(OBJECT_BASE, n, b, p);
    ObjectRead(r, prior, b, p);
    RecordsDecode(w, v.items, o, Permutation(o, n), 0, r, prior, b, p + |h|);
  }

  lemma ObjectRead(r: Type, prior: Value, b: seq<byte>, p: nat)
    requires r.ObjectT? && p <= |b| && ReadSize(OBJECT_BASE, b, p).Ok?
    ensures var x := ReadSize(OBJECT_BASE, b, p);
            Decode(r, prior, b, p) == DecodeRecords(r, x.val, Slots(r, prior), b, x.pos)
  {}

  lemma FieldStep(r: Type, n: nat, cur: seq<Value>, b: seq<byte>, p: nat)
    requires r.ObjectT? && |cur| == |r.fields| && n > 0 && p <= |b|
    requires ReadUint(b, p).Ok? && ReadUint(b, p).val > 0
    requires FieldIndex(r.fields, ReadUint(b, p).val, 0) < |r.fields|
    ensures var id := ReadUint(b, p);
            var j := FieldIndex(r.fields, id.val, 0);
            var d := Decode(r.fields[j].ty, cur[j], b, id.pos);
            d.Ok? ==> DecodeRecords(r, n, cur, b, p) == DecodeRecords(r, n - 1, cur[j := d.val], b, d.pos)
  {
    hide Decode, Skip;
  }

  lemma SkipStep(r: Type, n: nat, cur: seq<Value>, b: seq<byte>, p: nat)
    requires r.ObjectT? && |cur| == |r.fields| && n > 0 && p <= |b|
    requires ReadUint(b, p).Ok? && ReadUint(b, p).val > 0
    requires FieldIndex(r.fields, ReadUint(b, p).val, 0) == |r.fields|
    ensures var d := Skip(b, ReadUint(b, p).pos).res;
            d.Ok? ==> DecodeRecords(r, n, cur, b, p) == DecodeRecords(r, n - 1, cur, b, d.pos)
  {}

  /** The bytes of the record of field `i`. */
  function RecordBytes(w: Type, vs: seq<Value>, o: Order, i: nat): seq<byte>
    requires w.ObjectT? && Typed(w, Record(vs)) == true && i < |vs|
  {
    EncodeUint(w.fields[i].id) + EncodeIn(w.fields[i].ty, vs[i], Kid(o, i))
  }

  lemma AfterAll(w: Type, vs: seq<Value>, r: Type, prior: Value, perm: seq<nat>)
    requires w.ObjectT? && Sent(w, Record(vs), r) == true && IsPermutation(perm, |vs|)
    ensures Record(After(w, vs, r, prior, perm, |vs|)) == Project(w, Record(vs), r, prior)
  {
    forall i: nat | i < |vs| ensures i in perm[..|vs|] {
      PermutationCovers(perm, |vs|, i);
      assert perm[..|vs|] == perm;
    }
    assert After(w, vs, r, prior, perm, |vs|) == Project(w, Record(vs), r, prior).items;
  }

  lemma RecordsEnd(w: Type, vs: seq<Value>, o: Order, perm: seq<nat>, r: Type, cur: seq<Value>, b: seq<byte>, p: nat)
    requires w.ObjectT? && Typed(w, Record(vs)) == true && IsPermutation(perm, |vs|)
    requires r.ObjectT? && |cur| == |r.fields| && p <= |b|
    ensures EncodeRecords(w, vs, o, perm, |vs|) == [] && DecodeRecords(r, 0, cur, b, p) == Ok(Record(cur), p)
  {}

  lemma RecordSplit(w: Type, vs: seq<Value>, o: Order, perm: seq<nat>, k: nat)
    requires w.ObjectT? && Typed(w, Record(vs)) == true && IsPermutation(perm, |vs|) && k < |vs|
    ensures EncodeRecords(w, vs, o, perm, k) == RecordBytes(w, vs, o, perm[k]) + EncodeRecords(w, vs, o, perm, k + 1)
  {}

  lemma {:induction false} RecordsDecode(
      w: Type, vs: seq<Value>, o: Order, perm: seq<nat>, k: nat, r: Type, prior: Value, b: seq<byte>, p: nat)
    requires w.ObjectT? && Sent(w, Record(vs), r) == true
    requires IsPermutation(perm, |vs|) && k <= |vs| && At(b, p, EncodeRecords(w, vs, o, perm, k))
    ensures DecodeRecords(r, |vs| - k, After(w, vs, r, prior, perm, k), b, p) ==
            Ok(Project(w, Record(vs), r, prior), p + |EncodeRecords(w, vs, o, perm, k)|)
    decreases w, 0, |vs| - k
  {
    hide Sent, Typed, WellFormed, HasType, Compatible, Project, EncodeIn, Decode, Default, After, RecordBytes,
      DecodeRecords, EncodeRecords;
    ObjectFacts(w, Record(vs), o, r, prior);
    if k == |vs| {
      AfterAll(w, vs, r, prior, perm);
      RecordsEnd(w, vs, o, perm, r, After(w, vs, r, prior, perm, k), b, p);
    } else {
      RecordSplit(w, vs, o, perm, k);
      var e := RecordBytes(w, vs, o, perm[k]);
      AtSplit(b, p, e, EncodeRecords(w, vs, o, perm, k + 1));
      RecordDecodes(w, vs, o, perm, k, r, prior, b, p);
      RecordsDecode(w, vs, o, perm, k + 1, r, prior, b, p + |e|);
    }
  }

  lemma FieldFacts(w: Type, vs: seq<Value>, o: Order, r: Type, prior: Value, i: nat)
    requires w.ObjectT? && Sent(w, Record(vs), r) == true && i < |vs|
    ensures 0 < w.fields[i].id < U64 && r.ObjectT? && i < |w.fields|
    ensures Typed(w, Record(vs)) && Typed(w.fields[i].ty, vs[i])
    ensures RecordBytes(w, vs, o, i) == EncodeUint(w.fields[i].id) + EncodeIn(w.fields[i].ty, vs[i], Kid(o, i))
    ensures var j := FieldIndex(r.fields, w.fields[i].id, 0);
            j < |r.fields| ==>
              (Sent(w.fields[i].ty, vs[i], r.fields[j].ty) &&
               ProjectField(w, vs, r, prior, j) == Project(w.fields[i].ty, vs[i], r.fields[j].ty, Slot(prior, j)))
    ensures FieldIndex(r.fields, w.fields[i].id, 0) == |r.fields| ==>
              Sent(w.fields[i].ty, vs[i], w.fields[i].ty)
  {
    FieldIndexUnique(w.fields, i);
    SelfCompatible(w.fields[i].ty);
  }

  /** One record: a shared field is decoded into its slot, any other value is skipped whole. */
  lemma {:induction false} RecordDecodes(
      w: Type, vs: seq<Value>, o: Order, perm: seq<nat>, k: nat, r: Type, prior: Value, b: seq<byte>, p: nat)
    requires w.ObjectT? && Sent(w, Record(vs), r) == true
    requires IsPermutation(perm, |vs|) && k < |vs| && At(b, p, RecordBytes(w, vs, o, perm[k]))
    ensures DecodeRecords(r, |vs| - k, After(w, vs, r, prior, perm, k), b, p) ==
            DecodeRecords(r, |vs| - k - 1, After(w, vs, r, prior, perm, k + 1), b, p + |RecordBytes(w, vs, o, perm[k])|)
    decreases w, 0, |vs| - k, 0
  {
    hide Sent, Typed, WellFormed, HasType, Compatible, Project, EncodeIn, Decode, Default, ProjectField, After, Skip,
      RecordBytes, DecodeRecords, EncodeUint, ReadUint;
    var i := perm[k];
    FieldFacts(w, vs, o, r, prior, i);
    AfterStep(w, vs, r, prior, perm, k);
    var id := w.fields[i].id;
    var j := FieldIndex(r.fields, id, 0);
    var cur := After(w, vs, r, prior, perm, k);
    var x := EncodeUint(id);
    AtSplit(b, p, x, EncodeIn(w.fields[i].ty, vs[i], Kid(o, i)));
    UintRoundTrip(id, b, p);
    if j < |r.fields| {
      Evolution(w.fields[i].ty, vs[i], Kid(o, i), r.fields[j].ty, Slot(prior, j), b, p + |x|);
      FieldStep(r, |vs| - k, cur, b, p);
    } else {
      Evolution(w.fields[i].ty, vs[i], Kid(o, i), w.fields[i].ty, vs[i], b, p + |x|);
      CompactSkip.SkipAgrees(w.fields[i].ty, vs[i], b, p + |x|);
      SkipStep(r, |vs| - k, cur, b, p);
    }
  }

  // ---- Same schema on both sides -------------------------------------------------------------------

  lemma {:induction false} SelfCompatible(t: Type)
    requires WellFormed(t) == true
    ensures Compatible(t, t)
    decreases t
  {
    if t.VariantT? {
      forall i | 0 <= i < |t.alts| ensures Compatible(t.alts[i], t.alts[i]) { SelfCompatible(t.alts[i]); }
    } else if t.MapT? {
      SelfCompatible(t.mapped);
    } else if t.ObjectT? {
      forall i, j | 0 <= i < |t.fields| && 0 <= j < |t.fields| && t.fields[i].id == t.fields[j].id
        ensures Compatible(t.fields[i].ty, t.fields[j].ty)
      {
        assert i == j;
        SelfCompatible(t.fields[i].ty);
      }
    } else if t.TupleT? {
      forall i | 0 <= i < |t.elems| ensures Compatible(t.elems[i], t.elems[i]) { SelfCompatible(t.elems[i]); }
    } else if !t.LeafT? {
      SelfCompatible(t.elem);
    }
  }

  /** Fields may be added, removed and reordered freely, so long as an id in both schemas names one type. */
  lemma SharedFields(w: Type, r: Type)
    requires w.ObjectT? && r.ObjectT? && WellFormed(w) == true && WellFormed(r) == true
    requires forall i, j :: 0 <= i < |w.fields| && 0 <= j < |r.fields| && w.fields[i].id == r.fields[j].id ==>
               w.fields[i].ty == r.fields[j].ty
    ensures Compatible(w, r) && Compatible(r, w)
  {
    forall i | 0 <= i < |w.fields| ensures Compatible(w.fields[i].ty, w.fields[i].ty) {
      SelfCompatible(w.fields[i].ty);
    }
  }

  /** No engaged optional holds an empty optional, at any depth. */
  predicate NoHiddenNull(v: Value)
    decreases v
  {
    match v
    case List(vs) => forall i :: 0 <= i < |vs| ==> NoHiddenNull(vs[i])
    case Record(vs) => forall i :: 0 <= i < |vs| ==> NoHiddenNull(vs[i])
    case Just(x) => !x.Nothing? && NoHiddenNull(x)
    case Alt(_, x) => NoHiddenNull(x)
    case Dict(es) => forall i :: 0 <= i < |es| ==> NoHiddenNull(es[i].mapped)
    case _ => true
  }

  lemma {:induction false} KeyHasNoHiddenNull(t: Type, v: Value)
    requires KeyType(t) == true && HasType(t, v) == true
    ensures NoHiddenNull(v)
    decreases t
  {
    if t.OptionalT? {
      if v.Just? { KeyHasNoHiddenNull(t.elem, v.payload); }
    } else if t.VariantT? {
      KeyHasNoHiddenNull(t.alts[v.index], v.payload);
    } else if IsSequence(t) {
      forall i | 0 <= i < |v.items| ensures NoHiddenNull(v.items[i]) {
        KeyHasNoHiddenNull(ElemType(t, i), v.items[i]);
      }
    }
  }

  lemma {:induction false} NullishHidden(v: Value)
    requires Nullish(v) && v.Just?
    ensures !NoHiddenNull(v)
  {
    if v.payload.Just? { NullishHidden(v.payload); }
  }

  lemma ObjectItem(t: Type, v: Value, prior: Value, i: nat)
    requires t.ObjectT? && Sent(t, v, t) == true && i < |v.items|
    ensures i < |t.fields| && Sent(t.fields[i].ty, v.items[i], t.fields[i].ty)
    ensures var x := Project(t, v, t, prior);
            x.Record? && |x.items| == |v.items| &&
            x.items[i] == Project(t.fields[i].ty, v.items[i], t.fields[i].ty, Slot(prior, i))
  {
    FieldIndexUnique(t.fields, i);
  }

  /** With one schema on both sides the projection is the written value, whatever the target held,
      exactly when no engaged optional holds an empty one. */
  lemma {:induction false} ProjectSelf(t: Type, v: Value, prior: Value)
    requires Sent(t, v, t) == true
    ensures Project(t, v, t, prior) == v <==> NoHiddenNull(v)
    decreases t, 1
  {
    if t.OptionalT? {
      if v.Just? {
        ProjectSelf(t.elem, v.payload, Default(t.elem));
        if v.payload.Just? && Nullish(v.payload) { NullishHidden(v.payload); }
      }
    } else if t.VariantT? {
      ProjectSelf(t.alts[v.index], v.payload, Default(t.alts[v.index]));
    } else if t.MapT? {
      MapSelf(t, v, prior);
    } else if t.ObjectT? {
      ObjectSelf(t, v, prior);
    } else if IsSequence(t) {
      SequenceSelf(t, v, prior);
    }
  }

  lemma {:induction false} MapSelf(t: Type, v: Value, prior: Value)
    requires t.MapT? && Sent(t, v, t) == true
    ensures Project(t, v, t, prior) == v <==> NoHiddenNull(v)
    decreases t, 0
  {
    hide Sent, Typed, WellFormed, HasType, Compatible, Project, Default, EncodeIn, EncodeEntries;
    var x := Project(t, v, t, prior);
    MapFacts(t, v, Plain, t, prior);
    forall i | 0 <= i < |v.entries|
      ensures x.entries[i] == v.entries[i] <==> NoHiddenNull(v.entries[i].mapped)
    {
      EntryFacts(t, v.entries, t, prior, i);
      ProjectSelf(t.mapped, v.entries[i].mapped, Default(t.mapped));
    }
    SameItems(x.entries, v.entries);
  }

  lemma {:induction false} ObjectSelf(t: Type, v: Value, prior: Value)
    requires t.ObjectT? && Sent(t, v, t) == true
    ensures Project(t, v, t, prior) == v <==> NoHiddenNull(v)
    decreases t, 0
  {
    hide Sent, Typed, WellFormed, HasType, Compatible, Project, Default, EncodeIn, After, Slots, EncodeRecords;
    ObjectFacts(t, v, Plain, t, prior);
    ObjectProjects(t, v, prior);
    var x := Project(t, v, t, prior);
    forall i | 0 <= i < |v.items| ensures x.items[i] == v.items[i] <==> NoHiddenNull(v.items[i]) {
      ObjectItem(t, v, prior, i);
      ProjectSelf(t.fields[i].ty, v.items[i], Slot(prior, i));
    }
    SameItems(x.items, v.items);
  }

  lemma ObjectProjects(t: Type, v: Value, prior: Value)
    requires t.ObjectT? && Sent(t, v, t) == true
    ensures var x := Project(t, v, t, prior); x == Record(x.items) && |x.items| == |v.items|
  {}

  lemma {:induction false} SequenceSelf(t: Type, v: Value, prior: Value)
    requires IsSequence(t) && Sent(t, v, t) == true
    ensures Project(t, v, t, prior) == v <==> NoHiddenNull(v)
    decreases t, 0
  {
    hide Sent, Typed, WellFormed, HasType, Compatible, Project, Default, EncodeIn, EncodeElems;
    SequenceFacts(t, v, Plain, t);
    ProjectList(t, v.items, t, prior);
    var x := Project(t, v, t, prior);
    forall i | 0 <= i < |v.items| ensures x.items[i] == v.items[i] <==> NoHiddenNull(v.items[i]) {
      ElemFacts(t, v.items, t, prior, i);
      ProjectSelf(ElemType(t, i), v.items[i], ElemPrior(t, prior, i));
    }
    SameItems(x.items, v.items);
  }

  lemma SameItems<T>(a: seq<T>, b: seq<T>)
    requires |a| == |b|
    ensures a == b <==> forall i :: 0 <= i < |a| ==> a[i] == b[i]
  {}

  /** Decoding an encoding, with any bytes around it and any prior content, returns the value and
      consumes exactly the encoding - if and only if no engaged optional holds an empty one. */
  lemma RoundTrip(t: Type, v: Value, prior: Value, pre: seq<byte>, suffix: seq<byte>)
    requires Typed(t, v) == true
    ensures var e := Encode(t, v);
            Decode(t, prior, pre + e + suffix, |pre|) == Ok(v, |pre + e|) <==> NoHiddenNull(v)
  {
    var e := Encode(t, v);
    AtMiddle(pre, e, suffix);
    SelfCompatible(t);
    Evolution(t, v, Plain, t, prior, pre + e + suffix, |pre|);
    ProjectSelf(t, v, prior);
  }

  /** The smallest loss: an engaged optional holding an empty one comes back empty. */
  lemma HiddenNullLost()
    ensures var t := OptionalT(OptionalT(LeafT(BoolL)));
            WellFormed(t) && HasType(t, Just(Nothing)) &&
            Encode(t, Just(Nothing)) == [NULL_HEADER] &&
            Decode(t, Nothing, [NULL_HEADER], 0) == Ok(Nothing, 1)
  {}

  /** Decoding an encoding ends exactly behind it, whatever bytes follow. */
  lemma EncodingEnds(t: Type, v: Value, suffix: seq<byte>)
    requires Typed(t, v) == true
    ensures var r := Decode(t, Nothing, Encode(t, v) + suffix, 0); r.Ok? && r.pos == |Encode(t, v)|
  {
    SelfCompatible(t);
    AtMiddle([], Encode(t, v), suffix);
    assert [] + Encode(t, v) + suffix == Encode(t, v) + suffix;
    Evolution(t, v, Plain, t, Nothing, Encode(t, v) + suffix, 0);
  }

  /** Encodings of one type are prefix-free, those that lose something on the way back included. */
  lemma PrefixFree(t: Type, v: Value, v': Value)
    requires Typed(t, v) == true && Typed(t, v') == true && Encode(t, v) <= Encode(t, v')
    ensures Encode(t, v) == Encode(t, v')
  {
    hide Typed, Encode, Decode;
    var e, e' := Encode(t, v), Encode(t, v');
    EncodingEnds(t, v, e'[|e|..]);
    EncodingEnds(t, v', []);
    assert e + e'[|e|..] == e' + [];
  }

  /** So an encoding names its value, unless an engaged optional in it holds an empty one. */
  lemma EncodingNamesValue(t: Type, v: Value, v': Value)
    requires Typed(t, v) == true && Typed(t, v') == true && Encode(t, v) <= Encode(t, v')
    requires NoHiddenNull(v) && NoHiddenNull(v')
    ensures v == v'
  {
    hide Typed, NoHiddenNull, Encode, Decode;
    PrefixFree(t, v, v');
    RoundTrip(t, v, v, [], []);
    RoundTrip(t, v', v, [], []);
  }
}
