// What a compact target holds after a read, failed reads included, and that it is a value of its type.
module CompactTargets {
  import opened Bytes
  import opened Schema
  import opened CompactIntegers
  import opened CompactCodec
  import opened KeyOrder
  import Bitset

  // ---- After a read --------------------------------------------------------------------------------

  /** `std::string::resize` */
  function Resized(s: seq<byte>, n: nat): (r: seq<byte>)
    ensures |r| == n
  {
    if n <= |s| then s[..n] else Fill(s, n)
  }

  /** What was there stays as far as there is room, and the rest is zeros. */
  lemma ResizedMeans(s: seq<byte>, n: nat, i: nat)
    requires i < n
    ensures Resized(s, n)[i] == if i < |s| then s[i] else 0
  {}

  /** A string is resized before its bytes are looked for, and a bitset reset; every other leaf is
      assigned last. */
  function LeafAfter(t: Leaf, prior: Value, b: seq<byte>, p: nat): (v: Value)
    requires p <= |b|
    ensures DecodeLeaf(t, b, p).Ok? ==> v == DecodeLeaf(t, b, p).val
  {
    match DecodeLeaf(t, b, p)
    case Ok(v, _) => v
    case Err(_, _) =>
      if t.StringL? then
        var n := ReadSize(STRING_BASE, b, p);
        if n.Ok? then Blob(Resized(if prior.Blob? then prior.bytes else [], n.val)) else prior
      else if t.BitsetL? then
        var n := ReadSize(BYTES_BASE, b, p);
        if n.Ok? && n.val == Bitset.ByteCount(t.size) then LeafDefault(t) else prior
      else prior
  }

  /** The target after a typed read at `p`. Optionals and variants are assigned whole or not at all. */
  function After(t: Type, prior: Value, b: seq<byte>, p: nat): (v: Value)
    requires p <= |b|
    ensures Decode(t, prior, b, p).Ok? ==> v == Decode(t, prior, b, p).val
    decreases t, 1, 0
  {
    if t.LeafT? then LeafAfter(t.leaf, prior, b, p)
    else if t.MapT? then MapAfter(t, prior, b, p)
    else if t.ObjectT? then ObjectAfter(t, prior, b, p)
    else if IsSequence(t) then SequenceAfter(t, prior, b, p)
    else
      var r := if t.OptionalT? then DecodeOptional(t, b, p) else DecodeVariant(t, b, p);
      if r.Ok? then r.val else prior
  }

  function SequenceAfter(t: Type, prior: Value, b: seq<byte>, p: nat): (v: Value)
    requires p <= |b| && IsSequence(t)
    ensures DecodeSequence(t, prior, b, p).Ok? ==> v == DecodeSequence(t, prior, b, p).val
    decreases t, 0, U64
  {
    match ReadSize(ARRAY_BASE, b, p)
    case Err(_, _) => prior
    case Ok(n, q) => if !LengthOk(t, n) then prior else ElemsAfter(t, prior, n, [], b, q)
  }

  /** Elements read before a failing one stay; the failing one is dropped from a vector, and left
      half-read in an array or tuple. */
  function ElemsAfter(t: Type, prior: Value, n: nat, acc: seq<Value>, b: seq<byte>, p: nat): (v: Value)
    requires p <= |b| && IsSequence(t) && |acc| <= n && (t.TupleT? ==> n == |t.elems|)
    ensures DecodeElems(t, prior, n, acc, b, p).Ok? ==> v == DecodeElems(t, prior, n, acc, b, p).val
    decreases t, 0, n - |acc|
  {
    if |acc| == n then List(acc)
    else
      var e, x := ElemType(t, |acc|), ElemPrior(t, prior, |acc|);
      match Decode(e, x, b, p)
      case Err(_, _) => List(Stopped(t, prior, n, acc, After(e, x, b, p)))
      case Ok(v, q) => ElemsAfter(t, prior, n, acc + [v], b, q)
  }

  function Stopped(t: Type, prior: Value, n: nat, acc: seq<Value>, x: Value): (s: seq<Value>)
    requires |acc| < n
    ensures !t.VectorT? ==> |s| == n
  {
    if t.VectorT? then acc else acc + [x] + seq(n, j requires 0 <= j < n => Slot(prior, j))[|acc| + 1..]
  }

  function MapAfter(t: Type, prior: Value, b: seq<byte>, p: nat): (v: Value)
    requires p <= |b| && t.MapT?
    ensures DecodeMap(t, b, p).Ok? ==> v == DecodeMap(t, b, p).val
    decreases t, 0, U64
  {
    match ReadSize(MAP_BASE, b, p)
    case Err(_, _) => prior
    case Ok(n, q) => EntriesAfter(t, n, [], b, q)
  }

  /** A map keeps the entries that were emplaced. */
  function EntriesAfter(t: Type, n: nat, acc: seq<Entry>, b: seq<byte>, p: nat): (v: Value)
    requires p <= |b| && t.MapT?
    ensures DecodeEntries(t, n, acc, b, p).Ok? ==> v == DecodeEntries(t, n, acc, b, p).val
    decreases t, 0, n
  {
    if n == 0 then Dict(acc)
    else match DecodeEntry(t, acc, b, p)
      case Err(_, _) => Dict(acc)
      case Ok(acc', q) => EntriesAfter(t, n - 1, acc', b, q)
  }

  function ObjectAfter(t: Type, prior: Value, b: seq<byte>, p: nat): (v: Value)
    requires p <= |b| && t.ObjectT?
    ensures DecodeObject(t, prior, b, p).Ok? ==> v == DecodeObject(t, prior, b, p).val
    decreases t, 0, U64
  {
    match ReadSize(OBJECT_BASE, b, p)
    case Err(_, _) => prior
    case Ok(n, q) => Record(RecordsAfter(t, n, Slots(t, prior), b, q))
  }

  /** Fields read before a failing record stay as read, and the field it dispatches to as its own read
      left it. */
  function RecordsAfter(t: Type, n: nat, cur: seq<Value>, b: seq<byte>, p: nat): (c: seq<Value>)
    requires p <= |b| && t.ObjectT? && |cur| == |t.fields|
    ensures |c| == |cur|
    ensures DecodeRecords(t, n, cur, b, p).Ok? ==> Record(c) == DecodeRecords(t, n, cur, b, p).val
    decreases t, 0, n
  {
    if n == 0 then cur
    else
      var r := DecodeRecord(t, cur, b, p);
      if r.Err? then RecordAfter(t, cur, b, p) else RecordsAfter(t, n - 1, r.val, b, r.pos)
  }

  function RecordAfter(t: Type, cur: seq<Value>, b: seq<byte>, p: nat): (c: seq<Value>)
    requires p <= |b| && t.ObjectT? && |cur| == |t.fields|
    ensures |c| == |cur|
    ensures DecodeRecord(t, cur, b, p).Ok? ==> c == DecodeRecord(t, cur, b, p).val
    decreases t, 0, 0
  {
    match ReadUint(b, p)
    case Err(_, _) => cur
    case Ok(id, q) =>
      var k := FieldIndex(t.fields, id, 0);
      if id == 0 || k == |t.fields| then cur else cur[k := After(t.fields[k].ty, cur[k], b, q)]
  }

  // ---- Targets stay typed --------------------------------------------------------------------------

  /** Types whose default-constructed objects are values of the type: sizes are `size_t`, variants are
      not empty, and member initialisers fit their members. */
  predicate Constructible(t: Type)
    decreases t
  {
    if t.LeafT? then (t.leaf.BytesL? || t.leaf.BitsetL?) ==> t.leaf.size < U64
    else if t.ArrayT? then t.count < U64 && Constructible(t.elem)
    else if t.TupleT? then |t.elems| < U64 && forall i :: 0 <= i < |t.elems| ==> Constructible(t.elems[i])
    else if t.VariantT? then
      0 < |t.alts| < U64 && forall i :: 0 <= i < |t.alts| ==> Constructible(t.alts[i])
    else if t.MapT? then Constructible(t.key) && Constructible(t.mapped)
    else if t.ObjectT? then
      |t.fields| < U64 &&
      forall i :: 0 <= i < |t.fields| ==> Constructible(t.fields[i].ty) && HasType(t.fields[i].ty, t.fields[i].initial)
    else Constructible(t.elem)
  }

  predicate Sound(t: Type) { WellFormed(t) && Constructible(t) }

  lemma {:induction false} DefaultTyped(t: Type)
    requires Sound(t) == true
    ensures HasType(t, Default(t))
    decreases t
  {
    if t.ArrayT? {
      DefaultTyped(t.elem);
    } else if t.TupleT? {
      forall i: nat | i < |t.elems| ensures HasType(t.elems[i], Default(t.elems[i])) { DefaultTyped(t.elems[i]); }
    } else if t.VariantT? {
      DefaultTyped(t.alts[0]);
    }
  }

  lemma LeafTyped(t: Leaf, b: seq<byte>, p: nat)
    requires Constructible(LeafT(t)) && p <= |b| && DecodeLeaf(t, b, p).Ok?
    ensures LeafHas(t, DecodeLeaf(t, b, p).val)
  {
    hide ReadUint, ReadInt, ReadSize, Bitset.Unpack, DecodeFloat, FromLittle;
    match t
    case FloatL => FloatTyped(FLOAT_HEADER, 4, b, p);
    case DoubleL => FloatTyped(DOUBLE_HEADER, 8, b, p);
    case _ =>
  }

  lemma FloatTyped(header: byte, n: nat, b: seq<byte>, p: nat)
    requires p <= |b| && (n == 4 || n == 8) && DecodeFloat(header, n, b, p).Ok?
    ensures var v := DecodeFloat(header, n, b, p).val;
            v.Float? && v.bits < if n == 4 then 0x1_0000_0000 else U64
  {
    hide FromLittle;
    LittleBound(b[p + 1..p + 1 + n]);
    Pow256Eight();
    assert Pow256(2) == 0x1_0000 && Pow256(4) == 0x1_0000_0000;
  }

  lemma LeafAfterTyped(t: Leaf, prior: Value, b: seq<byte>, p: nat)
    requires Constructible(LeafT(t)) && LeafHas(t, prior) && p <= |b|
    ensures LeafHas(t, LeafAfter(t, prior, b, p))
  {
    hide ReadUint, ReadInt, DecodeFloat, DecodeBlob, Bitset.Unpack;
    if DecodeLeaf(t, b, p).Ok? {
      LeafTyped(t, b, p);
    } else if t.StringL? && ReadSize(STRING_BASE, b, p).Ok? {
      SizeBound(STRING_BASE, b, p);
    }
  }

  lemma SizeBound(base: byte, b: seq<byte>, p: nat)
    requires p <= |b| && ReadSize(base, b, p).Ok?
    ensures ReadSize(base, b, p).val < U64
  {}

  /** On arbitrary bytes, a read that fails half-way still leaves a value of its type in the target. */
  lemma {:induction false} AfterTyped(t: Type, prior: Value, b: seq<byte>, p: nat)
    requires Sound(t) == true && HasType(t, prior) == true && p <= |b|
    ensures HasType(t, After(t, prior, b, p))
    decreases t, 1, 0
  {
    hide LeafAfter, ElemsAfter, EntriesAfter, RecordsAfter, Decode, ReadSize, Default;
    if t.LeafT? {
      LeafAfterTyped(t.leaf, prior, b, p);
    } else if t.MapT? {
      var n := ReadSize(MAP_BASE, b, p);
      if n.Ok? {
        SizeBound(MAP_BASE, b, p);
        EntriesAfterTyped(t, n.val, [], b, n.pos);
      }
    } else if t.ObjectT? {
      var n := ReadSize(OBJECT_BASE, b, p);
      assert Slots(t, prior) == prior.items;
      if n.Ok? { RecordsAfterTyped(t, n.val, prior.items, b, n.pos); }
    } else if IsSequence(t) {
      var n := ReadSize(ARRAY_BASE, b, p);
      if n.Ok? && LengthOk(t, n.val) {
        SizeBound(ARRAY_BASE, b, p);
        ElemsAfterTyped(t, prior, n.val, [], b, n.pos);
      }
    } else if t.OptionalT? {
      OptionalTyped(t, b, p);
    } else {
      VariantTyped(t, b, p);
    }
  }

  lemma {:induction false} OptionalTyped(t: Type, b: seq<byte>, p: nat)
    requires t.OptionalT? && Sound(t) == true && p <= |b|
    ensures DecodeOptional(t, b, p).Ok? ==> HasType(t, DecodeOptional(t, b, p).val)
    decreases t, 0, 0
  {
    hide Decode, After, Default;
    if p < |b| && b[p] != NULL_HEADER {
      DefaultTyped(t.elem);
      AfterTyped(t.elem, Default(t.elem), b, p);
    }
  }

  lemma {:induction false} VariantTyped(t: Type, b: seq<byte>, p: nat)
    requires t.VariantT? && Sound(t) == true && p <= |b|
    ensures DecodeVariant(t, b, p).Ok? ==> HasType(t, DecodeVariant(t, b, p).val)
    decreases t, 0, 1
  {
    hide DecodeAlt, ReadSize;
    if DecodeVariant(t, b, p).Ok? { AltTyped(t, b, ReadSize(ARRAY_BASE, b, p).pos); }
  }

  lemma {:induction false} AltTyped(t: Type, b: seq<byte>, p: nat)
    requires t.VariantT? && Sound(t) == true && p <= |b| && DecodeAlt(t, b, p).Ok?
    ensures HasType(t, DecodeAlt(t, b, p).val)
    decreases t, 0, 0
  {
    hide Decode, After, ReadUint, Default;
    var i := ReadUint(b, p);
    DefaultTyped(t.alts[i.val]);
    AfterTyped(t.alts[i.val], Default(t.alts[i.val]), b, i.pos);
  }

  lemma {:induction false} ElemsAfterTyped(t: Type, prior: Value, n: nat, acc: seq<Value>, b: seq<byte>, p: nat)
    requires IsSequence(t) && Sound(t) == true && HasType(t, prior) == true && n < U64 && LengthOk(t, n)
    requires p <= |b| && |acc| <= n
    requires forall i :: 0 <= i < |acc| ==> HasType(ElemType(t, i), acc[i])
    ensures HasType(t, ElemsAfter(t, prior, n, acc, b, p))
    decreases t, 0, n - |acc|
  {
    hide Decode, After, Default;
    if |acc| < n {
      var i := |acc|;
      if t.VectorT? { DefaultTyped(t.elem); } else { assert HasType(ElemType(t, i), prior.items[i]); }
      var e, x := ElemType(t, i), ElemPrior(t, prior, i);
      var r := Decode(e, x, b, p);
      AfterTyped(e, x, b, p);
      if r.Ok? { ElemsAfterTyped(t, prior, n, acc + [r.val], b, r.pos); }
      else { StoppedTyped(t, prior, n, acc, After(e, x, b, p)); }
    }
  }

  lemma StoppedTyped(t: Type, prior: Value, n: nat, acc: seq<Value>, x: Value)
    requires IsSequence(t) && HasType(t, prior) == true && |acc| < n < U64 && LengthOk(t, n)
    requires (forall i :: 0 <= i < |acc| ==> HasType(ElemType(t, i), acc[i])) && HasType(ElemType(t, |acc|), x)
    ensures HasType(t, List(Stopped(t, prior, n, acc, x)))
  {
    var s := Stopped(t, prior, n, acc, x);
    forall i: nat | i < |s| ensures HasType(ElemType(t, i), s[i]) {
      if i > |acc| {
        assert s[i] == Slot(prior, i);
        assert LengthOk(t, |prior.items|);
      }
    }
  }

  predicate EntriesHave(t: Type, es: seq<Entry>)
    requires t.MapT?
  {
    Keyed(t.key, es) && forall i :: 0 <= i < |es| ==> HasType(t.mapped, es[i].mapped)
  }

  lemma {:induction false} EntryTyped(t: Type, acc: seq<Entry>, b: seq<byte>, p: nat)
    requires t.MapT? && Sound(t) == true && EntriesHave(t, acc) && p <= |b| && DecodeEntry(t, acc, b, p).Ok?
    ensures var r := DecodeEntry(t, acc, b, p).val; EntriesHave(t, r) && |r| == |acc| + 1
    decreases t, 0, 0
  {
    hide Decode, After, Default, Emplace, Compare;
    DefaultTyped(t.key);
    DefaultTyped(t.mapped);
    AfterTyped(t.key, Default(t.key), b, p);
    var k := Decode(t.key, Default(t.key), b, p);
    AfterTyped(t.mapped, Default(t.mapped), b, k.pos);
    var m := Decode(t.mapped, Default(t.mapped), b, k.pos);
    var e := Entry(k.val, m.val);
    EmplaceMap(t.key, acc, e);
    var r := Emplace(acc, e).value;
    forall i: nat | i < |r| ensures HasType(t.mapped, r[i].mapped) { assert Among(r, r[i]); }
  }

  lemma {:induction false} EntriesAfterTyped(t: Type, n: nat, acc: seq<Entry>, b: seq<byte>, p: nat)
    requires t.MapT? && Sound(t) == true && EntriesHave(t, acc) && |acc| + n < U64 && p <= |b|
    ensures HasType(t, EntriesAfter(t, n, acc, b, p))
    decreases t, 0, n
  {
    hide DecodeEntry, Compare;
    if n > 0 && DecodeEntry(t, acc, b, p).Ok? {
      EntryTyped(t, acc, b, p);
      var r := DecodeEntry(t, acc, b, p);
      EntriesAfterTyped(t, n - 1, r.val, b, r.pos);
    }
  }

  lemma {:induction false} RecordsAfterTyped(t: Type, n: nat, cur: seq<Value>, b: seq<byte>, p: nat)
    requires t.ObjectT? && Sound(t) == true && HasType(t, Record(cur)) == true && p <= |b|
    ensures |cur| == |t.fields| && HasType(t, Record(RecordsAfter(t, n, cur, b, p)))
    decreases t, 0, n
  {
    hide DecodeRecord, RecordAfter;
    if n > 0 {
      RecordAfterTyped(t, cur, b, p);
      var r := DecodeRecord(t, cur, b, p);
      if r.Ok? { RecordsAfterTyped(t, n - 1, r.val, b, r.pos); }
    }
  }

  lemma {:induction false} RecordAfterTyped(t: Type, cur: seq<Value>, b: seq<byte>, p: nat)
    requires t.ObjectT? && Sound(t) == true && HasType(t, Record(cur)) == true && p <= |b|
    ensures |cur| == |t.fields| && HasType(t, Record(RecordAfter(t, cur, b, p)))
    decreases t, 0, 0
  {
    hide After, Decode, DecodeRecord, ReadUint, Skip;
    var id := ReadUint(b, p);
    if id.Ok? {
      var k := FieldIndex(t.fields, id.val, 0);
      if k < |t.fields| { AfterTyped(t.fields[k].ty, cur[k], b, id.pos); }
    }
  }

  /** So a read that succeeds leaves a value of its type: numbers in range, arrays and bitsets of their
      size, map keys strictly increasing, alternatives in range. */
  lemma DecodeTyped(t: Type, prior: Value, b: seq<byte>, p: nat)
    requires Sound(t) == true && HasType(t, prior) == true && p <= |b| && Decode(t, prior, b, p).Ok?
    ensures HasType(t, Decode(t, prior, b, p).val)
  {
    hide Decode, After, HasType;
    AfterTyped(t, prior, b, p);
  }
}
