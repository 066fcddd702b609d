// The compact format in its own numbers: what bytes spell a value, and which bytes are well-formed,
// stated apart from the reader and the writer.
module CompactFormat {
  import opened Bytes
  import opened Schema
  import opened CompactIntegers
  import opened CompactCodec
  import opened KeyOrder
  import Bitset

  // ---- Integers --------------------------------------------------------------------------------------

  /** How many bytes a u64 takes. */
  function Octets(n: nat): nat {
    if n < 0x100 then 1
    else if n < 0x1_0000 then 2
    else if n < 0x100_0000 then 3
    else if n < 0x1_0000_0000 then 4
    else if n < 0x100_0000_0000 then 5
    else if n < 0x1_0000_0000_0000 then 6
    else if n < 0x100_0000_0000_0000 then 7
    else 8
  }

  /** The `k` lowest base-256 digits, lowest first. */
  function Digits(n: nat, k: nat): (s: seq<byte>)
    ensures |s| == k
  {
    seq(k, i requires 0 <= i < k => n / Pow256(i) % 256)
  }

  lemma {:induction false} ShiftDivides(n: nat, i: nat)
    ensures ShiftRight(n, i) == n / Pow256(i)
  {
    if i > 0 {
      ShiftDivides(n / 256, i - 1);
      DivideTwice(n, 256, Pow256(i - 1));
    }
  }

  lemma LittleDigits(n: nat, k: nat)
    ensures ToLittle(n, k) == Digits(n, k)
  {
    hide ToLittle, Pow256;
    forall i: nat | i < k ensures ToLittle(n, k)[i] == Digits(n, k)[i] {
      LittleDigit(n, k, i);
      ShiftDivides(n, i);
    }
  }

  lemma {:induction false} LittleValue(s: seq<byte>, i: nat)
    requires i < |s|
    ensures FromLittle(s) / Pow256(i) % 256 == s[i]
  {
    hide ToLittle, FromLittle, Pow256;
    LittleInverse(s);
    LittleDigits(FromLittle(s), |s|);
  }

  lemma OctetCount(n: nat)
    requires n < U64
    ensures ByteLen(n) == Octets(n)
  {
    hide ByteLen;
    assert Pow256(1) == 0x100 && Pow256(2) == 0x1_0000 && Pow256(3) == 0x100_0000;
    assert Pow256(4) == 0x1_0000_0000 && Pow256(5) == 0x100_0000_0000;
    assert Pow256(6) == 0x1_0000_0000_0000 && Pow256(7) == 0x100_0000_0000_0000;
    Pow256Eight();
    ByteLenBound(n, Octets(n));
    if Octets(n) > 1 { ByteLenBound(n, Octets(n) - 1); }
  }

  function SpellNumber(n: int): (s: seq<byte>)
    ensures s != []
  {
    if 0 <= n <= 63 then [n]
    else if -16 <= n < 0 then [0x3f - n]
    else if n > 0 then [0x4f + Octets(n)] + Digits(n, Octets(n))
    else [0x57 + Octets(-n)] + Digits(-n, Octets(-n))
  }

  lemma UintSpelled(n: nat)
    requires n < U64
    ensures EncodeUint(n) == SpellNumber(n)
  {
    hide ByteLen, Octets, Digits;
    OctetCount(n);
    ByteLenBound(n, 8);
    Pow256Eight();
    LittleDigits(n, Octets(n));
  }

  lemma IntSpelled(n: int)
    requires -I64_LIMIT <= n < I64_LIMIT
    ensures EncodeInt(n) == SpellNumber(n)
  {
    hide ByteLen, Octets, Digits, EncodeUint;
    if n >= 0 {
      UintSpelled(n);
    } else {
      OctetCount(-n);
      ByteLenBound(-n, 8);
      Pow256Eight();
      LittleDigits(-n, Octets(-n));
    }
  }

  /** What every header means to the unsigned reader, minimal forms or not. */
  lemma UintMeans(b: seq<byte>, p: nat)
    requires p < |b|
    ensures var r, h := ReadUint(b, p), b[p];
            if h <= 0x3f then r == Ok(h, p + 1)
            else if 0x50 <= h <= 0x57 then
              var k := h - 0x4f;
              if p + 1 + k > |b| then r == Err(Truncated, p)
              else
                r.Ok? && r.pos == p + 1 + k && r.val < Pow256(k) &&
                forall i: nat :: i < k ==> r.val / Pow256(i) % 256 == b[p + 1 + i]
            else r == Err(if h <= 0x5f then InvalidInteger else InvalidHeader, p)
  {
    hide FromLittle, Pow256;
    var h := b[p];
    if 0x50 <= h <= 0x57 && p + 1 + (h - 0x4f) <= |b| {
      var s := b[p + 1..p + 1 + (h - 0x4f)];
      LittleBound(s);
      forall i: nat | i < |s| ensures FromLittle(s) / Pow256(i) % 256 == b[p + 1 + i] { LittleValue(s, i); }
    }
  }

  /** The same for the signed reader: the magnitude, and the sign in the header. */
  lemma IntMeans(b: seq<byte>, p: nat)
    requires p < |b|
    ensures var r := ReadInt(b, p);
            var h: int := b[p];
            if h <= 0x3f then r == Ok(h, p + 1)
            else if h <= 0x4f then r == Ok(0x3f - h, p + 1)
            else if h > 0x5f then r == Err(InvalidHeader, p)
            else
              var k := if h < 0x58 then h - 0x4f else h - 0x57;
              if p + 1 + k > |b| then r == Err(Truncated, p)
              else
                var m := FromLittle(b[p + 1..p + 1 + k]);
                (forall i: nat :: i < k ==> m / Pow256(i) % 256 == b[p + 1 + i]) && m < Pow256(k) &&
                if h < 0x58 && m < I64_LIMIT then r == Ok(m, p + 1 + k)
                else if h >= 0x58 && m <= I64_LIMIT then r == Ok(-(m as int), p + 1 + k)
                else r == Err(InvalidInteger, p)
  {
    hide FromLittle, Pow256;
    var h := b[p];
    if 0x50 <= h <= 0x5f {
      var k := if h < 0x58 then h - 0x4f else h - 0x57;
      if p + 1 + k <= |b| {
        var s := b[p + 1..p + 1 + k];
        LittleBound(s);
        forall i: nat | i < |s| ensures FromLittle(s) / Pow256(i) % 256 == b[p + 1 + i] { LittleValue(s, i); }
      }
    }
  }

  /** An integer field takes the number exactly when its width holds it. */
  lemma WidthChecked(w: Width, b: seq<byte>, p: nat)
    requires p <= |b|
    ensures var r := ReadUint(b, p);
            r.Ok? ==> DecodeLeaf(UIntL(w), b, p) ==
                      if r.val < Pow2(w.Bits()) then Ok(Int(r.val), r.pos) else Err(InvalidInteger, r.pos)
    ensures var r := ReadInt(b, p);
            r.Ok? ==> DecodeLeaf(IntL(w), b, p) ==
                      if 0 <= r.val + Pow2(w.Bits() - 1) && r.val < Pow2(w.Bits() - 1) then Ok(Int(r.val), r.pos)
                      else Err(InvalidInteger, r.pos)
  {
    hide ReadUint, ReadInt, Pow2;
    WidthRange(w);
  }

  // ---- Values ----------------------------------------------------------------------------------------

  /** What the format can say, without types. */
  datatype Item =
    | Number(n: int)
    | Raw(bytes: seq<byte>)
    | Characters(bytes: seq<byte>)
    | Sequence(items: seq<Item>)
    | Table(items: seq<Item>)                     // key, value, key, value
    | Object(ids: seq<nat>, items: seq<Item>)
    | Truth(on: bool)
    | Absent
    | Real32(bits: nat)
    | Real64(bits: nat)

  /** A header and the size it announces. */
  function Sized(base: byte, n: nat): (s: seq<byte>)
    requires base <= 0xa0
    ensures s != [] && s[0] == base + if n <= 14 then n else 15
  {
    if n <= 14 then [base + n] else [base + 15] + SpellNumber(n)
  }

  function Spell(x: Item): (s: seq<byte>)
    ensures s != []
    decreases x
  {
    match x
    case Number(n) => SpellNumber(n)
    case Raw(b) => Sized(0x60, |b|) + b
    case Characters(b) => Sized(0x70, |b|) + b
    case Sequence(xs) => Sized(0x80, |xs|) + SpellAll(xs)
    case Table(xs) => Sized(0x90, |xs| / 2) + SpellAll(xs)
    case Object(ids, xs) => Sized(0xa0, |xs|) + SpellFields(ids, xs)
    case Truth(on) => [if on then 0xb1 else 0xb0]
    case Absent => [0xb2]
    case Real32(bits) => [0xc4] + Digits(bits, 4)
    case Real64(bits) => [0xc8] + Digits(bits, 8)
  }

  function SpellAll(xs: seq<Item>): seq<byte>
    decreases xs
  {
    if xs == [] then [] else Spell(xs[0]) + SpellAll(xs[1..])
  }

  function SpellFields(ids: seq<nat>, xs: seq<Item>): seq<byte>
    decreases xs
  {
    if xs == [] || ids == [] then []
    else SpellNumber(ids[0]) + Spell(xs[0]) + SpellFields(ids[1..], xs[1..])
  }

  /** What a typed value says: trailing zeros of byte arrays are not said, and an optional says what it
      holds. Variants are an index and a value, and fields stand in declared order. */
  function Said(t: Type, v: Value): Item
    requires Typed(t, v) == true
    decreases t, 1, 0
  {
    if t.LeafT? then SaidLeaf(t.leaf, v)
    else if t.OptionalT? then if v.Nothing? then Absent else Said(t.elem, v.payload)
    else if t.VariantT? then Sequence([Number(v.index), Said(t.alts[v.index], v.payload)])
    else if t.MapT? then Table(SaidEntries(t, v.entries, 0))
    else if t.ObjectT? then Object(Ids(t.fields, 0), SaidFields(t, v.items, 0))
    else Sequence(SaidElems(t, v.items, 0))
  }

  function Ids(fs: seq<Field>, i: nat): (r: seq<nat>)
    requires i <= |fs| && UniqueIds(fs)
    ensures |r| == |fs| - i
    decreases |fs| - i
  {
    if i == |fs| then [] else [fs[i].id] + Ids(fs, i + 1)
  }

  function SaidLeaf(t: Leaf, v: Value): Item
    requires LeafHas(t, v) == true
  {
    match t
    case BoolL => Truth(v.on)
    case UIntL(_) => Number(v.n)
    case IntL(_) => Number(v.n)
    case FloatL => Real32(v.bits)
    case DoubleL => Real64(v.bits)
    case StringL => Characters(v.bytes)
    case BytesL(_) => Raw(TrimZeros(v.bytes))
    case BitsetL(_) => Raw(Bitset.Pack(v.flags))
  }

  function SaidElems(t: Type, vs: seq<Value>, i: nat): (xs: seq<Item>)
    requires IsSequence(t) && i <= |vs| && Typed(t, List(vs)) == true
    ensures |xs| == |vs| - i
    decreases t, 0, |vs| - i
  {
    if i == |vs| then [] else [Said(ElemType(t, i), vs[i])] + SaidElems(t, vs, i + 1)
  }

  function SaidEntries(t: Type, es: seq<Entry>, i: nat): (xs: seq<Item>)
    requires t.MapT? && i <= |es| && Typed(t, Dict(es)) == true
    ensures |xs| == 2 * (|es| - i)
    decreases t, 0, |es| - i
  {
    if i == |es| then []
    else [Said(t.key, es[i].key), Said(t.mapped, es[i].mapped)] + SaidEntries(t, es, i + 1)
  }

  function SaidFields(t: Type, vs: seq<Value>, i: nat): (xs: seq<Item>)
    requires t.ObjectT? && i <= |vs| && Typed(t, Record(vs)) == true
    ensures |xs| == |vs| - i
    decreases t, 0, |vs| - i
  {
    if i == |vs| then [] else [Said(t.fields[i].ty, vs[i])] + SaidFields(t, vs, i + 1)
  }

  // ---- The writer spells what the value says ---------------------------------------------------------

  lemma LeafSpelled(t: Leaf, v: Value)
    requires LeafHas(t, v) == true
    ensures EncodeLeaf(t, v) == Spell(SaidLeaf(t, v))
  {
    hide EncodeUint, EncodeInt, SpellNumber, ToLittle, Digits, TrimZeros, Bitset.Pack, EncodeSize, Sized;
    match t
    case BoolL =>
    case UIntL(_) => UintSpelled(v.n);
    case IntL(_) => IntSpelled(v.n);
    case FloatL => LittleDigits(v.bits, 4);
    case DoubleL => LittleDigits(v.bits, 8);
    case StringL => SizeSpelled(0x70, |v.bytes|);
    case BytesL(_) => SizeSpelled(0x60, |TrimZeros(v.bytes)|);
    case BitsetL(_) => SizeSpelled(0x60, |Bitset.Pack(v.flags)|);
  }

  lemma SizeSpelled(base: byte, n: nat)
    requires IsSizeBase(base) && n < U64
    ensures base <= 0xa0 && EncodeSize(base, n) == Sized(base, n)
  {
    hide EncodeUint, SpellNumber;
    UintSpelled(n);
  }

  /** Every encoding is the spelling of what the value says. */
  lemma {:induction false} Spelled(t: Type, v: Value)
    requires Typed(t, v) == true
    ensures Encode(t, v) == Spell(Said(t, v))
    decreases t, 1, 0
  {
    hide EncodeLeaf, SaidLeaf, EncodeSize, Sized, EncodeUint, SpellNumber, EncodeElems, EncodeEntries, EncodeRecords,
      SaidElems, SaidEntries, SaidFields, Permutation;
    if t.LeafT? {
      LeafSpelled(t.leaf, v);
    } else if t.OptionalT? {
      if v.Just? { Spelled(t.elem, v.payload); }
    } else if t.VariantT? {
      VariantSpelled(t, v);
    } else if t.MapT? {
      SizeSpelled(0x90, |v.entries|);
      EntriesSpelled(t, v.entries, 0);
    } else if t.ObjectT? {
      SizeSpelled(0xa0, |t.fields|);
      PlainOrder(|t.fields|);
      FieldsSpelled(t, v.items, 0);
    } else {
      SizeSpelled(0x80, |v.items|);
      ElemsSpelled(t, v.items, 0);
    }
  }

  lemma PlainOrder(n: nat)
    ensures Permutation(Plain, n) == seq(n, i requires 0 <= i < n => i)
  {}

  lemma {:induction false} VariantSpelled(t: Type, v: Value)
    requires t.VariantT? && Typed(t, v) == true
    ensures Encode(t, v) == Spell(Said(t, v))
    decreases t, 0, 0
  {
    hide EncodeLeaf, EncodeSize, Sized, EncodeUint, SpellNumber, SaidLeaf;
    SizeSpelled(0x80, 2);
    UintSpelled(v.index);
    Spelled(t.alts[v.index], v.payload);
    PairSpelled(Number(v.index), Said(t.alts[v.index], v.payload));
  }

  lemma PairSpelled(a: Item, b: Item)
    ensures SpellAll([a, b]) == Spell(a) + Spell(b)
  {
    hide Spell;
    TwoMore(a, b, []);
    assert [a, b] + [] == [a, b];
  }

  lemma {:induction false} ElemsSpelled(t: Type, vs: seq<Value>, i: nat)
    requires IsSequence(t) && i <= |vs| && Typed(t, List(vs)) == true
    ensures EncodeElems(t, vs, Plain, i) == SpellAll(SaidElems(t, vs, i))
    decreases t, 0, |vs| - i
  {
    hide EncodeIn, Said, Spell;
    if i < |vs| {
      ElemSpelled(t, vs, i);
      ElemsSpelled(t, vs, i + 1);
    }
  }

  lemma {:induction false} ElemSpelled(t: Type, vs: seq<Value>, i: nat)
    requires IsSequence(t) && i < |vs| && Typed(t, List(vs)) == true
    ensures Typed(ElemType(t, i), vs[i])
    ensures EncodeIn(ElemType(t, i), vs[i], Plain) == Spell(Said(ElemType(t, i), vs[i]))
    decreases t, 0, 0
  {
    hide EncodeIn, Said, Spell;
    assert HasType(ElemType(t, i), vs[i]);
    Spelled(ElemType(t, i), vs[i]);
  }

  lemma {:induction false} EntriesSpelled(t: Type, es: seq<Entry>, i: nat)
    requires t.MapT? && i <= |es| && Typed(t, Dict(es)) == true
    ensures EncodeEntries(t, es, Plain, i) == SpellAll(SaidEntries(t, es, i))
    decreases t, 0, |es| - i
  {
    hide EncodeIn, Said, Spell;
    if i < |es| {
      Spelled(t.key, es[i].key);
      Spelled(t.mapped, es[i].mapped);
      EntriesSpelled(t, es, i + 1);
      TwoMore(Said(t.key, es[i].key), Said(t.mapped, es[i].mapped), SaidEntries(t, es, i + 1));
    }
  }

  lemma TwoMore(a: Item, b: Item, xs: seq<Item>)
    ensures SpellAll([a, b] + xs) == Spell(a) + Spell(b) + SpellAll(xs)
  {
    hide Spell;
    assert ([a, b] + xs)[1..] == [b] + xs && ([b] + xs)[1..] == xs;
  }

  lemma {:induction false} FieldsSpelled(t: Type, vs: seq<Value>, i: nat)
    requires t.ObjectT? && i <= |vs| && Typed(t, Record(vs)) == true
    ensures |vs| == |t.fields|
    ensures IsPermutation(Permutation(Plain, |vs|), |vs|)
    ensures EncodeRecords(t, vs, Plain, Permutation(Plain, |vs|), i) ==
            SpellFields(Ids(t.fields, i), SaidFields(t, vs, i))
    decreases t, 0, |vs| - i
  {
    hide EncodeIn, Said, Spell, EncodeUint, SpellNumber, Permutation;
    PlainOrder(|vs|);
    if i < |vs| {
      Spelled(t.fields[i].ty, vs[i]);
      UintSpelled(t.fields[i].id);
      FieldsSpelled(t, vs, i + 1);
    }
  }

  /** The first byte: the kind of the value and, for sized kinds, the size when it is at most 14. */
  lemma FirstByte(t: Type, v: Value)
    requires Typed(t, v) == true
    ensures var h := Encode(t, v)[0];
            if t.OptionalT? then h == if v.Nothing? then 0xb2 else Encode(t.elem, v.payload)[0]
            else if t.VariantT? then h == 0x82
            else if t.MapT? then h == 0x90 + if |v.entries| <= 14 then |v.entries| else 15
            else if t.ObjectT? then h == 0xa0 + if |t.fields| <= 14 then |t.fields| else 15
            else if !t.LeafT? then h == 0x80 + if |v.items| <= 14 then |v.items| else 15
            else match t.leaf
              case BoolL => h == if v.on then 0xb1 else 0xb0
              case UIntL(_) => h == if v.n <= 63 then v.n else 0x4f + Octets(v.n)
              case IntL(_) =>
                h == (if 0 <= v.n <= 63 then v.n
                      else if -16 <= v.n < 0 then 0x3f - v.n
                      else if v.n > 0 then 0x4f + Octets(v.n)
                      else 0x57 + Octets(-v.n))
              case FloatL => h == 0xc4
              case DoubleL => h == 0xc8
              case StringL => h == 0x70 + if |v.bytes| <= 14 then |v.bytes| else 15
              case BytesL(_) =>
                var n := |TrimZeros(v.bytes)|; h == 0x60 + if n <= 14 then n else 15
              case BitsetL(n) => h == 0x60 + if (n + 7) / 8 <= 14 then (n + 7) / 8 else 15
  {
    hide Digits, TrimZeros, Bitset.PackByte, Encode, EncodeIn;
    Spelled(t, v);
    if t.OptionalT? && v.Just? { Spelled(t.elem, v.payload); }
  }

  // ---- What the skipper accepts ----------------------------------------------------------------------

  /** A value in the buffer: from where to where it stands, and the values inside it. */
  datatype Span = Span(start: nat, end: nat, kids: seq<Span>)

  /** The size behind the header at `p`, and where what it announces starts. */
  function SizeAt(b: seq<byte>, p: nat): Option<(nat, nat)>
    requires p < |b|
  {
    if b[p] % 16 <= 14 then Some((b[p] % 16, p + 1))
    else match ReadUint(b, p + 1)
      case Err(_, _) => None
      case Ok(n, q) => Some((n, q))
  }

  /** `x` is a well-formed value: a header the format knows, at this depth and at every other, and as
      many bytes or values behind it as it announces. */
  ghost predicate Stands(b: seq<byte>, x: Span)
    decreases x, 1
  {
    x.start < x.end <= |b| &&
    var h := b[x.start];
    if h <= 0x4f then x == Span(x.start, x.start + 1, [])
    else if h <= 0x5f then x == Span(x.start, x.start + 2 + h % 8, [])
    else if h <= 0x7f then
      var n := SizeAt(b, x.start);
      n.Some? && x == Span(x.start, n.value.1 + n.value.0, [])
    else if h <= 0xaf then
      var n := SizeAt(b, x.start);
      n.Some? &&
      if h <= 0x8f then |x.kids| == n.value.0 && Chained(b, x.kids, n.value.1, x.end)
      else if h <= 0x9f then |x.kids| == 2 * n.value.0 && Chained(b, x.kids, n.value.1, x.end)
      else |x.kids| == n.value.0 && Fielded(b, x.kids, n.value.1, x.end)
    else if h <= 0xb2 then x == Span(x.start, x.start + 1, [])
    else if h == 0xc4 then x == Span(x.start, x.start + 5, [])
    else h == 0xc8 && x == Span(x.start, x.start + 9, [])
  }

  /** Values one behind another, from `p` to `q`. */
  ghost predicate Chained(b: seq<byte>, xs: seq<Span>, p: nat, q: nat)
    decreases xs, 0
  {
    if xs == [] then p == q
    else xs[0].start == p && Stands(b, xs[0]) && Chained(b, xs[1..], xs[0].end, q)
  }

  /** The same with an unsigned number, the field id, before each value. */
  ghost predicate Fielded(b: seq<byte>, xs: seq<Span>, p: nat, q: nat)
    decreases xs, 0
  {
    if xs == [] then p == q
    else
      p <= |b| && ReadUint(b, p).Ok? && xs[0].start == ReadUint(b, p).pos && Stands(b, xs[0]) &&
      Fielded(b, xs[1..], xs[0].end, q)
  }

  lemma SizeTailAt(b: seq<byte>, p: nat)
    requires p < |b|
    ensures var r := SizeTail(b[p], b, p + 1);
            SizeAt(b, p) == if r.Ok? then Some((r.val, r.pos)) else None
  {
    hide ReadUint;
  }

  lemma {:induction false} SkipStands(b: seq<byte>, p: nat) returns (x: Span)
    requires p <= |b| && Skip(b, p).res.Ok?
    ensures Stands(b, x) && x.start == p && x.end == Skip(b, p).res.pos
    decreases |b| - p, 0, 0
  {
    hide ReadUint, SizeTail, SizeAt, SkipMany, SkipRecords, Chained, Fielded;
    var h, q := b[p], Skip(b, p).res.pos;
    x := Span(p, q, []);
    if 0x60 <= h <= 0xaf {
      SizeTailAt(b, p);
      if h >= 0x80 {
        var n := SizeTail(h, b, p + 1);
        var kids;
        if h <= 0x8f { kids := ManyStand(n.val, b, n.pos); }
        else if h <= 0x9f { kids := ManyStand(2 * n.val, b, n.pos); }
        else { kids := RecordsStand(n.val, b, n.pos); }
        x := Span(p, q, kids);
      }
    }
  }

  lemma {:induction false} ManyStand(n: nat, b: seq<byte>, p: nat) returns (xs: seq<Span>)
    requires p <= |b| && SkipMany(n, b, p).res.Ok?
    ensures |xs| == n && Chained(b, xs, p, SkipMany(n, b, p).res.pos)
    decreases |b| - p, 1, n
  {
    hide Skip, Stands;
    xs := [];
    if n > 0 {
      var x := SkipStands(b, p);
      var more := ManyStand(n - 1, b, x.end);
      xs := [x] + more;
      assert xs[1..] == more;
    }
  }

  lemma {:induction false} RecordsStand(n: nat, b: seq<byte>, p: nat) returns (xs: seq<Span>)
    requires p <= |b| && SkipRecords(n, b, p).res.Ok?
    ensures |xs| == n && Fielded(b, xs, p, SkipRecords(n, b, p).res.pos)
    decreases |b| - p, 1, n
  {
    hide Skip, Stands, ReadUint;
    xs := [];
    if n > 0 {
      var x := SkipStands(b, ReadUint(b, p).pos);
      var more := RecordsStand(n - 1, b, x.end);
      xs := [x] + more;
      assert xs[1..] == more;
    }
  }

  lemma {:induction false} StandsSkip(b: seq<byte>, x: Span)
    requires Stands(b, x)
    ensures Skip(b, x.start).res == Ok((), x.end)
    decreases x, 1
  {
    hide ReadUint, SizeTail, SizeAt, SkipMany, SkipRecords, Chained, Fielded;
    var p := x.start;
    var h := b[p];
    if 0x60 <= h <= 0xaf {
      SizeTailAt(b, p);
      if h >= 0x80 {
        var n := SizeTail(h, b, p + 1);
        if h <= 0x9f { ChainSkips(b, x.kids, n.pos, x.end); } else { FieldsSkip(b, x.kids, n.pos, x.end); }
      }
    }
  }

  lemma {:induction false} ChainSkips(b: seq<byte>, xs: seq<Span>, p: nat, q: nat)
    requires p <= |b| && Chained(b, xs, p, q)
    ensures SkipMany(|xs|, b, p).res == Ok((), q)
    decreases xs, 0
  {
    hide Skip, Stands;
    if xs != [] {
      StandsSkip(b, xs[0]);
      ChainSkips(b, xs[1..], xs[0].end, q);
    }
  }

  lemma {:induction false} FieldsSkip(b: seq<byte>, xs: seq<Span>, p: nat, q: nat)
    requires p <= |b| && Fielded(b, xs, p, q)
    ensures SkipRecords(|xs|, b, p).res == Ok((), q)
    decreases xs, 0
  {
    hide Skip, Stands, ReadUint;
    if xs != [] {
      StandsSkip(b, xs[0]);
      FieldsSkip(b, xs[1..], xs[0].end, q);
    }
  }

  /** On any bytes, the skipper gets from `p` to `q` exactly when a well-formed value stands there. */
  lemma SkipExact(b: seq<byte>, p: nat, q: nat)
    requires p <= |b|
    ensures Skip(b, p).res == Ok((), q) <==> exists x :: Stands(b, x) && x.start == p && x.end == q
  {
    hide Skip, Stands;
    if Skip(b, p).res == Ok((), q) { var x := SkipStands(b, p); }
    forall x | Stands(b, x) && x.start == p && x.end == q ensures Skip(b, p).res == Ok((), q) { StandsSkip(b, x); }
  }

  // ---- What the typed reader makes of any bytes -------------------------------------------------------

  lemma BoolMeans(prior: Value, b: seq<byte>, p: nat)
    requires p < |b|
    ensures Decode(LeafT(BoolL), prior, b, p) ==
            if b[p] == 0xb0 then Ok(Bool(false), p + 1)
            else if b[p] == 0xb1 then Ok(Bool(true), p + 1)
            else Err(InvalidHeader, p + 1)
  {}

  /** A float or double is its header and its bytes, lowest first. */
  lemma RealMeans(t: Leaf, prior: Value, b: seq<byte>, p: nat)
    requires p < |b| && (t.FloatL? || t.DoubleL?)
    ensures var n := if t.FloatL? then 4 else 8;
            var r := Decode(LeafT(t), prior, b, p);
            if b[p] != (if t.FloatL? then 0xc4 else 0xc8) then r == Err(InvalidHeader, p + 1)
            else if p + 1 + n > |b| then r == Err(Truncated, p + 1)
            else
              r.Ok? && r.pos == p + 1 + n && r.val.Float? && r.val.bits < Pow256(n) &&
              forall i: nat :: i < n ==> r.val.bits / Pow256(i) % 256 == b[p + 1 + i]
  {
    hide FromLittle, Pow256;
    var n := if t.FloatL? then 4 else 8;
    if p + 1 + n <= |b| {
      var s := b[p + 1..p + 1 + n];
      LittleBound(s);
      forall i: nat | i < n ensures FromLittle(s) / Pow256(i) % 256 == b[p + 1 + i] { LittleValue(s, i); }
    }
  }

  /** The size behind a header of the kind `base`. */
  lemma SizeMeans(base: byte, b: seq<byte>, p: nat)
    requires p < |b| && base <= 0xa0
    ensures ReadSize(base, b, p) ==
            if b[p] < base || b[p] > base + 15 then Err(InvalidHeader, p + 1)
            else if b[p] < base + 15 then Ok(b[p] - base, p + 1)
            else ReadUint(b, p + 1)
  {
    hide ReadUint;
  }

  /** Strings take what is announced; byte arrays no more than they hold, and zeros fill up the rest;
      bitsets exactly their bytes, lowest bit first. */
  lemma RunMeans(t: Leaf, prior: Value, b: seq<byte>, p: nat)
    requires p <= |b| && (t.StringL? || t.BytesL? || t.BitsetL?)
    ensures var n := ReadSize(if t.StringL? then 0x70 else 0x60, b, p);
            var r := Decode(LeafT(t), prior, b, p);
            if n.Err? then r == Err(n.code, n.at)
            else if t.BytesL? && n.val > t.size then r == Err(InvalidSize, n.pos)
            else if t.BitsetL? && n.val != (t.size + 7) / 8 then r == Err(InvalidSize, n.pos)
            else if n.pos + n.val > |b| then r == Err(Truncated, n.pos)
            else
              r.Ok? && r.pos == n.pos + n.val &&
              if t.StringL? then r.val == Blob(b[n.pos..r.pos])
              else if t.BytesL? then
                r.val.Blob? && |r.val.bytes| == t.size &&
                forall i: nat :: i < t.size ==> r.val.bytes[i] == if i < n.val then b[n.pos + i] else 0
              else
                r.val.Flags? && |r.val.flags| == t.size &&
                forall i: nat :: i < t.size ==> r.val.flags[i] == Bitset.BitAt(b[n.pos + i / 8], i % 8)
  {
    hide ReadSize, Bitset.BitAt;
    SizeBelow(if t.StringL? then 0x70 else 0x60, b, p);
  }

  lemma SizeBelow(base: byte, b: seq<byte>, p: nat)
    requires p <= |b|
    ensures ReadSize(base, b, p).Ok? ==> ReadSize(base, b, p).val < U64
  {
    hide ReadUint;
  }

  /** Only the null header empties an optional; what is behind any other is its payload. */
  lemma OptionalMeans(t: Type, prior: Value, b: seq<byte>, p: nat)
    requires t.OptionalT? && p < |b|
    ensures var r, x := Decode(t, prior, b, p), Decode(t.elem, Default(t.elem), b, p);
            if b[p] == 0xb2 then r == Ok(Nothing, p + 1)
            else if x.Ok? then r == Ok(Just(x.val), x.pos)
            else r == Err(x.code, x.at)
  {
    hide Decode;
    OptionalOpens(t, prior, b, p);
  }

  lemma OptionalOpens(t: Type, prior: Value, b: seq<byte>, p: nat)
    requires t.OptionalT? && p <= |b|
    ensures Decode(t, prior, b, p) == DecodeOptional(t, b, p)
  {}

  /** A variant is two values: the index of an alternative there is, and the alternative. */
  lemma VariantMeans(t: Type, prior: Value, b: seq<byte>, p: nat)
    requires t.VariantT? && p <= |b|
    ensures var r, n := Decode(t, prior, b, p), ReadSize(0x80, b, p);
            if n.Err? then r == Err(n.code, n.at)
            else if n.val != 2 then r == Err(InvalidSize, n.pos)
            else
              var k := ReadUint(b, n.pos);
              if k.Err? then r == Err(k.code, k.at)
              else if k.val >= |t.alts| then r == Err(VariantIndexOutOfRange, k.pos)
              else
                var x := Decode(t.alts[k.val], Default(t.alts[k.val]), b, k.pos);
                r == if x.Ok? then Ok(Alt(k.val, x.val), x.pos) else Err(x.code, x.at)
  {
    hide ReadSize, ReadUint, Decode, DecodeAlt;
    VariantOpens(t, prior, b, p);
    var n := ReadSize(0x80, b, p);
    if n.Ok? { AltMeans(t, b, n.pos); }
  }

  lemma VariantOpens(t: Type, prior: Value, b: seq<byte>, p: nat)
    requires t.VariantT? && p <= |b|
    ensures Decode(t, prior, b, p) == DecodeVariant(t, b, p)
  {}

  lemma AltMeans(t: Type, b: seq<byte>, p: nat)
    requires t.VariantT? && p <= |b|
    ensures var k := ReadUint(b, p);
            DecodeAlt(t, b, p) ==
            if k.Err? then Err(k.code, k.at)
            else if k.val >= |t.alts| then Err(VariantIndexOutOfRange, k.pos)
            else
              var x := Decode(t.alts[k.val], Default(t.alts[k.val]), b, k.pos);
              if x.Ok? then Ok(Alt(k.val, x.val), x.pos) else Err(x.code, x.at)
  {
    hide ReadUint, Decode;
  }

  /** A record with id zero is refused, one with an id of no field is skipped, and any other is read
      into its field and no other. */
  lemma RecordMeans(t: Type, cur: seq<Value>, b: seq<byte>, p: nat, k: nat)
    requires t.ObjectT? && UniqueIds(t.fields) && |cur| == |t.fields| && p <= |b| && k < |cur| && ReadUint(b, p).Ok?
    ensures var id := ReadUint(b, p);
            var r := DecodeRecord(t, cur, b, p);
            if id.val == 0 then r == Err(InvalidFieldId, id.pos)
            else if forall f :: f in t.fields ==> f.id != id.val then
              if Skip(b, id.pos).res.Ok? then r == Ok(cur, Skip(b, id.pos).res.pos) else r.Err?
            else
              t.fields[k].id == id.val ==>
                var x := Decode(t.fields[k].ty, cur[k], b, id.pos);
                r == if x.Ok? then Ok(cur[k := x.val], x.pos) else Err(x.code, x.at)
  {
    hide ReadUint, Decode, Skip;
    FieldIndexUnique(t.fields, k);
    var id := ReadUint(b, p).val;
    var i := FieldIndex(t.fields, id, 0);
    if i < |t.fields| { assert t.fields[i] in t.fields; }
  }

  /** A key the map has already is refused once its entry is read. */
  lemma EntryMeans(t: Type, acc: seq<Entry>, b: seq<byte>, p: nat)
    requires t.MapT? && Keyed(t.key, acc) && p <= |b|
    ensures var k := Decode(t.key, Default(t.key), b, p);
            k.Ok? && Key(t.key, k.val) ==>
              var m := Decode(t.mapped, Default(t.mapped), b, k.pos);
              m.Ok? && (exists i :: 0 <= i < |acc| && acc[i].key == k.val) ==>
                DecodeEntry(t, acc, b, p) == Err(DuplicateKey, m.pos)
  {
    hide Decode, Emplace, Key, Compare;
    var k := Decode(t.key, Default(t.key), b, p);
    if k.Ok? && Key(t.key, k.val) {
      var m := Decode(t.mapped, Default(t.mapped), b, k.pos);
      if m.Ok? { EmplaceMap(t.key, acc, Entry(k.val, m.val)); }
    }
  }

  /** A sequence of the wrong length is refused behind its header. */
  lemma WrongCount(t: Type, prior: Value, b: seq<byte>, p: nat)
    requires p <= |b| && ReadSize(0x80, b, p).Ok?
    ensures var n := ReadSize(0x80, b, p);
            (t.ArrayT? && n.val != t.count) || (t.TupleT? && n.val != |t.elems|) ==>
              Decode(t, prior, b, p) == Err(InvalidSize, n.pos)
  {
    hide ReadSize, DecodeElems;
  }
}
