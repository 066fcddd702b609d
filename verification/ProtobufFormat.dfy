// The protobuf format in its own numbers: the records a value is written as, and what any varint,
// key or number read from the wire stands for, stated apart from the reader and the writer.
module ProtobufFormat {
  import opened Bytes
  import opened Schema
  import opened ProtobufWire
  import opened ProtobufCodec
  import Bitset

  // ---- Varints ---------------------------------------------------------------------------------------

  lemma Pow2Group(i: nat)
    ensures Pow2(7 * (i + 1)) == 128 * Pow2(7 * i)
  {
    Pow2Seven();
    Pow2Sum(7, 7 * i);
  }

  /** The i-th base-128 digit. */
  function Digit(n: nat, i: nat): nat { n / Pow2(7 * i) % 128 }

  lemma DigitFirst(n: nat)
    ensures Digit(n, 0) == n % 128
  {}

  lemma DigitNext(n: nat, i: nat)
    ensures Digit(n, i + 1) == Digit(n / 128, i)
  {
    hide Pow2;
    Pow2Group(i);
    DivideTwice(n, 128, Pow2(7 * i));
  }

  /** The writer's varint: base-128 digits, lowest first, all but the last marked. */
  lemma {:induction false} VarintDigits(n: nat)
    ensures var s := ToVarint(n);
            forall i: nat :: i < |s| ==> s[i] == Digit(n, i) + if i + 1 < |s| then 128 else 0
    decreases n
  {
    hide Digit;
    var s := ToVarint(n);
    DigitFirst(n);
    if n >= 128 {
      var rest := ToVarint(n / 128);
      VarintDigits(n / 128);
      assert s == [n % 128 + 128] + rest;
      forall i: nat | i < |s| ensures s[i] == Digit(n, i) + if i + 1 < |s| then 128 else 0 {
        if i > 0 {
          DigitNext(n, i - 1);
          assert s[i] == rest[i - 1];
        }
      }
    }
  }

  /** And no digit too many. */
  lemma {:induction false} VarintSize(n: nat)
    ensures var k := |ToVarint(n)|;
            n < Pow2(7 * k) && (k > 1 ==> Pow2(7 * (k - 1)) <= n)
    decreases n
  {
    hide Pow2;
    Pow2Zero();
    Pow2Group(0);
    if n >= 128 {
      var k := |ToVarint(n / 128)|;
      VarintSize(n / 128);
      Pow2Group(k);
      Pow2Group(k - 1);
      Between(n, Pow2(7 * k));
      if k > 1 { Between(n, Pow2(7 * (k - 1))); }
    }
  }

  lemma Between(n: nat, p: nat)
    ensures n / 128 < p <==> n < 128 * p
  {}

  lemma Pow2Zero()
    ensures Pow2(7 * 0) == 1
  {}

  /** Digit `i` of the number that groups stand for. */
  lemma {:induction false} GroupDigit(s: seq<byte>, i: nat)
    requires i < |s|
    ensures Digit(FromVarint(s), i) == s[i] % 128
  {
    hide Digit;
    var n := FromVarint(s);
    assert n / 128 == FromVarint(s[1..]) && n % 128 == s[0] % 128;
    DigitFirst(n);
    if i > 0 {
      GroupDigit(s[1..], i - 1);
      DigitNext(n, i - 1);
      assert s[1..][i - 1] == s[i];
    }
  }

  lemma {:induction false} GroupBound(s: seq<byte>)
    ensures FromVarint(s) < Pow2(7 * |s|)
  {
    hide Pow2;
    Pow2Zero();
    if s != [] {
      GroupBound(s[1..]);
      Pow2Group(|s| - 1);
    }
  }

  lemma {:induction false} GroupsJoin(s: seq<byte>, t: seq<byte>)
    ensures FromVarint(s + t) == FromVarint(s) + Pow2(7 * |s|) * FromVarint(t)
  {
    hide Pow2;
    Pow2Zero();
    if s == [] {
      assert s + t == t;
    } else {
      assert (s + t)[1..] == s[1..] + t;
      GroupsJoin(s[1..], t);
      Pow2Group(|s| - 1);
      Spread(FromVarint(s[1..]), Pow2(7 * (|s| - 1)), FromVarint(t));
    }
  }

  lemma Spread(a: nat, p: nat, b: nat)
    ensures 128 * (a + p * b) == 128 * a + 128 * p * b
  {}

  /** A varint of up to nine bytes stands for its digits, minimal or not; the tenth byte gives bit 63. */
  lemma VarintMeans(s: seq<byte>)
    requires ReadVarint(s).Got?
    ensures var r := ReadVarint(s);
            s[r.used - 1] < 128 && (forall i: nat :: i < r.used - 1 ==> s[i] >= 128) &&
            if r.used < 10 then
              r.val < Pow2(7 * r.used) && forall i: nat :: i < r.used ==> Digit(r.val, i) == s[i] % 128
            else
              r.val == FromVarint(s[..9]) + Pow2(63) * (s[9] % 2)
  {
    hide Pow2, FromVarint, Digit;
    var r := ReadVarint(s);
    var t := s[..r.used];
    Pow2Word();
    GroupBound(t);
    if r.used < 10 {
      Pow2Grows(7 * r.used, 64);
      forall i: nat | i < r.used ensures Digit(FromVarint(t), i) == s[i] % 128 { GroupDigit(t, i); }
    } else {
      TenGroups(t);
      assert t[..9] == s[..9];
    }
  }

  lemma TenGroups(t: seq<byte>)
    requires |t| == 10
    ensures FromVarint(t) % U64 == FromVarint(t[..9]) + Pow2(63) * (t[9] % 2)
  {
    hide Pow2, FromVarint;
    var a, last := FromVarint(t[..9]), FromVarint([t[9]]);
    assert FromVarint(t) == a + Pow2(63) * last by {
      assert t == t[..9] + [t[9]];
      GroupsJoin(t[..9], [t[9]]);
    }
    assert a < Pow2(63) by { GroupBound(t[..9]); }
    LastGroup(a, last);
    OneGroup(t[9]);
  }

  lemma OneGroup(b: byte)
    ensures FromVarint([b]) % 2 == b % 2
  {
    assert [b][1..] == [];
  }

  lemma LastGroup(a: nat, c: nat)
    requires a < Pow2(63)
    ensures (a + Pow2(63) * c) % U64 == a + Pow2(63) * (c % 2)
  {
    hide Pow2;
    var p := Pow2(63);
    assert U64 == 2 * p by { Pow2Word(); Pow2Sum(1, 63); Pow2First(); }
    assert a + p * c == a + p * (c % 2) + U64 * (c / 2);
  }

  lemma Pow2First()
    ensures Pow2(1) == 2
  {}

  /** Without a byte below 128 among the first ten there is no varint. */
  lemma VarintMissing(s: seq<byte>)
    ensures ReadVarint(s).Bad? <==> forall i :: 0 <= i < |s| && i < 10 ==> s[i] >= 128
    ensures ReadVarint(s).Bad? ==> ReadVarint(s).code == if |s| < 10 then Truncated else InvalidVarint
  {
    hide FromVarint;
  }

  // ---- Keys and numbers ------------------------------------------------------------------------------

  /** A key is eight times the field number plus the wire type; numbers are 32 bits wide. */
  lemma KeyMeans(key: nat)
    ensures WireType(key) <= 7 && FieldNumber(key) <= 0xffff_ffff
    ensures exists high: nat :: key == 8 * (FieldNumber(key) + 0x1_0000_0000 * high) + WireType(key)
  {
    var high := key / 8 / 0x1_0000_0000;
    assert key == 8 * (FieldNumber(key) + 0x1_0000_0000 * high) + WireType(key);
  }

  /** What a number field holds for every varint there is: a bool whether it is not zero, an integer the
      number of its range that agrees with it in the low bits. */
  lemma NumberMeans(t: Leaf, s: seq<byte>, base: nat, o: Value)
    requires ReadVarint(s).Got?
    ensures var n, r := ReadVarint(s), ReadLeaf(t, s, base, o);
            match t
            case BoolL => r == Done(Bool(n.val > 0), n.used)
            case UIntL(w) =>
              r.Done? && r.used == n.used && r.val.Int? && 0 <= r.val.n < Pow2(w.Bits()) &&
              (n.val - r.val.n) % Pow2(w.Bits()) == 0
            case IntL(w) =>
              r.Done? && r.used == n.used && r.val.Int? &&
              0 <= r.val.n + Pow2(w.Bits() - 1) < Pow2(w.Bits()) && (n.val - r.val.n) % Pow2(w.Bits()) == 0
            case _ => true
  {
    hide ReadVarint, Pow2;
    var n := ReadVarint(s).val;
    match t
    case UIntL(w) =>
      WidthRange(w);
      LowBits(n, Pow2(w.Bits()), n % Pow2(w.Bits()));
    case IntL(w) =>
      WidthRange(w);
      Halves(w);
      var m := Pow2(w.Bits());
      LowBits(n, m, if n % m > w.SMax() then n % m - m else n % m);
    case _ =>
  }

  lemma Halves(w: Width)
    ensures Pow2(w.Bits()) == 2 * Pow2(w.Bits() - 1)
  {}

  lemma LowBits(n: nat, m: nat, k: int)
    requires m > 0 && (k == n % m || k == n % m - m)
    ensures (n - k) % m == 0
  {
    var q := n / m;
    assert n == m * q + n % m;
    if k == n % m { Multiple(m, q); } else { Multiple(m, q + 1); }
  }

  lemma Multiple(m: nat, q: nat)
    requires m > 0
    ensures m * q % m == 0
  {
    Quotient(m * q, m, q, 0);
    assert m * q == m * (m * q / m) + m * q % m;
  }

  // ---- Records ---------------------------------------------------------------------------------------

  /** What a message is on the wire: field numbers and untyped contents. */
  datatype Wired =
    | Varint(number: nat, value: nat)
    | Word64(number: nat, bits: nat)
    | Delimited(number: nat, payload: seq<byte>)
    | Word32(number: nat, bits: nat)

  function SpellOne(r: Wired): seq<byte> {
    match r
    case Varint(n, v) => ToVarint(8 * n) + ToVarint(v)
    case Word64(n, b) => ToVarint(8 * n + 1) + ToLittle(b, 8)
    case Delimited(n, p) => ToVarint(8 * n + 2) + ToVarint(|p|) + p
    case Word32(n, b) => ToVarint(8 * n + 5) + ToLittle(b, 4)
  }

  function Spell(rs: seq<Wired>): seq<byte> {
    if rs == [] then [] else SpellOne(rs[0]) + Spell(rs[1..])
  }

  lemma {:induction false} SpellJoin(a: seq<Wired>, b: seq<Wired>)
    ensures Spell(a + b) == Spell(a) + Spell(b)
  {
    hide SpellOne;
    if a == [] {
      assert a + b == b;
    } else {
      assert (a + b)[1..] == a[1..] + b;
      SpellJoin(a[1..], b);
    }
  }

  lemma SpellSingle(r: Wired)
    ensures Spell([r]) == SpellOne(r)
  {
    hide SpellOne;
    assert [r][1..] == [];
  }

  /** A negative integer is its 64-bit two's complement. */
  function Unsigned(n: int): (u: nat)
    requires -I64_LIMIT <= n < U64
  {
    if n < 0 then 0x1_0000_0000_0000_0000 + n else n
  }

  /** A leaf under a field number: numbers bare, byte runs behind their length and without the zeros at
      the end of a byte array. */
  function SaidLeaf(id: nat, t: Leaf, v: Value): Wired
    requires LeafHas(t, v) == true
  {
    match t
    case BoolL => Varint(id, if v.on then 1 else 0)
    case UIntL(_) => Varint(id, v.n)
    case IntL(_) => Varint(id, Unsigned(v.n))
    case FloatL => Word32(id, v.bits)
    case DoubleL => Word64(id, v.bits)
    case StringL => Delimited(id, v.bytes)
    case BytesL(_) => Delimited(id, TrimZeros(v.bytes))
    case BitsetL(_) => Delimited(id, Bitset.Pack(v.flags))
  }

  /** An element of a packed array: what a record of it holds, without the key. */
  function Bare(r: Wired): seq<byte> {
    match r
    case Varint(_, v) => ToVarint(v)
    case Word64(_, b) => ToLittle(b, 8)
    case Word32(_, b) => ToLittle(b, 4)
    case Delimited(_, p) => ToVarint(|p|) + p
  }

  /** The records of a field. An empty optional has none, a map one an entry; tuple elements are numbered
      from 1, and the key and value of an entry are 1 and 2. */
  function Said(id: nat, t: Type, v: Value): seq<Wired>
    requires Message(t, v) == true
    decreases t, 1, 0
  {
    if t.LeafT? then [SaidLeaf(id, t.leaf, v)]
    else if t.OptionalT? then if v.Nothing? then [] else Said(id, t.elem, v.payload)
    else if t.MapT? then SaidEntries(id, t, v.entries, 0)
    else if t.ArrayT? then [Delimited(id, SaidPacked(t, v.items, 0))]
    else if t.TupleT? then [Delimited(id, Spell(SaidElems(t, v.items, 0)))]
    else [Delimited(id, Spell(SaidFields(t, v.items, 0)))]
  }

  function SaidPacked(t: Type, vs: seq<Value>, i: nat): seq<byte>
    requires t.ArrayT? && i <= |vs| && Message(t, List(vs)) == true
    decreases t, 0, |vs| - i
  {
    if i == |vs| then []
    else
      assert HasType(ElemType(t, i), vs[i]);
      Bare(SaidLeaf(0, t.elem.leaf, vs[i])) + SaidPacked(t, vs, i + 1)
  }

  function SaidElems(t: Type, vs: seq<Value>, i: nat): seq<Wired>
    requires t.TupleT? && i <= |vs| && Message(t, List(vs)) == true
    decreases t, 0, |vs| - i
  {
    if i == |vs| then []
    else
      assert HasType(ElemType(t, i), vs[i]);
      Said(i + 1, t.elems[i], vs[i]) + SaidElems(t, vs, i + 1)
  }

  function SaidFields(t: Type, vs: seq<Value>, i: nat): seq<Wired>
    requires t.ObjectT? && i <= |vs| && Message(t, Record(vs)) == true
    decreases t, 0, |vs| - i
  {
    if i == |vs| then [] else Said(t.fields[i].id, t.fields[i].ty, vs[i]) + SaidFields(t, vs, i + 1)
  }

  function SaidEntries(id: nat, t: Type, es: seq<Entry>, i: nat): seq<Wired>
    requires t.MapT? && i <= |es| && Message(t, Dict(es)) == true
    decreases t, 0, |es| - i
  {
    if i == |es| then []
    else
      [Delimited(id, Spell(Said(1, t.key, es[i].key) + Said(2, t.mapped, es[i].mapped)))] +
      SaidEntries(id, t, es, i + 1)
  }

  lemma LeafSpelled(id: nat, t: Leaf, v: Value)
    requires LeafHas(t, v) == true
    ensures Tag(id, LeafWire(t)) + EncodeLeaf(t, v) == SpellOne(SaidLeaf(id, t, v))
    ensures EncodeLeaf(t, v) == Bare(SaidLeaf(0, t, v))
  {
    hide ToVarint, ToLittle, TrimZeros, Bitset.Pack;
  }

  /** Every field is written as the records it says. */
  lemma {:induction false} Spelled(id: nat, t: Type, v: Value)
    requires Message(t, v) == true
    ensures EncodeField(id, t, v) == Spell(Said(id, t, v))
    decreases t, 2, 0
  {
    hide EncodeLeaf, LeafWire, SaidLeaf, EncodePacked, EncodeElems, EncodeFields, EncodeEntries, SaidPacked, SaidElems,
      SaidFields, SaidEntries, ToVarint;
    if t.LeafT? {
      LeafSpelled(id, t.leaf, v);
      SpellSingle(SaidLeaf(id, t.leaf, v));
    } else if t.OptionalT? {
      if v.Just? { Spelled(id, t.elem, v.payload); }
    } else if t.MapT? {
      EntriesSpelled(id, t, v.entries, 0);
    } else {
      BodySpelled(t, v);
      SpellSingle(Said(id, t, v)[0]);
    }
  }

  lemma {:induction false} BodySpelled(t: Type, v: Value)
    requires Message(t, v) == true && (t.ArrayT? || t.TupleT? || t.ObjectT?)
    ensures Said(0, t, v) == [Delimited(0, EncodeBody(t, v))]
    decreases t, 1, 0
  {
    hide EncodePacked, EncodeElems, EncodeFields, SaidPacked, SaidElems, SaidFields;
    if t.ArrayT? { PackedSpelled(t, v.items, 0); }
    else if t.TupleT? { ElemsSpelled(t, v.items, 0); }
    else { FieldsSpelled(t, v.items, 0); }
  }

  lemma {:induction false} PackedSpelled(t: Type, vs: seq<Value>, i: nat)
    requires t.ArrayT? && i <= |vs| && Message(t, List(vs)) == true
    ensures EncodePacked(t, vs, i) == SaidPacked(t, vs, i)
    decreases t, 0, |vs| - i
  {
    hide EncodeLeaf, SaidLeaf, Bare;
    if i < |vs| {
      assert HasType(ElemType(t, i), vs[i]);
      LeafSpelled(0, t.elem.leaf, vs[i]);
      PackedSpelled(t, vs, i + 1);
    }
  }

  lemma {:induction false} ElemsSpelled(t: Type, vs: seq<Value>, i: nat)
    requires t.TupleT? && i <= |vs| && Message(t, List(vs)) == true
    ensures EncodeElems(t, vs, i) == Spell(SaidElems(t, vs, i))
    decreases t, 0, |vs| - i
  {
    hide EncodeField, Said, Spell;
    if i < |vs| {
      assert HasType(ElemType(t, i), vs[i]);
      Spelled(i + 1, t.elems[i], vs[i]);
      ElemsSpelled(t, vs, i + 1);
      SpellJoin(Said(i + 1, t.elems[i], vs[i]), SaidElems(t, vs, i + 1));
    } else {
      SpellNone();
    }
  }

  lemma SpellNone()
    ensures Spell([]) == []
  {}

  lemma {:induction false} FieldsSpelled(t: Type, vs: seq<Value>, i: nat)
    requires t.ObjectT? && i <= |vs| && Message(t, Record(vs)) == true
    ensures EncodeFields(t, vs, i) == Spell(SaidFields(t, vs, i))
    decreases t, 0, |vs| - i
  {
    hide EncodeField, Said, Spell;
    if i < |vs| {
      Spelled(t.fields[i].id, t.fields[i].ty, vs[i]);
      FieldsSpelled(t, vs, i + 1);
      SpellJoin(Said(t.fields[i].id, t.fields[i].ty, vs[i]), SaidFields(t, vs, i + 1));
    } else {
      SpellNone();
    }
  }

  lemma {:induction false} EntriesSpelled(id: nat, t: Type, es: seq<Entry>, i: nat)
    requires t.MapT? && i <= |es| && Message(t, Dict(es)) == true
    ensures EncodeEntries(id, t, es, i) == Spell(SaidEntries(id, t, es, i))
    decreases t, 0, |es| - i
  {
    hide EncodeField, Said, Spell, ToVarint;
    if i < |es| {
      var k, m := Said(1, t.key, es[i].key), Said(2, t.mapped, es[i].mapped);
      Spelled(1, t.key, es[i].key);
      Spelled(2, t.mapped, es[i].mapped);
      SpellJoin(k, m);
      EntriesSpelled(id, t, es, i + 1);
      SpellSingle(Delimited(id, Spell(k + m)));
      SpellJoin([Delimited(id, Spell(k + m))], SaidEntries(id, t, es, i + 1));
    } else {
      SpellNone();
    }
  }

  /** The wire type of every field, by number. */
  function Kind(t: Type): nat
    decreases t
  {
    if t.OptionalT? then Kind(t.elem)
    else if !t.LeafT? then 2
    else match t.leaf
      case BoolL => 0
      case UIntL(_) => 0
      case IntL(_) => 0
      case FloatL => 5
      case DoubleL => 1
      case _ => 2
  }

  function Mark(r: Wired): nat {
    match r case Varint(_, _) => 0 case Word64(_, _) => 1 case Delimited(_, _) => 2 case Word32(_, _) => 5
  }

  /** Whatever a field emits starts with its number and its wire type. */
  lemma FieldKey(id: nat, t: Type, v: Value)
    requires Message(t, v) == true && id < 0x1_0000_0000 && EncodeField(id, t, v) != []
    ensures var k := ReadVarint(EncodeField(id, t, v));
            k.Got? && k.val == 8 * id + Kind(t)
  {
    hide ReadVarint, ToVarint, EncodeField, Said, SpellOne;
    Spelled(id, t, v);
    SaidKind(id, t, v);
    var rs := Said(id, t, v);
    if rs == [] { SpellNone(); } else { StartsWith(rs[0], Spell(rs[1..])); }
  }

  lemma StartsWith(r: Wired, rest: seq<byte>)
    requires r.number < 0x1_0000_0000
    ensures var k := ReadVarint(SpellOne(r) + rest);
            k.Got? && k.val == 8 * r.number + Mark(r)
  {
    hide ReadVarint, ToVarint, ToLittle;
    var key := 8 * r.number + Mark(r);
    var body := Bare(r);
    assert SpellOne(r) + rest == ToVarint(key) + (body + rest);
    VarintRoundTrip(key, body + rest);
  }

  predicate Alike(rs: seq<Wired>, id: nat, wire: nat) {
    forall i :: 0 <= i < |rs| ==> rs[i].number == id && Mark(rs[i]) == wire
  }

  lemma AlikeMore(r: Wired, rs: seq<Wired>, id: nat, wire: nat)
    requires Alike(rs, id, wire) && r.number == id && Mark(r) == wire
    ensures Alike([r] + rs, id, wire)
  {}

  lemma LeafKind(id: nat, t: Leaf, v: Value)
    requires LeafHas(t, v) == true
    ensures SaidLeaf(id, t, v).number == id && Mark(SaidLeaf(id, t, v)) == Kind(LeafT(t))
  {}

  lemma {:induction false} SaidKind(id: nat, t: Type, v: Value)
    requires Message(t, v) == true
    ensures Alike(Said(id, t, v), id, Kind(t))
    decreases t
  {
    hide SaidPacked, SaidElems, SaidFields, SaidLeaf, SaidEntries;
    if t.LeafT? {
      LeafKind(id, t.leaf, v);
    } else if t.OptionalT? {
      if v.Just? { SaidKind(id, t.elem, v.payload); }
    } else if t.MapT? {
      EntriesKind(id, t, v.entries, 0);
    }
  }

  lemma {:induction false} EntriesKind(id: nat, t: Type, es: seq<Entry>, i: nat)
    requires t.MapT? && i <= |es| && Message(t, Dict(es)) == true
    ensures Alike(SaidEntries(id, t, es, i), id, 2)
    decreases |es| - i
  {
    hide Said, Spell;
    if i < |es| {
      EntriesKind(id, t, es, i + 1);
      AlikeMore(SaidEntries(id, t, es, i)[0], SaidEntries(id, t, es, i + 1), id, 2);
    }
  }
}
