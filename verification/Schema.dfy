// Field types, values and the map-key order: what a CONTRACT definition gives every adapter.
module Schema {
  import opened Bytes

  datatype Width = W8 | W16 | W32 | W64 {
    function Bits(): nat {
      match this case W8 => 8 case W16 => 16 case W32 => 32 case W64 => 64
    }
    function UMax(): nat {
      match this
      case W8 => 0xff case W16 => 0xffff case W32 => 0xffff_ffff case W64 => 0xffff_ffff_ffff_ffff
    }
    function SMax(): nat {
      match this
      case W8 => 0x7f case W16 => 0x7fff case W32 => 0x7fff_ffff case W64 => 0x7fff_ffff_ffff_ffff
    }
    function SMin(): int { -1 - SMax() }
  }

  /** Values that hold no other value. Enumerations are their underlying integer. */
  datatype Leaf =
    | BoolL
    | UIntL(width: Width)
    | IntL(width: Width)
    | FloatL
    | DoubleL
    | StringL
    | BytesL(size: nat)                 // fixed array of byte-like elements
    | BitsetL(size: nat)

  /** Value types with a codec; a raw array is an ArrayT. */
  datatype Type =
    | LeafT(leaf: Leaf)
    | ArrayT(elem: Type, count: nat)    // fixed array of elements that are not byte-like
    | VectorT(elem: Type)
    | TupleT(elems: seq<Type>)
    | OptionalT(elem: Type)
    | VariantT(alts: seq<Type>)
    | MapT(key: Type, mapped: Type)
    | ObjectT(fields: seq<Field>)       // flattened CONTRACT fields

  /** `initial` is the value the member has in a default-constructed object. */
  datatype Field = Field(id: int, name: Text, ty: Type, initial: Value)

  datatype Value =
    | Bool(on: bool)
    | Int(n: int)
    | Float(bits: nat)                  // IEEE-754 bit pattern
    | Blob(bytes: seq<byte>)            // string and byte array contents
    | Flags(flags: seq<bool>)
    | List(items: seq<Value>)           // array, vector, tuple
    | Nothing
    | Just(payload: Value)
    | Alt(index: nat, payload: Value)
    | Dict(entries: seq<Entry>)         // iteration order of std::map: keys strictly increasing
    | Record(items: seq<Value>)         // one value per flattened field

  datatype Entry = Entry(key: Value, mapped: Value)

  datatype Option<+T> = None | Some(value: T)

  // ---- Element access shared by the sequence codecs --------------------------------------------

  predicate IsSequence(t: Type) { t.ArrayT? || t.VectorT? || t.TupleT? }

  /** A sequence of type `t` may have `n` elements. */
  predicate LengthOk(t: Type, n: nat)
    requires IsSequence(t)
  {
    if t.ArrayT? then n == t.count else if t.TupleT? then n == |t.elems| else true
  }

  function ElemType(t: Type, i: nat): Type
    requires IsSequence(t) && (t.TupleT? ==> i < |t.elems|)
  {
    if t.TupleT? then t.elems[i] else t.elem
  }

  /** The i-th slot of an object or array that is decoded into in place. */
  function Slot(v: Value, i: nat): Value {
    if (v.List? || v.Record?) && i < |v.items| then v.items[i] else Nothing
  }

  // ---- Typing -------------------------------------------------------------------------------

  predicate LeafHas(t: Leaf, v: Value) {
    match t
    case BoolL => v.Bool?
    case UIntL(w) => v.Int? && 0 <= v.n <= w.UMax()
    case IntL(w) => v.Int? && w.SMin() <= v.n <= w.SMax()
    case FloatL => v.Float? && v.bits < 0x1_0000_0000
    case DoubleL => v.Float? && v.bits < U64
    case StringL => v.Blob? && |v.bytes| < U64
    case BytesL(n) => v.Blob? && |v.bytes| == n < U64
    case BitsetL(n) => v.Flags? && |v.flags| == n < U64
  }

  /** Sizes are `size_t`. */
  predicate HasType(t: Type, v: Value)
    decreases t
  {
    if t.LeafT? then LeafHas(t.leaf, v)
    else if t.OptionalT? then v.Nothing? || (v.Just? && HasType(t.elem, v.payload))
    else if t.VariantT? then v.Alt? && v.index < |t.alts| && v.index < U64 && HasType(t.alts[v.index], v.payload)
    else if t.MapT? then
      v.Dict? && |v.entries| < U64 && Sorted(v.entries) &&
      forall i :: 0 <= i < |v.entries| ==>
        HasType(t.key, v.entries[i].key) && HasType(t.mapped, v.entries[i].mapped)
    else if t.ObjectT? then
      v.Record? && |v.items| == |t.fields| < U64 &&
      forall i :: 0 <= i < |t.fields| ==> HasType(t.fields[i].ty, v.items[i])
    else
      v.List? && |v.items| < U64 && LengthOk(t, |v.items|) &&
      forall i :: 0 <= i < |v.items| ==> HasType(ElemType(t, i), v.items[i])
  }

  /** Positive, unique ids: the static checks on the flattened field tuple. */
  predicate UniqueIds(fs: seq<Field>) {
    (forall i :: 0 <= i < |fs| ==> 0 < fs[i].id < 0x8000_0000) &&
    (forall i, j :: 0 <= i < j < |fs| ==> fs[i].id != fs[j].id)
  }

  /** Types the library accepts at compile time. */
  predicate WellFormed(t: Type)
    decreases t
  {
    if t.LeafT? then true
    else if t.VariantT? then forall i :: 0 <= i < |t.alts| ==> WellFormed(t.alts[i])
    else if t.MapT? then KeyType(t.key) && WellFormed(t.key) && WellFormed(t.mapped)
    else if t.ObjectT? then UniqueIds(t.fields) && forall i :: 0 <= i < |t.fields| ==> WellFormed(t.fields[i].ty)
    else if t.TupleT? then forall i :: 0 <= i < |t.elems| ==> WellFormed(t.elems[i])
    else WellFormed(t.elem)
  }

  /** A value of a legal type. Contracts state it as `Typed(t, v) == true`, an equation the verifier
      keeps whole where it would split a bare predicate into one check per constructor. */
  predicate Typed(t: Type, v: Value) { WellFormed(t) && HasType(t, v) }

  /** Map keys with the standard order and no information lost on the wire. */
  predicate KeyType(t: Type)
    decreases t
  {
    if t.LeafT? then t.leaf.BoolL? || t.leaf.UIntL? || t.leaf.IntL? || t.leaf.StringL? || t.leaf.BytesL?
    else if t.OptionalT? then KeyType(t.elem) && !t.elem.OptionalT?
    else if t.VariantT? then forall i :: 0 <= i < |t.alts| ==> KeyType(t.alts[i])
    else if t.TupleT? then forall i :: 0 <= i < |t.elems| ==> KeyType(t.elems[i])
    else if IsSequence(t) then KeyType(t.elem)
    else false
  }

  function LeafDefault(t: Leaf): Value {
    match t
    case BoolL => Bool(false)
    case UIntL(_) => Int(0)
    case IntL(_) => Int(0)
    case FloatL => Float(0)
    case DoubleL => Float(0)
    case StringL => Blob([])
    case BytesL(n) => Blob(seq(n, _ => 0))
    case BitsetL(n) => Flags(seq(n, _ => false))
  }

  /** A value-initialised object of the type: `T{}`. */
  function Default(t: Type): Value
    decreases t
  {
    match t
    case LeafT(l) => LeafDefault(l)
    case ArrayT(e, n) => List(seq(n, _ => Default(e)))
    case VectorT(_) => List([])
    case TupleT(es) => List(seq(|es|, i requires 0 <= i < |es| => Default(es[i])))
    case OptionalT(_) => Nothing
    case VariantT(alts) => if |alts| == 0 then Nothing else Alt(0, Default(alts[0]))
    case MapT(_, _) => Dict([])
    case ObjectT(fs) => Record(seq(|fs|, i requires 0 <= i < |fs| => fs[i].initial))
  }

  /** The ranges are those of two's complement integers of that many bits. */
  lemma WidthRange(w: Width)
    ensures w.UMax() == Pow2(w.Bits()) - 1 && w.SMax() == Pow2(w.Bits() - 1) - 1 && w.SMin() + Pow2(w.Bits() - 1) == 0
  {
    Pow2Is256(w.Bits() / 8);
    Pow256Eight();
    assert Pow256(1) == 256 && Pow256(2) == 0x1_0000 && Pow256(4) == 0x1_0000_0000;
    assert Pow2(w.Bits()) == 2 * Pow2(w.Bits() - 1);
  }

  /** Numbers zero, strings and containers empty, fixed-size ones full of defaults, the first
      alternative of a variant, and in an object what its initialisers say. */
  ghost predicate Zeroed(t: Type, v: Value)
    decreases t
  {
    match t
    case LeafT(l) =>
      (match l
       case BoolL => v == Bool(false)
       case UIntL(_) => v == Int(0)
       case IntL(_) => v == Int(0)
       case FloatL => v == Float(0)
       case DoubleL => v == Float(0)
       case StringL => v == Blob([])
       case BytesL(n) => v.Blob? && |v.bytes| == n && forall i :: 0 <= i < n ==> v.bytes[i] == 0
       case BitsetL(n) => v.Flags? && |v.flags| == n && forall i :: 0 <= i < n ==> !v.flags[i])
    case ArrayT(e, n) => v.List? && |v.items| == n && forall i :: 0 <= i < n ==> Zeroed(e, v.items[i])
    case VectorT(_) => v == List([])
    case TupleT(es) => v.List? && |v.items| == |es| && forall i :: 0 <= i < |es| ==> Zeroed(es[i], v.items[i])
    case OptionalT(_) => v == Nothing
    case VariantT(alts) => alts != [] ==> v.Alt? && v.index == 0 && Zeroed(alts[0], v.payload)
    case MapT(_, _) => v == Dict([])
    case ObjectT(fs) => v.Record? && |v.items| == |fs| && forall i :: 0 <= i < |fs| ==> v.items[i] == fs[i].initial
  }

  lemma {:induction false} DefaultZeroed(t: Type)
    ensures Zeroed(t, Default(t))
    decreases t
  {
    match t
    case ArrayT(e, _) => DefaultZeroed(e);
    case TupleT(es) =>
      forall i: nat | i < |es| ensures Zeroed(es[i], Default(t).items[i]) { DefaultZeroed(es[i]); }
    case VariantT(alts) => if alts != [] { DefaultZeroed(alts[0]); }
    case _ =>
  }

  // ---- Key order and sorted maps -----------------------------------------------------------------

  /** Three-way comparison of map keys: lexicographic, as std::less on the standard key types. */
  function Compare(a: Value, b: Value): (c: int)
    decreases a, 0
  {
    match a
    case Bool(x) => if b.Bool? then (if x then 1 else 0) - (if b.on then 1 else 0) else 0
    case Int(x) => if b.Int? then x - b.n else 0
    case Blob(x) => if b.Blob? then CompareBytes(x, b.bytes) else 0
    case List(_) => if b.List? then CompareItems(a, b.items, 0) else 0
    case Nothing => if b.Just? then -1 else 0
    case Just(x) => if b.Just? then Compare(x, b.payload) else if b.Nothing? then 1 else 0
    case Alt(i, x) => if !b.Alt? then 0 else if i == b.index then Compare(x, b.payload) else i - b.index
    case _ => 0
  }

  function CompareBytes(x: seq<byte>, y: seq<byte>): int {
    if x == [] then -|y|
    else if y == [] then 1
    else if x[0] != y[0] then x[0] - y[0]
    else CompareBytes(x[1..], y[1..])
  }

  function CompareItems(a: Value, y: seq<Value>, k: nat): int
    requires a.List? && k <= |a.items|
    decreases a, 0, |a.items| - k
  {
    if k == |a.items| then k - |y|
    else if k >= |y| then 1
    else
      var c := Compare(a.items[k], y[k]);
      if c != 0 then c else CompareItems(a, y, k + 1)
  }

  predicate Sorted(es: seq<Entry>) {
    forall i, j :: 0 <= i < j < |es| ==> Compare(es[i].key, es[j].key) < 0
  }

  /** `std::map::emplace`: nothing is inserted when an equivalent key is present. */
  function Emplace(es: seq<Entry>, e: Entry): (r: Option<seq<Entry>>) {
    if es == [] then Some([e])
    else
      var c := Compare(es[0].key, e.key);
      if c == 0 then None
      else if c > 0 then Some([e] + es)
      else match Emplace(es[1..], e)
        case None => None
        case Some(rest) => Some([es[0]] + rest)
  }

  /** `std::map::insert_or_assign` */
  function InsertOrAssign(es: seq<Entry>, e: Entry): (r: seq<Entry>)
    ensures |r| > 0
  {
    if es == [] then [e]
    else
      var c := Compare(es[0].key, e.key);
      if c == 0 then [es[0].(mapped := e.mapped)] + es[1..]
      else if c > 0 then [e] + es
      else [es[0]] + InsertOrAssign(es[1..], e)
  }

  // ---- Shared by the adapters ---------------------------------------------------------------

  /** `trim_trailing_zeros` */
  function TrimZeros(s: seq<byte>): (r: seq<byte>)
    ensures |r| <= |s| && r == s[..|r|]
  {
    if s == [] || s[|s| - 1] != 0 then s else TrimZeros(s[..|s| - 1])
  }

  function Fill(s: seq<byte>, n: nat): (r: seq<byte>)
    requires |s| <= n
    ensures |r| == n
  {
    s + seq(n - |s|, _ => 0)
  }

  /** What is cut off is zeros, and all of them. */
  lemma {:induction false} TrimMeans(s: seq<byte>)
    ensures var r := TrimZeros(s);
            (forall i :: |r| <= i < |s| ==> s[i] == 0) && (r != [] ==> r[|r| - 1] != 0)
  {
    if s != [] && s[|s| - 1] == 0 { TrimMeans(s[..|s| - 1]); }
  }

  lemma FillMore(s: seq<byte>, n: nat)
    requires |s| <= n
    ensures Fill(s, n + 1) == Fill(s, n) + [0]
  {}

  lemma {:induction false} TrimFill(s: seq<byte>)
    ensures Fill(TrimZeros(s), |s|) == s
  {
    if s != [] && s[|s| - 1] == 0 {
      var u := s[..|s| - 1];
      TrimFill(u);
      FillMore(TrimZeros(u), |u|);
      assert s == u + [0];
    }
  }

  /** Index of the field the wire id dispatches to; `|fs|` when there is none. */
  function FieldIndex(fs: seq<Field>, id: int, i: nat): (k: nat)
    requires i <= |fs|
    ensures i <= k <= |fs|
    ensures k < |fs| ==> fs[k].id == id
    ensures forall j :: i <= j < k ==> fs[j].id != id
    decreases |fs| - i
  {
    if i == |fs| || fs[i].id == id then i else FieldIndex(fs, id, i + 1)
  }

  lemma FieldIndexUnique(fs: seq<Field>, i: nat)
    requires UniqueIds(fs) && i < |fs|
    ensures FieldIndex(fs, fs[i].id, 0) == i
  {}

  /** Index of the field a text key dispatches to; `|fs|` when there is none. */
  function NameIndex(fs: seq<Field>, name: Text, i: nat): (k: nat)
    requires i <= |fs|
    ensures i <= k <= |fs|
    ensures k < |fs| ==> fs[k].name == name
    ensures forall j :: i <= j < k ==> fs[j].name != name
    decreases |fs| - i
  {
    if i == |fs| || fs[i].name == name then i else NameIndex(fs, name, i + 1)
  }

  // ---- Wire order ------------------------------------------------------------------------------

  /** In which order the fields of each object stand on the wire. `Plain` is the declared order; any
      other tree describes what another writer may send. */
  datatype Order = Order(perm: seq<nat>, kids: seq<Order>)

  const Plain := Order([], [])

  predicate IsPermutation(perm: seq<nat>, n: nat) {
    |perm| == n &&
    (forall k :: 0 <= k < n ==> perm[k] < n) &&
    (forall j, k :: 0 <= j < k < n ==> perm[j] != perm[k])
  }

  function Permutation(o: Order, n: nat): (perm: seq<nat>)
    ensures IsPermutation(perm, n)
  {
    if IsPermutation(o.perm, n) then o.perm else seq(n, i requires 0 <= i < n => i)
  }

  function Kid(o: Order, i: nat): Order { if i < |o.kids| then o.kids[i] else Plain }

  function UpTo(n: nat): (s: set<nat>)
    ensures |s| == n && forall x: nat :: x in s <==> x < n
  {
    if n == 0 then {} else UpTo(n - 1) + {n - 1}
  }

  function Named(s: seq<nat>): (r: set<nat>)
    ensures forall x :: x in r <==> x in s
    ensures (forall j, k :: 0 <= j < k < |s| ==> s[j] != s[k]) ==> |r| == |s|
  {
    if s == [] then {} else
      assert s == s[..|s| - 1] + [s[|s| - 1]];
      Named(s[..|s| - 1]) + {s[|s| - 1]}
  }

  /** An injective list of n indices below n names every index. */
  lemma PermutationCovers(perm: seq<nat>, n: nat, i: nat)
    requires IsPermutation(perm, n) && i < n
    ensures i in perm
  {
    SubsetEqual(Named(perm), UpTo(n));
    assert i in UpTo(n);
  }

  lemma SubsetEqual(a: set<nat>, b: set<nat>)
    requires a <= b && |a| == |b|
    ensures a == b
  {
    assert |b - a| == |b| - |a|;
  }
}
