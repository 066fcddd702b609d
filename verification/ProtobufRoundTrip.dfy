// When a protobuf message decodes to what was encoded: exactly when every engaged optional and every
// tuple element is sent as one record, and the target holds nothing that no record replaces.
module ProtobufRoundTrip {
  import opened Bytes
  import opened Schema
  import opened ProtobufWire
  import opened ProtobufCodec
  import opened ProtobufLanding
  import KeyOrder

  /** How many records the writer emits for a field. */
  function Count(t: Type, v: Value): nat
    decreases t
  {
    if t.OptionalT? then if v.Just? then Count(t.elem, v.payload) else 0
    else if t.MapT? then if v.Dict? then |v.entries| else 0
    else 1
  }

  /** A target in which a value arrives as itself. An optional that sends no record needs a slot that
      already holds its value; one that sends any must send just one, and its payload starts from the
      default. Keys and mapped values start from their defaults, and entries the target has besides are
      in the way. Every element of a tuple must send one record. */
  predicate Fits(t: Type, v: Value, o: Value)
    requires Message(t, v) == true
    decreases t
  {
    if t.LeafT? || t.ArrayT? then true
    else if t.OptionalT? then
      if Count(t, v) == 0 then o == v else Count(t, v) == 1 && Fits(t.elem, v.payload, Default(t.elem))
    else if t.MapT? then
      (forall i :: 0 <= i < |v.entries| ==>
         Fits(t.key, v.entries[i].key, Default(t.key)) && Fits(t.mapped, v.entries[i].mapped, Default(t.mapped))) &&
      (o.Dict? ==> forall i :: 0 <= i < |o.entries| ==> KeyOrder.Names(v.entries, o.entries[i].key))
    else if t.TupleT? then
      forall i :: 0 <= i < |v.items| ==> ElemFits(t, v.items, o, i)
    else forall i :: 0 <= i < |v.items| ==> Fits(t.fields[i].ty, v.items[i], Slot(o, i))
  }

  predicate ElemFits(t: Type, vs: seq<Value>, o: Value, i: nat)
    requires t.TupleT? && i < |vs| && Message(t, List(vs)) == true
    decreases t, 0
  {
    assert HasType(ElemType(t, i), vs[i]);
    Count(t.elems[i], vs[i]) == 1 && Fits(t.elems[i], vs[i], Slot(o, i))
  }

  /** The default object is an object of the type. */
  lemma {:induction false} DefaultTyped(t: Type, v: Value)
    requires Message(t, v) == true
    ensures HasType(t, Default(t))
    decreases t
  {
    if t.TupleT? {
      forall i: nat | i < |t.elems| ensures HasType(ElemType(t, i), Default(t.elems[i])) {
        assert HasType(ElemType(t, i), v.items[i]);
        DefaultTyped(t.elems[i], v.items[i]);
      }
    }
  }

  lemma {:induction false} PartsCount(t: Type, v: Value)
    requires Message(t, v) == true
    ensures |Parts(t, v)| == Count(t, v)
    decreases t
  {
    if t.OptionalT? && v.Just? { PartsCount(t.elem, v.payload); }
  }

  /** One record decoded into an empty map or any other target makes a value of one record. */
  lemma {:induction false} TakeCount(t: Type, o: Value, p: Value)
    requires IsPart(t, p) == true && (t.MapT? ==> o == Dict([])) && Take(t, o, p).Some?
    ensures Count(t, Take(t, o, p).value) == 1
    decreases t
  {
    hide Fold, TakeItems, TakeElems, TakeFields, TakeFresh, TakeEntry, Take;
    TakeStep(t, o, p);
    if t.OptionalT? {
      FreshStep(t, p);
      TakeCount(t.elem, Default(t.elem), p.payload);
    } else if t.MapT? {
      TakeEntryStep(t, o, p);
    }
  }

  // ---- Slot by slot ------------------------------------------------------------------------------

  /** What a field's records make of a target. */
  function Landed(t: Type, o: Value, v: Value): Option<Value>
    requires Message(t, v) == true
  {
    Fold(t, o, Parts(t, v))
  }

  lemma FoldOne(t: Type, o: Value, p: Value)
    requires IsPart(t, p) == true
    ensures Fold(t, o, [p]) == Take(t, o, p)
  {
    hide Take, IsPart;
    assert [p][1..] == [];
  }

  lemma FoldStep(t: Type, o: Value, ps: seq<Value>)
    requires AllParts(t, ps) == true
    ensures Fold(t, o, ps) == if ps == [] then Some(o) else match Take(t, o, ps[0])
                                                            case None => None
                                                            case Some(x) => Fold(t, x, ps[1..])
  {
    hide Take, IsPart;
  }

  lemma {:induction false} ItemsLand(o: Value, vs: seq<Value>, i: nat)
    requires o.List? && |o.items| == |vs| && i <= |vs| && o.items[..i] == vs[..i]
    ensures TakeItems(o, vs, i) == List(vs)
    decreases |vs| - i
  {
    if i == |vs| {
      assert o.items == vs;
    } else {
      var o' := List(o.items[i := vs[i]]);
      assert o'.items[..i + 1] == vs[..i + 1];
      ItemsLand(o', vs, i + 1);
    }
  }

  lemma ElemTyped(t: Type, vs: seq<Value>, j: nat)
    requires t.TupleT? && j < |vs| && Message(t, List(vs)) == true
    ensures |vs| == |t.elems| && Message(t.elems[j], vs[j])
  {
    assert HasType(ElemType(t, j), vs[j]);
  }

  /** What element j arrives as in the target's slot. */
  function ElemArrives(t: Type, o: Value, vs: seq<Value>, j: nat): Option<Value>
    requires t.TupleT? && j < |vs| && Message(t, List(vs)) == true
  {
    ElemTyped(t, vs, j);
    if Count(t.elems[j], vs[j]) == 1 then Landed(t.elems[j], Slot(o, j), vs[j]) else None
  }

  lemma ElemStep(t: Type, o: Value, vs: seq<Value>, i: nat)
    requires t.TupleT? && i < |vs| && Message(t, List(vs)) == true
    ensures TakeElems(t, o, vs, i) == match ElemArrives(t, o, vs, i)
                                      case None => None
                                      case Some(x) => TakeElems(t, SetSlot(o, i, x), vs, i + 1)
  {
    hide Parts, Take, Count, Slot, SetSlot, Fold;
    ElemTyped(t, vs, i);
    var ps := Parts(t.elems[i], vs[i]);
    PartsCount(t.elems[i], vs[i]);
    if |ps| == 1 {
      assert ps == [ps[0]];
      FoldOne(t.elems[i], Slot(o, i), ps[0]);
    }
  }

  /** A tuple lands when all its elements do, and each in its own slot. */
  lemma {:induction false} ElemsArrive(t: Type, o: Value, vs: seq<Value>, i: nat)
    requires t.TupleT? && i <= |vs| && Message(t, List(vs)) == true && o.List? && |o.items| == |vs|
    ensures var y := TakeElems(t, o, vs, i);
            (y.Some? <==> forall j :: i <= j < |vs| ==> ElemArrives(t, o, vs, j).Some?) &&
            (y.Some? ==>
               y.value.List? && |y.value.items| == |vs| && y.value.items[..i] == o.items[..i] &&
               forall j :: i <= j < |vs| ==> ElemArrives(t, o, vs, j) == Some(y.value.items[j]))
    decreases |vs| - i
  {
    hide ElemArrives, TakeElems;
    if i == |vs| {
      NoElems(t, o, vs);
    } else {
      ElemStep(t, o, vs, i);
      var x := ElemArrives(t, o, vs, i);
      if x.Some? {
        var o' := SetSlot(o, i, x.value);
        forall j: nat | i < j < |vs| ensures ElemArrives(t, o', vs, j) == ElemArrives(t, o, vs, j) {
          ElemSlot(t, o, o', vs, j);
        }
        ElemsArrive(t, o', vs, i + 1);
        var y := TakeElems(t, o', vs, i + 1);
        if y.Some? { SlotKept(y.value.items, o.items, i, x.value); }
      }
    }
  }

  lemma NoElems(t: Type, o: Value, vs: seq<Value>)
    requires t.TupleT? && Message(t, List(vs)) == true
    ensures TakeElems(t, o, vs, |vs|) == Some(o)
  {}

  lemma ElemSlot(t: Type, o: Value, o': Value, vs: seq<Value>, j: nat)
    requires t.TupleT? && j < |vs| && Message(t, List(vs)) == true && Slot(o, j) == Slot(o', j)
    ensures ElemArrives(t, o', vs, j) == ElemArrives(t, o, vs, j)
  {}

  lemma SlotKept(ys: seq<Value>, os: seq<Value>, i: nat, x: Value)
    requires i < |os| && i + 1 <= |ys| && ys[..i + 1] == os[i := x][..i + 1]
    ensures ys[i] == x && ys[..i] == os[..i]
  {
    assert ys[i] == ys[..i + 1][i];
    assert ys[..i] == ys[..i + 1][..i] == os[i := x][..i + 1][..i];
  }

  function FieldArrives(t: Type, o: Value, vs: seq<Value>, j: nat): Option<Value>
    requires t.ObjectT? && j < |vs| && Message(t, Record(vs)) == true
  {
    Landed(t.fields[j].ty, Slot(o, j), vs[j])
  }

  lemma {:induction false} FoldInSlot(t: Type, o: Value, i: nat, ps: seq<Value>)
    requires t.ObjectT? && i < |t.fields| && AllParts(t.fields[i].ty, ps) == true && o.Record? && i < |o.items|
    ensures FoldAt(t, o, i, ps) == match Fold(t.fields[i].ty, o.items[i], ps)
                                   case None => None
                                   case Some(x) => Some(SetSlot(o, i, x))
    decreases |ps|
  {
    hide Take, IsPart;
    if ps == [] {
      assert o.items[i := o.items[i]] == o.items;
    } else {
      var x := Take(t.fields[i].ty, o.items[i], ps[0]);
      if x.Some? {
        var o' := SetSlot(o, i, x.value);
        FoldInSlot(t, o', i, ps[1..]);
        forall z ensures SetSlot(o', i, z) == SetSlot(o, i, z) { assert o'.items[i := z] == o.items[i := z]; }
      }
    }
  }

  lemma FieldStep(t: Type, o: Value, vs: seq<Value>, i: nat)
    requires t.ObjectT? && i < |vs| && Message(t, Record(vs)) == true && o.Record? && |o.items| == |vs|
    ensures TakeFields(t, o, vs, i) == match FieldArrives(t, o, vs, i)
                                       case None => None
                                       case Some(x) => TakeFields(t, SetSlot(o, i, x), vs, i + 1)
  {
    hide Parts, SetSlot, Fold, FoldAt;
    FoldInSlot(t, o, i, Parts(t.fields[i].ty, vs[i]));
  }

  lemma NoFields(t: Type, o: Value, vs: seq<Value>)
    requires t.ObjectT? && Message(t, Record(vs)) == true
    ensures TakeFields(t, o, vs, |vs|) == Some(o)
  {}

  lemma FieldSlot(t: Type, o: Value, o': Value, vs: seq<Value>, j: nat)
    requires t.ObjectT? && j < |vs| && Message(t, Record(vs)) == true && Slot(o, j) == Slot(o', j)
    ensures FieldArrives(t, o', vs, j) == FieldArrives(t, o, vs, j)
  {}

  /** An object lands when all its fields do, and each in its own slot. */
  lemma {:induction false} FieldsArrive(t: Type, o: Value, vs: seq<Value>, i: nat)
    requires t.ObjectT? && i <= |vs| && Message(t, Record(vs)) == true && o.Record? && |o.items| == |vs|
    ensures var y := TakeFields(t, o, vs, i);
            (y.Some? <==> forall j :: i <= j < |vs| ==> FieldArrives(t, o, vs, j).Some?) &&
            (y.Some? ==>
               y.value.Record? && |y.value.items| == |vs| && y.value.items[..i] == o.items[..i] &&
               forall j :: i <= j < |vs| ==> FieldArrives(t, o, vs, j) == Some(y.value.items[j]))
    decreases |vs| - i
  {
    hide FieldArrives, TakeFields;
    if i == |vs| {
      NoFields(t, o, vs);
    } else {
      FieldStep(t, o, vs, i);
      var x := FieldArrives(t, o, vs, i);
      if x.Some? {
        var o' := SetSlot(o, i, x.value);
        forall j: nat | i < j < |vs| ensures FieldArrives(t, o', vs, j) == FieldArrives(t, o, vs, j) {
          FieldSlot(t, o, o', vs, j);
        }
        FieldsArrive(t, o', vs, i + 1);
        var y := TakeFields(t, o', vs, i + 1);
        if y.Some? { SlotKept(y.value.items, o.items, i, x.value); }
      }
    }
  }

  // ---- Maps ----------------------------------------------------------------------------------------

  function KeyArrives(t: Type, es: seq<Entry>, j: nat): Option<Value>
    requires t.MapT? && j < |es| && Message(t, Dict(es)) == true
  {
    Landed(t.key, Default(t.key), es[j].key)
  }

  /** The mapped value of entry j as it arrives, if its key does too. */
  function EntryArrives(t: Type, es: seq<Entry>, j: nat): Option<Value>
    requires t.MapT? && j < |es| && Message(t, Dict(es)) == true
  {
    if KeyArrives(t, es, j).None? then None else Landed(t.mapped, Default(t.mapped), es[j].mapped)
  }

  ghost predicate KeysKept(t: Type, es: seq<Entry>)
    requires t.MapT? && Message(t, Dict(es)) == true
  {
    forall j :: 0 <= j < |es| && KeyArrives(t, es, j).Some? ==> KeyArrives(t, es, j).value == es[j].key
  }

  /** The entries as they arrive, if all of them do. */
  function Arrived(t: Type, es: seq<Entry>): (xs: seq<Entry>)
    requires t.MapT? && Message(t, Dict(es)) == true
    ensures |xs| == |es|
  {
    seq(|es|, j requires 0 <= j < |es| =>
      var m := EntryArrives(t, es, j); Entry(es[j].key, if m.Some? then m.value else Nothing))
  }

  lemma EntryFold(t: Type, es: seq<Entry>, i: nat, acc: seq<Entry>)
    requires t.MapT? && i < |es| && Message(t, Dict(es)) == true && KeysKept(t, es)
    ensures Fold(t, Dict(acc), Parts(t, Dict(es))[i..]) ==
            match EntryArrives(t, es, i)
            case None => None
            case Some(m) => Fold(t, Dict(InsertOrAssign(acc, Entry(es[i].key, m))), Parts(t, Dict(es))[i + 1..])
  {
    hide Fold, Take, InsertOrAssign, TakeEntry, Default;
    var ps, p := Parts(t, Dict(es)), Dict([es[i]]);
    assert ps[i..][0] == p && ps[i..][1..] == ps[i + 1..];
    FoldStep(t, Dict(acc), ps[i..]);
    TakeStep(t, Dict(acc), p);
    TakeEntryStep(t, Dict(acc), p);
  }

  /** The entries of a map are assigned one after another, provided keys arrive unchanged. */
  lemma {:induction false} EntriesArrive(t: Type, es: seq<Entry>, i: nat, acc: seq<Entry>)
    requires t.MapT? && i <= |es| && Message(t, Dict(es)) == true && KeysKept(t, es)
    ensures var y := Fold(t, Dict(acc), Parts(t, Dict(es))[i..]);
            (y.Some? <==> forall j :: i <= j < |es| ==> EntryArrives(t, es, j).Some?) &&
            (y.Some? ==> y.value == Dict(KeyOrder.AssignAll(acc, Arrived(t, es)[i..])))
    decreases |es| - i
  {
    hide Fold, EntryArrives, KeyArrives, Message, InsertOrAssign;
    var xs := Arrived(t, es);
    if i == |es| {
      FoldStep(t, Dict(acc), Parts(t, Dict(es))[i..]);
      assert xs[i..] == [];
    } else {
      EntryFold(t, es, i, acc);
      var m := EntryArrives(t, es, i);
      if m.Some? {
        EntriesArrive(t, es, i + 1, InsertOrAssign(acc, Entry(es[i].key, m.value)));
        assert xs[i..][0] == xs[i] == Entry(es[i].key, m.value) && xs[i..][1..] == xs[i + 1..];
      }
    }
  }

  // ---- Optionals -----------------------------------------------------------------------------------

  /** However many records arrive, an optional keeps what the last of them made of a fresh payload. */
  lemma {:induction false} FoldFresh(t: Type, o: Value, ps: seq<Value>)
    requires t.OptionalT? && AllParts(t, ps) == true && ps != []
    ensures var y := Fold(t, o, ps);
            (y.Some? ==> y == TakeFresh(t, ps[|ps| - 1])) &&
            (y.Some? <==> forall k :: 0 <= k < |ps| ==> TakeFresh(t, ps[k]).Some?)
    decreases |ps|
  {
    hide Fold, Take, TakeFresh, IsPart;
    FoldStep(t, o, ps);
    TakeStep(t, o, ps[0]);
    var x := TakeFresh(t, ps[0]);
    if x.Some? {
      if |ps| == 1 { FoldStep(t, x.value, ps[1..]); } else { FoldFresh(t, x.value, ps[1..]); }
      assert forall k :: 1 <= k < |ps| ==> ps[k] == ps[1..][k - 1];
    }
  }

  lemma {:induction false} OptionalFits(t: Type, v: Value, o: Value)
    requires Message(t, v) == true && t.OptionalT?
    ensures Landed(t, o, v) == Some(v) <==> Fits(t, v, o)
    decreases t, 0
  {
    hide Fold, Take, TakeFresh, IsPart, Count, Default, Fits;
    PartsCount(t, v);
    FoldStep(t, o, Parts(t, v));
    OptionalFacts(t, v, o);
    if v.Just? {
      var ps := Parts(t.elem, v.payload);
      PartsCount(t.elem, v.payload);
      if ps != [] {
        var last := ps[|ps| - 1];
        FoldFresh(t, o, Wrapped(ps));
        assert Wrapped(ps)[|ps| - 1] == Just(last);
        FreshStep(t, Just(last));
        DefaultTyped(t.elem, v.payload);
        LandsFits(t.elem, v.payload, Default(t.elem));
        if |ps| == 1 {
          assert ps == [last];
          FoldOne(t.elem, Default(t.elem), last);
        } else if Take(t.elem, Default(t.elem), last).Some? {
          MapDefault(t.elem);
          TakeCount(t.elem, Default(t.elem), last);
        }
      }
    }
  }

  lemma MapDefault(t: Type)
    ensures t.MapT? ==> Default(t) == Dict([])
  {}

  lemma OptionalFacts(t: Type, v: Value, o: Value)
    requires Message(t, v) == true && t.OptionalT?
    ensures v.Nothing? || v.Just?
    ensures v.Just? ==>
              Message(t.elem, v.payload) && Parts(t, v) == Wrapped(Parts(t.elem, v.payload)) &&
              Count(t, v) == Count(t.elem, v.payload)
    ensures v.Nothing? ==> Parts(t, v) == [] && Count(t, v) == 0
    ensures Fits(t, v, o) <==>
              if Count(t, v) == 0 then o == v else Count(t, v) == 1 && Fits(t.elem, v.payload, Default(t.elem))
  {
    hide Default;
  }

  // ---- The condition -------------------------------------------------------------------------------

  /** A value decodes to itself in a target of its type exactly when it fits the target. */
  lemma {:induction false} LandsFits(t: Type, v: Value, o: Value)
    requires Message(t, v) == true && HasType(t, o) == true
    ensures Landed(t, o, v) == Some(v) <==> Fits(t, v, o)
    decreases t, 1
  {
    hide Fold, Take, TakeItems, TakeElems, TakeFields, Default;
    if t.OptionalT? {
      OptionalFits(t, v, o);
    } else if t.MapT? {
      MapFits(t, v, o);
    } else {
      assert Parts(t, v) == [v];
      FoldOne(t, o, v);
      TakeStep(t, o, v);
      if t.ArrayT? { ItemsLand(o, v.items, 0); }
      else if t.TupleT? { TupleFits(t, v.items, o); }
      else if t.ObjectT? { ObjectFits(t, v.items, o); }
    }
  }

  lemma {:induction false} TupleFits(t: Type, vs: seq<Value>, o: Value)
    requires t.TupleT? && Message(t, List(vs)) == true && HasType(t, o) == true
    ensures TakeElems(t, o, vs, 0) == Some(List(vs)) <==> Fits(t, List(vs), o)
    decreases t, 0
  {
    hide TakeElems, Landed, Count, Default;
    forall j: nat | j < |vs| ensures ElemArrives(t, o, vs, j) == Some(vs[j]) <==> ElemFits(t, vs, o, j) {
      ElemTyped(t, vs, j);
      assert HasType(ElemType(t, j), o.items[j]);
      LandsFits(t.elems[j], vs[j], o.items[j]);
    }
    ElemsArrive(t, o, vs, 0);
    SameWhenAll(t, o, vs);
  }

  lemma SameWhenAll(t: Type, o: Value, vs: seq<Value>)
    requires t.TupleT? && Message(t, List(vs)) == true
    requires var y := TakeElems(t, o, vs, 0);
             (y.Some? <==> forall j :: 0 <= j < |vs| ==> ElemArrives(t, o, vs, j).Some?) &&
             (y.Some? ==>
                y.value.List? && |y.value.items| == |vs| &&
                forall j :: 0 <= j < |vs| ==> ElemArrives(t, o, vs, j) == Some(y.value.items[j]))
    ensures TakeElems(t, o, vs, 0) == Some(List(vs)) <==>
            forall j :: 0 <= j < |vs| ==> ElemArrives(t, o, vs, j) == Some(vs[j])
  {
    hide TakeElems, ElemArrives;
    var y := TakeElems(t, o, vs, 0);
    if forall j :: 0 <= j < |vs| ==> ElemArrives(t, o, vs, j) == Some(vs[j]) {
      assert y.value.items == vs;
    }
  }

  lemma {:induction false} ObjectFits(t: Type, vs: seq<Value>, o: Value)
    requires t.ObjectT? && Message(t, Record(vs)) == true && HasType(t, o) == true
    ensures TakeFields(t, o, vs, 0) == Some(Record(vs)) <==> Fits(t, Record(vs), o)
    decreases t, 0
  {
    hide TakeFields, Landed, Count, Default;
    forall j: nat | j < |vs|
      ensures FieldArrives(t, o, vs, j) == Some(vs[j]) <==> Fits(t.fields[j].ty, vs[j], Slot(o, j))
    {
      LandsFits(t.fields[j].ty, vs[j], o.items[j]);
    }
    FieldsArrive(t, o, vs, 0);
    var y := TakeFields(t, o, vs, 0);
    if Fits(t, Record(vs), o) {
      assert forall j :: 0 <= j < |vs| ==> FieldArrives(t, o, vs, j) == Some(vs[j]);
      assert y.value.items == vs;
    }
  }

  /** A map key that arrives at all arrives unchanged. */
  lemma {:induction false} KeyFits(t: Type, v: Value)
    requires Message(t, v) == true && KeyType(t) && Landed(t, Default(t), v).Some?
    ensures Fits(t, v, Default(t))
    decreases t
  {
    hide Fold, Take, TakeElems, TakeFresh, Default;
    if t.OptionalT? {
      EmptyDefault(t);
      if v.Just? {
        var ps := Parts(t.elem, v.payload);
        PartsCount(t.elem, v.payload);
        assert ps == [v.payload];
        FoldFresh(t, Default(t), Wrapped(ps));
        FreshStep(t, Just(v.payload));
        FoldOne(t.elem, Default(t.elem), v.payload);
        KeyFits(t.elem, v.payload);
      }
    } else if t.TupleT? {
      FoldOne(t, Default(t), v);
      TakeStep(t, Default(t), v);
      KeyElems(t, v.items);
    }
  }

  lemma EmptyDefault(t: Type)
    requires t.OptionalT?
    ensures Default(t) == Nothing
  {}

  lemma TupleDefault(t: Type, j: nat)
    requires t.TupleT? && j < |t.elems|
    ensures Default(t).List? && |Default(t).items| == |t.elems| && Slot(Default(t), j) == Default(t.elems[j])
  {}

  lemma {:induction false} KeyElems(t: Type, vs: seq<Value>)
    requires t.TupleT? && Message(t, List(vs)) == true && KeyType(t)
    requires TakeElems(t, Default(t), vs, 0).Some?
    ensures Fits(t, List(vs), Default(t))
    decreases t, 0
  {
    hide TakeElems, Landed, Count, Default;
    if vs != [] { TupleDefault(t, 0); ElemsArrive(t, Default(t), vs, 0); }
    forall j: nat | j < |vs| ensures ElemFits(t, vs, Default(t), j) {
      ElemTyped(t, vs, j);
      TupleDefault(t, j);
      assert ElemArrives(t, Default(t), vs, j).Some?;
      KeyFits(t.elems[j], vs[j]);
    }
  }

  lemma {:induction false} MapFits(t: Type, v: Value, o: Value)
    requires Message(t, v) == true && HasType(t, o) == true && t.MapT?
    ensures Landed(t, o, v) == Some(v) <==> Fits(t, v, o)
    decreases t, 0, 1
  {
    hide Fold, Parts, Default, Arrived;
    var es := v.entries;
    forall j: nat | j < |es|
      ensures KeyArrives(t, es, j).Some? ==> KeyArrives(t, es, j).value == es[j].key
      ensures EntryArrives(t, es, j) == Some(es[j].mapped) <==> EntryFits(t, es, j)
    {
      EntryArrivesFits(t, es, j);
    }
    EntriesArrive(t, es, 0, o.entries);
    assert Parts(t, v)[0..] == Parts(t, v) && Arrived(t, es)[0..] == Arrived(t, es);
    ArrivedSame(t, es);
    KeyOrder.AssignAllSame(t.key, o.entries, Arrived(t, es), es);
    MapFacts(t, es, o);
  }

  predicate EntryFits(t: Type, es: seq<Entry>, j: nat)
    requires t.MapT? && j < |es| && Message(t, Dict(es)) == true
  {
    Fits(t.key, es[j].key, Default(t.key)) && Fits(t.mapped, es[j].mapped, Default(t.mapped))
  }

  lemma MapFacts(t: Type, es: seq<Entry>, o: Value)
    requires t.MapT? && Message(t, Dict(es)) == true && o.Dict?
    ensures Fits(t, Dict(es), o) <==>
            (forall j :: 0 <= j < |es| ==> EntryFits(t, es, j)) &&
            forall i :: 0 <= i < |o.entries| ==> KeyOrder.Names(es, o.entries[i].key)
  {
    hide Default, KeyOrder.Names;
    var v := Dict(es);
    assert v.entries == es;
    assert forall j :: 0 <= j < |es| ==> (EntryFits(t, es, j) <==>
      Fits(t.key, v.entries[j].key, Default(t.key)) && Fits(t.mapped, v.entries[j].mapped, Default(t.mapped)));
  }

  lemma ArrivedSame(t: Type, es: seq<Entry>)
    requires t.MapT? && Message(t, Dict(es)) == true
    ensures forall j :: 0 <= j < |es| ==> Arrived(t, es)[j].key == es[j].key
    ensures (forall j :: 0 <= j < |es| ==> EntryArrives(t, es, j).Some?) ==>
              (Arrived(t, es) == es <==> forall j :: 0 <= j < |es| ==> EntryArrives(t, es, j) == Some(es[j].mapped))
  {
    hide EntryArrives, Message;
    if forall j :: 0 <= j < |es| ==> EntryArrives(t, es, j) == Some(es[j].mapped) {
      assert Arrived(t, es) == es;
    }
  }

  lemma {:induction false} EntryArrivesFits(t: Type, es: seq<Entry>, j: nat)
    requires t.MapT? && j < |es| && Message(t, Dict(es)) == true
    ensures KeyArrives(t, es, j).Some? ==> KeyArrives(t, es, j).value == es[j].key
    ensures EntryArrives(t, es, j) == Some(es[j].mapped) <==> EntryFits(t, es, j)
    decreases t, 0, 0
  {
    hide Landed, Default;
    DefaultTyped(t.key, es[j].key);
    DefaultTyped(t.mapped, es[j].mapped);
    LandsFits(t.key, es[j].key, Default(t.key));
    LandsFits(t.mapped, es[j].mapped, Default(t.mapped));
    if KeyArrives(t, es, j).Some? { KeyFits(t.key, es[j].key); }
  }

  // ---- Messages ------------------------------------------------------------------------------------

  /** Round trip: a message decodes to itself, in whole, into an object of its type exactly when it fits
      the object. */
  lemma MessageRoundTrip(t: Type, v: Value, o: Value)
    requires t.ObjectT? && Message(t, v) == true && HasType(t, o) == true && |EncodeBody(t, v)| < U64
    ensures ReadMessage(t, EncodeBody(t, v), 0, o) == Done(v, |EncodeBody(t, v)|) <==> Fits(t, v, o)
  {
    hide ReadMessage, EncodeFields, TakeFields, Fits;
    FieldsLand(t, v.items, 0, 0, o);
    ObjectFits(t, v.items, o);
    assert v == Record(v.items);
  }

  /** A target into which nothing has been decoded: optionals and maps are empty. */
  predicate Blank(t: Type, o: Value)
    decreases t
  {
    if t.OptionalT? then o == Nothing
    else if t.MapT? then o == Dict([])
    else if t.TupleT? then forall i :: 0 <= i < |t.elems| ==> Blank(t.elems[i], Slot(o, i))
    else if t.ObjectT? then forall i :: 0 <= i < |t.fields| ==> Blank(t.fields[i].ty, Slot(o, i))
    else true
  }

  /** No member initialiser engages an optional or fills a map. */
  predicate Clean(t: Type)
    decreases t
  {
    if t.OptionalT? then Clean(t.elem)
    else if t.MapT? then Clean(t.key) && Clean(t.mapped)
    else if t.TupleT? then forall i :: 0 <= i < |t.elems| ==> Clean(t.elems[i])
    else if t.ObjectT? then
      forall i :: 0 <= i < |t.fields| ==> Clean(t.fields[i].ty) && Blank(t.fields[i].ty, t.fields[i].initial)
    else true
  }

  lemma {:induction false} DefaultBlank(t: Type)
    requires Clean(t)
    ensures Blank(t, Default(t))
    decreases t
  {
    if t.TupleT? {
      forall i: nat | i < |t.elems| ensures Blank(t.elems[i], Slot(Default(t), i)) {
        DefaultBlank(t.elems[i]);
        TupleDefault(t, i);
      }
    }
  }

  /** Types whose every value fits every blank target: optional payloads and tuple elements are neither
      optional nor map. */
  predicate OneRecordEach(t: Type)
    decreases t
  {
    if t.OptionalT? then !t.elem.OptionalT? && !t.elem.MapT? && OneRecordEach(t.elem)
    else if t.MapT? then OneRecordEach(t.key) && OneRecordEach(t.mapped)
    else if t.TupleT? then
      forall i :: 0 <= i < |t.elems| ==>
        !t.elems[i].OptionalT? && !t.elems[i].MapT? && OneRecordEach(t.elems[i])
    else if t.ObjectT? then forall i :: 0 <= i < |t.fields| ==> OneRecordEach(t.fields[i].ty)
    else true
  }

  lemma {:induction false} AlwaysFits(t: Type, v: Value, o: Value)
    requires Message(t, v) == true && OneRecordEach(t) && Clean(t) && Blank(t, o)
    ensures Fits(t, v, o)
    decreases t
  {
    hide Default;
    if t.OptionalT? {
      if v.Just? {
        assert Count(t.elem, v.payload) == 1;
        DefaultBlank(t.elem);
        AlwaysFits(t.elem, v.payload, Default(t.elem));
      }
    } else if t.MapT? {
      DefaultBlank(t.key);
      DefaultBlank(t.mapped);
      forall i: nat | i < |v.entries|
        ensures Fits(t.key, v.entries[i].key, Default(t.key)) && Fits(t.mapped, v.entries[i].mapped, Default(t.mapped))
      {
        AlwaysFits(t.key, v.entries[i].key, Default(t.key));
        AlwaysFits(t.mapped, v.entries[i].mapped, Default(t.mapped));
      }
    } else if t.TupleT? {
      forall i: nat | i < |v.items| ensures ElemFits(t, v.items, o, i) {
        ElemTyped(t, v.items, i);
        AlwaysFits(t.elems[i], v.items[i], Slot(o, i));
      }
    } else if t.ObjectT? {
      forall i: nat | i < |v.items| ensures Fits(t.fields[i].ty, v.items[i], Slot(o, i)) {
        AlwaysFits(t.fields[i].ty, v.items[i], Slot(o, i));
      }
    }
  }

  /** So every such message comes back from a default-constructed object, unless a member initialiser
      engages an optional or fills a map. */
  lemma DefaultRoundTrip(t: Type, v: Value)
    requires t.ObjectT? && Message(t, v) == true && |EncodeBody(t, v)| < U64
    requires OneRecordEach(t) && Clean(t)
    ensures ReadMessage(t, EncodeBody(t, v), 0, Default(t)) == Done(v, |EncodeBody(t, v)|)
  {
    hide ReadMessage, EncodeBody, Message, HasType, Default, Fits, OneRecordEach, Clean, Blank;
    DefaultTyped(t, v);
    DefaultBlank(t);
    AlwaysFits(t, v, Default(t));
    MessageRoundTrip(t, v, Default(t));
  }

  // ---- What is lost --------------------------------------------------------------------------------

  const Flag := LeafT(BoolL)

  function Single(t: Type): Type { ObjectT([Field(1, [], t, Default(t))]) }

  /** An optional engaged over an empty optional leaves no trace on the wire. */
  lemma HiddenOptionalLost()
    ensures var t := Single(OptionalT(OptionalT(Flag)));
            var v := Record([Just(Nothing)]);
            Message(t, v) && ReadMessage(t, EncodeBody(t, v), 0, Default(t)) == Done(Record([Nothing]), 0)
  {
    var t := Single(OptionalT(OptionalT(Flag)));
    var v := Record([Just(Nothing)]);
    assert EncodeFields(t, v.items, 1) == [];
    assert EncodeField(1, t.fields[0].ty, Just(Nothing)) == [];
    assert Default(t) == Record([Nothing]);
  }

  /** A member initialiser that engages an optional is not undone by a message that lacks the field. */
  lemma InitialKept()
    ensures var t := ObjectT([Field(1, [], OptionalT(Flag), Just(Bool(true)))]);
            var v := Record([Nothing]);
            Message(t, v) && OneRecordEach(t) && EncodeBody(t, v) == [] &&
            ReadMessage(t, [], 0, Default(t)) == Done(Record([Just(Bool(true))]), 0)
  {
    var t := ObjectT([Field(1, [], OptionalT(Flag), Just(Bool(true)))]);
    var v := Record([Nothing]);
    assert HasType(Flag, Bool(true)) && HasType(OptionalT(Flag), Just(Bool(true)));
    assert HasType(OptionalT(Flag), Nothing) && HasType(t, v);
    assert WellFormed(OptionalT(Flag)) && WellFormed(t) && Supported(OptionalT(Flag)) && Supported(t);
    assert EncodeField(1, t.fields[0].ty, Nothing) == [];
    assert EncodeFields(t, v.items, 1) == [];
    assert Default(t) == Record([Just(Bool(true))]);
  }

  /** An optional map arrives with its last entry alone, and only if every entry arrives. */
  lemma OptionalMapKeepsLast(t: Type, es: seq<Entry>, o: Value)
    requires t.OptionalT? && t.elem.MapT? && es != [] && Message(t, Just(Dict(es))) == true
    ensures Message(t.elem, Dict(es))
    ensures var m := EntryArrives(t.elem, es, |es| - 1);
            Landed(t, o, Just(Dict(es))) ==
            if forall k :: 0 <= k < |es| ==> EntryArrives(t.elem, es, k).Some?
              then Some(Just(Dict([Entry(es[|es| - 1].key, m.value)])))
              else None
  {
    hide Fold, Take, TakeFresh, EntryArrives;
    var ps := Parts(t.elem, Dict(es));
    FoldFresh(t, o, Wrapped(ps));
    forall k: nat | k < |ps|
      ensures var m := EntryArrives(t.elem, es, k);
              TakeFresh(t, Wrapped(ps)[k]) == if m.None? then None else Some(Just(Dict([Entry(es[k].key, m.value)])))
    {
      EntryFresh(t, es, k);
    }
  }

  lemma EntryFresh(t: Type, es: seq<Entry>, k: nat)
    requires t.OptionalT? && t.elem.MapT? && k < |es| && Message(t, Just(Dict(es))) == true
    ensures Message(t.elem, Dict(es)) && IsPart(t, Just(Dict([es[k]])))
    ensures var m := EntryArrives(t.elem, es, k);
            TakeFresh(t, Just(Dict([es[k]]))) ==
            if m.None? then None else Some(Just(Dict([Entry(es[k].key, m.value)])))
  {
    hide Fold, Take, TakeEntry, Fits, Default;
    var p := Dict([es[k]]);
    assert HasType(t.elem, Dict(es));
    assert Message(t.elem, p) && IsPart(t.elem, p) && HasType(t, Just(p));
    FreshStep(t, Just(p));
    MapDefault(t.elem);
    TakeStep(t.elem, Dict([]), p);
    TakeEntryStep(t.elem, Dict([]), p);
    EntryArrivesFits(t.elem, es, k);
  }

  /** A tuple with an element that is sent as no record, or as several, is written and then refused. */
  lemma TupleRefused(t: Type, vs: seq<Value>, j: nat, base: nat, o: Value)
    requires t.TupleT? && j < |vs| && Message(t, List(vs)) == true && |EncodeElems(t, vs, 0)| < U64
    requires o.List? && |o.items| == |vs| && Count(t.elems[j], vs[j]) != 1
    ensures ReadTuple(t, {}, EncodeElems(t, vs, 0), base, o).Fail?
  {
    hide ReadTuple, EncodeElems, TakeElems, Count;
    ElemsArrive(t, o, vs, 0);
    assert ElemArrives(t, o, vs, j).None?;
    ElemsLand(t, vs, 0, {}, base, o);
  }

  lemma TupleGapRefused()
    ensures var t := TupleT([OptionalT(Flag)]);
            var v := List([Nothing]);
            Message(t, v) && EncodeBody(t, v) == [] && ReadBody(t, [], 0, Default(t)) == Fail(v, InvalidSize, 0)
  {
    var t := TupleT([OptionalT(Flag)]);
    var vs: seq<Value> := [Nothing];
    forall i | 0 <= i < |vs| ensures HasType(ElemType(t, i), vs[i]) { assert ElemType(t, i) == OptionalT(Flag); }
    assert HasType(t, List(vs));
    assert WellFormed(OptionalT(Flag)) && Supported(OptionalT(Flag));
    assert Message(t, List(vs));
    assert EncodeElems(t, vs, 1) == [];
    assert Default(t) == List(vs);
    assert EncodeElems(t, vs, 0) == EncodeField(1, t.elems[0], vs[0]) + EncodeElems(t, vs, 1) == [];
    TupleEnd(t, {}, [], 0, List(vs));
  }
}
