// The order of map keys is total, so maps behave as maps: what emplacing and assigning do to the entries.
module KeyOrder {
  import opened Bytes
  import opened Schema

  predicate Key(t: Type, v: Value) { KeyType(t) && HasType(t, v) }

  // ---- A total order ---------------------------------------------------------------------------------

  lemma {:induction false} BytesOrder(x: seq<byte>, y: seq<byte>)
    ensures CompareBytes(x, y) == 0 <==> x == y
    ensures CompareBytes(x, y) < 0 <==> CompareBytes(y, x) > 0
  {
    if x != [] && y != [] {
      BytesOrder(x[1..], y[1..]);
      assert x == [x[0]] + x[1..] && y == [y[0]] + y[1..];
    }
  }

  lemma {:induction false} BytesChain(x: seq<byte>, y: seq<byte>, z: seq<byte>)
    requires CompareBytes(x, y) < 0 && CompareBytes(y, z) < 0
    ensures CompareBytes(x, z) < 0
  {
    if x != [] && y != [] && z != [] && x[0] == y[0] == z[0] { BytesChain(x[1..], y[1..], z[1..]); }
  }

  /** Keys are equivalent only if they are equal, and comparing them the other way round flips the sign. */
  lemma {:induction false} KeysOrder(t: Type, a: Value, b: Value)
    requires Key(t, a) == true && Key(t, b) == true
    ensures Compare(a, b) == 0 <==> a == b
    ensures Compare(a, b) < 0 <==> Compare(b, a) > 0
    decreases t, 1, 0
  {
    if t.LeafT? {
      if t.leaf.StringL? || t.leaf.BytesL? { BytesOrder(a.bytes, b.bytes); }
    } else if t.OptionalT? {
      if a.Just? && b.Just? { KeysOrder(t.elem, a.payload, b.payload); }
    } else if t.VariantT? {
      if a.index == b.index { KeysOrder(t.alts[a.index], a.payload, b.payload); }
    } else {
      ItemsOrder(t, a, b, 0);
    }
  }

  lemma {:induction false} ItemsOrder(t: Type, a: Value, b: Value, k: nat)
    requires Key(t, a) == true && Key(t, b) == true && IsSequence(t)
    requires k <= |a.items| && k <= |b.items|
    ensures CompareItems(a, b.items, k) == 0 <==> a.items[k..] == b.items[k..]
    ensures CompareItems(a, b.items, k) < 0 <==> CompareItems(b, a.items, k) > 0
    decreases t, 0, |a.items| - k
  {
    hide Compare, Key;
    KeyList(t, a);
    KeyList(t, b);
    ItemsStep(a, b, k);
    ItemsStep(b, a, k);
    Slices(a.items, b.items, k);
    if k < |a.items| && k < |b.items| {
      ElemKeys(t, a, k);
      ElemKeys(t, b, k);
      KeysOrder(ElemType(t, k), a.items[k], b.items[k]);
      KeysOrder(ElemType(t, k), b.items[k], a.items[k]);
      ItemsOrder(t, a, b, k + 1);
    }
  }

  lemma KeyList(t: Type, a: Value)
    requires Key(t, a) == true && IsSequence(t)
    ensures a.List?
  {}

  lemma ItemsStep(a: Value, b: Value, k: nat)
    requires a.List? && b.List? && k <= |a.items| && k <= |b.items|
    ensures CompareItems(a, b.items, k) ==
            if k == |a.items| then k - |b.items|
            else if k == |b.items| then 1
            else
              var c := Compare(a.items[k], b.items[k]);
              if c != 0 then c else CompareItems(a, b.items, k + 1)
  {
    hide Compare;
  }

  lemma Slices(x: seq<Value>, y: seq<Value>, k: nat)
    requires k <= |x| && k <= |y|
    ensures x[k..] == y[k..] <==>
            if k < |x| && k < |y| then x[k] == y[k] && x[k + 1..] == y[k + 1..] else |x| == |y|
  {
    if k < |x| && k < |y| {
      assert x[k..] == [x[k]] + x[k + 1..] && y[k..] == [y[k]] + y[k + 1..];
    } else {
      assert |x[k..]| == |x| - k && |y[k..]| == |y| - k;
    }
  }

  lemma ElemKeys(t: Type, a: Value, k: nat)
    requires Key(t, a) == true && IsSequence(t) && k < |a.items|
    ensures (t.TupleT? ==> k < |t.elems|) && Key(ElemType(t, k), a.items[k])
  {
    assert HasType(ElemType(t, k), a.items[k]);
  }

  lemma {:induction false} KeysChain(t: Type, a: Value, b: Value, c: Value)
    requires Key(t, a) == true && Key(t, b) == true && Key(t, c) == true
    requires Compare(a, b) < 0 && Compare(b, c) < 0
    ensures Compare(a, c) < 0
    decreases t, 1, 0
  {
    if t.LeafT? {
      if t.leaf.StringL? || t.leaf.BytesL? { BytesChain(a.bytes, b.bytes, c.bytes); }
    } else if t.OptionalT? {
      if a.Just? && b.Just? && c.Just? { KeysChain(t.elem, a.payload, b.payload, c.payload); }
    } else if t.VariantT? {
      if a.index == b.index == c.index { KeysChain(t.alts[a.index], a.payload, b.payload, c.payload); }
    } else {
      ItemsChain(t, a, b, c, 0);
    }
  }

  lemma {:induction false} ItemsChain(t: Type, a: Value, b: Value, c: Value, k: nat)
    requires Key(t, a) == true && Key(t, b) == true && Key(t, c) == true && IsSequence(t)
    requires k <= |a.items| && k <= |b.items| && k <= |c.items|
    requires CompareItems(a, b.items, k) < 0 && CompareItems(b, c.items, k) < 0
    ensures CompareItems(a, c.items, k) < 0
    decreases t, 0, |a.items| - k
  {
    if k < |a.items| {
      var e := ElemType(t, k);
      var x, y, z := a.items[k], b.items[k], c.items[k];
      assert HasType(e, x) && HasType(e, y) && HasType(e, z);
      KeysOrder(e, x, y);
      KeysOrder(e, y, z);
      if Compare(x, y) < 0 && Compare(y, z) < 0 { KeysChain(e, x, y, z); }
      else if x == y == z {
        KeysOrder(e, x, z);
        ItemsChain(t, a, b, c, k + 1);
      }
    }
  }

  // ---- Which order -----------------------------------------------------------------------------------

  /** `x` is a proper prefix of `y`, or has the lower byte where they first differ. */
  ghost predicate Below(x: seq<byte>, y: seq<byte>) {
    (|x| < |y| && x == y[..|x|]) ||
    exists k: nat :: k < |x| && k < |y| && x[..k] == y[..k] && x[k] < y[k]
  }

  lemma BelowHead(x: seq<byte>, y: seq<byte>)
    requires x != [] && y != []
    ensures Below(x, y) <==> x[0] < y[0] || (x[0] == y[0] && Below(x[1..], y[1..]))
  {
    var a, b := x[1..], y[1..];
    assert x == [x[0]] + a && y == [y[0]] + b;
    if x[0] < y[0] { assert x[..0] == y[..0]; }
    if x[0] == y[0] && Below(a, b) {
      if |a| < |b| && a == b[..|a|] {
        assert x == y[..|x|];
      } else {
        var k: nat :| k < |a| && k < |b| && a[..k] == b[..k] && a[k] < b[k];
        assert x[..k + 1] == [x[0]] + a[..k] && y[..k + 1] == [y[0]] + b[..k];
        assert x[k + 1] < y[k + 1];
      }
    }
    if Below(x, y) {
      if |x| < |y| && x == y[..|x|] {
        assert a == b[..|a|];
      } else {
        var k: nat :| k < |x| && k < |y| && x[..k] == y[..k] && x[k] < y[k];
        if k > 0 {
          assert x[..k][0] == y[..k][0];
          assert a[..k - 1] == x[..k][1..] && b[..k - 1] == y[..k][1..];
          assert a[k - 1] < b[k - 1];
        }
      }
    }
  }

  /** Strings and byte arrays stand in ascending order of their bytes. */
  lemma {:induction false} BytesLess(x: seq<byte>, y: seq<byte>)
    ensures Compare(Blob(x), Blob(y)) < 0 <==> Below(x, y)
    decreases |x|
  {
    hide Below;
    if x != [] && y != [] {
      BelowHead(x, y);
      BytesLess(x[1..], y[1..]);
    } else {
      BelowEmpty(x, y);
    }
  }

  lemma BelowEmpty(x: seq<byte>, y: seq<byte>)
    requires x == [] || y == []
    ensures Below(x, y) <==> x == [] && y != []
  {}

  /** Sequences of keys stand in the order of the first elements in which they differ, shorter before
      longer when there is none. */
  ghost predicate ItemsBelow(x: seq<Value>, y: seq<Value>, k: nat)
    requires k <= |x| && k <= |y|
  {
    (|x| < |y| && x[k..] == y[k..|x|]) ||
    exists m: nat :: k <= m < |x| && m < |y| && x[k..m] == y[k..m] && Compare(x[m], y[m]) < 0
  }

  lemma ItemsBelowStep(x: seq<Value>, y: seq<Value>, k: nat)
    requires k < |x| && k < |y|
    requires Compare(x[k], y[k]) == 0 <==> x[k] == y[k]
    ensures ItemsBelow(x, y, k) <==> Compare(x[k], y[k]) < 0 || (x[k] == y[k] && ItemsBelow(x, y, k + 1))
  {
    hide Compare;
    if Compare(x[k], y[k]) < 0 { assert x[k..k] == y[k..k]; }
    if x[k] == y[k] && ItemsBelow(x, y, k + 1) {
      if |x| < |y| && x[k + 1..] == y[k + 1..|x|] {
        assert x[k..] == [x[k]] + x[k + 1..] && y[k..|x|] == [y[k]] + y[k + 1..|x|];
      } else {
        var m: nat :| k + 1 <= m < |x| && m < |y| && x[k + 1..m] == y[k + 1..m] && Compare(x[m], y[m]) < 0;
        assert x[k..m] == [x[k]] + x[k + 1..m] && y[k..m] == [y[k]] + y[k + 1..m];
      }
    }
    if ItemsBelow(x, y, k) {
      if |x| < |y| && x[k..] == y[k..|x|] {
        assert x[k] == x[k..][0] && y[k] == y[k..|x|][0];
        assert x[k + 1..] == x[k..][1..] && y[k + 1..|x|] == y[k..|x|][1..];
      } else {
        var m: nat :| k <= m < |x| && m < |y| && x[k..m] == y[k..m] && Compare(x[m], y[m]) < 0;
        if m > k {
          assert x[k] == x[k..m][0] && y[k] == y[k..m][0];
          assert x[k + 1..m] == x[k..m][1..] && y[k + 1..m] == y[k..m][1..];
        }
      }
    }
  }

  lemma {:induction false} ItemsLess(t: Type, a: Value, b: Value, k: nat)
    requires Key(t, a) == true && Key(t, b) == true && IsSequence(t)
    requires k <= |a.items| && k <= |b.items|
    ensures CompareItems(a, b.items, k) < 0 <==> ItemsBelow(a.items, b.items, k)
    decreases |a.items| - k
  {
    hide Compare, Key, ItemsBelow;
    KeyList(t, a);
    KeyList(t, b);
    ItemsStep(a, b, k);
    if k < |a.items| && k < |b.items| {
      ElemKeys(t, a, k);
      ElemKeys(t, b, k);
      KeysOrder(ElemType(t, k), a.items[k], b.items[k]);
      ItemsBelowStep(a.items, b.items, k);
      ItemsLess(t, a, b, k + 1);
    } else {
      ItemsBelowEnd(a.items, b.items, k);
    }
  }

  lemma ItemsBelowEnd(x: seq<Value>, y: seq<Value>, k: nat)
    requires k <= |x| && k <= |y| && (k == |x| || k == |y|)
    ensures ItemsBelow(x, y, k) <==> k == |x| < |y|
  {
    hide Compare;
    if k == |x| < |y| { assert x[k..] == y[k..|x|]; }
  }

  /** The order of `std::less` on every kind of key: numbers as numbers, false before true, bytes and
      sequences by their first difference, an empty optional before an engaged one, alternatives by index. */
  lemma KeyLess(t: Type, a: Value, b: Value)
    requires Key(t, a) == true && Key(t, b) == true
    ensures a.Bool? && b.Bool? ==> (Compare(a, b) < 0 <==> !a.on && b.on)
    ensures a.Int? && b.Int? ==> (Compare(a, b) < 0 <==> a.n < b.n)
    ensures a.Blob? && b.Blob? ==> (Compare(a, b) < 0 <==> Below(a.bytes, b.bytes))
    ensures a.List? && b.List? ==> (Compare(a, b) < 0 <==> ItemsBelow(a.items, b.items, 0))
    ensures a.Nothing? ==> (Compare(a, b) < 0 <==> b.Just?)
    ensures a.Just? ==> (Compare(a, b) < 0 <==> b.Just? && Compare(a.payload, b.payload) < 0)
    ensures a.Alt? && b.Alt? ==>
              (Compare(a, b) < 0 <==> a.index < b.index || (a.index == b.index && Compare(a.payload, b.payload) < 0))
  {
    hide Below, ItemsBelow;
    if a.Blob? && b.Blob? { BytesLess(a.bytes, b.bytes); }
    if a.List? && b.List? { ItemsLess(t, a, b, 0); }
  }

  // ---- Maps -------------------------------------------------------------------------------------------

  predicate Keyed(t: Type, es: seq<Entry>) {
    Sorted(es) && forall i :: 0 <= i < |es| ==> Key(t, es[i].key)
  }

  /** An entry below a sorted run is below all of it. */
  lemma BelowAll(t: Type, e: Entry, es: seq<Entry>)
    requires Keyed(t, es) && Key(t, e.key) && (es != [] ==> Compare(e.key, es[0].key) < 0)
    ensures Keyed(t, [e] + es)
  {
    forall j: nat | 0 < j < |es| ensures Compare(e.key, es[j].key) < 0 {
      KeysChain(t, e.key, es[0].key, es[j].key);
    }
  }

  predicate Among(es: seq<Entry>, e: Entry) { exists i :: 0 <= i < |es| && es[i] == e }

  predicate Names(es: seq<Entry>, k: Value) { exists i :: 0 <= i < |es| && es[i].key == k }

  /** `std::map::emplace` refuses exactly the keys that are present; otherwise the map has the new entry
      and all the old ones, still in strictly increasing order. */
  lemma {:induction false} EmplaceMap(t: Type, es: seq<Entry>, e: Entry)
    requires Keyed(t, es) && Key(t, e.key)
    ensures Emplace(es, e).None? <==> Names(es, e.key)
    ensures Emplace(es, e).Some? ==>
              var r := Emplace(es, e).value;
              Keyed(t, r) && |r| == |es| + 1 && forall x :: Among(r, x) <==> Among(es, x) || x == e
  {
    if es == [] {
      assert Among([e], e) by { assert [e][0] == e; }
    } else {
      var h, rest := es[0], es[1..];
      KeysOrder(t, h.key, e.key);
      KeysOrder(t, e.key, h.key);
      Split(es);
      if Compare(h.key, e.key) == 0 {
        assert Names(es, e.key);
      } else if Compare(h.key, e.key) > 0 {
        BelowAll(t, e, es);
        Joined(e, es);
        NotNamed(t, e, es);
      } else {
        EmplaceMap(t, rest, e);
        if Emplace(rest, e).Some? {
          var r := Emplace(rest, e).value;
          assert Among(r, r[0]);
          HeadBelow(t, h, rest, e, r[0]);
          BelowAll(t, h, r);
          Joined(h, r);
        }
      }
    }
  }

  /** `std::map::insert_or_assign`: the key is bound to the new value, every other entry is as it was,
      and the order still holds. */
  lemma {:induction false} AssignMap(t: Type, es: seq<Entry>, e: Entry)
    requires Keyed(t, es) && Key(t, e.key)
    ensures var r := InsertOrAssign(es, e);
            Keyed(t, r) && |r| == (if Names(es, e.key) then |es| else |es| + 1) &&
            forall x :: Among(r, x) <==> x == e || (Among(es, x) && x.key != e.key)
  {
    if es == [] {
      assert Among([e], e) by { assert [e][0] == e; }
    } else {
      var h, rest := es[0], es[1..];
      KeysOrder(t, h.key, e.key);
      KeysOrder(t, e.key, h.key);
      Split(es);
      if Compare(h.key, e.key) == 0 {
        assert h.(mapped := e.mapped) == e;
        assert rest != [] ==> Compare(e.key, rest[0].key) < 0;
        BelowAll(t, e, rest);
        Joined(e, rest);
        NotNamed(t, e, rest);
      } else if Compare(h.key, e.key) > 0 {
        BelowAll(t, e, es);
        Joined(e, es);
        NotNamed(t, e, es);
      } else {
        AssignMap(t, rest, e);
        var r := InsertOrAssign(rest, e);
        assert Among(r, r[0]);
        HeadBelow(t, h, rest, e, r[0]);
        BelowAll(t, h, r);
        Joined(h, r);
      }
    }
  }

  /** The entries `xs` assigned one after another. */
  function AssignAll(es: seq<Entry>, xs: seq<Entry>): seq<Entry>
    decreases |xs|
  {
    if xs == [] then es else AssignAll(InsertOrAssign(es, xs[0]), xs[1..])
  }

  lemma {:induction false} AssignAllMap(t: Type, es: seq<Entry>, xs: seq<Entry>)
    requires Keyed(t, es) && Keyed(t, xs)
    ensures var r := AssignAll(es, xs);
            Keyed(t, r) && forall x :: Among(r, x) <==> Among(xs, x) || (Among(es, x) && !Names(xs, x.key))
    decreases |xs|
  {
    hide InsertOrAssign, Among, Names, Key;
    if xs == [] {
      NoEntries();
    } else {
      AssignMap(t, es, xs[0]);
      AssignAllMap(t, InsertOrAssign(es, xs[0]), xs[1..]);
      Split(xs);
      NotNamed(t, xs[0], xs[1..]);
    }
  }

  lemma NoEntries()
    ensures forall x :: !Among([], x)
    ensures forall k :: !Names([], k)
  {}

  lemma KeyOnce(t: Type, es: seq<Entry>, i: nat, x: Entry)
    requires Keyed(t, es) && i < |es| && Among(es, x) && x.key == es[i].key
    ensures x == es[i]
  {
    var j :| 0 <= j < |es| && es[j] == x;
    KeysOrder(t, es[i].key, es[j].key);
    KeysOrder(t, es[j].key, es[i].key);
  }

  /** Maps of the same entries are the same, order included. */
  lemma {:induction false} SameMap(t: Type, a: seq<Entry>, b: seq<Entry>)
    requires Keyed(t, a) && Keyed(t, b)
    requires forall i :: 0 <= i < |b| ==> Among(a, b[i])
    requires forall i :: 0 <= i < |a| ==> Names(b, a[i].key)
    ensures a == b
    decreases |a|
  {
    hide Key, Compare;
    if a != [] { assert Names(b, a[0].key); }
    if b != [] { assert Among(a, b[0]); }
    if a != [] && b != [] {
      SameHead(t, a, b);
      Split(a);
      Split(b);
      NotNamed(t, a[0], a[1..]);
      NotNamed(t, b[0], b[1..]);
      forall i: nat | i < |b[1..]| ensures Among(a[1..], b[1..][i]) {
        assert b[1..][i] == b[i + 1] && Names(b[1..], b[1..][i].key);
      }
      forall i: nat | i < |a[1..]| ensures Names(b[1..], a[1..][i].key) {
        assert a[1..][i] == a[i + 1] && Names(a[1..], a[1..][i].key);
      }
      SameMap(t, a[1..], b[1..]);
    }
  }

  lemma SameHead(t: Type, a: seq<Entry>, b: seq<Entry>)
    requires Keyed(t, a) && Keyed(t, b) && a != [] && b != [] && Among(a, b[0]) && Names(b, a[0].key)
    ensures a[0] == b[0]
  {
    var i :| 0 <= i < |a| && a[i] == b[0];
    var j :| 0 <= j < |b| && b[j].key == a[0].key;
    KeysOrder(t, a[0].key, b[0].key);
    KeysOrder(t, b[0].key, a[0].key);
    KeyOnce(t, a, 0, a[i]);
  }

  /** Assigning entries over a map yields the map `es` of the same keys exactly when the entries are
      those of `es` and the map had no other key. */
  lemma AssignAllSame(t: Type, os: seq<Entry>, xs: seq<Entry>, es: seq<Entry>)
    requires Keyed(t, os) && Keyed(t, es)
    requires |xs| == |es| && forall j :: 0 <= j < |xs| ==> xs[j].key == es[j].key
    ensures AssignAll(os, xs) == es <==> xs == es && forall i :: 0 <= i < |os| ==> Names(es, os[i].key)
  {
    hide AssignAll, Key, Compare;
    AssignAllMap(t, os, xs);
    var r := AssignAll(os, xs);
    assert forall k :: Names(xs, k) <==> Names(es, k);
    if r == es {
      forall j: nat | j < |xs| ensures xs[j] == es[j] { KeyOnce(t, es, j, xs[j]); }
      forall i: nat | i < |os| ensures Names(es, os[i].key) { assert Among(os, os[i]); }
    }
    if xs == es && forall i :: 0 <= i < |os| ==> Names(es, os[i].key) {
      forall i: nat | i < |r| ensures Names(es, r[i].key) { assert Among(r, r[i]); }
      SameMap(t, r, es);
    }
  }

  lemma Split(es: seq<Entry>)
    requires es != []
    ensures es == [es[0]] + es[1..]
    ensures forall x :: Among(es, x) <==> x == es[0] || Among(es[1..], x)
    ensures forall k :: Names(es, k) <==> k == es[0].key || Names(es[1..], k)
  {
    Joined(es[0], es[1..]);
    assert es == [es[0]] + es[1..];
  }

  lemma Joined(e: Entry, es: seq<Entry>)
    ensures forall x :: Among([e] + es, x) <==> x == e || Among(es, x)
    ensures forall k :: Names([e] + es, k) <==> k == e.key || Names(es, k)
  {
    var r := [e] + es;
    assert r[0] == e;
    assert forall i :: 0 <= i < |es| ==> r[i + 1] == es[i];
  }

  lemma NotNamed(t: Type, e: Entry, es: seq<Entry>)
    requires Key(t, e.key) && Keyed(t, es) && (es != [] ==> Compare(e.key, es[0].key) < 0)
    ensures !Names(es, e.key)
  {
    forall i: nat | i < |es| ensures es[i].key != e.key {
      if i > 0 { KeysChain(t, e.key, es[0].key, es[i].key); }
      KeysOrder(t, e.key, es[i].key);
    }
  }

  lemma HeadBelow(t: Type, h: Entry, rest: seq<Entry>, e: Entry, x: Entry)
    requires Keyed(t, [h] + rest) && Key(t, e.key) && Compare(h.key, e.key) < 0 && (x == e || Among(rest, x))
    ensures Compare(h.key, x.key) < 0
  {
    if x != e {
      var i :| 0 <= i < |rest| && rest[i] == x;
      assert ([h] + rest)[0] == h && ([h] + rest)[i + 1] == x;
    }
  }
}
