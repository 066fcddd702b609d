// CONTRACT definitions: BASE imports flattened into effective fields, and dispatch over the result.
module Definition {
  import opened Bytes
  import opened Schema

  // ---- Flattening ----------------------------------------------------------------------------------

  datatype Member =
    | Own(id: int, name: Text)
    | Base(members: seq<Member>, offset: int)

  /** What adapters see: a declared field under its effective id. */
  datatype Effective = Effective(declaredId: int, name: Text, id: int, imported: bool) {
    function BaseOffset(): int { id - declaredId }
  }

  function Imported(f: Effective, offset: int): Effective {
    f.(id := f.id + offset, imported := true)
  }

  function ImportAll(fs: seq<Effective>, offset: int): (r: seq<Effective>)
    ensures |r| == |fs|
  {
    seq(|fs|, i requires 0 <= i < |fs| => Imported(fs[i], offset))
  }

  function FlattenEntry(m: Member): seq<Effective> {
    match m
    case Own(id, name) => [Effective(id, name, id, false)]
    case Base(ms, offset) => ImportAll(Flatten(ms), offset)
  }

  /** `tuple_cat` of the flattened entries. */
  function Flatten(ms: seq<Member>): seq<Effective> {
    if ms == [] then [] else FlattenEntry(ms[0]) + Flatten(ms[1..])
  }

  // ---- Paths -----------------------------------------------------------------------------------------

  /** A declared field and the offsets of the BASE entries that lead to it. */
  datatype Leaf = Leaf(id: int, name: Text, offsets: seq<int>)

  /** The fields met on a depth-first walk that came in through `offsets`. */
  function Walk(ms: seq<Member>, offsets: seq<int>): seq<Leaf> {
    if ms == [] then []
    else
      (match ms[0]
       case Own(id, name) => [Leaf(id, name, offsets)]
       case Base(bs, offset) => Walk(bs, offsets + [offset])) +
      Walk(ms[1..], offsets)
  }

  function Sum(s: seq<int>): int { if s == [] then 0 else s[0] + Sum(s[1..]) }

  lemma {:induction false} SumAppend(s: seq<int>, x: int)
    ensures Sum(s + [x]) == Sum(s) + x
  {
    if s != [] {
      assert (s + [x])[1..] == s[1..] + [x];
      SumAppend(s[1..], x);
    }
  }

  /** `f` is the field at the end of the path, its id moved by all offsets on the way. */
  predicate Arrives(l: Leaf, f: Effective) {
    f == Effective(l.id, l.name, l.id + Sum(l.offsets), l.offsets != []) && f.BaseOffset() == Sum(l.offsets)
  }

  /** Flattening lists the depth-first walk; a field's effective id is its declared id plus the sum
      of the offsets on its path, and that sum is its `base_offset`. */
  lemma FlattenWalks(ms: seq<Member>)
    ensures |Flatten(ms)| == |Walk(ms, [])|
    ensures forall i :: 0 <= i < |Flatten(ms)| ==> Arrives(Walk(ms, [])[i], Flatten(ms)[i])
  {
    WalkFrom(ms, []);
  }

  /** The same below a path already walked. */
  predicate ArrivesFrom(offsets: seq<int>, l: Leaf, f: Effective) {
    l.id == f.declaredId && l.name == f.name && |offsets| <= |l.offsets| && l.offsets[..|offsets|] == offsets &&
    f.imported == (|offsets| < |l.offsets|) && f.id == l.id + Sum(l.offsets) - Sum(offsets)
  }

  lemma {:induction false} WalkFrom(ms: seq<Member>, offsets: seq<int>)
    ensures |Flatten(ms)| == |Walk(ms, offsets)|
    ensures forall i :: 0 <= i < |Flatten(ms)| ==> ArrivesFrom(offsets, Walk(ms, offsets)[i], Flatten(ms)[i])
    decreases ms
  {
    if ms != [] {
      WalkFrom(ms[1..], offsets);
      if ms[0].Base? {
        var below := offsets + [ms[0].offset];
        WalkFrom(ms[0].members, below);
        SumAppend(offsets, ms[0].offset);
        forall i: nat | i < |FlattenEntry(ms[0])|
          ensures ArrivesFrom(offsets, Walk(ms[0].members, below)[i], FlattenEntry(ms[0])[i])
        {
          var l := Walk(ms[0].members, below)[i];
          assert ArrivesFrom(below, l, Flatten(ms[0].members)[i]);
          assert l.offsets[..|offsets|] == l.offsets[..|below|][..|offsets|] == offsets;
        }
      }
    }
  }

  // ---- Dispatch --------------------------------------------------------------------------------------

  /** The fold of `dispatch_field_by_id`: every field is tried, `fn` is called on a match unless one
      was found before. `calls` lists the fields `fn` was called on. */
  method DispatchById(fs: seq<Field>, id: nat) returns (found: bool, calls: seq<nat>)
    ensures var k := FieldIndex(fs, id, 0);
            found == (k < |fs|) && calls == if found then [k] else []
  {
    found, calls := false, [];
    var i := 0;
    while i < |fs|
      invariant i <= |fs|
      invariant found ==> FieldIndex(fs, id, 0) < i && calls == [FieldIndex(fs, id, 0)]
      invariant !found ==> FieldIndex(fs, id, 0) == FieldIndex(fs, id, i) && calls == []
    {
      if !found && fs[i].id == id {
        calls := calls + [i];
        found := true;
      }
      i := i + 1;
    }
  }

  method DispatchByName(fs: seq<Field>, name: Text) returns (found: bool, calls: seq<nat>)
    ensures var k := NameIndex(fs, name, 0);
            found == (k < |fs|) && calls == if found then [k] else []
  {
    found, calls := false, [];
    var i := 0;
    while i < |fs|
      invariant i <= |fs|
      invariant found ==> NameIndex(fs, name, 0) < i && calls == [NameIndex(fs, name, 0)]
      invariant !found ==> NameIndex(fs, name, 0) == NameIndex(fs, name, i) && calls == []
    {
      if !found && fs[i].name == name {
        calls := calls + [i];
        found := true;
      }
      i := i + 1;
    }
  }

  /** Under the uniqueness check, dispatch calls its function on the one field with the id, if any. */
  lemma DispatchUnique(fs: seq<Field>, id: nat, i: nat)
    requires UniqueIds(fs) && i < |fs|
    ensures FieldIndex(fs, id, 0) == i <==> fs[i].id == id
  {
    if fs[i].id == id { FieldIndexUnique(fs, i); }
  }
}
