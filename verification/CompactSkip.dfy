// The schema-less skipper: bounded work on any bytes, and agreement with every typed read.
module CompactSkip {
  import opened Bytes
  import opened Schema
  import opened CompactIntegers
  import opened CompactCodec

  // ---- Work ------------------------------------------------------------------------------------

  /** One recursive `read` per byte consumed; one more only when the skip fails. */
  ghost predicate WorkBounded(s: Skipped, p: nat) {
    s.calls <= Cursor(s.res) - p + (if s.res.Err? then 1 else 0)
  }

  lemma {:induction false} SkipWork(b: seq<byte>, p: nat)
    requires p <= |b|
    ensures WorkBounded(Skip(b, p), p)
    decreases |b| - p, 0, 0
  {
    if p < |b| && ARRAY_BASE <= b[p] < FALSE_HEADER {
      match SizeTail(b[p], b, p + 1)
      case Err(_, _) =>
      case Ok(n, q) =>
        if b[p] < MAP_BASE {
          SkipManyWork(n, b, q);
        } else if b[p] < OBJECT_BASE {
          SkipManyWork(2 * n, b, q);
        } else {
          SkipRecordsWork(n, b, q);
        }
    }
  }

  lemma {:induction false} SkipManyWork(n: nat, b: seq<byte>, p: nat)
    requires p <= |b|
    ensures WorkBounded(SkipMany(n, b, p), p)
    decreases |b| - p, 1, n
  {
    if n > 0 {
      SkipWork(b, p);
      var s := Skip(b, p);
      if s.res.Ok? { SkipManyWork(n - 1, b, s.res.pos); }
    }
  }

  lemma {:induction false} SkipRecordsWork(n: nat, b: seq<byte>, p: nat)
    requires p <= |b|
    ensures WorkBounded(SkipRecords(n, b, p), p)
    decreases |b| - p, 1, n
  {
    if n > 0 && ReadUint(b, p).Ok? {
      var q := ReadUint(b, p).pos;
      SkipWork(b, q);
      var s := Skip(b, q);
      if s.res.Ok? { SkipRecordsWork(n - 1, b, s.res.pos); }
    }
  }

  // ---- Agreement with typed reads --------------------------------------------------------------

  /** The skip from `p` succeeds and ends where the typed read ended. */
  ghost predicate Lands<T>(res: Res<()>, r: Res<T>) {
    r.Ok? ==> res == Ok((), r.pos)
  }

  /** After a size header the skipper is left with the payload of that kind. */
  function SkipPayload(base: byte, n: nat, b: seq<byte>, p: nat): Res<()>
    requires p <= |b|
  {
    if base < ARRAY_BASE then SkipRaw(n, b, p)
    else if base == ARRAY_BASE then SkipMany(n, b, p).res
    else if base == MAP_BASE then SkipMany(2 * n, b, p).res
    else SkipRecords(n, b, p).res
  }

  lemma SkipSized(base: byte, b: seq<byte>, p: nat)
    requires p <= |b| && IsSizeBase(base) && ReadSize(base, b, p).Ok?
    ensures var r := ReadSize(base, b, p); Skip(b, p).res == SkipPayload(base, r.val, b, r.pos)
  {
    var h := b[p];
    assert base % 16 == 0 && h % 16 == h - base;
    assert SizeTail(h, b, p + 1) == ReadSize(base, b, p);
  }

  lemma LeafAgrees(t: Leaf, b: seq<byte>, p: nat)
    requires p <= |b|
    ensures Lands(Skip(b, p).res, DecodeLeaf(t, b, p))
  {
    if (t.StringL? || t.BytesL? || t.BitsetL?) && DecodeLeaf(t, b, p).Ok? {
      SkipSized(if t.StringL? then STRING_BASE else BYTES_BASE, b, p);
    }
  }

  /** On any bytes, whatever the target held: when a typed read succeeds, skipping from the same
      position succeeds and consumes exactly the same bytes. */
  lemma {:induction false} SkipAgrees(t: Type, prior: Value, b: seq<byte>, p: nat)
    requires p <= |b|
    ensures Lands(Skip(b, p).res, Decode(t, prior, b, p))
    decreases t, 1, 0
  {
    if t.LeafT? {
      LeafAgrees(t.leaf, b, p);
    } else if t.OptionalT? {
      if p < |b| && b[p] != NULL_HEADER { SkipAgrees(t.elem, Default(t.elem), b, p); }
    } else if t.MapT? {
      MapAgrees(t, b, p);
    } else if t.ObjectT? {
      ObjectAgrees(t, prior, b, p);
    } else if t.VariantT? {
      VariantAgrees(t, b, p);
    } else {
      SequenceAgrees(t, prior, b, p);
    }
  }

  lemma {:induction false} MapAgrees(t: Type, b: seq<byte>, p: nat)
    requires p <= |b| && t.MapT?
    ensures Lands(Skip(b, p).res, DecodeMap(t, b, p))
    decreases t, 0, U64
  {
    hide Skip;
    if DecodeMap(t, b, p).Ok? {
      var r := ReadSize(MAP_BASE, b, p);
      SkipSized(MAP_BASE, b, p);
      EntriesAgree(t, r.val, [], b, r.pos);
    }
  }

  lemma {:induction false} ObjectAgrees(t: Type, prior: Value, b: seq<byte>, p: nat)
    requires p <= |b| && t.ObjectT?
    ensures Lands(Skip(b, p).res, DecodeObject(t, prior, b, p))
    decreases t, 0, U64
  {
    hide Skip;
    if DecodeObject(t, prior, b, p).Ok? {
      var r := ReadSize(OBJECT_BASE, b, p);
      SkipSized(OBJECT_BASE, b, p);
      RecordsAgree(t, r.val, Slots(t, prior), b, r.pos);
    }
  }

  lemma {:induction false} SequenceAgrees(t: Type, prior: Value, b: seq<byte>, p: nat)
    requires p <= |b| && IsSequence(t)
    ensures Lands(Skip(b, p).res, DecodeSequence(t, prior, b, p))
    decreases t, 0, U64
  {
    hide Skip;
    if DecodeSequence(t, prior, b, p).Ok? {
      var r := ReadSize(ARRAY_BASE, b, p);
      SkipSized(ARRAY_BASE, b, p);
      ElemsAgree(t, prior, r.val, [], b, r.pos);
    }
  }

  lemma {:induction false} VariantAgrees(t: Type, b: seq<byte>, p: nat)
    requires p <= |b| && t.VariantT?
    ensures Lands(Skip(b, p).res, DecodeVariant(t, b, p))
    decreases t, 0, 1
  {
    hide Skip;
    if DecodeVariant(t, b, p).Ok? {
      SkipSized(ARRAY_BASE, b, p);
      AltAgrees(t, b, ReadSize(ARRAY_BASE, b, p).pos);
    }
  }

  lemma {:induction false} AltAgrees(t: Type, b: seq<byte>, p: nat)
    requires p <= |b| && t.VariantT?
    ensures Lands(SkipMany(2, b, p).res, DecodeAlt(t, b, p))
    decreases t, 0, 0
  {
    if DecodeAlt(t, b, p).Ok? {
      var r := ReadUint(b, p);
      UintSkips(b, p);
      SkipAgrees(t.alts[r.val], Default(t.alts[r.val]), b, r.pos);
      assert SkipMany(2, b, p).res == SkipMany(1, b, r.pos).res;
      assert SkipMany(1, b, r.pos).res == Skip(b, r.pos).res;
    }
  }

  lemma UintSkips(b: seq<byte>, p: nat)
    requires p <= |b|
    ensures Lands(Skip(b, p).res, ReadUint(b, p))
  {}

  lemma {:induction false} ElemsAgree(
      t: Type, prior: Value, n: nat, acc: seq<Value>, b: seq<byte>, p: nat)
    requires p <= |b| && IsSequence(t) && |acc| <= n && (t.TupleT? ==> n == |t.elems|)
    ensures Lands(SkipMany(n - |acc|, b, p).res, DecodeElems(t, prior, n, acc, b, p))
    decreases t, 0, n - |acc|
  {
    if |acc| < n {
      var x := ElemType(t, |acc|);
      var y := ElemPrior(t, prior, |acc|);
      SkipAgrees(x, y, b, p);
      match Decode(x, y, b, p)
      case Err(_, _) =>
      case Ok(v, q) => ElemsAgree(t, prior, n, acc + [v], b, q);
    }
  }

  lemma {:induction false} EntriesAgree(t: Type, n: nat, acc: seq<Entry>, b: seq<byte>, p: nat)
    requires p <= |b| && t.MapT?
    ensures Lands(SkipMany(2 * n, b, p).res, DecodeEntries(t, n, acc, b, p))
    decreases t, 0, n
  {
    if n > 0 && DecodeEntry(t, acc, b, p).Ok? {
      EntryAgrees(t, n, acc, b, p);
      var r := DecodeEntry(t, acc, b, p);
      EntriesAgree(t, n - 1, r.val, b, r.pos);
    }
  }

  lemma {:induction false} EntryAgrees(t: Type, n: nat, acc: seq<Entry>, b: seq<byte>, p: nat)
    requires p <= |b| && t.MapT? && n > 0 && DecodeEntry(t, acc, b, p).Ok?
    ensures SkipMany(2 * n, b, p).res == SkipMany(2 * (n - 1), b, DecodeEntry(t, acc, b, p).pos).res
    decreases t, 0, 0
  {
    SkipAgrees(t.key, Default(t.key), b, p);
    var k := Decode(t.key, Default(t.key), b, p);
    SkipAgrees(t.mapped, Default(t.mapped), b, k.pos);
    TwoSkips(2 * n, b, p);
  }

  lemma TwoSkips(n: nat, b: seq<byte>, p: nat)
    requires p <= |b| && n >= 2 && Skip(b, p).res.Ok? && Skip(b, Skip(b, p).res.pos).res.Ok?
    ensures SkipMany(n, b, p).res == SkipMany(n - 2, b, Skip(b, Skip(b, p).res.pos).res.pos).res
  {
    hide Skip;
    assert SkipMany(n, b, p).res == SkipMany(n - 1, b, Skip(b, p).res.pos).res;
  }

  lemma {:induction false} RecordsAgree(t: Type, n: nat, cur: seq<Value>, b: seq<byte>, p: nat)
    requires p <= |b| && t.ObjectT? && |cur| == |t.fields|
    ensures Lands(SkipRecords(n, b, p).res, DecodeRecords(t, n, cur, b, p))
    decreases t, 0, n
  {
    if n > 0 && DecodeRecord(t, cur, b, p).Ok? {
      RecordAgrees(t, n, cur, b, p);
      var r := DecodeRecord(t, cur, b, p);
      RecordsAgree(t, n - 1, r.val, b, r.pos);
    }
  }

  lemma {:induction false} RecordAgrees(t: Type, n: nat, cur: seq<Value>, b: seq<byte>, p: nat)
    requires p <= |b| && t.ObjectT? && |cur| == |t.fields| && n > 0 && DecodeRecord(t, cur, b, p).Ok?
    ensures SkipRecords(n, b, p).res == SkipRecords(n - 1, b, DecodeRecord(t, cur, b, p).pos).res
    decreases t, 0, 0
  {
    var r := ReadUint(b, p);
    var k := FieldIndex(t.fields, r.val, 0);
    if k < |t.fields| { SkipAgrees(t.fields[k].ty, cur[k], b, r.pos); }
  }
}
