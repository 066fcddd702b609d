// The protobuf reader: a cursor over one window, nested readers over payloads, one retained error.
// Every method is proved against the read functions of ProtobufWire and ProtobufCodec.
module ProtobufReader {
  import opened Bytes
  import opened Schema
  import opened ProtobufWire
  import opened ProtobufCodec
  import opened ProtobufMerge
  import opened ByteWindow
  import Bitset
  import Definition

  datatype ReadError = ReadError(code: Code, offset: nat)

  // ---- The varint loop -----------------------------------------------------------------------------

  /** Group `i` of a varint shifted into place; bits past the 64th fall off. */
  function Group(b: byte, i: nat): nat { b % 128 * Pow2(7 * i) % U64 }

  lemma {:induction false} FromVarintAppend(s: seq<byte>, b: byte)
    ensures FromVarint(s + [b]) == FromVarint(s) + b % 128 * Pow2(7 * |s|)
    ensures FromVarint(s) < Pow2(7 * |s|)
  {
    if s == [] {
      assert [b][1..] == [];
    } else {
      assert (s + [b])[1..] == s[1..] + [b];
      FromVarintAppend(s[1..], b);
      Pow2Seven();
      Pow2Sum(7, 7 * |s[1..]|);
      Scale(FromVarint(s[1..]), b % 128, Pow2(7 * |s[1..]|));
    }
  }

  lemma Scale(f: nat, c: nat, p: nat)
    ensures 128 * (f + c * p) == 128 * f + c * (128 * p)
  {}

  /** Or-ing in the next group adds it, modulo 2^64, for each of the ten groups. */
  lemma OrGroup(s: seq<byte>, b: byte)
    requires |s| < 10
    ensures FromVarint(s) % U64 == FromVarint(s) &&
            BitOr(FromVarint(s) % U64, Group(b, |s|)) == FromVarint(s + [b]) % U64
  {
    hide BitOr, Pow2, FromVarint;
    FromVarintAppend(s, b);
    Pow2Word();
    var p := Pow2(7 * |s|);
    if |s| == 9 {
      assert U64 == 2 * p by { Pow2Sum(1, 63); Pow2One(); }
      TopGroup(b % 128, p);
      OrDisjoint(FromVarint(s), b % 128 % 2, 63);
      AddTop(FromVarint(s), b % 128, p);
    } else {
      Pow2Sum(7, 7 * |s|);
      Pow2Seven();
      Pow2Grows(7 * |s| + 7, 64);
      GroupBound(b % 128, p, FromVarint(s));
      OrDisjoint(FromVarint(s), b % 128, 7 * |s|);
    }
  }

  lemma Pow2One()
    ensures Pow2(1) == 2
  {}

  lemma GroupBound(c: nat, p: nat, f: nat)
    requires c < 128 && 128 * p <= U64 && f < p
    ensures c * p % U64 == c * p && (f + c * p) % U64 == f + c * p && f % U64 == f
  {
    Scaled(c, p);
    NoWrap(c * p);
    NoWrap(f + c * p);
    NoWrap(f);
  }

  lemma Scaled(c: nat, p: nat)
    requires c < 128
    ensures c * p <= 127 * p
  {}

  lemma NoWrap(x: nat)
    requires x < U64
    ensures x % U64 == x
  {}

  lemma TopGroup(c: nat, p: nat)
    requires U64 == 2 * p
    ensures c * p % U64 == c % 2 * p
  {
    assert c * p == c % 2 * p + c / 2 * (2 * p);
  }

  lemma AddTop(f: nat, c: nat, p: nat)
    requires U64 == 2 * p && f < p
    ensures (f + c * p) % U64 == f + c % 2 * p && f % U64 == f
  {
    assert f + c * p == f + c % 2 * p + c / 2 * (2 * p);
  }

  // ---- The reader ----------------------------------------------------------------------------------

  /** The same outcome, not counting how much input it took. */
  predicate Agree(a: Res, b: Res) {
    a.val == b.val && a.Done? == b.Done? && (a.Fail? ==> a.code == b.code && a.at == b.at)
  }

  class Reader {
    const input: WindowInput
    var error: Option<ReadError>

    ghost predicate Valid()
      reads this, input
    {
      input.Valid()
    }

    /** What is left of the window. */
    ghost function Rest(): seq<byte>
      requires Valid()
      reads this, input
    {
      input.data[input.current..]
    }

    constructor (input: WindowInput)
      requires input.Valid()
      ensures Valid() && error.None? && this.input == input
    {
      this.input := input;
      error := None;
    }

    /** The target, the cursor and the error are those of the outcome `r`, in this window's offsets. */
    twostate predicate Left(r: Res, ok: bool, v: Value)
      reads this, input
    {
      Valid() && ok == r.Done? && v == r.val &&
      (ok ==> input.current == old(input.current) + r.used && error.None?) &&
      (!ok ==> error == Some(ReadError(r.code, r.at)))
    }

    /** The target and the error are those of the outcome `r`; the payload it is about was consumed. */
    ghost predicate Settled(r: Res, ok: bool, v: Value)
      reads this
    {
      ok == r.Done? && v == r.val && error == if ok then None else Some(ReadError(r.code, r.at))
    }

    /** A primitive read took `used` bytes, or stopped where the outcome says. */
    twostate predicate Moved(ok: bool, used: nat, code: Code, at: nat)
      reads this, input
    {
      Valid() &&
      (ok ==> input.current == old(input.current) + used && error.None?) &&
      (!ok ==> input.current == old(input.current) + at && error == Some(ReadError(code, input.current)))
    }

    method Fail(code: Code)
      requires Valid() && error.None?
      modifies this
      ensures error == Some(ReadError(code, input.current))
    {
      error := Some(ReadError(code, input.current));
    }

    /** The nested reader's error, its offset moved by the start of the payload just consumed. */
    method Adopt(nested: ReadError, size: nat)
      requires Valid() && size <= input.current
      modifies this
      ensures error == Some(ReadError(nested.code, nested.offset + (input.current - size)))
    {
      error := Some(ReadError(nested.code, nested.offset + (input.current - size)));
    }

    method HasRemaining() returns (more: bool)
      requires Valid()
      ensures more == (Rest() != [])
    {
      more := input.Peek(1) != [];
    }

    // ---- Primitives -------------------------------------------------------------------------------

    method NextVarint() returns (ok: bool, value: nat)
      requires Valid() && error.None?
      modifies this, input
      ensures var r := old(ReadVarint(Rest()));
              ok == r.Got? && (if ok then value == r.val && Moved(true, r.used, Truncated, 0)
                               else Moved(false, 0, r.code, 0))
    {
      hide BitOr, FromVarint, Group, Continued;
      value := 0;
      var window := input.Peek(10);
      if window == [] {
        Fail(Truncated);
        return false, 0;
      }
      ghost var s := Rest();
      assert window == s[..|window|];
      EmptyVarint();
      var i := 0;
      while i < |window| && i < 10
        invariant i <= |window| && input.current == old(input.current) && error.None?
        invariant value == FromVarint(s[..i]) % U64 && Continued(s) >= i
      {
        var byte := window[i];
        assert s[..i + 1] == s[..i] + [byte];
        OrGroup(s[..i], byte);
        ContinuedFrom(s, i);
        value := BitOr(value, Group(byte, i));
        if byte < 128 {
          input.Consume(i + 1);
          return true, value;
        }
        i := i + 1;
      }
      if |window| < 10 {
        Fail(Truncated);
      } else {
        Fail(InvalidVarint);
      }
      return false, 0;
    }

    method NextView(size: nat) returns (ok: bool, view: seq<byte>)
      requires Valid() && error.None?
      modifies this, input
      ensures ok == (size <= |old(Rest())|)
      ensures ok ==> view == old(Rest())[..size]
      ensures Moved(ok, size, Truncated, 0)
    {
      if size == 0 {
        return true, [];
      }
      var window := input.Peek(size);
      if |window| != size {
        Fail(Truncated);
        return false, [];
      }
      input.Consume(size);
      return true, window;
    }

    /** A length prefix and the payload it announces. */
    method NextSpan() returns (ok: bool, view: seq<byte>)
      requires Valid() && error.None?
      modifies this, input
      ensures var r := old(ReadSpan(Rest()));
              ok == r.Span? &&
              (if ok then view == old(Rest())[r.head..r.head + r.size] && Moved(true, r.head + r.size, Truncated, 0)
               else Moved(false, 0, r.code, r.at))
    {
      hide ReadVarint;
      var n: nat;
      ghost var s := Rest();
      ok, n := NextVarint();
      if !ok { return false, []; }
      ghost var h := ReadVarint(s).used;
      assert Rest() == s[h..];
      ok, view := NextView(n);
      if ok { assert view == s[h..h + n]; }
    }

    // ---- Leaves -----------------------------------------------------------------------------------

    method ReadLeafValue(t: Leaf, o: Value) returns (ok: bool, v: Value)
      requires Valid() && error.None?
      modifies this, input
      ensures var r := old(ReadLeaf(t, Rest(), input.current, o)); Left(r, ok, v)
    {
      hide ReadVarint, ReadSpan, LeafNumber, Fill, FromLittle;
      v := o;
      ghost var s := Rest();
      var view: seq<byte>;
      if t.BoolL? || t.UIntL? || t.IntL? {
        var raw: nat;
        ok, raw := NextVarint();
        if ok { v := LeafNumber(t, raw); }
      } else if t.FloatL? || t.DoubleL? {
        ok, view := NextView(if t.FloatL? then 4 else 8);
        if ok { v := Float(FromLittle(view)); }         // memcpy
      } else if t.StringL? {
        ok, view := NextSpan();
        if ok { v := Blob(view); }
      } else if t.BytesL? {
        ok, v := ReadByteArray(t.size, o);
      } else {
        ok, v := ReadFlags(t.size);
      }
    }

    method ReadByteArray(size: nat, o: Value) returns (ok: bool, v: Value)
      requires Valid() && error.None?
      modifies this, input
      ensures var r := old(ReadBytes(size, Rest(), input.current, o)); Left(r, ok, v)
    {
      hide ReadVarint;
      v := o;
      ghost var s := Rest();
      var n: nat;
      var view: seq<byte>;
      ok, n := NextVarint();
      if !ok { return; }
      ghost var u := ReadVarint(s).used;
      assert Rest() == s[u..];
      if n > size {
        Fail(InvalidSize);
        return false, v;
      }
      ok, view := NextView(n);
      if ok {
        assert view == s[u..u + n];
        v := Blob(Fill(view, size));
      }
    }

    method ReadFlags(size: nat) returns (ok: bool, v: Value)
      requires Valid() && error.None?
      modifies this, input
      ensures var r := old(ReadBitset(size, Rest(), input.current)); Left(r, ok, v)
    {
      hide ReadVarint;
      v := LeafDefault(BitsetL(size));                  // reset()
      ghost var s := Rest();
      var n: nat;
      var view: seq<byte>;
      ok, n := NextVarint();
      if !ok { return; }
      ghost var u := ReadVarint(s).used;
      assert Rest() == s[u..];
      if n != Bitset.ByteCount(size) {
        Fail(InvalidSize);
        return false, v;
      }
      ok, view := NextView(n);
      if ok {
        assert view == s[u..u + n];
        var flags := Bitset.UnpackLoop(view, size);
        v := Flags(flags[..]);
      }
    }

    // ---- Fields -----------------------------------------------------------------------------------

    /** `codec<T>::read(in, field, wire, value)` */
    method ReadFieldValue(t: Type, wire: nat, o: Value) returns (ok: bool, v: Value)
      requires Valid() && error.None? && Supported(t) == true
      modifies this, input
      ensures var r := old(ReadField(t, wire, Rest(), input.current, o)); Left(r, ok, v)
      decreases |Rest()|, t, 2
    {
      hide ReadField, ReadLeaf, ReadSpan, ReadBody, WireOf, Default;
      ghost var s, p := Rest(), input.current;
      if t.OptionalT? {
        OptionalStep(t, wire, s, p, o);
        var inner: Value;
        ok, inner := ReadFieldValue(t.elem, wire, Default(t.elem));     // emplace()
        v := Just(inner);
        return;
      }
      FieldStep(t, wire, s, p, o);
      v := o;
      if wire != WireOf(t) {
        Fail(WireTypeMismatch);
        ok := false;
      } else if t.LeafT? {
        ok, v := ReadLeafValue(t.leaf, o);
      } else {
        var view: seq<byte>;
        ok, view := NextSpan();
        if ok { ok, v := ReadPayload(t, view, o); }
      }
    }

    /** The payload just consumed, read by a reader of its own. */
    method ReadPayload(t: Type, view: seq<byte>, o: Value) returns (ok: bool, v: Value)
      requires Valid() && error.None? && Supported(t) == true && !t.LeafT? && !t.OptionalT?
      requires |view| <= input.current
      modifies this
      ensures Settled(ReadBody(t, view, old(input.current) - |view|, o), ok, v)
      decreases |view|, t, 7
    {
      hide *;
      var window := new WindowInput(view);
      var nested := new Reader(window);
      ok, v := ReadWith(t, nested, input.current - |view|, o);
    }

    /** `nested` covers the payload, which starts at `base`. */
    method ReadWith(t: Type, nested: Reader, ghost base: nat, o: Value) returns (ok: bool, v: Value)
      requires Valid() && error.None? && Supported(t) == true && !t.LeafT? && !t.OptionalT?
      requires nested.Valid() && nested.error.None? && nested.input.current == 0 && nested != this
      requires nested.input != input && base + |nested.input.data| == input.current
      modifies this, nested, nested.input
      ensures Settled(ReadBody(t, nested.input.data, base, o), ok, v)
      decreases |nested.input.data|, t, 6
    {
      hide ReadBody, Settled, Supported;
      KindSupported(t);
      assert nested.Rest() == nested.input.data;
      if t.ArrayT? {
        ok, v := ReadElements(t, nested, base, o);
      } else if t.MapT? {
        ok, v := ReadMapEntry(t, nested, base, o);
      } else {
        ok, v := ReadNested(t, nested, base, o);
      }
    }

    method ReadNested(t: Type, nested: Reader, ghost base: nat, o: Value) returns (ok: bool, v: Value)
      requires Valid() && error.None? && Supported(t) == true && (t.TupleT? || t.ObjectT?)
      requires nested.Valid() && nested.error.None? && nested.input.current == 0 && nested != this
      requires nested.input != input && base + |nested.input.data| == input.current
      modifies this, nested, nested.input
      ensures Settled(ReadBody(t, nested.input.data, base, o), ok, v)
      decreases |nested.Rest()|, t, 5
    {
      hide ReadPacked, ReadTuple, ReadEntry, ReadMessage, Default, Supported;
      ghost var view := nested.input.data;
      assert nested.Rest() == view && 0 + base == base;
      if t.TupleT? {
        TupleShift(t, {}, view, 0, base, o);
        ok, v := nested.ReadTupleValue(t, o);
      } else {
        MessageShift(t, view, 0, base, o);
        ok, v := nested.ReadMessageValue(t, o);
      }
      if !ok { Adopt(nested.error.value, |nested.input.data|); }
    }

    method ReadMessageValue(t: Type, o: Value) returns (ok: bool, v: Value)
      requires Valid() && Supported(t) == true && t.ObjectT?
      modifies this, input
      ensures var r := old(ReadMessage(t, Rest(), input.current, o)); Left(r, ok, v)
      decreases |Rest()|, t, 4
    {
      hide ReadMessage, ReadRecord;
      error := None;
      v := o;
      ghost var s, p := Rest(), input.current;
      var more := HasRemaining();
      while more
        invariant Valid() && error.None? && p <= input.current && more == (Rest() != [])
        invariant ReadMessage(t, s, p, o) == Advance(ReadMessage(t, Rest(), input.current, v), input.current - p)
        decreases |Rest()|
      {
        ghost var rest, q := Rest(), input.current;
        MessageStep(t, rest, q, v);
        ok, v := ReadRecordValue(t, v);
        if !ok { return; }
        assert Rest() == rest[input.current - q..];
        more := HasRemaining();
      }
      MessageEnd(t, input.current, v);
      ok := true;
    }

    /** One key, dispatched to its field. */
    method ReadRecordValue(t: Type, o: Value) returns (ok: bool, v: Value)
      requires Valid() && error.None? && Supported(t) == true && t.ObjectT? && Rest() != []
      modifies this, input
      ensures var r := old(ReadRecord(t, Rest(), input.current, o)); Left(r, ok, v)
      decreases |Rest()|, t, 3
    {
      hide ReadVarint, ReadField, ReadRecord, FieldNumber, WireType, Slot, SetSlot;
      v := o;
      ghost var s, p := Rest(), input.current;
      var key: nat;
      ok, key := NextVarint();
      if !ok {
        RecordEnd(t, s, p, o);
        return;
      }
      RecordStep(t, s, p, o);
      ghost var u := ReadVarint(s).used;
      assert Rest() == s[u..];
      if FieldNumber(key) == 0 {
        Fail(FieldNumberZero);
        return false, v;
      }
      var found, hits := Definition.DispatchById(t.fields, FieldNumber(key));
      if !found {
        Fail(UnknownField);
        return false, v;
      }
      var i := hits[0];
      var slot: Value;
      ok, slot := ReadFieldValue(t.fields[i].ty, WireType(key), Slot(o, i));
      v := SetSlot(o, i, slot);
    }

    method ReadTupleValue(t: Type, o: Value) returns (ok: bool, v: Value)
      requires Valid() && error.None? && Supported(t) == true && t.TupleT?
      modifies this, input
      ensures var r := old(ReadTuple(t, {}, Rest(), input.current, o)); Left(r, ok, v)
      decreases |Rest()|, t, 4
    {
      hide ReadTuple, ReadVarint, ReadField;
      v := o;
      ghost var s, p := Rest(), input.current;
      var seen := new bool[|t.elems|](_ => false);
      var seenCount := 0;
      ghost var marked: set<nat> := {};
      var more := HasRemaining();
      while more
        invariant Valid() && error.None? && p <= input.current && more == (Rest() != [])
        invariant seenCount == |marked| && forall i: nat :: i in marked <==> i < |t.elems| && seen[i]
        invariant ReadTuple(t, {}, s, p, o) ==
                  Advance(ReadTuple(t, marked, Rest(), input.current, v), input.current - p)
        decreases |Rest()|
      {
        var i: nat;
        ok, v, i := ReadElement(t, seen, marked, v);
        if !ok { return; }
        seen[i] := true;
        seenCount := seenCount + 1;
        marked := marked + {i};
        more := HasRemaining();
      }
      TupleEnd(t, marked, [], input.current, v);
      if seenCount != |t.elems| {
        Fail(InvalidSize);
        return false, v;
      }
      ok := true;
    }

    /** One record of a tuple. */
    method ReadElement(t: Type, seen: array<bool>, ghost marked: set<nat>, o: Value)
      returns (ok: bool, v: Value, i: nat)
      requires Valid() && error.None? && Supported(t) == true && t.TupleT? && Rest() != []
      requires seen.Length == |t.elems| && forall i: nat :: i in marked <==> i < |t.elems| && seen[i]
      modifies this, input
      ensures Valid()
      ensures var r := old(ReadTuple(t, marked, Rest(), input.current, o));
              if ok then
                i < |t.elems| && !seen[i] && error.None? && old(input.current) < input.current &&
                r == Advance(ReadTuple(t, marked + {i}, Rest(), input.current, v), input.current - old(input.current))
              else r.Fail? && v == r.val && error == Some(ReadError(r.code, r.at))
      decreases |Rest()|, t, 3
    {
      hide ReadTuple, ReadVarint, ReadField, FieldNumber, WireType, Slot, SetSlot;
      v, i := o, 0;
      ghost var s, p := Rest(), input.current;
      var key: nat;
      ok, key := NextVarint();
      if !ok {
        TupleEnd(t, marked, s, p, v);
        return;
      }
      TupleStep(t, marked, s, p, v);
      ghost var u := input.current - p;
      assert Rest() == s[u..];
      if FieldNumber(key) == 0 {
        Fail(FieldNumberZero);
        return false, v, 0;
      }
      if FieldNumber(key) > |t.elems| {
        Fail(UnknownField);
        return false, v, 0;
      }
      i := FieldNumber(key) - 1;
      if seen[i] {
        Fail(DuplicateField);
        return false, v, 0;
      }
      var slot: Value;
      ok, slot := ReadFieldValue(t.elems[i], WireType(key), Slot(o, i));
      v := SetSlot(o, i, slot);
      if ok { assert Rest() == s[input.current - p..]; }
    }

    /** The elements of a packed array, whose payload `nested` covers. */
    method ReadElements(t: Type, nested: Reader, ghost base: nat, o: Value) returns (ok: bool, v: Value)
      requires Valid() && error.None? && Supported(t) == true && t.ArrayT?
      requires nested.Valid() && nested.error.None? && nested.input.current == 0 && nested != this
      requires nested.input != input && base + |nested.input.data| == input.current
      modifies this, nested, nested.input
      ensures Settled(ReadBody(t, nested.input.data, base, o), ok, v)
    {
      hide ReadPacked, ReadBody, Supported;
      v := o;
      ghost var s := nested.input.data;
      ghost var goal := ReadPacked(t, 0, s, 0, o);
      ArrayBody(t, s, base, o);
      assert nested.Rest() == s;
      var index := 0;
      var more := nested.HasRemaining();
      while more
        invariant Valid() && error.None? && input.current == old(input.current)
        invariant nested.Valid() && nested.error.None? && more == (nested.Rest() != [])
        invariant Agree(goal, ReadPacked(t, index, nested.Rest(), nested.input.current, v))
        decreases |nested.Rest()|
      {
        if index >= t.count {
          assert |nested.Rest()| + nested.input.current == |s|;
          PackedEnd(t, index, nested.Rest(), nested.input.current, v);
          Fail(InvalidSize);
          return false, v;
        }
        ok, v := nested.ReadItem(t, index, v);
        if !ok {
          Adopt(nested.error.value, |nested.input.data|);
          return;
        }
        index := index + 1;
        more := nested.HasRemaining();
      }
      assert nested.Rest() == [] && nested.input.current == |s|;
      PackedEnd(t, index, nested.Rest(), nested.input.current, v);
      if index != t.count {
        Fail(InvalidSize);
        return false, v;
      }
      ok := true;
    }

    /** One packed element, by the reader over the payload. */
    method ReadItem(t: Type, index: nat, o: Value) returns (ok: bool, v: Value)
      requires Valid() && error.None? && Supported(t) == true && t.ArrayT? && index < t.count && Rest() != []
      modifies this, input
      ensures Valid()
      ensures var r := old(ReadPacked(t, index, Rest(), input.current, o));
              if ok then
                error.None? && old(input.current) < input.current &&
                Agree(r, ReadPacked(t, index + 1, Rest(), input.current, v))
              else error.Some? && r == ProtobufCodec.Fail(v, error.value.code, error.value.offset)
    {
      hide ReadPacked, ReadLeaf, Slot, SetSlot;
      ghost var s, q := Rest(), input.current;
      PackedStep(t, index, s, q, o);
      var slot: Value;
      ok, slot := ReadLeafValue(t.elem.leaf, Slot(o, index));
      v := SetSlot(o, index, slot);
      if ok { assert Rest() == s[input.current - q..]; }
    }

    /** One map entry, whose payload `nested` covers. */
    method ReadMapEntry(t: Type, nested: Reader, ghost base: nat, o: Value) returns (ok: bool, v: Value)
      requires Valid() && error.None? && Supported(t) == true && t.MapT?
      requires nested.Valid() && nested.error.None? && nested.input.current == 0 && nested != this
      requires nested.input != input && base + |nested.input.data| == input.current
      modifies this, nested, nested.input
      ensures Settled(ReadBody(t, nested.input.data, base, o), ok, v)
      decreases |nested.Rest()|, t, 5
    {
      hide ReadPacked, ReadTuple, ReadEntry, ReadMessage, Default, InsertOrAssign, Supported;
      v := o;
      ghost var s := nested.input.data;
      EntryShift(t, Default(t.key), Default(t.mapped), s, 0, base);
      assert nested.Rest() == s;
      var key, mapped := Default(t.key), Default(t.mapped);
      var more := nested.HasRemaining();
      while more
        invariant Valid() && error.None? && input.current == old(input.current)
        invariant nested.Valid() && nested.error.None? && more == (nested.Rest() != [])
        invariant ReadEntry(t, Default(t.key), Default(t.mapped), s, 0) ==
                  ReadEntry(t, key, mapped, nested.Rest(), nested.input.current)
        decreases |nested.Rest()|
      {
        ok, key, mapped := nested.ReadHalf(t, key, mapped);
        if !ok {
          Adopt(nested.error.value, |nested.input.data|);
          return;
        }
        more := nested.HasRemaining();
      }
      EntryEnd(t, key, mapped, nested.Rest(), nested.input.current);
      v := Dict(InsertOrAssign(if o.Dict? then o.entries else [], Entry(key, mapped)));
      ok := true;
    }

    /** One record of a map entry, by the reader over its payload. */
    method ReadHalf(t: Type, key: Value, mapped: Value) returns (ok: bool, k: Value, m: Value)
      requires Valid() && error.None? && Supported(t) == true && t.MapT? && Rest() != []
      modifies this, input
      ensures Valid()
      ensures var r := old(ReadEntry(t, key, mapped, Rest(), input.current));
              if ok then
                error.None? && old(input.current) < input.current && r == ReadEntry(t, k, m, Rest(), input.current)
              else error.Some? && r == EntryRes.Bad(error.value.code, error.value.offset)
      decreases |Rest()|, t, 3
    {
      hide ReadEntry, ReadVarint, ReadField, FieldNumber, WireType, Supported;
      k, m := key, mapped;
      ghost var s, p := Rest(), input.current;
      var wireKey: nat;
      ok, wireKey := NextVarint();
      if !ok {
        EntryEnd(t, key, mapped, s, p);
        return;
      }
      assert Rest() == s[input.current - p..];
      if 1 <= FieldNumber(wireKey) <= 2 {
        EntryStep(t, key, mapped, s, p);
        if FieldNumber(wireKey) == 1 {
          ok, k := ReadFieldValue(t.key, WireType(wireKey), key);
        } else {
          ok, m := ReadFieldValue(t.mapped, WireType(wireKey), mapped);
        }
        if ok { assert Rest() == s[input.current - p..]; }
      } else {
        EntryRefused(t, key, mapped, s, p);
        Fail(if FieldNumber(wireKey) == 0 then FieldNumberZero else UnknownField);
        ok := false;
      }
    }
  }

  lemma ArrayBody(t: Type, s: seq<byte>, base: nat, o: Value)
    requires Supported(t) == true && t.ArrayT?
    ensures ReadBody(t, s, base, o) == Shift(ReadPacked(t, 0, s, 0, o), base)
  {
    hide ReadPacked;
    PackedShift(t, 0, s, 0, base, o);
  }

  lemma KindSupported(t: Type)
    requires Supported(t) == true
    ensures t.LeafT? || t.ArrayT? || t.TupleT? || t.OptionalT? || t.MapT? || t.ObjectT?
    ensures t.MapT? ==> Supported(t.key) && Supported(t.mapped)
  {}

  lemma EmptyVarint()
    ensures FromVarint([]) % U64 == 0
  {}

  /** Where the scan stops, knowing that the bytes before `i` all continue. */
  lemma {:induction false} ContinuedFrom(s: seq<byte>, i: nat)
    requires i < |s| && Continued(s) >= i
    ensures if s[i] < 128 then Continued(s) == i else Continued(s) >= i + 1
  {
    if i > 0 { ContinuedFrom(s[1..], i - 1); }
  }
}
