// The compact reader: a cursor and a retained error, moved by the typed reads and the skipper.
// Every method is proved against the read functions of CompactIntegers and CompactCodec.
module CompactReader {
  import opened Bytes
  import opened Schema
  import opened CompactIntegers
  import opened CompactCodec
  import opened CompactTargets
  import opened ByteWindow
  import Bitset
  import Definition

  datatype ReadError = ReadError(code: Code, offset: nat)

  /** The big-endian fallback: `value |= byte << 8i`, from the most significant byte down. */
  method ShiftLoad(s: seq<byte>) returns (value: nat)
    ensures value == FromLittle(s)
  {
    value := 0;
    var i := |s|;
    ghost var high := 0;
    while i > 0
      invariant 0 <= i <= |s| && high == FromLittle(s[i..]) && value == high * Pow2(8 * i)
    {
      i := i - 1;
      assert s[i..][1..] == s[i + 1..];
      OrByte(s[i], high, i);
      value := BitOr(value, s[i] * Pow2(8 * i));
      high := s[i] + 256 * high;
    }
    assert s[0..] == s;
  }

  /** Or-ing byte `x` in at digit `i` below the digits already loaded. */
  lemma OrByte(x: byte, high: nat, i: nat)
    ensures BitOr(high * Pow2(8 * (i + 1)), x * Pow2(8 * i)) == (x + 256 * high) * Pow2(8 * i)
  {
    hide BitOr, Pow2;
    var a := Pow2(8 * i);
    Pow2Byte(8 * i);
    Distribute(x, high, a);
    OrDisjoint(x * a, high, 8 * (i + 1));
  }

  lemma Pow2Byte(k: nat)
    ensures Pow2(k + 8) == 256 * Pow2(k)
  {
    assert Pow2(k + 2) == 4 * Pow2(k);
    assert Pow2(k + 4) == 16 * Pow2(k);
    assert Pow2(k + 6) == 64 * Pow2(k);
  }

  lemma Distribute(x: byte, high: nat, a: nat)
    requires a > 0
    ensures x * a < 256 * a && x * a + high * (256 * a) == (x + 256 * high) * a
  {}

  // ---- Elements read in place ----------------------------------------------------------------------

  /** Elements of `n` from `i` on are still to be read: a vector has none yet, other slots are as before. */
  ghost predicate Opened(t: Type, prior: Value, n: nat, i: nat, items: seq<Value>) {
    if t.VectorT? then |items| == i
    else |items| == n && forall j :: i <= j < n ==> items[j] == Slot(prior, j)
  }

  /** A vector is cleared; other targets have their slots. */
  function Opening(t: Type, prior: Value, n: nat): seq<Value> {
    if t.VectorT? then [] else seq(n, j requires 0 <= j < n => Slot(prior, j))
  }

  lemma AllOpen(t: Type, prior: Value, n: nat)
    ensures Opened(t, prior, n, 0, Opening(t, prior, n)) && Opening(t, prior, n)[..0] == []
  {}

  lemma NextOpen(t: Type, prior: Value, n: nat, i: nat, items: seq<Value>)
    requires IsSequence(t) && Opened(t, prior, n, i, items) && i < n
    ensures |items[..i]| == i
    ensures if t.VectorT? then |items| == i else |items| == n && items[i] == ElemPrior(t, prior, i)
  {}

  lemma NoneOpen(t: Type, prior: Value, n: nat, items: seq<Value>)
    requires Opened(t, prior, n, n, items)
    ensures |items| == n && items[..n] == items
  {}

  /** Element `i` pushed, or read in its slot. */
  lemma PutOpen(t: Type, prior: Value, n: nat, i: nat, items: seq<Value>, item: Value)
    requires Opened(t, prior, n, i, items) && i < n
    ensures i <= |items|
    ensures t.VectorT? ==> items == Stopped(t, prior, n, items[..i], item)
    ensures !t.VectorT? ==> i < |items| && items[i := item] == Stopped(t, prior, n, items[..i], item)
    ensures var more := if t.VectorT? then items + [item] else items[i := item];
            Opened(t, prior, n, i + 1, more) && i + 1 <= |more| && more[..i + 1] == items[..i] + [item]
  {}

  lemma ElemStep(t: Type, prior: Value, n: nat, acc: seq<Value>, b: seq<byte>, p: nat)
    requires p <= |b| && IsSequence(t) && |acc| < n && (t.TupleT? ==> n == |t.elems|)
    ensures var e, x := ElemType(t, |acc|), ElemPrior(t, prior, |acc|);
            var r := Decode(e, x, b, p);
            if r.Ok? then
              DecodeElems(t, prior, n, acc, b, p) == DecodeElems(t, prior, n, acc + [r.val], b, r.pos) &&
              ElemsAfter(t, prior, n, acc, b, p) == ElemsAfter(t, prior, n, acc + [r.val], b, r.pos)
            else
              DecodeElems(t, prior, n, acc, b, p) == Err(r.code, r.at) &&
              ElemsAfter(t, prior, n, acc, b, p) == List(Stopped(t, prior, n, acc, After(e, x, b, p)))
  {
    hide Decode, After, Stopped;
  }

  lemma ElemsEnd(t: Type, prior: Value, n: nat, acc: seq<Value>, b: seq<byte>, p: nat)
    requires p <= |b| && IsSequence(t) && |acc| == n && (t.TupleT? ==> n == |t.elems|)
    ensures DecodeElems(t, prior, n, acc, b, p) == Ok(List(acc), p) && ElemsAfter(t, prior, n, acc, b, p) == List(acc)
  {}

  class Reader {
    const input: WindowInput
    const littleEndian: bool            // std::endian::native
    var error: Option<ReadError>

    ghost predicate Valid()
      reads this, input
    {
      input.Valid()
    }

    constructor (input: WindowInput, littleEndian: bool)
      requires input.Valid()
      ensures Valid() && error.None? && this.input == input && this.littleEndian == littleEndian
    {
      this.input := input;
      this.littleEndian := littleEndian;
      error := None;
    }

    /** The cursor, the status and the retained error are those of the outcome `r`: a first error
        fixes the offset, a later one only replaces the code. */
    twostate predicate Left<T>(r: Res<T>, ok: bool)
      reads this, input
    {
      ok == r.Ok? &&
      input.current == Cursor(r) && Valid() &&
      error == match r
        case Ok(_, _) => old(error)
        case Err(c, a) => Some(ReadError(c, if old(error).Some? then old(error).value.offset else a))
    }

    method Fail(code: Code)
      requires Valid()
      modifies this
      ensures error == Some(ReadError(code,
                if old(error).Some? then old(error).value.offset else input.current))
    {
      error := Some(ReadError(code, if error.Some? then error.value.offset else input.current));
    }

    // ---- Primitives -----------------------------------------------------------------------------

    method NextByte() returns (ok: bool, value: byte)
      requires Valid()
      modifies this, input
      ensures var r := old(ReadByte(input.data, input.current)); Left(r, ok) && (ok ==> value == r.val)
    {
      var view := input.Peek(1);
      if |view| != 1 {
        Fail(Truncated);
        return false, 0;
      }
      value := view[0];
      input.Consume(1);
      ok := true;
    }

    method NextRaw(size: nat) returns (ok: bool, bytes: seq<byte>)
      requires Valid()
      modifies this, input
      ensures var r := old(ReadRaw(size, input.data, input.current)); Left(r, ok) && (ok ==> bytes == r.val)
    {
      if size == 0 {
        return true, [];
      }
      var view := input.Peek(size);
      if |view| != size {
        Fail(Truncated);
        return false, [];
      }
      bytes := view;
      input.Consume(size);
      ok := true;
    }

    method LoadLittle(s: seq<byte>) returns (value: nat)
      ensures value == FromLittle(s)
    {
      if littleEndian {
        value := FromLittle(s);        // memcpy
      } else {
        value := ShiftLoad(s);
      }
    }

    method NextUint() returns (ok: bool, value: nat)
      requires Valid()
      modifies this, input
      ensures var r := old(ReadUint(input.data, input.current)); Left(r, ok) && (ok ==> value == r.val)
    {
      var view := input.Peek(9);
      if view == [] {
        Fail(Truncated);
        return false, 0;
      }
      var header := view[0];
      if header <= SMALL_UINT_MAX {
        input.Consume(1);
        return true, header;
      }
      if header / 8 == 10 {
        var count := header % 8 + 1;
        var payload := view[1..];
        if |payload| < count {
          Fail(Truncated);
          return false, 0;
        }
        assert payload[..count] == input.data[input.current + 1..input.current + 1 + count];
        value := LoadLittle(payload[..count]);
        input.Consume(1 + count);
        return true, value;
      }
      if header <= SMALL_NEG_MAX {
        Fail(InvalidInteger);
      } else if header > INT_PAYLOAD_MAX {
        Fail(InvalidHeader);
      } else {
        Fail(InvalidInteger);
      }
      return false, 0;
    }

    method NextInt() returns (ok: bool, value: int)
      requires Valid()
      modifies this, input
      ensures var r := old(ReadInt(input.data, input.current)); Left(r, ok) && (ok ==> value == r.val)
    {
      var view := input.Peek(9);
      if view == [] {
        Fail(Truncated);
        return false, 0;
      }
      var header := view[0];
      if header <= SMALL_UINT_MAX {
        input.Consume(1);
        return true, header;
      }
      if header <= SMALL_NEG_MAX {
        input.Consume(1);
        return true, -(header - SMALL_NEG_MIN + 1);
      }
      if header > INT_PAYLOAD_MAX {
        Fail(InvalidHeader);
        return false, 0;
      }
      var count := header % 8 + 1;
      var payload := view[1..];
      if |payload| < count {
        Fail(Truncated);
        return false, 0;
      }
      assert payload[..count] == input.data[input.current + 1..input.current + 1 + count];
      var magnitude := LoadLittle(payload[..count]);
      var negative := header >= 0x58;
      if !negative {
        if magnitude > I64_LIMIT - 1 {
          Fail(InvalidInteger);
          return false, 0;
        }
        input.Consume(1 + count);
        return true, magnitude;
      }
      if magnitude > I64_LIMIT {
        Fail(InvalidInteger);
        return false, 0;
      }
      value := if magnitude == I64_LIMIT then 0 - I64_LIMIT else 0 - magnitude;
      input.Consume(1 + count);
      ok := true;
    }

    method NextSize(base: byte) returns (ok: bool, size: nat)
      requires Valid()
      modifies this, input
      ensures var r := old(ReadSize(base, input.data, input.current)); Left(r, ok) && (ok ==> size == r.val)
    {
      var header: byte;
      ok, header := NextByte();
      if !ok { return false, 0; }
      if !(base <= header <= base + EXTENDED) {
        Fail(InvalidHeader);
        return false, 0;
      }
      var low := header - base;
      if low < EXTENDED {
        return true, low;
      }
      ok, size := NextUint();
    }

    // ---- Leaves ----------------------------------------------------------------------------------

    method ReadLeaf(t: Leaf, prior: Value) returns (ok: bool, v: Value)
      requires Valid()
      modifies this, input
      ensures var r := old(DecodeLeaf(t, input.data, input.current)); Left(r, ok) && (ok ==> v == r.val)
      ensures v == old(LeafAfter(t, prior, input.data, input.current))
    {
      v := prior;
      match t
      case BoolL =>
        var header: byte;
        ok, header := NextByte();
        if !ok { return; }
        if header == FALSE_HEADER { return true, Bool(false); }
        if header == TRUE_HEADER { return true, Bool(true); }
        Fail(InvalidHeader);
        ok := false;
      case UIntL(w) =>
        var n: nat;
        ok, n := NextUint();
        if !ok { return; }
        if n > w.UMax() {
          Fail(InvalidInteger);
          return false, prior;
        }
        v := Int(n);
      case IntL(w) =>
        var n: int;
        ok, n := NextInt();
        if !ok { return; }
        if n < w.SMin() || n > w.SMax() {
          Fail(InvalidInteger);
          return false, prior;
        }
        v := Int(n);
      case FloatL => ok, v := ReadFloat(FLOAT_HEADER, 4, prior);
      case DoubleL => ok, v := ReadFloat(DOUBLE_HEADER, 8, prior);
      case StringL => ok, v := ReadString(prior);
      case BytesL(n) =>
        var s: seq<byte>;
        ok, s := ReadBlob(BYTES_BASE, n);
        if ok { v := Blob(Fill(s, n)); }
      case BitsetL(n) => ok, v := ReadFlags(n, prior);
    }

    /** The string is resized before its bytes are looked for. */
    method ReadString(prior: Value) returns (ok: bool, v: Value)
      requires Valid()
      modifies this, input
      ensures var r := old(DecodeLeaf(StringL, input.data, input.current)); Left(r, ok) && (ok ==> v == r.val)
      ensures v == old(LeafAfter(StringL, prior, input.data, input.current))
    {
      v := prior;
      var size: nat;
      var s: seq<byte>;
      ok, size := NextSize(STRING_BASE);
      if !ok { return; }
      if size == 0 { return true, Blob([]); }
      v := Blob(Resized(if prior.Blob? then prior.bytes else [], size));
      ok, s := NextRaw(size);
      if ok { v := Blob(s); }
    }

    method ReadFlags(size: nat, prior: Value) returns (ok: bool, v: Value)
      requires Valid()
      modifies this, input
      ensures var r := old(DecodeLeaf(BitsetL(size), input.data, input.current)); Left(r, ok) && (ok ==> v == r.val)
      ensures v == old(LeafAfter(BitsetL(size), prior, input.data, input.current))
    {
      v := prior;
      var count: nat;
      var s: seq<byte>;
      ok, count := NextSize(BYTES_BASE);
      if !ok { return; }
      if count != Bitset.ByteCount(size) {
        Fail(InvalidSize);
        return false, prior;
      }
      v := LeafDefault(BitsetL(size));                  // reset()
      ok, s := NextRaw(count);
      if !ok { return; }
      var flags := Bitset.UnpackLoop(s, size);
      v := Flags(flags[..]);
    }

    method ReadFloat(header: byte, size: nat, prior: Value) returns (ok: bool, v: Value)
      requires Valid()
      modifies this, input
      ensures var r := old(DecodeFloat(header, size, input.data, input.current)); Left(r, ok) && (ok ==> v == r.val)
      ensures !ok ==> v == prior
    {
      v := prior;
      var h: byte;
      var s: seq<byte>;
      ok, h := NextByte();
      if !ok { return; }
      if h != header {
        Fail(InvalidHeader);
        return false, prior;
      }
      ok, s := NextRaw(size);
      if ok {
        var bits := LoadLittle(s);
        v := Float(bits);
      }
    }

    method ReadBlob(base: byte, limit: nat) returns (ok: bool, s: seq<byte>)
      requires Valid()
      modifies this, input
      ensures var r := old(DecodeBlob(base, limit, input.data, input.current)); Left(r, ok) && (ok ==> s == r.val)
    {
      var size: nat;
      ok, size := NextSize(base);
      if !ok { return false, []; }
      if size > limit {
        Fail(InvalidSize);
        return false, [];
      }
      ok, s := NextRaw(size);
    }

    // ---- Skipping ---------------------------------------------------------------------------------

    /** `skip_value`; `calls` counts how often the recursive read is entered. */
    method SkipValue() returns (ok: bool, ghost calls: nat)
      requires Valid()
      modifies this, input
      ensures var s := old(Skip(input.data, input.current)); Left(s.res, ok) && calls == s.calls
      decreases |input.data| - input.current, 0
    {
      hide ReadUint;
      calls := 1;
      var h: byte;
      ok, h := NextByte();
      if !ok { return; }
      if h / 16 <= 4 { return; }
      if h / 16 == 5 {
        ok := SkipBytes(h % 8 + 1);
      } else if h / 16 <= 7 {
        var n: nat;
        ok, n := SizeTailOf(h);
        if ok { ok := SkipBytes(n); }
      } else if h / 16 <= 10 {
        var n: nat;
        ghost var k;
        ok, n := SizeTailOf(h);
        if !ok { return; }
        if h / 16 == 8 {
          ok, k := SkipRepeated(n, 1);
        } else if h / 16 == 9 {
          ok, k := SkipRepeated(n, 2);
        } else {
          ok, k := SkipFields(n);
        }
        calls := 1 + k;
      } else if h == FALSE_HEADER || h == TRUE_HEADER || h == NULL_HEADER {
        return;
      } else if h == FLOAT_HEADER {
        ok := SkipBytes(4);
      } else if h == DOUBLE_HEADER {
        ok := SkipBytes(8);
      } else {
        Fail(InvalidHeader);
        ok := false;
      }
    }

    /** Discards through a scratch buffer of 64 bytes. */
    method SkipBytes(size: nat) returns (ok: bool)
      requires Valid()
      modifies this, input
      ensures var r := old(SkipRaw(size, input.data, input.current)); Left(r, ok)
    {
      var rest: nat := size;
      while rest != 0
        invariant Valid() && error == old(error) && rest <= size
        invariant input.current == old(input.current) + (size - rest)
        invariant rest != 0 ==> (size - rest) % 64 == 0
      {
        var chunk := if rest > 64 then 64 else rest;
        ghost var at := input.current;
        var done, scratch := NextRaw(chunk);
        if !done {
          assert at - old(input.current) <= |input.data| - old(input.current) < at - old(input.current) + chunk;
          return false;
        }
        rest := rest - chunk;
      }
      ok := true;
    }

    method SizeTailOf(h: byte) returns (ok: bool, size: nat)
      requires Valid()
      modifies this, input
      ensures var r := old(SizeTail(h, input.data, input.current)); Left(r, ok) && (ok ==> size == r.val)
    {
      if h % 16 < EXTENDED {
        return true, h % 16;
      }
      ok, size := NextUint();
    }

    /** How many values `count` items of `perItem` values each hold. */
    ghost function Total(perItem: nat, count: nat): nat { if perItem == 1 then count else 2 * count }

    method SkipRepeated(count: nat, perItem: nat) returns (ok: bool, ghost calls: nat)
      requires Valid() && (perItem == 1 || perItem == 2)
      modifies this, input
      ensures var s := old(SkipMany(Total(perItem, count), input.data, input.current));
              Left(s.res, ok) && calls == s.calls
      decreases |input.data| - input.current, 1
    {
      hide Skip;
      calls := 0;
      ghost var rest := Total(perItem, count);
      ghost var s := SkipMany(rest, input.data, input.current);
      var i := 0;
      while i < count
        invariant Valid() && error == old(error) && i <= count && input.current >= old(input.current)
        invariant rest == Total(perItem, count - i)
        invariant var r := SkipMany(rest, input.data, input.current); s.res == r.res && s.calls == calls + r.calls
      {
        var j := 0;
        while j < perItem
          invariant Valid() && error == old(error) && j <= perItem && input.current >= old(input.current)
          invariant rest + j == Total(perItem, count - i)
          invariant var r := SkipMany(rest, input.data, input.current); s.res == r.res && s.calls == calls + r.calls
        {
          ghost var k;
          ok, k := SkipValue();
          calls := calls + k;
          if !ok { return; }
          rest := rest - 1;
          j := j + 1;
        }
        i := i + 1;
      }
      ok := true;
    }

    method SkipFields(count: nat) returns (ok: bool, ghost calls: nat)
      requires Valid()
      modifies this, input
      ensures var s := old(SkipRecords(count, input.data, input.current)); Left(s.res, ok) && calls == s.calls
      decreases |input.data| - input.current, 1
    {
      hide Skip, ReadUint;
      calls := 0;
      ghost var s := SkipRecords(count, input.data, input.current);
      var i := 0;
      while i < count
        invariant Valid() && error == old(error) && i <= count && input.current >= old(input.current)
        invariant var r := SkipRecords(count - i, input.data, input.current);
                  s.res == r.res && s.calls == calls + r.calls
      {
        var id: nat;
        ghost var k;
        ok, id := NextUint();
        if !ok { return; }
        ok, k := SkipValue();
        calls := calls + k;
        if !ok { return; }
        i := i + 1;
      }
      ok := true;
    }

    // ---- Typed reads ------------------------------------------------------------------------------

    /** The target `v` holds what the read left in it, whether it succeeded or not. */
    method ReadValue(t: Type, prior: Value) returns (ok: bool, v: Value)
      requires Valid()
      modifies this, input
      ensures var r := old(Decode(t, prior, input.data, input.current)); Left(r, ok) && (ok ==> v == r.val)
      ensures v == old(After(t, prior, input.data, input.current))
      decreases t, 2
    {
      hide DecodeLeaf, DecodeOptional, DecodeVariant, DecodeMap, DecodeObject, DecodeSequence, LeafAfter, MapAfter,
        ObjectAfter, SequenceAfter;
      v := prior;
      if t.LeafT? {
        ok, v := ReadLeaf(t.leaf, prior);
      } else if t.OptionalT? {
        ok, v := ReadOptional(t, prior);
      } else if t.VariantT? {
        ok, v := ReadVariant(t, prior);
      } else if t.MapT? {
        ok, v := ReadMap(t, prior);
      } else if t.ObjectT? {
        ok, v := ReadObject(t, prior);
      } else {
        ok, v := ReadSequence(t, prior);
      }
    }

    method ReadOptional(t: Type, prior: Value) returns (ok: bool, v: Value)
      requires Valid() && t.OptionalT?
      modifies this, input
      ensures var r := old(DecodeOptional(t, input.data, input.current)); Left(r, ok) && (ok ==> v == r.val)
      ensures !ok ==> v == prior
      decreases t, 0
    {
      hide Decode, After, Default;
      v := prior;
      var view := input.Peek(1);
      if |view| != 1 {
        Fail(Truncated);
        return false, prior;
      }
      if view[0] == NULL_HEADER {
        input.Consume(1);
        return true, Nothing;
      }
      var item: Value;
      ok, item := ReadValue(t.elem, Default(t.elem));
      if ok { v := Just(item); }
    }

    method ReadVariant(t: Type, prior: Value) returns (ok: bool, v: Value)
      requires Valid() && t.VariantT?
      modifies this, input
      ensures var r := old(DecodeVariant(t, input.data, input.current)); Left(r, ok) && (ok ==> v == r.val)
      ensures !ok ==> v == prior
      decreases t, 0
    {
      hide Decode, After, Default, ReadSize, ReadUint;
      v := prior;
      var count: nat;
      var index: nat;
      ok, count := NextSize(ARRAY_BASE);
      if !ok { return; }
      if count != 2 {
        Fail(InvalidSize);
        return false, prior;
      }
      ok, index := NextUint();
      if !ok { return; }
      if index >= |t.alts| {
        Fail(VariantIndexOutOfRange);
        return false, prior;
      }
      var item: Value;
      ok, item := ReadValue(t.alts[index], Default(t.alts[index]));
      if ok { v := Alt(index, item); }
    }

    method ReadSequence(t: Type, prior: Value) returns (ok: bool, v: Value)
      requires Valid() && IsSequence(t)
      modifies this, input
      ensures var r := old(DecodeSequence(t, prior, input.data, input.current)); Left(r, ok) && (ok ==> v == r.val)
      ensures v == old(SequenceAfter(t, prior, input.data, input.current))
      decreases t, 1
    {
      hide DecodeElems, ElemsAfter, ReadSize;
      v := prior;
      var count: nat;
      ok, count := NextSize(ARRAY_BASE);
      if !ok { return; }
      if !LengthOk(t, count) {
        Fail(InvalidSize);
        return false, prior;
      }
      ok, v := ReadItems(t, prior, count);
    }

    /** The element loop: a vector grows by every element read, other sequences are read in place. */
    method ReadItems(t: Type, prior: Value, count: nat) returns (ok: bool, v: Value)
      requires Valid() && IsSequence(t) && LengthOk(t, count)
      modifies this, input
      ensures var r := old(DecodeElems(t, prior, count, [], input.data, input.current));
              Left(r, ok) && (ok ==> v == r.val)
      ensures v == old(ElemsAfter(t, prior, count, [], input.data, input.current))
      decreases t, 0
    {
      hide Decode, After, Default, Opened, Opening, Stopped, DecodeElems, ElemsAfter;
      var items := Opening(t, prior, count);
      ghost var r := DecodeElems(t, prior, count, [], input.data, input.current);
      ghost var after := ElemsAfter(t, prior, count, [], input.data, input.current);
      AllOpen(t, prior, count);
      var i := 0;
      while i < count
        invariant Valid() && error == old(error) && i <= count && i <= |items| && Opened(t, prior, count, i, items)
        invariant r == DecodeElems(t, prior, count, items[..i], input.data, input.current)
        invariant after == ElemsAfter(t, prior, count, items[..i], input.data, input.current)
      {
        var item: Value;
        NextOpen(t, prior, count, i, items);
        ElemStep(t, prior, count, items[..i], input.data, input.current);
        ok, item := ReadValue(ElemType(t, i), if t.VectorT? then Default(t.elem) else items[i]);
        PutOpen(t, prior, count, i, items, item);
        if t.VectorT? {
          if ok { items := items + [item]; }
        } else {
          items := items[i := item];
        }
        if !ok { return false, List(items); }
        i := i + 1;
      }
      NoneOpen(t, prior, count, items);
      ElemsEnd(t, prior, count, items, input.data, input.current);
      return true, List(items);
    }

    method ReadMap(t: Type, prior: Value) returns (ok: bool, v: Value)
      requires Valid() && t.MapT?
      modifies this, input
      ensures var r := old(DecodeMap(t, input.data, input.current)); Left(r, ok) && (ok ==> v == r.val)
      ensures v == old(MapAfter(t, prior, input.data, input.current))
      decreases t, 1
    {
      hide Decode, DecodeEntry, ReadSize;
      v := prior;
      var count: nat;
      ok, count := NextSize(MAP_BASE);
      if !ok { return; }
      var entries: seq<Entry> := [];                    // clear()
      ghost var r := DecodeEntries(t, count, [], input.data, input.current);
      ghost var after := EntriesAfter(t, count, [], input.data, input.current);
      var i := 0;
      while i < count
        invariant Valid() && error == old(error) && i <= count
        invariant r == DecodeEntries(t, count - i, entries, input.data, input.current)
        invariant after == EntriesAfter(t, count - i, entries, input.data, input.current)
      {
        ok, entries := ReadEntry(t, entries);
        if !ok { return false, Dict(entries); }
        i := i + 1;
      }
      return true, Dict(entries);
    }

    method ReadEntry(t: Type, entries: seq<Entry>) returns (ok: bool, more: seq<Entry>)
      requires Valid() && t.MapT?
      modifies this, input
      ensures var r := old(DecodeEntry(t, entries, input.data, input.current));
              Left(r, ok) && more == if ok then r.val else entries
      decreases t, 0
    {
      hide Decode, After, Default, Emplace;
      more := entries;
      var key: Value;
      var mapped: Value;
      ok, key := ReadValue(t.key, Default(t.key));
      if !ok { return; }
      ok, mapped := ReadValue(t.mapped, Default(t.mapped));
      if !ok { return; }
      var inserted := Emplace(entries, Entry(key, mapped));
      if inserted.None? {
        Fail(DuplicateKey);
        return false, entries;
      }
      more := inserted.value;
    }

    method ReadObject(t: Type, prior: Value) returns (ok: bool, v: Value)
      requires Valid() && t.ObjectT?
      modifies this, input
      ensures var r := old(DecodeObject(t, prior, input.data, input.current)); Left(r, ok) && (ok ==> v == r.val)
      ensures v == old(ObjectAfter(t, prior, input.data, input.current))
      decreases t, 1
    {
      hide Decode, DecodeRecord, RecordAfter, ReadSize;
      v := prior;
      var count: nat;
      ok, count := NextSize(OBJECT_BASE);
      if !ok { return; }
      var fields := Slots(t, prior);
      ghost var r := DecodeRecords(t, count, fields, input.data, input.current);
      ghost var after := RecordsAfter(t, count, fields, input.data, input.current);
      var i := 0;
      while i < count
        invariant Valid() && error == old(error) && i <= count && |fields| == |t.fields|
        invariant r == DecodeRecords(t, count - i, fields, input.data, input.current)
        invariant after == RecordsAfter(t, count - i, fields, input.data, input.current)
      {
        ok, fields := ReadRecord(t, fields);
        if !ok { return false, Record(fields); }
        i := i + 1;
      }
      return true, Record(fields);
    }

    method ReadRecord(t: Type, fields: seq<Value>) returns (ok: bool, after: seq<Value>)
      requires Valid() && t.ObjectT? && |fields| == |t.fields|
      modifies this, input
      ensures var r := old(DecodeRecord(t, fields, input.data, input.current)); Left(r, ok) && (ok ==> after == r.val)
      ensures after == old(RecordAfter(t, fields, input.data, input.current))
      decreases t, 0
    {
      hide Decode, After, ReadUint, Skip;
      after := fields;
      var id: nat;
      ok, id := NextUint();
      if !ok { return; }
      if id == 0 {
        Fail(InvalidFieldId);
        return false, fields;
      }
      var found, hits := Definition.DispatchById(t.fields, id);
      if found {
        var k := hits[0];
        var x: Value;
        ok, x := ReadValue(t.fields[k].ty, fields[k]);
        after := fields[k := x];
      } else {
        ghost var calls;
        ok, calls := SkipValue();
      }
    }
  }
}
