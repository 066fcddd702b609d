// Encrypted fields of the binary adapter: a repeating four-byte mask over one field's byte stream,
// whatever the sizes of the writes and reads that make it up.
module EncryptedFields {
  import opened Bytes
  import Bitset

  // ---- The mask ------------------------------------------------------------------------------------

  /** Bitwise exclusive or, bit by bit from the least significant end. */
  function BitXor(a: nat, b: nat): nat {
    if a == 0 && b == 0 then 0 else (a + b) % 2 + 2 * BitXor(a / 2, b / 2)
  }

  lemma {:induction false} XorBound(a: nat, b: nat, k: nat)
    requires a < Pow2(k) && b < Pow2(k)
    ensures BitXor(a, b) < Pow2(k)
  {
    if k > 0 && (a != 0 || b != 0) { XorBound(a / 2, b / 2, k - 1); }
  }

  lemma XorStep(a: nat, b: nat)
    ensures var x := BitXor(a, b);
            x == (a + b) % 2 + 2 * BitXor(a / 2, b / 2) && x / 2 == BitXor(a / 2, b / 2) && x % 2 == (a + b) % 2
  {}

  lemma {:induction false} XorTwice(a: nat, b: nat)
    ensures BitXor(BitXor(a, b), b) == a
    decreases a + b
  {
    hide BitXor;
    var x := BitXor(a, b);
    XorStep(a, b);
    XorStep(x, b);
    if a == 0 && b == 0 { XorNone(); } else { XorTwice(a / 2, b / 2); }
    Parity(a, b, x);
  }

  lemma XorNone()
    ensures BitXor(0, 0) == 0
  {}

  lemma Parity(a: nat, b: nat, x: nat)
    requires x % 2 == (a + b) % 2
    ensures (x + b) % 2 == a % 2
  {}

  lemma Pow2Byte()
    ensures Pow2(8) == 256
  {
    assert Pow2(4) == 16;
  }

  function Xor(a: byte, b: byte): byte {
    XorBound(a, b, 8); Pow2Byte();
    BitXor(a, b)
  }

  type Key = k: seq<byte> | |k| == 4 witness [0x13, 0x57, 0x9b, 0xdf]

  /** The stream `s`, which starts at position `offset` of a field, masked with the repeated key. */
  function Mask(key: Key, offset: nat, s: seq<byte>): (r: seq<byte>)
    ensures |r| == |s|
  {
    seq(|s|, i requires 0 <= i < |s| => Xor(s[i], key[(offset + i) % 4]))
  }

  /** Masking piecewise, at the position each piece has in the field, is masking the whole. */
  lemma MaskSplit(key: Key, offset: nat, a: seq<byte>, b: seq<byte>)
    ensures Mask(key, offset, a + b) == Mask(key, offset, a) + Mask(key, offset + |a|, b)
  {
    hide Xor;
    forall i: nat | |a| <= i < |a + b|
      ensures Mask(key, offset, a + b)[i] == Mask(key, offset + |a|, b)[i - |a|]
    {
      assert offset + i == offset + |a| + (i - |a|);
    }
  }

  /** Masking twice gives the stream back. */
  lemma MaskTwice(key: Key, offset: nat, s: seq<byte>)
    ensures Mask(key, offset, Mask(key, offset, s)) == s
  {
    forall i: nat | i < |s| ensures Mask(key, offset, Mask(key, offset, s))[i] == s[i] {
      XorTwice(s[i], key[(offset + i) % 4]);
    }
  }

  lemma {:induction false} XorBit(a: nat, b: nat, j: nat)
    ensures Bitset.BitAt(BitXor(a, b), j) <==> Bitset.BitAt(a, j) != Bitset.BitAt(b, j)
    decreases j
  {
    hide BitXor;
    XorStep(a, b);
    if j > 0 { XorBit(a / 2, b / 2, j - 1); }
  }

  /** `r` is `s` with the bits flipped that are set in the repeated key, of which the first byte of `s`
      meets byte `offset % 4`. */
  ghost predicate Masked(key: Key, offset: nat, s: seq<byte>, r: seq<byte>) {
    |r| == |s| &&
    forall i: nat, j: nat :: i < |s| && j < 8 ==>
      (Bitset.BitAt(r[i], j) <==> Bitset.BitAt(s[i], j) != Bitset.BitAt(key[(offset + i) % 4], j))
  }

  lemma MaskMasks(key: Key, offset: nat, s: seq<byte>)
    ensures Masked(key, offset, s, Mask(key, offset, s))
  {
    hide BitXor, Bitset.BitAt;
    forall i: nat, j: nat | i < |s| && j < 8
      ensures Bitset.BitAt(Mask(key, offset, s)[i], j) <==>
              Bitset.BitAt(s[i], j) != Bitset.BitAt(key[(offset + i) % 4], j)
    {
      XorBit(s[i], key[(offset + i) % 4], j);
    }
  }

  // ---- What is written -------------------------------------------------------------------------------

  /** What codecs do to a writer: raw writes, fields of objects, and runs of either. */
  datatype Node =
    | Chunk(bytes: seq<byte>)
    | Field(encrypt: bool, value: Node)
    | Group(parts: seq<Node>)

  /** The bytes with no field masked. */
  function Plain(n: Node): seq<byte> {
    match n
    case Chunk(b) => b
    case Field(_, v) => Plain(v)
    case Group(ps) => PlainAll(ps)
  }

  function PlainAll(ps: seq<Node>): seq<byte> {
    if ps == [] then [] else Plain(ps[0]) + PlainAll(ps[1..])
  }

  /** The bytes with every outermost encrypted field masked, as one stream from position 0. */
  function Wire(key: Key, n: Node): (w: seq<byte>)
    ensures |w| == |Plain(n)|
  {
    match n
    case Chunk(b) => b
    case Field(e, v) => if e then Mask(key, 0, Plain(v)) else Wire(key, v)
    case Group(ps) => WireAll(key, ps)
  }

  function WireAll(key: Key, ps: seq<Node>): (w: seq<byte>)
    ensures |w| == |PlainAll(ps)|
  {
    if ps == [] then [] else Wire(key, ps[0]) + WireAll(key, ps[1..])
  }

  /** For every byte written, its position in the outermost encrypted field it belongs to, or -1. */
  function Places(n: Node): (r: seq<int>)
    ensures |r| == |Plain(n)|
  {
    match n
    case Chunk(b) => seq(|b|, _ => -1)
    case Field(e, v) => if e then seq(|Plain(v)|, i => i) else Places(v)
    case Group(ps) => PlacesAll(ps)
  }

  function PlacesAll(ps: seq<Node>): (r: seq<int>)
    ensures |r| == |PlainAll(ps)|
  {
    if ps == [] then [] else Places(ps[0]) + PlacesAll(ps[1..])
  }

  /** Bit for bit: a byte in an encrypted field is its plain byte with the bits flipped that are set in
      the key byte of its place in the field; any other byte is in the clear. */
  lemma {:induction false} WireBits(key: Key, n: Node, i: nat, j: nat)
    requires i < |Plain(n)| && j < 8
    ensures var k := Places(n)[i];
            Bitset.BitAt(Wire(key, n)[i], j) <==>
            Bitset.BitAt(Plain(n)[i], j) != (k >= 0 && Bitset.BitAt(key[k % 4], j))
    decreases n
  {
    hide Mask, Masked, Bitset.BitAt;
    match n
    case Chunk(_) =>
    case Field(e, v) =>
      if e { MaskedBit(key, Plain(v), i, j); } else { WireBits(key, v, i, j); }
    case Group(ps) => WiresBits(key, ps, i, j);
  }

  lemma MaskedBit(key: Key, s: seq<byte>, i: nat, j: nat)
    requires i < |s| && j < 8
    ensures Bitset.BitAt(Mask(key, 0, s)[i], j) <==> Bitset.BitAt(s[i], j) != Bitset.BitAt(key[i % 4], j)
  {
    hide Mask, Bitset.BitAt;
    MaskMasks(key, 0, s);
    assert (0 + i) % 4 == i % 4;
  }

  lemma {:induction false} WiresBits(key: Key, ps: seq<Node>, i: nat, j: nat)
    requires i < |PlainAll(ps)| && j < 8
    ensures var k := PlacesAll(ps)[i];
            Bitset.BitAt(WireAll(key, ps)[i], j) <==>
            Bitset.BitAt(PlainAll(ps)[i], j) != (k >= 0 && Bitset.BitAt(key[k % 4], j))
    decreases ps
  {
    hide Wire, Plain, Places, Bitset.BitAt;
    var m := |Plain(ps[0])|;
    if i < m { WireBits(key, ps[0], i, j); } else { WiresBits(key, ps[1..], i - m, j); }
  }

  // ---- Writing --------------------------------------------------------------------------------------

  class CheckedOutput {
    const data: array<byte>
    var current: nat

    ghost predicate Valid()
      reads this
    {
      current <= data.Length
    }

    ghost function Contents(): seq<byte>
      requires Valid()
      reads this, data
    {
      data[..current]
    }

    constructor (data: array<byte>)
      ensures Valid() && this.data == data && Contents() == []
    {
      this.data := data;
      current := 0;
    }

    /** All of the bytes or none of them. */
    method Write(s: seq<byte>) returns (n: nat)
      requires Valid()
      modifies this, data
      ensures Valid()
      ensures n == if |old(Contents())| + |s| <= data.Length then |s| else 0
      ensures Contents() == if n == |s| then old(Contents()) + s else old(Contents())
    {
      if s == [] || |s| > data.Length - current {
        return 0;
      }
      forall i | 0 <= i < |s| {
        data[current + i] := s[i];
      }
      current := current + |s|;
      n := |s|;
    }
  }

  class EncryptingOutput {
    const out: CheckedOutput
    const key: Key
    var offset: nat
    var scratch: array<byte>

    ghost predicate Valid()
      reads this, out
    {
      out.Valid()
    }

    constructor (out: CheckedOutput, key: Key)
      requires out.Valid()
      ensures Valid() && this.out == out && this.key == key && offset == 0 && fresh(scratch)
    {
      this.out := out;
      this.key := key;
      offset := 0;
      scratch := new byte[0];
    }

    /** The position advances whether or not the masked bytes fit. */
    method Write(s: seq<byte>) returns (n: nat)
      requires Valid()
      modifies this, out, out.data
      ensures Valid() && offset == old(offset) + |s|
      ensures n == if |old(out.Contents())| + |s| <= out.data.Length then |s| else 0
      ensures out.Contents() ==
              if n == |s| then old(out.Contents()) + Mask(key, old(offset), s) else old(out.Contents())
      ensures n == |s| ==>
                |out.Contents()| == |old(out.Contents())| + |s| &&
                Masked(key, old(offset), s, out.Contents()[|old(out.Contents())|..])
    {
      hide Masked;
      MaskMasks(key, offset, s);
      if s == [] {
        assert out.Contents()[|out.Contents()|..] == [] == Mask(key, offset, s);
        return 0;
      }
      scratch := new byte[|s|](_ => 0);
      var i := 0;
      while i < |s|
        invariant i <= |s| && scratch[..i] == Mask(key, offset, s)[..i]
        modifies scratch
      {
        scratch[i] := Xor(s[i], key[(offset + i) % 4]);
        i := i + 1;
      }
      assert scratch[..] == Mask(key, offset, s);
      offset := offset + |s|;
      n := out.Write(scratch[..]);
    }
  }

  lemma Chain(c: seq<byte>, a: seq<byte>, d: seq<byte>, b: seq<byte>)
    requires d <= c + a
    ensures d <= c + (a + b)
  {
    assert c + (a + b) == c + a + b;
  }

  /** A writer either over the output itself or, while an encrypted field is active, over its mask. */
  class Writer {
    const out: CheckedOutput
    const mask: EncryptingOutput?
    const key: Key

    ghost predicate Valid()
      reads this, out, mask
    {
      out.Valid() && (mask != null ==> mask.out == out && mask.key == key && mask.Valid())
    }

    /** What the output receives for plain bytes `s`. */
    ghost function Sent(s: seq<byte>): seq<byte>
      reads this, mask
    {
      if mask == null then s else Mask(key, mask.offset, s)
    }

    constructor (out: CheckedOutput, key: Key, mask: EncryptingOutput?)
      requires out.Valid() && (mask != null ==> mask.out == out && mask.key == key && mask.Valid())
      ensures Valid() && this.out == out && this.key == key && this.mask == mask
    {
      this.out := out;
      this.key := key;
      this.mask := mask;
    }

    /** `w` reached the output, or as many whole writes of it as fit. */
    twostate predicate Wrote(w: seq<byte>, ok: bool)
      requires old(Valid())
      reads this, out, out.data, mask
    {
      Valid() &&
      ok == (old(|out.Contents()|) + |w| <= out.data.Length) &&
      old(out.Contents()) <= out.Contents() <= old(out.Contents()) + w &&
      (ok ==> out.Contents() == old(out.Contents()) + w && (mask != null ==> mask.offset == old(mask.offset) + |w|))
    }

    method Write(s: seq<byte>) returns (ok: bool)
      requires Valid()
      modifies out, out.data, mask
      ensures Wrote(old(Sent(s)), ok)
    {
      if s == [] {
        return true;
      }
      var n: nat;
      if mask == null {
        n := out.Write(s);
      } else {
        n := mask.Write(s);
      }
      ok := n == |s|;
    }

    /** `writer::field` around whatever the codec of the value writes. A writer that is already
        masking writes nested encrypted fields as plain ones. */
    method WriteNode(node: Node) returns (ok: bool)
      requires Valid()
      modifies out, out.data, mask
      ensures Wrote(if mask == null then Wire(key, node) else old(Sent(Plain(node))), ok)
      decreases node, 1
    {
      match node
      case Chunk(s) => ok := Write(s);
      case Group(parts) => ok := WriteAll(parts);
      case Field(encrypt, value) =>
        if encrypt && mask == null {
          var encrypted := new EncryptingOutput(out, key);
          var inner := new Writer(out, key, encrypted);
          ok := inner.WriteNode(value);
        } else {
          ok := WriteNode(value);
        }
    }

    method WriteAll(parts: seq<Node>) returns (ok: bool)
      requires Valid()
      modifies out, out.data, mask
      ensures Wrote(if mask == null then WireAll(key, parts) else old(Sent(PlainAll(parts))), ok)
      decreases parts, 0
    {
      hide Mask, Plain, Wire;
      if parts == [] {
        return true;
      }
      if mask != null { MaskSplit(key, mask.offset, Plain(parts[0]), PlainAll(parts[1..])); }
      ghost var before := out.Contents();
      ghost var first := if mask == null then Wire(key, parts[0]) else Sent(Plain(parts[0]));
      ghost var rest := if mask == null then WireAll(key, parts[1..])
                        else Mask(key, mask.offset + |Plain(parts[0])|, PlainAll(parts[1..]));
      ok := WriteNode(parts[0]);
      if !ok {
        Chain(before, first, out.Contents(), rest);
        return;
      }
      ok := WriteAll(parts[1..]);
      assert before + first + rest == before + (first + rest);
    }
  }

  // ---- What is read ----------------------------------------------------------------------------------

  /** What codecs ask of a reader: raw reads of some size, fields of objects, and runs of either. */
  datatype Plan =
    | Take(size: nat)
    | Fielded(encrypt: bool, plan: Plan)
    | Series(plans: seq<Plan>)

  function Size(p: Plan): nat {
    match p
    case Take(n) => n
    case Fielded(_, q) => Size(q)
    case Series(qs) => SizeAll(qs)
  }

  function SizeAll(ps: seq<Plan>): nat {
    if ps == [] then 0 else Size(ps[0]) + SizeAll(ps[1..])
  }

  /** The bytes handed to the codecs, in order. */
  function Unwire(key: Key, p: Plan, s: seq<byte>): (r: seq<byte>)
    requires Size(p) <= |s|
    ensures |r| == Size(p)
  {
    match p
    case Take(n) => s[..n]
    case Fielded(e, q) => if e then Mask(key, 0, s[..Size(q)]) else Unwire(key, q, s)
    case Series(qs) => UnwireAll(key, qs, s)
  }

  function UnwireAll(key: Key, ps: seq<Plan>, s: seq<byte>): (r: seq<byte>)
    requires SizeAll(ps) <= |s|
    ensures |r| == SizeAll(ps)
  {
    if ps == [] then [] else Unwire(key, ps[0], s) + UnwireAll(key, ps[1..], s[Size(ps[0])..])
  }

  predicate Unmasked(n: Node) {
    match n
    case Chunk(_) => true
    case Field(e, v) => !e && Unmasked(v)
    case Group(ps) => forall i :: 0 <= i < |ps| ==> Unmasked(ps[i])
  }

  predicate UnmaskedPlan(p: Plan) {
    match p
    case Take(_) => true
    case Fielded(e, q) => !e && UnmaskedPlan(q)
    case Series(qs) => forall i :: 0 <= i < |qs| ==> UnmaskedPlan(qs[i])
  }

  /** A plan reads back a node when encrypted fields line up and sizes agree between them; how the
      bytes in between, or inside an encrypted field, are split into reads and writes is free. */
  predicate ReadsBack(n: Node, p: Plan) {
    if n.Field? && p.Fielded? && n.encrypt && p.encrypt then |Plain(n.value)| == Size(p.plan)
    else if Unmasked(n) && UnmaskedPlan(p) then |Plain(n)| == Size(p)
    else if n.Field? && p.Fielded? then !n.encrypt && !p.encrypt && ReadsBack(n.value, p.plan)
    else
      n.Group? && p.Series? && |n.parts| == |p.plans| &&
      forall i :: 0 <= i < |n.parts| ==> ReadsBack(n.parts[i], p.plans[i])
  }

  lemma {:induction false} UnmaskedWire(key: Key, n: Node)
    requires Unmasked(n)
    ensures Wire(key, n) == Plain(n)
  {
    match n
    case Chunk(_) =>
    case Field(_, v) => UnmaskedWire(key, v);
    case Group(ps) => UnmaskedWires(key, ps);
  }

  lemma {:induction false} UnmaskedWires(key: Key, ps: seq<Node>)
    requires forall i :: 0 <= i < |ps| ==> Unmasked(ps[i])
    ensures WireAll(key, ps) == PlainAll(ps)
  {
    if ps != [] {
      UnmaskedWire(key, ps[0]);
      UnmaskedWires(key, ps[1..]);
    }
  }

  lemma {:induction false} UnmaskedUnwire(key: Key, p: Plan, s: seq<byte>)
    requires UnmaskedPlan(p) && Size(p) <= |s|
    ensures Unwire(key, p, s) == s[..Size(p)]
  {
    match p
    case Take(_) =>
    case Fielded(_, q) => UnmaskedUnwire(key, q, s);
    case Series(qs) => UnmaskedUnwires(key, qs, s);
  }

  lemma {:induction false} UnmaskedUnwires(key: Key, ps: seq<Plan>, s: seq<byte>)
    requires (forall i :: 0 <= i < |ps| ==> UnmaskedPlan(ps[i])) && SizeAll(ps) <= |s|
    ensures UnwireAll(key, ps, s) == s[..SizeAll(ps)]
  {
    if ps != [] {
      var n := Size(ps[0]);
      UnmaskedUnwire(key, ps[0], s);
      UnmaskedUnwires(key, ps[1..], s[n..]);
      assert s[..SizeAll(ps)] == s[..n] + s[n..][..SizeAll(ps[1..])];
    }
  }

  /** Round trip: whatever follows, reading gives the codecs the plain bytes that were written. */
  lemma {:induction false} UnwireWire(key: Key, n: Node, p: Plan, rest: seq<byte>)
    requires ReadsBack(n, p)
    ensures Size(p) == |Plain(n)| && Unwire(key, p, Wire(key, n) + rest) == Plain(n)
    decreases n, 1
  {
    var s := Wire(key, n) + rest;
    if n.Field? && p.Fielded? && n.encrypt && p.encrypt {
      assert s[..Size(p)] == Wire(key, n);
      MaskTwice(key, 0, Plain(n.value));
    } else if Unmasked(n) && UnmaskedPlan(p) {
      UnmaskedWire(key, n);
      UnmaskedUnwire(key, p, s);
    } else if n.Field? {
      UnwireWire(key, n.value, p.plan, rest);
    } else {
      UnwireWires(key, n.parts, p.plans, rest);
    }
  }

  lemma {:induction false} UnwireWires(key: Key, ns: seq<Node>, ps: seq<Plan>, rest: seq<byte>)
    requires |ns| == |ps| && forall i :: 0 <= i < |ns| ==> ReadsBack(ns[i], ps[i])
    ensures SizeAll(ps) == |PlainAll(ns)| && UnwireAll(key, ps, WireAll(key, ns) + rest) == PlainAll(ns)
    decreases ns, 0
  {
    if ns != [] {
      var w, more := Wire(key, ns[0]), WireAll(key, ns[1..]);
      UnwireWire(key, ns[0], ps[0], more + rest);
      UnwireWires(key, ns[1..], ps[1..], rest);
      assert WireAll(key, ns) + rest == w + (more + rest);
      assert (w + (more + rest))[Size(ps[0])..] == more + rest;
    }
  }

  // ---- Reading --------------------------------------------------------------------------------------

  class CheckedInput {
    const data: seq<byte>
    var current: nat

    ghost predicate Valid()
      reads this
    {
      current <= |data|
    }

    ghost function Rest(): seq<byte>
      requires Valid()
      reads this
    {
      data[current..]
    }

    constructor (data: seq<byte>)
      ensures Valid() && this.data == data && current == 0
    {
      this.data := data;
      current := 0;
    }

    /** `size` bytes, or no view at all. */
    method ReadView(size: nat) returns (ok: bool, view: seq<byte>)
      requires Valid()
      modifies this
      ensures Valid() && ok == (size <= |old(Rest())|)
      ensures ok ==> view == old(Rest())[..size] && Rest() == old(Rest())[size..]
      ensures !ok ==> current == old(current)
    {
      if size == 0 {
        return true, [];
      }
      if size > |data| - current {
        return false, [];
      }
      view := data[current..current + size];
      current := current + size;
      ok := true;
    }
  }

  class DecryptingInput {
    const input: CheckedInput
    const key: Key
    var offset: nat

    ghost predicate Valid()
      reads this, input
    {
      input.Valid()
    }

    constructor (input: CheckedInput, key: Key)
      requires input.Valid()
      ensures Valid() && this.input == input && this.key == key && offset == 0
    {
      this.input := input;
      this.key := key;
      offset := 0;
    }

    method ReadView(size: nat) returns (ok: bool, view: seq<byte>)
      requires Valid()
      modifies this, input
      ensures Valid() && ok == (size <= |old(input.Rest())|)
      ensures ok ==>
                view == Mask(key, old(offset), old(input.Rest())[..size]) &&
                input.Rest() == old(input.Rest())[size..] && offset == old(offset) + size
      ensures ok ==> Masked(key, old(offset), old(input.Rest())[..size], view)
      ensures !ok ==> input.current == old(input.current) && offset == old(offset)
    {
      hide Masked;
      view := [];
      var bytes: seq<byte>;
      ok, bytes := input.ReadView(size);
      if !ok { return; }
      var scratch := new byte[size](_ => 0);
      var i := 0;
      while i < size
        invariant i <= size && scratch[..i] == Mask(key, offset, bytes)[..i]
        modifies scratch
      {
        scratch[i] := Xor(bytes[i], key[(offset + i) % 4]);
        i := i + 1;
      }
      MaskMasks(key, offset, bytes);
      offset := offset + size;
      view := scratch[..];
    }
  }

  lemma Slices(s: seq<byte>, n: nat, m: nat)
    requires n + m <= |s|
    ensures s[..n + m] == s[..n] + s[n..][..m] && s[n..][m..] == s[n + m..]
  {}

  class Reader {
    const input: CheckedInput
    const mask: DecryptingInput?
    const key: Key

    ghost predicate Valid()
      reads this, input, mask
    {
      input.Valid() && (mask != null ==> mask.input == input && mask.key == key && mask.Valid())
    }

    constructor (input: CheckedInput, key: Key, mask: DecryptingInput?)
      requires input.Valid() && (mask != null ==> mask.input == input && mask.key == key && mask.Valid())
      ensures Valid() && this.input == input && this.key == key && this.mask == mask
    {
      this.input := input;
      this.key := key;
      this.mask := mask;
    }

    /** Reading succeeds exactly when the input is long enough, and moves past what it read. */
    twostate predicate Moved(size: nat, ok: bool)
      requires old(Valid())
      reads this, input, mask
    {
      Valid() && ok == (size <= |old(input.Rest())|) &&
      (ok ==> input.Rest() == old(input.Rest())[size..] && (mask != null ==> mask.offset == old(mask.offset) + size))
    }

    method Read(size: nat) returns (ok: bool, bytes: seq<byte>)
      requires Valid()
      modifies input, mask
      ensures Moved(size, ok)
      ensures ok ==> bytes == if mask == null then old(input.Rest())[..size]
                              else Mask(key, old(mask.offset), old(input.Rest())[..size])
    {
      if mask == null {
        ok, bytes := input.ReadView(size);
      } else {
        ok, bytes := mask.ReadView(size);
      }
    }

    /** `reader::field` around whatever reads the codec of the value makes. */
    method ReadPlan(p: Plan) returns (ok: bool, bytes: seq<byte>)
      requires Valid()
      modifies input, mask
      ensures Moved(Size(p), ok)
      ensures ok ==> bytes == if mask == null then Unwire(key, p, old(input.Rest()))
                              else Mask(key, old(mask.offset), old(input.Rest())[..Size(p)])
      decreases p, 1
    {
      match p
      case Take(n) => ok, bytes := Read(n);
      case Series(plans) => ok, bytes := ReadAll(plans);
      case Fielded(encrypt, plan) =>
        if encrypt && mask == null {
          var decrypted := new DecryptingInput(input, key);
          var inner := new Reader(input, key, decrypted);
          ok, bytes := inner.ReadPlan(plan);
        } else {
          ok, bytes := ReadPlan(plan);
        }
    }

    method ReadAll(ps: seq<Plan>) returns (ok: bool, bytes: seq<byte>)
      requires Valid()
      modifies input, mask
      ensures Moved(SizeAll(ps), ok)
      ensures ok ==> bytes == if mask == null then UnwireAll(key, ps, old(input.Rest()))
                              else Mask(key, old(mask.offset), old(input.Rest())[..SizeAll(ps)])
      decreases ps, 0
    {
      hide Mask, Unwire, Size;
      if ps == [] {
        return true, [];
      }
      ghost var s, n := input.Rest(), Size(ps[0]);
      ghost var m := SizeAll(ps[1..]);
      ok, bytes := ReadPlan(ps[0]);
      if !ok { return; }
      var more: seq<byte>;
      ok, more := ReadAll(ps[1..]);
      if !ok { return; }
      Slices(s, n, m);
      if mask != null { MaskSplit(key, old(mask.offset), s[..n], s[n..][..m]); }
      bytes := bytes + more;
    }
  }
}
