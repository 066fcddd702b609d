// The bounded byte cursors every window-backed adapter reads from and writes to.
module ByteWindow {
  import opened Bytes

  class WindowInput {
    const data: seq<byte>
    var current: nat

    ghost predicate Valid()
      reads this
    {
      current <= |data|
    }

    constructor (data: seq<byte>)
      ensures Valid() && this.data == data && current == 0
    {
      this.data := data;
      current := 0;
    }

    /** At most `max` of the remaining bytes, without moving the cursor. */
    function Peek(max: nat): (view: seq<byte>)
      requires Valid()
      reads this
      ensures |view| == if max < |data| - current then max else |data| - current
      ensures current + |view| <= |data| && view == data[current..current + |view|]
    {
      if max == 0 || current == |data| then []
      else
        var available := |data| - current;
        data[current..current + if max < available then max else available]
    }

    method Consume(size: nat)
      requires Valid() && size <= |data| - current
      modifies this
      ensures Valid() && current == old(current) + size
    {
      current := current + size;
    }
  }

  class WindowOutput {
    const data: array<byte>
    var current: nat

    ghost predicate Valid()
      reads this
    {
      current <= data.Length
    }

    /** The bytes committed so far. */
    ghost function Contents(): seq<byte>
      requires Valid()
      reads this, data
    {
      data[..current]
    }

    ghost function Room(): nat
      requires Valid()
      reads this
    {
      data.Length - current
    }

    constructor (data: array<byte>)
      ensures Valid() && this.data == data && Contents() == []
    {
      this.data := data;
      current := 0;
    }

    /** Size of the window `prepare` offers for a request of `max` bytes. */
    function Prepare(max: nat): (size: nat)
      requires Valid()
      reads this
      ensures size == if max < Room() then max else Room()
    {
      if max == 0 || current == data.Length then 0
      else if max < data.Length - current then max
      else data.Length - current
    }

    /** Keep the first `size` bytes written into a prepared window. */
    method Commit(size: nat)
      requires Valid() && size <= Room()
      modifies this
      ensures Valid() && current == old(current) + size && Contents() == data[..old(current) + size]
    {
      current := current + size;
    }

    /** Copy into a prepared window and commit it: `memcpy(window, s); commit(|s|)`. */
    method Append(s: seq<byte>)
      requires Valid() && |s| <= Room()
      modifies this, data
      ensures Valid() && Contents() == old(Contents()) + s
    {
      forall i | 0 <= i < |s| {
        data[current + i] := s[i];
      }
      current := current + |s|;
    }
  }
}
