/** The BitConfig cursor: a byte buffer with an index and a sticky error flag. Reads and
    writes move the index, or set the flag and change nothing else. */
module BitCursor {
  import opened Common

  type Bytes = seq<Byte>

  datatype Cursor = Cursor(data: Bytes, index: nat, err: bool)

  /** The outcome of a read: the cursor after it, and the bytes if there were enough. */
  datatype Read = Read(cursor: Cursor, bytes: Option<Bytes>)

  function ReadBytes(c: Cursor, n: nat): Read {
    if c.err then Read(c, None)
    else if c.index + n <= |c.data| then
      Read(c.(index := c.index + n), Some(c.data[c.index..c.index + n]))
    else Read(c.(err := true), None)
  }

  function Skip(c: Cursor, n: nat): Cursor { ReadBytes(c, n).cursor }

  /** The last `n` bytes before the index. */
  function PeekLast(c: Cursor, n: nat): Read {
    if c.err then Read(c, None)
    else if n <= c.index <= |c.data| then Read(c, Some(c.data[c.index - n..c.index]))
    else Read(c.(err := true), None)
  }

  function WriteBytes(c: Cursor, bs: Bytes): Cursor {
    if c.err then c
    else if c.index + |bs| <= |c.data| then
      c.(data := c.data[..c.index] + bs + c.data[c.index + |bs|..], index := c.index + |bs|)
    else c.(err := true)
  }

  // ------------------------------------------------------- numbers, big-endian

  function U16(v: UInt16): (bs: Bytes)
    ensures |bs| == 2
  {
    var n: int := v;
    [n / 0x100, n % 0x100]
  }

  function U32(v: UInt32): (bs: Bytes)
    ensures |bs| == 4
  {
    var n: int := v;
    var shifted8 := n / 0x100;
    var shifted16 := shifted8 / 0x100;
    [shifted16 / 0x100, shifted16 % 0x100, shifted8 % 0x100, n % 0x100]
  }

  function Value16(bs: Bytes): UInt16
    requires |bs| == 2
  {
    var hi: int, lo: int := bs[0], bs[1];
    hi * 0x100 + lo
  }

  function Value32(bs: Bytes): UInt32
    requires |bs| == 4
  {
    var b0: int, b1: int, b2: int, b3: int := bs[0], bs[1], bs[2], bs[3];
    ((b0 * 0x100 + b1) * 0x100 + b2) * 0x100 + b3
  }

  // Writing a number and reading it back gives the number, and the other way round.
  lemma U16RoundTrip(v: UInt16, bs: Bytes)
    ensures Value16(U16(v)) == v
    ensures |bs| == 2 ==> U16(Value16(bs)) == bs
  {
    if |bs| == 2 {
      DivideBy256(bs[0], bs[1]);
    }
  }

  lemma U32RoundTrip(v: UInt32)
    ensures Value32(U32(v)) == v
  {
    var n: int := v;
    assert n == n / 0x100 * 0x100 + n % 0x100;
    var m := n / 0x100;
    assert m == m / 0x100 * 0x100 + m % 0x100;
    var k := m / 0x100;
    assert k == k / 0x100 * 0x100 + k % 0x100;
  }

  lemma U32RoundTripBytes(bs: Bytes)
    requires |bs| == 4
    ensures U32(Value32(bs)) == bs
  {
    var b0: int, b1: int, b2: int, b3: int := bs[0], bs[1], bs[2], bs[3];
    DivideBy256((b0 * 0x100 + b1) * 0x100 + b2, b3);
    DivideBy256(b0 * 0x100 + b1, b2);
    DivideBy256(b0, b1);
  }

  lemma DivideBy256(q: int, r: int)
    requires 0 <= r < 0x100
    ensures (q * 0x100 + r) / 0x100 == q && (q * 0x100 + r) % 0x100 == r
  {
  }

  /** A failed read of a number gives its all-ones value. */
  function Read8(c: Cursor): (Cursor, Byte) {
    var r := ReadBytes(c, 1);
    (r.cursor, if r.bytes.Some? then r.bytes.value[0] else 0xFF)
  }

  function Read16(c: Cursor): (Cursor, UInt16) {
    var r := ReadBytes(c, 2);
    (r.cursor, if r.bytes.Some? then Value16(r.bytes.value) else 0xFFFF)
  }

  function Read32(c: Cursor): (Cursor, UInt32) {
    var r := ReadBytes(c, 4);
    (r.cursor, if r.bytes.Some? then Value32(r.bytes.value) else 0xFFFF_FFFF)
  }

  // ------------------------------------------------------------ reading ahead

  /** The bytes `x` come next. */
  predicate Next(c: Cursor, x: Bytes) {
    !c.err && c.index + |x| <= |c.data| && c.data[c.index..c.index + |x|] == x
  }

  function Advance(c: Cursor, n: nat): Cursor { c.(index := c.index + n) }

  lemma NextSplit(c: Cursor, x: Bytes, y: Bytes)
    requires Next(c, x + y)
    ensures Next(c, x) && Next(Advance(c, |x|), y)
  {
    var z := c.data[c.index..c.index + |x + y|];
    assert z[..|x|] == x && z[|x|..] == y;
  }

  lemma ReadNext(c: Cursor, x: Bytes)
    requires Next(c, x)
    ensures ReadBytes(c, |x|) == Read(Advance(c, |x|), Some(x))
  {
  }

  lemma Read16Next(c: Cursor, v: UInt16)
    requires Next(c, U16(v))
    ensures Read16(c) == (Advance(c, 2), v)
  {
    U16RoundTrip(v, []);
  }

  lemma Read32Next(c: Cursor, v: UInt32)
    requires Next(c, U32(v))
    ensures Read32(c) == (Advance(c, 4), v)
  {
    U32RoundTrip(v);
  }

  // What a write stored can be read back from where it was written.
  lemma WriteThenNext(c: Cursor, bs: Bytes)
    requires !c.err && c.index + |bs| <= |c.data|
    ensures var w := WriteBytes(c, bs);
      && Next(w.(index := c.index), bs)
      && !w.err && w.index == c.index + |bs| && |w.data| == |c.data|
      && w.data[..w.index] == c.data[..c.index] + bs
  {
  }

  // ------------------------------------------------------- the cursor as an object

  /** Subtraction of unsigned numbers below `modulus`. */
  function UnsignedMinus(a: nat, b: nat, modulus: nat): nat
    requires b < modulus
  {
    if a >= b then a - b else a + modulus - b
  }

  /** The source guards a write of `n` bytes by comparing the index with the size minus `n`. That
      lets exactly those writes pass that fit, and those that are longer than the whole buffer. */
  lemma WriteGuardIff(index: nat, size: nat, n: nat, modulus: nat)
    requires index <= size < modulus && n < modulus
    ensures index <= UnsignedMinus(size, n, modulus) <==> index + n <= size || n > size
  {
  }

  class BitConfig {
    const contents: array<Byte>
    var index: nat
    var hasError: bool

    ghost function State(): Cursor
      reads this, contents
    {
      Cursor(contents[..], index, hasError)
    }

    /** A cursor over a copy of `bytes`. */
    constructor (bytes: Bytes)
      ensures State() == Cursor(bytes, 0, false) && fresh(contents)
    {
      contents := new Byte[|bytes|](i requires 0 <= i < |bytes| => bytes[i]);
      index, hasError := 0, false;
      new;
      assert contents[..] == bytes;
    }

    method ReadUc(n: nat) returns (r: Option<Bytes>)
      modifies this
      ensures Read(State(), r) == ReadBytes(old(State()), n)
    {
      r := None;
      if !hasError {
        if index + n <= contents.Length {
          assert contents[..][index..index + n] == contents[index..index + n];
          r := Some(contents[index..index + n]);
          index := index + n;
        } else {
          hasError := true;
        }
      }
    }

    method PeekLastIndexUc(n: nat) returns (r: Option<Bytes>)
      modifies this
      requires index <= contents.Length
      ensures Read(State(), r) == PeekLast(old(State()), n)
    {
      r := None;
      if !hasError {
        if index >= n {
          assert contents[..][index - n..index] == contents[index - n..index];
          r := Some(contents[index - n..index]);
        } else {
          hasError := true;
        }
      }
    }

    method ReadU8() returns (v: Byte)
      modifies this
      ensures (State(), v) == Read8(old(State()))
    {
      v := 0xFF;
      var r := ReadUc(1);
      if r.Some? {
        v := r.value[0];
      }
    }

    method ReadU16() returns (v: UInt16)
      modifies this
      ensures (State(), v) == Read16(old(State()))
    {
      v := 0xFFFF;
      var r := ReadUc(2);
      if r.Some? {
        v := Value16(r.value);
      }
    }

    method ReadU32() returns (v: UInt32)
      modifies this
      ensures (State(), v) == Read32(old(State()))
    {
      v := 0xFFFF_FFFF;
      var r := ReadUc(4);
      if r.Some? {
        v := Value32(r.value);
      }
    }

    /** The caller must not write more than the whole buffer at once. */
    method WriteUc(bs: Bytes)
      requires |bs| <= contents.Length
      modifies this, contents
      ensures State() == WriteBytes(old(State()), bs)
    {
      if !hasError {
        if index <= contents.Length - |bs| {
          forall i | 0 <= i < |bs| {
            contents[index + i] := bs[i];
          }
          index := index + |bs|;
        } else {
          hasError := true;
        }
      }
    }

    method WriteU8(v: Byte)
      requires 1 <= contents.Length
      modifies this, contents
      ensures State() == WriteBytes(old(State()), [v])
    {
      WriteUc([v]);
    }

    method WriteU16(v: UInt16)
      requires 2 <= contents.Length
      modifies this, contents
      ensures State() == WriteBytes(old(State()), U16(v))
    {
      WriteUc(U16(v));
    }

    method WriteU32(v: UInt32)
      requires 4 <= contents.Length
      modifies this, contents
      ensures State() == WriteBytes(old(State()), U32(v))
    {
      WriteUc(U32(v));
    }
  }
}
