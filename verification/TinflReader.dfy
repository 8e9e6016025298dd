/** The bit reader of the DEFLATE decoder: buffered bits, the caller's current input buffer, and
    the bytes that later calls will bring. */
module TinflReader {
  import opened Bits
  import opened BitStream

  datatype Option<T> = None | Some(value: T)

  class Reader {
    var bitBuf: nat
    var numBits: nat
    var input: seq<nat>
    var pos: nat
    var inBufOfs: nat   // how much of the input earlier calls have used up
    ghost var rest: seq<nat>

    constructor (input: seq<nat>, ghost rest: seq<nat>)
      requires IsBytes(input) && IsBytes(rest)
      ensures Valid() && Stream() == LE(input + rest) && numBits == pos == 0
      ensures this.input == input && this.rest == rest && inBufOfs == 0
    {
      this.bitBuf, this.numBits, this.input, this.pos, this.rest, inBufOfs := 0, 0, input, 0, rest, 0;
    }

    /** Bytes still unread, now or later. */
    ghost function Unread(): seq<nat>
      requires pos <= |input|
      reads this
    {
      input[pos..] + rest
    }

    /** The bits that have not been used up yet, as one number. */
    ghost function Stream(): nat
      requires pos <= |input|
      reads this
    {
      Pending(bitBuf, numBits, Unread())
    }

    /** How many bits this call can still offer. */
    function Available(): int
      reads this
    {
      numBits + 8 * (|input| - pos)
    }

    /** Where the reader stands, counting the input of later calls. */
    ghost function Place(): Front
      requires pos <= |input|
      reads this
    {
      Front(Stream(), Available() + 8 * |rest|)
    }

    /** The buffer is a 32-bit word of which `numBits` are used: `Valid` bounds both. */
    lemma BufferIsWord()
      requires Valid()
      ensures bitBuf < 0x1_0000_0000
    {
      Pow2Mono(numBits, 32);
      Pow2Word();
    }

    /** The top `i` buffered bytes are the last `i` bytes read from the buffer. */
    ghost predicate TopBytes()
      requires pos <= |input|
      reads this
    {
      forall i: nat {:trigger TopByte(bitBuf, numBits, i)} ::
        1 <= i <= pos && 8 * i <= numBits ==> TopByte(bitBuf, numBits, i) == input[pos - i]
    }

    ghost predicate Valid()
      reads this
    {
      && IsBytes(input) && IsBytes(rest) && pos <= |input|
      && numBits <= 32 && bitBuf < Pow2(numBits)
      && TopBytes()
    }

    /** Appends one byte to the buffer, which has room for it. */
    method TakeByte()
      requires Valid() && pos < |input| && numBits <= 24
      modifies this`bitBuf, this`numBits, this`pos
      ensures Valid() && Stream() == old(Stream()) && Available() == old(Available())
      ensures numBits == old(numBits) + 8 && pos == old(pos) + 1
    {
      var c := input[pos];
      Refill(bitBuf, numBits, Unread());
      assert Unread()[1..] == input[pos + 1..] + rest;
      forall i: nat | 1 <= i <= pos + 1 && 8 * i <= numBits + 8
        ensures TopByte(bitBuf + Shl(c, numBits), numBits + 8, i) == input[pos + 1 - i]
      {
        TopByteAppend(bitBuf, numBits, c, i);
      }
      bitBuf := bitBuf + Shl(c, numBits);
      numBits := numBits + 8;
      pos := pos + 1;
    }

    /** Uses up `n` buffered bits. */
    method DropBits(n: nat)
      requires Valid() && n <= numBits
      modifies this`bitBuf, this`numBits
      ensures Valid() && Stream() == Shr(old(Stream()), n) && numBits == old(numBits) - n
    {
      Drop(bitBuf, numBits, Unread(), n);
      forall i: nat | 1 <= i <= pos && 8 * i <= numBits - n
        ensures TopByte(Shr(bitBuf, n), numBits - n, i) == input[pos - i]
      {
        ShrShr(bitBuf, n, numBits - n - 8 * i);
        assert TopByte(bitBuf, numBits, i) == input[pos - i];
      }
      bitBuf := Shr(bitBuf, n);
      numBits := numBits - n;
    }

    /** Reads bytes until `n` bits are buffered; false when the input ran out first. The 32 bits of the buffer always
        have room for the next byte. */
    method NeedBits(n: nat) returns (ok: bool)
      requires Valid() && n <= 25
      modifies this`bitBuf, this`numBits, this`pos
      ensures Valid() && Stream() == old(Stream()) && Available() == old(Available())
      ensures ok <==> n <= old(Available())
      ensures ok ==> n <= numBits
      ensures numBits < Max(n + 8, old(numBits) + 1)
      ensures !ok ==> pos == |input|
    {
      while numBits < n
        invariant Valid() && Stream() == old(Stream()) && Available() == old(Available())
        invariant numBits < Max(n + 8, old(numBits) + 1)
        decreases |input| - pos
      {
        if pos >= |input| {
          return false;
        }
        TakeByte();
      }
      ok := true;
    }

    /** The next `n` bits, or nothing when this call's input does not hold them. */
    method GetBits(n: nat) returns (r: Option<nat>)
      requires Valid() && n <= 25
      modifies this`bitBuf, this`numBits, this`pos
      ensures Valid()
      ensures if n <= old(Available()) then
                && r == Some(Low(old(Stream()), n)) && Stream() == Shr(old(Stream()), n)
                && Available() == old(Available()) - n
              else
                && r == None && Stream() == old(Stream()) && Available() == old(Available()) && pos == |input|
    {
      var ok := NeedBits(n);
      if !ok {
        return None;
      }
      BufferIsLow(bitBuf, numBits, Unread(), n);
      r := Some(Low(bitBuf, n));
      DropBits(n);
    }

    /** A byte that does not go through the buffer. */
    method PlainByte() returns (b: nat)
      requires Valid() && numBits == 0 && pos < |input|
      modifies this`pos
      ensures Valid() && b == Low(old(Stream()), 8) && Stream() == Shr(old(Stream()), 8) && Available() == old(Available()) - 8
    {
      b := input[pos];
      Pow2Values();
      SplitUnique(LE(Unread()[1..]), b, 8);
      assert Unread()[1..] == input[pos + 1..] + rest;
      pos := pos + 1;
    }

    /** A byte, straight from the input when no bits are buffered. */
    method GetByte() returns (r: Option<nat>)
      requires Valid()
      modifies this`bitBuf, this`numBits, this`pos
      ensures Valid()
      ensures if 8 <= old(Available()) then
                && r == Some(Low(old(Stream()), 8)) && Stream() == Shr(old(Stream()), 8) && Available() == old(Available()) - 8
              else
                && r == None && Stream() == old(Stream()) && Available() == old(Available()) && pos == |input|
      ensures old(numBits) == 0 ==> numBits == 0
    {
      if numBits != 0 {
        r := GetBits(8);
      } else if pos < |input| {
        var b := PlainByte();
        r := Some(b);
      } else {
        r := None;
      }
    }

    /** Drops the bits before the next byte boundary. */
    method Align()
      requires Valid()
      modifies this`bitBuf, this`numBits
      ensures Valid() && Place() == Skip(old(Place()), old(Place()).left % 8)
    {
      OddBits(numBits, |input| - pos + |rest|);
      DropBits(numBits % 8);
    }

    /** Gives one buffered byte back. */
    method GiveBack()
      requires Valid() && pos > 0 && numBits >= 8
      modifies this`bitBuf, this`numBits, this`pos
      ensures Valid() && Stream() == old(Stream()) && Available() == old(Available())
      ensures pos == old(pos) - 1 && numBits == old(numBits) - 8
    {
      assert TopByte(bitBuf, numBits, 1) == input[pos - 1];
      GiveBackByte(bitBuf, numBits, input[pos - 1], Unread());
      assert [input[pos - 1]] + Unread() == input[pos - 1..] + rest;
      forall i: nat | 1 <= i <= pos - 1 && 8 * i <= numBits - 8
        ensures TopByte(Low(bitBuf, numBits - 8), numBits - 8, i) == input[pos - 1 - i]
      {
        TopByteBelow(bitBuf, numBits, i);
        assert TopByte(bitBuf, numBits, i + 1) == input[pos - (i + 1)];
      }
      pos := pos - 1;
      bitBuf := Low(bitBuf, numBits - 8);
      numBits := numBits - 8;
    }

    /** Gives whole buffered bytes back to the caller's buffer. */
    method PushBack()
      requires Valid()
      modifies this`bitBuf, this`numBits, this`pos
      ensures Valid() && Stream() == old(Stream()) && Available() == old(Available())
      ensures (pos == 0 || numBits < 8) && numBits <= old(numBits)
    {
      while pos > 0 && numBits >= 8
        invariant Valid() && Stream() == old(Stream()) && Available() == old(Available()) && numBits <= old(numBits)
        decreases pos
      {
        GiveBack();
      }
    }

    /** The next call: the caller passes a buffer that continues where this one was left. */
    method NextCall(chunk: seq<nat>, ghost rest': seq<nat>)
      requires Valid() && chunk + rest' == Unread()
      modifies this`input, this`pos, this`rest, this`inBufOfs
      ensures Valid() && Place() == old(Place())
      ensures input == chunk && pos == 0 && rest == rest' && inBufOfs == old(inBufOfs + pos)
    {
      assert IsBytes(Unread());
      assert forall i :: 0 <= i < |chunk| ==> chunk[i] == Unread()[i];
      assert forall i :: 0 <= i < |rest'| ==> rest'[i] == Unread()[|chunk| + i];
      inBufOfs := inBufOfs + pos;
      input, pos, rest := chunk, 0, rest';
      assert input[0..] + rest == chunk + rest';
    }
  }

  lemma Pow2Word()
    ensures Pow2(32) == 0x1_0000_0000
  {
    ShlOne(16);
    ShlShl(1, 16, 16);
    ShlOne(32);
    Pow2Values();
    ShlIsProduct(65536, 16);
  }

  lemma OddBits(n: nat, bytes: nat)
    ensures (n + 8 * bytes) % 8 == n % 8
  {
  }

  function Max(a: int, b: int): int {
    if a < b then b else a
  }

  /** The `i`-th byte from the top of an `n`-bit buffer. */
  function TopByte(buf: nat, n: nat, i: nat): nat {
    if 8 * i <= n then Low(Shr(buf, n - 8 * i), 8) else 0
  }

  lemma TopByteAppend(buf: nat, n: nat, c: nat, i: nat)
    requires buf < Pow2(n) && c < 256 && 1 <= i && 8 * i <= n + 8
    ensures TopByte(buf + Shl(c, n), n + 8, i) == if i == 1 then c else TopByte(buf, n, i - 1)
  {
    Pow2Values();
    var k: nat := n + 8 - 8 * i;
    if i == 1 {
      SplitUnique(c, buf, n);
      SmallWord(c, 8);
    } else {
      ShrOfSum(buf, c, n, k);
      var m: nat := n - k;
      ShlShl(c, m - 8, 8);
      LowIgnoresHigh(Shr(buf, k), Shl(c, m - 8), 8);
      assert Shl(c, m) == Shl(Shl(c, m - 8), 8);
    }
  }

  lemma LowIgnoresHigh(x: nat, y: nat, k: nat)
    ensures Low(x + Shl(y, k), k) == Low(x, k)
  {
    Split(x, k);
    ShlAdd(Shr(x, k), y, k);
    SplitUnique(Shr(x, k) + y, Low(x, k), k);
  }

  lemma ShrOfSum(x: nat, y: nat, n: nat, k: nat)
    requires k <= n
    ensures Shr(x + Shl(y, n), k) == Shr(x, k) + Shl(y, n - k)
  {
    Split(x, k);
    ShlShl(y, n - k, k);
    ShlAdd(Shr(x, k), Shl(y, n - k), k);
    SplitUnique(Shr(x, k) + Shl(y, n - k), Low(x, k), k);
  }

  lemma TopByteBelow(buf: nat, n: nat, i: nat)
    requires 1 <= i && 8 * i <= n - 8
    ensures TopByte(Low(buf, n - 8), n - 8, i) == TopByte(buf, n, i + 1)
  {
    var k: nat := n - 8 - 8 * i;
    forall j | 0 <= j < 8 ensures Bit(Shr(Low(buf, n - 8), k), j) == Bit(Shr(buf, k), j) {
      BitShr(Low(buf, n - 8), j, k);
      BitShr(buf, j, k);
      BitLow(buf, k + j, n - 8);
    }
    LowByBits(Shr(Low(buf, n - 8), k), Shr(buf, k), 8);
  }

  lemma GiveBackByte(buf: nat, n: nat, c: nat, bytes: seq<nat>)
    requires buf < Pow2(n) && n >= 8 && c == TopByte(buf, n, 1)
    ensures Pending(Low(buf, n - 8), n - 8, [c] + bytes) == Pending(buf, n, bytes)
  {
    var k: nat := n - 8;
    ShrBound(buf, k, 8);
    SmallWord(Shr(buf, k), 8);
    Split(buf, k);
    assert ([c] + bytes)[1..] == bytes;
    ShlAdd(c, Shl(LE(bytes), 8), k);
    ShlShl(LE(bytes), 8, k);
  }
}
