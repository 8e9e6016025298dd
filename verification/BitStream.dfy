/** A little-endian bit stream as one number: the bits already buffered are its low bits,
    the bytes still to be read follow. */
module BitStream {
  import opened Bits

  predicate IsBytes(s: seq<nat>) {
    forall i :: 0 <= i < |s| ==> s[i] < 256
  }

  /** The value of a byte string, first byte lowest. */
  function LE(bytes: seq<nat>): nat {
    if |bytes| == 0 then 0 else bytes[0] + Shl(LE(bytes[1..]), 8)
  }

  /** `n` buffered bits of value `buf`, then `bytes`. */
  function Pending(buf: nat, n: nat, bytes: seq<nat>): nat {
    buf + Shl(LE(bytes), n)
  }

  /** A place in the stream: the bits from there on as one number, and how many of them are left. */
  datatype Front = Front(value: nat, left: int)

  function Skip(f: Front, n: nat): Front {
    Front(Shr(f.value, n), f.left - n)
  }

  /** Moving the next byte into the buffer leaves the stream as it was. */
  lemma Refill(buf: nat, n: nat, bytes: seq<nat>)
    requires |bytes| > 0 && buf < Pow2(n) && bytes[0] < 256
    ensures Pending(buf + Shl(bytes[0], n), n + 8, bytes[1..]) == Pending(buf, n, bytes)
    ensures buf + Shl(bytes[0], n) < Pow2(n + 8)
  {
    var rest := LE(bytes[1..]);
    ShlAdd(bytes[0], Shl(rest, 8), n);
    ShlShl(rest, 8, n);
    assert n + 8 == 8 + n;
    BufferBound(buf, n, bytes[0], 8);
  }

  lemma BufferBound(buf: nat, n: nat, x: nat, k: nat)
    requires buf < Pow2(n) && x < Pow2(k)
    ensures buf + Shl(x, n) < Pow2(n + k)
  {
    ShlMono(x, Pow2(k), n);
    ShlOne(k);
    ShlShl(1, k, n);
    ShlOne(k + n);
    assert n + k == k + n;
  }

  /** The buffer holds the low bits of the stream. */
  lemma BufferIsLow(buf: nat, n: nat, bytes: seq<nat>, l: nat)
    requires buf < Pow2(n) && l <= n
    ensures Low(Pending(buf, n, bytes), l) == Low(buf, l)
    ensures Low(Pending(buf, n, bytes), n) == buf
  {
    var s := Pending(buf, n, bytes);
    SplitUnique(LE(bytes), buf, n);
    LowLow(s, l, n);
  }

  /** Shifting the buffer drops bits from the front of the stream. */
  lemma Drop(buf: nat, n: nat, bytes: seq<nat>, l: nat)
    requires buf < Pow2(n) && l <= n
    ensures Pending(Shr(buf, l), n - l, bytes) == Shr(Pending(buf, n, bytes), l)
    ensures Shr(buf, l) < Pow2(n - l)
  {
    var q, r, y := Shr(buf, l), Low(buf, l), Shl(LE(bytes), n - l);
    Split(buf, l);
    ShlShl(LE(bytes), n - l, l);
    ShlAdd(q, y, l);
    SplitUnique(q + y, r, l);
    ShrBound(buf, l, n - l);
  }

  lemma {:induction false} ShrBound(x: nat, a: nat, b: nat)
    requires x < Pow2(a + b)
    ensures Shr(x, a) < Pow2(b)
  {
    if a > 0 {
      ShrBound(x / 2, a - 1, b);
    }
  }
}
