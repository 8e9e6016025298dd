/** LZ77 output through a wrapping 32 KB window that is flushed to a callback. */
module TinflWindow {

  const DICT_SIZE: nat := 32768

  datatype Token =
    | Literal(byte: int)
    | Stored(bytes: seq<int>)
    | Match(length: nat, distance: nat)

  // ---- What the tokens mean ----

  /** Output byte `k`; before the start of the output there are zeros. */
  function At(h: seq<int>, k: int): int {
    if 0 <= k < |h| then h[k] else 0
  }

  /** A distance of zero, which only reserved distance symbols give, reaches back a whole window. */
  function Reach(distance: nat): nat {
    if distance == 0 then DICT_SIZE else distance
  }

  function CopyMatch(h: seq<int>, length: nat, distance: nat): seq<int>
    decreases length
  {
    if length == 0 then h else CopyMatch(h + [At(h, |h| - Reach(distance))], length - 1, distance)
  }

  function Apply(h: seq<int>, t: Token): seq<int> {
    match t
    case Literal(b) => h + [b]
    case Stored(bytes) => h + bytes
    case Match(length, distance) => CopyMatch(h, length, distance)
  }

  /** The output of a token sequence over an unbounded history. */
  function Expand(h: seq<int>, tokens: seq<Token>): seq<int>
    decreases |tokens|
  {
    if |tokens| == 0 then h else Expand(Apply(h, tokens[0]), tokens[1..])
  }

  lemma {:induction false} ExpandConcat(h: seq<int>, a: seq<Token>, b: seq<Token>)
    ensures Expand(h, a + b) == Expand(Expand(h, a), b)
    decreases |a|
  {
    if |a| == 0 {
      assert a + b == b;
    } else {
      assert (a + b)[1..] == a[1..] + b;
      ExpandConcat(Apply(h, a[0]), a[1..], b);
    }
  }

  /** Tokens of bytes, none of which reaches further back than a window. */
  predicate SoundToken(t: Token) {
    match t
    case Literal(b) => 0 <= b < 256
    case Stored(bytes) => AllBytes(bytes)
    case Match(_, distance) => distance <= DICT_SIZE
  }

  predicate AllBytes(h: seq<int>) {
    forall i :: 0 <= i < |h| ==> 0 <= h[i] < 256
  }

  lemma {:induction false} CopyOfBytes(h: seq<int>, length: nat, distance: nat)
    requires AllBytes(h)
    ensures AllBytes(CopyMatch(h, length, distance))
    decreases length
  {
    if length > 0 {
      CopyOfBytes(h + [At(h, |h| - Reach(distance))], length - 1, distance);
    }
  }

  lemma TokenOfBytes(h: seq<int>, t: Token)
    requires AllBytes(h) && SoundToken(t)
    ensures AllBytes(Apply(h, t))
  {
    if t.Match? {
      CopyOfBytes(h, t.length, t.distance);
    }
  }

  lemma {:induction false} ExpandOfBytes(h: seq<int>, ts: seq<Token>)
    requires AllBytes(h) && forall i :: 0 <= i < |ts| ==> SoundToken(ts[i])
    ensures AllBytes(Expand(h, ts))
    decreases |ts|
  {
    if |ts| > 0 {
      TokenOfBytes(h, ts[0]);
      ExpandOfBytes(Apply(h, ts[0]), ts[1..]);
    }
  }

  // ---- The window ----

  /** The part of the current token that could not be written yet. */
  datatype Pending =
    | Nothing
    | Copy(counter: nat, distance: nat, from: nat)

  function Resume(h: seq<int>, p: Pending): seq<int> {
    match p
    case Nothing => h
    case Copy(counter, distance, _) => CopyMatch(h, counter, distance)
  }

  lemma SameCell(x: int, y: int)
    requires (x - y) % DICT_SIZE == 0
    ensures x % DICT_SIZE == y % DICT_SIZE
  {
    var q := (x - y) / DICT_SIZE;
    var p, m := y / DICT_SIZE, y % DICT_SIZE;
    assert x == DICT_SIZE * (p + q) + m;
  }

  /** The window's cell for output byte k holds it. */
  predicate Holds(cells: seq<int>, h: seq<int>, k: int)
    requires |cells| == DICT_SIZE
  {
    cells[k % DICT_SIZE] == At(h, k)
  }

  class Inflater {
    const dict: array<int>
    var dictOfs: nat       // where the current call's output starts
    var cur: nat           // where the next byte goes
    var pending: Pending
    var delivered: seq<int>
    ghost var hist: seq<int>

    constructor ()
      ensures Valid() && fresh(dict) && dictOfs == cur == 0 && pending == Nothing
      ensures hist == [] && delivered == []
    {
      dict := new int[DICT_SIZE](_ => 0);
      dictOfs, cur, pending, delivered, hist := 0, 0, Nothing, [], [];
    }

    /** The window holds the last 32768 output bytes, each at its index modulo the size. */
    ghost predicate Window()
      reads this, dict
    {
      && dict.Length == DICT_SIZE
      && dictOfs <= cur <= DICT_SIZE && (cur - |hist|) % DICT_SIZE == 0
      && forall k: int {:trigger Holds(dict[..], hist, k)} :: |hist| - DICT_SIZE <= k < |hist| ==> Holds(dict[..], hist, k)
    }

    ghost predicate Valid()
      reads this, dict
    {
      && Window()
      && (pending.Copy? ==> pending.distance <= DICT_SIZE && (pending.from - |hist|) % DICT_SIZE == 0)
      && cur - dictOfs <= |hist| && delivered == hist[..|hist| - (cur - dictOfs)]
    }

    /** Writes one byte at the cursor. */
    method Put(b: int)
      requires Window() && cur < DICT_SIZE
      requires cur - dictOfs <= |hist| && delivered == hist[..|hist| - (cur - dictOfs)]
      modifies dict, this`cur, this`hist
      ensures Window() && hist == old(hist) + [b] && cur == old(cur) + 1
      ensures cur - dictOfs <= |hist| && delivered == hist[..|hist| - (cur - dictOfs)]
    {
      ghost var n, cells, before := |hist|, dict[..], hist;
      dict[cur] := b;
      cur := cur + 1;
      hist := hist + [b];
      forall k: int | n + 1 - DICT_SIZE <= k < n + 1 ensures Holds(dict[..], hist, k) {
        if k < n {
          assert Holds(cells, before, k);
        }
      }
    }

    /** The byte that a match copies next. */
    lemma Source(from: nat, distance: nat)
      requires Window() && distance <= DICT_SIZE && (from - |hist|) % DICT_SIZE == 0
      ensures dict[(from - distance) % DICT_SIZE] == At(hist, |hist| - Reach(distance))
    {
      SameCell(from - distance, |hist| - Reach(distance));
      assert Holds(dict[..], hist, |hist| - Reach(distance));
    }

    /** Copies the next byte of a match. */
    method CopyByte()
      requires Valid() && pending.Copy? && pending.counter > 0 && cur < DICT_SIZE
      modifies dict, this`cur, this`hist, this`pending
      ensures Valid() && pending.Copy? && pending.counter == old(pending.counter) - 1
      ensures Resume(hist, pending) == old(Resume(hist, pending))
    {
      var counter, distance, from := pending.counter, pending.distance, pending.from;
      Source(from, distance);
      Put(dict[(from - distance) % DICT_SIZE]);
      pending := Copy(counter - 1, distance, from + 1);
      NextPlace(from, |old(hist)|);
    }

    lemma NextPlace(from: int, n: int)
      requires (from - n) % DICT_SIZE == 0
      ensures (from + 1 - (n + 1)) % DICT_SIZE == 0
    {
    }

    /** Copies a match byte by byte; stops when the window is full. */
    method CopyBytes()
      requires Valid() && pending.Copy?
      modifies dict, this`cur, this`hist, this`pending
      ensures Valid() && Resume(hist, pending) == old(Resume(hist, pending))
      ensures pending == Nothing || (pending.Copy? && cur == DICT_SIZE)
    {
      while pending.counter > 0
        invariant Valid() && pending.Copy? && Resume(hist, pending) == old(Resume(hist, pending))
        decreases pending.counter
      {
        if cur >= DICT_SIZE {
          return;
        }
        CopyByte();
      }
      pending := Nothing;
    }

    lemma NextSource(src: nat, cur: nat, distance: nat)
      requires src == (cur - distance) % DICT_SIZE && src + 1 < DICT_SIZE
      ensures src + 1 == (cur + 1 - distance) % DICT_SIZE
    {
    }

    /** Copies one of the `n` remaining bytes from `src`, which does not wrap. */
    method CopyOne(src: nat, ghost n: nat, ghost distance: nat)
      requires Valid() && pending == Nothing && cur < DICT_SIZE && src < DICT_SIZE && n > 0
      requires distance <= DICT_SIZE && src == (cur - distance) % DICT_SIZE
      modifies dict, this`cur, this`hist
      ensures Valid() && cur == old(cur) + 1
      ensures CopyMatch(hist, n - 1, distance) == CopyMatch(old(hist), n, distance)
      ensures src + 1 < DICT_SIZE ==> src + 1 == (cur - distance) % DICT_SIZE
    {
      Source(cur, distance);
      if src + 1 < DICT_SIZE {
        NextSource(src, cur, distance);
      }
      Put(dict[src]);
    }

    /** Copies a match that wraps neither its source nor its destination, three bytes at a time. */
    method CopyTriples(length: nat, distance: nat)
      requires Valid() && pending == Nothing && distance <= DICT_SIZE
      requires cur + length <= DICT_SIZE && (cur - distance) % DICT_SIZE + length <= DICT_SIZE
      modifies dict, this`cur, this`hist
      ensures Valid() && hist == CopyMatch(old(hist), length, distance)
    {
      var counter: nat := length;
      var src := (cur - distance) % DICT_SIZE;
      while counter > 2
        invariant Valid()
        invariant CopyMatch(hist, counter, distance) == CopyMatch(old(hist), length, distance)
        invariant cur + counter <= DICT_SIZE && src + counter <= DICT_SIZE
        invariant counter > 0 ==> src == (cur - distance) % DICT_SIZE
        decreases counter
      {
        CopyOne(src, counter, distance);
        CopyOne(src + 1, counter - 1, distance);
        CopyOne(src + 2, counter - 2, distance);
        src := src + 3;
        counter := counter - 3;
      }
      if counter > 0 {
        CopyOne(src, counter, distance);
        if counter > 1 {
          CopyOne(src + 1, counter - 1, distance);
        }
      }
    }

    /** Starts a match: in one go if nothing wraps, otherwise byte by byte. */
    method StartMatch(length: nat, distance: nat)
      requires Valid() && pending == Nothing && distance <= DICT_SIZE
      modifies dict, this`cur, this`hist, this`pending
      ensures Valid() && Resume(hist, pending) == CopyMatch(old(hist), length, distance)
      ensures pending == Nothing || cur == DICT_SIZE
    {
      var src := (cur - distance) % DICT_SIZE;
      if (if cur > src then cur else src) + length > DICT_SIZE {
        pending := Copy(length, distance, cur);
        CopyBytes();
      } else {
        CopyTriples(length, distance);
      }
    }

    /** Starts a literal or a match; false when there is no room for a literal. */
    method StartToken(t: Token) returns (started: bool)
      requires Valid() && pending == Nothing && !t.Stored? && (t.Match? ==> t.distance <= DICT_SIZE)
      modifies dict, this`cur, this`hist, this`pending
      ensures Valid()
      ensures started ==> Resume(hist, pending) == Apply(old(hist), t) && (pending == Nothing || cur == DICT_SIZE)
      ensures !started ==> hist == old(hist) && pending == Nothing && cur == old(cur) == DICT_SIZE
    {
      started := true;
      match t {
        case Literal(b) =>
          if cur >= DICT_SIZE {
            return false;
          }
          Put(b);
        case Match(length, distance) =>
          StartMatch(length, distance);
      }
    }

    /** What the current call has written lies in the window in order. */
    lemma CallOutput()
      requires Valid()
      ensures dict[dictOfs..cur] == hist[|hist| - (cur - dictOfs)..]
    {
      forall i | dictOfs <= i < cur ensures dict[i] == hist[|hist| - cur + i] {
        var k := |hist| - cur + i;
        assert k % DICT_SIZE == i;
        assert Holds(dict[..], hist, k);
      }
    }

    /** Hands what the current call has written to the callback; the next call goes on behind it, or at the front
        when the window is full. */
    method Flush() returns (chunk: seq<int>)
      requires Valid()
      modifies this`dictOfs, this`cur, this`delivered
      ensures Valid() && delivered == hist == old(delivered) + chunk
      ensures dictOfs == cur < DICT_SIZE
    {
      CallOutput();
      chunk := dict[dictOfs..cur];
      delivered := delivered + chunk;
      dictOfs := cur % DICT_SIZE;
      cur := dictOfs;
    }

  }

  /** Copying only appends. */
  lemma {:induction false} CopyGrows(h: seq<int>, length: nat, distance: nat)
    ensures h <= CopyMatch(h, length, distance) && |CopyMatch(h, length, distance)| == |h| + length
    decreases length
  {
    if length > 0 {
      CopyGrows(h + [At(h, |h| - Reach(distance))], length - 1, distance);
    }
  }

  lemma ResumeGrows(h: seq<int>, p: Pending)
    ensures h <= Resume(h, p)
  {
    if p.Copy? {
      CopyGrows(h, p.counter, p.distance);
    }
  }
}
