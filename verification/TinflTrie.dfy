/** The tree that the DEFLATE decoder packs into a lookup table of ten bits and an array of
    two-slot nodes, as a set of paths. */
module TinflTrie {
  import opened Bits
  import opened DeflateCodes

  const FAST_BITS: nat := 10
  const LOOKUP_SIZE: nat := 1024

  /** A bit string of `depth` bits, first bit lowest. */
  datatype Path = Path(depth: nat, bits: nat)

  predicate ValidPath(p: Path) {
    p.bits < Pow2(p.depth)
  }

  function PathOf(a: nat, d: nat): (p: Path)
    ensures ValidPath(p)
  {
    Path(d, Low(a, d))
  }

  function Child(p: Path, b: nat): Path {
    Path(p.depth + 1, p.bits + Shl(b, p.depth))
  }

  function Up(p: Path): Path
    requires p.depth > 0
  {
    PathOf(p.bits, p.depth - 1)
  }

  lemma {:induction false} LowSnoc(a: nat, d: nat)
    ensures Low(a, d + 1) == Low(a, d) + Shl(Bit(a, d), d)
  {
    if d > 0 {
      LowSnoc(a / 2, d - 1);
    }
  }

  lemma UpOfChild(p: Path, b: nat)
    requires ValidPath(p) && b < 2
    ensures Up(Child(p, b)) == p && ValidPath(Child(p, b))
  {
    SplitUnique(b, p.bits, p.depth);
    ShlZero(p.depth);
    ShlOne(p.depth);
  }

  lemma ChildInjective(p: Path, b: nat, q: Path, c: nat)
    requires ValidPath(p) && ValidPath(q) && b < 2 && c < 2 && Child(p, b) == Child(q, c)
    ensures p == q && b == c
  {
    SplitUnique(b, p.bits, p.depth);
    SplitUnique(c, q.bits, q.depth);
  }

  /** Following bit `d` of `a` from the path of its first `d` bits. */
  lemma StepOfPath(a: nat, d: nat)
    ensures Child(PathOf(a, d), Bit(a, d)) == PathOf(a, d + 1)
    ensures Up(PathOf(a, d + 1)) == PathOf(a, d)
  {
    LowSnoc(a, d);
    LowLow(a, d, d + 1);
  }

  /** Some code continues beyond the path. */
  ghost predicate Inner(sizes: seq<nat>, p: Path) {
    exists s: nat :: Used(sizes, s) && sizes[s] > p.depth && Low(StreamCode(sizes, s), p.depth) == p.bits
  }

  /** Beyond an inner path there is no room for a shorter code. */
  lemma InnerIsNoCode(sizes: seq<nat>, p: Path, s: nat, a: nat)
    requires Accepted(sizes) && Inner(sizes, p) && Low(a, p.depth) == p.bits
    requires Used(sizes, s) && sizes[s] <= p.depth
    ensures !Begins(sizes, s, a)
  {
    var t: nat :| Used(sizes, t) && sizes[t] > p.depth && Low(StreamCode(sizes, t), p.depth) == p.bits;
    var c := StreamCode(sizes, t);
    if Begins(sizes, s, a) {
      LowLow(a, sizes[s], p.depth);
      LowLow(c, sizes[s], p.depth);
      BeginsIsWithin(sizes, t, c);
      SmallWord(c, sizes[t]);
      BeginsUnique(sizes, s, t, c);
    }
  }

  // ---- Counting inner paths ----

  lemma {:induction false} Pigeonhole(xs: seq<nat>, n: nat)
    requires forall i :: 0 <= i < |xs| ==> xs[i] < n
    requires forall i, j :: 0 <= i < j < |xs| ==> xs[i] != xs[j]
    ensures |xs| <= n
  {
    if |xs| == 0 {
      return;
    }
    assert xs[0] < n;
    if m :| 0 <= m < |xs| && xs[m] == n - 1 {
      var ys := xs[..m] + xs[m + 1..];
      forall i | 0 <= i < |ys| ensures ys[i] < n - 1 {
        assert ys[i] == xs[if i < m then i else i + 1];
      }
      Pigeonhole(ys, n - 1);
    } else {
      Pigeonhole(xs, n - 1);
    }
  }

  /** The path followed by a one bit, as a number. */
  function Mark(p: Path): nat {
    p.bits + Pow2(p.depth)
  }

  lemma MarkInjective(p: Path, q: Path)
    requires ValidPath(p) && ValidPath(q) && Mark(p) == Mark(q)
    ensures p == q
  {
    if p.depth < q.depth {
      Pow2Mono(p.depth, q.depth);
    } else if q.depth < p.depth {
      Pow2Mono(q.depth, p.depth);
    }
  }

  /** In a complete code, a path that codes continue, then a one, then zeros, reads a code that
      ends in that one or in those zeros. */
  lemma MarkSymbol(sizes: seq<nat>, p: Path) returns (s: nat)
    requires Complete(sizes) && ValidPath(p) && Inner(sizes, p)
    ensures Used(sizes, s) && StreamCode(sizes, s) == Mark(p)
  {
    var a := Mark(p);
    s := CompleteBegins(sizes, a);
    ShlOne(p.depth);
    SplitUnique(1, p.bits, p.depth);
    if sizes[s] <= p.depth {
      InnerIsNoCode(sizes, p, s, a);
    }
    Pow2Mono(p.depth + 1, sizes[s]);
    SmallWord(a, sizes[s]);
  }

  lemma {:induction false} MarkSymbols(sizes: seq<nat>, nodes: seq<Path>) returns (xs: seq<nat>)
    requires Complete(sizes)
    requires forall j :: 0 <= j < |nodes| ==> ValidPath(nodes[j]) && Inner(sizes, nodes[j])
    ensures |xs| == |nodes|
    ensures forall j :: 0 <= j < |xs| ==> Used(sizes, xs[j]) && StreamCode(sizes, xs[j]) == Mark(nodes[j])
  {
    if |nodes| == 0 {
      xs := [];
    } else {
      var n := |nodes| - 1;
      var front := MarkSymbols(sizes, nodes[..n]);
      var s := MarkSymbol(sizes, nodes[n]);
      xs := front + [s];
    }
  }

  /** A complete code has fewer inner paths than symbols. */
  lemma CompleteBound(sizes: seq<nat>, nodes: seq<Path>)
    requires Complete(sizes)
    requires forall j :: 0 <= j < |nodes| ==> ValidPath(nodes[j]) && Inner(sizes, nodes[j])
    requires forall i, j :: 0 <= i < j < |nodes| ==> nodes[i] != nodes[j]
    ensures |nodes| < |sizes|
  {
    var xs := MarkSymbols(sizes, nodes);
    var z := CompleteBegins(sizes, 0);
    SmallWord(0, sizes[z]);
    var ys := xs + [z];
    forall i, j | 0 <= i < j < |ys| ensures ys[i] != ys[j] {
      if j < |xs| && ys[i] == ys[j] {
        MarkInjective(nodes[i], nodes[j]);
      }
    }
    Pigeonhole(ys, |sizes|);
  }

  lemma {:induction false} CountUsedMono(sizes: seq<nat>, l: nat, m: nat)
    requires l <= m
    ensures CountUsed(sizes, l) <= CountUsed(sizes, m)
  {
    if l < m {
      CountUsedMono(sizes, l, m - 1);
    }
  }

  lemma OnlyOneUsed(sizes: seq<nat>, s: nat, t: nat)
    requires CountUsed(sizes, MAX_SIZE) <= 1 && Used(sizes, s) && Used(sizes, t)
    ensures s == t
  {
    if s < t {
      TwoUsed(sizes, s, t);
    } else if t < s {
      TwoUsed(sizes, t, s);
    }
  }

  lemma TwoUsed(sizes: seq<nat>, s: nat, t: nat)
    requires Used(sizes, s) && Used(sizes, t) && s < t
    ensures CountUsed(sizes, MAX_SIZE) >= 2
  {
    var l, m := sizes[s], sizes[t];
    CountSizeMono(sizes, l, s, t);
    CountSizeMono(sizes, l, t, |sizes|);
    CountSizeMono(sizes, l, s, |sizes|);
    CountSizeMono(sizes, m, t, |sizes|);
    CountUsedMono(sizes, l, MAX_SIZE);
    CountUsedMono(sizes, m, MAX_SIZE);
    if l < m {
      CountUsedMono(sizes, l, m - 1);
    } else if m < l {
      CountUsedMono(sizes, m, l - 1);
    }
  }

  /** A code of one symbol has at most one inner path per depth. */
  lemma SingleBound(sizes: seq<nat>, nodes: seq<Path>)
    requires CountUsed(sizes, MAX_SIZE) <= 1
    requires forall j :: 0 <= j < |nodes| ==> 10 <= nodes[j].depth <= 14 && Inner(sizes, nodes[j])
    requires forall i, j :: 0 <= i < j < |nodes| ==> nodes[i] != nodes[j]
    ensures |nodes| <= 5
  {
    var xs := seq(|nodes|, j requires 0 <= j < |nodes| => (nodes[j].depth - 10) as nat);
    forall i, j | 0 <= i < j < |xs| ensures xs[i] != xs[j] {
      var p, q := nodes[i], nodes[j];
      var s: nat :| Used(sizes, s) && sizes[s] > p.depth && Low(StreamCode(sizes, s), p.depth) == p.bits;
      var t: nat :| Used(sizes, t) && sizes[t] > q.depth && Low(StreamCode(sizes, t), q.depth) == q.bits;
      OnlyOneUsed(sizes, s, t);
    }
    Pigeonhole(xs, 5);
  }
}
