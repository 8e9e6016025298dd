/** What the Vorbis decoder prepares of a floor 1 when it reads the setup header: the points in the order of x, and the
    neighbours of each. */
module VorbisFloorSetup {
  import opened VorbisFloor

  datatype Ordering = Ordering(x: nat, id: nat)

  // ---- The C library's sort ----

  predicate Ascending(s: seq<Ordering>) {
    forall i, j :: 0 <= i < j < |s| ==> s[i].x <= s[j].x
  }

  function Insert(o: Ordering, s: seq<Ordering>): (r: seq<Ordering>)
    ensures multiset(r) == multiset(s) + multiset{o}
  {
    if |s| == 0 || o.x <= s[0].x then [o] + s
    else
      assert s == [s[0]] + s[1..];
      [s[0]] + Insert(o, s[1..])
  }

  lemma {:induction false} InsertAscending(o: Ordering, s: seq<Ordering>)
    requires Ascending(s)
    ensures Ascending(Insert(o, s))
  {
    if !(|s| == 0 || o.x <= s[0].x) {
      var t := Insert(o, s[1..]);
      InsertAscending(o, s[1..]);
      forall i | 0 <= i < |t|
        ensures s[0].x <= t[i].x
      {
        assert t[i] in multiset(t);
      }
    }
  }

  function Sort(s: seq<Ordering>): (r: seq<Ordering>)
    ensures multiset(r) == multiset(s)
  {
    if |s| == 0 then [] else
      assert s == [s[0]] + s[1..];
      Insert(s[0], Sort(s[1..]))
  }

  lemma {:induction false} SortAscending(s: seq<Ordering>)
    ensures Ascending(Sort(s))
  {
    if |s| > 0 {
      SortAscending(s[1..]);
      InsertAscending(s[0], Sort(s[1..]));
    }
  }

  /** Stands for the C library's sort: nothing is said of elements that compare equal. */
  method QSort(p: array<Ordering>)
    modifies p
    ensures Ascending(p[..]) && multiset(p[..]) == multiset(old(p[..]))
  {
    var sorted := Sort(p[..]);
    SortAscending(p[..]);
    SameLength(sorted, p[..]);
    forall i | 0 <= i < p.Length {
      p[i] := sorted[i];
    }
    assert p[..] == sorted;
  }

  lemma SameLength(s: seq<Ordering>, t: seq<Ordering>)
    requires multiset(s) == multiset(t)
    ensures |s| == |t|
  {
    assert |multiset(s)| == |s| && |multiset(t)| == |t|;
  }

  // ---- Points and their indices ----

  /** Each point with its index. */
  function Indexed(xs: seq<nat>): (s: seq<Ordering>)
    ensures |s| == |xs|
  {
    seq(|xs|, j requires 0 <= j < |xs| => Ordering(xs[j], j))
  }

  ghost predicate Arranges(s: seq<Ordering>, xs: seq<nat>) {
    Ascending(s) && multiset(s) == multiset(Indexed(xs))
  }

  lemma ElementOf(s: seq<Ordering>, xs: seq<nat>, q: nat)
    requires Arranges(s, xs) && q < |s|
    ensures s[q].id < |xs| && s[q].x == xs[s[q].id]
  {
    assert s[q] in multiset(Indexed(xs));
    var j :| 0 <= j < |xs| && Indexed(xs)[j] == s[q];
  }

  lemma PlaceOf(s: seq<Ordering>, xs: seq<nat>, j: nat) returns (q: nat)
    requires Arranges(s, xs) && j < |xs|
    ensures q < |s| && s[q] == Ordering(xs[j], j)
  {
    assert Indexed(xs)[j] in multiset(s);
    q :| 0 <= q < |s| && s[q] == Indexed(xs)[j];
  }

  lemma Repeated(s: seq<Ordering>, i: nat, j: nat)
    requires i < j < |s| && s[i] == s[j]
    ensures multiset(s)[s[i]] >= 2
  {
    assert s == s[..j] + s[j..];
    assert s[..j][i] in multiset(s[..j]) && s[j..][0] in multiset(s[j..]);
  }

  lemma {:induction false} IndexedOnce(xs: seq<nat>, o: Ordering)
    ensures multiset(Indexed(xs))[o] <= 1
  {
    if |xs| > 0 {
      var n := |xs| - 1;
      IndexedOnce(xs[..n], o);
      assert Indexed(xs) == Indexed(xs[..n]) + [Ordering(xs[n], n)];
      if o == Ordering(xs[n], n) && o in Indexed(xs[..n]) {
        assert false;
      }
    }
  }

  /** Elements at different places have different indices. */
  lemma DifferentIndices(s: seq<Ordering>, xs: seq<nat>, i: nat, j: nat)
    requires Arranges(s, xs) && i < j < |s|
    ensures s[i].id != s[j].id
  {
    ElementOf(s, xs, i);
    ElementOf(s, xs, j);
    if s[i].id == s[j].id {
      Repeated(s, i, j);
      IndexedOnce(xs, s[i]);
    }
  }

  predicate Distinct(xs: seq<nat>) {
    forall i, j :: 0 <= i < j < |xs| ==> xs[i] != xs[j]
  }

  /** The points up to place m are in strictly increasing order. */
  predicate Rising(s: seq<Ordering>, m: nat)
    requires m < |s|
  {
    forall q, r :: 0 <= q < r <= m ==> s[q].x < s[r].x
  }

  lemma RisingDistinct(s: seq<Ordering>, xs: seq<nat>)
    requires Arranges(s, xs) && |s| == |xs| > 0 && Rising(s, |s| - 1)
    ensures Distinct(xs)
  {
    forall i, j | 0 <= i < j < |xs|
      ensures xs[i] != xs[j]
    {
      var q := PlaceOf(s, xs, i);
      var r := PlaceOf(s, xs, j);
      assert q < r || r < q;
    }
  }

  lemma EqualNeighbours(s: seq<Ordering>, xs: seq<nat>, q: nat)
    requires Arranges(s, xs) && q + 1 < |s| && s[q].x == s[q + 1].x
    ensures !Distinct(xs)
  {
    ElementOf(s, xs, q);
    ElementOf(s, xs, q + 1);
    DifferentIndices(s, xs, q, q + 1);
  }

  // ---- The setup ----

  /** The points as the header gives them: the first is 0, the second a power of two above all others. */
  predicate Listed(xs: seq<nat>) {
    && 2 <= |xs| <= 250 && xs[0] == 0 && 0 < xs[1] <= 32768
    && forall j :: 2 <= j < |xs| ==> xs[j] < xs[1]
  }

  /** Two points alike are refused. */
  method AreDistinct(p: array<Ordering>, ghost xs: seq<nat>) returns (ok: bool)
    requires Arranges(p[..], xs) && p.Length == |xs| > 0
    ensures ok == Distinct(xs) && (ok ==> Rising(p[..], |xs| - 1))
  {
    var j := 0;
    while j < p.Length - 1
      invariant 0 <= j <= p.Length - 1 && Rising(p[..], j)
    {
      if p[j].x == p[j + 1].x {
        EqualNeighbours(p[..], xs, j);
        return false;
      }
      assert p[..][j].x <= p[..][j + 1].x;
      j := j + 1;
    }
    RisingDistinct(p[..], xs);
    ok := true;
  }

  lemma EndsOfOrder(s: seq<Ordering>, xs: seq<nat>)
    requires Listed(xs) && Arranges(s, xs) && |s| == |xs| && Rising(s, |s| - 1)
    ensures s[0].id == 0 && s[|s| - 1].id == 1
  {
    var q := PlaceOf(s, xs, 0);
    var r := PlaceOf(s, xs, 1);
    ElementOf(s, xs, |s| - 1);
    assert s[q].x == 0 && s[r].x == xs[1];
  }

  method SortPoints(xs: seq<nat>) returns (ok: bool, order: seq<nat>)
    requires Listed(xs)
    ensures ok == Distinct(xs)
    ensures ok ==> |order| == |xs| && order[0] == 0 && order[|xs| - 1] == 1
    ensures ok ==> forall q :: 0 <= q < |xs| ==> order[q] < |xs|
    ensures ok ==> forall q, r :: 0 <= q < r < |xs| ==> xs[order[q]] < xs[order[r]]
  {
    var p := new Ordering[|xs|](j requires 0 <= j < |xs| => Ordering(xs[j], j));
    assert p[..] == Indexed(xs);
    QSort(p);
    order := [];
    ok := AreDistinct(p, xs);
    if !ok {
      return;
    }
    forall q | 0 <= q < |xs| ensures p[..][q].id < |xs| && p[..][q].x == xs[p[..][q].id] {
      ElementOf(p[..], xs, q);
    }
    EndsOfOrder(p[..], xs);
    var j := 0;
    while j < |xs|
      invariant 0 <= j <= |xs| && |order| == j && forall q :: 0 <= q < j ==> order[q] == p[..][q].id
    {
      order := order + [p[j].id % 256];
      j := j + 1;
    }
  }

  method FindNeighbors(xs: seq<nat>) returns (neighbors: seq<(nat, nat)>)
    requires Listed(xs) && Distinct(xs)
    ensures |neighbors| == |xs| && forall j {:trigger neighbors[j]} :: 2 <= j < |xs| ==> Encloses(xs, j, neighbors[j].0, neighbors[j].1)
  {
    neighbors := [(0, 0), (0, 0)];
    var j := 2;
    while j < |xs|
      invariant 2 <= j <= |xs| && |neighbors| == j
      invariant forall k {:trigger neighbors[k]} :: 2 <= k < j ==> Encloses(xs, k, neighbors[k].0, neighbors[k].1)
    {
      assert xs[0] != xs[j];
      var low, high := Neighbors(xs, j);
      neighbors := neighbors + [(low, high)];
      j := j + 1;
    }
  }

  /** A floor is refused if two of its points are alike, and otherwise made ready for decoding. */
  method Prepare(multiplier: nat, xs: seq<nat>) returns (ok: bool, g: Floor1)
    requires 1 <= multiplier <= 4 && Listed(xs)
    ensures ok == Distinct(xs)
    ensures ok ==> g.Valid() && g.xs == xs && g.multiplier == multiplier
  {
    var order, neighbors;
    ok, order := SortPoints(xs);
    neighbors := [];
    if ok {
      neighbors := FindNeighbors(xs);
      assert forall j :: 2 <= j < |xs| ==> xs[0] != xs[j];
    }
    g := Floor1(multiplier, xs, order, neighbors);
  }
}
