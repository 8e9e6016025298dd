/** The table construction of the DEFLATE decoder. */
module TinflBuild {
  import opened Bits
  import opened DeflateCodes
  import opened PrefixTable
  import opened TinflTrie
  import opened TinflTables

  /** The nodes of a trie, with one more, fit in a tree array that has two slots per symbol. */
  lemma RoomForNode(sizes: seq<nat>, t: Trie, p: Path, m: nat, slots: nat)
    requires Accepted(sizes) && TrieOk(sizes, t, m) && p !in t.ids
    requires 10 <= p.depth <= 14 && ValidPath(p) && Inner(sizes, p)
    requires slots >= 2 * |sizes| && slots >= 10
    ensures 2 * |t.nodes| + 2 <= slots
    ensures Complete(sizes) ==> |t.nodes| + 1 < |sizes|
  {
    var nodes := t.nodes + [p];
    forall j | 0 <= j < |nodes| ensures ValidPath(nodes[j]) && Inner(sizes, nodes[j]) && 10 <= nodes[j].depth <= 14 {
      if j < |t.nodes| {
        assert NodeOk(sizes, t, t.nodes[j]);
      }
    }
    if Complete(sizes) {
      CompleteBound(sizes, nodes);
    } else {
      SingleBound(sizes, nodes);
    }
  }

  /** A proper prefix of a code is an inner path. */
  lemma PrefixIsInner(sizes: seq<nat>, s: nat, d: nat)
    requires Used(sizes, s) && d < sizes[s]
    ensures Inner(sizes, PathOf(StreamCode(sizes, s), d))
  {
  }

  /** A lookup cell on the way to a long code is empty or refers to a node. */
  lemma RootCell(sizes: seq<nat>, t: Trie, s: nat, lookup: seq<int>, tree: seq<int>)
    requires Accepted(sizes) && TrieOk(sizes, t, s) && Contents(t, lookup, tree)
    requires Used(sizes, s) && sizes[s] > FAST_BITS
    ensures var z := Low(StreamCode(sizes, s), FAST_BITS);
            var p := PathOf(StreamCode(sizes, s), FAST_BITS);
            && z < LOOKUP_SIZE && p.bits == z && PathOf(z, FAST_BITS) == p
            && lookup[z] == if p in t.ids then Ref(t.ids[p]) else 0
  {
    var a := StreamCode(sizes, s);
    var z := Low(a, FAST_BITS);
    Pow2Values();
    SmallWord(z, FAST_BITS);
    PrefixIsInner(sizes, s, FAST_BITS);
    assert lookup[z] == ExpectLookup(t, z);
    if z in t.shorts {
      assert ShortOk(sizes, t, s, z);
      var u: nat :| u < s && ShortCell(sizes, u, z) && t.shorts[z] == Entry(sizes, u);
      InnerIsNoCode(sizes, PathOf(a, FAST_BITS), u, z);
    }
  }

  /** A tree slot on the way to a long code is empty or refers to the node there; it never holds a leaf, which symbol
      0's leaf would look like an empty slot. */
  lemma InnerCell(sizes: seq<nat>, t: Trie, s: nat, d: nat, lookup: seq<int>, tree: seq<int>)
    requires Accepted(sizes) && TrieOk(sizes, t, s) && Contents(t, lookup, tree)
    requires Used(sizes, s) && 10 <= d && d + 1 < sizes[s]
    requires PathOf(StreamCode(sizes, s), d) in t.ids
    ensures var a := StreamCode(sizes, s);
            var p := PathOf(a, d + 1);
            var i := 2 * t.ids[PathOf(a, d)] + Bit(a, d);
            && i < 2 * |t.nodes|
            && Up(p) == PathOf(a, d) && p == Child(PathOf(a, d), Bit(a, d))
            && p !in t.leaves
            && tree[i] == if p in t.ids then Ref(t.ids[p]) else 0
  {
    var a := StreamCode(sizes, s);
    var p := PathOf(a, d + 1);
    SlotOwner(sizes, t, a, d);
    assert SlotOk(t, tree, t.ids[PathOf(a, d)], Bit(a, d));
    if p in t.leaves {
      assert LeafOk(sizes, t, s, p);
      var u := t.leaves[p];
      PrefixIsInner(sizes, s, d + 1);
      InnerIsNoCode(sizes, p, u, a);
    }
  }

  /** The node that a slot belongs to. */
  lemma SlotOwner(sizes: seq<nat>, t: Trie, a: nat, d: nat)
    requires NodesOk(sizes, t) && PathOf(a, d) in t.ids
    ensures var j := t.ids[PathOf(a, d)];
            j < |t.nodes| && t.nodes[j] == PathOf(a, d) && PathOf(a, d + 1) == Child(t.nodes[j], Bit(a, d))
    ensures Up(PathOf(a, d + 1)) == PathOf(a, d)
  {
    assert NodeOk(sizes, t, PathOf(a, d));
    StepOfPath(a, d);
  }

  /** Making the next node on the way to a long code. */
  lemma GrowInner(sizes: seq<nat>, t: Trie, s: nat, a: nat, d: nat, j: nat, lookup: seq<int>, tree: seq<int>)
    requires Accepted(sizes) && TrieOk(sizes, t, s) && Contents(t, lookup, tree)
    requires |tree| >= 2 * |sizes| && |tree| >= 10
    requires Used(sizes, s) && 10 <= d && d + 1 < sizes[s] && a == StreamCode(sizes, s)
    requires PathOf(a, d) in t.ids && PathOf(a, d + 1) !in t.ids && j == t.ids[PathOf(a, d)]
    ensures TrieOk(sizes, AddNode(t, PathOf(a, d + 1)), s)
    ensures 2 * j + 1 < |tree|
    ensures Contents(AddNode(t, PathOf(a, d + 1)), lookup, tree[2 * j + Bit(a, d) := Ref(|t.nodes|)])
  {
    var p := PathOf(a, d + 1);
    SlotOwner(sizes, t, a, d);
    PrefixIsInner(sizes, s, d + 1);
    RoomForNode(sizes, t, p, s, |tree|);
    AddNodeOk(sizes, t, p, s);
    AddInnerContents(sizes, t, p, j, Bit(a, d), s, lookup, tree);
  }

  /** Entering the leaf at the end of a long code. */
  lemma GrowLeaf(sizes: seq<nat>, t: Trie, s: nat, a: nat, d: nat, j: nat, lookup: seq<int>, tree: seq<int>)
    requires Accepted(sizes) && TrieOk(sizes, t, s) && Contents(t, lookup, tree)
    requires Used(sizes, s) && 10 <= d && d + 1 == sizes[s] && a == StreamCode(sizes, s)
    requires PathOf(a, d) in t.ids && j == t.ids[PathOf(a, d)]
    ensures TrieOk(sizes, AddLeaf(t, PathOf(a, d + 1), s), s + 1)
    ensures 2 * j + 1 < |tree|
    ensures Contents(AddLeaf(t, PathOf(a, d + 1), s), lookup, tree[2 * j + Bit(a, d) := s])
  {
    SlotOwner(sizes, t, a, d);
    BeginsIsWithin(sizes, s, a);
    SmallWord(a, sizes[s]);
    AddLeafOk(sizes, t, s);
    AddLeafContents(sizes, t, PathOf(a, d + 1), j, Bit(a, d), s, s, lookup, tree);
  }

  class Tables {
    const lookup: array<int>
    const tree: array<int>

    constructor (slots: nat)
      ensures lookup.Length == LOOKUP_SIZE && tree.Length == slots && fresh(lookup) && fresh(tree) && lookup != tree
    {
      lookup := new int[LOOKUP_SIZE];
      tree := new int[slots];
    }

    predicate Shape(sizes: seq<nat>)
      reads this
    {
      && lookup != tree && lookup.Length == LOOKUP_SIZE
      && tree.Length >= 2 * |sizes| && tree.Length >= 10
    }

    /** The node for the first ten bits of a long code, made if it does not exist yet. */
    method RootNode(sizes: seq<nat>, s: nat, rev: nat, treeNext: int, ghost t: Trie)
      returns (treeCur: int, treeNext': int, ghost t': Trie)
      requires Accepted(sizes) && Shape(sizes) && Used(sizes, s) && sizes[s] > FAST_BITS && rev == StreamCode(sizes, s)
      requires TrieOk(sizes, t, s) && Contents(t, lookup[..], tree[..]) && treeNext == Ref(|t.nodes|)
      modifies lookup
      ensures TrieOk(sizes, t', s) && Contents(t', lookup[..], tree[..]) && treeNext' == Ref(|t'.nodes|)
      ensures PathOf(rev, 10) in t'.ids && treeCur == Ref(t'.ids[PathOf(rev, 10)])
    {
      RootCell(sizes, t, s, lookup[..], tree[..]);
      treeNext', t' := treeNext, t;
      treeCur := lookup[Low(rev, FAST_BITS)];
      if treeCur == 0 {
        ghost var p := PathOf(rev, FAST_BITS);
        PrefixIsInner(sizes, s, FAST_BITS);
        RoomForNode(sizes, t, p, s, tree.Length);
        AddNodeOk(sizes, t, p, s);
        AddRootContents(sizes, t, p, s, lookup[..], tree[..]);
        lookup[Low(rev, FAST_BITS)] := treeNext;
        treeCur := treeNext;
        treeNext' := treeNext - 2;
        t' := AddNode(t, p);
      }
    }

    /** One step down the path of a long code: from slot index `treeCur`, bit `d` already chosen. */
    method InnerNode(sizes: seq<nat>, s: nat, ghost rev: nat, ghost d: nat, slot: int, treeNext: int, ghost t: Trie)
      returns (treeCur: int, treeNext': int, ghost t': Trie)
      requires Accepted(sizes) && Shape(sizes) && Used(sizes, s) && 10 <= d && d + 1 < sizes[s] && rev == StreamCode(sizes, s)
      requires TrieOk(sizes, t, s) && Contents(t, lookup[..], tree[..]) && treeNext == Ref(|t.nodes|)
      requires PathOf(rev, d) in t.ids && slot == Ref(t.ids[PathOf(rev, d)]) - Bit(rev, d)
      modifies tree
      ensures TrieOk(sizes, t', s) && Contents(t', lookup[..], tree[..]) && treeNext' == Ref(|t'.nodes|)
      ensures PathOf(rev, d + 1) in t'.ids && treeCur == Ref(t'.ids[PathOf(rev, d + 1)])
    {
      InnerCell(sizes, t, s, d, lookup[..], tree[..]);
      treeNext', t' := treeNext, t;
      treeCur := tree[-slot - 1];
      if treeCur == 0 {
        ghost var p := PathOf(rev, d + 1);
        GrowInner(sizes, t, s, rev, d, t.ids[PathOf(rev, d)], lookup[..], tree[..]);
        tree[-slot - 1] := treeNext;
        treeCur := treeNext;
        treeNext' := treeNext - 2;
        t' := AddNode(t, p);
      }
    }

    /** Enters a code of more than ten bits. */
    method InsertLong(sizes: seq<nat>, s: nat, rev: nat, treeNext: int, ghost t: Trie)
      returns (treeNext': int, ghost t': Trie)
      requires Accepted(sizes) && Shape(sizes) && Used(sizes, s) && sizes[s] > FAST_BITS && rev == StreamCode(sizes, s)
      requires TrieOk(sizes, t, s) && Contents(t, lookup[..], tree[..]) && treeNext == Ref(|t.nodes|)
      modifies lookup, tree
      ensures TrieOk(sizes, t', s + 1) && Contents(t', lookup[..], tree[..]) && treeNext' == Ref(|t'.nodes|)
    {
      var treeCur;
      treeCur, treeNext', t' := RootNode(sizes, s, rev, treeNext, t);
      var r := Shr(rev, FAST_BITS - 1);
      ghost var d := FAST_BITS;
      var j := sizes[s];
      while j > FAST_BITS + 1
        invariant j + d == sizes[s] + 10 && 10 <= d < sizes[s] && r == Shr(rev, d - 1)
        invariant TrieOk(sizes, t', s) && Contents(t', lookup[..], tree[..]) && treeNext' == Ref(|t'.nodes|)
        invariant PathOf(rev, d) in t'.ids && treeCur == Ref(t'.ids[PathOf(rev, d)])
      {
        ShrShr(rev, d - 1, 1);
        r := r / 2;
        treeCur, treeNext', t' := InnerNode(sizes, s, rev, d, treeCur - r % 2, treeNext', t');
        d := d + 1;
        j := j - 1;
      }
      ShrShr(rev, d - 1, 1);
      r := r / 2;
      treeCur := treeCur - r % 2;
      GrowLeaf(sizes, t', s, rev, d, t'.ids[PathOf(rev, d)], lookup[..], tree[..]);
      tree[-treeCur - 1] := s;
      t' := AddLeaf(t', PathOf(rev, d + 1), s);
    }

    /** Enters a code of at most ten bits into all its lookup cells. */
    method InsertShort(sizes: seq<nat>, s: nat, rev: nat, ghost t: Trie) returns (ghost t': Trie)
      requires Accepted(sizes) && Shape(sizes) && Used(sizes, s) && sizes[s] <= FAST_BITS && rev == StreamCode(sizes, s)
      requires TrieOk(sizes, t, s) && Contents(t, lookup[..], tree[..])
      modifies lookup
      ensures TrieOk(sizes, t', s + 1) && Contents(t', lookup[..], tree[..]) && t'.nodes == t.nodes
    {
      ghost var before := lookup[..];
      BeginsIsWithin(sizes, s, 0);
      FillCells(lookup, rev, sizes[s], 512 * sizes[s] + s);
      AddShortsOk(sizes, t, s);
      AddShortsContents(sizes, t, s, s, before, lookup[..], tree[..]);
      t' := AddShorts(sizes, t, s);
    }

    /** Enters symbol `s`, whose code is `code`. */
    method InsertSymbol(sizes: seq<nat>, s: nat, code: nat, treeNext: int, ghost t: Trie)
      returns (treeNext': int, ghost t': Trie)
      requires Accepted(sizes) && Shape(sizes) && Used(sizes, s) && code == Code(sizes, s)
      requires TrieOk(sizes, t, s) && Contents(t, lookup[..], tree[..]) && treeNext == Ref(|t.nodes|)
      modifies lookup, tree
      ensures TrieOk(sizes, t', s + 1) && Contents(t', lookup[..], tree[..]) && treeNext' == Ref(|t'.nodes|)
    {
      var rev := ReverseCode(code, sizes[s]);
      if sizes[s] <= FAST_BITS {
        t' := InsertShort(sizes, s, rev, t);
        treeNext' := treeNext;
      } else {
        treeNext', t' := InsertLong(sizes, s, rev, treeNext, t);
      }
    }

    method Clear(sizes: seq<nat>)
      requires Shape(sizes)
      modifies lookup, tree
      ensures TrieOk(sizes, EMPTY, 0) && Contents(EMPTY, lookup[..], tree[..])
    {
      forall i | 0 <= i < lookup.Length {
        lookup[i] := 0;
      }
      forall i | 0 <= i < tree.Length {
        tree[i] := 0;
      }
    }

    /** Enters all symbols in order, taking codes from `next`. */
    method InsertAll(sizes: seq<nat>, next: array<nat>)
      requires Accepted(sizes) && ValidSizes(sizes) && Shape(sizes) && |sizes| <= 512
      requires next.Length == 17 && forall l :: 1 <= l <= MAX_SIZE ==> next[l] == FirstCode(sizes, l)
      modifies lookup, tree, next
      ensures DecodesAll(sizes, lookup[..], tree[..]) && CellsOk(sizes, lookup[..]) && GapsToZero(sizes, lookup[..], tree[..])
    {
      Clear(sizes);
      var treeNext := -1;
      ghost var t := EMPTY;
      for s := 0 to |sizes|
        invariant forall l :: 1 <= l <= MAX_SIZE ==> next[l] == FirstCode(sizes, l) + CountSize(sizes, l, s)
        invariant TrieOk(sizes, t, s) && Contents(t, lookup[..], tree[..]) && treeNext == Ref(|t.nodes|)
      {
        if sizes[s] == 0 {
          SkipOk(sizes, t, s);
        } else {
          treeNext, t := InsertSymbol(sizes, s, next[sizes[s]], treeNext, t);
          next[sizes[s]] := next[sizes[s]] + 1;
        }
      }
      TrieDecodes(sizes, t, lookup[..], tree[..]);
      TrieCells(sizes, t, lookup[..], tree[..], |sizes|);
      GapDecodes(sizes, t, lookup[..], tree[..]);
    }

    /** Builds the tables; refuses exactly the code sizes that are neither a complete code nor
        the code of at most one symbol. */
    method Build(sizes: seq<nat>) returns (ok: bool)
      requires ValidSizes(sizes) && Shape(sizes) && |sizes| <= 512
      modifies lookup, tree
      ensures ok <==> Accepted(sizes)
      ensures ok ==> DecodesAll(sizes, lookup[..], tree[..]) && CellsOk(sizes, lookup[..])
      ensures ok ==> GapsToZero(sizes, lookup[..], tree[..])
    {
      var count := CountCodes(sizes);
      var next, total, used := FirstCodes(sizes, count);
      if 65536 != total && used > 1 {
        return false;
      }
      InsertAll(sizes, next);
      ok := true;
    }
  }

  const EMPTY: Trie := Trie([], map[], map[], map[])

  lemma SkipOk(sizes: seq<nat>, t: Trie, s: nat)
    requires TrieOk(sizes, t, s) && s < |sizes| && sizes[s] == 0
    ensures TrieOk(sizes, t, s + 1)
  {
    forall p | p in t.leaves ensures LeafOk(sizes, t, s + 1, p) {
      assert LeafOk(sizes, t, s, p);
    }
    forall z | z in t.shorts ensures ShortOk(sizes, t, s + 1, z) {
      assert ShortOk(sizes, t, s, z);
    }
    forall u: nat | u < s + 1 && Used(sizes, u) ensures EnteredSymbol(sizes, t, u) {
      assert u < s;
    }
  }

  /** Turns a code around, bit by bit. */
  method ReverseCode(code: nat, size: nat) returns (rev: nat)
    ensures rev == Rev(code, size)
  {
    rev := 0;
    var cur := code;
    for l := 0 to size
      invariant rev == Rev(code, l) && cur == Shr(code, l)
    {
      rev := 2 * rev + cur % 2;
      cur := cur / 2;
      ShrShr(code, l, 1);
    }
  }

  /** Counts the codes of each size. */
  method CountCodes(sizes: seq<nat>) returns (count: array<nat>)
    requires ValidSizes(sizes)
    ensures fresh(count) && count.Length == 16
    ensures forall l :: 0 <= l < 16 ==> count[l] == CountSize(sizes, l, |sizes|)
  {
    count := new nat[16](_ => 0);
    for s := 0 to |sizes|
      invariant forall l :: 0 <= l < 16 ==> count[l] == CountSize(sizes, l, s)
    {
      count[sizes[s]] := count[sizes[s]] + 1;
    }
  }

  /** Finds the first code of each size. */
  method FirstCodes(sizes: seq<nat>, count: array<nat>) returns (next: array<nat>, total: nat, used: nat)
    requires count.Length == 16
    requires forall l :: 0 <= l < 16 ==> count[l] == CountSize(sizes, l, |sizes|)
    ensures fresh(next) && next.Length == 17
    ensures forall l :: 0 <= l <= MAX_SIZE ==> next[l] == FirstCode(sizes, l)
    ensures total == FirstCode(sizes, MAX_SIZE + 1) && used == CountUsed(sizes, MAX_SIZE)
  {
    next := new nat[17](_ => 0);
    total, used := 0, 0;
    for i := 1 to 16
      invariant total == FirstCode(sizes, i) && used == CountUsed(sizes, i - 1)
      invariant forall l :: 0 <= l <= i ==> next[l] == FirstCode(sizes, l)
    {
      used := used + count[i];
      total := 2 * (total + count[i]);
      assert FirstCode(sizes, i + 1) == total;
      next[i + 1] := total;
    }
  }
}
