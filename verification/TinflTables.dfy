/** Building and reading the Huffman tables of the DEFLATE decoder. */
module TinflTables {
  import opened Bits
  import opened DeflateCodes
  import opened TinflTrie

  /** The contents of the tables: inner nodes with their numbers, long codes' leaves, and the
      lookup cells of short codes. */
  datatype Trie = Trie(nodes: seq<Path>, ids: map<Path, nat>, leaves: map<Path, nat>, shorts: map<nat, int>)

  /** How node `j` is written in the tables: its two slots are `2j` and `2j + 1`. */
  function Ref(j: nat): int {
    -(2 * j + 1)
  }

  function ExpectSlot(t: Trie, p: Path): int {
    if p in t.ids then Ref(t.ids[p]) else if p in t.leaves then t.leaves[p] else 0
  }

  function ExpectLookup(t: Trie, z: nat): int {
    if PathOf(z, FAST_BITS) in t.ids then Ref(t.ids[PathOf(z, FAST_BITS)])
    else if z in t.shorts then t.shorts[z] else 0
  }

  predicate SlotOk(t: Trie, tree: seq<int>, j: nat, b: nat)
    requires j < |t.nodes| && b < 2 && 2 * |t.nodes| <= |tree|
  {
    tree[2 * j + b] == ExpectSlot(t, Child(t.nodes[j], b))
  }

  /** The arrays hold exactly what the trie says; all other slots are still zero. */
  ghost predicate Contents(t: Trie, lookup: seq<int>, tree: seq<int>) {
    && |lookup| == LOOKUP_SIZE && 2 * |t.nodes| <= |tree|
    && (forall z: nat {:trigger ExpectLookup(t, z)} :: z < LOOKUP_SIZE ==> lookup[z] == ExpectLookup(t, z))
    && (forall j: nat, b: nat {:trigger SlotOk(t, tree, j, b)} :: j < |t.nodes| && b < 2 ==> SlotOk(t, tree, j, b))
    && (forall i :: 2 * |t.nodes| <= i < |tree| ==> tree[i] == 0)
  }

  /** An inner node continues to some code, and its parent is an inner node. */
  ghost predicate NodeOk(sizes: seq<nat>, t: Trie, p: Path)
    requires p in t.ids
  {
    && t.ids[p] < |t.nodes| && t.nodes[t.ids[p]] == p
    && 10 <= p.depth <= 14 && ValidPath(p) && Inner(sizes, p)
    && (p.depth > 10 ==> Up(p) in t.ids)
  }

  ghost predicate NodesOk(sizes: seq<nat>, t: Trie) {
    && (forall j: nat :: j < |t.nodes| ==> t.nodes[j] in t.ids && t.ids[t.nodes[j]] == j)
    && (forall p {:trigger NodeOk(sizes, t, p)} :: p in t.ids ==> NodeOk(sizes, t, p))
  }

  /** A leaf is a code of a symbol before `m`, and its parent is an inner node. */
  ghost predicate LeafOk(sizes: seq<nat>, t: Trie, m: nat, p: Path)
    requires p in t.leaves
  {
    var s := t.leaves[p];
    && p.depth >= 11 && ValidPath(p) && Up(p) in t.ids
    && s < m && Used(sizes, s) && p == Path(sizes[s], StreamCode(sizes, s))
  }

  /** A lookup cell that is no node holds a short code of a symbol before `m`. */
  ghost predicate ShortOk(sizes: seq<nat>, t: Trie, m: nat, z: nat)
    requires z in t.shorts
  {
    exists s: nat :: s < m && ShortCell(sizes, s, z) && t.shorts[z] == Entry(sizes, s)
  }

  ghost predicate LeavesOk(sizes: seq<nat>, t: Trie, m: nat) {
    && (forall p {:trigger LeafOk(sizes, t, m, p)} :: p in t.leaves ==> LeafOk(sizes, t, m, p))
    && (forall z {:trigger ShortOk(sizes, t, m, z)} :: z in t.shorts ==> ShortOk(sizes, t, m, z))
  }

  predicate ShortCell(sizes: seq<nat>, s: nat, z: nat) {
    Begins(sizes, s, z) && sizes[s] <= FAST_BITS
  }

  /** A lookup cell packs a short code's size above its symbol. */
  function Entry(sizes: seq<nat>, s: nat): int
    requires s < |sizes|
  {
    512 * sizes[s] + s
  }

  /** All symbols before `m` have been entered. */
  ghost predicate Entered(sizes: seq<nat>, t: Trie, m: nat) {
    forall s: nat {:trigger EnteredSymbol(sizes, t, s)} :: s < m && Used(sizes, s) ==> EnteredSymbol(sizes, t, s)
  }

  ghost predicate EnteredSymbol(sizes: seq<nat>, t: Trie, s: nat)
    requires Used(sizes, s)
  {
    if sizes[s] > FAST_BITS then
      var p := Path(sizes[s], StreamCode(sizes, s));
      p in t.leaves && t.leaves[p] == s
    else
      forall z: nat :: z < LOOKUP_SIZE && Begins(sizes, s, z) ==> z in t.shorts && t.shorts[z] == Entry(sizes, s)
  }

  ghost predicate TrieOk(sizes: seq<nat>, t: Trie, m: nat) {
    NodesOk(sizes, t) && LeavesOk(sizes, t, m) && Entered(sizes, t, m)
  }

  // ---- Reading the tables ----

  /** The walk through the tree array from reference `t`, at bit `d` of `a`. */
  function Walk(tree: seq<int>, t: int, a: nat, d: nat): (int, nat)
    decreases 16 - d
  {
    if t >= 0 || d >= 16 || -t - 1 + Bit(a, d) >= |tree| then (t, d)
    else Walk(tree, tree[-t - 1 + Bit(a, d)], a, d + 1)
  }

  /** The symbol and the code size that the tables give for the next bits `a`. */
  function Lookup(lookup: seq<int>, tree: seq<int>, a: nat): (int, nat)
    requires |lookup| == LOOKUP_SIZE
  {
    Pow2Values();
    var t := lookup[Low(a, FAST_BITS)];
    if t >= 0 then (t % 512, t / 512) else Walk(tree, t, a, FAST_BITS)
  }

  /** The tables decode every code of `sizes`. */
  ghost predicate DecodesAll(sizes: seq<nat>, lookup: seq<int>, tree: seq<int>) {
    && |lookup| == LOOKUP_SIZE
    && forall s: nat, a: nat :: Begins(sizes, s, a) ==> Lookup(lookup, tree, a) == (s, sizes[s])
  }

  /** A lookup cell that gives a code size holds a short code that begins its bits. */
  ghost predicate CellsOk(sizes: seq<nat>, lookup: seq<int>) {
    forall z: nat {:trigger CellOk(sizes, lookup, z)} :: z < |lookup| ==> CellOk(sizes, lookup, z)
  }

  ghost predicate CellOk(sizes: seq<nat>, lookup: seq<int>, z: nat)
    requires z < |lookup|
  {
    lookup[z] >= 512 ==> exists s: nat :: ShortCell(sizes, s, z) && lookup[z] == Entry(sizes, s)
  }

  lemma TrieCells(sizes: seq<nat>, t: Trie, lookup: seq<int>, tree: seq<int>, m: nat)
    requires TrieOk(sizes, t, m) && Contents(t, lookup, tree)
    ensures CellsOk(sizes, lookup)
  {
    forall z: nat | z < |lookup|
      ensures CellOk(sizes, lookup, z)
    {
      assert lookup[z] == ExpectLookup(t, z);
      if z in t.shorts {
        assert ShortOk(sizes, t, m, z);
      }
    }
  }

  /** Every prefix of an inner path that is long enough is an inner node. */
  lemma {:induction false} Ancestor(sizes: seq<nat>, t: Trie, a: nat, d: nat, e: nat)
    requires NodesOk(sizes, t) && 10 <= e <= d && PathOf(a, d) in t.ids
    ensures PathOf(a, e) in t.ids
  {
    if e < d {
      assert NodeOk(sizes, t, PathOf(a, d));
      StepOfPath(a, d - 1);
      Ancestor(sizes, t, a, d - 1, e);
    }
  }

  /** What the walk finds in the slot that bit `d` of `a` selects. */
  lemma SlotOnPath(sizes: seq<nat>, t: Trie, lookup: seq<int>, tree: seq<int>, m: nat, s: nat, a: nat, d: nat)
    requires Accepted(sizes) && TrieOk(sizes, t, m) && Contents(t, lookup, tree)
    requires s < m && Begins(sizes, s, a) && 10 <= d < sizes[s] && PathOf(a, d) in t.ids
    ensures var i := 2 * t.ids[PathOf(a, d)] + Bit(a, d);
            && i < |tree|
            && if d + 1 == sizes[s] then tree[i] == s
               else PathOf(a, d + 1) in t.ids && tree[i] == Ref(t.ids[PathOf(a, d + 1)])
  {
    var j, b := t.ids[PathOf(a, d)], Bit(a, d);
    StepOfPath(a, d);
    assert NodeOk(sizes, t, PathOf(a, d));
    assert SlotOk(t, tree, j, b);
    if d + 1 == sizes[s] {
      LeafIsNoNode(sizes, t, s, a);
      assert EnteredSymbol(sizes, t, s);
    } else {
      AncestorOfLeaf(sizes, t, m, s, a, d + 1);
    }
  }

  lemma {:induction false} WalkReaches(sizes: seq<nat>, t: Trie, lookup: seq<int>, tree: seq<int>, m: nat, s: nat, a: nat, d: nat)
    requires Accepted(sizes) && TrieOk(sizes, t, m) && Contents(t, lookup, tree)
    requires s < m && Begins(sizes, s, a) && 10 <= d < sizes[s] && PathOf(a, d) in t.ids
    ensures Walk(tree, Ref(t.ids[PathOf(a, d)]), a, d) == (s, sizes[s])
    decreases sizes[s] - d
  {
    SlotOnPath(sizes, t, lookup, tree, m, s, a, d);
    var i := 2 * t.ids[PathOf(a, d)] + Bit(a, d);
    WalkStep(tree, t.ids[PathOf(a, d)], a, d);
    if d + 1 < sizes[s] {
      WalkReaches(sizes, t, lookup, tree, m, s, a, d + 1);
    }
  }

  lemma WalkStep(tree: seq<int>, j: nat, a: nat, d: nat)
    requires d < 16 && 2 * j + Bit(a, d) < |tree|
    ensures Walk(tree, Ref(j), a, d) == Walk(tree, tree[2 * j + Bit(a, d)], a, d + 1)
  {
  }

  lemma LeafIsNoNode(sizes: seq<nat>, t: Trie, s: nat, a: nat)
    requires Accepted(sizes) && NodesOk(sizes, t) && Begins(sizes, s, a)
    ensures PathOf(a, sizes[s]) !in t.ids
  {
    var p := PathOf(a, sizes[s]);
    if p in t.ids {
      assert NodeOk(sizes, t, p);
      InnerIsNoCode(sizes, p, s, a);
    }
  }

  lemma AncestorOfLeaf(sizes: seq<nat>, t: Trie, m: nat, s: nat, a: nat, e: nat)
    requires Accepted(sizes) && TrieOk(sizes, t, m) && s < m && Begins(sizes, s, a) && 10 <= e < sizes[s]
    ensures PathOf(a, e) in t.ids
  {
    assert EnteredSymbol(sizes, t, s);
    StepOfPath(a, sizes[s] - 1);
    assert LeafOk(sizes, t, m, PathOf(a, sizes[s]));
    Ancestor(sizes, t, a, sizes[s] - 1, e);
  }

  /** A finished trie decodes every code. */
  lemma TrieDecodes(sizes: seq<nat>, t: Trie, lookup: seq<int>, tree: seq<int>)
    requires Accepted(sizes) && |sizes| <= 512
    requires TrieOk(sizes, t, |sizes|) && Contents(t, lookup, tree)
    ensures DecodesAll(sizes, lookup, tree)
  {
    forall s: nat, a: nat | Begins(sizes, s, a) ensures Lookup(lookup, tree, a) == (s, sizes[s]) {
      SymbolDecodes(sizes, t, lookup, tree, s, a);
    }
  }

  lemma SymbolDecodes(sizes: seq<nat>, t: Trie, lookup: seq<int>, tree: seq<int>, s: nat, a: nat)
    requires Accepted(sizes) && |sizes| <= 512 && Begins(sizes, s, a)
    requires TrieOk(sizes, t, |sizes|) && Contents(t, lookup, tree)
    ensures Lookup(lookup, tree, a) == (s, sizes[s])
  {
    var z := Low(a, FAST_BITS);
    Pow2Values();
    SmallWord(z, FAST_BITS);
    assert PathOf(z, FAST_BITS) == PathOf(a, FAST_BITS);
    assert EnteredSymbol(sizes, t, s);
    assert lookup[z] == ExpectLookup(t, z);
    if sizes[s] > FAST_BITS {
      AncestorOfLeaf(sizes, t, |sizes|, s, a, FAST_BITS);
      WalkReaches(sizes, t, lookup, tree, |sizes|, s, a, FAST_BITS);
    } else {
      LowLow(a, sizes[s], FAST_BITS);
      if PathOf(a, FAST_BITS) in t.ids {
        assert NodeOk(sizes, t, PathOf(a, FAST_BITS));
        InnerIsNoCode(sizes, PathOf(a, FAST_BITS), s, a);
      }
      assert lookup[z] == Entry(sizes, s);
      EntryParts(sizes[s], s);
    }
  }

  // ---- Bits that no code begins ----

  ghost predicate NoCode(sizes: seq<nat>, a: nat) {
    forall s: nat :: !Begins(sizes, s, a)
  }

  /** Bits that no code begins are not refused: the tables take them for symbol 0, and use none of them up unless they
      leave the only code behind its first ten bits. */
  ghost predicate GapsToZero(sizes: seq<nat>, lookup: seq<int>, tree: seq<int>) {
    && |lookup| == LOOKUP_SIZE
    && forall a: nat {:trigger Lookup(lookup, tree, a)} :: NoCode(sizes, a) ==> ForZero(Lookup(lookup, tree, a))
  }

  predicate ForZero(found: (int, nat)) {
    found.0 == 0 && (found.1 == 0 || FAST_BITS < found.1 <= 15)
  }

  lemma {:induction false} WalkFalls(sizes: seq<nat>, t: Trie, lookup: seq<int>, tree: seq<int>, m: nat, a: nat, d: nat)
    requires TrieOk(sizes, t, m) && Contents(t, lookup, tree) && NoCode(sizes, a)
    requires 10 <= d && PathOf(a, d) in t.ids
    ensures ForZero(Walk(tree, Ref(t.ids[PathOf(a, d)]), a, d))
    decreases 16 - d
  {
    var j, next := t.ids[PathOf(a, d)], PathOf(a, d + 1);
    assert NodeOk(sizes, t, PathOf(a, d));
    StepOfPath(a, d);
    assert SlotOk(t, tree, j, Bit(a, d));
    WalkStep(tree, j, a, d);
    if next in t.ids {
      WalkFalls(sizes, t, lookup, tree, m, a, d + 1);
    } else if next in t.leaves {
      assert LeafOk(sizes, t, m, next);
      assert Begins(sizes, t.leaves[next], a);
    }
  }

  lemma GapDecodes(sizes: seq<nat>, t: Trie, lookup: seq<int>, tree: seq<int>)
    requires TrieOk(sizes, t, |sizes|) && Contents(t, lookup, tree)
    ensures GapsToZero(sizes, lookup, tree)
  {
    forall a: nat | NoCode(sizes, a) ensures ForZero(Lookup(lookup, tree, a)) {
      var z := Low(a, FAST_BITS);
      Pow2Values();
      SmallWord(z, FAST_BITS);
      assert PathOf(z, FAST_BITS) == PathOf(a, FAST_BITS);
      assert lookup[z] == ExpectLookup(t, z);
      if PathOf(a, FAST_BITS) in t.ids {
        WalkFalls(sizes, t, lookup, tree, |sizes|, a, FAST_BITS);
      } else if z in t.shorts {
        assert ShortOk(sizes, t, |sizes|, z);
        var s: nat :| s < |sizes| && ShortCell(sizes, s, z) && t.shorts[z] == Entry(sizes, s);
        LowLow(a, sizes[s], FAST_BITS);
        assert Begins(sizes, s, a);
      }
    }
  }

  lemma EntryParts(size: nat, s: nat)
    requires s < 512
    ensures (512 * size + s) / 512 == size && (512 * size + s) % 512 == s
  {
  }

  // ---- Building the trie ----

  function AddNode(t: Trie, p: Path): Trie {
    Trie(t.nodes + [p], t.ids[p := |t.nodes|], t.leaves, t.shorts)
  }

  function AddLeaf(t: Trie, p: Path, s: nat): Trie {
    Trie(t.nodes, t.ids, t.leaves[p := s], t.shorts)
  }

  lemma EnteredKept(sizes: seq<nat>, t: Trie, t': Trie, m: nat)
    requires Entered(sizes, t, m) && t.leaves == t'.leaves && t.shorts == t'.shorts
    ensures Entered(sizes, t', m)
  {
    forall s: nat | s < m && Used(sizes, s) ensures EnteredSymbol(sizes, t', s) {
      assert EnteredSymbol(sizes, t, s);
    }
  }

  lemma AddNodeOk(sizes: seq<nat>, t: Trie, p: Path, m: nat)
    requires TrieOk(sizes, t, m) && p !in t.ids
    requires 10 <= p.depth <= 14 && ValidPath(p) && Inner(sizes, p) && (p.depth > 10 ==> Up(p) in t.ids)
    ensures TrieOk(sizes, AddNode(t, p), m)
  {
    var t' := AddNode(t, p);
    forall q | q in t'.ids ensures NodeOk(sizes, t', q) {
      if q != p {
        assert NodeOk(sizes, t, q);
      }
    }
    forall q | q in t'.leaves ensures LeafOk(sizes, t', m, q) {
      assert LeafOk(sizes, t, m, q);
    }
    forall z | z in t'.shorts ensures ShortOk(sizes, t', m, z) {
      assert ShortOk(sizes, t, m, z);
    }
    EnteredKept(sizes, t, t', m);
  }

  /** A new node's slots are empty. */
  lemma FreshSlots(sizes: seq<nat>, t: Trie, p: Path, m: nat, b: nat)
    requires NodesOk(sizes, t) && LeavesOk(sizes, t, m) && ValidPath(p) && p !in t.ids && p.depth >= 10 && b < 2
    ensures ExpectSlot(AddNode(t, p), Child(p, b)) == 0
  {
    var c := Child(p, b);
    UpOfChild(p, b);
    if c in t.ids {
      NodeHasParent(sizes, t, c);
    } else if c in t.leaves {
      LeafHasParent(sizes, t, m, c);
    }
  }

  lemma NodeHasParent(sizes: seq<nat>, t: Trie, p: Path)
    requires NodesOk(sizes, t) && p in t.ids && p.depth > 10
    ensures Up(p) in t.ids
  {
    assert NodeOk(sizes, t, p);
  }

  lemma LeafHasParent(sizes: seq<nat>, t: Trie, m: nat, p: Path)
    requires LeavesOk(sizes, t, m) && p in t.leaves && p.depth > 10
    ensures Up(p) in t.ids
  {
    assert LeafOk(sizes, t, m, p);
  }

  /** Writing the slot of node `j` and bit `b` leaves every node's slots as the trie says,
      provided that the trie changes for that child only. */
  lemma SlotUpdate(sizes: seq<nat>, t: Trie, t': Trie, j: nat, b: nat, v: int, i: nat, c: nat, tree: seq<int>)
    requires NodesOk(sizes, t) && i < |t.nodes| && j < |t.nodes| && b < 2 && c < 2 && 2 * |t.nodes| <= |tree|
    requires SlotOk(t, tree, i, c)
    requires |t'.nodes| >= |t.nodes| && t'.nodes[i] == t.nodes[i] && 2 * |t'.nodes| <= |tree|
    requires ExpectSlot(t', Child(t.nodes[j], b)) == v
    requires Child(t.nodes[i], c) != Child(t.nodes[j], b) ==>
               ExpectSlot(t', Child(t.nodes[i], c)) == ExpectSlot(t, Child(t.nodes[i], c))
    ensures SlotOk(t', tree[2 * j + b := v], i, c)
  {
    if Child(t.nodes[i], c) == Child(t.nodes[j], b) {
      assert NodeOk(sizes, t, t.nodes[i]) && NodeOk(sizes, t, t.nodes[j]);
      ChildInjective(t.nodes[i], c, t.nodes[j], b);
    } else {
      SlotIndex(i, c, j, b);
      assert i != j || b != c;
    }
  }

  lemma SlotIndex(i: nat, c: nat, j: nat, b: nat)
    requires b < 2 && c < 2
    ensures 2 * i + c == 2 * j + b <==> i == j && c == b
  {
  }

  /** A node at depth ten is entered in the lookup table. */
  lemma AddRootContents(sizes: seq<nat>, t: Trie, p: Path, m: nat, lookup: seq<int>, tree: seq<int>)
    requires TrieOk(sizes, t, m) && Contents(t, lookup, tree)
    requires p !in t.ids && p.depth == 10 && ValidPath(p) && p.bits < LOOKUP_SIZE
    requires 2 * |t.nodes| + 2 <= |tree|
    ensures Contents(AddNode(t, p), lookup[p.bits := Ref(|t.nodes|)], tree)
  {
    var t' := AddNode(t, p);
    var lookup' := lookup[p.bits := Ref(|t.nodes|)];
    forall z: nat | z < LOOKUP_SIZE ensures lookup'[z] == ExpectLookup(t', z) {
      assert lookup[z] == ExpectLookup(t, z);
      Pow2Values();
      SmallWord(z, FAST_BITS);
    }
    forall j: nat, b: nat | j < |t'.nodes| && b < 2 ensures SlotOk(t', tree, j, b) {
      if j < |t.nodes| {
        assert SlotOk(t, tree, j, b);
        assert NodeOk(sizes, t, t.nodes[j]);
      } else {
        FreshSlots(sizes, t, p, m, b);
      }
    }
  }

  /** A deeper node is entered in its parent's slot. */
  lemma AddInnerContents(sizes: seq<nat>, t: Trie, p: Path, j: nat, b: nat, m: nat, lookup: seq<int>, tree: seq<int>)
    requires TrieOk(sizes, t, m) && Contents(t, lookup, tree)
    requires j < |t.nodes| && b < 2 && p == Child(t.nodes[j], b) && p !in t.ids
    requires 2 * |t.nodes| + 2 <= |tree|
    ensures Contents(AddNode(t, p), lookup, tree[2 * j + b := Ref(|t.nodes|)])
  {
    var t' := AddNode(t, p);
    var tree' := tree[2 * j + b := Ref(|t.nodes|)];
    assert NodeOk(sizes, t, t.nodes[j]);
    UpOfChild(t.nodes[j], b);
    forall z: nat | z < LOOKUP_SIZE ensures lookup[z] == ExpectLookup(t', z) {
      assert lookup[z] == ExpectLookup(t, z);
    }
    forall i: nat, c: nat | i < |t'.nodes| && c < 2 ensures SlotOk(t', tree', i, c) {
      if i < |t.nodes| {
        assert SlotOk(t, tree, i, c);
        SlotUpdate(sizes, t, t', j, b, Ref(|t.nodes|), i, c, tree);
      } else {
        FreshSlots(sizes, t, p, m, c);
      }
    }
  }

  /** Entering the leaf of symbol `s`. */
  lemma AddLeafOk(sizes: seq<nat>, t: Trie, s: nat)
    requires Accepted(sizes) && TrieOk(sizes, t, s) && Used(sizes, s) && sizes[s] > FAST_BITS
    requires Up(Path(sizes[s], StreamCode(sizes, s))) in t.ids
    ensures TrieOk(sizes, AddLeaf(t, Path(sizes[s], StreamCode(sizes, s)), s), s + 1)
    ensures Path(sizes[s], StreamCode(sizes, s)) !in t.ids
  {
    var p := Path(sizes[s], StreamCode(sizes, s));
    var t' := AddLeaf(t, p, s);
    var a := StreamCode(sizes, s);
    BeginsIsWithin(sizes, s, a);
    SmallWord(a, sizes[s]);
    LeafIsNoNode(sizes, t, s, a);
    forall q | q in t'.ids ensures NodeOk(sizes, t', q) {
      assert NodeOk(sizes, t, q);
    }
    forall q | q in t'.leaves ensures LeafOk(sizes, t', s + 1, q) {
      if q != p {
        assert LeafOk(sizes, t, s, q);
      }
    }
    forall z | z in t'.shorts ensures ShortOk(sizes, t', s + 1, z) {
      assert ShortOk(sizes, t, s, z);
    }
    AddLeafEntered(sizes, t, s);
  }

  lemma AddLeafEntered(sizes: seq<nat>, t: Trie, s: nat)
    requires Accepted(sizes) && Entered(sizes, t, s) && Used(sizes, s) && sizes[s] > FAST_BITS
    ensures Entered(sizes, AddLeaf(t, Path(sizes[s], StreamCode(sizes, s)), s), s + 1)
  {
    var a := StreamCode(sizes, s);
    var t' := AddLeaf(t, Path(sizes[s], a), s);
    BeginsIsWithin(sizes, s, a);
    SmallWord(a, sizes[s]);
    forall u: nat | u < s + 1 && Used(sizes, u) ensures EnteredSymbol(sizes, t', u) {
      if u < s {
        assert EnteredSymbol(sizes, t, u);
        if sizes[u] == sizes[s] && StreamCode(sizes, u) == a {
          BeginsUnique(sizes, u, s, a);
        }
      }
    }
  }

  lemma AddLeafContents(sizes: seq<nat>, t: Trie, p: Path, j: nat, b: nat, s: nat, m: nat, lookup: seq<int>, tree: seq<int>)
    requires TrieOk(sizes, t, m) && Contents(t, lookup, tree)
    requires j < |t.nodes| && b < 2 && p == Child(t.nodes[j], b) && p !in t.ids
    ensures Contents(AddLeaf(t, p, s), lookup, tree[2 * j + b := s])
  {
    var t' := AddLeaf(t, p, s);
    var tree' := tree[2 * j + b := s];
    assert NodeOk(sizes, t, t.nodes[j]);
    forall z: nat | z < LOOKUP_SIZE ensures lookup[z] == ExpectLookup(t', z) {
      assert lookup[z] == ExpectLookup(t, z);
    }
    forall i: nat, c: nat | i < |t'.nodes| && c < 2 ensures SlotOk(t', tree', i, c) {
      assert SlotOk(t, tree, i, c);
      SlotUpdate(sizes, t, t', j, b, s, i, c, tree);
    }
  }

  /** The lookup cells of a short code. */
  function AddShorts(sizes: seq<nat>, t: Trie, s: nat): Trie
    requires s < |sizes|
  {
    Trie(t.nodes, t.ids, t.leaves,
         t.shorts + map z: nat | 0 <= z < LOOKUP_SIZE && Begins(sizes, s, z) :: Entry(sizes, s))
  }

  lemma AddShortsOk(sizes: seq<nat>, t: Trie, s: nat)
    requires Accepted(sizes) && TrieOk(sizes, t, s) && Used(sizes, s) && sizes[s] <= FAST_BITS
    ensures TrieOk(sizes, AddShorts(sizes, t, s), s + 1)
  {
    var t' := AddShorts(sizes, t, s);
    forall q | q in t'.ids ensures NodeOk(sizes, t', q) {
      assert NodeOk(sizes, t, q);
    }
    forall q | q in t'.leaves ensures LeafOk(sizes, t', s + 1, q) {
      assert LeafOk(sizes, t, s, q);
    }
    forall z | z in t'.shorts ensures ShortOk(sizes, t', s + 1, z) {
      if Begins(sizes, s, z) && z < LOOKUP_SIZE {
        assert ShortCell(sizes, s, z);
      } else {
        assert ShortOk(sizes, t, s, z);
      }
    }
    forall u: nat | u < s + 1 && Used(sizes, u) ensures EnteredSymbol(sizes, t', u) {
      if u < s {
        assert EnteredSymbol(sizes, t, u);
        forall z: nat | z < LOOKUP_SIZE && Begins(sizes, u, z) && Begins(sizes, s, z) ensures false {
          BeginsUnique(sizes, u, s, z);
        }
      }
    }
  }

  lemma AddShortsContents(sizes: seq<nat>, t: Trie, s: nat, m: nat, lookup: seq<int>, lookup': seq<int>, tree: seq<int>)
    requires Accepted(sizes) && TrieOk(sizes, t, m) && Contents(t, lookup, tree)
    requires Used(sizes, s) && sizes[s] <= FAST_BITS
    requires |lookup'| == LOOKUP_SIZE
    requires forall z :: 0 <= z < LOOKUP_SIZE ==>
               lookup'[z] == if Low(z, sizes[s]) == StreamCode(sizes, s) then Entry(sizes, s) else lookup[z]
    ensures Contents(AddShorts(sizes, t, s), lookup', tree)
  {
    var t' := AddShorts(sizes, t, s);
    forall z: nat | z < LOOKUP_SIZE ensures lookup'[z] == ExpectLookup(t', z) {
      assert lookup[z] == ExpectLookup(t, z);
      var p := PathOf(z, FAST_BITS);
      if p in t.ids && Begins(sizes, s, z) {
        assert NodeOk(sizes, t, p);
        InnerIsNoCode(sizes, p, s, z);
      }
    }
    forall i: nat, c: nat | i < |t'.nodes| && c < 2 ensures SlotOk(t', tree, i, c) {
      assert SlotOk(t, tree, i, c);
    }
  }
}
