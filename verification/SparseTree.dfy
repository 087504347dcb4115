/** The sparse node table of zkauthn/tree.go against the dense binary tree it stands for.
  *
  * `Dense` is the reference: the hash of a subtree over all leaves. `WritePath` is the loop of writeLeaf:
  * it touches one root path and reads siblings through `NodeAt`, which fills gaps from the zero table.
  */
module SparseTree {
  import opened Hashing

  /** (level, idx), the primary key of the node table. */
  type Position = (nat, nat)

  /** The depth every deployment is compiled with. */
  const MERKLE_DEPTH: nat := 32

  function Pow2(n: nat): (p: nat)
    ensures p >= 1
  {
    if n == 0 then 1 else 2 * Pow2(n - 1)
  }

  /** The root of an empty subtree of the given height. */
  function Zero<F(!new)>(c: Suite<F>, level: nat): F {
    if level == 0 then c.EmptyLeaf() else c.Parent(Zero(c, level - 1), Zero(c, level - 1))
  }

  /** The hash of the subtree at (level, idx) of the dense tree whose only commitments are `live`. */
  function Dense<F(!new)>(c: Suite<F>, live: map<nat, F>, level: nat, idx: nat): F {
    if level == 0 then
      if idx in live then c.LeafNode(live[idx]) else c.EmptyLeaf()
    else
      c.Parent(Dense(c, live, level - 1, 2 * idx), Dense(c, live, level - 1, 2 * idx + 1))
  }

  /** The ancestor of a leaf at a level: the index shifted right. */
  function Ancestor(index: nat, level: nat): nat {
    if level == 0 then index else Ancestor(index, level - 1) / 2
  }

  /** position ^ 1 */
  function Sibling(position: nat): nat {
    if position % 2 == 0 then position + 1 else position - 1
  }

  /** One compression step, the operands ordered by the low bit of the position. */
  function Combine<F(!new)>(c: Suite<F>, position: nat, current: F, sibling: F): F {
    if position % 2 == 0 then c.Parent(current, sibling) else c.Parent(sibling, current)
  }

  function NodeAt<F(!new)>(c: Suite<F>, nodes: map<Position, F>, level: nat, idx: nat): F {
    if (level, idx) in nodes then nodes[(level, idx)] else Zero(c, level)
  }

  /** Upsert a node, or delete its row when the value is the zero of its level. */
  function SetNode<F(==, !new)>(
    c: Suite<F>, nodes: map<Position, F>, level: nat, idx: nat, value: F): map<Position, F>
  {
    if value == Zero(c, level) then nodes - {(level, idx)} else nodes[(level, idx) := value]
  }

  /** The writeLeaf loop from `level` upwards, with the value and position it has reached. */
  function WritePath<F(==, !new)>(c: Suite<F>, d: nat, nodes: map<Position, F>, level: nat, position: nat, current: F)
    : (map<Position, F>, F)
    requires level <= d
    decreases d - level
  {
    if level == d then (nodes, current)
    else
      var nodes' := SetNode(c, nodes, level, position, current);
      var sibling := NodeAt(c, nodes', level, Sibling(position));
      WritePath(c, d, nodes', level + 1, position / 2, Combine(c, position, current, sibling))
  }

  /** The leaf map after one leaf is set or cleared. */
  function SetLeaf<F>(live: map<nat, F>, index: nat, leaf: Option<F>): map<nat, F> {
    match leaf
    case Some(commitment) => live[index := commitment]
    case None => live - {index}
  }

  function LeafValue<F(!new)>(c: Suite<F>, leaf: Option<F>): F {
    match leaf
    case Some(commitment) => c.LeafNode(commitment)
    case None => c.EmptyLeaf()
  }

  /** Only levels below the root are stored, and never a value equal to the zero of its level. */
  ghost predicate Canonical<F(!new)>(c: Suite<F>, d: nat, nodes: map<Position, F>) {
    forall k :: k in nodes ==> k.0 < d && nodes[k] != Zero(c, k.0)
  }

  /** The node table, gaps filled from the zero table, is the dense tree over `live`. */
  ghost predicate Represents<F(!new)>(c: Suite<F>, d: nat, nodes: map<Position, F>, live: map<nat, F>) {
    && Canonical(c, d, nodes)
    && (forall level: nat, idx: nat :: level < d ==> NodeAt(c, nodes, level, idx) == Dense(c, live, level, idx))
  }

  /** As `Represents`, except that the path of `index` is still stale from `level` upwards. */
  ghost predicate Midway<F(!new)>(
    c: Suite<F>, d: nat, nodes: map<Position, F>, live: map<nat, F>, level: nat, index: nat)
  {
    && Canonical(c, d, nodes)
    && (forall l: nat, i: nat :: l < d && (l < level || i != Ancestor(index, l))
          ==> NodeAt(c, nodes, l, i) == Dense(c, live, l, i))
  }

  // ---------------------------------------------------------------- writing a leaf

  lemma {:induction false} DenseOffPath<F(!new)>(
    c: Suite<F>, live: map<nat, F>, index: nat, leaf: Option<F>, level: nat, idx: nat)
    requires idx != Ancestor(index, level)
    ensures Dense(c, SetLeaf(live, index, leaf), level, idx) == Dense(c, live, level, idx)
  {
    if level > 0 {
      DenseOffPath(c, live, index, leaf, level - 1, 2 * idx);
      DenseOffPath(c, live, index, leaf, level - 1, 2 * idx + 1);
    }
  }

  lemma AncestorBase(index: nat)
    ensures Ancestor(index, 0) == index
  {
  }

  lemma AncestorStep(index: nat, level: nat)
    ensures Ancestor(index, level + 1) == Ancestor(index, level) / 2
  {
  }

  lemma {:induction false} AncestorHalves(index: nat, level: nat)
    ensures Ancestor(index / 2, level) == Ancestor(index, level + 1)
  {
    if level > 0 {
      AncestorHalves(index, level - 1);
    }
  }

  lemma {:induction false} AncestorOfZero(level: nat)
    ensures Ancestor(0, level) == 0
  {
    if level > 0 {
      AncestorOfZero(level - 1);
    }
  }

  /** The ancestors of an index below 2^d end at the root. */
  lemma {:induction false} AncestorRoot(index: nat, d: nat)
    requires index < Pow2(d)
    ensures Ancestor(index, d) == 0
  {
    if d > 0 {
      AncestorRoot(index / 2, d - 1);
      AncestorHalves(index, d - 1);
    }
  }

  lemma SetNodeAt<F(!new)>(c: Suite<F>, nodes: map<Position, F>, level: nat, here: nat, value: F, l: nat, i: nat)
    ensures NodeAt(c, SetNode(c, nodes, level, here, value), l, i)
         == if (l, i) == (level, here) then value else NodeAt(c, nodes, l, i)
  {
    hide Zero;
  }

  lemma SetNodeOnPath<F(!new)>(c: Suite<F>, d: nat, nodes: map<Position, F>, live: map<nat, F>, level: nat, index: nat)
    requires level < d && Midway(c, d, nodes, live, level, index)
    ensures var here := Ancestor(index, level);
            Midway(c, d, SetNode(c, nodes, level, here, Dense(c, live, level, here)), live, level + 1, index)
  {
    hide Dense, Ancestor, NodeAt, Zero;
    var here := Ancestor(index, level);
    var nodes' := SetNode(c, nodes, level, here, Dense(c, live, level, here));
    forall l: nat, i: nat | l < d && (l < level + 1 || i != Ancestor(index, l))
      ensures NodeAt(c, nodes', l, i) == Dense(c, live, l, i)
    {
      SetNodeAt(c, nodes, level, here, Dense(c, live, level, here), l, i);
    }
  }

  lemma CombineIsDense<F(!new)>(c: Suite<F>, live: map<nat, F>, level: nat, position: nat)
    ensures Combine(c, position, Dense(c, live, level, position), Dense(c, live, level, Sibling(position)))
         == Dense(c, live, level + 1, position / 2)
  {
    assert position % 2 == 0 ==> 2 * (position / 2) == position;
    assert position % 2 == 1 ==> 2 * (position / 2) + 1 == position;
  }

  lemma {:induction false} WritePathCompletes<F(!new)>(
    c: Suite<F>, d: nat, nodes: map<Position, F>, live: map<nat, F>, level: nat, index: nat)
    requires level <= d && Midway(c, d, nodes, live, level, index)
    ensures var here := Ancestor(index, level);
            var (nodes', root) := WritePath(c, d, nodes, level, here, Dense(c, live, level, here));
            Represents(c, d, nodes', live) && root == Dense(c, live, d, Ancestor(index, d))
    decreases d - level
  {
    hide Dense, SetNode, Canonical, NodeAt;
    var here := Ancestor(index, level);
    if level < d {
      var nodes' := SetNode(c, nodes, level, here, Dense(c, live, level, here));
      AncestorStep(index, level);
      SetNodeOnPath(c, d, nodes, live, level, index);
      assert NodeAt(c, nodes', level, Sibling(here)) == Dense(c, live, level, Sibling(here));
      CombineIsDense(c, live, level, here);
      WritePathCompletes(c, d, nodes', live, level + 1, index);
    }
  }

  /** Sparse refines dense: a write keeps the table equal to the dense tree of the updated leaf map. */
  lemma WriteLeafRefines<F(!new)>(
    c: Suite<F>, d: nat, nodes: map<Position, F>, live: map<nat, F>, index: nat, leaf: Option<F>)
    requires index < Pow2(d) && Represents(c, d, nodes, live)
    ensures var (nodes', root) := WritePath(c, d, nodes, 0, index, LeafValue(c, leaf));
            Represents(c, d, nodes', SetLeaf(live, index, leaf)) && root == Dense(c, SetLeaf(live, index, leaf), d, 0)
  {
    var live' := SetLeaf(live, index, leaf);
    forall l: nat, i: nat | l < d && i != Ancestor(index, l)
      ensures NodeAt(c, nodes, l, i) == Dense(c, live', l, i)
    {
      DenseOffPath(c, live, index, leaf, l, i);
    }
    assert Dense(c, live', 0, index) == LeafValue(c, leaf);
    WritePathCompletes(c, d, nodes, live', 0, index);
    AncestorRoot(index, d);
  }

  /** Rows off the written path keep both their presence and their value. */
  lemma {:induction false} WritePathFrame<F(!new)>(
    c: Suite<F>, d: nat, nodes: map<Position, F>, level: nat, index: nat, current: F, k: Position)
    requires level <= d && k.1 != Ancestor(index, k.0)
    ensures var nodes' := WritePath(c, d, nodes, level, Ancestor(index, level), current).0;
            (k in nodes' <==> k in nodes) && (k in nodes ==> nodes'[k] == nodes[k])
    decreases d - level
  {
    if level < d {
      var here := Ancestor(index, level);
      var nodes' := SetNode(c, nodes, level, here, current);
      var sibling := NodeAt(c, nodes', level, Sibling(here));
      WritePathFrame(c, d, nodes', level + 1, index, Combine(c, here, current, sibling), k);
    }
  }

  lemma {:induction false} EmptyDenseIsZero<F(!new)>(c: Suite<F>, level: nat, idx: nat)
    ensures Dense(c, map[], level, idx) == Zero(c, level)
  {
    if level > 0 {
      EmptyDenseIsZero(c, level - 1, 2 * idx);
      EmptyDenseIsZero(c, level - 1, 2 * idx + 1);
    }
  }

  lemma EmptyRepresents<F(!new)>(c: Suite<F>, d: nat)
    ensures Represents(c, d, map[], map[])
  {
    forall level: nat, idx: nat
      ensures NodeAt(c, map[], level, idx) == Dense(c, map[], level, idx)
    {
      EmptyDenseIsZero(c, level, idx);
    }
  }

  /** The node table is a function of the leaf map alone, whatever writes produced it. */
  lemma RepresentsUnique<F(!new)>(
    c: Suite<F>, d: nat, nodes: map<Position, F>, nodes': map<Position, F>, live: map<nat, F>)
    requires Represents(c, d, nodes, live) && Represents(c, d, nodes', live)
    ensures nodes == nodes'
  {
    forall k: Position
      ensures k in nodes <==> k in nodes'
      ensures k in nodes && k in nodes' ==> nodes[k] == nodes'[k]
    {
      if k.0 < d {
        assert NodeAt(c, nodes, k.0, k.1) == NodeAt(c, nodes', k.0, k.1);
        assert k == (k.0, k.1);
      }
    }
  }

  // ---------------------------------------------------------------- binding, under an ideal hash

  /** Commitments are digests, so none of them is the bare element the empty leaf hashes. */
  ghost predicate NoneEmpty<F(!new)>(c: Suite<F>, live: map<nat, F>) {
    forall i :: i in live ==> live[i] != c.Domain("empty")
  }

  lemma LeafBinds<F(!new)>(c: Suite<F>, x: F, y: F)
    requires c.Ideal() && c.LeafNode(x) == c.LeafNode(y)
    ensures x == y
  {
    assert [x][0] == [y][0];
  }

  lemma ParentBinds<F(!new)>(c: Suite<F>, a: F, b: F, a': F, b': F)
    requires c.Ideal() && c.Parent(a, b) == c.Parent(a', b')
    ensures a == a' && b == b'
  {
    assert [a, b][0] == [a', b'][0] && [a, b][1] == [a', b'][1];
  }

  /** Equal subtree hashes mean equal subtrees. */
  lemma {:induction false} DenseBinds<F(!new)>(
    c: Suite<F>, live: map<nat, F>, live': map<nat, F>, level: nat, idx: nat, leaf: nat)
    requires c.Ideal() && NoneEmpty(c, live) && NoneEmpty(c, live')
    requires Dense(c, live, level, idx) == Dense(c, live', level, idx) && Ancestor(leaf, level) == idx
    ensures leaf in live <==> leaf in live'
    ensures leaf in live && leaf in live' ==> live[leaf] == live'[leaf]
  {
    if level == 0 {
      if leaf in live && leaf in live' {
        LeafBinds(c, live[leaf], live'[leaf]);
      } else if leaf in live {
        LeafBinds(c, live[leaf], c.Domain("empty"));
      } else if leaf in live' {
        LeafBinds(c, live'[leaf], c.Domain("empty"));
      }
    } else {
      ParentBinds(c, Dense(c, live, level - 1, 2 * idx), Dense(c, live, level - 1, 2 * idx + 1),
                  Dense(c, live', level - 1, 2 * idx), Dense(c, live', level - 1, 2 * idx + 1));
      DenseBinds(c, live, live', level - 1, Ancestor(leaf, level - 1), leaf);
    }
  }

  /** Two leaf maps agree below a position. */
  ghost predicate SameUnder<F(!new)>(live: map<nat, F>, live': map<nat, F>, level: nat, idx: nat) {
    forall leaf: nat | Ancestor(leaf, level) == idx ::
      (leaf in live <==> leaf in live') && (leaf in live && leaf in live' ==> live[leaf] == live'[leaf])
  }

  lemma SameUnderChildren<F(!new)>(live: map<nat, F>, live': map<nat, F>, level: nat, idx: nat)
    requires SameUnder(live, live', level + 1, idx)
    ensures SameUnder(live, live', level, 2 * idx) && SameUnder(live, live', level, 2 * idx + 1)
  {
    hide Ancestor;
    forall leaf: nat | Ancestor(leaf, level) == 2 * idx || Ancestor(leaf, level) == 2 * idx + 1
      ensures Ancestor(leaf, level + 1) == idx
    {
      AncestorStep(leaf, level);
    }
  }

  lemma {:induction false} SameUnderSameDense<F(!new)>(
    c: Suite<F>, live: map<nat, F>, live': map<nat, F>, level: nat, idx: nat)
    requires SameUnder(live, live', level, idx)
    ensures Dense(c, live, level, idx) == Dense(c, live', level, idx)
  {
    if level == 0 {
      AncestorBase(idx);
    } else {
      SameUnderChildren(live, live', level - 1, idx);
      SameUnderSameDense(c, live, live', level - 1, 2 * idx);
      SameUnderSameDense(c, live, live', level - 1, 2 * idx + 1);
    }
  }

  /** Two trees have the same node at a position exactly when they have the same leaves below it. */
  lemma SameNodeIffSameUnder<F(!new)>(c: Suite<F>, live: map<nat, F>, live': map<nat, F>, level: nat, idx: nat)
    requires c.Ideal() && NoneEmpty(c, live) && NoneEmpty(c, live')
    ensures Dense(c, live, level, idx) == Dense(c, live', level, idx) <==> SameUnder(live, live', level, idx)
  {
    hide Dense, Ancestor, NoneEmpty;
    if Dense(c, live, level, idx) == Dense(c, live', level, idx) {
      forall leaf: nat | Ancestor(leaf, level) == idx
        ensures leaf in live <==> leaf in live'
        ensures leaf in live && leaf in live' ==> live[leaf] == live'[leaf]
      {
        DenseBinds(c, live, live', level, idx, leaf);
      }
    }
    if SameUnder(live, live', level, idx) {
      SameUnderSameDense(c, live, live', level, idx);
    }
  }

  ghost predicate InTree<F>(d: nat, live: map<nat, F>) {
    forall i :: i in live ==> i < Pow2(d)
  }

  /** Different live sets have different roots. */
  lemma RootBinds<F(!new)>(c: Suite<F>, d: nat, live: map<nat, F>, live': map<nat, F>)
    requires c.Ideal() && NoneEmpty(c, live) && NoneEmpty(c, live') && InTree(d, live) && InTree(d, live')
    requires Dense(c, live, d, 0) == Dense(c, live', d, 0)
    ensures live == live'
  {
    forall i: nat | i < Pow2(d)
      ensures i in live <==> i in live'
      ensures i in live && i in live' ==> live[i] == live'[i]
    {
      AncestorRoot(i, d);
      DenseBinds(c, live, live', d, 0, i);
    }
    assert forall i :: i in live <==> i in live';
  }

  // ---------------------------------------------------------------- storage

  ghost predicate HasLeafUnder<F>(live: map<nat, F>, level: nat, idx: nat) {
    exists i :: i in live && Ancestor(i, level) == idx
  }

  lemma LeafUnderParent<F>(live: map<nat, F>, level: nat, idx: nat)
    ensures HasLeafUnder(live, level, idx) ==> HasLeafUnder(live, level + 1, idx / 2)
  {
    if HasLeafUnder(live, level, idx) {
      var i :| i in live && Ancestor(i, level) == idx;
      assert Ancestor(i, level + 1) == idx / 2;
    }
  }

  lemma {:induction false} NoLeafIsZero<F(!new)>(c: Suite<F>, live: map<nat, F>, level: nat, idx: nat)
    requires !HasLeafUnder(live, level, idx)
    ensures Dense(c, live, level, idx) == Zero(c, level)
  {
    if level == 0 {
      assert idx == Ancestor(idx, 0);
    } else {
      LeafUnderParent(live, level - 1, 2 * idx);
      LeafUnderParent(live, level - 1, 2 * idx + 1);
      NoLeafIsZero(c, live, level - 1, 2 * idx);
      NoLeafIsZero(c, live, level - 1, 2 * idx + 1);
    }
  }

  /** A row is stored exactly where the subtree holds a live leaf. */
  lemma RowIffLeafUnder<F(!new)>(c: Suite<F>, d: nat, nodes: map<Position, F>, live: map<nat, F>, level: nat, idx: nat)
    requires c.Ideal() && NoneEmpty(c, live) && Represents(c, d, nodes, live) && level < d
    ensures (level, idx) in nodes <==> HasLeafUnder(live, level, idx)
  {
    assert NodeAt(c, nodes, level, idx) == Dense(c, live, level, idx);
    if !HasLeafUnder(live, level, idx) {
      NoLeafIsZero(c, live, level, idx);
    } else {
      var leaf :| leaf in live && Ancestor(leaf, level) == idx;
      if Dense(c, live, level, idx) == Zero(c, level) {
        EmptyDenseIsZero(c, level, idx);
        DenseBinds(c, live, map[], level, idx, leaf);
        assert false;
      }
    }
  }

  /** The positions on the path of one leaf, below the root. */
  ghost function PathPositions(d: nat, leaf: nat): (s: set<Position>)
    ensures |s| <= d
    ensures forall l: nat :: l < d ==> (l, Ancestor(leaf, l)) in s
  {
    if d == 0 then {} else PathPositions(d - 1, leaf) + {(d - 1, Ancestor(leaf, d - 1))}
  }

  ghost function PathsOf(d: nat, leaves: set<nat>): (s: set<Position>)
    ensures |s| <= d * |leaves|
    ensures forall leaf, l: nat :: leaf in leaves && l < d ==> (l, Ancestor(leaf, l)) in s
  {
    if leaves == {} then {}
    else
      var leaf :| leaf in leaves;
      var rest := leaves - {leaf};
      assert d * |leaves| == d * |rest| + d;
      PathPositions(d, leaf) + PathsOf(d, rest)
  }

  lemma SubsetSize<T>(a: set<T>, b: set<T>)
    requires a <= b
    ensures |a| <= |b|
  {
    assert b == a + (b - a);
  }

  /** At most depth rows per live credential. No property of the hash is needed. */
  lemma StorageBound<F(!new)>(c: Suite<F>, d: nat, nodes: map<Position, F>, live: map<nat, F>)
    requires Represents(c, d, nodes, live)
    ensures |nodes| <= d * |live|
  {
    forall k | k in nodes
      ensures k in PathsOf(d, live.Keys)
    {
      assert NodeAt(c, nodes, k.0, k.1) == Dense(c, live, k.0, k.1);
      if !HasLeafUnder(live, k.0, k.1) {
        NoLeafIsZero(c, live, k.0, k.1);
        assert false;
      }
    }
    SubsetSize(nodes.Keys, PathsOf(d, live.Keys));
    assert |nodes| == |nodes.Keys| && |live| == |live.Keys|;
  }

  // ---------------------------------------------------------------- folding a path

  /** The value after `level` compressions of a leaf value with its siblings, as an oracle or a circuit folds it. */
  function Fold<F(!new)>(c: Suite<F>, start: F, siblings: seq<F>, index: nat, level: nat): F
    requires level <= |siblings|
  {
    if level == 0 then start
    else Combine(c, Ancestor(index, level - 1), Fold(c, start, siblings, index, level - 1), siblings[level - 1])
  }

  /** The siblings the table yields for a leaf: the loop of path. */
  function Siblings<F(!new)>(c: Suite<F>, d: nat, nodes: map<Position, F>, index: nat): seq<F> {
    seq(d, (l: nat) => NodeAt(c, nodes, l, Sibling(Ancestor(index, l))))
  }

  ghost predicate OwnSiblings<F(!new)>(c: Suite<F>, live: map<nat, F>, siblings: seq<F>, index: nat, level: nat) {
    level <= |siblings| && forall l: nat :: l < level ==> siblings[l] == Dense(c, live, l, Sibling(Ancestor(index, l)))
  }

  lemma {:induction false} FoldOfTreePath<F(!new)>(
    c: Suite<F>, live: map<nat, F>, siblings: seq<F>, index: nat, level: nat)
    requires OwnSiblings(c, live, siblings, index, level)
    ensures Fold(c, Dense(c, live, 0, index), siblings, index, level) == Dense(c, live, level, Ancestor(index, level))
  {
    if level > 0 {
      var here := Ancestor(index, level - 1);
      FoldOfTreePath(c, live, siblings, index, level - 1);
      CombineIsDense(c, live, level - 1, here);
      assert Ancestor(index, level) == here / 2;
    }
  }

  lemma CombineBinds<F(!new)>(c: Suite<F>, position: nat, a: F, b: F, a': F, b': F)
    requires c.Ideal() && Combine(c, position, a, b) == Combine(c, position, a', b')
    ensures a == a' && b == b'
  {
    if position % 2 == 0 {
      ParentBinds(c, a, b, a', b');
    } else {
      ParentBinds(c, b, a, b', a');
    }
  }

  lemma FoldStep<F(!new)>(c: Suite<F>, start: F, siblings: seq<F>, index: nat, level: nat)
    requires level < |siblings|
    ensures Fold(c, start, siblings, index, level + 1)
         == Combine(c, Ancestor(index, level), Fold(c, start, siblings, index, level), siblings[level])
  {
    hide Combine, Ancestor;
  }

  lemma OwnSiblingsStep<F(!new)>(c: Suite<F>, live: map<nat, F>, siblings: seq<F>, index: nat, level: nat)
    requires level < |siblings| && OwnSiblings(c, live, siblings, index, level)
    requires siblings[level] == Dense(c, live, level, Sibling(Ancestor(index, level)))
    ensures OwnSiblings(c, live, siblings, index, level + 1)
  {
    hide Dense, Ancestor, Sibling;
  }

  lemma FoldBase<F(!new)>(c: Suite<F>, live: map<nat, F>, start: F, siblings: seq<F>, index: nat)
    ensures Fold(c, start, siblings, index, 0) == start && OwnSiblings(c, live, siblings, index, 0)
  {
  }

  /** Only the tree's own leaf and siblings fold to a node of the tree. */
  lemma {:induction false} FoldBinds<F(!new)>(
    c: Suite<F>, live: map<nat, F>, start: F, siblings: seq<F>, index: nat, level: nat)
    requires c.Ideal() && level <= |siblings|
    requires Fold(c, start, siblings, index, level) == Dense(c, live, level, Ancestor(index, level))
    ensures start == Dense(c, live, 0, index) && OwnSiblings(c, live, siblings, index, level)
  {
    hide *;
    if level == 0 {
      FoldBase(c, live, start, siblings, index);
      AncestorBase(index);
    } else {
      var here := Ancestor(index, level - 1);
      AncestorStep(index, level - 1);
      FoldStep(c, start, siblings, index, level - 1);
      CombineIsDense(c, live, level - 1, here);
      CombineBinds(c, here, Fold(c, start, siblings, index, level - 1), siblings[level - 1],
                   Dense(c, live, level - 1, here), Dense(c, live, level - 1, Sibling(here)));
      FoldBinds(c, live, start, siblings, index, level - 1);
      OwnSiblingsStep(c, live, siblings, index, level - 1);
    }
  }

  /** The siblings read from the table are the tree's own, and no others are. */
  lemma SiblingsAreOwn<F(!new)>(
    c: Suite<F>, d: nat, nodes: map<Position, F>, live: map<nat, F>, siblings: seq<F>, index: nat)
    requires |siblings| == d && Represents(c, d, nodes, live)
    ensures OwnSiblings(c, live, siblings, index, d) <==> siblings == Siblings(c, d, nodes, index)
  {
    hide Dense, Ancestor, Sibling, NodeAt, Canonical;
    var own := Siblings(c, d, nodes, index);
    assert forall l: nat :: l < d ==> own[l] == Dense(c, live, l, Sibling(Ancestor(index, l)));
  }

  /** A fold reaches the tree's root exactly when it starts at the tree's leaf and uses the tree's siblings. */
  lemma FoldReachesRoot<F(!new)>(
    c: Suite<F>, d: nat, nodes: map<Position, F>, live: map<nat, F>, start: F, siblings: seq<F>, index: nat)
    requires c.Ideal() && index < Pow2(d) && |siblings| == d && Represents(c, d, nodes, live)
    ensures Fold(c, start, siblings, index, d) == Dense(c, live, d, 0)
       <==> start == Dense(c, live, 0, index) && siblings == Siblings(c, d, nodes, index)
  {
    hide *;
    AncestorRoot(index, d);
    SiblingsAreOwn(c, d, nodes, live, siblings, index);
    if Fold(c, start, siblings, index, d) == Dense(c, live, d, 0) {
      FoldBinds(c, live, start, siblings, index, d);
    }
    if start == Dense(c, live, 0, index) && OwnSiblings(c, live, siblings, index, d) {
      FoldOfTreePath(c, live, siblings, index, d);
    }
  }
}
