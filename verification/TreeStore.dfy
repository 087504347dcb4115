/** The credential-tree operations of zkauthn/tree.go as they run: tables changed in place, loops over the levels.
  *
  * Each method is tied to the transaction functions of TreeTables.dfy, about which everything else is proved.
  */
module TreeStore {
  import opened Hashing
  import opened SparseTree
  import opened TreeTables
  import opened TreeHistory
  import PathReader

  datatype MerklePath<F> = MerklePath(root: F, leaf: F, siblings: seq<F>, index: nat)

  datatype IssueResult<F> =
    | Issued(index: nat, path: MerklePath<F>)
    | Forbidden
    | Denied
    | NoEntropy
    | TreeFull
    | Conflict

  /** The zero-table loop of New. */
  method ZeroTable<F(!new)>(c: Suite<F>, d: nat) returns (zeros: seq<F>)
    ensures |zeros| == d + 1 && forall l :: 0 <= l <= d ==> zeros[l] == Zero(c, l)
  {
    zeros := [c.EmptyLeaf()];
    for i := 1 to d + 1
      invariant |zeros| == i && forall l :: 0 <= l < i ==> zeros[l] == Zero(c, l)
    {
      zeros := zeros + [c.Parent(zeros[i - 1], zeros[i - 1])];
    }
  }

  lemma CurrentRootOfWrite<F(!new)>(c: Suite<F>, d: nat, t: Tables<F>, index: nat, leaf: Option<F>, now: int)
    requires Good(c, d, TreeTables.WriteLeaf(c, d, t, index, leaf, now)) && t.credentials != map[]
    ensures WritePath(c, d, t.nodes, 0, index, LeafValue(c, leaf)).1
         == Root(c, d, TreeTables.WriteLeaf(c, d, t, index, leaf, now))
  {
    hide Represents, WritePath, Dense;
    var root := WritePath(c, d, t.nodes, 0, index, LeafValue(c, leaf)).1;
    assert TreeTables.WriteLeaf(c, d, t, index, leaf, now).roots[root].None?;
  }

  lemma RevokeIsOneWrite<F(!new)>(c: Suite<F>, d: nat, t: Tables<F>, index: nat, now: int)
    ensures var marked := MarkRevoked(t.credentials, index, now);
            Perform(c, d, t, Revoke(index), now)
              == Some(if marked.None? then t
                      else TreeTables.WriteLeaf(c, d, t.(credentials := marked.value), index, None, now))
  {
    hide WritePath;
    var marked := MarkRevoked(t.credentials, index, now);
    if marked.Some? {
      var rows := Rows(t.credentials, Revoke(index));
      assert rows == [index] && rows[1..] == [];
      var after := TreeTables.WriteLeaf(c, d, t.(credentials := marked.value), index, None, now);
      assert RevokeRows(c, d, after, rows[1..], now) == Some(after);
    }
  }

  lemma BatchLeavesNone<F(!new)>(c: Suite<F>, d: nat, t: Tables<F>, user: string, now: int)
    requires Good(c, d, t)
    ensures Perform(c, d, t, RevokeUser(user), now).Some?
    ensures var after := Perform(c, d, t, RevokeUser(user), now).value.credentials;
            forall i :: i in Live(after) ==> after[i].issuedTo != Some(user)
  {
    RevokeKeepsGood(c, d, t, RevokeUser(user), now);
    hide Good, Perform;
  }

  class Store<F(==, !new)> {
    const c: Suite<F>
    const d: nat
    const zeros: seq<F>
    var credentials: map<nat, Credential<F>>
    var nodes: map<Position, F>
    var roots: map<F, Option<int>>

    ghost predicate Valid() {
      |zeros| == d + 1 && forall l :: 0 <= l <= d ==> zeros[l] == Zero(c, l)
    }

    ghost function View(): Tables<F>
      reads this
    {
      Tables(credentials, nodes, roots)
    }

    constructor (c: Suite<F>, d: nat)
      ensures Valid() && this.c == c && this.d == d
      ensures View() == EmptyTables() && Good(c, d, View())
    {
      var zeros := ZeroTable(c, d);
      this.c, this.d, this.zeros := c, d, zeros;
      credentials, nodes, roots := map[], map[], map[];
      EmptyIsGood(c, d);
    }

    method Node(level: nat, idx: nat) returns (value: F)
      requires Valid() && level <= d
      ensures value == NodeAt(c, nodes, level, idx)
    {
      value := if (level, idx) in nodes then nodes[(level, idx)] else zeros[level];
    }

    method WriteLeaf(index: nat, leaf: Option<F>, now: int) returns (root: F)
      requires Valid()
      modifies this`nodes, this`roots
      ensures View() == TreeTables.WriteLeaf(c, d, old(View()), index, leaf, now)
      ensures root == WritePath(c, d, old(nodes), 0, index, LeafValue(c, leaf)).1
    {
      var current := if leaf.Some? then c.LeafNode(leaf.value) else zeros[0];
      var position := index;
      ghost var path := WritePath(c, d, nodes, 0, index, LeafValue(c, leaf));
      for level := 0 to d
        invariant WritePath(c, d, nodes, level, position, current) == path
        invariant roots == old(roots)
      {
        if current == zeros[level] {
          nodes := nodes - {(level, position)};
        } else {
          nodes := nodes[(level, position) := current];
        }
        var sibling := Node(level, Sibling(position));
        current := Combine(c, position, current, sibling);
        position := position / 2;
      }
      roots := RetireRoots(roots, now);
      roots := roots[current := None];
      root := current;
    }

    method CurrentRoot() returns (root: F)
      requires Valid() && Good(c, d, View())
      ensures root == Root(c, d, View())
    {
      PathReader.CurrentRootIsRoot(c, d, View());
      root := PathReader.ReadRoot(c, d, roots);
    }

    /** The path loop: siblings level by level. */
    method Path(index: nat, commitment: F, root: F) returns (path: MerklePath<F>)
      requires Valid()
      ensures path == MerklePath(root, commitment, Siblings(c, d, nodes, index), index)
    {
      var siblings: seq<F> := [];
      var position := index;
      AncestorBase(index);
      hide Ancestor, Sibling;
      for level := 0 to d
        invariant position == Ancestor(index, level)
        invariant siblings == Siblings(c, d, nodes, index)[..level]
      {
        var sibling := Node(level, Sibling(position));
        siblings := siblings + [sibling];
        AncestorStep(index, level);
        position := position / 2;
      }
      path := MerklePath(root, commitment, siblings, index);
    }

    /** select coalesce(max(leaf_index) + 1, 0) */
    method NextLeafIndex() returns (next: nat)
      ensures next == NextLeaf(credentials.Keys)
    {
      var rest := credentials.Keys;
      next := 0;
      while rest != {}
        invariant rest <= credentials.Keys
        invariant forall k :: k in credentials && k !in rest ==> k < next
        invariant next > 0 ==> next - 1 in credentials
        decreases rest
      {
        var k :| k in rest;
        next := if next < k + 1 then k + 1 else next;
        rest := rest - {k};
      }
    }

    /** The issuing transaction, up to but not including the path it returns. */
    method InsertCredential(
      secret: nat, attribute: nat, issuedTo: string, now: int)
      returns (result: IssueResult<F>, root: F)
      requires Valid() && Good(c, d, View())
      modifies this
      ensures var after := Perform(c, d, old(View()), Issue(secret, attribute, issuedTo), now);
              (result.Issued? <==> after.Some?) && View() == if after.Some? then after.value else old(View())
      ensures result.Issued? ==>
        && Good(c, d, View()) && root == Root(c, d, View())
        && result.index == |old(credentials)| && result.index in Live(credentials)
        && Live(credentials)[result.index] == c.Commitment(secret, attribute)
      ensures result.TreeFull? <==> |old(credentials)| == Pow2(d)
      ensures result.Conflict? <==>
        |old(credentials)| < Pow2(d)
        && exists i :: i in old(credentials) && old(credentials)[i].commitment == c.Commitment(secret, attribute)
      ensures result.Issued? || result.TreeFull? || result.Conflict?
    {
      var commitment := c.Commitment(secret, attribute);
      var next := NextLeafIndex();
      NextLeafIsCount(c, d, View());
      ghost var before := View();
      assert |credentials| <= Pow2(d);
      hide Good, WritePath;
      root := commitment;
      if next >= Pow2(d) {
        return TreeFull, root;
      }
      if Taken(credentials, commitment) {
        return Conflict, root;
      }
      IssueKeepsGood(c, d, before, secret, attribute, issuedTo, now);
      credentials := credentials[next := Credential(commitment, NullIfEmpty(issuedTo), None)];
      root := WriteLeaf(next, Some(commitment), now);
      CurrentRootOfWrite(c, d, before.(credentials := credentials), next, Some(commitment), now);
      result := Issued(next, MerklePath(root, commitment, [], next));
    }

    /** The authorizer is absent, or answers; the secret is absent when the entropy source fails. */
    method IssueCredential(authorizer: Option<bool>, issuedTo: string, secret: Option<nat>, attribute: nat, now: int)
      returns (result: IssueResult<F>)
      requires Valid() && Good(c, d, View())
      modifies this
      ensures Good(c, d, View())
      ensures result.Forbidden? <==> authorizer.None?
      ensures result.Denied? <==> authorizer == Some(false)
      ensures result.NoEntropy? <==> authorizer == Some(true) && secret.None?
      ensures authorizer == Some(true) && secret.Some? ==>
        && (result.Issued? <==> Perform(c, d, old(View()), Issue(secret.value, attribute, issuedTo), now).Some?)
        && (result.TreeFull? <==> |old(credentials)| == Pow2(d))
        && (result.Conflict? <==>
              && |old(credentials)| < Pow2(d)
              && (exists i :: i in old(credentials) &&
                    old(credentials)[i].commitment == c.Commitment(secret.value, attribute)))
      ensures !result.Issued? ==> View() == old(View())
      ensures result.Issued? ==>
        && secret.Some?
        && Perform(c, d, old(View()), Issue(secret.value, attribute, issuedTo), now) == Some(View())
        && result.index == |old(credentials)|
        && result.path == MerklePath(Root(c, d, View()), c.Commitment(secret.value, attribute),
                                     Siblings(c, d, nodes, result.index), result.index)
        && |result.path.siblings| == d
        && Fold(c, c.LeafNode(result.path.leaf), result.path.siblings, result.index, d) == result.path.root
    {
      if authorizer.None? {
        return Forbidden;
      }
      if !authorizer.value {
        return Denied;
      }
      if secret.None? {
        return NoEntropy;
      }
      hide Good, Perform, Live, Root, Fold, Siblings;
      var root;
      result, root := InsertCredential(secret.value, attribute, issuedTo, now);
      if result.Issued? {
        var path := Path(result.index, c.Commitment(secret.value, attribute), root);
        OwnPathFolds(c, d, View(), result.index);
        result := Issued(result.index, path);
      }
    }

    /** False when the leaf was not live, which is not an error. */
    method RevokeCredential(index: nat, now: int) returns (revoked: bool)
      requires Valid() && Good(c, d, View())
      modifies this
      ensures revoked <==> index in Live(old(credentials))
      ensures Perform(c, d, old(View()), Revoke(index), now) == Some(View())
      ensures Good(c, d, View()) && index !in Live(credentials)
      ensures !revoked ==> View() == old(View())
    {
      RevokeKeepsGood(c, d, View(), Revoke(index), now);
      RevokeIsOneWrite(c, d, View(), index, now);
      hide Good, Perform, WritePath;
      var marked := MarkRevoked(credentials, index, now);
      revoked := marked.Some?;
      if revoked {
        credentials := marked.value;
        var _ := WriteLeaf(index, None, now);
      }
    }

    /** False would be the ErrNoRows branch, which rolls back; it is never taken. */
    method RevokeCredentialsForUser(user: string, now: int) returns (ok: bool)
      requires Valid() && Good(c, d, View())
      modifies this
      ensures ok && Perform(c, d, old(View()), RevokeUser(user), now) == Some(View())
      ensures Good(c, d, View())
      ensures forall i :: i in Live(credentials) ==> credentials[i].issuedTo != Some(user)
    {
      var next := NextLeafIndex();
      var rows := UserRows(credentials, user, next);
      ghost var target := Perform(c, d, View(), RevokeUser(user), now);
      RevokeKeepsGood(c, d, View(), RevokeUser(user), now);
      BatchLeavesNone(c, d, View(), user, now);
      hide Good, WritePath, UserRows, Perform;
      var k := 0;
      while k < |rows|
        invariant k <= |rows|
        invariant RevokeRows(c, d, View(), rows[k..], now) == target
      {
        assert rows[k..][0] == rows[k] && rows[k..][1..] == rows[k + 1..];
        var marked := MarkRevoked(credentials, rows[k], now);
        if marked.None? {
          assert false;
          return false;
        }
        credentials := marked.value;
        var _ := WriteLeaf(rows[k], None, now);
        k := k + 1;
      }
      ok := true;
    }

    /** The root of the live leaves is accepted whatever the grace; any other only while it has been retired for less
      * than a positive grace, and without one none is. */
    method RootAccepted(root: F, grace: int, at: int) returns (ok: bool)
      requires Valid() && Good(c, d, View())
      ensures ok <==>
        || (credentials != map[] && root == Root(c, d, View()))
        || (root in roots && roots[root].Some? && grace > 0 && at - roots[root].value < grace)
    {
      hide Represents, Dense;
      ok := root in roots;
      if ok && roots[root].Some? {
        ok := grace > 0 && roots[root].value > at - grace;
      }
    }
  }

  /** For a deployment's depth, d levels of siblings and a fold that starts and ends as the oracle's does. */
  method SingleLeafPath<F(!new)>(c: Suite<F>, d: nat, commitment: F) returns (path: MerklePath<F>)
    requires d > 0
    ensures path.leaf == commitment && path.index == 0
    ensures path.siblings == seq(d, (l: nat) => Zero(c, l))
    ensures path.root == Fold(c, c.LeafNode(commitment), path.siblings, 0, d)
  {
    var siblings := [c.EmptyLeaf()];
    for level := 1 to d
      invariant |siblings| == level && forall l :: 0 <= l < level ==> siblings[l] == Zero(c, l)
    {
      siblings := siblings + [c.Parent(siblings[level - 1], siblings[level - 1])];
    }
    var sum := c.LeafNode(commitment);
    for level := 0 to d
      invariant sum == Fold(c, c.LeafNode(commitment), siblings, 0, level)
    {
      AncestorOfZero(level);
      sum := c.Parent(sum, siblings[level]);
    }
    path := MerklePath(sum, commitment, siblings, 0);
  }

  /** The smoke-test path is the path and root of the first credential written to an empty tree. */
  lemma SingleLeafPathIsTreePath<F(!new)>(c: Suite<F>, d: nat, commitment: F)
    requires d > 0
    ensures var (nodes, root) := WritePath(c, d, map[], 0, 0, c.LeafNode(commitment));
            var zeros := seq(d, (l: nat) => Zero(c, l));
            && zeros == Siblings(c, d, nodes, 0)
            && root == Fold(c, c.LeafNode(commitment), zeros, 0, d)
  {
    var (nodes, root) := WritePath(c, d, map[], 0, 0, c.LeafNode(commitment));
    var live := map[0 := commitment];
    EmptyRepresents(c, d);
    assert SetLeaf(map[], 0, Some(commitment)) == live;
    WriteLeafRefines(c, d, map[], map[], 0, Some(commitment));
    var own, zeros := Siblings(c, d, nodes, 0), seq(d, (l: nat) => Zero(c, l));
    forall l: nat | l < d
      ensures own[l] == zeros[l] == Dense(c, live, l, Sibling(Ancestor(0, l)))
    {
      AncestorOfZero(l);
      DenseOffPath(c, map[], 0, Some(commitment), l, 1);
      EmptyDenseIsZero(c, l, 1);
    }
    AncestorOfZero(d);
    FoldOfTreePath(c, live, zeros, 0, d);
  }
}
