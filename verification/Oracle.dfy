/** The plain oracle of the membership circuit, zkauthn/proof.go, against the credential tree. */
module Oracle {
  import opened Hashing
  import opened SparseTree
  import opened TreeTables
  import opened TreeHistory

  datatype MembershipWitness<F> = MembershipWitness(
    secret: nat, attribute: nat, path: seq<F>, index: nat, root: F, audience: F, threshold: nat,
    nullifier: F, challenge: F)

  /** What the types of the Go struct guarantee. */
  ghost predicate WellTyped<F>(d: nat, w: MembershipWitness<F>) {
    && w.secret < SECRET_SPACE && w.attribute < Pow2(64) && w.threshold < Pow2(64)
    && w.index < Pow2(d) && |w.path| == d + 1
  }

  predicate MembershipHolds<F(==, !new)>(c: Suite<F>, d: nat, w: MembershipWitness<F>)
    requires |w.path| == d + 1
  {
    && w.path[0] == c.Commitment(w.secret, w.attribute)
    && w.threshold <= w.attribute
    && w.nullifier == c.Nullifier(w.secret, w.audience)
    && Fold(c, c.LeafNode(w.path[0]), w.path[1..], w.index, d) == w.root
  }

  method MembershipValid<F(==, !new)>(c: Suite<F>, d: nat, w: MembershipWitness<F>) returns (valid: bool)
    requires |w.path| == d + 1
    ensures valid <==> MembershipHolds(c, d, w)
  {
    var leaf := c.Commitment(w.secret, w.attribute);
    if leaf != w.path[0] || w.attribute < w.threshold {
      return false;
    }
    var nullifier := c.Nullifier(w.secret, w.audience);
    if nullifier != w.nullifier {
      return false;
    }
    var sum := c.LeafNode(w.path[0]);
    for level := 0 to d
      invariant sum == Fold(c, c.LeafNode(w.path[0]), w.path[1..], w.index, level)
    {
      if Ancestor(w.index, level) % 2 == 0 {
        sum := c.Parent(sum, w.path[level + 1]);
      } else {
        sum := c.Parent(w.path[level + 1], sum);
      }
    }
    valid := sum == w.root;
  }

  lemma Pow2Of8()
    ensures Pow2(8) == 256
  {
    assert Pow2(4) == 16;
  }

  lemma Doubling(p: nat, q: nat)
    ensures p * (2 * q) == 2 * (p * q)
  {
  }

  lemma {:induction false} Pow2Sum(m: nat, n: nat)
    ensures Pow2(m + n) == Pow2(m) * Pow2(n)
  {
    if n > 0 {
      Pow2Sum(m, n - 1);
      var p, q := Pow2(m), Pow2(n - 1);
      assert Pow2(m + n) == 2 * Pow2(m + n - 1);
      Doubling(p, q);
    }
  }

  lemma Pow2Is64()
    ensures Pow2(64) == 0x1_0000_0000_0000_0000 && Pow2(32) == 0x1_0000_0000
  {
    hide *;
    Pow2Of8();
    Pow2Sum(8, 8);
    Pow2Sum(16, 16);
    Pow2Sum(32, 32);
  }

  /** The oracle is exact for the current tree: a witness naming its root is valid exactly when a live credential with
    * that secret and attribute sits at the index, the path is the tree's own, the attribute meets the threshold and
    * the nullifier is that credential's for the audience. An empty tree has no valid witness. */
  lemma OracleIsExact<F(!new)>(c: Suite<F>, d: nat, t: Tables<F>, w: MembershipWitness<F>)
    requires c.Ideal() && Good(c, d, t) && WellTyped(d, w) && w.root == Root(c, d, t)
    ensures MembershipHolds(c, d, w) <==>
            && w.index in Live(t.credentials)
            && Live(t.credentials)[w.index] == c.Commitment(w.secret, w.attribute)
            && w.path == [c.Commitment(w.secret, w.attribute)] + Siblings(c, d, t.nodes, w.index)
            && w.threshold <= w.attribute
            && w.nullifier == c.Nullifier(w.secret, w.audience)
  {
    hide Good, Root, Fold, Siblings;
    var leaf := c.Commitment(w.secret, w.attribute);
    assert IsCommitment(c, leaf);
    FoldsIffOwn(c, d, t, w.index, leaf, w.path[1..]);
    assert w.path == [w.path[0]] + w.path[1..];
  }

  /** A valid witness for the current root is made from the one secret and attribute its credential was issued with,
    * and two valid witnesses for one audience share a nullifier exactly when they share the secret. */
  lemma ValidWitnessIsUnique<F(!new)>(
    c: Suite<F>, d: nat, t: Tables<F>, w: MembershipWitness<F>, secret: nat, attribute: nat, v: MembershipWitness<F>)
    requires c.Ideal() && Good(c, d, t) && WellTyped(d, w) && WellTyped(d, v)
    requires w.root == v.root == Root(c, d, t) && w.audience == v.audience
    requires secret < SECRET_SPACE && attribute < Pow2(64)
    requires w.index in t.credentials && t.credentials[w.index].commitment == c.Commitment(secret, attribute)
    requires MembershipHolds(c, d, w) && MembershipHolds(c, d, v)
    ensures w.secret == secret && w.attribute == attribute
    ensures w.nullifier == v.nullifier <==> w.secret == v.secret
  {
    Pow2Is64();
    OracleIsExact(c, d, t, w);
    OracleIsExact(c, d, t, v);
    hide Good, Root, Siblings, MembershipHolds;
    DomainsSeparate(c, w.secret, w.attribute, secret, attribute, w.audience, w.audience);
    DomainsSeparate(c, w.secret, w.attribute, v.secret, v.attribute, w.audience, w.audience);
  }
}
