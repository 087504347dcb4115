/** Field elements and the domain-separated hashes of zkauthn/hash.go.
  *
  * A `Suite` holds the two primitives everything else is built from: the variadic MiMC digest and the
  * embedding of integers into field elements. Theorems that need no property of the hash are stated for
  * every suite; theorems about binding require `Ideal`, which the symbolic suite at the end satisfies.
  */
module Hashing {

  datatype Option<+T> = None | Some(value: T)

  /** Secrets, attributes and domain labels are integers of at most 31 bytes. */
  const SECRET_SPACE: nat := 0x1_00000000_00000000_00000000_00000000_00000000_00000000_00000000_000000

  /** The integer whose big-endian bytes are the text. */
  function DomainElement(text: string): nat {
    if text == "" then 0
    else DomainElement(text[..|text| - 1]) * 256 + text[|text| - 1] as int % 256
  }

  datatype Suite<!F(!new)> = Suite(mimc: seq<F> -> F, embed: nat -> F) {

    function Domain(text: string): F {
      embed(DomainElement("kal.zk.v1/" + text))
    }

    /** The leaf a credential commits to. */
    function Commitment(secret: nat, attribute: nat): F {
      mimc([Domain("leaf"), embed(secret), embed(attribute)])
    }

    function Nullifier(secret: nat, audience: F): F {
      mimc([Domain("nullifier"), embed(secret), audience])
    }

    function EmptyLeaf(): F {
      mimc([Domain("empty")])
    }

    /** Level-0 nodes are one-input hashes of commitments. */
    function LeafNode(commitment: F): F {
      mimc([commitment])
    }

    function Parent(left: F, right: F): F {
      mimc([left, right])
    }

    /** The digest has no collisions and never is the bare element the empty leaf hashes; the embedding is injective on
      * secrets. */
    ghost predicate Ideal() {
      && (forall xs: seq<F>, ys: seq<F> :: mimc(xs) == mimc(ys) ==> xs == ys)
      && (forall xs: seq<F> :: mimc(xs) != Domain("empty"))
      && (forall m: nat, n: nat :: m < SECRET_SPACE && n < SECRET_SPACE && embed(m) == embed(n) ==> m == n)
    }
  }

  lemma DomainElementLastByte(text: string, last: char)
    requires last as int < 256
    ensures DomainElement("kal.zk.v1/" + text + [last]) % 256 == last as int
  {
    var s := "kal.zk.v1/" + text + [last];
    assert s[..|s| - 1] == "kal.zk.v1/" + text;
  }

  function Pow256(n: nat): nat {
    if n == 0 then 1 else 256 * Pow256(n - 1)
  }

  lemma {:induction false} DomainElementBound(text: string)
    ensures DomainElement(text) < Pow256(|text|)
  {
    if text != "" {
      DomainElementBound(text[..|text| - 1]);
    }
  }

  lemma Pow256Of31()
    ensures Pow256(31) == SECRET_SPACE
  {
    assert Pow256(8) == 0x1_00000000_00000000;
    assert Pow256(16) == Pow256(8) * 0x1_00000000_00000000;
    assert Pow256(24) == Pow256(16) * 0x1_00000000_00000000;
  }

  lemma {:induction false} Pow256Monotone(m: nat, n: nat)
    requires m <= n
    ensures Pow256(m) <= Pow256(n)
  {
    if m < n {
      Pow256Monotone(m, n - 1);
    }
  }

  /** Every label fits the 31 bytes domainElement insists on. */
  lemma LabelsFit(text: string)
    requires |text| <= 31
    ensures DomainElement(text) < SECRET_SPACE
  {
    DomainElementBound(text);
    Pow256Monotone(|text|, 31);
    Pow256Of31();
    hide DomainElement, Pow256;
  }

  /** A text of bytes. */
  predicate Bytes(text: string) {
    forall i :: 0 <= i < |text| ==> text[i] as int < 256
  }

  lemma {:induction false} LeadingByteCounts(text: string)
    requires Bytes(text) && text != "" && text[0] as int > 0
    ensures DomainElement(text) > 0
  {
    if |text| > 1 {
      LeadingByteCounts(text[..|text| - 1]);
    }
  }

  lemma SameDigits(m: nat, x: nat, n: nat, y: nat)
    requires x < 256 && y < 256 && m * 256 + x == n * 256 + y
    ensures m == n && x == y
  {
  }

  lemma {:induction false} ElementsDetermineTexts(a: string, b: string)
    requires Bytes(a) && Bytes(b) && DomainElement(a) == DomainElement(b)
    requires (a != "" ==> a[0] as int > 0) && (b != "" ==> b[0] as int > 0)
    ensures a == b
    decreases |a|
  {
    if a == "" || b == "" {
      if a != "" {
        LeadingByteCounts(a);
      }
      if b != "" {
        LeadingByteCounts(b);
      }
    } else {
      var front, front' := a[..|a| - 1], b[..|b| - 1];
      SameDigits(DomainElement(front), a[|a| - 1] as int, DomainElement(front'), b[|b| - 1] as int);
      ElementsDetermineTexts(front, front');
      assert a == front + [a[|a| - 1]] && b == front' + [b[|b| - 1]];
    }
  }

  /** Different labels, of whatever lengths, are different elements. */
  lemma LabelsDiffer(a: string, b: string)
    requires Bytes(a) && Bytes(b)
    ensures DomainElement("kal.zk.v1/" + a) == DomainElement("kal.zk.v1/" + b) <==> a == b
  {
    var x, y := "kal.zk.v1/" + a, "kal.zk.v1/" + b;
    if DomainElement(x) == DomainElement(y) {
      assert x[0] == 'k' && y[0] == 'k';
      ElementsDetermineTexts(x, y);
      assert x[10..] == a && y[10..] == b;
    }
  }

  /** No commitment, nullifier or empty leaf stands for another purpose, and each binds its inputs. */
  lemma DomainsSeparate<F(!new)>(c: Suite<F>, s: nat, a: nat, s': nat, a': nat, audience: F, audience': F)
    requires c.Ideal()
    requires s < SECRET_SPACE && s' < SECRET_SPACE && a < SECRET_SPACE && a' < SECRET_SPACE
    ensures c.Commitment(s, a) != c.Nullifier(s', audience)
    ensures c.Commitment(s, a) != c.EmptyLeaf() && c.Nullifier(s', audience) != c.EmptyLeaf()
    ensures c.LeafNode(c.Commitment(s, a)) != c.EmptyLeaf()
    ensures c.Commitment(s, a) == c.Commitment(s', a') <==> s == s' && a == a'
    ensures c.Nullifier(s, audience) == c.Nullifier(s', audience') <==> s == s' && audience == audience'
  {
    var leaf, nullifier := "kal.zk.v1/" + "leaf", "kal.zk.v1/" + "nullifier";
    assert leaf == "kal.zk.v1/" + "lea" + ['f'] && nullifier == "kal.zk.v1/" + "nullifie" + ['r'];
    DomainElementLastByte("lea", 'f');
    DomainElementLastByte("nullifie", 'r');
    LabelsFit(leaf);
    LabelsFit(nullifier);
    assert c.Domain("leaf") != c.Domain("nullifier");
    var xs, ys := [c.Domain("leaf"), c.embed(s), c.embed(a)], [c.Domain("leaf"), c.embed(s'), c.embed(a')];
    assert xs == ys ==> xs[1] == ys[1] && xs[2] == ys[2];
    var us, vs := [c.Domain("nullifier"), c.embed(s), audience], [c.Domain("nullifier"), c.embed(s'), audience'];
    assert us == vs ==> us[1] == vs[1] && us[2] == vs[2];
    assert xs[0] != vs[0];
    var e := [c.Domain("empty")];
    assert |e| != |xs| && |e| != |vs|;
    assert [c.Commitment(s, a)][0] != e[0];
  }

  /** Digests as syntax trees: the suite in which every digest is a fresh constructor application. */
  datatype Term = Number(n: nat) | Digest(inputs: seq<Term>)

  const SYMBOLIC: Suite<Term> := Suite((xs: seq<Term>) => Digest(xs), (n: nat) => Number(n))

  lemma SymbolicIsIdeal()
    ensures SYMBOLIC.Ideal()
  {
    forall xs: seq<Term>, ys: seq<Term> | SYMBOLIC.mimc(xs) == SYMBOLIC.mimc(ys)
      ensures xs == ys
    {
      assert Digest(xs).inputs == Digest(ys).inputs;
    }
  }
}
