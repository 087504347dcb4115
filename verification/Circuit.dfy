/** The membership circuit of zkauthn/circuits.go as constraints over the BN254 scalar field, against the oracle.
  *
  * Gadgets of the proof library are modelled by their contract: ToBinary(x, n) constrains n boolean wires to sum
  * to x in the field, the Merkle gadget decomposes the index into depth bits and hashes the leaf once before
  * combining siblings, and the bounded comparator constrains the field difference to 64 bits. Wires that only the
  * prover supplies are the `Hints`.
  */
module Circuit {
  import opened Hashing
  import opened SparseTree
  import opened Oracle

  const R: nat := 21888242871839275222246405745257275088548364400416034343698204186575808495617

  type Fr = x: nat | x < R

  // ---------------------------------------------------------------- the sponge

  type Absorb = (Fr, Fr) -> Fr

  function Chain(absorb: Absorb, h: Fr, data: seq<Fr>): Fr
    decreases |data|
  {
    if data == [] then h else Chain(absorb, absorb(h, data[0]), data[1..])
  }

  /** MiMC over the field for an arbitrary one-block step. */
  function Native(absorb: Absorb): Suite<Fr> {
    Suite((xs: seq<Fr>) => Chain(absorb, 0, xs), (n: nat) => (n % R) as Fr)
  }

  /** The in-circuit hasher. Sum absorbs the buffered blocks but keeps the chaining value; only Reset clears it. */
  class Hasher {
    const absorb: Absorb
    var h: Fr
    var data: seq<Fr>

    constructor (absorb: Absorb)
      ensures this.absorb == absorb && h == 0 && data == []
    {
      this.absorb, h, data := absorb, 0, [];
    }

    method Write(xs: seq<Fr>)
      modifies this
      ensures h == old(h) && data == old(data) + xs
    {
      data := data + xs;
    }

    method Sum() returns (sum: Fr)
      modifies this
      ensures sum == h == Chain(absorb, old(h), old(data)) && data == []
    {
      while data != []
        invariant Chain(absorb, h, data) == Chain(absorb, old(h), old(data))
        decreases |data|
      {
        h := absorb(h, data[0]);
        data := data[1..];
      }
      sum := h;
    }

    method Reset()
      modifies this
      ensures h == 0 && data == []
    {
      h, data := 0, [];
    }
  }

  // ---------------------------------------------------------------- bits

  /** Little-endian value of boolean wires. */
  function BitsValue(bits: seq<bool>): nat {
    if bits == [] then 0 else (if bits[0] then 1 else 0) + 2 * BitsValue(bits[1..])
  }

  predicate Decomposes(x: Fr, bits: seq<bool>, n: nat) {
    |bits| == n && BitsValue(bits) % R == x
  }

  lemma {:induction false} BitsBound(bits: seq<bool>)
    ensures BitsValue(bits) < Pow2(|bits|)
  {
    if bits != [] {
      BitsBound(bits[1..]);
    }
  }

  function ToBits(x: nat, n: nat): (bits: seq<bool>)
    ensures |bits| == n
  {
    if n == 0 then [] else [x % 2 == 1] + ToBits(x / 2, n - 1)
  }

  lemma {:induction false} ToBitsValue(x: nat, n: nat)
    requires x < Pow2(n)
    ensures BitsValue(ToBits(x, n)) == x
  {
    if n > 0 {
      ToBitsValue(x / 2, n - 1);
      assert ToBits(x, n)[1..] == ToBits(x / 2, n - 1);
    }
  }

  lemma BitsDoNotWrap(x: Fr, bits: seq<bool>, n: nat)
    requires Pow2(n) <= R && Decomposes(x, bits, n)
    ensures BitsValue(bits) == x < Pow2(n)
  {
    BitsBound(bits);
    hide BitsValue, Pow2;
  }

  lemma BitsExist(x: Fr, n: nat)
    requires x < Pow2(n)
    ensures Decomposes(x, ToBits(x, n), n)
  {
    ToBitsValue(x, n);
    hide BitsValue, ToBits, Pow2;
  }

  /** A range check without wrap-around: the wires exist exactly for values of that many bits. */
  lemma RangeCheck(x: Fr, n: nat)
    requires Pow2(n) <= R
    ensures forall bits :: Decomposes(x, bits, n) ==> BitsValue(bits) == x < Pow2(n)
    ensures x < Pow2(n) ==> Decomposes(x, ToBits(x, n), n)
  {
    hide Decomposes, BitsValue, ToBits, Pow2;
    forall bits | Decomposes(x, bits, n)
      ensures BitsValue(bits) == x < Pow2(n)
    {
      BitsDoNotWrap(x, bits, n);
    }
    if x < Pow2(n) {
      BitsExist(x, n);
    }
  }

  lemma BitsHead(bits: seq<bool>)
    requires bits != []
    ensures BitsValue(bits) / 2 == BitsValue(bits[1..])
    ensures bits[0] <==> BitsValue(bits) % 2 == 1
  {
    assert BitsValue(bits) == (if bits[0] then 1 else 0) + 2 * BitsValue(bits[1..]);
    hide *;
  }

  /** Bit l of a value is the parity of the value shifted right by l. */
  lemma {:induction false} BitsAreShifts(bits: seq<bool>, l: nat)
    requires l < |bits|
    ensures bits[l] <==> Ancestor(BitsValue(bits), l) % 2 == 1
  {
    hide *;
    BitsHead(bits);
    if l == 0 {
      AncestorBase(BitsValue(bits));
    } else {
      BitsAreShifts(bits[1..], l - 1);
      AncestorHalves(BitsValue(bits), l - 1);
    }
  }

  /** Subtraction in the field. */
  function Minus(a: Fr, b: Fr): Fr {
    (a - b) % R
  }

  /** With both operands range-checked, a field difference of 64 bits is an integer comparison. */
  lemma ComparisonIsInteger(a: Fr, b: Fr)
    requires a < Pow2(64) && b < Pow2(64)
    ensures Minus(a, b) < Pow2(64) <==> b <= a
  {
    Pow2Is64();
    if b <= a {
      assert Minus(a, b) == a - b;
    } else {
      assert Minus(a, b) == R + a - b;
    }
  }

  // ---------------------------------------------------------------- the constraint system

  datatype Assignment = Assignment(
    root: Fr, audience: Fr, threshold: Fr, nullifier: Fr, challenge: Fr, secret: Fr, attribute: Fr,
    path: seq<Fr>, index: Fr)

  datatype Hints = Hints(
    attributeBits: seq<bool>, thresholdBits: seq<bool>, indexBits: seq<bool>, differenceBits: seq<bool>)

  /** The Merkle gadget: hash the leaf once, then select the operand order by each index bit. */
  function MerkleFold(absorb: Absorb, path: seq<Fr>, bits: seq<bool>, level: nat): Fr
    requires level <= |bits| < |path|
  {
    if level == 0 then Chain(absorb, 0, [path[0]])
    else
      var sum := MerkleFold(absorb, path, bits, level - 1);
      if bits[level - 1] then Chain(absorb, 0, [path[level], sum]) else Chain(absorb, 0, [sum, path[level]])
  }

  ghost predicate Satisfies(absorb: Absorb, d: nat, a: Assignment, hints: Hints) {
    && |a.path| == d + 1
    && Decomposes(a.attribute, hints.attributeBits, 64)
    && Decomposes(a.threshold, hints.thresholdBits, 64)
    && a.path[0] == Chain(absorb, 0, [Native(absorb).Domain("leaf"), a.secret, a.attribute])
    && Decomposes(a.index, hints.indexBits, d)
    && MerkleFold(absorb, a.path, hints.indexBits, d) == a.root
    && Decomposes(Minus(a.attribute, a.threshold), hints.differenceBits, 64)
    && a.nullifier == Chain(absorb, 0, [Native(absorb).Domain("nullifier"), a.secret, a.audience])
  }

  ghost predicate CircuitHolds(absorb: Absorb, d: nat, a: Assignment) {
    exists hints :: Satisfies(absorb, d, a, hints)
  }

  method VerifyProof(h: Hasher, path: seq<Fr>, bits: seq<bool>) returns (root: Fr)
    requires |path| == |bits| + 1
    modifies h
    ensures root == MerkleFold(h.absorb, path, bits, |bits|)
  {
    h.Reset();
    h.Write([path[0]]);
    root := h.Sum();
    assert [] + [path[0]] == [path[0]];
    for level := 0 to |bits|
      invariant root == MerkleFold(h.absorb, path, bits, level)
    {
      var left, right := if bits[level] then path[level + 1] else root, if bits[level] then root else path[level + 1];
      h.Reset();
      h.Write([left, right]);
      assert [] + [left, right] == [left, right];
      root := h.Sum();
    }
  }

  /** Define, driving one hasher through all three hashes; true when every constraint is met. */
  method Define(absorb: Absorb, d: nat, a: Assignment, hints: Hints) returns (satisfied: bool)
    ensures satisfied <==> Satisfies(absorb, d, a, hints)
  {
    if |a.path| != d + 1 || |hints.indexBits| != d {
      return false;
    }
    satisfied := Decomposes(a.attribute, hints.attributeBits, 64);
    satisfied := satisfied && Decomposes(a.threshold, hints.thresholdBits, 64);

    var h := new Hasher(absorb);
    var block := [Native(absorb).Domain("leaf"), a.secret, a.attribute];
    assert [] + block == block;
    h.Write(block);
    var leaf := h.Sum();
    satisfied := satisfied && leaf == a.path[0];

    var root := VerifyProof(h, a.path, hints.indexBits);
    satisfied := satisfied && Decomposes(a.index, hints.indexBits, d) && root == a.root;

    satisfied := satisfied && Decomposes(Minus(a.attribute, a.threshold), hints.differenceBits, 64);
    h.Reset();
    block := [Native(absorb).Domain("nullifier"), a.secret, a.audience];
    assert [] + block == block;
    h.Write(block);
    var nullifier := h.Sum();
    satisfied := satisfied && nullifier == a.nullifier;
  }

  // ---------------------------------------------------------------- circuit and oracle

  /** The assignment method of the witness. */
  ghost function Assign(d: nat, w: MembershipWitness<Fr>): Assignment
    requires WellTyped(d, w) && Pow2(d) <= R
  {
    Pow2Is64();
    Assignment(w.root, w.audience, w.threshold, w.nullifier, w.challenge, w.secret, w.attribute, w.path, w.index)
  }

  lemma {:induction false} GadgetFoldsLikeOracle(absorb: Absorb, path: seq<Fr>, bits: seq<bool>, level: nat)
    requires |path| == |bits| + 1 && level <= |bits|
    ensures MerkleFold(absorb, path, bits, level)
         == Fold(Native(absorb), Native(absorb).LeafNode(path[0]), path[1..], BitsValue(bits), level)
  {
    if level > 0 {
      GadgetFoldsLikeOracle(absorb, path, bits, level - 1);
      BitsAreShifts(bits, level - 1);
    }
  }

  /** The statement of the circuit with its wires eliminated. */
  ghost predicate Statement(absorb: Absorb, d: nat, a: Assignment) {
    && a.attribute < Pow2(64) && a.threshold < Pow2(64) && a.index < Pow2(d) && |a.path| == d + 1
    && a.path[0] == Chain(absorb, 0, [Native(absorb).Domain("leaf"), a.secret, a.attribute])
    && a.threshold <= a.attribute
    && a.nullifier == Chain(absorb, 0, [Native(absorb).Domain("nullifier"), a.secret, a.audience])
    && Fold(Native(absorb), Native(absorb).LeafNode(a.path[0]), a.path[1..], a.index, d) == a.root
  }

  lemma BitsLength(x: Fr, bits: seq<bool>, n: nat)
    requires Decomposes(x, bits, n)
    ensures |bits| == n
  {
  }

  /** Constraints and statement agree on every assignment. */
  lemma CircuitIsStatement(absorb: Absorb, d: nat, a: Assignment)
    requires Pow2(d) <= R
    ensures CircuitHolds(absorb, d, a) <==> Statement(absorb, d, a)
  {
    hide Decomposes, Fold, MerkleFold, Chain, DomainElement, BitsValue, ToBits, Minus, Pow2;
    Pow2Is64();
    RangeCheck(a.attribute, 64);
    RangeCheck(a.threshold, 64);
    RangeCheck(a.index, d);
    RangeCheck(Minus(a.attribute, a.threshold), 64);
    if hints :| Satisfies(absorb, d, a, hints) {
      ComparisonIsInteger(a.attribute, a.threshold);
      BitsLength(a.index, hints.indexBits, d);
      GadgetFoldsLikeOracle(absorb, a.path, hints.indexBits, d);
    }
    if Statement(absorb, d, a) {
      ComparisonIsInteger(a.attribute, a.threshold);
      var indexBits := ToBits(a.index, d);
      GadgetFoldsLikeOracle(absorb, a.path, indexBits, d);
      assert Satisfies(absorb, d, a, Hints(ToBits(a.attribute, 64), ToBits(a.threshold, 64), indexBits,
                                           ToBits(Minus(a.attribute, a.threshold), 64)));
    }
  }

  /** Circuit equals oracle over the whole field: the assignments that satisfy the circuit with a secret of at most 31
    * bytes are exactly those of the witnesses the oracle accepts. */
  lemma CircuitEqualsOracle(absorb: Absorb, d: nat, a: Assignment)
    requires Pow2(d) <= R
    ensures CircuitHolds(absorb, d, a) && a.secret < SECRET_SPACE <==>
            exists w :: WellTyped(d, w) && Assign(d, w) == a && MembershipHolds(Native(absorb), d, w)
  {
    hide CircuitHolds, Fold, Chain, DomainElement, Pow2;
    CircuitIsStatement(absorb, d, a);
    Pow2Is64();
    if CircuitHolds(absorb, d, a) && a.secret < SECRET_SPACE {
      var w := MembershipWitness(
        a.secret, a.attribute, a.path, a.index, a.root, a.audience, a.threshold, a.nullifier, a.challenge);
      assert WellTyped(d, w) && Assign(d, w) == a && MembershipHolds(Native(absorb), d, w);
    }
  }

  /** The bound on the secret is not the circuit's own: every field element serves as a secret for some satisfied
    * assignment, whatever the attribute, threshold below it, index, siblings and audience. */
  lemma CircuitTakesAnySecret(
    absorb: Absorb, d: nat, secret: Fr, attribute: Fr, threshold: Fr, index: Fr, siblings: seq<Fr>, audience: Fr,
    challenge: Fr)
    returns (a: Assignment)
    requires Pow2(d) <= R && threshold <= attribute < Pow2(64) && index < Pow2(d) && |siblings| == d
    ensures CircuitHolds(absorb, d, a)
    ensures a.secret == secret && a.attribute == attribute && a.threshold == threshold && a.index == index
    ensures |a.path| == d + 1 && a.path[1..] == siblings && a.audience == audience && a.challenge == challenge
  {
    var leaf := Chain(absorb, 0, [Native(absorb).Domain("leaf"), secret, attribute]);
    var nullifier := Chain(absorb, 0, [Native(absorb).Domain("nullifier"), secret, audience]);
    var root := Fold(Native(absorb), Native(absorb).LeafNode(leaf), siblings, index, d);
    hide CircuitHolds, Fold, Chain, DomainElement, Pow2;
    a := Assignment(root, audience, threshold, nullifier, challenge, secret, attribute, [leaf] + siblings, index);
    assert a.path[1..] == siblings;
    CircuitIsStatement(absorb, d, a);
  }

  /** The deployed depth fits the field. */
  lemma DeployedDepthFits()
    ensures Pow2(MERKLE_DEPTH) == 0x1_0000_0000 <= R
  {
    Pow2Is64();
  }
}
