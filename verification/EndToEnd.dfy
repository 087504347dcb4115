/** The protocol and the credential tree together: how long a revoked credential can still be used, and for how much.
  *
  * The tree's serial history supplies the roots the protocol's tables hold; one clock times both.
  */
module EndToEnd {
  import opened Hashing
  import opened SparseTree
  import opened ClaimHolder
  import opened Protocol
  import opened ProtocolSafety
  import opened Provenance
  import opened Conservation
  import TreeTables
  import TreeHistory
  import Writers
  import Oracle

  function TreeCommits(actions: seq<Action>): nat {
    if actions == [] then 0
    else TreeCommits(actions[..|actions| - 1]) + if actions[|actions| - 1].TreeCommit? then 1 else 0
  }

  ghost predicate FollowsAt(actions: seq<Action>, history: seq<TreeHistory.Commit<Field>>, k: nat)
    requires k < |actions|
  {
    actions[k].TreeCommit? ==>
      var n := TreeCommits(actions[..k]);
      && n < |history| && actions[k].roots == history[n].tables.roots
      && history[n].committed == Run(actions[..k]).clock
  }

  /** The tree commits of the run are those of the history, in order and at their times. */
  ghost predicate Follows(actions: seq<Action>, history: seq<TreeHistory.Commit<Field>>) {
    forall k: nat :: k < |actions| ==> FollowsAt(actions, history, k)
  }

  lemma NextRoots(s: State, a: Action)
    ensures Next(s, a).db.roots == if a.TreeCommit? then a.roots else s.db.roots
  {
    hide Advance, ProofsOn, Spent, ChallengeLocked, EmailTaken, UserIdUsed, EmailLocked, SessionIdUsed, Unexpired;
  }

  /** The roots the protocol sees are those of the tree commits made so far. */
  lemma {:induction false} RootsFollow(actions: seq<Action>, history: seq<TreeHistory.Commit<Field>>, k: nat)
    requires Follows(actions, history) && k <= |actions|
    ensures TreeCommits(actions[..k]) <= |history|
    ensures Run(actions[..k]).db.roots == TreeHistory.TablesAfter(history, TreeCommits(actions[..k])).roots
  {
    hide Next;
    if k > 0 {
      RootsFollow(actions, history, k - 1);
      assert actions[..k][..k - 1] == actions[..k - 1];
      assert FollowsAt(actions, history, k - 1);
      NextRoots(Run(actions[..k - 1]), actions[k - 1]);
    }
  }

  lemma {:induction false} TreeCommitsGrow(actions: seq<Action>, j: nat, k: nat)
    requires j <= k <= |actions|
    ensures TreeCommits(actions[..j]) <= TreeCommits(actions[..k])
    decreases k
  {
    if j < k {
      TreeCommitsGrow(actions, j, k - 1);
      assert actions[..k][..k - 1] == actions[..k - 1];
    }
  }

  /** A root the tree has published, and the leaves it commits to. */
  ghost predicate PublishedAs(
    c: Suite<Field>, d: nat, history: seq<TreeHistory.Commit<Field>>, k: nat, root: Field, live: map<nat, Field>)
    requires k <= |history|
  {
    live in TreeHistory.Published(c, history, k) && TreeHistory.LeafMap(c, d, live) && Dense(c, live, d, 0) == root
  }

  /** A commitment that folds to a leaf map's root is the leaf at its index. */
  lemma LeafOfFold(c: Suite<Field>, d: nat, live: map<nat, Field>, commitment: Field, siblings: seq<Field>, index: nat)
    requires c.Ideal() && index < Pow2(d) && |siblings| == d && TreeHistory.IsCommitment(c, commitment)
    requires Fold(c, c.LeafNode(commitment), siblings, index, d) == Dense(c, live, d, 0)
    ensures index in live && live[index] == commitment
  {
    AncestorRoot(index, d);
    FoldBinds(c, live, c.LeafNode(commitment), siblings, index, d);
    LeafBinds(c, commitment, if index in live then live[index] else c.Domain("empty"));
  }

  /** A sound proof against an accepted root is about a leaf of a tree that was published: the credential committed
    * there is the one whose secret and attribute the proof knows. */
  lemma AcceptedProofHasLeaf(
    c: Suite<Field>, d: nat, history: seq<TreeHistory.Commit<Field>>, k: nat, w: Oracle.MembershipWitness<Field>)
    returns (live: map<nat, Field>)
    requires c.Ideal() && TreeHistory.Serial(c, d, history) && k <= |history|
    requires Oracle.WellTyped(d, w) && Oracle.MembershipHolds(c, d, w)
    requires w.root in TreeHistory.TablesAfter(history, k).roots
    ensures PublishedAs(c, d, history, k, w.root, live)
    ensures w.index in live && live[w.index] == c.Commitment(w.secret, w.attribute)
  {
    hide TreeHistory.Serial, TreeHistory.LeafMap, TreeHistory.Published, Dense, Fold, Pow2;
    TreeHistory.RootsArePublished(c, d, history, k, w.root);
    live :| live in TreeHistory.Published(c, history, k) && Dense(c, live, d, 0) == w.root;
    LeafOfFold(c, d, live, c.Commitment(w.secret, w.attribute), w.path[1..], w.index);
  }

  /** A root check made once the grace has passed since a revocation never finds a root over the revoked leaf: a sound
    * proof against the root it accepts is about another leaf. */
  lemma CheckedAfterRevocation(
    c: Suite<Field>, d: nat, history: seq<TreeHistory.Commit<Field>>, actions: seq<Action>, k: nat, id: nat,
    request: Request, until: int, n: nat, i: nat, w: Oracle.MembershipWitness<Field>)
    requires c.Ideal() && TreeHistory.Serial(c, d, history) && Follows(actions, history)
    requires ChecksRoot(actions, k, id, request, until)
    requires Oracle.WellTyped(d, w) && Oracle.MembershipHolds(c, d, w) && w.root == request.root
    requires TreeHistory.Revokes(history, n, i) && n < TreeCommits(actions[..k])
    requires Run(actions[..k]).clock >= history[n].committed + Run(actions[..k]).grace
    ensures w.index != i
  {
    hide TreeHistory.Serial, TreeHistory.LeafMap, TreeHistory.Published, TreeHistory.Revokes, Dense, Fold, Run, Follows;
    hide TreeCommits;
    assert k < |actions|;
    RootsFollow(actions, history, k);
    assert RootAccepted(Run(actions[..k]), request.root);
    var s, j := Run(actions[..k]), TreeCommits(actions[..k]);
    var live := AcceptedProofHasLeaf(c, d, history, j, w);
    if w.index == i {
      TreeHistory.RevocationLatency(c, d, history, n, i, live, j, s.grace, s.clock);
      assert false;
    }
  }

  ghost predicate GraceAtMost(actions: seq<Action>, from: nat, grace: int) {
    forall k: nat :: from <= k <= |actions| ==> Run(actions[..k]).grace <= grace
  }

  /** End to end: a Login or ProveClaim submitted once the grace has passed since a revocation committed never succeeds
    * with a sound proof of the revoked leaf, however requests and tree transactions interleave and whatever roots are
    * published again. */
  lemma RevokedLeafProvesNothing(
    c: Suite<Field>, d: nat, history: seq<TreeHistory.Commit<Field>>, actions: seq<Action>, a: nat, j: nat, grace: int,
    n: nat, i: nat, w: Oracle.MembershipWitness<Field>)
    requires c.Ideal() && TreeHistory.Serial(c, d, history) && Follows(actions, history)
    requires a < |Run(actions).log| && !Run(actions).log[a].request.VerifyKnowledge?
    requires Submits(actions, j, Run(actions).log[a].id, Run(actions).log[a].request)
    requires Oracle.WellTyped(d, w) && Oracle.MembershipHolds(c, d, w) && w.root == Run(actions).log[a].request.root
    requires TreeHistory.Revokes(history, n, i) && n < TreeCommits(actions[..j]) && GraceAtMost(actions, j, grace)
    requires Run(actions[..j]).clock >= history[n].committed + grace
    ensures w.index != i
  {
    hide TreeHistory.Serial, TreeHistory.Revokes, Oracle.WellTyped, Oracle.MembershipHolds, Run, Follows, TreeCommits;
    var e := Run(actions).log[a];
    SuccessesAreVouched(actions, a);
    var k: nat :| ChecksRoot(actions, k, e.id, e.request, e.started);
    SubmittedBeforeCheck(actions, j, k, e.id, e.request, e.started);
    RunGrows(actions, j, k);
    TreeCommitsGrow(actions, j, k);
    CheckedAfterRevocation(c, d, history, actions, k, e.id, e.request, e.started, n, i, w);
  }

  /** The same with the tree's transactions interleaved as well, statement by statement. */
  lemma RevokedLeafProvesNothingOverRuns(
    c: Suite<Field>, d: nat, writers: seq<Writers.Action>, actions: seq<Action>, a: nat, j: nat, grace: int,
    n: nat, i: nat, w: Oracle.MembershipWitness<Field>)
    requires c.Ideal() && Follows(actions, Writers.Run(c, d, writers).history)
    requires a < |Run(actions).log| && !Run(actions).log[a].request.VerifyKnowledge?
    requires Submits(actions, j, Run(actions).log[a].id, Run(actions).log[a].request)
    requires Oracle.WellTyped(d, w) && Oracle.MembershipHolds(c, d, w) && w.root == Run(actions).log[a].request.root
    requires TreeHistory.Revokes(Writers.Run(c, d, writers).history, n, i)
    requires n < TreeCommits(actions[..j]) && GraceAtMost(actions, j, grace)
    requires Run(actions[..j]).clock >= Writers.Run(c, d, writers).history[n].committed + grace
    ensures w.index != i
  {
    hide *;
    Writers.EveryRunIsSerial(c, d, writers);
    RevokedLeafProvesNothing(c, d, Writers.Run(c, d, writers).history, actions, a, j, grace, n, i, w);
  }

  // ---------------------------------------------------------------- one action per credential

  /** The witness of a sound proof: valid, and for what the success made public. */
  ghost predicate Sound(c: Suite<Field>, d: nat, e: Success, w: Oracle.MembershipWitness<Field>) {
    && Oracle.WellTyped(d, w) && Oracle.MembershipHolds(c, d, w) && !e.request.VerifyKnowledge?
    && w.root == e.request.root && w.nullifier == e.request.nullifier && w.audience == e.policy.audience
  }

  ghost predicate SoundlyProved(c: Suite<Field>, d: nat, e: Success) {
    exists w :: Sound(c, d, e, w)
  }

  /** The credentials issued by the tree commits of the run. */
  ghost function Issued(history: seq<TreeHistory.Commit<Field>>, actions: seq<Action>)
    : map<nat, TreeTables.Credential<Field>>
    requires TreeCommits(actions) <= |history|
  {
    TreeHistory.TablesAfter(history, TreeCommits(actions)).credentials
  }

  lemma AllFollowed(actions: seq<Action>, history: seq<TreeHistory.Commit<Field>>)
    requires Follows(actions, history)
    ensures TreeCommits(actions) <= |history|
  {
    hide Follows, Run, TreeCommits;
    RootsFollow(actions, history, |actions|);
    assert actions[..|actions|] == actions;
  }

  lemma CheckedInTime(actions: seq<Action>, k: nat, id: nat, request: Request, until: int)
    requires ChecksRoot(actions, k, id, request, until)
    ensures k < |actions| && request.root in Run(actions[..k]).db.roots
  {
    hide Run;
  }

  /** A success with a sound proof used a credential that had been issued, under the commitment of its own secret and
    * attribute. */
  lemma SoundProofsAreOfCredentials(
    c: Suite<Field>, d: nat, history: seq<TreeHistory.Commit<Field>>, actions: seq<Action>, a: nat,
    w: Oracle.MembershipWitness<Field>)
    requires c.Ideal() && TreeHistory.Serial(c, d, history) && Follows(actions, history)
    requires a < |Run(actions).log| && Sound(c, d, Run(actions).log[a], w)
    ensures TreeCommits(actions) <= |history| && w.index in Issued(history, actions)
    ensures Issued(history, actions)[w.index].commitment == c.Commitment(w.secret, w.attribute)
  {
    hide TreeHistory.Serial, TreeHistory.LeafMap, TreeHistory.Published, TreeHistory.TablesAfter, Oracle.WellTyped;
    hide Oracle.MembershipHolds, Dense, Run, Follows, StepsAt, TreeCommits;
    var e := Run(actions).log[a];
    SuccessesAreVouched(actions, a);
    var k: nat :| ChecksRoot(actions, k, e.id, e.request, e.started);
    AllFollowed(actions, history);
    CheckedInTime(actions, k, e.id, e.request, e.started);
    RootsFollow(actions, history, k);
    assert actions[..|actions|] == actions;
    TreeCommitsGrow(actions, k, |actions|);
    var j := TreeCommits(actions[..k]);
    var live := AcceptedProofHasLeaf(c, d, history, j, w);
    TreeHistory.PublishedHasRows(c, d, history, j, live);
    TreeHistory.HistoryExtends(c, d, history, j, TreeCommits(actions));
  }

  ghost predicate Opens(c: Suite<Field>, commitment: Field, secret: nat, attribute: nat) {
    secret < SECRET_SPACE && attribute < Pow2(64) && commitment == c.Commitment(secret, attribute)
  }

  /** The secret a commitment was made with. */
  ghost function SecretOf(c: Suite<Field>, commitment: Field): (secret: nat)
    ensures (exists s: nat, attribute: nat :: Opens(c, commitment, s, attribute)) ==>
              exists attribute: nat :: Opens(c, commitment, secret, attribute)
  {
    if secret: nat, attribute: nat :| Opens(c, commitment, secret, attribute) then secret else 0
  }

  lemma SecretIs(c: Suite<Field>, commitment: Field, secret: nat, attribute: nat)
    requires c.Ideal() && Opens(c, commitment, secret, attribute)
    ensures SecretOf(c, commitment) == secret
  {
    Oracle.Pow2Is64();
    var secret' := SecretOf(c, commitment);
    var attribute': nat :| Opens(c, commitment, secret', attribute');
    hide Pow2, SecretOf;
    DomainsSeparate(c, secret, attribute, secret', attribute', commitment, commitment);
  }

  ghost function Secrets(c: Suite<Field>, rows: map<nat, TreeTables.Credential<Field>>): set<nat> {
    set i | i in rows :: SecretOf(c, rows[i].commitment)
  }

  lemma {:induction false} SecretsAreFew(c: Suite<Field>, rows: map<nat, TreeTables.Credential<Field>>)
    ensures |Secrets(c, rows)| <= |rows|
    decreases |rows|
  {
    hide SecretOf;
    if i :| i in rows {
      var rest := rows - {i};
      assert |rest| == |rows| - 1 by {
        assert rest.Keys == rows.Keys - {i};
      }
      SecretsAreFew(c, rest);
      var more := Secrets(c, rest) + {SecretOf(c, rows[i].commitment)};
      forall s | s in Secrets(c, rows)
        ensures s in more
      {
        var j :| j in rows && s == SecretOf(c, rows[j].commitment);
        assert j == i || (j in rest && rest[j] == rows[j]);
      }
      SubsetSize(Secrets(c, rows), more);
    }
  }

  /** Every burn of these claims was for the audience, with a sound proof. */
  ghost predicate SoundBurns(c: Suite<Field>, d: nat, log: seq<Success>, claims: seq<string>, audience: Field) {
    forall a: nat :: a < |log| && Burn(log[a]) && log[a].request.claim in claims ==>
      log[a].policy.audience == audience && SoundlyProved(c, d, log[a])
  }

  lemma SecretIsListed(
    c: Suite<Field>, d: nat, rows: map<nat, TreeTables.Credential<Field>>, w: Oracle.MembershipWitness<Field>)
    requires c.Ideal() && Oracle.WellTyped(d, w) && w.index in rows
    requires rows[w.index].commitment == c.Commitment(w.secret, w.attribute)
    ensures w.secret in Secrets(c, rows)
  {
    hide SecretOf, Pow2;
    SecretIs(c, rows[w.index].commitment, w.secret, w.attribute);
  }

  /** A sound proof's nullifier is that of an issued credential's secret. */
  lemma ProofIsOfSecret(
    c: Suite<Field>, d: nat, history: seq<TreeHistory.Commit<Field>>, actions: seq<Action>, a: nat)
    requires c.Ideal() && TreeHistory.Serial(c, d, history) && Follows(actions, history)
    requires a < |Run(actions).log| && SoundlyProved(c, d, Run(actions).log[a])
    ensures TreeCommits(actions) <= |history|
    ensures var e := Run(actions).log[a];
            !e.request.VerifyKnowledge?
            && e.request.nullifier in Nullifiers(c, Secrets(c, Issued(history, actions)), e.policy.audience)
  {
    hide Run, TreeHistory.Serial, Follows, TreeCommits, Issued, Secrets, Oracle.WellTyped;
    var w :| Sound(c, d, Run(actions).log[a], w);
    SoundProofsAreOfCredentials(c, d, history, actions, a, w);
    SecretIsListed(c, d, Issued(history, actions), w);
    assert w.nullifier == c.Nullifier(w.secret, w.audience) by {
      hide Fold;
    }
  }

  lemma BurnedByClaim(log: seq<Success>, claims: seq<string>, n: Field) returns (a: nat)
    requires n in BurnedFor(log, claims)
    ensures a < |log| && Burn(log[a]) && log[a].request.claim in claims && log[a].request.nullifier == n
  {
    hide BurnedFor;
    var b: nat :| b < |claims| && n in BurnedNullifiers(log, claims[b]);
    a :| a < |log| && BurnsFor(log[a], claims[b]) && log[a].request.nullifier == n;
  }

  lemma BurnsAreOfSecrets(
    c: Suite<Field>, d: nat, history: seq<TreeHistory.Commit<Field>>, actions: seq<Action>, claims: seq<string>,
    audience: Field)
    requires c.Ideal() && TreeHistory.Serial(c, d, history) && Follows(actions, history)
    requires SoundBurns(c, d, Run(actions).log, claims, audience)
    ensures TreeCommits(actions) <= |history|
    ensures BurnedFor(Run(actions).log, claims) <= Nullifiers(c, Secrets(c, Issued(history, actions)), audience)
  {
    hide Run, TreeHistory.Serial, Follows, TreeCommits, Issued, Secrets, SoundlyProved, BurnedFor, Nullifiers, Burn;
    AllFollowed(actions, history);
    forall n | n in BurnedFor(Run(actions).log, claims)
      ensures n in Nullifiers(c, Secrets(c, Issued(history, actions)), audience)
    {
      var a := BurnedByClaim(Run(actions).log, claims, n);
      ProofIsOfSecret(c, d, history, actions, a);
    }
  }

  /** One credential in one audience buys at most one action, however many claims share the audience: with sound proofs,
    * the allowances of all these claims consumed are together no more than the credentials ever issued. */
  lemma OneActionPerCredential(
    c: Suite<Field>, d: nat, history: seq<TreeHistory.Commit<Field>>, actions: seq<Action>, claims: seq<string>,
    audience: Field)
    requires c.Ideal() && TreeHistory.Serial(c, d, history) && Follows(actions, history)
    requires DistinctClaims(claims) && forall claim :: claim in claims ==> Settled(actions, claim)
    requires SoundBurns(c, d, Run(actions).log, claims, audience)
    ensures TreeCommits(actions) <= |history|
    ensures ConsumedOf(Run(actions).consumed, claims) <= |Issued(history, actions)|
  {
    hide Run, TreeHistory.Serial, Follows, TreeCommits, Issued, Settled, SoundBurns, Secrets, BurnedFor, Nullifiers;
    BurnsAreOfSecrets(c, d, history, actions, claims, audience);
    OneActionPerSecret(actions, claims, c, Secrets(c, Issued(history, actions)), audience);
    SecretsAreFew(c, Issued(history, actions));
  }

  lemma OneActionPerCredentialOverRuns(
    c: Suite<Field>, d: nat, writers: seq<Writers.Action>, actions: seq<Action>, claims: seq<string>, audience: Field)
    requires c.Ideal() && Follows(actions, Writers.Run(c, d, writers).history)
    requires DistinctClaims(claims) && forall claim :: claim in claims ==> Settled(actions, claim)
    requires SoundBurns(c, d, Run(actions).log, claims, audience)
    ensures TreeCommits(actions) <= |Writers.Run(c, d, writers).history|
    ensures ConsumedOf(Run(actions).consumed, claims) <= |Issued(Writers.Run(c, d, writers).history, actions)|
  {
    hide *;
    Writers.EveryRunIsSerial(c, d, writers);
    OneActionPerCredential(c, d, Writers.Run(c, d, writers).history, actions, claims, audience);
  }
}
