/** That the hypotheses of the end-to-end theorems are met together: by the program's own 32-byte encoding of field
  * elements, at every depth, in runs where the tree changes and a proof succeeds afterwards.
  */
module Instances {
  import opened Hashing
  import opened SparseTree
  import opened Encoding
  import opened ClaimHolder
  import opened Tokens
  import opened Protocol
  import opened Provenance
  import opened Progress
  import opened EndToEnd
  import TreeTables
  import TreeHistory
  import PathReader
  import Oracle
  import Circuit

  // ---------------------------------------------------------------- digests that can be read back

  /** A byte string with its end marked, so that it can be read back from a longer text. */
  function Marked(x: Field): (text: Field)
    ensures |text| == 2 * |x| + 1
  {
    if x == [] then [0] else [1, x[0]] + Marked(x[1..])
  }

  function AllMarked(xs: seq<Field>): Field {
    if xs == [] then [] else Marked(xs[0]) + AllMarked(xs[1..])
  }

  function Digest(xs: seq<Field>): Field {
    [255] + AllMarked(xs)
  }

  lemma {:induction false} MarkedReadsBack(x: Field, rest: Field, x': Field, rest': Field)
    requires Marked(x) + rest == Marked(x') + rest'
    ensures x == x' && rest == rest'
  {
    var text, text' := Marked(x) + rest, Marked(x') + rest';
    if x != [] && x' != [] {
      assert text[0] == 1 && text[1] == x[0] && text[2..] == Marked(x[1..]) + rest;
      assert text'[0] == 1 && text'[1] == x'[0] && text'[2..] == Marked(x'[1..]) + rest';
      MarkedReadsBack(x[1..], rest, x'[1..], rest');
      assert x == [x[0]] + x[1..] && x' == [x'[0]] + x'[1..];
    } else {
      assert text[0] == (if x == [] then 0 else 1) && text'[0] == (if x' == [] then 0 else 1);
      assert text[1..] == rest && text'[1..] == rest';
    }
  }

  lemma MarkedIsLong(xs: seq<Field>)
    ensures xs != [] ==> AllMarked(xs) != []
  {
  }

  lemma {:induction false} AllMarkedInjective(xs: seq<Field>, ys: seq<Field>)
    requires AllMarked(xs) == AllMarked(ys)
    ensures xs == ys
  {
    hide Marked;
    MarkedIsLong(xs);
    MarkedIsLong(ys);
    if xs != [] && ys != [] {
      MarkedReadsBack(xs[0], AllMarked(xs[1..]), ys[0], AllMarked(ys[1..]));
      AllMarkedInjective(xs[1..], ys[1..]);
      assert xs == [xs[0]] + xs[1..] && ys == [ys[0]] + ys[1..];
    }
  }

  lemma DigestInjective(xs: seq<Field>, ys: seq<Field>)
    ensures Digest(xs) == Digest(ys) <==> xs == ys
  {
    if Digest(xs) == Digest(ys) {
      assert Digest(xs)[1..] == AllMarked(xs) && Digest(ys)[1..] == AllMarked(ys);
      AllMarkedInjective(xs, ys);
    }
  }

  lemma Scaled(b: nat, p: nat)
    ensures b * p * 256 == b * (256 * p)
  {
  }

  lemma {:induction false} TopByte(raw: Field)
    requires raw != []
    ensures BigEndian(raw) >= raw[0] * Pow256(|raw| - 1)
  {
    if |raw| == 1 {
      assert raw[..0] == [];
    } else {
      TopByte(raw[..|raw| - 1]);
      Scaled(raw[0], Pow256(|raw| - 2));
    }
  }

  lemma TopByteTooBig()
    ensures 255 * SECRET_SPACE >= Circuit.R
  {
  }

  /** None of these digests is a canonical field element. */
  lemma DigestIsNoElement(xs: seq<Field>, n: nat)
    ensures Digest(xs) != ElementBytes(n)
  {
    ElementsRoundTrip(n, []);
    hide BigEndian, Digits, Pow256, AllMarked, Circuit.R;
    if |Digest(xs)| == 32 {
      TopByte(Digest(xs));
      Pow256Of31();
      TopByteTooBig();
    }
  }

  // ---------------------------------------------------------------- a hash on the program's encoding

  /** The digests above, except that two chosen inputs hash to canonical field elements. */
  function Named(root: seq<Field>, nullifier: seq<Field>): Suite<Field> {
    Suite((xs: seq<Field>) =>
            if xs == root then ElementBytes(1) else if xs == nullifier then ElementBytes(2) else Digest(xs),
          (n: nat) => ElementBytes(n))
  }

  lemma ElementsApart(m: nat, n: nat)
    ensures ElementBytes(m) == ElementBytes(n) <==> m % Circuit.R == n % Circuit.R
  {
    ElementsRoundTrip(m, []);
    ElementsRoundTrip(n, []);
    hide BigEndian, Digits, Circuit.R;
  }

  lemma SmallElementsApart(m: nat, n: nat)
    requires m < SECRET_SPACE && n < SECRET_SPACE
    ensures ElementBytes(m) == ElementBytes(n) <==> m == n
  {
    ElementsApart(m, n);
    ModulusFits();
    hide ElementBytes, Pow256;
  }

  lemma EmptyLabel()
    ensures var n := DomainElement("kal.zk.v1/" + "empty"); 2 < n < SECRET_SPACE
  {
    DomainElementLastByte("empt", 'y');
    assert "kal.zk.v1/" + "empty" == "kal.zk.v1/" + "empt" + ['y'];
    LabelsFit("kal.zk.v1/" + "empty");
    hide DomainElement;
  }

  lemma NamedDigests(root: seq<Field>, nullifier: seq<Field>, xs: seq<Field>, ys: seq<Field>)
    requires root != nullifier
    ensures var c := Named(root, nullifier); c.mimc(xs) == c.mimc(ys) <==> xs == ys
  {
    SmallElementsApart(1, 2);
    DigestInjective(xs, ys);
    forall zs: seq<Field>
      ensures Digest(zs) != ElementBytes(1) && Digest(zs) != ElementBytes(2)
    {
      DigestIsNoElement(zs, 1);
      DigestIsNoElement(zs, 2);
    }
    hide Digest, ElementBytes;
  }

  lemma NamedIsNotEmpty(root: seq<Field>, nullifier: seq<Field>, xs: seq<Field>)
    ensures var c := Named(root, nullifier); c.mimc(xs) != c.Domain("empty")
  {
    var n := DomainElement("kal.zk.v1/" + "empty");
    EmptyLabel();
    SmallElementsApart(1, n);
    SmallElementsApart(2, n);
    DigestIsNoElement(xs, n);
    hide Digest, ElementBytes, DomainElement;
  }

  /** It is ideal, and its embedding of integers is the program's. */
  lemma NamedIsIdeal(root: seq<Field>, nullifier: seq<Field>)
    requires root != nullifier
    ensures Named(root, nullifier).Ideal()
    ensures forall n: nat :: Named(root, nullifier).embed(n) == ElementBytes(n)
  {
    var c := Named(root, nullifier);
    forall xs: seq<Field>, ys: seq<Field> | c.mimc(xs) == c.mimc(ys)
      ensures xs == ys
    {
      NamedDigests(root, nullifier, xs, ys);
    }
    forall xs: seq<Field>
      ensures c.mimc(xs) != c.Domain("empty")
    {
      NamedIsNotEmpty(root, nullifier, xs);
    }
    forall m: nat, n: nat | m < SECRET_SPACE && n < SECRET_SPACE && c.embed(m) == c.embed(n)
      ensures m == n
    {
      SmallElementsApart(m, n);
    }
  }

  // ---------------------------------------------------------------- its tree of one leaf

  const PLAIN: Suite<Field> := Suite((xs: seq<Field>) => Digest(xs), (n: nat) => ElementBytes(n))

  const AUDIENCE: Field := ElementBytes(3)

  function OneLeaf(c: Suite<Field>): map<nat, Field> {
    map[0 := c.Commitment(1, 0)]
  }

  function NullifierInputs(): seq<Field> {
    [PLAIN.Domain("nullifier"), PLAIN.embed(1), AUDIENCE]
  }

  /** What the root of the one-leaf tree hashes. */
  function RootInputs(d: nat): seq<Field>
    requires d > 0
  {
    [Dense(PLAIN, OneLeaf(PLAIN), d - 1, 0), Dense(PLAIN, OneLeaf(PLAIN), d - 1, 1)]
  }

  /** The suite in which the root of the one-leaf tree and that leaf's nullifier are canonical. */
  function Code(d: nat): Suite<Field>
    requires d > 0
  {
    Named(RootInputs(d), NullifierInputs())
  }

  lemma {:induction false} ZeroGrows(l: nat, m: nat)
    requires l < m
    ensures |Zero(PLAIN, l)| < |Zero(PLAIN, m)|
  {
    var z := Zero(PLAIN, m - 1);
    assert AllMarked([z, z]) == Marked(z) + AllMarked([z]) by {
      assert [z, z][1..] == [z];
    }
    if l < m - 1 {
      ZeroGrows(l, m - 1);
    }
  }

  /** Beside the leaf's path the tree is empty. */
  lemma OddIsZero(level: nat, idx: nat)
    requires idx % 2 == 1
    ensures Dense(PLAIN, OneLeaf(PLAIN), level, idx) == Zero(PLAIN, level)
  {
    hide Dense, Zero;
    AncestorOfZero(level);
    assert !HasLeafUnder(OneLeaf(PLAIN), level, idx);
    NoLeafIsZero(PLAIN, OneLeaf(PLAIN), level, idx);
  }

  lemma SameLeaf(d: nat)
    requires d > 0
    ensures Code(d).Commitment(1, 0) == PLAIN.Commitment(1, 0)
  {
    var inputs := [PLAIN.Domain("leaf"), PLAIN.embed(1), PLAIN.embed(0)];
    SmallElementsApart(0, 3);
    assert inputs[2] != NullifierInputs()[2];
    assert |inputs| != |RootInputs(d)|;
  }

  /** Two inputs that are not those of the root hash alike. */
  lemma SameParent(d: nat, left: Field, right: Field)
    requires d > 0 && right != RootInputs(d)[1]
    ensures Code(d).Parent(left, right) == PLAIN.Parent(left, right)
  {
    hide Digest, ElementBytes, Dense;
    assert [left, right][1] != RootInputs(d)[1];
    assert |[left, right]| != |NullifierInputs()|;
  }

  lemma RootInputsAreTwo(d: nat)
    requires d > 0
    ensures |RootInputs(d)| == 2 && RootInputs(d)[1] == Zero(PLAIN, d - 1)
  {
    OddIsZero(d - 1, 1);
    hide Dense, Zero;
  }

  lemma SameLevelZero(d: nat, idx: nat)
    requires d > 0
    ensures Dense(Code(d), OneLeaf(PLAIN), 0, idx) == Dense(PLAIN, OneLeaf(PLAIN), 0, idx)
  {
    hide Digest, ElementBytes, RootInputs;
    assert |RootInputs(d)| == 2 by {
      RootInputsAreTwo(d);
    }
  }

  lemma DenseStep(c: Suite<Field>, live: map<nat, Field>, level: nat, idx: nat)
    requires level > 0
    ensures Dense(c, live, level, idx)
         == c.Parent(Dense(c, live, level - 1, 2 * idx), Dense(c, live, level - 1, 2 * idx + 1))
  {
  }

  /** Below the root the two hashes build the same tree. */
  lemma {:induction false} SameBelowRoot(d: nat, level: nat, idx: nat)
    requires level < d
    ensures Dense(Code(d), OneLeaf(PLAIN), level, idx) == Dense(PLAIN, OneLeaf(PLAIN), level, idx)
  {
    hide *;
    if level == 0 {
      SameLevelZero(d, idx);
    } else {
      SameBelowRoot(d, level - 1, 2 * idx);
      SameBelowRoot(d, level - 1, 2 * idx + 1);
      OddIsZero(level - 1, 2 * idx + 1);
      RootInputsAreTwo(d);
      ZeroGrows(level - 1, d - 1);
      DenseStep(PLAIN, OneLeaf(PLAIN), level, idx);
      DenseStep(Code(d), OneLeaf(PLAIN), level, idx);
      SameParent(d, Dense(PLAIN, OneLeaf(PLAIN), level - 1, 2 * idx), Zero(PLAIN, level - 1));
    }
  }

  lemma NamedValues(root: seq<Field>, nullifier: seq<Field>)
    ensures Named(root, nullifier).mimc(root) == ElementBytes(1)
    ensures root != nullifier ==> Named(root, nullifier).mimc(nullifier) == ElementBytes(2)
  {
    hide ElementBytes, Digest;
  }

  /** In its suite the one-leaf tree's root is the first named element. */
  lemma CodeRoot(d: nat)
    requires d > 0
    ensures Dense(Code(d), OneLeaf(Code(d)), d, 0) == ElementBytes(1)
  {
    hide Digest, ElementBytes, Named, Dense;
    NamedValues(RootInputs(d), NullifierInputs());
    SameLeaf(d);
    SameBelowRoot(d, d - 1, 0);
    SameBelowRoot(d, d - 1, 1);
    DenseStep(Code(d), OneLeaf(PLAIN), d, 0);
    assert OneLeaf(Code(d)) == OneLeaf(PLAIN);
  }

  lemma CodeNames(d: nat)
    requires d > 0
    ensures Code(d).Ideal() && forall n: nat :: Code(d).embed(n) == ElementBytes(n)
    ensures Dense(Code(d), OneLeaf(Code(d)), d, 0) == ElementBytes(1)
    ensures Code(d).Nullifier(1, AUDIENCE) == ElementBytes(2)
  {
    CodeRoot(d);
    hide Digest, ElementBytes, Dense;
    assert |RootInputs(d)| != |NullifierInputs()|;
    NamedIsIdeal(RootInputs(d), NullifierInputs());
  }

  // ---------------------------------------------------------------- a run that follows a history

  ghost predicate Timed(history: seq<TreeHistory.Commit<Field>>) {
    && (forall k :: 0 <= k < |history| ==> history[k].committed >= 0)
    && (forall j, k :: 0 <= j <= k < |history| ==> history[j].committed <= history[k].committed)
  }

  function LastTime(history: seq<TreeHistory.Commit<Field>>): int {
    if history == [] then 0 else history[|history| - 1].committed
  }

  /** The state after the tree's history alone. */
  function AfterTree(history: seq<TreeHistory.Commit<Field>>): State {
    START.(clock := LastTime(history), db := START.db.(roots := TreeHistory.TablesAfter(history, |history|).roots))
  }

  lemma FollowOn(actions: seq<Action>, history: seq<TreeHistory.Commit<Field>>, a: Action)
    requires Follows(actions, history)
    requires a.TreeCommit? ==>
               && TreeCommits(actions) < |history| && a.roots == history[TreeCommits(actions)].tables.roots
               && history[TreeCommits(actions)].committed == Run(actions).clock
    ensures Follows(actions + [a], history)
    ensures TreeCommits(actions + [a]) == TreeCommits(actions) + if a.TreeCommit? then 1 else 0
  {
    hide Run;
    var actions' := actions + [a];
    assert actions'[..|actions|] == actions;
    forall k: nat | k < |actions'|
      ensures FollowsAt(actions', history, k)
    {
      if k < |actions| {
        assert actions'[..k] == actions[..k] && FollowsAt(actions, history, k);
      }
    }
  }

  lemma FollowMore(actions: seq<Action>, history: seq<TreeHistory.Commit<Field>>, last: TreeHistory.Commit<Field>)
    requires Follows(actions, history)
    ensures Follows(actions, history + [last])
  {
    hide Run, TreeCommits;
    forall k: nat | k < |actions|
      ensures FollowsAt(actions, history + [last], k)
    {
      assert FollowsAt(actions, history, k);
    }
  }

  lemma NothingFollows(history: seq<TreeHistory.Commit<Field>>)
    ensures Follows([], history) && TreeCommits([]) == 0 && Run([]) == START
  {
  }

  /** Any timed history is followed by the run that waits for each of its commits and makes it. */
  lemma {:induction false} FollowHistory(history: seq<TreeHistory.Commit<Field>>) returns (actions: seq<Action>)
    requires Timed(history)
    ensures Follows(actions, history) && TreeCommits(actions) == |history| && Run(actions) == AfterTree(history)
    decreases |history|
  {
    hide Follows, TreeCommits, Run;
    if history == [] {
      NothingFollows(history);
      actions := [];
    } else {
      var front, last := history[..|history| - 1], history[|history| - 1];
      assert history == front + [last];
      actions := FollowHistory(front);
      FollowMore(actions, front, last);
      var tick := Tick(last.committed - LastTime(front));
      FollowOn(actions, history, tick);
      RunStep(actions, tick);
      actions := actions + [tick];
      FollowOn(actions, history, TreeCommit(last.tables.roots));
      RunStep(actions, TreeCommit(last.tables.roots));
      actions := actions + [TreeCommit(last.tables.roots)];
    }
  }

  lemma {:induction false} ContinuingFollows(
    from: seq<Action>, actions: seq<Action>, history: seq<TreeHistory.Commit<Field>>)
    requires Continues(from, actions) && Follows(from, history)
    ensures Follows(actions, history) && TreeCommits(actions) == TreeCommits(from)
    decreases |actions|
  {
    hide Follows, TreeCommits, Run;
    if |actions| == |from| {
      assert actions == from;
    } else {
      var front, last := actions[..|actions| - 1], actions[|actions| - 1];
      assert front[..|from|] == from && actions == front + [last];
      ContinuingFollows(from, front, history);
      FollowOn(front, history, last);
    }
  }

  lemma NextGrace(s: State, a: Action)
    ensures Next(s, a).grace == if a.SetGrace? then a.grace else s.grace
  {
    hide Advance, ProofsOn, Spent, ChallengeLocked, EmailTaken, UserIdUsed, EmailLocked, SessionIdUsed, Unexpired;
  }

  lemma {:induction false} ContinuingGrace(from: seq<Action>, actions: seq<Action>)
    requires Continues(from, actions)
    ensures Run(actions).grace == Run(from).grace
    decreases |actions|
  {
    hide Next;
    if |actions| == |from| {
      assert actions == from;
    } else {
      var front := actions[..|actions| - 1];
      assert front[..|from|] == from;
      ContinuingGrace(from, front);
      NextGrace(Run(front), actions[|actions| - 1]);
    }
  }

  /** Every later moment of a run that goes on is itself one it has gone on to. */
  lemma ContinuingPrefix(from: seq<Action>, actions: seq<Action>, k: nat)
    requires Continues(from, actions) && |from| <= k <= |actions|
    ensures Continues(from, actions[..k])
  {
    assert actions[..k][..|from|] == actions[..|from|];
  }

  // ---------------------------------------------------------------- a live credential can be used

  const POLICY: Policy := Policy(AUDIENCE, OneShot, false)

  /** A member with a session, and a request whose claim and challenge are in place. */
  function Prepared(s: State, grace: int): State {
    s.(grace := grace, holders := [Grants({}, multiset{}, false)],
       issued := [Challenge(0, Some(0), ForClaim, s.clock + CHALLENGE_TTL, None)],
       registered := {0}, outside := map[0 := 0],
       db := s.db.(users := map[0 := User("voter@example.org", false)], sessions := map[0 := 0],
                   policies := map["vote" := POLICY],
                   challenges := map[0 := Challenge(0, Some(0), ForClaim, s.clock + CHALLENGE_TTL, None)]))
  }

  predicate OnlyTree(s: State) {
    s == START.(clock := s.clock, db := START.db.(roots := s.db.roots))
  }

  function Member(s: State): State {
    s.(registered := {0}, outside := map[0 := 0],
       db := s.db.(users := map[0 := User("voter@example.org", false)], sessions := map[0 := 0]))
  }

  lemma AddMember(s: State)
    requires OnlyTree(s)
    ensures Next(Next(s, Register(0, "voter@example.org")), OpenSession(0, 0)) == Member(s)
  {
    hide Lower;
  }

  lemma AddRequest(s: State, grace: int)
    requires OnlyTree(s)
    ensures var granted := Next(Next(Member(s), SetGrace(grace)), OpenRequest(Some(0), false));
            Next(Next(granted, SetPolicy("vote", POLICY)), IssueChallenge(0, Some(0), ForClaim)) == Prepared(s, grace)
  {
    assert ClaimsOf(Member(s).db, Some(0)) == {};
  }

  lemma TickOnly(s: State, wait: nat)
    ensures Next(s, Tick(wait)) == s.(clock := s.clock + wait)
  {
  }

  lemma GoOn(actions: seq<Action>, history: seq<TreeHistory.Commit<Field>>, a: Action) returns (actions': seq<Action>)
    requires Follows(actions, history) && !a.TreeCommit?
    ensures Follows(actions', history) && TreeCommits(actions') == TreeCommits(actions)
    ensures actions' == actions + [a] && Run(actions') == Next(Run(actions), a)
  {
    hide Follows, TreeCommits, Run, Next;
    FollowOn(actions, history, a);
    RunStep(actions, a);
    actions' := actions + [a];
  }

  /** The tree's history, then a wait, then the preparations. */
  lemma Prepare(history: seq<TreeHistory.Commit<Field>>, wait: nat, grace: int) returns (actions: seq<Action>)
    requires Timed(history)
    ensures Follows(actions, history) && TreeCommits(actions) == |history|
    ensures var s := AfterTree(history);
            Run(actions) == Prepared(s.(clock := s.clock + wait), grace)
  {
    hide Follows, TreeCommits, Run, Next;
    actions := FollowHistory(history);
    var s := AfterTree(history).(clock := LastTime(history) + wait);
    TickOnly(AfterTree(history), wait);
    AddMember(s);
    AddRequest(s, grace);
    actions := GoOn(actions, history, Tick(wait));
    actions := GoOn(actions, history, Register(0, "voter@example.org"));
    actions := GoOn(actions, history, OpenSession(0, 0));
    actions := GoOn(actions, history, SetGrace(grace));
    actions := GoOn(actions, history, OpenRequest(Some(0), false));
    actions := GoOn(actions, history, SetPolicy("vote", POLICY));
    actions := GoOn(actions, history, IssueChallenge(0, Some(0), ForClaim));
  }

  lemma GraceStays(from: seq<Action>, r: Request, actions: seq<Action>, grace: int)
    requires Continues(from + [Submit(r)], actions) && Run(from).grace == grace
    ensures GraceAtMost(actions, |from|, grace)
  {
    hide Run;
    RunStep(from, Submit(r));
    forall k: nat | |from| <= k <= |actions|
      ensures Run(actions[..k]).grace <= grace
    {
      if k == |from| {
        assert actions[..k] == (from + [Submit(r)])[..k] == from;
      } else {
        ContinuingPrefix(from + [Submit(r)], actions, k);
        ContinuingGrace(from + [Submit(r)], actions[..k]);
      }
    }
  }

  lemma SubmittedNext(from: seq<Action>, r: Request, actions: seq<Action>)
    requires Continues(from + [Submit(r)], actions)
    ensures Submits(actions, |from|, |Run(from).calls|, r) && actions[..|from|] == from
  {
    hide Run;
    assert actions[|from|] == actions[..|from| + 1][|from|];
    assert actions[..|from|] == actions[..|from| + 1][..|from|];
  }

  /** The witness a holder assembles from its credential and the tree's path. */
  function WitnessOf(c: Suite<Field>, d: nat, t: TreeTables.Tables<Field>, index: nat, secret: nat, attribute: nat)
    : Oracle.MembershipWitness<Field>
  {
    Oracle.MembershipWitness(
      secret, attribute, [c.Commitment(secret, attribute)] + Siblings(c, d, t.nodes, index), index,
      TreeTables.Root(c, d, t), AUDIENCE, 0, c.Nullifier(secret, AUDIENCE), ElementBytes(0))
  }

  /** A credential live in the last tables of a history. */
  ghost predicate Holds(
    c: Suite<Field>, history: seq<TreeHistory.Commit<Field>>, index: nat, secret: nat, attribute: nat)
  {
    var live := TreeTables.Live(TreeHistory.TablesAfter(history, |history|).credentials);
    && secret < SECRET_SPACE && attribute < Pow2(64)
    && index in live && live[index] == c.Commitment(secret, attribute)
  }

  lemma Pow2Positive()
    ensures 0 < Pow2(64)
  {
    hide Pow2;
  }

  lemma WitnessHolds(
    c: Suite<Field>, d: nat, history: seq<TreeHistory.Commit<Field>>, index: nat, secret: nat, attribute: nat)
    requires TreeHistory.Serial(c, d, history) && Holds(c, history, index, secret, attribute)
    ensures var t := TreeHistory.TablesAfter(history, |history|);
            var w := WitnessOf(c, d, t, index, secret, attribute);
            Oracle.WellTyped(d, w) && Oracle.MembershipHolds(c, d, w)
  {
    var t := TreeHistory.TablesAfter(history, |history|);
    TreeHistory.HistoryGood(c, d, history, |history|);
    TreeTables.IndexInTree(c, d, t, index);
    TreeHistory.OwnPathFolds(c, d, t, index);
    Pow2Positive();
    hide TreeHistory.Serial, TreeTables.Good, TreeTables.Root, Fold, Pow2, NodeAt, Ancestor, Sibling;
    var w := WitnessOf(c, d, t, index, secret, attribute);
    assert w.path[1..] == Siblings(c, d, t.nodes, index);
  }

  lemma CurrentIsAccepted(
    c: Suite<Field>, d: nat, history: seq<TreeHistory.Commit<Field>>, index: nat, secret: nat, attribute: nat, s: State)
    requires TreeHistory.Serial(c, d, history) && Holds(c, history, index, secret, attribute)
    requires s.db.roots == TreeHistory.TablesAfter(history, |history|).roots
    ensures RootAccepted(s, TreeTables.Root(c, d, TreeHistory.TablesAfter(history, |history|)))
  {
    hide TreeHistory.Serial, Represents, Dense, Pow2;
    var t := TreeHistory.TablesAfter(history, |history|);
    TreeHistory.HistoryGood(c, d, history, |history|);
    assert t.credentials != map[];
    assert TreeTables.Root(c, d, t) in t.roots && t.roots[TreeTables.Root(c, d, t)].None?;
  }

  lemma ProofCanBurn(s: State, grace: int, root: Field, nullifier: Field)
    requires OnlyTree(s) && ParseField(root).Some? && ParseField(nullifier).Some?
    requires RootAccepted(Prepared(s, grace), root)
    ensures CanBurn(Prepared(s, grace), ProveClaim(0, "vote", root, nullifier, 0, 0, 0))
  {
    hide RootAccepted, ParseField;
  }

  lemma GoOnSubmitted(
    prep: seq<Action>, history: seq<TreeHistory.Commit<Field>>, r: Request, actions: seq<Action>)
    requires Follows(prep, history) && Continues(prep + [Submit(r)], actions)
    ensures Follows(actions, history) && |prep| <= |actions|
  {
    hide Follows, TreeCommits, Run;
    var submitted := GoOn(prep, history, Submit(r));
    ContinuingFollows(submitted, actions, history);
  }

  /** A credential that is live after any history can be used: however long one waits, and whatever the grace, there is
    * a run that follows the history and then succeeds with a sound proof of it, and with nothing else. */
  lemma LiveCredentialProves(
    c: Suite<Field>, d: nat, history: seq<TreeHistory.Commit<Field>>, index: nat, secret: nat, attribute: nat,
    wait: nat, grace: int)
    returns (actions: seq<Action>, j: nat)
    requires TreeHistory.Serial(c, d, history) && Timed(history) && Holds(c, history, index, secret, attribute)
    requires ParseField(TreeTables.Root(c, d, TreeHistory.TablesAfter(history, |history|))).Some?
    requires ParseField(c.Nullifier(secret, AUDIENCE)).Some?
    ensures Follows(actions, history) && |Run(actions).log| == 1
    ensures var e := Run(actions).log[0];
            && e.request.ProveClaim? && e.policy.kind == OneShot && Submits(actions, j, e.id, e.request)
            && Sound(c, d, e, WitnessOf(c, d, TreeHistory.TablesAfter(history, |history|), index, secret, attribute))
    ensures j <= |actions| && TreeCommits(actions[..j]) == |history| && GraceAtMost(actions, j, grace)
    ensures Run(actions[..j]).clock == LastTime(history) + wait
  {
    hide TreeHistory.Serial, Follows, TreeCommits, Run, RootAccepted, ParseField, CanBurn, Continues, Submits;
    hide GraceAtMost;
    hide Oracle.WellTyped, Oracle.MembershipHolds, Holds, TreeTables.Root, Next, TreeHistory.TablesAfter;
    var t := TreeHistory.TablesAfter(history, |history|);
    var prep := Prepare(history, wait, grace);
    var s := AfterTree(history).(clock := LastTime(history) + wait);
    var r := ProveClaim(0, "vote", TreeTables.Root(c, d, t), c.Nullifier(secret, AUDIENCE), 0, 0, 0);
    CurrentIsAccepted(c, d, history, index, secret, attribute, Prepared(s, grace));
    ProofCanBurn(s, grace, r.root, r.nullifier);
    var e;
    actions, e := OneShotSucceeds(prep, r);
    j := |prep|;
    SubmittedNext(prep, r, actions);
    GraceStays(prep, r, actions, grace);
    GoOnSubmitted(prep, history, r, actions);
    WitnessHolds(c, d, history, index, secret, attribute);
  }

  /** All hypotheses of the end-to-end revocation theorem hold together, at every depth and grace, with the program's
    * encoding: another leaf is revoked, the grace passes, and a sound proof succeeds. */
  lemma RevocationTheoremApplies(d: nat, grace: nat)
    returns (c: Suite<Field>, history: seq<TreeHistory.Commit<Field>>, actions: seq<Action>, j: nat,
             w: Oracle.MembershipWitness<Field>)
    requires d > 0
    ensures c.Ideal() && (forall n: nat :: c.embed(n) == ElementBytes(n)) && TreeHistory.Serial(c, d, history)
    ensures Follows(actions, history) && |Run(actions).log| == 1 && Sound(c, d, Run(actions).log[0], w)
    ensures Submits(actions, j, Run(actions).log[0].id, Run(actions).log[0].request)
    ensures TreeHistory.Revokes(history, 2, 1) && |history| == 3 && 2 < TreeCommits(actions[..j])
    ensures GraceAtMost(actions, j, grace) && Run(actions[..j]).clock >= history[2].committed + grace
    ensures w.index == 0
  {
    hide TreeHistory.Serial, Follows, TreeCommits, Run, ParseField, Submits, GraceAtMost, Sound, Code, ElementBytes;
    hide Dense, Pow2, TreeTables.Live, TreeHistory.TablesAfter;
    c := Code(d);
    CodeNames(d);
    history := PathReader.ThereAndBack(c, d);
    ElementsRoundTrip(1, []);
    ElementsRoundTrip(2, []);
    Pow2Positive();
    actions, j := LiveCredentialProves(c, d, history, 0, 1, 0, grace, grace);
    w := WitnessOf(c, d, TreeHistory.TablesAfter(history, |history|), 0, 1, 0);
  }
}
