/** The lock-free path read of zkauthn/tree.go, against concurrent commits.
  *
  * Statement j of the read sees the committed tables `seen[j]`: first the credential, then for each of two attempts
  * the current root, one sibling per level, and the current root again.
  */
module PathReader {
  import opened Hashing
  import opened SparseTree
  import opened TreeTables
  import opened TreeHistory

  datatype PathResult<F> =
    | Path(root: F, leaf: F, siblings: seq<F>)
    | UnknownCredential
    | RevokedCredential
    | TryAgain

  /** The row without a retirement time; the root of the empty tree when there is none. */
  ghost function CurrentRoot<F(!new)>(c: Suite<F>, d: nat, roots: map<F, Option<int>>): (root: F)
    ensures (exists r :: r in roots && roots[r].None?) ==> root in roots && roots[root].None?
  {
    if r :| r in roots && roots[r].None? then r else Zero(c, d)
  }

  ghost predicate AtMostOneCurrent<F(!new)>(roots: map<F, Option<int>>) {
    forall r, r' | r in roots && r' in roots :: roots[r].None? && roots[r'].None? ==> r == r'
  }

  method ReadZero<F(==, !new)>(c: Suite<F>, level: nat) returns (z: F)
    ensures z == Zero(c, level)
  {
    z := c.EmptyLeaf();
    for l := 0 to level
      invariant z == Zero(c, l)
    {
      z := c.Parent(z, z);
    }
  }

  method ReadRoot<F(==, !new)>(c: Suite<F>, d: nat, roots: map<F, Option<int>>) returns (root: F)
    requires AtMostOneCurrent(roots)
    ensures root == CurrentRoot(c, d, roots)
  {
    var rest := roots.Keys;
    while rest != {}
      invariant rest <= roots.Keys
      invariant forall r :: r in roots && r !in rest ==> roots[r].Some?
      decreases rest
    {
      var r :| r in rest;
      if roots[r].None? {
        return r;
      }
      rest := rest - {r};
    }
    root := ReadZero(c, d);
  }

  /** The statement at which an attempt starts. */
  function Base(d: nat, attempt: nat): nat {
    if attempt == 0 then 1 else d + 3
  }

  /** One credential read and two attempts of a root, d siblings and a root. */
  function Statements(d: nat): nat {
    2 * d + 5
  }

  /** The siblings read level by level, each in its own statement. */
  function Walk<F(!new)>(c: Suite<F>, d: nat, seen: seq<Tables<F>>, base: nat, index: nat): (siblings: seq<F>)
    requires base + d < |seen|
    ensures |siblings| == d
  {
    seq(d, (l: nat) requires l < d => NodeAt(c, seen[base + 1 + l].nodes, l, Sibling(Ancestor(index, l))))
  }

  ghost function Attempt<F(!new)>(
    c: Suite<F>, d: nat, seen: seq<Tables<F>>, base: nat, index: nat, leaf: F): PathResult<F>
    requires base + d + 1 < |seen|
  {
    var root := CurrentRoot(c, d, seen[base].roots);
    if root == CurrentRoot(c, d, seen[base + d + 1].roots) then Path(root, leaf, Walk(c, d, seen, base, index))
    else TryAgain
  }

  ghost function PathOf<F(!new)>(c: Suite<F>, d: nat, seen: seq<Tables<F>>, index: nat): PathResult<F>
    requires |seen| == Statements(d)
  {
    if index !in seen[0].credentials then UnknownCredential
    else if seen[0].credentials[index].revokedAt.Some? then RevokedCredential
    else
      var leaf := seen[0].credentials[index].commitment;
      var first := Attempt(c, d, seen, Base(d, 0), index, leaf);
      if first.Path? then first else Attempt(c, d, seen, Base(d, 1), index, leaf)
  }

  lemma WalkAt<F(!new)>(c: Suite<F>, d: nat, seen: seq<Tables<F>>, base: nat, index: nat, l: nat)
    requires base + d < |seen| && l < d
    ensures Walk(c, d, seen, base, index)[l] == NodeAt(c, seen[base + 1 + l].nodes, l, Sibling(Ancestor(index, l)))
  {
    hide Ancestor, Sibling, NodeAt;
  }

  method ReadSiblings<F(!new)>(
    c: Suite<F>, d: nat, seen: seq<Tables<F>>, base: nat, index: nat)
    returns (siblings: seq<F>)
    requires base + d < |seen|
    ensures siblings == Walk(c, d, seen, base, index)
  {
    siblings := [];
    var position := index;
    AncestorBase(index);
    hide Ancestor, Walk, Sibling;
    for level := 0 to d
      invariant position == Ancestor(index, level)
      invariant siblings == Walk(c, d, seen, base, index)[..level]
    {
      WalkAt(c, d, seen, base, index, level);
      siblings := siblings + [NodeAt(c, seen[base + 1 + level].nodes, level, Sibling(position))];
      AncestorStep(index, level);
      position := position / 2;
    }
  }

  method ReadPath<F(==, !new)>(c: Suite<F>, d: nat, seen: seq<Tables<F>>, index: nat) returns (result: PathResult<F>)
    requires |seen| == Statements(d)
    requires forall t :: t in seen ==> AtMostOneCurrent(t.roots)
    ensures result == PathOf(c, d, seen, index)
  {
    hide Walk, CurrentRoot, AtMostOneCurrent;
    if index !in seen[0].credentials {
      return UnknownCredential;
    }
    if seen[0].credentials[index].revokedAt.Some? {
      return RevokedCredential;
    }
    var leaf := seen[0].credentials[index].commitment;
    var attempt := 0;
    while attempt < 2
      invariant attempt <= 2
      invariant attempt >= 1 ==> !Attempt(c, d, seen, Base(d, 0), index, leaf).Path?
      invariant attempt >= 2 ==> !Attempt(c, d, seen, Base(d, 1), index, leaf).Path?
    {
      var base := Base(d, attempt);
      assert base + d + 1 < |seen|;
      var root := ReadRoot(c, d, seen[base].roots);
      var siblings := ReadSiblings(c, d, seen, base, index);
      var after := ReadRoot(c, d, seen[base + d + 1].roots);
      if root == after {
        return Path(root, leaf, siblings);
      }
      attempt := attempt + 1;
    }
    result := TryAgain;
  }

  // ---------------------------------------------------------------- reads against a history

  /** Statement j runs after the first schedule[j] commits of the history. */
  ghost predicate Schedule<F>(d: nat, history: seq<Commit<F>>, schedule: seq<nat>) {
    && |schedule| == Statements(d)
    && (forall j, k :: 0 <= j <= k < |schedule| ==> schedule[j] <= schedule[k] <= |history|)
  }

  ghost function Observed<F>(d: nat, history: seq<Commit<F>>, schedule: seq<nat>): (seen: seq<Tables<F>>)
    requires Schedule(d, history, schedule)
    ensures |seen| == |schedule|
    ensures forall j :: 0 <= j < |seen| ==> seen[j] == TablesAfter(history, schedule[j])
  {
    seq(|schedule|, (j: nat) requires j < |schedule| => TablesAfter(history, schedule[j]))
  }

  ghost predicate OnlyIssues<F>(history: seq<Commit<F>>, from: nat, to: nat) {
    to <= |history| && forall k :: from <= k < to ==> history[k].op.Issue?
  }

  lemma CurrentRootIsRoot<F(!new)>(c: Suite<F>, d: nat, t: Tables<F>)
    requires Good(c, d, t)
    ensures CurrentRoot(c, d, t.roots) == Root(c, d, t)
    ensures AtMostOneCurrent(t.roots)
  {
    hide Represents, Dense;
    if t.credentials == map[] {
      assert Live(t.credentials) == map[];
      EmptyDenseIsZero(c, d, 0);
    } else {
      assert Root(c, d, t) in t.roots && t.roots[Root(c, d, t)].None?;
    }
  }

  /** Without revocations live leaves stay, and every commit adds the leaf numbered by the row count before it. */
  lemma {:induction false} IssuesGrow<F(!new)>(c: Suite<F>, d: nat, history: seq<Commit<F>>, j: nat, k: nat)
    requires Serial(c, d, history) && OnlyIssues(history, j, k) && j <= k
    ensures var before, after := TablesAfter(history, j).credentials, TablesAfter(history, k).credentials;
            && (forall i :: i in Live(before) ==> i in Live(after) && Live(after)[i] == Live(before)[i])
            && (j < k ==> |before| in Live(after) && |before| !in Live(before))
  {
    hide Perform, Good, Serial;
    if j < k {
      var op := history[k - 1].op;
      var t := TablesAfter(history, k - 1);
      IssuesGrow(c, d, history, j, k - 1);
      HistoryGood(c, d, history, k - 1);
      SerialStep(c, d, history, k - 1);
      IssueKeepsGood(c, d, t, op.secret, op.attribute, op.issuedTo, history[k - 1].started);
    }
  }

  lemma EqualRootsMeanNoCommit<F(!new)>(c: Suite<F>, d: nat, history: seq<Commit<F>>, from: nat, to: nat)
    requires c.Ideal() && Serial(c, d, history) && OnlyIssues(history, from, to) && from <= to
    requires CurrentRoot(c, d, TablesAfter(history, from).roots) == CurrentRoot(c, d, TablesAfter(history, to).roots)
    ensures from == to
  {
    hide Serial, Good, Root, CurrentRoot;
    HistoryGood(c, d, history, from);
    HistoryGood(c, d, history, to);
    CurrentRootIsRoot(c, d, TablesAfter(history, from));
    CurrentRootIsRoot(c, d, TablesAfter(history, to));
    DifferentLeavesDifferentRoots(c, d, history, from, history, to);
    IssuesGrow(c, d, history, from, to);
  }

  lemma WalkOfOneState<F(!new)>(c: Suite<F>, d: nat, seen: seq<Tables<F>>, base: nat, index: nat, t: Tables<F>)
    requires base + d < |seen|
    requires forall j :: base <= j <= base + d ==> seen[j] == t
    ensures Walk(c, d, seen, base, index) == Siblings(c, d, t.nodes, index)
  {
    hide NodeAt, Ancestor, Sibling;
  }

  /** An attempt with equal roots saw no commit at all, when only issuances commit. */
  lemma AttemptIsSnapshot<F(!new)>(
    c: Suite<F>, d: nat, history: seq<Commit<F>>, schedule: seq<nat>, index: nat, leaf: F, base: nat)
    requires c.Ideal() && Serial(c, d, history) && Schedule(d, history, schedule)
    requires base + d + 1 < |schedule| && OnlyIssues(history, schedule[base], schedule[base + d + 1])
    requires Attempt(c, d, Observed(d, history, schedule), base, index, leaf).Path?
    ensures var t := TablesAfter(history, schedule[base]);
            && schedule[base + d + 1] == schedule[base]
            && Attempt(c, d, Observed(d, history, schedule), base, index, leaf)
                 == Path(Root(c, d, t), leaf, Siblings(c, d, t.nodes, index))
  {
    var from, to := schedule[base], schedule[base + d + 1];
    var t := TablesAfter(history, from);
    var seen := Observed(d, history, schedule);
    hide Serial, Good, Root, CurrentRoot, Walk, Siblings, Observed;
    EqualRootsMeanNoCommit(c, d, history, from, to);
    HistoryGood(c, d, history, from);
    CurrentRootIsRoot(c, d, t);
    assert forall j :: base <= j <= base + d ==> schedule[j] == from;
    WalkOfOneState(c, d, seen, base, index, t);
  }

  /** From the first root read of an attempt to the second, nothing commits and this root is the current one. */
  ghost predicate CurrentThroughout<F(!new)>(
    c: Suite<F>, d: nat, history: seq<Commit<F>>, schedule: seq<nat>, base: nat, root: F)
    requires Schedule(d, history, schedule)
  {
    && base + d + 1 < |schedule| && schedule[base] == schedule[base + d + 1]
    && root == Root(c, d, TablesAfter(history, schedule[base]))
  }

  /** The optimistic read is a snapshot: when only issuances commit during the call, every path it returns folds to
    * its root, and that root was current at both of the attempt's root reads. */
  lemma OptimisticReadIsSnapshot<F(!new)>(
    c: Suite<F>, d: nat, history: seq<Commit<F>>, schedule: seq<nat>, index: nat)
    requires c.Ideal() && Serial(c, d, history) && Schedule(d, history, schedule)
    requires OnlyIssues(history, schedule[0], schedule[|schedule| - 1])
    requires PathOf(c, d, Observed(d, history, schedule), index).Path?
    ensures var r := PathOf(c, d, Observed(d, history, schedule), index);
            && |r.siblings| == d && Fold(c, c.LeafNode(r.leaf), r.siblings, index, d) == r.root
            && exists attempt: nat ::
                 attempt < 2 && CurrentThroughout(c, d, history, schedule, Base(d, attempt), r.root)
  {
    var seen := Observed(d, history, schedule);
    var leaf := seen[0].credentials[index].commitment;
    var attempt := if Attempt(c, d, seen, Base(d, 0), index, leaf).Path? then 0 else 1;
    var base := Base(d, attempt);
    var t := TablesAfter(history, schedule[base]);
    assert schedule[0] <= schedule[base] <= schedule[base + d + 1] <= schedule[|schedule| - 1];
    hide Serial, Good, Root, Fold, Siblings, Attempt, Observed, CurrentRoot;
    AttemptIsSnapshot(c, d, history, schedule, index, leaf, base);
    IssuesGrow(c, d, history, schedule[0], schedule[base]);
    HistoryGood(c, d, history, schedule[base]);
    OwnPathFolds(c, d, t, index);
    assert CurrentThroughout(c, d, history, schedule, base, Root(c, d, t));
  }

  /** Among issuances an attempt succeeds exactly when nothing commits between its two root reads. */
  lemma AttemptSucceedsIff<F(!new)>(
    c: Suite<F>, d: nat, history: seq<Commit<F>>, schedule: seq<nat>, index: nat, leaf: F, base: nat)
    requires c.Ideal() && Serial(c, d, history) && Schedule(d, history, schedule)
    requires base + d + 1 < |schedule| && OnlyIssues(history, schedule[base], schedule[base + d + 1])
    ensures Attempt(c, d, Observed(d, history, schedule), base, index, leaf)
         == if schedule[base] == schedule[base + d + 1] then
              Path(Root(c, d, TablesAfter(history, schedule[base])), leaf,
                   Siblings(c, d, TablesAfter(history, schedule[base]).nodes, index))
            else TryAgain
  {
    hide Serial, Good, Root, Siblings, CurrentRoot, Walk, Observed;
    var from, to := schedule[base], schedule[base + d + 1];
    if from != to {
      if CurrentRoot(c, d, TablesAfter(history, from).roots) == CurrentRoot(c, d, TablesAfter(history, to).roots) {
        EqualRootsMeanNoCommit(c, d, history, from, to);
      }
    } else {
      AttemptIsSnapshot(c, d, history, schedule, index, leaf, base);
    }
  }

  /** What a read returns among issuances. Unknown and revoked are decided by the row first read. A live leaf's read is
    * to be tried again exactly when both walks were disturbed; otherwise it is the tree's own path at the first root
    * read of the earliest walk that was not. */
  lemma ReadOutcome<F(!new)>(c: Suite<F>, d: nat, history: seq<Commit<F>>, schedule: seq<nat>, index: nat)
    requires c.Ideal() && Serial(c, d, history) && Schedule(d, history, schedule)
    requires OnlyIssues(history, schedule[0], schedule[2 * d + 4])
    ensures var rows := TablesAfter(history, schedule[0]).credentials;
            var r := PathOf(c, d, Observed(d, history, schedule), index);
            if index !in rows then r == UnknownCredential
            else if rows[index].revokedAt.Some? then r == RevokedCredential
            else if schedule[1] < schedule[d + 2] && schedule[d + 3] < schedule[2 * d + 4] then r == TryAgain
            else
              var t := TablesAfter(history, schedule[if schedule[1] == schedule[d + 2] then 1 else d + 3]);
              r == Path(Root(c, d, t), rows[index].commitment, Siblings(c, d, t.nodes, index))
  {
    hide Serial, Good, Root, Siblings, Attempt;
    var rows := TablesAfter(history, schedule[0]).credentials;
    if index in rows && rows[index].revokedAt.None? {
      var leaf := rows[index].commitment;
      assert schedule[0] <= schedule[1] <= schedule[d + 2] <= schedule[d + 3] <= schedule[2 * d + 4];
      AttemptSucceedsIff(c, d, history, schedule, index, leaf, 1);
      AttemptSucceedsIff(c, d, history, schedule, index, leaf, d + 3);
    }
  }

  /** Whatever commits, the row first read decides whether the credential is unknown or revoked. */
  lemma ReadRefusals<F(!new)>(c: Suite<F>, d: nat, history: seq<Commit<F>>, schedule: seq<nat>, index: nat)
    requires Schedule(d, history, schedule)
    ensures var rows := TablesAfter(history, schedule[0]).credentials;
            var r := PathOf(c, d, Observed(d, history, schedule), index);
            && (r == UnknownCredential <==> index !in rows)
            && (r == RevokedCredential <==> index in rows && rows[index].revokedAt.Some?)
  {
    hide CurrentRoot, Walk;
  }

  /** No commit between an attempt's first root read and its read at `level` has changed the leaves below the sibling
    * read there. */
  ghost predicate UndisturbedAt<F(!new)>(
    d: nat, history: seq<Commit<F>>, schedule: seq<nat>, base: nat, index: nat, level: nat)
    requires Schedule(d, history, schedule) && base + d + 1 < |schedule| && level < d
  {
    SameUnder(Live(TablesAfter(history, schedule[base]).credentials),
              Live(TablesAfter(history, schedule[base + 1 + level]).credentials),
              level, Sibling(Ancestor(index, level)))
  }

  ghost predicate Undisturbed<F(!new)>(d: nat, history: seq<Commit<F>>, schedule: seq<nat>, base: nat, index: nat)
    requires Schedule(d, history, schedule) && base + d + 1 < |schedule|
  {
    forall level: nat :: level < d ==> UndisturbedAt(d, history, schedule, base, index, level)
  }

  lemma SiblingIffUndisturbed<F(!new)>(
    c: Suite<F>, d: nat, history: seq<Commit<F>>, schedule: seq<nat>, base: nat, index: nat, level: nat)
    requires c.Ideal() && Serial(c, d, history) && Schedule(d, history, schedule) && base + d + 1 < |schedule|
    requires level < d
    ensures var idx := Sibling(Ancestor(index, level));
            var first, later := TablesAfter(history, schedule[base]), TablesAfter(history, schedule[base + 1 + level]);
            UndisturbedAt(d, history, schedule, base, index, level) <==>
            NodeAt(c, later.nodes, level, idx) == NodeAt(c, first.nodes, level, idx)
  {
    hide Serial, LeafMap, NoneEmpty, Dense, Ancestor, Sibling, NodeAt, RowsGood, SameUnder, Live, Canonical;
    var j, k := schedule[base], schedule[base + 1 + level];
    HistoryGood(c, d, history, j);
    HistoryGood(c, d, history, k);
    HistoryLeafMap(c, d, history, j);
    HistoryLeafMap(c, d, history, k);
    var live, live' := Live(TablesAfter(history, j).credentials), Live(TablesAfter(history, k).credentials);
    LeafMapNoneEmpty(c, d, live);
    LeafMapNoneEmpty(c, d, live');
    SameNodeIffSameUnder(c, live, live', level, Sibling(Ancestor(index, level)));
  }

  /** The siblings walked are those of one tree exactly when the walk was undisturbed. */
  lemma WalkIffUndisturbed<F(!new)>(
    c: Suite<F>, d: nat, history: seq<Commit<F>>, schedule: seq<nat>, base: nat, index: nat)
    requires c.Ideal() && Serial(c, d, history) && Schedule(d, history, schedule) && base + d + 1 < |schedule|
    ensures Walk(c, d, Observed(d, history, schedule), base, index)
         == Siblings(c, d, TablesAfter(history, schedule[base]).nodes, index)
       <==> Undisturbed(d, history, schedule, base, index)
  {
    hide Serial, UndisturbedAt, Ancestor, Sibling, NodeAt, TablesAfter;
    var seen := Observed(d, history, schedule);
    var walk, own := Walk(c, d, seen, base, index), Siblings(c, d, TablesAfter(history, schedule[base]).nodes, index);
    forall l: nat | l < d
      ensures walk[l] == own[l] <==> UndisturbedAt(d, history, schedule, base, index, l)
    {
      SiblingIffUndisturbed(c, d, history, schedule, base, index, l);
    }
  }

  lemma StaleLeafFoldsIff<F(!new)>(
    c: Suite<F>, d: nat, history: seq<Commit<F>>, j: nat, k: nat, index: nat, siblings: seq<F>)
    requires c.Ideal() && Serial(c, d, history) && j <= k <= |history| && |siblings| == d
    requires index in TablesAfter(history, j).credentials
    ensures var t := TablesAfter(history, k);
            var leaf := TablesAfter(history, j).credentials[index].commitment;
            Fold(c, c.LeafNode(leaf), siblings, index, d) == CurrentRoot(c, d, t.roots) <==>
            index in Live(t.credentials) && siblings == Siblings(c, d, t.nodes, index)
  {
    hide Serial, Siblings, Good, Root, Fold, CurrentRoot;
    var t, before := TablesAfter(history, k), TablesAfter(history, j);
    HistoryGood(c, d, history, j);
    IndexInTree(c, d, before, index);
    HistoryMinted(c, d, history, j);
    HistoryGood(c, d, history, k);
    HistoryExtends(c, d, history, j, k);
    CurrentRootIsRoot(c, d, t);
    FoldsIffOwn(c, d, t, index, before.credentials[index].commitment, siblings);
  }

  /** Whatever commits meanwhile, the path an attempt assembles folds to its root exactly when the credential was still
    * live at the first root read and the walk was undisturbed. */
  lemma PathFoldsIff<F(!new)>(
    c: Suite<F>, d: nat, history: seq<Commit<F>>, schedule: seq<nat>, index: nat, attempt: nat)
    requires c.Ideal() && Serial(c, d, history) && Schedule(d, history, schedule) && attempt < 2
    requires index in TablesAfter(history, schedule[0]).credentials
    ensures var base := Base(d, attempt);
            var t := TablesAfter(history, schedule[base]);
            var leaf := TablesAfter(history, schedule[0]).credentials[index].commitment;
            var siblings := Walk(c, d, Observed(d, history, schedule), base, index);
            Fold(c, c.LeafNode(leaf), siblings, index, d) == CurrentRoot(c, d, t.roots) <==>
            index in Live(t.credentials) && Undisturbed(d, history, schedule, base, index)
  {
    var base := Base(d, attempt);
    var k := schedule[base];
    assert schedule[0] <= k <= |history|;
    hide Serial, Observed, Walk, Base, Fold, Siblings, CurrentRoot, Undisturbed, TablesAfter, Live;
    StaleLeafFoldsIff(c, d, history, schedule[0], k, index, Walk(c, d, Observed(d, history, schedule), base, index));
    WalkIffUndisturbed(c, d, history, schedule, base, index);
  }

  // ---------------------------------------------------------------- where the promise fails

  lemma FirstIssue<F(!new)>(c: Suite<F>, d: nat, t: Tables<F>, secret: nat, now: int)
    requires Good(c, d, t) && |t.credentials| < Pow2(d) && !Taken(t.credentials, c.Commitment(secret, 0))
    ensures var t' := Perform(c, d, t, Issue(secret, 0, ""), now);
            && t'.Some? && Good(c, d, t'.value)
            && t'.value.credentials == t.credentials[|t.credentials| := Credential(c.Commitment(secret, 0), None, None)]
  {
    NextLeafIsCount(c, d, t);
    assert Perform(c, d, t, Issue(secret, 0, ""), now).Some?;
    hide Perform, Good;
    IssueKeepsGood(c, d, t, secret, 0, "", now);
  }

  lemma TwoIssued<F(!new)>(c: Suite<F>, d: nat) returns (t1: Tables<F>, t2: Tables<F>)
    requires c.Ideal() && d > 0
    ensures Perform(c, d, EmptyTables(), Issue(1, 0, ""), 0) == Some(t1)
    ensures Perform(c, d, t1, Issue(2, 0, ""), 0) == Some(t2) && Good(c, d, t2)
    ensures t1.credentials == map[0 := Credential(c.Commitment(1, 0), None, None)]
    ensures t2.credentials == t1.credentials[1 := Credential(c.Commitment(2, 0), None, None)]
  {
    assert Pow2(d) == 2 * Pow2(d - 1);
    DomainsSeparate(c, 1, 0, 2, 0, c.EmptyLeaf(), c.EmptyLeaf());
    EmptyIsGood(c, d);
    hide Perform, Good, Pow2;
    FirstIssue(c, d, EmptyTables(), 1, 0);
    t1 := Perform(c, d, EmptyTables(), Issue(1, 0, ""), 0).value;
    assert t1.credentials == map[0 := Credential(c.Commitment(1, 0), None, None)];
    FirstIssue(c, d, t1, 2, 0);
    t2 := Perform(c, d, t1, Issue(2, 0, ""), 0).value;
  }

  lemma ThreeTables<F(!new)>(c: Suite<F>, d: nat) returns (t1: Tables<F>, t2: Tables<F>, t3: Tables<F>)
    requires c.Ideal() && d > 0
    ensures Perform(c, d, EmptyTables(), Issue(1, 0, ""), 0) == Some(t1)
    ensures Perform(c, d, t1, Issue(2, 0, ""), 0) == Some(t2)
    ensures Perform(c, d, t2, Revoke(1), 0) == Some(t3)
    ensures t1.credentials == map[0 := Credential(c.Commitment(1, 0), None, None)]
    ensures Live(t1.credentials) == Live(t3.credentials) == map[0 := c.Commitment(1, 0)]
    ensures Live(t2.credentials) == map[0 := c.Commitment(1, 0), 1 := c.Commitment(2, 0)]
  {
    hide Perform, Good;
    t1, t2 := TwoIssued(c, d);
    assert Rows(t2.credentials, Revoke(1)) == [1];
    hide Rows;
    RevokeKeepsGood(c, d, t2, Revoke(1), 0);
    t3 := Perform(c, d, t2, Revoke(1), 0).value;
    assert (set i: nat | i in [1]) == {1};
    hide Live, AllRevoked, AllLive, Distinct;
    assert Live(t3.credentials) == Live(t2.credentials) - {1};
    assert Live(t2.credentials) - {1} == map[0 := c.Commitment(1, 0)];
  }

  /** Two leaves are issued and the second is revoked again: the first and the last tree are equal. */
  lemma ThereAndBack<F(!new)>(c: Suite<F>, d: nat) returns (history: seq<Commit<F>>)
    requires c.Ideal() && d > 0
    ensures Serial(c, d, history) && |history| == 3
    ensures Live(TablesAfter(history, 1).credentials) == map[0 := c.Commitment(1, 0)]
    ensures Live(TablesAfter(history, 2).credentials) == map[0 := c.Commitment(1, 0), 1 := c.Commitment(2, 0)]
    ensures Live(TablesAfter(history, 3).credentials) == map[0 := c.Commitment(1, 0)]
    ensures TablesAfter(history, 1).credentials == map[0 := Credential(c.Commitment(1, 0), None, None)]
    ensures forall k :: 0 <= k < 3 ==> history[k].committed == 0
  {
    hide Perform, Live;
    var t1, t2, t3 := ThreeTables(c, d);
    history := [Commit(Issue(1, 0, ""), 0, 0, t1), Commit(Issue(2, 0, ""), 0, 0, t2), Commit(Revoke(1), 0, 0, t3)];
  }

  lemma EqualLeavesEqualRoots<F(!new)>(c: Suite<F>, d: nat, history: seq<Commit<F>>, j: nat, k: nat)
    requires Serial(c, d, history) && j <= |history| && k <= |history|
    requires Live(TablesAfter(history, j).credentials) == Live(TablesAfter(history, k).credentials)
    ensures CurrentRoot(c, d, TablesAfter(history, j).roots) == CurrentRoot(c, d, TablesAfter(history, k).roots)
  {
    hide Serial, Good, CurrentRoot, TablesAfter;
    HistoryGood(c, d, history, j);
    HistoryGood(c, d, history, k);
    CurrentRootIsRoot(c, d, TablesAfter(history, j));
    CurrentRootIsRoot(c, d, TablesAfter(history, k));
  }

  lemma FirstAttemptSucceeds<F(!new)>(c: Suite<F>, d: nat, seen: seq<Tables<F>>, index: nat)
    requires |seen| == Statements(d)
    requires index in seen[0].credentials && seen[0].credentials[index].revokedAt.None?
    requires CurrentRoot(c, d, seen[1].roots) == CurrentRoot(c, d, seen[d + 2].roots)
    ensures PathOf(c, d, seen, index)
         == Path(CurrentRoot(c, d, seen[1].roots), seen[0].credentials[index].commitment,
                 Walk(c, d, seen, Base(d, 0), index))
  {
    hide CurrentRoot, Walk;
  }

  lemma SecondLeafMoved<F(!new)>(d: nat, history: seq<Commit<F>>, schedule: seq<nat>)
    requires d > 0 && |history| == 3 && Schedule(d, history, schedule) && schedule[1] == 1 && schedule[2] == 2
    requires 1 !in Live(TablesAfter(history, 1).credentials) && 1 in Live(TablesAfter(history, 2).credentials)
    ensures !Undisturbed(d, history, schedule, 1, 0)
  {
    AncestorBase(0);
    AncestorBase(1);
    hide TablesAfter, Live, Ancestor;
    assert !UndisturbedAt(d, history, schedule, 1, 0, 0);
  }

  /** With a revocation in the window the promise fails, at every depth: the tree moves and moves back between the two
    * root reads, which agree, while the sibling was read in between. The returned path does not fold to its root. */
  lemma RepublishedRootFoolsReader<F(!new)>(c: Suite<F>, d: nat) returns (history: seq<Commit<F>>, schedule: seq<nat>)
    requires c.Ideal() && d > 0
    ensures Serial(c, d, history) && Schedule(d, history, schedule)
    ensures var r := PathOf(c, d, Observed(d, history, schedule), 0);
            r.Path? && |r.siblings| == d && Fold(c, c.LeafNode(r.leaf), r.siblings, 0, d) != r.root
  {
    history := ThereAndBack(c, d);
    schedule := [1, 1, 2] + seq(2 * d + 2, (j: nat) => 3);
    hide Serial, Good, Fold, Walk, Siblings, CurrentRoot, PathOf, Live, Undisturbed;
    var seen := Observed(d, history, schedule);
    assert seen[0] == seen[1] == TablesAfter(history, 1) && seen[d + 2] == TablesAfter(history, 3);
    EqualLeavesEqualRoots(c, d, history, 1, 3);
    FirstAttemptSucceeds(c, d, seen, 0);
    SecondLeafMoved(d, history, schedule);
    PathFoldsIff(c, d, history, schedule, 0, 0);
  }
}
