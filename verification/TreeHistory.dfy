/** Whole serial histories of the credential tree: which roots are published, when, and until when they verify.
  *
  * That every interleaving of concurrent writers commits such a history is proved in Writers.dfy.
  */
module TreeHistory {
  import opened Hashing
  import opened SparseTree
  import opened TreeTables

  /** One committed transaction: when it started, when it committed, and the tables it left. */
  datatype Commit<F(==)> = Commit(op: Op, started: int, committed: int, tables: Tables<F>)

  function TablesAfter<F(==)>(history: seq<Commit<F>>, k: nat): Tables<F>
    requires k <= |history|
  {
    if k == 0 then EmptyTables() else history[k - 1].tables
  }

  ghost predicate SerialAt<F(!new)>(c: Suite<F>, d: nat, history: seq<Commit<F>>, k: nat)
    requires k < |history|
  {
    && Perform(c, d, TablesAfter(history, k), history[k].op, history[k].started) == Some(history[k].tables)
    && history[k].started <= history[k].committed
    && (k > 0 ==> history[k - 1].committed <= history[k].committed)
  }

  /** Each commit is its transaction run alone on the previous tables; commit times follow commit order.
    * Start times need not. */
  ghost predicate Serial<F(!new)>(c: Suite<F>, d: nat, history: seq<Commit<F>>) {
    forall k: nat :: k < |history| ==> SerialAt(c, d, history, k)
  }

  lemma SerialStep<F(!new)>(c: Suite<F>, d: nat, history: seq<Commit<F>>, k: nat)
    requires Serial(c, d, history) && k < |history|
    ensures Perform(c, d, TablesAfter(history, k), history[k].op, history[k].started)
         == Some(TablesAfter(history, k + 1))
    ensures history[k].started <= history[k].committed
    ensures k > 0 ==> history[k - 1].committed <= history[k].committed
  {
    hide Perform;
    assert SerialAt(c, d, history, k);
  }

  lemma AppendSerial<F(!new)>(c: Suite<F>, d: nat, history: seq<Commit<F>>, last: Commit<F>)
    requires Serial(c, d, history)
    requires Perform(c, d, TablesAfter(history, |history|), last.op, last.started) == Some(last.tables)
    requires last.started <= last.committed
    requires history != [] ==> history[|history| - 1].committed <= last.committed
    ensures Serial(c, d, history + [last])
  {
    hide Perform;
    var history' := history + [last];
    forall k: nat | k < |history'|
      ensures SerialAt(c, d, history', k)
    {
      assert TablesAfter(history', k) == TablesAfter(history, k);
      if k < |history| {
        assert SerialAt(c, d, history, k);
      }
    }
  }

  // ---------------------------------------------------------------- what a transaction publishes

  /** The leaf maps left by clearing rows one after the other. */
  function Drops<F>(live: map<nat, F>, rows: seq<nat>): seq<map<nat, F>> {
    if rows == [] then [] else [live - {rows[0]}] + Drops(live - {rows[0]}, rows[1..])
  }

  /** The leaf maps a transaction writes to the tree, in order: one per writeLeaf. */
  ghost function Writes<F(!new)>(c: Suite<F>, t: Tables<F>, op: Op): seq<map<nat, F>> {
    var live := Live(t.credentials);
    match op
    case Issue(secret, attribute, _) => [live[|t.credentials| := c.Commitment(secret, attribute)]]
    case _ => Drops(live, Rows(t.credentials, op))
  }

  function PublishAll<F(==, !new)>(c: Suite<F>, d: nat, roots: map<F, Option<int>>, maps: seq<map<nat, F>>, now: int)
    : map<F, Option<int>>
    decreases |maps|
  {
    if maps == [] then roots else PublishAll(c, d, Publish(roots, Dense(c, maps[0], d, 0), now), maps[1..], now)
  }

  lemma {:induction false} RevokeRowsPublishes<F(!new)>(c: Suite<F>, d: nat, t: Tables<F>, rows: seq<nat>, now: int)
    requires Good(c, d, t) && Distinct(rows) && AllLive(t.credentials, rows)
    ensures RevokeRows(c, d, t, rows, now).Some?
    ensures RevokeRows(c, d, t, rows, now).value.roots
         == PublishAll(c, d, t.roots, Drops(Live(t.credentials), rows), now)
    decreases |rows|
  {
    RevokeRowsKeepsGood(c, d, t, rows, now);
    if rows != [] {
      var i := rows[0];
      assert i in rows;
      DropKeepsGood(c, d, t, i, now);
      var credentials := MarkRevoked(t.credentials, i, now).value;
      var t1 := WriteLeaf(c, d, t.(credentials := credentials), i, None, now);
      assert forall j :: j in rows <==> j == i || j in rows[1..];
      RevokeRowsPublishes(c, d, t1, rows[1..], now);
      var maps := Drops(Live(t.credentials), rows);
      assert maps[0] == Live(credentials) && maps[1..] == Drops(Live(credentials), rows[1..]);
    }
  }

  lemma PublishOne<F(!new)>(c: Suite<F>, d: nat, roots: map<F, Option<int>>, live: map<nat, F>, now: int)
    ensures PublishAll(c, d, roots, [live], now) == Publish(roots, Dense(c, live, d, 0), now)
  {
    hide Publish, Dense;
    assert [live][1..] == [];
  }

  lemma IssuePublishes<F(!new)>(c: Suite<F>, d: nat, t: Tables<F>, op: Op, now: int)
    requires op.Issue? && Good(c, d, t) && Perform(c, d, t, op, now).Some?
    ensures Perform(c, d, t, op, now).value.roots == PublishAll(c, d, t.roots, Writes(c, t, op), now)
  {
    hide Perform, Good, Dense, PublishAll, Publish;
    IssueKeepsGood(c, d, t, op.secret, op.attribute, op.issuedTo, now);
    var t' := Perform(c, d, t, op, now).value;
    assert Live(t'.credentials) == Live(t.credentials)[|t.credentials| := c.Commitment(op.secret, op.attribute)];
    PublishOne(c, d, t.roots, Live(t'.credentials), now);
  }

  /** The roots table changes exactly by publishing, in order, the roots of the leaf maps written. */
  lemma PerformPublishes<F(!new)>(c: Suite<F>, d: nat, t: Tables<F>, op: Op, now: int)
    requires Good(c, d, t) && Perform(c, d, t, op, now).Some?
    ensures Perform(c, d, t, op, now).value.roots == PublishAll(c, d, t.roots, Writes(c, t, op), now)
  {
    if op.Issue? {
      hide Perform, Good;
      IssuePublishes(c, d, t, op, now);
    } else {
      RevokeKeepsGood(c, d, t, op, now);
      RevokeRowsPublishes(c, d, t, Rows(t.credentials, op), now);
      hide Good, RevokeRows;
    }
  }

  // ---------------------------------------------------------------- invariants along a history

  lemma NothingIsGood<F(!new)>(c: Suite<F>, d: nat, history: seq<Commit<F>>)
    ensures Good(c, d, TablesAfter(history, 0))
  {
    hide Good;
    EmptyIsGood(c, d);
  }

  lemma {:induction false} HistoryGood<F(!new)>(c: Suite<F>, d: nat, history: seq<Commit<F>>, k: nat)
    requires Serial(c, d, history) && k <= |history|
    ensures Good(c, d, TablesAfter(history, k))
  {
    hide *;
    if k == 0 {
      NothingIsGood(c, d, history);
    } else {
      SerialStep(c, d, history, k - 1);
      HistoryGood(c, d, history, k - 1);
      PerformKeepsGood(c, d, TablesAfter(history, k - 1), history[k - 1].op, history[k - 1].started);
    }
  }

  /** Rows are never deleted, never change commitment or owner, and never come back to life. */
  ghost predicate Extends<F(!new)>(before: map<nat, Credential<F>>, after: map<nat, Credential<F>>) {
    forall i :: i in before ==>
      && i in after
      && after[i].commitment == before[i].commitment && after[i].issuedTo == before[i].issuedTo
      && (before[i].revokedAt.Some? ==> after[i].revokedAt == before[i].revokedAt)
  }

  ghost predicate IsCommitment<F(!new)>(c: Suite<F>, x: F) {
    exists secret: nat, attribute: nat :: x == c.Commitment(secret, attribute)
  }

  ghost predicate Minted<F(!new)>(c: Suite<F>, credentials: map<nat, Credential<F>>) {
    forall i :: i in credentials ==> IsCommitment(c, credentials[i].commitment)
  }

  lemma PerformExtends<F(!new)>(c: Suite<F>, d: nat, t: Tables<F>, op: Op, now: int)
    requires Good(c, d, t) && Perform(c, d, t, op, now).Some?
    ensures var t' := Perform(c, d, t, op, now).value;
            Extends(t.credentials, t'.credentials) && (Minted(c, t.credentials) ==> Minted(c, t'.credentials))
  {
    hide Good, Perform, Rows, Live;
    if op.Issue? {
      IssueKeepsGood(c, d, t, op.secret, op.attribute, op.issuedTo, now);
      assert IsCommitment(c, c.Commitment(op.secret, op.attribute));
    } else {
      RevokeKeepsGood(c, d, t, op, now);
      hide IsCommitment;
    }
  }

  lemma ExtendsReflexive<F(!new)>(a: map<nat, Credential<F>>)
    ensures Extends(a, a)
  {
  }

  lemma ExtendsTransitive<F(!new)>(a: map<nat, Credential<F>>, b: map<nat, Credential<F>>, c: map<nat, Credential<F>>)
    requires Extends(a, b) && Extends(b, c)
    ensures Extends(a, c)
  {
  }

  lemma {:induction false} HistoryExtends<F(!new)>(c: Suite<F>, d: nat, history: seq<Commit<F>>, j: nat, k: nat)
    requires Serial(c, d, history) && j <= k <= |history|
    ensures Extends(TablesAfter(history, j).credentials, TablesAfter(history, k).credentials)
    decreases k
  {
    hide *;
    if j < k {
      var before, t, t' := TablesAfter(history, j), TablesAfter(history, k - 1), TablesAfter(history, k);
      HistoryExtends(c, d, history, j, k - 1);
      HistoryGood(c, d, history, k - 1);
      SerialStep(c, d, history, k - 1);
      PerformExtends(c, d, t, history[k - 1].op, history[k - 1].started);
      ExtendsTransitive(before.credentials, t.credentials, t'.credentials);
    } else {
      ExtendsReflexive(TablesAfter(history, j).credentials);
    }
  }

  lemma NothingMinted<F(!new)>(c: Suite<F>, history: seq<Commit<F>>)
    ensures Minted(c, TablesAfter(history, 0).credentials)
  {
  }

  lemma {:induction false} HistoryMinted<F(!new)>(c: Suite<F>, d: nat, history: seq<Commit<F>>, k: nat)
    requires Serial(c, d, history) && k <= |history|
    ensures Minted(c, TablesAfter(history, k).credentials)
  {
    hide *;
    if k > 0 {
      HistoryMinted(c, d, history, k - 1);
      HistoryGood(c, d, history, k - 1);
      SerialStep(c, d, history, k - 1);
      PerformExtends(c, d, TablesAfter(history, k - 1), history[k - 1].op, history[k - 1].started);
    } else {
      NothingMinted(c, history);
    }
  }

  /** A leaf map the tree can hold: indices in range, every leaf a commitment. */
  ghost predicate LeafMap<F(!new)>(c: Suite<F>, d: nat, live: map<nat, F>) {
    InTree(d, live) && forall i :: i in live ==> IsCommitment(c, live[i])
  }

  lemma LeafMapNoneEmpty<F(!new)>(c: Suite<F>, d: nat, live: map<nat, F>)
    requires c.Ideal() && LeafMap(c, d, live)
    ensures NoneEmpty(c, live)
  {
    forall i | i in live
      ensures live[i] != c.Domain("empty")
    {
      assert IsCommitment(c, live[i]);
    }
  }

  lemma LeafMapRootBinds<F(!new)>(c: Suite<F>, d: nat, live: map<nat, F>, live': map<nat, F>)
    requires c.Ideal() && LeafMap(c, d, live) && LeafMap(c, d, live')
    ensures Dense(c, live, d, 0) == Dense(c, live', d, 0) <==> live == live'
  {
    LeafMapNoneEmpty(c, d, live);
    LeafMapNoneEmpty(c, d, live');
    hide IsCommitment;
    if Dense(c, live, d, 0) == Dense(c, live', d, 0) {
      RootBinds(c, d, live, live');
    }
  }

  lemma {:induction false} DropsShape<F(!new)>(live: map<nat, F>, rows: seq<nat>, m: map<nat, F>)
    requires m in Drops(live, rows)
    ensures forall i :: i in m ==> i in live && m[i] == live[i]
    ensures rows != [] && rows[0] !in m
    decreases |rows|
  {
    if rows != [] && m != live - {rows[0]} {
      DropsShape(live - {rows[0]}, rows[1..], m);
    }
  }

  lemma LiveWithin<F(!new)>(credentials: map<nat, Credential<F>>)
    ensures forall i :: i in Live(credentials) ==> i in credentials
  {
  }

  lemma IssueWrites<F(!new)>(c: Suite<F>, d: nat, t: Tables<F>, op: Op, now: int)
    requires op.Issue? && Good(c, d, t) && Perform(c, d, t, op, now).Some?
    ensures |t.credentials| !in t.credentials && |t.credentials| < Pow2(d)
    ensures IsCommitment(c, c.Commitment(op.secret, op.attribute))
  {
    hide Perform, TreeGood;
    IssueKeepsGood(c, d, t, op.secret, op.attribute, op.issuedTo, now);
  }

  lemma GoodLeafMap<F(!new)>(c: Suite<F>, d: nat, t: Tables<F>)
    requires Good(c, d, t) && Minted(c, t.credentials)
    ensures LeafMap(c, d, Live(t.credentials))
  {
    hide TreeGood, IsCommitment;
  }

  /** What a transaction writes stays within the leaves it found and the one index it may add. */
  lemma WritesShape<F(!new)>(c: Suite<F>, d: nat, t: Tables<F>, op: Op, now: int, m: map<nat, F>)
    requires Good(c, d, t) && Minted(c, t.credentials) && Perform(c, d, t, op, now).Some? && m in Writes(c, t, op)
    ensures LeafMap(c, d, m)
    ensures forall i :: i in m && i in t.credentials ==> i in Live(t.credentials)
  {
    hide Perform, Good, Minted, IsCommitment, Live, Rows;
    GoodLeafMap(c, d, t);
    if op.Issue? {
      IssueWrites(c, d, t, op, now);
    } else {
      DropsShape(Live(t.credentials), Rows(t.credentials, op), m);
    }
    LiveWithin(t.credentials);
  }

  lemma HistoryLeafMap<F(!new)>(c: Suite<F>, d: nat, history: seq<Commit<F>>, k: nat)
    requires Serial(c, d, history) && k <= |history|
    ensures LeafMap(c, d, Live(TablesAfter(history, k).credentials))
  {
    hide Serial, Good, Minted, LeafMap;
    HistoryGood(c, d, history, k);
    HistoryMinted(c, d, history, k);
    GoodLeafMap(c, d, TablesAfter(history, k));
  }

  // ---------------------------------------------------------------- retirement

  ghost predicate RetiredBy<F(!new)>(roots: map<F, Option<int>>, latest: int) {
    forall r :: r in roots && roots[r].Some? ==> roots[r].value <= latest
  }

  lemma {:induction false} PublishAllTimes<F(!new)>(
    c: Suite<F>, d: nat, roots: map<F, Option<int>>, maps: seq<map<nat, F>>, now: int, latest: int)
    requires RetiredBy(roots, latest) && now <= latest
    ensures RetiredBy(PublishAll(c, d, roots, maps, now), latest)
    decreases |maps|
  {
    if maps != [] {
      PublishAllTimes(c, d, Publish(roots, Dense(c, maps[0], d, 0), now), maps[1..], now, latest);
    }
  }

  /** Publishing other roots leaves a retired root's entry as it is. */
  lemma {:induction false} PublishAllKeeps<F(!new)>(
    c: Suite<F>, d: nat, roots: map<F, Option<int>>, maps: seq<map<nat, F>>, now: int, root: F)
    requires root in roots ==> roots[root].Some?
    requires forall m :: m in maps ==> Dense(c, m, d, 0) != root
    ensures var roots' := PublishAll(c, d, roots, maps, now);
            (root in roots' <==> root in roots) && (root in roots ==> roots'[root] == roots[root])
    decreases |maps|
  {
    if maps != [] {
      assert maps[0] in maps;
      PublishAllKeeps(c, d, Publish(roots, Dense(c, maps[0], d, 0), now), maps[1..], now, root);
    }
  }

  lemma {:induction false} HistoryRetiredBy<F(!new)>(c: Suite<F>, d: nat, history: seq<Commit<F>>, k: nat)
    requires Serial(c, d, history) && k < |history|
    ensures RetiredBy(TablesAfter(history, k + 1).roots, history[k].committed)
  {
    hide Perform, Good, PublishAll, Writes, Serial;
    var t := TablesAfter(history, k);
    if k > 0 {
      HistoryRetiredBy(c, d, history, k - 1);
    }
    SerialStep(c, d, history, k);
    HistoryGood(c, d, history, k);
    PerformPublishes(c, d, t, history[k].op, history[k].started);
    PublishAllTimes(c, d, t.roots, Writes(c, t, history[k].op), history[k].started, history[k].committed);
  }

  /** Commit k removed leaf i from the tree. */
  ghost predicate Revokes<F(!new)>(history: seq<Commit<F>>, k: nat, i: nat) {
    && k < |history|
    && i in Live(TablesAfter(history, k).credentials)
    && i !in Live(TablesAfter(history, k + 1).credentials)
  }

  lemma RevocationRetires<F(!new)>(
    c: Suite<F>, d: nat, history: seq<Commit<F>>, k: nat, i: nat, live: map<nat, F>)
    requires c.Ideal() && Serial(c, d, history) && Revokes(history, k, i)
    requires LeafMap(c, d, live) && i in live
    ensures var root, roots := Dense(c, live, d, 0), TablesAfter(history, k + 1).roots;
            root in roots ==> roots[root].Some?
  {
    hide Perform, Dense, Represents, Serial, LeafMap;
    HistoryGood(c, d, history, k + 1);
    HistoryLeafMap(c, d, history, k + 1);
    HistoryExtends(c, d, history, k, k + 1);
    LeafMapRootBinds(c, d, live, Live(TablesAfter(history, k + 1).credentials));
  }

  lemma StaysRevoked<F(!new)>(c: Suite<F>, d: nat, history: seq<Commit<F>>, k: nat, i: nat, j: nat)
    requires Serial(c, d, history) && Revokes(history, k, i) && k < j <= |history|
    ensures var t := TablesAfter(history, j); i in t.credentials && i !in Live(t.credentials)
  {
    hide Serial;
    HistoryExtends(c, d, history, k, k + 1);
    HistoryExtends(c, d, history, k + 1, j);
    var before, mid, after := TablesAfter(history, k), TablesAfter(history, k + 1), TablesAfter(history, j);
    assert i in before.credentials && i in mid.credentials && mid.credentials[i].revokedAt.Some?;
  }

  /** A transaction that finds leaf i revoked leaves every root over i as it is. */
  lemma PerformKeepsRevokedRoot<F(!new)>(c: Suite<F>, d: nat, t: Tables<F>, op: Op, now: int, i: nat, live: map<nat, F>)
    requires c.Ideal() && Good(c, d, t) && Minted(c, t.credentials) && Perform(c, d, t, op, now).Some?
    requires i in t.credentials && i !in Live(t.credentials)
    requires LeafMap(c, d, live) && i in live
    requires Dense(c, live, d, 0) in t.roots ==> t.roots[Dense(c, live, d, 0)].Some?
    ensures var root, roots := Dense(c, live, d, 0), Perform(c, d, t, op, now).value.roots;
            (root in roots <==> root in t.roots) && (root in roots ==> roots[root] == t.roots[root])
  {
    hide Perform, Good, Dense, PublishAll, Writes, LeafMap, Minted, Live;
    var root := Dense(c, live, d, 0);
    forall m | m in Writes(c, t, op)
      ensures Dense(c, m, d, 0) != root
    {
      WritesShape(c, d, t, op, now, m);
      LeafMapRootBinds(c, d, live, m);
    }
    PerformPublishes(c, d, t, op, now);
    PublishAllKeeps(c, d, t.roots, Writes(c, t, op), now, root);
  }

  /** After the revocation, a root whose tree holds the revoked leaf is never touched again. */
  lemma {:induction false} RevokedRootFrozen<F(!new)>(
    c: Suite<F>, d: nat, history: seq<Commit<F>>, k: nat, i: nat, live: map<nat, F>, j: nat)
    requires c.Ideal() && Serial(c, d, history) && Revokes(history, k, i) && k < j <= |history|
    requires LeafMap(c, d, live) && i in live
    ensures var root := Dense(c, live, d, 0);
            var before, after := TablesAfter(history, k + 1).roots, TablesAfter(history, j).roots;
            && (root in before ==> before[root].Some?)
            && (root in after <==> root in before) && (root in after ==> after[root] == before[root])
  {
    hide Perform, Good, Dense, LeafMap, Minted, Serial, Revokes, Live;
    if j == k + 1 {
      RevocationRetires(c, d, history, k, i, live);
    } else {
      RevokedRootFrozen(c, d, history, k, i, live, j - 1);
      HistoryGood(c, d, history, j - 1);
      HistoryMinted(c, d, history, j - 1);
      StaysRevoked(c, d, history, k, i, j - 1);
      SerialStep(c, d, history, j - 1);
      PerformKeepsRevokedRoot(c, d, TablesAfter(history, j - 1), history[j - 1].op, history[j - 1].started, i, live);
    }
  }

  /** Revocation latency is at most the grace: from then on no root whose tree holds the revoked leaf verifies. */
  lemma RevocationLatency<F(!new)>(
    c: Suite<F>, d: nat, history: seq<Commit<F>>, k: nat, i: nat, live: map<nat, F>, j: nat, grace: int, at: int)
    requires c.Ideal() && Serial(c, d, history) && Revokes(history, k, i) && k < j <= |history|
    requires LeafMap(c, d, live) && i in live
    requires at >= history[k].committed + grace
    ensures !Accepted(TablesAfter(history, j).roots, Dense(c, live, d, 0), grace, at)
  {
    hide Perform, Good, Dense, LeafMap;
    RevokedRootFrozen(c, d, history, k, i, live, j);
    HistoryRetiredBy(c, d, history, k);
  }

  // ---------------------------------------------------------------- a person's credentials

  /** Commit j issued leaf n to a holder of this name. */
  ghost predicate IssuedTo<F(!new)>(history: seq<Commit<F>>, j: nat, n: nat, name: string) {
    && j < |history| && history[j].op.Issue? && history[j].op.issuedTo == name
    && n !in TablesAfter(history, j).credentials && n in TablesAfter(history, j + 1).credentials
  }

  lemma RowNames<F(!new)>(c: Suite<F>, d: nat, history: seq<Commit<F>>, j: nat, k: nat, n: nat, name: string)
    requires Serial(c, d, history) && IssuedTo(history, j, n, name) && j < k <= |history|
    ensures n in TablesAfter(history, k).credentials
    ensures TablesAfter(history, k).credentials[n].issuedTo == if name == "" then None else Some(name)
  {
    hide Serial, Perform, Good;
    var op := history[j].op;
    HistoryGood(c, d, history, j);
    SerialStep(c, d, history, j);
    IssueKeepsGood(c, d, TablesAfter(history, j), op.secret, op.attribute, op.issuedTo, history[j].started);
    HistoryExtends(c, d, history, j + 1, k);
  }

  /** Revoking a named user revokes every credential that was issued to that name, for good. */
  lemma RevokeUserRevokesIssued<F(!new)>(
    c: Suite<F>, d: nat, history: seq<Commit<F>>, j: nat, k: nat, m: nat, n: nat, user: string)
    requires Serial(c, d, history) && IssuedTo(history, j, n, user) && user != ""
    requires j < k < m <= |history| && history[k].op == RevokeUser(user)
    ensures n !in Live(TablesAfter(history, m).credentials)
  {
    hide Serial, Perform, Good, IssuedTo;
    var t := TablesAfter(history, k);
    RowNames(c, d, history, j, k, n, user);
    HistoryGood(c, d, history, k);
    SerialStep(c, d, history, k);
    RevokeKeepsGood(c, d, t, RevokeUser(user), history[k].started);
    NextLeafIsCount(c, d, t);
    assert n in Live(t.credentials) ==> n in Rows(t.credentials, RevokeUser(user));
    assert n !in Live(TablesAfter(history, k + 1).credentials);
    HistoryExtends(c, d, history, k, k + 1);
    HistoryExtends(c, d, history, k + 1, m);
  }

  /** ... and no other: a live credential issued to another name, or to none, is live right after. */
  lemma RevokeUserSparesOthers<F(!new)>(
    c: Suite<F>, d: nat, history: seq<Commit<F>>, j: nat, k: nat, n: nat, name: string, user: string)
    requires Serial(c, d, history) && IssuedTo(history, j, n, name) && (name != user || name == "")
    requires j < k < |history| && history[k].op == RevokeUser(user)
    requires n in Live(TablesAfter(history, k).credentials)
    ensures n in Live(TablesAfter(history, k + 1).credentials)
  {
    hide Serial, Perform, Good, IssuedTo;
    var t := TablesAfter(history, k);
    RowNames(c, d, history, j, k, n, name);
    HistoryGood(c, d, history, k);
    SerialStep(c, d, history, k);
    RevokeKeepsGood(c, d, t, RevokeUser(user), history[k].started);
    assert n !in Rows(t.credentials, RevokeUser(user));
  }

  // ---------------------------------------------------------------- tightness

  lemma PublishAllRetires<F(!new)>(
    c: Suite<F>, d: nat, roots: map<F, Option<int>>, maps: seq<map<nat, F>>, now: int, root: F)
    requires maps != [] && root in roots && roots[root].None?
    requires forall m :: m in maps ==> Dense(c, m, d, 0) != root
    ensures var roots' := PublishAll(c, d, roots, maps, now);
            root in roots' && roots'[root] == Some(now)
  {
    hide Dense;
    assert maps[0] in maps;
    PublishAllKeeps(c, d, Publish(roots, Dense(c, maps[0], d, 0), now), maps[1..], now, root);
  }

  lemma WritesAvoidCurrent<F(!new)>(c: Suite<F>, d: nat, t: Tables<F>, op: Op, now: int, m: map<nat, F>)
    requires c.Ideal() && Good(c, d, t) && Minted(c, t.credentials)
    requires !op.Issue? && m in Writes(c, t, op)
    ensures Dense(c, m, d, 0) != Root(c, d, t)
  {
    RevokeKeepsGood(c, d, t, op, now);
    hide Perform, Good, Dense, LeafMap, Minted;
    var rows := Rows(t.credentials, op);
    WritesShape(c, d, t, op, now, m);
    DropsShape(Live(t.credentials), rows, m);
    assert rows[0] in rows && rows[0] in Live(t.credentials);
    GoodLeafMap(c, d, t);
    LeafMapRootBinds(c, d, m, Live(t.credentials));
  }

  /** A revoking transaction with something to revoke retires the root it found at its own start time. */
  lemma RevocationRetiresCurrent<F(!new)>(c: Suite<F>, d: nat, t: Tables<F>, op: Op, now: int)
    requires c.Ideal() && Good(c, d, t) && Minted(c, t.credentials)
    requires !op.Issue? && Rows(t.credentials, op) != []
    ensures Perform(c, d, t, op, now).Some?
    ensures var roots := Perform(c, d, t, op, now).value.roots;
            Root(c, d, t) in roots && roots[Root(c, d, t)] == Some(now)
  {
    hide Perform, Represents, Dense, PublishAll, Minted;
    var rows, maps := Rows(t.credentials, op), Writes(c, t, op);
    RevokeKeepsGood(c, d, t, op, now);
    assert rows[0] in rows;
    assert t.credentials != map[];
    forall m | m in maps
      ensures Dense(c, m, d, 0) != Root(c, d, t)
    {
      WritesAvoidCurrent(c, d, t, op, now, m);
    }
    PerformPublishes(c, d, t, op, now);
    PublishAllRetires(c, d, t.roots, maps, now, Root(c, d, t));
  }

  /** Only a revocation with rows to clear takes a leaf out of the tree. */
  lemma RevokingOp<F(!new)>(c: Suite<F>, d: nat, history: seq<Commit<F>>, k: nat, i: nat)
    requires Serial(c, d, history) && Revokes(history, k, i)
    ensures i in Live(TablesAfter(history, k).credentials)
    ensures !history[k].op.Issue? && Rows(TablesAfter(history, k).credentials, history[k].op) != []
  {
    hide Serial, Perform, Good, Rows;
    var t, op, now := TablesAfter(history, k), history[k].op, history[k].started;
    HistoryGood(c, d, history, k);
    SerialStep(c, d, history, k);
    if op.Issue? {
      IssueKeepsGood(c, d, t, op.secret, op.attribute, op.issuedTo, now);
    } else {
      RevokeKeepsGood(c, d, t, op, now);
    }
  }

  /** The bound is tight: the root current before a revocation verifies exactly while its grace, counted from the
    * revoking transaction's start, has not run out. */
  lemma RevokedRootWindow<F(!new)>(
    c: Suite<F>, d: nat, history: seq<Commit<F>>, k: nat, i: nat, j: nat, grace: int, at: int)
    requires c.Ideal() && Serial(c, d, history) && Revokes(history, k, i) && k < j <= |history|
    ensures Accepted(TablesAfter(history, j).roots, Root(c, d, TablesAfter(history, k)), grace, at)
       <==> grace > 0 && at < history[k].started + grace
  {
    hide Serial, Perform, Good, Dense, LeafMap, Minted, Revokes, Live, Rows;
    var t, op, now := TablesAfter(history, k), history[k].op, history[k].started;
    HistoryGood(c, d, history, k);
    HistoryMinted(c, d, history, k);
    HistoryLeafMap(c, d, history, k);
    SerialStep(c, d, history, k);
    RevokingOp(c, d, history, k, i);
    RevocationRetiresCurrent(c, d, t, op, now);
    RevokedRootFrozen(c, d, history, k, i, Live(t.credentials), j);
  }

  // ---------------------------------------------------------------- roots and leaf sets

  function Elements<T(==)>(s: seq<T>): set<T> {
    set x | x in s
  }

  /** Every leaf map whose root has been published by the first k commits, including those inside a batch. */
  ghost function Published<F(!new)>(c: Suite<F>, history: seq<Commit<F>>, k: nat): set<map<nat, F>>
    requires k <= |history|
  {
    if k == 0 then {}
    else Published(c, history, k - 1) + Elements(Writes(c, TablesAfter(history, k - 1), history[k - 1].op))
  }

  lemma {:induction false} PublishAllKeys<F(!new)>(
    c: Suite<F>, d: nat, roots: map<F, Option<int>>, maps: seq<map<nat, F>>, now: int, r: F)
    ensures r in PublishAll(c, d, roots, maps, now) <==> r in roots || exists m :: m in maps && Dense(c, m, d, 0) == r
    decreases |maps|
  {
    if maps != [] {
      assert forall m :: m in maps <==> m == maps[0] || m in maps[1..];
      assert r in Publish(roots, Dense(c, maps[0], d, 0), now) <==> r in roots || r == Dense(c, maps[0], d, 0);
      var roots' := Publish(roots, Dense(c, maps[0], d, 0), now);
      PublishAllKeys(c, d, roots', maps[1..], now, r);
      if m :| m in maps && Dense(c, m, d, 0) == r {
        assert r in roots' || m in maps[1..];
      }
    }
  }

  lemma {:induction false} RootsArePublished<F(!new)>(c: Suite<F>, d: nat, history: seq<Commit<F>>, k: nat, r: F)
    requires Serial(c, d, history) && k <= |history|
    ensures r in TablesAfter(history, k).roots <==> exists m :: m in Published(c, history, k) && Dense(c, m, d, 0) == r
    ensures forall m :: m in Published(c, history, k) ==> LeafMap(c, d, m)
  {
    hide Serial, Perform, Good, Dense, PublishAll, Writes, LeafMap, Minted;
    if k > 0 {
      var t, op, now := TablesAfter(history, k - 1), history[k - 1].op, history[k - 1].started;
      RootsArePublished(c, d, history, k - 1, r);
      HistoryGood(c, d, history, k - 1);
      HistoryMinted(c, d, history, k - 1);
      SerialStep(c, d, history, k - 1);
      PerformPublishes(c, d, t, op, now);
      PublishAllKeys(c, d, t.roots, Writes(c, t, op), now, r);
      forall m | m in Writes(c, t, op)
        ensures LeafMap(c, d, m)
      {
        WritesShape(c, d, t, op, now, m);
      }
    }
  }

  /** Every leaf a transaction writes has its row when the transaction has committed. */
  lemma WritesHaveRows<F(!new)>(c: Suite<F>, d: nat, t: Tables<F>, op: Op, now: int, m: map<nat, F>)
    requires Good(c, d, t) && Perform(c, d, t, op, now).Some? && m in Writes(c, t, op)
    ensures var rows := Perform(c, d, t, op, now).value.credentials;
            forall i :: i in m ==> i in rows && rows[i].commitment == m[i]
  {
    hide Perform, Good, Rows;
    if op.Issue? {
      IssueKeepsGood(c, d, t, op.secret, op.attribute, op.issuedTo, now);
    } else {
      RevokeKeepsGood(c, d, t, op, now);
      DropsShape(Live(t.credentials), Rows(t.credentials, op), m);
    }
  }

  /** Every leaf of a published map is a credential that has been issued. */
  lemma {:induction false} PublishedHasRows<F(!new)>(
    c: Suite<F>, d: nat, history: seq<Commit<F>>, k: nat, m: map<nat, F>)
    requires Serial(c, d, history) && k <= |history| && m in Published(c, history, k)
    ensures var rows := TablesAfter(history, k).credentials;
            forall i :: i in m ==> i in rows && rows[i].commitment == m[i]
  {
    hide Serial, Perform, Good, Writes;
    if k > 0 {
      var t, op, now := TablesAfter(history, k - 1), history[k - 1].op, history[k - 1].started;
      HistoryGood(c, d, history, k - 1);
      SerialStep(c, d, history, k - 1);
      if m in Writes(c, t, op) {
        WritesHaveRows(c, d, t, op, now, m);
      } else {
        PublishedHasRows(c, d, history, k - 1, m);
        HistoryExtends(c, d, history, k - 1, k);
      }
    }
  }

  /** Republication happens exactly when a leaf set recurs: a root is already in the table iff that very leaf map
    * was published before. */
  lemma RepublishedIffRecurs<F(!new)>(c: Suite<F>, d: nat, history: seq<Commit<F>>, k: nat, live: map<nat, F>)
    requires c.Ideal() && Serial(c, d, history) && k <= |history| && LeafMap(c, d, live)
    ensures Dense(c, live, d, 0) in TablesAfter(history, k).roots <==> live in Published(c, history, k)
  {
    hide Serial, Dense, LeafMap, Published;
    RootsArePublished(c, d, history, k, Dense(c, live, d, 0));
    forall m | m in Published(c, history, k)
      ensures Dense(c, live, d, 0) == Dense(c, m, d, 0) <==> live == m
    {
      LeafMapRootBinds(c, d, live, m);
    }
  }

  /** The tree is a function of the live leaves: same leaves, same rows and same current root, in any two histories. */
  lemma SameLeavesSameTree<F(!new)>(c: Suite<F>, d: nat, t: Tables<F>, t': Tables<F>)
    requires Good(c, d, t) && Good(c, d, t') && Live(t.credentials) == Live(t'.credentials)
    ensures t.nodes == t'.nodes
    ensures t.credentials != map[] && t'.credentials != map[] ==>
              CurrentIs(t.roots, Root(c, d, t')) && CurrentIs(t'.roots, Root(c, d, t'))
  {
    RepresentsUnique(c, d, t.nodes, t'.nodes, Live(t.credentials));
  }

  /** ... and different leaves, different current roots. */
  lemma DifferentLeavesDifferentRoots<F(!new)>(
    c: Suite<F>, d: nat, history: seq<Commit<F>>, k: nat, history': seq<Commit<F>>, k': nat)
    requires c.Ideal() && Serial(c, d, history) && Serial(c, d, history') && k <= |history| && k' <= |history'|
    ensures Root(c, d, TablesAfter(history, k)) == Root(c, d, TablesAfter(history', k'))
       <==> Live(TablesAfter(history, k).credentials) == Live(TablesAfter(history', k').credentials)
  {
    HistoryLeafMap(c, d, history, k);
    HistoryLeafMap(c, d, history', k');
    hide Serial, Dense, LeafMap;
    LeafMapRootBinds(c, d, Live(TablesAfter(history, k).credentials), Live(TablesAfter(history', k').credentials));
  }

  /** Rows stored: one per position with a live leaf under it, so at most depth per live credential. */
  lemma StorageIsCanonical<F(!new)>(c: Suite<F>, d: nat, history: seq<Commit<F>>, k: nat, level: nat, idx: nat)
    requires c.Ideal() && Serial(c, d, history) && k <= |history| && level < d
    ensures var t := TablesAfter(history, k);
            && ((level, idx) in t.nodes <==> HasLeafUnder(Live(t.credentials), level, idx))
            && |t.nodes| <= d * |Live(t.credentials)|
  {
    hide Serial, Represents, LeafMap;
    var t := TablesAfter(history, k);
    HistoryGood(c, d, history, k);
    HistoryLeafMap(c, d, history, k);
    LeafMapNoneEmpty(c, d, Live(t.credentials));
    RowIffLeafUnder(c, d, t.nodes, Live(t.credentials), level, idx);
    StorageBound(c, d, t.nodes, Live(t.credentials));
  }

  // ---------------------------------------------------------------- batches

  /** Revoking a list of leaves in separate transactions, each at its own time. */
  ghost function Singly<F(!new)>(c: Suite<F>, d: nat, t: Tables<F>, order: seq<nat>, times: seq<int>): Tables<F>
    requires |order| == |times|
    decreases |order|
  {
    if order == [] then t
    else
      match Perform(c, d, t, Revoke(order[0]), times[0])
      case None => t
      case Some(t') => Singly(c, d, t', order[1..], times[1..])
  }

  lemma {:induction false} SinglyClears<F(!new)>(c: Suite<F>, d: nat, t: Tables<F>, order: seq<nat>, times: seq<int>)
    requires Good(c, d, t) && Distinct(order) && AllLive(t.credentials, order) && |order| == |times|
    ensures var t' := Singly(c, d, t, order, times);
            Good(c, d, t') && t'.credentials.Keys == t.credentials.Keys
            && Live(t'.credentials) == Live(t.credentials) - (set i | i in order)
    decreases |order|
  {
    hide Good, Perform;
    if order != [] {
      var i := order[0];
      assert i in order && Rows(t.credentials, Revoke(i)) == [i];
      RevokeKeepsGood(c, d, t, Revoke(i), times[0]);
      var t1 := Perform(c, d, t, Revoke(i), times[0]).value;
      assert forall j :: j in order <==> j == i || j in order[1..];
      SinglyClears(c, d, t1, order[1..], times[1..]);
    }
  }

  lemma BatchClears<F(!new)>(c: Suite<F>, d: nat, t: Tables<F>, user: string, now: int, leaves: set<nat>)
    requires Good(c, d, t) && forall i: nat :: i in leaves <==> Holds(t.credentials, i, user)
    ensures AllLive(t.credentials, Rows(t.credentials, RevokeUser(user)))
    ensures Perform(c, d, t, RevokeUser(user), now).Some?
    ensures var batch := Perform(c, d, t, RevokeUser(user), now).value;
            && Good(c, d, batch) && batch.credentials.Keys == t.credentials.Keys
            && Live(batch.credentials) == Live(t.credentials) - leaves
  {
    hide Good, Perform, Live;
    RevokeKeepsGood(c, d, t, RevokeUser(user), now);
    assert (set i | i in Rows(t.credentials, RevokeUser(user))) == leaves;
  }

  /** Revoking a user's leaves in one transaction or one at a time, in any order and at any times, ends in the same
    * live set, node table and current root. */
  lemma BatchIsFoldOfSingles<F(!new)>(
    c: Suite<F>, d: nat, t: Tables<F>, user: string, now: int, order: seq<nat>, times: seq<int>)
    requires Good(c, d, t) && Distinct(order) && |order| == |times|
    requires forall i: nat :: i in order <==> Holds(t.credentials, i, user)
    ensures Perform(c, d, t, RevokeUser(user), now).Some?
    ensures var batch, singles := Perform(c, d, t, RevokeUser(user), now).value, Singly(c, d, t, order, times);
            && Live(batch.credentials) == Live(singles.credentials)
            && batch.nodes == singles.nodes
            && (t.credentials != map[] ==>
                  CurrentIs(batch.roots, Root(c, d, batch)) && CurrentIs(singles.roots, Root(c, d, batch)))
  {
    assert AllLive(t.credentials, order);
    hide Good, Perform, Singly, Rows, Holds, AllRevoked;
    BatchClears(c, d, t, user, now, set i | i in order);
    SinglyClears(c, d, t, order, times);
    SameLeavesSameTree(c, d, Perform(c, d, t, RevokeUser(user), now).value, Singly(c, d, t, order, times));
  }

  lemma OwnPathFolds<F(!new)>(c: Suite<F>, d: nat, t: Tables<F>, i: nat)
    requires Good(c, d, t) && i in Live(t.credentials)
    ensures Fold(c, c.LeafNode(Live(t.credentials)[i]), Siblings(c, d, t.nodes, i), i, d) == Root(c, d, t)
  {
    var live, own := Live(t.credentials), Siblings(c, d, t.nodes, i);
    AncestorRoot(i, d);
    forall l: nat | l < d
      ensures own[l] == Dense(c, live, l, Sibling(Ancestor(i, l)))
    {
    }
    FoldOfTreePath(c, live, own, i, d);
  }

  /** Every leaf of another user survives the batch, with a path that folds to the new root. */
  lemma OthersKeepTheirPaths<F(!new)>(c: Suite<F>, d: nat, t: Tables<F>, user: string, now: int, i: nat)
    requires Good(c, d, t) && i in Live(t.credentials) && t.credentials[i].issuedTo != Some(user)
    ensures Perform(c, d, t, RevokeUser(user), now).Some?
    ensures var t' := Perform(c, d, t, RevokeUser(user), now).value;
            && i in Live(t'.credentials) && Live(t'.credentials)[i] == Live(t.credentials)[i]
            && Fold(c, c.LeafNode(Live(t.credentials)[i]), Siblings(c, d, t'.nodes, i), i, d) == Root(c, d, t')
  {
    RevokeKeepsGood(c, d, t, RevokeUser(user), now);
    var t' := Perform(c, d, t, RevokeUser(user), now).value;
    hide Perform, Represents;
    assert i !in Rows(t.credentials, RevokeUser(user));
    assert i < Pow2(d);
    OwnPathFolds(c, d, t', i);
  }

  /** A fold reaches the current root exactly for a live leaf and the tree's own siblings. */
  lemma FoldsIffOwn<F(!new)>(c: Suite<F>, d: nat, t: Tables<F>, index: nat, leaf: F, siblings: seq<F>)
    requires c.Ideal() && Good(c, d, t) && index < Pow2(d) && |siblings| == d && IsCommitment(c, leaf)
    ensures Fold(c, c.LeafNode(leaf), siblings, index, d) == Root(c, d, t) <==>
            && index in Live(t.credentials) && Live(t.credentials)[index] == leaf
            && siblings == Siblings(c, d, t.nodes, index)
  {
    var live := Live(t.credentials);
    FoldReachesRoot(c, d, t.nodes, live, c.LeafNode(leaf), siblings, index);
    hide Represents, Siblings, Fold;
    if c.LeafNode(leaf) == Dense(c, live, 0, index) {
      LeafBinds(c, leaf, if index in live then live[index] else c.Domain("empty"));
    }
  }

  /** The a-th leaf map a revocation writes lacks exactly the first a + 1 rows. */
  lemma {:induction false} DropsAt<F(!new)>(live: map<nat, F>, rows: seq<nat>, a: nat)
    requires a < |rows|
    ensures |Drops(live, rows)| == |rows|
    ensures Drops(live, rows)[a] == live - Elements(rows[..a + 1])
    decreases |rows|
  {
    var rest := live - {rows[0]};
    if a > 0 {
      DropsAt(rest, rows[1..], a - 1);
      assert rows[..a + 1] == [rows[0]] + rows[1..][..a];
    } else {
      if |rows| > 1 {
        DropsAt(rest, rows[1..], 0);
      }
      assert rows[..1] == [rows[0]];
    }
  }

  lemma {:induction false} PublishAllSplit<F(!new)>(
    c: Suite<F>, d: nat, roots: map<F, Option<int>>, maps: seq<map<nat, F>>, m: nat, now: int)
    requires m <= |maps|
    ensures PublishAll(c, d, roots, maps, now)
         == PublishAll(c, d, PublishAll(c, d, roots, maps[..m], now), maps[m..], now)
    decreases m
  {
    hide Publish, Dense;
    if m > 0 {
      PublishAllSplit(c, d, Publish(roots, Dense(c, maps[0], d, 0), now), maps[1..], m - 1, now);
      assert maps[..m][1..] == maps[1..][..m - 1] && maps[1..][m - 1..] == maps[m..];
    } else {
      assert maps[..0] == [] && maps[0..] == maps;
    }
  }

  lemma PublishAllLast<F(!new)>(c: Suite<F>, d: nat, roots: map<F, Option<int>>, maps: seq<map<nat, F>>, now: int)
    requires maps != []
    ensures var root, roots' := Dense(c, maps[|maps| - 1], d, 0), PublishAll(c, d, roots, maps, now);
            root in roots' && roots'[root].None?
  {
    hide Dense, PublishAll;
    var front := PublishAll(c, d, roots, maps[..|maps| - 1], now);
    PublishAllSplit(c, d, roots, maps, |maps| - 1, now);
    assert maps[|maps| - 1..] == [maps[|maps| - 1]];
    PublishOne(c, d, front, maps[|maps| - 1], now);
  }

  /** The leaf map a batch has reached after its first m rows. */
  ghost function Midbatch<F(!new)>(t: Tables<F>, op: Op, m: nat): map<nat, F>
    requires !op.Issue? && m <= |Rows(t.credentials, op)|
  {
    Live(t.credentials) - Elements(Rows(t.credentials, op)[..m])
  }

  lemma MidbatchHolds<F(!new)>(c: Suite<F>, d: nat, t: Tables<F>, op: Op, m: nat)
    requires Good(c, d, t) && op.RevokeUser? && 0 < m < |Rows(t.credentials, op)|
    ensures var rows, mid := Rows(t.credentials, op), Midbatch(t, op, m);
            && rows[0] < rows[m] && rows[0] in Live(t.credentials) && rows[m] in Live(t.credentials)
            && rows[0] !in mid && rows[m] in mid
  {
    hide Good;
    RevokeKeepsGood(c, d, t, op, 0);
    var rows := Rows(t.credentials, op);
    assert rows[0] in rows && rows[m] in rows;
    assert rows[..m][0] == rows[0];
    assert rows[m] !in rows[..m];
  }

  /** The transaction writes that map on its way, and no later write of it has the leaf of row m again. */
  lemma MidbatchWritten<F(!new)>(c: Suite<F>, d: nat, t: Tables<F>, op: Op, m: nat)
    requires Good(c, d, t) && op.RevokeUser? && 0 < m < |Rows(t.credentials, op)|
    ensures var rows, maps := Rows(t.credentials, op), Writes(c, t, op);
            && |maps| == |rows| && maps[m - 1] == Midbatch(t, op, m)
            && forall later :: later in maps[m..] ==> rows[m] !in later
  {
    hide Good, Rows;
    var rows, maps := Rows(t.credentials, op), Writes(c, t, op);
    DropsAt(Live(t.credentials), rows, m - 1);
    forall later | later in maps[m..]
      ensures rows[m] !in later
    {
      var a :| m <= a < |maps| && maps[a] == later;
      DropsAt(Live(t.credentials), rows, a);
      assert rows[..a + 1][m] == rows[m];
    }
  }

  /** The root of a map reached inside a batch is left retired at the batch's start time. */
  lemma MidbatchRetired<F(!new)>(c: Suite<F>, d: nat, t: Tables<F>, op: Op, m: nat, now: int)
    requires c.Ideal() && Good(c, d, t) && Minted(c, t.credentials)
    requires op.RevokeUser? && 0 < m < |Rows(t.credentials, op)|
    ensures Perform(c, d, t, op, now).Some?
    ensures LeafMap(c, d, Midbatch(t, op, m))
    ensures var root, roots := Dense(c, Midbatch(t, op, m), d, 0), Perform(c, d, t, op, now).value.roots;
            root in roots && roots[root] == Some(now)
  {
    hide Perform, Good, Rows, Minted, Writes, Midbatch, LeafMap, Dense, PublishAll, Live;
    var rows, maps, mid := Rows(t.credentials, op), Writes(c, t, op), Midbatch(t, op, m);
    RevokeKeepsGood(c, d, t, op, now);
    MidbatchHolds(c, d, t, op, m);
    MidbatchWritten(c, d, t, op, m);
    WritesShape(c, d, t, op, now, mid);
    PerformPublishes(c, d, t, op, now);
    PublishAllSplit(c, d, t.roots, maps, m, now);
    PublishAllLast(c, d, t.roots, maps[..m], now);
    forall later | later in maps[m..]
      ensures Dense(c, later, d, 0) != Dense(c, mid, d, 0)
    {
      WritesShape(c, d, t, op, now, later);
      LeafMapRootBinds(c, d, later, mid);
    }
    PublishAllRetires(c, d, PublishAll(c, d, t.roots, maps[..m], now), maps[m..], now, Dense(c, mid, d, 0));
  }

  /** A leaf that has a row is live or stays revoked. */
  lemma LiveLater<F(!new)>(c: Suite<F>, d: nat, history: seq<Commit<F>>, j: nat, k: nat, i: nat)
    requires Serial(c, d, history) && j <= k <= |history|
    requires i in TablesAfter(history, j).credentials && i in Live(TablesAfter(history, k).credentials)
    ensures i in Live(TablesAfter(history, j).credentials)
  {
    hide Serial;
    HistoryExtends(c, d, history, j, k);
  }

  /** No committed state, before or after, has the map reached inside a batch. */
  lemma MidbatchNeverLive<F(!new)>(c: Suite<F>, d: nat, history: seq<Commit<F>>, k: nat, m: nat, j: nat)
    requires Serial(c, d, history) && k < |history| && history[k].op.RevokeUser? && j <= |history|
    requires 0 < m < |Rows(TablesAfter(history, k).credentials, history[k].op)|
    ensures Live(TablesAfter(history, j).credentials) != Midbatch(TablesAfter(history, k), history[k].op, m)
    ensures Revokes(history, k, Rows(TablesAfter(history, k).credentials, history[k].op)[m])
  {
    hide Serial, Perform, TreeGood, Rows, Midbatch;
    var t, op := TablesAfter(history, k), history[k].op;
    var rows, now, live := Rows(t.credentials, op), TablesAfter(history, j), Live(TablesAfter(history, j).credentials);
    HistoryGood(c, d, history, k);
    HistoryGood(c, d, history, j);
    SerialStep(c, d, history, k);
    MidbatchHolds(c, d, t, op, m);
    RevokeKeepsGood(c, d, t, op, history[k].started);
    assert rows[m] in rows;
    if j <= k {
      if rows[m] in live {
        LiveLater(c, d, history, j, k, rows[0]);
      }
    } else {
      StaysRevoked(c, d, history, k, rows[m], j);
    }
  }

  /** A batch of several rows also publishes, after each row but the last, a root that no committed state ever has as
    * current; once the batch has committed it verifies for the grace all the same. */
  lemma BatchLeavesPhantomRoots<F(!new)>(
    c: Suite<F>, d: nat, history: seq<Commit<F>>, k: nat, m: nat, j: nat, grace: int, at: int)
    requires c.Ideal() && Serial(c, d, history) && k < |history| && history[k].op.RevokeUser? && j <= |history|
    requires 0 < m < |Rows(TablesAfter(history, k).credentials, history[k].op)|
    ensures var phantom := Dense(c, Midbatch(TablesAfter(history, k), history[k].op, m), d, 0);
            && phantom != Root(c, d, TablesAfter(history, j))
            && (j > k ==> (Accepted(TablesAfter(history, j).roots, phantom, grace, at) <==>
                           grace > 0 && at < history[k].started + grace))
  {
    hide Serial, Perform, Good, Dense, LeafMap, Minted, Rows, Midbatch, Live, Revokes;
    var t, op := TablesAfter(history, k), history[k].op;
    var mid, rows := Midbatch(t, op, m), Rows(t.credentials, op);
    HistoryGood(c, d, history, k);
    HistoryMinted(c, d, history, k);
    HistoryLeafMap(c, d, history, j);
    SerialStep(c, d, history, k);
    MidbatchHolds(c, d, t, op, m);
    MidbatchRetired(c, d, t, op, m, history[k].started);
    MidbatchNeverLive(c, d, history, k, m, j);
    LeafMapRootBinds(c, d, mid, Live(TablesAfter(history, j).credentials));
    if j > k {
      RevokedRootFrozen(c, d, history, k, rows[m], mid, j);
    }
  }
}
