/** Concurrent writers of the credential tree, interleaved statement by statement under READ COMMITTED.
  *
  * A transaction sees the committed tables overlaid with its own writes, re-read at every statement. Its first
  * statement takes the advisory lock, which is held until commit or rollback. now() is fixed when it begins,
  * before it may wait for the lock.
  */
module Writers {
  import opened Hashing
  import opened SparseTree
  import opened TreeTables
  import opened TreeHistory
  import PathReader

  /** Uncommitted writes: rows put, and for nodes also rows deleted (None). */
  datatype Overlay<F(==)> = Overlay(
    credentials: map<nat, Credential<F>>, nodes: map<Position, Option<F>>, roots: map<F, Option<int>>)

  /** The next statement of a transaction. `rows` are the leaves it has still to revoke after the current one. */
  datatype Pc<F> =
    | AtLock
    | AtSelect
    | AtInsert(next: nat)
    | AtMark(rows: seq<nat>)
    | AtPut(level: nat, position: nat, current: F, rows: seq<nat>)
    | AtSibling(level: nat, position: nat, current: F, rows: seq<nat>)
    | AtRetire(root: F, rows: seq<nat>)
    | AtPublish(root: F, rows: seq<nat>)
    | Done
    | Failed

  datatype Tx<F(==)> = Tx(op: Op, started: int, pc: Pc<F>, writes: Overlay<F>)

  datatype State<F(==)> = State(
    clock: int, db: Tables<F>, holder: Option<nat>, txs: map<nat, Tx<F>>, history: seq<Commit<F>>)

  datatype Action =
    | Tick(elapsed: nat)
    | Begin(id: nat, op: Op)
    | Step(id: nat)
    | Finish(id: nat)
    | Abort(id: nat)

  function NoWrites<F(==)>(): Overlay<F> {
    Overlay(map[], map[], map[])
  }

  /** Rows under puts and deletes. */
  function Layer<F>(rows: map<Position, F>, writes: map<Position, Option<F>>): map<Position, F> {
    (rows - writes.Keys) + (map k | k in writes && writes[k].Some? :: writes[k].value)
  }

  function View<F(==)>(db: Tables<F>, w: Overlay<F>): Tables<F> {
    Tables(db.credentials + w.credentials, Layer(db.nodes, w.nodes), db.roots + w.roots)
  }

  function Start<F(==)>(): State<F> {
    State(0, EmptyTables(), None, map[], [])
  }

  // ---------------------------------------------------------------- statements

  function Climb<F>(d: nat, level: nat, position: nat, current: F, rows: seq<nat>): Pc<F> {
    if level >= d then AtRetire(current, rows) else AtPut(level, position, current, rows)
  }

  function NextRow<F>(rows: seq<nat>): Pc<F> {
    if rows == [] then Done else AtMark(rows)
  }

  /** markRevokedSQL for one row, then on to that leaf's path. */
  function Mark<F(==, !new)>(
    c: Suite<F>, d: nat, view: Tables<F>, tx: Tx<F>, index: nat, rows: seq<nat>, missing: Pc<F>): Tx<F>
  {
    match MarkRevoked(view.credentials, index, tx.started)
    case None => tx.(pc := missing)
    case Some(credentials) => tx.(
      pc := Climb(d, 0, index, c.EmptyLeaf(), rows),
      writes := tx.writes.(credentials := tx.writes.credentials[index := credentials[index]]))
  }

  /** One statement after the lock, against the view it reads. */
  ghost function Execute<F(!new)>(c: Suite<F>, d: nat, view: Tables<F>, tx: Tx<F>): Tx<F> {
    var w := tx.writes;
    match tx.pc
    case AtSelect =>
      (match tx.op
       case Issue(_, _, _) =>
         var next := NextLeaf(view.credentials.Keys);
         tx.(pc := if next >= Pow2(d) then Failed else AtInsert(next))
       case Revoke(index) => Mark(c, d, view, tx, index, [], Done)
       case RevokeUser(user) => tx.(pc := NextRow(Rows(view.credentials, tx.op))))
    case AtInsert(next) =>
      if !tx.op.Issue? || Taken(view.credentials, c.Commitment(tx.op.secret, tx.op.attribute)) then tx.(pc := Failed)
      else
        var commitment := c.Commitment(tx.op.secret, tx.op.attribute);
        var row := Credential(commitment, NullIfEmpty(tx.op.issuedTo), None);
        tx.(pc := Climb(d, 0, next, c.LeafNode(commitment), []),
            writes := w.(credentials := w.credentials[next := row]))
    case AtMark(rows) =>
      if rows == [] then tx.(pc := Done) else Mark(c, d, view, tx, rows[0], rows[1..], Failed)
    case AtPut(level, position, current, rows) =>
      var row := if current == Zero(c, level) then None else Some(current);
      tx.(pc := AtSibling(level, position, current, rows), writes := w.(nodes := w.nodes[(level, position) := row]))
    case AtSibling(level, position, current, rows) =>
      var sibling := NodeAt(c, view.nodes, level, Sibling(position));
      tx.(pc := Climb(d, level + 1, position / 2, Combine(c, position, current, sibling), rows))
    case AtRetire(root, rows) =>
      tx.(pc := AtPublish(root, rows),
          writes := w.(roots := w.roots + (map r | r in view.roots && view.roots[r].None? :: Some(tx.started))))
    case AtPublish(root, rows) =>
      tx.(pc := NextRow(rows), writes := w.(roots := w.roots[root := None]))
    case _ => tx
  }

  function Release(holder: Option<nat>, id: nat): Option<nat> {
    if holder == Some(id) then None else holder
  }

  function Committed<F(==)>(s: State<F>, id: nat): State<F>
    requires id in s.txs
  {
    var tx := s.txs[id];
    var db := View(s.db, tx.writes);
    s.(db := db, txs := s.txs - {id}, holder := Release(s.holder, id),
       history := s.history + [Commit(tx.op, tx.started, s.clock, db)])
  }

  /** One step of the system. An action that is not enabled changes nothing. */
  ghost function Next<F(!new)>(c: Suite<F>, d: nat, s: State<F>, a: Action): State<F> {
    match a
    case Tick(elapsed) => s.(clock := s.clock + elapsed)
    case Begin(id, op) =>
      if id in s.txs then s else s.(txs := s.txs[id := Tx(op, s.clock, AtLock, NoWrites())])
    case Step(id) =>
      if id !in s.txs then s
      else if s.txs[id].pc.AtLock? then
        if s.holder.Some? then s
        else s.(holder := Some(id), txs := s.txs[id := s.txs[id].(pc := AtSelect)])
      else s.(txs := s.txs[id := Execute(c, d, View(s.db, s.txs[id].writes), s.txs[id])])
    case Finish(id) =>
      if id !in s.txs || !s.txs[id].pc.Done? then s else Committed(s, id)
    case Abort(id) =>
      s.(txs := s.txs - {id}, holder := Release(s.holder, id))
  }

  ghost function Run<F(!new)>(c: Suite<F>, d: nat, actions: seq<Action>): State<F> {
    if actions == [] then Start()
    else Next(c, d, Run(c, d, actions[..|actions| - 1]), actions[|actions| - 1])
  }

  // ---------------------------------------------------------------- the invariant

  ghost function RestOfPath<F(!new)>(
    c: Suite<F>, d: nat, view: Tables<F>, level: nat, position: nat, current: F, rows: seq<nat>, now: int)
    : Option<Tables<F>>
  {
    if level > d then None
    else
      var (nodes, root) := WritePath(c, d, view.nodes, level, position, current);
      RevokeRows(c, d, view.(nodes := nodes, roots := Publish(view.roots, root, now)), rows, now)
  }

  /** What remains of a transaction, run without interruption from the view it has reached. */
  ghost function Rest<F(!new)>(c: Suite<F>, d: nat, view: Tables<F>, tx: Tx<F>): Option<Tables<F>> {
    match tx.pc
    case AtLock => Perform(c, d, view, tx.op, tx.started)
    case AtSelect => Perform(c, d, view, tx.op, tx.started)
    case AtInsert(next) =>
      if !tx.op.Issue? || Taken(view.credentials, c.Commitment(tx.op.secret, tx.op.attribute)) then None
      else
        var commitment := c.Commitment(tx.op.secret, tx.op.attribute);
        var row := Credential(commitment, NullIfEmpty(tx.op.issuedTo), None);
        Some(WriteLeaf(c, d, view.(credentials := view.credentials[next := row]), next, Some(commitment), tx.started))
    case AtMark(rows) => RevokeRows(c, d, view, rows, tx.started)
    case AtPut(level, position, current, rows) =>
      RestOfPath(c, d, view, level, position, current, rows, tx.started)
    case AtSibling(level, position, current, rows) =>
      var sibling := NodeAt(c, view.nodes, level, Sibling(position));
      RestOfPath(c, d, view, level + 1, position / 2, Combine(c, position, current, sibling), rows, tx.started)
    case AtRetire(root, rows) =>
      RevokeRows(c, d, view.(roots := Publish(view.roots, root, tx.started)), rows, tx.started)
    case AtPublish(root, rows) =>
      RevokeRows(c, d, view.(roots := view.roots[root := None]), rows, tx.started)
    case Done => Some(view)
    case Failed => None
  }

  ghost predicate WellPlaced<F(!new)>(d: nat, pc: Pc<F>) {
    pc.AtPut? || pc.AtSibling? ==> pc.level < d
  }

  lemma ViewOfNoWrites<F(!new)>(db: Tables<F>)
    ensures View(db, NoWrites()) == db
  {
  }

  /** Overlay writes are seen by the transaction as if made in place. */
  lemma ViewOfRow<F(!new)>(db: Tables<F>, w: Overlay<F>, i: nat, row: Credential<F>)
    ensures var v := View(db, w);
            View(db, w.(credentials := w.credentials[i := row])) == v.(credentials := v.credentials[i := row])
  {
    hide Layer;
    assert View(db, w.(credentials := w.credentials[i := row])).credentials == View(db, w).credentials[i := row];
  }

  lemma LayerOfNode<F(!new)>(rows: map<Position, F>, writes: map<Position, Option<F>>, k: Position, node: Option<F>)
    ensures Layer(rows, writes[k := node])
         == if node.Some? then Layer(rows, writes)[k := node.value] else Layer(rows, writes) - {k}
  {
    var before, after := Layer(rows, writes), Layer(rows, writes[k := node]);
    var expected := if node.Some? then before[k := node.value] else before - {k};
    assert forall p: Position :: p in after <==> p in expected;
  }

  lemma ViewOfNode<F(!new)>(db: Tables<F>, w: Overlay<F>, k: Position, node: Option<F>)
    ensures var v := View(db, w);
            View(db, w.(nodes := w.nodes[k := node]))
              == v.(nodes := if node.Some? then v.nodes[k := node.value] else v.nodes - {k})
  {
    hide Layer;
    LayerOfNode(db.nodes, w.nodes, k, node);
  }

  lemma ViewOfRoots<F(!new)>(db: Tables<F>, w: Overlay<F>, roots: map<F, Option<int>>)
    ensures var v := View(db, w);
            View(db, w.(roots := w.roots + roots)) == v.(roots := v.roots + roots)
  {
    hide Layer;
    assert View(db, w.(roots := w.roots + roots)).roots == View(db, w).roots + roots;
  }

  lemma ViewOfRoot<F(!new)>(db: Tables<F>, w: Overlay<F>, root: F)
    ensures var v := View(db, w);
            View(db, w.(roots := w.roots[root := None])) == v.(roots := v.roots[root := None])
  {
    hide Layer;
    assert View(db, w.(roots := w.roots[root := None])).roots == View(db, w).roots[root := None];
  }

  lemma MarkKeepsRest<F(!new)>(
    c: Suite<F>, d: nat, db: Tables<F>, tx: Tx<F>, index: nat, rows: seq<nat>, missing: Pc<F>)
    requires missing == Done || missing == Failed
    ensures var view := View(db, tx.writes);
            var tx' := Mark(c, d, view, tx, index, rows, missing);
            && WellPlaced(d, tx'.pc)
            && Rest(c, d, View(db, tx'.writes), tx')
                 == if MarkRevoked(view.credentials, index, tx.started).Some?
                    then RevokeRows(c, d, view, [index] + rows, tx.started)
                    else if missing == Done then Some(view) else None
  {
    hide Perform, View, NodeAt;
    var view := View(db, tx.writes);
    if MarkRevoked(view.credentials, index, tx.started).Some? {
      var credentials := MarkRevoked(view.credentials, index, tx.started).value;
      ViewOfRow(db, tx.writes, index, credentials[index]);
      assert credentials == view.credentials[index := credentials[index]];
      assert ([index] + rows)[0] == index && ([index] + rows)[1..] == rows;
    }
  }

  ghost predicate KeepsRest<F(!new)>(c: Suite<F>, d: nat, db: Tables<F>, tx: Tx<F>) {
    var view := View(db, tx.writes);
    var tx' := Execute(c, d, view, tx);
    && tx'.op == tx.op && tx'.started == tx.started && !tx'.pc.AtLock? && WellPlaced(d, tx'.pc)
    && Rest(c, d, View(db, tx'.writes), tx') == Rest(c, d, view, tx)
  }

  lemma MarkStepKeepsRest<F(!new)>(c: Suite<F>, d: nat, db: Tables<F>, tx: Tx<F>)
    requires tx.pc.AtMark?
    ensures KeepsRest(c, d, db, tx)
  {
    hide View, Perform, WriteLeaf;
    var rows := tx.pc.rows;
    if rows != [] {
      MarkKeepsRest(c, d, db, tx, rows[0], rows[1..], Failed);
      assert [rows[0]] + rows[1..] == rows;
    }
  }

  lemma SiblingKeepsRest<F(!new)>(c: Suite<F>, d: nat, db: Tables<F>, tx: Tx<F>)
    requires tx.pc.AtSibling? && WellPlaced(d, tx.pc)
    ensures KeepsRest(c, d, db, tx)
  {
    hide View, Perform, NodeAt, Combine, RevokeRows;
  }

  lemma PublishKeepsRest<F(!new)>(c: Suite<F>, d: nat, db: Tables<F>, tx: Tx<F>)
    requires tx.pc.AtPublish?
    ensures KeepsRest(c, d, db, tx)
  {
    var root, view := tx.pc.root, View(db, tx.writes);
    hide View, Perform, WriteLeaf, Publish, NodeAt, Combine;
    ViewOfRoot(db, tx.writes, root);
  }

  lemma SelectKeepsRest<F(!new)>(c: Suite<F>, d: nat, db: Tables<F>, tx: Tx<F>)
    requires tx.pc.AtSelect?
    ensures KeepsRest(c, d, db, tx)
  {
    hide View, WriteLeaf;
    if tx.op.Revoke? {
      hide Execute;
      MarkKeepsRest(c, d, db, tx, tx.op.index, [], Done);
      assert [tx.op.index] + [] == [tx.op.index];
    }
  }

  lemma InsertKeepsRest<F(!new)>(c: Suite<F>, d: nat, db: Tables<F>, tx: Tx<F>)
    requires tx.pc.AtInsert?
    ensures KeepsRest(c, d, db, tx)
  {
    hide View;
    if tx.op.Issue? {
      var row := Credential(c.Commitment(tx.op.secret, tx.op.attribute), NullIfEmpty(tx.op.issuedTo), None);
      ViewOfRow(db, tx.writes, tx.pc.next, row);
    }
  }

  lemma PutKeepsRest<F(!new)>(c: Suite<F>, d: nat, db: Tables<F>, tx: Tx<F>)
    requires tx.pc.AtPut? && WellPlaced(d, tx.pc)
    ensures KeepsRest(c, d, db, tx)
  {
    hide View, Perform;
    var row := if tx.pc.current == Zero(c, tx.pc.level) then None else Some(tx.pc.current);
    ViewOfNode(db, tx.writes, (tx.pc.level, tx.pc.position), row);
  }

  lemma RetireKeepsRest<F(!new)>(c: Suite<F>, d: nat, db: Tables<F>, tx: Tx<F>)
    requires tx.pc.AtRetire?
    ensures KeepsRest(c, d, db, tx)
  {
    var view := View(db, tx.writes);
    hide View, Perform;
    var retired := map r | r in view.roots && view.roots[r].None? :: Some(tx.started);
    ViewOfRoots(db, tx.writes, retired);
    assert view.roots + retired == RetireRoots(view.roots, tx.started);
  }

  /** A statement leaves the outcome of the rest of the transaction unchanged. */
  lemma ExecuteKeepsRest<F(!new)>(c: Suite<F>, d: nat, db: Tables<F>, tx: Tx<F>)
    requires !tx.pc.AtLock? && WellPlaced(d, tx.pc)
    ensures KeepsRest(c, d, db, tx)
  {
    if tx.pc.Done? || tx.pc.Failed? {
      hide View, Rest;
    } else {
      hide KeepsRest;
      match tx.pc
      case AtSelect => SelectKeepsRest(c, d, db, tx);
      case AtInsert(_) => InsertKeepsRest(c, d, db, tx);
      case AtMark(_) => MarkStepKeepsRest(c, d, db, tx);
      case AtPut(_, _, _, _) => PutKeepsRest(c, d, db, tx);
      case AtSibling(_, _, _, _) => SiblingKeepsRest(c, d, db, tx);
      case AtRetire(_, _) => RetireKeepsRest(c, d, db, tx);
      case AtPublish(_, _) => PublishKeepsRest(c, d, db, tx);
    }
  }

  ghost predicate TxInvariant<F(!new)>(c: Suite<F>, d: nat, s: State<F>, id: nat)
    requires id in s.txs
  {
    var tx := s.txs[id];
    && tx.started <= s.clock && WellPlaced(d, tx.pc)
    && (tx.pc.AtLock? ==> tx.writes == NoWrites() && s.holder != Some(id))
    && (!tx.pc.AtLock? ==>
          && s.holder == Some(id)
          && Rest(c, d, View(s.db, tx.writes), tx) == Perform(c, d, s.db, tx.op, tx.started))
  }

  /** Only the lock holder is past its first statement; what it has left to do, run on its own view, is exactly
    * its transaction run alone on the committed tables. */
  ghost predicate Invariant<F(!new)>(c: Suite<F>, d: nat, s: State<F>) {
    && Serial(c, d, s.history)
    && s.db == TablesAfter(s.history, |s.history|)
    && (forall k: nat :: k < |s.history| ==> s.history[k].committed <= s.clock)
    && (forall id :: id in s.txs ==> TxInvariant(c, d, s, id))
    && (s.holder.Some? ==> s.holder.value in s.txs)
  }

  lemma StepKeepsInvariant<F(!new)>(c: Suite<F>, d: nat, s: State<F>, id: nat)
    requires Invariant(c, d, s)
    ensures Invariant(c, d, Next(c, d, s, Step(id)))
  {
    hide Serial, Perform, TablesAfter;
    if id in s.txs && !s.txs[id].pc.AtLock? {
      ExecuteKeepsRest(c, d, s.db, s.txs[id]);
      hide Execute, Rest, View;
    } else if id in s.txs && s.holder.None? {
      ViewOfNoWrites(s.db);
      hide View;
    }
  }

  /** What a finished transaction commits is its transaction run alone. */
  lemma FinishedIsPerformed<F(!new)>(c: Suite<F>, d: nat, s: State<F>, id: nat)
    requires id in s.txs && TxInvariant(c, d, s, id) && s.txs[id].pc.Done?
    ensures s.holder == Some(id) && s.txs[id].started <= s.clock
    ensures Perform(c, d, s.db, s.txs[id].op, s.txs[id].started) == Some(View(s.db, s.txs[id].writes))
  {
    hide Perform, View;
  }

  /** While another transaction holds the lock, one has written nothing and waits for it. */
  lemma WaitingSurvivesCommit<F(!new)>(c: Suite<F>, d: nat, s: State<F>, id: nat, other: nat)
    requires id in s.txs && other in s.txs && other != id && s.holder == Some(id) && TxInvariant(c, d, s, other)
    ensures TxInvariant(c, d, Committed(s, id), other)
  {
    hide Perform, View, Rest;
  }

  lemma FinishKeepsInvariant<F(!new)>(c: Suite<F>, d: nat, s: State<F>, id: nat)
    requires Invariant(c, d, s) && id in s.txs && s.txs[id].pc.Done?
    ensures Invariant(c, d, Committed(s, id))
  {
    hide Perform, View, Serial, TxInvariant, NoWrites;
    var tx, s' := s.txs[id], Committed(s, id);
    FinishedIsPerformed(c, d, s, id);
    AppendSerial(c, d, s.history, Commit(tx.op, tx.started, s.clock, View(s.db, tx.writes)));
    forall other | other in s'.txs
      ensures TxInvariant(c, d, s', other)
    {
      WaitingSurvivesCommit(c, d, s, id, other);
    }
  }

  lemma NextKeepsInvariant<F(!new)>(c: Suite<F>, d: nat, s: State<F>, a: Action)
    requires Invariant(c, d, s)
    ensures Invariant(c, d, Next(c, d, s, a))
  {
    match a
    case Step(id) =>
      hide Invariant, Next;
      StepKeepsInvariant(c, d, s, id);
    case Finish(id) =>
      hide Invariant, Committed;
      if id in s.txs && s.txs[id].pc.Done? {
        FinishKeepsInvariant(c, d, s, id);
      }
    case _ =>
      hide Serial, Perform, View, Rest;
  }

  /** Concurrent writers are serial: whatever the interleaving, the committed tables are those of the committed
    * transactions run one after the other, each alone, in commit order; rolled-back ones leave nothing. */
  lemma {:induction false} EveryRunIsSerial<F(!new)>(c: Suite<F>, d: nat, actions: seq<Action>)
    ensures var s := Run(c, d, actions);
            Invariant(c, d, s) && Serial(c, d, s.history) && s.db == TablesAfter(s.history, |s.history|)
  {
    hide Perform, Next;
    if actions != [] {
      EveryRunIsSerial(c, d, actions[..|actions| - 1]);
      NextKeepsInvariant(c, d, Run(c, d, actions[..|actions| - 1]), actions[|actions| - 1]);
    }
  }

  /** Every committed state of every run: contiguous unique indices, the node table of the live leaves, and exactly
    * one current root, that of the live leaves, from the first write on. */
  lemma EveryCommittedStateIsGood<F(!new)>(c: Suite<F>, d: nat, actions: seq<Action>, k: nat)
    requires k <= |Run(c, d, actions).history|
    ensures Good(c, d, TablesAfter(Run(c, d, actions).history, k))
    ensures Good(c, d, Run(c, d, actions).db)
  {
    hide Run, Perform, Good, Serial;
    EveryRunIsSerial(c, d, actions);
    var history := Run(c, d, actions).history;
    HistoryGood(c, d, history, k);
    HistoryGood(c, d, history, |history|);
  }

  /** Over whole runs: once a revocation has been committed for the grace, no root over its leaf is accepted, however
    * other transactions interleave and whatever they publish again. */
  lemma RevocationLatencyOverRuns<F(!new)>(
    c: Suite<F>, d: nat, actions: seq<Action>, k: nat, i: nat, live: map<nat, F>, grace: int, at: int)
    requires c.Ideal() && LeafMap(c, d, live) && i in live
    requires Revokes(Run(c, d, actions).history, k, i)
    requires at >= Run(c, d, actions).history[k].committed + grace
    ensures !Accepted(Run(c, d, actions).db.roots, Dense(c, live, d, 0), grace, at)
  {
    hide Run, Perform, Good, Serial, Dense, Accepted, LeafMap;
    EveryRunIsSerial(c, d, actions);
    var history := Run(c, d, actions).history;
    RevocationLatency(c, d, history, k, i, live, |history|, grace, at);
  }

  /** Over whole runs: a path read while only issuances commit folds to the root it names, which was current at both of
    * the attempt's root reads. */
  lemma OptimisticReadOverRuns<F(!new)>(c: Suite<F>, d: nat, actions: seq<Action>, schedule: seq<nat>, index: nat)
    requires c.Ideal() && PathReader.Schedule(d, Run(c, d, actions).history, schedule)
    requires PathReader.OnlyIssues(Run(c, d, actions).history, schedule[0], schedule[|schedule| - 1])
    requires PathReader.PathOf(c, d, PathReader.Observed(d, Run(c, d, actions).history, schedule), index).Path?
    ensures var r := PathReader.PathOf(c, d, PathReader.Observed(d, Run(c, d, actions).history, schedule), index);
            && |r.siblings| == d && Fold(c, c.LeafNode(r.leaf), r.siblings, index, d) == r.root
            && exists attempt: nat :: attempt < 2 &&
                 PathReader.CurrentThroughout(
                   c, d, Run(c, d, actions).history, schedule, PathReader.Base(d, attempt), r.root)
  {
    hide Run, Perform, Good, Serial, Fold, PathReader.PathOf, PathReader.Observed, PathReader.OnlyIssues;
    hide PathReader.CurrentThroughout;
    EveryRunIsSerial(c, d, actions);
    PathReader.OptimisticReadIsSnapshot(c, d, Run(c, d, actions).history, schedule, index);
  }
}
