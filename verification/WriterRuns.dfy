/** That concurrent writers commit what they should: a transaction that is not refused can be run to its commit, one
  * that is refused commits nothing, and every serial history is the history of some interleaving. */
module WriterRuns {
  import opened Hashing
  import opened SparseTree
  import opened TreeTables
  import opened TreeHistory
  import opened Writers

  // ---------------------------------------------------------------- statements still to execute

  /** Mark, two statements a level, retire and publish. */
  function PerRow(d: nat): nat {
    2 * d + 3
  }

  function ForRows(d: nat, rows: seq<nat>): nat {
    |rows| * PerRow(d)
  }

  /** The statements a transaction has left after its select. */
  function Work<F>(d: nat, pc: Pc<F>): nat {
    match pc
    case AtInsert(_) => PerRow(d)
    case AtMark(rows) => if rows == [] then 1 else ForRows(d, rows)
    case AtPut(level, _, _, rows) => (if level < d then 2 * (d - level) else 0) + 2 + ForRows(d, rows)
    case AtSibling(level, _, _, rows) => (if level < d then 2 * (d - level) - 1 else 0) + 2 + ForRows(d, rows)
    case AtRetire(_, rows) => 2 + ForRows(d, rows)
    case AtPublish(_, rows) => 1 + ForRows(d, rows)
    case _ => 0
  }

  lemma OneRowLess(d: nat, rows: seq<nat>)
    requires rows != []
    ensures ForRows(d, rows) == PerRow(d) + ForRows(d, rows[1..])
  {
    assert |rows| == 1 + |rows[1..]|;
  }

  predicate Running<F>(pc: Pc<F>) {
    !pc.AtLock? && !pc.AtSelect? && !pc.Done? && !pc.Failed?
  }

  lemma NoRowsNoWork(d: nat)
    ensures ForRows(d, []) == 0
  {
  }

  lemma WorkDecreases<F(!new)>(c: Suite<F>, d: nat, view: Tables<F>, tx: Tx<F>)
    requires WellPlaced(d, tx.pc) && Running(tx.pc)
    ensures Work(d, Execute(c, d, view, tx).pc) < Work(d, tx.pc)
  {
    hide NodeAt, Combine, MarkRevoked, Taken, Zero, Sibling, ForRows;
    if tx.pc.AtMark? && tx.pc.rows != [] {
      OneRowLess(d, tx.pc.rows);
    }
    if tx.pc.AtInsert? {
      NoRowsNoWork(d);
    }
  }

  lemma NeverSelectsAgain<F(!new)>(c: Suite<F>, d: nat, view: Tables<F>, tx: Tx<F>)
    requires !tx.pc.AtLock?
    ensures !Execute(c, d, view, tx).pc.AtSelect? && !Execute(c, d, view, tx).pc.AtLock?
  {
    hide NodeAt, Combine, MarkRevoked, Taken, Zero, Sibling, Rows;
  }

  // ---------------------------------------------------------------- running one transaction

  lemma RunOne<F(!new)>(c: Suite<F>, d: nat, actions: seq<Action>, a: Action)
    ensures Run(c, d, actions + [a]) == Next(c, d, Run(c, d, actions), a)
  {
    assert (actions + [a])[..|actions|] == actions;
    hide Next;
  }

  /** The state after transaction `id` has committed these tables. */
  function AfterCommit<F(==)>(s: State<F>, id: nat, t: Tables<F>): State<F>
    requires id in s.txs
  {
    s.(db := t, txs := s.txs - {id}, holder := None,
       history := s.history + [Commit(s.txs[id].op, s.txs[id].started, s.clock, t)])
  }

  lemma HolderRest<F(!new)>(c: Suite<F>, d: nat, actions: seq<Action>, id: nat)
    requires var s := Run(c, d, actions); s.holder == Some(id) && id in s.txs
    ensures var s := Run(c, d, actions);
            var tx := s.txs[id];
            && !tx.pc.AtLock? && WellPlaced(d, tx.pc)
            && Rest(c, d, View(s.db, tx.writes), tx) == Perform(c, d, s.db, tx.op, tx.started)
  {
    hide Run, Perform, Rest, View, Serial;
    EveryRunIsSerial(c, d, actions);
    assert TxInvariant(c, d, Run(c, d, actions), id);
  }

  lemma StepOfHolder<F(!new)>(c: Suite<F>, d: nat, actions: seq<Action>, id: nat)
    requires var s := Run(c, d, actions); s.holder == Some(id) && id in s.txs
    ensures var s := Run(c, d, actions);
            var tx := s.txs[id];
            var tx' := Execute(c, d, View(s.db, tx.writes), tx);
            && Run(c, d, actions + [Step(id)]) == s.(txs := s.txs[id := tx'])
            && tx'.op == tx.op && tx'.started == tx.started && !tx'.pc.AtSelect? && !tx'.pc.AtLock?
            && (Running(tx.pc) ==> Work(d, tx'.pc) < Work(d, tx.pc))
  {
    hide Run, Perform, Rest, View, Execute, Work, WellPlaced, Running;
    var s := Run(c, d, actions);
    HolderRest(c, d, actions, id);
    ExecuteKeepsRest(c, d, s.db, s.txs[id]);
    NeverSelectsAgain(c, d, View(s.db, s.txs[id].writes), s.txs[id]);
    RunOne(c, d, actions, Step(id));
    if Running(s.txs[id].pc) {
      WorkDecreases(c, d, View(s.db, s.txs[id].writes), s.txs[id]);
    }
  }

  lemma DoneOrFailed<F(!new)>(c: Suite<F>, d: nat, view: Tables<F>, tx: Tx<F>)
    ensures tx.pc.Done? ==> Rest(c, d, view, tx) == Some(view)
    ensures tx.pc.Failed? ==> Rest(c, d, view, tx) == None
  {
    hide Perform, RevokeRows;
  }

  /** Whatever it has done so far, the lock holder can finish, and commits its transaction run alone. */
  lemma {:induction false} HolderFinishes<F(!new)>(
    c: Suite<F>, d: nat, actions: seq<Action>, id: nat, t: Tables<F>) returns (actions': seq<Action>)
    requires var s := Run(c, d, actions);
             && s.holder == Some(id) && id in s.txs
             && Perform(c, d, s.db, s.txs[id].op, s.txs[id].started) == Some(t)
    ensures Run(c, d, actions') == AfterCommit(Run(c, d, actions), id, t)
    decreases if Run(c, d, actions).txs[id].pc.AtSelect? then 1 else 0, Work(d, Run(c, d, actions).txs[id].pc)
  {
    hide Run, Perform, Rest, View, Execute, Work;
    var s := Run(c, d, actions);
    var tx := s.txs[id];
    HolderRest(c, d, actions, id);
    DoneOrFailed(c, d, View(s.db, tx.writes), tx);
    if tx.pc.Done? {
      RunOne(c, d, actions, Finish(id));
      actions' := actions + [Finish(id)];
    } else {
      StepOfHolder(c, d, actions, id);
      var s' := Run(c, d, actions + [Step(id)]);
      actions' := HolderFinishes(c, d, actions + [Step(id)], id, t);
      assert s'.txs - {id} == s.txs - {id};
    }
  }

  /** A transaction that waits for the free lock can be run to its commit. */
  lemma WaiterFinishes<F(!new)>(c: Suite<F>, d: nat, actions: seq<Action>, id: nat, t: Tables<F>)
    returns (actions': seq<Action>)
    requires var s := Run(c, d, actions);
             && s.holder == None && id in s.txs && s.txs[id].pc.AtLock?
             && Perform(c, d, s.db, s.txs[id].op, s.txs[id].started) == Some(t)
    ensures Run(c, d, actions') == AfterCommit(Run(c, d, actions), id, t)
  {
    hide Run, Perform, Work, View, Execute;
    var s := Run(c, d, actions);
    RunOne(c, d, actions, Step(id));
    actions' := HolderFinishes(c, d, actions + [Step(id)], id, t);
    assert s.txs[id := s.txs[id].(pc := AtSelect)] - {id} == s.txs - {id};
  }

  /** Transactions commit: with the lock free, any operation that is not refused can be begun and run to a commit of
    * exactly its own effect, whatever other transactions wait. */
  lemma TransactionCommits<F(!new)>(c: Suite<F>, d: nat, actions: seq<Action>, id: nat, op: Op, t: Tables<F>)
    returns (actions': seq<Action>)
    requires var s := Run(c, d, actions);
             s.holder == None && id !in s.txs && Perform(c, d, s.db, op, s.clock) == Some(t)
    ensures var s, s' := Run(c, d, actions), Run(c, d, actions');
            && s'.history == s.history + [Commit(op, s.clock, s.clock, t)] && s'.db == t
            && s'.txs == s.txs && s'.holder == None && s'.clock == s.clock
  {
    hide Run, Perform;
    var s := Run(c, d, actions);
    RunOne(c, d, actions, Begin(id, op));
    actions' := WaiterFinishes(c, d, actions + [Begin(id, op)], id, t);
    assert s.txs[id := Tx(op, s.clock, AtLock, NoWrites())] - {id} == s.txs;
  }

  // ---------------------------------------------------------------- refusals

  predicate OwnAction(a: Action, id: nat) {
    a.Tick? || a == Step(id) || a == Finish(id) || a == Abort(id)
  }

  /** Either gone, or on its way with the operation it began with. */
  ghost predicate OnItsOwn<F(!new)>(s: State<F>, s': State<F>, id: nat, op: Op) {
    && s'.db == s.db && s'.history == s.history && (s'.holder == None || s'.holder == Some(id))
    && (id in s'.txs ==> s'.txs[id].op == op && s'.txs[id].started == s.clock)
  }

  lemma RefusedStays<F(!new)>(
    c: Suite<F>, d: nat, s: State<F>, actions: seq<Action>, id: nat, op: Op, a: Action)
    requires OnItsOwn(s, Run(c, d, actions), id, op) && OwnAction(a, id)
    requires Perform(c, d, s.db, op, s.clock) == None
    ensures OnItsOwn(s, Run(c, d, actions + [a]), id, op)
  {
    hide Run, Perform, View, Execute, Rest, Serial, Committed;
    var s' := Run(c, d, actions);
    RunOne(c, d, actions, a);
    if id in s'.txs {
      if s'.holder == Some(id) {
        HolderRest(c, d, actions, id);
        DoneOrFailed(c, d, View(s'.db, s'.txs[id].writes), s'.txs[id]);
        if a == Step(id) {
          StepOfHolder(c, d, actions, id);
        }
      } else {
        EveryRunIsSerial(c, d, actions);
        assert TxInvariant(c, d, s', id);
      }
    }
  }

  /** A refused transaction commits nothing, however far it is run and however it ends. */
  lemma {:induction false} RefusedCommitsNothing<F(!new)>(
    c: Suite<F>, d: nat, actions: seq<Action>, id: nat, op: Op, more: seq<Action>)
    requires var s := Run(c, d, actions);
             s.holder == None && id !in s.txs && Perform(c, d, s.db, op, s.clock) == None
    requires forall a :: a in more ==> OwnAction(a, id)
    ensures OnItsOwn(Run(c, d, actions), Run(c, d, actions + [Begin(id, op)] + more), id, op)
    decreases |more|
  {
    hide Run, Perform, OwnAction;
    var begun := actions + [Begin(id, op)];
    if more == [] {
      RunOne(c, d, actions, Begin(id, op));
      assert begun + [] == begun;
    } else {
      var front, last := more[..|more| - 1], more[|more| - 1];
      assert last in more && forall a :: a in front ==> a in more;
      RefusedCommitsNothing(c, d, actions, id, op, front);
      hide OnItsOwn;
      RefusedStays(c, d, Run(c, d, actions), begun + front, id, op, last);
      assert begun + front + [last] == begun + more;
    }
  }

  /** A rollback leaves nothing behind: the transaction is gone, its lock is free, and all else is as it was. */
  lemma RollbackReleases<F(!new)>(c: Suite<F>, d: nat, actions: seq<Action>, id: nat)
    requires id in Run(c, d, actions).txs
    ensures var s, s' := Run(c, d, actions), Run(c, d, actions + [Abort(id)]);
            && s'.txs == s.txs - {id} && s'.db == s.db && s'.history == s.history && s'.clock == s.clock
            && s'.holder == (if s.holder == Some(id) then None else s.holder)
  {
    hide Run;
    RunOne(c, d, actions, Abort(id));
  }

  // ---------------------------------------------------------------- every serial history

  /** Transaction k has begun by this time; at the time itself, those below b. */
  predicate Begun<F>(history: seq<Commit<F>>, k: nat, clock: nat, b: nat)
    requires k < |history|
  {
    history[k].started < clock || (history[k].started == clock && k < b)
  }

  function Pending<F>(history: seq<Commit<F>>, clock: nat, b: nat, n: nat): map<nat, Tx<F>> {
    map k: nat | n <= k < |history| && Begun(history, k, clock, b) ::
      Tx(history[k].op, history[k].started, AtLock, NoWrites())
  }

  /** The first n have committed, and of the others those that have begun wait for the lock. */
  function Stage<F(==)>(history: seq<Commit<F>>, clock: nat, b: nat, n: nat): State<F>
    requires n <= |history|
  {
    State(clock, TablesAfter(history, n), None, Pending(history, clock, b, n), history[..n])
  }

  lemma BeginStage<F(!new)>(
    c: Suite<F>, d: nat, history: seq<Commit<F>>, actions: seq<Action>, clock: nat, b: nat, n: nat)
    returns (actions': seq<Action>)
    requires n <= |history| && b < |history| && Run(c, d, actions) == Stage(history, clock, b, n)
    ensures Run(c, d, actions') == Stage(history, clock, b + 1, n)
  {
    hide Run;
    if b >= n && history[b].started == clock {
      RunOne(c, d, actions, Begin(b, history[b].op));
      actions' := actions + [Begin(b, history[b].op)];
      var tx: Tx<F> := Tx(history[b].op, clock, AtLock, NoWrites());
      assert Pending(history, clock, b + 1, n) == Pending(history, clock, b, n)[b := tx];
    } else {
      actions' := actions;
      assert Pending(history, clock, b + 1, n) == Pending(history, clock, b, n);
    }
  }

  lemma {:induction false} BeginAll<F(!new)>(
    c: Suite<F>, d: nat, history: seq<Commit<F>>, actions: seq<Action>, clock: nat, b: nat, n: nat)
    returns (actions': seq<Action>)
    requires n <= |history| && b <= |history| && Run(c, d, actions) == Stage(history, clock, b, n)
    ensures Run(c, d, actions') == Stage(history, clock, |history|, n)
    decreases |history| - b
  {
    hide Run, Stage;
    if b == |history| {
      actions' := actions;
    } else {
      actions' := BeginStage(c, d, history, actions, clock, b, n);
      actions' := BeginAll(c, d, history, actions', clock, b + 1, n);
    }
  }

  lemma CommitStage<F(!new)>(
    c: Suite<F>, d: nat, history: seq<Commit<F>>, actions: seq<Action>, clock: nat, n: nat)
    returns (actions': seq<Action>)
    requires Serial(c, d, history) && n < |history| && history[n].committed == clock
    requires Run(c, d, actions) == Stage(history, clock, |history|, n)
    ensures Run(c, d, actions') == Stage(history, clock, |history|, n + 1)
  {
    hide Run, Serial, Perform;
    SerialStep(c, d, history, n);
    actions' := WaiterFinishes(c, d, actions, n, history[n].tables);
    assert history[..n + 1] == history[..n] + [history[n]];
    assert Pending(history, clock, |history|, n + 1) == Pending(history, clock, |history|, n) - {n};
  }

  lemma {:induction false} CommitAll<F(!new)>(
    c: Suite<F>, d: nat, history: seq<Commit<F>>, actions: seq<Action>, clock: nat, n: nat)
    returns (actions': seq<Action>, n': nat)
    requires Serial(c, d, history) && n <= |history| && (n < |history| ==> history[n].committed >= clock)
    requires Run(c, d, actions) == Stage(history, clock, |history|, n)
    ensures n <= n' <= |history| && (n' < |history| ==> history[n'].committed > clock)
    ensures Run(c, d, actions') == Stage(history, clock, |history|, n')
    decreases |history| - n
  {
    hide Run, Serial, Stage;
    if n < |history| && history[n].committed == clock {
      actions' := CommitStage(c, d, history, actions, clock, n);
      if n + 1 < |history| {
        SerialStep(c, d, history, n + 1);
      }
      actions', n' := CommitAll(c, d, history, actions', clock, n + 1);
    } else {
      actions', n' := actions, n;
    }
  }

  lemma NothingBegun<F(!new)>(c: Suite<F>, d: nat, history: seq<Commit<F>>)
    requires forall k: nat :: k < |history| ==> history[k].started >= 0
    ensures Run(c, d, []) == Stage(history, 0, 0, 0)
  {
    assert Pending(history, 0, 0, 0) == map[];
  }

  lemma TickStage<F(!new)>(
    c: Suite<F>, d: nat, history: seq<Commit<F>>, actions: seq<Action>, clock: nat, n: nat)
    requires n <= |history| && Run(c, d, actions) == Stage(history, clock, |history|, n)
    ensures Run(c, d, actions + [Tick(1)]) == Stage(history, clock + 1, 0, n)
  {
    hide Run;
    RunOne(c, d, actions, Tick(1));
    assert Pending(history, clock + 1, 0, n) == Pending(history, clock, |history|, n);
  }

  /** Up to a time, begin each transaction at its start and commit each at its commit. */
  lemma {:induction false} Replay<F(!new)>(c: Suite<F>, d: nat, history: seq<Commit<F>>, clock: nat)
    returns (actions: seq<Action>, n: nat)
    requires Serial(c, d, history) && forall k: nat :: k < |history| ==> history[k].started >= 0
    ensures n <= |history| && (n < |history| ==> history[n].committed > clock)
    ensures Run(c, d, actions) == Stage(history, clock, |history|, n)
  {
    hide Run, Serial, Stage;
    if clock == 0 {
      NothingBegun(c, d, history);
      actions, n := [], 0;
      if history != [] {
        SerialStep(c, d, history, 0);
      }
    } else {
      actions, n := Replay(c, d, history, clock - 1);
      TickStage(c, d, history, actions, clock - 1, n);
      actions := actions + [Tick(1)];
    }
    actions := BeginAll(c, d, history, actions, clock, 0, n);
    actions, n := CommitAll(c, d, history, actions, clock, n);
  }

  lemma {:induction false} CommitsInOrder<F(!new)>(c: Suite<F>, d: nat, history: seq<Commit<F>>, j: nat, k: nat)
    requires Serial(c, d, history) && j <= k < |history|
    ensures history[j].committed <= history[k].committed
    decreases k
  {
    hide Serial;
    if j < k {
      CommitsInOrder(c, d, history, j, k - 1);
      SerialStep(c, d, history, k);
    }
  }

  /** The other half of serialisability: every serial history from time zero on is what some interleaving commits, start
    * times out of commit order included. */
  lemma EverySerialHistoryRuns<F(!new)>(c: Suite<F>, d: nat, history: seq<Commit<F>>) returns (actions: seq<Action>)
    requires Serial(c, d, history) && forall k: nat :: k < |history| ==> history[k].started >= 0
    ensures var s := Run(c, d, actions);
            s.history == history && s.db == TablesAfter(history, |history|) && s.holder == None && s.txs == map[]
  {
    hide Run, Serial;
    if history == [] {
      NothingBegun(c, d, history);
      actions := [];
    } else {
      var last := |history| - 1;
      SerialStep(c, d, history, last);
      var n;
      actions, n := Replay(c, d, history, history[last].committed);
      if n < |history| {
        CommitsInOrder(c, d, history, n, last);
        assert false;
      }
    }
    assert Run(c, d, actions).txs == map[];
  }
}
