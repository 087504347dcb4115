/** What the protocol promises over whole runs. */
module ProtocolTheorems {
  import opened Hashing
  import opened ClaimHolder
  import opened Encoding
  import opened Protocol
  import opened ProtocolSafety

  // ---------------------------------------------------------------- challenges

  /** Single use: a challenge row backs at most one success, of its own purpose and session and before it expired; and a
    * row still in the table is consumed exactly when some success used it, so a call that failed has consumed nothing.
    * */
  lemma ChallengesAreSingleUse(actions: seq<Action>)
    ensures var s := Run(actions);
            && (forall a, b | 0 <= a < |s.log| && 0 <= b < |s.log| :: s.log[a].serial == s.log[b].serial ==> a == b)
            && (forall a :: 0 <= a < |s.log| ==>
                  s.log[a].serial < |s.issued| && Earned(s.issued[s.log[a].serial], s.log[a]))
            && (forall t :: t in s.db.challenges ==>
                  (s.db.challenges[t].consumedAt.Some? <==> Backs(s.log, s.db.challenges[t].serial)))
  {
    RunKeepsInvariant(actions);
    hide Run, CallsOk, LogOk;
  }

  /** The kind of challenge a request answers, and the session it must be bound to. */
  predicate Answers(r: Request, purpose: Purpose, session: Option<nat>) {
    match r
    case VerifyKnowledge(_, sid, _) => purpose == ForKnowledge && session == Some(sid)
    case Login(_, _, _, _, _) => purpose == ForLogin && session == None
    case ProveClaim(_, _, _, _, sid, _, _) => purpose == ForClaim && session == Some(sid)
  }

  lemma AnswersIff(r: Request, purpose: Purpose, session: Option<nat>)
    ensures Answers(r, purpose, session) <==> purpose == PurposeOf(r) && session == SessionOf(r)
  {
  }

  /** The row under a token is the same one, consumed or not. */
  ghost predicate RowStays(db: Db, db': Db, token: nat) {
    && token in db.challenges && token in db'.challenges
    && db'.challenges[token].(consumedAt := None) == db.challenges[token].(consumedAt := None)
  }

  lemma CommitKeepsRow(s: State, id: nat, token: nat)
    requires id < |s.calls| && HoldsChallenge(s.db, s.calls[id]) && s.calls[id].pc == Ready && token in s.db.challenges
    ensures RowStays(s.db, CommitCall(s, id).db, token)
  {
  }

  lemma CallOfInvariant(s: State, id: nat)
    requires Invariant(s) && id < |s.calls|
    ensures CallOk(s.db, s.calls[id])
  {
    hide CallOk, ChallengesOk, LogOk, UsersOk, NullifiersOk, CallsOk;
    CallIsOk(s, id);
  }

  lemma CallsLeaveTables(s: State, id: nat, newId: nat)
    requires id < |s.calls|
    ensures StepCall(s, id, newId).db == s.db && FailCall(s, id).db == s.db
  {
    hide Advance;
  }

  lemma IssueKeepsRow(s: State, issued: nat, session: Option<nat>, purpose: Purpose, token: nat)
    requires token in s.db.challenges && s.clock <= s.db.challenges[token].expires
    ensures RowStays(s.db, Issue(s, issued, session, purpose).db, token)
  {
    hide ChallengeLocked;
  }

  lemma SameRow(db: Db, db': Db, token: nat)
    requires db'.challenges == db.challenges && token in db.challenges
    ensures RowStays(db, db', token)
  {
  }

  lemma NextKeepsRow(s: State, a: Action, token: nat)
    requires Invariant(s) && token in s.db.challenges && s.clock <= s.db.challenges[token].expires
    ensures RowStays(s.db, Next(s, a).db, token)
  {
    hide Invariant, CommitCall, StepCall, FailCall, Issue, SessionIdUsed, ChallengeLocked, EmailTaken, EmailLocked;
    hide UserIdUsed, ProofsOn, Spent, HoldsChallenge, CallOk, RowStays;
    match a
    case Commit(id) =>
      if id < |s.calls| && s.calls[id].pc == Ready && s.calls[id].request.token in s.calls[id].writes.challenges {
        CallOfInvariant(s, id);
        ReadyHoldsChallenge(s.db, s.calls[id]);
        CommitKeepsRow(s, id, token);
      } else {
        SameRow(s.db, s.db, token);
      }
    case Step(id, newId) =>
      if id < |s.calls| {
        CallsLeaveTables(s, id, newId);
      }
      SameRow(s.db, s.db, token);
    case Fail(id) =>
      if id < |s.calls| {
        CallsLeaveTables(s, id, 0);
      }
      SameRow(s.db, s.db, token);
    case IssueChallenge(issued, session, purpose) => IssueKeepsRow(s, issued, session, purpose, token);
    case _ => SameRow(s.db, Next(s, a).db, token);
  }

  lemma ClockRuns(s: State, a: Action)
    ensures s.clock <= Next(s, a).clock
  {
    hide Advance, View, ProofsOn, Spent, ChallengeLocked, EmailTaken, UserIdUsed, EmailLocked, SessionIdUsed, Unexpired;
  }

  /** The row that issuing at action j puts under the token, when nothing is in its way. */
  ghost predicate IssuedAt(actions: seq<Action>, j: nat, token: nat, session: Option<nat>, purpose: Purpose)
    requires j < |actions|
  {
    var s := Run(actions[..j]);
    && actions[j] == IssueChallenge(token, session, purpose) && token !in s.db.challenges
    && (forall i: nat, t: nat :: i < |s.calls| && t in s.calls[i].writes.challenges && t in s.db.challenges ==>
          s.db.challenges[t].expires >= s.clock)
  }

  lemma IssuePutsRow(actions: seq<Action>, j: nat, token: nat, session: Option<nat>, purpose: Purpose)
    requires j < |actions| && IssuedAt(actions, j, token, session, purpose)
    ensures var s, s' := Run(actions[..j]), Run(actions[..j + 1]);
            && token in s'.db.challenges
            && s'.db.challenges[token] == Challenge(|s.issued|, session, purpose, s.clock + 60, None)
  {
    hide Run;
    RunStep(actions[..j], actions[j]);
    assert actions[..j + 1] == actions[..j] + [actions[j]];
    var s := Run(actions[..j]);
    forall k | k in s.db.challenges && k !in Unexpired(s.db.challenges, s.clock)
      ensures !ChallengeLocked(s.calls, |s.calls|, k)
    {
    }
  }

  /** Until it expires, and whatever happens meanwhile, an issued challenge stays in the table as it was issued, unless
    * a success consumes it. */
  lemma {:induction false} IssuedRowStays(
    actions: seq<Action>, j: nat, m: nat, token: nat, session: Option<nat>, purpose: Purpose)
    requires j < m <= |actions| && IssuedAt(actions, j, token, session, purpose)
    requires Run(actions[..m]).clock <= Run(actions[..j]).clock + 60
    ensures var s, s' := Run(actions[..j]), Run(actions[..m]);
            && token in s'.db.challenges
            && s'.db.challenges[token].(consumedAt := None)
                 == Challenge(|s.issued|, session, purpose, s.clock + 60, None)
    decreases m
  {
    hide Run, Next, IssuedAt;
    if m == j + 1 {
      IssuePutsRow(actions, j, token, session, purpose);
    } else {
      var before := actions[..m - 1];
      assert actions[..m] == before + [actions[m - 1]];
      RunStep(before, actions[m - 1]);
      ClockRuns(Run(before), actions[m - 1]);
      IssuedRowStays(actions, j, m - 1, token, session, purpose);
      RunKeepsInvariant(before);
      hide Invariant;
      NextKeepsRow(Run(before), actions[m - 1], token);
    }
  }

  /** Nobody else's challenge is touched: one issued at most its lifetime ago that backs no success is in the table with
    * its purpose and session, unconsumed, and until it expires any request that answers it can use it. */
  lemma ChallengesStayUsable(
    actions: seq<Action>, j: nat, m: nat, token: nat, session: Option<nat>, purpose: Purpose, r: Request)
    requires j < m <= |actions| && IssuedAt(actions, j, token, session, purpose)
    requires Run(actions[..m]).clock <= Run(actions[..j]).clock + 60
    requires forall a :: 0 <= a < |Run(actions[..m]).log| ==>
               Run(actions[..m]).log[a].serial != |Run(actions[..j]).issued|
    ensures var s, s' := Run(actions[..j]), Run(actions[..m]);
            && token in s'.db.challenges
            && s'.db.challenges[token] == Challenge(|s.issued|, session, purpose, s.clock + 60, None)
            && (r.token == token && Answers(r, purpose, session) && s'.clock < s.clock + 60 ==>
                  Usable(s'.db.challenges, r, s'.clock))
  {
    IssuedRowStays(actions, j, m, token, session, purpose);
    ChallengesAreSingleUse(actions[..m]);
    AnswersIff(r, purpose, session);
    hide Run, IssuedAt, Earned;
  }

  /** A failed call is closed, its writes are gone, and nothing is committed. */
  lemma FailedCallsLeaveNothing(actions: seq<Action>, id: nat)
    requires id < |Run(actions).calls|
    ensures var s, s' := Run(actions), Run(actions + [Fail(id)]);
            && s'.db == s.db && s'.log == s.log && |s'.calls| == |s.calls|
            && s'.calls[id].pc == Closed && s'.calls[id].writes == NO_WRITES
            && forall j: nat :: j < |s.calls| && j != id ==> s'.calls[j] == s.calls[j]
  {
    hide Run;
    RunStep(actions, Fail(id));
  }

  // ---------------------------------------------------------------- permanence

  /** Rows a later state must still have: nullifier rows as they were, accounts under their email. */
  ghost predicate Grows(db: Db, db': Db) {
    && (forall n :: n in db.nullifiers ==> n in db'.nullifiers && db'.nullifiers[n] == db.nullifiers[n])
    && (forall u :: u in db.users ==> u in db'.users && db'.users[u].email == db.users[u].email)
  }

  lemma SameDbGrows(db: Db, db': Db)
    requires db'.nullifiers == db.nullifiers && db'.users == db.users
    ensures Grows(db, db')
  {
  }

  lemma AccountsGrow(s: State, a: Action)
    requires a.Register? || a.SoftDelete?
    ensures Grows(s.db, Next(s, a).db)
  {
    hide EmailTaken, EmailLocked;
  }

  lemma CommittedGrows(s: State, id: nat)
    requires Invariant(s) && id < |s.calls| && s.calls[id].pc == Ready
    requires s.calls[id].request.token in s.calls[id].writes.challenges
    ensures Grows(s.db, CommitCall(s, id).db)
  {
    hide CallOk, View, ChallengesOk, LogOk, UsersOk, NullifiersOk, CallsOk;
    CallIsOk(s, id);
    CallRowsOk(s.db, s.calls[id]);
    CommitGrows(s.db, s.calls[id].writes);
  }

  lemma NextGrows(s: State, a: Action)
    requires Invariant(s)
    ensures Grows(s.db, Next(s, a).db)
  {
    hide Invariant, CommitCall, StepCall, FailCall, Grows, SessionIdUsed, ChallengeLocked, EmailTaken, EmailLocked;
    hide UserIdUsed, Unexpired, ProofsOn, Spent;
    match a
    case Commit(id) =>
      if id < |s.calls| && s.calls[id].pc == Ready && s.calls[id].request.token in s.calls[id].writes.challenges {
        CommittedGrows(s, id);
      } else {
        SameDbGrows(s.db, s.db);
      }
    case Step(id, newId) =>
      if id < |s.calls| {
        CallsLeaveTables(s, id, newId);
      }
      SameDbGrows(s.db, s.db);
    case Fail(id) =>
      if id < |s.calls| {
        CallsLeaveTables(s, id, 0);
      }
      SameDbGrows(s.db, s.db);
    case Register(_, _) => AccountsGrow(s, a);
    case SoftDelete(_) => AccountsGrow(s, a);
    case _ => SameDbGrows(s.db, Next(s, a).db);
  }

  /** Nullifier rows are permanent: once committed, a row's audience, owner and kind never change, whatever policies
    * are set later. */
  lemma {:induction false} NullifiersArePermanent(actions: seq<Action>, k: nat)
    requires k <= |actions|
    ensures Grows(Run(actions[..k]).db, Run(actions).db)
    decreases |actions|
  {
    hide Next;
    if k == |actions| {
      assert actions[..k] == actions;
    } else {
      var front := actions[..|actions| - 1];
      assert front[..k] == actions[..k];
      NullifiersArePermanent(front, k);
      RunKeepsInvariant(front);
      hide Invariant;
      NextGrows(Run(front), actions[|actions| - 1]);
    }
  }

  /** Every nullifier row is either an account's or an allowance's, never both or neither. */
  lemma NullifiersAreDisjoint(actions: seq<Action>, n: Field)
    requires n in Run(actions).db.nullifiers
    ensures var row := Run(actions).db.nullifiers[n]; row.user.Some? <==> row.consumedAt.None?
  {
    RunKeepsInvariant(actions);
    hide Run, CallsOk, LogOk, ChallengesOk;
  }

  // ---------------------------------------------------------------- accounts

  /** Live accounts have different emails, even but for the case of letters. */
  lemma LiveEmailsDiffer(actions: seq<Action>, u: nat, v: nat)
    requires var users := Run(actions).db.users;
             && u in users && v in users && !users[u].deleted && !users[v].deleted
             && SameButCase(users[u].email, users[v].email)
    ensures u == v
  {
    RunKeepsInvariant(actions);
    LowerIffSameButCase(Run(actions).db.users[u].email, Run(actions).db.users[v].email);
    hide Run, CallsOk, LogOk, ChallengesOk, Lower, SameButCase;
  }

  // ---------------------------------------------------------------- pseudonyms

  /** First logins converge and stay apart: two logins return the same account exactly when they proved the same
    * nullifier, and the account's email is the one derived from it. */
  lemma LoginsConverge(actions: seq<Action>, a: nat, b: nat)
    requires a < |Run(actions).log| && b < |Run(actions).log|
    requires Run(actions).log[a].request.Login? && Run(actions).log[b].request.Login?
    ensures var s := Run(actions);
            && (s.log[a].user == s.log[b].user <==> s.log[a].request.nullifier == s.log[b].request.nullifier)
            && s.log[a].user in s.db.users
            && s.db.users[s.log[a].user].email == PseudonymEmail(s.log[a].request.nullifier)
            && s.log[a].policy.allowsLogin && s.log[a].policy.kind == Recurring
  {
    RunKeepsInvariant(actions);
    hide Run, CallsOk, ChallengesOk, PseudonymEmail;
    var s := Run(actions);
    assert Recorded(s.db, s.log[a]) && Recorded(s.db, s.log[b]);
    if s.log[a].user == s.log[b].user {
      PseudonymEmailInjective(s.log[a].request.nullifier, s.log[b].request.nullifier);
    }
  }

  /** Confinement: a nullifier that is burned, or bound to an account under any other email, never yields a login,
    * before or after. */
  lemma BoundNullifierNeverLogsIn(actions: seq<Action>, k: nat, n: Field, a: nat)
    requires k <= |actions| && n in Run(actions[..k]).db.nullifiers
    requires var db := Run(actions[..k]).db;
             var user := db.nullifiers[n].user;
             user.Some? ==> user.value in db.users && db.users[user.value].email != PseudonymEmail(n)
    requires a < |Run(actions).log| && Run(actions).log[a].request.Login?
    ensures Run(actions).log[a].request.nullifier != n
  {
    RunKeepsInvariant(actions);
    NullifiersArePermanent(actions, k);
    hide Run, CallsOk, ChallengesOk, PseudonymEmail;
    assert Recorded(Run(actions).db, Run(actions).log[a]);
  }

  /** A refused login leaves no account: every account was registered elsewhere or belongs to a login that succeeded. */
  lemma RefusedLoginsLeaveNoAccount(actions: seq<Action>, u: nat)
    requires u in Run(actions).db.users
    ensures u in Run(actions).registered || LoggedIn(Run(actions).log, u)
  {
    RunKeepsInvariant(actions);
    hide Run, CallsOk, ChallengesOk, LoggedIn;
  }
}
