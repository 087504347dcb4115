/** What sessions and session claims owe to the calls that succeeded. */
module Sessions {
  import opened Hashing
  import opened ClaimHolder
  import opened Protocol
  import opened ProtocolSafety
  import opened ProtocolTheorems

  // ---------------------------------------------------------------- the invariant

  /** The session rows a call has written, step by step. Only recurring claims are ever among them. */
  ghost predicate SessionRows(call: Call) {
    var sessions, claims := call.writes.sessions, call.writes.sessionClaims;
    match call.request
    case VerifyKnowledge(_, _, _) => sessions == map[] && claims == {}
    case Login(_, claim, _, _, prior) =>
      && (call.pc !in {AtPolicy, AtRoot, AtPeek, AtVerify, Closed} ==> call.policy.kind == Recurring)
      && (if call.pc == Ready then
            sessions == LoginSessions(prior, call.sid, call.user) && claims == {(call.sid, claim)}
          else sessions == map[] && claims == {})
    case ProveClaim(_, claim, _, _, sid, _, _) =>
      && sessions == map[]
      && (call.pc in {AtBind, AtStore} ==> call.policy.kind == Recurring)
      && (call.pc == AtBurn ==> call.policy.kind == OneShot)
      && claims == if call.pc in {AtSink, Ready} && call.policy.kind == Recurring then {(sid, claim)} else {}
  }

  /** A login that has issued its session and not yet committed. */
  predicate Issuing(call: Call) {
    call.request.Login? && call.pc == Ready
  }

  ghost predicate Proves(e: Success, sid: nat, claim: string) {
    && !e.request.VerifyKnowledge? && e.request.claim == claim && e.policy.kind == Recurring
    && sid == if e.request.Login? then e.sid else e.request.sid
  }

  ghost predicate Opened(e: Success, sid: nat, user: nat) {
    e.request.Login? && e.sid == sid && e.user == user
  }

  ghost predicate CallsWrite(calls: seq<Call>) {
    && (forall j: nat :: j < |calls| ==> SessionRows(calls[j]))
    && (forall i: nat, j: nat | i < |calls| && j < |calls| ::
          Issuing(calls[i]) && Issuing(calls[j]) && calls[i].sid == calls[j].sid ==> i == j)
  }

  ghost predicate SidsApart(calls: seq<Call>, log: seq<Success>) {
    && (forall j: nat, a: nat | j < |calls| && a < |log| ::
          Issuing(calls[j]) && log[a].request.Login? ==> calls[j].sid != log[a].sid)
    && (forall a: nat, b: nat | a < |log| && b < |log| ::
          log[a].request.Login? && log[b].request.Login? && log[a].sid == log[b].sid ==> a == b)
  }

  ghost predicate SomeOpened(log: seq<Success>, sid: nat, user: nat) {
    exists a: nat :: a < |log| && Opened(log[a], sid, user)
  }

  ghost predicate SomeProves(log: seq<Success>, sid: nat, claim: string) {
    exists a: nat :: a < |log| && Proves(log[a], sid, claim)
  }

  ghost predicate TablesOwed(db: Db, outside: map<nat, nat>, log: seq<Success>) {
    && (forall sid :: sid in db.sessions ==>
          if sid in outside then outside[sid] == db.sessions[sid] else SomeOpened(log, sid, db.sessions[sid]))
    && (forall sid, claim :: (sid, claim) in db.sessionClaims ==> SomeProves(log, sid, claim))
  }

  /** No login has issued a session that was opened elsewhere. */
  ghost predicate NoneOpened(calls: seq<Call>, outside: map<nat, nat>, log: seq<Success>) {
    && (forall j: nat :: j < |calls| && Issuing(calls[j]) ==> calls[j].sid !in outside)
    && (forall a: nat :: a < |log| && log[a].request.Login? ==> log[a].sid !in outside)
  }

  ghost predicate SessionsOk(s: State) {
    && CallsWrite(s.calls) && SidsApart(s.calls, s.log)
    && TablesOwed(s.db, s.outside, s.log) && NoneOpened(s.calls, s.outside, s.log)
  }

  // ---------------------------------------------------------------- every step keeps it

  lemma EarlyWrites(s: State, id: nat, newId: nat)
    requires id < |s.calls| && SessionRows(s.calls[id])
    requires s.calls[id].pc in {AtPolicy, AtRoot, AtPeek, AtVerify, AtBegin, AtConsume}
    ensures var call, call' := s.calls[id], Advance(s, id, newId);
            SessionRows(call') && call'.request == call.request && !Issuing(call')
  {
    hide Usable, ChallengeLocked, LoginSessions;
  }

  lemma LoginWrites(s: State, id: nat, newId: nat)
    requires id < |s.calls| && SessionRows(s.calls[id])
    requires s.calls[id].pc in {AtResolve, AtCreateUser, AtCreateNullifier, AtReresolve}
    ensures var call, call' := s.calls[id], Advance(s, id, newId);
            SessionRows(call') && call'.request == call.request && !Issuing(call')
  {
    hide View, Resolve, EmailTaken, NullifierLocked, EmailLocked, UserIdUsed, LoginSessions;
  }

  lemma LateWrites(s: State, id: nat, newId: nat)
    requires id < |s.calls| && SessionRows(s.calls[id])
    requires s.calls[id].pc in {AtMfa, AtSession, AtBind, AtBurn, AtStore, AtSink, Ready, Closed}
    ensures var call, call' := s.calls[id], Advance(s, id, newId);
            && SessionRows(call') && call'.request == call.request
            && (Issuing(call') ==> call' == call || (call'.sid == newId && !SessionIdUsed(s, newId)))
  {
    hide NullifierLocked, SessionIdUsed, LoginSessions;
  }

  lemma AdvanceWrites(s: State, id: nat, newId: nat)
    requires id < |s.calls| && SessionRows(s.calls[id])
    ensures var call, call' := s.calls[id], Advance(s, id, newId);
            && SessionRows(call') && call'.request == call.request
            && (Issuing(call') ==> call' == call || (call'.sid == newId && !SessionIdUsed(s, newId)))
  {
    hide Advance, SessionRows, SessionIdUsed, Issuing;
    match s.calls[id].pc
    case AtPolicy | AtRoot | AtPeek | AtVerify | AtBegin | AtConsume => EarlyWrites(s, id, newId);
    case AtResolve | AtCreateUser | AtCreateNullifier | AtReresolve => LoginWrites(s, id, newId);
    case _ => LateWrites(s, id, newId);
  }

  lemma IssuedSidIsHeld(call: Call)
    requires SessionRows(call) && Issuing(call)
    ensures call.sid in call.writes.sessions
  {
  }

  lemma StepKeepsSessions(s: State, id: nat, newId: nat)
    requires SessionsOk(s) && id < |s.calls|
    ensures SessionsOk(StepCall(s, id, newId))
  {
    AdvanceWrites(s, id, newId);
    forall j: nat | j < |s.calls| && Issuing(s.calls[j])
      ensures s.calls[j].sid in s.calls[j].writes.sessions
    {
      IssuedSidIsHeld(s.calls[j]);
    }
    hide Advance, SessionRows, TablesOwed, Issuing;
  }

  lemma CloseKeepsCalls(s: State, id: nat)
    requires SessionsOk(s) && id < |s.calls|
    ensures var calls := s.calls[id := Close(s.calls[id])];
            CallsWrite(calls) && SidsApart(calls, s.log) && NoneOpened(calls, s.outside, s.log)
  {
    assert SessionRows(Close(s.calls[id])) && !Issuing(Close(s.calls[id]));
    hide SessionRows, TablesOwed, Issuing, Close;
  }

  lemma SomeAppended(log: seq<Success>, e: Success)
    ensures forall sid, user :: SomeOpened(log, sid, user) || Opened(e, sid, user) ==> SomeOpened(log + [e], sid, user)
    ensures forall sid, claim ::
              SomeProves(log, sid, claim) || Proves(e, sid, claim) ==> SomeProves(log + [e], sid, claim)
  {
    hide Opened, Proves;
    var log' := log + [e];
    assert log'[|log|] == e && forall a: nat :: a < |log| ==> log'[a] == log[a];
    forall sid, user | SomeOpened(log, sid, user)
      ensures SomeOpened(log', sid, user)
    {
      var a: nat :| a < |log| && Opened(log[a], sid, user);
      assert Opened(log'[a], sid, user);
    }
    forall sid, claim | SomeProves(log, sid, claim)
      ensures SomeProves(log', sid, claim)
    {
      var a: nat :| a < |log| && Proves(log[a], sid, claim);
      assert Proves(log'[a], sid, claim);
    }
    forall sid, user | Opened(e, sid, user)
      ensures SomeOpened(log', sid, user)
    {
      assert Opened(log'[|log|], sid, user);
    }
    forall sid, claim | Proves(e, sid, claim)
      ensures SomeProves(log', sid, claim)
    {
      assert Proves(log'[|log|], sid, claim);
    }
  }

  lemma LayerOfLogin(sessions: map<nat, nat>, prior: Option<nat>, sid: nat, user: nat)
    ensures var w := LoginSessions(prior, sid, user);
            (sessions - w.Keys) + (map k | k in w && w[k].Some? :: w[k].value)
              == (if prior.Some? then sessions - {prior.value} else sessions)[sid := user]
  {
  }

  function AfterLogin(sessions: map<nat, nat>, call: Call): map<nat, nat>
    requires call.request.Login?
  {
    var prior := call.request.prior;
    (if prior.Some? then sessions - {prior.value} else sessions)[call.sid := call.user]
  }

  /** What a commit does to the session tables. */
  lemma CommittedSessions(db: Db, call: Call)
    requires SessionRows(call) && call.pc == Ready
    ensures View(db, call.writes).sessions == if call.request.Login? then AfterLogin(db.sessions, call) else db.sessions
    ensures View(db, call.writes).sessionClaims == db.sessionClaims + call.writes.sessionClaims
  {
    hide LoginSessions;
    if call.request.Login? {
      LayerOfLogin(db.sessions, call.request.prior, call.sid, call.user);
    }
  }

  lemma CommittedClaims(call: Call, e: Success)
    requires SessionRows(call) && call.pc == Ready
    requires e.request == call.request && e.policy == call.policy && e.user == call.user && e.sid == call.sid
    ensures forall sid, claim :: (sid, claim) in call.writes.sessionClaims ==> Proves(e, sid, claim)
    ensures call.request.Login? ==> Opened(e, call.sid, call.user)
  {
    hide LoginSessions;
  }

  lemma CommitOwed(db: Db, outside: map<nat, nat>, log: seq<Success>, call: Call, e: Success)
    requires TablesOwed(db, outside, log) && SessionRows(call) && call.pc == Ready
    requires Issuing(call) ==> call.sid !in outside
    requires e.request == call.request && e.policy == call.policy && e.user == call.user && e.sid == call.sid
    ensures TablesOwed(View(db, call.writes), outside, log + [e])
  {
    hide View, SessionRows, SomeOpened, SomeProves, Opened, Proves;
    CommittedSessions(db, call);
    CommittedClaims(call, e);
    SomeAppended(log, e);
  }

  lemma CommitKeepsSids(s: State, id: nat, e: Success)
    requires SessionsOk(s) && id < |s.calls| && s.calls[id].pc == Ready
    requires e.request == s.calls[id].request && e.sid == s.calls[id].sid
    ensures var calls := s.calls[id := Close(s.calls[id])];
            SidsApart(calls, s.log + [e]) && NoneOpened(calls, s.outside, s.log + [e])
  {
    var calls := s.calls[id := Close(s.calls[id])];
    assert !Issuing(calls[id]) && (e.request.Login? <==> Issuing(s.calls[id]));
    hide SessionRows, TablesOwed, Issuing, Close;
  }

  lemma CommitKeepsSessions(s: State, id: nat)
    requires SessionsOk(s) && id < |s.calls| && s.calls[id].pc == Ready
    requires s.calls[id].request.token in s.calls[id].writes.challenges
    ensures SessionsOk(CommitCall(s, id))
  {
    var call, s' := s.calls[id], CommitCall(s, id);
    var e := s'.log[|s.log|];
    CloseKeepsCalls(s, id);
    CommitKeepsSids(s, id, e);
    assert SessionRows(call);
    hide View, SessionRows, TablesOwed, CallsWrite, SidsApart;
    CommitOwed(s.db, s.outside, s.log, call, e);
  }

  lemma SubmitKeepsSessions(s: State, request: Request)
    requires SessionsOk(s)
    ensures SessionsOk(Next(s, Submit(request)))
  {
    var call := Call(request, AtPolicy, NO_POLICY, 0, 0, 0, NO_WRITES);
    assert SessionRows(call) && !Issuing(call);
    hide SessionRows, TablesOwed, Issuing;
  }

  lemma OtherTablesKeepSessions(s: State, s': State)
    requires SessionsOk(s) && s'.calls == s.calls && s'.log == s.log && s'.outside == s.outside
    requires s'.db.sessionClaims == s.db.sessionClaims
    requires forall sid :: sid in s'.db.sessions ==> sid in s.db.sessions && s'.db.sessions[sid] == s.db.sessions[sid]
    ensures SessionsOk(s')
  {
    hide CallsWrite, SidsApart, NoneOpened, SomeOpened, SomeProves;
  }

  lemma OpenKeepsSessions(s: State, sid: nat, uid: nat)
    requires SessionsOk(s)
    ensures SessionsOk(Next(s, OpenSession(sid, uid)))
  {
    forall j: nat | j < |s.calls| && Issuing(s.calls[j])
      ensures s.calls[j].sid in s.calls[j].writes.sessions
    {
      IssuedSidIsHeld(s.calls[j]);
    }
    hide CallsWrite, SidsApart, SomeOpened, SomeProves, Issuing;
  }

  lemma FailKeepsSessions(s: State, id: nat)
    requires SessionsOk(s) && id < |s.calls|
    ensures SessionsOk(FailCall(s, id))
  {
    CloseKeepsCalls(s, id);
    hide CallsWrite, SidsApart, TablesOwed, NoneOpened;
  }

  lemma NextKeepsSessions(s: State, a: Action)
    requires SessionsOk(s)
    ensures SessionsOk(Next(s, a))
  {
    hide SessionsOk, StepCall, CommitCall, FailCall, SessionIdUsed, ProofsOn, Spent, ChallengeLocked, EmailTaken;
    hide UserIdUsed, EmailLocked, Unexpired;
    match a
    case Step(id, newId) =>
      if id < |s.calls| {
        StepKeepsSessions(s, id, newId);
      }
    case Commit(id) =>
      if id < |s.calls| && s.calls[id].pc == Ready && s.calls[id].request.token in s.calls[id].writes.challenges {
        CommitKeepsSessions(s, id);
      }
    case Fail(id) =>
      if id < |s.calls| {
        FailKeepsSessions(s, id);
      }
    case Submit(request) => SubmitKeepsSessions(s, request);
    case OpenSession(sid, uid) => OpenKeepsSessions(s, sid, uid);
    case _ => OtherTablesKeepSessions(s, Next(s, a));
  }

  lemma {:induction false} RunKeepsSessions(actions: seq<Action>)
    ensures SessionsOk(Run(actions))
  {
    if actions != [] {
      RunKeepsSessions(actions[..|actions| - 1]);
      hide SessionsOk, Next;
      NextKeepsSessions(Run(actions[..|actions| - 1]), actions[|actions| - 1]);
    }
  }

  /** Every live session belongs to the account it was opened for: elsewhere in the application, and then no login has
    * issued it, or by exactly one login, and then for the account that login returned. */
  lemma SessionsHaveOneOrigin(actions: seq<Action>, sid: nat)
    requires sid in Run(actions).db.sessions
    ensures var s := Run(actions);
            var user := s.db.sessions[sid];
            if sid in s.outside then
              s.outside[sid] == user && forall b: nat :: b < |s.log| && s.log[b].request.Login? ==> s.log[b].sid != sid
            else
              exists a: nat :: a < |s.log| && Opened(s.log[a], sid, user)
                               && forall b: nat ::
                                    b < |s.log| && s.log[b].request.Login? && s.log[b].sid == sid ==> b == a
  {
    RunKeepsSessions(actions);
    hide Run, CallsWrite;
  }

  /** Every claim stored for a session was proved for it, by a success under a recurring policy: one-shot claims are
    * never stored. */
  lemma SessionClaimsAreProved(actions: seq<Action>, sid: nat, claim: string)
    requires (sid, claim) in Run(actions).db.sessionClaims
    ensures SomeProves(Run(actions).log, sid, claim)
  {
    RunKeepsSessions(actions);
    hide Run, CallsWrite, SidsApart, SomeProves;
  }

  lemma IssuedSidIsFresh(s: State, id: nat)
    requires SessionsOk(s) && id < |s.calls| && Issuing(s.calls[id])
    ensures s.calls[id].sid !in s.db.sessions
  {
    hide CallsWrite, Issuing;
  }

  /** A login that is ready has its challenge in hand, so its commit is enabled. */
  lemma ReadyCanCommit(actions: seq<Action>, id: nat)
    requires id < |Run(actions).calls| && Run(actions).calls[id].pc == Ready
    ensures Run(actions).calls[id].request.token in Run(actions).calls[id].writes.challenges
  {
    hide Run, ChallengesOk, LogOk, UsersOk, NullifiersOk, CallsOk, CallOk;
    RunKeepsInvariant(actions);
    CallIsOk(Run(actions), id);
    ReadyHoldsChallenge(Run(actions).db, Run(actions).calls[id]);
  }

  lemma ReadyRows(s: State, id: nat)
    requires SessionsOk(s) && id < |s.calls|
    ensures SessionRows(s.calls[id])
  {
    hide SessionRows, SidsApart, TablesOwed, NoneOpened;
  }

  /** A login that commits replaces the session it came from by the one it issued, and touches no other. */
  lemma LoginReplacesSession(actions: seq<Action>, id: nat)
    requires id < |Run(actions).calls| && Issuing(Run(actions).calls[id])
    ensures var s, s' := Run(actions), Run(actions + [Commit(id)]);
            var call := s.calls[id];
            && call.sid !in s.db.sessions
            && call.sid in s'.db.sessions && s'.db.sessions[call.sid] == call.user
            && (forall sid :: sid != call.sid ==>
                  (sid in s'.db.sessions <==> sid in s.db.sessions && call.request.prior != Some(sid))
                  && (sid in s'.db.sessions ==> s'.db.sessions[sid] == s.db.sessions[sid]))
  {
    hide Run, View, SessionsOk;
    RunKeepsSessions(actions);
    ReadyCanCommit(actions, id);
    RunStep(actions, Commit(id));
    ReadyRows(Run(actions), id);
    hide SessionRows;
    CommittedSessions(Run(actions).db, Run(actions).calls[id]);
    IssuedSidIsFresh(Run(actions), id);
  }

  /** A login that came from the session is about to commit. */
  predicate Revoking(call: Call, sid: nat) {
    Issuing(call) && call.request.prior == Some(sid)
  }

  /** What an action may do to one session: it keeps its account while it lives, it goes only when it is ended or when a
    * login that came from it commits, and it appears only when it is opened for a live account under a new id or
    * issued by a login. */
  ghost predicate ChangesOnly(s: State, a: Action, s': State, sid: nat) {
    && (a == EndSession(sid) ==> sid !in s'.db.sessions)
    && (sid in s.db.sessions && sid in s'.db.sessions ==> s'.db.sessions[sid] == s.db.sessions[sid])
    && (sid in s.db.sessions && sid !in s'.db.sessions ==>
          a == EndSession(sid) || (a.Commit? && a.id < |s.calls| && Revoking(s.calls[a.id], sid)))
    && (sid !in s.db.sessions && sid in s'.db.sessions ==>
          || (a == OpenSession(sid, s'.db.sessions[sid]) && !SessionIdUsed(s, sid)
              && s'.db.sessions[sid] in s.db.users && !s.db.users[s'.db.sessions[sid]].deleted)
          || (a.Commit? && a.id < |s.calls| && Issuing(s.calls[a.id]) && s.calls[a.id].sid == sid
              && s.calls[a.id].user == s'.db.sessions[sid]))
  }

  lemma LiveIdIsUsed(s: State, sid: nat)
    requires SessionsOk(s) && sid in s.db.sessions
    ensures SessionIdUsed(s, sid)
  {
    hide CallsWrite, SidsApart, NoneOpened;
  }

  lemma CommitChanges(s: State, id: nat, sid: nat)
    requires SessionsOk(s) && id < |s.calls| && s.calls[id].pc == Ready
    requires s.calls[id].request.token in s.calls[id].writes.challenges
    ensures ChangesOnly(s, Commit(id), CommitCall(s, id), sid)
  {
    hide View, SessionRows, SessionIdUsed;
    assert SessionRows(s.calls[id]);
    CommittedSessions(s.db, s.calls[id]);
    if Issuing(s.calls[id]) {
      IssuedSidIsFresh(s, id);
    }
  }

  lemma NextChanges(s: State, a: Action, sid: nat)
    requires SessionsOk(s)
    ensures ChangesOnly(s, a, Next(s, a), sid)
  {
    hide SessionsOk, StepCall, CommitCall, FailCall, SessionIdUsed, ProofsOn, Spent, ChallengeLocked, EmailTaken;
    hide UserIdUsed, EmailLocked, Unexpired;
    match a
    case Step(id, newId) =>
      if id < |s.calls| {
        CallsLeaveTables(s, id, newId);
      }
    case Commit(id) =>
      if id < |s.calls| && s.calls[id].pc == Ready && s.calls[id].request.token in s.calls[id].writes.challenges {
        CommitChanges(s, id, sid);
      }
    case Fail(id) =>
      if id < |s.calls| {
        CallsLeaveTables(s, id, 0);
      }
    case OpenSession(_, _) =>
      if sid in s.db.sessions {
        LiveIdIsUsed(s, sid);
      }
    case _ =>
  }

  /** Nothing else ever touches a session, wherever it came from. */
  lemma SessionsChangeOnly(actions: seq<Action>, a: Action, sid: nat)
    ensures ChangesOnly(Run(actions), a, Run(actions + [a]), sid)
  {
    hide Run, Next, ChangesOnly, SessionsOk;
    RunKeepsSessions(actions);
    RunStep(actions, a);
    NextChanges(Run(actions), a, sid);
  }
}
