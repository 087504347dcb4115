/** That a deleted account is never logged into again. */
module Accounts {
  import opened Hashing
  import opened ClaimHolder
  import opened Protocol
  import opened ProtocolSafety
  import opened ProtocolTheorems
  import opened Provenance

  predicate NotDeleted(db: Db, u: nat) {
    u !in db.users || !db.users[u].deleted
  }

  /** Action k is a statement of call `id` that runs while the account is live, or does not exist yet. */
  ghost predicate Finds(actions: seq<Action>, k: nat, id: nat, request: Request, u: nat) {
    && k < |actions| && actions[k].Step? && actions[k].id == id
    && id < |Run(actions[..k]).calls| && Run(actions[..k]).calls[id].request == request
    && NotDeleted(Run(actions[..k]).db, u)
  }

  ghost predicate Found(actions: seq<Action>, id: nat, request: Request, u: nat) {
    exists k: nat :: Finds(actions, k, id, request, u)
  }

  /** A login that has settled on its account. */
  predicate Settles(call: Call) {
    call.request.Login? && call.pc in {AtCreateNullifier, AtSession, Ready}
  }

  ghost predicate AllFound(actions: seq<Action>, s: State) {
    && (forall j: nat :: j < |s.calls| && Settles(s.calls[j]) ==>
          Found(actions, j, s.calls[j].request, s.calls[j].user))
    && (forall a: nat :: a < |s.log| && s.log[a].request.Login? ==>
          Found(actions, s.log[a].id, s.log[a].request, s.log[a].user))
  }

  // ---------------------------------------------------------------- every step keeps it

  lemma ResolvingSettles(s: State, id: nat, newId: nat)
    requires id < |s.calls| && CallOk(s.db, s.calls[id]) && NullifiersOk(s.db)
    requires s.calls[id].pc == AtResolve || s.calls[id].pc == AtReresolve
    ensures var call' := Advance(s, id, newId); Settles(call') ==> NotDeleted(s.db, call'.user)
  {
    var call := s.calls[id];
    if Resolve(View(s.db, call.writes), call.request.nullifier, call.policy.audience).Some? {
      ResolveFindsCommitted(s.db, call);
      assert View(s.db, call.writes).users == s.db.users;
    }
    hide CallOk, NullifiersOk;
  }

  /** A statement settles on an account only while it is live, or creates it. */
  lemma AdvanceSettles(s: State, id: nat, newId: nat)
    requires Invariant(s) && id < |s.calls|
    ensures var call, call' := s.calls[id], Advance(s, id, newId);
            && call'.request == call.request
            && (Settles(call') ==> (Settles(call) && call'.user == call.user) || NotDeleted(s.db, call'.user))
  {
    AdvanceOwes(s, id, newId);
    CallOfInvariant(s, id);
    if s.calls[id].pc == AtResolve || s.calls[id].pc == AtReresolve {
      hide CallOk, ChallengesOk, LogOk, UsersOk, CallsOk, Advance;
      ResolvingSettles(s, id, newId);
    } else {
      hide Invariant, CallOk, View, Usable, WellFormed, RootAccepted, EmailTaken, ChallengeLocked;
      hide NullifierLocked, EmailLocked, SessionIdUsed, LoginSessions, Resolve;
    }
  }

  lemma FoundStays(front: seq<Action>, last: Action, id: nat, request: Request, u: nat)
    requires Found(front, id, request, u)
    ensures Found(front + [last], id, request, u)
  {
    hide Run, NotDeleted;
    var k: nat :| Finds(front, k, id, request, u);
    PrefixStays(front, last, k);
    assert Finds(front + [last], k, id, request, u);
  }

  lemma FoundNow(front: seq<Action>, id: nat, newId: nat, u: nat)
    requires id < |Run(front).calls| && NotDeleted(Run(front).db, u)
    ensures Found(front + [Step(id, newId)], id, Run(front).calls[id].request, u)
  {
    hide Run, NotDeleted;
    var actions := front + [Step(id, newId)];
    assert actions[..|front|] == front;
    assert Finds(actions, |front|, id, Run(front).calls[id].request, u);
  }

  lemma AllStayFound(front: seq<Action>, last: Action, s: State)
    requires AllFound(front, s)
    ensures AllFound(front + [last], s)
  {
    hide Found, Settles;
    forall j: nat | j < |s.calls| && Settles(s.calls[j])
      ensures Found(front + [last], j, s.calls[j].request, s.calls[j].user)
    {
      FoundStays(front, last, j, s.calls[j].request, s.calls[j].user);
    }
    forall a: nat | a < |s.log| && s.log[a].request.Login?
      ensures Found(front + [last], s.log[a].id, s.log[a].request, s.log[a].user)
    {
      FoundStays(front, last, s.log[a].id, s.log[a].request, s.log[a].user);
    }
  }

  lemma StepFound(front: seq<Action>, id: nat, newId: nat)
    requires Invariant(Run(front)) && AllFound(front, Run(front)) && id < |Run(front).calls|
    ensures AllFound(front + [Step(id, newId)], StepCall(Run(front), id, newId))
  {
    hide Run, Invariant, Advance, Found, Settles, NotDeleted;
    var s := Run(front);
    AllStayFound(front, Step(id, newId), s);
    AdvanceSettles(s, id, newId);
    var call' := Advance(s, id, newId);
    if NotDeleted(s.db, call'.user) {
      FoundNow(front, id, newId, call'.user);
    }
  }

  lemma CommitFound(actions: seq<Action>, s: State, id: nat)
    requires AllFound(actions, s) && id < |s.calls| && s.calls[id].pc == Ready
    requires s.calls[id].request.token in s.calls[id].writes.challenges
    ensures AllFound(actions, CommitCall(s, id))
  {
    assert !Settles(Close(s.calls[id])) && (s.calls[id].request.Login? ==> Settles(s.calls[id]));
    hide Found, Settles, View, Close;
  }

  lemma FailFound(actions: seq<Action>, s: State, id: nat)
    requires AllFound(actions, s) && id < |s.calls|
    ensures AllFound(actions, FailCall(s, id))
  {
    assert !Settles(Close(s.calls[id]));
    hide Found, Settles, Close;
  }

  lemma SubmitFound(actions: seq<Action>, s: State, request: Request)
    requires AllFound(actions, s)
    ensures AllFound(actions, Next(s, Submit(request)))
  {
    assert !Settles(Call(request, AtPolicy, NO_POLICY, 0, 0, 0, NO_WRITES));
    hide Found, Settles;
  }

  lemma SameCallsFound(actions: seq<Action>, s: State, s': State)
    requires AllFound(actions, s) && s'.calls == s.calls && s'.log == s.log
    ensures AllFound(actions, s')
  {
    hide Found, Settles;
  }

  lemma NextFound(front: seq<Action>, last: Action)
    requires Invariant(Run(front)) && AllFound(front, Run(front))
    ensures AllFound(front + [last], Next(Run(front), last))
  {
    hide Run, Invariant, AllFound, StepCall, CommitCall, FailCall, ProofsOn, Spent, ChallengeLocked, EmailTaken;
    hide UserIdUsed, EmailLocked, SessionIdUsed, Unexpired;
    var s, actions := Run(front), front + [last];
    AllStayFound(front, last, s);
    match last
    case Step(id, newId) =>
      if id < |s.calls| {
        StepFound(front, id, newId);
      }
    case Commit(id) =>
      if id < |s.calls| && s.calls[id].pc == Ready && s.calls[id].request.token in s.calls[id].writes.challenges {
        CommitFound(actions, s, id);
      }
    case Fail(id) =>
      if id < |s.calls| {
        FailFound(actions, s, id);
      }
    case Submit(request) => SubmitFound(actions, s, request);
    case _ => SameCallsFound(actions, s, Next(s, last));
  }

  lemma NothingFound()
    ensures AllFound([], START)
  {
  }

  lemma {:induction false} RunFound(actions: seq<Action>)
    ensures AllFound(actions, Run(actions))
  {
    hide AllFound, Next, Invariant;
    if actions == [] {
      NothingFound();
    } else {
      var front, last := actions[..|actions| - 1], actions[|actions| - 1];
      RunFound(front);
      RunKeepsInvariant(front);
      NextFound(front, last);
      assert actions == front + [last];
    }
  }

  // ---------------------------------------------------------------- deletion is final

  predicate Deleted(db: Db, u: nat) {
    u in db.users && db.users[u].deleted
  }

  lemma CommitKeepsDeleted(db: Db, w: Writes, u: nat)
    requires RowsOk(db, w) && Deleted(db, u)
    ensures Deleted(View(db, w), u)
  {
    hide EmailTaken;
  }

  lemma CommittedDb(s: State, id: nat)
    requires id < |s.calls| && s.calls[id].pc == Ready && s.calls[id].request.token in s.calls[id].writes.challenges
    ensures CommitCall(s, id).db == View(s.db, s.calls[id].writes)
  {
    hide View;
  }

  lemma NextKeepsDeleted(s: State, a: Action, u: nat)
    requires Invariant(s) && Deleted(s.db, u)
    ensures Deleted(Next(s, a).db, u)
  {
    hide Invariant, StepCall, CommitCall, FailCall, SessionIdUsed, ChallengeLocked, EmailTaken, EmailLocked, Unexpired;
    hide ProofsOn, Spent;
    match a
    case Commit(id) =>
      if id < |s.calls| && s.calls[id].pc == Ready && s.calls[id].request.token in s.calls[id].writes.challenges {
        CallOfInvariant(s, id);
        CallRowsOk(s.db, s.calls[id]);
        CommitKeepsDeleted(s.db, s.calls[id].writes, u);
        CommittedDb(s, id);
      }
    case Step(id, newId) =>
      if id < |s.calls| {
        CallsLeaveTables(s, id, newId);
      }
    case Fail(id) =>
      if id < |s.calls| {
        CallsLeaveTables(s, id, 0);
      }
    case _ =>
  }

  lemma DeleteDeletes(s: State, u: nat)
    requires u in s.db.users
    ensures Deleted(Next(s, SoftDelete(u)).db, u)
  {
  }

  lemma {:induction false} DeletedStays(actions: seq<Action>, j: nat, k: nat, u: nat)
    requires j < k <= |actions| && actions[j] == SoftDelete(u) && u in Run(actions[..j]).db.users
    ensures Deleted(Run(actions[..k]).db, u)
    decreases k
  {
    hide Next, Invariant;
    var before := actions[..k - 1];
    assert actions[..k] == before + [actions[k - 1]];
    RunStep(before, actions[k - 1]);
    if k == j + 1 {
      DeleteDeletes(Run(before), u);
    } else {
      DeletedStays(actions, j, k - 1, u);
      RunKeepsInvariant(before);
      NextKeepsDeleted(Run(before), actions[k - 1], u);
    }
  }

  /** A login submitted after an account was deleted never returns that account, whatever nullifier it proves. */
  lemma DeletedAccountsNeverLogIn(actions: seq<Action>, j: nat, u: nat, k: nat, a: nat)
    requires j < k && j < |actions| && actions[j] == SoftDelete(u) && u in Run(actions[..j]).db.users
    requires a < |Run(actions).log| && Run(actions).log[a].request.Login?
    requires Submits(actions, k, Run(actions).log[a].id, Run(actions).log[a].request)
    ensures Run(actions).log[a].user != u
  {
    hide Run, Submits;
    RunFound(actions);
    var e := Run(actions).log[a];
    var m: nat :| Finds(actions, m, e.id, e.request, e.user);
    assert StepsAt(actions, m, e.id, e.request, Run(actions[..m]).calls[e.id].pc);
    SubmittedBefore(actions, k, m, e.id, e.request, Run(actions[..m]).calls[e.id].pc);
    DeletedStays(actions, j, m, u);
  }
}
