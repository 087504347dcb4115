/** That the protocol's successes happen: requests nothing stands in the way of go through, whatever the run so far. */
module Progress {
  import opened Hashing
  import opened Encoding
  import opened ClaimHolder
  import opened Protocol
  import opened ProtocolSafety
  import opened ProtocolTheorems
  import Tokens

  // ---------------------------------------------------------------- one call at a time

  /** The run goes on, and neither the tree nor the grace changes meanwhile. */
  ghost predicate Continues(from: seq<Action>, actions: seq<Action>) {
    && |from| <= |actions| && actions[..|from|] == from
    && forall k: nat :: |from| <= k < |actions| ==> !actions[k].TreeCommit? && !actions[k].SetGrace?
  }

  lemma Take(from: seq<Action>, actions: seq<Action>, a: Action)
    requires Continues(from, actions) && !a.TreeCommit? && !a.SetGrace?
    ensures Continues(from, actions + [a]) && Run(actions + [a]) == Next(Run(actions), a)
  {
    hide Run, Next;
    RunStep(actions, a);
  }

  lemma LocksOfOthers(calls: seq<Call>, call: Call, token: nat, nullifier: Field)
    ensures ChallengeLocked(calls + [call], |calls|, token) <==> ChallengeLocked(calls, |calls|, token)
    ensures NullifierLocked(calls + [call], |calls|, nullifier) <==> NullifierLocked(calls, |calls|, nullifier)
  {
    assert forall j: nat :: j < |calls| ==> (calls + [call])[j] == calls[j];
  }

  /** A statement of the last call, before its sink. */
  lemma CallStep(
    from: seq<Action>, actions: seq<Action>, s: State, calls: seq<Call>, call: Call, newId: nat, call': Call)
    returns (actions': seq<Action>, s': State)
    requires Continues(from, actions) && s == Run(actions) && s.calls == calls + [call]
    requires call.pc != AtSink && Advance(s, |calls|, newId) == call'
    ensures Continues(from, actions') && s' == Run(actions') == s.(calls := calls + [call'])
  {
    hide Advance, Run;
    actions' := actions + [Step(|calls|, newId)];
    s' := Run(actions');
    Take(from, actions, Step(|calls|, newId));
    assert (calls + [call])[|calls| := call'] == calls + [call'];
  }

  /** A call commits. */
  lemma AnyCommit(from: seq<Action>, actions: seq<Action>, s: State, id: nat)
    returns (actions': seq<Action>, e: Success)
    requires Continues(from, actions) && s == Run(actions) && id < |s.calls|
    requires s.calls[id].pc == Ready && s.calls[id].request.token in s.calls[id].writes.challenges
    ensures Continues(from, actions') && Run(actions').db == View(s.db, s.calls[id].writes)
    ensures Run(actions').log == s.log + [e] && Run(actions').holders == s.holders && Run(actions').outside == s.outside
    ensures var call := s.calls[id];
            e == Success(id, call.writes.challenges[call.request.token].serial, call.request, call.policy,
                         call.started, call.user, call.sid)
  {
    hide Run, View;
    Take(from, actions, Commit(id));
    actions' := actions + [Commit(id)];
    e := Run(actions').log[|s.log|];
  }

  /** The last call commits. */
  lemma CallCommit(from: seq<Action>, actions: seq<Action>, s: State, calls: seq<Call>, call: Call)
    returns (actions': seq<Action>, e: Success)
    requires Continues(from, actions) && s == Run(actions) && s.calls == calls + [call]
    requires call.pc == Ready && call.request.token in call.writes.challenges
    ensures Continues(from, actions') && Run(actions').db == View(s.db, call.writes)
    ensures Run(actions').log == s.log + [e] && Run(actions').holders == s.holders && Run(actions').outside == s.outside
    ensures e == Success(|calls|, call.writes.challenges[call.request.token].serial, call.request, call.policy,
                         call.started, call.user, call.sid)
  {
    hide Run, View;
    actions', e := AnyCommit(from, actions, s, |calls|);
  }

  // ---------------------------------------------------------------- what membership requests share

  /** A well-formed membership request that nothing stands in the way of before its own statements. */
  ghost predicate Unhindered(s: State, r: Request) {
    && !r.VerifyKnowledge? && WellFormed(r) && r.claim in s.db.policies
    && RootAccepted(s, r.root) && Usable(s.db.challenges, r, s.clock)
    && !ChallengeLocked(s.calls, |s.calls|, r.token) && !NullifierLocked(s.calls, |s.calls|, r.nullifier)
  }

  /** In the tables' own terms: canonical fields, a policy, a current root or one within the grace, an unconsumed and
    * unexpired challenge of the request's kind and session, and nobody else writing the challenge or the nullifier. */
  lemma UnhinderedIff(s: State, r: Request)
    requires !r.VerifyKnowledge?
    ensures Unhindered(s, r) <==>
            && Tokens.ParseField(r.root).Some? && Tokens.ParseField(r.nullifier).Some? && r.claim in s.db.policies
            && r.root in s.db.roots
            && (s.db.roots[r.root].None? || (s.grace > 0 && s.clock < s.db.roots[r.root].value + s.grace))
            && r.token in s.db.challenges && s.db.challenges[r.token].consumedAt.None?
            && s.clock < s.db.challenges[r.token].expires
            && Answers(r, s.db.challenges[r.token].purpose, s.db.challenges[r.token].session)
            && (forall j: nat :: j < |s.calls| ==>
                  r.token !in s.calls[j].writes.challenges && r.nullifier !in s.calls[j].writes.nullifiers)
  {
    hide Tokens.ParseField;
  }

  lemma SameRoots(s: State, s': State, root: Field)
    requires s'.db.roots == s.db.roots && s'.grace == s.grace && s'.clock == s.clock
    ensures RootAccepted(s, root) <==> RootAccepted(s', root)
  {
  }

  function Submitted(r: Request): Call {
    Call(r, AtPolicy, NO_POLICY, 0, 0, 0, NO_WRITES)
  }

  function Opening(s: State, r: Request): Call
    requires !r.VerifyKnowledge? && r.claim in s.db.policies
  {
    Call(r, AtConsume, s.db.policies[r.claim], s.clock, 0, 0, NO_WRITES)
  }

  /** One statement of phases one and two. */
  lemma MembershipAdvances(s: State, id: nat, call: Call)
    requires id < |s.calls| && s.calls[id] == call
    requires var r := call.request; !r.VerifyKnowledge? && WellFormed(r) && RootAccepted(s, r.root)
    requires Usable(s.db.challenges, call.request, s.clock) && call.request.claim in s.db.policies
    requires call.request.Login? && call.pc == AtVerify ==> call.policy.kind == Recurring && call.policy.allowsLogin
    ensures var policy := s.db.policies[call.request.claim];
            && (call.pc == AtPolicy ==> Advance(s, id, 0) == call.(pc := AtRoot, policy := policy))
            && (call.pc == AtRoot ==> Advance(s, id, 0) == call.(pc := AtPeek))
            && (call.pc == AtPeek ==> Advance(s, id, 0) == call.(pc := AtVerify))
            && (call.pc == AtVerify ==> Advance(s, id, 0) == call.(pc := AtBegin))
            && (call.pc == AtBegin ==> Advance(s, id, 0) == call.(pc := AtConsume, started := s.clock))
  {
    hide WellFormed, RootAccepted, Usable;
  }

  lemma MembershipStep(
    from: seq<Action>, actions: seq<Action>, s: State, calls: seq<Call>, call: Call, call': Call)
    returns (actions': seq<Action>, s': State)
    requires Continues(from, actions) && s == Run(actions) && s.calls == calls + [call]
    requires var r := call.request; !r.VerifyKnowledge? && WellFormed(r) && RootAccepted(s, r.root)
    requires Usable(s.db.challenges, call.request, s.clock) && call.request.claim in s.db.policies
    requires call.request.Login? && call.pc == AtVerify ==> call.policy.kind == Recurring && call.policy.allowsLogin
    requires match call.pc
             case AtPolicy => call' == call.(pc := AtRoot, policy := s.db.policies[call.request.claim])
             case AtRoot => call' == call.(pc := AtPeek)
             case AtPeek => call' == call.(pc := AtVerify)
             case AtVerify => call' == call.(pc := AtBegin)
             case AtBegin => call' == call.(pc := AtConsume, started := s.clock)
             case _ => false
    ensures Continues(from, actions') && s' == Run(actions') == s.(calls := calls + [call'])
    ensures RootAccepted(s', call.request.root) && Usable(s'.db.challenges, call.request, s'.clock)
  {
    hide Next, Run, RootAccepted, WellFormed, Usable, Continues, Advance;
    MembershipAdvances(s, |calls|, call);
    actions', s' := CallStep(from, actions, s, calls, call, 0, call');
    SameRoots(s, s', call.request.root);
  }

  /** Phases one and two. */
  lemma MembershipReads(from: seq<Action>, actions: seq<Action>, s: State, calls: seq<Call>, r: Request)
    returns (actions': seq<Action>, s': State)
    requires Continues(from, actions) && s == Run(actions) && s.calls == calls + [Submitted(r)]
    requires !r.VerifyKnowledge? && WellFormed(r) && r.claim in s.db.policies
    requires r.Login? ==> s.db.policies[r.claim].kind == Recurring && s.db.policies[r.claim].allowsLogin
    requires RootAccepted(s, r.root) && Usable(s.db.challenges, r, s.clock)
    ensures Continues(from, actions') && s' == Run(actions') == s.(calls := calls + [Opening(s, r)])
  {
    hide Next, Run, RootAccepted, WellFormed, Usable, Continues, Advance;
    var call := Opening(s, r).(started := 0);
    actions', s' := MembershipStep(from, actions, s, calls, Submitted(r), call.(pc := AtRoot));
    actions', s' := MembershipStep(from, actions', s', calls, call.(pc := AtRoot), call.(pc := AtPeek));
    actions', s' := MembershipStep(from, actions', s', calls, call.(pc := AtPeek), call.(pc := AtVerify));
    actions', s' := MembershipStep(from, actions', s', calls, call.(pc := AtVerify), call.(pc := AtBegin));
    actions', s' := MembershipStep(from, actions', s', calls, call.(pc := AtBegin), Opening(s, r));
  }

  function Consuming(s: State, call: Call): Writes
    requires call.request.token in s.db.challenges
  {
    var token := call.request.token;
    NO_WRITES.(challenges := map[token := s.db.challenges[token].(consumedAt := Some(call.started))])
  }

  /** The challenge is consumed. */
  lemma MembershipConsumes(from: seq<Action>, actions: seq<Action>, s: State, calls: seq<Call>, call: Call)
    returns (actions': seq<Action>, s': State, call': Call)
    requires Continues(from, actions) && s == Run(actions) && s.calls == calls + [call]
    requires call.pc == AtConsume && call.writes == NO_WRITES && !call.request.VerifyKnowledge?
    requires Usable(s.db.challenges, call.request, call.started) && !ChallengeLocked(calls, |calls|, call.request.token)
    ensures Continues(from, actions') && s' == Run(actions') == s.(calls := calls + [call'])
    ensures call' == call.(writes := Consuming(s, call),
                           pc := if call.request.Login? then AtResolve
                                 else if call.policy.kind == OneShot then AtBurn else AtBind)
  {
    hide Next, Run, ChallengeLocked, Continues;
    LocksOfOthers(calls, call, call.request.token, []);
    call' := call.(writes := Consuming(s, call),
                   pc := if call.request.Login? then AtResolve
                         else if call.policy.kind == OneShot then AtBurn else AtBind);
    actions', s' := CallStep(from, actions, s, calls, call, 0, call');
  }

  lemma TokenThere(s: State, r: Request)
    requires Usable(s.db.challenges, r, s.clock)
    ensures r.token in s.db.challenges
  {
  }

  /** Submission, phases one and two, and the challenge. */
  lemma MembershipOpens(actions: seq<Action>, r: Request) returns (actions': seq<Action>, s': State, call: Call)
    requires Unhindered(Run(actions), r)
    requires var policy := Run(actions).db.policies[r.claim];
             r.Login? ==> policy.kind == Recurring && policy.allowsLogin
    ensures Continues(actions + [Submit(r)], actions')
    ensures s' == Run(actions') == Run(actions).(calls := Run(actions).calls + [call])
    ensures var s := Run(actions);
            && r.token in s.db.challenges
            && call == Opening(s, r).(writes := Consuming(s, Opening(s, r)),
                                      pc := if r.Login? then AtResolve
                                            else if s.db.policies[r.claim].kind == OneShot then AtBurn else AtBind)
  {
    hide Run, Advance, WellFormed, RootAccepted, Usable;
    var s := Run(actions);
    RunStep(actions, Submit(r));
    actions' := actions + [Submit(r)];
    s' := Run(actions');
    SameRoots(s, s', r.root);
    actions', s' := MembershipReads(actions + [Submit(r)], actions', s', s.calls, r);
    TokenThere(s, r);
    actions', s', call := MembershipConsumes(actions + [Submit(r)], actions', s', s.calls, Opening(s, r));
  }

  // ---------------------------------------------------------------- one-shot proofs

  /** A one-shot proof whose nullifier is unburned. */
  ghost predicate CanBurn(s: State, r: Request) {
    && Unhindered(s, r) && r.ProveClaim? && s.db.policies[r.claim].kind == OneShot && r.nullifier !in s.db.nullifiers
  }

  /** Any such proof submitted reaches its sink, everything else left as it was. */
  lemma ClaimReachesSink(actions: seq<Action>, r: Request) returns (actions': seq<Action>, call: Call)
    requires CanBurn(Run(actions), r)
    ensures Continues(actions + [Submit(r)], actions')
    ensures Run(actions') == Run(actions).(calls := Run(actions).calls + [call])
    ensures call.request == r && call.pc == AtSink && call.policy == Run(actions).db.policies[r.claim]
    ensures call.started == Run(actions).clock && r.token in call.writes.challenges
    ensures call.writes.nullifiers == map[r.nullifier := NullifierRow(call.policy.audience, None, Some(call.started))]
  {
    hide Run, WellFormed, RootAccepted, Usable, ChallengeLocked, NullifierLocked;
    var s := Run(actions);
    var s', burning;
    actions', s', burning := MembershipOpens(actions, r);
    LocksOfOthers(s.calls, burning, r.token, r.nullifier);
    var row := NullifierRow(burning.policy.audience, None, Some(burning.started));
    call := burning.(pc := AtSink, writes := burning.writes.(nullifiers := map[r.nullifier := row]));
    actions', s' := CallStep(actions + [Submit(r)], actions', s', s.calls, burning, 0, call);
  }

  /** A proof at its mounted sink grants its claim and commits. */
  lemma SinkAndCommit(from: seq<Action>, actions: seq<Action>, s: State, calls: seq<Call>, call: Call)
    returns (actions': seq<Action>, e: Success)
    requires Continues(from, actions) && s == Run(actions) && s.calls == calls + [call]
    requires call.pc == AtSink && Mounted(s, call) && call.request.token in call.writes.challenges
    ensures Continues(from, actions') && Run(actions').db == View(s.db, call.writes)
    ensures Run(actions').log == s.log + [e]
    ensures e == Success(|calls|, call.writes.challenges[call.request.token].serial, call.request, call.policy,
                         call.started, call.user, call.sid)
    ensures var h := call.request.holder;
            Run(actions').holders == s.holders[h := AddTo(s.holders[h], call.request.claim, call.policy.kind)]
  {
    hide Run, View;
    Take(from, actions, Step(|calls|, 0));
    actions' := actions + [Step(|calls|, 0)];
    assert (calls + [call])[|calls| := call.(pc := Ready)] == calls + [call.(pc := Ready)];
    actions', e := CallCommit(from, actions', Run(actions'), calls, call.(pc := Ready));
  }

  /** ... so it succeeds: the nullifier is burned and the request holds one more allowance. */
  lemma OneShotSucceeds(actions: seq<Action>, r: Request) returns (actions': seq<Action>, e: Success)
    requires CanBurn(Run(actions), r) && r.holder < |Run(actions).holders|
    ensures Continues(actions + [Submit(r)], actions') && Run(actions').log == Run(actions).log + [e]
    ensures e.request == r && e.policy == Run(actions).db.policies[r.claim] && e.id == |Run(actions).calls|
    ensures r.nullifier in Run(actions').db.nullifiers
         && Run(actions').db.nullifiers[r.nullifier] == NullifierRow(e.policy.audience, None, Some(Run(actions).clock))
    ensures Run(actions').holders
         == Run(actions).holders[r.holder := AddTo(Run(actions).holders[r.holder], r.claim, OneShot)]
  {
    hide Run, WellFormed, RootAccepted, Usable, ChallengeLocked, NullifierLocked;
    var call;
    actions', call := ClaimReachesSink(actions, r);
    actions', e := SinkAndCommit(actions + [Submit(r)], actions', Run(actions'), Run(actions).calls, call);
  }

  // ---------------------------------------------------------------- recurring proofs

  /** A recurring proof whose nullifier is unbound and its account known, or bound to that account already. */
  ghost predicate CanBind(s: State, r: Request) {
    && Unhindered(s, r) && r.ProveClaim? && s.db.policies[r.claim].kind == Recurring && r.holder < |s.holders|
    && (var audience, n := s.db.policies[r.claim].audience, r.nullifier;
        if n in s.db.nullifiers then s.db.nullifiers[n].audience == audience && s.db.nullifiers[n].user == Some(r.uid)
        else r.uid in s.db.users)
  }

  /** Any such proof succeeds: the nullifier is the account's, and the session has the claim. */
  lemma RecurringSucceeds(actions: seq<Action>, r: Request) returns (actions': seq<Action>, e: Success)
    requires CanBind(Run(actions), r)
    ensures Continues(actions + [Submit(r)], actions') && Run(actions').log == Run(actions).log + [e] && e.request == r
    ensures r.nullifier in Run(actions').db.nullifiers && Run(actions').db.nullifiers[r.nullifier].user == Some(r.uid)
    ensures (r.sid, r.claim) in Run(actions').db.sessionClaims
    ensures |Run(actions').holders| == |Run(actions).holders| && r.claim in Run(actions').holders[r.holder].recurring
  {
    hide Run, WellFormed, RootAccepted, Usable, ChallengeLocked, NullifierLocked;
    var s := Run(actions);
    var s', call;
    actions', s', call := MembershipOpens(actions, r);
    LocksOfOthers(s.calls, call, r.token, r.nullifier);
    var row := if r.nullifier in s.db.nullifiers then s.db.nullifiers[r.nullifier]
               else NullifierRow(call.policy.audience, Some(r.uid), None);
    var bound := call.(pc := AtStore, writes := call.writes.(nullifiers := map[r.nullifier := row]));
    actions', s' := CallStep(actions + [Submit(r)], actions', s', s.calls, call, 0, bound);
    var stored := bound.(pc := AtSink, writes := bound.writes.(sessionClaims := {(r.sid, r.claim)}));
    actions', s' := CallStep(actions + [Submit(r)], actions', s', s.calls, bound, 0, stored);
    actions', e := SinkAndCommit(actions + [Submit(r)], actions', s', s.calls, stored);
  }

  lemma StoredClaims(db: Db, sid: nat)
    ensures forall name :: name in ClaimsOf(db, Some(sid)) <==> (sid, name) in db.sessionClaims
  {
    forall name | (sid, name) in db.sessionClaims
      ensures name in ClaimsOf(db, Some(sid))
    {
      assert (sid, name).0 == sid && (sid, name).1 == name;
    }
  }

  /** A later request of a session is granted exactly the claims proved for the session, as often as it asks. */
  lemma SessionClaimsAreGranted(actions: seq<Action>, sid: nat, claims: seq<string>)
    ensures var s, s' := Run(actions), Run(actions + [OpenRequest(Some(sid), false)]);
            && |s'.holders| == |s.holders| + 1
            && (ProofsOn(s'.holders[|s.holders|], claims) == (Granted, s'.holders[|s.holders|]) <==>
                  claims == []
                  || ("" !in claims && forall claim :: claim in claims ==> (sid, claim) in s.db.sessionClaims))
  {
    RunStep(actions, OpenRequest(Some(sid), false));
    hide Run, Needed;
    var s := Run(actions);
    var g := Run(actions + [OpenRequest(Some(sid), false)]).holders[|s.holders|];
    assert forall name :: name in g.recurring <==> (sid, name) in s.db.sessionClaims by {
      StoredClaims(s.db, sid);
    }
    ProofsIsExact(g, claims);
    forall name
      ensures Listed(g, claims, name) == 0 <==> name in g.recurring || name !in claims
    {
    }
    if forall claim :: claim in claims ==> claim in g.recurring {
      RecurringNeedNothing(g.recurring, claims);
    }
  }

  /** A request whose claims could not be loaded is refused everything, with that error; an anonymous one has nothing.
    * */
  lemma OtherRequestsHaveNothing(actions: seq<Action>, caller: Option<nat>, claims: seq<string>)
    requires claims != []
    ensures var s, s' := Run(actions), Run(actions + [OpenRequest(caller, true)]);
            |s'.holders| == |s.holders| + 1 && ProofsOn(s'.holders[|s.holders|], claims).0 == LoadError
    ensures var s, s' := Run(actions), Run(actions + [OpenRequest(None, false)]);
            |s'.holders| == |s.holders| + 1 && ProofsOn(s'.holders[|s.holders|], claims).0 == InvalidProof
  {
    RunStep(actions, OpenRequest(caller, true));
    RunStep(actions, OpenRequest(None, false));
    hide Run, Needed;
    var s := Run(actions);
    var g := Run(actions + [OpenRequest(None, false)]).holders[|s.holders|];
    ProofsIsExact(g, claims);
    assert claims[0] in claims && Listed(g, claims, claims[0]) > g.oneShot[claims[0]];
  }

  // ---------------------------------------------------------------- first logins

  /** A login whose nullifier and derived email nobody has, with fresh ids for its account and its session. */
  ghost predicate CanLogIn(s: State, r: Request, uid: nat, sid: nat) {
    && Unhindered(s, r) && r.Login?
    && s.db.policies[r.claim].kind == Recurring && s.db.policies[r.claim].allowsLogin
    && r.nullifier !in s.db.nullifiers && !EmailTaken(s.db.users, PseudonymEmail(r.nullifier))
    && !EmailLocked(s.calls, |s.calls|, PseudonymEmail(r.nullifier))
    && !UserIdUsed(s, uid) && !SessionIdUsed(s, sid)
  }

  /** In the tables' own terms. */
  lemma CanLogInIff(s: State, r: Request, uid: nat, sid: nat)
    ensures CanLogIn(s, r, uid, sid) <==>
            && Unhindered(s, r) && r.Login?
            && s.db.policies[r.claim].kind == Recurring && s.db.policies[r.claim].allowsLogin
            && r.nullifier !in s.db.nullifiers
            && (forall u :: u in s.db.users && SameButCase(s.db.users[u].email, PseudonymEmail(r.nullifier)) ==>
                  s.db.users[u].deleted)
            && (forall j: nat, u: nat | j < |s.calls| && u in s.calls[j].writes.users ::
                  SameButCase(s.calls[j].writes.users[u].email, PseudonymEmail(r.nullifier)) ==>
                    s.calls[j].writes.users[u].deleted)
            && uid !in s.db.users && (forall j: nat :: j < |s.calls| ==> uid !in s.calls[j].writes.users)
            && sid !in s.outside && (forall j: nat :: j < |s.calls| ==> sid !in s.calls[j].writes.sessions)
            && (forall a: nat :: a < |s.log| && s.log[a].request.Login? ==> s.log[a].sid != sid)
  {
    hide Unhindered, PseudonymEmail, Lower, SameButCase;
    forall a: string, b: string
      ensures Lower(a) == Lower(b) <==> SameButCase(a, b)
    {
      LowerIffSameButCase(a, b);
    }
  }

  lemma IdsOfOthers(s: State, s': State, calls: seq<Call>, call: Call, email: string, uid: nat, sid: nat)
    requires s.calls == calls && s'.calls == calls + [call] && s'.db.users == s.db.users
    requires s'.log == s.log && s'.outside == s.outside
    ensures EmailLocked(s'.calls, |calls|, email) <==> EmailLocked(calls, |calls|, email)
    ensures call.writes.users == map[] ==> (UserIdUsed(s', uid) <==> UserIdUsed(s, uid))
    ensures call.writes.sessions == map[] ==> (SessionIdUsed(s', sid) <==> SessionIdUsed(s, sid))
  {
    hide EmailTaken;
    assert forall j: nat :: j < |calls| ==> s'.calls[j] == calls[j];
  }

  lemma NullifierFree(s: State, r: Request)
    requires Unhindered(s, r)
    ensures !NullifierLocked(s.calls, |s.calls|, r.nullifier) && r.claim in s.db.policies
  {
    hide NullifierLocked;
  }

  function WithAccount(call: Call, uid: nat): Call
    requires call.request.Login?
  {
    var email := PseudonymEmail(call.request.nullifier);
    call.(pc := AtCreateNullifier, user := uid, writes := call.writes.(users := map[uid := User(email, false)]))
  }

  /** The nullifier resolves to nothing, and the account is created. */
  lemma LoginCreatesAccount(
    from: seq<Action>, actions: seq<Action>, s: State, s': State, r: Request, uid: nat, sid: nat, call: Call)
    returns (actions': seq<Action>, s'': State)
    requires Continues(from, actions) && s' == Run(actions) == s.(calls := s.calls + [call]) && CanLogIn(s, r, uid, sid)
    requires call.request == r && call.pc == AtResolve && call.writes.nullifiers == map[] && call.writes.users == map[]
    ensures Continues(from, actions') && s'' == Run(actions') == s.(calls := s.calls + [WithAccount(call, uid)])
  {
    hide Run, Next, Unhindered, EmailTaken, EmailLocked, UserIdUsed, SessionIdUsed, PseudonymEmail, Continues;
    var creating := call.(pc := AtCreateUser);
    assert View(s.db, call.writes).users == s.db.users && View(s.db, call.writes).nullifiers == s.db.nullifiers;
    actions', s'' := CallStep(from, actions, s', s.calls, call, 0, creating);
    IdsOfOthers(s, s'', s.calls, creating, PseudonymEmail(r.nullifier), uid, sid);
    actions', s'' := CallStep(from, actions', s'', s.calls, creating, uid, WithAccount(call, uid));
  }

  function WithNullifier(call: Call): Call
    requires call.request.Login?
  {
    var row := NullifierRow(call.policy.audience, Some(call.user), None);
    call.(pc := AtSession, writes := call.writes.(nullifiers := map[call.request.nullifier := row]))
  }

  /** The nullifier is created for it. */
  lemma LoginCreatesNullifier(from: seq<Action>, actions: seq<Action>, s: State, calls: seq<Call>, call: Call)
    returns (actions': seq<Action>, s': State)
    requires Continues(from, actions) && s == Run(actions) && s.calls == calls + [call]
    requires call.request.Login? && call.pc == AtCreateNullifier && call.writes.nullifiers == map[]
    requires call.request.nullifier !in s.db.nullifiers && !NullifierLocked(calls, |calls|, call.request.nullifier)
    ensures Continues(from, actions') && s' == Run(actions') == s.(calls := calls + [WithNullifier(call)])
  {
    hide Run, Next, NullifierLocked, PseudonymEmail, Continues;
    LocksOfOthers(calls, call, 0, call.request.nullifier);
    assert View(s.db, call.writes).nullifiers == s.db.nullifiers;
    actions', s' := CallStep(from, actions, s, calls, call, 0, WithNullifier(call));
  }

  /** Any such login succeeds: its account is the fresh one, under the derived email, and so is its session. */
  lemma FirstLoginSucceeds(actions: seq<Action>, r: Request, uid: nat, sid: nat)
    returns (actions': seq<Action>, e: Success)
    requires CanLogIn(Run(actions), r, uid, sid)
    ensures Continues(actions + [Submit(r)], actions') && Run(actions').log == Run(actions).log + [e]
    ensures e.request == r && e.user == uid && e.sid == sid
    ensures uid in Run(actions').db.users && Run(actions').db.users[uid] == User(PseudonymEmail(r.nullifier), false)
    ensures sid in Run(actions').db.sessions && Run(actions').db.sessions[sid] == uid
    ensures (sid, r.claim) in Run(actions').db.sessionClaims
  {
    hide Run, Unhindered, EmailTaken, EmailLocked, UserIdUsed, SessionIdUsed, PseudonymEmail;
    var s := Run(actions);
    NullifierFree(s, r);
    var s', call;
    actions', s', call := MembershipOpens(actions, r);
    actions', s' := LoginCreatesAccount(actions + [Submit(r)], actions', s, s', r, uid, sid, call);
    actions', s' := LoginCreatesNullifier(actions + [Submit(r)], actions', s', s.calls, WithAccount(call, uid));
    call := WithNullifier(WithAccount(call, uid));
    IdsOfOthers(s, s', s.calls, call, "", uid, sid);
    var ready := call.(pc := Ready, sid := sid, writes := call.writes.(
      sessions := LoginSessions(r.prior, sid, uid), sessionClaims := {(sid, r.claim)}));
    actions', s' := CallStep(actions + [Submit(r)], actions', s', s.calls, call, sid, ready);
    actions', e := CallCommit(actions + [Submit(r)], actions', s', s.calls, ready);
  }

  // ---------------------------------------------------------------- later and losing logins

  /** The nullifier has its account: committed, live, under the derived email. */
  ghost predicate HasAccount(db: Db, n: Field, audience: Field, u: nat) {
    && n in db.nullifiers && db.nullifiers[n] == NullifierRow(audience, Some(u), None)
    && u in db.users && !db.users[u].deleted && db.users[u].email == PseudonymEmail(n)
  }

  lemma AccountResolves(db: Db, call: Call, u: nat)
    requires call.request.Login? && HasAccount(db, call.request.nullifier, call.policy.audience, u)
    requires call.writes.nullifiers == map[] && call.writes.users == map[]
    ensures Resolve(View(db, call.writes), call.request.nullifier, call.policy.audience) == Some(u)
  {
    hide PseudonymEmail;
    assert View(db, call.writes).nullifiers == db.nullifiers && View(db, call.writes).users == db.users;
  }

  /** A login that has yet to find its account has written none of its own while one is committed. */
  lemma SeekingWritesNothing(db: Db, call: Call, u: nat)
    requires CallOk(db, call) && call.pc in {AtResolve, AtCreateUser, AtReresolve}
    requires call.request.Login? && HasAccount(db, call.request.nullifier, call.policy.audience, u)
    ensures call.writes.nullifiers == map[] && call.writes.users == map[]
    ensures call.request.token in call.writes.challenges
  {
    hide PseudonymEmail, Usable;
    assert Lower(PseudonymEmail(call.request.nullifier)) == Lower(db.users[u].email);
    hide Lower;
  }

  lemma AnyStep(from: seq<Action>, actions: seq<Action>, s: State, id: nat, newId: nat, call': Call)
    returns (actions': seq<Action>, s': State)
    requires Continues(from, actions) && s == Run(actions) && id < |s.calls|
    requires s.calls[id].pc != AtSink && Advance(s, id, newId) == call'
    ensures Continues(from, actions') && s' == Run(actions') == s.(calls := s.calls[id := call'])
  {
    hide Advance, Run;
    actions' := actions + [Step(id, newId)];
    s' := Run(actions');
    Take(from, actions, Step(id, newId));
  }

  lemma SidOfOthers(s: State, id: nat, call: Call, sid: nat)
    requires id < |s.calls| && !SessionIdUsed(s, sid) && call.writes.sessions == s.calls[id].writes.sessions
    ensures !SessionIdUsed(s.(calls := s.calls[id := call]), sid)
  {
  }

  /** A login that has found its account issues a session for it and commits. */
  lemma FoundLoginCommits(from: seq<Action>, actions: seq<Action>, s: State, id: nat, sid: nat)
    returns (actions': seq<Action>, e: Success)
    requires Continues(from, actions) && s == Run(actions) && id < |s.calls|
    requires s.calls[id].request.Login? && s.calls[id].pc == AtSession
    requires s.calls[id].request.token in s.calls[id].writes.challenges && !SessionIdUsed(s, sid)
    ensures Continues(from, actions') && Run(actions').log == s.log + [e]
    ensures e.id == id && e.request == s.calls[id].request && e.user == s.calls[id].user && e.sid == sid
    ensures sid in Run(actions').db.sessions && Run(actions').db.sessions[sid] == e.user
    ensures (sid, e.request.claim) in Run(actions').db.sessionClaims
  {
    hide Run, SessionIdUsed;
    var call := s.calls[id];
    var ready := call.(pc := Ready, sid := sid, writes := call.writes.(
      sessions := LoginSessions(call.request.prior, sid, call.user), sessionClaims := {(sid, call.request.claim)}));
    var s';
    actions', s' := AnyStep(from, actions, s, id, sid, ready);
    actions', e := AnyCommit(from, actions', s', id);
  }

  lemma AccountTakesEmail(db: Db, call: Call, u: nat)
    requires call.request.Login? && HasAccount(db, call.request.nullifier, call.policy.audience, u)
    requires call.writes.users == map[]
    ensures EmailTaken(View(db, call.writes).users, PseudonymEmail(call.request.nullifier))
  {
    hide PseudonymEmail, Lower;
    assert View(db, call.writes).users == db.users;
  }

  /** The account is found, at once or after the insert was refused for it. */
  lemma SeekingFinds(from: seq<Action>, actions: seq<Action>, s: State, id: nat, u: nat, newId: nat)
    returns (actions': seq<Action>, s': State)
    requires Continues(from, actions) && s == Run(actions) && id < |s.calls|
    requires s.calls[id].request.Login? && s.calls[id].pc in {AtResolve, AtCreateUser, AtReresolve}
    requires HasAccount(s.db, s.calls[id].request.nullifier, s.calls[id].policy.audience, u)
    requires s.calls[id].pc == AtCreateUser ==>
               !UserIdUsed(s, newId) && !EmailLocked(s.calls, id, PseudonymEmail(s.calls[id].request.nullifier))
    ensures Continues(from, actions')
    ensures s' == Run(actions') == s.(calls := s.calls[id := s.calls[id].(pc := AtSession, user := u)])
    ensures s.calls[id].request.token in s.calls[id].writes.challenges
  {
    hide Run, Next, Continues, PseudonymEmail, UserIdUsed, EmailLocked, CallOk, View, Resolve;
    var call := s.calls[id];
    RunKeepsInvariant(actions);
    CallOfInvariant(s, id);
    SeekingWritesNothing(s.db, call, u);
    AccountResolves(s.db, call, u);
    actions', s' := actions, s;
    if call.pc == AtCreateUser {
      assert EmailTaken(View(s.db, call.writes).users, PseudonymEmail(call.request.nullifier)) by {
        AccountTakesEmail(s.db, call, u);
      }
      actions', s' := AnyStep(from, actions, s, id, newId, call.(pc := AtReresolve));
    }
    actions', s' := AnyStep(from, actions', s', id, 0, call.(pc := AtSession, user := u));
  }

  /** A login overtaken by another first login of its nullifier succeeds with the account that one committed, whether it
    * has yet to look, has looked too early, or has had its own insert refused. */
  lemma OvertakenLoginSucceeds(actions: seq<Action>, id: nat, u: nat, newId: nat, sid: nat)
    returns (actions': seq<Action>, e: Success)
    requires var s := Run(actions);
             && id < |s.calls| && s.calls[id].request.Login? && s.calls[id].pc in {AtResolve, AtCreateUser, AtReresolve}
             && HasAccount(s.db, s.calls[id].request.nullifier, s.calls[id].policy.audience, u)
             && !UserIdUsed(s, newId) && !SessionIdUsed(s, sid)
             && !EmailLocked(s.calls, id, PseudonymEmail(s.calls[id].request.nullifier))
    ensures Run(actions').log == Run(actions).log + [e]
    ensures e.id == id && e.request == Run(actions).calls[id].request && e.user == u && e.sid == sid
    ensures sid in Run(actions').db.sessions && Run(actions').db.sessions[sid] == u
    ensures (sid, e.request.claim) in Run(actions').db.sessionClaims
  {
    hide Run, PseudonymEmail, UserIdUsed, SessionIdUsed, EmailLocked, HasAccount;
    var s', s := Run(actions), Run(actions);
    actions', s' := SeekingFinds(actions, actions, s, id, u, newId);
    SidOfOthers(s, id, s.calls[id].(pc := AtSession, user := u), sid);
    actions', e := FoundLoginCommits(actions, actions', s', id, sid);
  }

  /** A later login of a nullifier that has its account succeeds with that account. */
  lemma LaterLoginSucceeds(actions: seq<Action>, r: Request, u: nat, sid: nat)
    returns (actions': seq<Action>, e: Success)
    requires var s := Run(actions);
             && Unhindered(s, r) && r.Login? && !SessionIdUsed(s, sid)
             && s.db.policies[r.claim].kind == Recurring && s.db.policies[r.claim].allowsLogin
             && HasAccount(s.db, r.nullifier, s.db.policies[r.claim].audience, u)
    ensures Continues(actions + [Submit(r)], actions') && Run(actions').log == Run(actions).log + [e]
    ensures e.request == r && e.user == u && e.sid == sid
    ensures sid in Run(actions').db.sessions && Run(actions').db.sessions[sid] == u
    ensures (sid, r.claim) in Run(actions').db.sessionClaims
  {
    hide Run, Unhindered, PseudonymEmail, UserIdUsed, SessionIdUsed, EmailLocked, HasAccount;
    var s := Run(actions);
    NullifierFree(s, r);
    var s', call;
    actions', s', call := MembershipOpens(actions, r);
    IdsOfOthers(s, s', s.calls, call, "", 0, sid);
    actions', s' := SeekingFinds(actions + [Submit(r)], actions', s', |s.calls|, u, 0);
    var found := call.(pc := AtSession, user := u);
    assert (s.calls + [call])[|s.calls| := found] == s.calls + [found];
    IdsOfOthers(s, s', s.calls, found, "", 0, sid);
    actions', e := FoundLoginCommits(actions + [Submit(r)], actions', s', |s.calls|, sid);
  }

  // ---------------------------------------------------------------- step-ups

  ghost predicate CanStepUp(s: State, r: Request) {
    && r.VerifyKnowledge? && Usable(s.db.challenges, r, s.clock) && !ChallengeLocked(s.calls, |s.calls|, r.token)
    && r.sid in s.db.sessions && s.db.sessions[r.sid] == r.uid
  }

  /** In the tables' own terms. */
  lemma CanStepUpIff(s: State, r: Request)
    ensures CanStepUp(s, r) <==>
            && r.VerifyKnowledge? && r.sid in s.db.sessions && s.db.sessions[r.sid] == r.uid
            && r.token in s.db.challenges && s.db.challenges[r.token].consumedAt.None?
            && s.clock < s.db.challenges[r.token].expires
            && Answers(r, s.db.challenges[r.token].purpose, s.db.challenges[r.token].session)
            && (forall j: nat :: j < |s.calls| ==> r.token !in s.calls[j].writes.challenges)
  {
  }

  lemma StepUpReads(from: seq<Action>, actions: seq<Action>, s: State, calls: seq<Call>, r: Request)
    returns (actions': seq<Action>, s': State)
    requires Continues(from, actions) && s == Run(actions) && s.calls == calls + [Submitted(r)]
    requires r.VerifyKnowledge? && Usable(s.db.challenges, r, s.clock)
    ensures Continues(from, actions')
    ensures s' == Run(actions') == s.(calls := calls + [Submitted(r).(pc := AtConsume, started := s.clock)])
  {
    hide Next, Run, Usable, Continues;
    var call := Submitted(r);
    actions', s' := CallStep(from, actions, s, calls, call, 0, call.(pc := AtPeek));
    actions', s' := CallStep(from, actions', s', calls, call.(pc := AtPeek), 0, call.(pc := AtVerify));
    actions', s' := CallStep(from, actions', s', calls, call.(pc := AtVerify), 0, call.(pc := AtBegin));
    actions', s' := CallStep(
      from, actions', s', calls, call.(pc := AtBegin), 0, call.(pc := AtConsume, started := s.clock));
  }

  lemma StepUpWrites(from: seq<Action>, actions: seq<Action>, s: State, calls: seq<Call>, call: Call)
    returns (actions': seq<Action>, s': State, w: Writes)
    requires Continues(from, actions) && s == Run(actions) && s.calls == calls + [call]
    requires call.pc == AtConsume && call.writes == NO_WRITES && call.request.VerifyKnowledge?
    requires Usable(s.db.challenges, call.request, call.started)
    requires !ChallengeLocked(s.calls, |calls|, call.request.token)
    requires call.request.sid in s.db.sessions && s.db.sessions[call.request.sid] == call.request.uid
    ensures Continues(from, actions') && call.request.token in w.challenges
    ensures s' == Run(actions') == s.(calls := calls + [call.(pc := Ready, writes := w)])
  {
    hide Next, Run, Continues;
    w := Consuming(s, call);
    actions', s' := CallStep(from, actions, s, calls, call, 0, call.(pc := AtMfa, writes := w));
    actions', s' := CallStep(
      from, actions', s', calls, call.(pc := AtMfa, writes := w), 0, call.(pc := Ready, writes := w));
  }

  /** A step-up of any live session by its account, with a challenge it can use, succeeds. */
  lemma StepUpSucceeds(actions: seq<Action>, r: Request) returns (actions': seq<Action>, e: Success)
    requires CanStepUp(Run(actions), r)
    ensures Continues(actions + [Submit(r)], actions') && Run(actions').log == Run(actions).log + [e] && e.request == r
    ensures Run(actions').outside == Run(actions).outside
  {
    hide Run, Advance, Usable, View;
    var s := Run(actions);
    RunStep(actions, Submit(r));
    actions' := actions + [Submit(r)];
    var s' := Run(actions');
    actions', s' := StepUpReads(actions + [Submit(r)], actions', s', s.calls, r);
    var call := Submitted(r).(pc := AtConsume, started := s.clock);
    LocksOfOthers(s.calls, call, r.token, []);
    var w;
    actions', s', w := StepUpWrites(actions + [Submit(r)], actions', s', s.calls, call);
    actions', e := CallCommit(actions + [Submit(r)], actions', s', s.calls, call.(pc := Ready, writes := w));
  }

  /** In particular a session the application opened itself, for any live account, can be stepped up. */
  lemma OutsideSessionStepsUp(actions: seq<Action>, sid: nat, uid: nat, token: nat)
    returns (actions': seq<Action>, e: Success)
    requires var s := Run(actions);
             && uid in s.db.users && !s.db.users[uid].deleted && !SessionIdUsed(s, sid)
             && token !in s.db.challenges && forall j: nat :: j < |s.calls| ==> s.calls[j].writes.challenges == map[]
    ensures Run(actions').log == Run(actions).log + [e] && e.request == VerifyKnowledge(token, sid, uid)
    ensures sid in Run(actions').outside
  {
    hide Run, SessionIdUsed, View;
    var s := Run(actions);
    var r := VerifyKnowledge(token, sid, uid);
    RunStep(actions, OpenSession(sid, uid));
    RunStep(actions + [OpenSession(sid, uid)], IssueChallenge(token, Some(sid), ForKnowledge));
    actions' := actions + [OpenSession(sid, uid)] + [IssueChallenge(token, Some(sid), ForKnowledge)];
    assert Run(actions').calls == s.calls;
    assert Usable(Run(actions').db.challenges, r, s.clock);
    actions', e := StepUpSucceeds(actions', r);
  }
}
