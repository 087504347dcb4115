/** What every interleaving of the protocol's requests keeps. */
module ProtocolSafety {
  import opened Hashing
  import opened ClaimHolder
  import opened Encoding
  import opened Protocol

  // ---------------------------------------------------------------- the invariant of one call

  /** The call's own challenge row: still as committed, except that the call has marked it consumed. */
  ghost predicate HoldsChallenge(db: Db, call: Call) {
    var token := call.request.token;
    && Usable(db.challenges, call.request, call.started)
    && call.writes.challenges == map[token := db.challenges[token].(consumedAt := Some(call.started))]
  }

  /** An account row the call has inserted for its nullifier, under an id and an email nobody else has. */
  ghost predicate InsertedUser(db: Db, call: Call)
    requires call.request.Login?
  {
    var email := PseudonymEmail(call.request.nullifier);
    && call.user !in db.users && !EmailTaken(db.users, email)
    && call.writes.users == map[call.user := User(email, false)]
  }

  function LoginRow(call: Call): NullifierRow {
    NullifierRow(call.policy.audience, Some(call.user), None)
  }

  /** The login's account is the one its nullifier row names, under the derived email: both committed, or both its own.
    * */
  ghost predicate Resolved(db: Db, call: Call)
    requires call.request.Login?
  {
    var n := call.request.nullifier;
    || (&& call.writes.users == map[] && call.writes.nullifiers == map[]
        && n in db.nullifiers && db.nullifiers[n] == LoginRow(call)
        && call.user in db.users && db.users[call.user].email == PseudonymEmail(n))
    || (InsertedUser(db, call) && call.writes.nullifiers == map[n := LoginRow(call)] && n !in db.nullifiers)
  }

  function BoundRow(call: Call): NullifierRow
    requires call.request.ProveClaim?
  {
    if call.policy.kind == OneShot then NullifierRow(call.policy.audience, None, Some(call.started))
    else NullifierRow(call.policy.audience, Some(call.request.uid), None)
  }

  ghost predicate HoldsNullifier(db: Db, call: Call)
    requires call.request.ProveClaim?
  {
    var n := call.request.nullifier;
    && call.writes.nullifiers == map[n := BoundRow(call)]
    && (n in db.nullifiers ==> call.policy.kind == Recurring && db.nullifiers[n] == BoundRow(call))
    && (call.policy.kind == Recurring ==> call.request.uid in db.users)
  }

  ghost predicate NoRows(call: Call) {
    call.writes.nullifiers == map[] && call.writes.users == map[]
  }

  ghost predicate IsLogin(call: Call) {
    call.request.Login? && call.policy.kind == Recurring && call.policy.allowsLogin
  }

  ghost predicate CallOk(db: Db, call: Call) {
    match call.pc
    case AtPolicy | AtRoot | AtPeek | AtVerify | Closed => call.writes == NO_WRITES
    case AtBegin | AtConsume => call.writes == NO_WRITES && (call.request.Login? ==> IsLogin(call))
    case AtMfa => HoldsChallenge(db, call) && call.request.VerifyKnowledge? && NoRows(call)
    case AtResolve | AtCreateUser => HoldsChallenge(db, call) && IsLogin(call) && NoRows(call)
    case AtCreateNullifier =>
      HoldsChallenge(db, call) && IsLogin(call) && InsertedUser(db, call) && call.writes.nullifiers == map[]
    case AtReresolve =>
      && HoldsChallenge(db, call) && IsLogin(call)
      && (NoRows(call) || (InsertedUser(db, call) && call.writes.nullifiers == map[]))
    case AtSession => HoldsChallenge(db, call) && IsLogin(call) && Resolved(db, call)
    case AtBind | AtBurn => HoldsChallenge(db, call) && call.request.ProveClaim? && NoRows(call)
                            && (call.pc == AtBurn <==> call.policy.kind == OneShot)
    case AtStore | AtSink =>
      HoldsChallenge(db, call) && call.request.ProveClaim? && HoldsNullifier(db, call) && call.writes.users == map[]
    case Ready =>
      && HoldsChallenge(db, call)
      && (match call.request
          case VerifyKnowledge(_, _, _) => NoRows(call)
          case Login(_, _, _, _, _) => IsLogin(call) && Resolved(db, call)
          case ProveClaim(_, _, _, _, _, _, _) => HoldsNullifier(db, call) && call.writes.users == map[])
  }

  /** Open transactions have written disjoint rows and unique keys. */
  ghost predicate Apart(a: Writes, b: Writes) {
    && (forall t :: t in a.challenges ==> t !in b.challenges)
    && (forall n :: n in a.nullifiers ==> n !in b.nullifiers)
    && (forall u :: u in a.users ==> u !in b.users && !EmailTaken(b.users, a.users[u].email))
  }

  // ---------------------------------------------------------------- the invariant of the tables

  /** Rows are as issued, except that some are consumed. */
  ghost predicate AsIssued(challenges: map<nat, Challenge>, issued: seq<Challenge>) {
    && (forall t :: t in challenges ==>
          challenges[t].serial < |issued| && challenges[t].(consumedAt := None) == issued[challenges[t].serial])
    && (forall t, t' | t in challenges && t' in challenges :: challenges[t].serial == challenges[t'].serial ==> t == t')
    && (forall k :: 0 <= k < |issued| ==> issued[k].consumedAt.None?)
  }

  ghost predicate Backs(log: seq<Success>, serial: nat) {
    exists a :: 0 <= a < |log| && log[a].serial == serial
  }

  ghost predicate ConsumedIffBacks(challenges: map<nat, Challenge>, log: seq<Success>) {
    forall t :: t in challenges ==> (challenges[t].consumedAt.Some? <==> Backs(log, challenges[t].serial))
  }

  /** The success used a challenge of its own purpose and session, before it expired. */
  ghost predicate Earned(row: Challenge, e: Success) {
    row.purpose == PurposeOf(e.request) && row.session == SessionOf(e.request) && e.started < row.expires
  }

  ghost predicate AllEarned(issued: seq<Challenge>, log: seq<Success>) {
    && (forall a :: 0 <= a < |log| ==> log[a].serial < |issued| && Earned(issued[log[a].serial], log[a]))
    && (forall a, b :: 0 <= a < b < |log| ==> log[a].serial != log[b].serial)
  }

  ghost predicate ChallengesOk(s: State) {
    AsIssued(s.db.challenges, s.issued) && ConsumedIffBacks(s.db.challenges, s.log) && AllEarned(s.issued, s.log)
  }

  ghost predicate UsersOk(db: Db) {
    forall u, v | u in db.users && v in db.users ::
      !db.users[u].deleted && !db.users[v].deleted && Lower(db.users[u].email) == Lower(db.users[v].email) ==> u == v
  }

  ghost predicate NullifiersOk(db: Db) {
    forall n :: n in db.nullifiers ==>
      && (db.nullifiers[n].user.Some? <==> db.nullifiers[n].consumedAt.None?)
      && (db.nullifiers[n].user.Some? ==> db.nullifiers[n].user.value in db.users)
  }

  /** What a success has left in the tables for good. */
  ghost predicate Recorded(db: Db, e: Success) {
    match e.request
    case VerifyKnowledge(_, _, _) => true
    case Login(_, _, _, n, _) =>
      && n in db.nullifiers && db.nullifiers[n] == NullifierRow(e.policy.audience, Some(e.user), None)
      && e.user in db.users && db.users[e.user].email == PseudonymEmail(n)
      && e.policy.kind == Recurring && e.policy.allowsLogin
    case ProveClaim(_, _, _, n, _, uid, _) =>
      && n in db.nullifiers
      && db.nullifiers[n] == if e.policy.kind == OneShot then NullifierRow(e.policy.audience, None, Some(e.started))
                             else NullifierRow(e.policy.audience, Some(uid), None)
  }

  ghost predicate Burn(e: Success) {
    e.request.ProveClaim? && e.policy.kind == OneShot
  }

  ghost predicate LoggedIn(log: seq<Success>, u: nat) {
    exists a :: 0 <= a < |log| && log[a].request.Login? && log[a].user == u
  }

  ghost predicate LogOk(s: State) {
    && (forall a :: 0 <= a < |s.log| ==> Recorded(s.db, s.log[a]))
    && (forall a, b :: 0 <= a < b < |s.log| && Burn(s.log[a]) && Burn(s.log[b]) ==>
          s.log[a].request.nullifier != s.log[b].request.nullifier)
    && (forall u :: u in s.db.users ==> u in s.registered || LoggedIn(s.log, u))
  }

  ghost predicate CallsOk(s: State) {
    && (forall i :: 0 <= i < |s.calls| ==> CallOk(s.db, s.calls[i]))
    && (forall i, j :: 0 <= i < |s.calls| && 0 <= j < |s.calls| && i != j ==>
          Apart(s.calls[i].writes, s.calls[j].writes))
  }

  ghost predicate Invariant(s: State) {
    ChallengesOk(s) && UsersOk(s.db) && NullifiersOk(s.db) && LogOk(s) && CallsOk(s)
  }

  // ---------------------------------------------------------------- statements keep it

  ghost predicate ApartFromOthers(s: State, id: nat, w: Writes) {
    forall j: nat :: j < |s.calls| && j != id ==> Apart(w, s.calls[j].writes) && Apart(s.calls[j].writes, w)
  }

  /** The call is in order and may take its place among the others. */
  ghost predicate Fits(s: State, id: nat, call: Call) {
    CallOk(s.db, call) && ApartFromOthers(s, id, call.writes)
  }

  lemma SetCallKeepsCallsOk(s: State, id: nat, call: Call)
    requires CallsOk(s) && id < |s.calls| && Fits(s, id, call)
    ensures CallsOk(SetCall(s, id, call))
  {
    hide CallOk, Apart;
  }

  lemma NoWritesApart(s: State, id: nat)
    ensures ApartFromOthers(s, id, NO_WRITES)
  {
    forall j: nat | j < |s.calls| && j != id
      ensures Apart(NO_WRITES, s.calls[j].writes) && Apart(s.calls[j].writes, NO_WRITES)
    {
    }
  }

  lemma OwnWritesApart(s: State, id: nat)
    requires CallsOk(s) && id < |s.calls|
    ensures ApartFromOthers(s, id, s.calls[id].writes)
  {
    hide CallOk, Apart;
  }

  lemma CallIsOk(s: State, id: nat)
    requires CallsOk(s) && id < |s.calls|
    ensures CallOk(s.db, s.calls[id])
  {
    hide CallOk, Apart;
  }

  /** Session rows are outside the exclusion. */
  lemma SameRowsApart(s: State, id: nat, w: Writes, w': Writes)
    requires ApartFromOthers(s, id, w)
    requires w.challenges == w'.challenges && w.nullifiers == w'.nullifiers && w.users == w'.users
    ensures ApartFromOthers(s, id, w')
  {
    hide EmailTaken;
  }

  lemma ConsumeFits(s: State, id: nat)
    requires CallsOk(s) && id < |s.calls| && s.calls[id].pc == AtConsume
    ensures Fits(s, id, Consume(s, id, s.calls[id]))
  {
    var call := s.calls[id];
    var call' := Consume(s, id, call);
    assert CallOk(s.db, call);
    if ChallengeLocked(s.calls, id, call.request.token) {
      OwnWritesApart(s, id);
    } else {
      NoWritesApart(s, id);
      forall j: nat | j < |s.calls| && j != id
        ensures Apart(call'.writes, s.calls[j].writes) && Apart(s.calls[j].writes, call'.writes)
      {
        assert Apart(NO_WRITES, s.calls[j].writes) && Apart(s.calls[j].writes, NO_WRITES);
        assert call.request.token !in s.calls[j].writes.challenges;
      }
    }
  }

  lemma WritingNullifierApart(s: State, id: nat, w: Writes, n: Field, row: NullifierRow)
    requires ApartFromOthers(s, id, w) && !NullifierLocked(s.calls, id, n)
    ensures ApartFromOthers(s, id, w.(nullifiers := map[n := row]))
  {
    hide EmailTaken;
    forall j: nat | j < |s.calls| && j != id
      ensures n !in s.calls[j].writes.nullifiers
    {
    }
  }

  /** The rows a call has written, whatever step it is at: well formed, and new where they are not as committed. */
  ghost predicate RowsOk(db: Db, w: Writes) {
    && (forall n :: n in w.nullifiers ==>
          && (w.nullifiers[n].user.Some? <==> w.nullifiers[n].consumedAt.None?)
          && (w.nullifiers[n].user.Some? ==>
                w.nullifiers[n].user.value in db.users || w.nullifiers[n].user.value in w.users)
          && (n in db.nullifiers ==> db.nullifiers[n] == w.nullifiers[n]))
    && (forall u :: u in w.users ==> u !in db.users && !w.users[u].deleted && !EmailTaken(db.users, w.users[u].email))
    && (forall u, v :: u in w.users && v in w.users ==> u == v)
  }

  lemma CallRowsOk(db: Db, call: Call)
    requires CallOk(db, call)
    ensures RowsOk(db, call.writes)
  {
    hide HoldsChallenge, EmailTaken, PseudonymEmail;
  }

  lemma PendingUsersLive(s: State, j: nat)
    requires CallsOk(s) && j < |s.calls|
    ensures forall u :: u in s.calls[j].writes.users ==> !s.calls[j].writes.users[u].deleted
  {
    assert CallOk(s.db, s.calls[j]);
    CallRowsOk(s.db, s.calls[j]);
    hide CallOk, EmailTaken;
  }

  lemma WritingUserApart(s: State, id: nat, w: Writes, uid: nat, email: string)
    requires CallsOk(s) && ApartFromOthers(s, id, w) && !EmailLocked(s.calls, id, email) && !UserIdUsed(s, uid)
    ensures ApartFromOthers(s, id, w.(users := map[uid := User(email, false)]))
  {
    var w' := w.(users := map[uid := User(email, false)]);
    forall j: nat | j < |s.calls| && j != id
      ensures Apart(w', s.calls[j].writes) && Apart(s.calls[j].writes, w')
    {
      var other := s.calls[j].writes;
      assert Apart(w, other) && Apart(other, w);
      assert uid !in other.users && !EmailTaken(other.users, email);
      PendingUsersLive(s, j);
      forall u | u in other.users
        ensures !EmailTaken(w'.users, other.users[u].email)
      {
      }
    }
  }

  /** A login that has inserted an account resolves nothing: its account would be a second live one with the email. */
  lemma ResolveFindsCommitted(db: Db, call: Call)
    requires NullifiersOk(db) && call.request.Login? && call.writes.nullifiers == map[]
    requires call.writes.users == map[] || InsertedUser(db, call)
    requires Resolve(View(db, call.writes), call.request.nullifier, call.policy.audience).Some?
    ensures var user := Resolve(View(db, call.writes), call.request.nullifier, call.policy.audience).value;
            call.writes.users == map[] && Resolved(db, call.(pc := AtSession, user := user))
  {
    var view, n := View(db, call.writes), call.request.nullifier;
    var user := Resolve(view, n, call.policy.audience).value;
    assert view.nullifiers == db.nullifiers && user in db.users;
    assert view.users[user] == db.users[user];
    assert call.writes.users == map[];
  }

  lemma ResolveFits(s: State, id: nat, newId: nat)
    requires CallsOk(s) && NullifiersOk(s.db) && id < |s.calls|
    requires s.calls[id].pc == AtResolve || s.calls[id].pc == AtReresolve
    ensures Fits(s, id, LoginStep(s, id, newId, s.calls[id]))
  {
    hide ApartFromOthers, Resolved, InsertedUser, View, Resolve, NullifiersOk, CallsOk, Usable, PseudonymEmail;
    var call := s.calls[id];
    CallIsOk(s, id);
    OwnWritesApart(s, id);
    NoWritesApart(s, id);
    if Resolve(View(s.db, call.writes), call.request.nullifier, call.policy.audience).Some? {
      ResolveFindsCommitted(s.db, call);
    }
  }

  lemma CreateUserFits(s: State, id: nat, newId: nat)
    requires CallsOk(s) && id < |s.calls| && s.calls[id].pc == AtCreateUser
    ensures Fits(s, id, LoginStep(s, id, newId, s.calls[id]))
  {
    hide ApartFromOthers, CallsOk, Usable, EmailTaken, EmailLocked, PseudonymEmail;
    var call := s.calls[id];
    CallIsOk(s, id);
    var email := PseudonymEmail(call.request.nullifier);
    OwnWritesApart(s, id);
    assert View(s.db, call.writes).users == s.db.users;
    if !EmailLocked(s.calls, id, email) && !UserIdUsed(s, newId) {
      WritingUserApart(s, id, call.writes, newId, email);
    }
  }

  lemma CreateNullifierFits(s: State, id: nat, newId: nat)
    requires CallsOk(s) && id < |s.calls| && s.calls[id].pc == AtCreateNullifier
    ensures Fits(s, id, LoginStep(s, id, newId, s.calls[id]))
  {
    hide ApartFromOthers, CallsOk, Usable, EmailTaken, NullifierLocked, PseudonymEmail;
    var call := s.calls[id];
    CallIsOk(s, id);
    var n := call.request.nullifier;
    OwnWritesApart(s, id);
    assert View(s.db, call.writes).nullifiers == s.db.nullifiers;
    if !NullifierLocked(s.calls, id, n) {
      WritingNullifierApart(s, id, call.writes, n, LoginRow(call));
    }
  }

  lemma SessionFits(s: State, id: nat, newId: nat)
    requires CallsOk(s) && id < |s.calls| && s.calls[id].pc == AtSession
    ensures Fits(s, id, SessionStep(s, newId, s.calls[id]))
  {
    var call := s.calls[id];
    assert CallOk(s.db, call);
    OwnWritesApart(s, id);
    SameRowsApart(s, id, call.writes, SessionStep(s, newId, call).writes);
    hide ApartFromOthers, EmailTaken;
  }

  lemma BoundToAccount(db: Db, call: Call)
    requires NullifiersOk(db) && call.request.ProveClaim? && call.policy.kind == Recurring
    requires call.request.nullifier in db.nullifiers
    requires var row := db.nullifiers[call.request.nullifier];
             row.audience == call.policy.audience && row.user == Some(call.request.uid)
    ensures db.nullifiers[call.request.nullifier] == BoundRow(call) && call.request.uid in db.users
  {
  }

  lemma ProveFits(s: State, id: nat)
    requires Invariant(s) && id < |s.calls| && s.calls[id].pc in {AtBind, AtBurn, AtStore}
    ensures Fits(s, id, ProveStep(s, id, s.calls[id]))
  {
    hide ApartFromOthers, EmailTaken, CallsOk, NullifiersOk, UsersOk, LogOk, ChallengesOk, NullifierLocked;
    var call := s.calls[id];
    CallIsOk(s, id);
    OwnWritesApart(s, id);
    NoWritesApart(s, id);
    var call', n := ProveStep(s, id, call), call.request.nullifier;
    if call.pc == AtStore {
      SameRowsApart(s, id, call.writes, call'.writes);
    } else if !NullifierLocked(s.calls, id, n) {
      WritingNullifierApart(s, id, call.writes, n, BoundRow(call));
      if n in s.db.nullifiers && call'.pc == AtStore {
        BoundToAccount(s.db, call);
      }
    }
  }

  lemma AdvanceFits(s: State, id: nat, newId: nat)
    requires Invariant(s) && id < |s.calls|
    ensures Fits(s, id, Advance(s, id, newId))
  {
    var call := s.calls[id];
    assert CallOk(s.db, call);
    match call.pc
    case AtConsume => hide CallOk, ApartFromOthers; ConsumeFits(s, id);
    case AtResolve | AtReresolve => hide ApartFromOthers, LoginStep; ResolveFits(s, id, newId);
    case AtCreateUser => hide ApartFromOthers, LoginStep; CreateUserFits(s, id, newId);
    case AtCreateNullifier => hide ApartFromOthers, LoginStep; CreateNullifierFits(s, id, newId);
    case AtSession => hide ApartFromOthers, SessionStep; SessionFits(s, id, newId);
    case AtBind | AtBurn | AtStore => hide ApartFromOthers, ProveStep; ProveFits(s, id);
    case _ =>
      OwnWritesApart(s, id);
      NoWritesApart(s, id);
      hide ApartFromOthers, HoldsNullifier, Resolved;
  }

  lemma SameTables(s: State, s': State)
    requires ChallengesOk(s) && NullifiersOk(s.db) && UsersOk(s.db) && LogOk(s)
    requires s'.db == s.db && s'.issued == s.issued && s'.log == s.log && s'.registered == s.registered
    ensures ChallengesOk(s') && NullifiersOk(s'.db) && UsersOk(s'.db) && LogOk(s')
  {
    hide AsIssued, ConsumedIffBacks, AllEarned, NullifiersOk, UsersOk, Recorded, Burn, LoggedIn;
  }

  /** Calls are in order with respect to the tables and each other; nothing else matters to them. */
  lemma CallsOkFrame(s: State, s': State)
    requires CallsOk(s) && s'.db == s.db && s'.calls == s.calls
    ensures CallsOk(s')
  {
    hide CallOk, Apart;
  }

  lemma StepKeepsInvariant(s: State, id: nat, newId: nat)
    requires Invariant(s) && id < |s.calls|
    ensures Invariant(StepCall(s, id, newId))
  {
    hide Advance, Fits, CallsOk, ChallengesOk, LogOk, UsersOk, NullifiersOk;
    AdvanceFits(s, id, newId);
    SetCallKeepsCallsOk(s, id, Advance(s, id, newId));
    CallsOkFrame(SetCall(s, id, Advance(s, id, newId)), StepCall(s, id, newId));
    SameTables(s, StepCall(s, id, newId));
  }

  // ---------------------------------------------------------------- changes of the committed tables

  /** The committed tables have changed in a way an open transaction with these writes does not notice. */
  ghost predicate Unnoticed(db: Db, db': Db, w: Writes) {
    && (forall t :: t in w.challenges && t in db.challenges ==>
          t in db'.challenges && db'.challenges[t] == db.challenges[t])
    && (forall n :: n in db.nullifiers ==> n in db'.nullifiers && db'.nullifiers[n] == db.nullifiers[n])
    && (forall n :: n in w.nullifiers && n !in db.nullifiers ==> n !in db'.nullifiers)
    && (forall u :: u in db.users ==> u in db'.users && db'.users[u].email == db.users[u].email)
    && (forall u :: u in w.users ==> u !in db'.users && !EmailTaken(db'.users, w.users[u].email))
  }

  lemma UnnoticedChallenge(db: Db, db': Db, call: Call)
    requires HoldsChallenge(db, call) && Unnoticed(db, db', call.writes)
    ensures HoldsChallenge(db', call)
  {
    assert call.request.token in call.writes.challenges;
    hide EmailTaken;
  }

  lemma UnnoticedUser(db: Db, db': Db, call: Call)
    requires call.request.Login? && InsertedUser(db, call) && Unnoticed(db, db', call.writes)
    ensures InsertedUser(db', call)
  {
    assert call.user in call.writes.users;
    hide EmailTaken, PseudonymEmail;
  }

  lemma UnnoticedResolved(db: Db, db': Db, call: Call)
    requires call.request.Login? && Resolved(db, call) && Unnoticed(db, db', call.writes)
    ensures Resolved(db', call)
  {
    if InsertedUser(db, call) {
      UnnoticedUser(db, db', call);
    }
    assert call.request.nullifier in call.writes.nullifiers || call.writes.nullifiers == map[];
    hide EmailTaken, PseudonymEmail, InsertedUser;
  }

  lemma UnnoticedNullifier(db: Db, db': Db, call: Call)
    requires call.request.ProveClaim? && HoldsNullifier(db, call) && Unnoticed(db, db', call.writes)
    ensures HoldsNullifier(db', call)
  {
    hide EmailTaken;
  }

  lemma UnnoticedKeepsCallOk(db: Db, db': Db, call: Call)
    requires CallOk(db, call) && Unnoticed(db, db', call.writes)
    ensures CallOk(db', call)
  {
    hide HoldsChallenge, InsertedUser, Resolved, HoldsNullifier, Unnoticed;
    if HoldsChallenge(db, call) {
      UnnoticedChallenge(db, db', call);
    }
    if call.request.Login? && InsertedUser(db, call) {
      UnnoticedUser(db, db', call);
    }
    if call.request.Login? && Resolved(db, call) {
      UnnoticedResolved(db, db', call);
    }
    if call.request.ProveClaim? && HoldsNullifier(db, call) {
      UnnoticedNullifier(db, db', call);
    }
  }

  // ---------------------------------------------------------------- commit

  lemma EmailTakenInUnion(a: map<nat, User>, b: map<nat, User>, email: string)
    requires !EmailTaken(a, email) && !EmailTaken(b, email)
    ensures !EmailTaken(a + b, email)
  {
    hide Lower;
  }

  lemma CommitUnnoticedUsers(db: Db, w: Writes, other: Writes)
    requires RowsOk(db, w) && RowsOk(db, other) && Apart(w, other) && Apart(other, w)
    ensures forall u :: u in other.users ==>
              u !in View(db, w).users && !EmailTaken(View(db, w).users, other.users[u].email)
  {
    hide EmailTaken;
    forall u | u in other.users
      ensures !EmailTaken(View(db, w).users, other.users[u].email)
    {
      EmailTakenInUnion(db.users, w.users, other.users[u].email);
    }
  }

  lemma CommitGrows(db: Db, w: Writes)
    requires RowsOk(db, w)
    ensures Unnoticed(db, View(db, w), NO_WRITES)
  {
    hide EmailTaken;
  }

  lemma CommitUnnoticed(db: Db, w: Writes, other: Writes)
    requires RowsOk(db, w) && RowsOk(db, other) && Apart(w, other) && Apart(other, w)
    ensures Unnoticed(db, View(db, w), other)
  {
    hide EmailTaken;
    CommitUnnoticedUsers(db, w, other);
    CommitGrows(db, w);
    assert forall t :: t in w.challenges ==> t !in other.challenges;
    assert forall n :: n in w.nullifiers ==> n !in other.nullifiers;
  }

  lemma ClosedOk(db: Db, call: Call)
    ensures CallOk(db, Close(call))
  {
  }

  lemma CommitKeepsCalls(s: State, id: nat)
    requires CallsOk(s) && id < |s.calls| && s.calls[id].pc == Ready
    requires s.calls[id].request.token in s.calls[id].writes.challenges
    ensures CallsOk(CommitCall(s, id))
  {
    var call := s.calls[id];
    var s' := CommitCall(s, id);
    NoWritesApart(s, id);
    hide CallOk, View, Apart, RowsOk;
    assert CallOk(s'.db, s'.calls[id]) by {
      ClosedOk(s'.db, call);
    }
    forall j | 0 <= j < |s'.calls|
      ensures CallOk(s'.db, s'.calls[j])
    {
      if j != id {
        CallRowsOk(s.db, call);
        CallRowsOk(s.db, s.calls[j]);
        CommitUnnoticed(s.db, call.writes, s.calls[j].writes);
        UnnoticedKeepsCallOk(s.db, s'.db, s.calls[j]);
      }
    }
  }

  lemma CommitKeepsUsers(db: Db, w: Writes)
    requires UsersOk(db) && RowsOk(db, w)
    ensures UsersOk(View(db, w))
  {
    var db' := View(db, w);
    forall u, v | u in db'.users && v in db'.users && !db'.users[u].deleted && !db'.users[v].deleted
                  && Lower(db'.users[u].email) == Lower(db'.users[v].email)
      ensures u == v
    {
      hide Lower;
    }
  }

  lemma ReadyHoldsChallenge(db: Db, call: Call)
    requires CallOk(db, call) && call.pc == Ready
    ensures HoldsChallenge(db, call)
  {
    hide HoldsChallenge, HoldsNullifier, Resolved;
  }

  lemma BacksAppended(log: seq<Success>, e: Success, k: nat)
    ensures Backs(log + [e], k) <==> Backs(log, k) || k == e.serial
  {
    var log' := log + [e];
    assert log'[|log|] == e;
    assert forall a :: 0 <= a < |log| ==> log'[a] == log[a];
    if Backs(log, k) {
      var a :| 0 <= a < |log| && log[a].serial == k;
      assert log'[a].serial == k;
    }
  }

  lemma ConsumedStaysAsIssued(challenges: map<nat, Challenge>, issued: seq<Challenge>, token: nat, at: int)
    requires AsIssued(challenges, issued) && token in challenges
    ensures AsIssued(challenges[token := challenges[token].(consumedAt := Some(at))], issued)
  {
  }

  lemma EarnedAppended(issued: seq<Challenge>, log: seq<Success>, e: Success)
    requires AllEarned(issued, log) && e.serial < |issued| && Earned(issued[e.serial], e) && !Backs(log, e.serial)
    ensures AllEarned(issued, log + [e])
  {
    hide Earned;
  }

  /** A challenge row is consumed and a success backed by it recorded: nothing else about challenges changes. */
  lemma ConsumedKeepsChallenges(s: State, s': State, token: nat, at: int, e: Success)
    requires ChallengesOk(s) && token in s.db.challenges && s.db.challenges[token].consumedAt.None?
    requires s'.db.challenges == s.db.challenges[token := s.db.challenges[token].(consumedAt := Some(at))]
    requires s'.issued == s.issued && s'.log == s.log + [e]
    requires e.serial == s.db.challenges[token].serial && e.serial < |s.issued| && Earned(s.issued[e.serial], e)
    ensures ChallengesOk(s')
  {
    assert forall t :: t in s.db.challenges && s.db.challenges[t].serial == e.serial ==> t == token;
    hide AsIssued, AllEarned, Backs, Earned;
    ConsumedStaysAsIssued(s.db.challenges, s.issued, token, at);
    EarnedAppended(s.issued, s.log, e);
    forall t | t in s'.db.challenges
      ensures s'.db.challenges[t].consumedAt.Some? <==> Backs(s'.log, s'.db.challenges[t].serial)
    {
      BacksAppended(s.log, e, s'.db.challenges[t].serial);
    }
  }

  lemma CommitKeepsChallenges(s: State, id: nat)
    requires ChallengesOk(s) && id < |s.calls| && HoldsChallenge(s.db, s.calls[id]) && s.calls[id].pc == Ready
    ensures ChallengesOk(CommitCall(s, id))
  {
    var call := s.calls[id];
    var s' := CommitCall(s, id);
    var token := call.request.token;
    var e := s'.log[|s.log|];
    assert s'.db.challenges == s.db.challenges[token := s.db.challenges[token].(consumedAt := Some(call.started))];
    assert Earned(s.issued[e.serial], e);
    assert e.serial < |s.issued|;
    hide ChallengesOk, HoldsChallenge, View, Earned;
    ConsumedKeepsChallenges(s, s', token, call.started, e);
  }

  lemma CommitKeepsNullifiers(db: Db, w: Writes)
    requires NullifiersOk(db) && RowsOk(db, w)
    ensures NullifiersOk(View(db, w))
  {
    hide EmailTaken;
  }

  /** The success just committed is on record: its rows are in the tables. */
  lemma CommitRecords(db: Db, call: Call, e: Success)
    requires CallOk(db, call) && call.pc == Ready
    requires e.request == call.request && e.policy == call.policy && e.started == call.started && e.user == call.user
    ensures Recorded(View(db, call.writes), e)
    ensures Burn(e) ==> e.request.nullifier !in db.nullifiers
    ensures forall u :: u in call.writes.users ==> e.request.Login? && u == e.user
  {
    hide HoldsChallenge, EmailTaken, PseudonymEmail;
  }

  lemma RecordedSurvives(db: Db, db': Db, e: Success)
    requires Recorded(db, e) && Unnoticed(db, db', NO_WRITES)
    ensures Recorded(db', e)
  {
  }

  lemma CommitKeepsLog(s: State, id: nat)
    requires LogOk(s) && id < |s.calls| && CallOk(s.db, s.calls[id]) && s.calls[id].pc == Ready
    requires s.calls[id].request.token in s.calls[id].writes.challenges
    ensures LogOk(CommitCall(s, id))
  {
    var call := s.calls[id];
    var s' := CommitCall(s, id);
    var e := s'.log[|s.log|];
    CommitRecords(s.db, call, e);
    CallRowsOk(s.db, call);
    CommitGrows(s.db, call.writes);
    hide CallOk, Unnoticed, RowsOk;
    assert s'.log == s.log + [e];
    forall a | 0 <= a < |s'.log|
      ensures Recorded(s'.db, s'.log[a])
    {
      if a < |s.log| {
        RecordedSurvives(s.db, s'.db, s.log[a]);
      }
    }
    forall u | u in s'.db.users
      ensures u in s'.registered || LoggedIn(s'.log, u)
    {
      if u in s.db.users && LoggedIn(s.log, u) {
        var a :| 0 <= a < |s.log| && s.log[a].request.Login? && s.log[a].user == u;
        assert s'.log[a] == s.log[a];
      } else if u in call.writes.users {
        assert s'.log[|s.log|].user == u;
      }
    }
    forall a, b | 0 <= a < b < |s'.log| && Burn(s'.log[a]) && Burn(s'.log[b])
      ensures s'.log[a].request.nullifier != s'.log[b].request.nullifier
    {
      assert Recorded(s.db, s.log[a]);
    }
  }

  lemma CommitKeepsInvariant(s: State, id: nat)
    requires Invariant(s) && id < |s.calls| && s.calls[id].pc == Ready
    requires s.calls[id].request.token in s.calls[id].writes.challenges
    ensures Invariant(CommitCall(s, id))
  {
    assert CallOk(s.db, s.calls[id]);
    hide ChallengesOk, LogOk, UsersOk, NullifiersOk, CallsOk, CallOk, View, RowsOk, HoldsChallenge;
    ReadyHoldsChallenge(s.db, s.calls[id]);
    CallRowsOk(s.db, s.calls[id]);
    CommitKeepsChallenges(s, id);
    CommitKeepsUsers(s.db, s.calls[id].writes);
    CommitKeepsNullifiers(s.db, s.calls[id].writes);
    CommitKeepsLog(s, id);
    CommitKeepsCalls(s, id);
  }

  // ---------------------------------------------------------------- everything else

  lemma CallsUnnoticed(s: State, s': State)
    requires CallsOk(s) && s'.calls == s.calls
    requires forall j :: 0 <= j < |s.calls| ==> Unnoticed(s.db, s'.db, s.calls[j].writes)
    ensures CallsOk(s')
  {
    forall j | 0 <= j < |s'.calls|
      ensures CallOk(s'.db, s'.calls[j])
    {
      UnnoticedKeepsCallOk(s.db, s'.db, s.calls[j]);
    }
    hide CallOk, Apart, Unnoticed;
  }

  lemma NullifiersFrame(db: Db, db': Db)
    requires NullifiersOk(db) && db'.nullifiers == db.nullifiers && db.users.Keys <= db'.users.Keys
    ensures NullifiersOk(db')
  {
  }

  lemma LogFrame(s: State, s': State)
    requires LogOk(s) && s'.log == s.log && Unnoticed(s.db, s'.db, NO_WRITES) && s.registered <= s'.registered
    requires forall u :: u in s'.db.users ==> u in s.db.users || u in s'.registered
    ensures LogOk(s')
  {
    hide Recorded, Unnoticed, LoggedIn, Burn;
    forall a | 0 <= a < |s.log|
      ensures Recorded(s'.db, s'.log[a])
    {
      RecordedSurvives(s.db, s'.db, s.log[a]);
    }
  }

  lemma IssueKeepsRest(s: State, token: nat, session: Option<nat>, purpose: Purpose)
    requires NullifiersOk(s.db) && UsersOk(s.db) && LogOk(s)
    ensures var s' := Issue(s, token, session, purpose); NullifiersOk(s'.db) && UsersOk(s'.db) && LogOk(s')
  {
    hide NullifiersOk, LogOk, ChallengeLocked, Lower;
    var s' := Issue(s, token, session, purpose);
    NullifiersFrame(s.db, s'.db);
    LogFrame(s, s');
  }

  lemma IssuedAppended(challenges: map<nat, Challenge>, issued: seq<Challenge>, now: int, token: nat, row: Challenge)
    requires AsIssued(challenges, issued) && token !in Unexpired(challenges, now)
    requires row.serial == |issued| && row.consumedAt.None?
    ensures AsIssued(Unexpired(challenges, now)[token := row], issued + [row])
  {
  }

  lemma UnbackedAppended(challenges: map<nat, Challenge>, log: seq<Success>, now: int, token: nat, row: Challenge)
    requires ConsumedIffBacks(challenges, log) && !Backs(log, row.serial) && row.consumedAt.None?
    ensures ConsumedIffBacks(Unexpired(challenges, now)[token := row], log)
  {
    hide Backs;
  }

  lemma EarnedIssued(issued: seq<Challenge>, row: Challenge, log: seq<Success>)
    requires AllEarned(issued, log)
    ensures AllEarned(issued + [row], log) && !Backs(log, |issued|)
  {
    hide Earned;
  }

  lemma IssueKeepsChallenges(s: State, token: nat, session: Option<nat>, purpose: Purpose)
    requires ChallengesOk(s)
    ensures ChallengesOk(Issue(s, token, session, purpose))
  {
    hide ChallengeLocked, AsIssued, AllEarned, ConsumedIffBacks, Backs, Unexpired;
    if token !in Unexpired(s.db.challenges, s.clock) {
      var row := Challenge(|s.issued|, session, purpose, s.clock + CHALLENGE_TTL, None);
      IssuedAppended(s.db.challenges, s.issued, s.clock, token, row);
      EarnedIssued(s.issued, row, s.log);
      UnbackedAppended(s.db.challenges, s.log, s.clock, token, row);
    }
  }

  /** The delete waits for a row that is being consumed. */
  lemma IssueUnnoticed(s: State, token: nat, session: Option<nat>, purpose: Purpose, j: nat)
    requires CallsOk(s) && j < |s.calls|
    requires Issue(s, token, session, purpose) != s
    ensures Unnoticed(s.db, Issue(s, token, session, purpose).db, s.calls[j].writes)
  {
    var w := s.calls[j].writes;
    CallRowsOk(s.db, s.calls[j]);
    hide CallsOk, EmailTaken;
    forall t | t in w.challenges && t in s.db.challenges
      ensures s.db.challenges[t].expires >= s.clock
    {
      assert ChallengeLocked(s.calls, |s.calls|, t);
    }
  }

  lemma IssueKeepsInvariant(s: State, token: nat, session: Option<nat>, purpose: Purpose)
    requires Invariant(s)
    ensures Invariant(Issue(s, token, session, purpose))
  {
    hide ChallengesOk, NullifiersOk, CallsOk, UsersOk, Recorded;
    var s' := Issue(s, token, session, purpose);
    IssueKeepsChallenges(s, token, session, purpose);
    if s' != s {
      forall j | 0 <= j < |s.calls|
        ensures Unnoticed(s.db, s'.db, s.calls[j].writes)
      {
        IssueUnnoticed(s, token, session, purpose, j);
      }
      hide Unnoticed;
      CallsUnnoticed(s, s');
      IssueKeepsRest(s, token, session, purpose);
    }
  }

  lemma RegisterUnnoticed(s: State, uid: nat, email: string, j: nat)
    requires CallsOk(s) && j < |s.calls|
    requires !UserIdUsed(s, uid) && !EmailLocked(s.calls, |s.calls|, email)
    ensures Unnoticed(s.db, s.db.(users := s.db.users[uid := User(email, false)]), s.calls[j].writes)
  {
    var w := s.calls[j].writes;
    CallRowsOk(s.db, s.calls[j]);
    hide CallsOk, Lower;
    assert !EmailTaken(w.users, email);
    forall u | u in w.users
      ensures !EmailTaken(s.db.users[uid := User(email, false)], w.users[u].email)
    {
    }
  }

  lemma ChallengesFrame(s: State, s': State)
    requires ChallengesOk(s) && s'.db.challenges == s.db.challenges && s'.issued == s.issued && s'.log == s.log
    ensures ChallengesOk(s')
  {
    hide Backs, Earned;
  }

  lemma RegisterKeepsUsers(db: Db, uid: nat, email: string)
    requires UsersOk(db) && uid !in db.users && !EmailTaken(db.users, email)
    ensures UsersOk(db.(users := db.users[uid := User(email, false)]))
  {
    hide Lower;
  }

  lemma RegisterKeepsTables(s: State, uid: nat, email: string)
    requires ChallengesOk(s) && NullifiersOk(s.db) && UsersOk(s.db) && LogOk(s)
    requires !UserIdUsed(s, uid) && !EmailTaken(s.db.users, email)
    ensures var s' := s.(db := s.db.(users := s.db.users[uid := User(email, false)]),
                         registered := s.registered + {uid});
            ChallengesOk(s') && NullifiersOk(s'.db) && UsersOk(s'.db) && LogOk(s')
  {
    hide ChallengesOk, NullifiersOk, UsersOk, LogOk, EmailTaken;
    var s' := s.(db := s.db.(users := s.db.users[uid := User(email, false)]), registered := s.registered + {uid});
    RegisterKeepsUsers(s.db, uid, email);
    ChallengesFrame(s, s');
    NullifiersFrame(s.db, s'.db);
    LogFrame(s, s');
  }

  lemma RegisterKeepsInvariant(s: State, uid: nat, email: string)
    requires Invariant(s)
    ensures Invariant(Next(s, Register(uid, email)))
  {
    hide ChallengesOk, NullifiersOk, CallsOk, UsersOk, LogOk, UserIdUsed, EmailLocked, EmailTaken;
    var s' := Next(s, Register(uid, email));
    if s' != s {
      forall j | 0 <= j < |s.calls|
        ensures Unnoticed(s.db, s'.db, s.calls[j].writes)
      {
        RegisterUnnoticed(s, uid, email, j);
      }
      hide Unnoticed;
      CallsUnnoticed(s, s');
      RegisterKeepsTables(s, uid, email);
    }
  }

  lemma SoftDeleteUnnoticed(s: State, uid: nat, j: nat)
    requires CallsOk(s) && j < |s.calls| && uid in s.db.users
    ensures Unnoticed(s.db, Next(s, SoftDelete(uid)).db, s.calls[j].writes)
  {
    CallRowsOk(s.db, s.calls[j]);
    hide CallsOk, Lower;
  }

  lemma SoftDeleteKeepsUsers(db: Db, uid: nat)
    requires UsersOk(db) && uid in db.users
    ensures UsersOk(db.(users := db.users[uid := db.users[uid].(deleted := true)]))
  {
    hide Lower;
  }

  lemma SoftDeleteKeepsTables(s: State, uid: nat)
    requires ChallengesOk(s) && NullifiersOk(s.db) && UsersOk(s.db) && LogOk(s) && uid in s.db.users
    ensures var s' := Next(s, SoftDelete(uid));
            ChallengesOk(s') && NullifiersOk(s'.db) && UsersOk(s'.db) && LogOk(s')
  {
    hide ChallengesOk, NullifiersOk, UsersOk, LogOk, EmailTaken;
    var s' := Next(s, SoftDelete(uid));
    SoftDeleteKeepsUsers(s.db, uid);
    ChallengesFrame(s, s');
    NullifiersFrame(s.db, s'.db);
    LogFrame(s, s');
  }

  lemma SoftDeleteKeepsInvariant(s: State, uid: nat)
    requires Invariant(s)
    ensures Invariant(Next(s, SoftDelete(uid)))
  {
    hide ChallengesOk, NullifiersOk, CallsOk, UsersOk, LogOk;
    var s' := Next(s, SoftDelete(uid));
    if uid in s.db.users {
      forall j | 0 <= j < |s.calls|
        ensures Unnoticed(s.db, s'.db, s.calls[j].writes)
      {
        SoftDeleteUnnoticed(s, uid, j);
      }
      hide Unnoticed;
      CallsUnnoticed(s, s');
      SoftDeleteKeepsTables(s, uid);
    }
  }

  lemma FailKeepsInvariant(s: State, id: nat)
    requires Invariant(s) && id < |s.calls|
    ensures Invariant(FailCall(s, id))
  {
    var closed := Close(s.calls[id]);
    NoWritesApart(s, id);
    assert Fits(s, id, closed) by {
      hide Invariant, ApartFromOthers;
    }
    hide Fits, CallsOk, ChallengesOk, LogOk, UsersOk, NullifiersOk;
    SetCallKeepsCallsOk(s, id, closed);
    CallsOkFrame(SetCall(s, id, closed), FailCall(s, id));
    SameTables(s, FailCall(s, id));
  }

  lemma FreshCallOk(db: Db, request: Request)
    ensures CallOk(db, Call(request, AtPolicy, NO_POLICY, 0, 0, 0, NO_WRITES))
  {
  }

  lemma SubmitKeepsInvariant(s: State, request: Request)
    requires Invariant(s)
    ensures Invariant(Next(s, Submit(request)))
  {
    hide CallOk, Apart, ChallengesOk, LogOk, UsersOk, NullifiersOk;
    NoWritesApart(s, |s.calls|);
    SameTables(s, Next(s, Submit(request)));
    assert CallOk(s.db, Call(request, AtPolicy, NO_POLICY, 0, 0, 0, NO_WRITES)) by {
      FreshCallOk(s.db, request);
    }
  }

  /** The invariant is about challenges, nullifiers, accounts, open calls and the log. */
  lemma OtherTablesKeepInvariant(s: State, s': State)
    requires Invariant(s)
    requires s'.db.challenges == s.db.challenges && s'.db.nullifiers == s.db.nullifiers && s'.db.users == s.db.users
    requires s'.calls == s.calls && s'.issued == s.issued && s'.log == s.log && s'.registered == s.registered
    ensures Invariant(s')
  {
    forall j | 0 <= j < |s.calls|
      ensures Unnoticed(s.db, s'.db, s.calls[j].writes)
    {
      CallRowsOk(s.db, s.calls[j]);
      hide Invariant, EmailTaken;
    }
    hide ChallengesOk, NullifiersOk, LogOk, CallsOk, EmailTaken, Lower;
    CallsUnnoticed(s, s');
    ChallengesFrame(s, s');
    NullifiersFrame(s.db, s'.db);
    LogFrame(s, s');
  }

  lemma NextKeepsInvariant(s: State, a: Action)
    requires Invariant(s)
    ensures Invariant(Next(s, a))
  {
    hide Invariant, StepCall, CommitCall, FailCall, Issue, SessionIdUsed, UserIdUsed, EmailLocked, EmailTaken, ProofsOn;
    hide Spent;
    match a
    case Submit(request) => SubmitKeepsInvariant(s, request);
    case Step(id, newId) =>
      if id < |s.calls| {
        StepKeepsInvariant(s, id, newId);
      }
    case Commit(id) =>
      if id < |s.calls| && s.calls[id].pc == Ready && s.calls[id].request.token in s.calls[id].writes.challenges {
        CommitKeepsInvariant(s, id);
      }
    case Fail(id) =>
      if id < |s.calls| {
        FailKeepsInvariant(s, id);
      }
    case IssueChallenge(token, session, purpose) => IssueKeepsInvariant(s, token, session, purpose);
    case Register(uid, email) => RegisterKeepsInvariant(s, uid, email);
    case SoftDelete(uid) => SoftDeleteKeepsInvariant(s, uid);
    case _ => OtherTablesKeepInvariant(s, Next(s, a));
  }

  lemma {:induction false} RunKeepsInvariant(actions: seq<Action>)
    ensures Invariant(Run(actions))
  {
    hide Next;
    if actions != [] {
      RunKeepsInvariant(actions[..|actions| - 1]);
      hide Invariant;
      NextKeepsInvariant(Run(actions[..|actions| - 1]), actions[|actions| - 1]);
    }
  }
}
