/** The phased requests of zkauthn/protocol.go on the tables of zkauthn/sql.go, interleaved statement by statement.
  *
  * A call reads policy, roots and challenge and verifies outside any transaction; it then opens one, in which a
  * statement reads the committed tables overlaid with the call's own writes. A statement that touches a row, or a
  * unique key, which another open transaction has written waits for it. Any call may fail at any point; its writes then
  * vanish.   */
module Protocol {
  import opened Hashing
  import opened ClaimHolder
  import opened Encoding
  import TreeTables
  import Tokens

  /** A canonical field element as its bytes. */
  type Field = seq<Byte>

  datatype Purpose = ForKnowledge | ForLogin | ForClaim

  /** `serial` tells the rows ever issued apart, even under one token hash. */
  datatype Challenge = Challenge(
    serial: nat, session: Option<nat>, purpose: Purpose, expires: int, consumedAt: Option<int>)

  datatype NullifierRow = NullifierRow(audience: Field, user: Option<nat>, consumedAt: Option<int>)

  datatype User = User(email: string, deleted: bool)

  datatype Policy = Policy(audience: Field, kind: Kind, allowsLogin: bool)

  datatype Db = Db(
    challenges: map<nat, Challenge>, nullifiers: map<Field, NullifierRow>, users: map<nat, User>,
    policies: map<string, Policy>, roots: map<Field, Option<int>>,
    sessions: map<nat, nat>, sessionClaims: set<(nat, string)>)

  /** Uncommitted writes. A session mapped to None is revoked. */
  datatype Writes = Writes(
    challenges: map<nat, Challenge>, nullifiers: map<Field, NullifierRow>, users: map<nat, User>,
    sessions: map<nat, Option<nat>>, sessionClaims: set<(nat, string)>)

  /** `token` is the hash of the challenge token, `root` the tree root the proof was made against; `holder` names the
    * HTTP request's claim holder. */
  datatype Request =
    | VerifyKnowledge(token: nat, sid: nat, uid: nat)
    | Login(token: nat, claim: string, root: Field, nullifier: Field, prior: Option<nat>)
    | ProveClaim(token: nat, claim: string, root: Field, nullifier: Field, sid: nat, uid: nat, holder: nat)

  datatype Pc =
    | AtPolicy | AtRoot | AtPeek | AtVerify | AtBegin | AtConsume
    | AtMfa
    | AtResolve | AtCreateUser | AtCreateNullifier | AtReresolve | AtSession
    | AtBind | AtBurn | AtStore | AtSink
    | Ready
    | Closed

  /** `user` is the account a login has created or resolved, `sid` the session it has issued. */
  datatype Call = Call(request: Request, pc: Pc, policy: Policy, started: int, user: nat, sid: nat, writes: Writes)

  /** A committed call: its number, the challenge row it consumed and the policy it was verified under. */
  datatype Success = Success(id: nat, serial: nat, request: Request, policy: Policy, started: int, user: nat, sid: nat)

  /** `registered` and `outside` are the accounts and sessions that came from elsewhere in the application. */
  datatype State = State(
    clock: int, grace: int, db: Db, calls: seq<Call>, holders: seq<Grants>,
    issued: seq<Challenge>, log: seq<Success>, registered: set<nat>, outside: map<nat, nat>,
    consumed: multiset<string>, leaked: multiset<string>)

  datatype Action =
    | Tick(elapsed: nat)
    | OpenRequest(caller: Option<nat>, loadFailed: bool)
    | Submit(request: Request)
    | Step(id: nat, newId: nat)
    | Commit(id: nat)
    | Fail(id: nat)
    | IssueChallenge(token: nat, session: Option<nat>, purpose: Purpose)
    | SetPolicy(claim: string, policy: Policy)
    | SetGrace(grace: int)
    | TreeCommit(roots: map<Field, Option<int>>)
    | Register(uid: nat, email: string)
    | SoftDelete(uid: nat)
    | OpenSession(sid: nat, uid: nat)
    | EndSession(sid: nat)
    | UseProofs(holder: nat, claims: seq<string>)

  const CHALLENGE_TTL: int := 60

  const NO_WRITES: Writes := Writes(map[], map[], map[], map[], {})

  const NO_POLICY: Policy := Policy([], Recurring, false)

  const START: State :=
    State(0, 0, Db(map[], map[], map[], map[], map[], map[], {}), [], [], [], [], {}, map[], multiset{}, multiset{})

  function View(db: Db, w: Writes): Db {
    Db(db.challenges + w.challenges, db.nullifiers + w.nullifiers, db.users + w.users, db.policies, db.roots,
       (db.sessions - w.sessions.Keys)
         + (map sid | sid in w.sessions && w.sessions[sid].Some? :: w.sessions[sid].value),
       db.sessionClaims + w.sessionClaims)
  }

  // ---------------------------------------------------------------- statements

  function PurposeOf(r: Request): Purpose {
    match r
    case VerifyKnowledge(_, _, _) => ForKnowledge
    case Login(_, _, _, _, _) => ForLogin
    case ProveClaim(_, _, _, _, _, _, _) => ForClaim
  }

  /** Anonymous login challenges are bound to the null session. */
  function SessionOf(r: Request): Option<nat> {
    if r.Login? then None else Some(r.sid)
  }

  /** The where clause shared by peekChallengeSQL and consumeChallengeSQL. */
  predicate Usable(challenges: map<nat, Challenge>, r: Request, now: int) {
    && r.token in challenges
    && challenges[r.token].purpose == PurposeOf(r)
    && challenges[r.token].session == SessionOf(r)
    && challenges[r.token].consumedAt.None?
    && challenges[r.token].expires > now
  }

  /** resolveNullifierSQL: the account of an unconsumed row of this audience, live, under the derived email. */
  function Resolve(db: Db, nullifier: Field, audience: Field): Option<nat> {
    if nullifier !in db.nullifiers then None
    else
      var row := db.nullifiers[nullifier];
      if row.user.Some? && row.audience == audience && row.consumedAt.None?
         && row.user.value in db.users && !db.users[row.user.value].deleted
         && db.users[row.user.value].email == PseudonymEmail(nullifier)
      then row.user else None
  }

  predicate EmailTaken(users: map<nat, User>, email: string) {
    exists u :: u in users && !users[u].deleted && Lower(users[u].email) == Lower(email)
  }

  // ---------------------------------------------------------------- waiting for other transactions

  ghost predicate ChallengeLocked(calls: seq<Call>, id: nat, token: nat) {
    exists j: nat :: j < |calls| && j != id && token in calls[j].writes.challenges
  }

  ghost predicate NullifierLocked(calls: seq<Call>, id: nat, nullifier: Field) {
    exists j: nat :: j < |calls| && j != id && nullifier in calls[j].writes.nullifiers
  }

  ghost predicate EmailLocked(calls: seq<Call>, id: nat, email: string) {
    exists j: nat :: j < |calls| && j != id && EmailTaken(calls[j].writes.users, email)
  }

  ghost predicate UserIdUsed(s: State, uid: nat) {
    uid in s.db.users || exists j: nat :: j < |s.calls| && uid in s.calls[j].writes.users
  }

  /** No session id is ever given out twice, here or elsewhere in the application. */
  ghost predicate SessionIdUsed(s: State, sid: nat) {
    || sid in s.outside
    || (exists j: nat :: j < |s.calls| && sid in s.calls[j].writes.sessions)
    || (exists a: nat :: a < |s.log| && s.log[a].request.Login? && s.log[a].sid == sid)
  }

  // ---------------------------------------------------------------- one statement of a call

  function Close(call: Call): Call {
    call.(pc := Closed, writes := NO_WRITES)
  }

  /** A membership request carries its root and its nullifier as canonical field elements. */
  predicate WellFormed(r: Request) {
    r.VerifyKnowledge? || (Tokens.ParseField(r.root).Some? && Tokens.ParseField(r.nullifier).Some?)
  }

  predicate RootAccepted(s: State, root: Field) {
    TreeTables.Accepted(s.db.roots, root, s.grace, s.clock)
  }

  /** Phases one and two, and the opening of the transaction. */
  function BeforeTransaction(s: State, call: Call): Call {
    var r := call.request;
    match call.pc
    case AtPolicy =>
      if r.VerifyKnowledge? then call.(pc := AtPeek)
      else if WellFormed(r) && r.claim in s.db.policies then call.(pc := AtRoot, policy := s.db.policies[r.claim])
      else Close(call)
    case AtRoot =>
      if !r.VerifyKnowledge? && RootAccepted(s, r.root) then call.(pc := AtPeek) else Close(call)
    case AtPeek =>
      if Usable(s.db.challenges, r, s.clock) then call.(pc := AtVerify) else Close(call)
    case AtVerify =>
      if r.Login? && (call.policy.kind != Recurring || !call.policy.allowsLogin) then Close(call)
      else call.(pc := AtBegin)
    case _ => call.(pc := AtConsume, started := s.clock)
  }

  /** consumeChallengeSQL. */
  ghost function Consume(s: State, id: nat, call: Call): Call {
    var r := call.request;
    if ChallengeLocked(s.calls, id, r.token) then call
    else if !Usable(s.db.challenges, r, call.started) then Close(call)
    else
      var row := s.db.challenges[r.token].(consumedAt := Some(call.started));
      call.(writes := call.writes.(challenges := map[r.token := row]),
            pc := match r
                  case VerifyKnowledge(_, _, _) => AtMfa
                  case Login(_, _, _, _, _) => AtResolve
                  case ProveClaim(_, _, _, _, _, _, _) => if call.policy.kind == OneShot then AtBurn else AtBind)
  }

  /** resolvePseudonym. createNullifierSQL is two steps: the user row, then the nullifier row. */
  ghost function LoginStep(s: State, id: nat, newId: nat, call: Call): Call
    requires call.request.Login?
  {
    var n, audience := call.request.nullifier, call.policy.audience;
    var view := View(s.db, call.writes);
    var email := PseudonymEmail(n);
    match call.pc
    case AtResolve =>
      var found := Resolve(view, n, audience);
      if found.Some? then call.(pc := AtSession, user := found.value) else call.(pc := AtCreateUser)
    case AtCreateUser =>
      if EmailLocked(s.calls, id, email) || UserIdUsed(s, newId) then call
      else if EmailTaken(view.users, email) then call.(pc := AtReresolve)
      else
        var users := map[newId := User(email, false)];
        call.(pc := AtCreateNullifier, user := newId, writes := call.writes.(users := users))
    case AtCreateNullifier =>
      if NullifierLocked(s.calls, id, n) then call
      else if n in view.nullifiers then call.(pc := AtReresolve)
      else
        var row := NullifierRow(audience, Some(call.user), None);
        call.(pc := AtSession, writes := call.writes.(nullifiers := map[n := row]))
    case AtReresolve =>
      var found := Resolve(view, n, audience);
      if found.Some? then call.(pc := AtSession, user := found.value) else Close(call)
    case _ => call
  }

  /** The session rows of a login: the prior session revoked, the new one issued. */
  function LoginSessions(prior: Option<nat>, sid: nat, user: nat): map<nat, Option<nat>> {
    (if prior.Some? then map[prior.value := None] else map[])[sid := Some(user)]
  }

  /** The prior session is revoked, a fresh one issued, and the claim stored for it. */
  ghost function SessionStep(s: State, newId: nat, call: Call): Call
    requires call.request.Login?
  {
    if SessionIdUsed(s, newId) then call
    else
      call.(pc := Ready, sid := newId, writes := call.writes.(
        sessions := LoginSessions(call.request.prior, newId, call.user),
        sessionClaims := {(newId, call.request.claim)}))
  }

  /** The statements of ProveClaim. A user id without a row violates the foreign key. */
  ghost function ProveStep(s: State, id: nat, call: Call): Call
    requires call.request.ProveClaim?
  {
    var n, audience, uid := call.request.nullifier, call.policy.audience, call.request.uid;
    match call.pc
    case AtBind =>
      if NullifierLocked(s.calls, id, n) then call
      else if n !in s.db.nullifiers then
        if uid !in s.db.users then Close(call)
        else
          var row := NullifierRow(audience, Some(uid), None);
          call.(pc := AtStore, writes := call.writes.(nullifiers := map[n := row]))
      else
        var row := s.db.nullifiers[n];
        if row.audience == audience && row.user == Some(uid) then
          call.(pc := AtStore, writes := call.writes.(nullifiers := map[n := row]))
        else Close(call)
    case AtBurn =>
      if NullifierLocked(s.calls, id, n) then call
      else if n in s.db.nullifiers then Close(call)
      else
        var row := NullifierRow(audience, None, Some(call.started));
        call.(pc := AtSink, writes := call.writes.(nullifiers := map[n := row]))
    case _ =>
      call.(pc := AtSink,
            writes := call.writes.(
              sessionClaims := call.writes.sessionClaims + {(call.request.sid, call.request.claim)}))
  }

  /** RecordMFA needs the session to be live and the caller's. */
  function MfaStep(s: State, call: Call): Call
    requires call.request.VerifyKnowledge?
  {
    var r := call.request;
    if r.sid in s.db.sessions && s.db.sessions[r.sid] == r.uid then call.(pc := Ready) else Close(call)
  }

  predicate Mounted(s: State, call: Call) {
    call.request.ProveClaim? && call.request.holder < |s.holders|
  }

  ghost function Advance(s: State, id: nat, newId: nat): Call
    requires id < |s.calls|
  {
    var call := s.calls[id];
    match call.pc
    case AtPolicy | AtRoot | AtPeek | AtVerify | AtBegin => BeforeTransaction(s, call)
    case AtConsume => Consume(s, id, call)
    case AtMfa => if call.request.VerifyKnowledge? then MfaStep(s, call) else call
    case AtResolve | AtCreateUser | AtCreateNullifier | AtReresolve =>
      if call.request.Login? then LoginStep(s, id, newId, call) else call
    case AtSession => if call.request.Login? then SessionStep(s, newId, call) else call
    case AtBind | AtBurn | AtStore => if call.request.ProveClaim? then ProveStep(s, id, call) else call
    case AtSink => if Mounted(s, call) then call.(pc := Ready) else Close(call)
    case Ready | Closed => call
  }

  // ---------------------------------------------------------------- the system

  function SetCall(s: State, id: nat, call: Call): State
    requires id < |s.calls|
  {
    s.(calls := s.calls[id := call])
  }

  /** proofSink runs inside the transaction, just before commit. */
  ghost function StepCall(s: State, id: nat, newId: nat): State
    requires id < |s.calls|
  {
    var call := s.calls[id];
    var s' := SetCall(s, id, Advance(s, id, newId));
    if call.pc == AtSink && Mounted(s, call) then
      var h := call.request.holder;
      s'.(holders := s.holders[h := AddTo(s.holders[h], call.request.claim, call.policy.kind)])
    else s'
  }

  /** A one-shot claim whose grant is already in the holder while its burn is not yet committed. */
  predicate Sunk(call: Call) {
    call.pc == Ready && call.request.ProveClaim? && call.policy.kind == OneShot
  }

  function CommitCall(s: State, id: nat): State
    requires id < |s.calls| && s.calls[id].pc == Ready && s.calls[id].request.token in s.calls[id].writes.challenges
  {
    var call := s.calls[id];
    SetCall(s, id, Close(call)).(
      db := View(s.db, call.writes),
      log := s.log + [Success(id, call.writes.challenges[call.request.token].serial, call.request, call.policy,
                             call.started, call.user, call.sid)])
  }

  function FailCall(s: State, id: nat): State
    requires id < |s.calls|
  {
    var call := s.calls[id];
    SetCall(s, id, Close(call)).(
      leaked := s.leaked + if Sunk(call) then multiset{call.request.claim} else multiset{})
  }

  function Unexpired(challenges: map<nat, Challenge>, now: int): map<nat, Challenge> {
    map t | t in challenges && challenges[t].expires >= now :: challenges[t]
  }

  /** issueChallengeSQL: expired rows are deleted, and the delete waits for any that is being consumed. */
  ghost function Issue(s: State, token: nat, session: Option<nat>, purpose: Purpose): State {
    var kept := Unexpired(s.db.challenges, s.clock);
    if token in kept || exists k :: k in s.db.challenges && k !in kept && ChallengeLocked(s.calls, |s.calls|, k) then s
    else
      var row := Challenge(|s.issued|, session, purpose, s.clock + CHALLENGE_TTL, None);
      s.(db := s.db.(challenges := kept[token := row]), issued := s.issued + [row])
  }

  /** The claims stored for the session a request comes from; none for an anonymous one. */
  function ClaimsOf(db: Db, caller: Option<nat>): set<string> {
    match caller
    case None => {}
    case Some(sid) => set row | row in db.sessionClaims && row.0 == sid :: row.1
  }

  /** One step of the system. An action that is not enabled changes nothing. */
  ghost function Next(s: State, a: Action): State {
    match a
    case Tick(elapsed) => s.(clock := s.clock + elapsed)
    case OpenRequest(caller, loadFailed) =>
      var names := if loadFailed then {} else ClaimsOf(s.db, caller);
      s.(holders := s.holders + [Grants(names, multiset{}, loadFailed)])
    case Submit(request) => s.(calls := s.calls + [Call(request, AtPolicy, NO_POLICY, 0, 0, 0, NO_WRITES)])
    case Step(id, newId) => if id < |s.calls| then StepCall(s, id, newId) else s
    case Commit(id) =>
      if id < |s.calls| && s.calls[id].pc == Ready && s.calls[id].request.token in s.calls[id].writes.challenges
      then CommitCall(s, id) else s
    case Fail(id) => if id < |s.calls| then FailCall(s, id) else s
    case IssueChallenge(token, session, purpose) => Issue(s, token, session, purpose)
    case SetPolicy(claim, policy) => s.(db := s.db.(policies := s.db.policies[claim := policy]))
    case Register(uid, email) =>
      if UserIdUsed(s, uid) || EmailTaken(s.db.users, email) || EmailLocked(s.calls, |s.calls|, email) then s
      else s.(db := s.db.(users := s.db.users[uid := User(email, false)]), registered := s.registered + {uid})
    case SoftDelete(uid) =>
      if uid !in s.db.users then s
      else s.(db := s.db.(users := s.db.users[uid := s.db.users[uid].(deleted := true)]))
    case SetGrace(grace) => s.(grace := grace)
    case TreeCommit(roots) => s.(db := s.db.(roots := roots))
    case OpenSession(sid, uid) =>
      if SessionIdUsed(s, sid) || uid !in s.db.users || s.db.users[uid].deleted then s
      else s.(db := s.db.(sessions := s.db.sessions[sid := uid]), outside := s.outside[sid := uid])
    case EndSession(sid) => s.(db := s.db.(sessions := s.db.sessions - {sid}))
    case UseProofs(h, claims) =>
      if h >= |s.holders| then s
      else s.(holders := s.holders[h := ProofsOn(s.holders[h], claims).1],
              consumed := s.consumed + Spent(s.holders[h], claims))
  }

  ghost function Run(actions: seq<Action>): State {
    if actions == [] then START else Next(Run(actions[..|actions| - 1]), actions[|actions| - 1])
  }

  lemma RunStep(front: seq<Action>, a: Action)
    ensures Run(front + [a]) == Next(Run(front), a)
  {
    assert (front + [a])[..|front|] == front;
    hide Next;
  }
}
