/** Where each success comes from: its submission, the policy it was verified under, the root that was accepted, the
  * session it stepped up, the challenge it used.
  *
  * A moment of a run is the number k of an action; `Run(actions[..k])` is the state that action acts on.
  */
module Provenance {
  import opened Hashing
  import opened ClaimHolder
  import opened Protocol
  import Tokens
  import opened ProtocolSafety
  import opened ProtocolTheorems

  predicate PolicyIs(db: Db, claim: string, policy: Policy) {
    claim in db.policies && db.policies[claim] == policy
  }

  predicate SessionIs(db: Db, sid: nat, uid: nat) {
    sid in db.sessions && db.sessions[sid] == uid
  }

  /** Action k submits the request as call `id`. */
  ghost predicate Submits(actions: seq<Action>, k: nat, id: nat, request: Request) {
    k < |actions| && actions[k] == Submit(request) && |Run(actions[..k]).calls| == id
  }

  /** Action k is the statement of call `id` at this step of its request. */
  ghost predicate StepsAt(actions: seq<Action>, k: nat, id: nat, request: Request, pc: Pc) {
    && k < |actions| && actions[k].Step? && actions[k].id == id
    && id < |Run(actions[..k]).calls|
    && Run(actions[..k]).calls[id].request == request && Run(actions[..k]).calls[id].pc == pc
  }

  /** ... its root and nullifier being canonical, reading this policy of its claim, no later than `until`. */
  ghost predicate ReadsPolicy(actions: seq<Action>, k: nat, id: nat, request: Request, policy: Policy, until: int) {
    && StepsAt(actions, k, id, request, AtPolicy) && !request.VerifyKnowledge?
    && Tokens.ParseField(request.root).Some? && Tokens.ParseField(request.nullifier).Some?
    && PolicyIs(Run(actions[..k]).db, request.claim, policy) && Run(actions[..k]).clock <= until
  }

  /** ... finding its root accepted, no later than `until`. */
  ghost predicate ChecksRoot(actions: seq<Action>, k: nat, id: nat, request: Request, until: int) {
    && StepsAt(actions, k, id, request, AtRoot) && !request.VerifyKnowledge?
    && RootAccepted(Run(actions[..k]), request.root) && Run(actions[..k]).clock <= until
  }

  predicate Fresh(s: State, request: Request) {
    && request.token in s.db.challenges && s.db.challenges[request.token].consumedAt.None?
    && s.clock < s.db.challenges[request.token].expires
    && Answers(request, s.db.challenges[request.token].purpose, s.db.challenges[request.token].session)
  }

  /** ... finding its challenge unconsumed, unexpired, and of its kind and session, no later than `until`. */
  ghost predicate PeeksChallenge(actions: seq<Action>, k: nat, id: nat, request: Request, until: int) {
    && StepsAt(actions, k, id, request, AtPeek) && Fresh(Run(actions[..k]), request)
    && Run(actions[..k]).clock <= until
  }

  /** ... recording MFA for its session, live and of its account, no earlier than `since`. */
  ghost predicate StepsUp(actions: seq<Action>, k: nat, id: nat, request: Request, since: int) {
    && StepsAt(actions, k, id, request, AtMfa) && request.VerifyKnowledge?
    && SessionIs(Run(actions[..k]).db, request.sid, request.uid) && since <= Run(actions[..k]).clock
  }

  ghost predicate PolicyRead(actions: seq<Action>, id: nat, request: Request, policy: Policy, until: int) {
    exists k: nat :: ReadsPolicy(actions, k, id, request, policy, until)
  }

  ghost predicate RootChecked(actions: seq<Action>, id: nat, request: Request, until: int) {
    exists k: nat :: ChecksRoot(actions, k, id, request, until)
  }

  ghost predicate ChallengePeeked(actions: seq<Action>, id: nat, request: Request, until: int) {
    exists k: nat :: PeeksChallenge(actions, k, id, request, until)
  }

  ghost predicate SteppedUp(actions: seq<Action>, id: nat, request: Request, since: int) {
    exists k: nat :: StepsUp(actions, k, id, request, since)
  }

  // ---------------------------------------------------------------- what calls owe

  predicate Begun(call: Call) {
    call.pc !in {AtPolicy, AtRoot, AtPeek, AtVerify, AtBegin, Closed}
  }

  /** Reads made before the transaction are no later than its start, or than now while it has not started. */
  function Bound(clock: int, call: Call): int {
    if Begun(call) then call.started else clock
  }

  ghost predicate CallVouched(actions: seq<Action>, clock: int, id: nat, call: Call) {
    && (Begun(call) ==> call.started <= clock)
    && (if call.request.VerifyKnowledge? then
          call.pc == Ready ==> SteppedUp(actions, id, call.request, call.started)
        else
          && (call.pc !in {AtPolicy, Closed} ==> PolicyRead(actions, id, call.request, call.policy, Bound(clock, call)))
          && (call.pc !in {AtPolicy, AtRoot, Closed} ==> RootChecked(actions, id, call.request, Bound(clock, call))))
  }

  ghost predicate Vouched(actions: seq<Action>, e: Success) {
    if e.request.VerifyKnowledge? then SteppedUp(actions, e.id, e.request, e.started)
    else
      PolicyRead(actions, e.id, e.request, e.policy, e.started) && RootChecked(actions, e.id, e.request, e.started)
  }

  ghost predicate AllVouched(actions: seq<Action>, s: State) {
    && (forall j: nat :: j < |s.calls| ==> CallVouched(actions, s.clock, j, s.calls[j]))
    && (forall a: nat :: a < |s.log| ==> Vouched(actions, s.log[a]))
  }

  // ---------------------------------------------------------------- moments stay

  lemma PrefixStays(front: seq<Action>, last: Action, k: nat)
    requires k < |front|
    ensures (front + [last])[..k] == front[..k] && (front + [last])[k] == front[k]
  {
  }

  lemma PolicyStays(
    front: seq<Action>, last: Action, id: nat, request: Request, policy: Policy, until: int, until': int)
    requires PolicyRead(front, id, request, policy, until) && until <= until'
    ensures PolicyRead(front + [last], id, request, policy, until')
  {
    hide Run, PolicyIs;
    var k: nat :| ReadsPolicy(front, k, id, request, policy, until);
    PrefixStays(front, last, k);
    assert ReadsPolicy(front + [last], k, id, request, policy, until');
  }

  lemma RootStays(front: seq<Action>, last: Action, id: nat, request: Request, until: int, until': int)
    requires RootChecked(front, id, request, until) && until <= until'
    ensures RootChecked(front + [last], id, request, until')
  {
    hide Run, RootAccepted;
    var k: nat :| ChecksRoot(front, k, id, request, until);
    PrefixStays(front, last, k);
    assert ChecksRoot(front + [last], k, id, request, until');
  }

  lemma StepUpStays(front: seq<Action>, last: Action, id: nat, request: Request, since: int)
    requires SteppedUp(front, id, request, since)
    ensures SteppedUp(front + [last], id, request, since)
  {
    hide Run, SessionIs;
    var k: nat :| StepsUp(front, k, id, request, since);
    PrefixStays(front, last, k);
    assert StepsUp(front + [last], k, id, request, since);
  }

  lemma CallStays(front: seq<Action>, last: Action, clock: int, clock': int, id: nat, call: Call)
    requires CallVouched(front, clock, id, call) && clock <= clock'
    ensures CallVouched(front + [last], clock', id, call)
  {
    hide PolicyRead, RootChecked, SteppedUp;
    if call.request.VerifyKnowledge? {
      if call.pc == Ready {
        StepUpStays(front, last, id, call.request, call.started);
      }
    } else if call.pc !in {AtPolicy, Closed} {
      PolicyStays(front, last, id, call.request, call.policy, Bound(clock, call), Bound(clock', call));
      if call.pc != AtRoot {
        RootStays(front, last, id, call.request, Bound(clock, call), Bound(clock', call));
      }
    }
  }

  lemma SuccessStays(front: seq<Action>, last: Action, e: Success)
    requires Vouched(front, e)
    ensures Vouched(front + [last], e)
  {
    hide PolicyRead, RootChecked, SteppedUp;
    if e.request.VerifyKnowledge? {
      StepUpStays(front, last, e.id, e.request, e.started);
    } else {
      PolicyStays(front, last, e.id, e.request, e.policy, e.started, e.started);
      RootStays(front, last, e.id, e.request, e.started, e.started);
    }
  }

  // ---------------------------------------------------------------- every step keeps it

  /** The three statements that make a call owe less: what each has just seen. */
  lemma SeenNow(front: seq<Action>, id: nat, newId: nat)
    requires id < |Run(front).calls|
    ensures var s, actions := Run(front), front + [Step(id, newId)];
            var call := s.calls[id];
            && (!call.request.VerifyKnowledge? && call.pc == AtPolicy && WellFormed(call.request)
                && call.request.claim in s.db.policies ==>
                  PolicyRead(actions, id, call.request, s.db.policies[call.request.claim], s.clock))
            && (!call.request.VerifyKnowledge? && call.pc == AtRoot && RootAccepted(s, call.request.root) ==>
                  RootChecked(actions, id, call.request, s.clock))
            && (call.request.VerifyKnowledge? && call.pc == AtMfa
                && SessionIs(s.db, call.request.sid, call.request.uid) ==>
                  forall since :: since <= s.clock ==> SteppedUp(actions, id, call.request, since))
  {
    hide Run, RootAccepted;
    var s, actions := Run(front), front + [Step(id, newId)];
    var call, k := s.calls[id], |front|;
    assert actions[..k] == front && actions[k] == Step(id, newId);
    assert StepsAt(actions, k, id, call.request, call.pc);
    if !call.request.VerifyKnowledge? && call.pc == AtPolicy && WellFormed(call.request)
       && call.request.claim in s.db.policies {
      assert ReadsPolicy(actions, k, id, call.request, s.db.policies[call.request.claim], s.clock);
    }
    if !call.request.VerifyKnowledge? && call.pc == AtRoot && RootAccepted(s, call.request.root) {
      assert ChecksRoot(actions, k, id, call.request, s.clock);
    }
    if call.request.VerifyKnowledge? && call.pc == AtMfa && SessionIs(s.db, call.request.sid, call.request.uid) {
      forall since | since <= s.clock
        ensures SteppedUp(actions, id, call.request, since)
      {
        assert StepsUp(actions, k, id, call.request, since);
      }
    }
  }

  /** How a statement moves a call, as far as what it owes is concerned. */
  lemma AdvanceOwes(s: State, id: nat, newId: nat)
    requires id < |s.calls|
    ensures var call, call' := s.calls[id], Advance(s, id, newId);
            && call'.request == call.request
            && (call' != call && !call.request.VerifyKnowledge? && call'.pc != Closed ==>
                  if call.pc == AtPolicy then
                    && call'.pc == AtRoot && WellFormed(call.request) && call.request.claim in s.db.policies
                    && call'.policy == s.db.policies[call.request.claim]
                  else
                    call'.policy == call.policy && call.pc != Closed && call'.pc != AtPolicy && call'.pc != AtRoot
                    && (call.pc == AtRoot ==> RootAccepted(s, call.request.root) && !Begun(call')))
            && (call' != call && call.request.VerifyKnowledge? && call'.pc == Ready ==>
                  && call.pc == AtMfa && SessionIs(s.db, call.request.sid, call.request.uid)
                  && call'.started == call.started)
            && (Begun(call') ==> if Begun(call) then call'.started == call.started else call'.started == s.clock)
  {
    hide WellFormed, View, Usable, Resolve, EmailTaken, ChallengeLocked, NullifierLocked, EmailLocked, UserIdUsed;
    hide SessionIdUsed, LoginSessions, RootAccepted;
  }

  lemma PolicyJustRead(actions: seq<Action>, clock: int, id: nat, call: Call)
    requires !call.request.VerifyKnowledge? && call.pc == AtRoot
    requires PolicyRead(actions, id, call.request, call.policy, clock)
    ensures CallVouched(actions, clock, id, call)
  {
    hide PolicyRead, RootChecked, SteppedUp;
  }

  lemma NothingOwed(actions: seq<Action>, clock: int, id: nat, call: Call)
    requires !call.request.VerifyKnowledge? && call.pc == Closed
    ensures CallVouched(actions, clock, id, call)
  {
    hide PolicyRead, RootChecked, SteppedUp;
  }

  lemma StepUpMoved(actions: seq<Action>, clock: int, id: nat, call: Call, call': Call)
    requires CallVouched(actions, clock, id, call) && call'.request == call.request && call.request.VerifyKnowledge?
    requires call' != call && call'.pc == Ready ==>
               call.pc == AtMfa && call'.started == call.started
               && forall since :: since <= clock ==> SteppedUp(actions, id, call.request, since)
    requires Begun(call') ==> if Begun(call) then call'.started == call.started else call'.started == clock
    ensures CallVouched(actions, clock, id, call')
  {
    hide PolicyRead, RootChecked, SteppedUp;
  }

  lemma PolicyLater(actions: seq<Action>, id: nat, request: Request, policy: Policy, until: int, until': int)
    requires PolicyRead(actions, id, request, policy, until) && until <= until'
    ensures PolicyRead(actions, id, request, policy, until')
  {
    hide StepsAt, PolicyIs, Run;
    var k: nat :| ReadsPolicy(actions, k, id, request, policy, until);
    assert ReadsPolicy(actions, k, id, request, policy, until');
  }

  lemma RootLater(actions: seq<Action>, id: nat, request: Request, until: int, until': int)
    requires RootChecked(actions, id, request, until) && until <= until'
    ensures RootChecked(actions, id, request, until')
  {
    hide StepsAt, RootAccepted, Run;
    var k: nat :| ChecksRoot(actions, k, id, request, until);
    assert ChecksRoot(actions, k, id, request, until');
  }

  /** A call that only moves on keeps what it owes. */
  lemma MovedVouched(actions: seq<Action>, clock: int, id: nat, call: Call, call': Call)
    requires CallVouched(actions, clock, id, call) && call'.request == call.request && !call.request.VerifyKnowledge?
    requires call'.pc != Closed && call'.policy == call.policy && call.pc !in {Closed, AtPolicy}
    requires call'.pc !in {AtPolicy, AtRoot}
    requires call.pc == AtRoot ==> RootChecked(actions, id, call.request, clock) && !Begun(call')
    requires Begun(call') ==> if Begun(call) then call'.started == call.started else call'.started == clock
    ensures CallVouched(actions, clock, id, call')
  {
    hide PolicyRead, RootChecked, SteppedUp;
    PolicyLater(actions, id, call.request, call.policy, Bound(clock, call), clock);
    if call.pc != AtRoot {
      RootLater(actions, id, call.request, Bound(clock, call), clock);
    }
  }

  lemma AdvanceVouched(front: seq<Action>, id: nat, newId: nat)
    requires id < |Run(front).calls| && CallVouched(front, Run(front).clock, id, Run(front).calls[id])
    ensures CallVouched(front + [Step(id, newId)], Run(front).clock, id, Advance(Run(front), id, newId))
  {
    hide Run, Advance, PolicyRead, RootChecked, SteppedUp, RootAccepted, CallVouched;
    var s, actions := Run(front), front + [Step(id, newId)];
    var call, call' := s.calls[id], Advance(s, id, newId);
    CallStays(front, Step(id, newId), s.clock, s.clock, id, call);
    AdvanceOwes(s, id, newId);
    SeenNow(front, id, newId);
    if call.request.VerifyKnowledge? {
      StepUpMoved(actions, s.clock, id, call, call');
    } else if call' != call && call'.pc != Closed {
      if call.pc == AtPolicy {
        PolicyJustRead(actions, s.clock, id, call');
      } else {
        MovedVouched(actions, s.clock, id, call, call');
      }
    } else if call' != call {
      NothingOwed(actions, s.clock, id, call');
    }
  }

  lemma AllStay(front: seq<Action>, last: Action, s: State, clock: int)
    requires AllVouched(front, s) && s.clock <= clock
    ensures AllVouched(front + [last], s.(clock := clock))
  {
    hide CallVouched, Vouched;
    forall j: nat | j < |s.calls|
      ensures CallVouched(front + [last], clock, j, s.calls[j])
    {
      CallStays(front, last, s.clock, clock, j, s.calls[j]);
    }
    forall a: nat | a < |s.log|
      ensures Vouched(front + [last], s.log[a])
    {
      SuccessStays(front, last, s.log[a]);
    }
  }

  lemma StepVouched(front: seq<Action>, id: nat, newId: nat)
    requires AllVouched(front, Run(front)) && id < |Run(front).calls|
    ensures AllVouched(front + [Step(id, newId)], StepCall(Run(front), id, newId))
  {
    var s := Run(front);
    hide Run, Advance, CallVouched, Vouched;
    AllStay(front, Step(id, newId), s, s.clock);
    AdvanceVouched(front, id, newId);
  }

  lemma ReadyVouched(actions: seq<Action>, clock: int, id: nat, call: Call, e: Success)
    requires CallVouched(actions, clock, id, call) && call.pc == Ready
    requires e.id == id && e.request == call.request && e.policy == call.policy && e.started == call.started
    ensures Vouched(actions, e)
  {
    hide PolicyRead, RootChecked, SteppedUp;
  }

  lemma ClosedVouched(actions: seq<Action>, clock: int, id: nat, call: Call)
    ensures CallVouched(actions, clock, id, Close(call))
  {
    hide PolicyRead, RootChecked, SteppedUp;
  }

  lemma CommitVouched(actions: seq<Action>, s: State, id: nat)
    requires AllVouched(actions, s) && id < |s.calls| && s.calls[id].pc == Ready
    requires s.calls[id].request.token in s.calls[id].writes.challenges
    ensures AllVouched(actions, CommitCall(s, id))
  {
    hide CallVouched, Vouched, View, Close;
    ClosedVouched(actions, s.clock, id, s.calls[id]);
    ReadyVouched(actions, s.clock, id, s.calls[id], CommitCall(s, id).log[|s.log|]);
  }

  lemma FailVouched(actions: seq<Action>, s: State, id: nat)
    requires AllVouched(actions, s) && id < |s.calls|
    ensures AllVouched(actions, FailCall(s, id))
  {
    hide CallVouched, Vouched, Close;
    ClosedVouched(actions, s.clock, id, s.calls[id]);
  }

  lemma SubmitVouched(actions: seq<Action>, s: State, request: Request)
    requires AllVouched(actions, s)
    ensures AllVouched(actions, Next(s, Submit(request)))
  {
    assert CallVouched(actions, s.clock, |s.calls|, Call(request, AtPolicy, NO_POLICY, 0, 0, 0, NO_WRITES));
    hide CallVouched, Vouched;
  }

  lemma SameCallsVouched(actions: seq<Action>, s: State, s': State)
    requires AllVouched(actions, s) && s'.calls == s.calls && s'.log == s.log && s'.clock == s.clock
    ensures AllVouched(actions, s')
  {
    hide CallVouched, Vouched;
  }

  lemma NextVouched(front: seq<Action>, last: Action)
    requires AllVouched(front, Run(front))
    ensures AllVouched(front + [last], Next(Run(front), last))
  {
    hide Run, AllVouched, StepCall, CommitCall, FailCall, ProofsOn, Spent, ChallengeLocked, EmailTaken, UserIdUsed;
    hide EmailLocked, SessionIdUsed, Unexpired;
    var s, actions := Run(front), front + [last];
    AllStay(front, last, s, s.clock);
    match last
    case Tick(elapsed) => AllStay(front, last, s, s.clock + elapsed);
    case Step(id, newId) =>
      if id < |s.calls| {
        StepVouched(front, id, newId);
      }
    case Commit(id) =>
      if id < |s.calls| && s.calls[id].pc == Ready && s.calls[id].request.token in s.calls[id].writes.challenges {
        CommitVouched(actions, s, id);
      }
    case Fail(id) =>
      if id < |s.calls| {
        FailVouched(actions, s, id);
      }
    case Submit(request) => SubmitVouched(actions, s, request);
    case _ => SameCallsVouched(actions, s, Next(s, last));
  }

  lemma NothingVouched()
    ensures AllVouched([], START)
  {
  }

  lemma {:induction false} RunVouched(actions: seq<Action>)
    ensures AllVouched(actions, Run(actions))
  {
    hide AllVouched, Next;
    if actions == [] {
      NothingVouched();
    } else {
      var front, last := actions[..|actions| - 1], actions[|actions| - 1];
      RunVouched(front);
      NextVouched(front, last);
      assert actions == front + [last];
    }
  }

  // ---------------------------------------------------------------- submissions

  lemma NextCalls(s: State, a: Action)
    ensures var s' := Next(s, a);
            && |s.calls| <= |s'.calls| && s.clock <= s'.clock
            && (forall id: nat :: id < |s.calls| ==> s'.calls[id].request == s.calls[id].request)
            && (forall id: nat :: |s.calls| <= id < |s'.calls| ==> id == |s.calls| && a == Submit(s'.calls[id].request))
  {
    hide Advance, View, ProofsOn, Spent, ChallengeLocked, EmailTaken, UserIdUsed, EmailLocked, SessionIdUsed, Unexpired;
    if a.Step? && a.id < |s.calls| {
      AdvanceOwes(s, a.id, a.newId);
    }
  }

  /** Calls are never lost and time never runs back. */
  lemma {:induction false} RunGrows(actions: seq<Action>, j: nat, k: nat)
    requires j <= k <= |actions|
    ensures |Run(actions[..j]).calls| <= |Run(actions[..k]).calls| && Run(actions[..j]).clock <= Run(actions[..k]).clock
    decreases k
  {
    hide Next;
    if j < k {
      RunGrows(actions, j, k - 1);
      assert actions[..k][..k - 1] == actions[..k - 1];
      NextCalls(Run(actions[..k - 1]), actions[k - 1]);
    }
  }

  lemma {:induction false} CallsAreSubmitted(actions: seq<Action>, id: nat)
    requires id < |Run(actions).calls|
    ensures exists j: nat :: Submits(actions, j, id, Run(actions).calls[id].request)
  {
    if actions != [] {
      var front, last := actions[..|actions| - 1], actions[|actions| - 1];
      NextCalls(Run(front), last);
      hide Next;
      assert actions == front + [last];
      var request := Run(actions).calls[id].request;
      if id < |Run(front).calls| {
        CallsAreSubmitted(front, id);
        var j: nat :| Submits(front, j, id, request);
        PrefixStays(front, last, j);
        assert Submits(actions, j, id, request);
      } else {
        assert actions[..|front|] == front;
        assert Submits(actions, |front|, id, request);
      }
    }
  }

  /** A call takes its steps after its submission. */
  lemma SubmittedBefore(actions: seq<Action>, j: nat, k: nat, id: nat, request: Request, pc: Pc)
    requires Submits(actions, j, id, request) && StepsAt(actions, k, id, request, pc)
    ensures j < k
  {
    hide Run;
    if k <= j {
      RunGrows(actions, k, j);
      assert false;
    }
  }

  lemma SubmittedBeforeCheck(actions: seq<Action>, j: nat, k: nat, id: nat, request: Request, until: int)
    requires Submits(actions, j, id, request) && ChecksRoot(actions, k, id, request, until)
    ensures j < k < |actions|
  {
    hide Run, RootAccepted;
    SubmittedBefore(actions, j, k, id, request, AtRoot);
  }

  lemma StepSubmitted(actions: seq<Action>, k: nat, id: nat, request: Request, pc: Pc)
    requires StepsAt(actions, k, id, request, pc)
    ensures exists j: nat :: j < k && Submits(actions, j, id, request)
  {
    hide Run;
    CallsAreSubmitted(actions[..k], id);
    var j: nat :| Submits(actions[..k], j, id, request);
    assert actions[..k][..j] == actions[..j];
    assert Submits(actions, j, id, request);
  }

  /** Every committed Login or ProveClaim was submitted, and between its submission and the start of its transaction
    * read from the tables the policy it was verified under, and found its root accepted. Every committed
    * VerifyKnowledge was submitted, and inside its transaction found its session live and its caller's. */
  lemma SuccessesAreVouched(actions: seq<Action>, a: nat)
    requires a < |Run(actions).log|
    ensures var e := Run(actions).log[a];
            exists j: nat :: Submits(actions, j, e.id, e.request) &&
              if e.request.VerifyKnowledge? then
                exists k: nat :: j < k && StepsUp(actions, k, e.id, e.request, e.started)
              else
                && (exists k: nat :: j < k && ReadsPolicy(actions, k, e.id, e.request, e.policy, e.started))
                && (exists k: nat :: j < k && ChecksRoot(actions, k, e.id, e.request, e.started))
  {
    RunVouched(actions);
    hide Run, StepsAt, Submits, PolicyIs, SessionIs, RootAccepted;
    var e := Run(actions).log[a];
    assert Vouched(actions, e);
    if e.request.VerifyKnowledge? {
      var k: nat :| StepsUp(actions, k, e.id, e.request, e.started);
      StepSubmitted(actions, k, e.id, e.request, AtMfa);
    } else {
      var k: nat :| ReadsPolicy(actions, k, e.id, e.request, e.policy, e.started);
      var l: nat :| ChecksRoot(actions, l, e.id, e.request, e.started);
      StepSubmitted(actions, k, e.id, e.request, AtPolicy);
      var j: nat :| j < k && Submits(actions, j, e.id, e.request);
      SubmittedBefore(actions, j, l, e.id, e.request, AtRoot);
    }
  }

  // ---------------------------------------------------------------- challenges

  /** Action j issued the k-th challenge row of the run. */
  ghost predicate Issues(actions: seq<Action>, j: nat, k: nat)
    requires j < |actions|
  {
    |Run(actions[..j]).issued| == k && actions[j].IssueChallenge?
  }

  ghost predicate IssuedBy(actions: seq<Action>, j: nat, k: nat, row: Challenge)
    requires j < |actions|
  {
    && Issues(actions, j, k)
    && row.expires == Run(actions[..j]).clock + CHALLENGE_TTL
    && row.purpose == actions[j].purpose && row.session == actions[j].session
  }

  lemma NextIssues(s: State, a: Action)
    ensures var s' := Next(s, a);
            || s'.issued == s.issued
            || (a.IssueChallenge?
                && s'.issued == s.issued + [Challenge(|s.issued|, a.session, a.purpose, s.clock + CHALLENGE_TTL, None)])
  {
    hide Advance, ChallengeLocked, EmailLocked, UserIdUsed, EmailTaken, SessionIdUsed, View, ProofsOn, Spent, Unexpired;
  }

  lemma {:induction false} RowsAreIssued(actions: seq<Action>, k: nat)
    requires k < |Run(actions).issued|
    ensures exists j: nat :: j < |actions| && IssuedBy(actions, j, k, Run(actions).issued[k])
  {
    if actions != [] {
      var front, last := actions[..|actions| - 1], |actions| - 1;
      var s := Run(front);
      NextIssues(s, actions[last]);
      hide Next;
      assert actions[..last] == front;
      if k < |s.issued| {
        RowsAreIssued(front, k);
        var j: nat :| j < |front| && IssuedBy(front, j, k, s.issued[k]);
        assert front[..j] == actions[..j];
        assert IssuedBy(actions, j, k, Run(actions).issued[k]);
      } else {
        assert IssuedBy(actions, last, k, Run(actions).issued[k]);
      }
    }
  }

  /** Every success used a challenge that was issued for its purpose and session, less than the challenge's lifetime
    * before its transaction began. */
  lemma SuccessesAreTimely(actions: seq<Action>, a: nat)
    requires a < |Run(actions).log|
    ensures var e := Run(actions).log[a];
            exists j: nat :: j < |actions| && Issues(actions, j, e.serial)
              && Answers(e.request, actions[j].purpose, actions[j].session)
              && e.started < Run(actions[..j]).clock + CHALLENGE_TTL
  {
    ChallengesAreSingleUse(actions);
    hide Run, Backs;
    var e := Run(actions).log[a];
    RowsAreIssued(actions, e.serial);
    var j: nat :| j < |actions| && IssuedBy(actions, j, e.serial, Run(actions).issued[e.serial]);
    assert Earned(Run(actions).issued[e.serial], e);
    AnswersIff(e.request, actions[j].purpose, actions[j].session);
  }

  // ---------------------------------------------------------------- the peek

  ghost predicate CallPeeked(actions: seq<Action>, clock: int, id: nat, call: Call) {
    call.pc !in {AtPolicy, AtRoot, AtPeek, Closed} ==>
      ChallengePeeked(actions, id, call.request, Bound(clock, call))
  }

  ghost predicate AllPeeked(actions: seq<Action>, s: State) {
    && (forall j: nat :: j < |s.calls| ==> CallPeeked(actions, s.clock, j, s.calls[j]))
    && (forall a: nat :: a < |s.log| ==> ChallengePeeked(actions, s.log[a].id, s.log[a].request, s.log[a].started))
  }

  lemma PeekStays(front: seq<Action>, last: Action, id: nat, request: Request, until: int, until': int)
    requires ChallengePeeked(front, id, request, until) && until <= until'
    ensures ChallengePeeked(front + [last], id, request, until')
  {
    hide Run, Fresh;
    var k: nat :| PeeksChallenge(front, k, id, request, until);
    PrefixStays(front, last, k);
    assert PeeksChallenge(front + [last], k, id, request, until');
  }

  lemma PeekNow(front: seq<Action>, id: nat, newId: nat)
    requires id < |Run(front).calls| && Run(front).calls[id].pc == AtPeek
    requires Fresh(Run(front), Run(front).calls[id].request)
    ensures ChallengePeeked(front + [Step(id, newId)], id, Run(front).calls[id].request, Run(front).clock)
  {
    hide Run, Fresh;
    var actions := front + [Step(id, newId)];
    assert actions[..|front|] == front;
    assert PeeksChallenge(actions, |front|, id, Run(front).calls[id].request, Run(front).clock);
  }

  lemma FreshIff(s: State, request: Request)
    ensures Fresh(s, request) <==> Usable(s.db.challenges, request, s.clock)
  {
  }

  /** Only a fresh challenge lets a call past its peek. */
  lemma AdvancePeeks(s: State, id: nat, newId: nat)
    requires id < |s.calls|
    ensures var call, call' := s.calls[id], Advance(s, id, newId);
            call'.pc !in {AtPolicy, AtRoot, AtPeek, Closed} ==>
              call.pc !in {AtPolicy, AtRoot, AtPeek, Closed} || (call.pc == AtPeek && Fresh(s, call.request))
  {
    FreshIff(s, s.calls[id].request);
    hide WellFormed, View, Usable, Fresh, Resolve, EmailTaken, ChallengeLocked, NullifierLocked, EmailLocked;
    hide UserIdUsed, SessionIdUsed, LoginSessions, RootAccepted;
  }

  lemma BeforeBegin(s: State, id: nat, newId: nat)
    requires id < |s.calls| && s.calls[id].pc == AtPeek
    ensures !Begun(Advance(s, id, newId))
  {
    hide Usable;
  }

  lemma AllStayPeeked(front: seq<Action>, last: Action, s: State, clock: int)
    requires AllPeeked(front, s) && s.clock <= clock
    ensures AllPeeked(front + [last], s.(clock := clock))
  {
    hide ChallengePeeked;
    forall j: nat | j < |s.calls|
      ensures CallPeeked(front + [last], clock, j, s.calls[j])
    {
      if s.calls[j].pc !in {AtPolicy, AtRoot, AtPeek, Closed} {
        PeekStays(front, last, j, s.calls[j].request, Bound(s.clock, s.calls[j]), Bound(clock, s.calls[j]));
      }
    }
    forall a: nat | a < |s.log|
      ensures ChallengePeeked(front + [last], s.log[a].id, s.log[a].request, s.log[a].started)
    {
      PeekStays(front, last, s.log[a].id, s.log[a].request, s.log[a].started, s.log[a].started);
    }
  }

  lemma BegunInPast(actions: seq<Action>, s: State)
    requires AllVouched(actions, s)
    ensures forall j: nat :: j < |s.calls| && Begun(s.calls[j]) ==> s.calls[j].started <= s.clock
  {
    forall j: nat | j < |s.calls| && Begun(s.calls[j])
      ensures s.calls[j].started <= s.clock
    {
      assert CallVouched(actions, s.clock, j, s.calls[j]);
    }
    hide Vouched;
  }

  lemma StepPeeked(front: seq<Action>, id: nat, newId: nat)
    requires AllPeeked(front, Run(front)) && AllVouched(front, Run(front)) && id < |Run(front).calls|
    ensures AllPeeked(front + [Step(id, newId)], StepCall(Run(front), id, newId))
  {
    hide Run, Advance, ChallengePeeked, Fresh, AllVouched;
    BegunInPast(front, Run(front));
    var s, actions := Run(front), front + [Step(id, newId)];
    var call, call' := s.calls[id], Advance(s, id, newId);
    AllStayPeeked(front, Step(id, newId), s, s.clock);
    AdvanceOwes(s, id, newId);
    AdvancePeeks(s, id, newId);
    if call'.pc !in {AtPolicy, AtRoot, AtPeek, Closed} {
      if call.pc == AtPeek {
        PeekNow(front, id, newId);
        BeforeBegin(s, id, newId);
      } else {
        PeekStays(front, Step(id, newId), id, call.request, Bound(s.clock, call), Bound(s.clock, call'));
      }
    }
  }

  lemma CommitPeeked(actions: seq<Action>, s: State, id: nat)
    requires AllPeeked(actions, s) && id < |s.calls| && s.calls[id].pc == Ready
    requires s.calls[id].request.token in s.calls[id].writes.challenges
    ensures AllPeeked(actions, CommitCall(s, id))
  {
    assert CallPeeked(actions, s.clock, id, Close(s.calls[id]));
    assert ChallengePeeked(actions, id, s.calls[id].request, s.calls[id].started);
    hide ChallengePeeked, View, Close;
  }

  lemma FailPeeked(actions: seq<Action>, s: State, id: nat)
    requires AllPeeked(actions, s) && id < |s.calls|
    ensures AllPeeked(actions, FailCall(s, id))
  {
    assert CallPeeked(actions, s.clock, id, Close(s.calls[id]));
    hide CallPeeked, ChallengePeeked, Close;
  }

  lemma SubmitPeeked(actions: seq<Action>, s: State, request: Request)
    requires AllPeeked(actions, s)
    ensures AllPeeked(actions, Next(s, Submit(request)))
  {
    assert CallPeeked(actions, s.clock, |s.calls|, Call(request, AtPolicy, NO_POLICY, 0, 0, 0, NO_WRITES));
    hide CallPeeked, ChallengePeeked;
  }

  lemma SameCallsPeeked(actions: seq<Action>, s: State, s': State)
    requires AllPeeked(actions, s) && s'.calls == s.calls && s'.log == s.log && s'.clock == s.clock
    ensures AllPeeked(actions, s')
  {
    hide CallPeeked, ChallengePeeked;
  }

  lemma NextPeeked(front: seq<Action>, last: Action)
    requires AllPeeked(front, Run(front)) && AllVouched(front, Run(front))
    ensures AllPeeked(front + [last], Next(Run(front), last))
  {
    hide Run, AllPeeked, AllVouched, StepCall, CommitCall, FailCall, ProofsOn, Spent, ChallengeLocked, EmailTaken;
    hide UserIdUsed, EmailLocked, SessionIdUsed, Unexpired, Begun;
    var s, actions := Run(front), front + [last];
    AllStayPeeked(front, last, s, s.clock);
    match last
    case Tick(elapsed) => AllStayPeeked(front, last, s, s.clock + elapsed);
    case Step(id, newId) =>
      if id < |s.calls| {
        StepPeeked(front, id, newId);
      }
    case Commit(id) =>
      if id < |s.calls| && s.calls[id].pc == Ready && s.calls[id].request.token in s.calls[id].writes.challenges {
        CommitPeeked(actions, s, id);
      }
    case Fail(id) =>
      if id < |s.calls| {
        FailPeeked(actions, s, id);
      }
    case Submit(request) => SubmitPeeked(actions, s, request);
    case _ => SameCallsPeeked(actions, s, Next(s, last));
  }

  lemma NothingPeeked()
    ensures AllPeeked([], START)
  {
  }

  lemma {:induction false} RunPeeked(actions: seq<Action>)
    ensures AllPeeked(actions, Run(actions))
  {
    hide AllPeeked, AllVouched, Next;
    if actions == [] {
      NothingPeeked();
    } else {
      var front, last := actions[..|actions| - 1], actions[|actions| - 1];
      RunPeeked(front);
      RunVouched(front);
      NextPeeked(front, last);
      assert actions == front + [last];
    }
  }

  /** Every success had found its challenge fresh before it verified: after its submission and no later than the start
    * of its transaction. */
  lemma SuccessesPeeked(actions: seq<Action>, a: nat)
    requires a < |Run(actions).log|
    ensures var e := Run(actions).log[a];
            exists j: nat, k: nat :: j < k && Submits(actions, j, e.id, e.request)
                                     && PeeksChallenge(actions, k, e.id, e.request, e.started)
  {
    RunPeeked(actions);
    hide Run, StepsAt, Submits, Fresh;
    var e := Run(actions).log[a];
    var k: nat :| PeeksChallenge(actions, k, e.id, e.request, e.started);
    StepSubmitted(actions, k, e.id, e.request, AtPeek);
  }
}
