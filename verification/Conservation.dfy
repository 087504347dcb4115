/** One-shot allowances from the burned nullifier to the consuming directive, over all requests and interleavings. */
module Conservation {
  import opened Hashing
  import opened SparseTree
  import opened ClaimHolder
  import opened Protocol
  import opened ProtocolSafety

  function Sum(xs: seq<nat>): nat {
    if xs == [] then 0 else Sum(xs[..|xs| - 1]) + xs[|xs| - 1]
  }

  lemma {:induction false} SumUpdate(xs: seq<nat>, i: nat, x: nat)
    requires i < |xs|
    ensures Sum(xs[i := x]) + xs[i] == Sum(xs) + x
  {
    var ys, last := xs[i := x], |xs| - 1;
    if i < last {
      assert ys[..last] == xs[..last][i := x];
      SumUpdate(xs[..last], i, x);
    } else {
      assert ys[..last] == xs[..last];
    }
  }

  lemma SumAppend(xs: seq<nat>, x: nat)
    ensures Sum(xs + [x]) == Sum(xs) + x
  {
    assert (xs + [x])[..|xs|] == xs;
  }

  // ---------------------------------------------------------------- the four places an allowance can be

  function Unspent(holders: seq<Grants>, claim: string): seq<nat> {
    seq(|holders|, (i: nat) requires i < |holders| => holders[i].oneShot[claim])
  }

  /** Allowances in the holders of all requests, not yet consumed. */
  function Outstanding(s: State, claim: string): nat {
    Sum(Unspent(s.holders, claim))
  }

  function SunkFlags(calls: seq<Call>, claim: string): seq<nat> {
    seq(|calls|, (i: nat) requires i < |calls| => if Sunk(calls[i]) && calls[i].request.claim == claim then 1 else 0)
  }

  /** Granted, while the transaction that burns the nullifier has yet to commit. */
  function InFlight(s: State, claim: string): nat {
    Sum(SunkFlags(s.calls, claim))
  }

  ghost predicate BurnsFor(e: Success, claim: string) {
    Burn(e) && e.request.claim == claim
  }

  ghost function BurnFlags(log: seq<Success>, claim: string): seq<nat> {
    seq(|log|, (i: nat) requires i < |log| => if BurnsFor(log[i], claim) then 1 else 0)
  }

  ghost function Burns(s: State, claim: string): nat {
    Sum(BurnFlags(s.log, claim))
  }

  /** The nullifiers burned by committed proofs naming the claim. */
  ghost function BurnedNullifiers(log: seq<Success>, claim: string): (s: set<Field>)
    ensures forall n :: n in s <==>
              exists i :: 0 <= i < |log| && BurnsFor(log[i], claim) && log[i].request.nullifier == n
  {
    if log == [] then {}
    else
      var last := log[|log| - 1];
      BurnedNullifiers(log[..|log| - 1], claim) + (if BurnsFor(last, claim) then {last.request.nullifier} else {})
  }

  ghost predicate Conserved(s: State, claim: string) {
    s.consumed[claim] + Outstanding(s, claim) == Burns(s, claim) + InFlight(s, claim) + s.leaked[claim]
  }

  // ---------------------------------------------------------------- every step conserves

  lemma HolderChange(s: State, s': State, h: nat, g: Grants, claim: string)
    requires h < |s.holders| && s'.holders == s.holders[h := g]
    ensures Outstanding(s', claim) + s.holders[h].oneShot[claim] == Outstanding(s, claim) + g.oneShot[claim]
  {
    assert Unspent(s'.holders, claim) == Unspent(s.holders, claim)[h := g.oneShot[claim]];
    SumUpdate(Unspent(s.holders, claim), h, g.oneShot[claim]);
  }

  function Flag(call: Call, claim: string): nat {
    if Sunk(call) && call.request.claim == claim then 1 else 0
  }

  lemma CallChange(s: State, s': State, id: nat, call: Call, claim: string)
    requires id < |s.calls| && s'.calls == s.calls[id := call]
    ensures InFlight(s', claim) + Flag(s.calls[id], claim) == InFlight(s, claim) + Flag(call, claim)
  {
    assert SunkFlags(s'.calls, claim) == SunkFlags(s.calls, claim)[id := Flag(call, claim)];
    SumUpdate(SunkFlags(s.calls, claim), id, Flag(call, claim));
  }

  /** Only the sink turns a call into one whose allowance is in flight. */
  lemma AdvanceSinks(s: State, id: nat, newId: nat, claim: string)
    requires id < |s.calls|
    ensures var call := s.calls[id];
            Flag(Advance(s, id, newId), claim)
              == if call.pc == AtSink && Mounted(s, call) && call.policy.kind == OneShot && call.request.claim == claim
                 then 1
                 else Flag(call, claim)
  {
    hide View, Usable, Resolve, EmailTaken, ChallengeLocked, NullifierLocked, EmailLocked, UserIdUsed;
  }

  lemma StepConserves(s: State, id: nat, newId: nat, claim: string)
    requires Conserved(s, claim) && id < |s.calls|
    ensures Conserved(StepCall(s, id, newId), claim)
  {
    var call, s' := s.calls[id], StepCall(s, id, newId);
    AdvanceSinks(s, id, newId, claim);
    CallChange(s, s', id, Advance(s, id, newId), claim);
    if call.pc == AtSink && Mounted(s, call) {
      var h := call.request.holder;
      HolderChange(s, s', h, AddTo(s.holders[h], call.request.claim, call.policy.kind), claim);
    }
    hide Advance, Sum, InFlight;
  }

  lemma CommitConserves(s: State, id: nat, claim: string)
    requires Conserved(s, claim) && id < |s.calls| && s.calls[id].pc == Ready
    requires s.calls[id].request.token in s.calls[id].writes.challenges
    ensures Conserved(CommitCall(s, id), claim)
  {
    var s' := CommitCall(s, id);
    CallChange(s, s', id, Close(s.calls[id]), claim);
    var flag := Flag(s.calls[id], claim);
    assert BurnFlags(s'.log, claim) == BurnFlags(s.log, claim) + [flag];
    SumAppend(BurnFlags(s.log, claim), flag);
    hide Sum, View;
  }

  lemma FailConserves(s: State, id: nat, claim: string)
    requires Conserved(s, claim) && id < |s.calls|
    ensures Conserved(FailCall(s, id), claim)
  {
    CallChange(s, FailCall(s, id), id, Close(s.calls[id]), claim);
    hide Sum;
  }

  lemma UseConserves(s: State, h: nat, claims: seq<string>, claim: string)
    requires Conserved(s, claim) && h < |s.holders|
    ensures Conserved(Next(s, UseProofs(h, claims)), claim)
  {
    var g := ProofsOn(s.holders[h], claims).1;
    assert s.holders[h].oneShot[claim] == g.oneShot[claim] + Spent(s.holders[h], claims)[claim];
    HolderChange(s, Next(s, UseProofs(h, claims)), h, g, claim);
    hide Sum, ProofsOn, Spent;
  }

  lemma OpenConserves(s: State, caller: Option<nat>, loadFailed: bool, claim: string)
    requires Conserved(s, claim)
    ensures Conserved(Next(s, OpenRequest(caller, loadFailed)), claim)
  {
    var s' := Next(s, OpenRequest(caller, loadFailed));
    assert Unspent(s'.holders, claim) == Unspent(s.holders, claim) + [0];
    SumAppend(Unspent(s.holders, claim), 0);
    hide Sum;
  }

  lemma SubmitConserves(s: State, request: Request, claim: string)
    requires Conserved(s, claim)
    ensures Conserved(Next(s, Submit(request)), claim)
  {
    var s' := Next(s, Submit(request));
    assert SunkFlags(s'.calls, claim) == SunkFlags(s.calls, claim) + [0];
    SumAppend(SunkFlags(s.calls, claim), 0);
    hide Sum;
  }

  lemma OtherTablesConserve(s: State, s': State, claim: string)
    requires Conserved(s, claim)
    requires s'.holders == s.holders && s'.calls == s.calls && s'.log == s.log
    requires s'.consumed == s.consumed && s'.leaked == s.leaked
    ensures Conserved(s', claim)
  {
    hide Sum;
  }

  lemma NextConserves(s: State, a: Action, claim: string)
    requires Conserved(s, claim)
    ensures Conserved(Next(s, a), claim)
  {
    hide Conserved, StepCall, CommitCall, FailCall, ProofsOn, Spent, ChallengeLocked, EmailTaken, UserIdUsed;
    hide EmailLocked;
    match a
    case Step(id, newId) =>
      if id < |s.calls| {
        StepConserves(s, id, newId, claim);
      }
    case Commit(id) =>
      if id < |s.calls| && s.calls[id].pc == Ready && s.calls[id].request.token in s.calls[id].writes.challenges {
        CommitConserves(s, id, claim);
      }
    case Fail(id) =>
      if id < |s.calls| {
        FailConserves(s, id, claim);
      }
    case UseProofs(h, claims) =>
      if h < |s.holders| {
        UseConserves(s, h, claims, claim);
      }
    case OpenRequest(caller, loadFailed) => OpenConserves(s, caller, loadFailed, claim);
    case Submit(request) => SubmitConserves(s, request, claim);
    case _ => OtherTablesConserve(s, Next(s, a), claim);
  }

  lemma {:induction false} RunConserves(actions: seq<Action>, claim: string)
    ensures Conserved(Run(actions), claim)
  {
    if actions == [] {
      assert Unspent(START.holders, claim) == [] && SunkFlags(START.calls, claim) == [];
      assert BurnFlags(START.log, claim) == [];
    } else {
      hide Conserved, Next;
      RunConserves(actions[..|actions| - 1], claim);
      NextConserves(Run(actions[..|actions| - 1]), actions[|actions| - 1], claim);
    }
  }

  lemma BurnFlagsFront(log: seq<Success>, claim: string)
    requires log != []
    ensures var front, last := log[..|log| - 1], log[|log| - 1];
            Sum(BurnFlags(log, claim)) == Sum(BurnFlags(front, claim)) + if BurnsFor(last, claim) then 1 else 0
  {
    var flags := BurnFlags(log, claim);
    assert flags[..|log| - 1] == BurnFlags(log[..|log| - 1], claim);
    hide BurnsFor;
  }

  ghost predicate DistinctBurns(log: seq<Success>) {
    forall a, b :: 0 <= a < b < |log| && Burn(log[a]) && Burn(log[b]) ==>
      log[a].request.nullifier != log[b].request.nullifier
  }

  /** Distinct nullifiers: the number of burns is the number of nullifiers burned. */
  lemma {:induction false} BurnsAreDistinct(log: seq<Success>, claim: string)
    requires DistinctBurns(log)
    ensures |BurnedNullifiers(log, claim)| == Sum(BurnFlags(log, claim))
    decreases |log|
  {
    if log == [] {
      assert BurnFlags(log, claim) == [];
    } else {
      hide BurnFlags, Sum;
      var front, last := log[..|log| - 1], log[|log| - 1];
      BurnsAreDistinct(front, claim);
      BurnFlagsFront(log, claim);
      if BurnsFor(last, claim) {
        assert last.request.nullifier !in BurnedNullifiers(front, claim);
      }
    }
  }

  /** End-to-end conservation: allowances consumed and still held are the distinct nullifiers burned by committed
    * proofs of the claim, plus those whose commit is pending, plus those whose commit failed after the sink. */
  lemma OneShotIsConserved(actions: seq<Action>, claim: string)
    ensures var s := Run(actions);
            s.consumed[claim] + Outstanding(s, claim)
              == |BurnedNullifiers(s.log, claim)| + InFlight(s, claim) + s.leaked[claim]
  {
    RunConserves(actions, claim);
    RunKeepsInvariant(actions);
    hide Run, Sum, CallsOk, ChallengesOk, BurnFlags, BurnedNullifiers, Burn;
    BurnsAreDistinct(Run(actions).log, claim);
  }

  /** Action k fails a transaction after its sink has granted the claim. */
  ghost predicate FailsAfterSink(actions: seq<Action>, k: nat, claim: string)
    requires k < |actions|
  {
    var s := Run(actions[..k]);
    actions[k].Fail? && actions[k].id < |s.calls| && Flag(s.calls[actions[k].id], claim) == 1
  }

  lemma LastLeaks(s: State, a: Action, claim: string)
    ensures Next(s, a).leaked[claim]
         == s.leaked[claim] + if a.Fail? && a.id < |s.calls| && Flag(s.calls[a.id], claim) == 1 then 1 else 0
  {
    hide Advance, ChallengeLocked, EmailLocked, UserIdUsed, EmailTaken, View, ProofsOn, Spent;
  }

  lemma NothingLeaked(claim: string)
    ensures Run([]).leaked[claim] == 0
  {
  }

  lemma LastActionLeaks(actions: seq<Action>, claim: string)
    requires actions != []
    ensures var front, last := actions[..|actions| - 1], |actions| - 1;
            Run(actions).leaked[claim]
              == Run(front).leaked[claim] + if FailsAfterSink(actions, last, claim) then 1 else 0
  {
    hide Next, Flag;
    LastLeaks(Run(actions[..|actions| - 1]), actions[|actions| - 1], claim);
  }

  lemma FailsInFront(actions: seq<Action>, k: nat, claim: string)
    requires k + 1 < |actions|
    ensures FailsAfterSink(actions[..|actions| - 1], k, claim) <==> FailsAfterSink(actions, k, claim)
  {
    hide Run, Flag;
    assert actions[..|actions| - 1][..k] == actions[..k];
  }

  lemma {:induction false} LeakedIffFailsAfterSink(actions: seq<Action>, claim: string)
    ensures Run(actions).leaked[claim] > 0 <==> exists k: nat :: k < |actions| && FailsAfterSink(actions, k, claim)
    decreases |actions|
  {
    hide *;
    if actions == [] {
      NothingLeaked(claim);
    } else {
      var front, last := actions[..|actions| - 1], |actions| - 1;
      LeakedIffFailsAfterSink(front, claim);
      LastActionLeaks(actions, claim);
      forall k: nat | k < last
        ensures FailsAfterSink(front, k, claim) <==> FailsAfterSink(actions, k, claim)
      {
        FailsInFront(actions, k, claim);
      }
    }
  }

  /** The exact condition for burns to account for every allowance, consumed or held: no commit of the claim is pending
    * and none has failed after its sink. */
  lemma BurnsAccountIff(actions: seq<Action>, claim: string)
    ensures var s := Run(actions);
            s.consumed[claim] + Outstanding(s, claim) == |BurnedNullifiers(s.log, claim)| <==>
            InFlight(s, claim) == 0 && forall k: nat :: k < |actions| ==> !FailsAfterSink(actions, k, claim)
  {
    OneShotIsConserved(actions, claim);
    LeakedIffFailsAfterSink(actions, claim);
    hide Run, FailsAfterSink, Sum;
  }

  /** No commit of the claim is pending, and none has failed after its sink. */
  ghost predicate Settled(actions: seq<Action>, claim: string) {
    InFlight(Run(actions), claim) == 0 && forall k: nat :: k < |actions| ==> !FailsAfterSink(actions, k, claim)
  }

  /** No more allowances of a settled claim are consumed than nullifiers are burned for it. */
  lemma OneActionPerNullifier(actions: seq<Action>, claim: string)
    requires Settled(actions, claim)
    ensures Run(actions).consumed[claim] <= |BurnedNullifiers(Run(actions).log, claim)|
  {
    BurnsAccountIff(actions, claim);
    hide Run, FailsAfterSink, Sum;
  }

  // ---------------------------------------------------------------- several claims

  function ConsumedOf(consumed: multiset<string>, claims: seq<string>): nat {
    if claims == [] then 0 else ConsumedOf(consumed, claims[..|claims| - 1]) + consumed[claims[|claims| - 1]]
  }

  /** The nullifiers burned for any of the claims. */
  ghost function BurnedFor(log: seq<Success>, claims: seq<string>): (burned: set<Field>)
    ensures forall n :: n in burned ==> exists a: nat :: a < |claims| && n in BurnedNullifiers(log, claims[a])
  {
    if claims == [] then {}
    else
      var front, last := claims[..|claims| - 1], claims[|claims| - 1];
      assert forall a: nat :: a < |front| ==> claims[a] == front[a];
      assert claims[|claims| - 1] == last;
      BurnedFor(log, front) + BurnedNullifiers(log, last)
  }

  /** A nullifier is burned once, so for one claim only. */
  lemma BurnsAreForOneClaim(log: seq<Success>, claim: string, claim': string)
    requires DistinctBurns(log) && claim != claim'
    ensures BurnedNullifiers(log, claim) !! BurnedNullifiers(log, claim')
  {
  }

  ghost predicate DistinctClaims(claims: seq<string>) {
    forall a, b :: 0 <= a < b < |claims| ==> claims[a] != claims[b]
  }

  lemma LogHasDistinctBurns(actions: seq<Action>)
    ensures DistinctBurns(Run(actions).log)
  {
    RunKeepsInvariant(actions);
    hide Run, CallsOk, ChallengesOk, Burn;
  }

  lemma {:induction false} ConsumedAtMostBurned(actions: seq<Action>, claims: seq<string>)
    requires DistinctClaims(claims) && forall claim :: claim in claims ==> Settled(actions, claim)
    ensures ConsumedOf(Run(actions).consumed, claims) <= |BurnedFor(Run(actions).log, claims)|
  {
    hide Run, Settled, BurnedNullifiers, DistinctBurns;
    if claims != [] {
      var log, front, last := Run(actions).log, claims[..|claims| - 1], claims[|claims| - 1];
      ConsumedAtMostBurned(actions, front);
      OneActionPerNullifier(actions, last);
      LogHasDistinctBurns(actions);
      forall n | n in BurnedFor(log, front)
        ensures n !in BurnedNullifiers(log, last)
      {
        var a: nat :| a < |front| && n in BurnedNullifiers(log, front[a]);
        BurnsAreForOneClaim(log, front[a], last);
      }
    }
  }

  ghost function Nullifiers(c: Suite<Field>, secrets: set<nat>, audience: Field): set<Field> {
    set secret | secret in secrets :: c.Nullifier(secret, audience)
  }

  lemma {:induction false} NullifiersAreFew(c: Suite<Field>, secrets: set<nat>, audience: Field)
    ensures |Nullifiers(c, secrets, audience)| <= |secrets|
    decreases |secrets|
  {
    if secret :| secret in secrets {
      NullifiersAreFew(c, secrets - {secret}, audience);
      var more := Nullifiers(c, secrets - {secret}, audience) + {c.Nullifier(secret, audience)};
      assert Nullifiers(c, secrets, audience) <= more;
      SubsetSize(Nullifiers(c, secrets, audience), more);
    }
  }

  /** When every burn of these claims proved the nullifier of one of these secrets for the audience, the allowances of
    * all of them consumed are together no more than the secrets. */
  lemma OneActionPerSecret(
    actions: seq<Action>, claims: seq<string>, c: Suite<Field>, secrets: set<nat>, audience: Field)
    requires DistinctClaims(claims) && forall claim :: claim in claims ==> Settled(actions, claim)
    requires BurnedFor(Run(actions).log, claims) <= Nullifiers(c, secrets, audience)
    ensures ConsumedOf(Run(actions).consumed, claims) <= |BurnedFor(Run(actions).log, claims)| <= |secrets|
  {
    hide Run, Settled, BurnedFor, Nullifiers;
    ConsumedAtMostBurned(actions, claims);
    SubsetSize(BurnedFor(Run(actions).log, claims), Nullifiers(c, secrets, audience));
    NullifiersAreFew(c, secrets, audience);
  }

  // ---------------------------------------------------------------- a commit lost after the sink

  /** A one-shot call about to hand its claim to a request that can use it: neither unnamed, nor recurring there, nor in
    * a holder whose load failed. */
  predicate AboutToSink(s: State, id: nat) {
    && id < |s.calls| && s.calls[id].pc == AtSink && Mounted(s, s.calls[id]) && s.calls[id].policy.kind == OneShot
    && (var g, claim := s.holders[s.calls[id].request.holder], s.calls[id].request.claim;
        claim != "" && claim !in g.recurring && !g.loadFailed)
  }

  lemma SinkThenFail(s: State, id: nat, newId: nat)
    requires AboutToSink(s, id)
    ensures var call := s.calls[id];
            var h := call.request.holder;
            var failed := Next(Next(s, Step(id, newId)), Fail(id));
            && failed.holders == s.holders[h := AddTo(s.holders[h], call.request.claim, OneShot)]
            && failed.db == s.db && failed.log == s.log && failed.consumed == s.consumed
  {
  }

  lemma UseSpends(s: State, h: nat, claims: seq<string>)
    requires h < |s.holders|
    ensures var s' := Next(s, UseProofs(h, claims));
            s'.consumed == s.consumed + Spent(s.holders[h], claims) && s'.log == s.log && s'.db == s.db
  {
    hide ProofsOn, Spent;
  }

  lemma UseOne(g: Grants, claim: string)
    requires claim != "" && claim !in g.recurring && !g.loadFailed
    ensures Spent(AddTo(g, claim, OneShot), [claim]) == multiset{claim}
  {
    assert [claim][..0] == [];
    assert Needed(g.recurring, [claim]) == multiset{claim};
  }

  lemma NotYetBurned(actions: seq<Action>, id: nat)
    requires AboutToSink(Run(actions), id)
    ensures Run(actions).calls[id].request.nullifier !in Run(actions).db.nullifiers
  {
    hide Run, ChallengesOk, LogOk, UsersOk, NullifiersOk, CallsOk, HoldsChallenge;
    RunKeepsInvariant(actions);
    CallIsOk(Run(actions), id);
  }

  /** Whatever the run so far: when the commit is lost after the sink, the request consumes a grant for which no
    * nullifier is burned. */
  lemma LostCommitKeepsGrant(actions: seq<Action>, id: nat, newId: nat)
    requires AboutToSink(Run(actions), id)
    ensures var s := Run(actions);
            var call := s.calls[id];
            var use := UseProofs(call.request.holder, [call.request.claim]);
            var s' := Run(actions + [Step(id, newId)] + [Fail(id)] + [use]);
            && s'.consumed == s.consumed + multiset{call.request.claim}
            && s'.log == s.log && s'.db == s.db && call.request.nullifier !in s'.db.nullifiers
  {
    hide Run, AddTo, ProofsOn, Spent, Next;
    var s := Run(actions);
    var call := s.calls[id];
    var h, claim := call.request.holder, call.request.claim;
    NotYetBurned(actions, id);
    RunStep(actions, Step(id, newId));
    RunStep(actions + [Step(id, newId)], Fail(id));
    RunStep(actions + [Step(id, newId)] + [Fail(id)], UseProofs(h, [claim]));
    SinkThenFail(s, id, newId);
    UseOne(s.holders[h], claim);
    UseSpends(Run(actions + [Step(id, newId)] + [Fail(id)]), h, [claim]);
  }
}
