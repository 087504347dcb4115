/** The request-local claim holder of zkauthz/zkauthz.go. */
module ClaimHolder {

  datatype Kind = Recurring | OneShot

  datatype Verdict = Granted | LoadError | InvalidProof

  /** What a request has proven: recurring names, and one allowance per one-shot grant. */
  datatype Grants = Grants(recurring: set<string>, oneShot: multiset<string>, loadFailed: bool)

  function AddTo(g: Grants, name: string, kind: Kind): Grants {
    if kind == OneShot then g.(oneShot := g.oneShot + multiset{name}) else g.(recurring := g.recurring + {name})
  }

  /** The one-shot allowances a list of names asks for, duplicates counted. */
  function Needed(recurring: set<string>, claims: seq<string>): multiset<string> {
    if claims == [] then multiset{}
    else
      var rest := Needed(recurring, claims[..|claims| - 1]);
      var name := claims[|claims| - 1];
      if name in recurring then rest else rest + multiset{name}
  }

  function ProofsOn(g: Grants, claims: seq<string>): (Verdict, Grants) {
    if claims == [] then (Granted, g)
    else if g.loadFailed then (LoadError, g)
    else if "" in claims then (InvalidProof, g)
    else
      var needed := Needed(g.recurring, claims);
      if needed <= g.oneShot then (Granted, g.(oneShot := g.oneShot - needed)) else (InvalidProof, g)
  }

  lemma {:induction false} NeededCounts(recurring: set<string>, claims: seq<string>, name: string)
    ensures Needed(recurring, claims)[name] == if name in recurring then 0 else multiset(claims)[name]
  {
    if claims != [] {
      var front := claims[..|claims| - 1];
      NeededCounts(recurring, front, name);
      assert claims == front + [claims[|claims| - 1]];
    }
  }

  /** How many times a name that is not recurring is listed. */
  function Listed(g: Grants, claims: seq<string>, name: string): nat {
    if name in g.recurring then 0 else multiset(claims)[name]
  }

  /** Exact and atomic: granted iff nothing was asked, or the load succeeded, no name is empty and every name that is
    * not recurring has as many grants as it is listed times; granting takes exactly those, refusing takes nothing. */
  lemma ProofsIsExact(g: Grants, claims: seq<string>)
    ensures var (verdict, g') := ProofsOn(g, claims);
            && (verdict == Granted <==>
                  || claims == []
                  || (!g.loadFailed && "" !in claims
                      && forall name :: Listed(g, claims, name) <= g.oneShot[name]))
            && (verdict == LoadError <==> claims != [] && g.loadFailed)
            && g'.recurring == g.recurring && g'.loadFailed == g.loadFailed
            && (verdict == Granted ==>
                  forall name :: g'.oneShot[name] == g.oneShot[name] - Listed(g, claims, name))
            && (verdict != Granted ==> g' == g)
  {
    forall name
      ensures Needed(g.recurring, claims)[name] == Listed(g, claims, name)
    {
      NeededCounts(g.recurring, claims, name);
    }
  }

  // ---------------------------------------------------------------- any sequence of calls

  datatype HolderCall = Add(name: string, kind: Kind) | Proofs(claims: seq<string>)

  function After(g: Grants, calls: seq<HolderCall>): Grants {
    if calls == [] then g
    else
      var before := After(g, calls[..|calls| - 1]);
      match calls[|calls| - 1]
      case Add(name, kind) => AddTo(before, name, kind)
      case Proofs(claims) => ProofsOn(before, claims).1
  }

  function Added(calls: seq<HolderCall>): multiset<string> {
    if calls == [] then multiset{}
    else
      var last := calls[|calls| - 1];
      Added(calls[..|calls| - 1]) + (if last.Add? && last.kind == OneShot then multiset{last.name} else multiset{})
  }

  /** What one call consumes: what it asks for when it is granted. */
  function Spent(g: Grants, claims: seq<string>): multiset<string> {
    if ProofsOn(g, claims).0 == Granted then Needed(g.recurring, claims) else multiset{}
  }

  function Consumed(g: Grants, calls: seq<HolderCall>): multiset<string> {
    if calls == [] then multiset{}
    else
      var front, last := calls[..|calls| - 1], calls[|calls| - 1];
      Consumed(g, front) + (if last.Proofs? then Spent(After(g, front), last.claims) else multiset{})
  }

  lemma CallConserves(g: Grants, call: HolderCall, name: string)
    ensures call.Add? ==> AddTo(g, call.name, call.kind).oneShot[name]
                            == g.oneShot[name] + if call.kind == OneShot && call.name == name then 1 else 0
    ensures call.Proofs? ==> ProofsOn(g, call.claims).1.oneShot[name] + Spent(g, call.claims)[name] == g.oneShot[name]
  {
  }

  /** Every one-shot grant is consumed at most once, over any sequence of calls. */
  lemma {:induction false} GrantsAreConserved(g: Grants, calls: seq<HolderCall>, name: string)
    ensures g.oneShot[name] + Added(calls)[name] == After(g, calls).oneShot[name] + Consumed(g, calls)[name]
  {
    if calls != [] {
      var front, last := calls[..|calls| - 1], calls[|calls| - 1];
      GrantsAreConserved(g, front, name);
      CallConserves(After(g, front), last, name);
      hide AddTo, ProofsOn, Spent;
    }
  }

  /** Some of the calls added this recurring claim. */
  ghost predicate AddsRecurring(calls: seq<HolderCall>, name: string) {
    exists k: nat :: k < |calls| && calls[k] == Add(name, Recurring)
  }

  /** Recurring names are remembered: those at the start, those added, and no others, whatever was asked in between. */
  lemma {:induction false} RecurringIsRemembered(g: Grants, calls: seq<HolderCall>, name: string)
    ensures name in After(g, calls).recurring <==> name in g.recurring || AddsRecurring(calls, name)
    ensures After(g, calls).loadFailed == g.loadFailed
  {
    if calls != [] {
      var front, last := calls[..|calls| - 1], calls[|calls| - 1];
      RecurringIsRemembered(g, front, name);
      assert AddsRecurring(calls, name) <==> AddsRecurring(front, name) || last == Add(name, Recurring) by {
        assert forall k: nat :: k < |front| ==> calls[k] == front[k];
        assert calls[|front|] == last;
      }
      hide AddsRecurring, Needed;
    }
  }

  lemma {:induction false} RecurringNeedNothing(recurring: set<string>, claims: seq<string>)
    requires forall name :: name in claims ==> name in recurring
    ensures Needed(recurring, claims) == multiset{}
  {
    if claims != [] {
      assert claims[|claims| - 1] in claims;
      RecurringNeedNothing(recurring, claims[..|claims| - 1]);
    }
  }

  /** Claims proved for the session, or added as recurring earlier in the request, are granted as often as asked, and
    * nothing is spent. */
  lemma RecurringIsGranted(g: Grants, calls: seq<HolderCall>, claims: seq<string>)
    requires !g.loadFailed && "" !in claims
    requires forall name :: name in claims ==> name in g.recurring || AddsRecurring(calls, name)
    ensures ProofsOn(After(g, calls), claims) == (Granted, After(g, calls))
  {
    forall name | name in claims
      ensures name in After(g, calls).recurring
    {
      RecurringIsRemembered(g, calls, name);
    }
    RecurringIsRemembered(g, calls, "");
    RecurringNeedNothing(After(g, calls).recurring, claims);
    assert After(g, calls).oneShot - multiset{} == After(g, calls).oneShot;
    hide Needed, After, AddsRecurring;
  }

  /** Every one-shot claim added is one more to spend: asked for as often as it was added and not yet consumed, it is
    * granted. */
  lemma OneShotIsGranted(g: Grants, calls: seq<HolderCall>, claims: seq<string>)
    requires !g.loadFailed && "" !in claims
    requires forall name :: name in claims ==>
               multiset(claims)[name] + Consumed(g, calls)[name] <= g.oneShot[name] + Added(calls)[name]
    ensures ProofsOn(After(g, calls), claims).0 == Granted
  {
    var now := After(g, calls);
    RecurringIsRemembered(g, calls, "");
    ProofsIsExact(now, claims);
    forall name
      ensures Listed(now, claims, name) <= now.oneShot[name]
    {
      GrantsAreConserved(g, calls, name);
      if name !in claims {
        assert multiset(claims)[name] == 0;
      }
    }
  }

  // ---------------------------------------------------------------- the holder as it runs

  /** Past the early refusals, the needed allowances decide. */
  lemma ProofsDecided(g: Grants, claims: seq<string>)
    requires claims != [] && !g.loadFailed && "" !in claims
    ensures var needed := Needed(g.recurring, claims);
            ProofsOn(g, claims)
              == if needed <= g.oneShot then (Granted, g.(oneShot := g.oneShot - needed)) else (InvalidProof, g)
  {
    hide Needed;
  }

  function Count(m: map<string, int>, name: string): int {
    if name in m then m[name] else 0
  }

  /** The counters of a map are those of a multiset. */
  ghost predicate Counts(m: map<string, int>, grants: multiset<string>) {
    forall name: string :: grants[name] == Count(m, name)
  }

  lemma CoversIffSubset(
    held: map<string, int>, required: map<string, int>, g: multiset<string>, needed: multiset<string>)
    requires Counts(held, g) && Counts(required, needed)
    ensures (forall name: string :: Count(required, name) <= Count(held, name)) <==> needed <= g
  {
    hide Count;
  }

  lemma SubtractedCounts(
    before: map<string, int>, after: map<string, int>, required: map<string, int>,
    g: multiset<string>, needed: multiset<string>)
    requires Counts(before, g) && Counts(required, needed) && needed <= g
    requires forall name: string :: Count(after, name) == Count(before, name) - Count(required, name)
    ensures Counts(after, g - needed)
  {
    hide Count;
  }

  class Holder {
    var recurring: set<string>
    var oneShot: map<string, int>
    var loadFailed: bool
    ghost var grants: Grants

    /** The counters are the grants; in particular none is negative. */
    ghost predicate Valid()
      reads this
    {
      && grants.recurring == recurring && grants.loadFailed == loadFailed
      && Counts(oneShot, grants.oneShot)
    }

    /** The holder Middleware makes for one request: empty, or with the session's recurring claims. */
    constructor (names: seq<string>, loadFailed: bool)
      ensures Valid()
      ensures grants == Grants(set name | name in names, multiset{}, loadFailed)
    {
      recurring := set name | name in names;
      oneShot := map[];
      this.loadFailed := loadFailed;
      grants := Grants(set name | name in names, multiset{}, loadFailed);
    }

    method Add(name: string, kind: Kind)
      requires Valid()
      modifies this
      ensures Valid() && grants == AddTo(old(grants), name, kind)
    {
      if kind == OneShot {
        oneShot := oneShot[name := Count(oneShot, name) + 1];
      } else {
        recurring := recurring + {name};
      }
      grants := AddTo(grants, name, kind);
    }

    /** The counting loop: how many allowances each name needs; false at an empty name. */
    method CountRequired(claims: seq<string>) returns (required: map<string, int>, named: bool)
      ensures named <==> "" !in claims
      ensures named ==> forall name: string :: Needed(recurring, claims)[name] == Count(required, name)
      ensures named ==> forall name :: name in required ==> required[name] > 0
    {
      required := map[];
      for i := 0 to |claims|
        invariant "" !in claims[..i]
        invariant forall name: string :: Needed(recurring, claims[..i])[name] == Count(required, name)
        invariant forall name :: name in required ==> required[name] > 0
      {
        assert claims[..i + 1] == claims[..i] + [claims[i]];
        assert claims[..i + 1][..i] == claims[..i];
        if claims[i] == "" {
          return required, false;
        }
        if claims[i] !in recurring {
          required := required[claims[i] := Count(required, claims[i]) + 1];
        }
      }
      assert claims[..|claims|] == claims;
      named := true;
    }

    /** The checking loop, in any order. */
    method Covers(required: map<string, int>) returns (enough: bool)
      requires forall name :: name in required ==> required[name] > 0
      requires forall name: string :: Count(oneShot, name) >= 0
      ensures enough <==> forall name: string :: Count(required, name) <= Count(oneShot, name)
    {
      var rest := required.Keys;
      while rest != {}
        invariant rest <= required.Keys
        invariant forall name :: name in required && name !in rest ==> required[name] <= Count(oneShot, name)
        decreases rest
      {
        var name :| name in rest;
        if Count(oneShot, name) < required[name] {
          return false;
        }
        rest := rest - {name};
      }
      enough := true;
    }

    /** The subtracting loop, in any order. */
    method Subtract(required: map<string, int>)
      requires forall name :: name in required ==> name in oneShot
      modifies this`oneShot
      ensures forall name: string :: Count(oneShot, name) == old(Count(oneShot, name)) - Count(required, name)
    {
      var rest := required.Keys;
      while rest != {}
        invariant rest <= required.Keys
        invariant forall name :: name in rest ==> name in oneShot
        invariant forall name: string ::
          Count(oneShot, name) == old(Count(oneShot, name)) - (if name in rest then 0 else Count(required, name))
        decreases rest
      {
        var name :| name in rest;
        oneShot := oneShot[name := oneShot[name] - required[name]];
        rest := rest - {name};
      }
    }

    /** Counts, checks the whole set, then subtracts. */
    method Proofs(claims: seq<string>) returns (verdict: Verdict)
      requires Valid()
      modifies this
      ensures Valid() && (verdict, grants) == ProofsOn(old(grants), claims)
    {
      if claims == [] {
        return Granted;
      }
      if loadFailed {
        return LoadError;
      }
      var required, named := CountRequired(claims);
      if !named {
        return InvalidProof;
      }
      ghost var needed, held := Needed(recurring, claims), oneShot;
      ProofsDecided(grants, claims);
      CoversIffSubset(oneShot, required, grants.oneShot, needed);
      var enough := Covers(required);
      if !enough {
        return InvalidProof;
      }
      hide Needed, ProofsOn;
      assert forall name :: name in required ==> Count(required, name) > 0;
      Subtract(required);
      SubtractedCounts(held, oneShot, required, grants.oneShot, needed);
      grants := grants.(oneShot := grants.oneShot - needed);
      verdict := Granted;
    }
  }

  /** Without the middleware there is no holder: Add fails and any non-empty request is refused. */
  method AddToRequest(holder: Holder?, name: string, kind: Kind) returns (ok: bool)
    requires holder != null ==> holder.Valid()
    modifies if holder == null then {} else {holder}
    ensures ok <==> holder != null
    ensures holder != null ==> holder.Valid() && holder.grants == AddTo(old(holder.grants), name, kind)
  {
    if holder != null {
      holder.Add(name, kind);
    }
    ok := holder != null;
  }

  method ProofsOfRequest(holder: Holder?, claims: seq<string>) returns (verdict: Verdict)
    requires holder != null ==> holder.Valid()
    modifies if holder == null then {} else {holder}
    ensures holder == null ==> verdict == if claims == [] then Granted else InvalidProof
    ensures holder != null ==> holder.Valid() && (verdict, holder.grants) == ProofsOn(old(holder.grants), claims)
  {
    if claims == [] {
      return Granted;
    }
    if holder == null {
      return InvalidProof;
    }
    verdict := holder.Proofs(claims);
  }
}
