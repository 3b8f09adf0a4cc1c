/**
 The expectation ledger's owner ratchet: one set of pending owners decides whether an expectation
 asserts its baseline or its target, and the census refuses every catalogue that does not fit the set.
 */
module ExpectationLedger {
  import opened Common
  import opened StructuralMatch

  type Owner = string
  type Matcher = Value -> bool

  const CURRENT: Owner := "current"

  const OWNERS: seq<Owner> := [
    CURRENT, "FEAT-048", "FEAT-050", "FEAT-051", "FEAT-052", "FEAT-053", "FEAT-054", "FEAT-055",
    "FEAT-056", "FEAT-058", "FEAT-059", "FEAT-060", "native-date-entry"]

  datatype Expectation = Expectation(id: string, owner: Owner, target: Matcher, baseline: Option<Matcher>, note: string)

  datatype Scenario = Scenario(id: string, expectations: seq<Expectation>)

  /** What reading the completed run gave. */
  datatype Measured = Threw | Got(value: Value)

  datatype Reason = MeasureThrew | TargetTested | BaselineMissing | TargetAlreadyHolds | BaselineTested

  datatype Verdict = Verdict(pass: bool, assertedTarget: bool, reason: Reason)

  predicate IsPending(owner: Owner, pending: set<Owner>) {
    owner != CURRENT && owner in pending
  }

  function Evaluate(measured: Measured, e: Expectation, pending: set<Owner>): Verdict {
    if measured.Threw? then Verdict(false, !IsPending(e.owner, pending), MeasureThrew)
    else if !IsPending(e.owner, pending) then Verdict(e.target(measured.value), true, TargetTested)
    else if e.baseline.None? then Verdict(false, false, BaselineMissing)
    else if e.target(measured.value) then Verdict(false, false, TargetAlreadyHolds)
    else Verdict((e.baseline.value)(measured.value), false, BaselineTested)
  }

  /** A pass takes a value: one that meets the target and, while the owner is pending, one that meets the
      baseline and not the target. What threw, or lacks its baseline, never passes. */
  lemma PassesIff(measured: Measured, e: Expectation, pending: set<Owner>)
    ensures Evaluate(measured, e, pending).pass <==>
            exists value :: measured == Got(value) &&
              if e.owner in pending && e.owner != "current"
              then e.baseline.Some? && (e.baseline.value)(value) && !e.target(value)
              else e.target(value)
    ensures Evaluate(measured, e, pending).assertedTarget <==> e.owner !in pending || e.owner == "current"
  {
    if measured.Got? { assert measured == Got(measured.value); }
  }

  // ----- The census -----

  /** One finding; expectations are named by the positions of their scenario and themselves. */
  datatype Finding =
    | NoCurrent(scenario: nat)
    | DuplicateId(scenario: nat, index: nat)
    | UndeclaredOwner(scenario: nat, index: nat)
    | EmptyNote(scenario: nat, index: nat)
    | CurrentWithBaseline(scenario: nat, index: nat)
    | PendingWithoutBaseline(scenario: nat, index: nat)
    | LeftoverBaseline(scenario: nat, index: nat)
    | IdlePending(owner: Owner)

  predicate IsBlank(s: string) {
    Trim(s) == ""
  }

  lemma BlankIff(s: string)
    ensures IsBlank(s) <==> forall i | 0 <= i < |s| :: IsSpace(s[i])
  {
    var from, to := TrimCuts(s);
  }

  ghost predicate HasBaseline(catalogue: seq<Scenario>, owner: Owner) {
    exists s, i :: 0 <= s < |catalogue| && 0 <= i < |catalogue[s].expectations|
                   && catalogue[s].expectations[i].owner == owner && catalogue[s].expectations[i].baseline.Some?
  }

  /** What each finding says about expectation `i` of a scenario. */
  ghost predicate HoldsAt(f: Finding, expectations: seq<Expectation>, i: nat, pending: set<Owner>)
    requires i < |expectations|
  {
    var e := expectations[i];
    match f
    case DuplicateId(_, _) => exists k | 0 <= k < i :: expectations[k].id == e.id
    case UndeclaredOwner(_, _) => e.owner !in OWNERS
    case EmptyNote(_, _) => IsBlank(e.note)
    case CurrentWithBaseline(_, _) => e.owner == CURRENT && e.baseline.Some?
    case PendingWithoutBaseline(_, _) => e.owner != CURRENT && e.owner in pending && e.baseline.None?
    case LeftoverBaseline(_, _) => e.owner != CURRENT && e.owner !in pending && e.baseline.Some?
    case _ => false
  }

  /** The finding is justified by the first `scenarios` scenarios. */
  ghost predicate Justified(f: Finding, catalogue: seq<Scenario>, scenarios: nat, pending: set<Owner>)
    requires scenarios <= |catalogue|
  {
    match f
    case NoCurrent(s) =>
      s < scenarios && forall i | 0 <= i < |catalogue[s].expectations| :: catalogue[s].expectations[i].owner != CURRENT
    case IdlePending(_) => false
    case _ =>
      && f.scenario < scenarios
      && f.index < |catalogue[f.scenario].expectations|
      && HoldsAt(f, catalogue[f.scenario].expectations, f.index, pending)
  }

  ghost predicate Idle(f: Finding, catalogue: seq<Scenario>, pending: set<Owner>) {
    f.IdlePending? && f.owner in pending && f.owner != CURRENT && !HasBaseline(catalogue, f.owner)
  }

  /** The body of the loop over one scenario's expectations. */
  method CensusOfExpectation(scenario: nat, expectations: seq<Expectation>, i: nat, ids: set<string>, pending: set<Owner>)
    returns (findings: seq<Finding>)
    requires i < |expectations|
    requires forall id :: id in ids <==> exists k | 0 <= k < i :: expectations[k].id == id
    ensures forall f :: f in findings <==>
              && !f.NoCurrent? && !f.IdlePending?
              && f.scenario == scenario && f.index == i && HoldsAt(f, expectations, i, pending)
  {
    var e := expectations[i];
    findings := [];
    if e.id in ids { findings := findings + [DuplicateId(scenario, i)]; }
    if e.owner !in OWNERS { findings := findings + [UndeclaredOwner(scenario, i)]; }
    if IsBlank(e.note) { findings := findings + [EmptyNote(scenario, i)]; }
    if e.owner == CURRENT {
      if e.baseline.Some? { findings := findings + [CurrentWithBaseline(scenario, i)]; }
    } else if e.owner in pending {
      if e.baseline.None? { findings := findings + [PendingWithoutBaseline(scenario, i)]; }
    } else if e.baseline.Some? {
      findings := findings + [LeftoverBaseline(scenario, i)];
    }
  }

  method CensusOfScenario(s: nat, expectations: seq<Expectation>, pending: set<Owner>)
    returns (findings: seq<Finding>, owners: set<Owner>)
    ensures forall f :: f in findings <==>
              match f
              case NoCurrent(k) => k == s && forall i | 0 <= i < |expectations| :: expectations[i].owner != CURRENT
              case IdlePending(_) => false
              case _ => f.scenario == s && f.index < |expectations| && HoldsAt(f, expectations, f.index, pending)
    ensures forall owner :: owner in owners <==>
              exists i :: 0 <= i < |expectations| && expectations[i].owner == owner && expectations[i].baseline.Some?
  {
    var ids: set<string> := {};
    owners := {};
    findings := if exists i :: 0 <= i < |expectations| && expectations[i].owner == CURRENT then [] else [NoCurrent(s)];
    for i := 0 to |expectations|
      invariant forall id :: id in ids <==> exists k | 0 <= k < i :: expectations[k].id == id
      invariant forall owner :: owner in owners <==>
                  exists k :: 0 <= k < i && expectations[k].owner == owner && expectations[k].baseline.Some?
      invariant forall f :: f in findings <==>
                  match f
                  case NoCurrent(k) => k == s && forall k | 0 <= k < |expectations| :: expectations[k].owner != CURRENT
                  case IdlePending(_) => false
                  case _ => f.scenario == s && f.index < i && HoldsAt(f, expectations, f.index, pending)
    {
      var found := CensusOfExpectation(s, expectations, i, ids, pending);
      findings := findings + found;
      ids := ids + {expectations[i].id};
      if expectations[i].baseline.Some? { owners := owners + {expectations[i].owner}; }
    }
  }

  /** `expectationCensus`: it reports exactly the findings that the catalogue and the set justify. */
  method Census(catalogue: seq<Scenario>, pending: set<Owner>) returns (findings: seq<Finding>)
    ensures forall f :: f in findings <==> Justified(f, catalogue, |catalogue|, pending) || Idle(f, catalogue, pending)
  {
    findings := [];
    var withBaseline: set<Owner> := {};
    for s := 0 to |catalogue|
      invariant forall f :: f in findings <==> Justified(f, catalogue, s, pending)
      invariant forall owner :: owner in withBaseline <==> HasBaseline(catalogue[..s], owner)
    {
      var found, owners := CensusOfScenario(s, catalogue[s].expectations, pending);
      HasBaselineStep(catalogue, s, owners);
      findings := findings + found;
      withBaseline := withBaseline + owners;
    }
    assert catalogue[..|catalogue|] == catalogue;
    var left := pending;
    while left != {}
      invariant left <= pending
      invariant forall f :: f in findings <==>
                  Justified(f, catalogue, |catalogue|, pending) || (Idle(f, catalogue, pending) && f.owner !in left)
      decreases left
    {
      var owner :| owner in left;
      if owner != CURRENT && owner !in withBaseline { findings := findings + [IdlePending(owner)]; }
      left := left - {owner};
    }
  }

  lemma HasBaselineStep(catalogue: seq<Scenario>, s: nat, owners: set<Owner>)
    requires s < |catalogue|
    requires var expectations := catalogue[s].expectations;
             forall owner :: owner in owners <==>
               exists i :: 0 <= i < |expectations| && expectations[i].owner == owner && expectations[i].baseline.Some?
    ensures forall owner :: HasBaseline(catalogue[..s + 1], owner) <==> HasBaseline(catalogue[..s], owner) || owner in owners
  {
    forall owner: Owner
      ensures HasBaseline(catalogue[..s + 1], owner) <==> HasBaseline(catalogue[..s], owner) || owner in owners
    {
      var expectations := catalogue[s].expectations;
      if owner in owners {
        var i :| 0 <= i < |expectations| && expectations[i].owner == owner && expectations[i].baseline.Some?;
        assert catalogue[..s + 1][s].expectations[i].owner == owner;
      }
      if HasBaseline(catalogue[..s], owner) {
        var t, i :| 0 <= t < s && 0 <= i < |catalogue[..s][t].expectations|
                    && catalogue[..s][t].expectations[i].owner == owner
                    && catalogue[..s][t].expectations[i].baseline.Some?;
        assert catalogue[..s + 1][t].expectations[i].owner == owner;
      }
      if HasBaseline(catalogue[..s + 1], owner) {
        var t, i :| 0 <= t < s + 1 && 0 <= i < |catalogue[..s + 1][t].expectations|
                    && catalogue[..s + 1][t].expectations[i].owner == owner
                    && catalogue[..s + 1][t].expectations[i].baseline.Some?;
        if t < s { assert catalogue[..s][t].expectations[i].owner == owner; }
      }
    }
  }

  // ----- The ratchet -----

  ghost predicate Clean(catalogue: seq<Scenario>, pending: set<Owner>) {
    forall f: Finding :: !Justified(f, catalogue, |catalogue|, pending) && !Idle(f, catalogue, pending)
  }

  ghost predicate Member(catalogue: seq<Scenario>, e: Expectation) {
    exists s, i :: 0 <= s < |catalogue| && 0 <= i < |catalogue[s].expectations| && catalogue[s].expectations[i] == e
  }

  lemma CleanBaselines(catalogue: seq<Scenario>, pending: set<Owner>, e: Expectation)
    requires Clean(catalogue, pending) && Member(catalogue, e)
    ensures e.baseline.Some? <==> IsPending(e.owner, pending)
    ensures e.owner in OWNERS
  {
    var s: nat, i: nat :| s < |catalogue| && i < |catalogue[s].expectations| && catalogue[s].expectations[i] == e;
    assert !Justified(CurrentWithBaseline(s, i), catalogue, |catalogue|, pending);
    assert !Justified(PendingWithoutBaseline(s, i), catalogue, |catalogue|, pending);
    assert !Justified(LeftoverBaseline(s, i), catalogue, |catalogue|, pending);
    assert !Justified(UndeclaredOwner(s, i), catalogue, |catalogue|, pending);
  }

  /** Under a clean census no evaluation finds its baseline missing. */
  lemma CleanNeverMissesBaseline(catalogue: seq<Scenario>, pending: set<Owner>, e: Expectation, measured: Measured)
    requires Clean(catalogue, pending) && Member(catalogue, e)
    ensures Evaluate(measured, e, pending).reason != BaselineMissing
  {
    CleanBaselines(catalogue, pending, e);
  }

  /** A clean census pins the set down: its pending owners are exactly those with a baseline. */
  lemma CleanPendingIff(catalogue: seq<Scenario>, pending: set<Owner>, owner: Owner)
    requires Clean(catalogue, pending)
    ensures IsPending(owner, pending) <==> HasBaseline(catalogue, owner)
  {
    if IsPending(owner, pending) {
      assert !Idle(IdlePending(owner), catalogue, pending);
    }
    if HasBaseline(catalogue, owner) {
      var s, i :| 0 <= s < |catalogue| && 0 <= i < |catalogue[s].expectations|
                  && catalogue[s].expectations[i].owner == owner && catalogue[s].expectations[i].baseline.Some?;
      assert Member(catalogue, catalogue[s].expectations[i]);
      CleanBaselines(catalogue, pending, catalogue[s].expectations[i]);
    }
  }

  /** So a catalogue is clean under at most one set, but for `current`, which never counts. */
  lemma CleanSetIsUnique(catalogue: seq<Scenario>, p: set<Owner>, q: set<Owner>)
    requires Clean(catalogue, p) && Clean(catalogue, q)
    ensures p - {CURRENT} == q - {CURRENT}
  {
    forall owner: Owner ensures IsPending(owner, p) <==> IsPending(owner, q) {
      CleanPendingIff(catalogue, p, owner);
      CleanPendingIff(catalogue, q, owner);
    }
    assert forall owner :: owner in p - {CURRENT} <==> IsPending(owner, p);
    assert forall owner :: owner in q - {CURRENT} <==> IsPending(owner, q);
  }

  /** Taking an owner out of the set spoils a clean census, unless the owner is `current`. */
  lemma RemovalSpoilsCensusIff(catalogue: seq<Scenario>, pending: set<Owner>, owner: Owner)
    requires Clean(catalogue, pending) && owner in pending
    ensures Clean(catalogue, pending - {owner}) <==> owner == CURRENT
  {
    if owner == CURRENT {
      forall f: Finding
        ensures Justified(f, catalogue, |catalogue|, pending - {owner}) ==> Justified(f, catalogue, |catalogue|, pending)
        ensures Idle(f, catalogue, pending - {owner}) ==> Idle(f, catalogue, pending)
      {
      }
    } else {
      assert owner in pending - {CURRENT};
      if Clean(catalogue, pending - {owner}) {
        CleanSetIsUnique(catalogue, pending, pending - {owner});
      }
    }
  }

  /** The ratchet: what passed while its owner was pending fails, on the same measurement, once the owner
      is taken out of the set, and the other way round. */
  lemma RatchetTurns(catalogue: seq<Scenario>, pending: set<Owner>, e: Expectation, measured: Measured)
    requires Clean(catalogue, pending) && Member(catalogue, e) && IsPending(e.owner, pending)
    ensures Evaluate(measured, e, pending).pass ==> !Evaluate(measured, e, pending - {e.owner}).pass
    ensures Evaluate(measured, e, pending - {e.owner}).pass ==> Evaluate(measured, e, pending).reason == TargetAlreadyHolds
  {
    CleanBaselines(catalogue, pending, e);
  }
}
