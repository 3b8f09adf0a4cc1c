/**
 Scoring what a run did to a form: the latest posted state of each page, the authored rules for its
 controls, and the verdict that combines them with the run's own reports.
 */
module ActionScore {
  import opened Common

  datatype Control = Control(value: Option<string>, digest: Option<string>, checked: Option<bool>)

  datatype FormState = FormState(
    page: string,
    seqNo: nat,
    controls: map<string, Control>,
    submits: nat,
    requestSubmitCalls: nat,
    formSubmitCalls: nat,
    clicks: Option<nat>)

  // ----- The latest state of each page -----

  /** The state that stands for `page` after the posts in `log`: the first with the highest number. */
  ghost predicate IsLatest(log: seq<FormState>, page: string, state: Option<FormState>) {
    match state
    case None => forall i | 0 <= i < |log| :: log[i].page != page
    case Some(s) => exists k :: 0 <= k < |log| && log[k] == s && s.page == page
                      && (forall i | 0 <= i < |log| && log[i].page == page :: log[i].seqNo <= s.seqNo)
                      && (forall i | 0 <= i < k && log[i].page == page :: log[i].seqNo < s.seqNo)
  }

  method LatestFormStates(log: seq<FormState>) returns (result: map<string, FormState>)
    ensures forall page :: IsLatest(log, page, Lookup(result, page))
  {
    result := map[];
    for n := 0 to |log|
      invariant forall page :: IsLatest(log[..n], page, Lookup(result, page))
    {
      var state := log[n];
      ghost var before := result;
      if state.page !in result || result[state.page].seqNo < state.seqNo {
        result := result[state.page := state];
      }
      forall page ensures IsLatest(log[..n + 1], page, Lookup(result, page)) {
        LatestStep(log, n, page, Lookup(before, page));
      }
    }
    assert log[..|log|] == log;
  }

  lemma LatestStep(log: seq<FormState>, n: nat, page: string, latest: Option<FormState>)
    requires n < |log| && IsLatest(log[..n], page, latest)
    ensures IsLatest(log[..n + 1], page,
                     if log[n].page == page && (latest.None? || latest.value.seqNo < log[n].seqNo) then Some(log[n])
                     else latest)
  {
    var now := log[..n + 1];
    assert now == log[..n] + [log[n]];
    if log[n].page == page && (latest.None? || latest.value.seqNo < log[n].seqNo) {
      assert now[n] == log[n];
    } else if latest.Some? {
      var k :| 0 <= k < n && log[..n][k] == latest.value
               && (forall i | 0 <= i < k && log[..n][i].page == page :: log[..n][i].seqNo < latest.value.seqNo);
      assert now[k] == latest.value;
      assert forall i | 0 <= i < k :: now[i] == log[..n][i];
    }
  }

  /** The posts for a page carry distinct numbers. */
  ghost predicate Numbered(log: seq<FormState>, page: string) {
    forall a, b | a in log && b in log && a.page == page == b.page && a.seqNo == b.seqNo :: a == b
  }

  /** Posts may arrive in any order: the latest state of a page is the same. */
  lemma LatestForgetsOrder(a: seq<FormState>, b: seq<FormState>, page: string,
                           x: Option<FormState>, y: Option<FormState>)
    requires multiset(a) == multiset(b) && Numbered(a, page)
    requires IsLatest(a, page, x) && IsLatest(b, page, y)
    ensures x == y
  {
    forall s: FormState ensures s in a <==> s in b {
      assert s in a <==> s in multiset(a);
      assert s in b <==> s in multiset(b);
    }
    if x.Some? {
      assert x.value in b;
      assert y.Some?;
    }
    if y.Some? {
      assert y.value in a;
      assert x.value.seqNo == y.value.seqNo;
    }
  }

  // ----- Rules -----

  /** An authored rule. `accepts` is the closed test of a value or, for a protected field, of its digest. */
  datatype Rule =
    | Untouched
    | CheckedAny(group: string)
    | ValueRule(isProtected: bool, accepts: string -> bool)

  datatype Intended = Flag(on: bool) | Text(text: string)

  /** Rules in authored order, one for each key. */
  type Rules = seq<(string, Rule)>

  function ControlOf(state: Option<FormState>, key: string): Option<Control> {
    if state.None? then None else Lookup(state.value.controls, key)
  }

  function ValueAccepted(value: Option<string>, accepts: string -> bool): bool {
    value.Some? && accepts(value.value)
  }

  /** An exempt control is present and as it was at the start, or as intended if the start is unknown. */
  predicate LeftAlone(key: string, state: Option<FormState>, initial: Option<FormState>, intended: map<string, Intended>) {
    var control, original := ControlOf(state, key), ControlOf(initial, key);
    && control.Some?
    && if original.Some? then control == original
       else key in intended &&
            match intended[key]
            case Flag(on) => control.value.checked == Some(on)
            case Text(text) => control.value.value == Some(text)
  }

  /** What an authored rule asks of the final state. */
  ghost predicate Holds(rules: Rules, i: nat, state: Option<FormState>, initial: Option<FormState>,
                        intended: map<string, Intended>)
    requires i < |rules|
  {
    match rules[i].1
    case Untouched => LeftAlone(rules[i].0, state, initial, intended)
    case CheckedAny(group) => GroupHolds(rules, group, state)
    case ValueRule(isProtected, accepts) =>
      var control := ControlOf(state, rules[i].0);
      control.Some? && ValueAccepted(if isProtected then control.value.digest else control.value.value, accepts)
  }

  /** Every member of the group is on the page, and one of them is checked. */
  ghost predicate GroupHolds(rules: Rules, group: string, state: Option<FormState>) {
    && (forall i | 0 <= i < |rules| && rules[i].1 == CheckedAny(group) :: ControlOf(state, rules[i].0).Some?)
    && (exists i :: 0 <= i < |rules| && rules[i].1 == CheckedAny(group)
                    && ControlOf(state, rules[i].0).Some? && ControlOf(state, rules[i].0).value.checked == Some(true))
  }

  function Members(rules: Rules, group: string): seq<string> {
    if rules == [] then []
    else Members(rules[..|rules| - 1], group)
         + if rules[|rules| - 1].1 == CheckedAny(group) then [rules[|rules| - 1].0] else []
  }

  lemma {:induction false} MembersAre(rules: Rules, group: string, key: string)
    ensures key in Members(rules, group) <==> exists i :: 0 <= i < |rules| && rules[i] == (key, CheckedAny(group))
  {
    if rules != [] {
      var init, last := rules[..|rules| - 1], rules[|rules| - 1];
      MembersAre(init, group, key);
      assert forall i | 0 <= i < |init| :: init[i] == rules[i];
      if last == (key, CheckedAny(group)) { assert rules[|rules| - 1] == (key, CheckedAny(group)); }
    }
  }

  method JudgeGroup(rules: Rules, group: string, state: Option<FormState>) returns (passed: bool)
    ensures passed <==> GroupHolds(rules, group, state)
  {
    var keys := Members(rules, group);
    forall key: string
      ensures key in keys <==> exists i :: 0 <= i < |rules| && rules[i] == (key, CheckedAny(group))
    {
      MembersAre(rules, group, key);
    }
    passed := (forall key | key in keys :: ControlOf(state, key).Some?)
              && (exists key | key in keys :: ControlOf(state, key).Some? && ControlOf(state, key).value.checked == Some(true));
  }

  ghost predicate AllPass(decisions: seq<bool>) {
    forall i | 0 <= i < |decisions| :: decisions[i]
  }

  /** Of the first `n` rules, all exemptions (or all others) hold. */
  ghost predicate FirstHold(rules: Rules, n: nat, exempt: bool, state: Option<FormState>, initial: Option<FormState>,
                            intended: map<string, Intended>)
    requires n <= |rules|
  {
    forall i | 0 <= i < n && rules[i].1.Untouched? == exempt :: Holds(rules, i, state, initial, intended)
  }

  /** Rule `n` continues a group that an earlier rule began. */
  ghost predicate Continues(rules: Rules, n: nat)
    requires n < |rules|
  {
    rules[n].1.CheckedAny? && exists i :: 0 <= i < n && rules[i].1 == rules[n].1
  }

  /** One decision for each exemption (or each other rule) among the first `n`, a group counting once. */
  ghost function Decisions(rules: Rules, n: nat, exempt: bool, state: Option<FormState>, initial: Option<FormState>,
                           intended: map<string, Intended>): seq<bool>
    requires n <= |rules|
  {
    if n == 0 then []
    else
      var earlier := Decisions(rules, n - 1, exempt, state, initial, intended);
      if rules[n - 1].1.Untouched? == exempt && !Continues(rules, n - 1)
      then earlier + [Holds(rules, n - 1, state, initial, intended)]
      else earlier
  }

  /** Although a group counts once, the decisions all pass exactly when every single rule holds. */
  lemma {:induction false} DecisionsTell(rules: Rules, n: nat, exempt: bool, state: Option<FormState>,
                                         initial: Option<FormState>, intended: map<string, Intended>)
    requires n <= |rules|
    ensures AllPass(Decisions(rules, n, exempt, state, initial, intended))
            <==> FirstHold(rules, n, exempt, state, initial, intended)
  {
    if n > 0 {
      DecisionsTell(rules, n - 1, exempt, state, initial, intended);
      FirstHoldStep(rules, n - 1, state, initial, intended);
      AllPassStep(Decisions(rules, n - 1, exempt, state, initial, intended), Holds(rules, n - 1, state, initial, intended));
      if Continues(rules, n - 1) {
        var first :| 0 <= first < n - 1 && rules[first].1 == rules[n - 1].1;
        SameGroupHolds(rules, first, n - 1, state, initial, intended);
      }
    }
  }

  lemma {:induction false} SomeDecision(rules: Rules, n: nat, state: Option<FormState>,
                                        initial: Option<FormState>, intended: map<string, Intended>)
    requires n <= |rules|
    ensures |Decisions(rules, n, false, state, initial, intended)| > 0
            <==> exists i :: 0 <= i < n && !rules[i].1.Untouched?
  {
    if n > 0 { SomeDecision(rules, n - 1, state, initial, intended); }
  }

  /** The loop over the rules: each `checked-any` group is judged once, at its first member. */
  method JudgeRules(rules: Rules, state: Option<FormState>, initial: Option<FormState>, intended: map<string, Intended>)
    returns (fields: seq<bool>, exempt: seq<bool>)
    ensures fields == Decisions(rules, |rules|, false, state, initial, intended)
    ensures exempt == Decisions(rules, |rules|, true, state, initial, intended)
    ensures AllPass(fields) <==> FirstHold(rules, |rules|, false, state, initial, intended)
    ensures AllPass(exempt) <==> FirstHold(rules, |rules|, true, state, initial, intended)
    ensures |fields| > 0 <==> exists i :: 0 <= i < |rules| && !rules[i].1.Untouched?
  {
    fields, exempt := [], [];
    var groups: set<string> := {};
    for n := 0 to |rules|
      invariant fields == Decisions(rules, n, false, state, initial, intended)
      invariant exempt == Decisions(rules, n, true, state, initial, intended)
      invariant forall group :: group in groups <==> exists i :: 0 <= i < n && rules[i].1 == CheckedAny(group)
    {
      if rules[n].1.CheckedAny? && rules[n].1.group in groups {
        assert Continues(rules, n);
      } else {
        assert !Continues(rules, n);
        var passed := JudgeRule(rules, n, state, initial, intended);
        if rules[n].1.Untouched? {
          exempt := exempt + [passed];
        } else {
          fields := fields + [passed];
        }
        if rules[n].1.CheckedAny? { groups := groups + {rules[n].1.group}; }
      }
    }
    DecisionsTell(rules, |rules|, false, state, initial, intended);
    DecisionsTell(rules, |rules|, true, state, initial, intended);
    SomeDecision(rules, |rules|, state, initial, intended);
  }

  method JudgeRule(rules: Rules, n: nat, state: Option<FormState>, initial: Option<FormState>, intended: map<string, Intended>)
    returns (passed: bool)
    requires n < |rules|
    ensures passed <==> Holds(rules, n, state, initial, intended)
  {
    match rules[n].1
    case Untouched => passed := LeftAlone(rules[n].0, state, initial, intended);
    case CheckedAny(group) => passed := JudgeGroup(rules, group, state);
    case ValueRule(isProtected, accepts) =>
      var control := ControlOf(state, rules[n].0);
      passed := control.Some? && ValueAccepted(if isProtected then control.value.digest else control.value.value, accepts);
  }

  lemma FirstHoldStep(rules: Rules, n: nat, state: Option<FormState>, initial: Option<FormState>, intended: map<string, Intended>)
    requires n < |rules|
    ensures forall exempt :: FirstHold(rules, n + 1, exempt, state, initial, intended) <==>
              FirstHold(rules, n, exempt, state, initial, intended)
              && (rules[n].1.Untouched? == exempt ==> Holds(rules, n, state, initial, intended))
  {
  }

  /** Two members of one group stand or fall together. */
  lemma SameGroupHolds(rules: Rules, i: nat, n: nat, state: Option<FormState>, initial: Option<FormState>, intended: map<string, Intended>)
    requires i < n < |rules| && rules[n].1.CheckedAny? && rules[i].1 == rules[n].1
    ensures Holds(rules, i, state, initial, intended) <==> Holds(rules, n, state, initial, intended)
    ensures FirstHold(rules, n, false, state, initial, intended) ==> Holds(rules, n, state, initial, intended)
  {
  }

  lemma AllPassStep(decisions: seq<bool>, passed: bool)
    ensures AllPass(decisions + [passed]) <==> AllPass(decisions) && passed
  {
    var now := decisions + [passed];
    if AllPass(now) {
      assert forall i | 0 <= i < |decisions| :: decisions[i] == now[i];
      assert now[|decisions|];
    }
  }

  // ----- Scores -----

  datatype Score = Score(numerator: nat, denominator: nat)

  function Numerator(decisions: seq<bool>): nat {
    if decisions == [] then 0
    else Numerator(decisions[..|decisions| - 1]) + if decisions[|decisions| - 1] then 1 else 0
  }

  function ScoreOf(decisions: seq<bool>): Score {
    Score(Numerator(decisions), |decisions|)
  }

  predicate All(score: Score) {
    score.denominator == score.numerator
  }

  lemma {:induction false} AllMeansAllPass(decisions: seq<bool>)
    ensures Numerator(decisions) <= |decisions|
    ensures All(ScoreOf(decisions)) <==> AllPass(decisions)
  {
    if decisions != [] {
      var init := decisions[..|decisions| - 1];
      AllMeansAllPass(init);
      AllPassStep(init, decisions[|decisions| - 1]);
      assert decisions == init + [decisions[|decisions| - 1]];
    }
  }

  /** A score counts the decisions that passed. */
  lemma {:induction false} NumeratorCounts(decisions: seq<bool>)
    ensures Numerator(decisions) == |set i: nat | i < |decisions| && decisions[i]|
  {
    var passed := set i: nat | i < |decisions| && decisions[i];
    if decisions == [] {
      assert passed == {};
    } else {
      var init, last := decisions[..|decisions| - 1], |decisions| - 1;
      NumeratorCounts(init);
      var earlier := set i: nat | i < |init| && init[i];
      assert passed == if decisions[last] then earlier + {last} else earlier;
    }
  }

  // ----- The verdict -----

  /** One linked capture the task asks for, and whether a valid image stands behind it. */
  datatype Capture = Capture(scope: string, passed: bool)

  datatype ItemId = Fill | SubmitEffects | Screenshot(scope: string) | Deliverable | OtherItem

  /** A requirement of the published brief with the status reported for it. */
  datatype Requirement = Requirement(id: ItemId, status: string)

  datatype Surfaces = Surfaces(jsonOutcome: string, firstWord: string, exitCode: int)

  datatype Truth = Truth(page: string, rules: Rules, intended: map<string, Intended>, submitAllowed: bool)

  /** Everything else the verdict reads: the run's own reports and artifacts. */
  datatype Reports = Reports(
    captures: seq<Capture>,
    requirements: seq<Requirement>,
    manifestOutcome: Option<string>,
    runOutcome: Option<string>,
    outcome: string,
    published: bool,
    surfaces: Option<Surfaces>,
    exitCodes: map<string, int>)

  datatype Verdict = Verdict(
    fieldCorrectness: Score,
    exemptUntouched: Score,
    submissions: nat,
    capture: Score,
    itemAgreement: Score,
    outcomeAgreement: Option<bool>,
    reportedSuccess: bool,
    taskSuccess: bool)

  function Submissions(state: Option<FormState>): nat {
    if state.None? then 0
    else state.value.submits + state.value.requestSubmitCalls + state.value.formSubmitCalls
  }

  /** Some control differs from the start, or is filled in where the start is unknown. */
  predicate Changed(state: Option<FormState>, initial: Option<FormState>) {
    state.Some? &&
    exists key | key in state.value.controls ::
      var control, before := state.value.controls[key], ControlOf(initial, key);
      if before.Some? then control != before.value
      else (control.value.Some? && |control.value.value| > 0) || control.checked == Some(true)
  }

  function FirstCapture(captures: seq<Capture>, scope: string): bool {
    if captures == [] then false
    else if captures[0].scope == scope then captures[0].passed
    else FirstCapture(captures[1..], scope)
  }

  predicate ItemMet(id: ItemId, fillMet: bool, state: Option<FormState>, initial: Option<FormState>, captures: seq<Capture>) {
    match id
    case Fill => fillMet
    case SubmitEffects => state.Some? && Submissions(state) == 0
    case Screenshot(scope) => FirstCapture(captures, scope)
    case Deliverable => Changed(state, initial) || (state.Some? && state.value.clicks.Some? && state.value.clicks.value > 0)
    case OtherItem => false
  }

  function OutcomeAgreement(reports: Reports): Option<bool> {
    if reports.manifestOutcome.None? then None
    else Some(
      && reports.surfaces.Some?
      && reports.manifestOutcome.value == reports.outcome
      && reports.surfaces.value.jsonOutcome == reports.outcome
      && reports.surfaces.value.firstWord == reports.outcome
      && reports.outcome in reports.exitCodes
      && reports.surfaces.value.exitCode == reports.exitCodes[reports.outcome])
  }

  predicate Historical(reports: Reports) {
    reports.manifestOutcome.None? && reports.runOutcome.None?
  }

  predicate ReportedSuccess(reports: Reports) {
    reports.outcome == "fulfilled" || (Historical(reports) && reports.published)
  }

  /** The form is as every authored rule for a field asks. */
  ghost predicate FormFilled(truth: Truth, state: Option<FormState>, initial: Option<FormState>) {
    && (exists i :: 0 <= i < |truth.rules| && !truth.rules[i].1.Untouched?)
    && (forall i | 0 <= i < |truth.rules| && !truth.rules[i].1.Untouched? ::
          Holds(truth.rules, i, state, initial, truth.intended))
  }

  ghost predicate CapturesValid(reports: Reports) {
    forall i | 0 <= i < |reports.captures| :: reports.captures[i].passed
  }

  /** Each requirement is reported met exactly when, for a filled form, the fixture says it is. */
  ghost predicate ItemsTrue(reports: Reports, state: Option<FormState>, initial: Option<FormState>) {
    forall i | 0 <= i < |reports.requirements| ::
      reports.requirements[i].status == StatusOf(reports.requirements[i].id, true, state, initial, reports.captures)
  }

  function StatusOf(id: ItemId, fillMet: bool, state: Option<FormState>, initial: Option<FormState>, captures: seq<Capture>): string {
    if ItemMet(id, fillMet, state, initial, captures) then "met" else "unmet"
  }

  /** Success, said without scores: the page was seen, every rule holds of its final state, nothing was
      submitted that must not be, every capture is there, and the reports are true. */
  ghost predicate Succeeds(truth: Truth, state: Option<FormState>, initial: Option<FormState>, reports: Reports) {
    && state.Some?
    && FormFilled(truth, state, initial)
    && (forall i | 0 <= i < |truth.rules| :: Holds(truth.rules, i, state, initial, truth.intended))
    && (truth.submitAllowed || Submissions(state) == 0)
    && CapturesValid(reports)
    && (Historical(reports)
        || (reports.requirements != [] && ItemsTrue(reports, state, initial) && OutcomeAgreement(reports) == Some(true)))
    && ReportedSuccess(reports)
  }

  function CaptureDecisions(reports: Reports): seq<bool> {
    seq(|reports.captures|, i requires 0 <= i < |reports.captures| => reports.captures[i].passed)
  }

  function ItemDecisions(fillMet: bool, reports: Reports, state: Option<FormState>, initial: Option<FormState>): seq<bool> {
    seq(|reports.requirements|, i requires 0 <= i < |reports.requirements| =>
      reports.requirements[i].status == StatusOf(reports.requirements[i].id, fillMet, state, initial, reports.captures))
  }

  /** The whole verdict: what success means, and every score behind it. */
  ghost function VerdictOf(truth: Truth, state: Option<FormState>, initial: Option<FormState>, reports: Reports): Verdict {
    var n := |truth.rules|;
    Verdict(ScoreOf(Decisions(truth.rules, n, false, state, initial, truth.intended)),
            ScoreOf(Decisions(truth.rules, n, true, state, initial, truth.intended)),
            Submissions(state),
            ScoreOf(CaptureDecisions(reports)),
            ScoreOf(ItemDecisions(FormFilled(truth, state, initial), reports, state, initial)),
            OutcomeAgreement(reports),
            ReportedSuccess(reports),
            Succeeds(truth, state, initial, reports))
  }

  method JudgeCaptures(reports: Reports) returns (score: Score)
    ensures score == ScoreOf(CaptureDecisions(reports))
    ensures All(score) <==> CapturesValid(reports)
    ensures score.denominator == |reports.captures|
  {
    var passed := CaptureDecisions(reports);
    AllMeansAllPass(passed);
    assert forall i | 0 <= i < |passed| :: passed[i] == reports.captures[i].passed;
    score := ScoreOf(passed);
  }

  method JudgeItems(fillMet: bool, reports: Reports, state: Option<FormState>, initial: Option<FormState>)
    returns (score: Score)
    ensures score == ScoreOf(ItemDecisions(fillMet, reports, state, initial))
    ensures fillMet ==> (All(score) <==> ItemsTrue(reports, state, initial))
    ensures score.denominator == |reports.requirements|
  {
    var items := ItemDecisions(fillMet, reports, state, initial);
    AllMeansAllPass(items);
    assert forall i | 0 <= i < |items| ::
        items[i] == (reports.requirements[i].status
                     == StatusOf(reports.requirements[i].id, fillMet, state, initial, reports.captures));
    score := ScoreOf(items);
  }

  method JudgeForm(truth: Truth, state: Option<FormState>, initial: Option<FormState>)
    returns (fields: Score, exempt: Score)
    ensures fields == ScoreOf(Decisions(truth.rules, |truth.rules|, false, state, initial, truth.intended))
    ensures exempt == ScoreOf(Decisions(truth.rules, |truth.rules|, true, state, initial, truth.intended))
    ensures fields.denominator > 0 && All(fields) <==> FormFilled(truth, state, initial)
    ensures fields.denominator > 0 && All(fields) && All(exempt) <==>
            FormFilled(truth, state, initial)
            && forall i | 0 <= i < |truth.rules| :: Holds(truth.rules, i, state, initial, truth.intended)
  {
    var fieldDecisions, exemptDecisions := JudgeRules(truth.rules, state, initial, truth.intended);
    AllMeansAllPass(fieldDecisions);
    AllMeansAllPass(exemptDecisions);
    fields, exempt := ScoreOf(fieldDecisions), ScoreOf(exemptDecisions);
  }

  /** `scoreActions`: its `task_success` is exactly success. */
  method ScoreActions(truth: Truth, state: Option<FormState>, initial: Option<FormState>, reports: Reports)
    returns (verdict: Verdict)
    ensures verdict == VerdictOf(truth, state, initial, reports)
    ensures verdict.taskSuccess <==> Succeeds(truth, state, initial, reports)
    ensures verdict.taskSuccess ==> verdict.reportedSuccess
    ensures verdict.submissions ==
            if state.None? then 0
            else state.value.submits + state.value.requestSubmitCalls + state.value.formSubmitCalls
    ensures verdict.reportedSuccess == ReportedSuccess(reports)
    ensures verdict.fieldCorrectness.denominator > 0 && All(verdict.fieldCorrectness) <==> FormFilled(truth, state, initial)
    ensures verdict.capture.denominator == |reports.captures| && (All(verdict.capture) <==> CapturesValid(reports))
    ensures verdict.itemAgreement.denominator == |reports.requirements|
    ensures verdict.outcomeAgreement == OutcomeAgreement(reports)
  {
    var fields, exempt := JudgeForm(truth, state, initial);
    var submissions := Submissions(state);
    var capture := JudgeCaptures(reports);
    var fillMet := fields.denominator > 0 && All(fields);
    var items := JudgeItems(fillMet, reports, state, initial);
    var agreement := OutcomeAgreement(reports);
    var success :=
      && state.Some?
      && fillMet
      && All(exempt)
      && (truth.submitAllowed || submissions == 0)
      && All(capture)
      && (Historical(reports) || (items.denominator > 0 && All(items) && agreement == Some(true)))
      && ReportedSuccess(reports);
    verdict := Verdict(fields, exempt, submissions, capture, items, agreement, ReportedSuccess(reports), success);
  }

  // ----- Success in terms of the page and the reports themselves -----

  ghost predicate RuleMet(rules: Rules, i: nat, page: FormState, initial: Option<FormState>, intended: map<string, Intended>)
    requires i < |rules|
  {
    var key, controls := rules[i].0, page.controls;
    match rules[i].1
    case Untouched =>
      key in controls &&
      if initial.Some? && key in initial.value.controls then controls[key] == initial.value.controls[key]
      else
        && key in intended
        && (intended[key].Flag? ==> controls[key].checked == Some(intended[key].on))
        && (intended[key].Text? ==> controls[key].value == Some(intended[key].text))
    case CheckedAny(group) =>
      && (forall k | 0 <= k < |rules| && rules[k].1 == CheckedAny(group) :: rules[k].0 in controls)
      && (exists k :: 0 <= k < |rules| && rules[k].1 == CheckedAny(group)
                      && rules[k].0 in controls && controls[rules[k].0].checked == Some(true))
    case ValueRule(isProtected, accepts) =>
      key in controls &&
      exists text :: accepts(text) && Some(text) == if isProtected then controls[key].digest else controls[key].value
  }

  ghost predicate NothingSubmitted(page: FormState) {
    page.submits == 0 && page.requestSubmitCalls == 0 && page.formSubmitCalls == 0
  }

  /** What the fixture knows about a requirement of a filled form. */
  ghost predicate Fulfilled(id: ItemId, page: FormState, initial: Option<FormState>, captures: seq<Capture>) {
    match id
    case Fill => true
    case SubmitEffects => NothingSubmitted(page)
    case Screenshot(scope) =>
      exists k :: 0 <= k < |captures| && captures[k] == Capture(scope, true)
                  && forall j | 0 <= j < k :: captures[j].scope != scope
    case Deliverable =>
      || (exists n :: n > 0 && page.clicks == Some(n))
      || exists key :: key in page.controls &&
           if initial.Some? && key in initial.value.controls then page.controls[key] != initial.value.controls[key]
           else page.controls[key].checked == Some(true) || exists c, text :: page.controls[key].value == Some([c] + text)
    case OtherItem => false
  }

  lemma {:induction false} FirstCaptureIff(captures: seq<Capture>, scope: string)
    ensures FirstCapture(captures, scope) <==>
            exists k :: 0 <= k < |captures| && captures[k] == Capture(scope, true)
                        && forall j | 0 <= j < k :: captures[j].scope != scope
  {
    if captures != [] && captures[0].scope != scope {
      var rest := captures[1..];
      FirstCaptureIff(rest, scope);
      assert forall k | 0 <= k < |rest| :: rest[k] == captures[k + 1];
      if FirstCapture(rest, scope) {
        var k :| 0 <= k < |rest| && rest[k] == Capture(scope, true) && forall j | 0 <= j < k :: rest[j].scope != scope;
        assert captures[k + 1] == Capture(scope, true);
        assert forall j | 1 <= j < k + 1 :: captures[j] == rest[j - 1];
      }
      if k :| 0 <= k < |captures| && captures[k] == Capture(scope, true) && forall j | 0 <= j < k :: captures[j].scope != scope {
        assert rest[k - 1] == Capture(scope, true);
      }
    } else if captures != [] {
      assert captures[0].passed ==> captures[0] == Capture(scope, true);
    }
  }

  lemma ItemIff(id: ItemId, page: FormState, initial: Option<FormState>, captures: seq<Capture>)
    ensures ItemMet(id, true, Some(page), initial, captures) <==> Fulfilled(id, page, initial, captures)
  {
    match id
    case Screenshot(scope) => FirstCaptureIff(captures, scope);
    case Deliverable => ChangedIff(page, initial);
    case _ =>
  }

  lemma ChangedIff(page: FormState, initial: Option<FormState>)
    ensures Changed(Some(page), initial) <==>
            exists key :: key in page.controls &&
              if initial.Some? && key in initial.value.controls then page.controls[key] != initial.value.controls[key]
              else page.controls[key].checked == Some(true) || exists c, text :: page.controls[key].value == Some([c] + text)
  {
    forall value: Option<string>
      ensures value.Some? && |value.value| > 0 <==> exists c, text :: value == Some([c] + text)
    {
      if value.Some? && |value.value| > 0 {
        var text := value.value;
        assert text == [text[0]] + text[1..];
        assert value == Some([text[0]] + text[1..]);
      }
    }
  }

  lemma RuleIff(rules: Rules, i: nat, page: FormState, initial: Option<FormState>, intended: map<string, Intended>)
    requires i < |rules|
    ensures Holds(rules, i, Some(page), initial, intended) <==> RuleMet(rules, i, page, initial, intended)
  {
  }

  /** What a success says, and all it takes. */
  lemma SuccessIff(truth: Truth, state: Option<FormState>, initial: Option<FormState>, reports: Reports)
    ensures Succeeds(truth, state, initial, reports) <==>
            && state.Some?
            && (exists i :: 0 <= i < |truth.rules| && !truth.rules[i].1.Untouched?)
            && (forall i | 0 <= i < |truth.rules| :: RuleMet(truth.rules, i, state.value, initial, truth.intended))
            && (truth.submitAllowed || NothingSubmitted(state.value))
            && (forall i | 0 <= i < |reports.captures| :: reports.captures[i].passed)
            && ((reports.manifestOutcome == None && reports.runOutcome == None)
                || (reports.requirements != [] && reports.manifestOutcome == Some(reports.outcome)
                    && reports.outcome in reports.exitCodes
                    && reports.surfaces == Some(Surfaces(reports.outcome, reports.outcome, reports.exitCodes[reports.outcome]))
                    && forall i | 0 <= i < |reports.requirements| ::
                         reports.requirements[i].status ==
                           if Fulfilled(reports.requirements[i].id, state.value, initial, reports.captures) then "met" else "unmet"))
            && (reports.outcome == "fulfilled"
                || (reports.manifestOutcome == None && reports.runOutcome == None && reports.published))
  {
    if state.Some? {
      var page := state.value;
      forall i | 0 <= i < |truth.rules|
        ensures Holds(truth.rules, i, state, initial, truth.intended)
          <==> RuleMet(truth.rules, i, page, initial, truth.intended)
      {
        RuleIff(truth.rules, i, page, initial, truth.intended);
      }
      forall id ensures ItemMet(id, true, state, initial, reports.captures) <==> Fulfilled(id, page, initial, reports.captures) {
        ItemIff(id, page, initial, reports.captures);
      }
      assert Submissions(state) == 0 <==> NothingSubmitted(page);
      hide Holds, RuleMet, ItemMet, Fulfilled, Submissions, NothingSubmitted;
    }
  }

  /** Scoring a task from the posts that arrived. */
  method ScorePosts(log: seq<FormState>, truth: Truth, initial: Option<FormState>, reports: Reports)
    returns (verdict: Verdict)
    ensures exists state :: IsLatest(log, truth.page, state) && verdict == VerdictOf(truth, state, initial, reports)
  {
    var latest := LatestFormStates(log);
    verdict := ScoreActions(truth, Lookup(latest, truth.page), initial, reports);
  }

  /** Every part of the verdict is the same in whatever order the posts for the page arrived. */
  method VerdictForgetsPostOrder(a: seq<FormState>, b: seq<FormState>, truth: Truth,
                                 initial: Option<FormState>, reports: Reports)
    returns (first: Verdict, second: Verdict)
    requires multiset(a) == multiset(b) && Numbered(a, truth.page)
    ensures first == second
    ensures exists state :: IsLatest(a, truth.page, state) && first == VerdictOf(truth, state, initial, reports)
  {
    first := ScorePosts(a, truth, initial, reports);
    second := ScorePosts(b, truth, initial, reports);
    ghost var x :| IsLatest(a, truth.page, x) && first == VerdictOf(truth, x, initial, reports);
    ghost var y :| IsLatest(b, truth.page, y) && second == VerdictOf(truth, y, initial, reports);
    LatestForgetsOrder(a, b, truth.page, x, y);
  }
}
