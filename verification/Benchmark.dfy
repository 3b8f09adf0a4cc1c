/**
 The benchmark report: runs of several scorecards grouped into cells by scenario, model setting and
 phase, the counts of each cell, and the target that asks for two settings good on the same layouts.
 */
module Benchmark {
  import opened Common
  import ActionScore

  /** What the report counts of a run; the action score is absent for runs without a form. */
  datatype Action = Action(taskSuccess: bool, reportedSuccess: bool)
  datatype Run = Run(id: string, action: Option<Action>)

  datatype Scenario = Scenario(id: string, runs: seq<Run>)

  /** One scorecard, with its model setting and phase spelled out. */
  datatype Input = Input(setting: string, phase: string, promptVersion: string, scenarios: seq<Scenario>)

  datatype Key = Key(scenario: string, setting: string, phase: string)

  datatype Tagged = Tagged(key: Key, run: Run)

  datatype Error = PromptMismatch | DuplicateRun | NothingToReport
  datatype Result<+T> = Ok(value: T) | Err(error: Error)

  /** Groups in order of first appearance. */
  datatype Groups = Groups(order: seq<Key>, runs: map<Key, seq<Run>>)

  // ----- What the inputs hold -----

  predicate IsBenchForm(s: Scenario) {
    "bench-form-" <= s.id
  }

  function KeyOf(input: Input, s: Scenario): Key {
    Key(s.id, input.setting, input.phase)
  }

  function TagAll(key: Key, runs: seq<Run>): seq<Tagged> {
    seq(|runs|, i requires 0 <= i < |runs| => Tagged(key, runs[i]))
  }

  /** The runs that the report takes from the first `n` scenarios of an input, in order. */
  function FromScenarios(input: Input, n: nat): seq<Tagged>
    requires n <= |input.scenarios|
  {
    if n == 0 then []
    else
      var s := input.scenarios[n - 1];
      FromScenarios(input, n - 1) + if IsBenchForm(s) then TagAll(KeyOf(input, s), s.runs) else []
  }

  function FromInputs(inputs: seq<Input>, n: nat): seq<Tagged>
    requires n <= |inputs|
  {
    if n == 0 then [] else FromInputs(inputs, n - 1) + FromScenarios(inputs[n - 1], |inputs[n - 1].scenarios|)
  }

  function Accepted(inputs: seq<Input>): seq<Tagged> {
    FromInputs(inputs, |inputs|)
  }

  /** The runs with a given key, in order. */
  function RunsOf(tagged: seq<Tagged>, key: Key): seq<Run> {
    if tagged == [] then []
    else RunsOf(tagged[..|tagged| - 1], key)
         + if tagged[|tagged| - 1].key == key then [tagged[|tagged| - 1].run] else []
  }

  ghost predicate Uses(input: Input, key: Key) {
    exists i :: 0 <= i < |input.scenarios| && IsBenchForm(input.scenarios[i]) && KeyOf(input, input.scenarios[i]) == key
  }

  ghost predicate PromptsAgree(inputs: seq<Input>) {
    forall i, j | 0 <= i < j < |inputs| && inputs[i].setting == inputs[j].setting && inputs[i].phase == inputs[j].phase ::
      inputs[i].promptVersion == inputs[j].promptVersion
  }

  ghost predicate NoRepeats(tagged: seq<Tagged>) {
    forall i, j | 0 <= i < j < |tagged| && tagged[i].key == tagged[j].key :: tagged[i].run.id != tagged[j].run.id
  }

  /** Taken are exactly the runs of the scenarios whose ids start with `bench-form-`, each under its
      scenario, setting and phase. */
  lemma AcceptedAre(inputs: seq<Input>, t: Tagged)
    ensures t in Accepted(inputs) <==>
            exists i, j :: 0 <= i < |inputs| && 0 <= j < |inputs[i].scenarios| && TakenFrom(inputs[i], j, t)
  {
    FromInputsAre(inputs, |inputs|, t);
  }

  ghost predicate TakenFrom(input: Input, j: nat, t: Tagged)
    requires j < |input.scenarios|
  {
    var s := input.scenarios[j];
    "bench-form-" <= s.id && t.run in s.runs && t.key == Key(s.id, input.setting, input.phase)
  }

  lemma {:induction false} FromScenariosAre(input: Input, n: nat, t: Tagged)
    requires n <= |input.scenarios|
    ensures t in FromScenarios(input, n) <==> exists j :: 0 <= j < n && TakenFrom(input, j, t)
  {
    if n > 0 {
      var s := input.scenarios[n - 1];
      FromScenariosAre(input, n - 1, t);
      var added := TagAll(KeyOf(input, s), s.runs);
      assert t in added <==> t.key == KeyOf(input, s) && t.run in s.runs by {
        if t.key == KeyOf(input, s) && t.run in s.runs {
          var k :| 0 <= k < |s.runs| && s.runs[k] == t.run;
          assert added[k] == t;
        }
      }
      assert TakenFrom(input, n - 1, t) <==> IsBenchForm(s) && t in added;
    }
  }

  lemma {:induction false} FromInputsAre(inputs: seq<Input>, n: nat, t: Tagged)
    requires n <= |inputs|
    ensures t in FromInputs(inputs, n) <==>
            exists i, j :: 0 <= i < n && 0 <= j < |inputs[i].scenarios| && TakenFrom(inputs[i], j, t)
  {
    if n > 0 {
      FromInputsAre(inputs, n - 1, t);
      FromScenariosAre(inputs[n - 1], |inputs[n - 1].scenarios|, t);
    }
  }

  // ----- Grouping -----

  /** The groups hold exactly the tagged runs, each under its key, and no key is listed twice. */
  ghost predicate Holds(groups: Groups, tagged: seq<Tagged>) {
    && (forall key :: key in groups.order <==> key in groups.runs)
    && (forall i, j | 0 <= i < j < |groups.order| :: groups.order[i] != groups.order[j])
    && (forall key | key in groups.runs :: groups.runs[key] == RunsOf(tagged, key))
    && (forall i | 0 <= i < |tagged| :: tagged[i].key in groups.runs)
  }

  lemma RunsOfAppend(tagged: seq<Tagged>, t: Tagged, key: Key)
    ensures RunsOf(tagged + [t], key) == RunsOf(tagged, key) + if t.key == key then [t.run] else []
  {
    assert (tagged + [t])[..|tagged|] == tagged;
  }

  lemma {:induction false} RunsOfMember(tagged: seq<Tagged>, key: Key, run: Run)
    ensures run in RunsOf(tagged, key) <==> Tagged(key, run) in tagged
  {
    if tagged != [] {
      var init, last := tagged[..|tagged| - 1], tagged[|tagged| - 1];
      RunsOfMember(init, key, run);
      assert tagged == init + [last];
    }
  }

  lemma NoRepeatsAppend(tagged: seq<Tagged>, t: Tagged)
    requires NoRepeats(tagged)
    ensures NoRepeats(tagged + [t]) <==> forall run | run in RunsOf(tagged, t.key) :: run.id != t.run.id
  {
    var now := tagged + [t];
    if forall run | run in RunsOf(tagged, t.key) :: run.id != t.run.id {
      forall i, j | 0 <= i < j < |now| && now[i].key == now[j].key ensures now[i].run.id != now[j].run.id {
        if j == |tagged| {
          assert tagged[i] == Tagged(t.key, tagged[i].run);
          RunsOfMember(tagged, t.key, tagged[i].run);
        }
      }
    }
    if NoRepeats(now) {
      forall run | run in RunsOf(tagged, t.key) ensures run.id != t.run.id {
        RunsOfMember(tagged, t.key, run);
        var i :| 0 <= i < |tagged| && tagged[i] == Tagged(t.key, run);
        assert now[i] == tagged[i] && now[|tagged|] == t;
      }
    }
  }

  /** A run joins its group unless one with its id is there already. */
  method AddRun(groups: Groups, t: Tagged, ghost tagged: seq<Tagged>) returns (r: Result<Groups>)
    requires Holds(groups, tagged) && NoRepeats(tagged) && t.key in groups.runs
    ensures r.Ok? <==> NoRepeats(tagged + [t])
    ensures r.Ok? ==> Holds(r.value, tagged + [t]) && r.value.runs.Keys == groups.runs.Keys
    ensures r.Err? ==> r.error == DuplicateRun
  {
    NoRepeatsAppend(tagged, t);
    if exists run | run in groups.runs[t.key] :: run.id == t.run.id { return Err(DuplicateRun); }
    AppendHolds(groups, tagged, t);
    r := Ok(groups.(runs := groups.runs[t.key := groups.runs[t.key] + [t.run]]));
  }

  /** The innermost loop: the runs of one scenario. */
  method AddRuns(groups: Groups, key: Key, runs: seq<Run>, ghost tagged: seq<Tagged>) returns (r: Result<Groups>)
    requires Holds(groups, tagged) && NoRepeats(tagged)
    ensures r.Ok? <==> NoRepeats(tagged + TagAll(key, runs))
    ensures r.Ok? ==> Holds(r.value, tagged + TagAll(key, runs)) && r.value.runs.Keys == groups.runs.Keys + {key}
    ensures r.Err? ==> r.error == DuplicateRun
  {
    hide Holds, NoRepeats, RunsOf;
    var now := if key in groups.runs then groups else Groups(groups.order + [key], groups.runs[key := []]);
    if key !in groups.runs { FreshKeyHolds(groups, key, tagged); }
    ghost var all := TagAll(key, runs);
    assert tagged + all[..0] == tagged;
    for i := 0 to |runs|
      invariant Holds(now, tagged + all[..i]) && NoRepeats(tagged + all[..i])
      invariant now.runs.Keys == groups.runs.Keys + {key}
    {
      assert (tagged + all[..i]) + [all[i]] == tagged + all[..i + 1];
      var next := AddRun(now, Tagged(key, runs[i]), tagged + all[..i]);
      if next.Err? {
        RepeatInPrefix(tagged, all[..i + 1], all);
        return next;
      }
      now := next.value;
    }
    assert all[..|runs|] == all;
    r := Ok(now);
  }

  lemma FreshKeyHolds(groups: Groups, key: Key, tagged: seq<Tagged>)
    requires Holds(groups, tagged) && key !in groups.runs
    ensures Holds(Groups(groups.order + [key], groups.runs[key := []]), tagged)
  {
    NoRunsOf(tagged, key);
  }

  lemma {:induction false} NoRunsOf(tagged: seq<Tagged>, key: Key)
    requires forall i | 0 <= i < |tagged| :: tagged[i].key != key
    ensures RunsOf(tagged, key) == []
  {
    if tagged != [] { NoRunsOf(tagged[..|tagged| - 1], key); }
  }

  lemma AppendHolds(groups: Groups, tagged: seq<Tagged>, t: Tagged)
    requires Holds(groups, tagged) && t.key in groups.runs
    ensures Holds(groups.(runs := groups.runs[t.key := groups.runs[t.key] + [t.run]]), tagged + [t])
  {
    forall key ensures RunsOf(tagged + [t], key) == RunsOf(tagged, key) + if t.key == key then [t.run] else [] {
      RunsOfAppend(tagged, t, key);
    }
    forall i | 0 <= i < |tagged + [t]| ensures (tagged + [t])[i].key in groups.runs {
      if i < |tagged| { assert tagged[i].key in groups.runs; }
    }
  }

  /** A repeat in a prefix is a repeat. */
  lemma RepeatStays(short: seq<Tagged>, long: seq<Tagged>)
    requires short <= long && !NoRepeats(short)
    ensures !NoRepeats(long)
  {
    var i, j :| 0 <= i < j < |short| && short[i].key == short[j].key && short[i].run.id == short[j].run.id;
    assert short[i] == long[i] && short[j] == long[j];
  }

  ghost predicate UsesBefore(input: Input, key: Key, n: nat)
    requires n <= |input.scenarios|
  {
    exists i :: 0 <= i < n && IsBenchForm(input.scenarios[i]) && KeyOf(input, input.scenarios[i]) == key
  }

  lemma RepeatInPrefix(tagged: seq<Tagged>, short: seq<Tagged>, long: seq<Tagged>)
    requires short <= long && !NoRepeats(tagged + short)
    ensures !NoRepeats(tagged + long)
  {
    RepeatStays(tagged + short, tagged + long);
  }

  /** The key that scenario `n` of an input contributes, if any. */
  function KeysAt(input: Input, n: nat): set<Key>
    requires n < |input.scenarios|
  {
    if IsBenchForm(input.scenarios[n]) then {KeyOf(input, input.scenarios[n])} else {}
  }

  lemma UsesStep(input: Input, n: nat)
    requires n < |input.scenarios|
    ensures forall key :: UsesBefore(input, key, n + 1) <==> UsesBefore(input, key, n) || key in KeysAt(input, n)
  {
  }

  /** What the loops keep: the groups hold what was taken so far, without repeats. */
  ghost predicate Grouped(groups: Groups, tagged: seq<Tagged>) {
    Holds(groups, tagged) && NoRepeats(tagged)
  }

  method AddScenario(groups: Groups, input: Input, n: nat, ghost tagged: seq<Tagged>) returns (r: Result<Groups>)
    requires n < |input.scenarios| && Grouped(groups, tagged + FromScenarios(input, n))
    ensures r.Ok? <==> NoRepeats(tagged + FromScenarios(input, n + 1))
    ensures r.Ok? ==> Grouped(r.value, tagged + FromScenarios(input, n + 1))
    ensures r.Ok? ==> r.value.runs.Keys == groups.runs.Keys + KeysAt(input, n)
    ensures r.Err? ==> r.error == DuplicateRun
  {
    var s := input.scenarios[n];
    if IsBenchForm(s) {
      ghost var before := tagged + FromScenarios(input, n);
      assert before + TagAll(KeyOf(input, s), s.runs) == tagged + FromScenarios(input, n + 1);
      r := AddRuns(groups, KeyOf(input, s), s.runs, before);
    } else {
      assert FromScenarios(input, n + 1) == FromScenarios(input, n);
      r := Ok(groups);
    }
  }

  /** The middle loop: the benchmark scenarios of one scorecard. */
  method AddInput(groups: Groups, input: Input, ghost tagged: seq<Tagged>) returns (r: Result<Groups>)
    requires Grouped(groups, tagged)
    ensures r.Ok? <==> NoRepeats(tagged + FromScenarios(input, |input.scenarios|))
    ensures r.Ok? ==> Grouped(r.value, tagged + FromScenarios(input, |input.scenarios|))
    ensures r.Ok? ==> forall key :: key in r.value.runs <==> key in groups.runs || Uses(input, key)
    ensures r.Err? ==> r.error == DuplicateRun
  {
    hide Holds, NoRepeats, RunsOf;
    var now := groups;
    assert tagged + FromScenarios(input, 0) == tagged;
    for i := 0 to |input.scenarios|
      invariant Grouped(now, tagged + FromScenarios(input, i))
      invariant forall key :: key in now.runs <==> key in groups.runs || UsesBefore(input, key, i)
    {
      var next := AddScenario(now, input, i, tagged);
      if next.Err? {
        LaterScenarios(input, i + 1);
        RepeatInPrefix(tagged, FromScenarios(input, i + 1), FromScenarios(input, |input.scenarios|));
        return next;
      }
      UsesStep(input, i);
      now := next.value;
    }
    r := Ok(now);
  }

  lemma {:induction false} LaterScenarios(input: Input, n: nat)
    requires n <= |input.scenarios|
    ensures FromScenarios(input, n) <= FromScenarios(input, |input.scenarios|)
    decreases |input.scenarios| - n
  {
    if n < |input.scenarios| { LaterScenarios(input, n + 1); }
  }

  lemma {:induction false} LaterInputs(inputs: seq<Input>, n: nat)
    requires n <= |inputs|
    ensures FromInputs(inputs, n) <= Accepted(inputs)
    decreases |inputs| - n
  {
    if n < |inputs| { LaterInputs(inputs, n + 1); }
  }

  ghost predicate UsedBefore(inputs: seq<Input>, key: Key, n: nat)
    requires n <= |inputs|
  {
    exists i :: 0 <= i < n && Uses(inputs[i], key)
  }

  lemma UsedStep(inputs: seq<Input>, n: nat)
    requires n < |inputs|
    ensures forall key :: UsedBefore(inputs, key, n + 1) <==> UsedBefore(inputs, key, n) || Uses(inputs[n], key)
  {
  }

  lemma RememberedAgree(prompts: map<(string, string), string>, inputs: seq<Input>)
    requires Remembers(prompts, inputs, |inputs|)
    ensures PromptsAgree(inputs)
  {
  }

  /** `prompts` has the version of every setting and phase seen so far. */
  ghost predicate Remembers(prompts: map<(string, string), string>, inputs: seq<Input>, n: nat)
    requires n <= |inputs|
  {
    && (forall i | 0 <= i < n :: (inputs[i].setting, inputs[i].phase) in prompts
                                 && prompts[(inputs[i].setting, inputs[i].phase)] == inputs[i].promptVersion)
    && (forall key | key in prompts ::
          exists i :: 0 <= i < n && key == (inputs[i].setting, inputs[i].phase) && prompts[key] == inputs[i].promptVersion)
  }

  /** The test for one more scorecard fails exactly when it disagrees with an earlier one. */
  method RememberPrompt(prompts: map<(string, string), string>, inputs: seq<Input>, n: nat)
    returns (ok: bool, now: map<(string, string), string>)
    requires n < |inputs| && Remembers(prompts, inputs, n)
    ensures ok ==> Remembers(now, inputs, n + 1)
    ensures !ok ==> !PromptsAgree(inputs)
  {
    var key := (inputs[n].setting, inputs[n].phase);
    now := prompts;
    if key in prompts && prompts[key] != inputs[n].promptVersion { return false, now; }
    now := prompts[key := inputs[n].promptVersion];
    ok := true;
  }

  /** The body of the outer loop. */
  method AddOne(groups: Groups, inputs: seq<Input>, n: nat) returns (r: Result<Groups>)
    requires n < |inputs| && Grouped(groups, FromInputs(inputs, n))
    requires forall key :: key in groups.runs <==> UsedBefore(inputs, key, n)
    ensures r.Ok? ==> Grouped(r.value, FromInputs(inputs, n + 1))
    ensures r.Ok? ==> forall key :: key in r.value.runs <==> UsedBefore(inputs, key, n + 1)
    ensures r.Err? ==> r.error == DuplicateRun && !NoRepeats(Accepted(inputs))
  {
    r := AddInput(groups, inputs[n], FromInputs(inputs, n));
    UsedStep(inputs, n);
    if r.Err? {
      LaterInputs(inputs, n + 1);
      RepeatStays(FromInputs(inputs, n + 1), Accepted(inputs));
    }
  }

  ghost predicate SomethingToReport(inputs: seq<Input>) {
    exists key :: UsedBefore(inputs, key, |inputs|)
  }

  /** There is something to report exactly when some scenario is a benchmark form, with runs or not. */
  lemma SomethingIff(inputs: seq<Input>)
    ensures SomethingToReport(inputs) <==>
            exists i, j :: 0 <= i < |inputs| && 0 <= j < |inputs[i].scenarios| && "bench-form-" <= inputs[i].scenarios[j].id
  {
    if i, j :| 0 <= i < |inputs| && 0 <= j < |inputs[i].scenarios| && "bench-form-" <= inputs[i].scenarios[j].id {
      assert Uses(inputs[i], KeyOf(inputs[i], inputs[i].scenarios[j]));
      assert UsedBefore(inputs, KeyOf(inputs[i], inputs[i].scenarios[j]), |inputs|);
    }
  }

  /** The outer loop. It ends well exactly when prompt versions agree within each setting and phase, no
      run is repeated within a cell, and some scenario is a benchmark form. */
  method GroupInputs(inputs: seq<Input>) returns (r: Result<Groups>)
    ensures r.Ok? <==> PromptsAgree(inputs) && NoRepeats(Accepted(inputs)) && SomethingToReport(inputs)
    ensures r.Ok? ==> Holds(r.value, Accepted(inputs))
    ensures r.Ok? ==> forall key :: key in r.value.runs <==> UsedBefore(inputs, key, |inputs|)
    ensures r.Err? ==>
        match r.error
        case PromptMismatch => !PromptsAgree(inputs)
        case DuplicateRun => !NoRepeats(Accepted(inputs))
        case NothingToReport => PromptsAgree(inputs) && !SomethingToReport(inputs)
  {
    var prompts: map<(string, string), string> := map[];
    var groups := Groups([], map[]);
    for n := 0 to |inputs|
      invariant Remembers(prompts, inputs, n)
      invariant Grouped(groups, FromInputs(inputs, n))
      invariant forall key :: key in groups.runs <==> UsedBefore(inputs, key, n)
    {
      var ok;
      ok, prompts := RememberPrompt(prompts, inputs, n);
      if !ok { return Err(PromptMismatch); }
      var next := AddOne(groups, inputs, n);
      if next.Err? { return next; }
      groups := next.value;
    }
    RememberedAgree(prompts, inputs);
    if groups.order == [] {
      assert forall key :: key !in groups.order;
      return Err(NothingToReport);
    }
    assert groups.order[0] in groups.order;
    r := Ok(groups);
  }

  // ----- Cells -----

  datatype Cell = Cell(key: Key, runs: nat, successes: nat, reported: nat, falseFulfilled: nat)

  predicate Succeeded(run: Run) { run.action.Some? && run.action.value.taskSuccess }

  predicate Reported(run: Run) { run.action.Some? && run.action.value.reportedSuccess }

  predicate FalselyFulfilled(run: Run) { Reported(run) && !Succeeded(run) }

  function CountIf(runs: seq<Run>, p: Run -> bool): nat {
    if runs == [] then 0 else CountIf(runs[..|runs| - 1], p) + if p(runs[|runs| - 1]) then 1 else 0
  }

  function CellOf(key: Key, runs: seq<Run>): Cell {
    Cell(key, |runs|, CountIf(runs, Succeeded), CountIf(runs, Reported), CountIf(runs, FalselyFulfilled))
  }

  /** The places of the runs that `p` picks. */
  ghost function Where(runs: seq<Run>, p: Run -> bool): set<nat> {
    set i: nat | i < |runs| && p(runs[i])
  }

  lemma {:induction false} CountIs(runs: seq<Run>, p: Run -> bool)
    ensures CountIf(runs, p) == |Where(runs, p)|
  {
    if runs == [] {
      assert Where(runs, p) == {};
    } else {
      var init, last := runs[..|runs| - 1], |runs| - 1;
      CountIs(init, p);
      assert Where(runs, p) == if p(runs[last]) then Where(init, p) + {last} else Where(init, p);
    }
  }

  /** What the numbers of a cell count. */
  lemma CellCounts(key: Key, runs: seq<Run>)
    ensures var cell := CellOf(key, runs);
            && cell.key == key && cell.runs == |runs|
            && cell.successes == |set i: nat | i < |runs| && runs[i].action.Some? && runs[i].action.value.taskSuccess|
            && cell.reported == |set i: nat | i < |runs| && runs[i].action.Some? && runs[i].action.value.reportedSuccess|
            && cell.falseFulfilled ==
                 |set i: nat | i < |runs| && runs[i].action.Some? && runs[i].action.value.reportedSuccess
                               && !runs[i].action.value.taskSuccess|
  {
    CountIs(runs, Succeeded);
    CountIs(runs, Reported);
    CountIs(runs, FalselyFulfilled);
    assert Where(runs, Succeeded) == set i: nat | i < |runs| && runs[i].action.Some? && runs[i].action.value.taskSuccess;
    assert Where(runs, Reported) == set i: nat | i < |runs| && runs[i].action.Some? && runs[i].action.value.reportedSuccess;
    assert Where(runs, FalselyFulfilled) ==
        set i: nat | i < |runs| && runs[i].action.Some? && runs[i].action.value.reportedSuccess
                     && !runs[i].action.value.taskSuccess;
  }

  function CellsOf(groups: Groups): seq<Cell>
    requires forall key | key in groups.order :: key in groups.runs
  {
    seq(|groups.order|, i requires 0 <= i < |groups.order| => CellOf(groups.order[i], groups.runs[groups.order[i]]))
  }

  /** Reported runs are the successes and the falsely fulfilled ones, and nothing else, exactly when no
      success goes unreported; there are never more of them than of those two together. */
  lemma {:induction false} ReportedSplits(key: Key, runs: seq<Run>)
    ensures var cell := CellOf(key, runs);
            && (cell.reported == cell.successes + cell.falseFulfilled
                <==> forall run | run in runs :: Succeeded(run) ==> Reported(run))
            && cell.reported <= cell.successes + cell.falseFulfilled
            && cell.reported <= cell.runs
  {
    if runs != [] {
      var init, last := runs[..|runs| - 1], runs[|runs| - 1];
      assert runs == init + [last];
      ReportedSplits(key, init);
      assert (forall run | run in runs :: Succeeded(run) ==> Reported(run)) <==>
          (forall run | run in init :: Succeeded(run) ==> Reported(run)) && (Succeeded(last) ==> Reported(last));
    }
  }

  /** A run to be scored; only action tasks have a form to judge. */
  datatype Attempt = Attempt(id: string, task: Option<Task>)
  datatype Task = Task(truth: ActionScore.Truth, state: Option<ActionScore.FormState>,
                       initial: Option<ActionScore.FormState>, reports: ActionScore.Reports)

  ghost function ScoredAs(attempt: Attempt): Run {
    match attempt.task
    case None => Run(attempt.id, None)
    case Some(t) =>
      var verdict := ActionScore.VerdictOf(t.truth, t.state, t.initial, t.reports);
      Run(attempt.id, Some(Action(verdict.taskSuccess, verdict.reportedSuccess)))
  }

  /** Runs that the action scorer scored: their cell always splits. */
  method ScoreRuns(attempts: seq<Attempt>, key: Key) returns (runs: seq<Run>)
    ensures |runs| == |attempts| && forall i | 0 <= i < |runs| :: runs[i] == ScoredAs(attempts[i])
    ensures CellOf(key, runs).reported == CellOf(key, runs).successes + CellOf(key, runs).falseFulfilled
  {
    runs := [];
    for i := 0 to |attempts|
      invariant |runs| == i && forall j | 0 <= j < i :: runs[j] == ScoredAs(attempts[j])
      invariant forall run | run in runs :: Succeeded(run) ==> Reported(run)
    {
      var action := None;
      if attempts[i].task.Some? {
        var t := attempts[i].task.value;
        var verdict := ActionScore.ScoreActions(t.truth, t.state, t.initial, t.reports);
        action := Some(Action(verdict.taskSuccess, verdict.reportedSuccess));
      }
      runs := runs + [Run(attempts[i].id, action)];
    }
    ReportedSplits(key, runs);
  }

  function TotalOfFirst(cells: seq<Cell>, n: nat): nat
    requires n <= |cells|
  {
    if n == 0 then 0 else TotalOfFirst(cells, n - 1) + cells[n - 1].runs
  }

  function TotalRuns(cells: seq<Cell>): nat {
    TotalOfFirst(cells, |cells|)
  }

  /** How many of `tagged` have one of the first `n` keys. */
  ghost function CoveredBy(tagged: seq<Tagged>, order: seq<Key>): nat {
    if tagged == [] then 0
    else CoveredBy(tagged[..|tagged| - 1], order) + if tagged[|tagged| - 1].key in order then 1 else 0
  }

  lemma {:induction false} CoveredByOneMore(tagged: seq<Tagged>, order: seq<Key>, key: Key)
    requires key !in order
    ensures CoveredBy(tagged, order + [key]) == CoveredBy(tagged, order) + |RunsOf(tagged, key)|
  {
    if tagged != [] { CoveredByOneMore(tagged[..|tagged| - 1], order, key); }
  }

  lemma {:induction false} CoveredByNone(tagged: seq<Tagged>)
    ensures CoveredBy(tagged, []) == 0
  {
    if tagged != [] { CoveredByNone(tagged[..|tagged| - 1]); }
  }

  lemma {:induction false} CoveredByAll(tagged: seq<Tagged>, order: seq<Key>)
    requires forall i | 0 <= i < |tagged| :: tagged[i].key in order
    ensures CoveredBy(tagged, order) == |tagged|
  {
    if tagged != [] { CoveredByAll(tagged[..|tagged| - 1], order); }
  }

  lemma {:induction false} TotalOfPrefix(groups: Groups, tagged: seq<Tagged>, n: nat)
    requires Holds(groups, tagged) && n <= |groups.order|
    ensures TotalOfFirst(CellsOf(groups), n) == CoveredBy(tagged, groups.order[..n])
  {
    if n == 0 {
      CoveredByNone(tagged);
    } else {
      TotalOfPrefix(groups, tagged, n - 1);
      var key := groups.order[n - 1];
      assert groups.order[..n] == groups.order[..n - 1] + [key];
      assert key in groups.order && groups.runs[key] == RunsOf(tagged, key);
      CoveredByOneMore(tagged, groups.order[..n - 1], key);
    }
  }

  /** Runs are conserved: the cells' run counts add up to the runs taken from the inputs. */
  lemma RunsAreConserved(groups: Groups, tagged: seq<Tagged>)
    requires Holds(groups, tagged)
    ensures TotalRuns(CellsOf(groups)) == |tagged|
  {
    var n := |groups.order|;
    TotalOfPrefix(groups, tagged, n);
    assert groups.order[..n] == groups.order;
    CoveredByAll(tagged, groups.order);
  }

  /** No cell counts two runs with the same id. */
  lemma {:induction false} CellHasNoRepeats(tagged: seq<Tagged>, key: Key)
    requires NoRepeats(tagged)
    ensures var runs := RunsOf(tagged, key);
            forall i, j | 0 <= i < j < |runs| :: runs[i].id != runs[j].id
  {
    if tagged != [] {
      var init, last := tagged[..|tagged| - 1], tagged[|tagged| - 1];
      assert tagged == init + [last];
      if !NoRepeats(init) { RepeatStays(init, tagged); }
      CellHasNoRepeats(init, key);
      RunsOfAppend(init, last, key);
      if last.key == key {
        NoRepeatsAppend(init, last);
        DistinctAppend(RunsOf(init, key), last.run);
      } else {
        assert RunsOf(tagged, key) == RunsOf(init, key);
      }
    }
  }

  lemma DistinctAppend(runs: seq<Run>, run: Run)
    requires forall i, j | 0 <= i < j < |runs| :: runs[i].id != runs[j].id
    requires forall other | other in runs :: other.id != run.id
    ensures forall i, j | 0 <= i < j < |runs + [run]| :: (runs + [run])[i].id != (runs + [run])[j].id
  {
    assert forall i | 0 <= i < |runs| :: runs[i] in runs;
  }

  // ----- The target on models -----

  predicate Passes(cell: Cell) {
    cell.runs >= 20 && cell.successes as real / cell.runs as real >= 0.95
  }

  /** At most one run in twenty may fail, and there must be twenty. */
  lemma PassesIff(cell: Cell)
    requires cell.successes <= cell.runs
    ensures Passes(cell) <==> cell.runs >= 20 && 20 * (cell.runs - cell.successes) <= cell.runs
  {
    if cell.runs >= 20 { ShareIff(cell.successes, cell.runs); }
  }

  lemma ShareIff(part: nat, whole: nat)
    requires whole > 0
    ensures part as real / whole as real >= 0.95 <==> 20 * part >= 19 * whole
  {
    var share := part as real / whole as real;
    assert share * whole as real == part as real;
    if share >= 0.95 {
      assert part as real >= 0.95 * whole as real;
    } else {
      assert part as real < 0.95 * whole as real;
    }
  }

  /** The setting passes on the layout in some cell. */
  predicate PassesOn(cells: seq<Cell>, setting: string, layout: string) {
    exists i | 0 <= i < |cells| :: cells[i].key.setting == setting && cells[i].key.scenario == layout && Passes(cells[i])
  }

  /** `[...new Set(...)]`: each value once, in order of first appearance. */
  function Unique(s: seq<string>): (r: seq<string>)
    ensures forall x :: x in r <==> x in s
    ensures forall i, j | 0 <= i < j < |r| :: r[i] != r[j]
  {
    if s == [] then []
    else
      var r := Unique(s[..|s| - 1]);
      assert s == s[..|s| - 1] + [s[|s| - 1]];
      if s[|s| - 1] in r then r else r + [s[|s| - 1]]
  }

  function Layouts(observed: seq<Cell>): seq<string> {
    if observed == [] then []
    else Layouts(observed[..|observed| - 1])
         + if Passes(observed[|observed| - 1]) then [observed[|observed| - 1].key.scenario] else []
  }

  function Settings(observed: seq<Cell>): seq<string> {
    seq(|observed|, i requires 0 <= i < |observed| => observed[i].key.setting)
  }

  /** The layouts on which both settings pass. */
  function CommonLayouts(observed: seq<Cell>, layouts: seq<string>, a: string, b: string): seq<string> {
    if layouts == [] then []
    else
      var last := layouts[|layouts| - 1];
      CommonLayouts(observed, layouts[..|layouts| - 1], a, b)
        + if PassesOn(observed, a, last) && PassesOn(observed, b, last) then [last] else []
  }

  lemma {:induction false} CommonIs(observed: seq<Cell>, layouts: seq<string>, a: string, b: string)
    requires forall i, j | 0 <= i < j < |layouts| :: layouts[i] != layouts[j]
    ensures var common := CommonLayouts(observed, layouts, a, b);
            && (forall x :: x in common <==> x in layouts && PassesOn(observed, a, x) && PassesOn(observed, b, x))
            && (forall i, j | 0 <= i < j < |common| :: common[i] != common[j])
  {
    if layouts != [] {
      var init, last := layouts[..|layouts| - 1], layouts[|layouts| - 1];
      CommonIs(observed, init, a, b);
      assert layouts == init + [last];
      assert last !in init;
    }
  }

  lemma {:induction false} LayoutsAre(observed: seq<Cell>, layout: string)
    ensures layout in Layouts(observed) <==>
            exists i :: 0 <= i < |observed| && observed[i].key.scenario == layout && Passes(observed[i])
  {
    if observed != [] {
      var init := observed[..|observed| - 1];
      LayoutsAre(init, layout);
      assert forall i | 0 <= i < |init| :: init[i] == observed[i];
    }
  }

  /** Two different settings pass on three common layouts. */
  ghost predicate TwoOnThree(observed: seq<Cell>) {
    exists a, b, x, y, z ::
      a != b && x != y && y != z && x != z
      && PassesOn(observed, a, x) && PassesOn(observed, a, y) && PassesOn(observed, a, z)
      && PassesOn(observed, b, x) && PassesOn(observed, b, y) && PassesOn(observed, b, z)
  }

  /** The `models` target: counting, for each pair of settings, the layouts both pass on, it is met
      exactly when two different settings pass on three common layouts. */
  method ModelsTarget(observed: seq<Cell>) returns (met: bool)
    ensures met <==> TwoOnThree(observed)
  {
    var layouts, settings := Unique(Layouts(observed)), Unique(Settings(observed));
    met := exists i, j | 0 <= i < j < |settings| :: |CommonLayouts(observed, layouts, settings[i], settings[j])| >= 3;
    if met {
      ghost var i, j :| 0 <= i < j < |settings| && |CommonLayouts(observed, layouts, settings[i], settings[j])| >= 3;
      ThreeCommon(observed, layouts, settings[i], settings[j]);
    }
    if TwoOnThree(observed) {
      PairIsListed(observed, layouts, settings);
    }
  }

  /** The cells that the targets look at. */
  function Observed(cells: seq<Cell>): seq<Cell> {
    if cells == [] then []
    else
      var earlier, last := Observed(cells[..|cells| - 1]), cells[|cells| - 1];
      if last.key.phase == "after" then earlier + [last] else earlier
  }

  lemma {:induction false} ObservedAre(cells: seq<Cell>, cell: Cell)
    ensures cell in Observed(cells) <==> cell in cells && cell.key.phase == "after"
  {
    if cells != [] {
      var init := cells[..|cells| - 1];
      ObservedAre(init, cell);
      assert cells == init + [cells[|cells| - 1]];
    }
  }

  /** The report, as far as it is modelled: its cells and three of its targets. */
  datatype Report = Report(cells: seq<Cell>, perCell: bool, layouts: bool, models: bool)

  /** One cell for each key in use, with the counts of exactly the runs taken under it. */
  ghost predicate CellsAreOf(cells: seq<Cell>, inputs: seq<Input>) {
    && (forall i, j | 0 <= i < j < |cells| :: cells[i].key != cells[j].key)
    && (forall key :: UsedBefore(inputs, key, |inputs|) <==> exists cell :: cell in cells && cell.key == key)
    && (forall cell | cell in cells :: cell == CellOf(cell.key, RunsOf(Accepted(inputs), cell.key)))
  }

  lemma CellsOfGroups(groups: Groups, inputs: seq<Input>)
    requires Holds(groups, Accepted(inputs))
    requires forall key :: key in groups.runs <==> UsedBefore(inputs, key, |inputs|)
    ensures CellsAreOf(CellsOf(groups), inputs)
  {
    var cells := CellsOf(groups);
    forall key ensures UsedBefore(inputs, key, |inputs|) <==> exists cell :: cell in cells && cell.key == key {
      if UsedBefore(inputs, key, |inputs|) {
        assert key in groups.order;
        var i :| 0 <= i < |groups.order| && groups.order[i] == key;
        assert cells[i] in cells && cells[i].key == key;
      }
      if cell :| cell in cells && cell.key == key {
        assert key in groups.order;
      }
    }
    forall cell | cell in cells ensures cell == CellOf(cell.key, RunsOf(Accepted(inputs), cell.key)) {
      var i :| 0 <= i < |cells| && cells[i] == cell;
      assert groups.order[i] in groups.order;
    }
  }

  /** `buildBenchmark`, from the scorecards to the targets. */
  method BuildBenchmark(inputs: seq<Input>) returns (r: Result<Report>)
    ensures r.Ok? <==> PromptsAgree(inputs) && NoRepeats(Accepted(inputs)) && SomethingToReport(inputs)
    ensures r.Ok? ==>
        var report := r.value;
        var observed := Observed(report.cells);
        && CellsAreOf(report.cells, inputs)
        && TotalRuns(report.cells) == |Accepted(inputs)|
        && (report.perCell <==> observed != [] && forall cell | cell in observed :: Passes(cell))
        && (report.layouts <==> exists a, b, c ::
              a != b && b != c && a != c && PassedOn(observed, a) && PassedOn(observed, b) && PassedOn(observed, c))
        && (report.models <==> TwoOnThree(observed))
  {
    var grouped := GroupInputs(inputs);
    if grouped.Err? { return Err(grouped.error); }
    var cells := CellsOf(grouped.value);
    CellsOfGroups(grouped.value, inputs);
    RunsAreConserved(grouped.value, Accepted(inputs));
    var observed := Observed(cells);
    var layouts := Unique(Layouts(observed));
    ThreeLayouts(observed, layouts);
    var models := ModelsTarget(observed);
    r := Ok(Report(cells, observed != [] && forall cell | cell in observed :: Passes(cell), |layouts| >= 3, models));
  }

  ghost predicate PassedOn(observed: seq<Cell>, layout: string) {
    exists cell :: cell in observed && cell.key.scenario == layout && Passes(cell)
  }

  lemma ThreeLayouts(observed: seq<Cell>, layouts: seq<string>)
    requires layouts == Unique(Layouts(observed))
    ensures |layouts| >= 3 <==> exists a, b, c ::
              a != b && b != c && a != c && PassedOn(observed, a) && PassedOn(observed, b) && PassedOn(observed, c)
  {
    forall layout: string ensures layout in layouts <==> PassedOn(observed, layout) {
      LayoutsAre(observed, layout);
    }
    if |layouts| >= 3 {
      assert layouts[0] in layouts && layouts[1] in layouts && layouts[2] in layouts;
    }
    if a, b, c :| a != b && b != c && a != c && PassedOn(observed, a) && PassedOn(observed, b) && PassedOn(observed, c) {
      ThreeIn(layouts, a, b, c);
    }
  }

  lemma ThreeCommon(observed: seq<Cell>, layouts: seq<string>, a: string, b: string)
    requires forall i, j | 0 <= i < j < |layouts| :: layouts[i] != layouts[j]
    requires a != b && |CommonLayouts(observed, layouts, a, b)| >= 3
    ensures TwoOnThree(observed)
  {
    CommonIs(observed, layouts, a, b);
    var common := CommonLayouts(observed, layouts, a, b);
    var x, y, z := common[0], common[1], common[2];
    assert x in common && y in common && z in common;
  }

  lemma PairIsListed(observed: seq<Cell>, layouts: seq<string>, settings: seq<string>)
    requires TwoOnThree(observed)
    requires layouts == Unique(Layouts(observed)) && settings == Unique(Settings(observed))
    ensures exists i, j :: 0 <= i < j < |settings| && |CommonLayouts(observed, layouts, settings[i], settings[j])| >= 3
  {
    var a, b, x, y, z :|
      a != b && x != y && y != z && x != z
      && PassesOn(observed, a, x) && PassesOn(observed, a, y) && PassesOn(observed, a, z)
      && PassesOn(observed, b, x) && PassesOn(observed, b, y) && PassesOn(observed, b, z);
    hide PassesOn, CommonLayouts, Layouts, Settings, Unique;
    SettingIsListed(observed, a, x);
    SettingIsListed(observed, b, x);
    var i: nat, j: nat :| i < |settings| && j < |settings| && settings[i] == a && settings[j] == b;
    var p, q := if i < j then i else j, if i < j then j else i;
    CommonlyPassed(observed, layouts, settings[p], settings[q], x);
    CommonlyPassed(observed, layouts, settings[p], settings[q], y);
    CommonlyPassed(observed, layouts, settings[p], settings[q], z);
    ThreeIn(CommonLayouts(observed, layouts, settings[p], settings[q]), x, y, z);
  }

  lemma CommonlyPassed(observed: seq<Cell>, layouts: seq<string>, a: string, b: string, layout: string)
    requires layouts == Unique(Layouts(observed))
    requires PassesOn(observed, a, layout) && PassesOn(observed, b, layout)
    ensures layout in CommonLayouts(observed, layouts, a, b)
  {
    LayoutsAre(observed, layout);
    CommonIs(observed, layouts, a, b);
  }

  lemma SettingIsListed(observed: seq<Cell>, setting: string, layout: string)
    requires PassesOn(observed, setting, layout)
    ensures setting in Unique(Settings(observed))
  {
    var i :| 0 <= i < |observed| && observed[i].key.setting == setting;
    assert Settings(observed)[i] == setting;
  }

  lemma ThreeIn(s: seq<string>, x: string, y: string, z: string)
    requires x in s && y in s && z in s && x != y && y != z && x != z
    ensures |s| >= 3
  {
    var i :| 0 <= i < |s| && s[i] == x;
    var j :| 0 <= j < |s| && s[j] == y;
    var k :| 0 <= k < |s| && s[k] == z;
  }
}
