/**
 The scripted agent session: a script interpreter that can be prompted again, aborted at any moment,
 and that runs the calls of a parallel step side by side.

 Every method of `Session` is one uninterruptible stretch of the program, between two waits. Their
 preconditions say when such a stretch can come next; every order they allow is a run.
 */
module ScriptedSession {
  import opened Common

  /** `guarded`: the call has a `when`; `resolver`: its parameters are computed and may turn out null. */
  datatype Step =
    | Call(name: Option<string>, tool: string, guarded: bool, resolver: bool)
    | Parallel(steps: seq<Step>)
    | AdvanceClock(ms: nat)
    | Think(ms: nat)
    | LatchSensitiveScreen

  /** What the evidence so far makes of one call leaf. */
  datatype Evidence = Evidence(declines: bool, findsNothing: bool)

  datatype Event =
    | TurnStarted
    | OutputStarted
    | ToolStarted(call: nat)
    | ToolFinished(call: nat)
    | TurnFinished

  /** A call leaf is named by its place among the leaves of the script, in script order. */
  datatype Received = Received(leaf: nat, call: nat, status: string)
  datatype Unreachable = Unreachable(leaf: nat, registered: bool)

  // ----- Counting what a script holds -----

  function Leaves(step: Step): nat {
    match step
    case Call(_, _, _, _) => 1
    case Parallel(steps) => LeavesOf(steps)
    case _ => 0
  }

  function LeavesOf(steps: seq<Step>): nat {
    if steps == [] then 0 else LeavesOf(steps[..|steps| - 1]) + Leaves(steps[|steps| - 1])
  }

  predicate CountsAsTurn(step: Step) {
    !step.AdvanceClock? && !step.LatchSensitiveScreen?
  }

  function TurnsOf(steps: seq<Step>): nat {
    if steps == [] then 0
    else TurnsOf(steps[..|steps| - 1]) + if CountsAsTurn(steps[|steps| - 1]) then 1 else 0
  }

  /** Clock time the steps let pass. */
  function ClockOf(step: Step): nat {
    match step
    case AdvanceClock(ms) => ms
    case Parallel(steps) => ClockOfAll(steps)
    case _ => 0
  }

  function ClockOfAll(steps: seq<Step>): nat {
    if steps == [] then 0 else ClockOfAll(steps[..|steps| - 1]) + ClockOf(steps[|steps| - 1])
  }

  /** Thinking steps, nested ones included. */
  function Thinks(step: Step): nat {
    match step
    case Think(_) => 1
    case Parallel(steps) => ThinksOf(steps)
    case _ => 0
  }

  function ThinksOf(steps: seq<Step>): nat {
    if steps == [] then 0 else ThinksOf(steps[..|steps| - 1]) + Thinks(steps[|steps| - 1])
  }

  /** What becomes of a call leaf when its turn comes. */
  datatype Fate = Declined | NothingFound | NotRegistered | Started

  function FateOf(call: Step, evidence: Evidence, catalog: set<string>): Fate
    requires call.Call?
  {
    if call.guarded && evidence.declines then Declined
    else if call.resolver && evidence.findsNothing then NothingFound
    else if call.tool !in catalog then NotRegistered
    else Started
  }

  /** The fates of a step's leaves, the first of which is leaf number `base`. */
  function Fates(step: Step, base: nat, evidence: nat -> Evidence, catalog: set<string>): (r: seq<Fate>)
    ensures |r| == Leaves(step)
  {
    match step
    case Call(_, _, _, _) => [FateOf(step, evidence(base), catalog)]
    case Parallel(steps) => FatesOf(steps, base, evidence, catalog)
    case _ => []
  }

  function FatesOf(steps: seq<Step>, base: nat, evidence: nat -> Evidence, catalog: set<string>): (r: seq<Fate>)
    ensures |r| == LeavesOf(steps)
  {
    if steps == [] then []
    else
      var earlier := FatesOf(steps[..|steps| - 1], base, evidence, catalog);
      earlier + Fates(steps[|steps| - 1], base + |earlier|, evidence, catalog)
  }

  lemma LeavesOfPrefix(steps: seq<Step>, k: nat)
    requires k < |steps|
    ensures LeavesOf(steps[..k + 1]) == LeavesOf(steps[..k]) + Leaves(steps[k])
    ensures TurnsOf(steps[..k + 1]) == TurnsOf(steps[..k]) + if CountsAsTurn(steps[k]) then 1 else 0
    ensures ClockOfAll(steps[..k + 1]) == ClockOfAll(steps[..k]) + ClockOf(steps[k])
    ensures ThinksOf(steps[..k + 1]) == ThinksOf(steps[..k]) + Thinks(steps[k])
  {
    assert steps[..k + 1][..k] == steps[..k];
  }

  // ----- Accounting for leaves -----

  ghost function TimesReceived(received: seq<Received>, leaf: nat): nat {
    if received == [] then 0
    else TimesReceived(received[..|received| - 1], leaf) + if received[|received| - 1].leaf == leaf then 1 else 0
  }

  ghost function TimesUnreachable(unreachable: seq<Unreachable>, leaf: nat): nat {
    if unreachable == [] then 0
    else TimesUnreachable(unreachable[..|unreachable| - 1], leaf)
         + if unreachable[|unreachable| - 1].leaf == leaf then 1 else 0
  }

  ghost function TimesSkipped(skipped: seq<nat>, leaf: nat): nat {
    if skipped == [] then 0
    else TimesSkipped(skipped[..|skipped| - 1], leaf) + if skipped[|skipped| - 1] == leaf then 1 else 0
  }

  /** How many of the first `calls` calls are in flight for `leaf`. */
  ghost function TimesInFlight(inFlight: map<nat, nat>, calls: nat, leaf: nat): nat {
    if calls == 0 then 0
    else TimesInFlight(inFlight, calls - 1, leaf) + if calls in inFlight && inFlight[calls] == leaf then 1 else 0
  }

  ghost function Places(received: seq<Received>, unreachable: seq<Unreachable>, skipped: seq<nat>,
                        inFlight: map<nat, nat>, calls: nat, leaf: nat): nat
  {
    TimesReceived(received, leaf) + TimesUnreachable(unreachable, leaf) + TimesSkipped(skipped, leaf)
    + TimesInFlight(inFlight, calls, leaf)
  }

  /** Each place holds leaves of the right fate only. */
  ghost predicate Placed(received: seq<Received>, unreachable: seq<Unreachable>, skipped: seq<nat>,
                         inFlight: map<nat, nat>, fates: seq<Fate>)
  {
    && (forall r | r in received :: r.leaf < |fates| && fates[r.leaf] == Started)
    && (forall call | call in inFlight :: inFlight[call] < |fates| && fates[inFlight[call]] == Started)
    && (forall leaf | leaf in skipped :: leaf < |fates| && fates[leaf] == Declined)
    && (forall u | u in unreachable ::
          u.leaf < |fates| && fates[u.leaf] == if u.registered then NothingFound else NotRegistered)
  }

  /** Every leaf started so far is in exactly one place, and no other leaf is anywhere. */
  ghost predicate Balanced(received: seq<Received>, unreachable: seq<Unreachable>, skipped: seq<nat>,
                           inFlight: map<nat, nat>, calls: nat, leaves: nat)
  {
    forall leaf: nat :: Places(received, unreachable, skipped, inFlight, calls, leaf) == if leaf < leaves then 1 else 0
  }

  lemma {:induction false} FlyingIgnoresNewer(a: map<nat, nat>, b: map<nat, nat>, calls: nat, leaf: nat)
    requires forall call | 1 <= call <= calls :: (call in a <==> call in b) && (call in a ==> a[call] == b[call])
    ensures TimesInFlight(a, calls, leaf) == TimesInFlight(b, calls, leaf)
  {
    if calls > 0 { FlyingIgnoresNewer(a, b, calls - 1, leaf); }
  }

  /** Taking one call out of the set takes its leaf out, once. */
  lemma {:induction false} FlyingWithout(inFlight: map<nat, nat>, calls: nat, call: nat, leaf: nat)
    requires 1 <= call <= calls && call in inFlight
    ensures TimesInFlight(inFlight, calls, leaf)
            == TimesInFlight(inFlight - {call}, calls, leaf) + if inFlight[call] == leaf then 1 else 0
  {
    if call == calls {
      FlyingIgnoresNewer(inFlight, inFlight - {call}, calls - 1, leaf);
    } else {
      FlyingWithout(inFlight, calls - 1, call, leaf);
    }
  }

  lemma {:induction false} NothingInFlight(calls: nat, leaf: nat)
    ensures TimesInFlight(map[], calls, leaf) == 0
  {
    if calls > 0 { NothingInFlight(calls - 1, leaf); }
  }

  // ----- What the events must look like -----

  /** Calls start in the order of their numbers; a finish ends a call in flight; turns are counted. */
  ghost predicate Orderly(events: seq<Event>, calls: nat, flying: set<nat>, turns: nat) {
    if events == [] then calls == 0 && flying == {} && turns == 0
    else
      var before := events[..|events| - 1];
      match events[|events| - 1]
      case ToolStarted(call) => calls == call > 0 && call in flying && Orderly(before, calls - 1, flying - {call}, turns)
      case ToolFinished(call) => call !in flying && Orderly(before, calls, flying + {call}, turns)
      case TurnFinished => turns > 0 && Orderly(before, calls, flying, turns - 1)
      case _ => Orderly(before, calls, flying, turns)
  }

  lemma {:induction false} FlyingAreCalls(events: seq<Event>, calls: nat, flying: set<nat>, turns: nat)
    requires Orderly(events, calls, flying, turns)
    ensures forall call | call in flying :: 1 <= call <= calls
  {
    if events != [] {
      var before := events[..|events| - 1];
      match events[|events| - 1]
      case ToolStarted(c) =>
        FlyingAreCalls(before, calls - 1, flying - {c}, turns);
        assert flying == (flying - {c}) + {c};
      case ToolFinished(c) => FlyingAreCalls(before, calls, flying + {c}, turns);
      case TurnFinished => FlyingAreCalls(before, calls, flying, turns - 1);
      case _ => FlyingAreCalls(before, calls, flying, turns);
    }
  }

  ghost function Occurrences(events: seq<Event>, event: Event): nat {
    if events == [] then 0
    else Occurrences(events[..|events| - 1], event) + if events[|events| - 1] == event then 1 else 0
  }

  /** Every call made and every thinking step begun announces a turn; every call, its output. */
  ghost predicate Announced(events: seq<Event>, calls: nat, thoughts: nat) {
    Occurrences(events, TurnStarted) == calls + thoughts && Occurrences(events, OutputStarted) == calls
  }

  lemma OccurrencesAfter(events: seq<Event>, event: Event)
    ensures forall e :: Occurrences(events + [event], e) == Occurrences(events, e) + if e == event then 1 else 0
  {
    assert (events + [event])[..|events|] == events;
  }

  /** Call ids are unique: one start for every call made, none for any other number; one finish for
      every call that is not in flight any more, none for the rest; one `turn_finished` per turn. */
  lemma {:induction false} EventsPairUp(events: seq<Event>, calls: nat, flying: set<nat>, turns: nat, call: nat)
    requires Orderly(events, calls, flying, turns)
    ensures Occurrences(events, ToolStarted(call)) == if 1 <= call <= calls then 1 else 0
    ensures Occurrences(events, ToolFinished(call)) == if 1 <= call <= calls && call !in flying then 1 else 0
    ensures Occurrences(events, TurnFinished) == turns
  {
    if events != [] {
      var before := events[..|events| - 1];
      FlyingAreCalls(events, calls, flying, turns);
      match events[|events| - 1]
      case ToolStarted(c) =>
        EventsPairUp(before, calls - 1, flying - {c}, turns, call);
      case ToolFinished(c) =>
        FlyingAreCalls(before, calls, flying + {c}, turns);
        EventsPairUp(before, calls, flying + {c}, turns, call);
      case TurnFinished => EventsPairUp(before, calls, flying, turns - 1, call);
      case _ => EventsPairUp(before, calls, flying, turns, call);
    }
  }

  /** A finish comes after the start of the same call. */
  lemma {:induction false} StartComesFirst(events: seq<Event>, calls: nat, flying: set<nat>, turns: nat, k: nat)
    requires Orderly(events, calls, flying, turns)
    requires k < |events| && events[k].ToolFinished?
    ensures ToolStarted(events[k].call) in events[..k]
    decreases |events|, 0
  {
    var before := events[..|events| - 1];
    match events[|events| - 1]
    case ToolStarted(c) => FinishIn(before, calls - 1, flying - {c}, turns, events, k);
    case ToolFinished(c) =>
      if k == |events| - 1 {
        FlyingAreCalls(before, calls, flying + {c}, turns);
        EventsPairUp(before, calls, flying + {c}, turns, c);
        OccursIn(before, ToolStarted(c));
      } else {
        FinishIn(before, calls, flying + {c}, turns, events, k);
      }
    case TurnFinished => FinishIn(before, calls, flying, turns - 1, events, k);
    case _ => FinishIn(before, calls, flying, turns, events, k);
  }

  lemma {:induction false} FinishIn(before: seq<Event>, calls: nat, flying: set<nat>, turns: nat, events: seq<Event>, k: nat)
    requires Orderly(before, calls, flying, turns)
    requires events != [] && before == events[..|events| - 1] && k < |before| && events[k].ToolFinished?
    ensures ToolStarted(events[k].call) in events[..k]
    decreases |before|, 1
  {
    StartComesFirst(before, calls, flying, turns, k);
    assert before[..k] == events[..k];
  }

  lemma {:induction false} OccursIn(events: seq<Event>, event: Event)
    requires Occurrences(events, event) > 0
    ensures event in events
  {
    if events[|events| - 1] != event { OccursIn(events[..|events| - 1], event); }
  }

  // ----- What one step does to the accounts -----

  lemma SkipBalances(received: seq<Received>, unreachable: seq<Unreachable>, skipped: seq<nat>,
                     inFlight: map<nat, nat>, calls: nat, leaf: nat)
    requires Balanced(received, unreachable, skipped, inFlight, calls, leaf)
    ensures Balanced(received, unreachable, skipped + [leaf], inFlight, calls, leaf + 1)
  {
    assert (skipped + [leaf])[..|skipped|] == skipped;
    forall other: nat
      ensures Places(received, unreachable, skipped + [leaf], inFlight, calls, other)
              == Places(received, unreachable, skipped, inFlight, calls, other) + if other == leaf then 1 else 0
    {
    }
  }

  lemma UnreachableBalances(received: seq<Received>, unreachable: seq<Unreachable>, skipped: seq<nat>,
                            inFlight: map<nat, nat>, calls: nat, leaf: nat, registered: bool)
    requires Balanced(received, unreachable, skipped, inFlight, calls, leaf)
    ensures Balanced(received, unreachable + [Unreachable(leaf, registered)], skipped, inFlight, calls, leaf + 1)
  {
    var now := unreachable + [Unreachable(leaf, registered)];
    assert now[..|unreachable|] == unreachable;
    forall other: nat
      ensures Places(received, now, skipped, inFlight, calls, other)
              == Places(received, unreachable, skipped, inFlight, calls, other) + if other == leaf then 1 else 0
    {
    }
  }

  lemma StartBalances(received: seq<Received>, unreachable: seq<Unreachable>, skipped: seq<nat>,
                      inFlight: map<nat, nat>, calls: nat, leaf: nat)
    requires Balanced(received, unreachable, skipped, inFlight, calls, leaf)
    ensures Balanced(received, unreachable, skipped, inFlight[calls + 1 := leaf], calls + 1, leaf + 1)
  {
    var now, made := inFlight[calls + 1 := leaf], calls + 1;
    forall other: nat
      ensures Places(received, unreachable, skipped, now, made, other) == if other < leaf + 1 then 1 else 0
    {
      FlyingIgnoresNewer(inFlight, now, calls, other);
      assert Places(received, unreachable, skipped, inFlight, calls, other) == if other < leaf then 1 else 0;
    }
  }

  lemma FinishBalances(received: seq<Received>, unreachable: seq<Unreachable>, skipped: seq<nat>,
                       inFlight: map<nat, nat>, calls: nat, leaves: nat, call: nat, status: string)
    requires Balanced(received, unreachable, skipped, inFlight, calls, leaves)
    requires call in inFlight && 1 <= call <= calls
    ensures Balanced(received + [Received(inFlight[call], call, status)], unreachable, skipped,
                     inFlight - {call}, calls, leaves)
  {
    var now := received + [Received(inFlight[call], call, status)];
    assert now[..|received|] == received;
    forall other: nat
      ensures Places(now, unreachable, skipped, inFlight - {call}, calls, other)
              == Places(received, unreachable, skipped, inFlight, calls, other)
    {
      FlyingWithout(inFlight, calls, call, other);
    }
  }

  lemma OrderlyEmit(events: seq<Event>, event: Event, calls: nat, flying: set<nat>, turns: nat)
    requires Orderly(events, calls, flying, turns)
    ensures event.TurnStarted? || event.OutputStarted? ==> Orderly(events + [event], calls, flying, turns)
    ensures event == ToolStarted(calls + 1) ==> Orderly(events + [event], calls + 1, flying + {calls + 1}, turns)
    ensures event.ToolFinished? && event.call in flying ==> Orderly(events + [event], calls, flying - {event.call}, turns)
    ensures event.TurnFinished? ==> Orderly(events + [event], calls, flying, turns + 1)
  {
    assert (events + [event])[..|events|] == events;
    match event
    case ToolStarted(_) =>
      FlyingAreCalls(events, calls, flying, turns);
      assert flying + {calls + 1} - {calls + 1} == flying;
    case ToolFinished(call) =>
      if call in flying { assert flying - {call} + {call} == flying; }
    case _ =>
  }

  /** The three events of a call that starts. */
  lemma StartEmits(events: seq<Event>, calls: nat, flying: set<nat>, turns: nat, thoughts: nat)
    requires Orderly(events, calls, flying, turns) && Announced(events, calls, thoughts)
    ensures var now := events + [TurnStarted, OutputStarted, ToolStarted(calls + 1)];
            Orderly(now, calls + 1, flying + {calls + 1}, turns) && Announced(now, calls + 1, thoughts)
  {
    hide Orderly, Occurrences;
    OrderlyEmit(events, TurnStarted, calls, flying, turns);
    OccurrencesAfter(events, TurnStarted);
    var one := events + [TurnStarted];
    OrderlyEmit(one, OutputStarted, calls, flying, turns);
    OccurrencesAfter(one, OutputStarted);
    var two := one + [OutputStarted];
    OrderlyEmit(two, ToolStarted(calls + 1), calls, flying, turns);
    OccurrencesAfter(two, ToolStarted(calls + 1));
    assert two + [ToolStarted(calls + 1)] == events + [TurnStarted, OutputStarted, ToolStarted(calls + 1)];
  }

  // ----- The session -----

  class Session {
    const script: seq<Step>
    const catalog: set<string>

    var cursor: nat
    var running: bool
    var aborted: bool
    /** A top-level step has begun and its turn is not accounted for yet. */
    var busy: bool
    var prompts: nat
    var calls: nat
    var turnCount: nat
    var clock: nat
    /** Unfinished thinking steps. */
    var thinking: nat
    /** `endThinking` is set: the thinking step begun last can be woken. */
    var wakeable: bool
    /** The leaf of each call whose tool is still running. */
    var inFlight: map<nat, nat>
    var received: seq<Received>
    var unreachable: seq<Unreachable>
    var skipped: seq<nat>
    var events: seq<Event>
    /** How many leaves have been started; the next one gets this as its name. */
    var leaves: nat
    /** The steps begun so far, and what became of each of their leaves. */
    ghost var begun: seq<Step>
    ghost var fates: seq<Fate>
    /** How many thinking steps have begun. */
    ghost var thoughts: nat

    /** Every leaf started so far is in exactly one place, and the events are orderly. */
    ghost predicate Accounted()
      reads this
    {
      && Balanced(received, unreachable, skipped, inFlight, calls, leaves)
      && Placed(received, unreachable, skipped, inFlight, fates)
      && |fates| == leaves
      && Orderly(events, calls, inFlight.Keys, turnCount)
      && Announced(events, calls, thoughts)
      && (wakeable ==> thinking > 0)
    }

    /** The steps begun are a prefix of the script, each begun once and in order; the leaves, the clock
        and the turns are theirs. */
    ghost predicate Valid()
      reads this
    {
      && Accounted()
      && cursor <= |script|
      && begun == script[..cursor]
      && leaves == LeavesOf(begun)
      && clock == ClockOfAll(begun)
      && thoughts == ThinksOf(begun)
      && (busy ==> cursor > 0 && running)
      && turnCount == TurnsOf(script[..if busy then cursor - 1 else cursor])
      && (!busy ==> inFlight == map[] && thinking == 0)
    }

    constructor (script: seq<Step>, catalog: set<string>)
      ensures Valid() && this.script == script && this.catalog == catalog
      ensures cursor == 0 && events == [] && !running
    {
      this.script, this.catalog := script, catalog;
      cursor, running, aborted, busy, prompts, calls, turnCount := 0, false, false, false, 0, 0, 0;
      clock, thinking, wakeable, inFlight, received, unreachable, skipped := 0, 0, false, map[], [], [], [];
      events, leaves, begun, fates, thoughts := [], 0, [], [], 0;
    }

    /** `run`, up to its loop: a prompt resumes where the script stopped. */
    method Prompt()
      requires Valid() && !running
      modifies this`prompts, this`running, this`aborted
      ensures Valid() && running && !aborted && prompts == old(prompts) + 1
    {
      prompts := prompts + 1;
      running := true;
      aborted := false;
    }

    /** An abort at any moment: it ends the thinking step begun last, unless some thinking step has ended
        since. */
    method Abort()
      requires Valid()
      modifies this`aborted, this`thinking, this`wakeable
      ensures Valid() && aborted && !wakeable
      ensures thinking == if old(wakeable) then old(thinking) - 1 else old(thinking)
    {
      aborted := true;
      if wakeable {
        thinking := thinking - 1;
        wakeable := false;
      }
    }

    /** The timer of some thinking step fires; whichever it is, none can be woken after that. */
    method EndThinking()
      requires Valid() && thinking > 0
      modifies this`thinking, this`wakeable
      ensures Valid() && thinking == old(thinking) - 1 && !wakeable
    {
      thinking := thinking - 1;
      wakeable := false;
    }

    /** One loop iteration, up to its first wait: the next step begins. */
    method BeginStep(evidence: nat -> Evidence)
      requires Valid() && running && !busy
      requires cursor < |script| && !aborted
      modifies this
      ensures Valid() && busy && running && !aborted
      ensures cursor == old(cursor) + 1 && turnCount == old(turnCount)
      ensures begun == old(begun) + [script[old(cursor)]]
      ensures fates == old(fates) + Fates(script[old(cursor)], old(leaves), evidence, catalog)
      ensures thinking == Thinks(script[old(cursor)])
      ensures thinking > 0 ==> wakeable
    {
      hide Balanced, Placed, Orderly, Announced, Fates;
      LeavesOfPrefix(script, cursor);
      var step := script[cursor];
      cursor := cursor + 1;
      busy := true;
      Execute(step, evidence);
      begun := begun + [step];
      assert begun == script[..cursor];
      assert script[..cursor - 1] == script[..old(cursor)];
    }

    /** `execute`, as far as it runs before the first wait of every branch: the leaves of a step begin in
        script order. */
    method Execute(step: Step, evidence: nat -> Evidence)
      requires Accounted()
      modifies this`leaves, this`calls, this`clock, this`thinking, this`wakeable, this`inFlight,
               this`unreachable, this`skipped, this`events, this`fates, this`thoughts
      ensures Accounted()
      ensures leaves == old(leaves) + Leaves(step) && clock == old(clock) + ClockOf(step)
      ensures step.AdvanceClock? ==> clock == old(clock) + step.ms
      ensures thinking == old(thinking) + Thinks(step) && thoughts == old(thoughts) + Thinks(step)
      ensures wakeable <==> old(wakeable) || Thinks(step) > 0
      ensures step.Think? ==> events == old(events) + [TurnStarted] && thinking == old(thinking) + 1
      ensures fates == old(fates) + Fates(step, old(leaves), evidence, catalog)
      decreases step
    {
      hide Balanced, Placed, Orderly, Announced;
      match step
      case Think(_) => BeginThinking();
      case AdvanceClock(ms) => clock := clock + ms;
      case LatchSensitiveScreen =>
      case Parallel(steps) => ExecuteAll(steps, evidence);
      case Call(_, _, _, _) =>
        BeginCall(step, evidence(leaves));
    }

    /** A thinking step announces a turn and waits for its timer or for an abort. */
    method BeginThinking()
      requires Accounted()
      modifies this`thinking, this`wakeable, this`events, this`thoughts
      ensures Accounted()
      ensures events == old(events) + [TurnStarted] && thinking == old(thinking) + 1 && wakeable
      ensures thoughts == old(thoughts) + 1
    {
      hide Balanced, Placed, Orderly;
      OrderlyEmit(events, TurnStarted, calls, inFlight.Keys, turnCount);
      OccurrencesAfter(events, TurnStarted);
      events := events + [TurnStarted];
      thinking, wakeable, thoughts := thinking + 1, true, thoughts + 1;
    }

    /** The branches of a parallel step, each up to its first wait. */
    method ExecuteAll(steps: seq<Step>, evidence: nat -> Evidence)
      requires Accounted()
      modifies this`leaves, this`calls, this`clock, this`thinking, this`wakeable, this`inFlight,
               this`unreachable, this`skipped, this`events, this`fates, this`thoughts
      ensures Accounted()
      ensures leaves == old(leaves) + LeavesOf(steps) && clock == old(clock) + ClockOfAll(steps)
      ensures thinking == old(thinking) + ThinksOf(steps) && thoughts == old(thoughts) + ThinksOf(steps)
      ensures wakeable <==> old(wakeable) || ThinksOf(steps) > 0
      ensures fates == old(fates) + FatesOf(steps, old(leaves), evidence, catalog)
      decreases steps
    {
      hide Balanced, Placed, Orderly, Announced, Fates;
      for i := 0 to |steps|
        invariant Accounted()
        invariant leaves == old(leaves) + LeavesOf(steps[..i]) && clock == old(clock) + ClockOfAll(steps[..i])
        invariant thinking == old(thinking) + ThinksOf(steps[..i]) && thoughts == old(thoughts) + ThinksOf(steps[..i])
        invariant wakeable <==> old(wakeable) || ThinksOf(steps[..i]) > 0
        invariant fates == old(fates) + FatesOf(steps[..i], old(leaves), evidence, catalog)
      {
        LeavesOfPrefix(steps, i);
        assert steps[..i + 1][..i] == steps[..i];
        Execute(steps[i], evidence);
      }
      assert steps[..|steps|] == steps;
    }

    /** One call leaf, up to the wait for its tool: it is skipped, or out of reach, or it starts. */
    method BeginCall(step: Step, evidence: Evidence)
      requires Accounted() && step.Call?
      modifies this`leaves, this`calls, this`inFlight, this`unreachable, this`skipped, this`events, this`fates
      ensures Accounted() && leaves == old(leaves) + 1
      ensures fates == old(fates) + [FateOf(step, evidence, catalog)]
      ensures skipped == if step.guarded && evidence.declines then old(skipped) + [old(leaves)] else old(skipped)
      ensures unreachable ==
              if step.guarded && evidence.declines then old(unreachable)
              else if step.resolver && evidence.findsNothing then old(unreachable) + [Unreachable(old(leaves), true)]
              else if step.tool !in catalog then old(unreachable) + [Unreachable(old(leaves), false)]
              else old(unreachable)
      ensures FateOf(step, evidence, catalog) == Started ==>
          calls == old(calls) + 1 && inFlight == old(inFlight)[calls := old(leaves)]
          && events == old(events) + [TurnStarted, OutputStarted, ToolStarted(calls)]
      ensures FateOf(step, evidence, catalog) != Started ==>
          calls == old(calls) && inFlight == old(inFlight) && events == old(events)
    {
      hide Balanced, Orderly, Announced;
      fates := fates + [FateOf(step, evidence, catalog)];
      if step.guarded && evidence.declines {
        SkipBalances(received, unreachable, skipped, inFlight, calls, leaves);
        skipped := skipped + [leaves];
        leaves := leaves + 1;
      } else if step.resolver && evidence.findsNothing {
        UnreachableBalances(received, unreachable, skipped, inFlight, calls, leaves, true);
        unreachable := unreachable + [Unreachable(leaves, true)];
        leaves := leaves + 1;
      } else if step.tool !in catalog {
        UnreachableBalances(received, unreachable, skipped, inFlight, calls, leaves, false);
        unreachable := unreachable + [Unreachable(leaves, false)];
        leaves := leaves + 1;
      } else {
        StartCall();
      }
    }

    method StartCall()
      requires |fates| == leaves + 1 && fates[leaves] == Started
      requires Balanced(received, unreachable, skipped, inFlight, calls, leaves)
      requires Placed(received, unreachable, skipped, inFlight, fates)
      requires Orderly(events, calls, inFlight.Keys, turnCount) && Announced(events, calls, thoughts)
      requires wakeable ==> thinking > 0
      modifies this`leaves, this`calls, this`inFlight, this`events
      ensures Accounted() && leaves == old(leaves) + 1
      ensures calls == old(calls) + 1 && inFlight == old(inFlight)[calls := old(leaves)]
      ensures events == old(events) + [TurnStarted, OutputStarted, ToolStarted(calls)]
    {
      hide Balanced, Orderly, Announced;
      StartBalances(received, unreachable, skipped, inFlight, calls, leaves);
      StartEmits(events, calls, inFlight.Keys, turnCount, thoughts);
      calls := calls + 1;
      events := events + [TurnStarted, OutputStarted, ToolStarted(calls)];
      assert inFlight[calls := leaves].Keys == inFlight.Keys + {calls};
      inFlight := inFlight[calls := leaves];
      leaves := leaves + 1;
    }

    /** The tool of a call in flight returns: whichever it is, in any order. */
    method FinishCall(call: nat, status: string)
      requires Valid() && call in inFlight
      modifies this`inFlight, this`received, this`events
      ensures Valid()
      ensures received == old(received) + [Received(old(inFlight)[call], call, status)]
      ensures inFlight == old(inFlight) - {call}
      ensures events == old(events) + [ToolFinished(call)]
    {
      FlyingAreCalls(events, calls, inFlight.Keys, turnCount);
      FinishBalances(received, unreachable, skipped, inFlight, calls, leaves, call, status);
      OrderlyEmit(events, ToolFinished(call), calls, inFlight.Keys, turnCount);
      OccurrencesAfter(events, ToolFinished(call));
      assert (inFlight - {call}).Keys == inFlight.Keys - {call};
      received := received + [Received(inFlight[call], call, status)];
      events := events + [ToolFinished(call)];
      inFlight := inFlight - {call};
    }

    /** Everything the step waited for is over: its turn is counted, if it is one. */
    method EndStep()
      requires Valid() && busy
      requires inFlight == map[] && thinking == 0
      modifies this`busy, this`turnCount, this`events
      ensures Valid() && !busy
      ensures if script[cursor - 1].AdvanceClock? || script[cursor - 1].LatchSensitiveScreen?
              then turnCount == old(turnCount) && events == old(events)
              else turnCount == old(turnCount) + 1 && events == old(events) + [TurnFinished]
    {
      hide Balanced, Placed, Orderly, Occurrences;
      LeavesOfPrefix(script, cursor - 1);
      busy := false;
      if CountsAsTurn(script[cursor - 1]) {
        OrderlyEmit(events, TurnFinished, calls, inFlight.Keys, turnCount);
        OccurrencesAfter(events, TurnFinished);
        turnCount := turnCount + 1;
        events := events + [TurnFinished];
      }
    }

    /** `run` returns: the script is spent, or an abort stopped the loop. Each leaf of the steps run is
        then received, unreachable or skipped, exactly once, and the turns are those of these steps. */
    method Return() returns (wasAborted: bool)
      requires Valid() && running && !busy
      requires cursor == |script| || aborted
      modifies this`running
      ensures Valid() && !running && wasAborted == aborted
      ensures forall leaf: nat ::
          TimesReceived(received, leaf) + TimesUnreachable(unreachable, leaf) + TimesSkipped(skipped, leaf)
          == if leaf < LeavesOf(script[..cursor]) then 1 else 0
      ensures turnCount == TurnsOf(script[..cursor])
      ensures !wasAborted ==> cursor == |script|
    {
      forall leaf: nat
        ensures TimesReceived(received, leaf) + TimesUnreachable(unreachable, leaf) + TimesSkipped(skipped, leaf)
                == if leaf < LeavesOf(script[..cursor]) then 1 else 0
      {
        NothingInFlight(calls, leaf);
        assert Places(received, unreachable, skipped, inFlight, calls, leaf) == if leaf < leaves then 1 else 0;
      }
      running := false;
      wasAborted := aborted;
    }
  }

  /** At any moment of any run: every call id has one start, one finish unless it is in flight, and
      there is one `turn_finished` for every completed step that counts as a turn, and one `turn_started`
      for every call made and every thinking step begun. */
  lemma EachCallOnce(session: Session, call: nat)
    requires session.Valid()
    ensures Occurrences(session.events, ToolStarted(call)) == if 1 <= call <= session.calls then 1 else 0
    ensures Occurrences(session.events, ToolFinished(call))
            == if 1 <= call <= session.calls && call !in session.inFlight then 1 else 0
    ensures Occurrences(session.events, TurnFinished)
            == TurnsOf(session.script[..if session.busy then session.cursor - 1 else session.cursor])
    ensures Occurrences(session.events, TurnStarted) == session.calls + ThinksOf(session.script[..session.cursor])
    ensures Occurrences(session.events, OutputStarted) == session.calls
  {
    EventsPairUp(session.events, session.calls, session.inFlight.Keys, session.turnCount, call);
  }
}
