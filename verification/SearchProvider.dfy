/**
 The scripted search provider: overlapping calls, the concurrency each of them observed, and the
 faults injected into them.

 A call is three atomic steps: `Begin` (up to the first wait), `Settle` (the wait ends and the outcome
 is known) and `End` (the call leaves the in-flight set). `history` records begins and ends; the
 peaks that the provider keeps up to date in its log are proved equal to what the history says.
 */
module SearchProvider {
  import opened Common

  datatype Outcome = Answered | Unmatched | Discovery | Challenged | EmptyResults | TimedOut | Aborted

  datatype FaultKind = ChallengeFault | EmptyFault | TimeoutFault

  datatype Fault =
    | ChallengeOnConcurrency
    | Listed(kind: FaultKind, onCall: seq<nat>)

  /** What an unfinished call is waiting for. */
  datatype Wait = Nothing | ProviderTimeout | Latency

  datatype Call = Call(
    number: nat,
    query: string,
    limit: int,
    startedAt: int,
    endedAt: Option<int>,
    outcome: Option<Outcome>,
    peak: nat,
    wait: Wait)

  datatype Event = Began(call: nat) | Ended(call: nat)

  function Max(a: nat, b: nat): nat {
    if a < b then b else a
  }

  // ----- What a history says -----

  /** The calls in flight after `history`. */
  ghost function Active(history: seq<Event>): set<nat> {
    if history == [] then {}
    else
      var before := Active(history[..|history| - 1]);
      match history[|history| - 1]
      case Began(call) => before + {call}
      case Ended(call) => before - {call}
  }

  /** The most calls in flight at any moment at which `call` is in flight. */
  ghost function PeakDuring(history: seq<Event>, call: nat): nat {
    if history == [] then 0
    else Max(PeakDuring(history[..|history| - 1], call),
             if call in Active(history) then |Active(history)| else 0)
  }

  /** The most calls in flight at any moment. */
  ghost function PeakOverall(history: seq<Event>): nat {
    if history == [] then 0
    else Max(PeakOverall(history[..|history| - 1]), |Active(history)|)
  }

  /** `call` begins while others are in flight. */
  ghost predicate BeganBusy(history: seq<Event>, call: nat) {
    exists t :: 0 <= t < |history| && history[t] == Began(call) && Active(history[..t]) != {}
  }

  /** Calls are numbered in the order they begin; only calls in flight end. */
  ghost predicate WellFormed(history: seq<Event>, begun: nat) {
    if history == [] then begun == 0
    else
      var before := history[..|history| - 1];
      match history[|history| - 1]
      case Began(call) => begun == call + 1 && WellFormed(before, call)
      case Ended(call) => call in Active(before) && WellFormed(before, begun)
  }

  /** `PeakDuring` bounds the in-flight count at every moment of the call. */
  lemma {:induction false} PeakDuringBounds(history: seq<Event>, call: nat, t: nat)
    requires t <= |history| && call in Active(history[..t])
    ensures |Active(history[..t])| <= PeakDuring(history, call)
  {
    if t == |history| {
      assert history[..t] == history;
    } else {
      var init := history[..|history| - 1];
      assert init[..t] == history[..t];
      PeakDuringBounds(init, call, t);
    }
  }

  /** ... and is reached at one of those moments, if the call was ever in flight. */
  lemma {:induction false} PeakDuringReached(history: seq<Event>, call: nat) returns (t: nat)
    ensures t <= |history|
    ensures PeakDuring(history, call) > 0 ==>
        call in Active(history[..t]) && |Active(history[..t])| == PeakDuring(history, call)
  {
    t := |history|;
    assert history[..t] == history;
    if history != [] {
      var init := history[..|history| - 1];
      if PeakDuring(init, call) == PeakDuring(history, call) {
        t := PeakDuringReached(init, call);
        assert init[..t] == history[..t];
      }
    }
  }

  lemma {:induction false} PeakOverallBounds(history: seq<Event>, t: nat)
    requires t <= |history|
    ensures |Active(history[..t])| <= PeakOverall(history)
  {
    if t == |history| {
      assert history[..t] == history;
    } else {
      var init := history[..|history| - 1];
      assert init[..t] == history[..t];
      PeakOverallBounds(init, t);
    }
  }

  lemma {:induction false} PeakOverallReached(history: seq<Event>) returns (t: nat)
    ensures t <= |history| && |Active(history[..t])| == PeakOverall(history)
  {
    t := |history|;
    assert history[..t] == history;
    if history != [] {
      var init := history[..|history| - 1];
      if PeakOverall(init) == PeakOverall(history) {
        t := PeakOverallReached(init);
        assert init[..t] == history[..t];
      }
    }
  }

  lemma {:induction false} ActiveBegan(history: seq<Event>, begun: nat)
    requires WellFormed(history, begun)
    ensures forall call | call in Active(history) :: call < begun
  {
    if history != [] {
      var init := history[..|history| - 1];
      ActiveBegan(init, match history[|history| - 1] case Began(c) => c case Ended(_) => begun);
    }
  }

  /** A call that has not begun has no peak. */
  lemma {:induction false} NoPeakBefore(history: seq<Event>, begun: nat, call: nat)
    requires WellFormed(history, begun) && call >= begun
    ensures PeakDuring(history, call) == 0
  {
    ActiveBegan(history, begun);
    if history != [] {
      NoPeakBefore(history[..|history| - 1], match history[|history| - 1] case Began(c) => c case Ended(_) => begun, call);
    }
  }

  /** At a begin, exactly the calls in flight after it take the new count into account. */
  lemma PeakAtBegin(history: seq<Event>, begun: nat, call: nat)
    requires WellFormed(history, begun)
    ensures var now := history + [Began(begun)];
            && Active(now) == Active(history) + {begun}
            && PeakDuring(now, call) ==
                 if call in Active(now) then Max(PeakDuring(history, call), |Active(now)|)
                 else PeakDuring(history, call)
  {
    assert (history + [Began(begun)])[..|history|] == history;
  }

  /** At an end no peak changes: the count only falls. */
  lemma PeakAtEnd(history: seq<Event>, ended: nat, call: nat)
    requires ended in Active(history)
    ensures var now := history + [Ended(ended)];
            && Active(now) == Active(history) - {ended}
            && PeakDuring(now, call) == PeakDuring(history, call)
  {
    var now := history + [Ended(ended)];
    assert now[..|history|] == history;
    if call in Active(now) {
      assert history != [];
      assert Active(history) == Active(now) + {ended};
    }
  }

  /** The overall peak is some call's own peak, and no call's peak exceeds it. */
  lemma {:induction false} OverallIsSomeCall(history: seq<Event>, begun: nat)
    requires WellFormed(history, begun)
    ensures forall call :: PeakDuring(history, call) <= PeakOverall(history)
    ensures PeakOverall(history) > 0 ==>
        exists call: nat :: call < begun && PeakDuring(history, call) == PeakOverall(history)
  {
    if history != [] {
      var init := history[..|history| - 1];
      var earlier := match history[|history| - 1] case Began(c) => c case Ended(_) => begun;
      OverallIsSomeCall(init, earlier);
      ActiveBegan(history, begun);
      if PeakOverall(history) > PeakOverall(init) {
        var call :| call in Active(history);
        assert PeakDuring(history, call) == PeakOverall(history);
      } else if PeakOverall(history) > 0 {
        var call: nat :| call < earlier && PeakDuring(init, call) == PeakOverall(init);
        assert PeakDuring(history, call) == PeakOverall(history);
      }
    }
  }

  /** A begin says the same about a call in a longer history. */
  lemma BusyExtends(history: seq<Event>, event: Event, call: nat)
    ensures BeganBusy(history + [event], call)
        <==> BeganBusy(history, call) || (event == Began(call) && Active(history) != {})
  {
    var now := history + [event];
    assert now[..|history|] == history;
    if BeganBusy(now, call) {
      var t :| 0 <= t < |now| && now[t] == Began(call) && Active(now[..t]) != {};
      assert t < |history| ==> history[..t] == now[..t];
    }
    if BeganBusy(history, call) {
      var t :| 0 <= t < |history| && history[t] == Began(call) && Active(history[..t]) != {};
      assert now[t] == Began(call) && now[..t] == history[..t];
    }
    if event == Began(call) && Active(history) != {} {
      assert now[|history|] == Began(call) && Active(now[..|history|]) != {};
    }
  }

  /** At most one call was ever in flight exactly when every call began alone. */
  lemma {:induction false} QuietIff(history: seq<Event>, begun: nat)
    requires WellFormed(history, begun)
    ensures PeakOverall(history) <= 1 <==> forall call: nat | call < begun :: !BeganBusy(history, call)
  {
    if history != [] {
      var init, event := history[..|history| - 1], history[|history| - 1];
      assert history == init + [event];
      var earlier := match event case Began(c) => c case Ended(_) => begun;
      QuietIff(init, earlier);
      forall call: nat ensures BeganBusy(history, call)
          <==> BeganBusy(init, call) || (event == Began(call) && Active(init) != {}) {
        BusyExtends(init, event, call);
      }
      ActiveBegan(init, earlier);
      if event.Ended? {
        PeakFalls(init, event.call);
      } else {
        PeakGrows(init, event.call);
        NotYetBusy(init, earlier);
      }
    }
  }

  lemma PeakFalls(init: seq<Event>, ended: nat)
    requires ended in Active(init)
    ensures PeakOverall(init + [Ended(ended)]) == PeakOverall(init)
  {
    var now := init + [Ended(ended)];
    assert now[..|init|] == init;
    assert Active(init) == Active(now) + {ended};
    PeakOverallBounds(init, |init|);
    assert init[..|init|] == init;
  }

  lemma PeakGrows(init: seq<Event>, begun: nat)
    requires begun !in Active(init)
    ensures PeakOverall(init + [Began(begun)]) <= 1 <==> PeakOverall(init) <= 1 && Active(init) == {}
  {
    var now := init + [Began(begun)];
    assert now[..|init|] == init;
    assert Active(now) == Active(init) + {begun};
    assert |Active(now)| == |Active(init)| + 1;
    if |Active(init)| == 0 { assert Active(init) == {}; }
  }

  lemma NotYetBusy(history: seq<Event>, begun: nat)
    requires WellFormed(history, begun)
    ensures !BeganBusy(history, begun)
  {
    BeganOnce(history, begun);
  }

  lemma {:induction false} BeganOnce(history: seq<Event>, call: nat)
    requires WellFormed(history, call)
    ensures Began(call) !in history
  {
    NotYetBegun(history, call, call);
  }

  lemma {:induction false} NotYetBegun(history: seq<Event>, begun: nat, call: nat)
    requires WellFormed(history, begun) && begun <= call
    ensures Began(call) !in history
  {
    if history != [] {
      var init := history[..|history| - 1];
      NotYetBegun(init, match history[|history| - 1] case Began(c) => c case Ended(_) => begun, call);
      assert history == init + [history[|history| - 1]];
    }
  }

  // ----- Faults -----

  /** The first fault that applies to a call. */
  function FaultFor(faults: seq<Fault>, number: nat, overlapped: bool): Option<FaultKind> {
    if faults == [] then None
    else
      match faults[0]
      case ChallengeOnConcurrency =>
        if overlapped then Some(ChallengeFault) else FaultFor(faults[1..], number, overlapped)
      case Listed(kind, onCall) =>
        if number in onCall then Some(kind) else FaultFor(faults[1..], number, overlapped)
  }

  ghost predicate Applies(fault: Fault, number: nat, overlapped: bool) {
    match fault
    case ChallengeOnConcurrency => overlapped
    case Listed(_, onCall) => number in onCall
  }

  /** It is the first in the list that is for overlapping calls, if this one overlaps, or that lists the
      call's own number; and none only if no fault does. */
  lemma {:induction false} FaultForIs(faults: seq<Fault>, number: nat, overlapped: bool)
    ensures match FaultFor(faults, number, overlapped)
            case None => forall i | 0 <= i < |faults| :: !Applies(faults[i], number, overlapped)
            case Some(kind) =>
              exists i :: 0 <= i < |faults| && Applies(faults[i], number, overlapped)
                && (forall j | 0 <= j < i :: !Applies(faults[j], number, overlapped))
                && kind == match faults[i] case ChallengeOnConcurrency => ChallengeFault case Listed(k, _) => k
  {
    if faults != [] && !Applies(faults[0], number, overlapped) {
      FaultForIs(faults[1..], number, overlapped);
      if FaultFor(faults, number, overlapped).Some? {
        var i :| 0 <= i < |faults[1..]| && Applies(faults[1..][i], number, overlapped)
                 && (forall j | 0 <= j < i :: !Applies(faults[1..][j], number, overlapped))
                 && FaultFor(faults, number, overlapped).value
                    == match faults[1..][i] case ChallengeOnConcurrency => ChallengeFault case Listed(k, _) => k;
        assert faults[i + 1] == faults[1..][i];
        forall j | 0 <= j < i + 1 ensures !Applies(faults[j], number, overlapped) {
          if j > 0 { assert faults[j] == faults[1..][j - 1]; }
        }
      } else {
        assert forall i | 1 <= i < |faults| :: faults[i] == faults[1..][i - 1];
      }
    }
  }

  method FindFault(faults: seq<Fault>, number: nat, overlapped: bool) returns (fault: Option<FaultKind>)
    ensures fault == FaultFor(faults, number, overlapped)
  {
    for i := 0 to |faults|
      invariant FaultFor(faults, number, overlapped) == FaultFor(faults[i..], number, overlapped)
    {
      assert faults[i..][1..] == faults[i + 1..];
      match faults[i]
      case ChallengeOnConcurrency => if overlapped { return Some(ChallengeFault); }
      case Listed(kind, onCall) => if number in onCall { return Some(kind); }
    }
    fault := None;
  }

  ghost predicate OnlyConcurrencyFaults(faults: seq<Fault>) {
    faults != [] && forall fault | fault in faults :: fault.ChallengeOnConcurrency?
  }

  lemma {:induction false} ConcurrencyFaultFor(faults: seq<Fault>, number: nat, overlapped: bool)
    requires OnlyConcurrencyFaults(faults)
    ensures FaultFor(faults, number, overlapped) == if overlapped then Some(ChallengeFault) else None
  {
    if !overlapped && |faults| > 1 {
      ConcurrencyFaultFor(faults[1..], number, overlapped);
    }
  }

  // ----- The log against the history -----

  /** The record of call `i` is what the history says: an exact peak, and a challenge exactly where a
      fault puts one. */
  ghost predicate ExactCall(faults: seq<Fault>, history: seq<Event>, call: Call, i: nat) {
    && call.number == i + 1
    && call.peak == PeakDuring(history, i)
    && (call.endedAt.None? <==> i in Active(history))
    && (call.outcome.None? <==> call.wait != Nothing)
    && (call.wait != Nothing ==> i in Active(history))
    && (call.outcome == Some(Challenged) <==>
          call.limit > 0 && FaultFor(faults, i + 1, BeganBusy(history, i)) == Some(ChallengeFault))
  }

  ghost predicate Exact(faults: seq<Fault>, history: seq<Event>, log: seq<Call>) {
    && WellFormed(history, |log|)
    && forall i | 0 <= i < |log| :: ExactCall(faults, history, log[i], i)
  }

  /** With nothing but the concurrency fault, the peak stays at one exactly when no call with a
      positive limit was challenged and no call with another limit began while others were running. */
  lemma PeakTellsChallenges(faults: seq<Fault>, history: seq<Event>, log: seq<Call>)
    requires OnlyConcurrencyFaults(faults)
    requires Exact(faults, history, log)
    ensures PeakOverall(history) <= 1 <==>
            forall i | 0 <= i < |log| ::
              log[i].outcome != Some(Challenged) && (log[i].limit <= 0 ==> !BeganBusy(history, i))
    ensures (forall i | 0 <= i < |log| :: log[i].limit > 0) ==>
            (PeakOverall(history) <= 1 <==> forall i | 0 <= i < |log| :: log[i].outcome != Some(Challenged))
  {
    QuietIff(history, |log|);
    forall i | 0 <= i < |log|
      ensures ExactCall(faults, history, log[i], i)
      ensures log[i].outcome == Some(Challenged) <==> log[i].limit > 0 && BeganBusy(history, i)
    {
      ConcurrencyFaultFor(faults, i + 1, BeganBusy(history, i));
    }
  }

  function Observed(call: Call, count: nat): Call {
    call.(peak := Max(call.peak, count))
  }

  /** A begin keeps the record of an earlier call exact, its peak raised if the call is in flight. */
  lemma BeginKeepsCall(faults: seq<Fault>, history: seq<Event>, begun: nat, call: Call, i: nat)
    requires WellFormed(history, begun) && i < begun
    requires ExactCall(faults, history, call, i)
    ensures ExactCall(faults, history + [Began(begun)],
                      if i in Active(history) then Observed(call, |Active(history)| + 1) else call, i)
  {
    ActiveBegan(history, begun);
    PeakAtBegin(history, begun, i);
    BusyExtends(history, Began(begun), i);
    assert |Active(history) + {begun}| == |Active(history)| + 1;
  }

  ghost predicate AnsweredAtOnce(faults: seq<Fault>, call: Call, overlapped: bool) {
    && (call.outcome.None? <==> call.wait != Nothing)
    && (call.outcome == Some(Challenged) <==>
          call.limit > 0 && FaultFor(faults, call.number, overlapped) == Some(ChallengeFault))
  }

  lemma BeginAddsCall(faults: seq<Fault>, history: seq<Event>, call: Call, begun: nat)
    requires WellFormed(history, begun)
    requires call.number == begun + 1 && call.peak == |Active(history)| + 1 && call.endedAt.None?
    requires AnsweredAtOnce(faults, call, Active(history) != {})
    ensures ExactCall(faults, history + [Began(begun)], call, begun)
  {
    ActiveBegan(history, begun);
    PeakAtBegin(history, begun, begun);
    NoPeakBefore(history, begun, begun);
    NotYetBusy(history, begun);
    BusyExtends(history, Began(begun), begun);
    assert |Active(history) + {begun}| == |Active(history)| + 1;
  }

  lemma FlyingAreLogged(faults: seq<Fault>, history: seq<Event>, log: seq<Call>)
    requires Exact(faults, history, log)
    ensures forall call | call in Active(history) :: call < |log|
  {
    ActiveBegan(history, |log|);
  }

  /** So a begin keeps the whole log exact. */
  lemma BeginKeepsExact(faults: seq<Fault>, history: seq<Event>, was: seq<Call>, log: seq<Call>)
    requires Exact(faults, history, was) && |log| == |was| + 1
    requires forall i | 0 <= i < |was| ::
               log[i] == if i in Active(history) then Observed(was[i], |Active(history)| + 1) else was[i]
    requires var call := log[|was|];
             && call.number == |was| + 1 && call.peak == |Active(history)| + 1 && call.endedAt.None?
             && AnsweredAtOnce(faults, call, Active(history) != {})
    ensures Exact(faults, history + [Began(|was|)], log)
    ensures Active(history + [Began(|was|)]) == Active(history) + {|was|}
  {
    hide ExactCall, AnsweredAtOnce, PeakDuring, BeganBusy;
    assert (history + [Began(|was|)])[..|history|] == history;
    BeginAddsCall(faults, history, log[|was|], |was|);
    forall i | 0 <= i < |was|
      ensures ExactCall(faults, history + [Began(|was|)], log[i], i)
    {
      BeginKeepsCall(faults, history, |was|, was[i], i);
    }
  }

  /** An end keeps every record exact; only the ended call's own end time changes. */
  lemma EndKeepsCall(faults: seq<Fault>, history: seq<Event>, ended: nat, call: Call, i: nat, now: int)
    requires ended in Active(history)
    requires ExactCall(faults, history, call, i) && (i == ended ==> call.wait == Nothing)
    ensures ExactCall(faults, history + [Ended(ended)], if i == ended then call.(endedAt := Some(now)) else call, i)
  {
    PeakAtEnd(history, ended, i);
    BusyExtends(history, Ended(ended), i);
  }

  class Provider {
    const faults: seq<Fault>
    var log: seq<Call>
    var inFlight: set<nat>
    ghost var history: seq<Event>

    ghost predicate Valid()
      reads this
    {
      Exact(faults, history, log) && inFlight == Active(history)
    }

    constructor (faults: seq<Fault>)
      ensures Valid() && this.faults == faults && log == [] && history == []
    {
      this.faults := faults;
      log, inFlight, history := [], {}, [];
    }

    /** `search`, up to its first wait. */
    method Begin(query: string, limit: int, now: int) returns (call: nat)
      requires Valid()
      modifies this
      ensures Valid()
      ensures call == |old(log)| && history == old(history) + [Began(call)]
      ensures |log| == call + 1
      ensures forall i | 0 <= i < call :: log[i] == old(log)[i].(peak := log[i].peak)
      ensures log[call].query == query && log[call].limit == limit && log[call].startedAt == now
      ensures log[call].outcome == Some(Discovery) <==> limit <= 0
      ensures limit > 0 ==>
          match FaultFor(faults, call + 1, old(inFlight) != {})
          case Some(ChallengeFault) => log[call].outcome == Some(Challenged)
          case Some(EmptyFault) => log[call].outcome == Some(EmptyResults)
          case Some(TimeoutFault) => log[call].wait == ProviderTimeout
          case None => log[call].wait == Latency
    {
      hide Exact, Active, FaultFor;
      call := |log|;
      var overlapped := inFlight != {};
      ghost var was := log;
      FlyingAreLogged(faults, history, log);
      Enter(query, limit, now);
      var outcome, wait := Answer(call, limit, overlapped);
      log := log[call := log[call].(outcome := outcome, wait := wait)];
      BeginKeepsExact(faults, history, was, log);
      history := history + [Began(call)];
    }

    /** A new call is logged and counted, by itself and by all that are in flight. */
    method Enter(query: string, limit: int, now: int)
      requires forall i | i in inFlight :: i < |log|
      modifies this`log, this`inFlight
      ensures inFlight == old(inFlight) + {|old(log)|} && |inFlight| == |old(inFlight)| + 1
      ensures |log| == |old(log)| + 1
      ensures log[|old(log)|] == Call(|log|, query, limit, now, None, None, |inFlight|, Latency)
      ensures forall i | 0 <= i < |old(log)| ::
                log[i] == if i in old(inFlight) then Observed(old(log)[i], |inFlight|) else old(log)[i]
    {
      inFlight := inFlight + {|log|};
      log := log + [Call(|log| + 1, query, limit, now, None, None, 0, Latency)];
      Observe();
    }

    /** The loop that raises the peak of every call in flight to the current count. */
    method Observe()
      requires forall i | i in inFlight :: i < |log|
      modifies this`log
      ensures |log| == |old(log)|
      ensures forall i | 0 <= i < |log| ::
                log[i] == if i in inFlight then Observed(old(log)[i], |inFlight|) else old(log)[i]
    {
      var left := inFlight;
      while left != {}
        invariant left <= inFlight && |log| == |old(log)|
        invariant forall i | 0 <= i < |log| ::
                    log[i] == if i in inFlight && i !in left then Observed(old(log)[i], |inFlight|)
                              else old(log)[i]
        decreases left
      {
        var i :| i in left;
        log := log[i := Observed(log[i], |inFlight|)];
        left := left - {i};
      }
    }

    /** `answer`, up to its first wait: the outcome, or what to wait for. */
    method Answer(call: nat, limit: int, overlapped: bool) returns (outcome: Option<Outcome>, wait: Wait)
      ensures outcome.None? <==> wait != Nothing
      ensures outcome == Some(Discovery) <==> limit <= 0
      ensures limit > 0 ==>
          match FaultFor(faults, call + 1, overlapped)
          case Some(ChallengeFault) => outcome == Some(Challenged)
          case Some(EmptyFault) => outcome == Some(EmptyResults)
          case Some(TimeoutFault) => wait == ProviderTimeout
          case None => wait == Latency
    {
      if limit <= 0 { return Some(Discovery), Nothing; }
      var fault := FindFault(faults, call + 1, overlapped);
      match fault
      case Some(ChallengeFault) => return Some(Challenged), Nothing;
      case Some(EmptyFault) => return Some(EmptyResults), Nothing;
      case Some(TimeoutFault) => return None, ProviderTimeout;
      case None => return None, Latency;
    }

    /** The wait of `call` is over: the signal aborted it, the timeout fired, or the table was consulted. */
    method Settle(call: nat, aborted: bool, matched: bool)
      requires Valid()
      requires call < |log| && log[call].wait != Nothing
      modifies this`log
      ensures Valid()
      ensures var outcome := if aborted then Aborted
                             else if old(log)[call].wait.ProviderTimeout? then TimedOut
                             else if matched then Answered else Unmatched;
              log == old(log)[call := old(log)[call].(wait := Nothing, outcome := Some(outcome))]
    {
      var outcome :=
        if aborted then Aborted
        else if log[call].wait.ProviderTimeout? then TimedOut
        else if matched then Answered else Unmatched;
      log := log[call := log[call].(wait := Nothing, outcome := Some(outcome))];
    }

    /** The `finally` clause: the call leaves the in-flight set. No peak is touched, and all stay exact. */
    method End(call: nat, now: int)
      requires Valid()
      requires call in inFlight && call < |log| && log[call].wait == Nothing
      modifies this
      ensures Valid()
      ensures history == old(history) + [Ended(call)]
      ensures log == old(log)[call := old(log)[call].(endedAt := Some(now))]
    {
      forall i | 0 <= i < |log|
        ensures ExactCall(faults, history + [Ended(call)], if i == call then log[i].(endedAt := Some(now)) else log[i], i)
      {
        EndKeepsCall(faults, history, call, log[i], i, now);
      }
      assert (history + [Ended(call)])[..|history|] == history;
      history := history + [Ended(call)];
      inFlight := inFlight - {call};
      log := log[call := log[call].(endedAt := Some(now))];
    }

    /** `peakConcurrency()`: the largest peak in the log is the largest in-flight count of the run. */
    method PeakConcurrency() returns (peak: nat)
      requires Valid()
      ensures peak == PeakOverall(history)
    {
      peak := 0;
      OverallIsSomeCall(history, |log|);
      for i := 0 to |log|
        invariant peak <= PeakOverall(history)
        invariant forall k | 0 <= k < i :: log[k].peak <= peak
      {
        assert ExactCall(faults, history, log[i], i);
        peak := Max(peak, log[i].peak);
      }
      if PeakOverall(history) > 0 {
        ghost var call: nat :| call < |log| && PeakDuring(history, call) == PeakOverall(history);
        assert ExactCall(faults, history, log[call], call);
      }
    }
  }
}
