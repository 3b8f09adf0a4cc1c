/**
 The audit's tool-call summary: an append-only log of start and end lines, possibly out of order,
 folded into one row per call.
 */
module ToolCallSummary {
  import opened Common
  import opened Sorting

  datatype Status = Succeeded | Failed | Denied | Aborted | Incomplete

  /** What an end line can say; only the summary calls a call incomplete. */
  type EndStatus = s: Status | s != Incomplete witness Succeeded

  datatype Entry =
    | Start(seqNo: int, callId: string, tool: string)
    | End(seqNo: int, callId: string, tool: string, status: Option<EndStatus>, durationMs: Option<int>,
          confirmationId: Option<string>)

  /** A line of the confirmation log; only records with both fields as text count. */
  datatype Confirmation = Malformed | Decision(confirmationId: string, decision: string)

  datatype Row = Row(
    seqNo: int,
    callId: string,
    tool: string,
    status: Status,
    durationMs: Option<int>,
    confirmationId: Option<string>,
    confirmationDecision: Option<string>,
    incomplete: bool)

  predicate BySeq(a: Entry, b: Entry) { a.seqNo <= b.seqNo }

  predicate RowBySeq(a: Row, b: Row) { a.seqNo <= b.seqNo }

  // ----- Decisions -----

  /** The last decision recorded for a confirmation. */
  function DecisionOf(confirmations: seq<Confirmation>, id: string): Option<string> {
    if confirmations == [] then None
    else
      var last := confirmations[|confirmations| - 1];
      if last.Decision? && last.confirmationId == id then Some(last.decision)
      else DecisionOf(confirmations[..|confirmations| - 1], id)
  }

  /** It is the decision of the last well-formed line for that confirmation, if there is one. */
  lemma {:induction false} DecisionIsTheLast(confirmations: seq<Confirmation>, id: string, k: nat)
    requires k < |confirmations| && confirmations[k].Decision? && confirmations[k].confirmationId == id
    requires forall j | k < j < |confirmations| :: !(confirmations[j].Decision? && confirmations[j].confirmationId == id)
    ensures DecisionOf(confirmations, id) == Some(confirmations[k].decision)
  {
    if k < |confirmations| - 1 { DecisionIsTheLast(confirmations[..|confirmations| - 1], id, k); }
  }

  lemma {:induction false} NoDecision(confirmations: seq<Confirmation>, id: string)
    ensures DecisionOf(confirmations, id).None? <==>
            forall j | 0 <= j < |confirmations| :: !(confirmations[j].Decision? && confirmations[j].confirmationId == id)
  {
    if confirmations != [] { NoDecision(confirmations[..|confirmations| - 1], id); }
  }

  method ReadDecisions(confirmations: seq<Confirmation>) returns (decisions: map<string, string>)
    ensures forall id :: Lookup(decisions, id) == DecisionOf(confirmations, id)
  {
    decisions := map[];
    for i := 0 to |confirmations|
      invariant forall id :: Lookup(decisions, id) == DecisionOf(confirmations[..i], id)
    {
      assert confirmations[..i + 1][..i] == confirmations[..i];
      if confirmations[i].Decision? {
        decisions := decisions[confirmations[i].confirmationId := confirmations[i].decision];
      }
    }
    assert confirmations[..|confirmations|] == confirmations;
  }

  // ----- The row of one call -----

  function Opened(e: Entry): Row
    requires e.Start?
  {
    Row(e.seqNo, e.callId, e.tool, Incomplete, None, None, None, true)
  }

  function Closed(e: Entry, existing: Option<Row>, confirmations: seq<Confirmation>): Row
    requires e.End?
  {
    Row(if existing.Some? then existing.value.seqNo else e.seqNo,
        e.callId,
        if existing.Some? then existing.value.tool else e.tool,
        if e.status.Some? then e.status.value else Failed,
        e.durationMs,
        e.confirmationId,
        if e.confirmationId.None? then None else DecisionOf(confirmations, e.confirmationId.value),
        false)
  }

  /** The row that the fold over `entries` leaves for `id`. */
  function RowOf(entries: seq<Entry>, id: string, confirmations: seq<Confirmation>): Option<Row> {
    if entries == [] then None
    else
      var before, last := entries[..|entries| - 1], entries[|entries| - 1];
      if last.callId != id then RowOf(before, id, confirmations)
      else if last.Start? then Some(Opened(last))
      else Some(Closed(last, RowOf(before, id, confirmations), confirmations))
  }

  /** Entry `k` is the last one of call `id`. */
  ghost predicate LastAt(entries: seq<Entry>, id: string, k: nat) {
    && k < |entries| && entries[k].callId == id
    && forall j | k < j < |entries| :: entries[j].callId != id
  }

  /** Entry `k` names the call: its last start, or its first end if it never started. */
  ghost predicate NamesAt(entries: seq<Entry>, id: string, k: nat) {
    && k < |entries| && entries[k].callId == id
    && (entries[k].Start? ==> forall j | k < j < |entries| :: !(entries[j].callId == id && entries[j].Start?))
    && (entries[k].End? ==>
          && (forall j | 0 <= j < |entries| && entries[j].callId == id :: entries[j].End?)
          && (forall j | 0 <= j < k :: entries[j].callId != id))
  }

  /** The last entry of a call decides everything but its number and its tool. */
  lemma {:induction false} LastDecides(entries: seq<Entry>, id: string, k: nat, confirmations: seq<Confirmation>)
    requires LastAt(entries, id, k)
    ensures var row := RowOf(entries, id, confirmations);
            row.Some? && row.value.callId == id && row.value.incomplete == entries[k].Start? &&
            match entries[k]
            case Start(_, _, _) =>
              row.value.status == Incomplete && row.value.durationMs.None?
              && row.value.confirmationId.None? && row.value.confirmationDecision.None?
            case End(_, _, _, status, duration, confirmation) =>
              && row.value.status == (if status.Some? then status.value else Failed)
              && row.value.durationMs == duration && row.value.confirmationId == confirmation
              && row.value.confirmationDecision ==
                   (if confirmation.None? then None else DecisionOf(confirmations, confirmation.value))
  {
    if k < |entries| - 1 {
      LastDecides(entries[..|entries| - 1], id, k, confirmations);
    }
  }

  /** The naming entry gives the row its number and its tool, wherever the later ends are. */
  lemma {:induction false} NamingGivesNumber(entries: seq<Entry>, id: string, k: nat, confirmations: seq<Confirmation>)
    requires NamesAt(entries, id, k)
    ensures var row := RowOf(entries, id, confirmations);
            row.Some? && row.value.seqNo == entries[k].seqNo && row.value.tool == entries[k].tool
  {
    var before := entries[..|entries| - 1];
    if k < |entries| - 1 {
      NamingGivesNumber(before, id, k, confirmations);
    } else if entries[k].End? {
      NoRow(before, id, confirmations);
    }
  }

  lemma {:induction false} NoRow(entries: seq<Entry>, id: string, confirmations: seq<Confirmation>)
    ensures RowOf(entries, id, confirmations).None? <==> forall j | 0 <= j < |entries| :: entries[j].callId != id
  {
    if entries != [] { NoRow(entries[..|entries| - 1], id, confirmations); }
  }

  lemma {:induction false} RowKeepsId(entries: seq<Entry>, id: string, confirmations: seq<Confirmation>)
    requires RowOf(entries, id, confirmations).Some?
    ensures RowOf(entries, id, confirmations).value.callId == id
    ensures exists k :: 0 <= k < |entries| && entries[k].callId == id
                        && entries[k].seqNo == RowOf(entries, id, confirmations).value.seqNo
  {
    var last := entries[|entries| - 1];
    var before := entries[..|entries| - 1];
    if last.callId != id || (last.End? && RowOf(before, id, confirmations).Some?) {
      RowKeepsId(before, id, confirmations);
      var k :| 0 <= k < |before| && before[k].callId == id && before[k].seqNo == RowOf(before, id, confirmations).value.seqNo;
      assert entries[k] == before[k];
    }
  }

  // ----- The summary -----

  ghost predicate Mentions(entries: seq<Entry>, id: string) {
    exists e :: e in entries && e.callId == id
  }

  /** One row for each call the log mentions, none besides, in order of their numbers. */
  ghost predicate IsSummary(rows: seq<Row>, entries: seq<Entry>, confirmations: seq<Confirmation>) {
    && Ordered(rows, RowBySeq)
    && (forall row | row in rows :: RowOf(Sorted(entries, BySeq), row.callId, confirmations) == Some(row))
    && (forall id | Mentions(entries, id) :: exists row :: row in rows && row.callId == id)
    && (forall i, j | 0 <= i < j < |rows| :: rows[i].callId != rows[j].callId)
  }

  /** `summarizeToolCalls`: sort by number, fold into a map that keeps the order of first insertion,
      and sort the rows by number. */
  method Summarize(entries: seq<Entry>, confirmations: seq<Confirmation>) returns (rows: seq<Row>)
    ensures IsSummary(rows, entries, confirmations)
  {
    var decisions := ReadDecisions(confirmations);
    var sorted := Sorted(entries, BySeq);
    var calls: map<string, Row> := map[];
    var order: seq<string> := [];
    for i := 0 to |sorted|
      invariant forall id :: Lookup(calls, id) == RowOf(sorted[..i], id, confirmations)
      invariant forall id :: id in order <==> id in calls
      invariant forall j, k | 0 <= j < k < |order| :: order[j] != order[k]
    {
      assert sorted[..i + 1][..i] == sorted[..i];
      var entry := sorted[i];
      if entry.callId !in calls { order := order + [entry.callId]; }
      var row;
      if entry.Start? {
        row := Opened(entry);
      } else {
        var existing := Lookup(calls, entry.callId);
        assert forall id :: Lookup(decisions, id) == DecisionOf(confirmations, id);
        row := Row(if existing.Some? then existing.value.seqNo else entry.seqNo,
                   entry.callId,
                   if existing.Some? then existing.value.tool else entry.tool,
                   if entry.status.Some? then entry.status.value else Failed,
                   entry.durationMs,
                   entry.confirmationId,
                   if entry.confirmationId.None? then None else Lookup(decisions, entry.confirmationId.value),
                   false);
      }
      calls := calls[entry.callId := row];
    }
    assert sorted[..|sorted|] == sorted;
    var values := seq(|order|, i requires 0 <= i < |order| && order[i] in calls => calls[order[i]]);
    rows := Sorted(values, RowBySeq);
    SummaryOfValues(rows, values, order, entries, confirmations);
  }

  lemma BySeqIsOrder()
    ensures TotalPreorder(BySeq) && TotalPreorder(RowBySeq)
  {
  }

  lemma SummaryOfValues(rows: seq<Row>, values: seq<Row>, order: seq<string>, entries: seq<Entry>,
                        confirmations: seq<Confirmation>)
    requires rows == Sorted(values, RowBySeq) && |values| == |order|
    requires forall j, k | 0 <= j < k < |order| :: order[j] != order[k]
    requires forall i | 0 <= i < |order| :: RowOf(Sorted(entries, BySeq), order[i], confirmations) == Some(values[i])
    requires forall id :: RowOf(Sorted(entries, BySeq), id, confirmations).Some? ==> id in order
    ensures IsSummary(rows, entries, confirmations)
  {
    BySeqIsOrder();
    var sorted := Sorted(entries, BySeq);
    SortedKeeps(entries, BySeq);
    SortedKeeps(values, RowBySeq);
    forall i | 0 <= i < |values| ensures values[i].callId == order[i] {
      RowKeepsId(sorted, order[i], confirmations);
    }
    forall row | row in rows ensures RowOf(sorted, row.callId, confirmations) == Some(row) {
      assert row in multiset(rows);
      assert row in values;
    }
    forall id | Mentions(entries, id) ensures exists row :: row in rows && row.callId == id {
      var e :| e in entries && e.callId == id;
      assert e in multiset(sorted);
      assert e in sorted;
      NoRow(sorted, id, confirmations);
      var i :| 0 <= i < |order| && order[i] == id;
      assert values[i] in multiset(rows);
    }
    DistinctStays(values, rows);
  }

  /** Rearranging a list of rows with distinct call ids keeps them distinct. */
  lemma DistinctStays(values: seq<Row>, rows: seq<Row>)
    requires multiset(values) == multiset(rows)
    requires forall i, j | 0 <= i < j < |values| :: values[i].callId != values[j].callId
    ensures forall i, j | 0 <= i < j < |rows| :: rows[i].callId != rows[j].callId
  {
    forall i, j | 0 <= i < j < |rows| ensures rows[i].callId != rows[j].callId {
      if rows[i].callId == rows[j].callId {
        assert rows[i] in multiset(values) && rows[j] in multiset(values);
        assert rows[i] in values && rows[j] in values;
        assert rows[i] == rows[j];
        TwiceIn(rows, i, j);
        OnceIn(values, rows[i]);
        assert false;
      }
    }
  }

  lemma TwiceIn<T>(s: seq<T>, i: nat, j: nat)
    requires i < j < |s| && s[i] == s[j]
    ensures multiset(s)[s[i]] >= 2
  {
    assert s == s[..i] + [s[i]] + s[i + 1..j] + [s[j]] + s[j + 1..];
  }

  lemma OnceIn(s: seq<Row>, row: Row)
    requires forall i, j | 0 <= i < j < |s| :: s[i].callId != s[j].callId
    requires row in s
    ensures multiset(s)[row] == 1
  {
    var k :| 0 <= k < |s| && s[k] == row;
    assert s == s[..k] + [row] + s[k + 1..];
    assert row !in s[..k] && row !in s[k + 1..];
    assert multiset(s[..k])[row] == 0 && multiset(s[k + 1..])[row] == 0;
  }

  // ----- What a summary says about the log, in any order -----

  /** Sequence numbers are distinct: lines with the same number are the same line. */
  ghost predicate Numbered(entries: seq<Entry>) {
    Untied(multiset(entries), BySeq)
  }

  /** A row carries the number of one of the lines of its call. */
  lemma RowNumberIsALine(row: Row, rows: seq<Row>, entries: seq<Entry>, confirmations: seq<Confirmation>) returns (e: Entry)
    requires IsSummary(rows, entries, confirmations) && row in rows
    ensures e in entries && e.callId == row.callId && e.seqNo == row.seqNo
  {
    BySeqIsOrder();
    var sorted := Sorted(entries, BySeq);
    SortedKeeps(entries, BySeq);
    RowKeepsId(sorted, row.callId, confirmations);
    var k :| 0 <= k < |sorted| && sorted[k].callId == row.callId && sorted[k].seqNo == row.seqNo;
    e := sorted[k];
    assert e in multiset(sorted);
  }

  /** With distinct numbers the rows are strictly ordered. */
  lemma SummaryIsStrict(rows: seq<Row>, entries: seq<Entry>, confirmations: seq<Confirmation>)
    requires Numbered(entries) && IsSummary(rows, entries, confirmations)
    ensures forall i, j | 0 <= i < j < |rows| :: rows[i].seqNo < rows[j].seqNo
  {
    forall i, j | 0 <= i < j < |rows| ensures rows[i].seqNo < rows[j].seqNo {
      assert RowBySeq(rows[i], rows[j]);
      var a := RowNumberIsALine(rows[i], rows, entries, confirmations);
      var b := RowNumberIsALine(rows[j], rows, entries, confirmations);
      if a.seqNo == b.seqNo {
        assert a in multiset(entries) && b in multiset(entries);
        assert BySeq(a, b) && BySeq(b, a);
      }
    }
  }

  lemma SummaryMembers(a: seq<Entry>, b: seq<Entry>, p: seq<Row>, q: seq<Row>, confirmations: seq<Confirmation>, row: Row)
    requires Sorted(a, BySeq) == Sorted(b, BySeq) && multiset(a) == multiset(b)
    requires IsSummary(p, a, confirmations) && IsSummary(q, b, confirmations)
    requires row in p
    ensures row in q
  {
    var e := RowNumberIsALine(row, p, a, confirmations);
    assert e in multiset(b);
    assert e in b;
    assert Mentions(b, row.callId);
  }

  /** The summary does not depend on the order of the lines when their numbers are distinct. */
  lemma SummaryForgetsOrder(a: seq<Entry>, b: seq<Entry>, p: seq<Row>, q: seq<Row>, confirmations: seq<Confirmation>)
    requires multiset(a) == multiset(b) && Numbered(a)
    requires IsSummary(p, a, confirmations) && IsSummary(q, b, confirmations)
    ensures p == q
  {
    BySeqIsOrder();
    SortedForgetsOrder(a, b, BySeq);
    forall row: Row ensures row in p <==> row in q {
      if row in p { SummaryMembers(a, b, p, q, confirmations, row); }
      if row in q { SummaryMembers(b, a, q, p, confirmations, row); }
    }
    forall row: Row ensures multiset(p)[row] == multiset(q)[row] {
      if row in p {
        OnceIn(p, row);
        OnceIn(q, row);
      } else {
        assert row !in multiset(p) && row !in multiset(q);
      }
    }
    assert multiset(p) == multiset(q);
    SummaryIsStrict(p, a, confirmations);
    forall x, y | x in multiset(p) && y in multiset(p) && RowBySeq(x, y) && RowBySeq(y, x) ensures x == y {
      assert x in p && y in p;
      var i, j :| 0 <= i < |p| && 0 <= j < |p| && p[i] == x && p[j] == y;
    }
    OrderedIsUnique(p, q, RowBySeq);
  }

  /** The line that decides a call's row: the one with the highest number and, if several lines carry
      it, the last of these in the log. */
  ghost predicate Decides(entries: seq<Entry>, k: nat) {
    && k < |entries|
    && forall j | 0 <= j < |entries| && entries[j].callId == entries[k].callId ::
         entries[j].seqNo < entries[k].seqNo || (entries[j].seqNo == entries[k].seqNo && j <= k)
  }

  /** For a log in any order: a row is incomplete exactly when the deciding line is a start; an end line
      gives the row its status, duration, confirmation and decision. */
  lemma HighestLineDecides(entries: seq<Entry>, rows: seq<Row>, confirmations: seq<Confirmation>, k: nat) returns (row: Row)
    requires IsSummary(rows, entries, confirmations)
    requires Decides(entries, k)
    ensures row in rows && row.callId == entries[k].callId
    ensures row.incomplete <==> entries[k].Start?
    ensures row.incomplete <==> row.status == Incomplete
    ensures entries[k].Start? ==>
        row.durationMs.None? && row.confirmationId.None? && row.confirmationDecision.None?
    ensures entries[k].End? ==>
        var e := entries[k];
        && row.status == (if e.status.Some? then e.status.value else Failed)
        && row.durationMs == e.durationMs && row.confirmationId == e.confirmationId
        && row.confirmationDecision ==
             (if e.confirmationId.None? then None else DecisionOf(confirmations, e.confirmationId.value))
  {
    BySeqIsOrder();
    var id := entries[k].callId;
    var m := LastOfSorted(entries, BySeq, (e: Entry) => e.callId == id, k);
    LastDecides(Sorted(entries, BySeq), id, m, confirmations);
    assert Mentions(entries, id);
    row :| row in rows && row.callId == id;
  }

  /** The line that names a call: the last start by number and place in the log or, without any start,
      the first end. */
  ghost predicate Names(entries: seq<Entry>, k: nat) {
    && k < |entries|
    && forall j | 0 <= j < |entries| && entries[j].callId == entries[k].callId ::
         if entries[k].Start? then
           entries[j].Start? ==>
             entries[j].seqNo < entries[k].seqNo || (entries[j].seqNo == entries[k].seqNo && j <= k)
         else
           entries[j].End?
           && (entries[k].seqNo < entries[j].seqNo || (entries[j].seqNo == entries[k].seqNo && k <= j))
  }

  /** For a log in any order: the naming line gives a call's row its number and its tool. */
  lemma NamingLineGivesNumber(entries: seq<Entry>, rows: seq<Row>, confirmations: seq<Confirmation>, k: nat) returns (row: Row)
    requires IsSummary(rows, entries, confirmations)
    requires Names(entries, k)
    ensures row in rows && row.callId == entries[k].callId
    ensures row.seqNo == entries[k].seqNo && row.tool == entries[k].tool
  {
    BySeqIsOrder();
    var id, sorted := entries[k].callId, Sorted(entries, BySeq);
    var m;
    if entries[k].Start? {
      m := LastOfSorted(entries, BySeq, (e: Entry) => e.callId == id && e.Start?, k);
    } else {
      m := FirstOfSorted(entries, BySeq, (e: Entry) => e.callId == id, k);
      SortedKeeps(entries, BySeq);
      forall j | 0 <= j < |sorted| && sorted[j].callId == id ensures sorted[j].End? {
        assert sorted[j] in multiset(entries);
        assert sorted[j] in entries;
      }
    }
    NamingGivesNumber(sorted, id, m, confirmations);
    assert Mentions(entries, id);
    row :| row in rows && row.callId == id;
  }
}
