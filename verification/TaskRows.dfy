/** What the row of a task shows, column by column, in terms of the events stored for it. */
module TaskRows {
  import opened Common
  import opened TaskStore

  ghost predicate Outranks(events: seq<Event>, k: nat, i: nat)
    requires k < i < |events|
  {
    && Rank(events[k].state) > Rank(events[i].state)
    && (Final(events[k].state) || forall l :: k < l <= i ==> Ranked(events[l].state))
  }

  /** An event is outranked when an earlier one is of a higher rank, and that one still counts: a final
      state counts for ever, another one until an unranked state starts over. */
  ghost predicate Outranked(events: seq<Event>, i: nat)
    requires i < |events|
  {
    exists k :: 0 <= k < i && Outranks(events, k, i)
  }

  ghost predicate StillCounts(events: seq<Event>, k: int) {
    0 <= k < |events| && (Final(events[k].state) || forall l :: k < l < |events| ==> Ranked(events[l].state))
  }

  lemma StillCountsBefore(events: seq<Event>, k: int)
    requires events != [] && 0 <= k < |events| - 1
    ensures StillCounts(events, k) <==>
            StillCounts(Init(events), k) && (Final(events[k].state) || Ranked(Last(events).state))
  {
  }

  /** The state of an event that still counts, and of the highest rank among these. */
  ghost predicate Highest(events: seq<Event>, s: string) {
    && (exists k :: StillCounts(events, k) && events[k].state == s)
    && (forall k :: StillCounts(events, k) ==> Rank(events[k].state) <= Rank(s))
  }

  lemma HighestStays(events: seq<Event>, s: string)
    requires |events| > 1 && Highest(Init(events), s) && ShouldPreserve(s, Last(events).state)
    ensures Highest(events, s)
  {
    PreserveExactly(s, Last(events).state);
    var k :| StillCounts(Init(events), k) && Init(events)[k].state == s;
    StillCountsBefore(events, k);
    assert StillCounts(events, k);
    forall j | StillCounts(events, j)
      ensures Rank(events[j].state) <= Rank(s)
    {
      if j < |events| - 1 {
        StillCountsBefore(events, j);
        assert Init(events)[j] == events[j];
      }
    }
  }

  lemma HighestIsLast(events: seq<Event>, s: string)
    requires |events| > 1 && Highest(Init(events), s) && !ShouldPreserve(s, Last(events).state)
    ensures Highest(events, Last(events).state)
  {
    PreserveExactly(s, Last(events).state);
    assert StillCounts(events, |events| - 1);
    forall j | StillCounts(events, j)
      ensures Rank(events[j].state) <= Rank(Last(events).state)
    {
      if j < |events| - 1 {
        StillCountsBefore(events, j);
        assert Init(events)[j] == events[j];
      }
    }
  }

  lemma {:induction false} StateHighest(events: seq<Event>)
    requires events != []
    ensures Highest(events, RowOf(events).value.state)
  {
    if |events| == 1 {
      assert Init(events) == [];
      assert StillCounts(events, 0);
    } else {
      StateHighest(Init(events));
      var s := RowOf(Init(events)).value.state;
      if ShouldPreserve(s, Last(events).state) {
        HighestStays(events, s);
      } else {
        HighestIsLast(events, s);
      }
    }
  }

  lemma CountsBeforeOutranks(events: seq<Event>, k: int, i: nat)
    requires i < |events|
    ensures 0 <= k < i ==>
              (Outranks(events, k, i) <==>
               && StillCounts(events[..i], k) && Rank(events[k].state) > Rank(events[i].state)
               && (Final(events[k].state) || Ranked(events[i].state)))
  {
    var before := events[..i];
    assert forall l :: 0 <= l < i ==> before[l] == events[l];
  }

  /** An event is held back exactly when it is outranked. */
  lemma HeldBackExactly(events: seq<Event>, i: nat)
    requires i < |events|
    ensures Outranked(events, i) <==>
            i > 0 && ShouldPreserve(RowOf(events[..i]).value.state, events[i].state)
  {
    if i > 0 {
      var before, s := events[..i], RowOf(events[..i]).value.state;
      StateHighest(before);
      PreserveExactly(s, events[i].state);
      forall k | 0 <= k < i
        ensures Outranks(events, k, i) <==>
                && StillCounts(before, k) && Rank(before[k].state) > Rank(events[i].state)
                && (Final(before[k].state) || Ranked(events[i].state))
      {
        CountsBeforeOutranks(events, k, i);
      }
      var k :| StillCounts(before, k) && before[k].state == s;
      assert ShouldPreserve(s, events[i].state) ==> Outranks(events, k, i);
    }
  }

  /******* Columns *******/

  /** An event that writes a column: it is not held back and has a value for it. */
  ghost predicate Writes<T>(events: seq<Event>, column: Event -> Option<T>, i: int) {
    0 <= i < |events| && !Outranked(events, i) && column(events[i]).Some?
  }

  ghost predicate WritesLast<T>(events: seq<Event>, column: Event -> Option<T>, i: int) {
    Writes(events, column, i) && forall j :: j > i ==> !Writes(events, column, j)
  }

  /** The value of the last event that writes the column; nothing if none does. */
  ghost predicate IsLastWritten<T>(events: seq<Event>, column: Event -> Option<T>, value: Option<T>) {
    match value
    case None => forall i :: !Writes(events, column, i)
    case Some(_) => exists i :: WritesLast(events, column, i) && column(events[i]) == value
  }

  lemma WritesBefore<T>(events: seq<Event>, column: Event -> Option<T>, i: int)
    requires events != [] && i < |events| - 1
    ensures Writes(events, column, i) <==> Writes(Init(events), column, i)
  {
    if 0 <= i {
      forall k | 0 <= k < i
        ensures Outranks(events, k, i) <==> Outranks(Init(events), k, i)
      {
        assert forall l :: 0 <= l <= i ==> Init(events)[l] == events[l];
      }
    }
  }

  lemma WritesLastBefore<T>(events: seq<Event>, column: Event -> Option<T>, i: int)
    requires events != [] && !Writes(events, column, |events| - 1) && WritesLast(Init(events), column, i)
    ensures WritesLast(events, column, i)
  {
    WritesBefore(events, column, i);
    forall j | j > i
      ensures !Writes(events, column, j)
    {
      if j < |events| - 1 {
        WritesBefore(events, column, j);
      }
    }
  }

  lemma OneMoreWritten<T>(events: seq<Event>, column: Event -> Option<T>, before: Option<T>, value: Option<T>)
    requires events != [] && IsLastWritten(Init(events), column, before)
    requires value == if Outranked(events, |events| - 1) || column(Last(events)).None? then before
                      else column(Last(events))
    ensures IsLastWritten(events, column, value)
  {
    var last := |events| - 1;
    if Writes(events, column, last) {
      assert WritesLast(events, column, last);
    } else if before.Some? {
      var i :| WritesLast(Init(events), column, i) && column(Init(events)[i]) == before;
      WritesLastBefore(events, column, i);
    } else {
      forall i | i < last
        ensures !Writes(events, column, i)
      {
        WritesBefore(events, column, i);
      }
    }
  }

  // What an event reports for each column.
  function StateColumn(e: Event): Option<string> {
    Some(e.state)
  }

  function ReceivedColumn(e: Event): Option<int> {
    if e.state == "PENDING" || e.state == "RECEIVED" then Some(e.timestamp) else None
  }

  function StartedColumn(e: Event): Option<int> {
    if e.state == "STARTED" then Some(e.timestamp) else None
  }

  function FinishedColumn(e: Event): Option<int> {
    if e.state == "SUCCESS" || e.state == "FAILURE" || e.state == "REVOKED" then Some(e.timestamp) else None
  }

  function RuntimeColumn(e: Event): Option<real> {
    e.runtime
  }

  function Text(fields: map<Field, string>, f: Field): Option<string> {
    if f in fields then Some(fields[f]) else None
  }

  function TextColumn(f: Field): Event -> Option<string> {
    (e: Event) => Text(e.fields, f)
  }

  // The columns after one event: those it writes, and the others as they were.
  ghost predicate Advances(before: Option<Row>, e: Event, held: bool, row: Row) {
    var kept := before.Some?;
    && row.state == (if held && kept then before.value.state else e.state)
    && row.received == (if !held && ReceivedColumn(e).Some? then ReceivedColumn(e)
                        else if kept then before.value.received else None)
    && row.started == (if !held && StartedColumn(e).Some? then StartedColumn(e)
                       else if kept then before.value.started else None)
    && row.finished == (if !held && FinishedColumn(e).Some? then FinishedColumn(e)
                        else if kept then before.value.finished else None)
    && row.runtime == (if !held && e.runtime.Some? then e.runtime
                       else if kept then before.value.runtime else None)
    && forall f :: Text(row.fields, f) == if !held && f in e.fields then Text(e.fields, f)
                                          else if kept then Text(before.value.fields, f) else None
  }

  lemma ApplyAdvances(before: Option<Row>, e: Event)
    ensures Advances(before, e, before.Some? && ShouldPreserve(before.value.state, e.state), Apply(before, e))
  {
  }

  ghost predicate Shows(events: seq<Event>, row: Row) {
    && IsLastWritten(events, StateColumn, Some(row.state))
    && IsLastWritten(events, ReceivedColumn, row.received)
    && IsLastWritten(events, StartedColumn, row.started)
    && IsLastWritten(events, FinishedColumn, row.finished)
    && IsLastWritten(events, RuntimeColumn, row.runtime)
    && forall f :: IsLastWritten(events, TextColumn(f), Text(row.fields, f))
  }

  /** Every column of a row, the retries apart, shows what the last event reported for it that was not
      held back: the state, the three times, the runtime and each text. */
  lemma {:induction false} RowExact(events: seq<Event>)
    requires events != []
    ensures Shows(events, RowOf(events).value)
  {
    var last, e, row := |events| - 1, Last(events), RowOf(events).value;
    var before := RowOf(Init(events));
    HeldBackExactly(events, last);
    assert events[..last] == Init(events);
    ApplyAdvances(before, e);
    assert Advances(before, e, Outranked(events, last), row);
    if last > 0 {
      RowExact(Init(events));
      var old0 := before.value;
      OneMoreWritten(events, StateColumn, Some(old0.state), Some(row.state));
      OneMoreWritten(events, ReceivedColumn, old0.received, row.received);
      OneMoreWritten(events, StartedColumn, old0.started, row.started);
      OneMoreWritten(events, FinishedColumn, old0.finished, row.finished);
      OneMoreWritten(events, RuntimeColumn, old0.runtime, row.runtime);
      forall f
        ensures IsLastWritten(events, TextColumn(f), Text(row.fields, f))
      {
        OneMoreWritten(events, TextColumn(f), Text(old0.fields, f), Text(row.fields, f));
      }
    } else {
      OneMoreWritten(events, StateColumn, None, Some(row.state));
      OneMoreWritten(events, ReceivedColumn, None, row.received);
      OneMoreWritten(events, StartedColumn, None, row.started);
      OneMoreWritten(events, FinishedColumn, None, row.finished);
      OneMoreWritten(events, RuntimeColumn, None, row.runtime);
      forall f
        ensures IsLastWritten(events, TextColumn(f), Text(row.fields, f))
      {
        OneMoreWritten(events, TextColumn(f), None, Text(row.fields, f));
      }
    }
  }
}
