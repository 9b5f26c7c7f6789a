/** The task table as a materialised view of the event log: every event is appended to the log and
    merged into the one row of its task. */
module TaskStore {
  import opened Common

  datatype Field =
    Name | Worker | Args | Kwargs | Result | Traceback | Stamps | ParentId | RootId | GroupId | ChordId

  // `fields` holds the text properties that are not null.
  datatype Event = Event(
    taskId: Id,
    state: string,
    timestamp: int,
    retries: Option<int>,
    runtime: Option<real>,
    fields: map<Field, string>)

  datatype Row = Row(
    state: string,
    received: Option<int>,
    started: Option<int>,
    finished: Option<int>,
    retries: Option<int>,
    runtime: Option<real>,
    fields: map<Field, string>)

  datatype Relation = Relation(rootId: Id, parentId: Option<Id>, childId: Id, kind: string)

  const FINAL_STATES := {"SUCCESS", "FAILURE", "REVOKED"}

  predicate ShouldPreserve(existing: string, incoming: string) {
    || (existing in FINAL_STATES && incoming !in FINAL_STATES)
    || (existing == "STARTED" && incoming in {"PENDING", "RECEIVED"})
    || (existing == "RECEIVED" && incoming == "PENDING")
  }

  function MergeRetries(existing: Option<int>, incoming: Option<int>): Option<int> {
    if incoming.None? then existing
    else if existing.None? then incoming
    else Some(if existing.value >= incoming.value then existing.value else incoming.value)
  }

  /** The columns an event writes: those without a value here are left out of the statement.  They
      have the shape of a row because an inserted row takes null for every column left out. */
  function ValuesFrom(e: Event, existing: Option<Row>): Row {
    var merged := MergeRetries(if existing.Some? then existing.value.retries else None, e.retries);
    if existing.Some? && ShouldPreserve(existing.value.state, e.state) then
      Row(existing.value.state, None, None, None,
          if merged != existing.value.retries then merged else None, None, map[])
    else
      Row(e.state,
          if e.state in {"RECEIVED", "PENDING"} then Some(e.timestamp) else None,
          if e.state == "STARTED" then Some(e.timestamp) else None,
          if e.state in FINAL_STATES then Some(e.timestamp) else None,
          merged, e.runtime, e.fields)
  }

  function Or<T>(written: Option<T>, kept: Option<T>): Option<T> {
    if written.Some? then written else kept
  }

  /** Insert, or on conflict update only the columns that are written. */
  function Upsert(existing: Option<Row>, values: Row): Row {
    if existing.None? then values
    else
      var row := existing.value;
      Row(values.state, Or(values.received, row.received), Or(values.started, row.started),
          Or(values.finished, row.finished), Or(values.retries, row.retries), Or(values.runtime, row.runtime),
          row.fields + values.fields)
  }

  function Apply(existing: Option<Row>, e: Event): Row {
    Upsert(existing, ValuesFrom(e, existing))
  }

  function Lookup(tasks: map<Id, Row>, id: Id): Option<Row> {
    if id in tasks then Some(tasks[id]) else None
  }

  /** The table that a log of events leads to. */
  function Replay(log: seq<Event>): map<Id, Row> {
    if log == [] then map[]
    else
      var tasks := Replay(Init(log));
      tasks[Last(log).taskId := Apply(Lookup(tasks, Last(log).taskId), Last(log))]
  }

  class Controller {
    var log: seq<Event>
    var tasks: map<Id, Row>
    var relations: seq<Relation>

    ghost predicate Valid()
      reads this
    {
      tasks == Replay(log)
    }

    constructor ()
      ensures Valid() && log == [] && relations == []
    {
      log, tasks, relations := [], map[], [];
    }

    /** The row and the log change together, and the table stays the replay of the log. */
    method StoreTaskEvent(event: Event)
      requires Valid()
      modifies `log, `tasks
      ensures Valid() && log == old(log) + [event]
      ensures tasks == old(tasks)[event.taskId := Apply(Lookup(old(tasks), event.taskId), event)]
    {
      var existing := Lookup(tasks, event.taskId);
      var values := ValuesFrom(event, existing);
      assert Init(log + [event]) == log;
      log := log + [event];
      if event.taskId in tasks {
        tasks := tasks[event.taskId := Upsert(Some(tasks[event.taskId]), values)];
      } else {
        tasks := tasks[event.taskId := values];
      }
    }

    method StoreTaskRelation(relation: Relation)
      modifies `relations
      ensures relations == old(relations) + [relation]
    {
      relations := relations + [relation];
    }

    method GetTask(taskId: Id) returns (task: Option<Row>)
      requires Valid()
      ensures task == RowOf(TaskLog(log, taskId))
    {
      task := Lookup(tasks, taskId);
      ReplayByTask(log, taskId);
    }
  }

  /******* One task at a time *******/

  function TaskLog(log: seq<Event>, id: Id): seq<Event> {
    if log == [] then []
    else TaskLog(Init(log), id) + if Last(log).taskId == id then [Last(log)] else []
  }

  function RowOf(events: seq<Event>): Option<Row> {
    if events == [] then None else Some(Apply(RowOf(Init(events)), Last(events)))
  }

  /** The row of a task is a function of that task's events alone. */
  lemma {:induction false} ReplayByTask(log: seq<Event>, id: Id)
    ensures Lookup(Replay(log), id) == RowOf(TaskLog(log, id))
  {
    if log != [] {
      ReplayByTask(Init(log), id);
      var before := TaskLog(Init(log), id);
      if Last(log).taskId == id {
        assert TaskLog(log, id) == before + [Last(log)];
        assert Init(before + [Last(log)]) == before && Last(before + [Last(log)]) == Last(log);
      } else {
        assert TaskLog(log, id) == before + [] == before;
      }
    }
  }

  /** Logs that agree task by task lead to the same table, however they are interleaved. */
  lemma InterleavingIrrelevant(log: seq<Event>, log': seq<Event>)
    requires forall id :: TaskLog(log, id) == TaskLog(log', id)
    ensures Replay(log) == Replay(log')
  {
    forall id
      ensures Lookup(Replay(log), id) == Lookup(Replay(log'), id)
    {
      ReplayByTask(log, id);
      ReplayByTask(log', id);
    }
    assert forall id :: id in Replay(log) <==> Lookup(Replay(log), id).Some?;
  }

  /** Events of different tasks commute. */
  lemma EventsCommute(log: seq<Event>, e: Event, f: Event)
    requires e.taskId != f.taskId
    ensures Replay(log + [e, f]) == Replay(log + [f, e])
  {
    assert Init(log + [e, f]) == log + [e] && Init(log + [f, e]) == log + [f];
    assert Init(log + [e]) == log == Init(log + [f]);
    assert forall id :: TaskLog(log + [e, f], id) == TaskLog(log + [f, e], id);
    InterleavingIrrelevant(log + [e, f], log + [f, e]);
  }

  /******* Ranks *******/

  predicate Final(s: string) {
    s in FINAL_STATES
  }

  predicate Ranked(s: string) {
    s in {"PENDING", "RECEIVED", "STARTED"} || Final(s)
  }

  function Rank(s: string): nat {
    if s == "PENDING" then 1 else if s == "RECEIVED" then 2 else if s == "STARTED" then 3 else if Final(s) then 4 else 0
  }

  /** A stored event is held back exactly when it would lower the rank of a ranked state, or would
      replace a final state by one that is not final. */
  lemma PreserveExactly(existing: string, incoming: string)
    ensures Ranked(incoming) ==> (ShouldPreserve(existing, incoming) <==> Rank(incoming) < Rank(existing))
    ensures !Ranked(incoming) ==> (ShouldPreserve(existing, incoming) <==> Final(existing))
  {
  }

  /** An event that is held back changes nothing but the number of retries. */
  lemma HeldBack(row: Row, e: Event)
    requires ShouldPreserve(row.state, e.state)
    ensures Apply(Some(row), e) == row.(retries := MergeRetries(row.retries, e.retries))
  {
  }

  /******* Duplicates *******/

  /** Delivering an event twice in a row leaves the row as delivering it once does. */
  lemma DuplicateHarmless(existing: Option<Row>, e: Event)
    ensures Apply(Some(Apply(existing, e)), e) == Apply(existing, e)
  {
  }

  lemma DuplicateLeavesTable(log: seq<Event>, e: Event)
    ensures Replay(log + [e, e]) == Replay(log + [e])
  {
    assert Init(log + [e, e]) == log + [e] && Init(log + [e]) == log;
    DuplicateHarmless(Lookup(Replay(log), e.taskId), e);
  }

  /******* Retries *******/

  ghost predicate Reports(events: seq<Event>, n: int) {
    exists e :: e in events && e.retries == Some(n)
  }

  ghost predicate IsMaxRetries(events: seq<Event>, r: Option<int>) {
    match r
    case None => forall n :: !Reports(events, n)
    case Some(m) => Reports(events, m) && forall n :: Reports(events, n) ==> n <= m
  }

  lemma ReportsOneMore(events: seq<Event>, n: int)
    requires events != []
    ensures Reports(events, n) <==> Reports(Init(events), n) || Last(events).retries == Some(n)
  {
  }

  /** The row's retries are the greatest number ever reported, in whatever state and order. */
  lemma {:induction false} RetriesAreMax(events: seq<Event>)
    requires events != []
    ensures IsMaxRetries(events, RowOf(events).value.retries)
  {
    forall n
      ensures Reports(events, n) <==> Reports(Init(events), n) || Last(events).retries == Some(n)
    {
      ReportsOneMore(events, n);
    }
    if |events| > 1 {
      RetriesAreMax(Init(events));
    }
    var before := RowOf(Init(events));
    assert RowOf(events).value.retries ==
           MergeRetries(if before.Some? then before.value.retries else None, Last(events).retries);
  }

  lemma MaxRetriesUnique(events: seq<Event>, events': seq<Event>, r: Option<int>, r': Option<int>)
    requires IsMaxRetries(events, r) && IsMaxRetries(events', r')
    requires forall e :: e in events <==> e in events'
    ensures r == r'
  {
    assert forall n :: Reports(events, n) <==> Reports(events', n);
  }

  /******* The state *******/

  ghost predicate LastFinal(events: seq<Event>, k: int) {
    && 0 <= k < |events| && Final(events[k].state)
    && forall j :: k < j < |events| ==> !Final(events[j].state)
  }

  /** Once a final event is stored, state and finish time come from the last such event, whatever
      arrives later. */
  lemma {:induction false} LastFinalWins(events: seq<Event>, k: int)
    requires LastFinal(events, k)
    ensures RowOf(events).value.state == events[k].state
    ensures RowOf(events).value.finished == Some(events[k].timestamp)
  {
    if k < |events| - 1 {
      assert LastFinal(Init(events), k);
      LastFinalWins(Init(events), k);
      HeldBack(RowOf(Init(events)).value, Last(events));
    }
  }

  /** A finish time is recorded exactly when the state is final, and that is exactly when some
      final event was stored. */
  lemma {:induction false} FinishedExactly(events: seq<Event>)
    requires events != []
    ensures var row := RowOf(events).value;
            && (row.finished.Some? <==> Final(row.state))
            && (Final(row.state) <==> exists e :: e in events && Final(e.state))
  {
    assert forall e :: e in events <==> e in Init(events) || e == Last(events);
    if |events| > 1 {
      FinishedExactly(Init(events));
    }
  }

  lemma StartedByOne(existing: Option<Row>, e: Event)
    ensures Apply(existing, e).started ==
            if e.state == "STARTED" && !(existing.Some? && Final(existing.value.state)) then Some(e.timestamp)
            else if existing.Some? then existing.value.started else None
  {
  }

  ghost predicate SomeFinal(events: seq<Event>) {
    exists e :: e in events && Final(e.state)
  }

  /** The start time is that of the last started event before the first final one. */
  lemma {:induction false} LastStartWins(events: seq<Event>, k: int)
    requires 0 <= k < |events| && events[k].state == "STARTED" && !SomeFinal(events[..k])
    requires forall j :: k < j < |events| && events[j].state == "STARTED" ==> SomeFinal(events[..j])
    ensures RowOf(events).value.started == Some(events[k].timestamp)
  {
    var before := Init(events);
    if before != [] {
      FinishedExactly(before);
    }
    StartedByOne(RowOf(before), Last(events));
    if k < |events| - 1 {
      forall j | 0 <= j < |before|
        ensures before[..j] == events[..j]
      {
      }
      LastStartWins(before, k);
    }
  }

  /** What a row once has it keeps: no column goes back to null. */
  lemma {:induction false} NothingForgotten(events: seq<Event>, more: seq<Event>)
    requires events != []
    ensures var row, row' := RowOf(events).value, RowOf(events + more).value;
            && row.fields.Keys <= row'.fields.Keys
            && (row.received.Some? ==> row'.received.Some?) && (row.started.Some? ==> row'.started.Some?)
            && (row.finished.Some? ==> row'.finished.Some?) && (row.runtime.Some? ==> row'.runtime.Some?)
            && (row.retries.Some? ==> row'.retries.Some?)
  {
    if more == [] {
      assert events + more == events;
    } else {
      assert Init(events + more) == events + Init(more);
      NothingForgotten(events, Init(more));
    }
  }

  ghost predicate HasMaxRank(events: seq<Event>, s: string) {
    && (exists e :: e in events && e.state == s)
    && (forall e :: e in events ==> Rank(e.state) <= Rank(s))
  }

  /** Over pending, received, started and final events the state has the greatest rank stored. */
  lemma {:induction false} StateHasMaxRank(events: seq<Event>)
    requires events != [] && forall e :: e in events ==> Ranked(e.state)
    ensures HasMaxRank(events, RowOf(events).value.state)
  {
    assert forall e :: e in events <==> e in Init(events) || e == Last(events);
    assert Last(events) in events;
    if |events| > 1 {
      StateHasMaxRank(Init(events));
      PreserveExactly(RowOf(Init(events)).value.state, Last(events).state);
    }
  }

  /** Any other state (such as a retry) starts over: before the first final event, the state is that
      of the last unranked event, or has the greatest rank stored since. */
  lemma {:induction false} UnrankedStartsOver(before: seq<Event>, u: Event, after: seq<Event>)
    requires !Ranked(u.state)
    requires forall e :: e in before ==> !Final(e.state)
    requires forall e :: e in after ==> Ranked(e.state)
    ensures after == [] ==> RowOf(before + [u] + after).value.state == u.state
    ensures after != [] ==> HasMaxRank(after, RowOf(before + [u] + after).value.state)
  {
    var events := before + [u] + after;
    if after == [] {
      assert Init(events) == before && Last(events) == u;
      if before != [] {
        FinishedExactly(before);
      }
    } else {
      assert Init(events) == before + [u] + Init(after) && Last(events) == Last(after);
      assert forall e :: e in after <==> e in Init(after) || e == Last(after);
      assert Last(after) in after;
      UnrankedStartsOver(before, u, Init(after));
      PreserveExactly(RowOf(Init(events)).value.state, Last(after).state);
    }
  }

  /******* Arrival order *******/

  lemma SameMembers(events: seq<Event>, events': seq<Event>)
    requires multiset(events) == multiset(events')
    ensures forall e :: e in events <==> e in events'
  {
    assert forall e :: e in events <==> e in multiset(events);
    assert forall e :: e in events' <==> e in multiset(events');
  }

  /** Whatever the states, two arrival orders agree on the retries and on whether the task is done. */
  lemma OrderKeepsRetriesAndDone(events: seq<Event>, events': seq<Event>)
    requires events != [] && multiset(events) == multiset(events')
    ensures events' != []
    ensures RowOf(events).value.retries == RowOf(events').value.retries
    ensures Final(RowOf(events).value.state) <==> Final(RowOf(events').value.state)
  {
    SameMembers(events, events');
    assert events[0] in events';
    RetriesAreMax(events);
    RetriesAreMax(events');
    MaxRetriesUnique(events, events', RowOf(events).value.retries, RowOf(events').value.retries);
    FinishedExactly(events);
    FinishedExactly(events');
  }

  /** Over ranked states they also agree on the rank. */
  lemma OrderKeepsRank(events: seq<Event>, events': seq<Event>)
    requires events != [] && multiset(events) == multiset(events')
    requires forall e :: e in events ==> Ranked(e.state)
    ensures events' != [] && Rank(RowOf(events).value.state) == Rank(RowOf(events').value.state)
  {
    OrderKeepsRetriesAndDone(events, events');
    SameMembers(events, events');
    StateHasMaxRank(events);
    StateHasMaxRank(events');
  }

  /** Over ranked states even a late redelivery, after other events of the task, changes neither the
      rank nor the retries. */
  lemma LateDuplicateHarmless(events: seq<Event>, e: Event)
    requires e in events && forall x :: x in events ==> Ranked(x.state)
    ensures Rank(RowOf(events + [e]).value.state) == Rank(RowOf(events).value.state)
    ensures RowOf(events + [e]).value.retries == RowOf(events).value.retries
  {
    assert forall x :: x in events + [e] <==> x in events;
    StateHasMaxRank(events);
    StateHasMaxRank(events + [e]);
    RetriesAreMax(events);
    RetriesAreMax(events + [e]);
    MaxRetriesUnique(events, events + [e], RowOf(events).value.retries, RowOf(events + [e]).value.retries);
  }

  predicate AllRanked(events: seq<Event>) {
    forall e :: e in events ==> Ranked(e.state)
  }

  predicate NoneRanked(events: seq<Event>) {
    forall e :: e in events ==> !Ranked(e.state)
  }

  ghost predicate OrderIrrelevant(events: seq<Event>)
    requires events != []
  {
    forall events': seq<Event> :: events' != [] && multiset(events') == multiset(events) ==>
                                    Rank(RowOf(events').value.state) == Rank(RowOf(events).value.state)
  }

  /** Until a final event is stored, the last event decides whether the state is a ranked one. */
  lemma LastDecidesRanked(events: seq<Event>)
    requires events != [] && !SomeFinal(events)
    ensures Ranked(RowOf(events).value.state) <==> Ranked(Last(events).state)
  {
    if |events| > 1 {
      FinishedExactly(Init(events));
      PreserveExactly(RowOf(Init(events)).value.state, Last(events).state);
    }
  }

  lemma MoveToEnd(events: seq<Event>, e: Event) returns (events': seq<Event>)
    requires e in events
    ensures events' != [] && Last(events') == e && multiset(events') == multiset(events)
  {
    var i :| 0 <= i < |events| && events[i] == e;
    assert events == events[..i] + [e] + events[i + 1..];
    events' := events[..i] + events[i + 1..] + [e];
  }

  lemma OneKindOrderIrrelevant(events: seq<Event>, events': seq<Event>)
    requires events != [] && multiset(events') == multiset(events)
    requires SomeFinal(events) || AllRanked(events) || NoneRanked(events)
    ensures events' != [] && Rank(RowOf(events').value.state) == Rank(RowOf(events).value.state)
  {
    OrderKeepsRetriesAndDone(events, events');
    SameMembers(events, events');
    FinishedExactly(events);
    FinishedExactly(events');
    if !SomeFinal(events) {
      if AllRanked(events) {
        OrderKeepsRank(events, events');
      } else {
        LastDecidesRanked(events);
        LastDecidesRanked(events');
      }
    }
  }

  lemma MixedOrderMatters(events: seq<Event>, r: Event, u: Event)
    requires !SomeFinal(events) && r in events && u in events && Ranked(r.state) && !Ranked(u.state)
    ensures !OrderIrrelevant(events)
  {
    var up := MoveToEnd(events, r);
    var down := MoveToEnd(events, u);
    SameMembers(events, up);
    SameMembers(events, down);
    LastDecidesRanked(up);
    LastDecidesRanked(down);
    assert Rank(RowOf(up).value.state) != Rank(RowOf(down).value.state);
  }

  /** All arrival orders of some events agree on the rank exactly when one of them is final, or all are
      ranked, or none is: ranked and unranked states, without a final one, depend on their order. */
  lemma OrderMattersExactly(events: seq<Event>)
    requires events != []
    ensures OrderIrrelevant(events) <==> SomeFinal(events) || AllRanked(events) || NoneRanked(events)
  {
    if SomeFinal(events) || AllRanked(events) || NoneRanked(events) {
      forall events': seq<Event> | events' != [] && multiset(events') == multiset(events)
        ensures Rank(RowOf(events').value.state) == Rank(RowOf(events).value.state)
      {
        OneKindOrderIrrelevant(events, events');
      }
    } else {
      var r :| r in events && Ranked(r.state);
      var u :| u in events && !Ranked(u.state);
      MixedOrderMatters(events, r, u);
    }
  }

  /** The smallest such case: a pending and a retry event. */
  lemma RetryOrderMatters()
    ensures var p, r := Event("t", "PENDING", 0, None, None, map[]), Event("t", "RETRY", 1, None, None, map[]);
            Rank(RowOf([p, r]).value.state) != Rank(RowOf([r, p]).value.state)
  {
    var p, r := Event("t", "PENDING", 0, None, None, map[]), Event("t", "RETRY", 1, None, None, map[]);
    assert Init([p, r]) == [p] && Init([r, p]) == [r] && Init([p]) == [] == Init([r]);
    assert RowOf([p]).value.state == "PENDING" && RowOf([r]).value.state == "RETRY";
    assert RowOf([p, r]).value.state == "RETRY" && RowOf([r, p]).value.state == "PENDING";
  }
}
