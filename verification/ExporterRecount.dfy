/** The counts of the exporters against a recount of the events themselves: the latest event of every
    task, with the task name and the worker that it reports. */
module ExporterRecount {
  import opened Common
  import opened Exporters

  /** What a reported text is counted under: itself, or "unknown" if it is missing or empty. */
  ghost predicate CountedAs(reported: Option<string>, text: string) {
    if reported == None || reported == Some("") then text == "unknown" else reported == Some(text)
  }

  ghost predicate Concerns(e: Event, id: Id) {
    e.OnTask? && e.task.taskId == id
  }

  /** The event is the latest of its task. */
  ghost predicate IsLatest(events: seq<Event>, k: int) {
    && 0 <= k < |events| && events[k].OnTask?
    && forall j :: k < j < |events| ==> !Concerns(events[j], events[k].task.taskId)
  }

  ghost predicate ReceivedAs(e: Event, name: string, worker: string) {
    e.OnTask? && e.task.state == "RECEIVED" && CountedAs(e.task.name, name) && CountedAs(e.task.worker, worker)
  }

  ghost predicate StartedOn(e: Event, worker: string) {
    e.OnTask? && e.task.state == "STARTED" && CountedAs(e.task.worker, worker)
  }

  /** The tasks whose latest event is a received one of the task name and the worker. */
  ghost function ReceivedTasks(events: seq<Event>, name: string, worker: string): set<Id> {
    set k | 0 <= k < |events| && IsLatest(events, k) && ReceivedAs(events[k], name, worker) :: events[k].task.taskId
  }

  /** The tasks whose latest event is a started one on the worker. */
  ghost function StartedTasks(events: seq<Event>, worker: string): set<Id> {
    set k | 0 <= k < |events| && IsLatest(events, k) && StartedOn(events[k], worker) :: events[k].task.taskId
  }

  /******* The tracked tasks are those with a latest event that is not terminal *******/

  lemma LatestBefore(events: seq<Event>, k: int)
    requires events != [] && k < |events| - 1
    ensures IsLatest(events, k) <==>
            IsLatest(Init(events), k) && !Concerns(Last(events), Init(events)[k].task.taskId)
  {
  }

  ghost predicate TrackedAs(trackers: Trackers, e: Event) {
    e.OnTask? &&
    var id := e.task.taskId;
    if e.task.state in {"SUCCESS", "FAILURE", "REVOKED", "REJECTED"} then id !in trackers
    else id in trackers && trackers[id].state == e.task.state
         && CountedAs(e.task.name, trackers[id].name) && CountedAs(e.task.worker, trackers[id].worker)
  }

  ghost predicate TrackersMatch(events: seq<Event>, trackers: Trackers) {
    && (forall k :: IsLatest(events, k) ==> TrackedAs(trackers, events[k]))
    && (forall id :: id in trackers ==> exists k :: IsLatest(events, k) && events[k].task.taskId == id)
  }

  lemma TrackedNow(trackers: Trackers, e: TaskEvent)
    ensures TrackedAs(Tracked(trackers, e), OnTask(e))
    ensures forall id :: id != e.taskId ==> (id in Tracked(trackers, e) <==> id in trackers)
    ensures forall id :: id != e.taskId && id in trackers ==> Tracked(trackers, e)[id] == trackers[id]
  {
  }

  lemma TrackersMatchNext(events: seq<Event>, trackers: Trackers)
    requires events != [] && Last(events).OnTask? && TrackersMatch(Init(events), trackers)
    ensures TrackersMatch(events, Tracked(trackers, Last(events).task))
  {
    var last, e := |events| - 1, Last(events).task;
    TrackedNow(trackers, e);
    assert IsLatest(events, last);
    forall k | IsLatest(events, k)
      ensures TrackedAs(Tracked(trackers, e), events[k])
    {
      if k < last {
        LatestBefore(events, k);
        assert TrackedAs(trackers, Init(events)[k]);
      }
    }
    forall id | id in Tracked(trackers, e)
      ensures exists k :: IsLatest(events, k) && events[k].task.taskId == id
    {
      if id != e.taskId {
        var k :| IsLatest(Init(events), k) && Init(events)[k].task.taskId == id;
        LatestBefore(events, k);
        assert events[k] == Init(events)[k];
      } else {
        assert events[last].task.taskId == id;
      }
    }
  }

  lemma TrackersMatchWorker(events: seq<Event>, trackers: Trackers)
    requires events != [] && Last(events).OnWorker? && TrackersMatch(Init(events), trackers)
    ensures TrackersMatch(events, trackers)
  {
    forall k | k < |events| - 1
      ensures IsLatest(events, k) <==> IsLatest(Init(events), k)
    {
      LatestBefore(events, k);
    }
    forall id | id in trackers
      ensures exists k :: IsLatest(events, k) && events[k].task.taskId == id
    {
      var k :| IsLatest(Init(events), k) && Init(events)[k].task.taskId == id;
      assert events[k] == Init(events)[k];
    }
  }

  lemma {:induction false} RunMatches(events: seq<Event>)
    ensures TrackersMatch(events, Run(events).trackers)
  {
    if events != [] {
      RunMatches(Init(events));
      if Last(events).OnTask? {
        TrackersMatchNext(events, Run(Init(events)).trackers);
      } else {
        TrackersMatchWorker(events, Run(Init(events)).trackers);
      }
    }
  }

  lemma ReceivedIsRecount(events: seq<Event>, name: string, worker: string)
    ensures Received(Run(events).trackers, (name, worker)) == ReceivedTasks(events, name, worker)
  {
    var trackers := Run(events).trackers;
    RunMatches(events);
    forall id
      ensures id in Received(trackers, (name, worker)) <==> id in ReceivedTasks(events, name, worker)
    {
      if id in trackers {
        var k :| IsLatest(events, k) && events[k].task.taskId == id;
        assert TrackedAs(trackers, events[k]);
      }
      if id in ReceivedTasks(events, name, worker) {
        var k :| IsLatest(events, k) && ReceivedAs(events[k], name, worker) && events[k].task.taskId == id;
        assert TrackedAs(trackers, events[k]);
      }
    }
  }

  lemma StartedIsRecount(events: seq<Event>, worker: string)
    ensures Started(Run(events).trackers, worker) == StartedTasks(events, worker)
  {
    var trackers := Run(events).trackers;
    RunMatches(events);
    forall id
      ensures id in Started(trackers, worker) <==> id in StartedTasks(events, worker)
    {
      if id in trackers {
        var k :| IsLatest(events, k) && events[k].task.taskId == id;
        assert TrackedAs(trackers, events[k]);
      }
      if id in StartedTasks(events, worker) {
        var k :| IsLatest(events, k) && StartedOn(events[k], worker) && events[k].task.taskId == id;
        assert TrackedAs(trackers, events[k]);
      }
    }
  }

  /******* Moves, in terms of the events *******/

  /** A task received twice in a row, the second time under another name or on another worker. */
  ghost predicate ReceivedElsewhere(events: seq<Event>, e: Event) {
    exists k, name, worker ::
      IsLatest(events, k) && Concerns(e, events[k].task.taskId) && e.task.state == "RECEIVED"
      && ReceivedAs(events[k], name, worker) && !ReceivedAs(e, name, worker)
  }

  /** A task started twice in a row, the second time on another worker. */
  ghost predicate StartedElsewhere(events: seq<Event>, e: Event) {
    exists k, worker ::
      IsLatest(events, k) && Concerns(e, events[k].task.taskId) && e.task.state == "STARTED"
      && StartedOn(events[k], worker) && !StartedOn(e, worker)
  }

  /** A worker reports a number of running tasks that is not the recount. */
  ghost predicate Overrides(events: seq<Event>, e: Event) {
    && e.OnWorker? && e.active.Some?
    && (if e.active.value < 0 then 0 else e.active.value) != |StartedTasks(events, e.hostname)|
  }

  lemma MovesReceivedExactly(events: seq<Event>, e: Event)
    ensures MovesReceived(Run(events), e) <==> ReceivedElsewhere(events, e)
  {
    var trackers := Run(events).trackers;
    RunMatches(events);
    if MovesReceived(Run(events), e) {
      var id := e.task.taskId;
      var k :| IsLatest(events, k) && events[k].task.taskId == id;
      assert TrackedAs(trackers, events[k]);
      assert ReceivedAs(events[k], trackers[id].name, trackers[id].worker);
      assert !ReceivedAs(e, trackers[id].name, trackers[id].worker);
    }
    if ReceivedElsewhere(events, e) {
      var k, name, worker :|
        IsLatest(events, k) && Concerns(e, events[k].task.taskId) && e.task.state == "RECEIVED"
        && ReceivedAs(events[k], name, worker) && !ReceivedAs(e, name, worker);
      assert TrackedAs(trackers, events[k]);
    }
  }

  lemma MovesStartedExactly(events: seq<Event>, e: Event)
    ensures MovesStarted(Run(events), e) <==> StartedElsewhere(events, e) || Overrides(events, e)
  {
    var trackers := Run(events).trackers;
    RunMatches(events);
    if e.OnWorker? {
      StartedIsRecount(events, e.hostname);
    } else {
      if MovesStarted(Run(events), e) {
        var id := e.task.taskId;
        var k :| IsLatest(events, k) && events[k].task.taskId == id;
        assert TrackedAs(trackers, events[k]);
        assert StartedOn(events[k], trackers[id].worker) && !StartedOn(e, trackers[id].worker);
      }
      if StartedElsewhere(events, e) {
        var k, worker :|
          IsLatest(events, k) && Concerns(e, events[k].task.taskId) && e.task.state == "STARTED"
          && StartedOn(events[k], worker) && !StartedOn(e, worker);
        assert TrackedAs(trackers, events[k]);
      }
    }
  }

  /******* Counts and recount *******/

  ghost predicate ReceivedCounted(events: seq<Event>) {
    forall name, worker :: Get(Run(events).prefetched, (name, worker)) == |ReceivedTasks(events, name, worker)|
  }

  ghost predicate StartedCounted(events: seq<Event>) {
    forall worker :: Get(Run(events).active, worker) == |StartedTasks(events, worker)|
  }

  ghost predicate AlwaysReceivedCounted(events: seq<Event>) {
    ReceivedCounted(events) && (events != [] ==> AlwaysReceivedCounted(Init(events)))
  }

  ghost predicate AlwaysStartedCounted(events: seq<Event>) {
    StartedCounted(events) && (events != [] ==> AlwaysStartedCounted(Init(events)))
  }

  ghost predicate NoneReceivedElsewhere(events: seq<Event>) {
    events != [] ==> NoneReceivedElsewhere(Init(events)) && !ReceivedElsewhere(Init(events), Last(events))
  }

  ghost predicate NoneStartedElsewhere(events: seq<Event>) {
    events != [] ==>
      && NoneStartedElsewhere(Init(events))
      && !StartedElsewhere(Init(events), Last(events)) && !Overrides(Init(events), Last(events))
  }

  lemma ReceivedCountedIsOk(events: seq<Event>)
    ensures ReceivedCounted(events) <==> PrefetchedOk(Run(events))
  {
    forall key: Key
      ensures Received(Run(events).trackers, key) == ReceivedTasks(events, key.0, key.1) && key == (key.0, key.1)
    {
      ReceivedIsRecount(events, key.0, key.1);
    }
    if ReceivedCounted(events) {
      forall key: Key
        ensures Get(Run(events).prefetched, key) == |Received(Run(events).trackers, key)|
      {
        assert Get(Run(events).prefetched, (key.0, key.1)) == |ReceivedTasks(events, key.0, key.1)|;
      }
    }
  }

  lemma StartedCountedIsOk(events: seq<Event>)
    ensures StartedCounted(events) <==> ActiveOk(Run(events))
  {
    forall worker
      ensures Started(Run(events).trackers, worker) == StartedTasks(events, worker)
    {
      StartedIsRecount(events, worker);
    }
  }

  /** Along a whole run the received counts are, at every moment, the numbers of tasks whose latest event
      is a received one of that task name and worker, if and only if no task is received twice in a row
      under different ones. */
  lemma {:induction false} ReceivedCountsExact(events: seq<Event>)
    ensures AlwaysReceivedCounted(events) <==> NoneReceivedElsewhere(events)
  {
    ReceivedCountedIsOk(events);
    if events != [] {
      ReceivedCountsExact(Init(events));
      ReceivedCountedIsOk(Init(events));
      MovesReceivedExactly(Init(events), Last(events));
      if PrefetchedOk(Run(Init(events))) {
        PrefetchedStep(Run(Init(events)), Last(events));
      }
      AlwaysMeansNow(Init(events));
    }
  }

  lemma AlwaysMeansNow(events: seq<Event>)
    ensures AlwaysReceivedCounted(events) ==> ReceivedCounted(events)
    ensures AlwaysStartedCounted(events) ==> StartedCounted(events)
  {
  }

  /** The same for the running tasks of a worker, as long as no worker reports another number. */
  lemma {:induction false} StartedCountsExact(events: seq<Event>)
    ensures AlwaysStartedCounted(events) <==> NoneStartedElsewhere(events)
  {
    StartedCountedIsOk(events);
    if events != [] {
      StartedCountsExact(Init(events));
      StartedCountedIsOk(Init(events));
      MovesStartedExactly(Init(events), Last(events));
      if ActiveOk(Run(Init(events))) {
        ActiveStep(Run(Init(events)), Last(events));
      }
      AlwaysMeansNow(Init(events));
    }
  }
}
