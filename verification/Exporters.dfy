/** The two metrics exporters: both keep counts of received and running tasks beside the tracked
    task states; one publishes the counts as gauges, the other as a stream of differences. */
module Exporters {
  import opened Common

  type Key = (string, string)   // task name and worker

  // The state is in upper case, as the exporters turn it first.
  datatype TaskEvent = TaskEvent(taskId: Id, name: Option<string>, worker: Option<string>, state: string)

  datatype Event =
    | OnTask(task: TaskEvent)
    | OnWorker(hostname: string, brokerUrl: Option<string>, active: Option<int>)

  datatype Tracker = Tracker(name: string, worker: string, state: string)

  const TERMINAL_STATES := {"SUCCESS", "FAILURE", "REVOKED", "REJECTED"}

  function OrUnknown(o: Option<string>): string {
    if Truthy(o) then o.value else "unknown"
  }

  function KeyOf(e: TaskEvent): Key {
    (OrUnknown(e.name), OrUnknown(e.worker))
  }

  /******* Counts *******/

  function Get<K>(counts: map<K, int>, key: K): int {
    if key in counts then counts[key] else 0
  }

  function AtLeastZero(n: int): int {
    if n <= 0 then 0 else n
  }

  /** Counts at or below zero are dropped. */
  function Put<K>(counts: map<K, int>, key: K, count: int): map<K, int> {
    if count <= 0 then counts - {key} else counts[key := count]
  }

  lemma PutGet<K>(counts: map<K, int>, key: K, count: int, k: K)
    ensures Get(Put(counts, key, count), k) == if k == key then AtLeastZero(count) else Get(counts, k)
  {
  }

  /******* What an event does to the counts *******/

  type Trackers = map<Id, Tracker>

  function StateIn(trackers: Trackers, id: Id): Option<string> {
    if id in trackers then Some(trackers[id].state) else None
  }

  function Tracked(trackers: Trackers, e: TaskEvent): Trackers {
    if e.state in TERMINAL_STATES then trackers - {e.taskId}
    else trackers[e.taskId := Tracker(KeyOf(e).0, KeyOf(e).1, e.state)]
  }

  predicate Leaves(trackers: Trackers, e: TaskEvent, state: string) {
    StateIn(trackers, e.taskId) == Some(state) && e.state != state
  }

  predicate Enters(trackers: Trackers, e: TaskEvent, state: string) {
    e.state == state && StateIn(trackers, e.taskId) != Some(state)
  }

  function AddTo<K>(counts: map<K, int>, key: K, delta: int): map<K, int> {
    Put(counts, key, Get(counts, key) + delta)
  }

  datatype Index = Index(trackers: Trackers, prefetched: map<Key, int>, active: map<string, int>)

  const EMPTY := Index(map[], map[], map[])

  function TrackTask(ix: Index, e: TaskEvent): Index {
    var id := e.taskId;
    var p1 := if Leaves(ix.trackers, e, "RECEIVED")
              then AddTo(ix.prefetched, (ix.trackers[id].name, ix.trackers[id].worker), -1) else ix.prefetched;
    var a1 := if Leaves(ix.trackers, e, "STARTED")
              then AddTo(ix.active, ix.trackers[id].worker, -1) else ix.active;
    Index(Tracked(ix.trackers, e),
          if Enters(ix.trackers, e, "RECEIVED") then AddTo(p1, KeyOf(e), 1) else p1,
          if Enters(ix.trackers, e, "STARTED") then AddTo(a1, KeyOf(e).1, 1) else a1)
  }

  function Step(ix: Index, e: Event): Index {
    match e
    case OnTask(task) => TrackTask(ix, task)
    case OnWorker(hostname, _, active) =>
      if active.Some? then ix.(active := Put(ix.active, hostname, active.value)) else ix
  }

  function Run(events: seq<Event>): Index {
    if events == [] then EMPTY else Step(Run(Init(events)), Last(events))
  }

  /******* The index against a recount *******/

  /** The tasks tracked as received under a key, and those tracked as started on a worker. */
  function Received(trackers: Trackers, key: Key): set<Id> {
    set id | id in trackers && trackers[id].state == "RECEIVED" && (trackers[id].name, trackers[id].worker) == key
  }

  function Started(trackers: Trackers, worker: string): set<Id> {
    set id | id in trackers && trackers[id].state == "STARTED" && trackers[id].worker == worker
  }

  ghost predicate PrefetchedOk(ix: Index) {
    forall key :: Get(ix.prefetched, key) == |Received(ix.trackers, key)|
  }

  ghost predicate ActiveOk(ix: Index) {
    forall worker :: Get(ix.active, worker) == |Started(ix.trackers, worker)|
  }

  /** A repeated received event under another name or worker. */
  predicate MovesReceived(ix: Index, e: Event) {
    && e.OnTask? && e.task.state == "RECEIVED" && StateIn(ix.trackers, e.task.taskId) == Some("RECEIVED")
    && (ix.trackers[e.task.taskId].name, ix.trackers[e.task.taskId].worker) != KeyOf(e.task)
  }

  /** A repeated started event on another worker, or a reported number that is not the recount. */
  predicate MovesStarted(ix: Index, e: Event) {
    match e
    case OnTask(task) =>
      && task.state == "STARTED" && StateIn(ix.trackers, task.taskId) == Some("STARTED")
      && ix.trackers[task.taskId].worker != KeyOf(task).1
    case OnWorker(hostname, _, active) =>
      active.Some? && AtLeastZero(active.value) != |Started(ix.trackers, hostname)|
  }

  lemma ReceivedAfter(trackers: Trackers, e: TaskEvent, key: Key)
    ensures Received(Tracked(trackers, e), key) ==
            if e.state == "RECEIVED" && KeyOf(e) == key then Received(trackers, key) + {e.taskId}
            else Received(trackers, key) - {e.taskId}
  {
  }

  lemma StartedAfter(trackers: Trackers, e: TaskEvent, worker: string)
    ensures Started(Tracked(trackers, e), worker) ==
            if e.state == "STARTED" && KeyOf(e).1 == worker then Started(trackers, worker) + {e.taskId}
            else Started(trackers, worker) - {e.taskId}
  {
  }

  /** When a count is taken down it is positive: the clamp at zero never acts. */
  lemma NeverBelowZero(ix: Index, id: Id)
    requires id in ix.trackers
    ensures PrefetchedOk(ix) && ix.trackers[id].state == "RECEIVED" ==>
              Get(ix.prefetched, (ix.trackers[id].name, ix.trackers[id].worker)) >= 1
    ensures ActiveOk(ix) && ix.trackers[id].state == "STARTED" ==> Get(ix.active, ix.trackers[id].worker) >= 1
  {
    if ix.trackers[id].state == "RECEIVED" {
      assert id in Received(ix.trackers, (ix.trackers[id].name, ix.trackers[id].worker));
    }
    if ix.trackers[id].state == "STARTED" {
      assert id in Started(ix.trackers, ix.trackers[id].worker);
    }
  }

  lemma AddToGet<K>(counts: map<K, int>, key: K, delta: int, k: K)
    requires Get(counts, key) + delta >= 0
    ensures Get(AddTo(counts, key, delta), k) == Get(counts, k) + if k == key then delta else 0
  {
  }

  function KeyIn(trackers: Trackers, id: Id): Key
    requires id in trackers
  {
    (trackers[id].name, trackers[id].worker)
  }

  lemma ReceivedRecount(trackers: Trackers, e: TaskEvent, key: Key)
    ensures |Received(Tracked(trackers, e), key)| == |Received(trackers, key)|
          + One(e.state == "RECEIVED" && KeyOf(e) == key)
          - One(StateIn(trackers, e.taskId) == Some("RECEIVED") && KeyIn(trackers, e.taskId) == key)
  {
    ReceivedAfter(trackers, e, key);
    SizeWithMember(Received(trackers, key), e.taskId, e.state == "RECEIVED" && KeyOf(e) == key);
  }

  lemma PrefetchedCount(ix: Index, e: TaskEvent, key: Key)
    requires PrefetchedOk(ix)
    ensures Get(TrackTask(ix, e).prefetched, key) == Get(ix.prefetched, key)
          + One(Enters(ix.trackers, e, "RECEIVED") && KeyOf(e) == key)
          - One(Leaves(ix.trackers, e, "RECEIVED") && KeyIn(ix.trackers, e.taskId) == key)
  {
    if Leaves(ix.trackers, e, "RECEIVED") {
      NeverBelowZero(ix, e.taskId);
      AddToGet(ix.prefetched, KeyIn(ix.trackers, e.taskId), -1, key);
    } else if Enters(ix.trackers, e, "RECEIVED") {
      assert Get(ix.prefetched, KeyOf(e)) == |Received(ix.trackers, KeyOf(e))|;
      AddToGet(ix.prefetched, KeyOf(e), 1, key);
    }
  }

  /** One task event keeps the received counts right exactly when it is no move. */
  lemma PrefetchedStep(ix: Index, e: Event)
    requires PrefetchedOk(ix)
    ensures PrefetchedOk(Step(ix, e)) <==> !MovesReceived(ix, e)
  {
    if e.OnTask? {
      forall key
        ensures !MovesReceived(ix, e) ==> Get(Step(ix, e).prefetched, key) == |Received(Step(ix, e).trackers, key)|
        ensures MovesReceived(ix, e) && key == KeyOf(e.task) ==>
                  Get(Step(ix, e).prefetched, key) != |Received(Step(ix, e).trackers, key)|
      {
        ReceivedRecount(ix.trackers, e.task, key);
        PrefetchedCount(ix, e.task, key);
        assert Get(ix.prefetched, key) == |Received(ix.trackers, key)|;
      }
      if MovesReceived(ix, e) {
        assert Get(Step(ix, e).prefetched, KeyOf(e.task)) != |Received(Step(ix, e).trackers, KeyOf(e.task))|;
      }
    }
  }

  lemma StartedRecount(trackers: Trackers, e: TaskEvent, worker: string)
    ensures |Started(Tracked(trackers, e), worker)| == |Started(trackers, worker)|
          + One(e.state == "STARTED" && KeyOf(e).1 == worker)
          - One(StateIn(trackers, e.taskId) == Some("STARTED") && trackers[e.taskId].worker == worker)
  {
    StartedAfter(trackers, e, worker);
    SizeWithMember(Started(trackers, worker), e.taskId, e.state == "STARTED" && KeyOf(e).1 == worker);
  }

  lemma ActiveCount(ix: Index, e: TaskEvent, worker: string)
    requires ActiveOk(ix)
    ensures Get(TrackTask(ix, e).active, worker) == Get(ix.active, worker)
          + One(Enters(ix.trackers, e, "STARTED") && KeyOf(e).1 == worker)
          - One(Leaves(ix.trackers, e, "STARTED") && ix.trackers[e.taskId].worker == worker)
  {
    if Leaves(ix.trackers, e, "STARTED") {
      NeverBelowZero(ix, e.taskId);
      AddToGet(ix.active, ix.trackers[e.taskId].worker, -1, worker);
    } else if Enters(ix.trackers, e, "STARTED") {
      assert Get(ix.active, KeyOf(e).1) == |Started(ix.trackers, KeyOf(e).1)|;
      AddToGet(ix.active, KeyOf(e).1, 1, worker);
    }
  }

  lemma ActiveTaskStep(ix: Index, e: TaskEvent)
    requires ActiveOk(ix)
    ensures ActiveOk(TrackTask(ix, e)) <==> !MovesStarted(ix, OnTask(e))
  {
    forall worker
      ensures !MovesStarted(ix, OnTask(e)) ==>
                Get(TrackTask(ix, e).active, worker) == |Started(TrackTask(ix, e).trackers, worker)|
      ensures MovesStarted(ix, OnTask(e)) && worker == KeyOf(e).1 ==>
                Get(TrackTask(ix, e).active, worker) != |Started(TrackTask(ix, e).trackers, worker)|
    {
      StartedRecount(ix.trackers, e, worker);
      ActiveCount(ix, e, worker);
      assert Get(ix.active, worker) == |Started(ix.trackers, worker)|;
    }
    if MovesStarted(ix, OnTask(e)) {
      assert Get(TrackTask(ix, e).active, KeyOf(e).1) != |Started(TrackTask(ix, e).trackers, KeyOf(e).1)|;
    }
  }

  /** One event keeps the running counts right exactly when it is no move and overrides nothing. */
  lemma ActiveStep(ix: Index, e: Event)
    requires ActiveOk(ix)
    ensures ActiveOk(Step(ix, e)) <==> !MovesStarted(ix, e)
  {
    match e
    case OnTask(task) =>
      ActiveTaskStep(ix, task);
    case OnWorker(hostname, _, active) =>
      if active.Some? {
        assert Get(Step(ix, e).active, hostname) == AtLeastZero(active.value);
        assert forall worker :: worker != hostname ==> Get(Step(ix, e).active, worker) == Get(ix.active, worker);
      }
  }

  // At the end of the run and at every moment before.
  ghost predicate AlwaysPrefetchedOk(events: seq<Event>) {
    PrefetchedOk(Run(events)) && (events != [] ==> AlwaysPrefetchedOk(Init(events)))
  }

  ghost predicate NeverMovesReceived(events: seq<Event>) {
    events != [] ==> NeverMovesReceived(Init(events)) && !MovesReceived(Run(Init(events)), Last(events))
  }

  /** Along a whole run the received counts equal the recount at every moment exactly when no event
      of the run moves a received task. */
  lemma {:induction false} PrefetchedRun(events: seq<Event>)
    ensures AlwaysPrefetchedOk(events) <==> NeverMovesReceived(events)
  {
    if events != [] {
      PrefetchedRun(Init(events));
      if AlwaysPrefetchedOk(Init(events)) {
        PrefetchedStep(Run(Init(events)), Last(events));
      }
    }
  }

  ghost predicate AlwaysActiveOk(events: seq<Event>) {
    ActiveOk(Run(events)) && (events != [] ==> AlwaysActiveOk(Init(events)))
  }

  ghost predicate NeverMovesStarted(events: seq<Event>) {
    events != [] ==> NeverMovesStarted(Init(events)) && !MovesStarted(Run(Init(events)), Last(events))
  }

  /** The same for the running counts. */
  lemma {:induction false} ActiveRun(events: seq<Event>)
    ensures AlwaysActiveOk(events) <==> NeverMovesStarted(events)
  {
    if events != [] {
      ActiveRun(Init(events));
      if AlwaysActiveOk(Init(events)) {
        ActiveStep(Run(Init(events)), Last(events));
      }
    }
  }

  /** A stored count is always positive, whatever the events: what reaches zero is dropped. */
  lemma {:induction false} CountsPositive(events: seq<Event>)
    ensures forall key :: key in Run(events).prefetched ==> Run(events).prefetched[key] > 0
    ensures forall worker :: worker in Run(events).active ==> Run(events).active[worker] > 0
  {
    if events != [] {
      CountsPositive(Init(events));
    }
  }

  /******* Gauges *******/

  // The broker and backend labels, which follow from the url of a worker's broker, if it is known: urls
  // that differ in their credentials alone have the same labels.
  type Labels = (string, string)
  type Labelling = Option<string> -> Labels

  // A gauge has one series for each key and labels.
  type Gauge<K(==)> = map<(K, Labels), int>

  function BrokerOf(brokers: map<string, string>, worker: string): Option<string> {
    if worker in brokers then Some(brokers[worker]) else None
  }

  // The labels under which a key is shown at present.
  function KeyLabels(labelsOf: Labelling, brokers: map<string, string>): Key -> Labels {
    (key: Key) => labelsOf(BrokerOf(brokers, key.1))
  }

  function WorkerLabels(labelsOf: Labelling, brokers: map<string, string>): string -> Labels {
    (worker: string) => labelsOf(BrokerOf(brokers, worker))
  }

  function Relabelled(brokers: map<string, string>, hostname: string, url: Option<string>): map<string, string> {
    if url.Some? then brokers[hostname := url.value] else brokers
  }

  function Brokers(events: seq<Event>): map<string, string> {
    if events == [] then map[]
    else
      match Last(events)
      case OnTask(_) => Brokers(Init(events))
      case OnWorker(hostname, url, _) => Relabelled(Brokers(Init(events)), hostname, url)
  }

  // Setting the present series of a key to its count.
  function SetTo<K(==)>(gauge: Gauge<K>, counts: map<K, int>, key: K, labels: K -> Labels): Gauge<K> {
    gauge[(key, labels(key)) := Get(counts, key)]
  }

  datatype Gauges = Gauges(prefetched: Gauge<Key>, active: Gauge<string>)

  /** What a task event does to the gauges: the count that it changes is set. */
  function ShowTask(labelsOf: Labelling, brokers: map<string, string>, ix: Index, g: Gauges, e: TaskEvent): Gauges {
    var t, after := ix.trackers, TrackTask(ix, e);
    var byKey, byWorker := KeyLabels(labelsOf, brokers), WorkerLabels(labelsOf, brokers);
    Gauges(
      if Leaves(t, e, "RECEIVED")
      then SetTo(g.prefetched, after.prefetched, (t[e.taskId].name, t[e.taskId].worker), byKey)
      else if Enters(t, e, "RECEIVED") then SetTo(g.prefetched, after.prefetched, KeyOf(e), byKey)
      else g.prefetched,
      if Leaves(t, e, "STARTED") then SetTo(g.active, after.active, t[e.taskId].worker, byWorker)
      else if Enters(t, e, "STARTED") then SetTo(g.active, after.active, KeyOf(e).1, byWorker)
      else g.active)
  }

  function ShowStep(labelsOf: Labelling, brokers: map<string, string>, ix: Index, g: Gauges, e: Event): Gauges {
    match e
    case OnTask(task) => ShowTask(labelsOf, brokers, ix, g, task)
    case OnWorker(hostname, url, active) =>
      if active.None? then g
      else
        var byWorker := WorkerLabels(labelsOf, Relabelled(brokers, hostname, url));
        g.(active := SetTo(g.active, Step(ix, e).active, hostname, byWorker))
  }

  function GaugesAfter(labelsOf: Labelling, events: seq<Event>): Gauges {
    if events == [] then Gauges(map[], map[])
    else
      var before := Init(events);
      ShowStep(labelsOf, Brokers(before), Run(before), GaugesAfter(labelsOf, before), Last(events))
  }

  /** The gauge shows every count under its present labels, and nothing under any other. */
  ghost predicate ShowsExactly<K(!new)>(gauge: Gauge<K>, counts: map<K, int>, labels: K -> Labels) {
    forall k, b :: Get(gauge, (k, b)) == if b == labels(k) then Get(counts, k) else 0
  }

  /** The gauge follows the counts: what it shows under present labels is the count, or neither has
      changed; under other labels nothing changes. */
  ghost predicate Follows<K(!new)>(gauge0: Gauge<K>, counts0: map<K, int>, gauge: Gauge<K>, counts: map<K, int>,
                                   labels: K -> Labels)
  {
    forall k, b ::
      || (Get(gauge, (k, b)) == Get(gauge0, (k, b)) && (b == labels(k) ==> Get(counts, k) == Get(counts0, k)))
      || (b == labels(k) && Get(gauge, (k, b)) == Get(counts, k))
  }

  lemma PutFollows<K(!new)>(gauge: Gauge<K>, counts: map<K, int>, key: K, count: int, labels: K -> Labels)
    ensures var counts' := Put(counts, key, count);
            Follows(gauge, counts, SetTo(gauge, counts', key, labels), counts', labels)
  {
    var counts' := Put(counts, key, count);
    var gauge' := SetTo(gauge, counts', key, labels);
    forall k, b
      ensures || (Get(gauge', (k, b)) == Get(gauge, (k, b)) && (b == labels(k) ==> Get(counts', k) == Get(counts, k)))
              || (b == labels(k) && Get(gauge', (k, b)) == Get(counts', k))
    {
      PutGet(counts, key, count, k);
    }
  }

  lemma FollowingShows<K(!new)>(gauge0: Gauge<K>, counts0: map<K, int>, gauge: Gauge<K>, counts: map<K, int>,
                                labels: K -> Labels)
    requires Follows(gauge0, counts0, gauge, counts, labels) && ShowsExactly(gauge0, counts0, labels)
    ensures ShowsExactly(gauge, counts, labels)
  {
    forall k, b
      ensures Get(gauge, (k, b)) == if b == labels(k) then Get(counts, k) else 0
    {
      assert Get(gauge0, (k, b)) == if b == labels(k) then Get(counts0, k) else 0;
    }
  }

  /** Counts move to other labels without being shown there, and stay behind where they were. */
  ghost predicate Strands<K(!new)>(counts: map<K, int>, labels: K -> Labels, labels': K -> Labels) {
    exists k :: labels(k) != labels'(k) && Get(counts, k) != 0
  }

  /** A change of labels leaves an exact gauge exact exactly when it strands no count, even if the gauge
      then follows the counts under the new labels. */
  lemma RelabelExactly<K(!new)>(gauge: Gauge<K>, counts: map<K, int>, labels: K -> Labels, labels': K -> Labels,
                                gauge': Gauge<K>, counts': map<K, int>)
    requires ShowsExactly(gauge, counts, labels) && Follows(gauge, counts, gauge', counts', labels')
    ensures ShowsExactly(gauge', counts', labels') <==> !Strands(counts, labels, labels')
  {
    if k :| labels(k) != labels'(k) && Get(counts, k) != 0 {
      assert Get(gauge, (k, labels(k))) == Get(counts, k);
      assert Get(gauge', (k, labels(k))) != 0;
    } else {
      forall k, b
        ensures Get(gauge, (k, b)) == if b == labels'(k) then Get(counts, k) else 0
      {
        assert Get(gauge, (k, b)) == if b == labels(k) then Get(counts, k) else 0;
        assert labels(k) == labels'(k) || Get(counts, k) == 0;
      }
      FollowingShows(gauge, counts, gauge', counts', labels');
    }
  }

  ghost predicate ShowsCounts(labelsOf: Labelling, brokers: map<string, string>, ix: Index, g: Gauges) {
    && ShowsExactly(g.prefetched, ix.prefetched, KeyLabels(labelsOf, brokers))
    && ShowsExactly(g.active, ix.active, WorkerLabels(labelsOf, brokers))
  }

  /** A worker event gives a worker with tasks counted other labels. */
  ghost predicate StrandsCounts(labelsOf: Labelling, brokers: map<string, string>, ix: Index, e: Event) {
    e.OnWorker? &&
    var brokers' := Relabelled(brokers, e.hostname, e.brokerUrl);
    || Strands(ix.prefetched, KeyLabels(labelsOf, brokers), KeyLabels(labelsOf, brokers'))
    || Strands(ix.active, WorkerLabels(labelsOf, brokers), WorkerLabels(labelsOf, brokers'))
  }

  /** That is: the event names another broker, whose labels differ, and the worker has tasks counted.
      A change of the credentials in the url alone strands nothing. */
  lemma StrandsExactly(labelsOf: Labelling, brokers: map<string, string>, ix: Index, e: Event)
    requires e.OnWorker?
    ensures StrandsCounts(labelsOf, brokers, ix, e) <==>
            && e.brokerUrl.Some? && labelsOf(e.brokerUrl) != labelsOf(BrokerOf(brokers, e.hostname))
            && (Get(ix.active, e.hostname) != 0 || exists task :: Get(ix.prefetched, (task, e.hostname)) != 0)
  {
    var brokers' := Relabelled(brokers, e.hostname, e.brokerUrl);
    forall worker
      ensures BrokerOf(brokers', worker) ==
              if e.brokerUrl.Some? && worker == e.hostname then e.brokerUrl else BrokerOf(brokers, worker)
    {
    }
    var byKey, byKey' := KeyLabels(labelsOf, brokers), KeyLabels(labelsOf, brokers');
    if k :| byKey(k) != byKey'(k) && Get(ix.prefetched, k) != 0 {
      assert k == (k.0, e.hostname);
    }
    if e.brokerUrl.Some? && labelsOf(e.brokerUrl) != labelsOf(BrokerOf(brokers, e.hostname)) {
      assert WorkerLabels(labelsOf, brokers')(e.hostname) == labelsOf(e.brokerUrl);
      forall task
        ensures byKey'((task, e.hostname)) == labelsOf(e.brokerUrl)
      {
      }
    }
  }

  lemma ReceivedFollows(labelsOf: Labelling, brokers: map<string, string>, ix: Index, g: Gauges, e: TaskEvent)
    ensures Follows(g.prefetched, ix.prefetched, ShowTask(labelsOf, brokers, ix, g, e).prefetched,
                    TrackTask(ix, e).prefetched, KeyLabels(labelsOf, brokers))
  {
    var t, byKey := ix.trackers, KeyLabels(labelsOf, brokers);
    if Leaves(t, e, "RECEIVED") {
      var key := (t[e.taskId].name, t[e.taskId].worker);
      PutFollows(g.prefetched, ix.prefetched, key, Get(ix.prefetched, key) - 1, byKey);
    } else if Enters(t, e, "RECEIVED") {
      PutFollows(g.prefetched, ix.prefetched, KeyOf(e), Get(ix.prefetched, KeyOf(e)) + 1, byKey);
    }
  }

  lemma StartedFollows(labelsOf: Labelling, brokers: map<string, string>, ix: Index, g: Gauges, e: TaskEvent)
    ensures Follows(g.active, ix.active, ShowTask(labelsOf, brokers, ix, g, e).active,
                    TrackTask(ix, e).active, WorkerLabels(labelsOf, brokers))
  {
    var t, byWorker := ix.trackers, WorkerLabels(labelsOf, brokers);
    if Leaves(t, e, "STARTED") {
      var worker := t[e.taskId].worker;
      PutFollows(g.active, ix.active, worker, Get(ix.active, worker) - 1, byWorker);
    } else if Enters(t, e, "STARTED") {
      PutFollows(g.active, ix.active, KeyOf(e).1, Get(ix.active, KeyOf(e).1) + 1, byWorker);
    }
  }

  lemma ReportFollows(labelsOf: Labelling, brokers: map<string, string>, ix: Index, g: Gauges, e: Event)
    requires e.OnWorker?
    ensures var g', ix' := ShowStep(labelsOf, brokers, ix, g, e), Step(ix, e);
            var brokers' := Relabelled(brokers, e.hostname, e.brokerUrl);
            && g'.prefetched == g.prefetched && ix'.prefetched == ix.prefetched
            && Follows(g.active, ix.active, g'.active, ix'.active, WorkerLabels(labelsOf, brokers'))
  {
    if e.active.Some? {
      PutFollows(g.active, ix.active, e.hostname, e.active.value,
                 WorkerLabels(labelsOf, Relabelled(brokers, e.hostname, e.brokerUrl)));
    }
  }

  function BrokersAfter(brokers: map<string, string>, e: Event): map<string, string> {
    if e.OnWorker? then Relabelled(brokers, e.hostname, e.brokerUrl) else brokers
  }

  /** One event leaves exact gauges exact if and only if it strands no count. */
  lemma GaugesStep(labelsOf: Labelling, brokers: map<string, string>, ix: Index, g: Gauges, e: Event)
    requires ShowsCounts(labelsOf, brokers, ix, g)
    ensures ShowsCounts(labelsOf, BrokersAfter(brokers, e), Step(ix, e), ShowStep(labelsOf, brokers, ix, g, e))
       <==> !StrandsCounts(labelsOf, brokers, ix, e)
  {
    var g', ix', brokers' := ShowStep(labelsOf, brokers, ix, g, e), Step(ix, e), BrokersAfter(brokers, e);
    if e.OnTask? {
      ReceivedFollows(labelsOf, brokers, ix, g, e.task);
      StartedFollows(labelsOf, brokers, ix, g, e.task);
      FollowingShows(g.prefetched, ix.prefetched, g'.prefetched, ix'.prefetched, KeyLabels(labelsOf, brokers));
      FollowingShows(g.active, ix.active, g'.active, ix'.active, WorkerLabels(labelsOf, brokers));
    } else {
      ReportFollows(labelsOf, brokers, ix, g, e);
      RelabelExactly(g.prefetched, ix.prefetched, KeyLabels(labelsOf, brokers), KeyLabels(labelsOf, brokers'),
                     g'.prefetched, ix'.prefetched);
      RelabelExactly(g.active, ix.active, WorkerLabels(labelsOf, brokers), WorkerLabels(labelsOf, brokers'),
                     g'.active, ix'.active);
    }
  }

  ghost predicate NeverStrands(labelsOf: Labelling, events: seq<Event>) {
    events != [] ==>
      var before := Init(events);
      NeverStrands(labelsOf, before) && !StrandsCounts(labelsOf, Brokers(before), Run(before), Last(events))
  }

  ghost predicate AlwaysShown(labelsOf: Labelling, events: seq<Event>) {
    && ShowsCounts(labelsOf, Brokers(events), Run(events), GaugesAfter(labelsOf, events))
    && (events != [] ==> AlwaysShown(labelsOf, Init(events)))
  }

  /** Over a whole run the gauges always show the counts, under the present labels and nowhere else, if
      and only if no worker is given other labels while tasks of it are counted. */
  lemma {:induction false} GaugesRun(labelsOf: Labelling, events: seq<Event>)
    ensures AlwaysShown(labelsOf, events) <==> NeverStrands(labelsOf, events)
  {
    if events != [] {
      var before := Init(events);
      GaugesRun(labelsOf, before);
      if AlwaysShown(labelsOf, before) {
        assert ShowsCounts(labelsOf, Brokers(before), Run(before), GaugesAfter(labelsOf, before));
        GaugesStep(labelsOf, Brokers(before), Run(before), GaugesAfter(labelsOf, before), Last(events));
      }
    }
  }

  class PrometheusExporter {
    const labelsOf: Labelling
    var trackers: Trackers
    var prefetched: map<Key, int>
    var active: map<string, int>
    var brokers: map<string, string>
    var prefetchedGauge: Gauge<Key>
    var activeGauge: Gauge<string>
    ghost var events: seq<Event>

    ghost predicate Valid()
      reads this
    {
      && Index(trackers, prefetched, active) == Run(events) && brokers == Brokers(events)
      && Gauges(prefetchedGauge, activeGauge) == GaugesAfter(labelsOf, events)
    }

    constructor (labelsOf: Labelling)
      ensures Valid() && events == [] && this.labelsOf == labelsOf
    {
      this.labelsOf := labelsOf;
      trackers, prefetched, active, brokers := map[], map[], map[], map[];
      prefetchedGauge, activeGauge := map[], map[];
      events := [];
    }

    method UpdatePrefetched(task: string, worker: string, delta: int)
      modifies `prefetched, `prefetchedGauge
      ensures prefetched == AddTo(old(prefetched), (task, worker), delta)
      ensures prefetchedGauge == SetTo(old(prefetchedGauge), prefetched, (task, worker), KeyLabels(labelsOf, brokers))
    {
      var key := (task, worker);
      var current := Get(prefetched, key) + delta;
      if current <= 0 {
        prefetched := prefetched - {key};
        current := 0;
      } else {
        prefetched := prefetched[key := current];
      }
      prefetchedGauge := prefetchedGauge[(key, labelsOf(BrokerOf(brokers, worker))) := current];
    }

    method UpdateActive(worker: string, delta: int)
      modifies `active, `activeGauge
      ensures active == AddTo(old(active), worker, delta)
      ensures activeGauge == SetTo(old(activeGauge), active, worker, WorkerLabels(labelsOf, brokers))
    {
      var current := Get(active, worker) + delta;
      if current <= 0 {
        active := active - {worker};
        current := 0;
      } else {
        active := active[worker := current];
      }
      activeGauge := activeGauge[(worker, labelsOf(BrokerOf(brokers, worker))) := current];
    }

    method SetActiveCount(worker: string, count: int)
      modifies `active, `activeGauge
      ensures active == Put(old(active), worker, count)
      ensures activeGauge == SetTo(old(activeGauge), active, worker, WorkerLabels(labelsOf, brokers))
    {
      var current := AtLeastZero(count);
      if current <= 0 {
        active := active - {worker};
        current := 0;
      } else {
        active := active[worker := current];
      }
      activeGauge := activeGauge[(worker, labelsOf(BrokerOf(brokers, worker))) := current];
    }

    /** Keeps the tracked states and the counts in step with the event, and sets the gauge of what changed. */
    method TrackTaskState(event: TaskEvent)
      modifies `trackers, `prefetched, `active, `prefetchedGauge, `activeGauge
      ensures Index(trackers, prefetched, active) == TrackTask(old(Index(trackers, prefetched, active)), event)
      ensures Gauges(prefetchedGauge, activeGauge) ==
              ShowTask(labelsOf, brokers, old(Index(trackers, prefetched, active)),
                       old(Gauges(prefetchedGauge, activeGauge)), event)
    {
      var (name, worker) := KeyOf(event);
      var state := event.state;
      var prevState := StateIn(trackers, event.taskId);
      var prevName := if prevState.Some? then trackers[event.taskId].name else name;
      var prevWorker := if prevState.Some? then trackers[event.taskId].worker else worker;
      if prevState == Some("RECEIVED") && state != "RECEIVED" {
        UpdatePrefetched(prevName, prevWorker, -1);
      }
      if prevState == Some("STARTED") && state != "STARTED" {
        UpdateActive(prevWorker, -1);
      }
      if state == "RECEIVED" && prevState != Some("RECEIVED") {
        UpdatePrefetched(name, worker, 1);
      }
      if state == "STARTED" && prevState != Some("STARTED") {
        UpdateActive(worker, 1);
      }
      if state in TERMINAL_STATES {
        trackers := trackers - {event.taskId};
        return;
      }
      trackers := trackers[event.taskId := Tracker(name, worker, state)];
    }

    method OnTaskEvent(event: TaskEvent)
      requires Valid()
      modifies this
      ensures Valid() && events == old(events) + [OnTask(event)]
    {
      assert Init(events + [OnTask(event)]) == events;
      TrackTaskState(event);
      events := events + [OnTask(event)];
    }

    /** The broker is noted before the reported number is shown. */
    method OnWorkerEvent(hostname: string, brokerUrl: Option<string>, reported: Option<int>)
      requires Valid()
      modifies this
      ensures Valid() && events == old(events) + [OnWorker(hostname, brokerUrl, reported)]
    {
      assert Init(events + [OnWorker(hostname, brokerUrl, reported)]) == events;
      if brokerUrl.Some? {
        brokers := brokers[hostname := brokerUrl.value];
      }
      if reported.Some? {
        SetActiveCount(hostname, reported.value);
      }
      events := events + [OnWorker(hostname, brokerUrl, reported)];
    }
  }

  /******* Differences *******/

  // An amount added to the up-down counter of a key, under the labels of that moment.
  datatype Delta<K> = Delta(key: K, labels: Labels, amount: int)

  function SumFor<K(==)>(deltas: seq<Delta<K>>, key: K): int {
    if deltas == [] then 0
    else SumFor(Init(deltas), key) + if Last(deltas).key == key then Last(deltas).amount else 0
  }

  /** Summed over all labels the differences give the counts. */
  ghost predicate SumsTo<K(!new)>(deltas: seq<Delta<K>>, counts: map<K, int>) {
    forall k :: SumFor(deltas, k) == Get(counts, k)
  }

  function Emit<K(==)>(deltas: seq<Delta<K>>, key: K, labels: Labels, amount: int): seq<Delta<K>> {
    if amount == 0 then deltas else deltas + [Delta(key, labels, amount)]
  }

  lemma EmitSums<K(!new)>(deltas: seq<Delta<K>>, counts: map<K, int>, key: K, labels: Labels, count: int)
    requires SumsTo(deltas, counts)
    ensures SumsTo(Emit(deltas, key, labels, AtLeastZero(count) - Get(counts, key)), Put(counts, key, count))
  {
    var amount := AtLeastZero(count) - Get(counts, key);
    assert Init(deltas + [Delta(key, labels, amount)]) == deltas;
    forall k
      ensures SumFor(Emit(deltas, key, labels, amount), k) == Get(Put(counts, key, count), k)
    {
      PutGet(counts, key, count, k);
      assert SumFor(deltas + [Delta(key, labels, amount)], k) == SumFor(deltas, k) + if key == k then amount else 0;
    }
  }

  class OtelExporter {
    const labelsOf: Labelling
    var trackers: Trackers
    var prefetched: map<Key, int>
    var active: map<string, int>
    var brokers: map<string, string>
    var prefetchedDeltas: seq<Delta<Key>>
    var activeDeltas: seq<Delta<string>>
    ghost var events: seq<Event>

    ghost predicate Valid()
      reads this
    {
      && Index(trackers, prefetched, active) == Run(events)
      && SumsTo(prefetchedDeltas, prefetched) && SumsTo(activeDeltas, active)
      && brokers == Brokers(events)
    }

    constructor (labelsOf: Labelling)
      ensures Valid() && events == [] && this.labelsOf == labelsOf
    {
      this.labelsOf := labelsOf;
      trackers, prefetched, active, brokers := map[], map[], map[], map[];
      prefetchedDeltas, activeDeltas := [], [];
      events := [];
    }

    method UpdatePrefetched(task: string, worker: string, delta: int)
      requires SumsTo(prefetchedDeltas, prefetched)
      modifies `prefetched, `prefetchedDeltas
      ensures prefetched == AddTo(old(prefetched), (task, worker), delta)
      ensures SumsTo(prefetchedDeltas, prefetched)
    {
      var key := (task, worker);
      var previous := Get(prefetched, key);
      var current := previous + delta;
      EmitSums(prefetchedDeltas, prefetched, key, labelsOf(BrokerOf(brokers, worker)), current);
      if current <= 0 {
        prefetched := prefetched - {key};
        current := 0;
      } else {
        prefetched := prefetched[key := current];
      }
      prefetchedDeltas := Emit(prefetchedDeltas, key, labelsOf(BrokerOf(brokers, worker)), current - previous);
    }

    method UpdateActive(worker: string, delta: int)
      requires SumsTo(activeDeltas, active)
      modifies `active, `activeDeltas
      ensures active == AddTo(old(active), worker, delta)
      ensures SumsTo(activeDeltas, active)
    {
      var previous := Get(active, worker);
      var current := previous + delta;
      EmitSums(activeDeltas, active, worker, labelsOf(BrokerOf(brokers, worker)), current);
      if current <= 0 {
        active := active - {worker};
        current := 0;
      } else {
        active := active[worker := current];
      }
      activeDeltas := Emit(activeDeltas, worker, labelsOf(BrokerOf(brokers, worker)), current - previous);
    }

    method SetActiveCount(worker: string, count: int)
      requires SumsTo(activeDeltas, active)
      modifies `active, `activeDeltas
      ensures active == Put(old(active), worker, count)
      ensures SumsTo(activeDeltas, active)
    {
      var previous := Get(active, worker);
      var current := AtLeastZero(count);
      EmitSums(activeDeltas, active, worker, labelsOf(BrokerOf(brokers, worker)), current);
      if current <= 0 {
        active := active - {worker};
        current := 0;
      } else {
        active := active[worker := current];
      }
      activeDeltas := Emit(activeDeltas, worker, labelsOf(BrokerOf(brokers, worker)), current - previous);
    }

    method TrackTaskState(event: TaskEvent)
      requires SumsTo(prefetchedDeltas, prefetched) && SumsTo(activeDeltas, active)
      modifies `trackers, `prefetched, `active, `prefetchedDeltas, `activeDeltas
      ensures Index(trackers, prefetched, active) == TrackTask(old(Index(trackers, prefetched, active)), event)
      ensures SumsTo(prefetchedDeltas, prefetched) && SumsTo(activeDeltas, active)
    {
      var (name, worker) := KeyOf(event);
      var state := event.state;
      var prevState := StateIn(trackers, event.taskId);
      var prevName := if prevState.Some? then trackers[event.taskId].name else name;
      var prevWorker := if prevState.Some? then trackers[event.taskId].worker else worker;
      if prevState == Some("RECEIVED") && state != "RECEIVED" {
        UpdatePrefetched(prevName, prevWorker, -1);
      }
      if prevState == Some("STARTED") && state != "STARTED" {
        UpdateActive(prevWorker, -1);
      }
      if state == "RECEIVED" && prevState != Some("RECEIVED") {
        UpdatePrefetched(name, worker, 1);
      }
      if state == "STARTED" && prevState != Some("STARTED") {
        UpdateActive(worker, 1);
      }
      if state in TERMINAL_STATES {
        trackers := trackers - {event.taskId};
        return;
      }
      trackers := trackers[event.taskId := Tracker(name, worker, state)];
    }

    method OnTaskEvent(event: TaskEvent)
      requires Valid()
      modifies this
      ensures Valid() && events == old(events) + [OnTask(event)]
    {
      assert Init(events + [OnTask(event)]) == events;
      TrackTaskState(event);
      events := events + [OnTask(event)];
    }

    /** The labels may change here; the sums do not depend on it. */
    method OnWorkerEvent(hostname: string, brokerUrl: Option<string>, reported: Option<int>)
      requires Valid()
      modifies this
      ensures Valid() && events == old(events) + [OnWorker(hostname, brokerUrl, reported)]
    {
      assert Init(events + [OnWorker(hostname, brokerUrl, reported)]) == events;
      if brokerUrl.Some? {
        brokers := brokers[hostname := brokerUrl.value];
      }
      if reported.Some? {
        SetActiveCount(hostname, reported.value);
      }
      events := events + [OnWorker(hostname, brokerUrl, reported)];
    }
  }

  /** On every run the differences of the one exporter add up, key by key, to the counts of the other, and
      to what its gauges show under the present labels if no worker was given other labels while tasks of
      it were counted. */
  method RunBoth(labelsOf: Labelling, events: seq<Event>) returns (prometheus: PrometheusExporter, otel: OtelExporter)
    ensures prometheus.Valid() && otel.Valid() && prometheus.events == events == otel.events
    ensures prometheus.labelsOf == labelsOf == otel.labelsOf
    ensures forall key :: SumFor(otel.prefetchedDeltas, key) == Get(prometheus.prefetched, key)
    ensures forall worker :: SumFor(otel.activeDeltas, worker) == Get(prometheus.active, worker)
    ensures NeverStrands(labelsOf, events) ==>
              forall key, b :: Get(prometheus.prefetchedGauge, (key, b)) ==
                               if b == KeyLabels(labelsOf, otel.brokers)(key)
                               then SumFor(otel.prefetchedDeltas, key) else 0
    ensures NeverStrands(labelsOf, events) ==>
              forall worker, b :: Get(prometheus.activeGauge, (worker, b)) ==
                                  if b == WorkerLabels(labelsOf, otel.brokers)(worker)
                                  then SumFor(otel.activeDeltas, worker) else 0
  {
    prometheus := new PrometheusExporter(labelsOf);
    otel := new OtelExporter(labelsOf);
    for i := 0 to |events|
      invariant fresh(prometheus) && fresh(otel)
      invariant prometheus.Valid() && otel.Valid() && prometheus.events == events[..i] == otel.events
    {
      assert events[..i + 1] == events[..i] + [events[i]];
      match events[i] {
        case OnTask(task) =>
          prometheus.OnTaskEvent(task);
          otel.OnTaskEvent(task);
        case OnWorker(hostname, brokerUrl, reported) =>
          prometheus.OnWorkerEvent(hostname, brokerUrl, reported);
          otel.OnWorkerEvent(hostname, brokerUrl, reported);
      }
    }
    assert events[..|events|] == events;
    GaugesRun(labelsOf, events);
    if NeverStrands(labelsOf, events) {
      assert ShowsCounts(labelsOf, Brokers(events), Run(events), GaugesAfter(labelsOf, events));
    }
  }
}
