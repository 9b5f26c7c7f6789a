/** What the beat scheduler does to its tables and to the database: run state is kept in memory, written
    back after each tick, and reloaded from the database from time to time. */
module BeatWorld {
  import opened Common

  datatype Schedule = Schedule(
    id: Id,
    app: Option<string>,
    enabled: bool,
    spec: string,
    lastRunAt: Option<int>,
    totalRunCount: Option<int>)

  datatype Entry = Entry(lastRunAt: int, totalRunCount: int)

  datatype Settings = Settings(appLabel: Option<string>, refreshInterval: real, parses: string -> bool)

  // The stored rows, the scheduler's tables, how often each entry has fired, and the writes that timed
  // out: their messages are still with the server, which may carry each out at any later moment.
  datatype World = World(
    lastRefreshAt: real,
    rows: map<Id, Schedule>,
    cache: map<Id, Schedule>,
    runState: map<Id, Entry>,
    entries: map<Id, Entry>,
    fired: map<Id, int>,
    pending: multiset<Schedule>)

  function RunCount(s: Schedule): int {
    if s.totalRunCount.Some? then s.totalRunCount.value else 0
  }

  function Times(counts: map<Id, int>, id: Id): int {
    if id in counts then counts[id] else 0
  }

  /******* Loading *******/

  function Loadable(s: Settings, rows: map<Id, Schedule>): set<Id> {
    set id | id in rows && rows[id].app == s.appLabel && rows[id].enabled
  }

  function EntryFor(row: Schedule, clock: int): Entry {
    Entry(if row.lastRunAt.Some? then row.lastRunAt.value else clock, RunCount(row))
  }

  predicate Readable(s: Settings, rows: map<Id, Schedule>) {
    forall id :: id in Loadable(s, rows) ==> s.parses(rows[id].spec)
  }

  function EntriesOf(s: Settings, rows: map<Id, Schedule>, clock: int): map<Id, Entry> {
    map id | id in Loadable(s, rows) :: EntryFor(rows[id], clock)
  }

  function Loaded(s: Settings, w: World, clock: int): World {
    var entries := EntriesOf(s, w.rows, clock);
    w.(cache := map id | id in Loadable(s, w.rows) :: w.rows[id], runState := entries, entries := entries)
  }

  predicate DueForRefresh(s: Settings, w: World, now: real, force: bool) {
    force || now - w.lastRefreshAt >= s.refreshInterval
  }

  /** An unreadable schedule raises before any table is replaced. */
  function Refreshed(s: Settings, w: World, now: real, clock: int, force: bool, reachable: bool): (World, bool) {
    if !DueForRefresh(s, w, now, force) then (w, true)
    else
      var w' := w.(lastRefreshAt := now);
      if !reachable then (w', true)
      else if Readable(s, w.rows) then (Loaded(s, w', clock), true)
      else (w', false)
  }

  /******* Firing and writing back *******/

  function Fired(w: World, id: Id, clock: int): World {
    if id in w.entries then
      w.(entries := w.entries[id := Entry(clock, w.entries[id].totalRunCount + 1)],
         fired := w.fired[id := Times(w.fired, id) + 1])
    else w
  }

  function FiredAll(w: World, due: seq<Id>, clock: int): World {
    if due == [] then w else Fired(FiredAll(w, Init(due), clock), Last(due), clock)
  }

  function WithRunState(s: Schedule, e: Entry): Schedule {
    s.(lastRunAt := Some(e.lastRunAt), totalRunCount := Some(e.totalRunCount))
  }

  predicate TablesAligned(w: World) {
    w.cache.Keys == w.runState.Keys == w.entries.Keys
  }

  function Dirty(w: World): set<Id>
    requires TablesAligned(w)
  {
    set id | id in w.cache && w.runState[id] != w.entries[id]
  }

  function Updates(w: World): map<Id, Schedule>
    requires TablesAligned(w)
  {
    map id | id in Dirty(w) :: WithRunState(w.cache[id], w.entries[id])
  }

  /** The part of the updates whose writes time out. */
  function Delayed(updates: map<Id, Schedule>, refused: set<Id>, late: set<Id>): map<Id, Schedule> {
    map id | id in updates && id !in refused && id in late :: updates[id]
  }

  /** What changed is written, except where the store refuses or answers too late; all of it is then
      taken for written. */
  function Written(w: World, refused: set<Id>, late: set<Id>): World
    requires TablesAligned(w)
  {
    w.(rows := w.rows + (Updates(w) - refused - late),
       pending := w.pending + multiset(Delayed(Updates(w), refused, late).Values),
       cache := w.cache + Updates(w),
       runState := w.entries)
  }

  /** A write that had timed out is carried out: the whole row is replaced. */
  function Landed(w: World, schedule: Schedule): World {
    if schedule in w.pending then
      w.(rows := w.rows[schedule.id := schedule], pending := w.pending - multiset{schedule})
    else w
  }

  /******* Runs *******/

  // A run is any sequence of these steps: a tick is a reload, a firing and a flush, but it breaks off
  // when reading the schedules or Celery's part raises, and late writes land between any two steps.  A
  // store is `refused` when it is not carried out, and `late` when the client stops waiting for it: the
  // server may carry it out at once, at any later step, once, or never.  A late write concerns one row,
  // so that it suffices to let it land before or after a flush as a whole.
  datatype Step =
    | Reload(now: real, clock: int, force: bool, reachable: bool)
    | Fire(due: seq<Id>, clock: int)
    | Flush(refused: set<Id>, late: set<Id>)
    | Land(schedule: Schedule)

  lemma {:induction false} FiredAllAligned(w: World, due: seq<Id>, clock: int)
    requires TablesAligned(w)
    ensures TablesAligned(FiredAll(w, due, clock))
  {
    if due != [] {
      FiredAllAligned(w, Init(due), clock);
    }
  }

  function Performed(s: Settings, w: World, step: Step): (w': World)
    requires TablesAligned(w)
    ensures TablesAligned(w')
  {
    match step
    case Reload(now, clock, force, reachable) => Refreshed(s, w, now, clock, force, reachable).0
    case Fire(due, clock) => FiredAllAligned(w, due, clock); FiredAll(w, due, clock)
    case Flush(refused, late) => Written(w, refused, late)
    case Land(schedule) => Landed(w, schedule)
  }

  function Run(s: Settings, w: World, steps: seq<Step>): (w': World)
    requires TablesAligned(w)
    ensures TablesAligned(w')
  {
    if steps == [] then w else Performed(s, Run(s, w, Init(steps)), Last(steps))
  }

  /** The steps of one tick: it breaks off when the schedules cannot be read, or when Celery's part raises. */
  function TickSteps(reload: Step, fire: Step, flush: Step, ok: bool, raises: bool): seq<Step> {
    if !ok then [reload] else if raises then [reload, fire] else [reload, fire, flush]
  }

  lemma TickRun(s: Settings, w: World, reload: Step, fire: Step, flush: Step, ok: bool, raises: bool)
    requires TablesAligned(w)
    ensures var w1 := Performed(s, w, reload);
            var w2 := Performed(s, w1, fire);
            Run(s, w, TickSteps(reload, fire, flush, ok, raises))
            == if !ok then w1 else if raises then w2 else Performed(s, w2, flush)
  {
    assert Init([reload]) == [] && Init([reload, fire]) == [reload] && Init([reload, fire, flush]) == [reload, fire];
    assert Run(s, w, [reload]) == Performed(s, w, reload);
    assert Run(s, w, [reload, fire]) == Performed(s, Run(s, w, [reload]), fire);
  }

  function StartWorld(rows: map<Id, Schedule>): World {
    World(0.0, rows, map[], map[], map[], map[], multiset{})
  }

  function Counts(rows: map<Id, Schedule>): map<Id, int> {
    map id | id in rows :: RunCount(rows[id])
  }

  /******* What belongs together *******/

  ghost predicate RowsKeyed(w: World) {
    && TablesAligned(w) && w.entries.Keys <= w.rows.Keys
    && (forall id :: id in w.cache ==> w.cache[id].id == id)
    && (forall id :: id in w.rows ==> w.rows[id].id == id)
  }

  ghost predicate SamePlan(a: Schedule, b: Schedule) {
    a.app == b.app && a.enabled == b.enabled && a.spec == b.spec
  }

  ghost predicate PlansKnown(s: Settings, w: World)
    requires RowsKeyed(w)
  {
    && (w.entries.Keys == Loadable(s, w.rows) || (w.entries.Keys == {} && w.pending == multiset{}))
    && (forall id :: id in w.cache ==> SamePlan(w.cache[id], w.rows[id]))
  }

  ghost predicate PendingKnown(w: World)
    requires RowsKeyed(w)
  {
    forall p :: p in w.pending ==> p.id in w.entries && SamePlan(p, w.rows[p.id])
  }

  /** The scheduler alone writes the rows: it holds all entries that it may hold, and what it writes
      differs from what is stored in the run state only. */
  ghost predicate Known(s: Settings, w: World) {
    RowsKeyed(w) && PlansKnown(s, w) && PendingKnown(w)
  }

  lemma SameLoadable(s: Settings, rows: map<Id, Schedule>, rows': map<Id, Schedule>)
    requires rows'.Keys == rows.Keys && forall id :: id in rows ==> SamePlan(rows[id], rows'[id])
    ensures Loadable(s, rows') == Loadable(s, rows) && (Readable(s, rows') <==> Readable(s, rows))
  {
  }

  lemma {:induction false} FiredAllKeyed(w: World, due: seq<Id>, clock: int)
    requires RowsKeyed(w)
    ensures var w' := FiredAll(w, due, clock);
            && RowsKeyed(w') && w'.rows == w.rows && w'.pending == w.pending
            && w'.entries.Keys == w.entries.Keys && w'.cache == w.cache
  {
    if due != [] {
      FiredAllKeyed(w, Init(due), clock);
    }
  }

  lemma FireKeeps(s: Settings, w: World, due: seq<Id>, clock: int)
    requires Known(s, w)
    ensures Known(s, FiredAll(w, due, clock)) && FiredAll(w, due, clock).rows == w.rows
  {
    FiredAllKeyed(w, due, clock);
  }

  /** What a flush adds to the writes on their way. */
  lemma DelayedExactly(w: World, refused: set<Id>, late: set<Id>, p: Schedule)
    requires RowsKeyed(w)
    ensures p in Written(w, refused, late).pending <==>
            p in w.pending || (p.id in Dirty(w) - refused && p.id in late && p == Updates(w)[p.id])
  {
    var m := Delayed(Updates(w), refused, late);
    assert p in m.Values <==> p.id in m && m[p.id] == p;
  }

  lemma NothingDelayed(w: World, refused: set<Id>, late: set<Id>)
    requires RowsKeyed(w) && (w.entries.Keys == {} || late == {})
    ensures Written(w, refused, late).pending == w.pending
  {
    assert Delayed(Updates(w), refused, late) == map[];
  }

  lemma WrittenRow(w: World, refused: set<Id>, late: set<Id>, id: Id)
    requires RowsKeyed(w) && id in w.rows
    ensures id in Written(w, refused, late).rows
    ensures Written(w, refused, late).rows[id] ==
            if id in Dirty(w) - refused - late then WithRunState(w.cache[id], w.entries[id]) else w.rows[id]
  {
  }

  lemma WrittenKeyed(w: World, refused: set<Id>, late: set<Id>)
    requires RowsKeyed(w)
    ensures RowsKeyed(Written(w, refused, late)) && Written(w, refused, late).rows.Keys == w.rows.Keys
  {
  }

  lemma FlushSamePlans(s: Settings, w: World, refused: set<Id>, late: set<Id>)
    requires Known(s, w) && Written(w, refused, late).rows.Keys == w.rows.Keys
    ensures forall id :: id in w.rows ==> SamePlan(w.rows[id], Written(w, refused, late).rows[id])
  {
    forall id | id in w.rows
      ensures SamePlan(w.rows[id], Written(w, refused, late).rows[id])
    {
      WrittenRow(w, refused, late, id);
    }
  }

  lemma FlushKeepsPlans(s: Settings, w: World, refused: set<Id>, late: set<Id>)
    requires Known(s, w) && RowsKeyed(Written(w, refused, late))
    requires Written(w, refused, late).rows.Keys == w.rows.Keys
    ensures forall id :: id in w.rows ==> SamePlan(w.rows[id], Written(w, refused, late).rows[id])
    ensures PlansKnown(s, Written(w, refused, late))
    ensures Readable(s, Written(w, refused, late).rows) <==> Readable(s, w.rows)
  {
    var w' := Written(w, refused, late);
    FlushSamePlans(s, w, refused, late);
    SameLoadable(s, w.rows, w'.rows);
    if w.entries.Keys == {} && w.pending == multiset{} {
      NothingDelayed(w, refused, late);
    }
  }

  lemma FlushKeeps(s: Settings, w: World, refused: set<Id>, late: set<Id>)
    requires Known(s, w)
    ensures Known(s, Written(w, refused, late)) && Written(w, refused, late).rows.Keys == w.rows.Keys
    ensures Readable(s, Written(w, refused, late).rows) <==> Readable(s, w.rows)
  {
    var w' := Written(w, refused, late);
    WrittenKeyed(w, refused, late);
    FlushKeepsPlans(s, w, refused, late);
    forall p | p in w'.pending
      ensures p.id in w'.entries && SamePlan(p, w'.rows[p.id])
    {
      DelayedExactly(w, refused, late, p);
    }
  }

  lemma LandedExactly(w: World, p: Schedule)
    ensures p !in w.pending ==> Landed(w, p) == w
    ensures p in w.pending ==> Landed(w, p).rows == w.rows[p.id := p]
    ensures forall x :: x in Landed(w, p).pending ==> x in w.pending
  {
  }

  /** A late store that lands writes its row as it was sent, and is then no longer under way. */
  lemma LandWrites(s: Settings, w: World, p: Schedule, id: Id)
    requires TablesAligned(w) && p in w.pending
    ensures var w' := Performed(s, w, Land(p));
            && (id in w'.rows <==> id in w.rows || id == p.id)
            && (id in w'.rows ==> w'.rows[id] == if id == p.id then p else w.rows[id])
            && w'.pending + multiset{p} == w.pending
            && w'.entries == w.entries && w'.runState == w.runState && w'.cache == w.cache && w'.fired == w.fired
  {
  }

  lemma LandKeyed(w: World, p: Schedule)
    requires RowsKeyed(w) && p.id in w.rows
    ensures RowsKeyed(Landed(w, p)) && Landed(w, p).rows.Keys == w.rows.Keys
  {
  }

  lemma LandKeeps(s: Settings, w: World, p: Schedule)
    requires Known(s, w) && p in w.pending
    ensures Known(s, Landed(w, p)) && Landed(w, p).rows.Keys == w.rows.Keys
    ensures Readable(s, Landed(w, p).rows) <==> Readable(s, w.rows)
  {
    var w' := Landed(w, p);
    LandedExactly(w, p);
    LandKeyed(w, p);
    SameLoadable(s, w.rows, w'.rows);
    assert PlansKnown(s, w');
  }

  lemma LoadKeyed(s: Settings, w: World, clock: int)
    requires RowsKeyed(w)
    ensures RowsKeyed(Loaded(s, w, clock)) && PlansKnown(s, Loaded(s, w, clock))
  {
  }

  lemma LoadKeeps(s: Settings, w: World, clock: int)
    requires Known(s, w)
    ensures Known(s, Loaded(s, w, clock))
  {
    LoadKeyed(s, w, clock);
    if w.pending != multiset{} {
      assert w.entries.Keys == Loaded(s, w, clock).entries.Keys;
    }
  }

  lemma StampKeeps(s: Settings, w: World, now: real)
    requires Known(s, w)
    ensures Known(s, w.(lastRefreshAt := now))
  {
  }

  lemma ReloadKeyed(s: Settings, w: World, now: real, clock: int, force: bool, reachable: bool)
    requires RowsKeyed(w)
    ensures RowsKeyed(Refreshed(s, w, now, clock, force, reachable).0)
  {
    LoadKeyed(s, w.(lastRefreshAt := now), clock);
  }

  lemma ReloadKeeps(s: Settings, w: World, now: real, clock: int, force: bool, reachable: bool)
    requires Known(s, w)
    ensures Known(s, Refreshed(s, w, now, clock, force, reachable).0)
  {
    StampKeeps(s, w, now);
    LoadKeeps(s, w.(lastRefreshAt := now), clock);
  }

  lemma ReloadLeavesRows(s: Settings, w: World, now: real, clock: int, force: bool, reachable: bool)
    ensures var w' := Refreshed(s, w, now, clock, force, reachable).0;
            w'.rows == w.rows && w'.fired == w.fired && w'.pending == w.pending
  {
  }

  /** The tables stay known, and the rows keep their ids and plans. */
  ghost predicate Kept(s: Settings, w: World, w': World) {
    Known(s, w') && w'.rows.Keys == w.rows.Keys && (Readable(s, w'.rows) <==> Readable(s, w.rows))
  }

  lemma ReloadStepKeeps(s: Settings, w: World, step: Step)
    requires Known(s, w) && step.Reload?
    ensures Kept(s, w, Performed(s, w, step))
  {
    ReloadKeeps(s, w, step.now, step.clock, step.force, step.reachable);
    ReloadLeavesRows(s, w, step.now, step.clock, step.force, step.reachable);
  }

  lemma FlushStepKeeps(s: Settings, w: World, step: Step)
    requires Known(s, w) && step.Flush?
    ensures Kept(s, w, Performed(s, w, step))
  {
    FlushKeeps(s, w, step.refused, step.late);
  }

  lemma LandStepKeeps(s: Settings, w: World, step: Step)
    requires Known(s, w) && step.Land?
    ensures Kept(s, w, Performed(s, w, step))
  {
    if step.schedule in w.pending {
      LandKeeps(s, w, step.schedule);
    }
  }

  lemma StepKeeps(s: Settings, w: World, step: Step)
    requires Known(s, w)
    ensures Kept(s, w, Performed(s, w, step))
  {
    match step
    case Reload(_, _, _, _) => ReloadStepKeeps(s, w, step);
    case Fire(due, clock) => FireKeeps(s, w, due, clock);
    case Flush(_, _) => FlushStepKeeps(s, w, step);
    case Land(_) => LandStepKeeps(s, w, step);
  }

  lemma {:induction false} RunKeeps(s: Settings, rows: map<Id, Schedule>, steps: seq<Step>)
    requires forall id :: id in rows ==> rows[id].id == id
    ensures Known(s, Run(s, StartWorld(rows), steps)) && Run(s, StartWorld(rows), steps).rows.Keys == rows.Keys
  {
    if steps != [] {
      RunKeeps(s, rows, Init(steps));
      StepKeeps(s, Run(s, StartWorld(rows), Init(steps)), Last(steps));
    }
  }
}
