/** The database-backed beat scheduler, with its loops. */
module BeatScheduler {
  import opened Common
  import opened BeatWorld

  // The server's table, and the write requests whose clients have given up waiting.
  class Store {
    var rows: map<Id, Schedule>
    var pending: multiset<Schedule>

    constructor (rows: map<Id, Schedule>)
      ensures this.rows == rows && pending == multiset{}
    {
      this.rows, pending := rows, multiset{};
    }

    method StoreSchedule(schedule: Schedule)
      modifies `rows
      ensures rows == old(rows)[schedule.id := schedule]
    {
      rows := rows[schedule.id := schedule];
    }

    method TimeOut(schedule: Schedule)
      modifies `pending
      ensures pending == old(pending) + multiset{schedule}
    {
      pending := pending + multiset{schedule};
    }

    // The server comes to a request whose client has given up.
    method CatchUp(schedule: Schedule)
      modifies this
      ensures schedule !in old(pending) ==> rows == old(rows) && pending == old(pending)
      ensures schedule in old(pending) ==>
                rows == old(rows)[schedule.id := schedule] && pending == old(pending) - multiset{schedule}
    {
      if schedule in pending {
        pending := pending - multiset{schedule};
        StoreSchedule(schedule);
      }
    }
  }

  function ById(schedules: seq<Schedule>): map<Id, Schedule> {
    if schedules == [] then map[] else ById(Init(schedules))[Last(schedules).id := Last(schedules)]
  }

  // How far the write-back loop has come when `todo` is still to be looked at.
  function UpdatesBut(w: World, todo: set<Id>): map<Id, Schedule>
    requires TablesAligned(w)
  {
    map id | id in Dirty(w) && id !in todo :: WithRunState(w.cache[id], w.entries[id])
  }

  function StatesBut(w: World, todo: set<Id>): map<Id, Entry>
    requires TablesAligned(w)
  {
    map id | id in w.runState :: if id in todo then w.runState[id] else w.entries[id]
  }

  lemma UpdatesAtEnds(w: World)
    requires TablesAligned(w)
    ensures UpdatesBut(w, w.cache.Keys) == map[] && UpdatesBut(w, {}) == Updates(w)
    ensures StatesBut(w, w.cache.Keys) == w.runState && StatesBut(w, {}) == w.entries
  {
  }

  lemma UpdatesStep(w: World, todo: set<Id>, id: Id)
    requires RowsKeyed(w) && id in todo && todo <= w.cache.Keys
    ensures id !in UpdatesBut(w, todo) && w.cache[id].id == id
    ensures UpdatesBut(w, todo - {id}) ==
            if id in Dirty(w) then UpdatesBut(w, todo)[id := WithRunState(w.cache[id], w.entries[id])]
            else UpdatesBut(w, todo)
  {
  }

  lemma StatesStep(w: World, todo: set<Id>, id: Id)
    requires RowsKeyed(w) && id in todo && todo <= w.cache.Keys
    ensures StatesBut(w, todo)[id] == w.runState[id]
    ensures StatesBut(w, todo - {id}) == StatesBut(w, todo)[id := w.entries[id]]
  {
  }

  lemma PlusUpdate(a: map<Id, Schedule>, b: map<Id, Schedule>, id: Id, s: Schedule)
    requires id in a && id !in b
    ensures (a + b)[id] == a[id] && a + b[id := s] == (a + b)[id := s]
  {
  }

  ghost predicate DistinctIds(schedules: seq<Schedule>) {
    forall i, j :: 0 <= i < j < |schedules| ==> schedules[i].id != schedules[j].id
  }

  lemma {:induction false} ByIdExact(schedules: seq<Schedule>)
    ensures forall s :: s in schedules ==> s.id in ById(schedules)
    ensures forall id :: id in ById(schedules) ==> ById(schedules)[id].id == id && ById(schedules)[id] in schedules
  {
    if schedules != [] {
      ByIdExact(Init(schedules));
      assert forall s :: s in schedules <==> s in Init(schedules) || s == Last(schedules);
    }
  }

  lemma AddDirty(dirty: seq<Schedule>, updated: Schedule)
    requires DistinctIds(dirty) && updated.id !in ById(dirty)
    ensures DistinctIds(dirty + [updated])
    ensures ById(dirty + [updated]) == ById(dirty)[updated.id := updated]
  {
    ByIdExact(dirty);
    assert Init(dirty + [updated]) == dirty;
  }

  // The state of the write-back loop when `todo` is still to be looked at.
  ghost predicate Noted(w: World, todo: set<Id>, dirty: seq<Schedule>, cache: map<Id, Schedule>, states: map<Id, Entry>)
    requires TablesAligned(w)
  {
    && todo <= w.cache.Keys && DistinctIds(dirty) && ById(dirty) == UpdatesBut(w, todo)
    && cache == w.cache + UpdatesBut(w, todo) && states == StatesBut(w, todo)
  }

  lemma NoteUnchanged(w: World, todo: set<Id>, dirty: seq<Schedule>, cache: map<Id, Schedule>,
                      states: map<Id, Entry>, id: Id)
    requires RowsKeyed(w) && Noted(w, todo, dirty, cache, states) && id in todo
    ensures id in cache && cache[id] == w.cache[id] && id in states && states[id] == w.runState[id]
    ensures id !in Dirty(w) ==> Noted(w, todo - {id}, dirty, cache, states)
  {
    UpdatesStep(w, todo, id);
    StatesStep(w, todo, id);
  }

  lemma NoteChanged(w: World, todo: set<Id>, dirty: seq<Schedule>, cache: map<Id, Schedule>,
                    states: map<Id, Entry>, id: Id)
    requires RowsKeyed(w) && Noted(w, todo, dirty, cache, states) && id in todo && id in Dirty(w)
    ensures var updated := WithRunState(w.cache[id], w.entries[id]);
            Noted(w, todo - {id}, dirty + [updated], cache[id := updated], states[id := w.entries[id]])
  {
    var updated := WithRunState(w.cache[id], w.entries[id]);
    UpdatesStep(w, todo, id);
    StatesStep(w, todo, id);
    PlusUpdate(w.cache, UpdatesBut(w, todo), id, updated);
    AddDirty(dirty, updated);
  }

  // The loop over the cached schedules, on the tables it rewrites.
  method NoteChanges(ghost w: World, cache0: map<Id, Schedule>, states0: map<Id, Entry>, entries: map<Id, Entry>)
    returns (dirty: seq<Schedule>, cache: map<Id, Schedule>, states: map<Id, Entry>)
    requires RowsKeyed(w) && w.cache == cache0 && w.runState == states0 && w.entries == entries
    ensures DistinctIds(dirty) && ById(dirty) == Updates(w) && cache == w.cache + Updates(w) && states == w.entries
  {
    dirty, cache, states := [], cache0, states0;
    var todo := cache.Keys;
    UpdatesAtEnds(w);
    while todo != {}
      invariant Noted(w, todo, dirty, cache, states)
      decreases |todo|
    {
      var scheduleId :| scheduleId in todo;
      NoteUnchanged(w, todo, dirty, cache, states, scheduleId);
      var current := entries[scheduleId];
      if states[scheduleId] == current {
        todo := todo - {scheduleId};
        continue;
      }
      NoteChanged(w, todo, dirty, cache, states, scheduleId);
      todo := todo - {scheduleId};
      var updated := WithRunState(cache[scheduleId], current);
      cache := cache[scheduleId := updated];
      dirty := dirty + [updated];
      states := states[scheduleId := current];
    }
  }

  lemma DelayedOneMore(updates: map<Id, Schedule>, schedule: Schedule, refused: set<Id>, late: set<Id>)
    requires schedule.id !in updates && forall id :: id in updates ==> updates[id].id == id
    ensures var id, more := schedule.id, updates[schedule.id := schedule];
            multiset(Delayed(more, refused, late).Values) ==
            multiset(Delayed(updates, refused, late).Values) +
            if id !in refused && id in late then multiset{schedule} else multiset{}
  {
    var id, more := schedule.id, updates[schedule.id := schedule];
    var before, after := Delayed(updates, refused, late), Delayed(more, refused, late);
    if id !in refused && id in late {
      assert after == before[id := schedule];
      assert schedule !in before.Values;
      assert after.Values == before.Values + {schedule} by {
        assert id in after && after[id] == schedule;
        assert forall x :: x in before ==> x in after && after[x] == before[x];
      }
    } else {
      assert after == before;
    }
  }

  /** The rows and the waiting requests after the updates have been sent. */
  ghost predicate Sent(rows0: map<Id, Schedule>, pending0: multiset<Schedule>, updates: map<Id, Schedule>,
                       refused: set<Id>, late: set<Id>, rows: map<Id, Schedule>, pending: multiset<Schedule>)
  {
    && rows == rows0 + (updates - refused - late)
    && pending == pending0 + multiset(Delayed(updates, refused, late).Values)
  }

  lemma NothingSent(rows: map<Id, Schedule>, pending: multiset<Schedule>, refused: set<Id>, late: set<Id>)
    ensures Sent(rows, pending, map[], refused, late, rows, pending)
  {
    assert Delayed(map[], refused, late) == map[];
    assert rows + (map[] - refused - late) == rows;
  }

  lemma TakenOneMore(rows: map<Id, Schedule>, updates: map<Id, Schedule>, s: Schedule, refused: set<Id>, late: set<Id>)
    requires s.id !in updates
    ensures rows + (updates[s.id := s] - refused - late) ==
            if s.id in refused + late then rows + (updates - refused - late)
            else (rows + (updates - refused - late))[s.id := s]
  {
    if s.id in refused + late {
      assert updates[s.id := s] - refused - late == updates - refused - late;
    } else {
      assert updates[s.id := s] - refused - late == (updates - refused - late)[s.id := s];
    }
  }

  lemma OneMoreSent(rows0: map<Id, Schedule>, pending0: multiset<Schedule>, updates: map<Id, Schedule>,
                    refused: set<Id>, late: set<Id>, rows: map<Id, Schedule>, pending: multiset<Schedule>, s: Schedule)
    requires Sent(rows0, pending0, updates, refused, late, rows, pending)
    requires s.id !in updates && forall id :: id in updates ==> updates[id].id == id
    ensures s.id in refused ==> Sent(rows0, pending0, updates[s.id := s], refused, late, rows, pending)
    ensures s.id !in refused && s.id in late ==>
              Sent(rows0, pending0, updates[s.id := s], refused, late, rows, pending + multiset{s})
    ensures s.id !in refused && s.id !in late ==>
              Sent(rows0, pending0, updates[s.id := s], refused, late, rows[s.id := s], pending)
  {
    DelayedOneMore(updates, s, refused, late);
    TakenOneMore(rows0, updates, s, refused, late);
  }

  lemma WriteNothing(w: World, refused: set<Id>, late: set<Id>)
    requires RowsKeyed(w) && w.cache == map[]
    ensures Written(w, refused, late) == w
  {
    assert Updates(w) == map[];
    NothingSent(w.rows, w.pending, refused, late);
    assert w.runState == w.entries;
  }

  lemma WrittenBySending(w: World, updates: map<Id, Schedule>, refused: set<Id>, late: set<Id>,
                         rows: map<Id, Schedule>, pending: multiset<Schedule>, cache: map<Id, Schedule>)
    requires RowsKeyed(w) && updates == Updates(w) && cache == w.cache + updates
    requires Sent(w.rows, w.pending, updates, refused, late, rows, pending)
    ensures Written(w, refused, late) ==
            World(w.lastRefreshAt, rows, cache, w.entries, w.entries, w.fired, pending)
  {
  }

  class DatabaseScheduler {
    const db: Store
    const settings: Settings
    var lastRefreshAt: real
    var scheduleCache: map<Id, Schedule>
    var runStateCache: map<Id, Entry>
    var schedule: map<Id, Entry>
    ghost var fired: map<Id, int>

    ghost function Contents(): World
      reads this, db
    {
      World(lastRefreshAt, db.rows, scheduleCache, runStateCache, schedule, fired, db.pending)
    }

    ghost predicate Valid()
      reads this, db
    {
      RowsKeyed(Contents())
    }

    constructor (db: Store, settings: Settings)
      requires forall id :: id in db.rows ==> db.rows[id].id == id
      ensures this.db == db && this.settings == settings
      ensures Valid() && Contents() == StartWorld(db.rows).(pending := db.pending)
    {
      this.db, this.settings := db, settings;
      lastRefreshAt, scheduleCache, runStateCache, schedule, fired := 0.0, map[], map[], map[], map[];
    }

    // Builds the tables before any of them is installed; gives up at a schedule that cannot be read.
    method BuildTables(rows: map<Id, Schedule>, clock: int)
      returns (ok: bool, cache: map<Id, Schedule>, entries: map<Id, Entry>)
      ensures ok <==> Readable(settings, rows)
      ensures ok ==> cache == (map id | id in Loadable(settings, rows) :: rows[id])
      ensures ok ==> entries == EntriesOf(settings, rows, clock)
    {
      ok, cache, entries := true, map[], map[];
      var todo := rows.Keys;
      while todo != {}
        invariant todo <= rows.Keys
        invariant cache.Keys == entries.Keys == Loadable(settings, rows) - todo
        invariant forall id :: id in cache ==>
                    cache[id] == rows[id] && settings.parses(rows[id].spec) && entries[id] == EntryFor(rows[id], clock)
        decreases |todo|
      {
        var id :| id in todo;
        todo := todo - {id};
        if rows[id].app != settings.appLabel || !rows[id].enabled {
          continue;
        }
        if !settings.parses(rows[id].spec) {
          return false, cache, entries;
        }
        cache, entries := cache[id := rows[id]], entries[id := EntryFor(rows[id], clock)];
      }
    }

    method LoadSchedules(rows: map<Id, Schedule>, clock: int) returns (ok: bool)
      requires rows == db.rows
      modifies `scheduleCache, `runStateCache, `schedule
      ensures ok <==> Readable(settings, rows)
      ensures Contents() == if ok then Loaded(settings, old(Contents()), clock) else old(Contents())
    {
      var cache, entries;
      ok, cache, entries := BuildTables(rows, clock);
      if ok {
        scheduleCache, runStateCache, schedule := cache, entries, entries;
      }
    }

    method Refresh(now: real, clock: int, force: bool, reachable: bool) returns (ok: bool)
      modifies `lastRefreshAt, `scheduleCache, `runStateCache, `schedule
      ensures (Contents(), ok) == Refreshed(settings, old(Contents()), now, clock, force, reachable)
    {
      if !force && now - lastRefreshAt < settings.refreshInterval {
        return true;
      }
      lastRefreshAt := now;
      if !reachable {
        return true;
      }
      ok := LoadSchedules(db.rows, clock);
    }

    // Celery's part of a tick: every due entry notes the time and counts the run.
    method FireDue(due: seq<Id>, clock: int)
      modifies `schedule, `fired
      ensures Contents() == FiredAll(old(Contents()), due, clock)
    {
      for i := 0 to |due|
        invariant Contents() == FiredAll(old(Contents()), due[..i], clock)
      {
        assert Init(due[..i + 1]) == due[..i];
        if due[i] in schedule {
          fired := fired[due[i] := Times(fired, due[i]) + 1];
          schedule := schedule[due[i] := Entry(clock, schedule[due[i]].totalRunCount + 1)];
        }
      }
      assert due[..|due|] == due;
    }

    method CollectDirty() returns (dirty: seq<Schedule>)
      requires Valid()
      modifies `scheduleCache, `runStateCache
      ensures DistinctIds(dirty) && ById(dirty) == Updates(old(Contents()))
      ensures scheduleCache == old(scheduleCache) + ById(dirty) && runStateCache == schedule
    {
      dirty, scheduleCache, runStateCache := NoteChanges(Contents(), scheduleCache, runStateCache, schedule);
    }

    method StoreDirty(dirty: seq<Schedule>, refused: set<Id>, late: set<Id>)
      requires DistinctIds(dirty)
      modifies db
      ensures Sent(old(db.rows), old(db.pending), ById(dirty), refused, late, db.rows, db.pending)
    {
      NothingSent(db.rows, db.pending, refused, late);
      for i := 0 to |dirty|
        invariant Sent(old(db.rows), old(db.pending), ById(dirty[..i]), refused, late, db.rows, db.pending)
      {
        assert Init(dirty[..i + 1]) == dirty[..i];
        ByIdExact(dirty[..i]);
        OneMoreSent(old(db.rows), old(db.pending), ById(dirty[..i]), refused, late, db.rows, db.pending, dirty[i]);
        if dirty[i].id in refused {
          continue;
        }
        if dirty[i].id in late {
          db.TimeOut(dirty[i]);
          continue;
        }
        db.StoreSchedule(dirty[i]);
      }
      assert dirty[..|dirty|] == dirty;
    }

    method Writeback(refused: set<Id>, late: set<Id>)
      requires Valid()
      modifies `scheduleCache, `runStateCache, db
      ensures Contents() == Written(old(Contents()), refused, late)
    {
      if scheduleCache == map[] {
        WriteNothing(Contents(), refused, late);
        return;
      }
      ghost var w := Contents();
      var dirty := CollectDirty();
      StoreDirty(dirty, refused, late);
      WrittenBySending(w, ById(dirty), refused, late, db.rows, db.pending, scheduleCache);
    }

    /** Each step does to the tables and the store what `Performed` says. */
    method Perform(step: Step)
      requires Valid()
      modifies this, db
      ensures Contents() == Performed(settings, old(Contents()), step)
    {
      match step {
        case Reload(now, clock, force, reachable) =>
          var _ := Refresh(now, clock, force, reachable);
        case Fire(due, clock) =>
          FireDue(due, clock);
        case Flush(refused, late) =>
          Writeback(refused, late);
        case Land(schedule) =>
          db.CatchUp(schedule);
      }
    }

    /** A tick is a run of at most three steps: it breaks off after a reload that finds a schedule of the
        app unreadable, or after a firing that raises. */
    method Tick(now: real, clock: int, due: seq<Id>, reachable: bool, raises: bool, refused: set<Id>, late: set<Id>)
      returns (ok: bool)
      requires Valid()
      modifies this, db
      ensures ok <==> !(&& now - old(lastRefreshAt) >= settings.refreshInterval && reachable
                        && exists id :: id in old(db.rows) && old(db.rows)[id].app == settings.appLabel
                             && old(db.rows)[id].enabled && !settings.parses(old(db.rows)[id].spec))
      ensures Contents() == Run(settings, old(Contents()),
                                TickSteps(Reload(now, clock, false, reachable), Fire(due, clock),
                                          Flush(refused, late), ok, raises))
    {
      ghost var w := Contents();
      ReloadKeyed(settings, w, now, clock, false, reachable);
      ok := Refresh(now, clock, false, reachable);
      TickRun(settings, w, Reload(now, clock, false, reachable), Fire(due, clock), Flush(refused, late), ok, raises);
      if !ok {
        return;
      }
      FiredAllKeyed(Contents(), due, clock);
      FireDue(due, clock);
      if raises {
        return;
      }
      Writeback(refused, late);
    }
  }
}
