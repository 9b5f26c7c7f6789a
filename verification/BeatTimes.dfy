/** The last run times of the beat scheduler: what each step does to the rows and entries, field by
    field, and what that means over a run. */
module BeatTimes {
  import opened Common
  import opened BeatWorld
  import opened BeatAccount

  /******* One step *******/

  /** The reload is due, the database answers, and every schedule of the app can be read. */
  predicate TakesEffect(s: Settings, w: World, step: Step) {
    && step.Reload?
    && (step.force || step.now - w.lastRefreshAt >= s.refreshInterval) && step.reachable
    && forall id :: id in w.rows && w.rows[id].app == s.appLabel && w.rows[id].enabled ==> s.parses(w.rows[id].spec)
  }

  lemma LoadsExactly(s: Settings, w: World, step: Step)
    ensures Loads(s, w, step) <==> TakesEffect(s, w, step)
  {
  }

  /** A reload that takes effect holds the enabled schedules of the app, each with its stored last run
      time and count; a schedule that has never run takes the present time and counts from zero. */
  lemma ReloadInstalls(s: Settings, w: World, step: Step, id: Id)
    requires TablesAligned(w) && TakesEffect(s, w, step)
    ensures var w' := Performed(s, w, step);
            && w'.rows == w.rows && w'.fired == w.fired && w'.pending == w.pending && w'.lastRefreshAt == step.now
            && (id in w'.entries <==> id in w.rows && w.rows[id].app == s.appLabel && w.rows[id].enabled)
            && (id in w'.entries ==>
                  && w'.entries[id].lastRunAt == (match w.rows[id].lastRunAt case Some(t) => t case None => step.clock)
                  && w'.entries[id].totalRunCount == (match w.rows[id].totalRunCount case Some(n) => n case None => 0)
                  && w'.runState[id] == w'.entries[id] && w'.cache[id] == w.rows[id])
  {
  }

  /** Any other reload changes nothing but the time of the attempt. */
  lemma ReloadSkips(s: Settings, w: World, step: Step)
    requires TablesAligned(w) && step.Reload? && !TakesEffect(s, w, step)
    ensures Performed(s, w, step) ==
            if step.force || step.now - w.lastRefreshAt >= s.refreshInterval then w.(lastRefreshAt := step.now) else w
  {
  }

  /** Firing notes the time in every due entry and counts each run. */
  lemma {:induction false} FireNotes(w: World, due: seq<Id>, clock: int, id: Id)
    requires TablesAligned(w)
    ensures var w' := FiredAll(w, due, clock);
            && w'.rows == w.rows && w'.runState == w.runState && w'.cache == w.cache && w'.pending == w.pending
            && w'.entries.Keys == w.entries.Keys
            && (id in w.entries ==>
                  && w'.entries[id].lastRunAt == (if id in due then clock else w.entries[id].lastRunAt)
                  && w'.entries[id].totalRunCount == w.entries[id].totalRunCount + multiset(due)[id]
                  && Times(w'.fired, id) == Times(w.fired, id) + multiset(due)[id])
  {
    if due != [] {
      FireNotes(w, Init(due), clock, id);
      MultisetOfLast(due);
    }
  }

  /** A changed entry whose store succeeds is stored with the time and the count held; every other row,
      and every other field, stays. */
  lemma FlushStores(s: Settings, w: World, refused: set<Id>, late: set<Id>, id: Id)
    requires Known(s, w) && id in w.rows
    ensures var w' := Performed(s, w, Flush(refused, late));
            && id in w'.rows && w'.entries == w.entries == w'.runState && w'.fired == w.fired
            && (if id in w.entries && w.runState[id] != w.entries[id] && id !in refused && id !in late then
                  && w'.rows[id].lastRunAt == Some(w.entries[id].lastRunAt)
                  && w'.rows[id].totalRunCount == Some(w.entries[id].totalRunCount)
                  && w'.rows[id].id == id && w'.rows[id].app == w.rows[id].app
                  && w'.rows[id].enabled == w.rows[id].enabled && w'.rows[id].spec == w.rows[id].spec
                else w'.rows[id] == w.rows[id])
  {
    WrittenRow(w, refused, late, id);
  }

  /******* Undisturbed runs *******/

  /** When the entry last fired. */
  ghost function FiredAt(s: Settings, rows: map<Id, Schedule>, steps: seq<Step>, id: Id): Option<int>
    requires TablesAligned(StartWorld(rows))
  {
    if steps == [] then None
    else
      var w, step := Run(s, StartWorld(rows), Init(steps)), Last(steps);
      if step.Fire? && id in step.due && id in w.entries then Some(step.clock) else FiredAt(s, rows, Init(steps), id)
  }

  /** The clock at the last reload that took effect. */
  ghost function LoadedAt(s: Settings, rows: map<Id, Schedule>, steps: seq<Step>): Option<int>
    requires TablesAligned(StartWorld(rows))
  {
    if steps == [] then None
    else
      var w, step := Run(s, StartWorld(rows), Init(steps)), Last(steps);
      if TakesEffect(s, w, step) then Some(step.clock) else LoadedAt(s, rows, Init(steps))
  }

  // The last run time that memory and, once flushed, the row show: that of the last firing, or else
  // the one stored at the start.
  ghost predicate TimesOk(stored: Option<int>, fired: Option<int>, loaded: Option<int>, w: World, id: Id) {
    var last := if fired.Some? then fired else stored;
    && TablesAligned(w) && id in w.rows
    && (id !in w.entries ==> fired.None? && w.rows[id].lastRunAt == stored)
    && (id in w.entries ==>
          && loaded.Some? && w.entries[id].lastRunAt == (if last.Some? then last.value else loaded.value)
          && if w.runState[id] == w.entries[id] then w.rows[id].lastRunAt == last
             else fired.Some? && w.runState[id].totalRunCount < w.entries[id].totalRunCount)
  }

  lemma ReloadTimes(s: Settings, w: World, step: Step, stored: Option<int>, fired: Option<int>, loaded: Option<int>,
                    id: Id)
    requires Known(s, w) && step.Reload? && TimesOk(stored, fired, loaded, w, id)
    requires id in w.entries ==> w.runState[id] == w.entries[id]
    ensures var loaded' := if TakesEffect(s, w, step) then Some(step.clock) else loaded;
            TimesOk(stored, fired, loaded', Performed(s, w, step), id)
  {
    if TakesEffect(s, w, step) {
      ReloadInstalls(s, w, step, id);
      assert id in w.entries ==> id in Loadable(s, w.rows);
    } else {
      ReloadSkips(s, w, step);
    }
  }

  lemma FireTimes(s: Settings, w: World, step: Step, stored: Option<int>, fired: Option<int>, loaded: Option<int>,
                  id: Id)
    requires Known(s, w) && step.Fire? && TimesOk(stored, fired, loaded, w, id)
    ensures var fired' := if id in step.due && id in w.entries then Some(step.clock) else fired;
            TimesOk(stored, fired', loaded, Performed(s, w, step), id)
  {
    FireNotes(w, step.due, step.clock, id);
    assert id in step.due <==> multiset(step.due)[id] > 0;
    FiredAllAligned(w, step.due, step.clock);
  }

  lemma FlushTimes(s: Settings, w: World, stored: Option<int>, fired: Option<int>, loaded: Option<int>, id: Id)
    requires Known(s, w) && TimesOk(stored, fired, loaded, w, id)
    ensures TimesOk(stored, fired, loaded, Performed(s, w, Flush({}, {})), id)
  {
    FlushStores(s, w, {}, {}, id);
  }

  lemma {:induction false} RunTimes(s: Settings, rows: map<Id, Schedule>, steps: seq<Step>, id: Id)
    requires (forall x :: x in rows ==> rows[x].id == x) && id in rows && Undisturbed(steps)
    ensures var w := Run(s, StartWorld(rows), steps);
            && TimesOk(rows[id].lastRunAt, FiredAt(s, rows, steps, id), LoadedAt(s, rows, steps), w, id)
            && (!Unwritten(steps) && id in w.entries ==> w.runState[id] == w.entries[id])
  {
    if steps != [] {
      var w, step, stored := Run(s, StartWorld(rows), Init(steps)), Last(steps), rows[id].lastRunAt;
      var fired, loaded := FiredAt(s, rows, Init(steps), id), LoadedAt(s, rows, Init(steps));
      RunTimes(s, rows, Init(steps), id);
      RunKeeps(s, rows, Init(steps));
      RunRecords(s, rows, Init(steps));
      match step
      case Reload(_, _, _, _) =>
        ReloadTimes(s, w, step, stored, fired, loaded, id);
        if TakesEffect(s, w, step) { ReloadInstalls(s, w, step, id); } else { ReloadSkips(s, w, step); }
      case Fire(_, _) => FireTimes(s, w, step, stored, fired, loaded, id);
      case Flush(_, _) =>
        FlushTimes(s, w, stored, fired, loaded, id);
        FlushStores(s, w, {}, {}, id);
      case Land(schedule) => assert schedule !in w.pending;
    }
  }

  /** If no store fails and no tick breaks off, an entry held was last run when it last fired, or when the
      row at the start says, or, never having run, at the last reload; and once all is flushed the row
      says when it last fired, or what it said at the start. */
  lemma TimesExact(s: Settings, rows: map<Id, Schedule>, steps: seq<Step>, id: Id)
    requires (forall x :: x in rows ==> rows[x].id == x) && id in rows && Undisturbed(steps)
    ensures var w := Run(s, StartWorld(rows), steps);
            var fired, loaded := FiredAt(s, rows, steps, id), LoadedAt(s, rows, steps);
            && (id in w.entries ==>
                  && (fired.Some? ==> w.entries[id].lastRunAt == fired.value)
                  && (fired.None? && rows[id].lastRunAt.Some? ==> w.entries[id].lastRunAt == rows[id].lastRunAt.value)
                  && (fired.None? && rows[id].lastRunAt.None? ==> Some(w.entries[id].lastRunAt) == loaded))
            && (!Unwritten(steps) ==>
                  && id in w.rows
                  && w.rows[id].lastRunAt == if fired.Some? then fired else rows[id].lastRunAt)
  {
    RunTimes(s, rows, steps, id);
  }
}
