/** The account of runs: how the counts stored, held in memory and on their way to the database relate to
    the runs that were fired, over every sequence of steps. */
module BeatAccount {
  import opened Common
  import opened BeatWorld

  /** The count that the scheduler goes on from. */
  function Held(w: World, id: Id): int
    requires id in w.rows
  {
    if id in w.entries then w.entries[id].totalRunCount else RunCount(w.rows[id])
  }

  ghost predicate Between(base: map<Id, int>, w: World, id: Id, count: int) {
    Times(base, id) <= count <= Times(base, id) + Times(w.fired, id)
  }

  ghost predicate RowsSound(base: map<Id, int>, w: World) {
    forall id :: id in w.rows ==> Between(base, w, id, RunCount(w.rows[id])) && Between(base, w, id, Held(w, id))
  }

  ghost predicate PendingSound(base: map<Id, int>, w: World) {
    forall p :: p in w.pending ==> p.id in w.rows && Between(base, w, p.id, RunCount(p))
  }

  /** Whatever is stored, held or on its way counts no more than the starting value plus the firings,
      and no less than the starting value. */
  ghost predicate Sound(base: map<Id, int>, w: World) {
    RowsKeyed(w) && RowsSound(base, w) && PendingSound(base, w)
  }

  /** No run is lost: memory goes on from the starting values plus the firings. */
  ghost predicate AllHeld(base: map<Id, int>, w: World) {
    forall id :: id in w.rows ==> Held(w, id) == Times(base, id) + Times(w.fired, id)
  }

  ghost predicate Flushed(w: World) {
    forall id :: id in w.entries ==> id in w.rows && w.entries[id].totalRunCount == RunCount(w.rows[id])
  }

  lemma FireOne(w: World, id: Id, clock: int, x: Id)
    requires RowsKeyed(w) && x in w.rows
    ensures RowsKeyed(Fired(w, id, clock)) && Fired(w, id, clock).rows == w.rows
    ensures Held(Fired(w, id, clock), x) - Held(w, x) == Times(Fired(w, id, clock).fired, x) - Times(w.fired, x) >= 0
  {
  }

  /** Firing adds as much to a held count as to the number of firings. */
  lemma {:induction false} FireCounts(w: World, due: seq<Id>, clock: int, x: Id)
    requires RowsKeyed(w) && x in w.rows
    ensures FiredAll(w, due, clock).rows == w.rows
    ensures Held(FiredAll(w, due, clock), x) - Held(w, x)
         == Times(FiredAll(w, due, clock).fired, x) - Times(w.fired, x) >= 0
  {
    if due != [] {
      FireCounts(w, Init(due), clock, x);
      FiredAllKeyed(w, Init(due), clock);
      FireOne(FiredAll(w, Init(due), clock), Last(due), clock, x);
    }
  }

  lemma WriteCount(w: World, refused: set<Id>, late: set<Id>, id: Id)
    requires RowsKeyed(w) && id in w.rows
    ensures var w' := Written(w, refused, late);
            && id in w'.rows && Held(w', id) == Held(w, id)
            && RunCount(w'.rows[id]) == if id in Dirty(w) - refused - late then Held(w, id) else RunCount(w.rows[id])
  {
    WrittenRow(w, refused, late, id);
  }

  /** Exactly the changed entries whose store succeeds are written with the count held; those whose
      store times out are on their way with it. */
  lemma WriteCounts(w: World, refused: set<Id>, late: set<Id>)
    requires RowsKeyed(w)
    ensures Written(w, refused, late).rows.Keys == w.rows.Keys
    ensures forall id :: id in w.rows ==>
              RunCount(Written(w, refused, late).rows[id]) ==
              if id in Dirty(w) - refused - late then w.entries[id].totalRunCount else RunCount(w.rows[id])
    ensures forall id :: id in Dirty(w) - refused && id in late ==>
              WithRunState(w.cache[id], w.entries[id]) in Written(w, refused, late).pending
  {
    WrittenKeyed(w, refused, late);
    forall id | id in w.rows
      ensures RunCount(Written(w, refused, late).rows[id]) ==
              if id in Dirty(w) - refused - late then w.entries[id].totalRunCount else RunCount(w.rows[id])
    {
      WriteCount(w, refused, late, id);
    }
    forall id | id in Dirty(w) - refused && id in late
      ensures WithRunState(w.cache[id], w.entries[id]) in Written(w, refused, late).pending
    {
      DelayedExactly(w, refused, late, WithRunState(w.cache[id], w.entries[id]));
    }
  }

  /******* No run is invented *******/

  lemma FireSound(base: map<Id, int>, w: World, due: seq<Id>, clock: int)
    requires Sound(base, w)
    ensures Sound(base, FiredAll(w, due, clock))
  {
    var w' := FiredAll(w, due, clock);
    FiredAllKeyed(w, due, clock);
    forall id | id in w.rows
      ensures Times(w.fired, id) <= Times(w'.fired, id)
      ensures Between(base, w', id, RunCount(w'.rows[id])) && Between(base, w', id, Held(w', id))
    {
      FireCounts(w, due, clock, id);
      assert Between(base, w, id, RunCount(w.rows[id])) && Between(base, w, id, Held(w, id));
    }
  }

  lemma WriteSound(base: map<Id, int>, w: World, refused: set<Id>, late: set<Id>)
    requires Sound(base, w)
    ensures Sound(base, Written(w, refused, late))
  {
    var w' := Written(w, refused, late);
    WrittenKeyed(w, refused, late);
    forall id | id in w'.rows
      ensures Between(base, w', id, RunCount(w'.rows[id])) && Between(base, w', id, Held(w', id))
    {
      WriteCount(w, refused, late, id);
      assert Between(base, w, id, RunCount(w.rows[id])) && Between(base, w, id, Held(w, id));
    }
    forall p | p in w'.pending
      ensures p.id in w'.rows && Between(base, w', p.id, RunCount(p))
    {
      DelayedExactly(w, refused, late, p);
      if p !in w.pending {
        assert Between(base, w, p.id, Held(w, p.id));
      }
    }
  }

  lemma LandRowsSound(base: map<Id, int>, w: World, p: Schedule)
    requires RowsKeyed(w) && RowsSound(base, w)
    requires p in w.pending && p.id in w.rows && Between(base, w, p.id, RunCount(p))
    ensures RowsSound(base, Landed(w, p))
  {
    var w' := Landed(w, p);
    forall id | id in w'.rows
      ensures Between(base, w', id, RunCount(w'.rows[id])) && Between(base, w', id, Held(w', id))
    {
      if id in w.rows {
        assert Between(base, w, id, RunCount(w.rows[id])) && Between(base, w, id, Held(w, id));
      }
    }
  }

  lemma LandSound(base: map<Id, int>, w: World, p: Schedule)
    requires Sound(base, w) && p in w.pending
    ensures Sound(base, Landed(w, p))
  {
    LandedExactly(w, p);
    LandKeyed(w, p);
    LandRowsSound(base, w, p);
    assert PendingSound(base, Landed(w, p));
  }

  // A reload goes on from the stored counts, or leaves the held ones.
  lemma ReloadHolds(s: Settings, w: World, now: real, clock: int, force: bool, reachable: bool, id: Id)
    requires RowsKeyed(w) && id in w.rows
    ensures var w' := Refreshed(s, w, now, clock, force, reachable).0;
            id in w'.rows && (Held(w', id) == RunCount(w.rows[id]) || Held(w', id) == Held(w, id))
  {
  }

  lemma ReloadSound(base: map<Id, int>, s: Settings, w: World, now: real, clock: int, force: bool, reachable: bool)
    requires Sound(base, w)
    ensures Sound(base, Refreshed(s, w, now, clock, force, reachable).0)
  {
    var w' := Refreshed(s, w, now, clock, force, reachable).0;
    ReloadLeavesRows(s, w, now, clock, force, reachable);
    ReloadKeyed(s, w, now, clock, force, reachable);
    forall id | id in w'.rows
      ensures Between(base, w', id, RunCount(w'.rows[id])) && Between(base, w', id, Held(w', id))
    {
      ReloadHolds(s, w, now, clock, force, reachable, id);
      assert Between(base, w, id, RunCount(w.rows[id])) && Between(base, w, id, Held(w, id));
    }
  }

  /** No step invents a run: not even a late write brings in a count above what was fired. */
  lemma StepSound(base: map<Id, int>, s: Settings, w: World, step: Step)
    requires Sound(base, w)
    ensures Sound(base, Performed(s, w, step))
  {
    match step
    case Reload(now, clock, force, reachable) => ReloadSound(base, s, w, now, clock, force, reachable);
    case Fire(due, clock) => FireSound(base, w, due, clock);
    case Flush(refused, late) => WriteSound(base, w, refused, late);
    case Land(schedule) => if schedule in w.pending { LandSound(base, w, schedule); }
  }

  /** Over any run every stored count lies between its starting value and that plus the firings. */
  lemma {:induction false} RunsNeverInvented(s: Settings, rows: map<Id, Schedule>, steps: seq<Step>)
    requires forall id :: id in rows ==> rows[id].id == id
    ensures var w := Run(s, StartWorld(rows), steps);
            && Sound(Counts(rows), w) && w.rows.Keys == rows.Keys
            && forall id :: id in rows ==>
                 RunCount(rows[id]) <= RunCount(w.rows[id]) <= RunCount(rows[id]) + Times(w.fired, id)
  {
    RunKeeps(s, rows, steps);
    if steps != [] {
      RunsNeverInvented(s, rows, Init(steps));
      StepSound(Counts(rows), s, Run(s, StartWorld(rows), Init(steps)), Last(steps));
    }
    var w := Run(s, StartWorld(rows), steps);
    forall id | id in rows
      ensures RunCount(rows[id]) <= RunCount(w.rows[id]) <= RunCount(rows[id]) + Times(w.fired, id)
    {
      assert Between(Counts(rows), w, id, RunCount(w.rows[id]));
    }
  }

  /******* When a stored count goes down *******/

  /** A write that puts a smaller count in the place of a greater one: a late one that lands on a newer
      row, or a regular one by a memory that is behind what is stored. */
  ghost predicate Stale(w: World, step: Step, id: Id)
    requires RowsKeyed(w) && id in w.rows
  {
    match step
    case Land(p) => p in w.pending && p.id == id && RunCount(p) < RunCount(w.rows[id])
    case Flush(refused, late) => id in Dirty(w) - refused - late && Held(w, id) < RunCount(w.rows[id])
    case _ => false
  }

  lemma FallsExactly(s: Settings, w: World, step: Step, id: Id)
    requires RowsKeyed(w) && id in w.rows
    ensures id in Performed(s, w, step).rows
    ensures RunCount(Performed(s, w, step).rows[id]) < RunCount(w.rows[id]) <==> Stale(w, step, id)
  {
    match step
    case Reload(now, clock, force, reachable) =>
    case Fire(due, clock) => FiredAllKeyed(w, due, clock);
    case Flush(refused, late) => WriteCount(w, refused, late, id);
    case Land(schedule) => LandedExactly(w, schedule);
  }

  ghost predicate Ahead(w: World) {
    forall id :: id in w.rows ==> RunCount(w.rows[id]) <= Held(w, id)
  }

  /** No stored count goes down, and none gets ahead of the one held. */
  ghost predicate InOrder(w: World, w': World) {
    forall id :: id in w.rows ==>
                   id in w'.rows && RunCount(w.rows[id]) <= RunCount(w'.rows[id]) <= Held(w', id)
  }

  /** A late write lands on a row that is not newer, and before the scheduler has gone back behind it. */
  ghost predicate Timely(w: World, step: Step) {
    step.Land? && step.schedule in w.pending ==>
      var id := step.schedule.id;
      id in w.rows && RunCount(w.rows[id]) <= RunCount(step.schedule) <= Held(w, id)
  }

  lemma OtherInOrder(s: Settings, w: World, step: Step, id: Id)
    requires RowsKeyed(w) && !step.Land? && id in w.rows && RunCount(w.rows[id]) <= Held(w, id)
    ensures var w' := Performed(s, w, step);
            id in w'.rows && RunCount(w.rows[id]) <= RunCount(w'.rows[id]) <= Held(w', id)
  {
    match step
    case Reload(now, clock, force, reachable) =>
      ReloadLeavesRows(s, w, now, clock, force, reachable);
      ReloadHolds(s, w, now, clock, force, reachable, id);
    case Fire(due, clock) => FireCounts(w, due, clock, id);
    case Flush(refused, late) => WriteCount(w, refused, late, id);
  }

  lemma LandedRow(w: World, p: Schedule, id: Id)
    requires RowsKeyed(w) && PendingKnown(w) && p in w.pending && id in w.rows
    ensures var w' := Landed(w, p);
            id in w'.rows && Held(w', id) == Held(w, id) && w'.rows[id] == if id == p.id then p else w.rows[id]
  {
    LandedExactly(w, p);
  }

  lemma LandInOrder(w: World, p: Schedule)
    requires RowsKeyed(w) && PendingKnown(w) && Ahead(w)
    ensures InOrder(w, Landed(w, p)) <==> Timely(w, Land(p))
  {
    if p in w.pending {
      LandedRow(w, p, p.id);
      if RunCount(w.rows[p.id]) <= RunCount(p) <= Held(w, p.id) {
        forall id | id in w.rows
          ensures var w' := Landed(w, p);
                  id in w'.rows && RunCount(w.rows[id]) <= RunCount(w'.rows[id]) <= Held(w', id)
        {
          LandedRow(w, p, id);
        }
      }
    }
  }

  lemma OthersInOrder(s: Settings, w: World, step: Step)
    requires RowsKeyed(w) && Ahead(w) && !step.Land?
    ensures InOrder(w, Performed(s, w, step))
  {
    forall id | id in w.rows
      ensures var w' := Performed(s, w, step);
              id in w'.rows && RunCount(w.rows[id]) <= RunCount(w'.rows[id]) <= Held(w', id)
    {
      OtherInOrder(s, w, step, id);
    }
  }

  lemma StepInOrder(s: Settings, w: World, step: Step)
    requires Known(s, w) && Ahead(w)
    ensures InOrder(w, Performed(s, w, step)) <==> Timely(w, step)
  {
    if step.Land? {
      LandInOrder(w, step.schedule);
      assert step == Land(step.schedule);
    } else {
      OthersInOrder(s, w, step);
    }
  }

  ghost predicate AlwaysTimely(s: Settings, w: World, steps: seq<Step>)
    requires TablesAligned(w)
  {
    steps == [] || (AlwaysTimely(s, w, Init(steps)) && Timely(Run(s, w, Init(steps)), Last(steps)))
  }

  ghost predicate AlwaysInOrder(s: Settings, w: World, steps: seq<Step>)
    requires TablesAligned(w)
  {
    steps == [] || (AlwaysInOrder(s, w, Init(steps)) && InOrder(Run(s, w, Init(steps)), Run(s, w, steps)))
  }

  /** Over any run, stored counts never go down nor get ahead of memory if and only if every late write
      lands in time. */
  lemma {:induction false} InOrderExactly(s: Settings, rows: map<Id, Schedule>, steps: seq<Step>)
    requires forall id :: id in rows ==> rows[id].id == id
    ensures AlwaysInOrder(s, StartWorld(rows), steps) <==> AlwaysTimely(s, StartWorld(rows), steps)
    ensures AlwaysTimely(s, StartWorld(rows), steps) ==> Ahead(Run(s, StartWorld(rows), steps))
  {
    if steps != [] {
      InOrderExactly(s, rows, Init(steps));
      RunKeeps(s, rows, Init(steps));
      RunKeeps(s, rows, steps);
      if AlwaysTimely(s, StartWorld(rows), Init(steps)) {
        StepInOrder(s, Run(s, StartWorld(rows), Init(steps)), Last(steps));
      }
    }
  }

  predicate NoneLate(steps: seq<Step>) {
    forall step :: step in steps ==> step.Flush? ==> step.late == {}
  }

  lemma {:induction false} NothingPending(s: Settings, rows: map<Id, Schedule>, steps: seq<Step>)
    requires forall id :: id in rows ==> rows[id].id == id
    requires NoneLate(steps)
    ensures Run(s, StartWorld(rows), steps).pending == multiset{}
    ensures AlwaysTimely(s, StartWorld(rows), steps)
  {
    if steps != [] {
      var w, step := Run(s, StartWorld(rows), Init(steps)), Last(steps);
      NothingPending(s, rows, Init(steps));
      RunKeeps(s, rows, Init(steps));
      assert step in steps;
      match step
      case Reload(now, clock, force, reachable) => ReloadLeavesRows(s, w, now, clock, force, reachable);
      case Fire(due, clock) => FiredAllKeyed(w, due, clock);
      case Flush(refused, late) => NothingDelayed(w, refused, late);
      case Land(schedule) =>
    }
  }

  /** If no store times out, then whatever stores are refused and wherever ticks break off, no stored
      count ever goes down. */
  lemma NeverFallsWithoutLate(s: Settings, rows: map<Id, Schedule>, steps: seq<Step>)
    requires forall id :: id in rows ==> rows[id].id == id
    requires NoneLate(steps)
    ensures AlwaysInOrder(s, StartWorld(rows), steps)
  {
    NothingPending(s, rows, steps);
    InOrderExactly(s, rows, steps);
  }

  /******* When a run is lost *******/

  predicate Loads(s: Settings, w: World, step: Step) {
    step.Reload? && DueForRefresh(s, w, step.now, step.force) && step.reachable && Readable(s, w.rows)
  }

  ghost predicate Balanced(w: World, w': World, id: Id)
    requires id in w.rows
  {
    id in w'.rows && Held(w', id) - Times(w'.fired, id) == Held(w, id) - Times(w.fired, id)
  }

  lemma LandBalanced(w: World, p: Schedule, id: Id)
    requires RowsKeyed(w) && PendingKnown(w) && id in w.rows
    ensures Balanced(w, Landed(w, p), id)
  {
    LandedExactly(w, p);
  }

  lemma UnloadedHolds(s: Settings, w: World, step: Step, id: Id)
    requires Known(s, w) && !Loads(s, w, step) && id in w.rows
    ensures Balanced(w, Performed(s, w, step), id)
  {
    match step
    case Reload(now, clock, force, reachable) =>
    case Fire(due, clock) => FireCounts(w, due, clock, id);
    case Flush(refused, late) => WriteCount(w, refused, late, id);
    case Land(schedule) => LandBalanced(w, schedule, id);
  }

  lemma SameBalance(base: map<Id, int>, w: World, w': World)
    requires w'.rows.Keys == w.rows.Keys && forall id :: id in w.rows ==> Balanced(w, w', id)
    ensures AllHeld(base, w') <==> AllHeld(base, w)
  {
  }

  lemma OtherStepsHold(base: map<Id, int>, s: Settings, w: World, step: Step)
    requires Known(s, w) && !Loads(s, w, step)
    ensures AllHeld(base, Performed(s, w, step)) <==> AllHeld(base, w)
  {
    var w' := Performed(s, w, step);
    StepKeeps(s, w, step);
    forall id | id in w.rows
      ensures Balanced(w, w', id)
    {
      UnloadedHolds(s, w, step, id);
    }
    SameBalance(base, w, w');
  }

  lemma LoadGoesOnFromStored(s: Settings, w: World, step: Step)
    requires RowsKeyed(w) && Loads(s, w, step)
    ensures var w' := Performed(s, w, step);
            && w'.rows == w.rows && w'.fired == w.fired
            && forall id :: id in w.rows ==> Held(w', id) == RunCount(w.rows[id])
  {
  }

  /** A step loses a run exactly when it loads the schedules before all counts are stored. */
  lemma StepLosesExactly(base: map<Id, int>, s: Settings, w: World, step: Step)
    requires Known(s, w) && AllHeld(base, w)
    ensures AllHeld(base, Performed(s, w, step)) <==> (Loads(s, w, step) ==> Flushed(w))
  {
    if Loads(s, w, step) {
      LoadGoesOnFromStored(s, w, step);
    } else {
      OtherStepsHold(base, s, w, step);
    }
  }

  /** While no stored count is ahead of memory, a lost run is lost for good. */
  lemma LostForGood(base: map<Id, int>, s: Settings, w: World, step: Step)
    requires Known(s, w) && Sound(base, w) && Ahead(w) && AllHeld(base, Performed(s, w, step))
    ensures AllHeld(base, w)
  {
    if Loads(s, w, step) {
      LoadGoesOnFromStored(s, w, step);
      forall id | id in w.rows
        ensures Held(w, id) == Times(base, id) + Times(w.fired, id)
      {
        assert Between(base, w, id, Held(w, id)) && RunCount(w.rows[id]) <= Held(w, id);
      }
    } else {
      OtherStepsHold(base, s, w, step);
    }
  }

  ghost predicate NeverLoadsUnflushed(s: Settings, w: World, steps: seq<Step>)
    requires TablesAligned(w)
  {
    steps == [] || (NeverLoadsUnflushed(s, w, Init(steps))
                    && (Loads(s, Run(s, w, Init(steps)), Last(steps)) ==> Flushed(Run(s, w, Init(steps)))))
  }

  ghost predicate AlwaysAllHeld(base: map<Id, int>, s: Settings, w: World, steps: seq<Step>)
    requires TablesAligned(w)
  {
    AllHeld(base, Run(s, w, steps)) && (steps != [] ==> AlwaysAllHeld(base, s, w, Init(steps)))
  }

  /** Over any run, whatever stores fail and however late they land: no run is ever lost if and only if
      every reload that takes effect finds all counts stored. */
  lemma {:induction false} NeverLosesExactly(s: Settings, rows: map<Id, Schedule>, steps: seq<Step>)
    requires forall id :: id in rows ==> rows[id].id == id
    ensures AlwaysAllHeld(Counts(rows), s, StartWorld(rows), steps) <==>
            NeverLoadsUnflushed(s, StartWorld(rows), steps)
  {
    if steps != [] {
      NeverLosesExactly(s, rows, Init(steps));
      RunKeeps(s, rows, Init(steps));
      if AllHeld(Counts(rows), Run(s, StartWorld(rows), Init(steps))) {
        StepLosesExactly(Counts(rows), s, Run(s, StartWorld(rows), Init(steps)), Last(steps));
      }
      HeldAllAlong(Counts(rows), s, StartWorld(rows), Init(steps));
    }
  }

  lemma HeldAllAlong(base: map<Id, int>, s: Settings, w: World, steps: seq<Step>)
    requires TablesAligned(w)
    ensures AlwaysAllHeld(base, s, w, steps) ==> AllHeld(base, Run(s, w, steps))
  {
  }

  /** If late writes land in time, the end of a run tells: all runs are accounted for there if and only
      if every reload that took effect found all counts stored. */
  lemma {:induction false} LostInTheEndExactly(s: Settings, rows: map<Id, Schedule>, steps: seq<Step>)
    requires forall id :: id in rows ==> rows[id].id == id
    requires AlwaysTimely(s, StartWorld(rows), steps)
    ensures AllHeld(Counts(rows), Run(s, StartWorld(rows), steps)) <==> NeverLoadsUnflushed(s, StartWorld(rows), steps)
  {
    if steps != [] {
      var w := Run(s, StartWorld(rows), Init(steps));
      LostInTheEndExactly(s, rows, Init(steps));
      InOrderExactly(s, rows, Init(steps));
      RunsNeverInvented(s, rows, Init(steps));
      RunKeeps(s, rows, Init(steps));
      if AllHeld(Counts(rows), w) {
        StepLosesExactly(Counts(rows), s, w, Last(steps));
      } else if AllHeld(Counts(rows), Performed(s, w, Last(steps))) {
        LostForGood(Counts(rows), s, w, Last(steps));
      }
    }
  }

  /******* Runs in which nothing fails *******/

  /** Something has fired since the last flush. */
  predicate Unwritten(steps: seq<Step>) {
    if steps == [] then false
    else
      match Last(steps)
      case Fire(_, _) => true
      case Flush(_, _) => false
      case _ => Unwritten(Init(steps))
  }

  /** No store fails, and no tick breaks off: every firing is followed by a flush before the next reload. */
  predicate Undisturbed(steps: seq<Step>) {
    steps != [] ==>
      && Undisturbed(Init(steps))
      && match Last(steps)
         case Reload(_, _, _, _) => !Unwritten(Init(steps))
         case Flush(refused, late) => refused == {} && late == {}
         case _ => true
  }

  /** Memory knows what is stored, and nothing else is on its way. */
  ghost predicate Recorded(w: World) {
    && w.pending == multiset{}
    && forall id :: id in w.entries ==> id in w.runState && id in w.rows
                                        && w.runState[id].totalRunCount == RunCount(w.rows[id])
  }

  lemma FlushRecords(w: World)
    requires RowsKeyed(w) && Recorded(w)
    ensures Recorded(Written(w, {}, {})) && Flushed(Written(w, {}, {}))
  {
    var w' := Written(w, {}, {});
    NothingDelayed(w, {}, {});
    forall id | id in w.entries
      ensures id in w'.rows && w'.entries[id].totalRunCount == RunCount(w'.rows[id])
    {
      WriteCount(w, {}, {}, id);
    }
  }

  lemma {:induction false} FireRecorded(w: World, due: seq<Id>, clock: int)
    requires RowsKeyed(w)
    ensures FiredAll(w, due, clock).runState == w.runState
    ensures Recorded(w) ==> Recorded(FiredAll(w, due, clock))
  {
    FiredAllKeyed(w, due, clock);
    if due != [] {
      FireRecorded(w, Init(due), clock);
    }
  }

  /** A step by which nothing goes wrong keeps the record of what is stored, and a flush stores it all. */
  lemma StepRecords(s: Settings, w: World, step: Step)
    requires RowsKeyed(w) && Recorded(w) && (step.Flush? ==> step.refused == {} && step.late == {})
    ensures Recorded(Performed(s, w, step))
    ensures step.Flush? || (!step.Fire? && Flushed(w)) ==> Flushed(Performed(s, w, step))
  {
    match step
    case Reload(now, clock, force, reachable) =>
    case Fire(due, clock) => FireRecorded(w, due, clock);
    case Flush(refused, late) => FlushRecords(w);
    case Land(schedule) =>
  }

  lemma {:induction false} RunRecords(s: Settings, rows: map<Id, Schedule>, steps: seq<Step>)
    requires forall id :: id in rows ==> rows[id].id == id
    requires Undisturbed(steps)
    ensures Recorded(Run(s, StartWorld(rows), steps))
    ensures !Unwritten(steps) ==> Flushed(Run(s, StartWorld(rows), steps))
    ensures NeverLoadsUnflushed(s, StartWorld(rows), steps)
  {
    if steps != [] {
      RunRecords(s, rows, Init(steps));
      RunKeeps(s, rows, Init(steps));
      StepRecords(s, Run(s, StartWorld(rows), Init(steps)), Last(steps));
    }
  }

  /** If no store fails and no tick breaks off, no run is ever lost, and once all is flushed each stored
      count is its starting value plus the firings. */
  lemma RunsConserved(s: Settings, rows: map<Id, Schedule>, steps: seq<Step>)
    requires forall id :: id in rows ==> rows[id].id == id
    requires Undisturbed(steps)
    ensures AlwaysAllHeld(Counts(rows), s, StartWorld(rows), steps)
    ensures var w := Run(s, StartWorld(rows), steps);
            w.rows.Keys == rows.Keys &&
            (!Unwritten(steps) ==>
               forall id :: id in rows ==> RunCount(w.rows[id]) == RunCount(rows[id]) + Times(w.fired, id))
  {
    RunRecords(s, rows, steps);
    NeverLosesExactly(s, rows, steps);
    HeldAllAlong(Counts(rows), s, StartWorld(rows), steps);
    RunKeeps(s, rows, steps);
    var w := Run(s, StartWorld(rows), steps);
    if !Unwritten(steps) {
      forall id | id in rows
        ensures RunCount(w.rows[id]) == RunCount(rows[id]) + Times(w.fired, id)
      {
        assert Held(w, id) == Times(Counts(rows), id) + Times(w.fired, id);
      }
    }
  }

  /******* Runs in which something fails *******/

  // An entry that is stored as it is held, with all its runs.
  ghost predicate Settled(base: map<Id, int>, s: Settings, w: World, id: Id) {
    && Known(s, w) && Readable(s, w.rows) && id in w.entries
    && Held(w, id) == Times(base, id) + Times(w.fired, id) == RunCount(w.rows[id]) == w.runState[id].totalRunCount
  }

  /** The first reload settles every entry that it loads. */
  lemma SettledFirst(s: Settings, rows: map<Id, Schedule>, now: real, clock: int, id: Id)
    requires forall id :: id in rows ==> rows[id].id == id
    requires Readable(s, rows) && id in Loadable(s, rows)
    ensures Settled(Counts(rows), s, Run(s, StartWorld(rows), [Reload(now, clock, true, true)]), id)
  {
    var step := Reload(now, clock, true, true);
    assert Init([step]) == [];
    assert Run(s, StartWorld(rows), [step]) == Performed(s, StartWorld(rows), step);
    RunKeeps(s, rows, [step]);
  }

  lemma FireAt(s: Settings, w: World, id: Id, t: int)
    requires Known(s, w) && id in w.entries
    ensures var w' := Performed(s, w, Fire([id], t));
            && Known(s, w') && id in w'.entries && w'.rows == w.rows && w'.pending == w.pending
            && w'.cache == w.cache && w'.runState == w.runState
            && w'.entries[id] == Entry(t, w.entries[id].totalRunCount + 1)
            && Times(w'.fired, id) == Times(w.fired, id) + 1
  {
    FiredOnce(w, id, t);
    StepKeeps(s, w, Fire([id], t));
  }

  lemma FiredOnce(w: World, id: Id, t: int)
    requires TablesAligned(w) && id in w.entries
    ensures FiredAll(w, [id], t) == Fired(w, id, t)
  {
    assert Init([id]) == [] && Last([id]) == id;
    assert FiredAll(w, [], t) == w;
  }

  lemma FiredTwice(w: World, id: Id, t: int)
    requires TablesAligned(w) && id in w.entries
    ensures var w' := FiredAll(w, [id, id], t);
            && id in w'.entries && w'.rows == w.rows && w'.runState == w.runState
            && w'.entries[id] == Entry(t, w.entries[id].totalRunCount + 2)
  {
    assert Init([id, id]) == [id];
    FiredOnce(w, id, t);
  }

  /** What a flush does to one changed entry: it is stored, refused, or on its way as `p`. */
  ghost predicate SentAs(w: World, w': World, refused: set<Id>, late: set<Id>, id: Id, p: Schedule)
    requires id in w.rows
  {
    && id in w'.rows && w.pending <= w'.pending && (id in late - refused ==> p in w'.pending)
    && w'.entries == w.entries == w'.runState && w'.fired == w.fired
    && RunCount(w'.rows[id]) == (if id in refused + late then RunCount(w.rows[id]) else Held(w, id))
    && p.id == id && RunCount(p) == Held(w, id)
  }

  lemma SentAt(s: Settings, w: World, refused: set<Id>, late: set<Id>, id: Id) returns (p: Schedule)
    requires RowsKeyed(w) && id in Dirty(w)
    ensures SentAs(w, Performed(s, w, Flush(refused, late)), refused, late, id, p)
  {
    p := WithRunState(w.cache[id], w.entries[id]);
    WriteCount(w, refused, late, id);
    DelayedExactly(w, refused, late, p);
  }

  lemma ReloadAt(s: Settings, w: World, now: real, clock: int, id: Id)
    requires Known(s, w) && Readable(s, w.rows) && id in w.entries
    ensures var w' := Performed(s, w, Reload(now, clock, true, true));
            && Known(s, w') && w'.rows == w.rows && w'.fired == w.fired && w'.pending == w.pending
            && id in w'.entries && w'.runState == w'.entries && Held(w', id) == RunCount(w.rows[id])
  {
    StepKeeps(s, w, Reload(now, clock, true, true));
  }

  lemma LandAt(s: Settings, w: World, p: Schedule)
    requires Known(s, w) && p in w.pending
    ensures var w' := Performed(s, w, Land(p));
            && Known(s, w') && (Readable(s, w.rows) ==> Readable(s, w'.rows)) && p.id in w'.rows && w'.rows[p.id] == p
            && w'.entries == w.entries && w'.runState == w.runState && w'.fired == w.fired
  {
    StepKeeps(s, w, Land(p));
  }

  /** A tick that breaks off after a firing, followed by a reload, loses the run. */
  lemma BrokenTickLosesRun(base: map<Id, int>, s: Settings, w: World, id: Id, t: int, now: real, clock: int)
    requires Settled(base, s, w, id)
    ensures var w1 := Performed(s, w, Fire([id], t));
            var w2 := Performed(s, w1, Reload(now, clock, true, true));
            id in w2.rows && Held(w2, id) == Times(base, id) + Times(w2.fired, id) - 1
  {
    FireAt(s, w, id, t);
    ReloadAt(s, Performed(s, w, Fire([id], t)), now, clock, id);
  }

  /** So does a store that fails, if the next reload comes before the entry runs again. */
  lemma FailedStoreLosesRun(base: map<Id, int>, s: Settings, w: World, id: Id, t: int, now: real, clock: int)
    requires Settled(base, s, w, id)
    ensures var w1 := Performed(s, w, Fire([id], t));
            var w2 := Performed(s, w1, Flush({id}, {}));
            var w3 := Performed(s, w2, Reload(now, clock, true, true));
            id in w3.rows && Held(w3, id) == Times(base, id) + Times(w3.fired, id) - 1
  {
    FireAt(s, w, id, t);
    var w1 := Performed(s, w, Fire([id], t));
    var _ := SentAt(s, w1, {id}, {}, id);
    StepKeeps(s, w1, Flush({id}, {}));
    ReloadAt(s, Performed(s, w1, Flush({id}, {})), now, clock, id);
  }

  /** A store that times out can undo a later one that succeeds: when it lands, the stored count goes
      down, and the next reload loses a run that had been stored. */
  lemma LateStoreLosesRun(base: map<Id, int>, s: Settings, w: World, id: Id, t1: int, t2: int, now: real, clock: int)
    returns (p: Schedule)
    requires Settled(base, s, w, id)
    ensures var w1 := Performed(s, w, Fire([id], t1));
            var w2 := Performed(s, w1, Flush({}, {id}));
            var w3 := Performed(s, w2, Fire([id], t2));
            var w4 := Performed(s, w3, Flush({}, {}));
            var w5 := Performed(s, w4, Land(p));
            var w6 := Performed(s, w5, Reload(now, clock, true, true));
            && id in w4.rows && id in w5.rows && id in w6.rows
            && RunCount(w4.rows[id]) == Times(base, id) + Times(w4.fired, id) == RunCount(w5.rows[id]) + 1
            && Held(w6, id) == Times(base, id) + Times(w6.fired, id) - 1
  {
    FireAt(s, w, id, t1);
    var w1 := Performed(s, w, Fire([id], t1));
    p := SentAt(s, w1, {}, {id}, id);
    StepKeeps(s, w1, Flush({}, {id}));
    var w2 := Performed(s, w1, Flush({}, {id}));
    FireAt(s, w2, id, t2);
    var w3 := Performed(s, w2, Fire([id], t2));
    var _ := SentAt(s, w3, {}, {}, id);
    StepKeeps(s, w3, Flush({}, {}));
    var w4 := Performed(s, w3, Flush({}, {}));
    LandAt(s, w4, p);
    ReloadAt(s, Performed(s, w4, Land(p)), now, clock, id);
  }

  /** It can also bring a lost run back, so that the end of a run does not tell. */
  lemma LateStoreRestoresRun(base: map<Id, int>, s: Settings, w: World, id: Id, t: int, now: real, clock: int)
    returns (p: Schedule)
    requires Settled(base, s, w, id)
    ensures var w1 := Performed(s, w, Fire([id], t));
            var w2 := Performed(s, w1, Flush({}, {id}));
            var w3 := Performed(s, w2, Reload(now, clock, true, true));
            var w4 := Performed(s, w3, Land(p));
            var w5 := Performed(s, w4, Reload(now, clock, true, true));
            && id in w3.rows && Held(w3, id) == Times(base, id) + Times(w3.fired, id) - 1
            && id in w5.rows && Held(w5, id) == Times(base, id) + Times(w5.fired, id)
  {
    FireAt(s, w, id, t);
    var w1 := Performed(s, w, Fire([id], t));
    p := SentAt(s, w1, {}, {id}, id);
    StepKeeps(s, w1, Flush({}, {id}));
    var w2 := Performed(s, w1, Flush({}, {id}));
    ReloadAt(s, w2, now, clock, id);
    var w3 := Performed(s, w2, Reload(now, clock, true, true));
    LandAt(s, w3, p);
    ReloadAt(s, Performed(s, w3, Land(p)), now, clock, id);
  }

  /** A late write can also leave memory behind: after it, a regular write-back lowers the stored count. */
  lemma WriteBackGoesDown(base: map<Id, int>, s: Settings, w: World, id: Id, t1: int, t2: int,
                          now: real, clock: int)
    returns (p: Schedule)
    requires Settled(base, s, w, id)
    ensures var w1 := Performed(s, w, Fire([id, id], t1));
            var w2 := Performed(s, w1, Flush({}, {id}));
            var w3 := Performed(s, w2, Reload(now, clock, true, true));
            var w4 := Performed(s, w3, Land(p));
            var w5 := Performed(s, w4, Fire([id], t2));
            var w6 := Performed(s, w5, Flush({}, {}));
            && id in w5.rows && id in w6.rows && RunCount(w6.rows[id]) == RunCount(w5.rows[id]) - 1
  {
    FiredTwice(w, id, t1);
    StepKeeps(s, w, Fire([id, id], t1));
    var w1 := Performed(s, w, Fire([id, id], t1));
    p := SentAt(s, w1, {}, {id}, id);
    StepKeeps(s, w1, Flush({}, {id}));
    var w2 := Performed(s, w1, Flush({}, {id}));
    ReloadAt(s, w2, now, clock, id);
    var w3 := Performed(s, w2, Reload(now, clock, true, true));
    LandAt(s, w3, p);
    var w4 := Performed(s, w3, Land(p));
    FireAt(s, w4, id, t2);
    var w5 := Performed(s, w4, Fire([id], t2));
    var _ := SentAt(s, w5, {}, {}, id);
    StepKeeps(s, w5, Flush({}, {}));
  }
}
