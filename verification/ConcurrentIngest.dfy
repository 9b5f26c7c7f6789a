/** Events ingested over many connections at once: the tables are those of one log. */
module ConcurrentIngest {
  import opened Common
  import TaskStore
  import RelationEdges
  import opened RpcServer

  datatype Tables = Tables(tasks: map<Id, TaskStore.Row>, relations: seq<TaskStore.Relation>)

  const EMPTY := Tables(map[], [])

  function Ingest(tables: Tables, e: TaskStore.Event): (Tables, Ran<()>) {
    (Tables(tables.tasks[e.taskId := TaskStore.Apply(TaskStore.Lookup(tables.tasks, e.taskId), e)],
            tables.relations + RelationEdges.RelationsOf(e)),
     Yields(()))
  }

  function Server(maxInflight: nat): Config<Tables, TaskStore.Event, ()> {
    Config(maxInflight, Ingest)
  }

  function EventsOf(executed: seq<Done<TaskStore.Event, ()>>): seq<TaskStore.Event> {
    if executed == [] then [] else EventsOf(Init(executed)) + [Last(executed).request]
  }

  function AllRelations(events: seq<TaskStore.Event>): seq<TaskStore.Relation> {
    if events == [] then [] else AllRelations(Init(events)) + RelationEdges.RelationsOf(Last(events))
  }

  lemma {:induction false} StoreIsReplay(maxInflight: nat, executed: seq<Done<TaskStore.Event, ()>>)
    ensures StoreAfter(Server(maxInflight), EMPTY, executed)
         == Tables(TaskStore.Replay(EventsOf(executed)), AllRelations(EventsOf(executed)))
  {
    if executed != [] {
      StoreIsReplay(maxInflight, Init(executed));
      assert Init(EventsOf(executed)) == EventsOf(Init(executed));
      assert Last(EventsOf(executed)) == Last(executed).request;
    }
  }

  /** Whatever the interleaving of the connections, the tables are the replay of the handled events
      in lock order, and each task's row depends on its own events only. */
  lemma TablesAreReplay(maxInflight: nat, steps: seq<Step<TaskStore.Event>>, s: State<Tables, TaskStore.Event, ()>,
                        id: Id)
    requires Reached(Server(maxInflight), EMPTY, steps, s)
    ensures s.store == Tables(TaskStore.Replay(EventsOf(s.executed)), AllRelations(EventsOf(s.executed)))
    ensures TaskStore.Lookup(s.store.tasks, id) == TaskStore.RowOf(TaskStore.TaskLog(EventsOf(s.executed), id))
  {
    StoreSerial(Server(maxInflight), EMPTY, steps, s);
    StoreIsReplay(maxInflight, s.executed);
    TaskStore.ReplayByTask(EventsOf(s.executed), id);
  }
}
