/** What every reply is, and where every thread stands, from the messages and the steps of the run. */
module RpcReplies {
  import opened Common
  import opened RpcServer
  import opened RpcAdmission

  /******* Replies *******/

  /** Whether the result could be encoded, for the handler runs in order. */
  function Encodings<Q>(steps: seq<Step<Q>>): seq<bool> {
    if steps == [] then []
    else Encodings(Init(steps)) + if Last(steps).Handle? then [Last(steps).encodes] else []
  }

  /** The reply to a message that no handler gets to see. */
  ghost predicate Rejects<Q, R>(msg: Message<Q>, reply: Reply<R>) {
    match msg
    case Oversized => reply == Error(None, "MESSAGE_TOO_LARGE")
    case Garbled => reply == Error(None, "VALIDATION_ERROR")
    case Call(rid, Some(SchemaUnsupported), _) => reply == Error(Some(rid), "SCHEMA_UNSUPPORTED")
    case Call(rid, Some(OpNotFound), _) => reply == Error(Some(rid), "OP_NOT_FOUND")
    case Call(rid, Some(InvalidPayload), _) => reply == Error(Some(rid), "VALIDATION_ERROR")
    case Call(_, None, _) => false
  }

  /** The reply to a call whose handler ended in one way or another. */
  ghost predicate Tells<R>(rid: string, result: Ran<R>, encodes: bool, reply: Reply<R>) {
    match result
    case Yields(value) => reply == if encodes then Ok(rid, value) else Error(Some(rid), "SERVER_ERROR")
    case Invalidates => reply == Error(Some(rid), "VALIDATION_ERROR")
    case Raises => reply == Error(Some(rid), "SERVER_ERROR")
  }

  ghost predicate Fits<Q, R>(executed: seq<Done<Q, R>>, encodings: seq<bool>, msg: Message<Q>,
                                         reply: Reply<R>, exec: Option<nat>)
  {
    match exec
    case None => reply == Error(None, "BUSY") || Rejects(msg, reply)
    case Some(i) =>
      i < |executed| && i < |encodings| && Tells(executed[i].rid, executed[i].result, encodings[i], reply)
  }

  ghost predicate ConnFits<S, Q, R>(executed: seq<Done<Q, R>>, encodings: seq<bool>, conn: Conn<S, Q, R>) {
    && (forall n :: 0 <= n < |conn.log| ==>
          Fits(executed, encodings, conn.log[n].msg, conn.log[n].reply, conn.log[n].exec))
    && (conn.at.Answered? || conn.at.Sending? || conn.at.Died? ==>
          Fits(executed, encodings, conn.at.msg, conn.at.reply, conn.at.exec))
  }

  lemma FitsStill<S, Q, R>(executed: seq<Done<Q, R>>, encodings: seq<bool>, executed': seq<Done<Q, R>>,
                           encodings': seq<bool>, conn: Conn<S, Q, R>)
    requires ConnFits(executed, encodings, conn) && executed <= executed' && encodings <= encodings'
    ensures ConnFits(executed', encodings', conn)
  {
  }

  lemma OwnFits<S, Q, R>(c: Config<S, Q, R>, s: State<S, Q, R>, step: Step<Q>, encodings: seq<bool>)
    requires Enabled(s, step) && |encodings| == |s.executed|
    requires step.t in s.conns ==> ConnFits(s.executed, encodings, s.conns[step.t])
    ensures var s', more := Apply(c, s, step), if step.Handle? then [step.encodes] else [];
            && s.executed <= s'.executed && |encodings + more| == |s'.executed|
            && ConnFits(s'.executed, encodings + more, s'.conns[step.t])
  {
  }

  lemma {:induction false} RunFits<S, Q, R>(c: Config<S, Q, R>, init: S, steps: seq<Step<Q>>, s: State<S, Q, R>,
                                            t: Tid)
    requires Reached(c, init, steps, s)
    ensures |Encodings(steps)| == |s.executed|
    ensures t in s.conns ==> ConnFits(s.executed, Encodings(steps), s.conns[t])
  {
    if steps != [] {
      var before := RpcServer.Run(c, init, Init(steps)).value;
      RunFits(c, init, Init(steps), before, Last(steps).t);
      OwnFits(c, before, Last(steps), Encodings(Init(steps)));
      if t != Last(steps).t {
        RunFits(c, init, Init(steps), before, t);
        OthersStay(c, before, Last(steps), t);
        if t in s.conns {
          FitsStill(before.executed, Encodings(Init(steps)), s.executed, Encodings(steps), s.conns[t]);
        }
      }
    }
  }

  /** The n-th reply of a thread, in full: BUSY if the server was full when the n-th message asked; the
      rejection if the message is unreadable or faulty; and otherwise what its one handler run, with the
      result of the sequential run, comes to. */
  ghost predicate ReplyIs<S, Q, R>(
    c: Config<S, Q, R>, init: S, s: State<S, Q, R>, encodings: seq<bool>, t: Tid, n: nat,
    full: bool, msg: Message<Q>, reply: Reply<R>)
  {
    if full then reply == Error(None, "BUSY") && RunsFor(s, t, n) == {}
    else if msg.Call? && msg.fault == None then
      exists i :: RunsFor(s, t, n) == {i} && RunOf(c, init, s, i, msg)
        && i < |encodings| && Tells(msg.rid, s.executed[i].result, encodings[i], reply)
    else Rejects(msg, reply) && RunsFor(s, t, n) == {}
  }

  lemma ReplyExact<S, Q, R>(c: Config<S, Q, R>, init: S, steps: seq<Step<Q>>, s: State<S, Q, R>,
                                              t: Tid, n: nat)
    requires Reached(c, init, steps, s) && t in s.conns && n < |s.conns[t].log|
    ensures n < |s.conns[t].received| && n < |FullAtAsking(c, init, steps, t)|
    ensures ReplyIs(c, init, s, Encodings(steps), t, n, FullAtAsking(c, init, steps, t)[n],
                    s.conns[t].received[n], s.conns[t].log[n].reply)
  {
    RepliesRight(c, init, steps, s, t, n);
    BusyExactly(c, init, steps, s, t, n);
    RunFits(c, init, steps, s, t);
    ReachedInv(c, init, steps, s);
    var x := s.conns[t].log[n];
    assert Fits(s.executed, Encodings(steps), x.msg, x.reply, x.exec);
    assert ThreadJustified(s, t);
    assert Justified(s.executed, t, n, x.msg, x.reply, x.exec);
    if x.exec.Some? {
      assert x.exec.value in RunsFor(s, t, n);
      assert RunOf(c, init, s, x.exec.value, x.msg);
    }
  }

  /******* Threads *******/

  /** The messages that a thread took in, and for each of its replies whether it was delivered. */
  function TakenIn<Q>(steps: seq<Step<Q>>, t: Tid): seq<Message<Q>> {
    if steps == [] then []
    else TakenIn(Init(steps), t) + if Last(steps).Receive? && Last(steps).t == t then [Last(steps).msg] else []
  }

  function Deliveries<Q>(steps: seq<Step<Q>>, t: Tid): seq<bool> {
    if steps == [] then []
    else Deliveries(Init(steps), t) + if Last(steps).Send? && Last(steps).t == t then [Last(steps).delivered] else []
  }

  // What a step of the thread itself adds to its conversation.
  lemma OwnConversation<S, Q, R>(c: Config<S, Q, R>, s: State<S, Q, R>, step: Step<Q>)
    requires Enabled(s, step)
    ensures var conn := Apply(c, s, step).conns[step.t];
            if step.Accept? then conn.received == [] && conn.log == []
            else
              && conn.received == s.conns[step.t].received + (if step.Receive? then [step.msg] else [])
              && if step.Send? then conn.log != [] && Init(conn.log) == s.conns[step.t].log
                                    && Last(conn.log).delivered == step.delivered
                 else conn.log == s.conns[step.t].log
  {
  }

  lemma {:induction false} ConversationExact<S, Q, R>(
    c: Config<S, Q, R>, init: S, steps: seq<Step<Q>>, s: State<S, Q, R>, t: Tid)
    requires Reached(c, init, steps, s)
    ensures t in s.conns ==>
              && s.conns[t].received == TakenIn(steps, t)
              && |s.conns[t].log| == |Deliveries(steps, t)|
              && forall n :: 0 <= n < |s.conns[t].log| ==> s.conns[t].log[n].delivered == Deliveries(steps, t)[n]
    ensures t !in s.conns ==> TakenIn(steps, t) == [] && Deliveries(steps, t) == []
  {
    if steps != [] {
      var before := RpcServer.Run(c, init, Init(steps)).value;
      ConversationExact(c, init, Init(steps), before, t);
      if t == Last(steps).t {
        OwnConversation(c, before, Last(steps));
      } else {
        OthersStay(c, before, Last(steps), t);
      }
    }
  }

  /** The last step of a thread. */
  function LastOf<Q>(steps: seq<Step<Q>>, t: Tid): Option<Step<Q>> {
    if steps == [] then None else if Last(steps).t == t then Some(Last(steps)) else LastOf(Init(steps), t)
  }

  /** Where a thread stands after its last step.  A refusal that could not be sent ends it; any other
      reply that could not be sent does not. */
  ghost predicate StandsAfter<S, Q, R>(step: Step<Q>, conn: Conn<S, Q, R>) {
    match step
    case Accept(_) => conn.at.Idle?
    case Receive(_, msg) => conn.at == Got(msg)
    case Hangup(_) => conn.at.Gone?
    case Acquire(_) => conn.at.Refused? || conn.at.Admitted?
    case Reject(_) => conn.at.Answered?
    case Lock(_) => conn.at.Working?
    case Handle(_, _) => conn.at.Answered?
    case Release(_) => conn.at.Sending?
    case Crash(_) => conn.at.Died?
    case Send(_, delivered) =>
      conn.log != [] && if delivered || !IsBusy(Last(conn.log).reply) then conn.at.Idle? else conn.at.Gone?
  }

  lemma StandsAfterStep<S, Q, R>(c: Config<S, Q, R>, s: State<S, Q, R>, step: Step<Q>, full: seq<bool>)
    requires Enabled(s, step) && (step.t in s.conns ==> Agrees(s.conns[step.t], full))
    ensures step.t in Apply(c, s, step).conns && StandsAfter(step, Apply(c, s, step).conns[step.t])
  {
  }

  lemma {:induction false} StandsExactly<S, Q, R>(
    c: Config<S, Q, R>, init: S, steps: seq<Step<Q>>, s: State<S, Q, R>, t: Tid)
    requires Reached(c, init, steps, s)
    ensures t in s.conns <==> LastOf(steps, t).Some?
    ensures t in s.conns ==> StandsAfter(LastOf(steps, t).value, s.conns[t])
  {
    if steps != [] {
      var before := RpcServer.Run(c, init, Init(steps)).value;
      StandsExactly(c, init, Init(steps), before, t);
      if t == Last(steps).t {
        RunAgrees(c, init, Init(steps), before, t);
        StandsAfterStep(c, before, Last(steps), FullAtAsking(c, init, Init(steps), t));
      } else {
        OthersStay(c, before, Last(steps), t);
      }
    }
  }

  /** What clients and the surroundings do is never prevented: connecting, sending a message to a
      waiting thread or leaving it, a result that cannot be encoded or made into a response, and a
      reply that cannot be sent. */
  lemma NothingPrevented<S, Q, R>(c: Config<S, Q, R>, init: S, steps: seq<Step<Q>>, s: State<S, Q, R>, t: Tid)
    requires Reached(c, init, steps, s)
    ensures Enabled(s, Accept(t)) <==> t !in s.conns
    ensures forall msg :: Enabled(s, Receive(t, msg)) <==> t in s.conns && s.conns[t].at.Idle?
    ensures Enabled(s, Hangup(t)) <==> t in s.conns && s.conns[t].at.Idle?
    ensures forall b :: Enabled(s, Handle(t, b)) <==> t in s.conns && s.conns[t].at.Working?
    ensures Enabled(s, Crash(t)) <==> t in s.conns && s.conns[t].at.Answered?
    ensures forall b :: Enabled(s, Send(t, b)) <==> t in s.conns && (s.conns[t].at.Refused? || s.conns[t].at.Sending?)
  {
    ReachedLock(c, init, steps, s);
  }
}
