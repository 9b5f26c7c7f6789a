/** When the server turns a message away: exactly when as many dispatches are under way as it allows. */
module RpcAdmission {
  import opened Common
  import opened RpcServer

  // The threads between getting a permit and giving it back.
  ghost function Dispatching<S, Q, R>(s: State<S, Q, R>): set<Tid> {
    set t | t in s.conns && (s.conns[t].at.Admitted? || s.conns[t].at.Working? || s.conns[t].at.Answered?)
  }

  ghost predicate Full<S, Q, R>(c: Config<S, Q, R>, s: State<S, Q, R>) {
    |Dispatching(s)| == c.maxInflight
  }

  lemma PermitsTell<S, Q, R>(c: Config<S, Q, R>, s: State<S, Q, R>)
    requires PermitsOk(c, s)
    ensures Full(c, s) <==> s.permits == 0
  {
    assert Running(s) == Dispatching(s);
  }

  /** A thread that asks for a permit is refused if and only if the server is full; otherwise it is
      admitted with its message. */
  lemma AdmitsExactly<S, Q, R>(c: Config<S, Q, R>, init: S, steps: seq<Step<Q>>, s: State<S, Q, R>, t: Tid)
    requires Reached(c, init, steps, s) && t in s.conns && s.conns[t].at.Got?
    ensures Enabled(s, Acquire(t))
    ensures Apply(c, s, Acquire(t)).conns[t].at
         == if Full(c, s) then Refused(s.conns[t].at.msg) else Admitted(s.conns[t].at.msg)
  {
    ReachedInv(c, init, steps, s);
    PermitsTell(c, s);
  }

  /******* Over a run *******/

  /** Whether the server was full at each moment at which a message of the thread asked for a permit. */
  ghost function FullAtAsking<S, Q, R>(c: Config<S, Q, R>, init: S, steps: seq<Step<Q>>, t: Tid): seq<bool> {
    if steps == [] then []
    else
      var before := RpcServer.Run(c, init, Init(steps));
      FullAtAsking(c, init, Init(steps), t) +
      if Last(steps) == Acquire(t) && before.Some? then [Full(c, before.value)] else []
  }

  predicate IsBusy<R>(reply: Reply<R>) {
    reply.Error? && reply.code == "BUSY"
  }

  // Where the thread is agrees with what happened when its present message asked, if it has asked.
  ghost predicate AtAgrees<S, Q, R>(th: Thread<S, Q, R>, full: seq<bool>, n: nat) {
    if th.Idle? || th.Got? || th.Gone? then |full| == n
    else
      && |full| == n + 1 && (th.Refused? <==> full[n])
      && (th.Answered? || th.Sending? || th.Died? ==> !IsBusy(th.reply))
  }

  ghost predicate Agrees<S, Q, R>(conn: Conn<S, Q, R>, full: seq<bool>) {
    && |conn.log| <= |full|
    && (forall n :: 0 <= n < |conn.log| ==> (IsBusy(conn.log[n].reply) <==> full[n]))
    && AtAgrees(conn.at, full, |conn.log|)
  }

  lemma OwnAgrees<S, Q, R>(c: Config<S, Q, R>, s: State<S, Q, R>, step: Step<Q>, full: seq<bool>)
    requires PermitsOk(c, s) && Enabled(s, step)
    requires if step.t in s.conns then Agrees(s.conns[step.t], full) else full == []
    ensures var more := if step.Acquire? then [Full(c, s)] else [];
            Agrees(Apply(c, s, step).conns[step.t], full + more)
  {
    PermitsTell(c, s);
  }

  lemma {:induction false} RunAgrees<S, Q, R>(c: Config<S, Q, R>, init: S, steps: seq<Step<Q>>, s: State<S, Q, R>,
                                              t: Tid)
    requires Reached(c, init, steps, s)
    ensures if t in s.conns then Agrees(s.conns[t], FullAtAsking(c, init, steps, t))
            else FullAtAsking(c, init, steps, t) == []
  {
    if steps != [] {
      var before := RpcServer.Run(c, init, Init(steps)).value;
      var full := FullAtAsking(c, init, Init(steps), t);
      RunAgrees(c, init, Init(steps), before, t);
      assert full + [] == full;
      if t == Last(steps).t {
        ReachedInv(c, init, Init(steps), before);
        OwnAgrees(c, before, Last(steps), full);
      } else {
        OthersStay(c, before, Last(steps), t);
      }
    }
  }

  /** On every run, the n-th reply on a connection is BUSY if and only if the server was full when the
      n-th message asked for a permit. */
  lemma BusyExactly<S, Q, R>(c: Config<S, Q, R>, init: S, steps: seq<Step<Q>>, s: State<S, Q, R>, t: Tid, n: nat)
    requires Reached(c, init, steps, s) && t in s.conns && n < |s.conns[t].log|
    ensures n < |FullAtAsking(c, init, steps, t)|
    ensures IsBusy(s.conns[t].log[n].reply) <==> FullAtAsking(c, init, steps, t)[n]
  {
    RunAgrees(c, init, steps, s, t);
  }

  predicate Asks<Q>(step: Step<Q>, t: Tid) {
    step.Acquire? && step.t == t
  }

  function Asked<Q>(steps: seq<Step<Q>>, t: Tid): nat {
    if steps == [] then 0 else Asked(Init(steps), t) + One(Asks(Last(steps), t))
  }

  /** The moment at which the n-th message asked: the state before the (n + 1)-th asking step. */
  lemma {:induction false} AskingMoment<S, Q, R>(c: Config<S, Q, R>, init: S, steps: seq<Step<Q>>, s: State<S, Q, R>,
                                                 t: Tid, n: nat)
    returns (k: nat, before: State<S, Q, R>)
    requires Reached(c, init, steps, s) && n < |FullAtAsking(c, init, steps, t)|
    ensures k < |steps| && steps[k] == Acquire(t) && Asked(steps[..k], t) == n
    ensures Reached(c, init, steps[..k], before) && FullAtAsking(c, init, steps, t)[n] == Full(c, before)
  {
    var last := RpcServer.Run(c, init, Init(steps)).value;
    var full := FullAtAsking(c, init, Init(steps), t);
    AskedLength(c, init, Init(steps), last, t);
    if n < |full| {
      k, before := AskingMoment(c, init, Init(steps), last, t, n);
      assert Init(steps)[..k] == steps[..k];
    } else {
      k, before := |steps| - 1, last;
      assert steps[..k] == Init(steps);
    }
  }

  lemma {:induction false} AskedLength<S, Q, R>(c: Config<S, Q, R>, init: S, steps: seq<Step<Q>>, s: State<S, Q, R>,
                                                t: Tid)
    requires Reached(c, init, steps, s)
    ensures |FullAtAsking(c, init, steps, t)| == Asked(steps, t)
  {
    if steps != [] {
      AskedLength(c, init, Init(steps), RpcServer.Run(c, init, Init(steps)).value, t);
    }
  }

  /** In terms of the steps: a reply is BUSY exactly when, at the step at which its message asked for a
      permit, as many dispatches were under way as the server allows. */
  lemma BusyWhenFull<S, Q, R>(c: Config<S, Q, R>, init: S, steps: seq<Step<Q>>, s: State<S, Q, R>, t: Tid, n: nat)
    returns (k: nat, before: State<S, Q, R>)
    requires Reached(c, init, steps, s) && t in s.conns && n < |s.conns[t].log|
    ensures k < |steps| && steps[k] == Acquire(t) && Asked(steps[..k], t) == n && Reached(c, init, steps[..k], before)
    ensures s.conns[t].log[n].reply == Error(None, "BUSY") <==> |Dispatching(before)| == c.maxInflight
  {
    BusyExactly(c, init, steps, s, t, n);
    k, before := AskingMoment(c, init, steps, s, t, n);
    RepliesRight(c, init, steps, s, t, n);
  }
}
