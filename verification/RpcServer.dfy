/** The database server: one thread per connection, a non-blocking semaphore that bounds the
    dispatches under way, and one lock around the handlers.  A run is any interleaving of the
    steps of all threads. */
module RpcServer {
  import opened Common

  type Tid = nat

  // What a call can be rejected for before its handler runs.
  datatype Fault = SchemaUnsupported | OpNotFound | InvalidPayload

  // What a received message turns out to be.
  datatype Message<Q> = Oversized | Garbled | Call(rid: string, fault: Option<Fault>, request: Q)

  // An error without a request id carries a fresh one made by the server.
  datatype Reply<R> = Error(about: Option<string>, code: string) | Ok(rid: string, payload: R)

  // How a handler ends: with a result, by a validation error, or by another exception.
  datatype Ran<R> = Yields(value: R) | Invalidates | Raises

  /** A handler run: for message number `n` of thread `tid`, which carried the request id `rid`. */
  datatype Done<Q, R> = Done(tid: Tid, n: nat, rid: string, request: Q, result: Ran<R>)

  /** A message with its reply; `exec` is the place of its handler run, if there was one. */
  datatype Exchange<Q, R> = Exchange(msg: Message<Q>, reply: Reply<R>, exec: Option<nat>, delivered: bool)

  datatype Thread<S, Q, R> =
    | Idle
    | Got(msg: Message<Q>)
    | Refused(msg: Message<Q>)
    | Admitted(msg: Message<Q>)
    | Working(msg: Message<Q>, snapshot: S)
    | Answered(msg: Message<Q>, reply: Reply<R>, exec: Option<nat>)
    | Sending(msg: Message<Q>, reply: Reply<R>, exec: Option<nat>)
    | Gone
    | Died(msg: Message<Q>, reply: Reply<R>, exec: Option<nat>)

  datatype Config<!S, !Q, R> = Config(maxInflight: nat, handler: (S, Q) -> (S, Ran<R>))

  // A connection: where its thread is, the messages taken in and the exchanges completed.
  datatype Conn<S, Q, R> = Conn(at: Thread<S, Q, R>, received: seq<Message<Q>>, log: seq<Exchange<Q, R>>)

  datatype State<S, Q, R> = State(
    permits: nat,
    lock: Option<Tid>,
    store: S,
    conns: map<Tid, Conn<S, Q, R>>,
    executed: seq<Done<Q, R>>)

  datatype Step<Q> =
    | Accept(t: Tid)
    | Receive(t: Tid, msg: Message<Q>)
    | Hangup(t: Tid)
    | Acquire(t: Tid)
    | Reject(t: Tid)
    | Lock(t: Tid)
    | Handle(t: Tid, encodes: bool)
    | Release(t: Tid)
    | Crash(t: Tid)
    | Send(t: Tid, delivered: bool)

  predicate Rejected<Q>(m: Message<Q>) {
    m.Oversized? || m.Garbled? || m.fault.Some?
  }

  function Code(fault: Fault): string {
    match fault
    case SchemaUnsupported => "SCHEMA_UNSUPPORTED"
    case OpNotFound => "OP_NOT_FOUND"
    case InvalidPayload => "VALIDATION_ERROR"
  }

  function Rejection<Q, R>(m: Message<Q>): Reply<R>
    requires Rejected(m)
  {
    match m
    case Oversized => Error(None, "MESSAGE_TOO_LARGE")
    case Garbled => Error(None, "VALIDATION_ERROR")
    case Call(rid, fault, _) => Error(Some(rid), Code(fault.value))
  }

  function Result<R>(rid: string, result: Ran<R>, encodes: bool): Reply<R> {
    if result.Yields? && encodes then Ok(rid, result.value)
    else Error(Some(rid), if result.Invalidates? then "VALIDATION_ERROR" else "SERVER_ERROR")
  }

  /******* Steps *******/

  predicate Enabled<S, Q, R>(s: State<S, Q, R>, step: Step<Q>) {
    if step.Accept? then step.t !in s.conns
    else
      step.t in s.conns &&
      var th := s.conns[step.t].at;
      match step
      case Receive(_, _) => th.Idle?
      case Hangup(_) => th.Idle?
      case Acquire(_) => th.Got?
      case Reject(_) => th.Admitted? && Rejected(th.msg)
      case Lock(_) => th.Admitted? && !Rejected(th.msg) && s.lock.None?
      case Handle(_, _) => th.Working? && th.msg.Call?
      case Release(_) => th.Answered?
      case Crash(_) => th.Answered?
      case Send(_, _) => th.Refused? || th.Sending?
  }

  // The thread of a connection moves on.
  function To<S, Q, R>(s: State<S, Q, R>, t: Tid, th: Thread<S, Q, R>): State<S, Q, R>
    requires t in s.conns
  {
    s.(conns := s.conns[t := s.conns[t].(at := th)])
  }

  // The thread has sent its reply, or failed to.
  function Replied<S, Q, R>(s: State<S, Q, R>, t: Tid, th: Thread<S, Q, R>, x: Exchange<Q, R>): State<S, Q, R>
    requires t in s.conns
  {
    s.(conns := s.conns[t := s.conns[t].(at := th, log := s.conns[t].log + [x])])
  }

  function Apply<S, Q, R>(c: Config<S, Q, R>, s: State<S, Q, R>, step: Step<Q>): State<S, Q, R>
    requires Enabled(s, step)
  {
    var t := step.t;
    match step
    case Accept(_) => s.(conns := s.conns[t := Conn(Idle, [], [])])
    case Receive(_, msg) =>
      s.(conns := s.conns[t := s.conns[t].(at := Got(msg), received := s.conns[t].received + [msg])])
    case Hangup(_) => To(s, t, Gone)
    case Acquire(_) =>
      var msg := s.conns[t].at.msg;
      if s.permits > 0 then To(s, t, Admitted(msg)).(permits := s.permits - 1) else To(s, t, Refused(msg))
    case Reject(_) =>
      var msg := s.conns[t].at.msg;
      To(s, t, Answered(msg, Rejection(msg), None))
    case Lock(_) => To(s, t, Working(s.conns[t].at.msg, s.store)).(lock := Some(t))
    case Handle(_, encodes) =>
      var Working(msg, snapshot) := s.conns[t].at;
      var (store, result) := c.handler(snapshot, msg.request);
      To(s, t, Answered(msg, Result(msg.rid, result, encodes), Some(|s.executed|)))
        .(store := store, lock := None,
          executed := s.executed + [Done(t, |s.conns[t].log|, msg.rid, msg.request, result)])
    case Release(_) =>
      var Answered(msg, reply, exec) := s.conns[t].at;
      To(s, t, Sending(msg, reply, exec)).(permits := s.permits + 1)
    case Crash(_) =>
      // Building the response raises: the permit goes back, and the thread ends without a reply.
      var Answered(msg, reply, exec) := s.conns[t].at;
      To(s, t, Died(msg, reply, exec)).(permits := s.permits + 1)
    case Send(_, delivered) =>
      // A busy reply that cannot be sent ends the thread; any other failure to send is suppressed.
      var th := s.conns[t].at;
      if th.Refused? then
        Replied(s, t, if delivered then Idle else Gone, Exchange(th.msg, Error(None, "BUSY"), None, delivered))
      else
        Replied(s, t, Idle, Exchange(th.msg, th.reply, th.exec, delivered))
  }

  // A step leaves the other threads where they are.
  lemma OthersStay<S, Q, R>(c: Config<S, Q, R>, s: State<S, Q, R>, step: Step<Q>, t: Tid)
    requires Enabled(s, step) && t != step.t
    ensures t in Apply(c, s, step).conns <==> t in s.conns
    ensures t in s.conns ==> Apply(c, s, step).conns[t] == s.conns[t]
  {
  }

  /******* Permits *******/

  predicate HoldsPermit<S, Q, R>(th: Thread<S, Q, R>) {
    th.Admitted? || th.Working? || th.Answered?
  }

  ghost function Running<S, Q, R>(s: State<S, Q, R>): set<Tid> {
    set t | t in s.conns && HoldsPermit(s.conns[t].at)
  }

  ghost predicate PermitsOk<S, Q, R>(c: Config<S, Q, R>, s: State<S, Q, R>) {
    s.permits + |Running(s)| == c.maxInflight
  }

  /******* The lock *******/

  ghost predicate LockOk<S, Q, R>(s: State<S, Q, R>) {
    && (forall t :: t in s.conns && s.conns[t].at.Working? ==>
          s.lock == Some(t) && s.conns[t].at.snapshot == s.store && !Rejected(s.conns[t].at.msg))
    && (s.lock.Some? ==> s.lock.value in s.conns && s.conns[s.lock.value].at.Working?)
  }

  /******* Serial equivalence *******/

  ghost function StoreAfter<S, Q, R>(c: Config<S, Q, R>, init: S, executed: seq<Done<Q, R>>): S {
    if executed == [] then init else c.handler(StoreAfter(c, init, Init(executed)), Last(executed).request).0
  }

  /** The store, and every result, are those of running the handlers one after another in the order
      in which they took the lock. */
  ghost predicate SerialOk<S, Q, R>(c: Config<S, Q, R>, init: S, s: State<S, Q, R>) {
    && s.store == StoreAfter(c, init, s.executed)
    && forall i :: 0 <= i < |s.executed| ==>
         s.executed[i].result == c.handler(StoreAfter(c, init, s.executed[..i]), s.executed[i].request).1
  }

  /******* Replies *******/

  function Pending<S, Q, R>(th: Thread<S, Q, R>): seq<Message<Q>> {
    if th.Idle? || th.Gone? then [] else [th.msg]
  }

  function MessagesOf<Q, R>(log: seq<Exchange<Q, R>>): seq<Message<Q>> {
    seq(|log|, i requires 0 <= i < |log| => log[i].msg)
  }

  /** Every received message has had its one reply, except the one a thread is at or has died at. */
  ghost predicate OneReplyEach<S, Q, R>(s: State<S, Q, R>) {
    forall t :: t in s.conns ==>
      s.conns[t].received == MessagesOf(s.conns[t].log) + Pending(s.conns[t].at)
  }

  /** A reply is right: without a handler run it is BUSY or the rejection of the message; with one it
      reports that very run under the request's id. */
  ghost predicate Justified<Q, R>(executed: seq<Done<Q, R>>, t: Tid, n: nat,
                                  msg: Message<Q>, reply: Reply<R>, exec: Option<nat>)
  {
    match exec
    case None => reply == Error(None, "BUSY") || (Rejected(msg) && reply == Rejection(msg))
    case Some(i) =>
      && i < |executed| && executed[i].tid == t && executed[i].n == n
      && !Rejected(msg) && executed[i].rid == msg.rid && executed[i].request == msg.request
      && (reply == Result(msg.rid, executed[i].result, true) || reply == Result(msg.rid, executed[i].result, false))
  }

  ghost predicate ThreadJustified<S, Q, R>(s: State<S, Q, R>, t: Tid)
    requires t in s.conns
  {
    var th := s.conns[t].at;
    && (forall n :: 0 <= n < |s.conns[t].log| ==>
          Justified(s.executed, t, n, s.conns[t].log[n].msg, s.conns[t].log[n].reply, s.conns[t].log[n].exec))
    && (th.Answered? || th.Sending? || th.Died? ==>
          Justified(s.executed, t, |s.conns[t].log|, th.msg, th.reply, th.exec))
  }

  /** Every handler run belongs to exactly the exchange that names it, completed or under way. */
  ghost predicate Claimed<S, Q, R>(s: State<S, Q, R>, i: nat)
    requires i < |s.executed|
  {
    var t, n := s.executed[i].tid, s.executed[i].n;
    && t in s.conns
    && (|| (n < |s.conns[t].log| && s.conns[t].log[n].exec == Some(i))
        || (n == |s.conns[t].log| && (s.conns[t].at.Answered? || s.conns[t].at.Sending? || s.conns[t].at.Died?)
            && s.conns[t].at.exec == Some(i)))
  }

  ghost predicate RepliesOk<S, Q, R>(s: State<S, Q, R>) {
    && OneReplyEach(s)
    && (forall t :: t in s.conns ==> ThreadJustified(s, t))
    && (forall i :: 0 <= i < |s.executed| ==> Claimed(s, i))
  }

  /******* All together *******/

  ghost predicate Inv<S, Q, R>(c: Config<S, Q, R>, init: S, s: State<S, Q, R>) {
    PermitsOk(c, s) && LockOk(s) && SerialOk(c, init, s) && RepliesOk(s)
  }

  lemma RunningAfter<S, Q, R>(c: Config<S, Q, R>, s: State<S, Q, R>, step: Step<Q>)
    requires Enabled(s, step)
    ensures var s', t := Apply(c, s, step), step.t;
            Running(s') == if HoldsPermit(s'.conns[t].at) then Running(s) + {t} else Running(s) - {t}
  {
  }

  lemma PermitChange<S, Q, R>(c: Config<S, Q, R>, s: State<S, Q, R>, step: Step<Q>)
    requires Enabled(s, step)
    ensures var s', t := Apply(c, s, step), step.t;
            s'.permits == s.permits + One(t in Running(s)) - One(HoldsPermit(s'.conns[t].at))
  {
  }

  lemma PermitsKeep<S, Q, R>(c: Config<S, Q, R>, s: State<S, Q, R>, step: Step<Q>)
    requires LockOk(s) && Enabled(s, step) && PermitsOk(c, s)
    ensures PermitsOk(c, Apply(c, s, step))
  {
    RunningAfter(c, s, step);
    PermitChange(c, s, step);
    SizeWithMember(Running(s), step.t, HoldsPermit(Apply(c, s, step).conns[step.t].at));
  }

  lemma LockKeep<S, Q, R>(c: Config<S, Q, R>, s: State<S, Q, R>, step: Step<Q>)
    requires LockOk(s) && Enabled(s, step)
    ensures LockOk(Apply(c, s, step))
  {
  }

  lemma SerialKeep<S, Q, R>(c: Config<S, Q, R>, init: S, s: State<S, Q, R>, step: Step<Q>)
    requires LockOk(s) && Enabled(s, step) && SerialOk(c, init, s)
    ensures SerialOk(c, init, Apply(c, s, step))
  {
    if step.Handle? {
      var s' := Apply(c, s, step);
      var n := |s.executed|;
      assert Init(s'.executed) == s.executed == s'.executed[..n];
      assert s.conns[step.t].at.snapshot == s.store;
      forall i | 0 <= i < |s'.executed|
        ensures s'.executed[i].result == c.handler(StoreAfter(c, init, s'.executed[..i]), s'.executed[i].request).1
      {
        if i < n {
          assert s'.executed[..i] == s.executed[..i];
        }
      }
    }
  }

  lemma OneReplyKeep<S, Q, R>(c: Config<S, Q, R>, s: State<S, Q, R>, step: Step<Q>)
    requires LockOk(s) && Enabled(s, step) && OneReplyEach(s)
    ensures OneReplyEach(Apply(c, s, step))
  {
  }

  lemma JustifiedKeep<S, Q, R>(c: Config<S, Q, R>, s: State<S, Q, R>, step: Step<Q>, t: Tid)
    requires LockOk(s) && Enabled(s, step)
    requires t in Apply(c, s, step).conns && (t in s.conns ==> ThreadJustified(s, t))
    ensures ThreadJustified(Apply(c, s, step), t)
  {
    if t != step.t {
      OthersStay(c, s, step, t);
    }
  }

  lemma ClaimedKeep<S, Q, R>(c: Config<S, Q, R>, s: State<S, Q, R>, step: Step<Q>, i: nat)
    requires LockOk(s) && Enabled(s, step)
    requires i < |Apply(c, s, step).executed| && (i < |s.executed| ==> Claimed(s, i))
    ensures Claimed(Apply(c, s, step), i)
  {
    if i < |s.executed| && s.executed[i].tid != step.t {
      OthersStay(c, s, step, s.executed[i].tid);
    }
  }

  lemma RepliesKeep<S, Q, R>(c: Config<S, Q, R>, s: State<S, Q, R>, step: Step<Q>)
    requires LockOk(s) && Enabled(s, step) && RepliesOk(s)
    ensures RepliesOk(Apply(c, s, step))
  {
    var s' := Apply(c, s, step);
    OneReplyKeep(c, s, step);
    forall t | t in s'.conns
      ensures ThreadJustified(s', t)
    {
      JustifiedKeep(c, s, step, t);
    }
    forall i | 0 <= i < |s'.executed|
      ensures Claimed(s', i)
    {
      ClaimedKeep(c, s, step, i);
    }
  }

  /** Every step of every thread keeps the invariant. */
  lemma StepKeeps<S, Q, R>(c: Config<S, Q, R>, init: S, s: State<S, Q, R>, step: Step<Q>)
    requires Inv(c, init, s) && Enabled(s, step)
    ensures Inv(c, init, Apply(c, s, step))
  {
    PermitsKeep(c, s, step);
    LockKeep(c, s, step);
    SerialKeep(c, init, s, step);
    RepliesKeep(c, s, step);
  }

  /******* Runs *******/

  function Start<S, Q, R>(c: Config<S, Q, R>, init: S): State<S, Q, R> {
    State(c.maxInflight, None, init, map[], [])
  }

  // The state after the steps, taken in the given interleaving; None if some step is not possible.
  function Run<S, Q, R>(c: Config<S, Q, R>, init: S, steps: seq<Step<Q>>): Option<State<S, Q, R>> {
    if steps == [] then Some(Start(c, init))
    else
      var before := Run(c, init, Init(steps));
      if before.Some? && Enabled(before.value, Last(steps)) then Some(Apply(c, before.value, Last(steps))) else None
  }

  ghost predicate Reached<S, Q, R>(c: Config<S, Q, R>, init: S, steps: seq<Step<Q>>, s: State<S, Q, R>) {
    Run(c, init, steps) == Some(s)
  }

  lemma {:induction false} ReachedInv<S, Q, R>(c: Config<S, Q, R>, init: S, steps: seq<Step<Q>>, s: State<S, Q, R>)
    requires Reached(c, init, steps, s)
    ensures Inv(c, init, s)
  {
    if steps != [] {
      var before := Run(c, init, Init(steps)).value;
      ReachedInv(c, init, Init(steps), before);
      StepKeeps(c, init, before, Last(steps));
    } else {
      assert Running(s) == {};
    }
  }

  ghost predicate Quiet<S, Q, R>(s: State<S, Q, R>) {
    forall t :: t in s.conns ==> s.conns[t].at.Idle? || s.conns[t].at.Gone? || s.conns[t].at.Died?
  }

  /** At no moment do more dispatches run than allowed, no two handlers run at once, and when no
      thread is at a message all permits are back and the lock is free. */
  lemma InflightBounded<S, Q, R>(c: Config<S, Q, R>, init: S, steps: seq<Step<Q>>, s: State<S, Q, R>)
    requires Reached(c, init, steps, s)
    ensures |Running(s)| <= c.maxInflight
    ensures forall t, u ::
              t in s.conns && u in s.conns && s.conns[t].at.Working? && s.conns[u].at.Working? ==> t == u
    ensures Quiet(s) ==> s.permits == c.maxInflight && s.lock.None?
  {
    ReachedInv(c, init, steps, s);
    if Quiet(s) {
      assert Running(s) == {};
    }
  }

  /** The store is that of a sequential run in lock order. */
  lemma StoreSerial<S, Q, R>(c: Config<S, Q, R>, init: S, steps: seq<Step<Q>>, s: State<S, Q, R>)
    requires Reached(c, init, steps, s)
    ensures SerialOk(c, init, s)
  {
    ReachedInv(c, init, steps, s);
  }

  // The handler runs for message `n` of thread `t`, by their places in lock order.
  ghost function RunsFor<S, Q, R>(s: State<S, Q, R>, t: Tid, n: nat): set<nat> {
    set i: nat | i < |s.executed| && s.executed[i].tid == t && s.executed[i].n == n
  }

  function IdOf<R>(reply: Reply<R>): Option<string> {
    if reply.Ok? then Some(reply.rid) else reply.about
  }

  /** A reply tells how a handler ended; a result that cannot be encoded counts as a failure. */
  predicate Reports<R(==)>(reply: Reply<R>, result: Ran<R>) {
    match reply
    case Ok(_, payload) => result == Yields(payload)
    case Error(_, code) => code == if result.Invalidates? then "VALIDATION_ERROR" else "SERVER_ERROR"
  }

  /** The handler run at place `i` is for the message, with the result of the sequential run. */
  ghost predicate RunOf<S, Q, R>(c: Config<S, Q, R>, init: S, s: State<S, Q, R>, i: nat, msg: Message<Q>)
    requires msg.Call?
  {
    && i < |s.executed| && s.executed[i].rid == msg.rid && s.executed[i].request == msg.request
    && s.executed[i].result == c.handler(StoreAfter(c, init, s.executed[..i]), msg.request).1
  }

  /** A reply without a request id goes with no handler run: it is BUSY, or the message was unreadable.
      Any other carries the id of its message; either it rejects the call, without a handler run, or it
      reports the one run there was. */
  ghost predicate RightReply<S, Q, R>(c: Config<S, Q, R>, init: S, s: State<S, Q, R>, t: Tid, n: nat,
                                      msg: Message<Q>, reply: Reply<R>)
  {
    match IdOf(reply)
    case None =>
      && RunsFor(s, t, n) == {}
      && (reply.code == "BUSY" || (!msg.Call? && reply == Rejection(msg)))
    case Some(rid) =>
      && msg.Call? && msg.rid == rid
      && if msg.fault.Some? then RunsFor(s, t, n) == {} && reply == Error(Some(rid), Code(msg.fault.value))
         else exists i :: RunsFor(s, t, n) == {i} && RunOf(c, init, s, i, msg) && Reports(reply, s.executed[i].result)
  }

  lemma JustifiedIsRight<S, Q, R>(c: Config<S, Q, R>, init: S, s: State<S, Q, R>, t: Tid, n: nat)
    requires Inv(c, init, s) && t in s.conns && n < |s.conns[t].log|
    ensures |RunsFor(s, t, n)| <= 1
    ensures RightReply(c, init, s, t, n, s.conns[t].log[n].msg, s.conns[t].log[n].reply)
  {
    var x := s.conns[t].log[n];
    assert ThreadJustified(s, t);
    assert Justified(s.executed, t, n, x.msg, x.reply, x.exec);
    forall i | i in RunsFor(s, t, n)
      ensures x.exec == Some(i)
    {
      assert Claimed(s, i);
    }
    if x.exec.Some? {
      assert RunsFor(s, t, n) == {x.exec.value};
      assert RunOf(c, init, s, x.exec.value, x.msg);
    } else {
      assert RunsFor(s, t, n) == {};
    }
  }

  /** The messages taken in are those replied to, in order, and at most one more; the n-th reply of a
      thread is the right one for its n-th message. */
  lemma RepliesRight<S, Q, R>(c: Config<S, Q, R>, init: S, steps: seq<Step<Q>>, s: State<S, Q, R>, t: Tid, n: nat)
    requires Reached(c, init, steps, s) && t in s.conns && n < |s.conns[t].log|
    ensures |s.conns[t].log| <= |s.conns[t].received| <= |s.conns[t].log| + 1
    ensures s.conns[t].log[n].msg == s.conns[t].received[n] && |RunsFor(s, t, n)| <= 1
    ensures RightReply(c, init, s, t, n, s.conns[t].received[n], s.conns[t].log[n].reply)
  {
    ReachedInv(c, init, steps, s);
    JustifiedIsRight(c, init, s, t, n);
    assert s.conns[t].received == MessagesOf(s.conns[t].log) + Pending(s.conns[t].at);
  }

  /** Every handler run is the only one for its message, which was taken in and carries its id. */
  lemma RunsBelong<S, Q, R>(c: Config<S, Q, R>, init: S, steps: seq<Step<Q>>, s: State<S, Q, R>, i: nat)
    requires Reached(c, init, steps, s) && i < |s.executed|
    ensures var t, n := s.executed[i].tid, s.executed[i].n;
            && RunsFor(s, t, n) == {i}
            && t in s.conns && n < |s.conns[t].received|
            && s.conns[t].received[n].Call? && s.conns[t].received[n].rid == s.executed[i].rid
            && s.conns[t].received[n].request == s.executed[i].request
  {
    ReachedInv(c, init, steps, s);
    var t, n := s.executed[i].tid, s.executed[i].n;
    assert Claimed(s, i) && ThreadJustified(s, t);
    assert s.conns[t].received == MessagesOf(s.conns[t].log) + Pending(s.conns[t].at);
    forall j | j in RunsFor(s, t, n)
      ensures j == i
    {
      assert Claimed(s, j);
    }
    assert i in RunsFor(s, t, n);
    if n < |s.conns[t].log| {
      assert Justified(s.executed, t, n, s.conns[t].log[n].msg, s.conns[t].log[n].reply, s.conns[t].log[n].exec);
    }
  }

  /******* Progress *******/

  predicate AtMessage<S, Q, R>(th: Thread<S, Q, R>) {
    !th.Idle? && !th.Gone? && !th.Died?
  }

  // The step of the thread itself, whether or not the lock lets it.
  function OwnStep<S, Q, R>(t: Tid, th: Thread<S, Q, R>): Step<Q>
    requires AtMessage(th)
  {
    match th
    case Got(_) => Acquire(t)
    case Admitted(msg) => if Rejected(msg) then Reject(t) else Lock(t)
    case Working(_, _) => Handle(t, true)
    case Answered(_, _, _) => Release(t)
    case _ => Send(t, true)
  }

  lemma ReachedLock<S, Q, R>(c: Config<S, Q, R>, init: S, steps: seq<Step<Q>>, s: State<S, Q, R>)
    requires Reached(c, init, steps, s)
    ensures LockOk(s)
  {
    ReachedInv(c, init, steps, s);
  }

  /** No deadlock: while any thread is at a message, it or the holder of the lock can go on, without
      waiting for a client. */
  lemma Progress<S, Q, R>(c: Config<S, Q, R>, init: S, steps: seq<Step<Q>>, s: State<S, Q, R>, t: Tid)
    returns (step: Step<Q>)
    requires Reached(c, init, steps, s) && t in s.conns && AtMessage(s.conns[t].at)
    ensures Enabled(s, step) && !step.Accept? && !step.Receive? && !step.Hangup? && !step.Crash?
    ensures step.t == t || (s.conns[t].at.Admitted? && s.lock == Some(step.t))
  {
    ReachedLock(c, init, steps, s);
    step := OwnStep(t, s.conns[t].at);
    if !Enabled(s, step) {
      step := Handle(s.lock.value, true);
    }
  }
}
