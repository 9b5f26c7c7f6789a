/** The client side of the database RPC: one transport that connects, sends, waits, and gives up or tries
    again, against the server of RpcServer and whatever other clients it has. */
module RpcClient {
  import opened Common
  import opened RpcServer

  // Payloads are texts.
  type Response = Reply<string>

  // How connecting may end: with a connection, with an OS or end-of-file error, or unauthenticated.
  datatype Connecting = Connected | ConnectFails | AuthenticationFails

  // What the exchange on a connection may meet.
  datatype Fate =
    | SendFails(arrived: bool)
    | TimesOut
    | ReceiveFails
    | ReplyTooLarge
    | ReplyGarbled
    | ReplyOfOtherSchema
    | Answered

  // What one attempt meets: when it has to connect, and then on the connection.
  datatype Choice = Choice(connecting: Connecting, fate: Fate)

  predicate Uses<Q>(msg: Message<Q>, rid: string) {
    msg.Call? && msg.rid == rid
  }

  // The connections of this client, each with the messages sent on it so far.
  type Sent<Q> = map<Tid, seq<Message<Q>>>

  /** What the network lets the server do: a connection of this client delivers its messages in order,
      each once; one of another client never delivers an id that this client made. */
  predicate Allowed<S, Q(==)>(sent: Sent<Q>, ids: set<string>, s: State<S, Q, string>, step: Step<Q>) {
    step.Receive? && step.t in s.conns ==>
      if step.t in sent then
        var n := |s.conns[step.t].received|;
        n < |sent[step.t]| && step.msg == sent[step.t][n]
      else
        step.msg.Call? ==> step.msg.rid !in ids
  }

  /** Each connection of this client has delivered a first part of what was sent on it. */
  ghost predicate InOrder<S, Q>(sent: Sent<Q>, s: State<S, Q, string>) {
    forall t :: t in sent ==> t in s.conns && s.conns[t].received <= sent[t]
  }

  ghost predicate OwnIds<Q>(sent: Sent<Q>, ids: set<string>) {
    forall t, n :: t in sent && 0 <= n < |sent[t]| && sent[t][n].Call? ==> sent[t][n].rid in ids
  }

  /** No other client has sent the id. */
  ghost predicate Foreign<S, Q>(sent: Sent<Q>, s: State<S, Q, string>, rid: string) {
    forall t, n :: t in s.conns && t !in sent && 0 <= n < |s.conns[t].received| ==> !Uses(s.conns[t].received[n], rid)
  }

  ghost predicate Separate<S, Q>(sent: Sent<Q>, ids: set<string>, s: State<S, Q, string>) {
    InOrder(sent, s) && OwnIds(sent, ids) && forall rid :: rid in ids ==> Foreign(sent, s, rid)
  }

  lemma StepSeparate<S, Q>(c: Config<S, Q, string>, sent: Sent<Q>, ids: set<string>, s: State<S, Q, string>,
                           step: Step<Q>)
    requires Separate(sent, ids, s) && Enabled(s, step) && Allowed(sent, ids, s, step)
    ensures Separate(sent, ids, Apply(c, s, step))
  {
    var s' := Apply(c, s, step);
    forall t | t in sent
      ensures t in s'.conns && s'.conns[t].received <= sent[t]
    {
    }
    forall rid | rid in ids
      ensures Foreign(sent, s', rid)
    {
      assert Foreign(sent, s, rid);
    }
  }

  /** What a waiting thread can be given next: on a connection of this client exactly the first message
      sent on it that it has not had yet, and on any other whatever does not use one of this client's ids. */
  lemma DeliversExactly<S, Q>(c: Config<S, Q, string>, sent: Sent<Q>, ids: set<string>, s: State<S, Q, string>,
                              t: Tid, msg: Message<Q>)
    requires Separate(sent, ids, s) && t in s.conns && s.conns[t].at.Idle?
    ensures Enabled(s, Receive(t, msg)) && Allowed(sent, ids, s, Receive(t, msg)) <==>
            if t in sent then s.conns[t].received + [msg] <= sent[t]
            else forall rid :: rid in ids ==> !Uses(msg, rid)
  {
    if t in sent {
      var had := s.conns[t].received;
      assert had + [msg] <= sent[t] <==> |had| < |sent[t]| && sent[t][|had|] == msg;
    }
  }

  /******* Handler runs and messages sent *******/

  // The handler runs for messages with the id, by their places in lock order.
  ghost function RunsWith<S, Q>(s: State<S, Q, string>, rid: string): set<nat> {
    set i: nat | i < |s.executed| && s.executed[i].rid == rid
  }

  // The messages sent with the id, by connection and number.
  ghost function SentWith<Q>(sent: Sent<Q>, rid: string): set<(Tid, nat)> {
    set t, n: nat | t in sent && n < |sent[t]| && Uses(sent[t][n], rid) :: (t, n)
  }

  lemma {:induction false} InjectionBounds(runs: set<nat>, slots: set<(Tid, nat)>, f: nat -> (Tid, nat))
    requires forall i :: i in runs ==> f(i) in slots
    requires forall i, j :: i in runs && j in runs && f(i) == f(j) ==> i == j
    ensures |runs| <= |slots|
    decreases |runs|
  {
    if runs != {} {
      var i :| i in runs;
      InjectionBounds(runs - {i}, slots - {f(i)}, f);
    }
  }

  /** A message is handled at most once: the handlers of this client's ids run no more often than
      messages with the id were sent. */
  lemma HandledAtMostSent<S, Q>(c: Config<S, Q, string>, init: S, steps: seq<Step<Q>>, s: State<S, Q, string>,
                                sent: Sent<Q>, ids: set<string>, rid: string)
    requires Reached(c, init, steps, s) && Separate(sent, ids, s) && rid in ids
    ensures |RunsWith(s, rid)| <= |SentWith(sent, rid)|
  {
    var f := (i: nat) => if i < |s.executed| then (s.executed[i].tid, s.executed[i].n) else (0, 0);
    forall i | i in RunsWith(s, rid)
      ensures f(i) in SentWith(sent, rid) && RunsFor(s, f(i).0, f(i).1) == {i}
    {
      RunsBelong(c, init, steps, s, i);
      var t, n := s.executed[i].tid, s.executed[i].n;
      assert Uses(s.conns[t].received[n], rid);
      assert Foreign(sent, s, rid);
      assert s.conns[t].received[n] == sent[t][n];
    }
    InjectionBounds(RunsWith(s, rid), SentWith(sent, rid), f);
  }

  lemma {:induction false} UnusedTid(tids: set<Tid>) returns (t: Tid)
    ensures forall u :: u in tids ==> u < t
    decreases |tids|
  {
    if tids == {} {
      t := 0;
    } else {
      var u :| u in tids;
      var t' := UnusedTid(tids - {u});
      t := if u < t' then t' else u + 1;
      assert forall v :: v in tids ==> v == u || v in tids - {u};
    }
  }

  /** The world beyond the connection: the server, with the messages this client has sent to it and the
      ids it has made. */
  class Network<S, Q(==)> {
    const config: Config<S, Q, string>
    ghost const init: S
    var server: State<S, Q, string>
    var sent: Sent<Q>
    var ids: set<string>
    ghost var steps: seq<Step<Q>>

    ghost predicate Valid()
      reads this
    {
      Reached(config, init, steps, server) && Separate(sent, ids, server)
    }

    // Nobody has sent the id, as is to be expected of a random one.
    ghost predicate Unused(rid: string)
      reads this
    {
      rid !in ids && Foreign(sent, server, rid)
    }

    constructor (config: Config<S, Q, string>, init: S)
      ensures Valid() && sent == map[] && ids == {} && this.config == config && this.init == init
    {
      this.config, this.init := config, init;
      server, sent, ids, steps := Start(config, init), map[], {}, [];
    }

    method MakeId(rid: string)
      requires Valid() && Unused(rid)
      modifies `ids
      ensures Valid() && ids == old(ids) + {rid} && SentWith(sent, rid) == {}
    {
      assert SentWith(sent, rid) == {};
      ids := ids + {rid};
    }

    method TakeStep(step: Step<Q>)
      requires Valid() && Enabled(server, step) && Allowed(sent, ids, server, step)
      modifies `server, `steps
      ensures Valid() && server == Apply(config, old(server), step)
    {
      StepSeparate(config, sent, ids, server, step);
      assert Init(steps + [step]) == steps;
      server, steps := Apply(config, server, step), steps + [step];
    }

    // At any time the threads of the server may take any steps that they can.
    method Progress()
      requires Valid()
      modifies `server, `steps
      ensures Valid()
    {
      var wanted: seq<Step<Q>> := *;
      for i := 0 to |wanted|
        invariant Valid()
      {
        if Enabled(server, wanted[i]) && Allowed(sent, ids, server, wanted[i]) {
          TakeStep(wanted[i]);
        }
      }
    }

    // The server takes a connection in, and starts a thread for it.
    method Accept() returns (t: Tid)
      requires Valid()
      modifies `server, `steps, `sent
      ensures Valid() && t !in old(sent) && sent == old(sent)[t := []]
      ensures forall rid :: SentWith(sent, rid) == SentWith(old(sent), rid)
    {
      ghost var unused := UnusedTid(server.conns.Keys);
      assert unused !in server.conns.Keys;
      t :| t !in server.conns;
      TakeStep(RpcServer.Step.Accept(t));
      sent := sent[t := []];
      assert forall rid :: SentWith(sent, rid) == SentWith(old(sent), rid);
    }

    method Send(t: Tid, msg: Message<Q>)
      requires Valid() && t in sent && (msg.Call? ==> msg.rid in ids)
      modifies `sent
      ensures Valid() && sent == old(sent)[t := old(sent)[t] + [msg]]
    {
      sent := sent[t := sent[t] + [msg]];
    }
  }

  /******* The transport *******/

  // A connection, with the number of the server's replies on it that have gone by.
  datatype Connection = Connection(tid: Tid, taken: nat)

  datatype Outcome =
    | Returned(response: Response)
    | TooLarge            // the request itself
    | Unexpected          // a reply that is too large, of another schema or under another id
    | Unauthenticated
    | Exhausted           // all attempts failed

  /** The exchange ends with the connection closed, whatever the server does. */
  ghost predicate Closes(fate: Fate) {
    fate.SendFails? || fate.TimesOut? || fate.ReceiveFails? || fate.ReplyGarbled?
  }

  /** What a reply amounts to: it is returned if it is well-formed and under the id of the request. */
  ghost function Judge(fate: Fate, rid: string, reply: Response): Outcome {
    if fate.ReplyTooLarge? || fate.ReplyOfOtherSchema? || IdOf(reply) != Some(rid) then Unexpected else Returned(reply)
  }

  ghost predicate Reaches(open: bool, choice: Choice) {
    open || choice.connecting.Connected?
  }

  ghost predicate Delivers(open: bool, choice: Choice) {
    Reaches(open, choice) && choice.fate != SendFails(false)
  }

  // How often attempts deliver the request; only the first can find the connection open.
  ghost function Deliveries(open: bool, choices: seq<Choice>): nat {
    if choices == [] then 0
    else Deliveries(open, Init(choices)) + One(Delivers(open && |choices| == 1, Last(choices)))
  }

  lemma {:induction false} DeliveriesBounded(open: bool, choices: seq<Choice>)
    ensures Deliveries(open, choices) <= |choices|
  {
    if choices != [] {
      DeliveriesBounded(open, Init(choices));
    }
  }

  /** What `recv` yields: the next reply that the server managed to send. */
  function NextReply<Q>(log: seq<Exchange<Q, string>>, from: nat): (next: Option<nat>)
    ensures next.Some? ==> from <= next.value < |log| && log[next.value].delivered
    ensures forall k :: from <= k < (if next.Some? then next.value else |log|) ==> !log[k].delivered
    decreases |log| - from
  {
    if from >= |log| then None
    else if log[from].delivered then Some(from)
    else NextReply(log, from + 1)
  }

  /** A reply tells what became of a call: it names the reason for which the server rejects the call, or
      reports a handler run for it, whose result is that of the sequential run. */
  ghost predicate Truthful<S, Q>(c: Config<S, Q, string>, init: S, s: State<S, Q, string>, msg: Message<Q>,
                                 reply: Response)
  {
    && msg.Call? && IdOf(reply) == Some(msg.rid)
    && if msg.fault.Some? then reply == Error(Some(msg.rid), Code(msg.fault.value))
       else exists i: nat :: RunOf(c, init, s, i, msg) && Reports(reply, s.executed[i].result)
  }

  /** The reply to the last message of a connection, if it carries that message's id. */
  lemma LastReplyTruthful<S, Q>(c: Config<S, Q, string>, init: S, steps: seq<Step<Q>>, s: State<S, Q, string>,
                                sent: Sent<Q>, t: Tid, n: nat, rid: string)
    requires Reached(c, init, steps, s) && InOrder(sent, s) && t in sent && n + 1 >= |sent[t]| && n < |s.conns[t].log|
    ensures n + 1 == |sent[t]|
    ensures var reply := s.conns[t].log[n].reply;
            IdOf(reply) == Some(rid) ==> Uses(sent[t][n], rid) && Truthful(c, init, s, sent[t][n], reply)
  {
    RepliesRight(c, init, steps, s, t, n);
    assert s.conns[t].received[n] == sent[t][n];
  }

  lemma OneMoreSentWith<Q>(sent: Sent<Q>, t: Tid, msg: Message<Q>, rid: string)
    requires t in sent && (msg.Call? ==> msg.rid == rid)
    ensures var sent' := sent[t := sent[t] + [msg]];
            && |SentWith(sent', rid)| == |SentWith(sent, rid)| + One(msg.Call?)
            && forall x :: x != rid ==> SentWith(sent', x) == SentWith(sent, x)
  {
    var sent' := sent[t := sent[t] + [msg]];
    if msg.Call? {
      assert SentWith(sent', rid) == SentWith(sent, rid) + {(t, |sent[t]|)};
    } else {
      assert SentWith(sent', rid) == SentWith(sent, rid);
    }
    assert forall x :: x != rid ==> SentWith(sent', x) == SentWith(sent, x);
  }

  class Transport<S, Q(==)> {
    const network: Network<S, Q>
    const maxMessageBytes: nat
    var connection: Option<Connection>

    /** No reply is on its way that a later call could take for its own. */
    ghost predicate Clean()
      reads this, network
    {
      connection.Some? ==>
        connection.value.tid in network.sent && connection.value.taken == |network.sent[connection.value.tid]|
    }

    constructor (network: Network<S, Q>, maxMessageBytes: nat)
      ensures Clean() && this.network == network && this.maxMessageBytes == maxMessageBytes && connection == None
    {
      this.network, this.maxMessageBytes := network, maxMessageBytes;
      connection := None;
    }

    /** The last reply that came on the connection. */
    ghost predicate LastReplyIs(reply: Response)
      reads this, network
    {
      && connection.Some? && connection.value.tid in network.server.conns
      && var log := network.server.conns[connection.value.tid].log;
         0 < connection.value.taken <= |log| && log[connection.value.taken - 1].delivered
         && reply == log[connection.value.taken - 1].reply
    }

    method Connect(connecting0: Connecting) returns (connecting: Connecting)
      requires network.Valid() && Clean()
      modifies `connection, network
      ensures network.Valid() && Clean() && network.ids == old(network.ids)
      ensures forall rid :: SentWith(network.sent, rid) == SentWith(old(network.sent), rid)
      ensures old(connection).Some? ==> connecting.Connected? && connection == old(connection)
      ensures old(connection).None? ==> connecting == connecting0 && (connecting.Connected? <==> connection.Some?)
      ensures old(connection).None? && connection.Some? ==>
                && connection.value.tid !in old(network.sent)
                && network.sent == old(network.sent)[connection.value.tid := []]
      ensures old(connection).Some? || connection.None? ==> network.sent == old(network.sent)
    {
      if connection.Some? {
        return Connected;
      }
      connecting := connecting0;
      if connecting.Connected? {
        var t := network.Accept();
        connection := Some(Connection(t, 0));
      }
    }

    method Close()
      modifies `connection
      ensures connection == None
    {
      if connection.None? {
        return;
      }
      connection := None;
    }

    // Takes the next reply on the connection, if it comes and comes in one piece.
    method Take(rid: string, msg: Message<Q>, fate: Fate) returns (outcome: Option<Outcome>)
      requires network.Valid() && connection.Some?
      requires connection.value.tid in network.sent
      requires network.sent[connection.value.tid] != [] && Last(network.sent[connection.value.tid]) == msg
      requires connection.value.taken + 1 == |network.sent[connection.value.tid]|
      modifies `connection
      ensures Clean() && (outcome.None? <==> connection == None)
      ensures var t, taken := old(connection).value.tid, old(connection).value.taken;
              && t in network.server.conns
              && (outcome.None? <==> Closes(fate) || NextReply(network.server.conns[t].log, taken).None?)
              && (outcome.Some? ==> connection.value.tid == t)
      ensures outcome.Some? ==> exists reply :: LastReplyIs(reply) && outcome.value == Judge(fate, rid, reply)
      ensures outcome.Some? && outcome.value.Returned? ==>
                && IdOf(outcome.value.response) == Some(rid)
                && Truthful(network.config, network.init, network.server, msg, outcome.value.response)
    {
      var t, taken := connection.value.tid, connection.value.taken;
      var next := NextReply(network.server.conns[t].log, taken);
      if fate.SendFails? || fate.TimesOut? || fate.ReceiveFails? || fate.ReplyGarbled? || next.None? {
        Close();
        return None;
      }
      LastReplyTruthful(network.config, network.init, network.steps, network.server, network.sent, t, next.value, rid);
      var reply := network.server.conns[t].log[next.value].reply;
      connection := Some(Connection(t, next.value + 1));
      assert LastReplyIs(reply);
      if fate.ReplyTooLarge? || fate.ReplyOfOtherSchema? || IdOf(reply) != Some(rid) {
        return Some(Unexpected);
      }
      outcome := Some(Returned(reply));
    }

    // Sends on the open connection and waits for the reply; None means that the retry loop goes on.
    method SendAndReceive(rid: string, msg: Message<Q>, fate: Fate) returns (outcome: Option<Outcome>)
      requires network.Valid() && Clean() && rid in network.ids && (msg.Call? ==> msg.rid == rid) && connection.Some?
      modifies `connection, network
      ensures network.Valid() && Clean() && network.ids == old(network.ids)
      ensures network.sent == if fate == SendFails(false) then old(network.sent)
                              else old(network.sent)[old(connection).value.tid :=
                                                       old(network.sent)[old(connection).value.tid] + [msg]]
      ensures var t, taken := old(connection).value.tid, old(connection).value.taken;
              && t in network.server.conns
              && (outcome.None? <==> Closes(fate) || NextReply(network.server.conns[t].log, taken).None?)
              && (outcome.Some? ==> connection.Some? && connection.value.tid == t)
      ensures outcome.None? ==> connection == None
      ensures outcome.Some? ==> exists reply :: LastReplyIs(reply) && outcome.value == Judge(fate, rid, reply)
      ensures outcome.Some? && outcome.value.Returned? ==>
                && IdOf(outcome.value.response) == Some(rid)
                && Truthful(network.config, network.init, network.server, msg, outcome.value.response)
    {
      var t, taken := connection.value.tid, connection.value.taken;
      if fate.SendFails? && !fate.arrived {
        Close();
        return None;
      }
      network.Send(t, msg);
      network.Progress();
      outcome := Take(rid, msg, fate);
    }

    // One pass through the body of the retry loop; None means that the loop goes on.  `msg` is what the
    // server makes of the bytes of the request.
    method Attempt(rid: string, msg: Message<Q>, choice: Choice) returns (outcome: Option<Outcome>)
      requires network.Valid() && Clean() && rid in network.ids && (msg.Call? ==> msg.rid == rid)
      modifies `connection, network
      ensures network.Valid() && Clean() && network.ids == old(network.ids)
      ensures |SentWith(network.sent, rid)| ==
              |SentWith(old(network.sent), rid)| + One(msg.Call? && Delivers(old(connection).Some?, choice))
      ensures forall x :: x != rid ==> SentWith(network.sent, x) == SentWith(old(network.sent), x)
      ensures !Reaches(old(connection).Some?, choice) ==>
                && connection == None
                && outcome == (if choice.connecting.ConnectFails? then None else Some(Unauthenticated))
      ensures Reaches(old(connection).Some?, choice) && Closes(choice.fate) ==> outcome == None
      ensures outcome.None? ==> connection == None
      ensures outcome.Some? && Reaches(old(connection).Some?, choice) ==>
                exists reply :: LastReplyIs(reply) && outcome.value == Judge(choice.fate, rid, reply)
      ensures outcome.Some? && outcome.value.Returned? ==>
                && IdOf(outcome.value.response) == Some(rid)
                && Truthful(network.config, network.init, network.server, msg, outcome.value.response)
    {
      var connecting := Connect(choice.connecting);
      if connecting.ConnectFails? {
        Close();
        return None;
      }
      if connecting.AuthenticationFails? {
        return Some(Unauthenticated);
      }
      OneMoreSentWith(network.sent, connection.value.tid, msg, rid);
      outcome := SendAndReceive(rid, msg, choice.fate);
    }

    // The retry loop: the last attempt `made` decides the outcome; only if all have been made is the
    // request given up.
    method TryAll(rid: string, msg: Message<Q>, choices: seq<Choice>) returns (outcome: Outcome, ghost made: nat)
      requires network.Valid() && Clean() && rid in network.ids && SentWith(network.sent, rid) == {}
      requires msg.Call? ==> msg.rid == rid
      modifies `connection, network
      ensures network.Valid() && Clean() && network.ids == old(network.ids)
      ensures !outcome.TooLarge? && made <= |choices| && (made == 0 <==> choices == [])
      ensures |SentWith(network.sent, rid)| ==
              if msg.Call? then Deliveries(old(connection).Some?, choices[..made]) else 0
      ensures outcome.Exhausted? ==> made == |choices| && (made > 0 ==> connection == None)
      ensures outcome.Unauthenticated? ==>
                made > 0 && connection == None && choices[made - 1].connecting.AuthenticationFails?
      ensures outcome.Returned? || outcome.Unexpected? ==>
                && made > 0 && !Closes(choices[made - 1].fate)
                && exists reply :: LastReplyIs(reply) && outcome == Judge(choices[made - 1].fate, rid, reply)
      ensures outcome.Returned? ==>
                && IdOf(outcome.response) == Some(rid)
                && Truthful(network.config, network.init, network.server, msg, outcome.response)
      ensures forall x :: x != rid ==> SentWith(network.sent, x) == SentWith(old(network.sent), x)
    {
      made, outcome := 0, Exhausted;
      for i := 0 to |choices|
        invariant network.Valid() && Clean() && network.ids == old(network.ids)
        invariant made == i && outcome.Exhausted?
        invariant if i > 0 then connection == None else connection == old(connection)
        invariant |SentWith(network.sent, rid)| ==
                  if msg.Call? then Deliveries(old(connection).Some?, choices[..i]) else 0
        invariant forall x :: x != rid ==> SentWith(network.sent, x) == SentWith(old(network.sent), x)
      {
        assert Init(choices[..i + 1]) == choices[..i];
        var result := Attempt(rid, msg, choices[i]);
        made := made + 1;
        if result.Some? {
          return result.value, made;
        }
      }
    }

    /** However a request ends, the connection is closed or has no reply outstanding, so no later call can
        take a stale one.  A returned reply carries this request's id and is truthful: an ok one holds the
        result of a handler run for this very request.  The request is sent at most once per attempt, and
        its handler has run at most as often as it was sent: since `Valid` bounds the runs of all ids by
        what was sent with them, and later requests send other ids, this stays so for ever. */
    method Request(rid: string, msg: Message<Q>, size: nat, choices: seq<Choice>)
      returns (outcome: Outcome, ghost made: nat)
      requires network.Valid() && Clean() && network.Unused(rid) && (msg.Call? ==> msg.rid == rid)
      modifies `connection, network
      ensures network.Valid() && Clean() && network.ids == old(network.ids) + {rid}
      ensures outcome.TooLarge? <==> size > maxMessageBytes
      ensures outcome.TooLarge? ==> connection == old(connection) && network.sent == old(network.sent) && made == 0
      ensures !outcome.TooLarge? ==> made <= |choices| && (made == 0 <==> choices == [])
      ensures |SentWith(network.sent, rid)| ==
              if msg.Call? && made <= |choices| then Deliveries(old(connection).Some?, choices[..made]) else 0
      ensures outcome.Exhausted? ==> made == |choices| && (made > 0 ==> connection == None)
      ensures outcome.Unauthenticated? ==>
                0 < made <= |choices| && connection == None && choices[made - 1].connecting.AuthenticationFails?
      ensures outcome.Returned? || outcome.Unexpected? ==>
                && 0 < made <= |choices| && !Closes(choices[made - 1].fate)
                && exists reply :: LastReplyIs(reply) && outcome == Judge(choices[made - 1].fate, rid, reply)
      ensures outcome.Returned? ==>
                && IdOf(outcome.response) == Some(rid)
                && Truthful(network.config, network.init, network.server, msg, outcome.response)
      ensures |RunsWith(network.server, rid)| <= |SentWith(network.sent, rid)| <= |choices|
      ensures forall x :: x != rid ==> SentWith(network.sent, x) == SentWith(old(network.sent), x)
    {
      network.MakeId(rid);
      made := 0;
      if size > maxMessageBytes {
        outcome := TooLarge;
      } else {
        outcome, made := TryAll(rid, msg, choices);
      }
      DeliveriesBounded(old(connection).Some?, choices[..made]);
      HandledAtMostSent(network.config, network.init, network.steps, network.server, network.sent, network.ids, rid);
    }
  }

  /******* The client *******/

  datatype CallResult = Value(payload: string) | CallError(code: string) | Raised

  class DbRpcClient<S, Q(==)> {
    const transport: Transport<S, Q>

    constructor (transport: Transport<S, Q>)
      ensures this.transport == transport
    {
      this.transport := transport;
    }

    /** A call that yields a value has had its handler run at least once, with this value as the result of
        one of the runs, and at most once per attempt.  An error that is reported names what became of
        this call, so it is never the server's BUSY.  A reply that is taken decides the result: a valid
        payload is the value, an error is reported, anything else raises. */
    method Call(rid: string, msg: Message<Q>, size: nat, maxRetries: int, choices: seq<Choice>, valid: string -> bool)
      returns (result: CallResult, ghost made: nat)
      requires transport.network.Valid() && transport.Clean() && transport.network.Unused(rid)
      requires (msg.Call? ==> msg.rid == rid) && |choices| == if maxRetries < 0 then 0 else maxRetries + 1
      modifies transport`connection, transport.network
      ensures transport.network.Valid() && transport.Clean()
      ensures made <= |choices|
      ensures |SentWith(transport.network.sent, rid)| ==
              if msg.Call? then Deliveries(old(transport.connection).Some?, choices[..made]) else 0
      ensures size > transport.maxMessageBytes || transport.connection.None? ==> result == Raised
      ensures size <= transport.maxMessageBytes && choices != [] && transport.connection.Some? ==>
                && made > 0 && (var fate := choices[made - 1].fate;
                                fate.Answered? || fate.ReplyTooLarge? || fate.ReplyOfOtherSchema?)
                && exists reply :: transport.LastReplyIs(reply)
                     && result == match reply
                                  case Ok(about, payload) =>
                                    if choices[made - 1].fate.Answered? && about == rid && valid(payload)
                                    then Value(payload) else Raised
                                  case Error(about, code) =>
                                    if choices[made - 1].fate.Answered? && about == Some(rid)
                                    then CallError(code) else Raised
      ensures result.Value? ==>
                && valid(result.payload) && msg.Call?
                && exists i: nat :: i in RunsWith(transport.network.server, rid)
                               && transport.network.server.executed[i].request == msg.request
                               && transport.network.server.executed[i].result == Yields(result.payload)
      ensures result.Value? ==> 1 <= |RunsWith(transport.network.server, rid)|
      ensures result.CallError? ==>
                result.code in {"SCHEMA_UNSUPPORTED", "OP_NOT_FOUND", "VALIDATION_ERROR", "SERVER_ERROR"}
      ensures |RunsWith(transport.network.server, rid)| <= |SentWith(transport.network.sent, rid)| <= |choices|
    {
      var outcome;
      outcome, made := transport.Request(rid, msg, size, choices);
      if !outcome.Returned? {
        return Raised, made;
      }
      if outcome.response.Error? {
        return CallError(outcome.response.code), made;
      }
      if !valid(outcome.response.payload) {
        return Raised, made;
      }
      result := Value(outcome.response.payload);
      OkWasHandled(transport.network.config, transport.network.init, transport.network.server, msg, outcome.response);
    }
  }

  lemma OkWasHandled<S, Q>(c: Config<S, Q, string>, init: S, s: State<S, Q, string>, msg: Message<Q>, reply: Response)
    requires Truthful(c, init, s, msg, reply) && reply.Ok?
    ensures exists i: nat :: i in RunsWith(s, msg.rid) && s.executed[i].request == msg.request
                             && s.executed[i].result == Yields(reply.payload)
    ensures 1 <= |RunsWith(s, msg.rid)|
  {
    var i: nat :| RunOf(c, init, s, i, msg) && Reports(reply, s.executed[i].result);
    assert i in RunsWith(s, msg.rid);
  }
}
