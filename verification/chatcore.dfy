/** The lab 2 message broker as a sequential state machine
    (labs/lab02/backend/chatcore/chatcore.go). Every call is one atomic
    transition; where a Go `select` has several ready cases, the case the
    runtime picks is a parameter. */
module ChatCore {
  import opened Bytes
  import opened Outcomes
  import Context

  /** A receiving channel, identified by the caller that created it. */
  type ChanId = nat

  datatype Message = Message(sender: Bytes, recipient: Bytes, content: Bytes, broadcast: bool, timestamp: int)

  /** Buffer size of the input channel made by NewBroker. */
  const InputCapacity: nat := 100

  datatype Broker = Broker(
    cancelled: Option<Context.Error>,  // Some(e) once ctx.Done() is closed; e is ctx.Err()
    input: seq<Message>,               // the input channel's buffer, oldest first
    users: map<Bytes, ChanId>,         // user id -> receiving channel
    closed: set<ChanId>,               // receiving channels closed by UnregisterUser
    done: bool)                        // the done channel is closed: Run has returned

  /** Which ready case of a `select` the runtime picks when the cancellation
      case and the channel case are both ready. */
  datatype Choice = Cancellation | Channel

  /** One send of Run onto a receiving channel; `user` is the registry key it
      was found under. */
  datatype Delivery = Delivery(user: Bytes, chan: ChanId, msg: Message)

  /** The run-time panics the broker can raise. */
  datatype Panic = SendOnClosedChannel | CloseOfClosedChannel

  /** What every broker reached by these operations satisfies, provided callers
      register fresh channels: the buffer is within its capacity, `done` is only
      closed after cancellation, registered channels are open and no channel is
      registered under two ids. */
  ghost predicate Valid(b: Broker) {
    && |b.input| <= InputCapacity
    && (b.done ==> b.cancelled.Some?)
    && (forall k :: k in b.users ==> b.users[k] !in b.closed)
    && (forall k, k' :: k in b.users && k' in b.users && k != k' ==> b.users[k] != b.users[k'])
  }

  /** A channel neither closed nor registered yet. */
  ghost predicate FreshChannel(b: Broker, ch: ChanId) {
    ch !in b.closed && ch !in b.users.Values
  }

  /** NewBroker: empty buffer and registry, done open; the context it is given
      may already be cancelled. */
  function NewBroker(ctx: Option<Context.Error>): (b: Broker)
    ensures b.input == [] && |b.users| == 0 && b.closed == {} && !b.done
    ensures b.cancelled == ctx
    ensures Valid(b)
  {
    Broker(ctx, [], map[], {}, false)
  }

  /** The context's cancel function: the first call fixes ctx.Err(), later
      calls change nothing. */
  function Cancel(b: Broker, e: Context.Error): (r: Broker)
    ensures r.cancelled.Some?
    ensures b.cancelled.Some? ==> r == b
    ensures r.cancelled == Some(e) || r.cancelled == b.cancelled
    ensures r.input == b.input && r.users == b.users && r.closed == b.closed && r.done == b.done
    ensures Valid(b) ==> Valid(r)
  {
    if b.cancelled.Some? then b else b.(cancelled := Some(e))
  }

  // ---------------------------------------------------------------------------
  // Registry

  /** RegisterUser: a known id keeps its channel; a new id is added. */
  function RegisterUser(b: Broker, id: Bytes, ch: ChanId): (r: Broker)
    ensures id in b.users ==> r == b
    ensures id !in b.users ==>
      && r.users.Keys == b.users.Keys + {id}
      && r.users[id] == ch
      && (forall k :: k in b.users ==> r.users[k] == b.users[k])
      && r == b.(users := r.users)
    ensures Valid(b) && FreshChannel(b, ch) ==> Valid(r)
  {
    if id in b.users then b else b.(users := b.users[id := ch])
  }

  /** UnregisterUser: an unknown id is ignored; a known id has its channel
      closed and its entry removed. Closing a channel that is already closed
      panics in Go. */
  function UnregisterUser(b: Broker, id: Bytes): (r: Result<Broker, Panic>)
    ensures id !in b.users ==> r == Ok(b)
    ensures id in b.users && b.users[id] in b.closed ==> r == Err(CloseOfClosedChannel)
    ensures id in b.users && b.users[id] !in b.closed ==>
      && r.Ok?
      && r.value.users.Keys == b.users.Keys - {id}
      && (forall k :: k in r.value.users ==> r.value.users[k] == b.users[k])
      && r.value.closed == b.closed + {b.users[id]}
      && r.value.input == b.input && r.value.cancelled == b.cancelled && r.value.done == b.done
    ensures Valid(b) ==> r.Ok? && Valid(r.value)
  {
    if id !in b.users then Ok(b)
    else if b.users[id] in b.closed then Err(CloseOfClosedChannel)
    else Ok(b.(users := b.users - {id}, closed := b.closed + {b.users[id]}))
  }

  // ---------------------------------------------------------------------------
  // Routing

  /** The sends Run performs for one message: to every registered channel for a
      broadcast, to the recipient's channel for a unicast, and none when the
      recipient is not registered. */
  function Route(msg: Message, users: map<Bytes, ChanId>): (r: set<Delivery>)
    ensures forall d :: d in r ==> d.msg == msg && d.user in users && d.chan == users[d.user]
    ensures forall d, d' :: d in r && d' in r && d.user == d'.user ==> d == d'
    ensures msg.broadcast ==> forall k :: k in users ==> Delivery(k, users[k], msg) in r
    ensures !msg.broadcast ==> forall d :: d in r ==> d.user == msg.recipient
    ensures !msg.broadcast && msg.recipient in users ==>
      Delivery(msg.recipient, users[msg.recipient], msg) in r
    ensures !msg.broadcast && msg.recipient !in users ==> r == {}
  {
    if msg.broadcast then set k | k in users :: Delivery(k, users[k], msg)
    else if msg.recipient in users then {Delivery(msg.recipient, users[msg.recipient], msg)}
    else {}
  }

  /** A broadcast makes exactly one send per registered user. */
  lemma {:induction false} BroadcastCount(msg: Message, users: map<Bytes, ChanId>)
    requires msg.broadcast
    ensures |Route(msg, users)| == |users|
    decreases |users|
  {
    if |users| > 0 {
      var k :| k in users;
      var rest := users - {k};
      assert rest.Keys == users.Keys - {k};
      BroadcastCount(msg, rest);
      var d := Delivery(k, users[k], msg);
      forall e ensures e in Route(msg, users) <==> e in Route(msg, rest) + {d} {
        if e in Route(msg, users) && e.user != k {
          assert e.user in rest;
        }
      }
      assert Route(msg, users) == Route(msg, rest) + {d};
      assert d !in Route(msg, rest);
    } else {
      assert users == map[];
    }
  }

  /** A unicast makes one send when the recipient is registered, none otherwise. */
  lemma UnicastCount(msg: Message, users: map<Bytes, ChanId>)
    requires !msg.broadcast
    ensures msg.recipient in users ==> |Route(msg, users)| == 1
    ensures msg.recipient !in users ==> |Route(msg, users)| == 0
  {
  }

  /** With no channel registered twice, no channel gets two copies of a message. */
  lemma RouteOncePerChannel(b: Broker, msg: Message)
    requires Valid(b)
    ensures forall d, d' :: d in Route(msg, b.users) && d' in Route(msg, b.users) && d.chan == d'.chan ==> d == d'
  {
  }

  // ---------------------------------------------------------------------------
  // The dispatch loop

  datatype StepOutcome =
    | Idle                                            // no case ready: Run waits
    | Stopped                                         // Run has already returned
    | ShutDown                                        // cancellation observed: done closed, Run returns
    | Dispatched(msg: Message, deliveries: set<Delivery>)
    | Crashed(msg: Message, panic: Panic)              // a send hit a closed channel

  /** One iteration of Run's loop. */
  function Step(b: Broker, c: Choice): (r: (Broker, StepOutcome))
    ensures b.done ==> r == (b, Stopped)
    ensures r.1.Stopped? <==> b.done
    ensures r.1.Dispatched? || r.1.Crashed? <==>
      !b.done && b.input != [] && !(b.cancelled.Some? && c == Cancellation)
    ensures r.1.Crashed? <==>
      && !b.done && b.input != [] && !(b.cancelled.Some? && c == Cancellation)
      && exists d :: d in Route(b.input[0], b.users) && d.chan in b.closed
    ensures r.1.ShutDown? <==> !b.done && b.cancelled.Some? && (c == Cancellation || b.input == [])
    ensures r.1.ShutDown? ==> r.0 == b.(done := true)
    ensures r.1.Idle? <==> !b.done && b.cancelled == None && b.input == []
    ensures r.1.Idle? ==> r.0 == b
    ensures r.1.Dispatched? || r.1.Crashed? ==>
      && b.input != []
      && r.1.msg == b.input[0]
      && r.0 == b.(input := b.input[1..])
    ensures r.1.Dispatched? ==>
      && r.1.deliveries == Route(b.input[0], b.users)
      && forall d :: d in r.1.deliveries ==> d.chan !in b.closed
    ensures Valid(b) ==> Valid(r.0) && !r.1.Crashed?
  {
    if b.done then (b, Stopped)
    else if b.cancelled.Some? && (c == Cancellation || b.input == []) then (b.(done := true), ShutDown)
    else if b.input == [] then (b, Idle)
    else
      var msg := b.input[0];
      var ds := Route(msg, b.users);
      var b' := b.(input := b.input[1..]);
      if exists d :: d in ds && d.chan in b.closed then (b', Crashed(msg, SendOnClosedChannel))
      else (b', Dispatched(msg, ds))
  }

  /** Run's loop driven by a sequence of scheduler choices: the final broker
      and the messages dispatched, in order. */
  function RunSteps(b: Broker, cs: seq<Choice>): (Broker, seq<Message>)
    decreases |cs|
  {
    if cs == [] then (b, [])
    else
      var (b1, out) := Step(b, cs[0]);
      var (b2, ms) := RunSteps(b1, cs[1..]);
      (b2, (if out.Dispatched? then [out.msg] else []) + ms)
  }

  /** The loop is FIFO and loses nothing while it runs: the messages it
      dispatches, followed by those still buffered, are exactly the buffer it
      started from. */
  lemma {:induction false} DispatchIsFifo(b: Broker, cs: seq<Choice>)
    requires Valid(b)
    ensures var (b', ms) := RunSteps(b, cs);
      && Valid(b')
      && b.input == ms + b'.input
      && b'.users == b.users && b'.closed == b.closed
    decreases |cs|
  {
    if cs != [] {
      var (b1, out) := Step(b, cs[0]);
      DispatchIsFifo(b1, cs[1..]);
      if out.Dispatched? {
        assert b.input == [out.msg] + b1.input;
      }
    }
  }

  /** Once Run has returned, nothing more is dequeued or delivered. */
  lemma {:induction false} ShutdownIsTerminal(b: Broker, cs: seq<Choice>)
    requires b.done
    ensures RunSteps(b, cs) == (b, [])
    decreases |cs|
  {
    if cs != [] {
      assert Step(b, cs[0]) == (b, Stopped);
      ShutdownIsTerminal(b, cs[1..]);
      assert [] + RunSteps(b, cs[1..]).1 == [];
    }
  }

  /** A channel closed by UnregisterUser never receives anything afterwards. */
  lemma ClosedChannelReceivesNothing(b: Broker, id: Bytes, c: Choice)
    requires Valid(b) && id in b.users
    ensures var b' := UnregisterUser(b, id).value;
      forall d :: Step(b', c).1.Dispatched? && d in Step(b', c).1.deliveries ==> d.chan != b.users[id]
  {
  }

  // ---------------------------------------------------------------------------
  // SendMessage

  datatype SendOutcome =
    | Sent                        // SendMessage returned nil
    | Failed(err: Context.Error)  // SendMessage returned ctx.Err()
    | Blocked                     // the call waits for room in the buffer

  /** SendMessage as written: the `select` either returns the context's error
      (the done case and the ctx.Done() case both return ctx.Err(); done is only
      closed after cancellation) or takes the send case, whose body sends the
      same message a second time, outside the `select`. */
  function SendMessage(b: Broker, msg: Message, c: Choice): (r: (Broker, SendOutcome))
    ensures r.1.Failed? <==> b.cancelled.Some? && (c == Cancellation || |b.input| >= InputCapacity)
    ensures r.1.Failed? ==> r.0 == b && b.cancelled == Some(r.1.err)
    ensures r.1.Sent? <==> !r.1.Failed? && |b.input| + 2 <= InputCapacity
    ensures r.1.Sent? ==> r.0 == b.(input := b.input + [msg, msg])
    ensures r.1.Blocked? && r.0 != b <==> !r.1.Failed? && |b.input| == InputCapacity - 1
    ensures r.1.Blocked? ==> r.0 == b || r.0 == b.(input := b.input + [msg])
    ensures Valid(b) ==> Valid(r.0)
  {
    if b.cancelled.Some? && (c == Cancellation || |b.input| >= InputCapacity) then
      (b, Failed(b.cancelled.value))
    else if |b.input| >= InputCapacity then (b, Blocked)
    else
      var once := b.input + [msg];
      if |once| < InputCapacity then (b.(input := once + [msg]), Sent)
      else (b.(input := once), Blocked)
  }

  /** The duplicate: a unicast sent to a registered user of an idle broker is
      delivered to that user twice. */
  lemma SendMessageDeliversTwice(b: Broker, msg: Message, c: Choice)
    requires Valid(b) && b.cancelled == None && !b.done && b.input == []
    requires !msg.broadcast && msg.recipient in b.users
    ensures SendMessage(b, msg, c).1 == Sent
    ensures var b1 := SendMessage(b, msg, c).0;
      var d := Delivery(msg.recipient, b.users[msg.recipient], msg);
      && Step(b1, c).1 == Dispatched(msg, {d})
      && Step(Step(b1, c).0, c).1 == Dispatched(msg, {d})
  {
  }

  /** The cancellation race: when the buffer has room the runtime may pick the
      send case even though the broker is cancelled and Run has returned, so
      the call succeeds and the message is never dispatched. */
  lemma SendMessageAfterShutdownMaySucceed()
    ensures var b := Broker(Some(Context.Canceled), [], map[], {}, true);
      && Valid(b)
      && SendMessage(b, Message([], [], [], true, 0), Channel).1 == Sent
  {
  }

  /** SendMessage with both defects removed: a cancelled broker refuses every
      message, and an accepted message is buffered exactly once. */
  function SendOnce(b: Broker, msg: Message): (r: (Broker, SendOutcome))
    ensures r.1.Failed? <==> b.cancelled.Some?
    ensures r.1.Failed? ==> r.0 == b && b.cancelled == Some(r.1.err)
    ensures r.1.Sent? <==> b.cancelled == None && |b.input| < InputCapacity
    ensures r.1.Sent? ==> r.0 == b.(input := b.input + [msg])
    ensures r.1.Blocked? ==> r.0 == b
    ensures Valid(b) ==> Valid(r.0)
  {
    if b.cancelled.Some? then (b, Failed(b.cancelled.value))
    else if |b.input| >= InputCapacity then (b, Blocked)
    else (b.(input := b.input + [msg]), Sent)
  }

  /** With SendOnce a unicast to a registered user of an idle broker is
      delivered exactly once, and then the loop is idle again. */
  lemma SendOnceDeliversOnce(b: Broker, msg: Message, c: Choice)
    requires Valid(b) && b.cancelled == None && !b.done && b.input == []
    requires !msg.broadcast && msg.recipient in b.users
    ensures SendOnce(b, msg).1 == Sent
    ensures var b1 := SendOnce(b, msg).0;
      && Step(b1, c).1 == Dispatched(msg, {Delivery(msg.recipient, b.users[msg.recipient], msg)})
      && Step(Step(b1, c).0, c).1 == Idle
  {
  }

  /** With SendOnce nothing sent after cancellation reaches the dispatch loop. */
  lemma SendOnceAfterCancelFails(b: Broker, e: Context.Error, msg: Message)
    ensures SendOnce(Cancel(b, e), msg).1.Failed?
    ensures SendOnce(Cancel(b, e), msg).0.input == b.input
  {
  }

  // ---------------------------------------------------------------------------
  // Registry properties over several calls

  /** Registering an id twice keeps the first channel. */
  lemma RegisterKeepsFirst(b: Broker, id: Bytes, c1: ChanId, c2: ChanId)
    requires id !in b.users
    ensures RegisterUser(RegisterUser(b, id, c1), id, c2).users[id] == c1
  {
  }

  /** Unregistering an id a second time changes nothing. */
  lemma UnregisterTwiceIsNoOp(b: Broker, id: Bytes)
    requires Valid(b)
    ensures var b1 := UnregisterUser(b, id).value;
      UnregisterUser(b1, id) == Ok(b1)
  {
  }
}
