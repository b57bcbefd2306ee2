/**
  The RabbitMQ event publisher: one broker connection, one confirm channel on
  it, a re-entrancy flag on `connect`, and a chain of deferred retries.

  The broker is not modelled; each step that awaits it takes its outcome as a
  parameter. Pending `setTimeout` callbacks are the sequence `timers`, fired one
  at a time by `Tick`. The fields `openCount`, `live`, `sent` and `closeCalls`
  record what the broker saw: how many connections were opened, which of them
  still have a `close` handler waiting to fire, which messages were submitted,
  and which close requests were made.
*/
module Publisher {
  import opened Wrappers
  import opened Events

  /** The single topic exchange every event is published to. */
  const ExchangeName: string := "domain_events"

  /** Delay, in milliseconds, of every deferred `reconnect` and `connect`. */
  const RetryDelay: int := 3000

  /** AMQP reply code CONNECTION_FORCED; a close carrying it is not followed by a reconnect. */
  const ConnectionForced: int := 320

  /** How one `connect` attempt ends: success, or a rejection at one of its three awaited steps. */
  datatype ConnectOutcome = Ok | FailAtConnect | FailAtChannel | FailAtExchange

  /** How the confirm channel answers one `publish`: positive ack, an error in the
      confirm callback, or an exception before the message is submitted. */
  datatype ConfirmOutcome = Ack | Nack | Throws

  /** Whether `channel.close()` resolves or rejects. */
  datatype CloseOutcome = CloseOk | CloseFails

  /** The argument of a connection's `close` event: none, or an error whose `code` may be absent. */
  datatype CloseError = NoError | ErrorWith(code: Option<int>)

  /** The two callbacks the publisher hands to `setTimeout`. */
  datatype TimerAction = RunReconnect | RunConnect

  datatype Timer = Timer(due: int, action: TimerAction)

  /** A message submitted to the confirm channel. */
  datatype Message = Message(exchange: string, routingKey: string, event: Event, persistent: bool)

  /** A close request sent to the broker; a channel is named by the connection it was opened on. */
  datatype CloseCall = CloseChannel(channelOf: nat) | CloseConnection(conn: nat)

  /** The promise `publish` returns: resolved with a boolean, or rejected. */
  datatype PublishResult = Resolved(confirmed: bool) | Rejected

  /** Pending timers fire in due order, none before `clock`, none later than one delay ahead. */
  ghost predicate Scheduled(timers: seq<Timer>, clock: int)
  {
    && (forall i | 0 <= i < |timers| :: clock <= timers[i].due <= clock + RetryDelay)
    && (forall i, j | 0 <= i < j < |timers| :: timers[i].due <= timers[j].due)
  }

  /** The outcomes of a connect attempt that leave a channel assigned. */
  predicate AssignsChannel(outcome: ConnectOutcome)
  {
    outcome == Ok || outcome == FailAtExchange
  }

  /** The publisher's link to the broker: both handles, the re-entrancy flag,
      the connections opened and still live, and the pending timers. */
  datatype Links = Links(connection: Option<nat>, channel: Option<nat>, isConnecting: bool,
                         openCount: nat, live: set<nat>, timers: seq<Timer>)

  /** The link after `publish` at time `clock`: unchanged when a channel is
      there or a connect is in flight, otherwise as one connect ending in `lazy` leaves it. */
  function LinksAfterPublish(l: Links, clock: int, lazy: ConnectOutcome): Links
  {
    if l.channel.Some? || l.isConnecting then l
    else
      var connects := lazy != FailAtConnect;
      Links(if connects then Some(l.openCount) else l.connection,
            if AssignsChannel(lazy) then Some(l.openCount) else None,
            false,
            if connects then l.openCount + 1 else l.openCount,
            if connects then l.live + {l.openCount} else l.live,
            l.timers + (if lazy == Ok then [] else [Timer(clock + RetryDelay, RunReconnect)]))
  }

  /** Whether `publish` submits its message: a channel is there, or the lazy
      connect it starts assigns one, and the submission does not throw. */
  predicate Submits(l: Links, lazy: ConnectOutcome, confirm: ConfirmOutcome)
  {
    (l.channel.Some? || (!l.isConnecting && AssignsChannel(lazy))) && confirm != Throws
  }

  /** One `publish` of `msg` at time `clock`: the link goes from `before` to
      `after` as `LinksAfterPublish` says, and the submitted messages gain `msg`
      exactly when `Submits` holds. */
  predicate PublishStep(before: Links, sentBefore: seq<Message>, after: Links, sentAfter: seq<Message>,
                        clock: int, lazy: ConnectOutcome, confirm: ConfirmOutcome, msg: Message)
  {
    && after == LinksAfterPublish(before, clock, lazy)
    && sentAfter == sentBefore + (if Submits(before, lazy, confirm) then [msg] else [])
  }

  /** A message is submitted exactly when `publish` ends with a channel and its submission does not throw. */
  lemma SubmitsIffChannel(l: Links, clock: int, lazy: ConnectOutcome, confirm: ConfirmOutcome)
    ensures Submits(l, lazy, confirm) <==> LinksAfterPublish(l, clock, lazy).channel.Some? && confirm != Throws
    ensures l.channel.None? && l.isConnecting ==> !Submits(l, lazy, confirm)
  {
  }

  class RabbitPublisher {
    var connection: Option<nat>
    var channel: Option<nat>
    var isConnecting: bool

    var openCount: nat
    var live: set<nat>
    var clock: int
    var timers: seq<Timer>
    var sent: seq<Message>
    var closeCalls: seq<CloseCall>

    ghost predicate Valid()
      reads this
    {
      && (channel.Some? ==> connection.Some? && channel.value < openCount)
      && (connection.Some? ==> connection.value < openCount)
      && (forall c | c in live :: c < openCount)
      && Scheduled(timers, clock)
    }

    /** The current link to the broker. */
    function LinkState(): Links
      reads this
    {
      Links(connection, channel, isConnecting, openCount, live, timers)
    }

    constructor ()
      ensures Valid()
      ensures connection == None && channel == None && !isConnecting
      ensures openCount == 0 && live == {} && clock == 0
      ensures timers == [] && sent == [] && closeCalls == []
    {
      connection := None;
      channel := None;
      isConnecting := false;
      openCount := 0;
      live := {};
      clock := 0;
      timers := [];
      sent := [];
      closeCalls := [];
    }

    /** `setTimeout(action, 3000)`. */
    method Schedule(action: TimerAction)
      requires Valid()
      modifies this`timers
      ensures Valid()
      ensures timers == old(timers) + [Timer(clock + RetryDelay, action)]
    {
      timers := timers + [Timer(clock + RetryDelay, action)];
    }

    /** The synchronous start of `connect`: a no-op while another connect is in flight. */
    method BeginConnect() returns (started: bool)
      requires Valid()
      modifies this`isConnecting
      ensures Valid()
      ensures started == !old(isConnecting)
      ensures isConnecting
    {
      if isConnecting {
        return false;
      }
      isConnecting := true;
      started := true;
    }

    /** The rest of an in-flight `connect`, once the broker has answered its steps. */
    method FinishConnect(outcome: ConnectOutcome)
      requires Valid() && isConnecting
      modifies this`connection, this`channel, this`isConnecting, this`openCount, this`live, this`timers
      ensures Valid()
      ensures !isConnecting
      ensures openCount == old(openCount) + (if outcome == FailAtConnect then 0 else 1)
      ensures connection == (if outcome == FailAtConnect then old(connection) else Some(old(openCount)))
      ensures live == (if outcome == FailAtConnect then old(live) else old(live) + {old(openCount)})
      ensures channel == (if AssignsChannel(outcome) then Some(old(openCount)) else old(channel))
      ensures timers == old(timers) + (if outcome == Ok then [] else [Timer(clock + RetryDelay, RunReconnect)])
    {
      if outcome == FailAtConnect {
        isConnecting := false;
        Schedule(RunReconnect);
        return;
      }
      var c := openCount;
      openCount := openCount + 1;
      connection := Some(c);
      live := live + {c};
      if outcome == FailAtChannel {
        isConnecting := false;
        Schedule(RunReconnect);
        return;
      }
      channel := Some(c);
      if outcome == FailAtExchange {
        isConnecting := false;
        Schedule(RunReconnect);
        return;
      }
      isConnecting := false;
    }

    /** `reconnect`: drop both handles and try `connect` again after the delay. */
    method Reconnect()
      requires Valid()
      modifies this`connection, this`channel, this`timers
      ensures Valid()
      ensures connection == None && channel == None
      ensures timers == old(timers) + [Timer(clock + RetryDelay, RunConnect)]
    {
      connection := None;
      channel := None;
      Schedule(RunConnect);
    }

    /** The `close` handler registered on connection `c` when it was opened. */
    method OnConnectionClose(c: nat, err: CloseError) returns (reconnecting: bool)
      requires Valid() && c in live
      modifies this`live, this`connection, this`channel, this`timers
      ensures Valid()
      ensures live == old(live) - {c}
      ensures reconnecting <==> (err.NoError? || err.code != Some(ConnectionForced))
      ensures reconnecting ==> connection == None && channel == None
      ensures reconnecting ==> timers == old(timers) + [Timer(clock + RetryDelay, RunConnect)]
      ensures !reconnecting ==> connection == old(connection) && channel == old(channel) && timers == old(timers)
    {
      live := live - {c};
      reconnecting := err.NoError? || err.code != Some(ConnectionForced);
      if reconnecting {
        Reconnect();
      }
    }

    /** Advance the clock to the earliest pending timer and run its callback. A
        `connect` run this way only begins; `FinishConnect` completes it. */
    method Tick() returns (fired: Option<TimerAction>)
      requires Valid()
      modifies this`clock, this`timers, this`connection, this`channel, this`isConnecting
      ensures Valid()
      ensures old(timers) == [] ==>
        && fired == None && clock == old(clock) && timers == []
        && connection == old(connection) && channel == old(channel) && isConnecting == old(isConnecting)
      ensures old(timers) != [] ==> fired == Some(old(timers)[0].action) && clock == old(timers)[0].due
      ensures fired == Some(RunReconnect) ==>
        && connection == None && channel == None && isConnecting == old(isConnecting)
        && timers == old(timers)[1..] + [Timer(clock + RetryDelay, RunConnect)]
      ensures fired == Some(RunConnect) ==>
        && connection == old(connection) && channel == old(channel) && isConnecting
        && timers == old(timers)[1..]
    {
      if timers == [] {
        return None;
      }
      var t := timers[0];
      clock := t.due;
      timers := timers[1..];
      fired := Some(t.action);
      if t.action == RunReconnect {
        Reconnect();
      } else {
        var _ := BeginConnect();
      }
    }

    /** `publish`: connect lazily when there is no channel, then submit the
        event persistently and wait for the broker's confirm. */
    method Publish(routingKey: string, event: Event, lazy: ConnectOutcome, confirm: ConfirmOutcome)
      returns (r: PublishResult)
      requires Valid()
      modifies this`connection, this`channel, this`isConnecting, this`openCount, this`live, this`timers, this`sent
      ensures Valid()
      ensures PublishStep(old(LinkState()), old(sent), LinkState(), sent, clock, lazy, confirm,
                          Message(ExchangeName, routingKey, event, true))
      ensures r == if channel.None? then Resolved(false)
                   else if confirm == Throws then Rejected
                   else Resolved(confirm == Ack)
    {
      if channel.None? {
        var started := BeginConnect();
        if started {
          FinishConnect(lazy);
        }
        if channel.None? {
          return Resolved(false);
        }
      }
      if confirm == Throws {
        return Rejected;
      }
      sent := sent + [Message(ExchangeName, routingKey, event, true)];
      r := Resolved(confirm == Ack);
    }

    /** `close`: close the channel, then the connection; any rejection is
        swallowed, no field is reset, and a failed channel close stops there. */
    method Close(channelClose: CloseOutcome)
      requires Valid()
      modifies this`closeCalls
      ensures channel.None? && connection.None? ==> closeCalls == old(closeCalls)
      ensures channel.None? && connection.Some? ==>
        closeCalls == old(closeCalls) + [CloseConnection(connection.value)]
      ensures channel.Some? && channelClose == CloseFails ==>
        closeCalls == old(closeCalls) + [CloseChannel(channel.value)]
      ensures channel.Some? && channelClose == CloseOk ==>
        closeCalls == old(closeCalls) + [CloseChannel(channel.value), CloseConnection(connection.value)]
    {
      if channel.Some? {
        closeCalls := closeCalls + [CloseChannel(channel.value)];
        if channelClose == CloseFails {
          return;
        }
      }
      if connection.Some? {
        closeCalls := closeCalls + [CloseConnection(connection.value)];
      }
    }
  }

  /** An event of the shape the registration handler publishes. */
  function SampleEvent(): Event
  {
    Event("USER_REGISTERED", 0, [Field(UserIdKey, Str("u1")), Field(UsernameKey, Str("alice")),
                                 Field(EmailKey, Str("a@x.com")), Field(RoleKey, Str("user"))])
  }

  /** Two `connect` calls while the first is in flight open exactly one connection. */
  method CoalescedConnect() returns (firstStarted: bool, secondStarted: bool, connections: nat, connected: bool)
    ensures firstStarted && !secondStarted
    ensures connections == 1 && connected
  {
    var p := new RabbitPublisher();
    firstStarted := p.BeginConnect();
    secondStarted := p.BeginConnect();
    p.FinishConnect(Ok);
    connections := p.openCount;
    connected := p.channel.Some? && p.connection.Some? && !p.isConnecting;
  }

  /** A failed connect retries through `reconnect` at +3000 ms and `connect` at +6000 ms. */
  method FailedConnectRetries(failure: ConnectOutcome)
    returns (reconnectAt: int, handlesCleared: bool, connectAt: int, connecting: bool)
    requires failure != Ok
    ensures reconnectAt == 3000 && handlesCleared
    ensures connectAt == 6000 && connecting
  {
    var p := new RabbitPublisher();
    var _ := p.BeginConnect();
    p.FinishConnect(failure);
    assert p.timers == [Timer(3000, RunReconnect)];
    var first := p.Tick();
    reconnectAt := p.clock;
    handlesCleared := p.connection.None? && p.channel.None?;
    assert p.timers == [Timer(6000, RunConnect)];
    var second := p.Tick();
    connectAt := p.clock;
    connecting := p.isConnecting;
  }

  /** After an unexpected drop the publisher is connected again 3000 ms later,
      with no call from the application. */
  method RecoversAfterDrop(err: CloseError) returns (reconnecting: bool, at: int, connected: bool, connections: nat)
    requires err.NoError? || err.code != Some(ConnectionForced)
    ensures reconnecting && at == 3000 && connected && connections == 2
  {
    var p := new RabbitPublisher();
    var _ := p.BeginConnect();
    p.FinishConnect(Ok);
    reconnecting := p.OnConnectionClose(0, err);
    assert p.timers == [Timer(3000, RunConnect)];
    var fired := p.Tick();
    at := p.clock;
    p.FinishConnect(Ok);
    connected := p.channel == Some(1) && p.connection == Some(1);
    connections := p.openCount;
  }

  /** A close with code 320 schedules nothing and keeps the dead handles. */
  method ForcedCloseStaysDown() returns (reconnecting: bool, pending: nat, keptChannel: bool)
    ensures !reconnecting && pending == 0 && keptChannel
  {
    var p := new RabbitPublisher();
    var _ := p.BeginConnect();
    p.FinishConnect(Ok);
    reconnecting := p.OnConnectionClose(0, ErrorWith(Some(ConnectionForced)));
    pending := |p.timers|;
    keptChannel := p.channel == Some(0);
  }

  /** `publish` while a connect is in flight returns false and submits nothing. */
  method PublishDuringConnect(lazy: ConnectOutcome, confirm: ConfirmOutcome)
    returns (r: PublishResult, submitted: nat, connections: nat)
    ensures r == Resolved(false) && submitted == 0 && connections == 0
  {
    var p := new RabbitPublisher();
    var _ := p.BeginConnect();
    r := p.Publish("auth.user.registered", SampleEvent(), lazy, confirm);
    submitted := |p.sent|;
    connections := p.openCount;
  }

  /** Broker unreachable at startup; a later `publish` connects and is confirmed. */
  method UnreachableThenPublish() returns (startupConnected: bool, r: PublishResult, delivered: seq<Message>)
    ensures !startupConnected
    ensures r == Resolved(true)
    ensures delivered == [Message("domain_events", "auth.user.registered", SampleEvent(), true)]
  {
    var p := new RabbitPublisher();
    var _ := p.BeginConnect();
    p.FinishConnect(FailAtConnect);
    startupConnected := p.channel.Some?;
    r := p.Publish("auth.user.registered", SampleEvent(), Ok, Ack);
    delivered := p.sent;
  }

  /** A lazy connect that fails at `assertExchange` still leaves a channel, and
      `publish` goes on to use it while a reconnect is pending. */
  method PublishAfterExchangeFailure() returns (r: PublishResult, pendingReconnect: bool)
    ensures r == Resolved(true) && pendingReconnect
  {
    var p := new RabbitPublisher();
    r := p.Publish("auth.user.logged_in", SampleEvent(), FailAtExchange, Ack);
    pendingReconnect := p.timers == [Timer(3000, RunReconnect)];
  }

  /** `close` followed by the connection's clean `close` event: the handler sees
      no error, so a reconnect is scheduled. */
  method CloseThenCleanCloseEvent() returns (requests: seq<CloseCall>, reconnecting: bool, pending: seq<Timer>)
    ensures requests == [CloseChannel(0), CloseConnection(0)]
    ensures reconnecting && pending == [Timer(3000, RunConnect)]
  {
    var p := new RabbitPublisher();
    var _ := p.BeginConnect();
    p.FinishConnect(Ok);
    p.Close(CloseOk);
    requests := p.closeCalls;
    reconnecting := p.OnConnectionClose(0, NoError);
    pending := p.timers;
  }
}
