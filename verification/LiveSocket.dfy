/**
 * The browser's live socket and its reconnect logic (web/app/composables/useLiveSocket.ts, the
 * connection state and the clearing of web/app/stores/live.ts).
 *
 * Events of any socket ever created may arrive at any time, in any order; a timer that was cleared
 * never fires.
 */
module LiveSocket {
  import opened Wrappers
  import opened Ints

  const INITIAL_RECONNECT_MS: nat := 250
  const MAX_RECONNECT_MS: nat := 5000

  datatype Connection = Connecting | Connected | Reconnecting | Offline

  datatype Message = NotText | Malformed | Data(kind: string, body: string) | Ping | ServerError(message: string)

  /** A data frame in the store, with the network of the socket that delivered it. */
  datatype Stored = Stored(network: string, kind: string, body: string)

  datatype Outbound = SubscribeTo(topic: string) | Pong

  const ALL_TOPICS: seq<string> := ["blocks", "transfers", "ats_feed"]

  type SocketId = nat
  type TimerId = nat

  datatype State = State(
    socket: Option<SocketId>,
    timer: Option<TimerId>,
    delay: nat,
    target: Option<string>,
    closing: bool,
    connection: Connection,
    frames: seq<Stored>,
    // the environment: the network of every socket created, the timers still due, what was sent
    networks: seq<string>,
    due: set<TimerId>,
    timers: nat,
    sent: seq<(SocketId, Outbound)>,
    // unexpected closes since the delay was last reset
    failures: nat)

  const INITIAL: State :=
    State(None, None, INITIAL_RECONNECT_MS, None, false, Connecting, [], [], {}, 0, [], 0)

  datatype Event =
    | Switch(network: Option<string>)
    | Dispose
    | SocketOpen(id: SocketId, ready: bool)
    | SocketMessage(id: SocketId, ready: bool, message: Message)
    | SocketError(id: SocketId)
    | SocketClose(id: SocketId)
    | TimerFires(id: TimerId)

  // ---- the handlers, as functions ----

  function Open(s: State, network: string): State {
    s.(closing := false,
       target := Some(network),
       connection := if s.socket.Some? then Reconnecting else Connecting,
       socket := Some(|s.networks|),
       networks := s.networks + [network])
  }

  function ClearTimer(s: State): State {
    match s.timer
    case None => s
    case Some(t) => s.(timer := None, due := s.due - {t})
  }

  function Disposed(s: State): State {
    ClearTimer(s).(closing := true, socket := None, target := None, connection := Offline)
  }

  function Switched(s: State, network: Option<string>): State {
    if network.None? then Disposed(s)
    else if network == s.target && s.socket.Some? then s
    else
      var initial := s.target.None? && s.socket.None?;
      var t := ClearTimer(s);
      var u := if t.socket.Some? then t.(closing := true, socket := None) else t;
      var v := if initial then u else u.(frames := []);
      Open(v.(delay := INITIAL_RECONNECT_MS, failures := 0), network.value)
  }

  function SendAll(s: State, id: SocketId, ready: bool, msgs: seq<Outbound>): State {
    if ready then s.(sent := s.sent + seq(|msgs|, i requires 0 <= i < |msgs| => (id, msgs[i]))) else s
  }

  function Subscriptions(): seq<Outbound> {
    seq(|ALL_TOPICS|, i requires 0 <= i < |ALL_TOPICS| => SubscribeTo(ALL_TOPICS[i]))
  }

  function NetworkOf(s: State, id: SocketId): string {
    if id < |s.networks| then s.networks[id] else ""
  }

  function Received(s: State, id: SocketId, ready: bool, message: Message): State {
    match message
    case Data(kind, body) => s.(frames := s.frames + [Stored(NetworkOf(s, id), kind, body)])
    case Ping => SendAll(s, id, ready, [Pong])
    case _ => s
  }

  function Closed(s: State): State {
    var t := s.(socket := None);
    if t.closing then t.(connection := Offline)
    else t.(connection := Reconnecting, timer := Some(t.timers), due := t.due + {t.timers}, timers := t.timers + 1,
            delay := Min(t.delay * 2, MAX_RECONNECT_MS), failures := t.failures + 1)
  }

  /** JavaScript takes the empty string for false. */
  predicate Truthy(target: Option<string>) { target.Some? && target.value != "" }

  function Fired(s: State, id: TimerId): State {
    var t := s.(due := s.due - {id}, timer := None);
    if Truthy(t.target) && !t.closing then Open(t, t.target.value) else t
  }

  /** None for an event that cannot happen: a socket never created, a timer not due. */
  function Next(s: State, e: Event): Option<State> {
    match e
    case Switch(network) => Some(Switched(s, network))
    case Dispose => Some(Disposed(s))
    case SocketOpen(id, ready) =>
      OfSocket(s, id,
        SendAll(s.(delay := INITIAL_RECONNECT_MS, connection := Connected, failures := 0), id, ready, Subscriptions()))
    case SocketMessage(id, ready, message) => OfSocket(s, id, Received(s, id, ready, message))
    case SocketError(id) => OfSocket(s, id, s)
    case SocketClose(id) => OfSocket(s, id, Closed(s))
    case TimerFires(id) => if id in s.due then Some(Fired(s, id)) else None
  }

  /** The handlers of a socket start by checking that it is the current one. */
  function OfSocket(s: State, id: SocketId, handled: State): Option<State> {
    if id >= |s.networks| then None else if s.socket == Some(id) then Some(handled) else Some(s)
  }

  /** The state after a sequence of events; None if one of them cannot happen. */
  function Run(events: seq<Event>): Option<State> {
    if events == [] then Some(INITIAL)
    else
      match Run(events[..|events| - 1])
      case None => None
      case Some(s) => Next(s, events[|events| - 1])
  }

  // ---- the module state, as the source updates it ----

  class Live {
    var socket: Option<SocketId>
    var reconnectTimer: Option<TimerId>
    var reconnectDelay: nat
    var targetNetworkId: Option<string>
    var closing: bool
    var connection: Connection
    var frames: seq<Stored>
    var networks: seq<string>
    var due: set<TimerId>
    var timers: nat
    var sent: seq<(SocketId, Outbound)>
    ghost var failures: nat

    ghost function Abs(): State
      reads this
    {
      State(socket, reconnectTimer, reconnectDelay, targetNetworkId, closing, connection, frames,
            networks, due, timers, sent, failures)
    }

    constructor ()
      ensures Abs() == INITIAL
    {
      socket, reconnectTimer, reconnectDelay, targetNetworkId, closing := None, None, INITIAL_RECONNECT_MS, None, false;
      connection, frames, networks, due, timers, sent, failures := Connecting, [], [], {}, 0, [], 0;
    }

    method OpenSocket(networkId: string)
      modifies this
      ensures Abs() == Open(old(Abs()), networkId)
    {
      closing := false;
      targetNetworkId := Some(networkId);
      connection := if socket.Some? then Reconnecting else Connecting;
      var ws := |networks|;
      networks := networks + [networkId];
      socket := Some(ws);
    }

    method SendOn(ws: SocketId, ready: bool, msg: Outbound)
      modifies this`sent
      ensures Abs() == SendAll(old(Abs()), ws, ready, [msg])
    {
      if !ready { return; }
      sent := sent + [(ws, msg)];
      assert seq(1, i requires 0 <= i < 1 => (ws, [msg][i])) == [(ws, msg)];
    }

    method OnOpen(ws: SocketId, ready: bool)
      requires ws < |networks|
      modifies this
      ensures Some(Abs()) == Next(old(Abs()), SocketOpen(ws, ready))
    {
      if socket != Some(ws) { return; }
      reconnectDelay := INITIAL_RECONNECT_MS;
      failures := 0;
      connection := Connected;
      label ready0:
      for i := 0 to |ALL_TOPICS|
        invariant Abs() == SendAll(old@ready0(Abs()), ws, ready, Subscriptions()[..i])
      {
        SendOn(ws, ready, SubscribeTo(ALL_TOPICS[i]));
        SendAllSnoc(old@ready0(Abs()), ws, ready, Subscriptions()[..i], SubscribeTo(ALL_TOPICS[i]));
        assert Subscriptions()[..i + 1] == Subscriptions()[..i] + [SubscribeTo(ALL_TOPICS[i])];
      }
      assert Subscriptions()[..|ALL_TOPICS|] == Subscriptions();
    }

    method OnMessage(ws: SocketId, ready: bool, message: Message)
      requires ws < |networks|
      modifies this
      ensures Some(Abs()) == Next(old(Abs()), SocketMessage(ws, ready, message))
    {
      if socket != Some(ws) { return; }
      match message {
        case Data(kind, body) => frames := frames + [Stored(networks[ws], kind, body)];
        case Ping => SendOn(ws, ready, Pong);
        case _ =>
      }
    }

    method OnClose(ws: SocketId)
      requires ws < |networks|
      modifies this
      ensures Some(Abs()) == Next(old(Abs()), SocketClose(ws))
    {
      if socket != Some(ws) { return; }
      socket := None;
      if closing {
        connection := Offline;
        return;
      }
      connection := Reconnecting;
      var t := timers;
      timers := timers + 1;
      due := due + {t};
      reconnectTimer := Some(t);
      reconnectDelay := Min(reconnectDelay * 2, MAX_RECONNECT_MS);
      failures := failures + 1;
    }

    method OnTimer(t: TimerId)
      requires t in due
      modifies this
      ensures Some(Abs()) == Next(old(Abs()), TimerFires(t))
    {
      due := due - {t};
      reconnectTimer := None;
      if targetNetworkId.Some? && targetNetworkId.value != "" && !closing { OpenSocket(targetNetworkId.value); }
    }

    method CancelTimer()
      modifies this`due, this`reconnectTimer
      ensures Abs() == ClearTimer(old(Abs()))
    {
      if reconnectTimer.Some? {
        due := due - {reconnectTimer.value};
        reconnectTimer := None;
      }
    }

    method DisposeAll()
      modifies this
      ensures Abs() == Disposed(old(Abs()))
    {
      closing := true;
      CancelTimer();
      if socket.Some? { socket := None; }
      targetNetworkId := None;
      connection := Offline;
    }

    method SwitchNetwork(networkId: Option<string>)
      modifies this
      ensures Abs() == Switched(old(Abs()), networkId)
    {
      if networkId.None? {
        DisposeAll();
        return;
      }
      if networkId == targetNetworkId && socket.Some? { return; }
      var isInitialOpen := targetNetworkId.None? && socket.None?;
      CancelTimer();
      if socket.Some? {
        closing := true;
        socket := None;
      }
      if !isInitialOpen { frames := []; }
      reconnectDelay := INITIAL_RECONNECT_MS;
      failures := 0;
      OpenSocket(networkId.value);
    }
  }

  lemma SendAllSnoc(s: State, id: SocketId, ready: bool, msgs: seq<Outbound>, msg: Outbound)
    ensures SendAll(s, id, ready, msgs + [msg]) == SendAll(SendAll(s, id, ready, msgs), id, ready, [msg])
  {
    if ready {
      var before := SendAll(s, id, ready, msgs).sent;
      assert SendAll(s, id, ready, msgs + [msg]).sent == before + [(id, msg)];
      assert SendAll(SendAll(s, id, ready, msgs), id, ready, [msg]).sent == before + [(id, msg)];
    }
  }

  // ---- invariants ----

  /** The wait after `failures` unexpected closes in a row: it doubles, up to the cap. */
  function Backoff(failures: nat): nat {
    if failures == 0 then INITIAL_RECONNECT_MS else Min(2 * Backoff(failures - 1), MAX_RECONNECT_MS)
  }

  /** A network is targeted, yet nothing is connected and no reconnect is due. */
  predicate Stuck(s: State) { s.target.Some? && s.socket.None? && s.timer.None? }

  ghost predicate Inv(s: State) {
    && !(s.socket.Some? && s.timer.Some?)
    && (s.target.None? ==> s.socket.None? && s.timer.None?)
    && (Stuck(s) ==> s.target == Some(""))
    && (s.socket.Some? ==> s.socket.value < |s.networks| && s.target == Some(s.networks[s.socket.value]))
    && s.due == (if s.timer.Some? then {s.timer.value} else {})
    && (forall t :: t in s.due ==> t < s.timers)
    && s.delay == Backoff(s.failures)
    && (s.closing ==> s.target.None?)
    && (s.timer.Some? || Stuck(s) <==> s.connection.Reconnecting?)
    && (s.connection.Connected? ==> s.socket.Some?)
    && (s.connection.Offline? ==> s.target.None?)
  }

  lemma {:induction false} BackoffRange(failures: nat)
    ensures 250 <= Backoff(failures) <= 5000
    ensures failures < 5 ==> Backoff(failures) == [250, 500, 1000, 2000, 4000][failures]
    ensures failures >= 5 ==> Backoff(failures) == 5000
    decreases failures
  {
    if failures > 0 { BackoffRange(failures - 1); }
  }

  lemma StepKeepsInv(s: State, e: Event)
    requires Inv(s) && Next(s, e).Some?
    ensures Inv(Next(s, e).value)
  {
    if e.SocketClose? { assert Backoff(s.failures + 1) == Min(2 * Backoff(s.failures), MAX_RECONNECT_MS); }
  }

  /**
   * In every reachable state a targeted network has exactly one of a current socket and a pending
   * reconnect, unless its name is the empty string; without a target there is neither; the socket is of
   * the target; and the delay is the backoff of the closes in a row, in 250 to 5000 milliseconds.
   */
  lemma {:induction false} InvAlways(events: seq<Event>)
    requires Run(events).Some?
    ensures var s := Run(events).value;
      && Inv(s)
      && (s.target.Some? && s.target.value != "" ==> (s.socket.Some? <==> s.timer.None?))
      && (s.target.None? ==> s.socket.None? && s.timer.None?)
      && (s.socket.Some? ==> s.socket.value < |s.networks| && s.target == Some(s.networks[s.socket.value]))
      && s.delay == Backoff(s.failures)
      && 250 <= s.delay <= 5000
    decreases |events|
  {
    if events != [] {
      var front := events[..|events| - 1];
      InvAlways(front);
      StepKeepsInv(Run(front).value, events[|events| - 1]);
    }
    BackoffRange(Run(events).value.failures);
  }

  /**
   * Losing the current socket, in any reachable state, schedules a reconnect to the same network (the
   * closing branch of the handler is never taken); when its timer fires a socket to that network is
   * opened, unless the name is the empty string: then nothing ever reconnects by itself.
   */
  lemma CloseReconnectsIff(events: seq<Event>, s: State, id: SocketId)
    requires Run(events) == Some(s) && s.socket == Some(id)
    ensures Next(s, SocketClose(id)).Some?
    ensures var t := Next(s, SocketClose(id)).value;
      && t.timer.Some? && t.due == {t.timer.value} && t.target == s.target && t.connection == Reconnecting
      && var u := Fired(t, t.timer.value);
      && u.target == s.target && u.due == {}
      && (Stuck(u) <==> s.target == Some(""))
      && (!Stuck(u) ==> u.socket == Some(|s.networks|) && u.networks == s.networks + [s.target.value])
  {
    InvAlways(events);
    hide Run;
  }

  /**
   * Switching to a network, in any reachable state, leaves it targeted on a socket of that network with no
   * reconnect due: the current one if it is already connected or connecting to it, else a new one.
   */
  lemma SwitchConnects(events: seq<Event>, s: State, network: string)
    requires Run(events) == Some(s)
    ensures var t := Next(s, Switch(Some(network))).value;
      && t.target == Some(network) && t.socket.Some? && t.timer.None? && t.due == {} && !t.closing
      && t.socket.value < |t.networks| && t.networks[t.socket.value] == network
      && (s.target == Some(network) && s.socket.Some? ==> t == s)
      && (s.target != Some(network) || s.socket.None? ==>
            t.socket == Some(|s.networks|) && t.networks == s.networks + [network] && t.delay == 250)
  {
    InvAlways(events);
    hide Run;
  }

  /** Once the current socket is open the store says so, and the next wait is the first one again. */
  lemma OpenConnects(s: State, id: SocketId, ready: bool)
    requires s.socket == Some(id) && id < |s.networks|
    ensures var t := Next(s, SocketOpen(id, ready)).value;
      t.connection == Connected && t.delay == 250 && t.failures == 0 && t.frames == s.frames && t.socket == s.socket
  {
  }

  // ---- what is sent ----

  /** The current socket, ready to send, opens and is subscribed to every topic, or delivers a ping. */
  predicate Sends(s: State, e: Event, id: SocketId, msg: Outbound) {
    && s.socket == Some(id)
    && ((e == SocketOpen(id, true) && msg in [SubscribeTo("blocks"), SubscribeTo("transfers"), SubscribeTo("ats_feed")])
        || (e == SocketMessage(id, true, Ping) && msg == Pong))
  }

  ghost predicate SentAt(events: seq<Event>, k: nat, id: SocketId, msg: Outbound)
    requires k < |events|
  {
    var before := Run(events[..k]);
    before.Some? && Sends(before.value, events[k], id, msg)
  }

  lemma StepSent(s: State, e: Event, id: SocketId, msg: Outbound)
    requires Next(s, e).Some?
    ensures (id, msg) in Next(s, e).value.sent <==> (id, msg) in s.sent || Sends(s, e, id, msg)
  {
    assert Subscriptions() == [SubscribeTo("blocks"), SubscribeTo("transfers"), SubscribeTo("ats_feed")];
    if e.SocketOpen? && s.socket == Some(e.id) && e.ready {
      SentMembers(s.sent, Subscriptions(), e.id, id, msg);
    } else if e.SocketMessage? && e.message.Ping? && s.socket == Some(e.id) && e.ready {
      SentMembers(s.sent, [Pong], e.id, id, msg);
    }
    hide Subscriptions;
  }

  lemma SentMembers(sent: seq<(SocketId, Outbound)>, msgs: seq<Outbound>, to: SocketId, id: SocketId, msg: Outbound)
    ensures (id, msg) in sent + seq(|msgs|, i requires 0 <= i < |msgs| => (to, msgs[i]))
       <==> (id, msg) in sent || (id == to && msg in msgs)
  {
    var more := seq(|msgs|, i requires 0 <= i < |msgs| => (to, msgs[i]));
    if id == to && msg in msgs {
      var i :| 0 <= i < |msgs| && msgs[i] == msg;
      assert more[i] == (id, msg);
    }
  }

  /**
   * A socket is sent a subscription to exactly the three topics when it opens, and a pong for a ping, while it
   * is the current one and ready; nothing else is ever sent.
   */
  lemma {:induction false} SentIff(events: seq<Event>, id: SocketId, msg: Outbound)
    requires Run(events).Some?
    ensures (id, msg) in Run(events).value.sent <==> exists k :: 0 <= k < |events| && SentAt(events, k, id, msg)
    decreases |events|
  {
    if events != [] {
      var n := |events| - 1;
      var front, e := events[..n], events[n];
      SentIff(front, id, msg);
      StepSent(Run(front).value, e, id, msg);
      hide Next, Sends;
      forall k | 0 <= k < n ensures SentAt(events, k, id, msg) == SentAt(front, k, id, msg) {
        assert events[..k] == front[..k];
      }
      assert SentAt(events, n, id, msg) <==> Sends(Run(front).value, e, id, msg);
    }
  }

  // ---- frames ----

  /**
   * Only frames of the current socket, and so of the targeted network, ever reach the store; an event
   * of any other socket changes nothing.
   */
  lemma OnlyCurrentFrames(events: seq<Event>, s: State, e: Event)
    requires Run(events) == Some(s) && Next(s, e).Some?
    ensures var t := Next(s, e).value;
      && (t.frames == s.frames || t.frames == []
          || (e.SocketMessage? && s.socket == Some(e.id) && e.message.Data? && s.target.Some?
              && t.frames == s.frames + [Stored(s.target.value, e.message.kind, e.message.body)]))
      && (!e.Switch? && !e.Dispose? && !e.TimerFires? && s.socket != Some(e.id) ==> t == s)
  {
    InvAlways(events);
    hide Run;
  }

  /** The store holds a frame of that network. */
  ghost predicate HasFrame(s: State, network: string) {
    exists i :: 0 <= i < |s.frames| && s.frames[i].network == network
  }

  /** The store holds a frame of some network but that one. */
  ghost predicate HasForeign(s: State, network: string) {
    exists i :: 0 <= i < |s.frames| && s.frames[i].network != network
  }

  /** A switch that clears the store: not the first after idling, and to a network not connected yet. */
  predicate Clears(s: State, e: Event) {
    && e.Switch? && e.network.Some?
    && !(s.target.None? && s.socket.None?)
    && !(s.target == e.network && s.socket.Some?)
  }

  /** The current socket, of that network, delivers a data frame. */
  predicate Delivers(s: State, e: Event, network: string) {
    e.SocketMessage? && e.message.Data? && s.socket == Some(e.id) && NetworkOf(s, e.id) == network
  }

  predicate Disposes(e: Event) { e.Dispose? || e == Switch(None) }

  ghost predicate ClearedAt(events: seq<Event>, k: nat)
    requires k < |events|
  {
    var before := Run(events[..k]);
    before.Some? && Clears(before.value, events[k])
  }

  ghost predicate DeliveredAt(events: seq<Event>, k: nat, network: string)
    requires k < |events|
  {
    var before := Run(events[..k]);
    before.Some? && Delivers(before.value, events[k], network)
  }

  /** Event i delivers a frame of the network, and no later event clears the store. */
  ghost predicate Survives(events: seq<Event>, i: nat, network: string)
    requires i < |events|
  {
    && DeliveredAt(events, i, network)
    && (forall k :: i < k < |events| ==> !ClearedAt(events, k))
  }

  lemma SurvivesSnoc(front: seq<Event>, e: Event, i: nat, network: string)
    requires i < |front|
    ensures Survives(front + [e], i, network) <==> Survives(front, i, network) && !ClearedAt(front + [e], |front|)
  {
    var events := front + [e];
    hide Clears, Delivers, Run;
    forall k | 0 <= k < |front|
      ensures ClearedAt(events, k) == ClearedAt(front, k) && DeliveredAt(events, k, network) == DeliveredAt(front, k, network)
    {
      assert events[..k] == front[..k];
    }
  }

  /** One event: the store is cleared, gains the delivered frame, or stays. */
  lemma StepFrames(s: State, e: Event, network: string)
    requires Next(s, e).Some?
    ensures HasFrame(Next(s, e).value, network)
      <==> !Clears(s, e) && (HasFrame(s, network) || Delivers(s, e, network))
  {
    var t := Next(s, e).value;
    if t.frames != s.frames && t.frames != [] {
      assert t.frames[..|s.frames|] == s.frames;
      assert t.frames[|s.frames|] in t.frames;
    }
  }

  /** A frame of a network is in the store iff an event delivered one and nothing cleared it since. */
  lemma {:induction false} FrameOrigin(events: seq<Event>, network: string)
    requires Run(events).Some?
    ensures HasFrame(Run(events).value, network) <==>
      exists i :: 0 <= i < |events| && Survives(events, i, network)
    decreases |events|
  {
    if events != [] {
      var n := |events| - 1;
      var front, e := events[..n], events[n];
      assert events == front + [e] && events[..n] == front;
      FrameOrigin(front, network);
      StepFrames(Run(front).value, e, network);
      forall i | 0 <= i < n
        ensures Survives(events, i, network) <==> Survives(front, i, network) && !ClearedAt(events, n)
      {
        SurvivesSnoc(front, e, i, network);
      }
      hide Next, Clears, Delivers, HasFrame;
      assert Survives(events, n, network) <==> Delivers(Run(front).value, e, network);
    }
  }

  lemma DeliveredTarget(s: State, e: Event, network: string)
    requires Inv(s) && Next(s, e).Some? && Delivers(s, e, network)
    ensures Next(s, e).value.target == Some(network)
  {
  }

  lemma KeepsTarget(s: State, e: Event)
    requires Inv(s) && Next(s, e).Some? && s.target.Some? && !Clears(s, e) && !Disposes(e)
    ensures Next(s, e).value.target == s.target
  {
  }

  /** Without a clear and without a dispose since, the target is still the network of the frame. */
  lemma {:induction false} TargetKept(events: seq<Event>, i: nat, network: string)
    requires Run(events).Some? && i < |events| && Survives(events, i, network)
    requires forall j :: i < j < |events| ==> !Disposes(events[j])
    ensures Run(events).value.target == Some(network)
    decreases |events|
  {
    var n := |events| - 1;
    var front, e := events[..n], events[n];
    assert events == front + [e] && events[..n] == front;
    InvAlways(front);
    hide Inv, Next, Clears, Disposes;
    if i < n {
      SurvivesSnoc(front, e, i, network);
      TargetKept(front, i, network);
      assert !ClearedAt(events, n);
      KeepsTarget(Run(front).value, e);
    } else {
      DeliveredTarget(Run(front).value, e, network);
    }
  }

  /** Event i delivers a frame of another network than the target, a later dispose j, and no clear since i. */
  ghost predicate MixedBy(events: seq<Event>, i: nat, j: nat, network: string, target: string) {
    i < j < |events| && network != target && Survives(events, i, network) && Disposes(events[j])
  }

  /**
   * While a network is targeted, the store holds a frame of another one iff such a frame was delivered,
   * then the module was disposed, and no switch since then cleared the store: the first switch after a
   * dispose clears nothing.
   */
  lemma MixedIff(events: seq<Event>, s: State)
    requires Run(events) == Some(s) && s.target.Some?
    ensures HasForeign(s, s.target.value) <==>
      exists i, j, network :: MixedBy(events, i, j, network, s.target.value)
  {
    hide Run, Survives, Disposes;
    if HasForeign(s, s.target.value) {
      var f :| 0 <= f < |s.frames| && s.frames[f].network != s.target.value;
      var network := s.frames[f].network;
      FrameOrigin(events, network);
      var i :| 0 <= i < |events| && Survives(events, i, network);
      if forall j :: i < j < |events| ==> !Disposes(events[j]) { TargetKept(events, i, network); }
      var j :| i < j < |events| && Disposes(events[j]);
      assert MixedBy(events, i, j, network, s.target.value);
    }
    if i, j, network :| MixedBy(events, i, j, network, s.target.value) {
      FrameOrigin(events, network);
    }
  }

  /** Such a run: one network's frame, a dispose, another network. */
  lemma DisposeThenSwitchMixes(first: string, second: string, kind: string, body: string)
    requires first != second
    ensures var events := [Switch(Some(first)), SocketMessage(0, true, Data(kind, body)), Dispose, Switch(Some(second))];
      && Run(events).Some?
      && Run(events).value.target == Some(second)
      && HasForeign(Run(events).value, second)
  {
    var events := [Switch(Some(first)), SocketMessage(0, true, Data(kind, body)), Dispose, Switch(Some(second))];
    assert events[..3][..2] == events[..2] && events[..2][..1] == events[..1] && events[..1][..0] == [];
    var connected := Switched(INITIAL, Some(first));
    assert Run(events[..1]) == Some(connected);
    var received := Received(connected, 0, true, Data(kind, body));
    assert Run(events[..2]) == Some(received);
    assert Run(events[..3]) == Some(Disposed(received));
    assert Run(events).value.frames[0].network == first;
  }

  // ---- dispose ----

  /** Disposed: nothing targeted, nothing pending. */
  ghost predicate Idle(s: State) { s.target.None? && s.socket.None? && s.due == {} }

  function RunFrom(s: State, events: seq<Event>): Option<State> {
    if events == [] then Some(s)
    else
      match RunFrom(s, events[..|events| - 1])
      case None => None
      case Some(t) => Next(t, events[|events| - 1])
  }

  /**
   * After `dispose` no reconnect ever fires and no socket is opened, whatever events still arrive
   * from old sockets, until the next switch to a network.
   */
  lemma {:induction false} DisposeIsFinal(before: seq<Event>, s: State, events: seq<Event>)
    requires Run(before) == Some(s)
    requires forall i :: 0 <= i < |events| ==> !(events[i].Switch? && events[i].network.Some?)
    requires RunFrom(Disposed(s), events).Some?
    ensures var t := RunFrom(Disposed(s), events).value;
      Idle(t) && t.networks == s.networks && t.frames == s.frames && t.timer.None?
    decreases |events|
  {
    InvAlways(before);
    hide Run;
    if events != [] { DisposeIsFinal(before, s, events[..|events| - 1]); }
  }
}
