/**
 * One WebSocket session on the server: the receiver loop with its frame budget, its subscribe cap and
 * its forwarders (`run_receiver` and the teardown in `run_session`, src/live/server.rs).
 */
module Session {
  import opened Wrappers
  import opened Ints
  import opened Arith

  datatype Topic = Blocks | Transfers | AtsFeed

  /** What a frame asks for. `refusal` is the provider's answer when a forwarder is spawned. */
  datatype Request =
    | Subscribe(topic: Topic, refusal: Option<string>)
    | Unsubscribe(topic: Topic)
    | PongMsg
    | BadText(error: string)
    | Binary
    | WsPing
    | WsPong
    | Close

  /** `at` is the reading the window is checked against, `resetAt` the one a fresh window starts from. */
  datatype Inbound = Failed | Frame(at: nat, resetAt: nat, request: Request)

  type Handle = nat

  datatype State = State(
    windowStart: nat,
    frameBudget: nat,
    subscribesEver: nat,
    forwarders: map<Topic, Handle>,
    closed: bool,
    // history: spawned and aborted forwarders, error replies, and the frames that passed the budget
    spawned: nat,
    aborted: set<Handle>,
    replies: seq<string>,
    times: seq<nat>,
    served: seq<Request>)

  /** Time is in milliseconds. */
  const SECOND: nat := 1000
  const MAX_FRAMES: nat := 20
  const MAX_SUBSCRIBES: nat := 128

  function Opened(now: nat): State {
    State(now, MAX_FRAMES, 0, map[], false, 0, {}, [], [], [])
  }

  function Replied(s: State, message: string): State { s.(replies := s.replies + [message]) }

  /** The window is renewed a second after it started. */
  function Refill(s: State, at: nat, resetAt: nat): State {
    if at >= s.windowStart + SECOND then s.(windowStart := resetAt, frameBudget := MAX_FRAMES) else s
  }

  function Serve(s: State, r: Request): State {
    var s := s.(served := s.served + [r]);
    match r
    case Subscribe(topic, refusal) =>
      if topic in s.forwarders then s
      else if refusal.None? then s.(forwarders := s.forwarders[topic := s.spawned], spawned := s.spawned + 1)
      else Replied(s, refusal.value)
    case Unsubscribe(topic) =>
      if topic in s.forwarders
      then s.(forwarders := s.forwarders - {topic}, aborted := s.aborted + {s.forwarders[topic]})
      else s
    case BadText(error) => Replied(s, "bad client frame: " + error)
    case Binary => Replied(s, "binary frames are not supported")
    case Close => s.(closed := true)
    case _ => s
  }

  /** One pass of the loop. */
  function Step(s: State, f: Inbound): State {
    if f.Failed? then s.(closed := true)
    else
      var s := Refill(s, f.at, f.resetAt);
      if s.frameBudget == 0 then Replied(s, "inbound rate limit exceeded").(closed := true)
      else
        var s := s.(frameBudget := s.frameBudget - 1, times := s.times + [f.at]);
        if f.request.Subscribe? then
          var s := s.(subscribesEver := SatAdd(s.subscribesEver, 1, U32_MAX));
          if s.subscribesEver > MAX_SUBSCRIBES
          then Replied(s, "subscribe churn limit exceeded").(closed := true)
          else Serve(s, f.request)
        else Serve(s, f.request)
  }

  /** The loop: it stops at the first frame that closes the session. */
  function Receive(now: nat, inbound: seq<Inbound>): State
    decreases |inbound|
  {
    if inbound == [] then Opened(now)
    else
      var s := Receive(now, inbound[..|inbound| - 1]);
      if s.closed then s else Step(s, inbound[|inbound| - 1])
  }

  // ---- the loop as the source runs it ----

  class Receiver {
    var windowStart: nat
    var frameBudget: nat
    var subscribesEver: nat
    var forwarders: map<Topic, Handle>
    var closed: bool
    var spawned: nat
    var aborted: set<Handle>
    var replies: seq<string>
    ghost var times: seq<nat>
    ghost var served: seq<Request>

    ghost function Abs(): State
      reads this
    {
      State(windowStart, frameBudget, subscribesEver, forwarders, closed, spawned, aborted, replies, times, served)
    }

    constructor (now: nat)
      ensures Abs() == Opened(now)
    {
      windowStart, frameBudget, subscribesEver := now, MAX_FRAMES, 0;
      forwarders, closed, spawned, aborted, replies := map[], false, 0, {}, [];
      times, served := [], [];
    }

    method SendError(message: string)
      modifies this`replies
      ensures replies == old(replies) + [message]
    {
      replies := replies + [message];
    }

    /** The dispatch of one frame that passed the guards. */
    method Dispatch(r: Request)
      modifies this
      ensures Abs() == Serve(old(Abs()), r)
    {
      served := served + [r];
      match r {
        case Subscribe(topic, refusal) =>
          if topic in forwarders { return; }
          if refusal.None? {
            forwarders, spawned := forwarders[topic := spawned], spawned + 1;
          } else {
            SendError(refusal.value);
          }
        case Unsubscribe(topic) =>
          if topic in forwarders {
            var h := forwarders[topic];
            forwarders := forwarders - {topic};
            aborted := aborted + {h};
          }
        case BadText(error) => SendError("bad client frame: " + error);
        case Binary => SendError("binary frames are not supported");
        case Close => closed := true;
        case _ =>
      }
    }

    method OnFrame(f: Inbound)
      modifies this
      ensures Abs() == Step(old(Abs()), f)
    {
      hide Serve;
      if f.Failed? {
        closed := true;
        return;
      }
      if f.at >= windowStart + SECOND {
        windowStart := f.resetAt;
        frameBudget := MAX_FRAMES;
      }
      if frameBudget == 0 {
        SendError("inbound rate limit exceeded");
        closed := true;
        return;
      }
      frameBudget := frameBudget - 1;
      times := times + [f.at];
      if f.request.Subscribe? {
        subscribesEver := SatAdd(subscribesEver, 1, U32_MAX);
        if subscribesEver > MAX_SUBSCRIBES {
          SendError("subscribe churn limit exceeded");
          closed := true;
          return;
        }
      }
      Dispatch(f.request);
    }

    /** Every forwarder still there is aborted when the session ends. */
    method Teardown()
      modifies this`forwarders, this`aborted
      ensures forwarders == map[] && aborted == old(aborted) + old(forwarders).Values
    {
      var left := forwarders;
      while left != map[]
        invariant aborted + left.Values == old(aborted) + old(forwarders).Values
        invariant left.Keys <= old(forwarders).Keys && forall t :: t in left ==> left[t] == old(forwarders)[t]
        decreases |left|
      {
        var topic :| topic in left;
        assert left == (left - {topic})[topic := left[topic]];
        assert left.Values == (left - {topic}).Values + {left[topic]};
        aborted := aborted + {left[topic]};
        left := left - {topic};
      }
      forwarders := map[];
    }
  }

  method RunReceiver(now: nat, inbound: seq<Inbound>) returns (r: Receiver)
    ensures fresh(r) && r.Abs() == Receive(now, inbound)
  {
    r := new Receiver(now);
    for i := 0 to |inbound|
      invariant fresh(r) && r.Abs() == Receive(now, inbound[..i])
    {
      assert inbound[..i + 1][..i] == inbound[..i];
      if !r.closed { r.OnFrame(inbound[i]); }
    }
    assert inbound[..|inbound|] == inbound;
  }

  // ---- the frame budget ----

  /** The last clock reading. */
  function Clock(now: nat, inbound: seq<Inbound>): nat {
    if inbound == [] then now
    else
      var last := inbound[|inbound| - 1];
      if last.Frame? then last.resetAt else Clock(now, inbound[..|inbound| - 1])
  }

  /** Clock readings never go back. */
  ghost predicate Timely(now: nat, inbound: seq<Inbound>) {
    inbound == [] ||
    var front, last := inbound[..|inbound| - 1], inbound[|inbound| - 1];
    Timely(now, front) && (last.Frame? ==> Clock(now, front) <= last.at <= last.resetAt)
  }

  /** The part of the state that the frame budget lives in. */
  datatype Budget = Budget(windowStart: nat, left: nat, times: seq<nat>)

  function BudgetOf(s: State): Budget { Budget(s.windowStart, s.frameBudget, s.times) }

  function Spend(b: Budget, at: nat, resetAt: nat): Budget {
    if at >= b.windowStart + SECOND then Budget(resetAt, MAX_FRAMES - 1, b.times + [at])
    else if b.left > 0 then b.(left := b.left - 1, times := b.times + [at])
    else b
  }

  /** Serving a frame leaves the guards' state alone. */
  lemma ServeKeepsBudget(s: State, r: Request)
    ensures var t := Serve(s, r);
      BudgetOf(t) == BudgetOf(s) && t.subscribesEver == s.subscribesEver && t.served == s.served + [r]
  {
  }

  lemma StepSpends(s: State, f: Inbound)
    requires f.Frame?
    ensures BudgetOf(Step(s, f)) == Spend(BudgetOf(s), f.at, f.resetAt)
  {
    hide Serve;
    var mid := Refill(s, f.at, f.resetAt);
    if 0 < mid.frameBudget {
      mid := mid.(frameBudget := mid.frameBudget - 1, times := mid.times + [f.at]);
      if f.request.Subscribe? { mid := mid.(subscribesEver := SatAdd(mid.subscribesEver, 1, U32_MAX)); }
      ServeKeepsBudget(mid, f.request);
    }
  }

  /** Frames served before the current window. */
  function Before(b: Budget): int { |b.times| - (MAX_FRAMES - b.left) }

  /**
   * The windows, up to the current one, which a frame read at `began` opened: they begin at least a
   * second apart and let at most 20 frames through each. `previous` frames were served before the
   * window preceding the current one.
   */
  ghost predicate Windows(now: nat, b: Budget, previous: int, began: nat, clock: nat) {
    && b.left <= MAX_FRAMES
    && 0 <= previous <= Before(b) <= previous + MAX_FRAMES
    && now <= began <= b.windowStart <= clock
    && Before(b) <= MAX_FRAMES * ((began - now) / SECOND)
    && (began == now || began in b.times)
    && (forall i :: 0 <= i < |b.times| ==> now <= b.times[i] <= clock)
    && (forall i :: 0 <= i < previous ==> b.times[i] + SECOND <= began)
    && (forall i :: 0 <= i < Before(b) ==> b.times[i] <= began)
    && (forall i :: Before(b) <= i < |b.times| ==> began <= b.times[i])
  }

  /** Any `limit + 1` frames in a row take at least a second. */
  ghost predicate Spread(times: seq<nat>, limit: nat) {
    forall i, j :: 0 <= i && i + limit <= j < |times| ==> times[i] + SECOND <= times[j]
  }

  /**
   * The frames of the current window, and those served in the second before the frame that opened it,
   * are at most `limit`.
   */
  ghost predicate Calm(b: Budget, limit: nat) {
    0 <= Before(b) < |b.times| ==>
    forall i :: 0 <= i < Before(b) && i + limit < |b.times| ==> b.times[i] + SECOND <= b.times[Before(b)]
  }

  lemma NextWindow(now: nat, b: Budget, previous: int, began: nat, clock: nat, at: nat, resetAt: nat)
    requires Windows(now, b, previous, began, clock)
    requires b.windowStart + SECOND <= at && clock <= at <= resetAt
    ensures Windows(now, Spend(b, at, resetAt), Before(b), at, resetAt)
  {
    var b' := Spend(b, at, resetAt);
    DivAddOne(began - now, SECOND);
    DivMono(began - now + SECOND, at - now, SECOND);
    assert b'.times[|b.times|] == at;
  }

  lemma SameWindow(now: nat, b: Budget, previous: int, began: nat, clock: nat, at: nat, resetAt: nat)
    requires Windows(now, b, previous, began, clock)
    requires at < b.windowStart + SECOND && clock <= at <= resetAt
    ensures Windows(now, Spend(b, at, resetAt), previous, began, resetAt)
  {
    var b' := Spend(b, at, resetAt);
    assert forall i :: 0 <= i < |b.times| ==> b'.times[i] == b.times[i];
  }

  lemma ReceiveSpends(now: nat, inbound: seq<Inbound>)
    requires inbound != []
    ensures var before, after := Receive(now, inbound[..|inbound| - 1]), Receive(now, inbound);
      var f := inbound[|inbound| - 1];
      BudgetOf(after) == BudgetOf(before) || (f.Frame? && BudgetOf(after) == Spend(BudgetOf(before), f.at, f.resetAt))
  {
    var s, f := Receive(now, inbound[..|inbound| - 1]), inbound[|inbound| - 1];
    if !s.closed && f.Frame? {
      StepSpends(s, f);
      hide Step;
    }
  }

  lemma WindowsLater(now: nat, b: Budget, previous: int, began: nat, clock: nat, clock': nat)
    requires Windows(now, b, previous, began, clock) && clock <= clock'
    ensures Windows(now, b, previous, began, clock')
  {
  }

  lemma {:induction false} Windowed(now: nat, inbound: seq<Inbound>) returns (previous: int, began: nat)
    requires Timely(now, inbound)
    ensures Windows(now, BudgetOf(Receive(now, inbound)), previous, began, Clock(now, inbound))
    decreases |inbound|
  {
    if inbound == [] {
      previous, began := 0, now;
    } else {
      hide Receive, Windows, BudgetOf, Spend;
      var front, f := inbound[..|inbound| - 1], inbound[|inbound| - 1];
      previous, began := Windowed(now, front);
      var b, clock := BudgetOf(Receive(now, front)), Clock(now, front);
      ReceiveSpends(now, inbound);
      if BudgetOf(Receive(now, inbound)) == b {
        WindowsLater(now, b, previous, began, clock, Clock(now, inbound));
      } else {
        if f.at >= b.windowStart + SECOND {
          NextWindow(now, b, previous, began, clock, f.at, f.resetAt);
          previous, began := Before(b), f.at;
        } else {
          SameWindow(now, b, previous, began, clock, f.at, f.resetAt);
        }
      }
    }
  }

  /** A session that lasts until `end` serves at most 20 frames per started second. */
  lemma SessionBound(now: nat, inbound: seq<Inbound>, end: nat)
    requires Timely(now, inbound) && now <= end
    requires forall i :: 0 <= i < |Receive(now, inbound).times| ==> Receive(now, inbound).times[i] <= end
    ensures |Receive(now, inbound).times| <= 20 * ((end - now) / 1000 + 1)
  {
    var previous, began := Windowed(now, inbound);
    var b := BudgetOf(Receive(now, inbound));
    hide Receive;
    assert began <= end by { if began != now { var i :| 0 <= i < |b.times| && b.times[i] == began; } }
    DivMono(began - now, end - now, SECOND);
  }

  lemma SpendSpreads(now: nat, b: Budget, previous: int, began: nat, clock: nat, at: nat, resetAt: nat, limit: nat)
    requires Windows(now, b, previous, began, clock) && Spread(b.times, limit) && clock <= at
    requires MAX_FRAMES <= limit && Calm(Spend(b, at, resetAt), limit)
    ensures Spread(Spend(b, at, resetAt).times, limit)
  {
    var b' := Spend(b, at, resetAt);
    if b' != b {
      forall i, j | 0 <= i && i + limit <= j < |b'.times| ensures b'.times[i] + SECOND <= b'.times[j] {
        if j < |b.times| {
          assert b.times[i] + SECOND <= b.times[j];
        } else {
          assert b'.times[i] + SECOND <= b'.times[Before(b')] <= at;
        }
      }
    }
  }

  /**
   * Over any single second, wherever it starts, at most `limit` frames are served, if around every
   * renewal of the window the frames of the second before it and of the window it opens are that few.
   */
  lemma {:induction false} PerRollingSecond(now: nat, inbound: seq<Inbound>, limit: nat)
    requires Timely(now, inbound) && MAX_FRAMES <= limit
    requires forall k :: 0 <= k <= |inbound| ==> Calm(BudgetOf(Receive(now, inbound[..k])), limit)
    ensures Spread(Receive(now, inbound).times, limit)
    decreases |inbound|
  {
    if inbound != [] {
      hide Receive, Windows, Spread, Spend, Calm;
      var front, f := inbound[..|inbound| - 1], inbound[|inbound| - 1];
      forall k | 0 <= k <= |front| ensures Calm(BudgetOf(Receive(now, front[..k])), limit) {
        assert front[..k] == inbound[..k];
      }
      PerRollingSecond(now, front, limit);
      var previous, began := Windowed(now, front);
      ReceiveSpends(now, inbound);
      assert inbound[..|inbound|] == inbound;
      var b := BudgetOf(Receive(now, front));
      if BudgetOf(Receive(now, inbound)) != b {
        SpendSpreads(now, b, previous, began, Clock(now, front), f.at, f.resetAt, limit);
      }
    }
  }

  lemma AlwaysCalm(now: nat, b: Budget, previous: int, began: nat, clock: nat)
    requires Windows(now, b, previous, began, clock)
    ensures Calm(b, 2 * MAX_FRAMES)
  {
  }

  lemma TimelyPrefix(now: nat, inbound: seq<Inbound>, k: nat)
    requires Timely(now, inbound) && k <= |inbound|
    ensures Timely(now, inbound[..k])
    decreases |inbound|
  {
    if k < |inbound| {
      TimelyPrefix(now, inbound[..|inbound| - 1], k);
      assert inbound[..|inbound| - 1][..k] == inbound[..k];
    } else {
      assert inbound[..k] == inbound;
    }
  }

  /** Over any single second, wherever it starts, at most 40 frames are served. */
  lemma FortyPerRollingSecond(now: nat, inbound: seq<Inbound>, i: nat, j: nat)
    requires Timely(now, inbound)
    requires i < |Receive(now, inbound).times| && i + 40 <= j < |Receive(now, inbound).times|
    ensures Receive(now, inbound).times[i] + 1000 <= Receive(now, inbound).times[j]
  {
    hide Receive, Calm, BudgetOf;
    forall k | 0 <= k <= |inbound| ensures Calm(BudgetOf(Receive(now, inbound[..k])), 2 * MAX_FRAMES) {
      TimelyPrefix(now, inbound, k);
      var previous, began := Windowed(now, inbound[..k]);
      AlwaysCalm(now, BudgetOf(Receive(now, inbound[..k])), previous, began, Clock(now, inbound[..k]));
    }
    PerRollingSecond(now, inbound, 2 * MAX_FRAMES);
  }

  /** Twenty pongs just before the window is renewed, twenty right after. */
  function BurstTime(i: nat): nat { if i < 20 then 1000 - 1 else 1000 }

  function Burst(k: nat): seq<Inbound> {
    if k == 0 then [] else Burst(k - 1) + [Frame(BurstTime(k - 1), BurstTime(k - 1), WsPong)]
  }

  ghost predicate BurstServed(s: State, k: nat) {
    && !s.closed && |s.times| == k <= 40
    && (k <= 20 ==> s.windowStart == 0 && s.frameBudget == 20 - k)
    && (k > 20 ==> s.windowStart == 1000 && s.frameBudget == 40 - k)
    && (forall i :: 0 <= i < k ==> 1000 - 1 <= s.times[i] <= 1000)
  }

  lemma BurstStep(s: State, k: nat)
    requires k < 40 && BurstServed(s, k)
    ensures BurstServed(Step(s, Frame(BurstTime(k), BurstTime(k), WsPong)), k + 1)
  {
    var f := Frame(BurstTime(k), BurstTime(k), WsPong);
    StepSpends(s, f);
    PongKeepsOpen(s, f.at);
    hide Step;
  }

  /** The bound of 40 is met, within two milliseconds: the window is a fixed one, not a rolling second. */
  lemma {:induction false} BurstIsServed(k: nat)
    requires k <= 40
    ensures Timely(0, Burst(k)) && Clock(0, Burst(k)) <= BurstTime(k)
    ensures BurstServed(Receive(0, Burst(k)), k)
    decreases k
  {
    if k > 0 {
      BurstIsServed(k - 1);
      BurstSnoc(k);
      BurstStep(Receive(0, Burst(k - 1)), k - 1);
      assert !Receive(0, Burst(k - 1)).closed;
      hide Step, BurstServed;
    }
  }

  lemma PongKeepsOpen(s: State, at: nat)
    requires !s.closed && (0 < s.frameBudget || s.windowStart + SECOND <= at)
    ensures !Step(s, Frame(at, at, WsPong)).closed
  {
  }

  lemma {:induction false} BurstSnoc(k: nat)
    requires 0 < k
    ensures |Burst(k)| == k && Burst(k)[..k - 1] == Burst(k - 1)
    decreases k
  {
    if k > 1 { BurstSnoc(k - 1); }
  }

  // ---- subscriptions ----

  /** The guards let the frame through. */
  predicate Passes(s: State, f: Inbound) {
    && f.Frame?
    && 0 < Refill(s, f.at, f.resetAt).frameBudget
    && (f.request.Subscribe? ==> s.subscribesEver < MAX_SUBSCRIBES)
  }

  /** What the guards do not touch. */
  ghost predicate SameSession(s: State, t: State) {
    t.forwarders == s.forwarders && t.spawned == s.spawned && t.aborted == s.aborted && t.served == s.served
  }

  /** A step either serves its frame or ends the session. */
  lemma StepServesOrCloses(s: State, f: Inbound) returns (mid: State)
    requires s.subscribesEver <= MAX_SUBSCRIBES
    ensures SameSession(s, mid)
    ensures Passes(s, f) ==> Step(s, f) == Serve(mid, f.request)
    ensures Passes(s, f) ==> mid.subscribesEver == s.subscribesEver + if f.request.Subscribe? then 1 else 0
    ensures !Passes(s, f) ==> Step(s, f) == mid && mid.closed
    ensures !Passes(s, f) ==> Min(mid.subscribesEver, MAX_SUBSCRIBES) == s.subscribesEver
  {
    hide Serve;
    if Passes(s, f) {
      mid := Refill(s, f.at, f.resetAt);
      mid := mid.(frameBudget := mid.frameBudget - 1, times := mid.times + [f.at],
                  subscribesEver := mid.subscribesEver + if f.request.Subscribe? then 1 else 0);
    } else {
      mid := Step(s, f);
    }
  }

  function Subscribes(served: seq<Request>): nat {
    if served == [] then 0
    else Subscribes(served[..|served| - 1]) + if served[|served| - 1].Subscribe? then 1 else 0
  }

  lemma SubscribesSnoc(served: seq<Request>, r: Request)
    ensures Subscribes(served + [r]) == Subscribes(served) + if r.Subscribe? then 1 else 0
  {
    assert (served + [r])[..|served|] == served;
  }

  /** At most 128 subscribes are ever attempted; the next one ends the session. */
  lemma {:induction false} SubscribeBound(now: nat, inbound: seq<Inbound>)
    ensures var s := Receive(now, inbound);
      && Subscribes(s.served) == Min(s.subscribesEver, 128)
      && (!s.closed ==> s.subscribesEver <= 128)
    decreases |inbound|
  {
    if inbound != [] {
      var front, f := inbound[..|inbound| - 1], inbound[|inbound| - 1];
      SubscribeBound(now, front);
      hide Step;
      var s := Receive(now, front);
      if !s.closed {
        var mid := StepServesOrCloses(s, f);
        if Passes(s, f) {
          ServeKeepsBudget(mid, f.request);
          SubscribesSnoc(s.served, f.request);
        }
      }
    }
  }

  /** Frames that passed the budget since the window was last renewed. */
  function WindowCount(now: nat, inbound: seq<Inbound>): nat
    decreases |inbound|
  {
    if inbound == [] then 0
    else
      var front, f := inbound[..|inbound| - 1], inbound[|inbound| - 1];
      var count, s := WindowCount(now, front), Receive(now, front);
      if s.closed || f.Failed? then count
      else if f.at >= s.windowStart + 1000 then 1
      else if count < 20 then count + 1
      else count
  }

  /** The frames before this one in the window that a frame read at `at` falls into. */
  function InWindow(now: nat, inbound: seq<Inbound>, at: nat): nat {
    if at >= Receive(now, inbound).windowStart + 1000 then 0 else WindowCount(now, inbound)
  }

  lemma {:induction false} BudgetCounts(now: nat, inbound: seq<Inbound>)
    ensures WindowCount(now, inbound) <= 20 && Receive(now, inbound).frameBudget == 20 - WindowCount(now, inbound)
    decreases |inbound|
  {
    if inbound != [] {
      var front, f := inbound[..|inbound| - 1], inbound[|inbound| - 1];
      BudgetCounts(now, front);
      var s := Receive(now, front);
      if !s.closed && f.Frame? {
        StepSpends(s, f);
        assert BudgetOf(Step(s, f)).left == Step(s, f).frameBudget;
        hide Step;
      }
    }
  }

  /**
   * What one more frame does to an open session. It ends with a failed read, with a 21st frame in one window,
   * with a 129th subscribe, or with a close frame, and by nothing else; a limit is answered with its message.
   */
  lemma EndsIff(now: nat, inbound: seq<Inbound>, f: Inbound)
    requires !Receive(now, inbound).closed
    ensures var s := Receive(now, inbound);
      var over := f.Frame? && InWindow(now, inbound, f.at) >= 20;
      var churned := f.Frame? && f.request.Subscribe? && Subscribes(s.served) >= 128;
      var t := Receive(now, inbound + [f]);
      && (t.closed <==> f.Failed? || over || churned || f.request.Close?)
      && (f.Frame? ==> (!over && !churned <==> t.served == s.served + [f.request]))
      && (over ==> t.replies == s.replies + ["inbound rate limit exceeded"])
      && (!over && churned ==> t.replies == s.replies + ["subscribe churn limit exceeded"])
  {
    var s := Receive(now, inbound);
    assert (inbound + [f])[..|inbound|] == inbound;
    SubscribeBound(now, inbound);
    BudgetCounts(now, inbound);
    assert Receive(now, inbound + [f]) == Step(s, f);
    hide Receive, Subscribes, WindowCount;
    StepEnds(s, f);
    hide Step;
  }

  lemma ServeCloses(s: State, r: Request)
    ensures Serve(s, r).closed <==> s.closed || r.Close?
    ensures Serve(s, r).served == s.served + [r]
  {
  }

  /** One pass over a frame, by the guards in turn. */
  lemma StepEnds(s: State, f: Inbound)
    requires !s.closed && s.frameBudget <= 20 && s.subscribesEver <= 128
    ensures var over := f.Frame? && f.at < s.windowStart + 1000 && s.frameBudget == 0;
      var churned := f.Frame? && f.request.Subscribe? && s.subscribesEver >= 128;
      var t := Step(s, f);
      && (t.closed <==> f.Failed? || over || churned || f.request.Close?)
      && (f.Frame? ==> (!over && !churned <==> t.served == s.served + [f.request]))
      && (over ==> t.replies == s.replies + ["inbound rate limit exceeded"])
      && (!over && churned ==> t.replies == s.replies + ["subscribe churn limit exceeded"])
  {
    hide Serve;
    if f.Frame? {
      var mid := Refill(s, f.at, f.resetAt);
      if mid.frameBudget > 0 {
        mid := mid.(frameBudget := mid.frameBudget - 1, times := mid.times + [f.at]);
        if f.request.Subscribe? { mid := mid.(subscribesEver := mid.subscribesEver + 1); }
        ServeCloses(mid, f.request);
      }
    }
  }

  /** How a served frame is answered: a refused subscribe, a bad text and a binary frame are told so. */
  function Answer(forwarders: map<Topic, Handle>, r: Request): seq<string> {
    if r.BadText? then ["bad client frame: " + r.error]
    else if r.Binary? then ["binary frames are not supported"]
    else if r.Subscribe? && r.topic !in forwarders && r.refusal.Some? then [r.refusal.value]
    else []
  }

  lemma ServeAnswers(s: State, r: Request)
    ensures Serve(s, r).replies == s.replies + Answer(s.forwarders, r)
  {
  }

  lemma AnswersAre(now: nat, inbound: seq<Inbound>, f: Inbound)
    requires !Receive(now, inbound).closed && f.Frame?
    requires Receive(now, inbound + [f]).served == Receive(now, inbound).served + [f.request]
    ensures Receive(now, inbound + [f]).replies
         == Receive(now, inbound).replies + Answer(Receive(now, inbound).forwarders, f.request)
  {
    var s := Receive(now, inbound);
    assert (inbound + [f])[..|inbound|] == inbound;
    assert Receive(now, inbound + [f]) == Step(s, f);
    hide Receive, Answer, Serve;
    var mid := Refill(s, f.at, f.resetAt);
    if mid.frameBudget > 0 {
      mid := mid.(frameBudget := mid.frameBudget - 1, times := mid.times + [f.at]);
      if f.request.Subscribe? { mid := mid.(subscribesEver := SatAdd(mid.subscribesEver, 1, U32_MAX)); }
      ServeAnswers(mid, f.request);
    }
  }

  /** Subscribed with success, and not unsubscribed since. */
  ghost predicate Subscribed(served: seq<Request>, topic: Topic) {
    exists i :: 0 <= i < |served| && served[i] == Subscribe(topic, None)
      && forall j :: i < j < |served| ==> served[j] != Unsubscribe(topic)
  }

  lemma SubscribedSnoc(served: seq<Request>, r: Request, topic: Topic)
    ensures Subscribed(served + [r], topic) <==>
      r == Subscribe(topic, None) || (Subscribed(served, topic) && r != Unsubscribe(topic))
  {
    var all := served + [r];
    if r == Subscribe(topic, None) { assert all[|served|] == r; }
    if Subscribed(served, topic) && r != Unsubscribe(topic) {
      var i :| 0 <= i < |served| && served[i] == Subscribe(topic, None)
        && forall j :: i < j < |served| ==> served[j] != Unsubscribe(topic);
      assert all[i] == served[i];
    }
    if Subscribed(all, topic) && r != Subscribe(topic, None) {
      var i :| 0 <= i < |all| && all[i] == Subscribe(topic, None)
        && forall j :: i < j < |all| ==> all[j] != Unsubscribe(topic);
      assert i < |served| && served[i] == all[i];
      assert all[|served|] == r;
      assert forall j :: i < j < |served| ==> served[j] == all[j];
    }
  }

  /** The forwarder map holds a topic iff it was subscribed since its last unsubscribe. */
  ghost predicate Faithful(s: State) {
    forall topic :: topic in s.forwarders <==> Subscribed(s.served, topic)
  }

  /** Every forwarder ever spawned is in the map under one topic, or has been aborted. */
  ghost predicate Accounted(forwarders: map<Topic, Handle>, spawned: nat, aborted: set<Handle>) {
    && (forall t :: t in forwarders ==> forwarders[t] < spawned && forwarders[t] !in aborted)
    && (forall t, u :: t in forwarders && u in forwarders && t != u ==> forwarders[t] != forwarders[u])
    && (forall h :: 0 <= h < spawned ==> h in aborted || h in forwarders.Values)
    && (forall h :: h in aborted ==> h < spawned)
  }

  ghost predicate NoneLeaked(s: State) { Accounted(s.forwarders, s.spawned, s.aborted) }

  lemma ServeFaithful(s: State, r: Request)
    requires Faithful(s)
    ensures Faithful(Serve(s, r))
  {
    hide Subscribed;
    forall topic ensures topic in Serve(s, r).forwarders <==> Subscribed(Serve(s, r).served, topic) {
      SubscribedSnoc(s.served, r, topic);
    }
  }

  lemma SpawnAccounted(forwarders: map<Topic, Handle>, spawned: nat, aborted: set<Handle>, topic: Topic)
    requires Accounted(forwarders, spawned, aborted) && topic !in forwarders
    ensures Accounted(forwarders[topic := spawned], spawned + 1, aborted)
  {
    var after := forwarders[topic := spawned];
    forall h | 0 <= h < spawned + 1 ensures h in aborted || h in after.Values {
      if h == spawned {
        assert after[topic] == h;
      } else if h !in aborted {
        var u :| u in forwarders && forwarders[u] == h;
        assert after[u] == h;
      }
    }
  }

  lemma AbortAccounted(forwarders: map<Topic, Handle>, spawned: nat, aborted: set<Handle>, topic: Topic)
    requires Accounted(forwarders, spawned, aborted) && topic in forwarders
    ensures Accounted(forwarders - {topic}, spawned, aborted + {forwarders[topic]})
  {
    var after, gone := forwarders - {topic}, aborted + {forwarders[topic]};
    forall h | 0 <= h < spawned ensures h in gone || h in after.Values {
      if h !in gone {
        var u :| u in forwarders && forwarders[u] == h;
        assert u in after && after[u] == h;
      }
    }
  }

  lemma ServeLeaksNone(s: State, r: Request)
    requires NoneLeaked(s)
    ensures NoneLeaked(Serve(s, r))
  {
    hide Accounted, SECOND, MAX_FRAMES;
    if r.Subscribe? && r.topic !in s.forwarders && r.refusal.None? {
      SpawnAccounted(s.forwarders, s.spawned, s.aborted, r.topic);
    }
    if r.Unsubscribe? && r.topic in s.forwarders {
      AbortAccounted(s.forwarders, s.spawned, s.aborted, r.topic);
    }
  }

  /**
   * After any frames, a topic has a forwarder iff it was subscribed with success since its last
   * unsubscribe; each topic has one, and no forwarder that was spawned is forgotten.
   */
  lemma {:induction false} ForwardersFollowRequests(now: nat, inbound: seq<Inbound>)
    ensures Faithful(Receive(now, inbound)) && NoneLeaked(Receive(now, inbound))
    decreases |inbound|
  {
    if inbound != [] {
      var front, f := inbound[..|inbound| - 1], inbound[|inbound| - 1];
      ForwardersFollowRequests(now, front);
      SubscribeBound(now, front);
      hide Step, Serve, Subscribes, Subscribed;
      var s := Receive(now, front);
      if !s.closed {
        var mid := StepServesOrCloses(s, f);
        assert Faithful(mid) && NoneLeaked(mid);
        if Passes(s, f) {
          ServeFaithful(mid, f.request);
          ServeLeaksNone(mid, f.request);
        }
      }
    }
  }

  /** The whole session: whatever arrives, no forwarder outlives it. */
  method RunSession(now: nat, inbound: seq<Inbound>) returns (r: Receiver)
    ensures fresh(r) && r.forwarders == map[]
    ensures forall h :: 0 <= h < r.spawned <==> h in r.aborted
    ensures r.spawned == Receive(now, inbound).spawned && r.replies == Receive(now, inbound).replies
  {
    r := RunReceiver(now, inbound);
    ForwardersFollowRequests(now, inbound);
    ghost var s := Receive(now, inbound);
    assert s.forwarders == r.forwarders && s.aborted == r.aborted && s.spawned == r.spawned;
    r.Teardown();
  }
}
