// UamROS: configuring the lidar, retrying, and resetting it when scans stop coming. Every
// callback runs to its end on the spinner thread, so a run is a sequence of callbacks.
module Lifecycle {
  import opened Wrappers
  import opened Protocol
  import opened Framing
  import ReplyMatching

  datatype Subscription = Ar02 | Ar04 | Ar07 | Invalid

  // The command that ends a subscription.
  function StopCommand(m: Subscription): Kind
    requires m != Invalid
  {
    match m
    case Ar02 => AR03
    case Ar04 => AR05
    case Ar07 => AR06
  }

  // Commands that sendCommandWithReply can return from: scans do not reach its reply slot.
  predicate Answerable(k: Kind)
  {
    !ReplyMatching.IsScanKind(k)
  }

  // A configuration has a connection of its own and gives it up at its first time-out, so
  // until then replies are matched in time: with everything answered and received, the
  // wait for the reply to a stop command is over exactly if it is not the one of AR07.
  lemma StopAnswered(m: Subscription, run: seq<ReplyMatching.State>, i: nat)
    requires m != Invalid && ReplyMatching.IsRun(run) && i < |run| && !run[i].timedOut
    requires run[i].phase.Waiting? && run[i].phase.command == StopCommand(m)
    requires |run[i].line.replies| == |run[i].line.commands| && run[i].line.incoming == []
    ensures run[i].slot.ready <==> Answerable(StopCommand(m))
    ensures run[i].slot.ready <==> m != Ar07
  {
    hide ReplyMatching.IsRun;
    ReplyMatching.InTimeWaitAnswered(run, i);
  }

  datatype Params = Params(
    configureAttempts: int,    // an int, compared with a 32-bit unsigned counter
    powerCycleInterval: int,
    scanTimeout: int,
    useIntensity: bool,
    useMultiEcho: bool)
  {
    // What the comparison turns the parameter into.
    function AttemptLimit(): nat { configureAttempts % 0x1_0000_0000 }

    function Wanted(): Subscription
    {
      if useIntensity then Ar04 else if useMultiEcho then Ar07 else Ar02
    }
  }

  // A call of the hard-reset service: when, from where, and how many configurations had
  // failed since the attempt counter was last zeroed.
  datatype Reset = Reset(time: int, byConfigure: bool, failures: nat)

  // What the driver knows of its connection.
  datatype Link = Link(
    connected: bool,               // of the TCP client
    stopped: bool,                 // of the TCP client: no read task
    subscription: Subscription)

  // What limits the hard resets.
  datatype Log = Log(
    attempts: nat,
    lastRestart: Option<int>,
    clock: int,                    // the latest time that has been read
    failures: nat,                 // configurations failed since attempts was last zeroed
    resets: seq<Reset>)

  datatype Timer = Timer(
    started: bool,                 // start() has been called and stop() has not
    pending: bool)                 // the one-shot retry is still to come

  datatype Node = Node(
    configured: bool,
    link: Link,
    areasRead: bool,
    log: Log,
    timer: Timer,
    configuredStamp: int,
    scanStamp: int)

  // The readings of the clock and the outcome of a call of the reset service.
  datatype Service = Service(checked: int, called: int, succeeds: bool)

  // How the steps of one configuration go, were they reached.
  datatype Attempt = Attempt(
    connects: bool, details: bool, version: bool, areas: bool, unsubscribes: bool,
    status: bool, stamp: int, subscribes: bool, service: Service)

  datatype Event =
    | RetryTimer(attempt: Attempt)
    | Watchdog(now: int, service: Service)
    | Scan(now: int)

  // ----- what each callback does -----

  function Disconnected(l: Link): Link
  {
    if l.connected then l.(connected := false, stopped := true) else l
  }

  function Reading(l: Link): Link
  {
    if l.connected then l.(stopped := false) else l
  }

  // Where the steps inside the try block of configure end.
  datatype Tried = Tried(link: Link, areasRead: bool, stamped: bool, ok: bool)

  function TryConfigure(p: Params, l: Link, areasRead: bool, a: Attempt): Tried
  {
    var l0 := Disconnected(l);
    if !a.connects then Tried(l0, areasRead, false, false)
    else
      var l1 := l0.(connected := true);
      if !l1.stopped || !a.details then Tried(l1, areasRead, false, false)
      else
        var l2 := Reading(l1);
        if !a.version || (!areasRead && !a.areas) then Tried(l2, areasRead, false, false)
        else if !l2.subscription.Invalid? && !(a.unsubscribes && Answerable(StopCommand(l2.subscription))) then
          Tried(l2, true, false, false)
        else
          var l3 := l2.(subscription := Invalid);
          if !a.status then Tried(l3, true, false, false)
          else if !a.subscribes then Tried(l3, true, true, false)
          else Tried(l3.(subscription := p.Wanted()), true, true, true)
  }

  function HardReset(p: Params, g: Log, byConfigure: bool, v: Service): (Log, bool)
  {
    if g.lastRestart.None? || v.checked - g.lastRestart.value > p.powerCycleInterval then
      (g.(lastRestart := Some(v.called), clock := v.called,
          resets := g.resets + [Reset(v.called, byConfigure, g.failures)]),
       v.succeeds)
    else
      (g.(clock := v.called), false)
  }

  // The counting in the exception handler of configure.
  function Failed(p: Params, g: Log, v: Service): Log
  {
    var counted := g.(attempts := (g.attempts + 1) % 0x1_0000_0000, failures := g.failures + 1);
    if counted.attempts <= p.AttemptLimit() then counted.(clock := v.called)
    else
      var (r, done) := HardReset(p, counted, true, v);
      if done then r.(attempts := 0, failures := 0) else r
  }

  function Configured(p: Params, s: Node, a: Attempt): Node
  {
    var t := TryConfigure(p, s.link, s.areasRead, a);
    var stamp := if t.stamped then a.stamp else s.configuredStamp;
    var log := if t.ok then s.log.(attempts := 0, failures := 0, clock := a.service.called)
               else Failed(p, s.log, a.service);
    var link := if t.ok then t.link else Disconnected(t.link);
    Node(t.ok, link, t.areasRead, log, s.timer, stamp, s.scanStamp)
  }

  // ros::Timer: starting a started timer does nothing, and a one-shot timer that has fired
  // still counts as started.
  function TimerStart(t: Timer): Timer
  {
    if t.started then t else Timer(true, true)
  }

  function RetryIfNeeded(s: Node): Node
  {
    if s.configured then s else s.(timer := TimerStart(s.timer))
  }

  function TimerFires(p: Params, s: Node, a: Attempt): Node
  {
    var c := s.(timer := Timer(false, false));
    if c.configured then c else RetryIfNeeded(Configured(p, c, a))
  }

  function Reconfigure(s: Node): Node
  {
    s.(link := Disconnected(s.link), configured := false, timer := TimerStart(s.timer))
  }

  function Latest(a: int, b: int): int { if a > b then a else b }

  function WatchdogFires(p: Params, s: Node, now: int, v: Service): Node
  {
    if s.configured && now - Latest(s.configuredStamp, s.scanStamp) > p.scanTimeout then
      Reconfigure(s.(log := HardReset(p, s.log, false, v).0))
    else s.(log := s.log.(clock := Latest(s.log.clock, now)))
  }

  function Fresh(clock: int): Node
  {
    Node(false, Link(false, true, Invalid), false, Log(0, None, clock, 0, []), Timer(false, false), 0, 0)
  }

  function Booted(p: Params, a: Attempt): Node
  {
    RetryIfNeeded(Configured(p, Fresh(a.stamp), a))
  }

  function Step(p: Params, s: Node, e: Event): Node
  {
    match e
    case RetryTimer(a) => TimerFires(p, s, a)
    case Watchdog(now, v) => WatchdogFires(p, s, now, v)
    case Scan(now) => s.(scanStamp := now, log := s.log.(clock := now))
  }

  // A clock that does not run backwards, and a timer that fires only when it is armed.
  predicate Possible(s: Node, e: Event)
  {
    match e
    case RetryTimer(a) => s.timer.pending && s.log.clock <= a.stamp <= a.service.checked <= a.service.called
    case Watchdog(_, v) => s.log.clock <= v.checked <= v.called
    case Scan(now) => s.log.clock <= now
  }

  // A run that begins with the configuration boot.
  ghost predicate IsRunFrom(p: Params, boot: Attempt, run: seq<Node>, events: seq<Event>)
  {
    && |run| == |events| + 1
    && boot.stamp <= boot.service.checked <= boot.service.called && run[0] == Booted(p, boot)
    && forall i :: 0 <= i < |events| ==> Possible(run[i], events[i]) && run[i + 1] == Step(p, run[i], events[i])
  }

  ghost predicate IsRun(p: Params, run: seq<Node>, events: seq<Event>)
  {
    exists boot: Attempt :: IsRunFrom(p, boot, run, events)
  }

  // ----- the code -----

  // UamDriver: each operation reports by its result whether it throws.
  class UamDriver {
    const client: TcpClient
    var subscription: Subscription
    var sent: seq<Kind>                // the commands that have been sent, in order

    ghost predicate Valid()
      reads this, client, client.receiveBuffer, client.receiveBuffer.raw
    {
      client.Valid()
    }

    function State(): Link
      reads this, client
    {
      Link(client.connected, client.stopped, subscription)
    }

    constructor ()
      ensures Valid() && State() == Link(false, true, Invalid)
      ensures fresh(client) && fresh(client.receiveBuffer) && fresh(client.receiveBuffer.raw)
    {
      client := new TcpClient();
      subscription, sent := Invalid, [];
    }

    method Disconnect()
      requires Valid()
      modifies client
      ensures Valid() && State() == Disconnected(old(State()))
    {
      client.Disconnect();
    }

    method Connect(connects: bool) returns (ok: bool)
      requires Valid()
      modifies client
      ensures Valid() && ok == connects && State() == Link(connects, true, old(subscription))
    {
      ok := client.Connect(connects, true);
    }

    method StartReadTask() returns (ok: bool)
      requires Valid()
      modifies client
      ensures Valid() && ok == client.connected && State() == Reading(old(State()))
    {
      ok := client.StartAsyncReadTask();
    }

    // replies: whether the device answers in time.
    method SendCommandWithReply(k: Kind, replies: bool) returns (ok: bool)
      modifies this`sent
      ensures ok == (client.connected && replies && Answerable(k))
      ensures sent == old(sent) + if client.connected then [k] else []
    {
      if !client.connected {
        return false;
      }
      sent := sent + [k];
      return replies && Answerable(k);
    }

    method GetScanDetails(replies: bool) returns (ok: bool)
      ensures ok == (client.stopped && client.connected && replies)
    {
      if !client.stopped {
        return false;
      }
      if !client.connected {
        return false;
      }
      return replies;
    }

    // getVersionDetails and getSafetyArea.
    method SendWithReadTask(k: Kind, replies: bool) returns (ok: bool)
      requires Valid() && Answerable(k)
      modifies client, this`sent
      ensures Valid() && ok == (client.connected && replies) && State() == Reading(old(State()))
      ensures sent == old(sent) + if client.connected then [k] else []
    {
      if client.stopped {
        var started := StartReadTask();
      }
      ok := SendCommandWithReply(k, replies);
    }

    // AR03 ends AR02, AR05 ends AR04, and AR06 ends AR07.
    method StopStreaming(replies: bool) returns (ok: bool)
      modifies this`subscription, this`sent
      ensures ok == (subscription == Invalid)
      ensures sent == old(sent) +
        if !client.connected || old(subscription) == Invalid then []
        else [if old(subscription) == Ar02 then AR03 else if old(subscription) == Ar04 then AR05 else AR06]
      ensures subscription ==
        if old(subscription) != Invalid && !(client.connected && replies && Answerable(StopCommand(old(subscription))))
        then old(subscription) else Invalid
    {
      match subscription {
        case Invalid => return true;
        case Ar02 => ok := SendCommandWithReply(AR03, replies);
        case Ar04 => ok := SendCommandWithReply(AR05, replies);
        case Ar07 => ok := SendCommandWithReply(AR06, replies);
      }
      if ok {
        subscription := Invalid;
      }
    }

    method GetSensorStatus(unsubscribes: bool, replies: bool) returns (ok: bool)
      requires Valid()
      modifies client, this`subscription, this`sent
      ensures Valid() && client.connected == old(client.connected)
      ensures sent == old(sent)
        + (if !client.connected || old(subscription) == Invalid then []
           else [if old(subscription) == Ar02 then AR03 else if old(subscription) == Ar04 then AR05 else AR06])
        + if client.connected && subscription == Invalid then [XR00] else []
      ensures client.stopped == Reading(old(State())).stopped
      ensures ok == (subscription == Invalid && client.connected && replies)
      ensures subscription ==
        if old(subscription) != Invalid
           && !(client.connected && unsubscribes && Answerable(StopCommand(old(subscription))))
        then old(subscription) else Invalid
    {
      if client.stopped {
        var started := StartReadTask();
      }
      if subscription != Invalid {
        var stops := StopStreaming(unsubscribes);
        if !stops {
          return false;
        }
      }
      ok := SendCommandWithReply(XR00, replies);
    }

    method StartStreaming(wanted: Subscription, replies: bool) returns (ok: bool)
      requires Valid() && wanted != Invalid
      modifies client, this`subscription, this`sent
      ensures Valid()
      ensures sent == old(sent) +
        if !client.connected || old(subscription) != Invalid then []
        else [if wanted == Ar02 then AR02 else if wanted == Ar04 then AR04 else AR07]
      ensures old(subscription) != Invalid ==> ok && State() == old(State())
      ensures old(subscription) == Invalid ==>
        ok == (client.connected && replies)
        && State() == Reading(old(State())).(subscription := if ok then wanted else Invalid)
    {
      if subscription != Invalid {
        return true;
      }
      var started := StartReadTask();
      if !started {
        return false;
      }
      match wanted {
        case Ar02 => ok := SendCommandWithReply(AR02, replies);
        case Ar04 => ok := SendCommandWithReply(AR04, replies);
        case Ar07 => ok := SendCommandWithReply(AR07, replies);
      }
      if ok {
        subscription := wanted;
      }
    }
  }

  // The commands of a configuration, one of which reads the safety areas.
  function Script(p: Params, was: Subscription, areasRead: bool): seq<Kind>
  {
    [VR00]
    + (if areasRead then [] else [YR])
    + (match was
       case Invalid => []
       case Ar02 => [AR03]
       case Ar04 => [AR05]
       case Ar07 => [AR06])
    + [XR00]
    + [if p.useIntensity then AR04 else if p.useMultiEcho then AR07 else AR02]
  }

  lemma ScriptSent(p: Params, was: Subscription, areasRead: bool, before: seq<Kind>)
    ensures before + Script(p, was, areasRead) ==
      before + [VR00] + (if areasRead then [] else [YR])
      + (if was == Invalid then [] else [if was == Ar02 then AR03 else if was == Ar04 then AR05 else AR06])
      + [XR00] + [if p.Wanted() == Ar02 then AR02 else if p.Wanted() == Ar04 then AR04 else AR07]
  {
  }

  class UamRos {
    const params: Params
    const lidar: UamDriver
    var configured: bool
    var attempts: nat
    var areasRead: bool
    var timerStarted: bool
    var timerPending: bool
    var lastRestart: Option<int>
    var configuredStamp: int
    var scanStamp: int
    var clock: int
    var failures: nat
    var resets: seq<Reset>

    function State(): Node
      reads this, lidar, lidar.client
    {
      Node(configured, lidar.State(), areasRead, LogState(), Timer(timerStarted, timerPending),
           configuredStamp, scanStamp)
    }

    function LogState(): Log
      reads this`attempts, this`lastRestart, this`clock, this`failures, this`resets
    {
      Log(attempts, lastRestart, clock, failures, resets)
    }

    constructor (p: Params, a: Attempt)
      ensures fresh(lidar) && fresh(lidar.client) && lidar.Valid() && params == p
      ensures State() == Booted(p, a)
    {
      params := p;
      lidar := new UamDriver();
      configured, attempts, areasRead := false, 0, false;
      timerStarted, timerPending, lastRestart := false, false, None;
      configuredStamp, scanStamp, clock, failures, resets := 0, 0, a.stamp, 0, [];
      new;
      var ok := Configure(a);
      if !ok {
        StartTimer();
      }
    }

    method StartTimer()
      modifies this`timerStarted, this`timerPending
      ensures Timer(timerStarted, timerPending) == TimerStart(old(Timer(timerStarted, timerPending)))
    {
      if !timerStarted {
        timerStarted, timerPending := true, true;
      }
    }

    method LidarHardReset(byConfigure: bool, v: Service) returns (done: bool)
      modifies this`lastRestart, this`resets, this`clock
      ensures (LogState(), done) == HardReset(params, old(LogState()), byConfigure, v)
    {
      clock := v.called;
      if lastRestart.None? || v.checked - lastRestart.value > params.powerCycleInterval {
        lastRestart := Some(v.called);
        resets := resets + [Reset(v.called, byConfigure, failures)];
        return v.succeeds;
      }
      return false;
    }

    // The steps up to the safety areas, which are read once.
    method ConnectAndRead(a: Attempt) returns (ok: bool)
      requires lidar.Valid()
      modifies this`areasRead, lidar`sent, lidar.client
      ensures lidar.Valid()
      ensures ok == (a.connects && a.details && a.version && (old(areasRead) || a.areas))
      ensures areasRead == (old(areasRead) || ok)
      ensures lidar.State() == Link(a.connects, !(a.connects && a.details), old(lidar.subscription))
      ensures ok ==> lidar.sent == old(lidar.sent) + [VR00] + if old(areasRead) then [] else [YR]
    {
      ok := lidar.Connect(a.connects);
      if !ok { return; }
      ok := lidar.GetScanDetails(a.details);
      if !ok { return; }
      ok := lidar.SendWithReadTask(VR00, a.version);
      if !ok { return; }
      if !areasRead {
        ok := lidar.SendWithReadTask(YR, a.areas);
        if !ok { return; }
        areasRead := true;
      }
    }

    // The steps inside the try block up to the two assignments that end it; false when one
    // of them throws.
    method TrySteps(a: Attempt) returns (ok: bool)
      requires lidar.Valid()
      modifies this`areasRead, this`configuredStamp, lidar, lidar.client
      ensures lidar.Valid()
      ensures ok ==> lidar.sent == old(lidar.sent) + Script(params, old(lidar.subscription), old(areasRead))
      ensures var t := TryConfigure(params, old(lidar.State()), old(areasRead), a);
        && lidar.State() == t.link && areasRead == t.areasRead && ok == t.ok
        && configuredStamp == if t.stamped then a.stamp else old(configuredStamp)
    {
      assert !lidar.client.connected ==> lidar.client.stopped;
      hide Script, UamDriver.Valid, TcpClient.Valid, Answerable;
      ghost var before, was, read := lidar.sent, lidar.subscription, areasRead;
      ok := ConnectAndRead(a);
      if !ok { return; }
      ok := lidar.GetSensorStatus(a.unsubscribes, a.status);
      if !ok { return; }
      configuredStamp := a.stamp;
      ok := lidar.StartStreaming(params.Wanted(), a.subscribes);
      ScriptSent(params, was, read, before);
    }

    // The exception handler.
    method CatchFailure(v: Service)
      requires lidar.Valid()
      modifies this`attempts, this`failures, this`lastRestart, this`resets, this`clock, this`configured, lidar.client
      ensures lidar.Valid()
      ensures lidar.State() == Disconnected(old(lidar.State())) && !configured
      ensures LogState() == Failed(params, old(LogState()), v)
    {
      hide TcpClient.Valid, UamDriver.Valid;
      lidar.Disconnect();
      attempts, failures := (attempts + 1) % 0x1_0000_0000, failures + 1;
      clock := v.called;
      if attempts > params.AttemptLimit() {
        var done := LidarHardReset(true, v);
        if done {
          attempts, failures := 0, 0;
        }
      }
      configured := false;
    }

    method Configure(a: Attempt) returns (ok: bool)
      requires lidar.Valid()
      modifies this, lidar, lidar.client
      ensures lidar.Valid()
      ensures State() == Configured(params, old(State()), a)
      ensures ok == configured
      ensures ok ==> lidar.sent == old(lidar.sent) + Script(params, old(lidar.subscription), old(areasRead))
    {
      hide TryConfigure, Failed, TcpClient.Valid, UamDriver.Valid;
      ok := TrySteps(a);
      if ok {
        attempts, failures, clock := 0, 0, a.service.called;
        configured := true;
      } else {
        CatchFailure(a.service);
      }
    }

    method ConfigureTimerCallback(a: Attempt)
      requires lidar.Valid()
      modifies this, lidar, lidar.client
      ensures lidar.Valid()
      ensures State() == TimerFires(params, old(State()), a)
    {
      timerStarted, timerPending := false, false;
      if !configured {
        var ok := Configure(a);
        if !ok {
          StartTimer();
        }
      }
    }

    method TriggerReconfigure()
      requires lidar.Valid()
      modifies this`configured, this`timerStarted, this`timerPending, lidar.client
      ensures lidar.Valid()
      ensures State() == Reconfigure(old(State()))
    {
      lidar.Disconnect();
      configured := false;
      StartTimer();
    }

    method ScanWatchdogTimerCallback(now: int, v: Service)
      requires lidar.Valid()
      modifies this, lidar, lidar.client
      ensures lidar.Valid()
      ensures State() == WatchdogFires(params, old(State()), now, v)
    {
      var elapsed := now - Latest(configuredStamp, scanStamp);
      if configured && elapsed > params.scanTimeout {
        var done := LidarHardReset(false, v);
        TriggerReconfigure();
      } else {
        clock := Latest(clock, now);
      }
    }
  }

  // ----- what every callback keeps -----

  ghost predicate Spaced(resets: seq<Reset>, interval: int)
  {
    forall i :: 0 < i < |resets| ==> resets[i].time - resets[i - 1].time > interval
  }

  ghost predicate LogInv(p: Params, g: Log)
  {
    && g.attempts == g.failures % 0x1_0000_0000
    && (g.lastRestart.None? <==> g.resets == [])
    && (g.resets != [] ==> g.lastRestart == Some(g.resets[|g.resets| - 1].time) && g.lastRestart.value <= g.clock)
    && Spaced(g.resets, p.powerCycleInterval)
    && forall i :: 0 <= i < |g.resets| && g.resets[i].byConfigure ==> g.resets[i].failures > p.AttemptLimit()
  }

  ghost predicate LinkInv(p: Params, configured: bool, l: Link)
  {
    && (configured ==> l.connected && !l.stopped && l.subscription == p.Wanted())
    && (!configured ==> !l.connected && l.stopped)
  }

  ghost predicate Inv(p: Params, s: Node)
  {
    && (s.configured <==> !s.timer.pending)
    && (s.timer.started <==> s.timer.pending)
    && LinkInv(p, s.configured, s.link)
    && LogInv(p, s.log)
  }

  lemma HardResetKeeps(p: Params, g: Log, byConfigure: bool, v: Service)
    requires LogInv(p, g) && g.clock <= v.checked <= v.called
    requires byConfigure ==> g.failures > p.AttemptLimit()
    ensures LogInv(p, HardReset(p, g, byConfigure, v).0)
  {
    var t := HardReset(p, g, byConfigure, v).0;
    if |t.resets| > |g.resets| {
      forall i | 0 < i < |t.resets| ensures t.resets[i].time - t.resets[i - 1].time > p.powerCycleInterval {
        if i < |g.resets| {
          assert g.resets[i].time - g.resets[i - 1].time > p.powerCycleInterval;
        }
      }
    }
  }

  lemma FailedKeeps(p: Params, g: Log, v: Service)
    requires LogInv(p, g) && g.clock <= v.checked <= v.called
    ensures LogInv(p, Failed(p, g, v))
  {
    hide Spaced;
    var counted := g.(attempts := (g.attempts + 1) % 0x1_0000_0000, failures := g.failures + 1);
    assert LogInv(p, counted);
    if counted.attempts > p.AttemptLimit() {
      HardResetKeeps(p, counted, true, v);
    }
  }

  lemma ConfiguredKeeps(p: Params, s: Node, a: Attempt)
    requires LinkInv(p, s.configured, s.link) && !s.configured
    requires LogInv(p, s.log) && s.log.clock <= a.service.checked <= a.service.called
    ensures var t := Configured(p, s, a);
      LinkInv(p, t.configured, t.link) && LogInv(p, t.log) && t.timer == s.timer
  {
    hide Failed, Spaced;
    FailedKeeps(p, s.log, a.service);
  }

  lemma StepKeepsInv(p: Params, s: Node, e: Event)
    requires Inv(p, s) && Possible(s, e)
    ensures Inv(p, Step(p, s, e))
  {
    hide Configured, HardReset, LogInv;
    match e
    case RetryTimer(a) => ConfiguredKeeps(p, s.(timer := Timer(false, false)), a);
    case Watchdog(now, v) =>
      HardResetKeeps(p, s.log, false, v);
      ClockAdvances(p, s.log, Latest(s.log.clock, now));
    case Scan(now) => ClockAdvances(p, s.log, now);
  }

  lemma ClockAdvances(p: Params, g: Log, now: int)
    requires LogInv(p, g) && g.clock <= now
    ensures LogInv(p, g.(clock := now))
  {
  }

  lemma BootedInv(p: Params, a: Attempt)
    requires a.stamp <= a.service.checked <= a.service.called
    ensures Inv(p, Booted(p, a))
  {
    hide Configured;
    ConfiguredKeeps(p, Fresh(a.stamp), a);
  }

  lemma {:induction false} RunKeepsInv(p: Params, run: seq<Node>, events: seq<Event>, i: nat)
    requires IsRun(p, run, events) && i < |run|
    ensures Inv(p, run[i])
  {
    hide Step, Possible, Inv, Booted;
    if i == 0 {
      var boot: Attempt :| IsRunFrom(p, boot, run, events);
      BootedInv(p, boot);
    } else {
      RunKeepsInv(p, run, events, i - 1);
      StepKeepsInv(p, run[i - 1], events[i - 1]);
      assert run[i - 1 + 1] == Step(p, run[i - 1], events[i - 1]);
    }
  }

  // ----- the theorems -----

  // In every run, between callbacks, exactly one of "configured" and "retry armed" holds,
  // and configured means connected, reading and subscribed as the parameters ask, although
  // the subscription mode goes stale with every lost connection.
  lemma LifecycleInvariant(p: Params, run: seq<Node>, events: seq<Event>, i: nat)
    requires IsRun(p, run, events) && i < |run|
    ensures run[i].configured <==> !run[i].timer.pending
    ensures run[i].configured ==>
      && run[i].link.connected && !run[i].link.stopped
      && run[i].link.subscription == if p.useIntensity then Ar04 else if p.useMultiEcho then Ar07 else Ar02
    ensures !run[i].configured ==> !run[i].link.connected && run[i].link.stopped
  {
    RunKeepsInv(p, run, events, i);
  }

  // What a retry needs, from any reachable state: a stale subscription is the one thing a
  // lost connection leaves behind, and an answered unsubscription is all it costs.
  lemma RetryNeeds(p: Params, run: seq<Node>, events: seq<Event>, i: nat, a: Attempt)
    requires IsRun(p, run, events) && i < |run| && Possible(run[i], RetryTimer(a))
    ensures Step(p, run[i], RetryTimer(a)).configured <==>
      a.connects && a.details && a.version && (run[i].areasRead || a.areas)
      && (run[i].link.subscription.Invalid? || (a.unsubscribes && run[i].link.subscription != Ar07))
      && a.status && a.subscribes
  {
    RunKeepsInv(p, run, events, i);
  }

  // Any two resets of a run are more than one power-cycle interval apart for each reset
  // from the one to the other, so n resets span more than n - 1 intervals.
  lemma ResetSpacing(p: Params, run: seq<Node>, events: seq<Event>, k: nat, i: nat, j: nat)
    requires IsRun(p, run, events) && k < |run|
    requires i < j < |run[k].log.resets|
    ensures run[k].log.resets[j].time - run[k].log.resets[i].time > (j - i) * p.powerCycleInterval
  {
    RunKeepsInv(p, run, events, k);
    SpacingAdds(run[k].log.resets, p.powerCycleInterval, i, j);
  }

  // A failed configuration resets the lidar only after more failures than the limit since
  // the attempt counter was last zeroed.
  lemma ConfigureResets(p: Params, run: seq<Node>, events: seq<Event>, k: nat, j: nat)
    requires IsRun(p, run, events) && k < |run| && j < |run[k].log.resets|
    ensures run[k].log.resets[j].byConfigure ==> run[k].log.resets[j].failures > p.AttemptLimit()
  {
    RunKeepsInv(p, run, events, k);
  }

  lemma {:induction false} SpacingAdds(resets: seq<Reset>, interval: int, i: nat, j: nat)
    requires Spaced(resets, interval) && i < j < |resets|
    ensures resets[j].time - resets[i].time > (j - i) * interval
    decreases j
  {
    assert resets[j].time - resets[j - 1].time > interval;
    if i < j - 1 {
      SpacingAdds(resets, interval, i, j - 1);
      assert (j - i) * interval == (j - 1 - i) * interval + interval;
    }
  }

  // Some next retry configures the lidar.
  ghost predicate CanRecover(p: Params, s: Node)
  {
    exists a: Attempt :: Possible(s, RetryTimer(a)) && Step(p, s, RetryTimer(a)).configured
  }

  // A node that has lost its configuration can get it back at its next retry, if
  // everything answers, if and only if it is not left in the AR07 mode.
  lemma Recovery(p: Params, run: seq<Node>, events: seq<Event>, i: nat)
    requires IsRun(p, run, events) && i < |run| && !run[i].configured
    ensures CanRecover(p, run[i]) <==> run[i].link.subscription != Ar07
  {
    RunKeepsInv(p, run, events, i);
    var now := run[i].log.clock;
    var a := Attempt(true, true, true, true, true, true, now, true, Service(now, now, true));
    RetryNeeds(p, run, events, i, a);
    forall a: Attempt | Possible(run[i], RetryTimer(a)) && Step(p, run[i], RetryTimer(a)).configured
      ensures run[i].link.subscription != Ar07
    {
      RetryNeeds(p, run, events, i, a);
    }
  }

  // In the AR07 mode no later configuration ever succeeds: the stop command it would take
  // is answered by a scan.
  lemma {:induction false} StaleAr07NeverRecovers(p: Params, run: seq<Node>, events: seq<Event>, i: nat, j: nat)
    requires IsRun(p, run, events) && i <= j < |run|
    requires !run[i].configured && run[i].link.subscription == Ar07
    ensures !run[j].configured && run[j].link.subscription == Ar07
    decreases j
  {
    hide Step, Possible, Booted;
    if i < j {
      StaleAr07NeverRecovers(p, run, events, i, j - 1);
      assert run[j - 1 + 1] == Step(p, run[j - 1], events[j - 1]);
      StaleStep(p, run[j - 1], events[j - 1]);
    }
  }

  lemma StaleStep(p: Params, s: Node, e: Event)
    requires !s.configured && s.link.subscription == Ar07
    ensures !Step(p, s, e).configured && Step(p, s, e).link.subscription == Ar07
  {
    hide Failed, HardReset;
  }

  // So a node that streams multi-echo scans and loses its configuration has lost it for good.
  lemma {:induction false} LostMultiEcho(p: Params, run: seq<Node>, events: seq<Event>, i: nat, j: nat, k: nat)
    requires IsRun(p, run, events) && i < j <= k < |run| && p.Wanted() == Ar07
    requires run[i].configured && !run[j].configured
    ensures !run[k].configured
    decreases j
  {
    hide IsRun, Booted;
    if run[j - 1].configured {
      LosesConfiguration(p, run, events, j - 1);
      StaleAr07NeverRecovers(p, run, events, j, k);
    } else {
      LostMultiEcho(p, run, events, i, j - 1, k);
    }
  }

  lemma LosesConfiguration(p: Params, run: seq<Node>, events: seq<Event>, i: nat)
    requires IsRun(p, run, events) && i + 1 < |run| && run[i].configured && !run[i + 1].configured
    ensures run[i + 1].link.subscription == p.Wanted()
  {
    hide Booted, HardReset, Configured;
    RunKeepsInv(p, run, events, i);
    assert run[i + 1] == Step(p, run[i], events[i]);
  }

  // ----- when a configuration is lost, and when the lidar is reset -----

  // The time of the last scan among the first n events, 0 before the first one.
  function LastScan(events: seq<Event>, n: nat): int
    requires n <= |events|
  {
    if n == 0 then 0 else if events[n - 1].Scan? then events[n - 1].now else LastScan(events, n - 1)
  }

  // The time stamp of the last configuration that succeeded before state n.
  ghost function LastConfigured(boot: Attempt, run: seq<Node>, events: seq<Event>, n: nat): int
    requires |run| == |events| + 1 && n < |run|
  {
    if n == 0 then (if run[0].configured then boot.stamp else 0)
    else if events[n - 1].RetryTimer? && run[n].configured then events[n - 1].attempt.stamp
    else LastConfigured(boot, run, events, n - 1)
  }

  // Event i is a watchdog that finds the last configuration and the last scan too old.
  ghost predicate TimesOut(p: Params, boot: Attempt, run: seq<Node>, events: seq<Event>, i: nat)
    requires |run| == |events| + 1 && i < |events|
  {
    && events[i].Watchdog?
    && events[i].now - LastScan(events, i) > p.scanTimeout
    && events[i].now - LastConfigured(boot, run, events, i) > p.scanTimeout
  }

  lemma RunFromIsRun(p: Params, boot: Attempt, run: seq<Node>, events: seq<Event>, i: nat)
    requires IsRunFrom(p, boot, run, events) && i < |run|
    ensures IsRun(p, run, events) && Inv(p, run[i])
  {
    hide Inv, IsRunFrom, Step, Possible, Booted;
    RunKeepsInv(p, run, events, i);
  }

  lemma {:induction false} StampsAre(p: Params, boot: Attempt, run: seq<Node>, events: seq<Event>, i: nat)
    requires IsRunFrom(p, boot, run, events) && i < |run|
    ensures run[i].scanStamp == LastScan(events, i)
    ensures run[i].configured ==> run[i].configuredStamp == LastConfigured(boot, run, events, i)
  {
    hide Step, Inv, Possible;
    if i == 0 {
      BootStamps(p, boot);
    } else {
      StampsAre(p, boot, run, events, i - 1);
      RunFromIsRun(p, boot, run, events, i - 1);
      assert run[i - 1 + 1] == Step(p, run[i - 1], events[i - 1]);
      StampStep(p, run[i - 1], events[i - 1]);
    }
  }

  lemma BootStamps(p: Params, boot: Attempt)
    ensures var s := Booted(p, boot); s.scanStamp == 0 && (s.configured ==> s.configuredStamp == boot.stamp)
  {
    hide Failed;
  }

  lemma StampStep(p: Params, s: Node, e: Event)
    requires Inv(p, s) && Possible(s, e)
    ensures var t := Step(p, s, e);
      && t.scanStamp == (if e.Scan? then e.now else s.scanStamp)
      && (t.configured && e.RetryTimer? ==> t.configuredStamp == e.attempt.stamp)
      && (t.configured && !e.RetryTimer? ==> s.configured && t.configuredStamp == s.configuredStamp)
  {
    hide Failed, HardReset, LogInv;
  }

  // A configured node loses its configuration at a watchdog that finds both the last scan
  // and the last configuration older than the time-out, and never otherwise.
  lemma LosesWhen(p: Params, boot: Attempt, run: seq<Node>, events: seq<Event>, i: nat)
    requires IsRunFrom(p, boot, run, events) && i < |events| && run[i].configured
    ensures !run[i + 1].configured <==> TimesOut(p, boot, run, events, i)
  {
    hide Configured, HardReset, LogInv, LastScan, LastConfigured;
    StampsAre(p, boot, run, events, i);
    RunFromIsRun(p, boot, run, events, i);
    assert run[i + 1] == Step(p, run[i], events[i]);
  }

  // As long as no watchdog times out, a configured node stays configured and is not reset.
  lemma {:induction false} StaysConfigured(p: Params, boot: Attempt, run: seq<Node>, events: seq<Event>,
                                           i: nat, j: nat)
    requires IsRunFrom(p, boot, run, events) && i <= j < |run| && run[i].configured
    requires forall k :: i <= k < j ==> !TimesOut(p, boot, run, events, k)
    ensures run[j].configured && run[j].log.resets == run[i].log.resets
    decreases j
  {
    hide Configured, HardReset, LogInv, TimesOut;
    if i < j {
      StaysConfigured(p, boot, run, events, i, j - 1);
      LosesWhen(p, boot, run, events, j - 1);
      RunFromIsRun(p, boot, run, events, j - 1);
      assert run[j - 1 + 1] == Step(p, run[j - 1], events[j - 1]);
    }
  }

  // Whether the reset service may be called: never before, or more than the interval ago.
  ghost predicate MayReset(p: Params, resets: seq<Reset>, checked: int)
  {
    resets == [] || checked - resets[|resets| - 1].time > p.powerCycleInterval
  }

  // How many configurations have failed since one succeeded or since a reset of the lidar
  // that one of them asked for.
  ghost function Failures(boot: Attempt, run: seq<Node>, events: seq<Event>, n: nat): nat
    requires |run| == |events| + 1 && n < |run|
  {
    if n == 0 then
      if run[0].configured || (run[0].log.resets != [] && boot.service.succeeds) then 0 else 1
    else if !events[n - 1].RetryTimer? then Failures(boot, run, events, n - 1)
    else if run[n].configured
            || (|run[n].log.resets| > |run[n - 1].log.resets| && events[n - 1].attempt.service.succeeds) then 0
    else Failures(boot, run, events, n - 1) + 1
  }

  // The failure counter of the code is 32 bits wide, and so is what it is compared with.
  ghost predicate TooMany(p: Params, failures: nat)
  {
    failures % 0x1_0000_0000 > p.configureAttempts % 0x1_0000_0000
  }

  // The reset that event i makes, if it makes one: a watchdog that times out and a failing
  // configuration that is one too many do, unless the last reset is too recent.
  ghost function ResetsBy(p: Params, boot: Attempt, run: seq<Node>, events: seq<Event>, i: nat): seq<Reset>
    requires |run| == |events| + 1 && i < |events|
  {
    var failures, resets := Failures(boot, run, events, i), run[i].log.resets;
    match events[i]
    case Scan(_) => []
    case Watchdog(_, v) =>
      if run[i].configured && TimesOut(p, boot, run, events, i) && MayReset(p, resets, v.checked) then
        [Reset(v.called, false, failures)]
      else []
    case RetryTimer(a) =>
      if !run[i + 1].configured && TooMany(p, failures + 1) && MayReset(p, resets, a.service.checked) then
        [Reset(a.service.called, true, failures + 1)]
      else []
  }

  lemma HardResetIs(p: Params, g: Log, byConfigure: bool, v: Service)
    requires LogInv(p, g)
    ensures var (t, done) := HardReset(p, g, byConfigure, v);
      && t.failures == g.failures && t.attempts == g.attempts
      && t.resets == g.resets + (if MayReset(p, g.resets, v.checked) then [Reset(v.called, byConfigure, g.failures)]
                                 else [])
      && done == (MayReset(p, g.resets, v.checked) && v.succeeds)
  {
  }

  lemma FailedIs(p: Params, g: Log, v: Service)
    requires LogInv(p, g)
    ensures var t := Failed(p, g, v);
      var resets := TooMany(p, g.failures + 1) && MayReset(p, g.resets, v.checked);
      && t.resets == g.resets + (if resets then [Reset(v.called, true, g.failures + 1)] else [])
      && t.failures == (if resets && v.succeeds then 0 else g.failures + 1)
  {
    hide HardReset, MayReset, Spaced;
    var counted := g.(attempts := (g.attempts + 1) % 0x1_0000_0000, failures := g.failures + 1);
    assert counted.attempts == (g.failures + 1) % 0x1_0000_0000;
    assert LogInv(p, counted);
    HardResetIs(p, counted, true, v);
  }

  // The log after each kind of step.
  lemma StepLog(p: Params, s: Node, e: Event)
    requires Inv(p, s) && Possible(s, e)
    ensures e.Scan? ==> Step(p, s, e).log == s.log.(clock := e.now)
    ensures e.Watchdog? ==>
      var t := Step(p, s, e);
      if t.configured == s.configured then t.log.resets == s.log.resets && t.log.failures == s.log.failures
      else s.configured && t.log == HardReset(p, s.log, false, e.service).0
    ensures e.RetryTimer? ==>
      var t := Step(p, s, e);
      if t.configured then t.log.resets == s.log.resets && t.log.failures == 0
      else t.log == Failed(p, s.log, e.attempt.service)
  {
    hide Failed, HardReset, LogInv;
  }

  lemma {:induction false} FailuresAre(p: Params, boot: Attempt, run: seq<Node>, events: seq<Event>, i: nat)
    requires IsRunFrom(p, boot, run, events) && i < |run|
    ensures run[i].log.failures == Failures(boot, run, events, i)
  {
    hide Step, Inv, Possible, Failed, HardReset;
    if i == 0 {
      BootLog(p, boot);
    } else {
      FailuresAre(p, boot, run, events, i - 1);
      RunFromIsRun(p, boot, run, events, i - 1);
      assert run[i - 1 + 1] == Step(p, run[i - 1], events[i - 1]);
      StepFailures(p, run[i - 1], events[i - 1]);
    }
  }

  lemma StepFailures(p: Params, s: Node, e: Event)
    requires Inv(p, s) && Possible(s, e)
    ensures var t := Step(p, s, e);
      t.log.failures ==
        if !e.RetryTimer? then s.log.failures
        else if t.configured || (|t.log.resets| > |s.log.resets| && e.attempt.service.succeeds) then 0
        else s.log.failures + 1
  {
    hide Step, Possible, Failed, HardReset, LogInv;
    StepLog(p, s, e);
    if e.RetryTimer? {
      FailedIs(p, s.log, e.attempt.service);
    }
    if e.Watchdog? {
      HardResetIs(p, s.log, false, e.service);
    }
  }

  // The configuration at the start resets the lidar only if no failure at all is allowed.
  lemma BootLog(p: Params, boot: Attempt)
    ensures var s := Booted(p, boot);
      && s.log.resets == (if !s.configured && TooMany(p, 1) then [Reset(boot.service.called, true, 1)] else [])
      && s.log.failures == if s.configured || (s.log.resets != [] && boot.service.succeeds) then 0 else 1
  {
    hide TryConfigure, Failed;
    FailedIs(p, Fresh(boot.stamp).log, boot.service);
  }

  // Every call of the reset service, and nothing but the calls that are due.
  lemma ResetsWhen(p: Params, boot: Attempt, run: seq<Node>, events: seq<Event>, i: nat)
    requires IsRunFrom(p, boot, run, events) && i < |events|
    ensures run[i + 1].log.resets == run[i].log.resets + ResetsBy(p, boot, run, events, i)
  {
    hide Step, Possible, Failed, HardReset, LogInv, MayReset, TooMany, TimesOut, Failures;
    FailuresAre(p, boot, run, events, i);
    RunFromIsRun(p, boot, run, events, i);
    assert run[i + 1] == Step(p, run[i], events[i]);
    StepLog(p, run[i], events[i]);
    match events[i]
    case Scan(_) =>
    case Watchdog(_, v) =>
      HardResetIs(p, run[i].log, false, v);
      if run[i].configured {
        LosesWhen(p, boot, run, events, i);
      }
    case RetryTimer(a) =>
      FailedIs(p, run[i].log, a.service);
  }

  // ----- what an attempt leaves behind -----

  // The first configuration has nothing to stop and all areas to read.
  lemma BootNeeds(p: Params, boot: Attempt)
    ensures Booted(p, boot).configured <==>
      boot.connects && boot.details && boot.version && boot.areas && boot.status && boot.subscribes
    ensures Booted(p, boot).link.subscription ==
      if !Booted(p, boot).configured then Invalid
      else if p.useIntensity then Ar04
      else if p.useMultiEcho then Ar07
      else Ar02
  {
    hide Failed;
  }

  // An attempt that reads the safety areas.
  predicate ReadsAreas(a: Attempt)
  {
    a.connects && a.details && a.version && a.areas
  }

  // The areas are read once, by the first attempt that gets so far.
  lemma {:induction false} AreasReadWhen(p: Params, boot: Attempt, run: seq<Node>, events: seq<Event>, i: nat)
    requires IsRunFrom(p, boot, run, events) && i < |run|
    ensures run[i].areasRead <==>
      ReadsAreas(boot) || exists j :: 0 <= j < i && events[j].RetryTimer? && ReadsAreas(events[j].attempt)
  {
    hide Step, Inv, Possible, Failed;
    if i > 0 {
      AreasReadWhen(p, boot, run, events, i - 1);
      RunFromIsRun(p, boot, run, events, i - 1);
      assert run[i - 1 + 1] == Step(p, run[i - 1], events[i - 1]);
      StepAreas(p, run[i - 1], events[i - 1]);
    }
  }

  lemma StepAreas(p: Params, s: Node, e: Event)
    requires Inv(p, s) && Possible(s, e)
    ensures Step(p, s, e).areasRead <==> s.areasRead || (e.RetryTimer? && ReadsAreas(e.attempt))
  {
    hide Failed, HardReset, LogInv;
  }

  // The subscription mode after a retry: an old one is cleared by an answered stop command,
  // which AR07 has none of, and the wanted one is set by an answered start command.
  lemma RetrySubscribes(p: Params, run: seq<Node>, events: seq<Event>, i: nat, a: Attempt)
    requires IsRun(p, run, events) && i < |run| && Possible(run[i], RetryTimer(a))
    ensures var was := run[i].link.subscription;
      Step(p, run[i], RetryTimer(a)).link.subscription ==
        if !(a.connects && a.details && a.version && (run[i].areasRead || a.areas)) then was
        else if was != Invalid && (!a.unsubscribes || was == Ar07) then was
        else if !a.status || !a.subscribes then Invalid
        else if p.useIntensity then Ar04
        else if p.useMultiEcho then Ar07
        else Ar02
  {
    hide LogInv, Failed;
    RunKeepsInv(p, run, events, i);
  }
}
