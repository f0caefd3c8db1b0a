/**
 * The heartbeat watchdog of a TLS connection, which client and server run alike: a request is sent,
 * its echo re-arms the retransmission timer, and a silent second fires the disconnect timer.
 *
 * Timers are modelled as the event loop keeps them, apart from the fields that hold their handles, so
 * a timer whose handle was overwritten would still fire. A timer callback and the promise reaction it
 * triggers are one step. Time is in milliseconds and timers are never late.
 */
module Heartbeat {
  import opened Wrappers

  const PERIOD := 1000

  datatype Task = ResolveDisconnect | Retransmit(reconnecting: bool)
  datatype Timer = Timer(due: nat, task: Task)

  /** `Lost` and `Back` are the disconnected and reconnected events. */
  datatype Fact =
    | Sent(at: nat, payload: nat)
    | Echoed(at: nat, payload: nat)
    | Expired(at: nat)
    | Lost(at: nat)
    | Back(at: nat)

  datatype Watchdog = Watchdog(alive: bool, heartbeat: nat, timers: map<nat, Timer>, nextId: nat,
                               disconnectTimer: Option<nat>, retransmitTimer: Option<nat>,
                               pending: bool, log: seq<Fact>)

  /** `clearTimeout` of a handle, which may be stale. */
  function Clear(timers: map<nat, Timer>, handle: Option<nat>): map<nat, Timer> {
    if handle.None? then timers else timers - {handle.value}
  }

  /**
   * The connected callback. `idle` is what an earlier connection of the same client left behind: no
   * timers, but possibly stale handles. The log is the connection's own.
   */
  function Connect(idle: Watchdog, now: nat, payload: nat): Watchdog {
    Watchdog(true, payload, map[idle.nextId := Timer(now + PERIOD, ResolveDisconnect)], idle.nextId + 1,
             Some(idle.nextId), idle.retransmitTimer, true, [Sent(now, payload)])
  }

  const New := Watchdog(false, 0, map[], 0, None, None, false, [])

  function Receive(w: Watchdog, now: nat, payload: nat): Watchdog {
    if payload != w.heartbeat then w
    else
      var timers := Clear(Clear(w.timers, w.disconnectTimer), w.retransmitTimer);
      w.(alive := true,
         timers := timers[w.nextId := Timer(now + PERIOD, Retransmit(!w.alive))],
         nextId := w.nextId + 1,
         retransmitTimer := Some(w.nextId),
         log := w.log + [Echoed(now, payload)] + if w.alive then [] else [Back(now)])
  }

  /** `drawn` is the payload drawn if the callback sends a request. */
  function Fire(w: Watchdog, now: nat, id: nat, drawn: nat): Watchdog
    requires id in w.timers
  {
    match w.timers[id].task
    case ResolveDisconnect =>
      if w.pending then
        w.(alive := false, pending := false, heartbeat := drawn, timers := w.timers - {id},
           log := w.log + [Expired(now), Lost(now), Sent(now, drawn)])
      else w.(timers := w.timers - {id}, log := w.log + [Expired(now)])
    case Retransmit(reconnecting) =>
      w.(heartbeat := drawn, pending := w.pending || reconnecting,
         timers := (w.timers - {id})[w.nextId := Timer(now + PERIOD, ResolveDisconnect)],
         nextId := w.nextId + 1,
         disconnectTimer := Some(w.nextId),
         log := w.log + [Sent(now, drawn)])
  }

  // ---- what each callback does, written out ----

  /** A connection that opens sends a request and waits a second for its echo, with one timer and its promise. */
  lemma ConnectLaw(idle: Watchdog, now: nat, payload: nat)
    ensures var w := Connect(idle, now, payload);
            && w.alive && w.pending && w.heartbeat == payload && w.log == [Sent(now, payload)]
            && w.timers == map[idle.nextId := Timer(now + 1000, ResolveDisconnect)]
            && w.disconnectTimer == Some(idle.nextId) && w.nextId == idle.nextId + 1
            && w.retransmitTimer == idle.retransmitTimer
  {
  }

  /**
   * A payload that is not the outstanding request's changes nothing. An echo clears the timers of both
   * handles, revives a connection that was down, which it reports, and sets the retransmission timer.
   */
  lemma EchoLaw(w: Watchdog, now: nat, payload: nat)
    ensures var w' := Receive(w, now, payload);
            if payload != w.heartbeat then w' == w
            else
              && w'.alive && w'.heartbeat == w.heartbeat && w'.pending == w.pending
              && w'.disconnectTimer == w.disconnectTimer
              && w'.retransmitTimer == Some(w.nextId) && w'.nextId == w.nextId + 1
              && w'.log == w.log + [Echoed(now, payload)] + (if w.alive then [] else [Back(now)])
              && w.nextId in w'.timers && w'.timers[w.nextId] == Timer(now + 1000, Retransmit(!w.alive))
              && (forall id :: id != w.nextId ==>
                    && (id in w'.timers <==>
                          id in w.timers && Some(id) != w.disconnectTimer && Some(id) != w.retransmitTimer)
                    && (id in w'.timers ==> w'.timers[id] == w.timers[id]))
  {
  }

  /**
   * The disconnect timer reports the loss and sends a new request if the promise is still pending, and does
   * nothing otherwise. The retransmission timer sends a request, sets the disconnect timer and, after a
   * reconnection, creates a new promise.
   */
  lemma TimerLaw(w: Watchdog, now: nat, id: nat, drawn: nat)
    requires id in w.timers
    ensures var w' := Fire(w, now, id, drawn);
            match w.timers[id].task
            case ResolveDisconnect =>
              && w'.timers == w.timers - {id} && w'.nextId == w.nextId && !w'.pending
              && w'.disconnectTimer == w.disconnectTimer && w'.retransmitTimer == w.retransmitTimer
              && w'.alive == (w.alive && !w.pending)
              && w'.heartbeat == (if w.pending then drawn else w.heartbeat)
              && w'.log == w.log + [Expired(now)] + (if w.pending then [Lost(now), Sent(now, drawn)] else [])
            case Retransmit(reconnecting) =>
              && w'.timers == (w.timers - {id})[w.nextId := Timer(now + 1000, ResolveDisconnect)]
              && w'.disconnectTimer == Some(w.nextId) && w'.nextId == w.nextId + 1
              && w'.retransmitTimer == w.retransmitTimer && w'.alive == w.alive && w'.heartbeat == drawn
              && w'.pending == (w.pending || reconnecting)
              && w'.log == w.log + [Sent(now, drawn)]
  {
  }

  /** The fields as `TLSClient` and the per-client records of `TLSServer` hold them. */
  class HeartbeatMonitor {
    var alive: bool
    var heartbeat: nat
    var timers: map<nat, Timer>
    var nextId: nat
    var disconnectTimer: Option<nat>
    var retransmitTimer: Option<nat>
    var pending: bool
    var log: seq<Fact>

    function Abstract(): Watchdog
      reads this
    {
      Watchdog(alive, heartbeat, timers, nextId, disconnectTimer, retransmitTimer, pending, log)
    }

    /** Handles and timers in the event loop were all handed out by it, so a new timer replaces none. */
    predicate Valid()
      reads this
    {
      && (forall id :: id in timers ==> id < nextId)
      && (disconnectTimer.Some? ==> disconnectTimer.value < nextId)
      && (retransmitTimer.Some? ==> retransmitTimer.value < nextId)
    }

    constructor ()
      ensures Valid() && Abstract() == New
    {
      alive, heartbeat, timers, nextId := false, 0, map[], 0;
      disconnectTimer, retransmitTimer, pending, log := None, None, false, [];
    }

    method ClearTimeout(handle: Option<nat>)
      modifies this`timers
      ensures timers == Clear(old(timers), handle)
    {
      if handle.Some? {
        timers := timers - {handle.value};
      }
    }

    method SetTimeout(due: nat, task: Task) returns (handle: Option<nat>)
      requires Valid()
      modifies this`timers, this`nextId
      ensures Valid() && old(nextId) !in old(timers)
      ensures timers == old(timers)[old(nextId) := Timer(due, task)]
      ensures handle == Some(old(nextId)) && nextId == old(nextId) + 1
    {
      timers := timers[nextId := Timer(due, task)];
      handle := Some(nextId);
      nextId := nextId + 1;
    }

    method OnConnected(now: nat, payload: nat)
      requires Valid() && timers == map[]
      modifies this
      ensures Valid() && Abstract() == Connect(old(Abstract()), now, payload)
    {
      alive := true;
      heartbeat := payload;
      log := [Sent(now, payload)];
      ClearTimeout(disconnectTimer);
      pending := true;
      disconnectTimer := SetTimeout(now + PERIOD, ResolveDisconnect);
    }

    method OnHeartbeat(now: nat, payload: nat)
      requires Valid()
      modifies this
      ensures Valid() && Abstract() == Receive(old(Abstract()), now, payload)
    {
      if payload == heartbeat {
        ClearTimeout(disconnectTimer);
        ClearTimeout(retransmitTimer);
        log := log + [Echoed(now, payload)];
        var reconnecting := false;
        if !alive {
          alive := true;
          reconnecting := true;
          log := log + [Back(now)];
        }
        retransmitTimer := SetTimeout(now + PERIOD, Retransmit(reconnecting));
      }
    }

    method OnTimer(now: nat, id: nat, drawn: nat)
      requires Valid() && id in timers
      modifies this
      ensures Valid() && Abstract() == Fire(old(Abstract()), now, id, drawn)
    {
      var task := timers[id].task;
      timers := timers - {id};
      match task {
        case ResolveDisconnect =>
          log := log + [Expired(now)];
          if pending {
            pending := false;
            alive := false;
            log := log + [Lost(now)];
            heartbeat := drawn;
            log := log + [Sent(now, drawn)];
          }
        case Retransmit(reconnecting) =>
          heartbeat := drawn;
          log := log + [Sent(now, drawn)];
          if reconnecting {
            pending := true;
          }
          disconnectTimer := SetTimeout(now + PERIOD, ResolveDisconnect);
      }
    }

    /** The timer part of the closed callback and of `destroy`. */
    method ClearAll()
      requires Valid()
      modifies this`timers
      ensures Valid() && timers == Clear(Clear(old(timers), disconnectTimer), retransmitTimer)
    {
      ClearTimeout(disconnectTimer);
      ClearTimeout(retransmitTimer);
    }
  }

  // ---- runs ----

  datatype Config = Config(now: nat, w: Watchdog)

  datatype Action = Tick(to: nat) | TimerFires(id: nat, drawn: nat) | Arrives(payload: nat)

  /** An action that is not enabled changes nothing: time never passes a timer that is due. */
  function Step(c: Config, action: Action): Config {
    match action
    case Tick(to) =>
      if c.now < to && forall id :: id in c.w.timers ==> to <= c.w.timers[id].due then c.(now := to) else c
    case TimerFires(id, drawn) =>
      if id in c.w.timers && c.w.timers[id].due == c.now then c.(w := Fire(c.w, c.now, id, drawn)) else c
    case Arrives(payload) => c.(w := Receive(c.w, c.now, payload))
  }

  function ExecFrom(c: Config, actions: seq<Action>): Config {
    if actions == [] then c else Step(ExecFrom(c, actions[..|actions| - 1]), actions[|actions| - 1])
  }

  /** A connection that opens at `start` with the request `payload`. */
  function Exec(idle: Watchdog, start: nat, payload: nat, actions: seq<Action>): Config {
    ExecFrom(Config(start, Connect(idle, start, payload)), actions)
  }

  // ---- the reachable shapes ----

  ghost predicate Armed(w: Watchdog, handle: Option<nat>, timer: Timer) {
    handle.Some? && handle.value < w.nextId && w.timers == map[handle.value := timer]
  }

  lemma ArmedTimer(w: Watchdog, handle: Option<nat>, timer: Timer)
    requires Armed(w, handle, timer)
    ensures handle.value in w.timers && w.timers[handle.value] == timer
    ensures forall h, t :: Armed(w, h, t) ==> h == handle && t == timer
  {
    forall h: Option<nat>, t: Timer | Armed(w, h, t)
      ensures h == handle && t == timer
    {
      assert h.value in w.timers;
    }
  }

  /** The disconnect timer runs; a request went out at the start of its period. */
  ghost predicate AwaitsEcho(c: Config, due: nat) {
    && Armed(c.w, c.w.disconnectTimer, Timer(due, ResolveDisconnect))
    && c.w.alive && c.now <= due <= c.now + PERIOD && due >= PERIOD
    && c.w.log != [] && c.w.log[|c.w.log| - 1] == Sent(due - PERIOD, c.w.heartbeat)
  }

  /** The retransmission timer runs; the last request was echoed at the start of its period. */
  ghost predicate AwaitsRetransmission(c: Config, due: nat, reconnecting: bool) {
    && Armed(c.w, c.w.retransmitTimer, Timer(due, Retransmit(reconnecting)))
    && c.w.alive && c.now <= due <= c.now + PERIOD && due >= PERIOD
    && c.w.log != [] && Settles(c.w.log[|c.w.log| - 1], due - PERIOD)
  }

  lemma RetransmissionArmed(c: Config, due: nat, reconnecting: bool)
    requires AwaitsRetransmission(c, due, reconnecting)
    ensures c.w.retransmitTimer.value in c.w.timers
    ensures forall h, t :: Armed(c.w, h, t) ==> h == c.w.retransmitTimer && t == Timer(due, Retransmit(reconnecting))
  {
    ArmedTimer(c.w, c.w.retransmitTimer, Timer(due, Retransmit(reconnecting)));
  }

  predicate Settles(fact: Fact, at: nat) {
    (fact.Echoed? || fact.Back?) && fact.at == at
  }

  ghost predicate Waiting(c: Config) { c.w.pending && exists due: nat :: AwaitsEcho(c, due) }
  ghost predicate Idle(c: Config) { c.w.pending && exists due: nat :: AwaitsRetransmission(c, due, false) }
  ghost predicate Recovering(c: Config) { !c.w.pending && exists due: nat :: AwaitsRetransmission(c, due, true) }

  ghost predicate Down(c: Config) {
    && !c.w.alive && !c.w.pending && c.w.timers == map[]
    && c.w.log != [] && c.w.log[|c.w.log| - 1].Sent? && c.w.log[|c.w.log| - 1].payload == c.w.heartbeat
  }

  /** Alive by its flag, but with the promise spent and nothing that would create another. */
  ghost predicate Blind(c: Config) {
    && c.w.alive && !c.w.pending
    && ((exists due: nat :: AwaitsRetransmission(c, due, false)) || (exists due: nat :: AwaitsEcho(c, due))
        || (c.w.timers == map[] && c.w.log != [] && c.w.log[|c.w.log| - 1].Expired?))
  }

  ghost predicate Shaped(c: Config) {
    && (forall id :: id in c.w.timers ==> id < c.w.nextId)
    && (Waiting(c) || Idle(c) || Down(c) || Recovering(c) || Blind(c))
  }

  // ---- one step, case by case ----

  lemma ReceiveShape(c: Config, payload: nat)
    requires Shaped(c) && payload == c.w.heartbeat
    ensures var c' := Step(c, Arrives(payload));
            && AwaitsRetransmission(c', c.now + PERIOD, !c.w.alive) && c'.w.pending == c.w.pending
            && Shaped(c')
  {
    var c' := Step(c, Arrives(payload));
    assert Clear(Clear(c.w.timers, c.w.disconnectTimer), c.w.retransmitTimer) == map[];
    assert AwaitsRetransmission(c', c.now + PERIOD, !c.w.alive);
  }

  lemma EchoTimerShape(c: Config, id: nat, due: nat, drawn: nat)
    requires Shaped(c) && AwaitsEcho(c, due) && id in c.w.timers && c.w.timers[id].due == c.now
    ensures var c' := Step(c, TimerFires(id, drawn));
            && c.now == due && Shaped(c')
            && (if c.w.pending then Down(c') else Blind(c') && c'.w.timers == map[])
  {
    assert c.w.timers - {id} == map[];
  }

  lemma RetransmitTimerShape(c: Config, id: nat, due: nat, reconnecting: bool, drawn: nat)
    requires Shaped(c) && AwaitsRetransmission(c, due, reconnecting) && id in c.w.timers && c.w.timers[id].due == c.now
    ensures var c' := Step(c, TimerFires(id, drawn));
            && c.now == due && AwaitsEcho(c', c.now + PERIOD) && c'.w.pending == (c.w.pending || reconnecting)
            && Shaped(c')
  {
    var c' := Step(c, TimerFires(id, drawn));
    assert c.w.timers - {id} == map[];
    assert AwaitsEcho(c', c.now + PERIOD);
  }

  lemma TickShape(c: Config, to: nat)
    requires Shaped(c)
    ensures var c' := Step(c, Tick(to));
            && Shaped(c') && c'.w == c.w
            && (Waiting(c) ==> Waiting(c')) && (Idle(c) ==> Idle(c')) && (Recovering(c) ==> Recovering(c'))
            && (Down(c) ==> Down(c')) && (Blind(c) ==> Blind(c'))
            && (forall due: nat :: AwaitsEcho(c, due) ==> AwaitsEcho(c', due))
            && (forall due: nat, r :: AwaitsRetransmission(c, due, r) ==> AwaitsRetransmission(c', due, r))
  {
    var c' := Step(c, Tick(to));
    if c' != c {
      forall due: nat | AwaitsEcho(c, due)
        ensures AwaitsEcho(c', due)
      {
        assert c.w.disconnectTimer.value in c.w.timers;
      }
      forall due: nat, r | AwaitsRetransmission(c, due, r)
        ensures AwaitsRetransmission(c', due, r)
      {
        assert c.w.retransmitTimer.value in c.w.timers;
      }
    }
  }

  lemma StepShape(c: Config, action: Action)
    requires Shaped(c)
    ensures Shaped(Step(c, action))
  {
    match action {
      case Tick(to) => TickShape(c, to);
      case Arrives(payload) =>
        if payload == c.w.heartbeat {
          ReceiveShape(c, payload);
        }
      case TimerFires(id, drawn) =>
        if id in c.w.timers && c.w.timers[id].due == c.now {
          if due: nat :| AwaitsEcho(c, due) {
            EchoTimerShape(c, id, due, drawn);
          } else {
            var due: nat, r :| AwaitsRetransmission(c, due, r);
            RetransmitTimerShape(c, id, due, r, drawn);
          }
        }
    }
  }

  lemma ConnectShape(idle: Watchdog, start: nat, payload: nat)
    ensures var c := Config(start, Connect(idle, start, payload));
            Waiting(c) && Shaped(c) && AwaitsEcho(c, start + PERIOD)
  {
    assert AwaitsEcho(Config(start, Connect(idle, start, payload)), start + PERIOD);
  }

  lemma {:induction false} ExecShape(c: Config, actions: seq<Action>)
    requires Shaped(c)
    ensures Shaped(ExecFrom(c, actions))
  {
    if actions != [] {
      ExecShape(c, actions[..|actions| - 1]);
      StepShape(ExecFrom(c, actions[..|actions| - 1]), actions[|actions| - 1]);
    }
  }

  // ---- safety, for every peer and every network ----

  predicate Settled(fact: Fact) { fact.Echoed? || fact.Back? || fact.Lost? }

  /** The payload of the last request in a log. */
  function LatestRequest(log: seq<Fact>): Option<nat> {
    if log == [] then None
    else if log[|log| - 1].Sent? then Some(log[|log| - 1].payload)
    else LatestRequest(log[..|log| - 1])
  }

  /** What must stand right before an entry of the log; an echo carries the payload of the last request. */
  predicate WellPlaced(log: seq<Fact>, i: nat)
    requires i < |log|
  {
    match log[i]
    case Sent(_, _) => i == 0 || Settled(log[i - 1])
    case Echoed(_, payload) => i > 0 && LatestRequest(log[..i]) == Some(payload)
    case Expired(at) => i > 0 && at >= PERIOD && log[i - 1].Sent? && log[i - 1].at == at - PERIOD
    case Lost(at) => i > 0 && log[i - 1] == Expired(at)
    case Back(at) => i > 0 && log[i - 1].Echoed? && log[i - 1].at == at
  }

  predicate WellPlacedLog(log: seq<Fact>) {
    forall i :: 0 <= i < |log| ==> WellPlaced(log, i)
  }

  /** The reports in a log, in order: true for disconnected, false for reconnected. */
  function Reports(log: seq<Fact>): seq<bool> {
    if log == [] then []
    else
      var reports := Reports(log[..|log| - 1]);
      if log[|log| - 1].Lost? then reports + [true]
      else if log[|log| - 1].Back? then reports + [false]
      else reports
  }

  predicate Alternates(reports: seq<bool>) {
    forall i :: 0 <= i < |reports| ==> reports[i] == (i % 2 == 0)
  }

  lemma SummaryAppend(log: seq<Fact>, fact: Fact)
    ensures Reports(log + [fact]) ==
            Reports(log) + if fact.Lost? then [true] else if fact.Back? then [false] else []
    ensures LatestRequest(log + [fact]) == if fact.Sent? then Some(fact.payload) else LatestRequest(log)
  {
    assert (log + [fact])[..|log|] == log;
  }

  lemma AppendFact(log: seq<Fact>, fact: Fact)
    requires WellPlacedLog(log)
    requires WellPlaced(log + [fact], |log|)
    ensures WellPlacedLog(log + [fact])
    ensures Reports(log + [fact]) ==
            Reports(log) + if fact.Lost? then [true] else if fact.Back? then [false] else []
    ensures LatestRequest(log + [fact]) == if fact.Sent? then Some(fact.payload) else LatestRequest(log)
  {
    hide LatestRequest, Reports;
    SummaryAppend(log, fact);
    var log' := log + [fact];
    forall i | 0 <= i < |log'|
      ensures WellPlaced(log', i)
    {
      if i < |log| {
        assert WellPlaced(log, i);
        assert log'[..i] == log[..i];
      }
    }
  }

  ghost predicate Safe(c: Config) {
    && Shaped(c) && WellPlacedLog(c.w.log)
    && Alternates(Reports(c.w.log)) && c.w.alive == (|Reports(c.w.log)| % 2 == 0)
    && LatestRequest(c.w.log) == Some(c.w.heartbeat)
  }

  lemma AlternatesGrow(reports: seq<bool>, report: bool)
    requires Alternates(reports) && report == (|reports| % 2 == 0)
    ensures Alternates(reports + [report])
  {
  }

  /** The reports that the change from `w` to `w'` stands for. */
  function Change(w: Watchdog, w': Watchdog): seq<bool> {
    if w.alive && !w'.alive then [true] else if !w.alive && w'.alive then [false] else []
  }

  ghost predicate SafeStep(c: Config, c': Config) {
    Safe(c') && Reports(c'.w.log) == Reports(c.w.log) + Change(c.w, c'.w)
  }

  lemma EchoLog(log: seq<Fact>, now: nat, payload: nat, alive: bool)
    requires log != [] && WellPlacedLog(log) && Alternates(Reports(log)) && alive == (|Reports(log)| % 2 == 0)
    requires LatestRequest(log) == Some(payload)
    ensures var log' := log + [Echoed(now, payload)] + if alive then [] else [Back(now)];
            && WellPlacedLog(log') && Alternates(Reports(log')) && LatestRequest(log') == Some(payload)
            && Reports(log') == Reports(log) + if alive then [] else [false]
  {
    var echoed := log + [Echoed(now, payload)];
    assert echoed[..|log|] == log;
    AppendFact(log, Echoed(now, payload));
    if alive {
      assert echoed + [] == echoed;
    } else {
      AppendFact(echoed, Back(now));
      AlternatesGrow(Reports(log), false);
    }
    hide WellPlacedLog, Alternates, Reports, LatestRequest;
  }

  lemma EchoEffect(c: Config, payload: nat)
    requires payload == c.w.heartbeat
    ensures var w' := Step(c, Arrives(payload)).w;
            && w'.alive && w'.heartbeat == payload
            && w'.log == c.w.log + [Echoed(c.now, payload)] + if c.w.alive then [] else [Back(c.now)]
  {
  }

  lemma EchoSafe(c: Config, payload: nat)
    requires Safe(c) && payload == c.w.heartbeat
    ensures SafeStep(c, Step(c, Arrives(payload)))
  {
    hide WellPlacedLog, Alternates, Reports, LatestRequest, Step;
    assert c.w.log != [];
    ReceiveShape(c, payload);
    EchoEffect(c, payload);
    hide Shaped;
    EchoLog(c.w.log, c.now, payload, c.w.alive);
  }

  lemma EchoTimerSafe(c: Config, id: nat, due: nat, drawn: nat)
    requires Safe(c) && AwaitsEcho(c, due) && id in c.w.timers && c.w.timers[id].due == c.now
    ensures SafeStep(c, Step(c, TimerFires(id, drawn)))
  {
    EchoTimerShape(c, id, due, drawn);
    ArmedTimer(c.w, c.w.disconnectTimer, Timer(due, ResolveDisconnect));
    var log, c' := c.w.log, Step(c, TimerFires(id, drawn));
    AppendFact(log, Expired(c.now));
    if c.w.pending {
      AppendFact(log + [Expired(c.now)], Lost(c.now));
      AppendFact(log + [Expired(c.now)] + [Lost(c.now)], Sent(c.now, drawn));
      AlternatesGrow(Reports(log), true);
      assert c'.w.log == log + [Expired(c.now)] + [Lost(c.now)] + [Sent(c.now, drawn)];
    }
    hide Shaped, WellPlacedLog, Alternates, Reports, LatestRequest;
  }

  lemma RetransmitTimerSafe(c: Config, id: nat, due: nat, reconnecting: bool, drawn: nat)
    requires Safe(c) && AwaitsRetransmission(c, due, reconnecting) && id in c.w.timers && c.w.timers[id].due == c.now
    ensures SafeStep(c, Step(c, TimerFires(id, drawn)))
  {
    RetransmitTimerShape(c, id, due, reconnecting, drawn);
    RetransmissionArmed(c, due, reconnecting);
    AppendFact(c.w.log, Sent(c.now, drawn));
    hide Shaped, WellPlacedLog, Alternates, Reports, LatestRequest;
  }

  /** Every step is safe, and the reports it adds to the log are exactly the changes of `alive`. */
  lemma StepSafe(c: Config, action: Action)
    requires Safe(c)
    ensures SafeStep(c, Step(c, action))
  {
    match action {
      case Tick(to) => TickShape(c, to);
      case Arrives(payload) =>
        if payload == c.w.heartbeat {
          EchoSafe(c, payload);
        }
      case TimerFires(id, drawn) =>
        if id in c.w.timers && c.w.timers[id].due == c.now {
          if due: nat :| AwaitsEcho(c, due) {
            EchoTimerSafe(c, id, due, drawn);
          } else {
            var due: nat, r :| AwaitsRetransmission(c, due, r);
            RetransmitTimerSafe(c, id, due, r, drawn);
          }
        }
    }
  }

  lemma {:induction false} ExecSafe(idle: Watchdog, start: nat, payload: nat, actions: seq<Action>)
    ensures Safe(Exec(idle, start, payload, actions))
  {
    if actions == [] {
      ConnectShape(idle, start, payload);
      var log := [Sent(start, payload)];
      assert log[..0] == [];
      assert Reports(log) == [];
    } else {
      ExecSafe(idle, start, payload, actions[..|actions| - 1]);
      StepSafe(Exec(idle, start, payload, actions[..|actions| - 1]), actions[|actions| - 1]);
    }
  }

  /** Entry `i` comes right after an echo, the report that came with one, or the report of a timeout. */
  predicate RequestFollows(log: seq<Fact>, i: int)
    requires 0 < i < |log|
  {
    match log[i - 1]
    case Echoed(_, _) => true
    case Back(_) => i > 1 && log[i - 2].Echoed?
    case Lost(_) => i > 1 && log[i - 2].Expired?
    case _ => false
  }

  /**
   * In every reachable state, whatever arrives and however often: the event loop holds at most one of
   * the two timers and none that a handle has lost; some timer is armed or the last request is
   * unanswered; the two reports alternate strictly, beginning with disconnected, and `alive` tells
   * which came last; an echo carries the payload of the last request before it, and a new request
   * follows only such an echo, the report that comes with one, or the report of a timeout.
   */
  lemma WatchdogSafety(idle: Watchdog, start: nat, payload: nat, actions: seq<Action>)
    ensures var w := Exec(idle, start, payload, actions).w;
            && |w.timers| <= 1
            && (forall id :: id in w.timers ==> Some(id) == w.disconnectTimer || Some(id) == w.retransmitTimer)
            && (w.timers == map[] ==> w.log != [] && (w.log[|w.log| - 1].Sent? || w.log[|w.log| - 1].Expired?))
            && Alternates(Reports(w.log)) && w.alive == (|Reports(w.log)| % 2 == 0)
            && (forall i :: 0 <= i < |w.log| && w.log[i].Echoed? ==>
                  LatestRequest(w.log[..i]) == Some(w.log[i].payload))
            && (forall i :: 0 < i < |w.log| && w.log[i].Sent? ==> RequestFollows(w.log, i))
  {
    ExecSafe(idle, start, payload, actions);
    var w := Exec(idle, start, payload, actions).w;
    hide LatestRequest, Reports, Alternates;
    forall i | 0 < i < |w.log| && w.log[i].Sent?
      ensures RequestFollows(w.log, i)
    {
      assert WellPlaced(w.log, i) && WellPlaced(w.log, i - 1);
    }
    forall i | 0 <= i < |w.log| && w.log[i].Echoed?
      ensures LatestRequest(w.log[..i]) == Some(w.log[i].payload)
    {
      assert WellPlaced(w.log, i);
    }
  }

  /** A peer is reported only after it left one request unanswered for exactly a period. */
  lemma ReportIsDeserved(idle: Watchdog, start: nat, payload: nat, actions: seq<Action>, i: nat)
    requires i < |Exec(idle, start, payload, actions).w.log| && Exec(idle, start, payload, actions).w.log[i].Lost?
    ensures var log := Exec(idle, start, payload, actions).w.log;
            i >= 2 && log[i - 1].Expired? && log[i - 2].Sent? && log[i].at == log[i - 2].at + 1000
  {
    ExecSafe(idle, start, payload, actions);
    var log := Exec(idle, start, payload, actions).w.log;
    assert WellPlaced(log, i) && WellPlaced(log, i - 1);
  }

  /** Time never runs backwards. */
  lemma {:induction false} TimeRunsOn(c: Config, actions: seq<Action>, n: nat)
    requires n <= |actions|
    ensures ExecFrom(c, actions[..n]).now <= ExecFrom(c, actions).now
    decreases |actions|
  {
    if n == |actions| {
      assert actions[..n] == actions;
    } else {
      var init := actions[..|actions| - 1];
      TimeRunsOn(c, init, n);
      assert init[..n] == actions[..n];
    }
  }

  /**
   * The peer is prompt: whenever the latest thing is a request, sent at `t`, and the run lasts until
   * a period later, the peer's echo of it arrives before that time.
   */
  ghost predicate PromptPeer(idle: Watchdog, start: nat, payload: nat, actions: seq<Action>) {
    forall i :: 0 <= i <= |actions| ==> PromptAt(idle, start, payload, actions, i)
  }

  ghost predicate PromptAt(idle: Watchdog, start: nat, payload: nat, actions: seq<Action>, i: nat)
    requires i <= |actions|
  {
    var log := Exec(idle, start, payload, actions[..i]).w.log;
    log != [] && log[|log| - 1].Sent? ==>
      var request := log[|log| - 1];
      || Exec(idle, start, payload, actions).now < request.at + 1000
      || exists k :: i <= k < |actions| && EchoesBy(idle, start, payload, actions, k, request)
  }

  /** Action `k` brings the echo of the request within its period. */
  ghost predicate EchoesBy(idle: Watchdog, start: nat, payload: nat, actions: seq<Action>, k: nat, request: Fact)
    requires k < |actions| && request.Sent?
  {
    actions[k] == Arrives(request.payload) && Exec(idle, start, payload, actions[..k]).now < request.at + 1000
  }

  /** A peer that always echoes in under a period is never reported: the disconnect timer never fires. */
  lemma PromptPeerIsNeverReported(idle: Watchdog, start: nat, payload: nat, actions: seq<Action>)
    requires PromptPeer(idle, start, payload, actions)
    ensures var log := Exec(idle, start, payload, actions).w.log;
            (forall i :: 0 <= i < |log| ==> !log[i].Expired? && !log[i].Lost?) && Reports(log) == []
  {
    var log := Exec(idle, start, payload, actions).w.log;
    assert actions[..|actions|] == actions;
    NeverExpires(idle, start, payload, actions, |actions|);
    ExecSafe(idle, start, payload, actions);
    forall i | 0 <= i < |log|
      ensures !log[i].Lost?
    {
      if log[i].Lost? {
        ReportIsDeserved(idle, start, payload, actions, i);
      }
    }
    FirstReportIsLost(log);
  }

  lemma {:induction false} NeverExpires(idle: Watchdog, start: nat, payload: nat, actions: seq<Action>, n: nat)
    requires PromptPeer(idle, start, payload, actions) && n <= |actions|
    ensures var log := Exec(idle, start, payload, actions[..n]).w.log;
            forall i :: 0 <= i < |log| ==> !log[i].Expired?
    decreases n
  {
    if n > 0 {
      NeverExpires(idle, start, payload, actions, n - 1);
      var c, action := Exec(idle, start, payload, actions[..n - 1]), actions[n - 1];
      assert actions[..n][..n - 1] == actions[..n - 1];
      ExecSafe(idle, start, payload, actions[..n - 1]);
      if action.TimerFires? && action.id in c.w.timers && c.w.timers[action.id].due == c.now {
        if due: nat :| AwaitsEcho(c, due) {
          ArmedTimer(c.w, c.w.disconnectTimer, Timer(due, ResolveDisconnect));
          EchoCameBefore(idle, start, payload, actions, n - 1, due);
        } else {
          var due: nat, r :| AwaitsRetransmission(c, due, r);
          RetransmissionArmed(c, due, r);
        }
      }
      hide Safe;
    }
  }

  /** With a prompt peer no disconnect timer comes due. */
  lemma EchoCameBefore(idle: Watchdog, start: nat, payload: nat, actions: seq<Action>, i: nat, due: nat)
    requires PromptPeer(idle, start, payload, actions) && i <= |actions|
    requires AwaitsEcho(Exec(idle, start, payload, actions[..i]), due)
    ensures Exec(idle, start, payload, actions[..i]).now < due
  {
    var c0, c := Config(start, Connect(idle, start, payload)), Exec(idle, start, payload, actions[..i]);
    assert PromptAt(idle, start, payload, actions, i);
    var request := Sent(due - PERIOD, c.w.heartbeat);
    TimeRunsOn(c0, actions, i);
    if c.now >= due {
      var k: nat :| i <= k < |actions| && EchoesBy(idle, start, payload, actions, k, request);
      assert actions[..k][..i] == actions[..i];
      TimeRunsOn(c0, actions[..k], i);
      assert false;
    }
  }

  lemma {:induction false} FirstReportIsLost(log: seq<Fact>)
    requires Alternates(Reports(log)) && forall i :: 0 <= i < |log| ==> !log[i].Lost?
    ensures Reports(log) == []
  {
    if |Reports(log)| > 0 {
      assert Reports(log)[0] == true;
      TrueMeansLost(log);
    }
  }

  lemma {:induction false} TrueMeansLost(log: seq<Fact>)
    requires true in Reports(log)
    ensures exists i :: 0 <= i < |log| && log[i].Lost?
  {
    if !log[|log| - 1].Lost? {
      TrueMeansLost(log[..|log| - 1]);
      var i :| 0 <= i < |log| - 1 && log[..|log| - 1][i].Lost?;
      assert log[i].Lost?;
    }
  }

  // ---- timing ----

  /** When silence from now on will be reported. */
  ghost function Verdict(c: Config): nat
    requires Shaped(c) && c.w.alive && !Blind(c)
  {
    if Waiting(c) then var due: nat :| AwaitsEcho(c, due); due
    else if Idle(c) then var due: nat :| AwaitsRetransmission(c, due, false); due + PERIOD
    else var due: nat :| AwaitsRetransmission(c, due, true); due + PERIOD
  }

  lemma VerdictIs(c: Config, due: nat)
    requires Shaped(c) && c.w.alive && !Blind(c)
    ensures AwaitsEcho(c, due) ==> Verdict(c) == due
    ensures AwaitsRetransmission(c, due, false) || AwaitsRetransmission(c, due, true) ==> Verdict(c) == due + PERIOD
    ensures Verdict(c) >= c.now
  {
    if d: nat :| AwaitsEcho(c, d) {
      ArmedTimer(c.w, c.w.disconnectTimer, Timer(d, ResolveDisconnect));
    } else {
      var d: nat, r :| AwaitsRetransmission(c, d, r);
      RetransmissionArmed(c, d, r);
    }
  }

  function LossTimes(log: seq<Fact>): seq<nat> {
    if log == [] then []
    else LossTimes(log[..|log| - 1]) + if log[|log| - 1].Lost? then [log[|log| - 1].at] else []
  }

  lemma LossAppend(log: seq<Fact>, fact: Fact)
    ensures LossTimes(log + [fact]) == LossTimes(log) + if fact.Lost? then [fact.at] else []
  {
    assert (log + [fact])[..|log|] == log;
  }

  /** No action of the run is an echo of the request then outstanding. */
  ghost predicate Silent(c: Config, actions: seq<Action>) {
    forall i :: 0 <= i < |actions| ==>
      actions[i].Arrives? ==> actions[i].payload != ExecFrom(c, actions[..i]).w.heartbeat
  }

  /**
   * Silence is reported at exactly the time the verdict names: not before it, and once it has passed.
   */
  lemma {:induction false} SilenceIsReported(c: Config, actions: seq<Action>)
    requires Shaped(c) && c.w.alive && !Blind(c) && Silent(c, actions)
    ensures var c', v := ExecFrom(c, actions), Verdict(c);
            || (Down(c') && c'.now >= v && LossTimes(c'.w.log) == LossTimes(c.w.log) + [v])
            || (c'.w.alive && Shaped(c') && !Blind(c') && Verdict(c') == v && c'.now <= v
                && LossTimes(c'.w.log) == LossTimes(c.w.log))
  {
    if actions == [] {
      VerdictIs(c, 0);
    } else {
      var init, last := actions[..|actions| - 1], actions[|actions| - 1];
      assert forall i :: 0 <= i < |init| ==> init[..i] == actions[..i];
      SilenceIsReported(c, init);
      var m := ExecFrom(c, init);
      assert last.Arrives? ==> last.payload != m.w.heartbeat;
      ExecShape(c, init);
      if Down(m) {
        DownStays(m, last);
      } else {
        SilentStep(m, last);
      }
    }
  }

  lemma DownStays(c: Config, action: Action)
    requires Down(c) && (action.Arrives? ==> action.payload != c.w.heartbeat)
    ensures Down(Step(c, action)) && Step(c, action).w == c.w && Step(c, action).now >= c.now
  {
  }

  /** What a silent step does: the time of the verdict stands, or it has come and the loss is reported. */
  ghost predicate VerdictStands(c: Config, c': Config)
    requires Shaped(c) && c.w.alive && !Blind(c)
  {
    var v := Verdict(c);
    || (Down(c') && c'.now == v && LossTimes(c'.w.log) == LossTimes(c.w.log) + [v])
    || (c'.w.alive && Shaped(c') && !Blind(c') && Verdict(c') == v && c'.now <= v
        && LossTimes(c'.w.log) == LossTimes(c.w.log))
  }

  lemma ExpiryReports(c: Config, id: nat, due: nat, drawn: nat)
    requires Shaped(c) && c.w.alive && !Blind(c)
    requires AwaitsEcho(c, due) && id in c.w.timers && c.w.timers[id].due == c.now
    ensures VerdictStands(c, Step(c, TimerFires(id, drawn)))
  {
    VerdictIs(c, due);
    EchoTimerShape(c, id, due, drawn);
    ArmedTimer(c.w, c.w.disconnectTimer, Timer(due, ResolveDisconnect));
    var log := c.w.log;
    LossAppend(log, Expired(c.now));
    LossAppend(log + [Expired(c.now)], Lost(c.now));
    LossAppend(log + [Expired(c.now)] + [Lost(c.now)], Sent(c.now, drawn));
    assert c.w.pending;
    assert log + [Expired(c.now), Lost(c.now), Sent(c.now, drawn)]
        == log + [Expired(c.now)] + [Lost(c.now)] + [Sent(c.now, drawn)];
    hide LossTimes, Verdict, Shaped;
  }

  lemma RetransmissionStands(c: Config, id: nat, due: nat, reconnecting: bool, drawn: nat)
    requires Shaped(c) && c.w.alive && !Blind(c)
    requires AwaitsRetransmission(c, due, reconnecting) && id in c.w.timers && c.w.timers[id].due == c.now
    ensures VerdictStands(c, Step(c, TimerFires(id, drawn)))
  {
    var c' := Step(c, TimerFires(id, drawn));
    VerdictIs(c, due);
    RetransmitTimerShape(c, id, due, reconnecting, drawn);
    RetransmissionArmed(c, due, reconnecting);
    VerdictIs(c', c.now + PERIOD);
    LossAppend(c.w.log, Sent(c.now, drawn));
    hide LossTimes, Verdict, Shaped;
  }

  lemma SilentStep(c: Config, action: Action)
    requires Shaped(c) && c.w.alive && !Blind(c) && (action.Arrives? ==> action.payload != c.w.heartbeat)
    ensures VerdictStands(c, Step(c, action))
  {
    var c' := Step(c, action);
    VerdictIs(c, 0);
    match action {
      case Arrives(_) =>
      case Tick(to) =>
        TickShape(c, to);
        SameVerdict(c, c');
        VerdictIs(c', 0);
      case TimerFires(id, drawn) =>
        if id in c.w.timers && c.w.timers[id].due == c.now {
          if due: nat :| AwaitsEcho(c, due) {
            ExpiryReports(c, id, due, drawn);
          } else {
            var due: nat, r :| AwaitsRetransmission(c, due, r);
            RetransmissionStands(c, id, due, r, drawn);
          }
        }
    }
  }

  lemma SameVerdict(c: Config, c': Config)
    requires Shaped(c) && c.w.alive && !Blind(c) && Shaped(c') && c'.w == c.w
    requires forall due: nat :: AwaitsEcho(c, due) ==> AwaitsEcho(c', due)
    requires forall due: nat, r :: AwaitsRetransmission(c, due, r) ==> AwaitsRetransmission(c', due, r)
    ensures !Blind(c') && Verdict(c') == Verdict(c)
  {
    if due: nat :| AwaitsEcho(c, due) {
      VerdictIs(c, due);
      VerdictIs(c', due);
    } else {
      var due: nat, r :| AwaitsRetransmission(c, due, r);
      RetransmissionArmed(c, due, r);
      VerdictIs(c, due);
      VerdictIs(c', due);
    }
  }

  /**
   * The timing bound: after a matched echo at time t a silent peer is reported at t + 2000 exactly,
   * and a peer that never echoes at all at 1000 after the connection opened.
   */
  lemma TimingBound(idle: Watchdog, start: nat, payload: nat, actions: seq<Action>)
    ensures var c := Config(start, Connect(idle, start, payload));
            Shaped(c) && !Blind(c) && Verdict(c) == start + 1000
    ensures var c := Exec(idle, start, payload, actions);
            var c' := Step(c, Arrives(c.w.heartbeat));
            && c'.w.alive && Shaped(c')
            && (!Blind(c') ==> Verdict(c') == c.now + 2000)
  {
    ConnectShape(idle, start, payload);
    var c0 := Config(start, Connect(idle, start, payload));
    VerdictIs(c0, start + PERIOD);
    ExecSafe(idle, start, payload, actions);
    var c := Exec(idle, start, payload, actions);
    ReceiveShape(c, c.w.heartbeat);
    var c' := Step(c, Arrives(c.w.heartbeat));
    if !Blind(c') {
      VerdictIs(c', c.now + PERIOD);
    }
  }

  // ---- going blind ----

  /**
   * A watchdog that can still report goes blind in exactly one way: an echo of the outstanding
   * request arrives again while the connection is recovering.
   */
  lemma GoesBlindIff(c: Config, action: Action)
    requires Shaped(c) && !Blind(c)
    ensures Blind(Step(c, action)) <==> action.Arrives? && action.payload == c.w.heartbeat && Recovering(c)
  {
    var c' := Step(c, action);
    match action {
      case Tick(to) =>
        TickShape(c, to);
        if c.w.alive {
          SameVerdict(c, c');
        }
      case Arrives(payload) =>
        if payload == c.w.heartbeat {
          ReceiveShape(c, payload);
          ArmedTimer(c'.w, c'.w.retransmitTimer, Timer(c.now + PERIOD, Retransmit(!c.w.alive)));
        }
      case TimerFires(id, drawn) =>
        if id in c.w.timers && c.w.timers[id].due == c.now {
          if due: nat :| AwaitsEcho(c, due) {
            EchoTimerShape(c, id, due, drawn);
          } else {
            var due: nat, r :| AwaitsRetransmission(c, due, r);
            RetransmitTimerShape(c, id, due, r, drawn);
          }
        }
    }
  }

  /** Once blind, always blind: the connection's later losses are never reported. */
  lemma BlindForever(c: Config, action: Action)
    requires Shaped(c) && Blind(c)
    ensures Blind(Step(c, action)) && LossTimes(Step(c, action).w.log) == LossTimes(c.w.log)
  {
    match action {
      case Tick(to) => TickShape(c, to);
      case Arrives(payload) =>
        if payload == c.w.heartbeat {
          ReceiveShape(c, payload);
          LossAppend(c.w.log, Echoed(c.now, payload));
          assert c.w.log + [Echoed(c.now, payload)] + [] == c.w.log + [Echoed(c.now, payload)];
        }
      case TimerFires(id, drawn) =>
        if id in c.w.timers && c.w.timers[id].due == c.now {
          LossAppend(c.w.log, Expired(c.now));
          LossAppend(c.w.log, Sent(c.now, drawn));
          if due: nat :| AwaitsEcho(c, due) {
            EchoTimerShape(c, id, due, drawn);
          } else {
            var due: nat, r :| AwaitsRetransmission(c, due, r);
            RetransmissionArmed(c, due, r);
            RetransmitTimerShape(c, id, due, r, drawn);
          }
        }
    }
  }

  /** No payload arrives twice. */
  predicate EchoedAtMostOnce(actions: seq<Action>) {
    forall i, j :: 0 <= i < j < |actions| && actions[i].Arrives? && actions[j].Arrives? ==>
      actions[i].payload != actions[j].payload
  }

  ghost predicate HasArrived(actions: seq<Action>, payload: nat) {
    exists i :: 0 <= i < |actions| && actions[i] == Arrives(payload)
  }

  /** Over a network that repeats no echo the watchdog is never blind. */
  lemma {:induction false} NeverBlind(idle: Watchdog, start: nat, payload: nat, actions: seq<Action>)
    requires EchoedAtMostOnce(actions)
    ensures var c := Exec(idle, start, payload, actions);
            !Blind(c) && (Recovering(c) ==> HasArrived(actions, c.w.heartbeat))
  {
    if actions == [] {
      ConnectShape(idle, start, payload);
      TimingBound(idle, start, payload, []);
    } else {
      var init, last := actions[..|actions| - 1], actions[|actions| - 1];
      NeverBlind(idle, start, payload, init);
      var c := Exec(idle, start, payload, init);
      var c' := Exec(idle, start, payload, actions);
      ExecSafe(idle, start, payload, init);
      if HasArrived(init, c.w.heartbeat) {
        var i :| 0 <= i < |init| && init[i] == Arrives(c.w.heartbeat);
        assert actions[i] == Arrives(c.w.heartbeat);
      }
      GoesBlindIff(c, last);
      if Recovering(c') {
        RecoveringComesFrom(c, last);
        assert last == actions[|actions| - 1];
      }
    }
  }

  lemma RecoveringComesFrom(c: Config, action: Action)
    requires Shaped(c) && !Blind(c) && Recovering(Step(c, action))
    ensures Step(c, action).w.heartbeat == c.w.heartbeat
    ensures Recovering(c) || action == Arrives(c.w.heartbeat)
  {
    var c' := Step(c, action);
    match action {
      case Tick(to) => TickShape(c, to);
      case Arrives(payload) =>
      case TimerFires(id, drawn) =>
        if id in c.w.timers && c.w.timers[id].due == c.now {
          if due: nat :| AwaitsEcho(c, due) {
            EchoTimerShape(c, id, due, drawn);
          } else {
            var due: nat, r :| AwaitsRetransmission(c, due, r);
            RetransmitTimerShape(c, id, due, r, drawn);
          }
        }
    }
  }

  /** The condition on a whole run: blind exactly when an echo has been repeated while recovering. */
  lemma {:induction false} BlindIff(idle: Watchdog, start: nat, payload: nat, actions: seq<Action>)
    ensures Blind(Exec(idle, start, payload, actions)) <==>
            exists i :: 0 <= i < |actions| && RepeatsWhileRecovering(idle, start, payload, actions, i)
  {
    if actions == [] {
      NeverBlind(idle, start, payload, []);
    } else {
      var n := |actions| - 1;
      var init := actions[..n];
      BlindIff(idle, start, payload, init);
      ExecSafe(idle, start, payload, init);
      var c := Exec(idle, start, payload, init);
      assert Exec(idle, start, payload, actions) == Step(c, actions[n]);
      assert Shaped(c);
      hide Exec, Blind, Safe;
      if Blind(c) {
        BlindForever(c, actions[n]);
        var i :| 0 <= i < |init| && RepeatsWhileRecovering(idle, start, payload, init, i);
        assert init[..i] == actions[..i];
        assert RepeatsWhileRecovering(idle, start, payload, actions, i);
      } else {
        GoesBlindIff(c, actions[n]);
        forall i | 0 <= i < n
          ensures !RepeatsWhileRecovering(idle, start, payload, actions, i)
        {
          assert init[..i] == actions[..i] && !RepeatsWhileRecovering(idle, start, payload, init, i);
        }
        assert RepeatsWhileRecovering(idle, start, payload, actions, n) <==> Blind(Step(c, actions[n]));
      }
    }
  }

  ghost predicate RepeatsWhileRecovering(idle: Watchdog, start: nat, payload: nat, actions: seq<Action>, i: nat)
    requires i < |actions|
  {
    var c := Exec(idle, start, payload, actions[..i]);
    Recovering(c) && actions[i] == Arrives(c.w.heartbeat)
  }

  /** A run that goes blind: the echo of the request sent with the report arrives twice. */
  lemma RepeatedEchoBlinds()
    ensures Blind(Exec(New, 0, 1, [Tick(1000), TimerFires(0, 2), Arrives(2), Arrives(2)]))
  {
    var c0 := Config(0, Connect(New, 0, 1));
    FirstReport();
    var c2 := Step(Step(c0, Tick(1000)), TimerFires(0, 2));
    FourSteps(c0, Tick(1000), TimerFires(0, 2), Arrives(2), Arrives(2));
    hide Step, Connect;
    EchoTwice(c2, 2);
  }

  lemma FirstReport()
    ensures var c := Step(Step(Config(0, Connect(New, 0, 1)), Tick(1000)), TimerFires(0, 2));
            Shaped(c) && Down(c) && c.w.heartbeat == 2
  {
    var c0 := Config(0, Connect(New, 0, 1));
    ConnectShape(New, 0, 1);
    TickShape(c0, 1000);
    assert Step(c0, Tick(1000)).now == 1000;
    EchoTimerShape(Step(c0, Tick(1000)), 0, 1000, 2);
  }

  lemma EchoTwice(c: Config, payload: nat)
    requires Shaped(c) && Down(c) && c.w.heartbeat == payload
    ensures Blind(Step(Step(c, Arrives(payload)), Arrives(payload)))
  {
    ReceiveShape(c, payload);
    var c' := Step(c, Arrives(payload));
    assert Recovering(c');
    ReceiveShape(c', payload);
  }

  lemma FourSteps(c: Config, a1: Action, a2: Action, a3: Action, a4: Action)
    ensures ExecFrom(c, [a1, a2, a3, a4]) == Step(Step(Step(Step(c, a1), a2), a3), a4)
  {
    ExecSnoc(c, [], a1);
    ExecSnoc(c, [a1], a2);
    ExecSnoc(c, [a1, a2], a3);
    ExecSnoc(c, [a1, a2, a3], a4);
    assert [] + [a1] == [a1] && [a1] + [a2] == [a1, a2] && [a1, a2] + [a3] == [a1, a2, a3];
    assert [a1, a2, a3] + [a4] == [a1, a2, a3, a4];
    hide Step;
  }

  lemma ExecSnoc(c: Config, actions: seq<Action>, action: Action)
    ensures ExecFrom(c, actions + [action]) == Step(ExecFrom(c, actions), action)
  {
    assert (actions + [action])[..|actions|] == actions;
  }
}
