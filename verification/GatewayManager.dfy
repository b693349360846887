/**
 * The gateway-daemon client as the object it is. The methods under "steps" are the stretches of code between two
 * suspension points; `Schedule` takes them in any order the event loop may.
 */
module GatewayManager {
  import opened Basics
  import opened GatewayTrace
  import opened AttachPolicy
  import opened VerdictTracker
  import opened GatewaySession

  class Manager {
    const config: Config
    const verdicts: GatewayVerdictTracker

    var status: Status
    var writer: Option<nat>
    var generation: nat
    var connected: bool
    var connecting: bool
    var bound: bool
    var paused: bool
    var reconnectAttempts: nat
    var currentReconnectDelay: real
    var consecutiveSendFailures: nat
    var draining: Option<Drain>
    var reconnectArmed: bool
    var connectQueued: bool
    var attachTimer: Option<nat>

    ghost var opening: set<nat>
    ghost var sockets: set<nat>
    ghost var trace: Trace

    ghost function View(): Session
      reads this, verdicts
    {
      Session(status, generation, connected, connecting, bound, paused, reconnectAttempts, currentReconnectDelay,
              consecutiveSendFailures, verdicts.ids, verdicts.began, writer, attachTimer, draining,
              reconnectArmed, connectQueued, opening, sockets, trace)
    }

    constructor (config: Config)
      ensures verdicts.Valid() && fresh(verdicts) && View() == INITIAL && this.config == config
    {
      this.config := config;
      verdicts := new GatewayVerdictTracker();
      status, writer, generation, connected, connecting, bound, paused := Stopped, None, 0, false, false, false, false;
      reconnectAttempts, currentReconnectDelay, consecutiveSendFailures := 0, RECONNECT_INITIAL_DELAY, 0;
      draining, reconnectArmed, connectQueued, attachTimer := None, false, false, None;
      opening, sockets, trace := {}, {}, [];
    }

    // -- settling frames ---------------------------------------------------------------------------------

    method ReportFailures(ids: seq<string>, reason: string)
      modifies this`trace
      ensures trace == old(trace) + Failures(ids, reason)
    {
      for k := 0 to |ids|
        invariant trace == old(trace) + Failures(ids[..k], reason)
      {
        FailuresSnoc(old(trace), ids[..k], ids[k], reason);
        assert ids[..k + 1] == ids[..k] + [ids[k]];
        trace := trace + [Report(ids[k], Failed(reason))];
      }
      assert ids[..|ids|] == ids;
    }

    method FailInFlight(reason: string)
      requires verdicts.Valid()
      modifies this`trace, verdicts
      ensures verdicts.Valid()
      ensures View() ==
                old(View()).(ids := [], began := map[], trace := old(trace) + Failures(old(verdicts.ids), reason))
    {
      var all := verdicts.DrainAll();
      ReportFailures(all, reason);
    }

    method SettleLocally(id: string, reason: string)
      requires verdicts.Valid()
      modifies this`trace, verdicts
      ensures verdicts.Valid() && View() == SettledLocally(old(View()), id, reason)
    {
      var mine := verdicts.Settle(id);
      if !mine {
        return;
      }
      trace := trace + [Report(id, Failed(reason))];
    }

    method SweepExpiredVerdicts(now: real)
      requires verdicts.Valid()
      modifies this`trace, verdicts
      ensures verdicts.Valid() && View() == Swept(old(View()), now)
    {
      var stale := verdicts.Expired(now, VERDICT_TIMEOUT);
      ReportFailures(stale, GATEWAY_SILENT);
    }

    // -- ending a session --------------------------------------------------------------------------------

    method EndGeneration()
      modifies this`trace, this`generation, this`bound, this`attachTimer
      ensures generation == old(generation) + 1 && !bound && attachTimer == None
      ensures trace == old(trace) + [Retired(old(generation))]
    {
      trace := trace + [Retired(generation)];
      generation := generation + 1;
      bound := false;
      attachTimer := None;
    }

    method RetireSession(reason: string)
      requires verdicts.Valid()
      modifies this, verdicts
      ensures verdicts.Valid() && View() == Retire(old(View()), reason)
    {
      EndGeneration();
      FailInFlight(reason);
    }

    method CloseSocket()
      modifies this`writer, this`connected, this`connecting
      ensures writer == None && !connected && !connecting
    {
      writer := None;
      connected := false;
      connecting := false;
    }

    method Disconnect(reason: string)
      requires verdicts.Valid()
      modifies this, verdicts
      ensures verdicts.Valid() && View() == Disconnected(old(View()), reason)
    {
      CloseSocket();
      RetireSession(reason);
    }

    method Climb()
      modifies this`reconnectAttempts, this`currentReconnectDelay, this`status, this`reconnectArmed, this`trace
      ensures reconnectAttempts == old(reconnectAttempts) + 1 && status == Starting && reconnectArmed
      ensures var doubled := old(currentReconnectDelay) * RECONNECT_BACKOFF_MULTIPLIER;
              currentReconnectDelay == if doubled < RECONNECT_MAX_DELAY then doubled else RECONNECT_MAX_DELAY
      ensures trace == old(trace) + [Scheduled(old(currentReconnectDelay))]
    {
      reconnectAttempts := reconnectAttempts + 1;
      var delay := currentReconnectDelay;
      var doubled := currentReconnectDelay * RECONNECT_BACKOFF_MULTIPLIER;
      currentReconnectDelay := if doubled < RECONNECT_MAX_DELAY then doubled else RECONNECT_MAX_DELAY;
      status := Starting;
      reconnectArmed := true;
      trace := trace + [Scheduled(delay)];
    }

    method ScheduleReconnect()
      requires verdicts.Valid()
      modifies this
      ensures verdicts.Valid() && View() == Rescheduled(old(View()), config)
    {
      if !config.autoReconnect {
        return;
      }
      if config.maxReconnectAttempts > 0 && reconnectAttempts >= config.maxReconnectAttempts {
        status := Stopped;
        return;
      }
      Climb();
    }

    method HandleConnectionClosed(g: nat)
      requires verdicts.Valid()
      modifies this, verdicts
      ensures verdicts.Valid() && View() == ClosedBy(old(View()), g, config)
    {
      if generation != g || !(connected || connecting) {
        return;
      }
      Disconnect("Connection lost");
      trace := trace + [Withdrawn];
      assert View() == Happened(Disconnected(old(View()), "Connection lost"), Withdrawn);
      if config.autoReconnect && status != Stopping && status != Stopped {
        ScheduleReconnect();
      } else {
        status := Stopped;
      }
    }

    // -- steps: lifecycle --------------------------------------------------------------------------------

    method StartTransport() returns (r: Result<()>)
      requires verdicts.Valid()
      modifies this, verdicts
      ensures verdicts.Valid() && View() == StartedUp(old(View()), config)
      ensures r.Ok? <==> MayStart(old(View()), config)
    {
      if status == Running || status == Starting || !config.configured {
        return Raised;
      }
      BecomeStarting();
      return Ok(());
    }

    method BecomeStarting()
      modifies this`paused, this`status, this`connectQueued
      ensures !paused && status == Starting && connectQueued
    {
      paused := false;
      status := Starting;
      connectQueued := true;
    }

    method BecomeStopping()
      modifies this`status, this`reconnectArmed, this`connectQueued, this`draining
      ensures status == Stopping && !reconnectArmed && !connectQueued && draining == None
    {
      status := Stopping;
      reconnectArmed := false;
      connectQueued := false;
      draining := None;
    }

    method BeginStop()
      requires verdicts.Valid()
      modifies this, verdicts
      ensures verdicts.Valid() && View() == StopBegun(old(View()))
    {
      if status == Stopped {
        return;
      }
      BecomeStopping();
      Disconnect("Disconnected");
    }

    method FinishStop()
      requires verdicts.Valid()
      modifies this`trace, this`status
      ensures verdicts.Valid() && View() == StopFinished(old(View()))
    {
      trace := trace + [Withdrawn];
      status := Stopped;
    }

    method ReconnectNow()
      requires verdicts.Valid()
      modifies this`reconnectArmed, this`connectQueued
      ensures verdicts.Valid() && View() == ReconnectFired(old(View()))
    {
      reconnectArmed := false;
      if status == Stopping || status == Stopped {
        return;
      }
      connectQueued := true;
    }

    // -- steps: connecting -------------------------------------------------------------------------------

    method Claim()
      modifies this`connecting, this`generation, this`opening
      ensures connecting && generation == old(generation) + 1 && opening == old(opening) + {generation}
    {
      connecting := true;
      generation := generation + 1;
      opening := opening + {generation};
    }

    method Connect()
      requires verdicts.Valid()
      modifies this
      ensures verdicts.Valid() && View() == ConnectBegun(old(View()))
    {
      connectQueued := false;
      if connecting || connected {
        return;
      }
      Claim();
    }

    method WriteLine(g: nat, frame: Frame, accepted: bool) returns (ok: bool)
      requires verdicts.Valid()
      modifies this`trace
      ensures verdicts.Valid()
      ensures ok == Taken(old(View()), g, accepted) && View() == Written(old(View()), g, frame, accepted)
    {
      if writer.None? || generation != g || !accepted {
        return false;
      }
      trace := trace + [Wrote(writer.value, frame)];
      return true;
    }

    method WriteOrClose(g: nat, frame: Frame, accepted: bool)
      requires verdicts.Valid()
      modifies this, verdicts
      ensures verdicts.Valid() && View() == WrittenOrClosed(old(View()), g, frame, accepted, config)
    {
      var ok := WriteLine(g, frame, accepted);
      if !ok {
        HandleConnectionClosed(g);
      }
    }

    method AdoptSocket(g: nat)
      modifies this`connected, this`connecting, this`writer, this`consecutiveSendFailures, this`opening, this`sockets
      ensures connected && !connecting && writer == Some(g) && consecutiveSendFailures == 0
      ensures opening == old(opening) - {g} && sockets == old(sockets) + {g}
    {
      opening := opening - {g};
      connected := true;
      connecting := false;
      writer := Some(g);
      consecutiveSendFailures := 0;
      sockets := sockets + {g};
    }

    /** The connection attempt resumes with a socket, and suspends again in the write of its first line. */
    method OpenDone(g: nat, accepted: bool)
      requires verdicts.Valid()
      modifies this, verdicts
      ensures verdicts.Valid() && View() == Opened(old(View()), g, accepted, config)
    {
      if generation != g {
        opening := opening - {g};
        return;
      }
      AdoptSocket(g);
      assert View() == old(View()).(opening := old(opening) - {g}, connected := true, connecting := false,
                                    writer := Some(g), failures := 0, sockets := old(sockets) + {g});
      WriteOrClose(g, Identify, accepted);
    }

    method OpenFailed(g: nat)
      requires verdicts.Valid()
      modifies this, verdicts
      ensures verdicts.Valid() && View() == OpenRefused(old(View()), g, config)
    {
      HandleConnectionClosed(g);
      assert opening == old(View()).opening;
      opening := opening - {g};
    }

    method IdentifyDone(g: nat, ok: bool)
      requires verdicts.Valid()
      modifies this, verdicts
      ensures verdicts.Valid() && View() == Identified(old(View()), g, ok, config)
    {
      if !ok {
        HandleConnectionClosed(g);
        return;
      }
      if generation != g {
        return;
      }
      attachTimer := Some(g);
      if status == Stopping || status == Stopped {
        Disconnect("Disconnected");
        return;
      }
      status := Running;
    }

    method AttachTimedOut(g: nat)
      requires verdicts.Valid()
      modifies this, verdicts
      ensures verdicts.Valid() && View() == AttachExpired(old(View()), g, config)
    {
      attachTimer := None;
      if !connected || generation != g {
        return;
      }
      HandleConnectionClosed(g);
    }

    // -- steps: frames from the gateway ------------------------------------------------------------------

    method HandleChallenge(g: nat, signed: bool, accepted: bool)
      requires verdicts.Valid()
      modifies this, verdicts
      ensures verdicts.Valid() && View() == Challenged(old(View()), g, signed, accepted, config)
    {
      if generation != g {
        return;
      }
      if !signed {
        HandleConnectionClosed(g);
        return;
      }
      WriteOrClose(g, DeclareAddress(g), accepted);
    }

    method HandleAddressDeclared(g: nat, declared: Option<string>, local: Option<string>)
      requires verdicts.Valid()
      modifies this, verdicts
      ensures verdicts.Valid() && View() == Declared(old(View()), g, declared, local, config)
    {
      if generation != g || declared.None? || declared.value == "" {
        return;
      }
      if BindingOutcome(declared.value, local).Bound? {
        bound := true;
        trace := trace + [Echoed(g, declared.value, local.value)];
      } else {
        HandleConnectionClosed(g);
      }
    }

    method Announce(g: nat)
      modifies this`trace, this`reconnectAttempts, this`currentReconnectDelay
      ensures trace == old(trace) + [Announced(g)]
      ensures reconnectAttempts == 0 && currentReconnectDelay == RECONNECT_INITIAL_DELAY
    {
      trace := trace + [Announced(g)];
      reconnectAttempts := 0;
      currentReconnectDelay := RECONNECT_INITIAL_DELAY;
    }

    /** A status frame that says connected. */
    method CompleteAttach(g: nat)
      requires verdicts.Valid()
      modifies this, verdicts
      ensures verdicts.Valid() && View() == AttachCompleted(old(View()), g, config)
    {
      if generation != g {
        return;
      }
      attachTimer := None;
      ghost var disarmed := View();
      assert disarmed == old(View()).(attachTimer := None);
      if !bound {
        HandleConnectionClosed(g);
        return;
      }
      if !connected || status == Stopping || status == Stopped {
        return;
      }
      Announce(g);
    }

    method HandleVerdict(g: nat, frame: Fields, accepted: bool, broken: bool)
      requires verdicts.Valid()
      modifies this, verdicts
      ensures verdicts.Valid() && View() == VerdictHeard(old(View()), g, frame, accepted, broken, config)
    {
      var verdict := ParseVerdict(frame, accepted);
      if generation != g || verdict.None? {
        return;
      }
      var mine := verdicts.Settle(verdict.value.id);
      if !mine {
        return;
      }
      trace := trace + [Report(verdict.value.id, VerdictReport(verdict.value).outcome)];
      assert View() == Settled(old(View()), verdict.value.id, VerdictReport(verdict.value).outcome);
      if broken {
        HandleConnectionClosed(g);
      }
    }

    // -- steps: draining the outbox ----------------------------------------------------------------------

    method CountFailure(id: string)
      requires verdicts.Valid()
      modifies this, verdicts
      ensures verdicts.Valid() && View() == FailureCounted(old(View()), id)
    {
      consecutiveSendFailures := consecutiveSendFailures + 1;
      SettleLocally(id, "Write failed");
    }

    method CloseAtLimit(g: nat)
      requires verdicts.Valid()
      modifies this, verdicts
      ensures verdicts.Valid() && View() == ClosedAtLimit(old(View()), g, config)
    {
      if consecutiveSendFailures >= MAX_CONSECUTIVE_FAILURES {
        HandleConnectionClosed(g);
      }
    }

    method SendFailed(g: nat, id: string)
      requires verdicts.Valid()
      modifies this, verdicts
      ensures verdicts.Valid() && View() == WriteFailed(old(View()), g, id, config)
    {
      CountFailure(id);
      CloseAtLimit(g);
    }

    method Send(g: nat, id: string, accepted: bool) returns (suspended: bool)
      requires verdicts.Valid()
      modifies this, verdicts
      ensures verdicts.Valid() && suspended == Suspends(old(View()), g, id, accepted)
      ensures View() == Submitted(old(View()), g, id, accepted, config)
    {
      suspended := false;
      if !bound || writer.None? {
        SettleLocally(id, "Not attached to a gateway");
      } else if !Sendable(id) {
        SettleLocally(id, "Unserializable frame");
      } else {
        suspended := WriteLine(g, SendMessage(id), accepted);
        if !suspended {
          SendFailed(g, id);
        }
      }
    }

    method BeginFrame(id: string, now: real) returns (first: bool)
      requires verdicts.Valid()
      modifies this`trace, verdicts
      ensures verdicts.Valid() && first == (id !in old(verdicts.ids))
      ensures View() == if first then Started(old(View()), id, now) else old(View())
    {
      first := verdicts.Begin(id, now);
      if first {
        trace := trace + [Begin(id)];
      }
    }

    /** One frame of a pass: skipped when it is in flight, suspended in its write, or settled. */
    method DrainOne(g: nat, sent: nat, next: Outgoing) returns (first: bool, suspended: bool)
      requires verdicts.Valid()
      modifies this, verdicts
      ensures verdicts.Valid() && first == (next.id !in old(verdicts.ids))
      ensures suspended == (first && Suspends(Started(old(View()), next.id, next.now), g, next.id, next.accepted))
      ensures var after := Submitted(Started(old(View()), next.id, next.now), g, next.id, next.accepted, config);
              View() == if suspended then after.(draining := Some(Drain(g, sent, next.id)))
                        else if first then after else old(View())
    {
      suspended := false;
      first := BeginFrame(next.id, next.now);
      if first {
        suspended := Send(g, next.id, next.accepted);
      }
      if suspended {
        draining := Some(Drain(g, sent, next.id));
      }
    }

    /** One turn of a pass leaves the outcome of the whole pass what it was. */
    method DrainTurn(g: nat, sent: nat, outbox: seq<Outgoing>) returns (count: nat, suspended: bool)
      requires verdicts.Valid() && !PassOver(View(), g, sent, outbox)
      modifies this, verdicts
      ensures verdicts.Valid() && sent <= count
      ensures suspended ==> View() == Drained(old(View()), g, sent, outbox, config)
      ensures !suspended ==>
                Drained(View(), g, count, outbox[1..], config) == Drained(old(View()), g, sent, outbox, config)
    {
      DrainedStep(View(), g, sent, outbox, config);
      var first;
      first, suspended := DrainOne(g, sent, outbox[0]);
      count := if first then sent + 1 else sent;
    }

    /** The loop of a pass, from its current frame to its end or to the write it is suspended in. */
    method DrainLoop(g: nat, sent: nat, outbox: seq<Outgoing>)
      requires verdicts.Valid()
      modifies this, verdicts
      ensures verdicts.Valid() && View() == Drained(old(View()), g, sent, outbox, config)
    {
      var count: nat, rest, suspended := sent, outbox, false;
      ghost var goal := Drained(View(), g, sent, outbox, config);
      while count < MAX_BATCH_SIZE && bound && generation == g && |verdicts.ids| < MAX_IN_FLIGHT && rest != []
        invariant verdicts.Valid() && Drained(View(), g, count, rest, config) == goal
        decreases |rest|
      {
        count, suspended := DrainTurn(g, count, rest);
        if suspended {
          return;
        }
        rest := rest[1..];
      }
      EndPass(g, count, rest);
    }

    method EndPass(g: nat, sent: nat, outbox: seq<Outgoing>)
      requires verdicts.Valid() && PassOver(View(), g, sent, outbox)
      modifies this`draining
      ensures verdicts.Valid() && View() == Drained(old(View()), g, sent, outbox, config)
    {
      DrainedOver(View(), g, sent, outbox, config);
      draining := None;
    }

    method PollAndSend(now: real, outbox: seq<Outgoing>)
      requires verdicts.Valid()
      modifies this, verdicts
      ensures verdicts.Valid() && View() == DrainBegun(old(View()), now, outbox, config)
    {
      if !bound || paused {
        return;
      }
      SweepExpiredVerdicts(now);
      DrainLoop(generation, 0, outbox);
    }

    /** The write a pass was suspended in is over. */
    method WriteDone(ok: bool, outbox: seq<Outgoing>)
      requires verdicts.Valid() && draining.Some?
      modifies this, verdicts
      ensures verdicts.Valid() && View() == DrainResumed(old(View()), ok, outbox, config)
    {
      var pass := draining.value;
      if ok {
        consecutiveSendFailures := 0;
      } else {
        SendFailed(pass.generation, pass.id);
      }
      DrainLoop(pass.generation, pass.sent + 1, outbox);
    }

    // -- the event loop ----------------------------------------------------------------------------------

    method Take(step: Step)
      requires verdicts.Valid() && Enabled(View(), step)
      modifies this, verdicts
      ensures verdicts.Valid() && View() == Apply(old(View()), step, config)
    {
      match step
      case Start => var _ := StartTransport();
      case StopBegin => BeginStop();
      case StopFinish => FinishStop();
      case Pause => paused := true;
      case Resume => paused := false;
      case ReconnectFires => ReconnectNow();
      case ConnectStart => Connect();
      case OpenSucceeds(g, accepted) => OpenDone(g, accepted);
      case OpenFails(g) => OpenFailed(g);
      case IdentifyWritten(g, ok) => IdentifyDone(g, ok);
      case AttachTimesOut(g) => AttachTimedOut(g);
      case SocketCloses(g) => HandleConnectionClosed(g);
      case Challenge(g, signed, accepted) => HandleChallenge(g, signed, accepted);
      case DeclarationWritten(g, ok) =>
        if !ok {
          HandleConnectionClosed(g);
        }
      case AddressDeclared(g, declared, local) => HandleAddressDeclared(g, declared, local);
      case AddressError(g) => HandleConnectionClosed(g);
      case StatusConnected(g) => CompleteAttach(g);
      case VerdictFrame(g, frame, accepted, broken) => HandleVerdict(g, frame, accepted, broken);
      case DrainStart(now, outbox) => PollAndSend(now, outbox);
      case DrainResume(ok, outbox) => WriteDone(ok, outbox);
      case DrainCancel => draining := None;
    }
  }

  /** Whatever the event loop does, the client is where the run of its steps says it is. */
  method Schedule(schedule: seq<Step>, config: Config) returns (manager: Manager)
    requires Feasible(schedule, config)
    ensures manager.verdicts.Valid() && manager.config == config && manager.View() == Run(schedule, config)
  {
    manager := new Manager(config);
    for k := 0 to |schedule|
      invariant manager.verdicts.Valid() && fresh(manager.verdicts) && manager.config == config
      invariant manager.View() == Run(schedule[..k], config)
    {
      RunSnoc(schedule[..k], schedule[k], config);
      assert schedule[..k + 1] == schedule[..k] + [schedule[k]];
      manager.Take(schedule[k]);
    }
    assert schedule[..|schedule|] == schedule;
  }
}
