/**
 * The gateway client between its suspension points: one value per state, one step per stretch of code that
 * runs without interruption. Steps may come in any order their guards admit.
 */
module GatewaySession {
  import opened Basics
  import opened GatewayTrace
  import opened AttachPolicy
  import opened VerdictTracker

  const MAX_BATCH_SIZE := 10
  const MAX_CONSECUTIVE_FAILURES := 3
  const RECONNECT_INITIAL_DELAY := 1.0
  const RECONNECT_MAX_DELAY := 30.0
  const RECONNECT_BACKOFF_MULTIPLIER := 2.0

  /** A `maxReconnectAttempts` that is not positive means unbounded. */
  datatype Config = Config(configured: bool, autoReconnect: bool, maxReconnectAttempts: int)

  function Limit(cfg: Config): nat
  {
    if cfg.maxReconnectAttempts > 0 then cfg.maxReconnectAttempts else 0
  }

  datatype Status = Stopped | Starting | Running | Stopping

  /** A drain pass suspended in the write of one frame. */
  datatype Drain = Drain(generation: nat, sent: nat, id: string)

  /**
   * `writer` names the open socket by the generation it was opened under. `opening` and `sockets` are the
   * generations with a connect under way and those a receive loop was started for.
   */
  datatype Session = Session(
    status: Status, generation: nat, connected: bool, connecting: bool, bound: bool, paused: bool,
    attempts: nat, delay: real, failures: nat, ids: seq<string>, began: map<string, real>,
    writer: Option<nat>, attachTimer: Option<nat>, draining: Option<Drain>,
    reconnectArmed: bool, connectQueued: bool, opening: set<nat>, sockets: set<nat>, trace: Trace)

  const INITIAL := Session(Stopped, 0, false, false, false, false, 0, RECONNECT_INITIAL_DELAY, 0, [], map[],
                           None, None, None, false, false, {}, {}, [])

  // -- settling frames -----------------------------------------------------------------------------------

  function Happened(s: Session, e: Event): Session
  {
    s.(trace := s.trace + [e])
  }

  function Started(s: Session, id: string, now: real): Session
  {
    Happened(s, Begin(id)).(ids := s.ids + [id], began := s.began[id := now])
  }

  function Settled(s: Session, id: string, outcome: Outcome): Session
  {
    Happened(s, Report(id, outcome)).(ids := Kept(s.ids, {id}), began := s.began - {id})
  }

  function SettledLocally(s: Session, id: string, reason: string): Session
  {
    if id in s.ids then Settled(s, id, Failed(reason)) else s
  }

  function FailedAll(s: Session, gone: seq<string>, reason: string): Session
  {
    s.(ids := Kept(s.ids, Elements(gone)), began := s.began - Elements(gone), trace := s.trace + Failures(gone, reason))
  }

  function Swept(s: Session, now: real): Session
  {
    FailedAll(s, Stale(s.ids, s.began, now, VERDICT_TIMEOUT), GATEWAY_SILENT)
  }

  // -- ending a session ----------------------------------------------------------------------------------

  function Retire(s: Session, reason: string): Session
  {
    s.(generation := s.generation + 1, bound := false, attachTimer := None, ids := [], began := map[],
       trace := s.trace + [Retired(s.generation)] + Failures(s.ids, reason))
  }

  function Disconnected(s: Session, reason: string): Session
  {
    Retire(s.(writer := None, connected := false, connecting := false), reason)
  }

  function Rescheduled(s: Session, cfg: Config): Session
  {
    if !cfg.autoReconnect then s
    else if cfg.maxReconnectAttempts > 0 && s.attempts >= cfg.maxReconnectAttempts then s.(status := Stopped)
    else
      var doubled := s.delay * RECONNECT_BACKOFF_MULTIPLIER;
      Happened(s, Scheduled(s.delay)).(
        attempts := s.attempts + 1,
        delay := if doubled < RECONNECT_MAX_DELAY then doubled else RECONNECT_MAX_DELAY,
        status := Starting, reconnectArmed := true)
  }

  predicate Halted(s: Session)
  {
    s.status.Stopping? || s.status.Stopped?
  }

  /** A report that session `g` is over; it counts only while `g` is the current one and is up or coming up. */
  function ClosedBy(s: Session, g: nat, cfg: Config): Session
  {
    if s.generation != g || !(s.connected || s.connecting) then s
    else
      var down := Happened(Disconnected(s, "Connection lost"), Withdrawn);
      if cfg.autoReconnect && !Halted(s) then Rescheduled(down, cfg) else down.(status := Stopped)
  }

  // -- lifecycle -----------------------------------------------------------------------------------------

  predicate MayStart(s: Session, cfg: Config)
  {
    cfg.configured && !s.status.Running? && !s.status.Starting?
  }

  function StartedUp(s: Session, cfg: Config): Session
  {
    if MayStart(s, cfg) then s.(paused := false, status := Starting, connectQueued := true) else s
  }

  function StopBegun(s: Session): Session
  {
    if s.status.Stopped? then s
    else
      Disconnected(s.(status := Stopping, reconnectArmed := false, connectQueued := false, draining := None),
                   "Disconnected")
  }

  function StopFinished(s: Session): Session
  {
    Happened(s, Withdrawn).(status := Stopped)
  }

  function ReconnectFired(s: Session): Session
  {
    s.(reconnectArmed := false, connectQueued := s.connectQueued || !Halted(s))
  }

  // -- connecting ----------------------------------------------------------------------------------------

  function ConnectBegun(s: Session): Session
  {
    if s.connecting || s.connected then s.(connectQueued := false)
    else
      s.(connectQueued := false, connecting := true, generation := s.generation + 1,
         opening := s.opening + {s.generation + 1})
  }

  /** Whether a line for session `g` reaches a socket: one is open, it is still `g`'s, and it takes the bytes. */
  predicate Taken(s: Session, g: nat, accepted: bool)
  {
    s.writer.Some? && s.generation == g && accepted
  }

  function Written(s: Session, g: nat, frame: Frame, accepted: bool): Session
  {
    if Taken(s, g, accepted) then Happened(s, Wrote(s.writer.value, frame)) else s
  }

  function WrittenOrClosed(s: Session, g: nat, frame: Frame, accepted: bool, cfg: Config): Session
  {
    if Taken(s, g, accepted) then Written(s, g, frame, accepted) else ClosedBy(s, g, cfg)
  }

  function Opened(s: Session, g: nat, accepted: bool, cfg: Config): Session
  {
    var done := s.(opening := s.opening - {g});
    if s.generation != g then done
    else
      WrittenOrClosed(done.(connected := true, connecting := false, writer := Some(g), failures := 0,
                            sockets := s.sockets + {g}),
                      g, Identify, accepted, cfg)
  }

  function OpenRefused(s: Session, g: nat, cfg: Config): Session
  {
    ClosedBy(s, g, cfg).(opening := s.opening - {g})
  }

  function Identified(s: Session, g: nat, ok: bool, cfg: Config): Session
  {
    if !ok then ClosedBy(s, g, cfg)
    else if s.generation != g then s
    else if Halted(s) then Disconnected(s, "Disconnected")
    else s.(attachTimer := Some(g), status := Running)
  }

  function AttachExpired(s: Session, g: nat, cfg: Config): Session
  {
    var fired := s.(attachTimer := None);
    if !s.connected || s.generation != g then fired else ClosedBy(fired, g, cfg)
  }

  // -- frames from the gateway ---------------------------------------------------------------------------

  /** `signed` is whether the challenge was well formed and the core signed it. */
  function Challenged(s: Session, g: nat, signed: bool, accepted: bool, cfg: Config): Session
  {
    if s.generation != g then s
    else if !signed then ClosedBy(s, g, cfg)
    else WrittenOrClosed(s, g, DeclareAddress(g), accepted, cfg)
  }

  /** `declared` is absent when the echo is missing, over-long or unencodable. */
  function Declared(s: Session, g: nat, declared: Option<string>, local: Option<string>, cfg: Config): Session
  {
    if s.generation != g || declared.None? || declared.value == "" then s
    else if BindingOutcome(declared.value, local).Bound? then
      Happened(s, Echoed(g, declared.value, local.value)).(bound := true)
    else ClosedBy(s, g, cfg)
  }

  function AttachCompleted(s: Session, g: nat, cfg: Config): Session
  {
    if s.generation != g then s
    else
      var disarmed := s.(attachTimer := None);
      if !s.bound then ClosedBy(disarmed, g, cfg)
      else if !s.connected || Halted(s) then disarmed
      else Happened(disarmed, Announced(g)).(attempts := 0, delay := RECONNECT_INITIAL_DELAY)
  }

  /** `broken` is whether the core call raised anything but an encoding error; the receive loop then closes. */
  function VerdictHeard(s: Session, g: nat, frame: Fields, accepted: bool, broken: bool, cfg: Config): Session
  {
    var verdict := ParseVerdict(frame, accepted);
    if s.generation != g || verdict.None? || verdict.value.id !in s.ids then s
    else
      var settled := Settled(s, verdict.value.id, VerdictReport(verdict.value).outcome);
      if broken then ClosedBy(settled, g, cfg) else settled
  }

  // -- draining the outbox -------------------------------------------------------------------------------

  /** A frame popped from the core, the clock when it is begun, and whether the socket takes its bytes. */
  datatype Outgoing = Outgoing(id: string, now: real, accepted: bool)

  function FailureCounted(s: Session, id: string): Session
  {
    SettledLocally(s.(failures := s.failures + 1), id, "Write failed")
  }

  function ClosedAtLimit(s: Session, g: nat, cfg: Config): Session
  {
    if s.failures >= MAX_CONSECUTIVE_FAILURES then ClosedBy(s, g, cfg) else s
  }

  function WriteFailed(s: Session, g: nat, id: string, cfg: Config): Session
  {
    ClosedAtLimit(FailureCounted(s, id), g, cfg)
  }

  /** Sending one begun frame, up to the point where its write is taken or it is settled. */
  function Submitted(s: Session, g: nat, id: string, accepted: bool, cfg: Config): Session
  {
    if !s.bound || s.writer.None? then SettledLocally(s, id, "Not attached to a gateway")
    else if !Sendable(id) then SettledLocally(s, id, "Unserializable frame")
    else if Taken(s, g, accepted) then Written(s, g, SendMessage(id), accepted)
    else WriteFailed(s, g, id, cfg)
  }

  /** Whether the pass is then suspended in the write. */
  predicate Suspends(s: Session, g: nat, id: string, accepted: bool)
  {
    s.bound && Sendable(id) && Taken(s, g, accepted)
  }

  predicate PassOver(s: Session, g: nat, sent: nat, outbox: seq<Outgoing>)
  {
    sent >= MAX_BATCH_SIZE || !s.bound || s.generation != g || |s.ids| >= MAX_IN_FLIGHT || outbox == []
  }

  function Drained(s: Session, g: nat, sent: nat, outbox: seq<Outgoing>, cfg: Config): Session
    decreases |outbox|
  {
    if PassOver(s, g, sent, outbox) then s.(draining := None)
    else
      var next := outbox[0];
      if next.id in s.ids then Drained(s, g, sent, outbox[1..], cfg)
      else
        var begun := Started(s, next.id, next.now);
        var after := Submitted(begun, g, next.id, next.accepted, cfg);
        if Suspends(begun, g, next.id, next.accepted) then after.(draining := Some(Drain(g, sent, next.id)))
        else Drained(after, g, sent + 1, outbox[1..], cfg)
  }

  lemma DrainedStep(s: Session, g: nat, sent: nat, outbox: seq<Outgoing>, cfg: Config)
    requires !PassOver(s, g, sent, outbox)
    ensures var next := outbox[0];
            var begun := Started(s, next.id, next.now);
            var after := Submitted(begun, g, next.id, next.accepted, cfg);
            Drained(s, g, sent, outbox, cfg) ==
              if next.id in s.ids then Drained(s, g, sent, outbox[1..], cfg)
              else if Suspends(begun, g, next.id, next.accepted) then after.(draining := Some(Drain(g, sent, next.id)))
              else Drained(after, g, sent + 1, outbox[1..], cfg)
  {
  }

  lemma DrainedOver(s: Session, g: nat, sent: nat, outbox: seq<Outgoing>, cfg: Config)
    requires PassOver(s, g, sent, outbox)
    ensures Drained(s, g, sent, outbox, cfg) == s.(draining := None)
  {
  }

  function DrainBegun(s: Session, now: real, outbox: seq<Outgoing>, cfg: Config): Session
  {
    if !s.bound || s.paused then s else Drained(Swept(s, now), s.generation, 0, outbox, cfg)
  }

  function DrainResumed(s: Session, ok: bool, outbox: seq<Outgoing>, cfg: Config): Session
    requires s.draining.Some?
  {
    var pass := s.draining.value;
    Drained(if ok then s.(failures := 0) else WriteFailed(s, pass.generation, pass.id, cfg),
            pass.generation, pass.sent + 1, outbox, cfg)
  }

  // -- runs ----------------------------------------------------------------------------------------------

  datatype Step =
    | Start
    | StopBegin
    | StopFinish
    | Pause
    | Resume
    | ReconnectFires
    | ConnectStart
    | OpenSucceeds(g: nat, accepted: bool)
    | OpenFails(g: nat)
    | IdentifyWritten(g: nat, ok: bool)
    | AttachTimesOut(g: nat)
    | SocketCloses(g: nat)
    | Challenge(g: nat, signed: bool, accepted: bool)
    | DeclarationWritten(g: nat, ok: bool)
    | AddressDeclared(g: nat, declared: Option<string>, local: Option<string>)
    | AddressError(g: nat)
    | StatusConnected(g: nat)
    | VerdictFrame(g: nat, frame: Fields, accepted: bool, broken: bool)
    | DrainStart(now: real, outbox: seq<Outgoing>)
    | DrainResume(ok: bool, outbox: seq<Outgoing>)
    | DrainCancel

  predicate Enabled(s: Session, step: Step)
  {
    match step
    case StopFinish => s.status.Stopping?
    case ReconnectFires => s.reconnectArmed
    case ConnectStart => s.connectQueued
    case OpenSucceeds(g, _) => g in s.opening
    case OpenFails(g) => g in s.opening
    case AttachTimesOut(g) => s.attachTimer == Some(g)
    case IdentifyWritten(g, _) => g in s.sockets
    case SocketCloses(g) => g in s.sockets
    case Challenge(g, _, _) => g in s.sockets
    case DeclarationWritten(g, _) => g in s.sockets
    case AddressDeclared(g, _, _) => g in s.sockets
    case AddressError(g) => g in s.sockets
    case StatusConnected(g) => g in s.sockets
    case VerdictFrame(g, _, _, _) => g in s.sockets
    case DrainStart(_, _) => s.draining.None?
    case DrainResume(_, _) => s.draining.Some?
    case _ => true
  }

  function Apply(s: Session, step: Step, cfg: Config): Session
    requires Enabled(s, step)
  {
    match step
    case Start => StartedUp(s, cfg)
    case StopBegin => StopBegun(s)
    case StopFinish => StopFinished(s)
    case Pause => s.(paused := true)
    case Resume => s.(paused := false)
    case ReconnectFires => ReconnectFired(s)
    case ConnectStart => ConnectBegun(s)
    case OpenSucceeds(g, accepted) => Opened(s, g, accepted, cfg)
    case OpenFails(g) => OpenRefused(s, g, cfg)
    case IdentifyWritten(g, ok) => Identified(s, g, ok, cfg)
    case AttachTimesOut(g) => AttachExpired(s, g, cfg)
    case SocketCloses(g) => ClosedBy(s, g, cfg)
    case Challenge(g, signed, accepted) => Challenged(s, g, signed, accepted, cfg)
    case DeclarationWritten(g, ok) => if ok then s else ClosedBy(s, g, cfg)
    case AddressDeclared(g, declared, local) => Declared(s, g, declared, local, cfg)
    case AddressError(g) => ClosedBy(s, g, cfg)
    case StatusConnected(g) => AttachCompleted(s, g, cfg)
    case VerdictFrame(g, frame, accepted, broken) => VerdictHeard(s, g, frame, accepted, broken, cfg)
    case DrainStart(now, outbox) => DrainBegun(s, now, outbox, cfg)
    case DrainResume(ok, outbox) => DrainResumed(s, ok, outbox, cfg)
    case DrainCancel => s.(draining := None)
  }

  /** A step whose guard is off does not happen. */
  function Next(s: Session, step: Step, cfg: Config): Session
  {
    if Enabled(s, step) then Apply(s, step, cfg) else s
  }

  function Run(steps: seq<Step>, cfg: Config): Session
  {
    if steps == [] then INITIAL else Next(Run(steps[..|steps| - 1], cfg), steps[|steps| - 1], cfg)
  }

  lemma RunSnoc(steps: seq<Step>, step: Step, cfg: Config)
    ensures Run(steps + [step], cfg) == Next(Run(steps, cfg), step, cfg)
  {
    assert (steps + [step])[..|steps|] == steps;
  }

  /** Every step of the schedule is one its guard admits at that point. */
  predicate Feasible(steps: seq<Step>, cfg: Config)
  {
    forall k :: 0 <= k < |steps| ==> Enabled(Run(steps[..k], cfg), steps[k])
  }
}
