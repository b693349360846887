/** What holds of every run of the gateway client. */
module GatewayRuns {
  import opened Basics
  import opened GatewayTrace
  import opened AttachPolicy
  import opened GatewaySession
  import opened GatewayInvariant

  // -- exactly once --------------------------------------------------------------------------------------

  /**
   * Every begin is matched by one report or is still in flight; at most eight frames are in flight, none of
   * them twice, and none unless the session is bound and connected.
   */
  lemma ExactlyOneReport(steps: seq<Step>, cfg: Config, id: string)
    ensures var s := Run(steps, cfg);
            && Begins(s.trace, id) == Reports(s.trace, id) + (if id in s.ids then 1 else 0)
            && |s.ids| <= MAX_IN_FLIGHT && NoDuplicates(s.ids)
            && (s.ids != [] ==> s.bound && s.connected)
  {
    EveryRunIsGood(steps, cfg);
    OneReportPerBegin(Run(steps, cfg).trace, id);
  }

  /** Between two lines that carry one id its first submission was reported. */
  lemma NeverForwardedTwice(steps: seq<Step>, cfg: Config, id: string, i: nat, j: nat)
    requires var trace := Run(steps, cfg).trace; i < j < |trace| && IsLine(trace[i], id) && IsLine(trace[j], id)
    ensures exists k :: i < k < j && IsReport(Run(steps, cfg).trace[k], id)
  {
    EveryRunIsGood(steps, cfg);
    OneLinePerBegin(Run(steps, cfg).trace, i, j, id);
  }

  // -- announcements and sessions ------------------------------------------------------------------------

  /** An announcement follows this device's own address echoed on that session, which nothing has retired. */
  lemma AnnouncedOnlyBound(steps: seq<Step>, cfg: Config, j: nat) returns (i: nat)
    requires var trace := Run(steps, cfg).trace; j < |trace| && trace[j].Announced?
    ensures var trace := Run(steps, cfg).trace;
            && i < j && trace[i].Echoed? && trace[i].generation == trace[j].generation
            && trace[i].declared == trace[i].local != ""
            && (forall k :: i < k < j ==> !trace[k].Retired?)
            && RetiredBelow(trace[..j], trace[j].generation)
  {
    EveryRunIsGood(steps, cfg);
    i := AnnouncedAfterEcho(Run(steps, cfg).trace, j);
    AtHomeAt(Run(steps, cfg).trace, i);
    AtHomeAt(Run(steps, cfg).trace, j);
  }

  /** A line goes only to a socket nothing has retired, and a declaration only to the one that challenged. */
  lemma LinesAtHome(steps: seq<Step>, cfg: Config, j: nat)
    requires var trace := Run(steps, cfg).trace; j < |trace| && trace[j].Wrote?
    ensures var trace := Run(steps, cfg).trace;
            && RetiredBelow(trace[..j], trace[j].socket)
            && (trace[j].frame.DeclareAddress? ==> trace[j].frame.challengedOn == trace[j].socket)
  {
    EveryRunIsGood(steps, cfg);
    AtHomeAt(Run(steps, cfg).trace, j);
  }

  /** The session a step reports on. */
  function Names(step: Step): Option<nat>
  {
    match step
    case OpenSucceeds(g, _) => Some(g)
    case OpenFails(g) => Some(g)
    case IdentifyWritten(g, _) => Some(g)
    case AttachTimesOut(g) => Some(g)
    case SocketCloses(g) => Some(g)
    case Challenge(g, _, _) => Some(g)
    case DeclarationWritten(g, _) => Some(g)
    case AddressDeclared(g, _, _) => Some(g)
    case AddressError(g) => Some(g)
    case StatusConnected(g) => Some(g)
    case VerdictFrame(g, _, _, _) => Some(g)
    case _ => None
  }

  /** A step for a session that is over changes nothing but its own bookkeeping. */
  lemma StaleStepsAreInert(s: Session, step: Step, cfg: Config)
    requires Enabled(s, step) && Names(step).Some? && Names(step).value != s.generation
    ensures Apply(s, step, cfg) == s.(
      opening := if step.OpenSucceeds? || step.OpenFails? then s.opening - {step.g} else s.opening,
      attachTimer := if step.AttachTimesOut? then None else s.attachTimer)
  {
  }

  lemma StaleFailureCounts(s: Session, g: nat, id: string, cfg: Config)
    requires g != s.generation && s.ids == []
    ensures WriteFailed(s, g, id, cfg) == s.(failures := s.failures + 1)
  {
    var counted := s.(failures := s.failures + 1);
    assert SettledLocally(counted, id, "Write failed") == counted;
    assert ClosedBy(counted, g, cfg) == counted;
  }

  /** A write that outlives its session frees the lock and counts its outcome; nothing else moves. */
  lemma StaleWritesAreInert(s: Session, ok: bool, outbox: seq<Outgoing>, cfg: Config)
    requires Good(s, cfg) && s.draining.Some? && s.draining.value.generation != s.generation
    ensures DrainResumed(s, ok, outbox, cfg) == s.(draining := None, failures := if ok then 0 else s.failures + 1)
  {
    var pass := s.draining.value;
    StaleFailureCounts(s, pass.generation, pass.id, cfg);
    var counted := s.(failures := if ok then 0 else s.failures + 1);
    DrainedOver(counted, pass.generation, pass.sent + 1, outbox, cfg);
  }

  // -- the reconnect ladder ------------------------------------------------------------------------------

  /** The next delay is a function of the attempts since the last announcement, which a limit bounds. */
  lemma LadderClosedForm(steps: seq<Step>, cfg: Config)
    ensures var s := Run(steps, cfg);
            && s.delay == Rung(s.attempts)
            && s.attempts == Attempts(s.trace)
            && (cfg.maxReconnectAttempts > 0 ==> s.attempts <= cfg.maxReconnectAttempts)
  {
    EveryRunIsGood(steps, cfg);
    if cfg.maxReconnectAttempts > 0 {
      AttemptsBounded(Run(steps, cfg).trace, Limit(cfg));
    }
  }

  /** In a stretch without an announcement no more reconnects are scheduled than the limit allows. */
  lemma FewReconnects(steps: seq<Step>, cfg: Config, i: nat, j: nat)
    requires cfg.maxReconnectAttempts > 0
    requires i <= j <= |Run(steps, cfg).trace|
    requires forall k :: i <= k < j ==> !Run(steps, cfg).trace[k].Announced?
    ensures Schedules(Run(steps, cfg).trace[i..j]) <= cfg.maxReconnectAttempts
  {
    EveryRunIsGood(steps, cfg);
    BoundedReconnects(Run(steps, cfg).trace, i, j, Limit(cfg));
  }
}
