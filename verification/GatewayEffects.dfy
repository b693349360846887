/** What the other steps of the gateway client bring about, stated on its fields and its history. */
module GatewayEffects {
  import opened Basics
  import opened GatewayTrace
  import opened AttachPolicy
  import opened VerdictTracker
  import opened GatewaySession

  // -- how a session ends ----------------------------------------------------------------------------------

  predicate Up(s: Session, g: nat)
  {
    s.generation == g && (s.connected || s.connecting)
  }

  predicate Halting(s: Session)
  {
    s.status == Status.Stopping || s.status == Stopped
  }

  /** Another attempt is due: reconnecting is on, nothing is stopping, and the limit is not used up. */
  predicate Retries(s: Session, cfg: Config)
  {
    && cfg.autoReconnect && !Halting(s)
    && (cfg.maxReconnectAttempts > 0 ==> s.attempts < cfg.maxReconnectAttempts)
  }

  /** The session a retirement leaves: nothing up, bound, armed or in flight. */
  predicate Down(s: Session, after: Session)
  {
    && after.generation == s.generation + 1
    && !after.connected && !after.connecting && !after.bound && after.writer == None && after.attachTimer == None
    && after.ids == [] && after.began == map[]
    && after.paused == s.paused && after.failures == s.failures
    && after.opening == s.opening && after.sockets == s.sockets
  }

  /** The retirement, each id in flight failed with the reason, and then what follows. */
  predicate Ends(s: Session, after: Session, reason: string, more: Trace)
  {
    && |after.trace| == |s.trace| + 1 + |s.ids| + |more|
    && after.trace[..|s.trace|] == s.trace && after.trace[|s.trace|] == Retired(s.generation)
    && (forall i :: 0 <= i < |s.ids| ==> after.trace[|s.trace| + 1 + i] == Report(s.ids[i], Failed(reason)))
    && after.trace[|s.trace| + 1 + |s.ids|..] == more
  }

  lemma EndsBy(s: Session, after: Session, reason: string, more: Trace)
    requires after.trace == s.trace + [Retired(s.generation)] + Failures(s.ids, reason) + more
    ensures Ends(s, after, reason, more)
  {
  }

  /** The connection is lost: the core is told, and a reconnect is scheduled or the transport stops. */
  predicate Lost(s: Session, after: Session, cfg: Config)
  {
    && Down(s, after) && after.draining == s.draining && after.connectQueued == s.connectQueued
    && (Retries(s, cfg) ==>
          && after.status == Starting && after.reconnectArmed && after.attempts == s.attempts + 1
          && after.delay == (if s.delay * 2.0 < 30.0 then s.delay * 2.0 else 30.0)
          && Ends(s, after, "Connection lost", [Withdrawn, Scheduled(s.delay)]))
    && (!Retries(s, cfg) ==>
          && after.status == Stopped && after.reconnectArmed == s.reconnectArmed
          && after.attempts == s.attempts && after.delay == s.delay
          && Ends(s, after, "Connection lost", [Withdrawn]))
  }

  lemma ClosedIsLost(s: Session, g: nat, cfg: Config)
    requires Up(s, g)
    ensures Lost(s, ClosedBy(s, g, cfg), cfg)
  {
    var after := ClosedBy(s, g, cfg);
    var over := s.trace + [Retired(s.generation)] + Failures(s.ids, "Connection lost");
    if Retries(s, cfg) {
      assert after.trace == over + [Withdrawn] + [Scheduled(s.delay)] == over + [Withdrawn, Scheduled(s.delay)];
      EndsBy(s, after, "Connection lost", [Withdrawn, Scheduled(s.delay)]);
    } else {
      assert after.trace == over + [Withdrawn];
      EndsBy(s, after, "Connection lost", [Withdrawn]);
    }
  }

  /** A socket that closes loses its session. */
  lemma CloseLoses(s: Session, g: nat, cfg: Config)
    requires g in s.sockets && Up(s, g)
    ensures Lost(s, Apply(s, SocketCloses(g), cfg), cfg)
  {
    ClosedIsLost(s, g, cfg);
  }

  /** So does a connection that cannot be opened. */
  lemma OpenFailureLoses(s: Session, g: nat, cfg: Config)
    requires g in s.opening && Up(s, g)
    ensures Apply(s, OpenFails(g), cfg).opening == s.opening - {g}
    ensures Lost(s, Apply(s, OpenFails(g), cfg).(opening := s.opening), cfg)
  {
    ClosedIsLost(s, g, cfg);
  }

  /** What closes a session that is up: a failed write, a refusal, a missing signature or bind, a timeout. */
  predicate Fatal(s: Session, step: Step)
  {
    match step
    case IdentifyWritten(g, ok) => !ok && Up(s, g)
    case DeclarationWritten(g, ok) => !ok && Up(s, g)
    case Challenge(g, signed, accepted) => Up(s, g) && (!signed || s.writer == None || !accepted)
    case AddressError(g) => Up(s, g)
    case StatusConnected(g) => Up(s, g) && !s.bound
    case AttachTimesOut(g) => s.generation == g && s.connected && g in s.sockets
    case _ => false
  }

  lemma TimerEndsToo(s: Session, g: nat, cfg: Config)
    requires Up(s, g)
    ensures ClosedBy(s.(attachTimer := None), g, cfg) == ClosedBy(s, g, cfg)
  {
    assert Disconnected(s.(attachTimer := None), "Connection lost") == Disconnected(s, "Connection lost");
  }

  /** Each does what the socket closing would have done. */
  lemma FatalStepsClose(s: Session, step: Step, cfg: Config)
    requires Enabled(s, step) && Fatal(s, step)
    ensures Apply(s, step, cfg) == Apply(s, SocketCloses(step.g), cfg)
  {
    match step
    case StatusConnected(g) => TimerEndsToo(s, g, cfg);
    case AttachTimesOut(g) => TimerEndsToo(s, g, cfg);
    case Challenge(g, signed, accepted) => assert !signed || !Taken(s, g, accepted);
    case _ =>
  }

  /** Stopping ends the session, fails what is in flight, and calls off what is scheduled. */
  lemma StopEnds(s: Session, cfg: Config)
    requires s.status != Stopped
    ensures var after := Apply(s, StopBegin, cfg);
            && Down(s, after) && after.status == Status.Stopping && Ends(s, after, "Disconnected", [])
            && after.draining == None && !after.reconnectArmed && !after.connectQueued
            && after.attempts == s.attempts && after.delay == s.delay
  {
    var after := Apply(s, StopBegin, cfg);
    assert after.trace == s.trace + [Retired(s.generation)] + Failures(s.ids, "Disconnected") + [];
    EndsBy(s, after, "Disconnected", []);
  }

  lemma StopFinishes(s: Session, cfg: Config)
    requires s.status == Status.Stopping
    ensures Apply(s, StopFinish, cfg) == s.(status := Stopped, trace := s.trace + [Withdrawn])
  {
  }

  // -- how a session comes up ------------------------------------------------------------------------------

  /** A configured transport that is not up yet starts; any other is left alone. */
  lemma StartQueues(s: Session, cfg: Config)
    ensures Apply(s, Start, cfg) ==
            if cfg.configured && (s.status == Stopped || s.status == Status.Stopping)
            then s.(paused := false, status := Starting, connectQueued := true) else s
  {
  }

  /** A connect takes a generation of its own, unless a connection is up or coming up. */
  lemma ConnectClaims(s: Session, cfg: Config)
    requires s.connectQueued
    ensures s.connected || s.connecting ==> Apply(s, ConnectStart, cfg) == s.(connectQueued := false)
    ensures !s.connected && !s.connecting ==>
              Apply(s, ConnectStart, cfg) ==
              s.(connectQueued := false, connecting := true, generation := s.generation + 1,
                 opening := s.opening + {s.generation + 1})
  {
  }

  lemma ReconnectQueues(s: Session, cfg: Config)
    requires s.reconnectArmed
    ensures Apply(s, ReconnectFires, cfg) ==
            s.(reconnectArmed := false, connectQueued := s.connectQueued || !Halting(s))
  {
  }

  /** A socket that opens for the current generation is adopted and identified on. */
  lemma OpenIdentifies(s: Session, g: nat, cfg: Config)
    requires g in s.opening && s.generation == g
    ensures Apply(s, OpenSucceeds(g, true), cfg) ==
            s.(opening := s.opening - {g}, connected := true, connecting := false, writer := Some(g), failures := 0,
               sockets := s.sockets + {g}, trace := s.trace + [Wrote(g, Identify)])
  {
  }

  /** Once identified, the transport runs and the handshake has a deadline. */
  lemma IdentifiedRuns(s: Session, g: nat, cfg: Config)
    requires g in s.sockets && s.generation == g && !Halting(s)
    ensures Apply(s, IdentifyWritten(g, true), cfg) == s.(attachTimer := Some(g), status := Running)
  {
  }

  /** A signed challenge is answered on its own socket. */
  lemma ChallengeIsAnswered(s: Session, g: nat, cfg: Config)
    requires g in s.sockets && s.generation == g && s.writer == Some(g)
    ensures Apply(s, Challenge(g, true, true), cfg) == s.(trace := s.trace + [Wrote(g, DeclareAddress(g))])
  {
  }

  // -- draining --------------------------------------------------------------------------------------------

  /** An id a gateway takes as it is: 1 to 64 letters, digits, dots, underscores and dashes. */
  predicate WellFormed(id: string)
  {
    && 1 <= |id| <= 64
    && forall i :: 0 <= i < |id| ==>
         || 'A' <= id[i] <= 'Z' || 'a' <= id[i] <= 'z' || '0' <= id[i] <= '9'
         || id[i] == '.' || id[i] == '_' || id[i] == '-'
  }

  predicate Overdue(s: Session, id: string, now: real)
  {
    id in s.ids && id in s.began && now - s.began[id] > 60.0
  }

  lemma SweepFails(s: Session, now: real)
    ensures forall id :: id in Swept(s, now).ids <==> id in s.ids && !Overdue(s, id, now)
    ensures |Swept(s, now).ids| <= |s.ids| && s.trace <= Swept(s, now).trace
    ensures forall id :: Overdue(s, id, now) ==>
              Report(id, Failed("gateway_silent: no verdict within 60s")) in Swept(s, now).trace[|s.trace|..]
  {
    var stale := Stale(s.ids, s.began, now, VERDICT_TIMEOUT);
    StaleAmong(s.ids, s.began, now, VERDICT_TIMEOUT);
    KeptExactly(s.ids, Elements(stale));
    var fresh' := Swept(s, now).trace[|s.trace|..];
    assert fresh' == Failures(stale, GATEWAY_SILENT);
    forall id | Overdue(s, id, now) ensures Report(id, Failed(GATEWAY_SILENT)) in fresh' {
      var i :| 0 <= i < |stale| && stale[i] == id;
      assert fresh'[i] == Report(id, Failed(GATEWAY_SILENT));
    }
  }

  /** A pass ready to send: bound, with a socket and with room. */
  predicate Ready(s: Session)
  {
    s.bound && !s.paused && s.draining == None && s.writer == Some(s.generation) && |s.ids| < 8
  }

  /** A pass that may send writes the first frame that is new and well formed, and waits in that write. */
  lemma DrainSends(s: Session, now: real, outbox: seq<Outgoing>, cfg: Config)
    requires Ready(s) && outbox != [] && outbox[0].accepted
    requires WellFormed(outbox[0].id) && outbox[0].id !in s.ids
    ensures var id := outbox[0].id;
            var swept := Swept(s, now);
            Apply(s, DrainStart(now, outbox), cfg) ==
            swept.(ids := swept.ids + [id], began := swept.began[id := outbox[0].now],
                   trace := swept.trace + [Begin(id)] + [Wrote(s.generation, SendMessage(id))],
                   draining := Some(Drain(s.generation, 0, id)))
  {
    SweepFails(s, now);
    var swept := Swept(s, now);
    assert Sendable(outbox[0].id);
    DrainedStep(swept, s.generation, 0, outbox, cfg);
  }

  lemma RefusedIsSettled(s: Session, id: string, accepted: bool, cfg: Config)
    requires s.bound && s.writer.Some? && !WellFormed(id) && id in s.ids
    ensures !Suspends(s, s.generation, id, accepted)
    ensures Submitted(s, s.generation, id, accepted, cfg) == Settled(s, id, Failed("Unserializable frame"))
  {
    assert !Sendable(id);
  }

  /** A frame whose id the gateway would not take is failed, and never written. */
  lemma DrainRefuses(s: Session, now: real, next: Outgoing, cfg: Config)
    requires Ready(s) && !WellFormed(next.id) && next.id !in s.ids
    ensures var swept := Swept(s, now);
            var after := Apply(s, DrainStart(now, [next]), cfg);
            && after.trace == swept.trace + [Begin(next.id)] + [Report(next.id, Failed("Unserializable frame"))]
            && after.draining == None && after.failures == s.failures && after.generation == s.generation
            && forall id :: id in after.ids <==> id in swept.ids
  {
    SweepFails(s, now);
    var swept := Swept(s, now);
    var begun := Started(swept, next.id, next.now);
    RefusedIsSettled(begun, next.id, next.accepted, cfg);
    DrainedStep(swept, s.generation, 0, [next], cfg);
    DrainedOver(Settled(begun, next.id, Failed("Unserializable frame")), s.generation, 1, [next][1..], cfg);
    KeptExactly(swept.ids + [next.id], {next.id});
  }

  /** A write that went through clears the count of failures; the pass then goes on. */
  lemma WrittenGoesOn(s: Session, cfg: Config)
    requires s.draining.Some? && s.draining.value.generation == s.generation
    ensures Apply(s, DrainResume(true, []), cfg) == s.(failures := 0, draining := None)
  {
  }

  lemma CountedTells(s: Session, id: string)
    requires id in s.ids
    ensures FailureCounted(s, id) ==
            s.(failures := s.failures + 1, ids := Kept(s.ids, {id}), began := s.began - {id},
               trace := s.trace + [Report(id, Failed("Write failed"))])
  {
  }

  lemma ResumedThenOver(s: Session, cfg: Config)
    requires s.draining.Some?
    ensures var pass := s.draining.value;
            DrainResumed(s, false, [], cfg) ==
            ClosedAtLimit(FailureCounted(s, pass.id), pass.generation, cfg).(draining := None)
  {
    var pass := s.draining.value;
    DrainedOver(WriteFailed(s, pass.generation, pass.id, cfg), pass.generation, pass.sent + 1, [], cfg);
  }

  /** A write that failed fails its frame; the third failure in a row closes the session. */
  lemma FailedWriteIsCounted(s: Session, cfg: Config)
    requires s.draining.Some? && s.draining.value.generation == s.generation && s.draining.value.id in s.ids
    requires Up(s, s.generation) && s.generation in s.sockets
    ensures var id := s.draining.value.id;
            var told := s.(failures := s.failures + 1, ids := Kept(s.ids, {id}), began := s.began - {id},
                           trace := s.trace + [Report(id, Failed("Write failed"))]);
            Apply(s, DrainResume(false, []), cfg) ==
            (if told.failures >= 3 then Apply(told, SocketCloses(s.generation), cfg) else told).(draining := None)
  {
    CountedTells(s, s.draining.value.id);
    ResumedThenOver(s, cfg);
  }
}
