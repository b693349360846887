/** What holds in every reachable state of the gateway client. */
module GatewayInvariant {
  import opened Basics
  import opened GatewayTrace
  import opened AttachPolicy
  import opened VerdictTracker
  import opened GatewaySession

  /** One socket, under the current generation; a bind needs it; every other session is behind. */
  predicate Wired(s: Session)
  {
    && s.writer == (if s.connected then Some(s.generation) else None)
    && (s.bound ==> s.connected)
    && (s.connected <==> s.generation in s.sockets)
    && (s.connecting <==> s.generation in s.opening)
    && !(s.connected && s.connecting)
    && (forall g :: g in s.sockets ==> g <= s.generation)
    && (forall g :: g in s.opening ==> g <= s.generation)
    && (s.attachTimer.Some? ==> s.attachTimer.value == s.generation && s.connected)
    && (s.draining.Some? ==> s.draining.value.generation <= s.generation)
  }

  /** Few frames in flight, none twice, none without a bound session. */
  predicate Tracked(s: Session)
  {
    && NoDuplicates(s.ids) && |s.ids| <= MAX_IN_FLIGHT
    && s.began.Keys == Elements(s.ids)
    && (s.ids != [] ==> s.bound)
    && (s.draining.Some? && s.draining.value.generation != s.generation ==> s.ids == [])
  }

  /** What has happened accounts for the state. */
  ghost predicate Truthful(s: Session, cfg: Config)
  {
    && Ledger(s.trace, s.ids)
    && History(s.trace, Limit(cfg), if s.bound then Some(s.generation) else None, s.attempts, s.generation)
    && s.delay == Rung(s.attempts)
  }

  ghost predicate Good(s: Session, cfg: Config)
  {
    Wired(s) && Tracked(s) && Truthful(s, cfg)
  }

  lemma InitiallyGood(cfg: Config)
    ensures Good(INITIAL, cfg)
  {
    assert Pow2(0) == 1.0;
  }

  lemma QuietKeeps(s: Session, e: Event, cfg: Config)
    requires Good(s, cfg) && e.Withdrawn?
    ensures Good(Happened(s, e), cfg)
  {
    LedgerOther(s.trace, s.ids, e);
    HistorySnoc(s.trace, e, Limit(cfg), if s.bound then Some(s.generation) else None, s.attempts, s.generation);
  }

  lemma SettledKeeps(s: Session, id: string, outcome: Outcome, cfg: Config)
    requires Good(s, cfg) && id in s.ids
    ensures Good(Settled(s, id, outcome), cfg)
  {
    LedgerReport(s.trace, s.ids, id, outcome);
    HistorySnoc(s.trace, Report(id, outcome), Limit(cfg),
                if s.bound then Some(s.generation) else None, s.attempts, s.generation);
    KeptExactly(s.ids, {id});
    assert Elements(Kept(s.ids, {id})) == Elements(s.ids) - {id};
  }

  lemma FailedAllKeeps(s: Session, gone: seq<string>, reason: string, cfg: Config)
    requires Good(s, cfg) && NoDuplicates(gone) && forall id :: id in gone ==> id in s.ids
    ensures Good(FailedAll(s, gone, reason), cfg)
  {
    LedgerFailures(s.trace, s.ids, gone, reason);
    HistoryFailures(s.trace, gone, reason, Limit(cfg),
                    if s.bound then Some(s.generation) else None, s.attempts, s.generation);
    KeptExactly(s.ids, Elements(gone));
    assert Elements(Kept(s.ids, Elements(gone))) == Elements(s.ids) - Elements(gone);
  }

  lemma SweptKeeps(s: Session, now: real, cfg: Config)
    requires Good(s, cfg)
    ensures Good(Swept(s, now), cfg)
  {
    StaleAmong(s.ids, s.began, now, VERDICT_TIMEOUT);
    FailedAllKeeps(s, Stale(s.ids, s.began, now, VERDICT_TIMEOUT), GATEWAY_SILENT, cfg);
  }

  lemma RetireTruthful(s: Session, reason: string, cfg: Config)
    requires Truthful(s, cfg) && NoDuplicates(s.ids)
    ensures Truthful(Retire(s, reason), cfg)
  {
    var bind := if s.bound then Some(s.generation) else None;
    var over := s.trace + [Retired(s.generation)];
    LedgerOther(s.trace, s.ids, Retired(s.generation));
    LedgerFailures(over, s.ids, s.ids, reason);
    KeptNone(s.ids, Elements(s.ids));
    HistorySnoc(s.trace, Retired(s.generation), Limit(cfg), bind, s.attempts, s.generation + 1);
    HistoryFailures(over, s.ids, reason, Limit(cfg), None, s.attempts, s.generation + 1);
  }

  lemma DisconnectedKeeps(s: Session, reason: string, cfg: Config)
    requires Good(s, cfg)
    ensures Good(Disconnected(s, reason), cfg)
  {
    RetireTruthful(s.(writer := None, connected := false, connecting := false), reason, cfg);
  }

  lemma RescheduledKeeps(s: Session, cfg: Config)
    requires Good(s, cfg)
    ensures Good(Rescheduled(s, cfg), cfg)
  {
    LedgerOther(s.trace, s.ids, Scheduled(s.delay));
    if cfg.maxReconnectAttempts > 0 ==> s.attempts < cfg.maxReconnectAttempts {
      HistorySnoc(s.trace, Scheduled(s.delay), Limit(cfg),
                  if s.bound then Some(s.generation) else None, s.attempts, s.generation);
      NextRung(s.attempts);
    }
  }

  lemma ClosedKeeps(s: Session, g: nat, cfg: Config)
    requires Good(s, cfg)
    ensures Good(ClosedBy(s, g, cfg), cfg)
  {
    DisconnectedKeeps(s, "Connection lost", cfg);
    var off := Disconnected(s, "Connection lost");
    QuietKeeps(off, Withdrawn, cfg);
    RescheduledKeeps(Happened(off, Withdrawn), cfg);
  }

  /** A report for the current session ends it, whatever it was doing; any other changes nothing. */
  lemma ClosedMoves(s: Session, g: nat, cfg: Config)
    requires Wired(s) && (g in s.sockets || g in s.opening)
    ensures var after := ClosedBy(s, g, cfg);
            && after.opening == s.opening && after.sockets == s.sockets
            && (g == s.generation ==>
                  && after.generation == g + 1 && !after.connected && !after.connecting
                  && !after.bound && after.ids == [])
            && (g != s.generation ==> after == s)
  {
  }

  lemma WrittenKeeps(s: Session, g: nat, frame: Frame, accepted: bool, cfg: Config)
    requires Good(s, cfg)
    requires frame.DeclareAddress? ==> frame.challengedOn == g
    requires frame.SendMessage? ==> PhaseOf(s.trace, frame.id) == Begun
    ensures Good(Written(s, g, frame, accepted), cfg)
  {
    if Taken(s, g, accepted) {
      LedgerOther(s.trace, s.ids, Wrote(g, frame));
      HistorySnoc(s.trace, Wrote(g, frame), Limit(cfg),
                  if s.bound then Some(s.generation) else None, s.attempts, s.generation);
    }
  }

  lemma OpenedKeeps(s: Session, g: nat, accepted: bool, cfg: Config)
    requires Good(s, cfg) && g in s.opening
    ensures Good(Opened(s, g, accepted, cfg), cfg)
  {
    if s.generation == g {
      var up := s.(opening := s.opening - {g}, connected := true, connecting := false, writer := Some(g),
                   failures := 0, sockets := s.sockets + {g});
      WrittenKeeps(up, g, Identify, accepted, cfg);
      ClosedKeeps(up, g, cfg);
    }
  }

  lemma EchoedKeeps(s: Session, address: string, cfg: Config)
    requires Good(s, cfg) && s.connected && address != ""
    ensures Good(Happened(s, Echoed(s.generation, address, address)).(bound := true), cfg)
  {
    var e := Echoed(s.generation, address, address);
    LedgerOther(s.trace, s.ids, e);
    HistorySnoc(s.trace, e, Limit(cfg), if s.bound then Some(s.generation) else None, s.attempts, s.generation);
  }

  lemma DeclaredKeeps(s: Session, g: nat, declared: Option<string>, local: Option<string>, cfg: Config)
    requires Good(s, cfg) && g in s.sockets
    ensures Good(Declared(s, g, declared, local, cfg), cfg)
  {
    if s.generation == g && declared.Some? && declared.value != "" {
      if local == declared {
        EchoedKeeps(s, declared.value, cfg);
      } else {
        ClosedKeeps(s, g, cfg);
      }
    }
  }

  lemma AnnouncedKeeps(s: Session, cfg: Config)
    requires Good(s, cfg) && s.bound
    ensures Good(Happened(s, Announced(s.generation)).(attempts := 0, delay := RECONNECT_INITIAL_DELAY), cfg)
  {
    LedgerOther(s.trace, s.ids, Announced(s.generation));
    HistorySnoc(s.trace, Announced(s.generation), Limit(cfg), Some(s.generation), s.attempts, s.generation);
    assert Pow2(0) == 1.0;
  }

  lemma AttachKeeps(s: Session, g: nat, cfg: Config)
    requires Good(s, cfg)
    ensures Good(AttachCompleted(s, g, cfg), cfg)
  {
    var disarmed := s.(attachTimer := None);
    ClosedKeeps(disarmed, g, cfg);
    if s.bound {
      AnnouncedKeeps(disarmed, cfg);
    }
  }

  lemma VerdictKeeps(s: Session, g: nat, frame: Fields, accepted: bool, broken: bool, cfg: Config)
    requires Good(s, cfg)
    ensures Good(VerdictHeard(s, g, frame, accepted, broken, cfg), cfg)
  {
    var verdict := ParseVerdict(frame, accepted);
    if verdict.Some? && verdict.value.id in s.ids {
      SettledKeeps(s, verdict.value.id, VerdictReport(verdict.value).outcome, cfg);
      ClosedKeeps(Settled(s, verdict.value.id, VerdictReport(verdict.value).outcome), g, cfg);
    }
  }

  lemma StartedKeeps(s: Session, id: string, now: real, cfg: Config)
    requires Good(s, cfg) && s.bound && id !in s.ids && |s.ids| < MAX_IN_FLIGHT
    requires s.draining.Some? ==> s.draining.value.generation == s.generation
    ensures Good(Started(s, id, now), cfg) && PhaseOf(Started(s, id, now).trace, id) == Begun
  {
    LedgerBegin(s.trace, s.ids, id);
    HistorySnoc(s.trace, Begin(id), Limit(cfg), if s.bound then Some(s.generation) else None, s.attempts, s.generation);
    assert Elements(s.ids + [id]) == Elements(s.ids) + {id};
  }

  lemma SettledLocallyKeeps(s: Session, id: string, reason: string, cfg: Config)
    requires Good(s, cfg)
    ensures Good(SettledLocally(s, id, reason), cfg)
  {
    if id in s.ids {
      SettledKeeps(s, id, Failed(reason), cfg);
    }
  }

  lemma CountKeeps(s: Session, failures: nat, cfg: Config)
    requires Good(s, cfg)
    ensures Good(s.(failures := failures), cfg)
  {
  }

  lemma FailureCountedKeeps(s: Session, id: string, cfg: Config)
    requires Good(s, cfg)
    ensures Good(FailureCounted(s, id), cfg)
  {
    CountKeeps(s, s.failures + 1, cfg);
    SettledLocallyKeeps(s.(failures := s.failures + 1), id, "Write failed", cfg);
  }

  lemma WriteFailedKeeps(s: Session, g: nat, id: string, cfg: Config)
    requires Good(s, cfg)
    ensures Good(WriteFailed(s, g, id, cfg), cfg)
  {
    var counted := FailureCounted(s, id);
    FailureCountedKeeps(s, id, cfg);
    if counted.failures >= MAX_CONSECUTIVE_FAILURES {
      ClosedKeeps(counted, g, cfg);
    }
  }

  lemma SubmittedKeeps(s: Session, g: nat, id: string, accepted: bool, cfg: Config)
    requires Good(s, cfg) && PhaseOf(s.trace, id) == Begun
    ensures Good(Submitted(s, g, id, accepted, cfg), cfg)
  {
    SettledLocallyKeeps(s, id, "Not attached to a gateway", cfg);
    SettledLocallyKeeps(s, id, "Unserializable frame", cfg);
    WrittenKeeps(s, g, SendMessage(id), accepted, cfg);
    WriteFailedKeeps(s, g, id, cfg);
  }

  lemma ClosedKeepsLock(s: Session, g: nat, cfg: Config)
    ensures ClosedBy(s, g, cfg).draining == s.draining
  {
  }

  lemma WriteFailedKeepsLock(s: Session, g: nat, id: string, cfg: Config)
    ensures WriteFailed(s, g, id, cfg).draining == s.draining
  {
    ClosedKeepsLock(FailureCounted(s, id), g, cfg);
  }

  /** No helper of a pass touches the lock it holds. */
  lemma SubmittedKeepsLock(s: Session, g: nat, id: string, accepted: bool, cfg: Config)
    ensures Submitted(s, g, id, accepted, cfg).draining == s.draining
  {
    if s.bound && s.writer.Some? && Sendable(id) && !Taken(s, g, accepted) {
      WriteFailedKeepsLock(s, g, id, cfg);
      assert Submitted(s, g, id, accepted, cfg) == WriteFailed(s, g, id, cfg);
    } else {
      assert Submitted(s, g, id, accepted, cfg).draining == s.draining;
    }
  }

  lemma {:induction false} DrainedKeeps(s: Session, g: nat, sent: nat, outbox: seq<Outgoing>, cfg: Config)
    requires Good(s, cfg) && (s.draining.Some? ==> s.draining.value.generation == g)
    ensures Good(Drained(s, g, sent, outbox, cfg), cfg)
    decreases |outbox|
  {
    if !PassOver(s, g, sent, outbox) {
      var next := outbox[0];
      if next.id in s.ids {
        DrainedKeeps(s, g, sent, outbox[1..], cfg);
      } else {
        StartedKeeps(s, next.id, next.now, cfg);
        var begun := Started(s, next.id, next.now);
        SubmittedKeeps(begun, g, next.id, next.accepted, cfg);
        SubmittedKeepsLock(begun, g, next.id, next.accepted, cfg);
        if !Suspends(begun, g, next.id, next.accepted) {
          DrainedKeeps(Submitted(begun, g, next.id, next.accepted, cfg), g, sent + 1, outbox[1..], cfg);
        }
      }
    }
  }

  lemma DrainBegunKeeps(s: Session, now: real, outbox: seq<Outgoing>, cfg: Config)
    requires Good(s, cfg) && s.draining.None?
    ensures Good(DrainBegun(s, now, outbox, cfg), cfg)
  {
    SweptKeeps(s, now, cfg);
    DrainedKeeps(Swept(s, now), s.generation, 0, outbox, cfg);
  }

  lemma DrainResumedKeeps(s: Session, ok: bool, outbox: seq<Outgoing>, cfg: Config)
    requires Good(s, cfg) && s.draining.Some?
    ensures Good(DrainResumed(s, ok, outbox, cfg), cfg)
  {
    var pass := s.draining.value;
    if ok {
      DrainedKeeps(s.(failures := 0), pass.generation, pass.sent + 1, outbox, cfg);
    } else {
      WriteFailedKeeps(s, pass.generation, pass.id, cfg);
      WriteFailedKeepsLock(s, pass.generation, pass.id, cfg);
      DrainedKeeps(WriteFailed(s, pass.generation, pass.id, cfg), pass.generation, pass.sent + 1, outbox, cfg);
    }
  }

  lemma ChallengedKeeps(s: Session, g: nat, signed: bool, accepted: bool, cfg: Config)
    requires Good(s, cfg)
    ensures Good(Challenged(s, g, signed, accepted, cfg), cfg)
  {
    ClosedKeeps(s, g, cfg);
    WrittenKeeps(s, g, DeclareAddress(g), accepted, cfg);
  }

  lemma StopBegunKeeps(s: Session, cfg: Config)
    requires Good(s, cfg)
    ensures Good(StopBegun(s), cfg)
  {
    DisconnectedKeeps(s.(status := Stopping, reconnectArmed := false, connectQueued := false, draining := None),
                      "Disconnected", cfg);
  }

  lemma OpenRefusedKeeps(s: Session, g: nat, cfg: Config)
    requires Good(s, cfg) && g in s.opening
    ensures Good(OpenRefused(s, g, cfg), cfg)
  {
    ClosedKeeps(s, g, cfg);
    ClosedMoves(s, g, cfg);
  }

  lemma IdentifiedKeeps(s: Session, g: nat, ok: bool, cfg: Config)
    requires Good(s, cfg) && g in s.sockets
    ensures Good(Identified(s, g, ok, cfg), cfg)
  {
    ClosedKeeps(s, g, cfg);
    DisconnectedKeeps(s, "Disconnected", cfg);
  }

  lemma AttachExpiredKeeps(s: Session, g: nat, cfg: Config)
    requires Good(s, cfg)
    ensures Good(AttachExpired(s, g, cfg), cfg)
  {
    ClosedKeeps(s.(attachTimer := None), g, cfg);
  }

  lemma PlainKeeps(s: Session, step: Step, cfg: Config)
    requires Good(s, cfg) && Enabled(s, step)
    requires || step.Start? || step.Pause? || step.Resume?
             || step.ReconnectFires? || step.ConnectStart? || step.DrainCancel?
    ensures Good(Apply(s, step, cfg), cfg)
  {
    if step.ConnectStart? && !s.connecting && !s.connected {
      assert RetiredBelow(s.trace, s.generation + 1);
    }
  }

  lemma StepKeeps(s: Session, step: Step, cfg: Config)
    requires Good(s, cfg)
    ensures Good(Next(s, step, cfg), cfg)
  {
    if Enabled(s, step) {
      match step
      case StopBegin => StopBegunKeeps(s, cfg);
      case StopFinish => QuietKeeps(s, Withdrawn, cfg);
      case OpenSucceeds(g, accepted) => OpenedKeeps(s, g, accepted, cfg);
      case OpenFails(g) => OpenRefusedKeeps(s, g, cfg);
      case IdentifyWritten(g, ok) => IdentifiedKeeps(s, g, ok, cfg);
      case AttachTimesOut(g) => AttachExpiredKeeps(s, g, cfg);
      case SocketCloses(g) => ClosedKeeps(s, g, cfg);
      case Challenge(g, signed, accepted) => ChallengedKeeps(s, g, signed, accepted, cfg);
      case DeclarationWritten(g, _) => ClosedKeeps(s, g, cfg);
      case AddressDeclared(g, declared, local) => DeclaredKeeps(s, g, declared, local, cfg);
      case AddressError(g) => ClosedKeeps(s, g, cfg);
      case StatusConnected(g) => AttachKeeps(s, g, cfg);
      case VerdictFrame(g, frame, accepted, broken) => VerdictKeeps(s, g, frame, accepted, broken, cfg);
      case DrainStart(now, outbox) => DrainBegunKeeps(s, now, outbox, cfg);
      case DrainResume(ok, outbox) => DrainResumedKeeps(s, ok, outbox, cfg);
      case _ => PlainKeeps(s, step, cfg);
    }
  }

  lemma {:induction false} EveryRunIsGood(steps: seq<Step>, cfg: Config)
    ensures Good(Run(steps, cfg), cfg)
  {
    if steps == [] {
      InitiallyGood(cfg);
    } else {
      EveryRunIsGood(steps[..|steps| - 1], cfg);
      StepKeeps(Run(steps[..|steps| - 1], cfg), steps[|steps| - 1], cfg);
    }
  }
}
