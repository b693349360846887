/** Where the events that tell the core something good come from. */
module GatewayOrigins {
  import opened Basics
  import opened GatewayTrace
  import opened AttachPolicy
  import opened GatewaySession

  /** A session announced, a bind recorded, a frame confirmed. */
  predicate Telling(e: Event)
  {
    e.Announced? || e.Echoed? || (e.Report? && e.outcome.Confirmed?)
  }

  /** A step that tells nothing of the kind and takes nothing off the ladder. */
  predicate Quiet(s: Session, after: Session)
  {
    && s.attempts <= after.attempts
    && s.trace <= after.trace
    && forall k :: |s.trace| <= k < |after.trace| ==> !Telling(after.trace[k])
  }

  lemma QuietOn(s: Session, middle: Session, after: Session)
    requires Quiet(s, middle) && Quiet(middle, after)
    ensures Quiet(s, after)
  {
  }

  // -- the three steps that tell -------------------------------------------------------------------------

  /** The gateway reports connected on the current, bound session of a transport that is not stopping. */
  predicate Announces(s: Session, step: Step)
  {
    && step.StatusConnected? && step.g == s.generation && s.bound && s.connected
    && s.status != Stopping && s.status != Stopped
  }

  /** The gateway echoes, on the current session, the address that is this device's own. */
  predicate Binds(s: Session, step: Step)
  {
    && step.AddressDeclared? && step.g == s.generation
    && step.declared.Some? && step.declared.value != "" && step.declared == step.local
  }

  predicate FieldIs(frame: Fields, name: string, value: Field)
  {
    name in frame && frame[name] == value
  }

  /** The gateway answers, on the current session, for a frame that is in flight. */
  predicate Answers(s: Session, step: Step, id: string)
  {
    && step.VerdictFrame? && step.g == s.generation
    && id in s.ids && id != "" && FieldIs(step.frame, "message_id", Text(id))
  }

  /** What an answer is reported as, read off the frame's fields. */
  predicate ReportedAs(frame: Fields, accepted: bool, outcome: Outcome)
  {
    var pushed, stored := FieldIs(frame, "pushed", Flag(true)), FieldIs(frame, "stored", Flag(true));
    if accepted && !pushed then outcome == Confirmed
    else if accepted && !stored then outcome == Failed("relay_pushed")
    else if accepted then outcome == Failed("relay_pushed_stored")
    else if stored then outcome == Failed("relay_stored")
    else if "reason" in frame && frame["reason"].Text? && frame["reason"].text != "" then
      outcome == Failed(frame["reason"].text)
    else outcome == Failed("DeliveryError")
  }

  // -- every other step is quiet ---------------------------------------------------------------------------

  lemma RescheduledQuiet(s: Session, cfg: Config)
    ensures Quiet(s, Rescheduled(s, cfg))
  {
  }

  lemma DisconnectedQuiet(s: Session, reason: string)
    ensures Quiet(s, Happened(Disconnected(s, reason), Withdrawn)) && Quiet(s, Disconnected(s, reason))
  {
  }

  lemma ClosedQuiet(s: Session, g: nat, cfg: Config)
    ensures Quiet(s, ClosedBy(s, g, cfg))
  {
    DisconnectedQuiet(s, "Connection lost");
    var down := Happened(Disconnected(s, "Connection lost"), Withdrawn);
    RescheduledQuiet(down, cfg);
    QuietOn(s, down, Rescheduled(down, cfg));
  }

  lemma WriteFailedQuiet(s: Session, g: nat, id: string, cfg: Config)
    ensures Quiet(s, WriteFailed(s, g, id, cfg))
  {
    var counted := FailureCounted(s, id);
    assert Quiet(s, counted) by {
      SettledLocallyQuiet(s.(failures := s.failures + 1), id, "Write failed");
    }
    ClosedQuiet(counted, g, cfg);
    QuietOn(s, counted, ClosedBy(counted, g, cfg));
  }

  lemma SettledLocallyQuiet(s: Session, id: string, reason: string)
    ensures Quiet(s, SettledLocally(s, id, reason))
  {
  }

  lemma WrittenQuiet(s: Session, g: nat, frame: Frame, accepted: bool)
    ensures Quiet(s, Written(s, g, frame, accepted))
  {
  }

  lemma SubmittedQuiet(s: Session, g: nat, id: string, accepted: bool, cfg: Config)
    ensures Quiet(s, Submitted(s, g, id, accepted, cfg))
  {
    if !s.bound || s.writer.None? {
      SettledLocallyQuiet(s, id, "Not attached to a gateway");
    } else if !Sendable(id) {
      SettledLocallyQuiet(s, id, "Unserializable frame");
    } else if Taken(s, g, accepted) {
      WrittenQuiet(s, g, SendMessage(id), accepted);
    } else {
      WriteFailedQuiet(s, g, id, cfg);
    }
  }

  lemma {:induction false} DrainedQuiet(s: Session, g: nat, sent: nat, outbox: seq<Outgoing>, cfg: Config)
    ensures Quiet(s, Drained(s, g, sent, outbox, cfg))
    decreases |outbox|
  {
    if !PassOver(s, g, sent, outbox) {
      var next := outbox[0];
      if next.id in s.ids {
        DrainedQuiet(s, g, sent, outbox[1..], cfg);
      } else {
        var begun := Started(s, next.id, next.now);
        var after := Submitted(begun, g, next.id, next.accepted, cfg);
        SubmittedQuiet(begun, g, next.id, next.accepted, cfg);
        QuietOn(s, begun, after);
        DrainedQuiet(after, g, sent + 1, outbox[1..], cfg);
        QuietOn(s, after, Drained(after, g, sent + 1, outbox[1..], cfg));
      }
    }
  }

  lemma DrainStepsQuiet(s: Session, step: Step, cfg: Config)
    requires Enabled(s, step) && (step.DrainStart? || step.DrainResume?)
    ensures Quiet(s, Apply(s, step, cfg))
  {
    if step.DrainStart? {
      var swept := Swept(s, step.now);
      DrainedQuiet(swept, s.generation, 0, step.outbox, cfg);
      QuietOn(s, swept, Drained(swept, s.generation, 0, step.outbox, cfg));
    } else {
      var pass := s.draining.value;
      WriteFailedQuiet(s, pass.generation, pass.id, cfg);
      var resumed := if step.ok then s.(failures := 0) else WriteFailed(s, pass.generation, pass.id, cfg);
      DrainedQuiet(resumed, pass.generation, pass.sent + 1, step.outbox, cfg);
      QuietOn(s, resumed, Apply(s, step, cfg));
    }
  }

  lemma WrittenOrClosedQuiet(s: Session, g: nat, frame: Frame, accepted: bool, cfg: Config)
    ensures Quiet(s, WrittenOrClosed(s, g, frame, accepted, cfg))
  {
    if Taken(s, g, accepted) {
      WrittenQuiet(s, g, frame, accepted);
    } else {
      ClosedQuiet(s, g, cfg);
    }
  }

  lemma OpenedQuiet(s: Session, g: nat, accepted: bool, cfg: Config)
    ensures Quiet(s, Opened(s, g, accepted, cfg))
  {
    if s.generation == g {
      var up := s.(opening := s.opening - {g}, connected := true, connecting := false, writer := Some(g),
                   failures := 0, sockets := s.sockets + {g});
      WrittenOrClosedQuiet(up, g, Identify, accepted, cfg);
      QuietOn(s, up, WrittenOrClosed(up, g, Identify, accepted, cfg));
    }
  }

  lemma OpenRefusedQuiet(s: Session, g: nat, cfg: Config)
    ensures Quiet(s, OpenRefused(s, g, cfg))
  {
    ClosedQuiet(s, g, cfg);
    QuietOn(s, ClosedBy(s, g, cfg), OpenRefused(s, g, cfg));
  }

  lemma IdentifiedQuiet(s: Session, g: nat, ok: bool, cfg: Config)
    ensures Quiet(s, Identified(s, g, ok, cfg))
  {
    if !ok {
      ClosedQuiet(s, g, cfg);
    } else {
      DisconnectedQuiet(s, "Disconnected");
    }
  }

  lemma AttachExpiredQuiet(s: Session, g: nat, cfg: Config)
    ensures Quiet(s, AttachExpired(s, g, cfg))
  {
    var fired := s.(attachTimer := None);
    ClosedQuiet(fired, g, cfg);
    QuietOn(s, fired, ClosedBy(fired, g, cfg));
  }

  lemma ChallengedQuiet(s: Session, g: nat, signed: bool, accepted: bool, cfg: Config)
    ensures Quiet(s, Challenged(s, g, signed, accepted, cfg))
  {
    if !signed {
      ClosedQuiet(s, g, cfg);
    } else {
      WrittenOrClosedQuiet(s, g, DeclareAddress(g), accepted, cfg);
    }
  }

  lemma DeclaredQuiet(s: Session, g: nat, declared: Option<string>, local: Option<string>, cfg: Config)
    requires !Binds(s, AddressDeclared(g, declared, local))
    ensures Quiet(s, Declared(s, g, declared, local, cfg))
  {
    ClosedQuiet(s, g, cfg);
    var after := Declared(s, g, declared, local, cfg);
    assert after == s || after == ClosedBy(s, g, cfg);
  }

  lemma StopBegunQuiet(s: Session)
    ensures Quiet(s, StopBegun(s))
  {
    var halting := s.(status := Stopping, reconnectArmed := false, connectQueued := false, draining := None);
    DisconnectedQuiet(halting, "Disconnected");
    QuietOn(s, halting, Disconnected(halting, "Disconnected"));
  }

  lemma AttachQuiet(s: Session, g: nat, cfg: Config)
    requires !Announces(s, StatusConnected(g))
    ensures Quiet(s, AttachCompleted(s, g, cfg))
  {
    ClosedQuiet(s.(attachTimer := None), g, cfg);
  }

  lemma OtherStepsAreQuiet(s: Session, step: Step, cfg: Config)
    requires Enabled(s, step) && !Announces(s, step) && !Binds(s, step) && !step.VerdictFrame?
    ensures Quiet(s, Apply(s, step, cfg))
  {
    match step
    case StopBegin => StopBegunQuiet(s);
    case OpenSucceeds(g, accepted) => OpenedQuiet(s, g, accepted, cfg);
    case OpenFails(g) => OpenRefusedQuiet(s, g, cfg);
    case IdentifyWritten(g, ok) => IdentifiedQuiet(s, g, ok, cfg);
    case AttachTimesOut(g) => AttachExpiredQuiet(s, g, cfg);
    case DrainStart(_, _) => DrainStepsQuiet(s, step, cfg);
    case DrainResume(_, _) => DrainStepsQuiet(s, step, cfg);
    case Challenge(g, signed, accepted) => ChallengedQuiet(s, g, signed, accepted, cfg);
    case AddressDeclared(g, declared, local) => DeclaredQuiet(s, g, declared, local, cfg);
    case StatusConnected(g) => AttachQuiet(s, g, cfg);
    case SocketCloses(g) => ClosedQuiet(s, g, cfg);
    case DeclarationWritten(g, _) => ClosedQuiet(s, g, cfg);
    case AddressError(g) => ClosedQuiet(s, g, cfg);
    case _ =>
  }

  // -- what the telling steps do ---------------------------------------------------------------------------

  /** An echo of our own address binds the session. */
  lemma OwnEchoBinds(s: Session, step: Step, cfg: Config)
    requires Enabled(s, step) && Binds(s, step)
    ensures Apply(s, step, cfg) ==
            s.(bound := true, trace := s.trace + [Echoed(s.generation, step.local.value, step.local.value)])
  {
  }

  /** Any other address does to the session what its socket closing does. */
  lemma ForeignEchoCloses(s: Session, step: Step, cfg: Config)
    requires Enabled(s, step) && step.AddressDeclared? && step.g == s.generation
    requires step.declared.Some? && step.declared.value != "" && step.declared != step.local
    ensures Apply(s, step, cfg) == Apply(s, SocketCloses(step.g), cfg)
  {
    assert !BindingOutcome(step.declared.value, step.local).Bound?;
  }

  /** An announcement resets the ladder and changes nothing else. */
  lemma ConnectedAnnounces(s: Session, step: Step, cfg: Config)
    requires Enabled(s, step) && Announces(s, step)
    ensures Apply(s, step, cfg) == s.(attachTimer := None, attempts := 0, delay := RECONNECT_INITIAL_DELAY,
                                      trace := s.trace + [Announced(s.generation)])
  {
  }

  lemma ReportOf(frame: Fields, accepted: bool, id: string)
    requires id != "" && FieldIs(frame, "message_id", Text(id))
    ensures ParseVerdict(frame, accepted).Some? && ParseVerdict(frame, accepted).value.id == id
    ensures ReportedAs(frame, accepted, VerdictReport(ParseVerdict(frame, accepted).value).outcome)
  {
  }

  /** One id reported and out of flight. */
  function Told(s: Session, id: string, outcome: Outcome): Session
  {
    s.(trace := s.trace + [Report(id, outcome)], ids := Kept(s.ids, {id}), began := s.began - {id})
  }

  lemma Heard(s: Session, step: Step, v: Verdict, cfg: Config)
    requires Enabled(s, step) && step.VerdictFrame? && step.g == s.generation
    requires ParseVerdict(step.frame, step.accepted) == Some(v) && v.id in s.ids
    ensures Apply(s, step, cfg) ==
            var told := Told(s, v.id, VerdictReport(v).outcome);
            if step.broken then ClosedBy(told, step.g, cfg) else told
  {
  }

  /** An answer is reported once, as its fields say; a core call that breaks then closes the session besides. */
  lemma AnswerIsReported(s: Session, step: Step, id: string, cfg: Config) returns (outcome: Outcome)
    requires Enabled(s, step) && Answers(s, step, id)
    ensures ReportedAs(step.frame, step.accepted, outcome)
    ensures Apply(s, step, cfg) ==
            if step.broken then Apply(Told(s, id, outcome), SocketCloses(step.g), cfg) else Told(s, id, outcome)
  {
    ReportOf(step.frame, step.accepted, id);
    var v := ParseVerdict(step.frame, step.accepted).value;
    outcome := VerdictReport(v).outcome;
    Heard(s, step, v, cfg);
  }

  /** A frame that answers for nothing in flight is ignored. */
  lemma OtherAnswersAreIgnored(s: Session, step: Step, cfg: Config)
    requires Enabled(s, step) && step.VerdictFrame? && forall id :: id in s.ids ==> !Answers(s, step, id)
    ensures Apply(s, step, cfg) == s
  {
    var v := ParseVerdict(step.frame, step.accepted);
    if v.Some? && v.value.id in s.ids {
      assert !Answers(s, step, v.value.id);
    }
  }

  /** After a report, nothing more is told. */
  predicate TellsOnly(s: Session, after: Session, id: string, outcome: Outcome)
  {
    && s.attempts <= after.attempts && s.trace + [Report(id, outcome)] <= after.trace
    && forall k :: |s.trace| < k < |after.trace| ==> !Telling(after.trace[k])
  }

  lemma ToldThenQuiet(s: Session, id: string, outcome: Outcome, after: Session)
    requires Quiet(Told(s, id, outcome), after)
    ensures TellsOnly(s, after, id, outcome)
  {
  }

  lemma HeardIsQuiet(s: Session, step: Step, v: Verdict, cfg: Config)
    requires Enabled(s, step) && step.VerdictFrame? && step.g == s.generation
    requires ParseVerdict(step.frame, step.accepted) == Some(v) && v.id in s.ids
    ensures Quiet(Told(s, v.id, VerdictReport(v).outcome), Apply(s, step, cfg))
  {
    Heard(s, step, v, cfg);
    if step.broken {
      ClosedQuiet(Told(s, v.id, VerdictReport(v).outcome), step.g, cfg);
    }
  }

  lemma AnswerTellsOnly(s: Session, step: Step, id: string, cfg: Config) returns (outcome: Outcome)
    requires Enabled(s, step) && Answers(s, step, id)
    ensures ReportedAs(step.frame, step.accepted, outcome) && TellsOnly(s, Apply(s, step, cfg), id, outcome)
  {
    ReportOf(step.frame, step.accepted, id);
    var v := ParseVerdict(step.frame, step.accepted).value;
    outcome := VerdictReport(v).outcome;
    HeardIsQuiet(s, step, v, cfg);
    ToldThenQuiet(s, id, outcome, Apply(s, step, cfg));
  }

  lemma VerdictFrames(s: Session, step: Step, cfg: Config)
    requires Enabled(s, step) && step.VerdictFrame?
    ensures var after := Apply(s, step, cfg);
            && s.attempts <= after.attempts && s.trace <= after.trace
            && forall k :: |s.trace| <= k < |after.trace| && Telling(after.trace[k]) ==>
                 && after.trace[k].Report? && Answers(s, step, after.trace[k].id)
                 && ReportedAs(step.frame, step.accepted, after.trace[k].outcome)
  {
    if id :| id in s.ids && Answers(s, step, id) {
      var outcome := AnswerTellsOnly(s, step, id, cfg);
      var after := Apply(s, step, cfg);
      assert (s.trace + [Report(id, outcome)])[|s.trace|] == Report(id, outcome) == after.trace[|s.trace|];
    } else {
      OtherAnswersAreIgnored(s, step, cfg);
    }
  }

  // -- over whole runs --------------------------------------------------------------------------------------

  /** What makes a step tell an event. */
  predicate Warranted(s: Session, step: Step, e: Event)
  {
    match e
    case Announced(g) => g == s.generation && Announces(s, step)
    case Echoed(g, declared, local) =>
      g == s.generation && Binds(s, step) && declared == local && step.declared == Some(declared)
    case Report(id, outcome) => Answers(s, step, id) && ReportedAs(step.frame, step.accepted, outcome)
    case _ => true
  }

  predicate AllWarranted(s: Session, step: Step, after: Session)
  {
    && s.trace <= after.trace
    && forall k :: |s.trace| <= k < |after.trace| && Telling(after.trace[k]) ==> Warranted(s, step, after.trace[k])
  }

  lemma OneWarranted(s: Session, step: Step, after: Session, e: Event)
    requires after.trace == s.trace + [e] && Warranted(s, step, e)
    ensures AllWarranted(s, step, after)
  {
  }

  lemma VerdictWarrants(s: Session, step: Step, cfg: Config)
    requires Enabled(s, step) && step.VerdictFrame?
    ensures AllWarranted(s, step, Apply(s, step, cfg))
  {
    VerdictFrames(s, step, cfg);
  }

  /** Every telling event a step appends is warranted by it. */
  lemma StepWarrants(s: Session, step: Step, cfg: Config)
    requires Enabled(s, step)
    ensures AllWarranted(s, step, Apply(s, step, cfg))
  {
    if step.VerdictFrame? {
      VerdictWarrants(s, step, cfg);
    } else if Announces(s, step) {
      ConnectedAnnounces(s, step, cfg);
      OneWarranted(s, step, Apply(s, step, cfg), Announced(s.generation));
    } else if Binds(s, step) {
      OwnEchoBinds(s, step, cfg);
      OneWarranted(s, step, Apply(s, step, cfg), Echoed(s.generation, step.local.value, step.local.value));
    } else {
      OtherStepsAreQuiet(s, step, cfg);
    }
  }

  /** Every telling event of a run was appended by a step that warrants it, in the state that step found. */
  lemma {:induction false} Origin(steps: seq<Step>, cfg: Config, k: nat) returns (i: nat)
    requires k < |Run(steps, cfg).trace| && Telling(Run(steps, cfg).trace[k])
    ensures i < |steps| && Enabled(Run(steps[..i], cfg), steps[i])
    ensures Warranted(Run(steps[..i], cfg), steps[i], Run(steps, cfg).trace[k])
  {
    var init, last := steps[..|steps| - 1], steps[|steps| - 1];
    var before := Run(init, cfg);
    if Enabled(before, last) {
      StepWarrants(before, last, cfg);
    }
    if k < |before.trace| {
      assert before.trace[k] == Run(steps, cfg).trace[k];
      i := Origin(init, cfg, k);
      assert init[..i] == steps[..i];
    } else {
      i := |steps| - 1;
    }
  }

  /** In every run a confirmation comes of an acceptance that was not a push, for that id, then in flight. */
  lemma ConfirmedOnlyWhenAccepted(steps: seq<Step>, cfg: Config, k: nat, id: string) returns (i: nat)
    requires k < |Run(steps, cfg).trace| && Run(steps, cfg).trace[k] == Report(id, Confirmed)
    ensures i < |steps| && steps[i].VerdictFrame? && steps[i].accepted
    ensures !FieldIs(steps[i].frame, "pushed", Flag(true)) && FieldIs(steps[i].frame, "message_id", Text(id))
    ensures steps[i].g == Run(steps[..i], cfg).generation && id in Run(steps[..i], cfg).ids
  {
    i := Origin(steps, cfg, k);
  }

  /** The ladder and its delay start over on an announcement, and no other step takes anything off it. */
  lemma ResetOnlyOnAnnouncement(s: Session, step: Step, cfg: Config)
    requires Enabled(s, step)
    ensures Announces(s, step) ==>
              Apply(s, step, cfg) == s.(attachTimer := None, attempts := 0, delay := RECONNECT_INITIAL_DELAY,
                                        trace := s.trace + [Announced(s.generation)])
    ensures !Announces(s, step) ==>
              var after := Apply(s, step, cfg);
              && s.attempts <= after.attempts && s.trace <= after.trace
              && forall k :: |s.trace| <= k < |after.trace| ==> !after.trace[k].Announced?
  {
    if step.VerdictFrame? {
      VerdictFrames(s, step, cfg);
    } else if Binds(s, step) {
      OwnEchoBinds(s, step, cfg);
    } else if !Announces(s, step) {
      OtherStepsAreQuiet(s, step, cfg);
    }
  }
}
