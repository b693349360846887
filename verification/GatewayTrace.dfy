/** What a gateway session's history must look like, and what such a history guarantees. */
module GatewayTrace {
  import opened Basics

  datatype Outcome = Confirmed | Failed(reason: string)

  /** A line on the wire; a declaration remembers the socket whose challenge it answers. */
  datatype Frame = Identify | DeclareAddress(challengedOn: nat) | SendMessage(id: string)

  /** Calls to the core, lines handed to a socket, and the turns of a session. */
  datatype Event =
    | Begin(id: string)
    | Wrote(socket: nat, frame: Frame)
    | Report(id: string, outcome: Outcome)
    | Echoed(generation: nat, declared: string, local: string)
    | Retired(generation: nat)
    | Announced(generation: nat)
    | Withdrawn
    | Scheduled(delay: real)

  type Trace = seq<Event>

  // -- one message id -----------------------------------------------------------------------------

  datatype Phase = Idle | Begun | Sent | Broken {
    predicate InFlight()
    {
      Begun? || Sent?
    }
  }

  /** A frame is begun, written at most once, and reported once; then it may begin again. */
  function PhaseAfter(p: Phase, e: Event, id: string): Phase
  {
    if e == Begin(id) then (if p.Idle? then Begun else Broken)
    else if e.Wrote? && e.frame == SendMessage(id) then (if p.Begun? then Sent else Broken)
    else if e.Report? && e.id == id then (if p.InFlight() then Idle else Broken)
    else p
  }

  function PhaseOf(trace: Trace, id: string): Phase
  {
    if trace == [] then Idle
    else PhaseAfter(PhaseOf(trace[..|trace| - 1], id), trace[|trace| - 1], id)
  }

  lemma PhaseSnoc(trace: Trace, e: Event, id: string)
    ensures PhaseOf(trace + [e], id) == PhaseAfter(PhaseOf(trace, id), e, id)
  {
    assert (trace + [e])[..|trace|] == trace;
  }

  /** A broken history stays broken. */
  lemma {:induction false} PhasePrefix(trace: Trace, n: nat, id: string)
    requires n <= |trace| && PhaseOf(trace, id) != Broken
    ensures PhaseOf(trace[..n], id) != Broken
    decreases |trace|
  {
    if n < |trace| {
      var init := trace[..|trace| - 1];
      PhasePrefix(init, n, id);
      assert init[..n] == trace[..n];
    } else {
      assert trace[..n] == trace;
    }
  }

  function Begins(trace: Trace, id: string): nat
  {
    if trace == [] then 0
    else Begins(trace[..|trace| - 1], id) + (if trace[|trace| - 1] == Begin(id) then 1 else 0)
  }

  function Reports(trace: Trace, id: string): nat
  {
    if trace == [] then 0
    else
      var e := trace[|trace| - 1];
      Reports(trace[..|trace| - 1], id) + (if e.Report? && e.id == id then 1 else 0)
  }

  /** Every accepted id has had exactly one report per begin, or is still in flight. */
  lemma {:induction false} OneReportPerBegin(trace: Trace, id: string)
    requires PhaseOf(trace, id) != Broken
    ensures Begins(trace, id) == Reports(trace, id) + (if PhaseOf(trace, id).InFlight() then 1 else 0)
  {
    if trace != [] {
      OneReportPerBegin(trace[..|trace| - 1], id);
    }
  }

  predicate IsReport(e: Event, id: string)
  {
    e.Report? && e.id == id
  }

  predicate IsLine(e: Event, id: string)
  {
    e.Wrote? && e.frame == SendMessage(id)
  }

  /** In flight without a report in between means in flight all along. */
  lemma {:induction false} UnreportedStays(trace: Trace, i: nat, j: nat, id: string)
    requires i <= j <= |trace| && PhaseOf(trace, id) != Broken
    requires PhaseOf(trace[..i], id) == Sent
    requires forall k :: i <= k < j ==> !IsReport(trace[k], id)
    ensures PhaseOf(trace[..j], id) == Sent
    decreases j
  {
    if i < j {
      UnreportedStays(trace, i, j - 1, id);
      PhasePrefix(trace, j, id);
      assert trace[..j] == trace[..j - 1] + [trace[j - 1]];
      PhaseSnoc(trace[..j - 1], trace[j - 1], id);
    }
  }

  lemma LineMoves(before: Trace, e: Event, id: string)
    requires PhaseOf(before + [e], id) != Broken && IsLine(e, id)
    ensures PhaseOf(before, id) == Begun && PhaseOf(before + [e], id) == Sent
  {
    PhaseSnoc(before, e, id);
  }

  lemma LinesMove(trace: Trace, i: nat, id: string)
    requires PhaseOf(trace, id) != Broken && i < |trace| && IsLine(trace[i], id)
    ensures PhaseOf(trace[..i], id) == Begun && PhaseOf(trace[..i + 1], id) == Sent
  {
    PhasePrefix(trace, i + 1, id);
    var before, e := trace[..i], trace[i];
    assert trace[..i + 1] == before + [e];
    LineMoves(before, e, id);
  }

  /** Between two lines that carry one id there is a report that settles it: it is never forwarded twice. */
  lemma OneLinePerBegin(trace: Trace, i: nat, j: nat, id: string)
    requires PhaseOf(trace, id) != Broken && i < j < |trace| && IsLine(trace[i], id) && IsLine(trace[j], id)
    ensures exists k :: i < k < j && IsReport(trace[k], id)
  {
    LinesMove(trace, i, id);
    LinesMove(trace, j, id);
    if forall k :: i < k < j ==> !IsReport(trace[k], id) {
      UnreportedStays(trace, i + 1, j, id);
    }
  }

  // -- announcements ----------------------------------------------------------------------------------

  /** The session the gateway has bound to our address, if it has not been retired since. */
  function BoundTo(trace: Trace): Option<nat>
  {
    if trace == [] then None
    else
      match trace[|trace| - 1]
      case Echoed(g, _, _) => Some(g)
      case Retired(_) => None
      case _ => BoundTo(trace[..|trace| - 1])
  }

  /** The carrier is only ever announced for the session that is bound. */
  predicate AnnouncesBound(trace: Trace)
  {
    trace == [] ||
    (AnnouncesBound(trace[..|trace| - 1]) &&
     (trace[|trace| - 1].Announced? ==> BoundTo(trace[..|trace| - 1]) == Some(trace[|trace| - 1].generation)))
  }

  lemma {:induction false} BoundByEcho(trace: Trace) returns (i: nat)
    requires BoundTo(trace).Some?
    ensures i < |trace| && trace[i].Echoed? && trace[i].generation == BoundTo(trace).value
    ensures forall k :: i < k < |trace| ==> !trace[k].Retired?
    decreases |trace|
  {
    var n := |trace| - 1;
    if trace[n].Echoed? {
      i := n;
    } else {
      i := BoundByEcho(trace[..n]);
    }
  }

  lemma {:induction false} AnnouncesPrefix(trace: Trace, n: nat)
    requires n <= |trace| && AnnouncesBound(trace)
    ensures AnnouncesBound(trace[..n])
    decreases |trace|
  {
    if n < |trace| {
      var init := trace[..|trace| - 1];
      AnnouncesPrefix(init, n);
      assert init[..n] == trace[..n];
    } else {
      assert trace[..n] == trace;
    }
  }

  /** Every announcement follows our own address echoed on that same session, with no retirement in between. */
  lemma AnnouncedAfterEcho(trace: Trace, j: nat) returns (i: nat)
    requires AnnouncesBound(trace) && j < |trace| && trace[j].Announced?
    ensures i < j && trace[i].Echoed? && trace[i].generation == trace[j].generation
    ensures forall k :: i < k < j ==> !trace[k].Retired?
  {
    AnnouncesPrefix(trace, j + 1);
    var upTo := trace[..j + 1];
    assert upTo[..j] == trace[..j];
    i := BoundByEcho(trace[..j]);
  }

  // -- the reconnect ladder ------------------------------------------------------------------------------

  /** Reconnects scheduled since the last announcement. */
  function Attempts(trace: Trace): nat
  {
    if trace == [] then 0
    else
      match trace[|trace| - 1]
      case Scheduled(_) => Attempts(trace[..|trace| - 1]) + 1
      case Announced(_) => 0
      case _ => Attempts(trace[..|trace| - 1])
  }

  function Pow2(n: nat): real
  {
    if n == 0 then 1.0 else 2.0 * Pow2(n - 1)
  }

  /** The delay before the attempt that follows `n` others: doubled each time, to a ceiling. */
  function Rung(n: nat): real
  {
    if Pow2(n) < 30.0 then Pow2(n) else 30.0
  }

  /** Every reconnect waits out its rung, and with a limit there are never more than that many in a row. */
  predicate OnLadder(trace: Trace, limit: nat)
  {
    trace == [] ||
    (OnLadder(trace[..|trace| - 1], limit) &&
     (trace[|trace| - 1].Scheduled? ==>
        && trace[|trace| - 1].delay == Rung(Attempts(trace[..|trace| - 1]))
        && (limit > 0 ==> Attempts(trace[..|trace| - 1]) < limit)))
  }

  /** Doubling a rung and capping it is the next rung. */
  lemma NextRung(n: nat)
    ensures Rung(n + 1) == if Rung(n) * 2.0 < 30.0 then Rung(n) * 2.0 else 30.0
  {
    Pow2Positive(n);
  }

  lemma {:induction false} Pow2Positive(n: nat)
    ensures Pow2(n) >= 1.0
  {
    if n > 0 {
      Pow2Positive(n - 1);
    }
  }

  function Schedules(trace: Trace): nat
  {
    if trace == [] then 0
    else Schedules(trace[..|trace| - 1]) + (if trace[|trace| - 1].Scheduled? then 1 else 0)
  }

  lemma {:induction false} AttemptsSince(trace: Trace, n: nat)
    requires n <= |trace| && forall k :: n <= k < |trace| ==> !trace[k].Announced?
    ensures Attempts(trace) == Attempts(trace[..n]) + Schedules(trace[n..])
    decreases |trace|
  {
    if n == |trace| {
      assert trace[..n] == trace && trace[n..] == [];
    } else {
      var init := trace[..|trace| - 1];
      AttemptsSince(init, n);
      assert init[..n] == trace[..n];
      assert trace[n..][..|trace| - n - 1] == init[n..];
    }
  }

  lemma {:induction false} AttemptsBounded(trace: Trace, limit: nat)
    requires OnLadder(trace, limit) && limit > 0
    ensures Attempts(trace) <= limit
  {
    if trace != [] {
      AttemptsBounded(trace[..|trace| - 1], limit);
    }
  }

  lemma {:induction false} LadderPrefix(trace: Trace, n: nat, limit: nat)
    requires n <= |trace| && OnLadder(trace, limit)
    ensures OnLadder(trace[..n], limit)
    decreases |trace|
  {
    if n < |trace| {
      var init := trace[..|trace| - 1];
      LadderPrefix(init, n, limit);
      assert init[..n] == trace[..n];
    } else {
      assert trace[..n] == trace;
    }
  }

  /** With a positive limit, at most that many reconnects are scheduled in any stretch without an announcement. */
  lemma BoundedReconnects(trace: Trace, i: nat, j: nat, limit: nat)
    requires OnLadder(trace, limit) && limit > 0 && i <= j <= |trace|
    requires forall k :: i <= k < j ==> !trace[k].Announced?
    ensures Schedules(trace[i..j]) <= limit
  {
    LadderPrefix(trace, j, limit);
    var upTo := trace[..j];
    AttemptsSince(upTo, i);
    AttemptsBounded(upTo, limit);
    assert upTo[i..] == trace[i..j];
  }

  // -- sessions ------------------------------------------------------------------------------------------

  predicate RetiredBelow(trace: Trace, generation: nat)
  {
    forall i :: 0 <= i < |trace| && trace[i].Retired? ==> trace[i].generation < generation
  }

  /** The session an event acts for, when it acts for one. */
  function ActsFor(e: Event): Option<nat>
  {
    match e
    case Wrote(socket, _) => Some(socket)
    case Echoed(g, _, _) => Some(g)
    case Announced(g) => Some(g)
    case _ => None
  }

  /** A declaration goes to the socket that challenged, and an echo counts when it is of our own address. */
  predicate Rightful(e: Event)
  {
    match e
    case Wrote(socket, DeclareAddress(challengedOn)) => challengedOn == socket
    case Echoed(_, declared, local) => declared == local && declared != ""
    case _ => true
  }

  /** Nothing acts for a retired session, and nothing but rightfully. */
  predicate AtHome(trace: Trace)
  {
    trace == [] ||
    (AtHome(trace[..|trace| - 1]) && Rightful(trace[|trace| - 1]) &&
     (ActsFor(trace[|trace| - 1]).Some? ==> RetiredBelow(trace[..|trace| - 1], ActsFor(trace[|trace| - 1]).value)))
  }

  lemma {:induction false} AtHomeAt(trace: Trace, j: nat)
    requires AtHome(trace) && j < |trace|
    ensures Rightful(trace[j])
    ensures ActsFor(trace[j]).Some? ==> RetiredBelow(trace[..j], ActsFor(trace[j]).value)
    decreases |trace|
  {
    if j < |trace| - 1 {
      var init := trace[..|trace| - 1];
      AtHomeAt(init, j);
      assert init[..j] == trace[..j];
    }
  }

  // -- histories the manager keeps -----------------------------------------------------------------------

  /** The ids that are in flight are exactly those the history has begun and not yet reported. */
  ghost predicate Ledger(trace: Trace, ids: seq<string>)
  {
    forall id :: PhaseOf(trace, id) != Broken && (PhaseOf(trace, id).InFlight() <==> id in ids)
  }

  ghost predicate History(trace: Trace, limit: nat, bound: Option<nat>, attempts: nat, generation: nat)
  {
    && AnnouncesBound(trace) && OnLadder(trace, limit) && AtHome(trace)
    && BoundTo(trace) == bound && Attempts(trace) == attempts && RetiredBelow(trace, generation)
  }

  function Kept(ids: seq<string>, gone: set<string>): seq<string>
  {
    if ids == [] then []
    else (if ids[0] in gone then [] else [ids[0]]) + Kept(ids[1..], gone)
  }

  lemma {:induction false} KeptExactly(ids: seq<string>, gone: set<string>)
    ensures forall id :: id in Kept(ids, gone) <==> id in ids && id !in gone
    ensures |Kept(ids, gone)| <= |ids|
    ensures NoDuplicates(ids) ==> NoDuplicates(Kept(ids, gone))
  {
    if ids != [] {
      KeptExactly(ids[1..], gone);
      assert ids == [ids[0]] + ids[1..];
    }
  }

  lemma {:induction false} KeptTwice(ids: seq<string>, a: set<string>, b: set<string>)
    ensures Kept(Kept(ids, a), b) == Kept(ids, a + b)
  {
    if ids != [] {
      KeptTwice(ids[1..], a, b);
      var rest := Kept(ids[1..], a);
      if ids[0] !in a {
        assert ([ids[0]] + rest)[1..] == rest;
      } else {
        assert [] + rest == rest;
      }
    }
  }

  lemma {:induction false} KeptAll(ids: seq<string>)
    ensures Kept(ids, {}) == ids
  {
    if ids != [] {
      KeptAll(ids[1..]);
    }
  }

  lemma {:induction false} KeptNone(ids: seq<string>, gone: set<string>)
    requires forall id :: id in ids ==> id in gone
    ensures Kept(ids, gone) == []
  {
    if ids != [] {
      KeptNone(ids[1..], gone);
    }
  }

  function Failures(ids: seq<string>, reason: string): Trace
  {
    seq(|ids|, i requires 0 <= i < |ids| => Report(ids[i], Failed(reason)))
  }

  function Elements(ids: seq<string>): set<string>
  {
    set id | id in ids
  }

  // -- what one more event does to a history -------------------------------------------------------------

  lemma LedgerBegin(trace: Trace, ids: seq<string>, id: string)
    requires Ledger(trace, ids) && id !in ids
    ensures Ledger(trace + [Begin(id)], ids + [id]) && PhaseOf(trace + [Begin(id)], id) == Begun
  {
    forall other
      ensures PhaseOf(trace + [Begin(id)], other) == PhaseAfter(PhaseOf(trace, other), Begin(id), other)
    {
      PhaseSnoc(trace, Begin(id), other);
    }
  }

  lemma LedgerReport(trace: Trace, ids: seq<string>, id: string, outcome: Outcome)
    requires Ledger(trace, ids) && id in ids
    ensures Ledger(trace + [Report(id, outcome)], Kept(ids, {id}))
  {
    KeptExactly(ids, {id});
    forall other
      ensures PhaseOf(trace + [Report(id, outcome)], other) ==
                PhaseAfter(PhaseOf(trace, other), Report(id, outcome), other)
    {
      PhaseSnoc(trace, Report(id, outcome), other);
    }
  }

  /** A line that carries an id is written only right after that id began. */
  lemma LedgerOther(trace: Trace, ids: seq<string>, e: Event)
    requires Ledger(trace, ids) && !e.Begin? && !e.Report?
    requires e.Wrote? && e.frame.SendMessage? ==> PhaseOf(trace, e.frame.id) == Begun
    ensures Ledger(trace + [e], ids)
  {
    forall other
      ensures PhaseOf(trace + [e], other) == PhaseAfter(PhaseOf(trace, other), e, other)
    {
      PhaseSnoc(trace, e, other);
    }
  }

  lemma FailuresSnoc(trace: Trace, gone: seq<string>, last: string, reason: string)
    ensures trace + Failures(gone + [last], reason) == trace + Failures(gone, reason) + [Report(last, Failed(reason))]
  {
  }

  lemma KeptSnoc(ids: seq<string>, gone: seq<string>, last: string)
    ensures Kept(ids, Elements(gone + [last])) == Kept(Kept(ids, Elements(gone)), {last})
  {
    KeptTwice(ids, Elements(gone), {last});
    assert Elements(gone + [last]) == Elements(gone) + {last};
  }

  lemma {:induction false} LedgerFailures(trace: Trace, ids: seq<string>, gone: seq<string>, reason: string)
    requires Ledger(trace, ids) && NoDuplicates(gone) && forall id :: id in gone ==> id in ids
    ensures Ledger(trace + Failures(gone, reason), Kept(ids, Elements(gone)))
    decreases |gone|
  {
    if gone == [] {
      KeptAll(ids);
      assert Elements(gone) == {};
      assert trace + Failures(gone, reason) == trace;
    } else {
      var init, last := gone[..|gone| - 1], gone[|gone| - 1];
      LedgerFailures(trace, ids, init, reason);
      assert last in Kept(ids, Elements(init)) by {
        KeptExactly(ids, Elements(init));
      }
      LedgerReport(trace + Failures(init, reason), Kept(ids, Elements(init)), last, Failed(reason));
      FailuresSnoc(trace, init, last, reason);
      KeptSnoc(ids, init, last);
      assert gone == init + [last];
    }
  }

  /** How the bind and the attempts move when one more event happens. */
  function BoundAfter(bound: Option<nat>, e: Event): Option<nat>
  {
    match e
    case Echoed(g, _, _) => Some(g)
    case Retired(_) => None
    case _ => bound
  }

  function AttemptsAfter(attempts: nat, e: Event): nat
  {
    match e
    case Scheduled(_) => attempts + 1
    case Announced(_) => 0
    case _ => attempts
  }

  /** What an event must respect to extend a history. */
  predicate Allowed(e: Event, limit: nat, bound: Option<nat>, attempts: nat, generation: nat)
  {
    match e
    case Wrote(socket, _) => socket == generation && Rightful(e)
    case Echoed(g, _, _) => g == generation && Rightful(e)
    case Announced(g) => g == generation && bound == Some(g)
    case Retired(g) => g < generation
    case Scheduled(delay) => delay == Rung(attempts) && (limit > 0 ==> attempts < limit)
    case _ => true
  }

  lemma HistorySnoc(trace: Trace, e: Event, limit: nat, bound: Option<nat>, attempts: nat, generation: nat)
    requires History(trace, limit, bound, attempts, generation) && Allowed(e, limit, bound, attempts, generation)
    ensures History(trace + [e], limit, BoundAfter(bound, e), AttemptsAfter(attempts, e), generation)
  {
    var more := trace + [e];
    assert more[..|more| - 1] == trace && more[|more| - 1] == e;
  }

  lemma {:induction false} HistoryFailures(
    trace: Trace, gone: seq<string>, reason: string,
    limit: nat, bound: Option<nat>, attempts: nat, generation: nat)
    requires History(trace, limit, bound, attempts, generation)
    ensures History(trace + Failures(gone, reason), limit, bound, attempts, generation)
    decreases |gone|
  {
    if gone == [] {
      assert trace + Failures(gone, reason) == trace;
    } else {
      var init, last := gone[..|gone| - 1], gone[|gone| - 1];
      HistoryFailures(trace, init, reason, limit, bound, attempts, generation);
      HistorySnoc(trace + Failures(init, reason), Report(last, Failed(reason)), limit, bound, attempts, generation);
      FailuresSnoc(trace, init, last, reason);
      assert gone == init + [last];
    }
  }
}
