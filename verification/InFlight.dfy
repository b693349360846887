/** Wire-level in-flight ids per recipient: lazy expiry that no result can tell from eager expiry. */
module InFlight {
  import opened Basics

  datatype Entry = Entry(id: string, at: int)

  type Queue = seq<Entry>

  // -- queues --------------------------------------------------------------------------

  predicate IsLive(e: Entry, now: int, ttl: nat)
  {
    now - e.at <= ttl
  }

  /** The entries that have not expired. */
  function Live(q: Queue, now: int, ttl: nat): Queue
  {
    if q == [] then []
    else if IsLive(q[0], now, ttl) then [q[0]] + Live(q[1..], now, ttl)
    else Live(q[1..], now, ttl)
  }

  /** Expired entries dropped from the front only, up to the first live one. */
  function PopExpired(q: Queue, now: int, ttl: nat): Queue
  {
    if q != [] && !IsLive(q[0], now, ttl) then PopExpired(q[1..], now, ttl) else q
  }

  function KeepLast(q: Queue, max: nat): Queue
  {
    if |q| <= max then q else q[|q| - max..]
  }

  function WithoutId(q: Queue, id: string): Queue
  {
    if q == [] then []
    else if q[0].id == id then WithoutId(q[1..], id)
    else [q[0]] + WithoutId(q[1..], id)
  }

  /** Every entry under `id` when there is one, else the oldest entry. */
  function WithoutIdOrOldest(q: Queue, id: string): Queue
  {
    if id != "" && |WithoutId(q, id)| != |q| then WithoutId(q, id)
    else if q == [] then []
    else q[1..]
  }

  /** The last entry under `id` removed. */
  function WithoutNewest(q: Queue, id: string): Queue
    decreases |q|
  {
    if q == [] then []
    else if q[|q| - 1].id == id then q[..|q| - 1]
    else WithoutNewest(q[..|q| - 1], id) + [q[|q| - 1]]
  }

  function Ids(q: Queue): seq<string>
  {
    if q == [] then [] else [q[0].id] + Ids(q[1..])
  }

  // -- operations on one recipient's queue --------------------------------------------------

  datatype Op = RecordSent(id: string, now: int) | RelayAccepted(id: string, now: int)
              | Unrecord(id: string) | Drain(now: int) | Prune(now: int) | Clear

  /** What an operation leaves and what it answers. */
  datatype Answer = Answer(queue: Queue, ids: seq<string>)

  /** What the tracker does: expired entries may linger, and count against the cap, until something pops them. */
  function Lazy(q: Queue, op: Op, ttl: nat, max: nat): Answer
  {
    match op
    case RecordSent(id, now) => Answer(if id == "" then q else KeepLast(q + [Entry(id, now)], max), [])
    case RelayAccepted(id, now) => Answer(WithoutIdOrOldest(PopExpired(q, now, ttl), id), [])
    case Unrecord(id) => Answer(if id == "" then q else WithoutNewest(q, id), [])
    case Drain(now) => Answer([], Ids(Live(q, now, ttl)))
    case Prune(now) => Answer(PopExpired(q, now, ttl), [])
    case Clear => Answer([], [])
  }

  /** The simple tracker: every operation acts on the live entries alone, and pruning is nothing. */
  function Eager(q: Queue, op: Op, ttl: nat, max: nat): Answer
  {
    match op
    case RecordSent(id, now) => Answer(if id == "" then q else KeepLast(Live(q, now, ttl) + [Entry(id, now)], max), [])
    case RelayAccepted(id, now) => Answer(WithoutIdOrOldest(Live(q, now, ttl), id), [])
    case Unrecord(id) => Answer(if id == "" then q else WithoutNewest(q, id), [])
    case Drain(now) => Answer([], Ids(Live(q, now, ttl)))
    case Prune(now) => Answer(q, [])
    case Clear => Answer([], [])
  }

  /** The clock after an operation. */
  function Clock(clock: int, op: Op): int
  {
    if op.Unrecord? || op.Clear? then clock else op.now
  }

  // -- the lazy queue refines the eager one ----------------------------------------------------

  predicate InOrder(q: Queue, clock: int)
  {
    && (forall i :: 0 <= i < |q| ==> q[i].at <= clock)
    && (forall i, j :: 0 <= i < j < |q| ==> q[i].at <= q[j].at)
  }

  /** Recorded in order, and the same live entries now. */
  ghost predicate Coupled(lazy: Queue, eager: Queue, clock: int, ttl: nat)
  {
    InOrder(lazy, clock) && InOrder(eager, clock) && Live(lazy, clock, ttl) == Live(eager, clock, ttl)
  }

  lemma {:induction false} LiveAppend(a: Queue, b: Queue, now: int, ttl: nat)
    ensures Live(a + b, now, ttl) == Live(a, now, ttl) + Live(b, now, ttl)
  {
    if a == [] {
      assert a + b == b;
    } else {
      LiveAppend(a[1..], b, now, ttl);
      assert (a + b)[0] == a[0] && (a + b)[1..] == a[1..] + b;
    }
  }

  lemma LiveOne(e: Entry, now: int, ttl: nat)
    ensures Live([e], now, ttl) == if IsLive(e, now, ttl) then [e] else []
  {
    assert [e][1..] == [];
  }

  /** What has expired stays expired. */
  lemma {:induction false} LiveLater(q: Queue, now: int, later: int, ttl: nat)
    requires now <= later
    ensures Live(Live(q, now, ttl), later, ttl) == Live(q, later, ttl)
  {
    if q != [] {
      LiveLater(q[1..], now, later, ttl);
      var rest := Live(q[1..], now, ttl);
      assert ([q[0]] + rest)[1..] == rest;
    }
  }

  lemma {:induction false} AllLive(q: Queue, now: int, ttl: nat)
    requires forall i :: 0 <= i < |q| ==> IsLive(q[i], now, ttl)
    ensures Live(q, now, ttl) == q
  {
    if q != [] {
      AllLive(q[1..], now, ttl);
      assert q == [q[0]] + q[1..];
    }
  }

  lemma {:induction false} NoneLive(q: Queue, now: int, ttl: nat)
    requires forall i :: 0 <= i < |q| ==> !IsLive(q[i], now, ttl)
    ensures Live(q, now, ttl) == []
  {
    if q != [] {
      NoneLive(q[1..], now, ttl);
    }
  }

  /** In recording order the live entries are what popping from the front leaves. */
  lemma {:induction false} PopExpiredIsLive(q: Queue, clock: int, now: int, ttl: nat)
    requires InOrder(q, clock)
    ensures PopExpired(q, now, ttl) == Live(q, now, ttl)
  {
    if q != [] {
      if IsLive(q[0], now, ttl) {
        AllLive(q, now, ttl);
      } else {
        PopExpiredIsLive(q[1..], clock, now, ttl);
      }
    }
  }

  /** In recording order the live entries are a suffix. */
  lemma {:induction false} LiveIsSuffix(q: Queue, clock: int, now: int, ttl: nat)
    requires InOrder(q, clock)
    ensures |Live(q, now, ttl)| <= |q| && Live(q, now, ttl) == q[|q| - |Live(q, now, ttl)|..]
  {
    if q != [] {
      if IsLive(q[0], now, ttl) {
        AllLive(q, now, ttl);
      } else {
        LiveIsSuffix(q[1..], clock, now, ttl);
      }
    }
  }

  /** Capping with expired entries still in the queue caps the live ones alike. */
  lemma LiveKeepLast(q: Queue, clock: int, now: int, ttl: nat, max: nat)
    requires InOrder(q, clock)
    ensures Live(KeepLast(q, max), now, ttl) == KeepLast(Live(q, now, ttl), max)
  {
    if |q| > max {
      LiveSplit(q, clock, now, ttl, |q| - max);
    } else {
      LiveIsSuffix(q, clock, now, ttl);
    }
  }

  lemma LiveSplit(q: Queue, clock: int, now: int, ttl: nat, k: nat)
    requires InOrder(q, clock) && k <= |q|
    ensures Live(q[k..], now, ttl) == KeepLast(Live(q, now, ttl), |q| - k)
  {
    var a, b := q[..k], q[k..];
    assert q == a + b;
    LiveAppend(a, b, now, ttl);
    var la, lb := Live(a, now, ttl), Live(b, now, ttl);
    LiveIsSuffix(b, clock, now, ttl);
    if la == [] {
      assert la + lb == lb;
    } else {
      LiveIsSuffix(a, clock, now, ttl);
      assert IsLive(la[0], now, ttl) by { LiveAreLive(a, now, ttl); }
      assert la[0] == a[k - |la|];
      forall i | 0 <= i < |b| ensures IsLive(b[i], now, ttl) {
        assert b[i] == q[k + i] && la[0] == q[k - |la|];
      }
      AllLive(b, now, ttl);
      assert (la + lb)[|la|..] == lb;
    }
  }

  lemma {:induction false} LiveAreLive(q: Queue, now: int, ttl: nat)
    ensures forall i :: 0 <= i < |Live(q, now, ttl)| ==> IsLive(Live(q, now, ttl)[i], now, ttl)
  {
    if q != [] {
      LiveAreLive(q[1..], now, ttl);
    }
  }

  /** Removing the newest match and expiring commute. */
  lemma {:induction false} LiveWithoutNewest(q: Queue, id: string, clock: int, now: int, ttl: nat)
    requires InOrder(q, clock)
    ensures Live(WithoutNewest(q, id), now, ttl) == WithoutNewest(Live(q, now, ttl), id)
    decreases |q|
  {
    if q != [] {
      var init, last := q[..|q| - 1], q[|q| - 1];
      assert q == init + [last];
      LiveAppend(init, [last], now, ttl);
      LiveOne(last, now, ttl);
      if !IsLive(last, now, ttl) {
        NoneLive(q, now, ttl);
        NoneLiveWithout(q, id, now, ttl);
      } else if last.id == id {
        assert (Live(init, now, ttl) + [last])[..|Live(init, now, ttl)|] == Live(init, now, ttl);
      } else {
        LiveWithoutNewest(init, id, clock, now, ttl);
        LiveAppend(WithoutNewest(init, id), [last], now, ttl);
        assert (Live(init, now, ttl) + [last])[..|Live(init, now, ttl)|] == Live(init, now, ttl);
      }
    }
  }

  lemma {:induction false} NoneLiveWithout(q: Queue, id: string, now: int, ttl: nat)
    requires forall i :: 0 <= i < |q| ==> !IsLive(q[i], now, ttl)
    ensures Live(WithoutNewest(q, id), now, ttl) == []
    decreases |q|
  {
    if q != [] {
      var init, last := q[..|q| - 1], q[|q| - 1];
      if last.id == id {
        NoneLive(init, now, ttl);
      } else {
        NoneLiveWithout(init, id, now, ttl);
        LiveAppend(WithoutNewest(init, id), [last], now, ttl);
        LiveOne(last, now, ttl);
      }
    }
  }

  // -- recording order is kept -------------------------------------------------------------------

  /** Recorded in order between two times. */
  predicate Between(q: Queue, from: int, to: int)
  {
    InOrder(q, to) && forall i :: 0 <= i < |q| ==> from <= q[i].at
  }

  lemma {:induction false} WithoutIdInOrder(q: Queue, id: string, from: int, to: int)
    requires Between(q, from, to)
    ensures Between(WithoutId(q, id), from, to)
  {
    if q != [] {
      WithoutIdInOrder(q[1..], id, q[0].at, to);
    }
  }

  lemma {:induction false} WithoutNewestInOrder(q: Queue, id: string, clock: int)
    requires InOrder(q, clock)
    ensures InOrder(WithoutNewest(q, id), clock)
    decreases |q|
  {
    if q != [] {
      WithoutNewestInOrder(q[..|q| - 1], id, q[|q| - 1].at);
    }
  }

  lemma WithoutIdOrOldestInOrder(q: Queue, id: string, clock: int)
    requires InOrder(q, clock)
    ensures InOrder(WithoutIdOrOldest(q, id), clock)
  {
    if q != [] {
      WithoutIdInOrder(q, id, q[0].at, clock);
    }
  }

  lemma LiveInOrder(q: Queue, clock: int, now: int, ttl: nat)
    requires InOrder(q, clock)
    ensures InOrder(Live(q, now, ttl), clock)
  {
    LiveIsSuffix(q, clock, now, ttl);
  }

  // -- the simulation --------------------------------------------------------------------------

  lemma CoupledLater(lazy: Queue, eager: Queue, clock: int, now: int, ttl: nat)
    requires Coupled(lazy, eager, clock, ttl) && clock <= now
    ensures Coupled(lazy, eager, now, ttl)
  {
    LiveLater(lazy, clock, now, ttl);
    LiveLater(eager, clock, now, ttl);
  }

  /** Live entries are the same queue for every purpose. */
  lemma CoupledToLive(lazy: Queue, eager: Queue, now: int, ttl: nat)
    requires Coupled(lazy, eager, now, ttl)
    ensures PopExpired(lazy, now, ttl) == Live(eager, now, ttl) && InOrder(Live(eager, now, ttl), now)
  {
    PopExpiredIsLive(lazy, now, now, ttl);
    LiveInOrder(eager, now, now, ttl);
  }

  lemma LiveAfterRecord(q: Queue, e: Entry, ttl: nat, max: nat)
    requires InOrder(q, e.at)
    ensures InOrder(KeepLast(q + [e], max), e.at)
    ensures Live(KeepLast(q + [e], max), e.at, ttl) == KeepLast(Live(q, e.at, ttl) + [e], max)
  {
    LiveKeepLast(q + [e], e.at, e.at, ttl, max);
    LiveAppend(q, [e], e.at, ttl);
    LiveOne(e, e.at, ttl);
  }

  lemma RecordCoupled(lazy: Queue, eager: Queue, id: string, now: int, ttl: nat, max: nat)
    requires Coupled(lazy, eager, now, ttl)
    ensures Coupled(KeepLast(lazy + [Entry(id, now)], max),
                    KeepLast(Live(eager, now, ttl) + [Entry(id, now)], max), now, ttl)
  {
    var live := Live(eager, now, ttl);
    LiveInOrder(eager, now, now, ttl);
    LiveLater(eager, now, now, ttl);
    LiveAfterRecord(lazy, Entry(id, now), ttl, max);
    LiveAfterRecord(live, Entry(id, now), ttl, max);
  }

  /** One operation at a clock that does not run backwards: the same answer, and still coupled. */
  lemma StepCoupled(lazy: Queue, eager: Queue, clock: int, op: Op, ttl: nat, max: nat)
    requires Coupled(lazy, eager, clock, ttl) && clock <= Clock(clock, op)
    ensures Lazy(lazy, op, ttl, max).ids == Eager(eager, op, ttl, max).ids
    ensures Coupled(Lazy(lazy, op, ttl, max).queue, Eager(eager, op, ttl, max).queue, Clock(clock, op), ttl)
  {
    var now := Clock(clock, op);
    CoupledLater(lazy, eager, clock, now, ttl);
    match op
    case RecordSent(id, _) =>
      RecordCoupled(lazy, eager, id, now, ttl, max);
    case RelayAccepted(id, _) =>
      CoupledToLive(lazy, eager, now, ttl);
      WithoutIdOrOldestInOrder(Live(eager, now, ttl), id, now);
    case Unrecord(id) =>
      LiveWithoutNewest(lazy, id, now, now, ttl);
      LiveWithoutNewest(eager, id, now, now, ttl);
      WithoutNewestInOrder(lazy, id, now);
      WithoutNewestInOrder(eager, id, now);
    case Drain(_) =>
    case Prune(_) =>
      PopExpiredIsLive(lazy, now, now, ttl);
      LiveInOrder(lazy, now, now, ttl);
      LiveLater(lazy, now, now, ttl);
    case Clear =>
  }

  // -- what each operation does, entry by entry -----------------------------------------------

  /** How many entries are under another id. */
  function Others(q: Queue, id: string): nat
    decreases |q|
  {
    if q == [] then 0 else Others(q[..|q| - 1], id) + (if q[|q| - 1].id == id then 0 else 1)
  }

  lemma {:induction false} WithoutIdSnoc(q: Queue, e: Entry, id: string)
    ensures WithoutId(q + [e], id) == WithoutId(q, id) + (if e.id == id then [] else [e])
  {
    var all := q + [e];
    if q == [] {
      assert all == [e] && all[1..] == [];
    } else {
      var tail := q[1..];
      assert all[0] == q[0] && all[1..] == tail + [e];
      WithoutIdSnoc(tail, e, id);
      var kept, last := WithoutId(tail, id), if e.id == id then [] else [e];
      assert [q[0]] + (kept + last) == ([q[0]] + kept) + last;
    }
  }

  /** Exactly the entries under other ids remain, each preceded by those that preceded it. */
  lemma {:induction false} OthersRemain(q: Queue, id: string)
    ensures |WithoutId(q, id)| == Others(q, id) <= |q|
    ensures forall i :: 0 <= i < |q| && q[i].id != id ==>
              Others(q[..i], id) < Others(q, id) && WithoutId(q, id)[Others(q[..i], id)] == q[i]
    ensures Others(q, id) == |q| <==> forall i :: 0 <= i < |q| ==> q[i].id != id
    decreases |q|
  {
    if q != [] {
      var init, last := q[..|q| - 1], q[|q| - 1];
      assert q == init + [last];
      OthersRemain(init, id);
      WithoutIdSnoc(init, last, id);
      forall i | 0 <= i < |q| && q[i].id != id
        ensures Others(q[..i], id) < Others(q, id) && WithoutId(q, id)[Others(q[..i], id)] == q[i]
      {
        if i < |init| {
          assert q[..i] == init[..i] && q[i] == init[i];
        } else {
          assert q[..i] == init;
        }
      }
    }
  }

  /** An acceptance that names no live entry settles the oldest one and leaves the rest in order. */
  lemma AcceptedByAge(q: Queue, clock: int, id: string, now: int, ttl: nat, max: nat)
    requires InOrder(q, clock)
    requires var live := Live(q, now, ttl); id == "" || forall i :: 0 <= i < |live| ==> live[i].id != id
    ensures var live, after := Live(q, now, ttl), Lazy(q, RelayAccepted(id, now), ttl, max).queue;
            if live == [] then after == [] else live == [live[0]] + after
  {
    PopExpiredIsLive(q, clock, now, ttl);
    OthersRemain(Live(q, now, ttl), id);
  }

  /** One that names a live entry settles every entry under that id, and no other. */
  lemma AcceptedById(q: Queue, clock: int, id: string, now: int, ttl: nat, max: nat, at: nat)
    requires InOrder(q, clock) && id != ""
    requires at < |Live(q, now, ttl)| && Live(q, now, ttl)[at].id == id
    ensures var live, after := Live(q, now, ttl), Lazy(q, RelayAccepted(id, now), ttl, max).queue;
            && |after| == Others(live, id)
            && forall i :: 0 <= i < |live| && live[i].id != id ==>
                 Others(live[..i], id) < |after| && after[Others(live[..i], id)] == live[i]
  {
    PopExpiredIsLive(q, clock, now, ttl);
    OthersRemain(Live(q, now, ttl), id);
  }

  lemma {:induction false} IdsInOrder(q: Queue)
    ensures |Ids(q)| == |q| && forall i :: 0 <= i < |q| ==> Ids(q)[i] == q[i].id
  {
    if q != [] {
      IdsInOrder(q[1..]);
    }
  }

  /** In recording order what expired is a prefix, and the rest is live. */
  lemma {:induction false} ExpiredFirst(q: Queue, clock: int, now: int, ttl: nat)
    requires InOrder(q, clock)
    ensures |Live(q, now, ttl)| <= |q|
    ensures forall i :: 0 <= i < |q| ==> (now - q[i].at <= ttl <==> |q| - |Live(q, now, ttl)| <= i)
  {
    if q != [] {
      if IsLive(q[0], now, ttl) {
        AllLive(q, now, ttl);
      } else {
        var rest := q[1..];
        ExpiredFirst(rest, clock, now, ttl);
        forall i | 0 < i < |q| ensures now - q[i].at <= ttl <==> |q| - |Live(q, now, ttl)| <= i {
          assert q[i] == rest[i - 1];
        }
      }
    }
  }

  /** A drain answers the ids of the entries no older than the limit, oldest first, and empties the queue. */
  lemma DrainAnswers(q: Queue, clock: int, now: int, ttl: nat, max: nat)
    requires InOrder(q, clock)
    ensures var r := Lazy(q, Drain(now), ttl, max);
            r.queue == [] && |r.ids| <= |q| &&
            forall i :: 0 <= i < |q| ==>
              var k := |q| - |r.ids|;
              if now - q[i].at <= ttl then k <= i && r.ids[i - k] == q[i].id else i < k
  {
    ExpiredFirst(q, clock, now, ttl);
    LiveIsSuffix(q, clock, now, ttl);
    IdsInOrder(Live(q, now, ttl));
  }

  // -- whole runs over all recipients ---------------------------------------------------------

  /** An operation for one recipient, except that pruning and clearing are for all of them. */
  datatype Call = Call(recipient: string, op: Op)

  type Queues = string -> Queue

  /** Nothing is ever recorded for the empty recipient. */
  predicate Touches(c: Call, r: string)
  {
    c.op.Prune? || c.op.Clear? || (r == c.recipient && (r != "" || c.op.Drain?))
  }

  function LazyCall(qs: Queues, c: Call, ttl: nat, max: nat): Queues
  {
    (r: string) => if Touches(c, r) then Lazy(qs(r), c.op, ttl, max).queue else qs(r)
  }

  function EagerCall(qs: Queues, c: Call, ttl: nat, max: nat): Queues
  {
    (r: string) => if Touches(c, r) then Eager(qs(r), c.op, ttl, max).queue else qs(r)
  }

  /** What a call answers: a drain its ids, any other nothing. */
  function LazyAnswer(qs: Queues, c: Call, ttl: nat, max: nat): seq<seq<string>>
  {
    if c.op.Drain? then [Lazy(qs(c.recipient), c.op, ttl, max).ids] else []
  }

  /** Every drain's answer, in order, from the tracker as it is. */
  function LazyAnswers(qs: Queues, calls: seq<Call>, ttl: nat, max: nat): seq<seq<string>>
    decreases |calls|
  {
    if calls == [] then []
    else LazyAnswer(qs, calls[0], ttl, max) + LazyAnswers(LazyCall(qs, calls[0], ttl, max), calls[1..], ttl, max)
  }

  lemma AnswersStep(done: seq<seq<string>>, qs: Queues, calls: seq<Call>, k: nat, ttl: nat, max: nat)
    requires k < |calls|
    ensures done + LazyAnswers(qs, calls[k..], ttl, max)
         == (done + LazyAnswer(qs, calls[k], ttl, max))
            + LazyAnswers(LazyCall(qs, calls[k], ttl, max), calls[k + 1..], ttl, max)
  {
    var rest := calls[k..];
    assert rest[0] == calls[k] && rest[1..] == calls[k + 1..];
    var one := LazyAnswer(qs, calls[k], ttl, max);
    var more := LazyAnswers(LazyCall(qs, calls[k], ttl, max), calls[k + 1..], ttl, max);
    assert done + (one + more) == (done + one) + more;
  }

  /** The same from the eager tracker, to which pruning is nothing. */
  function EagerAnswers(qs: Queues, calls: seq<Call>, ttl: nat, max: nat): seq<seq<string>>
    decreases |calls|
  {
    if calls == [] then []
    else
      (if calls[0].op.Drain? then [Eager(qs(calls[0].recipient), calls[0].op, ttl, max).ids] else [])
      + EagerAnswers(EagerCall(qs, calls[0], ttl, max), calls[1..], ttl, max)
  }

  /** Times on the calls never run backwards. */
  predicate Forwards(clock: int, calls: seq<Call>)
    decreases |calls|
  {
    calls == [] || (clock <= Clock(clock, calls[0].op) && Forwards(Clock(clock, calls[0].op), calls[1..]))
  }

  ghost predicate AllCoupled(lazy: Queues, eager: Queues, clock: int, ttl: nat)
  {
    forall r :: Coupled(lazy(r), eager(r), clock, ttl)
  }

  lemma CallCoupled(lazy: Queues, eager: Queues, clock: int, c: Call, ttl: nat, max: nat, r: string)
    requires Coupled(lazy(r), eager(r), clock, ttl) && clock <= Clock(clock, c.op)
    ensures Coupled(LazyCall(lazy, c, ttl, max)(r), EagerCall(eager, c, ttl, max)(r), Clock(clock, c.op), ttl)
  {
    StepCoupled(lazy(r), eager(r), clock, c.op, ttl, max);
    CoupledLater(lazy(r), eager(r), clock, Clock(clock, c.op), ttl);
  }

  /** In every run every answer is the eager tracker's, so pruning at any times, or never, changes none. */
  lemma {:induction false} RunsAgree(lazy: Queues, eager: Queues, clock: int, calls: seq<Call>, ttl: nat, max: nat)
    requires AllCoupled(lazy, eager, clock, ttl) && Forwards(clock, calls)
    ensures LazyAnswers(lazy, calls, ttl, max) == EagerAnswers(eager, calls, ttl, max)
    decreases |calls|
  {
    if calls != [] {
      var c := calls[0];
      var lazy', eager' := LazyCall(lazy, c, ttl, max), EagerCall(eager, c, ttl, max);
      forall r ensures Coupled(lazy'(r), eager'(r), Clock(clock, c.op), ttl) {
        CallCoupled(lazy, eager, clock, c, ttl, max, r);
      }
      RunsAgree(lazy', eager', Clock(clock, c.op), calls[1..], ttl, max);
      StepCoupled(lazy(c.recipient), eager(c.recipient), clock, c.op, ttl, max);
    }
  }

  /** A run with its prunes taken out. */
  function Unpruned(calls: seq<Call>): seq<Call>
  {
    if calls == [] then []
    else if calls[0].op.Prune? then Unpruned(calls[1..])
    else [calls[0]] + Unpruned(calls[1..])
  }

  lemma {:induction false} SameQueuesSameAnswers(a: Queues, b: Queues, calls: seq<Call>, ttl: nat, max: nat)
    requires forall r :: a(r) == b(r)
    ensures EagerAnswers(a, calls, ttl, max) == EagerAnswers(b, calls, ttl, max)
    decreases |calls|
  {
    if calls != [] {
      SameQueuesSameAnswers(EagerCall(a, calls[0], ttl, max), EagerCall(b, calls[0], ttl, max), calls[1..], ttl, max);
    }
  }

  lemma {:induction false} EagerIgnoresPrunes(qs: Queues, calls: seq<Call>, ttl: nat, max: nat)
    ensures EagerAnswers(qs, calls, ttl, max) == EagerAnswers(qs, Unpruned(calls), ttl, max)
    decreases |calls|
  {
    if calls != [] {
      if calls[0].op.Prune? {
        SameQueuesSameAnswers(qs, EagerCall(qs, calls[0], ttl, max), calls[1..], ttl, max);
        EagerIgnoresPrunes(qs, calls[1..], ttl, max);
      } else {
        EagerIgnoresPrunes(EagerCall(qs, calls[0], ttl, max), calls[1..], ttl, max);
        assert Unpruned(calls)[1..] == Unpruned(calls[1..]);
      }
    }
  }

  lemma {:induction false} UnprunedForwards(earlier: int, clock: int, calls: seq<Call>)
    requires earlier <= clock && Forwards(clock, calls)
    ensures Forwards(earlier, Unpruned(calls))
    decreases |calls|
  {
    if calls != [] {
      var now := Clock(clock, calls[0].op);
      if calls[0].op.Prune? {
        UnprunedForwards(earlier, now, calls[1..]);
      } else {
        var next := Clock(earlier, calls[0].op);
        UnprunedForwards(next, now, calls[1..]);
        assert Unpruned(calls)[1..] == Unpruned(calls[1..]);
      }
    }
  }

  const NO_QUEUES: Queues := (r: string) => []

  /** From an empty tracker, a run answers exactly as the same run with every prune left out. */
  lemma PruningChangesNoAnswer(clock: int, calls: seq<Call>, ttl: nat, max: nat)
    requires Forwards(clock, calls)
    ensures LazyAnswers(NO_QUEUES, calls, ttl, max) == LazyAnswers(NO_QUEUES, Unpruned(calls), ttl, max)
  {
    assert AllCoupled(NO_QUEUES, NO_QUEUES, clock, ttl);
    RunsAgree(NO_QUEUES, NO_QUEUES, clock, calls, ttl, max);
    EagerIgnoresPrunes(NO_QUEUES, calls, ttl, max);
    UnprunedForwards(clock, clock, calls);
    RunsAgree(NO_QUEUES, NO_QUEUES, clock, Unpruned(calls), ttl, max);
  }

  // -- the tracker ------------------------------------------------------------------------------

  class RecipientInFlightTracker {
    const ttl: nat
    const max: nat
    var byRecipient: map<string, Queue>

    constructor (ttl: nat, max: nat)
      ensures this.ttl == ttl && this.max == max
      ensures forall r :: QueueOf(r) == NO_QUEUES(r)
    {
      this.ttl, this.max := ttl, max;
      byRecipient := map[];
    }

    /** A recipient without an entry has nothing in flight. */
    function QueueOf(r: string): Queue
      reads this
    {
      if r in byRecipient then byRecipient[r] else []
    }

    method RecordSent(recipient: string, id: string, now: int)
      modifies this
      ensures recipient != "" ==>
                QueueOf(recipient) == Lazy(old(QueueOf(recipient)), Op.RecordSent(id, now), ttl, max).queue
      ensures forall r :: r != recipient || recipient == "" ==> QueueOf(r) == old(QueueOf(r))
    {
      if recipient == "" || id == "" {
        return;
      }
      var q := QueueOf(recipient) + [Entry(id, now)];
      q := DropOldest(q);
      byRecipient := byRecipient[recipient := q];
    }

    /** The loop that holds a queue to the cap. */
    method DropOldest(q0: Queue) returns (q: Queue)
      ensures q == KeepLast(q0, max)
    {
      q := q0;
      while |q| > max
        invariant KeepLast(q, max) == KeepLast(q0, max)
      {
        KeepLastTail(q, max);
        q := q[1..];
      }
    }

    /** The popping loop at the front of a queue. */
    method PopFront(q0: Queue, now: int) returns (q: Queue)
      ensures q == PopExpired(q0, now, ttl)
    {
      q := q0;
      while q != [] && now - q[0].at > ttl
        invariant PopExpired(q, now, ttl) == PopExpired(q0, now, ttl)
      {
        q := q[1..];
      }
    }

    /** A recipient's new queue; an empty one is dropped. */
    method Put(recipient: string, q: Queue)
      modifies this
      ensures QueueOf(recipient) == q && forall r :: r != recipient ==> QueueOf(r) == old(QueueOf(r))
      ensures byRecipient.Keys <= old(byRecipient.Keys) + {recipient}
    {
      byRecipient := if q == [] then byRecipient - {recipient} else byRecipient[recipient := q];
    }

    method ResolveOnRelayAccepted(recipient: string, id: Option<string>, now: int)
      modifies this
      ensures recipient != "" ==>
                var op := RelayAccepted(if id.Some? then id.value else "", now);
                QueueOf(recipient) == Lazy(old(QueueOf(recipient)), op, ttl, max).queue
      ensures forall r :: r != recipient || recipient == "" ==> QueueOf(r) == old(QueueOf(r))
    {
      if recipient == "" || recipient !in byRecipient {
        return;
      }
      var q := PopFront(byRecipient[recipient], now);
      var exact := false;
      if id.Some? && id.value != "" {
        var q2 := WithoutId(q, id.value);
        exact := |q2| != |q|;
        if !exact {
          WithoutNothing(q, id.value);
        }
        q := q2;
      }
      if !exact && q != [] {
        q := q[1..];
      }
      Put(recipient, q);
    }

    method Unrecord(recipient: string, id: string)
      modifies this
      ensures recipient != "" ==> QueueOf(recipient) == Lazy(old(QueueOf(recipient)), Op.Unrecord(id), ttl, max).queue
      ensures forall r :: r != recipient || recipient == "" ==> QueueOf(r) == old(QueueOf(r))
    {
      if recipient == "" || id == "" || recipient !in byRecipient {
        return;
      }
      var q := byRecipient[recipient];
      var i := FindNewest(q, id);
      if i >= 0 {
        NewestAt(q, id, i);
        q := q[..i] + q[i + 1..];
      } else {
        NoneMatches(q, id);
      }
      Put(recipient, q);
    }

    /** The scan from the newest entry back; -1 when none matches. */
    method FindNewest(q: Queue, id: string) returns (i: int)
      ensures -1 <= i < |q| && (i >= 0 ==> q[i].id == id)
      ensures forall j :: i < j < |q| ==> q[j].id != id
    {
      i := |q| - 1;
      while i >= 0 && q[i].id != id
        invariant -1 <= i < |q|
        invariant forall j :: i < j < |q| ==> q[j].id != id
      {
        i := i - 1;
      }
    }

    method DrainRecipient(recipient: string, now: int) returns (ids: seq<string>)
      modifies this
      ensures ids == Lazy(old(QueueOf(recipient)), Drain(now), ttl, max).ids
      ensures QueueOf(recipient) == [] && forall r :: r != recipient ==> QueueOf(r) == old(QueueOf(r))
    {
      var q := QueueOf(recipient);
      byRecipient := byRecipient - {recipient};
      ids := Ids(Live(q, now, ttl));
    }

    method Prune(now: int)
      modifies this
      ensures forall r :: QueueOf(r) == Lazy(old(QueueOf(r)), Op.Prune(now), ttl, max).queue
    {
      var keys := byRecipient.Keys;
      while keys != {}
        invariant forall r :: QueueOf(r) == if r in keys then old(QueueOf(r)) else PopExpired(old(QueueOf(r)), now, ttl)
      {
        var r :| r in keys;
        var q := PopFront(QueueOf(r), now);
        Put(r, q);
        keys := keys - {r};
      }
    }

    method Clear()
      modifies this
      ensures forall r :: QueueOf(r) == []
    {
      byRecipient := map[];
    }

    // -- whole runs ------------------------------------------------------------------------------

    method Perform(c: Call, ghost qs: Queues) returns (answers: seq<seq<string>>)
      requires forall r :: QueueOf(r) == qs(r)
      modifies this
      ensures forall r :: QueueOf(r) == LazyCall(qs, c, ttl, max)(r)
      ensures answers == LazyAnswer(qs, c, ttl, max)
    {
      answers := [];
      match c.op
      case RecordSent(id, now) => RecordSent(c.recipient, id, now);
      case RelayAccepted(id, now) => ResolveOnRelayAccepted(c.recipient, Some(id), now);
      case Unrecord(id) => Unrecord(c.recipient, id);
      case Drain(now) =>
        var ids := DrainRecipient(c.recipient, now);
        answers := [ids];
      case Prune(now) => Prune(now);
      case Clear => Clear();
    }

    /** Any sequence of calls on a tracker answers as the run of those calls does. */
    method Replay(calls: seq<Call>, ghost qs: Queues) returns (answers: seq<seq<string>>)
      requires forall r :: QueueOf(r) == qs(r)
      modifies this
      ensures answers == LazyAnswers(qs, calls, ttl, max)
    {
      answers := [];
      ghost var now := qs;
      for k := 0 to |calls|
        invariant forall r :: QueueOf(r) == now(r)
        invariant answers + LazyAnswers(now, calls[k..], ttl, max) == LazyAnswers(qs, calls, ttl, max)
      {
        AnswersStep(answers, now, calls, k, ttl, max);
        var more := Perform(calls[k], now);
        now := LazyCall(now, calls[k], ttl, max);
        answers := answers + more;
      }
    }
  }

  lemma KeepLastTail(q: Queue, max: nat)
    requires |q| > max
    ensures KeepLast(q[1..], max) == KeepLast(q, max)
  {
  }

  lemma {:induction false} WithoutNothing(q: Queue, id: string)
    ensures |WithoutId(q, id)| <= |q| && (|WithoutId(q, id)| == |q| ==> WithoutId(q, id) == q)
  {
    if q != [] {
      WithoutNothing(q[1..], id);
      assert q == [q[0]] + q[1..];
    }
  }

  lemma CutBeforeLast(q: Queue, i: nat)
    requires i < |q| - 1
    ensures Without(q[..|q| - 1], i) + [q[|q| - 1]] == Without(q, i)
  {
  }

  lemma LastDiffers(q: Queue, id: string)
    requires q != [] && q[|q| - 1].id != id
    ensures WithoutNewest(q, id) == WithoutNewest(q[..|q| - 1], id) + [q[|q| - 1]]
  {
  }

  function Without(q: Queue, i: nat): Queue
    requires i < |q|
  {
    q[..i] + q[i + 1..]
  }

  lemma {:induction false} NoneMatches(q: Queue, id: string)
    requires forall j :: 0 <= j < |q| ==> q[j].id != id
    ensures WithoutNewest(q, id) == q
    decreases |q|
  {
    if q != [] {
      NoneMatches(q[..|q| - 1], id);
      assert q == q[..|q| - 1] + [q[|q| - 1]];
    }
  }

  lemma {:induction false} NewestAt(q: Queue, id: string, i: nat)
    requires i < |q| && q[i].id == id && forall j :: i < j < |q| ==> q[j].id != id
    ensures WithoutNewest(q, id) == Without(q, i)
    decreases |q|
  {
    if i < |q| - 1 {
      NewestAt(q[..|q| - 1], id, i);
      LastDiffers(q, id);
      CutBeforeLast(q, i);
    } else {
      assert Without(q, i) == q[..i];
    }
  }
}
