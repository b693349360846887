/** Which peers to ask a gateway about: a watch set kept in rotation, with a bounded wait for each peer. */
module PresenceWatch {
  import opened Basics

  // -- the watch set as a value ----------------------------------------------------------

  /** When each peer last mattered, and the order in which they come up. */
  datatype Watched = Watched(last: map<string, int>, rotation: seq<string>)

  /** The rotation is a duplicate-free permutation of the watched peers. */
  ghost predicate Valid(s: Watched)
  {
    NoDuplicates(s.rotation) && forall p :: p in s.rotation <==> p in s.last
  }

  function Without(r: seq<string>, gone: set<string>): seq<string>
  {
    if r == [] then []
    else if r[0] in gone then Without(r[1..], gone)
    else [r[0]] + Without(r[1..], gone)
  }

  function Add(s: Watched, peer: string, now: int): Watched
  {
    if peer == "" then s
    else Watched(s.last[peer := now], if peer in s.last then s.rotation else s.rotation + [peer])
  }

  function Remove(s: Watched, gone: set<string>): Watched
  {
    Watched(s.last - gone, Without(s.rotation, gone))
  }

  function Merge(s: Watched, peers: seq<string>, now: int): Watched
    decreases |peers|
  {
    if peers == [] then s else Merge(Add(s, peers[0], now), peers[1..], now)
  }

  function Idle(s: Watched, now: int, ttl: int): set<string>
  {
    set p | p in s.last && now - s.last[p] > ttl
  }

  /** How many peers a tick asks about. */
  function Count(s: Watched, k: int): (c: nat)
    ensures c <= |s.rotation| && (0 <= k <= |s.rotation| ==> c == k) && (|s.rotation| <= k ==> c == |s.rotation|)
  {
    if k < 0 then 0 else if k < |s.rotation| then k else |s.rotation|
  }

  /** The core's list merged in, the idle peers evicted. */
  function Refreshed(s: Watched, core: seq<string>, now: int, ttl: int): Watched
  {
    var merged := Merge(s, core, now);
    Remove(merged, Idle(merged, now, ttl))
  }

  /** The peers at the front go to the back. */
  function Rotated(s: Watched, c: nat): Watched
    requires c <= |s.rotation|
  {
    s.(rotation := s.rotation[c..] + s.rotation[..c])
  }

  // -- every operation keeps the permutation -----------------------------------------------

  lemma {:induction false} WithoutContains(r: seq<string>, gone: set<string>)
    requires NoDuplicates(r)
    ensures NoDuplicates(Without(r, gone))
    ensures forall p :: p in Without(r, gone) <==> p in r && p !in gone
  {
    if r != [] {
      WithoutContains(r[1..], gone);
      assert r == [r[0]] + r[1..];
      assert r[0] !in r[1..];
    }
  }

  lemma AddValid(s: Watched, peer: string, now: int)
    requires Valid(s)
    ensures Valid(Add(s, peer, now))
  {
  }

  lemma RemoveValid(s: Watched, gone: set<string>)
    requires Valid(s)
    ensures Valid(Remove(s, gone))
  {
    WithoutContains(s.rotation, gone);
  }

  lemma {:induction false} MergeValid(s: Watched, peers: seq<string>, now: int)
    requires Valid(s)
    ensures Valid(Merge(s, peers, now))
    decreases |peers|
  {
    if peers != [] {
      AddValid(s, peers[0], now);
      MergeValid(Add(s, peers[0], now), peers[1..], now);
    }
  }

  lemma RefreshedValid(s: Watched, core: seq<string>, now: int, ttl: int)
    requires Valid(s)
    ensures Valid(Refreshed(s, core, now, ttl))
  {
    MergeValid(s, core, now);
    var merged := Merge(s, core, now);
    RemoveValid(merged, Idle(merged, now, ttl));
  }

  lemma RotatedValid(s: Watched, c: nat)
    requires Valid(s) && c <= |s.rotation|
    ensures Valid(Rotated(s, c))
  {
    var a, b := s.rotation[..c], s.rotation[c..];
    assert s.rotation == a + b;
    forall i, j | 0 <= i < j < |b + a| ensures (b + a)[i] != (b + a)[j] {
      var m := |b|;
      assert (b + a)[i] == if i < m then s.rotation[c + i] else s.rotation[i - m];
      assert (b + a)[j] == if j < m then s.rotation[c + j] else s.rotation[j - m];
    }
  }

  // -- how long a peer waits -----------------------------------------------------------------

  /** A peer's place in the rotation. */
  function Place(r: seq<string>, p: string): (i: nat)
    requires p in r
    ensures i < |r| && r[i] == p
  {
    if r[0] == p then 0 else 1 + Place(r[1..], p)
  }

  lemma {:induction false} PlaceIs(r: seq<string>, p: string, i: nat)
    requires NoDuplicates(r) && i < |r| && r[i] == p
    ensures Place(r, p) == i
  {
    if i > 0 {
      PlaceIs(r[1..], p, i - 1);
    }
  }

  lemma {:induction false} PlaceAppend(r: seq<string>, x: seq<string>, p: string)
    requires p in r
    ensures Place(r + x, p) == Place(r, p)
  {
    if r[0] != p {
      PlaceAppend(r[1..], x, p);
      assert (r + x)[1..] == r[1..] + x;
    }
  }

  lemma {:induction false} PlaceWithout(r: seq<string>, gone: set<string>, p: string)
    requires p in r && p !in gone
    ensures p in Without(r, gone) && Place(Without(r, gone), p) <= Place(r, p)
  {
    if r[0] != p {
      PlaceWithout(r[1..], gone, p);
      if r[0] !in gone {
        var rest := Without(r[1..], gone);
        assert ([r[0]] + rest)[1..] == rest;
      }
    }
  }

  lemma {:induction false} PlaceMerge(s: Watched, peers: seq<string>, now: int, p: string)
    requires Valid(s) && p in s.last
    ensures p in Merge(s, peers, now).rotation && Place(Merge(s, peers, now).rotation, p) == Place(s.rotation, p)
    ensures p in Merge(s, peers, now).last
    decreases |peers|
  {
    if peers != [] {
      var next := Add(s, peers[0], now);
      AddValid(s, peers[0], now);
      if next.rotation != s.rotation {
        PlaceAppend(s.rotation, [peers[0]], p);
      }
      PlaceMerge(next, peers[1..], now, p);
    }
  }

  lemma PlaceRefreshed(s: Watched, core: seq<string>, now: int, ttl: int, p: string)
    requires Valid(s) && p in s.last && p in Refreshed(s, core, now, ttl).last
    ensures p in Refreshed(s, core, now, ttl).rotation
    ensures Place(Refreshed(s, core, now, ttl).rotation, p) <= Place(s.rotation, p)
  {
    var merged := Merge(s, core, now);
    PlaceMerge(s, core, now, p);
    PlaceWithout(merged.rotation, Idle(merged, now, ttl), p);
  }

  /** A tick asks about the peer, or brings it a whole batch nearer the front. */
  lemma PlaceRotated(s: Watched, k: int, p: string)
    requires Valid(s) && p in s.rotation && k >= 1
    ensures var c := Count(s, k);
            p in s.rotation[..c] ||
            (p in Rotated(s, c).rotation && Place(s.rotation, p) >= k &&
             Place(Rotated(s, c).rotation, p) == Place(s.rotation, p) - k)
  {
    var c := Count(s, k);
    var i := Place(s.rotation, p);
    if i < c {
      assert s.rotation[..c][i] == p;
    } else {
      RotatedValid(s, c);
      assert Rotated(s, c).rotation[i - c] == p;
      PlaceIs(Rotated(s, c).rotation, p, i - c);
    }
  }

  // -- whole runs -------------------------------------------------------------------------------

  datatype Op = Watch(peer: string, now: int) | Unwatch(peer: string) | Tick(core: seq<string>, now: int)

  function Apply(s: Watched, op: Op, ttl: int, k: int): Watched
  {
    match op
    case Watch(peer, now) => Add(s, peer, now)
    case Unwatch(peer) => Remove(s, {peer})
    case Tick(core, now) =>
      var r := Refreshed(s, core, now, ttl);
      Rotated(r, Count(r, k))
  }

  /** The peers an operation asks about. */
  function Asked(s: Watched, op: Op, ttl: int, k: int): seq<string>
  {
    match op
    case Tick(core, now) =>
      var r := Refreshed(s, core, now, ttl);
      r.rotation[..Count(r, k)]
    case _ => []
  }

  lemma ApplyValid(s: Watched, op: Op, ttl: int, k: int)
    requires Valid(s)
    ensures Valid(Apply(s, op, ttl, k))
  {
    match op
    case Watch(peer, now) => AddValid(s, peer, now);
    case Unwatch(peer) => RemoveValid(s, {peer});
    case Tick(core, now) =>
      RefreshedValid(s, core, now, ttl);
      var r := Refreshed(s, core, now, ttl);
      RotatedValid(r, Count(r, k));
  }

  /** A merge makes the named peers relevant now and leaves the others as they were. */
  lemma {:induction false} MergeRelevance(s: Watched, peers: seq<string>, now: int, p: string)
    ensures p in Merge(s, peers, now).last <==> (p != "" && p in peers) || p in s.last
    ensures p in Merge(s, peers, now).last ==>
              Merge(s, peers, now).last[p] == if p != "" && p in peers then now else s.last[p]
    decreases |peers|
  {
    if peers != [] {
      MergeRelevance(Add(s, peers[0], now), peers[1..], now, p);
      assert peers == [peers[0]] + peers[1..];
    }
  }

  /** After a tick a peer is watched exactly when the core names it or it mattered no longer ago than the limit. */
  lemma WatchedAfterTick(s: Watched, core: seq<string>, now: int, ttl: int, k: int, p: string)
    ensures var after := Apply(s, Tick(core, now), ttl, k).last;
            p in after <==> if p != "" && p in core then 0 <= ttl else p in s.last && now - s.last[p] <= ttl
    ensures var after := Apply(s, Tick(core, now), ttl, k).last;
            p in after ==> after[p] == if p != "" && p in core then now else s.last[p]
  {
    MergeRelevance(s, core, now, p);
  }

  /** A tick asks about as many as it may, all still watched, and those it asks about go to the back in that order. */
  lemma AskedGoBack(s: Watched, core: seq<string>, now: int, ttl: int, k: int)
    requires Valid(s)
    ensures var asked, after := Asked(s, Tick(core, now), ttl, k), Apply(s, Tick(core, now), ttl, k);
            && |asked| == (if k < 0 then 0 else if k < |after.rotation| then k else |after.rotation|)
            && after.rotation[|after.rotation| - |asked|..] == asked
            && forall p :: p in asked ==> p in after.last
  {
    ApplyValid(s, Tick(core, now), ttl, k);
    var asked, after := Asked(s, Tick(core, now), ttl, k), Apply(s, Tick(core, now), ttl, k);
    assert after.rotation[|after.rotation| - |asked|..] == asked;
    forall p | p in asked ensures p in after.last {
      assert p in after.rotation[|after.rotation| - |asked|..];
    }
  }

  /** The peer is watched after each operation. */
  predicate StaysWatched(s: Watched, ops: seq<Op>, ttl: int, k: int, p: string)
    decreases |ops|
  {
    p in s.last && (ops == [] || StaysWatched(Apply(s, ops[0], ttl, k), ops[1..], ttl, k, p))
  }

  predicate AskedAbout(s: Watched, ops: seq<Op>, ttl: int, k: int, p: string)
    decreases |ops|
  {
    ops != [] && (p in Asked(s, ops[0], ttl, k) || AskedAbout(Apply(s, ops[0], ttl, k), ops[1..], ttl, k, p))
  }

  /** What each operation of a run asks about. */
  function Queries(s: Watched, ops: seq<Op>, ttl: int, k: int): seq<seq<string>>
    decreases |ops|
  {
    if ops == [] then [] else [Asked(s, ops[0], ttl, k)] + Queries(Apply(s, ops[0], ttl, k), ops[1..], ttl, k)
  }

  predicate Names(queries: seq<seq<string>>, p: string)
  {
    exists i :: 0 <= i < |queries| && p in queries[i]
  }

  lemma {:induction false} AskedAboutExactly(s: Watched, ops: seq<Op>, ttl: int, k: int, p: string)
    ensures AskedAbout(s, ops, ttl, k, p) <==> Names(Queries(s, ops, ttl, k), p)
    decreases |ops|
  {
    if ops != [] {
      var first, rest := Asked(s, ops[0], ttl, k), Queries(Apply(s, ops[0], ttl, k), ops[1..], ttl, k);
      AskedAboutExactly(Apply(s, ops[0], ttl, k), ops[1..], ttl, k, p);
      var all := Queries(s, ops, ttl, k);
      assert all == [first] + rest;
      if p in first {
        assert p in all[0];
      }
      if Names(rest, p) {
        var i :| 0 <= i < |rest| && p in rest[i];
        assert p in all[i + 1];
      }
      if Names(all, p) {
        var i :| 0 <= i < |all| && p in all[i];
        assert i == 0 || p in rest[i - 1];
      }
    }
  }

  lemma QueriesStep(done: seq<seq<string>>, s: Watched, ops: seq<Op>, i: nat, ttl: int, k: int)
    requires i < |ops|
    ensures done + Queries(s, ops[i..], ttl, k)
         == (done + [Asked(s, ops[i], ttl, k)]) + Queries(Apply(s, ops[i], ttl, k), ops[i + 1..], ttl, k)
  {
    var rest := ops[i..];
    assert rest[0] == ops[i] && rest[1..] == ops[i + 1..];
  }

  function Ticks(ops: seq<Op>): nat
  {
    if ops == [] then 0 else (if ops[0].Tick? then 1 else 0) + Ticks(ops[1..])
  }

  /** An operation that does not ask about a peer moves it no further back, and a tick moves it a batch forward. */
  lemma PlaceApply(s: Watched, op: Op, ttl: int, k: int, p: string)
    requires Valid(s) && k >= 1 && p in s.last && p in Apply(s, op, ttl, k).last && p !in Asked(s, op, ttl, k)
    ensures p in s.rotation && p in Apply(s, op, ttl, k).rotation
    ensures Place(Apply(s, op, ttl, k).rotation, p) <= Place(s.rotation, p) - (if op.Tick? then k else 0)
  {
    ApplyValid(s, op, ttl, k);
    match op
    case Watch(peer, now) =>
      if peer != "" && peer !in s.last {
        PlaceAppend(s.rotation, [peer], p);
      }
    case Unwatch(peer) =>
      PlaceWithout(s.rotation, {peer}, p);
    case Tick(core, now) =>
      var r := Refreshed(s, core, now, ttl);
      RefreshedValid(s, core, now, ttl);
      PlaceRefreshed(s, core, now, ttl, p);
      PlaceRotated(r, k, p);
  }

  /**
   * A peer at place i that stays watched is asked about within i / k + 1 ticks, whatever peers are
   * added, refreshed, removed or expired meanwhile.
   */
  lemma {:induction false} BoundedWait(s: Watched, ops: seq<Op>, ttl: int, k: int, p: string)
    requires Valid(s) && k >= 1 && StaysWatched(s, ops, ttl, k, p)
    requires Ticks(ops) >= Place(s.rotation, p) / k + 1
    ensures AskedAbout(s, ops, ttl, k, p)
    decreases |ops|
  {
    var next := Apply(s, ops[0], ttl, k);
    if p !in Asked(s, ops[0], ttl, k) {
      ApplyValid(s, ops[0], ttl, k);
      PlaceApply(s, ops[0], ttl, k, p);
      FewerBatches(Place(next.rotation, p), Place(s.rotation, p), k, ops[0].Tick?);
      BoundedWait(next, ops[1..], ttl, k, p);
    }
  }

  lemma FewerBatches(j: nat, i: nat, k: int, tick: bool)
    requires k >= 1 && j <= i - (if tick then k else 0)
    ensures j / k <= i / k - (if tick then 1 else 0)
  {
    if tick {
      QuotientMonotone(j + k, i, k);
      Quotient(j + k, k, j / k + 1, j % k);
    } else {
      QuotientMonotone(j, i, k);
    }
  }

  lemma MulMonotone(a: int, b: int, k: int)
    requires a <= b && k >= 0
    ensures a * k <= b * k
  {
  }

  lemma QuotientMonotone(a: nat, b: nat, k: int)
    requires k >= 1 && a <= b
    ensures a / k <= b / k
  {
    if a / k > b / k {
      MulMonotone(b / k + 1, a / k, k);
    }
  }

  lemma Quotient(x: nat, k: int, q: nat, r: nat)
    requires k >= 1 && x == q * k + r && r < k
    ensures x / k == q
  {
    if x / k < q {
      MulMonotone(x / k + 1, q, k);
    } else if q < x / k {
      MulMonotone(q + 1, x / k, k);
    }
  }

  // -- the policy -------------------------------------------------------------------------------

  class PresenceWatchPolicy {
    const idleTtlMs: int
    const maxQueriesPerTick: int
    var lastRelevantAtMs: map<string, int>
    var rotation: seq<string>

    constructor (idleTtlMs: int, maxQueriesPerTick: int)
      ensures this.idleTtlMs == idleTtlMs && this.maxQueriesPerTick == maxQueriesPerTick
      ensures State() == Watched(map[], []) && Valid(State())
    {
      this.idleTtlMs, this.maxQueriesPerTick := idleTtlMs, maxQueriesPerTick;
      lastRelevantAtMs, rotation := map[], [];
    }

    function State(): Watched
      reads this
    {
      Watched(lastRelevantAtMs, rotation)
    }

    method Watch(peer: string, now: int)
      requires Valid(State())
      modifies this
      ensures State() == Apply(old(State()), Op.Watch(peer, now), idleTtlMs, maxQueriesPerTick)
      ensures Valid(State())
    {
      AddValid(State(), peer, now);
      if peer == "" {
        return;
      }
      if peer !in lastRelevantAtMs {
        rotation := rotation + [peer];
      }
      lastRelevantAtMs := lastRelevantAtMs[peer := now];
    }

    method Unwatch(peer: string)
      requires Valid(State())
      modifies this
      ensures State() == Apply(old(State()), Op.Unwatch(peer), idleTtlMs, maxQueriesPerTick)
      ensures Valid(State())
    {
      RemoveValid(State(), {peer});
      if peer in lastRelevantAtMs {
        lastRelevantAtMs := lastRelevantAtMs - {peer};
        rotation := Without(rotation, {peer});
      } else {
        WithoutNone(rotation, {peer});
        assert lastRelevantAtMs - {peer} == lastRelevantAtMs;
      }
    }

    method PeersToQuery(core: seq<string>, now: int) returns (result: seq<string>)
      requires Valid(State())
      modifies this
      ensures result == Asked(old(State()), Tick(core, now), idleTtlMs, maxQueriesPerTick)
      ensures State() == Apply(old(State()), Tick(core, now), idleTtlMs, maxQueriesPerTick)
      ensures Valid(State())
    {
      MergeCore(core, now);
      EvictIdle(now);
      RotatedValid(State(), Count(State(), maxQueriesPerTick));
      result := Rotate();
    }

    method Perform(op: Op) returns (asked: seq<string>)
      requires Valid(State())
      modifies this
      ensures Valid(State()) && State() == Apply(old(State()), op, idleTtlMs, maxQueriesPerTick)
      ensures asked == Asked(old(State()), op, idleTtlMs, maxQueriesPerTick)
    {
      asked := [];
      match op
      case Watch(peer, now) => Watch(peer, now);
      case Unwatch(peer) => Unwatch(peer);
      case Tick(core, now) => asked := PeersToQuery(core, now);
    }

    /** Any sequence of operations on a policy; a peer that stays watched is asked about in its turn. */
    method Replay(ops: seq<Op>) returns (queries: seq<seq<string>>)
      requires Valid(State())
      modifies this
      ensures Valid(State()) && queries == Queries(old(State()), ops, idleTtlMs, maxQueriesPerTick)
      ensures forall p ::
                && maxQueriesPerTick >= 1 && StaysWatched(old(State()), ops, idleTtlMs, maxQueriesPerTick, p)
                && Ticks(ops) >= Place(old(State()).rotation, p) / maxQueriesPerTick + 1
                ==> Names(queries, p)
    {
      queries := [];
      ghost var s := State();
      for i := 0 to |ops|
        invariant Valid(State())
        invariant queries + Queries(State(), ops[i..], idleTtlMs, maxQueriesPerTick)
               == Queries(s, ops, idleTtlMs, maxQueriesPerTick)
      {
        QueriesStep(queries, State(), ops, i, idleTtlMs, maxQueriesPerTick);
        var asked := Perform(ops[i]);
        queries := queries + [asked];
      }
      forall p | && maxQueriesPerTick >= 1 && StaysWatched(s, ops, idleTtlMs, maxQueriesPerTick, p)
                 && Ticks(ops) >= Place(s.rotation, p) / maxQueriesPerTick + 1
        ensures Names(queries, p)
      {
        BoundedWait(s, ops, idleTtlMs, maxQueriesPerTick, p);
        AskedAboutExactly(s, ops, idleTtlMs, maxQueriesPerTick, p);
      }
    }

    method MergeCore(core: seq<string>, now: int)
      requires Valid(State())
      modifies this
      ensures State() == Merge(old(State()), core, now) && Valid(State())
    {
      for i := 0 to |core|
        invariant Valid(State())
        invariant Merge(State(), core[i..], now) == Merge(old(State()), core, now)
      {
        assert core[i..][1..] == core[i + 1..];
        Watch(core[i], now);
      }
    }

    method EvictIdle(now: int)
      requires Valid(State())
      modifies this
      ensures State() == Remove(old(State()), Idle(old(State()), now, idleTtlMs)) && Valid(State())
    {
      var expired := Idle(State(), now, idleTtlMs);
      ghost var gone: set<string> := {};
      WithoutNone(rotation, {});
      while expired != {}
        invariant Valid(State())
        invariant gone + expired == Idle(old(State()), now, idleTtlMs)
        invariant State() == Remove(old(State()), gone)
      {
        var peer :| peer in expired;
        RemoveTwice(old(State()), gone, {peer});
        Unwatch(peer);
        gone := gone + {peer};
        expired := expired - {peer};
      }
    }

    /** The pop and append loop. */
    method Rotate() returns (result: seq<string>)
      modifies this
      ensures var c := Count(old(State()), maxQueriesPerTick);
              result == old(rotation)[..c] && State() == Rotated(old(State()), c)
    {
      result := [];
      if rotation == [] {
        return;
      }
      var count := Count(State(), maxQueriesPerTick);
      for i := 0 to count
        invariant i <= |old(rotation)| && lastRelevantAtMs == old(lastRelevantAtMs)
        invariant result == old(rotation)[..i]
        invariant rotation == old(rotation)[i..] + old(rotation)[..i]
      {
        var peer := rotation[0];
        rotation := rotation[1..] + [peer];
        result := result + [peer];
      }
    }

    method Clear()
      modifies this
      ensures State() == Watched(map[], []) && Valid(State())
    {
      lastRelevantAtMs, rotation := map[], [];
    }
  }

  lemma {:induction false} WithoutNone(r: seq<string>, gone: set<string>)
    requires forall i :: 0 <= i < |r| ==> r[i] !in gone
    ensures Without(r, gone) == r
  {
    if r != [] {
      WithoutNone(r[1..], gone);
      assert r == [r[0]] + r[1..];
    }
  }

  lemma RemoveTwice(s: Watched, a: set<string>, b: set<string>)
    ensures Remove(Remove(s, a), b) == Remove(s, a + b)
  {
    WithoutTwice(s.rotation, a, b);
    assert s.last - a - b == s.last - (a + b);
  }

  lemma {:induction false} WithoutTwice(r: seq<string>, a: set<string>, b: set<string>)
    ensures Without(Without(r, a), b) == Without(r, a + b)
  {
    if r != [] {
      WithoutTwice(r[1..], a, b);
      var rest := Without(r[1..], a);
      assert ([r[0]] + rest)[1..] == rest;
    }
  }
}
