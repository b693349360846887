/** Frames submitted to a gateway and not yet answered. */
module VerdictTracker {
  import opened Basics
  import opened GatewayTrace

  function Stale(ids: seq<string>, began: map<string, real>, now: real, timeout: real): seq<string>
  {
    if ids == [] then []
    else
      (if ids[0] in began && now - began[ids[0]] > timeout then [ids[0]] else [])
      + Stale(ids[1..], began, now, timeout)
  }

  lemma {:induction false} StaleAmong(ids: seq<string>, began: map<string, real>, now: real, timeout: real)
    ensures forall id ::
              id in Stale(ids, began, now, timeout) <==> id in ids && id in began && now - began[id] > timeout
    ensures NoDuplicates(ids) ==> NoDuplicates(Stale(ids, began, now, timeout))
  {
    if ids != [] {
      StaleAmong(ids[1..], began, now, timeout);
      assert ids == [ids[0]] + ids[1..];
    }
  }

  lemma NoneGone(ids: seq<string>, began: map<string, real>, gone: seq<string>)
    requires gone == []
    ensures Kept(ids, Elements(gone)) == ids && began - Elements(gone) == began
  {
    KeptAll(ids);
    assert Elements(gone) == {};
  }

  lemma OneMoreGone(ids: seq<string>, began: map<string, real>, gone: seq<string>, k: nat)
    requires k < |gone| && NoDuplicates(gone) && forall id :: id in gone ==> id in ids
    ensures gone[k] in Kept(ids, Elements(gone[..k]))
    ensures Kept(Kept(ids, Elements(gone[..k])), {gone[k]}) == Kept(ids, Elements(gone[..k + 1]))
    ensures began - Elements(gone[..k]) - {gone[k]} == began - Elements(gone[..k + 1])
  {
    KeptExactly(ids, Elements(gone[..k]));
    KeptSnoc(ids, gone[..k], gone[k]);
    assert gone[..k + 1] == gone[..k] + [gone[k]];
    assert Elements(gone[..k + 1]) == Elements(gone[..k]) + {gone[k]};
  }

  lemma StaleStep(
    done: seq<string>, ids: seq<string>, began: map<string, real>, now: real, timeout: real, k: nat)
    requires k < |ids| && ids[k] in began
    ensures done + Stale(ids[k..], began, now, timeout)
         == (done + (if now - began[ids[k]] > timeout then [ids[k]] else []))
            + Stale(ids[k + 1..], began, now, timeout)
  {
    var one := if now - began[ids[k]] > timeout then [ids[k]] else [];
    var rest := Stale(ids[k + 1..], began, now, timeout);
    assert ids[k..][0] == ids[k] && ids[k..][1..] == ids[k + 1..];
    assert done + (one + rest) == (done + one) + rest;
  }

  /** A dictionary in insertion order: `ids` are its keys, `began` its values. */
  class GatewayVerdictTracker {
    var ids: seq<string>
    var began: map<string, real>

    ghost predicate Valid()
      reads this
    {
      NoDuplicates(ids) && began.Keys == Elements(ids)
    }

    constructor ()
      ensures Valid() && ids == [] && began == map[]
    {
      ids, began := [], map[];
    }

    method Begin(id: string, now: real) returns (first: bool)
      requires Valid()
      modifies this
      ensures Valid() && first == (id !in old(ids))
      ensures first ==> ids == old(ids) + [id] && began == old(began)[id := now]
      ensures !first ==> ids == old(ids) && began == old(began)
    {
      first := id !in began;
      if first {
        ids, began := ids + [id], began[id := now];
        assert Elements(ids) == Elements(old(ids)) + {id};
      }
    }

    method Settle(id: string) returns (mine: bool)
      requires Valid()
      modifies this
      ensures Valid() && mine == (id in old(ids))
      ensures mine ==> ids == Kept(old(ids), {id}) && began == old(began) - {id}
      ensures !mine ==> ids == old(ids) && began == old(began)
    {
      mine := id in began;
      if mine {
        Drop(id);
      }
    }

    method Drop(id: string)
      requires Valid() && id in ids
      modifies this
      ensures Valid() && ids == Kept(old(ids), {id}) && began == old(began) - {id}
    {
      KeptExactly(ids, {id});
      ids, began := Kept(ids, {id}), began - {id};
      assert Elements(ids) == Elements(old(ids)) - {id};
    }

    /** The ids that waited longer than `timeout`, oldest entry first. */
    method Overdue(now: real, timeout: real) returns (stale: seq<string>)
      requires Valid()
      ensures stale == Stale(ids, began, now, timeout)
    {
      stale := [];
      for k := 0 to |ids|
        invariant stale + Stale(ids[k..], began, now, timeout) == Stale(ids, began, now, timeout)
      {
        assert ids[k] in Elements(ids);
        StaleStep(stale, ids, began, now, timeout, k);
        if now - began[ids[k]] > timeout {
          stale := stale + [ids[k]];
        }
      }
    }

    method Expired(now: real, timeout: real) returns (stale: seq<string>)
      requires Valid()
      modifies this
      ensures Valid() && stale == Stale(old(ids), old(began), now, timeout)
      ensures ids == Kept(old(ids), Elements(stale)) && began == old(began) - Elements(stale)
    {
      stale := Overdue(now, timeout);
      StaleAmong(ids, began, now, timeout);
      NoneGone(ids, began, stale[..0]);
      for k := 0 to |stale|
        invariant Valid()
        invariant ids == Kept(old(ids), Elements(stale[..k])) && began == old(began) - Elements(stale[..k])
      {
        OneMoreGone(old(ids), old(began), stale, k);
        Drop(stale[k]);
      }
      assert stale[..|stale|] == stale;
    }

    method DrainAll() returns (all: seq<string>)
      requires Valid()
      modifies this
      ensures Valid() && all == old(ids) && ids == [] && began == map[]
    {
      all := ids;
      ids, began := [], map[];
    }
  }
}
