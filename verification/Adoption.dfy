/** Whether an account may inherit the pre-namespace store, and that at most one ever does. */
module Adoption {
  import opened Basics

  const CLAIM_KEY_TYPE := "__offline_protocol_migration__"
  const CLAIM_KEY_ID := "claimed_by"
  const TOMBSTONE_KEY_TYPE := "__offline_protocol_tombstone__"

  /** The provider's own bookkeeping, which never reaches a caller. */
  predicate IsReserved(keyType: string)
  {
    keyType == CLAIM_KEY_TYPE || keyType == TOMBSTONE_KEY_TYPE
  }

  datatype TombstoneState = Recorded | Absent | Unreadable {
    predicate SuppressesReadThrough()
    {
      this != Absent
    }

    predicate AllowsRemovalRetry()
    {
      this == Recorded
    }
  }

  datatype Decision = Adopt | Resume | Conflict(claimedBy: string) | ClaimUnverified | NoLegacy {
    predicate AllowsReadThrough()
    {
      Adopt? || Resume?
    }
  }

  /** On what the claim entry says before this account writes to it. */
  function Decide(existing: Option<string>, namespace: string): Decision
  {
    if existing.None? || existing.value == "" then Adopt
    else if existing.value == namespace then Resume
    else Conflict(existing.value)
  }

  /** On what it says after the write; an unproven claim is not an adoption. */
  function ConfirmClaim(readBack: Option<string>, namespace: string): Decision
  {
    if readBack.None? || readBack.value == "" then ClaimUnverified
    else if readBack.value == namespace then Adopt
    else Conflict(readBack.value)
  }

  // -- one launch -----------------------------------------------------------------------------

  datatype WriteFate = Landed | LandedButRaised | SilentlyLost | Refused

  /** What goes wrong in a launch: the first read, the write, the read back. */
  datatype Mishaps = Mishaps(probeFails: bool, write: WriteFate, readBackFails: bool)

  /** The claim a launch leaves recorded, and what it decides. */
  datatype Launched = Launched(claim: Option<string>, decision: Decision)

  function Launch(claim: Option<string>, namespace: string, w: Mishaps): Launched
  {
    var decision := Decide(if w.probeFails then None else claim, namespace);
    if decision != Adopt then Launched(claim, decision)
    else
      var after := if w.write.Landed? || w.write.LandedButRaised? then Some(namespace) else claim;
      if w.write.LandedButRaised? || w.write.Refused? then Launched(after, ClaimUnverified)
      else Launched(after, ConfirmClaim(if w.readBackFails then None else after, namespace))
  }

  /** Who granted itself read-through has its own claim recorded. */
  lemma GrantIsRecorded(claim: Option<string>, namespace: string, w: Mishaps)
    requires namespace != ""
    ensures Launch(claim, namespace, w).decision.AllowsReadThrough() ==>
              Launch(claim, namespace, w).claim == Some(namespace)
  {
  }

  /** A recorded claim is overwritten exactly when the first read fails and the write lands all the same. */
  lemma ClaimOverwrittenExactly(owner: string, namespace: string, w: Mishaps)
    requires owner != "" && namespace != "" && owner != namespace
    ensures Launch(Some(owner), namespace, w).claim != Some(owner) <==>
              w.probeFails && (w.write.Landed? || w.write.LandedButRaised?)
    ensures Launch(Some(owner), namespace, w).decision.AllowsReadThrough() <==>
              w.probeFails && w.write.Landed? && !w.readBackFails
  {
  }

  /** The write was not reported as failed, and the claim could be read back. */
  predicate Confirmable(w: Mishaps)
  {
    (w.write.Landed? || w.write.SilentlyLost?) && !w.readBackFails
  }

  /** The owner keeps its claim, and is granted the store unless it cannot read its claim before or after a write. */
  lemma OwnerIsGranted(namespace: string, w: Mishaps)
    requires namespace != ""
    ensures Launch(Some(namespace), namespace, w).claim == Some(namespace)
    ensures Launch(Some(namespace), namespace, w).decision.AllowsReadThrough() <==> !w.probeFails || Confirmable(w)
  {
  }

  /** An unclaimed store, or one whose claim is empty, goes to whoever writes a claim and reads it back. */
  lemma UnclaimedIsGranted(claim: Option<string>, namespace: string, w: Mishaps)
    requires namespace != "" && (claim.None? || claim.value == "")
    ensures Launch(claim, namespace, w).decision.AllowsReadThrough() <==> w.write.Landed? && !w.readBackFails
    ensures Launch(claim, namespace, w).claim ==
            if w.write.Landed? || w.write.LandedButRaised? then Some(namespace) else claim
  {
  }

  // -- any number of launches -------------------------------------------------------------------

  /** A launch of an account, or anything else the providers do to the keyring. */
  datatype Event = Launching(namespace: string, mishaps: Mishaps) | Other

  function ClaimAfter(claim: Option<string>, e: Event): Option<string>
  {
    match e
    case Launching(namespace, w) => Launch(claim, namespace, w).claim
    case Other => claim
  }

  /** The namespaces granted read-through in a run. */
  function Granted(claim: Option<string>, run: seq<Event>): set<string>
    decreases |run|
  {
    if run == [] then {} else GrantedBy(claim, run[0]) + Granted(ClaimAfter(claim, run[0]), run[1..])
  }

  /** The claim a run leaves recorded. */
  function ClaimAfterAll(claim: Option<string>, run: seq<Event>): Option<string>
    decreases |run|
  {
    if run == [] then claim else ClaimAfterAll(ClaimAfter(claim, run[0]), run[1..])
  }

  /** Whom an event grants the store. */
  function GrantedBy(claim: Option<string>, e: Event): set<string>
  {
    if e.Launching? && Launch(claim, e.namespace, e.mishaps).decision.AllowsReadThrough() then {e.namespace} else {}
  }

  lemma {:induction false} GrantedSnoc(claim: Option<string>, run: seq<Event>, e: Event)
    ensures ClaimAfterAll(claim, run + [e]) == ClaimAfter(ClaimAfterAll(claim, run), e)
    ensures Granted(claim, run + [e]) == Granted(claim, run) + GrantedBy(ClaimAfterAll(claim, run), e)
    decreases |run|
  {
    if run == [] {
      assert [e][1..] == [];
      assert run + [e] == [e];
    } else {
      GrantedSnoc(ClaimAfter(claim, run[0]), run[1..], e);
      assert (run + [e])[1..] == run[1..] + [e];
    }
  }

  predicate Proper(run: seq<Event>)
  {
    forall i :: 0 <= i < |run| && run[i].Launching? ==> run[i].namespace != "" && !run[i].mishaps.probeFails
  }

  /** Once a claim is recorded, only its owner is ever granted anything. */
  lemma {:induction false} OwnerOnly(owner: string, run: seq<Event>)
    requires owner != "" && Proper(run)
    ensures Granted(Some(owner), run) <= {owner}
    decreases |run|
  {
    if run != [] {
      assert Proper(run[1..]);
      if run[0].Launching? && run[0].namespace != owner {
        ClaimOverwrittenExactly(owner, run[0].namespace, run[0].mishaps);
      }
      OwnerOnly(owner, run[1..]);
    }
  }

  lemma {:induction false} OwnerStays(owner: string, run: seq<Event>)
    requires owner != "" && Proper(run)
    ensures ClaimAfterAll(Some(owner), run) == Some(owner)
    decreases |run|
  {
    if run != [] {
      assert Proper(run[1..]);
      if run[0].Launching? {
        if run[0].namespace == owner {
          OwnerIsGranted(owner, run[0].mishaps);
        } else {
          ClaimOverwrittenExactly(owner, run[0].namespace, run[0].mishaps);
        }
      }
      OwnerStays(owner, run[1..]);
    }
  }

  /** In such a run every launch of the owner is granted the store. */
  lemma OwnerAlwaysGranted(owner: string, run: seq<Event>, i: nat)
    requires owner != "" && Proper(run) && i < |run| && run[i].Launching? && run[i].namespace == owner
    ensures ClaimAfterAll(Some(owner), run[..i]) == Some(owner)
    ensures GrantedBy(ClaimAfterAll(Some(owner), run[..i]), run[i]) == {owner}
  {
    OwnerStays(owner, run[..i]);
    OwnerIsGranted(owner, run[i].mishaps);
  }

  /** Over any number of launches whose first reads succeed, at most one namespace is granted the store. */
  lemma {:induction false} AtMostOneInherits(claim: Option<string>, run: seq<Event>, a: string, b: string)
    requires Proper(run) && a in Granted(claim, run) && b in Granted(claim, run)
    ensures a == b
    decreases |run|
  {
    var next := ClaimAfter(claim, run[0]);
    assert Proper(run[1..]);
    if next.Some? && next.value != "" {
      OwnerOnly(next.value, run[1..]);
      if run[0].Launching? {
        GrantIsRecorded(claim, run[0].namespace, run[0].mishaps);
      }
    } else {
      if run[0].Launching? {
        GrantIsRecorded(claim, run[0].namespace, run[0].mishaps);
      }
      AtMostOneInherits(next, run[1..], a, b);
    }
  }

  /** Without that, two accounts can both be granted it: a first read that fails looks unclaimed. */
  lemma FailedProbeBreaksExclusivity(a: string, b: string)
    requires a != "" && b != "" && a != b
    ensures var fine := Mishaps(false, Landed, false);
            var blind := Mishaps(true, Landed, false);
            Granted(None, [Launching(a, fine), Launching(b, blind)]) == {a, b}
  {
    var fine := Mishaps(false, Landed, false);
    var blind := Mishaps(true, Landed, false);
    var run := [Launching(a, fine), Launching(b, blind)];
    assert run[1..] == [Launching(b, blind)];
    assert run[1..][1..] == [];
    assert Launch(None, a, fine) == Launched(Some(a), Adopt);
    assert Launch(Some(a), b, blind) == Launched(Some(b), Adopt);
    assert Granted(Some(a), run[1..]) == {b};
  }
}
