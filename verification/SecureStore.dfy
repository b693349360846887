/** The two-level secure store: what it means, what each call does to it, what never comes back. */
module SecureStore {
  import opened Basics
  import opened Ordering
  import opened KeyringModel
  import opened Adoption
  import Utf

  const TOMBSTONE_VALUE: seq<byte> := [1]

  // -- indexes -----------------------------------------------------------------------------------

  const ByScalars: string -> seq<int> := (s: string) => Utf.Scalars(s)

  function IndexIds(m: Ring, service: string, t: string): seq<string>
  {
    var k := IndexSlot(service, t);
    if k in m && m[k].Index? then m[k].ids else []
  }

  /** The index with one id more, in order. */
  function IdsWith(ids: seq<string>, id: string): seq<string>
  {
    Sorted(if id in ids then ids else ids + [id], ByScalars)
  }

  function Dropped(ids: seq<string>, id: string): seq<string>
  {
    if ids == [] then []
    else if ids[0] == id then Dropped(ids[1..], id)
    else [ids[0]] + Dropped(ids[1..], id)
  }

  /** The index with one id less, in order. */
  function IdsWithout(ids: seq<string>, id: string): seq<string>
  {
    Sorted(Dropped(ids, id), ByScalars)
  }

  lemma {:induction false} DroppedContains(ids: seq<string>, id: string)
    ensures NoDuplicates(ids) ==> NoDuplicates(Dropped(ids, id))
    ensures forall x :: x in Dropped(ids, id) <==> x in ids && x != id
  {
    if ids != [] {
      DroppedContains(ids[1..], id);
      assert ids == [ids[0]] + ids[1..];
      assert NoDuplicates(ids) ==> ids[0] !in ids[1..];
    }
  }

  lemma IdsWithContains(ids: seq<string>, id: string)
    ensures NoDuplicates(ids) ==> NoDuplicates(IdsWith(ids, id))
    ensures forall x :: x in IdsWith(ids, id) <==> x in ids || x == id
  {
    var all := if id in ids then ids else ids + [id];
    SortedIsSort(all, ByScalars);
    if NoDuplicates(ids) {
      SortedNoDuplicates(all, ByScalars);
    }
  }

  lemma IdsWithoutContains(ids: seq<string>, id: string)
    ensures NoDuplicates(ids) ==> NoDuplicates(IdsWithout(ids, id))
    ensures forall x :: x in IdsWithout(ids, id) <==> x in ids && x != id
  {
    DroppedContains(ids, id);
    SortedIsSort(Dropped(ids, id), ByScalars);
    if NoDuplicates(ids) {
      SortedNoDuplicates(Dropped(ids, id), ByScalars);
    }
  }

  // -- what the store means --------------------------------------------------------------------

  /** An account's own service, and the legacy service when it reads through to it. */
  datatype View = View(own: string, legacy: Option<string>)

  predicate Tombstoned(m: Ring, v: View, t: string, id: string)
  {
    Entry(v.own, TOMBSTONE_KEY_TYPE, TombstoneId(t, id)) in m
  }

  /** The one map the two levels stand for. */
  function Lookup(m: Ring, v: View, t: string, id: string): Option<seq<byte>>
  {
    if Entry(v.own, t, id) in m then
      var x := m[Entry(v.own, t, id)];
      if x.Secret? then Some(x.data) else None
    else if v.legacy.Some? && !Tombstoned(m, v, t, id) && Entry(v.legacy.value, t, id) in m then
      var x := m[Entry(v.legacy.value, t, id)];
      if x.Secret? then Some(x.data) else None
    else None
  }

  /** No read can hand this key back: no own copy, and no legacy copy that a tombstone does not cover. */
  predicate Gone(m: Ring, v: View, t: string, id: string)
  {
    Entry(v.own, t, id) !in m &&
    (v.legacy.None? || Entry(v.legacy.value, t, id) !in m || Tombstoned(m, v, t, id))
  }

  /** The store does not advertise this key: no own index names it, and no legacy index without a tombstone. */
  predicate Unlisted(m: Ring, v: View, t: string, id: string)
  {
    !InIndex(m, v.own, t, id) &&
    (v.legacy.None? || !InIndex(m, v.legacy.value, t, id) || Tombstoned(m, v, t, id))
  }

  predicate Buried(m: Ring, v: View, t: string, id: string)
  {
    Gone(m, v, t, id) && Unlisted(m, v, t, id)
  }

  /** Key material, as opposed to the provider's bookkeeping, under a name no other account has. */
  predicate Ordinary(t: string)
  {
    Nameable(t) && !IsReserved(t)
  }

  predicate Separate(v: View)
  {
    v.legacy.Some? ==> v.legacy.value != v.own
  }

  // -- whole runs: nothing deleted comes back ------------------------------------------------------

  /** A call and its answer. */
  datatype Call =
    | Put(t: string, id: string, data: seq<byte>, raised: bool)
    | Get(t: string, id: string, got: Result<Option<seq<byte>>>)
    | Drop(t: string, id: string, raised: bool)
    | Keys(t: string, ids: Result<seq<string>>)

  /** Whatever was gone stays gone, apart from one key. */
  ghost predicate StaysGone(m: Ring, n: Ring, v: View, stored: Option<(string, string)>)
  {
    forall t, id :: Ordinary(t) && stored != Some((t, id)) && Gone(m, v, t, id) ==> Gone(n, v, t, id)
  }

  /** Whatever was gone and not advertised stays so, apart from one key. */
  ghost predicate StaysBuried(m: Ring, n: Ring, v: View, stored: Option<(string, string)>)
  {
    forall t, id :: Ordinary(t) && stored != Some((t, id)) && Buried(m, v, t, id) ==> Buried(n, v, t, id)
  }

  ghost predicate Keeps(m: Ring, n: Ring, v: View, stored: Option<(string, string)>)
  {
    StaysGone(m, n, v, stored) && StaysBuried(m, n, v, stored)
  }

  /** What every call of the provider is shown to do, whatever the keyring does to it. */
  ghost predicate Step(v: View, m: Ring, c: Call, n: Ring)
  {
    match c
    case Put(t, id, _, _) => Keeps(m, n, v, Some((t, id)))
    case Get(t, id, got) => Keeps(m, n, v, None) && (Gone(m, v, t, id) ==> got == Raised || got == Ok(None))
    case Drop(t, id, raised) => Keeps(m, n, v, None) && (!raised ==> Buried(n, v, t, id))
    case Keys(t, ids) =>
      Keeps(m, n, v, None) && (ids.Ok? ==> forall id :: id in ids.value ==> !Unlisted(m, v, t, id))
  }

  ghost predicate Run(v: View, rings: seq<Ring>, calls: seq<Call>)
  {
    |rings| == |calls| + 1 && forall i :: 0 <= i < |calls| ==> Step(v, rings[i], calls[i], rings[i + 1])
  }

  predicate Puts(c: Call, t: string, id: string)
  {
    c.Put? && c.t == t && c.id == id
  }

  lemma {:induction false} BuriedUntilStored(
    v: View, rings: seq<Ring>, calls: seq<Call>, i: nat, j: nat, t: string, id: string)
    requires Run(v, rings, calls) && i <= j < |rings|
    requires Ordinary(t) && Buried(rings[i], v, t, id)
    requires forall k :: i <= k < j ==> !Puts(calls[k], t, id)
    ensures Buried(rings[j], v, t, id)
    decreases j
  {
    if i < j {
      BuriedUntilStored(v, rings, calls, i, j - 1, t, id);
      assert Step(v, rings[j - 1], calls[j - 1], rings[j]) && !Puts(calls[j - 1], t, id);
    }
  }

  /** Once a delete has returned, no later load returns a value until the key is stored again. */
  lemma NoResurrection(v: View, rings: seq<Ring>, calls: seq<Call>, i: nat, j: nat, t: string, id: string)
    requires Run(v, rings, calls) && i < j < |calls|
    requires Ordinary(t) && calls[i] == Drop(t, id, false)
    requires calls[j].Get? && calls[j].t == t && calls[j].id == id
    requires forall k :: i < k < j ==> !Puts(calls[k], t, id)
    ensures calls[j].got == Raised || calls[j].got == Ok(None)
  {
    assert Step(v, rings[i], calls[i], rings[i + 1]);
    BuriedUntilStored(v, rings, calls, i + 1, j, t, id);
    assert Step(v, rings[j], calls[j], rings[j + 1]);
  }

  /** Nor does any later listing name the key until then. */
  lemma NeverAdvertised(v: View, rings: seq<Ring>, calls: seq<Call>, i: nat, j: nat, t: string, id: string)
    requires Run(v, rings, calls) && i < j < |calls|
    requires Ordinary(t) && calls[i] == Drop(t, id, false)
    requires calls[j].Keys? && calls[j].t == t && calls[j].ids.Ok?
    requires forall k :: i < k < j ==> !Puts(calls[k], t, id)
    ensures id !in calls[j].ids.value
  {
    assert Step(v, rings[i], calls[i], rings[i + 1]);
    BuriedUntilStored(v, rings, calls, i + 1, j, t, id);
    assert Step(v, rings[j], calls[j], rings[j + 1]);
  }

  // -- consistent rings --------------------------------------------------------------------------

  predicate InIndex(m: Ring, service: string, t: string, id: string)
  {
    id in IndexIds(m, service, t)
  }

  /** Entries hold secrets and indexes hold lists that repeat nothing. */
  ghost predicate Kinds(m: Ring)
  {
    && (forall s, t, id :: Entry(s, t, id) in m ==> m[Entry(s, t, id)].Secret?)
    && (forall s, t :: IndexSlot(s, t) in m ==> m[IndexSlot(s, t)].Index? && NoDuplicates(m[IndexSlot(s, t)].ids))
  }

  /** The account's own index names exactly its entries. */
  ghost predicate OwnIndexed(m: Ring, v: View)
  {
    forall t, id :: Entry(v.own, t, id) in m <==> InIndex(m, v.own, t, id)
  }

  /** The legacy index names every legacy entry, and besides those only keys under a tombstone. */
  ghost predicate LegacyIndexedAt(m: Ring, v: View, t: string, id: string)
    requires v.legacy.Some?
  {
    && (Entry(v.legacy.value, t, id) in m ==> InIndex(m, v.legacy.value, t, id))
    && (InIndex(m, v.legacy.value, t, id) ==> Entry(v.legacy.value, t, id) in m || Tombstoned(m, v, t, id))
  }

  ghost predicate LegacyIndexed(m: Ring, v: View)
  {
    v.legacy.Some? ==> forall t, id :: Ordinary(t) ==> LegacyIndexedAt(m, v, t, id)
  }

  ghost predicate Consistent(m: Ring, v: View)
  {
    Separate(v) && Kinds(m) && OwnIndexed(m, v) && LegacyIndexed(m, v)
  }

  // -- whole runs: the two levels are one map ----------------------------------------------------------

  /** What every call is shown to do to the map when only legacy deletes fail. */
  ghost predicate MapStep(v: View, m: Ring, c: Call, n: Ring)
  {
    Consistent(n, v) &&
    match c
    case Put(t, id, data, raised) =>
      !raised && Lookup(n, v, t, id) == Some(data) && LookupsAlike(m, n, v, Some((t, id)))
    case Get(t, id, got) => got == Ok(Lookup(m, v, t, id)) && LookupsAlike(m, n, v, None)
    case Drop(t, id, raised) => !raised && Lookup(n, v, t, id) == None && LookupsAlike(m, n, v, Some((t, id)))
    case Keys(t, ids) =>
      && LookupsAlike(m, n, v, None) && ids.Ok? && NoDuplicates(ids.value)
      && forall id :: id in ids.value <==> Lookup(m, v, t, id).Some?
  }

  type Simple = map<(string, string), seq<byte>>

  /** The simple map after a call. */
  function SimpleAfter(f: Simple, c: Call): Simple
  {
    match c
    case Put(t, id, data, _) => f[(t, id) := data]
    case Drop(t, id, _) => f - {(t, id)}
    case _ => f
  }

  /** What a simple map would have answered. */
  ghost predicate SimpleAnswer(f: Simple, c: Call)
  {
    match c
    case Put(t, id, _, raised) => !raised
    case Get(t, id, got) => got == Ok(if (t, id) in f then Some(f[(t, id)]) else None)
    case Drop(t, id, raised) => !raised
    case Keys(t, ids) => ids.Ok? && NoDuplicates(ids.value) && forall id :: id in ids.value <==> (t, id) in f
  }

  /** The map and the two levels agree on all key material. */
  ghost predicate Agrees(f: Simple, m: Ring, v: View)
  {
    forall t, id :: Ordinary(t) ==> Lookup(m, v, t, id) == if (t, id) in f then Some(f[(t, id)]) else None
  }

  ghost predicate SimpleRun(f: Simple, calls: seq<Call>)
    decreases |calls|
  {
    calls == [] || (SimpleAnswer(f, calls[0]) && SimpleRun(SimpleAfter(f, calls[0]), calls[1..]))
  }

  ghost predicate MapRun(v: View, rings: seq<Ring>, calls: seq<Call>)
  {
    && |rings| == |calls| + 1
    && forall i :: 0 <= i < |calls| ==> Ordinary(calls[i].t) && MapStep(v, rings[i], calls[i], rings[i + 1])
  }

  /** In every run every call answers as one simple map would, promotion and healing and all. */
  lemma {:induction false} RefinesSimpleMap(f: Simple, v: View, rings: seq<Ring>, calls: seq<Call>)
    requires MapRun(v, rings, calls) && Agrees(f, rings[0], v)
    ensures SimpleRun(f, calls)
    decreases |calls|
  {
    if calls != [] {
      var c, m, n := calls[0], rings[0], rings[1];
      assert MapStep(v, m, c, n) && Ordinary(c.t);
      forall t, id | Ordinary(t)
        ensures Lookup(n, v, t, id) == if (t, id) in SimpleAfter(f, c) then Some(SimpleAfter(f, c)[(t, id)]) else None
      {
        assert Lookup(m, v, t, id) == if (t, id) in f then Some(f[(t, id)]) else None;
      }
      RefinesSimpleMap(SimpleAfter(f, c), v, rings[1..], calls[1..]);
    }
  }

  /** What a caller asks for. */
  datatype Request =
    | Storing(t: string, id: string, data: seq<byte>)
    | Loading(t: string, id: string)
    | Deleting(t: string, id: string)
    | Listing(t: string)

  predicate Answers(q: Request, c: Call)
  {
    match q
    case Storing(t, id, data) => c.Put? && c.t == t && c.id == id && c.data == data
    case Loading(t, id) => c.Get? && c.t == t && c.id == id
    case Deleting(t, id) => c.Drop? && c.t == t && c.id == id
    case Listing(t) => c.Keys? && c.t == t
  }

  /** Entries and index membership are alike everywhere but at one key. */
  ghost predicate OnlyDiffersAt(m: Ring, n: Ring, service: string, t: string, id: string)
  {
    forall s, u, j :: (s, u, j) != (service, t, id) ==>
      SameAt(m, n, Entry(s, u, j)) && (InIndex(m, s, u, j) <==> InIndex(n, s, u, j))
  }

  // -- the provider ----------------------------------------------------------------------------------

  class SecureStorage {
    const keyring: Keyring
    const service: string
    const legacyService: Option<string>
    var legacyAdoption: Decision

    constructor (keyring: Keyring, service: string, legacyService: Option<string>)
      ensures this.keyring == keyring && this.service == service && this.legacyService == legacyService
      ensures legacyAdoption == NoLegacy
    {
      this.keyring, this.service, this.legacyService := keyring, service, legacyService;
      legacyAdoption := NoLegacy;
    }

    function TheView(): View
      reads this
    {
      View(service, if legacyAdoption.AllowsReadThrough() then legacyService else None)
    }

    /** Writes are not silently lost. */
    predicate Honest()
    {
      !keyring.faults.LosesWrites()
    }

    /** Nothing fails but deletes in the legacy service, if there is one; without it nothing fails here. */
    predicate OnlyLegacyDeletesFail()
    {
      && keyring.faults.DeletesRaise? && keyring.faults.service != service
      && (legacyService.None? || legacyService == Some(keyring.faults.service))
    }

    /** Nothing fails in either service. */
    predicate NothingFails()
    {
      && keyring.faults.DeletesRaise? && keyring.faults.service != service
      && legacyService != Some(keyring.faults.service)
    }

    // -- keyring primitives ----------------------------------------------------------------------

    method IndexGet(s: string, t: string) returns (r: Result<seq<string>>)
      ensures r.Ok? ==> r.value == IndexIds(keyring.entries, s, t)
      ensures keyring.faults.ReadsSucceed() && Kinds(keyring.entries) ==> r.Ok?
    {
      var raw := keyring.GetPassword(IndexSlot(s, t));
      match raw
      case Missing => return Ok([]);
      case Found(Index(ids)) => return Ok(ids);
      case _ => return Raised;
    }

    method IndexAdd(s: string, t: string, id: string) returns (raised: bool)
      modifies keyring
      ensures keyring.entries == old(keyring.entries) ||
              keyring.entries == WithIndexed(old(keyring.entries), s, t, id)
      ensures !raised && Honest() ==> keyring.entries == WithIndexed(old(keyring.entries), s, t, id)
      ensures keyring.faults.DeletesRaise? && Kinds(old(keyring.entries)) ==> !raised
    {
      var got := IndexGet(s, t);
      if got.Raised? {
        return true;
      }
      raised := keyring.SetPassword(IndexSlot(s, t), Index(IdsWith(got.value, id)));
    }

    method IndexRemove(s: string, t: string, id: string) returns (raised: bool)
      modifies keyring
      ensures keyring.entries == old(keyring.entries) ||
              keyring.entries == WithoutIndexed(old(keyring.entries), s, t, id)
      ensures !raised && Honest() ==> keyring.entries == WithoutIndexed(old(keyring.entries), s, t, id)
      ensures keyring.faults.DeletesRaise? && Kinds(old(keyring.entries)) && s != keyring.faults.service ==> !raised
    {
      var got := IndexGet(s, t);
      if got.Raised? {
        return true;
      }
      var ids := IdsWithout(got.value, id);
      if ids != [] {
        raised := keyring.SetPassword(IndexSlot(s, t), Index(ids));
      } else {
        var deleted := keyring.DeletePassword(IndexSlot(s, t));
        raised := deleted.Refused?;
      }
    }

    /** An entry and its place in the index. Whatever fails, no other entry and no other place changes. */
    method StoreEntry(s: string, t: string, id: string, data: seq<byte>) returns (raised: bool)
      modifies keyring
      ensures OnlyDiffersAt(old(keyring.entries), keyring.entries, s, t, id)
      ensures SameAt(old(keyring.entries), keyring.entries, Entry(s, t, id)) ||
              (Entry(s, t, id) in keyring.entries && keyring.entries[Entry(s, t, id)] == Secret(data))
      ensures !raised && Honest() ==>
                && Entry(s, t, id) in keyring.entries && keyring.entries[Entry(s, t, id)] == Secret(data)
                && InIndex(keyring.entries, s, t, id)
      ensures Kinds(old(keyring.entries)) ==> Kinds(keyring.entries)
      ensures keyring.faults.DeletesRaise? && Kinds(old(keyring.entries)) ==> !raised
    {
      ghost var m := keyring.entries;
      raised := keyring.SetPassword(Entry(s, t, id), Secret(data));
      ghost var n := keyring.entries;
      EntryEffect(m, n, s, t, id, data);
      if raised {
        return;
      }
      raised := IndexAdd(s, t, id);
      WithIndexedEffect(n, s, t, id);
      OnlyDiffersTwice(m, n, keyring.entries, s, t, id);
    }

    method ReadEntry(s: string, t: string, id: string) returns (r: Result<Option<seq<byte>>>)
      ensures r.Ok? && r.value.Some? ==>
                Entry(s, t, id) in keyring.entries && keyring.entries[Entry(s, t, id)] == Secret(r.value.value)
      ensures r == Ok(None) ==> Entry(s, t, id) !in keyring.entries
      ensures keyring.faults.ReadsSucceed() && Kinds(keyring.entries) ==> r.Ok?
    {
      var got := keyring.GetPassword(Entry(s, t, id));
      match got
      case Missing => return Ok(None);
      case Found(Secret(data)) => return Ok(Some(data));
      case _ => return Raised;
    }

    /** An entry and its place in the index removed; one already gone is not an error. */
    method RemoveEntry(s: string, t: string, id: string) returns (raised: bool)
      modifies keyring
      ensures OnlyDiffersAt(old(keyring.entries), keyring.entries, s, t, id)
      ensures SameAt(old(keyring.entries), keyring.entries, Entry(s, t, id)) || Entry(s, t, id) !in keyring.entries
      ensures InIndex(keyring.entries, s, t, id) ==> InIndex(old(keyring.entries), s, t, id)
      ensures !raised ==> Entry(s, t, id) !in keyring.entries
      ensures !raised && Honest() ==> !InIndex(keyring.entries, s, t, id)
      ensures Entry(s, t, id) in keyring.entries ==> keyring.entries == old(keyring.entries)
      ensures Kinds(old(keyring.entries)) ==> Kinds(keyring.entries)
      ensures keyring.faults.DeletesRaise? && Kinds(old(keyring.entries)) && s != keyring.faults.service ==> !raised
    {
      ghost var m := keyring.entries;
      var deleted := keyring.DeletePassword(Entry(s, t, id));
      ghost var n := keyring.entries;
      EntryEffect(m, n, s, t, id, []);
      if deleted.Refused? {
        return true;
      }
      raised := IndexRemove(s, t, id);
      WithoutIndexedEffect(n, s, t, id);
      OnlyDiffersTwice(m, n, keyring.entries, s, t, id);
    }

    // -- the provider interface ----------------------------------------------------------------------

    /** The legacy service to consult for a key type, if any. */
    function ReadThroughService(t: string): Option<string>
      reads this
    {
      if legacyService.None? || !legacyAdoption.AllowsReadThrough() || IsReserved(t) then None else legacyService
    }

    method Store(t: string, id: string, data: seq<byte>) returns (raised: bool)
      requires Nameable(t) && Separate(TheView())
      modifies keyring
      ensures OnlyDiffersAt(old(keyring.entries), keyring.entries, service, t, id)
      ensures Kinds(old(keyring.entries)) ==> Kinds(keyring.entries)
      ensures Honest() && !raised ==> Lookup(keyring.entries, TheView(), t, id) == Some(data)
      ensures !IsReserved(t) ==>
                Step(TheView(), old(keyring.entries), Put(t, id, data, raised), keyring.entries)
      ensures !IsReserved(t) ==> ClaimsKept(old(keyring.entries), keyring.entries)
      ensures !IsReserved(t) && OnlyLegacyDeletesFail() && Consistent(old(keyring.entries), TheView()) ==>
                MapStep(TheView(), old(keyring.entries), Put(t, id, data, raised), keyring.entries)
    {
      ghost var m := keyring.entries;
      raised := StoreEntry(service, t, id, data);
      if IsReserved(t) {
        return;
      }
      GoneAfterStore(m, keyring.entries, TheView(), t, id);
      if OnlyLegacyDeletesFail() && Consistent(m, TheView()) {
        StoredOwn(m, keyring.entries, TheView(), t, id);
      }
    }

    method TombstoneStateOf(t: string, id: string) returns (r: TombstoneState)
      ensures r == TombstoneState.Recorded ==> Tombstoned(keyring.entries, TheView(), t, id)
      ensures r == Absent ==> !Tombstoned(keyring.entries, TheView(), t, id)
      ensures keyring.faults.ReadsSucceed() && Kinds(keyring.entries) ==> r != TombstoneState.Unreadable
    {
      var recorded := ReadEntry(service, TOMBSTONE_KEY_TYPE, TombstoneId(t, id));
      match recorded
      case Raised => return TombstoneState.Unreadable;
      case Ok(Some(_)) => return TombstoneState.Recorded;
      case Ok(None) => return Absent;
    }

    /** Best effort: a tombstone that outlives what it covers has nothing left to hide. */
    method ClearTombstone(t: string, id: string)
      requires Ordinary(t)
      requires TheView().legacy.Some? && Entry(TheView().legacy.value, t, id) !in keyring.entries
      modifies keyring
      ensures StaysGone(old(keyring.entries), keyring.entries, TheView(), None)
      ensures !InIndex(old(keyring.entries), TheView().legacy.value, t, id) ==>
                StaysBuried(old(keyring.entries), keyring.entries, TheView(), None)
      ensures OnlyDiffersAt(old(keyring.entries), keyring.entries, service, TOMBSTONE_KEY_TYPE, TombstoneId(t, id))
      ensures Kinds(old(keyring.entries)) ==> Kinds(keyring.entries)
      ensures NothingFails() && Kinds(old(keyring.entries)) ==> !Tombstoned(keyring.entries, TheView(), t, id)
      ensures OnlyLegacyDeletesFail() && Consistent(old(keyring.entries), TheView())
              && !InIndex(old(keyring.entries), TheView().legacy.value, t, id) ==>
                && Consistent(keyring.entries, TheView())
                && LookupsAlike(old(keyring.entries), keyring.entries, TheView(), None)
    {
      ghost var m := keyring.entries;
      var _ := RemoveEntry(service, TOMBSTONE_KEY_TYPE, TombstoneId(t, id));
      GoneAfterClear(m, keyring.entries, TheView(), t, id);
      if OnlyLegacyDeletesFail() && Consistent(m, TheView()) && !InIndex(m, TheView().legacy.value, t, id) {
        ClearedTombstone(m, keyring.entries, TheView(), t, id);
      }
    }

    /** Best-effort retry of the removal a recorded tombstone stands in for. */
    method RetryTombstonedRemoval(legacy: string, t: string, id: string)
      requires Ordinary(t) && TheView().legacy == Some(legacy) && Separate(TheView())
      requires Tombstoned(keyring.entries, TheView(), t, id) && Entry(service, t, id) !in keyring.entries
      modifies keyring
      ensures StaysGone(old(keyring.entries), keyring.entries, TheView(), None)
      ensures Honest() ==> StaysBuried(old(keyring.entries), keyring.entries, TheView(), None)
      ensures ClaimsKept(old(keyring.entries), keyring.entries)
      ensures InheritanceKept(old(keyring.entries), keyring.entries, TheView())
      ensures NothingFails() && Kinds(old(keyring.entries)) ==>
                Entry(legacy, t, id) !in keyring.entries && !Tombstoned(keyring.entries, TheView(), t, id)
      ensures Kinds(old(keyring.entries)) ==> Kinds(keyring.entries)
      ensures OnlyLegacyDeletesFail() && Consistent(old(keyring.entries), TheView()) ==>
                && Consistent(keyring.entries, TheView())
                && LookupsAlike(old(keyring.entries), keyring.entries, TheView(), None)
    {
      ghost var v, m := TheView(), keyring.entries;
      var raised := RemoveEntry(legacy, t, id);
      ghost var n := keyring.entries;
      GoneAfterRemove(m, n, v, legacy, t, id);
      if OnlyLegacyDeletesFail() && Consistent(m, v) {
        StillCovered(m, n, v, t, id);
      }
      if raised {
        return;
      }
      ClearTombstone(t, id);
      StaysGoneTwice(m, n, keyring.entries, v, None);
    }

    /** One entry, falling through to the adopted legacy store on a miss. */
    method Load(t: string, id: string) returns (r: Result<Option<seq<byte>>>)
      requires Nameable(t) && Separate(TheView())
      modifies keyring
      ensures Honest() ==> Step(TheView(), old(keyring.entries), Get(t, id, r), keyring.entries)
      ensures Kinds(old(keyring.entries)) ==> Kinds(keyring.entries)
      ensures ClaimsKept(old(keyring.entries), keyring.entries)
      ensures InheritanceKept(old(keyring.entries), keyring.entries, TheView())
      ensures IsReserved(t) ==> r == Ok(None) && keyring.entries == old(keyring.entries)
      ensures !IsReserved(t) && r.Ok? && Entry(service, t, id) in old(keyring.entries) ==>
                r.value.Some? && old(keyring.entries)[Entry(service, t, id)] == Secret(r.value.value)
      ensures !IsReserved(t) && NothingFails() && Kinds(old(keyring.entries)) && TheView().legacy.Some?
              && Entry(service, t, id) !in old(keyring.entries)
              && Tombstoned(old(keyring.entries), TheView(), t, id) ==>
                && Entry(TheView().legacy.value, t, id) !in keyring.entries
                && !Tombstoned(keyring.entries, TheView(), t, id)
      ensures !IsReserved(t) && keyring.faults.DeletesRaise? && Kinds(old(keyring.entries)) ==> r.Ok?
      ensures !IsReserved(t) && keyring.faults.DeletesRaise? && Kinds(old(keyring.entries)) && TheView().legacy.Some?
              && Entry(service, t, id) !in old(keyring.entries)
              && !Tombstoned(old(keyring.entries), TheView(), t, id)
              && Entry(TheView().legacy.value, t, id) in old(keyring.entries) ==>
                r.value.Some? && old(keyring.entries)[Entry(TheView().legacy.value, t, id)] == Secret(r.value.value)
      ensures !IsReserved(t) && keyring.faults.DeletesRaise? && Kinds(old(keyring.entries)) && r.value.Some? ==>
                && Entry(service, t, id) in keyring.entries
                && keyring.entries[Entry(service, t, id)] == Secret(r.value.value)
      ensures !IsReserved(t) && r.Ok? && r.value.Some? ==> r.value == Lookup(old(keyring.entries), TheView(), t, id)
      ensures OnlyLegacyDeletesFail() && Consistent(old(keyring.entries), TheView()) && !IsReserved(t) ==>
                MapStep(TheView(), old(keyring.entries), Get(t, id, r), keyring.entries)
    {
      if IsReserved(t) {
        return Ok(None);
      }
      ghost var v, m := TheView(), keyring.entries;
      r := ReadEntry(service, t, id);
      if r.Raised? || r.value.Some? {
        return;
      }
      var legacy := ReadThroughService(t);
      if legacy.None? {
        return Ok(None);
      }
      var tombstone := TombstoneStateOf(t, id);
      if tombstone.SuppressesReadThrough() {
        if tombstone.AllowsRemovalRetry() {
          RetryTombstonedRemoval(legacy.value, t, id);
        }
        return Ok(None);
      }
      r := ReadEntry(legacy.value, t, id);
      if r.Raised? || r.value.None? {
        return;
      }
      var _ := StoreEntry(service, t, id, r.value.value);
      GoneAfterStore(m, keyring.entries, v, t, id);
      if OnlyLegacyDeletesFail() && Consistent(m, v) {
        StoredOwn(m, keyring.entries, v, t, id);
      }
    }

    /**
     * Both copies removed; a legacy copy that will not go is tombstoned instead. Raises only when
     * the promise cannot be kept: the own copy stays, or neither the removal nor the tombstone lands.
     */
    method Delete(t: string, id: string) returns (raised: bool)
      requires Nameable(t) && Separate(TheView())
      modifies keyring
      ensures !raised ==> Entry(service, t, id) !in keyring.entries
      ensures IsReserved(t) ==> OnlyDiffersAt(old(keyring.entries), keyring.entries, service, t, id)
      ensures Kinds(old(keyring.entries)) ==> Kinds(keyring.entries)
      ensures !IsReserved(t) && NothingFails() && Kinds(old(keyring.entries)) ==>
                && !raised
                && (TheView().legacy.Some? ==>
                      && Entry(TheView().legacy.value, t, id) !in keyring.entries
                      && !Tombstoned(keyring.entries, TheView(), t, id))
      ensures !IsReserved(t) && Honest() ==>
                Step(TheView(), old(keyring.entries), Drop(t, id, raised), keyring.entries)
      ensures !IsReserved(t) ==> ClaimsKept(old(keyring.entries), keyring.entries)
      ensures !IsReserved(t) && OnlyLegacyDeletesFail() && Consistent(old(keyring.entries), TheView()) ==>
                MapStep(TheView(), old(keyring.entries), Drop(t, id, raised), keyring.entries)
    {
      ghost var v, m := TheView(), keyring.entries;
      raised := RemoveEntry(service, t, id);
      if IsReserved(t) {
        return;
      }
      ghost var n := keyring.entries;
      GoneAfterRemove(m, n, v, service, t, id);
      if OnlyLegacyDeletesFail() && Consistent(m, v) {
        RemovedOwn(m, n, v, t, id);
      }
      if raised {
        return;
      }
      var legacy := ReadThroughService(t);
      if legacy.None? {
        return;
      }
      raised := DeleteInherited(legacy.value, t, id);
      if Honest() {
        StaysGoneTwice(m, n, keyring.entries, v, None);
      }
    }

    /** The legacy half of a delete. */
    method DeleteInherited(legacy: string, t: string, id: string) returns (raised: bool)
      requires Ordinary(t) && TheView().legacy == Some(legacy) && Separate(TheView())
      requires Entry(service, t, id) !in keyring.entries
      modifies keyring
      ensures Honest() ==> Keeps(old(keyring.entries), keyring.entries, TheView(), None)
      ensures Honest() && !raised ==> Gone(keyring.entries, TheView(), t, id)
      ensures Honest() && !raised && !InIndex(old(keyring.entries), service, t, id) ==>
                Unlisted(keyring.entries, TheView(), t, id)
      ensures Entry(service, t, id) !in keyring.entries
      ensures NothingFails() && Kinds(old(keyring.entries)) ==>
                && !raised && Entry(legacy, t, id) !in keyring.entries
                && !Tombstoned(keyring.entries, TheView(), t, id)
      ensures ClaimsKept(old(keyring.entries), keyring.entries)
      ensures Kinds(old(keyring.entries)) ==> Kinds(keyring.entries)
      ensures OnlyLegacyDeletesFail() && Consistent(old(keyring.entries), TheView()) ==>
                MapStep(TheView(), old(keyring.entries), Drop(t, id, raised), keyring.entries)
    {
      ghost var v, m := TheView(), keyring.entries;
      var failed := RemoveEntry(legacy, t, id);
      ghost var n := keyring.entries;
      GoneAfterRemove(m, n, v, legacy, t, id);
      if failed {
        raised := StoreEntry(service, TOMBSTONE_KEY_TYPE, TombstoneId(t, id), TOMBSTONE_VALUE);
        GoneAfterTombstone(n, keyring.entries, v, t, id);
        StaysGoneTwice(m, n, keyring.entries, v, None);
        if OnlyLegacyDeletesFail() && Consistent(m, v) {
          CoveredByTombstone(m, n, keyring.entries, v, t, id);
        }
      } else {
        if OnlyLegacyDeletesFail() && Consistent(m, v) {
          RemovedLegacy(m, n, v, t, id);
        }
        ClearTombstone(t, id);
        StaysGoneTwice(m, n, keyring.entries, v, None);
        raised := false;
      }
    }

    /** Every id under a key type, own ones first, inherited ones unless a tombstone says otherwise. */
    /** The inherited ids that no tombstone hides, after the own ones. */
    method WithInherited(t: string, own: seq<string>, inherited: seq<string>) returns (keys: seq<string>)
      requires Nameable(t)
      ensures NoDuplicates(own) ==> NoDuplicates(keys)
      ensures forall k :: k in own ==> k in keys
      ensures forall k :: k in keys ==>
                k in own || (k in inherited && !Tombstoned(keyring.entries, TheView(), t, k))
      ensures keyring.faults.ReadsSucceed() && Kinds(keyring.entries) ==>
                forall k :: k in inherited && !Tombstoned(keyring.entries, TheView(), t, k) ==> k in keys
    {
      keys := own;
      for i := 0 to |inherited|
        invariant NoDuplicates(own) ==> NoDuplicates(keys)
        invariant forall k :: k in own ==> k in keys
        invariant forall k :: k in keys ==>
                    k in own || (k in inherited && !Tombstoned(keyring.entries, TheView(), t, k))
        invariant keyring.faults.ReadsSucceed() && Kinds(keyring.entries) ==>
                    forall j :: 0 <= j < i && !Tombstoned(keyring.entries, TheView(), t, inherited[j]) ==>
                      inherited[j] in keys
      {
        var key := inherited[i];
        if key !in keys {
          var tombstone := TombstoneStateOf(t, key);
          if !tombstone.SuppressesReadThrough() {
            keys := keys + [key];
          }
        }
      }
    }

    method ListKeys(t: string) returns (r: Result<seq<string>>)
      requires Nameable(t) && Separate(TheView())
      ensures IsReserved(t) ==> r == Ok([])
      ensures Step(TheView(), keyring.entries, Keys(t, r), keyring.entries)
      ensures !IsReserved(t) && r.Ok? ==> forall id :: InIndex(keyring.entries, service, t, id) ==> id in r.value
      ensures !IsReserved(t) && keyring.faults.DeletesRaise? && Kinds(keyring.entries) && TheView().legacy.Some? ==>
                r.Ok? &&
                forall id :: InIndex(keyring.entries, TheView().legacy.value, t, id) ==>
                  Tombstoned(keyring.entries, TheView(), t, id) || id in r.value
      ensures OnlyLegacyDeletesFail() && Consistent(keyring.entries, TheView()) && !IsReserved(t) ==>
                MapStep(TheView(), keyring.entries, Keys(t, r), keyring.entries)
    {
      if IsReserved(t) {
        return Ok([]);
      }
      r := IndexGet(service, t);
      if r.Raised? {
        return;
      }
      var own := r.value;
      var legacy := ReadThroughService(t);
      if legacy.None? {
        OwnKeys(keyring.entries, TheView(), t, own);
        return;
      }
      var inherited := IndexGet(legacy.value, t);
      if inherited.Raised? {
        return Raised;
      }
      var keys := WithInherited(t, own, inherited.value);
      AllKeys(keyring.entries, TheView(), t, own, inherited.value, keys);
      return Ok(keys);
    }

    // -- whole sequences of calls ----------------------------------------------------------------------

    method Answer(q: Request) returns (c: Call)
      requires Ordinary(q.t) && Separate(TheView())
      modifies keyring
      ensures Answers(q, c)
      ensures Honest() ==> Step(TheView(), old(keyring.entries), c, keyring.entries)
      ensures ClaimsKept(old(keyring.entries), keyring.entries)
      ensures Kinds(old(keyring.entries)) ==> Kinds(keyring.entries)
      ensures OnlyLegacyDeletesFail() && Consistent(old(keyring.entries), TheView()) ==>
                MapStep(TheView(), old(keyring.entries), c, keyring.entries)
    {
      match q
      case Storing(t, id, data) =>
        var raised := Store(t, id, data);
        return Put(t, id, data, raised);
      case Loading(t, id) =>
        var got := Load(t, id);
        return Get(t, id, got);
      case Deleting(t, id) =>
        var raised := Delete(t, id);
        return Drop(t, id, raised);
      case Listing(t) =>
        var ids := ListKeys(t);
        return Keys(t, ids);
    }

    /**
     * Any sequence of calls on a provider, with the keyring as each found it. Under whatever faults it is a
     * run, and when only legacy deletes fail a run of the map.
     */
    method Serve(requests: seq<Request>) returns (calls: seq<Call>, ghost rings: seq<Ring>)
      requires Separate(TheView()) && forall i :: 0 <= i < |requests| ==> Ordinary(requests[i].t)
      modifies keyring
      ensures |calls| == |requests| && forall i :: 0 <= i < |calls| ==> Answers(requests[i], calls[i])
      ensures |rings| == |calls| + 1
      ensures rings[0] == old(keyring.entries) && rings[|calls|] == keyring.entries
      ensures Honest() ==> Run(TheView(), rings, calls)
      ensures OnlyLegacyDeletesFail() && Consistent(old(keyring.entries), TheView()) ==>
                MapRun(TheView(), rings, calls)
    {
      calls, rings := [], [keyring.entries];
      ghost var v := TheView();
      for k := 0 to |requests|
        invariant TheView() == v && |calls| == k && |rings| == k + 1
        invariant rings[0] == old(keyring.entries) && rings[k] == keyring.entries
        invariant forall i :: 0 <= i < k ==> Answers(requests[i], calls[i])
        invariant Honest() ==> Run(v, rings, calls)
        invariant OnlyLegacyDeletesFail() && Consistent(old(keyring.entries), v) ==>
                    MapRun(v, rings, calls) && Consistent(keyring.entries, v)
      {
        var c := Answer(requests[k]);
        calls, rings := calls + [c], rings + [keyring.entries];
      }
    }

    // -- legacy adoption -----------------------------------------------------------------------------

    /** The recorded claim. A read that fails is logged, and to the decision it is an absent claim. */
    method ReadClaim(legacy: string) returns (r: Option<string>, failed: bool)
      ensures r == if failed then None else ClaimOf(keyring.entries, legacy)
      ensures keyring.faults.ReadsSucceed() && Kinds(keyring.entries) ==> !failed
    {
      var raw := ReadEntry(legacy, CLAIM_KEY_TYPE, CLAIM_KEY_ID);
      failed := raw.Raised?;
      match raw
      case Ok(Some(data)) => return Some(ClaimText(data)), failed;
      case _ => return None, failed;
    }

    /**
     * Probe, claim, read back. What went wrong comes out as the ghost result: a read counts as failed when
     * it raised, and a write as landed when the claim it leaves is this account's.
     */
    method ResolveLegacyAdoption(namespace: string) returns (d: Decision, ghost w: Mishaps)
      requires legacyService.Some? && namespace != ""
      modifies keyring
      ensures Launch(ClaimOf(old(keyring.entries), legacyService.value), namespace, w)
           == Launched(ClaimOf(keyring.entries, legacyService.value), d)
      ensures OnlyDiffersAt(old(keyring.entries), keyring.entries, legacyService.value, CLAIM_KEY_TYPE, CLAIM_KEY_ID)
      ensures Kinds(old(keyring.entries)) ==> Kinds(keyring.entries)
      ensures keyring.faults.ReadsSucceed() && Kinds(old(keyring.entries)) ==> !w.probeFails && !w.readBackFails
      ensures keyring.faults.DeletesRaise? && Kinds(old(keyring.entries)) ==> w.write.Landed?
    {
      var legacy := legacyService.value;
      var probe, probeFails := ReadClaim(legacy);
      d := Decide(probe, namespace);
      if d != Adopt {
        w := Mishaps(probeFails, Landed, false);
        return;
      }
      var raised := StoreEntry(legacy, CLAIM_KEY_TYPE, CLAIM_KEY_ID, Utf.Utf8(namespace));
      Utf.Utf8RoundTrip(namespace);
      ghost var fate := FateOf(ClaimOf(keyring.entries, legacy) == Some(namespace), raised);
      if raised {
        w := Mishaps(probeFails, fate, false);
        return ClaimUnverified, w;
      }
      var readBack, readBackFails := ReadClaim(legacy);
      w := Mishaps(probeFails, fate, readBackFails);
      d := ConfirmClaim(readBack, namespace);
    }

    /** A provider for an account, its right to the legacy store resolved once at construction. */
    static method Open(keyring: Keyring, service: string, namespace: Option<string>, adoptLegacyStore: bool)
      returns (r: Result<SecureStorage>, ghost w: Mishaps)
      modifies keyring
      ensures r.Raised? <==> namespace.Some? && !AccountNamespace(namespace.value)
      ensures r.Raised? ==> keyring.entries == old(keyring.entries)
      ensures r.Ok? ==> r.value.keyring == keyring && Separate(r.value.TheView())
      ensures r.Ok? ==> r.value.service == if namespace.Some? then service + ":" + namespace.value else service
      ensures r.Ok? ==>
                (r.value.legacyService.Some? <==> adoptLegacyStore && service == DEFAULT_SERVICE && namespace.Some?)
      ensures r.Ok? && r.value.TheView().legacy.Some? ==>
                && namespace.Some? && r.value.TheView().legacy == Some(LEGACY_SERVICE)
                && ClaimOf(keyring.entries, LEGACY_SERVICE) == namespace
      ensures r.Ok? && r.value.legacyService.Some? ==>
                && r.value.legacyService == Some(LEGACY_SERVICE) && namespace.Some?
                && Launch(ClaimOf(old(keyring.entries), LEGACY_SERVICE), namespace.value, w)
                   == Launched(ClaimOf(keyring.entries, LEGACY_SERVICE), r.value.legacyAdoption)
      ensures r.Ok? && r.value.legacyService.None? ==>
                keyring.entries == old(keyring.entries) && r.value.TheView().legacy.None?
      ensures Kinds(old(keyring.entries)) ==> Kinds(keyring.entries)
      ensures keyring.faults.ReadsSucceed() && Kinds(old(keyring.entries)) ==> !w.probeFails && !w.readBackFails
    {
      w := Mishaps(false, Landed, false);
      if namespace.Some? && !AccountNamespace(namespace.value) {
        return Raised, w;
      }
      var own := if namespace.Some? then service + ":" + namespace.value else service;
      var inherits := adoptLegacyStore && service == DEFAULT_SERVICE && namespace.Some?;
      var legacy := if inherits then Some(LEGACY_SERVICE) else None;
      var provider := new SecureStorage(keyring, own, legacy);
      if legacy.Some? {
        assert own[|LEGACY_SERVICE|] == '-' && |own| > |LEGACY_SERVICE|;
        var decision;
        decision, w := provider.ResolveLegacyAdoption(namespace.value);
        GrantIsRecorded(ClaimOf(old(keyring.entries), LEGACY_SERVICE), namespace.value, w);
        provider.legacyAdoption := decision;
      }
      return Ok(provider), w;
    }
  }

  function FateOf(landed: bool, raised: bool): WriteFate
  {
    if landed then (if raised then LandedButRaised else Landed)
    else (if raised then WriteFate.Refused else SilentlyLost)
  }

  const DEFAULT_SERVICE := "offline-protocol-mls-v2"
  const LEGACY_SERVICE := "offline-protocol-mls"

  /** `account-` and sixty-four lower-case hex digits. */
  predicate AccountNamespace(s: string)
  {
    |s| == 72 && "account-" <= s && forall i :: 8 <= i < 72 ==> '0' <= s[i] <= '9' || 'a' <= s[i] <= 'f'
  }

  /** A claim's bytes as text; bytes that are not UTF-8 are some other account's. */
  function ClaimText(data: seq<byte>): string
  {
    match Utf.Utf8Decode(data)
    case Some(s) => s
    case None => "\U{FFFD}"
  }

  /** The claim recorded in a service. */
  function ClaimOf(m: Ring, service: string): Option<string>
  {
    var k := Entry(service, CLAIM_KEY_TYPE, CLAIM_KEY_ID);
    if k in m && m[k].Secret? then Some(ClaimText(m[k].data)) else None
  }

  // -- what a changed slot changes -------------------------------------------------------------------

  /** The ring with one id more in its index. */
  function WithIndexed(m: Ring, s: string, t: string, id: string): Ring
  {
    m[IndexSlot(s, t) := Index(IdsWith(IndexIds(m, s, t), id))]
  }

  /** The ring with one id out of its index; an empty index is no entry. */
  function WithoutIndexed(m: Ring, s: string, t: string, id: string): Ring
  {
    var ids := IdsWithout(IndexIds(m, s, t), id);
    if ids != [] then m[IndexSlot(s, t) := Index(ids)] else m - {IndexSlot(s, t)}
  }

  lemma KindsIds(m: Ring, s: string, t: string)
    requires Kinds(m)
    ensures NoDuplicates(IndexIds(m, s, t))
  {
  }

  lemma WithIndexedEffect(m: Ring, s: string, t: string, id: string)
    ensures var n := WithIndexed(m, s, t, id);
            && OnlyDiffersAt(m, n, s, t, id) && InIndex(n, s, t, id) && SameAt(m, n, Entry(s, t, id))
            && (Kinds(m) ==> Kinds(n))
  {
    IdsWithContains(IndexIds(m, s, t), id);
    assert IndexIds(WithIndexed(m, s, t, id), s, t) == IdsWith(IndexIds(m, s, t), id);
    if Kinds(m) {
      KindsIds(m, s, t);
    }
  }

  lemma WithoutIndexedEffect(m: Ring, s: string, t: string, id: string)
    ensures var n := WithoutIndexed(m, s, t, id);
            && OnlyDiffersAt(m, n, s, t, id) && !InIndex(n, s, t, id) && SameAt(m, n, Entry(s, t, id))
            && (Kinds(m) ==> Kinds(n))
  {
    var ids := IdsWithout(IndexIds(m, s, t), id);
    IdsWithoutContains(IndexIds(m, s, t), id);
    assert IndexIds(WithoutIndexed(m, s, t, id), s, t) == ids;
    if Kinds(m) {
      KindsIds(m, s, t);
    }
  }

  /** An entry written or removed leaves the indexes and every other entry alone. */
  lemma EntryEffect(m: Ring, n: Ring, s: string, t: string, id: string, data: seq<byte>)
    requires n == m[Entry(s, t, id) := Secret(data)] || n == m - {Entry(s, t, id)} || n == m
    ensures Kinds(m) ==> Kinds(n)
    ensures OnlyDiffersAt(m, n, s, t, id) && (InIndex(m, s, t, id) <==> InIndex(n, s, t, id))
  {
    forall u, j ensures InIndex(m, u, j, id) <==> InIndex(n, u, j, id) {
      assert SameAt(m, n, IndexSlot(u, j));
    }
    forall x, u, j | (x, u, j) != (s, t, id)
      ensures SameAt(m, n, Entry(x, u, j)) && (InIndex(m, x, u, j) <==> InIndex(n, x, u, j))
    {
      assert SameAt(m, n, IndexSlot(x, u));
    }
  }

  lemma OnlyDiffersTwice(m: Ring, n: Ring, o: Ring, s: string, t: string, id: string)
    requires OnlyDiffersAt(m, n, s, t, id) && OnlyDiffersAt(n, o, s, t, id)
    ensures OnlyDiffersAt(m, o, s, t, id)
  {
    forall x, u, j | (x, u, j) != (s, t, id)
      ensures SameAt(m, o, Entry(x, u, j)) && (InIndex(m, x, u, j) <==> InIndex(o, x, u, j))
    {
      assert SameAt(m, n, Entry(x, u, j)) && SameAt(n, o, Entry(x, u, j));
    }
  }

  /** No account's claim on any service has changed. */
  ghost predicate ClaimsKept(m: Ring, n: Ring)
  {
    forall s :: SameAt(m, n, Entry(s, CLAIM_KEY_TYPE, CLAIM_KEY_ID))
  }

  /** Every legacy copy that could still be inherited is still there to inherit. */
  ghost predicate InheritanceKept(m: Ring, n: Ring, v: View)
  {
    v.legacy.Some? ==>
      forall u, j :: Ordinary(u) && !Tombstoned(m, v, u, j) ==> SameAt(m, n, Entry(v.legacy.value, u, j))
  }

  // -- what stays gone -----------------------------------------------------------------------------

  lemma TombstonesApart(t: string, id: string, u: string, j: string)
    requires Ordinary(t) && Ordinary(u)
    ensures TombstoneId(t, id) == TombstoneId(u, j) <==> t == u && id == j
  {
    JoinedNameDivides(t, id, u, j);
  }

  lemma GoneAfterStore(m: Ring, n: Ring, v: View, t: string, id: string)
    requires Ordinary(t) && Separate(v) && OnlyDiffersAt(m, n, v.own, t, id)
    ensures Keeps(m, n, v, Some((t, id)))
  {
  }

  /** Removing key material never brings any back. */
  lemma GoneAfterRemove(m: Ring, n: Ring, v: View, s: string, t: string, id: string)
    requires Ordinary(t) && OnlyDiffersAt(m, n, s, t, id)
    requires SameAt(m, n, Entry(s, t, id)) || Entry(s, t, id) !in n
    requires InIndex(n, s, t, id) ==> InIndex(m, s, t, id)
    ensures Keeps(m, n, v, None)
  {
    forall u, j | Ordinary(u)
      ensures Gone(m, v, u, j) ==> Gone(n, v, u, j)
      ensures Unlisted(m, v, u, j) ==> Unlisted(n, v, u, j)
    {
      assert SameAt(m, n, Entry(v.own, TOMBSTONE_KEY_TYPE, TombstoneId(u, j)));
    }
  }

  lemma GoneAfterTombstone(m: Ring, n: Ring, v: View, t: string, id: string)
    requires OnlyDiffersAt(m, n, v.own, TOMBSTONE_KEY_TYPE, TombstoneId(t, id))
    requires SameAt(m, n, Entry(v.own, TOMBSTONE_KEY_TYPE, TombstoneId(t, id))) || Tombstoned(n, v, t, id)
    ensures Keeps(m, n, v, None)
  {
    forall u, j | Ordinary(u)
      ensures Gone(m, v, u, j) ==> Gone(n, v, u, j)
      ensures Unlisted(m, v, u, j) ==> Unlisted(n, v, u, j)
    {
      assert SameAt(m, n, Entry(v.own, u, j));
      if Tombstoned(m, v, u, j) && TombstoneId(u, j) != TombstoneId(t, id) {
        assert SameAt(m, n, Entry(v.own, TOMBSTONE_KEY_TYPE, TombstoneId(u, j)));
      }
    }
  }

  /** A tombstone may go once the copy it covers has gone, and with it its place in the index. */
  lemma GoneAfterClear(m: Ring, n: Ring, v: View, t: string, id: string)
    requires Ordinary(t) && OnlyDiffersAt(m, n, v.own, TOMBSTONE_KEY_TYPE, TombstoneId(t, id))
    requires v.legacy.None? || Entry(v.legacy.value, t, id) !in m
    ensures StaysGone(m, n, v, None)
    ensures v.legacy.None? || !InIndex(m, v.legacy.value, t, id) ==> StaysBuried(m, n, v, None)
  {
    forall u, j | Ordinary(u)
      ensures Gone(m, v, u, j) ==> Gone(n, v, u, j)
      ensures v.legacy.None? || !InIndex(m, v.legacy.value, t, id) ==>
                (Unlisted(m, v, u, j) ==> Unlisted(n, v, u, j))
    {
      assert SameAt(m, n, Entry(v.own, u, j));
      if (u, j) != (t, id) && v.legacy.Some? {
        TombstonesApart(t, id, u, j);
        assert SameAt(m, n, Entry(v.own, TOMBSTONE_KEY_TYPE, TombstoneId(u, j)));
      }
    }
  }

  lemma StaysGoneTwice(m: Ring, n: Ring, o: Ring, v: View, stored: Option<(string, string)>)
    requires StaysGone(m, n, v, None) && StaysGone(n, o, v, stored)
    ensures StaysGone(m, o, v, stored)
    ensures StaysBuried(m, n, v, None) && StaysBuried(n, o, v, stored) ==> StaysBuried(m, o, v, stored)
  {
  }

  // -- what stays the same map -------------------------------------------------------------------------

  ghost predicate LookupsAlike(m: Ring, n: Ring, v: View, but: Option<(string, string)>)
  {
    forall u, j :: Ordinary(u) && but != Some((u, j)) ==> Lookup(m, v, u, j) == Lookup(n, v, u, j)
  }

  lemma StoredOwn(m: Ring, n: Ring, v: View, t: string, id: string)
    requires Ordinary(t) && Consistent(m, v) && Kinds(n) && OnlyDiffersAt(m, n, v.own, t, id)
    requires Entry(v.own, t, id) in n && InIndex(n, v.own, t, id)
    ensures Consistent(n, v) && LookupsAlike(m, n, v, Some((t, id)))
  {
    forall u, j | v.legacy.Some? && Ordinary(u) ensures LegacyIndexedAt(n, v, u, j) {
      assert LegacyIndexedAt(m, v, u, j);
    }
  }

  lemma RemovedOwn(m: Ring, n: Ring, v: View, t: string, id: string)
    requires Ordinary(t) && Consistent(m, v) && Kinds(n) && OnlyDiffersAt(m, n, v.own, t, id)
    requires Entry(v.own, t, id) !in n && !InIndex(n, v.own, t, id)
    ensures Consistent(n, v) && LookupsAlike(m, n, v, Some((t, id)))
  {
    forall u, j | v.legacy.Some? && Ordinary(u) ensures LegacyIndexedAt(n, v, u, j) {
      assert LegacyIndexedAt(m, v, u, j);
    }
  }

  lemma RemovedLegacy(m: Ring, n: Ring, v: View, t: string, id: string)
    requires Ordinary(t) && Consistent(m, v) && v.legacy.Some? && Kinds(n) && OnlyDiffersAt(m, n, v.legacy.value, t, id)
    requires Entry(v.legacy.value, t, id) !in n && !InIndex(n, v.legacy.value, t, id)
    ensures Consistent(n, v) && LookupsAlike(m, n, v, Some((t, id)))
  {
    forall u, j | Ordinary(u) ensures LegacyIndexedAt(n, v, u, j) {
      assert LegacyIndexedAt(m, v, u, j);
    }
  }

  /** A tombstone goes with the copy it covered and that copy's place in the index. */
  lemma ClearedTombstone(m: Ring, n: Ring, v: View, t: string, id: string)
    requires Ordinary(t) && Consistent(m, v) && v.legacy.Some? && Kinds(n)
    requires OnlyDiffersAt(m, n, v.own, TOMBSTONE_KEY_TYPE, TombstoneId(t, id))
    requires Entry(v.own, TOMBSTONE_KEY_TYPE, TombstoneId(t, id)) !in n
    requires !InIndex(n, v.own, TOMBSTONE_KEY_TYPE, TombstoneId(t, id))
    requires Entry(v.legacy.value, t, id) !in m && !InIndex(m, v.legacy.value, t, id)
    ensures Consistent(n, v) && LookupsAlike(m, n, v, None)
  {
    forall u, j | Ordinary(u) ensures LegacyIndexedAt(n, v, u, j) && Lookup(m, v, u, j) == Lookup(n, v, u, j) {
      assert LegacyIndexedAt(m, v, u, j);
      TombstonesApart(t, id, u, j);
      assert SameAt(m, n, Entry(v.own, u, j)) && SameAt(m, n, Entry(v.legacy.value, u, j));
    }
  }

  /** A legacy copy that would not go, in whole or in part, is covered by a tombstone. */
  lemma CoveredByTombstone(m: Ring, n: Ring, o: Ring, v: View, t: string, id: string)
    requires Ordinary(t) && Consistent(m, v) && v.legacy.Some? && Kinds(n) && Kinds(o)
    requires OnlyDiffersAt(m, n, v.legacy.value, t, id) && (Entry(v.legacy.value, t, id) in n ==> n == m)
    requires OnlyDiffersAt(n, o, v.own, TOMBSTONE_KEY_TYPE, TombstoneId(t, id))
    requires Tombstoned(o, v, t, id) && InIndex(o, v.own, TOMBSTONE_KEY_TYPE, TombstoneId(t, id))
    ensures Consistent(o, v) && LookupsAlike(m, o, v, Some((t, id)))
  {
    forall u, j | Ordinary(u)
      ensures LegacyIndexedAt(o, v, u, j) && ((u, j) != (t, id) ==> Lookup(m, v, u, j) == Lookup(o, v, u, j))
    {
      assert LegacyIndexedAt(m, v, u, j);
      TombstonesApart(t, id, u, j);
      assert SameAt(n, o, Entry(v.own, u, j)) && SameAt(n, o, Entry(v.legacy.value, u, j));
      if (u, j) != (t, id) {
        assert SameAt(m, n, Entry(v.own, u, j)) && SameAt(m, n, Entry(v.legacy.value, u, j));
      }
    }
    forall u, j ensures Entry(v.own, u, j) in o <==> InIndex(o, v.own, u, j) {
      assert SameAt(m, n, Entry(v.own, u, j));
    }
  }

  /** A retry that fails again leaves the tombstone to cover what is left. */
  lemma StillCovered(m: Ring, n: Ring, v: View, t: string, id: string)
    requires Ordinary(t) && Consistent(m, v) && v.legacy.Some? && Kinds(n) && Tombstoned(m, v, t, id)
    requires OnlyDiffersAt(m, n, v.legacy.value, t, id) && (Entry(v.legacy.value, t, id) in n ==> n == m)
    requires Entry(v.own, t, id) !in m
    ensures Consistent(n, v) && LookupsAlike(m, n, v, None)
  {
    forall u, j | Ordinary(u) ensures LegacyIndexedAt(n, v, u, j) && Lookup(m, v, u, j) == Lookup(n, v, u, j) {
      assert LegacyIndexedAt(m, v, u, j);
      assert SameAt(m, n, Entry(v.own, u, j));
      assert SameAt(m, n, Entry(v.own, TOMBSTONE_KEY_TYPE, TombstoneId(u, j)));
    }
  }

  // -- listing ---------------------------------------------------------------------------------------

  lemma OwnKeys(m: Ring, v: View, t: string, own: seq<string>)
    requires v.legacy.None? && own == IndexIds(m, v.own, t)
    ensures Consistent(m, v) ==> NoDuplicates(own) && forall id :: id in own <==> Lookup(m, v, t, id).Some?
  {
    if Consistent(m, v) {
      forall id ensures id in own <==> Lookup(m, v, t, id).Some? {
        assert Entry(v.own, t, id) in m <==> InIndex(m, v.own, t, id);
      }
    }
  }

  lemma AllKeys(m: Ring, v: View, t: string, own: seq<string>, inherited: seq<string>, keys: seq<string>)
    requires v.legacy.Some? && Ordinary(t)
    requires own == IndexIds(m, v.own, t) && inherited == IndexIds(m, v.legacy.value, t)
    ensures
      Consistent(m, v) && (NoDuplicates(own) ==> NoDuplicates(keys)) && (forall k :: k in own ==> k in keys) &&
      (forall k :: k in keys ==> k in own || (k in inherited && !Tombstoned(m, v, t, k))) &&
      (forall k :: k in inherited && !Tombstoned(m, v, t, k) ==> k in keys)
      ==>
      NoDuplicates(keys) && forall id :: id in keys <==> Lookup(m, v, t, id).Some?
  {
    if Consistent(m, v) && (forall k :: k in own ==> k in keys) &&
       (forall k :: k in keys ==> k in own || (k in inherited && !Tombstoned(m, v, t, k))) &&
       (forall k :: k in inherited && !Tombstoned(m, v, t, k) ==> k in keys)
    {
      forall id ensures id in keys <==> Lookup(m, v, t, id).Some? {
        assert Entry(v.own, t, id) in m <==> InIndex(m, v.own, t, id);
        assert LegacyIndexedAt(m, v, t, id);
      }
    }
  }

  // -- all accounts of a device --------------------------------------------------------------------------

  /** A provider is opened, or one that was opened earlier is asked for something. */
  datatype Demand =
    | Opening(service: string, namespace: Option<string>, adoptLegacyStore: bool)
    | Asking(provider: nat, request: Request)

  /** What an opening means for the claim on the legacy store: a launch, when the account may inherit at all. */
  function LaunchOf(result: Result<SecureStorage>, namespace: Option<string>, w: Mishaps): Adoption.Event
  {
    if result.Ok? && result.value.legacyService.Some? && namespace.Some? then Launching(namespace.value, w) else Other
  }

  /**
   * Any number of providers opened on one keyring and used in any order. The namespaces that end up reading
   * through to the legacy store are those the run of launches grants it to. They are at most one when no
   * launch's first read failed, as none does when the keyring's reads succeed.
   */
  method Device(keyring: Keyring, demands: seq<Demand>)
    returns (granted: set<string>, ghost run: seq<Adoption.Event>)
    requires forall i :: 0 <= i < |demands| && demands[i].Asking? ==> Ordinary(demands[i].request.t)
    modifies keyring
    ensures |run| == |demands|
    ensures granted == Granted(ClaimOf(old(keyring.entries), LEGACY_SERVICE), run)
    ensures ClaimOf(keyring.entries, LEGACY_SERVICE) ==
              ClaimAfterAll(ClaimOf(old(keyring.entries), LEGACY_SERVICE), run)
    ensures Proper(run) ==> forall a, b :: a in granted && b in granted ==> a == b
    ensures keyring.faults.ReadsSucceed() && Kinds(old(keyring.entries)) ==> Proper(run)
  {
    granted, run := {}, [];
    var providers: seq<SecureStorage> := [];
    ghost var claim := ClaimOf(keyring.entries, LEGACY_SERVICE);
    for k := 0 to |demands|
      invariant |run| == k && granted == Granted(claim, run)
      invariant ClaimOf(keyring.entries, LEGACY_SERVICE) == ClaimAfterAll(claim, run)
      invariant forall p :: p in providers ==> p.keyring == keyring && Separate(p.TheView())
      invariant keyring.faults.ReadsSucceed() && Kinds(old(keyring.entries)) ==> Kinds(keyring.entries) && Proper(run)
    {
      match demands[k]
      case Opening(service, namespace, adopt) =>
        var result, w := SecureStorage.Open(keyring, service, namespace, adopt);
        GrantedSnoc(claim, run, LaunchOf(result, namespace, w));
        run := run + [LaunchOf(result, namespace, w)];
        if result.Ok? {
          providers := providers + [result.value];
          if result.value.TheView().legacy.Some? {
            granted := granted + {namespace.value};
          }
        }
      case Asking(provider, request) =>
        GrantedSnoc(claim, run, Other);
        run := run + [Other];
        if provider < |providers| {
          var _ := providers[provider].Answer(request);
        }
    }
    if Proper(run) {
      forall a, b | a in granted && b in granted ensures a == b {
        AtMostOneInherits(claim, run, a, b);
      }
    }
  }
}
