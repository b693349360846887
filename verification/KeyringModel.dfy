/** A credential store whose calls may fail, and the names the provider gives its entries. */
module KeyringModel {
  import opened Basics

  // -- names -----------------------------------------------------------------------------------

  /** An entry of key material, or the index of one key type's ids. */
  datatype Account = EntryKey(keyType: string, keyId: string) | IndexKey(keyType: string)

  /** The name under which an account is kept. */
  function Rendered(a: Account): string
  {
    match a
    case EntryKey(t, id) => t + ":" + id
    case IndexKey(t) => "index:" + t
  }

  /** Key types with which no two accounts share a name. */
  predicate Nameable(keyType: string)
  {
    ':' !in keyType && keyType != "index"
  }

  /** Joined like an account name. */
  function TombstoneId(keyType: string, keyId: string): string
  {
    keyType + ":" + keyId
  }

  /** The text before the first colon decides where a joined name divides. */
  lemma JoinedNameDivides(t: string, id: string, u: string, jd: string)
    requires ':' !in t && ':' !in u
    ensures t + ":" + id == u + ":" + jd <==> t == u && id == jd
  {
    var x, y := t + ":" + id, u + ":" + jd;
    if x == y {
      assert x[|t|] == ':' && y[|u|] == ':';
      assert |t| == |u|;
      assert t == x[..|t|] && u == y[..|u|];
      assert id == x[|t| + 1..] && jd == y[|u| + 1..];
    }
  }

  /** Accounts of nameable types are told apart by their names. */
  lemma NamesAreDistinct(a: Account, b: Account)
    requires Nameable(a.keyType) && Nameable(b.keyType)
    ensures Rendered(a) == Rendered(b) <==> a == b
  {
    assert "index:" == "index" + ":";
    match (a, b)
    case (EntryKey(t, id), EntryKey(u, jd)) => JoinedNameDivides(t, id, u, jd);
    case (EntryKey(t, id), IndexKey(u)) => JoinedNameDivides(t, id, "index", u);
    case (IndexKey(t), EntryKey(u, jd)) => JoinedNameDivides("index", t, u, jd);
    case (IndexKey(t), IndexKey(u)) => JoinedNameDivides("index", t, "index", u);
  }

  /** Every other key type shares each of its names with some other account. */
  lemma OtherNamesAreShared(t: string, id: string) returns (b: Account)
    requires !Nameable(t)
    ensures b != EntryKey(t, id) && Rendered(b) == Rendered(EntryKey(t, id))
  {
    if t == "index" {
      b := IndexKey(id);
    } else {
      var i :| 0 <= i < |t| && t[i] == ':';
      b := EntryKey(t[..i], t[i + 1..] + ":" + id);
      assert t == t[..i] + ":" + t[i + 1..];
      assert |t[..i]| < |t|;
    }
  }

  // -- contents ----------------------------------------------------------------------------------

  datatype Stored = Secret(data: seq<byte>) | Index(ids: seq<string>)

  type Slot = (string, Account)

  type Ring = map<Slot, Stored>

  function Entry(service: string, t: string, id: string): Slot
  {
    (service, EntryKey(t, id))
  }

  function IndexSlot(service: string, t: string): Slot
  {
    (service, IndexKey(t))
  }

  /** The two rings agree on a slot. */
  predicate SameAt(m: Ring, n: Ring, k: Slot)
  {
    (k in m <==> k in n) && (k in m ==> m[k] == n[k])
  }

  // -- the keyring -------------------------------------------------------------------------------

  /** Which calls may fail, and how. */
  datatype Faults =
    /** Any call may raise, and a raising write or delete may or may not have taken effect. */
    | AnyCallRaises
    /** Only deletes in one service raise, with or without effect. */
    | DeletesRaise(service: string)
    /** Any call may raise as above, and a write may also be lost without raising. */
    | WritesGetLost
    /** Writes and deletes fail in all those ways; reads succeed. */
    | OnlyReadsSucceed
  {
    predicate LosesWrites()
    {
      WritesGetLost? || OnlyReadsSucceed?
    }

    predicate ReadsSucceed()
    {
      DeletesRaise? || OnlyReadsSucceed?
    }
  }

  datatype Fetched = Found(value: Stored) | Missing | Unreadable

  datatype Deletion = Deleted | NotThere | Refused

  class Keyring {
    const faults: Faults
    var entries: Ring

    constructor (faults: Faults, entries: Ring)
      ensures this.faults == faults && this.entries == entries
    {
      this.faults, this.entries := faults, entries;
    }

    method SetPassword(k: Slot, value: Stored) returns (raised: bool)
      modifies this
      ensures entries == old(entries) || entries == old(entries)[k := value]
      ensures !raised && !faults.LosesWrites() ==> entries == old(entries)[k := value]
      ensures faults.DeletesRaise? ==> !raised
    {
      raised := *;
      if faults.DeletesRaise? {
        raised := false;
      }
      var lands: bool := *;
      if lands || (!raised && !faults.LosesWrites()) {
        entries := entries[k := value];
      }
    }

    method GetPassword(k: Slot) returns (r: Fetched)
      ensures r.Unreadable? || r == if k in entries then Found(entries[k]) else Missing
      ensures faults.ReadsSucceed() ==> !r.Unreadable?
    {
      var raises: bool := *;
      if raises && !faults.ReadsSucceed() {
        return Unreadable;
      }
      return if k in entries then Found(entries[k]) else Missing;
    }

    method DeletePassword(k: Slot) returns (r: Deletion)
      modifies this
      ensures entries == old(entries) || entries == old(entries) - {k}
      ensures !r.Refused? ==> entries == old(entries) - {k}
      ensures faults.DeletesRaise? && k.0 != faults.service ==> !r.Refused?
    {
      var raises: bool := *;
      if raises && !(faults.DeletesRaise? && k.0 != faults.service) {
        var lands: bool := *;
        if lands {
          entries := entries - {k};
        }
        return Refused;
      }
      if k !in entries {
        assert entries - {k} == entries;
        return NotThere;
      }
      entries := entries - {k};
      return Deleted;
    }
  }
}
