# Offline Protocol SDK: a verified model

The Offline Protocol SDK carries messages over whatever link is at hand. This project models, in Dafny, the parts
of it where a mistake would be silent, and proves what they promise.

* **The codec** (`tools/spec-vectors/generate.py`): varints and zigzag, the 0xF5 frame with its split base64 tail
  and sorted metadata, bech32m addresses, session slots, and the payloads that are signed.
  Modules `Varint`, `Bits`, `ConvertBits`, `Base64`, `Utf`, `Ordering`, `WireFrame`, `Messages`,
  `FrameReading`, `Bech32`, `Addresses`, `SigningPayloads`.
* **The secure store** (`secure_storage.py`, `legacy_store_adoption.py`): a namespaced keyring store that reads
  through to a legacy one, with tombstones for deletes that fail and a claim that lets one account inherit.
  Modules `KeyringModel`, `SecureStore`, `Adoption`.
* **The gateway client** (`gateway_manager.py`, `gateway_verdict_tracker.py`, `gateway_attach_policy.py`): session
  generations, the attach handshake, verdicts on submitted frames, the reconnect ladder.
  Modules `GatewayTrace`, `AttachPolicy`, `VerdictTracker`, `GatewaySession`, `GatewayInvariant`,
  `GatewayRuns`, `GatewayOrigins`, `GatewayEffects`, `GatewayManager`.
* **Two trackers and a record format**: ids in flight per recipient (`internet_manager.py`, module `InFlight`), the
  presence watch rotation (`presence_watch_policy.py`, module `PresenceWatch`), DNS-SD TXT records
  (`dnssd_bridge.py`, module `DnsSd`).

Code that works in place is modelled by classes and loops, proved against functions on values. The laws are lemmas
about those functions, over all inputs and all runs, and methods that play any sequence of calls on the objects
(`Serve`, `Device`, `Schedule`, `Replay`) tie the runs to the classes. The gateway client runs on one event loop, so
its model is a state machine whose steps are the stretches of code between two suspension points.
`GatewaySession.Run` takes steps in any order their guards admit, `GatewayManager.Schedule` shows that the class does
the same, and every nondeterministic outcome (a socket that takes bytes or not, a core call that raises, the clock) is
a parameter of a step. A keyring call may raise at any point, and one that raises may or may not have taken effect;
that nothing deleted comes back or is listed holds for all such choices, that the store is one simple map for all
failures of legacy deletes.

## Where the code does not do what is said of it

* `split_b64_tail` scans over `=` padding and puts it back into the tail, which reads as if padded base64 were carried
  as raw bytes. Its alignment counts the symbols before the padding only, so a padded tail never has the length of an
  encoding and content that ends in `=` is never split. `Base64.SplitB64Tail` states exactly what is split; nothing is
  lost, since content that is not split travels whole, and where the split falls is not normative.
* `session_id` is symmetric on rendered addresses. On other strings it is not: `Addresses.SlotDependsOnOrder` gives, for
  every address, another string that carries its hash and with which the slot depends on the order, and
  `Addresses.SessionIdSymmetricExactly` is the exact condition for all strings.
* At most one account inherits the legacy store only while every launch manages its first read of the claim. A first
  read that fails is taken for an unclaimed store: `Adoption.ClaimOverwrittenExactly` and
  `Adoption.FailedProbeBreaksExclusivity`.
* A TXT record with an empty service id is accepted for publishing and ignored when read: `DnsSd.EmptyIdIsPublished`;
  `DnsSd.TxtRoundTrip` is the exact condition.
* Keyring names join a key type and an id with a colon. They identify an entry exactly for key types without a colon
  and other than `index`: `KeyringModel.NamesAreDistinct`, `KeyringModel.OtherNamesAreShared`.
* A gateway write that outlives its session still moves the count of consecutive failures, which by then belongs to
  the next session: `GatewayRuns.StaleWritesAreInert` says that this is all it moves.

## Model

| member | source | states |
|---|---|---|
| Varint.Varint | tools/spec-vectors/generate.py:46-58 | the encoding loop raises exactly on a negative value and otherwise yields the seven-bit groups, least significant first |
| Varint.VarintDigits | tools/spec-vectors/generate.py:46-58 | byte i holds bits 7i to 7i+6 of the value, and its high bit is set on every byte but the last |
| Varint.ReadVarintInverts | tools/spec-vectors/generate.py:46-58 | from a varint followed by anything, an independent reader recovers the value and what followed: self-delimiting and invertible, for every natural number |
| Varint.VarintIsCanonical | tools/spec-vectors/generate.py:46-58 | conversely, every varint written without a redundant group is the encoder's own output |
| Varint.VarintU64Length | tools/spec-vectors/generate.py:72-75 | every u64 fits ten bytes |
| Varint.ZigZag | tools/spec-vectors/generate.py:61-65 | the shift-and-xor form raises exactly outside i64 and equals the arithmetic definition of zigzag |
| Varint.ZigZagBijection | tools/spec-vectors/generate.py:61-65 | zigzag is a bijection between i64 and u64, both directions |
| WireFrame.OptInverts | tools/spec-vectors/generate.py:96-97 | an optional field is read back, present or absent, with whatever follows |
| WireFrame.SeqInverts | tools/spec-vectors/generate.py:100-101 | a counted sequence is read back element by element, with whatever follows |
| WireFrame.FrameInverts | tools/spec-vectors/generate.py:200-249 | from the bytes of a frame with sixteen-byte ids followed by any suffix every field and the suffix are recovered |
| WireFrame.IdsOfAnyLengthAreAmbiguous | tools/spec-vectors/generate.py:200-249 | why sixteen: an id carries no length, so for every id the one a byte longer before a shorter sender gives the same bytes |
| Messages.ContentDetermined | tools/spec-vectors/generate.py:252-300 | content head and tag-1 extension together determine the whole content, next to an optional tag-2 reply context |
| Messages.MetadataOrderForgotten | tools/spec-vectors/generate.py:265-267 | sorting by UTF-8 key forgets the insertion order of the metadata |
| Messages.EncodeFrameIsExact | tools/spec-vectors/generate.py:252-300 | two encodings with suffixes are the same bytes if and only if the messages agree in every field, metadata as a map, and the suffixes agree: injective, prefix-free, independent of metadata order |
| Messages.EncodeFrameRaises | tools/spec-vectors/generate.py:252-300 | the fields are encoded one by one in wire order, each raising on its own; the whole raises exactly when an id is not sixteen bytes or a number is outside its width, and else is the layout of the message's frame |
| FrameReading.WireOrder | tools/spec-vectors/generate.py:252-300 | the bytes are the magic byte and then the message's own fields, each encoded on its own, in the order of the format: id, sender, recipient, application, and so on to the extensions |
| FrameReading.CodesInOrder | tools/spec-vectors/generate.py:110-122 | priorities are numbered 0 to 3 from low to critical and content types 0 to 8, each in its order |
| FrameReading.ReadsBack | tools/spec-vectors/generate.py:252-300 | a reader of the format finds in the bytes of a message, whatever follows them, the message's own sender, recipient and every other field, its metadata sorted, each key once with its value, and head and base64 of the tag-1 extension make its content; what follows is left over |
| Base64.EncodeLength | tools/spec-vectors/generate.py:143-146 | an encoding always has whole quads |
| Base64.SymbolsAreTheAlphabet | tools/spec-vectors/generate.py:143-146 | the 64 values are spelled by the standard alphabet in its order |
| Base64.EncodeOfOctets | tools/spec-vectors/generate.py:143-146 | whole quads of alphabet characters decode to octets that encode back to them |
| Base64.ScanTail | tools/spec-vectors/generate.py:165-182 | the two backward scans find the end of the alphabet run and, without padding, the whole of it |
| Base64.SplitB64Tail | tools/spec-vectors/generate.py:149-197 | the split with its scans and re-encoding check equals: cut off the longest run of whole alphabet quads when it has 64 characters or more; content ending in `=` is never split |
| Base64.PaddedTailIsNotAnEncoding | tools/spec-vectors/generate.py:149-197 | why: symbols counted in whole quads and then padding never have the length of an encoding |
| Base64.SplitRebuilds | tools/spec-vectors/generate.py:149-197 | re-encoding the tail behind the head gives the content back |
| Utf.Utf8OrderIsScalarOrder | tools/spec-vectors/generate.py:303-310 | byte order of UTF-8 is scalar-value order, for all strings |
| Utf.Utf8Injective | tools/spec-vectors/generate.py:92-93 | no two strings share an encoding |
| Utf.Utf8RoundTrip | bindings/python/offline_protocol_sdk/dnssd_bridge.py:197-202 | a strict decoder recovers every string from its encoding |
| Utf.OrdersDiffer | tools/spec-vectors/generate.py:312-320 | UTF-8 and UTF-16 order a pair differently if and only if at the first difference one scalar is above U+FFFF and the other in U+E000..U+FFFF |
| Utf.SurrogatePair | tools/spec-vectors/generate.py:319-321 | a scalar above U+FFFF is a lead and a trail surrogate with ten bits each of what it exceeds U+FFFF by, any other its own code unit |
| Utf.GuardIsExact | tools/spec-vectors/generate.py:323-338 | the guard accepts a key set if and only if it holds such a pair |
| Ordering.SortedIsSort | tools/spec-vectors/generate.py:265-267 | the sort is an ordered permutation |
| Ordering.SortIsUnique | tools/spec-vectors/generate.py:265-267 | with injective keys there is only one ordered permutation |
| ConvertBits.Convert | tools/spec-vectors/generate.py:375-394 | the accumulator loop with its truncating mask equals cutting the spelled bit string into groups, padded or, unpadded, refused unless the leftover is a short run of zeros; out-of-range values are refused |
| ConvertBits.PadThenUnpad | tools/spec-vectors/generate.py:375-394 | every byte string comes back from its padded regrouping (all widths, wider to narrower) |
| ConvertBits.UnpadThenPad | tools/spec-vectors/generate.py:375-394 | whatever the unpadded direction accepts is exactly the padded regrouping of what it yields (all widths) |
| Bits.CutIsUnique | tools/spec-vectors/generate.py:375-394 | one sequence of groups and one leftover spell a given bit string |
| Bech32.Polymod | tools/spec-vectors/generate.py:349-357 | the nested loops compute the fold of the step map, and keep what of the last value lies above the register |
| Bech32.HrpHalves | tools/spec-vectors/generate.py:360-361 | the expansion is the upper three bits of each character, a zero, then the lower five bits of each |
| Bech32.MixIn | tools/spec-vectors/generate.py:354-356 | the generator loop mixes in the generators the top bits select |
| Bech32.StepInjective | tools/spec-vectors/generate.py:349-357 | no step merges two registers |
| Bech32.FoldSymbols | tools/spec-vectors/generate.py:349-357 | up to six symbols reach the register as they stand on top of what as many zeros leave |
| Bech32.ChecksumIsSixSymbols | tools/spec-vectors/generate.py:364-367 | a checksum is six five-bit symbols |
| Bech32.ChecksumVerifies | tools/spec-vectors/generate.py:360-367 | for every human-readable part and data of any length the checksummed whole has the BIP-350 constant |
| Bech32.BurstErrorDetected | tools/spec-vectors/generate.py:349-357 | any change confined to six consecutive symbols changes the polymod |
| Bech32.SingleErrorDetected | tools/spec-vectors/generate.py:349-367 | changing one data or checksum symbol breaks the checksum |
| Addresses.AddressRoundTrip | tools/spec-vectors/generate.py:406-423 | exactly the 20-byte hashes render; a rendering has 44 characters, its data part regroups to the version byte 1 and the hash, and reading it gives the hash back |
| Addresses.AddressDetermines | tools/spec-vectors/generate.py:406-410 | two hashes render alike exactly when they are equal |
| Addresses.SessionIdIsUnorderedPair | tools/spec-vectors/generate.py:426-429 | two pairs of addresses share a session slot if and only if they are the same pair in either order |
| Addresses.SessionIdSymmetricExactly | tools/spec-vectors/generate.py:426-429 | for any two strings the slot is symmetric if and only if a hash cannot be read, the hashes differ, or the strings, each with a colon behind it, are powers of one string |
| Addresses.CommuteExactly | tools/spec-vectors/generate.py:426-429 | two strings read the same joined in either order if and only if they are powers of one string |
| Addresses.RootWithoutColons | tools/spec-vectors/generate.py:426-429 | for strings without colons that last condition is equality |
| Addresses.SlotDependsOnOrder | tools/spec-vectors/generate.py:419-429 | the failing family: every address and the same string with its last character replaced carry one hash and give slots that depend on their order |
| SigningPayloads.CanonicalPayload | tools/spec-vectors/generate.py:442-449 | the field loop raises exactly when a field does not fit a four-byte length, and else yields the domain and the length-prefixed fields |
| SigningPayloads.FourBytes | tools/spec-vectors/generate.py:442-449 | a length is written most significant byte first |
| SigningPayloads.PayloadDeterminesFields | tools/spec-vectors/generate.py:442-449 | under one domain a payload determines its fields, however many |
| SigningPayloads.ProofDetermines | tools/spec-vectors/generate.py:452-461 | an address proof determines the address and the challenge |
| SigningPayloads.ProofReadsBack | tools/spec-vectors/generate.py:452-461 | it raises exactly when the address does not fit a length; after the domain a reader finds the address as a field, then the challenge raw and nothing more |
| SigningPayloads.RelayProofIsAddressProof | bindings/python/offline_protocol_sdk/address_declaration.py:171-189 | the relay client's own builder lays out the same bytes |
| SigningPayloads.DomainsSeparate | tools/spec-vectors/generate.py:1134-1141 | nothing signed under one live domain is ever the bytes signed under another, whatever follows either |
| SigningPayloads.CtrlV1Determines | tools/spec-vectors/generate.py:464-473 | a v1 control payload determines its four fields |
| SigningPayloads.CtrlV1ReadsBack | tools/spec-vectors/generate.py:464-473 | after the v1 domain a reader finds sender, message id, recipient and content, in that order |
| SigningPayloads.CtrlV2Determines | tools/spec-vectors/generate.py:476-488 | a v2 control payload determines its fields and its signed timestamp |
| SigningPayloads.CtrlV2ReadsBack | tools/spec-vectors/generate.py:476-488 | after the v2 domain a reader finds the same four fields and then the timestamp, eight bytes in two's complement |
| SigningPayloads.V1NeverV2 | tools/spec-vectors/generate.py:1144-1150 | a v1 payload with a stamp appended is never a v2 payload |
| DnsSd.CheckKey | bindings/python/offline_protocol_sdk/dnssd_bridge.py:98-106 | a key passes exactly when it is non-empty printable ASCII without `=` |
| DnsSd.CheckCapabilities | bindings/python/offline_protocol_sdk/dnssd_bridge.py:109-152 | the loop accepts exactly capability keys that pass and stay distinct after case folding |
| DnsSd.TxtRecord | bindings/python/offline_protocol_sdk/dnssd_bridge.py:109-152 | a record is refused exactly when it is not publishable, and else laid out fixed keys first |
| DnsSd.LayoutOrder | bindings/python/offline_protocol_sdk/dnssd_bridge.py:109-152 | the record holds txtvers, sid, ver and addr first, in that order and with the descriptor's values, then one prefixed entry for exactly each capability |
| DnsSd.CapabilitiesByFoldedKey | bindings/python/offline_protocol_sdk/dnssd_bridge.py:109-152 | the capability entries are in the order of their folded keys |
| DnsSd.WireSize | bindings/python/offline_protocol_sdk/dnssd_bridge.py:155-157 | the wire form is as long as the size function says |
| DnsSd.ParseTxt | bindings/python/offline_protocol_sdk/dnssd_bridge.py:160-178 | the offset loop equals the recursive reading of length-prefixed strings |
| DnsSd.ParsedWire | bindings/python/offline_protocol_sdk/dnssd_bridge.py:160-178 | reading the wire form gives the entries back, split at the first `=` |
| DnsSd.RecordFromTxt | bindings/python/offline_protocol_sdk/dnssd_bridge.py:181-224 | the gathering loop equals its specification, refusals included |
| DnsSd.TxtRoundTrip | bindings/python/offline_protocol_sdk/dnssd_bridge.py:109-224 | what is published has its stated size and reads back with folded capability keys, none lost or merged, if and only if its service id is not empty |
| DnsSd.EmptyIdIsPublished | bindings/python/offline_protocol_sdk/dnssd_bridge.py:109-224 | the failing family: whatever can be published can be published under an empty service id, and is then ignored when read |
| DnsSd.SomethingIsPublished | bindings/python/offline_protocol_sdk/dnssd_bridge.py:109-152 | one record, with an empty service id, that is accepted for publishing |
| InFlight.PopExpiredIsLive | bindings/python/offline_protocol_sdk/internet_manager.py:83-105 | in recording order, popping expired entries from the front leaves exactly the live ones |
| InFlight.StepCoupled | bindings/python/offline_protocol_sdk/internet_manager.py:56-146 | each operation on the lazy queue answers, and leaves the same live entries, as on the eagerly expired one |
| InFlight.AcceptedByAge | bindings/python/offline_protocol_sdk/internet_manager.py:83-105 | an acceptance that names no live entry settles exactly the oldest live one and keeps the rest in order |
| InFlight.AcceptedById | bindings/python/offline_protocol_sdk/internet_manager.py:83-105 | one that names a live entry settles every live entry under that id and no other, and keeps the rest in order |
| InFlight.DrainAnswers | bindings/python/offline_protocol_sdk/internet_manager.py:130-135 | a drain answers the ids of exactly the entries no older than the limit, oldest first, and empties the queue |
| InFlight.RunsAgree | bindings/python/offline_protocol_sdk/internet_manager.py:56-146 | in every run with a clock that does not run backwards, for all recipients together and clearing included, every drain answers as the eager tracker |
| InFlight.PruningChangesNoAnswer | bindings/python/offline_protocol_sdk/internet_manager.py:137-143 | a run answers exactly as the same run with every prune left out |
| InFlight.RecipientInFlightTracker.RecordSent | bindings/python/offline_protocol_sdk/internet_manager.py:75-81 | append, keeping the last; other recipients untouched |
| InFlight.RecipientInFlightTracker.ResolveOnRelayAccepted | bindings/python/offline_protocol_sdk/internet_manager.py:83-105 | expire, then remove every entry under the id, or else the oldest |
| InFlight.RecipientInFlightTracker.Unrecord | bindings/python/offline_protocol_sdk/internet_manager.py:107-128 | remove the newest entry under the id |
| InFlight.RecipientInFlightTracker.DrainRecipient | bindings/python/offline_protocol_sdk/internet_manager.py:130-135 | the live ids in order, and an empty queue |
| InFlight.RecipientInFlightTracker.Prune | bindings/python/offline_protocol_sdk/internet_manager.py:137-143 | expired entries popped for every recipient |
| InFlight.RecipientInFlightTracker.Clear | bindings/python/offline_protocol_sdk/internet_manager.py:145-146 | nothing in flight for anyone |
| InFlight.RecipientInFlightTracker.Replay | bindings/python/offline_protocol_sdk/internet_manager.py:56-146 | any sequence of calls on a tracker answers as the run of those calls, so that run's laws are the tracker's |
| PresenceWatch.ApplyValid | bindings/python/offline_protocol_sdk/presence_watch_policy.py:47-102 | every operation keeps the rotation a duplicate-free permutation of the watched peers |
| PresenceWatch.PlaceApply | bindings/python/offline_protocol_sdk/presence_watch_policy.py:64-88 | an operation that does not ask about a watched peer moves it no further back, and a tick moves it a whole batch forward |
| PresenceWatch.WatchedAfterTick | bindings/python/offline_protocol_sdk/presence_watch_policy.py:64-79 | after a tick a peer is watched if and only if the core's list names it (and the limit is not negative) or it last mattered no longer ago than the limit; naming refreshes its clock, nothing else does |
| PresenceWatch.AskedGoBack | bindings/python/offline_protocol_sdk/presence_watch_policy.py:80-88 | a tick asks about as many peers as it may, all still watched, and moves exactly those to the back in that order |
| PresenceWatch.BoundedWait | bindings/python/offline_protocol_sdk/presence_watch_policy.py:64-88 | a peer at place i that stays watched is asked about within i / k + 1 ticks, whatever else is watched, removed or expired meanwhile |
| PresenceWatch.PresenceWatchPolicy.Watch | bindings/python/offline_protocol_sdk/presence_watch_policy.py:47-52 | the watch as a step of the rotation |
| PresenceWatch.PresenceWatchPolicy.Unwatch | bindings/python/offline_protocol_sdk/presence_watch_policy.py:54-58 | the removal as a step of the rotation |
| PresenceWatch.PresenceWatchPolicy.PeersToQuery | bindings/python/offline_protocol_sdk/presence_watch_policy.py:64-88 | merge, eviction and rotation loops equal one tick, and return the peers it asks about |
| PresenceWatch.PresenceWatchPolicy.Clear | bindings/python/offline_protocol_sdk/presence_watch_policy.py:90-93 | nothing watched |
| PresenceWatch.PresenceWatchPolicy.Replay | bindings/python/offline_protocol_sdk/presence_watch_policy.py:47-102 | any sequence of operations on a policy asks about every peer that stays watched within its bound |
| Adoption.GrantIsRecorded | bindings/python/offline_protocol_sdk/legacy_store_adoption.py:138-164 | who grants itself read-through has its own claim recorded |
| Adoption.OwnerIsGranted | bindings/python/offline_protocol_sdk/legacy_store_adoption.py:130-135 | a launch by the recorded owner keeps the claim, and is granted read-through if and only if its first read succeeds or it can write and read back its claim |
| Adoption.UnclaimedIsGranted | bindings/python/offline_protocol_sdk/legacy_store_adoption.py:130-164 | a launch on an unclaimed store is granted it if and only if its claim is written and read back; the claim it leaves, in each case |
| Adoption.OwnerAlwaysGranted | bindings/python/offline_protocol_sdk/secure_storage.py:374-446 | over any number of launches whose first reads succeed, the owner is granted the legacy store at every launch of its own |
| Adoption.ClaimOverwrittenExactly | bindings/python/offline_protocol_sdk/secure_storage.py:374-469 | another account's recorded claim is overwritten exactly when the first read fails and the write lands; read-through is granted exactly when the read-back also confirms |
| Adoption.AtMostOneInherits | bindings/python/offline_protocol_sdk/secure_storage.py:374-446 | over any number of launches whose first reads succeed, with writes that fail, get lost or land, at most one namespace is ever granted the legacy store |
| Adoption.OwnerOnly | bindings/python/offline_protocol_sdk/secure_storage.py:374-446 | once a claim is recorded, only its owner is ever granted anything |
| Adoption.FailedProbeBreaksExclusivity | bindings/python/offline_protocol_sdk/secure_storage.py:448-469 | without that, any two accounts can both be granted it: a failed first read counts as unclaimed |
| KeyringModel.NamesAreDistinct | bindings/python/offline_protocol_sdk/secure_storage.py:516-551 | for key types without `:` and other than `index`, different entries and indexes have different names |
| KeyringModel.OtherNamesAreShared | bindings/python/offline_protocol_sdk/secure_storage.py:516-551 | for every other key type each name is shared with some other account, so that condition is exact |
| KeyringModel.Keyring.SetPassword | bindings/python/offline_protocol_sdk/secure_storage.py:486-493 | a keyring write: done, or raised with or without effect, or lost where the fault model says so |
| KeyringModel.Keyring.DeletePassword | bindings/python/offline_protocol_sdk/secure_storage.py:504-512 | a keyring delete: done, already absent, or refused with or without effect |
| SecureStore.NoResurrection | bindings/python/offline_protocol_sdk/secure_storage.py:160-249 | in every run under faults, once a delete has returned, no load of that key returns a value until it is stored again |
| SecureStore.NeverAdvertised | bindings/python/offline_protocol_sdk/secure_storage.py:217-280 | nor does any listing name that key until then |
| SecureStore.RefinesSimpleMap | bindings/python/offline_protocol_sdk/secure_storage.py:156-280 | in every run in which only legacy deletes fail, with a legacy store to read through to or without, every call answers as one simple map would: promotion, healing and tombstones are invisible |
| SecureStore.SecureStorage.IndexGet | bindings/python/offline_protocol_sdk/secure_storage.py:519-523 | the ids an index lists |
| SecureStore.SecureStorage.IndexAdd | bindings/python/offline_protocol_sdk/secure_storage.py:525-532 | the index with the id, in order; on a raise either the old or the new index |
| SecureStore.SecureStorage.IndexRemove | bindings/python/offline_protocol_sdk/secure_storage.py:534-547 | the index without the id, an empty one dropped; on a raise either the old or the new index |
| SecureStore.SecureStorage.StoreEntry | bindings/python/offline_protocol_sdk/secure_storage.py:486-493 | whatever fails, no other entry changes, and the entry is the old or the new one |
| SecureStore.SecureStorage.ReadEntry | bindings/python/offline_protocol_sdk/secure_storage.py:495-502 | a value read is the one stored; absent means absent |
| SecureStore.SecureStorage.RemoveEntry | bindings/python/offline_protocol_sdk/secure_storage.py:504-512 | a removal that returns leaves no entry; whatever fails, no other entry changes |
| SecureStore.SecureStorage.Store | bindings/python/offline_protocol_sdk/secure_storage.py:156-158 | a map update; brings back no other deleted key; changes no claim; for reserved types, nothing but that entry |
| SecureStore.SecureStorage.TombstoneStateOf | bindings/python/offline_protocol_sdk/secure_storage.py:304-340 | recorded and absent are told truthfully; a failed read is neither |
| SecureStore.SecureStorage.ClearTombstone | bindings/python/offline_protocol_sdk/secure_storage.py:354-370 | clearing the tombstone of a copy that has gone brings nothing back |
| SecureStore.SecureStorage.RetryTombstonedRemoval | bindings/python/offline_protocol_sdk/secure_storage.py:342-352 | a retry brings nothing back and destroys nothing that could still be inherited |
| SecureStore.SecureStorage.Load | bindings/python/offline_protocol_sdk/secure_storage.py:160-215 | an own entry is returned exactly, whatever fails; where only deletes raise, so is an inherited copy that no tombstone covers, which is an own entry afterwards; a value returned is the map's; the map, every claim and every inheritable copy are unchanged; where nothing fails a tombstoned copy is removed for good; reserved types read as absent; all of it with or without a legacy service |
| SecureStore.SecureStorage.Delete | bindings/python/offline_protocol_sdk/secure_storage.py:217-249 | when it returns the key is gone for good and no longer listed; a map removal; raises only on a double fault; for reserved types, nothing but that entry |
| SecureStore.SecureStorage.DeleteInherited | bindings/python/offline_protocol_sdk/secure_storage.py:284-302 | the legacy half: removed and its tombstone cleared, or tombstoned |
| SecureStore.SecureStorage.ListKeys | bindings/python/offline_protocol_sdk/secure_storage.py:251-280 | whatever fails, every id the own index lists; where only deletes raise, also every inherited one that no tombstone covers; never a key that is gone from the indexes or under a tombstone; where only legacy deletes fail, exactly the keys the map holds under the type, each once; none for reserved types |
| SecureStore.SecureStorage.WithInherited | bindings/python/offline_protocol_sdk/secure_storage.py:268-280 | the own ids, then exactly the inherited ones not already there that no tombstone hides |
| SecureStore.SecureStorage.Serve | bindings/python/offline_protocol_sdk/secure_storage.py:156-280 | any sequence of calls on a provider, under whatever faults, is such a run from the keyring it found to the keyring it leaves; when only legacy deletes fail it is a run of the map |
| SecureStore.SecureStorage.ReadClaim | bindings/python/offline_protocol_sdk/secure_storage.py:448-469 | the recorded claim, or none exactly when the read raised; reads that cannot fail do not |
| SecureStore.SecureStorage.ResolveLegacyAdoption | bindings/python/offline_protocol_sdk/secure_storage.py:374-446 | probe, claim and read-back decide and record exactly as one launch whose mishaps are those of its own reads and write, and touch only the claim entry |
| SecureStore.SecureStorage.Open | bindings/python/offline_protocol_sdk/secure_storage.py:63-152 | a malformed namespace raises with nothing changed; read-through only for who holds the claim; no failed read where the keyring's reads succeed |
| SecureStore.Device | bindings/python/offline_protocol_sdk/secure_storage.py:63-482 | any number of accounts opened on one keyring and used in any order: those that read through are those the run of launches grants, at most one unless a launch's first read failed, and at most one outright where reads succeed, whatever happens to writes |
| AttachPolicy.ParseVerdict | bindings/python/offline_protocol_sdk/gateway_attach_policy.py:331-356 | a verdict names the frame's non-empty id and recipient, carries a non-empty reason exactly on a refusal, and is pushed only on an acceptance |
| AttachPolicy.VerdictReport | bindings/python/offline_protocol_sdk/gateway_attach_policy.py:381-407 | only a plain acceptance confirms; pushes and stored refusals park under their tokens; any other refusal is verbatim; the recipient is watched exactly when parked or unreachable |
| VerdictTracker.GatewayVerdictTracker.Begin | bindings/python/offline_protocol_sdk/gateway_verdict_tracker.py:51-63 | an id already in flight is refused, any other appended |
| VerdictTracker.GatewayVerdictTracker.Settle | bindings/python/offline_protocol_sdk/gateway_verdict_tracker.py:65-70 | true exactly for the call that removes the id |
| VerdictTracker.GatewayVerdictTracker.Expired | bindings/python/offline_protocol_sdk/gateway_verdict_tracker.py:72-89 | returns, in order, and removes the ids that waited longer than the timeout |
| VerdictTracker.GatewayVerdictTracker.DrainAll | bindings/python/offline_protocol_sdk/gateway_verdict_tracker.py:91-97 | returns everything and leaves nothing |
| VerdictTracker.StaleAmong | bindings/python/offline_protocol_sdk/gateway_verdict_tracker.py:72-89 | an id expires exactly when it is in flight and waited longer than the timeout |
| GatewayInvariant.EveryRunIsGood | bindings/python/offline_protocol_sdk/gateway_manager.py:372-1190 | every reachable state: one socket under the current generation, bound only when connected, at most eight ids in flight and only while bound, a history that accounts for all of it |
| GatewayRuns.ExactlyOneReport | bindings/python/offline_protocol_sdk/gateway_manager.py:857-959 | in every run each begin has exactly one report or is still in flight; at most eight in flight, none twice, none unless bound and connected |
| GatewayRuns.NeverForwardedTwice | bindings/python/offline_protocol_sdk/gateway_manager.py:1085-1173 | between two lines that carry one id lies the report of the first |
| GatewayRuns.AnnouncedOnlyBound | bindings/python/offline_protocol_sdk/gateway_manager.py:755-853 | every announcement follows an echo, on that very session, of an address that equals our own and is not empty, with no retirement in between and none of that session before |
| GatewayRuns.LinesAtHome | bindings/python/offline_protocol_sdk/gateway_manager.py:715-753 | every line goes to a socket not yet retired, and every declaration to the socket whose challenge it answers |
| GatewayRuns.StaleStepsAreInert | bindings/python/offline_protocol_sdk/gateway_manager.py:495-516 | a report, timeout or frame for a session that is over changes nothing but its own bookkeeping |
| GatewayRuns.StaleWritesAreInert | bindings/python/offline_protocol_sdk/gateway_manager.py:1118-1190 | a frame write that outlives its session frees the drain lock and counts its outcome; flags, bind, in-flight set and history stay |
| GatewayRuns.LadderClosedForm | bindings/python/offline_protocol_sdk/gateway_manager.py:536-570 | in every reachable state the next delay is min(2^attempts, 30), and a positive limit bounds the attempts |
| GatewayRuns.FewReconnects | bindings/python/offline_protocol_sdk/gateway_manager.py:536-570 | with a positive limit m, at most m reconnects are scheduled in any stretch of any run without an announcement |
| GatewayOrigins.ResetOnlyOnAnnouncement | bindings/python/offline_protocol_sdk/gateway_manager.py:815-853 | attempts and delay start over on a status frame for the current, connected, bound, running session, which announces; no other step announces or lowers the attempts |
| GatewayOrigins.OwnEchoBinds | bindings/python/offline_protocol_sdk/gateway_manager.py:755-795 | an echo of our own non-empty address on the current session binds it and changes nothing else |
| GatewayOrigins.ForeignEchoCloses | bindings/python/offline_protocol_sdk/gateway_attach_policy.py:207-211 | any other non-empty echo on the current session, or one while our own address is unknown, does what the socket closing does |
| GatewayOrigins.AnswerIsReported | bindings/python/offline_protocol_sdk/gateway_manager.py:857-913 | a verdict frame for an id in flight is reported once and takes it out of flight: confirmed exactly if it accepts and does not say pushed, and else failed under the token or reason its fields call for |
| GatewayOrigins.OtherAnswersAreIgnored | bindings/python/offline_protocol_sdk/gateway_manager.py:857-913 | a verdict frame for another session, without a usable id, or for an id not in flight changes nothing |
| GatewayOrigins.StepWarrants | bindings/python/offline_protocol_sdk/gateway_manager.py:372-1190 | a step appends no announcement, binding echo or confirmation but what its own frame and the state it found warrant, read off the frame's fields |
| GatewayOrigins.Origin | bindings/python/offline_protocol_sdk/gateway_manager.py:372-1190 | in every run each announcement, each echo that binds and each confirmation was appended by such a step, in a state that step found |
| GatewayOrigins.ConfirmedOnlyWhenAccepted | bindings/python/offline_protocol_sdk/gateway_attach_policy.py:331-407 | in every run a confirmation comes of a frame of the then current session that accepts, carries that id, then in flight, and does not say pushed |
| GatewayEffects.CloseLoses | bindings/python/offline_protocol_sdk/gateway_manager.py:495-570 | a socket that closes ends its session: a new generation, everything in flight failed in order, the core told, and a reconnect after the current delay, or the transport stopped when none is due |
| GatewayEffects.OpenFailureLoses | bindings/python/offline_protocol_sdk/gateway_manager.py:380-401 | a connection that cannot be opened does the same |
| GatewayEffects.FatalStepsClose | bindings/python/offline_protocol_sdk/gateway_manager.py:599-853 | so do a failed first line or declaration, a challenge not signed, an address error, a status before the bind and an attach timeout |
| GatewayEffects.StopEnds | bindings/python/offline_protocol_sdk/gateway_manager.py:242-276 | stopping ends the session, fails what is in flight and calls off what is scheduled |
| GatewayEffects.StopFinishes | bindings/python/offline_protocol_sdk/gateway_manager.py:242-292 | and then tells the core and is stopped |
| GatewayEffects.StartQueues | bindings/python/offline_protocol_sdk/gateway_manager.py:223-240 | a start queues a connect exactly when the transport is configured and not up |
| GatewayEffects.ConnectClaims | bindings/python/offline_protocol_sdk/gateway_manager.py:372-380 | a connect claims the next generation exactly when none is up or coming up |
| GatewayEffects.ReconnectQueues | bindings/python/offline_protocol_sdk/gateway_manager.py:572-578 | a reconnect that comes due queues a connect unless the transport is stopping |
| GatewayEffects.OpenIdentifies | bindings/python/offline_protocol_sdk/gateway_manager.py:403-430 | a socket opened for the current generation is adopted and the first line goes out on it |
| GatewayEffects.IdentifiedRuns | bindings/python/offline_protocol_sdk/gateway_manager.py:430-451 | then the transport runs, with a deadline on the handshake |
| GatewayEffects.ChallengeIsAnswered | bindings/python/offline_protocol_sdk/gateway_manager.py:715-753 | a signed challenge is answered on its own socket |
| GatewayEffects.SweepFails | bindings/python/offline_protocol_sdk/gateway_manager.py:937-959 | a sweep takes out of flight, and reports as silent, exactly the ids that waited more than sixty seconds |
| GatewayEffects.DrainSends | bindings/python/offline_protocol_sdk/gateway_manager.py:1085-1173 | progress: a pass that may send begins and writes the first frame that is new and well formed, and waits in that write |
| GatewayEffects.DrainRefuses | bindings/python/offline_protocol_sdk/gateway_manager.py:1137-1145 | a frame whose id a gateway would not take is failed and never written |
| GatewayEffects.WrittenGoesOn | bindings/python/offline_protocol_sdk/gateway_manager.py:1085-1173 | a write that went through clears the count of failures |
| GatewayEffects.FailedWriteIsCounted | bindings/python/offline_protocol_sdk/gateway_manager.py:1146-1173 | one that did not fails its frame, and the third in a row closes the session |
| GatewayTrace.OneReportPerBegin | bindings/python/offline_protocol_sdk/gateway_manager.py:857-959 | a history in which every id moves from begun to written to reported has one report per begin, but for the ids in flight |
| GatewayTrace.BoundedReconnects | bindings/python/offline_protocol_sdk/gateway_manager.py:536-570 | a history whose reconnects keep to the ladder schedules no more than the limit without an announcement |
| GatewayManager.Manager.RetireSession | bindings/python/offline_protocol_sdk/gateway_manager.py:478-493 | a new generation, unbound, its timeout disarmed, every id in flight failed in order |
| GatewayManager.Manager.HandleConnectionClosed | bindings/python/offline_protocol_sdk/gateway_manager.py:495-534 | ends the session it names if that is current and up, tells the core, and climbs the ladder or stops |
| GatewayManager.Manager.ScheduleReconnect | bindings/python/offline_protocol_sdk/gateway_manager.py:536-570 | one more attempt after the current delay, which then doubles to its ceiling; or stops at the limit |
| GatewayManager.Manager.BeginStop | bindings/python/offline_protocol_sdk/gateway_manager.py:242-276 | cancels what is scheduled and retires the session |
| GatewayManager.Manager.Connect | bindings/python/offline_protocol_sdk/gateway_manager.py:372-380 | claims a fresh generation unless a connection is up or coming up |
| GatewayManager.Manager.OpenDone | bindings/python/offline_protocol_sdk/gateway_manager.py:403-430 | adopts the socket if its generation is current, and writes the first line or closes |
| GatewayManager.Manager.IdentifyDone | bindings/python/offline_protocol_sdk/gateway_manager.py:430-451 | arms the attach timeout, or disconnects a stray socket, or does nothing for a session that is over |
| GatewayManager.Manager.AttachTimedOut | bindings/python/offline_protocol_sdk/gateway_manager.py:599-604 | closes the session it was armed for |
| GatewayManager.Manager.HandleChallenge | bindings/python/offline_protocol_sdk/gateway_manager.py:715-753 | declares on the challenging socket, or closes |
| GatewayManager.Manager.HandleAddressDeclared | bindings/python/offline_protocol_sdk/gateway_manager.py:755-795 | binds on our own address, closes on another, ignores a malformed echo |
| GatewayManager.Manager.CompleteAttach | bindings/python/offline_protocol_sdk/gateway_manager.py:815-853 | announces a bound session and resets the ladder, closes an unbound one |
| GatewayManager.Manager.HandleVerdict | bindings/python/offline_protocol_sdk/gateway_manager.py:857-913 | settles and reports an id in flight once; ignores any other |
| GatewayManager.Manager.FailInFlight | bindings/python/offline_protocol_sdk/gateway_manager.py:915-924 | reports every id in flight failed, in order, and leaves none |
| GatewayManager.Manager.SettleLocally | bindings/python/offline_protocol_sdk/gateway_manager.py:926-935 | reports only if this call took the id out of flight |
| GatewayManager.Manager.SweepExpiredVerdicts | bindings/python/offline_protocol_sdk/gateway_manager.py:937-959 | fails exactly the ids unanswered for longer than the timeout |
| GatewayManager.Manager.WriteLine | bindings/python/offline_protocol_sdk/gateway_manager.py:1175-1190 | writes only on a socket whose session is still current |
| GatewayManager.Manager.Send | bindings/python/offline_protocol_sdk/gateway_manager.py:1118-1173 | writes one begun frame or settles it, closing after three failures in a row |
| GatewayManager.Manager.DrainLoop | bindings/python/offline_protocol_sdk/gateway_manager.py:1085-1116 | the batch loop equals the pass over the outbox: at most ten sent, at most eight in flight, no id begun twice |
| GatewayManager.Manager.Take | bindings/python/offline_protocol_sdk/gateway_manager.py:372-1190 | each step method does what the step does |
| GatewayManager.Schedule | bindings/python/offline_protocol_sdk/gateway_manager.py:372-1190 | the object after any feasible schedule of steps is the state of that run, so what holds of every run holds of it |

## Left out

- SHA-256, HKDF, HMAC, Ed25519 and the AEAD: hashes, keys and signatures are parameters or opaque bytes.
- Hexadecimal and UUID text parsing: message ids, reply ids and binary content enter the frame model as bytes.
- Unknown priority and content type names: both are enumerations here, so the lookup error has no counterpart.
- Lone surrogates: strings are sequences of scalar values; where the gateway client guards against them, a field is modelled as unencodable.
- The sealed envelope encoding of `tools/spec-vectors/generate.py`: a second container of length-prefixed fields around ciphertext.
- Vector tables, notes and file writing of `tools/spec-vectors/generate.py`: data, not logic.
- WireFrame.FrameInverts: ids and reply ids of sixteen bytes, as `encode_frame` produces them; `raw_frame` also takes others, and those cannot be told apart.
- SecureStore.SecureStorage.Store: key types whose names identify their entries (no colon, not `index`); the provider itself never checks this.
- SecureStore.SecureStorage.Load: the same key types as `Store`.
- SecureStore.SecureStorage.Delete: the same key types as `Store`.
- SecureStore.SecureStorage.ListKeys: the same key types as `Store`.
- AttachPolicy.ParseVerdict: an id with a lone surrogate yields no verdict, where the code yields one that settles nothing.
- Concurrent calls into one secure store: the provider relies on its single caller to serialise them, and so does the model.
- Adoption across processes, and deletes made under a claim that was not verified and later resumed.
- The bridge around DNS-SD records (`DnsSdBridge`, zeroconf): publishing, browsing and expiry of LAN services.
- The relay connection of `internet_manager.py` beyond its in-flight tracker.
- What a presence watch and an offline fact do after a gateway verdict, poll timers and wake scheduling: a drain pass may start at any time its lock is free.
- JSON parsing, the decoding of a challenge and the bound on the length of an echoed address: their outcome is a parameter of the step.
- `capability_tokens` and the frame builders of `gateway_attach_policy.py`: a bounded filter of a token list, and JSON serialisation.
- GatewayManager.Manager.ScheduleReconnect: the guard for a missing or closed event loop is not modelled, because every step runs on that loop.
- GatewayManager.Manager.Connect: a connect task that is still finishing does not keep a second one from being queued, so the model admits more schedules than the code.
- Overlapping or cancelled `start` and `stop` calls of the gateway client: the owner serialises them.
- Diagnostics, metrics and logging everywhere.
