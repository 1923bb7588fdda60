# A Dafny model of mpcium

mpcium is a cluster of nodes that generate, reshare and use threshold signing keys, with a
wallet service and a web front end in front of it. This project models the parts where the
correctness of the system is decided by logic of its own rather than by a library, and states
what they promise as theorems over every input, every interleaving or every run.

`dafny verify dfyconfig.toml` checks all files. Each module is one component:

- `PartyIds`, `KeyNames`, `Sessions`, `Routing`, `WalletRuns`: how a node ID and a key version
  become a party key, where shares are stored, how sessions are created, how direct messages are
  routed while two committees share topics, and what all this keeps true over whole runs.
- `PeerRegistry`, `PeerHealth`, `KeyExchange`: which peers count as ready, when a silent peer is
  evicted, and when two nodes hold the same symmetric key.
- `Polynomials`, `KeyShares`, `ChildDerivation`, `PointEncoding`: child keys of a shared key, on
  the nodes and on the client, and the byte forms of points.
- `Backup`: encrypted incremental backups of a node's store.
- `SessionGuard`, `Nonces`, `ResultRouter`, `ResultSubjects`, `Amounts`: the guard against
  duplicate key generations, nonce allocation, delivery of results to callers, result subjects,
  and token amounts.
- `Results`, `Lists`, `Numerals`, `GoStrings`: shared vocabulary.

State that the program updates in place is a class whose methods are proved against a pure
function of the old state; runs are then runs of that function. A Go string is a sequence of
bytes, written as characters below 256. Foreign code (hashes, ciphers, Diffie-Hellman, curve
arithmetic, JSON, the Badger dump) enters as functions with the few laws each module names.
Specification functions are held to laws that do not name them: runs are read off their steps
alone, byte formats are decoded, and the texts of topics, storage keys and subjects are compared
with the program's formats.

Where documentation and code differ, the model follows the code:

- `AreMajorityReady` is documented to need more than threshold + 1 ready peers and a key for each
  of them; the code accepts exactly threshold + 1 and compares counts only
  (`PeerRegistry.MajorityReadyExact`, `PeerRegistry.MajorityReadyExample`).
- `CreateWallet` is documented to deliver exactly one result; a second request for the same
  wallet, or its failed publish, orphans the first caller (`ResultRouter.ExactlyOneResultIff`).
- `ReleaseNonce` is documented to prevent gaps; giving back any but the highest nonce makes the
  next one a duplicate (`Nonces.ReleaseSafety`).
- The loader of old shares is documented to fall back to the unversioned key when the versioned
  one is missing; the code does so for version 0 only.
- The direct reshare topics start with "resharing" for ECDSA and with "reshare" for EdDSA.

## Model

| member | source | states |
|---|---|---|
| PartyIds.DecodeExact | pkg/mpc/party_id.go:42-59 | each decoder returns the node ID exactly when the ID has no leading zero byte and no colon and, for the trimming decoder, no surrounding white space; every node ID, every version |
| PartyIds.WellFormedDecodes | pkg/identity/identity.go:685-687 | both decoders return every well-formed node ID, for the legacy version 0 as well |
| PartyIds.PartyKeyText | pkg/mpc/party_id.go:42-51 | the bytes of a key are the node ID for version 0 and node ID, colon and decimal version otherwise |
| PartyIds.PartyKeyInjective | pkg/mpc/party_id.go:42-51 | no two pairs of well-formed node ID and version share a party key |
| PartyIds.ComparePartyIDsIsKeyEquality | pkg/mpc/party_id.go:69-71 | comparing key bytes is comparing keys |
| PartyIds.SortPermutes | pkg/mpc/party_id.go:33-35 | sorting is a permutation into ascending key order |
| PartyIds.CreatePartyIDs | pkg/mpc/party_id.go:22-31 | the loop makes one party per ready peer, in order, and sets self exactly when the node is among them |
| PartyIds.GeneratePartyIDs | pkg/mpc/party_id.go:16-36 | self is set exactly when the node is ready, with its own key; the list is the sorted committee |
| PartyIds.CommitteeMembers | pkg/mpc/party_id.go:25-34 | the committee holds exactly the parties of the listed nodes, one each |
| PartyIds.CommitteeStrictlyIncreasing | pkg/mpc/party_id.go:33-35 | distinct well-formed nodes give strictly increasing party keys |
| PartyIds.CommitteeIgnoresOrder | pkg/mpc/party_id.go:16-36 | nodes that see the same peers in different orders build the same committee |
| PartyIds.CommitteeNodeIDs | pkg/mpc/party_id.go:61-67 | reading node IDs back from a committee yields exactly its nodes |
| PartyIds.CommitteePurpose | pkg/mpc/party_id.go:16-51 | the purpose is every party's label and has no influence on the keys or their order |
| GoStrings.TrimSpaceMeaning | pkg/mpc/party_id.go:53-59 | trimming takes white-space characters off both ends until none is left there, and nothing else |
| KeyNames.ComposeKeyInjective | pkg/mpc/node.go:231-242 | the key of curve and ID determines both |
| KeyNames.VersionedInjective | pkg/mpc/session.go:486-491 | a versioned wallet ID determines wallet and version, whatever the wallet ID contains |
| KeyNames.StorageKeyClash | pkg/mpc/session.go:486-491 | two shares get one storage key exactly when they are the same share, or one is a legacy share whose wallet ID already looks like the other's versioned ID |
| KeyNames.LegacyClashExample | pkg/mpc/session.go:486-491 | legacy wallet "w_v1" and version 1 of wallet "w" do clash |
| Sessions.GetReadyPeersForSession | pkg/mpc/node.go:244-254 | the loop keeps the ready participants, in order and with repetitions |
| Sessions.CreateSigningSession | pkg/mpc/node.go:155-181 | succeeds exactly when key info exists, threshold + 1 participants are ready and the node is one; then self is in the party list and the parties are exactly the ready participants at the key-info version |
| Sessions.InitAcceptsCreatedSession | pkg/mpc/ecdsa_signing_session.go:117-135 | with unchanged key info the quorum checks of Init pass for every participant list without repetitions, however often the intersection lists an ID; with repetitions, listing each common ID once they pass exactly when threshold + 1 different participants are ready, listing every match they always pass |
| Sessions.RepeatedParticipantExample | pkg/mpc/ecdsa_signing_session.go:122-135 | a repeated participant passes session creation, and Init then refuses or accepts it as the intersection lists it once or twice |
| Sessions.CommitteeMembersByID | pkg/mpc/party_id.go:16-36 | committee membership by node ID |
| Sessions.SelfInCommittee | pkg/mpc/party_id.go:25-31 | a listed node's party is in the committee |
| Sessions.AreAllReady | pkg/mpc/node.go:285-291 | the early-exit loop tells whether all new peers are ready |
| Sessions.CreateReshareSession | pkg/mpc/node.go:271-354 | each refusal, the skip and the creation, each exactly when; a created session has the identity and committee of its side, the old threshold of key info and the requested new one, old ready members reach the old threshold + 1, all new members are ready |
| Sessions.NewReshareSession | pkg/mpc/node.go:340-376 | old parties carry the current version, new parties the next, the session takes the identity of its side and both thresholds |
| Sessions.GetLegacyCommitteePeers | pkg/mpc/ecdsa_resharing_session.go:125-141 | the seen-map loops list exactly the old members outside the new committee |
| Routing.SenderRecovered | pkg/mpc/session.go:493-501 | the sender is read back from every direct topic, whatever the wallet or transaction ID contains |
| Routing.TopicInjective | pkg/mpc/ecdsa_keygen_session.go:63-70 | two direct topics are equal only if operation, curve, sender, receiver and ID are |
| Routing.Session.SubscribeFromPeers | pkg/mpc/session.go:324-332 | appends one topic per peer, in order |
| Routing.Session.ListenToIncomingMessage | pkg/mpc/session.go:348-354 | appends the topics of the session's own committee |
| Routing.Session.ReceiveP2P | pkg/mpc/session.go:210-236 | a message is applied, ignored or rejected as sender, key and destinations say; nothing else changes |
| Routing.Session.ReceiveTssMessage | pkg/mpc/session.go:291-308 | the message reaches the party exactly when it is a broadcast without destinations or names this party's key |
| Routing.Session.HandleTssMessage | pkg/mpc/session.go:157-208 | one send per destination in order, each as `Routing.OpensAtDestination` says; published exactly when it is a broadcast without destinations |
| Routing.ListenForReshare | pkg/eventconsumer/event_consumer.go:718-745 | what both sessions of a node subscribe to, in the handler's order |
| Routing.ListenedPeersAreUnion | pkg/eventconsumer/event_consumer.go:734-745 | either side listens to exactly the union of both committees |
| Routing.SidesDiffer | pkg/mpc/node.go:340-343 | a node's old and new party keys differ for every version |
| Routing.DispatchByKey | pkg/mpc/session.go:291-303 | a message is applied exactly by every party when it is a broadcast without destinations, and otherwise by the parties whose key is among its destinations |
| Routing.OpensAtDestination | pkg/mpc/session.go:184-235 | for every operation, curve, ID and message and any two parties: the topic carries both node IDs, the sender is recovered, the message is in the clear exactly within one node, and the destination dispatches it exactly when both nodes hold the same key or are one node, and rejects it otherwise |
| Routing.CreatedPartiesExchange | pkg/mpc/session.go:184-235 | so it is for created parties of all well-formed nodes, at any purposes and versions |
| Routing.OtherNodesGetCiphertext | pkg/mpc/session.go:184-206 | whatever is handled, no destination on another node is sent the message in the clear or by the local route |
| Routing.CommitteeSessionHears | pkg/mpc/session.go:324-354 | in key generation, signing and within one side of a reshare: every send to a member is on a topic that member subscribed to, its sender is recovered, and the member applies it |
| Routing.CreatedSessionIsOnItsSide | pkg/mpc/node.go:340-354 | a reshare session the node created has the party, the committee and the reported old peers its side has in the routing laws |
| Routing.DirectReshareMessageRouted | pkg/mpc/session.go:184-235 | for all committees and versions the addressed session listens to the topic, recovers the sender and applies the message, and its sibling on the same node ignores it unless it is addressed too |
| Routing.SubscribedSessionHears | pkg/eventconsumer/event_consumer.go:718-745 | on the sessions themselves: every send of the sending session to the listening one is on a topic that session subscribed to in the handler's calls, its sender is recovered, and on its node it alone applies the message |
| Routing.OnlyDestinationListens | pkg/mpc/session.go:324-332 | for every operation, no session of another node, wallet, curve or operation listens to a direct topic |
| WalletRuns.StoreIsFresh | pkg/mpc/ecdsa_resharing_session.go:188-193 | in every reachable state the key a share is about to be stored under is free on that node |
| WalletRuns.SharesOnlyGrow | pkg/mpc/ecdsa_keygen_session.go:112-117 | every step leaves all stored shares as they are |
| WalletRuns.StepKeepsInv | pkg/mpc/ecdsa_resharing_session.go:188-205 | the storage invariant survives every interleaved share write, key-info write, start and finish |
| WalletRuns.RunKeepsInv | pkg/mpc/ecdsa_resharing_session.go:188-205 | the invariant holds at every point of every run, from a fresh or a legacy cluster |
| WalletRuns.NoShareOverwritten | pkg/mpc/session.go:450-491 | nothing stored at one point of a run is overwritten or lost later |
| WalletRuns.IdleWalletComplete | pkg/mpc/ecdsa_keygen_session.go:112-125 | between operations the version is the starting version plus the number of completed reshares, and every participant holds a share of it made for exactly this committee |
| WalletRuns.KeyInfoIsWhatWasAsked | pkg/mpc/ecdsa_resharing_session.go:188-205 | at every point of every run key info names the participants and the threshold of the last completed request (of the running one once a node has published it, of the legacy wallet before any), and its version is the number of completed operations, plus one once published; all read from the steps alone |
| WalletRuns.OperationCompletes | pkg/mpc/ecdsa_keygen_session.go:112-125 | from every state an idle wallet can be taken through a key generation or a reshare to any committee, and ends idle with exactly the participants and threshold asked for, one version up |
| WalletRuns.RunningKeepsPrevious | pkg/mpc/ecdsa_resharing_session.go:188-205 | in the middle of a reshare all shares of the old committee are still there and the published version is the old one or the next |
| WalletRuns.ParticipantHoldsIff | pkg/mpc/ecdsa_signing_session.go:137-139 | at every point of every run a participant of the published key info holds its share exactly when the wallet is idle, nobody has published the new info, or it has stored the new share |
| WalletRuns.PartyKeysOf | pkg/mpc/node.go:181-181 | the party keys a share was made under are rebuilt from key info alone |
| WalletRuns.SigningFindsItsShare | pkg/mpc/ecdsa_signing_session.go:117-139 | a signing session finds its share, is the party it was made for, and names only parties of that share's committee |
| WalletRuns.ReshareLoadsOldShare | pkg/mpc/session.go:450-483 | an old-committee reshare session loads the share its own party was made for, legacy version 0 included |
| WalletRuns.StoredInReshare | pkg/mpc/ecdsa_resharing_session.go:188-193 | during a reshare each new member stores the share of the new committee at the next version under the next version's key, and no other share changes |
| WalletRuns.ReshareMakesNextShare | pkg/mpc/node.go:340-354 | a created new-committee session runs with exactly the own key, party keys, committee and threshold of the share its node stores |
| PeerRegistry.Registry.constructor | pkg/mpc/registry.go:61-108 | the peers are the configured ones without the node itself; nobody is marked, the count is one |
| PeerRegistry.Registry.CountMarked | pkg/mpc/registry.go:142-148 | the loop counts the peers marked ready |
| PeerRegistry.Registry.CheckAndUpdateReadyState | pkg/mpc/registry.go:141-159 | sets ready exactly when all peers are marked and the key count fits; what this amounts to is `PeerRegistry.PeersReadyIff` |
| PeerRegistry.Registry.RegisterPeer | pkg/mpc/registry.go:115-134 | marks one peer and counts it only if it was not marked |
| PeerRegistry.Registry.DisconnectPeer | pkg/mpc/registry.go:233-240 | unmarks and uncounts one peer and drops its key |
| PeerRegistry.Registry.RegisterReadyPairs | pkg/mpc/registry.go:114-138 | the whole loop marks the snapshot and counts exactly the newly marked, repetitions once |
| PeerRegistry.Registry.MarkedPeers | pkg/mpc/registry.go:224-229 | lists each marked peer once |
| PeerRegistry.Registry.GetReadyPeersIncludeSelf | pkg/mpc/registry.go:303-313 | the marked peers and the node itself, one entry more than marked peers |
| PeerRegistry.Registry.PollPeers | pkg/mpc/registry.go:207-250 | one tick of the watch loop as a function of state and snapshot |
| PeerRegistry.Registry.DeliverECDH | pkg/mpc/key_exchange_session.go:124-135 | a verified message stores the sender's key and re-checks readiness at the full key count |
| PeerRegistry.PollTracksSnapshot | pkg/mpc/registry.go:207-250 | after a poll the marked set is the snapshot exactly when the lengths differ or nobody outside the snapshot was marked |
| PeerRegistry.RunTracksSnapshot | pkg/mpc/registry.go:207-250 | in every run over configured peers each poll leaves exactly the snapshot marked |
| PeerRegistry.ReadyCountIsExact | pkg/mpc/registry.go:299-313 | in every run the ready count is one plus the number of marked peers, whatever the snapshots hold |
| PeerRegistry.PeersReadyCoversEveryPeer | pkg/mpc/registry.go:333-339 | in every run the readiness test, which compares counts, implies that every configured peer is marked and has a key |
| PeerRegistry.PeersReadyIff | pkg/mpc/registry.go:333-339 | in every run of at least one event over distinct configured peers the readiness test holds if and only if the marked peers and the key holders are both exactly the configured peers |
| PeerRegistry.RegistryFollowsEvents | pkg/mpc/registry.go:207-250 | in every run the marked peers are those of the last poll, the count is one more, and each peer's key is the last one it delivered since a poll found it gone |
| PeerRegistry.ReadinessFollowsEvents | pkg/mpc/registry.go:333-348 | both readiness tests decided from the events of the run alone |
| PeerRegistry.MajorityReadyExact | pkg/mpc/registry.go:345-348 | when the majority test passes, every ready peer has a key exactly when no key belongs to a peer that is not ready |
| PeerRegistry.MajorityReadyExample | pkg/mpc/registry.go:341-348 | a run in which the majority test passes and the ready peer has no key |
| PeerHealth.CheckPeer | pkg/mpc/registry.go:273-292 | one probe: counts a failure, evicts at the fifth, resets on anything else, leaves other peers alone |
| PeerHealth.RunProbes | pkg/mpc/registry.go:254-295 | over any history a peer is evicted exactly at every fifth failure in a row |
| PeerHealth.TransientFailuresTolerated | pkg/mpc/registry.go:254-295 | with probes of other peers in between, a peer is evicted exactly at every fifth probe since its last response, so fewer than five failures never evict it |
| KeyExchange.InfoIsSymmetric | pkg/mpc/key_exchange_session.go:183-188 | both nodes derive the same context, the two IDs with the smaller first |
| KeyExchange.LessIsBytewise | pkg/mpc/key_exchange_session.go:183-188 | smaller means smaller at the first differing byte, or a proper prefix |
| KeyExchange.EcdhSession.ListenKeyExchange | pkg/mpc/key_exchange_session.go:82-90 | a new key pair replaces the old and nothing else changes |
| KeyExchange.EcdhSession.HandleMessage | pkg/mpc/key_exchange_session.go:93-136 | own and refused messages change nothing; others store the derived key of their sender |
| KeyExchange.EcdhSession.RemovePeer | pkg/mpc/key_exchange_session.go:66-68 | drops that peer's key only |
| KeyExchange.StepKeepsInv | pkg/mpc/key_exchange_session.go:93-136 | every stored key stays the one derived from the current key pair and a message its peer sent |
| KeyExchange.RunKeepsInv | pkg/mpc/key_exchange_session.go:82-143 | so it is at every point of every run of restarts, losses, duplicates, reorderings and removals |
| KeyExchange.KeysFollowSteps | pkg/mpc/key_exchange_session.go:82-143 | at every point of every run each node's private key and its key for each peer are those told by the steps alone: the last start, and the last accepted message of the peer not removed since |
| KeyExchange.KeysAgree | pkg/mpc/key_exchange_session.go:82-210 | two nodes that each last accepted the other's current public key hold the same key, and what one encrypts the other decrypts |
| KeyExchange.HandshakeAgrees | pkg/mpc/key_exchange_session.go:154-181 | whatever happened before, one broadcast in each direction that arrives makes the two stored keys current and equal |
| KeyShares.AddInPlace | pkg/mpc/ckd.go:97-103 | adds the point to each share point in turn and stops before the first sum that is not on the curve |
| KeyShares.AdjustBigXj | pkg/mpc/ckd.go:88-125 | nil arguments change nothing; otherwise the public key is replaced and the share points are adjusted up to the first failure; success exactly when all are |
| KeyShares.AdjustedPointsShareChild | pkg/mpc/ckd.go:95-103 | the adjusted points are a sharing of key plus delta by a polynomial of the same degree |
| KeyShares.QuorumDeterminesKey | pkg/mpc/ckd.go:95-103 | any threshold + 1 parties determine the shared key: every polynomial of that degree through their points commits to the same constant term |
| KeyShares.QuorumRecoversChild | pkg/mpc/ckd.go:88-125 | after the adjustment every quorum that recovered the master key recovers exactly the child key |
| ChildDerivation.DeriveChildCompressed | pkg/ckdutil/child_derivation.go:40-93 | succeeds exactly when the inputs have their lengths, parse, and every step of the path succeeds; then returns the serialized point of the path |
| ChildDerivation.StepDataAuthenticates | pkg/ckdutil/child_derivation.go:68-70 | what a step authenticates has 37 bytes: 33 that give x and the parity of y, and four whose big-endian value is the index |
| ChildDerivation.StepDataInjective | pkg/ckdutil/child_derivation.go:68-70 | for x below 2^256 two steps authenticate the same bytes exactly when index, x and parity of y agree |
| ChildDerivation.StepIsPublicDerivation | pkg/ckdutil/child_derivation.go:63-91 | on any bytes that authenticate parent and index so: IL is the first half of the MAC (reduced on the Edwards curve), the step succeeds exactly when the index is not hardened, IL is a scalar between zero and the order and the child has no zero coordinate, and then gives the parent plus IL times the generator and the second half as chain code |
| ChildDerivation.HardenedNeverDerived | pkg/ckdutil/child_derivation.go:63-66 | no path that contains a hardened index can be derived |
| ChildDerivation.DeriveInStages | pkg/ckdutil/child_derivation.go:63-91 | deriving a concatenated path is deriving in two stages through the intermediate point and chain code, failures included; the empty path is the key itself and one index is one step |
| ChildDerivation.DerivationWalks | pkg/ckdutil/child_derivation.go:78-91 | each successful step adds a scalar between zero and the order times the generator |
| ChildDerivation.DerivedPoint | pkg/ckdutil/child_derivation.go:112-153 | a derived point is the master point plus the sum of the IL scalars times the generator, on both curves |
| ChildDerivation.QuorumSignsForDerivedKey | pkg/mpc/ecdsa_signing_session.go:151-162 | after the nodes adjust a sharing by the path's delta, every quorum recovers exactly the point the client derives |
| PointEncoding.PaddedBytes | pkg/ckdutil/child_derivation.go:175-183 | right-aligns the bytes in a zeroed buffer, or returns them when they fill it |
| PointEncoding.FillCoordinates | pkg/encoding/ecdsa.go:30-32 | the two copies put each coordinate right-aligned in its half |
| PointEncoding.EncodeS256PubKey | pkg/encoding/ecdsa.go:11-35 | succeeds exactly for a secp256k1 key with coordinates below 2^256, with 64 bytes |
| PointEncoding.DecodeEncoded | pkg/encoding/ecdsa.go:37-54 | an encoded key is x and y in 32 bytes each; decoding it, with or without the 0x04 prefix, returns its coordinates exactly when they are on the curve, and fails otherwise |
| PointEncoding.EncodedDecoded | pkg/encoding/ecdsa.go:37-54 | every accepted input re-encodes to its 64-byte body |
| PointEncoding.GeneratorOnCurve | pkg/encoding/ecdsa.go:49-51 | the curve test accepts the generator of secp256k1 and refuses the origin |
| PointEncoding.CurveIsSymmetric | pkg/encoding/ecdsa.go:49-51 | a point is accepted exactly when its mirror image is, whose y has the other parity |
| PointEncoding.CompressedLength | pkg/ckdutil/child_derivation.go:157-165 | compressed points have 33 bytes exactly when x is below 2^256: 3 for an odd y and 2 for an even one, then the big-endian x |
| PointEncoding.CompressedInjective | pkg/ckdutil/child_derivation.go:157-165 | a compressed form determines, and is determined by, x and the parity of y, as in section 2.3.3 of SEC 1 version 2.0 |
| Backup.ParseFrame | pkg/kvstore/badger_backup.go:117-134 | the loader reads back metadata and ciphertext of every frame |
| Backup.FrameOfParsed | pkg/kvstore/badger_backup.go:223-249 | whatever the loader parses is byte for byte the frame of what it read |
| Backup.ParseOfPrefix | pkg/kvstore/badger_backup.go:223-249 | a frame cut short fails to parse or loses only the end of its ciphertext |
| Backup.WrittenFileLoads | pkg/kvstore/badger_backup.go:216-260 | a completely written file loads exactly its dump |
| Backup.TornFileRefused | pkg/kvstore/badger_backup.go:216-260 | a file cut short anywhere is refused |
| Backup.BackupExecutor.Execute | pkg/kvstore/badger_backup.go:72-142 | files and version file after an attempt, for every point at which it can fail; success exactly when the file is complete or there is nothing new |
| Backup.BackupExecutor.RestoreAll | pkg/kvstore/badger_backup.go:198-207 | succeeds exactly when all files load, and then holds their union, in whatever order they are loaded |
| Backup.OlderFilesStay | pkg/kvstore/badger_backup.go:78-82 | an attempt never overwrites a file of a counter that was saved |
| Backup.WrittenMeta | pkg/kvstore/badger_backup.go:84-134 | a completed file carries, readable without the key, its nonce, the watermark it started from and the one it reached |
| Backup.WatermarkAdvances | pkg/kvstore/badger_backup.go:84-93 | the watermark of a dump with changes moves forward, to a committed version |
| Backup.CompletedCovers | pkg/kvstore/badger_backup.go:72-142 | after a completed backup every committed entry is covered by a file the next counter cannot overwrite |
| Backup.StepKeepsInv | pkg/kvstore/badger_backup.go:72-181 | coverage survives writes, failed and torn attempts, lost and torn watermarks and same-second retries |
| Backup.RunKeepsInv | pkg/kvstore/badger_backup.go:72-181 | coverage holds after every run |
| Backup.VersionFileTells | pkg/kvstore/badger_backup.go:144-181 | in every run the version file is unreadable exactly once a save tore it, absent exactly before the first save, and otherwise holds the number of saves and the watermark of the last |
| Backup.FileLoadsIff | pkg/kvstore/badger_backup.go:216-260 | after every run a file of the directory loads exactly when the last attempt that wrote it completed |
| Backup.RestoreIsSnapshot | pkg/kvstore/badger_backup.go:198-259 | in every run a restore succeeds exactly when each file's last write was complete, and then reads, for every key, exactly like the database as of the highest watermark a completed backup returned |
| Backup.UntornRunRestores | pkg/kvstore/badger_backup.go:72-181 | runs in which watermarks are lost or torn and same-second retries reuse names, but no data file is torn, always restore that database |
| Backup.SuccessIsUpToDate | pkg/kvstore/badger_backup.go:90-93 | when an attempt reports success, skipped or not, nothing is newer than that watermark |
| Backup.PassedTornFileStays | pkg/kvstore/badger_backup.go:111-134 | a torn file whose counter has been passed, or any torn file once the version file is unreadable, stays torn in every continuation, so every later restore fails |
| Backup.RetryRepairs | pkg/kvstore/badger_backup.go:111-134 | in every other reachable case the next attempt that completes in the torn file's second repairs it |
| Backup.UnreadableVersionStops | pkg/kvstore/badger_backup.go:158-175 | once the version file is torn, no continuation of the run changes the directory or the watermark |
| Backup.TornFileLeftExample | pkg/kvstore/badger_backup.go:72-142 | a run of one commit, a torn attempt and a successful retry a second later, after which no restore ever succeeds |
| SessionGuard.KeygenKeysDiffer | pkg/eventconsumer/event_consumer.go:929-930 | keygen requests share a guard key exactly when they are for one wallet |
| SessionGuard.EventConsumer.TryAddSession | pkg/eventconsumer/event_consumer.go:929-942 | adds exactly when the key is absent, with the current time |
| SessionGuard.EventConsumer.RemoveSession | pkg/eventconsumer/event_consumer.go:945-952 | removes that key only |
| SessionGuard.EventConsumer.CleanupStaleSessions | pkg/eventconsumer/event_consumer.go:914-924 | the loop removes exactly the entries older than the timeout |
| SessionGuard.StepKeepsInv | pkg/eventconsumer/event_consumer.go:187-195 | every step keeps at most one live keygen handler per wallet, each owning its entry |
| SessionGuard.RunKeepsInv | pkg/eventconsumer/event_consumer.go:187-195 | so it is at every moment of every run whose handlers finish within the timeout |
| SessionGuard.LiveEntryUntouched | pkg/eventconsumer/event_consumer.go:914-952 | no other handler, signing request or cleanup changes a live handler's entry, even when composed keys collide |
| SessionGuard.AdmittedIff | pkg/eventconsumer/event_consumer.go:929-942 | in every reachable state a keygen is admitted exactly when its key is not in the map, and is then its wallet's only handler; a refused one changes nothing |
| SessionGuard.LeaveAdmitsNext | pkg/eventconsumer/event_consumer.go:945-952 | a handler that leaves makes room for its own wallet and for nothing else |
| SessionGuard.OverstayingAdmitsSecond | pkg/eventconsumer/event_consumer.go:914-924 | in every state, a handler that overstays the timeout can be joined by a second one, whose entry the first then removes |
| SessionGuard.SigningOnlyDenies | pkg/eventconsumer/event_consumer.go:929-942 | a signing request removes nothing and blocks exactly the keygen with the same composed key |
| SessionGuard.CollidingKeysExample | pkg/eventconsumer/event_consumer.go:929-930 | requests of different wallets can have the same composed key |
| Nonces.Builder.NextNonce | wallet-api/pkg/transaction/builder.go:140-160 | an undisturbed call seeds if needed, returns the counter and advances it by one |
| Nonces.Builder.ReleaseNonce | wallet-api/pkg/transaction/builder.go:135-138 | decrements the counter, whichever nonce is meant |
| Nonces.UndisturbedCall | wallet-api/pkg/transaction/builder.go:140-160 | the steps of a call without interference change the counter as NextNonce does and leave the request holding the nonce it returns |
| Nonces.HoldersAfter | wallet-api/pkg/transaction/builder.go:140-160 | how each Redis call changes the set of requests holding a nonce |
| Nonces.StepKeepsBalance | wallet-api/pkg/transaction/builder.go:140-160 | each Redis call of each request keeps the balance |
| Nonces.RunKeepsBalance | wallet-api/pkg/transaction/builder.go:135-160 | conservation in every run, whatever is released: the counter is the winning seed plus the number of nonces held |
| Nonces.StepKeepsExact | wallet-api/pkg/transaction/builder.go:135-160 | each step keeps the held nonces distinct and contiguous, provided a released nonce is the highest |
| Nonces.RunKeepsExact | wallet-api/pkg/transaction/builder.go:135-160 | in every run that releases only the highest nonce, the nonces held are pairwise distinct and exactly the range from the winning seed to the counter |
| Nonces.ReleaseSafety | wallet-api/pkg/transaction/service.go:90-131 | from a state whose held nonces are exactly the range, after a release the next nonce issued is already held by another request exactly when the released one was not the highest |
| Nonces.ReleasedTooEarlyExample | wallet-api/pkg/transaction/service.go:90-131 | nonces 5 and 6 are held, 5 is released, and 6 is issued again |
| ResultRouter.Client.Request | wallet-api/pkg/mpc/client.go:91-120 | registers a fresh channel and takes the entry out again when publishing fails |
| ResultRouter.Client.HandleResult | wallet-api/pkg/mpc/client.go:122-150 | takes the waiter out and puts exactly the result in its channel, or does nothing without a waiter; the send cannot block |
| ResultRouter.StepKeepsInv | wallet-api/pkg/mpc/client.go:91-150 | each step keeps waiting channels unused and each pending send alone on its channel |
| ResultRouter.RunKeepsInv | wallet-api/pkg/mpc/client.go:91-150 | so it is after every interleaving |
| ResultRouter.DeliverySafety | wallet-api/pkg/mpc/client.go:91-150 | in every interleaving no channel is sent to twice, only results for its own ID arrive on it, what was sent is what the caller received followed by what lies in the buffer, no handler blocks, and a channel in the map is empty with no send under way |
| ResultRouter.OrphanNeverServed | wallet-api/pkg/mpc/client.go:90-104 | a channel dropped from the map without a send never receives anything |
| ResultRouter.SendCompletes | wallet-api/pkg/mpc/client.go:122-150 | a pending send is never blocked, and completing it leaves exactly that event in the buffer, nothing else ever sent, and no further sender |
| ResultRouter.DeliveredIsReceived | wallet-api/pkg/mpc/client.go:122-150 | after a delivery the caller either has exactly that event or can take it now and is then handed exactly that event |
| ResultRouter.WaiterFate | wallet-api/pkg/mpc/client.go:90-150 | over every continuation the first result, registration or failed publish of its ID decides about a waiting channel: until then it keeps waiting, after a result that result has been received, lies in the buffer, or its send is pending, otherwise nobody ever sends to it |
| ResultRouter.ExactlyOneResultIff | wallet-api/pkg/mpc/client.go:90-150 | over every continuation a waiting caller gets exactly one result (received, in its buffer, or about to be put there) if and only if a result came before any new registration and any failed publish of its ID |
| ResultRouter.RequestIsServed | wallet-api/pkg/mpc/client.go:91-150 | in every reachable state a new request can be registered, published, answered and received, and its caller then holds exactly that answer |
| ResultRouter.RequestedTwiceExample | wallet-api/pkg/mpc/client.go:90-104 | requesting a wallet twice orphans the first caller |
| ResultSubjects.ValidClientIsToken | pkg/client/client.go:275-286 | an accepted client ID is a single token and no wildcard |
| ResultSubjects.ValidClientIff | pkg/client/client.go:275-286 | accepted are exactly the empty ID and the IDs that are not blank and free of blanks, dots and wildcards |
| ResultSubjects.ScopedTokens | pkg/event/result_topics.go:60-67 | the tokens of a subject are those of its prefix, client and tail |
| ResultSubjects.SubscriptionMatch | pkg/event/result_topics.go:26-44 | a subscription matches exactly the subjects of its shape |
| ResultSubjects.SubscriptionReach | pkg/event/result_topics.go:22-44 | for all IDs, exactly which results a subscription receives, including the dotted IDs of clientless results that reach another client |
| ResultSubjects.OwnResultsOnly | pkg/event/result_topics.go:22-44 | for IDs of one token a subscription receives a result exactly when kind and client agree |
| ResultSubjects.DottedIdExample | pkg/event/result_topics.go:22-28 | the clientless result of wallet "c.x" reaches client "c" and not its own subscriber |
| ResultSubjects.SubscriptionsDisjoint | pkg/client/client.go:264-273 | no subject at all is matched by subscriptions of two clients or two kinds |
| ResultSubjects.StreamCovers | pkg/event/result_topics.go:14-20 | the stream holds every result and everything a subscription can match |
| ResultSubjects.ConsumerNameInjective | pkg/event/result_topics.go:46-51 | consumers of different kinds or clients have different names |
| Amounts.AmountRoundTrip | wallet-frontend/lib/utils.ts:9-31 | over all integers, a displayed amount reads back as itself exactly when it is not negative, has no fraction, or has exactly five significant fraction places |
| Amounts.NegativeAmountExample | wallet-frontend/lib/utils.ts:9-31 | minus one and a half does not read back |
| Amounts.ToRawIsFloor | wallet-frontend/lib/utils.ts:23-31 | reading any decimal gives the floor of its value times 10^6 |
| Amounts.ShowOfRead | wallet-frontend/lib/utils.ts:9-31 | showing what was read drops exactly the places past the sixth, trailing zeros and leading zeros |
| Amounts.NegativeDisplay | wallet-frontend/lib/utils.ts:23-31 | a minus sign applies to the whole part only, which is right exactly when the first six places are zeros |
| Amounts.SpaceIsIgnored | wallet-frontend/lib/utils.ts:11-27 | white space around a number does not matter, and blank text is zero |
| Amounts.FurtherPartsIgnored | wallet-frontend/lib/utils.ts:23-27 | text after a second point is ignored |
| Amounts.UnreadableIsZero | wallet-frontend/lib/utils.ts:9-31 | text that is no number is shown, and read, as zero |

## Left out

- tss-lib rounds, signature generation and verification, and the round tables: foreign code.
- Routing.Session.ReceiveTssMessage: leaves out the payload's round check and the party's own refusal of a message, which are decided inside tss-lib.
- Routing.Session.SubscribeFromPeers: every subscription is taken to succeed, and broadcast subscriptions with their signatures are not modelled.
- Routing.OpensAtDestination: AES-GCM is an ideal cipher, which opens under the same key and under no other; that two nodes hold the same key is what `KeyExchange.KeysAgree` provides.
- Routing.DirectReshareMessageRouted: the new node IDs of a reshare request are assumed to be distinct and well-formed; overlapping subscriptions may deliver a message more than once.
- Sessions.CreateSigningSession: the ready list contains the node itself, as `GetReadyPeersIncludeSelf` provides; session types other than the two curves and failing stores other than a missing key are not modelled.
- Sessions.InitAcceptsCreatedSession: of `lo.Intersect`, which is not part of this model, only the membership law is used; what depends on repetitions is stated for both ways of listing them.
- WalletRuns.IdleWalletComplete: one operation per wallet at a time, operations that start are completed, and store calls succeed; negative versions do not occur.
- WalletRuns.RunKeepsInv: no legacy wallet is named like a versioned share, the exact exception `KeyNames.StorageKeyClash` gives.
- PartyIds.GeneratePartyIDs: the random UUID and the sort index of a party are dropped, since neither routing nor storage reads them.
- PeerRegistry.Registry.PollPeers: a poll and a key delivery are atomic; the parsing of Consul keys, connection callbacks and finer interleavings are not modelled.
- PeerHealth.CheckPeer: only the counter; the Consul deletion and the retries of one probe are outside.
- KeyExchange.EcdhSession.HandleMessage: works on messages whose signature was verified; error reports are dropped.
- KeyShares.AdjustBigXj: the secret shares are not part of it; the group is any group whose generator has prime order.
- ChildDerivation.QuorumSignsForDerivedKey: the delta of the hierarchical derivation in tss-lib is taken to be the sum of the path's scalars modulo the order.
- ChildDerivation.DeriveChildCompressed: hex decoding and point parsing arrive as their results.
- PointEncoding.EncodeS256PubKey: coordinates are natural numbers.
- Backup.StepKeepsInv: of Badger only that a dump covers every entry newer than `since`, holds nothing older, and returns its newest version; entries committed during an attempt count as committed after it; 64-bit overflow is not modelled.
- Backup.BackupExecutor.RestoreAll: opening and closing the restored database are left out.
- SessionGuard.RunKeepsInv: the select race between completion and deadline inside a handler is not modelled; a handler is live from its entry to its exit.
- Nonces.RunKeepsExact: one chain and address, Redis calls succeed, the 24-hour expiry does not strike, no 64-bit overflow.
- Nonces.ReleaseSafety: speaks of runs up to and including the first release that is not of the highest nonce; after it only `Nonces.RunKeepsBalance` holds.
- Backup.TornFileLeftExample: the metadata text is assumed to fit the four-byte length field.
- ResultRouter.DeliverySafety: key generation and signing use separate maps of the same shape; one map stands for either.
- Amounts.AmountRoundTrip: six decimals, the default every caller uses.
- JetStream consumers, retries, timeouts, HTTP handlers, SQL, SSE, command line, user interface and configuration: input and output around the modelled logic.
- Memory zeroing, logging and metrics: no result depends on them.
