# kin: a verified model of the shared folder's core

kin is a peer-to-peer shared folder. Each node keeps a catalog of the files it and its
peers hold, swaps whole catalogs with connected peers, finds peers through a relay,
invites new ones with signed tokens, moves file contents in hashed chunks and watches its
own folder for changes. This project models that core and proves what every step keeps
and what every run guarantees.

The model keeps the form of the code. Values and protocols are datatypes and functions:
a state machine has one step per lock-held region, store transaction, file read, message
send, delivery or timer, with the calls between two such steps in its state, and `Exec`
runs a sequence of steps. Code that changes things in place is a class or a method with
loops, proved against those functions. Theorems about runs hold for every sequence of
steps, so for every interleaving of them. Where a promise does not hold of the code in
every run, there is a concrete run that breaks it and the exact condition under which it
holds.

| component | modules |
|---|---|
| catalog store | `Bucket`, `Catalog`, `CatalogLaws`, `Availability`, `HintTimes`, `CatalogStore` |
| catalog exchange | `Convert`, `Exchange`, `Provenance`, `Drain`, `Sync`, `Overtaking` |
| relay | `RelayClient`, `RelayWakeup`, `RelayDelivery`, `RelayClientObject`, `Registry`, `RelayServer`, `RelayOrder`, `RelayServed`, `RelayServerObject` |
| framing | `Endian`, `Framing`, `Writers`, `UnlockedWriters` |
| invites | `Base64Url`, `Invite`, `Nonces` |
| transfer | `Transfer`, `Paths`, `LocalFiles`, `Download` |
| watcher | `Debouncer`, `Watcher`, `Folder`, `FolderAgree`, `FolderComplete`, `FolderShows`, `FolderCareful`, `FolderTimers` |
| runs of the watcher that go wrong | `FolderPaths`, `FolderWitnesses`, `FolderClashes` |
| peers | `PeerStore` |

Outside functions are parameters. SHA-256 is any function from bytes to identifiers.
Ed25519 is any pair of sign and verify with 64-byte signatures where a signature verifies
under its own key (sections 5.1.6 and 5.1.7 of RFC 8032). Protobuf is any marshal and
unmarshal that are inverse. Base64url without padding is concrete, after section 5 of
RFC 4648. A bbolt `Update` is atomic, and a time outside the years 0 to 9999 makes
`json.Marshal` fail and aborts it.

## Main results

- The relay client never closes a channel twice, never sends on a closed one and never
  blocks under its lock, in every interleaving (`NeverPanics`). A waiter is woken at
  teardown if and only if no other waiter of its target displaced it (`TeardownWakes`). A
  waiter gets exactly the first rendezvous dispatched for it (`GetsFirstClaimed`), and the
  unclaimed ones reach `Incoming` in order (`IncomingInOrder`).
- What `RequestRendezvous(T)` returns names T and carries the key and address of a session
  that registered as T, for every server run and every client run
  (`RequestReturnsRegisteredPeer`), and a request for a reachable node is pushed and then
  answered whatever other sessions do (`RequestIsServed`).
- Every entry stored anywhere and every file in flight stems from a local put at some node
  (`EveryEntryWasPut`), and deliveries drain, so there is no ping-pong (`DeliveryDrains`,
  `Quiesces`). A peer lists a node's current files if and only if the node had the same
  files when it listed the offer delivered last (`CurrentIffListedSame`); listing and
  sending are two steps, so an older listing can overtake a newer one (`OvertakenOffer`).
- The availability index covers all live entries in every run (`IndexCoversEntries`) and
  stays exact for a node if and only if each replacing batch is clean
  (`ExactIffAllClean`). Its times are when each node was last seen (`HintTimeIsLastSeen`).
- Concurrent writers always produce a stream that parses to an order-preserving merge of
  their messages (`StreamIsAMerge`), and without the mutex they do if and only if no write
  lands inside another message (`MergeIffNeverCut`); every truncation of a stream reads
  exactly its whole frames (`TruncatedStream`).
- Invite tokens round-trip within the 16-bit limits and payloads are prefix-free
  (`DecodeEncode`, `PayloadPrefixFree`). A token is accepted if and only if it is
  unexpired, signed and new (`AcceptedIffSigned`).
- The debouncer refines a declarative specification over all timed traces
  (`DebouncerRefines`). With callbacks and removals interleaved, catalog and index agree
  on every file that is not in hand if and only if each callback ends covered, for calls
  that keep apart (`SettledIffCovered`). Once nothing is left to do they are exactly the
  folder, under six conditions (`CarefulRunsShowFolder`), each with a run that ends
  otherwise when only that one is dropped.

## Model

| member | source | states |
|---|---|---|
| `Bucket.ScanIsFilter` | internal/catalog/store.go:244-278 | seeking and scanning while the prefix lasts visits exactly the rows with the prefix, and cutting that block leaves exactly the others |
| `Bucket.GetPut` | internal/catalog/store.go:235-242 | a written key reads back its value, every other key reads as before |
| `Catalog.KeyPrefix` | internal/catalog/store.go:228-233 | an owner ID is a prefix of a composite key exactly when it is the key's owner |
| `Catalog.KeyInjective` | internal/catalog/store.go:228-233 | a composite key determines owner and file |
| `Catalog.AllMembers` | internal/catalog/store.go:153-168 | an entry is listed exactly when it is stored under its own key and is not a tombstone |
| `Catalog.ListsPartition` | internal/catalog/store.go:153-224 | the list by owner and the list for that peer together are the whole list, with multiplicity |
| `CatalogLaws.LastListedIsLast` | internal/catalog/store.go:122-135 | the entry that survives a batch is the one at the greatest index naming the file |
| `CatalogLaws.PutLocalLookup` | internal/catalog/store.go:50-63 | the put file is live under this node with the given fields, every other lookup is unchanged, and an unencodable time changes nothing |
| `CatalogLaws.DeleteLocalLookup` | internal/catalog/store.go:66-85 | exactly this node's entry for the file becomes a tombstone, and a missing one changes nothing |
| `CatalogLaws.ClearPeerLookup` | internal/catalog/store.go:269-278 | deleting by prefix forgets every entry of one owner and no entry of another |
| `CatalogLaws.PutPeerLookup` | internal/catalog/store.go:117-137 | replace-all: afterwards the peer's entries are the last listing of each file, whatever was there before, no other owner changes, and one bad time rejects the batch |
| `CatalogLaws.RemovePeerLookup` | internal/catalog/store.go:140-150 | afterwards nothing is stored under the peer and no other owner changed |
| `CatalogLaws.AddAvailHints` | internal/catalog/store.go:280-309 | adding availability makes the node hinted for the file and changes no other hint |
| `CatalogLaws.RemoveAvailHints` | internal/catalog/store.go:311-339 | removing availability withdraws exactly that hint |
| `CatalogLaws.PutBatchHints` | internal/catalog/store.go:122-135 | a batch adds the peer's hint for exactly the files it lists live, and keeps hint lists duplicate-free and non-empty |
| `CatalogLaws.RemovePeerHints` | internal/catalog/store.go:140-150 | the peer's hints are withdrawn for exactly the files it held live |
| `Availability.IndexCoversEntries` | internal/catalog/store.go:50-150 | in every reachable store each live entry has its owner among the hints, no hint list names a node twice and none is stored empty |
| `Availability.ExactIffAllClean` | internal/catalog/store.go:117-150 | the hints naming a node are exactly its live files all along a run if and only if each batch replacing its entries keeps every file it had live and ends live every file it lists live |
| `Availability.SelfExact` | internal/catalog/store.go:50-85 | for the node itself the index is exact in both directions in every run whose peer batches use other IDs |
| `Availability.PeerExact` | internal/catalog/store.go:117-150 | a peer whose batches are separated by RemovePeer and list no file both live and deleted has an exact index at every point |
| `Availability.StaleHintRun` | internal/catalog/store.go:117-150 | replacing a batch directly leaves a hint for a file that is gone, which even RemovePeer does not withdraw |
| `HintTimes.AddHintTimes` | internal/catalog/store.go:280-309 | the node's first hint gets the new time, or one with it is appended, and every other hint keeps its time and its place |
| `HintTimes.HintTimeIsLastSeen` | internal/catalog/store.go:280-309 | in every reachable store the time of a hint is that of the last local put, or accepted batch, that listed the file live for its node |
| `HintTimes.EntryTimeIsLastWrite` | internal/catalog/store.go:50-137 | in every reachable store an entry carries its owner, its file and the time it was last written |
| `CatalogStore.ScanListsOwner` | internal/catalog/store.go:244-258 | the scanned block holds one owner's live entries in the order of the whole list |
| `CatalogStore.ScanLive` | internal/catalog/store.go:244-258 | the cursor loop collects the live entries of the block that starts at the seek position |
| `CatalogStore.ListByPrefix` | internal/catalog/store.go:244-267 | the scan returns the whole list filtered by owner |
| `CatalogStore.CutBlock` | internal/catalog/store.go:269-278 | deleting under the moving cursor removes the block from the seek position on and nothing else |
| `CatalogStore.DeleteByPrefix` | internal/catalog/store.go:269-278 | exactly the rows without the prefix remain, in order |
| `CatalogStore.AddAvailability` | internal/catalog/store.go:280-309 | the loop gives the node's first hint the new time or appends one with it, as HintTimes.AddHintTimes says |
| `CatalogStore.FilterInPlace` | internal/catalog/store.go:322-328 | appending into the slice being read keeps exactly the hints of other nodes, in order |
| `CatalogStore.RemoveAvailability` | internal/catalog/store.go:311-339 | the node's hints go, and a list left empty is deleted |
| `CatalogStore.ScanForPath` | internal/catalog/store.go:94-112 | the scan stops at the first live entry of the block with the path |
| `CatalogStore.InsertOne` | internal/catalog/store.go:122-135 | one turn of the insert loop takes the first i entries in to the first i + 1 |
| `CatalogStore.InsertBatch` | internal/catalog/store.go:122-135 | the insert loop stores and hints the whole batch, or fails exactly when some time cannot be encoded |
| `CatalogStore.Store.PutLocal` | internal/catalog/store.go:50-63 | the new state of both buckets, success exactly when the time can be encoded |
| `CatalogStore.Store.DeleteLocal` | internal/catalog/store.go:66-85 | the new state of both buckets |
| `CatalogStore.Store.ListLocal` | internal/catalog/store.go:88-90 | the live entries of this node, in key order |
| `CatalogStore.Store.LookupLocalByPath` | internal/catalog/store.go:94-112 | the first live local entry at the path in key order, if any |
| `CatalogStore.Store.PutPeerEntries` | internal/catalog/store.go:117-137 | the new state of both buckets, unchanged when the batch is rejected |
| `CatalogStore.Store.RemovePeer` | internal/catalog/store.go:140-150 | the new state of both buckets |
| `CatalogStore.Store.ListAll` | internal/catalog/store.go:153-168 | all live entries in key order |
| `CatalogStore.Store.ListByOwner` | internal/catalog/store.go:171-173 | the whole list filtered by owner, in the same order |
| `CatalogStore.Store.ListForPeer` | internal/catalog/store.go:209-224 | the whole list without the peer's own entries, in the same order |
| `Convert.TruncateTime` | internal/catalog/convert.go:11-42 | sending a time twice loses nothing more, loses less than a second once, and keeps it storable |
| `Convert.EntriesToProto` | internal/catalog/convert.go:45-51 | every entry is converted, in order |
| `Convert.AcceptedOfSent` | internal/catalog/convert.go:11-51 | a list sent and read back is the same list with whole seconds and no path |
| `Convert.AcceptedCount` | internal/protocol/handler.go:156-165 | as many entries are kept as files are well formed |
| `Convert.AcceptedFields` | internal/catalog/convert.go:24-42 | the entries kept are those of the files with a 32-byte ID and owner, in order and field by field |
| `Convert.AcceptFiles` | internal/protocol/handler.go:156-165 | the loop skips malformed files and keeps the others in order |
| `Exchange.HandleCatalogOffer` | internal/protocol/handler.go:151-180 | store update and ack of the handler |
| `Exchange.SendCatalogOffer` | internal/protocol/handler.go:136-149 | what is listed is the list for the peer, converted; sending it is a later step |
| `Exchange.FlightStep` | internal/protocol/handler.go:136-180 | whatever is on a pipe or about to be sent after a step was so before, is an ack, or was listed by that step |
| `Exchange.DeliveryReplacesAll` | internal/protocol/handler.go:136-180 | after delivery B's entries under A are exactly the last listing of each file in A's list for B, carried over the wire, other owners are untouched and the ack counts the list |
| `Exchange.AckCountsWellFormed` | internal/protocol/handler.go:151-180 | whatever is offered, the ack counts the well-formed files, and there is none exactly when one of their times cannot be stored |
| `Exchange.RedeliveryIsIdempotent` | internal/protocol/handler.go:151-180 | delivering the same files again changes update times only |
| `Exchange.ListedIffLive` | internal/catalog/store.go:209-224 | a file is offered to a peer exactly when it is live under some other owner |
| `Exchange.DeliveredFilesAreLiveFiles` | internal/protocol/handler.go:136-180 | the receiver sees live under A exactly the files A holds live under any owner but the receiver |
| `Provenance.EveryEntryWasPut` | internal/protocol/handler.go:136-180 | in every run of N nodes, with any number of connections and offers listed before they are sent, each stored entry and each file in flight agrees on file, name, size and whole seconds with an earlier local put at some node |
| `Provenance.TwoNodesNoEcho` | internal/daemon/daemon.go:110-113 | in every reachable state of two nodes, each entry one holds under the other was put locally there |
| `Provenance.RelayedUnderAnotherOwner` | internal/catalog/store.go:117-137 | with three nodes an entry can end up under an owner that never put it |
| `Overtaking.HeldWasPutIff` | internal/catalog/store.go:117-137 | for N nodes, everything c holds under b was put at b if and only if b also put whatever it listed from another owner in its last delivered offer |
| `Drain.DeliveryDrains` | internal/protocol/handler.go:108-120 | each delivery strictly lowers twice the offers plus the acks in flight, and no send raises it |
| `Drain.DeliveriesAreBounded` | internal/protocol/handler.go:108-180 | without new input only so many sends and deliveries can follow |
| `Drain.Quiesces` | internal/daemon/daemon.go:110-113 | from every state sends and deliveries alone lead to an empty network |
| `Sync.ReceiverHoldsLastDelivered` | internal/protocol/handler.go:151-180 | in every reachable state what b holds under a is the image of the last offer of a delivered at b, on any connection |
| `Sync.DeliveredWasListed` | internal/protocol/handler.go:136-149 | that offer is a's list for b at the step that listed it |
| `Sync.CurrentIffListedSame` | internal/protocol/handler.go:136-180 | in every run b lists under a exactly a's files for it if and only if a had the same files when it listed the offer that was delivered last |
| `Sync.DeliveryIsInOrder` | internal/protocol/handler.go:45-54 | with one connection of the pair open at a time and no offer lost since, the last offer sent is on the pipe or is the last one delivered |
| `Sync.QuietMeansSynced` | internal/protocol/handler.go:136-215 | once the last offer sent has arrived, b is current if and only if a had its present files when that offer was listed |
| `Sync.SyncedIffNotOvertaken` | internal/protocol/handler.go:136-215 | if a's files for b are as they are now exactly since step c, b is current if and only if the last offer sent was listed after c, so exactly when no older listing overtook it |
| `Sync.ForPeerIgnoresPeer` | internal/catalog/store.go:209-224 | the list for a peer does not depend on what is stored under that peer |
| `Sync.UntouchedKeepsOffer` | internal/catalog/store.go:209-224 | without a local change and without a third node's catalog a's list for b stays the same |
| `Sync.AnnouncedMeansSynced` | internal/daemon/daemon.go:137-142 | an announcement listed after a's last change, sent last and arrived, makes b current |
| `Sync.TwoNodesSynced` | internal/protocol/handler.go:136-215 | between two nodes b lists exactly a's own files if and only if a had the same ones when the last offer sent was listed |
| `Overtaking.OvertakenOffer` | internal/protocol/handler.go:136-149 | on one connection that stays up, with a whole announcement after the last change delivered and nothing on the way, b misses the new file because an older listing was sent later |
| `Overtaking.TwoConnectionsReorder` | internal/protocol/handler.go:182-188 | with two connections of one pair the same happens although offers are listed and sent in order |
| `RelayClient.NeverPanics` | internal/relay/client.go:111-282 | in every interleaving no channel is closed twice or sent to after closing, no send blocks, pending channels are open, a closed client has none pending and a closed incoming channel, and a waiter only gets a rendezvous of its target |
| `RelayWakeup.WakeableIffNotOrphaned` | internal/relay/client.go:111-189 | a waiter can still be woken if and only if no other waiter of its target registered or cleaned up while it had nothing to receive |
| `RelayWakeup.TeardownWakes` | internal/relay/client.go:254-282 | after any teardown a waiter still in its select is woken exactly when it was never displaced |
| `RelayWakeup.EveryWaiterIsWoken` | internal/relay/client.go:254-282 | with at most one unfinished call per target every waiter outstanding at teardown is woken |
| `RelayWakeup.DisplacedWaiterHangs` | internal/relay/client.go:111-127 | of two overlapping requests for a target the first is not woken whatever follows |
| `RelayWakeup.CancelLeaves` | internal/relay/client.go:123-189 | a cancelled waiter leaves at once with its handed-out channel closed and its target freed, and so does one whose request cannot be written |
| `RelayWakeup.WhyLeft` | internal/relay/client.go:123-189 | in every run a context error, a write error and a lost connection are returned only after that cause |
| `RelayWakeup.ClosedByFirstTear` | internal/relay/client.go:191-199 | the client is closed exactly after a teardown, its connection exactly when the first one was a call of Close |
| `RelayDelivery.GetsFirstClaimed` | internal/relay/client.go:221-252 | in every interleaving a waiter has buffered, or has returned, exactly the first rendezvous dispatched while it waited as the one registered for that peer |
| `RelayDelivery.SelectReturns` | internal/relay/client.go:135-152 | a select returns that rendezvous, the lost connection if there is none and the channel is closed, and waits otherwise |
| `RelayDelivery.DispatchDelivers` | internal/relay/client.go:235-242 | a rendezvous for a waiter with nothing buffered is what its next select returns, whatever happens in between, and what WaitForRendezvous hands out |
| `RelayDelivery.OutAlwaysTells` | internal/relay/client.go:158-189 | the channel handed out holds at most the value its waiter got, and is closed empty when there was none |
| `RelayDelivery.UnclaimedArrives` | internal/relay/client.go:244-251 | a rendezvous nobody waits for becomes the last value of Incoming if fewer than 16 are buffered, and changes nothing otherwise |
| `RelayDelivery.IncomingInOrder` | internal/relay/client.go:244-251 | in every run what readers of Incoming took and what is buffered are together the unclaimed rendezvous, in order, but for those that met a full buffer |
| `RelayWakeup.ErrorLeavesConnOpen` | internal/relay/client.go:254-282 | a client torn down by an error or a read failure keeps its connection open through everything that follows |
| `RelayClientObject.Client.CloseChannel` | internal/relay/client.go:276-280 | closing an open channel does not panic and closes only it |
| `RelayClientObject.Client.TrySendTo` | internal/relay/client.go:235-251 | the non-blocking send buffers the value or drops it |
| `RelayClientObject.Client.RegisterWaiter` | internal/relay/client.go:111-121 | the registration step, keeping the client invariant |
| `RelayClientObject.Client.Unregister` | internal/relay/client.go:123-127 | the deferred delete, by target alone, keeping the invariant |
| `RelayClientObject.Client.DispatchRendezvous` | internal/relay/client.go:221-252 | the dispatch step, keeping the invariant |
| `RelayClientObject.Client.CloseOne` | internal/relay/client.go:276-279 | each turn of the loop meets an open channel |
| `RelayClientObject.Client.ClosePending` | internal/relay/client.go:276-279 | the loop, in any order, closes exactly the pending channels and empties the map |
| `RelayClientObject.Client.CloseLocked` | internal/relay/client.go:271-282 | the teardown step, at most once, keeping the invariant |
| `RelayClientObject.Client.Close` | internal/relay/client.go:192-199 | the Close step, keeping the invariant |
| `Registry.EntriesAreLive` | internal/relay/server.go:86-118 | in every run each entry belongs to a session still running and matches its key |
| `Registry.PresentIffNotEvicted` | internal/relay/server.go:86-118 | a running session is registered if and only if no other session of its ID entered or exited since it entered |
| `Registry.RunningIsPresent` | internal/protocol/handler.go:78-81 | without overlapping sessions of one ID every running session is registered |
| `Registry.OverlapDropsLiveSession` | internal/relay/server.go:171-175 | an overlapping reconnect loses its entry when the old session exits |
| `Registry.LiveTable.Register` | internal/protocol/handler.go:182-188 | the new connection runs and is the registered one |
| `Registry.LiveTable.Unregister` | internal/protocol/handler.go:190-194 | the table after the exit, deleted by ID whoever holds it |
| `Registry.LiveTable.Broadcast` | internal/protocol/handler.go:198-215 | the snapshot reaches exactly the running sessions nobody evicted |
| `RelayServer.TableIsRegistry` | internal/relay/server.go:86-118 | the server's registry is the session table, so the registry theorems hold of it |
| `RelayServer.RelayIsSafe` | internal/relay/server.go:120-169 | in every run each rendezvous carries the key and address of a session, an answer names the node asked for and is preceded by a push naming the requester to that node |
| `RelayServer.RefusedIffAllEvicted` | internal/relay/server.go:128-138 | a request is refused as not registered exactly when every session served under that ID was evicted |
| `RelayServer.WrittenIsRegistered` | internal/relay/server.go:120-169 | every rendezvous written describes a session that registered |
| `RelayServer.RequestReturnsRegisteredPeer` | internal/relay/client.go:111-152 | for every server run and every client fed from it, a returned rendezvous names the target and carries the key and address of a session registered as it |
| `RelayOrder.AnswersWithinPushes` | internal/relay/server.go:142-168 | at every point of the log a requester has been answered about a target at most as often as it was pushed to it |
| `RelayOrder.ConnectFailsIffPushedEarly` | internal/relay/client.go:76-85 | the first message a registering node reads is a rendezvous, which makes Connect fail, if and only if one was pushed to it before its confirmation was written |
| `RelayServed.SessionsAreRegistrations` | internal/relay/server.go:64-89 | sessions are exactly the valid registrations of the run, with the ID, key and address given |
| `RelayServed.RequestReturnsRegistration` | internal/relay/client.go:111-153 | what RequestRendezvous returns is the ID, key and address of a registration of the wanted node |
| `RelayServed.RequestIsServed` | internal/relay/server.go:120-169 | a request for a reachable node writes it a push that describes the requester and then the requester an answer that describes the node, whatever other sessions do in between |
| `RelayServed.ConnectRefusals` | internal/relay/server.go:120-138 | a malformed ID and an ID without a session that is not evicted are refused with their reasons, any other request goes on |
| `RelayServed.PushFailed` | internal/relay/server.go:159-165 | a push that cannot be written leads to one refusal, and the requester is served on |
| `RelayServerObject.FollowIsARun` | internal/relay/server.go:54-118 | from a reachable state the steps of a method lead to a reachable state, so RelayIsSafe holds after it |
| `RelayServerObject.ConnectEffect` | internal/relay/server.go:120-169 | one uninterrupted request changes the log only, by a refusal or by the push and then the answer |
| `RelayServerObject.Relay.HandleConnect` | internal/relay/server.go:120-169 | the code is the lookup, push and answer steps in that order |
| `RelayServerObject.Relay.Enter` | internal/relay/server.go:78-88 | the registration step, replacing whatever had the ID |
| `RelayServerObject.Relay.StartServing` | internal/relay/server.go:94-100 | the confirmation step |
| `RelayServerObject.Relay.AnswerAll` | internal/relay/server.go:102-114 | the message loop is the requests' steps in order |
| `RelayServerObject.Relay.Deregister` | internal/relay/server.go:171-175 | the deregistration step, by ID alone |
| `RelayServerObject.Relay.Serve` | internal/relay/server.go:54-118 | the whole call is register, confirm, the requests and deregister, or nothing for a malformed registration |
| `Endian.ReadBack` | internal/protocol/framing.go:29-33 | reading big-endian bytes gives the number back |
| `Endian.WriteBack` | internal/protocol/framing.go:46-47 | every byte string is the big-endian form of what it reads as |
| `Framing.ReadWhole` | internal/protocol/framing.go:41-65 | a whole frame reads back its message and leaves what follows |
| `Framing.ReadTorn` | internal/protocol/framing.go:41-65 | a cut frame reads as end of stream in its header and as a short body after it |
| `Framing.LargeHeaderRefused` | internal/protocol/framing.go:41-65 | a header is refused as too large, whatever follows, if and only if it is above 4 MiB |
| `Framing.ReadsThrough` | internal/protocol/framing.go:18-65 | an encoded sequence is read back exactly and reading goes on with the rest |
| `Framing.Whole` | internal/protocol/framing.go:41-65 | the number of frames wholly within the first k bytes |
| `Framing.TruncatedStream` | internal/protocol/framing.go:18-65 | any byte prefix of an encoded sequence reads as exactly the messages wholly inside it and then the right error |
| `Framing.MessageRoundTrip` | internal/protocol/framing.go:21-65 | writing and reading a message is the identity whatever follows on the stream |
| `Framing.PutUint32` | internal/protocol/framing.go:29-33 | the header buffer holds the big-endian length |
| `Framing.Sink.WriteMsg` | internal/protocol/framing.go:21-38 | exactly one frame is appended, and nothing for an oversized message |
| `Framing.Source.ReadFull` | internal/protocol/framing.go:41-58 | all bytes asked for are taken, or the stream is at its end |
| `Framing.Source.ReadFrameBytes` | internal/protocol/framing.go:41-65 | reads one frame or reports the error, including zero-length and over-long frames |
| `Writers.AlwaysFramed` | internal/protocol/handler.go:45-54 | in every interleaving the stream is the frames sent so far and at most one frame under way |
| `Writers.AlwaysOrdered` | internal/protocol/handler.go:45-54 | each writer's messages go out in its own order |
| `Writers.SendCompletes` | internal/protocol/handler.go:45-54 | a send the transport accepts in full puts the whole frame on the stream |
| `Writers.BrokenIffShort` | internal/protocol/framing.go:21-38 | the stream is broken if and only if some write was cut short |
| `Writers.StreamIsAMerge` | internal/protocol/handler.go:45-54 | the bytes always parse to a merge of the writers' sequences that keeps each order and loses nothing that fits unless a write failed |
| `Writers.PrimeIsAnEmptyFrame` | internal/transport/listener.go:186-197 | stripping the prime leaves the dialer's stream, and not stripping it reads one empty message first |
| `UnlockedWriters.MergeIffNeverCut` | internal/relay/client.go:129-133 | without the mutex, for messages whose first byte is not zero, the bytes are the beginning of a merge of the senders' sequences if and only if no write landed between the header and the body of a non-empty message |
| `UnlockedWriters.NeverCutReads` | internal/relay/client.go:129-133 | without such a write the reader gets exactly the completed messages, each sender's in order |
| `UnlockedWriters.UnlockedWritesCorrupt` | internal/relay/client.go:129-133 | after such a write, for all messages and whatever follows, the next message read starts with a zero byte, so nobody sent it |
| `UnlockedWriters.InterleavedHeaders` | internal/relay/client.go:129-133 | two requests whose headers go out one after the other never make a merge again, whatever follows |
| `Base64Url.RoundTrip` | internal/invite/invite.go:66-87 | decoding an encoding gives the bytes back |
| `Base64Url.DecodesIff` | internal/invite/invite.go:78-87 | a text decodes if and only if, line breaks apart, it is made of the 64 characters and leaves no single one over |
| `Invite.PayloadUnique` | internal/invite/invite.go:121-147 | at most one token, up to whole seconds, has its payload at the start of given bytes |
| `Invite.PayloadPrefixFree` | internal/invite/invite.go:121-147 | a payload that is a prefix of another belongs to the same token up to whole seconds |
| `Invite.ParsesDecides` | internal/invite/invite.go:150-199 | the token parsed is the one whose payload starts the data before its last 64 bytes |
| `Invite.ExtraBytesTolerated` | internal/invite/invite.go:150-199 | bytes between payload and signature do not change what is parsed |
| `Invite.MarshalPayload` | internal/invite/invite.go:121-147 | succeeds exactly within the 16-bit limits and a 32-byte key, with the payload bytes |
| `Invite.Unmarshal` | internal/invite/invite.go:150-199 | on arbitrary bytes never slices out of range, terminates and returns exactly the token the data starts with, if any |
| `Invite.DecodeEncode` | internal/invite/invite.go:66-87 | decoding an encoded token gives it back with its expiry in whole seconds, for every token within the limits |
| `Invite.DecodedIff` | internal/invite/invite.go:77-87 | a text decodes to a token if and only if it is "kin:" and the form of bytes that start with its payload and end in 64 more |
| `Invite.AcceptedIffSigned` | internal/invite/invite.go:90-118 | any token with any text is accepted if and only if it has not expired, the text carries a 64-byte signature that verifies under its 32-byte key, and its nonce is new |
| `Invite.RefusedBecause` | internal/invite/invite.go:90-118 | what each refusal says of the token |
| `Invite.FromUnix` | internal/invite/invite.go:190-198 | time.Unix gives a whole second with the same Unix seconds, wrapping near the int64 maximum |
| `Invite.DecodedNeverPanics` | internal/invite/invite.go:90-106 | a decoded token never makes Validate panic on its own text |
| `Invite.HonestTokenValidates` | internal/invite/invite.go:90-118 | the split recovers the signed bytes, so an honest token is accepted if and only if it is unexpired to the second and its nonce is new |
| `Nonces.PassesIsValidate` | internal/invite/invite.go:90-111 | the check of a call is Validate with the nonces recorded so far |
| `Nonces.AcceptedWereSigned` | internal/invite/invite.go:90-118 | every nonce accepted in a run was checked with an unexpired token whose text verifies |
| `Nonces.OnceIffNoOverlap` | internal/invite/invite.go:107-118 | each nonce is accepted at most once if and only if no two calls on one nonce both check it before either records it |
| `Nonces.OverlapAcceptsTwice` | internal/invite/invite.go:107-118 | two overlapping calls both accept any acceptable token |
| `Transfer.ChunksCarryFile` | internal/transfer/sender.go:60-93 | for every read schedule exactly the last chunk has eof, none exceeds 64 KiB and together they are the file |
| `Transfer.ChunksSoFar` | internal/transfer/sender.go:60-93 | a schedule that ends early has sent exactly what was read, and no chunk says it is the last |
| `Transfer.File.Read` | internal/transfer/sender.go:66-70 | the front of the buffer is the next part of the file |
| `Transfer.SendOne` | internal/transfer/sender.go:64-90 | one turn of the loop over the reused buffer |
| `Transfer.SendChunks` | internal/transfer/sender.go:60-93 | the loop sends the chunks of the schedule and ends well exactly when it completes |
| `Transfer.HandleRequest` | internal/transfer/sender.go:37-93 | not found, or the size and then the chunks |
| `Transfer.CollectedIsData` | internal/transfer/receiver.go:66-95 | chunks of which exactly the last has eof collect to their data |
| `Transfer.ReceivedIff` | internal/transfer/receiver.go:74-95 | something is received if and only if only chunks come up to a first eof and no write of data fails before it, and it is the data of all of them |
| `Transfer.FetchedIff` | internal/transfer/receiver.go:35-111 | a request succeeds if and only if the peer has the file, the chunks end with an eof, their data has the requested hash and nothing fails locally |
| `Transfer.HexInjective` | internal/transfer/receiver.go:106-111 | the name a file is saved under, two characters a byte, determines its ID |
| `Transfer.Dir.WriteChunks` | internal/transfer/receiver.go:66-95 | only the temporary file changes, and holds what was received |
| `Transfer.Dir.RequestFile` | internal/transfer/receiver.go:35-111 | for an arbitrary inbox, success adds exactly the file named by the hash with content of that hash, failure leaves the directory unchanged, and no temporary file remains |
| `Transfer.TransferDelivers` | internal/transfer/receiver.go:66-95 | whatever the schedule, the receiver collects exactly the sender's file |
| `Transfer.Transfer` | internal/transfer/receiver.go:35-111 | sender and receiver code together deliver the file, or fail without a trace when the hash is wrong |
| `Paths.BaseIsAName` | internal/download/download.go:123-144 | the base of a path holds no slash unless it is the root |
| `Paths.BaseIsLastPart` | internal/download/download.go:129-133 | the base of a path is its last part, trailing slashes dropped, "." of the empty path and "/" of slashes alone |
| `Download.FilterSelf` | internal/download/download.go:146-154 | exactly the other nodes' hints remain, in order |
| `Download.SortNewestFirst` | internal/download/download.go:79-81 | a permutation with the most recently seen first |
| `Download.TryInOrder` | internal/download/download.go:83-97 | the first owner in order that serves wins, and failed attempts leave the directory alone |
| `Download.SavedIsSafe` | internal/download/download.go:99-144 | the saved file has the requested hash, sits in the directory itself, and no other file is overwritten |
| `Download.SavedUnderItsName` | internal/download/download.go:123-144 | the file replaces what was under the hash name and is kept under the last part of its original name when that is free and usable, under the hash name otherwise |
| `Download.Download` | internal/download/download.go:68-144 | the file comes from the most recently seen owner that can serve it, never this node, is kept under its original name exactly when that is free and usable, replaces nothing but the hash name, and enters the local index unless it cannot be read; the call fails with directory and index unchanged exactly when no owner can |
| `Debouncer.DueSnoc` | internal/watcher/watcher.go:119-127 | how one more event changes which indexings are due |
| `Debouncer.DebouncerRefines` | internal/watcher/watcher.go:184-222 | on every timed trace a path is indexed at t if and only if a create or write was reported at t - 500 ms and nothing on the path after it and before t, and the timers are exactly the indexings to come |
| `Debouncer.OnePending` | internal/watcher/watcher.go:194-212 | at most one indexing of a path is pending |
| `Debouncer.Timers.Fire` | internal/watcher/watcher.go:203-211 | the callback drops the timer and indexes the path |
| `Debouncer.Timers.FireDue` | internal/watcher/watcher.go:203-211 | all due callbacks run, in any order, with one result |
| `Debouncer.Timers.HandleEvent` | internal/watcher/watcher.go:119-127 | create and write schedule, remove and rename cancel, in that priority |
| `Debouncer.Timers.Play` | internal/watcher/watcher.go:98-127 | a whole trace leaves the state of the specification |
| `Watcher.LookupByPath` | internal/catalog/store.go:94-112 | a live local entry at the path is found if and only if there is one |
| `Watcher.FindsLowest` | internal/catalog/store.go:94-112 | of several live entries at a path none has a lower hash than the one found |
| `Watcher.RemoveKeepsAgreement` | internal/watcher/watcher.go:163-181 | a removal takes the same file out of the catalog and the index |
| `Watcher.IndexAgreement` | internal/watcher/watcher.go:129-161 | indexing keeps catalog and index in agreement if and only if the two hashes find the same content or both were indexed at the path already |
| `Watcher.IndexedEntry` | internal/watcher/watcher.go:141-150 | indexing stores the size of the hashed content, the path, its last part as the name and the times, live under this node |
| `LocalFiles.LocalIndex.Add` | internal/transfer/localindex.go:49-58 | the path is recorded under the hash of its content, an unreadable file changes nothing |
| `Watcher.FolderWatcher.IndexFile` | internal/watcher/watcher.go:129-161 | the new catalog and index, the name, size, path and time of the stored entry, and when the change callback runs |
| `Watcher.FolderWatcher.HandleRemove` | internal/watcher/watcher.go:163-181 | the new catalog and index, and when the change callback runs |
| `Folder.AgreeIffLastWritesMatch` | internal/watcher/watcher.go:129-181 | in every interleaving of callbacks and removals the index is exactly hash to path of the live local entries if and only if for every file the last catalog transaction and the last index write on it say the same |
| `FolderAgree.SettledIffCovered` | internal/watcher/watcher.go:129-181 | when no call takes up a file that another has in hand, catalog and index agree all along a run on every file no call has in hand if and only if each callback that did not find its file again had it indexed at its path before, and the content found instead listed there |
| `FolderAgree.ApartIsAgreement` | internal/watcher/watcher.go:129-181 | with no file in hand that is agreement of the whole catalog and the whole index |
| `FolderAgree.ApartAgrees` | internal/watcher/watcher.go:129-181 | calls that keep apart and find the same file both times leave catalog and index in agreement whenever none is under way |
| `FolderComplete.EveryFileIndexed` | internal/watcher/watcher.go:98-181 | with distinct contents, storable times and no two calls on one file at once, every file of the folder is listed once nothing is left to do, however files were rewritten, deleted or replaced |
| `FolderShows.OnePerPathIffNoRelist` | internal/watcher/watcher.go:129-181 | in every interleaving no path is listed twice along a run if and only if no callback stores a path that is listed under other content |
| `FolderShows.QuietShowsFolder` | internal/watcher/watcher.go:98-181 | if moreover no path is listed twice, no removal overtakes a callback on its path and both hashes of a callback agree, catalog and index are exactly the folder |
| `FolderShows.ShownMeansDistinct` | internal/transfer/localindex.go:49-58 | two files with one hash can never both be shown, in any state |
| `FolderCareful.CarefulIsTidy` | internal/watcher/watcher.go:98-181 | without rewriting in place, early reuse of a path, clashes and races, no path is listed twice and both hashes always agree |
| `FolderCareful.CarefulRunsShowFolder` | internal/watcher/watcher.go:98-181 | then, with distinct contents and storable times, catalog and index are exactly the folder once nothing is left to do |
| `FolderWitnesses.DuplicateHides` | internal/transfer/localindex.go:49-58 | all other conditions hold: of two files with one content only the later one is shown |
| `FolderWitnesses.RewriteLeavesStale` | internal/watcher/watcher.go:129-161 | all other conditions hold: a file rewritten in place stays listed under its old content |
| `FolderWitnesses.UndatedIsMissing` | internal/watcher/watcher.go:148-150 | all other conditions hold: a file whose time cannot be stored is never listed |
| `FolderWitnesses.RaceLeavesRemoved` | internal/watcher/watcher.go:129-181 | all other conditions hold: a file deleted while its callback hashes it stays listed for good, in the catalog and not in the index |
| `FolderWitnesses.HurryLeavesStale` | internal/watcher/watcher.go:119-181 | all other conditions hold: a path reused while its removal is queued can keep its old content listed |
| `FolderClashes.ClashLeavesIndexed` | internal/watcher/watcher.go:152-179 | all other conditions hold: a removal between the second hash and the index write leaves the index with a file that is gone |
| `FolderClashes.ClashLosesFile` | internal/watcher/watcher.go:163-179 | a removal with a stale file in hand takes out another path that stores it, and a file of the folder is not listed |
| `FolderClashes.CrossedCallbacksDisagree` | internal/watcher/watcher.go:129-161 | two callbacks on one content leave the catalog with one path and the index with the other |
| `FolderTimers.TrackedIffNeverUntracked` | internal/watcher/watcher.go:194-222 | every pending timer is the one in the debouncer's map all along a run if and only if no callback gets the lock after an event has reset its timer |
| `FolderTimers.TrackedMeansOne` | internal/watcher/watcher.go:194-222 | then at most one timer of a path is pending, and a removal leaves none |
| `FolderTimers.TwoPending` | internal/watcher/watcher.go:194-212 | a touch while the callback waits for the lock, and one after it, leave two timers of a path pending |
| `PeerStore.KeyNeverChanges` | internal/peerstore/store.go:67-94 | in every run a known peer stays known, keeps its key and its endpoint list is only extended |
| `PeerStore.StoredIsMerged` | internal/peerstore/store.go:67-94 | a peer is known exactly when it was put, with the first key given and the merge of all lists given with that key |
| `PeerStore.SeenAndTrusted` | internal/peerstore/store.go:67-153 | in every run a peer's last-seen time is that of its last accepted put or update, and its trust the last one given, "tofu" for none |
| `PeerStore.EndpointsAreUnion` | internal/peerstore/store.go:175-188 | the stored endpoints are the union of the accepted lists |
| `PeerStore.NoDuplicatesIff` | internal/peerstore/store.go:175-188 | the stored list is duplicate-free if and only if no accepted list repeats an endpoint that was new with it |
| `PeerStore.DistinctListsMergeDistinct` | internal/peerstore/store.go:175-188 | duplicate-free accepted lists give a duplicate-free stored list |
| `PeerStore.RepeatedNewEndpoint` | internal/peerstore/store.go:175-188 | a new endpoint repeated in one list is stored twice |
| `PeerStore.MergeEndpoints` | internal/peerstore/store.go:175-188 | the existing list followed by the incoming endpoints it lacks, in order |
| `PeerStore.Store.PutPeer` | internal/peerstore/store.go:67-94 | the new store, unchanged exactly on a key mismatch |
| `PeerStore.Store.UpdateLastSeen` | internal/peerstore/store.go:135-153 | only the last-seen time of a known peer changes |
| `PeerStore.Store.Validate` | internal/invite/invite.go:90-118 | the verdict on expiry, text, signature and replay, and the nonce recorded exactly on acceptance |

## Left out

- The terminal interface, the daemon's control socket, configuration, identity files, the connection manager and NAT traversal: input and output, or easy members.
- QUIC, TLS and UDP: only the order of bytes on a stream and the 4-byte framing prime are modelled.
- The inside of SHA-256, Ed25519, protobuf, JSON and bbolt: parameters with the laws stated above. No claim about forgery or collisions.
- Text encoding: names, paths and endpoints of peers are Unicode strings, and invalid UTF-8 is not modelled.
- Clocks: one reading per store operation, where the code reads the clock several times within a transaction.
- Disk and JSON errors inside a transaction: an aborted transaction without effect. Only the unencodable time is modelled as a cause.
- The receive loops of the handler and of the relay client: they are the delivery and dispatch steps of the machines. `RelayServerObject` has the relay server's loop, one call at a time. Interleaved calls are the machine `RelayServer`.
- Offers above the 4 MiB frame limit: the network model has no size limit, so an offer too large to send is sent there.
- File requests in the network model: they change no catalog and carry their own model in `Transfer`.
- RemovePeer in the network model: it is in `Availability` and `CatalogStore`, and no part of the exchange calls it.
- Context cancellation: the end of a read schedule or of an inbox for transfers, a step of its own for relay waiters.
- The initial scan of the folder and directories inside it: runs of the watcher start from an empty folder, catalog and index.
- File attributes: size and modification time are taken together with the content that is hashed first.
- Debouncer.DebouncerRefines: a callback is atomic at its due time. A callback that has started and waits for the lock while a new event arrives is in the machine of `Folder`, and FolderTimers.TrackedIffNeverUntracked says what it changes.
- FolderCareful.CarefulRunsShowFolder: goes one way, since a run that breaks a condition can still end with the folder shown. `FolderWitnesses` and `FolderClashes` have a run for each condition that does not.
- Reading a file: its content is read in one step, so a write that lands while the file is being hashed is not modelled.
- Downloads in the machine of `Folder`: a downloaded file enters the local index in `Download`, and the folder as a written file.
- UnlockedWriters.MergeIffNeverCut: a failed or partial write without the mutex is not modelled; Writers.StreamIsAMerge has it with the mutex.
- The order of handling within one connection: the model lets the next message be handled before the ack of the last one is sent, where the code sends it first.
- Invite.Unmarshal: the length checks before nonce and expiry cannot fail once the loop has ended, so they have no branch of their own.
- docs/025-live-catalog-push.md:21 says that received offers are broadcast again to other peers. The daemon does not do that (internal/daemon/daemon.go:110-113), and the model follows the daemon.
