# Peer synchronisation, delegation and previews: a verified model

The application lets two peers, each with its own database, bring their notes into agreement. This
project models how they do it and proves what comes out, for every input and every order in which
messages may arrive. Four further parts of the application are modelled beside it: capability
tokens, the preview converter, message framing and the search snapshot.

| part | files |
|---|---|
| documents as per-client logs, state vectors, diffs; the documents of a resource | `Crdt.dfy`, `ResourceDocs.dfy` |
| one document exchange while both sides keep editing | `Exchange.dfy`, `ExchangeRun.dfy` |
| vector clocks: comparison, merge, clock table | `VectorClock.dfy` |
| manifests and their comparison | `Manifest.dfy` |
| one peer: what each message does (a function) and the connection object that does it step by step (a class) | `Peer.dfy`, `PeerConnection.dfy` |
| the whole user sync of two peers: state machine, safety, progress, convergence, termination, and starts that end unreconciled | `SyncRows.dfy`, `SyncRun.dfy`, `SyncSafety.dfy`, `SyncProgress.dfy`, `SyncConvergence.dfy`, `SyncTermination.dfy`, `SyncFailures.dfy` |
| many devices, and when skipping an exchange is sound | `Replicas.dfy` |
| UCAN validation, resource delegation trees, connection tokens | `Ucan.dfy`, `Delegation.dfy`, `Connect.dfy` |
| preview converter | `Preview.dfy`, `PreviewForest.dfy`, `PreviewLimits.dfy` |
| UTF-8, JSON framing over fragmented streams, reading serialised values back | `Utf8.dfy`, `Framing.dfy`, `JsonReading.dfy` |
| search index and snapshot | `SearchIndex.dfy` |

A user sync is a state machine over two peers and two bags of messages in flight; one step delivers
one message to its handler, because a connection awaits each handler before it takes the next
message. Bags allow every delivery order and the duplicates that arise because both peers start the
folder sync. A Yrs document is one log of operations per client: the state vector is the length of
each log, a diff the operations beyond a state vector, and applying an update extends the logs.

The database keeps one key per resource and user and one clock row per resource and device, while
inserts skip only rows whose id is there already. So a second key for a user, or a second row for a
device, makes an insert fail, and rows carry their ids here.

## What the proofs found

Some properties one would expect hold only under a condition. Each is proved as an exact condition
or with the failing inputs named.

- A drained user sync reconciles a resource that differs exactly when its exchanges take place and no
  user has different keys for it on the two sides. They take place exactly when the responder has
  nothing to send, or the initiator has something to send and none of it is refused as an addition
  (`DrainedRunReconcilesIff`).
  - If two holders have shared the resource with the same user, each with a key of its own, every run
    writes the joined documents and merges neither clocks nor share records nor keys
    (`SharedTwiceNeverReconciles`).
  - If an addition brings the responder a second key for a resource it has, it is refused, the
    completion is never sent and no exchange starts (`ClashingAdditionBlocksExchanges`).
  - If only the responder has something new, no exchange starts either (`ExchangesMayNeverStart`).
- A handler fails exactly where a resource finds no folder, a key or a clock row is refused, or a
  clock response that inserts rows comes a second time; by then its rows have been merged
  (`DeliveriesFailAsExpected`, `RepeatedAnswer`).
- Two peers that share a resource end with the same share records and clocks for it exactly if they had
  them from the start, or the exchanges can start and no user has different keys
  (`CommonResourceAgreesIff`).
- A folder that only the other side lists, and that is not stored here, is stored in the end if and
  only if it is not marked deleted there, although it is announced and asked for in any case
  (`DrainedRunBringsFoldersIff`). It arrives unmarked, a folder marked deleted here stays marked
  (`DrainedRunFolders`), and a folder whose share records do not name the receiver changes nothing there
  in any state of any run (`UntoldFolderStays`).
- Skipping a resource whose clocks agree is sound as long as every save is for a state key the
  resource was created with, no addition reaches a device that already has the resource and lacks a
  clock row that counts edits, and no exchange between sides that differ meets clashing keys. The
  guards are exact, step by step (`StepIff`); without them two devices can have equal clocks and
  different documents for good (`NewKeyStaysBehind`, `AdditionHidesEdits`, `ClashHidesEdits`).
- Validation by CID stops at the first aligned proof without the capability, so with two proofs a
  valid chain can be missed (`AcceptedIffOpenChain`, `SecondProofIsMissed`).
- Delegating works exactly when the domain is not empty, does not start with `:resource`, and
  contains `:resource` at most where the token to delegate from was issued by the owner
  (`DelegationIff`, `DeepDelegationCanFail`).
- A token handed on from a one-time token is accepted exactly if the target is among those who handed
  it on (`OneTimeTokenHandedOn`).
- The preview is well nested exactly when no `code` element that opens under a set code flag
  contains a code block (`WellNestedIff`). It has the text of the document exactly when no entity
  reference and no CDATA section stands for any: the reader reports both as events the converter drops
  (`PreviewKeepsTextIff`, `EscapedTextIsLost`).
- Cutting at the block limit is exact if and only if nothing past the limit is read at a depth that
  makes it written (`TruncationIsExactIff`). A quotation or list around flat blocks, for instance, is
  cut out unless it holds exactly one of them (`OneChildLeaksIff`); then its closing tag is left alone
  (`OneNestedChildLeaks`).
- A snapshot holds at most 10000 documents, so restoring is the identity exactly up to that size
  (`SaveAndRestore`).

## Model

| member | source | states |
|---|---|---|
| Crdt.DiffBelow | core/src/models/document.rs:42-55 | a diff carries only operations of the sender's document, each at its own client and position |
| Crdt.DiffIsTheRest | core/src/models/document.rs:42-55 | a diff carries exactly the operations beyond the state vector, for each client, and nothing for a peer that has all of them |
| Crdt.DiffFits | core/src/models/document.rs:32-55 | a diff against a state vector the receiver has reached leaves no gap and brings the receiver up to the sender's state vector |
| Crdt.ApplyGrows | core/src/models/document.rs:15-30 | applying a fitting update loses no operation, invents none and reaches every state vector the update reaches |
| Crdt.IntegratesIffNoGap | core/src/models/document.rs:15-30 | an update is taken in completely if and only if none of its blocks starts beyond the local log |
| Crdt.AppliedLog | core/src/models/document.rs:15-30 | for every update and client the log grows only by a block that continues it, by exactly the operations beyond its own length, and up to the block's end; a block behind a gap changes nothing |
| Crdt.AppliedTwice | core/src/models/document.rs:15-30 | a second copy of any update changes nothing |
| Crdt.JoinIsLeastUpperBound | core/src/models/document.rs:15-55 | two documents of one history have a least document above both, the same from either side |
| ResourceDocs.DecryptedResource.GetStateVectors | core/src/models/resource.rs:99-126 | lists exactly the stored states that are documents for the type, by their names, with their vectors and empty updates |
| ResourceDocs.DecryptedResource.SyncUpdates | core/src/models/resource.rs:134-229 | takes in the updates of every listed stored key, answers each state vector from the updated document, leaves every other key alone |
| Exchange.AnswerToRequest | services/src/resource_service.rs:465-482 | answering a state vector request leaves the documents unchanged and sends an update that fits the requester |
| Exchange.TakingInUpdate | services/src/resource_service.rs:564-590 | a fitting update loses nothing and reaches the vectors it carries, for every state key |
| Exchange.AnswerToUpdate | services/src/resource_service.rs:485-512 | the answer to a fitting update fits the side it came from and covers everything the answering side has |
| ExchangeRun.StepKeepsInvariant | network/src/p2p/resource_sync.rs:241-543 | an edit on either side, a new exchange or the delivery of any message keeps: logs within the history, own operations complete, messages fitting, progress |
| ExchangeRun.NoOperationLost | services/src/resource_service.rs:564-590 | in every interleaving of edits and exchanges neither side loses an operation or holds one nobody made |
| ExchangeRun.EditAppends | services/src/resource_service.rs:175-207 | an edit appends its operations to one log of the editing side and touches nothing else |
| ExchangeRun.EditIsKept | network/src/p2p/resource_sync.rs:241-543 | what a side writes in any reachable state stays in its documents, behind what it had, whatever is delivered or written later |
| ExchangeRun.EveryUpdateIntegrates | core/src/models/resource.rs:134-229 | in every reachable state every update in flight is taken in completely when it arrives |
| ExchangeRun.InitiatorReachesResponder | network/src/p2p/resource_sync.rs:289-399 | the initiator ends above the responder's documents as they were when the response was written, whatever happens in between |
| ExchangeRun.ResponderReachesInitiator | network/src/p2p/resource_sync.rs:401-500 | the responder ends above the initiator's documents as they were when the final update was written |
| ExchangeRun.DrainedRunConverges | network/src/p2p/resource_sync.rs:241-543 | without edits, any number of overlapping exchanges from any start leave both sides with the join of the two documents for each state key stored on both, and every other state key as it was |
| VectorClock.Merge | core/src/models/vector_clock.rs:96-156 | the four lists are exactly the missing and the lagging rows of either side; a flag is raised exactly when its lists are not both empty |
| VectorClock.MergeConverges | services/src/resource_service.rs:638-662 | applying the two pairs of lists leaves both sides at the pointwise maximum |
| VectorClock.MaxIsLarger | core/src/models/vector_clock.rs:96-156 | the maximum has a clock for each device of either side, not smaller than either and equal to one |
| VectorClock.RepeatedAnswer | persistance/src/repositories/vector_clock_repository.rs:255-300 | a second application of the same lists changes nothing, or is refused exactly when it inserts rows |
| VectorClock.AppliedIsMerged | services/src/resource_service.rs:638-662 | the lists of a merge, applied to the rows they were found lacking in, give the pointwise maximum and keep the ids of rows that exist |
| VectorClock.VectorClocksNeedUpdate | services/src/sync_service.rs:217-253 | asks for an update unless every row has a counterpart on the other side and no counterparts differ |
| VectorClock.NeedUpdateIffClocksDiffer | services/src/sync_service.rs:217-253 | with one row per device the answer is whether the two clocks differ, whatever the order of rows |
| VectorClock.FlagsMatchNeedUpdate | core/src/models/vector_clock.rs:96-156 | merging raises a flag exactly when the comparison asks for an update |
| VectorClock.StoredKeepsIff | persistance/src/models.rs:308-332 | exactly which 64-bit values survive the 32-bit column; the others keep their low 32 bits and are sign-extended |
| VectorClock.CreateInitialEntries | core/src/models/vector_clock.rs:38-55 | one row per device of the user: one for the creating device, zero for the others |
| VectorClock.ClockTable.SaveVectorClock | persistance/src/repositories/vector_clock_repository.rs:49-90 | inserts a row if the device has none and never overwrites one |
| VectorClock.ClockTable.IncrementVectorClock | persistance/src/repositories/vector_clock_repository.rs:92-148 | raises one row by one, or creates it with value one |
| VectorClock.ClockTable.UpdateVectorClocks | persistance/src/repositories/vector_clock_repository.rs:255-300 | updates and inserts together or not at all; fails exactly when an inserted device has a row |
| VectorClock.ClockTable.MergeVectorClocks | services/src/resource_service.rs:638-662 | the local rows become the pointwise maximum and the answer is exactly what the remote side lacks |
| Manifest.ProcessUserManifestRequest | services/src/sync_service.rs:508-540 | the result is the comparison of the two payloads read as sets and maps |
| Manifest.CompareMeans | services/src/sync_service.rs:154-303 | part by part in set terms: what is lacking on a side is what the other lists and it does not, for users, devices of common users, resources and folders |
| Manifest.CompareDevicesForCommonUsers | services/src/sync_service.rs:154-207 | for each common user the devices only one side knows, listed only where there are any |
| Manifest.CompareResourcesForCommonResources | services/src/sync_service.rs:255-303 | a common resource is listed exactly when its share records or its clocks differ |
| Manifest.CompareRecipients | services/src/sync_service.rs:632-698 | for each common folder with different recipients, the recipients only one side knows |
| Manifest.InverseOfCompare | core/src/models/sync.rs:65-81 | inverting one side's comparison gives the other side's, in every part |
| PeerConnection.PeerConnection.ProcessMessage | network/src/p2p/peer_connection.rs:342-382 | for every message and state, also where a handler fails, the object's new fields and sent messages are those of the handler function the protocol theorems are about; only a pass over missing rows, which no run meets, may stop half-way |
| PeerConnection.PeerConnection.SendResources | network/src/p2p/resource_sync.rs:24-106 | sends one request per resource the peer lacks, with a clock row for its device, or a completion if there is none; fails exactly when one is not stored, and has then marked just the rows it sent |
| PeerConnection.PeerConnection.SaveResourceSyncData | persistance/src/repositories/resource_repository.rs:684-863 | the inserts of keys and clock rows, one by one, come to the insertion of what is absent, or to nothing exactly when some user has another key or some device another row |
| PeerConnection.InsertKeys | persistance/src/repositories/resource_key_repository.rs:38-65 | fails exactly when some user has a different key, and then inserts none |
| PeerConnection.FindMissingResourceKeys | services/src/resource_service.rs:609-626 | both lists hold exactly the keys the other side does not have by id |
| PeerConnection.CompareShareRecords | services/src/resource_service.rs:664-695 | the records only one side has, in both directions |
| PeerConnection.PeerConnection.StartUserSync | network/src/p2p/user_sync.rs:20-54 | the initiator alone sends a payload that lists what it shares with the peer |
| PeerConnection.PeerConnection.GetUserManifest | services/src/sync_service.rs:457-506 | lists exactly the folders whose share records name the peer's user, with all recipients, exactly the stored resources shared with the peer, with the share ids and clock rows of the row, and the users with their devices |
| PeerConnection.PeerConnection.ProcessResourceAdditionRequest | network/src/p2p/resource_sync.rs:116-152 | stores the resource in its folder, else where it was created, else in the default folder, and answers with a completion exactly when nothing is missing any more; a refused addition changes nothing |
| PeerConnection.PeerConnection.ProcessResourceAdditionComplete | network/src/p2p/resource_sync.rs:158-235 | only the initiator answers: one state vector request for each resource that needs sync |
| PeerConnection.PeerConnection.ProcessFinalUpdateMerge | network/src/p2p/resource_sync.rs:401-500 | the merge of listed clock rows and the loops over keys and share records leave the merged row and an answer of exactly what the sender lacks; a refused key leaves the documents written and nothing else |
| PeerConnection.PeerConnection.ProcessVectorClockResponse | network/src/p2p/resource_sync.rs:502-543 | the inserts of clock rows and keys, one by one, come to all of them or to none, in this order, share records in between |
| PeerConnection.PeerConnection.ProcessResourceUpdateMessage | network/src/p2p/resource_sync.rs:241-547 | each of the four exchange messages changes one row as specified, also where it fails, and answers with one message or none |
| PeerConnection.PeerConnection.ProcessUnknownFoldersPayload | network/src/p2p/folder_sync.rs:72-111 | all folders and records are stored, those that were not stored as live and the others with the mark they had; the responder answers with its live folders the peer lacks, the initiator with recipients |
| PeerConnection.PeerConnection.ProcessFolderRecipientSync | network/src/p2p/folder_sync.rs:113-141 | records are added before the responder's own are sent, then the resources follow |
| PeerConnection.PeerConnection.StartFolderSync | network/src/p2p/folder_sync.rs:16-50 | a folder payload is sent in every case, empty when the peer lacks no folder |
| PeerConnection.PeerConnection.SaveShareRecords | services/src/folder_service.rs:280-297 | every folder's records become the union of old and new |
| PeerConnection.PeerConnection.GetMissingRemoteFolderShareRecords | services/src/folder_service.rs:299-321 | for each differing folder exactly the stored records of recipients only this side knows |
| PeerConnection.PeerConnection.CreateUnknownFoldersPayload | services/src/folder_service.rs:250-278 | the folders that are not marked deleted, each with all its records |
| PeerConnection.PeerConnection.ProcessUserManifestPayload | network/src/p2p/user_sync.rs:61-151 | the payload built from the rows and the comparison of the lists give the comparison of what the two peers share; a response is stored inverted, an acknowledgment refused without a manifest |
| SyncRows.UpdatesDelivered | network/src/p2p/resource_sync.rs:323-399 | the initiator catches up with the responder's start and its answer fits the responder |
| SyncRows.FinalDelivered | network/src/p2p/resource_sync.rs:401-500 | the responder catches up with the initiator's start in any case; its clocks, shares and keys become the merged ones, and it answers, exactly when no user has different keys on the two sides, also when exchanges overlap |
| SyncRows.ClocksDelivered | network/src/p2p/resource_sync.rs:502-543 | after a clock response, applied or refused, the initiator's clocks, shares and keys are the merged ones |
| SyncRun.StartIsSettled | services/src/sync_service.rs:508-540 | what one side sends is what the other needs, apart from what is in sync, and all of it is stored |
| SyncSafety.StepKeepsSafe | network/src/p2p/peer_connection.rs:342-382 | every delivery, failing or not, keeps: manifests only shrink, records between start and union, untouched rows untouched, clashing resources still missing, every message in flight fits; and it fails exactly where a folder, a key or a clock row is in the way |
| SyncSafety.DeliveriesFailAsExpected | network/src/p2p/peer_connection.rs:342-382 | in no delivery order does a handler lack a manifest or a row; each delivery succeeds if and only if it is no clashing or homeless addition, no final update with a clashing key and no clock response whose rows are refused |
| SyncSafety.SmoothDeliverySucceeds | persistance/migrations/2024-10-18-052005_create_initial_schema/up.sql:82-82 | where keys agree, resources find folders and no addition clashes, only a repeated clock response can fail |
| SyncSafety.ManifestSafety | network/src/p2p/peer_connection.rs:129-136 | a message whose handler reads the manifest never arrives before it is set; what a side sends stays fixed, the two comparisons are mutually inverse, missing lists stay within what the other sends |
| SyncSafety.CompleteMeansAllStored | network/src/p2p/resource_sync.rs:116-152 | a completion is sent from the addition handler exactly when nothing is missing any more; then everything the side originally lacked is stored, and nothing clashed |
| SyncSafety.RowsOutsideTheSync | persistance/src/repositories/resource_repository.rs:684-863 | rows the sync is not about stay as they were; rows sent gain at most a clock row; a row received although it was there keeps its documents and folder; other rows received are the sender's, in their own folder if the receiver knew it, elsewhere only if it does not know it |
| SyncProgress.FolderProgressStep | network/src/p2p/folder_sync.rs:72-141 | each folder goal is met or a message of its chain is in flight, after every delivery |
| SyncProgress.AdditionsProgressStep | network/src/p2p/resource_sync.rs:24-152 | once the other side has sent, every resource still missing is in flight unless its addition clashes, if resources find folders |
| SyncProgress.CompleteProgressStep | network/src/p2p/resource_sync.rs:24-152 | while something can start the exchanges, a completion is under way, received, or additions are outstanding |
| SyncProgress.QuietUntilBegunStep | network/src/p2p/resource_sync.rs:158-235 | before the initiator receives a completion nothing of an exchange is in flight and no row in sync has changed |
| SyncProgress.ExchangeProgressStep | network/src/p2p/resource_sync.rs:241-543 | once begun, for each resource every stage of its exchange has had its effect or is still in flight; the stages after the final update only where keys agree |
| SyncConvergence.DrainedRunStoresEverything | network/src/p2p/resource_sync.rs:24-152 | when no message is left, both sides store every resource of both manifests except what is still on their missing lists; if resources find folders that is exactly what clashed, and it was stored before |
| SyncConvergence.DrainedRunMergesRecipients | services/src/sync_service.rs:660-692 | a folder both sides list, deleted or not, ends on each side with exactly the union of the original recipients |
| SyncConvergence.DrainedRunBringsFoldersIff | persistance/src/repositories/folder_repository.rs:145-169 | a folder only the other side lists arrives with the union of the recipients if it is not marked deleted there, and nothing about it changes if it is |
| SyncConvergence.DrainedRunFolders | persistance/src/repositories/folder_repository.rs:198-274 | which folders are stored, which are live and which recipients they have in the end, in terms of the two peers at the start: no mark is lost and no deleted folder is revived |
| SyncConvergence.UntoldFolderStays | persistance/src/repositories/folder_repository.rs:206-212 | in every state of every run a folder whose share records at the other side do not name this side's user is here as it was, with its mark and its recipients |
| SyncConvergence.UnsharedNeverArrives | services/src/sync_service.rs:457-506 | in every state of every run a resource that was not here is here only if the other side shares it |
| SyncConvergence.DrainedRunStoresIff | network/src/p2p/resource_sync.rs:24-152 | if resources find folders, stored in the end is exactly what was stored and what the other side shares |
| SyncConvergence.CommonResourceAgreesIff | services/src/sync_service.rs:255-303 | a resource both sides share ends with equal share records and clocks if and only if it began so, or the exchanges can start and no user has different keys |
| SyncConvergence.ClashIff | persistance/migrations/2024-10-18-052005_create_initial_schema/up.sql:67-82 | an addition to a holder is refused exactly for a different key, a different clock row, or a row for the holder's device that the sender lacks |
| SyncConvergence.DrainedRunReconciles | network/src/p2p/resource_sync.rs:158-235 | in terms of the final state: documents, clocks, share records and keys agree for a resource in sync if and only if exchanges took place and no user has different keys; with such keys the documents agree and the rest is as it was |
| SyncConvergence.RepeatedFolderMessage | network/src/p2p/folder_sync.rs:72-141 | the second copy of a folder message changes nothing |
| SyncConvergence.DrainedRunReconcilesIff | network/src/p2p/resource_sync.rs:24-235 | in terms of the start: a resource in sync is reconciled if and only if no user has different keys for it and either the responder has nothing to send or the initiator has something to send and none of it clashes; else its rows, or all of them but the documents, are untouched |
| SyncTermination.EveryDeliveryLightens | network/src/p2p/user_sync.rs:61-220 | the total weight in flight strictly falls with each delivery, in any order, despite the doubled folder and resource passes |
| SyncTermination.RunsAreBounded | network/src/p2p/folder_sync.rs:16-141 | no user sync delivers more messages than an explicit bound in the numbers of resources sent and in sync |
| SyncTermination.EveryRunCanFinish | network/src/p2p/resource_sync.rs:24-547 | from any point a user sync can be completed to one with no message left |
| SyncFailures.ExchangesMayNeverStart | network/src/p2p/resource_sync.rs:24-235 | two peers for which completed runs exist and every one leaves a differing resource as it was, as the initiator has nothing to send |
| SyncFailures.SharedTwiceNeverReconciles | persistance/src/repositories/resource_key_repository.rs:38-65 | two peers with a key each for the same third user: every completed run joins the documents and leaves clocks, share records and keys as they were |
| SyncFailures.ClashingAdditionBlocksExchanges | persistance/src/repositories/resource_repository.rs:684-863 | two peers both of which have something to send: the addition of a resource the responder holds with another key is refused in every completed run and no exchange starts |
| SyncFailures.DrainedRunExists | network/src/p2p/user_sync.rs:20-54 | any two well-formed peers with coherent documents have a start, with a payload that lists what the initiator shares, and a completed run |
| Replicas.SaveIff | services/src/resource_service.rs:175-207 | a save keeps every replica holding exactly the edits its clocks count if and only if the resource was created with the state key it is for |
| Replicas.AddIff | services/src/sync_service.rs:380-443 | an addition keeps that if and only if the receiver lacks the resource, refuses it, or gains clock rows that count no edits |
| Replicas.SyncIff | network/src/p2p/resource_sync.rs:313-543 | a completed exchange keeps it if and only if no user has different keys on the two sides or the clocks count the same edits |
| Replicas.ShareKeeps | persistance/src/repositories/resource_repository.rs:436-479 | sharing with a further user keeps it |
| Replicas.SharingMeans | services/src/resource_service.rs:289-432 | sharing changes nothing for a user who has a key or over a clock row that exists; else it adds a key, a share record and clock rows of value zero |
| Replicas.StepIff | services/src/sync_service.rs:217-253 | the guard of each kind of step is exact |
| Replicas.SkippingIsSound | services/src/sync_service.rs:217-253 | after any guarded history among any number of devices, clocks that need no update mean equal documents |
| Replicas.AdditionHidesEdits | persistance/src/repositories/resource_repository.rs:684-863 | an addition to a holder makes clocks equal and documents different whenever it is not refused, the rows it inserts count edits and the other clocks agree |
| Replicas.AdditionHidesEditsExample | persistance/src/repositories/resource_repository.rs:684-863 | a concrete guarded history that leads there |
| Replicas.ClashHidesEdits | network/src/p2p/resource_sync.rs:401-500 | an exchange with clashing keys brings a device edits its clocks do not count, so a third device with equal clocks has different documents |
| Replicas.NewKeyStaysBehind | core/src/models/resource.rs:134-229 | a state key stored on one side only is not exchanged while the clocks that count its edits are |
| Replicas.DrainedSyncIsExchange | network/src/p2p/resource_sync.rs:313-543 | what a drained user sync whose exchanges took place leaves for a resource, with clashing keys or without, is what a completed exchange between two devices means here |
| Ucan.CheckCapability | crypto_utils/src/ucan_utils.rs:355-379 | succeeds exactly when some capability has the ability and names the resource or a starred prefix of it |
| Ucan.AcceptedIffOpenChain | crypto_utils/src/ucan_utils.rs:548-616 | acceptance holds if and only if a chain of aligned, capable proofs leads to the verifier with no earlier aligned proof lacking the capability |
| Ucan.RefusalReasons | crypto_utils/src/ucan_utils.rs:548-616 | which of the four errors a refused token gets: by the kind of its issuer, for want of proofs, for an aligned proof without the capability, or else for the chain |
| Ucan.AcceptedMeansChain | crypto_utils/src/ucan_utils.rs:548-616 | acceptance implies a finite chain of valid, aligned, capable proofs ending at a token the verifier issued |
| Ucan.CompleteWithOneProof | crypto_utils/src/ucan_utils.rs:548-616 | with at most one proof per token every such chain is accepted |
| Ucan.SecondProofIsMissed | crypto_utils/src/ucan_utils.rs:590-592 | with two proofs a chain can exist and validation still fail |
| Ucan.ContentAddressedIsAcyclic | crypto_utils/src/ucan_utils.rs:548-616 | a resolver that returns what a CID stands for has no cycles, so validation ends |
| Delegation.GenerateResourceOwnerUcan | crypto_utils/src/ucan_utils.rs:427-482 | the owner's token has owner as issuer and audience and grants the four abilities |
| Delegation.ExtractDomainFromUcan | crypto_utils/src/ucan_utils.rs:392-408 | returns a domain if and only if it is the non-empty text before the first mark of some capability and no earlier one has such text |
| Delegation.ExtractedDomain | crypto_utils/src/ucan_utils.rs:392-408 | extraction gives the minting domain back exactly when it is not empty and does not contain the mark |
| Delegation.TreeTokenValidates | services/src/folder_service.rs:172-187 | with the list of permissions that is passed on, a token at any depth of a delegation tree validates for the owner, for each of the abilities in the list |
| Delegation.MintedTokenPasses | crypto_utils/src/ucan_operations.rs:35-63 | a token at any depth of the tree passes the update check for its own audience when its ancestors can be resolved, and is refused for every other presenter |
| Delegation.UpdateCheckIff | crypto_utils/src/ucan_operations.rs:35-63 | for every text and presenter the update check accepts if and only if the text is a valid token addressed to the presenter and an open chain for updating the resource leads to the root; forged and expired tokens are refused as such |
| Delegation.UpdateRefusals | crypto_utils/src/ucan_operations.rs:35-63 | for every refused token the error: its text, its audience, or why no chain was found |
| Delegation.DelegatesIff | crypto_utils/src/crypto_utils.rs:449-493 | for every text a token is minted if and only if the text is a valid token that names a domain and an open chain for sharing leads to the verifier; the minted token has the permissions asked for and that token as its one proof |
| Delegation.DelegationRefusals | crypto_utils/src/crypto_utils.rs:449-493 | for every refused delegation the error: the parent's text, no domain in it, or why no chain was found |
| Delegation.DelegationIff | crypto_utils/src/crypto_utils.rs:449-493 | delegating yields the next token of the tree if and only if the domain condition holds, and fails otherwise |
| Delegation.WholeTreeCanBeMinted | crypto_utils/src/crypto_utils.rs:449-493 | in a domain without the mark every path of the tree can be minted, to any depth |
| Delegation.DeepDelegationCanFail | crypto_utils/src/crypto_utils.rs:449-493 | a concrete domain in which a recipient's own delegation fails |
| Connect.AcceptedIffChain | crypto_utils/src/ucan_utils.rs:716-767 | the embedded validation accepts exactly the unbroken chains of valid, capable, aligned, listed tokens that reach the target's key |
| Connect.ConnectTokenIff | crypto_utils/src/ucan_operations.rs:6-32 | for every text and presenter: accepted if and only if it is a valid token and either a one-time token the verifier issued for connecting to the user, or no one-time token, addressed to the presenter, and the beginning of an unbroken chain to the verifier |
| Connect.ConnectRefusals | crypto_utils/src/ucan_utils.rs:716-767 | for every refused token the error; along embedded tokens it is the reason the longest unbroken path ends where it does |
| Connect.HandedOnTokenConnects | crypto_utils/src/ucan_operations.rs:6-32 | a token handed on any number of times connects its own holder and nobody else |
| Connect.FirstHolderMayShare | crypto_utils/src/ucan_utils.rs:239-280 | of the tokens handed on only the first, which the target issued, grants sharing |
| Connect.OneTimeTokenHandedOn | crypto_utils/src/ucan_utils.rs:677-767 | a token handed on any number of times from a one-time token is accepted if and only if the target is among those who handed it on |
| Preview.ConvertProsemirrorToHtml | livnote/src-tauri/src/preview_generator.rs:48-337 | the loop computes the fold of the one-event step over the input, about which the rows below speak |
| PreviewForest.ConversionIsEmit | livnote/src-tauri/src/preview_generator.rs:48-337 | within the block limit the one-pass conversion equals the element-by-element conversion of the document, with depth and stack back to empty |
| PreviewForest.ElementIsWritten | livnote/src-tauri/src/preview_generator.rs:85-290 | within the limit the output for an element is the conversion of its children in literally given tags, images with exactly five attributes in their order |
| PreviewForest.NodeIsWritten | livnote/src-tauri/src/preview_generator.rs:85-290 | the same at any depth, also inside code, where only `code` elements lose their tags |
| PreviewForest.LeafIsWritten | livnote/src-tauri/src/preview_generator.rs:299-324 | a self-closing element gives a line break, an image with its attributes, or nothing |
| PreviewForest.WellNestedIff | livnote/src-tauri/src/preview_generator.rs:86-290 | the output is well nested if and only if no code element opened under a set code flag contains a code block |
| PreviewForest.WellNestedWithoutNestedCodeBlocks | livnote/src-tauri/src/preview_generator.rs:86-290 | without a code block inside a code block the output is well nested |
| PreviewForest.PreviewKeepsTextIff | livnote/src-tauri/src/preview_generator.rs:291-331 | within the block limit the preview has the text of the document, also that of unknown elements, if and only if no reference and no CDATA section stands for text; it is shorter by exactly what they stand for |
| PreviewForest.EscapedTextIsLost | livnote/src-tauri/src/preview_generator.rs:326-331 | a paragraph with an escaped angle bracket, whose preview lacks it |
| PreviewLimits.StackMirrorsOpenElements | livnote/src-tauri/src/preview_generator.rs:65-333 | at every point of a well-nested input the stack holds the tags of the open elements, heading levels included, and the depth counts them |
| PreviewLimits.TruncationIsExactIff | livnote/src-tauri/src/preview_generator.rs:65-208 | for every tail past the last block within the limit the output is that of the document cut there if and only if the tail is quiet: followed node by node, nothing in it is met at a depth and outside skipping so that it is written |
| PreviewLimits.DroppedIffBlock | livnote/src-tauri/src/preview_generator.rs:340-353 | past the limit an element around text is dropped if and only if it is one of the nine block elements |
| PreviewLimits.FlatTailsAreQuiet | livnote/src-tauri/src/preview_generator.rs:66-83 | root blocks without element children are all cut out |
| PreviewLimits.OneChildLeaksIff | livnote/src-tauri/src/preview_generator.rs:195-208 | a quotation, list or table past the limit around flat blocks is cut out unless it holds exactly one |
| PreviewLimits.HeadingIsQuiet | livnote/src-tauri/src/preview_generator.rs:241-245 | a heading past the limit around one element writes nothing, as its closing tag comes from the stack |
| PreviewLimits.OneNestedChildLeaks | livnote/src-tauri/src/preview_generator.rs:198-208 | a block past the limit around one element leaves exactly its closing tag, and the output is not well nested |
| Utf8.DecodeOfEncoded | network/src/p2p/peer_connection.rs:271-271 | decoding encoded text gives the text back (RFC 3629, section 3) |
| Utf8.EncodedOfDecoded | network/src/p2p/peer_connection.rs:271-271 | nothing but the encoding of a text decodes to it, so overlong forms and surrogates are refused (RFC 3629, section 3) |
| Utf8.DecodedPrefix | network/src/p2p/peer_connection.rs:271-271 | part of the bytes decodes to a proper prefix of the text or is refused, so a cut inside a character never yields wrong text |
| Framing.MessageIsComplete | network/src/p2p/peer_connection.rs:386-391 | a serialised object, array or string ends exactly where its text ends, whatever its strings contain (RFC 8259, sections 2, 4, 5 and 7) |
| Framing.ProperPrefixIsIncomplete | network/src/p2p/peer_connection.rs:272-309 | every proper prefix of a message is reported as incomplete, never as complete or malformed |
| Framing.NoValueIsAProperPrefix | network/src/p2p/peer_connection.rs:272-309 | no proper prefix of a serialised object, array or string is the serialisation of any value |
| JsonReading.ReadingInvertsSerialising | network/src/p2p/peer_connection.rs:386-391 | reading a serialised value by the grammar of RFC 8259 gives the value back and leaves nothing over, whatever its strings contain |
| JsonReading.SerialisingIsInjective | network/src/p2p/peer_connection.rs:386-391 | two values are never serialised to the same text |
| Framing.Receive | network/src/p2p/peer_connection.rs:259-324 | for all fragments: what is read is decided when the bytes so far first decode to a text that is complete or malformed, and nothing is read without that; of a message, cut anywhere, exactly the message is read, once all its bytes are there |
| Framing.MessageIsRead | network/src/p2p/peer_connection.rs:386-391 | of the bytes of a message, cut anywhere, no proper part decides anything, and all of them give the message |
| Framing.SendChunks | network/src/p2p/peer_connection.rs:403-420 | the chunks are non-empty, all but the last of full size, and concatenate to the bytes |
| SearchIndex.Index.IndexDocument | search_indexer/src/operations.rs:46-73 | the index maps the id to the new document, other ids are unchanged, and ids stay unique |
| SearchIndex.Index.DeleteDocument | search_indexer/src/operations.rs:76-82 | exactly the id's document disappears |
| SearchIndex.Index.ExtractAllDocuments | search_indexer/src/operations.rs:175-238 | every visible document up to the limit, field by field |
| SearchIndex.Index.RestoreFromSnapshot | search_indexer/src/manager.rs:136-166 | the rebuilt index holds for each id the last document of the snapshot, and all of them in order when ids are distinct |
| SearchIndex.JoinOfSplit | search_indexer/src/operations.rs:220-224 | joining the lines of a comment text gives the text back |
| SearchIndex.SplitOfJoin | search_indexer/src/operations.rs:220-224 | splitting joined lines gives the lines back, and no piece of a split contains a line break |
| SearchIndex.SaveAndRestore | search_indexer/src/manager.rs:136-166 | restoring a saved index gives the same stored documents if and only if there are at most 10000 |

## Left out

What the model does not have, and why.

- Yrs delete sets, pending blocks that apply later, and garbage collection: a block that starts beyond the log changes nothing here.
- The users, devices and share payloads carried by the network-sync messages: they are stored without affecting the properties above.
- Contents of share records and keys: they are ids. A key id belongs to one user and a clock row id to one device, as each is drawn once, so an insert that is skipped for its id finds its own row. Timestamps of rows play no part.
- Rows of a resource the local user has no key or token for: reading a stored resource succeeds.
- Foreign keys between the tables: the database does not enforce them.
- New shares minted while recipients are added, and the clock resets of bulk sharing: they write rows outside the exchange.
- Names and descriptions of folders, which a repeated folder record updates.
- Authority checks inside the exchange handlers, dropped connections and retries: the runs are free of those failures; the checks themselves are in `Ucan`, `Delegation` and `Connect`.
- Device sync: its comparison and inverse have the same shape as the user ones, and no run of it is modelled.
- Concurrent changes to one resource over different connections: one connection with atomic handlers.
- SyncRun.WellFormed: a run starts from peers that store what they share, because resources are only ever marked deleted, and the documents of a common resource come from one history (`ExactMeansCoherent` gives that for guarded histories of edits); other starts are not modelled.
- SyncConvergence.DrainedRunReconcilesIff: requires that the responder has a default folder, which signing up creates (services/src/auth_service.rs:70-112), or knows a folder for each resource it lacks; otherwise whether one is found depends on the order of deliveries, and `DrainedRunReconciles` says what the final state means.
- SyncRun.Start: edits during a user sync are in `ExchangeRun` only, for one resource and any number of exchanges.
- Replicas.World: a save appends operations to a stored document, although the application rewrites the whole payload; the exchange is one step, justified by `DrainedSyncIsExchange`.
- VectorClock.ClockTable.IncrementVectorClock: does not model a clock at the end of the 32-bit range.
- Ucan.Token: signatures, expiry, DIDs as text, base64 and JWT parsing are one validity flag; the CID determines the token.
- Ucan.AcceptedIffOpenChain: requires an acyclic resolver, as following proofs would otherwise not end; `ContentAddressedIsAcyclic` says when that holds.
- Delegation.GenerateResourceOwnerUcan: capabilities are a list here; the token library keeps them in a map, so their order is its own.
- Folder tokens: the folder variants of minting and delegation have the same shape as the resource ones.
- Preview errors: attributes and text that are not valid UTF-8, and tokenising by the XML reader; text is what it reads as, whatever the writer escapes.
- JsonReading.ReadValue: texts have no white space between tokens, as the serialiser writes none, and a pair of surrogate escapes is not read, as it writes none.
- Framing.ProperPrefixIsIncomplete: the parser is reduced to where a value ends; errors of the typed deserialiser on complete text are not modelled.
- SearchIndex.Index.ExtractAllDocuments: documents come in index order, as an all-documents query scores them equally.
- Scoring, query parsing, encryption of the snapshot, endpoints, handshakes, database plumbing and user interface: no property here depends on them.

Nothing was executed: every claim is a statement the Dafny verifier accepts.
