# Verified model of the replicated object store

A Dafny model of the object data plane of an S3-compatible store: quorum writes with commit
and rollback, repair and relocation, scheme conversion, reads across topology changes, the
epoch memory and placement they rest on, listing, the resumable rebalance walk and its
controller, asynchronous slot accounting, multipart completion, and two Signature Version 4
codecs. `dafny verify dfyconfig.toml` checks everything.

## How it is modelled

- **State.** `Peers.Cluster` holds the files of one object on every (node, disk). Every
  mutation goes through it and is logged with the state it was applied to, so a claim about
  every intermediate state is a predicate over a suffix of the log. Every look of repair and
  cleanup at a record and every listing of a target is logged too, with the store it saw and
  whether the target answered, so what a run may conclude is stated by what it read.
- **Failures.** Every peer operation succeeds, or fails without effect, as the environment
  likes. `up` are the targets that always answer; it matters only for progress and for
  which copy is read first.
- **Concurrency.** Repair and reads let other nodes change anything between per-target steps
  unless the cluster is `quiet`. What an object needs of quietness is stated clause by clause.
  The controller, the slots and the listing are event systems, proved over every sequence of
  enabled events, or every interleaving of what the nodes deliver.
- **Ideal coding.** A fragment is the symbolic term naming the content it encodes, a digest
  the term naming what it hashes: any k shards determine the content, equal digests mean
  equal contents. The keyed hash of the chunk chain, the rendezvous score, the weight format
  and the placement signature are function parameters. Of the weight format only what it does
  to the weights that occur is assumed.
- **Imperative where the source is.** Loops over peers, maps and buffers are methods on
  classes with loop invariants, each proved against a specification function or predicate;
  orders, names and codecs are functions and lemmas.

| module | what it covers |
|---|---|
| Lex, Sorting, Sets, Text, Decimals | orders, sorting, cardinalities, joining, numerals |
| Records, Names, Peers | schemes, records, names, the cluster and its peer operations |
| Topologies, Placement, Epochs | signature, placement, epoch memory |
| Reads, Writes, Convert | get, put, delete, cleanup, conversion |
| Repair, RepairRuns | one repair pass, and whole runs with retries |
| Listing, Rebalance, Controller, Slots | listing, rebalance walk, its controller, async work |
| Multipart, Streaming, Canonical | multipart refinement, aws-chunked reader, canonical query |

## What the proofs bring out

Claims that hold only under a condition are proved with the condition, both ways where a
caller could check it. Members named after a semicolon exhibit an input on which the plain
claim fails:

- A refused write whose rollback cannot reach a target leaves a record naming a discarded
  generation. The object stays readable exactly when every committed target took its record
  back or the undeleted fragments suffice (`Writes.RefusedReadableIff`, `Writes.Put`;
  `Writes.OrphanedWrite`). The same holds of a refused conversion (`Convert.Commit`).
- The sweep's fence is skipped on a target whose record cannot be read. A superseding record
  outside the current plan is deleted exactly when its target fails that reading and answers
  the listing and the deletion (`Repair.FenceIff`; `Repair.FenceFails`).
- Repair compares records by generation only, so an update of attributes that reached every
  planned target can outlive the record the pass goes by. That one survives every step unless
  every planned target held another record of its generation; a last copy off the plan then
  survives exactly while its target does not answer the sweep (`Repair.Repairer.HealPass`, `Repair.LastCopyIff`;
  `Repair.LastCopySwept`).
- Verification deletes a healthy replica when its stream breaks; that costs nothing exactly
  when another remembered target has it (`RepairRuns.EraseKeepsIff`).
- The cleanup of an old generation can report no error and leave a stale record, exactly on
  the targets that left the reading of it unanswered (`Writes.CleanupGeneration`).
- The conversion's commit overwrites a racing write's record on every target they share, so
  that write wins the order yet survives exactly where it is stored elsewhere
  (`Convert.RaceIff`, `Convert.CommitBuriesIff`).
- A degraded erasure-coded read opens every data shard twice. It opens whatever the peers
  answer exactly when k shards are on answering targets and no data shard that may come and
  go is missing together with another (`Reads.SurelyOpensIff`; `Reads.FlakyShard`).
- A shutdown returns although a task that was counted but had not joined the wait group has
  not run: exactly those that had joined have (`Slots.CloseReturnedIff`;
  `Slots.CloseOvertakes`, `Slots.CloseLeavesSlot`). The comment on flush says every task
  enqueued so far; the same condition applies (`Slots.FlushedIff`).
- The first remembered topology is the current one only while epochs do not go back
  (`Epochs.FirstIff`; `Epochs.StaleIsNotFirst`).
- Listings of records with equal stamps and different attributes, which metadata updates
  produce, depend on arrival order exactly when they are on different nodes
  (`Listing.OrderIndependentIff`). The comment on the listing gives the order as time, then
  generation; the code compares the sequence number first, and so does the model.
- Equal signatures mean equal placement only for names free of the separators
  (`Topologies.SignatureCanonical`; `Topologies.CommaConfuses`).
- Part keys list in part order only below 100000 (`Multipart.PartOrderIff`).
- The parts of a completed upload are deleted before its record, and failures are ignored. The
  comment calls leftovers unreachable; they are exactly when the record went too. Otherwise the
  upload can be completed again, by what is left of its parts (`Multipart.CompletesAgainIff`).
- A listing tolerates scans that fail. A completion whose listing missed parts succeeds without
  them; it answers the same exactly when none of those was asked for (`Multipart.UnlistedIff`).
- The comment on delete says records go first; the code goes target by target, and record
  before fragment holds per target (`Writes.Delete`).

## Model

| member | source | states |
|---|---|---|
| Records.SupersedesTotal | clusterstore/sidecar.go:84-94 | Two records are ordered one way, the other way, or carry the same (sequence, time, generation) stamp; never both ways |
| Records.SupersedesTransitive | clusterstore/sidecar.go:84-94 | The newer-record relation is transitive, so it is a strict total order on stamps |
| Records.PieceSize | internal/cluster/fragment/stream.go:78-113 | Every fragment of every scheme has exactly the size its plan announces |
| Names.FragmentRoundTrip | clusterstore/sidecar.go:146-148 | The sweep reads back exactly the generation and index a fragment file was named with |
| Names.FilesApart | clusterstore/repair.go:1054-1066 | Different fragments have different file names, and none is taken for the record |
| Repair.Repairer.SurveyTarget | clusterstore/repair.go:621-651 | One target's step: a missing or older record is completed, a superseding one ends the pass and nothing is written, fragment presence is size |
| Repair.Repairer.Survey | clusterstore/repair.go:612-658 | After the loop every planned target has the record, the missing set is exactly what is not at its planned size, only records changed |
| Repair.Repairer.VerifyReplicas | clusterstore/repair.go:689-719 | Replicas that fail their checksum are deleted and marked; under whole streams no intact replica is lost, and the rest are intact |
| Repair.Repairer.RestoreFromCopies | clusterstore/repair.go:305-392 | Missing fragments are copied home from same-size copies; what stays missing has no answering source; each copy is counted once |
| Repair.Repairer.RebuildEmpty | clusterstore/repair.go:728-740 | Fragments of an empty object are materialized, nothing openable is lost |
| Repair.Repairer.RebuildReplicas | clusterstore/repair.go:751-797 | Replicas from a surviving replica, parity recomputed from the primary; refused exactly when no replica survives |
| Repair.Repairer.RebuildEC | clusterstore/repair.go:821-883 | Shards from the survivors; refused exactly when fewer than k survive; one failed sink fails the rebuild |
| Repair.Repairer.Rebuild | clusterstore/repair.go:723-749 | Every missing fragment is restored or the pass fails; unrecoverable exactly when the scheme cannot rebuild |
| Repair.Repairer.StrayExpired | clusterstore/repair.go:500-520 | A generation that a listing of this sweep named is noted at its first sighting, with that listing, and condemned exactly when that sighting is at least the grace old |
| Repair.Repairer.ForgetStrays | clusterstore/repair.go:525-542 | Exactly the sightings of generations attributed by now are dropped |
| Repair.Repairer.SweepName | clusterstore/repair.go:474-488 | A listed name is kept exactly when it belongs there; an unattributed fragment is spared exactly while its first sighting is younger than the grace; a deletion carries its evidence: the record was not newer or the target left a reading of it unanswered, the generation is attributed, or its first sighting, noted before or made by a listing of this sweep that named it, is a grace old |
| Repair.Repairer.SweepTarget | clusterstore/repair.go:458-489 | The exact store after the sweep of one target as a function of how it answered; one reading of its record, and a superseding record that was read ends the pass |
| Repair.FenceIff | clusterstore/repair.go:464-467 | A superseding record off the plan survives the sweep of its target, except if and only if the target failed to tell it but answered the listing and the deletion |
| Repair.FenceFails | clusterstore/repair.go:464-467 | Counterexample, in a store where nothing is left to heal: the newest record anywhere, on an old target that fails one read, is deleted |
| Repair.LastCopyIff | clusterstore/repair.go:474-488 | The one copy of the authoritative record, off the plan, survives the sweep of its target except if and only if that is dialed and answers the listing and the deletion |
| Repair.LastCopySwept | clusterstore/repair.go:621-644 | Counterexample, in a store where nothing is left to heal: after an update of attributes reached the planned targets only, the old target's record, the last copy of what the pass goes by, is swept; a record of its generation stays |
| Repair.Repairer.RelocationSweep | clusterstore/repair.go:411-494 | Nothing is deleted unless every home fragment was seen in place; afterwards answering targets hold their keep-set and unattributed fragments only; no openable fragment is lost at any step |
| Repair.Repairer.FragmentSources | clusterstore/repair.go:262-283 | Sources of a fragment are exactly its targets under older layouts plus local copies |
| Repair.Repairer.VerifyEC | clusterstore/repair.go:888-920 | Shards of one content pass; complete shards of no one content are reported on answering targets |
| Repair.HuntRecoverable | clusterstore/repair.go:224-231 | After the hunt, what is still missing was on no disk to begin with, so an object of which enough is anywhere is recoverable |
| Repair.Repairer.HealPass | clusterstore/repair.go:201-246 | Whatever fails and whoever writes: every mutation is one of the allowed kinds, each sweep deletion backed by a reading or a note of this pass. In a quiet cluster, after every prefix of the steps, a record of the authoritative generation that dominated still does, and the authoritative record itself is still stored and dominates unless every planned target already held another record of its generation; success leaves every record and every fragment, at its planned size, in place. From a trusted store no openable fragment is lost after any prefix, success leaves every fragment intact and the targets swept, an object of which enough is at remembered targets, or on any answering disk, is always healed, and a store already in order is left untouched with nothing reported |
| RepairRuns.KeepsEnough | clusterstore/repair.go:395-400 | Losing no openable fragment means a readable object stays readable |
| RepairRuns.ReadableThroughout | clusterstore/repair.go:241-246 | An object readable before a pass is readable after every step of it |
| RepairRuns.EraseKeepsIff | clusterstore/repair.go:711-718 | Deleting an intact home replica, as happens when its stream breaks, costs nothing if and only if another remembered layout's target still holds it |
| RepairRuns.AuthoritativeSidecar | clusterstore/repair.go:550-608 | Every candidate is read once, in order; the records seen are exactly the hint and what those readings returned, the known generations exactly theirs, the answer the newest of them; without any, absent exactly when every candidate answered |
| RepairRuns.LegitRightful | clusterstore/repair.go:406-410 | A known generation other than the authoritative one belongs to a committed record the authoritative one supersedes |
| RepairRuns.RacingWriteSafe | clusterstore/repair.go:479-483 | No mutation of a whole run, the conversion included, touches a fragment of a generation that is not the conversion's own, that the hint does not name, that no record stored where the run looked names, and that was not noted a grace before the end of the run, when the run took less than a grace |
| RepairRuns.NeverDowngraded | clusterstore/repair.go:629-644 | Up to the conversion a record is only overwritten by one that supersedes it, and none that supersedes every pass's view is deleted unless its target left a reading of this run unanswered, which a target that always answers does not |
| RepairRuns.RepairPass | clusterstore/repair.go:201-258 | A pass with its conversion: healing as above; then the conversion completes, never dipping, or is refused with the old generation complete at every step, and the new record is gone if and only if the rollback reached every target that had it; a healthy object whose bucket asks for another scheme is converted when both layouts answer, one with unverified shards never; changes are reported exactly when something changed |
| RepairRuns.RunPasses | clusterstore/repair.go:176-195 | Restarts keep the attribution: every pass goes by the newest record the run had seen by then, each generation swept by attribution belongs to a record that one supersedes, and each of these records is the hint or was read in this run |
| RepairRuns.RunRepair | clusterstore/repair.go:166-196 | Over up to three passes under arbitrary concurrent writes: the run starts from one reading of each candidate, every record it goes by is the hint or was read in the run, the record of each pass is the newest seen by then and strictly rises, and every mutation is rightful for one of the passes by the readings, listings and notes of this run: a stray swept by age was noted before the run or named by a listing of it, a grace before the end. The last pass places, restores and converts as above; on a quiet, trustworthy, answering store the first pass heals |
| Writes.WriteFragments | internal/cluster/fragment/stream.go:130-152 | Success means every covered fragment holds its piece; other generations are untouched at every step |
| Writes.EncodeParity | internal/cluster/fragment/stream.go:284-306 | Derived fragments carry the same content as the data fragments they are computed from |
| Writes.RollbackSidecar | clusterstore/put.go:241-259 | The exact store: the previous record, or none, is back on exactly the touched targets that answered |
| Writes.CommitSidecar | clusterstore/put.go:220-236 | Success leaves the record on exactly the first quorum targets; failure leaves exactly what the failing target and the rollback's answers determine; every state in between names a readable generation |
| Writes.DiscardGeneration | clusterstore/put.go:264-268 | Exactly the fragments whose target refused remain, and nothing else changes |
| Writes.Put | clusterstore/put.go:48-150 | Acknowledged: fragment and record on each of the first quorum targets, and the new record rules. Refused: the exact store as a function of the answers. Fragments of other generations are untouched at every step of any write. The newest record is readable at every step and at the end if and only if the write was acknowledged, or refused before its commit, or every committed target took the record back, or the fragments that could not be deleted still make up the object; no record names a refused generation if and only if the rollback reached every target |
| Writes.RefusedReadableIff | clusterstore/put.go:133-140 | The same for any refused commit, from the failing target, the targets that answered the rollback, and the fragments that could not be deleted |
| Writes.OrphanedWrite | clusterstore/put.go:137-140 | Counterexample: the record reaches the first of three replicas, fails on the second, the first does not answer the rollback but does answer the deletion, and the store's one committed object cannot be read |
| Writes.CleanupGeneration | clusterstore/put.go:320-396 | Without error no fragment of the old generation is left at any target and index of any remembered plan; records on new targets and superseding ones stay; elsewhere a stale record is gone exactly where the reading of it was answered |
| Writes.ExtendWrite | clusterstore/put.go:286-306 | The remainder brings fragments and records to every target while the new record rules at every step |
| Writes.CompleteWrite | clusterstore/put.go:275-314 | The asynchronous remainder and the retirement of the old generation keep the newest record readable at every step |
| Writes.PutAndComplete | clusterstore/put.go:48-150 | A write and its remainder back to back: the newest record is readable at every single step exactly under the same condition on a refused write |
| Writes.Delete | clusterstore/get.go:62-132 | Without error no record and no fragment is left at any target and index of any remembered plan, nothing else was touched, and every fragment went after its target's record |
| Convert.RaceIff | clusterstore/convert.go:33-39 | The converted record supersedes its source; a user write on the same predecessor beats it if and only if it is stamped later, or at the same instant with the greater generation |
| Convert.CommitBuriesIff | clusterstore/convert.go:101-107 | The record of a racing write survives the conversion's commit if and only if some target outside the conversion's layout holds it |
| Convert.OpenContent | clusterstore/convert.go:123-138 | The source content, at whatever scheme it is recorded; available whenever the complete generation is on answering targets |
| Convert.Stage | clusterstore/convert.go:58-94 | New fragments carry the committed content or are discarded; nothing else changes |
| Convert.Commit | clusterstore/convert.go:96-107 | On success both generations are complete while records move. Refused, the old generation is complete in every state; the new record is gone if and only if the rollback reached every target that had it, and then the newest record named the old generation all along; otherwise the object is readable if and only if enough new fragments could not be deleted |
| Convert.Convert | clusterstore/convert.go:40-119 | Converted: in every intermediate state the old or the new generation is complete and the newest record names a complete one; content, tag and time are kept. Refused: the old generation is complete in every state, with the same conditions as for the commit. It succeeds whenever both layouts answer, and touches no third generation |
| Convert.MaybeConvert | clusterstore/convert.go:20-31 | Nothing happens when the bucket's scheme is unknown or already the recorded one; otherwise the conversion above |
| Reads.CountsReach | clusterstore/get.go:305-311 | Whatever the bucket's scheme is by now, at least its own targets and the first six are consulted for the record |
| Reads.Coordinator.SidecarCandidates | clusterstore/get.go:305-330 | However many layouts overlap, the candidates of one topology are its placement at the widest count, in order |
| Reads.Coordinator.AllSidecarCandidates | clusterstore/epochs.go:114-132 | Candidates across remembered epochs, each once, newest epoch first |
| Reads.RecordTargetsAre | clusterstore/epochs.go:111-132 | A target is a candidate exactly when some remembered topology places the object there; none repeats |
| Reads.Coordinator.EpochPlans | clusterstore/epochs.go:142-157 | The layouts under every remembered epoch that can host the scheme |
| Reads.PlansAre | clusterstore/epochs.go:134-157 | Every plan is a valid layout, and every remembered topology that can host the scheme contributes its own |
| Reads.FetchSidecar | clusterstore/get.go:255-298 | The record of the first answering candidate that has one; not-found only when every candidate answered that it has none; found whenever an answering candidate has one |
| Reads.OpenFragment | clusterstore/get.go:157-203 | A right-sized copy if any answering target of any remembered layout has one, newest layout first, each target tried once |
| Reads.OpenReplica | clusterstore/get.go:207-221 | Fails over across replica indexes and epochs; what is delivered is the content |
| Reads.OpenEC | internal/cluster/fragment/stream.go:435-580 | The outcome over the two rounds of per-shard answers: the content if and only if every data shard opened at once, or k shards did and every data shard among them opened again |
| Reads.SurelyOpensIff | internal/cluster/fragment/stream.go:435-580 | The read opens whatever the peers answer if and only if k shards are on answering targets and no data shard that may come and go is missing together with another |
| Reads.FlakyShard | internal/cluster/fragment/stream.go:551-579 | Counterexample: with two of four shards enough and two always answering, a data shard that answers once and not again fails the read |
| Reads.Coordinator.Get | clusterstore/get.go:24-50 | An untouched object is served with its content after every history of topologies in which fewer than four other placements were seen since its own, when an answering target of its own layout has the record and its replicas or shards there suffice |
| Reads.SurvivesRead | clusterstore/epochs.go:111-157 | After any such history a read, with its two observations of the topology, consults the object's own layout and finds its record |
| Reads.OwnSurvives | clusterstore/epochs.go:17-23 | The program's own signature and placement functions meet what that asks of them, for any format good for the weights that occur |
| Reads.RememberedLayout | clusterstore/epochs.go:85-88 | A remembered topology with the signature an object was placed under contributes that object's own layout and record targets |
| Reads.SurvivesHistory | clusterstore/epochs.go:17-23 | For every history in which fewer than four other placements were seen since, the layout an object was written under is still consulted |
| Reads.SurvivesChanges | clusterstore/epochs.go:17-23 | The same for the program's own signature and placement functions, for any format good for the weights that occur |
| Epochs.EpochMemory.Observe | clusterstore/epochs.go:48-83 | The map, its arbitrary iteration order, sort and eviction compute the list-level observation |
| Epochs.MemoryIsRecent | clusterstore/epochs.go:39-47 | Over every history of non-decreasing epochs the bounded memory is exactly the four most recently seen distinct signatures of the unbounded reference |
| Epochs.MemoryShape | clusterstore/epochs.go:39-47 | At most four, strictly decreasing epochs, distinct signatures, the observed one first |
| Epochs.RememberedIff | clusterstore/epochs.go:13-22 | A placement is remembered if and only if it was seen and fewer than four other placements were seen since |
| Epochs.FirstIff | clusterstore/epochs.go:85-88 | The observed snapshot is first if and only if no remembered epoch with another signature is newer |
| Epochs.StaleIsNotFirst | clusterstore/epochs.go:85-88 | Counterexample: an observation whose epoch goes back is not first |
| Placement.Place | internal/cluster/placement/placement.go:50-124 | The three-level loop with its early stops computes the selection function |
| Placement.PlacedTargets | internal/cluster/placement/placement.go:37-46 | Distinct usable disks, as many as asked for unless every usable disk is taken |
| Placement.PlacedRacks | internal/cluster/placement/placement.go:84-121 | Targets lie in different failure domains, or every usable domain is covered |
| Placement.PlacedNodes | internal/cluster/placement/placement.go:84-121 | Targets lie on different nodes, or every usable node is covered |
| Placement.PlacedPrefix | internal/cluster/placement/placement.go:94-121 | Asking for fewer targets gives a prefix of asking for more |
| Placement.PrimaryWins | internal/cluster/placement/placement.go:84-87 | The primary is the rendezvous winner over all usable disks |
| Placement.MembershipPlaces | internal/cluster/topology.go:79-84 | Equal membership places every object identically, whatever the registration order |
| Placement.SignaturePlaces | internal/cluster/topology.go:79-84 | Equal signatures place every object identically at every count, for any format good for the weights of the two |
| Placement.PlanValid | internal/cluster/fragment/stream.go:64-76 | A plan is a valid layout of distinct usable disks, refused exactly when there are fewer usable disks than fragments |
| Topologies.Signature | internal/cluster/topology.go:85-106 | The loops and sorts build the canonical text |
| Topologies.SignatureCanonical | internal/cluster/topology.go:79-106 | Two topologies have the same text if and only if they agree on IDs, racks, disks and weights up to order, whatever their epochs, addresses and capacities; the format need only tell the weights of the two apart and keep clear of the separators |
| Topologies.FormatExists | internal/cluster/topology.go:91-93 | For any topologies there is a format that is good for every weight that occurs in them |
| Topologies.CommaConfuses | internal/cluster/topology.go:91-99 | Counterexample without the naming condition: a disk ID containing a comma poses as two disks |
| Listing.FoldIsNewest | clusterstore/list.go:113-117 | Each gathered key ends with a newest record of those that arrived for it |
| Listing.InterleavedMerges | clusterstore/list.go:63-134 | However the nodes' deliveries interleave, the outcome has every key any node has, with the own newest record of a node that no node's supersedes |
| Listing.MergesAgree | clusterstore/list.go:15-25 | Every interleaving of the nodes' scans gives the same keys and stamps |
| Listing.OrderIndependentIff | clusterstore/list.go:87-134 | Every interleaving of the nodes' scans, each node's disks in turn, gives the same records if and only if nodes whose own newest record of a key no node supersedes have the same one |
| Listing.ListObjects | clusterstore/list.go:26-134 | For every interleaving: strictly sorted, exactly the merged records under the prefix, and an error if and only if there is a disk and every scan of every node failed |
| Listing.AllFailed | clusterstore/list.go:76-127 | The failures counted are all the scans if and only if every scan of every node failed |
| Rebalance.DropDone | clusterstore/rebalance.go:111-117 | Exactly the keys after the cursor remain |
| Rebalance.Walker.WalkBucket | clusterstore/rebalance.go:121-171 | Batches in order, of this bucket only; the persisted cursor is an object already processed |
| Rebalance.Walk | clusterstore/rebalance.go:88-175 | One run processes exactly a prefix of its listed objects after the resume cursor, each once, all of them if it completes; a bucket that cannot be listed ends it before anything in or after that bucket; uncancelled and with its checkpoints saved it completes if and only if the buckets and each of them from the resume cursor on can be listed; the saved cursor never runs ahead |
| Rebalance.CursorCovers | clusterstore/rebalance.go:55-58 | Whatever is at or before the saved cursor was processed by some run, also in buckets that some of the runs could not list |
| Rebalance.WalkCovers | clusterstore/rebalance.go:81-87 | Over any sequence of interrupted runs ending in a completed one, every object that no listing left out is fed to repair, also one whose bucket some of the runs could not list |
| Multipart.PartRoundTrip | clusterstore/multipart.go:123-128 | A part number is read back from its key, whatever its size |
| Multipart.PartOrderIff | clusterstore/multipart.go:40-44 | Listing order is part order up to a number if and only if that number is below 100000 |
| Multipart.UploadStores | clusterstore/multipart.go:94-115 | Uploading or re-uploading a part updates that upload's picture and no other's |
| Multipart.MemoryStorage.UploadPart | storagemem/storage.go:386-417 | The simple specification of an upload: the latest upload of a number replaces earlier ones |
| Multipart.MemoryStorage.Complete | storagemem/storage.go:480-554 | The simple specification of a completion: content, size and composite tag |
| Multipart.PartsReader.Read | clusterstore/multipart.go:320-350 | Delivered bytes and what is left always make up the concatenated parts; the end is reported only when nothing is left |
| Multipart.CopyExactly | internal/cluster/fragment/stream.go:144-149 | Any pattern of buffer sizes reads exactly the requested prefix |
| Multipart.ClusterStorage.UploadPart | clusterstore/multipart.go:94-115 | Uploaded exactly when the upload's record was found and the write accepted; a refused write may have left the part |
| Multipart.ClusterStorage.DeleteUpload | clusterstore/multipart.go:299-309 | Only objects of the upload go; on reliable storage its record goes, and with whole listings all its parts |
| Multipart.ClusterStorage.Complete | clusterstore/multipart.go:200-284 | Content, size and tag are those of the specification on the listed parts, for duplicate, missing, re-uploaded and empty parts; with whole listings, on all parts; a refused completion changes nothing, a served one leaves only what could not be deleted |
| Multipart.RunMemory | storagemem/storage.go:356-554 | The in-memory backend answers every history of creations, uploads and completions as the specification does |
| Multipart.RunCluster | clusterstore/multipart.go:47-309 | So does the cluster backend, for what goes wrong with each request: refused creations, uploads and completions, records and parts a listing misses, parts and records that could not be deleted. Reliable storage refuses nothing and drops what is completed, whole listings miss nothing, and with both nothing goes wrong |
| Multipart.OnlyDelays | clusterstore/multipart.go:94-284 | Requests that are turned away only delay: the others are answered as if these had never been made, whatever is retried and how often |
| Multipart.CompletesAgainIff | clusterstore/multipart.go:299-309 | A completed upload can be completed again if and only if its record could not be deleted, and then by what is left of its parts |
| Multipart.UnlistedIff | clusterstore/multipart.go:212-247 | A completion that did not see some parts answers the same if and only if none of those was asked for |
| Multipart.RetryAnswers | clusterstore/multipart.go:255-284 | A completion that failed, tried again, answers what the first try should have |
| Multipart.SameAnswers | clusterstore/multipart.go:197-284 | So both answer alike: same content, size, composite tag and refusals |
| Streaming.HexRoundTrip | internal/sigv4/streaming.go:112-115 | A chunk size survives being written and parsed |
| Streaming.RoundTrip | internal/sigv4/streaming.go:98-159 | Every correctly chained chunk list with a closing zero chunk decodes to exactly its chunks, whatever trails it |
| Streaming.AcceptedChain | internal/sigv4/streaming.go:134-140 | The accepted signatures are exactly the chain over the delivered chunks |
| Streaming.NothingForged | internal/sigv4/streaming.go:134-140 | Chunks whose signatures were all issued for the honest chunks are a prefix of those, or the two chains show the keyed hash repeating its seed or signing two different (previous, data) pairs alike |
| Streaming.TamperEvident | internal/sigv4/streaming.go:37-41 | If every accepted signature was issued for the honest chunks, then short of such a failure of the hash what is delivered is a prefix of them, and a body taken for complete is exactly them |
| Streaming.ChunkReader.Read | internal/sigv4/streaming.go:66-96 | Delivered bytes plus what is left are the verified payload; plain end only after a verified zero chunk, an error otherwise |
| Streaming.Drain | internal/sigv4/streaming.go:66-96 | Under any read sizes a consumer receives exactly the verified payload and then the right ending |
| Canonical.AwsUriEncode | internal/sigv4/canonical.go:15-38 | The byte loop computes the encoding function |
| Canonical.EncodeRoundTrip | internal/sigv4/canonical.go:11-38 | Percent-decoding undoes the encoding of every byte string |
| Canonical.EncodeFree | internal/sigv4/canonical.go:11-38 | No reserved character survives encoding |
| Canonical.CanonicalQuery | internal/sigv4/canonical.go:58-100 | The loops and sort build the canonical text of the pairs that are not excluded |
| Canonical.CanonicalIff | internal/sigv4/canonical.go:55-100 | Two queries have the same text if and only if they have the same multiset of pairs |
| Slots.Always | clusterstore/clusterstore.go:104-114 | After every execution each counter is the object's unsettled tasks plus held slots, the wait group counts tasks between joining and end, at most one exclusive holder exists per object, and the queue holds exactly the queued tasks |
| Slots.RunsOnce | clusterstore/clusterstore.go:191-233 | A task has run once if it is past running and never before |
| Slots.FlushedIff | clusterstore/clusterstore.go:278-282 | Whenever the wait group is empty, as when a flush returns, a task has run, once and to its end, if and only if it had joined the group |
| Slots.CloseReturnedIff | clusterstore/clusterstore.go:286-301 | When a shutdown returns, a task has run, once and to its end, if and only if it had joined the wait group, however full the queue was and whenever it was closed |
| Slots.CloseOvertakes | clusterstore/clusterstore.go:194-198 | Counterexample: a task counted but not yet in the wait group has not run when the shutdown returns |
| Slots.CloseLeavesSlot | clusterstore/clusterstore.go:286-301 | Counterexample: a held repair slot is still counted when the shutdown returns |
| Slots.CloseCanReturn | clusterstore/clusterstore.go:286-301 | A shutdown that began can always return: some continuation without new tasks finishes every task and lets it |
| Slots.StepsDown | clusterstore/clusterstore.go:191-233 | A measure that every step of a task decreases and nothing but a new task increases |
| Slots.Bounded | clusterstore/clusterstore.go:191-233 | Without new tasks an execution takes at most as many task steps as the measure |
| Slots.NeverStranded | clusterstore/clusterstore.go:156-160 | An unfinished task can always be brought nearer to its end by a step of its own or of the worker, also after the queue is closed |
| Slots.NoPassWhileHeld | clusterstore/clusterstore.go:239-276 | A wait passed or a slot acquired after another was seen held came after that one's release |
| Slots.Coordinator.PlaceTask | clusterstore/clusterstore.go:218-232 | Queued when there is room, inline exactly when the queue is full or closed |
| Slots.Coordinator.TryExclusive | clusterstore/clusterstore.go:254-263 | The slot is taken exactly at zero |
| Slots.Coordinator.CloseQueue | clusterstore/clusterstore.go:286-295 | The first call closes the queue, a second one does nothing |
| Slots.Coordinator.TryReturn | clusterstore/clusterstore.go:297-300 | After the worker left, the shutdown returns exactly at an empty wait group |
| Slots.Coordinator.QueueDepth | clusterstore/clusterstore.go:173-183 | The total is the number of unsettled tasks plus held slots |
| Controller.Always | cmd/fs/rebalance_control.go:33-46 | In every run: waiting or running if and only if the current runner is live and not asked to pause; paused if and only if a pause stands; finished if and only if the current runner is gone |
| Controller.SupersededSilent | cmd/fs/rebalance_control.go:162-164 | A superseded runner changes no state and no counter |
| Controller.PausePersists | cmd/fs/rebalance_control.go:106-124 | Paused persists until an accepted start or resume, whatever runners do |
| Controller.CounterExact | cmd/fs/rebalance_control.go:237-253 | The object counter is exactly what the current run's own runner reported |
| Controller.RebalanceController.LaunchRun | cmd/fs/rebalance_control.go:76-104 | Accepted exactly when nothing is in progress and, for a resume, a pause stands |
| Controller.RebalanceController.PauseRun | cmd/fs/rebalance_control.go:107-124 | Accepted exactly while a run is in progress |
| Controller.RebalanceController.RunnerExit | cmd/fs/rebalance_control.go:154-188 | Settles done or failed for the current run that was not paused, and only then |

## Left out

- Peers.Cluster.Put: a failed write has no effect here, while a real one may leave a torn file; torn files are covered as fragments of the wrong size in the starting state.
- Writes.Put: other nodes do not write the object meanwhile; what a racing commit can destroy is stated by `Convert.CommitBuriesIff` for the one path that overwrites unconditionally.
- Writes.CleanupGeneration: does not promise that stale records go where their target would not tell them, because the code does not do it.
- Convert.Convert: other nodes do not write the object meanwhile, for the same reason as in `Writes.Put`.
- Repair.Repairer.HealPass: the claim that no openable fragment is lost assumes that streams once opened are read to their end and that files of the planned size are what they claim to be, as the code itself does.
- RepairRuns.RunRepair: one topology for the whole run; a node's address under an older epoch is not modelled apart from the node.
- Reads.OpenEC: the content of shards that disagree is left open.
- RepairRuns.NeverDowngraded: does not cover the records a conversion writes after the sweep; what its commit can overwrite is stated by `Convert.CommitBuriesIff`.
- Slots.CloseReturnedIff: the two waits of a shutdown are one look at the wait group after the worker left; adding to a wait group while it is waited for is not an error here.
- Rebalance.Walker.RepairBatch: the objects of a batch are repaired one after the other; the repair itself is any outcome.
- Multipart.SameAnswers: one bucket that exists throughout, part numbers that are not negative, fresh upload IDs without a slash, and storage where nothing goes wrong; what does go wrong is covered by `Multipart.RunCluster`.
- Multipart.RunCluster: a listing shows the latest record of a part or none, not an older one; the object that a refused completion may have left behind is not followed.
- Streaming.TamperEvident: that signatures are only issued for the honest chunks is a premise, and the failure of the hash an outcome; neither is a theorem about HMAC.
- The scrub driver that walks local disks and feeds hints to repair, and the dry-run rebalance plan: loops over what is modelled.
- Metadata updates in place of a record, bucket records and the per-bucket scheme cache.
- Reed-Solomon arithmetic, MD5, SHA-256, HMAC, JSON, the scheme's text form.
- Authentication, access control, HTTP handling, canonical headers, configuration, metrics, process wiring.
- The file-system and network peers, throttling, elections and leases: only as atomic steps that may fail.
- Timestamps of the controller and its error text; the cursor's text form.
