# A verified model of the Meshia fixture control plane

This project models the in-memory control plane that the acceptance kit drives
(`fixture_control_plane.py`, `fixture_v2.py`, `fixture_plane.py`) in Dafny 4.11 and
proves what its protocols promise. `dafny verify dfyconfig.toml` checks all of it.

Every protocol appears three times. Its handlers are pure step functions on a value
state (`Commit`, `FileHold`, `Mutate`, `Attempt`, `Attach`, `ClaimApps` ...). The same
handlers are methods of classes that update dictionaries in place and loop where the
program loops (`FabricV2Fixture.Fixture`, `FabricControlPlane.ControlPlane`,
`RequestGate.Service`, `OwnerAuthority.NativeAcceptancePlane`,
`AppGrants.AcceptancePlane`), each proved equal to its step. The theorems are about
the steps: invariants of every run, convergence, exactly-once, immutability, and for each
handler exactly when it grants what it is asked.

| files | what they model |
|---|---|
| `Prelude`, `Order` | bytes, digests, paths, refusal codes; Python's order of path strings |
| `TreeCodec`, `TreeStore`, `Admission` | the radix-64 Merkle tree: wire format, bounded reader and walk, the closed set of proven nodes |
| `Layouts` | block lists, put descriptors, assembling a file from stored blocks |
| `V2Namespace`, `V2Batch`, `V2Outcome`, `V2Sync`, `V2State`, `V2Steps`, `V2Runs`, `V2Verdicts`, `V2Held`, `V2Shortfalls`, `FabricV2Fixture` | Fabric v2: compare-and-swap commits over entries and journal, snapshots and change cursor, holds, tickets, seeding |
| `Portable` | whole-namespace portability |
| `V1Manifest`, `V1Blocks`, `V1State`, `V1Runs`, `V1Expectations`, `FabricControlPlane` | Fabric v1: linked generations, change pages, block authority, mutations with receipts |
| `Der`, `RequestGate` | the strict signature parser and the gate of every signed request |
| `OwnerAuthority`, `OwnerGrants`, `AppGrants`, `AppLane`, `AppCompletion` | generation fencing, owner-chosen permissions, application grants, the application lane, completion of commands |

## Reading the model

- SHA-256 is a constant function of which nothing is known. Where two byte strings must
  not collide, a theorem says so (`NoCollision`, `Collisionless`, `CleanBytes`,
  `CleanChunks`). Path folding, the canonical signed text, signature verification, the
  request digest, the serialized size of a record and the form of mount names and UUIDs
  are such constants too.
- One signed request is one step with one clock reading (the gate keeps both of its
  readings); `authenticate` gives up its lock before the handler starts, so this is an
  abstraction of the program. Theorems about time ask for a clock that does not run
  backwards. Fabric v1 mutations and Fabric v2 commits are separate runs.
- A path is its UTF-8 bytes, not empty, not rooted and free of NUL; byte order is
  Python's order of strings. JSON fields are typed, hexadecimal text is the bytes it
  spells, and a field that is null counts as absent.
- Fresh identifiers (hosts, attachments, tokens) are drawn by `uuid4`; runs take a new
  host id as one never drawn before, and an attachment or a registration is named by its
  place in order of creation.

## Where the program falls short of its promise

- A v2 rename may carry any `kind` (`fixture_v2.py:630`), and its record then describes
  a different file than the entry: `V2Shortfalls.ForeignRenameExample`; the exact
  condition is in `V2Namespace.ApplyKeepsRefinement` and, for a batch against the
  namespace before it, `V2Outcome.BatchRefinement`; for a run, `V2Runs.JournalIsExact`.
- A v2 rename of a sparse seeded file moves the entry and then fails on the missing
  legacy bytes (`fixture_v2.py:633-635`): `V2Shortfalls.SparseRenameExample`, with the
  exact condition in `V2Namespace.CrashBreaksRefinement`.
- A directory delete refused for its descendants leaves the earlier operations of the
  batch applied and no receipt (`fixture_v2.py:626-627`;
  `V2Shortfalls.RefusedCommitExample`). A refused commit is atomic exactly when nothing
  before the delete passes (`V2Shortfalls.RefusedCommitIsAtomic`). So the order of a
  batch can decide (`V2Shortfalls.OrderExample`): it completes whatever its order exactly
  when it is clear (`V2Outcome.CompletesInEveryOrderExactly`).
- A zero-length block is stored under whatever digest it carries before it is checked
  (`fixture_v2.py:598-601`; `V2Shortfalls.DishonestZeroExample`): content addressing survives
  exactly when zero-length blocks carry the digest of nothing
  (`V2State.CommitIsHonest`).
- A publish does not check portability (`fixture_control_plane.py:3007-3053`;
  `V1Runs.PublishExample`): it keeps a portable namespace portable exactly when its path
  is portable alone and beside every file (`V1Runs.PublishKeepsPortability`).
- A command that nobody holds a claim on can be completed: a queued one has the empty
  token (`fixture_control_plane.py:339`), a canceled one has none
  (`fixture_plane.py:108-111`), and a completion is only compared with that
  (`fixture_control_plane.py:1548-1563`). `AppCompletion.QueuedCommandExample` and
  `AppCompletion.CanceledCommandExample` are inputs, `AppCompletion.CompletionIsAccepted` says
  exactly which completions are accepted.

## Model

| member | source | states |
|---|---|---|
| `TreeCodec.HeightFromIsLeast` | fixture_v2.py:31-35 | the height is the least level whose span covers the size, so no level is wasted |
| `TreeCodec.TreeHeight` | fixture_v2.py:31-35 | the counting loop returns that height |
| `TreeCodec.ParsePrintRef` | fixture_v2.py:38-52 | every reference that is legal at a level is read back from its printing |
| `TreeCodec.PrintParseRef` | fixture_v2.py:38-52 | every accepted reference is the printing of what was read, so no reference has two spellings |
| `TreeCodec.NodeCodec` | fixture_v2.py:55-67 | a byte string is accepted at a height exactly when it is the printing of 64 references legal one level below, and it is then 69 to 2885 bytes long |
| `TreeCodec.TreeNode` | fixture_v2.py:55-67 | the cursor loop accepts exactly what the grammar accepts and returns the same children |
| `TreeCodec.References` | fixture_v2.py:58-66 | the 64-turn loop over a moving cursor, proved against the grammar |
| `TreeCodec.IdentityPreimageIsInjective` | fixture_v2.py:86-88 | size, height and root can be told apart from the hashed bytes |
| `TreeCodec.DescriptorIsExact` | fixture_v2.py:70-89 | a descriptor is accepted with a root if and only if its height is the least that covers the size, the root is legal there, in its wire form and not longer than the file, an empty file has a hole, and the digest is the hash of size, height and root |
| `TreeCodec.DigestNamesOneTree` | fixture_v2.py:70-89 | without a hash collision one digest is accepted for one descriptor, one size and one root only |
| `TreeStore.ChildIsQuotient` | fixture_v2.py:200-206 | the child and the place in it that the recursion reaches are quotient and remainder by the child span |
| `TreeStore.TreeBytesIsLookup` | fixture_v2.py:172-210 | a materialised tree has exactly the declared size, and each byte is the one found by descending one child per level: stored data, or zero in holes and past a window |
| `TreeStore.ValidateOnlyIsFaithful` | fixture_v2.py:176-194 | up to 4 MiB validate-only mode accepts exactly what materialising accepts, and refuses the rest for the same reason |
| `TreeStore.WalkIsExact` | fixture_v2.py:444-456 | after a successful validation the block walk cannot fail, makes at most 2048 calls, and collects exactly the reachable objects with one size per digest |
| `Admission.OnlyBoundsRefuse` | fixture_v2.py:172-210 | a descriptor that announces an admitted root, told from root, height, size and digest, is refused if and only if the size limit or the visit bound is exceeded, and by which of the two |
| `Admission.UnannouncedIsRefused` | fixture_v2.py:172-180 | a descriptor that announces no root is refused |
| `Admission.ProvenReachesProven` | fixture_v2.py:191-206 | an admitted reference reaches only objects that are stored intact and proven |
| `Admission.ReadSurvives` | fixture_v2.py:172-210 | a read that succeeded gives the same bytes over the same objects in every later extension of the store |
| `Admission.AdmitIsClosure` | fixture_v2.py:335-346 | sorted by height, candidates are admitted if and only if together with what was proven before they are closed; the set grows by exactly them |
| `Admission.AdmitRequestKeepsClosed` | fixture_v2.py:320-354 | a verification request keeps the set of admitted nodes closed and changes no stored object |
| `Admission.AdmitRequestIsExact` | fixture_v2.py:320-354 | a verification request is admitted if and only if its nodes are distinct, are blocks of it that are what they say, and rest on what is proven with them; then exactly its blocks and nodes become proven |
| `Admission.AdmissionIgnoresOrder` | fixture_v2.py:337-346 | the order in which nodes are submitted does not matter |
| `Admission.PutObjectIsImmutable` | fixture_v2.py:126-128 | storing bytes under their own hash alters nothing that was stored and keeps the closure |
| `Layouts.NormalizePutDescriptor` | fixture_control_plane.py:2550-2591 | the running-offset loop accepts exactly the descriptors with consecutive indices, running offsets, matching totals and the one empty form |
| `Layouts.JoinFollowsLayout` | fixture_control_plane.py:2636-2641 | in the joined bytes every block is exactly the stretch that its offset and size announce, and the blocks fill the file |
| `Layouts.CutIsAccepted` | fixture_control_plane.py:2550-2591 | however a file is cut into chunks, the list of its chunks is a legal descriptor |
| `Layouts.CutIsAssembled` | fixture_control_plane.py:2603-2641 | and once the chunks are stored it assembles to the file |
| `Layouts.BlockFileIsHashed` | fixture_v2.py:237-244 | a block file that assembles has the hash of its bytes as its digest |
| `Layouts.CheckBlocksIsExact` | fixture_control_plane.py:1704-1732 | a block list is accepted if and only if it is not empty, not too long, names each digest once, no block too large and nothing by the digest of nothing |
| `Layouts.FileBytesHaveDeclaredSize` | fixture_v2.py:237-244 | assembled bytes have the declared size in all three descriptor families |
| `Layouts.ValidationSurvives` | fixture_v2.py:288-291 | what validated once validates ever after, over the same objects |
| `Layouts.BytesOutlive` | fixture_v2.py:237-244 | and it assembles to the same bytes; a tree too large to assemble keeps its byte at every position |
| `V2Namespace.EntrySeqsAreDistinct` | fixture_v2.py:606-661 | distinct entries carry distinct sequence numbers |
| `V2Namespace.ApplyKeepsRefinement` | fixture_v2.py:607-659 | one applied operation keeps the journal describing the namespace (numbers 1..n, previous digests, replay equals entries) if and only if it is not a rename that carries a foreign kind |
| `V2Namespace.CrashBreaksRefinement` | fixture_v2.py:631-637 | a rename dies half-way if and only if it passes its checks and its file has no bytes in the legacy table; the journal then no longer describes the namespace |
| `V2Batch.NormalizedIsDisjoint` | fixture_v2.py:527-575 | the operations of an accepted batch touch pairwise disjoint paths and have the shape the verdict loop relies on |
| `V2Batch.NormalizeIsExact` | fixture_v2.py:527-575 | a batch is accepted if and only if its operations are well made and touch pairwise disjoint paths |
| `V2Batch.BatchIsSimultaneous` | fixture_v2.py:606-661 | in a completed batch each verdict is the verdict against the namespace before the batch, and every path ends with what its one operation writes |
| `V2Batch.OrderDoesNotMatter` | fixture_v2.py:606-661 | any two orders that complete give each operation the same verdict and the same contents |
| `V2Batch.DirectoryFirstIsRefused` | fixture_v2.py:626-627 | one family in which the order decides: deleting a last file and then its directory completes, the other order is refused |
| `V2Outcome.BatchIsForeseen` | fixture_v2.py:606-661 | told from the namespace before it: a batch gets past exactly the operations before the first passing delete with something below its path by then, or the first passing rename without legacy bytes; which of the two it is decides how it ends, and what passes before it is applied |
| `V2Outcome.BatchRefinement` | fixture_v2.py:606-661 | a batch, also one refused half-way, leaves the journal describing the namespace if and only if, up to its first obstructed delete, no passing rename names another kind or lacks its legacy bytes |
| `V2Outcome.CompletesInEveryOrderExactly` | fixture_v2.py:626-637 | a batch completes in every order of its operations if and only if every passing rename has its legacy bytes and below every passing delete nothing stands and no passing operation writes |
| `V2Outcome.RefusedBatchIsAtomic` | fixture_v2.py:626-627 | a batch stopped by a delete leaves the namespace as it was if and only if nothing before that delete passes |
| `V2Sync.PageIsExact` | fixture_v2.py:363-375 | in its stretch of paths a page is exactly the namespace, and its next cursor lies past the cursor it answered |
| `V2Sync.PageIsFull` | fixture_v2.py:363-375 | a page lists live entries in order, is as long as asked for unless no more follow, and names the length of the journal |
| `V2Sync.ScanIsFuzzy` | fixture_v2.py:363-375 | a finished scan shows at every path what one of the scanned states had there |
| `V2Sync.FollowIsTail` | fixture_v2.py:377-388 | the pages of a followed change cursor add up to the journal after the cursor: nothing missed, nothing twice |
| `V2Sync.CursorAdvances` | fixture_v2.py:386-387 | a page that announces more moves the cursor |
| `V2Sync.ChangesAreExact` | fixture_v2.py:377-388 | a page of changes is the stretch of the journal after the cursor, as long as asked for or to the end, and says whether that is the end |
| `V2Sync.SnapshotAndChangesConverge` | fixture_v2.py:363-388 | snapshot pages taken while commits interleave, followed by the changes after the first page, rebuild exactly the final namespace |
| `V2State.StageEmptyIsHonest` | fixture_v2.py:598-601 | the store stays addressed by hash if and only if zero-length blocks carry the digest of nothing |
| `V2State.StageIsExact` | fixture_v2.py:579-591 | inline blocks are staged if and only if each is one the batch asks for, honest, of 1 to 262144 bytes, and none comes twice; then all of them are |
| `V2State.AssemblingIsExact` | fixture_v2.py:487-594 | a commit gets to assembling its puts if and only if it is new and in form |
| `V2State.CommitGetsReady` | fixture_v2.py:487-605 | a clean request in form whose files are stored or come inline reaches its verdicts, with exactly those bytes |
| `V2State.CommitIsHonest` | fixture_v2.py:487-605 | a commit keeps a store addressed by hash if and only if, should it come to assembling its puts, every put it enters carries the digest of nothing on zero-length blocks |
| `V2State.PlanIsSound` | fixture_v2.py:576-605 | staging and assembly only extend the store, and every item carries the bytes its descriptor assembles to |
| `V2Steps.FileHoldIsSound` | fixture_v2.py:246-305 | by any hold request the path, digest, size, blocks, mode and binding of a hold never change, release and expiry are final, deadlines never shrink; and a table whose counters match and whose files validate stays so |
| `V2Steps.AcquireIsExact` | fixture_v2.py:264-303 | a first acquire is granted if and only if the file named is live and assembles, the mode is allowed and there is room; the hold is then of that very entry, with the deadline asked for |
| `V2Steps.HeldIsExact` | fixture_v2.py:246-303 | a hold is answered to its owner if and only if it lives and is named as it is; a renewal sets the later of the two deadlines |
| `V2Steps.ReleaseIsExact` | fixture_v2.py:246-263 | a release by the owner is answered always and marks the hold |
| `V2Steps.TicketsAreConfined` | fixture_v2.py:421-485 | a granted read under a hold is about the held entry, without one about the live one; its tickets are the blocks asked for, all objects of that file, last at least 30 seconds, and end five seconds before the lease and the hold |
| `V2Steps.ReadIsGranted` | fixture_v2.py:421-485 | a read in form of objects of a file that validates is granted while lease and hold have 35 seconds left, for as long as asked or to within a second of what they allow |
| `V2Steps.TtlIsExact` | fixture_v2.py:471-483 | a lifetime is granted if and only if the one asked for is legal and lease and hold leave 30 seconds, and it is then the longest whole one |
| `V2Steps.HeldReadIgnoresNamespace` | fixture_v2.py:421-485 | a read under a hold is answered the same whatever has become of the namespace |
| `V2Held.HeldFileIsReadable` | fixture_v2.py:421-485 | at any later point of any clean run, whatever was committed, a read under a hold that was not released gets tickets for the objects of the held file |
| `V2Held.AcquiredFileIsReadable` | fixture_v2.py:246-485 | from the acquire on: the file that was live then stays readable to its holder for the time granted |
| `V2Steps.TreeVerifyIsImmutable` | fixture_v2.py:307-354 | node verification never alters stored objects and keeps the closure |
| `V2Steps.TreeVerifyIsExact` | fixture_v2.py:307-354 | a verification succeeds if and only if its blocks are askable and stored, the targets agree and its nodes are grounded; then exactly its blocks and nodes become proven, otherwise nothing changes |
| `V2Steps.UploadIsStored` | fixture_control_plane.py:2427-2432 | what was uploaded is stored under its hash |
| `V2Steps.SeedIsExact` | fixture_v2.py:107-140 | a file is seeded if and only if its path is free and its sizes are in range; it becomes the entry of its path and nothing else changes |
| `V2Steps.SeededFileReads` | fixture_v2.py:107-140 | a seeded file validates at once and reads as the given bytes followed by zeros up to its logical size |
| `V2Runs.RunGrows` | fixture_v2.py:107-671 | in every run, from any state and whatever is sent: no record and no receipt is taken back, and a hold changes only by a release or a later deadline |
| `V2Runs.RunKeepsWellformed` | fixture_v2.py:107-671 | in every run, also where a commit is refused or dies half-way: the two legacy tables have the same keys, all of them live, and a file there has the layout and size of its entry |
| `V2Runs.RunKeepsStore` | fixture_v2.py:107-671 | in every run without collisions whose commits are honest about zero-length blocks, whatever they rename, delete or break and whatever the clock does: content addressing, node closure and the hold table stay sound, and no object is lost |
| `V2Runs.RunKeepsInvariant` | fixture_v2.py:107-671 | in every such run also the legacy bytes of a file stay the bytes its descriptor assembles to, harmful renames included |
| `V2Runs.CommitKeepsJournal` | fixture_v2.py:487-671 | after a commit, whatever it stores, the journal describes the namespace if and only if its batch, told from the namespace before it, is harmless |
| `V2Runs.JournalIsExact` | fixture_v2.py:107-671 | the journal describes the namespace (numbers 1..n, previous digests, replay equals entries) after every step of a run if and only if every commit of the run is harmless; no condition on collisions, zero-length blocks or the clock |
| `V2Runs.ExpiryIsFinal` | fixture_v2.py:246-305 | in every run under a clock that does not run backwards, an expired hold is never prolonged |
| `V2Runs.HoldIsolation` | fixture_v2.py:246-305 | in every run a hold keeps its path, file, mode and binding and its release is final; if the clock does not run backwards so is its expiry; and in every run without collisions and with honest zero-length blocks, whatever is committed, deleted, renamed or broken, its file keeps validating to the same bytes over the same objects |
| `V2Runs.CommitOnce` | fixture_v2.py:498-505 | from any state, a committed batch repeated at any later point of any run returns the first receipt and changes nothing |
| `V2Runs.MirrorConverges` | fixture_v2.py:363-388 | in any run of harmless commits, whatever happens to store and clock, a client that scans and then follows holds the namespace of the last answering moment |
| `V2Verdicts.VerdictsAreExact` | fixture_v2.py:606-661 | a commit applies exactly the operations whose expected digests, sources and free destinations were so before it, answers the others with the digest their path showed, and leaves at every path what the applied ones say |
| `V2Verdicts.PutReplaces` | fixture_v2.py:610-653 | a put that names the digest now at its path is applied and its content is then there |
| `V2Verdicts.SecondIsRejected` | fixture_v2.py:610-613 | of two operations with the same expected digest at a path to which the first brings another file, the second is rejected with the digest of the first |
| `V2Verdicts.OccupiedIsRejected` | fixture_v2.py:610-625 | creating over something, renaming onto something and a source that changed are each rejected, and their paths stay as they were |
| `V2Verdicts.CommitIsForeseen` | fixture_v2.py:487-671 | a clean request in form whose files are there is committed if and only if no operation whose expectations hold deletes above something or renames a file without legacy bytes |
| `V2Verdicts.CommitKeepsBytesSent` | fixture_v2.py:579-605 | after it every file put assembles to the bytes sent or stored for it |
| `V2Verdicts.ReceiptIsExact` | fixture_v2.py:655-671 | applied operations are numbered on from the journal in the order of the request, and the receipt names the length of the journal after them |
| `V2Verdicts.RepeatIsExact` | fixture_v2.py:498-505 | a known mutation id is answered with its receipt only for the same request and attachment, and changes nothing either way |
| `V2Verdicts.SmallPutIsCommitted` | fixture_v2.py:487-671 | from any intact store, a file of up to 262144 bytes sent inline is committed, applied if and only if its expectation holds, and then reads as the bytes sent |
| `V2Shortfalls.RefusedCommitIsAtomic` | fixture_v2.py:606-671 | a commit stopped by a delete is refused, leaves no receipt, and leaves the namespace as it was if and only if nothing before that delete passes |
| `V2Shortfalls.RefusedCommitExample` | fixture_v2.py:626-627 | after seeding d/x, a commit that makes directory a and deletes d is refused with a in place and no receipt |
| `V2Shortfalls.OrderExample` | fixture_v2.py:626-627 | after seeding d/x, a commit that deletes d/x and then d is accepted, one that deletes d and then d/x is refused |
| `V2Shortfalls.ForeignRenameExample` | fixture_v2.py:630-637 | after seeding a file, a commit that renames it as a directory is accepted and leaves the journal wrong |
| `V2Shortfalls.SparseRenameExample` | fixture_v2.py:631-637 | after seeding a sparse file, a commit that renames it dies half-way and leaves the journal wrong |
| `V2Shortfalls.DishonestZeroExample` | fixture_v2.py:598-601 | one commit with a zero-length block under another digest breaks content addressing of a new service |
| `FabricV2Fixture.Fixture.NormalizeOps` | fixture_v2.py:527-575 | the normalization loop over its set of seen paths |
| `FabricV2Fixture.Fixture.StageBlocks` | fixture_v2.py:579-591 | the inline-block loop |
| `FabricV2Fixture.Fixture.MaterialiseOps` | fixture_v2.py:595-605 | the assembly loop, updating the store in place |
| `FabricV2Fixture.Fixture.ApplyOne` | fixture_v2.py:607-659 | one turn of the verdict loop, dictionary by dictionary, with its whole new state in each outcome |
| `FabricV2Fixture.Fixture.ApplyBatch` | fixture_v2.py:606-661 | the verdict loop, including what it leaves behind when it stops half-way |
| `FabricV2Fixture.Fixture.CommitBatch` | fixture_v2.py:487-671 | the commit handler in place is the commit step of the run theorems |
| `FabricV2Fixture.Fixture.HoldFile` | fixture_v2.py:246-305 | the hold handler in place is the hold step |
| `FabricV2Fixture.Fixture.CollectCandidates` | fixture_v2.py:321-334 | the loop that parses and identifies submitted nodes |
| `FabricV2Fixture.Fixture.AdmitSorted` | fixture_v2.py:335-346 | the admission loop over a copy of the node set |
| `FabricV2Fixture.Fixture.VerifyTree` | fixture_v2.py:307-354 | the verification handler in place is the verification step |
| `FabricV2Fixture.Fixture.SeedCold` | fixture_v2.py:107-140 | the seeding handler in place is the seeding step |
| `Portable.PortableSubset` | fixture_control_plane.py:565-592 | portability is downward closed |
| `Portable.PortableIsSpelling` | fixture_control_plane.py:565-592 | a set of paths is portable if and only if no two prefixes of its paths spell one folded name differently and no file folds to a directory above a file |
| `Portable.PortableIsPairwise` | fixture_control_plane.py:565-592 | a set of paths is portable if and only if every two of its paths are |
| `Portable.AddingKeepsPortable` | fixture_control_plane.py:565-592 | one more path keeps a portable set portable if and only if it is portable alone and beside each of its paths |
| `Portable.FileBelowFileIsRefused` | fixture_control_plane.py:585-592 | no file may lie below another file |
| `Portable.RecordPrefixes` | fixture_control_plane.py:571-579 | the inner loop records one spelling per fold, or has found two |
| `Portable.AssertPortable` | fixture_control_plane.py:565-592 | the two dictionary passes accept a list, in whatever order, if and only if its paths are distinct and form a portable set |
| `V1Manifest.EncodeIsInjective` | fixture_control_plane.py:514-524 | the hashed namespace bytes are uniquely decodable |
| `V1Manifest.DigestDeterminesMarks` | fixture_control_plane.py:514-524 | without a collision equal manifest digests mean equal live digests and tombstones, and the other way round |
| `V1Manifest.GatherIsConsecutive` | fixture_control_plane.py:2103-2133 | the page loop returns consecutive records up to the byte budget; its branches for a missing or unlinked record are never taken on a linked history |
| `V1Manifest.AnswerAdvances` | fixture_control_plane.py:2082-2146 | a page moves a mirror forward to a cursor that is valid again, fits 1,250,000 bytes, ends early only where the next record would not fit, and says truthfully whether more is to come |
| `V1Manifest.StrangeCursorIsRefreshed` | fixture_control_plane.py:2082-2103 | a cursor that the server does not recognise is answered by a full refresh |
| `V1Manifest.ChaseReachesHead` | fixture_control_plane.py:2082-2146 | following the cursor reaches the head if and only if no record on the way is too large for a page; otherwise it ends in a full refresh |
| `V1Blocks.TargetIsSound` | fixture_control_plane.py:1734-1788 | targeting keeps at most 64 operations per session, host and generation and at most 8192 targets each |
| `V1Blocks.TargetIsExact` | fixture_control_plane.py:1734-1788 | blocks become targets if and only if the operation is the caller's or he has fewer than 64, no block is known under another size, and at most 8192 result; expired operations are gone, the others stay |
| `V1Blocks.VerifyIsSound` | fixture_control_plane.py:2302-2324 | verified blocks are targets with the same size and are stored intact |
| `V1Blocks.VerifyIsExact` | fixture_control_plane.py:2302-2324 | blocks are verified if and only if there is room and each is stored intact; then all of them are recorded |
| `V1Blocks.ReusedIsShared` | fixture_control_plane.py:2797-2832 | a reusable block belongs to both the base and the current layout of the path with the same size |
| `V1Blocks.SharedIsReused` | fixture_control_plane.py:2797-2832 | a block that both layouts list, under one size, is reusable |
| `V1State.SeedIsLayout` | fixture_control_plane.py:594-629 | a published file is the concatenation of the blocks its layout lists |
| `V1State.PerformMatchesEntries` | fixture_control_plane.py:2790-2931 | what a mutation does to files and tombstones is exactly what its change entries say |
| `V1State.AdvanceKeepsHistory` | fixture_control_plane.py:710-729 | a new generation keeps every record linked to the digest before it, and its block snapshot equal to the layouts replayed from the records |
| `V1Runs.RunKeepsHistory` | fixture_control_plane.py:2151-3053 | in every run, whatever collides in the store: records link 1..N, their replay gives files and tombstones, block snapshots are those of the replay, and no generation, record or digest is taken back |
| `V1Runs.RunKeepsContents` | fixture_control_plane.py:2151-3053 | in every run without collisions each file stays the join of its stored blocks, operations stay within bounds, and no object is lost |
| `V1Runs.RunKeepsInvariant` | fixture_control_plane.py:2151-3053 | a plane that is sound in both respects stays so in every run without collisions |
| `V1Runs.MutateIsAllOrNothing` | fixture_control_plane.py:2733-2964 | a mutation either leaves namespace, history and receipts as they are or adds exactly one generation and one receipt under a new key |
| `V1Runs.MutateOnce` | fixture_control_plane.py:2768-2780 | from any state, a committed mutation repeated at any later point of any run returns its receipt and changes nothing, and a status query finds it |
| `V1Runs.GenerationCounts` | fixture_control_plane.py:2733-3053 | from any state and over any run the generation grows by the receipts added plus the publishes, so from a new plane it counts exactly these |
| `V1Runs.PutRestsOnAuthority` | fixture_control_plane.py:2603-2641 | a put commits only on blocks verified for it or shared by the layouts of its path in its base generation and now, and its file is then their concatenation |
| `V1Runs.MutationsKeepPortability` | fixture_control_plane.py:2790-2931 | a put or rename that commits leaves a portable namespace, a delete keeps one |
| `V1Runs.PublishKeepsPortability` | fixture_control_plane.py:3007-3053 | a publish keeps a portable namespace portable if and only if its path is portable alone and beside every file |
| `V1Runs.PublishExample` | fixture_control_plane.py:3007-3053 | publishing d and then d/x into a new plane leaves a namespace that is not portable |
| `V1Runs.MirrorStays` | fixture_control_plane.py:2032-2149 | a mirror in step with a plane is in step with every later one |
| `V1Runs.MirrorFollows` | fixture_control_plane.py:2032-2149 | after any run, collisions or not, one answered request moves a mirror to a later generation or shows that it is current; a full refresh has a reason |
| `V1Runs.DigestIsProof` | fixture_control_plane.py:514-524 | a copy whose hash the plane acknowledges for a generation has that generation's live digests and tombstones |
| `V1Expectations.MutateIsExact` | fixture_control_plane.py:2733-2931 | a mutation is committed if and only if it is a new request in form on an acknowledged base, each of its paths is the file, tombstone or absence its client expected, and what else it needs is there |
| `V1Expectations.UnexpectedIsRefused` | fixture_control_plane.py:2486-2497 | a new request in form with an expectation that is not so is a path conflict and changes nothing |
| `V1Expectations.CommitWrites` | fixture_control_plane.py:2790-2931 | a committed put leaves its file at its path, a delete a tombstone of what was there, a rename both, and nothing else that is served changes |
| `V1Expectations.CommitIsRecorded` | fixture_control_plane.py:2790-2964 | a committed mutation adds the record of the next generation, which lists each path touched with what is there after and the digest replaced; the receipt names that generation, its digest and the paths |
| `V1Expectations.SecondIsRefused` | fixture_control_plane.py:2790-2931 | of two requests that expect the same file at a path, of which the first changes it, the second is refused as a path conflict |
| `V1Expectations.RepeatIsExact` | fixture_control_plane.py:2768-2780 | a known mutation id is answered with its receipt only for the same request, host and generation, and changes nothing either way |
| `V1Expectations.StatusIsExact` | fixture_control_plane.py:2966-3005 | a status query knows nothing before a mutation commits and its receipt after, and refuses another digest |
| `V1Expectations.SharedIsAuthorised` | fixture_control_plane.py:2797-2832 | a block in the path's layouts of the base generation and of now may be reused by a put that expects the file there |
| `V1Expectations.VerifyIsGranted` | fixture_control_plane.py:2302-2324 | one to four stored blocks are verified if and only if there is room, and then count for the mutation |
| `V1Expectations.VerifiedPutIsCommitted` | fixture_control_plane.py:2603-2641 | a put of a file cut into stored chunks that are verified for it is committed while its path is as expected, and the file is there byte for byte |
| `V1Expectations.PublishWrites` | fixture_control_plane.py:3007-3053 | a publish puts its file at its path and changes nothing else that is served |
| `FabricControlPlane.HashNamespace` | fixture_control_plane.py:514-524 | the hash loop over the sorted paths |
| `FabricControlPlane.ControlPlane.Advance` | fixture_control_plane.py:710-729 | the new generation, written in place |
| `FabricControlPlane.ControlPlane.CheckProofs` | fixture_control_plane.py:2612-2634 | the proof check with its one side effect, dropping an expired operation |
| `FabricControlPlane.ControlPlane.PutPath` | fixture_control_plane.py:2790-2857 | the put branch in place is the put step |
| `FabricControlPlane.ControlPlane.RenamePath` | fixture_control_plane.py:2880-2931 | the rename branch in place is the rename step |
| `FabricControlPlane.ControlPlane.Mutate` | fixture_control_plane.py:2733-2964 | the mutation handler in place is the mutation step of the run theorems |
| `FabricControlPlane.ControlPlane.SeedFileBlocks` | fixture_control_plane.py:594-629 | the chunk loop |
| `FabricControlPlane.ControlPlane.Publish` | fixture_control_plane.py:3007-3053 | the publish handler in place is the publish step |
| `FabricControlPlane.ControlPlane.Changes` | fixture_control_plane.py:2032-2149 | the change handler, loop and defences included, answers as specified |
| `FabricControlPlane.ControlPlane.TargetBlocks` | fixture_control_plane.py:1734-1788 | sweep, share and target check in place |
| `FabricControlPlane.ControlPlane.Verify` | fixture_control_plane.py:2302-2324 | the verification branch in place |
| `FabricControlPlane.ControlPlane.WriteTickets` | fixture_control_plane.py:2273-2289 | the blocks of a write request become targets, in place |
| `FabricControlPlane.ControlPlane.DirectPut` | fixture_control_plane.py:2427-2432 | an object already in the store is left alone |
| `Der.ReadInteger` | fixture_control_plane.py:250-268 | the reader with its moving offset succeeds exactly where one INTEGER stands and moves past it |
| `Der.IsStrictLowS` | fixture_control_plane.py:242-280 | accepts exactly the encodings of pairs 0 < r < n, 0 < s <= n/2 |
| `Der.EncodeIsInjective` | fixture_control_plane.py:242-280 | no two pairs share an encoding |
| `Der.ContentIsMinimal` | fixture_control_plane.py:261-264 | the contents octets are the only shortest ones with that value and a clear sign bit (section 8.3.2 of ITU-T X.690) |
| `Der.StrictEncodesPairs` | fixture_control_plane.py:274-280 | the encoding of a pair is let through if and only if the pair is in range with a low s |
| `Der.ExactlyOneTwin` | fixture_control_plane.py:274-280 | of a signature and its twin with the negated s exactly one is let through |
| `RequestGate.NoNumberTwice` | fixture_control_plane.py:775-825 | in no run is one (host, generation, sequence) accepted twice, and every accepted request was signed, low-S, by a connected or disconnected host under its current generation, at most 60 seconds off |
| `RequestGate.WithinWindow` | fixture_control_plane.py:757-774 | until a window resets no more requests pass than it has left of 180 |
| `RequestGate.OneWindow` | fixture_control_plane.py:757-774 | the request that opens a window and all those before its reset: at most 180 pass |
| `RequestGate.RateIsBounded` | fixture_control_plane.py:757-774 | with a clock that does not run backwards at most 360 requests of a host pass the limiter in any closed 60-second interval |
| `RequestGate.AttemptIsExact` | fixture_control_plane.py:737-825 | a request is let through if and only if its headers have their form, its signature is strict and verifies, its host's window has room, and it comes from a known host of this deployment under its present generation, at most a minute off, with an unused number; the number is then used |
| `RequestGate.Service.CountRequest` | fixture_control_plane.py:757-766 | the window arithmetic in place |
| `RequestGate.Service.Authenticate` | fixture_control_plane.py:737-825 | the gate in place is the gate step of the run theorems |
| `OwnerAuthority.RunIsSound` | fixture_plane.py:19-113 | in every run: one active attachment per host, generation and session; active ones carry the current generation; those of a host's own session carry the profile of the owner's mode |
| `OwnerAuthority.OnlyOwnerChangesMode` | fixture_plane.py:20-79 | the mode after a run is the owner's last choice, although attaching writes it |
| `OwnerAuthority.RunIsOnward` | fixture_plane.py:33-113 | generations only rise, a revoked host stays as it is, attachments keep their identity and stay ended |
| `OwnerAuthority.FenceHolds` | fixture_plane.py:95-113 | after a disconnect or revocation nothing attached before ever serves again, and a revoked host never has a live attachment |
| `OwnerGrants.RunGrantsRights` | fixture_plane.py:19-79 | in every run attachments to a host's own session are personal, native workspace or native full as the mode is files, limited or full |
| `OwnerGrants.AttachIsExact` | fixture_plane.py:33-61 | a host is attached if and only if it may come, names its own session and a fitting mount; the attachment is live, with the rights of the mode and ninety seconds |
| `OwnerGrants.WorkspacesAreExact` | fixture_plane.py:63-79 | workspaces are attached if and only if the host may come and names 1 to 32 different ones of its owner; each then has a live attachment with a new lease, a new one the right profile |
| `OwnerGrants.TransitionIsExact` | fixture_plane.py:95-113 | a host that is not revoked can be revoked and a connected one disconnected; exactly its live attachments end and its generation rises by one |
| `OwnerGrants.ProofConnects` | fixture_control_plane.py:937-968 | an enrolled host may come once it has proved itself, under generation 1, and a repeated proof changes nothing |
| `OwnerAuthority.NativeAcceptancePlane.SelectAccessMode` | fixture_plane.py:20-31 | the loop over the attachments |
| `OwnerAuthority.NativeAcceptancePlane.InheritedAttach` | fixture_control_plane.py:971-1000 | the base handler that writes the mode it reads off the profile |
| `OwnerAuthority.NativeAcceptancePlane.AttachHost` | fixture_plane.py:33-61 | attaching in place; the node's profile hint does not reach the result |
| `OwnerAuthority.NativeAcceptancePlane.InheritedAttachEach` | fixture_control_plane.py:1197-1254 | the base loop that writes the node's hint into every attachment |
| `OwnerAuthority.NativeAcceptancePlane.AttachToWorkspaces` | fixture_plane.py:63-79 | base loop and correcting loop together give each workspace its kept or owner-chosen profile, whatever the hint |
| `OwnerAuthority.NativeAcceptancePlane.TransitionTo` | fixture_plane.py:95-113 | the fencing loop |
| `AppGrants.RunFollows` | fixture_plane.py:144-221 | in every run each yes rests on a registration of the same host, generation, attachment, mode and revision less than 90 seconds before, and all yes answers for one registration name one instance; each yes answers a report that named that application, session, attachment and revision |
| `AppGrants.ModeChangeIsFinal` | fixture_plane.py:138-142 | after a real mode change no earlier registration is honoured again, even when the mode comes back |
| `AppGrants.TransitionIsFinal` | fixture_plane.py:95-113 | after a disconnect or revocation none of the host's earlier registrations is honoured again |
| `AppGrants.EndIsFinal` | fixture_plane.py:211-221 | after a deregistration succeeded, or a registration did not, no earlier registration of the name is honoured again |
| `AppLane.ClaimIsExact` | fixture_plane.py:144-190 | the first queued application command is handed out if and only if the host is connected, has a live attachment to its own session, and the mode is limited or full; a registration then has its grant of ninety seconds |
| `AppLane.NothingToClaim` | fixture_plane.py:144-190 | without a queued application command none is handed out |
| `AppLane.PlainClaimIsExact` | fixture_control_plane.py:1518-1541 | the other lane hands out the first queued plain command |
| `AppLane.ReportIsExact` | fixture_plane.py:156-175 | in every run a report on a registration that stands is told to continue if and only if the host is entitled, the registration is less than ninety seconds old under the host, generation, attachment, mode and revision of now, the report names them, and no other instance was told so before |
| `AppLane.StandsUntil` | fixture_plane.py:176-221 | a registration stands until another of its name is claimed, its deregistration succeeds or its own command fails |
| `AppLane.SelectionIsExact` | fixture_plane.py:138-142 | choosing the mode already chosen moves nothing, another one moves the revision by one |
| `AppLane.TransitionCancels` | fixture_plane.py:95-113 | a disconnect or revocation that happens cancels exactly the queued and claimed commands |
| `AppCompletion.CompletionIsAccepted` | fixture_control_plane.py:1548-1563 | in every run: a queued command is completed exactly by the empty token, a canceled one exactly by no token, a claimed one exactly by the token of its claim, a completed one never |
| `AppCompletion.QueuedCommandExample` | fixture_plane.py:211-221 | a deregistration that nobody claimed is completed with the empty token and ends the grant of its name |
| `AppCompletion.CanceledCommandExample` | fixture_plane.py:95-113 | a command canceled by a disconnect is completed by sending no token |
| `AppGrants.AcceptancePlane.SelectAccessMode` | fixture_plane.py:138-142 | the revision moves exactly when the mode changes |
| `AppGrants.AcceptancePlane.TransitionTo` | fixture_plane.py:95-113 | the transition with its loop over the commands |
| `AppGrants.AcceptancePlane.SuperviseReports` | fixture_plane.py:156-175 | the supervision loop, binding as it goes and stopping at a malformed report |
| `AppGrants.AcceptancePlane.ClaimAppWork` | fixture_plane.py:144-190 | the whole application lane in place |
| `AppGrants.AcceptancePlane.CompleteCommand` | fixture_plane.py:211-221 | completion in place with the grant it ends |

## Left out

- `_manifest_descriptor_locked`, `fabric_manifest`, `fabric_read`, the v1 `read_batch` and `manifest_blocks` operations: page projections of state modelled here.
- `seed_canonical_raw_file`: a second seeding path for one checked-in file.
- Storage kinds per mutation, `verification_mutation_ids`, `tree_path` proofs, `modified_at` and timestamps: validated or carried through, without effect on the state modelled.
- In a tree verification the outcome of the inherited v1 block verification is a parameter of the step (`targets`).
- Block lists keep the order of the request; the program sorts them by digest, so the order of tickets, and which of several faulty blocks is reported, can differ.
- Lifetimes of v1 write tickets: a request that is refused for its ttl or for a short lease does not come to the step that targets its blocks.
- Manifest ids: random identifiers returned beside digests.
- Path rules other than being non-empty, unrooted and free of NUL (reserved names, forbidden characters, length of segments).
- Key parsing at enrolment, sealing, `task_environment`, account linking: foreign library calls; enrolment and proof appear only as changes of a host's status and generation.
- The owner catalog, workspace naming and renames, heartbeats, metrics and capability lists: small state beside the protocols. The catalog check of `attach_workspaces` is a parameter.
- `supervise` for ordinary commands, `complete_app_batch`, the delayed heartbeat of `AccessTransitionPlane`.
- The v1 `forget` that removes a host appears in the gate; in the owner model hosts are kept and revoked, as in `NativeAcceptancePlane`.
- Fault-injection hooks, request counters, HTTP handlers, sockets, threads, lock acquisition.
- `acceptance.py`, `app_acceptance.py`, `native_delta_acceptance.py`, `cow_acceptance.py`, `cache_*.py`, `production_install.py`, `report.py`, `release/`: process, mount and account driving around the plane.
- V2Runs.MirrorConverges: asks that the commits of the run be harmless, which by V2Runs.JournalIsExact is exactly what keeps the journal describing the namespace.
- V2Runs.RunKeepsStore: asks that commits be honest about the zero-length blocks they enter, which by V2State.CommitIsHonest is exactly what keeps the store addressed by hash.
- V2Batch.OrderDoesNotMatter: sequence numbers may differ between the two orders, as they must.
- V2Runs.HoldIsolation: speaks of the hold's own file; tickets are covered by V2Steps.TicketsAreConfined at the moment they are minted.
