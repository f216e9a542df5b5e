# A model of StrataFS

StrataFS keeps a whole filesystem in one object-store bucket. Chunks and
snapshots are immutable; the one mutable object is `root`, a pointer moved by
compare-and-swap. This project models the parts of it that are hard to get
right and proves what they promise, for every input, every run and every
reachable state.

- **The commit protocol** (`CommitProtocol`, `CommitInvariant`, `CommitSteps`,
  `CommitTheorems`, `CommitAnswers`, `CommitMount`, `SyncDurability`,
  `SyncAnswers`, `SnapshotKeys`, `Pruning`, `Machines`). Any number of mounts over one bucket. Every store call and every
  hold of a mount's lock is one step, and each write of the root chooses freely
  whether it took effect and which reply was seen. The proofs are one inductive
  invariant, one lemma per step, and theorems over whole runs. `SyncDurability`
  puts any number of concurrent Sync calls on top of it. `CommitAnswers` and
  `SyncAnswers` say the other half: what each read, reply and good store must
  lead to, and that commits and Syncs then go through.
- **The buffered file** (`FileState`, `FileLemmas`, `FileData`, `FileSession`).
  The chunk list, dirty buffers, pending trim and unsettled mark of a file, in
  the imperative form of the code, refining a plain sequence of bytes.
- **The namespace** (`NamespaceTree`, `Namespace`, `Directory`, `PageBudget`,
  `DirectoryWitness`). The inode table changed in place, kept a tree with exact
  link counts, and read page by page.
- **Write backpressure** (`Budget`, `BudgetMonitor`, `Charges`). The monitor as
  steps under its mutex, and the charge conserved across every interleaving of
  the operations that move it.
- **The caches** (`ReplyCache`, `ReplyTable`, `ChunkCache`) and **the codecs**
  (`BigEndian`, `Xdr`, `Records`).

Each module that has a pure specification and an object beside it proves the
object's methods equal to the specification, and the promises about the
specification.

## Assumptions

- An ETag identifies the root pointer it was given for; a root write takes
  effect before its call returns, or never. A read of the root that shows a
  pointer this build understands shows the current one.
- SHA-256 is injective: a hash is modelled by its preimage. A snapshot key drawn
  at random does not repeat one drawn before.
- A name is a string of bytes: a character of a Dafny string stands for one byte,
  so lengths and costs count bytes as the code's do.
- A hold of a lock is one atomic step; the clock does not run back.

## Where the code surprised

- A buffer or a stored chunk may run past the end of its file: a write into a
  hole that a truncate shortened loads the whole hole. What holds is that
  everything past the end is zero, and that is the invariant proved
  (`FileLemmas.BufferPastEnd`, `FileState.ZeroPastEnd`).
- The duplicate request cache's eviction loop removes at most one reply.
- A reply cache full of calls in flight runs further calls uncached, and then a
  retransmission executes beside the original (`ReplyCache.UncachedRunsTwice`).
  A call executes at most once at a time exactly as long as it meets no such
  crowd (`ReplyCache.AtMostOnce`, `ReplyCache.CrowdedRunsTwice`). No marker is
  left behind all the same.
- The XDR reader does not look at padding bytes, and reads any non-zero word as
  true, so reading is a left inverse of writing and not a bijection;
  `Xdr.ReadBack` says exactly which bytes are written back as they were read,
  and `Xdr.TwoReadsAsTrue` gives some that are not.
- ReadDir adds up costs in a uint32, so with a budget near 2^32 and more than
  4 GiB of entries to list the sum wraps and the page outgrows its budget.
  `PageBudget.OutgrowsExactly` says when, and `DirectoryWitness` shows a
  directory that does it. The NFS server clamps what it asks for to 1 MiB
  (`internal/nfs/nfs3.go:489-491`), where it cannot happen
  (`Directory.ServerPagesFit`): only a direct caller of the filesystem can meet it.
- XDR lengths and record lengths lose their high bits on the wire; such values
  are over the readers' limits, so the round trips hold exactly within them.

## Model

| member | source | states |
|---|---|---|
| `Machines.NextIsTheEdge` | internal/fsm/fsm.go:45-71 | in a table with no two edges from one state on one event, the lookup answers exactly the table's edges, both directions |
| `Machines.Machine.Fire` | internal/fsm/fsm.go:135-143 | moves along the one edge there is, and otherwise changes nothing and reports the current state twice |
| `Machines.RootNextIsTheTable` | internal/blobfs/rootknowledge.go:34-38 | the Known/InDoubt edges are deterministic, and the transition function used by the protocol is that table |
| `Machines.ModeNextIsTheTable` | internal/blobfs/mode.go:28-29 | likewise for the one edge Writable to Diverged |
| `CommitMount.LiveMount.Seal` | internal/blobfs/commit.go:263-317 | fixes the attempt the protocol's seal step fixes: next epoch, new key, the namespace, ETag and change count of this hold; recorded in any sound history under a new key, it descends from where the mount stands |
| `CommitMount.LiveMount.ApplyLocked` | internal/blobfs/commit.go:546-564 | the success path leaves the fields as the protocol's apply leaves the mount; dirty survives exactly when a change came after the seal |
| `CommitMount.LiveMount.Apply` | internal/blobfs/commit.go:477-487 | a commit that took effect, applied, leaves the mount as well with the bucket and its history as the protocol requires |
| `CommitMount.LiveMount.RaiseDoubt` | internal/blobfs/commit.go:492-513 | moves to InDoubt on the attempt's key, or, if the machine refuses, answers as the old outcome did |
| `CommitMount.LiveMount.Doubt` | internal/blobfs/commit.go:492-513 | a mount that was well when its write was answered is well in doubt, with its probe due and no Fire refused |
| `CommitMount.LiveMount.ResolveRoot` | internal/blobfs/commit.go:653-722 | one read of the root, classified against the fields and applied to them, agrees with the protocol on the verdict and on the whole new state; and of a mount in doubt the verdict is the one the root forces, as `VerdictForced` spells it out |
| `CommitMount.LiveMount.Probe` | internal/blobfs/commit.go:518-535 | after an honest read the mount is well again, and the root alone decides the verdict: it names the attempt, and the mount adopts it with the success path due; it is the one the mount stands on, and the mount takes its ETag and is Known; it is another, or gone, and the mount diverges; a read that says none of these changes nothing |
| `CommitMount.LiveMount.SchedulePrune` | internal/blobfs/commit.go:748-763 | a pass starts only if retention is on and none is under way |
| `CommitMount.LiveMount.Mutate` | internal/blobfs/fs.go:729-732 | a change sets dirty and moves the change count, and a mount that was well with any bucket stays so |
| `CommitSteps.StepKeeps` | internal/blobfs/commit.go:25-722 | every step of every mount (load, mutate, flush, seal, store, swap with any reply, reclaim, fallback, probe, apply, prune, crash) keeps the invariant that ties the bucket, the chain of roots and every mount together |
| `CommitTheorems.InvHolds` | internal/blobfs/commit.go:25-722 | that invariant in every state of every run: any number of writers with the fallback off, or one writer with it on or off |
| `CommitTheorems.RootMovesToItsChild` | internal/blobfs/commit.go:263-317 | each root that follows another is one epoch on, names it as the parent it was sealed from, and holds all its changes |
| `CommitTheorems.NoAcknowledgedCommitLost` | internal/blobfs/commit.go:338-564 | a commit that returned nil is on the chain of roots for ever, and every later root's stored snapshot holds every change it held |
| `CommitTheorems.RootAlwaysLoadable` | internal/blobfs/commit.go:338-430 | in every reachable state the snapshot the root names exists, at the root's epoch, and so does every chunk it names |
| `CommitTheorems.PruneSafeForEver` | internal/blobfs/commit.go:784-820 | every key a pass has doomed sorts below the key the root names, during the pass and at all later times |
| `CommitTheorems.LoneWriterNeverDiverges` | internal/blobfs/commit.go:598-722 | with one writer, in every state: while Known the root is the one it stands on, or the one its own unapplied write moved it to; while InDoubt it is the one it stands on or the attempt in doubt; no honest read is ever classified as another writer's, and the mode never becomes Diverged |
| `CommitTheorems.NoFireRefused` | internal/blobfs/commit.go:477-722 | no reachable step fires an event its machine has no edge for, with one writer or many |
| `CommitTheorems.CleanMeansCommitted` | internal/blobfs/commit.go:546-554 | a mount that is not dirty has exactly the namespace of a snapshot the root has named |
| `CommitAnswers.VerdictForced` | internal/blobfs/commit.go:598-722 | of a mount in doubt and an honest read: a root shown with its ETag that names the attempt is ours and adopted, one that names where the mount stands is unchanged, any other is theirs and diverges it; no root is unchanged exactly for a mount that stands on none; anything else decides nothing and changes nothing |
| `CommitAnswers.ProbeDecides` | internal/blobfs/commit.go:518-535 | the same over every run, for the probe in a commit and the one before it |
| `CommitAnswers.CommitGoesThrough` | internal/blobfs/commit.go:338-487 | a path from any mount that may commit: seal, store, a swap that is answered, apply; it ends with the root naming the attempt, the mount on it at the next epoch, acknowledged, clean as nothing changed meanwhile, and a prune pass due if retention asks for one |
| `CommitAnswers.LostReplyIsAdopted` | internal/blobfs/commit.go:366-531 | and so it ends when the swap took effect and its reply was lost, refused or without an ETag: the probe adopts it |
| `CommitAnswers.FallbackGoesThrough` | internal/blobfs/commit.go:444-487 | and so it ends, on a mount allowed the fallback, on a store that answers 501 |
| `CommitAnswers.RefusalReclaims` | internal/blobfs/commit.go:379-431 | without the fallback a 501 whose read shows another root, or none, ends with the uploaded snapshot deleted, the root untouched and the mount exactly as it was before the attempt |
| `CommitAnswers.LoadGivesTheRoot` | internal/blobfs/commit.go:25-97 | in every sound state a load that is shown the root ends as a clean, Known mount with exactly the namespace, epoch, key and ETag of that root |
| `CommitAnswers.LoadOfNothing` | internal/blobfs/commit.go:25-68 | a read that fails, is not understood or has no ETag makes no mount, and an empty bucket none that may not write; one that may starts the first commit |
| `CommitAnswers.InitGoesThrough` | internal/blobfs/commit.go:104-134 | and that commit goes through: a root at epoch 1 with an empty namespace, and the mount on it |
| `CommitAnswers.StoredChunkCanBeNamed` | internal/blobfs/fs.go:1251-1279 | a chunk a mount has stored is one its namespace may then name, and the change counts as one |
| `CommitAnswers.PassDeletes` | internal/blobfs/commit.go:784-820 | a prune pass whose deletes take effect removes exactly what it doomed, nothing else, and ends |
| `CommitAnswers.ListedPassDeletes` | internal/blobfs/commit.go:784-820 | and so from the listing on, with nothing but those keys changed in the bucket |
| `CommitAnswers.RefusedDoubtEnds` | internal/blobfs/commit.go:492-513 | a machine that refused the doubt, which none does, would end the commit in its old error, or applied with no ETag |
| `SnapshotKeys.SpellOrder` | internal/blobfs/commit.go:294 | the spelled keys sort as (epoch, nonce) sorts, and are equal only when those are: zero padding makes string order epoch order |
| `SnapshotKeys.SpelledParts` | internal/blobfs/commit.go:294 | a key is spelled snapshots/, its epoch in twenty decimal digits, a dash, its nonce in twelve hexadecimal ones and .json.gz, each number the value of its digits |
| `Pruning.Prunable` | internal/blobfs/commit.go:830-845 | sorted, and exactly the keys below current that have at least keep newer ones below current, so exactly the newest keep survive |
| `Pruning.Pass` | internal/blobfs/commit.go:784-820 | over a listing that spells the stored keys, what a pass selects is what the protocol lets it doom, and once it is gone exactly the newest keep keys below current are left |
| `SyncDurability.SyncInvHolds` | internal/blobfs/commit.go:170-235 | what every call of Sync carries (still to flush, in the namespace, sealed, or named by the root) survives every event on this mount and every step elsewhere |
| `SyncDurability.SyncNilMeansDurable` | internal/blobfs/commit.go:170-235 | a Sync that returned nil: every change in the namespace or in any buffer when it was called is in a snapshot the root has named and in the one it names now, with mutations in flight and Syncs queued |
| `SyncDurability.DurableForEver` | internal/blobfs/commit.go:170-235 | and it stays in the stored snapshot the root names at every later time, whatever mounts load, commit, prune and crash, the one that synced among them |
| `SyncAnswers.NothingDropped` | internal/blobfs/commit.go:170-235 | over every run, a change a write, truncate, removal or namespace operation made is in the namespace or in some file's buffers ever after |
| `SyncAnswers.SyncedWriteIsDurable` | internal/blobfs/commit.go:170-235 | so once a Sync called after it has returned nil, the snapshot the root names has it |
| `SyncAnswers.BuffersFollow` | internal/blobfs/fs.go:1580-1982 | a write adds to its file's buffers, a flush that succeeds or a removal leaves nothing there, and no other event but a truncate of that file touches them |
| `SyncDurability.RestedSyncReturnsNil` | internal/blobfs/commit.go:187-196 | a Sync of a mount with nothing buffered and nothing dirty goes through its first pass without dirtying anything and returns nil |
| `SyncDurability.SealNeverRefused` | internal/blobfs/fs.go:2056-2076 | after the settle pass under the gate no file is unsettled, so the seal's refusal is unreachable |
| `SyncAnswers.ApplyReturnsNil` | internal/blobfs/commit.go:477-487 | over every run, the call whose commit applies returns nil, with the key of that commit, and lets go of the lock |
| `SyncAnswers.DoubtDecides` | internal/blobfs/commit.go:205-217 | over every run, a Sync that finds the root in doubt goes on, Known, exactly when the read shows the attempt or the root it stands on with an ETag, or an empty bucket to a mount that stands on none; otherwise it returns an error and the lock is free |
| `SyncAnswers.CutIsFlushedBeforeTheSeal` | internal/blobfs/fs.go:1846-1854 | over every run, between a truncate into a stored chunk and any later seal its file has been flushed or removed |
| `SyncAnswers.DirtySyncReturnsNil` | internal/blobfs/commit.go:170-235 | a path from any mount with changes or buffered writes, the lock and gate free and the root known to be where it stands, on which every flush and store call succeeds: Sync returns nil with the key the root then names |
| `SyncAnswers.SettledIsReady` | internal/blobfs/commit.go:205-217 | and from a mount in doubt whose read settles it the same path goes on |
| `FileState.ZeroPastEnd` | internal/blobfs/fs.go:1733-1870 | no byte at or past the end of the file is anything but zero, whatever is stored or buffered there |
| `FileState.SettledExposesNothing` | internal/blobfs/commit.go:263-273 | the stored chunk list of a settled file reads zero at every offset at or past the smallest size it has had since its last successful flush |
| `FileState.SettledCanBeLoaded` | internal/blobfs/commit.go:263-289 | what a commit names of a settled file, dropping its buffers, is a file a later mount can open |
| `FileState.NothingHiddenIsSettled` | internal/blobfs/fs.go:1904-1915 | with no buffer and no trim the stored list is the file, so the early return may clear the mark |
| `FileLemmas.WroteIsOverwrite` | internal/blobfs/fs.go:1614-1666 | one chunk's part of a write, with its pending trim honoured, is the same write on a plain sequence |
| `FileLemmas.WroteKeeps` | internal/blobfs/fs.go:1614-1666 | and keeps the invariant of buffers, trims, extents and the unsettled mark |
| `FileLemmas.BufferPastEnd` | internal/blobfs/fs.go:1627-1653 | a write into a hole that a truncate shortened leaves a buffer that runs past the end of its file |
| `FileLemmas.TruncatedIsResize` | internal/blobfs/fs.go:1791-1862 | a size change without any fetch cuts, or grows with zeros, the bytes the file reads as |
| `FileLemmas.TruncatedKeeps` | internal/blobfs/fs.go:1791-1862 | and keeps the invariant: at most one trim, in the list, not dirty, its ref the chunk listed there, only holes after it |
| `FileLemmas.TrimOnlyShrinks` | internal/blobfs/fs.go:1834-1845 | a pending trim that a size change keeps has the same chunk and a length no greater |
| `FileLemmas.MarkOnlyIfCut` | internal/blobfs/fs.go:1846-1854 | a size change marks the file unsettled only if its new end lies inside a stored chunk |
| `FileLemmas.FlushKeepsBytes` | internal/blobfs/fs.go:1927-1981 | a flush changes no byte, and what it stores alone reads as the whole file |
| `FileLemmas.FlushKeeps` | internal/blobfs/fs.go:1927-1981 | and leaves a settled file satisfying the invariant |
| `FileData.OpenFile.Read` | internal/blobfs/fs.go:1302-1359 | exactly the bytes of the plain file in the clamped range, eof decided by its size; nothing only if a fetch fails, so never while the store answers, and never if no chunk in the range has to be fetched; no offset arithmetic wraps |
| `FileData.OpenFile.ReadBuffered` | internal/blobfs/fs.go:1395-1434 | one hold takes away the dirty bytes and every chunk that still has to be fetched, and no other |
| `FileData.OpenFile.FetchRest` | internal/blobfs/fs.go:1326-1353 | the fetches, made holding no lock, complete what the hold took to exactly the bytes of the file at the instant of the hold, whatever has been done to it since |
| `FileData.OpenFile.ReadRefs` | internal/blobfs/fs.go:1455-1479 | each stored chunk in range that no buffer covers and no trim hides, once, and nothing else |
| `FileData.OpenFile.CopySpan` | internal/blobfs/fs.go:1485-1496 | copies a chunk's bytes to their places in the range and leaves the others |
| `FileData.ReadEnd` | internal/blobfs/fs.go:1439-1444 | the end of the range is off + count or the size, whichever is less, with no wrap |
| `FileData.OpenFile.Write` | internal/blobfs/fs.go:1498-1565 | clamped to the size limit without wrapping; a refused wait on the budget leaves nothing behind; the bytes taken are a prefix, all below the limit while the store answers or if nothing has to be fetched, and the file becomes a plain overwrite with that prefix; FILE_SYNC is answered only once every byte of the file is stored and Sync has returned nil, and always then while the store answers; a failed sync reports what was buffered as unstable |
| `FileData.OpenFile.ClampedWrite` | internal/blobfs/fs.go:1516-1519 | what crosses the limit is cut off, and no offset arithmetic wraps |
| `FileData.OpenFile.CommitFile` | internal/blobfs/fs.go:1880-1888 | changes no byte; on success every byte is stored, and it succeeds while the store answers, if there is nothing to flush, or if the file is gone |
| `FileData.OpenFile.BufferWrite` | internal/blobfs/fs.go:1580-1695 | likewise, with a fetch that fails partway, a removal before or during the write, and the charge equal to the capacity added; a write whose chunks are buffered, holes, past the list or wholly overwritten needs no store |
| `FileData.OpenFile.Truncate` | internal/blobfs/fs.go:1733-1870 | a size over the limit changes nothing; any other resizes the plain file, and frees exactly the capacity of the buffers it drops |
| `FileData.OpenFile.FlushOpen` | internal/blobfs/fs.go:1900-1982 | a flush fails only if the store does and there is something to flush, and then leaves a live file as it was; one that succeeds changes no byte, stores all of them, settles the file and releases its whole charge |
| `FileData.OpenFile.ApplyTrim` | internal/blobfs/fs.go:1990-2002 | uploads exactly the first bytes the trim keeps |
| `FileData.OpenFile.LoadChunk` | internal/blobfs/fs.go:1189-1228 | a chunk's own bytes or nothing, whatever the store answers |
| `FileData.OpenFile.PutChunk` | internal/blobfs/fs.go:1251-1279 | a reference is returned only once the chunk of that hash is stored, and without the store if it is known to be |
| `FileSession.Session` | internal/blobfs/fs.go:1302-1982 | over every sequence of reads, writes, size changes and flushes, whichever fetches and uploads fail, every answer is one a plain byte sequence gives, and so is the file at the end; while the store answers nothing fails or falls short of the size limit, and a stable write that is admitted and synced is answered stable |
| `FileSession.ReadDuring` | internal/blobfs/fs.go:1302-1359 | a Read with any reads, writes, size changes and flushes between its hold and its fetches still answers as the plain file at one instant |
| `Charges.ChargeConserved` | internal/blobfs/fs.go:1613-1692 | with every write, write that failed, truncate, flush, failed flush, unlink and rename-over interleaved at their atomic steps, the charge is the sum of the files' shares and of what is in a holder's hands |
| `Charges.ChargeIsResident` | internal/blobfs/fs.go:950-955 | whenever nothing is half done, the charge is exactly the capacity of the dirty buffers of files still in the namespace |
| `Charges.WriteCharges` | internal/blobfs/fs.go:1613-1692 | a write that adds n of capacity to a live file charges n, to the budget and to the file |
| `Charges.FlushPaysBack` | internal/blobfs/fs.go:1952-1982 | a flush pays back the file's whole share |
| `Charges.FailedFlushLeaves` | internal/blobfs/fs.go:1926-1950 | one that fails on a live file changes nothing |
| `Charges.TruncatePaysBack` | internal/blobfs/fs.go:1791-1801 | a truncate pays back what its dropped buffers held |
| `Charges.RemovalPaysBack` | internal/blobfs/fs.go:950-955 | a removal pays back the share of the file it drops |
| `NamespaceTree.CreateKeepsTree` | internal/blobfs/fs.go:763-841 | a create keeps the tree: every inode but the root named once, by its parent; no cycle; a directory's link count 2 plus its subdirectories |
| `NamespaceTree.UnlinkKeepsTree` | internal/blobfs/fs.go:863-941 | so does removing a file or an empty directory |
| `NamespaceTree.MoveKeepsTree` | internal/blobfs/fs.go:1029-1032 | so does moving a name to a directory that is not under what moves |
| `NamespaceTree.ReplaceKeepsTree` | internal/blobfs/fs.go:1008-1032 | and so does moving it onto a name it replaces |
| `NamespaceTree.NamedOnce` | internal/blobfs/fs.go:763-1038 | in such a tree an inode has one name |
| `NamespaceTree.RootAboveAll` | internal/blobfs/fs.go:763-1038 | and the root is above every inode |
| `NamespaceTree.CreateSeen` | internal/blobfs/fs.go:763-841 | after a create the new name finds the new inode, of the kind and generation asked for; every other name finds what it found, and every other inode is the same file |
| `NamespaceTree.UnlinkSeen` | internal/blobfs/fs.go:863-941 | after a removal the name finds nothing and its inode is gone; all else is as it was |
| `NamespaceTree.MoveSeen` | internal/blobfs/fs.go:1029-1032 | after a move the new name finds what the old one did, the old one nothing, and every other name what it did |
| `NamespaceTree.ReplaceSeen` | internal/blobfs/fs.go:1008-1032 | and likewise after a move onto a name it replaces, whose inode alone is gone |
| `Namespace.FS.CreateEntry` | internal/blobfs/fs.go:763-841 | each status exactly when its check is the first to fail: mode, name, size, handle (BadHandle, Stale), kind (NotDir), policy (Acces), existing entry; a new inode has a number never issued before; an error changes nothing |
| `Namespace.FS.AddEntry` | internal/blobfs/fs.go:735-758 | the new inode and its entry, from any tree to a tree |
| `Namespace.FS.Unlink` | internal/blobfs/fs.go:863-916 | the same statuses before the entries are looked at; then NoEnt, NotDir, IsDir and NotEmpty exactly where the source gives them, and success otherwise; an error changes nothing |
| `Namespace.FS.RelinkOut` | internal/blobfs/fs.go:924-941 | what a name leaving a directory does to both link counts, and whether the inode leaves with it |
| `Namespace.FS.Rename` | internal/blobfs/fs.go:966-1038 | mode, names, both handles in turn, their kinds and the policy each answered exactly; then succeeds exactly when not into its own subtree and not onto another kind or a directory with entries; moves the one name, drops what it replaced, and keeps the tree; an error, or a name moved onto itself, changes nothing |
| `Namespace.FS.RenameEntry` | internal/blobfs/fs.go:990-1037 | each status exactly: NoEnt for a missing name, Inval for a directory moved at or below itself, IsDir, NotDir and NotEmpty for what it may not replace |
| `Namespace.FS.IsAncestor` | internal/blobfs/fs.go:1042-1059 | exactly whether one inode is at or above another; the guard against a cycle never ends the walk |
| `Directory.SortedNames` | internal/blobfs/fs.go:1076-1080 | every name once, ascending |
| `Directory.ReadDir` | internal/blobfs/fs.go:1063-1147 | a stale cookie or verifier is refused, exactly; otherwise a page of the listing from the cookie on: live entries in order with none skipped, each with the inode its name has ("." the directory, ".." its parent) and its own cookie; eof exactly when none is left, at least one entry if there is one; as many as the sums the code makes allow, the next one not fitting; and it outgrows its byte budget if and only if, of what there is to list, the first sum past the budget wraps to within it |
| `PageBudget.OutgrowsExactly` | internal/blobfs/fs.go:1118-1145 | that equivalence, between the page and the live entries it is taken from |
| `PageBudget.PageLengthUnique` | internal/blobfs/fs.go:1118-1145 | the live entries and the budget determine the page |
| `PageBudget.RoomNeverWraps` | internal/blobfs/fs.go:1118-1145 | with a budget two entries below 2^32 no sum wraps |
| `PageBudget.GreatestBudget` | internal/blobfs/fs.go:1118-1145 | with the greatest budget the page is everything left, and outgrows it exactly when that costs 2^32 or more |
| `Directory.ServerPagesFit` | internal/nfs/nfs3.go:489-493 | what the NFS server asks for, clamped as it clamps it, always gets a page within the budget or of one entry |
| `DirectoryWitness.LongPageOutgrows` | internal/blobfs/fs.go:1118-1145 | on any directory of 2^27 entries or more the page the greatest budget gets costs more than that budget |
| `DirectoryWitness.LongDirectoryExists` | internal/blobfs/fs.go:763-841 | there is such a directory: a tree, with names the filesystem takes |
| `Directory.ReadWhole` | internal/blobfs/fs.go:1063-1147 | reading page after page from the last cookie and verifier, with any budgets, ends having read exactly the entries whose inode is there; in a tree that is (d, ".", 1), (parent, "..", 2) and then, for each name in order, its inode, the name and the next cookie |
| `Directory.WholeIsEverything` | internal/blobfs/fs.go:1090-1103 | in a tree every entry of a directory is listed, once, in order, with its own inode: as many as it has, and two |
| `Budget.NoLostWakeup` | internal/blobfs/budget.go:131-278 | in every state of every run a sleeping call has exactly one drain in progress to wait for, no room, no failure newer than itself, and a live ctx or a callback about to wake it |
| `Budget.NoStaleFailure` | internal/blobfs/budget.go:140-203 | a call never returns the failure of a drain that ended before the call began |
| `Budget.FailureDelivered` | internal/blobfs/budget.go:195-278 | a call waiting when a drain fails or panics returns that failure or a later one, even if a later drain succeeds first |
| `Budget.FailureIsThatDrains` | internal/blobfs/budget.go:270-278 | every failure on record or returned is the one the drain of that number ended with and published |
| `Budget.DrainerReturnsItsOwn` | internal/blobfs/budget.go:239-264 | a failed drainer with a live ctx returns its own error, whatever other drains do before its caller looks; one whose ctx has ended returns that |
| `Budget.AbandonedSaysNothing` | internal/blobfs/budget.go:249-257 | the error of an abandoned drain reaches no other call, at any time |
| `Budget.AdmittedOnlyWithRoom` | internal/blobfs/budget.go:131-208 | every call that was admitted was admitted in a hold in which the charge was below the limit, or with waiting disabled |
| `Budget.RoomAdmits` | internal/blobfs/budget.go:195-208 | over every run, a call that takes its turn (on entry, woken, or after its own drain succeeded) with room and no failure newer than itself is admitted |
| `Budget.NoRoomWaits` | internal/blobfs/budget.go:209-231 | a turn without room and without a newer failure ends a call whose ctx has ended, and otherwise it sleeps behind the drain there is, or becomes the drain |
| `Budget.EndOfCtxEndsIt` | internal/blobfs/budget.go:209-220 | a sleeping call whose ctx ends is woken by its callback, and its next turn returns that |
| `Budget.CanceledOnlyIfEnded` | internal/blobfs/budget.go:195-264 | over every run, a call returns its ctx's end only if that has ended |
| `Budget.ChargeIsNet` | internal/blobfs/budget.go:86-101 | over every run, the charge is what has been added less what has been released |
| `Budget.ChargeBounded` | internal/blobfs/budget.go:86-208 | with at most k writes between admission and charge, each adding at most w, the charge never exceeds limit - 1 + k * w |
| `BudgetMonitor.Monitor.Turn` | internal/blobfs/budget.go:195-231 | one turn of the waiting loop is the monitor's step: a failure newer than the call is returned, then room admits it, then an ended ctx ends it, then it sleeps or drains |
| `BudgetMonitor.Monitor.Again` | internal/blobfs/budget.go:195-231 | a woken call's next turn keeps the monitor's invariant: one drainer, and nobody asleep who should be awake |
| `BudgetMonitor.Monitor.Callback` | internal/blobfs/budget.go:216-220 | so does the callback that wakes a call whose ctx has ended |
| `BudgetMonitor.Monitor.Await` | internal/blobfs/budget.go:131-140 | entering await is the monitor's step, and keeps its invariant |
| `BudgetMonitor.Monitor.AfterDrain` | internal/blobfs/budget.go:185-264 | the hold after a drain is the monitor's step, for success, error, abandonment and panic, and keeps its invariant |
| `BudgetMonitor.Monitor.Settle` | internal/blobfs/budget.go:270-278 | ends the drain, records its failure and wakes every sleeper |
| `BudgetMonitor.Monitor.Release` | internal/blobfs/budget.go:96-101 | frees capacity and wakes every sleeper |
| `ReplyCache.CacheInvariant` | internal/sunrpc/cache.go:84-171 | over every sequence of begin, finish and abandon the entries never exceed the bound and the queue is exactly the finished keys, once each, in time order |
| `ReplyCache.MarkerStays` | internal/sunrpc/cache.go:97-115 | only its own finish or abandon removes an in-flight marker, and every begin of its key meanwhile is told it is in flight |
| `ReplyCache.StoredUntil` | internal/sunrpc/cache.go:88-115 | a stored reply outlives a begin if and only if it has not expired and is not the oldest left when a full cache needs a place for an unknown key |
| `ReplyCache.Replayed` | internal/sunrpc/cache.go:84-143 | after a finish every begin of the key answers exactly that reply until it is older than the maximum age or evicted, and a miss once it is older |
| `ReplyCache.EndIsReplayed` | internal/sunrpc/rpc.go:297-321 | the reply an executing call ends with is what the next arrival of its key is answered, within the age |
| `ReplyCache.EndOfNothing` | internal/sunrpc/rpc.go:297-321 | a call that ends with no reply leaves no marker, so the next arrival executes |
| `ReplyCache.PurgeExact` | internal/sunrpc/cache.go:88-92 | a purge drops exactly the entries older than the maximum age, and no marker |
| `ReplyCache.EvictExact` | internal/sunrpc/cache.go:104-113 | making room costs at most the one oldest reply |
| `ReplyCache.NoStuckMarker` | internal/sunrpc/rpc.go:297-321 | with the bracket in dispatch, however calls overlap and however many ran uncached, a key is in flight only while a call of it is executing |
| `ReplyCache.AtMostOnce` | internal/sunrpc/rpc.go:297-321 | a call that never arrives at a cache crowded with calls in flight executes at most once at a time, with its marker up, however often it is retransmitted |
| `ReplyCache.UncachedExactly` | internal/sunrpc/cache.go:104-114 | a call runs uncached if and only if it arrives when calls in flight fill the cache and no finished one is left to evict |
| `ReplyCache.CrowdedRunsTwice` | internal/sunrpc/cache.go:104-114 | and then its retransmission executes beside it |
| `ReplyCache.UncachedRunsTwice` | internal/sunrpc/cache.go:125-141 | a run in which two calls of one key execute at once and the first to end completes the marker of the second |
| `ReplyTable.Table.Begin` | internal/sunrpc/cache.go:84-115 | the purge and eviction loops compute the specified cache and answer, within the bound and in time order; a miss that finds room has its marker |
| `ReplyTable.Table.Finish` | internal/sunrpc/cache.go:125-141 | stores a reply only over an in-flight marker, never an empty one; the key is no longer in flight |
| `ReplyTable.Table.Abandon` | internal/sunrpc/cache.go:145-155 | removes a marker and nothing else; the key is no longer in flight |
| `ChunkCache.PutKeeps` | internal/blobfs/cache.go:81-106 | unique hashes within the byte limit; the hash put is newest and never evicted; what goes is exactly the shortest least recently used suffix |
| `ChunkCache.GetKeeps` | internal/blobfs/cache.go:59-70 | a hit makes its entry the newest and changes nothing held |
| `ChunkCache.FitExact` | internal/blobfs/cache.go:96-105 | the longest prefix within the limit: one entry more would exceed it |
| `ChunkCache.RecencyOrder` | internal/blobfs/cache.go:59-106 | over every sequence of gets and puts the list is in the order of last use, so what is evicted was used least recently |
| `ChunkCache.CacheTransparent` | internal/blobfs/fs.go:1189-1228 | bytes returned are the one content with the hash asked for, and that chunk is then the newest in the cache if it fits; an honest answer of the store is returned, with the cache or without it; and nothing is returned exactly when the cache has nothing and the store does not give those bytes |
| `ChunkCache.Cache.GetChunk` | internal/blobfs/cache.go:59-70 | the map finds exactly what the list holds, and the list moves as specified |
| `ChunkCache.Cache.PutChunk` | internal/blobfs/cache.go:81-106 | map, list and byte count stay exact through the insertion |
| `ChunkCache.Cache.EvictBack` | internal/blobfs/cache.go:96-105 | and through the eviction loop, which leaves the longest prefix that fits |
| `Xdr.RoundTrip` | internal/xdr/xdr.go:33-170 | reading back any written sequence of fields within the limit, whatever follows it, gives the same values and consumes exactly what was written (sections 4.1 to 4.11 of RFC 4506) |
| `Xdr.ReadBack` | internal/xdr/xdr.go:98-170 | conversely, fields read without error are written back as exactly the bytes they were read from if and only if all the padding is zero and every bool is 0 or 1 |
| `Xdr.TwoReadsAsTrue` | internal/xdr/xdr.go:131 | a bool word of 2 is read as true and written back as 1 |
| `Xdr.CountedExactly` | internal/xdr/xdr.go:146-156 | a counted field comes back if and only if it is within 64 MiB; a longer one whose length the wire can carry is refused as too long with nothing more taken |
| `Xdr.CutShort` | internal/xdr/xdr.go:98-109 | a field within the limit that is cut short anywhere is refused as short |
| `Xdr.Aligned` | internal/xdr/xdr.go:72-76 | everything written ends on a four-byte boundary |
| `Xdr.NumberLayout` | internal/xdr/xdr.go:33-54 | an unsigned number is its big-endian word, a signed one that of its value modulo 2^32 or 2^64, and a bool that of 0 or 1 |
| `Xdr.BytesLayout` | internal/xdr/xdr.go:56-76 | bytes are followed by fewer than four zeros, up to a multiple of four; an opaque or a string has its length before that |
| `Xdr.ErrorLatched` | internal/xdr/xdr.go:92-109 | after the first error every later field reads as its zero value, moves nothing and keeps that error |
| `Xdr.Writer.OpaqueBytes` | internal/xdr/xdr.go:61-64 | appends the length and the padded bytes |
| `Xdr.Writer.String` | internal/xdr/xdr.go:66-70 | appends the same as an opaque of its bytes |
| `Xdr.Writer.Pad` | internal/xdr/xdr.go:72-76 | appends zeros up to the boundary |
| `Xdr.Reader.TakeBytes` | internal/xdr/xdr.go:98-109 | the next n bytes, or a latched error |
| `Xdr.Reader.FixedBytes` | internal/xdr/xdr.go:134-143 | n bytes and their padding |
| `Xdr.Reader.OpaqueBytes` | internal/xdr/xdr.go:146-156 | a counted field, refused over the limit before any allocation |
| `BigEndian.GetOfPut` | internal/xdr/xdr.go:33-43 | a number of n bytes is read back as itself |
| `BigEndian.PutOfGet` | internal/xdr/xdr.go:111-129 | and n bytes have one number |
| `BigEndian.GetConcat` | internal/xdr/xdr.go:111-129 | of two stretches of bytes the first counts for more, by 256 for each byte of the second |
| `BigEndian.WordBytes` | internal/xdr/xdr.go:111-129 | so four bytes are read most significant first |
| `Records.FragmentsReassembled` | internal/sunrpc/rpc.go:434-456 | any fragmentation of a record, whatever follows it, is reassembled if and only if the record is within the limit, and refused otherwise (section 11 of RFC 5531) |
| `Records.OnlyFragments` | internal/sunrpc/rpc.go:434-456 | whatever is read is some fragmentation of it, within the limit |
| `Records.WriteReadExactly` | internal/sunrpc/rpc.go:459-466 | a written record is read back if and only if it is within the limit |
| `Records.Stream.ReadRecord` | internal/sunrpc/rpc.go:434-456 | the loop ends on every finite stream with the specified outcome |
| `Records.Stream.WriteRecord` | internal/sunrpc/rpc.go:459-466 | one last fragment |
| `Records.HeaderBytes` | internal/sunrpc/rpc.go:459-466 | a header's four bytes spell the length, most significant first, with the top bit set exactly for the last fragment |

## Left out

- Store back ends, HTTP, retries and request signing; only the store's contract is modelled, with free replies.
- JSON and gzip encoding of snapshots and root pointers, and fsid; a snapshot is its epoch and namespace.
- Wrap-around of the epoch, change count, drain count and inode numbers at 2^64, and of link counts at 2^32.
- The contents of a namespace inside the commit protocol: there it is the log of changes that made it and the chunks it names. The inode table is modelled in the namespace modules, a file's chunk list in the file modules; no single state holds all three.
- Attributes, times, symbolic link targets, permissions as other than a policy that may refuse, and the NFS procedures above the filesystem.
- Aliasing of byte slices: buffers and cached chunks are values, so that the cache's copy and the caller's stay apart is not modelled. The cache's linked list is a sequence, and an element of it its bytes.
- The order of uploads within a flush, which is sorted in the code and arbitrary here, and skipVerify.
- Atomic.Fire's compare-and-swap loop; the mode is fired under the lock in the model.
- The parked counter, the Warn timer and logging in the budget, and liveness of a drain that never returns.
- The call header, credential and version checks in the RPC dispatch; only the cache bracket is modelled.
- The verifier of a directory listing is an arbitrary hash: a collision between two listings is not ruled out.
- The listing of a prune pass, read in batches of 1000 in the code, is one listing of distinct snapshot keys here.
- Budget.ChargeBounded: bounds the charge by the writes between admission and charge at once, which is what the concurrent writes of the source amount to.
- The handle lookup and the permission check before a Read, Write or ReadDir; the operations start from a file or directory already resolved and permitted.
