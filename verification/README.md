# pagedb, modelled in Dafny

pagedb is a crash-safe, encrypted page store: a copy-on-write B+ tree in fixed-size authenticated pages, a main file
with two alternating header slots, immutable segment files, and an open path that reconciles the catalog with the
directory. This project models the logic those guarantees rest on and proves what the code promises about it, for every
input, every run and every interleaving. `dafny verify dfyconfig.toml` checks the whole of it.

| files | what they model |
|---|---|
| `Nonce.dfy`, `HeaderSlots.dfy`, `AnchorProtocol.dfy`, `Publish.dfy`, `Reopen.dfy` | the nonce counter with its durable anchor, the A/B header slots, all runs of opens, issues, header writes that land, tear, are lost or never start, compaction renames and crashes, what each of them publishes, and which header a crash leaves |
| `Node.dfy`, `SlottedPage.dfy`, `Leaf.dfy`, `LeafCodec.dfy`, `LeafAccess.dfy`, `Internal.dfy`, `InternalCodec.dfy` | page validation, the slotted page layout with prefix compression, both node codecs filling a byte array in place, the zero-copy accessors, and the record and separator vectors |
| `Split.dfy`, `Tree.dfy`, `TreePages.dfy` | the leaf split loop, whole trees under put and delete with splits up to a new root, and lookup over raw page bytes |
| `KeyBound.dfy`, `SmallKeyRuns.dfy`, `RefusedRuns.dfy` | the exact key length, per page size, up to which no run of puts and deletes can fail |
| `Scan.dfy`, `LeafWalk.dfy`, `Paging.dfy`, `ScanRuns.dfy` | scans over the leaves of a tree, the parent-mediated walk from leaf to leaf, batches resumed at `key ‖ 0x00`, prefix scans under record and byte budgets, and all of these together over the tree a run built |
| `Overflow.dfy` | values stored as linked pages, on well-formed, malformed and cyclic stores |
| `SegmentIndex.dfy`, `Segment.dfy`, `SegmentRuns.dfy`, `Rekey.dfy` | the segment writer with failing writes, the independent validator, whole lives of a writer against it, and the page-by-page copy of a rekey |
| `Journal.dfy`, `Reconcile.dfy` | the apply-journal codec, and the catalog reconciliation that promotes, buries and removes files |
| `WriteOrder.dfy`, `OsLock.dfy` | per-file write gates and process-wide path locks under every interleaving |
| `Formats.dfy` | the stored formats of nodes, records and journal entries, field by field |
| `Bytes.dfy`, `Arithmetic.dfy` | little-endian integers, the lexicographic key order, division |

Code that changes things in place is a class or a method over an array with loops and invariants, proved against a
specification function; concurrent and crashing behaviour is a state machine over atomic steps; the rest is functions.

What the proofs establish where the code and its comments part ways:

- The comment on the leaf split says a caller never receives a half that would fail to encode. The loop can also turn
  forever. `LoopStopsIff` gives the exact condition, `SplitAfterUpsert` restates it for the one way the loop is reached
  (an upsert into a leaf that fitted: it stops if and only if the record fits together with its left or with its right
  neighbours), `HalfSizedUpsertSplits` shows a record of at most half the usable body always does, and
  `AcceptedPutsCanSpin` names three puts the preflight accepts after which the loop never stops.
- An internal split halves by entry count, not by bytes, so a half can be refused for size. `RunsSucceedIff` gives the
  exact condition over whole runs: every run of puts and deletes with keys of at most `k` bytes succeeds if and only if
  `k` is at most 222, 313, 454, 642 or 911 for pages of 4096, 8192, 16384, 32768 and 65536 bytes. `AlwaysHalvesIff` is the
  same condition for a single node, `PastTheBound` the node that fails one byte further, and `BoundPlusOneFails` the run
  of puts that builds it and is refused.
- The internal accessor ignores a shared prefix, and validation accepts prefixed internal nodes. `SafePrefixIff` shows
  the accessor stays inside every accepted page of a given prefix length exactly when that length is zero, as the encoder
  always writes it, or leaves no room for a slot; `PrefixEscapes` builds the page that fails for every other length.
- A segment append whose write fails has already drawn its counter. `SealedVerdict` shows that an open accepts a sealed
  file if and only if no counter was lost, `LostIff` that a counter is lost exactly when some append failed after drawing
  one, and `FailedAppendSpoils` names the shortest such life. `BuildSegment` states all of it for any calls and faults, and
  that a life without faults, within the counter and offset space, always seals to a file with exactly its extents.
- After a refresh whose outcome is unknown the handle stays usable, so a reopen can find neither the acknowledged header
  nor the one in flight, but that refresh: `FailedRefreshWins` gives the run. `TwoWayIff` says, after every run, exactly
  when this cannot happen: when no write that failed after its bytes landed has left another header behind.
  `SettledRunsReopen` is the form a caller can use: no header write of unknown outcome since the last acknowledgement or
  open.
  `ReopenFindsAckedOrInFlight` shows there is never a fourth possibility, and `RefreshesMoveNoRoots` that the committed
  roots are the same in all but the header in flight.
- A repair in which two catalog rows name the same trusted staged file fails at the second rename (`TwinRowsValidate`
  gives the rows); `Repair` succeeds if and only if every row validates and no staged file is asked for twice.
- The journal's action count saturates at the `u32` maximum, so a record decodes back exactly when its count is not
  saturated (`RecordRoundTrip`); no record that long fits the page stream, so every record that reaches pages does.

I/O results, crashes, authentication verdicts and allocator answers are parameters.

## Model

| member | source | states |
|---|---|---|
| Nonces.NonceIdentity | src/crypto/nonce.rs:26-32 | two nonces are equal exactly when their 6-byte prefixes are and their counters agree modulo 2^48 (the fixed-field and counter form of section 8.2.1 of NIST SP 800-38D) |
| Nonces.NonceLayout | src/crypto/nonce.rs:26-32 | a nonce is the 6-byte prefix and then the low 48 bits of the counter, least significant byte first |
| Nonces.WindowIsExact | src/crypto/nonce.rs:139-172 | `window_remaining` is exact: that many issues succeed and the next is refused for the anchor |
| Nonces.CommitRestoresWindow | src/crypto/nonce.rs:156-191 | committing the pending anchor is always legal and restores the whole budget |
| Nonces.RecoveredWindowIsEmpty | src/crypto/nonce.rs:110-122 | a recovered generator can issue nothing before its first header write, and its pending anchor is past the largest window of any earlier run |
| Nonces.FreshWindow | src/crypto/nonce.rs:90-99 | a fresh generator can issue its whole budget, capped at 2^20 |
| Nonces.RecoveredWindow | src/crypto/nonce.rs:110-122 | a recovered one can too once its first header is durable, short only of the 64-bit maximum |
| Nonces.MainDbNonceGen.Fresh | src/crypto/nonce.rs:90-99 | a fresh generator starts at counter 1 above anchor 0 with the budget capped |
| Nonces.MainDbNonceGen.Recover | src/crypto/nonce.rs:110-122 | a recovered generator skips the maximum budget, saturating, and keeps the recovered anchor as durable |
| Nonces.MainDbNonceGen.NextNonce | src/crypto/nonce.rs:139-150 | issues exactly inside `(durable, durable + budget]` and never past 2^48 - 1; an error changes nothing |
| Nonces.MainDbNonceGen.CommitAnchor | src/crypto/nonce.rs:184-190 | accepts exactly an anchor between the durable one and the last counter issued, and never lowers it |
| HeaderSlots.HeaderFile.Bootstrap | src/pager/header.rs:56-86 | a fresh file opens at the header written into slot A |
| HeaderSlots.HeaderFile.CommitHeader | src/pager/header.rs:229-258 | writes only the inactive slot: the new header after no fault or a failed sync, torn after a torn write, nothing after a lost or an unopened one; it returns exactly without a fault, and says `NotStarted` exactly when the file did not open |
| HeaderSlots.HeaderFile.RefreshAnchor | src/pager/anchor.rs:95-129 | the file still opens at the old header or at one differing only in `seq` and a raised anchor; it succeeds exactly when the live slot reads, the anchor is not lowered, a sequence number is left and the write lands, and then opens at this refresh; both refusals are exact |
| HeaderSlots.OpensAtNewest | src/pager/header.rs:184-198 | a file opens exactly when a slot authenticates, at the newest header it holds, slot A on a tie |
| AnchorProtocol.StepKeepsInv | src/pager/anchor.rs:95-129 | every protocol step (open, issue, begin, settle, acknowledge, fail, never start, seal, rename, sync, crash) keeps the protocol invariant |
| AnchorProtocol.PublishKeepsInv | src/pager/core/header_binding.rs:104-138 | acknowledging a header that supersedes the last one is always accepted by the generator and keeps the invariant |
| AnchorProtocol.RepackKeepsInv | src/compaction/repack.rs:177-257 | sealing a scratch file, dropping it, renaming it over main.db and syncing the directory keep the invariant |
| AnchorProtocol.FailKeepsInv | src/txn/db/guards.rs:46-65 | a header write that fails with its outcome unknown, and one that never started, both keep the invariant, whether or not the handle survives |
| Publications.CommitPublishes | src/pager/header.rs:229-258 | from every state a run can be in with an idle handle, a commit whose write lands publishes exactly the roots it was given: acknowledged, found on reopen, next sequence number, last counter as anchor, its open counted as a writing one |
| Publications.RefreshPublishes | src/pager/anchor.rs:95-129 | a refresh whose write lands republishes the acknowledged roots under the last counter handed out |
| Publications.CommitCrashes | src/pager/header.rs:229-258 | a crash during a commit, fault by fault: the new header if its bytes landed, the acknowledged one if they tore, the file untouched if none did |
| Publications.NeverStartedIsHarmless | src/txn/db/guards.rs:46-65 | a commit whose write never started leaves file and handle as they were |
| Publications.UnknownOutcomes | src/txn/db/guards.rs:46-65 | a commit of unknown outcome loses the handle, a refresh of unknown outcome keeps it |
| Publications.RebuildPublishes | src/compaction/repack.rs:177-257 | a sealed, renamed and synced rebuild publishes exactly its roots |
| Publications.RebuildCrashes | src/compaction/repack.rs:177-257 | a crash after the rename leaves the rebuilt roots, or the replaced file as it was if the rename was lost; before it, the file as it was |
| Publications.DroppedRebuildIsHarmless | src/compaction/repack.rs:177-257 | a rebuild given up before its rename leaves file and handle as they were |
| Publications.IssueHandsOut | src/crypto/nonce.rs:139-150 | an issue hands out the next counter exactly inside the window over the acknowledged anchor and the 48-bit space, and changes nothing else |
| Publications.OpenResumes | src/crypto/nonce.rs:110-122 | an open acknowledges the newest readable header, resumes past its window and writes nothing |
| AnchorProtocol.NoNonceIsReused | src/crypto/nonce.rs:85-191 | over every run, no main.db counter is issued twice or past 2^48 - 1, so no two nonces under one prefix coincide (the uniqueness section 2.8 of RFC 8439 demands) |
| AnchorProtocol.ReopenFindsAckedOrInFlight | src/pager/header.rs:184-198 | after a crash anywhere in any run the file opens, at the acknowledged header, the one in flight or a refresh of the acknowledged one, with an anchor no smaller and within one window of every counter issued |
| Reopens.LeftBehindTracks | src/pager/anchor.rs:95-129 | along every run, the header followed from writes that were never acknowledged is exactly the one an open would prefer to the acknowledged header if what is in flight came to nothing |
| Reopens.TwoWayIff | src/pager/header.rs:184-198 | after every run, with a live handle or without one, whatever becomes of a write or rename in flight, the store opens at the acknowledged header or the one in flight, if and only if no unfinished write left another one behind |
| Reopens.SettledRunsReopen | src/txn/db/guards.rs:46-65 | with no header write of unknown outcome since the last acknowledgement or open, every crash leaves the acknowledged header or the one in flight |
| Reopens.NoFailureSettles | src/txn/db/guards.rs:46-65 | a run in which no header write fails is settled throughout |
| Reopens.PublishingSettles | src/txn/db/guards.rs:46-65 | an acknowledgement that publishes settles the store again |
| Reopens.FailedRefreshWins | src/pager/anchor.rs:88-129 | a refresh whose sync fails, a commit begun after it and a crash: the file opens at the refresh, which is neither |
| AnchorProtocol.AckedNeverRegresses | src/pager/header.rs:219-258 | across crashes and reopens the acknowledged anchor and sequence never go down and issued counters only accumulate |
| AnchorProtocol.RefreshesMoveNoRoots | src/pager/anchor.rs:88-129 | any run of refreshes, torn writes, failures, crashes and reopens leaves the committed roots where they were |
| AnchorProtocol.WritingReopenRaisesAnchor | src/crypto/nonce.rs:110-122 | the first header a reopened handle makes durable carries an anchor at least 2^20 above the recovered one (short of `u64` saturation) |
| AnchorProtocol.CounterLifetime | src/crypto/nonce.rs:63-72 | while the anchor is in the 48-bit space, fewer than 2^28 reopens have written a header |
| NodeLayout.HeaderRoundTrip | src/btree/node.rs:102-118 | a written node header reads back whatever follows it |
| Formats.NodeHeaderFormat | src/btree/node.rs:220-235 | the 24 header bytes, field by field |
| NodeLayout.ValidateLeafRecord | src/btree/node.rs:183-195 | accepts exactly the leaf records every field of which lies inside the body |
| NodeLayout.ValidateInternalRecord | src/btree/node.rs:198-204 | accepts exactly the internal records every field of which lies inside the body |
| NodeLayout.ValidateNodeBody | src/btree/node.rs:138-161 | accepts exactly the byte strings whose header, prefix, directory and every record are in range |
| NodeLayout.CachedNode.ValidateMemoised | src/btree/node.rs:173-180 | skipping the walk on a remembered page changes no answer |
| SlottedPage.PageReadsBack | src/btree/node.rs:58-67 | in a page filled from both ends, slot `i` leads to block `i` intact: directory and records never overlap |
| SlottedPage.AddBlock | src/btree/leaf.rs:146-192 | writing one record below the tail and its offset into the next slot turns the page of `n` records into the page of `n + 1` |
| Leaves.LcpIsSharedByAll | src/btree/leaf.rs:418-433 | the common prefix of the first and last key is a prefix of every key of a sorted slice |
| Leaves.LcpIsLongest | src/btree/leaf.rs:418-433 | and no longer prefix is shared by all keys |
| Leaves.SubSliceSharesMore | src/btree/leaf.rs:418-433 | a contiguous sub-slice shares at least as long a prefix |
| Leaves.SizeIsMonotone | src/btree/leaf.rs:243-255 | compressed size never grows under contiguous sub-slices |
| LeafCodec.Encode | src/btree/leaf.rs:106-194 | fills the body with exactly the encoding when the leaf fits and refuses it untouched when it does not |
| LeafCodec.Decode | src/btree/leaf.rs:67-102 | succeeds exactly on well-formed leaf bodies, never reading outside, and reports the other node kind as such |
| LeafCodec.LeafRoundTrip | src/btree/leaf.rs:67-194 | decoding an encoded leaf returns it exactly, for every sorted leaf that fits a legal page |
| Formats.LeafRecordFormat | src/btree/leaf.rs:106-194 | a stored record, field by field: key suffix, then inline value or overflow reference |
| Formats.LeafPageHead | src/btree/leaf.rs:106-194 | a leaf page begins with its header and the longest common prefix |
| Formats.LeafPageSlot | src/btree/leaf.rs:106-194 | then one offset per record, leading to the records stacked down from the page end in key order |
| LeafAccess.CmpIsKeyOrder | src/btree/leaf.rs:342-364 | comparing prefix and suffix in pieces is comparing the whole stored key |
| LeafAccess.LeafAccessor.Find | src/btree/leaf.rs:368-381 | a found slot holds the key; on sorted pages absence means the key is absent |
| LeafAccess.ValueLocIsValue | src/btree/leaf.rs:386-400 | the location names exactly the decoded value's bytes, in range, or its overflow reference |
| LeafAccess.LeafAccessor.Get | src/btree/tree/read.rs:199-214 | lookup on the page bytes is lookup in the decoded records |
| LeafAccess.GetFromEncoded | src/btree/leaf.rs:306-400 | lookup on an encoded page is lookup in the leaf that was encoded |
| LeafAccess.Position | src/btree/leaf.rs:197-200 | the index of the key, or the one place where inserting it keeps the order |
| LeafAccess.UpsertedIsPut | src/btree/leaf.rs:203-214 | an upsert keeps the order and adds or replaces exactly one binding |
| LeafAccess.RemovedIsDelete | src/btree/leaf.rs:217-225 | a removal keeps the order and drops exactly one binding |
| LeafAccess.LeafNodeBuffer.Upsert | src/btree/leaf.rs:203-214 | the record vector becomes the upserted one; newness and the replaced value are reported exactly |
| LeafAccess.LeafNodeBuffer.Remove | src/btree/leaf.rs:217-225 | the record vector loses exactly the key, and its value comes back |
| Splitting.TurnGetsCloser | src/btree/split.rs:35-61 | while a stopping place exists, each move of the split point gets strictly closer to it |
| Splitting.LoopStopsIff | src/btree/split.rs:35-61 | from every starting point the loop breaks if and only if there are two records, or all but the first fit, or all but the last fit, or some point lets both halves fit |
| Splitting.SplitLeaf | src/btree/split.rs:19-76 | cuts the records in two non-empty parts at the point the walk reaches, with the right part's first key as separator; both parts fit if and only if some split point would do |
| Splitting.StopIsGood | src/btree/split.rs:45-60 | where the loop breaks, both halves fit as soon as any split point would do |
| Splitting.FirstCutStands | src/btree/split.rs:19-31 | a good first cut stands: nine tenths left of an append, half otherwise |
| Splitting.NearestGoodCut | src/btree/split.rs:35-61 | as long as some cut is good, the loop ends at the good cut nearest to its first guess |
| Splitting.AloneFits | src/btree/leaf.rs:259-273 | the preflight size of one record is its encoded size |
| Splitting.AcceptedFits | src/btree/tree/core.rs:345-353 | the preflight accepts exactly the records that fit alone in a leaf and whose key fits alone as a separator |
| Splitting.SplitAfterUpsert | src/btree/tree/write.rs:180-238 | after one upsert into a fitting leaf the loop stops, and both halves fit, exactly when the record fits beside its left or its right neighbours |
| Splitting.HalfSizedUpsertSplits | src/btree/split.rs:19-76 | inserting or replacing with a record of at most half the usable body always ends in two halves that fit, from either bias |
| Splitting.AcceptedPutsCanSpin | src/btree/tree/core.rs:345-353 | three puts the preflight accepts, on a 4096-byte page, after which the split loop never stops |
| Internals.PartsIsRank | src/btree/internal.rs:252-270 | sorted separators part in exactly one place around a key |
| Internals.AbsorbRoutes | src/btree/tree/navigate.rs:93-103 | after the parent repoints the split child and inserts the separator, every query reaches the child it reached before, the split child's queries part at the separator, and separators stay sorted |
| Internals.HalvesRoute | src/btree/internal.rs:156-173 | descent through the two halves and the promoted key is descent through the whole node |
| Internals.HalvesSeparate | src/btree/internal.rs:156-173 | every separator of the halves keeps its side of the promoted key |
| Internals.InternalBuffer.Upsert | src/btree/internal.rs:139-152 | sorted insert, or a new child for an existing separator |
| Internals.InternalBuffer.Repoint | src/btree/tree/navigate.rs:93-102 | exactly the first link to the old child is replaced |
| Internals.InternalBuffer.AbsorbSplit | src/btree/tree/navigate.rs:93-103 | repoint and insert together give the parent the routing lemma is about |
| InternalCodec.Encode | src/btree/internal.rs:77-127 | fills the body with exactly the encoding when the node fits and refuses it untouched when it does not |
| InternalCodec.Decode | src/btree/internal.rs:57-75 | succeeds exactly on well-formed internal bodies and reports the other node kind as such |
| InternalCodec.InternalRoundTrip | src/btree/internal.rs:57-127 | decoding an encoded node returns it exactly, with no shared prefix |
| Formats.SeparatorFormat | src/btree/internal.rs:77-127 | a stored separator, field by field |
| Formats.InternalPageHead | src/btree/internal.rs:77-127 | an internal page begins with its header, the leftmost child in the shared field, and no prefix |
| Formats.InternalPageSlot | src/btree/internal.rs:77-127 | then one offset per separator, leading to the separators stacked down from the page end in order |
| InternalCodec.InternalAccessor.ChildFor | src/btree/internal.rs:252-270 | the binary search over the bytes takes the child the decoded node routes to |
| InternalCodec.AccessorReadsInRange | src/btree/internal.rs:197-231 | without a shared prefix every slot the accessor reads is in range |
| InternalCodec.PrefixEscapes | src/btree/internal.rs:202-209 | for every prefix length that leaves room for a slot, an accepted page that sends the accessor out of the body |
| InternalCodec.SafePrefixIff | src/btree/internal.rs:197-231 | the accessor is safe on all accepted nodes of a prefix length if and only if that length is zero or leaves no room for a slot |
| Trees.LeafPutLaws | src/btree/tree/write.rs:180-251 | a put into a leaf, split or not, keeps order, bounds and page sizes, and every other key's answer |
| Trees.LeafCut | src/btree/tree/write.rs:180-238 | an overfull leaf is cut at nine tenths when the new key is the largest and in the middle otherwise, whenever that cut is good |
| Trees.ParentIsSound | src/btree/tree/navigate.rs:53-155 | a parent that absorbed a split, split itself or not, keeps sorted separators, bounds, level and page size |
| Trees.ParentRoutes | src/btree/tree/navigate.rs:53-155 | through the new parent a query meets the changed child only where it met the old one |
| Trees.PutLaws | src/btree/tree/write.rs:159-252 | a put anywhere in a tree of any height: balanced, ordered, every page fits, the key has the new value and every other key its old one |
| Trees.DeleteLaws | src/btree/tree/write.rs:358-392 | a delete keeps all of that and removes exactly the key |
| Trees.ApplyRefines | src/btree/tree/write.rs:122-392 | one operation on a tree that stands for a map leaves one that stands for the updated map |
| Trees.Run | src/btree/tree/write.rs:122-392 | every run of puts and deletes from the empty tree that returns leaves exactly the map its operations describe |
| KeyBounds.AbsorbedHalves | src/btree/internal.rs:156-173 | with keys within the bound, a fitting node that takes a separator halves into two that fit |
| KeyBounds.PastTheBound | src/btree/internal.rs:156-173 | for every page size, a sorted node that fits and a separator, with keys one byte past the bound, whose left half does not fit |
| KeyBounds.AlwaysHalvesIff | src/btree/internal.rs:156-173 | every node with keys of at most `k` bytes that outgrows its page halves into two that fit if and only if `k` is at most the bound |
| SmallKeyRuns.NewRootFits | src/btree/tree/navigate.rs:53-155 | after every run, a put that returns from below the root returns: every separator a run can promote fits a new root alone |
| SmallKeyRuns.SmallKeyRunsSucceed | src/btree/tree/write.rs:122-392 | every run with keys within the bound and values as the write path stores them succeeds, on every legal page size |
| RefusedRuns.FourthSplits | src/btree/split.rs:19-76 | a fourth quarter-page record splits its leaf in the middle, under its own key |
| RefusedRuns.TwoPuts | src/btree/tree/navigate.rs:53-155 | two puts split a leaf of a height-one tree, and its parent takes the separator if it fits and ends the run if a half does not |
| RefusedRuns.BoundPlusOneFails | src/btree/tree/write.rs:122-252 | for every page size, some run of puts from the empty tree with keys one byte past the bound fails |
| RefusedRuns.RunsSucceedIff | src/btree/tree/write.rs:122-392 | every run of puts and deletes with keys of at most `k` bytes succeeds if and only if `k` is at most the bound |
| TreePages.EncodedLeafIsStored | src/btree/tree/core.rs:469-475 | a page holding an encoded leaf stores that leaf |
| TreePages.EncodedInternalIsStored | src/btree/tree/core.rs:477-483 | a page holding an encoded internal node over stored children stores the subtree |
| TreePages.StoredLevel | src/btree/tree/core.rs:77-101 | pages determine the height of the tree they hold, so the cycle guard never fires on one |
| TreePages.StoreValue | src/btree/tree/write.rs:98-119 | a value of at most a quarter page is kept inline, a larger one on a chain, which succeeds exactly when every page write does; either way a lookup reads it back |
| TreePages.Get | src/btree/tree/read.rs:130-215 | lookup over raw pages by the zero-copy accessors returns on every page set, and on a stored tree returns the tree's own answer |
| TreePages.GetBytes | src/btree/tree/read.rs:169-230 | lookup down to the value's bytes: those stored inline, those of the overflow chain, or an error exactly when the chain does not read at the declared length |
| Scans.LookupIsScan | src/btree/tree/scan.rs:83-103 | a full scan and a descent agree on every key |
| Scans.StartLeafIsEarlyEnough | src/btree/tree/navigate.rs:212-233 | every record before the leaf a descent reaches sorts before the key, so a scan may start there |
| LeafWalk.LeafAtNumber | src/btree/tree/navigate.rs:296-330 | a path from the root reaches the leaf its number in the row of leaves says |
| LeafWalk.DescentIsStart | src/btree/tree/navigate.rs:212-233 | the descent for a key reaches the leaf a scan for it starts at |
| LeafWalk.NextLeafAfter | src/btree/tree/navigate.rs:296-330 | climbing to an ancestor with a child further right and descending leftmost reaches exactly the next leaf, and finds none exactly at the last |
| LeafWalk.LeavesFrom | src/btree/tree/scan.rs:83-103 | repeated successor steps read the row of leaves to its end |
| Scans.CollectBatchFrom | src/btree/tree/scan.rs:120-152 | the batch reader returns exactly the first `limit` records at or after the cursor |
| Scans.StopsAtLongest | src/btree/tree/scan_bounded.rs:46-60 | the bounded batch is the longest run both budgets allow |
| Scans.RunIsPrefixRange | src/btree/tree/scan_bounded.rs:28-45 | starting at the later of start and prefix and stopping at the first foreign key visits exactly the records with the prefix at or after start |
| Scans.CollectPrefixBatchBounded | src/btree/tree/scan_bounded.rs:14-69 | returns that longest run resolved, its keys and values together within the byte budget; `limit` is `None` exactly when the range is exhausted and names the right budget otherwise, and an error means a record within both budgets was unreadable |
| Scans.BatchBytes | src/btree/tree/scan_bounded.rs:46-60 | a batch keeps both budgets in what it returns, and a batch that a budget ended could not have taken one record more, overflow values counted in full |
| ScanRuns.RunRecords | src/btree/tree/scan.rs:83-103 | the leaves of the tree a run built, left to right, are its map in key order |
| ScanRuns.ResumedRange | src/txn/read/txn.rs:172-181 | a prefix scan resumed at the last returned key followed by a zero byte is about exactly the rest of its range |
| ScanRuns.ScanPrefix | src/txn/read/txn.rs:172-193 | descending, reading a bounded batch off the leaves and resuming past it returns the whole prefix range resolved, and gives up exactly when some record of it is unreadable or over a batch's budget |
| ScanRuns.ScanRun | src/txn/read/txn.rs:172-193 | for every run of operations, that scan of the resulting tree lists exactly the map's entries with the prefix, in key order, each once, with its value read, and gives up exactly when some such entry is unreadable or over a batch's budget |
| Paging.ResumesAfter | src/compaction/helpers.rs:70-76 | `key ‖ 0x00` resumes exactly after the record with that key |
| Paging.LeadingIsAll | src/btree/tree/scan.rs:165-176 | cutting a batch at the first key without the prefix loses no record that has it |
| Paging.StreamDenseTree | src/compaction/helpers.rs:61-104 | for every key set and batch size the paging loop ends having loaded exactly the kept records, each once, in order |
| Paging.CatalogRows.Walk | src/compaction/full.rs:94-113 | the same when every visited row is rewritten under its own key between batches |
| OverflowChains.LinkRoundTrip | src/btree/overflow.rs:59-95 | a chain page reads back its link and data |
| OverflowChains.RootRoundTrip | src/btree/overflow.rs:99-135 | a root page reads back its count, link and data |
| OverflowChains.LinkLayout | src/btree/overflow.rs:59-95 | a chain page byte by byte: next page, length, data, zeros |
| OverflowChains.RootLayout | src/btree/overflow.rs:99-135 | a root page byte by byte: the reference count and then a chain page |
| OverflowChains.PageCount | src/btree/overflow.rs:180-233 | a value takes the fewest pages it can: the root share and then full pages |
| OverflowChains.EncodeOverflow | src/btree/overflow.rs:59-74 | fills the body with the chain layout, or refuses data over capacity untouched |
| OverflowChains.EncodeOverflowRoot | src/btree/overflow.rs:99-115 | fills the body with the root layout, or refuses data over capacity untouched |
| OverflowChains.ChainIds | src/btree/overflow.rs:418-440 | no readable chain visits a page twice or leaves the store |
| OverflowChains.PageStore.WriteChain | src/btree/overflow.rs:180-233 | succeeds exactly when every page write and flush does; the chain then reads back as the value on exactly the allocated ids in order, referenced once; either way no page outside a leading part of those ids changed |
| OverflowChains.PageStore.ReadChain | src/btree/overflow.rs:292-343 | on every store, cyclic or malformed, it returns; it succeeds exactly on a readable chain of the declared length and returns its bytes |
| OverflowChains.PageStore.ReadChainRange | src/btree/overflow.rs:353-414 | on every store the result is the clamped slice of the bytes readable before the walk ends or breaks, and an error exactly when they fall short of the range |
| OverflowChains.ReadableIsChain | src/btree/overflow.rs:292-343 | a chain that reads to its end is all of it readable |
| OverflowChains.ReadableUpToTheBreak | src/btree/overflow.rs:353-414 | whatever becomes of a chain further on, every page reached and read before it breaks counts as readable |
| OverflowChains.RangeOfReadable | src/btree/overflow.rs:353-414 | so whenever the whole chain reads as a value, every range read is the clamped slice of that value |
| OverflowChains.TakeChunk | src/btree/overflow.rs:383-392 | one chunk's contribution to a range; `end - consumed` never underflows |
| OverflowChains.PageStore.CollectChain | src/btree/overflow.rs:418-440 | succeeds exactly on readable chains and lists their pages once each, in order |
| OverflowChains.PageStore.Release | src/btree/overflow.rs:253-289 | the last reference lists exactly the chain's pages; an earlier one copies the root with one reference fewer and touches nothing else |
| OverflowChains.PageStore.WriteThenRelease | src/btree/overflow.rs:180-289 | a chain written and released once frees exactly the pages it was written to |
| OverflowChains.CopiedRoot | src/btree/overflow.rs:282-288 | a root copied off its chain carries the same value over the same later pages |
| SegmentIndex.ExtentRoundTrip | src/segment/types.rs:89-115 | an index entry decodes back |
| SegmentIndex.ExtentBytesRoundTrip | src/segment/types.rs:89-115 | entries with clear reserved bytes are exactly the encodings |
| SegmentIndex.ExtentLayout | src/segment/types.rs:89-115 | an index entry byte by byte, its reserved bytes zero |
| SegmentIndex.ValidateIndexEntries | src/segment/authenticated_metadata.rs:376-420 | the chunk loop computes the page check, errors included |
| SegmentIndex.AcceptedIsSound | src/segment/authenticated_metadata.rs:376-420 | whatever bytes an index page holds, acceptance leaves an ordered, disjoint, in-range extent list |
| SegmentIndex.AcceptedBytes | src/segment/authenticated_metadata.rs:376-420 | every accepted index page, to its last byte, is the encodings of the entries it added and then zeros |
| SegmentIndex.WriterPageAccepted | src/segment/writer.rs:338-362 | an index page the writer laid down is accepted and yields exactly its extents |
| Segments.DecodeExtentIndex | src/segment/authenticated_metadata.rs:288-332 | the page loop computes the index verdict |
| Segments.AcceptedExtents | src/segment/authenticated_metadata.rs:48-136 | any accepted file carries the identity, parent, page count, byte total and final counter its catalog row and footer name, ends its index right before the footer, has none exactly when it has no extents, and its extents are ordered and disjoint |
| Segments.IndexPageCount | src/segment/writer.rs:333-338 | the number of index pages written is the ceiling the footer records |
| Segments.ExtentRecordedIff | src/segment/writer.rs:259-280 | an extent is recorded if and only if it has between one and 2^32 - 1 pages, all of them fit and every write lands, and then as exactly those pages |
| Segments.LogicalBytesIs | src/segment/writer.rs:259-280 | an extent records its payload bytes, saturating |
| Segments.SealedVerdict | src/segment/authenticated_metadata.rs:48-136 | the validator accepts a sealed file if and only if no counter was lost, and finds exactly the recorded extents, or those of the copied index |
| Segments.SegmentWriter.WriteNext | src/segment/writer.rs:225-256 | one page write: exhausted counters cost nothing, an overflowing offset or a failing write cost one counter, and only a write that lands adds a page, holding exactly the payload |
| Segments.SegmentWriter.AppendPage | src/segment/writer.rs:218-257 | succeeds exactly when the payload fits, the write does not fail, a counter is left and the offset is in range, and then adds one page holding the payload; a refusal for size costs nothing and a later failure exactly one counter |
| Segments.SegmentWriter.AppendExtent | src/segment/writer.rs:259-280 | succeeds exactly when every page fits and lands, and then records the appended run; otherwise the pages that landed stay and nothing is recorded |
| Segments.SegmentWriter.WriteIndex | src/segment/writer.rs:324-390 | succeeds exactly when the page count fits 32 bits and every index page lands, and then adds exactly the pages of the extent list |
| Segments.SegmentWriter.Seal | src/segment/writer.rs:299-441 | succeeds exactly when the copied layout fits, the index pages land, the footer is in range and its write does not fail, and leaves exactly the sealed file and its metadata |
| SegmentRuns.LostIff | src/segment/writer.rs:218-257 | over any calls and faults, a counter is lost if and only if some call failed after drawing one |
| SegmentRuns.RunClean | src/segment/writer.rs:218-280 | without faults no counter is lost and the extents recorded are exactly those whose pages all fit, each where the pages before it end |
| SegmentRuns.CleanRunSeals | src/segment/writer.rs:299-441 | without faults, within the counter and offset space, the writer can always be sealed |
| SegmentRuns.ModestRunsFit | src/segment/writer.rs:299-441 | every life of fewer than 2^32 - 1 calls and pages together is within the counter and offset space |
| SegmentRuns.FailedAppendSpoils | src/segment/authenticated_metadata.rs:244-258 | one append whose write fails, then a seal without faults: the seal returns a segment that no open accepts |
| SegmentRuns.BuildSegment | src/segment/writer.rs:218-441 | any calls, any faults, then a seal: what was recorded and lost, exactly when the seal returns, and an open that accepts if and only if no append failed after drawing, finding exactly the recorded extents; without faults it always does |
| Rekeys.CopyVerdict | src/segment/writer.rs:133-152 | a whole copy sealed under its source's index position opens with its source's extents |
| Rekeys.CopyContents | src/txn/db/rekey/segments.rs:328-334 | every page between header and footer of the copy carries its source page |
| Rekeys.CopySegment | src/txn/db/rekey/segments.rs:309-335 | copies exactly when the source opens, every page between header and footer reads, every write lands and the footer's does; the copy has as many pages, each carrying its source page, and opens with the same extents |
| Journal.EncodeRecord | src/recovery/journal.rs:83-115 | the encode loop computes the record bytes |
| Journal.DecodeRecord | src/recovery/journal.rs:165-230 | the decode loop, early count refusal included, computes the parse |
| Journal.RecordRoundTrip | src/recovery/journal.rs:83-230 | a record decodes back from its bytes exactly when its action count is not saturated |
| Formats.JournalRecordFormat | src/recovery/journal.rs:83-115 | a record: target commit, saturated action count, actions |
| Formats.ActionFormat | src/recovery/journal.rs:83-115 | an action, tag and fields, and the actions one after another |
| Journal.BytesRoundTrip | src/recovery/journal.rs:165-230 | every accepted byte string is the encoding of what it decodes to |
| Journal.EncodeJournalPages | src/recovery/journal.rs:125-140 | whole pages, as many as the page count formula says, whose concatenation is the padded stream; refused exactly past the `u32` length |
| Journal.StreamRoundTrip | src/recovery/journal.rs:125-161 | every record that encodes to pages decodes back from their concatenation |
| Formats.JournalStreamFormat | src/recovery/journal.rs:125-140 | the page stream is record length, record and zeros, and no page more than needed |
| Journal.Replay | src/recovery/journal.rs:262-298 | reads exactly the pages the first one asks for and decodes their concatenation |
| Journal.ReplayCountsPages | src/recovery/journal.rs:143-146 | the count replay computes from the first page is the number of pages written, and the record comes back |
| Journal.JournalIdRoundTrip | src/recovery/journal.rs:240-256 | packing a journal id into two header fields and back is the identity both ways |
| Formats.JournalIdFormat | src/recovery/journal.rs:240-247 | the two header words are the halves of the journal id |
| Reconcile.MoveKeepsValid | src/recovery/reconcile.rs:166-209 | no promotion, burial or removal makes a valid catalog row invalid |
| Reconcile.MovesKeepGoal | src/recovery/reconcile.rs:149-157 | after any of a repair's moves, in any order, the directory it leads to is unchanged |
| Reconcile.CrashThenRerun | src/recovery/reconcile.rs:245-300 | a crash after any prefix of a repair's moves, followed by a rerun, reaches the same directory |
| Reconcile.TwinRowsValidate | src/recovery/reconcile.rs:149-156 | two rows of one staged segment both authenticate although their promotions clash |
| Reconcile.RowIff | src/recovery/reconcile.rs:166-209 | a row holds exactly when it is readable and its file, live or else staged, is there and not fatal, and publishes exactly when that file is staged, not live and verified |
| Reconcile.RepairedIs | src/recovery/reconcile.rs:59-82 | the repaired directory file by file: live are the named live files and the published ones, staged the named rest, buried exactly the live files no row names |
| Reconcile.NamedFilesSurvive | src/recovery/reconcile.rs:271-300 | no file under a catalog-named identity is buried or removed; live ones stay, staged ones stay or become live |
| Reconcile.OnlyOrphansBuried | src/recovery/reconcile.rs:274-289 | only live files no row names are buried, with their contents, and other tombstones stay |
| Reconcile.SegmentDirectory.CheckRows | src/recovery/reconcile.rs:117-147 | succeeds exactly when every row authenticates, fails with the error of the first row that does not, and moves nothing |
| Reconcile.SegmentDirectory.PromoteAll | src/recovery/reconcile.rs:149-156 | completes every trusted publication, failing exactly when two rows ask for one staged file |
| Reconcile.SegmentDirectory.Repair | src/recovery/reconcile.rs:59-82 | succeeds exactly when all rows validate and no staged file is asked for twice; every row then held and only verified staged files became live; nothing moves before the whole catalog validated, and a refusal is that of the first bad row; the directory it leaves is settled |
| Reconcile.SegmentDirectory.Verify | src/recovery/reconcile.rs:29-54 | accepts exactly a settled directory, in which every row holds and none has a file to publish, with the same ids a repair returns, and moves nothing |
| WriteOrder.StepKeepsInv | src/vfs/write_order.rs:92-146 | opens, entries, grants, abandonments, finishes, closes and delayed destructors keep the registry invariant |
| WriteOrder.OneLiveGatePerFile | src/vfs/write_order.rs:121-130 | over every interleaving, at most one live gate per file identity |
| WriteOrder.TurnsNeverOverlap | src/vfs/write_order.rs:136-140 | two ordered operations on one file never run at once |
| WriteOrder.ServedInOrder | src/vfs/write_order.rs:136-140 | the running operation drew its ticket before every one still waiting on the file |
| WriteOrder.EnterWaits | src/vfs/write_order.rs:136-140 | after every run an entry draws a ticket later than all before and waits behind the others |
| WriteOrder.GrantServesFirst | src/vfs/write_order.rs:136-140 | a grant serves the earliest waiting ticket, exactly when none is served, and keeps all others waiting |
| WriteOrder.AbandonRemoves | src/vfs/write_order.rs:136-140 | giving up a wait removes that ticket and no other |
| WriteOrder.FinishAndClose | src/vfs/write_order.rs:92-103 | a finished turn frees its gate and a closed handle leaves it, and nothing else changes |
| WriteOrder.OpenSharesTheLiveGate | src/vfs/write_order.rs:121-130 | an open shares the gate that every live handle and operation of the file is on |
| WriteOrder.OpenRegisters | src/vfs/write_order.rs:121-130 | an open leaves its handle on the gate registered for its file |
| WriteOrder.RegistryForgets | src/vfs/write_order.rs:92-103 | a file is unregistered once no handle, operation or pending destructor of it remains |
| OsLock.InProcLockEntry.TryJoin | src/vfs/oslock.rs:83-93 | joins exactly a shared domain as shared, reports exactly a free one, refuses the rest unchanged |
| OsLock.InProcLockEntry.Install | src/vfs/oslock.rs:96-106 | records the first holder and the OS lock |
| OsLock.InProcLockEntry.Leave | src/vfs/oslock.rs:109-119 | gives one hold back; the OS lock goes with the last |
| OsLock.StepKeepsInv | src/vfs/oslock.rs:341-364 | passing the gate, looking at the entry, the OS's answer and handle drops keep mode, count and OS lock in agreement |
| OsLock.GateAdmitsOne | src/vfs/oslock.rs:349-364 | one acquirer at a time passes the gate, under a handle no holder has |
| OsLock.LookDecides | src/vfs/oslock.rs:349-364 | after every run an acquirer joins exactly when there are holders and it and all of them share, and asks the OS exactly when there is none |
| OsLock.OsDecides | src/vfs/oslock.rs:356-362 | the first holder appears exactly when the OS granted its lock |
| OsLock.DropRemoves | src/vfs/oslock.rs:109-119 | a drop removes that holder and no other; the OS lock goes with the last |
| OsLock.ExclusiveIsAlone | src/vfs/oslock.rs:82-119 | over every interleaving an exclusive holder is alone |
| OsLock.ModeCountsHandles | src/vfs/oslock.rs:82-119 | the mode counts exactly the live handles, and the OS lock is held exactly while one lives |
| OsLock.InstallsOnlyOnFree | src/vfs/oslock.rs:356-362 | while the OS lock is being taken the domain stays free, so the first holder is only ever recorded on a free domain |

## Left out

- AEAD, HMAC and key derivation: authentication is a verdict handed in with the bytes.
- VFS backends, async plumbing and cancellation inside lock acquisition: each I/O call is one atomic step with a given outcome.
- Loss of an authoritative header slot other than by the write in flight, and the unpoisoned failure path of restore-mode headers.
- Follower nonce prefixes, whose uniqueness is probabilistic by design.
- Page ids, copy-on-write, dirty-leaf caches and the free list of the tree: the put and delete theorems are over node values, `TreePages` relates node values to pages for reads, and values to what a put stores.
- Batched puts, appends, range deletes and reverse scans: further callers of the same operations.
- Trees.Run: a put that would leave a page too large ends the run, as the partial write ends the transaction.
- LeafWalk.NextLeafAfter: children are told apart by position where the source compares page ids, and the revisit guard of a scan is not modelled.
- TreePages.Get: overflow references are returned (`GetBytes` follows them), and an internal page with a shared prefix is an error, as the debug assertion makes it.
- Segment manifests, the header page's fields beyond identity, and the footer's own nonce.
- Reconcile.SegmentDirectory.Repair: names are an identity in some hexadecimal spelling or not an identity at all; hexadecimal itself is not modelled, nor are unsynced directory entries.
- OsLock.InProcLockEntry.TryJoin: the holder count is unbounded where the source has a `u32`.
- Recovery's deep walk, fsck, segment repack, catalog row and AAD codecs, snapshots, CLI and options: fixed-offset codecs and reporting that would only add easy members.
