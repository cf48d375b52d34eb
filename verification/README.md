# A verified model of ferrosync

ferrosync is a reimplementation of the rsync wire protocol. This project models its core in Dafny
and proves what the parts promise together: a file arrives as it was, whatever the schedule, the
short reads, the sizes of chunks and buffers, and the way the transport cuts the bytes.

The model has eight parts.

- **Delta engine.** `Checksum`, `Signatures`, `Delta`, `Matcher`, `GreedyDelta`, `StreamScan`,
  `Streaming`, `StreamBatch`, `StreamCompare`, `SumWire`, `Tokens`, `DeltaTransfer` and
  `FileTransfer` cover the rolling checksum, block signatures, the batch and the streaming matcher
  and how they compare, plain tokens, reconstruction, and the transfer of one file from signatures
  to the checked result.
- **Session.** `Network` is a small theory of processes over bounded FIFO channels: steps of
  different processes commute, so one run that comes to rest decides every run, and any two runs
  meet again. `Session` puts generator, sender and receiver on it, from the groups of the file list
  to the goodbyes; `SessionRuns`, `SessionCleanup` and `Statistics` follow its runs,
  `SessionOutcome` and `SessionEnds` say what becomes of every one. `SessionFiles` fills the messages
  with real signatures and deltas, `ListedSession` takes indices and groups from an exchanged file
  list, and `Handshake` runs the opening exchange on the same theory.
- **File-list order.** `SortOrder` has the two-walker comparison, `CanonicalOrder` what it means,
  `SiblingOrder` what that is on the names of one directory.
- **File-list numbering.** `DirectoryTree`, `DirectoryGroups`, `FileIndex`, `Sorting`,
  `FileListWire` and `FileListReceipt` follow a list from the sender's grouping over the stream to
  the receiver's own sort and numbering; `TraversalOrder` and `SortedTraversal` compare the order of
  the groups with a depth-first one, `BatchList` has lists sent in one piece, `FileListCut` what a
  receiver refuses.
- **Framing.** `Frames` and `Multiplex`.
- **Compressed tokens.** `CompressedTokens`, `CompressedWriter` and `CompressedReader`, for any codec
  at all; `Codecs` and `FlushTrailer` say which files come through a stream compressor (zstd), a block
  compressor (lz4) and one with a flush trailer (zlib), `CodecInstances` that their laws can be met,
  and `CompressedTransfer` puts signatures, deltas and the checked result around them.
- **Metadata.** `Varint`, `Dedup`, `Exchange`, `Acl`, `AclExchange`, `Xattr` and `SubLists`.
- **Supporting algorithms.** `Languages`, `Glob` and `GlobLaws`, `Lcs`, `DeleteBudget`, `PruneTree`.

`WireBytes` writes each wire format out on bytes.

Strong hashes, file hashes and compressors are function values with stated laws. Lossless delivery
assumes that the truncated strong checksum does not collide between a window of this source and a
block of this basis (`CollisionFree`), nothing more; without that assumption an accepted file still
has the checksum of the source. Clocks, randomness, the transport's answers, the order of directory
listings and the schedule are arbitrary.

## What the code does and its documentation does not say

- The streaming matcher is documented to give the same operations as the batch matcher. At a chunk
  boundary the pending literal is cut and the rolling state can fall a window behind.
  `StreamCompare.StreamIsBatch` says exactly when neither shows, `StreamCompare.MissedMatch` gives a
  source on which a match is missed.
- With a chunk shorter than a block, the streaming sender stops after the first chunk and the
  receiver accepts that prefix as the file. `FileTransfer.TransferStream` gives the exact condition,
  `FileTransfer.CutShort` an instance.
- The sender's loop sends one group of the file list before each request, the receiver asks for
  nothing before it has all groups. With two directories or more both wait for good
  (`SessionOutcome.SessionCompletes`, `ListedSession.TwoDirectoriesStop`).
- A client that pulls a list of two groups closes one round more than the sender answers and reads
  an index off the statistics. Whether it still ends depends on the bytes of the statistics:
  `SessionCleanup.Aligned` is the exact condition, `Statistics.SmallTotals` and
  `Statistics.LuckyTotals` say for which totals it fails and holds.
- A reply that fails the receiver's check ends its loop: no later file is received and no phase is
  closed. Generator and sender go on to the end of the list, then the sender fails
  (`SessionOutcome.ReceivedInOrder`, `SessionEnds.SessionSettles`).
- Directory groups are documented as depth first; the code goes breadth first.
  `TraversalOrder.DepthFirstExactly` says exactly when the two agree, `SortedTraversal.InListOrder`
  exactly when the groups follow the sorted list, which is depth first, and
  `SortedTraversal.DescendsLate` gives a list on which they do not.
- An entry named `./x` is in no group and is never sent (`DirectoryGroups.UnderDotLost`,
  `DirectoryGroups.DotFileLost`). `DirectoryGroups.Partition` says exactly which lists are grouped
  without loss.
- Access bits from 2^30 on are lost in access control lists (`Acl.NormExact`, `Acl.AccessLost`).
- A dry run of pruning counts only directories that are empty now, fewer than a run would remove
  when empty directories are nested (`PruneTree.DryRunCount`, `PruneTree.DryRunDiffers`).
- The receiver reads the index in a response and ignores it. `SessionOutcome.ReceivedInOrder` shows
  that the order alone is enough.
- The compressed reader enters a run whatever its count, in the relative and in the absolute form, and
  after a count of zero never leaves it: it has left the run after `k` calls if and only if the count
  was positive and at most `k` (`CompressedReader.FollowRun`). The writer never produces such a count.
- The lz4 backend decodes every frame as a block of its own, so a chunk that compresses to more than
  one frame cannot be read back (`Codecs.BlocksLossless`, `CompressedTransfer.TransferThroughBlocks`).
- The zlib reader adds a flush trailer to every frame, the writer cuts one off only before a match or
  the end of a file. A literal longer than a chunk, two literals in a row, or a chunk of more than one
  frame puts bytes into the decompressor that the compressor did not produce
  (`FlushTrailer.TrailerExactly`).
- Decoders of access control lists and extended attributes start afresh for every sub-list, their
  encoders do not. In a later sub-list a value that occurred before is an error or comes out as
  another one (`SubLists.OneRestarted`); `SubLists.XattrsRestarted` and `SubLists.AclsRestarted` say
  exactly which sub-lists come through, `SubLists.SecondWithoutFails` gives one that does not.
- In a glob class such as `[a-]` the bracket is the end of the range (`Glob.OpenRange`,
  `Glob.BracketInRange`).

## Model

| member | source | states |
|---|---|---|
| `Checksum.Compute1` | crates/ferrosync-delta/src/checksum.rs:28-36 | The lower half of the result is the byte sum, the upper half the sum of prefix sums, each modulo 2^16, for every offset constant |
| `Checksum.RollingChecksum.Digest` | crates/ferrosync-delta/src/checksum.rs:260-262 | The same halves, of whatever window the rolling state covers |
| `Checksum.RollingChecksum.Compute` | crates/ferrosync-delta/src/checksum.rs:236-244 | The state afterwards covers exactly the given window |
| `Checksum.RollingChecksum.Roll` | crates/ferrosync-delta/src/checksum.rs:248-257 | Whatever window the state stands for, or none, the sums change by the wrapped update and the count stays |
| `Checksum.RollCorrect` | crates/ferrosync-delta/src/checksum.rs:248-257 | The wrapped update of both sums equals the wrapped sums of the next window, computed from scratch |
| `Checksum.RollsOn` | crates/ferrosync-delta/src/checksum.rs:248-257 | From the sums of a window the update gives the sums of the window one byte further on |
| `Signatures.ComputeSignatures` | crates/ferrosync-delta/src/sum.rs:90-137 | The data are the blocks one after the other, all of the block length but possibly the last; each entry has both halves of its block's weak sum and the beginning of its strong sum, and the header the length of the last block |
| `Delta.ApplyDiffops` | crates/ferrosync-delta/src/ops.rs:67-84 | The output is the concatenation of what the operations rebuild, regions clipped to the basis |
| `Delta.ClippedLength` | crates/ferrosync-delta/src/matcher.rs:23-29 | The length computed for a block is the length of that block in the basis |
| `Delta.CopyRebuilds` | crates/ferrosync-delta/src/matcher.rs:83-97 | Without strong collisions a copy that names a matching block rebuilds the window it matched, the short last block included |
| `Delta.DescribedIsRebuilt` | crates/ferrosync-delta/src/ops.rs:67-84 | Without strong collisions, operations that describe a stretch of the source rebuild exactly that stretch |
| `Matcher.BuildHashTable` | crates/ferrosync-delta/src/matcher.rs:126-132 | Each bucket lists exactly the blocks with that weak checksum, in ascending order |
| `Matcher.FirstCandidate` | crates/ferrosync-delta/src/matcher.rs:78-107 | The bucket search returns the least block with the window's strong sum and the given weak one, fresh or stale, or says that there is none |
| `Matcher.FirstFrom` | crates/ferrosync-delta/src/matcher.rs:78-107 | The reference for a lookup: the least agreeing block, none below it agreeing |
| `Matcher.Turn` | crates/ferrosync-delta/src/matcher.rs:68-120 | Whatever the rolling state holds, what a turn emits describes exactly the bytes it moves past; while the state covers the window, the match taken is the first |
| `Matcher.MatchBlocks` | crates/ferrosync-delta/src/matcher.rs:35-123 | The loop with its table, rolling state and pending literal refines the plain scan that computes every window afresh |
| `GreedyDelta.ScanDescribes` | crates/ferrosync-delta/src/matcher.rs:68-120 | The scan covers the source from its first unsent byte to the end; no window starting inside a literal matches any block, every copy is of the first matching block |
| `GreedyDelta.DeltaDescribes` | crates/ferrosync-delta/src/matcher.rs:35-123 | Greedy completeness and exact coverage of the batch delta for every source and every signature |
| `GreedyDelta.IdenticalFiles` | crates/ferrosync-delta/src/matcher.rs:35-123 | On a file equal to its basis the literal bytes number exactly the length modulo the block length |
| `Streaming.ReadFill` | crates/ferrosync-delta/src/matcher.rs:375-384 | Under any short reads, the next bytes of the file fill the range or all that is left is read |
| `Streaming.MatchView` | crates/ferrosync-delta/src/matcher.rs:307-358 | The loop over the buffer with table, rolling state and pending literal refines the plain scan, with fresh or stale state; the flag for the next chunk is set exactly when a match left no window |
| `Streaming.StreamingMatcher.constructor` | crates/ferrosync-delta/src/matcher.rs:173-209 | A matcher without blocks for a header that announces none; otherwise a buffer that holds a chunk and a window |
| `Streaming.StreamingMatcher.ShiftWindow` | crates/ferrosync-delta/src/matcher.rs:250-263 | What the shift would lose is sent first, and the scan stands at the same place of the source as before |
| `Streaming.StreamingMatcher.ProcessChunk` | crates/ferrosync-delta/src/matcher.rs:219-371 | Each call reads on, hashes the bytes read once and emits exactly the next of the operations to come; the last emits the rest; too small a chunk ends at once with the first chunk |
| `Streaming.StreamDelta` | crates/ferrosync-engine/src/sender.rs:95-128 | The call loop ends; with adequate chunks the operations are a function of source, signature and chunk size alone, whatever the short reads, and the bytes hashed are the source; otherwise both are the first chunk |
| `StreamScan.StreamDescribes` | crates/ferrosync-delta/src/matcher.rs:219-371 | Those operations describe the whole source, whatever state the rolling sums are in |
| `StreamScan.ViewScan` | crates/ferrosync-delta/src/matcher.rs:250-263 | Scanning the sliding buffer is scanning the source where the buffer lies |
| `StreamBatch.ScanInStep` | crates/ferrosync-delta/src/matcher.rs:307-358 | While the rolling state is in step, the scan of a chunk is the batch scan, and arrives at the boundary right after a copy or one window behind |
| `StreamBatch.EndsInCopy` | crates/ferrosync-delta/src/matcher.rs:68-120 | What the batch matcher has emitted up to a boundary ends in a copy, and the pending literal begins there |
| `StreamCompare.Compare` | crates/ferrosync-delta/src/matcher.rs:219-371 | From a boundary up to which both agreed, the rest agrees if and only if that boundary and all later ones do not show |
| `StreamCompare.StreamIsBatch` | crates/ferrosync-delta/src/matcher.rs:137-144 | Streaming gives the batch matcher's operations if and only if at every multiple of the chunk size a copy ends within the last block before it, or exactly one block before it and the stale digests up to the next match find what the fresh ones find; without blocks, if and only if the source fits in one chunk |
| `StreamCompare.MissedMatch` | crates/ferrosync-delta/src/matcher.rs:350-357 | For all hashes: source 0 1 2 against basis 1 2 in chunks of two is copied by the batch matcher and sent as one literal by the streaming one |
| `SumWire.SumHeadRoundTrip` | crates/ferrosync-delta/src/sum.rs:209-229 | A written header is read back, whatever follows it |
| `SumWire.WriteSums` | crates/ferrosync-delta/src/sum.rs:235-246 | Writes the bytes that the round trip is about |
| `SumWire.ReadSums` | crates/ferrosync-delta/src/sum.rs:330-366 | Fails exactly where the reference parser does: counts and lengths out of range, and streams that end early |
| `SumWire.SumsRoundTrip` | crates/ferrosync-delta/src/sum.rs:330-366 | Signatures come back unchanged unless they exceed the reader's limits, in which case reading fails |
| `SumWire.CutSums` | crates/ferrosync-delta/src/sum.rs:330-366 | What can be read fails with the end of the stream on every proper beginning |
| `Tokens.SendData` | crates/ferrosync-delta/src/token.rs:110-116 | Literal data goes out as length-prefixed pieces that concatenate to it |
| `Tokens.DataPieceReceived` | crates/ferrosync-delta/src/token.rs:137-161 | A sent piece is received as that data |
| `Tokens.BlockMatchReceived` | crates/ferrosync-delta/src/token.rs:119-129 | A sent block index is received as that index, for every index but the one that overflows |
| `Tokens.EofReceived` | crates/ferrosync-delta/src/token.rs:132-134 | A sent end is received as the end |
| `DeltaTransfer.WriteDiffops` | crates/ferrosync-delta/src/token.rs:565-582 | Writes the tokens of all operations in order, or fails on a block index that has no token |
| `DeltaTransfer.IndexOfBlock` | crates/ferrosync-delta/src/ops.rs:24-33 | The index computed from the offset of a block's copy is that block |
| `DeltaTransfer.RecvFileDelta` | crates/ferrosync-engine/src/receiver.rs:103-178 | The loop computes the reference reception, with its errors for blocks out of range and wrong checksums |
| `DeltaTransfer.RecvFileDeltaToWriter` | crates/ferrosync-engine/src/receiver.rs:183-270 | Writing as it goes, it writes the file the buffering form returns, fails alike, and counts its bytes |
| `DeltaTransfer.OpsReceived` | crates/ferrosync-engine/src/receiver.rs:123-158 | The tokens of transportable operations are received as what the operations rebuild, after any received before |
| `DeltaTransfer.ReplyReceived` | crates/ferrosync-engine/src/sender.rs:131-147 | A reply is received as what its operations rebuild if and only if that has the announced checksum |
| `DeltaTransfer.MatchTaken` | crates/ferrosync-engine/src/receiver.rs:128-158 | A block match is taken if and only if the block starts within the basis, and adds the basis from there up to the block length or its end; otherwise it is out of range |
| `DeltaTransfer.CutReply` | crates/ferrosync-engine/src/receiver.rs:103-178 | A reply that is accepted fails with the end of the stream on every proper beginning |
| `FileTransfer.ExchangeSums` | crates/ferrosync-engine/src/wire_transfer.rs:331-339 | The sender works on exactly the signatures the generator computed, or rejects them as out of range |
| `FileTransfer.TransferFile` | crates/ferrosync-engine/src/receiver.rs:103-178 | Signatures, batch matching, tokens and reconstruction together: the source whenever no strong checksums collide; otherwise an accepted file has the source's checksum and the only failure is a mismatch |
| `FileTransfer.TransferStream` | crates/ferrosync-engine/src/sender.rs:95-128 | The same through the streaming matcher for chunks that hold a block; for smaller chunks the accepted result is the first chunk, the source only if it is no longer |
| `FileTransfer.CutShort` | crates/ferrosync-delta/src/matcher.rs:291-294 | Three bytes in chunks of two against blocks of three: the receiver accepts the first two as the file |
| `Network.Undisturbed` | crates/ferrosync-engine/src/wire_transfer.rs:553-818 | On FIFO channels with one writer and one reader each, a process that can move still can after any other has moved |
| `Network.Diamond` | crates/ferrosync-engine/src/wire_transfer.rs:553-818 | Steps of two processes commute |
| `Network.Confluent` | crates/ferrosync-engine/src/wire_transfer.rs:553-818 | If one schedule comes to rest, every partial run can go on to that same rest, in the same number of steps |
| `Network.OneRunDecides` | crates/ferrosync-engine/src/wire_transfer.rs:553-818 | One run to rest shows for all runs: no stuck state before the end, one end, bounded length |
| `Network.Join` | crates/ferrosync-engine/src/wire_transfer.rs:553-818 | Any two runs from one state can be continued to a common state |
| `Network.RestIn` | crates/ferrosync-engine/src/wire_transfer.rs:553-818 | Where a set of states that no step leaves can be entered, the only rest lies in it |
| `Session.NdxMap` | crates/ferrosync-engine/src/wire_transfer.rs:878-884 | The map leads each index to the last entry that has it |
| `Session.NdxMapInverse` | crates/ferrosync-engine/src/wire_transfer.rs:878-884 | Every index leads back to its own entry if and only if no two entries share one |
| `Session.SharedIndicesAnswer` | crates/ferrosync-engine/src/wire_transfer.rs:275-312 | Requests under the indices of the sender's regular files are all answered |
| `SessionRuns.ListRun` | crates/ferrosync-engine/src/wire_transfer.rs:239-254 | A file list of one or two groups is received whole before the generator starts |
| `SessionRuns.StuckRun` | crates/ferrosync-engine/src/wire_transfer.rs:243-256 | Of three groups or more the second is sent and then both sides wait for each other for good |
| `SessionRuns.TransferRun` | crates/ferrosync-engine/src/wire_transfer.rs:356-477 | One file asked for, announced, answered in any number of parts, and taken or rejected by the receiver's check |
| `SessionRuns.RejectionRun` | crates/ferrosync-engine/src/wire_transfer.rs:747-790 | Up to the first reply that is rejected all goes well, and there the receiver's loop ends |
| `SessionRuns.RoundsRun` | crates/ferrosync-engine/src/wire_transfer.rs:889-934 | Every DONE of the phases is answered, after which the sender says goodbye |
| `SessionRuns.PushRun` | crates/ferrosync-protocol/src/wire_format.rs:221-242 | The client sender's goodbye against the server receiver's runs to its end |
| `SessionRuns.PullRun` | crates/ferrosync-protocol/src/wire_format.rs:247-295 | The server sender's statistics and goodbye against the client receiver's run to their end, the markers and totals read as bytes |
| `SessionCleanup.AlignedRun` | crates/ferrosync-engine/src/wire_transfer.rs:901-906 | A pull of two groups closes one round more than is answered and reads an index off the statistics; with aligned bytes it ends all the same |
| `SessionCleanup.MisalignedRun` | crates/ferrosync-engine/src/wire_transfer.rs:901-906 | Otherwise it reaches a state from which the receiver never gets to the end of its goodbye |
| `Statistics.CompactValid` | crates/ferrosync-protocol/src/wire_format.rs:175-208 | Markers and totals of version 30 and later are read as they were written, whatever follows, and partial bytes only ask for more |
| `Statistics.SmallTotals` | crates/ferrosync-protocol/src/varint.rs:190-219 | With totals below 8 MiB the bytes are never aligned for the error-exit exchange |
| `Statistics.LuckyTotals` | crates/ferrosync-protocol/src/varint.rs:229-262 | From 8 MiB up to 1 GiB sent they are, whenever the lowest byte of that total is below 128 |
| `SessionOutcome.SessionCompletes` | crates/ferrosync-engine/src/wire_transfer.rs:239-489 | Every interleaving ends with every file asked for received once and in order and all DONE markers exchanged, if and only if every reply passes the receiver's check, at most one group of the list is left to the sender's loop, and a pull with such a group has aligned statistics |
| `SessionOutcome.ReceivedInOrder` | crates/ferrosync-engine/src/wire_transfer.rs:687-818 | At every moment of every run of every session the receiver's log is a beginning of the right one up to the first rejected reply, all of it once it is past its loop, where it stops exactly if there is such a reply: the k-th response is for its k-th file |
| `SessionOutcome.ExpectedOwn` | crates/ferrosync-engine/src/wire_transfer.rs:275-371 | Whatever is received came under its own index and from the sender's entry of that index |
| `SessionEnds.RejectedRest` | crates/ferrosync-engine/src/wire_transfer.rs:747-790 | After a rejected reply generator and sender go on, unheard, to the end of the list; the generator returns and the sender fails on the closed stream |
| `SessionEnds.MisalignedRest` | crates/ferrosync-engine/src/wire_transfer.rs:901-934 | A pull whose statistics are out of line comes to rest in its goodbye, with all files received |
| `SessionEnds.SessionSettles` | crates/ferrosync-engine/src/wire_transfer.rs:239-489 | Every session comes to rest in every interleaving, in one state after one number of steps: stuck in the file list, given up on the first rejected reply, complete, or lost in the goodbye, and exactly when which |
| `SessionFiles.SentWhole` | crates/ferrosync-engine/src/wire_transfer.rs:386-440 | The whole source is sent if and only if it is below the streaming threshold, the chunk holds a block, or the source fits in a chunk |
| `SessionFiles.AnswerDelivered` | crates/ferrosync-engine/src/wire_transfer.rs:380-470 | The bytes of an answer to the bytes of a request, by the batch or the streaming matcher, rebuild what is sent of the source on the terms of a single transfer |
| `SessionFiles.CollisionFreeAccepted` | crates/ferrosync-engine/src/receiver.rs:161-175 | Without strong collisions between what is sent of a file and its basis the receiver's check accepts the reply |
| `SessionFiles.SessionDelivers` | crates/ferrosync-engine/src/wire_transfer.rs:532-867 | At every moment of every session, each file received so far was accepted and is what is sent of the sender's file of the same index |
| `ListedSession.ListServes` | crates/ferrosync-engine/src/wire_transfer.rs:275-300 | Over a list exchanged by the two sides' own numberings, no two entries share an index and every request for a regular file is answered |
| `ListedSession.EveryEntryDelivered` | crates/ferrosync-engine/src/wire_transfer.rs:532-867 | From the file list to the files: in every interleaving each file received is what is sent of the sender's source for the receiver's own entry |
| `ListedSession.ListCompletes` | crates/ferrosync-engine/src/session.rs:1045-1092 | Without strong collisions such a session completes if and only if the list came in one piece, or in two and it is a push or the statistics are aligned; for an incremental list that is no directory to descend into, or one |
| `ListedSession.TwoDirectoriesStop` | crates/ferrosync-codec/src/exchange.rs:349-371 | A list of two directories: the session stops before the first request |
| `Handshake.VStringRoundTrip` | crates/ferrosync-protocol/src/handshake.rs:133-163 | Every string short enough to be written is read back, whatever follows it |
| `Handshake.NegotiateFrom` | crates/ferrosync-protocol/src/handshake.rs:182-197 | The first name of the sender's list that is known and listed by the receiver, or proof that there is none |
| `Handshake.HasBit` | crates/ferrosync-protocol/src/handshake.rs:422-450 | A flag bit is set exactly when its capability character was sent |
| `Handshake.BuildCompatFlags` | crates/ferrosync-protocol/src/handshake.rs:422-450 | The loop over the characters sets each flag once, repeated characters and unknown ones included |
| `Handshake.HandshakeAgrees` | crates/ferrosync-protocol/src/handshake.rs:210-415 | In every interleaving both sides end with the same protocol or both fail, and neither waits for a message that is not sent |
| `Handshake.AgreedProtocol` | crates/ferrosync-protocol/src/handshake.rs:210-319 | What is agreed: the older version; a flag for each capability; the first known name in the sender's list that the receiver lists too, the client's list being its user's choice if there is one; without negotiation the defaults of the version |
| `Handshake.SenderDecides` | crates/ferrosync-protocol/src/handshake.rs:270-298 | Whichever side sends, its list goes first |
| `Handshake.ChecksumNames` | crates/ferrosync-types/src/protocol.rs:79-89 | Each checksum has one name, and no other text names one |
| `Handshake.CompressionNames` | crates/ferrosync-types/src/protocol.rs:132-141 | Each compression has one name, and no other text names one |
| `Handshake.NoChoice` | crates/ferrosync-protocol/src/handshake.rs:182-197 | No algorithm is chosen if and only if no known name is in both lists, whoever is the sender |
| `Handshake.FailsExactly` | crates/ferrosync-protocol/src/handshake.rs:327-415 | The handshake fails exactly for a version below the minimum, a list too long to send, or lists without a common known name |
| `Varint.VarintRoundTrip` | crates/ferrosync-protocol/src/varint.rs:107-180 | Every 32-bit integer is read back from its one to five bytes, whatever follows |
| `Varint.NdxRoundTrip` | crates/ferrosync-protocol/src/varint.rs:345-456 | An index is read back and both sides' states move alike |
| `Varint.NdxsRoundTrip` | crates/ferrosync-protocol/src/varint.rs:345-456 | Over any stream of indices, reader and writer that start alike stay in step |
| `WireBytes.IntBytes` | crates/ferrosync-protocol/src/varint.rs:64-66 | Integers of four bytes, the lowest first, in two's complement |
| `WireBytes.VarintBytes` | crates/ferrosync-protocol/src/varint.rs:145-180 | The bytes of variable-length integers, one for each length |
| `WireBytes.LongVarintRefused` | crates/ferrosync-protocol/src/varint.rs:107-141 | An integer of more than four further bytes is refused |
| `WireBytes.NdxBytes` | crates/ferrosync-protocol/src/varint.rs:406-456 | The bytes of file indices: markers, differences and whole indices |
| `WireBytes.FrameBytes` | crates/ferrosync-protocol/src/multiplex.rs:323-342 | A data frame: three bytes of length, the lowest first, then seven, then the payload |
| `WireBytes.FrameSizes` | crates/ferrosync-protocol/src/multiplex.rs:344-352 | Data go out in frames of 32 KiB |
| `WireBytes.SumHeadBytes` | crates/ferrosync-delta/src/sum.rs:209-215 | The four integers of the header of signatures, in order |
| `WireBytes.ReplyHeadBytes` | crates/ferrosync-engine/src/wire_transfer.rs:356-371 | The header of a reply: all zeros without blocks, otherwise as received |
| `WireBytes.SumEntryBytes` | crates/ferrosync-delta/src/sum.rs:235-246 | A block's weak sum, the lowest byte first, then its strong sum |
| `WireBytes.TokenBytes` | crates/ferrosync-delta/src/token.rs:110-134 | The bytes of plain tokens |
| `WireBytes.UnitBytes` | crates/ferrosync-delta/src/token.rs:237-318 | The bytes of compressed frames, runs in both forms and the end |
| `WireBytes.TotalsBytes` | crates/ferrosync-protocol/src/wire_format.rs:175-208 | The bytes and the order of the closing totals |
| `WireBytes.VStringBytes` | crates/ferrosync-protocol/src/handshake.rs:148-163 | The bytes of the handshake's strings, short and long |
| `WireBytes.GroupMarkers` | crates/ferrosync-codec/src/incremental.rs:27-28 | The markers of a directory's list and of the end of all lists |
| `WireBytes.AceBytes` | crates/ferrosync-codec/src/acl.rs:196-270 | The bytes of named entries of access control lists |
| `WireBytes.AclBytes` | crates/ferrosync-codec/src/acl.rs:196-270 | The bytes of access control lists |
| `WireBytes.XattrBytes` | crates/ferrosync-codec/src/xattr.rs:70-106 | The bytes of attributes, in full and by place |
| `SortOrder.Walker.constructor` | crates/ferrosync-codec/src/sort.rs:61-105 | The walk begins with the whole key ahead |
| `SortOrder.Walker.CurrentChar` | crates/ferrosync-codec/src/sort.rs:109-147 | Shows the first character ahead and moves none, over all the states it passes through |
| `SortOrder.Walker.Advance` | crates/ferrosync-codec/src/sort.rs:150-184 | Passes exactly one character of the key |
| `SortOrder.FNameCmp` | crates/ferrosync-codec/src/sort.rs:24-254 | The two walkers in lockstep compute the lexicographic order of the two keys |
| `CanonicalOrder.ByLevel` | crates/ferrosync-codec/src/sort.rs:24-254 | That order compares paths level by level: files before directories, names by their bytes, directory names closed by a slash |
| `CanonicalOrder.TotalPreorder` | crates/ferrosync-codec/src/sort.rs:24-254 | The comparison is total and transitive, flips with its arguments, and ties exactly on equal keys |
| `CanonicalOrder.KeyInjective` | crates/ferrosync-codec/src/sort.rs:24-254 | Entries with proper names tie only if they have the same name and are both directories or both not |
| `CanonicalOrder.DirectoryFirst` | crates/ferrosync-codec/src/sort.rs:24-254 | In a sorted list a directory precedes everything below it |
| `CanonicalOrder.SubtreeContiguous` | crates/ferrosync-codec/src/sort.rs:24-254 | In a sorted list every subtree is contiguous |
| `SiblingOrder.FilesByBytes` | crates/ferrosync-codec/src/sort.rs:24-254 | Two files of one directory: the one whose name ends or has the smaller byte at the first difference comes first |
| `SiblingOrder.DirectoriesByBytes` | crates/ferrosync-codec/src/sort.rs:24-254 | Two directories of one directory: the same, with a slash after their names |
| `SiblingOrder.FilesFirst` | crates/ferrosync-codec/src/sort.rs:24-254 | A file comes before every directory beside it and before all that is in them |
| `SiblingOrder.RootFirst` | crates/ferrosync-codec/src/sort.rs:24-254 | The directory "." comes before everything else |
| `Sorting.OrderedStays` | crates/ferrosync-codec/src/sort.rs:13-15 | A stable sort leaves what is in order as it is |
| `Sorting.SortOrders` | crates/ferrosync-codec/src/sort.rs:13-15 | The sort gives an ordered permutation |
| `FileListWire.CanonicalSort` | crates/ferrosync-codec/src/sort.rs:13-15 | Sorting with the walkers is the stable sort by the canonical order |
| `FileListWire.CanonicalSortSorts` | crates/ferrosync-codec/src/sort.rs:13-15 | The result of the canonical sort is sorted and a permutation |
| `DirectoryTree.FromSortedEntries` | crates/ferrosync-codec/src/incremental.rs:344-415 | On every list the traversal ends; groups follow the breadth-first order of descended directories, each holding all entries directly under its directory, and each directory was numbered before it was visited |
| `DirectoryTree.ChildrenLighter` | crates/ferrosync-codec/src/incremental.rs:386-412 | The measure by which the queue runs dry, duplicate and cyclic names included |
| `TraversalOrder.DepthGrows` | crates/ferrosync-codec/src/incremental.rs:386-412 | Along the order in which directories are descended into, depth never falls |
| `TraversalOrder.AllMet` | crates/ferrosync-codec/src/incremental.rs:333-336 | The reference: a depth-first traversal of a list with sole parents meets every directory |
| `TraversalOrder.DepthFirstExactly` | crates/ferrosync-codec/src/incremental.rs:333-336 | Groups follow the depth-first order, as documented, if and only if of the directories at any one depth only the last in the list has directories below it |
| `SortedTraversal.ListIsDepthFirst` | crates/ferrosync-codec/src/incremental.rs:338-344 | In a sorted list the depth-first order of directories is the order of the list |
| `SortedTraversal.InListOrder` | crates/ferrosync-codec/src/incremental.rs:333-336 | Groups of a sorted list follow the list, and so depth first, if and only if no directory of the list is less deep than one before it |
| `SortedTraversal.DescendsLate` | crates/ferrosync-codec/src/incremental.rs:386-412 | The sorted list of directories a, a/b and c: c is descended into before a/b, depth first the other way round |
| `DirectoryGroups.CountHolding` | crates/ferrosync-codec/src/incremental.rs:344-415 | How often an entry is held: once for the root and once per visit to a directory of its parent's name |
| `DirectoryGroups.Partition` | crates/ferrosync-codec/src/incremental.rs:344-415 | Every entry is in exactly one group if and only if every entry below the root has exactly one parent directory, not called "." |
| `DirectoryGroups.UnderDotLost` | crates/ferrosync-codec/src/incremental.rs:374-384 | What lies directly under "." is held by no group |
| `DirectoryGroups.DotFileLost` | crates/ferrosync-codec/src/incremental.rs:374-384 | The directory "." and a file "./x": the file is never sent |
| `DirectoryGroups.GroupNumbers` | crates/ferrosync-codec/src/incremental.rs:386-412 | Each later group bears the place of its directory among all directories sent in earlier groups, and the numbers strictly increase |
| `FileIndex.SentOnce` | crates/ferrosync-codec/src/exchange.rs:150-159 | With sole parents, the groups one after another are a permutation of the list |
| `FileIndex.OneGroupEach` | crates/ferrosync-codec/src/incremental.rs:344-415 | With sole parents there is one group for the root and one for every directory other than "." |
| `FileIndex.OncePerDirectory` | crates/ferrosync-codec/src/incremental.rs:386-412 | With sole parents every directory other than "." is descended into exactly once, and nothing else is |
| `FileIndex.PlacesAscend` | crates/ferrosync-codec/src/exchange.rs:150-159 | The indices given group by group strictly ascend; a group starts at one plus the entries and the groups before it |
| `FileIndex.PlaceExactly` | crates/ferrosync-codec/src/exchange.rs:150-159 | The index of every member of every group: one plus the entries and the groups sent before it |
| `FileIndex.AssignNdx` | crates/ferrosync-codec/src/exchange.rs:150-159 | The sender's eager numbering gives every entry the index of its place in the stream |
| `FileListWire.IncrementalSender.EncodeSubFlist` | crates/ferrosync-codec/src/incremental.rs:265-298 | A list goes out entry by entry under consecutive indices from the sender's counter, which then skips one |
| `FileListWire.PendingSubFlists.SendPending` | crates/ferrosync-codec/src/incremental.rs:503-550 | What is sent stays a beginning of the whole stream; the end marker goes out exactly with the last group and nothing follows it |
| `FileListWire.SendInstalments` | crates/ferrosync-codec/src/incremental.rs:503-550 | After any calls the stream is a prefix of the all-at-once stream, and all of it if and only if enough was asked for |
| `FileListWire.TimelyNumberable` | crates/ferrosync-codec/src/incremental.rs:386-412 | Group numbers after the root's are not negative, so no list marker collides with the end marker |
| `FileListWire.SendFileListIncremental` | crates/ferrosync-codec/src/exchange.rs:134-200 | Groups the list, numbers it and leaves the rest of the stream pending; a list without directories is sent whole |
| `FileListReceipt.IncrementalReceiver.RecvSubFlist` | crates/ferrosync-codec/src/incremental.rs:103-147 | One list off the stream; the counter moves past it and one more |
| `FileListReceipt.SortAndAssign` | crates/ferrosync-codec/src/exchange.rs:322-333 | A received list is sorted on its own and numbered from its start |
| `FileListReceipt.RecvFileListIncremental` | crates/ferrosync-codec/src/exchange.rs:304-374 | The loop computes the reference reading of the stream, with its failures on bad markers and early ends |
| `FileListReceipt.GroupSorted` | crates/ferrosync-codec/src/exchange.rs:322-333 | A group of a sorted list is sorted, so the receiver's sort does not move it |
| `FileListReceipt.WholeStreamRead` | crates/ferrosync-codec/src/exchange.rs:304-374 | The sender's whole stream is received as all groups' entries at their places |
| `FileListReceipt.StreamEncoded` | crates/ferrosync-codec/src/incremental.rs:265-298 | The entries of the stream are the groups' entries in order, each encoded under the index of its place |
| `FileListReceipt.IndicesAgree` | crates/ferrosync-codec/src/exchange.rs:150-159 | The sender's eager numbering, the indices used while encoding and the receiver's numbering after its own sorts agree entry by entry, and every entry arrives once |
| `FileListReceipt.IndicesDistinct` | crates/ferrosync-engine/src/wire_transfer.rs:878-884 | Different entries have different indices |
| `FileListReceipt.ExchangeFileList` | crates/ferrosync-codec/src/exchange.rs:134-200 | A sorted list with sole parents, sent any number of groups at a time and received: the same entries under the same indices, ascending from one, those of the stream, in one list more than there are directories |
| `FileListCut.OtherMarkersRefused` | crates/ferrosync-codec/src/exchange.rs:346-371 | Between lists only the marker of a directory or the end marker is taken, -2 and numbers from -101 down |
| `FileListCut.CutStream` | crates/ferrosync-codec/src/exchange.rs:346-371 | What the sender of a sorted list sends is not received from any proper beginning of it |
| `BatchList.SendFileListBatch` | crates/ferrosync-codec/src/exchange.rs:87-122 | The entries in the order given, each under its place from zero, then the end |
| `BatchList.RecvFileListBatch` | crates/ferrosync-codec/src/exchange.rs:230-292 | The entries up to the end in canonical order, numbered from zero; fails where the stream ends early |
| `BatchList.ExchangeBatch` | crates/ferrosync-codec/src/exchange.rs:64-84 | The receiver has the same entries in canonical order in one list; both numberings and the indices used while encoding agree on every entry if and only if the list sent was sorted |
| `Frames.ParseExtended` | crates/ferrosync-protocol/src/multiplex.rs:852-891 | Parsing may stop and go on anywhere: more bytes only continue what was left over |
| `Frames.WriteMessage` | crates/ferrosync-protocol/src/multiplex.rs:323-341 | For every payload: appends a frame whose length field holds the low 32 bits of the payload's length, or fails where those exceed three bytes |
| `Frames.WriteData` | crates/ferrosync-protocol/src/multiplex.rs:344-354 | Appends data frames, no empty one, that concatenate to the data |
| `Frames.WrittenParsed` | crates/ferrosync-protocol/src/multiplex.rs:852-891 | Everything a writer framed parses back to the data written, nothing left over |
| `Frames.NoEmptyFrames` | crates/ferrosync-protocol/src/multiplex.rs:344-354 | A writer never produces an empty data frame, which readers take for the end |
| `Multiplex.NothingLost` | crates/ferrosync-protocol/src/multiplex.rs:690-891 | Over every run of polls, flushes, parses, splits and joins of the plain line: what was handed out, what is buffered and what has not arrived are together all the data |
| `Multiplex.AllComes` | crates/ferrosync-protocol/src/multiplex.rs:690-750 | Every run with enough polls of any room, answered by non-empty reads of any size, hands out all the data there is, whatever else happens between those polls |
| `Multiplex.AllWritten` | crates/ferrosync-protocol/src/multiplex.rs:323-354 | With a writer as producer, for every run and every cut of the bytes, handed out and still to come are the data written, in order |
| `Multiplex.EndIsEnd` | crates/ferrosync-protocol/src/multiplex.rs:703-735 | After any run over what a writer framed, a poll shows the end exactly when nothing is left to come |
| `Multiplex.ReadSide.ParseFrames` | crates/ferrosync-protocol/src/multiplex.rs:852-891 | Moves whole frames out of staging; the line of chunks stays the same |
| `Multiplex.ReadSide.ServeChunk` | crates/ferrosync-protocol/src/multiplex.rs:754-767 | Hands out what fits and keeps exactly the rest in front |
| `Multiplex.ReadSide.PollRead` | crates/ferrosync-protocol/src/multiplex.rs:690-750 | For any buffers, room and answer of the transport: fails exactly if there is room, nothing to serve and the transport is broken; waits exactly if there is room, nothing to serve and the transport is not ready or completes no data frame; otherwise hands out as much of the next data as there is room for; and does to the buffers what the plain line does |
| `Multiplex.ReadSide.Receive` | crates/ferrosync-protocol/src/multiplex.rs:621-651 | Bytes that arrive while flushing join the same line |
| `Multiplex.SplitOrJoin` | crates/ferrosync-protocol/src/multiplex.rs:592-667 | Splitting and rejoining a connection moves the transport and all buffered data |
| `Multiplex.AnyRun` | crates/ferrosync-protocol/src/multiplex.rs:592-891 | Any run of operations hands out exactly what the plain line hands out, leaves its state, and loses nothing |
| `Multiplex.ReadWritten` | crates/ferrosync-protocol/src/multiplex.rs:323-354 | From a writer through any run of a fresh reader: handed out and still to come are all that was written |
| `CompressedTokens.UnitRead` | crates/ferrosync-delta/src/token.rs:356-442 | Every unit of the compressed stream is read back, whatever follows |
| `CompressedWriter.CompressedTokenWriter.FlushRun` | crates/ferrosync-delta/src/token.rs:237-260 | The run goes out as one unit that fits its fields, and a reader's last match is then the writer's |
| `CompressedWriter.CompressedTokenWriter.CompressAndSend` | crates/ferrosync-delta/src/token.rs:263-318 | Whatever the codec, the bytes mean exactly what the data, cut into chunks, stripped and cut into frames, decompress to |
| `CompressedWriter.CompressedTokenWriter.SendToken` | crates/ferrosync-delta/src/token.rs:196-234 | What the bytes mean and the run held back are together the meaning of all that was sent, and the codec has seen just that |
| `CompressedWriter.CompressedTokenWriter.WriteData` | crates/ferrosync-delta/src/token.rs:524-537 | Data wait for the next token; data that waited already go out without a flush |
| `CompressedWriter.CompressedTokenWriter.WriteBlockMatch` | crates/ferrosync-delta/src/token.rs:538-545 | The data that waited go out with a flush, then the match |
| `CompressedWriter.CompressedTokenWriter.WriteEof` | crates/ferrosync-delta/src/token.rs:546-549 | Nothing is held back: what was written since the last end is a whole file that means all that was sent, whatever follows, and the writer is as new |
| `CompressedReader.CompressedTokenReader.RecvToken` | crates/ferrosync-delta/src/token.rs:356-442 | On a stream that holds a file the token is the next part of what the file means, the end comes exactly where the file ends, and the only failure is a frame the codec refuses; in a run, and on entering one with any count in either form, exactly which match it gives and where it stands |
| `CompressedReader.ReadFile` | crates/ferrosync-delta/src/token.rs:356-442 | All tokens of a file spell out what it means and leave what follows it, or reading fails at the first refused frame |
| `CompressedReader.WriteFile` | crates/ferrosync-delta/src/token.rs:523-550 | The tokens of a file are written as a file that means what was handed to the codec |
| `CompressedReader.RoundTrip` | crates/ferrosync-delta/src/token.rs:523-556 | A file written and read back by a writer and a reader with any files behind them and any bytes after it: under any codec the meaning of what was handed to the codec, or failure exactly if a frame is refused; both are then ready for the next file |
| `CompressedReader.FollowRun` | crates/ferrosync-delta/src/token.rs:364-371 | For any reader, any counted match in either form and any number of further calls: one block after the other and nothing read, and the run is left if and only if the count is positive and that many calls were made |
| `Codecs.PlainTokens` | crates/ferrosync-delta/src/token.rs:523-550 | All that a file says is handed to the codec, in order, whatever is held back, chunked or flushed |
| `Codecs.StreamLossless` | crates/ferrosync-protocol/src/compress.rs:222-258 | Through a codec that decodes one stream every file comes back as it was |
| `Codecs.BlocksLossless` | crates/ferrosync-protocol/src/compress.rs:262-286 | Through a codec that decodes each frame as one block, a file comes back as it was if every chunk of its literals compresses to one frame, and reading fails if and only if one does not |
| `FlushTrailer.StrippedExactly` | crates/ferrosync-delta/src/token.rs:196-234 | Every chunk of a file is flushed if and only if its literals fit in a chunk and do not follow each other |
| `FlushTrailer.TrailerExactly` | crates/ferrosync-delta/src/token.rs:84-102 | With the flush trailer the decompressor is given what the compressor produced, and the file comes back, if the literals fit in a chunk, do not follow each other and compress to a frame and a trailer at most; otherwise it is given more bytes than were produced |
| `CodecInstances.StoredStreams` | crates/ferrosync-protocol/src/compress.rs:164-258 | Some codec is a stream |
| `CodecInstances.EscapedBlocks` | crates/ferrosync-protocol/src/compress.rs:262-286 | Some codec decodes whole blocks and refuses cut ones |
| `CodecInstances.FlushedStreams` | crates/ferrosync-protocol/src/compress.rs:47-154 | Some codec ends every output in the flush trailer |
| `CompressedTransfer.RecvFileDeltaCompressed` | crates/ferrosync-engine/src/receiver.rs:103-178 | On any stream the loop ends; on one that holds a file it gives what the steps of the file rebuild, checked against the checksum after it, or the error of the first bad block or refused frame |
| `CompressedTransfer.SendCompressed` | crates/ferrosync-engine/src/sender.rs:131-147 | The bytes hold the file of the operations' tokens, followed by the checksum |
| `CompressedTransfer.BuildAll` | crates/ferrosync-engine/src/receiver.rs:123-158 | Tokens that come through as they are rebuild what the operations rebuild |
| `CompressedTransfer.TransferCompressed` | crates/ferrosync-engine/src/pipeline.rs:115-204 | Through any codec: decoding fails exactly if a frame of the delta is refused, an accepted file has the checksum of the source, and if the codec gives the delta back the result is the source whenever no strong checksums collide |
| `CompressedTransfer.TransferStreamCompressed` | crates/ferrosync-engine/src/wire_transfer.rs:376-440 | The same for the streaming matcher, with the exact part of the source that is sent |
| `CompressedTransfer.TransferThroughStream` | crates/ferrosync-engine/src/pipeline.rs:115-204 | Through a stream compressor the guarantee is that of the plain transfer |
| `CompressedTransfer.TransferThroughBlocks` | crates/ferrosync-engine/src/pipeline.rs:115-204 | Through a block compressor too, except that decoding fails if and only if a chunk of the delta does not fit in a frame |
| `Dedup.EncodeList` | crates/ferrosync-codec/src/xattr.rs:91-103 | The loop writes the count and then every value |
| `Dedup.DecodeList` | crates/ferrosync-codec/src/xattr.rs:134-149 | The loop reads that many values or fails where the bytes end |
| `Dedup.ListRead` | crates/ferrosync-codec/src/xattr.rs:134-149 | A written list is read back, each value in its normal form |
| `Dedup.OneDecoded` | crates/ferrosync-codec/src/xattr.rs:109-159 | A value sent in full or as its place in the list comes out in normal form, and the two lists stay in step |
| `Exchange.AllRead` | crates/ferrosync-codec/src/incremental.rs:110-147 | If every file of a list comes through on its own, all come through one after the other and the two states stay in step |
| `Acl.EncodeOneAcl` | crates/ferrosync-codec/src/acl.rs:196-267 | Writes the bytes that the reading lemma is about, or the place of a list seen before, and keeps the list |
| `Acl.DecodeOneAcl` | crates/ferrosync-codec/src/acl.rs:270-357 | Computes the reference reading, with its failures on places out of range and early ends |
| `Acl.AclRead` | crates/ferrosync-codec/src/acl.rs:270-357 | Every combination of optional and named entries is read back in normal form |
| `Acl.NormExact` | crates/ferrosync-codec/src/acl.rs:248-257 | Nothing is lost if and only if every named entry's access fits in 30 bits |
| `Acl.AccessLost` | crates/ferrosync-codec/src/acl.rs:248-257 | An access value of 2^30 comes back as zero |
| `AclExchange.AclEncoder.EncodeAcl` | crates/ferrosync-codec/src/acl.rs:367-389 | Access list always, default list only for directories, each against its own list of lists seen |
| `AclExchange.AclDecoder.DecodeAcl` | crates/ferrosync-codec/src/acl.rs:394-419 | The reference reading of one file's lists |
| `AclExchange.AclsExchanged` | crates/ferrosync-codec/src/acl.rs:367-419 | For any sequence of files from fresh lists, every file gets its own lists back in normal form and the decoder's lists follow the encoder's |
| `AclExchange.NormalExact` | crates/ferrosync-codec/src/acl.rs:394-419 | A file's lists come back unchanged if and only if they were in normal form |
| `Xattr.XattrEncoder.EncodeXattrs` | crates/ferrosync-codec/src/xattr.rs:70-106 | A set seen before goes out as its place, a new one in full and into the list |
| `Xattr.XattrDecoder.DecodeXattrs` | crates/ferrosync-codec/src/xattr.rs:109-159 | The set read as it is, no entry for an empty one, with failures on places out of range and early ends |
| `Xattr.XattrsExchanged` | crates/ferrosync-codec/src/xattr.rs:70-159 | For any sequence of files from fresh lists, the k-th file gets exactly its own attributes back, none for an empty set, and the lists are equal |
| `SubLists.OneRestarted` | crates/ferrosync-codec/src/incremental.rs:113-115 | A value after the decoder was started afresh: a new one comes through, a place beyond the fresh list is an error, any other names the value that stands further on by the number of values before |
| `SubLists.ReadExactly` | crates/ferrosync-codec/src/incremental.rs:102-145 | All entries of a sub-list get their own if and only if each does when its turn comes |
| `SubLists.XattrsRestarted` | crates/ferrosync-codec/src/incremental.rs:113-115 | With sets encoded before, every file of a sub-list gets its own attributes if and only if the sets of the sub-list are all new and all different |
| `SubLists.SecondWithoutFails` | crates/ferrosync-codec/src/incremental.rs:113-115 | A file without attributes in each of two sub-lists: the second cannot be read |
| `SubLists.AclsRestarted` | crates/ferrosync-codec/src/incremental.rs:113-115 | The exact condition for access control lists, those included of which bits are lost |
| `SubLists.KeptAclsRestarted` | crates/ferrosync-codec/src/incremental.rs:113-115 | For lists of which nothing is lost: of each kind nothing was encoded before, or the lists are all new and all different |
| `Lcs.Longest` | crates/ferrosync-engine/src/file_decision.rs:373-390 | The table's last entry is the greatest length of any common subsequence, and one of that length exists |
| `Lcs.TableFacts` | crates/ferrosync-engine/src/file_decision.rs:373-390 | The same both ways, at most the shorter length, all of both only for equal names |
| `Lcs.LongestCommonSubsequenceLen` | crates/ferrosync-engine/src/file_decision.rs:373-390 | Two swapped and cleared rows compute the last entry of the whole table |
| `Lcs.FuzzyScore` | crates/ferrosync-engine/src/file_decision.rs:363-371 | The share of the longest common subsequence in the longer name; between 0 and 1, and 1 exactly for equal names that are not empty |
| `Glob.MatchRecursive` | crates/ferrosync-filter/src/pattern.rs:185-240 | The backtracking ends, and accepts exactly the texts that split into pieces, one for each segment |
| `Glob.MembersListed` | crates/ferrosync-filter/src/pattern.rs:120-153 | A byte is collected from a class if and only if the class lists it, singly or in a range |
| `Glob.ParseCharClass` | crates/ferrosync-filter/src/pattern.rs:120-153 | The class is negated if and only if "!" or "^" follows its bracket, has exactly the bytes listed after that, and ends at a closing bracket; without one it fails |
| `Glob.OpenRange` | crates/ferrosync-filter/src/pattern.rs:129-149 | The class `[a-]` is not closed, because the bracket ends a range |
| `Glob.BracketInRange` | crates/ferrosync-filter/src/pattern.rs:129-149 | The class `[A-]]` lists everything from A to the first bracket |
| `Glob.Compile` | crates/ferrosync-filter/src/pattern.rs:78-118 | The loop computes the reference compilation, literals merged and double stars collapsed |
| `Glob.CompiledSame` | crates/ferrosync-filter/src/pattern.rs:78-118 | Compilation fails exactly where the pattern makes no sense, and otherwise accepts the texts that the pattern describes element by element |
| `Glob.NewPattern` | crates/ferrosync-filter/src/pattern.rs:37-76 | A pattern compiles if and only if its body makes sense, and then stands for what the body describes |
| `Glob.Matches` | crates/ferrosync-filter/src/pattern.rs:159-179 | A path matches exactly when the pattern describes it or, if not anchored, its last component; directory patterns match directories only |
| `GlobLaws.PlainSays` | crates/ferrosync-filter/src/pattern.rs:107-113 | A byte other than "*", "?" and "[" stands for itself |
| `GlobLaws.QuestionSays` | crates/ferrosync-filter/src/pattern.rs:97-100 | "?" stands for one byte that is not a slash |
| `GlobLaws.StarSays` | crates/ferrosync-filter/src/pattern.rs:84-96 | A single "*" stands for any bytes without a slash |
| `GlobLaws.DoubleStarSays` | crates/ferrosync-filter/src/pattern.rs:84-96 | "**" stands for any bytes, and a slash after it belongs to it |
| `GlobLaws.NegationSays` | crates/ferrosync-filter/src/pattern.rs:120-128 | With any class that closes, the class negated by "!" or "^" takes exactly the bytes that the plain one does not |
| `GlobLaws.ListSays` | crates/ferrosync-filter/src/pattern.rs:120-153 | Plain bytes in brackets stand for one of them, negated for one that is none of them |
| `GlobLaws.RangeSays` | crates/ferrosync-filter/src/pattern.rs:129-149 | A range in brackets stands for one byte of the range |
| `GlobLaws.UnclosedFails` | crates/ferrosync-filter/src/pattern.rs:144-149 | A class without a closing bracket makes the pattern invalid |
| `GlobLaws.NotA` | crates/ferrosync-filter/src/pattern.rs:120-128 | The pattern `[!a]` stands for every single byte but "a" |
| `GlobLaws.SlashesSay` | crates/ferrosync-filter/src/pattern.rs:43-66 | A leading slash anchors, a trailing one restricts to directories, one in between anchors |
| `GlobLaws.DescribesBody` | crates/ferrosync-filter/src/pattern.rs:43-66 | With or without slashes at its ends a pattern describes what its body does |
| `DeleteBudget.NeverExceeded` | crates/ferrosync-engine/src/delete.rs:35-54 | In every interleaving of any number of threads, spurious failures included, grants never exceed a limit, and a refusal means that exactly the limit has been granted |
| `DeleteBudget.KeptNext` | crates/ferrosync-engine/src/delete.rs:35-54 | Every step keeps grants plus remainder equal to the limit; an exchange lost for a reason was lost to a grant |
| `DeleteBudget.Granted` | crates/ferrosync-engine/src/delete.rs:35-54 | A call that no rival disturbs is granted while there is budget, at once if unlimited, otherwise spending one |
| `DeleteBudget.Refused` | crates/ferrosync-engine/src/delete.rs:35-54 | Without budget it is refused at once |
| `PruneTree.PruneEmptyDirs` | crates/ferrosync-engine/src/delete.rs:214-254 | Removes exactly the directories below the root with no file below them, keeps all else, and returns their number; a dry run changes nothing and counts the empty ones |
| `PruneTree.DryRunCount` | crates/ferrosync-engine/src/delete.rs:238-251 | A dry run's count is the number removed if and only if no directory to be removed holds another; otherwise it is smaller |
| `PruneTree.DryRunDiffers` | crates/ferrosync-engine/src/delete.rs:238-251 | A nested empty directory on which the two counts differ |

## Left out

- Hash functions, deflate, zstd and lz4: function values with laws; none of the libraries is modelled.
- Content-defined chunking (`compute_signatures_cdc` and its wire format).
- The block length and checksum length heuristics: any positive block length and any checksum length up to the digest's.
- Signatures.ComputeSignatures: requires the checksum length to fit the digest, where the source would slice out of range and panic.
- FileTransfer.TransferFile: requires fewer than 2^31 blocks, beyond which the source's 32-bit header count wraps.
- SessionOutcome.SessionCompletes: no append, no dry run, no compression; a request or response is a head that announces its parts, where the wire's own formats delimit them, and only the closing markers and statistics are read as bytes.
- Handshake.HandshakeAgrees: a message is one encoded item and is visible once written, without modelling flushes; splitting at white space is a parameter and lossy UTF-8 decoding is not modelled; the versions are parameters.
- DeltaTransfer.WriteDiffops: the plain form; the compressed form is CompressedTransfer.SendCompressed.
- CompressedReader.CompressedTokenReader.RecvToken: indices are unbounded, where the program's 32-bit ones would overflow at the end of a run without end; streams that are malformed in other ways are not described.
- Codecs.BlocksLossless: under the law that a cut block is refused, which is not shown of lz4 itself.
- FlushTrailer.TrailerExactly: what inflation makes of a stream with extra trailers is not modelled, only that it is not the stream that was produced.
- FileListReceipt.ExchangeFileList: entries are items of the stream; the delta coding of their fields, the shared string state and the id lists are not modelled.
- AclExchange.AclsExchanged: the binary form of the system's lists is not modelled.
- Lcs.FuzzyScore: exact quotients where the program rounds to a 64-bit float.
- PruneTree.PruneEmptyDirs: a tree that changes only by the pruning, without file-system errors.
- `longint` integers, the values read from `varlong` integers, iflags, itemized output, filters' rule lists, chmod: finite or shallow.
- Deletion of extraneous entries, partial files, sparse and in-place writing, the daemon, transports, the command line and the language bindings.
