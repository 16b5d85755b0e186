# A Dafny model of minecpp

minecpp is a Minecraft 1.8 server. This project models its storage, codecs, networking and game state in Dafny, and proves what they are for.

- **Work-stealing pool** (`ThreadPool`, `PoolProofs`, `PoolShutdown`, `PoolEffects`, `PoolRings`): submits, owner pops, trylock steals, job runs and shutdown as interleaved atomic steps.
- **Region files** (`Region`, `RegionProofs`, `RegionFormat`, `RegionFile`): the sector allocator refines a map from chunk coordinates to payloads, in memory and in the bytes of the file.
- **NBT** (`Nbt`, `NbtRoundTrip`, `NbtAccounting`, `NbtFailures`, `NbtRetag`, `NbtEqual`, `NbtIo`, `NbtNodes`): parser, writer, budget, failures, equality, clone and detach.
- **Channels** (`Framing`, `FrameGrammar`, `Delivery`, `Channel`, `Inbound`, `InboundSwitch`, `Buffers`, `Outbound`, `LineLife`): frames over compacting buffers, arbitrary cutting of the stream, and the compression switch, for what is sent through the message queue and for what comes in.
- **Inventory** (`Items`, `Clicks`, `ClickProofs`, `DragProofs`, `ClickTheorems`, `ClickEffects`, `ClickRules`, `DragRules`, `Pickup`, `PlayerInventory`): the click machine with its seven modes, and adding stacks.
- **World and chunks** (`Coordinates`, `Blocks`, `SectionStore`, `ChunkStore`, `Wire`, `BulkIo`, `ChunkLayout`, `ChunkNbt`, `ChunkNbtProofs`, `ChunkTree`): blocks by global coordinates, and the two serial forms of a chunk.
- **Chunk streaming** (`Streaming`, `View`, `Edits`, `ChunkServer`): requests, jobs, replies, eviction, and what becomes of edits meanwhile.
- **MD5** (`Md5`, `Md5Code`, `Md5Vector`): the streaming code against RFC 1321.

Each component has a specification on values, lemmas about it, and, where the program updates state in place, classes and methods with the program's own fields and loops whose contracts tie them to the specification. Where an expected property does not hold, a lemma shows a case and another says exactly when it does hold.

The program's comments and headers differ from its code in two places, and the model follows the code: `nbt.h` promises that serializing a parsed tree gives back the input byte for byte, which fails for empty lists with an element id (`NbtAccounting.StrayIdIsRewritten`); `net.h` promises -1 for a corrupt stream, but an over-long length is reported as incomplete (`Framing.OverlongLengthIsNeverReported`).

`dafny verify dfyconfig.toml` checks the whole project.

## Model

| member | source | states |
|---|---|---|
| PoolProofs.EveryJobIsSomewhere | src/core/src/thread_pool.c:59-114 | In every state every interleaving of submit, pop, steal, run and shutdown steps can reach: each accepted job has run, is queued or is in a hand, exactly once; each lane is popped, by owner and thieves together, in push order; each counter equals its history but for the threads about to update it |
| PoolProofs.ShutdownDrains | src/core/src/thread_pool.c:163-176 | If no submit was between its test of the stop flag and its push when shutdown began, then once all workers have exited every accepted job has run exactly once, every ring is empty and the counts of jobs run agree; the count of submits agrees too exactly when no submit has yet to add itself |
| PoolShutdown.ShutdownIsSafeWhenSettled | src/core/src/thread_pool.c:163-198 | In any state a new pool can reach, with any number of workers and submitters: whatever is scheduled after shutdown starts, every accepted job runs exactly once, if and only if no submit is between its test of the stop flag and its push; the same if only schedules count in which a trylock fails on a held mutex alone |
| PoolShutdown.CommittedCanBeLost | src/core/src/thread_pool.c:180-198 | The other direction as a run: a submit on its way to its push returns 0 and its job never runs, because the workers drain and leave first; no trylock fails in it but on a held mutex |
| PoolProofs.DrainCompletes | src/core/src/thread_pool.c:98-112 | From any state going down the workers' steps lead to all of them having exited, within as many steps as the rank of what is left to do, and with no trylock failing on a free mutex |
| PoolProofs.WorkerStepShrinks | src/core/src/thread_pool.c:65-113 | Once the pool is going down every worker step, steals included, strictly lowers the amount left to do |
| PoolProofs.NeverStuck | src/core/src/thread_pool.c:59-114 | A worker that has not exited always has a step it can take, for a thief the trylock that fails exactly when its victim is locked |
| PoolShutdown.LateSubmitIsLost | src/core/src/thread_pool.c:180-198 | An instance: one worker and one submitter, a run from a new pool in which submit returns 0 and nothing is ever run, though no trylock fails on a free mutex |
| ThreadPool.StepKeepsShape | src/core/src/thread_pool.c:51-198 | Every step keeps the three lanes of every worker and the number of workers |
| PoolRings.WorkerRings.PopLane | src/core/src/thread_pool.c:51-57 | Takes the oldest job off a ring, at the head index, and advances the head modulo the ring size |
| PoolRings.WorkerRings.PopOwnLanes | src/core/src/thread_pool.c:70-77 | The owner takes from the most urgent lane that has a job |
| PoolRings.WorkerRings.PopForThief | src/core/src/thread_pool.c:86-87 | A thief takes from the least urgent lane that has a job |
| PoolRings.WorkerRings.PushLane | src/core/src/thread_pool.c:186-193 | A job goes behind the others of its lane, or is refused exactly when the ring is full |
| PoolEffects.ThiefFinds | src/core/src/thread_pool.c:81-90 | A thief with nobody in its way tries w+1, w+2, .. round to w-1; at the first of them with a job, and not before, it takes the oldest job of the least urgent lane that has one, and nothing else changes; with none it is back at the top of its loop |
| PoolEffects.ThiefOutcome | src/core/src/thread_pool.c:81-90 | Its own steps end with a job in its hand, or at the top of its loop exactly when no other worker has a job |
| PoolEffects.OwnerTakesHottest | src/core/src/thread_pool.c:69-77 | The owner takes the oldest job of its most urgent lane that has one: in the main loop, after its wait and in the drain loop |
| PoolEffects.OwnerFindsNothing | src/core/src/thread_pool.c:69-111 | Without a job it waits, steals, drains or leaves |
| PoolEffects.JobIsRunAndCounted | src/core/src/thread_pool.c:92-97 | A job in the hand is run once and counted, by the worker and by the pool |
| PoolEffects.SubmitLands | src/core/src/thread_pool.c:180-198 | A submit puts the job behind the others of its priority at worker rr mod n and counts it, or, when that ring holds 1024 jobs, counts it as dropped |
| PoolEffects.SubmitRefused | src/core/src/thread_pool.c:182-183 | With another priority or a pool going down nothing happens |
| RegionProofs.RunRefinesMap | src/core/src/region.c:87-293 | After any run of writes, accepted or not, and reopenings, each slot reads as its last accepted write says; the allocator invariant holds; with payloads that fit no sector stays marked that nothing owns |
| RegionProofs.StepRefines | src/core/src/region.c:226-293 | One write or reopening changes the map from slots to readings at the written slot only |
| RegionProofs.WrittenSlotReads | src/core/src/region.c:190-224 | A written slot reads its payload back if and only if the payload has 1..255*4096-5 bytes, and reads as corrupt otherwise |
| RegionProofs.OtherSlotUntouched | src/core/src/region.c:241-293 | A write leaves every other slot's entry, sectors and reading as they were |
| RegionProofs.PlaceIsApart | src/core/src/region.c:241-272 | The sectors chosen for a record are apart from every other slot's |
| RegionProofs.WriteKeepsSafe | src/core/src/region.c:226-293 | Every write keeps live extents disjoint, past the header, inside the file and marked, and the header on disk equal to the one in memory |
| RegionProofs.WriteKeepsExact | src/core/src/region.c:252-272 | With payloads that fit the bitmap stays exactly the header and the live extents |
| RegionProofs.ReopenRestores | src/core/src/region.c:87-175 | Closing and opening again gives back the same header, timestamps, bytes and readings |
| RegionProofs.EmptyFileIsSafe | src/core/src/region.c:104-149 | A new file opens as a safe region with two sectors and every slot empty |
| Region.ScanMaySkip | src/core/src/region.c:256-264 | The scan may jump behind the first used sector it meets: no start before it can have room |
| Region.LowestRun | src/core/src/region.c:255-269 | The lowest free run of the needed length, or the end of the file when there is none |
| RegionFile.RegionHandle.FindRun | src/core/src/region.c:255-264 | The skipping scan over the bitmap finds the lowest free run, and reports 0 exactly when there is none |
| RegionFile.RegionHandle.constructor | src/core/src/region.c:87-152 | Padding, reading the tables and marking sectors give the state Open describes |
| RegionFile.RegionHandle.GrowSectors | src/core/src/region.c:77-85 | The bitmap grows by free sectors and keeps its marks |
| RegionFile.RegionHandle.FlushHeader | src/core/src/region.c:67-75 | Both tables, big-endian, at the start of the file; nothing else changes |
| RegionFile.RegionHandle.ReadRaw | src/core/src/region.c:190-224 | Reads what ReadSlot describes, with the errors for bad coordinates, empty, corrupt and unknown version, and changes nothing |
| RegionFile.RegionHandle.WriteRaw | src/core/src/region.c:226-293 | Refuses bad arguments without effect; otherwise the new state is the one WriteSlot describes |
| RegionFile.RegionHandle.CloseFile | src/core/src/region.c:167-175 | Leaves on disk what Close describes |
| RegionFormat.FileHoldsLastWrites | src/core/src/region.c:187-293 | After any run the file that close leaves, read at coordinates (x, z) by byte positions alone, holds the payload, version and time of the last accepted write with those coordinates, and what was there before if there was none |
| RegionFormat.LookupIsReadSlot | src/core/src/region.c:187-224 | Reading chunk (x, z) is reading the entry at byte 4*(x+32*z), three bytes of sector and one of count, and there a four-byte length, a version byte and the payload; the timestamp is the word at 4096+4*(x+32*z) |
| RegionFormat.OpenedReadsItsBytes | src/core/src/region.c:104-152 | Any file, once opened, is padded with zeros to whole sectors, two at least, and reads as its bytes say |
| RegionFormat.NewFileHoldsNothing | src/core/src/region.c:104-149 | A new file has nothing at any coordinates |
| RegionFormat.FirstFit | src/core/src/region.c:241-273 | A record stays in its old sectors while it fits; else it goes to the lowest run of sectors that are free or its own, or to the end of the file when there is none |
| RegionFormat.RecordBytes | src/core/src/region.c:275-291 | A record is four bytes of length, the version, the payload and zeros up to the end of a sector, the first that will do |
| RegionFormat.RecordOnDisk | src/core/src/region.c:275-293 | After a write it is at the sector the new entry names |
| RegionFile.RegionHandle.Timestamp | src/core/src/region.c:185-188 | The time of the last write to (x, z), and 0 for bad coordinates |
| NbtRoundTrip.ParseOfSerialize | src/core/src/nbt.c:337-509 | A well-formed tree within depth 512, written and followed by any bytes, is read back exactly and consumes exactly its length, if and only if the budget reaches the tree's stated need |
| NbtRoundTrip.ValReadsBack | src/core/src/nbt.c:109-335 | The same for a payload of any type at any depth, with the exact amount taken off the budget |
| NbtRetag.ParseOfAnyTree | src/core/src/nbt.c:482-509 | Without the condition on empty lists the tree that comes back is the same with empty lists tagged END, so it is the same exactly when they were |
| NbtAccounting.ParseAccounts | src/core/src/nbt.c:46-105 | Every accepted input: the tree is well-formed and within depth; the bytes used are as many as its serialization and equal to it if and only if its empty lists are tagged END; the budget spent is the bytes used, one per name and string, the tag size per node and the pointer size per list element and compound slot |
| NbtAccounting.CapIsDoubled | src/core/src/nbt.c:274-293 | The capacity charged for a compound is the least 8 * 2^k that holds its children |
| NbtAccounting.ParseExtends | src/core/src/nbt.c:337-366 | More budget or more input behind gives the same tree and the same rest, with the surplus left over |
| NbtAccounting.StrayIdIsRewritten | src/core/src/nbt.c:204-217 | The header's promise of byte-for-byte output fails: an accepted input with an empty list of bytes is written differently |
| NbtFailures.FailureIsFinal | src/core/src/nbt.c:337-366 | A failure other than for lack of input is the same whatever bytes follow |
| NbtFailures.CutShortIsTruncated | src/core/src/nbt.c:337-366 | An accepted input cut anywhere within the bytes it uses fails as truncated |
| NbtFailures.MalformedInputs | src/core/src/nbt.c:109-345 | Which error malformed types, negative lengths, non-empty lists of END and END as a payload give |
| NbtFailures.DepthDecides | src/core/src/nbt.c:109-123 | With enough budget a well-formed tree is read back if it has at most 512 levels of children and is refused as too deep otherwise |
| NbtFailures.NoLimitIs64MiB | src/core/src/nbt.c:337-345 | A limit of 0 stands for 64 MiB |
| NbtFailures.TypeBytes | src/core/include/minecpp/core/nbt.h:16-29 | The type byte of every kind of value, 0 to 11 |
| NbtFailures.TagBytes | src/core/src/nbt.c:416-427 | A named tag is its type byte, two bytes of name length, the name and the payload |
| NbtFailures.NumberBytes | src/core/src/nbt.c:429-494 | Numbers take 1, 2, 4, 8, 4 and 8 bytes, the most significant first |
| NbtFailures.TextBytes | src/core/src/nbt.c:429-494 | Strings have two bytes of length and byte arrays four |
| NbtFailures.IntArrayBytes | src/core/src/nbt.c:477-481 | The words of an int array are big-endian, behind four bytes of length |
| NbtFailures.ListBytes | src/core/src/nbt.c:482-487 | A list has its element type, 0 when empty, four bytes of length and its elements' payloads |
| NbtFailures.ItemsInOrder | src/core/src/nbt.c:482-487 | Elements are written in order |
| NbtFailures.ChildrenInOrder | src/core/src/nbt.c:488-492 | Children are written in order, and a zero byte closes a compound |
| Bytes.BeByte | src/core/src/region.c:58-63 | Byte j of n is the digit of the value that counts 256^(n-1-j) |
| NbtEqual.EqualIsSameMeaning | src/core/src/nbt.c:632-687 | Two trees with distinct NUL-free sibling names are equal if and only if they denote the same value, compounds read as maps |
| NbtEqual.EqualIsAnEquivalence | src/core/src/nbt.c:632-687 | Equality is reflexive, symmetric and transitive on such trees |
| NbtEqual.CleanLeftIsEnough | src/core/src/nbt.c:632-687 | For symmetry distinct names of the left tree alone are enough: whatever it equals equals it |
| NbtEqual.RepeatedNamesBreakSymmetry | src/core/src/nbt.c:675-684 | With repeated names on the left it is not symmetric |
| NbtEqual.GetFindsMeaning | src/core/src/nbt.c:600-610 | Lookup finds a name exactly when the map has it, with its value |
| NbtEqual.OneKeyPerChild | src/core/src/nbt.c:675-684 | The map has as many keys as there are children, which makes comparing lengths and one direction enough |
| NbtEqual.CloneIsTheSame | src/core/src/nbt.c:689-772 | A tree clones to itself if and only if every list holds values of its own type and none of END |
| NbtEqual.EqualToItsClone | src/core/src/nbt.c:689-772 | Such a tree with distinct names is equal to its clone |
| NbtEqual.DetachRemovesOneEntry | src/core/src/nbt.c:612-630 | Detaching hands over what lookup finds and leaves a tree whose map lacks that entry only |
| NbtIo.ParseBytes | src/core/src/nbt.c:337-366 | The cursor-and-budget parser returns the tree, the error and the consumed count of the specification |
| NbtIo.Reader.ParseValue | src/core/src/nbt.c:109-335 | Cursor, budget and depth move as the specification's remaining input and budget |
| NbtIo.Reader.ParseList | src/core/src/nbt.c:204-253 | The list loop reads the elements the specification reads, charging each |
| NbtIo.Reader.ParseCompound | src/core/src/nbt.c:254-332 | The compound loop reads children until END, growing its array by doubling and charging for it |
| NbtIo.Reader.TakeInts | src/core/src/nbt.c:188-203 | The int array loop reads big-endian words one by one |
| NbtIo.Serialize | src/core/src/nbt.c:496-509 | The growing writer produces the serialization, and fails exactly for an END root or above 2^31 bytes |
| NbtIo.Writer.Need | src/core/src/nbt.c:376-394 | Room for n more bytes by doubling from 256, contents kept, unless that would pass 2^31 |
| NbtIo.Writer.Payload | src/core/src/nbt.c:429-494 | Appends exactly the payload's bytes, once, or raises the flag that the output does not fit |
| NbtNodes.CompoundNode.Remove | src/core/src/nbt.c:612-630 | Takes out the first child of that name and moves the others up, as Detach describes |
| NbtNodes.CompoundNode.Find | src/core/src/nbt.c:600-610 | The loop returns what Get describes |
| NbtNodes.ListNode.Add | src/core/src/nbt.c:581-597 | The first element fixes the list's type; END and elements of another type are refused without effect |
| NbtNodes.Copy | src/core/src/nbt.c:689-772 | Rebuilding a tree through add gives Clone's result |
| Framing.PeekReadsBack | src/core/src/net.c:450-474 | A VarInt followed by anything is read back and only its own bytes are used |
| Framing.VarIntSize | src/core/src/net.c:467-474 | A value takes at most n+1 bytes if and only if it is below 128^(n+1) |
| Framing.NextOfFrame | src/core/src/net.c:476-545 | A frame followed by anything yields its packet and length if it fits the limits, and corrupt otherwise; compression off, below and above the threshold |
| Framing.NextOfPart | src/core/src/net.c:482-486 | A proper prefix of a frame yields nothing |
| Framing.NextExtends | src/core/src/net.c:476-545 | A verdict reached on some bytes is not changed by more of them |
| Framing.OverlongLengthIsNeverReported | src/core/src/net.c:484-484 | Five continuation bytes in place of a length stay "need more" whatever follows, against the header's -1 |
| Framing.FiveContinuations | src/core/src/net.c:484-484 | For instance five bytes 0x80, whatever follows them |
| Framing.WaitingIsShort | src/core/src/net.c:482-486 | Apart from that, what waits is less than one frame |
| FrameGrammar.PeekReadsSpelling | src/core/src/net.c:450-465 | A number is read exactly where at most five seven-bit digits spell one, the last alone below 128, and its value is theirs modulo 2^32; else it is incomplete or too long |
| FrameGrammar.NextReadsGrammar | src/core/src/net.c:476-545 | A packet is taken off the unread bytes if and only if they begin with a frame of the grammar, and it is that frame's packet: a length of 1 to 2^21, then id and payload, or with compression a zero before them, or the length they inflate to before the deflated bytes |
| FrameGrammar.NextWaits | src/core/src/net.c:476-486 | More bytes are awaited exactly when no length is spelled in the first five bytes, or one in range that exceeds what there is |
| FrameGrammar.FrameBytes | src/core/src/net.c:547-582 | The bytes of a sent frame in each of the three modes |
| FrameGrammar.SentNumber | src/core/src/buf.c:239-246 | A sent number is its digits to base 128, least significant first, as few as there are |
| Delivery.CuttingDoesNotMatter | src/core/src/net.c:415-545 | Draining after every chunk, however the stream is cut, gives what draining the whole stream gives |
| Delivery.Delivered | src/core/src/net.c:415-603 | However the bytes sent so far are cut, exactly a prefix of the packets sent comes out, in order, and all of them once all bytes have arrived; the rest stays unread |
| Delivery.BacklogIsBounded | src/core/src/net.c:415-447 | After each drain the unread backlog and the next batch of reads stay within the 8 MiB cap |
| Channel.PeekVarInt | src/core/src/net.c:450-465 | The shift loop computes Peek |
| Channel.WriteVarInt | src/core/src/buf.c:239-246 | The loop writes the bytes of VarInt |
| Channel.DynBuf.Reserve | src/core/src/net.c:372-389 | Compacts, then doubles up to the cap: succeeds exactly when unread and new bytes fit, and never loses an unread byte |
| Channel.DynBuf.Compact | src/core/src/net.c:374-379 | Moves the unread bytes to the front unchanged |
| Channel.DynBuf.Append | src/core/src/net.c:437-440 | The unread bytes are followed by the new ones, or nothing changes |
| Channel.Chan.NextPacket | src/core/src/net.c:476-545 | Returns what Next says of the unread bytes and consumes exactly a packet's bytes, or none |
| Channel.Chan.Send | src/core/src/net.c:547-603 | Queues the packet's frame behind what is pending, or refuses exactly when it does not fit and changes nothing |
| Channel.Chan.Flush | src/core/src/net.c:605-628 | The send loop over the socket's answers, partial sends and interrupts included, takes a prefix of the pending bytes and returns 0, 1 or -1 as Sending describes |
| Channel.FlushCode | src/core/src/net.c:605-628 | The code is 0 exactly when every pending byte went out |
| Inbound.ReceiveBatches | versions/v1_8/src/net_thread.cpp:134-183 | The receive-then-drain loop: over batches of up to four socket reads, cut anywhere, of the frames of deliverable packets no receive is refused, no batch looks corrupt, and exactly the first packets come out in order; all of them once all bytes are in |
| Inbound.DrainChannel | versions/v1_8/src/net_thread.cpp:160-182 | Taking packets until there is none gives what Drain describes |
| InboundSwitch.SwitchedInbound | src/core/src/net.c:476-545 | A client sends uncompressed packets and then compressed ones; EnableCompression, which switches reading too, is handled anywhere in that stream, however it is cut: what comes out is what was sent if and only if each uncompressed packet still unread or on its way inflates to itself and each compressed one already out is what its own body deflates to |
| InboundSwitch.SwitchWantsSilence | src/core/src/net.c:476-545 | Where no packet is of those two kinds, packets come out as sent exactly when the switch is handled after the last uncompressed frame is in and before the first compressed one is complete |
| InboundSwitch.EchoIsRare | src/core/src/net.c:488-545 | Packets of those two kinds have an id that exceeds their payload's length by 1 to 5 |
| InboundSwitch.LateThrough | src/core/src/net.c:488-545 | An uncompressed frame read as a compressed one gives its packet exactly when its payload inflates, to a length that is its id, to the packet itself |
| InboundSwitch.EarlyThrough | src/core/src/net.c:488-503 | A compressed frame read as an uncompressed one gives its packet exactly when the packet is what its own body deflates to |
| InboundSwitch.LatePacketIsMisread | src/core/src/net.c:504-545 | An uncompressed packet with id 0 and one byte, 1, read after the switch, comes out as id 1 with no payload |
| InboundSwitch.ServeBatches | versions/v1_8/src/net_thread.cpp:134-183 | Receiving and draining any batches at all gives what Receive describes, unless the buffer is too full, exactly when NeverFull says |
| InboundSwitch.ServeAcrossSwitch | versions/v1_8/src/net_thread.cpp:134-231 | The same with EnableCompression handled between any two batches: what comes out is what Across describes |
| InboundSwitch.ReceiveAcrossSwitch | versions/v1_8/src/net_thread.cpp:134-231 | With a well-timed switch no receive is refused and the first packets come out in order; all of them once all bytes are in |
| Outbound.MQueue.Push | src/core/src/mqueue.c:49-66 | The linked list's contents are the old ones and the new element behind them |
| Outbound.MQueue.Pop | src/core/src/mqueue.c:68-78 | Takes the first element, or reports an empty queue |
| Outbound.WireFollowsQueue | versions/v1_8/src/net_thread.cpp:199-247 | However sockets flush and messages of connections interleave, the bytes a connection's socket takes are a prefix of its own messages' stream, all of it queued while it lives |
| Outbound.DrainQueue | versions/v1_8/src/net_thread.cpp:199-247 | The drain loop handles every queued message once, in queue order |
| Outbound.EnqueueLogin | versions/v1_8/src/server.cpp:422-441 | Login enqueues SetCompression, the switch and LoginSuccess in that order, or LoginSuccess alone |
| Outbound.SessionStream | versions/v1_8/src/server.cpp:422-441 | Each packet of a session is framed in exactly the mode its receiver is in when it gets there |
| Outbound.SwitchIsSeamless | versions/v1_8/src/server.cpp:422-441 | A peer that changes mode right after decoding SetCompression decodes exactly the packets sent, however queues interleave, sockets flush and the stream is cut |
| LineLife.SendEffect | versions/v1_8/src/net_thread.cpp:212-227 | A packet is queued behind what is pending and the socket takes min(n, pending) bytes of it all; the line ends exactly if the packet's body exceeds 2^31 bytes, the buffer would exceed 8 MiB, or the socket fails before it has everything; no other connection is touched |
| LineLife.SwitchEffect | versions/v1_8/src/net_thread.cpp:229-231 | The switch changes the mode and nothing else |
| LineLife.CloseEffect | versions/v1_8/src/net_thread.cpp:232-243 | A close goes through exactly when the socket takes all that is pending, and is remembered otherwise |
| LineLife.WritableEffect | versions/v1_8/src/net_thread.cpp:184-196 | A writable socket takes min(n, pending) bytes; the line ends exactly if it fails before it has everything, or a close was waiting for that |
| LineLife.LostEffect | versions/v1_8/src/net_thread.cpp:148-183 | A lost connection is gone and its wire stays as it was |
| LineLife.LivesWhileSpared | versions/v1_8/src/net_thread.cpp:134-247 | After any run a connection is there if and only if every event spared it, and then its queue is the whole stream of its messages |
| LineLife.WireHoldsAll | versions/v1_8/src/net_thread.cpp:134-247 | Followed by a writable event that empties the buffer, the wire holds that whole stream |
| LineLife.EverythingArrives | versions/v1_8/src/server.cpp:422-441 | So a session on a connection that is spared arrives whole at a peer that switches after decoding SetCompression |
| LineLife.LoginBytes | versions/v1_8/src/server.cpp:422-441 | The first bytes of a session: for a threshold of 0 or more an uncompressed packet with id 3 and the threshold, then LoginSuccess compressed; else LoginSuccess alone |
| Buffers.LongReadsBack | src/core/src/buf.c:110-124 | A 64-bit VarLong followed by anything is read back and only its own bytes are used |
| Buffers.LongReadsDigits | src/core/src/buf.c:110-124 | A 64-bit number is read up to the first byte below 128 among the first ten, modulo 2^64, and none otherwise |
| Buffers.PackedFields | src/core/src/buf.c:272-279 | x is in the upper 26 bits of a position, y in the middle 12 and z in the lower 26 |
| Buffers.StringsAre | src/core/src/buf.c:127-144 | A string is its length and up to 32767 bytes; it is read exactly where a length of up to four times the limit is spelled and as many bytes follow |
| Buffers.PositionReadsBack | src/core/src/buf.c:146-157 | A packed position is read back if and only if x and z have 26 bits and y has 12, signs included |
| Buffers.StringReadsBack | src/core/src/buf.c:127-144 | A string that could be written is read back exactly when the reader's limit allows its length |
| Buffers.Writer.Need | src/core/src/buf.c:165-183 | Growth by doubling from 64 keeps what was written and fails, for good, exactly above 2^31 bytes |
| Buffers.Writer.Raw | src/core/src/buf.c:185-190 | Appends the bytes, or nothing once the writer has failed |
| Buffers.Writer.VarLong | src/core/src/buf.c:248-255 | The loop appends the VarLong's bytes |
| Buffers.ReadVarLong | src/core/src/buf.c:111-124 | The shift loop computes ReadLong |
| Items.SameIsSameKind | versions/v1_8/src/protocol.cpp:542-546 | Slot equality holds if and only if id, damage and the meaning of the NBT agree |
| ClickTheorems.ClickConserves | versions/v1_8/src/server.cpp:1029-1377 | From a sane inventory every click in every mode conserves every kind over slots, cursor and thrown stack if and only if no stack is thrown into a full world and no right drag has more slots to serve than items; the inventory stays sane if and only if no shift-click fits entirely into existing stacks and no drag overfills a slot or overdraws the cursor |
| ClickTheorems.RunConserves | versions/v1_8/src/server.cpp:1029-1377 | Over any run of such clicks the items in slots, on the cursor and thrown out add up to what there was |
| ClickTheorems.QuietRunIsGood | versions/v1_8/src/server.cpp:1053-1377 | Runs of modes 0, 2, 3, 4 and 6 into a world with room are such runs whatever the clicks are |
| ClickTheorems.ChangesAreResent | versions/v1_8/src/server.cpp:1034-1377 | Whatever slot or cursor differs after a click, accepted or refused, is among those sent to the client again |
| ClickTheorems.ShiftLeavesNothingBehind | versions/v1_8/src/server.cpp:1142-1166 | A concrete shift-click that leaves an item of count 0 in a slot |
| ClickTheorems.RightDragMakesItems | versions/v1_8/src/server.cpp:1318-1339 | A concrete right drag of one item over two slots after which the cursor holds 255 |
| ClickTheorems.LeftDragOverfills | versions/v1_8/src/server.cpp:1299-1317 | A concrete left drag after which a slot holds 128 |
| ClickProofs.PlainConserves | versions/v1_8/src/server.cpp:1067-1122 | Mode 0 conserves every kind and keeps the inventory sane |
| ClickProofs.ShiftConserves | versions/v1_8/src/server.cpp:1123-1168 | Mode 1 conserves every kind, and stays sane if and only if there is less room on matching stacks than items moved |
| ClickProofs.MergeLeaves | versions/v1_8/src/server.cpp:1142-1150 | What a merge leaves to move is exactly what there is no room for |
| ClickProofs.SwapConserves | versions/v1_8/src/server.cpp:1169-1180 | Mode 2 conserves every kind and keeps the inventory sane |
| ClickProofs.DropConserves | versions/v1_8/src/server.cpp:1185-1242 | Mode 4 conserves if and only if there is nothing to throw or room in the world |
| ClickProofs.CollectConserves | versions/v1_8/src/server.cpp:1354-1372 | Mode 6 conserves every kind and keeps the inventory sane |
| ClickTheorems.DragConserves | versions/v1_8/src/server.cpp:1243-1353 | Mode 5, every sub-case: conserved if and only if not overdrawn |
| DragProofs.SpreadAt | versions/v1_8/src/server.cpp:1299-1317 | Each slot of a left drag ends with its share on top of what it had, the others untouched |
| DragProofs.SpreadEnd | versions/v1_8/src/server.cpp:1289-1350 | The end of a left drag conserves, and stays sane if and only if no slot would pass 64 |
| DragProofs.SowEnd | versions/v1_8/src/server.cpp:1289-1350 | The end of a right drag conserves and stays sane if and only if the slots it gets to are no more than the cursor's items |
| ClickRules.LeftButton | versions/v1_8/src/server.cpp:1074-1088 | Mode 0, button 0, slots 1..44: the new slot and cursor in each of the four cases, what is sent again, and nothing else changes |
| ClickRules.RightButton | versions/v1_8/src/server.cpp:1089-1120 | Mode 0, button 1: half taken, one put down, or the two exchanged |
| ClickRules.PlainAccepted | versions/v1_8/src/server.cpp:1067-1122 | Mode 0 is accepted exactly for slots 1..44 and buttons 0 and 1; a refused click only ends a drag |
| ClickRules.ShiftMoves | versions/v1_8/src/server.cpp:1123-1168 | Mode 1: what every slot holds afterwards; like stacks in 36..44 (from slots 1..35) or 9..35 (from 36..44) are topped up from the lowest on, the rest goes to the first empty slot of the range, or back |
| ClickRules.ShiftAccepted | versions/v1_8/src/server.cpp:1123-1139 | Mode 1 is accepted exactly for slots 1..44, and does nothing on an empty one |
| ClickRules.NumberKey | versions/v1_8/src/server.cpp:1169-1180 | Mode 2: slots 1..44 and keys 0..8 exchange the slot with slot 36 + key; all else is refused |
| ClickRules.MiddleButton | versions/v1_8/src/server.cpp:1181-1184 | Mode 3 never does anything |
| ClickRules.Dropped | versions/v1_8/src/server.cpp:1185-1242 | Mode 4: one item or the stack leaves the slot, or the cursor at -999, and appears in the world unless 512 entities are there |
| ClickRules.DoubleClicked | versions/v1_8/src/server.cpp:1354-1372 | Mode 6: what every slot holds afterwards; the cursor is filled from like stacks in slots 1..44, lowest first |
| ClickRules.NotOurs | versions/v1_8/src/server.cpp:1041-1054 | Another window, a mode above 6 or a slot that is not there: refused without effect |
| DragRules.DragStarts | versions/v1_8/src/server.cpp:1266-1277 | Mode 5: button 0 starts a left drag on a slot and button 1 a right one |
| DragRules.DragGoesOn | versions/v1_8/src/server.cpp:1284-1288 | Buttons 4 and 5 add a slot that is not in the drag yet; there is always room for it |
| DragRules.DragRefused | versions/v1_8/src/server.cpp:1243-1283 | With an empty cursor, another button or no such drag the click is refused and the drag over |
| DragRules.LeftDragDeals | versions/v1_8/src/server.cpp:1289-1350 | Button 8: each of the n slots gets an n-th of the cursor's items, rounded down, and the cursor keeps the remainder; refused when a slot cannot take the item |
| DragRules.RightDragDeals | versions/v1_8/src/server.cpp:1289-1350 | Button 9: the slots up to the first full one get one item each, the cursor's count falls by as many modulo 256, and the click is accepted exactly if those are all slots and all can take the item |
| ClickEffects.LeftPutsDownAllThatFits | versions/v1_8/src/server.cpp:1075-1088 | A left click with an item puts down all that fits: slot full or cursor empty; different items change places |
| ClickEffects.EmptyHandTakes | versions/v1_8/src/server.cpp:1075-1100 | With an empty cursor a left click takes everything and a right click the larger half |
| ClickEffects.RightPutsDownOne | versions/v1_8/src/server.cpp:1101-1116 | A right click with an item puts down exactly one wherever one fits |
| ClickEffects.LeftTwiceIsNothing | versions/v1_8/src/server.cpp:1075-1088 | Left-clicking a slot twice restores slot and cursor unless stacks merged |
| ClickEffects.SwapTwiceIsNothing | versions/v1_8/src/server.cpp:1169-1180 | A number key exchanges the two stacks, and pressed twice changes nothing |
| ClickEffects.DropThrowsOneOrAll | versions/v1_8/src/server.cpp:1185-1242 | One item, or with another button the whole stack, is thrown and the rest stays |
| ClickEffects.SowAt | versions/v1_8/src/server.cpp:1318-1339 | A right drag gives one item to each slot it gets to and touches no other |
| ClickEffects.LeftDragSharesEvenly | versions/v1_8/src/server.cpp:1299-1317 | A left drag over n slots gives each the n-th part of the cursor's count and leaves the remainder on the cursor |
| ClickEffects.CollectGathersAll | versions/v1_8/src/server.cpp:1359-1369 | A double click gathers all there is of the cursor's kind in slots 1..44, up to 64 |
| PlayerInventory.Player.OnClick | versions/v1_8/src/server.cpp:1029-1377 | The click machine on the player's own slots, cursor and drag fields computes ProcessClick |
| PlayerInventory.Player.Plain | versions/v1_8/src/server.cpp:1067-1122 | Mode 0 on the player's fields gives the slots, cursor and reply PlainClick describes; the drag fields stay |
| PlayerInventory.Player.Shift | versions/v1_8/src/server.cpp:1123-1168 | The merge loop, the fill loop and putting the rest back give what ShiftClick describes; cursor and drag stay |
| PlayerInventory.Player.Drop | versions/v1_8/src/server.cpp:1185-1242 | From the cursor or a slot, one item or all is handed to the world and the rest stays, as DropClick describes |
| PlayerInventory.Player.Drag | versions/v1_8/src/server.cpp:1243-1353 | Start, add, end and rejection update drag state, slots and cursor as DragClick describes |
| PlayerInventory.Player.DoubleClick | versions/v1_8/src/server.cpp:1354-1372 | The collecting loop over slots 1..44 gives what CollectClick describes |
| Pickup.AddIsExact | versions/v1_8/src/server.cpp:1556-1581 | What does not fit is exactly max(0, count minus the free room in slots 9..44), and every other item is in a slot |
| Pickup.AddedAt | versions/v1_8/src/server.cpp:1556-1581 | What every slot holds afterwards: stacks of the kind in 9..44 topped up from the lowest on, then empty slots filled from the lowest on |
| Pickup.AddPrefersStacks | versions/v1_8/src/server.cpp:1559-1579 | An empty slot is taken only when every stack of the kind is full |
| Pickup.AddKeepsSane | versions/v1_8/src/server.cpp:1556-1581 | Slots outside 9..44 stay as they were and a sane inventory stays sane |
| PlayerInventory.Player.InventoryAdd | versions/v1_8/src/server.cpp:1556-1581 | The two loops compute Added |
| PlayerInventory.Player.PickUp | versions/v1_8/src/server.cpp:2821-2859 | The pickup of an item entity computes the same; the entity keeps the rest and is gone exactly when there is none |
| Coordinates.ChunkKeyIsInjective | versions/v1_8/include/minecpp/v1_8/server.h:135-137 | Different chunk coordinates have different keys, negatives included |
| Coordinates.KeyIsItsBits | versions/v1_8/include/minecpp/v1_8/server.h:135-137 | The integer key is the 64-bit pattern that the casts, the shift and the xor make |
| Coordinates.XorIsSum | versions/v1_8/include/minecpp/v1_8/server.h:135-137 | On bit vectors, xor-ing the low half in is adding it |
| Coordinates.FloorDivRoundsDown | versions/v1_8/src/server.cpp:58-62 | The truncating cast with its correction rounds down on both sides of zero |
| Coordinates.BlockInItsChunk | versions/v1_8/src/server.cpp:58-62 | A block coordinate's chunk is its floor division by 16, and its place inside is 0..15 |
| Streaming.RunIsSafe | versions/v1_8/src/server.cpp:551-618 | In every state reachable by ticks, joins, leaves, requests, finished jobs and replies: loaded and in-flight sets are disjoint, each in-flight key has exactly one outstanding job or reply and other keys none, every loaded key is in the world under its own key, and at most 32 jobs are submitted a tick |
| Streaming.ReadyKeepsSafe | versions/v1_8/src/server.cpp:584-618 | A reply keeps that invariant, whatever chunk it carries and whatever is evicted |
| Streaming.RequestCovers | versions/v1_8/src/server.cpp:551-565 | After a request every chunk of the square is loaded or in flight, unless the pool refused it or the tick's budget is spent |
| View.RequestCoversView | versions/v1_8/src/server.cpp:551-565 | After a request every chunk whose rows are at most r from the player's position in x and in z, r being the view distance within 1..8, is loaded, in flight or refused, or 32 jobs were submitted this tick |
| View.RequestAsksInView | versions/v1_8/src/server.cpp:551-582 | A request submits jobs for such chunks only, none that the client has or waits for, row by row, each only once all before it are taken care of; the keys newly in flight are theirs; the tick's jobs stay within 32 |
| View.RadiusIsClamped | versions/v1_8/src/server.cpp:553-555 | The view distance counts as it is from 1 to 8 and as 1 or 8 outside |
| View.OtherSteps | versions/v1_8/src/server.cpp:551-618 | Ticks, joins, leaves and finished jobs change what they should and nothing else |
| View.ReplyLeavesTheRest | versions/v1_8/src/server.cpp:584-618 | A reply takes its own ticket and key away and touches no other client, key or ticket |
| Streaming.AskFromOnlyAdds | versions/v1_8/src/server.cpp:551-582 | A request only adds in-flight keys, one job and one unit of budget for each |
| Streaming.ReadyLoads | versions/v1_8/src/server.cpp:584-618 | A reply gives the client its chunk if and only if it carries one, the packet can be built, and the chunk says it is where it was asked for or the world already has one there |
| Streaming.ReadyWorld | versions/v1_8/src/server.cpp:599-606 | What a reply does to every key of the world |
| Streaming.EvictionIsExact | versions/v1_8/src/server.cpp:170-182 | After eviction the world is at 1024 chunks, at what must be kept if that is more, or as small as it was |
| Edits.EditSurvives | versions/v1_8/src/server.cpp:584-606 | Over any possible run an edited chunk stays as edited throughout the rest of the run if and only if nothing in it is an edit to something else or a taken reply that evicts the chunk or carries a different one |
| Edits.WorldIsTheLastWord | versions/v1_8/src/server.cpp:584-606 | After every possible run a chunk is what the last edit or taken reply for it made it since it was last gone, and absent exactly when there is none |
| Edits.SparedIsUnchanged | versions/v1_8/src/server.cpp:584-606 | One event leaves a chunk unchanged exactly when it neither edits it to something else nor is a taken reply that evicts it or carries a different one |
| Edits.EditCanBeUndone | versions/v1_8/src/server.cpp:551-606 | A possible run of nine events from the start, in which the pool refuses nothing: a client asks for what is around it and gets a chunk, it is edited, a second client asks, and after that reply the edit is gone while the first client still counts the chunk as loaded |
| ChunkServer.Server.NewTick | versions/v1_8/src/server.cpp:2971-2971 | A tick gives the budget back, as the Tick step says |
| ChunkServer.Server.AddPlayer | versions/v1_8/src/server.cpp:260-267 | A new player has nothing and waits for nothing, as the Join step says |
| ChunkServer.Server.RemovePlayer | versions/v1_8/src/server.cpp:283-288 | A player that leaves is gone, as the Leave step says |
| ChunkServer.Server.SetContent | versions/v1_8/src/server.cpp:194-200 | An edit changes the chunk under its key only, and fails without effect where there is none |
| ChunkServer.Server.RequestChunks | versions/v1_8/src/server.cpp:551-565 | The double loop with its early return computes the specification's request |
| ChunkServer.Server.SubmitChunkJob | versions/v1_8/src/server.cpp:567-582 | A job is queued and counted, or the key is taken back |
| ChunkServer.Server.Evict | versions/v1_8/src/server.cpp:170-182 | A walk in any order throws out only what need not be kept, and no more than needed |
| ChunkServer.Server.OnChunkReady | versions/v1_8/src/server.cpp:584-618 | The reply's effect is a step of the specification, and exactly a newly loaded chunk is sent |
| Blocks.NibbleSetReads | versions/v1_8/src/chunk.cpp:58-69 | Setting a nibble changes that nibble and no other |
| Blocks.BlockIndexIsInjective | versions/v1_8/include/minecpp/v1_8/chunk.h:25-25 | Places in a section and indices correspond one to one |
| Blocks.SetAtReads | versions/v1_8/src/chunk.cpp:360-369 | In a section whose Add array is clear or flagged the written block reads back and no other changes |
| Blocks.StaleAddShows | versions/v1_8/src/chunk.cpp:360-369 | Without that, other blocks are untouched if and only if the flag is set, the id is at most 255 or the Add nibbles of the others are zero |
| Blocks.BlockSetReads | versions/v1_8/src/chunk.cpp:336-370 | The same for a chunk, with sections made on demand, keeping the chunk good |
| Blocks.SetBlockReads | versions/v1_8/src/server.cpp:186-200 | SetBlock succeeds exactly where GetBlock has an answer and id and metadata are in range; then that block reads back and every other block of the world as before, negatives included |
| Blocks.RunRefinesMap | versions/v1_8/src/server.cpp:186-200 | After any run of writes every block reads as last written, or as at the start |
| SectionStore.Cells.Put | versions/v1_8/src/chunk.cpp:360-369 | The section's arrays are updated in place as SetAt describes |
| SectionStore.Cells.Get | versions/v1_8/src/chunk.cpp:343-347 | Reads id and metadata |
| SectionStore.SetNibble | versions/v1_8/src/chunk.cpp:63-69 | Mixes the nibble into its byte in place |
| ChunkStore.Column.Set | versions/v1_8/src/chunk.cpp:350-370 | BlockSet on the chunk's own section objects; all else unchanged |
| ChunkStore.Column.Get | versions/v1_8/src/chunk.cpp:336-348 | Computes BlockGet |
| ChunkStore.World.SetBlock | versions/v1_8/src/server.cpp:194-200 | The world's chunk table changes as SetBlock describes; other chunks are untouched |
| ChunkStore.World.GetBlock | versions/v1_8/src/server.cpp:186-192 | Computes GetBlock |
| ChunkStore.World.Adopt | versions/v1_8/src/server.cpp:165-168 | A chunk goes in under the position it says it has, in place of what was there |
| ChunkLayout.BlockIsItsBits | versions/v1_8/src/chunk.cpp:336-348 | Block (x, y, z) is in section y/16 at place y%16*256+z*16+x: low eight bits of the id in one array, upper four and metadata in half bytes, the low half for even x |
| ChunkLayout.WriteIsItsBits | versions/v1_8/src/chunk.cpp:350-370 | A write sets those bits and no others, and the flag for ids above 255 |
| ChunkLayout.ColumnsOfChunk | versions/v1_8/src/server.cpp:186-200 | A chunk in the table under its coordinates is what the world reads at blocks 16x..16x+15, 16z..16z+15 |
| ChunkLayout.SectionBytes | versions/v1_8/src/protocol.cpp:716-738 | A section is 4096 little-endian cells of id*16+metadata, 2048 bytes of block light and 2048 of sky light |
| ChunkLayout.MaskAndPlace | versions/v1_8/src/protocol.cpp:716-745 | Bit y of the mask says whether section y is sent, behind those below it |
| ChunkLayout.PacketIs | versions/v1_8/src/protocol.cpp:716-745 | A built packet has position, mask, sections from the lowest up and, if continuous, biomes last; it is refused exactly without biomes |
| ChunkLayout.AppliedAt | versions/v1_8/src/protocol.cpp:747-775 | An accepted packet writes section y over with its own bytes when bit y is set, and leaves it alone otherwise |
| ChunkLayout.BulkBytesAre | versions/v1_8/src/protocol.cpp:632-644 | A bulk packet is a byte for sky light, the count, ten bytes of x, z and mask for each chunk, and then all data |
| Wire.BulkCarriesColumns | versions/v1_8/src/protocol.cpp:632-836 | 1..64 chunks with biomes, built, encoded, followed by anything, decoded, split and each applied to a chunk without sections: every id, metadata, light value and biome comes back |
| ChunkLayout.WriteTouchesOneSection | versions/v1_8/src/chunk.cpp:350-370 | A write changes its own section's blocks and nothing else of the chunk; a section made for it is dark and empty but for that block |
| ChunkLayout.AppliedRest | versions/v1_8/src/protocol.cpp:747-787 | An accepted packet sets the position and, if continuous, the biomes from its last 256 bytes, and nothing else but sections |
| ChunkLayout.DecodedBulks | versions/v1_8/src/protocol.cpp:646-678 | Whatever is accepted as a bulk packet has at most 64 records, each of the size its mask implies |
| Wire.BulkReadsBack | versions/v1_8/src/protocol.cpp:632-678 | A bulk packet is decoded to itself if and only if every record is as long as its mask implies |
| Wire.ChunkReadsBack | versions/v1_8/src/protocol.cpp:716-787 | A built chunk packet applied to a chunk without sections gives the same blocks, light and biomes; building fails exactly when biomes are wanted and missing |
| Wire.SectionReadsBack | versions/v1_8/src/protocol.cpp:747-775 | Applied to an existing section the blocks come back if and only if no id above 255 is sent or no old Add nibble stands at a smaller id |
| Wire.FromNetIsClear | versions/v1_8/src/protocol.cpp:748-774 | After applying a section's bytes its Add array is clear or flagged if and only if an id above 255 came in or the array was all clear before |
| Wire.WireLeavesStaleAdd | versions/v1_8/src/protocol.cpp:760-772 | Applying a packet to a section can leave unflagged Add nibbles: a block sent as 0 reads as 0 until an id above 255 is written anywhere in the section, and then as 256 |
| Wire.ApplyWantsExactSize | versions/v1_8/src/protocol.cpp:747-787 | Chunk data is accepted if and only if it has exactly the size its mask and biome flag imply |
| Wire.MaskImpliesSize | versions/v1_8/src/protocol.cpp:661-664 | The sections' bytes are as many as the mask's bits say |
| SectionStore.Cells.Net | versions/v1_8/src/protocol.cpp:617-630 | The loop writes the section's cells, little-endian, and its light |
| SectionStore.Cells.TakeNet | versions/v1_8/src/protocol.cpp:758-774 | The loop over received cells sets blocks, nibbles and the flag as FromNet describes |
| ChunkStore.Column.BuildData | versions/v1_8/src/protocol.cpp:716-744 | Mask and data of the sections present, and biomes when asked for |
| ChunkStore.Column.ApplyChunkData | versions/v1_8/src/protocol.cpp:747-787 | The chunk and the verdict are ApplyChunk's, for refused packets too: the sections overwritten so far stay so, the position stays as it was |
| BulkIo.Encode | versions/v1_8/src/protocol.cpp:632-644 | The loops over a growing writer give BulkEncode's bytes, and nothing for more than 64 records or more than 2^31 bytes |
| Wire.BulkFits | versions/v1_8/src/protocol.cpp:632-644 | Up to 64 records sized by their masks are below the writer's limit |
| BulkIo.Decode | versions/v1_8/src/protocol.cpp:646-678 | The loops over heads and bodies compute BulkDecode |
| ChunkNbtProofs.ChunkSurvivesNbt | versions/v1_8/src/version.cpp:19-43 | A chunk written to NBT bytes, followed by anything, is read into any chunk if and only if the reader's budget covers its tree, and then as Returned describes: position, times, flags, heightmap, biomes, sections and lists |
| ChunkNbtProofs.ReturnedIsTheSame | versions/v1_8/src/chunk.cpp:87-181 | What comes back is the chunk itself if and only if its sections are at their heights with clear or flagged Add arrays, it has biomes or those of the target, and its empty lists are tagged END |
| ChunkNbtProofs.SectionReadsBack | versions/v1_8/src/chunk.cpp:276-292 | A section's compound is read back, flagged when its Add array was written |
| ChunkNbtProofs.SectionListReadsBack | versions/v1_8/src/chunk.cpp:121-155 | The section list puts every section back at its height |
| ChunkTree.RootByName | versions/v1_8/src/chunk.cpp:248-334 | A chunk's tree is an unnamed root with one child, Level |
| ChunkTree.LevelByName | versions/v1_8/src/chunk.cpp:248-334 | Every child of Level by its name in the file, with its type and value |
| ChunkTree.SectionByName | versions/v1_8/src/chunk.cpp:276-292 | Every child of a section's compound by its name |
| ChunkTree.SectionsUpwards | versions/v1_8/src/chunk.cpp:276-298 | The sections that are there, from the lowest up |
| ChunkTree.AcceptedTrees | versions/v1_8/src/chunk.cpp:87-181 | A tree is accepted as a chunk if and only if its Level has a list of sections with height 0..15 and arrays of 4096 and 2048 bytes, and whatever else is there has its type and size |
| ChunkTree.AcceptedValues | versions/v1_8/src/chunk.cpp:95-177 | What is read of an accepted Level, by name, with the defaults for what is missing |
| ChunkTree.SectionLikeReads | versions/v1_8/src/chunk.cpp:121-155 | What is read of a section, by name |
| ChunkTree.LastSectionWins | versions/v1_8/src/chunk.cpp:152-153 | Each height holds the last section in the list that names it |
| ChunkNbt.FromRootIsGood | versions/v1_8/src/chunk.cpp:87-181 | Whatever tree is accepted, the sections of the chunk are where they say they are and their Add arrays are clear unless flagged |
| ChunkNbt.NamesDiffer | versions/v1_8/src/chunk.cpp:258-264 | The names of the format are pairwise different |
| ChunkStore.Column.ChunkFromRoot | versions/v1_8/src/chunk.cpp:87-181 | Filling the chunk in place accepts and stores what FromRoot describes |
| ChunkStore.Column.WriteRoot | versions/v1_8/src/chunk.cpp:248-334 | Builds ToRoot's tree |
| Md5Code.DigestOf | src/core/src/crypto.c:34-101 | The streaming code computes the digest of RFC 1321 sections 3.1 to 3.5 for every input |
| Md5Code.Feed | src/core/src/crypto.c:77-86 | Buffering in pieces folds exactly the whole blocks of the data and keeps the rest |
| Md5Code.Round | src/core/src/crypto.c:43-75 | The loop with rotating registers computes the 64 operations with rotating roles |
| Md5Code.MakeRoom | src/core/src/crypto.c:88-92 | A block without room for the length is filled with zeros and folded |
| Md5Code.LastBlock | src/core/src/crypto.c:93-95 | The last block is the padding and the bit length |
| Md5Vector.DigestOfAbc | src/core/src/crypto.c:34-101 | The digest of abc is the one in section A.5 of RFC 1321 |
| Md5.TurnIsOperation | src/core/src/crypto.c:65-69 | Moving values round the registers is moving the roles round them |
| Md5.XorF | src/core/src/crypto.c:53-53 | The xor form of F is the RFC's |
| Md5.XorG | src/core/src/crypto.c:56-56 | The xor form of G is the RFC's |
| Md5.WordFormula | src/core/src/crypto.c:52-64 | The computed word index is the one the RFC lists |
| Md5.FoldOfMore | src/core/src/crypto.c:77-86 | Folding blocks in two runs is folding them in one |

## Left out

- Sockets, pollers, threads, mutexes and condition variables as system objects: a receive is appended bytes, a mutex section one atomic step, a wait a step that may end at any time.
- File I/O failure and allocation failure: several of those paths leave half-updated state; a file is a byte sequence and every allocation succeeds.
- zlib: a pair of functions, of which inflating what was deflated gives it back; AES, RSA and SHA-1 are absent, and so is channel encryption.
- ThreadPool: a job runs as one step and does not itself submit; affinity, pool start-up failure and the clearing of the down flag after shutdown are not modelled.
- The counters of the pool are unbounded; the round-robin counter wraps at 2^32.
- Region sector numbers are kept below 2^24 by the lemmas' bound on the file's growth, as the header's three-byte field needs.
- NBT trees are values, so the pointer-equality shortcut of minecpp_nbt_equal and the freeing of nodes have no counterpart; the tag and pointer sizes are those of an LP64 machine.
- Only list elements are without a name and only they: trees that minecpp_nbt_add would refuse to build for that reason cannot be written down.
- The names of a chunk's three preserved lists are the format's fixed names; a name with a NUL inside that merely compares equal is not modelled.
- ChunkStore.Column.ChunkFromRoot: where reading fails it promises a valid chunk only; the program leaves one half filled, its lists freed, which every caller throws away.
- Streaming: a chunk is its position and an opaque content that an edit replaces; replies may come in any order, of which the queue's order is one; connection ids are not reused.
- Chunk generation and region reading inside a chunk job: a job's reply carries any chunk, at any position, or none.
- Float32 and float64 fields: FloorDiv16 is modelled over the reals, on which its division by 16 is exact; positions whose chunk does not fit 32 bits are outside the lemmas.
- BulkIo: the reader's cursor is a shrinking sequence.
- The other packet encoders and decoders, chat, status, block digging and placing, entities, visibility, keep-alive, the command line, the dump tool and the 1.9 and 1.10 stubs: plumbing without an invariant of their own.
- physics.cpp and worldgen.cpp: floating point, noise and tables.
- The event bus and the scheduler stub: nothing that spans operations.
