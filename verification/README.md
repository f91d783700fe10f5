# A verified model of libiscsi

libiscsi is an iSCSI initiator. This project models the parts of it that hold unbounded properties and proves those
properties with Dafny. Where the C code updates an object in place, the model is a class or an array with the same
fields, and every method is proved against a function or predicate of the old state; the theorems are lemmas about
those functions, over all inputs and all runs.

`dafny verify dfyconfig.toml` checks everything.

| part | files |
|---|---|
| buddy allocator for RDMA buffers | BuddyTree, BuddyAllocator, Powers |
| outgoing queue, command numbers, the target's window | Serial32, CmdSn, Session, PduList, OutQueue, CancelTask |
| scatter/gather cursor | IoVector |
| sending PDUs: one of them, and the loop over the queue | PduWriter, WriteLoop |
| data of a write command | DataOut |
| receiving PDUs, into the task's own buffers | Framing, DirectRead |
| CRC32C and the digests | LinearRegister, CrcTable, Crc32c, CrcDigest |
| MD5, SHA-1, SHA-256 | MerkleDamgard, Md5, Sha |
| SHA-3 and SHAKE | Keccak, KeccakConstants, Sponge, Sha3 |
| reconnect | Reconnect |
| SCSI data formats | PortGroups, ScsiBytes, ModePages |
| shared helpers | Common (modules Common, Bytes, Octets, PduHeader) |

What comes from outside is a parameter: what the kernel answers to each call, the clock, the negotiated settings, the
compression functions of MD5 and SHA. Buffers are sequences of addresses in one memory; object identity and the links of
the PDU lists are modelled as they are.

## Findings

What the code does not do, each with the lemma that states exactly when it does.

- Cancelling a queued task gives its number back but renumbers nothing behind it, because the gap is only counted after
  the loop that would use it (lib/iscsi-command.c:2708-2734). The numbering stays gapless if and only if no command
  stands behind the cancelled one (`CancelTask.CancelLeavesGap`); with commands 5 and 6 queued, cancelling 5 makes the
  number 6 be handed out twice (`CmdSn.CancelTaskWitness`). The DATA-OUTs of the task leave the queue with it, but only
  the first PDU of the task is cancelled and freed (`CancelTask.Cancel`).
- The loop that sends DATA-OUTs ends if and only if there is nothing to send or the target takes segments of at least one
  byte (`DataOut.LoopEnds`); the login stores the announced limit unchecked (lib/login.c:1393), and with a limit of 0 and
  one byte to send every turn leaves the byte (`DataOut.ZeroLimitNeverEnds`).
- DATA-OUT offsets are 32 bits wide: a burst of `tot` bytes in segments of `limit` tiles its range if and only if its
  last segment begins below 2^32, that is, offset + (tot - 1) / limit * limit does (`DataOut.TilesBelow`,
  `DataOut.TrainTiles`); `DataOut.TrainWraps` is a burst that does not.
- PDUs with one CmdSN are meant to stay in the order in which they were queued (lib/socket.c:114-117). A PDU goes behind
  all queued ones with its number if and only if nothing newer stands before one of these (`CmdSn.BehindEqualNumbers`).
  An immediate PDU between two DATA-OUTs of one command is newer and goes to the front, so the second DATA-OUT overtakes
  the first in an allowed run (`Session.LaterDataOutOvertakes`). On the wire the offsets then go down, which the cursor
  refuses (`IoVector.Cursor.ReadvWritev`). DATA-OUTs queued without a pause stay together and in order
  (`CmdSn.TrainStandsTogether`, `CmdSn.TrainIsNotSplit`).
- The end of a scatter/gather range is computed in 32 bits (lib/socket.c:622). When it wraps it comes out before the
  start, the adjusted length becomes negative and the kernel refuses the call. All ranges that lie in the buffers are
  accepted if and only if fewer than 2^32 bytes follow the start of the first entry of two and more bytes, or that entry
  starts out of reach (`IoVector.AllRangesAccepted`, `IoVector.WrapWitness`).
- Serial numbers compare like the counters they stand for if and only if the counters are within the half range
  (`Serial32.CompareRefinesCounters`).
- A mode page that is marshalled with a subpage gets a longer header written over its first two bytes of fields: all
  fields of a kind of page come back if and only if there is no subpage (`ModePages.FieldsComeBackWithoutSubpage`). A
  single page with a subpage comes back if and only if its bytes, read two bytes further on, happen to give the same
  fields (`ModePages.OnePageComesBack`).
- The 10-byte mode sense header has a 16-bit block descriptor length, which is kept in 8 bits (lib/scsi-lowlevel.c:3041,
  include/scsi-lowlevel.h:890). Behind n bytes of block descriptors all lists of pages are found if and only if n is
  below 256 (`ModePages.PagesFoundBehindDescriptors`). From 256 on even a reply without pages fails, since the walk reads
  descriptors as pages (`ModePages.NothingFoundWrongly`); 256 zero bytes are such a reply (`ModePages.DescriptorsWitness`).
- The byte that makes a SHA message 2^61 bytes long, and no other, sets the error code 1, which is the one for a null
  pointer and not the one for too long input (include/sha.h:69-73; `Sha.OverflowIsReportedAsNull`,
  `Sha.OverflowWitness`), and the call that does so still reports success (`Sha.Context.Input`).

## Model

| member | source | states |
|---|---|---|
| BuddyAllocator.Fls | lib/iser.c:133-140 | The position of the highest set bit: x lies between two successive powers of two. |
| BuddyAllocator.SizeClassExact | lib/iser.c:276 | For 1 to 4 MiB the level is 1 to 11, its block holds the data, and the next smaller block does not. |
| BuddyAllocator.Chunk.constructor | lib/iser.c:307-310 | A fresh chunk has no live block, for any depth up to what an int8 holds. |
| BuddyAllocator.Chunk.Propagate | lib/iser.c:142-164 | After one block became live or free the walk towards the root makes every node show the tree of the new live set, although it stops at the first unchanged ancestor. |
| BuddyAllocator.Chunk.Descend | lib/iser.c:190-194 | The descent never dead-ends and finds the lowest available block of the wanted size. |
| BuddyAllocator.Chunk.Alloc | lib/iser.c:179-205 | Refused exactly when no available block of that size exists; otherwise the first fit becomes live and nothing else changes. |
| BuddyAllocator.Chunk.Free | lib/iser.c:166-177 | Given only the first unit of a live block, exactly that block is released. |
| BuddyAllocator.RunKeepsBlocksApart | lib/iser.c:142-205 | In every run of allocations and releases, at every moment, live blocks lie in the chunk, are aligned to their size and share no unit. |
| BuddyAllocator.ReleasingAllRestoresTree | lib/iser.c:166-177 | Releasing all live blocks in any order restores the initial tree, all buddies merged. |
| BuddyAllocator.AllocFindsAlignedRange | lib/iser.c:179-205 | Whenever an aligned run of units is clear, the allocation succeeds at or below it. |
| BuddyTree.FitsIffAvailable | lib/iser.c:185-194 | A node shows at least level w exactly when an available block of level w lies below it. |
| BuddyTree.AgreementPropagates | lib/iser.c:158-159 | Once one node above the changed one agrees with the new live set, all nodes above it do: stopping early is right. |
| BuddyTree.BelowLiveIsFull | lib/iser.c:166-177 | Everything below an allocated node is full, which is what finding the node from its first unit relies on. |
| BuddyTree.EmptyTreeIsInitial | lib/iser.c:307-310 | With nothing live every node shows its own level: the tree a chunk starts with. |
| BuddyTree.TreeDeterminesLiveSet | lib/iser.c:142-177 | Two live sets with the same tree are equal: the array holds everything there is to know. |
| BuddyTree.LiveBlocksApart | lib/iser.c:179-205 | Distinct live blocks share no unit, are aligned to their size and lie in the chunk. |
| BuddyTree.StartFormula | lib/iser.c:198 | The shift that the source uses gives the first unit of a node's block. |
| Serial32.CompareRefinesCounters | lib/pdu.c:54-69 | On wrapped counters the comparison agrees with the counters if and only if they are within the half range. |
| Serial32.CompareByAge | lib/pdu.c:60-69 | For numbers less than 2^31 old the comparison orders them by age. |
| Serial32.TagsCycle | lib/pdu.c:71-84 | The tag counter runs through all values but the reserved one. |
| Serial32.TagsDistinct | lib/pdu.c:71-84 | Any 2^32 - 1 successive tags differ from each other and from the reserved value. |
| CmdSn.QueueIsGapless | lib/socket.c:111-146 | In a numbered queue the k commands carry cmdsn-k .. cmdsn-1 in queue order. |
| CmdSn.FreshCommandGoesLast | lib/socket.c:131-146 | A fresh command lands at the end of the queue if and only if all queued numbers are within the half range. |
| CmdSn.IssueKeepsNumbering | lib/iscsi-command.c:275-283 | Taking the counter and queueing a command at the end keeps the numbering. |
| CmdSn.ImmediateKeepsNumbering | lib/socket.c:119-146 | An immediate PDU goes ahead of all commands with the number of the first one, and the commands stay numbered. |
| CmdSn.DataOutKeepsNumbering | lib/iscsi-command.c:99-102 | A DATA-OUT with the number of an issued command does not disturb the commands' numbers. |
| CmdSn.DataOutFollowsItsCommand | lib/socket.c:131-146 | A DATA-OUT is placed behind its own command and all earlier ones and ahead of all later ones. |
| CmdSn.NextGoesBehind | lib/socket.c:114-117 | Two PDUs with one number keep the order in which they were queued. |
| CmdSn.BehindEqualNumbers | lib/socket.c:111-146 | A PDU is queued behind all PDUs with its number if and only if nothing newer than it stands before one of them. |
| CmdSn.TrainStandsTogether | lib/socket.c:111-146 | PDUs of one number that are queued without a pause stand together and in order, where the first of them belongs. |
| CmdSn.TrainIsNotSplit | lib/socket.c:111-146 | No PDU that is queued later comes between them. |
| CmdSn.PlaceIsFirst | lib/socket.c:131-146 | The place of insertion is the first entry that the PDU goes before, and the end if there is none. |
| CmdSn.CullKeepsNumbering | lib/pdu.c:918-941 | A scan that drops commands, renumbers the survivors and steps the counter back leaves a numbered queue. |
| CmdSn.CullCounts | lib/pdu.c:918-941 | The survivors and the dropped ones account for all commands. |
| CmdSn.CancelTaskLeavesGap | lib/iscsi-command.c:2708-2734 | Without renumbering the queue stays gapless if and only if no command stood behind the cancelled one. |
| CmdSn.CancelTaskWitness | lib/iscsi-command.c:2708-2734 | Two queued commands of which the first is cancelled: the next number is handed out twice. |
| CancelTask.CancelLeavesGap | lib/iscsi-command.c:2708-2734 | The same with the DATA-OUTs of the task, for every queue. |
| CancelTask.FindWaiting | lib/iscsi-command.c:2694-2706 | The walk finds the first waiting PDU of the task, if there is one. |
| CancelTask.TakeTask | lib/iscsi-command.c:2708-2721 | All queued PDUs of the task are collected in order and the others stay in order with their numbers. |
| CancelTask.Cancel | lib/iscsi-command.c:2685-2745 | Either one waiting PDU is cancelled and the queue is left alone, or all queued PDUs of the task leave and the first of them is cancelled and gives its number back. |
| Session.NumberingIsGapless | lib/pdu.c:918-1051 | After every allowed run of queueing, sending, scanning and cancelling, the commands sent and then the queued ones carry successive numbers, and the counter continues them. |
| Session.WindowIsRespected | lib/socket.c:873-888 | After every allowed run the unacknowledged commands on the wire are at most MaxCmdSN - ExpCmdSN + 1, computed in 32 bits. |
| Session.RunKeepsInv | lib/pdu.c:492-498 | In every allowed run the window fields are the images of counters that never move back. |
| Session.SenderNeverFindsBadNumber | lib/socket.c:882-888 | With a target that acknowledges only what was sent the error branch of the sender is dead. |
| Session.HeldExactlyWhenWindowFull | lib/socket.c:873-880 | A command is held back if and only if the target's window is used up. |
| Session.QueuedNumber | lib/socket.c:111-146 | The i'th queued command is the i'th one after those on the wire. |
| Session.LaterDataOutOvertakes | lib/socket.c:111-146 | An allowed run in which the second DATA-OUT of a command ends up before the first. |
| PduList.Add | include/slist.h:21-25 | The item becomes the first of the list. |
| PduList.AddEnd | include/slist.h:27-39 | The item becomes the last of the list. |
| PduList.Remove | include/slist.h:41-54 | The list without the item, or the same list if the item is not in it; the links of the item stay. |
| OutQueue.Context.AddToOutqueue | lib/socket.c:92-151 | The linked queue afterwards is the insertion of the stamped PDU into the queue before. |
| OutQueue.Context.IssueCommand | lib/iscsi-command.c:275-283 | The heap operation is the session's command event, and the PDU carries the counter as it was. |
| OutQueue.Context.QueueImmediate | lib/socket.c:119-129 | The heap operation is the session's event for an immediate PDU. |
| OutQueue.Context.QueueDataOut | lib/iscsi-command.c:99-102 | The heap operation is the session's DATA-OUT event. |
| OutQueue.Context.PopHead | lib/socket.c:865-915 | The heap operation is the session's send event; the head becomes the current PDU and waits for its answer unless it is deleted when sent. |
| OutQueue.Context.Scan | lib/pdu.c:909-941 | The scan is the session's scan event, keeps the survivors in order and collects the dropped ones in order. |
| OutQueue.Context.ScanOne | lib/pdu.c:1034-1051 | One round drops or renumbers one PDU and steps the counter and the gap. |
| OutQueue.Context.CancelPdus | lib/pdu.c:992-1022 | Everything queued and then everything waiting is cancelled once, in order, and the counter goes back by the queued commands. |
| OutQueue.Context.ProcessSerials | lib/pdu.c:492-498 | The update of the window is the session's event for received serials. |
| IoVector.Cursor.SkipPassed | lib/socket.c:602-618 | The head loop ends in the entry that holds the position, and the offset is the length of all entries passed. |
| IoVector.Cursor.FindLast | lib/socket.c:620-637 | Which entry the range ends in and how far, and what comes out when the 32-bit end wraps. |
| IoVector.Cursor.Locate | lib/socket.c:579-637 | The range is found if and only if the call does not refuse it; it is the right range unless the end wraps. |
| IoVector.Cursor.Edit | lib/socket.c:641-646 | First and last entry are adjusted, also when they are the same one. |
| IoVector.Cursor.Restore | lib/socket.c:667-670 | The entries are what they were before. |
| IoVector.Cursor.MoveWrapped | lib/socket.c:641-670 | With a wrapped end the kernel refuses the call and the entries are put back. |
| IoVector.Cursor.UpdateDigest | lib/socket.c:654-665 | The digest takes exactly the bytes that were moved, entry by entry. |
| IoVector.Cursor.ReadvWritev | lib/socket.c:569-681 | Refused if and only if there are no buffers, the position lies before the cursor, or the range is not accepted; otherwise exactly the requested bytes of the flat buffer move and are digested, and the entries are restored. |
| IoVector.EditedCovers | lib/socket.c:641-646 | The adjusted entries stand for exactly the requested range of the concatenated buffers. |
| IoVector.AllRangesAccepted | lib/socket.c:602-637 | All ranges in the buffers are accepted if and only if the part from the first entry of two bytes on is short of 4 GiB or out of reach. |
| IoVector.WrapWitness | lib/socket.c:622 | A range in the buffer whose end comes out before its start. |
| IoVector.TransfersCompose | lib/socket.c:569-681 | Two transfers of adjoining parts are one transfer of the whole. |
| IoVector.RunIsOneTransfer | lib/socket.c:569-681 | Any number of calls at non-decreasing positions together move and digest the bytes they reached as one call would. |
| IoVector.ReadRunDelivers | lib/socket.c:569-681 | After any run of reads the buffers hold the arriving bytes in order and the digest saw exactly these. |
| IoVector.MoveInTurns | lib/socket.c:960-983 | Calling again where the last call stopped moves a prefix of the range, and all of it once the kernel took enough. |
| IoVector.Cursor.Reset | lib/scsi-lowlevel.c:4449-4454 | The cursor is back at the beginning and the entries are unchanged. |
| PduWriter.OutPdu.SendHeader | lib/socket.c:918-942 | The next bytes of the header buffer, rounded up to four, go out; some do if the kernel takes any. |
| PduWriter.OutPdu.DigestHeaderData | lib/socket.c:944-958 | The data behind the header is digested once, if the PDU has no payload. |
| PduWriter.OutPdu.SendPayload | lib/socket.c:960-983 | Payload bytes go out in order until done, blocked or out of buffers, and the digest follows them. |
| PduWriter.OutPdu.SendPadding | lib/socket.c:985-1009 | The zero bytes up to a multiple of four go out and are digested. |
| PduWriter.OutPdu.SendTail | lib/socket.c:1011-1046 | The data digest goes out, least significant byte first, if there is one. |
| PduWriter.OutPdu.Write | lib/socket.c:917-1046 | Whatever the kernel takes, a prefix of the PDU's bytes is on the wire; done means all of them; a willing kernel means progress. |
| PduWriter.OutPdu.WriteInTurns | lib/socket.c:845-1057 | Over any number of calls the wire gets exactly header, padded payload and digest; as many calls as bytes suffice. |
| WriteLoop.Writer.WriteToSocket | lib/socket.c:845-1057 | After any call the wire holds all finished PDUs and a prefix of the current one, in the order in which they left the queue; the queue took as many send events as PDUs left it; the call stops only when the kernel, the window, the cork or the empty queue does, and a willing kernel means progress. |
| WriteLoop.Writer.WireHolds | lib/socket.c:861-1056 | Everything finished is on the wire and nothing but a prefix of the PDU in progress behind it. |
| WriteLoop.Writer.StartNext | lib/socket.c:861-915 | The head of the queue becomes the current PDU at its first byte if the window lets it; otherwise nothing changes. |
| WriteLoop.Writer.Continue | lib/socket.c:917-1046 | The PDU in progress goes on where it stopped; no queued PDU is touched. |
| WriteLoop.Writer.Complete | lib/socket.c:1048-1055 | A PDU of which all bytes are out is finished, and the connection is corked if it asks for that. |
| DataOut.LoopEnds | lib/iscsi-command.c:81-135 | The loop ends if and only if there is nothing to send or the limit is not zero. |
| DataOut.ZeroLimitNeverEnds | lib/iscsi-command.c:81-135 | With a limit of zero one byte is left after any number of turns. |
| DataOut.TrainIsTurns | lib/iscsi-command.c:81-135 | There are as many segments as turns until nothing is left. |
| DataOut.TrainIsWellFormed | lib/iscsi-command.c:81-135 | Every segment respects the limit, DataSN counts up, and F marks the last segment and no other. |
| DataOut.TrainTiles | lib/iscsi-command.c:110-135 | A burst tiles its range, without gap or overlap, if and only if its last segment begins below 2^32. |
| DataOut.TilesBelow | lib/iscsi-command.c:81-135 | The same condition in closed form: offset + (tot - 1) / limit * limit is below 2^32. |
| DataOut.TrainWraps | lib/iscsi-command.c:134 | A burst whose second segment is sent for offset zero. |
| DataOut.TilesCarryOnce | lib/iscsi-command.c:81-135 | Tiling means that each byte of the range is carried once and no other byte at all. |
| DataOut.UnsolicitedTiles | lib/iscsi-command.c:151-158 | Unsolicited DATA-OUTs tile what immediate data left of the first burst, or nothing if InitialR2T is Yes. |
| DataOut.WriteIsComplete | lib/iscsi-command.c:233-292 | The target gets each byte exactly once if and only if its R2Ts ask exactly once for exactly what was not sent unsolicited. |
| DataOut.WriteSends | lib/iscsi-command.c:233-292 | How often each byte is sent: once if unsolicited, and once for each R2T that asks for it. |
| DataOut.Context.SendDataOut | lib/iscsi-command.c:77-149 | The loop queues exactly the train of segments and leaves DataSN behind them, whenever it ends. |
| DataOut.Context.IssueWrite | lib/iscsi-command.c:231-292 | The command carries the immediate data and F if nothing follows, and the unsolicited train follows it. |
| DataOut.Context.ProcessR2t | lib/iscsi-command.c:589-602 | An R2T is answered by its train with DataSN from zero. |
| PduHeader.RoundUp4 | lib/pdu.c:336-344 | The next multiple of four. |
| Framing.PaddingSize | lib/pdu.c:336-344 | The bytes up to the next multiple of four. |
| Framing.ParseResumes | lib/socket.c:683-823 | A parse can be interrupted after any byte and resumed. |
| Framing.FailureStays | lib/socket.c:742-745 | Once a PDU is refused no later bytes change what was handed on. |
| Framing.ParseOfEncode | lib/socket.c:683-823 | A stream of well-formed PDUs is taken apart into exactly these PDUs. |
| Framing.InPdu.Store | lib/socket.c:746-784 | Arriving data goes to the user's buffers without padding, past them, or to memory of its own with padding. |
| DirectRead.ReadDirect | lib/socket.c:746-784 | In any pieces the task's buffers hold the data that arrived, the padding goes nowhere, and the stream goes on right behind; with enough turns all of it arrives. |
| DirectRead.SkipPadding | lib/socket.c:755-772 | The padding is taken from the stream, in any pieces, and nothing else. |
| DirectRead.HoldsWhatArrived | lib/socket.c:746-784 | After any part of a transfer the buffers hold the first bytes of the data segment at their place. |
| DirectRead.BuffersHoldDelivery | lib/socket.c:746-788 | When all has arrived the buffers hold exactly what a one-shot parse of the stream delivers. |
| Framing.Receiver.ReadHeader | lib/socket.c:708-736 | The header is completed from what arrives, at any speed. |
| Framing.Receiver.ReadBody | lib/socket.c:746-788 | The data is completed from what arrives, and the PDU is complete when it is. |
| Framing.Receiver.HandOn | lib/socket.c:810-816 | A complete PDU is handed on as the one-shot parse has it. |
| Framing.Receiver.ReadFromSocket | lib/socket.c:683-823 | What was handed on and kept is what a one-shot parse of all received bytes gives; a call takes some bytes if the kernel has any; it fails only when closed or given up. |
| Framing.Receiver.ReceiveInTurns | lib/socket.c:683-823 | However small the pieces, in the end all PDUs of the stream have been handed on. |
| Framing.PiecesDoNotMatter | lib/socket.c:683-823 | Two receivers of the same bytes in different pieces handed on the same PDUs. |
| Framing.StreamIsHandedOn | lib/socket.c:683-823 | While a well-formed stream arrives a prefix of its PDUs has been handed on, and in the end all of them. |
| LinearRegister.FeedIsDivision | lib/crc32c.c:112-133 | Feeding a message is dividing it, shifted up, with the start value as its leading remainder. |
| LinearRegister.BurstShowsAt | lib/crc32c.c:112-133 | Messages that differ only within one word's width leave different registers. |
| CrcTable.TableRight | lib/crc32c.c:45-110 | Each of the 256 entries is eight steps of reflected division of its index. |
| Crc32c.ByteStepRuns | lib/crc32c.c:115-117 | One table lookup is eight bit-serial steps. |
| Crc32c.ChainIsFeed | lib/crc32c.c:127-133 | The table-driven loop is bit-serial division, for every buffer. |
| Crc32c.CrcIsPolynomialRemainder | lib/crc32c.c:112-119 | The value is the polynomial remainder that section 13.1 of RFC 7143 defines. |
| Crc32c.ChainingIsOneShot | lib/crc32c.c:121-138 | Chaining over any cutting of the data and finishing gives the one-shot value. |
| Crc32c.BurstIsDetected | lib/crc32c.c:112-119 | Any corruption within 32 consecutive bits changes the value, in buffers of every length. |
| Crc32c.OddErrorIsDetected | lib/crc32c.c:112-119 | Any corruption of an odd number of bits changes the value. |
| CrcDigest.Digester.Crc32cChain | lib/crc32c.c:127-133 | The loop over a part of a buffer computes the chained value of that part. |
| CrcDigest.Digester.Crc32cOf | lib/crc32c.c:112-119 | The loop over a buffer computes its CRC. |
| CrcDigest.Digester.UpdateHeaderDigest | lib/socket.c:825-843 | The digest behind the header becomes right and nothing else changes, unless there is no room. |
| CrcDigest.Digester.CheckHeaderDigest | lib/pdu.c:528-542 | A header is accepted if and only if its digest is right. |
| CrcDigest.DamagedHeaderIsRefused | lib/pdu.c:528-542 | A header damaged within four consecutive bytes, or in an odd number of bits, is refused. |
| CrcDigest.LittleEndianRoundTrip | lib/pdu.c:530-536 | The four bytes of a digest put together again are the digest. |
| MerkleDamgard.BlocksSplit | lib/md5.c:92-98 | Whole blocks can be folded in two goes. |
| MerkleDamgard.PaddingFillsBlocks | lib/md5.c:117-127 | The padding fills whole blocks with the fewest zeros that do. |
| MerkleDamgard.DigestInOneBlock | lib/md5.c:127-133 | When the length fits behind the message the padding is one block. |
| MerkleDamgard.DigestInTwoBlocks | lib/md5.c:120-133 | Otherwise it is two. |
| Md5.Context.Update | lib/md5.c:68-102 | After any split of the message the context holds its folded blocks, its last incomplete block and its length modulo 2^64. |
| Md5.Context.Final | lib/md5.c:108-138 | The digest is the fold over the padded message of sections 3.1 and 3.2 of RFC 1321. |
| Md5.CountUp | lib/md5.c:75-77 | The two words with their carry count bytes modulo 2^64. |
| Md5.BitCount | lib/md5.c:131-132 | The shifted words hold the bit count modulo 2^64. |
| Sha.Context.AddLength | lib/sha1.c:52-56 | Eight bits are counted with carry; overflow is reported exactly at 2^61 bytes. |
| Sha.OverflowIsReportedAsNull | lib/sha1.c:52-56 | An error is stored at the byte that makes the message 2^61 bytes long and no other, and it is the one for a null pointer. |
| Sha.OverflowWitness | lib/sha1.c:52-56 | The two counters at that byte. |
| Sha.Context.Input | lib/sha1.c:121-155 | After any split of a message below 2^61 bytes the context holds its folded blocks and its rest; every error case and what it leaves. |
| Sha.Context.PadMessage | lib/sha224-256.c:400-435 | One or two blocks of padding give the digest of section 4.1 of RFC 4634. |
| Sha.Context.Finalize | lib/sha224-256.c:363-374 | The digest is computed once and for all. |
| Sha.Context.Result | lib/sha1.c:235-254 | The result is the digest of all input, however often it is asked for, or the error. |
| Sponge.AbsorbByte | lib/sha3.c:126-132 | One byte more completes a block or lengthens the rest. |
| Sponge.PadInPlace | lib/sha3.c:144-145 | Two bytes changed in place are the padding added to the state, also when they are the same byte. |
| Sponge.PaddedFillsBlocks | lib/sha3.c:144-146 | The padded message leaves no rest. |
| Sponge.Context.Update | lib/sha3.c:120-136 | After any split of the message the state is the sponge state with the rest added. |
| Sponge.Context.Final | lib/sha3.c:140-153 | The output is the sponge's on the padded message. |
| Sponge.Context.StartOutput | lib/sha3.c:170-176 | Ready for output from the absorbed state. |
| Sponge.Context.Output | lib/sha3.c:178-192 | The bytes taken so far and the new ones are the sponge's output of that length. |
| Sponge.TakeOutput | lib/sha3.c:178-192 | Output in pieces of any length is output at once. |
| Keccak.TableIsWalk | lib/sha3.c:30-33 | The position table is the walk of section 3.2.2 of FIPS 202. |
| Keccak.RotcIsTriangular | lib/sha3.c:26-29 | The rotation table holds the triangular numbers of the walk. |
| Keccak.TurnIsRhoPi | lib/sha3.c:65-72 | A turn of the loop stores what sections 3.2.2 and 3.2.3 together put there. |
| Keccak.RhoPiInPlace | lib/sha3.c:65-72 | The walk along one cycle is the simultaneous assignment, on every state. |
| Keccak.ThetaInPlace | lib/sha3.c:55-63 | The in-place loop is section 3.2.1. |
| Keccak.ChiInPlace | lib/sha3.c:74-80 | The in-place loop is section 3.2.4. |
| Keccak.Keccakf | lib/sha3.c:52-84 | The loop is the rounds of section 3.3, for any table of constants. |
| KeccakConstants.TableIsRegister | lib/sha3.c:16-25 | The constants are the ones the shift register of section 3.2.5 gives. |
| KeccakConstants.Keccakf1600 | lib/sha3.c:13-100 | All 24 rounds on 25 words of 64 bits. |
| Sha3.WordsOfBytes | lib/sha3.c:39-50 | The byte view of the words, read back as words, is the words. |
| Sha3.BytesOfWords | lib/sha3.c:86-99 | The word view of the bytes, read back as bytes, is the bytes. |
| Sha3.PermutesWords | lib/sha3.c:13-100 | Read as words, the permuted 200 bytes are the 24 rounds on the words, for every state. |
| Sha3.PermutesBytes | lib/sha3.c:13-100 | The same, starting from 25 words. |
| Sha3.KeccakfOnBytes | lib/sha3.c:13-100 | The permutation on the 200 bytes, low byte of each word first. |
| Sha3.Sha3 | lib/sha3.c:157-166 | The hash of section 6.1 of FIPS 202 for every input. |
| Sha3.Shake | lib/sha3.c:170-192 | The output of section 6.2 of FIPS 202, in pieces of any length. |
| Reconnect.NothingIsLost | lib/connect.c:422-460 | Every PDU of the old connection is freed, cancelled or issued again, and none twice. |
| Reconnect.IssuedInOrder | lib/connect.c:445-459 | Behind the queue stand the re-issued commands in order, each followed by its DATA-OUTs, with consecutive numbers. |
| Reconnect.OneCommandEach | lib/connect.c:445-459 | The commands among them are one for each survivor, in order, numbered consecutively. |
| Reconnect.IssueTask | lib/iscsi-command.c:275-292 | The task's new command and its unsolicited DATA-OUTs join the queue, the latter with the command's number. |
| Reconnect.SendTrain | lib/iscsi-command.c:151-158 | As many DATA-OUTs as the task has unsolicited segments, all with the number of the command. |
| Reconnect.MoveQueue | lib/connect.c:412-420 | What was never sent joins the end of the wait list. |
| Reconnect.HandOver | lib/connect.c:422-460 | One PDU is freed, cancelled or issued again with rewound cursors. |
| Reconnect.ReconnectDone | lib/connect.c:409-460 | The old connection is empty; cancelled are exactly the dropped PDUs with a callback, issued exactly the survivors; the new queue is the old one and their bursts; all their cursors are rewound. |
| PortGroups.GroupsPartitionPorts | lib/scsi-lowlevel.c:1198-1233 | The ports of the groups lie one behind the other and together are all ports, for every reply. |
| PortGroups.OnlyLastIsCutShort | lib/scsi-lowlevel.c:1219-1225 | Only the last group can lack ports. |
| PortGroups.DecodeOfEncode | lib/scsi-lowlevel.c:1182-1254 | A reply made of descriptors is decoded into exactly these. |
| PortGroups.Pass | lib/scsi-lowlevel.c:1201-1233 | The counting and the filling pass visit the same descriptors; the counts are those of the filled groups and ports. |
| PortGroups.Unmarshal | lib/scsi-lowlevel.c:1182-1254 | The counts of the first pass fit the second, on every reply. |
| ScsiBytes.WordOfBytes | lib/scsi-lowlevel.c:455-460 | The stored bytes read back are the value modulo 2^16. |
| ScsiBytes.LongOfBytes | lib/scsi-lowlevel.c:446-453 | The stored bytes read back are the value modulo 2^32. |
| ModePages.CachingThereAndBack | lib/scsi-lowlevel.c:3103-3148 | Marshalling and parsing the caching page gives its fields cut to their bits. |
| ModePages.PowerThereAndBack | lib/scsi-lowlevel.c:3196-3242 | The same for the power condition page. |
| ModePages.ExceptionsThereAndBack | lib/scsi-lowlevel.c:3279-3311 | The same for the informational exceptions page. |
| ModePages.BackIsSame | lib/scsi-lowlevel.c:3349-3359 | A page comes back as it was if and only if its fields fit their bits and its header says what a reply says. |
| ModePages.PageThereAndBack | lib/scsi-lowlevel.c:3057-3070 | A marshalled page anywhere in a reply is parsed as it was, and the walk goes on right behind it. |
| ModePages.PagesThereAndBack | lib/scsi-lowlevel.c:3049-3098 | Any number of marshalled pages are found again by the walk, behind any header. |
| ModePages.MarshalThenUnmarshal | lib/scsi-lowlevel.c:3316-3362 | A marshalled page read as a reply of the same kind is exactly one page with the same fields. |
| ModePages.FieldsComeBackWithoutSubpage | lib/scsi-lowlevel.c:3353-3356 | All fields of a kind of page come back if and only if it has no subpage. |
| ModePages.OnePageComesBack | lib/scsi-lowlevel.c:3353-3356 | Whether one given page comes back: its fields fit their bits, or, with a subpage, its shifted bytes give the same fields. |
| ModePages.PagesFoundBehindDescriptors | lib/scsi-lowlevel.c:3041-3098 | All lists of pages are found behind n bytes of block descriptors if and only if n is below 256. |
| ModePages.NothingFoundWrongly | lib/scsi-lowlevel.c:3041-3098 | With 256 bytes of descriptors and more a page is found in a reply that has none. |
| ModePages.DescriptorsWitness | lib/scsi-lowlevel.c:3041-3098 | Such a reply: 256 zero bytes of descriptors. |
| ModePages.MarshalCaching | lib/scsi-lowlevel.c:3103-3148 | The bytes or-ed together in place are the caching page's. |
| ModePages.MarshalPower | lib/scsi-lowlevel.c:3196-3242 | The bytes or-ed together in place are the power condition page's. |
| ModePages.MarshalExceptions | lib/scsi-lowlevel.c:3279-3311 | The bytes or-ed together in place are the informational exceptions page's. |
| ModePages.Marshal | lib/scsi-lowlevel.c:3316-3362 | A zero header and the page's bytes, or nothing for a page of unknown code. |
| ModePages.NextPage | lib/scsi-lowlevel.c:3050-3098 | The position strictly grows and the pages found are the walk's. |
| ModePages.WalkPages | lib/scsi-lowlevel.c:3049-3098 | The loop ends on every buffer, from every position, with the pages of the walk. |
| ModePages.UnmarshalReply | lib/scsi-lowlevel.c:3008-3101 | The loop ends on every buffer with the pages of the walk. |

## Left out

- RDMA verbs, sockets, polling, signals, timers and failing memory allocation: the kernel's answers, the clock and random
  numbers are parameters.
- The list of chunks in lib/iser.c and data larger than a chunk: one chunk at a time is modelled.
- BuddyAllocator.Chunk.Free: the caller frees only blocks that are live, by their first unit.
- CancelTask.Cancel: the repetition on the old connection while a reconnect is under way.
- Threads and spin locks: taking a number and queueing, and each scan, is one step.
- Session.Allowed: runs keep queued numbers within the half range that serial comparison needs, and the target
  acknowledges only what was sent, keeps its window below 2^31 and does not move it by 2^31 at once.
- Delivery of callbacks by the timeout scan and the LUN cancel: those loops never reassign their next pointer
  (lib/pdu.c:943, lib/pdu.c:1053), so only the list and numbering effects are modelled. The part of the timeout scan that
  goes over waiting PDUs is left out with it.
- Callbacks that call back into the library while a list is being worked on.
- PduList.Remove: the macro reads the first object of the list, so the list must not be empty.
- OutQueue.Context.PopHead: the ExpStatSN and the header digest that a PDU gets as it leaves the queue; the digest is in
  CrcDigest. The cork is in WriteLoop.
- WriteLoop.Writer.WriteToSocket: the header buffer of a queued PDU does not change once it is queued, no two tasks share
  an array of entries, and the data of each PDU ends below position 2^32 of its task's data.
- PduWriter.OutPdu.WriteInTurns: the payload ends below position 2^32 of the task's data and begins where the cursor can
  still reach it; what the cursor does otherwise is in IoVector, and what a call then returns in PduWriter.OutPdu.Write.
- IoVector.Cursor.MoveWrapped: a size_t of 64 bits and a kernel that refuses more than SSIZE_MAX bytes, as POSIX has it.
- IoVector.ReadRunDelivers: the buffers of a read must not overlap; overlapping ones cannot all hold what arrived.
- IoVector.MoveInTurns: ranges that end below position 2^32, and reads into buffers that do not overlap; other ranges are
  in IoVector.Cursor.ReadvWritev.
- Framing.Receiver.ReadFromSocket: without data digest, and of the errors of a read only a closed connection and one that
  has nothing yet. Which buffers belong to a header is asked once for each state of the receiver and does not change while
  a PDU arrives.
- Framing.Receiver.ReadBody: the same.
- DirectRead.ReadDirect: the same; the data lies in the task's buffers, which do not overlap, below position 2^32.
- DataOut.Context.IssueWrite: expected transfer length as an unsigned 32-bit number; header fields other than those of the
  segments, and the checks of the login state, are left out here; the latter are in Reconnect.
- DataOut.WriteIsComplete: the ranges of the R2Ts end below 2^32; which trains tile beyond that is in DataOut.TilesBelow.
- DataOut.WriteSends: the same.
- Reconnect.ReconnectDone: a login that succeeded; the branch that counts retries, and freeing the current PDU and the
  half-read PDU of the old connection, are left out. The DATA-OUT loop of each surviving write must end. A survivor that
  the new session refuses (Reconnect.Setting.Ready) is dropped without a callback; the session is a normal one
  (lib/connect.c:545) and the callback comes after the login is marked as done (lib/login.c:1548), so that this does not
  come up in a reconnect. That the new commands' tags differ is said of the tag counter (Serial32.TagsDistinct), not of
  the commands.
- Reconnect.SendTrain: offsets and lengths of the DATA-OUTs; these are in DataOut.
- Md5.Context.Final: MD5Transform is a parameter; the byte order of the output words and the wiping of the context are left
  out.
- Sha.Context.Result: the block functions are parameters; FinalBits, SHA-224, SHA-384 and SHA-512 and the byte order of the
  output words are left out.
- ModePages.Marshal: control and disconnect-reconnect pages, some of whose fields are parsed with other masks than they are
  written with.
- ModePages.UnmarshalReply: the fields of these pages; the walk passes over them as over other unknown pages.
- Login and CHAP texts, discovery, URLs, the command wrappers, name tables, logging, utilities and examples.
