# npemwin in Dafny

npemwin receives EMWIN products as a stream of 1116-byte packets, rebuilds the product files, and
sends the packets on to its own clients. This project models its packet pipeline, its WX14 reader,
its client side and its choice of upstream server, and proves what they keep over every input and
every run.

* **Packets.** `Header` prints and scans the 80-byte header. `Insert` cuts a file into packets,
  `Receive` accepts or rejects one, `DecodeBuilt` joins the two.
* **Spool.** `Spool` is the spool directory with its keys and counters and the loop of the queue
  runner. `SpoolSessions` refines it to sessions of blocks, `SpoolHistory` says on the history of
  arrivals when a product is assembled, and `SpoolKeys` when the reused keys keep sessions apart.
  `EndToEnd` follows a file from sender to assembled file among other traffic, and `Pipeline` takes it
  through the byte stream in between.
* **Byte streams.** `IoLoops` has the read and write loops over arbitrary chunking, `FrameSync` the
  search for the first packet.
* **WX14.** `Wx14` is the block reader on messages, `Wx14Packets` what it delivers from a stream of
  packets, `Wx14Device` the device with its buffers, `Wx14Feed` the device as a feed and a file that
  comes in over it.
* **Clients.** `FrameV2` builds and opens the frames, `ClientQueue` is the queue of one client,
  `ClientThread` the thread that empties it. `ConnTable` is the connection table as a value with its
  invariant, `ConnLife` the life of a connection, `TableWalk` what a pass that removes entries where it
  stands looks at and skips, `FinishedPass` the removal of finished clients, and `ConnServer` the table as
  arrays with all the loops over it. `ServerRun` puts the table, the packets and all client threads
  together.
* **Upstream.** `BbFeed` reads another server's packets and server lists, `Relay` puts two daemons in a
  row. `Servers` is the rotation among servers, `Periodic` the scheduler.

Code that changes state in the program is a class or a method here. Each such method is proved equal
to a function of the old state, and the theorems are about those functions over whole runs. What the
system decides (sockets, the clock, memory, zlib, the data base) is a parameter that may take any
value.

Where the source and its own description differ, the model follows the code:

* the queue record is written as total and received blocks and read back as received and total
  (`src/emwin.c:800-802`, `scripts/qrunner.sh.in:212`);
* the last WX14 packet found waits until the next start mark is seen;
* a pass over the client table that removes an entry does not look at the entry that moves into its
  place.

Some properties that one might expect do not hold as such. Each has an input at which it fails and the
exact condition under which it holds:

* synchronisation ends at the second packet after junk of at most 4455 bytes (`FrameSync.SyncAfterJunk`);
* an event has fired as often as it was due when at most one due time falls between calls
  (`Periodic.UpToDateIff`, `Periodic.BehindAfterPause`);
* an assembled product has all the blocks its first block announced when the two numbers of its queue
  record are equal (`SpoolHistory.GuardIsExact`, `SpoolHistory.ShortAssembly`);
* a product's files are those of its own sessions while every block 1 gets a key that is not in use
  (`SpoolKeys.RunRefines`, `SpoolKeys.StaleFileCompletes`);
* a V2 header shows the fields of its packet when their stamp begins by column 69 and the /DL tag leaves
  their columns alone (`FrameV2.SameFieldsIff`, `FrameV2.LateStampChanges`);
* the WX14 reader goes on when every packet found is full by the end of the message with the next start
  (`Wx14.ShortIff`, `Wx14.TwoMarksCutShort`).

## Model

| member | source | states |
|---|---|---|
| Pipeline.FifoRoundTrip | tools/npemwininsert/main.c:145-187 | for every file of at most 99999 parts with a valid name, its packets written to the fifo and taken from the byte stream by the reading loop are assembled: a text file as itself exactly when it has no NUL, a file that is not text as itself zero-filled |
| Pipeline.AloneOnTheLine | src/emwin.c:241-272 | all of its packets decode to the product, and only the first is a block 1 |
| Pipeline.BuiltPacket | tools/npemwininsert/emwin.c:78-134 | a built packet begins with six NULs and "/PF" and ends with six NULs |
| Wx14Feed.Wx14RoundTrip | src/emwin.c:213-234 | a file that crosses a WX14 wire among other packets, with status messages in between and no "/PF" cut, is assembled: text as itself exactly without NUL, other files zero-filled |
| Relay.RelayedFile | src/serverm.c:366-400 | a file whose packets one daemon sends to a V1 client is assembled in the same way by the daemon that is that client |
| Relay.RelayIsFaithful | src/serverm.c:336-403 | over every run of the server, what the daemon at the other end of a V1 connection reads are packets and lists that were sent while its thread ran, each whole, unchanged and in order, whatever was refused, lost or cut |
| EndToEnd.FileSurvives | scripts/qrunner.sh.in:210-246 | a text file sent among packets of other products is assembled as itself exactly when it has no NUL, a file that is not text as itself zero-filled to whole blocks; stale files and all that happened before its transmission do not matter |
| EndToEnd.RoundTrip | src/emwin.c:693-822 | after any earlier traffic, with other products interleaved before, during and after, the runner joins exactly the stored parts of the file, text parts cut at their first NUL |
| EndToEnd.RestoredText | src/emwin.c:660-679 | trimming each text block at its first NUL gives the file back if and only if the file has no NUL |
| EndToEnd.RestoredBinary | tools/npemwininsert/emwin.c:78-134 | a product that is not text comes back with zeros up to a multiple of 1024 |
| EndToEnd.Transmission | src/emwin.c:722-811 | while parts arrive in order the spool holds exactly those received so far, whatever other products do |
| EndToEnd.Undisturbed | src/emwin.c:775-811 | a product waiting for the runner is not changed by events of other products |
| Header.PrintedSize | tools/npemwininsert/emwin.c:208-249 | the header has 80 bytes exactly when part and total are at most 99999 and the checksum at most 999999 |
| Header.ScanPrinted | src/emwin.c:632-645 | scanning a printed header gives back all five fields and stops at column 68 |
| Header.ScanLocal | src/emwin.c:632-645 | a successful scan depends only on the bytes it consumed |
| Header.SlashesOfScan | src/emwin.c:632-645 | in a header that scans, with no slash in its name, every slash before the stamp begins one of the five tags |
| Header.ValueOfDecimal | tools/npemwininsert/emwin.c:208-249 | a printed number reads back as itself |
| Header.DecimalWidth | tools/npemwininsert/emwin.c:208-249 | a number fits k columns exactly when it is below ten to the k |
| Header.ScanPrintedName | src/emwin.c:632-645 | a padded name of at most 12 bytes scans back without its padding |
| Bytes.SumZeroFill | src/emwin.c:940-960 | the receiver's sum over a zero-filled block is the sender's sum over the short part |
| Bytes.SumBound | tools/npemwininsert/util.c:29-40 | a block's checksum never needs more than its six columns |
| Insert.CalcChecksum | tools/npemwininsert/util.c:29-40 | the loop gives the byte sum of the range |
| Insert.GetPartsTotal | tools/npemwininsert/emwin.c:167-176 | the number of blocks, the last one possibly short |
| Insert.GetLastPartSize | tools/npemwininsert/emwin.c:178-187 | full blocks and a last part of this size, never empty, add up to the file size |
| Insert.PartSizes | tools/npemwininsert/emwin.c:78-134 | all parts but the last are full, none is empty, and the last reaches the end of the file |
| Insert.PacketBuilder.constructor | tools/npemwininsert/emwin.c:29-68 | the builder starts before part 1 with the name cut to 12 bytes |
| Insert.PacketBuilder.Read | tools/npemwininsert/emwin.c:90-95 | a read moves the next bytes of the file into place and changes nothing else |
| Insert.PacketBuilder.BuildHeader | tools/npemwininsert/emwin.c:208-249 | the header is put in place exactly when it has 80 bytes, else the packet is unchanged and 1 is returned |
| Insert.PacketBuilder.FillData | tools/npemwininsert/emwin.c:78-103 | the next part of the file, zero-filled, with its checksum; short exactly after the last part |
| Insert.PacketBuilder.BuildPacket | tools/npemwininsert/emwin.c:78-134 | the packet of the next part, or which of the two errors |
| Insert.ProcessFile | tools/npemwininsert/main.c:145-187 | the packets of a prefix of the parts are sent in order, all of them exactly when every write succeeds and the numbers fit |
| Receive.EmwinPacket.Checksum | src/emwin.c:940-960 | 0 exactly when the header's number is the byte sum of the block |
| Receive.EmwinPacket.CheckFilename | src/emwin.c:962-1017 | accepts exactly the valid names and lowers their case |
| Receive.EmwinPacket.TrimText | src/emwin.c:660-679 | a text block ends at its first NUL |
| Receive.EmwinPacket.Interpret | src/emwin.c:632-679 | scan, checksum and name checks in order, with their error codes |
| Receive.EmwinPacket.FillSerial | src/emwin.c:573-679 | a plain packet is decoded and kept masked for sending on |
| Receive.EmwinPacket.FillBb | src/emwin.c:448-571 | a masked packet is decoded as its plain form and kept as it came |
| DecodeBuilt.DecodePacket | src/emwin.c:573-679 | every packet built from a file of at most 99999 parts with a valid name is accepted with its name, numbers, stamp and bytes |
| DecodeBuilt.NameCase | src/emwin.c:962-1017 | the upper-case name in the header becomes the spool name again |
| Spool.SameKey | src/seqnum.c:23-43 | two calls give the same key exactly when they are a multiple of 800001 calls apart |
| Spool.KeyFresh | src/seqnum.c:23-43 | a key is not among those handed out in the last 800000 calls |
| Spool.KeyClosedForm | src/seqnum.c:23-43 | the wrapping counter is a remainder of the number of calls |
| Spool.SpoolDirectory.constructor | src/seqnum.c:23-43 | the spool starts empty, before its first key |
| Spool.SpoolDirectory.GetSeqnumKey | src/seqnum.c:23-43 | the key moves to the next one and is returned |
| Spool.SpoolDirectory.SavePacket | src/emwin.c:693-822 | the block file, session record and queue record after an arrival |
| Spool.SpoolDirectory.RunRecord | scripts/qrunner.sh.in:210-246 | the joined file exactly when all counted parts exist, and what is left in the spool |
| SpoolKeys.RunRefines | src/emwin.c:693-822 | for each product by itself, the blocks of its sessions are in the spool, alone under their keys, throughout a run if and only if every block 1 of the run got a key that was good for it |
| SpoolKeys.RecentIsFresh | src/seqnum.c:23-43 | keys are good when each block 1 finds only files and records of sessions begun fewer than 800001 blocks 1 ago |
| SpoolKeys.FewFirstBlocks | src/seqnum.c:23-43 | keys are good in every run with at most 800001 blocks 1 |
| SpoolKeys.StampsFollow | src/seqnum.c:23-43 | every file and record in the spool has the key of the block 1 its session began with |
| SpoolKeys.StaleFileCompletes | scripts/qrunner.sh.in:223-240 | after 800001 sessions a product that lost its block 2 is assembled with block 2 of an abandoned product |
| SpoolSessions.FirstBlockSound | src/emwin.c:722-795 | a block 1 starts a session with files of its own exactly when its key was not in use |
| SpoolSessions.LaterBlockSound | src/emwin.c:722-811 | a later block joins its own session |
| SpoolSessions.OtherSlotSound | src/emwin.c:722-811 | a block of another session leaves a session alone, a block 1 exactly when its key is another |
| SpoolSessions.RunCounts | src/emwin.c:735-811 | in every run, whatever keys are reused, the counters tell a session's length and the total its first block announced |
| SpoolSessions.ProcessSound | scripts/qrunner.sh.in:210-246 | running one record leaves every other session intact |
| SpoolSessions.ProcessIsAssembly | scripts/qrunner.sh.in:223-240 | counting arrivals is a right completeness test: it succeeds exactly when each number came once, and joins the blocks in order |
| SpoolSessions.CoversIsEachOnce | scripts/qrunner.sh.in:223-235 | k blocks that cover 1..k hold each number exactly once |
| SpoolSessions.EachOnceCovers | scripts/qrunner.sh.in:223-235 | k blocks in 1..k without repeats leave no number out |
| SpoolHistory.AssembledIff | scripts/qrunner.sh.in:210-246 | after any history, a file is assembled exactly when the latest ended and unprocessed session holds each of 1..k once, and then it is those blocks in order; only keys issued since that session began matter |
| SpoolHistory.WholeOutcome | scripts/qrunner.sh.in:223-240 | a waiting session with each number once is assembled whatever stale files there are, if no key went to two sessions at a time |
| SpoolHistory.WaitingOutcome | scripts/qrunner.sh.in:210-246 | what the runner makes of a waiting session is read off its blocks |
| SpoolHistory.RecordNumbers | src/emwin.c:795-811 | the two numbers of the queue record are the announced total and the number of blocks received |
| SpoolHistory.GuardIsExact | scripts/qrunner.sh.in:215-220 | the announced blocks came exactly once each if and only if the product is assembled and its record passes the test whose `continue` is commented out |
| SpoolHistory.AssembledIffAllOnce | src/emwin.c:722-811 | with a constant total n, a product is assembled exactly when each block 1..n was saved once since its last block 1 |
| SpoolHistory.OpenHistory | src/emwin.c:722-795 | a product is being received exactly when a block 1 has come and no last block since, with the blocks since then |
| SpoolHistory.QueuedHistory | src/emwin.c:795-811 | a product waits for the runner exactly when its latest session ended and was not run, with that session's blocks |
| SpoolHistory.SessionNeedsAll | scripts/qrunner.sh.in:212-235 | with a constant total, an ended session is complete exactly when it has every number once |
| SpoolHistory.ShortAssembly | scripts/qrunner.sh.in:212-240 | without that test two blocks of an announced three are assembled |
| IoLoops.Source.Read1 | src/nreadn.c:57-107 | at most the bytes asked for, from the front of the stream, or which interruption came first |
| IoLoops.Source.ReadM | src/nreadn.c:140-184 | the outcome depends on the bytes before the first interruption and on its kind, never on how they were chopped |
| IoLoops.WriteM | src/nreadn.c:191-207 | what reaches the descriptor is a prefix of the buffer of the size accepted, and the result says so |
| FrameSync.StageStep | src/emwin.c:301-337 | the stage is always the longest prefix of the mark just read, minus one |
| FrameSync.StageThree | src/emwin.c:301-337 | the last stage is reached exactly at a mark |
| FrameSync.SyncDevice | src/emwin.c:285-351 | stops at the first mark within the allowed reads and leaves the reader after that packet, or fails |
| FrameSync.SyncRestAt | src/emwin.c:285-351 | where the reader stands depends only on the place of the first mark |
| FrameSync.SyncAfterJunk | src/emwin.c:285-351 | after junk without a mark the reader ends at the second packet if and only if the junk is at most 4455 bytes |
| FrameSync.GetPacket | src/emwin.c:241-272 | the next 1116 bytes and their verdict, or the code of the interruption |
| FrameSync.SyncSerial | src/emwin.c:353-380 | retries as allowed until one packet after synchronisation is good, and which code is returned when that fails |
| FrameSync.SerialAfterJunk | src/emwin.c:353-380 | for every number of retries, junk and then packets leave the reader at the third packet |
| FrameSync.PacketsOfStream | src/emwin.c:241-272 | a stream of whole packets is read back packet by packet |
| FrameSync.ReadWhileGood | src/npemwin.c:190-214 | the loop over one connection takes the packets of the stream up to the first bad one, for every chunking |
| Wx14.SessionExact | src/wx14_emwin.c:17-73 | for any stream in messages of at most 1110 bytes, the blocks are those from each start found, in order, each once, up to the first packet not full when the message with the next start ends; else the last one is pending |
| Wx14.ShortIff | src/wx14_emwin.c:41-73 | the reader gives up if and only if some packet is cut short in that way |
| Wx14.TwoMarksCutShort | src/wx14_emwin.c:41-73 | two marks in messages of their own make it give up |
| Wx14.InitPart | src/wx14_emwin.c:17-39 | the partial block has more than 6 and at most 1116 bytes after the first start |
| Wx14.ReadBlockPart | src/wx14_emwin.c:41-73 | a delivered block has 1116 bytes and the partial block stays within 6 to 1116 |
| Wx14.InitWhere | src/wx14_emwin.c:17-39 | the search ends at the first start of the stream |
| Wx14.ReadWhere | src/wx14_emwin.c:41-73 | one read gives the block of the current start and moves to the next, or says why not |
| Wx14.DeliverWhere | src/wx14_emwin.c:41-73 | repeated reads give one block for each start but the last |
| Wx14Packets.AllDelivered | src/wx14_emwin.c:153-223 | when no message boundary cuts a "/PF", all packets but the pending last are delivered unchanged, for every chopping |
| Wx14Packets.UncutPacketsDelivered | src/wx14_emwin.c:153-210 | for every chopping, exactly the packets whose mark is whole in one message are delivered, in order, and the reader never gives up |
| Wx14Packets.BlocksStartAtMarks | src/wx14_emwin.c:95-151 | on any stream, every block is six zeros and 1110 consecutive bytes of the payloads from a mark on |
| Wx14Packets.StartsAreMarks | src/wx14_emwin.c:153-210 | nothing is taken for a start but a mark of the stream |
| Wx14Packets.StartIsWhole | src/wx14_emwin.c:153-210 | a message has a start exactly when a mark lies whole in it |
| Wx14Packets.StartsAreUncutMarks | src/wx14_emwin.c:153-210 | on a stream of packets the starts are exactly the uncut marks |
| Wx14Packets.PacketsAreGridded | src/wx14_emwin.c:153-210 | well-formed packets make marks only at their own headers |
| Wx14Device.ParseWire | src/wx14_private.c:110-163 | a message of at most 1116 bytes in the wire format is read back, whatever follows it |
| Wx14Device.PayloadsOfWire | src/wx14_private.c:64-82 | status messages that fit the buffer do not disturb the EMWIN payloads |
| Wx14Device.WireFits | src/wx14.h:30-37 | messages of at most 1116 bytes never need more than the message buffer |
| Wx14Device.WireDelivered | src/wx14_private.c:18-82 | from the wire, with any status messages that fit the buffer in between and for every chopping, exactly the packets with an uncut mark are delivered in order |
| Wx14Device.WireDeliversAll | src/wx14_private.c:18-82 | and all packets but the pending last when no message boundary cuts a "/PF" |
| Wx14Device.Wx14Reader.ReadN | src/wx14_private.c:87-108 | all the bytes asked for are put in their place in the buffer, or which error |
| Wx14Device.Wx14Reader.ReadMsgHeader | src/wx14_private.c:110-150 | the type and data size of the message that comes, which fits the buffer |
| Wx14Device.Wx14Reader.ReadMsg | src/wx14_private.c:18-28 | the first message of the stream exactly when it is whole, left in the buffer as it came |
| Wx14Device.Wx14Reader.ReadEmwinMsg | src/wx14_private.c:64-82 | the next EMWIN payload exactly when there is one |
| Wx14Device.Wx14Reader.FindStart | src/wx14_emwin.c:153-210 | the first "/PF", or else the slash after six NULs |
| Wx14Device.Wx14Reader.FindEnd | src/wx14_emwin.c:212-223 | whether the message fills the block, and where |
| Wx14Device.Wx14Reader.StartBlock | src/wx14_emwin.c:95-110 | six zeros and the message from the start on |
| Wx14Device.Wx14Reader.AppendBlock | src/wx14_emwin.c:140-151 | the message goes after what was there |
| Wx14Device.Wx14Reader.EndBlock | src/wx14_emwin.c:112-138 | the full block is copied out before the next one is begun |
| Wx14Device.Wx14Reader.InitBlock | src/wx14_emwin.c:17-39 | the device finds the first packet exactly when the payloads have a start |
| Wx14Device.Wx14Reader.ReadNext | src/wx14_emwin.c:41-73 | the device delivers the block of the message-level reader, with its error codes |
| Wx14Device.Wx14Reader.ReadOn | src/emwin.c:213-234 | repeated reads of the device give the blocks of the message-level reader |
| Wx14Device.Wx14Reader.ReadAll | src/emwin.c:213-234 | and, from the first start on, those of a whole session |
| Wx14Feed.GetPacketWx14 | src/emwin.c:213-234 | the next block and whether it decodes, with the code for one that does not |
| Wx14Feed.SyncWx14 | src/emwin.c:382-415 | opening the device: searches for a start as often as allowed until one packet decodes, and where the reader then stands |
| Wx14Feed.OpenTakesFirst | src/emwin.c:382-415 | opening takes one good packet and leaves all the others, for every number of retries |
| Wx14Feed.TakenFromWire | src/emwin.c:213-234 | from the wire, the open device gives exactly the packets between the first and the pending last |
| Wx14Feed.BuiltIsWellFormed | tools/npemwininsert/emwin.c:78-134 | a built packet is well formed on the wire exactly when it has no start mark but its own |
| FrameV2.V2PreservesMeaning | src/v2.c:25-138 | a V2 frame is at most 1120 bytes with its size in front, and is the V1 frame or opens to the original block and its compressed size; for a packet that decodes its header fields are the same if and only if their stamp begins by column 69 and the tag leaves their columns alone |
| FrameV2.OpenFrame | src/v2.c:25-60 | opening undoes building |
| FrameV2.TagReadsBack | src/v2.c:115-138 | the /DL number reads back as the compressed size |
| FrameV2.SameFields | src/v2.c:62-138 | a header keeps its fields when the tag leaves their columns alone |
| FrameV2.SameFieldsIff | src/v2.c:62-138 | and only then, for every header with no slash in its name, whose stamp then begins by column 69 |
| FrameV2.StampBeginsEarly | src/v2.c:115-138 | no header with a slash-free name reads across the tag |
| FrameV2.LateStampChanges | src/v2.c:115-138 | a header with two or more blanks too many after its checksum shows other fields in its V2 frame |
| FrameV2.StandardLayout | src/v2.c:62-138 | every header in the standard layout ends its fields before the tag |
| FrameV2.UnpackPack | src/util.c:178-203 | a 32-bit number is read back from its four bytes |
| FrameV2.MaskRange | src/v2.c:49-54 | the payload is masked and nothing else is touched |
| FrameV2.Raw1ToRaw2 | src/v2.c:62-138 | the tagged header and compressed block, or 1 when there is none that fits |
| FrameV2.BuildQueueDataV2 | src/v2.c:25-60 | the frame written in place is the specified one, with its size and ratio |
| FrameV2.FormFrames | src/emwin.c:497-515 | the V1 frame always, and the V2 frame or its V1 fallback |
| ClientQueue.Accounting | src/libqdb/qdb.c:126-225 | under all interleavings the counter is the number of records, within a positive hard limit, first in first out, and the hard flag tells whether the last send was refused |
| ClientQueue.PayloadOfPadded | src/serverc.c:92-101 | framing, padding and unframing give the payload back |
| ClientQueue.QueueTable.constructor | src/libqdb/qdb.c:23-98 | a queue starts empty without flags |
| ClientQueue.QueueTable.Send | src/libqdb/qdb.c:126-177 | the record is added, or refused at the hard limit, or lost to an error, with flags and status |
| ClientQueue.QueueTable.Receive | src/libqdb/qdb.c:179-225 | the oldest record, or why there is none |
| ClientThread.ClientOutput | src/serverc.c:75-108 | for every interleaving the client gets whole payloads of its queue in order and at most one cut payload at the very end |
| ClientThread.SilentForever | src/serverc.c:180-216 | after a cut payload the thread never writes again, whatever happens later |
| ClientThread.SilentAfterCut | src/serverc.c:180-216 | no single step takes or writes anything after a cut payload |
| ClientThread.NothingLost | src/libqdb/qdb.c:425-494 | without a failed truncate the payloads taken are the first ones queued |
| ClientThread.RunKeeps | src/serverc.c:32-73 | the relation between queue, thread and output holds in every reachable state |
| ClientThread.ThreadState.constructor | src/serverc.c:32-73 | a thread starts with nothing written |
| ClientThread.ThreadState.Periodic | src/serverc.c:147-178 | the data base error flag sets the exit flag |
| ClientThread.ThreadState.Loop | src/serverc.c:75-108 | one turn is a receive step followed by a write step of the protocol |
| ConnTable.ReachableIsGood | src/libconnth/conn.c:94-218 | in every reachable state the table fits its arrays, descriptors agree, the client count is right and within its limit, entry 0 is the server, no two entries share an address, threads and queues belong to identified clients |
| ConnTable.ApplyKeeps | src/libconnth/poll.c:191-289 | every accept, drop, login, thread start and thread end keeps that invariant |
| ConnTable.NeverRestores | src/libconnth/poll.c:347-401 | the branch that restores a closed connection is never taken |
| ConnTable.RestoreKeeps | src/libconnth/poll.c:347-401 | after the search for an old connection no entry has the new client's address |
| ConnTable.DelKeeps | src/libconnth/conn.c:137-185 | removing any client keeps the invariant |
| ConnTable.AddKeeps | src/libconnth/conn.c:94-135 | adding a client with a new address below the limit keeps the invariant, also when growing fails |
| ConnTable.FindByIp | src/libconnth/conn.c:358-375 | the first entry with the address, or -1 exactly when there is none |
| ConnLife.LifeCycle | src/appdata.c:48-84 | over every run a connection keeps its address and descriptor, its protocol once it has one, and its thread and queue once it has them |
| ConnLife.NumbersAreNotReused | src/libconnth/conn.c:94-135 | an entry not there before is a connection accepted later |
| ConnLife.StepDescends | src/serverm.c:161-224 | every entry after a step is an old one that evolved or a new connection |
| TableWalk.WalkFates | src/libconnth/conn.c:137-185 | in any pass that removes entries where it stands, an entry is skipped exactly when the one before it was removed |
| FinishedPass.PassIsKept | src/serverm.c:280-298 | one pass removes exactly the 1st, 3rd, 5th... of each run of stopped clients |
| FinishedPass.KeptAlive | src/serverm.c:280-298 | a pass removes no client that is not stopped and keeps their order |
| FinishedPass.KeptHalf | src/serverm.c:280-298 | at most half of the stopped clients survive a pass |
| FinishedPass.PassesFinish | src/serverm.c:280-298 | k passes leave exactly the clients that are not stopped, when fewer than 2^k were stopped |
| ConnServer.ConnectionTable.constructor | src/serverm.c:106-124 | the table starts with the listening socket alone |
| ConnServer.ConnectionTable.Grow | src/libconnth/conn.c:187-218 | both arrays double, or the contents are as before when either cannot |
| ConnServer.ConnectionTable.AddElement | src/libconnth/conn.c:94-135 | the entry is appended without an event, or nothing changes |
| ConnServer.ConnectionTable.DelElement | src/libconnth/conn.c:137-185 | the entry is gone from all arrays, the others keep their order, and the counts follow |
| ConnServer.ConnectionTable.FindByIp | src/libconnth/conn.c:358-375 | the loop gives the first entry with the address |
| ConnServer.ConnectionTable.Restore | src/libconnth/poll.c:347-401 | an open old connection is deleted together with its events |
| ConnServer.ConnectionTable.AddConnection | src/libconnth/poll.c:191-289 | the client is added, or turned away by address, access list or limit, with the source's codes |
| ConnServer.ConnectionTable.ProcessFinished | src/serverm.c:280-298 | the loop is the pass of `FinishedPass` |
| ConnServer.ConnectionTable.Identify | src/appdata.c:21-85 | the protocol is set only if unknown, from the last two characters |
| ConnServer.ConnectionTable.ProcessUnidentified | src/serverm.c:300-334 | the loop is the walk that changes or drops late clients |
| ConnServer.LateClients | src/serverm.c:300-334 | a late client is skipped exactly after a dropped entry, every other is taken for V1 or dropped, clients that are not late are never touched |
| ConnServer.ConnectionTable.SpawnThreads | src/serverm.c:542-598 | the loop is the walk that gives threads to identified clients |
| ConnServer.SpawnedClients | src/serverm.c:542-598 | an identified client is skipped exactly after a dropped entry, every other gets its thread and queue or is dropped, the rest is never touched |
| ConnServer.ConnectionTable.HandleClient | src/serverm.c:161-224 | the client is identified, or dropped when it hung up or a V2-only server rejects it |
| ConnServer.ConnectionTable.PollClients | src/libconnth/poll.c:124-138 | the loop over ready clients with removals, as a function of table and events |
| ConnServer.QuietStay | src/libconnth/poll.c:111-138 | a client without an event is still there, unchanged, after that loop |
| ConnServer.PollFates | src/libconnth/poll.c:111-138 | a client is skipped, with its event, exactly when the entry before it was dropped, and every other is served |
| ConnServer.PollSpares | src/libconnth/poll.c:83-138 | a client accepted in the same call is not mistaken for a ready one, and quiet clients from other addresses stay |
| ConnServer.ConnectionTable.PollServers | src/libconnth/poll.c:83-109 | the listening socket takes one connection when it is readable |
| ConnServer.ConnectionTable.PollLoop | src/libconnth/poll.c:62-139 | accept first, then the clients, with the source's results; the invariant holds after it |
| ConnServer.ConnectionTable.ProcessConnections | src/serverm.c:245-278 | the whole turn: the passes over finished, late and new clients and then the sockets, as a run of the elementary operations that keeps the invariant |
| ConnServer.ConnectionTable.SendQueues | src/serverm.c:336-403 | each client that runs when the loop comes to it is offered the packet once in the frame of its protocol, no other queue changes, and no running client has an unknown protocol |
| ServerRun.ServerOutput | src/serverm.c:366-400 | over every interleaving of table operations, packets and thread steps, a connection gets, in order and whole but for the end of the last, payloads, in the protocol with which its thread began, of packets that came while it ran, and nothing else |
| ServerRun.OneProtocol | src/serverm.c:366-400 | that protocol accounts for all that a connection is ever offered |
| ServerRun.ProtocolStays | src/appdata.c:48-84 | it is settled when the thread begins and stays the same when the connection is gone |
| ServerRun.RunningHasQueue | src/libconnth/ce.c:83-135 | in every reachable state each running client has its queue |
| ServerRun.SendIsOffer | src/serverm.c:385-393 | the sending loop and the run do the same to each queue |
| BbFeed.NextOfWire | src/emwin.c:160-211 | a masked packet or server list is read back whole, whatever follows it |
| BbFeed.NoItem | src/bb.c:124-161 | a packet or list that is cut is not taken for one |
| BbFeed.ItemsOfStream | src/emwin.c:160-211 | a stream of packets and lists is read back one by one, up to one that is cut |
| BbFeed.ReadList | src/bb.c:124-161 | the list up to its fourth backslash, exactly when that comes within a packet's size |
| BbFeed.GetPacketBb | src/emwin.c:160-211 | the next packet or list of the stream exactly when there is a good one, for every chunking, and the codes of the other outcomes |
| BbFeed.ReadServer | src/emwin.c:66-117 | a connection takes all items of the stream but the first, which shows that the server is there |
| Relay.ReceivesOffered | src/serverc.c:75-108 | what a client thread sends is read as some of the items offered to it, each whole, in their order |
| Relay.Arrived | src/serverc.c:180-216 | when no queue operation fails, the first items offered are the first read, once their bytes are out |
| Relay.BuiltIsRelayable | tools/npemwininsert/emwin.c:78-134 | every packet built from a file can be relayed |
| Servers.NoneIff | src/servers.c:84-151 | "no servers available" is reported exactly by a refusal that follows max+1 others since the last connection or report, and those attempts go round the list in order |
| Servers.EveryServerRefused | src/servers.c:84-151 | every server of the list refused one of those attempts |
| Servers.BadCountBounded | src/servers.c:174-195 | with a positive limit no server's count ever passes it, so testing for equality is as good as "at least" |
| Servers.PickBelow | src/servers.c:86-118 | the server about to be tried is always below the limit |
| Servers.SessionBelow | src/servers.c:387-419 | a connection adds at most one mark |
| Servers.RunFollows | src/npemwin.c:156-214 | in every run the refused counter is the length of the current streak, and each refusal moves to the following server |
| Servers.EmwinServers.constructor | src/servers.c:330-356 | the list starts at its first server with clear counters |
| Servers.EmwinServers.NextServer | src/servers.c:84-151 | which server is tried, and the counters after it |
| Servers.EmwinServers.UpdateStats | src/servers.c:387-419 | the counters after a packet |
| Servers.EmwinServers.RunLoop | src/npemwin.c:156-214 | one attempt and, when it connects, packets up to the first that is not good |
| Periodic.NoDrift | src/per.c:76-81 | for every sequence of calls, the next due time is the start plus a whole number of periods, one more than were fired |
| Periodic.FiresWhenDue | src/per.c:103-111 | for every clock, an event fires at a call exactly when its next due time has come, so never early |
| Periodic.FiredIs | src/per.c:103-111 | while the clock does not go back, a call makes up for at most one missed due time |
| Periodic.UpToDateIff | src/per.c:103-111 | after every call the event has fired as often as it was due, exactly when no two due times fall between calls |
| Periodic.NoDriftWhenCalledOften | src/per.c:103-111 | calls at most a period apart are enough for that |
| Periodic.BehindAfterPause | src/per.c:103-111 | after a pause of two periods the event is one behind until the next call |
| Periodic.Scheduler.constructor | src/per.c:61-87 | every event is first due one period after the start |
| Periodic.Scheduler.Call | src/per.c:89-119 | each event follows its own schedule whatever the others do, and a minutely one fires when the minute has changed |

## Left out

- SpoolHistory.AssembledIffAllOnce: asks for the same total in all blocks of the product; `SpoolHistory.GuardIsExact` says what holds without.
- Spool.SpoolDirectory.SavePacket: does not model errors of the file system or what an earlier temporary file leaves behind.
- Spool.SpoolDirectory.RunRecord: one record is handled in one step, and unzipping, `tr`, md5 duplicates, filters and purging are not modelled.
- Receive.EmwinPacket.CheckFilename: rejects names shorter than four bytes, where the program looks at bytes before the buffer.
- Receive.EmwinPacket.Interpret: numbers are unbounded where the program's would overflow, the scan ends with the 1104 bytes of the packet, and a stamp shorter than 22 bytes is no match, on which C libraries differ.
- Insert.PacketBuilder.BuildHeader: returns 1 for a header that is not 80 bytes, where the program's assertion stops it first.
- Insert.GetPartsTotal: sizes are unbounded; the program's `int` limits them.
- Wx14.SessionExact: payloads of at most 1110 bytes, as the program's size arithmetic needs.
- Wx14Device.WireDelivered: messages of at most 1116 bytes, the room in the program's message buffer; the device library assumes that and does not look.
- Wx14Device.Wx14Reader.ReadMsg: asks that no message announces more data than the buffer has room for, nor an EMWIN message a length of 0, for which the program's size wraps around.
- BbFeed.GetPacketBb: for a server list that cannot be read it says that the read fails, not with which code.
- Relay.RelayedFile: V1 connections only; a daemon does not read V2 frames.
- ConnServer.ConnectionTable.PollOne: a hangup whose release fails stops the program, so its status is taken as 0.
- ConnServer.ConnectionTable.SpawnThreads: a queue or thread that cannot be created drops the client; the queue left behind by a failed thread creation is not modelled.
- ConnServer.ConnectionTable.SendQueues: the queues are a map from connections instead of pointers in the entries.
- Servers.EmwinServers.NextServer: the list is not reloaded during a run, and the clock never gives 0.
- Sockets, serial lines, fifos, poll(2), name lookup, access lists and the clock are parameters.
- zlib is any pair of functions of which one undoes the other; Berkeley DB is a sequence of padded records.
- Locks are atomic steps; cancelling a thread may happen between any two of its steps.
- Local (Unix socket) clients of the connection library, which the server does not use.
- Saving a server list, the prefilter on product names, the login message sent upstream, signal statistics, logging, configuration, Tcl and shell tools.
- The start of the queue runner from the scheduler.
