# Verified model of a CIFS media-streaming client

This project models the parts of a Rust SMB/CIFS client that stream a file to a
media player, and proves what they promise. `dafny verify dfyconfig.toml` checks
all of it.

The main path is modelled from the player down to the multiplexed connection:

- a **streaming buffer**, a queue of chunks that is a flat byte queue
  (`StreamingBuffer.dfy`);
- the **planner, fill loop, prefill, seek and read** of the streaming worker, once
  as functions on values with theorems over whole runs (`StreamSpec.dfy`,
  `StreamRuns.dfy`) and once as the classes the program has, proved to compute
  those functions (`Worker.dfy`, `MediaStream.dfy`);
- the **session**, which sends requests under 16-bit multiplex ids and matches
  replies that arrive in any order (`Multiplex.dfy` as a state machine of client
  and server, `Pipeline.dfy` for batches against one read at a time,
  `Transactions.dfy` for commands with several replies, `Cifs.dfy` as the class,
  proved to compute the functions of both). The server is an object of its own:
  between any two steps of the client it may answer any outstanding request. How
  far it is trusted is a parameter: not at all, never more than requested, some
  true bytes, all true bytes. A session is *serving* when its connection is steady,
  nothing is left to come, and the server answers every read of the file with some of
  its bytes; from there on nothing fails (`ServedBatch`, `Play`);
- the **range read** behind the C interface (`RangeRead.dfy`).

Around it stand the formats: fragment reassembly (`Collector.dfy`), NetBIOS
framing (`NetBios.dfy`, section 4.3.1 of RFC 1002), the NTLM two-pass layout
(`Ntlm.dfy`, [MS-NLMP] section 2.2.1), the SMB envelope, reads and Transact2
messages (`Smb.dfy`, [MS-CIFS] section 2.2.4.46), UTF-16, UTF-8 and flag words
(`Text.dfy`), directory chains and paged listing (`Directory.dfy`, `Listing.dfy`),
and the natural sort key (`NaturalKey.dfy`).

## Where the code falls short of its promise

Each of these is proved with its exact condition and an input or a run that meets it.

- **Short replies inside a batch.** A batch of reads is planned for full lengths,
  but pushed by actual lengths (src/lib.rs:596-602, 627). A short reply that is not
  the last of its batch shifts every byte after it (`ShortReplyExample`).
  `BatchFaithfulIff`: a batch is faithful for every file exactly when, of the replies
  before the first empty one, all but the last have full length. With a pipeline
  depth of 1 any non-empty reply will do.
- **Reused ids.** The id counter is a `u16` bumped with `+= 1` (src/lib.rs:1470);
  without overflow checks it wraps after 65536 sends. `ReuseIff`: the new request is
  answered rightly in every order of answers exactly when no live request carries
  its id; `WrapMisleads` is a run in which one does. A batch begun with nothing live
  is always safe; replies of abandoned requests stay live until they are taken,
  which may be never. Theorems about the session therefore carry the flag `stale`,
  which can be set only after more than 65536 sends.
- **False duplicates.** A transaction may have several reply fragments under one
  id. When its caller gives up, two late fragments make the next command fail with a
  duplicate error (`AbandonedTransactionFails`). `DuplicateIff`: a receive can fail so
  exactly when its reply is not put aside yet and another id is both put aside and
  still owed a frame, or owed two. Over whole sessions: the next command is safe exactly
  when every earlier one ended with at most one reply still to come (`SessionIff`). With
  one reply per request this cannot happen (`EveryRunSafe`).
- **A zero prefix.** A chain whose last entry has prefix zero is accepted by
  FindFirst2 and refused by FindNext2 (`ChainsAgreeIff`, `ZeroPrefixExample`).
- **Panics.** A Transact2 request whose data offset exceeds 16 bits panics instead of
  failing (`WriteTransact2`, `WideParameterExample`). So do replies, directory entries and NTLM messages that
  contradict their own counts (`ReadReplyPanicIff`, `TransactReplyPanicIff`,
  `DirInfoPanicIff`, `ChallengePanicIff`, each with an input of its own). The model
  returns `Panic` in those places.

## Model

| member | source | states |
|---|---|---|
| `StreamingBuffers.StreamingBuffer.Push` | src/lib.rs:414-421 | the queue of chunks behaves as one flat byte queue: pushing appends the chunk, whatever the chunking, and never stores an empty chunk |
| `StreamingBuffers.StreamingBuffer.PopBytes` | src/lib.rs:423-438 | gives a non-empty front piece of at most the length asked for and keeps the rest in order; gives nothing exactly when nothing is asked for or stored |
| `StreamingBuffers.StreamingBuffer.PopBlock` | src/lib.rs:440-462 | for every chunking, gives exactly the first min(asked, stored) bytes and leaves exactly the others; the gathering loop ends |
| `StreamingBuffers.StreamingBuffer.Clear` | src/lib.rs:409-412 | drops everything stored |
| `StreamSpec.PlanClosedForm` | src/lib.rs:560-606 | planning in closed form: request i starts i chunks after the source position, each is 1..min(chunk size, 65534) long, all but the last are whole chunks, none passes the end of the file, and the total is the deficit capped by the number of requests |
| `StreamSpec.PlanFromTotal` | src/lib.rs:574-603 | the total and the emptiness of a planned batch, for every start of the planning loop |
| `StreamSpec.PlanFromAt` | src/lib.rs:574-603 | where the i-th planned request stands and how long it is |
| `StreamSpec.PlanContiguous` | src/lib.rs:560-606 | planned requests follow one another without gap from the source position, and never ask for more than the watermark leaves free |
| `StreamSpec.PlanBounds` | src/lib.rs:560-606 | every planned request fits a legacy read, and there is none at the end of the file |
| `StreamSpec.PushBatchKeeps` | src/lib.rs:608-635 | whatever a batch contains, and wherever it fails, the positions stay consistent, playback does not move, and bytes are only added at the end |
| `StreamSpec.PushBatchBound` | src/lib.rs:717-727 | replies no longer than requested add no more than was planned |
| `StreamSpec.PushBatchProgress` | src/lib.rs:608-635 | an accepted batch moves the source position forward, never past the end of the file |
| `StreamSpec.PushBatchFaithful` | src/lib.rs:608-635 | true bytes at full length, the last reply excepted, keep the buffer equal to the file's bytes between the two positions |
| `StreamSpec.PushBatchAll` | src/lib.rs:608-635 | short replies are all accepted one after the other, even where the source position lags behind what the batch was planned for |
| `StreamSpec.ShortReplyMisplaces` | src/lib.rs:596-602 | after any short reply inside a batch, a file exists whose bytes end up at the wrong position although every reply was true |
| `StreamSpec.FullRepliesFaithful` | src/lib.rs:717-727 | with every reply but the last at full length, any file is kept faithfully |
| `StreamSpec.NonEmptyFaithfulIff` | src/lib.rs:596-635 | the same for batches without an empty reply |
| `StreamSpec.PushBatchUntil` | src/lib.rs:608-615 | an empty chunk before the end of the file ends the batch: only what comes before it is pushed |
| `StreamSpec.BatchFaithfulIff` | src/lib.rs:596-635 | the exact condition, for replies of any lengths up to those requested: a batch is faithful for every file if and only if, of the replies before the first empty one, all but the last have their full length |
| `StreamSpec.ShortReplyExample` | src/lib.rs:596-635 | a fresh stream whose plan has two requests: a short first reply turns the file 10 11 12 13 into 10 12 13 |
| `StreamRuns.FillKeeps` | src/lib.rs:693-731 | a fill, failed or not, keeps the invariant and moves neither playback nor the bytes already buffered |
| `StreamRuns.FillDone` | src/lib.rs:700-707 | a successful fill ends at the end of the file or with the goal (capped by the high watermark) buffered |
| `StreamRuns.FillBound` | src/lib.rs:569-603 | no fill overshoots its goal when no reply is longer than requested |
| `StreamRuns.FillLevel` | src/lib.rs:693-731 | a successful fill leaves exactly max(what was buffered, min(goal, high watermark, rest of the file)), also with short replies |
| `StreamRuns.FillTerminates` | src/lib.rs:700-728 | for any replies a fill takes at most as many batches as there are bytes from the source position to the end of the file |
| `StreamRuns.FillFaithful` | src/lib.rs:693-731 | with true full-length replies a fill leaves the buffer the file's |
| `StreamRuns.FillGrows` | src/lib.rs:693-731 | a successful fill of an empty unfinished buffer brings at least one byte |
| `StreamRuns.ReadNeverStalls` | src/lib.rs:738-753 | a successful read gives nothing exactly when nothing was asked for or the stream was finished; otherwise a block of exactly min(asked, buffered after the fill), whatever the replies |
| `StreamRuns.ReadAmount` | src/lib.rs:738-753 | with replies no longer than requested, a successful read of n bytes gives exactly min(n, max(what was buffered, min(high watermark, rest of the file))); and only if less than n was buffered it fetches, leaving given + buffered at max(what was buffered, min(max(n, low watermark), high watermark, rest of the file)) |
| `StreamRuns.ReadMoves` | src/lib.rs:637-653 | a read, failed or not, moves playback by exactly what it gives; one that finds enough buffered, or the end of the file, succeeds and only moves bytes |
| `StreamRuns.PrefillLevel` | src/lib.rs:492-496 | a prefill does nothing at the end of the file or above the low watermark; otherwise, when it succeeds, it leaves exactly max(what was buffered, min(high watermark, rest of the file)) |
| `StreamRuns.SeekFromStart` | src/lib.rs:1738-1752 | a seek to an offset succeeds exactly when the offset has 64 bits, and leaves both positions there with nothing buffered |
| `StreamRuns.SeekFromEnd` | src/lib.rs:1738-1752 | a seek from the end by d succeeds exactly when size + d is an unsigned 64-bit number, and is then the seek to offset size + d, from wherever the stream was |
| `StreamRuns.SeekFromCurrent` | src/lib.rs:1738-1752 | a seek from the current position by d does the same with playback + d, not with what was only buffered |
| `StreamRuns.SeeksAgree` | src/lib.rs:643-652 | a seek by nothing after any seek lands where that one did, and the seek from the end by the distance to the playback position is the seek by nothing |
| `StreamRuns.StepKeeps` | src/lib.rs:643-653 | each of seek, fill, prefill and read keeps the invariant, the options and the file size |
| `StreamRuns.StepFaithful` | src/lib.rs:738-753 | each call keeps what the player has heard, and what is buffered, equal to the file's bytes |
| `StreamRuns.RunKeeps` | src/lib.rs:503-653 | over every run and any replies: playback + buffered = source, the end flag is set iff source >= size, and past the end the buffer is empty |
| `StreamRuns.RunWithinHigh` | src/lib.rs:560-635 | over every run with replies no longer than requested: buffered <= high watermark <= capacity |
| `StreamRuns.RunFaithful` | src/lib.rs:693-753 | the headline on values: over every run of seeks, fills, prefills and reads, failed and abandoned ones included, the bytes heard since the last seek are the file's, and the buffer holds the file's next bytes |
| `StreamRuns.FreshStarts` | src/lib.rs:514-525 | a fresh stream meets the premises of the three run theorems |
| `Multiplex.SentKeeps` | src/lib.rs:1465-1485 | a send whose id no live request carries keeps the demultiplexing invariant and makes exactly its own request live |
| `Multiplex.BurnedKeeps` | src/lib.rs:1468-1482 | an id allocated by a send that failed is used up and harms nothing |
| `Multiplex.ArrivedKeeps` | src/lib.rs:1520-1532 | an arriving frame is handed over or put aside, never taken for a duplicate |
| `Multiplex.TakenKeeps` | src/lib.rs:1516-1518 | taking a reply that was put aside removes that reply and no other |
| `Multiplex.HandedIsAnswer` | src/lib.rs:1515-1534 | what a caller waiting for a live request is handed is the server's answer to that request and no other |
| `Multiplex.MultiplexSafe` | src/lib.rs:1515-1534 | over every interleaving of sends, answers, arrivals and receives: each request sent is in exactly one of outstanding, on the wire, put aside, delivered; live ids are distinct; no duplicate is ever reported |
| `Multiplex.EveryRunSafe` | src/lib.rs:1515-1534 | the same for every run from the start of a session |
| `Multiplex.EarlySendsFresh` | src/lib.rs:1468-1470 | the first 65536 ids, and any id allocated while nothing is live, meet no live request |
| `Multiplex.SameMidIff` | src/lib.rs:1468-1470 | two requests share an id exactly when they are a multiple of 65536 requests apart |
| `Multiplex.ScanOutcome` | src/lib.rs:1520-1532 | for a given order of arrivals: exactly when the receive loop reports a duplicate, and exactly when it succeeds and with which frame |
| `Multiplex.DuplicateIff` | src/lib.rs:1515-1534 | exactly when a receive can report a duplicate, from what is put aside and what is still owed before it begins: over all the frames that may still come, in every order, it never does if and only if the wanted reply is put aside already or no other id is both put aside and owed a frame, or owed two |
| `Multiplex.OtherTwiceCollides` | src/lib.rs:1528-1532 | when another id is taken twice, the order with the wanted frame last gives a duplicate |
| `Multiplex.AbandonedTransactionFails` | src/lib.rs:1528-1532 | two reply fragments of an abandoned transaction make the next command fail as a duplicate |
| `Transactions.SessionIff` | src/lib.rs:1550-1569 | over whole sessions of at most 65536 commands with any numbers of replies: after any run without a duplicate, the next command is safe in every order of arrival if and only if every command so far ended with at most one reply still to come |
| `Transactions.SessionSafe` | src/lib.rs:1550-1569 | a session whose commands all end so never meets a duplicate, whatever the order of arrival |
| `Transactions.NextCommandIff` | src/lib.rs:1520-1532 | the same from any state: the next command can fail with a duplicate exactly when an earlier one has more than one reply left |
| `Transactions.RunKeeps` | src/lib.rs:1515-1534 | without a duplicate, a command given up keeps exactly the replies it had left |
| `Transactions.TwoLeftCollide` | src/lib.rs:1528-1532 | two replies left to another command collide if they arrive first |
| `Multiplex.ReusedIdMisleads` | src/lib.rs:1468-1470 | after a wrap-around onto a live id, which `WrapMisleads` reaches, some order of answers gives the new request a wrong reply or none |
| `Multiplex.ReuseIff` | src/lib.rs:1468-1470 | the exact condition for a wrapped id: the new request gets its own answer in every order of answers if and only if no live request carries its id |
| `Multiplex.WrapMisleads` | src/lib.rs:1468-1470 | the failing half is met: a legal run of 65536 requests from the start of a session, only the first unanswered, after which the caller of the next request is handed the reply to the first |
| `Multiplex.ScanComing` | src/lib.rs:1515-1534 | a reply that is put aside or still to come is found, and the others stay available |
| `Pipelining.PipelinedIsSequential` | src/lib.rs:1272-1311 | a pipelined batch refines one read at a time: from any state of the session in which none of the next ids belongs to a live request, if the server answers each request alike in both runs, then for every order of the answers, mixed in either run with any replies to abandoned requests, both give the same chunks in request order or the same first error and advance the counters alike; a batch that succeeds leaves none of its ids put aside |
| `Pipelining.BothRunsExist` | src/lib.rs:1272-1311 | such runs can be had from any state of the session in which none of the next ids belongs to a live request, and for any answers the server may give |
| `Pipelining.ReadAllAnswers` | src/lib.rs:1300-1310 | answers that are all on their way, among any others and in any order, are received in request order up to the first error |
| `Pipelining.SequentialOutcome` | src/lib.rs:1258-1270 | one read at a time, with stale frames arriving in any burst, yields the chunks of the answers or their first error |
| `Pipelining.FindKeeps` | src/lib.rs:1515-1534 | a client waiting for a reply that is on its way finds that one and loses no other |
| `Pipelining.ReadAllMore` | src/lib.rs:1302-1308 | frames that arrive after the last one needed change nothing but what is left on the wire |
| `CifsSession.Cifs.constructor` | src/lib.rs:1159-1169 | a new session has sent nothing, holds nothing and starts its ids at 0 |
| `CifsSession.Cifs.Send` | src/lib.rs:1465-1485 | allocates the next id modulo 65536; a send that fails or is abandoned uses its id up too, and its frame may have gone out whole; only a reused live id can spoil the invariant |
| `CifsSession.Cifs.SendRead` | src/lib.rs:1290-1298 | one request of a batch goes out under the next id; a length that does not fit 32 bits is refused before an id is used |
| `CifsSession.Cifs.Recv` | src/lib.rs:1515-1534 | equals the scan of the frames that arrive, all of them the server's own and in the order of the wire; with no id reused it returns the server's answer to the caller's own request and never a duplicate error |
| `CifsSession.Cifs.Await` | src/lib.rs:1520-1532 | one turn of the receive loop: the head of the wire, a frame of the server, is handed over, put aside or reported; a wait that fails or is abandoned between frames changes nothing |
| `CifsSession.Cifs.RecvRead` | src/lib.rs:1302-1307 | one reply received and parsed is the specified read of the frames that arrive; unless the wait was given up or ids were reused it is what the server's own answer to this request parses to, under any trust in the server |
| `CifsSession.Cifs.ReadAt` | src/lib.rs:1258-1270 | the result, what is put aside and the counters are those of the specified read of the frames that arrive; unless given up or ids were reused, the result and the counters are those of the server's own answer to this request; nothing new stays live on success |
| `CifsSession.Cifs.SendAll` | src/lib.rs:1288-1298 | a whole batch goes out before anything is received, under consecutive ids |
| `CifsSession.Cifs.RecvAll` | src/lib.rs:1300-1310 | chunks or first error, what is put aside and the counters are those of the specified batch for the frames that arrive; unless given up or ids were reused, they are those of the server's own answers to the batch in request order, under any trust in the server; on success none of the batch stays live |
| `CifsSession.Cifs.ReadAtPipelined` | src/lib.rs:1272-1311 | the same for the whole call, with ids consecutive from the next one on; on success every chunk answers its own request and the counters advance by the chunks and their bytes |
| `CifsSession.ReadOneByOne` | src/lib.rs:1258-1270 | the same reads one at a time: chunks or first error and counters are those of the server's own answers in request order |
| `CifsSession.BatchEqualsSingleReads` | src/lib.rs:1258-1311 | on two sessions that face the same server after as many requests, a batch and single reads give the same chunks or first error and advance the counters alike, whatever the orders of arrival, unless one is given up or reuses an id; on a steady connection none is given up |
| `CifsSession.ServedRead` | src/lib.rs:1258-1270 | a session with nothing live on a steady connection, whose server answers every read of the file with some of its bytes, never fails a read within the file, gives at least one byte, and stays so however many ids it has used |
| `CifsSession.ServedBatch` | src/lib.rs:1272-1311 | nor does it fail a pipelined batch within the file |
| `CifsSession.WillingBatch` | src/lib.rs:1300-1310 | such a server answers a batch within the file in full |
| `CifsSession.LiveComing` | src/lib.rs:1515-1534 | the reply to a live request is still to come unless one was put aside under its id: a receive for it has something to wait for |
| `CifsSession.ToldByServer` | src/lib.rs:1300-1310 | a batch whose frames came in request order amounts to the server's own answers |
| `CifsSession.Cifs.RecordRead` | src/lib.rs:100-104 | one more call, that many more bytes |
| `Worker.NewState` | src/lib.rs:514-525 | succeeds exactly for options within the program's limits; a new state is at the start of the file with nothing buffered |
| `Worker.StreamingWorkerState.NextBufferedReadRequests` | src/lib.rs:560-606 | the planning loop computes the plan whose closed form is proved |
| `Worker.StreamingWorkerState.PushSourceChunk` | src/lib.rs:608-635 | accepts or refuses a chunk as specified; a refused chunk changes nothing |
| `Worker.StreamingWorkerState.PopRead` | src/lib.rs:637-641 | hands out the front of the buffer and moves playback by its length |
| `Worker.StreamingWorkerState.Seek` | src/lib.rs:643-652 | moves both positions to where the seek lands (`SeekFromStart`, `SeekFromEnd`, `SeekFromCurrent`) and forgets the buffer, or fails and changes nothing |
| `Worker.FileStream.Seek` | src/lib.rs:861-864 | moves to the position sought, or fails and stays; where that is, `SeekFromStart`, `SeekFromEnd` and `SeekFromCurrent` say |
| `Worker.NewWorker` | src/lib.rs:656-665 | succeeds exactly for options within the program's limits; a worker starts where its file stream stands, also past the end of the file |
| `Worker.StreamingWorker.Seek` | src/lib.rs:687-691 | the file stream follows the state, so that both agree after every seek |
| `Worker.StreamingWorker.PushAll` | src/lib.rs:717-727 | pushing a received batch in place is the batch function, and the file stream agrees with the source position even when a chunk in the middle is refused |
| `Worker.StreamingWorker.FillOnce` | src/lib.rs:700-728 | one turn of the loop: a batch that fails or is abandoned leaves the stream untouched, a received one is pushed whole, and success moves forward; while the session is serving it succeeds |
| `Worker.StreamingWorker.FillUntilBuffered` | src/lib.rs:693-731 | the loop terminates and equals the fill function of the batches received, each of which is what the session delivers for its requests; while the session is serving it succeeds |
| `Worker.StreamingWorker.ReadBlock` | src/lib.rs:738-753 | equals the read function of the batches received, whose amounts `ReadAmount` gives; while the session is serving it succeeds |
| `Worker.DeliveredTrue` | src/lib.rs:1272-1311 | what a dependable server delivers through the session is what the fidelity theorems assume |
| `Worker.PlansInFile` | src/lib.rs:586-590 | no planned request reaches past the end of the file |
| `Worker.ServedIsPushed` | src/lib.rs:717-727 | a planned batch that such a server has answered, with replies of any non-empty lengths, is pushed whole |
| `MediaStream.OpenMediaStream` | src/lib.rs:373-383 | opening succeeds exactly when the options are within the program's limits (chunk size 1 byte to 1 MiB, depth 1 to 16, low <= high <= capacity, high and capacity not zero, initial size at most high), and the stream starts sound |
| `MediaStream.SmbMediaStream.StepSound` | src/lib.rs:756-835 | a step of the specification, with the replies this session delivers, keeps the stream sound |
| `MediaStream.SmbMediaStream.Seek` | src/lib.rs:785-787 | succeeds exactly when offset, size + d or playback + d is an unsigned 64-bit number, and answers it; forgets what was heard and starts there, or changes nothing |
| `MediaStream.SmbMediaStream.FillInitialBuffer` | src/lib.rs:789-797 | on success leaves exactly max(what was buffered, min(initial size, high watermark, rest of the file)), and answers whether the buffer grew; does nothing when the size is 0; cannot fail while the session is serving |
| `MediaStream.SmbMediaStream.MaybePrefill` | src/lib.rs:807-813 | at the end of the file or above the low watermark does nothing and answers false; otherwise on success leaves exactly max(what was buffered, min(high watermark, rest of the file)), and answers whether the buffer grew; cannot fail while the session is serving |
| `MediaStream.SmbMediaStream.ReadBlock` | src/lib.rs:823-829 | on success gives exactly min(n, max(what was buffered, min(high watermark, rest of the file))) bytes and leaves the level that `ReadAmount` gives, nothing only at the end or for n = 0; cannot fail when enough is buffered, at the end of the file, or while the session is serving; the stream stays sound |
| `MediaStream.Play` | src/lib.rs:756-835 | the headline on the objects: every list of calls by a player, with every server behaviour and every interruption between frames, is a run of the specification; the concatenated blocks since the last seek are exactly the file's bytes up to the playback position, whenever the replies received were true and only the last of a batch was short, and in particular for a dependable server and no reuse of a live id, which needs more than 65536 sends; and from a session that is serving no call but a seek fails and no live id is ever reused |
| `RangeRead.ReadMediaHandleAt` | src/ffi.rs:536-589 | terminates, and for any non-empty true replies, however short, returns exactly the part of the range the file has; a server that sends all it has is asked once per 65534 bytes; while the session is serving it succeeds |
| `RangeRead.ReadRangeByStream` | src/lib.rs:738-753 | seeking a stream and reading blocks gives the same range as the sequential loop; while the session is serving it succeeds |
| `RangeRead.ReadFrom` | src/lib.rs:1738-1752 | seeking anywhere and reading gives the part the file has of the range that begins at the offset, at size + d or at playback + d; while the session is serving it fails only where the seek does |
| `RangeRead.Drain` | src/lib.rs:738-753 | blocks read right after a seek concatenate to the range from where it landed |
| `RangeRead.ReadTail` | src/lib.rs:1738-1752 | a seek to k before the end and reading gives exactly the last k bytes of the file |
| `Collectors.AssembleIff` | src/smb/trans2/collector.rs:98-124 | reassembly yields a payload if and only if the total matches and the stored fragments tile it, with no gap and no overlap |
| `Collectors.ReassemblyExact` | src/smb/trans2/collector.rs:56-124 | fragments that tile a payload, in any order and with empty ones among them, are all accepted; the collector is ready exactly once the last non-empty one is in, and then yields the payload |
| `Collectors.StoredWithout` | src/smb/trans2/collector.rs:86-88 | the stored length does not depend on the order of the sum |
| `Collectors.WalkTiles` | src/smb/trans2/collector.rs:109-122 | a walk over the sorted fragments that succeeds has tiled its result |
| `Collectors.TilesWalk` | src/smb/trans2/collector.rs:109-122 | fragments that tile a payload are walked to that payload |
| `Collectors.AddAllGathers` | src/smb/trans2/collector.rs:56-84 | fragments at different offsets are all accepted and stored as they are, in any order |
| `Collectors.AcceptedAreDistinct` | src/smb/trans2/collector.rs:75-81 | fragments that were all accepted are at different offsets |
| `Collectors.HalfCollected` | src/smb/trans2/collector.rs:24-32 | one more fragment of a payload that is carried is accepted, and the last makes it whole |
| `Collectors.AssembledIsCarried` | src/smb/trans2/collector.rs:35-40 | messages from which both halves could be assembled tiled both of them and agreed on their totals |
| `Collectors.OverfullFails` | src/smb/trans2/collector.rs:90-107 | a half is ready once its fragments have as many bytes as its total, whether they tile it or not; with any other number it cannot be assembled |
| `Collectors.RefusedIff` | src/smb/trans2/collector.rs:56-84 | after accepted fragments one more is refused exactly when the total has changed or another is at its offset, and that other is then lost |
| `Collectors.Collector.Add` | src/smb/trans2/collector.rs:56-84 | refuses a changed total and a repeated offset, keeps empty fragments out; the repeated offset has replaced the earlier bytes |
| `Collectors.Collector.Len` | src/smb/trans2/collector.rs:86-88 | the sum, in whatever order the map is walked |
| `Collectors.Collector.IsReady` | src/smb/trans2/collector.rs:90-96 | ready once as many bytes as the total are stored |
| `Collectors.Collector.Get` | src/smb/trans2/collector.rs:98-124 | the loop over sorted fragments is the specified reassembly |
| `Collectors.CollectTrans2.Add` | src/smb/trans2/collector.rs:26-32 | adds to both halves, the data half only if the parameter half accepted |
| `Collectors.CollectTrans2.GetParts` | src/smb/trans2/collector.rs:35-40 | both halves, or the first error |
| `NetBiosFraming.FramingRoundTrip` | src/netbios.rs:132-162 | any list of messages, with keepalives anywhere between them, is read back from the wire as it was written |
| `NetBiosFraming.MessageFirst` | src/netbios.rs:132-146 | the frame of any message up to 0x1ffff bytes is parsed back off the front of any stream |
| `NetBiosFraming.KeepaliveFirst` | src/netbios.rs:111-117 | a keepalive is recognised and consumed whole |
| `NetBiosFraming.AnyFrame` | src/netbios.rs:76-119 | every frame byte by byte: the length is three bytes, most significant first; more than 0x1ffff is too big; which types there are, what each may carry, and what each becomes |
| `NetBiosFraming.CutFrame` | src/netbios.rs:233-254 | a frame cut short is an I/O error within its first four bytes and an unexpected end after them |
| `NetBiosFraming.MessageOrError` | src/netbios.rs:198-207 | the first frame that is not a keepalive decides: its bytes if it is a message, else an error |
| `NetBiosFraming.Encoded` | src/netbios.rs:132-162 | exactly messages of up to 0x1ffff bytes and session requests of 68 can be sent, as these bytes |
| `NetBiosFraming.SessionRequestNames` | src/netbios.rs:209-220 | for any two names the request encodes, has 68 bytes, and spells both padded names back |
| `NetBiosFraming.NameLetters` | src/utils.rs:10-21 | which two letters stand for each of the sixteen characters of a name: blanks fill it up, and characters outside ASCII are left out |
| `NetBiosFraming.AnswerRead` | src/netbios.rs:222-227 | by its bytes: an answer accepts exactly when it begins 82 00 00 00, and refuses with code c exactly when it begins 83 00 00 01 c |
| `NetBiosFraming.NameRoundTrip` | src/utils.rs:10-21 | the letter pairs of a name decode to its characters |
| `NetBiosFraming.NetBios.ReadExactly` | src/netbios.rs:256-271 | reads exactly the bytes asked for however they are cut up, or reports the end of the stream |
| `NetBiosFraming.NetBios.Recv` | src/netbios.rs:233-254 | reads one frame off the flat stream, in any segmentation; a stream that ends in the first four bytes is an I/O error, later an unexpected end |
| `NetBiosFraming.NetBios.RecvMessage` | src/netbios.rs:198-207 | skips any number of keepalives and returns the next message |
| `NetBiosFraming.NetBios.RecvMessages` | src/netbios.rs:198-207 | n receives in any segmentation are n messages of the flat stream |
| `NetBiosFraming.NetBios.WriteExactly` | src/netbios.rs:273-280 | everything is sent, in order, however little the socket takes at a time; if the socket fails, a front part was sent |
| `NetBiosFraming.NetBios.SendFrame` | src/netbios.rs:229-231 | sends the whole encoding, a front part of it if the socket fails, or nothing when it cannot be encoded |
| `NetBiosFraming.NetBios.CreateSession` | src/netbios.rs:209-227 | unless the socket fails sends one whole request; it succeeds exactly on an answer 82 00 00 00 and fails with code c exactly on 83 00 00 01 c |
| `NetBiosFraming.Delivered` | src/netbios.rs:198-280 | end to end: messages with keepalives among them, cut into any pieces, are received as they were sent |
| `NtlmPackets.LayoutRoundTrip` | src/ntlm/packet.rs:64-78 | in the written message the header is exactly its computed length, each field stands at its place, and each security buffer parsed there extracts the bytes appended |
| `NtlmPackets.ToBytesIff` | src/ntlm/packet.rs:64-78 | writing succeeds if and only if every payload fits 16 bits and every position 32 |
| `NtlmPackets.HeaderLayout` | src/ntlm/packet.rs:68-73 | every entry's bytes stand at the sum of the sizes before it |
| `NtlmPackets.BaseLenFrom` | src/ntlm/packet.rs:80-82 | the computed base length is where the header ends |
| `NtlmPackets.BufferRoundTrip` | src/ntlm/buffer.rs:13-34 | a written buffer header is parsed back |
| `NtlmPackets.BufferFields` | src/ntlm/buffer.rs:27-34 | a buffer header is length, capacity and position in this order, and is written exactly when they fit 16, 16 and 32 bits |
| `NtlmPackets.Packet.AppendBinary` | src/ntlm/packet.rs:34-36 | one more field, everything before it unchanged |
| `NtlmPackets.Packet.AppendU32` | src/ntlm/packet.rs:38-41 | one more little-endian field |
| `NtlmPackets.Packet.AppendBuffer` | src/ntlm/packet.rs:43-54 | one more security buffer whose position is where its bytes are put |
| `NtlmPackets.Packet.AppendString` | src/ntlm/packet.rs:56-62 | one more security buffer that holds the text in the encoding asked for |
| `NtlmPackets.Packet.ToBytes` | src/ntlm/packet.rs:64-78 | the loop writes the two-pass layout, and fails exactly when something does not fit |
| `NtlmPackets.ChallengeRoundTrip` | src/ntlm/challenge.rs:17-53 | from every type 2 message built this way, in either encoding, the parser recovers target, known flags, challenge and info |
| `NtlmPackets.ChallengePanicIff` | src/ntlm/challenge.rs:17-53 | exactly when parsing a type 2 message panics, over its length, magic, type and its two buffer headers: cut off within the header, a buffer past the end, or a UTF-16 target that stops inside a unit |
| `NtlmPackets.ChallengeErrors` | src/ntlm/challenge.rs:17-53 | whatever else is wrong makes an invalid packet; an accepted message begins with the magic and the type 2 |
| `NtlmPackets.FlagKeptIff` | src/ntlm/init.rs:8-36 | which bits of the flag word are kept: those set, other than 3, 24, 26, 27 and 28 |
| `NtlmPackets.MagicAlonePanics` | src/ntlm/challenge.rs:18-27 | such a message: the magic alone |
| `NtlmPackets.ParseChallengeMsg` | src/ntlm/challenge.rs:17-53 | the field-by-field parser equals the specification, errors and panics included |
| `NtlmPackets.ReadBuffer` | src/ntlm/buffer.rs:13-25 | reads one buffer header and moves past it |
| `NtlmPackets.WriteResponse` | src/ntlm/challenge.rs:55-77 | the type 3 message: the response and each of the strings, in either encoding, is found where its security buffer points; it fails exactly when one exceeds 16 bits |
| `Texts.Utf16Iff` | src/utils.rs:67-77 | UTF-16 decoding accepts exactly what encoding writes, and gives the text back; unpaired surrogates are refused |
| `Texts.Utf16PanicIff` | src/utils.rs:67-73 | decoding panics exactly when there is a last single byte and the text up to it is sound, or lacks only the second half of its last pair |
| `Texts.Utf8Iff` | src/ntlm/buffer.rs:43-53 | UTF-8 decoding accepts exactly what encoding writes (section 3 of RFC 3629) |
| `Texts.TextRoundTrip` | src/ntlm/packet.rs:56-62 | text written in either encoding is read back in that encoding |
| `Texts.TextExamples` | src/utils.rs:67-77 | a character of three UTF-8 bytes and one outside the basic plane, byte by byte in both encodings |
| `Texts.TruncateBit` | src/smb/common.rs:109 | truncating flags keeps exactly the known bits that were set |
| `SmbMessages.WriteEnvelope` | src/smb/msg.rs:32-78 | word count, parameter, byte count and data in this order; fails exactly when a count does not fit |
| `SmbMessages.ReadBody` | src/smb/msg.rs:482-506 | the two halves of the offset and of the count, read where the protocol has them, put back together give the offset and the count; the block chains nothing, asks for 32768 at least, and its other words are zero |
| `SmbMessages.ParseEnvelope` | src/smb/reply.rs:28-52 | the data block is the frame's own bytes from the recorded start; a short frame panics |
| `SmbMessages.EnvelopePanicIff` | src/smb/reply.rs:28-35 | parsing the envelope panics exactly when the frame is shorter than its two counts say |
| `SmbMessages.ParseReadReply` | src/smb/reply.rs:351-376 | the bytes at the end of the data block after at most one byte of padding, or an error |
| `SmbMessages.ReadReplyIff` | src/smb/reply.rs:351-376 | over the bytes of the frame: a read reply gives these bytes if and only if the frame holds its blocks, has six words or more, chains nothing, and they are the last of the data block, as many as its sixth word says, with one byte at most before them |
| `SmbMessages.ChainedReplyRefused` | src/smb/reply.rs:37-42 | a reply that chains another command is refused, in one way for the eight known commands and in another for the rest |
| `SmbMessages.ReadReplyPanicIff` | src/smb/reply.rs:351-376 | exactly when parsing a read reply panics, over the bytes of the frame: shorter than its counts say, or too few words |
| `SmbMessages.EmptyReadReplyPanics` | src/smb/reply.rs:37-38 | such a frame: any header, no words and no bytes |
| `SmbMessages.ReadReplyRoundTrip` | src/smb/reply.rs:351-376 | any bytes sent in a read reply, padded or not, come back |
| `SmbMessages.RoundUp4` | src/utils.rs:131-133 | the least multiple of four no less than the argument |
| `SmbMessages.FillUp4` | src/utils.rs:136-138 | exactly what is missing to the next multiple of four |
| `SmbMessages.WriteTransact2` | src/smb/trans2/msg.rs:31-97 | in the full frame the bytes at the written offsets are the sub-command's parameter and data, both offsets are 4-aligned and in order, the word count covers the parameter block; the words at 37 and 39, the byte at 41 and the word at 61 are the limits and the sub-command asked for, one setup word is announced, and the reserved words and the padding are zero; fails or panics exactly when a length or the data offset exceeds 16 bits |
| `SmbMessages.WideParameterExample` | src/smb/trans2/msg.rs:83 | a search for a name of 32726 letters makes it panic: the sub-parameter fits 16 bits, the data offset does not |
| `SmbMessages.TransactData` | src/smb/trans2/msg.rs:90-94 | padding that depends on what was written so far puts each part where the offsets say |
| `SmbMessages.TransactParameter` | src/smb/trans2/msg.rs:63-87 | the parameter block is 30 bytes, with every field, limits and reserved ones included, where the protocol reads it |
| `SmbMessages.FrameTruthful` | src/smb/msg.rs:59-75 | offsets within the blocks become true offsets within the frame |
| `SmbMessages.FrameCarries` | src/smb/trans2/msg.rs:63-94 | limits, sub-command and zeros, wherever they stand in the blocks, stand at their places in the frame |
| `SmbMessages.ParseFields` | src/smb/trans2/reply.rs:25-37 | offsets before the data block are refused; a short block panics; which of the words is which, `TransactReplyRoundTrip` says |
| `SmbMessages.SlicePart` | src/smb/trans2/reply.rs:40-43 | subtracting the start of the data block and slicing it gives the frame's own bytes at the offset named, for every offset and count in bounds |
| `SmbMessages.ParseTransactReply` | src/smb/trans2/reply.rs:23-56 | the cursor-driven parser equals reading both parts straight off the frame, which `TransactReplyRoundTrip` proves to be what was written |
| `SmbMessages.TransactReplyRoundTrip` | src/smb/trans2/reply.rs:23-56 | a reply written field by field, with any header, totals, displacements, reserved bytes and setup words, and its two parts anywhere in any data block, parses to those parts at those displacements of those totals |
| `SmbMessages.LaterFragmentExample` | src/smb/trans2/reply.rs:32-37 | a later fragment, byte by byte: its one byte of data belongs at 100 of 101 |
| `SmbMessages.TransactReplyPanicIff` | src/smb/trans2/reply.rs:23-43 | exactly when parsing a Transact2 reply panics, over the bytes of the frame: shorter than its counts say, or no offset too small and too few words or a part that reaches past the data block; and it is refused as invalid exactly when an offset is too small |
| `SmbMessages.EmptyTransactReplyPanics` | src/smb/trans2/reply.rs:25 | such a frame: any header, no words and no bytes |
| `SmbMessages.LongPartPanics` | src/smb/trans2/reply.rs:40-43 | another, with any header: nine words, and a parameter one byte longer than the data block |
| `SmbMessages.Transact` | src/lib.rs:1550-1569 | the receive loop is the function of the frames that arrive |
| `SmbMessages.TransactIff` | src/lib.rs:1550-1569 | from frames to both halves, exactly: a transaction yields two halves if and only if some first frames of those that arrive are well-formed replies whose fragments tile both |
| `Directories.ChainRoundTrip` | src/smb/trans2/subreply/findfirst2.rs:34-61 | any number of length-prefixed entries come back in order; a zero last prefix is accepted by the first reply and refused by the others |
| `Directories.ChainsAgreeIff` | src/smb/trans2/subreply/findnext2.rs:27-51 | the two readers agree exactly on the chains on which no zero prefix is met; where one is met the first reader succeeds and the other fails |
| `Directories.ZeroPrefixExample` | src/smb/trans2/subreply/findfirst2.rs:43-44 | a chain that the first reader accepts and the other refuses |
| `Directories.PageRoundTrip` | src/smb/trans2/subreply/findfirst2.rs:15-74 | a whole page with any entries and paddings is read back, by the first reply always and by the others unless its last prefix is zero |
| `Directories.DirInfoRoundTrip` | src/smb/common.rs:92-132 | an entry is recovered field by field, name and known attributes included, whatever its index, allocation size, unknown attribute bits and padding |
| `Directories.AttributeKeptIff` | src/win.rs:113-129 | which attribute bits are kept: of those set, the fifteen the program knows |
| `Directories.ReadDirInfo` | src/smb/common.rs:92-132 | the cursor-driven parser equals the specification, errors and panics included |
| `Directories.DirInfoPanicIff` | src/smb/common.rs:110-119 | exactly when an entry panics: its name length fits the entry and is odd, and the name is sound up to its last byte |
| `Directories.OneByteNamePanics` | src/smb/common.rs:110-119 | such an entry: a name of one byte |
| `Directories.EntriesOfChain` | src/smb/trans2/subreply/findfirst2.rs:34-61 | parsing while walking succeeds exactly when the chain is well formed and each entry parses, with the same entries |
| `Directories.WalkChain` | src/smb/trans2/subreply/findfirst2.rs:34-61 | the consuming loop terminates and equals the specification |
| `Directories.Checked` | src/smb/trans2/subreply/findfirst2.rs:63-69 | an accepted page has as many entries as counted and is empty only if it is the last |
| `Directories.FirstPageIff` | src/smb/trans2/subreply/findfirst2.rs:15-74 | a first page is accepted if and only if it has ten parameter bytes, its chain is well formed, every entry parses, the count is theirs and it is the end or not empty |
| `Directories.NextPageIff` | src/smb/trans2/subreply/findnext2.rs:14-62 | a later page likewise, with four bytes and the stricter chain, under the search id it was asked with |
| `Directories.ParseFindFirst2` | src/smb/trans2/subreply/findfirst2.rs:15-74 | the parser of the first reply equals its specification, whose accepted inputs `FirstPageIff` gives |
| `Directories.ParseFindNext2` | src/smb/trans2/subreply/findnext2.rs:14-62 | the parser of the other replies equals its specification, whose accepted inputs `NextPageIff` gives |
| `Listing.Following` | src/lib.rs:1359-1367 | a follow-up page that is not the last is never empty |
| `Listing.Directory.List` | src/lib.rs:1373-1395 | the loop is the specified listing, and taking the last name never fails; it ends for one of the reasons of `ListAllEnds` |
| `Listing.ListedIff` | src/lib.rs:1373-1395 | a listing succeeds if and only if the pages the server gives, each follow-up naming the first page's search id and the last entry of the page before it, come to an end within the follow-ups allowed; it is then the concatenation of exactly those pages |
| `Listing.ListAllEnds` | src/lib.rs:1373-1395 | every listing ends on the page that is the end, on the first request that failed, or when it has made all its follow-ups |
| `Listing.EndsOnce` | src/lib.rs:1373-1395 | the pages of a listing that reaches the end are determined by the server |
| `Listing.DirectoryReader.constructor` | src/lib.rs:868-878 | a reader with more to ask for knows where to resume |
| `Listing.DirectoryReader.Next` | src/lib.rs:884-902 | the resume point is never lost; an error leaves the reader able to go on from where it was |
| `Listing.OpenAndDrain` | src/lib.rs:867-902 | draining a reader hands out exactly the server's own pages, one after the other, down to the end; their concatenation is the listing of the same server, with the same resume names, or the same error |
| `NaturalKeys.NaturalNameKey` | src/lib.rs:1697-1736 | the character loop computes the specified key |
| `NaturalKeys.NumbersCompareAsIntegers` | src/lib.rs:193-201 | for digit runs of any length, the derived order is the order of the integers they spell, then of the number of digits written |
| `NaturalKeys.SameLengthCompares` | src/lib.rs:193-201 | numbers of one length compare as strings exactly as they do as integers |
| `NaturalKeys.KeyTotal` | src/lib.rs:184-201 | any two keys compare one way or the other, and equal only when they are the same |
| `NaturalKeys.KeyTransitive` | src/lib.rs:184-201 | the order on keys is transitive |
| `NaturalKeys.NumbersOrderNames` | src/lib.rs:1697-1736 | names that agree up to a number are ordered by that number as an integer, whatever follows it and with any leading zeros |
| `NaturalKeys.FrontFirst` | src/lib.rs:184-201 | a name comes before every longer one that begins a new run after it |
| `NaturalKeys.KeyOfParts` | src/lib.rs:1697-1736 | the key of a name cut where a run ends is that of the two parts in a row |
| `NaturalKeys.KeyBeforeIff` | src/lib.rs:184-201 | a key comes before another if and only if it is a proper front part of it or has the smaller token where they first differ |
| `NaturalKeys.StringBeforeIff` | src/lib.rs:193-201 | likewise for strings and characters |
| `NaturalKeys.TokenKinds` | src/lib.rs:193-201 | any number comes before any text |
| `NaturalKeys.KeySpells` | src/lib.rs:1712-1731 | a key loses nothing but letter case: it spells the lower-case name |
| `NaturalKeys.SameKeyIff` | src/lib.rs:1697-1736 | two names share a key if and only if they are equal in lower case |
| `NaturalKeys.SameLowerIff` | src/lib.rs:1712-1731 | two characters are alike exactly when equal or the two cases of one ASCII letter |

## Left out

- Sockets, the async runtime, name lookup, port fallback and elapsed times: the wire is a sequence of bytes or frames, and a timeout is a nondeterministic failure between two frames.
- Abandoning a call in the middle of a frame, which leaves the byte stream out of step.
- The authentication exchange and its cryptography; the response bytes of `WriteResponse` are a parameter.
- SMB URIs, C pointers and strings, JSON, reports, and the smoke-test binary.
- Error kinds, flag tables other than the two that are parsed, option defaults, media extensions, "extra" keywords and movie matching: each is settled by one branch.
- The fields of the SMB header other than the multiplex id.
- One file per session: reads of several open files under one id counter are covered only as other commands.
- Memory limits: `usize` is taken to have 64 bits and output buffers to grow without bound.
- The contents of sub-command parameters, such as search patterns, and the sort of directory entries by "folder first".
- Multiplex.Command: a command has one reply in this state machine and in the session; commands with several replies are the subject of `Transactions.dfy`, `DuplicateIff` and `TransactIff`.
- CifsSession.BatchEqualsSingleReads: one answer per request is fixed in advance, by its command and its serial number; when and in what order the server gives it is free.
- CifsSession.Cifs.constructor: the handshake that follows inside `open` is not run; its commands are ordinary sends and receives, and every theorem about a session holds from any state it can be in.
- CifsSession.Cifs.Recv: the checks of the reply's command, status and body are one step later, in `ParseRead`, where they are reduced to three kinds of reply; a frame whose SMB header cannot be read, and its error, do not occur. The byte-level parsers are proved separately.
- CifsSession.Cifs.RecvRead: as for `Recv`, a read reply whose body cannot be parsed counts as one with an error status.
- Collectors.CollectTrans2.GetParts: parsing the subreply, which the program does in the same call, is left to the parsers of `Directory.dfy`.
- SmbMessages.Transact: the frames of the transaction are given as a list; that they reach it through the session is `Recv`.
- NetBiosFraming.NetBios.WriteExactly: a socket that takes no bytes without failing is left out; the program would try for ever.
- Listing.Directory.List: stops with a timeout after a number of follow-ups given as a parameter, since a server may never end a search.
- Listing.OpenAndDrain: stops after the same number of follow-ups.
- Directories.DirInfoRoundTrip: the four times stay the raw 64-bit counts; their conversion to local time is left out.
- Directories.WalkChain: the loops of the two replies, which differ in one test, are one loop with a flag.
- NaturalKeys.NaturalNameKey: lower case is ASCII lower case.
- NaturalKeys.KeySpells: lower case is ASCII lower case.
- NaturalKeys.SameKeyIff: lower case is ASCII lower case.
- Worker.StreamingWorker.ReadBlock: on an error the kind of error is not part of the equation with `Read`, only that it failed and the state it left.
- Worker.StreamingWorker.FillUntilBuffered: on an error the kind of error is not part of the equation with `Fill`, only that it failed and the state it left.
