# vcam: a verified model of the camera's protocol engine

vcam is a software camera: it speaks the Picture Transfer Protocol (PIMA 15740:2000, ISO
15740) over an emulated USB device, a libusb stand-in or TCP, and imitates cameras of several
vendors. This project models the stateful engine between the wires and proves what it keeps
over whole runs. Sockets, threads and files are parameters of the model.

| file | part of the engine |
|---|---|
| `Bytes.dfy`, `Containers.dfy`, `PropTypes.dfy`, `Replies.dfy` | byte order, USB containers, value sizes, response codes |
| `BulkPipe.dfy` | the bulk-IN buffer and the stateful splitter |
| `Framing.dfy`, `Transactions.dfy`, `Responder.dfy` | bulk-OUT framing, sessions and transactions, the camera object |
| `WriteAnswers.dfy`, `SessionAnswers.dfy` | what each write and each transaction is answered with, in bytes and codes |
| `Clock.dfy`, `EventQueue.dfy`, `EventOrder.dfy`, `QueueAnswers.dfy` | `struct timeval` arithmetic, the sorted event list with four consumers, the order in which it is left, what each consumer is given |
| `EosEvents.dfy`, `EosDump.dfy`, `EosRuns.dfy`, `EosOverflow.dfy`, `NikonEvents.dfy` | what Canon and Nikon clients poll from that list |
| `ObjectStore.dfy`, `CardScan.dfy`, `Catalog.dfy`, `Listings.dfy`, `Downloads.dfy` | the object tree, its handlers, listings and partial downloads |
| `StoreAnswers.dfy`, `ListingAnswers.dfy` | what the object operations answer and leave behind, entry by entry |
| `FujiGate.dfy`, `FujiEnumeration.dfy` | the GFX image-import gate and what it guards |
| `SsdpScheduler.dfy` | timer slots and paced multicast |
| `UsbTransfers.dfy` | the pending list of the libusb stand-in |
| `SonyStepping.dfy` | stepping a setting along a list or a range |
| `PtpStrings.dfy`, `ObjectInfo.dfy`, `Packets.dfy` | strings, ObjectInfo, PTP/IP conversion |

Where the program updates something in place the model does so too: the event list is a
linked list of heap nodes spliced through the previous node, buffers are arrays, sorts run in
place, and the camera, the scheduler, the transfer list and the importer are objects. Each
such method is proved against a function on values, and the theorems are about those
functions and about runs of them.

Choices a reader should know:

- `gettimeofday` is a parameter: readings with microseconds below 1000000 that never go back.
- An object's parent is named by its handle; the invariant shows handles to be distinct.
- `inbulk`, `outbulk`, the object list and the pending list are sequences that methods reassign.
- Memory after `nroutbulk` is not part of the buffer, so the success path of the framing keeps
  the front of the buffer where its error paths keep the rest.
- A card is a finite tree of files and folders; a file is as long as its bytes. A capture
  folder exists in the list only and cannot be opened.
- A setter of a property is any pair of functions from the written bytes to a return code and
  a new value.

What the program does not do as its comments or names suggest, stated as theorems:

- The classic event pop is described as first in, first out (`src/vcam.h:373`); it goes by
  trigger time, ignores due times, and serves equal times newest first (`FirstInFirstOutIff`,
  `TiesAreNewestFirst`, `EarlyPopBreaksOrder`).
- The timeout of `vcam_readint` has no effect (`TimeoutIsIdle`).
- A write that brings a packet and the beginning of the next loses that beginning
  (`CrossingIff`, `CrossingLoses`).
- The comment in `vcam_process_output` puts the opcode before the type; the code reads the
  type first, as the standard does.
- CloseSession without a session is answered as if one were already open (`CloseSessionAnswers`).
- A write outside a session, or with the wrong number of parameters, is not answered
  exactly once (`OneResponseIff`): both of its phases respond.
- The end marker of EOS events is described as 8 bytes; 12 are written.
- A string that just fits its buffer, or does not, makes `ptp_read_string` store one byte too
  many (`StringSurvivesIff`); in an ObjectInfo that matters for the last string only
  (`UnpackPackIff`).
- The walk over the pending list of transfers need not come to its end: a resubmitting OUT or
  answered bulk transfer that it reaches at the head keeps it (`RoundEndsIff`, `OutTransferTraps`).
- The button report that has to precede its object on the EOS channel is popped first, but an
  answer that is too full for it loses it (`ButtonReachesFirst`, `ButtonIsLostIff`,
  `ButtonIsLost`).
- A value that an enumeration lists twice stops single steps up (`UpReachesIff`); steps down
  jump over what lies between its places (`DownVisitsIff`, `DownCanJump`).
- Looping over the standard or the EOS partial download does not end by itself for an object
  of 4 GiB or more (`StandardLoopRebuilds`, `EosLoopRebuilds`).
- Two cameras on one bus share the splitter's `last_length`, which spoils the stream of the
  second when the first is left in mid-container (`OtherCameraMixesIff`, `OtherCameraIff`,
  `OtherCameraSpoils`).
- A property written with a length that is not its type's is not read back as written
  (`WriteThenRead`).
- In the SSDP responder the case that pacing stays on with no tick timer does not arise
  (`Serve`). A full timer table loses a search answer (`HandleSearch`) or, for good, the
  re-announcement (`Reannounce`, `Serve`, `FullTableEndsTheRounds`).

## Model

| member | source | states |
|---|---|---|
| `Containers.DecodeEncode` | src/vcamera.c:248-256 | Reading a container gives back its type, code, transaction id and body |
| `Containers.EncodeIsBlock` | src/vcamera.c:237-280 | The length field of every container the handlers append counts its bytes |
| `BulkPipe.BulkIn.SendData` | src/vcamera.c:237-255 | Appends exactly one data container under the current transaction id and leaves what was buffered alone |
| `BulkPipe.BulkIn.Response` | src/vcamera.c:257-280 | Appends exactly one response with its parameters and moves the id on by one, modulo 2^32 |
| `BulkPipe.BulkIn.VcamRead` | src/vcamera.c:555-572 | Hands out the front of the buffer, shifts the rest down, writes nothing else in the destination |
| `BulkPipe.BulkIn.UrbSplitter` | src/usbthing.c:195-221 | A transfer is the next bytes of the container in front, never more; the buffer keeps "unserved rest, then whole containers" |
| `BulkPipe.ServeFromFront` | src/usbthing.c:195-221 | A transfer takes from the front container only; what is left still has the buffer shape |
| `BulkPipe.RunServesContainers` | src/usbthing.c:195-221 | For every interleaving of appends and transfers, transfers group into containers, in order, none mixed |
| `BulkPipe.RunConserves` | src/vcamera.c:555-572 | Bytes transferred followed by bytes buffered are the bytes appended, at every moment of every run |
| `BulkPipe.PendingIsServed` | src/usbthing.c:195-221 | In every reachable state with bytes pending a transfer of four bytes or more is served and is not empty |
| `BulkPipe.ContainerTakesCeil` | src/usbthing.c:195-221 | A container of L bytes takes ceil(L / len) transfers of size len, which together are the container |
| `BulkPipe.OtherCameraIff` | src/usbthing.c:204-220 | Two cameras share the splitter's length: after a transfer that finds `last` bytes of the other camera unserved, this camera's stream is an unserved part and then whole containers exactly if `last` is the length of some of its front containers together |
| `BulkPipe.OtherCameraMixesIff` | src/usbthing.c:204-220 | That transfer stays within this camera's front container exactly if it is no longer than that container |
| `BulkPipe.OtherCameraSpoils` | src/usbthing.c:204-220 | Two waiting responses whose stream 20 unserved bytes of the other camera spoil, and 24 do not |
| `Bytes.LittleEndian` | src/data.c:223-235 | The low byte comes first in what is written and in what is read |
| `Framing.ChunkingIsInvisible` | src/vcamera.c:450-592 | Any chunking that does not cut across packets leaves the camera as if it had received the packets whole |
| `Framing.ChunkingsAgree` | src/vcamera.c:574-592 | Two chunkings of the same packets cannot be told apart |
| `Framing.CrossingIff` | src/vcamera.c:529-530 | After a write of a packet and more, the rest is intact exactly if the packet was refused or the rest equals the front of the buffer |
| `Framing.CrossingLoses` | src/vcamera.c:529-530 | A concrete pair of packets in one write after which the second is gone |
| `Framing.CommandArrives` | src/vcamera.c:492-516 | A well-formed command container reaches its handler with code, id and parameters as sent |
| `Framing.DataArrives` | src/vcamera.c:533-547 | A data container reaches the data handler with its payload as sent |
| `Framing.AnyChunkingIsAnswered` | src/vcamera.c:437-592 | From bytes to answers: whatever the chunking within packets, each transaction is answered once under its own id |
| `WriteAnswers.WriteIs` | src/vcamera.c:437-592 | Every write, in bytes: an incomplete container waits; one shorter than 12 bytes, of another type than 1 or 2, with a code outside 0x1000-0x1fff, 0x9000-0x9fff and 0xBEEF, or with more than five or broken parameters is answered 0x2002 and taken off the front; any other reaches its handler with the code, id and words that stand in it |
| `Transactions.SessionIsAnswered` | src/ops.c:102-142 | Over a whole session, open and close included, every transaction of any standard opcode gets at most one data container and then one response, all under the id the client counts |
| `Transactions.RunStaysInStep` | src/vcamera.c:257-280 | The camera only counts ids, and its count equals the client's after any number of transactions |
| `Transactions.TransactionIsAnswered` | src/ops.c:991-1052 | One transaction in step is answered once and leaves the counts in step, whichever phase of a write answers |
| `Transactions.OneResponseIff` | src/ops.c:991-1099 | For any client and any state: exactly one response if and only if a condition on session, opcode, parameter count and data phase holds |
| `Transactions.WriteThenRead` | src/vcamera.c:140-214 | Reading a property after writing it gives the written bytes exactly if their length is the one their type gives them |
| `Transactions.OpenOnce` | src/ops.c:102-124 | OpenSession answers once; it takes the client's id exactly when its parameter is a single non-zero one, and opens the session where none was open (codes: `SessionAnswers.OpenSessionAnswers`) |
| `Transactions.CommandCounts` | src/vcamera.c:533-552 | A command is answered once or, for a two-phase operation waiting for its data, not at all |
| `Transactions.DataCounts` | src/ops.c:1011-1052 | A data phase is answered once, except where the command phase already refused an unknown property |
| `SessionAnswers.OpenSessionAnswers` | src/ops.c:102-124 | OpenSession appends one response without parameters: 0x2001 under the client's id where no session was open, 0x201E where one was, 0x201D for a zero parameter, 0x2002 for any other count, and the session is the parameter or as before |
| `SessionAnswers.CloseSessionAnswers` | src/ops.c:126-142 | 0x2001 and no session, the id restarting at 1; 0x201E without a session; 0x2002 with parameters |
| `SessionAnswers.SessionCodesIff` | src/ops.c:102-142 | Each code is the last one exactly under its condition on session and parameters |
| `SessionAnswers.UnexpectedAnswers` | src/vcamera.c:533-552 | An opcode outside the registered ones is answered 0x2005, in both phases; data for an operation that takes none 0x2002 |
| `SessionAnswers.ClosedSessionAnswers` | src/vcamera.c:23-30 | Without a session every operation but GetDeviceInfo, OpenSession and CloseSession is answered 0x2003 and changes nothing |
| `SessionAnswers.ObjectOperationsAnswer` | src/ops.c:1101-1119 | Which handler each object opcode reaches: at most one data container under the opcode and one response with its parameters, the object list as the handler leaves it |
| `SessionAnswers.DescriptionsAnswer` | src/ops.c:1101-1119 | The describing opcodes send what the description gives and change nothing; 0x1001 needs no session |
| `SessionAnswers.GetPropAnswers` | src/ops.c:962-988 | 0x2002 for another parameter count, 0x200A for an unknown, invisible or valueless property; else the bytes its type delimits, in one data container, and 0x2001 |
| `SessionAnswers.SetPropCommandAnswers` | src/ops.c:991-1009 | The command phase: 0x2003, 0x2002 or 0x200A, or nothing; the camera is otherwise untouched |
| `SessionAnswers.SetPropDataAnswers` | src/ops.c:1011-1052 | The data phase: 0x2003, 0x2002, nothing for an unknown property, 0x2001 for an invisible one, 0x2002 for no data; else the first property of the code, and no other, takes the bytes or what its setter makes of them, answered 0x2001, 0x2002 or the low half of the setter's result |
| `SessionAnswers.PropSizeIs` | src/data.c:10-41 | The size a value gives itself, for each type |
| `SessionAnswers.ChecksumAnswers` | src/ops.c:1054-1099 | The data phase of 0xBEEF answers 0x2001 exactly if the sum of the bytes is the first parameter modulo 2^32, else 0x2002 |
| `SessionAnswers.ChecksumIsSum` | src/ops.c:1076-1099 | The checksum is the sum of all bytes |
| `Responder.VirtualCamera.VcamWrite` | src/vcamera.c:574-592 | Appends the bytes and processes at most one container; the whole new state is the specified one and the object list stays sound until the counter wraps |
| `Responder.VirtualCamera.WriteAll` | src/vcamera.c:574-592 | A host that writes again and again: within bounds on total bytes and captures, the object ends where the specified run of writes leads, its object list sound |
| `Responder.VirtualCamera.ProcessOutput` | src/vcamera.c:437-553 | Waits, refuses or dispatches as specified, with the buffer each path leaves |
| `Responder.VirtualCamera.TakeContainer` | src/vcamera.c:458-553 | The five refusals and the two dispatches, and which end of the buffer is dropped in each |
| `Responder.VirtualCamera.CommandWrite` | src/vcamera.c:533-541 | Runs the opcode's handler and keeps the command for a data phase to come |
| `Responder.VirtualCamera.OpenSessionWrite` | src/ops.c:102-124 | The whole state after OpenSession, on all of its four paths (codes: `SessionAnswers.OpenSessionAnswers`) |
| `Responder.VirtualCamera.CloseSessionWrite` | src/ops.c:126-142 | The whole state after CloseSession; the id restarts after the response went out |
| `Responder.VirtualCamera.GetDevicePropValueWrite` | src/ops.c:962-988 | Answers with the bytes of the value, or refuses unknown, invisible and valueless properties |
| `Responder.VirtualCamera.SetDevicePropValueWrite` | src/ops.c:991-1009 | The command phase of a write answers only to refuse |
| `Responder.VirtualCamera.SetDevicePropValueWriteData` | src/ops.c:1011-1052 | The data phase: silent, acknowledged, refused or applied, under the saved command |
| `Responder.VirtualCamera.VusbWriteData` | src/ops.c:1076-1099 | The checksum loop accepts exactly the announced sum, or what the stack held where none was announced |
| `Responder.VirtualCamera.StoreWrite` | src/ops.c:222-903 | The object handlers answer and change the list as specified |
| `Clock.AddMsIsExact` | src/vcamera.c:605-611 | One carry suffices: the microseconds stay in 0..1000000 and the total is exact |
| `Clock.OrderAgrees` | src/vcamera.c:626-642 | The field-wise order of such stamps agrees with their order in microseconds |
| `Clock.DueAgrees` | src/vcamera.c:676-692 | Against a clock reading, due field-wise is due in microseconds |
| `EventQueue.FirstOrNothing` | src/vcamera.c:673-692 | In a sorted list the due search finds the first entry of its channels or nothing, and nothing exactly if none is due |
| `EventQueue.TimeoutIsIdle` | src/vcamera.c:751-789 | The second test of the interrupt read never fails: its timeout has no effect |
| `EventQueue.TiesAreNewestFirst` | src/vcamera.c:626-642 | A new entry goes behind exactly the queued ones that trigger before it, so in front of those of the same trigger time |
| `QueueAnswers.InjectionIs` | src/vcamera.c:598-644 | An injected entry triggers exactly its milliseconds after the reading and stands behind exactly those that trigger before it; nothing else moves |
| `QueueAnswers.ConsumersTake` | src/vcamera.c:666-789 | What each consumer is given: the first classic entry, due or not; the first EOS or Nikon entry if it is due; the interrupt endpoint the first of the classic and Nikon ones if it is due; that entry alone leaves, and nothing moves where there is none |
| `EventOrder.FirstInFirstOutIff` | src/vcamera.c:598-789 | Over every run, early pops included: of two entries of one channel the one injected first leaves first exactly if it had left when the other was injected, or triggers strictly before it |
| `EventOrder.LedgerIsRun` | src/vcamera.c:598-789 | Numbering the injections changes nothing: the list and the deliveries are those of the run |
| `EventQueue.RunKeepsOrder` | src/vcamera.c:598-789 | Over every run with a monotone clock: sorted, injected = queued + delivered as multisets, channels separate, punctual channels in trigger order |
| `EventQueue.VendorChannelsAreOrdered` | src/vcamera.c:710-748 | EOS and Nikon entries are delivered in trigger order in every run |
| `EventQueue.EarlyPopBreaksOrder` | src/vcamera.c:694-708 | An event raised at the moment of a classic pop is handed out next, behind an entry that triggers later, exactly if that pop took its entry before it was due |
| `EventQueue.EarlierIsDeliveredFirst` | src/vcamera.c:711-729 | Of two EOS entries in a run the one that triggers earlier is delivered earlier |
| `EventQueue.ButtonBeforeObject` | src/canon/canon.c:240-300 | In every run the button report of a capture is popped before its object entry |
| `EosRuns.RunFeedsInOrder` | src/canon/canon.c:322-546 | Every run of injections, other consumers, mode settings and GetEvent calls: GetEvent alone takes EOS entries, each once, in trigger order, and the answers but the dumps put together are what it took except what did not fit |
| `EosRuns.EveryAnswerWalksBack` | src/canon/canon.c:522-543 | In every run whose EOS notifications are entries, each GetEvent answer walks back to what was put into it, within 10000 bytes |
| `EosRuns.ButtonReachesFirst` | src/canon/canon.c:240-300 | In every run a client that is sent the object has the button report at an earlier place of its answers, or the button was the entry that an answer too full for it lost |
| `EosRuns.PopsAreDrain` | src/canon/canon.c:522-543 | The pops of a run put into an answer exactly what the drain sends and leave the queue it leaves |
| `EosRuns.PollIsGetEvent` | src/canon/canon.c:501-546 | A GetEvent of a run does what the channel does: refused with parameters, the dump once after a mode was set, else the drain |
| `EosOverflow.LostIff` | src/canon/canon.c:533-537 | When everything queued is due, an answer loses entry j exactly if the entries before it fit and it does not |
| `EosOverflow.ButtonIsLostIff` | src/canon/canon.c:533-537 | When everything queued is due, the button report at place j is lost exactly if 9971 to 9988 bytes stand before it |
| `EosOverflow.ButtonIsLost` | src/canon/canon.c:240-300 | A run that loses it: after 620 property changes and a full press two calls of GetEvent bring every entry, the picture included, but the button report |
| `EventQueue.InterruptList.InjectEventData` | src/vcamera.c:598-644 | The splice on the linked list is the sorted insert |
| `EventQueue.InterruptList.FindDueEntry` | src/vcamera.c:676-692 | The walk stops at the first due entry of the channels served |
| `EventQueue.InterruptList.PopEvent` | src/vcamera.c:694-708 | Takes the first classic entry, due or not, and unlinks nothing else |
| `EventQueue.InterruptList.PopEosEvent` | src/vcamera.c:711-729 | Takes the first EOS entry if it is due |
| `EventQueue.InterruptList.PopNikonEvent` | src/vcamera.c:736-748 | Takes the first due Nikon entry |
| `EventQueue.InterruptList.ReadInterrupt` | src/vcamera.c:751-789 | Copies out at most the bytes asked for of the first due classic or Nikon entry |
| `EosEvents.WalkReadsBack` | bin/eos/dec_events.c:12-32 | Walking entries by their size fields yields those entries, in order, up to the end marker |
| `EosEvents.CountEvents` | bin/eos/dec_events.c:12-32 | The client's first pass counts the entries of the walk |
| `EosEvents.DumpWalksBack` | src/canon/canon.c:452-499 | For every property table the dump walks back to one value entry a property, a marker, one list entry an enumerated property, a marker, the end |
| `EosDump.DumpReads` | src/canon/canon.c:452-499 | For every property table, walking the packed bytes yields for property i an entry of type 0xC189 with its code and its value, cut to the length of the first value under its code; a marker 0xC1A4 0x20001; for each enumerated property, in order, an entry of type 0xC18A with its code, 3, the number of its values and those values; the marker; nothing else |
| `EosDump.WalkOnlyReads` | bin/eos/dec_events.c:12-32 | Whatever the stream, what a walk yields are entries that say their own size, and together the beginning of the stream up to its end |
| `EosDump.PropChangedReads` | src/canon/canon.c:108-123 | A property change has 16 bytes, type 0xC189, the code, and the four bytes of the value, or zeros for a value of another length |
| `EosDump.InfoCheckReads` | src/canon/canon.c:125-133 | An info check has 12 bytes, type 0xC1A4 and its marker |
| `EosDump.ButtonReads` | src/canon/canon.c:178-190 | A button report has 18 bytes, type 0xC1A5, then 10, 1, 0 and the button |
| `EosDump.ObjectNoticesRead` | src/canon/canon.c:135-176 | The sizes and types of the two object notices, and zeros in their gaps |
| `EosEvents.PackAllProps` | src/canon/canon.c:452-499 | The two packing loops write exactly the bytes of the dump (read entry by entry in `EosDump.DumpReads`), each value as long as the first one under its code; the size is what the table says, so that 10000 bytes suffice exactly for tables of that size |
| `EosEvents.WholeValuesAreCopied` | src/vcamera.c:162-174 | A value is packed whole exactly if the first value under its code is no shorter, which is so where no code is registered twice |
| `EosEvents.ObjectAddedFields` | src/canon/canon.c:133-154 | Each field of an ObjectAddedEx entry stands at the offset clients read |
| `EosEvents.RequestTransferFields` | src/canon/canon.c:156-173 | Each field of a RequestObjectTransfer entry stands at the offset clients read |
| `EosEvents.FixedSizesAreEntries` | src/canon/canon.c:106-189 | The fixed-size notifications are well-formed entries that carry their property or button |
| `EosEvents.NotifyObjectAdded` | src/canon/canon.c:133-154 | Fills the zeroed buffer field by field and queues the entry; names of 64 characters or more queue nothing |
| `EosEvents.DrainTakesInOrder` | src/canon/canon.c:522-543 | A drain hands out EOS entries in queue order, stays within 10000 bytes, and loses at most the one due entry that did not fit |
| `EosEvents.AnswerWalksBack` | src/canon/canon.c:522-543 | The answer walks back to exactly the popped entries, in queue order |
| `EosEvents.EosChannel.GetEvent` | src/canon/canon.c:501-546 | Refused with parameters; else the dump, once for each time a mode was set, or a drain, with the response; the list afterwards is the specified one |
| `EosEvents.EosChannel.SetMode` | src/canon/canon.c:322-332 | SetRemoteMode and SetEventMode ask for the dump, with exactly one parameter |
| `PropTypes.PropListSize` | src/data.c:54-61 | The running size of a value list is the length of the values put together |
| `NikonEvents.NoticeReadsBack` | src/vcamera.c:646-659 | The popped event has the code and the parameter that were injected |
| `NikonEvents.NoticeFields` | src/vcamera.c:646-659 | Every field of the queued container stands at its offset: 16, type 4, code, transaction id, parameter |
| `NikonEvents.RecordFields` | src/nikon/ops.c:309-331 | The bytes of a record: code and value, or code, parameter count and value, without a value for 0x400D and 0xC102; several stand one behind the other |
| `NikonEvents.AnswerFields` | src/nikon/ops.c:309-331 | The answer starts with the number of events; its records follow at 2, or at 4 in the extended form |
| `NikonEvents.DrainTakesInOrder` | src/nikon/ops.c:309-331 | At most 64 Nikon entries go out in queue order, none is lost, and short of 64 none left is due |
| `NikonEvents.AnswerReadsBackIff` | src/nikon/ops.c:309-331 | Clients read back the popped events; in the extended form exactly if completion events carry no value |
| `NikonEvents.PopEvents` | src/nikon/ops.c:309-331 | The loop fills a buffer of the program's size with the whole answer, the count put in front last, and never beyond its end |
| `ObjectStore.ReadTreeEstablishes` | src/vcamera.c:367-401 | Scanning any card with no misplaced plain DCIM or capture folder file gives a well-formed tree with a DCIM |
| `ObjectStore.RunKeepsInv` | src/ops.c:776-900 | Every run of captures, deletes and TransferComplete keeps handles distinct, parents later in the list, and the SDRAM handle apart |
| `ObjectStore.CaptureKeeps` | src/ops.c:776-831 | A capture always finds a DCIM directory and keeps the invariant exactly as long as the 32-bit counter does not wrap |
| `ObjectStore.DeleteKeeps` | src/ops.c:839-903 | Single deletes keep the invariant |
| `ObjectStore.SdramKeeps` | src/canon/canon.c:240-298 | A capture to memory keeps the invariant |
| `ObjectStore.ParentIsLater` | src/vcamera.c:314-349 | The parent of every object but the root is a directory strictly later in the list |
| `ObjectStore.WalkReachesRoot` | src/vcamera.c:314-401 | Following parents from any object ends at the root |
| `CardScan.CardIsListed` | src/vcamera.c:314-401 | After the scan of any tree: the root under handle 0, every node under the handle that numbers it in scan order with its name, size, bytes and time below its directory, and nothing else but a DCIM in front exactly if no entry of the root has that name |
| `Catalog.Camera.constructor` | src/vcamera.c:367-401 | The scan with the DCIM fix-up computes the specified list and counter |
| `Catalog.Camera.ReadDirectories` | src/vcamera.c:314-349 | The recursive directory loop computes the specified scan |
| `Catalog.Camera.CaptureInto` | src/ops.c:786-831 | Finds or creates the folder and prepends the copy, as specified |
| `Catalog.Camera.InitiateCapture` | src/ops.c:751-837 | All five answers and the list each leaves |
| `Catalog.Camera.CaptureTrigger` | src/canon/canon.c:240-298 | Canon's full press, to the card or to memory |
| `Catalog.Camera.NikonCaptureCard` | src/nikon/ops.c:148-207 | Nikon's card capture; refused exactly when it changes nothing |
| `Catalog.Camera.TransferCompleted` | src/canon/objects.c:282-296 | Drops the picture in memory exactly if it is the one named |
| `Catalog.Camera.DeleteObject` | src/ops.c:839-903 | All answers and the list each leaves |
| `Catalog.DeleteIsExact` | src/ops.c:839-903 | A delete that answers OK removes exactly the named object, any other changes nothing |
| `Catalog.CaptureIsExact` | src/ops.c:776-831 | A capture that answers OK puts one copy of the first JPEG below a folder of DCIM and keeps every object |
| `StoreAnswers.CapturesAre` | src/ops.c:776-831 | A capture copies the first object whose name has .jpg or .JPG in it, bytes, size and time, under the given name, into the first folder of its name below the last DCIM of the root, or into a new one under a handle of its own; without a picture or a DCIM it does nothing |
| `StoreAnswers.InitiateCaptureAnswers` | src/ops.c:751-837 | 0x2002, 0x2013, 0x200B and 0x2013 in this order, 0x2001 exactly when such a capture of GPH_0099.JPG into 100GPHOT was made |
| `StoreAnswers.MemoryCaptureIs` | src/canon/canon.c:240-298 | A capture to memory keeps the bytes of the first picture, all of them below 4 GiB, under a new handle; nothing where there is no picture or it is empty |
| `StoreAnswers.TriggerIs` | src/canon/canon.c:240-298 | Destination 4 captures to memory, any other to the card |
| `StoreAnswers.OperationsAre` | src/nikon/ops.c:148-207 | The operations of a run in these terms: Nikon captures into 100NIKON, the others into 100GPHOT, TransferComplete drops the named picture only |
| `StoreAnswers.DeleteTakes` | src/ops.c:839-903 | A delete takes the first entry with the handle out, if it is a file, and nothing else |
| `StoreAnswers.DeleteAnswers` | src/ops.c:839-903 | 0x201D, 0x2009 and 0x200D in their cases, and 0x2001 exactly when the named file, or everything, is gone |
| `Catalog.Camera.GetNumObjects` | src/ops.c:222-292 | The counting loop answers as specified in every mode and error case |
| `Catalog.Camera.GetObjectHandles` | src/ops.c:294-389 | The handle buffer is filled to its last byte with the selected handles |
| `Catalog.Camera.GetObjectInfoEx` | src/canon/objects.c:192-262 | The folder listing buffer is filled to its last byte with the selected entries |
| `Listings.CountMatchesHandles` | src/ops.c:222-389 | GetNumObjects is the length of GetObjectHandles for all parameters, errors included |
| `Listings.RecursiveIsDisjointUnion` | src/ops.c:269-385 | The recursive listing is the disjoint union of the root listing and every directory's listing |
| `Listings.AllHandles` | src/ops.c:269-290 | The recursive listing names every object but the root once |
| `Listings.EosListsTheSame` | src/canon/objects.c:214-256 | EOS folder listings select the children the standard operation selects, 56 bytes each |
| `Listings.EosEntryFields` | src/canon/objects.c:236-253 | Each field of a folder entry stands where clients look for it |
| `ListingAnswers.ListingAnswersAre` | src/ops.c:222-389 | For every list and parameters: one of 0x201D, 0x2008, 0x2014, 0x2009 and 0x201A, the one that belongs to the parameters; or the number of the wanted objects and, behind that number, exactly their handles in list order |
| `ListingAnswers.FolderAnswersAre` | src/canon/objects.c:192-262 | 0x2008 or 0x201A; or the number of the children and, in list order, 56 bytes for each with every field, the format included, at its offset |
| `Downloads.GetPartialObject` | src/ops.c:441-527 | The standard partial download: the slice of the object the handle names, the list first, refused where the file cannot be opened (the bytes and codes: `PartialAnswers`) |
| `Downloads.EosServePartial` | src/canon/objects.c:55-112 | The EOS partial download, memory first, with its own cap (the bytes and codes: `PartialAnswers`) |
| `Downloads.NikonGetPartialObjectEx` | src/nikon/ops.c:650-712 | Nikon's partial download, memory first, offset and size split into two words, an offset beyond the end answered unopened and a short read refused (the bytes and codes: `WideAnswers`) |
| `Downloads.LookupsAgree` | src/canon/objects.c:67-81 | In every reachable store the two lookup orders find the same object |
| `Downloads.EosIsCappedStandard` | src/canon/objects.c:55-112 | The EOS answer is the standard one cut to the smaller cap |
| `Downloads.FoundFits` | src/ops.c:484-500 | In every reachable store an object has no more bytes than the size it announces, and as many unless it is a folder |
| `Downloads.StandardLoopRebuilds` | src/ops.c:441-527 | A client that loops over the standard operation with any positive request ends, after ceil(size / step) calls and an empty one, with the object byte for byte exactly if it is shorter than 4 GiB; of a longer one every answer brings bytes until the offset overflows |
| `Downloads.EosLoopRebuilds` | src/canon/objects.c:55-112 | The same for the EOS operation and its smaller cap |
| `Downloads.NikonLoopRebuilds` | src/nikon/ops.c:650-712 | The same for Nikon's operation, with offset and request split in two words and a bound of 2^64 |
| `Downloads.PartialAnswers` | src/ops.c:441-527 | In every reachable store, for every handle, offset and size: the standard and the EOS answer are the bytes of that very file, or of the picture in memory, from the offset on, up to 16 MiB or 512 KiB, with their count and 0x2001; 0x2002 for a capture folder or another parameter count, 0x2009 for a handle that nothing has |
| `Downloads.WideAnswers` | src/nikon/ops.c:650-712 | The same for Nikon, with 64-bit offset and size, up to 10 MiB, and a count of two words; a directory below its announced size is refused |
| `Downloads.ClientHasTheFile` | src/ops.c:441-527 | A client that loops over the standard or the EOS operation has every listed file shorter than 4 GiB byte for byte in the end |
| `Downloads.ClientHasThePicture` | src/canon/objects.c:55-112 | And the picture in memory |
| `Downloads.NikonClientHasTheFile` | src/nikon/ops.c:650-712 | A client that loops over Nikon's operation has every listed file and the picture in memory, below 2^64 bytes |
| `Downloads.Completed` | src/fuji/fuji.c:1103-1124 | What Fuji's completion test computes |
| `Downloads.CompletionIsExact` | src/fuji/fuji.c:1103-1124 | The test is true on exactly the calls that reach the end, except beyond the 16 MiB cap, where it is characterised |
| `FujiGate.RunKeeps` | src/fuji/fuji.c:20-48 | In every run DATES implies FOLDERS implies THUMB implies INFO implies the whole bootstrap, and INFO holds exactly with a current handle |
| `FujiGate.EnumReadyIsDates` | src/fuji/fuji.c:264-276 | So the ten-bit check is the DATES bit |
| `FujiGate.EnumerationIsEarned` | src/fuji/fuji.c:592-719 | Any run that answers an enumeration contains the four steps in order after the bootstrap, with no reset in between |
| `FujiGate.WhenCompleted` | src/fuji/fuji.c:264-276 | A set bit was set by an answered request of its own kind since the last reset |
| `FujiGate.AnswersAre` | src/fuji/fuji.c:592-719 | Every answer of the gate in codes and bits: 0x2003, the parameters, access denied until the steps before are done, 0x2009 for anything but a listed file, in this order |
| `FujiGate.MarksAre` | src/fuji/fuji.c:765-994 | Which bit each answered request sets, and that nothing else sets or clears one but a reset |
| `FujiGate.CurrentIs` | src/fuji/fuji.c:592-616 | Only 0x9054 selects an object: the listed file with the highest handle |
| `FujiGate.FilesOnly` | src/fuji/fuji.c:441-457 | An object can be downloaded exactly if it is listed, has a handle other than 0 and is not a directory |
| `FujiGate.DoneIff` | src/fuji/fuji.c:264-276 | A step is done exactly if its request was answered since the last reset |
| `FujiGate.BootstrapIff` | src/fuji/fuji.c:765-994 | The bootstrap is complete exactly if its six requests, with their codes, lengths and values, were made since the last reset, in any order |
| `FujiGate.Importer.SetPropValue` | src/fuji/fuji.c:765-834 | Marks the step of the written property |
| `FujiGate.Importer.GetPropValue` | src/fuji/fuji.c:886-994 | Gates D620 and D621 and marks the read steps |
| `FujiGate.Importer.GetExtensionObjectInfo` | src/fuji/fuji.c:592-616 | Refusals in order, then the newest object becomes current |
| `FujiGate.Importer.GetExtensionThumb` | src/fuji/fuji.c:618-640 | Refusals in order, then the thumb step |
| `FujiGate.Importer.GetImageImportFolders` | src/fuji/fuji.c:657-684 | Refusals in order, then the folders step |
| `FujiGate.Importer.GetImageImportDates` | src/fuji/fuji.c:686-719 | Refusals in order, then the dates step |
| `FujiGate.Importer.GetExtensionPartialObject` | src/fuji/fuji.c:642-655 | Answered only once the enumeration is ready |
| `FujiEnumeration.SortDescending` | src/fuji/fuji.c:459-490 | The in-place exchange sort leaves a descending permutation |
| `FujiEnumeration.CollectHandles` | src/fuji/fuji.c:459-490 | The collected list is a descending permutation of the downloadable handles, which `FujiGate.FilesOnly` and `EnumerationIsExact` identify |
| `FujiEnumeration.EnumerationIsExact` | src/fuji/fuji.c:947-974 | The list is strictly descending, as long as the count, names exactly the listed files with a handle other than 0, no directory, and starts with the highest of them |
| `FujiEnumeration.CollectDates` | src/fuji/fuji.c:538-590 | The date table is duplicate-free, descending, and each row counts its day |
| `FujiEnumeration.DatesAreExact` | src/fuji/fuji.c:538-590 | The counts sum to the number of objects exactly if the distinct days fit the table |
| `FujiEnumeration.RowsCountFiles` | src/fuji/fuji.c:538-590 | Each row of the date table counts the files of the card modified on its day |
| `SsdpScheduler.Serve` | src/canon/ssdp.c:682-740 | Every run: sends at least 120 ms apart, in push order, pacing exactly while one tick timer is armed, the announcement first; rounds of announcements recur 599 s and more apart, and the timer of the next is armed exactly unless the last began with no tick armed in a table with no second slot; each valid search was armed or lost to a full table, and each answer that was armed waits or went out, once and not early |
| `SsdpScheduler.PacedSpan` | src/canon/ssdp.c:187-210 | So n further sends take at least 120 n ms |
| `SsdpScheduler.Ssdp.TimerAdd` | src/canon/ssdp.c:119-133 | Takes the first free slot and touches no other, or reports that there is none |
| `SsdpScheduler.Ssdp.TimerRunExpired` | src/canon/ssdp.c:135-146 | No due timer is left: a waiting message whose tick is due is sent, a due search answer went out, a due round was held |
| `SsdpScheduler.Ssdp.TimerNextTimeout` | src/canon/ssdp.c:148-162 | The wait ends at the earliest deadline, or never |
| `SsdpScheduler.Ssdp.Push` | src/canon/ssdp.c:170-185 | Only a push that finds 127 queued is dropped; pacing starts with it |
| `SsdpScheduler.Ssdp.Tick` | src/canon/ssdp.c:187-210 | Sends one message and arms the next tick, or ends the pacing |
| `SsdpScheduler.Ssdp.RunTimer` | src/canon/ssdp.c:135-146 | Gives the slot back, then runs the callback: a tick always finds a slot; a round is recorded with the slots it found; an answer goes out |
| `SsdpScheduler.Ssdp.Round` | src/canon/ssdp.c:684-740 | One round of the main loop: every search answer due at its start has gone out, every round of announcements due has been held, and a valid search is armed for its own random delay or lost to a full table |
| `SsdpScheduler.FullTableEndsTheRounds` | src/canon/ssdp.c:288-297 | With no tick armed and 255 search answers waiting, a round of announcements is not followed by another |
| `SsdpScheduler.Ssdp.Reannounce` | src/canon/ssdp.c:288-297 | Queues three alive messages and arms the next round exactly if a slot is free, or two where no tick is armed yet |
| `SsdpScheduler.Ssdp.SendInitialAnnounce` | src/canon/ssdp.c:299-312 | Queues a byebye and three alive messages and arms the first round under the same condition |
| `SsdpScheduler.Ssdp.HandleSearch` | src/canon/ssdp.c:365-396 | Exactly the searches with the right MAN, a positive MX and an ST are answered where a slot is free: armed for the random delay below MX seconds |
| `SsdpScheduler.SearchesAre` | src/canon/ssdp.c:365-396 | A search counts exactly with MAN "ssdp:discover" in quotes, an MX whose number is positive, and an ST |
| `SsdpScheduler.AtoiReads` | src/canon/ssdp.c:365-396 | The number of an MX value: blanks, perhaps a sign, then digits as far as they go |
| `SsdpScheduler.RingPush` | src/canon/ssdp.c:170-185 | The full test is 127 waiting; otherwise the queue grows by the message |
| `SsdpScheduler.RingPop` | src/canon/ssdp.c:187-210 | The queue loses its first message |
| `UsbTransfers.RunKeeps` | src/usb/libusb.c:66-225 | Every run: each submit is called back once or pending, each event taken completes one transfer, in order; an interrupt transfer is completed, timed out or cancelled, and truthfully so; who is called back is `TurnIsExact` and `CancelIsExact` |
| `UsbTransfers.SubmitsAreCallbacksAndPending` | src/usb/libusb.c:66-225 | For each transfer, submits = callbacks + pending at all times |
| `UsbTransfers.RoundDelivers` | src/usb/libusb.c:119-152 | What a round hands out: everything due if some transfer resubmits itself, else one event a transfer, in order |
| `UsbTransfers.CancelIsExact` | src/usb/libusb.c:206-225 | A cancel of a pending transfer adds one callback, of that transfer, cancelled, without an event; the first entry that carries it goes and the others keep their order, behind a resubmission if there is one; any other cancel changes nothing |
| `UsbTransfers.CancelsAreCallbacks` | src/usb/libusb.c:206-225 | Over every run a transfer is called back as cancelled exactly as often as a cancel found it pending |
| `UsbTransfers.TurnIsExact` | src/usb/libusb.c:119-152 | Every turn: whom it calls back with which status, timed out by the microseconds since the submit, by what is due, or by the code of the bulk endpoint, and when it says nothing |
| `UsbTransfers.TurnHears` | src/usb/libusb.c:119-152 | The event a turn hands over is the first of the list that is not on the EOS channel, if that is due, and it alone leaves |
| `UsbTransfers.SubmitIsExact` | src/usb/libusb.c:182-202 | A submit stands in front with its deadline to the millisecond, or is refused for its kind |
| `UsbTransfers.FinishMovesOn` | src/usb/libusb.c:66-94 | A finished transfer is behind the walk unless it was resubmitted at the head |
| `UsbTransfers.OutTransferTraps` | src/usb/libusb.c:134-137 | The simplest input on which a round does not end: a resubmitting OUT transfer at the head keeps the walk for any number of turns |
| `UsbTransfers.RoundEndsIff` | src/usb/libusb.c:119-152 | For every pool of transfers, with or without timeouts, while the clock and the answers of the bulk endpoints stand still: the walk comes to the end of the list exactly unless the first transfer that resubmits itself or stalls is one that completes and resubmits itself, and each listening one in front of it has a due event |
| `UsbTransfers.TrappedForGood` | src/usb/libusb.c:119-152 | In the trap every turn calls somebody back and the walk stays at the head |
| `UsbTransfers.VisitAdvances` | src/usb/libusb.c:119-152 | Outside the trap every turn uses up an event, an expired transfer or a place of the list |
| `UsbTransfers.Context.SubmitTransfer` | src/usb/libusb.c:182-202 | Prepends with its deadline, or refuses the kind |
| `UsbTransfers.Context.FinishEntry` | src/usb/libusb.c:66-94 | Unlinks, calls back, and says where the walk stands afterwards |
| `UsbTransfers.Context.CancelTransfer` | src/usb/libusb.c:206-225 | Exactly the transfer that is named is called back, once, as cancelled and without an event, if it is pending; the first entry that carries it goes |
| `UsbTransfers.Context.TurnAt` | src/usb/libusb.c:119-152 | One turn: expired, OUT, served, or left waiting |
| `UsbTransfers.Context.HandleRound` | src/usb/libusb.c:114-152 | A round over any pool that is not trapped ends and does what the specification says |
| `UsbTransfers.Context.HandleTurns` | src/usb/libusb.c:114-159 | Any number of turns of the two loops, whatever the clock and the bulk endpoints say at each, is the specified run |
| `SonyStepping.StepMovesPosition` | src/sony/ops.c:337-362 | On a duplicate-free enumeration a step of d moves p to clamp(p + d) |
| `SonyStepping.OneJumpReaches` | src/sony/ops.c:337-362 | One control reaches any entry within its range |
| `SonyStepping.ExactlyTheDistance` | src/sony/ops.c:337-362 | Unit steps take exactly |q - p| controls, and no series of fewer, up and down mixed, leads there |
| `SonyStepping.OffListLands` | src/sony/ops.c:347-352 | A value off the list goes to the end it is sent towards |
| `SonyStepping.NoFasterWay` | src/sony/ops.c:337-362 | No series of controls of at most m places each gets further than m times its length |
| `SonyStepping.UpReachesIff` | src/sony/ops.c:338-362 | On a list with repetitions unit steps up get to position q exactly if no value on the way is listed before |
| `SonyStepping.DownVisitsIff` | src/sony/ops.c:338-362 | Unit steps down always get to the first entry, and visit every place down to q exactly if no value on the way is listed before |
| `SonyStepping.DownCanJump` | src/sony/ops.c:338-362 | A list where a repetition makes one step down jump two places |
| `SonyStepping.StepMovesValue` | src/sony/ops.c:364-378 | On a range a step yields clamp(cur + d * step), and the stored bytes decode to it at every width |
| `SonyStepping.OneJumpReachesValue` | src/sony/ops.c:364-378 | One control reaches any value of the range a whole number of steps away |
| `SonyStepping.DeltaIsSigned` | src/sony/ops.c:335-336 | The control value is a signed byte |
| `SonyStepping.ValuesAre` | src/sony/ops.c:364-378 | One and two byte values are signed, four byte values and all steps are not, low byte first |
| `SonyStepping.AppliesTo` | src/sony/ops.c:331-380 | Controls apply to the six integer types up to four bytes with a list or a range, and not to a step of zero |
| `SonyStepping.Setting.ApplyStep` | src/sony/ops.c:331-380 | Overwrites the value in place as specified, or reports that the control does not apply |
| `PtpStrings.StringSurvivesIff` | src/data.c:98-151 | Reading a written string gives it back exactly if it is in 32..128 and fits the buffer with its terminator; all bytes are consumed exactly if it fits; a cell beyond the buffer is written exactly if it leaves none to spare |
| `PtpStrings.WrittenIsSelfSized` | src/data.c:10-41 | ptp_get_prop_size of a written string is the bytes written, exactly below 255 characters |
| `PtpStrings.WritersAgreeIff` | src/data.c:242-257 | The two string writers agree exactly on 7-bit strings |
| `PtpStrings.WrittenBytes` | src/data.c:137-151 | Byte by byte: a count that wraps at 256, each character and a zero, two zeros |
| `PtpStrings.StoredCells` | src/data.c:98-117 | Whatever the bytes: as many characters as announced or fit, above 128 as question marks, control characters as blanks, a zero behind, and the bytes consumed |
| `PtpStrings.PutBytesAre` | src/data.c:242-257 | The bytes of the second writer |
| `PtpStrings.PtpWriteString` | src/data.c:137-151 | The loop writes the specified bytes behind what is filled |
| `PtpStrings.PtpReadString` | src/data.c:98-117 | The loop stores the specified cells at its place, terminator included, and nothing else |
| `ObjectInfo.UnpackPackIff` | src/pack.c:6-26 | Unpacking a packed ObjectInfo gives every field back, consumed = written, exactly if the four strings are printable and fit their buffers; the byte behind the record is overwritten exactly if the keywords leave no cell to spare |
| `ObjectInfo.FixedReads` | src/fuji/fs.c:246-260 | The fifteen fixed fields take 52 bytes and are read back wherever the strings end |
| `ObjectInfo.PackedFields` | src/fuji/fs.c:246-266 | Each of the fifteen fields stands at its offset, and the four strings follow in order |
| `ObjectInfo.PrintInfo` | src/fuji/fs.c:246-266 | The running-offset printer writes the packed bytes |
| `ObjectInfo.VcamUnpackObjectInfo` | src/pack.c:6-26 | The advancing reader fills fields and the adjacent buffers as specified, the spilled terminator included |
| `Packets.CommandThereAndBackIff` | src/packet.c:12-108 | A command converted to PTP/IP and back is unchanged exactly if its parameters are whole words |
| `Packets.IpCommandFields` | src/packet.c:97-108 | The fields of a command request at their offsets |
| `Packets.StartFields` | src/packet.c:67-71 | The fields of a start-data packet at their offsets |
| `Packets.ResponseFields` | src/packet.c:88-96 | The fields of a response at their offsets |
| `Packets.DataThereAndBackIff` | src/packet.c:37-87 | A data container comes back unchanged exactly if the caller names its opcode |
| `Packets.EndDeclaresItsLength` | src/packet.c:78-81 | The end-data packet declares its own length |
| `Packets.ResponsesLoseParameters` | src/packet.c:88-96 | Two responses become the same packet exactly if code and id agree |
| `Packets.ConvCommand` | src/packet.c:97-108 | The copy loop produces the request, its data-phase field being whatever the buffer held |
| `Packets.ConvIpCommand` | src/packet.c:12-35 | The copy loop produces the container, or refuses another packet type |

## Left out

- Sockets, accept loops, threads, `poll`, gadgetfs, vhci, HTTP and XML text: input and output only.
- libexif, `stat`, file reading and fixture creation: contents and sizes of files are inputs.
- `malloc` and `free`: running out of memory and use after free are not modelled.
- EosEvents.PackAllProps: `eos_pack_all_props` does not check its 10000 bytes; the model appends instead, and states the size for which that buffer is too small. A value shorter than the first one under its code, which the program reads past its end, is packed as it is.
- ObjectInfo.VcamUnpackObjectInfo: the byte behind the record, which the program may overwrite, is part of the modelled memory.
- Per-model tables, opcode registration, descriptors and device info text: constants.
- Vendor opcodes in the dispatcher of `Transactions`: they are answered as not supported.
- Transactions.SessionIsAnswered: the seven standard opcodes that only describe the camera or an object answer with an arbitrary reply, which has at most one data container by its type; which bytes they send is not modelled.
- Transactions.RunStaysInStep: the same seven opcodes.
- Transactions.TransactionIsAnswered: the same seven opcodes.
- More than one camera object: each has its own state but for the splitter's length, which `OtherCameraIff` treats.
- Responder.VirtualCamera.GetDevicePropValueWrite: the four Fuji properties computed by a getter; a stored value shorter than its type says, which the program reads past its end and the model answers as not supported.
- Responder.VirtualCamera.StoreWrite: the events a capture queues (ObjectAdded, CaptureComplete); captures are modelled for the object list, the queue for any sequence of injections.
- Callbacks of USB transfers that cancel or submit other transfers; waiting and the outer deadline of `handle_events_impl`.
- UsbTransfers.Context.HandleRound: the clock and the answers of the bulk endpoints stand still for one round, because under a clock that moves a round over resubmitting transfers with timeouts need not end; `HandleTurns` has any clock and any answers for a given number of turns.
- SsdpScheduler.Ssdp.HandleSearch: finding the headers in the message, and the text of the unicast answer; a search is the values of its three headers.
- Fuji's MULTIPLE_TRANSFER mode, which drops the head of the object list, and live view: test-rig behaviour.
- `ptp_read_uint16_array`, `ptp_write_uint16_array` and the null-terminated UTF-16 helpers: they do not do what their names say.
- PTP/IP responses: the program drops their parameters, so there is no way back to prove.
- Sony's shutter buttons and the capture they trigger: flags without branching of their own.
