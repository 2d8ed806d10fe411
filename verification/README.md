# Acousea drifter node: queue, retry protocol, module cache

A Dafny model of the part of the node firmware that has to survive restarts, bad lines and
failing ports, with proofs of what it promises. `dafny verify dfyconfig.toml` checks it all.

The model follows the firmware's own form. What the firmware does step by step in buffers,
files and offset tables is a class with the same fields and loops; each such method is proved
equal to one step of a small specification over values, and what the system promises over whole
runs is proved about that specification.

| file | what it models | its specification |
|---|---|---|
| `Bytes.dfy` | 32- and 16-bit little-endian fields, `memcpy`, `memmove` | |
| `BinaryFrame.dfy` | the length-delimited frame, built and read in place | `Frame`, `Parse` |
| `Storage.dfy` | files on the SD card, appended, region-read, shifted in place | file contents as byte sequences |
| `PacketQueue.dfy` | the persistent queue: a log file and three offsets per port, one shared 2048-byte buffer | `QueueSpec.dfy`: four FIFO queues of records |
| `SerialPort.dfy` | the resynchronising frame reader that feeds the queue | a line as frames, damaged frames and noise |
| `NativeSerialPort.dfy` | the incremental packet reader with a retained tail | `Scan` of a byte sequence |
| `Router.dfy` | dispatch of queue heads: deliver, relay, discard | `VisitPorts`, `Dispatched` |
| `Runner.dfy` | one incoming packet per cycle, with the retry table | `RetrySpec.dfy`, `GiveUp.dfy`, `GiveUpExactly.dfy`: the protocol over all runs |
| `OperationModes.dfy` | mode transitions and the report timer | `Walk`, `NextMinute` |
| `ModuleProxy.dfy` | the log-backed module cache and its one loaded value | `CacheSpec.dfy`: a history of stores and invalidations |
| `StatusReport.dfy`, `Reporting.dfy` | collecting a report; one request, then attempts until it is sent | episodes over the cache history |

The main results:

* **Queue.** The raw bytes and offsets of each port represent a FIFO queue of payloads, whatever
  the file held before `begin`; every operation acts on the bytes as on the queue; over any run
  pops return the pushes in order, nothing lost or invented, and no port disturbs another.
* **Protocol.** In any run, with any arrivals, routine results and send outcomes, and also on a
  card whose reads fail (`PortRun`, which the runner's method keeps up call by call), a packet is
  delivered at most 7 times, executed at most 5 times, removed at most once, and never handed
  to a routine again after its answer, which counts as sent exactly when its port sent it; without
  arrivals a measure decreases and the queues of the registered ports drain, whichever ports those
  are. Giving up is earned in every environment if and only if no identifier is zero and no two
  packets served one after the other share one.
* **Framing.** Frames decode in one way only and every truncation is noticed; the serial reader
  turns any mixture of frames, damaged frames and noise into exactly the intact payloads; the
  incremental reader's output does not depend on how the bytes were cut.
* **Cache and reports.** A lookup never returns a value from before the module's last
  invalidation; a report sent from an open episode holds, for each module its request covered,
  a value stored after that request, across retries and failed sends.

What the environment decides is a parameter or a nondeterministic choice: routine results, send
outcomes, arrivals, the clock's epoch, whether the card answers, how much a chunk read returns.
The queue and the cache share one card: each says that it leaves the other's files alone.
A class contract that needs the card to answer says so with `healthy`; otherwise it also covers
a card on which any operation may fail leaving the files as they were.

## Where the code differs from what one would expect

* `StatusReportingRoutine::execute` builds the report in the shared packet and then, when it opens
  an episode, `requestMultipleModules` builds the request in that same packet. So an opening
  attempt that succeeds leaves a request, not a report (`StatusReportingRoutine.Execute`); only
  later attempts of the episode send one.
* `requestMultipleModules` returns before invalidating when the device has no port, and only the
  first `_acousea_ModuleCode_MAX` codes of a list are invalidated. Exactly the codes it does
  invalidate are safe from older values (`ListedIffNeverStale`); `Covered` is that set.
* Storing a module while the loaded value is of the same code leaves the loaded value in place:
  lookups return the older one (`StoreOverSlotIsNotSeen`), until an invalidation or a lookup of
  another module replaces it. A lookup returns the newest value exactly when the loaded one has not
  been overtaken in this way (`LookupIsNewest`).
* `tryReport` compares minutes for equality, so a port whose minute passes without a call never
  reports again; `CanStillReport` gives the exact condition, `NoSlotMissed` a way to meet it.
* A routine that yields no output does not clear its port's retry entry, so a later packet with the
  same identifier inherits what was left: `RepeatedIdInheritsAttempts` is a run that gives up a packet
  after one incomplete execution, and `GiveUpEarnedExactly` the exact condition.
* The comments of `PacketQueue.hpp` say FIFO among ports; the code takes the first listed port that
  has something (`DrainIsPortOrder`). The frame constants there are unused; frames use those of
  `BinaryFrame.hpp`. The comment on `wrapInPlace` says nothing is copied; the code copies or moves.

## Model

| member | source | states |
|---|---|---|
| Bytes.Decode32Inverts | lib/shared/BinaryFrame/BinaryFrame.cpp:47-51 | reading back the four bytes of a timestamp gives the timestamp |
| Bytes.Encode32Inverts | lib/shared/BinaryFrame/BinaryFrame.cpp:120-125 | any four bytes are the encoding of the timestamp read from them |
| BinaryFrame.FrameFormat | lib/shared/BinaryFrame/BinaryFrame.hpp:9-20 | a frame is 0xAA, the timestamp in four bytes and the length in two, low bytes first, the payload, 0x55 |
| BinaryFrame.ParseInvertsFrame | lib/shared/BinaryFrame/BinaryFrame.cpp:60-151 | unwrapping a wrapped payload gives payload and timestamp back, whatever bytes follow |
| BinaryFrame.AcceptedIffFramePrefix | lib/shared/BinaryFrame/BinaryFrame.cpp:103-151 | a buffer is accepted exactly when it begins with some frame |
| BinaryFrame.AcceptedStartsWithFrame | lib/shared/BinaryFrame/BinaryFrame.cpp:115-147 | an accepted buffer begins with the encoding of what was returned |
| BinaryFrame.StrictPrefixRejected | lib/shared/BinaryFrame/BinaryFrame.cpp:110-143 | every strict prefix of a frame is rejected |
| BinaryFrame.FramesInjective | lib/shared/BinaryFrame/BinaryFrame.hpp:9-20 | back-to-back frames can be read as only one list of payloads and timestamps |
| BinaryFrame.EncodeHeader | lib/shared/BinaryFrame/BinaryFrame.cpp:33-58 | exactly the seven bytes of the given header are written, its own start byte first; refusal leaves the buffer alone |
| BinaryFrame.WrapInPlace | lib/shared/BinaryFrame/BinaryFrame.cpp:60-101 | the frame carries the payload's old contents whether it started at the output, past the header, or elsewhere; nothing beyond the frame is written |
| BinaryFrame.Unwrap | lib/shared/BinaryFrame/BinaryFrame.cpp:103-151 | accepts exactly what `Parse` accepts, and points at the payload inside the buffer |
| BinaryFrame.ParseHeader | lib/shared/BinaryFrame/BinaryFrame.cpp:7-31 | reads back any header that was encoded, whatever its start byte |
| Storage.File.TruncateFromOffset | lib/shared/StorageManager/SDStorageManager/SDStorageManager.cpp:217-246 | the in-place chunked shift leaves exactly the old bytes from the offset on, for every length, offset and chunk read size; empty at or past the end; a prefix of them if a read stalls |
| Storage.ShiftChunk | lib/shared/StorageManager/SDStorageManager/SDStorageManager.cpp:232-244 | writing the chunk just read extends the shifted prefix and keeps the unread tail, also when chunk and target overlap |
| Storage.StorageManager.TruncateFileFromOffset | lib/shared/StorageManager/SDStorageManager/SDStorageManager.cpp:207-249 | only the named file changes, and it ends as its old suffix; as the beginning of that suffix if a read stalls on a failing card |
| Storage.StorageManager.AppendBytesToFile | lib/shared/StorageManager/SDStorageManager/SDStorageManager.cpp:69-84 | appends all bytes or changes nothing; refuses an empty write; creates a missing file |
| Storage.StorageManager.ReadFileRegionBytes | lib/shared/StorageManager/SDStorageManager/SDStorageManager.cpp:182-201 | copies the file's bytes from the offset on, as many as fit, and touches nothing past them |
| Storage.StorageManager.CreateEmptyFile | lib/shared/StorageManager/SDStorageManager/SDStorageManager.cpp:55-66 | the file exists and is empty, or nothing changed |
| Storage.StorageManager.DeleteFile | lib/shared/StorageManager/SDStorageManager/SDStorageManager.cpp:121-139 | exactly the named file is gone, or nothing changed; a missing file cannot be deleted |
| QueueSpec.FirstWaitingIsFirst | lib/Router/PacketQueue/PacketQueue.cpp:198-210 | the port chosen has something waiting and every port listed before it has nothing |
| QueueSpec.FifoConservation | lib/Router/PacketQueue/PacketQueue.cpp:129-160 | over every run of pushes, peeks, pops, skips and clears: waiting then pushed equals removed then still waiting, in order |
| QueueSpec.PopsReturnPushesInOrder | lib/Router/PacketQueue/PacketQueue.cpp:214-278 | in every run from empty, the pushes in order are those that left, each popped, skipped or cleared, then those still waiting; the popped ones are what pops handed out, and all of them when nothing was skipped or cleared |
| QueueSpec.DeparturesExplained | lib/Router/PacketQueue/PacketQueue.cpp:46-70 | in every run each payload that left a port is accounted for as popped, skipped or cleared |
| QueueSpec.TakenIsPopped | lib/Router/PacketQueue/PacketQueue.cpp:332-335 | without skips and clears, what leaves a port is what pops handed out |
| QueueSpec.PortsAreIndependent | lib/Router/PacketQueue/PacketQueue.hpp:81-83 | a port ends every run as if only the operations on it had happened, an any-port peek or pop counting for the port it chose |
| QueueSpec.PeekThenSkipIsPop | lib/Router/PacketQueue/PacketQueue.cpp:254-278 | a successful peek followed by a skip is a pop, in state and in what was seen |
| QueueSpec.PeekedHeadWasSeen | lib/Router/PacketQueue/PacketQueue.cpp:263-269 | in every run a skip that can succeed drops the record last handed out, never another |
| QueueSpec.SkipDropsWhatWasSeen | lib/Router/PacketQueue/PacketQueue.cpp:254-278 | in every run that starts with nothing seen, a skip drops the record that port last handed out or changes nothing |
| QueueSpec.DrainIsPortOrder | lib/Router/PacketQueue/PacketQueue.cpp:220-252 | repeating `popAny` until it returns nothing gives port 1's queue, then 2's, 3's, 4's, all of it once |
| PacketQueue.StoredAppend | lib/Router/PacketQueue/PacketQueue.cpp:143-157 | appending a frame to a log that stores some records stores them and the new one |
| PacketQueue.HeadFitsOneRead | lib/Router/PacketQueue/PacketQueue.cpp:292-302 | one 2048-byte region read at the read offset parses to the head record, and to nothing when none waits |
| PacketQueue.OffsetsOrdered | lib/Router/PacketQueue/PacketQueue.cpp:271-275 | read <= next <= write = file size, next is read or the end of the head frame; the clamp in a skip never fires |
| PacketQueue.StoredUnique | lib/Router/PacketQueue/PacketQueue.cpp:287-313 | bytes and offset determine the queue |
| PacketQueue.PushKeepsPort | lib/Router/PacketQueue/PacketQueue.cpp:151-157 | a push keeps the representation, and a head already peeked |
| PacketQueue.PacketQueue.OtherFilesDoNotMatter | lib/Router/PacketQueue/PacketQueue.hpp:75-83 | the queue stays valid whatever happens to other files of the card, such as those of the module cache |
| PacketQueue.PacketQueue.Begin | lib/Router/PacketQueue/PacketQueue.cpp:13-44 | every port starts empty after whatever its file held; no existing file changes |
| PacketQueue.PacketQueue.Clear | lib/Router/PacketQueue/PacketQueue.cpp:46-70 | empties exactly one port's file and queue; refuses an illegal port |
| PacketQueue.PacketQueue.IsPortEmpty | lib/Router/PacketQueue/PacketQueue.cpp:104-127 | comparing two offsets tells exactly whether something waits |
| PacketQueue.PacketQueue.ArePortsEmpty | lib/Router/PacketQueue/PacketQueue.cpp:84-102 | true exactly when no listed port has something waiting |
| PacketQueue.PacketQueue.IsEmpty | lib/Router/PacketQueue/PacketQueue.cpp:72-82 | true exactly when nothing waits on any port |
| PacketQueue.PacketQueue.Push | lib/Router/PacketQueue/PacketQueue.cpp:129-160 | queues the caller's bytes as they were, even when they lie in the shared buffer; succeeds exactly for 1 to 2040 bytes and a legal port; other files unchanged |
| PacketQueue.PacketQueue.NextRecord | lib/Router/PacketQueue/PacketQueue.cpp:280-340 | returns the head payload and advances as the queue does; 0 exactly when nothing waits or it does not fit |
| PacketQueue.PacketQueue.PeekNext | lib/Router/PacketQueue/PacketQueue.cpp:174-177 | shows the head and removes nothing |
| PacketQueue.PacketQueue.NextFromPorts | lib/Router/PacketQueue/PacketQueue.cpp:190-252 | acts on the first listed port with something waiting, and on no other |
| PacketQueue.PacketQueue.SkipToNextPacket | lib/Router/PacketQueue/PacketQueue.cpp:254-278 | drops the head exactly when one waits and was peeked |
| PacketQueue.PacketQueue.GetReadOffset | lib/Router/PacketQueue/PacketQueue.cpp:162-166 | the head record's place in the log |
| SerialPort.SentStreamReadsBack | lib/Router/Ports/Serial/SerialPort.cpp:30-56 | the bytes of any accepted sends are a clean line whose payloads to queue are those sent that were not empty |
| SerialPort.NothingDropped | lib/Router/Ports/Serial/SerialPort.cpp:30-56 | of payloads that are not empty, all are queued |
| SerialPort.IntactOne | lib/Router/Ports/Serial/SerialPort.cpp:145-166 | of one thing on the line, only a frame that ends in 0x55 and is not empty is queued |
| SerialPort.IntactAppend | lib/Router/Ports/Serial/SerialPort.cpp:66-166 | what is queued of a line is what is queued of its parts, in order |
| SerialPort.SerialPort.Send | lib/Router/Ports/Serial/SerialPort.cpp:30-56 | writes one frame with timestamp 0; refuses more than 255 bytes and then writes nothing |
| SerialPort.SerialPort.Sync | lib/Router/Ports/Serial/SerialPort.cpp:58-169 | terminates; on a line of frames of up to 2040 bytes, damaged or not, and noise other than 0xAA, it reads all of it, queues exactly the intact payloads that are not empty, in order, on port 4 only, and leaves the receive counter at 0 |
| SerialPort.SerialPort.ReceiveFrame | lib/Router/Ports/Serial/SerialPort.cpp:78-125 | at a whole frame, consumes that frame and nothing after it |
| SerialPort.SerialPort.ReceiveBody | lib/Router/Ports/Serial/SerialPort.cpp:127-166 | consumes exactly the announced bytes and queues the payload if and only if the end byte is right |
| SerialPort.HeaderRead | lib/Router/Ports/Serial/SerialPort.cpp:87-108 | seven bytes read at a frame are its header, and the rest of the frame is next on the line |
| SerialPort.BodyParses | lib/Router/Ports/Serial/SerialPort.cpp:145-153 | a header with its full body unwraps exactly when the end byte is right, and to that body |
| NativeSerialPort.FindSofIsFirst | lib/Router/Ports/Serial/NativeSerialPort.cpp:208-217 | the search stops at a position exactly when it holds the first start byte or is the end |
| NativeSerialPort.FirstPrefix | lib/Router/Ports/Serial/NativeSerialPort.cpp:219-245 | a decision once taken is the same with any bytes appended |
| NativeSerialPort.ScanSplits | lib/Router/Ports/Serial/NativeSerialPort.cpp:204-253 | scanning a prefix, then its kept tail with the rest, finds what one scan of both finds |
| NativeSerialPort.ScanIsComplete | lib/Router/Ports/Serial/NativeSerialPort.cpp:223-245 | packets found have accepted lengths and the kept tail holds no further packet |
| NativeSerialPort.NoiseIsSkipped | lib/Router/Ports/Serial/NativeSerialPort.cpp:205-217 | bytes other than 0x2A in front of any buffer change nothing that is found in it |
| NativeSerialPort.BadLengthIsSkipped | lib/Router/Ports/Serial/NativeSerialPort.cpp:222-228 | after a start byte with an unacceptable length the search goes on right behind that start byte |
| NativeSerialPort.PacketIsTaken | lib/Router/Ports/Serial/NativeSerialPort.cpp:230-245 | a whole packet is found, and then what a scan of the bytes behind it finds |
| NativeSerialPort.BeginningIsKept | lib/Router/Ports/Serial/NativeSerialPort.cpp:219-235 | the beginning of a packet is kept, whole, until the rest arrives |
| NativeSerialPort.FillKeepsLast | lib/Router/Ports/Serial/NativeSerialPort.cpp:167-184 | trimming chunk by chunk leaves the last 4096 bytes of everything held and arrived, or all of them when there are no more |
| NativeSerialPort.FillWithoutTrim | lib/Router/Ports/Serial/NativeSerialPort.cpp:174-181 | nothing is trimmed while everything held fits 4096 bytes |
| NativeSerialPort.ChunksDoNotMatter | lib/Router/Ports/Serial/NativeSerialPort.cpp:160-256 | over any run of calls that never trims, the packets returned are those of the whole stream, however it was cut |
| NativeSerialPort.ScanInvertsSends | lib/Router/Ports/Serial/NativeSerialPort.cpp:127-158 | the output of any sends within the length limit scans back to the payloads, with nothing left |
| NativeSerialPort.NativeSerialPort.Send | lib/Router/Ports/Serial/NativeSerialPort.cpp:127-158 | writes start byte, length, data and succeeds exactly when each was taken whole; a short write leaves the part that was taken; refuses a closed port and more than 255 bytes |
| NativeSerialPort.NativeSerialPort.Accumulate | lib/Router/Ports/Serial/NativeSerialPort.cpp:165-200 | what was held followed by what arrived, cut to its last 4096 bytes |
| NativeSerialPort.NativeSerialPort.Read | lib/Router/Ports/Serial/NativeSerialPort.cpp:160-256 | returns the packets of a scan of what is held, and keeps exactly its tail; the rules above say what a scan finds in any buffer |
| Router.VisitPortsDispatches | lib/Router/Router.cpp:62-153 | up to the first head for this node every head is consumed, foreign ones relayed in order; that head is delivered and stays; every other queue is untouched |
| Router.VisitPortOutcome | lib/Router/Router.cpp:78-148 | one port's turn: delivered and kept, or consumed and relayed if foreign; other ports untouched |
| Router.HeadIsJudged | lib/Router/Router.cpp:90-148 | of a waiting head: a packet routed to this node's address or to 255 is delivered and stays, under its identifier or one named after its place; one routed elsewhere is relayed and goes; one that does not decode or has no routing goes |
| Router.Router.Available | lib/Router/Ports/Iridium/IridiumPort.cpp:93-96 | true exactly when the port's queue holds something, or for the Iridium port when any queue does; false only when its own queue is empty |
| Router.Router.SendToPort | lib/Router/Router.cpp:169-202 | the packet's encoding, and nothing else, reaches the port of that type, once, exactly when there is such a port and the encoding fits the buffer; the outcome is that port's own, and otherwise a failure |
| Router.ArrivalMovesOut | lib/Router/Ports/Iridium/IridiumPort.cpp:79-89 | a dispatch during which a send brings in a packet is a dispatch with that packet arriving before it, if its port is still to be visited, or after it |
| Router.ArrivalBehindHeadCommutes | lib/Router/Ports/Iridium/IridiumPort.cpp:79-89 | while a head is being dealt with, a packet arriving on any port may as well arrive after the head has gone |
| RetrySpec.ArrivalMovesOutOfCycle | lib/Router/Ports/Iridium/IridiumPort.cpp:79-89 | so a cycle during whose dispatch a packet arrives is, in state and event, a cycle before or after which it arrives |
| RetrySpec.ArrivalWhileAnswering | lib/Router/Ports/Iridium/IridiumPort.cpp:79-89 | and one arriving while a packet is being answered may as well arrive after the cycle |
| Router.Router.RelayPacket | lib/Router/Router.cpp:205-220 | one attempt per relayed port type, in order, whatever the outcomes, each of which reaches its port as `SendToPort` says |
| Router.Router.Dispatch | lib/Router/Router.cpp:90-148 | a packet for this node or broadcast is kept at the head and delivered, named after its place if it has no identifier; an undecodable, unrouted or foreign one is skipped, and every such skip succeeds |
| Router.Router.PeekNextPacket | lib/Router/Router.cpp:62-153 | on any card each port is left alone, loses a head that is not for this node, or has its head delivered and marked as seen; on a card that answers, queues, relays and delivery are those of one visit of the registered ports in order |
| Router.Router.SkipToNextPacket | lib/Router/Router.cpp:155-166 | drops the head exactly when it was seen |
| RetrySpec.CycleByPort | lib/core/NodeOperationRunner/NodeOperationRunner.cpp:308-444 | a cycle leaves each port alone, discards one head that is not for this node, or treats its head |
| RetrySpec.RemovalExplained | lib/core/NodeOperationRunner/NodeOperationRunner.cpp:354-443 | in any turn of a port the packet dealt with goes if and only if its answer was sent, its routine succeeded without output, it has no routine, or the entry that names it has nothing left |
| RetrySpec.ActKeepsWellFormed | lib/core/NodeOperationRunner/NodeOperationRunner.cpp:308-444 | every arrival and every cycle keeps the queues' records storable and in log order |
| RetrySpec.BudgetShrinks | lib/core/NodeOperationRunner/NodeOperationRunner.cpp:368-443 | every event about a packet uses up part of what it can still cause, its removal all of it |
| RetrySpec.PortPacketBounds | lib/core/NodeOperationRunner/NodeOperationRunner.cpp:368-443 | in any run of a port, on any card, a packet is delivered at most 7 times, executed at most 5 times, removed at most once |
| RetrySpec.NodeRunIsPortRun | lib/core/NodeOperationRunner/NodeOperationRunner.cpp:308-444 | every run of the node is such a run for each port |
| RetrySpec.PacketBounds | lib/core/NodeOperationRunner/NodeOperationRunner.cpp:368-443 | so the bounds hold in every run of the node |
| RetrySpec.PortRemovedIsFinal | lib/core/NodeOperationRunner/NodeOperationRunner.cpp:354-444 | in any run of a port, on any card, no later turn is given a packet that has been answered or removed; so it has at most one sent response |
| RetrySpec.RemovedIsFinal | lib/core/NodeOperationRunner/NodeOperationRunner.cpp:354-444 | the same for every run of the node |
| RetrySpec.CycleDecreases | lib/core/NodeOperationRunner/NodeOperationRunner.cpp:308-444 | for any set of registered ports: while anything waits on one of them, each cycle decreases 7 per waiting packet plus the head's retry stage |
| RetrySpec.RegisteredDrain | lib/core/NodeOperationRunner/NodeOperationRunner.cpp:308-444 | without arrivals, as many cycles as the measure says empty every registered port and leave every other queue as it was, whatever routines and ports do |
| RetrySpec.QueuesDrain | lib/core/NodeOperationRunner/NodeOperationRunner.cpp:308-444 | so everything drains if and only if nothing waits on a port the node does not have |
| GiveUp.TreatStaysHonest | lib/core/NodeOperationRunner/NodeOperationRunner.cpp:368-443 | when identifiers are separated, the retry entry keeps telling how many attempts the head has had, and giving up happens only when they are used up |
| GiveUp.TurnStaysOnTrack | lib/core/NodeOperationRunner/NodeOperationRunner.cpp:308-444 | so does every turn of a run, an arrival or a cycle |
| GiveUp.PortGiveUpIsEarned | lib/core/NodeOperationRunner/NodeOperationRunner.cpp:368-397 | in any run of a port, on any card, with any arrivals: if among the packets that are for this node and have a routine no identifier is zero and no two in succession are the same, a packet is given up only after exactly 3 incomplete executions or 3 failed sends of that packet |
| GiveUp.GiveUpIsEarned | lib/core/NodeOperationRunner/NodeOperationRunner.cpp:368-397 | the same for every run of the node |
| GiveUpExactly.GiveUpEarnedExactly | lib/core/NodeOperationRunner/NodeOperationRunner.cpp:368-443 | whatever else waits: every environment earns its giving up on a registered port if and only if the identifiers waiting there are separated in this sense |
| GiveUpExactly.ForceUnearned | lib/core/NodeOperationRunner/NodeOperationRunner.cpp:368-443 | otherwise there is an environment that makes the node give up a packet that has not had its attempts |
| GiveUpExactly.RepeatedIdInheritsAttempts | lib/core/NodeOperationRunner/NodeOperationRunner.cpp:413-424 | on a node with any ports, when nothing waits on the others, a run from a clear entry in which the second of two packets with one identifier is given up after a single incomplete execution |
| Runner.StoredIsChained | lib/Router/PacketQueue/PacketQueue.cpp:326-335 | records stored in a log are in order and storable, as the protocol results need |
| Runner.NodeOperationRunner.ValidIsWellFormed | lib/core/NodeOperationRunner/NodeOperationRunner.cpp:308-321 | every state of card and offsets is one the protocol results apply to |
| Runner.NodeOperationRunner.FindRoutine | lib/core/NodeOperationRunner/NodeOperationRunner.cpp:588-621 | found exactly when both tags are in the table |
| Runner.NodeOperationRunner.Finish | lib/core/NodeOperationRunner/NodeOperationRunner.cpp:399-443 | counts down, answers or gives up as the protocol says; a packet counts as answered exactly when its port sent the answer, which carries the output's body, or the error packet's, under the packet's identifier |
| Runner.NodeOperationRunner.Respond | lib/core/NodeOperationRunner/NodeOperationRunner.cpp:425-443 | hands the response to the port once; the entry is cleared and the head goes exactly when the port sent it, else one sending less is left |
| Runner.NodeOperationRunner.Handle | lib/core/NodeOperationRunner/NodeOperationRunner.cpp:354-443 | arms, executes, gives up or refuses as the protocol says, on this port's entry only, handing over at most one packet; what the event says about sending is what the port said |
| Runner.NodeOperationRunner.ProcessNextIncomingPacket | lib/core/NodeOperationRunner/NodeOperationRunner.cpp:308-444 | on any card, does to every port what one turn of a run may do to it (so the results about runs apply), treats what is delivered as the protocol says, and calls it answered exactly when its port sent the answer; on a card that answers, is exactly one cycle on queues and retry table, handing to ports the relays of dispatch, then at most one response on the packet's port |
| OperationModes.WalkSegments | lib/core/NodeOperationRunner/NodeOperationRunner.cpp:156-178 | the walk is in the k-th mode exactly from its first to its last run: the initial mode for its duration, later ones for max(1, duration) runs |
| OperationModes.WalkIsAfter | lib/core/NodeOperationRunner/NodeOperationRunner.cpp:156-178 | walking run by run, as the counter does, gets to the mode that the walk of whole stays gives |
| OperationModes.SegmentLength | lib/core/NodeOperationRunner/NodeOperationRunner.cpp:156-178 | every later mode lasts its own duration, and one of no duration a single run |
| OperationModes.ModeRunner.SearchForOperationMode | lib/core/NodeOperationRunner/NodeOperationRunner.cpp:507-524 | the first configured mode with that identifier; none exactly when no mode has it |
| OperationModes.ModeRunner.TryTransitionOpMode | lib/core/NodeOperationRunner/NodeOperationRunner.cpp:156-178 | moves exactly when the counter has reached the duration and the target exists; a target below 256 becomes the mode; fails exactly when there is no transition or no target |
| OperationModes.ModeRunner.Run | lib/core/NodeOperationRunner/NodeOperationRunner.cpp:139-153 | after n runs the mode is the n-run walk of the transition graph, and the cycle counter does not wrap |
| OperationModes.AttemptsAreSpaced | lib/core/NodeOperationRunner/NodeOperationRunner.cpp:201-293 | never two attempts in one minute, and after a sent report the next is at least a period later |
| OperationModes.NextAttemptIsDue | lib/core/NodeOperationRunner/NodeOperationRunner.cpp:223-292 | over any calls: the first call a minute after an attempt that was not ready or not sent, or a period after any other, is an attempt, if no call in between came later than that |
| OperationModes.PassedIsForever | lib/core/NodeOperationRunner/NodeOperationRunner.cpp:223-231 | once the clock is past the report minute there is no further attempt |
| OperationModes.CanStillReport | lib/core/NodeOperationRunner/NodeOperationRunner.cpp:223-231 | a port can still report if and only if the clock has not passed its report minute |
| OperationModes.NoSlotMissed | lib/core/NodeOperationRunner/NodeOperationRunner.cpp:201-293 | with a call in every minute from 0 and an entry for every mode, the report minute is ahead of the clock after each call |
| CacheSpec.RunKeepsCoherent | lib/core/ModuleProxy/ModuleProxy.cpp:366-570 | over all operation sequences fresh values lie after their last invalidation and a loaded value's code is fresh |
| CacheSpec.NeverBeforeInvalidation | lib/core/ModuleProxy/ModuleProxy.cpp:451-570 | in every run a lookup returns a value of its code stored after the code's last invalidation |
| CacheSpec.TracksNewest | lib/core/ModuleProxy/ModuleProxy.cpp:366-570 | in every run the fresh value of a code is its newest since the last invalidation or failed read, and a loaded value differs from it exactly when overtaken |
| CacheSpec.LookupIsNewest | lib/core/ModuleProxy/ModuleProxy.cpp:366-570 | in every run a lookup returns exactly the newest value, and nothing when there is none, if and only if the loaded value has not been overtaken |
| CacheSpec.StoreOverSlotIsNotSeen | lib/core/ModuleProxy/ModuleProxy.cpp:455-457 | store, lookup, store of one code: the lookup still returns the first value |
| CacheSpec.InvalidateAllMarks | lib/core/ModuleProxy/ModuleProxy.cpp:539-546 | after invalidating a list none of its codes is found, and no older invalidation is undone |
| CacheSpec.EpisodeIsFresh | lib/core/ModuleProxy/ModuleProxy.cpp:91-112 | after a request's invalidations, whatever happens next, a value found for a requested code was stored after them |
| ModuleProxy.AppendHolds | lib/core/ModuleProxy/ModuleProxy.cpp:423-443 | between the new offsets lies exactly the frame just appended |
| ModuleProxy.StoreKeeps | lib/core/ModuleProxy/ModuleProxy.cpp:423-443 | a store keeps the files and offsets in step with the history, for every code |
| ModuleProxy.DropKeeps | lib/core/ModuleProxy/ModuleProxy.cpp:557-561 | moving a read offset up to the write offset gives up that code's value and no other |
| ModuleProxy.ModuleProxy.Begin | lib/core/ModuleProxy/ModuleProxy.cpp:49-82 | nothing is fresh after a start, whatever the files hold; no existing file changes |
| ModuleProxy.ModuleProxy.StoreModule | lib/core/ModuleProxy/ModuleProxy.cpp:366-443 | succeeds exactly for a legal code whose encoding fits, and then is the history's store; no file but that code's changes |
| ModuleProxy.ModuleProxy.IsModuleFresh | lib/core/ModuleProxy/ModuleProxy.cpp:445-449 | comparing two offsets tells exactly whether the code has a fresh value |
| ModuleProxy.ModuleProxy.GetIfFresh | lib/core/ModuleProxy/ModuleProxy.cpp:451-536 | returns the value the history says, loads it, and found nothing exactly when there is none; a value that cannot be read back stops being fresh |
| ModuleProxy.ModuleProxy.InvalidateModule | lib/core/ModuleProxy/ModuleProxy.cpp:548-570 | the code is not fresh and the loaded value is gone; an illegal code changes nothing |
| ModuleProxy.ModuleProxy.InvalidateMultiple | lib/core/ModuleProxy/ModuleProxy.cpp:539-546 | invalidates exactly the first so many codes of the list |
| ModuleProxy.ModuleProxy.RequestMultipleModules | lib/core/ModuleProxy/ModuleProxy.cpp:91-112 | the shared packet becomes the request with the first so many codes; it goes to the device's port once and the result is what the port said; the codes are invalidated exactly when the device has a port, and without one nothing is sent |
| ModuleProxy.ModuleProxy.RequestModule | lib/core/ModuleProxy/ModuleProxy.cpp:114-135 | the same for one code |
| ModuleProxy.ModuleProxy.GetIfFreshOrRequestFromDevice | lib/core/ModuleProxy/ModuleProxy.cpp:252-274 | the fresh value with the shared packet untouched, or a request and the code invalidated |
| StatusReport.ModuleManager.RequestUpdatedModules | lib/core/ModuleManager/ModuleManager.cpp:49-74 | invalidates and sends what the proxy's request does, and the result is the port's |
| StatusReport.ModuleManager.GetModules | lib/core/ModuleManager/ModuleManager.cpp:76-318 | success appends exactly the requested modules that a report holds, in order: every device module, stored since its last invalidation, every local one, and the configured ones that are present; incomplete exactly when a device module was not fresh (on a card that answers) |
| StatusReport.ModuleManager.GetModule | lib/core/ModuleManager/ModuleManager.cpp:99-313 | one entry of that code for a local module, a configured one that is present or a fresh one of the device, and none otherwise; fails only for a device module that is not fresh |
| StatusReport.EpisodeStaysOpen | lib/Routines/routines/StatusReportingRoutine/StatusReportingRoutine.cpp:75-81 | no sequence of cache operations undoes an open episode |
| StatusReport.LeftOutIsStale | lib/core/ModuleProxy/ModuleProxy.cpp:539-546 | a fresh module that a request leaves out is still found with its older value |
| StatusReport.ListedIffNeverStale | lib/core/ModuleProxy/ModuleProxy.cpp:91-112 | for a fresh module, no later lookup returns a value from before the request if and only if it is among the codes invalidated |
| StatusReport.StatusReportingRoutine.GetCurrentReportingConfiguration | lib/Routines/routines/StatusReportingRoutine/StatusReportingRoutine.cpp:129-181 | the first report type with the identifier that the first mode with the active identifier names; none exactly when there is no such type |
| StatusReport.StatusReportingRoutine.RequestOnce | lib/Routines/routines/StatusReportingRoutine/StatusReportingRoutine.cpp:75-81 | one request per episode, sent once if the device has a port; afterwards none of the covered modules is fresh |
| StatusReport.StatusReportingRoutine.Execute | lib/Routines/routines/StatusReportingRoutine/StatusReportingRoutine.cpp:19-126 | on a card that answers, succeeds exactly when every requested device module is fresh after the request; a success holds exactly the requested modules that a report holds, in order, the covered ones with values stored since the episode opened, and so all of them when the episode was opened for the same modules, at most as many as there are codes, by a device with a port; it leaves a report exactly when the episode was already open |
| StatusReport.ReportIsFresh | lib/Routines/routines/StatusReportingRoutine/StatusReportingRoutine.cpp:76-126 | over a whole episode: a request for a report's modules, then any sequence of stores, lookups, further requests and failed attempts, then a successful collection; every device entry carries a value stored since the request |
| StatusReport.NoDeviceCodesReady | lib/core/ModuleManager/ModuleManager.cpp:137-236 | a report without device modules is always ready, so an opening attempt can succeed and leave only the request |
| StatusReport.StatusReportingRoutine.Reset | lib/Routines/routines/StatusReportingRoutine/StatusReportingRoutine.cpp:183-187 | closes the episode |
| Reporting.Reporter.Attempt | lib/core/NodeOperationRunner/NodeOperationRunner.cpp:233-292 | the attempt counts as sent or as failed exactly as the port said of the shared packet, and nothing but requests goes out besides; on a card that answers, there is something to send exactly when every requested device module is fresh; the episode survives incomplete attempts and failed sends, and ends with a sent report; what is sent from an open episode is a whole report, fresh for the covered modules |
| Reporting.Reporter.TryReport | lib/core/NodeOperationRunner/NodeOperationRunner.cpp:201-293 | attempts only in the port's minute, moves that port's minute only, by one after an incomplete or unsent attempt and by the period otherwise, as the port's own outcome decides; a report sent from an open episode is fresh |

## Left out

- Hardware and network input and output: radios, modems, GPS, displays, pins, watchdog, waits and logs. Ports appear as send outcomes and arrivals.
- The protobuf library: encoding and decoding are function values; the cache assumes that decoding gives back what was encoded, the router assumes nothing.
- PacketQueue.PacketQueue.Push: the timestamp of a record is some 32-bit value, not tied to a clock.
- Which module code is of which kind, and whether a configured module is present, are parameters; the values of locally sampled modules are arbitrary.
- Arrivals inside a cycle: `syncAllPorts` runs at its start, and an Iridium send stores received packets in the queue while a packet is being relayed or answered. Here arrivals are separate actions between cycles; `ArrivalMovesOutOfCycle` and `ArrivalWhileAnswering` show that one inside a cycle may as well come before or after it.
- Router.Router.SendToPort: does not itself push what an Iridium send receives, for that reason.
- Storage failures that are not atomic: partial appends, and region reads cut short. On a failing card every operation fails whole.
- Storage.StorageManager.ReadFileRegionBytes: returns 0 when the card fails. The source passes on what the card library's read returns, and should that report an error as -1, the unsigned result is huge and old buffer bytes would be parsed. Past the end of a file it returns 0, where the source ignores that the seek failed; the callers never read there.
- Storage.File.TruncateFromOffset: likewise, a read that fails counts as one that stalls.
- PacketQueue.PacketQueue.Clear: does not keep the queue valid when the card deletes the file and then fails to create it, because the source does not either; it says so and covers the rest.
- Files of 4 GiB and more: region offsets are 32 bits wide in the source and unbounded here.
- PacketQueue.PacketQueue.SkipToNextPacket: writes the clamp to the write offset as a minimum; `OffsetsOrdered` shows that it never bites.
- PacketQueue.PacketQueue.NextRecord: copies forward byte by byte when the output is the shared buffer itself, where `memcpy` leaves the overlap undefined.
- BinaryFrame.WrapInPlace: allows the payload at the start of the output or past its header, the only overlaps the callers use; `memcpy` between other overlapping regions is undefined.
- BinaryFrame.ParseHeader: starts from a zero header, as its caller does; the source combines the timestamp into whatever the caller's header held.
- SerialPort.SerialPort.Sync: promises the queued payloads for lines whose frames have been received whole; when reads come back short it promises termination, valid queues and a bounded buffer.
- NativeSerialPort.NativeSerialPort.Send: counts a write that fails as one that takes no bytes. The largest accepted length is a constant from 1 to 255, because its definition is not part of this model.
- FIFO order across ports: the code has port list order, and that is what is proved.
- Runner.NodeOperationRunner.ProcessNextIncomingPacket: on a failing card, does not say which ports' heads could be read; those that could not are left alone.
- Runner.NodeOperationRunner.Finish: makes no claim about the reply's addresses; the source takes them from the packet's own routing and does not use the destination it is given.
- RetrySpec.PacketBounds: speaks of nodes whose registered ports have distinct types, as the port table of a node has.
- OperationModes.ModeRunner.Run: speaks of configurations in which every mode a lookup can find has a transition to another such mode; otherwise the source restarts the device. The other work of a run is modelled in `Runner` and `Reporting`.
- The wrap-around of the millisecond clock behind the report minutes.
- Reporting.Reporter.Attempt: does not say what a request sent by the opening attempt carries, because the source leaves there whatever the request's bytes read as.
- ModuleProxy.ModuleProxy.GetIfFresh: has no branch for bytes that read back but do not unwrap or decode, because the representation and the codec law rule it out; a missing module file likewise.
- The in-memory variant of the cache, `sendModule`, `getIfFreshOrSetOnDevice` and `setModules`: the first has no offsets, the others would repeat invalidate-and-send, and the last edits shared configuration before checking it.
- Battery, rule tables, mock clocks, scheduler, hexadecimal conversion and the other routines: small and independent of the logs.
