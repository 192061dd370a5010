# A verified model of the synchronous PMU sampler

The repository samples performance counters in a kernel module, sends the samples over a network and
sorts them into one file per process. This project models the two parts that carry the data. It proves that
they never reorder, repeat or mix up samples, and exactly when they lose some.

**From buffers to files.** `network_send` looks up the process of each sample in a cache fed by /proc, collects
samples of one process into a packet, serializes packets into a growing block and sends them. The reader finds the
packets in the byte stream, and the splitter spreads their samples over the processes' files, with one cursor per
core into a shared map of open files.

- `Bytes`, `SampleBuffer`, `Wire`: bytes, words, C strings; the packet format as a pure encoder and a pure parser.
- `Streams`: streams of packets, whole or cut off anywhere.
- `PacketReader`: the parser of sender/packet.cpp, with its advancing pointers and its unsigned counter that wraps.
- `ProcessState`, `ProcessLaws`, `ProcessHistory`, `ProcessCache`: the process cache as a state machine, what it keeps
  over all call sequences, what it remembers of the answers read, and the class whose records are updated through
  references.
- `Grouping`, `Sender`, `Transmissions`, `SenderRuns`, `PacketContents`: the greedy grouping, the packets of a batch,
  what of them goes on the wire when memory, the socket or the debug copy fail, and whole runs of batches, as functions;
  what each packet contains, in terms of the buffers and of the answers of /proc.
- `Packetizer`, `Network`: the accumulator with its block, its sample array and its borrowed string pointers, and the
  loop that drives it.
- `Splitting`, `Splitter`, `Reader`: the splitter as a state machine over packet streams, its cores and files as
  objects that alias each other, and the framing loop.
- `SampleFlow`, `EndToEnd`: which samples a run's packets carry and which of them the splitter drops; the theorems about
  all of these together, and methods that compose the modelled functions.

**The kernel's buffer pool.** Buffers go round from an empty list to a core, a full list, a reader and back.

- `PoolMachine`, `PoolInvariant`, `PoolSteps`, `PoolTheorems`, `PoolReaders`, `PoolReadings`: any number of cores,
  readers and buffers, one step per spinlock section or buffer access, interleaved in any way; the invariant, what
  follows in every reachable state, and what the samples say about the readings taken.
- `BufferList`, `Kernel`: the head/tail lists and the module's functions over real buffers. Each section of the C
  functions is a method that refines one step of the machine from any state of the other cores and readers.

**Both together.** `KernelToDisk` follows the readings from the cores of the kernel to the rows in the files.

Conventions: `unsigned long` is 64 bits wide, so a 32-bit platform uses part of the range. `BUFFER_ENTRIES` and the
numbers of cores of the kernel, of readers and of hardware counters are parameters. What the environment decides is an
argument: what /proc answers, whether memory is granted, how many bytes a socket accepts, whether a copy to user space
works, and `behind`, the bytes that can be read behind the end of a file in memory. Methods update objects as the source
does and are tied by their contracts to functions of the old state; the theorems are about these functions.

Where the code and its documentation differ, the code is followed:

- sender/protocol.txt:42-45 says that strings are empty for a repeated process; `write_info` always sends them.
- sender/protocol.txt:23 allows a quantity of 256; a packet holds 1 to 255 samples when it is sent.
- reader/splitter_reader.cpp:198 lets core 16 pass and line 202 then aborts; cores above 16 are skipped, and their
  samples are lost (`SampleFlow.ServedExactly`, `EndToEnd.NothingLost`).
- reader/reader.cpp:30-36 stops at an incomplete packet only for some cuts (`Streams.CleanCutExactly`). When the
  executable has no NUL, `read_info` reports success and the packet is delivered with whatever string memory holds up to
  the next NUL; when the command line has none, the counter wraps and the executable is read from behind the file. The
  samples are right in both cases. Only when there is no NUL in readable memory does the program fault.

## Model

| member | source | states |
|---|---|---|
| Bytes.LowBits | sender/packet.cpp:286 | Storing in 32 bits keeps the lowest 32 bits and drops the others. |
| Bytes.DigitsOfWord | sender/packet.cpp:251-254 | A word is written as its four bytes, the most significant first. |
| Bytes.WordOfDigits | sender/packet.cpp:230-233 | Four bytes are read as a number, the most significant first. |
| Wire.HeaderLayout | sender/protocol.txt:20-27 | Each header field is at the bytes the protocol gives, and the strings with their NULs follow the samples. |
| Wire.SampleLayout | sender/protocol.txt:31-37 | Each sample is its cycles, cut to 32 bits, and its counters in order. |
| Wire.PacketRoundTrip | sender/packet.cpp:47-73 | Parsing an encoded packet followed by any bytes gives the packet the wire carries (cycles cut to 32 bits, pid from the header) and its exact length. |
| Wire.PrefixFree | sender/packet.cpp:109-138 | Two encoded packets in front of the same bytes are the same packet, so frames need no length. |
| Wire.HeaderRoundTrip | sender/packet.cpp:218-258 | Reading a written header gives it back, whatever follows. |
| Wire.SamplesRoundTrip | sender/packet.cpp:260-292 | Reading written samples gives each of them back in its place. |
| Wire.StringsRoundTrip | sender/packet.cpp:294-337 | Two strings written one behind the other are found again with the number of bytes they take, whatever follows them in and behind the block. |
| Streams.PacketCut | sender/packet.cpp:53-65 | For every cut of a packet and anything readable behind it, what the parser does: asks for more, faults, or reports success with the strings that memory happens to hold. |
| Streams.StreamRoundTrip | reader/reader.cpp:21-39 | A concatenation of packets is delivered as exactly those packets, and reading ends at the end of the file. |
| Streams.StreamAfterPackets | reader/reader.cpp:21-39 | Complete packets in front of any bytes are delivered in order, then the bytes are read as they stand. |
| Streams.TruncatedStream | reader/reader.cpp:27-38 | A stream cut inside a packet hands on the packets before it, and then what `PacketCut` says of the cut packet, exactly. |
| Streams.CleanCutExactly | reader/reader.cpp:30-34 | The reader delivers exactly the complete packets and reports the incomplete one, whatever is behind the file, if and only if the cut is in the header, in the samples or right behind the command line's NUL. |
| Streams.AnyCut | reader/reader.cpp:21-39 | However a stream is cut, the packets handed on are those completely before the cut, and after them the cut packet, with its header and samples, exactly when these are complete and both strings end in readable memory. |
| PacketReader.ReadHeader | sender/packet.cpp:218-234 | The header at a position of the file. |
| PacketReader.ReadSamples | sender/packet.cpp:260-274 | The array gets the packet's samples in front and keeps its other slots. |
| PacketReader.ReadInfo | sender/packet.cpp:294-319 | Return code, where both strings start, what they are in memory and how many bytes are counted, for every input, including the wrapped counter. |
| PacketReader.PacketRead | sender/packet.cpp:47-73 | The outcome of the pure parser for every block and anything behind it: return code, header, samples, strings and bytes read. |
| ProcessCache.ProcessInfo.LoadFrom | sender/process_info.cpp:98-109 | Each string is replaced by its answer, the mode is `Kernel` if both are blank and `User` otherwise, and failure is reported if either reading failed. |
| ProcessCache.Processes.Settle | sender/process_info.cpp:44-52 | Flags, checks and the earliest zygote after a load, whether it failed or not. |
| ProcessCache.Processes.GetProcessInfo | sender/process_info.cpp:37-96 | The map after a lookup is that of the state machine, one record changed in place, all references stay, and the record has the low 32 bits of the pid to read /proc with. |
| ProcessHistory.AlwaysRemembers | sender/process_info.cpp:37-109 | Over any lookups and any answers: an entry has both strings of the latest answer read and is `Kernel` exactly when both are blank; a string check is pending exactly while no answer was good, and then loads and checks left add up to 11; it is a zygote exactly when the latest good answer is named "zygote", with ten checks, one less for each answer since the first good one, and none after a failed one. |
| ProcessHistory.RecordsExactly | sender/process_info.cpp:44-51 | When a lookup records a zygote, and the earliest one after it, for every entry and answer. |
| ProcessHistory.StringsCheckedAgain | sender/process_info.cpp:61-73 | While no answer was good, a checked lookup reads again as long as there were fewer than 11 loads, and replaces both strings. |
| ProcessHistory.ZygoteCheckedAgain | sender/process_info.cpp:82-92 | A checked lookup of a zygote reads again whenever an earlier one is known, or while fewer than ten answers were read since it was identified and none of them failed. |
| ProcessLaws.LoadBudget | sender/process_info.cpp:37-96 | Over any lookups and any answers, a process is read at most 1 + 10 + 10 times, plus once per check made while an earlier zygote is known. |
| ProcessLaws.LoadsArePaid | sender/process_info.cpp:61-92 | Loads so far plus checks left never exceed that budget. |
| ProcessLaws.SettledForever | sender/process_info.cpp:56-80 | A settled entry, with no string check pending and no zygote flag, or of pid 0 and with no zygote checks left, never changes again. |
| ProcessLaws.SettledExactly | sender/process_info.cpp:61-95 | For every entry and pid: no cache and no answer can change it if and only if it is settled. |
| ProcessLaws.EarliestIsLeast | sender/process_info.cpp:48-51 | The earliest zygote is the least pid ever recorded, if and only if pid 0 was never recorded or was recorded last. |
| ProcessLaws.EarliestNeverGrows | sender/process_info.cpp:67-68 | Once set, it never grows and is never unset at any later moment, if and only if pid 0 is not recorded any more. |
| ProcessLaws.EarliestCanFail | sender/process_info.cpp:48-51 | Two lookups after which the earliest zygote is 5 although pid 0 was recorded. |
| Grouping.GreedyIsSplit | sender/network.cpp:34-51 | The groups cover the buffer without gap or overlap, each of one process and 1 to 255 samples. |
| Grouping.GreedyIsMaximal | sender/packet.cpp:83-86 | Between neighbouring groups the first is full or the process changes. |
| Grouping.GreedyIsOptimal | sender/network.cpp:34-51 | No split into such groups has fewer of them. |
| Sender.FewestPackets | sender/network.cpp:34-53 | No split of the buffer sends fewer packets than `network_send` does. |
| Sender.SeenEntryStays | sender/network.cpp:36 | A process seen in a batch keeps its cache entry until the batch ends. |
| Sender.OthersNotRefreshed | sender/network.cpp:34-36 | Of the processes known before a batch, at most that of the first sample is re-read. |
| Sender.PacketsAreGroups | sender/packet.cpp:146-159 | The packets are the greedy groups one for one, each with its first index, its process's strings and its mode. |
| Sender.PacketAgreesWithCache | sender/packet.cpp:83-86 | At every later moment of the batch, a packet's strings and kernel flag agree with the cache entry of each of its samples. |
| Transmissions.SentIsPrefix | sender/network.cpp:39-53 | What a batch puts on the wire is a beginning of its packets' bytes, and all of them when all went well. |
| Transmissions.SentExactly | sender/network.cpp:115-141 | All goes well if and only if, for every packet of the batch, the block is large enough or memory is granted, the socket accepts all bytes and the debug copy works. |
| SenderRuns.RunSent | sender/sender.cpp:222-239 | A run, which stops at the first batch that is not sent completely, puts a beginning of its packets' bytes on the wire, and all of them when every batch is sent completely. |
| SenderRuns.AllPacketsWellFormed | sender/packet.cpp:199-205 | Every packet of a run can be carried: its quantity counts its samples, its strings end at their first NUL. |
| PacketContents.CacheOfRun | sender/network.cpp:34-36 | The sender's cache is that of one lookup per sample, of which only the first of each batch may re-check, so that all laws of the cache hold of it. |
| PacketContents.PacketsAreTrue | sender/packet.cpp:140-168 | For fewer than 2^32 batches, every packet has the samples, the core, the missed count and the pid of its batch at its first index, the number of counters 6, the strings of the latest answer read for its process by then, and kernel flag 1 exactly when both are empty. |
| SenderRuns.SampleIdentity | sender/packet.cpp:150-179 | For fewer than 2^32 batches, batch and first index order all packets as sent, with disjoint index ranges inside a batch. |
| Packetizer.Accumulator.ClearData | sender/packet.cpp:190-197 | The header but for its batch number, the string pointers and all 256 samples are cleared; block and index are kept. |
| Packetizer.Accumulator.StartBatch | sender/packet.cpp:170-179 | Nothing is pending, the index restarts, the batch number advances and wraps. |
| Packetizer.Accumulator.Append | sender/packet.cpp:140-168 | The sample joins the packet, or starts one whose strings are borrowed from the process's record; -1 exactly when the packet is full, of another core or process, or of the kernel and the sample is not, and then nothing changes. |
| Packetizer.Accumulator.DemandMemory | sender/packet.cpp:199-216 | The size is exactly that of the pending packet; the block grows only when it is too small and is lost when memory is refused. |
| Packetizer.Accumulator.WriteHeader | sender/packet.cpp:236-258 | Writes the encoded header in place and nothing else. |
| Packetizer.Accumulator.WriteSamples | sender/packet.cpp:276-292 | Writes the encoded samples in place and nothing else. |
| Packetizer.Accumulator.WriteInfo | sender/packet.cpp:322-337 | Writes both strings and their NULs in place, read through pointers that are still good. |
| Packetizer.Accumulator.WritePacket | sender/packet.cpp:131-133 | The three writers together write exactly the encoded pending packet at the front of the block, and nothing else. |
| Packetizer.Accumulator.Create | sender/packet.cpp:109-138 | The block starts with the encoded packet and has grown no more than it had to; an empty packet gives no bytes; refused memory gives -1, keeps the packet and loses the block. |
| Network.Sending.SendPacket | sender/network.cpp:115-141 | The bytes the socket accepts go on the wire; 0 is returned if and only if it accepts all of them and the debug copy works, and only then is their number reported. |
| Network.Sending.Transmit | sender/network.cpp:165-176 | Exactly what `SentPacket` says of the pending packet: bytes on the wire, success or failure, size of the block; when nothing is pending the count is left as it was. |
| Network.Sending.PendingPacket | sender/packet.cpp:157-158 | While a packet is pending, its string pointers are good and refer to the strings its process had when it was started. |
| Network.Sending.CutsGreedily | sender/packet.cpp:83-86 | The code cuts exactly when the packet is full or the process changes; the mode alone never forces a cut. |
| Network.Sending.Look | sender/network.cpp:36 | The lookup of a sample never touches the record a pending packet borrows from. |
| Network.Sending.Take | sender/network.cpp:46-48 | Appending after the check never returns -1. |
| Network.Sending.SendSample | sender/network.cpp:34-49 | One turn of the loop keeps what was sent plus what is still to come equal to what the whole batch sends, also when it fails. |
| Network.Sending.NetworkSend | sender/network.cpp:21-57 | It returns 0 if and only if everything it asks of the environment works, and puts exactly the bytes on the wire that `BatchSent` says, whether it succeeds or not; on success `total` is their number. |
| Splitting.CoreFollowsStream | reader/splitter_reader.cpp:99-118 | For every stream and core, the core is at the process of its latest packet. |
| Splitting.CoresAlwaysKnown | reader/splitter_reader.cpp:115-152 | That process always has an open file. |
| Splitting.FileRows | reader/splitter_reader.cpp:155-182 | A file's rows are exactly its process's samples in the packets of cores below 16, in the order of the stream. |
| Splitting.FileShows | reader/splitter_reader.cpp:155-182 | Row for row, a file shows the samples of its process in the packets of cores below 16: the lowest 32 bits of the cycles, and each counter in its place. |
| Splitting.TitleStrings | reader/splitter_reader.cpp:136-146 | A file's title shows the strings of its process's first packet of a core below 16. |
| Splitting.FileSeparators | reader/splitter_reader.cpp:99-113 | A file has one separator for each time a core turned from its process to another. |
| Splitting.FileOpened | reader/splitter_reader.cpp:118-149 | Exactly the processes with packets of cores below 16 have files, each opened once with its title in front. |
| Splitting.VisitsAreSeparated | reader/splitter_reader.cpp:99-113 | Between two packets of a process on one core with another process's packet on that core in between, the file has a separator. |
| Splitting.IndexStrings | reader/splitter_reader.cpp:94-97 | The strings kept for the index are those of the process's latest packet of a core below 16. |
| Splitter.Shared.CloseAll | reader/splitter_reader.cpp:81-89 | Every file is closed and the index gets one line for each, with its latest strings, and no others. |
| Splitter.CoreOutput.CheckIncrFile | reader/splitter_reader.cpp:91-153 | The core's file is the shared map's file of the new process; the file it leaves gets a separator; a new file gets its title; all others stay as they are. |
| Splitter.CoreOutput.ProcessPacket | reader/splitter_reader.cpp:155-182 | The process's file then grows by rows that show the packet's samples, cycles and counters each in their place, and by nothing left over in the array. |
| Reader.Outputs.ProcessPacket | reader/splitter_reader.cpp:195-203 | All sixteen cores and all files stay consistent and move by one packet; core 16 aborts, higher cores are skipped. |
| Reader.ReadFileLoop | reader/reader.cpp:14-40 | For every file with a description and anything behind it, the files and cores after the loop are those of the packets handed on up to the first of core 16, and the loop ends where and why the parser says: at the end, at an incomplete packet, in the assertion or in a fault. |
| SampleFlow.RunRows | sender/network.cpp:33-53 | The packets of a run carry each process's samples from every core, all of them, once and in order, each with its cycles and counters. |
| SampleFlow.RunRowsOf | sender/network.cpp:33-53 | The same for the packets and samples of any choice of cores. |
| SampleFlow.RunAborts | reader/splitter_reader.cpp:198-202 | The reader's assertion fails exactly when some buffer with samples is from core 16. |
| SampleFlow.DeliveredOfRun | reader/splitter_reader.cpp:195-203 | Of the packets of a run, exactly those of the batches before the first with samples from core 16 are delivered. |
| SampleFlow.LostSamples | reader/splitter_reader.cpp:198-201 | The samples of a process from cores below 16 are all its samples if and only if no buffer of another core has any of it; otherwise they are fewer. |
| SampleFlow.ServedExactly | reader/splitter_reader.cpp:198-201 | This holds for every process if and only if each buffer has no samples or is from a core below 16. |
| EndToEnd.CutSamples | reader/reader.cpp:21-39 | What is handed on of a stream cut anywhere has the headers and samples of the packets the stream starts with. |
| EndToEnd.ArrivalsAreTrue | reader/reader.cpp:21-39 | Every packet handed on of any beginning of the bytes of a run has a true header, with missed count and number of counters, and its samples with their cycles cut to 32 bits, the pid and their counters. |
| EndToEnd.WireIsTrue | sender/network.cpp:47 | The same for what a run puts on the wire, however it ends. |
| EndToEnd.StreamToRows | reader/reader.cpp:21-39 | Any beginning of the bytes of a run, whatever is behind it, delivers from any choice of cores rows that show a beginning of each process's samples from these cores, in order. |
| EndToEnd.WholeStream | reader/reader.cpp:21-39 | All bytes of a run deliver exactly the packets of the batches before the first from core 16, and the program ends in its assertion if there is such a batch, otherwise at the end of the stream. |
| EndToEnd.StreamToFiles | reader/reader.cpp:21-39 | Any beginning of the bytes of a run, whatever is behind it, gives each process's file a beginning of its samples from cores below 16, in order; all bytes give it exactly those of the batches before the first from core 16. |
| EndToEnd.NothingLost | reader/splitter_reader.cpp:195-203 | When all bytes arrive, every file holds all samples of its process from every core if and only if each buffer has no samples or is from a core below 16. |
| EndToEnd.SendBatches | sender/sender.cpp:222-239 | The sending loop returns 0 if and only if every batch is sent completely, and puts exactly the bytes on the wire that `RunBytes` says. |
| EndToEnd.SplitFile | reader/splitter_reader.cpp:249-252 | On any stream, each process delivered has one file with one title, its rows in order and one separator per turn of a core away from it; the index has one line per file with the latest strings when the program gets as far as `closeAll`. |
| EndToEnd.Transfer | sender/network.cpp:21-57 | The modelled sender, reader and splitter together: what reaches the disk is a beginning of each process's samples from cores below 16, cycles cut to 32 bits and counters unchanged, in a file with its title, separators and index line. When everything asked of the environment worked, these are exactly the samples of the batches before the first from core 16, and they are all samples of the run if and only if each buffer has no samples or is from a core below 16. |
| PoolInvariant.AccessIsExclusive | module/pmu_sync_sample_main.c:221-234 | Whoever touches a buffer's fields next has it alone; a stale pointer is never followed; a store finds a free slot. |
| PoolSteps.StepKeeps | module/pmu_sync_sample_main.c:115-255 | Every step of every core and reader keeps the invariant. |
| PoolSteps.StoreKeeps | module/pmu_sync_sample_main.c:224-230 | The invariant is kept; the slot a store writes, which `SamplesAreReadings` says shows the reading, becomes the last of its core's kept samples and of its buffer, and the history is unchanged. |
| PoolSteps.StartKeeps | module/pmu_sync_sample_main.c:250-252 | The invariant is kept; exactly the samples of the partly filled buffer are given up, and the history is unchanged. |
| PoolSteps.CheckKeeps | module/pmu_sync_sample_main.c:232-236 | The invariant is kept; the buffer and its samples go to the end of the full list and of the history exactly when it is full. |
| PoolSteps.TakeKeeps | module/pmu_sync_sample_main.c:128-131 | The invariant and the history are kept, and the deliveries grow by exactly the oldest entry of the history that was not taken yet. |
| PoolSteps.ReachableInv | module/pmu_sync_sample_main.c:115-255 | The invariant holds in every state of every run, for any number of cores, readers and buffers. |
| PoolTheorems.OnePlace | module/pmu_sync_sample_main.c:128-143 | In every reachable state each buffer is in exactly one of the empty list, the full list, one core's hands and one reader's hands. |
| PoolTheorems.ExclusiveAccess | module/pmu_sync_sample_main.c:221-234 | In every reachable state, any step that touches a buffer's fields has the buffer alone, and a store finds a free slot. |
| PoolTheorems.StaleWindowIsReal | module/pmu_sync_sample_main.c:233-234 | A run in which one core is about to store into the buffer another core's `lbuffer` still points to. |
| PoolTheorems.Conservation | module/pmu_sync_sample_main.c:208-255 | Per core and in order, samples taken by readers, waiting and partly collected are those stored and not given up; calls are stores plus misses plus at most one under way. |
| PoolTheorems.FillDiscipline | module/pmu_sync_sample_main.c:202-237 | Every delivered or waiting buffer has exactly `BUFFER_ENTRIES` samples of one core; a store goes to a tagged buffer with a free slot; a copy is what was popped. |
| PoolTheorems.Padding | module/pmu_sync_sample_main.c:228-230 | The counters the hardware does not have are zero in every slot, every delivered sample and every copy of every run, although buffers are used again and a store leaves them alone. |
| PoolTheorems.Exhaustion | module/pmu_sync_sample_main.c:214-220 | When a core finds no empty buffer, all but C - 1 buffers and one per busy reader are in the full list. |
| PoolReadings.SamplesAreReadings | module/pmu_sync_sample_main.c:224-230 | Over every run, the samples a core stored are its readings one for one and in order: cycles, pid and each counter in its place, and zeros for counters that were not read. |
| PoolReadings.KeptShow | module/pmu_sync_sample_main.c:250-252 | The samples a core still wants show the readings it did not give up. |
| PoolReadings.CallsAreCounted | module/pmu_sync_sample_main.c:208-220 | Over every run, the counter user space sees is the number of misses, and each call of `gatherSample` stored a reading, was missed or is under way. |
| PoolReadings.CopiesAreCounted | module/pmu_sync_sample_main.c:136-141 | Over every run, exactly the successful copies reached user space and the failed ones are lost. |
| PoolReaders.DeliveredOnce | module/pmu_sync_sample_main.c:128-143 | In every reachable state each popped buffer was copied to user space, or lost to a failed copy, or is in one reader's hands to be copied, exactly one of these and once. |
| PoolReaders.CopiedOnce | module/pmu_sync_sample_main.c:136-141 | No popped buffer reaches user space twice, and none that a reader is about to copy did so before. |
| PoolReaders.OneReader | module/pmu_sync_sample_main.c:115-146 | A single reader whose copies all worked gets the popped buffers in the order they were popped, all but at most the one in its hands. |
| PoolReaders.CoreUndisturbed | module/pmu_sync_sample_main.c:208-252 | Whatever the other cores and the readers do between two sections of a core, its place, its pointer, the content of its buffer and the steps it can take stay as they were. |
| PoolReaders.ReaderUndisturbed | module/pmu_sync_sample_main.c:128-143 | The same for a reader and the buffer it holds. |
| BufferList.List.Append | module/pmu_sync_sample_main.c:35-59 | The list from head to tail, each node once, grows by the buffer at its end; a missing buffer changes nothing. |
| BufferList.List.Pop | module/pmu_sync_sample_main.c:61-83 | The first buffer is taken off and unlinked, or there is none. |
| Kernel.Sampler.constructor | module/pmu_sync_sample_main.c:380-390 | The set-up is an initial state with as many zeroed buffers as allocations that succeeded. |
| Kernel.Sampler.ReadCurrent | module/pmu_sync_sample_main.c:210 | Refines the step that enters `gatherSample`. |
| Kernel.Sampler.PopEmpty | module/pmu_sync_sample_main.c:215 | Refines the step that takes an empty buffer or finds none. |
| Kernel.Sampler.InitializeBuffer | module/pmu_sync_sample_main.c:202-205 | Refines the step that tags and resets a buffer. |
| Kernel.Sampler.StoreSample | module/pmu_sync_sample_main.c:224-230 | Refines the step that writes the reading into the next slot: cycles, pid and each counter in its place; other counters and other slots keep their values. |
| Kernel.Sampler.HandOver | module/pmu_sync_sample_main.c:232-233 | Refines the step that hands a full buffer over. |
| Kernel.Sampler.ClearCurrent | module/pmu_sync_sample_main.c:234 | Refines the step that clears the stale pointer. |
| Kernel.Sampler.GiveBack | module/pmu_sync_sample_main.c:250-251 | Refines the step that returns a partly filled buffer. |
| Kernel.Sampler.TakeFull | module/pmu_sync_sample_main.c:128-134 | Refines the step that takes a full buffer, or finds none. |
| Kernel.Sampler.CopyToUser | module/pmu_sync_sample_main.c:136-141 | Refines the copy; the user gets the buffer as it was popped. |
| Kernel.Sampler.ReturnBuffer | module/pmu_sync_sample_main.c:143 | Refines the return to the empty list. |
| Kernel.Sampler.GatherSample | module/pmu_sync_sample_main.c:208-237 | The whole function is exactly one run of the machine: it makes a buffer current if there is none, stores the reading and hands the buffer over when that fills it; or it counts a miss, exactly when there is neither a current nor an empty buffer. |
| Kernel.Sampler.StartCtrs | module/pmu_sync_sample_main.c:240-252 | The whole function is a run of the machine that leaves the core without a buffer. |
| Kernel.Sampler.MyRead | module/pmu_sync_sample_main.c:115-146 | The whole function delivers the oldest full buffer and returns it to the empty list whether or not the copy works. |
| Kernel.Sampler.CleanupModule | module/pmu_sync_sample_main.c:428-441 | From any quiescent state it ends and frees every allocated buffer exactly once. |
| KernelToDisk.FedInOrder | module/pmu_sync_sample_main.c:115-146 | The buffers a single reader passes on to the sender are the first ones popped, in this order. |
| KernelToDisk.CoreToDisk | reader/splitter_reader.cpp:155-182 | For any interleaving in the kernel, any failure of the sender and any cut of the stream: the rows of a process that arrive from a core show a beginning of the samples of this process the core stored and did not give up. |
| KernelToDisk.ReadingsToDisk | module/pmu_sync_sample_main.c:224-230 | The same in terms of the hardware: they show a beginning of the readings the core took for the process and did not give up, none changed, moved, repeated or left out. |
| KernelToDisk.BuffersToDisk | reader/splitter_reader.cpp:155-182 | Each file's rows are a beginning of its process's samples in the buffers popped, in the order they were popped; with at most sixteen cores and nothing cut off, they are all of them. |

## Left out

- Sender.Sendable: a pid is required to be below 2^32, because the header truncates it while the cache does not; on a 32-bit platform this holds of every `unsigned long`.
- Kernel.Sampler.CountMiss: `missed` is unbounded and incremented atomically, while the source's counter has 32 bits and is not protected against lost updates.
- Kernel.Sampler.constructor: at most six hardware counters, the size of a slot; module/arm.c:266 takes whatever number the processor reports.
- Kernel.Sampler.GatherSample: an invocation does not interrupt another call on the same core; other cores and readers interleave freely.
- Reader.ReadFileLoop: a read of memory that is not readable ends the run; what a signal handler would do then is not modelled.
- EndToEnd.SplitFile: when the program ends in a fault or in the assertion, the files are those it had written, whether or not the C library had passed its buffers on.
- KernelToDisk.CoreToDisk: for one reader whose copies worked and at most 256 cores; with more, the core's byte in the header is ambiguous, and several readers pass buffers on in no fixed order.
- Hardware access, interrupt routing and counter registers: the values read are arguments.
- The checks of `count` and `shutdown` in `my_read`, wait queues and wake-ups, sysfs, and the status switch of the module.
- Sockets, name resolution and debug files of sender/network.cpp; a send is a number of accepted bytes.
- sender/sender.cpp apart from stopping at a failed batch: arguments, device files, and re-sending a buffer after a short read.
- How /proc is read; its answers are arbitrary strings with failure flags.
- File names, `realpath`, the output formats and failing file operations of the splitter; in the binary format a separator has the same bytes as a sample of zeros, which the model keeps apart.
- reader/text_reader.cpp, textreader.cpp and the test programs: output only.
