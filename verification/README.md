# Verification of the camera server's core

This project models the parts of the camera server in which something has to hold over unbounded
inputs or runs, and proves it with Dafny. `dafny verify dfyconfig.toml` checks everything.

| part | modules | form of the model |
|---|---|---|
| Annex B start codes, NAL splitting and lookup | `StartCode`, `NalStream` | loops over memory, against a naive scan and a multiplexer of NAL units |
| MurmurHash2 and the two packet formats | `Bytes`, `Murmur`, `Socket`, `AiqSocket`, `FileReceiver` | loops over byte arrays and a socket object, against functions on byte sequences |
| Flow pipelines, asynchronous | `FlowQueue`, `FlowBounds`, `FlowRounds`, `FlowProgress`, `FlowTightness` | a step machine; one step is one access to what the threads share |
| Flow pipelines, synchronous, and their construction | `FlowGraph`, `FlowSync` | slots as values, a pipeline object with a log of its runs, and walks through the graph |
| Media graph | `MediaGraph` | memory as blocks; a pointer is a block and an index |
| Text languages | `CText`, `LinkText`, `FormatTables`, `FormatText`, `RectText` | parsers and printers with their loops |
| Multi-frame averaging | `Averaging` | pixel arrays, and the capture as an object that handles one command at a time, against a function on runs of commands |
| Buffer pool | `BufferPool`, `PoolSteps` | the list object, and a step machine of threads around it |

`Basics` holds what several modules share.

Machine words are naturals below a power of two, and every place where the program wraps, truncates
or clamps says so (`Basics.Int32`, `CText.Truncated`, `RectText.ToInt`, the sums of `Averaging`). Buffers of
a flow and of a pool are numbers. Where the C code would read or write outside of its memory, the
model has an outcome of its own (`ReadPastEnd`, `FindPastEnd`, `PastEnd`, `PastSizes`, `Overrun`, `Outside`,
or None for a run of the capture) instead of a
precondition.

What the sockets, the kernel, the driver and the file system do is a parameter: how a stream is cut
into receives, whether `realloc` moves a block, which requests the kernel refuses, what a dequeue
delivers, what a process function returns.

Results that differ from what one would expect:

- The bound of a blocking queue is `max_cache_num` plus the number of senders minus one, and this is
  reached (`FlowTightness.BoundIsReached`), because the room is tested between unlocking and locking.
  It holds exactly while it is below 2^31 (`FlowTightness.BoundedExactly`), because sizes are compared
  as `int`.
- A coroutine whose wait returns without a notification goes to its process function with nothing
  fetched (`FlowRounds.WokenRound`), while a getter of the buffer pool looks again (`PoolSteps.WokenGet`).
- The hash detects every error inside one aligned word exactly for data below 2^31 bytes
  (`Murmur.DetectionExactly`), because the length is passed as an `int`.
- The reply of the tuning server is read back correctly exactly when its six-byte header arrives in
  one receive, fewer than 2^31 - 18 bytes of data follow, and no receive begins at 2^31 or later
  (`AiqSocket.RoundTripExactly`), because only the body is received in a loop and offsets are `int`;
  it arrives however it is cut exactly when it has at most 2^31 bytes (`AiqSocket.AnyCutExactly`).
- Damaged data of a reply are handed on all the same: the mismatch of the hash is only reported
  (`AiqSocket.DamageIsReported`).
- A received file is saved exactly when the two sizes that the handler takes from its buffer after
  the first receive serve, and the hashes agree (`FileReceiver.SavedExactly`); its directory and name are
  those of their fields exactly when both hold a zero (`FileReceiver.PathIsItsFieldsExactly`).
- With start codes of mixed length a parameter set is lost, or a slice comes out as one
  (`NalStream.MixedCodesFail`). Splitting undoes multiplexing exactly when every type byte, read at
  the length of the first code, says what the header says (`NalStream.SplitOfUnits`); the lookup by type
  has its own condition (`NalStream.FindIsRightExactly`). The splitter can read past the stream, exactly
  under the conditions of `StartCode.SplitReadsPastEndExactly`, and the lookup finds something inside
  the stream exactly when the type is read for one of its units (`StartCode.FindInsideExactly`).
- Printed links are parsed back exactly when the names in them lead back to their entities: a quote in
  a name, or an earlier entity of the same name, is enough to fail (`LinkText.RoundTripExactly`).
- The printed pad format is not always parsed back: bounds lines and codes without a name stop the
  parser, and without a colorspace three properties are lost (`FormatText.RoundTripExactly`).
- A second slot map can fail although its slots are free: a vector that has to grow moves its
  elements, and moving a slot in use is an assertion failure (`FlowGraph.SecondMapMoves`,
  `FlowGraph.InstallSlotMap`).
- A synchronous send ends exactly when no walk along its edges meets a coroutine twice
  (`FlowSync.EndsExactly`); a cycle of flows alone does not keep it from ending
  (`FlowSync.CyclicYetEnds`).
- Resetting the media graph leaves links enabled exactly when one of them is hidden behind another
  link between the same pads, and disables immutable links exactly when an enabled one hides a mutable
  one (`MediaGraph.Device.ResetLinks`).
- A capture sends the average of what arrived, whatever the frames show, exactly when the number of
  frames is supported and none is lost (`Averaging.AverageSentExactly`): six frames of 100 come out as
  zero, and of two frames of 100 with one lost the half is sent. Every wrong checksum answer leads to a
  release of a device that is closed already (`Averaging.CaptureExactly`).
- A buffer of the pool is busy exactly while one caller holds it, exactly as long as no direct put
  finds its buffer busy (`PoolSteps.AlwaysHeldExactly`); one that does is enough to share the buffer
  (`PoolSteps.DirectPutSharesBuffer`).
- Slots are sorted when a slot map is installed, their cache sizes are not, so that sizes go astray
  exactly when the map is unsorted (`FlowGraph.SizesKeptExactly`).
- The comment in the code says that averages are for even numbers of frames; there is an average
  exactly for seven of them (`Averaging.OutputIsMeanExactly`).

## Model

| member | source | states |
|---|---|---|
| StartCode.NaiveScanIsLeast | rkmedia/librkmedia/codec.cc:70-111 | the byte scan finds the least q in [p, end-3) with 00 00 01, else end |
| StartCode.ZeroByteTest | rkmedia/librkmedia/codec.cc:81-84 | the word trick is nonzero exactly when one of the four bytes is zero |
| StartCode.SkipFour | rkmedia/librkmedia/codec.cc:80-102 | a step of four bytes without a code at any of them skips nothing |
| StartCode.FindStartcodeInternal | rkmedia/librkmedia/codec.cc:70-111 | the three-loop word scan equals the byte scan for every buffer, range and alignment, and reads only inside the buffer |
| StartCode.FindNaluStartcode | rkmedia/librkmedia/codec.cc:113-120 | the result moves back over a leading zero byte of the code found |
| StartCode.NextNalStarts | rkmedia/librkmedia/codec.cc:113-120 | what is found is the end or a start code of three or four bytes before the end |
| StartCode.SplitSeparate | rkmedia/librkmedia/codec.cc:122-220 | the splitting loops, H.264 and H.265, compute the pieces of the specification, or read past the memory where it says so |
| StartCode.SplitTilesStream | rkmedia/librkmedia/codec.cc:122-220 | the pieces put together are the slice from the first start code to the end or the first NAL whose type, read at the length of the first code, is that of no parameter set; each begins with a start code |
| StartCode.SplitTiles | rkmedia/librkmedia/codec.cc:131-168 | the same from any NAL on, for any length that is taken for the start code |
| StartCode.TileAt | rkmedia/librkmedia/codec.cc:131-168 | each piece ends before the end, behind the byte read as its type, and begins with a start code; one exception at the end |
| StartCode.SplitReadsPastEndExactly | rkmedia/librkmedia/codec.cc:128-146 | with nothing readable behind the stream, the splitter reads past it exactly when there is no start code, or when the first code has four bytes and only parameter sets stand before a three-byte code four bytes before the end |
| StartCode.SplitFromRunsIntoEnd | rkmedia/librkmedia/codec.cc:131-146 | the same from any NAL unit on |
| StartCode.ShortCodesStayInside | rkmedia/librkmedia/codec.cc:130-146 | behind a first code of three bytes the type is always read inside the stream |
| StartCode.FindNaluByType | rkmedia/librkmedia/codec.cc:222-261 | the lookup loop with its extra pass at the end computes the specification, sizes cut to an int |
| StartCode.FindExactly | rkmedia/librkmedia/codec.cc:222-261 | the lookup in any memory, said without its loop: the first NAL unit with the type, or what the pass behind the last unit reads, or past the end |
| StartCode.FindInsideExactly | rkmedia/librkmedia/codec.cc:239-258 | the result is a NAL unit inside the stream exactly when the type is read for one of the units |
| NalStream.NoCodeInside | rkmedia/librkmedia/codec.cc:70-111 | no start code begins inside a NAL unit, whatever follows it |
| NalStream.NextUnit | rkmedia/librkmedia/codec.cc:131-146 | whatever length is taken for a start code, the next unit is found where it begins |
| NalStream.JudgeIsRead | rkmedia/librkmedia/codec.cc:131-168 | the byte read as the type: the header when the lengths agree, a one when four stands against three, else the second byte of the unit or the one behind the unit |
| NalStream.SplitOfUnitsFrom | rkmedia/librkmedia/codec.cc:131-168 | splitting from any unit on gives the leading parameter sets exactly when every unit up to the first other one is judged right |
| NalStream.SplitOfUnits | rkmedia/librkmedia/codec.cc:122-220 | splitting undoes multiplexing, for any mix of code lengths and any memory behind the stream, exactly when every unit up to the first that is no parameter set is judged right |
| NalStream.SplitOfOneLength | rkmedia/librkmedia/codec.cc:122-220 | with one code length the leading parameter sets come out byte for byte |
| NalStream.SplitByHeaders | rkmedia/librkmedia/codec.cc:122-220 | said on header bytes: with one code length the pieces are exactly the leading units whose first byte h has h % 32 in {7, 8} for H.264, or h / 2 % 64 in {32, 33, 34} for H.265 |
| NalStream.TypeOfHeader | rkmedia/librkmedia/codec.cc:138-203 | the type is h % 32 or h / 2 % 64, and the parameter sets are types 7 and 8, or 32, 33 and 34 |
| NalStream.ThreePieces | rkmedia/librkmedia/codec.cc:170-220 | of an H.265 stream of VPS, SPS, PPS and an IDR slice the first three come out |
| NalStream.MixedCodesFail | rkmedia/librkmedia/codec.cc:130-146 | behind a code of four bytes, a PPS with a code of three is lost, and a coded slice with one comes out as a parameter set |
| NalStream.BehindLong | rkmedia/librkmedia/codec.cc:130-146 | behind an SPS with a code of four bytes, any unit with a code of three is judged by its second byte |
| NalStream.FindOfUnits | rkmedia/librkmedia/codec.cc:222-261 | the lookup gives the first unit that is judged to be of the type, or what is behind the stream |
| NalStream.FindIsRightExactly | rkmedia/librkmedia/codec.cc:222-261 | when the type is there, its first unit is found with place and size exactly when every unit up to it is judged right for the type and it has less than 2^31 bytes |
| NalStream.FindOfOneLength | rkmedia/librkmedia/codec.cc:222-261 | with one code length the first unit of the type is found, its size cut to an int; without one, the bytes behind the stream decide |
| NalStream.FindByHeaders | rkmedia/librkmedia/codec.cc:222-261 | said on header bytes: with one code length the lookup gives the place and size of the first unit whose first byte has the type |
| Murmur.MurMurHash | rkaiq/rkaiq_api/rkaiq_socket.cpp:43-77 | the loop and the tail switch compute the hash function |
| Murmur.HashSpelledOut | rkaiq/rkaiq_api/rkaiq_socket.cpp:43-50 | below 2^31 bytes the hash is the final mixing of the data mixed into 97 xor the length |
| Murmur.MixSpelledOut | rkaiq/rkaiq_api/rkaiq_socket.cpp:51-71 | words of four bytes, the lowest first, enter one after the other, and one tail |
| Murmur.MixWordSpelledOut | rkaiq/rkaiq_api/rkaiq_socket.cpp:51-61 | what one round computes, in multiplications modulo 2^32, quotients and xor |
| Murmur.MixTailSpelledOut | rkaiq/rkaiq_api/rkaiq_socket.cpp:63-71 | what the tail switch computes for one, two and three bytes |
| Murmur.FinishSpelledOut | rkaiq/rkaiq_api/rkaiq_socket.cpp:72-76 | what the final mixing computes |
| Bytes.ShrIsQuotient | rkaiq/rkaiq_api/rkaiq_socket.cpp:54-75 | shifting right divides by a power of two |
| Bytes.XorShiftInjective | rkaiq/rkaiq_api/rkaiq_socket.cpp:54-75 | h xor (h shifted right by n) determines h, for shifts of at least 11 bits |
| Murmur.TimesInjective | rkaiq/rkaiq_api/rkaiq_socket.cpp:54-75 | multiplying by the constant modulo 2^32 loses nothing |
| Murmur.ScrambleInjective | rkaiq/rkaiq_api/rkaiq_socket.cpp:52-56 | scrambling a word loses nothing |
| Murmur.MixWordInjective | rkaiq/rkaiq_api/rkaiq_socket.cpp:51-61 | one round separates both states and words |
| Murmur.MixTailInjective | rkaiq/rkaiq_api/rkaiq_socket.cpp:63-71 | the tail switch separates tails of the same length |
| Murmur.MixKeepsStatesApart | rkaiq/rkaiq_api/rkaiq_socket.cpp:51-71 | different states stay different through all further data |
| Murmur.FinishInjective | rkaiq/rkaiq_api/rkaiq_socket.cpp:72-76 | the final mixing loses nothing |
| Murmur.HashDetectsWordError | rkaiq/rkaiq_api/rkaiq_socket.cpp:43-77 | data that differ inside one aligned word, or inside the tail, have different hashes |
| Murmur.MixDetectsWordError | rkaiq/rkaiq_api/rkaiq_socket.cpp:51-71 | from equal states, data that differ inside one aligned word or the tail lead to different states |
| Murmur.HashMissesWordError | rkaiq/rkaiq_api/rkaiq_socket.cpp:43-49 | for every size from 2^31 on two such data share their hash |
| Murmur.DetectionExactly | rkaiq/rkaiq_api/rkaiq_socket.cpp:43-77 | this holds for a data size exactly when it is below 2^31 |
| Socket.Fill | rkaiq/rkaiq_protocol.cpp:442-466 | the reassembly loop fills exactly what is missing with the next bytes of the stream, however it is cut, unless the clock or the stream runs out |
| AiqSocket.BuildPacket | rkaiq/rkaiq_api/rkaiq_socket.cpp:137-165 | for any data size: the packet is built, with magic, size, command, result, data size, data and hash in this order, exactly when the offset behind the data fits an int; otherwise a field is written outside |
| AiqSocket.OffsetsFitExactly | rkaiq/rkaiq_api/rkaiq_socket.cpp:150-165 | data and hash are written inside the packet exactly when 18 plus the data size is below 2^31 |
| AiqSocket.FieldsOfEncode | rkaiq/rkaiq_api/rkaiq_socket.cpp:330-354 | every field of a built packet is found at its offset |
| Bytes.FieldSpelledOut | rkaiq/rkaiq_api/rkaiq_socket.cpp:330-354 | fields of four and eight bytes are read with the lowest byte first |
| AiqSocket.SizeIsChecked | rkaiq/rkaiq_api/rkaiq_socket.cpp:289-294 | a packet size is refused exactly when it is zero or not within 200 bytes above the data size, modulo 2^32 |
| AiqSocket.HashIsCompared | rkaiq/rkaiq_api/rkaiq_socket.cpp:366-383 | a packet with any hash field comes out with its data, and says whether the field is the hash of the data |
| AiqSocket.DamageIsReported | rkaiq/rkaiq_api/rkaiq_socket.cpp:366-383 | data damaged inside one aligned word, or inside the tail, come out with a mismatch |
| AiqSocket.ReceiveBody | rkaiq/rkaiq_api/rkaiq_socket.cpp:296-323 | the buffer holds the header and then the next bytes of the stream, or time runs out, or a receive that begins at 2^31 or later writes before the buffer |
| AiqSocket.FullHeader | rkaiq/rkaiq_api/rkaiq_socket.cpp:276-383 | with a whole header: what comes out for every size that fits 32 bits and every cut |
| AiqSocket.ReceiveReply | rkaiq/rkaiq_api/rkaiq_socket.cpp:276-383 | header, checks, reassembly and parsing compute the outcome of the specification, with int offsets, or time out |
| AiqSocket.ParseDetermines | rkaiq/rkaiq_api/rkaiq_socket.cpp:330-383 | packets of the same size that are parsed into the same message are the same |
| AiqSocket.RoundTripExactly | rkaiq/rkaiq_api/rkaiq_socket.cpp:137-165 | for every reply whose size fits 32 bits, and every cut: it comes out as it was built, with a matching hash, exactly when the first receive delivers the whole header, the offset behind the data fits an int, and no receive begins at 2^31 or later |
| AiqSocket.AnyCutExactly | rkaiq/rkaiq_api/rkaiq_socket.cpp:300-323 | behind a whole header the body may be cut in any way exactly when the packet has at most 2^31 bytes |
| AiqSocket.ShortHeaderIsSeen | rkaiq/rkaiq_api/rkaiq_socket.cpp:276-298 | a header cut short never leads to the right reply |
| AiqSocket.LargeIsNotReceived | rkaiq/rkaiq_api/rkaiq_socket.cpp:296-350 | with 2^31 - 18 bytes of data and more, nothing is received as it was sent |
| FileReceiver.HandlerReceiveFile | rkaiq/rkaiq_protocol.cpp:413-597 | the handler computes the outcome of the specification, or times out |
| FileReceiver.SizeIsChecked | rkaiq/rkaiq_protocol.cpp:419-430 | a packet size is refused exactly when it is zero or not within 500 bytes above the data size, modulo 2^64 |
| FileReceiver.JoinedAgrees | rkaiq/rkaiq_protocol.cpp:436-466 | however it was cut, what is joined agrees with the packet sent as far as both go |
| FileReceiver.FieldsOfEncode | rkaiq/rkaiq_protocol.cpp:468-515 | every field of an encoded file packet is found at its offset |
| FileReceiver.SavedExactly | rkaiq/rkaiq_protocol.cpp:413-585 | for every first receive, even one shorter than the header: a file is saved, with the payload that came and the directory and name read as strings, exactly when the two sizes read from the buffer serve, the hashes agree and the file system accepts |
| FileReceiver.PathIsItsFieldsExactly | rkaiq/rkaiq_protocol.cpp:553-556 | directory and name are what their own fields say exactly when both fields hold a terminating zero |
| FileReceiver.WholeHeaderServes | rkaiq/rkaiq_protocol.cpp:413-466 | they serve when the 424 bytes of fields came with the first receive |
| FileReceiver.WholeHeaderOutcome | rkaiq/rkaiq_protocol.cpp:537-585 | with the whole header and terminated names: the mismatch of the hash, a missing directory, a file that cannot be made, or the saved file, in this order |
| FileReceiver.FileIsSaved | rkaiq/rkaiq_protocol.cpp:537-585 | an undamaged file with terminated directory and name, whose fields came with the first receive, is saved under its name with its data |
| FileReceiver.DamageIsSeen | rkaiq/rkaiq_protocol.cpp:537-551 | data damaged inside one aligned word, or inside the tail, is never saved, however the packet was cut |
| FileReceiver.DamageIsMissed | rkaiq/rkaiq_protocol.cpp:537-551 | from 2^31 bytes on some damaged file is saved, whenever the sizes serve |
| FlowQueue.NextKeepsFits | rkmedia/librkmedia/flow.cc:210-243 | every step keeps the mutexes with the threads that are between their lock and unlock |
| FlowQueue.ProducerKeepsNoLostData | rkmedia/librkmedia/flow.cc:879-893 | no producer step makes a parked coroutine miss a buffer |
| FlowQueue.CoroutineKeepsNoLostData | rkmedia/librkmedia/flow.cc:210-225 | no coroutine step does, with the slots read one by one |
| FlowQueue.ProducerKeepsAssert | rkmedia/librkmedia/flow.cc:923-934 | no producer step empties a queue that a coroutine has found filled |
| FlowQueue.CoroutineKeepsAssert | rkmedia/librkmedia/flow.cc:227-242 | no other coroutine empties it either |
| FlowBounds.NextKeepsLengths | rkmedia/librkmedia/flow.cc:879-934 | every step keeps each queue, with the senders about to push to it, below its bound |
| FlowBounds.NextKeepsHistories | rkmedia/librkmedia/flow.cc:879-934 | every step keeps conservation, order and the policy of each queue |
| FlowBounds.RunIsGood | rkmedia/librkmedia/flow.cc:210-243 | all invariants hold after every run from the start |
| FlowBounds.ParkedMeansNothingToFetch | rkmedia/librkmedia/flow.cc:210-225 | while a coroutine is parked, each of its inputs is empty or some producer has pushed and has yet to notify |
| FlowBounds.FetchNeverFails | rkmedia/librkmedia/flow.cc:227-242 | assert(!v.empty()) never fails, nor does a pop of the drop-front policy |
| FlowProgress.RunOwnersHold | rkmedia/librkmedia/flow.cc:210-243 | in every run the owner of a mutex is between its lock and its unlock |
| FlowProgress.SlotOwnerGoesOn | rkmedia/librkmedia/flow.cc:879-934 | the owner of a queue mutex can always step, and with each step comes nearer to the unlock, at most four away |
| FlowProgress.SlotOwnerUndisturbed | rkmedia/librkmedia/flow.cc:879-934 | no step of another thread takes the mutex or moves the owner away from the unlock |
| FlowProgress.CondOwnerGoesOn | rkmedia/librkmedia/flow.cc:210-225 | the same of cond_mtx, which a coroutine holds while it looks at all its slots |
| FlowProgress.CondOwnerUndisturbed | rkmedia/librkmedia/flow.cc:210-225 | nor is its owner disturbed |
| FlowProgress.SlotIsReleased | rkmedia/librkmedia/flow.cc:879-934 | from every state of every run at most four steps of the owner free the mutex |
| FlowProgress.StuckMeansDrained | rkmedia/librkmedia/flow.cc:210-243 | there is no deadlock: when no thread can step, all senders have returned, all coroutines wait, and their queues are empty |
| FlowBounds.QueueBounded | rkmedia/librkmedia/flow.cc:879-934 | no queue exceeds max_cache_num when dropping, nor max_cache_num plus senders minus one when blocking, if that is below 2^31 |
| FlowTightness.BoundIsReached | rkmedia/librkmedia/flow.cc:901-921 | for every size and number of senders some run reaches the blocking bound |
| FlowTightness.BoundIsLost | rkmedia/librkmedia/flow.cc:882-909 | from 2^31 on some run exceeds the bound |
| FlowTightness.BoundedExactly | rkmedia/librkmedia/flow.cc:879-921 | with one blocking input the queue stays below its bound exactly while the bound is below 2^31 |
| FlowBounds.BuffersConserved | rkmedia/librkmedia/flow.cc:879-934 | every buffer offered is fetched, dropped or still cached; fetched then cached is a subsequence in order, all of it when blocking and enabled, and under drop-front the cache is a suffix (when buffers are dropped, and which, say the next two rows) |
| FlowRounds.StepChangesSlot | rkmedia/librkmedia/flow.cc:879-934 | in every run, whatever a step does to a queue: buffers are pushed, dropped, refused and fetched one at a time, at the right end, by the owner of the mutex; a dropping queue pushes below max_cache_num and drops or refuses at max_cache_num |
| FlowRounds.DropsOnlyWhenFull | rkmedia/librkmedia/flow.cc:879-934 | while enabled, a step that loses a buffer finds exactly max_cache_num > 0 buffers in the queue: drop-front loses the oldest, drop-current the one sent, blocking none |
| FlowRounds.WholeSend | rkmedia/librkmedia/flow.cc:879-934 | a call of SendInput that nothing interrupts: with room it pushes and wakes all coroutines, without room it drops the front and pushes, refuses, or sleeps, and nothing else changes |
| FlowRounds.RoundServesAll | rkmedia/librkmedia/flow.cc:227-242 | in every run: while enabled, a coroutine goes to its process function only after each of its slots, in fetch order, was seen empty or gave its front buffer in this round |
| FlowRounds.WholeRound | rkmedia/librkmedia/flow.cc:210-243 | a round that nothing interrupts waits when all queues of the coroutine are empty, and else moves the front of every queue that is not to what was fetched, for any number of slots |
| FlowRounds.WokenRound | rkmedia/librkmedia/flow.cc:222-242 | a coroutine that returns from its wait, notified or not, fetches the fronts there are and goes on without another look |
| FlowRounds.DisabledStaysIdle | rkmedia/librkmedia/flow.cc:227-239 | once the flow is disabled a waiting sender gives its buffer up even if it has seen room, and a coroutine that is not about to fetch never fetches again |
| FlowBounds.SingleSenderOrder | rkmedia/librkmedia/flow.cc:879-893 | with one sender buffers are offered in the order of its calls |
| FlowGraph.CheckSlots | rkmedia/librkmedia/flow.cc:502-519 | slots come back sorted, and are accepted exactly when none is twice |
| FlowGraph.AcceptableExactly | rkmedia/librkmedia/flow.cc:618-658 | a map is acceptable exactly when a synchronous one has at most one input slot, no slot is listed twice, and none is in use |
| FlowGraph.InstallSlotMap | rkmedia/librkmedia/flow.cc:615-695 | a map is refused exactly when it is not acceptable, fails exactly when it is acceptable but a vector in use has to move or a cache size is missing; otherwise each of its slots is valid and has the thread model and full mode of the map, the new coroutine, and its cache size (zero if not ASYNCCOMMON), all others stay, and every input keeps one coroutine |
| FlowGraph.SecondMapMoves | rkmedia/librkmedia/flow.cc:521-556 | behind a first map for slot 0, a map for slot 1 has to move the slot in use when the allocator leaves no spare room |
| FlowGraph.GrownIsValid | rkmedia/librkmedia/flow.cc:660-695 | a grown flow still has one coroutine for every input |
| FlowGraph.SizesKeptExactly | rkmedia/librkmedia/flow.cc:666-677 | different cache sizes reach the slots they were given for exactly when the map lists its slots in increasing order |
| FlowGraph.ConfigIsValid | rkmedia/librkmedia/flow.cc:615-695 | an installed flow is a configuration for which the queue results hold |
| FlowGraph.QueuesOfMap | rkmedia/librkmedia/flow.cc:660-677 | the queues get the full mode and the cache sizes of the map, and its new coroutine fetches from them in slot order |
| FlowSync.Pipeline.SendInput | rkmedia/librkmedia/flow.cc:763-774 | for any numbers that fall along the edges: the send ends, runs the coroutines along the walks from there in depth-first order, and each run gets the null buffer of a failed process exactly when the run above it failed |
| FlowSync.Pipeline.RunOnce | rkmedia/librkmedia/flow.cc:136-165 | the same for one run; results and process counts follow the run times |
| FlowSync.Pipeline.RunProcess | rkmedia/librkmedia/flow.cc:136-150 | run_times decides whether the process function is called and counts down to zero, or stays when negative; without a call the result is true, with one it is what the function returns |
| FlowSync.Pipeline.SendAll | rkmedia/librkmedia/flow.cc:152-160 | all output slots are served, with the null buffer of a failed process exactly when process returned false |
| FlowSync.Pipeline.SendBufferDown | rkmedia/librkmedia/flow.cc:273-285 | along every edge of an output slot the runs below get what the process has set as output |
| FlowSync.Pipeline.SendNullBufferDown | rkmedia/librkmedia/flow.cc:258-271 | and the null buffer of a failed process here |
| FlowSync.Pipeline.Send | rkmedia/librkmedia/flow.cc:763-774 | a send from outside runs something exactly when the flow is enabled and the slot there and synchronous, and first the coroutine of that slot; it ends when no walk comes back, and runs every coroutine once for each walk to it, in depth-first order |
| FlowSync.EndsExactly | rkmedia/librkmedia/flow.cc:136-165 | what one run leads to is bounded exactly when no walk meets a coroutine twice |
| FlowSync.WalkGoesOn | rkmedia/librkmedia/flow.cc:136-165 | a walk goes on exactly along an edge of an output slot of the coroutine reached, into a synchronous slot of an enabled flow, to the coroutine of that slot |
| FlowSync.HeightsRank | rkmedia/librkmedia/flow.cc:136-165 | when no walk comes back, the number of coroutines below falls along every edge: the measure for termination |
| FlowSync.AcyclicNeverComesBack | rkmedia/librkmedia/flow.cc:718-740 | in an acyclic graph of flows no walk comes back |
| FlowSync.CyclicYetEnds | rkmedia/librkmedia/flow.cc:718-740 | two flows on a cycle, on which every send ends |
| FlowSync.RunsMatchWalks | rkmedia/librkmedia/flow.cc:136-165 | the runs correspond one to one to the walks: each run has its walk, each walk its run, none twice, in depth-first order |
| FlowSync.VisitsAreWalks | rkmedia/librkmedia/flow.cc:136-165 | every run lies at the end of a walk |
| FlowSync.VisitsInOrder | rkmedia/librkmedia/flow.cc:136-165 | the runs come in depth-first order of their walks, by output slot and edge, so that no two have the same walk |
| FlowSync.WalkIsVisited | rkmedia/librkmedia/flow.cc:136-165 | every walk through enabled flows has a run |
| FlowSync.AddDownFlowEdges | rkmedia/librkmedia/flow.cc:697-740 | adding a flow below gives one edge more, or a new index for an edge there was |
| FlowSync.AddDownFlowExactly | rkmedia/librkmedia/flow.cc:697-740 | a link is accepted exactly by a flow with all output slots, at one of them, to another flow; the edge there was to that flow gets the new index, or a new edge comes last, and nothing else changes |
| FlowSync.LinkKeepsAcyclic | rkmedia/librkmedia/flow.cc:718-740 | the new edge keeps the graph acyclic exactly when its target does not lead back, a self-loop or longer |
| FlowSync.CycleLeadsBack | rkmedia/librkmedia/flow.cc:718-740 | a cycle that a new edge closes leads from its target back to its source |
| MediaGraph.Device.AddLink | mediactl/libmediactl.c:309-330 | there is room for one link more, and every link keeps a live twin that points back, wherever realloc moved the array |
| MediaGraph.Device.GrowLinks | mediactl/libmediactl.c:309-330 | doubling an array keeps contents and twins |
| MediaGraph.GrownIsUnpatched | mediactl/libmediactl.c:316-319 | after realloc the new block holds the old links, and only the twin pointers into the old block are wrong |
| MediaGraph.PatchedIsLinked | mediactl/libmediactl.c:320-326 | patching the twins of a moved array repairs the graph |
| MediaGraph.LinkPair | mediactl/libmediactl.c:372-389 | the two ends of a new link become twins of each other and disturb no other pair |
| MediaGraph.Device.AddPair | mediactl/libmediactl.c:372-389 | a reported link is appended once at its source and once at its sink, and nowhere else |
| MediaGraph.Device.EnumDesc | mediactl/libmediactl.c:362-390 | a report whose entities exist appends, at both ends, the link between the reported pads of the first entities with the reported ids, with the reported flags; any other changes nothing |
| MediaGraph.Device.EnumLinks | mediactl/libmediactl.c:332-395 | for every topology without self-links each entity lists exactly the reported links that touch it, once and in order, and twins agree; the result is zero, or tells an error of the kernel or a report of unknown entities |
| MediaGraph.ResolveExactly | mediactl/libmediactl.c:95-111 | a report is resolved exactly to the link with its pad numbers and flags between the first entities with its ids (with the NEXT flag, the first with a larger id), and to nothing exactly when there is none |
| MediaGraph.ResolveAllLists | mediactl/libmediactl.c:362-390 | the links listed are those of the reports whose entities exist, in order, each as reported |
| MediaGraph.TouchingCounts | mediactl/libmediactl.c:362-390 | what EnumLinks lists holds every reported link once at each of its two ends and nowhere else |
| MediaGraph.Device.SetupLink | mediactl/libmediactl.c:222-278 | the first link between the pads gets the flags of the reply to a request that keeps its immutable bit, at both ends; nothing else changes, and refusals change nothing |
| MediaGraph.Device.SetFlags | mediactl/libmediactl.c:270-272 | both ends of one link get the flags, and no other link changes |
| MediaGraph.FlagsBothEnds | mediactl/libmediactl.c:268-277 | writing flags to a link and its twin keeps both ends equal |
| MediaGraph.Device.ResetLinks | mediactl/libmediactl.c:280-307 | with success every mutable link is disabled exactly when none that was enabled is hidden behind another link between its pads, and immutable links stay enabled exactly when no enabled one hides a mutable one; with unique pad pairs and a kernel that keeps the flags asked for, mutable links are disabled at both ends and nothing else is different; a failure is a refusal of the kernel |
| MediaGraph.Device.ResetEntity | mediactl/libmediactl.c:285-303 | one entity after the other, each mutable link is requested when its source end is met |
| MediaGraph.OutgoingFound | mediactl/libmediactl.c:293-301 | with unique pad pairs a request for a link reaches this link, which has not been met before |
| MediaGraph.FirstFound | mediactl/libmediactl.c:234-245 | a request for a link reaches the first link between its pads |
| MediaGraph.ClearedFirst | mediactl/libmediactl.c:268-303 | the request disables that link at both ends and leaves hidden links as they were |
| MediaGraph.DisabledExactly | mediactl/libmediactl.c:280-307 | all mutable links end up disabled exactly when none that was enabled is hidden |
| MediaGraph.ImmutableExactly | mediactl/libmediactl.c:254-277 | immutable links stay enabled exactly when no enabled one is found for a mutable one behind it |
| CText.ReadNumber | mediactl/libv4l2subdev.c:351-358 | the loops of strtoul compute its value and end |
| CText.StrtoulOfDecimal | mediactl/media_info.c:45-48 | strtoul undoes %u and stops at the first character behind it |
| CText.StrtoulOfNegative | mediactl/libv4l2subdev.c:351-358 | a minus sign negates modulo 2^64, but a value that is too large stays the largest |
| CText.StrtoulOfPositive | mediactl/libv4l2subdev.c:351-358 | a plus sign is skipped |
| CText.DecimalSpelledOut | mediactl/media_info.c:45-48 | %u prints decimal digits, the highest first |
| CText.ScanIntOfPrint | rkmedia/librkmedia/image.cc:183-218 | %d of sscanf undoes %d of snprintf |
| LinkText.EntityByName | mediactl/libmediactl.c:80-93 | the search loop finds the first entity of the name |
| LinkText.FindQuote | mediactl/libmediactl.c:818-829 | the cursor stops at the next quote or at the end |
| LinkText.EntityOfPrint | mediactl/libmediactl.c:808-863 | the entity parser undoes a quoted name exactly when it is readable: without a quote, and of no earlier entity |
| LinkText.ReadableExactly | mediactl/libmediactl.c:80-93 | readable are the entities without a quote of either kind in the name and without an earlier entity of the same name |
| LinkText.EntityOfNumber | mediactl/libmediactl.c:848-856 | a number stands for the first entity with this id |
| LinkText.PadOfPrint | mediactl/libmediactl.c:865-904 | the pad parser undoes the printed pad exactly when its entity is readable |
| LinkText.LinkOfPrint | mediactl/libmediactl.c:906-947 | the link parser undoes the printed link exactly when both its entities are readable |
| LinkText.CallOfPrint | mediactl/libmediactl.c:949-986 | the setup parser undoes the printed link with its flags, exactly then |
| LinkText.FlagsBehindOfPrint | mediactl/libmediactl.c:962-986 | the flags in brackets are read back |
| LinkText.ParseSetupLinks | mediactl/libmediactl.c:1006-1022 | the loop makes the calls of the specification and returns its result |
| LinkText.RoundTripExactly | rkaiq/rkaiq_api/rkaiq_media.cpp:683-736 | parsing a printed list of links makes exactly its calls in order, up to the first that fails, exactly when the entities in these calls are readable |
| LinkText.UniqueIsReadable | mediactl/libmediactl.c:80-93 | with unique names every entity with a quote-free name is readable |
| LinkText.PerformsAll | mediactl/libmediactl.c:1006-1022 | when no call fails, all are made and the result is zero |
| LinkText.SensorLink | rkaiq/rkaiq_api/rkaiq_media.cpp:683-688 | the text written for a sensor makes exactly one call, from its pad 0 to pad 0 of the receiver, enabled |
| LinkText.GarbageBehindLink | mediactl/libmediactl.c:1010-1021 | behind a link has to be a comma or the end: else the result is an error, but the link is set up |
| LinkText.OnlyLinksAreSetUp | mediactl/libmediactl.c:906-986 | for every text: only links of the graph, between existing pads, are set up |
| FormatTables.CodeToString | mediactl/libv4l2subdev.c:889-900 | the search loop finds the first name of a code |
| FormatTables.StringToCode | mediactl/libv4l2subdev.c:902-913 | the search loop finds the first code of a name |
| FormatTables.CodeOfName | mediactl/libv4l2subdev.c:889-913 | in a table of distinct names, the name of a known code leads back to the code |
| FormatTables.CodeOfNoName | mediactl/libv4l2subdev.c:889-913 | what is printed for a code without a name is not found again |
| FormatTables.FieldNoName | mediactl/libv4l2subdev.c:889-954 | no field is named as the printer names codes it does not know |
| FormatTables.ColorspaceNoName | mediactl/libv4l2subdev.c:957-996 | nor a colorspace |
| FormatTables.XferFuncNoName | mediactl/libv4l2subdev.c:999-1037 | nor a transfer function |
| FormatTables.YcbcrEncNoName | mediactl/libv4l2subdev.c:1040-1077 | nor an encoding |
| FormatTables.QuantizationNoName | mediactl/libv4l2subdev.c:1080-1112 | nor a quantization |
| FormatTables.FieldNamesApart | mediactl/libv4l2subdev.c:915-954 | no two field names are the same without regard to case |
| FormatTables.ColorspaceNamesApart | mediactl/libv4l2subdev.c:957-996 | nor two colorspace names |
| FormatTables.XferFuncNamesApart | mediactl/libv4l2subdev.c:999-1037 | nor two transfer functions |
| FormatTables.YcbcrEncNamesApart | mediactl/libv4l2subdev.c:1040-1077 | nor two encodings |
| FormatTables.QuantizationNamesApart | mediactl/libv4l2subdev.c:1080-1112 | nor two quantizations |
| FormatTables.FieldNames | mediactl/libv4l2subdev.c:915-954 | each field name stands for its code, both ways |
| FormatTables.ColorspaceNames | mediactl/libv4l2subdev.c:957-996 | so does each colorspace name |
| FormatTables.XferFuncNames | mediactl/libv4l2subdev.c:999-1037 | and each name of a transfer function |
| FormatTables.YcbcrEncNames | mediactl/libv4l2subdev.c:1040-1077 | and of an encoding |
| FormatTables.QuantizationNames | mediactl/libv4l2subdev.c:1080-1112 | and of a quantization |
| FormatTables.CaseIsIgnored | mediactl/libv4l2subdev.c:1101-1112 | capital letters are read as small ones where names are compared without regard to case |
| FormatTables.ScanWord | mediactl/libv4l2subdev.c:507-508 | the cursor stops behind the letters, dashes and, where allowed, digits of a word |
| FormatText.SizeOfPrint | mediactl/libv4l2subdev.c:350-359 | width x height is read back |
| FormatText.RectOfPrint | mediactl/libv4l2subdev.c:369-412 | a printed rectangle is read back |
| FormatText.IntervalOfPrint | mediactl/libv4l2subdev.c:414-438 | a printed interval is read back |
| FormatText.WordOfPrint | mediactl/libv4l2subdev.c:504-529 | the printed name of a known code is cut out and looked up again; for any other code the parser fails |
| FormatText.FormatOfPrint | mediactl/libv4l2subdev.c:321-367 | a printed format is read back, with all other fields zero, or the parser fails on a code without name |
| FormatText.LabelWritten | mediactl/libv4l2subdev.c:445-456 | every label is recognised as itself and as no earlier one in the chain of tests |
| FormatText.BoundsAreNoLabel | mediactl/libv4l2subdev.c:484-678 | the labels of the bounds lines are recognised by no test |
| FormatText.PropertyWritten | mediactl/libv4l2subdev.c:484-502 | behind any white space a written label hands the text behind it to the parser of its value |
| FormatText.WordSection | mediactl/libv4l2subdev.c:504-529 | a printed property sets its field, a missing one leaves it, and one without name stops the parser |
| FormatText.ColorsSection | mediactl/media_info.c:55-68 | the colour properties set their fields when there is a colorspace, or stop the parser when one has no name |
| FormatText.IntervalSection | mediactl/media_info.c:47-49 | the interval is set, or stays zero |
| FormatText.SelectionsSection | mediactl/media_info.c:69-85 | crop and compose are set, and a bounds line stops the parser |
| FormatText.ReadProperties | mediactl/libv4l2subdev.c:484-686 | the loop over the properties, with its state, computes the specification |
| FormatText.PrintPadFormat | mediactl/media_info.c:45-85 | the printing steps append up to the printed text |
| FormatText.PropertiesOfPrint | mediactl/libv4l2subdev.c:484-686 | the printed properties are parsed up to the line end, exactly when there are no bounds lines and all printed codes have names |
| FormatText.ParseOfPrint | mediactl/libv4l2subdev.c:458-687 | pad and printed text are parsed into pad and settings, without the three properties behind a missing colorspace, or fail on a bounds line or a code without name; a pad of an unreadable entity is never recovered |
| FormatText.RoundTripExactly | mediactl/media_info.c:28-86 | all that was printed is recovered exactly when the entity is readable, there are no bounds lines, all printed codes have names, and a missing colorspace has nothing behind it |
| FormatText.RectWithoutLabel | mediactl/libv4l2subdev.c:638-652 | a rectangle without a label is the crop rectangle, at any place |
| FormatText.FormatWithoutLabel | mediactl/libv4l2subdev.c:488-502 | a text with a capital letter is a format at the first place, and no property anywhere else |
| FormatText.ExampleText | mediactl/media_info.c:45-85 | the printed text of a cropped and scaled Full HD picture, piece by piece |
| Averaging.ConverToLE | rkaiq/multiframe_process.cpp:44-51 | the two bytes of each of the first len elements are exchanged in place |
| Averaging.SwapTwice | rkaiq/multiframe_process.cpp:44-51 | swapping twice restores a pixel |
| Averaging.MultiFrameAddition | rkaiq/multiframe_process.cpp:95-111 | each sum grows by its sample, in either byte order, modulo 2^32 |
| Averaging.MultiFrameAverage | rkaiq/multiframe_process.cpp:54-93 | sums become rounded means, output their 16-bit form; other numbers of frames change nothing |
| Averaging.OutputIsMeanExactly | rkaiq/multiframe_process.cpp:53-93 | the output is the rounded mean for all sums exactly for 2, 4, 8, 16, 32, 64 and 128 frames |
| Averaging.MeanIsNearest | rkaiq/multiframe_process.cpp:85-92 | the mean is off by at most half a step |
| Averaging.NoOverflow | rkaiq/rkaiq_raw_protocol.cpp:607-648 | the 32-bit sums of up to 255 frames never wrap, with the rounding offset |
| Averaging.PictureBetween | rkaiq/rkaiq_raw_protocol.cpp:607-648 | every averaged pixel lies between the least and the greatest of its samples |
| Averaging.Capture.SetCapConf | rkaiq/rkaiq_raw_protocol.cpp:441-447 | new parameters start the capture again, in any state |
| Averaging.Capture.ReadFrame | rkaiq/rkaiq_raw_protocol.cpp:607-648 | one dequeue adds its frame once, unless lost or too large, and sends what is due |
| Averaging.Capture.DoMultiFrameCapture | rkaiq/rkaiq_raw_protocol.cpp:674-704 | one command takes the first or the second half, or nothing |
| Averaging.Capture.RawCapture | rkaiq/rkaiq_raw_protocol.cpp:746-765 | one START command from any state, with allocation and release, or the failure of releasing a closed device |
| Averaging.Capture.SendRawDataResult | rkaiq/rkaiq_raw_protocol.cpp:767-788 | a wrong checksum answer releases the device and the sums and leaves the index, or fails on a closed device |
| Averaging.Capture.Handle | rkaiq/rkaiq_raw_protocol.cpp:868-986 | each command takes the object to the next state of the specification, or fails exactly when the specification does |
| Averaging.CaptureExactly | rkaiq/rkaiq_raw_protocol.cpp:674-788 | a capture of at least two frames, from any state: when no answer is wrong, the last frame of the first half and the picture of the second are sent, each if its last frame is there; with a wrong answer a closed device is released |
| Averaging.OnlyAskedForSent | rkaiq/rkaiq_raw_protocol.cpp:607-648 | in every run of commands, what is sent is a frame of the camera, or what arrived of as many consecutive frames as were asked for last, added up, divided and rounded, and zeros when that number is not supported |
| Averaging.AverageSentExactly | rkaiq/rkaiq_raw_protocol.cpp:607-704 | for a number of frames and a pattern of lost or refused ones: whatever the frames show, the picture sent is the rounded mean of what arrived, exactly when the number is supported and none is lost |
| Averaging.SixFramesSendZero | rkaiq/multiframe_process.cpp:53-83 | six frames of 100 are sent as zero |
| Averaging.LostFrameHalves | rkaiq/rkaiq_raw_protocol.cpp:607-648 | two frames of 100, the first of them lost, are sent as 50 |
| Averaging.TooFewFrames | rkaiq/rkaiq_raw_protocol.cpp:690-700 | with fewer than two frames nothing is ever sent |
| Averaging.Answered | rkaiq/rkaiq_raw_protocol.cpp:767-788 | of the wrong answers behind one command the first closes an open device, and the next releases a closed one |
| BufferPool.BufferPool.constructor | rkmedia/librkmedia/buffer.cc:558-590 | all buffers are ready in order of allocation, or one failure or a bad count leaves none |
| BufferPool.BufferPool.GetBuffer | rkmedia/librkmedia/buffer.cc:641-666 | the oldest ready buffer becomes the last busy one, or nothing happens |
| BufferPool.BufferPool.PutBuffer | rkmedia/librkmedia/buffer.cc:668-690 | a busy buffer becomes the last ready one; any other pointer changes nothing and gives -1 |
| BufferPool.PartitionIsDistinct | rkmedia/librkmedia/buffer.cc:641-690 | lists that partition the buffers hold none twice |
| BufferPool.TakenPartition | rkmedia/librkmedia/buffer.cc:659-661 | taking keeps the partition |
| BufferPool.ReturnedPartition | rkmedia/librkmedia/buffer.cc:674-683 | putting back keeps it, whatever is put |
| BufferPool.PutUndoesGet | rkmedia/librkmedia/buffer.cc:641-690 | a buffer taken and put back goes from the front of the ready list to its end, and nothing else changes |
| PoolSteps.RunIsGood | rkmedia/librkmedia/buffer.cc:641-690 | all invariants of the pool hold after every run of any number of threads |
| PoolSteps.NextIsGood | rkmedia/librkmedia/buffer.cc:641-690 | every step keeps them |
| PoolSteps.HandleStaysOk | rkmedia/librkmedia/buffer.cc:623-690 | every step but a direct put that finds its buffer busy keeps one handle or one returning thread per busy buffer |
| PoolSteps.HandlesStayOkExactly | rkmedia/librkmedia/buffer.cc:623-690 | a step keeps every buffer busy exactly while held, exactly when it is no direct put that finds its buffer busy |
| PoolSteps.AlwaysHeldExactly | rkmedia/librkmedia/buffer.cc:623-690 | in a run every buffer is always busy exactly while held, exactly when no direct put finds its buffer busy |
| PoolSteps.ParkedMeansNothingReady | rkmedia/librkmedia/buffer.cc:645-657 | while a getter waits no buffer is ready, or the put that made one ready has yet to notify |
| PoolSteps.PoolIsPartition | rkmedia/librkmedia/buffer.cc:641-690 | ready and busy are always a duplicate-free partition of the original buffers |
| PoolSteps.BusyMeansHeld | rkmedia/librkmedia/buffer.cc:623-690 | while no direct put finds its buffer busy, each buffer is busy exactly while its one handle, or one thread that puts it back, stands for it |
| PoolSteps.DirectPutSharesBuffer | rkmedia/librkmedia/buffer.cc:668-690 | one direct put of a buffer in use, and it is handed out a second time |
| PoolSteps.ReusedInOrder | rkmedia/librkmedia/buffer.cc:659-681 | buffers are taken in the order in which they became ready |
| PoolSteps.WholeGet | rkmedia/librkmedia/buffer.cc:641-666 | a GetBuffer that nothing interrupts takes the oldest ready buffer, or else waits, or returns with nothing when it is not to wait |
| PoolSteps.WokenGet | rkmedia/librkmedia/buffer.cc:645-657 | a getter that returns from its wait, notified or not, looks again, and takes the oldest ready buffer or waits again |
| PoolSteps.WholePut | rkmedia/librkmedia/buffer.cc:668-690 | a put that nothing interrupts makes a busy buffer the last ready one and wakes all getters that wait; any other changes nothing |
| PoolSteps.StuckMeansAllHeld | rkmedia/librkmedia/buffer.cc:645-657 | when every thread waits or is done, and some getter waits, all buffers are busy, and held by callers unless a direct put found its buffer busy |
| RectText.TextFits | rkmedia/librkmedia/image.cc:178-186 | no text of a rectangle in range is cut off by the buffer of 64 characters |
| RectText.StringToImageRect | rkmedia/librkmedia/image.cc:188-227 | the loop with its search for delimiters computes the specification, and ends |
| RectText.FindDelimiter | rkmedia/librkmedia/image.cc:200-213 | the four searches find the place behind three commas and a parenthesis, or fail as specified |
| RectText.DelimiterOfPrint | rkmedia/librkmedia/image.cc:200-213 | the format check stops right behind a printed rectangle |
| RectText.ScanOfPrint | rkmedia/librkmedia/image.cc:215-220 | a printed rectangle is read back |
| RectText.ToIntExactly | rkmedia/librkmedia/image.cc:215-217 | numbers of 32 bits are kept, those of 64 bits are cut, larger ones clamped before |
| RectText.RoundTrip | rkmedia/librkmedia/image.cc:178-227 | parsing the concatenated texts of any list of rectangles gives back the list |
| RectText.TextOfRect | rkmedia/librkmedia/image.cc:178-186 | the printed text of a rectangle, character by character |

## Left out

Statements that are weaker than they could be:

- AiqSocket.ReceiveReply: is for receives of positive size; a negative return would make the counters grow.
- Socket.Fill: is for receives of positive size, as above.
- MediaGraph.Device.EnumLinks: is for topologies without links from an entity to itself; for these one pass through the array of the entity would have to patch links into the same array.
- MediaGraph.Device.ResetLinks: the kernel may refuse a request, and change other bits of it, but keeps the enabled and the immutable bit asked for.
- FlowSync.Pipeline.SendInput: of the buffers only null ones of failed processes are told apart. It is for flows whose input slots are all installed with a thread model; a send into an asynchronous slot ends there.
- FormatText.RoundTripExactly: takes the table of pixel codes as a parameter with pairwise distinct names without spaces and slashes, none of which is what the printer writes for codes it does not know; the other tables are written out.

Not modelled:

- The parsers of the format language are functions on the text that is left, with the loops over properties, words, digits and tables as methods; the cursor positions reported for errors are left out, as are debug messages.
- Memory is sequentially consistent in `FlowQueue`: reads without a mutex return the latest write.
- Stopping a flow: `quit` is not tested before waiting, so that stopping always ends is not true and not stated. Pacing, floating-point rates, the atomic input model and held inputs are left out, and so are events.
- The flows of a pipeline are values in a list; installing a slot map replaces the value.
- The capture model is for multi-frame modes; the plain mode, sensor settings and the sending itself are left out, and the checksum of what is sent is a parameter. Frames have the size width times height that the buffers were made for, each below 2^16.
- The destructor of the buffer pool, which waits for busy buffers for a limited time.
- `unsigned long` has 64 bits. Memory is never exhausted, except in the allocations of the buffer pool.
- Setting formats, selections and intervals on the device, and the loop over comma-separated pad formats, which repeats the parser.
- The rectangle pair with an arrow, pixel format names and sizes, and the averaging helpers that only convert between widths, which would add only easy members.
- Sockets, the media controller and file system calls, process control, RTSP, encoders, memory allocators of the graphics stack and the tuning interfaces around the core.
