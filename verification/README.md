# What the repository's four protocols promise

A Dafny model of four independent components and proofs of what they keep over whole runs.

* **Thread pool** (`ThreadPool`, `TaskList`). `ThreadPool` is an interleaving of atomic steps: every
  worker, every call of push and the one call of delete has a program counter, `stop` is written
  without the mutex, waiting releases the mutex atomically, spurious wakeups are allowed at any time,
  and a signal may pick any waiter. `TaskList` is the intrusive doubly linked list on the heap, whose
  operations are proved to be the protocol's steps.
* **Compression harness** (`Mbuf`, `PrepareBufs`, `BurstModel`, `BurstLoop`, `VerifyRun`). The input is
  cut into chains of packet buffers, sent in bursts through a device, and gathered again. The device is
  an adversary that takes any part of a burst and gives back any part of what it holds, oldest first.
  `BurstModel` is one pass on values, with its invariant; `BurstLoop` is the loop itself, which moves
  leftovers inside an array, draws from a finite pool and counts; `VerifyRun` is the whole verify test.
* **Crypto harness** (`Script`, `CryptoDevice`, `Throughput`, `Latency`). The same kind of loop with another
  leftover scheme, and with one result slot per operation. This device gives back operations in any
  order; conservation is stated with multisets.
* **Test vectors** (`TestVector`, `TestVectorRoundTrip`, `TestVectorSearch`, `TestVectorShape`,
  `TestVectorParser`). `TestVector` says what printing and parsing mean on texts, `TestVectorRoundTrip`
  proves the round trip, `TestVectorSearch` says what a file with sections and a test name gives,
  `TestVectorShape` what the printed text looks like and what keys and numbers mean, and
  `TestVectorParser` has the loops, the in-place trimming and the doubling buffer, proved against that
  meaning.
* **Passive TCP** (`Tcp`, `TcpInvariant`, `TcpTheorems`, `TcpReading`, `TcpDemux`, `TcpDescriptors`,
  `TcpConversation`, `TcpWire`, `TcpStack`). `Tcp` is a transition system: arriving segments, output
  passes, turns of the transmitting loop and socket calls are atomic steps; the send, receive and output
  rings are bounded; fields that record history are never read by a step. `TcpInvariant` is what every
  run keeps, `TcpTheorems` is about sending and acknowledging, `TcpReading` about what the application
  reads, `TcpDemux` about which connection a segment reaches and `TcpDescriptors` about which one a call
  reaches. `TcpConversation` follows one connection from its SYN by the events alone, and `TcpWire`
  takes it to the wire. `TcpStack` does every step in place, on control blocks in an intrusive list, and
  is proved to be that system.
* **Checksum and bit counter** (`Checksum`, `CountBit`). Both forms of the Internet checksum, and the
  counter that adds bits in parallel inside 64-bit words.

The devices are given by a finite script of answers (`Script`) and take and give whatever they can once
it is used up. A run that completes asks only finitely many questions, so every completed run is one of
these; the script also makes the loops terminate. Allocation succeeds, fresh worker memory has `stop == 0`, and
segments are well formed. Clock readings, the random initial sequence number and what the device makes of
a buffer are parameters.

`dafny verify dfyconfig.toml` checks the whole project.

## Where the code does less than its documentation or its names say

* `print_test_dynamics` keeps the segment count in 16 bits, so its total is wrong for many inputs
  (`PrepareBufs.ReportedTotalExact`, `PrepareBufs.ReportedTotalWrong`); inputs of 2^32 bytes and more are
  cut short (`PrepareBufs.Prepare`).
* A printed test vector with an empty field, or one shorter than its option, is not parsed again
  (`TestVectorRoundTrip.ShowThenParse`).
* A read that is shorter than the oldest fragment puts the rest behind the newer fragments and returns the
  length of the rest (`TcpReading.ReadIsExact`, `TcpReading.ShortReadReorders`, `TcpReading.ReturnedLength`).
* The benchmark's main_loop returns success when an operation of the last iteration has failed; in the model
  `ok` says that the loop ran to its end (`BurstLoop.Run.Benchmark`).
* An output pass ignores whether the output ring has room and frees the fragment, so a full ring loses
  segments (`TcpTheorems.LossIsExact`, `TcpTheorems.FullRingLoses`).
* The rings of a connection are named after the address and port of its peer with nothing in between, and
  there is no second ring of a name. A SYN whose name is in use ends the program: a client that uses one
  port for two ports of the server, two clients whose numbers print alike, a peer whose connection was
  made to listen (`TcpDemux.SynIsServed`, `TcpDemux.SecondPortStops`, `TcpDemux.NamesakeStops`,
  `TcpDemux.ListenOnAccepted`).
* There is one TCP socket at a time, and none any more after the listening one was closed; a call of nsocket
  that fails keeps a descriptor (`TcpDemux.SocketIsMade`, `TcpDemux.ClosedListenerIsFinal`).
* nclose frees the descriptor and leaves it on the stream until the client's last ACK; a connection accepted
  in between can get the same number, and calls with it then reach the closed one
  (`TcpDescriptors.CallsAreExact`, `TcpDescriptors.ReusedDescriptor`).
* A test vector field that is shorter than its option is refused only after its data was replaced
  (`TestVectorParser.Vector.SetField`).
* The echo reply's ICMP header is written 272 bytes into the packet, since the offset of 34 counts headers
  of 8 bytes and not bytes (`Checksum.EncodeIcmp`).
* The two checksum forms differ on buffers of more than 65537 bytes whose words sum up to more than an
  `int` holds (`Checksum.TwoStepIsExact`); the looped form and its ICMP encoder are compiled out.
* `count_bit` reads whole words, and one word of an empty buffer (`CountBit.ReadsBehind`).

## Model

| member | source | states |
|---|---|---|
| ThreadPool.NeverSleepsOnWork | thread_folder/thread_pool.c:52-70 | In every reachable interleaving before delete, spurious wakeups included: while some worker is blocked in the wait, the queued tasks are at most the awake workers that hold no task, plus one while a push is between insert and signal; so nobody sleeps beside a task that no one will pick up. |
| ThreadPool.ShutdownWakesEveryone | thread_folder/thread_pool.c:111-125 | No lost wakeup: once the locked broadcast has happened, no worker is blocked in the wait or about to block, in that state and in every state any further run reaches, although `stop` is written without the lock. |
| ThreadPool.TasksRunExactlyOnce | thread_folder/thread_pool.c:64-67 | In every reachable state every pushed task is in exactly one of: the list, one worker's hands, the finished tasks; and once. A task whose insertion has not happened is nowhere. |
| ThreadPool.RunsAreBounded | thread_folder/thread_pool.c:105-131 | From any state with the invariant, a run has at most as many steps as the measure plus a fixed price for each push, spurious wakeup and call of delete: no livelock, and delete's joins are reached after finitely many steps. |
| ThreadPool.NoDeadlock | thread_folder/thread_pool.c:52-144 | A reachable state in which no thread can move has all pushes returned, and either delete was not called, every worker waits, the list is empty and every pushed task ran exactly once, or delete has joined all workers, every worker has exited and each task ran once or is still listed. |
| ThreadPool.ShutdownCompletes | thread_folder/thread_pool.c:105-131 | After delete was called, every run from a reachable state has at most as many steps as the measure plus the price of what the environment feeds it, and where no thread can move any more, delete has joined every worker, every worker has exited and every push has returned. |
| ThreadPool.StoppedTakesNothing | thread_folder/thread_pool.c:60-63 | From any state: a worker whose `stop` is set and that has no task and is not about to take one has none and takes none in every state any further run reaches. |
| ThreadPool.ShutdownRunsNoMore | thread_folder/thread_pool.c:105-131 | Once all flags are set, in every continuation at most the tasks that workers then have or are about to take are still run, and exactly these when delete has joined; all listed tasks but as many as workers were about to take stay listed, in order. |
| ThreadPool.StepInv | thread_folder/thread_pool.c:52-144 | Every step of a worker, a pusher or the deleter keeps the whole invariant: mutual exclusion, what the stop flags and passed tests mean, no sleeper after the broadcast, tasks counted once, and the wake-up bound. |
| ThreadPool.ReachableInv | thread_folder/thread_pool.c:52-144 | The invariant holds in every state of every run. |
| ThreadPool.MeasureStep | thread_folder/thread_pool.c:52-144 | Every step that is not fed by the environment strictly lowers the measure; the environment's steps raise it by their fixed price at most. |
| TaskList.List.Insert | thread_folder/thread_pool.c:7-14 | The intrusive insertion on linked nodes: the item becomes the first of the list, the rest keeps its order, and the links stay those of a doubly linked list. |
| TaskList.List.Delete | thread_folder/thread_pool.c:16-23 | The intrusive deletion of a node at any place: exactly that node leaves, the others keep their order and links, and its own links are left as they were. |
| TaskList.List.IsEmpty | thread_folder/thread_pool.c:56-57 | The test of the list head on the linked structure branches as the protocol's step does. |
| TaskList.List.PushTask | thread_folder/thread_pool.c:139-141 | Inserting into the linked list is the protocol's insertion step: the list represents the next protocol state. |
| TaskList.List.ClaimTask | thread_folder/thread_pool.c:64-66 | Unlinking the head is the protocol's claiming step, and the node returned is the task the protocol hands to that worker. |
| PrepareBufs.Prepare | dpdk1902/dpdk-stable-19.08.2/app/test-compress-perf/comp_perf_test_common.c:197-309 | Cutting the input into chains of packet buffers: for every input below 2^32 bytes the chains together hold the input, every chain but the last is full, the last segment count and size are as reported and neither pool runs empty; the chains hold the input exactly when it is below 2^32 bytes. |
| PrepareBufs.FillChain | dpdk1902/dpdk-stable-19.08.2/app/test-compress-perf/comp_perf_test_common.c:207-262 | One chain: it takes the next bytes of the input in order, all segments but the last of the input are full, none is empty, and drawing a segment fails only when the pool's share is used up. |
| PrepareBufs.ProgressLeft | dpdk1902/dpdk-stable-19.08.2/app/test-compress-perf/comp_perf_test_common.c:207-214 | The outer loop never starts a round without a free segment, and ends after the planned number of chains exactly when the input is used up. |
| PrepareBufs.ReportedTotalExact | dpdk1902/dpdk-stable-19.08.2/app/test-compress-perf/comp_perf_test_common.c:350-354 | The total that is printed, with the segment count kept in 16 bits and the sum in 32, is the input size if and only if the lost part of the count times the segment size is a multiple of 2^16. |
| PrepareBufs.ReportedTotalWrong | dpdk1902/dpdk-stable-19.08.2/app/test-compress-perf/comp_perf_test_common.c:350-354 | 65536 segments of 8 bytes are printed as a total of 0 bytes. |
| Mbuf.StoreThenRead | dpdk1902/dpdk-stable-19.08.2/app/test-compress-perf/comp_perf_test_verify.c:235-249 | Data stored in a chain whose lengths were reset is what reading that many bytes of the chain gives. |
| Mbuf.StoreThenSetLengths | dpdk1902/dpdk-stable-19.08.2/app/test-compress-perf/comp_perf_test_verify.c:256-275 | After the lengths are set to the produced size, the used bytes of the chain start with exactly the stored data, for every size and chain. |
| Mbuf.PktmbufRead | dpdk1902/dpdk-stable-19.08.2/app/test-compress-perf/comp_perf_test_verify.c:235-243 | The read fails exactly when head segment and packet are both too short, and otherwise gives the first bytes of the chain, whether in place or gathered. |
| BurstLoop.SetChainLengths | dpdk1902/dpdk-stable-19.08.2/app/test-compress-perf/comp_perf_test_verify.c:261-274 | The loop over the segments shares out the produced bytes as the recursive specification does. |
| BurstModel.AttachGood | dpdk1902/dpdk-stable-19.08.2/app/test-compress-perf/comp_perf_test_verify.c:154-189 | Drawing an operation and attaching the next buffer keeps the pass invariant: operations are free or held once, the j-th held one points at the buffer due in its turn, and buffers are submitted as 0, 1, 2, ... |
| BurstModel.AcceptGood | dpdk1902/dpdk-stable-19.08.2/app/test-compress-perf/comp_perf_test_verify.c:194-209 | Whatever part of the burst the device takes, the invariant stays and the held operations are the same, in the same order. |
| BurstModel.CollectGood | dpdk1902/dpdk-stable-19.08.2/app/test-compress-perf/comp_perf_test_verify.c:217-278 | Returning the oldest operation, its buffer finished and its result copied out, keeps the invariant. |
| BurstLoop.Run.MoveLeftovers | dpdk1902/dpdk-stable-19.08.2/app/test-compress-perf/comp_perf_test_verify.c:146-151 | Moving the leftovers to the front of the array changes nothing but their place. |
| BurstLoop.Run.Counters | dpdk1902/dpdk-stable-19.08.2/app/test-compress-perf/comp_perf_test_verify.c:131-163 | In every state of a pass: dequeued + in flight = enqueued, `allocated` is enqueued + unused - dequeued and never above the pool, the sequence of submitted buffers is 0 .. enqueued-1. |
| BurstLoop.Run.Refill | dpdk1902/dpdk-stable-19.08.2/app/test-compress-perf/comp_perf_test_verify.c:138-189 | A burst is completed behind its leftovers, with the invariant; the pool is never empty when an operation is drawn, and num_ops - ops_unused never underflows. |
| BurstLoop.Run.HarvestStep | dpdk1902/dpdk-stable-19.08.2/app/test-compress-perf/comp_perf_test_verify.c:217-278 | One returned operation: it succeeds with the invariant, or fails and some result does not fit its chain. |
| BurstLoop.Run.SubmitAll | dpdk1902/dpdk-stable-19.08.2/app/test-compress-perf/comp_perf_test_verify.c:137-279 | The submitting loop ends for every device and has then handed over every buffer, unless a result does not fit. |
| BurstLoop.Run.Drain | dpdk1902/dpdk-stable-19.08.2/app/test-compress-perf/comp_perf_test_verify.c:282-363 | The draining loop ends for every device and has then got every operation back, unless a result does not fit. |
| BurstLoop.Run.Iterate | dpdk1902/dpdk-stable-19.08.2/app/test-compress-perf/comp_perf_test_verify.c:126-363 | One iteration succeeds exactly when every result fits its chain (or nobody looks), and then the device has accepted the buffers 0 .. total-1 once each and in that order, has given every operation back, and `allocated` is 0. |
| BurstLoop.Run.Benchmark | dpdk1902/dpdk-stable-19.08.2/app/test-compress-perf/comp_perf_test_benchmark.c:124-299 | The same over any number of iterations with one `allocated` counter: the device has accepted 0 .. total-1 in order as often as there are iterations, the pool is full at the end, and after the last one every output chain reads as its own result; it fails only for a result that does not fit. |
| BurstLoop.VerifyPass | dpdk1902/dpdk-stable-19.08.2/app/test-compress-perf/comp_perf_test_verify.c:126-367 | A whole pass of the verify test, for every burst size and every pattern of partial enqueues and dequeues: it succeeds if and only if every result fits its chain, and then the output area holds all results in order, inside its bounds, and every chain reads as its result. |
| VerifyRun.CompressRoomy | dpdk1902/dpdk-stable-19.08.2/app/test-compress-perf/comp_perf_test_common.c:145-159 | compressed_data has room for whatever the compress pass writes before a chain turns out too small. |
| VerifyRun.DecompressRoomy | dpdk1902/dpdk-stable-19.08.2/app/test-compress-perf/comp_perf_test_common.c:161-168 | decompressed_data, as long as the input, has room for the whole decompress pass, whose output is the concatenation of the input chains. |
| VerifyRun.Run | dpdk1902/dpdk-stable-19.08.2/app/test-compress-perf/comp_perf_test_verify.c:383-423 | Prepare, compress, decompress, compare, with a device that is lossless buffer by buffer: the run reports success if and only if the input is below 2^32 bytes and every compressed buffer fits its chain; success means the decompressed bytes and their number are the input. |
| TestVectorParser.TrimSpace | dpdk1902/dpdk-stable-19.08.2/app/test-crypto-perf/cperf_test_vector_parsing.c:187-209 | Trimming in place on a NUL-terminated array: afterwards the string is the old one without leading and trailing white space. |
| TestVectorParser.ReadValues | dpdk1902/dpdk-stable-19.08.2/app/test-crypto-perf/cperf_test_vector_parsing.c:212-271 | The tokenising loop with its doubling buffer yields exactly the values of the tokens, or fails exactly when the specification does. |
| TestVectorParser.Vector.ReadContinuation | dpdk1902/dpdk-stable-19.08.2/app/test-crypto-perf/cperf_test_vector_parsing.c:510-532 | The continuation loop glues the lines of an entry as specified, for every text. |
| TestVectorParser.Vector.ReadEntry | dpdk1902/dpdk-stable-19.08.2/app/test-crypto-perf/cperf_test_vector_parsing.c:274-453 | An entry is accepted exactly when it parses and its size option allows it, and then the vector is updated as specified; a rejected entry changes nothing but, when only its size is wrong, the data of its field. |
| TestVectorParser.Vector.SetField | dpdk1902/dpdk-stable-19.08.2/app/test-crypto-perf/cperf_test_vector_parsing.c:304-318 | A field gets its data before the size option is checked, so a field that is too short has new data and the old length. |
| TestVectorParser.Vector.ReadFile | dpdk1902/dpdk-stable-19.08.2/app/test-crypto-perf/cperf_test_vector_parsing.c:456-560 | For every text, NUL characters included, the line loop with its flags computes the recursive meaning of the file, error cases included. |
| TestVectorSearch.NamedCase | dpdk1902/dpdk-stable-19.08.2/app/test-crypto-perf/cperf_test_vector_parsing.c:475-549 | A text of global entries, comments, header lines and sections, and a test name: the result is the global entries followed by those behind the first line that is the name after trimming, up to the next header, the latter with the lengths of their data; whatever stands between the first header and that line. |
| TestVectorSearch.NameMissing | dpdk1902/dpdk-stable-19.08.2/app/test-crypto-perf/cperf_test_vector_parsing.c:495-508 | When no line from the first header on is the name, parsing fails. |
| TestVectorSearch.GlobalOnly | dpdk1902/dpdk-stable-19.08.2/app/test-crypto-perf/cperf_test_vector_parsing.c:488-494 | Without a name the result is the entries before the first header, whatever follows it. |
| TestVectorSearch.NamedRoundTrip | dpdk1902/dpdk-stable-19.08.2/app/test-crypto-perf/cperf_test_vector_parsing.c:475-549 | Two printed vectors, the second behind the header of the named case with other sections before it and anything after the next header: parsing succeeds if and only if the first one's fields are non-empty and at least as long as their options and the second one's non-empty, and gives the second one's fields over the first one's, with their own lengths in 32 or 16 bits. |
| TestVectorShape.ValueStands | dpdk1902/dpdk-stable-19.08.2/app/test-crypto-perf/cperf_test_vector_parsing.c:38-60 | The exact place of every printed value: 0x and two lower-case hexadecimal digits, a comma and a space behind all but the last, a new line before every 32nd, and no other character. |
| TestVectorShape.FieldsStand | dpdk1902/dpdk-stable-19.08.2/app/test-crypto-perf/cperf_test_vector_parsing.c:62-184 | The printed fields stand in the order of the vector, each under its own name, and absent ones leave no trace. |
| TestVectorShape.FieldIsFirst | dpdk1902/dpdk-stable-19.08.2/app/test-crypto-perf/cperf_test_vector_parsing.c:304-452 | A key sets a field if and only if it contains that field's name and none that is tested before it; it is refused if and only if it contains none. |
| TestVectorShape.NumbersRead | dpdk1902/dpdk-stable-19.08.2/app/test-crypto-perf/cperf_test_vector_parsing.c:236-252 | Every 64-bit number in hexadecimal or decimal is read as its low eight bits. |
| TestVectorShape.BadDigit | dpdk1902/dpdk-stable-19.08.2/app/test-crypto-perf/cperf_test_vector_parsing.c:236-252 | Digits are no number if and only if one of them is not a digit of the base. |
| TestVectorParser.Vector.Show | dpdk1902/dpdk-stable-19.08.2/app/test-crypto-perf/cperf_test_vector_parsing.c:38-184 | The nested printing loops produce the specified text of the vector. |
| TestVectorRoundTrip.TokensOf | dpdk1902/dpdk-stable-19.08.2/app/test-crypto-perf/cperf_test_vector_parsing.c:212-271 | Splitting the printed values at commas and reading each one gives the printed bytes back, from any value on. |
| TestVectorRoundTrip.ContinuedOf | dpdk1902/dpdk-stable-19.08.2/app/test-crypto-perf/cperf_test_vector_parsing.c:510-532 | The wrapped lines of a printed field are glued to the one list of values, for any length. |
| TestVectorRoundTrip.FieldFromOf | dpdk1902/dpdk-stable-19.08.2/app/test-crypto-perf/cperf_test_vector_parsing.c:304-452 | The substring tests in their fixed order choose, for each of the ten printed names, that field and no earlier one. |
| TestVectorRoundTrip.SlotParses | dpdk1902/dpdk-stable-19.08.2/app/test-crypto-perf/cperf_test_vector_parsing.c:456-560 | Parsing what one field printed: it sets that field and no other and goes on with the rest of the text, or fails when the field is empty or shorter than its option. |
| TestVectorRoundTrip.ShowThenParse | dpdk1902/dpdk-stable-19.08.2/app/test-crypto-perf/cperf_test_vector_parsing.c:456-560 | Parsing the printed vector succeeds if and only if every printed field is non-empty and at least as long as its size option, and then every byte of every printed field is rebuilt, with the option as its length. |
| TestVectorRoundTrip.RoundTrip | dpdk1902/dpdk-stable-19.08.2/app/test-crypto-perf/cperf_test_vector_parsing.c:38-184 | Print, then parse, is the identity when the options carry the field lengths, for fields of any non-zero length. |
| TcpInvariant.NextKeeps | 2.4_ustack/tcp_from_king.c:753-826 | Every event, be it a segment, another IPv4 packet, an output pass, a turn of the transmitting loop or a socket call, keeps the invariant of every stream and of the tables; there is no condition on the event. |
| TcpInvariant.ProcessKeeps | 2.4_ustack/tcp_from_king.c:2031-2106 | Every arriving segment, in every state of its stream, keeps that invariant. |
| TcpInvariant.RunKeeps | 2.4_ustack/tcp_from_king.c:753-826 | Every sequence of events leads to a state with that invariant. |
| TcpTheorems.SegmentsLeaveInOrder | 2.4_ustack/tcp_from_king.c:2191-2229 | In every run: what the output passes took from a connection, followed by what is queued, is all that was ever queued, in order; what found room on the output ring is a subsequence of it; and the next pass takes exactly the oldest fragment, because the peer is in the ARP table, and puts it on the ring exactly when there is room at its turn. |
| TcpTheorems.PassIsExact | 2.4_ustack/tcp_from_king.c:2191-2229 | One output pass, for any stream of any table: nothing of the stream is lost or reordered if and only if it has nothing to send, or its peer is known and the output ring has room when its turn comes, or its peer is unknown and putting the oldest fragment last changes nothing. |
| TcpTheorems.LossIsExact | 2.4_ustack/tcp_from_king.c:2218-2226 | In every run a pass loses nothing of a connection if and only if the connection has nothing to send or the packets on the ring and the streams before it with something to send leave room. |
| TcpTheorems.NothingIsLost | 2.4_ustack/tcp_from_king.c:2191-2229 | In a run whose passes all find room, what each connection sent, followed by what is queued, is all that was queued, in order. |
| TcpTheorems.FullRingLoses | 2.4_ustack/tcp_from_king.c:2218-2226 | A run that loses a segment: a client connects while 1023 other packets wait on the output ring, and the next pass discards its SYN-ACK. |
| TcpTheorems.ArpNeverShrinks | 2.4_ustack/tcp_from_king.c:205-247 | An address once learned stays found, and the table's count is its length after every event of every run. |
| TcpTheorems.Acknowledgements | 2.4_ustack/tcp_from_king.c:1806-1832 | In every run rcv_nxt is, modulo 2^32, the client's initial number + 1 + all accepted payload bytes + 1 for the FIN, of which there is at most one; each fragment ever queued carries the value current when it was queued, so acknowledged amounts never go back (section 3.3 of RFC 793). |
| TcpReading.ByteStreamInOrder | 2.4_ustack/tcp_from_king.c:1349-1403 | In every run in which data segments are non-empty and find room in the ring, a FIN finds room behind its data, and a read has a buffer for the oldest fragment, or for half of it when it is the only one: the tokens read followed by the queued ones are the client's accepted bytes in order, the lengths that nrecv returned add up to the bytes read, and end of file is read at most once, only when a FIN was accepted, after every byte. |
| TcpReading.PushInStep | 2.4_ustack/tcp_from_king.c:1765-1804 | A pushed segment keeps the reader in step if and only if exactly one of these holds: it is empty, the ring has room. |
| TcpReading.FinInStep | 2.4_ustack/tcp_from_king.c:1952-1982 | A FIN keeps the reader in step if and only if the ring has room for it. |
| TcpReading.PushFinInStep | 2.4_ustack/tcp_from_king.c:1834-1987 | A segment with both keeps the reader in step if and only if it carries data and the ring has two places, or is empty and the ring has exactly one. |
| TcpReading.OrderIsExact | 2.4_ustack/tcp_from_king.c:1364-1402 | A read keeps the order for all contents of a ring with fragments of given lengths if and only if its buffer covers the oldest fragment or nothing is queued behind it. |
| TcpReading.ReadIsExact | 2.4_ustack/tcp_from_king.c:1364-1402 | A read keeps the order and returns the number of bytes it copied, for all contents of such a ring, if and only if its buffer covers the oldest fragment, or holds half of it and nothing is queued behind it. |
| TcpReading.ShortReadReorders | 2.4_ustack/tcp_from_king.c:1370-1381 | A shorter buffer with fragments behind: whatever the lengths of the queued fragments, there are contents that the application then gets out of order. |
| TcpReading.ReturnedLength | 2.4_ustack/tcp_from_king.c:1370-1384 | The length nrecv returns is the number of bytes it copied if and only if the buffer covers the fragment or is half as long. |
| TcpConversation.HandshakeCompletes | 2.4_ustack/tcp_from_king.c:1734-1760 | In every run an intact segment with ACK that reaches a connection in SYN_RCVD makes it ESTABLISHED and changes no other stream, without ACK none changes; the program goes on exactly when something still answers for the port (section 3.4 of RFC 793). |
| TcpConversation.Conversation | 2.4_ustack/tcp_from_king.c:1687-2028 | Every run after a SYN that opens a connection, other connections doing what they like: an observer who sees only the segments and calls for this connection says which state it is in, every segment ever queued with its ports, numbers and flags, and that what was read followed by what waits in the receive ring is what the client's PSH and FIN segments carried, in order. The conditions are room in the connection's rings, data in its pushed segments, reads that cover the oldest fragment or the only one, and no new bind or listen on its descriptor. |
| TcpConversation.ReadsWhatIsHeard | 2.4_ustack/tcp_from_king.c:1765-1914 | In such a run the application has read a beginning of what the observer heard, all of it when its ring is empty, and an end of file only as the last thing. |
| TcpConversation.QueuesWhatIsSent | 2.4_ustack/tcp_from_king.c:1299-1347 | In such a run the data of all segments ever queued, one after the other, is the buffers of the calls of nsend on the descriptor, one after the other; every segment has the ports of the connection, and only nsend's, with PSH and ACK, have data. |
| TcpConversation.SaysWhatIsWritten | 2.4_ustack/tcp_from_king.c:1299-1347 | The segments with PSH that the observer expects are the buffers sent, one segment each and in order. |
| TcpConversation.CloseCompletes | 2.4_ustack/tcp_from_king.c:2005-2028 | In every run an intact segment with ACK that reaches a connection in LAST_ACK removes exactly this stream and frees the name of its rings, so that its peer may connect again; without ACK it stays. |
| TcpWire.WireCarries | 2.4_ustack/tcp_from_king.c:2191-2229 | From end to end in such a run: what was put on the output ring for the peer since its SYN, sent or still there, is an ordered part of the segments that the observer expects; when every pass found room it is the beginning of them and the rest is queued, so that its bytes and those queued are the bytes the application sent. |
| TcpWire.RingIsQueue | 2.4_ustack/tcp_from_king.c:2711-2722 | In every state: the transmitting loop takes the oldest packets of the output ring, a burst at most; every other event only puts packets behind those that wait. |
| TcpWire.PassPuts | 2.4_ustack/tcp_from_king.c:2191-2229 | A pass puts one packet on the ring for each stream with something to send, in list order while there is room: its oldest fragment between its own addresses, or an ARP request for the unknown peer. |
| TcpWire.LearnsSources | 2.4_ustack/tcp_from_king.c:205-247 | While the program goes on, the ARP table holds an address if and only if a packet came from it. |
| TcpDemux.NextNamed | 2.4_ustack/tcp_from_king.c:753-826 | Every event, with no condition, keeps the ring names of the streams different from each other and in use. |
| TcpDemux.PeersAreDistinct | 2.4_ustack/tcp_from_king.c:1642-1683 | In every run no two connections have the same peer address and port, so no two have the same four addresses, whatever the application binds and listens on; and at most one stream is a socket without a peer. |
| TcpDemux.DemultiplexingIsExact | 2.4_ustack/tcp_from_king.c:1617-1640 | In every run a segment of a connection reaches that connection if and only if no socket without a peer stands before it with its four addresses, and always when its source address or port is not zero. |
| TcpDemux.SynIsServed | 2.4_ustack/tcp_from_king.c:1687-1732 | A SYN that reaches a listener makes a connection if and only if no ring bears the name printed from its source address and port; otherwise it ends the program. |
| TcpDemux.NamesakeStops | 2.4_ustack/tcp_from_king.c:1660-1666 | A run that ends: clients 0x1 with port 23 and 0x12 with port 3, whose rings would both be named sndbuf123. |
| TcpDemux.SecondPortStops | 2.4_ustack/tcp_from_king.c:1660-1666 | A run that ends: one client connects from one port to two ports of the server. |
| TcpDemux.ListenOnAccepted | 2.4_ustack/tcp_from_king.c:1255-1267 | In every run: after nlisten on a descriptor that naccept returned, the next SYN of that peer ends the program. |
| TcpDemux.LeastFree | 2.4_ustack/tcp_from_king.c:869-881 | The search of the bit table finds the least descriptor from its start that is not marked, or -1 exactly when all up to 1023 are. |
| TcpDemux.SocketIsMade | 2.4_ustack/tcp_from_king.c:1179-1218 | nsocket makes a TCP socket if and only if no ring bears the fixed name it uses; it takes a descriptor in any case, as long as one is free. |
| TcpDemux.ClosedListenerIsFinal | 2.4_ustack/tcp_from_king.c:1544-1551 | After nclose of the listening socket, whose rings are not freed, no later call of nsocket makes a TCP socket, whatever happens in between. |
| TcpDescriptors.CallsAreExact | 2.4_ustack/tcp_from_king.c:905-932 | In every run that binds, listens on or closes nothing that was closed: two streams that were not closed never share a descriptor, and a call with such a stream's descriptor reaches it if and only if no closed stream before it in the list still has the number. |
| TcpDescriptors.AcceptedIsReached | 2.4_ustack/tcp_from_king.c:1270-1296 | naccept gives the first connection of the port without a descriptor the least free one, and calls with it reach this connection if and only if no stream before it has that number. |
| TcpDescriptors.ReusedDescriptor | 2.4_ustack/tcp_from_king.c:1524-1542 | A run in which the bytes sent on a descriptor that naccept has just returned are queued for another connection, which was closed and still has the number. |
| TcpStack.TcbList.Add | 2.4_ustack/tcp_from_king.c:145-151 | LL_ADD on linked control blocks: the new one is first, the others keep their order and contents, and the links stay those of a doubly linked list. |
| TcpStack.TcbList.Remove | 2.4_ustack/tcp_from_king.c:153-158 | LL_REMOVE of a control block at any place: exactly that one leaves, the others keep their order and contents. |
| TcpStack.TcbList.Find | 2.4_ustack/tcp_from_king.c:1617-1640 | The two walks along the links find what the two-pass search specifies. |
| TcpStack.FdTable.Take | 2.4_ustack/tcp_from_king.c:869-881 | The walk over the marks takes the lowest free descriptor, or none when all are taken. |
| TcpStack.Stack.ArpLookup | 2.4_ustack/tcp_from_king.c:205-219 | The walk bounded by the counter finds an address exactly when the bounded search does. |
| TcpStack.Stack.ProcessPacket | 2.4_ustack/tcp_from_king.c:2031-2106 | Segment processing on the linked control blocks is the transition system's step, and no other block changes. |
| TcpStack.Stack.OutputPass | 2.4_ustack/tcp_from_king.c:2191-2232 | The walk of the output pass gives every stream exactly one turn, in list order, and leaves the output ring as specified. |
| TcpStack.Stack.RecvFrom | 2.4_ustack/tcp_from_king.c:1349-1403 | nrecv in place: which bytes and which length it returns, and what stays queued. |
| TcpStack.Stack.CloseFd | 2.4_ustack/tcp_from_king.c:1494-1555 | nclose in place: a FIN is queued and the descriptor freed, or a listener removed, and nothing else changes. |
| TcpStack.Stack.Accept | 2.4_ustack/tcp_from_king.c:1270-1296 | naccept in place: the first unaccepted connection on the port gets the lowest free descriptor, which is returned, and without one nothing changes. |
| TcpStack.Stack.Socket | 2.4_ustack/tcp_from_king.c:1138-1221 | nsocket in place: it takes the lowest free descriptor, and returns it with a new stream at the head of the list, or returns -1 when its rings cannot be made. |
| TcpStack.Stack.Run | 2.4_ustack/tcp_from_king.c:753-826 | The stack driven by any sequence of events is in the state of the transition system's run, so that the theorems speak about it. |
| Throughput.Runner.Fill | dpdk1902/dpdk-stable-19.08.2/app/test-crypto-perf/cperf_test_throughput.c:152-183 | The pool writes its operations over the front of the array and the leftovers are moved conditionally, yet the burst is exactly the drawn operations followed by all leftovers, in order. |
| Throughput.Runner.CloseGap | dpdk1902/dpdk-stable-19.08.2/app/test-crypto-perf/cperf_test_throughput.c:177-183 | The conditional move: also when it is skipped the leftovers lie right behind the drawn operations. |
| Throughput.Runner.Turn | dpdk1902/dpdk-stable-19.08.2/app/test-crypto-perf/cperf_test_throughput.c:144-229 | One turn, for every device: it fails if and only if the pool does not have the operations for the burst, and otherwise the invariant stays (with leftovers, the operations needed never exceed the ones accepted before), no operation is lost, and there is progress. |
| Throughput.Runner.Round | dpdk1902/dpdk-stable-19.08.2/app/test-crypto-perf/cperf_test_throughput.c:134-247 | A round that finds enough operations, as every round does with total_ops of them or with what the device can hold and one burst: the device accepts exactly total_ops more operations and gives back every one that it accepted, no leftover stays, and the whole pool is free again. |
| Throughput.Runner.Run | dpdk1902/dpdk-stable-19.08.2/app/test-crypto-perf/cperf_test_throughput.c:134-314 | One round for each burst size up to the first that is too large, with one pool: the device accepts total_ops operations for each of them and gives them all back, and the pool is whole at the end. |
| Throughput.ConservedApart | dpdk1902/dpdk-stable-19.08.2/app/test-crypto-perf/cperf_test_throughput.c:144-229 | Conservation of a pool of distinct operations means that each one is in exactly one place: free, in the device or left over. |
| Latency.Runner.AssignSlots | dpdk1902/dpdk-stable-19.08.2/app/test-crypto-perf/cperf_test_latency.c:237-246 | Every accepted operation gets the next result slot, one each; exactly these slots get the burst's start time, and no other slot's start changes. |
| Latency.Runner.StampAll | dpdk1902/dpdk-stable-19.08.2/app/test-crypto-perf/cperf_test_latency.c:114-122 | Every returned operation stamps the slot it points at, which was given and not stamped before; exactly the newly stamped slots get the end time, never before their start. |
| Latency.SlotsDiffer | dpdk1902/dpdk-stable-19.08.2/app/test-crypto-perf/cperf_test_latency.c:237-251 | Two operations in flight always point at different slots, given and unstamped, although the operation objects are used again and again. |
| Latency.LinkStamp | dpdk1902/dpdk-stable-19.08.2/app/test-crypto-perf/cperf_test_latency.c:114-122 | A returned operation's slot was given out and unstamped; stamping it keeps every other operation's slot its own. |
| Latency.Runner.Turn | dpdk1902/dpdk-stable-19.08.2/app/test-crypto-perf/cperf_test_latency.c:184-265 | One turn, for every device: it fails if and only if the pool does not have the operations for the burst, and otherwise tsc_idx stays equal to the operations enqueued and the pool balanced, the slots of the accepted operations hold the clock before the exchange, those of the returned ones the clock after it, and no others change. |
| Latency.Runner.Round | dpdk1902/dpdk-stable-19.08.2/app/test-crypto-perf/cperf_test_latency.c:174-290 | A round that finds enough operations, as every round does with total_ops of them or with what the device can hold and one burst: the device accepts exactly total_ops operations and gives back every one; each gets a slot of its own, stamped by exactly one dequeue, never before its start, and the whole pool is free again. |
| Checksum.TwoStep | 2.4_ustack/ustack.c:222-234 | For every buffer: the two-step form with an `int` sum returns the RFC 1071 checksum if and only if the sum of the words fits in an `int`. |
| Checksum.Looped | 2.4_ustack/tcp_from_king.c:607-627 | For every buffer the form that folds until no carry is left returns the RFC 1071 checksum. |
| Checksum.TwoStepIsExact | 2.4_ustack/ustack.c:223-232 | Folding twice the sum that wrapped to 32 bits agrees with the full sum if and only if it did not overflow, for every length an `int` can hold. |
| Checksum.FormsAgreeOnPackets | 2.4_ustack/ustack.c:222-234 | Up to 65537 bytes the sum cannot overflow and both forms agree. |
| Checksum.FormsDifferBeyond | 2.4_ustack/ustack.c:222-234 | 65538 bytes of 255 make the two forms differ. |
| Checksum.StoredChecksumVerifies | 2.4_ustack/ustack.c:261-262 | With the checksum stored low byte first in its zeroed, aligned field, the checksum of the whole is 0, for every buffer. |
| Checksum.OneWordChange | 2.4_ustack/ustack.c:222-234 | Two buffers that differ in one aligned word have the same checksum if and only if the words are the two zeros 0 and 65535 and the rest is not all zero. |
| Checksum.ByteOrderIndependent | 2.4_ustack/tcp_from_king.c:607-627 | Swapping the bytes of every word swaps the bytes of the checksum (section 2(B) of RFC 1071). |
| Checksum.OddIsPadded | 2.4_ustack/tcp_from_king.c:617-619 | The trailing byte of an odd buffer counts as if a zero byte followed it. |
| Checksum.EncodeIcmp | 2.4_ustack/ustack.c:255-262 | The echo reply's fields are written and sum up with their checksum to 0; they go to byte 272 of the packet, and every byte before and after them stays. |
| CountBit.CountBit | 2.4_ustack/tcp_from_king.c:2491-2535 | For every buffer the word-parallel count is the number of one bits of the words read, modulo 2^32. |
| CountBit.StagesCountOnes | 2.4_ustack/tcp_from_king.c:2525-2528 | For every 64-bit word the four stages, with their wrap-around, give the number of its one bits. |
| CountBit.PairedTotal | 2.4_ustack/tcp_from_king.c:2525-2527 | Adding neighbouring fields of any width keeps the total of the fields, as long as a double field can hold a sum. |
| CountBit.Masked | 2.4_ustack/tcp_from_king.c:2525-2527 | `&` with a mask of alternating fields of ones keeps every other field, for widths of 1, 2 and 4 bits and any number of fields. |
| CountBit.AddThenMask | 2.4_ustack/tcp_from_king.c:2527-2527 | Adding before masking is the same as masking before adding while no field carries. |
| CountBit.ReadsBehind | 2.4_ustack/tcp_from_king.c:2519-2533 | The count is that of the buffer if and only if whatever is read behind it is zero; with a positive multiple of 8 nothing is. |

## Left out

- Thread pool: memory release (a worker node is freed before its link is read), failed allocations and thread creations, and the clearing of fresh worker memory, of which the code clears only the size of a pointer; calls of push after delete and a second delete have no defined meaning in the source.
- Performance harnesses: error exits, force stop, statistics, timing and all floating-point figures; device statuses other than success and out of space.
- Performance harnesses: the sizing of output segments from the expansion ratio (floating point); the segment sizes are parameters.
- BurstLoop.Run.HarvestNext: does not model the split of the work on a burst into a copying and a length-setting loop; both are done for one operation before the next, which touches the same buffers in the same order.
- BurstLoop.Run.Receive: does not model that deq_ops is the second half of the ops array; the returned burst is a sequence of its own.
- PrepareBufs.ReportedTotalExact: models the signed product in the printed total as wrapping to 32 bits, where C leaves an overflow undefined.
- Checksum.TwoStep: models an overflowing `int` sum as wrapping, where C leaves it undefined.
- The runner of cperf_test_verify.c: its leftover scheme has no move when the last burst shrinks, so the invariant of the throughput runner does not carry over.
- TestVectorParser.Vector.ReadFile: does not model the reading before the buffer for a line that is empty after trimming; that result is `Undefined`.
- Test vectors: allocation failures, and the physical addresses of IV, AAD and digest.
- TCP: malformed segment lengths and IP options, retransmission, windows, sequence number checks and client-side states, which the code does not have; statuses that are never assigned.
- TCP: blocking in naccept and nrecv is a call that does nothing; the shift by a negative descriptor in nclose is no change of the table; UDP packets and timer requests on the output ring are events of their own.
- TcpTheorems.SegmentsLeaveInOrder: ends at the output ring; the transmitting loop frees what the network card does not take, and the card is not part of this model.
- TcpStack.FdTable.Take: models the bit table with one mark for each descriptor instead of eight to a byte; the rings and the ARP list are sequences.
- TcpConversation.Conversation: speaks of runs in which the two rings of the connection have room, pushed segments have data and reads cover the oldest fragment; what one segment or one read does otherwise is in `TcpReading.PushInStep`, `TcpReading.PushFinInStep` and `TcpReading.OrderIsExact`, each with its exact condition.
- TcpDemux.SynIsServed: models the enqueue on rings that do not exist as the end of the program, which keeps the table it had before the segment; the other reasons why a ring is not made are failed allocations. One name stands for the send and the receive ring, which are made and freed together.
- The UDP path, whose lengths include the header, and descriptors shared between TCP and UDP sockets.
- Checksum.EncodeIcmp: models the ICMP part of the encoder only; the Ethernet and IP headers and the library's IP checksum are straight-line copies.
- CountBit.CountBit: models machine words as numbers below 2^64 with wrap-around written out; the memory is readable as far as the loop reads.
- Entropy and the attack detection built on the counts (floating point).
- kni.c, tcp.c, tcp_concurrency.c, udp.c and netarch.c, which are drafts of the same stack, and the small demos.
