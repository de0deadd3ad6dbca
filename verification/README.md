# insomnilog: the asynchronous path, modelled and proved

insomnilog is an asynchronous logger. A thread that logs encodes a record into its own
lock-free byte ring and goes on. One worker thread takes the records out of all the
rings in turn, decodes them and hands each to the sinks of its logger. What users are
promised (no record lost before shutdown, order kept per thread, no byte overwritten
while it is read) rests on invariants that span several files and that the running code
cannot check. This project states them and proves them in Dafny 4.11.

    dafny verify dfyconfig.toml

## How the model is laid out

| file | what it holds |
|---|---|
| `Wrappers`, `Words`, `Decimal` | results and options, wrap-around words and masks, decimal numerals |
| `Fifo` | the abstract queue: a log of committed chunks, a consumed prefix, and the events the threads around it see |
| `RingMachine`, `RingProofs`, `RingWrites` | the SPSC byte ring as a transition system: every atomic load or store and every byte copied is one step, positions wrap, loads may be stale; safety, refinement of `Fifo`, and what `write` owes its caller |
| `SpscQueue` | the same ring as an object over an array, with its real fields and loops |
| `Protocol`, `ProtocolProofs`, `ProtocolTheorems` | producer threads, registry, `alive` flags, shutdown flag and worker as a state machine over any number of queues; its invariant and the guarantees over whole runs |
| `Fairness`, `ProtocolProgress` | bounded waiting, the batch cap, the drain's progress; what is retired, what stops, what takes effect |
| `RingSystem` | the protocol's control over byte rings; every run of it is a run of `Protocol` |
| `Termination`, `RingTermination`, `RingProgress` | what the worker has left to do; over byte rings, with every load and byte copied as a step, it always stops, and no other thread is ever blocked |
| `Codec`, `Record`, `Wire` | the wire format of arguments and of whole records, the loops that write and read it, and the format in literal numbers |
| `RecordReader`, `Runner` | `try_read_one` and `drain_consumer` over the ring object; the worker's loop as an object over such rings |
| `FanOut` | loggers, levels, sinks and error counters |
| `EndToEnd` | log calls through codec, rings and worker to the sinks |
| `Pattern`, `PatternProofs`, `Message`, `Formatting` | pattern parser, its grammar and its errors, printing; `{}` substitution, padding, the default line and its timestamps |
| `Rotation` | the rename cascade of session files over a file system in which any step may fail |

The word size, the pointer width, the byte order, the capacity, the number of threads,
UTF-8 validation, custom decoders, sink behaviour and file-system failures are all
parameters; the theorems hold for every choice of them, with one exception that
depends on the pointer width. Where decoding arbitrary bytes adds an announced length
to a prefix, the sum can leave `usize` on a 32-bit target, and the code panics.
`Codec.DecodeReturnsIff` says exactly when; it never happens with 64-bit pointers, and
never on the bytes of a log call. Clock readings are the timestamps in the log calls.

In the ring, a load of the other side's position returns any published value no older
than the one seen before. In the protocol, the worker's own loads of `write_pos`,
`alive` and the shutdown flag return the latest value; every other step interleaves
freely with it.

## Where the code and its comments differ

The model follows the code.

- `insomnilog/src/formatter.rs:38` calls the width a positive integer and `:104` a
  non-negative one; `str::parse` also takes a leading `+`, so `{level:+5}` is accepted
  (`Pattern.SpecGrammar` has it in the grammar). After the `0` flag a width such as
  `05` is the flag and the width 5, never the width 05.
- `insomnilog/src/backend_runner.rs:125` names a batch constant that does not exist;
  the loop uses `MAX_BATCH_PER_CONSUMER`.
- `insomnilog/src/sink.rs:101-102` says a sink is flushed after each batch of records;
  the worker flushes it after each record it wrote
  (`insomnilog/src/backend_runner.rs:165-170`).
- `insomnilog/src/backend_runner.rs:94-95` allows for `None` on an incomplete or
  inconsistent record. Neither occurs: `RingProofs.FramingHolds` rules out the branch at
  `:116-118`.

## Model

| member | source | states |
|---|---|---|
| Words.MaskIsMod | insomnilog/src/queue.rs:201 | For every power of two, `pos & (capacity - 1)` is `pos mod capacity`, proved bit by bit. |
| Words.WrapSubExact | insomnilog/src/queue.rs:192 | `wrapping_sub` of two reduced positions is their true distance as long as that is below the word size. |
| Words.WrapAddExact | insomnilog/src/queue.rs:211 | `wrapping_add` of a reduced position is the reduced sum. |
| RingProofs.OffsetOfWrapped | insomnilog/src/queue.rs:201-205 | Masking a position that has wrapped at the word size gives the unbounded position modulo the capacity. |
| RingProofs.Ordered | insomnilog/src/queue.rs:186-206 | cached_read <= read <= cached_write <= write <= cached_read + capacity, in unbounded positions. |
| RingProofs.FreeExact | insomnilog/src/queue.rs:192-195 | `capacity - write.wrapping_sub(cached_read)` is the true free space behind the cached position and never underflows. |
| RingProofs.AvailExact | insomnilog/src/queue.rs:221-227 | `available` counts exactly the bytes up to the cached write position, across the wrap; the plain `cached_write > read` test is only true when there is something to read. |
| RingProofs.PhysicallyDisjoint | insomnilog/src/queue.rs:57-65 | Two chunks inside one window of `capacity` logical bytes occupy disjoint bytes of the 2x buffer, although the second half is not mirrored. |
| RingProofs.FillDisjoint | insomnilog/src/queue.rs:172-175 | The slice handed to the writing closure shares no byte with any unread chunk. |
| RingProofs.StepInv | insomnilog/src/queue.rs:164-311 | Every step of either side, in any order and with any permitted stale load, keeps the ring invariant. |
| RingProofs.StepRefines | insomnilog/src/queue.rs:164-311 | Every step of the byte ring is one step of the queue of chunks with the same visible event. |
| RingWrites.CheckDecides | insomnilog/src/queue.rs:186-199 | The first decision of `write`, on the cached read position: refused exactly when larger than the ring, accepted exactly when it fits behind the cached position, and otherwise decided again after a reload. |
| RingWrites.LoadDecides | insomnilog/src/queue.rs:193-198 | The second decision: the reloaded position is remembered, and the record is accepted exactly when it fits behind it, refused otherwise. |
| RingWrites.RefusedOnlyIfFull | insomnilog/src/queue.rs:164-178 | In every run a record is refused only if it is larger than the ring or does not fit behind a read position loaded during that very call. |
| RingWrites.EmptyRingAccepts | insomnilog/src/queue.rs:186-206 | With everything delivered and the latest read position, every record that fits the ring is accepted. |
| RingWrites.WriteIsWaitFree | insomnilog/src/queue.rs:164-216 | A write in progress can always take a step, each of its steps brings it nearer to its end, the consumer never sets it back: at most size + 3 steps. |
| RingWrites.CommitsWhatWasAsked | insomnilog/src/queue.rs:155-178 | In every run each committed chunk is, byte for byte, what the one call under way had asked for. |
| RingProofs.RunInv | insomnilog/src/queue.rs:154-312 | The ring invariant holds in every state of every interleaving. |
| RingProofs.RingSafe | insomnilog/src/queue.rs:76-80 | In every state of every interleaving: no access outside the buffer, no failed debug assertion, bytes being filled disjoint from every unread chunk, every unread chunk intact, and what was read is a prefix of what was written. |
| RingProofs.WrapRefinesUnbounded | insomnilog/src/queue.rs:186-227 | In every reachable state the four wrapped fields are ordered unbounded chunk boundaries modulo the word size, the free space is exact and non-negative, and `available` is 0 exactly when nothing seen is unread. |
| RingProofs.FramingHolds | insomnilog/src/backend_runner.rs:96-123 | In every run the length the worker passes to `read` is the length of the write at that position, and the early return for a partial record is never taken. |
| RingProofs.RunRefines | insomnilog/src/queue.rs:8-23 | Every run of the byte ring, stale loads included, is a run of the queue of chunks from the empty queue. |
| SpscQueue.Queue.constructor | insomnilog/src/queue.rs:126-152 | The capacity is the least power of two not below the request, the buffer twice that, the queue empty. |
| SpscQueue.Queue.TryReserve | insomnilog/src/queue.rs:186-206 | Succeeds if and only if the unread bytes and the new ones fit the capacity, and then yields the masked write position; changes only the cached read position. |
| SpscQueue.Queue.Fill | insomnilog/src/queue.rs:172-175 | Copying into the reserved slice stays inside the buffer, leaves every unread chunk as it was, and puts the data in the slice. |
| SpscQueue.Queue.Commit | insomnilog/src/queue.rs:210-216 | Publishing appends exactly the written chunk to the queue. |
| SpscQueue.Queue.Write | insomnilog/src/queue.rs:164-178 | Oversized, full or written, each exactly when it should be; unread chunks are the old ones plus the new one, or unchanged. |
| SpscQueue.Queue.Available | insomnilog/src/queue.rs:221-227 | Never more than the unread bytes, and zero if and only if there are none. |
| SpscQueue.Queue.Peek | insomnilog/src/queue.rs:255-270 | A prefix of the next chunk, without consuming it. |
| SpscQueue.Queue.Read | insomnilog/src/queue.rs:286-302 | Exactly the oldest unread chunk, which is then gone; the others keep their order and content. |
| SpscQueue.Queue.Advance | insomnilog/src/queue.rs:305-311 | Moves the read position to the next chunk boundary and publishes it. |
| SpscQueue.Queue.BlitKeepsStored | insomnilog/src/queue.rs:201-205 | Changing only the reserved bytes leaves each unread chunk readable at its masked position. |
| SpscQueue.CeilLog2 | insomnilog/src/queue.rs:128 | The exponent of `next_power_of_two`: large enough, and the least that is. |
| ProtocolProofs.NoPartialRecord | insomnilog/src/backend_runner.rs:102-105 | With whole records in the queue, fewer readable bytes than a header means none at all. |
| ProtocolProofs.StepOwned | insomnilog/src/frontend.rs:32-63 | Registration, logging and exit keep one live queue per live thread, never shared. |
| ProtocolProofs.GoneStable | insomnilog/src/per_thread_queue.rs:53-57 | A queue that is empty and whose producer was dropped stays empty through every step of every thread. |
| ProtocolProofs.StepScanWorker | insomnilog/src/backend_runner.rs:187-200 | The `retain` scan keeps a live queue without asking it and a dead one exactly if it holds records; so what it drops is gone for good. |
| ProtocolProofs.CheckComplete | insomnilog/src/backend_runner.rs:203-216 | When the pending check has passed every registered consumer, every queue ever created is drained up to the flag. |
| ProtocolProofs.StepInv | insomnilog/src/backend_runner.rs:187-258 | Every move of every thread keeps the protocol invariant: registry and snapshot without duplicates, every queue registered or gone, drained queues stay drained. |
| ProtocolProofs.RunInv | insomnilog/src/backend_runner.rs:223-258 | The protocol invariant holds in every state of every run. |
| ProtocolTheorems.RunGrows | insomnilog/src/backend.rs:309-324 | Along any run queues are only added, commits only appended, consumption only advances. |
| ProtocolTheorems.DrainThenStop | insomnilog/src/backend_runner.rs:223-258 | For any number of threads and every interleaving: if the worker has stopped with `wait_for_drain`, every record committed before the flag was first stored has been consumed, also from threads that exited or were retired meanwhile. |
| ProtocolTheorems.StopsOnlyAfterFlag | insomnilog/src/backend_runner.rs:226-242 | The worker never returns unless the flag was stored before, draining or not. |
| ProtocolTheorems.RetirementLosesNothing | insomnilog/src/backend_runner.rs:187-200 | A queue that has left the registry holds nothing, and nothing is ever committed to it again. |
| ProtocolTheorems.DispatchedInCommitOrder | insomnilog/src/backend_runner.rs:128-138 | In every state of every run, the records dispatched from a thread are exactly its consumed records that decode: each once, in commit order. |
| ProtocolProgress.GoneIsRetired | insomnilog/src/backend_runner.rs:187-200 | In every run, a queue whose producer is dead and whose records are all consumed is out of the registry after the next completed scan, and stays out. |
| ProtocolProgress.AliveIffOwned | insomnilog/src/per_thread_queue.rs:53-57 | In every run a queue is alive exactly as long as some thread owns it: exit kills it, nothing else does. |
| ProtocolProgress.ServedInOrder | insomnilog/src/backend.rs:317-323 | In every run registry, snapshots and what a scan keeps are in order of registration. |
| ProtocolProgress.FlagIffStored | insomnilog/src/backend.rs:249-250 | In every run the flag is set exactly if it has been stored. |
| ProtocolProgress.NextLookAtFlag | insomnilog/src/backend_runner.rs:226-230 | The worker returns at a look at the flag exactly if it is set and draining is off. |
| ProtocolProgress.DoneIsFinal | insomnilog/src/backend_runner.rs:223-258 | Once the worker has returned nothing more is consumed or dispatched. |
| ProtocolProgress.UndecodableEndsBatch | insomnilog/src/backend_runner.rs:128-136 | A record that does not decode ends its queue's batch: the queue gives up nothing more in that pass. |
| ProtocolTheorems.Conservation | insomnilog/src/macros.rs:37-43 | In every state of every run: calls started = completed + under way; completed = committed + counted as dropped; consumed = dispatched + undecodable. |
| Fairness.BoundedWaiting | insomnilog/src/backend_runner.rs:128-138 | A record with k unread records ahead is consumed within floor(k/32)+1 passes if it and those k decode, whatever was consumed before and whatever the other threads do. |
| Fairness.BoundedWaitingAnyCase | insomnilog/src/backend_runner.rs:128-138 | Decodable or not, it is consumed within k+1 passes. |
| Fairness.BatchCap | insomnilog/src/backend_runner.rs:25-28 | Over any stretch of a run, a queue gives up at most 32 records for each pass completed or under way, whatever its backlog. |
| Fairness.DrainShrinks | insomnilog/src/backend_runner.rs:232-245 | With producers stopped, a pass that starts with records pending ends with strictly fewer, even if every record fails to decode. |
| Fairness.DrainConverges | insomnilog/src/backend_runner.rs:240-245 | With producers stopped, as many passes as there were records pending leave every queue empty. |
| Fairness.EmptyCheckStops | insomnilog/src/backend_runner.rs:240-243 | With every queue empty the pending check runs to its end and stops the worker. |
| RingTermination.NeverStuck | insomnilog/src/backend_runner.rs:223-258 | Over byte rings, in every state that keeps the invariants a worker that has not returned has a step it can take, also in the middle of peeking at or reading a record. |
| RingTermination.TauMovesOn | insomnilog/src/backend_runner.rs:96-123 | Each inner step of `try_read_one` (reload, size, one byte) brings the reader further in its record. |
| RingTermination.EveryRingStepCloser | insomnilog/src/backend_runner.rs:223-258 | Once the flag is set, each step of the worker brings down a lexicographic measure: backlog, passes owed, place in the loop, place in the record. |
| RingTermination.WorkerAlwaysStops | insomnilog/src/backend_runner.rs:223-258 | From every state of every run over byte rings with the flag set, every way the worker can go on alone, byte by byte and with any permitted load, ends in its return after finitely many steps. |
| RingSystem.StepRefines | insomnilog/src/backend_runner.rs:96-123 | Each step of the backend over byte rings is one step of the protocol over queues of chunks. |
| RingSystem.ControlIsReceptive | insomnilog/src/backend_runner.rs:96-123 | The coupling excludes nothing: in the middle of a write or a read, whatever the ring can do next is a step of the system. |
| RingSystem.RunRefines | insomnilog/src/backend_runner.rs:223-258 | Every run over byte rings is a run of the abstract protocol. |
| RingSystem.NoRecordLost | insomnilog/src/backend_runner.rs:218-222 | After a drained shutdown the bytes copied out of each ring begin with every record committed before the flag, byte for byte and in order. |
| RingProgress.ThreadNeverBlocked | insomnilog/src/frontend.rs:32-63 | In every state, whatever all others are doing, a thread can register (unless the registry is being scanned), log any record or exit between calls, and go on inside a call; the flag can be stored at any time. |
| RingProgress.RefusedOnlyIfFull | insomnilog/src/macros.rs:37-43 | In every run of the whole backend a log call is refused only if its record is larger than the ring or does not fit behind a read position loaded during the call. |
| RingProgress.EmptyRingAccepts | insomnilog/src/queue.rs:186-206 | When everything a thread has committed has been delivered and the load is the latest, its next record is accepted if it fits the ring at all. |
| RingProgress.GoneIsRetired | insomnilog/src/backend_runner.rs:187-200 | A ring whose producer is gone and whose bytes have all been delivered is out of the registry after the next completed scan, for good. |
| RingSystem.DispatchedAreDelivered | insomnilog/src/backend_runner.rs:120-137 | What is dispatched from a thread is exactly the decodable part of the bytes read from its ring, in order, and those are what was written. |
| RingSystem.RingsStaySound | insomnilog/src/backend_runner.rs:96-123 | In every state of every run of the whole backend, no ring is accessed outside its buffer and every read has the length of its write. |
| Codec.NeRoundTrip | insomnilog/src/encode.rs:228-235 | `from_ne_bytes` undoes `to_ne_bytes` for every width and either byte order. |
| Codec.TagRoundTrip | insomnilog/src/encode.rs:53-78 | Tag bytes and `try_from` are inverse; exactly the bytes above 16 are refused. |
| Codec.BitsRoundTrip | insomnilog/src/encode.rs:240-253 | Two's complement of every signed width is undone on decoding. |
| Codec.Encode | insomnilog/src/encode.rs:86-100 | `encode_to` produces exactly `encoded_size()` bytes, the tag first. |
| Codec.TrailingBytesIgnored | insomnilog/src/decode.rs:99-120 | Bytes after an argument never change what `decode_one` returns, on arbitrary input. |
| Codec.DecodeExact | insomnilog/src/decode.rs:99-181 | Decoding an encoded argument of any type gives its meaning and its exact size, or the failure of its custom decoder. |
| Codec.DecodeAfterEncode | insomnilog/src/decode.rs:99-181 | The same with anything after it. |
| Codec.StrictPrefixTooShort | insomnilog/src/decode.rs:99-181 | Every strict prefix of an encoding is `BufferTooShort`. |
| Codec.PrefixFree | insomnilog/src/encode.rs:167-299 | No encoding is a strict prefix of another. |
| Codec.DecodeOne | insomnilog/src/decode.rs:99-120 | On arbitrary bytes, success consumes at least one byte and no more than there are. |
| Codec.DecodeReturnsIff | insomnilog/src/decode.rs:135-181 | On arbitrary bytes, decoding an argument returns, with a value or an error, exactly when the end its length field announces fits `usize`; otherwise the code panics. |
| Codec.AlwaysReturnsOn64 | insomnilog/src/decode.rs:99-181 | With 64-bit pointers it always returns. |
| Codec.PanicsOn32 | insomnilog/src/decode.rs:141-146 | With 32-bit pointers the five bytes 13, 255, 255, 255, 255 make it panic. |
| Record.HeaderRoundTrip | insomnilog/src/record.rs:11-57 | Every header field is read back from where it was written, whatever follows. |
| Record.ArgsRoundTrip | insomnilog/src/macros.rs:114-123 | A list of any length and mix of arguments decodes to their meanings, in order and as many, or to a custom decoder's failure. |
| Record.DecodeArgsIffSegmented | insomnilog/src/decode.rs:251-259 | On arbitrary bytes the argument loop succeeds exactly when the bytes can be cut, to the last one, into decodable pieces, and returns those. |
| Record.DecodeArgsFailsIff | insomnilog/src/decode.rs:251-259 | On arbitrary bytes it ends in a given error, or in the panic, exactly when decodable pieces are followed by one that does. |
| Record.DecodingReturnsOn64 | insomnilog/src/decode.rs:234-267 | With 64-bit pointers decoding a record returns on every byte string. |
| Record.RecordRoundTrip | insomnilog/src/macros.rs:70-129 | Decoding what the macro writes gives back timestamp, metadata and logger identity and the arguments in order. |
| Record.RecordFramesItself | insomnilog/src/macros.rs:89-106 | The peeked header of a record announces the length of the whole record: the only framing the ring has. |
| Wire.NativeDigits | insomnilog/src/decode.rs:102-117 | `from_ne_bytes` is the base-256 digit sum, least significant byte first on a little-endian host and last otherwise. |
| Wire.SignedOnTheWire | insomnilog/src/decode.rs:102-117 | For the tag bytes 0, 1, 2, 3, 4 and 15 with 1, 2, 4, 8, 16 and 8 bytes: too short, or the one number in the literal range of the type congruent to the digits. |
| Wire.UnsignedOnTheWire | insomnilog/src/decode.rs:107-117 | For the tag bytes 5 to 9, 10, 11 and 14: too short, or the digits themselves, below the literal bound of the type. |
| Wire.SignedWritten | insomnilog/src/encode.rs:211-253 | Every value of a signed type, and no other, can be logged, and is written as its literal tag and two's complement. |
| Wire.UnsignedWritten | insomnilog/src/encode.rs:211-253 | Every value of an unsigned type (and every float, as its bits), and no other, can be logged, and is written as its literal tag and digits. |
| Wire.SmallOnTheWire | insomnilog/src/decode.rs:99-114 | No byte, a tag above 16, and a boolean: which error, which value, and the two bytes a boolean is written as. |
| Wire.StringOnTheWire | insomnilog/src/decode.rs:135-149 | After tag 13 four length digits and UTF-8: each error exactly when it is due, otherwise the text and its size. |
| Wire.CustomOnTheWire | insomnilog/src/decode.rs:151-181 | After tag 16 the decoder, four length digits and the payload: each error exactly when it is due, otherwise what that decoder makes of that payload. |
| Wire.StringWritten | insomnilog/src/encode.rs:273-298 | A string is written as 13, its length, its bytes. |
| Wire.CustomWritten | insomnilog/src/encode.rs:163-200 | A custom argument is written as 16, its decoder, its payload length, its payload. |
| Wire.AdmittedArgs | insomnilog/src/encode.rs:167-299 | Which strings, custom arguments and booleans the laws cover: all below 4 GiB whose encoding fits `usize`. |
| Wire.AdmittedCalls | insomnilog/src/macros.rs:84-105 | Which calls the laws cover: all with such arguments whose record is below 4 GiB and fits `usize`. |
| Wire.HeaderOnTheWire | insomnilog/src/record.rs:11-27 | The literal offsets and widths from which each header field is read. |
| Wire.HeaderWritten | insomnilog/src/record.rs:31-56 | The literal offsets and widths at which each header field is written, the padding as zero. |
| Wire.RecordTooShort | insomnilog/src/decode.rs:235-246 | On arbitrary bytes: too short for a header, or for what the header announces, is reported as such. |
| Wire.RecordOnTheWire | insomnilog/src/decode.rs:251-266 | On any other bytes, exactly the announced ones are decoded as arguments, whatever follows them. |
| Record.CopyBytes | insomnilog/src/record.rs:51-56 | Copies the bytes to their place and changes no other. |
| Record.WritePieces | insomnilog/src/macros.rs:113-124 | Writing the arguments at a running offset fills exactly the argument area with their concatenation and touches nothing else. |
| Record.WriteRecord | insomnilog/src/macros.rs:95-126 | The closure of the macro fills exactly the reserved slice with the record's encoding and touches nothing else. |
| Record.DecodeArgsLoop | insomnilog/src/decode.rs:251-259 | The loop terminates on arbitrary bytes, never looks past `args_end`, and agrees with the recursive decoder whose successes and failures are characterised above. |
| Record.DecodeRecordBytes | insomnilog/src/decode.rs:234-267 | The imperative decoder, early returns included, computes the function the round trip is about. |
| RecordReader.Format.BatchSize | insomnilog/src/backend_runner.rs:128-138 | A batch takes at most its cap, something if there is anything, and stops early only at the first record that does not decode. |
| RecordReader.Format.TryReadOne | insomnilog/src/backend_runner.rs:96-123 | On a ring of framed records: takes exactly the oldest record, also when it does not decode; `None` without taking anything only when the ring is empty. |
| RecordReader.Format.DrainConsumer | insomnilog/src/backend_runner.rs:128-138 | Takes exactly one batch from the ring and hands on, in order, the records of it that decode. |
| RecordReader.Format.HoldsRecords | insomnilog/src/backend_runner.rs:193-198 | `available() > 0` holds exactly when the ring has an unread record, and asking changes nothing that is held. |
| Runner.RetainedExactly | insomnilog/src/backend_runner.rs:187-200 | Retirement keeps exactly the consumers that are alive or hold something, and no record is lost by it. |
| Runner.RetainedRemaining | insomnilog/src/backend_runner.rs:187-200 | Retirement changes what no queue still holds. |
| Runner.BackendRunner.DrainConsumer | insomnilog/src/backend_runner.rs:128-138 | One batch read from one consumer's ring: what all rings hold, the log and what was processed change by exactly that batch; no other ring is touched. |
| Runner.BackendRunner.DrainAll | insomnilog/src/backend_runner.rs:232-236 | A round over all consumers' rings: each gives up exactly its batch, in order of the list; so per queue, what was yielded followed by what is held stays the same sequence, and something is taken if anything was pending. |
| Runner.BackendRunner.RetireDeadConsumers | insomnilog/src/backend_runner.rs:187-200 | Asks `alive` first and the ring only if it is false, and prunes the list in place to exactly the consumers that are alive or hold something. |
| Runner.BackendRunner.AnyQueuesPending | insomnilog/src/backend_runner.rs:203-216 | True if and only if some registered ring has unread records. |
| Runner.BackendRunner.Run | insomnilog/src/backend_runner.rs:223-258 | The loop over the rings ends whatever fails to decode; with draining every queue has yielded all it held in order, what was processed is what decodes of that, and only live consumers with empty rings are left; without draining nothing moves. |
| EndToEnd.LogCallsAreFramed | insomnilog/src/macros.rs:89-126 | What the macro writes is what the rings and the reader require of a chunk. |
| EndToEnd.ReaderAgrees | insomnilog/src/backend_runner.rs:120-137 | The reader over the ring object and the control of the protocol take the same records for decodable. |
| EndToEnd.EveryLogCallArrives | insomnilog/src/backend_runner.rs:218-258 | For every interleaving: after a drained shutdown, the j-th log call a thread had completed when the flag was stored is the j-th record read from its ring, decodes to what was logged, and if it decodes is dispatched right behind the decodable calls before it. |
| EndToEnd.DispatchedDecode | insomnilog/src/backend_runner.rs:120-137 | In every run every dispatched record has been decoded. |
| EndToEnd.EveryLogCallReachesItsSinks | insomnilog/src/backend_runner.rs:142-182 | From the macro to the sink, over the worker's own dispatch log and any sink behaviour: that log call has been given to every sink exactly as often as promised, after all the sink got earlier and before all it got later. |
| EndToEnd.DeliveredWithinPasses | insomnilog/src/backend_runner.rs:128-138 | Bounded waiting stated on the bytes copied out of a ring, for a record that decodes with those ahead of it. |
| FanOut.Dispatch.AfterPanic | insomnilog/src/backend_runner.rs:159-182 | After a sink panicked on a record no later sink is called with it and no other counter moves. |
| FanOut.Dispatch.AtMostOnePanic | insomnilog/src/backend_runner.rs:178-181 | A record adds at most one to the panic counter, and does if and only if a sink it reached panicked. |
| FanOut.SinkReceivesExactly | insomnilog/src/backend_runner.rs:159-182 | Over any sequence of dispatches with any outcomes, a sink's `write_record` calls are exactly the records at or above the stricter of logger and sink level on which no earlier sink panicked, in dispatch order. |
| FanOut.ReceivedAt | insomnilog/src/backend_runner.rs:159-182 | What a sink receives for one dispatch stands between all it received before and all it receives later. |
| FanOut.Backend.SinkReceives | insomnilog/src/backend_runner.rs:159-182 | At any time in the life of the backend object, the calls each sink has seen are exactly the promised ones of its dispatch history. |
| FanOut.ListedOnce | insomnilog/src/backend_runner.rs:161-165 | A sink its logger lists once gets each such record once. |
| FanOut.PanicsCountRecords | insomnilog/src/backend_runner.rs:178-181 | Over a run the panic counter grows by one exactly for the records on which a called sink panicked. |
| FanOut.Backend.CreateLogger | insomnilog/src/backend.rs:226-242 | The first registration of a name wins, the loser is told the existing logger, and no logger is ever removed or changed. |
| FanOut.Backend.Log | insomnilog/src/macros.rs:70-74 | A call below the logger's level at that moment leaves no trace; any other is recorded with the logger that made it. |
| FanOut.Backend.ProcessNext | insomnilog/src/backend_runner.rs:142-153 | The record's logger is still registered, and calls and all three counters stay what the dispatch history says. |
| FanOut.Backend.FanOut | insomnilog/src/backend_runner.rs:159-182 | The loop with its early exit on a panic makes exactly the calls, and counts exactly the outcomes, of the declarative description. |
| Pattern.SpecGrammar | insomnilog/src/formatter.rs:329-386 | A spec is accepted with a given meaning if and only if the grammar `[[fill] align] ['0'] [['+'] width]`, with `<`, `>` and `^`, spells that meaning; so the grammar is unambiguous. |
| Pattern.SpecRoundTrip | insomnilog/src/formatter.rs:329-376 | Printing a spec and parsing it gives it back, whatever the fill. |
| Pattern.KnownFields | insomnilog/src/formatter.rs:314-327 | The eight literal names, each for its field; every other name is refused by that name. |
| Pattern.TokenGrammar | insomnilog/src/formatter.rs:295-299 | The inside of a placeholder is accepted as a given field exactly if it is that name, alone or with a colon and a text that spells the spec. |
| Pattern.TokenErrors | insomnilog/src/formatter.rs:295-299 | Otherwise the unknown name is reported, and only with a known name the spec that spells nothing. |
| Pattern.TokenRoundTrip | insomnilog/src/formatter.rs:295-299 | A printed placeholder is split at the right colon, also when the fill is a colon, and read back as itself. |
| PatternProofs.PatternGrammar | insomnilog/src/formatter.rs:275-312 | A pattern is accepted as given elements exactly if it is, element by element, brace-free literals and closed placeholders that are accepted as those fields. |
| PatternProofs.PatternErrors | insomnilog/src/formatter.rs:281-299 | Otherwise the error is that of the first placeholder that is not closed or not accepted, everything before it being well spelled. |
| PatternProofs.PatternRoundTrip | insomnilog/src/formatter.rs:275-312 | Printing any list of elements in normal form and parsing it gives the list back. |
| PatternProofs.AcceptedPatternIsNormal | insomnilog/src/formatter.rs:275-312 | Every accepted pattern yields a list in normal form (no empty or adjacent literals, no `{` in one, default fill without alignment), and its canonical text parses to the same list. |
| Pattern.ReadToken | insomnilog/src/formatter.rs:283-294 | The inner loop stops at the first closing brace or reports that there is none. |
| Pattern.ParsePattern | insomnilog/src/formatter.rs:276-312 | The two nested loops, early returns included, compute the recursive parser the round trips are about. |
| Message.SplitUnique | insomnilog/src/formatter.rs:443-459 | Splitting at the leftmost holes is the only way to write a format string as hole-free pieces joined by `{}`. |
| Message.SubstitutesInOrder | insomnilog/src/formatter.rs:443-459 | Arguments go into the holes in order, surplus arguments are ignored, surplus holes stay as text, inserted text is never rescanned. |
| Message.NoArguments | insomnilog/src/formatter.rs:443-459 | Without arguments a message is its format string. |
| Message.OneHole | insomnilog/src/formatter.rs:447-458 | `{}` is a hole and `}{` is not. |
| Message.FormatMessage | insomnilog/src/formatter.rs:443-459 | The scan with one character of look-ahead appends exactly the interleaving of pieces and arguments. |
| Formatting.PaddedShape | insomnilog/src/formatter.rs:388-438 | The result is as wide as asked or as the value, the value stands whole in it, all else is fill, flush as aligned (numbers right, other fields left by default), the odd one to the right; the zero flag means zeros and flush right. |
| Formatting.ApplyFormatSpec | insomnilog/src/formatter.rs:392-438 | The padding loops append exactly the padded value. |
| Formatting.FieldsShow | insomnilog/src/formatter.rs:250-273 | What each of the eight names shows of a record, seconds and milliseconds in literal nanoseconds. |
| Formatting.DefaultSides | insomnilog/src/formatter.rs:168-174 | Without alignment the three numbers stand on the right of their field and the five texts on the left. |
| Formatting.Format | insomnilog/src/formatter.rs:233-246 | Appends the elements' texts in order and leaves what was in the buffer. |
| Formatting.DefaultLine | insomnilog/src/formatter.rs:204-230 | The default pattern is accepted and renders level, time, file, line and message in their places. |
| Formatting.TimestampExact | insomnilog/src/formatter.rs:233-235 | `{secs}.{millis:03}` has exactly three digits after the point and reads back as the timestamp in whole milliseconds, rounded down. |
| Formatting.SameTextSameMillisecond | insomnilog/src/formatter.rs:233-273 | Two timestamps read alike if and only if they fall in the same millisecond. |
| Formatting.DefaultLineShowsTime | insomnilog/src/formatter.rs:207-208 | That text stands between level and file in every default line. |
| Rotation.SlotName | insomnilog/src/sink.rs:410-417 | Index 0 is the live file, index 1 is `.1`, index i the numeral of i without leading zeros. |
| Rotation.SlotInjective | insomnilog/src/sink.rs:410-417 | Distinct backup indices name distinct files. |
| Rotation.RenameShifts | insomnilog/src/sink.rs:435-440 | Each rename of the cascade has a free target and takes the shift one index down. |
| Rotation.CascadeShifts | insomnilog/src/sink.rs:433-442 | After the renames above index m, slots below m are untouched, slot m is free, the rest is one up, and every other path is unchanged. |
| Rotation.NothingLost | insomnilog/src/sink.rs:433-442 | Wherever the cascade stops, the contents of slots 0..N-1 are all still there, each once and in the same order. |
| Rotation.FileSystem.Rotate | insomnilog/src/sink.rs:433-442 | Succeeds if and only if no step fails; on any failure the file system is exactly the partial shift up to the failing index. |
| Rotation.FileSystem.OpenSession | insomnilog/src/sink.rs:395-408 | On success the file system is exactly what the cascade leaves with a new, empty live file, and by name: the last session is `.1`, each numbered backup has moved to the next number; on failure nothing was opened and the partial shift stands. |
| Rotation.FileSystem.Append | insomnilog/src/sink.rs:326-329 | What a session writes extends its live file and nothing else, so it leaves what a session with the longer text leaves. |
| Rotation.SessionShifts | insomnilog/src/sink.rs:331-347 | The cascade and a new live file put every backup one up and touch no other path. |
| Rotation.ManySessions | insomnilog/src/sink.rs:324-349 | After k sessions, each the cascade followed by its writes, from any file system: slot i holds session k-i, or past the first session what slot i-k held at the start, gaps included; all other paths are as at the start. |

## Left out

- Console, file and stream writing, buffering, `OpenOptions` and the summaries on stderr: no property of their own; rotation is over a map from path to content.
- Raw pointers, fn-pointer bytes, `Arc` counts, alignment and cache padding: replaced by abstract identities and a logger registry that only grows.
- Weak memory beyond stale loads of the ring's positions: the worker's loads in the protocol are sequentially consistent.
- Idle back-off, sleeping, yielding, thread names and wall-clock time: performance only.
- `start`, the shutdown guard, sink registry lookups, `LogLevel` conversions, error types and their texts: would only add easy members.
- Float formatting and the inside of UTF-8 validation: floats travel as their bits, validation is a parameter, arguments reach the formatter as their text.
- Custom decoders that panic: decoding runs outside the worker's panic guard, and the model takes decoders that return. In the protocol a record on which decoding panics for its length field counts as undecodable; the log macro writes none (`Record.RecordRoundTrip`), and with 64-bit pointers there is none (`Record.DecodingReturnsOn64`).
- Arguments and records of 4 GiB and more, and records whose size does not fit `usize`: the format documents the former as unsupported.
- Evaluating argument expressions more than once in the macro: arguments are values without effects.
- Logging from the worker thread itself, which the code refuses with a panic.
- Runner.BackendRunner.Run: covers the passes from the one that finds the flag set, with producers stopped; the interleavings with producers are the subject of `Protocol` and `RingSystem`.
- SpscQueue.Queue.Write: sequential, both halves on one thread with fresh loads; interleaved halves with stale loads are the subject of `RingMachine`.
- FanOut.Backend.ProcessNext: a panic inside a sink's `level()` counts as one in its write, and records wait in one list; the fan-out of what the worker takes from per-thread rings is `EndToEnd.EveryLogCallReachesItsSinks`.
- Formatting.Format: buffers are string values that are returned extended, not strings updated through a reference.
