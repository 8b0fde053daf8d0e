# poser: a verified model of its core algorithms

poser is a C framework for event-driven POSIX services. This project models the
algorithms under its sockets and event backends, and proves what they promise:
for every input, every run, every interleaving.

| file | models |
|---|---|
| `SharedObj.dfy`, `SharedObjRuns.dfy`, `SharedObjLaps.dfy` | epoch-based reclamation of shared objects |
| `Service.dfy`, `ServiceShutdown.dfy` | command queue, wakeup flag and shutdown of the service loop (mutex build), with the thread pool |
| `JobQueue.dfy`, `JobRing.dfy` | the job queue of the thread pool, lock-free and under a mutex |
| `Dictionary.dfy`, `BucketLock.dfy` | the nested hash trie, and the reservation words of a shared one |
| `Json.dfy`, `JsonParser.dfy`, `JsonGrammar.dfy`, `JsonRoundTrip.dfy` | JSON printer and parser, and the texts accepted |
| `Receiver.dfy`, `Sender.dfy` | the two halves of a connection |
| `RateLimit.dfy` | the sliding-window rate limiter |
| `Event.dfy` | events with re-entrant dispatch |
| `IpAddr.dfy`, `IpGrammar.dfy`, `Base64.dfy` | text forms, and the address texts accepted |
| `Common.dfy`, `Texts.dfy`, `Arithmetic.dfy` | shared types; places in texts, numerals; quotients and remainders |

Concurrent parts are state machines with one step for each atomic operation or
critical section, interleaved arbitrarily under sequential consistency. Objects
that the program updates in place are classes, each method proved against a value
(`Contents`, `Pending`, `Text`, ...) about which the lemmas speak. Integer widths
appear where they matter: 32-bit epochs, 16-bit slot numbers, 64-bit hashes, 8-bit
words in Base64; elsewhere numbers are unbounded.

Clock readings, byte counts taken by the kernel, what callbacks do, schedules of
threads and the hash function are parameters, and the results hold for all of them.

Where a plain statement is not what the code does, there is a run or an input that
shows it, and the exact condition under which the code is right:

- A reservation can be missed once the 32-bit epoch laps. The code is safe as long as
  no object's life and no gap between the two loads of a reservation is of the lengths
  that `SharedObj.LifeOk` and `SharedObj.RoundOk` exclude (`SharedObj.SafeReclamation`);
  for each length they exclude there is a failing run
  (`SharedObjLaps.LongLifeLosesProtection`, `SharedObjLaps.LappedReserveLosesProtection`).
- The lock-free job queue overwrites jobs with two workers and two slots; all runs are
  sound if and only if there are fewer (`JobQueue.SoundIffSerial`).
- Removing an absent key under a full hash collision adds an entry, which makes the
  count wrong (`Dictionary.CountStaysRightIff`). `get` is not affected.
- An object set while it is still stored is passed to the deleter and stays stored, or
  is stored twice; no other set does that (`Dictionary.OwnershipKeptIff`).
- Without TLS, `dataSent` is raised again after a partial write that raised it
  (`Sender.PlainRepeats`, condition in `Sender.Sender.DoWrite`).
- A notification for an empty buffer is lost if its write blocks, and then something
  else is sent, or the socket becomes writable, or TLS does not wait to read
  (`Sender.EmptySendLost`, `Sender.Sender.WriteReady`): it is not raised while the
  connection lives (`Sender.LostForGood`), and not at its end either if more was sent
  (`Sender.EmptySendDropped`, `Sender.Sender.Destroy`). Otherwise the next successful
  write raises it (`Sender.Sender.ReadReady`). If none is promised for an empty buffer,
  none is ever lost (`Sender.Run`).
- The rate limiter sees slots modulo 2^16: its answer is right for every history if and
  only if fewer slots passed since the last check, or a whole window beyond the last
  full lap (`RateLimit.RightAnswerIff`, `RateLimit.LappedCheckRefused`). Other gaps put
  the answers for their own key in doubt, and no others (`RateLimit.RateLimit.Check`).
- The documentation of `receiveLine` says a line ends at any CR, LF or CRLF; the code
  looks for a CRLF anywhere first (`Receiver.OneLineIff`, `Receiver.TwoLinesAtOnce`).
- The documentation of `receiveText` says a NUL byte ends a text; in the code the text
  in front of it is delivered if and only if the locator finds an end in it, or the
  buffer is full (`Receiver.NulEndsTextIff`, `Receiver.NulHoldsBack`).
- A quit request from another thread does not wake the loop, in whatever state it is
  blocked (`Service.QuitsDoNotWake`, `Service.BlockedUntilWoken`,
  `Service.QuitElsewhereDoesNotWake`), unless a command follows it
  (`Service.PairedQuitWakes`).
- A shutdown that nothing but the pool holds up is finished by the loop and the workers
  (`ServiceShutdown.ShutdownCompletes`), but with a pool without workers nobody returns
  its lock, and the loop waits for the timeout (`ServiceShutdown.EmptyPoolWaits`).
- The address parser takes numbers as strtol does, with white space, signs and `0x`, fewer
  than eight words without a gap, a last colon, and an empty IPv6 address
  (`IpGrammar.CreateIff`, `IpGrammar.ShortText`).
- The JSON parser takes some texts that sections 2 to 7 of RFC 8259 do not allow: leading
  zeros and plus signs, numbers that end in a point, a comma before a closing bracket, any
  byte but white space and a closing brace in place of the quote that opens a key, control
  characters in strings, and surrogates out of pairs (`JsonGrammar.DocumentIff`).
- A Base64 text one longer than a multiple of four announces a byte that is never
  written (`Base64.DecodedLength`).
- A JSON text that ends where an array or object with a member wants another makes the
  parser take the last value again, and destroy it twice (`JsonParser.TruncatedTwice`,
  `JsonParser.TwiceEndsOpen`); in all others each value built is in the result or
  destroyed, once (`JsonParser.Deserialize`).

## Model

| member | source | states |
|---|---|---|
| SharedObj.SafeReclamation | src/lib/core/sharedobj.c:18-113 | in every interleaving of any number of threads creating, swapping then retiring, reserving, releasing and scanning, an object returned by a reservation is not destroyed before that thread releases or reserves again; nothing published is destroyed; nothing is destroyed twice; what is retired and not destroyed is still on its thread's list; no access is out of bounds. Condition: no life and no round of a reservation laps the 32-bit epoch harmfully |
| SharedObj.StepKeeps | src/lib/core/sharedobj.c:18-113 | each atomic step keeps the invariant that every reservation, also one whose second epoch load is still to come, is protected: its slot holds its epoch, and no scan has passed that slot for the object |
| SharedObj.GuardAnswers | src/lib/core/sharedobj.c:54-65 | the slot that guards an object makes the scan's test succeed for it |
| SharedObj.ConflictIsCyclicInterval | src/lib/core/sharedobj.c:58-60 | the test on truncated epochs is membership in the arc from creation to retirement around the circle of words |
| SharedObj.TestIsSoundIff | src/lib/core/sharedobj.c:58-60 | the test sees every reservation within a life exactly if the life is shorter than 2^32 epochs or ends one short of full laps |
| SharedObjRuns.ReserveReads | src/lib/core/sharedobj.c:95-107 | in every interleaving, what a completed reservation of a reference returns, nothing included, is what was last put into that reference at some moment between its start and its end; if nobody else swaps that reference meanwhile, it is what was in it at the start |
| SharedObjRuns.ReleaseLeaves | src/lib/core/sharedobj.c:109-113 | a completed release leaves the thread without an object, and its slot at one less than an epoch that was current during the release |
| SharedObjRuns.ReleasedSlotPasses | src/lib/core/sharedobj.c:58-60 | such a slot does not hold back an object created since that epoch and retired before the word of the slot comes round again |
| SharedObjRuns.ScanDoes | src/lib/core/sharedobj.c:42-80 | a scan that nobody interrupts destroys exactly the objects of its list that no slot reserves, in their order, and keeps the others in theirs |
| SharedObjRuns.EpochCounts | src/lib/core/sharedobj.c:18-35 | the epoch advances with every `intEpoch`-th object that a thread creates, and never otherwise |
| SharedObjRuns.ScanCounts | src/lib/core/sharedobj.c:37-45 | a thread scans its list with every `intDestroy`-th object it retires |
| SharedObjRuns.LiveConflicts | src/lib/core/sharedobj.c:18-35 | before an object is retired, the test takes it for reserved, whatever is in a slot |
| SharedObjLaps.LongLifeLosesProtection | src/lib/core/sharedobj.c:35-80 | for every life that `LifeOk` excludes, a run in which an object of that life is destroyed while a thread holds it |
| SharedObjLaps.LappedReserveLosesProtection | src/lib/core/sharedobj.c:95-107 | for every gap that `RoundOk` excludes, a run with short-lived objects only in which that gap between the two loads of one reservation leaves a thread with a destroyed object |
| Service.NoLostWakeup | src/lib/core/service.c:335-475 | in every interleaving, whenever the loop is blocked with commands queued, a wake token is pending or an enqueuer is committed to writing one |
| Service.ExactlyOnceFifo | src/lib/core/service.c:372-475 | executed, then taken, then queued commands are always exactly the enqueued ones in their order |
| Service.OrderlyShutdown | src/lib/core/service.c:1943-1969 | for any interleaving of signals, quits, locks, unlocks, timeout and worker completions, the loop exits only after every worker was joined, each by its own done command, run exactly once |
| Service.JoinNeverWaitsForTheLoop | src/lib/core/threadpool.c:287-303 | when the loop runs a done command, its worker is not joined yet and can at most have its token to write: joining cannot deadlock |
| Service.PairedQuitWakes | src/lib/core/service.c:1943-1962 | in every run in which each quit request of another thread is followed by a command, a request not counted yet finds the loop not blocked, a token pending or an enqueuer committed to writing one |
| Service.QuitElsewhereDoesNotWake | src/lib/core/service.c:2144-2157 | such a state is reached: without a command behind it, a quit request from another thread leaves the loop blocked with no token to come |
| Service.QuitsDoNotWake | src/lib/core/service.c:2144-2157 | in every state in which the loop is blocked without a token and nobody is committed to writing one, any number of quit requests of other threads leave it so, with none of them counted |
| Service.BlockedUntilWoken | src/lib/core/service.c:1943-1962 | a loop blocked so stays blocked until the backend returns for another event or a command is enqueued |
| Service.WakeKept | src/lib/core/service.c:335-345 | every step of any thread keeps the wakeup invariant, across clearing and setting `mustwake` |
| Service.FifoKept | src/lib/core/service.c:397-475 | every step keeps the account of commands |
| Service.PoolKept | src/lib/core/threadpool.c:535-545 | every step keeps the pool invariant: a worker's done command is logged once, after it left, and `rthreads` counts the workers not joined |
| Service.TokenAccount | src/lib/core/service.c:425-475 | in every run, tokens are written at most once more often than the queue is taken, however many commands come; the tokens there are those written less those read or lost |
| ServiceShutdown.RefIsAccount | src/lib/core/service.c:1942-1969 | in every run `shutdownRef` is -1 until a signal, the timeout, a quit request or a counted request of another thread begins the shutdown, and then the number of locks, the pool's included, not returned since it began or was last begun anew |
| ServiceShutdown.TimerIffLocked | src/lib/core/service.c:2168-2187 | in every run the timeout is set if and only if a lock was taken, the pool's included |
| ServiceShutdown.QuietIsNearer | src/lib/core/service.c:1943-1969 | every step of the loop and the workers that waits for nothing from outside comes nearer to the end, so that no run of them goes on for ever |
| ServiceShutdown.ShutdownCompletes | src/lib/core/service.c:1943-1969 | from any reachable state in which nothing but a pool told to stop holds up the shutdown, every run of such steps that cannot go on has left the loop |
| ServiceShutdown.ShutdownReaches | src/lib/core/threadpool.c:287-303 | there is such a run, so quit, with every lock returned, leads to the exit without further events |
| ServiceShutdown.NothingOutstandingCloses | src/lib/core/service.c:2189-2193 | such a state is reached when, by the schedule, a shutdown began and all locks but that of the stopped pool were returned |
| ServiceShutdown.RequestStarts | src/lib/core/service.c:1953-1962 | a request of another thread that is there when the loop looks begins the shutdown before the loop decides |
| ServiceShutdown.RequestsConserved | src/lib/core/service.c:1953-1962 | every request of another thread is taken once, or still to be taken |
| ServiceShutdown.EmptyPoolWaits | src/lib/core/threadpool.c:784-789 | with a pool without workers, a quit leads to a loop that waits with the pool's lock outstanding |
| JobQueue.ExactlyOnce | src/lib/core/threadpool.c:233-274 | with one worker (or one slot) and any enqueuers, no untaken slot is overwritten, jobs are delivered once and in ticket order, undelivered ones are in their slot or with their enqueuer, and a place is refused only when `sz` jobs are outstanding |
| JobQueue.TwoWorkersOverwrite | src/lib/core/threadpool.c:267-272 | with at least two workers and two slots, some run has an enqueuer about to overwrite an untaken job |
| JobQueue.SoundIffSerial | src/lib/core/threadpool.c:233-274 | all runs are sound if and only if there is at most one worker or at most one slot |
| JobQueue.CountedKept | src/lib/core/threadpool.c:235-272 | for any number of workers, places and semaphore posts are conserved by every step |
| JobQueue.JobsAccounted | src/lib/core/threadpool.c:233-253 | for any number of workers and in every run, the jobs that were granted a place are those with a ticket and those an enqueuer still carries, each as often |
| JobQueue.Drains | src/lib/core/threadpool.c:233-274 | with one worker (or one slot), from every state the steps of enqueuers and workers alone empty the queue: no deadlock, no place lost |
| JobQueue.AllDelivered | src/lib/core/threadpool.c:233-274 | so every run can go on to where exactly the jobs that were granted a place have been delivered, as often, and all places are free |
| JobRing.JobRing.Enqueue | src/lib/core/threadpool.c:205-220 | mutex build: a job is rejected exactly if the ring is full, and else appended; every accepted job is taken or stored, once and in order |
| JobRing.JobRing.Claim | src/lib/core/threadpool.c:224 | a semaphore wait that returned stands for one stored job |
| JobRing.JobRing.Dequeue | src/lib/core/threadpool.c:225-230 | any worker with a claim finds the oldest job, whatever other workers do in between |
| Dictionary.Dictionary.Set | src/lib/core/dictionary.c:170-383 | for any hash function, setting a key (null removes it) is the update of a finite map; the entry replaced goes to the deleter, and every entry ever put in is stored or was passed to the deleter, as often as it was put in |
| Dictionary.OwnershipKeptIff | src/lib/core/dictionary.c:193-217 | where every object is stored once, a set keeps it so and deletes nothing that is stored, if and only if the object it is given is not stored already |
| Dictionary.Run | src/lib/core/dictionary.c:170-643 | over any run of sets and removals, if no object is put in twice, none is passed to the deleter twice, and none that is still stored |
| Dictionary.SetAgainDeletesStored | src/lib/core/dictionary.c:257-276 | the same object set again under its key is passed to the deleter and stays stored |
| Dictionary.Dictionary.SetBucket | src/lib/core/dictionary.c:170-355 | the recursive descent ends by depth 14, keeps every entry on the path of its own hash bits across splits, and updates the bag of entries and the count alike |
| Dictionary.Dictionary.SetSingle | src/lib/core/dictionary.c:255-340 | a single item is replaced or removed if it has the key, and else split into a table first |
| Dictionary.Dictionary.SetChain | src/lib/core/dictionary.c:187-254 | a chain at full depth is searched and updated; an absent key is always appended, also with null |
| Dictionary.Dictionary.SetTable | src/lib/core/dictionary.c:343-353 | descending into the bucket the next hash bits select updates the whole table |
| Dictionary.Dictionary.Get | src/lib/core/dictionary.c:386-477 | the lookup returns exactly what the finite map holds |
| Dictionary.Dictionary.GetBucket | src/lib/core/dictionary.c:386-433 | below any bucket, the object found is the one the bag holds for the key |
| Dictionary.Dictionary.Count | src/lib/core/dictionary.c:479-489 | the count is the number of entries, and the size of the map exactly if no entry holds null |
| Dictionary.Dictionary.RemoveAll | src/lib/core/dictionary.c:607-643 | exactly the entries that do not match stay, the others go to the deleter, and their number is returned |
| Dictionary.Dictionary.RemoveBucket | src/lib/core/dictionary.c:491-605 | the same below any bucket, with the count reduced accordingly |
| Dictionary.Dictionary.Destroy | src/lib/core/dictionary.c:645-736 | in the end every entry ever put in went to the deleter exactly once |
| Dictionary.ShiftedIsOneShift | src/lib/core/dictionary.c:296-330 | shifting the hash level by level is one shift by the bit count a split computes |
| Dictionary.FullPathFixesHash | src/lib/core/dictionary.c:187-254 | hashes on the same path of full depth are equal in all 64 bits |
| Dictionary.ChainSharesHash | src/lib/core/dictionary.c:187-254 | entries that share a chain have equal full hashes |
| Dictionary.KeysAreUnique | src/lib/core/dictionary.c:170-355 | a well-formed trie holds no key twice |
| Dictionary.UpdateLifts | src/lib/core/dictionary.c:343-353 | an update of the selected child is the same update of the whole table |
| Dictionary.SplitKeeps | src/lib/core/dictionary.c:294-339 | a split keeps the entry, and puts it on its own path |
| Dictionary.CountIsMapSize | src/lib/core/dictionary.c:479-489 | number of entries and size of the map agree exactly if no entry holds null |
| Dictionary.CountStaysRightIff | src/lib/core/dictionary.c:248-253 | a set keeps the count right if and only if it does not remove an absent key under a full hash collision |
| Dictionary.RemovalThatAdds | src/lib/core/dictionary.c:248-253 | such a removal leaves a count of 2 for a map of size 1 |
| BucketLock.WordsAreRight | src/lib/core/dictionary.c:362-475 | in every interleaving of any readers and writers, each word is -1 exactly with one writer and no reader in its bucket, and else the number of readers inside |
| BucketLock.WriterIsAlone | src/lib/core/dictionary.c:620-637 | in every run no other thread is inside a bucket together with a writer |
| BucketLock.ServesLastCall | src/lib/core/dictionary.c:362-475 | in every run a thread waits for, or is inside, the bucket of its last call, reading or writing as it asked |
| BucketLock.ReaderEntersIff | src/lib/core/dictionary.c:446-460 | a reader gets in by at most two steps of its own if no writer is inside, and by no number of them if one is |
| BucketLock.WriterEntersIff | src/lib/core/dictionary.c:367-370 | a writer's exchange gets it in if and only if nobody is inside, and else changes nothing |
| BucketLock.AllCallsEnd | src/lib/core/dictionary.c:362-475 | from every reachable state all calls can end, and then all words are zero again |
| Json.Serializer.AppendChr | src/lib/core/json.c:469-480 | one byte is appended where there is room, in a growing buffer always, and nothing else changes |
| Json.Serializer.SerializePlainString | src/lib/core/json.c:487-542 | the escaped text, as far as it fits, with success exactly if all of it does |
| Json.Serializer.SerializeArray | src/lib/core/json.c:562-573 | the same for an array, across all early exits of its items |
| Json.Serializer.SerializeObject | src/lib/core/json.c:544-560 | the same for an object |
| Json.Serializer.SerializeValue | src/lib/core/json.c:581-644 | the same for any serializable value |
| Json.Serializer.SerializeTo | src/lib/core/json.c:646-656 | the caller's memory holds the front of the text that fits, a NUL and its old bytes behind; nothing is touched with size 0; the result is the size needed, or one more than there is |
| Json.Serializer.Serialize | src/lib/core/json.c:658-668 | the whole text and a NUL in a fresh buffer, so both buffers agree on the text |
| Json.TextHasNoNul | src/lib/core/json.c:529-537 | the text is never empty and has no NUL inside, whatever bytes the strings hold |
| Json.LookupKnows | src/lib/core/json.c:403-411 | a property is found exactly for the keys the object has |
| Json.SetPropertyIsUpdate | src/lib/core/json.c:157-171 | setting a property changes the value of its key only, and the key order only by appending a new key |
| Json.SetPropertyKeepsDistinct | src/lib/core/json.c:157-171 | no run of property settings gives an object a key twice |
| JsonParser.Deserializer.ParsePlainString | src/lib/core/json.c:681-835 | the parser reads strings as `StringFrom` says and never past the terminator; it moves on over a complete one, and else stays where it was |
| JsonParser.Deserializer.ParseArray | src/lib/core/json.c:881-913 | the loop over items agrees with the recursive meaning of arrays; the array owns its items, and on failure all of it is destroyed |
| JsonParser.Deserializer.ParseObject | src/lib/core/json.c:837-879 | the loop over properties agrees with the recursive meaning of objects; a value that another one replaces is destroyed |
| JsonParser.Deserializer.ParseNumber | src/lib/core/json.c:924-940 | integers are read as strtoll does, saturating at 64 bits; with a fraction or exponent behind, what strtod takes is a float |
| JsonParser.Deserializer.ParseValue | src/lib/core/json.c:942-997 | the recursive descent computes `ValueAt` on any text, with the success without a value at its end |
| JsonParser.Deserialize | src/lib/core/json.c:837-1015 | a document is one value with only white space around it; every value built is part of the result or destroyed, each once, if and only if the text does not end where an array or object that has a member wants another |
| JsonParser.TwiceEndsOpen | src/lib/core/json.c:837-945 | only in a text that ends, but for white space, in a comma or a colon is a value taken for a missing one |
| JsonParser.TruncatedTwice | src/lib/core/json.c:837-945 | in `[1,` and in `{"a":1,"b":` one is, and destroyed twice |
| JsonGrammar.DocumentIff | src/lib/core/json.c:670-1015 | the parser accepts a text if and only if it spells a value, as concrete syntax with its own literal bytes, with runs of space, tab, line feed and carriage return between any two tokens and around it; the result is the value spelled |
| JsonGrammar.ValueRead | src/lib/core/json.c:942-997 | every spelling of a value, with something behind it that can follow a value, is read as that value, up to its end |
| JsonGrammar.ValueSpelled | src/lib/core/json.c:942-997 | and what the parser reads as a value is a spelling of it |
| JsonGrammar.LettersRead | src/lib/core/json.c:681-835 | every spelling of a string, with raw bytes, named escapes, units and surrogate pairs, is read as its bytes |
| JsonGrammar.TightMeans | src/lib/core/json.c:670-677 | a spelling means the same without its white space |
| JsonRoundTrip.RoundTrip | src/lib/core/json.c:487-1015 | parsing the text of any tree of null, booleans, 64-bit integers, arbitrary byte strings and non-empty containers gives the same tree, properties in the same order |
| JsonRoundTrip.SpacedBack | src/lib/core/json.c:670-1015 | the same for every text of such a tree with any white space between its tokens and around it |
| JsonRoundTrip.PlainIs | src/lib/core/json.c:487-644 | what the serializer prints is the spelling of the value without white space: numbers without plus sign, with a minus sign if negative, of bytes in strings only `"`, the backslash and control characters escaped, by name where they have one, and no comma at the end |
| JsonRoundTrip.SerializeThenDeserialize | src/lib/core/json.c:658-1015 | the same through the buffers in memory |
| JsonRoundTrip.TextIsInjective | src/lib/core/json.c:581-644 | different serializable values have different texts |
| JsonRoundTrip.StringBack | src/lib/core/json.c:681-835 | the escapes of a string, NUL bytes included, read back as that string |
| JsonRoundTrip.EscapeIsUtf8 | src/lib/core/json.c:738-811 | the escape of any character as in section 7 of RFC 8259, as one unit or a surrogate pair, each digit in either case, decodes to its UTF-8 form |
| JsonRoundTrip.Utf8Back | src/lib/core/json.c:778-811 | that form is the shortest sequence of a lead byte and continuation bytes, as in section 3 of RFC 3629, from which the character can be read again |
| Receiver.Run | src/lib/core/connection.c:465-663 | over any run of reads, requests and confirmations, whatever the handler asks for in each call, the connection is in the state of a reference that is fed what each action puts in: fronts of its source, its request, its confirmation; so what was read is what was delivered or dropped, in order, and what is pending; nothing is dropped if no texts are asked for, and else NUL bytes only |
| Receiver.SameInputsSameLog | src/lib/core/connection.c:465-539 | every message, with the bytes and the requests of its handler, and every NUL byte dropped is determined by what came from outside and by what the handler asks for in its n-th call |
| Receiver.Conserved | src/lib/core/connection.c:465-607 | in any log of the reference, what was read is what was taken out, in order, and what is pending |
| Receiver.Framing | src/lib/core/connection.c:479-519 | in any log, a binary message has the size expected when it was delivered; a text ends where its locator says, or without that is all that a buffer full from its first byte on holds in front of a NUL; what is dropped is NUL bytes, while receiving texts |
| Receiver.OnlyNulsDropped | src/lib/core/connection.c:479-488 | in any log, what was taken out of the buffer is what was delivered, but for NUL bytes |
| Receiver.Receiver.RaiseReceived | src/lib/core/connection.c:465-539 | exactly what is due in the reference is delivered; in the end nothing is, and with no handler at work the next read has room; also with locators that answer the start of a text, unless the handler leaves it so for ever |
| Receiver.Receiver.TextTurn | src/lib/core/connection.c:479-528 | NUL bytes in front are dropped; the text then goes up to the end its locator finds, or to its NUL if the buffer is full; with neither, nothing is delivered; the setting becomes what the handler asks for |
| Receiver.Receiver.BinaryTurn | src/lib/core/connection.c:510-528 | a chunk of exactly the expected size, or of all bytes if none is expected |
| Receiver.Receiver.Deliver | src/lib/core/connection.c:489-528 | the NUL put behind a text loses no byte: what it covers is pending still; all that the handler asks for in this call takes effect |
| Receiver.Receiver.Compact | src/lib/core/connection.c:530-538 | moving the rest to the front keeps what is pending, a covered byte included |
| Receiver.Receiver.Store | src/lib/core/connection.c:602-607 | what was read comes behind what is there, also while a handler is at work |
| Receiver.Receiver.DoRead | src/lib/core/connection.c:541-631 | each read takes the front of what its source holds, as much as there is room; without TLS there is one, with TLS another follows exactly if the last one got all it wanted and no handler is at work |
| Receiver.Receiver.ReadReady | src/lib/core/connection.c:633-663 | while a handler is at work nothing is read, and else the front of what there is |
| Receiver.Receiver.Confirm | src/lib/core/connection.c:1030-1040 | the last confirmation lets messages flow again, and if TLS was cut short by the buffer reads again, unless a handler is at work and the buffer still full; others only count down |
| Receiver.Receiver.Apply | src/lib/core/connection.c:910-928 | a mode is changed, or refused if more is expected than the buffer holds |
| Receiver.Receiver.AskFor | src/lib/core/connection.c:910-928 | so it is with a request from outside, which leaves what is pending alone |
| Receiver.NulEndsTextIff | src/lib/core/connection.c:489-503 | a text with a NUL behind it can be delivered if and only if the locator finds an end in front of the NUL or the buffer is full |
| Receiver.NulHoldsBack | src/lib/core/connection.c:489-503 | a whole line behind a NUL is read and waits |
| Receiver.StuckIff | src/lib/core/connection.c:490-523 | a turn leaves the text where it was if and only if the locator answers its start |
| Receiver.LocateEolIsGood | src/lib/core/connection.c:455-463 | a line end is found exactly if there is a CR or an LF, within the text, and the line ends in it |
| Receiver.EolIs | src/lib/core/connection.c:455-463 | if some CR is directly followed by an LF, the line ends behind the first such pair; else behind the first LF, and without one behind the first CR |
| Receiver.OneLineIff | src/lib/core/connection.c:455-463 | the line found holds no earlier line end if and only if the first CR and LF are those of the first CRLF, or without one no CR comes before the first LF |
| Receiver.TwoLinesAtOnce | src/lib/core/connection.c:455-463 | a text whose first line end is passed over |
| Sender.Run | src/lib/core/connection.c:250-379 | over any run of sends and partial writes, what is written is a front of what was accepted, and all of it once drained; no notification comes early; each promised is raised, open or dropped; if none was promised for an empty buffer, none is dropped or lost, and every one has come once drained, with TLS each once and in order |
| Sender.Sender.SendAsync | src/lib/core/connection.c:964-991 | a send is accepted exactly if the connection can send and fewer than 16 records wait |
| Sender.Sender.Callback | src/lib/core/connection.c:964-991 | what a callback sends is queued in order, as far as the queue goes |
| Sender.Sender.Gather | src/lib/core/connection.c:255-285 | the write buffer takes the front of the queue, as much as 16 KiB hold, with the notifications of the records it takes whole, and the stream stays the same; notifications open of an empty buffer are dropped |
| Sender.Sender.RaiseNotes | src/lib/core/connection.c:300-307 | exactly the due notifications are raised, with TLS each only once; what the callbacks send in answer is queued |
| Sender.Sender.DoWrite | src/lib/core/connection.c:250-379 | a write takes the front of what is pending; those open notifications are raised whose bytes are out, and without TLS those raised of the same buffer before them again; notifications are dropped exactly if the buffer is filled anew while some of an empty one are open; a write that blocks only fills the buffer |
| Sender.Sender.WriteReady | src/lib/core/connection.c:425-443 | a writable socket writes if there is something to write; else nothing changes but that what TLS waited for is forgotten, so that open notifications are lost |
| Sender.Sender.EventsDone | src/lib/core/connection.c:446-453 | it writes exactly if there is something to write and the socket is not watched; else nothing changes |
| Sender.Sender.ReadReady | src/lib/core/connection.c:642-647 | TLS that waited to read writes again, and else nothing changes; a successful write raises the notifications open of an empty buffer |
| Sender.LostForGood | src/lib/core/connection.c:425-453 | as long as the connection lives, notifications open of an empty buffer, with something else to send or TLS not waiting to read, are not raised in any run: they stay open or are dropped |
| Sender.Sender.Destroy | src/lib/core/connection.c:1079-1097 | the end of a connection raises whatever is open, in order, answers included, after repeating without TLS what was raised of the same buffer; so all that was promised has been raised then or was dropped |
| Sender.PlainRepeats | src/lib/core/connection.c:345-355 | without TLS, two sends and two partial writes raise three notifications |
| Sender.EmptySendLost | src/lib/core/connection.c:286-368 | with or without TLS, for any id, the notification for an empty buffer whose write blocks is lost at once |
| Sender.EmptySendDropped | src/lib/core/connection.c:255-285 | and if more is sent, it is dropped: promised, not raised and not open |
| RateLimit.AddLimit | src/lib/core/ratelimit.c:225-241 | at most 512 counters cover the window with none to spare, and no finer resolution in seconds would do with 512: one second for windows up to 512 seconds |
| RateLimit.CheckLimit | src/lib/core/ratelimit.c:122-154 | a check is accepted exactly if fewer than `limit` accepted ones lie in the last `ncounts` slots, up to the present slot, or up to one with the same 16-bit number where that makes a difference; the ring again stands for the log |
| RateLimit.TotalIsSum | src/lib/core/ratelimit.c:135-152 | the total is always the sum of the counters in use |
| RateLimit.WindowIsSum | src/lib/core/ratelimit.c:135-152 | what lies in a window is the sum over its slots |
| RateLimit.AgeRepresents | src/lib/core/ratelimit.c:135-140 | one turn of the aging loop moves the window by one slot, total and counters alike, also across slot wraparound |
| RateLimit.RightAnswerIff | src/lib/core/ratelimit.c:124-142 | the answer is that of the true window for every history, if and only if fewer than 2^16 slots passed since the last check, or the slots beyond the last full lap are a whole window |
| RateLimit.LappedCheckRefused | src/lib/core/ratelimit.c:124-142 | a check 2^16 slots after the last one counts it in a window that is empty |
| RateLimit.ExpiredIsStale | src/lib/core/ratelimit.c:98-120 | an expired entry, also a lapped one, has nothing left in any window |
| RateLimit.CleanTracks | src/lib/core/ratelimit.c:161-174 | removing all expired entries keeps the agreement with the reference, and brings keys whose gaps were not fair back to it |
| RateLimit.RateLimit.Check | src/lib/core/ratelimit.c:156-209 | for any keys, limits and times: the answer for a key whose gaps between checks have all been fair is that of a reference that logs accepted checks and never cleans up; a gap that is not fair puts only its own key in doubt, until the key's entry is removed |
| Event.Event.Raise | src/lib/core/event.c:119-132 | whatever callbacks register and unregister, those called match, come in registration order and none twice; a match present at the start is called if and only if no callback before its turn unregistered its handler; the handlers at the i-th call are those of the start after all requests of the first i callbacks, and the entry called is among them; calls and final list are those of the dispatch over plain sequences |
| Event.Event.Callback | src/lib/core/event.c:87-117 | the list and the next in line become what the callback's requests make of them: registering appends what is absent, unregistering removes what is there and moves the next in line up |
| Event.Event.DoRegister | src/lib/core/event.c:87-100 | a handler is appended unless it is there; the list stays acyclic and duplicate-free with a correct `last` |
| Event.Event.DoUnregister | src/lib/core/event.c:102-117 | the handler's entry is unlinked, and if it was next in line, its successor is |
| Event.Event.FindEntry | src/lib/core/event.c:73-85 | the entry of a handler and its parent, or neither |
| Event.TurnKept | src/lib/core/event.c:122-131 | each turn keeps the account: every match from the start had its turn, with the call it was due, or has it ahead if it is still linked |
| IpAddr.RoundTrip | src/lib/core/ipaddr.c:44-260 | every IPv4 or IPv6 address with any prefix length reads back equal from its text, which has at most 43 characters |
| IpAddr.GapIsLastRun | src/lib/core/ipaddr.c:118-131 | the gap is the last run of zero words, and all of it; there is none only if no word is zero |
| IpAddr.TextHasShape | src/lib/core/ipaddr.c:132-150 | the printed text is the words in front of the gap, two colons, and the words behind |
| IpAddr.ToString | src/lib/core/ipaddr.c:103-154 | the printing loops produce that text |
| IpAddr.ParseV4 | src/lib/core/ipaddr.c:44-60 | the loop over four numbers computes `V4From` on any text |
| IpAddr.ParseV6 | src/lib/core/ipaddr.c:62-101 | the loop over words and gap computes `V6From` on any text |
| IpAddr.ShapeBack | src/lib/core/ipaddr.c:62-101 | words around the gap come back as they are, those in it as zeros |
| IpAddr.TextIsInjective | src/lib/core/ipaddr.c:389-394 | different addresses have different texts |
| IpAddr.PrefixShown | src/lib/core/ipaddr.c:103-154 | the text has a slash and a prefix length if and only if that is below 32 for IPv4, or 128 for IPv6 |
| IpGrammar.CreateIff | src/lib/core/ipaddr.c:44-260 | the parser accepts a text if and only if it has 2 to 43 bytes and is four numbers with dots, or at most eight words with colons and at most one gap, with or without a slash and a prefix length that fits; the result is the address spelled |
| IpGrammar.V6Iff | src/lib/core/ipaddr.c:62-101 | words in front of the gap come first, those behind it last, with zeros between, for every text of words and a gap and for no other |
| IpGrammar.StrtolRead | src/lib/core/ipaddr.c:44-101 | numbers are read with white space, a sign and, in base 16, a prefix in front |
| IpGrammar.ShortText | src/lib/core/ipaddr.c:62-101 | `1:2` is taken for the words 1 and 2 and six zeros |
| Texts.DigitsArePlain | src/lib/core/ipaddr.c:103-154 | numbers are printed in lower case and without leading zeros |
| Base64.RoundTrip | src/lib/core/base64.c:14-106 | decoding undoes encoding for every byte string, in either alphabet |
| Base64.Lengths | src/lib/core/base64.c:30-42 | the encoding has the announced length, no NUL, and the size comes back from it |
| Base64.DecodedLength | src/lib/core/base64.c:37-106 | decoding writes the announced size if and only if the length is not one more than a multiple of four |
| Base64.EncodedIs | src/lib/core/base64.c:44-69 | by bits: the i-th letter of an encoding stands for bits 6i to 6i+5 of the bytes, in the alphabet asked for, zero bits behind the end |
| Base64.DecodedIs | src/lib/core/base64.c:79-106 | by bits, for any letters: the i-th gives bits 6i to 6i+5 of what is decoded, the last one of a broken group as many as fill a byte |
| Base64.LetterIs | src/lib/core/base64.c:11-20 | the letters are A to Z, a to z, 0 to 9, then `+` and `/`, or with the other alphabet `-` and `_` |
| Base64.ValueIs | src/lib/core/base64.c:22-28 | the decoder takes the letters of both alphabets for their places in them |
| Base64.EncodeTo | src/lib/core/base64.c:44-69 | exactly the encoding and a NUL are written |
| Base64.DecodeTo | src/lib/core/base64.c:79-106 | exactly the decoding is written, for any text |

## Left out

- Sockets, TLS, processes, daemonizing, signals, logging, resolver, certificates and the event backends: input and output, or calls into other libraries.
- The lock-free command queue (src/lib/core/service.c:348-395): its wakeup flag and link reuse do not support the claims made for the mutex build.
- Memory orders weaker than sequential consistency, in all concurrent models.
- Nested reservations: a thread that reserves again gives up what it held.
- The object pool, the setitimer fallback of timers, lists, queues, hash tables and string builders.
- The panic path, and failures of the event backend or of creating the shutdown timer.
- Dictionary.Dictionary.Set: entries have the dictionary's deleter; deleters of single entries and the no-delete mark are not modelled.
- Dictionary.Dictionary.SetBucket: nested tables are values that the methods replace, so aliasing of nodes and reuse of their memory are not modelled.
- Json.Serializer.SerializeValue: excludes arrays and objects that were never populated, for which the code reads a null container.
- JsonParser.Deserializer.ParseNumber: a float is kept as the text it was read from; the value strtod makes of it, and its printing with `%.15g`, belong to the C library.
- JsonParser.Deserialize: counts values, not the key strings of properties; after a value was taken twice only that some value was destroyed twice is stated.
- Receiver.Receiver.RaiseReceived: a confirmation from inside the handler it is for is excluded, as it would enter the loop again; so are locators that answer a place behind the string they are given, and a handler that from some call on leaves the connection with a locator that answers the start of the text, as the loop would not end; that text handed out may be moved by compaction is not modelled.
- Receiver.Receiver.DoRead: errors and the end of the stream, which close the connection, are not modelled.
- Sender.Sender.DoWrite: write errors, which drop the queue and close the connection, are not modelled.
- Event.Event.Raise: a raise of the same event from inside a callback is excluded; callbacks beyond a given script do nothing.
- RateLimit.RateLimit.Check: checks are sequential, the lock in an entry is not modelled; the clock never goes back.
- JobQueue.ExactlyOnce: a failed compare-and-swap, which only retries, is not a step; job timeouts are left out.
- IpAddr: socket addresses, mapping between IPv4 and IPv6, and prefix matching.
