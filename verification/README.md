# Verification of the core of the Living SDK

This project models the parts of the Living SDK that hold real state or follow a published standard, and
proves what they promise. The models keep the branches, constants and integer widths of the C code; what is
proved about them holds for every input, every run or every reachable state.

- **Socket abstraction layer** (`SalSelect*`, `SalPorts`). Any number of tasks in `sal_select` and `sal_deal_event`,
  as a step system whose steps are the stretches between taking and releasing the lock. No wake-up is lost, a
  delivery walk never touches a waiter that has left, and `select_waiting` counts the registered calls; the two
  limits this needs (256 calls on a socket, 2^32 list changes in one unlocked moment) are proved to be exact, with
  runs that break it beyond them. Within them every sleeper on a ready socket is signalled, whatever the other tasks
  do in between (`SalSelectLive`), and nobody is signalled without cause: over every run a signal has a delivery
  behind it that found a socket of the call's sets ready while the call was on the list (`SalSelectReason`). What
  each call returns is what one of its scans found, looked at descriptor by descriptor while the counters moved
  (`SalSelectResult`), and the counters tell what was delivered, each in its width (`SalSelectCounters`). Readiness
  is what a delivery tests, the counters; data a receiver has left over counts for a scan only, and when a call
  sleeps on such data is proved exactly (`SalSelectLeftover`). The waiter list and the port allocator are classes
  over linked nodes.
- **cJSON** (`CjsonText`, `CjsonString`, `CjsonBits`, `CjsonStrtod`, `CjsonGrammar`, `CjsonRfc8259`, `CjsonBom`,
  `CjsonLanguage`, `CjsonRoundTrip`, `CjsonRfcPrint`, `CjsonLayout`, `CjsonParser`, `CjsonPrinter`, `CjsonMinify*`,
  `CjsonWhole`). Grammar and printed text as functions, parser and printer as classes with offset, depth and a
  growing buffer whose allocator may refuse at any time. The texts accepted as a whole are exactly those of a
  grammar of syntax trees, and every text of RFC 8259, with or without a byte order mark in front, is among them
  with its value exactly up to the nesting limit; every print is such a text with the value it was made from, and so
  printing then parsing is the identity; the lines and indentation of a formatted print are decided by a scanner of
  their own; the string decoder never leaves the space its first pass asked for, minifying keeps just the literals
  and what is neither blank nor comment, makes of the formatted print the unformatted one, and keeps the value of
  every accepted text.
- **cJSON lists and sort** (`CjsonKeys`, `CjsonList`, `CjsonSort`). The pointer surgery on `next` and `prev`,
  against operations on sequences. The merge sort leaves the `prev` of the new head stale exactly if the first name
  given is not strictly below all others, and then `CjsonSort.DetachFirstAfterSort` shows the cycle it causes.
- **JSON Pointer, Patch and Merge Patch** (`CjsonDoc`, `CjsonPointer*`, `CjsonCompare*`, `CjsonLinks`, `CjsonPatch*`,
  `CjsonDiff*`, `CjsonMerge*`). A document means a tree in which objects are maps over names folded to lower case.
  The program departs from the standards in places, and for each the exact condition is proved in both directions:
  when a pointer found leads back (RFC 6901), when each operation of a patch does what RFC 6902 says of it, when
  generated patches reach their target, and for which names a generated merge patch (RFC 7396) does. Merging itself
  computes the function of RFC 7396 on every document. Where no standard decides, the result codes do: which patches
  are refused, with which code and with what left of the document (`CjsonPatchErrors`). A generated patch is there
  for a difference, and no place has two (`CjsonDiffReason`). Generating sorts the members of both documents in
  place and leaves the first one with a stale `prev`, so generated patches are applied to a duplicate of the first
  document.
- **SHA-256, SHA-384, SHA-512 and MD5** (`Streaming`, `HashWords`, `Sha256*`, `Sha512*`, `Md5*`, `Primes`,
  `ShaConstants`). Streaming contexts over byte arrays, for hosts of either byte order, against FIPS 180-4 and
  RFC 1321. The tables of the program are proved to be the constants those standards define: roots of the first prime
  numbers, and sines. The digests of "abc" that the standards give are derived from the definitions.
- **Event loop timers** (`YloopRuns`, `YloopTimers`). The circular list as a class, and whole runs of posts,
  cancels and loop turns, callbacks included: a callback is just more posts and cancels.
- **Tickless accounting** (`Tickless`). Microseconds carried between sleeps.

`dafny verify dfyconfig.toml` checks everything.

Where the code and its comments disagree the model follows the code: `SAL_ASSERT` only logs, so a wrapped
`select_waiting` goes on; `cJSON_Minify` takes `/*/` for a whole comment; `SHA384_Final` clears no more of the
context than a pointer is long; removing what is not there returns 0.

## Model

| member | source | states |
|---|---|---|
| SalSelectProof.LinkKeeps | Living_SDK/device/sal/sal_sockets.c:965-979 | putting a call at the head of the list and moving the change counter keeps the invariant: the list holds exactly the linked calls, every due check is owed by a delivery under way |
| SalSelectProof.RegisterKeeps | Living_SDK/device/sal/sal_sockets.c:981-1007 | counting a call in on one socket keeps select_waiting equal to the number of registered calls |
| SalSelectProof.DeregisterKeeps | Living_SDK/device/sal/sal_sockets.c:1036-1062 | counting a call out finds a positive select_waiting and keeps it equal to the number of registered calls |
| SalSelectProof.UnlinkKeeps | Living_SDK/device/sal/sal_sockets.c:1064-1080 | taking a call off the list leaves no current delivery standing on it |
| SalSelectProof.VisitKeeps | Living_SDK/device/sal/sal_sockets.c:1556-1590 | a delivery that visits one waiter signals it exactly if it was not signalled and the counters call the socket ready for one of its sets, and then owes nothing more up to that waiter |
| SalSelectProof.DeliverKeeps | Living_SDK/device/sal/sal_sockets.c:1512-1556 | after the counter of the socket has moved, every sleeper that became ready lies ahead of the new walk |
| SalSelectProof.WalkOnKeeps | Living_SDK/device/sal/sal_sockets.c:1590-1600 | going on, restarting or ending a walk after the unlocked moment loses no waiter |
| SalSelectProof.StepKeeps | Living_SDK/device/sal/sal_sockets.c:908-1109 | every atomic step of every task keeps the whole invariant, as long as neither counter wraps unseen |
| SalSelectProof.RunIsSafe | Living_SDK/device/sal/sal_sockets.c:1512-1600 | after every run within the two limits: no wake-up is lost, a delivery that believes the list unchanged stands on a waiter that is still on it, select_waiting is the number of registered calls |
| SalSelectProof.DecrementIsSafe | Living_SDK/device/sal/sal_sockets.c:1050-1055 | the asserted select_waiting > 0 holds before every decrement of every run |
| SalSelectLive.ComesNearer | Living_SDK/device/sal/sal_sockets.c:1553-1600 | however the steps of other tasks are mixed in, every step of the delivery that owes the sleeper a visit brings it at least one waiter closer, restarts included, or signals the sleeper |
| SalSelectLive.SleeperIsReached | Living_SDK/device/sal/sal_sockets.c:1010-1034 | for whoever sleeps unsignalled on a ready socket there is a delivery under way on that socket that signals it, in any interleaving with the other tasks, within as many steps of its own as the list is long, counted from the last change of the list |
| SalSelectLive.AloneIsSteady | Living_SDK/device/sal/sal_sockets.c:1553-1600 | such runs exist: the delivery can take any number of steps in a row and disturbs neither the sleeper nor the socket |
| SalSelectLimits.NoLostWakeupExactly | Living_SDK/device/sal/sal_sockets.c:989-995 | wake-ups are never lost if and only if fewer than 256 calls can be registered on one socket at a time (select_waiting is a uint8_t and the assertion only logs) |
| SalSelectLimits.WakeupLost | Living_SDK/device/sal/sal_sockets.c:1545-1552 | with 256 calls there is a run that ends with a sleeper on a readable socket and no delivery under way |
| SalSelectLimits.WalkSafeExactly | Living_SDK/device/sal/sal_sockets.c:1590-1596 | a delivery never follows a waiter that has left if and only if fewer than 2^32 list changes fit into one unlocked moment |
| SalSelectLimits.WalkFollowsDeadPointer | Living_SDK/device/sal/sal_sockets.c:976-977 | with 2^32 changes there is a run in which the change counter reads as before and the waiter is gone |
| SalSelectLeftover.LeftoverExactly | Living_SDK/device/sal/sal_sockets.c:1155-1162 | over every run: a call that sleeps with no counter ready sleeps on a socket sal_selscan calls readable (`lastdata`) if and only if data was left on the socket, and not taken away, after the second scan of the call had looked at it |
| SalSelectLeftover.LeftoverWakesNobody | Living_SDK/device/sal/sal_sockets.c:1246-1292 | and that happens: after any run with such a sleeper, data left on the socket makes it readable for a scan, wakes nobody and starts no delivery |
| SalSelectReason.SignalHasReason | Living_SDK/device/sal/sal_sockets.c:1556-1585 | over every run, without bounds: whoever is on the list and signalled was signalled by a step of a delivery on some socket, taken while it was on the list and unsignalled and since when it has stayed there, that found something to read, room to send or an error there and the socket in the matching set of the call |
| SalSelectReason.WakeHasReason | Living_SDK/device/sal/sal_sockets.c:1010-1034 | a call without a timeout leaves its semaphore only by such a signal |
| SalSelectReason.SignalledCanWake | Living_SDK/device/sal/sal_sockets.c:1023-1034 | over every run, without bounds: a sleeper can leave its semaphore at once if and only if it has been signalled |
| SalSelectResult.ScanCounts | Living_SDK/device/sal/sal_sockets.c:1127-1191 | over every run: what a scan has counted is the number of sets that asked for what each descriptor in turn offered at the moment the scan looked at it |
| SalSelectResult.EveryAnswer | Living_SDK/device/sal/sal_sockets.c:908-1109 | over every run, whatever a call returns: the count of its first scan if that is positive or it must not wait, 0 with a finite timeout after a second scan that found nothing, the count of its last scan, or -1 for a descriptor that is no socket or without a semaphore |
| SalSelectResult.AnswersExactly | Living_SDK/device/sal/sal_sockets.c:981-1109 | a call that finds no socket when it registers returns -1 in any case; one whose time is up never looks again and returns 0, signalled or not, unless a descriptor of its sets was no socket |
| SalSelectResult.LastScanHasReason | Living_SDK/device/sal/sal_sockets.c:1024-1109 | a call that has waited makes its last scan only if its second one found something or it was signalled for a reason |
| SalSelectResult.ReasonIsWatched | Living_SDK/device/sal/sal_sockets.c:1563-1582 | if no set of the call has a member outside its range of descriptors, the reason for its signal is a socket it watches |
| SalSelectResult.SignalledPastRange | Living_SDK/device/sal/sal_sockets.c:1563-1582 | otherwise it need not be: there is a run in which a call that watches no descriptor, and waits without a timeout, is signalled for one beyond maxfdp1 |
| SalSelectCounters.CountersTell | Living_SDK/device/sal/sal_sockets.c:1521-1543 | over every run: rcvevent is the arrivals minus the removals as a signed 16-bit number, sendevent the same with the room at first as an unsigned one, errevent is 1 exactly after an error |
| SalSelectList.WaiterList.Link | Living_SDK/device/sal/sal_sockets.c:968-973 | inserting at the head keeps the list doubly linked and prepends the waiter |
| SalSelectList.WaiterList.Unlink | Living_SDK/device/sal/sal_sockets.c:1067-1077 | removal keeps the list doubly linked and removes just that waiter, wherever it stands |
| SalPorts.EnsureRange | Living_SDK/device/sal/sal_sockets.c:198 | on every 32-bit value mask, sum and cut to 16 bits give 0xc000 plus the low fourteen bits, a port of the dynamic range |
| SalPorts.AllTried | Living_SDK/device/sal/sal_sockets.c:219-232 | 16384 tries fail exactly when every port of the range is taken |
| SalPorts.Ports.IsUsed | Living_SDK/device/sal/sal_sockets.c:224-232 | the scan finds a port exactly if some bound block has it |
| SalPorts.Ports.NewPort | Living_SDK/device/sal/sal_sockets.c:210-235 | terminates with the first free port after the cursor; 0 if and only if all 16384 are taken |
| SalPorts.Ports.Bind | Living_SDK/device/sal/sal_sockets.c:237-287 | no two bound blocks ever share a port, rebinding included; ERR_USE, ERR_BUF and ERR_VAL exactly when another block has the port, the range is full, the block is null |
| SalPorts.Ports.Remove | Living_SDK/device/sal/sal_sockets.c:289-309 | the block leaves the list and no port changes |
| YloopRuns.InsertKeeps | Living_SDK/kernel/yloop/yloop.c:180-190 | a new timeout goes behind all with the same or an earlier deadline, which keeps the order by deadline and post |
| YloopRuns.EveryRun | Living_SDK/kernel/yloop/yloop.c:165-302 | over every run of posts, cancels and turns: nothing fires early; each post is pending, fired once or cancelled, and only one of these; firing follows deadline, then post order |
| YloopRuns.NoStarvation | Living_SDK/kernel/yloop/yloop.c:275-287 | an overdue timeout with k others before it is fired or cancelled within k + 1 turns, whatever is posted meanwhile |
| YloopRuns.SleepsExactly | Living_SDK/kernel/yloop/yloop.c:252-264 | the poll delay fits an int, and a turn fires exactly from the end of that delay on |
| YloopRuns.PostInOrderExactly | Living_SDK/kernel/yloop/yloop.c:176-190 | without the rule on negative delays, order is kept if and only if the new deadline is not before the last one fired |
| YloopTimers.Loop.AddBefore | Living_SDK/include/aos/list.h:36-62 | linking a node in front of another keeps the ring and inserts into the sequence |
| YloopTimers.Loop.Delete | Living_SDK/include/aos/list.h:64-71 | unlinking keeps the ring and removes from the sequence |
| YloopTimers.Loop.FindLater | Living_SDK/kernel/yloop/yloop.c:183-187 | the search stops at the first timeout due strictly later, or at the sentinel |
| YloopTimers.Loop.Post | Living_SDK/kernel/yloop/yloop.c:165-193 | the pending sequence becomes the stable insertion of the new timeout; on -EINVAL and -ENOMEM nothing changes |
| YloopTimers.Loop.Cancel | Living_SDK/kernel/yloop/yloop.c:195-237 | exactly the first match is removed; -1 stands for every delay, the loose form ignores the argument |
| YloopTimers.Loop.Delay | Living_SDK/kernel/yloop/yloop.c:252-264 | the delay is the time to the first deadline, 0 if it has passed, -1 without timers |
| YloopTimers.Drive | Living_SDK/kernel/yloop/yloop.c:165-302 | after any sequence of posts, cancels and turns on the linked list, the pending timeouts and the callbacks called, in order, are those of the run over the accepted events; only posts are ever refused |
| YloopTimers.Loop.Turn | Living_SDK/kernel/yloop/yloop.c:275-287 | at most the first timeout is taken off, and only when it is due |
| Tickless.StopConserves | Living_SDK/kernel/pwrmgmt/cpu_tickless.c:159-183 | ticks times their length plus the new remainder equal the old remainder plus the time slept |
| Tickless.TickLost | Living_SDK/kernel/pwrmgmt/cpu_tickless.c:163 | at a rate that does not divide a second a sleep of one tick is announced as none and forgotten |
| Tickless.ConservesExactly | Living_SDK/kernel/pwrmgmt/cpu_tickless.c:171-180 | over every sequence of sleeps nothing is lost or gained if and only if the tick rate divides 1000000 |
| Tickless.DriftBelowOneTick | Living_SDK/kernel/pwrmgmt/cpu_tickless.c:171-180 | the ticks announced never lag the time slept by a whole tick and never run ahead |
| Tickless.Cpu.OneShotStop | Living_SDK/kernel/pwrmgmt/cpu_tickless.c:159-183 | computes ticks and remainder, or leaves the remainder alone when the timer cannot be read |
| Tickless.Cpu.Enter | Living_SDK/kernel/pwrmgmt/cpu_tickless.c:291-374 | one wake-up is accounted for if the CPU slept, nothing otherwise |
| Tickless.Cpu.Exit | Living_SDK/kernel/pwrmgmt/cpu_tickless.c:395-419 | one wake-up is accounted for if a sleep was under way, nothing otherwise |
| Streaming.AbsorbShort | Living_SDK/utility/digest_algorithm/sha2.c:423-443 | data that does not complete the pending block only joins it |
| Streaming.AbsorbFill | Living_SDK/utility/digest_algorithm/sha2.c:434-438 | data that exactly completes the pending block causes one compression |
| Streaming.PadOneBlock | Living_SDK/utility/digest_algorithm/sha2.c:474-490 | when 0x80 and the length fit into the pending block the padded message needs one more compression |
| Streaming.PadTwoBlocks | Living_SDK/utility/digest_algorithm/sha2.c:480-490 | otherwise it needs two, the second of zeros and the length |
| Streaming.ZeroCountAligns | Living_SDK/utility/digest_algorithm/sha2.c:470-495 | the padded length is a multiple of the block length |
| Streaming.ZeroCountIsLeast | Living_SDK/utility/digest_algorithm/sha2.c:470-495 | and no fewer zero bytes would do, as FIPS 180-4 section 5.1.1 asks |
| Streaming.HtobeImage | Living_SDK/utility/digest_algorithm/sha2.c:656-657 | os_htobe64 of a 64-bit number, stored by a host of either byte order, stands in memory most significant byte first |
| Primes.FirstPrimes | Living_SDK/utility/digest_algorithm/sha2.c:148-165 | the numbers the constants are made of are the first eighty primes in order: each is a prime with so many smaller ones |
| ShaConstants.CubeRoots256 | Living_SDK/utility/digest_algorithm/sha2.c:148-165 | K256[t] is the first 32 bits of the fractional part of the cube root of the prime with t smaller ones, as FIPS 180-4 section 4.2.2 defines it |
| ShaConstants.SquareRoots256 | Living_SDK/utility/digest_algorithm/sha2.c:168-177 | the initial hash value of SHA-256 comes from the square roots of the first eight (section 5.3.3) |
| ShaConstants.CubeRoots512 | Living_SDK/utility/digest_algorithm/sha2.c:180-221 | K512[t] is the first 64 bits of the fractional part of the cube root of the prime with t smaller ones (section 4.2.3) |
| ShaConstants.SquareRoots384 | Living_SDK/utility/digest_algorithm/sha2.c:224-233 | the initial hash value of SHA-384 comes from the square roots of the ninth to sixteenth prime (section 5.3.4) |
| ShaConstants.SquareRoots512 | Living_SDK/utility/digest_algorithm/sha2.c:236-245 | that of SHA-512 from the first eight (section 5.3.5) |
| Sha256.Macros | Living_SDK/utility/digest_algorithm/sha2.c:110-121 | the shift macros are the rotations of FIPS 180-4 section 4.1.2 |
| Sha256.LoadBigEndian | Living_SDK/utility/digest_algorithm/sha2.c:345-347 | loading and converting gives the big-endian word on hosts of either byte order |
| Sha256.StoreBigEndian | Living_SDK/utility/digest_algorithm/sha2.c:504-508 | converting and storing leaves big-endian bytes on hosts of either byte order |
| Sha256Context.Context.CopyRounds | Living_SDK/utility/digest_algorithm/sha2.c:343-364 | the first sixteen rounds are those of the standard and leave the block in the ring, also when the block is the ring |
| Sha256Context.Context.ExpandWord | Living_SDK/utility/digest_algorithm/sha2.c:366-377 | word j of the full schedule takes the place of word j - 16 and no newer one |
| Sha256Context.Context.RingRounds | Living_SDK/utility/digest_algorithm/sha2.c:366-388 | rounds 16 to 63 with the ring are those with the full schedule |
| Sha256Context.Context.Transform | Living_SDK/utility/digest_algorithm/sha2.c:327-401 | one block is compressed as in FIPS 180-4 section 6.2.2, the context buffer included |
| Sha256Context.Context.Update | Living_SDK/utility/digest_algorithm/sha2.c:404-453 | the bytes absorbed are those absorbed before followed by the new ones, for every position in the block |
| Sha256Context.Context.PadBuffer | Living_SDK/utility/digest_algorithm/sha2.c:462-490 | in both padding cases the buffer holds the last block up to the length field |
| Sha256Context.Context.Last | Living_SDK/utility/digest_algorithm/sha2.c:462-497 | the state becomes the hash of the padded message, and the count in the context is left in big-endian order |
| Sha256Context.Context.Final | Living_SDK/utility/digest_algorithm/sha2.c:455-514 | the digest of everything absorbed, and a wiped context |
| Sha256Context.Streamed | Living_SDK/utility/digest_algorithm/sha2.c:404-514 | however a message is cut into updates, the digest is the FIPS 180-4 hash of the concatenation |
| Sha256Example.Abc | Living_SDK/utility/digest_algorithm/sha2.c:327-401 | the hash that all of the above is proved against gives "abc" its published digest, all 64 rounds computed |
| Sha512.Macros | Living_SDK/utility/digest_algorithm/sha2.c:122-127 | the shift macros are the rotations of FIPS 180-4 section 4.1.3 |
| Sha512.LoadBigEndian | Living_SDK/utility/digest_algorithm/sha2.c:273-282 | reverse_64bit and loading give the big-endian word on hosts of either byte order |
| Sha512Context.CountCarries | Living_SDK/utility/digest_algorithm/sha2.c:95-100 | ADDINC128 adds to the 128-bit count held in two words |
| Sha512Context.CountField | Living_SDK/utility/digest_algorithm/sha2.c:659-690 | both count words, converted and stored high word first, are the 128-bit number of bits |
| Sha512Context.Context.ExpandWord | Living_SDK/utility/digest_algorithm/sha2.c:563-573 | word j of the eighty-word schedule takes the place of word j - 16 |
| Sha512Context.Context.Transform | Living_SDK/utility/digest_algorithm/sha2.c:528-598 | one block is compressed as in FIPS 180-4 section 6.4.2, the context buffer included |
| Sha512Context.Context.Update | Living_SDK/utility/digest_algorithm/sha2.c:600-650 | the bytes absorbed are those absorbed before followed by the new ones |
| Sha512Context.Context.PadBuffer | Living_SDK/utility/digest_algorithm/sha2.c:661-685 | in both padding cases the buffer holds the last block up to the length field, although the long case clears two bytes less than the block |
| Sha512Context.Context.Last | Living_SDK/utility/digest_algorithm/sha2.c:652-694 | the state becomes the hash of the message padded as in FIPS 180-4 section 5.1.2; both counts are left in big-endian order and the buffer as the last sixteen schedule words of the last block |
| Sha512Context.Context.Final | Living_SDK/utility/digest_algorithm/sha2.c:696-722 | the digest of everything absorbed, and a wiped context |
| Sha512Context.Context.Final384 | Living_SDK/utility/digest_algorithm/sha2.c:742-767 | the first six words of the state as digest; of the context only as many bytes of the first state word are cleared as a pointer has: the counts stay in big-endian order, the buffer as the last schedule words, the other state words as they were taken, six of them converted |
| Sha512Context.Streamed | Living_SDK/utility/digest_algorithm/sha2.c:600-722 | however a message is cut into updates, the digest is its SHA-512 hash |
| Sha512Context.Streamed384 | Living_SDK/utility/digest_algorithm/sha2.c:726-767 | the same for SHA-384 |
| Sha512Example.Abc | Living_SDK/utility/digest_algorithm/sha2.c:528-598 | the same for SHA-512 and its 80 rounds |
| Md5Context.SumOrder | Living_SDK/utility/digest_algorithm/md5.c:88-92 | the macros add in another order than RFC 1321 writes, to the same word |
| Md5Context.FourSteps | Living_SDK/utility/digest_algorithm/md5.c:196-199 | four macro calls with rotating arguments are four steps of the standard |
| Md5Context.AllSteps | Living_SDK/utility/digest_algorithm/md5.c:196-265 | the 64 macro calls, with their indices, shifts and constants, are the 64 steps of RFC 1321 section 3.4 |
| Md5Context.Context.Decode | Living_SDK/utility/digest_algorithm/md5.c:293-302 | sixteen words, least significant byte first |
| Md5Context.Context.Transform | Living_SDK/utility/digest_algorithm/md5.c:189-271 | one block is compressed as in RFC 1321 section 3.4 |
| Md5Context.CountCarries | Living_SDK/utility/digest_algorithm/md5.c:136-140 | the two count words with their carry hold the bit count modulo 2^64 |
| Md5Context.Context.Update | Living_SDK/utility/digest_algorithm/md5.c:127-160 | the bytes absorbed are those absorbed before followed by the new ones, for every length with which neither it nor the loop index plus 63 leaves the range of int |
| Md5Context.CountBytes | Living_SDK/utility/digest_algorithm/md5.c:171 | both count words as bytes are the 64-bit number of bits, low byte first |
| Md5Context.Context.Finish | Living_SDK/utility/digest_algorithm/md5.c:170-181 | feeding padding and count back through the update gives the padded message of RFC 1321 sections 3.1 and 3.2 |
| Md5Context.Context.Final | Living_SDK/utility/digest_algorithm/md5.c:165-185 | the digest of everything absorbed |
| Md5Context.Streamed | Living_SDK/utility/digest_algorithm/md5.c:127-185 | however a message is cut into updates, the digest is that of RFC 1321 for the concatenation |
| Md5Sines.TableIsSines | Living_SDK/utility/digest_algorithm/md5.c:196-265 | each constant is the integer part of 4294967296 times abs(sin(i)), i from 1 to 64 in radians, for any functions sine and cosine that are the sums of their power series at 1 and have their addition formulas |
| Md5Example.Abc | Living_SDK/utility/digest_algorithm/md5.c:189-271 | the digest of "abc" is the one RFC 1321 section A.5 gives |
| CjsonKeys.CompareIsEquality | Living_SDK/utility/cjson/cJSON_Utils.c:22-41 | the comparison is 0 exactly for names equal ignoring case |
| CjsonKeys.CompareFlips | Living_SDK/utility/cjson/cJSON_Utils.c:22-41 | exchanging the names changes the sign |
| CjsonKeys.CompareChains | Living_SDK/utility/cjson/cJSON_Utils.c:22-41 | the comparison is transitive, strictly where one part is strict |
| CjsonKeys.Strcasecmp | Living_SDK/utility/cjson/cJSON_Utils.c:22-41 | the loop gives the same difference on any two C strings |
| CjsonKeys.CompareOrders | Living_SDK/utility/cjson/cJSON_Utils.c:22-41 | negative exactly if at the first place where both differ in lower case the first has the smaller byte, or ends there |
| CjsonKeys.LowerCodes | Living_SDK/utility/cjson/cJSON_Utils.c:33 | tolower moves the 26 capital letters of ASCII and no other byte |
| CjsonKeys.SortPermutes | Living_SDK/utility/cjson/cJSON_Utils.c:630-734 | sorting loses, adds and duplicates nothing |
| CjsonKeys.SortOrders | Living_SDK/utility/cjson/cJSON_Utils.c:630-734 | the result is non-decreasing ignoring case |
| CjsonKeys.StaysFirst | Living_SDK/utility/cjson/cJSON_Utils.c:630-734 | the first of several different elements stays first if and only if its name is strictly below all others ignoring case |
| CjsonList.GetArrayItem | Living_SDK/utility/cjson/cJSON.c:1455-1477 | the item at the index, null beyond the end |
| CjsonList.GetObjectItem | Living_SDK/utility/cjson/cJSON.c:1479-1507 | the first item of that name ignoring case, or null |
| CjsonList.AddItemToArray | Living_SDK/utility/cjson/cJSON.c:1545-1563 | appends to the sequence and keeps it well linked |
| CjsonList.InsertItemInArray | Living_SDK/utility/cjson/cJSON.c:1677-1697 | inserts in front of the index, appends beyond the end, ignores a negative index |
| CjsonList.DetachItemViaPointer | Living_SDK/utility/cjson/cJSON.c:1614-1637 | removes from the sequence and isolates the item; says exactly what a stale prev of the head does |
| CjsonList.ReplaceItemViaPointer | Living_SDK/utility/cjson/cJSON.c:1699-1722 | puts the replacement in the place of the item |
| CjsonList.DetachItemFromArray | Living_SDK/utility/cjson/cJSON.c:1639-1645 | removes the item at the index |
| CjsonList.DetachItemFromObject | Living_SDK/utility/cjson/cJSON.c:1652-1657 | removes the first item of that name |
| CjsonSort.MergeLists | Living_SDK/utility/cjson/cJSON_Utils.c:679-733 | relinking two chains merges their sequences and writes no prev of a head |
| CjsonSort.SortList | Living_SDK/utility/cjson/cJSON_Utils.c:630-734 | the next chain becomes the sorted sequence and every prev but that of the head is right again, for any stale prev of the head |
| CjsonSort.SortObject | Living_SDK/utility/cjson/cJSON_Utils.c:736-739 | the children are sorted; they are well linked if and only if the name of the first one given was strictly below all the others ignoring case |
| CjsonSort.DetachFirstAfterSort | Living_SDK/utility/cjson/cJSON_Utils.c:736-739 | every other object is harmed: after sorting it, detaching its first member leaves the new first member on a cycle that its old predecessor closes |
| CjsonString.Utf8Correct | Living_SDK/utility/cjson/cJSON.c:535-575 | the octets of a code point are its shortest UTF-8 form |
| CjsonBits.OctetBits | Living_SDK/utility/cjson/cJSON.c:562-566 | on every 32-bit word, or with 0x80 and the mask 0xBF give 0x80 plus the low six bits, and the shift takes these away |
| CjsonBits.FirstNumber | Living_SDK/utility/cjson/cJSON.c:567-571 | the mark of the first octet is added to what is left, and 0x7F keeps an ASCII code |
| CjsonBits.PairedNumber | Living_SDK/utility/cjson/cJSON.c:531-532 | shift, masks and or give the code point of a surrogate pair |
| CjsonParser.ParseHex4 | Living_SDK/utility/cjson/cJSON.c:457-480 | the shifting loop gives the value of four hexadecimal digits, 0 if one of them is none |
| CjsonString.LiteralFits | Living_SDK/utility/cjson/cJSON.c:484-579 | a \u escape writes no more octets than the first pass counted for it, even with digits that put the passes out of step |
| CjsonString.TakeFits | Living_SDK/utility/cjson/cJSON.c:629-677 | no step of the second pass takes more space than the first pass has left for it |
| CjsonString.WellFormedDecodes | Living_SDK/utility/cjson/cJSON.c:595-677 | a well-formed literal ends at its closing quote, and each escape and surrogate pair becomes the UTF-8 of its code point |
| CjsonString.EscapeDecodes | Living_SDK/utility/cjson/cJSON.c:704-807 | what the printer escapes, the parser reads back |
| CjsonStrtod.StrtodTakesLongest | Living_SDK/utility/cjson/cJSON.c:281 | strtod as modelled takes the longest beginning of any text that is a decimal floating-point number of ISO C99 section 7.20.1.3 |
| CjsonRoundTrip.ParsesBack | Living_SDK/utility/cjson/cJSON.c:1021-1063 | a printed value, formatted or not, at any place and depth, parses back to itself and the parser stops right behind it; nested too deep, wherever in it the deep part is, it is refused |
| CjsonGrammar.SyntaxParses | Living_SDK/utility/cjson/cJSON.c:1021-1349 | the text of any syntax tree, with any blanks and escapes, at any place and depth, parses to the value of the tree and the parser stops right behind it; nested too deep, wherever in it the deep part is, it is refused |
| CjsonRfc8259.RfcTextsAccepted | Living_SDK/utility/cjson/cJSON.c:851-909 | every JSON text as RFC 8259 defines it, with numbers of at most 63 bytes, is accepted as a whole with its value if and only if it is nested at most 1000 deep |
| CjsonRfc8259.RfcNumberWhole | Living_SDK/utility/cjson/cJSON.c:237-300 | every number of RFC 8259 section 6 is taken as a whole by strtod |
| CjsonRfc8259.EscapesAreRfc | Living_SDK/utility/cjson/cJSON.c:634-668 | the escapes of one letter are those of RFC 8259 section 7 with their meanings, and no others |
| CjsonBom.BomSkipped | Living_SDK/utility/cjson/cJSON.c:839-848 | for every text: with a byte order mark in front the same value, its end three bytes further on, or failure just the same; a second mark fails |
| CjsonBom.MarkedTextsAccepted | Living_SDK/utility/cjson/cJSON.c:851-909 | so every RFC 8259 text with or without a mark is accepted as a whole with its value if and only if it is nested at most 1000 deep |
| CjsonLanguage.AcceptedExactly | Living_SDK/utility/cjson/cJSON.c:851-909 | a text is accepted as a whole, with a given value, if and only if it is, perhaps behind a byte order mark and between blanks, the text of a syntax tree with this value nested at most 1000 deep; malformed \u digits, control bytes and the numbers of strtod included |
| CjsonRoundTrip.PrintThenParse | Living_SDK/utility/cjson/cJSON.c:851-915 | parsing a print gives the value back and ends at the end of the text if and only if it is nested at most 1000 deep, and fails otherwise |
| CjsonRfcPrint.PrintsRfcText | Living_SDK/utility/cjson/cJSON.c:1065-1125 | every print, formatted or not, of a value with RFC 8259 numbers is a text of RFC 8259 with that value |
| CjsonLayout.PrintLaid | Living_SDK/utility/cjson/cJSON.c:1208-1432 | a scanner that counts open brackets accepts every formatted print: in an object each member has its own line with exactly as many tabs in front as brackets are open, the closing brace one tab less, a tab behind each colon; arrays stay on one line with a space behind each comma; no other blanks |
| CjsonParser.EncodeUtf8 | Living_SDK/utility/cjson/cJSON.c:540-573 | the loop of shifts and masks writes the UTF-8 octets of the code point, last one first |
| CjsonParser.TakeInto | Living_SDK/utility/cjson/cJSON.c:629-673 | one round of the second pass: octets written, bytes taken, or failure, as the decoding function says |
| CjsonParser.DecodeInto | Living_SDK/utility/cjson/cJSON.c:626-677 | the second pass fills the array sized by the first and never writes outside it, for every input |
| CjsonParser.ParseBuffer.SkipWhitespace | Living_SDK/utility/cjson/cJSON.c:824-836 | the offset moves past blanks and never leaves the buffer |
| CjsonParser.ParseBuffer.SkipUtf8Bom | Living_SDK/utility/cjson/cJSON.c:839-848 | at the start, and if a byte and the NUL come behind it, the mark is passed; anywhere else nothing moves |
| CjsonParser.ParseBuffer.ReadNumber | Living_SDK/utility/cjson/cJSON.c:237-300 | the number strtod takes from at most 63 copied bytes |
| CjsonParser.ParseBuffer.FirstPass | Living_SDK/utility/cjson/cJSON.c:595-621 | finds the closing quote and the size to allocate |
| CjsonParser.ParseBuffer.ReadString | Living_SDK/utility/cjson/cJSON.c:582-701 | decodes the literal; fails only for want of memory or on a malformed literal |
| CjsonParser.ParseBuffer.ReadItems | Living_SDK/utility/cjson/cJSON.c:1160-1190 | the loop over the elements reads what the grammar function reads |
| CjsonParser.ParseBuffer.ReadArray | Living_SDK/utility/cjson/cJSON.c:1128-1205 | arrays, the nesting limit included |
| CjsonParser.ParseBuffer.ReadMembers | Living_SDK/utility/cjson/cJSON.c:1285-1330 | the loop over the members reads what the grammar function reads |
| CjsonParser.ParseBuffer.ReadObject | Living_SDK/utility/cjson/cJSON.c:1256-1349 | objects, the nesting limit included |
| CjsonParser.ParseBuffer.ReadValue | Living_SDK/utility/cjson/cJSON.c:1021-1063 | the value at the offset and the offset behind it; failure only for want of memory or on a text that does not parse |
| CjsonParser.ParseWithOpts | Living_SDK/utility/cjson/cJSON.c:851-909 | value and end of the parse; refused only for want of memory, a text that does not parse, or something behind it that may not be there |
| CjsonPrinter.PrintBuffer.Ensure | Living_SDK/utility/cjson/cJSON.c:326-390 | on success the space is there and the printed text is unchanged; failure only by a refused allocation or beyond the capacity |
| CjsonPrinter.PrintBuffer.UpdateOffset | Living_SDK/utility/cjson/cJSON.c:392-401 | the offset moves to the end of the text just written |
| CjsonPrinter.PrintBuffer.CountEscapes | Living_SDK/utility/cjson/cJSON.c:725-745 | the first loop counts the bytes that escaping adds |
| CjsonPrinter.PrintBuffer.WriteEscaped | Living_SDK/utility/cjson/cJSON.c:762-801 | one byte is written as it is, as a backslash and a letter, or as \u and four digits |
| CjsonPrinter.PrintBuffer.CopyEscaped | Living_SDK/utility/cjson/cJSON.c:762-801 | the copying loop writes the escaped text |
| CjsonPrinter.PrintBuffer.PrintString | Living_SDK/utility/cjson/cJSON.c:704-807 | quoted and escaped text plus NUL, within the space asked for |
| CjsonPrinter.PrintBuffer.PrintArray | Living_SDK/utility/cjson/cJSON.c:1208-1253 | appends the text of the array, whenever and however often the buffer grew |
| CjsonPrinter.PrintBuffer.PrintMember | Living_SDK/utility/cjson/cJSON.c:1376-1417 | one member with indentation, colon, comma and line end |
| CjsonPrinter.PrintBuffer.PrintObject | Living_SDK/utility/cjson/cJSON.c:1352-1432 | appends the text of the object, whenever and however often the buffer grew |
| CjsonPrinter.PrintBuffer.PrintValue | Living_SDK/utility/cjson/cJSON.c:1065-1125 | leaves exactly the text of the value and a NUL behind what was printed before, or fails by a refused allocation or beyond the capacity |
| CjsonPrinter.Print | Living_SDK/utility/cjson/cJSON.c:919-966 | a block of its own with the whole text and a NUL, or null for want of memory or beyond INT_MAX |
| CjsonPrinter.PrintPreallocated | Living_SDK/utility/cjson/cJSON.c:1003-1018 | succeeds if and only if text, NUL and one byte more fit (no byte more for a number) |
| CjsonWhole.PrintAndParse | Living_SDK/utility/cjson/cJSON.c:968-976 | printing into a growing buffer and parsing the result gives the value back |
| CjsonWhole.MinifyAndParse | Living_SDK/utility/cjson/cJSON.c:2034-2077 | minifying an accepted text in place and parsing what is left gives the value of the text |
| CjsonMinify.MinifyText | Living_SDK/utility/cjson/cJSON.c:2034-2077 | minifying a formatted value gives its unformatted text, whatever follows |
| CjsonMinify.MinifyPrinted | Living_SDK/utility/cjson/cJSON.c:2034-2077 | minifying a formatted print gives the unformatted print |
| CjsonMinifyCode.ReadsPastExactly | Living_SDK/utility/cjson/cJSON.c:2034-2077 | the read position passes the terminating NUL exactly if a comment or a string literal is left open, which is when the text has no minified form |
| CjsonMinifyLexis.MinifiedExactly | Living_SDK/utility/cjson/cJSON.c:2034-2077 | a text has a given minified form if and only if it can be cut into blanks, line comments, block comments, literals and other bytes of which the last two make up that form |
| CjsonMinifyCode.CopyLiteral | Living_SDK/utility/cjson/cJSON.c:2060-2069 | a string literal is copied as it is, escapes included; an open one takes the read position past the NUL |
| CjsonMinifyCode.Minify | Living_SDK/utility/cjson/cJSON.c:2034-2077 | on every C string: in place, never writing ahead of the read position, a text becomes its minified form exactly if the read position ends at the NUL |
| CjsonMinifyParse.MinifyKeepsMeaning | Living_SDK/utility/cjson/cJSON.c:2034-2077 | for every text accepted as a whole, comments and literals close, and what minifying leaves is accepted as a whole with the same value |
| CjsonMinifyParse.DecodeSame | Living_SDK/utility/cjson/cJSON.c:626-677 | a literal means the same wherever it is moved to, malformed escapes included |
| CjsonDoc.OrderIrrelevant | Living_SDK/utility/cjson/cJSON_Utils.c:574-615 | reordering members does not change what an object means |
| CjsonPointer.MatchesEscaped | Living_SDK/utility/cjson/cJSON_Utils.c:44-77 | a name matches an escaped token exactly if they are equal ignoring case, with tilde and slash in either |
| CjsonPointer.DigitsRead | Living_SDK/utility/cjson/cJSON_Utils.c:171-176 | an index printed by %d is read back |
| CjsonPointer.FindsIt | Living_SDK/utility/cjson/cJSON_Utils.c:116-162 | the search finds the node and spells the tokens on the way |
| CjsonPointer.PointerInverse | Living_SDK/utility/cjson/cJSON_Utils.c:116-205 | the pointer found leads back to the node if and only if no earlier sibling on the way has the same name ignoring case |
| CjsonPointer.EveryNodeFound | Living_SDK/utility/cjson/cJSON_Utils.c:116-205 | with sibling names that differ ignoring case, every node is found again |
| CjsonPointerCode.NameMatches | Living_SDK/utility/cjson/cJSON_Utils.c:44-77 | the comparing loop decides whether name and token match |
| CjsonPointerCode.EncodedLength | Living_SDK/utility/cjson/cJSON_Utils.c:79-91 | the length of the escaped name |
| CjsonPointerCode.EncodeInto | Living_SDK/utility/cjson/cJSON_Utils.c:93-114 | writes the escaped name and a NUL, and nothing in front of it |
| CjsonPointerCode.DecodePastExactly | Living_SDK/utility/cjson/cJSON_Utils.c:208-221 | the read position passes the NUL exactly if a tilde is left alone at the end |
| CjsonPointerCode.DecodeInPlace | Living_SDK/utility/cjson/cJSON_Utils.c:208-221 | on every C string: decoded in place exactly if the read position ends at the NUL |
| CjsonPointerText.PointerTexts | Living_SDK/utility/cjson/cJSON_Utils.c:164-205 | a text is a JSON Pointer of RFC 6901 section 3 with these tokens if and only if it is the text of those tokens |
| CjsonPointerText.BadPointerFindsNothing | Living_SDK/utility/cjson/cJSON_Utils.c:164-205 | a text that starts with a slash and is no pointer leads nowhere in any document |
| CjsonPointerCode.FollowPointer | Living_SDK/utility/cjson/cJSON_Utils.c:164-205 | the walking loop reaches the node the recursive definition names |
| CjsonPatch.DecodedEscaped | Living_SDK/utility/cjson/cJSON_Utils.c:208-221 | decoding undoes escaping |
| CjsonPatch.SplitPointer | Living_SDK/utility/cjson/cJSON_Utils.c:229-238 | cutting a path at its last slash gives the path of the parent and the last token |
| CjsonPatch.GetReaches | Living_SDK/utility/cjson/cJSON_Utils.c:164-205 | for every pointer and document: the program finds a node exactly if evaluating the tokens with any digits as index does, and then the same node |
| CjsonPatch.NodeFound | Living_SDK/utility/cjson/cJSON_Utils.c:164-205 | the same for any text at all: without a slash at its start it leads to the root |
| CjsonPatch.PutMeans | Living_SDK/utility/cjson/cJSON_Utils.c:443-466 | changing a node changes the meaning there and nowhere else |
| CjsonPatch.DetachTakes | Living_SDK/utility/cjson/cJSON_Utils.c:223-258 | for every text with a slash, pointer or not: what is taken out, if anything, and that the rest of the document stays |
| CjsonPatch.AddPuts | Living_SDK/utility/cjson/cJSON_Utils.c:434-473 | for every text with a slash, pointer or not: error 9 without a parent, else the value is put where atoi and the append rule say and the rest stays |
| CjsonPatch.AtoiReads | Living_SDK/utility/cjson/cJSON_Utils.c:455 | atoi skips blanks, takes a sign and digits, and ignores the rest; no digits give 0 |
| CjsonPatchRfc.AddExactly | Living_SDK/utility/cjson/cJSON_Utils.c:434-473 | adding agrees with RFC 6902 section 4.1, errors included, if and only if the path is a pointer, not the root's, whose parent is found by the RFC's rules and has the place (a member, "-", or an index up to its length), or can be cut at a slash and has no parent |
| CjsonPatchRfc.RemoveExactly | Living_SDK/utility/cjson/cJSON_Utils.c:371-381 | removing agrees with RFC 6902 section 4.2 if and only if the target exists and is not the root |
| CjsonPatchRfc.ReplaceExactly | Living_SDK/utility/cjson/cJSON_Utils.c:371-473 | replacing agrees with RFC 6902 section 4.3 if and only if the target is not the root and exists, or the path can be cut at a slash and has no parent |
| CjsonPatchRfc.MoveExactly | Living_SDK/utility/cjson/cJSON_Utils.c:384-411 | moving agrees with RFC 6902 section 4.4 if and only if "from" can be cut at a slash, and: nothing is taken; or it exists by the RFC's rules, does not contain the path, and the rest has the place for it; or else the path has no parent in the rest, so both fail |
| CjsonPatchRfc.CopyExactly | Living_SDK/utility/cjson/cJSON_Utils.c:384-411 | copying agrees with RFC 6902 section 4.5 if and only if "from" is not found; or it exists by the RFC's rules and the document has the place for it; or else the path has no parent, so both fail |
| CjsonPatchRfc.TestExactly | Living_SDK/utility/cjson/cJSON_Utils.c:356-360 | testing agrees with RFC 6902 section 4.6 if and only if the program finds the target and a match ignoring letter case is one by the RFC too |
| CjsonPatchRfc.TestNamedExactly | Living_SDK/utility/cjson/cJSON_Utils.c:356-360 | with one spelling for each name: if and only if the program finds a target, and either the RFC finds it too or it differs from the value |
| CjsonPatchRfc.StepExactly | Living_SDK/utility/cjson/cJSON_Utils.c:318-474 | for every document and every one of the six operations, with any texts as pointers, ApplyPatch does what RFC 6902 section 4 says if and only if that condition holds; a text that is no pointer is an error by the RFC |
| CjsonLinks.CalmKeepsLinks | Living_SDK/utility/cjson/cJSON_Utils.c:288-309 | comparing leaves every object well linked, and its first member first, if in each object the first name is strictly below the others |
| CjsonLinks.LinksKeptExactly | Living_SDK/utility/cjson/cJSON_Utils.c:288-309 | in a value found equal this is the case only then |
| CjsonLinks.EqualSorts | Living_SDK/utility/cjson/cJSON_Utils.c:288-309 | a value found equal is sorted throughout |
| CjsonPatchRfc.TestedKept | Living_SDK/utility/cjson/cJSON_Utils.c:356-360 | a test that passes leaves its target well linked if and only if the first name of each object in it is strictly below the others |
| CjsonPatchRfc.RunAgrees | Living_SDK/utility/cjson/cJSON_Utils.c:476-498 | a patch document whose operations, tests anywhere among them, meet their conditions one after the other is applied as RFC 6902 section 5 says; no passing test in front of another operation leaves a list with a stale `prev` if and only if each of them has such a target |
| CjsonPatchErrors.NoOperationFails | Living_SDK/utility/cjson/cJSON_Utils.c:318-431 | every patch that is none of the six operations with its fields: result 2, 3, 4, 5 or 7 exactly for a missing "op" or "path", another "op", a missing "from", nothing to take for a "path" that is no string, a missing "value"; the document stays, but a "replace" without a value has taken the old part out; whatever else is wrong takes the program to a string that is not there |
| CjsonPatchErrors.RunStops | Living_SDK/utility/cjson/cJSON_Utils.c:476-498 | a run ends with the result and document of the first patch that fails, whatever follows |
| CjsonPatchErrors.NoOperationStopsRun | Living_SDK/utility/cjson/cJSON_Utils.c:476-498 | so no run gets past a patch that is no operation |
| CjsonPatchErrors.OperationDoes | Living_SDK/utility/cjson/cJSON_Utils.c:318-474 | what each of the six operations does for every document and any texts as pointers, whether RFC 6902 agrees or not: 9 without a parent, 5 with nothing to move or copy, 0 otherwise; a test passes exactly if the parts are equal ignoring letter case of names, and else its result names a difference |
| CjsonPatchErrors.TestSorts | Living_SDK/utility/cjson/cJSON_Utils.c:356-360 | a test that passes leaves every object in its target sorted and nothing else touched |
| CjsonPatchRfc.AddedIsThere | Living_SDK/utility/cjson/cJSON_Utils.c:434-473 | what the operation add of RFC 6902 has added is found by its pointer |
| CjsonPatchRfc.RemoveUndoesAdd | Living_SDK/utility/cjson/cJSON_Utils.c:371-473 | removing undoes adding what was not there, in arrays and objects |
| CjsonPatchRun.RemoveOne | Living_SDK/utility/cjson/cJSON_Utils.c:371-381 | a remove patch as generated takes the part away |
| CjsonPatchRun.AddOne | Living_SDK/utility/cjson/cJSON_Utils.c:415-473 | an add patch as generated puts the value there |
| CjsonPatchRun.ReplaceOne | Living_SDK/utility/cjson/cJSON_Utils.c:371-473 | a replace patch as generated changes just that part |
| CjsonPatchRun.RemoveMisses | Living_SDK/utility/cjson/cJSON_Utils.c:561-566 | the unadjusted remove indices miss every other leftover element |
| CjsonPatchRun.TargetIsPatched | Living_SDK/utility/cjson/cJSON_Utils.c:574-615 | the walk over both sorted member lists removes, keeps and adds the right names |
| CjsonPatchRun.ApplyGen | Living_SDK/utility/cjson/cJSON_Utils.c:527-619 | the patches from one part of a document change just that part, to exactly what Patched says |
| CjsonDiff.PatchedExactly | Living_SDK/utility/cjson/cJSON_Utils.c:549-573 | what the patches reach is the second document if and only if no array of the first is more than one element longer than its counterpart and names equal ignoring case are spelled alike |
| CjsonPatchRun.PatchRoundTrip | Living_SDK/utility/cjson/cJSON_Utils.c:476-627 | generated patches apply with result 0 and reach the second document up to member order, if and only if that condition holds |
| CjsonPatchRun.RootReplaced | Living_SDK/utility/cjson/cJSON_Utils.c:229-238 | documents whose root would have to be replaced take the program to a null pointer |
| CjsonDiffReason.NothingGenerated | Living_SDK/utility/cjson/cJSON_Utils.c:527-627 | no patch is generated if and only if the documents are equal up to member order and letter case of names |
| CjsonDiffReason.OnlyForDifferences | Living_SDK/utility/cjson/cJSON_Utils.c:527-619 | every generated patch is there for a difference: "replace" where both documents have unequal parts that are not both arrays or both objects, "remove" where only the first has one, "add" for a member only the second has or an element behind the array of the first; no place has two but for appending, and in each array and object they come in order |
| CjsonDiffReason.NoneForEqualParts | Living_SDK/utility/cjson/cJSON_Utils.c:533-573 | where both documents have a part, a patch for that place is a "replace", and the parts are unequal ignoring letter case of names |
| CjsonMerge.MergeIsRfc | Living_SDK/utility/cjson/cJSON_Utils.c:741-772 | merging computes the function of RFC 7396 section 2 |
| CjsonCompare.CompareMeans | Living_SDK/utility/cjson/cJSON_Utils.c:260-316 | comparing gives 0 exactly for documents equal up to member order and letter case of names |
| CjsonCompareCodes.CompareTells | Living_SDK/utility/cjson/cJSON_Utils.c:260-316 | a result that is not 0 names a difference: at some place of both documents -1 other kinds, -2 other numbers, -3 other strings, -4 other array lengths, -5 other member counts, -6 other names |
| CjsonCompare.ComparedKeeps | Living_SDK/utility/cjson/cJSON_Utils.c:288-309 | the sorting that comparing does leaves the document the same up to member order |
| CjsonMerge.CompareNamed | Living_SDK/utility/cjson/cJSON_Utils.c:260-316 | with one spelling for each name, comparing gives 0 exactly for documents equal up to member order |
| CjsonMergeDiff.StrcmpIsCompare | Living_SDK/utility/cjson/cJSON_Utils.c:794 | on names without upper-case letters strcmp agrees with the order of the sort |
| CjsonMergeDiff.LowerCaseAgrees | Living_SDK/utility/cjson/cJSON_Utils.c:794 | sets of such names meet the condition for generated merge patches |
| CjsonMergeDiff.GenerateMeans | Living_SDK/utility/cjson/cJSON_Utils.c:774-828 | with names on which strcmp and strcasecmp agree, the generated merge patch is the difference of both documents, and none only for equal ones |
| CjsonMergeDiff.MergeIntoNothing | Living_SDK/utility/cjson/cJSON_Utils.c:741-772 | merging into nothing drops exactly the null members |
| CjsonMergeDiff.MergeExactly | Living_SDK/utility/cjson/cJSON_Utils.c:774-828 | merging the difference gives the second document if and only if every null member it has outside arrays is in the first already |
| CjsonMergeDiff.MergeRoundTrip | Living_SDK/utility/cjson/cJSON_Utils.c:741-828 | with such names, merging the generated patch into the first document gives the second up to member order, if and only if no null member is lost |
| CjsonMergeDiff.MergeRoundTripExactly | Living_SDK/utility/cjson/cJSON_Utils.c:774-828 | for every set of names: all documents with names from it survive generating and merging if and only if strcmp and strcasecmp agree in sign on every two names of the set |
| CjsonMergeDiff.MisorderedLosesMember | Living_SDK/utility/cjson/cJSON_Utils.c:790-822 | for any two names the comparisons order differently there are documents whose generated patch, merged, removes a member both have |
| CjsonMergeDiff.RespelledLosesMember | Living_SDK/utility/cjson/cJSON_Utils.c:790-822 | the same for any two spellings of one name |
| CjsonMergeDiff.NoNullsLossless | Living_SDK/utility/cjson/cJSON_Utils.c:774-828 | without null members the condition always holds |

## Left out

- SalSelectResult.EveryAnswer: speaks of the number returned; the sets handed back, those of the scan it comes from, and the length of a finite timeout are not modelled.
- CjsonPatchErrors.RunStops: ApplyPatches takes the elements of the patch array; result 1, for a patch document that is no array, is not modelled.
- Md5Sines.TableIsSines: real functions are not constructed; sine and cosine are characterised by their series at 1 and their addition formulas, which is all that is used of them.
- CjsonBom.BomSkipped: the error position kept for a failed parse is not modelled.
- CjsonMinifyCode.Minify: stops where the read position has passed the NUL (an open comment or literal), because what the program reads and writes there depends on the memory behind the text.
- CjsonPointerCode.DecodeInPlace: stops in the same way at a lone tilde at the end; ApplyPatch treats these paths as a crash.
- CjsonPatchRfc.RunAgrees: speaks of documents as values; when a test of another target leaves a stale `prev` and a later operation follows it, the lists are no longer those of the values, as CjsonSort.DetachFirstAfterSort shows.
- CjsonRfc8259.RfcTextsAccepted: takes escapes of surrogates to come in pairs (section 8.2 of RFC 8259 leaves others open, the program refuses them), and reads strings as C strings, which end at an escaped NUL.
- CjsonPrinter.PrintBuffer.Grow: the byte the manual copy reads behind an empty preallocated buffer is not modelled.
- Numbers in JSON are kept as the text that sprintf writes and strtod takes as a whole; floating point and the locale's decimal point are not modelled.
- Raw items, references, constant keys, NULL strings and custom allocation hooks of cJSON; cJSON_PrintBuffered, which is cJSON_Print without the last copy.
- Parser and patches work on values, not on linked nodes: aliasing between nodes and the order in which nodes are freed are not captured there. The link operations themselves are modelled in CjsonList and CjsonSort.
- RFC 6902 and RFC 7396 tell names apart by case; documents here, like the program's lookups, do not. Sibling names are taken to differ ignoring case.
- Duplicating a value is the value itself; running out of memory is modelled in the parser, the printer and the timers, not in the patch functions.
- Array indices read from pointers are natural numbers; overflow of the C int is not modelled.
- Sockets are not closed or reused during a run, event file descriptors and the asynchronous send mode are not modelled; selects use one semaphore each.
- The mailbox data path, DNS, socket options and the AT drivers behind the sockets.
- Reading sockets in the event loop, its descriptors and its termination flag; deadlines are unbounded integers.
- How long the CPU may sleep and in which state (tickless_enter_check); the product of microseconds and tick rate is not cut to 64 bits.
- hashtable.c, crc, base64 and address conversion: easy next to the rest, or without a clean contract.
