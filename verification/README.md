# Verified models of LSPF

Dafny models of the parts of LSPF (a C++ service framework) that are hardest to get right,
with proofs about them. `dafny verify dfyconfig.toml` checks the whole project.

| files | models | main results |
|---|---|---|
| `Chains`, `Accounting`, `Telling`, `EvBuffer*` | the chained byte buffer of libevent, `sample/tcp/libevent/buffer.c` | `EvBufferRun.Run`: any run over any buffers is a run on plain byte sequences and accounts; `StreamKept`: bytes come out as they went in; `MeaningExact`, `Telling.InvokeTells`: who is told what, and when it is the truth; `EvBufferLines.LineIs`, `CrlfRoundTrip`, `AnyRoundTrip`: what a line is, and when lines are read back |
| `RedisLock` | the expiring Redis lock, `source/redis_client/redislock.cpp` | `ExactWindow`: the exact time for which the lock excludes |
| `Crc16`, `HashSlot`, `SlotTable`, `Pipeline` | cluster routing and pipelining, `source/redis_client/redisclient.cpp` | `OnlyRemainder`, `SlotIsRest`, `LookupThroughSort`, `LoadAndFind`, `FlushCommand` |
| `BlockingQueue`, `QueueCalls`, `ThreadPool` | `source/common/blocking_queue.h`, `source/common/thread_pool.cpp` | `NoLostWakeup`, `CallsAccounted`, `FirstInFirstOut`; `TerminateDrains`, `AllExecuted`, `WorkersFinish`, `WorkersQuit` |
| `SessionCache`, `SyncComm` | `source/transport/session_cache.h`, `source/transport/sync_comm.cpp` | `Play`, `EarlyExit`; `ReturnReaches`, `FulfilledOnce`, `OwnAnswer`, `OrphansExactly` |
| `Base64`, `Arc4` | `source/common/base64.cpp`, `sample/tcp/libevent/arc4random.c` | `DecodeEncode`, `CanonicalExactly`; `AddedSchedules`, `StepInvertible`, `Unbiased` |

## How the models are built

**The byte buffer.** `Buffer` and `Chain` are objects whose fields are the source's, updated in
place; lists are spliced through `next`, `last_with_datap` is a field that names the chain whose
`next` it points at (or none, for `&buf->first`). The source allocates a chain and its memory in
one piece, so the memory is a field of the chain, a sequence of fixed length that is overwritten
in place. Ghost fields hold the list of chains, the bytes in each, and for every chain the buffer
it is in and its place there; `Valid()` ties them to the real fields: `total_len` is the sum of
`off`, `misalign + off` never exceeds `buffer_len`, `last` is the tail, `last_with_datap` leads to
the last chain with data, and an empty chain can only be the sole chain. Each operation is proved
to keep `Valid()` and to have its exact effect on the bytes and on the counters for callbacks.
Where a branch of the source cannot be taken, the model asserts that its condition is false.

`Accounting` is what an operation does to the counters, as a value. `base` is the length at the
last counter reset, and `missed` the bytes that arrived uncounted since. `evbuffer_prepend` adds
`chain->misalign`, by then zero, where the length of the data in the new chain is meant (line
1683); the model does the same, so callers can be told a wrong original size or nothing at all.
`PrependExact` says exactly when not, `EvBufferRun.MeaningExact` and `RunExact` carry it to every
operation and every run, and `EvBufferRun.UntoldByte` does it to a real buffer. The meaning of a
prepend takes one number from the buffer, its spill: how many of its bytes did not fit in front of
the first chain. A run therefore also carries the front of every buffer from step to step, as a
`Head`: whether there is a chain, the room before its data, how much data it has, and whether more
chains follow. The spill of a step is a function of the fronts before it.

**Protocols.** `RedisLock`, `BlockingQueue`, `ThreadPool` and `SyncComm` are step relations over
any number of clients or threads: `Enabled` and `Apply` give one step, `Runs` and `After` any
finite run. Properties are proved of the state after every run. The lock's four parameters are
the expiry, the greatest delay between reading a stamp and the effect of the write that stores it,
the greatest age of a stamp at the effect of a DEL, and whether a DEL that took effect can lose its
reply. The connection sends a command whose request failed once more (lines 848-858 of
`redisclient.cpp`), so such a DEL takes effect twice; SETNX and GETSET are sent again likewise. With
no delay, no time between check and DEL and no reply of a DEL lost, the check of line 51 of
`redislock.cpp` alone keeps that age below the expiry, and the lock excludes for the whole expiry; a
lost reply breaks it whatever the times. Beside what is safe, each protocol has laws of what its
steps bring about: what a command does to the key, how a call to the queue ends, where a value
returned arrives, when a worker leaves.

**Clocks, randomness, servers.** Times are parameters; draws are a sequence; Redis servers are
state machines given by a function. Whether a server can be reached, and after how many commands
and how many replies a connection to it breaks, are parameters. The order in which `FlushCommand` visits servers (by address in the source) is arbitrary in the model.

**Code and documentation.** The comment of `Terminate` promises that all pending tasks are
executed; a task added after the last worker has left its loop is dropped. `AllExecuted` and
`LateTaskLost` follow the code.

## Model

| member | source | states |
|---|---|---|
| `EvBufferRun.Run` | sample/tcp/libevent/buffer.c:858-1283 | For every run of the operations below over any number of distinct buffers, the contents, freeze flags and accounts of all buffers (totals, counters, callbacks, every notice sent) and every result equal those of the same run on plain byte sequences and accounts, in which a prepend misses exactly what does not fit in front of the first chain as that step finds it; the fronts of all buffers, from those given to those left, follow each other as the operations have it; every buffer stays valid throughout; if every prepend fitted, every notice ever sent told the true length at the counter reset before it |
| `EvBufferRun.Step` | sample/tcp/libevent/buffer.c:858-1283 | One operation on any buffers does to all of them what it does to plain byte sequences, accounts and fronts, given the room it finds in front, and leaves every buffer it does not name untouched and valid |
| `EvBufferRun.Play` | sample/tcp/libevent/buffer.c:1533-1691 | One operation on one buffer refines its meaning on a byte sequence and an account, given its spill, and changes the front of the buffer as stated for that operation |
| `EvBufferRun.PlayMove` | sample/tcp/libevent/buffer.c:858-948 | A move between two buffers refines its meaning on two byte sequences and two accounts; a move of everything leaves one buffer without a chain and gives the other the front that then leads |
| `EvBufferRun.FollowAt` | sample/tcp/libevent/buffer.c:858-1691 | In every run the fronts before and after each step are related as its operation has it: drained bytes become room, prepended bytes use it up, appending leaves it alone behind further chains |
| `EvBufferRun.DrainedFits` | sample/tcp/libevent/buffer.c:1641-1655 | In every run, a prepend of no more bytes than the drain before it took off the first chain spills nothing, so it is counted exactly |
| `EvBufferRun.Tune` | sample/tcp/libevent/buffer.c:2901-2990 | Freezing, changing callbacks, deferring them and running the deferred ones changes no byte, keeps validity, and does to the account what it does to the account as a value |
| `EvBufferRun.FreezeStops` | sample/tcp/libevent/buffer.c:2969-2990 | Freezing an end stops exactly the operations that use that end, which fail and change nothing; unfreezing lets them succeed; neither changes a byte |
| `EvBufferRun.DeferTells` | sample/tcp/libevent/buffer.c:388-398 | Once callbacks are deferred, an append tells the enabled ones that do not defer and the event loop's run the others, each once, of exactly the bytes appended; then nothing is owed |
| `EvBufferRun.StreamKept` | sample/tcp/libevent/buffer.c:1019-1078 | In every run over any buffers, a buffer that is appended to and removed from hands out exactly what was in it and was appended, in order, without loss or doubling |
| `EvBufferRun.MoveKeeps` | sample/tcp/libevent/buffer.c:858-1171 | A move takes bytes off the start of one buffer and puts them in order at the end, or the start, of the other: all, or as many as asked for, and none exactly if an end that it uses is frozen |
| `EvBufferRun.MeaningExact` | sample/tcp/libevent/buffer.c:858-1691 | Exact accounts stay exact in a step if and only if the step is not a prepend whose spill does harm: one after which missed bytes are pending, or somebody has been told a length that includes them |
| `EvBufferRun.RunExact` | sample/tcp/libevent/buffer.c:858-1691 | In every run without such a step every notice told the true length at the reset before it |
| `EvBufferRun.UntoldByte` | sample/tcp/libevent/buffer.c:1669-1685 | On a new buffer with one callback, adding a byte, prepending one and adding a third makes the callback learn of lengths 0 and then 2, where it was told of one byte only: the prepended byte was never told |
| `Chains.AllocSize` | sample/tcp/libevent/buffer.c:154-165 | The allocation is the least doubling of the minimum that holds header and data |
| `Chains.Chain.constructor` | sample/tcp/libevent/buffer.c:154-181 | A new chain is empty and its memory holds at least the size asked for |
| `Chains.Chain.Align` | sample/tcp/libevent/buffer.c:1694-1701 | Realigning moves the data to the start of the memory and changes no byte of it |
| `EvBuffer.Buffer.constructor` | sample/tcp/libevent/buffer.c:339-353 | A new buffer is valid and empty, its counters are zero and nothing was told |
| `EvBuffer.Buffer.LastWithDataIsLast` | sample/tcp/libevent/buffer.c:264-275 | `last_with_datap` designates the last chain; that chain holds data unless it is the only chain of an empty buffer; an empty chain can only be the sole chain |
| `EvBuffer.Buffer.FirstVictim` | sample/tcp/libevent/buffer.c:264-275 | The trailing empty chains that are freed are none, or the single empty chain of an empty buffer |
| `EvBuffer.Buffer.ChainInsert` | sample/tcp/libevent/buffer.c:280-311 | Any chain goes behind the chains, an empty sole chain is replaced, and the contents grow at the end by the chain's data; an empty chain behind data is left spare, with `last_with_datap` where it was; the assertion that all victims are empty holds |
| `EvBuffer.Buffer.RunCallbacks` | sample/tcp/libevent/buffer.c:432-487 | The notices sent and the counters afterwards are those of the account's own function, of which `RunTells` says who is told what, through the deferred and the plain case |
| `EvBuffer.Buffer.InvokeCallbacks` | sample/tcp/libevent/buffer.c:490-509 | Counters are reset without callbacks, deferred callbacks are scheduled once, and the others are told |
| `EvBuffer.Buffer.Settle` | sample/tcp/libevent/buffer.c:490-509 | Ending an operation with the callbacks keeps the buffer valid and its books balanced |
| `EvBuffer.Buffer.RunDeferred` | sample/tcp/libevent/buffer.c:511-525 | The scheduled callbacks are told what accumulated since the last reset, which then happens |
| `EvBuffer.Buffer.OnTheWay` | sample/tcp/libevent/buffer.c:1117-1130 | A chain that fits into the bytes to go, when not all bytes go, is never the last chain with data: the assertion in the loop holds |
| `EvBuffer.Buffer.DropChains` | sample/tcp/libevent/buffer.c:976-1007 | The chains used up are forgotten, what is left is exactly the rest of the contents, and the pointers stay exact |
| `EvBufferOps.Add` | sample/tcp/libevent/buffer.c:1533-1617 | Appends exactly the data unless the end is frozen, through filling, realigning, growing and adding chains; counts exactly the bytes added and tells the callbacks; the front stays behind further chains, and else keeps its room or loses it to realigning |
| `EvBufferOps.Prepend` | sample/tcp/libevent/buffer.c:1619-1691 | Puts exactly the data in front unless the start is frozen; counts all bytes but those that spill into a new chain, which are missed; the room in front shrinks by the data that fits |
| `EvBufferOps.Drain` | sample/tcp/libevent/buffer.c:950-1017 | Drops exactly the first bytes, all if there are fewer, unless frozen and not empty; counts and tells them; bytes taken off the first chain become room in front, and no chain is left when all go |
| `EvBufferOps.CopyOut` | sample/tcp/libevent/buffer.c:1034-1078 | Returns exactly the prefix asked for, gathered over the chains, and -1 exactly if frozen with something to copy |
| `EvBufferOps.Remove` | sample/tcp/libevent/buffer.c:1020-1032 | Returns exactly the prefix and drops it |
| `EvBufferPullup.PullUp` | sample/tcp/libevent/buffer.c:1173-1283 | Changes no byte and no counter; the first chain then holds the first bytes asked for in one piece; null exactly for no bytes or more than there are |
| `EvBufferMove.CopyChain` | sample/tcp/libevent/buffer.c:812-824 | An empty buffer takes over the whole list of the other, with exact pointers |
| `EvBufferMove.AppendChain` | sample/tcp/libevent/buffer.c:826-838 | The list of the other buffer goes behind, with exact pointers and contents |
| `EvBufferMove.PrependChain` | sample/tcp/libevent/buffer.c:840-856 | The list of the other buffer goes in front, with exact pointers and contents |
| `EvBufferMove.AddBuffer` | sample/tcp/libevent/buffer.c:858-902 | All bytes move behind those of the target, in order, unless frozen; both buffers count and tell them |
| `EvBufferMove.PrependBuffer` | sample/tcp/libevent/buffer.c:904-948 | All bytes move in front of those of the target, in order, unless frozen; both buffers count and tell them |
| `EvBufferMove.Walk` | sample/tcp/libevent/buffer.c:1117-1130 | The chains moved whole are exactly those that fit, and the asserted "not the last chain with data" holds for each |
| `EvBufferMove.AdvanceLastWithData` | sample/tcp/libevent/buffer.c:645-659 | `last_with_datap` again designates the last chain with data |
| `EvBufferMove.RemoveBuffer` | sample/tcp/libevent/buffer.c:1083-1171 | Exactly min(n, length) bytes move from the front of one buffer to the end of the other; result, counters and notices on both sides, and the frozen and trivial cases |
| `EvBufferSearch.PtrMemcmp` | sample/tcp/libevent/buffer.c:2456-2488 | -1 if the pattern is too long, else the comparison of the bytes at the place with the pattern as memcmp gives it over all chains at once; zero exactly if the pattern occurs there |
| `EvBufferSearch.MemCmpSign` | sample/tcp/libevent/buffer.c:2476-2480 | The comparison is below or above zero as the first byte that differs is smaller or greater |
| `EvBufferSearch.SearchRange` | sample/tcp/libevent/buffer.c:2496-2559 | The least place from the start on at which the pattern occurs in the contents, or -1 exactly if no occurrence ends by the limit; matches may straddle chains |
| `EvBufferLines.PtrSet` | sample/tcp/libevent/buffer.c:2410-2450 | Sets the pointer to the place, counted from the start or from itself, exactly if it lies within the contents |
| `EvBufferLines.FindEolChar` | sample/tcp/libevent/buffer.c:1317-1342 | The scan in pieces of 128 bytes finds the first CR or LF, as a simple scan would |
| `EvBufferLines.FindEnd` | sample/tcp/libevent/buffer.c:1344-1364 | The first line-end byte from a place on, over all chains |
| `EvBufferLines.StrSpn` | sample/tcp/libevent/buffer.c:1366-1403 | The length of the maximal run of CR and LF, over all chains |
| `EvBufferLines.SearchEol` | sample/tcp/libevent/buffer.c:1415-1488 | For each style the first line end from the start on and its length, or -1 exactly if there is none; the bytes before it, of it and behind it are a line, its end and what follows as the style defines them, byte by byte |
| `EvBufferLines.ReadLn` | sample/tcp/libevent/buffer.c:1490-1527 | Splits the old contents into line, terminator and rest as the style defines them, byte by byte: a run of CR and LF, LF or CR LF, CR LF, LF; nothing happens exactly if frozen or nothing ends a line; the account afterwards is that of removing the line and then draining the terminator, callbacks told each time |
| `EvBufferLines.LineIs` | sample/tcp/libevent/buffer.c:1415-1488 | Place and length of the first line end split the bytes into line, end and rest as the style has it, and no other place and length do |
| `EvBufferLines.NoneIsNoLine` | sample/tcp/libevent/buffer.c:1415-1488 | No line end is found exactly if the bytes hold none of the style |
| `EvBufferLines.ReadAll` | sample/tcp/libevent/buffer.c:1490-1527 | Reading until no line is left gives the lines of the contents and leaves the rest |
| `EvBufferLines.LinesRoundTrip` | sample/tcp/libevent/buffer.c:1415-1488 | Lines written with the terminator of a style other than ANY are read back as written |
| `EvBufferLines.CrlfRoundTrip` | sample/tcp/libevent/buffer.c:1450-1466 | With style CRLF, lines that each end in LF or in CR LF, chosen line by line, are read back as they were written if and only if no line before a bare LF ends in CR |
| `EvBufferLines.AnyRoundTrip` | sample/tcp/libevent/buffer.c:1437-1442 | With style ANY lines written with LF are read back as written if and only if no line but the first is empty |
| `EvBufferLines.AnyWitness` | sample/tcp/libevent/buffer.c:1437-1442 | Three lines with an empty one between are not read back with style ANY |
| `Accounting.AddedKeeps` | sample/tcp/libevent/buffer.c:893-894 | Adding, removing and missing bytes keeps: total + deleted = base + added + missed |
| `Accounting.RunCallbacksKeeps` | sample/tcp/libevent/buffer.c:432-487 | Telling the callbacks keeps the balance, and every notice told the length at the reset plus what was missed, the bytes added and removed since, and with them the length at that moment |
| `Telling.RunTells` | sample/tcp/libevent/buffer.c:432-487 | Exactly the callbacks that are due get one notice each, in list order and in the form each takes, and none if nothing was counted: undeferred all enabled ones, deferred the enabled ones that do not defer, in the deferred run the other enabled ones; a notice tells the bytes added and removed since the last reset and lengths that fit them; the counters start anew exactly unless a deferred run is still to see them |
| `Accounting.InvokeKeeps` | sample/tcp/libevent/buffer.c:490-509 | Invoking the callbacks keeps the balance and the truth of all notices, deferred or not |
| `Telling.InvokeTells` | sample/tcp/libevent/buffer.c:490-509 | After an operation every enabled callback is told at once, or with deferred callbacks those that do not defer, once until the deferred run; that run is scheduled, or already was |
| `Telling.DeferredOnce` | sample/tcp/libevent/buffer.c:490-525 | An invocation and the deferred run after it tell each enabled callback exactly once, those that do not defer first, all of the same change |
| `Telling.Tally` | sample/tcp/libevent/buffer.c:893-894 | Over any changes since a reset the counters are the sums of the bytes added and of the bytes removed, and the length is that at the reset with all changes |
| `Accounting.InvokeTwice` | sample/tcp/libevent/buffer.c:1162-1165 | A second invocation with nothing new changes nothing, as when a move invokes the callbacks of the target twice |
| `Accounting.ExactTold` | sample/tcp/libevent/buffer.c:464-467 | Where nothing was missed, each notice told exactly the length at the reset before it |
| `Accounting.PrependExact` | sample/tcp/libevent/buffer.c:1669-1685 | After a prepend the account is exact if and only if nothing spilled into a new chain, or the same call resets the counters without telling anybody; else missed bytes are pending or somebody was told of them: line 1683 counts the wrong chain's misalign |
| `Accounting.UntoldPrepend` | sample/tcp/libevent/buffer.c:461-462 | With counters at zero and no deferring, a prepend that goes to a new chain as a whole sends no notice: only the length and the missed bytes change |
| `Accounting.OneNotice` | sample/tcp/libevent/buffer.c:432-487 | With one enabled callback and something added, exactly one notice is sent, and all counters are reset |
| `Accounting.ToldRight` | sample/tcp/libevent/buffer.c:464-467 | A callback is told the length at the last reset if and only if no byte was missed since |
| `RedisLock.ExactWindow` | source/redis_client/redislock.cpp:2-59 | In every interleaving of any number of clients, with commands that fail, or lose their reply and are sent again, no two hold the lock within w of their stamps if and only if w is not positive, or w and the age of every DEL stay within maxexpire less the stamp-to-write delay and no DEL takes effect twice |
| `RedisLock.StepKeeps` | source/redis_client/redislock.cpp:2-59 | If DELs are in time and none takes effect twice, every step keeps: the stored stamp is at least a live holder's stamp less the delay, losing and repeated GETSETs included, and no two holders are live |
| `RedisLock.RunKeeps` | source/redis_client/redislock.cpp:2-59 | The same over every run |
| `RedisLock.WinnerAlone` | source/redis_client/redislock.cpp:11-37 | A client that wins by SETNX or GETSET finds no live holder |
| `RedisLock.LosingGetset` | source/redis_client/redislock.cpp:25-34 | A reachable state in which a losing GETSET has made the stored stamp older than the holder's by the whole delay |
| `RedisLock.WindowIsTight` | source/redis_client/redislock.cpp:25-37 | Beyond the window two clients do hold the lock in some run |
| `RedisLock.DelIsTight` | source/redis_client/redislock.cpp:46-59 | With a DEL beyond the window two clients do hold fresh locks in some run |
| `RedisLock.ResentDel` | source/redis_client/redisclient.cpp:836-863 | If a DEL that took effect can lose its reply, its second sending removes the key of the next holder, and two clients hold fresh locks in some run, for every positive expiry, window and age |
| `RedisLock.AtomicUnlock` | source/redis_client/redislock.cpp:46-59 | With no delay, no time between the check of line 51 and the DEL, and no DEL sent again after it took effect, the lock excludes for the whole expiry in every run, with no other bound on the age of a DEL |
| `RedisLock.CheckBounds` | source/redis_client/redislock.cpp:46-59 | In every run without time between check and DEL the check keeps every DEL within the expiry |
| `RedisLock.KeyExactly` | source/redis_client/redislock.cpp:11-25 | SETNX, GETSET and DEL take effect on the key exactly if they are not lost on their way, whether or not the reply arrives: SETNX only where there is no key; no other step touches it |
| `RedisLock.HoldsExactly` | source/redis_client/redislock.cpp:11-37 | A client takes the lock, with its own stamp, exactly if told that its SETNX found no key, or told by GETSET the stamp it had found, or told nothing where that stamp is its own |
| `RedisLock.GoesOnExactly` | source/redis_client/redislock.cpp:2-59 | Every step leads on exactly under its condition: GET after a key that is told to exist, GETSET after a stamp that is expired, DEL within the expiry; all else starts over, and every client but the one that steps stays as it is |
| `RedisLock.ResendsSame` | source/redis_client/redisclient.cpp:836-863 | A command whose reply is lost is sent again with the same stamp, once |
| `RedisLock.FailedGetset` | source/redis_client/redislock.cpp:25-34 | A reachable state in which a client takes itself for the holder after a GETSET that failed, its stamp being the one it had found; both stamps are expired |
| `RedisLock.StampRoundTrip` | source/redis_client/redislock.hpp:16-33 | A stamp written in decimal is never empty and is read back by atol as it was written |
| `RedisLock.SameStamp` | source/redis_client/redislock.hpp:16-21 | Equal strings are equal stamps, so that the comparison after GETSET compares stamps |
| `Crc16.TableRight` | source/redis_client/redisclient.cpp:12-45 | Each of the 256 table entries is its index divided by the polynomial, bit by bit |
| `Crc16.TableStep` | source/redis_client/redisclient.cpp:53 | One round of the loop is eight steps of bit-by-bit division |
| `Crc16.Compute` | source/redis_client/redisclient.cpp:47-56 | The table-driven loop computes the bit-by-bit checksum of every byte string |
| `Crc16.DivideRight` | source/redis_client/redisclient.cpp:47-56 | Long division is right: dividend = divisor times quotient plus remainder, coefficient by coefficient |
| `Crc16.AddBitsAhead` | source/redis_client/redisclient.cpp:47-56 | Feeding message bits at the top of the register is sixteen shifts ahead of long division |
| `Crc16.CrcIsRemainder` | source/redis_client/redisclient.cpp:47-56 | The checksum is the remainder of the message times x^16 by x^16 + x^12 + x^5 + 1, for every message |
| `Crc16.OnlyRemainder` | source/redis_client/redisclient.cpp:47-56 | The remainder is unique: for any quotient whatever and any 16-bit rest that make up the message times x^16, the rest is the checksum |
| `HashSlot.Compute` | source/redis_client/redisclient.cpp:58-97 | The two scanning loops compute the checksum of what the declarative hash-tag rule hashes, modulo 16384 |
| `HashSlot.SlotIsRest` | source/redis_client/redisclient.cpp:58-97 | The slot is the CRC of what is hashed, as a number modulo 16384: the rule of the cluster specification |
| `HashSlot.HashedParts` | source/redis_client/redisclient.cpp:64-96 | Of a key with {tag} in it the tag is hashed whatever stands around it; with an empty {} first, an unclosed or no brace, all of the key |
| `HashSlot.OneTag` | source/redis_client/redisclient.cpp:64-95 | A key has at most one tag |
| `HashSlot.SameTagSameSlot` | source/redis_client/redisclient.cpp:95-96 | Keys with equal tags share a slot |
| `HashSlot.SlotOfTag` | source/redis_client/redisclient.cpp:58-97 | The slot of a key is the slot of its tag taken as a key |
| `SlotTable.LowerBound` | source/redis_client/redisclient.cpp:2299 | Binary search with the region-before-slot comparison finds the border a linear scan finds |
| `SlotTable.UpperBound` | source/redis_client/redisclient.cpp:2299 | Binary search with the slot-before-region comparison finds the border a linear scan finds |
| `SlotTable.Client.FindServer` | source/redis_client/redisclient.cpp:2297-2319 | The first master of the one region that holds the slot, found as a linear scan would, and null exactly if there is no such region or master |
| `SlotTable.Client.GetMatchedServer` | source/redis_client/redisclient.cpp:2279-2295 | Without a cluster the first server, if any; a command without a slot goes to the server that the random number picks; otherwise the first master of the one region that a plain scan of the table finds for the slot, or null without a region or master |
| `SlotTable.Client.FindAt` | source/redis_client/redisclient.cpp:2321-2332 | A server of the list at host and port, and null exactly if there is none |
| `SlotTable.Client.Resolve` | source/redis_client/redisclient.cpp:2362-2374 | The servers of a region match its hosts one for one; known servers are reused as they are and only unknown ones added, with the role they answer, so that (host, port) stay distinct |
| `SlotTable.Client.LoadClusterSlots` | source/redis_client/redisclient.cpp:2351-2381 | Succeeds exactly if the request does; a failing one changes nothing; otherwise the table is sorted and holds exactly the regions of the reply with their servers, and disjoint regions come out separated; the server list only grows and stays distinct in (host, port) |
| `SlotTable.Client.LoadAndFind` | source/redis_client/redisclient.cpp:2297-2381 | Loading a reply with disjoint regions and looking up any slot gives the first master among the servers at the hosts of the region that a plain scan of the reply finds, and nothing where that scan finds no region; servers added have the role they answered, so that null means none of the new ones is a master |
| `SlotTable.SortedDisjoint` | source/redis_client/redisclient.cpp:226-236 | Sorting disjoint regions makes them fit for the two-sided comparator |
| `SlotTable.LookupThroughSort` | source/redis_client/redisclient.cpp:2299-2318 | A lookup in the sorted table finds the region that a scan of the reply would find |
| `Pipeline.Projection` | source/redis_client/redisclient.cpp:1149-1176 | Seen from one server, the queue in its own order is that server's group: same final state, same replies |
| `Pipeline.Cluster.ConnRequest` | source/redis_client/redisclient.cpp:865-885 | All commands are appended before the first reply is read; the server has executed the first commands of the group, all unless the connection breaks, and the replies read are those of executing them in order, up to the one that does not come; it succeeds exactly if every reply comes |
| `Pipeline.EveryBreak` | source/redis_client/redisclient.cpp:865-885 | A connection may break after any number of commands and any number of their replies, and a group gets through exactly if every reply comes |
| `Pipeline.Queue.QueueCommand` | source/redis_client/redisclient.cpp:1144-1147 | The command goes to the end of the queue, without a reply yet |
| `Pipeline.Queue.GroupCommands` | source/redis_client/redisclient.cpp:1151-1169 | Each server's group holds exactly its commands, in queue order |
| `Pipeline.Queue.SendGroups` | source/redis_client/redisclient.cpp:1171-1175 | In any order of the servers, up to the first that fails: those done have executed their groups and all their replies are in place, the one that failed has executed the first commands of its group and the replies that came are in place, the others have executed nothing and no other reply changes |
| `Pipeline.Queue.FlushCommand` | source/redis_client/redisclient.cpp:1149-1176 | It succeeds exactly if every server answers its whole group, and then the final states and the reply of each command are those of executing the queue in order; otherwise exactly the servers done before the failure have executed their groups, and the failing one a first part of its own |
| `Pipeline.Queue.FetchNext` | source/redis_client/redisclient.cpp:1178-1188 | The i-th fetch returns the reply of the i-th queued command, and end of file exactly past the last |
| `Pipeline.Queue.FetchAll` | source/redis_client/redisclient.cpp:1178-1188 | Fetching to the end gives the replies in queue order |
| `BlockingQueue.StepKeeps` | source/common/blocking_queue.h:27-358 | Every step of every thread keeps: while a consumer waits, signals on their way plus woken consumers are at least the queue length; while a producer waits, a broadcast is on its way or signals plus woken producers are at least the free space; values are conserved |
| `BlockingQueue.RunKeeps` | source/common/blocking_queue.h:27-358 | The same over every run, with timeouts and spurious wakeups anywhere |
| `BlockingQueue.NoLostWakeup` | source/common/blocking_queue.h:27-101 | When nothing is on its way, a blocked consumer means an empty queue and a blocked producer a full one |
| `BlockingQueue.NeverBothBlocked` | source/common/blocking_queue.h:27-101 | Then consumers and producers are never blocked together |
| `QueueCalls.CallsAccounted` | source/common/blocking_queue.h:27-358 | In every run each call made has ended or is open, once; a blocking call ends only by doing its work; the values that entered are those of the pushes that did theirs and those that left were taken by the calls that did theirs, in order: one by a pop, all by PopAll |
| `QueueCalls.CallStep` | source/common/blocking_queue.h:27-358 | A call that finds the queue full, or empty, changes nothing: blocking it waits, trying it gives up, timed it waits once; otherwise it puts its value at, or takes it from, the right end, or takes all |
| `QueueCalls.GivesUpExactly` | source/common/blocking_queue.h:40-51 | In every run a call gives up at a step exactly if the queue is full, or empty, then and the call only tries, or is timed and has waited |
| `QueueCalls.TimedEnds` | source/common/blocking_queue.h:150-252 | A timed call that waits comes to an end: its timeout wakes it and it is done or gives up |
| `QueueCalls.TellWakes` | source/common/blocking_queue.h:27-319 | A signal wakes one thread that waits for it if there is one, a broadcast all, and nothing else changes |
| `QueueCalls.AlwaysAStep` | source/common/blocking_queue.h:27-358 | A thread that does not wait always has a step |
| `BlockingQueue.PopAllServes` | source/common/blocking_queue.h:260-319 | Taking all values keeps every waiting producer served, with the broadcast before or after the mutex is released |
| `BlockingQueue.ClearServes` | source/common/blocking_queue.h:347-353 | Clearing keeps every waiting producer served |
| `BlockingQueue.FirstInFirstOut` | source/common/blocking_queue.h:58-101 | With pushes at the back and pops from the front, values leave in the order in which they entered |
| `BlockingQueue.LastInFirstOut` | source/common/blocking_queue.h:27-135 | At either end a pop takes back what the last push at that end put there, and leaves the rest as it was |
| `ThreadPool.OnePlace` | source/common/thread_pool.cpp:31-94 | In every run every task ever added is in exactly one place, once: pending, held by one worker, executed, or lost at the end |
| `ThreadPool.TerminateDrains` | source/common/thread_pool.cpp:40-54 | When Terminate(true) returns, the tasks executed are all but those added after the last worker exited, each exactly once |
| `ThreadPool.AllExecuted` | source/common/thread_pool.cpp:40-54 | Every task has been executed if and only if none was added after the last worker exited |
| `ThreadPool.NoneLate` | source/common/thread_pool.cpp:40-54 | Without an AddTask after Terminate has begun, none was |
| `ThreadPool.LateTaskLost` | source/common/thread_pool.cpp:31-54 | A run in which such a late task is lost |
| `ThreadPool.StepsCount` | source/common/thread_pool.cpp:73-89 | Once all workers are told to exit, every step of a worker lowers a measure of pending and held tasks |
| `ThreadPool.WorkersFinish` | source/common/thread_pool.cpp:40-89 | From then on every run of worker steps is bounded by that measure, and one that cannot go on has led all workers to their exit: Terminate(true) ends under every schedule |
| `ThreadPool.SomeStep` | source/common/thread_pool.cpp:73-89 | Until all have exited, some worker has a step |
| `ThreadPool.FlaggedExits` | source/common/thread_pool.cpp:73-79 | A worker told to exit and not to wait exits at its next check whatever is pending; one told to wait, or not yet told which, exits exactly at an empty queue; one not told to exit goes on |
| `ThreadPool.TerminateSays` | source/common/thread_pool.cpp:40-45 | In every run what the one call of Terminate says about waiting holds from then on; before it the workers wait |
| `ThreadPool.WorkersQuit` | source/common/thread_pool.cpp:40-94 | Once all are told to exit and not to wait, every run of worker steps takes at most three steps a worker and one that cannot go on has led all to their exit, whatever is pending |
| `SessionCache.EarlyExit` | source/transport/session_cache.h:169-190 | Stopping at the first fresh node erases every expired node if and only if no fresh node comes before an expired one |
| `SessionCache.SortedEarlyExit` | source/transport/session_cache.h:169-212 | In a list sorted by time it does, for any timeout |
| `SessionCache.Cache.EraseFront` | source/transport/session_cache.h:169-235 | The loop erases exactly the leading expired nodes from list and map |
| `SessionCache.Cache.Expire` | source/transport/session_cache.h:215-235 | The cache is filtered by age; the values and keys returned are exactly those erased, once each, in the order of their insertion, which is the order of time, and what stays keeps its order |
| `SessionCache.Cache.AutoClear` | source/transport/session_cache.h:238-261 | Filters by age exactly if the size is beyond the maximum |
| `SessionCache.Cache.PushSession` | source/transport/session_cache.h:66-92 | Enters the session exactly if its key is free after the automatic expiry |
| `SessionCache.Cache.FindSession` | source/transport/session_cache.h:95-108 | Finds exactly the value of the key; the asserted key of the node holds |
| `SessionCache.Cache.PopSession` | source/transport/session_cache.h:111-145 | Removes exactly the key from list and map and returns its value |
| `SessionCache.Cache.Size` | source/transport/session_cache.h:58-63 | The asserted equality of the sizes of list and map holds |
| `SessionCache.Play` | source/transport/session_cache.h:66-261 | In every run with a clock that does not go back, results and contents are those of a plain dictionary with insertion order whose expiry is a filter, the keys and values handed out by the vector overload of ClearTimeout included, in order; list and map hold the same distinct keys, each designating its own node, sorted by time |
| `SessionCache.StepKeys` | source/transport/session_cache.h:66-261 | After a step exactly those keys are there, with their entries, that were and did not expire, were not popped and not cleared, and a key pushed when free; the timeout given to ClearTimeout counts and not the cache's own, and a push expires only beyond the maximum size |
| `SessionCache.StepOut` | source/transport/session_cache.h:66-145 | A push succeeds exactly if its key is free once what is too old is gone; finding and popping succeed exactly if the key is there and give its value |
| `SessionCache.ExpiredOut` | source/transport/session_cache.h:215-235 | The vector overload of ClearTimeout hands out exactly the keys that are as old as the timeout, each with its value |
| `SessionCache.StepSettings` | source/transport/session_cache.h:39-49 | The timeout changes only to a positive value, the maximum size to any |
| `SyncComm.StepKeeps` | source/transport/sync_comm.cpp:33-94 | Every step of callers, Returns and the timeout thread keeps each session either untouched in the cache, or removed with its one value on its way or set |
| `SyncComm.FulfilledOnce` | source/transport/sync_comm.h:24-26 | In every run whoever sets a promise finds it unset, and nobody else is about to set it |
| `SyncComm.OwnAnswer` | source/transport/sync_comm.cpp:54-94 | A caller receives what a Return for its own key was given, or the empty value of a timeout |
| `SyncComm.ReturnReaches` | source/transport/sync_comm.cpp:53-94 | In every run a Send that is not refused, a Return for its key before anything else takes the session, the setting of the value and the waking of the caller give that caller exactly the value returned, whatever other steps come between |
| `SyncComm.StillDue` | source/transport/sync_comm.cpp:76-94 | From a Return on its value is on its way to the session that waited, or is set, and the caller has received it or can |
| `SyncComm.ReturnTakes` | source/transport/sync_comm.cpp:76-94 | A Return for a key in the cache takes exactly that key out and puts exactly its value on its way to that session; any other Return does nothing |
| `SyncComm.TimeoutTakes` | source/transport/sync_comm.cpp:33-50 | The timeout thread takes out exactly the sessions that are too old, and puts the empty value on its way to each |
| `SyncComm.SendEnters` | source/transport/sync_comm.cpp:53-62 | A Send enters its session exactly if its key is free, once a cache beyond its maximum size has dropped what is too old |
| `SyncComm.LeavesExactly` | source/transport/sync_comm.cpp:33-94 | A waiting session leaves the cache exactly by a Return for its key, or once too old by the timeout thread or an overfull Send, and is untouched till then |
| `SyncComm.GivenByReturn` | source/transport/sync_comm.cpp:76-94 | What a remover is about to set was given to a Return of the run for that key |
| `SyncComm.OrphansExactly` | source/transport/session_cache.h:238-261 | A session is dropped without an answer if and only if some push found the cache beyond its maximum size with an expired session in it |
| `SyncComm.OrphanWitness` | source/transport/session_cache.h:238-261 | With the cache's size of 100 and any timeout it can have: 101 callers wait, the timeout passes, and the next send drops the session of every one of them, unanswered |
| `SyncComm.NoneForgotten` | source/transport/sync_comm.cpp:33-94 | In every run from the start in which no push drops a session, every session that was not refused is in the cache, has its answer, or has exactly one thread about to set it |
| `Base64.CodeIsBase2Chr` | source/common/base64.cpp:6-27 | The table of Encode and the formula of Base2Chr are the same alphabet |
| `Base64.CodeRoundTrip` | source/common/base64.cpp:34-48 | Chr2Base inverts the table |
| `Base64.ChrRoundTrip` | source/common/base64.cpp:34-48 | The table inverts Chr2Base on its valid characters |
| `Base64.Encode` | source/common/base64.cpp:50-98 | Writes exactly the encoding, within the bound of Base64EncodeLen, and fails exactly for the empty string |
| `Base64.Decode` | source/common/base64.cpp:100-156 | For every string, malformed ones included, writes exactly the decoding, every byte within Base64DecodeLen |
| `Base64.DecodedPrefix` | source/common/base64.cpp:100-156 | What comes behind the first padding or zero does not matter, for any string |
| `Base64.InvalidSkipped` | source/common/base64.cpp:100-156 | Characters outside the alphabet give no byte and keep no bits, though their places count, for any string |
| `Base64.BytesGiven` | source/common/base64.cpp:100-156 | Of any string exactly the characters of the alphabet before the end that are not first of a group of four places give one byte each |
| `Base64.DecodeEncode` | source/common/base64.cpp:50-156 | Decoding undoes encoding, for every byte string |
| `Base64.EncodedCanonical` | source/common/base64.cpp:50-98 | The encoding has 4*ceil(n/3) characters, all of the alphabet or padding, with padding only where it belongs and no stray bits |
| `Base64.EncodeDecode` | source/common/base64.cpp:50-156 | Encoding undoes decoding on canonical strings |
| `Base64.CanonicalExactly` | source/common/base64.cpp:50-156 | It does so if and only if the string is canonical |
| `Arc4.Generator.constructor` | sample/tcp/libevent/arc4random.c:95-104 | The table starts as the identity |
| `Arc4.Generator.GetByte` | sample/tcp/libevent/arc4random.c:408-420 | The two places exchanged, place by place, and the byte at the place that the sum of the two exchanged bytes says; the rest of the table stays, and it stays a permutation |
| `Arc4.Generator.AddRandom` | sample/tcp/libevent/arc4random.c:106-121 | 256 rounds of mixing; the table stays a permutation |
| `Arc4.NextIs` | sample/tcp/libevent/arc4random.c:408-420 | The step and its byte in plain arithmetic modulo 256 |
| `Arc4.AddedSchedules` | sample/tcp/libevent/arc4random.c:95-121 | addrandom after init leaves the table of the RC4 key schedule, stated on its own as a relation between rounds, with i and j at 255 |
| `Arc4.ScheduleExists` | sample/tcp/libevent/arc4random.c:106-121 | Every key has such a schedule of 256 rounds |
| `Arc4.MixedInjective` | sample/tcp/libevent/arc4random.c:106-121 | A round mixes every data byte in differently |
| `Arc4.RunKeeps` | sample/tcp/libevent/arc4random.c:95-121 | In every run of init, addrandom and getbyte the table is a permutation of 0..255 |
| `Arc4.AddedKeeps` | sample/tcp/libevent/arc4random.c:106-121 | Mixing keeps the permutation; i comes full circle and j becomes i |
| `Arc4.StepInvertible` | sample/tcp/libevent/arc4random.c:408-420 | The step of getbyte has an explicit two-sided inverse |
| `Arc4.NeverMerge` | sample/tcp/libevent/arc4random.c:408-420 | Distinct states never lead to the same state |
| `Arc4.MinWordIs` | sample/tcp/libevent/arc4random.c:513-523 | Both wrapping branches compute 2^32 modulo the bound, for 2^31 too, where the doubling wraps to zero |
| `Arc4.Unbiased` | sample/tcp/libevent/arc4random.c:505-538 | Every result below the bound comes from the same number of accepted words, floor(2^32 / bound), and more than half of all words are accepted |
| `Arc4.Uniform` | sample/tcp/libevent/arc4random.c:505-538 | The result is the first draw not below 2^32 modulo the bound, reduced modulo the bound |

## Left out

- Reserve/commit, `evbuffer_expand`, immutable, reference, file and pinned chains, allocation failure, reading and writing descriptors, locks and reference counts of evbuffers: they touch the operating system or leave empty tail chains that `evbuffer_add` does not account for.
- Callbacks that change the buffer they are told about; the model's callbacks only receive notices.
- Sizes are unbounded integers; `size_t` overflow and the casts of results to `int` are not modelled.
- Chains.Chain.constructor: the memory is a sequence field of the chain and not a separate array, because the source allocates both in one piece; aliasing into that memory from outside is not modelled.
- EvBuffer.Buffer.ChainInsert: states what an empty chain behind data leaves, but the other operations are not modelled on a buffer with such a spare chain, which only the reserve path makes.
- EvBufferRun.Run: of the front after a pullup that moves data, or after a move that leaves bytes in the source, nothing is said; contents, results and accounts are stated for these as for all others.
- EvBufferPullup.PullUp: the pointer returned is the chain that holds the bytes, since pointers into its memory are not modelled.
- SlotTable.LowerBound: `std::equal_range` is modelled by the two binary searches that specify it.
- SlotTable.Client.LoadClusterSlots: `std::sort` is an insertion sort, and what a new server answers about being a master is a parameter.
- Pipeline.Queue.FlushCommand: a command without a server, for which the source dereferences a null pointer, is excluded.
- Pipeline.Cluster.ConnRequest: an append that fails, which takes a failing allocation since every command queued has its name as an argument (lines 593-742), is not modelled. A connection that broke before and is used again, where hiredis, which is not part of this model, repeats its error, is the fate `Breaks(0, 0)`: nothing is executed and the first reply fails.
- RedisLock.ExactWindow: one clock for all clients; the sleeping and the timeout of the retry loop only decide how often a client stamps again, which is arbitrary in the model.
- BlockingQueue.NoLostWakeup: says when threads may be blocked, not that a scheduler lets woken ones run.
- ThreadPool.TerminateDrains: one call of Terminate; the finished queue and its task identifiers are not modelled.
- SessionCache.Cache.PopSession: also stands for `DelSession`; `PopFirstSession`, which locks a mutex it already holds, is not modelled.
- SyncComm.OwnAnswer: the destructor of FutureSession is not modelled; it sets a value only while its caller waits, and the caller then still owns it.
- Base64.CanonicalExactly: of strings with invalid characters it is stated which places give a byte, not that the bytes mean anything.
- Arc4.Uniform: the draws are given, and the loop ends with them; the stirring and seeding of the generator is not modelled.
- bufferevents, the Redis connection pool and command wrappers, ZooKeeper, RPC, database, logging and the generated code: plumbing over libraries that are not part of this model.
