# Redis 2.5.12: the algorithms and protocols of the server, proved

The repository vendors a Redis server. This project models its self-contained cores in the form the C
code has (arrays, heap nodes, cursors, counters and state machines) and proves what they are for.
`dafny verify dfyconfig.toml` verifies the whole project.

| module | what it models | main results |
|---|---|---|
| Lzf | `lzf_c.c`, `lzf_d.c` | compression followed by decompression is the identity, for any initial hash table; the decoder accepts exactly the encodings; runs shrink |
| Pqsort | `pqsort.c` | partial sort: every requested position holds the element of its rank |
| DictModel, DictIteration, Dict, Migration, SafeIteration | `dict.c` | two chained tables on the heap refine one map at every stage of a migration; migrations end in time; safe iteration returns each entry once |
| Decimal | `util.c` | decimal printing and strict parsing are inverse |
| Requests, Protocol | `networking.c`, input | the resumable parser depends on how the bytes arrive exactly where a length limit fires; what clients encode is what is executed, and what breaks the protocol is not |
| Replies | `networking.c`, output | the output stream is conserved under deferred lengths and short writes |
| Keyspace, AofRewrite, AofBuffer, Aof, AofLoad | `aof.c`, `redis.c` | file plus buffers replay to the live dataset, but for commands that count from another clock reading, in every state of a background rewrite; a cut-off or damaged file loads its complete commands |
| Replication | `replication.c`, `rdb.c` | snapshot plus stream equals the master's dataset in every state of a slave |
| RdbStrings, Rdb | `rdb.c` | what is saved is loaded back, whichever encoding was chosen; what was changed or cut off is refused |
| Intset, Words | `intset.c` | the packed bytes refine a set, through in-place widening |
| Multi | `multi.c` | EXEC runs its queue exactly when no watched key was touched |
| Crc64 | `crc64.c`, `migrate.c` | the table-driven checksum is polynomial division; short changes are always noticed |
| Bitops | `bitops.c` | the word-wise forms compute the byte-wise ones |
| Adlist, Bio | `adlist.c`, `bio.c` | linked list surgery refines a sequence; background jobs run exactly once, in order |

`Bytes` and `Sequences` hold what several modules share.

## How to read it

Where the C code changes state step by step there is a class or a method on arrays, and its contract
ties the new state to a function on values; the theorems are lemmas about those functions, or
invariants (`Valid`) that every method keeps. Concurrent parties (a forked child, slaves, the clients
of MULTI, the worker of `bio.c`) are methods of one state machine that may be called in any order.
`ghost` parameters and fields carry what a proof knows and the program does not, such as the tokens an
LZF output stands for or the commands a log holds.

Time, `write` results, fork results and the outcome of file operations are parameters. A dataset is a
sequence of maps from keys to values with expire times. The commands that count from the clock (EXPIRE,
PEXPIRE, SETEX, PSETEX and RESTORE) are modelled; what `Keyspace.Others` leaves open is any effect that is a
function of the dataset, and the time at which a log is loaded.

## Where the code falls short of what is asked of it

Each of these is stated as an exact condition, or with a concrete input, and the code is modelled as it is.

- A slave that joins a save in progress takes over another slave's output, but its `slaveseldb` is reset
  to 0 (`replication.c:122` and `replication.c:143`). It is in step if and only if the other slave's was
  0: `Replication.Master.SyncCommand`, with the failure shown by `Replication.CopiedSelectionMatters`.
- When the next save cannot be forked, the slaves that wait for it should be freed, but they have left
  the state that is looked for (`replication.c:254-256` and `replication.c:292`), so nobody is freed
  (`Replication.Master.StartNextSave`). A later save sends them a dump that holds
  the effect of commands they are also fed, which is right in every history if and only if there are no
  such commands: `Replication.StrandedServedUnlessFed`.
- A BGSAVE child that was killed has exit code 0, and slaves are then served the previous dump file
  (`rdb.c:1164`). Serving is right whatever the file, the commands fed and the dataset if and only if the
  child was not killed: `Replication.ServesInStepUnlessKilled`, with a failing input in
  `Replication.ReplayedTwice`. For a given file and log the exact condition is in
  `Replication.Master.BackgroundSaveDoneHandler`.
- Rewriting the append only file emits a key whose expire time has passed, but not the expire time
  (`aof.c:871-879`), although the comment there says that the key is skipped. The rewritten log is
  faithful if and only if there is no such key: `AofRewrite.RewriteIsFaithful`.
- EXPIRE and its relatives read the clock once more when they are logged (`aof.c:342`), and RESTORE with a
  time to live is logged as it came and reads the clock again when the log is loaded (`migrate.c:122`,
  shown by `Keyspace.RestoredAgain`). The log then agrees with the dataset up to expire times, and with the
  dataset itself if and only if the command was in time: `Keyspace.LoggedAtLaterTime` for one command,
  `Aof.Server.Call` for every state.
- The limits on unended lines compare the whole query buffer (`networking.c:768`, `networking.c:824`,
  `networking.c:864`). So an inline line may be executed or refused depending on the cuts
  (`Requests.LongLineDependsOnCuts`), and arguments that have arrived count as part of the next line
  (`Requests.BufferedArgumentsHitLimit`, for a buffer that grew while its client was blocked). The client
  comes to what the bytes mean if and only if no limit fires: `Requests.CutsMatterAtLimitsOnly`.
  Multibulk commands never meet a limit with the reads the server makes: `Requests.CommandsAreExecuted`.
- A key with an expire time of -1 is saved without one (`rdb.c:586`): `Rdb.FileRoundTrip` is an equality if
  and only if there is no such key. A string or a collection of 2^32-1 bytes or elements is written with
  the mark for an error: `RdbStrings.VerbatimSaves`, `RdbStrings.SaveRawString`, `Rdb.CollectionSaved`.

## Model

| member | source | states |
|---|---|---|
| `Lzf.RoundTrip` | redis/src/lzf_c.c:99-294 | for every input, output bound and initial hash table: if compression returns n > 0, decompressing these n bytes into a buffer of the input's length returns that length and the input |
| `Lzf.DecodeInvertsEncoding` | redis/src/lzf_c.c:89-96 | round trip: whatever valid LZF encoding of the data the bytes are, decoding them with room for the data gives exactly the data |
| `Lzf.DecodesExactlyEncodings` | redis/src/lzf_d.c:56-149 | the decoder accepts exactly the valid encodings of what fits into the output, and returns what they encode |
| `Lzf.TooLittleRoom` | redis/src/lzf_d.c:72-76 | an encoding of more than fits is E2BIG |
| `Lzf.FormatOfTokens` | redis/src/lzf_c.c:89-96 | the bytes of a literal run and of a short and a long reference, as the format comment gives them |
| `Lzf.CandidateInRun` | redis/src/lzf_c.c:47-53 | in a run of equal bytes the slot of the next three bytes holds the place just before |
| `Lzf.SlotOfThree` | redis/src/lzf_c.c:47-53 | the slot depends on the last three bytes only |
| `Lzf.Compress` | redis/src/lzf_c.c:99-294 | for every input, output bound and initial content of the hash table: a result n is at most `out_len`, nothing is written past `out_len`+1 bytes, and n > 0 means the first n bytes are a valid encoding of the input; 0 is returned only for empty input or an output hardly larger than the input, and never for a run of more than 20 equal bytes, which shrinks to about a 66th |
| `Lzf.MatchLength` | redis/src/lzf_c.c:168-211 | the match found, through the 16 unrolled comparisons or the loop, is a real one, stays inside the input, is 3 to 264 long and ends at a difference or at the limit |
| `Lzf.CompressStep` | redis/src/lzf_c.c:145-274 | one pass: a usable candidate in the table makes a match as long as the data agrees, up to 264 bytes, anything else one literal byte; the hash is of the last bytes and selects the place just before; the invariant that ties tokens, open literal run, reserved length byte and cursors together is kept |
| `Lzf.PushMatch` | redis/src/lzf_c.c:167-227 | the match branch closes the run, writes one back reference and opens the next run, or reports that the output is full |
| `Lzf.WriteMatch` | redis/src/lzf_c.c:179-227 | as long a match as the comparison finds, written as one reference behind complete tokens, is encoded with them |
| `Lzf.PushLiteral` | redis/src/lzf_c.c:262-272 | one literal byte; a run of 32 is closed and a new one opened |
| `Lzf.StopRun` | redis/src/lzf_c.c:173-174 | patching the length byte behind the run completes it, and an empty run gives its byte back |
| `Lzf.CompressTail` | redis/src/lzf_c.c:276-293 | the last bytes and the end of the run turn the invariant into a complete encoding, at most 3 bytes longer |
| `Lzf.Usable` | redis/src/lzf_c.c:151-165 | whatever the table holds, a candidate is accepted exactly when it points into the input before the cursor, near enough, with three equal bytes |
| `Lzf.CopyBackOfMatch` | redis/src/lzf_d.c:137-142 | copying byte by byte from data that matches reproduces the data even where source and destination overlap |
| `Lzf.DecodeToken` | redis/src/lzf_d.c:64-146 | a rendered token, wherever it stands, is decoded to what it stands for |
| `Lzf.Decompress` | redis/src/lzf_d.c:56-149 | the decoder returns the decoding of any byte string, or E2BIG or EINVAL where its checks, in their order, fail; every access is in bounds |
| `Pqsort.Pqsort` | redis/src/pqsort.c:191-197 | for every array, total preorder and range: terminates with a permutation in which every requested position holds an element of its own rank |
| `Pqsort.PinnedRangeIsPartialSort` | redis/src/pqsort.c:191-197 | such an array has the requested range sorted, equal in order to that range of any full sort, nothing larger before it and nothing smaller after it |
| `Pqsort.PinnedIsRank` | redis/src/pqsort.c:191-197 | a pinned position compares equal to that position of every sorted permutation |
| `Pqsort.PqsortRange` | redis/src/pqsort.c:99-189 | the recursive sort moves nothing outside its part and places every requested position of it, pruned parts and the fallback to insertion sort included |
| `Pqsort.PqsortPass` | redis/src/pqsort.c:107-187 | one round of `goto loop`: what it finishes is in place, and nothing finished is larger than the rest |
| `Pqsort.Partition` | redis/src/pqsort.c:128-162 | the four cursors leave equal, smaller, larger and equal elements side by side; without swaps the array is as it was and no element equals the pivot |
| `Pqsort.PartitionPass` | redis/src/pqsort.c:133-154 | one round keeps the layout and brings the cursors together, or crosses them; without swaps nothing has moved |
| `Pqsort.Gather` | redis/src/pqsort.c:164-168 | the vector swaps bring the equal elements to the middle |
| `Pqsort.InsertionSort` | redis/src/pqsort.c:109-115 | the part is sorted and permuted |
| `Pqsort.Med3IsMedian` | redis/src/pqsort.c:89-97 | the element chosen lies between the other two |
| `Pqsort.VecSwap` | redis/src/pqsort.c:87 | exchanges two vectors element by element |
| `DictModel.StepWellFormed` | redis/src/dict.c:199-236 | a migration step keeps both tables a representation of the same index, each key in exactly one table and in its own bucket |
| `DictModel.EntriesRemainAhead` | redis/src/dict.c:215-218 | while entries remain in the old table a non-empty bucket lies at or after `rehashidx`: the scan never runs past the table |
| `DictModel.InsertWellFormed` | redis/src/dict.c:294-316 | adding represents the index with the key added |
| `DictModel.RemoveWellFormed` | redis/src/dict.c:359-392 | deleting represents the index without the key |
| `DictModel.ExpandWellFormed` | redis/src/dict.c:168-195 | starting an expansion changes no contents |
| `DictModel.AllIsIndex` | redis/src/dict.c:484-513 | the two tables together hold each indexed entry exactly once |
| `DictModel.UsedIsKeyCount` | redis/src/dict.h:136 | `ht[0].used + ht[1].used` is the number of keys |
| `DictModel.NextPowerIsLeast` | redis/src/dict.c:587-597 | the least power of two that is at least 4 and at least the size |
| `DictModel.MigrationEnds` | redis/src/dict.c:199-236 | a migration of N buckets ends within N+1 stepping operations, whatever they insert, delete or find |
| `DictModel.GrowthEndsInTime` | redis/src/dict.c:294-316 | after an add that triggers growth, it ends within N+1 operations and the dictionary then holds at most newsize+1 entries |
| `DictModel.StandsWhereHashed` | redis/src/dict.c:605-627 | every entry stands in the bucket that the hash of its key selects in one of the two tables |
| `DictIteration.AdvanceTakesFirst` | redis/src/dict.c:484-513 | `dictNext` returns the first entry still pending and leaves the others pending, across empty buckets and both tables |
| `DictIteration.PushPending` | redis/src/dict.c:307-315 | an insertion during an iteration adds at most the new entry to what is pending |
| `DictIteration.ExpandPending` | redis/src/dict.c:564-584 | an expansion that starts during an iteration changes nothing that is pending |
| `DictIteration.RemovePending` | redis/src/dict.c:359-392 | deleting the entry just returned changes nothing that is pending |
| `DictIteration.SafeIterationReturnsEachOnce` | redis/src/dict.c:265-267 | over every interleaving of adds of new or existing keys, finds and deletions of the entry just returned: no entry is returned twice, and once `dictNext` returns none every initial entry has been returned |
| `Dict.Dict.constructor` | redis/src/dict.c:130-151 | an empty map |
| `Dict.Dict.RehashOnce` | redis/src/dict.c:199-234 | relinking the heap chains of the next non-empty bucket is the migration step: `rehashidx` grows, or the old table is empty and the new one takes its place; the map is unchanged |
| `Dict.Dict.Rehash` | redis/src/dict.c:199-236 | n steps, and whether more are needed; the map is unchanged |
| `Dict.Dict.RehashStep` | redis/src/dict.c:265-267 | nothing happens while safe iterators are open; otherwise `rehashidx` grows, or the new table becomes the only one |
| `Dict.Dict.AddRaw` | redis/src/dict.c:294-316 | null exactly when the key is present; otherwise the map gains the key, whatever the state of a migration; when the table grows and to what size, and how far a migration moves |
| `Dict.Dict.Replace` | redis/src/dict.c:323-344 | the map holds the new value; tells whether the key was new; the tables are those after an add, or after an add that found the key and a find |
| `Dict.Dict.Delete` | redis/src/dict.c:357-392 | succeeds exactly when the key is present, and the map loses exactly it |
| `Dict.Dict.Find` | redis/src/dict.c:436-455 | returns the entry of the key, with its value, exactly when the map has it |
| `Dict.Dict.Lookup` | redis/src/dict.c:605-627 | the search over both tables finds the entry exactly when the key is indexed |
| `Dict.Dict.ExpandTo` | redis/src/dict.c:166-195 | refuses exactly during a migration or when the entries would not fit; the map is unchanged |
| `Dict.Dict.Resize` | redis/src/dict.c:154-164 | to the smallest size that holds the entries |
| `Dict.Dict.GrowIfNeeded` | redis/src/dict.c:564-584 | afterwards there is a table that takes a new entry: 4 buckets at first, twice the entries when the table is full and may be resized, or is filled more than five times |
| `Dict.Dict.NextTableSize` | redis/src/dict.c:587-597 | the doubling loop computes the next power |
| `Dict.Dict.Size` | redis/src/dict.h:136 | `used` of both tables is the number of keys of the map |
| `Migration.UntilMigrated` | redis/src/dict.c:199-236 | on the heap: any sequence of adds, replaces, finds and deletions, one longer than the buckets still to go, ends the migration, and the new table is then the only one |
| `Migration.Grow` | redis/src/dict.c:294-316 | on the heap: the add that finds a full table starts a migration to a table of the next power of two, and N+1 more operations end it |
| `Migration.Perform` | redis/src/dict.c:265-267 | each of these operations moves the migration on |
| `Dict.Iterator.Next` | redis/src/dict.c:484-513 | the heap iterator takes the first pending entry and counts itself once when it is safe |
| `Dict.Iterator.Release` | redis/src/dict.c:515-520 | `iterators` again equals the number of started, unreleased safe iterators |
| `Decimal.String2ll` | redis/src/util.c:215-276 | succeeds exactly on the decimal forms of the numbers of a long long, and yields the number |
| `Decimal.Ll2string` | redis/src/util.c:191-210 | writes the decimal form, cut to the room there is, and a NUL; touches nothing else |
| `Decimal.ReadShow` | redis/src/util.c:215-276 | reading what was printed gives the number back |
| `Decimal.StrtollShow` | redis/src/object.c:430-452 | the lenient reading of command arguments, with signs, leading zeros and the empty text, gives a printed number back as well |
| `Decimal.StrtollIsLenient` | redis/src/object.c:430-452 | a plus sign and leading zeros are read, the empty text is 0 |
| `Decimal.StrtollRefuses` | redis/src/object.c:430-452 | a text with anything else behind its first byte is refused |
| `Decimal.DigitAppended` | redis/src/util.c:191-210 | decimal notation: appending a digit multiplies by ten and adds it |
| `Decimal.ShowInjective` | redis/src/util.c:191-210 | different numbers have different forms |
| `Requests.RunResumes` | redis/src/networking.c:812-942 | token by token, without the limits: parsing what arrives later from where the parser stopped is parsing everything at once |
| `Requests.CutsDoNotMatter` | redis/src/networking.c:944-981 | so without the limits only the bytes matter, and not how they were cut into reads |
| `Requests.ProcessIsRun` | redis/src/networking.c:767-772 | a size error is reported if and only if parsing stops in an unended line with more than 64k in the buffer; otherwise the result is that without limits |
| `Requests.CutsMatterAtLimitsOnly` | redis/src/networking.c:944-981 | for every byte stream, well formed or not, and every way to cut it into reads: the client comes to what the whole stream means if and only if no limit fires at the end of a read |
| `Requests.LongLineDependsOnCuts` | redis/src/networking.c:767-772 | concrete failure: an inline line a little longer than 64k is executed or refused depending on one cut |
| `Requests.BufferedArgumentsHitLimit` | redis/src/networking.c:861-869 | a command whose first arguments, all small, are in the buffer and nothing of the next one: the limit on the count line fires if and only if they are longer than 64k together |
| `Requests.ThreeArgumentsHitLimit` | redis/src/networking.c:861-869 | concrete failure: three buffered arguments of 30000 bytes are an error |
| `Requests.CommandsAreExecuted` | redis/src/networking.c:944-981 | for every list of multibulk commands and every split of their bytes: exactly these argument vectors, binary safe, nothing left over; with the reads the server makes, limits included |
| `Requests.OrderlyIsRoomy` | redis/src/networking.c:983-1004 | the way reads are sized keeps orderly streams away from the buffer limits |
| `Requests.LineIsExecuted` | redis/src/networking.c:760-797 | an inline line of words is the command of these words; an empty one is none |
| `Requests.Client.ReadCount` | redis/src/networking.c:817-856 | the first line of a request, its error cases and its limit |
| `Requests.Client.ReadBulkLength` | redis/src/networking.c:861-903 | the line before an argument, its error cases and its limit as in the reference parser (on bytes: `Protocol.LengthIsRead`, `Protocol.LengthIsBroken`), and the move of large arguments to the front |
| `Requests.Client.ReadBulk` | redis/src/networking.c:906-931 | an argument that has arrived, copied or taken over with the whole buffer |
| `Requests.Client.ProcessMultibulkBuffer` | redis/src/networking.c:812-942 | the loop with its cursor into the buffer computes the reference parser with its limits, errors included |
| `Requests.Client.ProcessInlineBuffer` | redis/src/networking.c:760-797 | the same for inline requests |
| `Requests.Client.ProcessInputBuffer` | redis/src/networking.c:944-981 | new state, error and unread rest are exactly those of the reference parser with its limits; a size error if and only if a limit fires |
| `Requests.Client.ReadQueryFromClient` | redis/src/networking.c:983-1040 | the same after appending what was read |
| `Requests.Client.ReadQueries` | redis/src/networking.c:983-1040 | the same for any number of reads, one after the other |
| `Requests.ReceiveCommands` | redis/src/networking.c:983-1040 | a new client that is sent commands in reads the server can make hands over exactly these commands |
| `Protocol.MalformedRequest` | redis/src/networking.c:859-888 | a request of which some arguments arrive and then a line that is not `$` and a number from 0 to 512 MB: nothing of it is executed, the error is that of the line, and parsing stops there |
| `Protocol.MalformedExecutesNothing` | redis/src/networking.c:859-888 | however such a request is cut into reads, nothing more is executed |
| `Protocol.OnlyFromStream` | redis/src/networking.c:944-981 | for every byte stream and every way to cut it, limits included: the commands executed are the first ones of those the bytes stand for |
| `Protocol.CommandIsExecuted` | redis/src/networking.c:944-981 | a command of at most 1024 * 1024 arguments of at most 512 MB each is executed |
| `Protocol.FirstByteDecides` | redis/src/networking.c:954-961 | a request that starts with `*` is multibulk, any other inline |
| `Protocol.CountIsRead` | redis/src/networking.c:838-856 | a number of arguments above 1024 * 1024 is an error, 0 or less is nothing to execute |
| `Protocol.CountIsNoNumber` | redis/src/networking.c:838-843 | a count that is no number is an error |
| `Protocol.LengthIsRead` | redis/src/networking.c:883-902 | a length from 0 to 512 MB is taken, any other is an error; from 32k on the argument moves to the front of the buffer |
| `Protocol.LengthIsBroken` | redis/src/networking.c:875-888 | a line that does not start with `$` names its first byte in the error, one that is no number is an invalid length |
| `Protocol.ArgumentIsTaken` | redis/src/networking.c:906-938 | an argument is taken with two more bytes, which are not looked at; the last one completes the command |
| `Protocol.ArgumentIsMissing` | redis/src/networking.c:906-908 | an argument that has not arrived with two more bytes is waited for |
| `Protocol.LineIsMissing` | redis/src/networking.c:862-873 | a line is waited for, unless there is no carriage return and more than 64k in the buffer |
| `Protocol.RequestIsMissing` | redis/src/networking.c:766-773 | the same for inline requests, which end with CR LF |
| `Protocol.RequestIsExecuted` | redis/src/networking.c:775-796 | an inline request is executed as the command of its words, if it has any |
| `Protocol.SpaceSeparates` | redis/src/networking.c:777-794 | words stand between spaces, any number of them |
| `Protocol.FirstCrIs` | redis/src/networking.c:822 | `strchr` finds the first carriage return in front of any NUL byte, or nothing |
| `Protocol.FirstCrLfIs` | redis/src/networking.c:761 | `strstr` likewise |
| `Replies.DeferredIsEager` | redis/src/networking.c:341-376 | lengths filled in later, in any order and nesting, give the byte stream that writing them at once would have given |
| `Replies.Client.NothingLost` | redis/src/networking.c:665-748 | bytes sent, then the unsent rest of the static buffer and the reply list, are everything added, in order |
| `Replies.Client.AddReplyToBuffer` | redis/src/networking.c:125-140 | accepts exactly what fits while the list is empty |
| `Replies.Client.AddReplyToList` | redis/src/networking.c:142-233 | extends the last chunk or starts one; the stream grows by the text |
| `Replies.Client.AddReplyString` | redis/src/networking.c:290-294 | the stream grows by the text, in the buffer or in the list |
| `Replies.Client.AddReplyInteger` | redis/src/networking.c:240-274 | the stream grows by the decimal form |
| `Replies.Client.AddDeferredMultiBulkLength` | redis/src/networking.c:343-350 | opens a place in the stream |
| `Replies.Client.SetDeferredMultiBulkLength` | redis/src/networking.c:353-376 | writes the length at its place, glued to the next chunk or not, without disturbing the rest |
| `Replies.Client.SendReplyToClient` | redis/src/networking.c:665-748 | for arbitrarily short writes: nothing is added or lost, what was sent only grows, and it stops only when all is sent, a write fails or the per-event limit is exceeded |
| `Replies.Client.OpenNodes` | redis/src/networking.c:343-376 | a length is open in the stream exactly when the list has an empty node for it |
| `Replies.HeaderStartsCommand` | redis/src/networking.c:361 | the header filled in and the elements are the multi bulk text |
| `Replies.Converse` | redis/src/networking.c:665-748 | for every interleaving of replies, lengths filled in later and arbitrarily short writes, what was sent and what is left are the bytes of the replies with every length written at once |
| `Keyspace.LoggedIsFaithful` | redis/src/aof.c:355-386 | replaying what is logged does what the command does at the time that counts: the time of logging for the commands translated to PEXPIREAT, the time of loading for RESTORE |
| `Keyspace.LoggedAtLaterTime` | redis/src/aof.c:325-350 | the log restores what any command did if and only if it was in time: no relative time, or equal clock readings, or EXPIRE without a key, or RESTORE that creates nothing or nothing that expires |
| `Keyspace.RestoredAgain` | redis/src/migrate.c:119-122 | concrete failure: RESTORE with a time to live is logged as it came, so the key lives as long again from the moment the log is loaded |
| `Keyspace.InTimeMeans` | redis/src/migrate.c:86-126 | the same condition, on what executing the command at the two times does |
| `Keyspace.ExecuteKeepsSame` | redis/src/aof.c:325-350 | whatever the clock readings, the same keys and values result |
| `Keyspace.SelectSelects` | redis/src/aof.c:355-368 | the SELECT that is logged selects the database |
| `Keyspace.ExpireatIsPexpireat` | redis/src/aof.c:333-337 | EXPIREAT in seconds executes and is logged as PEXPIREAT in milliseconds |
| `Keyspace.ExpireIsPexpireat` | redis/src/aof.c:333-343 | EXPIRE and PEXPIRE execute and are logged as PEXPIREAT of now and so many seconds or milliseconds |
| `Keyspace.SetexIsSetAndPexpireat` | redis/src/aof.c:374-381 | SETEX and PSETEX execute and are logged as SET and then the same |
| `Keyspace.SetAndPexpireat` | redis/src/db.c:509-551 | SET replaces the value and forgets the expire time; PEXPIREAT changes the expire time of a key that exists |
| `Keyspace.RestoreCases` | redis/src/migrate.c:86-126 | when RESTORE does nothing, and what it creates otherwise |
| `Keyspace.ItemsAreAdded` | redis/src/t_list.c:261-303 | RPUSH and SADD extend the value, create it, or refuse a value of another kind |
| `Keyspace.FieldsAreSet` | redis/src/t_hash.c:467-485 | so does HMSET |
| `Keyspace.LaterValueCounts` | redis/src/t_hash.c:467-485 | a field mentioned twice has its later value |
| `AofRewrite.RewriteIsFaithful` | redis/src/aof.c:809-888 | the rewritten log replays to the dataset if and only if no key had expired when rewriting started |
| `AofRewrite.RewriteRestores` | redis/src/aof.c:871-879 | an expired key is emitted without its expire time, so it is restored for ever |
| `AofRewrite.ChunksMerge` | redis/src/aof.c:573-804 | commands of at most 64 items each do together what one command with all items would |
| `AofRewrite.SixtyFourEach` | redis/src/aof.c:573-626 | all commands but the last have exactly 64 items, in order |
| `AofRewrite.MergeCreates` | redis/src/aof.c:573-804 | all items under a new key make the value |
| `AofRewrite.RewriteCollection` | redis/src/aof.c:573-804 | the emission loop with `count` and `items` writes exactly these commands |
| `AofRewrite.RewriteEntry` | redis/src/aof.c:839-879 | value and expire time of one key |
| `AofRewrite.RewriteAppendOnlyFile` | redis/src/aof.c:809-888 | the file is the encoding of the rewritten log |
| `AofBuffer.RewriteBuffer.Append` | redis/src/aof.c:60-97 | the blocks hold what was appended, in order |
| `AofBuffer.RewriteBuffer.Write` | redis/src/aof.c:102-117 | writes exactly the contents |
| `AofBuffer.RewriteBuffer.Size` | redis/src/aof.c:48-57 | counting every block but the last as full is right |
| `AofBuffer.RewriteBuffer.Reset` | redis/src/aof.c:39-45 | empty |
| `Aof.FedRestores` | redis/src/aof.c:355-404 | logging a command, with SELECT when the database changes, extends a log by what executing it at the time that counts does |
| `Aof.KeepsStep` | redis/src/aof.c:355-404 | a command executed at one time, logged at another and loaded at a third: the log stays equal to the dataset up to expire times, and equal to it if and only if the command was in time |
| `Aof.RewriteKeeps` | redis/src/aof.c:809-888 | the rewrite of a dataset replays to its values, and to itself if and only if no key had expired |
| `Aof.CatAppendOnlyGenericCommand` | redis/src/aof.c:293-320 | appends the command in the protocol |
| `Aof.CatAppendOnlyExpireAtCommand` | redis/src/aof.c:325-350 | appends PEXPIREAT with the absolute time: 1000 n for EXPIREAT, now plus 1000 n for EXPIRE and SETEX, now plus n for PEXPIRE and PSETEX |
| `Aof.FedBytes` | redis/src/aof.c:355-386 | the bytes appended are the encoding of the commands logged |
| `Aof.SelectOnlyOnChange` | redis/src/aof.c:361-368 | SELECT is logged exactly when the database changes |
| `Aof.Server.LogIsDataset` | redis/src/aof.c:355-404 | while AOF is on, in every reachable state and for any time of loading, file and buffer together replay to the live dataset up to expire times, and to the dataset itself as long as every command was in time |
| `Aof.Server.Call` | redis/src/redis.c:1452-1459 | a command keeps file plus buffer, and child file plus rewrite buffer, near the dataset; each stays equal to it if and only if the command was in time |
| `Aof.Server.FeedAppendOnlyFile` | redis/src/aof.c:355-404 | the same step without the dirty check |
| `Aof.Server.FlushAppendOnlyFile` | redis/src/aof.c:200-285 | moves the buffer to the file |
| `Aof.Server.RewriteAppendOnlyFileBackground` | redis/src/aof.c:922-963 | after a fork the rewrite of the snapshot and an empty difference restore the dataset, exactly if no key had expired; `aof_selected_db = -1` forces a SELECT |
| `Aof.Server.StartAppendOnly` | redis/src/aof.c:163-195 | waits for the first rewrite when one could be started |
| `Aof.Server.StopAppendOnly` | redis/src/aof.c:136-159 | flushes and kills a running child |
| `Aof.Server.BackgroundRewriteDoneHandler` | redis/src/aof.c:1002-1136 | success swaps the files and loses and repeats no command, and the file is then as near to the dataset as the rewrite was; every failure leaves the old file and buffer as they were |
| `Aof.Server.SwitchTo` | redis/src/aof.c:1071-1108 | after the swap the buffer can be discarded because the new file has its commands already |
| `AofLoad.LoadAppendOnlyFile` | redis/src/aof.c:446-557 | a file cut off anywhere from a log: exactly its complete commands are executed, and the load succeeds exactly when no partial command follows them; a log followed by something that is no command is executed and refused |
| `AofLoad.ReadCommand` | redis/src/aof.c:480-509 | reads one command and stops behind it, or fails when it is incomplete; a first line that is not `*` and a positive number is a format error |
| `AofLoad.ReadArgument` | redis/src/aof.c:496-504 | reads one argument; a line that is not `$` and a number is a format error |
| `AofLoad.AtoiOfShow` | redis/src/aof.c:489-500 | a printed length is read back up to the end of the line |
| `Replication.Master.SlaveCatchesUp` | redis/src/replication.c:10-42 | in every reachable state, every sound slave that loads the file it is sent and executes its output has the master's dataset, with `slaveseldb` selected; `SyncCommand` and `BackgroundSaveDoneHandler` say exactly when a slave stays sound |
| `Replication.CarriesMore` | redis/src/replication.c:10-42 | the bytes fed are read by the slave as exactly SELECT, when needed, and the command |
| `Replication.FollowsOn` | redis/src/replication.c:10-42 | the commands fed keep snapshot plus log equal to the dataset, and `slaveseldb` equal to the database selected |
| `Replication.Slave.Feed` | redis/src/replication.c:17-41 | one slave's output, log and `slaveseldb` |
| `Replication.Master.ReplicationFeedSlaves` | redis/src/replication.c:10-42 | every slave but those waiting for a save to start is fed |
| `Replication.Master.Call` | redis/src/redis.c:1452-1459 | a command keeps every sound slave in step |
| `Replication.Master.SyncCommand` | redis/src/replication.c:83-146 | who joins in which state; a slave that takes over another one's output is in step if and only if that one had `slaveseldb` 0 |
| `Replication.Master.UpdateSlavesWaitingBgsave` | redis/src/replication.c:247-297 | in plain terms: after a good save exactly the waiting slaves whose dump can be opened go to SEND_BULK from its first byte, the others that wait are freed, those waiting for a save to start wait for the next one, and all others stay as they are; in step afterwards except after a save that was not good or a failed fork, which frees nobody |
| `Replication.Master.BackgroundSaveDoneHandler` | redis/src/rdb.c:1143-1165 | the same at the end of a BGSAVE, with the file it saved; a served slave is in step if and only if the child was not killed or its log replays the older dump to the dataset as well |
| `Replication.Master.SendBulkToSlave` | redis/src/replication.c:188-239 | what has been transferred is always the length and the file up to `repldboff`; when the slave is freed and when it goes online |
| `Replication.BulkIsArgument` | redis/src/replication.c:188-239 | the whole transfer is the file as one argument of the protocol, without an end of line |
| `Replication.SelectOnlyOnChange` | redis/src/replication.c:23-37 | SELECT is sent, as an inline request, exactly when the database changes |
| `Replication.CopiedSelectionMatters` | redis/src/replication.c:116-143 | concrete failure: output copied from a slave with another database selected makes the next SET go astray |
| `Replication.ServesInStepUnlessKilled` | redis/src/rdb.c:1143-1165 | whatever was saved, fed and on disk before, waiting slaves are in step after they were served, if and only if the child was not killed |
| `Replication.ReplayedTwice` | redis/src/rdb.c:1143-1165 | concrete failure: a push fed since the fork is replayed on an older dump that holds its effect |
| `Replication.DumpMayDiffer` | redis/src/rdb.c:1143-1165 | an older dump can serve although it is not the dataset |
| `Replication.StrandedServedUnlessFed` | redis/src/replication.c:283-296 | serving a slave stranded by a failed fork the dump of a later one is right in every history if and only if nothing is fed to it in between |
| `Replication.StrandedSlaveDiverges` | redis/src/replication.c:283-296 | concrete failure: a push fed to it happens twice |
| `Replication.SavedFileDumps` | redis/src/rdb.c:601-668 | a file saved when no key had expired loads to the dataset on a slave, at any time |
| `RdbStrings.LengthRoundTrip` | redis/src/rdb.c:53-110 | every length below 2^32 is read back from its 6, 14 or 32 bit form, with the bytes after it untouched |
| `RdbStrings.IntegerRoundTrip` | redis/src/rdb.c:112-162 | 8, 16 and 32 bit integers are read back as the same text |
| `RdbStrings.LzfSaves` | redis/src/rdb.c:183-236 | the compressed form of a string is loaded back as the string if and only if its length is not 2^32-1 |
| `RdbStrings.VerbatimSaves` | redis/src/rdb.c:241-269 | so is the plain form; a string of 2^32-1 bytes is read as an error |
| `RdbStrings.LengthForms` | redis/src/rdb.c:53-77 | the bytes of a length: 6 bits, 14 bits behind 01, or 32 bits behind the byte 128 |
| `RdbStrings.IntegerForms` | redis/src/rdb.c:112-132 | an integer has the shortest of its three forms, if it has one |
| `RdbStrings.StringExtends` | redis/src/rdb.c:304-330 | a string that has been read is read the same with more bytes behind it |
| `RdbStrings.SaveLzfString` | redis/src/rdb.c:183-218 | compresses or declines, for any state of the compressor's table; a compressed form is at least four bytes shorter, and a run of more than 20 equal bytes is never declined |
| `RdbStrings.SaveRawString` | redis/src/rdb.c:241-269 | loaded back if and only if the length is not 2^32-1; a number of 32 bits in its integer form, otherwise as it is or, with compression and more than 20 bytes, compressed, which a run of equal bytes always is |
| `RdbStrings.SaveLongLong` | redis/src/rdb.c:274-290 | loaded back; in integer form exactly when 32 bits suffice |
| `RdbStrings.SaveString` | redis/src/rdb.c:293-302 | the same for string objects of both representations |
| `Rdb.CollectionSaved` | redis/src/rdb.c:449-563 | the elements saved one by one load back as the list, set or hash if and only if their number is not 2^32-1 |
| `Rdb.TimeRoundTrip` | redis/src/rdb.c:39-48 | a millisecond time is read back |
| `Rdb.EntryRoundTrip` | redis/src/rdb.c:582-599 | one key is loaded back with its value and expire time, -1 being none, or skipped when expired at saving or, on a master, at loading |
| `Rdb.BackIsKept` | redis/src/rdb.c:582-599 | the keys that come back are those that should if and only if no expire time is -1 |
| `Rdb.KeptMeans` | redis/src/rdb.c:582-599 | which keys should come back: those that had not expired when saved or, on a master, when loaded |
| `Rdb.DbsRoundTrip` | redis/src/rdb.c:626-661 | the databases are loaded back one after the other |
| `Rdb.FileRoundTrip` | redis/src/rdb.c:601-668 | loading what was saved gives the same databases minus expired keys, with any checksum setting on either side, and leaves trailing bytes untouched, if and only if no expire time is -1; such a key comes back without one. What the checksum refuses is in `Rdb.ChecksumIsVerified` and `Rdb.ChangedFileIsRefused` |
| `Rdb.RoundTrip` | redis/src/rdb.c:601-668 | saving and loading in one, on the bytes the loops write |
| `Rdb.ChecksumIsVerified` | redis/src/rdb.c:1118-1130 | whatever file of version 5 or later is loaded with verification, the 8 bytes behind its end mark are 0 or the checksum of all bytes before them |
| `Rdb.ChangedFileIsRefused` | redis/src/rdb.c:1118-1130 | a file with a sum in it whose body was changed to another readable one with another checksum is refused |
| `Rdb.ShortDamageIsNoticed` | redis/src/rdb.c:1118-1130 | with the checksum of the server, changing the body within any eight consecutive bytes is enough for that |
| `Rdb.TruncatedFileIsRefused` | redis/src/rdb.c:1118-1140 | a saved file that was cut off anywhere is refused, unless only part of its checksum is missing and sums are not verified |
| `Rdb.EntriesExtend` | redis/src/rdb.c:1055-1117 | whatever is decided before the bytes of a file run out stays decided with more of them |
| `Rdb.HeaderIsChecked` | redis/src/rdb.c:1038-1052 | signature and version; before version 5 there is no sum |
| `Rdb.MarksAreRead` | redis/src/rdb.c:1082-1095 | the end mark ends the file, and a database must exist to be selected |
| `Rdb.TimesAreRead` | redis/src/rdb.c:1067-1080 | a time in seconds is read as one in milliseconds, -1 is an error in both forms |
| `Rdb.UnknownTypes` | redis/src/rdb.c:1097-1099 | a type that the format does not have is an error |
| `Rdb.EntryIsStored` | redis/src/rdb.c:1096-1117 | the bytes of an entry, and that it goes to the selected database unless it has expired on a master |
| `Rdb.SaveObject` | redis/src/rdb.c:449-563 | the loops write a form that loads back |
| `Rdb.SaveKeyValuePair` | redis/src/rdb.c:582-599 | the same for a key; nothing is written exactly if it has expired |
| `Rdb.SaveDb` | redis/src/rdb.c:636-655 | the same for a database |
| `Rdb.Save` | redis/src/rdb.c:601-668 | the same for the file |
| `Rdb.ReadCollection` | redis/src/rdb.c:750-905 | the loops that add one element at a time build the collection |
| `Rdb.ReadObject` | redis/src/rdb.c:732-993 | reads one object |
| `Rdb.ReadEntries` | redis/src/rdb.c:1055-1117 | the loading loop refines the recursive reading of the stream |
| `Intset.Intset.constructor` | redis/src/intset.c:67-72 | the empty set, 16 bits wide |
| `Intset.Intset.Search` | redis/src/intset.c:85-125 | finds the value, or the position where it belongs |
| `Intset.Intset.Find` | redis/src/intset.c:224-227 | membership; not searching for wider values is sound |
| `Intset.Intset.Add` | redis/src/intset.c:174-201 | the bytes encode the set with the value added, strictly increasing; tells whether it was new; widens only when needed |
| `Intset.Intset.UpgradeAndAdd` | redis/src/intset.c:127-150 | widening in place keeps every element and puts the value at the end it belongs to |
| `Intset.Intset.Widen` | redis/src/intset.c:136-141 | back to front, no word is overwritten before it is read |
| `Intset.WidenStep` | redis/src/intset.c:136-141 | one step of it, on bytes |
| `Intset.OutOfRange` | redis/src/intset.c:127-150 | a value that needs a wider encoding is smaller or larger than every element |
| `Intset.EncodingIsTight` | redis/src/intset.c:15-22 | an encoding holds exactly the values that ask for it or a narrower one |
| `Intset.Intset.MoveTail` | redis/src/intset.c:152-171 | the tail's bytes move, overlapping or not |
| `Intset.Intset.Remove` | redis/src/intset.c:204-221 | the bytes encode the set without the value; tells whether it was there |
| `Intset.Intset.Resize` | redis/src/intset.c:75-79 | keeps the bytes that fit |
| `Words.BytesRoundTrip` | redis/src/intset.c:25-64 | storing and fetching a word of any width gives the number back |
| `Words.LowByteFirst` | redis/src/intset.c:25-64 | the number in 1, 2, 4 or 8 bytes, written out |
| `Multi.DirtyMeansTouched` | redis/src/multi.c:214-230 | the flag computed event by event says exactly that a key was touched while watched since the last clearing |
| `Multi.WatchedAfterIs` | redis/src/multi.c:155-184 | a key is watched exactly when it was asked for and nothing cleared since |
| `Multi.Server.WatchForKey` | redis/src/multi.c:155-184 | adds to both lists, once |
| `Multi.Server.WatchCommand` | redis/src/multi.c:260-270 | refused inside MULTI; otherwise exactly the given keys are added |
| `Multi.Server.UnwatchAllKeys` | redis/src/multi.c:186-210 | empties the watch list and removes the client from every index list, deleting empty lists |
| `Multi.Server.UnwatchCommand` | redis/src/multi.c:272-276 | clears list and flag |
| `Multi.Server.TouchWatchedKey` | redis/src/multi.c:214-230 | flags exactly the clients watching the key |
| `Multi.Server.TouchWatchedKeysOnFlush` | redis/src/multi.c:237-258 | flags exactly the clients watching an existing key of the flushed database, or with -1 of any database |
| `Multi.Server.DiscardTransaction` | redis/src/multi.c:43-48 | drops queue, flag and watches |
| `Multi.Server.MultiCommand` | redis/src/multi.c:50-57 | does not nest |
| `Multi.Server.DiscardCommand` | redis/src/multi.c:59-66 | the same, refused outside MULTI |
| `Multi.Server.ExecCommand` | redis/src/multi.c:80-131 | executes its queue, whole and in order, if and only if no watched key was touched since it was watched; otherwise nothing |
| `Multi.Server.QueueMultiCommand` | redis/src/multi.c:27-41 | appends to the queue |
| `Multi.Server.FreeClient` | redis/src/networking.c:564-600 | a freed client leaves every index list |
| `Crc64.ReflectedPolynomial` | redis/src/crc64.c:1-11 | the constant used is the header's polynomial with its bits reversed |
| `Crc64.TableIsDivision` | redis/src/crc64.c:42-171 | all 256 entries are what dividing the byte by the polynomial leaves |
| `Crc64.TableRoundDivides` | redis/src/crc64.c:173-182 | one round with the table is eight bit-serial steps |
| `Crc64.Crc64` | redis/src/crc64.c:173-182 | the loop computes the bit-serial checksum |
| `Crc64.SerialConcat` | redis/src/crc64.c:173-182 | chunked updates equal one update over the concatenation |
| `Crc64.SerialIsLinear` | redis/src/crc64.c:173-182 | the checksum of a difference is the difference of the checksums |
| `Crc64.ShortChangesAreNoticed` | redis/src/crc64.c:173-182 | messages of one length that differ only within eight consecutive bytes have equal checksums if and only if they are equal |
| `Crc64.CreatedIsAccepted` | redis/src/migrate.c:10-36 | a created payload is accepted |
| `Crc64.OnlyCreatedIsAccepted` | redis/src/migrate.c:43-60 | nothing but a created payload is: its version and its checksum are checked |
| `Crc64.ChangedPayloadIsRejected` | redis/src/migrate.c:43-60 | changing at most eight consecutive bytes of the body is rejected |
| `Bitops.WordCounted` | redis/src/bitops.c:47-58 | counting in all groups of a word at once counts its bits |
| `Bitops.Popcount` | redis/src/bitops.c:31-64 | 16 bytes at a time and then the rest: the number of bits set |
| `Bitops.WordIsBytes` | redis/src/bitops.c:241-288 | a word-wise operation is the byte-wise one |
| `Bitops.FastBlock` | redis/src/bitops.c:241-288 | the fast path computes every byte of its blocks as the byte loop would |
| `Bitops.SlowByte` | redis/src/bitops.c:293-304 | the byte loop over zero-padded sources |
| `Bitops.BitsOfResult` | redis/src/bitops.c:293-304 | a bit of the result is set when all, some, an odd number or none of the sources have it, for AND, OR, XOR and NOT |
| `Bitops.Bitop` | redis/src/bitops.c:188-305 | for sources of any number and lengths the result has the longest length and every byte is the byte-wise operation over zero-padded sources |
| `Adlist.List.constructor` | redis/src/adlist.c:41-51 | the empty list |
| `Adlist.List.AddNodeHead` | redis/src/adlist.c:80-98 | a new node in front; the links stay those of the sequence |
| `Adlist.List.AddNodeTail` | redis/src/adlist.c:106-124 | the same at the end |
| `Adlist.List.InsertNode` | redis/src/adlist.c:126-153 | the same next to any node |
| `Adlist.List.DelNode` | redis/src/adlist.c:159-172 | exactly that node leaves the sequence |
| `Adlist.List.Rotate` | redis/src/adlist.c:328-341 | the tail becomes the head |
| `Adlist.List.Dup` | redis/src/adlist.c:242-274 | a fresh list of the same values |
| `Adlist.List.SearchKey` | redis/src/adlist.c:285-306 | the first node with the value, or none |
| `Adlist.List.Index` | redis/src/adlist.c:313-325 | counting from either end |
| `Adlist.Iterator.Next` | redis/src/adlist.c:221-232 | the node at the iterator's place; the iterator moves on |
| `Adlist.DeletionKeepsPlace` | redis/src/adlist.c:207-232 | deleting the node just returned leaves the iterator at the one that followed it |
| `Bio.RunsInOrder` | redis/src/bio.c:94-163 | over every interleaving of producers and worker: jobs run exactly once, in order of submission; the counter is the length of the list; no wake-up is lost |
| `Bio.WorkerDrains` | redis/src/bio.c:128-151 | left alone, the worker runs all jobs that wait and then sleeps with nothing pending |
| `Bio.Queue.constructor` | redis/src/bio.c:61-92 | no jobs |
| `Bio.Queue.CreateBackgroundJob` | redis/src/bio.c:94-106 | appends a node; the one the worker holds keeps its place |
| `Bio.Queue.Pop` | redis/src/bio.c:128-140 | waits when there is no job, otherwise holds the first one |
| `Bio.Queue.WakeUp` | redis/src/bio.c:132-135 | a wake-up, spurious or not, looks at the list again |
| `Bio.Queue.Process` | redis/src/bio.c:141-149 | runs the job without touching list or counter |
| `Bio.Queue.Finish` | redis/src/bio.c:151-154 | the node deleted is the one that was taken, which is still the head |
| `Bio.Queue.PendingJobsOfType` | redis/src/bio.c:157-163 | counts the job in progress |
| `Lzf.EmitReference` | redis/src/lzf_c.c:214-224 | two or three bytes that are the rendered reference |
| `Lzf.Reseed` | redis/src/lzf_c.c:232-247 | only the last two positions of a match are entered into the table |
| `Lzf.CompressBody` | redis/src/lzf_c.c:142-274 | the main loop keeps the invariant up to the last two bytes, or reports that the output is full; a run of equal bytes never fills it |
| `Lzf.DecompressStep` | redis/src/lzf_d.c:64-146 | one pass of the loop: the same output, cursor and error as one decoding step |
| `Lzf.CopyReference` | redis/src/lzf_d.c:133-143 | copies byte by byte out of its own output |
| `Intset.Intset.GetAt` | redis/src/intset.c:25-48 | the number at a position |
| `Intset.Intset.SetAt` | redis/src/intset.c:51-64 | overwrites exactly the bytes of one position |
| `Multi.Server.Connect` | redis/src/networking.c:23-90 | a new client watches nothing and is not flagged |
| `Replication.Master.RdbSaveBackground` | redis/src/rdb.c:689-721 | the child holds the dataset as it is at the fork |
| `Replication.Master.StartNextSave` | redis/src/replication.c:283-296 | the end of the update: the next save, or the slaves that are stranded, and not in step, when it cannot be forked |
| `Replication.Slave.SendPiece` | redis/src/replication.c:188-239 | the offset moves by what was written, and the slave goes online at the end of the file |
| `Dict.Iterator.constructor` | redis/src/dict.c:464-482 | an iterator before its first entry, not counted yet |
| `SafeIteration.Loop.constructor` | redis/src/dict.c:477-501 | a loop with a safe iterator starts with every entry of the dictionary to come |
| `SafeIteration.Loop.Next` | redis/src/dict.c:484-513 | on the heap, `dictNext` keeps every initial entry either returned or to come; when it returns none they have all been returned |
| `SafeIteration.Loop.Add` | redis/src/dict.c:294-316 | on the heap, adding in the loop keeps that, also when it starts an expansion |
| `SafeIteration.Loop.Replace` | redis/src/dict.c:323-344 | so does replacing |
| `SafeIteration.Loop.Find` | redis/src/dict.c:436-455 | so does looking up |
| `SafeIteration.Loop.DeleteReturned` | redis/src/dict.c:357-392 | so does deleting the entry just returned |
| `SafeIteration.Loop.Release` | redis/src/dict.c:515-520 | the iterator is not counted any more |
| `SafeIteration.Loop.NoneTwice` | redis/src/dict.c:484-513 | at every moment no entry has been returned twice |
| `Adlist.Iterator.constructor` | redis/src/adlist.c:178-205 | at the first or the last node |

## Left out

- Lzf.Compress: inputs of one byte, for which the loop condition `in_end - 2` points before the input; the caller never compresses fewer than 21 bytes.
- Lzf.Compress: addresses are numbers, `base` being the address of the input; inputs that start below address 8192 or wrap past 2^64 are excluded.
- Pqsort.Pqsort: elements are swapped as values; the choice between word-wise and byte-wise copying (`swaptype`) and the pivot's quality do not appear.
- Dict.Dict.ExpandTo: sizes near `LONG_MAX`, where the next power of two is cut off.
- `dictRandomKey`, `dictRelease`, `dictRehashMilliseconds` and unsafe iterators mixed with changes: no further property, or excluded by their documentation.
- The hash function is an arbitrary pure function of the key, and keys are values compared with equality.
- Requests.Client.ProcessInputBuffer: blocked clients, which are not parsed while their buffer grows, commands that return an error from `processCommand`, and the limit on the whole query buffer that closes a client (`networking.c:1030-1039`).
- Replies.Client.SendReplyToClient: reference counts, shared objects and output limits; a node of the reply list is known by a number instead of its address.
- Keyspace.Execute: keys that expire while commands run; scripts, which may set expire times and are logged as EVAL (`scripting.c:256`); an expire command whose time has passed on a master is replaced by DEL (`db.c:532-544`) before it is propagated; the command is taken as it is after the replacement.
- Keyspace.Replay: loading reads the clock as one time, and finds no key expired.
- Keyspace.Apply: command names are taken in upper case, as the server writes them itself.
- AofRewrite.RewriteAppendOnlyFile: sorted sets, whose scores need double printing; values come as an iteration over their elements, not in their packed encodings.
- Aof.Server.FlushAppendOnlyFile: postponed flushes, fsync policies and incomplete writes.
- AofLoad.AtoiOfShow: the numbers are unbounded, while `atoi` returns an int and `strtol` a long.
- AofLoad.LoadAppendOnlyFile: the check for an unfinished MULTI at the end of a file, commands the server does not know, and `atoi` on leading white space and plus signs.
- Replication.Master.SyncCommand: a client whose static buffer holds unsent output, which the code does not look at (`replication.c:98`); its output is empty here.
- Replication.Master.constructor: a dump file that can be loaded is there from the start.
- Replication.Master.Call: commands whose effect is a function of the dataset; EXPIRE, SETEX and RESTORE, which a slave executes by its own clock, are taken to read the same time on both sides; dump files saved when no key had expired, and no SAVE that replaces the dump file before a slave has opened it.
- Replication.Master.SendBulkToSlave: `read` returns all it is asked for, and `write` takes at least one byte or fails.
- The slave side of replication (`replication.c:300-697`), monitors and output limits.
- RdbStrings.SaveLzfString: errors of the output stream, and with them the test of `rdbSaveLen` against -4; allocation failure.
- Rdb.SaveObject: ziplist, zipmap and intset blobs and sorted sets; lists, sets and hashes are in the element by element form.
- Rdb.FileRoundTrip: lengths of 2^32-1 and more are excluded from files.
- Rdb.LoadFile: the checksum is a parameter there, which `Rdb.ShortDamageIsNoticed` sets to that of `Crc64`. Types 3 and 9 to 13 are read as unknown.
- Intset.Intset.Add: lengths near 2^32 and big endian hosts.
- Multi.Server.ExecCommand: the MULTI that is propagated before the queue; which keys a command touches is a parameter.
- Crc64.CreateDumpPayload: the object inside is any byte string.
- Bitops.Popcount: the table `bitsinbyte` is the function `Ones` it tabulates; 32 bit overflow of `long` counts.
- Bitops.Bitop: parsing of the command, and keys that are not strings.
- Bio.Queue.Process: what a job does is a ghost log entry; there is one class for one job type, as the types share nothing.
- Adlist.List.Dup: the optional callbacks that copy, free and match values.
- `app/*.js`, the event loop, sockets, configuration, Lua, INFO, `redis-cli` and the benchmarks: nothing of this depth.
