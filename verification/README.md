# Redis 2.6.14, verified

A Dafny model of the self-contained algorithms and protocols of the Redis 2.6.14 server that is vendored in
this repository, with proofs that they do what they are for. The gallery application around it is not modelled.

Modules follow the source files; each is one file.

- `Bytes`, `Decimal`, `LittleEndian`: bytes, printed numbers (`util.c`), fixed width integers.
- `LzfFormat`, `LzfDecompress`, `LzfCompress` (`lzf_d.c`, `lzf_c.c`): the format as tokens and a decoder on
  values, and the two in-place programs on buffers. The compressor's hash table is arbitrary.
- `PartialSort` (`pqsort.c`): the sort on any element type and any total preorder.
- `DictSpec`, `DictProofs`, `DictSize`, `DictLoad`, `DictIteration`, `DictRehashIteration`,
  `DictSafeIteration`, `Dict` (`dict.c`): the two tables on values, their laws, how full they get, iteration,
  what a rehash does to it, and the object whose methods follow the code.
- `Resp`, `AofLoader`, `AofRewrite`, `AofCommands`, `AofProtocol`, `AofMeaning`, `AofProgress`, `Aof`
  (`aof.c`): printer and loader of commands, the dump of a dataset, the protocol of file, buffer, child and
  differences as steps, what the commands and the dump mean in plain terms, what the steps achieve, and the
  server object that takes them. Running a command is an abstract deterministic function; `Sane` says of it only what
  the dump needs of SET, RPUSH, SADD, ZADD, HMSET and PEXPIREAT, and that it keeps the number of databases;
  `AofCommands` has a table that does.
- `Requests`, `RequestErrors`, `ReadSizes`, `Networking`, `InlineRequests` (`networking.c`, reading): the parser
  on values, what it refuses, what the sizes of the reads guarantee, the client object, and lines of words.
- `Replies` (`networking.c`, writing): the reply buffer and list of a client.
- `Intset` (`intset.c`): the packed array, byte by byte.
- `Transactions`, `TransactionRuns`, `TransactionIsolation`, `TransactionData`, `Multi` (`multi.c`,
  `processCommand`): one step of the server, what whole runs mean, EXEC as one step, the same over a dataset with
  an arbitrary command table, and the server object.
- `Crc64Table`, `Crc64` (`crc64.c`, `rio.h`, `migrate.c`): the table, the checksum, streams, DUMP payloads.
- `RdbStrings`, `RdbObjects`, `Rdb`, `RdbIntset`, `Octet`, `RdbChecksum`, `RdbDump` (`rdb.c`, `migrate.c`):
  lengths and strings, values, files, packed sets of integers, what the checksum of a file protects, and DUMP
  with RESTORE. `Rdb` is proved for any checksum function; `RdbChecksum.FileSum` is the CRC.
- `KnownAnswers`: bytes of each format that do not depend on the model, such as the published check value of
  the CRC, so that writer and reader cannot agree on another format.
- `EventPort` (`ae_evport.c`, `ae.c`): the event loop's masks, the port and the pending slots.
- `Lrand48` (`rand.c`): the generator in limbs.

Objects that the source updates in place are classes whose methods are proved against functions on their
values; the theorems are about those functions, over every input, every run or every reachable state.
`dafny verify dfyconfig.toml` checks everything.

## Model

| member | source | states |
|---|---|---|
| LzfFormat.DecodeEncode | redis-2.6.14/src/lzf_d.c:64-148 | the decoder turns the encoding of any token sequence whose fields fit their bits, and whose back references reach only into what is already written, into exactly what the tokens stand for |
| LzfFormat.CopyIsPeriodic | redis-2.6.14/src/lzf_d.c:94-144 | a back reference copied byte by byte, even from bytes it has just written, continues the text exactly when the text repeats at that distance |
| LzfFormat.ReferenceFields | redis-2.6.14/src/lzf_c.c:214-224 | offsets below 8192 and lengths 3 to 264 fit the two or three bytes of a reference, and are read back from them |
| KnownAnswers.LzfTokens | redis-2.6.14/src/lzf_c.c:89-96 | the bytes of a literal run and of short, far and longest references |
| KnownAnswers.LzfText | redis-2.6.14/src/lzf_d.c:64-148 | six bytes that are decoded to aaaab |
| KnownAnswers.LzfHash | redis-2.6.14/src/lzf_c.c:47-53 | the slot of the octets abc |
| LzfDecompress.CopyRun | redis-2.6.14/src/lzf_d.c:68-93 | a literal run is copied in place; nothing behind it changes |
| LzfDecompress.CopyBack | redis-2.6.14/src/lzf_d.c:94-144 | the in-place copy from overlapping bytes equals the one-byte-at-a-time copy; nothing behind it changes |
| LzfDecompress.LiteralRun | redis-2.6.14/src/lzf_d.c:68-93 | one literal token on the buffers is one token of the decoder, with both error exits |
| LzfDecompress.BackReference | redis-2.6.14/src/lzf_d.c:94-144 | one back reference on the buffers is one token of the decoder, with all four error exits |
| LzfDecompress.Decompress | redis-2.6.14/src/lzf_d.c:55-149 | on any non-empty input, malformed or not: 0 exactly when the stream is not decodable into the buffer, else the decoded bytes, and no byte behind them is touched |
| LzfCompress.MatchLength | redis-2.6.14/src/lzf_c.c:168-209 | the unrolled comparison finds the longest match up to 264 bytes and never looks past the input |
| LzfCompress.TakeMatch | redis-2.6.14/src/lzf_c.c:152-227 | closing the run, emitting the reference and opening the next run appends one reference token for the matched bytes, within the space checked |
| LzfCompress.ScanTurn | redis-2.6.14/src/lzf_c.c:145-274 | one turn of the main loop: the candidate the table has is taken if and only if it lies before, inside the input and at most 8192 octets back, has the same three octets, and five octets are left; the reference is to it and the longest that fits the token and the input; the turn gives up exactly where the code checks the room |
| LzfCompress.Scan | redis-2.6.14/src/lzf_c.c:145-274 | for every content of the uninitialised hash table the bytes written so far encode tokens for the input read so far; no write goes beyond out_len + 1 bytes |
| LzfCompress.CopyRest | redis-2.6.14/src/lzf_c.c:276-292 | the tail of the input is appended as literals and fits |
| LzfCompress.Compress | redis-2.6.14/src/lzf_c.c:98-294 | a non-zero result is at most out_len and decodes to the input; it is non-zero whenever out_len is at least len + len/32 + 4; bytes from out_len + 1 on are untouched; for every hash table, and whatever byte follows an input of one byte |
| LzfCompress.RoundTrip | redis-2.6.14/src/lzf_c.c:98-294 | compressing and decompressing into a buffer of the original length gives the original length and bytes |
| PartialSort.InsertionSort | redis-2.6.14/src/pqsort.c:109-115 | the insertion sort of a range sorts it and permutes only it |
| PartialSort.Partition | redis-2.6.14/src/pqsort.c:128-155 | the two scans leave equal, smaller, greater and equal elements in four regions, a permutation of the range; it reports an exchange exactly when the elements after the pivot were not already smaller ones followed by greater ones, and without one nothing has changed |
| PartialSort.VecSwap | redis-2.6.14/src/pqsort.c:68-87 | the two stretches are exchanged element by element |
| PartialSort.Gather | redis-2.6.14/src/pqsort.c:164-168 | the equal elements end up in the middle, whatever the sizes of the regions |
| PartialSort.Turn | redis-2.6.14/src/pqsort.c:107-189 | one turn of the loop: the left part is sorted or skipped, the rest of the range is left for the next turn |
| PartialSort.SkippedIff | redis-2.6.14/src/pqsort.c:172-185 | a part of the range is skipped if and only if no position of it is in the window |
| PartialSort.Sort | redis-2.6.14/src/pqsort.c:99-189 | every position of the window holds what a full sort would put there, although ranges outside the window are skipped |
| PartialSort.PartialSort | redis-2.6.14/src/pqsort.c:191-197 | for any total preorder the array is permuted, the positions lrange..rrange are sorted, nothing before them is greater and nothing after them smaller |
| DictSpec.MaskIsMod | redis-2.6.14/src/dict.c:649-671 | masking a hash with size - 1 is the remainder by the size, for the sizes a table can have |
| DictProofs.RehashOneOk | redis-2.6.14/src/dict.c:243-280 | moving one bucket keeps every answer and the whole invariant (no key in both tables, empty buckets below rehashidx, exact counts), and the scan for a used bucket stays in bounds |
| DictProofs.RehashCompletes | redis-2.6.14/src/dict.c:243-280 | any number of steps keeps every answer; a rehash is over after at most old size + 1 of them |
| DictProofs.ResizeOk | redis-2.6.14/src/dict.c:198-237 | shrinking to the number of elements, which may begin a rehash, keeps the invariant and every answer |
| DictProofs.NextPowerIsPow2 | redis-2.6.14/src/dict.c:631-641 | the new size is the smallest doubling that is not below the size asked for |
| DictProofs.ExpandIfNeededOk | redis-2.6.14/src/dict.c:608-628 | growing, which may begin a rehash, changes no answer and leaves a bucket to insert into |
| DictProofs.AddOk | redis-2.6.14/src/dict.c:314-361 | dictAdd agrees with the finite map in every rehash state, also when looking for the bucket starts the rehash |
| DictProofs.ReplaceOk | redis-2.6.14/src/dict.c:367-386 | dictReplace overwrites or adds, and says which |
| DictProofs.DeleteOk | redis-2.6.14/src/dict.c:401-436 | dictDelete removes the key from the table that has it, and says whether one had |
| DictProofs.FindOk | redis-2.6.14/src/dict.c:480-499 | dictFind gives the value of the map and changes no answer |
| DictProofs.RunRefines | redis-2.6.14/src/dict.c:198-499 | over any run of finds, adds, replaces, deletes, resizes and direct rehash steps the dictionary gives the answers of a finite map and ends up standing for it |
| DictLoad.GrowsIff | redis-2.6.14/src/dict.c:608-628 | a dictionary begins to grow if and only if it has as many entries as buckets and may resize, or six times as many; the new table is the smallest power of two that is at least twice the entries |
| DictLoad.ResizesIff | redis-2.6.14/src/dict.c:198-207 | dictResize acts if and only if resizing is enabled and no rehash is under way; the table it asks for is the smallest power of two from four on that holds the elements |
| DictLoad.LoadBounded | redis-2.6.14/src/dict.c:243-628 | over any run of operations from an empty dictionary without safe iterators, rehashes under way included, the table that keys go to has at most six times as many entries as buckets, and at most twice as many and one when adds may always resize |
| DictSize.SizeIsExact | redis-2.6.14/src/dict.c:243-280 | in every state the counts of both tables add up to the number of keys of the map |
| Dict.Dictionary.ExpandTo | redis-2.6.14/src/dict.c:210-237 | refused exactly during a rehash or when the elements outnumber the size; else the new table is installed |
| Dict.Dictionary.ResizeToFit | redis-2.6.14/src/dict.c:198-207 | refused exactly where resizing is disabled or a rehash is under way; else the table asked for has room for the elements and at least four buckets |
| Dict.Dictionary.RehashSteps | redis-2.6.14/src/dict.c:243-280 | n turns of the loop that moves buckets entry by entry |
| Dict.Dictionary.RehashStep | redis-2.6.14/src/dict.c:309-311 | one turn, unless a safe iterator is alive |
| Dict.Dictionary.Locate | redis-2.6.14/src/dict.c:480-499 | the chains of one table, or of both during a rehash, are searched; what is found is the place of the key, what is not found is nowhere |
| Dict.Dictionary.AddEntry | redis-2.6.14/src/dict.c:314-361 | the object's map gains the key exactly when it was new; the tables change as specified |
| Dict.Dictionary.ReplaceEntry | redis-2.6.14/src/dict.c:367-386 | the object's map has the new value; true exactly when the key was new |
| Dict.Dictionary.DeleteEntry | redis-2.6.14/src/dict.c:401-436 | the object's map loses the key; true exactly when it was there |
| Dict.Dictionary.FindValue | redis-2.6.14/src/dict.c:480-499 | the value in the object's map, or none |
| DictIteration.NextOk | redis-2.6.14/src/dict.c:528-557 | dictNext returns an entry that was still to come, after it exactly the others are; it returns nothing only when nothing is left; it saves another entry as next |
| DictIteration.AddUndisturbed | redis-2.6.14/src/dict.c:314-361 | an insertion under a safe iterator, even one that begins a rehash, leaves the entries still to come in their order |
| DictIteration.UnlinkUndisturbed | redis-2.6.14/src/dict.c:401-436 | a deletion leaves the other entries still to come in their order |
| DictSafeIteration.SafeIteration | redis-2.6.14/src/dict.c:528-566 | between the first dictNext and the release, whatever lookups, insertions, replacements, resizes, permitted deletions, harmless rehash turns and other safe iterators happen, an entry present throughout is returned at most once, and exactly once when the iteration ends |
| DictSafeIteration.IterationRefines | redis-2.6.14/src/dict.c:528-566 | meanwhile the dictionary stands for the map that the operations make of it, and the iterators alive are those that have begun and not ended |
| DictSafeIteration.DeletingReturnedIsAllowed | redis-2.6.14/src/dict.c:528-557 | the entry returned last may always be deleted |
| DictRehashIteration.PointerNextIsNext | redis-2.6.14/src/dict.c:528-557 | dictNext with entry pointers followed to where the entries are, which is what counts once buckets move, agrees with the dictNext above while none has |
| DictRehashIteration.PointerNextComes | redis-2.6.14/src/dict.c:528-557 | the number of times a key is still to come (from the saved entry on, in the buckets ahead, in the second table) goes down by one exactly when dictNext returns it, and is zero when it returns nothing |
| DictRehashIteration.TurnHarmlessIff | redis-2.6.14/src/dict.c:243-280 | one turn of dictRehash leaves every key to come as often as before if and only if it is harmless: an iterator in the first table is not yet at the bucket that is moved, one in the second has passed all buckets the entries go to; when the second table takes the place of the first, one in the first table has no key behind it, one in the second none before it |
| DictRehashIteration.FirstTableTurn | redis-2.6.14/src/dict.c:243-280 | for an iterator in the first table past the bucket that is moved exactly the keys of that bucket come once more |
| DictRehashIteration.LastTurn | redis-2.6.14/src/dict.c:249-256 | the last turn makes an iterator in the first table miss exactly the keys of the buckets up to its own, one in the second table those of the buckets after its own |
| DictSafeIteration.RehashReturnsTwice | redis-2.6.14/src/dict.c:243-280 | from an empty dictionary: one key is added, a larger table asked for, a safe iterator returns the key, and after a dictRehash that is not allowed it returns it again |
| Dict.SafeIterator.Advance | redis-2.6.14/src/dict.c:528-557 | the loop over entries and buckets of one or two tables returns what the specification of dictNext says |
| Dict.SafeIterator.Release | redis-2.6.14/src/dict.c:559-566 | the count of safe iterators is given back exactly when it was taken |
| Decimal.LongLongToString | redis-2.6.14/src/util.c:220-239 | ll2string prints the decimal form of the number |
| Decimal.ParseLLIffDec | redis-2.6.14/src/util.c:244-305 | string2ll accepts exactly what ll2string prints of a long long, and gives that number |
| Decimal.StrtolReads | redis-2.6.14/src/aof.c:516-530 | a printed count followed by the end of its line is read back by atoi and strtol |
| Decimal.StrtolIs | redis-2.6.14/src/aof.c:516-530 | white space, one sign, digits and anything else after them: the value is that of the digits and the sign |
| Decimal.StrtolDec | redis-2.6.14/src/aof.c:353-382 | a printed number of either sign is read back, alone or followed by anything but a digit |
| Decimal.PrintedNumbers | redis-2.6.14/src/util.c:220-239 | three numbers and what is printed of them |
| Resp.CatCommand | redis-2.6.14/src/aof.c:322-345 | the printer appends the multi bulk form of the command, with the count of its arguments and each length |
| AofLoader.ParseReads | redis-2.6.14/src/aof.c:500-550 | the loader's grammar reads a printed command back, whatever follows, for every binary-safe argument |
| AofLoader.LoadReplays | redis-2.6.14/src/aof.c:476-572 | loading printed commands runs them in order, each in the database selected before it, and goes on with what follows |
| AofLoader.LoadFile | redis-2.6.14/src/aof.c:476-581 | the loops over commands and arguments are the grammar; a malformed file, an unknown command and a MULTI without its EXEC at the end are failures |
| AofMeaning.UnknownIsRefused | redis-2.6.14/src/aof.c:536-541 | wherever the command table has no such command, the load fails |
| AofMeaning.FirstDatabase | redis-2.6.14/src/aof.c:434-470 | the loader starts in the first of its databases, all of them empty |
| AofMeaning.MalformedIsRefused | redis-2.6.14/src/aof.c:521-523 | bytes that do not begin with a star are refused, and so is a count below one |
| AofMeaning.CommandBytes | redis-2.6.14/src/aof.c:322-345 | the bytes of SET key 'hello worlds' |
| AofMeaning.NamedIff | redis-2.6.14/src/redis.c:396-402 | names are compared letter by letter, upper and lower case alike |
| AofRewrite.GroupsBuild | redis-2.6.14/src/aof.c:603-703 | run on a key that is absent or partly built, the groups of at most 64 items build the object up exactly |
| AofRewrite.ObjRebuilds | redis-2.6.14/src/aof.c:603-830 | the commands of a string, list, set, sorted set or hash run on an absent key create that value and touch nothing else |
| AofRewrite.ListedRebuilds | redis-2.6.14/src/aof.c:892-928 | with the PEXPIREAT that follows a value with an expire time they create value and time |
| AofMeaning.ListBuilt | redis-2.6.14/src/aof.c:603-647 | the items of RPUSH are appended in their order |
| AofMeaning.SetBuilt | redis-2.6.14/src/aof.c:652-698 | the members after SADD are those before and its items |
| AofMeaning.PairsAdded | redis-2.6.14/src/aof.c:700-830 | after HMSET a field has the value given to it last, if one was, and else the one before; after ZADD a member its score, which comes in front of it |
| AofMeaning.CommandOfKind | redis-2.6.14/src/aof.c:603-830 | lists are rewritten by RPUSH, sets by SADD, sorted sets by ZADD, hashes by HMSET |
| AofRewrite.RewriteCollection | redis-2.6.14/src/aof.c:603-830 | the loop that starts a command when its counter is zero writes exactly those groups: every header counts the arguments that follow |
| AofRewrite.DumpRebuilds | redis-2.6.14/src/aof.c:839-941 | replaying the commands of a dump on an empty server gives the dataset of the snapshot, expire times included, without the keys that had expired |
| AofMeaning.DumpKeeps | redis-2.6.14/src/aof.c:872-896 | the dataset so recreated has exactly the listed keys whose expire time is -1 or not before the time of the snapshot, each with its value and time |
| AofCommands.TableIsSane | redis-2.6.14/src/aof.c:603-830 | what the dump assumes of SET, RPUSH, SADD, ZADD, HMSET and PEXPIREAT is consistent: kind, key and items can be read off a command line, so a command table that does it exists |
| AofRewrite.DumpLoads | redis-2.6.14/src/aof.c:839-941 | loading the bytes of a dump gives the dataset, and goes on with what is appended to it |
| AofRewrite.RewriteFile | redis-2.6.14/src/aof.c:839-941 | the loops over databases and keys write that dump; expired keys are skipped |
| AofProtocol.FeedTracks | redis-2.6.14/src/aof.c:384-432 | appending what a write, or the MULTI or EXEC around a block, feeds keeps a byte string in step with the dataset: every command replays in its own database, a SELECT precedes it when needed |
| AofProtocol.ForkTracks | redis-2.6.14/src/aof.c:955-1003 | at the fork what the child will write stands for the dataset, whatever database is selected |
| AofProtocol.SwitchKeepsInv | redis-2.6.14/src/aof.c:1042-1176 | after the switch to the rewritten file, which throws the buffer away, nothing is lost |
| AofProtocol.StepKeepsInv | redis-2.6.14/src/aof.c:165-209 | turning on and off, writes, blocks, flushes, forks and ends of children keep the invariant, inside a block too |
| AofProtocol.RunKeepsInv | redis-2.6.14/src/aof.c:384-432 | so does every run |
| AofProtocol.AofSafety | redis-2.6.14/src/aof.c:1042-1176 | in every reachable state: while the AOF is on, loading file ++ buffer gives the dataset; while it is on or waits for its first rewrite and a child is alive, loading what the child writes ++ differences does; while a MULTI block is open both do so with the EXEC that is to come |
| AofProtocol.OpenBlockIsRefused | redis-2.6.14/src/aof.c:560-562 | that EXEC is needed: where a block has just been begun, the loader refuses file ++ buffer |
| AofProgress.FlushIsDurable | redis-2.6.14/src/aof.c:229-320 | after a flush that is not postponed nothing is left in the buffer and the file alone gives the dataset |
| AofProgress.TurnOffIsDurable | redis-2.6.14/src/aof.c:165-188 | so it does after the AOF is turned off, and no child is left |
| AofProgress.RewriteCompletes | redis-2.6.14/src/aof.c:192-1176 | whatever writes, blocks, flushes and requests happen between a fork, of a rewrite or of turning the AOF on, and the success of its child: then the AOF is on, the buffer is empty, and the new file alone gives the dataset |
| AofProgress.RewriteFails | redis-2.6.14/src/aof.c:1042-1176 | a child that fails changes neither file nor buffer; another rewrite is scheduled when the AOF was waiting for this one |
| AofProgress.NoSecondChild | redis-2.6.14/src/aof.c:955-960 | while a child is alive, or when the fork fails, nothing is begun |
| AofProgress.OpenIff | redis-2.6.14/src/multi.c:101-165 | a block is open exactly when its MULTI was propagated and its EXEC was not |
| Aof.RewriteBuffer.Size | redis-2.6.14/src/aof.c:77-86 | the size computed from the number of blocks and the last one is the number of bytes held |
| Aof.RewriteBuffer.Append | redis-2.6.14/src/aof.c:89-126 | the blocks together hold what they held and the new bytes; every block but the last is full |
| Aof.RewriteBuffer.WriteTo | redis-2.6.14/src/aof.c:131-151 | all blocks are written in order |
| Aof.CatExpireAt | redis-2.6.14/src/aof.c:353-382 | relative times become absolute ones and seconds milliseconds, as the command says |
| AofMeaning.SetexSets | redis-2.6.14/src/aof.c:403-412 | what SETEX and PSETEX do, and a replay of what they are fed as: the key has the value, and expires so many seconds or milliseconds from now |
| AofMeaning.ExpireSets | redis-2.6.14/src/aof.c:398-402 | EXPIRE, PEXPIRE and EXPIREAT of a key that is there change when it expires, to so many seconds or milliseconds from now, or to the second given, and nothing else |
| AofMeaning.OthersUntouched | redis-2.6.14/src/aof.c:413-421 | every other command is fed as it came |
| Aof.PrintFed | redis-2.6.14/src/aof.c:384-421 | SELECT when the database changes, then the command; EXPIRE, PEXPIRE and EXPIREAT as PEXPIREAT, SETEX and PSETEX as SET and PEXPIREAT |
| Aof.Server.FeedFile | redis-2.6.14/src/aof.c:384-432 | those bytes go to the buffer when on and to the differences when a child is alive |
| Aof.Server.Execute | redis-2.6.14/src/redis.c:1566-1573 | a write changes the dataset and is fed unless the AOF is off: one step of the protocol |
| Aof.Server.ExecCommand | redis-2.6.14/src/multi.c:101-165 | the loop of EXEC over its queue propagates its writes as one block: MULTI before the first command that may write, EXEC after the last, nothing when none may |
| Aof.BlockIs | redis-2.6.14/src/multi.c:101-165 | what a queue propagates: nothing when no command of it may write, else its writes in order between one MULTI, in the database of the first that may, and one EXEC |
| Aof.Server.FlushFile | redis-2.6.14/src/aof.c:229-320 | the buffer is appended to the file, or kept when the flush is postponed |
| Aof.Server.StartAppendOnly | redis-2.6.14/src/aof.c:192-209 | the AOF waits for its first rewrite exactly when file and child could be had |
| Aof.Server.StopAppendOnly | redis-2.6.14/src/aof.c:165-188 | the buffer is written out, a child and its differences are dropped |
| Aof.Server.RewriteDone | redis-2.6.14/src/aof.c:1042-1176 | the end of a child, with or without success, is the protocol's step |
| Aof.Serve | redis-2.6.14/src/aof.c:384-432 | any run of the object: whenever the AOF is on, reloading file ++ buffer gives its dataset, with the EXEC to come where a block is open |
| Requests.PieceStable | redis-2.6.14/src/networking.c:848-978 | what the parser takes from the front of its buffer does not depend on what arrives later |
| Requests.ParseResumes | redis-2.6.14/src/networking.c:980-1017 | parsing what is there and resuming with the rest gives the same commands, parser state and leftover as parsing all at once |
| Requests.ChunkIndependent | redis-2.6.14/src/networking.c:1019-1078 | so does any split into chunks |
| Requests.ChunkedRoundTrip | redis-2.6.14/src/networking.c:980-1017 | printed commands, split in any way, are parsed back as exactly that list, with nothing left over |
| InlineRequests.FieldsOfWords | redis-2.6.14/src/networking.c:811-830 | the fields of words with any number of spaces between, before and behind them are exactly these words, in order |
| InlineRequests.FieldsOfLine | redis-2.6.14/src/networking.c:811-830 | no field of any line is empty or holds a space, and together they are the line without its spaces |
| InlineRequests.LineParses | redis-2.6.14/src/networking.c:796-833 | a line of words without NUL, CR and LF that does not begin with a star, with its CRLF, is the command of these words, or none when it has no word |
| RequestErrors.FindCRIff | redis-2.6.14/src/networking.c:856-863 | a header line ends at the first CR, unless a NUL comes before it |
| RequestErrors.FindCRLFIff | redis-2.6.14/src/networking.c:797-797 | an inline request ends at the first CRLF, unless a NUL comes before it |
| RequestErrors.CountAccepted | redis-2.6.14/src/networking.c:872-891 | a count up to zero is no request, one above 2^20 closes the client, any other is that of the arguments to come |
| RequestErrors.LengthAccepted | redis-2.6.14/src/networking.c:912-927 | a length is taken exactly when a dollar is in front of it and it is from 0 to 2^29; else the client is closed |
| RequestErrors.NoNumber | redis-2.6.14/src/networking.c:873-927 | so is it when there is no number in that place |
| RequestErrors.NothingAfterError | redis-2.6.14/src/networking.c:980-1017 | after that nothing is executed, whatever else arrives |
| Networking.ReadBulkLength | redis-2.6.14/src/networking.c:897-939 | the line of a bulk length is found, absent, wrong, or too long to wait for; after the line of a large argument the buffer begins with that argument |
| Networking.ReadBulk | redis-2.6.14/src/networking.c:942-967 | an argument is taken when it and its CRLF are there, by copy or by giving the buffer away |
| Networking.ReadArguments | redis-2.6.14/src/networking.c:895-968 | the loop over the arguments parses as the specification says, or a size check has fired |
| Networking.Client.ProcessInlineBuffer | redis-2.6.14/src/networking.c:796-833 | an inline request is its fields; without a line end it waits, or is refused exactly when more than 64 KB are there |
| Networking.Client.ProcessMultibulkBuffer | redis-2.6.14/src/networking.c:848-978 | count and arguments, resumed where the last call stopped; a protocol error closes the client |
| Networking.Client.ProcessInputBuffer | redis-2.6.14/src/networking.c:980-1017 | unless a size check fires, all complete requests in the buffer are executed and the rest is kept, as the specification says |
| Networking.Client.ReadQuery | redis-2.6.14/src/networking.c:1019-1078 | a read that would block changes nothing, any other error and the end of the connection free the client; else the same for one read of at most what the code asks for (16 KB, and not past the end of a large argument whose length is known); the client is freed exactly when its buffer outgrows the configured limit; no size check fires on a buffer that holds just the argument being read |
| ReadSizes.TameResumes | redis-2.6.14/src/networking.c:980-1017 | after parsing what is there, the rest of a stream of complete requests is still one |
| ReadSizes.WaitingFits | redis-2.6.14/src/networking.c:1027-1041 | what such a stream leaves waiting is less than the large argument being read with its CRLF, or leaves room for one more read below the 64 KB of the size checks |
| ReadSizes.CommandsTame | redis-2.6.14/src/networking.c:980-1017 | printed commands are such a stream |
| Networking.ReadTame | redis-2.6.14/src/networking.c:1019-1078 | one read of such a stream fires no size check, frees no client, and parses and executes as the specification says |
| Networking.ServeStream | redis-2.6.14/src/networking.c:1019-1078 | a new client executes the commands of any stream of complete requests whose inline lines have at most 48 KB, in order, whatever amounts the reads return, and ends idle with an empty buffer |
| Networking.Serve | redis-2.6.14/src/networking.c:1019-1078 | a new client that reads printed commands, whatever amounts the reads return, executes exactly them, in order, and ends idle with an empty buffer; none of the three size checks fires, and the default limit of the query buffer is not reached |
| InlineRequests.ServeLines | redis-2.6.14/src/networking.c:1019-1078 | a new client that reads lines of words, in whatever amounts, executes exactly their commands, in order |
| Replies.FillStream | redis-2.6.14/src/networking.c:384-407 | telling a deferred length changes the stream of output just by filling its own place |
| Replies.Glue | redis-2.6.14/src/networking.c:392-406 | gluing a told length to the next node changes no output |
| Replies.Client.AddReplyToBuffer | redis-2.6.14/src/networking.c:156-171 | a reply goes to the buffer exactly when the list is empty and it fits, and follows all replies before it |
| Replies.Client.AddReplyStringToList | redis-2.6.14/src/networking.c:173-264 | a reply is appended to the last node or becomes a node; it follows all replies before it |
| Replies.Client.AddReplyString | redis-2.6.14/src/networking.c:321-325 | the reply is queued once, after all others, or dropped when the client is closing |
| Replies.Client.AddDeferredMultiBulkLength | redis-2.6.14/src/networking.c:374-381 | a place for a length is kept in the order of replies |
| Replies.Client.SetDeferredMultiBulkLength | redis-2.6.14/src/networking.c:384-407 | the length appears at its place, in any order of telling, with nested ones still open |
| KnownAnswers.LengthTexts | redis-2.6.14/src/networking.c:384-407 | two such lengths, byte by byte |
| Replies.Client.SendReply | redis-2.6.14/src/networking.c:701-784 | under any partial writes, written ++ unsent buffer ++ unsent list stays all replies in order, written bytes are never changed, and everything is written unless the socket blocks or the limit per event is reached |
| Intset.ValueEncoding | redis-2.6.14/src/intset.c:45-52 | the narrowest of 2, 4 and 8 bytes that holds the value |
| Intset.SetEncoded | redis-2.6.14/src/intset.c:81-94 | the bytes of one element are replaced by the little endian two's complement of the value |
| KnownAnswers.LittleEndianBytes | redis-2.6.14/src/intset.c:81-94 | the bytes of a number, the lowest first |
| KnownAnswers.TwosComplement | redis-2.6.14/src/intset.c:81-94 | the bytes of -2 |
| Intset.SetEffect | redis-2.6.14/src/intset.c:55-94 | a written element is read back, and all others of the array are as before |
| Intset.WidenOne | redis-2.6.14/src/intset.c:157-180 | one step of the back-to-front widening never overwrites an element not yet read, with or without the shift by one |
| Intset.Widen | redis-2.6.14/src/intset.c:168-172 | the whole loop leaves every old value at its place in the wide encoding |
| Intset.MovedAndSet | redis-2.6.14/src/intset.c:182-231 | moving the tail up and setting the gap inserts the value in the sequence |
| Intset.MovedOver | redis-2.6.14/src/intset.c:182-251 | moving the tail down removes the value from the sequence |
| Intset.IntSet.Search | redis-2.6.14/src/intset.c:115-154 | binary search finds the value exactly when it is there, and else its insertion position |
| Intset.IntSet.UpgradeAndAdd | redis-2.6.14/src/intset.c:157-180 | the widened array holds the old values in order and the new one first if negative, else last; it is strictly sorted |
| Intset.IntSet.Add | redis-2.6.14/src/intset.c:204-231 | the members gain the value, success exactly when it was new, the encoding becomes wider exactly when the value needs it |
| Intset.IntSet.Remove | redis-2.6.14/src/intset.c:234-251 | the members lose the value, success exactly when it was there, the encoding stays |
| Intset.IntSet.Find | redis-2.6.14/src/intset.c:254-257 | membership of a mathematical set |
| Intset.RunAll | redis-2.6.14/src/intset.c:204-257 | any run of additions, removals and lookups in which no addition meets a set so large that its array would reach 2^31 bytes gives the answers of a mathematical set and keeps the array strictly sorted; the encoding is that of the widest value ever added |
| Transactions.StepKeepsInv | redis-2.6.14/src/multi.c:202-257 | every step keeps clients' lists and keys' lists inverse, without duplicates and without empty lists |
| Transactions.RunKeepsInv | redis-2.6.14/src/multi.c:202-257 | so does every run |
| TransactionRuns.StepMeansAll | redis-2.6.14/src/redis.c:1652-1779 | what any step means for any client: its watched keys, both flags, its queue, its selected db and whether it is in a transaction, in terms of what was asked for only |
| TransactionRuns.SelectedIs | redis-2.6.14/src/db.c:181-186 | in every run the db of a client is that of the last SELECT that ran for it since it connected, outside a transaction or in a queue that EXEC ran, and 0 without one |
| TransactionRuns.OutcomeIs | redis-2.6.14/src/redis.c:1652-1779 | in every run: a command is queued exactly when a transaction is under way, it is accepted and is none of EXEC, DISCARD, MULTI and WATCH; it is an error exactly when it is refused, or MULTI or WATCH inside a transaction, or EXEC or DISCARD outside one |
| TransactionRuns.WatchedIff | redis-2.6.14/src/multi.c:202-257 | a client watches a key if and only if it began to, in the db it had selected then, and has not ended it since |
| TransactionRuns.DirtyIff | redis-2.6.14/src/multi.c:261-305 | the CAS flag is up if and only if a key was signalled as modified, or present and flushed, while watched, and the watching goes on |
| TransactionRuns.FlaggedIff | redis-2.6.14/src/multi.c:81-84 | the error flag is up if and only if a command of the running transaction was refused with a flag |
| TransactionRuns.QueueIs | redis-2.6.14/src/multi.c:56-70 | the queue holds the commands queued since the last end of a transaction, in order |
| TransactionRuns.ExecSafety | redis-2.6.14/src/multi.c:114-169 | EXEC runs exactly the commands queued since MULTI, in order, if and only if there was no such signal and no such refusal; else it runs nothing and changes no other client; afterwards queue, flags and watched keys of the transaction are gone |
| TransactionIsolation.ExecIsSequence | redis-2.6.14/src/multi.c:114-169 | when EXEC runs its queue, the flags, queues, selected dbs and watch lists it leaves are those its client would reach by ending the transaction and then sending the queued commands, with the same signals, one after the other |
| TransactionData.HandleSignals | redis-2.6.14/src/multi.c:261-305 | with a command table that signals every key it changes, the changes that are not signalled are exactly the silent ones: a key that is there expires or is evicted, or a key that is not there comes with the dataset of the master |
| TransactionData.HandleIs | redis-2.6.14/src/redis.c:1652-1779 | connecting, leaving and a request are the steps of that name |
| TransactionData.FlushSignals | redis-2.6.14/src/multi.c:284-305 | flushing a db, or all, signals exactly the keys whose value that changes; a modified key is signalled alone |
| TransactionData.CheckAndSet | redis-2.6.14/src/multi.c:114-169 | with such a command table, in every reachable state in which EXEC would run its queue, the calls that have changed a key since its client watched it are exactly the silent ones |
| TransactionData.WatchedKeeps | redis-2.6.14/src/multi.c:114-169 | so where nothing silent has happened to it, a watched key has had its present value at every moment since it was watched |
| TransactionData.ExpiryGoesUnnoticed | redis-2.6.14/src/db.c:501-529 | a key is watched and expires, and EXEC runs its queue all the same, whatever the command table |
| TransactionData.ResyncGoesUnnoticed | redis-2.6.14/src/replication.c:430-438 | so it does when a key that is watched while absent comes from the master |
| TransactionData.MoveGoesUnnoticed | redis-2.6.14/src/db.c:398-440 | and when MOVE takes a watched key away: a table with MOVE does not signal every key it changes |
| TransactionData.ExecIsSequenceOnData | redis-2.6.14/src/multi.c:114-169 | for every command table: EXEC leaves the dataset, flags, queues, selected dbs and watch lists, and gives the replies, that its client would get by ending the transaction and then sending the queued commands one after the other, with nothing in between |
| Multi.Server.WatchForKey | redis-2.6.14/src/multi.c:202-229 | the search of the client's list, then both lists grow |
| Multi.Server.UnwatchAllKeys | redis-2.6.14/src/multi.c:233-257 | the loop over the client's list takes the client out of every key's list and drops empty lists; no lookup fails |
| Multi.Server.TouchWatchedKey | redis-2.6.14/src/multi.c:261-278 | the watchers found by key are exactly the clients whose own list has the key |
| Multi.Server.TouchWatchedKeysOnFlush | redis-2.6.14/src/multi.c:284-305 | clients that watch a key present in a flushed database are marked |
| Multi.Server.ExecCommand | redis-2.6.14/src/multi.c:114-169 | abort or run: the step of the specification |
| Multi.Server.ProcessCommand | redis-2.6.14/src/redis.c:1652-1779 | refuse, queue or run: the step of the specification, and the invariant |
| Multi.Serve | redis-2.6.14/src/redis.c:1652-1779 | any run of the object reaches the state of the specified run |
| Crc64Table.TabIsLinear | redis-2.6.14/src/crc64.c:42-171 | each of the 256 constants is the exclusive or of those at the powers of two of its index |
| Crc64Table.TopByteTells | redis-2.6.14/src/crc64.c:42-171 | the top bytes of the 256 entries are all different |
| Crc64.StepInjectiveInByte | redis-2.6.14/src/crc64.c:173-181 | for one state, different bytes lead to different states |
| Crc64.StepInjectiveInState | redis-2.6.14/src/crc64.c:173-181 | for one byte, different states lead to different states |
| Crc64.Crc64 | redis-2.6.14/src/crc64.c:173-181 | the loop computes the checksum of the bytes in order |
| Crc64.CrcConcat | redis-2.6.14/src/crc64.c:173-181 | the checksum of a concatenation is that of the second part started with that of the first |
| KnownAnswers.CheckValue | redis-2.6.14/src/crc64.c:5-11 | the checksum of 123456789 is the check value the source gives for its polynomial |
| Crc64.WindowInjective | redis-2.6.14/src/crc64.c:173-181 | two strings of the same length up to eight with the same checksum from the same state are equal |
| Crc64.DifferenceShows | redis-2.6.14/src/crc64.c:173-181 | two messages that differ only within eight bytes in a row have different checksums |
| Crc64.Rio.Write | redis-2.6.14/src/rio.h:76-79 | bytes are appended and taken into the checksum, when one is kept |
| Crc64.Rio.Read | redis-2.6.14/src/rio.h:81-87 | bytes are read and taken into the checksum, or nothing happens when there are not enough |
| Crc64.Chunked | redis-2.6.14/src/rio.h:76-87 | a reader of what a writer wrote ends with the writer's checksum, whatever the chunks of either |
| Crc64.CreateDumpPayload | redis-2.6.14/src/migrate.c:10-37 | body, version and checksum, both little endian |
| RdbDump.Dump | redis-2.6.14/src/migrate.c:8-37 | the payload of every saveable value is accepted, and restored as that value |
| RdbDump.Restore | redis-2.6.14/src/migrate.c:105-116 | version and checksum are verified, then type and value are loaded; each failure is an error |
| RdbDump.DumpRestore | redis-2.6.14/src/migrate.c:8-116 | dumping and restoring gives the value back |
| RdbDump.DamagedIsNotRestored | redis-2.6.14/src/migrate.c:43-60 | no payload damaged within eight bytes in a row is restored |
| Crc64.VerifyDumpPayload | redis-2.6.14/src/migrate.c:43-60 | accepts exactly the payloads that could have been created from some body |
| Crc64.OwnChecksum | redis-2.6.14/src/migrate.c:10-60 | a message with its own checksum appended has checksum zero |
| Crc64.DamageIsRejected | redis-2.6.14/src/migrate.c:43-60 | a copy of a payload that differs within eight bytes in a row, wherever they fall, is rejected |
| Crc64.OneByteIsRejected | redis-2.6.14/src/migrate.c:43-60 | so is a copy that differs in exactly one byte |
| RdbStrings.LenLoads | redis-2.6.14/src/rdb.c:82-135 | every length below 2^32 - 1 is read back from its one, two or five bytes, whatever follows |
| RdbStrings.IntegerLoads | redis-2.6.14/src/rdb.c:141-191 | every integer of 32 bits is read back from its one, two or four bytes |
| KnownAnswers.LengthBytes | redis-2.6.14/src/rdb.c:82-135 | lengths of one, two and five bytes, byte by byte |
| KnownAnswers.TextLoads | redis-2.6.14/src/rdb.c:333-359 | a length and a text |
| KnownAnswers.SmallIntegerLoads | redis-2.6.14/src/rdb.c:167-191 | an integer of one byte |
| KnownAnswers.IntegerLoads | redis-2.6.14/src/rdb.c:167-191 | an integer of two bytes |
| KnownAnswers.PackedTextLoads | redis-2.6.14/src/rdb.c:249-266 | a compressed text |
| KnownAnswers.ShortTextLoads | redis-2.6.14/src/rdb.c:249-266 | a compressed text that is told to be longer than it is ends in zeros |
| RdbStrings.TryIntegerEncoding | redis-2.6.14/src/rdb.c:196-210 | a text is encoded as an integer exactly when it is the print of a 32 bit integer, and then loads as itself |
| RdbStrings.SaveLzfString | redis-2.6.14/src/rdb.c:212-247 | a compressed text loads as itself, for every content of the compressor's table |
| RdbStrings.SaveRawString | redis-2.6.14/src/rdb.c:270-300 | whichever encoding is chosen, the loader finds the text and stops right behind it |
| RdbStrings.SaveStringObject | redis-2.6.14/src/rdb.c:303-331 | the same for raw and for integer-encoded objects |
| RdbStrings.LoadLzfString | redis-2.6.14/src/rdb.c:249-266 | the decompressor is run on what was read into a zeroed buffer; every short read is an error |
| RdbStrings.LoadStringObject | redis-2.6.14/src/rdb.c:333-359 | the loader of strings, with all its error exits, is the specified one |
| RdbObjects.SaveObject | redis-2.6.14/src/rdb.c:478-595 | the bytes of a string, list, set, sorted set, hash or packed value load as the same value, whatever follows |
| RdbObjects.ScoreLoads | redis-2.6.14/src/rdb.c:379-430 | a score is read back: the three special values from their byte, a printed number from its length and text |
| KnownAnswers.StringTypeLoads | redis-2.6.14/src/rdb.c:771-1032 | type 0 is a string, types 9 to 13 are packed forms, and those between and behind are not known |
| KnownAnswers.ListTypeLoads | redis-2.6.14/src/rdb.c:771-1032 | type 1 is a list, type 2 a set |
| KnownAnswers.HashTypeLoads | redis-2.6.14/src/rdb.c:771-1032 | type 3 is a sorted set, members before scores, type 4 a hash, fields before values |
| KnownAnswers.ScoresLoad | redis-2.6.14/src/rdb.c:379-430 | the marks of the special scores, and 1.5 |
| KnownAnswers.MarksAre | redis-2.6.14/src/rdb.c:430-476 | the marks the saver puts in front of values |
| RdbObjects.ReadObject | redis-2.6.14/src/rdb.c:771-1032 | the loader of values is the specified one |
| Rdb.SaveKeyValuePair | redis-2.6.14/src/rdb.c:611-627 | nothing for an expired key, else a record that loads as time, key and value |
| Rdb.SaveDbs | redis-2.6.14/src/rdb.c:655-682 | the loops over databases and keys write exactly the records of the keys not expired, each after the SELECT of its database |
| Rdb.LoadIsReplay | redis-2.6.14/src/rdb.c:1091-1155 | the load loop over bytes is the replay of the records they are |
| Rdb.ReplayDataset | redis-2.6.14/src/rdb.c:1103-1153 | replaying the records of a dataset on an empty server gives its surviving keys |
| Rdb.SurvivingAre | redis-2.6.14/src/rdb.c:611-627 | what survives, key by key: exactly the keys not expired at saving, nor at loading unless on a slave, with value and time |
| Rdb.SurvivingByClock | redis-2.6.14/src/rdb.c:611-627 | the same in plain arithmetic: a key is there if and only if its expire time is -1, or not before the time of saving and, but for a slave, not before that of loading |
| Rdb.FileLoads | redis-2.6.14/src/rdb.c:630-1178 | any server with enough databases loads the file as the dataset without those keys, with checksums on or off on either side |
| Rdb.Save | redis-2.6.14/src/rdb.c:630-716 | magic, records, end mark and footer: the checksum of all before when checksums are on, else eight zeros |
| RdbChecksum.DamageShows | redis-2.6.14/src/crc64.c:173-181 | of two byte strings that differ only within eight bytes in a row at most one ends with its own CRC |
| RdbChecksum.SaveSummed | redis-2.6.14/src/rdb.c:686-690 | a file saved with checksums on ends with the CRC of all before |
| RdbChecksum.DamagedLoadsIff | redis-2.6.14/src/rdb.c:1061-1170 | exactly when a summed file damaged within eight bytes in a row, footer included, is loaded: the header is valid, the records can be read, and the version has no checksum, or zeros follow the end mark, or the end mark that was met is not the one before the last eight bytes and is followed by the sum of what comes before it |
| RdbChecksum.DamagedIsNotLoaded | redis-2.6.14/src/rdb.c:1156-1168 | in particular it is not loaded when the version has a checksum, the footer is not zero, and the end mark comes right before the footer |
| RdbChecksum.OldVersionLoads | redis-2.6.14/src/rdb.c:1156-1157 | without the first condition it can be: every saved file loads with its version digit changed to 4 |
| RdbChecksum.ZeroedFooterLoads | redis-2.6.14/src/rdb.c:1162-1163 | nor without the second: every saved file loads with its footer zeroed |
| RdbChecksum.ShorterStringLoads | redis-2.6.14/src/rdb.c:1103-1168 | nor without the third: one changed length byte turns the file of one string into a file that loads with another value, because an end mark and eight zeros are found inside the string |
| RdbIntset.BlobReads | redis-2.6.14/src/rdb.c:525-529 | the memory of an intset holds its encoding, length and elements |
| KnownAnswers.IntsetBlob | redis-2.6.14/src/intset.h:35-39 | the memory of the set of 1 and -2, byte by byte |
| RdbIntset.SetSurvives | redis-2.6.14/src/rdb.c:478-1032 | a set of integers after any such run, saved as its intset, loads as a set with the same members |
| Rdb.LoadFile | redis-2.6.14/src/rdb.c:1061-1178 | signature, version, records and checksum are checked as specified |
| Rdb.RoundTrip | redis-2.6.14/src/rdb.c:630-1178 | saving and loading again: exactly the keys whose expire time is -1, or not before the time of saving and, but for a slave, not before that of loading, with value and time, each in its database |
| KnownAnswers.TimedKeyLoads | redis-2.6.14/src/rdb.c:1107-1124 | a time after mark 253 is in seconds, one after 252 in milliseconds |
| KnownAnswers.SmallFileLoads | redis-2.6.14/src/rdb.c:1061-1178 | the bytes of a file with one key, and what is loaded from them |
| EventPort.AddToPort | redis-2.6.14/src/ae_evport.c:147-176 | associating a descriptor keeps each descriptor in exactly one place if and only if its mask is not empty |
| EventPort.EventLoop.CreateFileEvent | redis-2.6.14/src/ae.c:105-122 | the mask grows exactly when the descriptor is in range and pending or the port call succeeds; each descriptor stays either associated or pending, with its mask, and maxfd the highest in use, if and only if the call does not succeed in giving a descriptor without events an empty mask |
| EventPort.EventLoop.DeleteFileEvent | redis-2.6.14/src/ae.c:124-141 | the mask shrinks; a descriptor without mask is neither associated nor pending; the downward scan finds the new maxfd |
| EventPort.EventLoop.ReassociatePending | redis-2.6.14/src/ae_evport.c:250-266 | the first loop of the poll leaves every descriptor with a mask associated, for the events its mask asks for and no other |
| EventPort.EventLoop.Poll | redis-2.6.14/src/ae_evport.c:238-311 | exactly the returned descriptors are pending, with their masks, and all others associated; the events fit the fired array, and each is fired as readable exactly when POLLIN has happened, as writable exactly when POLLOUT has |
| EventPort.FiredIsAskedFor | redis-2.6.14/src/ae_evport.c:290-311 | when the port returns only what it was asked for, what is fired is in the mask of the descriptor, and what is in the mask and has happened is fired |
| EventPort.AsksFor | redis-2.6.14/src/ae_evport.c:118-145 | an association asks for POLLIN exactly when the mask has readable, for POLLOUT exactly when it has writable, and for nothing else |
| Lrand48.Generator.NextState | redis-2.6.14/src/rand.c:80-93 | the limb arithmetic with its carries is X' = (0x5DEECE66D X + 0xB) mod 2^48, for every state |
| Lrand48.Generator.Lrand48 | redis-2.6.14/src/rand.c:71-74 | the result is the top 31 bits of the new state, never negative |
| Lrand48.Generator.Srand48 | redis-2.6.14/src/rand.c:76-78 | the seed becomes the upper 32 bits of the state, 0x330E the lower 16 |
| Lrand48.Draws | redis-2.6.14/src/rand.c:71-93 | the numbers drawn after seeding are those of the sequence that the drand48() page of POSIX.1-2008 defines |

## Left out

- LzfCompress.Scan: pointers in the hash table are offsets from the input, of any value; comparisons of pointers into different objects are taken as comparisons of these.
- PartialSort.PartialSort: one array slot per element; the copying of elements by words or bytes is not modelled.
- DictProofs.NextPowerIsPow2: sizes near LONG_MAX, where the code stops doubling, are not modelled.
- Dict.Dictionary.Locate: chains are sequences and entries are named by table, bucket and position, an iterator's saved entries by their keys; freeing and the callbacks of `dictType` are left out, as are the clock of `dictRehashMilliseconds`, `dictEmpty`, `dictGetRandomKey` and unsafe iterators.
- DictLoad.LoadBounded: dictionaries without safe iterators; while one is alive no bucket is moved and the load has no bound.
- Decimal.StrtolIs: numbers beyond a long, which `strtol` cuts off at the ends of its range, are read as they are.
- AofProtocol.AofSafety: no key of the dataset has expired at a fork (the dump skips such keys, and a later PERSIST could keep one); a command that depends on the clock does what its translation does; fsync is not modelled, and a failed write or rename at the end of a rewrite counts as a failed child.
- AofRewrite.ObjRebuilds: list, set, sorted set and hash objects are given by their items in iteration order, scores by the text they are printed as.
- Networking.Serve: commands are recorded, and none of them blocks or closes the client.
- Replies.Client.SendReply: an ordinary client; masters, write errors other than a full socket, the output buffer limits and `reply_bytes` are left out, and reference counts of shared objects with them.
- Intset.IntSet.Add: arrays of less than 2^31 bytes on a little endian machine; `intsetRandom` is left out.
- Transactions.StepKeepsInv: clients are records named by ids; other commands are known by the keys they signal (in `TransactionData` by what they do to a dataset); QUIT, blocking commands and MONITOR are left out (the propagation of MULTI and EXEC is in `Aof`).
- TransactionData.CheckAndSet: the source's own table signals what it changes but for MOVE and DEBUG RELOAD, LOADAOF and POPULATE; a key that a command finds expired is an `Expire` before that command, or before the EXEC it is in.
- RdbDump.Restore: the key, its TTL and its database; a score of length zero, which only a file rejects, is rejected here too.
- Rdb.FileLoads: writing to a temporary file and renaming it are left out.
- RdbObjects.SaveObject: ziplists and zipmaps are opaque byte strings (an intset is read in `RdbIntset`); scores are given by the text they are printed as; the memory encoding that the loader chooses for a value is not told.
- RdbStrings.LoadStringObject: an unknown encoding, which stops the server, is a failed load here, as are a key, hash field or sorted set member that comes twice and a database that is not there.
- EventPort.EventLoop.Poll: port calls that fail where the code aborts do not fail; time events and the dispatch of fired events are left out.
- `replication.c`: a slave that joins a running dump copies another slave's buffer but not its selected database, so the obvious stream invariant does not hold; it is not modelled.
- `t_*.c`, `db.c`, `pubsub.c`, `bio.c`, `bitops.c`, `adlist.c`, `ziplist.c`: smaller relatives or packed formats of the above.
- The Rails application, `redis-cli.c`, `redis-benchmark.c`, `config.c`, `debug.c`, `anet.c`: interfaces, configuration and I/O.
