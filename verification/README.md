# Verification of nat_proxy_asio

A Dafny model of the stateful parts of the proxy server and of the Redis client it embeds, with proofs about
whole runs. `dafny verify dfyconfig.toml` checks everything.

**The Redis client** (`src/redisclient`)

- `RespMachine` is the reference: a byte-at-a-time pushdown machine for RESP2 replies, without buffers to copy,
  recursion or suspended calls. Its main theorem is that cutting the input anywhere changes nothing.
- `RedisParser` is the parser class itself: fourteen states, the block copies of bulk bodies, the recursive array
  driver and the two stacks into which it suspends (outermost array on top). Every call is proved to report exactly
  what the machine does on the same bytes, from every state a call can leave behind, and to terminate.
- `RespLiterals` says in plain numbers which bytes are accepted and which are rejected where.
- `RespGrammar` and `RespSoundness` define replies as concrete syntax and prove that the machine accepts exactly
  that language: complete, sound, prefix-free, and with the suspended state explained by an unfinished syntax tree.
- `RespEncoding`, `RespStream`, `RedisClient`, `Pipeline` add the command encoder, streams of replies, the client
  class (write queue, reply handlers, read loop) and whole runs of it against a server that answers commands in order.

**The proxy** (`src/net`, `src/util`)

- `SessionDb`: request log, worker, directory and its published snapshots.
- `Registry`, `Directory`: login and close of any number of sessions, interleaved at every lock and every atomic
  operation. `SessionMgr`: the classes, whose handlers are the same steps run without interruption. `Published`:
  handlers, worker and publications together. `IdReuse`: ids beyond the wrap-around of their counter.
  `Listings`: who is listed and what comes of a login, in the protocol's numbers.
- `Frames`, `Session`, `SessionRuns`: packet framing of the incoming stream, reading on until the session has to stop; the
  queue with one write in flight.
- `Admission`: several acceptors sharing one counter.
- `Relay`, `RelayRuns`, `RelayExact`, `Channel`: the UDP relay's two coroutines, interleaving wherever they await, and the classes
  whose handlers are these steps.

The program's one session class appears twice, as the fields its reader and writer use (`Session.CSession`) and the
fields login and close use (`SessionMgr.CSession`); the two share only the flag that it is started.

Asynchronous operations are modelled as completions with arbitrary results that may arrive whenever the operation is
outstanding; handlers of one io_context run one at a time, as the context pool gives each context one thread. The
classes carry the program's own fields; their ghost fields record what has happened so far (bytes received, messages
posted, the request log) and which operation is outstanding. Each handler is proved equal to a function on values that
the runs are made of: a whole step in `Session`, `Admission`, `SessionDb`, `RedisClient` and `Channel`, a sequence of
uninterrupted steps in `SessionMgr`. A channel and a Redis client also carry their history and are proved to be where
that run leads, so the theorems about runs speak of their fields.

**Where the code does less than one might expect.** Each of these is stated exactly, for all inputs.

- The array size -1 decodes to an empty array, not to null (`src/redisclient/impl/redisparser.cpp:361-366`); the
  grammar says so (`RespGrammar.ReplyParses`).
- After a rejected byte the parser keeps the suspended arrays around the one it was filling, so another call would go on
  inside them (`RedisParser.RedisParser.Parse` says which); the client does not call it again.
- `serial` counts records in one byte and bounds the buffer only between records: with more than 255 entries it writes
  past its 2048-byte buffer. A run stays readable exactly while no publication has more than 255 entries
  (`SessionDb.PublicationsReadable`), and every larger number is reached (`SessionDb.OverrunIsReached`).
- A session whose write fails while other messages wait never writes again, although it keeps queueing
  (`Session.SingleWriter`, `Session.QueueIsStranded`, `Session.StrandedForGood`). Any failed write of the Redis client
  stops its queue if the error handler returns (`Pipeline.SingleWriter`); the default handler throws, which ends the
  thread of its io_context.
- A login served after the session was stopped takes a GUID that nobody gives back
  (`Registry.LateLoginKeepsGuid`), and a login that cannot read the peer address keeps both its GUID and its id
  (`Registry.LostAddressKeepsGuidAndId`). `Registry.GuidSetExact` and `Directory.MapMatchesDirectory` are exact: set and
  map are right if and only if this never happened in the run.
- N acceptors can exceed the configured limit by N, and do (`Admission.AdmissionBound`, `Admission.BoundIsReached`).
- Ids repeat after 2^32 allocations, and a client that closes then takes the map entry of a server with the same id with
  it (`IdReuse.IdsRepeat`, `IdReuse.ServerIsRobbed`; exact condition in `IdReuse.EntriesHeldIffNeverStolen`).
- An end of a channel that has expired or whose session is gone is not told STOPPROXY; any other is told exactly once
  (`Relay.TeardownOnce`).
- When the channel is stopped, or its destination end expires, between an authentication echo and its completion, the
  downloader's `connect` opens the closed destination socket again: a torn-down channel keeps it open, and an expired end
  lives on (`RelayRuns.StoppedEndRevives`, `RelayRuns.ExpiredEndRevives`; exact condition in `RelayRuns.DstOpenExact` and
  `RelayRuns.ClosedAfterTeardown`).
- A failed authentication echo is taken back on the source side and never on the destination side
  (`RelayRuns.SrcAuthExact`, `RelayRuns.DstAuthIsFinal`).
- The downloader does not wait for the source's authentication: datagrams go to whoever sent the source socket anything
  last, and that is someone who has authenticated the source exactly if the source is authenticated
  (`RelayRuns.DownloadTargets`, `RelayRuns.StrangerIsServed`).

## Model

| member | source | states |
|---|---|---|
| RespMachine.RunAppend | src/redisclient/impl/redisparser.cpp:19-448 | segmentation independence: from any machine state and for any cut, parsing both parts one after the other gives the same result kind, value and end position as parsing them joined; a completed or rejected first part already decides |
| RespMachine.RunKeepsValid | src/redisclient/impl/redisparser.cpp:352-390 | in every state reachable by a parse that wants more, every suspended array and every suspended bulk body still lacks something |
| RespMachine.RunNest | src/redisclient/impl/redisparser.cpp:40-59 | a suspended outer array does not influence what happens inside it: the run is the run of the inner part, then the array resumed with the finished value |
| RespMachine.RunInside | src/redisclient/impl/redisparser.cpp:40-59 | how the run inside a suspended outer array decides the whole: still suspended, rejected at the same byte, or the outer array resumed with the value behind it |
| RespMachine.NothingSurvives | src/redisclient/impl/redisparser.cpp:84-87 | when the inner arrays were completed, an error further on leaves no array suspended |
| RespMachine.SurvivesAround | src/redisclient/impl/redisparser.cpp:44-50 | when everything inside failed, the outer array is kept, and what was kept inside stays |
| RespMachine.ResumeElement | src/redisclient/impl/redisparser.cpp:78-102 | building an array element by element: the next element is parsed as if it stood alone, then the rest of the array follows |
| RespMachine.RunBulk | src/redisclient/impl/redisparser.cpp:248-304 | reading a bulk body byte by byte ends in the same buffer, state and position as taking it as one block, for a complete and for a cut-off body |
| RedisParser.RedisParser.Parse | src/redisclient/impl/redisparser.cpp:19-25 | result kind, consumed count, value and all fields afterwards are those of the machine on the same bytes; values below are untouched; all input is consumed when more is wanted, at least one byte otherwise; after a rejected byte exactly those suspended arrays remain inside which everything failed |
| RedisParser.RedisParser.ParseArray | src/redisclient/impl/redisparser.cpp:27-108 | the recursive resumption of suspended arrays does what the machine does from the same state, whatever the nesting depth; on completion exactly one value has been added and no array is left suspended; on an error exactly the arrays around the one being filled are restored; it terminates |
| RedisParser.RedisParser.ParseElements | src/redisclient/impl/redisparser.cpp:61-107 | completing the missing elements agrees with the machine, and suspending again leaves built elements and remaining count |
| RedisParser.RedisParser.ParseChunk | src/redisclient/impl/redisparser.cpp:110-448 | the state automaton, with its block copies, agrees with the byte machine on every segment; a suspended bulk body is only ever seen at position 0 |
| RedisParser.RedisParser.ParseByte | src/redisclient/impl/redisparser.cpp:118-444 | a byte that copies no block and opens no array either ends the token with what the machine reports or leaves the rest of the segment to be run from the new state |
| RedisParser.RedisParser.StartBulk | src/redisclient/impl/redisparser.cpp:225-272 | the copy made at the line feed of a bulk header is equivalent to the byte-wise machine; it stops short only at the end of the segment |
| RedisParser.RedisParser.CopyBulk | src/redisclient/impl/redisparser.cpp:280-304 | the continued copy is equivalent to the byte-wise machine; its range is right because the position is 0 |
| RedisParser.RedisParser.StartArray | src/redisclient/impl/redisparser.cpp:372-390 | a positive array header suspends an empty array and goes on inside it, in agreement with the machine |
| RedisParser.RedisParser.ScanByte | src/redisclient/impl/redisparser.cpp:118-444 | every other state consumes one byte as the token scanner does: same next state and buffer, same value pushed, same rejections |
| RedisParser.RedisParser.ScanBulkSizeLF | src/redisclient/impl/redisparser.cpp:225-247 | a bulk header of size -1 completes with null, of size 0 leads to the closing CR LF, any other without a body is rejected |
| RedisParser.RedisParser.ScanArraySizeLF | src/redisclient/impl/redisparser.cpp:352-371 | an array header of size -1 or 0 completes with an empty array, any other without elements is rejected |
| RedisParser.RedisParser.Result | src/redisclient/impl/redisparser.cpp:450-465 | takes the last finished value off the stack and leaves the rest; null on an empty stack |
| RespGrammar.RunReply | src/redisclient/impl/redisparser.cpp:27-448 | completeness in any context: a well-formed reply inside any suspended arrays and before any bytes is consumed exactly and its value handed on |
| RespGrammar.RunElements | src/redisclient/impl/redisparser.cpp:76-107 | the elements of an array complete it with exactly their values, in order |
| RespGrammar.ReplyParses | src/redisclient/impl/redisparser.cpp:19-448 | parsing any well-formed reply followed by anything completes at its last byte with its meaning; error flags kept, size -1 an empty array |
| RespGrammar.PrefixFree | src/redisclient/impl/redisparser.cpp:19-448 | two replies at the start of the same bytes are the same bytes with the same value |
| RespSoundness.ScanSound | src/redisclient/impl/redisparser.cpp:118-444 | one byte of a token: if the bytes so far are explained by the scanner state they still are, and a finished token is a well-formed reply with its value or an array header with its positive size |
| RespSoundness.DeliverSound | src/redisclient/impl/redisparser.cpp:52-107 | handing a finished reply to the open arrays yields a finished reply or open arrays whose built elements plus remaining count are their declared size |
| RespSoundness.RunSound | src/redisclient/impl/redisparser.cpp:19-448 | soundness from any explained state, for any further bytes |
| RespSoundness.CompletedIsReply | src/redisclient/impl/redisparser.cpp:19-448 | a completed parse has consumed exactly one well-formed reply and returns its meaning |
| RespSoundness.SuspendedIsExplained | src/redisclient/impl/redisparser.cpp:61-95 | a parse that wants more holds exactly what it read: open arrays from the outside inwards, each with header, built elements and a positive remaining count that sum up to the declared size, then a partial token |
| RespSoundness.CompletesIffReply | src/redisclient/impl/redisparser.cpp:19-448 | a parse completes if and only if the input starts with a well-formed reply |
| RespSoundness.RejectedIsNoReply | src/redisclient/impl/redisparser.cpp:110-448 | a rejection is final: no reply begins with the bytes up to the rejected one, and none lies within the input |
| RespLiterals.PrintableIsText | src/redisclient/redisparser.h:34-42 | the bytes a text line may hold are exactly 32 to 126 |
| RespLiterals.TextLine | src/redisclient/impl/redisparser.cpp:145-224 | a line of bytes 32 to 126 behind + is a string and behind - an error, whatever follows |
| RespLiterals.TextRejects | src/redisclient/impl/redisparser.cpp:145-174 | any other byte but the carriage return is rejected exactly where it stands |
| RespLiterals.TextNeedsLineFeed | src/redisclient/impl/redisparser.cpp:198-224 | anything but a line feed behind the carriage return is rejected where it stands |
| RespLiterals.NumeralRejects | src/redisclient/impl/redisparser.cpp:175-197 | in a size or integer line anything but digits, minus signs and the carriage return, or the carriage return of an empty numeral, is rejected where it stands |
| RespLiterals.NumeralNeedsLineFeed | src/redisclient/impl/redisparser.cpp:225-440 | anything but a line feed behind a numeral's carriage return is rejected where it stands |
| RespLiterals.MarkerRejects | src/redisclient/impl/redisparser.cpp:120-144 | any first byte but + - : $ * is rejected at once |
| RespLiterals.IntegerLine | src/redisclient/impl/redisparser.cpp:398-440 | every integer from -2^63 to 2^63-1 in decimal is read as that integer |
| RespLiterals.BulkString | src/redisclient/impl/redisparser.cpp:225-328 | a bulk string of up to 2^63-1 arbitrary bytes is read as these bytes |
| RespLiterals.BulkNeedsEnd | src/redisclient/impl/redisparser.cpp:305-328 | anything but CR LF behind the body is rejected where it stands |
| RespLiterals.SpecialSizes | src/redisclient/impl/redisparser.cpp:233-242 | $-1 is null, *0 and *-1 are empty arrays, whatever follows |
| RespLiterals.NegativeSizes | src/redisclient/impl/redisparser.cpp:243-247 | sizes below -1 are rejected at the end of their line |
| Decimal.StrToLOfDecimal | src/redisclient/impl/redisparser.cpp:229-230 | `strtol` reads back every 64-bit number that was written in decimal |
| RespEncoding.CanonicalMeans | src/redisclient/impl/redisparser.cpp:27-448 | every value RESP2 can carry has a well-formed encoding that means it |
| RespEncoding.RoundTrip | src/redisclient/impl/redisparser.cpp:19-465 | parsing the encoding of any value, followed by anything, gives the value back and consumes exactly the encoding |
| RespEncoding.MakeCommand | src/redisclient/impl/redisclientimpl.cpp:171-192 | the bytes built are the encoding of the array of the arguments as bulk strings, including empty arguments and ones with CR LF |
| RespEncoding.CommandsPrefixFree | src/redisclient/impl/redisclientimpl.cpp:171-192 | commands whose bytes start the same stream are equal: the encoding is injective and prefix-free |
| RespStream.FeedAppend | src/redisclient/impl/redisclientimpl.cpp:270-292 | the read loop extracts the same values from two segments as from one, and ends in the same state |
| RespStream.FeedReplies | src/redisclient/impl/redisclientimpl.cpp:270-292 | whole replies at the front of a segment yield their values in order, and the rest is read as if it came alone |
| RespStream.FeedPrefix | src/redisclient/impl/redisclientimpl.cpp:270-292 | a reply stream cut off anywhere yields exactly the values of the replies that arrived whole, and no error |
| RespStream.CommandsDecode | src/redisclient/impl/redisclientimpl.cpp:171-192 | concatenated commands decode to exactly that list of commands |
| RedisClient.RedisClient.DoAsyncCommand | src/redisclient/impl/redisclientimpl.cpp:243-260 | queues buffer and handler, and starts a write only if none was queued |
| RedisClient.RedisClient.AsyncWrite | src/redisclient/impl/redisclientimpl.cpp:134-153 | a completed write removes the front and starts the next; a failed one leaves the queue as it is, with nobody writing |
| RedisClient.RedisClient.DoProcessMessage | src/redisclient/impl/redisclientimpl.cpp:114-131 | calls the oldest waiting handler with the reply, or reports an unexpected message; parser and read state are unchanged |
| RedisClient.RedisClient.AsyncRead | src/redisclient/impl/redisclientimpl.cpp:262-294 | a segment dispatches exactly the values it completes, in order, and the loop ends for every segment; a rejected byte or a failed read ends reading |
| RedisClient.RedisClient.Command | src/redisclient/impl/redisclientimpl.cpp:171-260 | issuing a command is a step of the runs: its encoding is queued behind the others together with its handler |
| RedisClient.RedisClient.OnWritten | src/redisclient/impl/redisclientimpl.cpp:134-153 | the completion of a write is a step of the runs |
| RedisClient.RedisClient.OnReceived | src/redisclient/impl/redisclientimpl.cpp:262-294 | the completion of a read is a step of the runs |
| RedisClient.AbsorbParse | src/redisclient/impl/redisclientimpl.cpp:270-290 | one turn of the read loop accounts for the whole segment: done, rejected, or a reply dispatched and the remaining bytes to go |
| Pipeline.HonestRunsInStep | src/redisclient/impl/redisclientimpl.cpp:243-294 | along every run against a server that replies in order, handlers waiting, calls made and parser state are functions of the commands issued and the bytes received before a read fails; the client reads on exactly until then |
| Pipeline.PipelineDelivers | src/redisclient/impl/redisclientimpl.cpp:114-131 | end to end: the handlers called are exactly those of the replies arrived whole before any read failure, each with its own reply, in issue order, however the bytes were cut; the unexpected-message branch is never taken; when all bytes are in, all are called |
| Pipeline.SingleWriter | src/redisclient/impl/redisclientimpl.cpp:134-153 | in every run, sent buffers followed by queued ones are the commands issued, in order; a write is outstanding exactly when the queue is non-empty and no write has failed |
| Pipeline.WireCarriesCommands | src/redisclient/impl/redisclientimpl.cpp:134-192 | a server decoding the completed writes reads exactly the first commands issued, one for each |
| Pipeline.WritesExactly | src/redisclient/impl/redisclientimpl.cpp:134-153 | one buffer has been sent per write completed well, and writing is over exactly if a write has failed |
| Pipeline.MessagesAccounted | src/redisclient/impl/redisclientimpl.cpp:114-131 | in every run, whatever the server sends, waiting handlers and reported unexpected messages are what counting commands and values received gives; every value is a handler's call or reported |
| Pipeline.ReadingExactly | src/redisclient/impl/redisclientimpl.cpp:262-294 | reading has ended exactly if a read or parser failure has been reported |
| Pipeline.ClientDelivers | src/redisclient/impl/redisclientimpl.cpp:114-294 | at every moment of a client object's life against an honest server, the calls it has made, the handlers, sent buffers and queue it holds and its writing state are what its history of commands, writes and reads determines |
| SessionDb.PendingCompletes | src/net/CSessionDb.cpp:69-135 | applying the pending requests to the directory gives what the whole request log describes, at every moment |
| SessionDb.DirectoryIsAddedNotDeleted | src/net/CSessionDb.cpp:80-127 | for a log that never adds an id mentioned before, the directory holds exactly the entries added and not deleted |
| SessionDb.FirstAdditionWins | src/net/CSessionDb.cpp:80-127 | adding an id again changes nothing; deleting an id removes it and leaves all others as they are |
| SessionDb.RecordsRoundTrip | src/net/CSessionDb.cpp:144-155 | any list of records is read back from its bytes |
| SessionDb.SnapshotRoundTrip | src/net/CSessionDb.cpp:141-157 | a snapshot is read back to its records if and only if there are at most 255, which is also exactly when it fits the 2048-byte buffer |
| SessionDb.SnapshotLayout | src/net/CSessionDb.cpp:141-157 | a snapshot byte by byte: the count, then 8 bytes a record, id before address, lowest byte first |
| SessionDb.PublicationsReadable | src/net/CSessionDb.cpp:137-163 | every publication of a run is a readable snapshot that fits the buffer if and only if none was made with more than 255 entries in the directory; otherwise the buffer has been left |
| SessionDb.OverrunIsReached | src/net/CSessionDb.cpp:144-157 | for every number of entries above 255 there is a run of additions and one publication that leaves the buffer |
| SessionDb.SnapshotsAdvance | src/net/CSessionDb.cpp:59-197 | in every run all of whose publications are readable, a later reader never sees an earlier prefix of the log, a published prefix has been applied, and what was read stays a snapshot of its prefix |
| SessionDb.CatchesUp | src/net/CSessionDb.cpp:59-163 | from every point of every run, taking each pending request once and publishing makes clients read the directory of the whole log, unless it has more than 255 entries |
| SessionDb.SessionDb.PendingAreKept | src/net/CSessionDb.cpp:69-135 | the pending requests applied to the directory object give what its whole request log describes |
| SessionDb.SessionDb.Request | src/net/CSessionDb.cpp:165-187 | a request is appended to the log behind all pending ones; directory and published snapshot are unaffected |
| SessionDb.SessionDb.Operate | src/net/CSessionDb.cpp:69-135 | takes the oldest request, if any; the directory stays the result of the log prefix taken so far |
| SessionDb.SessionDb.Fill | src/net/CSessionDb.cpp:139-157 | in whatever order the map yields its entries, the buffer holds the count and each entry exactly once; it fits if and only if there are at most 255 |
| SessionDb.SessionDb.Serial | src/net/CSessionDb.cpp:137-163 | publishes a readable snapshot of length 1 + 8n of the directory at the log prefix taken so far, exactly when n is at most 255; otherwise the buffer has been left and nothing is promised any more |
| SessionDb.SessionDb.Output | src/net/CSessionDb.cpp:189-197 | what a client is given is the initial empty string or a readable snapshot of the directory after a prefix of the log |
| Registry.StepKeepsGuids | src/net/CSessionMgr.cpp:65-106 | every step of any handler keeps GUID set, holders and lost GUIDs in agreement, in both directions |
| Registry.RunsKeepGuids | src/net/CSessionMgr.cpp:65-106 | the same over every interleaving of logins, failed and repeated logins and closes |
| Registry.GuidExclusion | src/net/CSessionMgr.cpp:79-84 | two sessions logged in and not stopped have different GUIDs, and both are in the set |
| Registry.GuidSetExact | src/net/CSessionMgr.cpp:65-106 | between handlers the set is exactly the GUIDs of active sessions if and only if no login of the run failed for want of a peer address and none succeeded in a session no longer started |
| Registry.LateLoginKeepsGuid | src/net/CSession.cpp:250-258 | there is a run in which a stopped session logs in and keeps its GUID taken, which stopping again does not change |
| Registry.LostAddressKeepsGuidAndId | src/net/CSessionMgr.cpp:94-99 | there is a run in which a login fails for want of a peer address and leaves its GUID and its id taken, while the directory never hears of it |
| Directory.IdIsFresh | src/net/CSessionMgr.cpp:86-92 | while the 32-bit counter has not wrapped, an allocated id is never in the id map yet, so the collision branch is not taken |
| Directory.RunsKeepInv | src/net/CSessionMgr.cpp:46-106 | over every interleaving, id map, request log and directory agree with the sessions' progress |
| Directory.IdsAreDistinct | src/net/CSessionMgr.cpp:86 | sessions logged in and not stopped, listed or not, have pairwise different ids while at most 2^32 have been allocated |
| IdReuse.EntriesHeldIffNeverStolen | src/net/CSessionMgr.cpp:65-92 | without a bound on ids: throughout a run every session in the id map is there under its own id if and only if no closing session erased an id another one was using |
| IdReuse.ListedIdsAreDistinct | src/net/CSessionMgr.cpp:86-92 | in such runs sessions in the map have pairwise different ids, however many have been allocated |
| IdReuse.IdsRepeat | src/net/CSessionMgr.cpp:86 | there is a run of 2^32 + 1 logins after which two active sessions have the same id |
| IdReuse.ServerIsRobbed | src/net/CSessionMgr.cpp:67-73 | when the later of the two closes, the other is gone from the id map while still logged in |
| Directory.LogDescribesSessions | src/net/CSessionMgr.cpp:65-106 | in every interleaving an addition precedes the deletion of its id, and the directory the log describes is exactly the listed sessions added and not yet struck off |
| Directory.MapMatchesDirectory | src/net/CSessionMgr.cpp:46-106 | between handlers the id map and the directory described by the log have the same ids if and only if no login of the run failed for want of a peer address |
| Listings.ActiveIsListed | src/net/CSessionMgr.cpp:86-103 | in every run, while at most 2^32 ids have been allocated, an active session has its id in map and directory, with its own address and GUID, exactly if its type is 2 or 3, and otherwise its id is not in the directory |
| Listings.LoginOutcome | src/net/CSessionMgr.cpp:79-106 | an uninterrupted login succeeds exactly if its GUID is free and, for types 2 and 3, its id is free and the peer address known; then its id is the next from 1000, and for these types only map and log get its entry |
| Listings.LoginSucceeds | src/net/CSessionMgr.cpp:79-106 | while ids do not repeat, a login fails only for a taken GUID or a lost peer address |
| Published.LogsAgree | src/net/CSessionMgr.cpp:65-106 | the requests that the interleaved handlers make are the log the worker and the publications see |
| Published.PrefixMoment | src/net/CSessionMgr.cpp:65-106 | every prefix of the request log was the whole log at some moment of the run |
| Published.ListsAll | src/net/CSessionDb.cpp:144-155 | a snapshot with as many different ids as the directory has entries leaves none out |
| Published.PublishedIsAMoment | src/net/CSessionDb.cpp:59-197 | in every interleaving of handlers, worker and publications that stays within the buffer, whatever snapshot a client reads decodes to exactly the ids and addresses of the sessions that were in the directory at one moment of the run |
| SessionMgr.CSafeSet.Insert | src/util/CSafeSet.hpp:19-26 | says whether the item was new; afterwards it is in, and nothing else changed |
| SessionMgr.CSafeSet.Remove | src/util/CSafeSet.hpp:27-34 | says whether the item was there; afterwards it is not, and nothing else changed |
| SessionMgr.CSessionMgr.AddSession | src/net/CSessionMgr.cpp:46-54 | an id that is taken is refused and its entry kept |
| SessionMgr.CSessionMgr.OnSessionLogin | src/net/CSessionMgr.cpp:79-106 | uninterrupted, the login leaves GUID set, id map, id counter and request log as the interleaved steps do one after the other, in every failure branch too |
| SessionMgr.CSessionMgr.OnReqLogin | src/net/CSession.cpp:250-277 | a repeated login changes nothing and is told its id again; otherwise GUID, private address and type are kept even on failure, a success answers with the id and stops the login timer, a failure leaves it running |
| SessionMgr.CSessionMgr.CloseSession | src/net/CSessionMgr.cpp:65-77 | only a logged-in session gives GUID, directory entry and id back; every closed one is counted off at the server if that still exists |
| SessionMgr.CSessionMgr.Stop | src/net/CSession.cpp:38-58 | only the first stop asks exactly the session's channels that still exist to stop, forgets its channels and closes the session, and the server counts it off exactly then; the timer is cancelled in any case |
| SessionMgr.CollidingLogin | src/net/CSessionMgr.cpp:88-92 | a login whose id is taken ends with the GUID given back and the session not logged in |
| SessionMgr.MappedLogin | src/net/CSessionMgr.cpp:94-105 | a login that enters the map logs its addition if the peer address is known; otherwise it fails and leaves GUID and map entry behind |
| SessionMgr.FullClose | src/net/CSessionMgr.cpp:65-73 | closing removes exactly the session's GUID and id and logs exactly one deletion |
| Frames.PacketsOfJoin | src/net/CSession.cpp:81-180 | packets at the front of a stream are recognised one by one, and recognition goes on behind them |
| Frames.PacketsIsLongest | src/net/CSession.cpp:81-180 | the packets recognised are a prefix of the stream and extend every other list of packets the stream starts with |
| Frames.PacketInNumbers | src/net/CSession.cpp:227-248 | a packet dispatched begins with 221, 5, has version 2 or 4, and is 8 bytes plus the non-empty body its last two header bytes announce, lowest byte first |
| Session.DispatchesThePackets | src/net/CSession.cpp:112-180 | in every run the packets dispatched are the longest list of packets with valid header and non-empty body that the bytes received start with; the buffer is empty when a header is awaited and holds exactly the header when a body is |
| SessionRuns.NeverStopsReading | src/net/CSession.cpp:81-97 | in every run a started session has a read outstanding |
| SessionRuns.ReadsTheStream | src/net/CSession.cpp:81-180 | whoever feeds the reads from a byte stream: once none can be completed any more, the packets dispatched are exactly those at the front of the stream, and the session has stopped exactly if a complete header follows that is invalid or announces an empty body |
| SessionRuns.StreamIsServed | src/net/CSession.cpp:81-180 | every stream can be fed to that point |
| SessionRuns.FailureStops | src/net/CSession.cpp:112-144 | a failed read and a stop request each end the session |
| SessionRuns.OnceStopped | src/net/CSession.cpp:38-58 | what has ended never starts again |
| Session.StepKeepsWriteInv | src/net/CSession.cpp:182-225 | messages written followed by messages queued stay the messages posted; only a failed write with messages behind it leaves a queue nobody writes |
| Session.SingleWriter | src/net/CSession.cpp:182-225 | one write at most, always the front; what was written followed by what is queued is the non-empty messages posted in the run, in order; a write is outstanding exactly when the queue is non-empty, if and only if no failed write ever stranded the queue |
| Session.QueueIsStranded | src/net/CSession.cpp:210-225 | two messages posted and one failed write leave a started session with a queue that nobody writes |
| Session.StrandedForGood | src/net/CSession.cpp:210-225 | once stranded, nothing is ever written again, whatever happens next |
| Session.CSession.OnReadHead | src/net/CSession.cpp:112-136 | a valid header is kept in buffer and field and its body awaited; anything else stops the session |
| Session.CSession.CheckHead | src/net/CSession.cpp:227-248 | accepts exactly the two magic bytes with a known version; a refused header is consumed and cleared |
| Session.CSession.OnReadBody | src/net/CSession.cpp:138-180 | a complete body is dispatched with its header and consumed, and the next header awaited if still started; a failed or empty read stops the session |
| Session.CSession.WriteImpl | src/net/CSession.cpp:182-208 | queues the message and starts a write only if it is alone |
| Session.CSession.OnWriteComplete | src/net/CSession.cpp:210-225 | removes the front in either case and starts the next write only after a success |
| Admission.AdmissionBound | src/net/CServer.cpp:160-180 | however n acceptors interleave: for every limit, 0 included, the 32-bit counter is the number of sessions counted in and not closed; for a positive limit it never underflows and with the acceptors past their check never exceeds limit + n |
| Admission.BoundIsReached | src/net/CServer.cpp:160-169 | for every limit and number of acceptors there is a run in which the counter reaches limit + n |
| Admission.CheckPasses | src/net/CServer.cpp:160-165 | an idle acceptor's check passes always for limit 0, and otherwise exactly while at most limit sessions are counted in and not closed |
| Admission.CountsAndCloses | src/net/CServer.cpp:167-180 | an acceptor past its check counts exactly one more session in, and a close takes exactly its session off |
| Admission.NoLimit | src/net/CServer.cpp:160-169 | with limit 0 any number of sessions is reached |
| Admission.CServer.Admit | src/net/CServer.cpp:160-165 | lets a connection pass unless a positive limit is already exceeded; it does not count it |
| Admission.CServer.SessionClosed | src/net/CServer.cpp:175-180 | takes one counted session off again |
| Relay.StepKeepsControl | src/net/CChannel.cpp:164-192 | every step keeps: an authenticated source implies an authenticated destination and the pinned address; the teardown counters and the sessions and source socket it released agree |
| Relay.StepKeepsFlows | src/net/CChannel.cpp:288-456 | every step keeps: a datagram being sent is in the buffer as received, sent payloads are the accepted ones minus failures, counters count them, and no send begins after a stop except in an iteration already receiving |
| Relay.OthersLeaveUp | src/net/CChannel.cpp:409-456 | no step of the downloader, no stop, expiry or lost session touches what the uploader is relaying |
| Relay.OthersLeaveDown | src/net/CChannel.cpp:288-344 | the same for the downloader |
| Relay.UpAccepts | src/net/CChannel.cpp:299-328 | the only way a datagram is accepted for upload: received while authenticated, more than two bytes, from the pinned address |
| Relay.RunsKeepInv | src/net/CChannel.cpp:218-456 | all of the above over every interleaving from a channel just started |
| Relay.UploadIsFaithful | src/net/CChannel.cpp:218-344 | in every interleaving what was sent up is, byte for byte and in order, the datagrams received on the source socket after its authentication, longer than two bytes and from the pinned address, whose send succeeded; both counters are their number and total size modulo 2^64 |
| Relay.DownloadIsFaithful | src/net/CChannel.cpp:346-456 | the same for what was received on the destination socket after its authentication; each datagram is sent to where the source socket last took one from |
| RelayExact.AcceptedExactly | src/net/CChannel.cpp:299-440 | nothing is dropped or added: in every run what each coroutine accepts for relaying is exactly every datagram of more than two bytes that arrives while it receives, upwards from the source's address only |
| RelayExact.UpNext | src/net/CChannel.cpp:218-344 | after each of its events the uploader sends what it has to send, echoes what it has to echo, and otherwise waits for the next datagram as long as the channel is started |
| RelayExact.DownNext | src/net/CChannel.cpp:346-456 | the same for the downloader; the destination is authenticated by any non-empty datagram and by nothing else |
| RelayExact.EndpointAndEchoes | src/net/CChannel.cpp:224-328 | in every run the source's endpoint is its last sender's - any while authenticating, later any from the same address - and what is being echoed is the authentication itself, or as many zeros if the destination was not authenticated then |
| RelayExact.DstAuthExact | src/net/CChannel.cpp:351-379 | the destination is authenticated exactly from the first non-empty datagram it is sent while authenticating |
| RelayRuns.StrangerIsServed | src/net/CChannel.cpp:436-440 | for every stranger there is a run in which a datagram is sent down to the stranger, who only sent the source socket something, while the source is not authenticated |
| RelayRuns.SrcAuthExact | src/net/CChannel.cpp:218-286 | in every run the source is authenticated with an endpoint of an address if and only if that address authenticated it and no echo has failed since |
| RelayRuns.DownloadTargets | src/net/CChannel.cpp:436-440 | each datagram goes to the source's endpoint of the moment it was accepted, and that is someone who has authenticated the source, unrevoked, if and only if the source was authenticated then |
| RelayRuns.DstAuthIsFinal | src/net/CChannel.cpp:381-395 | a destination once authenticated stays so for the rest of every run, whatever its echoes come to |
| Relay.TeardownOnce | src/net/CChannel.cpp:164-192 | however many coroutines, stop requests and expiries fire, the teardown runs at most once; each session is told exactly once if its end had not lost it and never otherwise; the source socket is closed and both ends without a session afterwards; each coroutine begins at most one send afterwards |
| RelayExact.TornDownExactly | src/net/CChannel.cpp:164-338 | a channel is torn down exactly if a stop request was served or an operation failed on a closed socket |
| RelayExact.LossesExactly | src/net/CChannel.cpp:40-102 | an end has lost its session exactly if it expired or the session went while the channel was started; the source socket is open exactly until it expires or the teardown |
| RelayRuns.DstOpenExact | src/net/CChannel.cpp:346-421 | in every run the destination socket is open if and only if nothing has closed it yet or the downloader, leaving its authentication phase, has reopened it since |
| RelayRuns.ClosedAfterTeardown | src/net/CChannel.cpp:164-192 | after the teardown the source socket is closed; the destination socket is closed if and only if the downloader's connect has not reopened it since it was last closed |
| RelayRuns.StoppedEndRevives | src/net/CChannel.cpp:416-421 | a run in which the stop comes between an echo and its completion and the torn-down channel is left with an open destination socket |
| RelayRuns.ExpiredEndRevives | src/net/CChannel.cpp:416-433 | a run in which the end expires in the same place and lives on: the channel stays started, and a failed receive no longer stops it |
| Channel.CEnd.Stop | src/net/CChannel.cpp:40-45 | closes the socket and drops the owner |
| Channel.CChannel.StopChannel | src/net/CChannel.cpp:164-192 | tears down a started channel once and tells the owners still known before their ends are closed |
| Channel.CChannel.FieldsTellAll | src/net/CChannel.cpp:164-456 | at every moment of a channel's life its own counters count exactly the datagrams sent, which are those received and accepted minus failed sends; it has been torn down once if it is no longer started, and each end that had not lost its session has been told once; its source socket is then closed, its destination socket open exactly if revived |
| Channel.CChannel.ServeStop | src/net/CChannel.cpp:152-192 | a posted stop request is a step of the proved runs |
| Channel.CChannel.PortExpired | src/net/CChannel.cpp:77-102 | an expired end closes its socket and drops its owner, and the channel goes on |
| Channel.CChannel.SessionDestroyed | src/net/CChannel.cpp:166-177 | an end whose session is destroyed no longer reaches it at the teardown |
| Channel.CChannel.Uploader | src/net/CChannel.cpp:288-293 | entering the uploader is the first step of its run |
| Channel.CChannel.Downloader | src/net/CChannel.cpp:346-421 | entering the downloader is the first step of its run; if the channel has been stopped before, it goes straight to the connect, which may reopen the destination socket |
| Channel.CChannel.OnSrcAuthReceived | src/net/CChannel.cpp:223-259 | a step of the proved runs: the source is authenticated only if the destination is; otherwise zeros are echoed; the sender's endpoint is taken even from a refused datagram |
| Channel.CChannel.OnSrcAuthEchoed | src/net/CChannel.cpp:259-275 | a step of the proved runs: a failed echo takes the authentication back; the channel stops only if the socket is gone |
| Channel.CChannel.OnUploadReceived | src/net/CChannel.cpp:299-328 | a step of the proved runs: a foreign address is ignored, a new port followed, a heartbeat dropped, anything longer sent as received |
| Channel.CChannel.OnUploadSent | src/net/CChannel.cpp:328-341 | a step of the proved runs: only a successful send is counted; a failed one stops the channel only if the destination socket is gone |
| Channel.CChannel.OnDstAuthReceived | src/net/CChannel.cpp:351-381 | a step of the proved runs: any non-empty datagram authenticates the destination and is echoed |
| Channel.CChannel.OnDstAuthEchoed | src/net/CChannel.cpp:381-421 | a step of the proved runs: a failed echo leaves the authentication in place, and the channel stops only if the socket is gone; a successful one leads to the connect, which may reopen a socket closed meanwhile |
| Channel.CChannel.OnDownloadReceived | src/net/CChannel.cpp:423-440 | a step of the proved runs: heartbeats are dropped, anything longer is sent as received to the source's last endpoint |
| Channel.CChannel.OnDownloadSent | src/net/CChannel.cpp:440-453 | a step of the proved runs: only a successful send is counted; a failed one stops the channel only if the source socket is gone |

## Left out

- Sockets, timers, strands, coroutines and worker threads themselves: they appear as completions and steps in any order.
- RedisClient.RedisClient.AsyncRead: the error handler is taken to return; the default one throws, the thread of the io_context then ends, and the run with it.
- RedisClient.RedisClient.AsyncWrite: the error handler is taken to return, as above.
- RedisClient.RedisClient.DoProcessMessage: the error handler is taken to return, as above.
- The Subscribed state, single-shot handlers, the `command` overloads and the synchronous command of the Redis client.
- Memory exhaustion by huge declared sizes, and `isdigit` on negative characters, which C++ leaves undefined.
- The parser's own asserts are not separate members: lines 29, 30 and 281 of `redisparser.cpp` are preconditions every caller is proved to meet, 98 and 104 follow from the contracts of the calls before them.
- Mirroring of directory changes to Redis in `operate`, which only writes.
- SessionDb.SessionDb.Serial: what the program publishes once it has written past its buffer is undefined in C++; from then on the directory object promises nothing.
- SessionDb.SessionDb.Operate: waiting on the condition variable is a step that takes nothing.
- SessionMgr.CSessionMgr.OnSessionLogin: proved for uninterrupted execution; the interleaving of several handlers is proved on values, in `Registry` and `Directory`.
- SessionMgr.CSessionMgr.Stop: closing the socket is left out; what a channel does when asked to stop is in `Relay`.
- Directory.RunsKeepInv: stated while at most 2^32 ids have been allocated; after the id counter wraps, ids repeat (`IdReuse.IdsRepeat`).
- Request decoding, response layout, and the login timer's duration.
- Session.CSession.OnReadBody: which request a dispatched packet is, and what its handler answers, is left out.
- Relay.DownloadIsFaithful: the filter that `connect` installs in the kernel for the destination socket, and that a reopened socket has another local port, are left out.
- Channel creation (`createChannel`, `init`), the window between the running check and `start` in another thread, the traffic display, and the expiry clock: expiry may happen at any step.
- Channel.CChannel.OnDstAuthReceived: `doAuth` refuses only empty datagrams, which never get that far, so its refusal branch is left out.
- Logging, configuration, daemonising, signals and formatting.
