# Redis 7.0.0 core: a verified model

A Dafny model of six parts of the Redis 7.0.0 sources, with proofs of what they are for.

- **Append-only file (`aof.c`).** The log format and its loader, the rewrite of a dataset into commands, the flush
  under every outcome of `write` and `ftruncate`, and the protocol of BASE, INCR and manifest files with its
  background rewrite. `AofFormat`, `AofParse`, `AofLoad`: writing and reading bytes. `AofRecovery`, `AofTruncate`:
  which commands survive a cut. `AofRefused`: which files are refused. `AofDataset`, `AofRewrite`, `AofRebuild`,
  `AofChild`: a rewrite rebuilds its dataset. `AofFlush`: nothing lost or written twice. `AofFeed`: commands and
  transactions as they are fed. `AofManifest`, `AofReplay`, `AofProtocol`, `AofProtocolKeeps`, `AofProtocolRuns`:
  the protocol and what every run of it keeps. `AofRestart`: stops and starts. `AofProtocolLeftover`: what a flush
  that fails breaks. `AofPaths`, `AofServer`: the functions that take the steps.
- **ACL command rules (`acl.c`).** `AclModel`, `AclInvariant`: rules and what they keep. `AclEffects`: exactly what
  each rule changes and what is permitted afterwards. `AclNames`: which command a rule text names, and which texts
  are refused. `AclSelector`: the selector with its bitmap of machine words. `AclDescribe`: the greedy description
  of a selector, and why its panic is unreachable. `AclCommandIds`: numbering commands.
- **Blocking operations (`blocked.c`).** `BlockedModel`, `BlockedSteps`, `BlockedServe`, `BlockedHandle`: the state,
  its invariants and its steps. `BlockedGives`: what a served client takes, element by element. `BlockedServer`: the
  functions that run them in place. `BlockedRuns`: whole runs.
- **CRC-64 (`crc64.c`, `crcspeed.c`).** `Crc64`, `Crcspeed`, `CrcspeedBig`: polynomial division, the bit-by-bit
  routine, and the slice-by-8 routines for both byte orders. `BitStrings` holds words as strings of bits.
- **Bitmaps (`bitops.c`).** `Bitmap`, `BitopsCount`, `BitopsPos`, `BitopsPosCommand`, `BitopsOp`, `BitopsField`,
  `BitopsOverflow`, `BitopsFieldCommand`, `BitopsFieldReplies`: BITCOUNT, BITPOS, BITOP and BITFIELD against
  positions and integers.
- **Lists and background jobs (`adlist.c`, `bio.c`).** `AdList`: the doubly linked list on the heap. `Bio`: the job
  queue as interleaved steps.
- `Options` and `Equality` are shared by all.

`dafny verify dfyconfig.toml` checks everything.

## Choices

- Machine words are strings of booleans where the code mixes bits (CRC, ACL bitmaps, BITOP, BITPOS), Dafny bit
  vectors where it computes with them (the population count), and integers with explicit conversions to
  `uint64_t` and `int64_t` where it counts (BITFIELD).
- State that the code updates in place is a class whose methods are proved equal to step functions on a value
  of the same state. What is promised over whole runs is proved about the step functions.
- System calls, `fork`, clocks, memory addresses and the outcomes of threads are parameters. `rename` is atomic,
  a `fork` takes a snapshot, and a `write` appends.

## What turned out not to hold

- A wakeup is lost when a value overwrites a key at which somebody waits for its type: `setKey` overwrites
  without signalling the key. `BlockedServe.DbOverwriteExact` says exactly when an overwrite loses a wakeup,
  `BlockedRuns.After` that nothing else does, and `BlockedRuns.OverwriteCanLoseWakeup` gives a state.
- A log that is cut inside a command of an open MULTI is truncated after the MULTI, so what is appended later
  is swallowed up to the next EXEC. `AofTruncate.ReloadExact` and `AofTruncate.ReloadsUnlessTorn` say exactly when
  a cut leaves that behind, `AofTruncate.AppendedAfterCut` and `AofTruncate.LostAfterCut` what follows,
  `AofTruncate.BadCut` gives a log. For a server that stops and starts again, `AofRestart.StopsCleanlyUnlessTorn`
  says at which moments a stop does it, `AofRestart.RestartKeeps` and `AofRestart.TornStopLoses` what follows, and
  `AofRestart.UncleanStop` is a run that gets there and loses a command.
- A forced flush that leaves bytes in the buffer before a rewrite: if they are whole commands, these run twice; if
  they start in the middle of a command, the files may not load at all. `AofProtocolLeftover.LeftoverExact` says
  for every buffer what the finished rewrite loads to; `AofProtocolLeftover.RunsTwice` and
  `AofProtocolLeftover.CannotRestart` are runs that get there.
- BITFIELD SET under SAT does not always store the nearest bound: `BitopsOverflow.UnsignedSetExact` and
  `BitopsOverflow.SignedSetExact` say exactly when, `BitopsOverflow.SaturatesUpwards` gives a value. It stores the
  other bound then, and the contracts of BITFIELD say so.

## Model

| member | source | states |
|---|---|---|
| AofFormat.CatAppendOnlyGenericCommand | redis-7.0.0/src/aof.c:1219-1242 | The loop appends the encoding of the whole command, arguments with arbitrary bytes included, to what was there. |
| AofFormat.ParseHeader | redis-7.0.0/src/aof.c:1435-1457 | A printed number followed by anything but a digit is read back as itself. |
| AofParse.ReadCommandBack | redis-7.0.0/src/aof.c:1409-1475 | The reader returns exactly the command that was encoded and leaves exactly the bytes that follow, for every command. |
| AofParse.ReadCommandCut | redis-7.0.0/src/aof.c:1409-1475 | Every proper prefix of an encoded command, wherever it is cut, reads as cut off: never as a shorter command, never as malformed. |
| AofLoad.LoadSingleAppendOnlyFile | redis-7.0.0/src/aof.c:1409-1568 | The loading loop over a file computes the outcome, the executed commands and both offsets, which only move with aof-load-truncated, of the recursive reading of the file. |
| AofRecovery.RunMeaning | redis-7.0.0/src/aof.c:1476-1515 | Executing and queueing commands one by one has the effect the log means: plain commands and closed transactions, in order. |
| AofRecovery.LoadInvertsEncode | redis-7.0.0/src/aof.c:1338-1568 | Loading an encoded log executes what it means; it loads without complaint iff the log ends outside a transaction. |
| AofRecovery.LoadAnyPrefix | redis-7.0.0/src/aof.c:1338-1568 | Loading any byte prefix of a log executes exactly the whole commands and closed transactions in the prefix. |
| AofRecovery.LoadPrefix | redis-7.0.0/src/aof.c:1338-1568 | Outcome, state and offsets after loading any byte prefix, for both settings of aof-load-truncated. |
| AofTruncate.ReloadExact | redis-7.0.0/src/aof.c:1515-1568 | The truncated file executes the same commands again, and loads cleanly iff the commands kept end outside a transaction. |
| AofTruncate.ReloadsUnlessTorn | redis-7.0.0/src/aof.c:1515-1568 | With no nested MULTI, the truncated file loads cleanly iff the log was not torn inside a command of an open transaction. |
| AofTruncate.AppendedAfterCut | redis-7.0.0/src/aof.c:1517-1568 | When they do, commands appended to the truncated file take effect after the surviving ones. |
| AofTruncate.LostAfterCut | redis-7.0.0/src/aof.c:1517-1568 | When they do not, everything appended up to the next EXEC has no effect at the next load. |
| AofTruncate.BadCut | redis-7.0.0/src/aof.c:1517-1568 | A MULTI and one byte of the next command: a log that the loader truncates inside an open transaction. |
| AofRewrite.RewriteItems | redis-7.0.0/src/aof.c:1728-1967 | For every collection size the loop writes complete commands of at most 64 items: each header announces exactly the arguments that follow. |
| AofRewrite.WrittenLog | redis-7.0.0/src/aof.c:1728-1768 | Headers and as many arguments as they announce are, byte for byte, the encoding of the commands. |
| AofRebuild.ChunksExec | redis-7.0.0/src/aof.c:1728-1967 | However many commands a collection is cut into, executing them adds all of its items in order. |
| AofRebuild.KeyRebuilt | redis-7.0.0/src/aof.c:2224-2272 | The commands for one key restore its value and its expiry time and touch no other key. |
| AofRebuild.IterateItems | redis-7.0.0/src/aof.c:1728-1967 | In whatever order the iterators of lists, sets, sorted sets and hashes return items, adding them to an empty value gives the value back. |
| AofRebuild.RewriteKey | redis-7.0.0/src/aof.c:2224-2272 | What is written for a key, on any database without the key, adds exactly that key with its value and expiry. |
| AofRebuild.RewriteDb | redis-7.0.0/src/aof.c:2212-2291 | What is written for a database rebuilds it from nothing. |
| AofRebuild.RewriteAppendOnlyFileRio | redis-7.0.0/src/aof.c:2196-2297 | Executing what is written on an empty server gives exactly the databases it was made from, over many databases, some empty; every command is a SELECT or one of six with at most 64 items, all arguments taken from the databases. |
| AofRebuild.RewriteWritable | redis-7.0.0/src/aof.c:2196-2297 | When strings, expiry times and the number of databases have the sizes that C types allow, every command of a rewrite can be written to a file and read back. |
| AofChild.RewriteReloads | redis-7.0.0/src/aof.c:2196-2297 | The bytes of any rewrite of a dataset of such sizes load without complaint and rebuild the dataset, for every table that knows the seven commands. |
| AofChild.ChildCanSucceed | redis-7.0.0/src/aof.c:2398-2410 | A child whose file holds a rewrite of its dataset can take the step in which the protocol takes the file over as BASE. |
| AofFlush.Aof.constructor | redis-7.0.0/src/aof.c:806-817 | A new file with nothing fed to it. |
| AofFlush.Aof.Reopen | redis-7.0.0/src/aof.c:806-817 | A new INCR file starts empty and the sizes stay right. |
| AofFlush.Aof.Append | redis-7.0.0/src/aof.c:1292-1299 | What is fed goes to the end of the stream. |
| AofFlush.Aof.Write | redis-7.0.0/src/aof.c:987-1004 | For every sequence of short writes, interruptions and errors, the file grows by a prefix of the buffer whose length is returned, -1 meaning none. |
| AofFlush.ProgressWhole | redis-7.0.0/src/aof.c:987-1004 | The whole buffer is written when no call fails and together the calls accept as many bytes. |
| AofFlush.Aof.WriteBuffer | redis-7.0.0/src/aof.c:1081-1184 | For every outcome of write and ftruncate, what left the buffer is what the file gained; the recorded sizes stay the length of the file. |
| AofFlush.Aof.TryFsync | redis-7.0.0/src/aof.c:1186-1217 | After a flush with the policy always everything in the file is covered by an fsync, or the server exits. |
| AofFlush.Aof.FlushAppendOnlyFile | redis-7.0.0/src/aof.c:1025-1217 | File contents followed by the buffer are the same before and after unless the server exits; it exits iff the policy is always and a write or fsync failed; the recorded size stays the file length. A forced flush, a policy other than everysec, no fsync in progress, or two seconds since the first postponement writes the whole buffer out whenever every write succeeds; otherwise nothing is written. |
| AofManifest.NewBaseKeeps | redis-7.0.0/src/aof.c:426-445 | A new BASE name was never used, and the old BASE file becomes history without staying among the files to load. |
| AofManifest.NewIncrKeeps | redis-7.0.0/src/aof.c:454-463 | A new INCR name was never used and comes last among the files to load. |
| AofManifest.MarkHistoryKeeps | redis-7.0.0/src/aof.c:491-521 | Names to load stay distinct and disjoint from history when rewritten INCR files become history. |
| AofManifest.AofLoadManifestFromFile | redis-7.0.0/src/aof.c:255-366 | Reading the manifest line by line: a second BASE file, a number of zero and INCR numbers that do not increase are refused; the numbers given out last are taken from the names. |
| AofManifest.ManifestReadBack | redis-7.0.0/src/aof.c:191-366 | A well-formed manifest is read back exactly as it was written, its last numbers included. |
| AofManifest.ReadExactly | redis-7.0.0/src/aof.c:255-366 | Lines are accepted iff every number is positive, no temporary file is named, there is at most one BASE file, and the INCR numbers increase. |
| AofManifest.NewBaseConserves | redis-7.0.0/src/aof.c:426-445 | A new BASE file forgets no file: the old one is among the history and the INCR files to load are the same. |
| AofManifest.NewIncrConserves | redis-7.0.0/src/aof.c:454-463 | A new INCR file is added and no file is forgotten. |
| AofManifest.MarkHistoryConserves | redis-7.0.0/src/aof.c:491-521 | Marking rewritten files as history forgets none of them and leaves just the BASE file and the last INCR file to load. |
| AofManifest.MarkRewrittenIncrAofAsHistory | redis-7.0.0/src/aof.c:491-521 | The loop from the tail moves all but the open INCR file to the front of the history, in order. |
| AofReplay.LoadAppendOnlyFiles | redis-7.0.0/src/aof.c:1585-1706 | The loop over BASE and INCR files loads them in order with a client of its own each; AofRefused.RefusedExactly says which files make it fail, AofReplay.FilesLoad what they load to otherwise. |
| AofReplay.FedRuns | redis-7.0.0/src/aof.c:1263-1302 | A command fed with its SELECT, or without one when the client is already there, runs against its own database. |
| AofReplay.FilesLoad | redis-7.0.0/src/aof.c:1585-1706 | Files of which all but the last load to their end replay what their logs mean, in order. |
| AofRefused.RefusedExactly | redis-7.0.0/src/aof.c:1638-1690 | For every dataset and every list of files: loading fails iff some file fails to load or some file before the last does not load to its end. |
| AofRefused.CutBeforeLast | redis-7.0.0/src/aof.c:1638-1690 | A log cut inside a command, in any file but the last, makes the load fail, whether aof-load-truncated is on or off. |
| AofRefused.PrefixOutcome | redis-7.0.0/src/aof.c:1515-1568 | A byte prefix of a log loads iff it ends between commands and outside a transaction; otherwise it is truncated after the commands kept with aof-load-truncated, and refused without. |
| AofRefused.LoadThen | redis-7.0.0/src/aof.c:1409-1515 | Whatever bytes follow a log are read in the state and at the offset that running the log leaves. |
| AofRefused.UnknownFails | redis-7.0.0/src/aof.c:1477-1486 | A command that the table does not know makes the file fail, whatever comes before and after it. |
| AofRefused.GarbageFails | redis-7.0.0/src/aof.c:1425-1433 | So does, after any log, anything that is neither a command nor an annotation. |
| AofRefused.AnnotationSkipped | redis-7.0.0/src/aof.c:1425-1432 | An annotation line changes nothing but the offset. |
| AofFeed.FedAllRuns | redis-7.0.0/src/aof.c:1263-1302 | Commands fed one after the other, each with a SELECT only where the database changes, run each against its own database. |
| AofFeed.OneSelectEach | redis-7.0.0/src/aof.c:1277-1287 | The log grows by exactly the commands and one SELECT for each change of database. |
| AofFeed.BlockMeans | redis-7.0.0/src/aof.c:1476-1524 | A transaction means its commands once its EXEC is there, and nothing before. |
| AofFeed.FedMeans | redis-7.0.0/src/server.c:3124-3159 | What is propagated for one call, a command alone or several in MULTI and EXEC, means exactly these commands with their SELECTs. |
| AofFeed.FedTorn | redis-7.0.0/src/server.c:3124-3159 | Any proper part of it means nothing, or a SELECT. |
| AofProtocolKeeps.FeedKeeps | redis-7.0.0/src/server.c:3124-3159 | Feeding a command or a transaction keeps the invariant of the files: the open file followed by the buffer gains exactly this. |
| AofProtocolKeeps.WriteKeeps | redis-7.0.0/src/aof.c:1081-1100 | A write of any length keeps it, also before the buffer is trimmed. |
| AofProtocolKeeps.TakeBackKeeps | redis-7.0.0/src/aof.c:1126-1137 | Taking a short write back with ftruncate keeps it. |
| AofProtocolKeeps.OpenKeeps | redis-7.0.0/src/aof.c:771-796 | Creating the next INCR file, whatever waits in the buffer, or failing to, keeps it. |
| AofProtocolKeeps.PersistIncrKeeps | redis-7.0.0/src/aof.c:798-803 | Naming the new INCR file in the manifest on disk while the buffer is empty keeps it; from then on the current dataset is what the older files replay to. |
| AofProtocolKeeps.SwitchIncrKeeps | redis-7.0.0/src/aof.c:806-816 | Switching the open file keeps it. |
| AofProtocolKeeps.ForkKeeps | redis-7.0.0/src/aof.c:2397-2424 | A fork, or a failed one that leaves an extra INCR file behind, keeps it. |
| AofProtocolKeeps.RenameKeeps | redis-7.0.0/src/aof.c:2538-2555 | Renaming the finished file to the new BASE name touches no file that a restart would load. |
| AofProtocolKeeps.PersistBaseKeeps | redis-7.0.0/src/aof.c:2585-2600 | The new manifest with the new BASE file and the open INCR file replays to the same dataset. |
| AofProtocolKeeps.PersistBaseFails | redis-7.0.0/src/aof.c:2589-2599 | When the manifest cannot be written, removing the new BASE file leaves everything as it was. |
| AofProtocolKeeps.SwitchBaseKeeps | redis-7.0.0/src/aof.c:2603-2613 | Taking over the new manifest and forgetting the selected database keeps the invariant. |
| AofProtocolKeeps.DeleteKeeps | redis-7.0.0/src/aof.c:657-681 | Deleting a history file touches no file that a restart would load. |
| AofProtocolRuns.FedFile | redis-7.0.0/src/aof.c:1263-1302 | What a feed appends has the same effect from whatever dataset the file is replayed, so it stays right when the files before it are replaced. |
| AofProtocolRuns.TornFeed | redis-7.0.0/src/aof.c:1515-1524 | A feed that is torn anywhere, be it a command or a transaction, has no effect: the dataset before it is recovered. |
| AofProtocolRuns.WorldLawful | redis-7.0.0/src/server.c:3124-3159 | Commands and transactions as they are fed, written and replayed obey all that the protocol relies on. |
| AofProtocolRuns.StepKeeps | redis-7.0.0/src/aof.c:2381-2660 | Every step with every outcome keeps the invariant; only feeds and new INCR files change what is replayed last, and only feeds add to the buffer. |
| AofProtocolRuns.RunKeeps | redis-7.0.0/src/aof.c:2381-2660 | Every state of every run, transactions included, satisfies the invariant. |
| AofProtocolRuns.TraceKeeps | redis-7.0.0/src/aof.c:2381-2660 | So does every state that follows one that does. |
| AofProtocolRuns.NothingLost | redis-7.0.0/src/aof.c:2381-2660 | At every moment of every run, transactions included, loading the files named by the manifest on disk in order, then the buffer, gives the current dataset. |
| AofProtocolRuns.StaysDurable | redis-7.0.0/src/aof.c:1081-1184 | From a moment with an empty buffer on, whatever the buffer still holds back, the files on disk lead to the dataset of that moment or of a later one. |
| AofProtocolRuns.TraceRecovers | redis-7.0.0/src/aof.c:2381-2660 | From any state that satisfies the invariant with an empty buffer: whenever the process stops, the files on disk load to the dataset of a moment that no moment with an empty buffer comes after. |
| AofProtocolRuns.RestartRecovers | redis-7.0.0/src/aof.c:2381-2660 | Whenever the process stops, also in the middle of a transaction, the files on disk load to the dataset of some moment of the run between transactions, and not of one before the last moment at which the buffer was empty: what was written out is never lost. |
| AofRestart.DiskReadBack | redis-7.0.0/src/aof.c:255-366 | At every moment the manifest on disk is read back as it was persisted. |
| AofRestart.StopsExact | redis-7.0.0/src/aof.c:1515-1568 | What the loader leaves of any byte prefix of a log that the server writes loads to its end iff the prefix does not end inside a command of an open transaction. |
| AofRestart.StopsCleanlyUnlessTorn | redis-7.0.0/src/aof.c:1515-1568 | At every moment over any number of stops and starts: a stop is clean iff the last file does not end inside a command of an open transaction of its log. |
| AofRestart.RestartKeeps | redis-7.0.0/src/aof.c:702-749 | After a clean stop the manifest is read back as it was and the invariant holds again, with the dataset that was loaded and the file that the loader cut. |
| AofRestart.LivesKeep | redis-7.0.0/src/server.c:7043-7046 | So the invariant holds at every moment over any number of stops and starts. |
| AofRestart.NothingLostOverRestarts | redis-7.0.0/src/server.c:7043-7046 | Over any number of stops and starts, files and buffer load to the current dataset, and the files alone to one that the server had since its last start, not before the last moment at which the buffer was empty. |
| AofRestart.UncleanStop | redis-7.0.0/src/aof.c:1517-1568 | For all commands: a run that stops with one byte of the first command of a transaction in the file, after SELECT and MULTI, is not clean, and the command that the restarted server runs next is not there at the following start. |
| AofRestart.TornStopLoses | redis-7.0.0/src/aof.c:1517-1568 | After a stop that is not clean, whatever single command is run next is lost at the following start. |
| AofProtocolLeftover.LeftoverRunsTwice | redis-7.0.0/src/aof.c:2393-2396 | Whole commands and transactions left in the buffer are run once more by whoever loads the finished rewrite. |
| AofProtocolLeftover.LeftoverExact | redis-7.0.0/src/aof.c:2393-2396 | For every buffer: the finished rewrite cannot be loaded iff the bytes left do not load as a file, and otherwise gives the dataset iff running their commands once more changes nothing. |
| AofProtocolLeftover.LeftoverCannotLoad | redis-7.0.0/src/aof.c:2393-2396 | A buffer that starts in the middle of a command, with neither * nor #, makes the files impossible to load. |
| AofProtocolLeftover.RunsTwice | redis-7.0.0/src/aof.c:1126-1163 | A run in which a flush fails before a rewrite: the command left over is counted twice by a dataset that counts commands. |
| AofProtocolLeftover.CannotRestart | redis-7.0.0/src/aof.c:1126-1163 | A run in which a flush writes one byte that ftruncate cannot take back: after the rewrite the files do not load. |
| AofServer.Aof.constructor | redis-7.0.0/src/aof.c:702-749 | A server that starts with nothing is in the initial state of the protocol. |
| AofPaths.Follow | redis-7.0.0/src/aof.c:2381-2660 | A run goes on along any path of steps that can come one after the other. |
| AofPaths.FlushPath | redis-7.0.0/src/aof.c:1081-1184 | A flush is such a path, for every number of bytes written and kept or taken back. |
| AofPaths.RewritePath | redis-7.0.0/src/aof.c:2381-2427 | So is the start of a rewrite with every outcome of open, manifest and fork; no INCR file gets into the manifest with bytes in the buffer unless the flush left some. |
| AofPaths.DonePath | redis-7.0.0/src/aof.c:2516-2660 | So is its end with every outcome of rename, manifest and deletions. |
| AofPaths.DeleteAllExact | redis-7.0.0/src/aof.c:657-681 | Deleting the history removes exactly the files that it names, empties it, and changes nothing else. |
| AofServer.Aof.FeedAppendOnlyFile | redis-7.0.0/src/aof.c:1263-1302 | The buffer gains the command, after a SELECT iff another database was selected, byte for byte. |
| AofServer.Aof.PropagatePendingCommands | redis-7.0.0/src/server.c:3124-3159 | The calls for the commands of one propagation, with MULTI and EXEC around several, are the feeding step, and the run goes on. |
| AofServer.Aof.FlushAppendOnlyFile | redis-7.0.0/src/aof.c:1025-1217 | The flush of AofFlush on the open file is a write step followed by keeping or taking back, and the run goes on; when the server exits, what is on disk is what a run leaves. |
| AofServer.Aof.OpenNewIncrAofForAppend | redis-7.0.0/src/aof.c:771-824 | The function runs the opening steps in order and stops at the first failure, with the state of that step. |
| AofServer.Aof.RewriteAppendOnlyFileBackground | redis-7.0.0/src/aof.c:2381-2427 | The function runs the steps of the rewrite up to the fork, and the run goes on; nothing changes when a child is active; the run stays one with empty buffers unless the flush left bytes and the new file got into the manifest all the same. |
| AofServer.Aof.AofDelHistoryFiles | redis-7.0.0/src/aof.c:657-681 | The loop deletes every history file and nothing else. |
| AofServer.Aof.BackgroundRewriteDoneHandler | redis-7.0.0/src/aof.c:2516-2660 | The handler runs the steps after the child in order, with each failure path, and the run goes on. |
| AofServer.ServerLosesNothing | redis-7.0.0/src/aof.c:2381-2660 | Whatever calls a server has gone through, its files on disk followed by its buffer load to its dataset. |
| AofServer.ServerRecovers | redis-7.0.0/src/aof.c:1141-1149 | If it stops, also by exiting inside a flush, its files load to a dataset that it had, not before the last moment at which its buffer was empty. |
| AclInvariant.RuleKeeps | redis-7.0.0/src/acl.c:1003-1169 | Every accepted command rule keeps the invariant: unassigned bits equal the reserved last bit, ALLCOMMANDS implies every bit, first arguments are distinct and belong to commands without subcommands. |
| AclInvariant.ReachableKeeps | redis-7.0.0/src/acl.c:1003-1169 | So does every list of rules applied to a fresh selector. |
| AclInvariant.ParsedRuleValid | redis-7.0.0/src/acl.c:1088-1163 | A rule text that parses names a command, category or first argument of the table. |
| AclInvariant.TopRule | redis-7.0.0/src/server.c:2922-2963 | +name and -name parse to the command of that name, for every command of the table. |
| AclInvariant.SubRule | redis-7.0.0/src/server.c:2922-2963 | +name&#124;sub and -name&#124;sub parse to that subcommand. |
| AclInvariant.FirstArgRule | redis-7.0.0/src/acl.c:1096-1147 | +name&#124;arg on a command without subcommands parses to a first-argument rule. |
| AclInvariant.CategoryRule | redis-7.0.0/src/acl.c:1158-1163 | +@category and -@category parse to that category. |
| AclInvariant.ChangePermEffect | redis-7.0.0/src/acl.c:557-570 | Allowing or denying a command touches no bit and no first argument beyond it and its subcommands, and ALLCOMMANDS stays a mere shortcut. |
| AclInvariant.ChangeCategoryEffect | redis-7.0.0/src/acl.c:572-586 | A category rule touches only commands of the table, through every level of subcommands, and ALLCOMMANDS stays a mere shortcut; AclEffects.CategoryEffect says which of them. |
| AclEffects.ChangePermExact | redis-7.0.0/src/acl.c:557-570 | Afterwards exactly the command and its subcommands have the bit asked for, every other bit is as before, and the first arguments of the command alone are forgotten. |
| AclEffects.CategoryEffect | redis-7.0.0/src/acl.c:572-586 | A category rule sets or clears the bit of a command iff it is no module command and is in the category, and of a subcommand iff its parent is no module command and the parent, or the subcommand if it is no module command, is in the category; every other bit is as before. |
| AclEffects.CategoryPermits | redis-7.0.0/src/acl.c:572-600 | +@category and -@category decide for these commands, whatever the arguments of the call, and for no other. |
| AclEffects.CommandPermits | redis-7.0.0/src/acl.c:1088-1157 | +command and -command decide for this command and its subcommands, whatever the arguments of the call, and for no other. |
| AclEffects.FirstArgPermits | redis-7.0.0/src/acl.c:1096-1147 | +command&#124;arg permits, besides all that was permitted, exactly this command with this first argument, in any case. |
| AclEffects.AllPermits | redis-7.0.0/src/acl.c:1020-1031 | allcommands permits every call, nocommands none. |
| AclNames.LookupExact | redis-7.0.0/src/server.c:2922-2963 | A text names the command whose full name it is, without regard to case. |
| AclNames.LookupNamed | redis-7.0.0/src/server.c:2922-2963 | It names a command iff one has this full name, bars and all. |
| AclNames.NameRefused | redis-7.0.0/src/acl.c:1088-1157 | -name, and +name without a bar, are refused as unknown iff no command has this name. |
| AclNames.UnknownArgRefused | redis-7.0.0/src/acl.c:1096-1111 | +name&#124;arg is refused as unknown when no command has this name. |
| AclNames.ArgRefused | redis-7.0.0/src/acl.c:1096-1147 | Otherwise it is refused for a subcommand, and for an empty argument; on a container iff it has no such subcommand; else it is a rule on a first argument. |
| AclNames.CategoryRefused | redis-7.0.0/src/acl.c:1158-1163 | +@name and -@name are refused as unknown when there is no such category. |
| AclNames.UnsignedRefused | redis-7.0.0/src/acl.c:1164-1167 | A text that is neither keyword nor signed is no rule on commands. |
| AclSelector.Selector.GetBit | redis-7.0.0/src/acl.c:526-530 | The word and bit arithmetic reads the member of the set of allowed ids. |
| AclSelector.Selector.SetBit | redis-7.0.0/src/acl.c:544-553 | Writing one bit of one word changes exactly one id; clearing it drops ALLCOMMANDS. |
| AclSelector.Selector.ResetFirstArgsForCommand | redis-7.0.0/src/acl.c:884-891 | Only the first arguments of this command are forgotten. |
| AclSelector.Selector.ChangePerm | redis-7.0.0/src/acl.c:557-570 | The recursion over subcommands computes the rule on sets, whose exact effect is AclEffects.ChangePermExact. |
| AclSelector.Selector.ChangeCategory | redis-7.0.0/src/acl.c:572-586 | The recursion over the command tree computes the category rule on sets, whose exact effect is AclEffects.CategoryEffect. |
| AclSelector.Selector.AddAllowedFirstArg | redis-7.0.0/src/acl.c:911-937 | The argument is added once, compared without regard to case. |
| AclSelector.Selector.SetAllBits | redis-7.0.0/src/acl.c:1020-1031 | All words are set or cleared, the reserved bit included. |
| AclSelector.Selector.SetSelector | redis-7.0.0/src/acl.c:1003-1169 | A rule text changes the selector as its parsed rule does, or fails with the error of the parser and changes nothing. |
| AclSelector.Selector.CheckCmd | redis-7.0.0/src/acl.c:1612-1637 | The answer is permission by ALLCOMMANDS, by the bit, or by an allowed first argument. |
| AclDescribe.FixCommand | redis-7.0.0/src/acl.c:634-650 | A command on which the fake selector disagrees gets one rule, after which it agrees and no other id has changed. |
| AclDescribe.EmitFirstArgs | redis-7.0.0/src/acl.c:652-663 | One rule for each allowed first argument, none of which changes a bit or another command. |
| AclDescribe.SingleCommands | redis-7.0.0/src/acl.c:634-667 | After the pass every command of the level and below agrees with the described selector; others are as they were. |
| AclDescribe.CountCategory | redis-7.0.0/src/acl.c:601-617 | The recursion counts the allowed and the denied commands of a category. |
| AclDescribe.BestCategory | redis-7.0.0/src/acl.c:723-751 | The category picked was not applied yet, improves the match, and is not worse than any other candidate. |
| AclDescribe.CategoryRules | redis-7.0.0/src/acl.c:676-768 | Whatever categories the greedy loop picks, the rules so far mean what the fake selector holds, and unassigned bits agree with the described one. |
| AclDescribe.PassRestores | redis-7.0.0/src/acl.c:769-787 | The category rules followed by the pass give back the bitmap and the first arguments. |
| AclDescribe.RestoredPermits | redis-7.0.0/src/acl.c:1612-1637 | A restored selector permits exactly the same calls, by command and first argument. |
| AclDescribe.DescribeCommandRules | redis-7.0.0/src/acl.c:676-789 | The panic is unreachable, and parsing the rules into a fresh selector restores bitmap and first arguments, for every reachable selector. |
| AclCommandIds.CommandIds.GetCommandID | redis-7.0.0/src/acl.c:1456-1481 | A name keeps its id, case ignored; a new name gets an unused id that skips the reserved last bit. |
| AclCommandIds.IdsFit | redis-7.0.0/src/server.c:2779-2795 | With each command and subcommand numbered by its full name, distinct names give distinct ids below the reserved bit, as the model of the table asks, as long as no more names than that were numbered. |
| BlockedSteps.BlockKeeps | redis-7.0.0/src/blocked.c:729-773 | Blocking on any keys, repeated ones included, keeps the two-way index, the counters, the flags and the ready queue. |
| BlockedSteps.UnblockKeeps | redis-7.0.0/src/blocked.c:179-215 | Unblocking keeps them; no counter goes below zero, no list stays empty, and the client is queued for reprocessing once. |
| BlockedSteps.TakeUnblockedKeeps | redis-7.0.0/src/blocked.c:127-150 | Taking the next unblocked client clears its flag and its place together. |
| BlockedServe.SignalReaches | redis-7.0.0/src/blocked.c:830-866 | No early return drops a wakeup that some client needs. |
| BlockedServe.SignalKeeps | redis-7.0.0/src/blocked.c:830-866 | A signalled key is queued at most once, in table and list alike. |
| BlockedGives.SignalExact | redis-7.0.0/src/blocked.c:830-866 | A signal queues its key, behind all others, iff it is not queued yet, some client waits at it, and some client is blocked on its type or by a module; otherwise nothing happens. |
| BlockedServe.DbAddKeeps | redis-7.0.0/src/db.c:178-186 | Creating a key loses no wakeup. |
| BlockedServe.DbOverwriteExact | redis-7.0.0/src/db.c:212-236 | Overwriting a key loses no wakeup iff nobody waits for the new value there, or the key is in the ready table already, or it held a stream while somebody is blocked on a stream or by a module. |
| BlockedServe.OverwriteLosesOnly | redis-7.0.0/src/db.c:212-236 | Whatever was lost before, it loses no wakeup but those at its own key, and those only in that case. |
| BlockedServe.GiveKeeps | redis-7.0.0/src/t_list.c:941-1019 | Popping for a client, and pushing to its target, keeps all invariants and leaves no empty value; what is popped and pushed is said by the four rows that follow. |
| BlockedGives.GiveTakes | redis-7.0.0/src/t_zset.c:3877-3940 | A client without target takes as many elements as it asked for, or all there are, from the end that it named, in place; the key is gone iff nothing is left, and no other key changes. |
| BlockedGives.GiveMoves | redis-7.0.0/src/t_list.c:941-1019 | A client with a target takes the element at the end that it named and makes it the first or last of the target list, which is created if need be; the other elements keep their places, and no third key changes. |
| BlockedGives.GiveRotates | redis-7.0.0/src/t_list.c:941-1019 | The same for a target that is the key itself. |
| BlockedGives.GiveRefuses | redis-7.0.0/src/t_list.c:984-1016 | A target that holds something else than a list: the client is given nothing and nothing changes. |
| BlockedGives.ServeOneGives | redis-7.0.0/src/blocked.c:300-330 | Serving a client is giving it this and unblocking it; no other client changes. |
| BlockedGives.BlockRecords | redis-7.0.0/src/blocked.c:729-773 | A client that blocks is recorded with its type, target, count and ends, and goes behind all others in the list of each of its keys; nothing else changes. |
| BlockedGives.UnblockRecords | redis-7.0.0/src/blocked.c:179-215 | A client that is unblocked is in no list any more and goes behind the clients to be reprocessed unless it is among them; nobody else is touched. |
| BlockedGives.TakesFirst | redis-7.0.0/src/blocked.c:127-150 | The client that was unblocked first is reprocessed first. |
| BlockedHandle.ServeAllKeeps | redis-7.0.0/src/blocked.c:285-333 | Serving the waiting clients of a key keeps all invariants; the number of blocked clients drops unless nothing happened. |
| BlockedHandle.ServeAllLosesNothing | redis-7.0.0/src/blocked.c:285-397 | Afterwards no client waits for what the key still holds. |
| BlockedHandle.ServeAllSplits | redis-7.0.0/src/blocked.c:285-397 | Serving a list of clients is serving its first part, and then the rest in the state which that leaves. |
| BlockedHandle.ServedInOrder | redis-7.0.0/src/blocked.c:285-397 | When a client is served, each client of its type before it in the list was served in an earlier state of the same walk, with its elements popped, and is unblocked when the later one, still blocked, has its turn. |
| BlockedHandle.HandleKeyKeeps | redis-7.0.0/src/blocked.c:640-690 | Handling one key serves somebody or signals no new key, and the ready table stays the keys not yet started plus the new ones, each once. |
| BlockedHandle.HandleKeyLosesNothing | redis-7.0.0/src/blocked.c:640-690 | Handling one key loses no wakeup. |
| BlockedHandle.DrainKeeps | redis-7.0.0/src/blocked.c:636-692 | Working off a taken list keeps the invariants and serves somebody or signals nothing. |
| BlockedHandle.HandleServesEverybody | redis-7.0.0/src/blocked.c:621-697 | The nested loops end, with no key queued and no client waiting for a list or sorted set that is there, but where its wakeup was lost before. |
| BlockedGives.NobodyWaits | redis-7.0.0/src/blocked.c:621-697 | If no wakeup was lost before, afterwards nobody blocked on a list waits for a key that holds one, and nobody blocked on a sorted set for a key that holds one. |
| BlockedServer.Server.QueueClientForReprocessing | redis-7.0.0/src/blocked.c:168-175 | A client is queued at most once. |
| BlockedServer.Server.UnblockClientWaitingData | redis-7.0.0/src/blocked.c:777-811 | The loop takes the client out of the list of each of its keys and drops lists that become empty. |
| BlockedServer.Server.UnblockClient | redis-7.0.0/src/blocked.c:179-215 | The function is the unblocking step. |
| BlockedServer.Server.JoinLists | redis-7.0.0/src/blocked.c:742-771 | The loop adds the client to each key once, although keys may repeat. |
| BlockedServer.Server.BlockForKeys | redis-7.0.0/src/blocked.c:729-773 | The function is the blocking step. |
| BlockedServer.Server.SignalKeyAsReady | redis-7.0.0/src/blocked.c:830-866 | The function with its early returns is the signalling step. |
| BlockedServer.Server.PopFrom | redis-7.0.0/src/t_zset.c:3877-3940 | Elements leave one end of a value, and an empty value leaves the keyspace. |
| BlockedServer.Server.MoveTo | redis-7.0.0/src/t_list.c:941-1019 | One element moves between two lists or within one, and an empty list leaves the keyspace. |
| BlockedServer.Server.GiveTo | redis-7.0.0/src/blocked.c:318-323 | Serving one client is the giving step, whose exact effect is BlockedGives.GiveTakes, GiveMoves, GiveRotates and GiveRefuses. |
| BlockedServer.Server.ServeClientsBlockedOnKey | redis-7.0.0/src/blocked.c:285-397 | The loop over the waiting clients computes the serving of all of them. |
| BlockedServer.Server.ServeReceiver | redis-7.0.0/src/blocked.c:300-330 | One round of that loop, with its tests of type and emptiness. |
| BlockedServer.Server.HandleReadyKey | redis-7.0.0/src/blocked.c:640-690 | One round of the inner loop is the handling of one key. |
| BlockedServer.Server.HandleClientsBlockedOnKeys | redis-7.0.0/src/blocked.c:621-697 | The nested loops compute the handling of all keys, and end. |
| BlockedRuns.NextKeeps | redis-7.0.0/src/blocked.c:89-866 | Every event of a server, any overwrite included, keeps every invariant, and loses no wakeup but at the key of an overwrite that meets the condition of DbOverwriteExact. |
| BlockedRuns.After | redis-7.0.0/src/blocked.c:89-866 | So does every run, over all interleavings of blocking, unblocking, writing and serving: wakeups are lost only at the keys of such overwrites. |
| BlockedRuns.ServedInBlockingOrder | redis-7.0.0/src/blocked.c:285-397 | Clients of one type on a key are served in the order in which they blocked: when a later one is served, every earlier one has had its turn and is unblocked. |
| BlockedRuns.MoveConserves | redis-7.0.0/src/t_list.c:941-1019 | Moving an element between two lists neither loses nor copies it. |
| BlockedRuns.RotationConserves | redis-7.0.0/src/t_list.c:941-1019 | Moving an element within one list only rearranges it. |
| BlockedRuns.OverwriteCanLoseWakeup | redis-7.0.0/src/db.c:212-236 | A state in which overwriting a string by a sorted set leaves a waiting client unserved. |
| Crc64.CrcReflect | redis-7.0.0/src/crc64.c:69-78 | The loop mirrors the bits of a word. |
| Crc64.Crc64BitByBit | redis-7.0.0/src/crc64.c:88-111 | The loops over bytes and bits compute the register of the shift-register definition, mirrored. |
| Crc64.FeedIsRemainder | redis-7.0.0/src/crc64.c:88-111 | The register is the remainder of start and message, as one polynomial, by the generator. |
| Crc64.FeedMirrored | redis-7.0.0/src/crc64.c:88-111 | Up to 64 message bits may be added to the mirrored register at once. |
| Crc64.StepsLinear | redis-7.0.0/src/crcspeed.c:112-144 | Stepping the register is linear over XOR. |
| Crc64.BurstDetected | redis-7.0.0/src/crc64.c:88-111 | Messages of one length that differ only within eight bytes never share a CRC, for a generator with constant term. |
| Crc64.PolyDetectsBursts | redis-7.0.0/src/crc64.c:88-111 | The generator of the code has that term. |
| Crc64.GeneratorShows | redis-7.0.0/src/crc64.c:88-111 | The CRC of the byte 128, from a zero register, is the mirrored generator. |
| Crc64.CheckValue | redis-7.0.0/src/crc64.c:32-52 | That CRC, read from its top bit, is 0xad93d23594c935a9 for the generator of the code and for no other. |
| Crcspeed.StepsAreSlices | redis-7.0.0/src/crcspeed.c:112-144 | Stepping a word is the sum of stepping its bytes. |
| Crcspeed.WordStep | redis-7.0.0/src/crcspeed.c:112-144 | Eight table entries summed advance the register by eight bytes. |
| Crcspeed.Advance | redis-7.0.0/src/crcspeed.c:112-144 | Up to eight bytes of data advance the register in one go. |
| Crcspeed.SplitIndependence | redis-7.0.0/src/crc64.c:121-123 | The CRC of one buffer continued over another is the CRC of both joined. |
| Crcspeed.InitLittle | redis-7.0.0/src/crcspeed.c:33-50 | The loops fill the tables with the contribution of every byte at every distance. |
| Crcspeed.Crcspeed64Little | redis-7.0.0/src/crcspeed.c:112-144 | For every start, buffer, length and alignment the result is that of the bit-by-bit routine from the mirrored start. |
| CrcspeedBig.PortableRev8 | redis-7.0.0/src/crcspeed.c:71-83 | Swapping bytes, pairs and halves reverses the bytes. |
| CrcspeedBig.InitBig | redis-7.0.0/src/crcspeed.c:87-95 | The tables are the little-endian ones with bytes reversed. |
| CrcspeedBig.Crcspeed64Big | redis-7.0.0/src/crcspeed.c:183-213 | The big-endian routine returns the same CRC on every input. |
| Bitmap.ClipIndexes | redis-7.0.0/src/bitops.c:832-837 | Negative indexes count from the end and both are clipped to what there is. |
| Bitmap.FromEndMeans | redis-7.0.0/src/bitops.c:832-837 | Index i - n of n places is place i, and an index below -n is the first place. |
| Bitmap.CountIsSize | redis-7.0.0/src/bitops.c:40-92 | What is counted is the number of positions that hold a one. |
| Bitmap.MaskBits | redis-7.0.0/src/bitops.c:838-845 | The edge masks select the bits before the first and after the last position of the range within their bytes. |
| BitopsCount.FoldHolds | redis-7.0.0/src/bitops.c:66-86 | The shifts and masks leave in each byte of a word the number of bits set in it. |
| BitopsCount.HoldsAdds | redis-7.0.0/src/bitops.c:80-86 | Adding up to seven such words never carries from one byte into the next. |
| BitopsCount.LanesSummed | redis-7.0.0/src/bitops.c:80-86 | The multiplication leaves the sum of the four bytes, at most 224, in the top byte. |
| BitopsCount.CountSevenWords | redis-7.0.0/src/bitops.c:54-87 | One round of the main loop counts the bits of 28 bytes exactly. |
| BitopsCount.RedisPopcount | redis-7.0.0/src/bitops.c:40-92 | For every length and alignment the result is the number of set bits. |
| BitopsCount.CountOutside | redis-7.0.0/src/bitops.c:861-871 | The two masked bytes hold exactly the bits to subtract, also when they come from the same byte. |
| BitopsCount.ClipRange | redis-7.0.0/src/bitops.c:810-854 | Negative, reversed and overlong indexes are clipped to the positions the range selects. |
| BitopsCount.PositionsExact | redis-7.0.0/src/bitops.c:810-854 | A position is selected iff it lies in the string, not before the first index and not after the last one, in bytes or bits, negative ones counted from the end. |
| BitopsCount.BitcountCommand | redis-7.0.0/src/bitops.c:796-874 | The answer is the number of set bits at the positions of the range, in bytes or in bits. |
| BitopsPos.LoadWord | redis-7.0.0/src/bitops.c:151-159 | The word holds the next 64 positions, zeros following the string. |
| BitopsPos.RedisBitpos | redis-7.0.0/src/bitops.c:101-186 | The result is the least position of the bit, -1 for a set bit that is not there, the length for a clear one; the panic is unreachable. |
| BitopsPosCommand.AnswerIsFirst | redis-7.0.0/src/bitops.c:877-1003 | The answer is the least matching position in the range; otherwise none matches and it is -1, or the end of the string for a clear bit without explicit end. |
| BitopsPosCommand.SearchRest | redis-7.0.0/src/bitops.c:975-986 | Whole bytes and then the masked last byte find the first match from a byte on. |
| BitopsPosCommand.SearchRange | redis-7.0.0/src/bitops.c:958-1001 | The three parts of the search, with their early exits, find the first match of the range. |
| BitopsPosCommand.ClipRange | redis-7.0.0/src/bitops.c:906-951 | Indexes are clipped to the positions the range selects. |
| BitopsPosCommand.PositionsExact | redis-7.0.0/src/bitops.c:906-951 | The same for BITPOS, with and without an end. |
| BitopsPosCommand.BitposCommand | redis-7.0.0/src/bitops.c:877-1003 | The command answers as stated, on missing keys too, and never panics. |
| BitopsOp.FoldBits | redis-7.0.0/src/bitops.c:747-770 | AND leaves the bits that all sources have, OR those that some has, XOR those that an odd number has, NOT those that the source lacks; sources continue with zeros. |
| BitopsOp.WordCombines | redis-7.0.0/src/bitops.c:693-742 | An operation on 64-bit words is the operation on each of their bytes. |
| BitopsOp.CombineBlock | redis-7.0.0/src/bitops.c:693-742 | One round turns 32 bytes of the first source into the fold over all sources, whose bits are those of FoldBits. |
| BitopsOp.FastPath | redis-7.0.0/src/bitops.c:683-744 | The fast path leaves the fold in every byte it has passed. |
| BitopsOp.SettledStays | redis-7.0.0/src/bitops.c:753-767 | A zero under AND and a full byte under OR are final, so the inner loop may stop. |
| BitopsOp.SlowByte | redis-7.0.0/src/bitops.c:748-769 | The inner loop with its early exit computes the fold for one byte, whose bits are those of FoldBits. |
| BitopsOp.Lengths | redis-7.0.0/src/bitops.c:643-670 | The scan finds the longest source and a bound that no source falls below. |
| BitopsOp.BitopCommand | redis-7.0.0/src/bitops.c:607-793 | The result is as long as the longest source, missing keys being empty; bit by bit, AND has what all sources have, OR what some has, XOR what an odd number has, NOT what the source lacks. |
| BitopsField.GetAfterSet | redis-7.0.0/src/bitops.c:209-241 | Reading a field after writing it returns the value modulo two to its width. |
| BitopsField.OutsideUnchanged | redis-7.0.0/src/bitops.c:209-222 | No bit outside the field changes. |
| BitopsFieldCommand.GetUnsignedBitfield | redis-7.0.0/src/bitops.c:229-241 | The loop reads the integer that the bits spell. |
| BitopsFieldCommand.GetSignedBitfield | redis-7.0.0/src/bitops.c:243-263 | Sign extension gives the value in two's complement, 64 bits included. |
| BitopsFieldCommand.SetUnsignedBitfield | redis-7.0.0/src/bitops.c:209-222 | The loop writes the bits of the value in place. |
| BitopsFieldCommand.SetSignedBitfield | redis-7.0.0/src/bitops.c:224-227 | A signed value is written as its 64-bit pattern. |
| BitopsOverflow.UnsignedIncr | redis-7.0.0/src/bitops.c:288-323 | INCRBY on unsigned fields: the exact sum if it fits, else modulo, nearest bound or nothing, whatever the 64-bit intermediates do. |
| BitopsOverflow.UnsignedSetExact | redis-7.0.0/src/bitops.c:288-323 | SET on unsigned fields meets integers, under SAT iff the value is not negative. |
| BitopsOverflow.UnsignedSetOtherEnd | redis-7.0.0/src/bitops.c:288-323 | Otherwise it stores the maximum. |
| BitopsOverflow.SignedIncr | redis-7.0.0/src/bitops.c:325-378 | INCRBY on signed fields up to 64 bits, likewise. |
| BitopsOverflow.SignedSetExact | redis-7.0.0/src/bitops.c:325-378 | SET on signed fields meets integers unless SAT, fewer than 64 bits and a value so low that its distance to the maximum overflows. |
| BitopsOverflow.SignedSetOtherEnd | redis-7.0.0/src/bitops.c:325-378 | Then it stores the maximum. |
| BitopsOverflow.SaturatesUpwards | redis-7.0.0/src/bitops.c:325-378 | The least int64 saturates to 127 in an i8. |
| BitopsFieldCommand.StoredIsRead | redis-7.0.0/src/bitops.c:1140-1214 | What SET or INCRBY stores is what the next GET of the field returns. |
| BitopsFieldCommand.SetSettles | redis-7.0.0/src/bitops.c:1162-1168 | The 64-bit check on a value to set decides as integers without bounds, but for the SETs that saturate to the wrong end. |
| BitopsFieldCommand.WindowField | redis-7.0.0/src/bitops.c:1217-1247 | Reading in the nine-byte window is reading in the string continued by zeros. |
| BitopsFieldCommand.GetField | redis-7.0.0/src/bitops.c:1217-1247 | GET at and past the end of the string reads zeros there. |
| BitopsFieldCommand.DecideSigned | redis-7.0.0/src/bitops.c:1157-1168 | Check and branches store what integers without bounds would, for SET and INCRBY, or the other bound where SET saturates wrongly, or fail. |
| BitopsFieldCommand.DecideUnsigned | redis-7.0.0/src/bitops.c:1189-1201 | The same for unsigned fields. |
| BitopsFieldCommand.FetchAndStore | redis-7.0.0/src/bitops.c:1140-1214 | Reply and string after SET and INCRBY, under each policy, as on integers without bounds; BitopsFieldReplies says what the replies are. |
| BitopsFieldCommand.RoomReaches | redis-7.0.0/src/bitops.c:1085-1088 | The string is grown far enough for every write of the list. |
| BitopsFieldCommand.BitfieldGeneric | redis-7.0.0/src/bitops.c:1030-1257 | A list of subcommands answers and stores, in order, as on integers without bounds, but for a SET that saturates to the wrong end; BitopsFieldReplies says what is answered and stored. |
| BitopsFieldReplies.RunAppended | redis-7.0.0/src/bitops.c:1121-1250 | Two lists of subcommands joined answer and store what the one does and then, in the string it leaves, the other. |
| BitopsFieldReplies.GetAnswers | redis-7.0.0/src/bitops.c:1216-1249 | GET always answers the integer in the field, and changes nothing. |
| BitopsFieldReplies.SetAnswersOld | redis-7.0.0/src/bitops.c:1140-1214 | A SET that stores answers what a GET of the field answers just before it. |
| BitopsFieldReplies.IncrbyAnswersNew | redis-7.0.0/src/bitops.c:1140-1214 | An INCRBY that stores answers what a GET of the field answers just after it. |
| BitopsFieldReplies.MissingExactly | redis-7.0.0/src/bitops.c:1140-1214 | A reply is missing iff the policy is FAIL and the exact value lies outside the field, and then nothing changes. |
| BitopsFieldReplies.StoresFitting | redis-7.0.0/src/bitops.c:1140-1214 | What is stored is the exact value if it fits, else congruent to it under WRAP, and under SAT the nearest bound, or the other one where SET saturates wrongly; no bit outside the field changes. |
| BitopsFieldReplies.OneBitField | redis-7.0.0/src/bitops.c:229-241 | A field of one bit is that bit. |
| BitopsFieldReplies.FieldJoins | redis-7.0.0/src/bitops.c:229-241 | A field is the field of its first bits shifted by the others, plus the field of the others. |
| BitopsFieldReplies.SignedFieldMeans | redis-7.0.0/src/bitops.c:243-263 | A signed field is the number of its range that is the same as the unsigned one modulo its size. |
| BitopsFieldReplies.RoomLeast | redis-7.0.0/src/bitops.c:1085-1088 | The string is grown no further than some write needs. |
| AdList.List.constructor | redis-7.0.0/src/adlist.c:42-54 | An empty list. |
| AdList.List.AddNodeHead | redis-7.0.0/src/adlist.c:89-107 | Both chains mirror the old sequence with the new node in front. |
| AdList.List.AddNodeTail | redis-7.0.0/src/adlist.c:115-133 | Both chains mirror the old sequence with the new node at the end. |
| AdList.List.InsertNode | redis-7.0.0/src/adlist.c:135-162 | Both chains mirror the sequence with the new node before or after the given one. |
| AdList.List.DelNode | redis-7.0.0/src/adlist.c:168-181 | Both chains mirror the sequence without the node. |
| AdList.List.Rewind | redis-7.0.0/src/adlist.c:206-209 | The iterator stands before the first node. |
| AdList.List.RewindTail | redis-7.0.0/src/adlist.c:211-214 | The iterator stands behind the last node. |
| AdList.List.Next | redis-7.0.0/src/adlist.c:230-241 | In both directions the iterator returns the node at its place and moves by one. |
| AdList.List.NextAndDelete | redis-7.0.0/src/adlist.c:216-241 | Deleting the node just returned leaves the iterator before exactly the nodes that remained, in both directions. |
| AdList.List.Dup | redis-7.0.0/src/adlist.c:251-285 | The copy has the copied values in order; it fails iff some value cannot be copied. |
| AdList.List.SearchKey | redis-7.0.0/src/adlist.c:296-314 | The first node that matches, or none. |
| AdList.List.Index | redis-7.0.0/src/adlist.c:321-333 | The node at an index from the head or, negative, from the tail; null outside. |
| AdList.List.RotateTailToHead | redis-7.0.0/src/adlist.c:336-348 | The last node becomes the first, in both chains. |
| AdList.List.RotateHeadToTail | redis-7.0.0/src/adlist.c:351-363 | The first node becomes the last, in both chains. |
| AdList.List.Join | redis-7.0.0/src/adlist.c:367-383 | The nodes of the other list follow, and the other list is empty and valid. |
| Bio.NextKeeps | redis-7.0.0/src/bio.c:128-285 | Every step of submitters, waiters and worker keeps the counter, the place of the running job and the order of jobs. |
| Bio.RunKeeps | redis-7.0.0/src/bio.c:128-285 | So does every interleaving. |
| Bio.QueueIsFair | redis-7.0.0/src/bio.c:128-285 | With the lock free the counter is the queue length; jobs finish once each in submission order; zero means all have finished. |
| Bio.ZeroMeansIdle | redis-7.0.0/src/bio.c:257-285 | A caller that is told zero knows that every job submitted so far has finished. |
| Bio.ToldIsQueued | redis-7.0.0/src/bio.c:257-285 | What a caller is told is the number of jobs in the queue at that moment, and it is told at once unless it waits and there are some. |
| Bio.HeadStays | redis-7.0.0/src/bio.c:202-253 | The job being processed stays the head of the queue. |
| Bio.NeverBelowZero | redis-7.0.0/src/bio.c:245-249 | The worker removes only a job that is there and counted. |

## Left out

- The Rails application: controllers, validations and configuration with no deep property.
- Append-only file: streams, module values, functions, the RDB preamble, timestamp annotations, latency and logging.
- Append-only file: the state AOF_WAIT_REWRITE, the migration of old files, the text of a manifest line and comments in it, and file offsets (a write appends).
- AofFeed.Fed: a module that propagates several commands without MULTI feeds them one by one.
- AofRestart.Restarted: a start with aof-load-truncated on; with it off a file that was cut is refused.
- AofProtocol.Enabled: a command has the same effect when it is replayed, since the server propagates effects; randomness and time do not reach the log.
- AofParse.ReadCommandBack: a count is an int and a length a long, as `Writable` says.
- AofFormat.ParseInt: numbers in a file that do not fit int or long are not cut to their width.
- AofLoad.LoadSingleAppendOnlyFile: the truncation of a file succeeds.
- AofDataset.Exec: the commands that a rewrite emits, scores kept in their printed form; other commands have no effect here and are open in AofReplay.
- AofRebuild.RewriteAppendOnlyFileRio: collections are not empty, which the keyspace guarantees.
- ACL: keys, channels, passwords, users, the log and files; joining rules into one text; commands loaded while a selector lives.
- AclModel.Parse: command rules only; a rule on keys or channels is refused here like any other text.
- AclDescribe.RestoredPermits: ids below 1024, the size of the bitmap.
- Blocking: streams, WAIT, modules and timeouts beyond the counters; what a command edits in the keyspace is one step that leaves no empty value.
- CRC: the 16-bit routines and the choice of routine by byte order.
- Bitmaps: argument parsing, integer-encoded strings, key notifications, SETBIT and GETBIT; the table bitsinbyte is taken as the number of bits of its index.
- AdList: running out of memory, freeing nodes, and changing the value of a node.
- Bio: that the worker gets the lock in the end, and what a job does; a wakeup may come at any time.
