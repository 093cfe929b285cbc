# Redis internals, modelled and proved in Dafny

This project models the parts of Redis 7.0.11 whose correctness is hard to see by reading, and proves what each is for.
`dafny verify dfyconfig.toml` checks all of it.

| file | models | main results |
|---|---|---|
| `AofLog.dfy` | the append-only log in bytes: writer, feeder, loader (`aof.c`) | log round trip with SELECT elision; what loading any byte prefix of a log does, a write torn by a crash included |
| `AofLives.dfy` | what processes make of a log that others left cut (`aof.c`) | over any number of processes that each end at any byte: every start finds everything fed in full before it, exactly when |
| `AofRewrite.dfy` | the log rewriter (`aof.c`) | loading a rewritten file rebuilds every database exactly |
| `AofProtocol.dfy` | the background rewrite with every I/O failure, and a crash and restart between any two steps (`aof.c`) | crash safety over all runs of any number of processes, from nothing on disk; where its three hypotheses are needed, exactly |
| `AofFiles.dfy` | the bytes behind the protocol's files | the bytes of the files a manifest lists load if and only if no file but the last is torn, and to what; when a write keeps the bytes in step with the protocol, exactly; a crash at any byte of a write |
| `AofProgress.dfy` | the same protocol when nothing fails, and when a rewrite does | a finished rewrite leaves the snapshot, the commands since, and none of the files before it; switching the log on likewise; a failed rewrite leaves nothing behind |
| `AofNames.dfy` | the manifest's names behind the protocol's numbers | every change of the one is the protocol's change of the other, and one name is one file |
| `AofFormat.dfy` | the formats, letter by letter, and what the commands of a rewritten log do | texts of commands, feeds and annotations; batch sizes; what the loader refuses |
| `AofManifest.dfy` | the manifest, its printer and its loader (`aof.c`, `sds.c`) | shape of every manifest over any number of restarts; when names stay fresh and deleting history is safe, exactly; the loader returns the manifest if and only if a condition on the file name and line length holds |
| `AofFlush.dfy` | the flush for every outcome of write, ftruncate and fsync (`aof.c`) | no byte lost or doubled; when a file is left misaligned; what is synced when; a write waits at most two seconds |
| `Crc64.dfy` | CRC-64, bit by bit and eight bytes at a time (`crc64.c`, `crcspeed.c`) | slice-by-8 equals the bitwise definition on every input, alignment and byte order; the check value |
| `Acl.dfy`, `AclText.dfy` | ACL command rules, their printer and the printed line (`acl.c`) | what each rule does, command by command; the printed rules rebuild the bitmap and every answer; a saved user gives the same answers when loaded if and only if no printed first argument has a blank or a line end, or ends in a tab or a carriage return |
| `Blocked.dfy` | clients blocked on keys (`blocked.c`) | index invariant over all operations; the service loop ends, loses no wakeup and no element, and serves in the order of blocking; when an overwritten key strands a client, exactly |
| `BitString.dfy`, `BitCount.dfy`, `BitPos.dfy`, `BitField.dfy` | bitmaps (`bitops.c`) | BITCOUNT, BITPOS and BITFIELD refine one zero-padded bitmap; what each index, range and overflow policy means |
| `ConfigRewrite.dfy` | CONFIG REWRITE's line editor (`config.c`) | every line of the new file from the old file and the calls: where it comes from and what it reads |
| `AdList.dfy` | the doubly linked list (`adlist.c`) | every operation is a sequence operation; iteration with deletion visits each node once |
| `Bio.dfy` | the background job queue (`bio.c`) | every interleaving: exactly once, in order, zero pending means finished, and no run gets stuck |

Hypotheses that the results state in their `requires`:

- Lengths and counts are machine words, so their decimal text is short (`Readable`, `Small`). The loader's command table
  knows the commands that were written (`cfg.known`, `Knows`).
- Printing a score of the dataset with 17 significant digits and parsing it gives the score back (`Exact`).
- Commands fed to the log are not SELECT themselves (`Feedable`).
- For crash safety: the forced flush before a rewrite empties the buffer; the directory sync does not fail after the
  manifest of a finished rewrite was renamed into place; and a server that starts with the log on and without a live incr
  file finds none left over under the name it is going to use (`Allowed`). Each is shown to be needed, with the exact
  condition. A crash is a crash of the process: what write(2) returned is on disk. Nothing is assumed of the disk: runs
  start with no files at all.
- The ACL command table is fixed: two levels, distinct names and ids, every id below the reserved bit (`WellFormed`).
  For the saved line, names hold no blank, no `|` and do not start with `@` (`PlainTable`), and the words before the
  rules hold no blank (`GoodHead`).
- The bytes of a file are the beginning of a log (`AofFiles.Begun`). That they hold the commands the protocol has in the
  file (`AofFiles.Held`) is kept by cutting off a torn end (`AofFiles.CutBackHolds`). A write keeps it if and only if no
  transaction is open in the file, or the one that is makes no difference (`AofFiles.WriteKeepsHeld`). Appending to a file
  that ends inside an annotation is stated apart, exactly (`AofLives.AppendAfterCut`).
- On entry to the service loop every key that can serve a blocked client is queued as ready (`NoneLost`). Clients that come,
  block or go and keys that are created, deleted or changed in place keep that; a key overwritten with a value of another
  type does so under the condition that `Blocked.Server.DbOverwrite` states.

Places where the code does not do what one would expect. Each has a lemma with the exact condition, and where the text
below names an input, a lemma with that input:

- A log cut inside a timestamp annotation loads as whole and is not truncated. If the next process appends a command
  without an annotation before it, the command is lost in the old one and the next load fails
  (`AofLives.AppendAfterCut`, `AofLog.CutAnnotationExample`).
- A log cut inside a command of an open transaction needs two loads to get back before its MULTI
  (`AofLog.CutTransactionNeedsTwoLoads`). The server starts after the first one and appends behind the open MULTI. Unless a
  transaction of its own closes that one, all it appends is lost at the next load; if one does, the commands of the
  unfinished transaction are run as well (`AofLives.AppendAfterCut`, `AofLives.LivesAreSafeIff`,
  `AofLives.LostBehindMulti`).
- Commands that the forced flush left in the buffer run twice after the rewrite (`AofProtocol.LeftoverRunsTwice`,
  `AofProtocol.RewriteNeedsEmptyBuffer`).
- A directory sync that fails right after the switch of manifests makes the handler delete the live base file
  (`AofProtocol.SwitchNeedsSync`, `AofProtocol.SyncFailureReached`).
- A server that starts with the log on and without a live incr file appends to a file of that name left by a process that
  ended between the rename of its incr file and the switch of manifests; the commands in it run at the next restart
  (`AofProtocol.StrayIsAdopted`, `AofProtocol.RestartNeedsNoStray`, `AofProtocol.StrayReached`).
- When the directory sync fails while a new incr file is published, the manifest on disk lists that file but the server
  goes on writing to the one before. If it then crashes in the middle of a write, the torn file is not the last one, and
  the server does not start again (`AofFiles.TornWrite`, `AofProtocol.WritesLastIff`, `AofFiles.TornNotLast`).
- A file name with a single quote and nothing else that asks for quoting prints a manifest that does not load back
  (`AofManifest.PrintedLoads`, `AofManifest.TickExample`), and so does a line of more than 1024 bytes.
- A restart from a manifest with incr files in its history and none live counts from 1 again, so a new incr file can take
  the name of a history file, and deleting the history then deletes the live file (`AofManifest.RestartIsSafeIff`,
  `AofManifest.LiveFileUnlinked`, `AofManifest.SecondNameTaken`).
- A client blocked on a list key is not woken when SORT ... STORE overwrites the key, held by another type, with a list
  (`Blocked.Server.DbOverwrite`, `Blocked.SortIntoBlockedKey`).
- A first argument with a blank, or with a tab at its end, is accepted by an ACL rule and printed as it is, so the saved
  user is loaded with other rights (`AclText.DescribeText`, `AclText.BlankExample`, `AclText.TabExample`).
- An incr file opened without O_APPEND gets a hole after an undone short write (`AofFlush.RetryLeavesHole`).
- BITFIELD SET with saturation stores the upper limit for values far below a signed field, and for negative values in an
  unsigned one (`BitField.SignedSetChecked`, `BitField.SignedSetExample`, `BitField.UnsignedSetChecked`).

## Model

| member | source | states |
|---|---|---|
| AofLog.AtoiDecimal | redis-7.0.11/src/aof.c:1479-1482 | the loader's number parser inverts the writer's decimal text, whatever non-digit follows |
| AofLog.CatAppendOnlyGenericCommand | redis-7.0.11/src/aof.c:1265-1288 | the loop appends exactly the encoding of the argument vector to the buffer |
| AofLog.CommandRead | redis-7.0.11/src/aof.c:1471-1521 | a whole command at the front is read back exactly, arguments of arbitrary bytes included, whatever follows it |
| AofLog.CommandCut | redis-7.0.11/src/aof.c:1471-1521 | every proper non-empty prefix of a command reads as an unexpected end of file, never as a format error |
| AofLog.ItemsAdvance | redis-7.0.11/src/aof.c:1455-1562 | every annotation and command read consumes at least one byte and no more than there are, so loading ends |
| AofLog.ReadArguments | redis-7.0.11/src/aof.c:1492-1521 | the argument loop over file positions computes the recursive reader, errors included |
| AofLog.ReadItem | redis-7.0.11/src/aof.c:1471-1521 | one round of reading equals the item at the front of the rest of the file |
| AofLog.LoadSingleAppendOnlyFile | redis-7.0.11/src/aof.c:1384-1632 | the loading loop computes the recursive loader on every byte string: status, cut size and effect |
| AofLog.LogLoads | redis-7.0.11/src/aof.c:1455-1562 | loading a log and then anything is loading that anything from the state after the log's entries, for all logs |
| AofLog.CutLogLoads | redis-7.0.11/src/aof.c:1455-1617 | loading any byte prefix of a log runs exactly its whole commands; the outcome depends only on whether it ends inside a command |
| AofLog.TruncatedReload | redis-7.0.11/src/aof.c:1559-1617 | a log cut inside a command is cut back to the end of its last whole command, and the shorter file loads cleanly to the same state if and only if no transaction is open there |
| AofLog.TruncationRecovers | redis-7.0.11/src/aof.c:1471-1617 | without MULTI, every prefix runs exactly its whole commands in order, is never refused, and after truncation reloads cleanly to the same state |
| AofLog.TransactionReverted | redis-7.0.11/src/aof.c:1534-1609 | a log that ends between commands inside a transaction is cut back to just before its MULTI, with nothing of it run, and then loads cleanly |
| AofLog.CutTransactionNeedsTwoLoads | redis-7.0.11/src/aof.c:1564-1609 | a cut inside a command of an open transaction is first cut to the last whole command; loading that again goes back to before the MULTI |
| AofLog.CutAnnotationExample | redis-7.0.11/src/aof.c:1471-1479 | the file #T loads well, and with a PING appended it fails |
| AofLog.StepHeads | redis-7.0.11/src/aof.c:1534-1547 | reading any command moves the state the loader heads for as if the command had run at once, queued or not |
| AofLog.FeedHeads | redis-7.0.11/src/aof.c:1309-1348 | the entries of one feed, with or without a timestamp and a SELECT, add exactly that command in its database |
| AofLog.FedLogLoads | redis-7.0.11/src/aof.c:1309-1348 | for every sequence of feeds after the selected database was reset, with further resets anywhere, interleaved timestamps and closed transactions, the loader from database 0 runs exactly those commands in order, each in its database |
| AofLog.RanIff | redis-7.0.11/src/aof.c:1534-1547 | what is fed behind an open transaction is run, and nothing else, if and only if it closes the transaction and nothing was queued, or does not close it and had nothing to run |
| AofLog.FeedsHead | redis-7.0.11/src/aof.c:1534-1547 | from any loader state that the feeder follows, a transaction open or not: what the loader heads for grows by exactly what is fed, and what it has run is that up to the last moment no transaction was open |
| AofLog.PartFeedRunsNothing | redis-7.0.11/src/aof.c:1309-1332 | the timestamp and the SELECT written before a command run nothing of their own, in a transaction or not |
| AofLog.TornFeedLoads | redis-7.0.11/src/aof.c:1455-1617 | behind any log, a transaction open in it or not: a file cut at any byte of what was being fed loads to what reading the feeds written in full has run; as whole if and only if no transaction is open then and it ends between entries or in an annotation, else truncated or refused as configured |
| AofLog.HalfCommandRefused | redis-7.0.11/src/aof.c:1471-1521 | a file whose first command has its header in another file is refused and nothing of it is run |
| AofLog.FeedExtendsLog | redis-7.0.11/src/aof.c:1309-1348 | feeding one command more extends the encoded log of the run by exactly what the call wrote |
| AofLog.SelectText | redis-7.0.11/src/aof.c:1325-1332 | the SELECT printed by hand is the encoding of that command |
| AofLog.Feeder.FeedAppendOnlyFile | redis-7.0.11/src/aof.c:1309-1348 | the buffer grows by the encoded entries of the feed if and only if the log is on, or a rewrite is awaited with its child at work; selected database and timestamp follow either way |
| AofLog.FeedAll | redis-7.0.11/src/aof.c:1309-1348 | a server from its start, any feeds and resets: with the log on, or a rewrite awaited with its child at work, the buffer loads without error if and only if no transaction is left open, and runs exactly the commands fed, each in its database; otherwise nothing is ever buffered |
| AofLog.PlainFeedsMeant | redis-7.0.11/src/aof.c:1534-1547 | without MULTI and EXEC the commands meant to run are the commands fed, one by one |
| AofLives.RecoversIff | redis-7.0.11/src/aof.c:1534-1574 | reading feeds behind a log runs exactly them after what had run if and only if no transaction is open in the log, or the feeds close it and it queued nothing, or they have nothing to run |
| AofLives.LastMultiStands | redis-7.0.11/src/aof.c:1534-1534 | in a log with an open transaction nothing has run since its last MULTI, where the loader would cut |
| AofLives.LeftIs | redis-7.0.11/src/aof.c:1564-1609 | what a start leaves of a log cut at any byte is the entries up to the last command, or before the last MULTI, or all, and they give the state that was loaded; only a piece of an annotation stays behind |
| AofLives.AppendAfterCut | redis-7.0.11/src/aof.c:1384-1632 | one process on a file cut at any byte, which itself ends at any byte of what it feeds: the next load runs what the last one ran and what was fed in full, and nothing else, if and only if no transaction was left open that makes a difference, and no command went behind a piece of an annotation |
| AofLives.LivesAreSafeIff | redis-7.0.11/src/aof.c:1384-1632 | over any number of processes, each ended at any byte: every start finds everything fed in full before it, and nothing else, if and only if that holds of every one of them |
| AofLives.LostBehindMulti | redis-7.0.11/src/aof.c:1564-1609 | a log cut right after a MULTI: the next process starts, its PING is written in full, and the one after does not run it |
| AofRewrite.FlattenItems | redis-7.0.11/src/aof.c:1779-2018 | the arguments of a batch cut back into items are the items written |
| AofRewrite.BatchesRebuild | redis-7.0.11/src/aof.c:1779-2018 | replaying the batches of one key where the key is missing adds all items in order and nothing else, however many batches there are |
| AofRewrite.PartialGrows | redis-7.0.11/src/aof.c:1779-2018 | writing one item more keeps the file a sequence of whole batches and one begun batch whose header counts what is to come |
| AofRewrite.PartialAll | redis-7.0.11/src/aof.c:1779-2018 | once all items are written every header has been met by exactly its number of items |
| AofRewrite.Rio.WriteItem | redis-7.0.11/src/aof.c:1787-1813 | the loop body with its running count keeps that description of the file |
| AofRewrite.Rio.RewriteListObject | redis-7.0.11/src/aof.c:1779-1819 | the bytes written are the encoded batches of items that spell the list in order |
| AofRewrite.Rio.RewriteSetObject | redis-7.0.11/src/aof.c:1823-1876 | the same for a set, for every order of iteration |
| AofRewrite.Rio.RewriteSortedSetObject | redis-7.0.11/src/aof.c:1880-1955 | the same for a sorted set with its scores, for every order of iteration |
| AofRewrite.Rio.RewriteHashObject | redis-7.0.11/src/aof.c:1986-2018 | the same for a hash, for every order of iteration |
| AofRewrite.Rio.RewriteValue | redis-7.0.11/src/aof.c:2287-2309 | the commands written for a value of any type rebuild exactly that value where the key is missing |
| AofRewrite.Rio.RewriteKey | redis-7.0.11/src/aof.c:2275-2323 | value and expire time of one key: replaying its commands gives exactly its slot |
| AofRewrite.EmitMany | redis-7.0.11/src/aof.c:1534-1559 | the loader runs plain commands at once, so a log grown by them stands where applying them stands |
| AofRewrite.RewriteDb | redis-7.0.11/src/aof.c:2263-2341 | one database: from a log that rebuilt the databases before it to a log that rebuilt this one too |
| AofRewrite.RewriteAppendOnlyFileRio | redis-7.0.11/src/aof.c:2247-2343 | for every dataset of strings and non-empty lists, sets, sorted sets and hashes with expire times over all databases, the loader accepts the file and the commands it runs rebuild the dataset exactly |
| AofProtocol.StepKeeps | redis-7.0.11/src/aof.c:790-853 | every step of the protocol, with every outcome of its I/O call, keeps the invariant whose first part is that a restart finds the flushed state |
| AofProtocol.KeepFeed | redis-7.0.11/src/aof.c:1309-1348 | feeding a command keeps it, with the log on and while waiting |
| AofProtocol.KeepWrite | redis-7.0.11/src/aof.c:1062-1263 | writing any number of buffered commands keeps it |
| AofProtocol.KeepOpen | redis-7.0.11/src/aof.c:797-815 | creating or truncating the new incr file changes nothing a restart sees |
| AofProtocol.KeepPersistIncr | redis-7.0.11/src/aof.c:817-851 | publishing the new incr file, or failing to, even after the rename, keeps it |
| AofProtocol.KeepFork | redis-7.0.11/src/aof.c:2452-2481 | the child's snapshot and the empty new incr file make up the flushed state; a failed fork is harmless |
| AofProtocol.KeepRenameBase | redis-7.0.11/src/aof.c:2590-2611 | the new base file collides with no live one |
| AofProtocol.KeepRenameIncr | redis-7.0.11/src/aof.c:2617-2648 | the incr file kept aside gets a name no live file has; if that fails the new base is dropped |
| AofProtocol.TargetLoads | redis-7.0.11/src/aof.c:2650-2655 | the manifest about to be installed loads to the child's snapshot followed by the log since the fork |
| AofProtocol.KeepSwitch | redis-7.0.11/src/aof.c:2650-2671 | the switch of manifests, or its failure before the rename, keeps it |
| AofProtocol.KeepDelete | redis-7.0.11/src/aof.c:668-692 | a history file deleted is never a live one |
| AofProtocol.KeepGc | redis-7.0.11/src/aof.c:668-692 | publishing the manifest without history keeps it, whatever fails |
| AofProtocol.KeepDiscard | redis-7.0.11/src/aof.c:2655-2666 | the files deleted after a failed switch are never live |
| AofProtocol.KeepClean | redis-7.0.11/src/aof.c:2711-2724 | the end of the handler keeps it |
| AofProtocol.KeepSweep | redis-7.0.11/src/server.c:7504-7509 | deleting and publishing the history at start keeps it, whatever fails |
| AofProtocol.KeepRestart | redis-7.0.11/src/aof.c:713-768 | a process that starts with the log on at any point of another's work finds the flushed state and keeps the invariant, if an incr file is live or none is left over |
| AofProtocol.KeepRestartOff | redis-7.0.11/src/server.c:7504-7509 | so does one that starts with the log off, whatever it holds |
| AofProtocol.KeepStarted | redis-7.0.11/src/aof.c:728-763 | the first base and incr files and their manifest keep it, whatever fails |
| AofProtocol.FirstFilesLoad | redis-7.0.11/src/aof.c:728-763 | the manifest of the first files loads to the base followed by what the incr file held |
| AofProtocol.RunKeeps | redis-7.0.11/src/aof.c:2431-2483 | every run with every failure, crash and restart keeps it |
| AofProtocol.CrashSafe | redis-7.0.11/src/aof.c:2431-2483 | after every sub-step of every run of any number of processes that starts with no files, a restart finds every live file and rebuilds exactly the state after all commands flushed by any of them; with the log on, that state and the buffer make up the dataset |
| AofProtocol.StrayIsAdopted | redis-7.0.11/src/aof.c:740-747 | a server that starts with the log on and no live incr file holds the loaded dataset, while its disk loads to that dataset and then the commands left over in the file it opened |
| AofProtocol.RestartNeedsNoStray | redis-7.0.11/src/aof.c:740-747 | for a dataset that remembers its commands, such a start is safe if and only if nothing was left over |
| AofProtocol.StrayReached | redis-7.0.11/src/aof.c:2617-2655 | a run without any failure that ends between the rename of the incr file and the manifest leaves a command over |
| AofProtocol.SwitchNeedsSync | redis-7.0.11/src/aof.c:579-588 | in every reachable state at the switch, the live files survive the handler if and only if the directory sync did not fail after the rename |
| AofProtocol.SyncFailureReached | redis-7.0.11/src/aof.c:579-588 | a run from nothing comes to the switch, and there the failed sync leaves a disk that no server starts from |
| AofProtocol.OtherSyncsHarmless | redis-7.0.11/src/aof.c:579-588 | the same failure when opening a new incr file or dropping history changes nothing a restart finds, as long as files hold whole commands; for torn writes see AofFiles.TornWrite |
| AofProtocol.WritesLastIff | redis-7.0.11/src/aof.c:817-851 | with the log on, the file written is the last one the manifest on disk lists if and only if that manifest is the server's own, not one with an incr file more whose publishing failed |
| AofProtocol.ExtraIncrReached | redis-7.0.11/src/aof.c:817-851 | a run from nothing after which the file written is not the last one listed |
| AofProtocol.LeftoverRunsTwice | redis-7.0.11/src/aof.c:2443-2483 | a rewrite after a forced flush that left commands over ends with a disk that runs them a second time; it is right if and only if that changes nothing |
| AofProtocol.RewriteNeedsEmptyBuffer | redis-7.0.11/src/aof.c:2446-2446 | for a dataset that remembers its commands, the rewrite is safe if and only if the forced flush emptied the buffer |
| AofProgress.ServingRuns | redis-7.0.11/src/aof.c:1309-1348 | while commands are fed and flushed the dataset runs them, and each is in the file or in the buffer, in order |
| AofProgress.CommandsSurvive | redis-7.0.11/src/aof.c:1062-1263 | after any feeds and flushes and a last flush of the buffer, a process that starts then has every command, in order |
| AofProgress.HistoryGone | redis-7.0.11/src/aof.c:668-692 | after the handler's deletions no history file is on disk, the manifest there lists none, and every other file is as it was |
| AofProgress.RewriteCompletes | redis-7.0.11/src/aof.c:2575-2724 | a rewrite in which nothing fails, any commands coming in meanwhile: the base on disk is the dataset at the fork, the one incr file and the buffer hold the commands since, and no file that was live or history before is left |
| AofProgress.SwitchOnCompletes | redis-7.0.11/src/aof.c:2575-2724 | the same for the rewrite that switches the log on; afterwards the log is on |
| AofProgress.FailureCleans | redis-7.0.11/src/aof.c:2655-2666 | when the manifest of a rewrite cannot be written its files are taken away again and the server goes on as before |
| AofNames.ChangesAgree | redis-7.0.11/src/aof.c:427-520 | a new incr file, the manifest a finished rewrite publishes, the first files at a start, history losing a file, and a restart: each is on names what the protocol does on numbers |
| AofNames.OneNameOneFile | redis-7.0.11/src/aof.c:668-692 | two lines with one name are one file of the protocol |
| AofNames.NamesRead | redis-7.0.11/src/aof.c:427-465 | the names of base and incr files in letters |
| AofNames.LineReads | redis-7.0.11/src/aof.c:121-133 | a line of the manifest in letters |
| AofFormat.CommandText | redis-7.0.11/src/aof.c:1265-1288 | a command of three short words in letters |
| AofFormat.FeedShape | redis-7.0.11/src/aof.c:1309-1348 | what a feed writes: an annotation if and only if they are on and the second is new, a SELECT if and only if the database is not the selected one, and the command |
| AofFormat.FeedText | redis-7.0.11/src/aof.c:1309-1348 | the annotation and the SELECT in letters |
| AofFormat.WordsRead | redis-7.0.11/src/aof.c:1534-1547 | MULTI, EXEC and SELECT are told by their letters in any case |
| AofFormat.BatchSizes | redis-7.0.11/src/aof.c:1779-2018 | every command written for an aggregate carries 1 to 64 items, and all but the last exactly 64 |
| AofFormat.SetMeans | redis-7.0.11/src/aof.c:2287-2323 | SET replaces value and expire time, PEXPIREAT sets the expire time |
| AofFormat.PushMeans | redis-7.0.11/src/aof.c:1779-1819 | RPUSH puts its arguments at the end of the list in their order |
| AofFormat.SaddMeans | redis-7.0.11/src/aof.c:1823-1876 | SADD adds a member |
| AofFormat.ZaddMeans | redis-7.0.11/src/aof.c:1880-1955 | ZADD adds the member behind its score |
| AofFormat.HmsetMeans | redis-7.0.11/src/aof.c:1986-2018 | HMSET sets the field before its value |
| AofFormat.GarbageRefused | redis-7.0.11/src/aof.c:1478-1479 | behind any log, a byte that starts neither a command nor an annotation makes the load fail, with what had run before |
| AofFormat.UnknownRefused | redis-7.0.11/src/aof.c:1523-1532 | so does a command that nobody knows |
| AofFiles.ReplayIsFold | redis-7.0.11/src/aof.c:1534-1559 | running loaded commands on all databases is the fold of the protocol's semantics |
| AofFiles.LoadAppendOnlyFiles | redis-7.0.11/src/aof.c:1634-1755 | base and incr files loaded in turn, each from database 0; only the last may be cut; any failure gives up |
| AofFiles.HeldLogLoads | redis-7.0.11/src/aof.c:1706-1738 | an incr file cut anywhere loads to the commands it holds in full; as whole if and only if it is not torn, that is, ends neither inside a command nor inside a transaction, as truncated if and only if it is and that is allowed |
| AofFiles.DiskHoldsBytes | redis-7.0.11/src/aof.c:1634-1755 | for every manifest, with or without a base and with any number of incr files: the bytes of the files load one after the other if and only if no file but the last is torn, and then to what the protocol's disk loads to |
| AofFiles.TornStopsLoad | redis-7.0.11/src/aof.c:1726-1735 | a torn file that is not the last, or any torn file where truncation is not allowed, stops the load |
| AofFiles.BytesAreSafe | redis-7.0.11/src/aof.c:1634-1755 | after every run of the protocol, whatever logs its files are beginnings of: their bytes load if and only if no file but the last is torn, and then to what the commands in them give; if those are the commands the protocol has there, to exactly the state after all flushed commands |
| AofFiles.WriteKeepsHeld | redis-7.0.11/src/aof.c:1062-1263 | a write of any number of bytes of the buffered feeds keeps the bytes and the protocol's disk in step if and only if no transaction is open in the file or the one that is makes no difference |
| AofFiles.TornWrite | redis-7.0.11/src/aof.c:1634-1755 | a crash at any byte of a write to a file of whole entries, a transaction open in it or not: a torn end is survived if and only if truncation is allowed and the file is the last one of the manifest on disk; a start then finds what the files hold, which is the state after everything flushed and all that the write holds in full if no transaction was open or it makes no difference |
| AofFiles.TornNotLast | redis-7.0.11/src/aof.c:817-851 | the run with the failed sync: a write torn after it leaves files that no setting loads |
| AofFiles.CutBackHolds | redis-7.0.11/src/aof.c:1564-1617 | cutting off a torn end, inside a command or between the commands of a transaction, leaves a whole file with the same commands; a transaction is open in it exactly if one was open at a cut inside a command, or a MULTI was nested |
| AofFiles.NextWriteKeeps | redis-7.0.11/src/aof.c:1564-1617 | whatever the next process feeds is in step with the protocol if and only if no transaction is open in the file |
| AofManifest.ChangeKeepsGood | redis-7.0.11/src/aof.c:427-522 | every change keeps rising positive incr numbers ending at the counter, a typed base at its counter, typed history, and a base whenever there is history |
| AofManifest.ReloadKeepsGood | redis-7.0.11/src/aof.c:339-356 | so does loading it, which reads the counters off the live files |
| AofManifest.ReachableIsGood | redis-7.0.11/src/aof.c:232-252 | so every manifest has that shape, in memory and on disk, after every run with any number of restarts and whichever of the two a step reached |
| AofManifest.RestartReadsFile | redis-7.0.11/src/aof.c:232-367 | at any point of any run the bytes of the manifest on disk load to what the model's restart says if and only if every line fits |
| AofManifest.NewIncrTaken | redis-7.0.11/src/aof.c:455-464 | the next incr name is taken already if and only if an incr file of that number is still history |
| AofManifest.NewBaseIsFresh | redis-7.0.11/src/aof.c:427-447 | the next base name is never taken, in any run |
| AofManifest.UnlinksLiveIff | redis-7.0.11/src/aof.c:668-692 | deleting the history unlinks a live file if and only if an incr number is both live and history; the base is never hit |
| AofManifest.ChangeKeepsClear | redis-7.0.11/src/aof.c:427-522 | every change keeps the incr numbers of the history apart from the live ones and from those to come |
| AofManifest.SafeForeverIff | redis-7.0.11/src/aof.c:427-522 | from any manifest: every later incr name of the process is free and no later deletion hits a live file, if and only if the history's incr numbers are neither live nor still to come |
| AofManifest.RestartIsSafeIff | redis-7.0.11/src/aof.c:232-367 | after a restart the same holds if and only if the loaded manifest lists a live incr file or no incr file as history |
| AofManifest.SafeRunIsSafe | redis-7.0.11/src/aof.c:232-252 | over any number of processes whose restarts meet that, names are always free and no live file is ever unlinked |
| AofManifest.LiveFileUnlinked | redis-7.0.11/src/server.c:7504-7509 | under every file name: a rewrite finished with the log off, a restart before its history is gone, and the start unlinks its only incr file |
| AofManifest.SecondOffReached | redis-7.0.11/src/aof.c:2584-2655 | a run that leaves the second incr file, and no first, in the history with none live |
| AofManifest.SecondNameTaken | redis-7.0.11/src/aof.c:455-464 | from there the first new name is free and the second new incr file is the one the history lists and deletes |
| AofManifest.ReprRead | redis-7.0.11/src/sds.c:1141-1165 | the argument splitter reads a quoted name of arbitrary bytes back exactly |
| AofManifest.BareTick | redis-7.0.11/src/sds.c:1236-1344 | an unquoted name with a single quote is refused or loses bytes |
| AofManifest.LineReads | redis-7.0.11/src/aof.c:121-134 | a printed line parses back to its file if and only if the name is quoted or has no single quote; otherwise it is refused or names a shorter file with the same number and type |
| AofManifest.OneLineLoads | redis-7.0.11/src/aof.c:276-309 | a printed line is taken as one line if it has at most 1024 bytes, and refused otherwise |
| AofManifest.LinesLoad | redis-7.0.11/src/aof.c:276-362 | printed lines are entered in order if all fit; otherwise the load fails or the names lose bytes |
| AofManifest.PrintedLoads | redis-7.0.11/src/aof.c:192-367 | for every manifest of a run that lists a file, the loader accepts the printed form and returns the same base, history and incr lists if and only if every line is short enough and every name is quoted or free of single quotes |
| AofManifest.FileNameDecides | redis-7.0.11/src/aof.c:427-464 | whether the names read back depends on the configured file name alone |
| AofManifest.TickExample | redis-7.0.11/src/config.c:2370-2380 | the accepted file name a'b prints a manifest that does not load back |
| AofManifest.Manifest.GetNewBaseFileNameAndMarkPreAsHistory | redis-7.0.11/src/aof.c:427-447 | the previous base becomes the head of the history and the new one takes the next number |
| AofManifest.Manifest.GetNewIncrAofName | redis-7.0.11/src/aof.c:455-464 | a file with the next number is added at the end |
| AofManifest.Manifest.GetLastIncrAofName | redis-7.0.11/src/aof.c:473-484 | the last incr file, created if there is none |
| AofManifest.Manifest.MarkRewrittenIncrAofAsHistory | redis-7.0.11/src/aof.c:492-522 | the loop from the tail moves all incr files, or all but the one being written, to the front of the history in their order |
| AofManifest.Manifest.AsString | redis-7.0.11/src/aof.c:192-220 | the three loops print base, history and incr lines in order |
| AofManifest.Manifest.DelHistoryFiles | redis-7.0.11/src/aof.c:668-692 | every history file is unlinked once, in order, and the history is empty |
| AofManifest.LoadManifestFromFile | redis-7.0.11/src/aof.c:256-367 | the reading loop computes the recursive loader on every byte string, refusals included |
| AofFlush.WriteAppendsOnlyAligned | redis-7.0.11/src/aof.c:1028-1028 | a write extends the file by its bytes if and only if it goes to the end |
| AofFlush.RetryLeavesHole | redis-7.0.11/src/aof.c:809-809 | without O_APPEND the retry after an undone short write leaves a hole of exactly the undone length |
| AofFlush.Server.AofWrite | redis-7.0.11/src/aof.c:1024-1041 | for every outcome of the calls, the file grows by the prefix written and the result counts it, or is -1 for nothing |
| AofFlush.Server.WriteBuffer | redis-7.0.11/src/aof.c:1127-1218 | file and buffer together keep their bytes for every outcome, the size in memory is the file's, and the descriptor is aligned unless a short write was undone without O_APPEND |
| AofFlush.TotalIsSum | redis-7.0.11/src/aof.c:1027-1038 | what a run of write calls gets written is their sum up to the first error, interruptions being none, and no more than there is |
| AofFlush.Server.TryFsync | redis-7.0.11/src/aof.c:1232-1263 | what is synced and when: with fsync always everything, or the server exits, with every second at most once a second, and nothing while a child works and syncing is then off |
| AofFlush.Server.FlushAppendOnlyFile | redis-7.0.11/src/aof.c:1062-1263 | at every return file bytes followed by the buffer equal what they were and the recorded size is the file length; when the flush is postponed, when the server exits, what is left in the buffer, and when all of the file is synced, exactly |
| AofFlush.WritesWithinTwoSeconds | redis-7.0.11/src/aof.c:1095-1115 | a write held up by a running fsync is done by the first flush two seconds later |
| Crc64.MirrorReversesBits | redis-7.0.11/src/crc64.c:69-78 | the mirror image used below has bit i of a word at place 63 - i |
| Crc64.MirrorTwice | redis-7.0.11/src/crc64.c:69-78 | mirroring twice gives the word back, so every start of the engines is the mirror image of a register |
| Crc64.CrcReflect | redis-7.0.11/src/crc64.c:69-78 | the bit loop computes the mirror image of 64 bits |
| Crc64.CrcBitwise | redis-7.0.11/src/crc64.c:88-111 | the bit-by-bit loops compute the mirrored register of the definition for every string and start |
| Crc64.DigestIsReference | redis-7.0.11/src/crc64.c:88-111 | the byte step on mirrored registers equals the definition for every string and start |
| Crc64.DigestConcat | redis-7.0.11/src/crcspeed.c:112-144 | running over two pieces equals running over their concatenation |
| Crc64.AdvanceLinear | redis-7.0.11/src/crcspeed.c:123-135 | the byte step is linear over exclusive-or |
| Crc64.DigestTogether | redis-7.0.11/src/crcspeed.c:123-135 | eight bytes at once are eight steps of the register with the bytes mixed in |
| Crc64.GatherIsEightSteps | redis-7.0.11/src/crcspeed.c:125-132 | eight table entries mixed together are eight byte steps, for every word |
| Crc64.SlotGrows | redis-7.0.11/src/crcspeed.c:42-49 | the inner loop's entry is one more step of the entry before |
| Crc64.FirstRow | redis-7.0.11/src/crcspeed.c:37-40 | the entries of the first table are single-byte checksums |
| Crc64.LittleInit | redis-7.0.11/src/crcspeed.c:33-50 | the nested loops fill the table of all single bytes followed by zero to seven zero bytes |
| Crc64.BigInit | redis-7.0.11/src/crcspeed.c:87-95 | the big-endian table is that table with its bytes reversed |
| Crc64.WordStep | redis-7.0.11/src/crcspeed.c:123-135 | one word step of the engine is eight byte steps |
| Crc64.CrcLittle | redis-7.0.11/src/crcspeed.c:112-144 | for every string, start and address the little-endian engine computes the digest |
| Crc64.LoadsSwap | redis-7.0.11/src/crcspeed.c:183-213 | a big-endian load is the byte-reversed little-endian load |
| Crc64.SwapXor | redis-7.0.11/src/crcspeed.c:71-83 | byte reversal distributes over exclusive-or |
| Crc64.CrcBig | redis-7.0.11/src/crcspeed.c:183-213 | for every string, start and address the big-endian engine on reversed tables computes the same digest |
| Crc64.CrcInit | redis-7.0.11/src/crc64.c:116-118 | the table built at start is the engine's table for the bitwise definition |
| Crc64.Crc64 | redis-7.0.11/src/crc64.c:121-123 | the public function equals the bitwise definition on every string and start |
| Crc64.CheckValue | redis-7.0.11/src/crc64.c:135-138 | the bytes of 123456789 give the check value that the source names |
| Acl.LookupPrinted | redis-7.0.11/src/acl.c:618-658 | the printed name of a command or subcommand looks up that command or subcommand |
| Acl.ApplyKeepsGood | redis-7.0.11/src/acl.c:997-1163 | every rule keeps the selector well formed: bits of existing commands or the reserved one, first-argument lists without repetition |
| Acl.ReachableIsGood | redis-7.0.11/src/acl.c:997-1163 | so every selector reachable by rules is well formed |
| Acl.CountCategory | redis-7.0.11/src/acl.c:585-616 | the two counters are the commands and subcommands of the category that are on and off |
| Acl.BestCategory | redis-7.0.11/src/acl.c:707-735 | the chosen category has the fewest differences, then the most in common, among all eligible ones; none chosen means none eligible |
| Acl.PrintCategories | redis-7.0.11/src/acl.c:660-751 | the greedy loop ends and the rules so far, replayed, give the shadow selector |
| Acl.PrintedNameApplies | redis-7.0.11/src/acl.c:541-554 | a rule printed for one command changes exactly that command and its subcommands |
| Acl.PrintedArgApplies | redis-7.0.11/src/acl.c:905-931 | a rule printed for a first argument adds exactly that argument |
| Acl.PrintCommand | redis-7.0.11/src/acl.c:622-648 | after one command its bits agree, and its first arguments are printed |
| Acl.PrintSubs | redis-7.0.11/src/acl.c:633-634 | the same for its subcommands |
| Acl.PrintArgs | redis-7.0.11/src/acl.c:636-647 | replaying the rules with its first arguments printed gives exactly the list of the selector, and no other list changes |
| Acl.SameAnswers | redis-7.0.11/src/acl.c:1612-1637 | equal bits and equal printed first arguments give the same answer for every command and argument vector |
| Acl.Describe | redis-7.0.11/src/acl.c:660-773 | for every well-formed selector the shadow bitmap ends equal to it, so the panic is out of reach, and replaying the printed rules on an empty selector gives the same bitmap and the same answer for every command and first argument |
| Acl.LiveSelector.SetCommandBit | redis-7.0.11/src/acl.c:528-537 | one bit set or cleared; clearing takes away the right to future commands |
| Acl.LiveSelector.ChangePerm | redis-7.0.11/src/acl.c:541-554 | the command and all its subcommands changed and its first arguments forgotten |
| Acl.LiveSelector.SetCategory | redis-7.0.11/src/acl.c:556-583 | what `CategoryRule` says, on the object: the loops change exactly the commands of the category and what comes with them |
| Acl.LiveSelector.SetCommandCategory | redis-7.0.11/src/acl.c:556-576 | the same for one command and its subcommands |
| Acl.LiveSelector.AddFirstArg | redis-7.0.11/src/acl.c:905-931 | the argument is added unless it is there |
| Acl.LiveSelector.Set | redis-7.0.11/src/acl.c:997-1163 | every rule does to the object what it does to the value, refusals included |
| Acl.LiveSelector.Check | redis-7.0.11/src/acl.c:1612-1637 | the check on the object answers as the specification |
| Acl.CommandIdTable.GetId | redis-7.0.11/src/acl.c:1456-1481 | ids are given once per name, never twice to two names, and never the reserved bit |
| Acl.CategoryRule | redis-7.0.11/src/acl.c:556-583 | for every command id: after a category rule its bit is the rule's exactly if it is a command of the category, stands below one, or is a subcommand of the category, modules left out; else it is as before; first arguments go exactly for those that carry the category |
| Acl.CategoryAnswers | redis-7.0.11/src/acl.c:1612-1637 | so a command of the category, and what stands below it, is let through if and only if the rule allows or no authentication is needed |
| Acl.SubCategoryAnswers | redis-7.0.11/src/acl.c:1612-1637 | so is a subcommand of the category |
| Acl.EverythingRule | redis-7.0.11/src/acl.c:1014-1026 | after +@all every command passes, after -@all none but those that need no authentication |
| Acl.NameRule | redis-7.0.11/src/acl.c:1082-1151 | +name and -name in any case: exactly the command and its subcommands |
| Acl.SubNameRule | redis-7.0.11/src/acl.c:1092-1151 | +name|sub and -name|sub: exactly that subcommand |
| Acl.FirstArgRule | redis-7.0.11/src/acl.c:1092-1151 | +name|arg on a command without subcommands adds that first argument and changes nothing else; an empty one and -name|arg are refused |
| Acl.UnknownName | redis-7.0.11/src/acl.c:1084-1150 | a name that no command has is refused |
| Acl.SameNameIff | redis-7.0.11/src/acl.c:1612-1637 | names are the same if and only if they differ at most in the case of letters |
| Acl.AllowedIff | redis-7.0.11/src/acl.c:1612-1637 | a command passes if and only if all commands are allowed, its bit is set, its first argument is listed, or it needs no authentication |
| AclText.SplitJoined | redis-7.0.11/src/acl.c:2216-2216 | words joined by a separator split back into themselves if and only if none holds it |
| AclText.RuleReads | redis-7.0.11/src/acl.c:997-1163 | the text of one printed rule is told apart and read back as that rule |
| AclText.WordsMean | redis-7.0.11/src/acl.c:1082-1163 | the signs, the categories by name, and the words for everything, as texts |
| AclText.Trimmed | redis-7.0.11/src/sds.c:964-977 | trimming leaves nothing new and no trimmed character at the end |
| AclText.ReadIsClean | redis-7.0.11/src/acl.c:2195-2290 | whatever the text of the file, the rules read from a line have last parts without blanks, line ends or a final tab or carriage return |
| AclText.LineReads | redis-7.0.11/src/acl.c:2195-2290 | a saved line, its user, flags, passwords and patterns included, is read back as exactly its printed rules if every word is kept by the splits and trims |
| AclText.WriteLine | redis-7.0.11/src/acl.c:660-773 | the loop that adds a blank after each rule and cuts the last one joins the rules |
| AclText.TidyIsKept | redis-7.0.11/src/acl.c:618-658 | with clean first arguments every printed rule is such a word |
| AclText.UntidyAnswers | redis-7.0.11/src/acl.c:1612-1637 | a selector whose arguments are all clean answers some command otherwise than one with an argument that is not |
| AclText.DescribeText | redis-7.0.11/src/acl.c:660-773 | for the root selector: the line saved for it is read back as its printed rules, and the loaded user gives the same answers, if and only if no printed first argument has a blank or a line end or ends in a tab or carriage return; then the bitmap is the same too |
| AclText.ReachedIsSplit | redis-7.0.11/src/acl.c:1082-1131 | first arguments of a selector set up by rules in text never hold the separator of names |
| AclText.BlankExample | redis-7.0.11/src/acl.c:1082-1131 | first arguments with a blank and with a final tab are accepted |
| AclText.TabExample | redis-7.0.11/src/acl.c:2270-2273 | the loader takes the tab off |
| Blocked.DelNodeIsWithout | redis-7.0.11/src/blocked.c:777-811 | deleting the recorded node removes exactly the client from the key's list |
| Blocked.SoundJoin | redis-7.0.11/src/blocked.c:742-771 | adding a client to a key's list with its node recorded keeps the index exact in both directions |
| Blocked.SoundBlock | redis-7.0.11/src/blocked.c:95-98 | the counters stay the numbers of blocked clients, in total and by type |
| Blocked.SoundUnblock | redis-7.0.11/src/blocked.c:179-215 | unblocking takes the client out of every list it is in, out of the counters and into the queue once |
| Blocked.SoundPostpone | redis-7.0.11/src/blocked.c:100-105 | the list of postponed clients and their recorded nodes stay in step |
| Blocked.Server.QueueClientForReprocessing | redis-7.0.11/src/blocked.c:168-175 | a client is queued exactly once while its flag is set |
| Blocked.Server.BlockClient | redis-7.0.11/src/blocked.c:89-106 | the invariant is kept and exactly this client is blocked |
| Blocked.Server.BlockForKeys | redis-7.0.11/src/blocked.c:729-772 | the client joins each key's list once, also when a key is given twice, at the end |
| Blocked.Server.UnblockClientWaitingData | redis-7.0.11/src/blocked.c:777-811 | the client leaves all its lists, and emptied lists are removed |
| Blocked.Server.UnblockClient | redis-7.0.11/src/blocked.c:179-215 | the client is no longer blocked for any type and is queued for reprocessing |
| Blocked.Server.TakeUnblockedClient | redis-7.0.11/src/blocked.c:127-165 | the head of the queue is taken and its flag cleared |
| Blocked.Server.SignalKeyAsReady | redis-7.0.11/src/blocked.c:830-866 | a key is queued once, only if a client of the right type waits and someone waits on it |
| Blocked.Server.ServeClient | redis-7.0.11/src/t_list.c:942-1005 | the dataset changes as the pop or move says, and a key created by a move is signalled if someone waits on it |
| Blocked.Server.ServeNext | redis-7.0.11/src/blocked.c:298-330 | one client is served after those before it, and released |
| Blocked.Server.ServeClientsBlockedOnKey | redis-7.0.11/src/blocked.c:285-397 | the clients of the type are served first blocked first, all of them or until the key is gone; exactly those are released, the dataset is what serving them in that order leaves, and no wakeup is lost elsewhere |
| Blocked.Server.ReleaseStreamClients | redis-7.0.11/src/blocked.c:402-598 | exactly the stream clients listed on the key that are due are released, and nothing else changes |
| Blocked.Server.ServeReadyKey | redis-7.0.11/src/blocked.c:637-690 | after one ready key is handled nobody waits on it who could be served from it; if the key is still there every client of its type was served; who was served or released, and what is left of the dataset, is as the two loops say |
| Blocked.Server.HandleClientsBlockedOnKeys | redis-7.0.11/src/blocked.c:621-697 | the loop ends although served moves create and signal further keys, and then no client blocked for lists has a key that holds a list, and none blocked for sorted sets one that holds a sorted set; exactly the served clients and due stream clients are released, each served once on a key it waited on, and what the dataset held it holds still but for what they took |
| Blocked.ServedConserves | redis-7.0.11/src/t_list.c:942-1005 | one service: the elements of the dataset before are those after and those taken; a move loses none |
| Blocked.ServicesConserve | redis-7.0.11/src/blocked.c:621-697 | over any services no element is lost and none appears |
| Blocked.Server.CreateClient | redis-7.0.11/src/networking.c:184-192 | a new client waits for nothing and the books stay right |
| Blocked.Server.FreeClient | redis-7.0.11/src/networking.c:1525-1640 | a client leaves every list and the queue, and the books stay right |
| Blocked.Server.DbAdd | redis-7.0.11/src/db.c:208-216 | a command that creates a key leaves every key that could serve a client queued |
| Blocked.Server.DbDelete | redis-7.0.11/src/db.c:338-361 | so does one that deletes a key |
| Blocked.Server.DbOverwrite | redis-7.0.11/src/db.c:242-267 | one that overwrites a key does so if and only if the key is queued, or held a stream with stream clients about, or the new value fits no client waiting on it |
| Blocked.SortIntoBlockedKey | redis-7.0.11/src/sort.c:582-583 | BLPOP k, SET k, SORT STORE k: the client still waits on a list that could serve it, and nothing is queued |
| Blocked.BlockingOwesNothing | redis-7.0.11/src/blocked.c:729-772 | a client that blocks on keys that cannot serve it owes no wakeup |
| Blocked.ServedFrame | redis-7.0.11/src/t_list.c:942-1005 | serving changes at most the key and the move's target, keeps kinds, and leaves no empty list |
| Blocked.WaitingIff | redis-7.0.11/src/blocked.c:656-663 | who can be served: a client blocked for lists before a list, or one blocked for sorted sets before a sorted set |
| Blocked.CreatedKeyServes | redis-7.0.11/src/blocked.c:621-697 | BLPOP or BZPOPMIN, then the key is created and the loop runs: the client is served and released, and a set of one member is gone |
| Blocked.FirstBlockedFirst | redis-7.0.11/src/blocked.c:285-397 | if a client of a key's list was served, every client before it that waits for the same type was served before it |
| Blocked.PopTakesOne | redis-7.0.11/src/t_list.c:972-984 | BLPOP and BRPOP take one element from their end and keep the others in order |
| Blocked.PopTakesCount | redis-7.0.11/src/t_list.c:955-970 | BLMPOP takes as many as asked for from its end, or all |
| Blocked.MovePutsOne | redis-7.0.11/src/t_list.c:985-1005 | BLMOVE: the element from the one end of the source is at the asked end of the target, and nothing else changed |
| Blocked.MoveTurns | redis-7.0.11/src/t_list.c:985-1005 | within one key the list is turned |
| Blocked.MoveRefused | redis-7.0.11/src/t_list.c:985-991 | a target of another type changes nothing |
| Blocked.ZsetGives | redis-7.0.11/src/blocked.c:339-397 | BZPOPMIN takes from the low end of a sorted set and BZPOPMAX from the high end, one, as many as asked for, or all |
| BitCount.SwarPack | redis-7.0.11/src/bitops.c:66-80 | the three masked steps on a word count each byte in its own lane |
| BitCount.StepCounts | redis-7.0.11/src/bitops.c:54-87 | the 28-byte step yields the number of one bits of its bytes: seven words never overflow a lane and the product gathers them without a carry |
| BitCount.RedisPopcount | redis-7.0.11/src/bitops.c:40-92 | for every string and address the three loops count its one bits |
| BitCount.EdgesSubtract | redis-7.0.11/src/bitops.c:861-871 | whole bytes hold the range's bits and those under the two edge masks, each once, even when both edges fall in one byte |
| BitCount.BitcountCommand | redis-7.0.11/src/bitops.c:796-874 | for every string and range the reply is the size of the set of one bits whose byte, or which themselves, are not before the start and not past the end, negative indexes standing back from the length |
| BitCount.WholeRange | redis-7.0.11/src/bitops.c:833-838 | 0 -1, in bytes and in bits, is the whole string |
| BitCount.NegativeStart | redis-7.0.11/src/bitops.c:833-833 | a start -k is the start length - k |
| BitCount.NegativeEnd | redis-7.0.11/src/bitops.c:834-834 | an end -k is the end length - k |
| BitCount.FarIndexes | redis-7.0.11/src/bitops.c:835-837 | indexes outside the string stand for its ends |
| BitCount.PlainRange | redis-7.0.11/src/bitops.c:833-847 | a range within the string is counted as it is written |
| BitPos.WordTest | redis-7.0.11/src/bitops.c:152-177 | bit j of the word loaded most significant byte first is bit j of the bytes, padding included |
| BitPos.LoadWord | redis-7.0.11/src/bitops.c:144-159 | the loading loop builds that word from the bytes left and zeros |
| BitPos.ScanWord | redis-7.0.11/src/bitops.c:168-184 | the scan stops at the first bit with the value and never runs out, so the panic behind it is unreachable |
| BitPos.RedisBitpos | redis-7.0.11/src/bitops.c:101-186 | for every string and address the result is the first bit with the value, -1 for a missing set bit, one past the end for a missing clear bit |
| BitPos.FirstEdge | redis-7.0.11/src/bitops.c:961-968 | the masked first byte shows exactly the range's bits, also when the range ends in it |
| BitPos.LastEdge | redis-7.0.11/src/bitops.c:984-986 | the masked last byte shows exactly the range's bits |
| BitPos.SearchRange | redis-7.0.11/src/bitops.c:957-986 | the three stages find the first bit of the range or clear the whole range |
| BitPos.BitposCommand | redis-7.0.11/src/bitops.c:877-1003 | for every string and arguments: the first bit as asked for among those whose byte, or which themselves, are not before the start and not past the end; without one -1, or the end of the string for a clear bit if no end is given and the range is not empty |
| BitPos.SearchWhole | redis-7.0.11/src/bitops.c:929-935 | 0 -1 finds what a search without range finds within the string |
| BitPos.SearchFromStart | redis-7.0.11/src/bitops.c:929-935 | a start of 0 is no start |
| BitPos.SearchNegative | redis-7.0.11/src/bitops.c:930-931 | an index -k is the index length - k |
| BitPos.SearchFar | redis-7.0.11/src/bitops.c:932-934 | indexes outside the string stand for its ends |
| BitPos.SearchPlain | redis-7.0.11/src/bitops.c:930-945 | a range within the string is searched as it is written |
| BitField.FieldOfValue | redis-7.0.11/src/bitops.c:209-241 | bits written from a value read back as the value modulo the width |
| BitField.SetUnsignedBitfield | redis-7.0.11/src/bitops.c:209-222 | the loop writes the value's low bits into the field in place and changes no other bit |
| BitField.GetUnsignedBitfield | redis-7.0.11/src/bitops.c:229-241 | the loop reads the field, first bit most significant |
| BitField.GetSignedBitfield | redis-7.0.11/src/bitops.c:243-266 | the field read in two's complement, for 1 to 64 bits |
| BitField.UnsignedIncrChecked | redis-7.0.11/src/bitops.c:288-323 | for every stored value and increment: overflow is reported exactly when the sum is out of range, wrapping gives the sum modulo the width, saturation the nearest value |
| BitField.UnsignedSetChecked | redis-7.0.11/src/bitops.c:288-323 | for SET: overflow exactly when the value does not fit; saturation gives the nearest value if and only if the value is not negative |
| BitField.SignedIncrChecked | redis-7.0.11/src/bitops.c:325-377 | for every stored value and increment of 1 to 64 bits: exact overflow report, modular wrap, nearest value |
| BitField.SignedSetChecked | redis-7.0.11/src/bitops.c:325-377 | for SET: exact overflow report and wrap; saturation gives the nearest value if and only if maximum minus value fits 64 bits |
| BitField.SignedSetExample | redis-7.0.11/src/bitops.c:333-347 | SET i8 to the lowest 64-bit value with saturation stores 127 |
| BitField.GetField | redis-7.0.11/src/bitops.c:1216-1247 | GET through the nine-byte buffer reads the field of the string continued with zeros, at every offset and width |
| BitField.Execute | redis-7.0.11/src/bitops.c:1136-1249 | one operation on the zero-padded bitmap: the field holds the promised number, no other bit changes, the reply is as promised, FAIL changes nothing |
| BitField.GrownIsSame | redis-7.0.11/src/bitops.c:481-498 | growing the string with zeros changes no bit |
| BitField.BitfieldGeneric | redis-7.0.11/src/bitops.c:1123-1249 | all operations in order, each on what the one before left, on a string grown once for all of them, to exactly the byte of the farthest write |
| BitField.StepReadsBack | redis-7.0.11/src/bitops.c:1136-1249 | for every operation and policy: what a GET then reads, and what the reply was |
| BitField.ClampIsNearest | redis-7.0.11/src/bitops.c:288-377 | saturation stores the nearest number the field can hold |
| BitField.ReduceIsCongruent | redis-7.0.11/src/bitops.c:288-377 | wrapping stores the number the field can hold that is the same modulo 2 to the width |
| BitField.FirstBitWeighsMost | redis-7.0.11/src/bitops.c:229-241 | the first bit of a field weighs most |
| ConfigRewrite.WrittenLast | redis-7.0.11/src/config.c:1251-1260 | writing over a line behind all lines written for an option adds its text last |
| ConfigRewrite.TidyReuse | redis-7.0.11/src/config.c:1251-1260 | reusing the first old line of an option keeps the whole invariant |
| ConfigRewrite.TidyExtend | redis-7.0.11/src/config.c:1261-1269 | appending a line, or the signature once, keeps it |
| ConfigRewrite.RewriteState.ReadOldFile | redis-7.0.11/src/config.c:1150-1215 | every comment and every line of an option reads as in the old file, an unusable line is that line behind a comment mark, and the signature is needed exactly if the file has none |
| ConfigRewrite.RewriteState.RewriteLine | redis-7.0.11/src/config.c:1238-1271 | the line takes the place of the first old line of its option that is left, or goes to the end under the signature if forced, or is dropped; written lines of every option stay its non-skipped emitted lines in emission order, old text of everything else is untouched, the signature is there at most once |
| ConfigRewrite.RewriteState.RemoveOrphaned | redis-7.0.11/src/config.c:1630-1655 | no old line of a processed option is left, the written lines are exactly the emitted ones, comments and lines of other options keep text and place |
| ConfigRewrite.RewriteState.GetContent | redis-7.0.11/src/config.c:1604-1621 | the content is the squeezed lines joined |
| ConfigRewrite.SqueezedKeeps | redis-7.0.11/src/config.c:1604-1621 | squeezing keeps every line with text in order and leaves no two blank lines together |
| ConfigRewrite.SqueezedApart | redis-7.0.11/src/config.c:1604-1621 | where no two blank lines stand together nothing is taken away |
| ConfigRewrite.SqueezedPair | redis-7.0.11/src/config.c:1604-1621 | of two blank lines together one is taken away |
| ConfigRewrite.RewriteFile | redis-7.0.11/src/config.c:1753-1795 | from the old lines and any calls to the new lines: a comment stays, an unusable line becomes a comment, a line of an option nobody asked about stays, the k-th line of any other option is the k-th line given for it, or blank; behind them come exactly the lines that found no place and were forced, under the signature |
| AdList.List.Empty | redis-7.0.11/src/adlist.c:57-72 | the list has no nodes |
| AdList.List.AddNodeHead | redis-7.0.11/src/adlist.c:89-107 | a new node before all others, links consistent with one repetition-free sequence |
| AdList.List.AddNodeTail | redis-7.0.11/src/adlist.c:115-133 | a new node after all others |
| AdList.List.InsertNode | redis-7.0.11/src/adlist.c:135-162 | a new node right after or right before a given one |
| AdList.List.DelNode | redis-7.0.11/src/adlist.c:168-181 | the node is taken out of the sequence; only its neighbours' links change |
| AdList.List.Index | redis-7.0.11/src/adlist.c:321-333 | the node at a signed index, or none |
| AdList.List.RotateTailToHead | redis-7.0.11/src/adlist.c:336-348 | the last node becomes the first |
| AdList.List.RotateHeadToTail | redis-7.0.11/src/adlist.c:351-363 | the first node becomes the last |
| AdList.List.Join | redis-7.0.11/src/adlist.c:367-383 | all nodes of the other list follow those of this one, and the other list is empty |
| AdList.VisitAndDelete | redis-7.0.11/src/adlist.c:206-241 | iteration from the head that deletes any of the nodes just returned visits every original node once in order and leaves the others in order |
| AdList.VisitAndDeleteBackwards | redis-7.0.11/src/adlist.c:211-241 | the same from the tail, in reverse order |
| AdList.Dup | redis-7.0.11/src/adlist.c:251-285 | the copy holds the duplicates in order, or there is none if one fails; the original is not modified |
| AdList.SearchKey | redis-7.0.11/src/adlist.c:296-314 | the first matching node from the head |
| Bio.RunKeeps | redis-7.0.11/src/bio.c:142-148 | the invariant holds after every interleaving of any number of clients and the worker |
| Bio.MoveKeeps | redis-7.0.11/src/bio.c:275-303 | every step of a submitting, polling or waiting client keeps it |
| Bio.WorkKeeps | redis-7.0.11/src/bio.c:217-271 | every step of the worker keeps it |
| Bio.Guarantees | redis-7.0.11/src/bio.c:217-271 | after every run: jobs ran in submission order exactly once; with the lock free the counter is the queue length, a sleeping worker has run everything, and a waiting client has a job to wait for |
| Bio.ZeroMeansFinished | redis-7.0.11/src/bio.c:275-303 | whenever a client reads the counter it is the queue length, and zero means every job submitted so far has finished running |
| Bio.EveryJobRuns | redis-7.0.11/src/bio.c:217-271 | from every reachable state, at most four steps of the client that holds the lock and some of the worker run every submitted job, take the count to zero, and wake all who wait |

## Left out

- `aof.c`: streams, modules and functions in the rewriter; RDB base files and the RDB preamble; write errors inside the rewriter; size checks and progress when several files are loaded; in the protocol, switching the log off at run time and rewrites with the log off, which only `AofManifest` has; rewrite rate limiting; latency, progress and logging.
- AofProtocol.CrashSafe: the incr files hold whole commands, since partial writes are the subject of `AofFlush`, `AofLog` and `AofFiles`; a loss of power and the upgrade from a single old file are not modelled.
- AofProtocol.LeftoverRunsTwice: stated for a rewrite in which every later step succeeds, and in whole commands. A short forced write whose undoing fails can leave the rest of a command at the front of the new file; of that only the case that the header stayed behind is stated (`AofLog.HalfCommandRefused`).
- AofLog.Load: reads with arbitrary I/O errors, and the overflow of atoi and strtol on numbers too large for a machine word.
- AofManifest.Manifest.DelHistoryFiles: the assertion that listed files are of history type is its precondition; reachable manifests meet it.
- `sds.c`: bytes above 127 are taken as neither printable nor blank, as in the C locale.
- AofFlush.Server.FlushAppendOnlyFile: a running background fsync is an input, and its failures are not modelled.
- `crcspeed.c`: the 16-bit engine, which only repeats the 64-bit one.
- Acl.Describe: rules stand for their text after splitting, which is the subject of `AclText`; the bitmap is the set of its bits. Passwords, key and channel patterns, users, files and modules that unload are left out.
- Blocked.Server.ReleaseStreamClients: which stream clients are due is an input; their entries and consumer groups are not modelled. WAIT, module types, timeouts and statistics are left out.
- Blocked.Server.ServeClient: a sorted set is its members in order; their scores are left out.
- AclText.DescribeText: a user with the root selector only. Further selectors follow on the same line in parentheses and are read through the quoting of `sdssplitargs`, where a first argument with a quote or a final parenthesis fails as well. The configuration file and its quoting, duplicate users, and NUL characters, which C strings cannot hold, are left out.
- BitCount.RedisPopcount: the table of counts per byte is modelled by what it tabulates; words are loaded with the first byte lowest, which the sum does not depend on.
- BitPos.BitposCommand: replies for missing keys are left out; a word is skipped when its eight bytes are all the skipped byte.
- BitField.BitfieldGeneric: parsing, replies, and the count of changes are left out.
- `bitops.c`: SETBIT, GETBIT and BITOP, which would add easier members.
- ConfigRewrite.RewriteState.ReadOldFile: splitting the file into trimmed lines and telling what a line configures are inputs; option names are taken in one case; writing the file is left out.
- AdList.List.InsertNode: allocation never fails; values are opaque; the position of a node is a ghost argument.
- Bio.RunKeeps: what a job does is one step; thread creation, killing and scheduling fairness are left out.
