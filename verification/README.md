# Verified model of the cloud backup server

The server accepts file uploads, downloads and deletions over HTTP. One main thread watches the
sockets with epoll; a pool of worker threads runs the request handlers. This project models its
five hard components and proves what they are meant to guarantee, for every input and every run.

`dafny verify dfyconfig.toml` checks the whole project (Dafny 4.11).

## What is modelled, and the main results

**Uploads** (`Search`, `Scanner`, `UploadMessage`, `SettledScanner`, `UploadTheorems`, `FullDisk`,
`Multipart`). A multipart body arrives in chunks, and the parser writes file contents to disk while
it looks for the next delimiter. `UploadMessages.UploadMessage` is the object with its loop, proved
equal to the function `Scanner.OnBody`. Main results:

- The outcome is a function of the bytes and not of the chunks (`ChunkIndependence`), if and only if
  the disk takes the data (`ChunksAgreeIff`, and for every message that a call leaves behind, a new one
  included, `MessageChunksAgreeIff`).
- On a full disk a file that comes whole is reported as a failure if it is long; if it is short it is
  reported as a success, and none of it is stored (`ToldOfFullDisk`).
- A body written in the form of section 5.1.1 of RFC 2046, with a filename in each part, delivers its
  parts and nothing else if and only if the searches for header blocks are not disturbed
  (`UploadRoundTrip`). The RFC allows any preamble and any epilogue, but the code looks for header blocks
  in both, and in the contents of refused parts: a blank line behind a boundary there rejects the message.
  `Undisturbed` says exactly when this happens, for all of them at once. Without stray boundaries it comes
  down to the epilogue (`ProperRoundTrip`). `BlankPreambleRejects`, `RefusedContentRejects` and
  `BlankEpilogueRejects`, which rejects a message whose files have all been stored, are inputs that fail,
  and a part without a filename rejects the message (`NamelessPartRejects`).
- A content is stored intact if and only if it does not contain CRLF and the boundary
  (`ContentStoredIffClean`).

**The data manager** (`Registry`, `RegistryTheory`, `LruRing`, `DataManager`, `Sharing`,
`Interleaving`, `Persistence`). `Registry.State` is the registry, the backup directory and the cache
list as values; `DataManagement.DataManager` is the object, with the intrusive ring of
`LruRing.NodeList`, and its methods are proved to act as the functions of `Registry`. Main results:

- No list node dangles, and the list is in order of last use.
- Deleting an uploaded file takes it out of registry, directory and list and frees its name
  (`DeleteRemoves`), and so undoes the upload (`DeleteUndoesUpload`).
- Over any interleaving of connections each open file has one owner, and what its completion records is
  what that owner wrote, short by the bytes that a full disk has lost (`RunKeepsInv`, `OwnerIsAlone`). A
  file that is reported as a success holds what was written if and only if none of it was written while
  the disk was full (`SuccessIsIntactIff`).
- With room on the disk, an upload stores exactly the bytes before its first delimiter whatever other
  connections do between its chunks, between the turns of its loop, and between the write and the
  completion within a turn (`InterleavedUpload`, `OpenUploadEnds`).
- The cache is truthful in every state of a run if and only if each `Put` stores a start of its file or
  nothing new (`SoundThroughoutIff`). It never lies unless a delete and a new upload of a name fall between
  a read and its `Put`, which `StaleStoreSpoilsCache` shows to happen.
- A name leaks exactly when a connection begins a new message with an upload still open (`NoLeakIff`).
- In every reachable state either there is something to save, or a current snapshot is being written,
  or the metadata file is up to date (`EveryRunPersists`).
- A restart recovers exactly the completed uploads if and only if every upload has its record and no
  pending file has one (`RecoveredIff`, and by the phase of the thread `RecoveredByPhase`). Two runs
  show the two ways to fail: an upload is lost between truncating the file and writing it
  (`UploadLost`), and a partial file comes back as a complete one (`PartialComesBack`).

**Connections and downloads** (`Connection`, `Download`, `Responses`). `Connection` is a machine whose
steps are the stretches of `handler`, `sendFile` and `NetReader` between two points at which another
thread can get in. Main results:

- A run keeps to one task per connection in all its states if and only if no read arrives between
  clearing `_is_processing` and the following look at `_sub_task`, which happens after the mutex is
  released (`OneTaskIffCalm`; `ReadInWindowMakesTwoTasks` is such a run). In all other runs no request
  bytes are lost and responses are in request order (`OneTaskNoLostWork`).
- Left to its own task, a connection parses all that it has read within a number of steps that is known
  beforehand (`InputIsParsed`); a closed one is done within four (`ClosedIsDone`).
- A download sends exactly the bytes of its range if and only if it does not start at 0 with a cached
  prefix longer than the range (`DownloadExactIff`): a cached prefix is always sent whole, as
  `RangeGetsTooMuch` shows. This holds after any other downloads, on the registry that they have left
  (`LaterDownloadExactIff`).
- The two together: each complete response of a run carries the bytes of its file, from the start of
  the range at least to its end (`ResponsesAreFiles`).

**The thread pool** (`ThreadPool`). A ring with two semaphores and two mutexes, with one step of one
thread per event and any number of threads. Main results: `EveryRunIsSafe`, and that every task that is
submitted is executed exactly once (`EveryTaskIsSomewhere`, `EveryTaskRunsOnce`).

**Paths and the pipe** (`Paths`, `Pipe`). `path_transform` and `file_dir` call each other and are
proved equal to evaluating the components on a stack. A relative path starts in the working directory
(`RelativeIsUnderCwd`), paths can be resolved in two goes (`TwoGoes`), and ".." is what `file_dir` gives
(`UpIsParent`). The pipe's messages do not depend on how reads cut them as long as no byte is 0
(`ReadIndependence`), what workers write is obeyed in order (`WrittenIsObeyed`), and a message is carried
out if and only if its descriptor is open and a multiple of 10000 accepts have reused it since
(`CarriedOutIff`); it ends its connection only if it says so or the system call that it asks for fails
(`CurrentEndsIff`).

## Assumptions

- A `char` stands for one byte. The boundary starts with "--" and contains no CR or LF (`Plain`): it
  comes out of a header value, and "--" is put before it (HTTPconnection.hpp:281).
- The clock is a parameter that does not change within one call or one message.
- File operations succeed, with two exceptions. "." and ".." exist but cannot be truncated or removed.
  And a full disk (`full`) takes no data. `std::ofstream` hands data to the disk at once from some length
  on (`DIRECT`, any positive number; 1024 with libstdc++) and buffers shorter data until the file is
  closed. `AppendContent` looks at the stream before it closes it (util.hpp:123-130), so that on a full disk
  it reports a failure for long data only, and short data is lost without a report.
- Configuration values are parameters; the largest read size is positive where a theorem needs it.
- The working directory reported by the kernel is normalised and HOME, if set, is an absolute path (`Sane`).
- The HTTP parser is an arbitrary choice among failing, wanting more input, and completing one message
  after some prefix of its input (`Parsed`), since it pauses after each complete message.
- The metadata file is a list of records, or empty text.

Where a comment in the code differs from the code, the model follows the code: the comment on
`path_transform` (util.hpp:249-250) says that an absolute path is returned as it is, but the code
normalises it too. The comment on `Deregister` (data_manager.hpp:153) asks for a name whose upload is
not finished, and the code does not look: used on a cached file it would leave a dangling list node,
as its contract says, and `Sharing.RunKeepsInv` shows that the upload code never does so.

## Model

| member | source | states |
|---|---|---|
| Search.FindIsFirst | HTTPconnection.hpp:344 | `find` returns the first occurrence, and `npos` only if there is none |
| Search.FindExtend | HTTPconnection.hpp:344 | a match that has been found is still the first match when more bytes arrive |
| Search.OverlapSharesChar | HTTPconnection.hpp:385 | two overlapping occurrences share the first character of the later one; with no CR in the boundary this rules out a delimiter overlapping itself |
| Registry.Position | data_manager.hpp:284 | the first place of a name in the list, if it has one |
| RegistryTheory.GetAnswers | data_manager.hpp:275-295 | reading the cache gives what is cached under the name of an uploaded file, and else nothing; a hit comes to the front and the list keeps its entries |
| RegistryTheory.PutStores | data_manager.hpp:297-325 | storing puts as much of the content as the limit allows at the front and evicts only the last entry; a cached file keeps its content and comes to the front |
| RegistryTheory.RegisterTakes | data_manager.hpp:126-152 | registering takes up a free valid name, with an empty file, and changes nothing else; any other name is refused |
| RegistryTheory.InsertCompletes | data_manager.hpp:173-199 | completing succeeds exactly for pending names, records size and time, and marks the registry dirty; nothing else changes |
| RegistryTheory.DeregisterUndoes | data_manager.hpp:154-171 | giving up an upload restores the state before its registration |
| RegistryTheory.DeleteRemoves | data_manager.hpp:201-232 | deleting an uploaded file succeeds and takes it out of registry, directory and list, leaves every other name and the order of the list alone, and frees the name; any other name is refused and nothing changes |
| RegistryTheory.DeleteUndoesUpload | data_manager.hpp:126-232 | uploading under a free name and deleting again restores the state, but for the flag that there is something to save |
| RegistryTheory.ApplyKeepsFiles | data_manager.hpp:126-232 | any legal call keeps the registered names equal to the files on disk, and recorded sizes equal to real ones |
| RegistryTheory.ApplyKeepsList | data_manager.hpp:275-325 | any legal call keeps the cached files distinct, uploaded, and within both limits, also for capacity 0 |
| RegistryTheory.RunKeepsAgreement | data_manager.hpp:126-325 | registry, directory and cache agree after any run of legal calls |
| RegistryTheory.CallKeepsCompleteFile | data_manager.hpp:126-232 | a legal call leaves every uploaded file as it is, unless it deletes it |
| RegistryTheory.CacheSoundIff | data_manager.hpp:297-325 | only a `Put` can make a cached value differ from the start of its file, and it does so exactly when what it stores is not a start of the file |
| RegistryTheory.ApplyKeepsOrderOfUse | data_manager.hpp:69-97 | each call leaves the list in order of last use, so eviction drops the least recently used file |
| RegistryTheory.RunKeepsOrderOfUse | data_manager.hpp:275-325 | the list is in order of last use after any run |
| LruRing.NodeList.constructor | data_manager.hpp:45-54 | a new list is a guard pointing to itself |
| LruRing.NodeList.LinkedExactlyInRing | data_manager.hpp:71-104 | a node is in the ring exactly when its pointers are set, which is how the code tells |
| LruRing.NodeList.MoveToHead | data_manager.hpp:69-82 | the ring stays a well-formed circular doubly linked list and reads as the old list with the node moved to the front; refused exactly for a null pointer and for nodes outside it |
| LruRing.NodeList.PushToHead | data_manager.hpp:84-97 | the node and its content come first, the last node goes if the capacity is exceeded, and an evicted node is unlinked and emptied |
| LruRing.NodeList.Remove | data_manager.hpp:99-112 | the node leaves the ring and ends unlinked and empty; removing an unlinked node changes nothing; refused exactly for a null pointer |
| LruRing.NodeList.RemoveTail | data_manager.hpp:114-119 | the last node leaves; refused exactly when the ring is empty |
| DataManagement.DataManager.constructor | data_manager.hpp:330 | the manager starts with no file registered and an empty list |
| DataManagement.DataManager.Register | data_manager.hpp:126-152 | acts on registry, directory and list as `Registry.Register`: refused for a known or invalid name or one that cannot be emptied, and otherwise the name is pending with an empty file |
| DataManagement.DataManager.Deregister | data_manager.hpp:154-171 | acts as `Registry.Deregister`: name and file are gone; the list stays sound if and only if the name had no node in it |
| DataManagement.DataManager.Insert | data_manager.hpp:173-199 | acts as `Registry.Insert`: succeeds exactly for pending names, and makes them complete and the registry dirty |
| DataManagement.DataManager.Delete | data_manager.hpp:201-232 | acts as `Registry.Delete`, of which `DeleteRemoves` says what it does; no node is left dangling |
| DataManagement.DataManager.PositionInRing | data_manager.hpp:284-294 | where a file's node sits in the ring is where its name sits in the list |
| DataManagement.DataManager.GetFilePreContent | data_manager.hpp:275-295 | acts as `Registry.GetFilePreContent` |
| DataManagement.DataManager.PutFilePreContent | data_manager.hpp:297-325 | acts as `Registry.PutFilePreContent` |
| DataManagement.DataManager.LoadFromFile | data_manager.hpp:344-384 | the registry holds what the records say, later ones winning and invalid ones skipped |
| DataManagement.DataManager.VerifyFileLegality | data_manager.hpp:386-424 | files without a record and records without a file go, and the registry is dirty exactly if a record went |
| DataManagement.DataManager.Start | data_manager.hpp:330-338 | start-up acts as `Persistence.Restart` |
| DataManagement.Directory.AppendContent | util.hpp:114-132 | appends the bytes, creating the file if needed; a full disk takes none of them, and this is reported exactly if the data is long enough to be handed over before the file is closed |
| DataManagement.Directory.CreateEmpty | data_manager.hpp:140-149 | the file exists and is empty afterwards, except for "." and ".." |
| SettledScanner.ReadHeadIff | HTTPconnection.hpp:354-372 | a header block is incomplete exactly if no blank line has come, and gives a name exactly if the text up to the first blank line has that name as its first, closed filename parameter |
| UploadMessages.UploadMessage.ParseHead | HTTPconnection.hpp:354-371 | reads the header block as `Scanner.ReadHead` |
| UploadMessages.UploadMessage.SkipToFile | HTTPconnection.hpp:342-381 | one turn with no file open acts as `Scanner.SkipIteration` and shortens the buffer if the loop goes on |
| UploadMessages.UploadMessage.WriteToFile | HTTPconnection.hpp:382-417 | one turn with a file open acts as `Scanner.FileIteration`, and shortens the buffer or closes the file |
| UploadMessages.UploadMessage.ProcessUploadBody | HTTPconnection.hpp:338-420 | the loop terminates and acts as `Scanner.ProcessUploadBody` |
| UploadMessages.UploadMessage.OnBody | HTTPconnection.hpp:291-307 | one chunk acts as `Scanner.OnBody`; a rejected message ignores the rest |
| UploadMessages.UploadMessage.Clear | HTTPconnection.hpp:92-123 | a new message forgets the open file's name and leaves it registered |
| UploadMessages.UploadMessage.Destroy | HTTPconnection.hpp:57-61 | the open file of a connection that goes away is deregistered and removed |
| SettledScanner.RetainedExtends | HTTPconnection.hpp:344-349 | bytes dropped while skipping take no part in any later match |
| SettledScanner.HeadNeedsRoom | HTTPconnection.hpp:340-356 | a buffer that holds a whole header block is longer than the loop's threshold |
| SettledScanner.ReadHeadExtends | HTTPconnection.hpp:354-371 | a complete header block reads the same however many bytes follow |
| SettledScanner.WritableExtends | HTTPconnection.hpp:385-392 | the bytes held back suffice to recognise a delimiter that arrives in pieces |
| SettledScanner.ScannerIsParse | HTTPconnection.hpp:338-420 | up to the bytes left in the buffer, the loop does what a parser without buffer-size tests does |
| SettledScanner.ParseExtends | HTTPconnection.hpp:338-420 | parsing a buffer and then more bytes is parsing all of them at once |
| UploadTheorems.OnBodyAllFeeds | HTTPconnection.hpp:291-307 | any cutting of a body is equivalent to feeding its concatenation |
| UploadTheorems.ChunkIndependence | HTTPconnection.hpp:291-307 | disk, registry, success list, failure list, open file and rejection depend on the concatenated bytes alone; buffers differ by at most two bytes, and only while no file is open |
| UploadTheorems.SkipBufferBound | HTTPconnection.hpp:340-341 | at most as many bytes as a delimiter has stay buffered while a file is open |
| UploadTheorems.CompleteStaysPut | HTTPconnection.hpp:371-416 | parsing never touches a file that is already complete |
| UploadTheorems.OpenFileFate | HTTPconnection.hpp:382-416 | an open file ends at the first delimiter and records its size; until then disk content followed by buffer equals the stream |
| FullDisk.FullDiskDependsOnCuts | HTTPconnection.hpp:397-407 | on a full disk, for every boundary and every open file, two cuttings of one continuation differ in what a client can see: a write that fails decides how much of the content is searched for a boundary |
| FullDisk.ChunksAgreeIff | HTTPconnection.hpp:291-307 | with a file open, the outcome of every continuation is a function of its bytes if and only if the disk takes the data |
| FullDisk.MessageChunksAgreeIff | HTTPconnection.hpp:291-307 | the same for every message that waits for more bytes: new, with a header block or a delimiter begun in its buffer, or with a file open |
| FullDisk.OnBodyWaits | HTTPconnection.hpp:338-420 | every call leaves such a message behind, unless it rejects it |
| FullDisk.ToldOfFullDisk | util.hpp:123-130 | a file that comes whole while the disk is full: if it is short it is reported as a success, registered as complete, and none of its bytes are stored; if it is long it is reported as a failure and removed |
| Multipart.DelimiterAfterContent | HTTPconnection.hpp:385 | the first delimiter after a content is the intended one if and only if the content does not contain it |
| Multipart.PartsDelivered | HTTPconnection.hpp:338-420 | after any parts whose header blocks are read as they are meant, the parser looks for the next boundary with every part delivered |
| Multipart.DeliveredIffQuiet | HTTPconnection.hpp:338-420 | such parts are delivered, and nothing else happens, if and only if no blank line follows a boundary in what comes after the last of them |
| Multipart.ReadIffUnbroken | HTTPconnection.hpp:342-371 | with any text before it, stray boundaries included, the next header block is read as it is meant if and only if the first blank line behind the first boundary is its own; otherwise the message is malformed |
| Multipart.PartsDeliveredIff | HTTPconnection.hpp:338-420 | the parser delivers the parts and does nothing else if and only if no search is disturbed and no accepted content contains the delimiter |
| Multipart.UploadRoundTrip | HTTPconnection.hpp:291-307 | uploading the encoding of any parts, with any preamble, refused contents and epilogue, in any chunks, stores each accepted content and lists accepted and refused names in order, and does nothing else, if and only if that is so |
| Multipart.PreamblePartDelivered | HTTPconnection.hpp:342-381 | a preamble that reads as a part is delivered as one |
| Multipart.ProperRoundTrip | HTTPconnection.hpp:291-307 | with no boundary in preamble and refused contents, and clean contents, all parts are delivered and nothing else happens if and only if no blank line follows the close delimiter |
| Multipart.BlankEpilogueRejects | HTTPconnection.hpp:354-363 | with a blank line as epilogue every part is stored and the message is rejected |
| Multipart.BlankPreambleRejects | HTTPconnection.hpp:344-363 | a preamble that is the boundary and a blank line rejects the message before its first part |
| Multipart.RefusedPartIff | HTTPconnection.hpp:371-378 | a refused part has no other effect than its failed name if and only if no blank line follows a boundary in its content and what comes after it |
| Multipart.RefusedContentRejects | HTTPconnection.hpp:344-363 | a refused part whose content is the boundary and a blank line rejects the message |
| Multipart.NamelessPartRejects | HTTPconnection.hpp:358-363 | a part without a filename rejects the message in any chunks, the parts before it staying delivered |
| Multipart.DeliverAllKeeps | HTTPconnection.hpp:371-378 | an upload never changes a file that was registered before |
| Multipart.FreshPartsAllStored | HTTPconnection.hpp:371-416 | with distinct, valid, free names every part succeeds and is stored complete under its name |
| Multipart.ContentStoredIffClean | HTTPconnection.hpp:383-416 | the stored bytes are the content if and only if it does not contain the delimiter |
| Sharing.RunKeepsInv | data_manager.hpp:126-232 | over any interleaving, each open file has one owner, is pending, and holds what the owner wrote, short by exactly the bytes that a full disk has lost; pending names are the owned and the leaked ones |
| Sharing.OwnerIsAlone | HTTPconnection.hpp:371-416 | while a file is open nobody else can register, delete or download it, and completing it succeeds and records the number of bytes its owner wrote, less the lost ones |
| Sharing.SuccessIsIntactIff | util.hpp:114-132 | a file that its connection writes and completes in a run holds what was written if and only if none of it was written while the disk was full; it is reported as a success in any case |
| Sharing.LeakedStaysLeaked | HTTPconnection.hpp:107 | a leaked name can never be uploaded again or deleted |
| Sharing.NoLeakIff | HTTPconnection.hpp:92-123 | a run leaves no name behind if and only if every upload in it ends before its connection's next message |
| Sharing.SoundThroughoutIff | HTTPconnection.hpp:643-671 | in every state of a run all cached values are starts of their files if and only if each `Put` of the run stores a start of its file, or nothing new |
| Sharing.FreshRunKeepsCacheSound | HTTPconnection.hpp:643-671 | that is so if each `Put` stores what was read from the file that still has the name |
| Sharing.StaleStoreSpoilsCache | HTTPconnection.hpp:656-664 | a delete and new upload between the read and the `Put` leave old bytes cached for the new file |
| Sharing.IterationIsEvents | HTTPconnection.hpp:338-420 | every turn of the upload loop is a run of the shared machine, so its invariant holds for any number of scanners |
| Sharing.CompleteFileFixed | data_manager.hpp:126-232 | an uploaded file keeps its bytes through every event of other connections |
| Sharing.OpenTakes | HTTPconnection.hpp:371-378 | a connection that opens a free valid name owns it, with an empty file; otherwise nothing happens |
| Sharing.RemovedIsGone | data_manager.hpp:201-232 | a deleted file is gone for every connection, and its name can be uploaded again |
| Sharing.DestroyGivesUp | HTTPconnection.hpp:57-61 | a connection that goes away takes its open file with it and frees the name |
| Sharing.SendIsEvents | HTTPconnection.hpp:643-671 | what a call of `sendFile` does to the registry is a fresh run of the looks, reads and puts of the shared machine |
| Sharing.SharedDownload | HTTPconnection.hpp:627-694 | a download interleaved with fresh runs that leave its file alone sends exactly the whole file |
| Interleaving.ChunkIsEvents | HTTPconnection.hpp:338-420 | what one chunk does to the registry is a run of its connection's own events, in any state of the shared machine |
| Interleaving.OthersKeepFile | data_manager.hpp:126-232 | nothing that other connections do changes an open file or takes it from its owner |
| Interleaving.HalvesAreIteration | HTTPconnection.hpp:382-416 | with nobody in between, writing and completing are one turn of the loop |
| Interleaving.AtRest | HTTPconnection.hpp:340 | when the loop has done what it can, no delimiter has come and all but the last bytes of the stream are on the disk |
| Interleaving.InterleavedUpload | HTTPconnection.hpp:291-420 | whatever other connections do between chunks, between turns and within a turn, the file is completed at the first delimiter with exactly the bytes before it and their number recorded; until then disk and buffer hold the stream |
| Interleaving.UploadStarts | HTTPconnection.hpp:291-307 | that holds from any moment between two turns at which the connection has a file open |
| Interleaving.OpenUploadEnds | HTTPconnection.hpp:291-420 | the two together: what the file held, what was in the buffer and what arrives later make up what is stored |
| Persistence.LoadOfListing | data_manager.hpp:435-445 | loading the records that the thread writes gives back the uploaded files |
| Persistence.LoadIff | data_manager.hpp:358-380 | a name is loaded exactly if it has a valid record, and with what the last one says |
| Persistence.NextKeepsInv | data_manager.hpp:426-465 | one call or one step of the storage thread keeps the persistence invariant |
| Persistence.EveryRunPersists | data_manager.hpp:426-465 | in every state after a start, there is something to save, or a current snapshot is on its way, or the file is up to date; and no wake-up is lost |
| Persistence.ThreadCatchesUp | data_manager.hpp:426-465 | until it sleeps the thread has a step of its own to take, and each one brings it nearer; asleep and not notified it has none, and everything is saved |
| Persistence.RecoveredIff | data_manager.hpp:344-424 | a restart at any moment keeps exactly the completed uploads and removes partial files if and only if every upload has its record and no pending file has one |
| Persistence.RecoveredByPhase | data_manager.hpp:426-465 | right after the truncation that means that nothing is complete; with everything saved it always holds; before the truncation the old file decides |
| Persistence.UploadLost | data_manager.hpp:454-459 | a run from an empty server in which a completed upload is lost |
| Persistence.PartialComesBack | data_manager.hpp:344-424 | a run (upload, save, delete, upload again, restart) after which a partial file is registered as complete, with the old size |
| Persistence.QuiescentRestart | data_manager.hpp:344-424 | that is so in every quiescent state, and the restarted registry agrees with the directory |
| Persistence.RestartTwice | data_manager.hpp:344-424 | restarting again changes nothing |
| Persistence.CrashWhileTruncatedLosesAll | data_manager.hpp:454-459 | a restart between the truncation and the write forgets every upload and deletes every file |
| Download.Sender.ReadPiece | HTTPconnection.hpp:643-671 | reads the next piece from the cache or the disk as `Download.SendFile`, of which the following rows say what it does |
| Download.Sender.Send | HTTPconnection.hpp:627-680 | one call appends its piece, schedules the rest, or asks for the connection to be closed, as `Download.SendFile` |
| Download.OneCall | HTTPconnection.hpp:643-679 | one call sends the bytes from its position on, at least one, from cache or disk alike |
| Download.PieceSize | HTTPconnection.hpp:648-656 | a piece from the disk has as many bytes as one read may have, unless the range or the file ends before |
| Download.FailsIff | HTTPconnection.hpp:642-668 | a call asks for closing exactly if it has something to send that is not cached, and the file is missing or, at the start, not uploaded |
| Download.SendKeepsRegistry | HTTPconnection.hpp:643-671 | a call changes nothing but the list, adds nothing to it but its own file, and keeps the cache truthful; past the start of a file it changes nothing at all |
| Download.RunSendsTheFile | HTTPconnection.hpp:627-694 | a run of calls sends an unbroken stretch and reaches the end within as many calls as there are bytes |
| Download.DownloadExactIff | HTTPconnection.hpp:644-679 | the pieces are exactly the range if and only if it starts past 0, or is empty, or the cached prefix is no longer than it |
| Download.WholeFileDownload | HTTPconnection.hpp:461-479 | a whole file comes out the same on a hit and on a miss |
| Download.CallsKeepRegistry | HTTPconnection.hpp:627-694 | any calls of any downloads leave registry and directory as they are and the cache truthful |
| Download.LaterDownloadExactIff | HTTPconnection.hpp:627-694 | a download on the registry that any earlier calls have left sends exactly its range if and only if it starts past 0, or is empty, or no more than the range is cached by then |
| Download.LaterWholeDownload | HTTPconnection.hpp:627-694 | so a whole file comes out, whatever has been downloaded before |
| Download.RangeAfterDownloadIff | HTTPconnection.hpp:644-679 | after a whole download of an uncached file, a range from 0 is exact if and only if it is empty or as long as what was cached |
| Download.RangeGetsTooMuch | HTTPconnection.hpp:644-679 | once "ab" has been uploaded and downloaded, the range of its first byte sends both |
| Download.SentApart | HTTPconnection.hpp:655-664 | what others do between the read and the `Put` does not change what is sent, unless they delete the file |
| Download.NoProgressIff | util.hpp:84-90 | a call past the start makes no progress exactly when the file has become too short |
| Download.FirstCallCaches | HTTPconnection.hpp:664 | after a miss at the start the file heads the list with a start of its contents |
| Connection.NextKeepsInv | HTTPconnection.hpp:583-694 | one stretch of code keeps the protocol's invariant, unless a read arrives in the release window |
| Connection.OneTaskNoLostWork | HTTPconnection.hpp:583-694 | over any such run: at most one task, waiting bytes have a task or the connection is closed or closing, parsed bytes and buffer make up the bytes received, responses are in order |
| Connection.AtRest | HTTPconnection.hpp:611-618 | a connection without a task has parsed all it read and has finished its last body |
| Connection.BeginTakes | HTTPconnection.hpp:587-594 | a turn of `handler` takes the first bytes of the request buffer, all of them or as many as the limit |
| Connection.InputIsParsed | HTTPconnection.hpp:583-694 | left to its own task, with a parser that accepts its input, a connection takes a bounded number of steps, can always take another until the task has ended, and has then parsed all it read |
| Connection.ExceptCloses | cloud_backup_server.hpp:358 | closing sets the flag and nothing else |
| Connection.ClosingIff | HTTPconnection.hpp:596-668 | only the main thread closes a connection; a task asks for it exactly if the parser, an answer or a piece of a file fails |
| Connection.ClosedTaskEnds | HTTPconnection.hpp:585-630 | a task that is called on a closed connection ends at once and does nothing |
| Connection.ClosedIsDone | HTTPconnection.hpp:583-694 | a closed connection takes no more bytes and is done within four steps |
| Connection.BooksAreTrue | HTTPconnection.hpp:583-625 | what was received are the bytes of the reads, and the headers in the response buffer are those of the completed messages, in order |
| Connection.BodyLength | HTTPconnection.hpp:672-679 | the pieces after a header add up to the distance covered in the file |
| Connection.BodyIsTheFile | HTTPconnection.hpp:672-679 | pieces that are true to their positions make one unbroken stretch of the file from the start of the range |
| Connection.OneTaskIffCalm | HTTPconnection.hpp:609-623 | a run keeps to one task in all its states if and only if no read arrives in a release window |
| Connection.ReadInWindowMakesTwoTasks | HTTPconnection.hpp:609-623 | with one read in the release window the connection gets two tasks for the same file |
| Connection.HttpConnection.NetRead | cloud_backup_server.hpp:286-293 | the locked part of `NetReader` appends the bytes and starts a handler exactly if none is running |
| Connection.HttpConnection.NetExcept | cloud_backup_server.hpp:358 | closing sets the flag, and acts as the machine's event |
| Connection.HttpConnection.TakeRequest | HTTPconnection.hpp:585-594 | the start of `handler` takes the first bytes of the request buffer, all of them or as many as the limit, unless the connection is closed; and acts as the machine's event |
| Connection.HttpConnection.Release | HTTPconnection.hpp:608-618 | the locked end of `handler` and `sendFile` acts as the machine's event |
| Responses.RunKeepsTrue | HTTPconnection.hpp:643-679 | every piece in the response buffer is the part of its file that it says it is |
| Responses.ResponsesAreFiles | HTTPconnection.hpp:583-694 | each complete response carries the bytes of its file from the start of the range at least to its end, and exactly those if the range starts past 0 or ends with the file |
| ThreadPool.SlotsDiffer | ThreadPool.hpp:32 | two tasks less than a lap apart are in different slots |
| ThreadPool.RoomToWrite | ThreadPool.hpp:28-33 | a producer about to write has room, and its slot is empty |
| ThreadPool.TaskToTake | ThreadPool.hpp:73-80 | a consumer about to take finds the next task in its slot |
| ThreadPool.NextKeepsInv | ThreadPool.hpp:24-85 | one step of one thread keeps permits, positions, slots and mutexes in order |
| ThreadPool.EveryRunIsSafe | ThreadPool.hpp:24-85 | under any interleaving: capacity is conserved, tasks are taken first in first out, no slot is overwritten, and a producer and a consumer inside never work on the same slot |
| ThreadPool.EveryTaskIsSomewhere | ThreadPool.hpp:24-85 | in every reachable state each copy of a submitted task is with a producer, in the ring, with a consumer, or executed |
| ThreadPool.EveryTaskRunsOnce | ThreadPool.hpp:24-85 | once the pool is idle, the tasks executed are the tasks submitted, each as often |
| ThreadPool.OwnTasksMove | ThreadPool.hpp:31-77 | a producer writes its own task, and what is taken from a slot is what its consumer has copied |
| ThreadPool.HandsKeepTask | ThreadPool.hpp:73-81 | a thread keeps its task until it is through |
| ThreadPool.AtRest | ThreadPool.hpp:55-59 | with no thread under way the semaphores count the empty and the full slots |
| ThreadPool.NoDeadlock | ThreadPool.hpp:24-85 | while some thread has a permit some thread can take its next step |
| ThreadPool.TaskRing.WriteTask | ThreadPool.hpp:30-33 | the producer's critical section fills an empty slot as the machine does |
| ThreadPool.TaskRing.TakeTask | ThreadPool.hpp:76-80 | the consumer's critical section takes the next task in order and empties its slot as the machine does |
| Paths.IsSeparated | util.hpp:235-243 | the scan finds out whether two slashes stand together |
| Paths.IsPath | util.hpp:216-248 | completes the start of a path, or returns "" for what is not a path |
| Paths.PathTransform | util.hpp:251-290 | returns the text of the stack that the components evaluate to from where the path starts (`StartsAt`), and terminates although it calls `file_dir`, which calls it |
| Paths.FileDir | util.hpp:295-302 | the directory of a path, the root being its own |
| Paths.GetFileName | util.hpp:53-65 | the last name of the normalised path |
| Paths.IsFilename | util.hpp:304-312 | accepts exactly the non-empty names without a slash or a quotation mark |
| Paths.ResultIsNormal | util.hpp:249-290 | every non-empty result is absolute, with no "//", "." or ".." in it |
| Paths.Idempotent | util.hpp:249-290 | normalising twice is normalising once |
| Paths.StartsAt | util.hpp:216-290 | which paths are refused, and where each other one starts: at the root, in the home directory or in the working directory |
| Paths.RelativeIsUnderCwd | util.hpp:260-269 | a relative path means the same as the path put after the working directory's |
| Paths.TildeIsHome | util.hpp:223-230 | "~" and what follows it mean the same as the home directory and what follows it |
| Paths.WalkJoin | util.hpp:271-286 | walking along two texts with a slash between them is walking along one and then along the other |
| Paths.TwoGoes | util.hpp:251-290 | a path put after a directory's means the same as put after the directory's normalised path |
| Paths.HereIsSame | util.hpp:275-276 | "." is the directory itself |
| Paths.UpIsParent | util.hpp:277-278 | ".." is the directory that `file_dir` gives |
| Paths.UpUndoes | util.hpp:270-286 | ".." after a name undoes it |
| Paths.ComponentAdded | util.hpp:270-285 | a component put after a directory's final slash is pushed on the directory's stack |
| Paths.KeyRoundTrip | data_manager.hpp:136-139 | a name put after a directory is a file of its own, whose name reads back, if and only if it is neither "." nor ".." |
| Paths.KeysDiffer | data_manager.hpp:131-139 | different names that can be registered are different files, all of the backup directory |
| Pipe.DecodeEncode | cloud_backup_server.hpp:226-232 | reading a written message gives back operation, descriptor and use count |
| Pipe.EncodedIsOneField | HTTPconnection.hpp:570-579 | what a worker writes is exactly one field |
| Pipe.FramesAppend | cloud_backup_server.hpp:217-248 | the fields do not depend on where the bytes were cut |
| Pipe.ReadIndependence | cloud_backup_server.hpp:178-249 | what is carried out depends on the concatenated text that the reads add, which is all their bytes if none of them is 0 |
| Pipe.NulHides | cloud_backup_server.hpp:205-206 | a byte 0 hides what comes after it in the same read, and only there |
| Pipe.RunKeepsInv | cloud_backup_server.hpp:170-173 | a descriptor's use count is the number of its accepts, wrapped |
| Pipe.WrittenIsObeyed | cloud_backup_server.hpp:178-249 | the messages that workers write are obeyed one by one in order, in whatever pieces they are read, and never end the process |
| Pipe.CarriedOutIff | cloud_backup_server.hpp:170-234 | a message from the k-th connection on a descriptor is carried out if and only if the process is alive, the descriptor is open and the accepts since are a multiple of 10000 |
| Pipe.StaleIsDropped | cloud_backup_server.hpp:233-234 | a message from an earlier connection changes nothing while fewer than 10000 accepts have followed |
| Pipe.CurrentEndsIff | cloud_backup_server.hpp:233-244 | a current message ends its connection exactly if it says so or the read or write that it asks for fails, and leaves everything else alone |
| Pipe.StoiReads | cloud_backup_server.hpp:231-232 | `std::stoi` gives the number after spaces and a sign if there is one and it fits, and throws otherwise |
| Pipe.CrashIff | cloud_backup_server.hpp:231-232 | a field with an underscore ends the process exactly if one of its two numbers is missing or does not fit |
| Pipe.OthersAreSkipped | cloud_backup_server.hpp:223-230 | fields that are too short or have no underscore change nothing |
| Pipe.NegativeIsDropped | cloud_backup_server.hpp:233-234 | neither do negative numbers |
| Pipe.AcceptOpens | cloud_backup_server.hpp:170-173 | an accept makes the descriptor a connection, counts it, and changes nothing else |
| Pipe.AcceptsAreCounted | cloud_backup_server.hpp:170 | the count of a descriptor is the number of its accepts in the run |
| Pipe.CloseCloses | cloud_backup_server.hpp:240-244 | a close message closes its connection and no other |
| Pipe.EventLoop.AddConnection | cloud_backup_server.hpp:156-174 | acts as `Pipe.Accept` if both system calls succeed, and else changes nothing |
| Pipe.EventLoop.NetExcepter | cloud_backup_server.hpp:345-363 | forgets the connection and nothing else |
| Pipe.EventLoop.Dispatch | cloud_backup_server.hpp:225-244 | one message acts as `Pipe.Act`, of which the rows above say what it does |
| Pipe.EventLoop.PipeDataHandler | cloud_backup_server.hpp:205-249 | one read acts as `Pipe.Feed`: its bytes are added up to the first 0, whole fields are handled in order and the rest is kept |

## Left out

- Sockets, epoll, system calls on the pipe, daemonising, signals, logging and configuration loading: input and output.
- The HTTP parser's own grammar: it is an arbitrary choice among its possible results.
- JSON text: the metadata file is a list of records. A file that does not parse makes the server exit, and is not modelled.
- Header serialisation, status codes, ETag text, `Range` parsing (negative or malformed values included), `on_url_complete`, the list page and the `/api` answers: single-branch code.
- `URLDecode`: easy beside the rest.
- The routing of `on_body` and `on_message_complete` by method and URL: the model starts where a message is an upload or a download.
- `NetWriter`: which prefix of the response buffer has been written depends on the kernel.
- Destruction of the thread pool and of the data manager: their loops never end.
- 32-bit positions: the code keeps results of `find` in an `int`, so a buffer of more than 2 GB would be misread.
- File operations that fail for other reasons than a full disk, writes of which a full disk takes a part, names that the operating system refuses, and directory entries that are not regular files.
- DataManagement.Directory.AppendContent: a disk that is full takes nothing of a write, not even its first bytes. A directory name cannot be opened for appending, but `Register` never accepts one.
- Scanner.ProcessUploadBody: acts on one state of the registry; what others do in between is in Interleaving.
- Multipart.UploadRoundTrip: each header block has a filename in quotation marks without an escaped quotation mark, and no filename parameter stands behind a boundary in the preamble or in a refused content that another part follows: such text reads as a part of its own (`PreamblePartDelivered`). `DeliveredIffQuiet` asks only that each header block is read as it is meant.
- FullDisk.MessageChunksAgreeIff: the boundary does not itself contain a filename parameter; `ChunksAgreeIff`, with a file open, does not ask for this.
- OneTaskNoLostWork: for runs without a read in the release window; `OneTaskIffCalm` says that these are exactly the runs with one task.
- InterleavedUpload: for a disk that takes the data.
- EveryRunPersists: assumes that serialising and writing the metadata file succeed.
- EveryRunIsSafe: the capacity is positive; with capacity 0 no permit is ever given and a push waits for ever.
- Download.Sender.ReadPiece: the lock of the file that is read is not modelled, and the method runs alone; `SentApart` and Sharing say what others may change between the read and the `Put`.
