# Music service core in Dafny

A model of the logic at the heart of a small Spring music service (songs,
playlists, users) and its React table view, with proofs about it:

- the asynchronous log export of `LogService`: a job store in which
  submission records `PROCESSING`, a worker run records `READY` or `ERROR`,
  polling defaults to `NOT_FOUND`, and a download reads the stored file;
- the older synchronous export of `LogController`, which filters by
  substring instead of prefix and refuses a symbolically linked temporary
  directory;
- the shared file helpers: line reading, the file-name sanitiser, the
  temporary file name and the written file contents;
- the generic LRU cache `CacheConfig<K, V>` of the backend (an
  access-ordered `LinkedHashMap` of capacity 3, with `equals`/`hashCode`);
- the LFU `songsCache` of the older tree (a map with a usage counter and
  capacity check against 10);
- the backend's `SongService`, `PlaylistService` and `UserService` over
  repositories modelled as finite maps from ids to rows;
- the `PlaylistDto`, `UserDto` and `SongDto` projections;
- the two visit counters, one on 64-bit and one on 32-bit values;
- the text helpers of the frontend's `TabContent`.

Files (one module each): `common.dfy` (Option, Result, failure kinds),
`seqs.dfy` and `strings.dfy` (generic sequence and string facts),
`log_files.dfy`, `log_service.dfy`, `log_controller.dfy`, `lru_cache.dfy`,
`lru_equality.dfy`, `lfu_cache.dfy`, `entities.dfy`, `dtos.dfy`, `song_service.dfy`,
`playlist_service.dfy`, `user_service.dfy`, `visit_counters.dfy` and
`tab_content.dfy`.

The following are parameters of the model rather than computed:

- everything the outside world answers, collected in `LogFiles.Env`:
  - whether the log exists and what it holds;
  - whether the temporary directory is a directory or a link;
  - the random part of the temporary file name;
  - the line separator;
  - whether each I/O call succeeds.
- the clock reading behind a job id;
- the ids an identity column hands out: `base` in `CreateSongs`, `newId` in `CreatePlaylist`;
- the key `removeLFUEntry` picks among equally used keys, which is the `pick` argument.

Concurrency is replaced by an interleaving of whole steps (`LogService.Step`,
`LogService.Run`).

Where the code and the design description of the system disagree, the model
follows the code:

- The service's `getValidTempDir` has no symbolic-link test. Only the
  controller has one.
- The filter of the service matches a prefix and the controller's matches a
  substring. Both are modelled and related.
- A terminal job status stays terminal only while job ids do not collide.
  Two submissions in the same millisecond share an id, and the second one
  reopens the job. See `LogService.SameIdResubmissionReopensJob`.
- A sanitised file name is not limited to `[A-Za-z0-9.-]`. The `_`
  replacement character also appears. See `LogFiles.IsSanitizedChar`.
- `updateSong` invalidates the cache entry of the new artist. It leaves the
  old artist's entry alone, even though the repository's own test expects
  the old artist. See "Findings".

## Model

| member | source | states |
|---|---|---|
| LogFiles.ReadLines | src/main/java/com/example/restservice/service/LogService.java:85-94 | no line read from the log contains a line terminator |
| LogFiles.FileContent | src/main/java/com/example/restservice/service/LogService.java:138-146 | the written file starts with the first line and its separator, and with a non-empty separator it is empty exactly when there are no lines; `ReadWrittenLines` reads it back |
| LogFiles.ReadWrittenLines | src/main/java/com/example/restservice/service/LogService.java:138-146 | reading back a written file with `\n` or `\r\n` separators gives exactly the lines written, in order |
| LogFiles.FileContentLength | src/main/java/com/example/restservice/service/LogService.java:138-146 | the written file holds every line plus exactly one separator per line |
| LogFiles.SanitizeFilename | src/main/java/com/example/restservice/service/LogService.java:148-151 | null gives "unknown"; otherwise the length is kept, allowed characters are kept, every other character becomes `_`, and no path separator remains |
| LogFiles.SanitizeIdempotent | src/main/java/com/example/restservice/controller/LogController.java:106-112 | sanitising an already sanitised name changes nothing |
| LogFiles.TempFileName | src/main/java/com/example/restservice/service/LogService.java:128-136 | the created name starts with `logs-`, the sanitised date and `-`, ends with `.log`, and is 10 characters longer than the date and the random part together |
| LogFiles.TempFileNameIsSafe | src/main/java/com/example/restservice/service/LogService.java:128-136 | for any date, the created file name consists only of allowed characters and `_` |
| LogFiles.WriteTempLogFile | src/main/java/com/example/restservice/service/LogService.java:128-146 | succeeds exactly when creation and writing succeed on a name not yet on disk; the new file lands in the temporary directory under the sanitised name with the written lines; no existing file is changed or removed |
| LogService.CreateJobId | src/main/java/com/example/restservice/service/LogService.java:30 | a job id is `log_` followed by nothing but the decimal digits of the clock |
| LogService.JobIdsCollideOnlyInSameMillisecond | src/main/java/com/example/restservice/service/LogService.java:29-31 | two submissions get the same job id if and only if they happen in the same millisecond |
| LogService.FilterLogsByDate | src/main/java/com/example/restservice/service/LogService.java:96-107 | NotFound exactly when no line starts with the date; otherwise exactly the lines that start with the date, with their multiplicities, in original order |
| LogService.ReadLogsByDate | src/main/java/com/example/restservice/service/LogService.java:71-79 | a missing log gives NotFound; success exactly when the log exists, reads, and has a matching line; the result is the prefix-filtered lines |
| LogService.CreateTempLogFile | src/main/java/com/example/restservice/service/LogService.java:109-126 | a temporary directory that is not a directory fails without touching the disk; a symbolic link to a directory is accepted; success writes the lines into a new file of the temporary directory; no existing file changes |
| LogService.Submit | src/main/java/com/example/restservice/service/LogService.java:29-36 | an immediate poll of the new id sees PROCESSING; every other id polls as before; exactly one task is queued |
| LogService.ExportRun | src/main/java/com/example/restservice/service/LogService.java:38-47 | the export succeeds exactly when the sleep, the read, the filter, the directory check, the creation and the write all succeed; the file holds the prefix-filtered lines |
| LogService.ProcessFile | src/main/java/com/example/restservice/service/LogService.java:38-50 | a worker run leaves its job READY or ERROR, READY exactly when the export succeeded and then with the path stored; no other job changes; the task leaves the queue |
| LogService.Settle | src/main/java/com/example/restservice/service/LogService.java:45-48 | once the export has ended, the job is READY with the file's path stored, or ERROR with no path touched; the task leaves the queue and no other job changes |
| LogService.Download | src/main/java/com/example/restservice/service/LogService.java:57-69 | NotFound exactly when no path is stored or the stored file is gone; otherwise that file and its contents |
| LogService.SubmitKeepsValid | src/main/java/com/example/restservice/service/LogService.java:29-36 | submission keeps the store invariant: NOT_FOUND never stored, every queued job recorded, READY only with a path |
| LogService.ProcessFileKeepsValid | src/main/java/com/example/restservice/service/LogService.java:45-46 | a worker run keeps the store invariant; in particular READY implies a stored path |
| LogService.ProcessFileKeepsTracked | src/main/java/com/example/restservice/service/LogService.java:38-50 | with unique ids, a worker run keeps "PROCESSING exactly for queued jobs, path exactly for READY jobs" |
| LogService.SubmitFreshKeepsTracked | src/main/java/com/example/restservice/service/LogService.java:29-36 | a submission under an unused id keeps the same invariant |
| LogService.ApplyKeepsTracked | src/main/java/com/example/restservice/service/LogService.java:29-69 | every step with a fresh submission id keeps that invariant |
| LogService.TerminalStatusIsStable | src/main/java/com/example/restservice/service/LogService.java:38-55 | with ids that never collide, a READY or ERROR job keeps its status through any later run of steps |
| LogService.ApplyRecords | src/main/java/com/example/restservice/service/LogService.java:29-55 | a step makes an id known exactly when it submits that id |
| LogService.PollStatus | src/main/java/com/example/restservice/service/LogService.java:52-55 | the stored status of a known id, NOT_FOUND for any other; `NotFoundIffNeverSubmitted` shows that NOT_FOUND means never submitted |
| LogService.NotFoundIffNeverSubmitted | src/main/java/com/example/restservice/service/LogService.java:52-55 | after any run of steps, polling reports NOT_FOUND if and only if the id was never submitted |
| LogService.AllJobsSettle | src/main/java/com/example/restservice/service/LogService.java:38-50 | once the queue is empty every known job is READY or ERROR |
| LogService.DownloadBeforeReadyFails | src/main/java/com/example/restservice/service/LogService.java:57-63 | a job that is not READY cannot be downloaded |
| LogService.ReadyJobDownloadsFilteredLines | src/main/java/com/example/restservice/service/LogService.java:38-68 | right after its worker made it READY, a job downloads a file whose lines are exactly the log lines starting with the date, in order |
| LogService.ApplyKeepsReadyDownload | src/main/java/com/example/restservice/service/LogService.java:29-68 | any step with a fresh submission id, other than removing the job's file, keeps a READY job READY with the same download |
| LogService.ReadyDownloadIsStable | src/main/java/com/example/restservice/service/LogService.java:29-68 | with ids that never collide, a READY job whose file is not removed downloads the same file and contents after any run of steps |
| LogService.ReadyJobKeepsFilteredLines | src/main/java/com/example/restservice/service/LogService.java:29-68 | once its worker made it READY, a job downloads exactly the log lines starting with its date through any later run of steps with fresh ids that leaves its file in place |
| LogService.SameIdResubmissionReopensJob | src/main/java/com/example/restservice/service/LogService.java:29-35 | a second submission under a READY job's id puts it back to PROCESSING while the old file stays downloadable |
| LogController.FilterLogsByDate | src/main/java/com/example/restservice/controller/LogController.java:66-74 | exactly the lines containing the date anywhere, with multiplicities and in order; empty exactly when no line contains it |
| LogController.GetLogsByDate | src/main/java/com/example/restservice/controller/LogController.java:36-53 | 404 exactly when the log is missing or no line matches, with no file written; a file response exactly when everything succeeds on a new file name and the directory is a real directory and not a link; the response file holds the substring-filtered lines |
| LogController.PrefixFilterRefinesContainsFilter | src/main/java/com/example/restservice/controller/LogController.java:66-74 | prefix-filtering the controller's lines gives exactly the service's lines, which form a subsequence of the controller's |
| LogController.ServiceMatchImpliesControllerMatch | src/main/java/com/example/restservice/controller/LogController.java:45-48 | whenever the service finds lines for a date, the controller does too |
| LogController.SafeTempDir | src/main/java/com/example/restservice/controller/LogController.java:79-83 | only a directory is accepted, and a symbolic link is refused even when it leads to a directory |
| LogController.SymlinkedTempDirSeparatesControllerAndService | src/main/java/com/example/restservice/controller/LogController.java:79-83 | a linked temporary directory is accepted by the service and refused by the controller with a server error and no file |
| LogController.ResponseReadsBackFilteredLines | src/main/java/com/example/restservice/controller/LogController.java:93-99 | the response file reads back as exactly the lines containing the date, in order |
| LruCache.Get | backend/src/main/java/com/example/restservice/service/CacheConfig.java:11-13 | a hit returns the value and makes the key the most recently used; mappings unchanged |
| LruCache.Put | backend/src/main/java/com/example/restservice/service/CacheConfig.java:11-18 | returns the previous value; the key maps to the new value; a full cache losing room drops exactly its eldest key; otherwise all other mappings stay |
| LruCache.Insert | backend/src/main/java/com/example/restservice/service/CacheConfig.java:15-18 | a new key is appended and the eldest key goes only when the size would exceed 3 |
| LruCache.Remove | backend/src/main/java/com/example/restservice/service/CacheConfig.java:8-13 | returns the previous value and forgets exactly that key; the other keys keep their recency order |
| LruCache.RemoveMakesRoom | backend/src/main/java/com/example/restservice/service/CacheConfig.java:8-18 | after removing a present key, a get of it misses and the next put of a new key evicts nothing |
| LruCache.PutEvictsEldest | backend/src/main/java/com/example/restservice/service/CacheConfig.java:15-18 | a put of a new key into a full cache drops its eldest key and keeps the other two |
| LruCache.PutNewKeyOrder | backend/src/main/java/com/example/restservice/service/CacheConfig.java:15-18 | a put of a new key appends it, dropping the eldest key only from a full cache |
| LruCache.RecencyOrder | backend/src/main/java/com/example/restservice/service/CacheConfig.java:11-13 | the reference order: each used key once, ordered by last use |
| LruCache.CacheHoldsMostRecentKeys | backend/src/main/java/com/example/restservice/service/CacheConfig.java:11-18 | after any sequence of puts and gets the cache holds exactly the 3 most recently used keys, least recent first |
| LruCache.FourthPutEvictsFirst | src/test/java/com/example/restservice/CacheConfigTest.java:13-27 | a fourth distinct key evicts the first one and keeps the other three |
| LruCache.GetRefreshesRecency | src/test/java/com/example/restservice/CacheConfigTest.java:29-43 | reading the eldest key before a fourth put makes the second key the one evicted |
| LruCache.GetProtectsFromNextEviction | backend/src/main/java/com/example/restservice/service/CacheConfig.java:11-18 | in any full cache, a key just read survives the next put of a new key, and the eldest other key goes |
| LruEquality.Equals | backend/src/main/java/com/example/restservice/service/CacheConfig.java:20-30 | null and objects of other classes are never equal; an equal cache has the receiver's size and holds every entry of the receiver |
| LruEquality.EqualsIffSameMappings | backend/src/main/java/com/example/restservice/service/CacheConfig.java:20-30 | two caches are equal if and only if they hold the same mappings, whatever their recency order |
| LruEquality.NotEqualToNullOrOtherClass | backend/src/main/java/com/example/restservice/service/CacheConfig.java:20-30 | a cache is never equal to null or to an object of another class, and is equal to itself |
| LruEquality.EntriesMatch | backend/src/main/java/com/example/restservice/service/CacheConfig.java:29 | the inherited entry-by-entry comparison answers whether every entry of the receiver is found in the argument; the argument keeps its mappings, and after a full match its recency order has each receiver key used in turn |
| LruEquality.EqualsCall | backend/src/main/java/com/example/restservice/service/CacheConfig.java:20-30 | `equals` on another cache answers `Equals`; the argument keeps its mappings; after a true answer the argument's recency order is the receiver's; `this == o` leaves it untouched |
| LruEquality.TouchEveryKey | backend/src/main/java/com/example/restservice/service/CacheConfig.java:11-13 | using each key of an access-ordered map once, in a given order, leaves the keys in exactly that order |
| LruEquality.EqualsHandsOverEviction | backend/src/main/java/com/example/restservice/service/CacheConfig.java:15-30 | after a true `equals` between full caches, the argument's next put of a new key evicts the receiver's eldest key and keeps the others |
| LruEquality.EqualsReordersArgument | backend/src/main/java/com/example/restservice/service/CacheConfig.java:15-30 | receiver order 3, 2, 1 and argument order 1, 2, 3 with equal mappings: after `equals` the argument's next put of 4 evicts 3 instead of 1 |
| LruEquality.EqualsScenario | src/test/java/com/example/restservice/CacheConfigTest.java:45-61 | caches holding 1 → "One" are equal; one holding 2 → "Two" differs; null and other objects differ |
| LruEquality.HashSumPermutation | backend/src/main/java/com/example/restservice/service/CacheConfig.java:32-35 | the sum of entry hashes does not depend on the order of the keys |
| LruEquality.HashCode | backend/src/main/java/com/example/restservice/service/CacheConfig.java:32-35 | keys without an entry add nothing, so a cache whose keys have no entries hashes to 0 |
| LruEquality.EqualCachesHaveEqualHashCodes | backend/src/main/java/com/example/restservice/service/CacheConfig.java:32-35 | equal caches have equal hash codes |
| LfuCache.Counted | src/main/java/com/example/restservice/service/CacheConfig.java:23 | a use raises the key's count by one, from 0 when uncounted, and leaves every other count alone |
| LfuCache.Put | src/main/java/com/example/restservice/service/CacheConfig.java:22-28 | the key maps to the new value; the key is counted; past 10 entries the picked least-used key loses its count and, unless it is the put key, its entry; all other entries and counts stay; counted keys stay a subset of stored keys |
| LfuCache.Get | src/main/java/com/example/restservice/service/CacheConfig.java:30-36 | returns the stored value; a present key is counted once more; an absent key changes nothing |
| LfuCache.Remove | src/main/java/com/example/restservice/service/CacheConfig.java:38-42 | returns the stored value; forgets both the entry and its count; every other entry and count keeps its key and value |
| LfuCache.GetAfterPut | src/main/java/com/example/restservice/service/CacheConfig.java:22-36 | a get right after a put of the same key returns the value put, whatever was evicted |
| LfuCache.PutBoundWhenAnotherKeyIsEvicted | src/main/java/com/example/restservice/service/CacheConfig.java:22-28 | when the victim is another key, a cache of at most 11 entries stays at most 11 |
| LfuCache.Fill | src/main/java/com/example/restservice/service/CacheConfig.java:22-28 | n distinct puts into a fresh cache hold exactly keys 0..n-1, each counted once |
| LfuCache.NewKeyMayEvictItself | src/main/java/com/example/restservice/service/CacheConfig.java:44-53 | in a cache of 11 used entries, a new key is least used after its own count, and evicting it leaves 12 entries and the key uncounted |
| LfuCache.SelfEvictionExceedsBound | src/main/java/com/example/restservice/service/CacheConfig.java:22-54 | the concrete run: eleven puts, then a twelfth key that picks itself, leaves 12 entries |
| LfuCache.PutBounded | src/main/java/com/example/restservice/service/CacheConfig.java:14-28 | the corrected put keeps counts and entries on the same keys and at most 10 of them, evicting a least-used stored key before a new key enters a full cache |
| LfuCache.GetAndRemoveKeepBound | src/main/java/com/example/restservice/service/CacheConfig.java:30-42 | get and remove keep the corrected cache bounded |
| Entities.Present | backend/src/main/java/com/example/restservice/service/PlaylistService.java:46 | the requested ids that exist, as a subsequence of the request |
| Entities.FindAllById | backend/src/main/java/com/example/restservice/service/PlaylistService.java:46-47 | each requested id that exists, exactly once, in the order of its first request, and nothing else |
| Entities.FindByArtist | backend/src/main/java/com/example/restservice/service/SongService.java:102 | exactly the stored songs whose artist is the key |
| Entities.FindByArtistAgrees | backend/src/main/java/com/example/restservice/service/SongService.java:102 | tables that agree on an artist's songs answer that artist alike |
| Dtos.Titles | backend/src/main/java/com/example/restservice/model/PlaylistDto.java:27-30 | one title per song, in order |
| Dtos.PlaylistDtoFromEntity | backend/src/main/java/com/example/restservice/model/PlaylistDto.java:22-33 | id and name copied; username exactly when there is an owner; one title per song in order, none for a null list |
| Dtos.UserDtoFromEntity | backend/src/main/java/com/example/restservice/model/UserDto.java:22-32 | id and username copied; each playlist projected by the playlist projection, in order; none for a null list |
| Dtos.SongDtoFromEntity | backend/src/main/java/com/example/restservice/model/SongDto.java:22-31 | id, title and artist copied; one playlist name per playlist in order; the playlist list must be non-null |
| Dtos.StoredPlaylistDto | backend/src/main/java/com/example/restservice/model/PlaylistDto.java:22-33 | the projection of a stored playlist lists the stored title of each song row and names the owner exactly when there is one |
| SongService.ReplaceLineBreaks | backend/src/main/java/com/example/restservice/service/SongService.java:93 | same length; each `\n` and `\r` becomes `_`, every other character stays |
| SongService.ReplaceLineBreaksIdempotent | backend/src/main/java/com/example/restservice/service/SongService.java:93 | the cache key holds no line break, and sanitising it again changes nothing |
| SongService.GetSongsByArtist | backend/src/main/java/com/example/restservice/service/SongService.java:84-108 | BadRequest exactly for a null, empty or over-100-unit artist, with nothing touched; a hit answers from the cache; a miss answers the repository and caches that under the sanitised key |
| SongService.GetSongsByArtistAnswersRepository | backend/src/main/java/com/example/restservice/service/SongService.java:95-107 | with a coherent cache a lookup answers exactly what the repository holds, hit or miss, and the cache stays coherent |
| SongService.Saved | backend/src/main/java/com/example/restservice/service/SongService.java:51 | the batch is stored under consecutive fresh ids in list order; existing rows stay |
| SongService.CreateSongs | backend/src/main/java/com/example/restservice/service/SongService.java:40-52 | BadRequest exactly for a null or empty list or a null or blank title, saving nothing; otherwise each song saved under its own fresh id and every old row kept |
| SongService.CreateSongsKeepsUncachedArtistsCoherent | backend/src/main/java/com/example/restservice/service/SongService.java:40-52 | creating songs whose artists are not cached keeps the cache coherent |
| SongService.UpdateSong | backend/src/main/java/com/example/restservice/service/SongService.java:54-68 | NotFound for an unknown id; otherwise title and artist replaced and the new artist's cache entry dropped |
| SongService.UpdateSongLeavesOldArtistStale | backend/src/main/java/com/example/restservice/service/SongService.java:58-63 | moving a cached song to another artist leaves the old artist's cached list holding a song the repository no longer returns for it |
| SongService.UpdateSongInvalidatingBoth | backend/src/main/java/com/example/restservice/service/SongService.java:54-68 | the corrected update drops the cache entries of both the old and the new artist |
| SongService.EvictBoth | backend/src/main/java/com/example/restservice/service/SongService.java:58-63 | two cache removals leave every entry but the two artists' in place and neither artist cached |
| SongService.UpdateSongInvalidatingBothKeepsCoherent | backend/src/main/java/com/example/restservice/service/SongService.java:54-68 | the corrected update keeps a coherent cache coherent |
| SongService.UpdateSongKeepsRefs | backend/src/main/java/com/example/restservice/service/SongService.java:54-61 | both updates keep every foreign key valid |
| SongService.WithoutSong | backend/src/main/java/com/example/restservice/service/SongService.java:74-77 | the playlist without any row of the song, other rows in order |
| SongService.DeleteSong | backend/src/main/java/com/example/restservice/service/SongService.java:70-82 | an unknown id is a server error changing nothing; otherwise the song leaves every playlist, is deleted, and its artist's cache entry is dropped |
| SongService.DeleteSongKeepsRefs | backend/src/main/java/com/example/restservice/service/SongService.java:70-82 | deleting a song keeps every foreign key valid |
| SongService.DeleteSongKeepsCoherent | backend/src/main/java/com/example/restservice/service/SongService.java:70-82 | deleting a song keeps a coherent cache coherent |
| PlaylistService.GetPlaylistById | backend/src/main/java/com/example/restservice/service/PlaylistService.java:29-33 | the stored playlist, NotFound exactly for an unknown id |
| PlaylistService.CreatePlaylist | backend/src/main/java/com/example/restservice/service/PlaylistService.java:35-41 | NotFound exactly for an unknown user, saving nothing; otherwise the body's name and song rows saved owned by that user, and returned with the user's name and the titles sent with the body's song objects, none for a null list |
| PlaylistService.BodySongIds | backend/src/main/java/com/example/restservice/model/Playlist.java:45-53 | the song rows of a saved body: one id per song object, in order, none for a null list |
| PlaylistService.CreatedDtoMatchesStoredIff | backend/src/main/java/com/example/restservice/service/PlaylistService.java:35-41 | the DTO `createPlaylist` returns equals the one a later lookup gives if and only if every song object of the body carried its stored title |
| PlaylistService.AddSongsToPlaylist | backend/src/main/java/com/example/restservice/service/PlaylistService.java:43-49 | NotFound for an unknown playlist; otherwise the song list becomes exactly the songs found, the old list discarded |
| PlaylistService.DeletePlaylist | backend/src/main/java/com/example/restservice/service/PlaylistService.java:51-55 | NotFound for an unknown playlist; otherwise only that playlist disappears |
| PlaylistService.UpdatePlaylist | backend/src/main/java/com/example/restservice/service/PlaylistService.java:57-81 | NotFound for an unknown playlist; the name changes only when given; the songs become the found songs only when a list is given; the owner stays |
| PlaylistService.UpdateWithSongsOnlyIsAddSongs | backend/src/main/java/com/example/restservice/service/PlaylistService.java:43-81 | an update with only a song list is the same as replacing the songs |
| PlaylistService.EmptyUpdateChangesNothing | backend/src/main/java/com/example/restservice/service/PlaylistService.java:63-78 | an update with neither a name nor songs stores the playlist unchanged |
| PlaylistService.AddedSongsAppearInDto | backend/src/main/java/com/example/restservice/service/PlaylistService.java:43-49 | after replacing the songs, the playlist's projection lists exactly the titles of the found songs, in order |
| PlaylistService.PlaylistOperationsKeepRefs | backend/src/main/java/com/example/restservice/service/PlaylistService.java:35-81 | create, update and delete keep every foreign key valid |
| UserService.GetUserById | backend/src/main/java/com/example/restservice/service/UserService.java:29-31 | the user, or none (not an error) for an unknown id |
| UserService.Reassigned | backend/src/main/java/com/example/restservice/service/UserService.java:58-65 | a playlist's owner after reassignment; its name and songs never change |
| UserService.UpdateUser | backend/src/main/java/com/example/restservice/service/UserService.java:41-70 | NotFound exactly for an unknown user, changing nothing; the name changes only when given; ownership changes only when ids are given, and then by reassignment; songs and names of playlists stay |
| UserService.UpdateUserOwnership | backend/src/main/java/com/example/restservice/service/UserService.java:53-66 | the user then owns exactly the playlists found; any other user keeps what they had minus those |
| UserService.UpdateUserWithoutIdsKeepsOwnership | backend/src/main/java/com/example/restservice/service/UserService.java:53-66 | without ids, every user owns the same playlists as before |
| UserService.DeleteUser | backend/src/main/java/com/example/restservice/service/UserService.java:72-90 | NotFound exactly for an unknown user, deleting nothing; otherwise the user and exactly their playlists disappear and the rest is untouched |
| UserService.DeleteUserKeepsRefs | backend/src/main/java/com/example/restservice/service/UserService.java:72-90 | afterwards no playlist is owned by the deleted user and every foreign key is valid |
| UserService.UpdateUserKeepsRefs | backend/src/main/java/com/example/restservice/service/UserService.java:41-70 | updating a user keeps every foreign key valid |
| VisitCounters.Inc32 | src/main/java/com/example/restservice/service/VisitCounter.java:14 | `int` increment: one more, wrapping from the maximum to the minimum |
| VisitCounters.Inc64 | src/main/java/com/example/restservice/service/VisitCounterService.java:13 | `long` increment: one more, wrapping from the maximum to the minimum |
| VisitCounters.IncrementCounter | src/main/java/com/example/restservice/service/VisitCounterService.java:12-14 | only the url's key is added; a new url counts 1, a known one one more; every other count stays |
| VisitCounters.CountsAreOccurrences | src/main/java/com/example/restservice/service/VisitCounterService.java:12-14 | after a run of increments a url is counted exactly when it was counted or named, and its count grows by the number of times it was named |
| VisitCounters.GetAllCounts | src/main/java/com/example/restservice/service/VisitCounterService.java:16-20 | the snapshot has the same urls and values as the counters |
| VisitCounters.Increment | src/main/java/com/example/restservice/service/VisitCounter.java:13-15 | a new url counts 1, a known one one more, wrapping past the `int` maximum; every other count stays |
| VisitCounters.GetCount | src/main/java/com/example/restservice/service/VisitCounter.java:17-19 | the count, 0 for a url never incremented |
| VisitCounters.IncrementTimesAddsN | src/main/java/com/example/restservice/service/VisitCounter.java:13-19 | n increments raise the count by n while it fits an `int`, and leave every other url alone |
| VisitCounters.IncrementPastMaxWraps | src/main/java/com/example/restservice/service/VisitCounter.java:13-15 | one increment past the `int` maximum gives the `int` minimum |
| VisitCounters.CopyCounts | src/main/java/com/example/restservice/service/VisitCounter.java:21-23 | the copy has the same urls and counts as `getCount` reports |
| TabContent.RenderUsername | frontend/src/TabContent.tsx:17 | a present non-empty name, otherwise the placeholder; never empty |
| TabContent.Names | frontend/src/TabContent.tsx:19 | one name per playlist, in order |
| TabContent.RenderPlaylists | frontend/src/TabContent.tsx:19 | the names joined with ", ", or the placeholder when the list is missing or the join is empty; never empty |
| TabContent.KeptDistinct | frontend/src/TabContent.tsx:23-25 | each present, non-blank title once, nothing else, in order of first occurrence |
| TabContent.SongListParts | frontend/src/TabContent.tsx:23-26 | each string that occurs as a non-blank title appears once, nothing else, in order of first occurrence |
| TabContent.RenderSongsList | frontend/src/TabContent.tsx:21-27 | the placeholder for a missing or empty list, otherwise the distinct non-blank titles joined with ", " |
| TabContent.BlankListRendersEmpty | frontend/src/TabContent.tsx:21-27 | a non-empty list renders as "" exactly when every title is missing or blank |
| TabContent.AllSongTitles | frontend/src/TabContent.tsx:94 | exactly the titles of all the user's playlists |
| TabContent.UserSongsColumn | frontend/src/TabContent.tsx:93-96 | the placeholder when the user's playlists hold no titles, otherwise the rendered distinct titles |
| TabContent.UserJsonOf | backend/src/main/java/com/example/restservice/model/UserDto.java:22-32 | the JSON of a user projection carries each playlist's titles unchanged |
| TabContent.UserSongsColumnListsOwnedTitles | frontend/src/TabContent.tsx:93-96 | for a user the backend sends, the column lists a title exactly when it is non-blank and held by one of the user's playlists |
| TabContent.SongPlaylistNames | frontend/src/TabContent.tsx:161 | `playlistNames` whenever present, otherwise the playlists' names, otherwise none |
| TabContent.SongPlaylistsColumn | frontend/src/TabContent.tsx:160-163 | the join of those names, or the placeholder when the join is empty |
| TabContent.PlaylistNamesTakePrecedence | frontend/src/TabContent.tsx:160-163 | when `playlistNames` is present the `playlists` field plays no part, and an empty list shows the placeholder |

## Left out

- Concurrency is left out. This covers the five-thread executor, `CompletableFuture`, and the atomicity of `ConcurrentHashMap` and `AtomicLong`. Each job completion and each counter increment is one sequential step.
- The 20-second sleep is left out. Only its interruption is kept, as `Env.interrupted`.
- File I/O is left out and replaced by the `Env` oracle: reading the log, creating a temporary file, POSIX permissions, `deleteOnExit` and `UrlResource`. A cleanup that removes a file is the step `LogService.CleanupStep`.
- The clock is left out. The job id is the parameter `id`, and `CreateJobId` shows how it is formed from a millisecond reading.
- The name search of `Files.createTempFile` is left out. The random part it settles on is the parameter `Env.uniquePart`, and a name already on disk counts as a failed creation, since the real call never replaces an existing file.
- HTTP headers, content types and the framework's exception-to-status mapping are left out. An exception thrown inside `getLogsByDate` is modelled as `ServerError`.
- Identity ids are parameters: `base` in `SongService.CreateSongs` and `newId` in `PlaylistService.CreatePlaylist`. The model requires only that they are fresh.
- Repositories are finite maps. `findAllById` returns present ids deduplicated in request order; JPA leaves that order open.
- `findByArtist` returns a map from id to song, because the query leaves the order open.
- Logging and aspects are left out. They have no effect on results.
- The inverse collections `User.playlists` and `Song.playlists` are derived from the owning side and are not stored. A playlist handed to a user in `updateUser` therefore leaves the previous owner's collection. The in-memory list of a user object outside the transaction is not modelled.
- LfuCache.Put: the key `removeLFUEntry` picks among equally used keys is the parameter `pick`. It is constrained only to be a least-used counted key, since the hash order of a `HashMap` decides the tie-break.
- LfuCache.Counted: the usage counts are unbounded. The Java `Integer` count would wrap after 2^31 - 1 uses of one key.
- LruEquality.HashCode: the hash of a key or value is the parameter function `hk` or `hv`. The `int` sum is the exact sum reduced modulo 2^32.
- SongService.CreateSongs: the cache is not invalidated by `createSongs`, so coherence is proved only for batches whose artists are not cached.
- SongService.GetSongsByArtist: the artist is modelled as a non-null string inside an `Option`, and the length check counts UTF-16 units.
- Dtos.SongDtoFromEntity: a null playlist list is excluded by the precondition, because the code dereferences it without a check.
- PlaylistService.CreatePlaylist: a song object of the body is taken to carry the id of an existing row. A body with an id of its own, which `save` would merge into a different object, is not modelled.
- PlaylistService.CreatePlaylist: the `@NotBlank` constraint on the name (Playlist.java:37) is not enforced. A blank name is saved, where the real save would fail validation with a server error and roll back.
- PlaylistService.UpdatePlaylist: the `@NotBlank` constraint on the name is not enforced either. A blank new name is stored.
- SongService.UpdateSong: the `nullable = false` constraints on title and artist (Song.java:31,35) are not enforced. The model's artist is never null, and a null title is stored where the real flush would fail and roll back.
- SongService.CreateSongs: every body song is taken to be new and gets a fresh id. A body song carrying an id of its own, which `saveAll` merges over the existing row of that id, is not modelled, and neither is the stale cache entry of that row's old artist that the merge can leave behind.
- SongService.CreateSongs: a null artist cannot be expressed, because the model's artist is a string; titles are checked as the code checks them.
- UserService.UpdateUser: the `unique` and `nullable = false` constraints on the username are not enforced. A name another user already has is stored, where the real flush would fail with a server error and roll back.
- LruEquality.EqualsCall: reference identity `this == o` is the parameter `identical`, and values are never null, so the `containsKey` branch of `AbstractMap.equals` for null values does not arise.
- VisitCounters.GetAllCounts: maps are values, so a snapshot cannot be changed by later increments. The aliasing question does not arise.
- The duplicate services of the older tree are not modelled. Their logic is a subset of the backend versions.
- The controllers other than `LogController` are not modelled.
- The frontend modals, `App.tsx` and the HTTP client are not modelled.

## Findings

| source | as written | input that shows it | evidently intended | confidence | as-written member | corrected member |
|---|---|---|---|---|---|---|
| src/main/java/com/example/restservice/service/CacheConfig.java:22-28 | `put` counts the new key first, then evicts a least-used counted key when more than 10 entries are stored, then stores the key regardless | eleven keys each used once, then a twelfth new key that the tie-break picks: its count is dropped, it is stored anyway, and the cache holds 12 entries | evict among stored keys before a new key enters a full cache, so at most 10 entries | not executed | LfuCache.SelfEvictionExceedsBound | LfuCache.PutBounded |
| backend/src/main/java/com/example/restservice/service/SongService.java:58-63 | `updateSong` removes the cache entry of the artist the song holds after the update, that is, the new artist | a song of artist A whose list is cached is updated to artist B: A's cached list still holds the song, which the repository no longer returns for A | invalidate the old artist, as the repository's test expects at src/test/java/com/example/restservice/SongServiceTest.java:128; safest is to invalidate both artists | not executed | SongService.UpdateSongLeavesOldArtistStale | SongService.UpdateSongInvalidatingBoth |
