# Verified models of the agent and its shared library

This project models the stateful core of an in-VM agent and of the Go library it shares with its backend, and
proves properties of those models. Concurrent protocols are labelled step machines: a state, the labels of
its steps, when a step is enabled, what it does, and theorems about every finite run. Code that changes
objects or arrays step by step is a class or a method with loops, proved against a specification function.
Parsers and format code are functions with round-trip lemmas.

| file | what it models |
|---|---|
| `BuildMappings`, `SnapshotHeader`, `SnapshotImages`, `HeaderFormat` | layered snapshots: mapping lists and their meaning, merging, normalizing, block lookup, whole histories of layers, the stored byte format |
| `RedisLockCache` | the Redis cache whose distributed lock keeps deletes from being undone, with time |
| `ChunkCache`, `WriteThrough` | the NFS chunk cache: racing readers and write-backs, and storing a file through it |
| `Multiplexer`, `ProcessStream` | the broadcast of process output and the Start/Connect streams fed by it |
| `AdjustableSemaphore`, `SetOnce`, `ErrorCollector`, `ConnectionLimiter` | the synchronisation primitives, in every interleaving |
| `MultipartUpload` | part counting in float64, parallel parts, completion |
| `Manifest`, `Overlay`, `Firewall` | the manifest policy and its two enforcers: the file overlay and the egress chain |
| `DirectoryWalk` | the depth-pruned directory listing |
| `SandboxCatalog` | the catalog with its per-node cache over one Redis |
| `Names`, `Hosts`, `Text`, `Wrappers` | template names, request routing, and the string functions and result types shared by all |

Where the code turned out not to keep a promise in general, the model keeps the code's behaviour, a lemma
gives a concrete run or input that breaks the promise, and another lemma says exactly when it holds:

- `NormalizeMappings` joins neighbours by build id alone. It keeps the meaning of a sorted list exactly when each
  joined entry follows its predecessor in the image and in the data file (`NormalizeIffJoinable`), which every
  header built by the code satisfies.
- The semaphore adds 64-bit integers that can wrap (`HugeRequestIsGranted`). Permits are conserved in all runs exactly
  when the largest limit and the largest request together fit into 64 bits (`ConservedIffNoWrap`).
- The part count is computed in float64: always exact below 2^53 bytes, and above that exactly when the size does
  not round back to the last chunk boundary (`PartCountIff`); otherwise the end of the file is not uploaded.
- The chunk cache answers like the object in all runs exactly when the requests for one chunk all want the same
  number of its bytes (`SafeIffOneLengthPerChunk`).
- A lock shorter than the write budget loses deletes; the computed lock time is the shortest safe one.
- A manifest pattern cuts off the lookup of some file it allows exactly when it has a wildcard before its last
  separator and none of the two trailing ones (`WalksPassIff`, `NeverCutOffIff`).

Places where code and comments differ: the comment on `MergeMappings` asks for a base that covers the whole
image, but the code and the theorem need only sorted lists; the last check of `validateReadAtParams` can
never fire, which `ValidateReadAtParams` states; the doc comment on `NormalizeMappings` says adjacent
mappings of one build are joined, and the code does not look at their storage offsets.

## Model

| member | source | states |
|---|---|---|
| `BuildMappings.MergeMappings` | packages/shared/pkg/storage/header/mapping.go:84-245 | For any two sorted lists the two-cursor loop returns a sorted list in which each byte resolves to the diff if the diff maps it and to the base otherwise |
| `BuildMappings.MergeIsOverride` | packages/shared/pkg/storage/header/mapping.go:84-245 | Merging is pointwise override of one meaning by the other, and keeps order |
| `BuildMappings.MergeStepOrder` | packages/shared/pkg/storage/header/mapping.go:104-239 | Every one of the overlap cases of a merge step keeps the output and both remainders sorted and apart |
| `BuildMappings.MergeStepMeaning` | packages/shared/pkg/storage/header/mapping.go:104-239 | No merge step changes where any byte resolves |
| `BuildMappings.ValidateMappings` | packages/shared/pkg/storage/header/inspect.go:83-112 | Accepts exactly the block-aligned lists that tile the image without gap or overlap, and panics exactly on an empty list for a non-empty image |
| `BuildMappings.TilesCover` | packages/shared/pkg/storage/header/inspect.go:83-112 | A validated list maps every byte of the image |
| `BuildMappings.CoverTiles` | packages/shared/pkg/storage/header/inspect.go:83-112 | Conversely a sorted list of non-empty entries that maps every byte is one that validates |
| `BuildMappings.NormalizeMappings` | packages/shared/pkg/storage/header/mapping.go:247-274 | The in-place joining loop computes the recursive normal form |
| `BuildMappings.NormalizeKeepsMeaning` | packages/shared/pkg/storage/header/mapping.go:247-274 | In any sorted list, joining entries that follow each other in the image and in the data file keeps what every byte reads |
| `BuildMappings.NormalizeChangesMeaning` | packages/shared/pkg/storage/header/mapping.go:247-274 | In any sorted list, joining an entry across a gap or a jump in the data file changes some byte, and which |
| `BuildMappings.NormalizeIffJoinable` | packages/shared/pkg/storage/header/mapping.go:247-274 | For every sorted list, gaps and empty entries included, normalizing keeps the meaning if and only if each entry it joins follows its predecessor |
| `BuildMappings.NormalizeKeepsTiles` | packages/shared/pkg/storage/header/mapping.go:247-274 | A tiling of the image stays one |
| `SnapshotHeader.CreateMapping` | packages/shared/pkg/storage/header/mapping.go:31-76 | The run-finding loop maps byte x of a dirty block to the build at the rank of that block, and nothing else |
| `SnapshotHeader.NewHeader` | packages/shared/pkg/storage/header/header.go:24-56 | Fails exactly for block size zero; otherwise builds the start index of the given mapping, or of one entry for the whole image |
| `SnapshotHeader.LookupIsResolve` | packages/shared/pkg/storage/header/header.go:64-145 | For every validated header of any version the bit-set lookup succeeds on aligned offsets inside the image with an answer right for every byte of the stretch it announces; headers of the current version fail on all other offsets |
| `SnapshotHeader.LookupFinds` | packages/shared/pkg/storage/header/header.go:64-145 | The lookup returns the shifted position, remaining length and build of the entry that covers the offset |
| `SnapshotHeader.LookupStart` | packages/shared/pkg/storage/header/header.go:90-145 | The previous-set-bit search lands on the first block of the covering entry |
| `SnapshotHeader.AcceptedIsValid` | packages/shared/pkg/storage/header/inspect.go:83-112 | What validation accepts is what lookups rely on: whole-block lengths without gaps mean whole-block offsets |
| `SnapshotHeader.ToDiffHeader` | packages/shared/pkg/storage/header/metadata.go:27-106 | A current-version header comes out only valid and an older one always, with the next generation, the new build and the old base build; on a sound header, a fresh build and bits inside the image it never fails and the result is sound and reads as the layer over the old header |
| `SnapshotHeader.LinearJoinable` | packages/shared/pkg/storage/header/metadata.go:52-106 | The lists it normalizes are stored in order, so normalizing them is sound |
| `SnapshotHeader.MergedShape` | packages/shared/pkg/storage/header/metadata.go:52-106 | The merged list before normalization tiles the image and reads as empty over dirty over base |
| `SnapshotHeader.LayerLinear` | packages/shared/pkg/storage/header/mapping.go:31-76 | Within one layer neighbouring bytes of the same build are neighbours in its data file |
| `SnapshotHeader.NormalizedShape` | packages/shared/pkg/storage/header/metadata.go:52-106 | Normalizing the merged list keeps its reading, tiling, alignment and storage order |
| `SnapshotImages.StackLayers` | packages/shared/pkg/storage/header/metadata.go:52-106 | After any history of snapshots every byte reads from the last layer that wrote it, the generation counts the layers, the build is the last one and everything else in the metadata is the base's |
| `SnapshotImages.TemplateHeader` | packages/shared/pkg/storage/header/serialization.go:28-37 | A template's header has its own build as build and base build, maps every byte to it and can start a history |
| `SnapshotImages.DiffMetadataBuilder.Process` | packages/shared/pkg/storage/header/metadata.go:108-150 | Marks a block empty or dirty and appends dirty blocks to the data file, so the bits and the file describe the image processed so far |
| `SnapshotImages.StoredAtRank` | packages/shared/pkg/storage/header/metadata.go:108-158 | Each dirty block lies in the data file at the rank of its bit |
| `SnapshotImages.WriterHoldsImage` | packages/shared/pkg/storage/header/metadata.go:52-158 | The last writer's data file holds the block of the last captured image |
| `SnapshotImages.RestoreImage` | packages/shared/pkg/storage/header/header.go:64-88 | Looking any block up in the header of any history and reading the file it names returns that block of the last captured image |
| `SnapshotImages.CaptureLayer` | packages/shared/pkg/storage/header/metadata.go:108-158 | Feeding the changed blocks to the builder gives bits and a data file that record the new image over the old one; only a failing write or an unsupported block size stops it |
| `SnapshotImages.CaptureAndRestore` | packages/shared/pkg/storage/header/metadata.go:52-158 | The whole round trip from the builder on: capture every image, stack the layers, and each block read back is that of the last image |
| `HeaderFormat.Serialize` | packages/shared/pkg/storage/header/serialization.go:50-66 | The bytes written are the 64-byte metadata record and one 40-byte record per mapping |
| `HeaderFormat.MetadataLayout` | packages/shared/pkg/storage/header/serialization.go:17-26 | Version, block size, size, generation, build and base build lie at bytes 0, 8, 16, 24, 32 and 48 of the metadata record |
| `HeaderFormat.MappingLayout` | packages/shared/pkg/storage/header/mapping.go:14-20 | Offset, length, build and storage offset lie at bytes 0, 8, 16 and 32 of a mapping record |
| `HeaderFormat.WrittenLayout` | packages/shared/pkg/storage/header/serialization.go:50-66 | The metadata record comes first and mapping i in the record at 64 + 40 i |
| `HeaderFormat.LeByte` | packages/shared/pkg/storage/header/serialization.go:53-60 | Byte i of an integer is its digit of weight 256 to the i |
| `HeaderFormat.ReadMetadata` | packages/shared/pkg/storage/header/serialization.go:77-83 | The metadata read from 64 bytes fits its widths and would be written as those bytes |
| `HeaderFormat.ReadMapping` | packages/shared/pkg/storage/header/serialization.go:87-98 | The mapping read from 40 bytes fits its widths and would be written as those bytes |
| `HeaderFormat.ReadRecords` | packages/shared/pkg/storage/header/serialization.go:77-99 | Reading succeeds exactly when the length is a whole number of records, and what it returns would be written as the same bytes |
| `HeaderFormat.DecodeOfEncode` | packages/shared/pkg/storage/header/serialization.go:50-102 | Decoding inverts encoding for any record whose fields fit their widths |
| `HeaderFormat.EncodeOfDecode` | packages/shared/pkg/storage/header/serialization.go:50-102 | Encoding inverts decoding for any bytes of the record's size |
| `HeaderFormat.WrittenIsInjective` | packages/shared/pkg/storage/header/serialization.go:50-66 | Different headers are never stored as the same bytes |
| `HeaderFormat.RoundTrip` | packages/shared/pkg/storage/header/serialization.go:50-102 | Serializing and deserializing gives back the metadata and mappings, or the default entry for an empty list, with a rebuilt index, and fails only for block size zero |
| `RedisLockCache.RunKeepsInv` | packages/shared/pkg/cache/redis.go:99-184 | When the lock outlives the write budget, every reachable state has each lock holder inside its lock time and no completed delete undone |
| `RedisLockCache.RunIsTraced` | packages/shared/pkg/cache/redis.go:99-184 | In every run each cached value is the one some callback returned, called and stored under the lock, and nothing was written since; each reply is the callback's result or an entry that was there; a refresh without the lock never calls back |
| `RedisLockCache.FoundWasStored` | packages/shared/pkg/cache/redis.go:115-156 | Whatever is found under the key at any step is the value a callback returned under the lock, put there by the last write before that step |
| `RedisLockCache.StoredIsFound` | packages/shared/pkg/cache/redis.go:140-156 | Conversely, after a store the value its caller's callback returned is found until the next write |
| `RedisLockCache.ReplyIsTraced` | packages/shared/pkg/cache/redis.go:99-161 | A finished GetOrSet returned its own callback's value or error, or the entry it found at one of its two looks |
| `RedisLockCache.AnswerIsFinal` | packages/shared/pkg/cache/redis.go:99-161 | Conversely, the look that finds an entry or the callback that returns decides the reply for good |
| `RedisLockCache.KindIsAsBegun` | packages/shared/pkg/cache/redis.go:99-184 | A call stays the kind of call it began as |
| `RedisLockCache.LockIsTraced` | packages/shared/pkg/cache/redis.go:341-361 | A lock record names the call that took it last, and a call that knows it has the lock gives it up on release |
| `RedisLockCache.HoldPersists` | packages/shared/pkg/cache/redis.go:166-189 | A delete that took the lock and executed stays recorded with that lock |
| `RedisLockCache.LockedDeleteStands` | packages/shared/pkg/cache/redis.go:115-184 | Over every interleaving of instances, whatever is found after a locked delete is the value returned by a callback started after the delete took the lock, and was stored under the lock |
| `RedisLockCache.GetAfterDeleteIsFresh` | packages/shared/pkg/cache/redis.go:99-189 | A GetOrSet that begins after a locked delete only returns values of callbacks started after the delete took the lock |
| `RedisLockCache.SafeIffLockCoversBudget` | packages/shared/pkg/cache/redis.go:83-83 | Deletes are never undone in any run if and only if the lock time covers callback plus two Redis timeouts |
| `RedisLockCache.ShortLockLosesDelete` | packages/shared/pkg/cache/redis.go:299-339 | For every shorter lock time there is a run in which a delete is undone |
| `RedisLockCache.ComputedLockTTLIsTight` | packages/shared/pkg/cache/redis.go:66-86 | Missing timeouts become 30 and 2 seconds; the computed lock time is safe and no shorter one is |
| `RedisLockCache.UnlockedDeleteCanBeUndone` | packages/shared/pkg/cache/redis.go:166-189 | A delete that went ahead without the lock can be undone, by a concrete run |
| `ChunkCache.ValidateReadAtParams` | packages/shared/pkg/storage/storage_cache_seekable.go:368-383 | Accepts exactly aligned requests of 1 to one chunk of bytes; the last error is never returned |
| `ChunkCache.RunKeepsInv` | packages/shared/pkg/storage/storage_cache_seekable.go:75-225 | In every reachable state published chunks are non-empty prefixes of their slice and no temp file is shared |
| `ChunkCache.StepKeepsPublished` | packages/shared/pkg/utils/move.go:19-34 | No step replaces a published name or changes the bytes behind it |
| `ChunkCache.PublishedForever` | packages/shared/pkg/storage/storage_cache_seekable.go:385-429 | A chunk file is a non-empty prefix of its slice when first visible, and the same file with the same bytes ever after, whatever writers race |
| `ChunkCache.ReadAtIsTransparent` | packages/shared/pkg/storage/storage_cache_seekable.go:75-135 | If the requests for each chunk all wanted the same number of its bytes, every finished read in every interleaving returned the object's bytes, count and end-of-file flag |
| `ChunkCache.ReadAtReturnsObject` | packages/shared/pkg/storage/storage_cache_seekable.go:75-135 | The same on the object's bytes: a finished ReadAt of len bytes at an offset returned exactly the bytes there, with end of file exactly when the object ends before offset + len, or the object's read failed |
| `ChunkCache.StreamDelivers` | packages/shared/pkg/storage/storage_cache_seekable.go:137-225 | Each read of a stream extends what was handed out by the next bytes of the object, up to the requested range and the end of the object |
| `ChunkCache.WriteBackIff` | packages/shared/pkg/storage/storage_cache_seekable.go:109-225 | A read of the object is written back unless it got nothing, a stream only when read to the requested length, never when the caller opted out, and the data is the object's |
| `ChunkCache.RunIsTransparent` | packages/shared/pkg/storage/storage_cache_seekable.go:75-225 | Under the same condition every reply in every reachable state agrees with the object, streams included as prefixes |
| `ChunkCache.RunIsTraced` | packages/shared/pkg/storage/storage_cache_seekable.go:75-225 | In every run each write-back and chunk file is exactly as long as some request for that chunk wanted |
| `ChunkCache.WholeChunkRequests` | packages/shared/pkg/storage/storage_cache_seekable.go:75-135 | Requests for whole chunks or the exact remainder meet the condition, and fill every chunk file completely |
| `ChunkCache.SafeIffOneLengthPerChunk` | packages/shared/pkg/storage/storage_cache_seekable.go:75-225 | For any set of requests: all runs agree with the object if and only if the requests for one chunk all want the same number of bytes |
| `ChunkCache.CachedReplyAgreesIff` | packages/shared/pkg/storage/storage_cache_seekable.go:323-347 | A cached file answers a request of any length like the object if and only if it is long enough or is the whole slice |
| `ChunkCache.MixedLengthsDisagree` | packages/shared/pkg/storage/storage_cache.go:154-156 | For every object, chunk and two lengths of which the smaller falls short of the chunk, a run in which the longer read is told the object ends too early |
| `WriteThrough.OffsetReader.Read` | packages/shared/pkg/storage/offset_reader.go:14-19 | Each read continues where the previous one ended |
| `WriteThrough.CopyN` | packages/shared/pkg/storage/storage_cache_seekable.go:533-540 | For any short reads and partial writes, what is copied is the file's bytes from the start offset; success means the full count, end of file means the file's end |
| `WriteThrough.TaskOffsets` | packages/shared/pkg/storage/storage_cache_seekable.go:494-502 | The loop starts one task per chunk, at exactly the aligned offsets inside the file |
| `WriteThrough.ChunkDirectory.WriteChunkFromFile` | packages/shared/pkg/storage/storage_cache_seekable.go:512-546 | Success leaves exactly the chunk's slice; failure leaves no file unless removing failed; no other chunk is touched |
| `WriteThrough.ChunkDirectory.CreateCacheBlocksFromFile` | packages/shared/pkg/storage/storage_cache_seekable.go:466-507 | For any task order and faults of each chunk on its own, success means every chunk of the file is there, and other chunk files are untouched |
| `WriteThrough.ChunkDirectory.WriteLocalSize` | packages/shared/pkg/storage/storage_cache_seekable.go:431-464 | The size is published at most once and never replaced |
| `WriteThrough.ChunkDirectory.StoreFile` | packages/shared/pkg/storage/storage_cache_seekable.go:281-301 | A size appears only when all chunks are there, and without faults it does appear |
| `WriteThrough.ChunksAreTheFile` | packages/shared/pkg/storage/storage_cache_seekable.go:466-546 | The stored chunks concatenate to the file, none is empty and all but the last are full |
| `WriteThrough.ChunksConcatenate` | packages/shared/pkg/storage/storage_cache_seekable.go:466-546 | The stored chunk files one after another are the file |
| `WriteThrough.StoredChunksServeReads` | packages/shared/pkg/storage/storage_cache_seekable.go:75-100 | Every permitted read inside the file is answered from the stored chunks as the object would answer |
| `Multiplexer.RunKeepsInv` | internal/services/process/handler/multiplex.go:15-73 | Every reachable state keeps each consumer's deliveries a contiguous run of the source |
| `Multiplexer.SourceIsLogged` | internal/services/process/handler/multiplex.go:21-30 | In every run the values broadcast, and one still pending, are exactly the values taken from the source, in order |
| `Multiplexer.LiveConsumerReceivesRun` | internal/services/process/handler/multiplex.go:21-60 | A subscribed consumer has received exactly the values taken from the source whose broadcast began since its fork, in order, no gap or repeat, except the last while it is still to be served |
| `Multiplexer.RemovedConsumerReceivedRun` | internal/services/process/handler/multiplex.go:42-73 | A removed consumer received exactly the values taken from the source whose broadcast began between fork and removal, whatever happens later |
| `Multiplexer.RemoveLeavesOthers` | internal/services/process/handler/multiplex.go:62-73 | Removing one consumer leaves every other subscription and its deliveries alone |
| `Multiplexer.MultiplexedChannel.ForkConsumer` | internal/services/process/handler/multiplex.go:42-60 | Appends the consumer, which has received nothing, as the machine's fork step does |
| `Multiplexer.MultiplexedChannel.RemoveConsumer` | internal/services/process/handler/multiplex.go:62-73 | The search loop cuts out exactly the one consumer and keeps the invariant |
| `Multiplexer.MultiplexedChannel.Broadcast` | internal/services/process/handler/multiplex.go:21-30 | One loop round gives the value to every listed consumer on top of what it had, once, and to nobody else |
| `ProcessStream.StreamGrammar` | internal/services/process/start.go:112-205 | Every run has sent a prefix of Start (Data or Keepalive)* End, and End only after the subscription closed and all received data was sent in order |
| `ProcessStream.StreamFollowsOffers` | internal/services/process/start.go:112-205 | Every run on its offers alone: an offer is picked exactly when it may lawfully come next, and the messages sent are those of the picks, with their pid and events; nothing follows a failed send, an early close or the end of the context |
| `ProcessStream.SentWasOffered` | internal/services/process/start.go:112-205 | Each message sent was offered with that content: the pid, the data, the end event |
| `ProcessStream.HandleStream` | internal/services/process/start.go:112-205 | The three-phase goroutine computes that machine's run, early exits included, and sends exactly the messages of its picks |
| `ProcessStream.Select` | internal/services/process/connect.go:30-118 | A blocked select passes over offers it is not listening to and changes nothing |
| `ProcessStream.EndMeansEverythingSent` | internal/services/process/connect.go:30-118 | Joined with the multiplexer, also when the handler cancels the subscription early: when End is sent, the data messages are exactly the process output taken from the source since the subscription, and the end event is one that was received |
| `AdjustableSemaphore.PermitsConserved` | packages/shared/pkg/utils/resizable_semaphore.go:34-105 | In every reachable state the counter is the sum of outstanding permits, and no sleeper's request would fit |
| `AdjustableSemaphore.GrowsWithinLimit` | packages/shared/pkg/utils/resizable_semaphore.go:34-75 | The counter grows only to values within the limit in force |
| `AdjustableSemaphore.StaysWithinLimit` | packages/shared/pkg/utils/resizable_semaphore.go:34-105 | Once within the limit it stays there until the limit is changed |
| `AdjustableSemaphore.AcquireGetsWhatItAsks` | packages/shared/pkg/utils/resizable_semaphore.go:34-58 | Over every bounded run a waiting Acquire still wants what it asked for and has got nothing; when over, it got exactly that or was cancelled |
| `AdjustableSemaphore.CallsChangeExactly` | packages/shared/pkg/utils/resizable_semaphore.go:60-105 | TryAcquire takes exactly the permits asked for if they fit and otherwise nothing; Release gives back exactly the permits named |
| `AdjustableSemaphore.ConservedIffNoWrap` | packages/shared/pkg/utils/resizable_semaphore.go:34-105 | Over all runs with limits up to L and requests up to R, the counter is always the sum of the permits out if and only if L + R fits into 64 bits |
| `AdjustableSemaphore.HugeRequestIsGranted` | packages/shared/pkg/utils/resizable_semaphore.go:60-75 | A run in which the sum wraps and a request far over the limit is granted |
| `AdjustableSemaphore.RunKeepsInv` | packages/shared/pkg/utils/resizable_semaphore.go:34-105 | Counter, limit and waiting requests stay consistent over every bounded run |
| `AdjustableSemaphore.NewAdjustableSemaphore` | packages/shared/pkg/utils/resizable_semaphore.go:23-32 | Refuses exactly limits that are not positive; otherwise a fresh semaphore with no permits out |
| `AdjustableSemaphore.Semaphore.TryAcquirePermits` | packages/shared/pkg/utils/resizable_semaphore.go:60-75 | Grants exactly positive requests whose 64-bit sum is within the limit, and then adds them to the counter |
| `AdjustableSemaphore.Semaphore.ChangeLimit` | packages/shared/pkg/utils/resizable_semaphore.go:77-89 | Accepts positive limits, leaves the counter alone and wakes every sleeper |
| `AdjustableSemaphore.Semaphore.ReleasePermits` | packages/shared/pkg/utils/resizable_semaphore.go:91-105 | Panics exactly on counts that are not positive or exceed the permits in use, so never on a holder; otherwise returns them and wakes every sleeper |
| `SetOnce.RunKeepsInv` | packages/shared/pkg/utils/set_once.go:58-114 | The lock, channel, result and replies stay consistent in every interleaving |
| `SetOnce.DoneMeansStored` | packages/shared/pkg/utils/set_once.go:58-78 | A closed channel means a stored result, and critical sections never overlap |
| `SetOnce.ResultNeverChanges` | packages/shared/pkg/utils/set_once.go:58-78 | A stored result is the same at every later step |
| `SetOnce.ExactlyOneSetterWins` | packages/shared/pkg/utils/set_once.go:39-78 | Once any setter finished, exactly one is told nil, the cell holds the value or error that call was made with, and all other finished setters were told it was already set |
| `SetOnce.TheWinner` | packages/shared/pkg/utils/set_once.go:39-78 | A stored result is the argument of the one call that is told nil; SetResult with an error stores the error, otherwise the value |
| `SetOnce.WaitReturnsResult` | packages/shared/pkg/utils/set_once.go:39-114 | Every finished wait returned what the one winning call was made with, an error if it had one, never the not-set error; only a context wait may be cancelled |
| `SetOnce.LookAfterSetSeesIt` | packages/shared/pkg/utils/set_once.go:91-102 | A Result call that begins once a result is stored returns it |
| `SetOnce.NeverStuck` | packages/shared/pkg/utils/set_once.go:58-114 | With at least one setter, some thread can always act until every call has finished |
| `ErrorCollector.RunKeepsInv` | packages/shared/pkg/utils/errorcollector.go:37-74 | Tasks, permits, channel and collector stay accounted for in every interleaving |
| `ErrorCollector.WaitReturnsEveryError` | packages/shared/pkg/utils/errorcollector.go:37-74 | When Wait has returned, its answer holds exactly the multiset of errors that task functions returned and failing acquires gave in the run: nil for none, the error itself for one, all joined for more |
| `ErrorCollector.EachTaskRanOnce` | packages/shared/pkg/utils/errorcollector.go:45-65 | When Wait has returned, the function of each submitted task returned exactly once, or its acquire failed once and it never ran |
| `ErrorCollector.NeverPanics` | packages/shared/pkg/utils/errorcollector.go:45-65 | Nothing is ever sent on the closed channel |
| `ErrorCollector.ConcurrencyIsBounded` | packages/shared/pkg/utils/errorcollector.go:45-60 | At most the configured number of tasks run, or hold permits, at once |
| `ErrorCollector.WaitIsNeverStuck` | packages/shared/pkg/utils/errorcollector.go:37-65 | Despite the bounded channel and permits held while sending, a Wait in progress always has an enabled step |
| `MultipartUpload.PartCountIsExact` | packages/shared/pkg/storage/gcp_multipart.go:289-293 | For every size below 2^53, correctly rounded float64 division and ceiling equal exact ceiling division |
| `MultipartUpload.PartCountIff` | packages/shared/pkg/storage/gcp_multipart.go:289-293 | For every size below 2^63 the float64 count is exact if and only if the size is a whole number of chunks or its float64 lies past the last chunk boundary; otherwise it is one short |
| `MultipartUpload.QuotientPassesBoundary` | packages/shared/pkg/storage/gcp_multipart.go:289-293 | Rounding the quotient of a size past a chunk boundary never falls back to the boundary |
| `MultipartUpload.FloatsLieOnGrid` | packages/shared/pkg/storage/gcp_multipart.go:289-293 | A float64 between 2^(52+e) and 2^(53+e) is a multiple of 2^e |
| `MultipartUpload.PartCountCanFallShort` | packages/shared/pkg/storage/gcp_multipart.go:289-293 | A size above 2^53 whose part count comes out one too small |
| `MultipartUpload.OddSizesAreNotFloats` | packages/shared/pkg/storage/gcp_multipart.go:289-293 | Above 2^53 every odd size is at least one byte away from any float64 |
| `MultipartUpload.UploadParts` | packages/shared/pkg/storage/gcp_multipart.go:313-368 | For any completion order it succeeds exactly when no part fails, and then slot i holds part i+1 with that part's bytes uploaded |
| `MultipartUpload.ReadChunk` | packages/shared/pkg/storage/gcp_multipart.go:334-347 | A worker reads exactly its part of the file |
| `MultipartUpload.PartsPartition` | packages/shared/pkg/storage/gcp_multipart.go:334-340 | Parts are disjoint, all but the last full, and none empty when there are several |
| `MultipartUpload.SortedByNumber` | packages/shared/pkg/storage/gcp_multipart.go:235-241 | Sorting by number gives the one list numbered 1 to n |
| `MultipartUpload.AssembleFile` | packages/shared/pkg/storage/gcp_multipart.go:235-271 | The first n parts concatenate to the first n chunks of the file |
| `MultipartUpload.UploadFileInParallel` | packages/shared/pkg/storage/gcp_multipart.go:273-311 | For every file below 2^63 bytes, a successful call stores the file, an empty one included, if and only if the part count is right; otherwise exactly the bytes after the last chunk boundary are missing |
| `MultipartUpload.AssembleSorted` | packages/shared/pkg/storage/gcp_multipart.go:235-271 | Whatever the sort does, the uploaded parts assemble to the beginning of the file that they cover |
| `MultipartUpload.UsedPartsFit` | packages/shared/pkg/storage/gcp_multipart.go:289-293 | Every part the code uploads starts inside the file, and they cover it exactly when the count is right |
| `Manifest.DeepGlobMeaning` | internal/manifest/manifest.go:168-175 | The trailing double star matches exactly the paths whose segments extend the pattern's |
| `Manifest.ShallowGlobMeaning` | internal/manifest/manifest.go:177-185 | The trailing single star matches exactly the paths with one segment more |
| `Manifest.MatchMeaning` | internal/manifest/manifest.go:187-192 | The matcher accepts exactly the names made of one piece per pattern character: a literal itself, a question mark one character other than the separator, a star any run without separators |
| `Manifest.FileGlobMeaning` | internal/manifest/manifest.go:162-193 | Every pattern without a trailing wildcard matches exactly the paths it spells in that sense, and without any wildcard only itself |
| `Manifest.LiteralMatch` | internal/manifest/manifest.go:187-192 | Without wildcards a pattern matches itself and nothing else |
| `Manifest.OneStar` | internal/manifest/manifest.go:187-192 | One star between literals stands for exactly the runs without separators |
| `Manifest.NetworkKeyIsInjective` | internal/manifest/manifest.go:104-114 | Listing one host and port allows no other pair |
| `Manifest.Store.Update` | internal/manifest/manifest.go:68-80 | After an update the compiled indexes say what the new manifest says |
| `Manifest.Store.RebuildNetwork` | internal/manifest/manifest.go:142-148 | The network index holds exactly the listed patterns |
| `Manifest.Store.RebuildFilesystem` | internal/manifest/manifest.go:150-157 | The compiled globs are the entries in order |
| `Manifest.Store.IsNetworkAllowed` | internal/manifest/manifest.go:104-114 | Allowed exactly when a manifest is present and lists host:port |
| `Manifest.Store.IsPathAllowed` | internal/manifest/manifest.go:118-133 | Allowed exactly when there is no manifest or some entry matches in the sense of the glob lemmas above, and the entry returned is the first that does |
| `Manifest.Store.IsPathOrPrefixAllowed` | internal/fuse/fuse.go:278-299 | True exactly when the path is allowed or some pattern leads through it |
| `Manifest.SearchPrefix` | internal/fuse/fuse.go:291-298 | The search loop finds a pattern that leads through the path exactly when there is one |
| `Manifest.TraversableIff` | internal/fuse/fuse.go:278-299 | With wildcards only trailing or in the last segment, a path passes if and only if it is allowed or an ancestor of something allowed |
| `Manifest.WalkIsNeverCutOff` | internal/fuse/fuse.go:216-224 | For such policies every directory on the way to an allowed path passes the policy |
| `Manifest.MidPathWildcardCutsWalk` | internal/manifest/manifest.go:187-192 | Every absolute pattern with a wildcard before its last separator and no trailing one allows some path whose parent directory does not pass |
| `Manifest.NeverCutOffIff` | internal/manifest/manifest.go:162-193 | A pattern never cuts off a path it allows if and only if its wildcards are a trailing one or lie after its last separator |
| `Manifest.WalksPassIff` | internal/fuse/fuse.go:216-299 | An absolute pattern lets every walk to a path it allows through under exactly the same condition |
| `Manifest.MatchKeepsDir` | internal/manifest/manifest.go:187-192 | Without a wildcard in its directory part a pattern matches only names in that directory |
| `Manifest.MatchKeepsSeparators` | internal/manifest/manifest.go:187-192 | A wildcard never stands for a separator |
| `Overlay.KeptIff` | internal/fuse/fuse.go:258-268 | Readdir keeps a real child exactly when Lookup's policy lets it through |
| `Overlay.KeptInOrder` | internal/fuse/fuse.go:258-268 | The filter judges each entry by itself and keeps order and repetition |
| `Overlay.FilterEntries` | internal/fuse/fuse.go:171-181 | The filtering loop keeps exactly those entries, in order, and everything without a manifest |
| `Overlay.OverlayDir.Lookup` | internal/fuse/fuse.go:216-239 | Denied names are not found; real directories are wrapped with their full path |
| `Overlay.OverlayDir.Readdir` | internal/fuse/fuse.go:243-271 | Lists exactly the real children that pass |
| `Overlay.Root.Lookup` | internal/fuse/fuse.go:110-148 | Virtual files come first, then the policy, then the disk |
| `Overlay.Root.Readdir` | internal/fuse/fuse.go:154-201 | Lists the children that pass, then each virtual name not among them exactly once |
| `Overlay.AddVirtuals` | internal/fuse/fuse.go:183-198 | For any iteration order of the map, every virtual name missing from the listing is added once and nothing else |
| `Overlay.Root.Put` | internal/fuse/fuse.go:63-72 | The name is found with this content at once, whatever the disk and the policy say, and no other lookup changes |
| `Overlay.Root.PutLazy` | internal/fuse/fuse.go:76-85 | The name is found with the declared size and no content yet, and no other lookup changes |
| `Overlay.Root.Remove` | internal/fuse/fuse.go:99-104 | The name is found again as the disk and the policy have it, and no other lookup changes |
| `Overlay.Root.Fill` | internal/fuse/fuse.go:88-96 | A virtual file is found as putting it whole with its mode would have left it; lookups that found no virtual file under the name, and all others, are as before |
| `Overlay.Root.LazyThenFilled` | internal/fuse/fuse.go:74-96 | A file announced lazily and filled later is found as if it had been put whole |
| `Overlay.ListedIffFound` | internal/fuse/fuse.go:110-201 | In the root a name is listed if and only if looking it up finds something |
| `Overlay.NamesKept` | internal/fuse/fuse.go:216-271 | Below the root a name is listed if and only if it exists and its lookup passes |
| `Overlay.WalkFindsAllowedPath` | internal/fuse/fuse.go:110-239 | Looking up the names of an existing allowed path one by one from the root finds it |
| `Firewall.VerdictIff` | internal/network/firewall.go:43-68 | With accepting rules and a final drop, the first match accepts exactly when some rule matches |
| `Firewall.BaseRulesIff` | internal/network/firewall.go:113-138 | The base rules accept exactly loopback, DNS and the tunnel endpoint |
| `Firewall.AllEntryRulesIff` | internal/network/firewall.go:141-171 | The entry rules accept exactly the packets some entry permits |
| `Firewall.ChainIsPolicy` | internal/network/firewall.go:112-171 | The full chain accepts exactly loopback, DNS, the tunnel endpoint and the addresses and ports of the entries, and drops the rest |
| `Firewall.GuardingChainIsSafe` | internal/network/firewall.go:54-65 | Whatever entry commands failed, an applied chain accepts nothing outside the policy, keeps loopback and DNS, and decides every packet |
| `Firewall.UnguardedVerdict` | internal/network/firewall.go:43-68 | A chain left without its drop accepts what its rules match and returns every other packet to OUTPUT |
| `Firewall.Egress.AddEntryRules` | internal/network/firewall.go:141-171 | Appends the entry's rules, or the ones before the first failing command |
| `Firewall.Egress.AddBaseRules` | internal/network/firewall.go:113-138 | Success leaves loopback and DNS in the chain, and only base rules were added |
| `Firewall.Egress.AddTunnelRules` | internal/network/firewall.go:119-127 | Appends one rule per resolved tunnel address, skipping those whose command fails |
| `Firewall.Egress.AddEntries` | internal/network/firewall.go:54-59 | Appends only rules of the entries, all of them without faults, in order |
| `Firewall.Egress.Init` | internal/network/firewall.go:79-110 | Success leaves a guarding chain and a jump, failure the old chain or one without its drop; without faults exactly one jump from at most one |
| `Firewall.Egress.Apply` | internal/network/firewall.go:43-68 | Success leaves a guarding chain for the entries, failure the old chain or one without its drop; without faults exactly the full chain |
| `Firewall.Egress.Teardown` | internal/network/firewall.go:71-76 | Without faults neither chain nor jump remains |
| `Firewall.RunHistory` | internal/network/firewall.go:43-110 | After any history of Setup and Apply calls there is one jump, and each packet's verdict is that of the last endpoint and entries |
| `DirectoryWalk.Walker.Callback` | internal/services/filesystem/dir.go:139-178 | The callback's signal and what it appends, for every depth and stat outcome |
| `DirectoryWalk.Walker.WalkNode` | internal/services/filesystem/dir.go:138-184 | Within the depth the pruned walk of a subtree aborts exactly on a fault and otherwise appends its filtered preorder; beyond it, nothing |
| `DirectoryWalk.Walker.WalkChild` | internal/services/filesystem/dir.go:138-184 | One more child extends the filtered preorder by exactly its own, or reports a fault, or skips beyond the depth |
| `DirectoryWalk.Walker.WalkChildren` | internal/services/filesystem/dir.go:156-158 | A skip signal from a plain file may cut off its siblings without losing an entry |
| `DirectoryWalk.WalkDir` | internal/services/filesystem/dir.go:138-184 | For every tree and depth the result lists each node at depth 1 to d that is still there once, with its path and size, directories first, and is an error exactly when a node within that depth cannot be read or stated |
| `DirectoryWalk.SelectIsListing` | internal/services/filesystem/dir.go:138-184 | The filtered preorder is the list of exactly those nodes, by position in the tree, in order |
| `DirectoryWalk.FaultIffFaulty` | internal/services/filesystem/dir.go:139-178 | The preorder has a fault exactly when some node within the depth is unreadable or cannot be stated |
| `SandboxCatalog.RunKeepsInv` | packages/shared/pkg/sandbox-catalog/catalog_redis.go:47-139 | Every local entry and pending answer was held by Redis at its recorded time |
| `SandboxCatalog.StalenessIsBounded` | packages/shared/pkg/sandbox-catalog/catalog_redis.go:47-83 | Every value returned was held by Redis for that sandbox at most 500 ms, plus the delay between Redis and the local cache, before |
| `SandboxCatalog.ForgottenAfterBound` | packages/shared/pkg/sandbox-catalog/catalog_redis.go:47-139 | A value Redis no longer holds is not returned by any node after that time |
| `SandboxCatalog.GetReturnsRecord` | packages/shared/pkg/sandbox-catalog/catalog_redis.go:47-83 | A Get that asks Redis is told what Redis holds at that step, or nothing if the record is missing or expired, unless it is given up |
| `SandboxCatalog.GetFindsStored` | packages/shared/pkg/sandbox-catalog/catalog_redis.go:47-107 | A stored sandbox is found by every Get that asks Redis before it expires or is written again, and by none after it expired |
| `SandboxCatalog.LocalAnswer` | packages/shared/pkg/sandbox-catalog/catalog_redis.go:53-80 | What a node read or stored with its cache in use it answers by itself for exactly the next 500 ms |
| `SandboxCatalog.DeleteSparesOthers` | packages/shared/pkg/sandbox-catalog/catalog_redis.go:109-139 | A delete that finds another execution, or none, changes neither Redis nor any cache, then or later |
| `SandboxCatalog.DeleteRemoves` | packages/shared/pkg/sandbox-catalog/catalog_redis.go:109-139 | A delete goes on exactly when Redis holds its execution, and then removes the sandbox from Redis and from its own node only |
| `SandboxCatalog.OperationsAreRequests` | packages/shared/pkg/sandbox-catalog/catalog_redis.go:47-139 | Each operation keeps the node, sandbox and arguments it was called with |
| `SandboxCatalog.BoundIsReached` | packages/shared/pkg/sandbox-catalog/catalog_redis.go:35-35 | A run in which a deleted sandbox is still returned exactly 500 ms later |
| `ConnectionLimiter.RunKeepsInv` | packages/shared/pkg/connlimit/limiter.go:21-63 | Counters and requests stay consistent with load and swap interleaved |
| `ConnectionLimiter.CountIsOpenSlots` | packages/shared/pkg/connlimit/limiter.go:34-63 | The count always equals the open slots, is never negative, and every finished release gave its slot back |
| `ConnectionLimiter.RefusedIffFull` | packages/shared/pkg/connlimit/limiter.go:34-45 | A request is refused exactly when as many slots are open as its limit allows, and is told their number; a limit below zero never refuses |
| `ConnectionLimiter.AdmittedIffUnchanged` | packages/shared/pkg/connlimit/limiter.go:34-45 | A request is let in exactly when the count is still the one it loaded, and is told the new number of open slots |
| `ConnectionLimiter.GrowsWithinLimit` | packages/shared/pkg/connlimit/limiter.go:34-45 | A count grows by one only through a request whose own limit allows the new value |
| `ConnectionLimiter.NeverAboveLimit` | packages/shared/pkg/connlimit/limiter.go:34-45 | Under a fixed limit the open slots never exceed it |
| `ConnectionLimiter.RetryMeansProgress` | packages/shared/pkg/connlimit/limiter.go:36-44 | A request retries only because another swap on the counter succeeded since its load |
| `Names.ParseOfPrinted` | packages/shared/pkg/id/id.go:94-140 | Parsing inverts printing for every canonical identifier and valid tag; the default tag reads as none |
| `Names.ParseOfBare` | packages/shared/pkg/id/id.go:94-135 | A canonical identifier without a tag parses to itself |
| `Names.ParsedIsCanonical` | packages/shared/pkg/id/id.go:94-135 | Whatever is accepted is canonical, and a reported tag is valid and not the default |
| `Names.ParsePrintParse` | packages/shared/pkg/id/id.go:94-140 | For every accepted input, printing with the tag and parsing again gives the same identifier and tag |
| `Names.SplitInvertsWithNamespace` | packages/shared/pkg/id/id.go:82-89 | Splitting inverts the namespace printer, and leaves a bare alias alone |
| `Names.ExplicitDefaultTag` | packages/shared/pkg/id/id.go:102-110 | Any spelling of the default tag, in any case and with any white space around it, is the same as no tag |
| `Names.TagSpelling` | packages/shared/pkg/id/id.go:41-48 | Any spelling that cleans to a valid tag parses as that tag |
| `Names.NameSpelling` | packages/shared/pkg/id/id.go:94-135 | What every input parses to: the text after the first colon is judged as a tag first, then the identifier before it, and white space around the whole makes no difference |
| `Names.IdentifierSpelling` | packages/shared/pkg/id/id.go:82-132 | How namespace and alias are read in any spelling: each is cleaned, must then be valid, and they keep their places |
| `Names.TrimSpaceMeaning` | packages/shared/pkg/id/id.go:41-48 | Trimming takes away exactly the white space at both ends |
| `Hosts.ParseHostInvertsPrint` | packages/shared/pkg/proxy/host.go:41-66 | Parsing the printed host gives back every 64-bit port and valid sandbox id, for any domain |
| `Hosts.PrintHostIsInjective` | packages/shared/pkg/grpc/envd_command.go:48-48 | Different targets are printed as different hosts |
| `Hosts.HeadersCarryTarget` | packages/shared/pkg/proxy/host.go:81-103 | Headers carry the same targets and win over any host |
| `Hosts.HeadersMeaning` | packages/shared/pkg/proxy/host.go:12-103 | Headers count only when processed; one alone, a bad port or a bad id is its own error, and only without both does the host decide |
| `Hosts.HostMeaning` | packages/shared/pkg/proxy/host.go:41-66 | What every host with a domain and a dash says, with or without a third label: the port before the first dash and the id before the next |
| `Hosts.HostRefused` | packages/shared/pkg/proxy/host.go:41-56 | A host without a domain, or without a dash before it, is refused |
| `Hosts.TargetIsValid` | packages/shared/pkg/proxy/host.go:12-39 | An accepted target has a valid id and a 64-bit port, and its printed host leads back to it |
| `Text.ItoaDenotes` | internal/manifest/manifest.go:112-112 | The printed port is the decimal number, after a minus sign if negative |
| `Text.ItoaIsInjective` | internal/manifest/manifest.go:112-112 | Different numbers are printed differently |
| `Text.UtoaLeads` | internal/manifest/manifest.go:112-112 | The decimal form has no leading zero |

## Left out

- Mappings and headers: 64-bit wrap-around of image offsets (all ends are taken to be below 2^63), the log lines of headers older than version 3, a layer whose block size differs from its header's, and visualisation.
- SnapshotHeader.CreateMapping: `size` only names the image the runs must lie in; it can always be chosen as the size of the bit set.
- RedisLockCache: one key of one prefix; timeouts are honoured and clocks agree; single-flight grouping is dropped, which only adds behaviours; `Set`, `ExtractKeyFunc`, prefix deletion and locking switched off.
- ChunkCache: range readers at unaligned offsets, the size file's reads, deletion by prefix, and the lock package, which is an arbitrary try-acquire.
- WriteThrough: chunk copies of one call run one after another in an arbitrary order, since each writes its own file; no reader runs at the same time.
- Multiplexer: the closing loop after the source is drained reads the consumer list without the lock, so nothing is claimed about closing; nor that `remove` always returns.
- ProcessStream: process start-up, signals, terminals and process tables; the handler's channels are offers made by the environment.
- AdjustableSemaphore.PermitsConserved: requests are bounded so that a sum cannot wrap and holders release what they hold, because otherwise the claim is false; wake-ups by cancellation are broadcasts with no promise of their own.
- ErrorCollector: one call of `Wait`; calling it twice closes the channel twice.
- MultipartUpload: the HTTP retry client, its backoff, and uploads that a cancelled worker may still finish.
- Manifest: `filepath.Match` is modelled for stars, question marks and literal characters; patterns with character classes or escapes go to a parameter; callbacks on update.
- Overlay: handles, reads and writes of virtual files, and directories opened before a store was attached.
- Firewall: DNS, host-port splitting and the reading of addresses by iptables are parameters.
- DirectoryWalk: symlink resolution and `filepath.Join` before the walk; names contain no separator.
- SandboxCatalog: JSON encoding, and the race of a delete with a concurrent store of another execution, about which nothing is claimed.
- ConnectionLimiter: `Remove`, and counters near 2^63.
- Names and Hosts: Unicode tables are a parameter that agrees with ASCII on tag characters; invalid UTF-8; UUID tags and tag deduplication.
- Cloud clients, telemetry, feature flags, generated code, the tunnel and the proxy pool: no property beyond their interfaces.
