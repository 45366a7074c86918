# pdfextractor: a verified model

A Dafny model of the parts of the PDF text extraction service whose correctness
depends on more than one function: the incremental multipart reader, the
admission and extraction protocol of an instance, the metrics cache, and the
Markdown renderer with the normalizer behind it. `dafny verify dfyconfig.toml`
checks everything.

## The multipart reader

`MultipartReader.Reader` is the five-state parser with its byte buffer, state and
caller-owned sink, changed in place as in the source; `ReadMultipartFile` drives
it over a sequence of chunks. `MultipartSpec` says what a body means without a
buffer, a state or pruning: it looks at the whole body at once. The reader is
proved to give that meaning for every body and every way of cutting it, empty
chunks included, and to take no more chunks than decide the outcome.
`MultipartGrammar` and `MultipartPrinter` print bodies, at the level of parts and
at the level of header lines, and prove that reading undoes printing and that
every body which yields a file is a printed one. `HeaderNames` reads header values
back that are written in any order, letter case, blanks and quotes.

The delimiter syntax is that of section 5.1.1 of RFC 2046 and the `name`
parameter that of section 4.2 of RFC 7578, with the code's own choices: a
boundary matches as a prefix, padding after a delimiter is refused, LF-only line
ends are accepted, and the first marker may stand anywhere in the preamble.
Text scanned in headers is latin-1, so a character is a byte.

Three results are about limits of the code:

- The header cap is measured on what has arrived. A header block that ends
  within the cap while its blank line crosses it by more than one byte is
  accepted whole and refused in pieces. `ChunkIndependence` gives the exact
  condition under which cutting makes no difference, `CutsMatter` a body for
  every boundary on which it does. The reader is nevertheless proved exact for
  every chunking, because the meaning of a body takes the chunk ends.
- With LF-only line ends a CR at the end of a file is taken for part of the line
  end, so the round trip is exact if and only if the lines end in CRLF or the
  file does not end in CR (`RoundTripExactly`).
- The two refusals for oversized headers and for malformed bodies are one
  exception class with different messages in the source, two errors here.

## The admission and extraction protocol

`PoolProtocol` is the extraction pool as a transition system: any number of
callers in `extract`, the bounded gate, the jobs of the process pool, the release
deferred to a job's done-callback, the readiness flag, crashes, restarts and
close. A step is one operation on something shared, and steps of all threads
interleave freely. `ServiceProtocol` puts it behind the front door, the admission
gate and the buffer pool, wired as in `main.py`; requests of the one event loop
interleave where they await. `K` is the limit of the door and `N` the capacity
that gate, buffers and pool share. Statements are about every state of every run;
`PoolEndings` says how each call ends and why, `PoolReadiness` and
`ServiceReadiness` who raises and who lowers the readiness flag, and
`ServiceDrain` that the instance drains: it cannot get stuck, and whatever is
in it comes to an end with everything given back.
`BufferPool` also has the buffer pool as a class that works in place. The release
of an admission slot and the write of the flag after it are separate steps of one
turn of the event loop, since pool threads may come in between; `/ready` is
answered between turns, and that is where readiness is spoken of.

`K` may be configured above `N`. Two exact conditions come out of that
(`ServiceCrowds`): a request can queue at the admission gate if and only if
`K > N`, and the instance can report "not ready" with nobody at work or waiting
if and only if `K > N`. For the second, the last request out leaves the flag
alone because another one is counted as waiting, and that one, already handed a
slot, runs out of time.

## The metrics cache

`ScrapeProtocol` interleaves scrapes with the steps of the renders they start on
threads, a clock, restarts of the pool, and renders that raise. With a positive
TTL renders never overlap and the exported restart counter is exact; the counter
can exceed the number of restarts if and only if the TTL is not positive
(`CounterNeedsCache`), since then two renders may count one restart each. The
documentation's "at most once per TTL" holds of renders that complete; one that
raises is not held against the next.

## Markdown and the normalizer

`Markdown` is the renderer, `Newlines` the collapse of newline runs. For spans
free of newlines, `MarkdownLayout` says what the lines of a document are, empty
ones included; `MarkdownLines` that no text of a line is lost, added or moved; and
the normalizer does nothing to a rendered document but compose its characters.
`MarkdownLiterals` spells out what the simplest spans and lines come to.

## Model

| member | source | states |
|---|---|---|
| HeaderNames.FirstBoundaryIsFirst | src/pdfextractor/infrastructure/http/multipart_reader.py:39-45 | the boundary taken is that of the first parameter that declares a non-empty one; without such a parameter there is none |
| HeaderNames.BoundaryReadBack | src/pdfextractor/infrastructure/http/multipart_reader.py:36-45 | from any list of parameters, in whatever order, letter case, blanks and quotes, the boundary read is the first non-empty `boundary`; without one, or without parameters, there is none |
| HeaderNames.AnyParams | src/pdfextractor/infrastructure/http/multipart_reader.py:38-42 | every byte string is a list of parameters so written: what is read from written lists is said of all header values |
| HeaderNames.DispositionReadBack | src/pdfextractor/infrastructure/http/multipart_reader.py:193-203 | a header line, with blanks anywhere around its key and at its end, yields the first `name` of its parameters if its key says content-disposition in any letter case, and none otherwise |
| HeaderNames.FirstNameIsFirst | src/pdfextractor/infrastructure/http/multipart_reader.py:193-203 | the name of a header block is that of the first line that declares one |
| HeaderNames.FirstNameParamIsFirst | src/pdfextractor/infrastructure/http/multipart_reader.py:199-202 | the name of a line is that of its first `name` parameter |
| HeaderNames.NameParamReadBack | src/pdfextractor/infrastructure/http/multipart_reader.py:199-202 | from any list of parameters, in whatever order, letter case, blanks and quotes, the name read is that of the first `name` |
| MultipartPrinter.NameOfJoined | src/pdfextractor/infrastructure/http/multipart_reader.py:193-203 | the field name of a header block is the one its lines declare, whichever line end joins them |
| HeaderNames.LowerForgetsCase | src/pdfextractor/infrastructure/http/multipart_reader.py:41 | two byte strings are the same in lower case exactly if they have the same length and each pair of bytes is the same or one ASCII letter in its two cases |
| HeaderLiterals.KeysSpelled | src/pdfextractor/infrastructure/http/multipart_reader.py:41 | the keys and the field name looked for, as text |
| HeaderLiterals.BlanksSpelled | src/pdfextractor/infrastructure/http/multipart_reader.py:196 | which bytes are passed over around keys and values, in header lines and in content types |
| HeaderLiterals.DispositionNames | src/pdfextractor/infrastructure/http/multipart_reader.py:193-203 | `Content-Disposition: form-data; name="v"`, its keys in any letter case, names the field v |
| HeaderLiterals.FileDispositionNames | src/pdfextractor/infrastructure/http/multipart_reader.py:193-203 | a `filename` after it does not change that |
| HeaderLiterals.TypeNamesBoundary | src/pdfextractor/infrastructure/http/multipart_reader.py:36-45 | `multipart/form-data; boundary=v`, its key in any letter case and v bare or quoted, yields v |
| HeaderLiterals.UsualUpload | src/pdfextractor/infrastructure/http/multipart_reader.py:48-203 | a PDF sent with the usual header lines, in chunks of any size, with any further sections, is read back |
| MultipartSpec.HeaderEndStable | src/pdfextractor/infrastructure/http/multipart_reader.py:142-151 | where a header block ends is decided by the bytes up to its end: more bytes do not move it |
| MultipartSpec.HeaderEndLate | src/pdfextractor/infrastructure/http/multipart_reader.py:142-151 | a block not ended in the bytes at hand ends, if ever, past them |
| MultipartReader.ReadMultipartFile | src/pdfextractor/infrastructure/http/multipart_reader.py:48-72 | for every sequence of chunks the outcome, and on success the sink, is the meaning of the body; the chunks taken decide it and no fewer decide anything, so none is read past the deciding one; a stream that decides nothing is read whole and is malformed; the steps answering True number at most the bytes read plus one; the sink never passes the limit |
| MultipartReader.Reader.constructor | src/pdfextractor/infrastructure/http/multipart_reader.py:78-86 | a fresh reader is valid, in the preamble, with an empty buffer |
| MultipartReader.Reader.Feed | src/pdfextractor/infrastructure/http/multipart_reader.py:88-92 | a chunk changes the configuration but not what it means together with any bytes to come; a result or an error given is the one every continuation gives; the buffer never holds more than max(marker + 1, 16384) bytes plus the chunk during the feed, nor more than the former after it if undecided |
| MultipartReader.Reader.Deliver | src/pdfextractor/infrastructure/http/multipart_reader.py:65-69 | feeding the next chunk, unless empty, leaves a reader that is done and whose chunks decide so, or one that waits, or an error those chunks decide |
| MultipartReader.Reader.Step | src/pdfextractor/infrastructure/http/multipart_reader.py:99-108 | every step keeps the meaning or settles it; one that asks for another has shrunk the buffer or finished |
| MultipartReader.Reader.SeekBoundary | src/pdfextractor/infrastructure/http/multipart_reader.py:110-117 | pruning the preamble to one byte less than the marker loses no marker |
| MultipartReader.Reader.EndBoundary | src/pdfextractor/infrastructure/http/multipart_reader.py:119-140 | after a marker: waits, goes on to the headers, or settles for a missing field or a malformed body |
| MultipartReader.Reader.ReadHeaders | src/pdfextractor/infrastructure/http/multipart_reader.py:142-157 | ends the header block at the first blank line, refuses it past the cap, opens the file or skips the part |
| MultipartReader.Reader.ReadFile | src/pdfextractor/infrastructure/http/multipart_reader.py:159-172 | closes the content at the first delimiter, or flushes all but a delimiter's length; sink and buffer together stay the bytes since the header terminator |
| MultipartReader.Reader.SkipOverPart | src/pdfextractor/infrastructure/http/multipart_reader.py:174-181 | pruning a skipped part loses no delimiter |
| MultipartReader.Reader.Append | src/pdfextractor/infrastructure/http/multipart_reader.py:183-186 | appends unless the limit would be passed, in which case the sink is untouched |
| MultipartReader.Reader.Prune | src/pdfextractor/infrastructure/http/multipart_reader.py:188-190 | keeps the last bytes asked for and no others |
| MultipartResume.FlushedIsPrefix | src/pdfextractor/infrastructure/http/multipart_reader.py:159-172 | what was flushed is a prefix of whatever content the part turns out to have: no split delimiter, and no CR before one, is ever flushed |
| MultipartResume.FileFound | src/pdfextractor/infrastructure/http/multipart_reader.py:160-167 | a delimiter found in the buffer closes the content that the whole part has |
| MultipartResume.FileOverflows | src/pdfextractor/infrastructure/http/multipart_reader.py:168-172 | raising for size during the stream is right whatever follows |
| MultipartResume.StalledEndIsMalformed | src/pdfextractor/infrastructure/http/multipart_reader.py:94-97 | a stream that ends while the parser waits for more is malformed, in every state |
| MultipartUndecided.WaitsOnlyUndecided | src/pdfextractor/infrastructure/http/multipart_reader.py:65-72 | where the parser waits for more, the chunks so far decide no outcome: the stream may end malformed, or go on to something else |
| MultipartCuts.CutsOnlyRefuse | src/pdfextractor/infrastructure/http/multipart_reader.py:48-190 | cutting a body can only turn its outcome into a refusal of its headers, and not even that if the headers leave room for their blank lines |
| MultipartCuts.OneChunk | src/pdfextractor/infrastructure/http/multipart_reader.py:65-72 | a body in one chunk has the meaning of the whole body |
| MultipartCuts.OverfullRefused | src/pdfextractor/infrastructure/http/multipart_reader.py:147-153 | a whole body is refused for its headers exactly if the parse meets a block that ends past the cap, or one longer than the cap that does not end |
| MultipartCuts.ChunkIndependence | src/pdfextractor/infrastructure/http/multipart_reader.py:147-153 | every cutting gives the whole body's outcome exactly if every header block the parse meets ends past the cap or fits under it with its blank line, or one that it meets ends past the cap or grows past it without an end |
| MultipartPrinter.CutsMatter | src/pdfextractor/infrastructure/http/multipart_reader.py:147-153 | for every boundary a body whose outcome differs whole and byte by byte |
| MultipartGrammar.PartReadBack | src/pdfextractor/infrastructure/http/multipart_reader.py:119-181 | a printed part is read back as its file, or the parse goes on right after it |
| MultipartGrammar.HeadersUpToTheCap | src/pdfextractor/infrastructure/http/multipart_reader.py:147-156 | a header block of up to 16384 bytes opens the file or a part to skip, a longer one is refused |
| MultipartGrammar.BodyReadBack | src/pdfextractor/infrastructure/http/multipart_reader.py:110-186 | a printed body comes to its first file part, or to what follows the last part, for every cutting when headers leave room |
| MultipartGrammar.RetraceParts | src/pdfextractor/infrastructure/http/multipart_reader.py:110-186 | whatever the parser accepts can be retraced as printed parts of which the last is the first file |
| MultipartGrammar.YieldsExactlyPrintedFiles | src/pdfextractor/infrastructure/http/multipart_reader.py:110-186 | the bodies that yield a file are exactly the printed ones with that first file, of one byte up to the limit |
| MultipartPrinter.PrintedUploadReadBack | src/pdfextractor/infrastructure/http/multipart_reader.py:48-203 | an upload printed from header lines, cut in any way, is read back as its first `file` section; without one, and closed, the field is missing |
| MultipartPrinter.RoundTripExactly | src/pdfextractor/infrastructure/http/multipart_reader.py:159-167 | the round trip is exact if and only if lines end in CRLF or the file does not end in CR |
| PoolInvariants.StepKeepsInv | src/pdfextractor/infrastructure/concurrency/pool.py:82-229 | every step of every caller, job, callback, restart and close keeps the balance of the gate, each call's accounting, the lock and the executors in order, and never leaves a raised flag with nobody to write it again but a caller that lapsed |
| PoolSafety.PermitsConserved | src/pdfextractor/infrastructure/concurrency/pool.py:82-113 | semaphore value, counted, acquired but uncounted, and discounted but unreleased permits add up to the permits; `inflight` lies between 0 and the permits and `waiting` counts the callers in the waiting region |
| PoolSafety.JobsWithinPermits | src/pdfextractor/infrastructure/concurrency/pool.py:143-160 | jobs submitted and unfinished never outnumber `inflight`, so never the permits |
| PoolSafety.ReleasedExactlyOnce | src/pdfextractor/infrastructure/concurrency/pool.py:143-167 | on every path a call acquires at most once and, once settled, has released exactly as often; only a timed-out call is over with its permit still held |
| PoolOutcomes.EndingsTellTheTruth | src/pdfextractor/infrastructure/concurrency/pool.py:143-167 | when a call is over, its job fits its ending: finished with a value if answered, failed or cancelled if failed, crashed or never submitted if broken, never submitted if turned away; and after a timeout it is not left waiting to start |
| PoolEndings.EndingsExplained | src/pdfextractor/infrastructure/concurrency/pool.py:143-167 | a call that is over ended in a given way exactly if it met the event that calls for it: its job finished so while it waited; its time lapsed before that; its executor was broken, or shut, when it submitted; the pool was closed when it came; its wait for a permit ended without one |
| PoolEndings.FinishedInTime | src/pdfextractor/infrastructure/concurrency/pool.py:152-164 | a job that finishes while its caller waits decides how the caller ends: answered with a value, failed with an error or a cancellation, broken with a crash, timed out with a timeout of its own |
| PoolWitnesses.EveryEndingHappens | src/pdfextractor/infrastructure/concurrency/pool.py:143-167 | for every capacity each of the six endings does happen in some run |
| PoolJobs.JobsOnService | src/pdfextractor/infrastructure/concurrency/pool.py:152 | a job is on an executor that was in service when its caller, counted in, took it |
| PoolJobs.CrashesAreRepaired | src/pdfextractor/infrastructure/concurrency/pool.py:162-164 | a caller told that the pool is broken met a crash, and by then the executor has been replaced, unless the pool was closed |
| PoolJobs.ClosedMeansDrained | src/pdfextractor/infrastructure/concurrency/pool.py:210-216 | once a close that waited has returned, the last executor never has an unfinished job again |
| PoolSafety.NeverOverReleased | src/pdfextractor/infrastructure/concurrency/pool.py:102-105 | the bounded semaphore is below its bound whenever it is released |
| PoolSafety.QuiescentPool | src/pdfextractor/infrastructure/concurrency/pool.py:201-208 | with every call settled all permits are back, the counters are zero, and a flag still raised was last written by a caller whose queue timeout lapsed |
| PoolReadiness.LoweredRightly | src/pdfextractor/infrastructure/concurrency/pool.py:205-208 | the flag goes from raised to lowered only when a release that looked when no call was counted comes to announce it, or by a mark from outside the pool |
| PoolReadiness.RaisedUntilLowered | src/pdfextractor/infrastructure/concurrency/pool.py:42-60 | once raised, the flag stays raised until it is lowered in one of these ways |
| PoolReadiness.ReadEmptyLowers | src/pdfextractor/infrastructure/concurrency/pool.py:205-208 | a release that looked when no call was counted lowers the flag in its next step |
| PoolReadiness.FullGateRaises | src/pdfextractor/infrastructure/concurrency/pool.py:82-90 | a caller that finds no permit raises the flag in its next step |
| PoolReadiness.RestartRaises | src/pdfextractor/infrastructure/concurrency/pool.py:218-229 | a restart that finds the pool open raises the flag in its next step, before it touches an executor |
| PoolReadiness.LapseRaises | src/pdfextractor/infrastructure/concurrency/pool.py:146-148 | the step in which a caller is turned away leaves the flag raised |
| PoolSafety.ExecutorsAccountedFor | src/pdfextractor/infrastructure/concurrency/pool.py:210-229 | every executor but the newest is shut down; `restarts` is the number created after the first, but for the moment between a creation and its count |
| PoolSafety.OneInLifecycle | src/pdfextractor/infrastructure/concurrency/pool.py:210-229 | at most one restart or close is past the lifecycle lock |
| PoolSafety.ClosedForGood | src/pdfextractor/infrastructure/concurrency/pool.py:210-221 | once closed the pool stays closed and no executor is created again |
| PoolDrain.NeverStuck | src/pdfextractor/infrastructure/concurrency/pool.py:143-229 | while a call is unsettled some thread of the pool can move: no deadlock between gate, jobs, callbacks, restarts and closes |
| PoolDrain.InternalRunsEnd | src/pdfextractor/infrastructure/concurrency/pool.py:143-229 | without newcomers, closes and crashes the pool takes at most as many steps as a measure of its work |
| PoolDrain.PermitsComeBack | src/pdfextractor/infrastructure/concurrency/pool.py:143-208 | from any reachable state the work in the pool ends, and then every permit is back |
| BufferPool.BufferPool.Acquire | src/pdfextractor/infrastructure/memory/pool.py:21-30 | lends a buffer nobody has, empty, the last one freed or a new one; refuses exactly when as many buffers as the capacity are on loan; leaves every other buffer alone |
| BufferPool.BufferPool.Release | src/pdfextractor/infrastructure/memory/pool.py:32-35 | a lent buffer given back is free again and no longer lent; the free list stays within the capacity whatever is given back |
| BufferPool.LoanKeepsSound | src/pdfextractor/infrastructure/memory/pool.py:21-30 | a loan keeps free buffers distinct and apart from lent ones, and created = free + lent within the capacity |
| BufferPool.RefusesWhenAllLent | src/pdfextractor/infrastructure/memory/pool.py:27-30 | the pool is exhausted exactly when the buffers on loan are as many as the capacity |
| BufferPool.ReturnKeepsSound | src/pdfextractor/infrastructure/memory/pool.py:32-35 | a return keeps the pool sound and never drops the buffer |
| ServiceInvariants.StepKeepsInv | src/pdfextractor/presentation/api/v1/extract.py:51-83 | every step of every request and of the pool keeps slots, buffers, calls and flag in order |
| ServiceSafety.PoolRunsItsProtocol | src/pdfextractor/presentation/api/v1/extract.py:69-69 | what the pool goes through inside the instance is a run of the pool on its own, so all that is proved of the pool holds there |
| ServiceSafety.SlotsConserved | src/pdfextractor/infrastructure/concurrency/admission.py:53-77 | free, handed-over and used slots of the gate add up to the capacity, and so at the door; `inflight` lies between 0 and the capacity, expiring and handed-over waiters included |
| ServiceSafety.CountedIfSaturated | src/pdfextractor/infrastructure/concurrency/admission.py:53-65 | a caller that has to park is counted as waiting exactly if it found every slot in use |
| ServiceDrain.NeverStuck | src/pdfextractor/presentation/api/v1/extract.py:51-83 | as long as a request is not gone some step by which a request gets on can be taken, even if no timeout fires and nothing is refused: door, gate, buffers and pool never deadlock |
| ServiceDrain.StepLowersWork | src/pdfextractor/presentation/api/v1/extract.py:51-83 | every step of what is in the instance, an empty append apart, strictly lowers a measure of the work left in requests, upload room and pool |
| ServiceDrain.InstanceDrains | src/pdfextractor/presentation/api/v1/extract.py:51-83 | without arrivals, crashes and closes every continuation of every run is bounded by that measure, and when nothing can proceed all requests are gone, every slot, buffer and permit is back, and with K <= N the instance is ready |
| ServiceSafety.ExtractionCanStart | src/pdfextractor/presentation/api/v1/extract.py:60-69 | a request that has read its body holds a live buffer and has no call in the pool yet |
| ServiceSafety.EverythingComesBack | src/pdfextractor/presentation/api/v1/extract.py:78-83 | once every request is gone all slots are free, all buffers created are back and every call is over |
| ServiceSafety.AdmittedMeansBuffered | src/pdfextractor/presentation/api/v1/extract.py:56-59 | an admitted request always has a buffer, so the defensive branch is never taken; created = free + in use, within the capacity |
| ServiceSafety.NoAliasing | src/pdfextractor/infrastructure/memory/pool.py:21-35 | no two requests hold one buffer, and no buffer is both held and free |
| ServiceSafety.BuffersStartEmpty | src/pdfextractor/infrastructure/memory/pool.py:21-29 | a request's buffer is empty when it gets it |
| ServiceSafety.BuffersGrow | src/pdfextractor/presentation/api/v1/extract.py:60-69 | while a request reads, its buffer keeps what it has and only grows; the extraction gets it as it is |
| ServiceSafety.CallKeepsItsBuffer | src/pdfextractor/presentation/api/v1/extract.py:69-80 | until a request's call into the pool has ended nothing takes, frees, lends or writes its buffer |
| ServiceSafety.MemoryBounded | src/pdfextractor/infrastructure/memory/pool.py:13-35 | all pooled buffers together, lent or free, hold at most capacity times the upload limit |
| ServiceSafety.NobodyWaitsAtTheGate | src/pdfextractor/main.py:75-87 | with K <= N a request that reaches the gate takes a slot at once |
| ServiceSafety.PoolFullOnlyByTimeouts | src/pdfextractor/infrastructure/concurrency/pool.py:154-161 | an admitted request finds the pool's gate full only if a timed-out call still holds a deferred slot; those and the extracting requests then outnumber the capacity |
| ServiceSafety.OverloadedOnlyAfterTimeout | src/pdfextractor/infrastructure/concurrency/pool.py:146-148 | the pool turns an admitted request away only after some extraction timed out |
| ServiceSafety.NotReadyMeansAdmitted | src/pdfextractor/presentation/api/v1/extract.py:78-83 | with K <= N, whenever the event loop could report "not ready" some request holds an admission slot; how the flag gets there and back is said by ServiceReadiness |
| ServiceReadiness.PoolsAreTrace | src/pdfextractor/presentation/api/v1/extract.py:69 | what the pool goes through inside the instance is a trace of the pool, so what is said of who raises and lowers the flag holds there |
| ServiceReadiness.FlagLoweredRightly | src/pdfextractor/presentation/api/v1/extract.py:82-83 | the flag of the instance goes from raised to lowered only by a release of the pool that looked when no call was counted, or by a request's first step after a release that left no request admitted and none counted as waiting |
| ServiceReadiness.RaisedUntilLowered | src/pdfextractor/presentation/api/v1/extract.py:78-83 | once raised, it stays raised until one of these two |
| ServiceReadiness.LastOneOutLowers | src/pdfextractor/presentation/api/v1/extract.py:81-83 | a request whose release leaves nobody behind lowers the flag in its next step, within the same turn of the event loop; any other request leaves the flag alone |
| ServiceCrowds.QueuesOnlyBehindWiderDoor | src/pdfextractor/infrastructure/middleware/middlewares.py:191-209 | a request can queue at the admission gate if and only if K > N |
| ServiceCrowds.DoorTurnsAway | src/pdfextractor/infrastructure/middleware/middlewares.py:196-205 | with the door full a newcomer may wait its time out and go without having been inside |
| ServiceCrowds.ReadinessNeedsNarrowDoor | src/pdfextractor/presentation/api/v1/extract.py:81-83 | the instance can be "not ready" with nobody at work or waiting if and only if K > N |
| ScrapeSafety.RendersAlone | src/pdfextractor/presentation/api/v1/metrics.py:52-59 | with a positive TTL renders never overlap |
| ScrapeSafety.RendersAreDue | src/pdfextractor/presentation/api/v1/metrics.py:52-58 | a render begins alone and at least a TTL after the last one that completed |
| ScrapeSafety.OneRenderPerTtl | src/pdfextractor/presentation/api/v1/metrics.py:43-59 | between any two points of a run, n completed renders take up at least n - 1 TTLs |
| ScrapeSafety.CacheHoldsLatest | src/pdfextractor/presentation/api/v1/metrics.py:56-58 | the cache holds the render completed last and the time it completed |
| ScrapeSafety.AnswersAreFresh | src/pdfextractor/presentation/api/v1/metrics.py:48-59 | a scrape is answered with its own render or with the last one completed, less than a TTL ago |
| ScrapeSafety.FailsOnlyIfRaised | src/pdfextractor/presentation/api/v1/metrics.py:43-59 | for every TTL, a scrape fails only if its own render raised |
| ScrapeSafety.RaisedFails | src/pdfextractor/presentation/api/v1/metrics.py:56 | for every TTL, a scrape whose render raised is never answered |
| ScrapeSafety.RendersAreServed | src/pdfextractor/presentation/api/v1/metrics.py:56-59 | for every TTL, a scrape whose render has completed can only be answered, and with it |
| ScrapeSafety.FreshIsServedAtOnce | src/pdfextractor/presentation/api/v1/metrics.py:48-55 | a scrape that finds a fresh body, at its first look or under the lock, is answered with it in that step |
| ScrapeSafety.WithoutCacheAllRender | src/pdfextractor/presentation/api/v1/metrics.py:45-46 | with the cache off every answer is the scrape's own render |
| ScrapeSafety.ScrapesGetOn | src/pdfextractor/presentation/api/v1/metrics.py:48-59 | with a positive TTL, while a scrape has no answer some scrape can take a step, which is one less to take |
| ScrapeSafety.ScrapesMayFail | src/pdfextractor/presentation/api/v1/metrics.py:45-56 | for every TTL some run has a scrape fail |
| ScrapeSafety.RendersRecur | src/pdfextractor/presentation/api/v1/metrics.py:52-58 | a TTL after the first render a second one can complete |
| ScrapeSafety.ExportsAreTrue | src/pdfextractor/infrastructure/telemetry/metrics.py:64-72 | with a positive TTL every answer exports the very restart count its render read, one the pool really had: none lost, none doubled |
| ScrapeSafety.RenderUndisturbed | src/pdfextractor/infrastructure/telemetry/metrics.py:64-72 | a render that nobody disturbs does to the counter what `Metrics.Render` does |
| ScrapeSafety.CounterNeedsCache | src/pdfextractor/presentation/api/v1/metrics.py:45-46 | the exported counter can exceed the restarts there were if and only if the TTL is not positive |
| MetricsRegistry.Metrics.Render | src/pdfextractor/infrastructure/telemetry/metrics.py:64-72 | refreshes the gauges, adds the restarts since the last render to the counter and prints all three |
| MetricsRegistry.CounterFollowsRisingTotals | src/pdfextractor/infrastructure/telemetry/metrics.py:67-71 | over any renders the counter is never below the last total read, and equals it exactly if the totals never fell |
| Markdown.BodySize | src/pdfextractor/infrastructure/extraction/markdown.py:101-114 | the nested loops over the weight table compute the body size |
| Markdown.BodySizeIsHeaviest | src/pdfextractor/infrastructure/extraction/markdown.py:101-114 | the body size is the rounded span size that carries the most text, the first to occur on a tie, 0 without text; and nothing else is |
| Markdown.PageToMarkdown | src/pdfextractor/infrastructure/extraction/markdown.py:39-50 | the loops over blocks and lines give the text of the page that DocumentLaidOut describes line by line |
| MarkdownLines.OnlyBlankLinesVanish | src/pdfextractor/infrastructure/extraction/markdown.py:53-63 | a line renders to nothing exactly if it holds no text |
| MarkdownLines.LineKeepsText | src/pdfextractor/infrastructure/extraction/markdown.py:53-87 | a heading is the marks of its level, a blank and its text; any other line its text with the stars of emphasis put in and nothing else changed, blanks included; behind a bullet, a dash and one blank stand for the bullet and its blanks |
| MarkdownLines.EmphasisHugsTheCore | src/pdfextractor/infrastructure/extraction/markdown.py:66-77 | a span that holds text is its blank edges around its trimmed core, and gets two stars if bold, one if italic, three if both, right around that core |
| MarkdownLines.LargestSpanDecides | src/pdfextractor/infrastructure/extraction/markdown.py:59-61 | a line is a heading of level 1, at most 2, or at all, exactly if some span is 1.8, 1.5, 1.25 times the body size |
| MarkdownLines.OrderedCheckIsIdle | src/pdfextractor/infrastructure/extraction/markdown.py:80-87 | the check for ordered items never changes what a line renders to |
| MarkdownLiterals.FlagsSpelled | src/pdfextractor/infrastructure/extraction/markdown.py:66-77 | bit 4 of the flags gives `**`, bit 1 `*`, both `***`, and no other bit matters |
| MarkdownLiterals.HeadingsSpelled | src/pdfextractor/infrastructure/extraction/markdown.py:59-63 | a line is `# `, `## ` or `### ` and its text from 1.8, 1.5, 1.25 times the body size, and its text below that |
| MarkdownLiterals.NoBodyNoHeading | src/pdfextractor/infrastructure/extraction/markdown.py:92-93 | without a body size nothing is a heading |
| MarkdownLiterals.ItemsSpelled | src/pdfextractor/infrastructure/extraction/markdown.py:84-86 | each of the nine bullets, a blank, more blanks and text come to `- ` and the text |
| MarkdownLiterals.BulletsSpelled | src/pdfextractor/infrastructure/extraction/markdown.py:27 | the nine bullets |
| MarkdownLiterals.BlanksSpelled | src/pdfextractor/infrastructure/extraction/markdown.py:57 | what counts as blank, by code point |
| MarkdownLiterals.RoundIsNearest | src/pdfextractor/infrastructure/extraction/markdown.py:111 | sizes are rounded to the nearest tenth, the even one of two |
| MarkdownLiterals.LongerSpanIsBody | src/pdfextractor/infrastructure/extraction/markdown.py:101-114 | of two spans in different sizes the one with more text, or else the first, gives the body size |
| MarkdownLayout.DocumentLaidOut | src/pdfextractor/infrastructure/extraction/markdown.py:33-50 | line by line, empty lines included, a document is the lines of its text blocks that hold text: one below the other within a block, one empty line between blocks and between pages, none elsewhere |
| MarkdownLayout.LaidAt | src/pdfextractor/infrastructure/extraction/markdown.py:33-50 | where each line comes to stand: the first first, the next one right below or, across blocks or pages, two below with an empty line between, the last last |
| MarkdownLayout.DocumentKeepsLines | src/pdfextractor/infrastructure/extraction/markdown.py:33-63 | the non-empty lines of a document are, one for one and in order, the lines of text blocks that hold text, each rendered with its page's body size |
| MarkdownLayout.DocumentIsNormal | src/pdfextractor/application/services/extraction_service.py:37-39 | a rendered document has no newline at its ends and no run of three, the collapse is the identity on it, and the normalizer only composes its lines |
| Newlines.CollapseClamps | src/pdfextractor/application/services/extraction_service.py:25-39 | on arbitrary text the collapse keeps every other character in its place and cuts every run of newlines down to two at most |
| Newlines.CollapseFixes | src/pdfextractor/application/services/extraction_service.py:25-39 | the collapse leaves no run of three, is idempotent, and is the identity exactly on text without one |
| Newlines.NormalizeOfCalm | src/pdfextractor/application/services/extraction_service.py:37-39 | the normalizer only composes characters exactly on text without a run of three newlines |

## Left out

- FastAPI, Starlette and ASGI plumbing, exception handlers, responses, health routes and headers: wiring without a hard property.
- PyMuPDF, pickling to workers and start-up of the process pool: a job is an abstract future that finishes, fails, times out by itself, is cancelled or breaks its pool.
- Warm-up jobs, which bypass the gate and the counters.
- The insides of asyncio and threading primitives. A waiting caller may be handed a slot at any moment a slot is free and may expire before or after waking up; the first-come order of waiters is not modelled, so nothing depends on it.
- Requests cancelled from outside and several event loops (the lazy creation of the door's semaphore).
- The capacity of the thread executor that runs `service.extract`, equal to that of the gate: a call may start at any time after its request asks for it.
- One restart per crash is not claimed: two callers that see one broken executor each restart it.
- `AdmissionGate.waiting` counts the callers that found the gate saturated, as in the source, not every parked one.
- Classes for the pool, its gate, the admission gate, the door and the metrics cache: their fields are state of a transition system, because what matters of them is how steps of different threads interleave, which no method call shows.
- Boundaries outside latin-1, which would fail to encode: header text arrives as latin-1, so none comes up. The asynchronous stream is the sequence of its chunks.
- Empty renders: `Cache.content` is empty only before the first render completes.
- The gauges of a render under interleaving: only the counter accumulates.
- Font sizes are real numbers; binary rounding of sizes and ratios is not modelled. `\d` in the check for ordered items stands for the ASCII digits, which changes nothing, since the check is idle.
- Unicode composition: any function that works line by line and neither adds newlines nor empties a line.
- The guard chain of `ExtractionService.extract` (empty input, page and text limits, minimum length), settings validators, histograms and logging: easy members.
