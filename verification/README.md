# Verified models of spargen's runtime and build cache

Dafny models of the most intricate parts of spargen, its embedded runtime (`support-runtime`) and its
generator, each proved against an independent definition of what it is for. `dafny verify dfyconfig.toml`
checks everything.

## What is modelled

**Streaming (`Framing`, `EventLines`, `WrittenBodies`, `Resumption`, `FrameBuffers`, `Chunking`, `FramingLaws`).** `Framing` says what a
whole response body means in each of the five framings: an event stream is stripped of its byte order mark,
split into lines at CRLF, LF or CR, grouped at blank lines, folded field by field and, for one of the
framings, cut at `[DONE]`; newline-delimited JSON and JSON text sequences are split and trimmed.
`EventLines` and `WrittenBodies` close the circle, in terms of their own: whatever a server may write in each
format, line by line and ending by ending, frames as what it wrote.
`FrameBuffers.FrameBuffer` is the incremental framer with its real fields `bytes`, `line_start`, `scanned` and
`event`, updated in place. `Resumption` defines what a half-read buffer still has to frame under every
continuation of the body; every framer method is proved to hand over exactly the first of those frames.
`Chunking.FrameChunks` concludes that every cut of every body frames as the whole body does. Ghost counters
prove the search linear: `Linear()` bounds the bytes inspected by those ever added, plus one per call
and two per byte-order-mark check.

**The typed stream (`Runs`, `RunLaws`, `Scripts`, `EventStreams`, `StreamLaws`).** `EventStreams.EventStream` is the state
machine over bodies, waits and reconnects. `Runs` says what a run may look like without speaking of the stream's
state: events come in order (ask the body, frame, close, ask the policy, send again, open), frames are those of
the connection's own bytes, the body is asked only when every complete frame is out and the one item in progress
is at most `max_frame` bytes, the policy sees the number of reconnects accepted since the last decoded item
(saturating) and the latest retry delay, a reconnect sends the latest dispatched id, and nothing follows the
sentinel, a declined question or an item past the limit; `RunLaws` tells the ids, delays, counts and bytes of a run
from its events alone. `Framing.InProgress` defines that item from the body
alone: the bytes behind the last item completed, everything while a byte order mark is undecided, and what
precedes a first record separator. `Scripts` writes down what the world will do and, as an `Outlook`, what frames
that makes the stream hand over and with which poll it is to end. `PollNext` keeps every run faithful and on the
course to its outlook, is fused, and does some of a computable amount of work each time; `StreamLaws.Observe`
concludes that a stream yields the first of the items of its outlook, and, polled as often as there is work, all of
them and then the poll the outlook ends with. `StreamLaws.StreamOverflowsExactly` says which scripts end in an
overflow: those in which, before the sentinel, some chunk leaves more than `max_frame` bytes in progress. So a
stream of any length whose items are short delivers everything (`StreamLaws.ShortItemsAllArrive`).

Two places follow the code rather than section 9.2.6 of the HTML standard: an unterminated last event is
dispatched when the body ends, and an event with an id or a retry but no data counts as metadata.

**The build cache (`Fingerprints`, `BuildCaches`, `BuildSteps`, `BuildLaws`, `BuildEndings`, `CachedBuilds`).** The digest's
framed byte string, the sorted input list, the generated module's header, and `generate_with_cache_dir` step by
step in a world that may change any file, delete the record, make a write fail or kill the build at each of its
steps. `BuildSteps.Built` is that as a function, which the methods of `CachedBuilds.CachedBuild` compute in place,
and `BuildLaws` proves its laws: no stale output over any number of builds under changing versions and
configurations, as long as no build wrote while the content of a file it names came back, and no missed hit on an
unchanged rebuild. `BuildLaws.ContentThatComesBackGoesUnseen` shows that the condition is needed, and
`BuildCaches.SomeMachineIsSound` that what is asked of the hash and the order can be had. `BuildEndings` says how a
build ends, told from the moments themselves: by its hit, its audits, its rounds and its writes. The loader reads a local
document once and a vendored one as often as it is referred to, each time against the digest that the lock file
pins it by; that is why a document read again needs no condition (`BuildLaws.LoadedDocuments`). A render may load
the bundle any number of times, as auto-carving does.

**Dates (`Calendar`, `HttpDates`).** Closed-form Gregorian days against a plain count, and the three-form
HTTP-date parser with an exact description of what it accepts. The doc comment at
`support-runtime/src/retry.rs:350-351` promises the year "not more than 50 years after" the current one; the
code also returns a year up to 99 years back when a later one qualifies, and `HttpDates.PlacedYearIsLatest`
says exactly when.

**Parameters and headers (`Percent`, `Parameters`, `FormStyles`, `FormBodies`, `FormBodyLaws`, `SimpleStyle`).** The
percent-encoder, the `form`, delimited and `deepObject` styles, form bodies with overflow members, and the `simple`
style with the header parser that inverts it. `FormStyles` says when a joined array is told from its data: always
under `form` without reserved expansion, and in the delimited styles only when no item holds the delimiter.

**Pagination (`LinkSplitting`, `Links`, `LinkRelations`, `LinkFields`, `Pagination`).** The quote- and angle-aware splitter as the
unique split at the delimiters that count, the `Link` entry parser, what it reads of well-formed values with white
space wherever some may stand, and the
paginator against any server. Section 3.3 of RFC 8288 lets only an entry's first `rel` count; the code takes any.

**Base64 (`Base64`, `Base64Values`), the dot-segment guard (`UrlPaths`, `DotSegments`), doc comments (`Rustdoc`,
`DocLines`).** A codec with its exact acceptance condition and the number its text stands for; the guard against the
URL Standard's path normalization, which `UrlPaths` defines by itself; and the normalizer, which is idempotent on
lines always and on texts exactly when `Rustdoc.Stable` holds of the text's lines, with what it makes of each kind of
line.

`Sequences` and `Arithmetic` hold what they share: options, bytes, splitting and joining, and division.

## Model

| member | source | states |
|---|---|---|
| Chunking.FrameChunks | support-runtime/src/stream.rs:585-756 | for each framing and every list of chunks, draining after each chunk and once at the end of the body yields exactly the frames of the concatenated body |
| Chunking.DrainChunk | support-runtime/src/stream.rs:263-291 | draining after a chunk hands over every frame that what has arrived completes, and what is left still accounts for the rest of the body whatever follows |
| Chunking.DrainEnd | support-runtime/src/stream.rs:263-291 | draining at the end of the body completes the body's frames, tail included |
| Chunking.QuietAccounts | support-runtime/src/stream.rs:273-276 | once nothing more frames, the frames handed over are all that the bytes received complete, and the buffer holds exactly the item in progress |
| FrameBuffers.FrameBuffer.NextFrame | support-runtime/src/stream.rs:585-594 | one call hands over exactly the first frame left under every continuation of the body, leaves a quiet (or, at the end, empty) buffer when there is none, and keeps the search linear |
| FrameBuffers.FrameBuffer.NdjsonNext | support-runtime/src/stream.rs:608-629 | the same for newline-delimited JSON, blank lines framing nothing |
| FrameBuffers.FrameBuffer.JsonSequenceNext | support-runtime/src/stream.rs:634-663 | the same for RFC 7464 records: bytes before the first separator and empty records frame nothing |
| FrameBuffers.FrameBuffer.SseNext | support-runtime/src/stream.rs:705-750 | the same for events, lines read into the event in progress across calls |
| FrameBuffers.FrameBuffer.SseEventStep | support-runtime/src/stream.rs:706-749 | one event, terminated or at the end of the body, is handed over or skipped as the remaining body frames it |
| FrameBuffers.FrameBuffer.ReadEventLines | support-runtime/src/stream.rs:707-722 | the lines read so far and the bytes left frame what they framed before; a blank line or a held-back CR stops it |
| FrameBuffers.TakeLine | support-runtime/src/stream.rs:835-855 | a resumed search finds the line's end exactly when its ending has arrived complete, a final CR being held back, and says where to resume without skipping a terminator |
| FrameBuffers.SearchResumed | support-runtime/src/stream.rs:599-602 | a search resumed at `scanned` finds what a search from the start would |
| FrameBuffers.FrameBuffer.StripLeadingBom | support-runtime/src/stream.rs:574-579 | one byte order mark is stripped, the decision held open exactly while what has arrived is a proper prefix of it, and all search state restarts |
| FrameBuffers.FrameBuffer.Consume | support-runtime/src/stream.rs:566-569 | the front is split off, the rest stays, and the search restarts at it |
| FrameBuffers.FrameBuffer.TakeBytes | support-runtime/src/stream.rs:558-562 | every byte is handed over and nothing read from them stays |
| FrameBuffers.FrameBuffer.ExtendFromSlice | support-runtime/src/stream.rs:537-539 | a chunk is added behind what is held and no search offset is lost |
| Resumption.LinesStep | support-runtime/src/stream.rs:841-855 | cutting a complete line off the front of a text leaves the lines of the rest, whichever of the three endings it had and whatever follows |
| Resumption.TailTaken | support-runtime/src/stream.rs:729-743 | at the end of the body the unterminated rest is one more line, and the event in progress is dispatched |
| Resumption.RecordTaken | support-runtime/src/stream.rs:640-659 | the record up to the next separator is the first one left, whatever follows |
| Resumption.QuietFramesNothing | support-runtime/src/stream.rs:585-594 | a quiet buffer frames nothing of what has arrived |
| Resumption.QuietIsInProgress | support-runtime/src/stream.rs:273-276 | what a quiet buffer holds is the item in progress and nothing else |
| EventLines.EveryLineIsOne | support-runtime/src/stream.rs:752-768 | every line that is not blank is a comment, a field with a colon and one space behind it or none, or a bare name |
| EventLines.LineReads | support-runtime/src/stream.rs:752-782 | a line in any of those forms sets what it says: one space behind the colon is no part of the value, a bare name has the empty one, comments and unknown names set nothing, an id with NUL and a retry that is no number are ignored, and a retry past 64 bits leaves none |
| EventLines.LinesRead | support-runtime/src/stream.rs:752-782 | the lines of an event read as the values of its data lines, each with LF behind it, its last event name, its last id without NUL and its last numeric retry |
| EventLines.EventReads | support-runtime/src/stream.rs:784-831 | those lines dispatch the data joined by LF in each of the three event framings, metadata where there is no data, and the end of the stream at `[DONE]` |
| WrittenBodies.WrittenEventsFrame | support-runtime/src/stream.rs:705-855 | a body of events whatever lines they hold and whichever of the three endings each line has frames as those events, up to the sentinel, an unterminated last one included; one byte order mark ahead of it is no part of it |
| WrittenBodies.WrittenEventsArrive | support-runtime/src/stream.rs:705-728 | while such a body goes on, the events that a blank line ends are framed, and nothing behind them |
| WrittenBodies.WrittenLinesFrame | support-runtime/src/stream.rs:606-629 | texts written one a line, ended by LF or CR LF, come back as they are, blank lines aside, with or without a last ending; while the body goes on, those that are ended |
| WrittenBodies.WrittenRecordsFrame | support-runtime/src/stream.rs:631-662 | texts written as records come back as they are, white space around them, empty records and what precedes the first separator aside; while the body goes on, those that another separator ends (section 2 of RFC 7464) |
| FramingLaws.FramesStand | support-runtime/src/stream.rs:585-756 | the frames of what has arrived are the first frames of every body it may grow into |
| FramingLaws.UpToDoneExactly | support-runtime/src/stream.rs:283-288 | the frames are cut behind the first that ends the stream and nowhere else |
| FramingLaws.SplitKeepsParts | support-runtime/src/stream.rs:608-629 | parts cut off stay as they are whatever is appended |
| FramingLaws.CurrentConnectionFramesItsBytes | support-runtime/src/stream.rs:260-303 | at every point of a faithful run the current connection has handed over only frames of its own bytes |
| Runs.FaithfulRunsFramePerConnection | support-runtime/src/stream.rs:260-363 | over a whole run the frames handed over are, connection by connection, exactly those of the connection's bytes: none spans two connections, none is lost or repeated |
| Runs.ItemsAreItemFrames | support-runtime/src/stream.rs:265-274 | the items handed over are the item frames in order, each decoded exactly when it decodes |
| Runs.EventsInOrder | support-runtime/src/stream.rs:293-359 | a connection is opened only by a request sent again, that only follows an accepted question, and that a connection's end or a failed reconnect; nothing follows an overflow, a declined question or the sentinel |
| RunLaws.RequestsReplay | support-runtime/src/stream.rs:436-456 | a reconnect sends the id of the last frame that carried one, or none where that is empty or no header can hold it; without any such frame it sends what the original request did, unless that reads as an empty or unsendable text |
| RunLaws.QuestionsCount | support-runtime/src/stream.rs:397-416 | the policy is told how many reconnects it accepted since the last decoded item, saturated at 32 bits |
| RunLaws.QuestionsTellDelay | support-runtime/src/stream.rs:386-393 | the policy is told the delay of the last frame that carried one, and none without |
| RunLaws.ConnectionReceives | support-runtime/src/stream.rs:300-353 | at every point the current connection is what the events since it was opened add up to: the bytes received in order, the frames handed over, its end |
| EventStreams.EventStream.PollNext | support-runtime/src/stream.rs:260-363 | keeps the run faithful and on the course to its outlook, yields exactly the run's new items, does some of the work there is left, is not ready only where the body, a wait or a reconnect was not, ends in `Done` with the poll that the script says it is to end with, and after that always returns `None` and changes nothing |
| EventStreams.EventStream.FrameStep | support-runtime/src/stream.rs:263-291 | frames ahead of the state are delivered first, an item in progress over the limit ends the stream, and a finished stream never frames again |
| EventStreams.EventStream.PollBody | support-runtime/src/stream.rs:293-318 | the body is asked once every complete frame is out and the item in progress is at most `max_frame` bytes; an end, a chunk, a failure and a body that is not ready each lead where a faithful run and its outlook go, with less left to do |
| EventStreams.EventStream.Take | support-runtime/src/stream.rs:300-306 | a chunk is what the body sends next, and goes into the buffer, stripped of a byte order mark that opens the body |
| EventStreams.EventStream.PollEof | support-runtime/src/stream.rs:319-324 | a clean end closes the connection with all its frames out, and asks the policy when there is one |
| EventStreams.EventStream.PollWaiting | support-runtime/src/stream.rs:325-339 | while it waits nothing else changes; then the request is sent again with the id that `RunLaws.RequestsReplay` tells, or the stream fails when it cannot be cloned |
| EventStreams.EventStream.PollConnecting | support-runtime/src/stream.rs:340-359 | while it connects nothing else changes; then a response opens a connection of its own with the mark pending, and a refusal asks the policy again |
| EventStreams.EventStream.Overflow | support-runtime/src/stream.rs:370-384 | the limit ends the stream without the policy, the error carries the held bytes capped, and the buffer is left empty |
| EventStreams.EventStream.ScheduleReconnect | support-runtime/src/stream.rs:397-428 | the policy sees the attempts since the last decoded item and the latest delay; declining ends the stream with the reason, accepting clears the buffer and counts one attempt, saturating |
| StreamLaws.StreamOverflowsExactly | support-runtime/src/stream.rs:273-291 | a stream is to end for its limit if and only if, before the frame that ends a stream, some chunk of some body leaves more than `max_frame` bytes in progress |
| StreamLaws.BodyReadsWhole | support-runtime/src/client.rs:30-41 | a body in which no chunk leaves too long an item counts as if it were read whole, however it is cut; any other ends the stream for its limit |
| StreamLaws.StreamDeliversAll | support-runtime/src/stream.rs:260-363 | where no chunk leaves too long an item, what is to be handed over is the frames of every body the script leads to, connection by connection up to the sentinel, and nothing overflows |
| StreamLaws.ShortItemsAllArrive | support-runtime/src/client.rs:30-41 | the same wherever no item is longer than the limit, whatever the length of the bodies and however they are cut |
| StreamLaws.CourseIsPrefix | support-runtime/src/stream.rs:260-363 | at every point a stream on course has handed over the first of the frames that it is to hand over |
| StreamLaws.OneBody | support-runtime/src/stream.rs:397-428 | without a policy a stream is to hand over the frames of its one body, whole when it ends cleanly and without its tail when it fails, and then to end with `None`, or with the failure |
| StreamLaws.StreamEndsAsLast | support-runtime/src/stream.rs:310-359 | where no body is too long or reaches the sentinel, a stream with a policy ends as its last attempt does: with `None` after a clean end, with the failure of the body or of the reconnect, or with that of a request that cannot be sent again |
| Scripts.Capped | support-runtime/src/stream.rs:370-383 | an over-limit item is reported with its first bytes, as many as the cap allows |
| StreamLaws.LimitedIsLong | support-runtime/src/stream.rs:275-283 | a run ends for its limit only when the one item in progress on the current connection is longer than `max_frame` |
| StreamLaws.PollAgain | support-runtime/src/stream.rs:260-363 | one more poll adds exactly its item, does some of the work left, and is either not the last or the one that the script ends with; a finished stream returns `None` |
| StreamLaws.Observe | support-runtime/src/stream.rs:187-363 | any number of polls yields the first of the items that the bodies and answers lead to; as many as there is work for yield all of them and then the poll that the script ends with, an overflow, a failure or `None`, and after that only `None` |
| Fingerprints.FingerprintIsInjective | spargen/src/cache.rs:43-64 | equal digested byte strings come from equal version, build, path, switches, caps, omit encoding and whole input lists |
| Fingerprints.FrameIsInjective | spargen/src/cache.rs:252-255 | length-framed fields cannot merge: equal framings have equal fields |
| Fingerprints.FeedFingerprint | spargen/src/cache.rs:43-64 | feeding the hasher field by field feeds exactly that byte string |
| Fingerprints.FingerprintSpelled | spargen/src/cache.rs:43-64 | the digested byte string is the format name, then version, build, path, switches and caps in their order and the omit profile, then each path and its bytes, each behind its length |
| Fingerprints.PrefixSpelled | spargen/src/cache.rs:45 | the format name is `spargen-build-input-v1` and a NUL |
| Fingerprints.BigEndianAt | spargen/src/cache.rs:252-255 | lengths and caps are written most significant byte first |
| Fingerprints.SortInputs | spargen/src/cache.rs:83-98 | under any order that may take several spellings for one path, the list is strictly increasing by path, and has of each path the first entry as it is spelled and read, the bundle's |
| Fingerprints.CanonicalIsUnique | spargen/src/cache.rs:83-98 | there is only one such list, so the digest does not depend on the order of reading |
| BuildCaches.VerifiedOutputAcceptsFinalized | spargen/src/cache.rs:161-187 | an output verifies exactly when it is a finalized module for that digest: every edit is noticed |
| BuildCaches.HeadersSpelled | spargen/src/cache.rs:161-167 | the two header lines open with `// input-sha256: ` and `// content-sha256: ` |
| BuildCaches.FreshModuleIsUnique | spargen/src/pipeline.rs:70-80 | given inputs determine what a loader reads and so the module rendered, however often the render loads them |
| BuildCaches.DigestIsInjective | spargen/src/cache.rs:40-64 | equal digests come from the same version, build, configuration and inputs |
| BuildCaches.RereadIsPinned | spargen/src/source/bundle.rs:292-366 | only a vendored document, whose bytes its pin fixes, is ever read again |
| BuildCaches.NextExactly | spargen/src/source/bundle.rs:95-140 | the loader reads the first document referred to that is still to be read, a vendored one with its pin, and is done, or refuses, once there is none |
| BuildCaches.SomeMachineIsSound | spargen/src/cache.rs:83-98 | there are a hash and a path order as the other results ask for, whatever is loaded and rendered |
| BuildLaws.LoadedDocuments | spargen/src/source/bundle.rs:292-366 | a load that finds the named bytes wherever a snapshot names some reads the snapshot's own documents, those read again included |
| BuildLaws.RenderReadsWhatTheDigestNames | spargen/src/pipeline.rs:70-104 | every load of a render between two snapshots of the same inputs read exactly the inputs their digest names, however files changed, unless the content of a named file came back from the one to the other |
| BuildLaws.AgreedIsBetween | spargen/src/pipeline.rs:70-102 | where a round finds the inputs as they were, every load of its render, the probes of auto-carving included, lies between two snapshots of them |
| BuildLaws.ContentThatComesBackGoesUnseen | spargen/src/pipeline.rs:89-119 | a build during whose render alone a document differs ends as `Generated` with a module that is not that of the inputs its digest names |
| BuildLaws.CachedOutputIsFresh | spargen/src/cache.rs:173-225 | an output that verifies against a truthful record is the fresh module of the digested inputs under the same version and configuration |
| BuildLaws.NamedWasRead | spargen/src/cache.rs:103-130 | a snapshot read what its digest names: a file's bytes, or the lock file's absence |
| BuildLaws.BuildIsSafe | spargen/src/pipeline.rs:15-126 | through edits, deletions, failed writes and being killed at any step, a module reused under a truthful record is the fresh one of inputs that the build read, and so is one written unless named content came back meanwhile; the record stays truthful |
| BuildLaws.NoStaleOutput | spargen/src/pipeline.rs:15-126 | the same over any number of builds under any versions and configurations that share one output and one record, up to a build that wrote while named content came back |
| BuildLaws.UnchangedRebuildIsCached | spargen/src/pipeline.rs:53-68 | a build that finds the inputs, the module and the record as an earlier one left them reuses the module |
| BuildEndings.SettledBuildEnds | spargen/src/pipeline.rs:70-119 | a build that misses the cache and finds its inputs changed in up to two rounds writes the module of the first round that finds them as they were: generated if and only if the writes it needs succeed, with the record naming that module, and crashed where it is killed ahead of one |
| BuildEndings.RejectedBuildEnds | spargen/src/pipeline.rs:70-88 | a build is rejected in the round whose audit fails or whose render rejects the inputs, and leaves the record as the world did |
| BuildEndings.RestlessBuildEnds | spargen/src/pipeline.rs:97-125 | inputs that change in three rounds end a build with an error |
| BuildEndings.HitEnds | spargen/src/pipeline.rs:53-68 | a verified output with its record is reused if its audit passes and rejected if it fails |
| BuildEndings.KilledAtHit | spargen/src/pipeline.rs:53-68 | a build killed while it looks at its cache crashed |
| BuildEndings.UnreadableInputsEnd | spargen/src/pipeline.rs:39-50 | inputs that cannot be read, a vendored document that is not the pinned one included, reject a build before it looks at its cache |
| BuildEndings.ShortBuildEnds | spargen/src/pipeline.rs:70-96 | a round with a load that fails, or with inputs that cannot be read again, rejects its build, and one that is killed crashed |
| BuildEndings.StillBuildEnds | spargen/src/pipeline.rs:15-126 | where the inputs stand still, a build that misses the cache is rejected if and only if its audit fails, and otherwise generated if and only if the writes it needs succeed |
| BuildEndings.GeneratedPassed | spargen/src/pipeline.rs:70-119 | whatever a build generates is the module of a round whose audit passed right behind its render, ahead of the reading that found the inputs as they were |
| CachedBuilds.CachedBuild.TakeSnapshot | spargen/src/cache.rs:103-130 | reading step by step ends as `BuildSteps.SnapshotAt` says, at the moment it says, and nothing but the world touches the record |
| CachedBuilds.CachedBuild.LoadBundle | spargen/src/source/bundle.rs:68-140 | the lock file and each document the loader asks for are read, one a moment, a vendored one against its pin, until it is complete, refuses or the build is killed |
| CachedBuilds.CachedBuild.RenderModule | spargen/src/pipeline.rs:315-410 | the bundle is loaded for every probe and for the run itself, each load at moments of its own, until there is a module, a rejection or the build is killed |
| CachedBuilds.CachedBuild.Hit | spargen/src/pipeline.rs:53-68 | the output and the record are compared as `BuildSteps.HitAt` says, and a hit is audited |
| CachedBuilds.CachedBuild.Store | spargen/src/pipeline.rs:104-119 | the module is written before the record, each unless its write fails or the build is killed, and the record names the module written |
| CachedBuilds.CachedBuild.Round | spargen/src/pipeline.rs:70-102 | render, audit and snapshot end the build, find the inputs changed, or agree, as `BuildSteps.RoundAt` says, of which `BuildEndings` tells the endings; nothing is written |
| CachedBuilds.CachedBuild.Generate | spargen/src/pipeline.rs:15-126 | a build ends, and leaves the record, as `BuildSteps.Built` says of what the world does meanwhile; a rejected or cached one leaves the output as the world has it; and it is safe: a module reused or written is the fresh one of inputs it read, under the condition `BuildLaws.IsSafe` states |
| CachedBuilds.RunBuilds | spargen/src/pipeline.rs:15-126 | of builds after each other each, as long as no build up to it wrote while named content came back, ends with the fresh module of inputs that it read, reused or written |
| Calendar.ClosedFormCountsDays | support-runtime/src/retry.rs:435-443 | the closed form equals the count of days by years and months since 1970-01-01, for every date |
| Calendar.DaysIncrease | support-runtime/src/retry.rs:435-443 | later dates have larger numbers |
| Calendar.NextDateIsOneMore | support-runtime/src/retry.rs:425-443 | the next date is one more, across months, years and leap days, and 1970-01-01 is 0 |
| Calendar.YearOfDayInverts | support-runtime/src/retry.rs:445-461 | the year of a date's day number is its year |
| HttpDates.NextSecondIsOneMore | support-runtime/src/retry.rs:404-410 | seconds count from the start of 1970, one for each second, across minutes, hours, days, months and years, a leap second as the next one |
| HttpDates.CurrentYearIsYear | support-runtime/src/retry.rs:373 | the current year is the year that the seconds are in |
| HttpDates.WrittenDatesParse | support-runtime/src/retry.rs:352-408 | a date written in any of the three forms parses to the seconds it names |
| HttpDates.ParsedDatesAreWritten | support-runtime/src/retry.rs:352-408 | whatever parses is a date written in one of the three forms, and parses to the seconds it names |
| HttpDates.PlacedYear | support-runtime/src/retry.rs:373-377 | the year ends in the two digits, lies in (current - 100, current + 50], and is the most recent past one exactly when this century's reading is over 50 years ahead (section 5.6.7 of RFC 9110) |
| HttpDates.PlacedYearIsLatest | support-runtime/src/retry.rs:348-351 | the year is the latest that ends so within 50 years ahead exactly when the digits plus 50 exceed the current year's last two |
| HttpDates.RetryAfterExactly | support-runtime/src/retry.rs:317-332 | blanks around it aside, the delay is a number of seconds, saturated at 64 bits, or the time until a date in one of the three forms, never negative |
| Percent.Encode | support-runtime/src/parameter.rs:132-169 | the look-ahead loop writes triples as they stand where they are kept, and each byte kept or as an upper-case triple |
| Percent.KeepsExactly | support-runtime/src/parameter.rs:171-218 | which ASCII characters each encoding writes as they are, one by one |
| Percent.KeepsAsciiOnly | support-runtime/src/parameter.rs:171-218 | no other byte is |
| Percent.TripleSpelled | support-runtime/src/parameter.rs:155-169 | any other byte is `%` and two upper-case hexadecimal digits |
| Percent.EncodesEachByte | support-runtime/src/parameter.rs:132-169 | outside reserved expansion each byte is written by itself |
| Percent.HexDigitsExactly | support-runtime/src/parameter.rs:146-154 | a triple that is kept has hexadecimal digits in either case |
| Percent.DecodeUndoesEncode | support-runtime/src/parameter.rs:132-218 | under `Unreserved` and `Form` decoding gives every value back |
| Percent.DecodeReadsLeniently | support-runtime/src/parameter.rs:132-218 | under `Reserved` and `ReservedPath` the output decodes to what a lenient decoding of the value gives |
| Percent.FixedExactlyWhenWellformed | support-runtime/src/parameter.rs:132-218 | encoding leaves exactly the values made of kept bytes and triples alone |
| Percent.EncodeIsIdempotent | support-runtime/src/parameter.rs:132-218 | under `Reserved` and `ReservedPath` encoding twice is encoding once |
| Percent.OutputHasNo | support-runtime/src/parameter.rs:171-218 | a byte the set does not keep never appears in the output, delimiters included |
| Percent.PathValuesStayInTheirSegment | support-runtime/src/parameter.rs:171-218 | under `Unreserved` and `ReservedPath` the output holds no `/`, `?` or `#` |
| Percent.JoinedValuesSplitBack | support-runtime/src/parameter.rs:610-619 | a non-empty array joined by commas under `Form` or `Unreserved` splits and decodes back to its values |
| FormBodies.SerializeFormBody | support-runtime/src/parameter.rs:451-482 | the body, split at `&` and the first `=` and percent-decoded, is exactly the pairs it is to carry, or the same refusal |
| FormBodies.BodyDecodes | support-runtime/src/parameter.rs:481 | joined fragments decode back to the pairs they carry, in order |
| FormBodies.DeclaredPairsAreFirstMembers | support-runtime/src/parameter.rs:468-472 | a pair is sent for the properties exactly when it is one of those that the first declared member of a property's name is sent as, in its mode |
| FormBodies.OverflowNeverStandsIn | support-runtime/src/parameter.rs:473-480 | a pair is sent for the overflow exactly when it is one of those of an overflow member whose name no property declares, and as text or JSON it never bears a declared name |
| FormBodyLaws.BodyInOrder | support-runtime/src/parameter.rs:451-482 | a body carries its declared members in the order of the properties, each the first of its name, then its overflow members in their own order; the overflow is the last members, as many as are said to be |
| FormBodyLaws.OnlyObjectsAreBodies | support-runtime/src/parameter.rs:462-464 | exactly a value that is no object is refused as no form body |
| FormStyles.StyleCarries | support-runtime/src/parameter.rs:307-396 | a value in the `form`, a delimited or the `deepObject` style is refused as its kind asks, or written as fragments that decode to exactly its pairs, delimiters included |
| FormStyles.JoinedArrayReads | support-runtime/src/parameter.rs:9-12 | a joined array, cut at the commas before it is decoded, comes back exactly when it is not empty and reserved expansion lets no comma of an item through |
| FormStyles.DelimitedArrayReads | support-runtime/src/parameter.rs:339-361 | a delimited array comes back exactly when it is not empty and no item holds the delimiter, which is written as a byte of data is |
| FormStyles.EncodedSpells | support-runtime/src/parameter.rs:24-40 | under the encodings of a query value the output decodes to what the value reads as, and holds no `&` and no `=` |
| FormBodies.PushFormMember | support-runtime/src/parameter.rs:512-539 | one member in any mode adds fragments that carry exactly the pairs it is to be sent as, null adds none, and what cannot be sent is refused |
| SimpleStyle.ArrayRoundTrip | support-runtime/src/header.rs:103-145 | an array of texts comes back through `simple` and the header parser exactly when it is not empty and holds no comma |
| SimpleStyle.SpreadArrayConcatenates | support-runtime/src/header.rs:103-125 | an array spread over several header lines parses as the concatenation of its lines' items |
| SimpleStyle.ObjectRoundTrip | support-runtime/src/header.rs:192-210 | an object with each key once comes back exactly when no key or text holds a comma and, exploded, no key holds `=` |
| SimpleStyle.ParseObject | support-runtime/src/header.rs:192-210 | the loop reads the members that the parts spell |
| SimpleStyle.ExplodedReads | support-runtime/src/header.rs:192-210 | an exploded header reads as its members, the later of two equal keys winning and a part without `=` dropped |
| SimpleStyle.FlatReads | support-runtime/src/header.rs:192-210 | a header of alternating keys and texts reads as those members, a last key without a text dropped |
| LinkSplitting.SplitIsSplit | support-runtime/src/paginate.rs:228-264 | the parts joined give the text back, none holds a delimiter that counts, and each but the last ends outside quotes and angles |
| LinkSplitting.SplitIsUnique | support-runtime/src/paginate.rs:228-264 | there is only one such split |
| LinkSplitting.SplitOutside | support-runtime/src/paginate.rs:234-264 | the loop over its flags computes that split; inside angles implies angles are respected and no quote is open |
| LinkRelations.WordsListNext | support-runtime/src/paginate.rs:288-296 | a value lists `next` exactly when those four letters, in either case, stand in it with white space or an end on both sides |
| LinkRelations.RelNameExactly | support-runtime/src/paginate.rs:285-287 | a parameter is a `rel` exactly when its name is those three letters, in either case |
| LinkFields.RenderedFieldsRead | support-runtime/src/paginate.rs:208-227 | well-formed values, with white space wherever some may stand, yield the reference of their first link with a `rel` that lists `next`, whatever quoted or unquoted parameters and entries without a reference stand around it |
| LinkFields.EntryReads | support-runtime/src/paginate.rs:266-298 | a rendered entry reads back as its reference and whether a `rel` of it lists `next`; without a reference, or with an empty one, it is none |
| LinkFields.ParametersSplit | support-runtime/src/paginate.rs:277-281 | rendered parameters are cut apart exactly, delimiters and escaped quotes in their values notwithstanding |
| Links.ParseLinkEntry | support-runtime/src/paginate.rs:268-298 | an entry without a bracketed reference is none; otherwise it is `next` exactly when some parameter is a `rel` that lists it |
| Links.NextLinkTarget | support-runtime/src/paginate.rs:215-227 | the first entry over all readable header values that names `next` decides |
| Pagination.LinkPaginator.NextPage | support-runtime/src/paginate.rs:152-170 | the requests made are the distinct URLs of the orbit of the first, in order, fragments aside; a revisit is a cycle and not requested; an error disarms for good |
| Pagination.LinkPaginator.HandleResponse | support-runtime/src/paginate.rs:175-200 | an unsuccessful status and a body that does not decode are errors that arm nothing; otherwise the next URL is the reference that the `Link` values name, resolved against the URL fetched |
| Pagination.RenderedPageLinks | support-runtime/src/paginate.rs:189-191 | a page with well-formed values links on to the reference of its first link that names `next` |
| Pagination.FollowAll | support-runtime/src/paginate.rs:84-201 | against any server over finitely many URLs the chain ends after at most that many requests: exhausted, at the first revisit, or at the first page that fails |
| Base64.Encode | support-runtime/src/base64.rs:64-81 | the loop over three-byte groups writes the padded text |
| Base64.Decode | support-runtime/src/base64.rs:98-124 | the loop over four-letter groups reads the bytes, or refuses on a foreign byte or wrong padding |
| Base64.DecodeUndoesEncode | support-runtime/src/base64.rs:64-124 | every byte string comes back from its padded text, whose length is a multiple of four, and from it without padding |
| Base64.AcceptsExactly | support-runtime/src/base64.rs:96-111 | the accepted texts are exactly letters, not 1 mod 4 of them, then padding that is absent or completes the quantum |
| Base64.ReencodesWhenCanonical | support-runtime/src/base64.rs:98-124 | an accepted text re-encodes to itself exactly when it is padded and its spare bits are zero |
| Base64Values.TextSpellsBytes | support-runtime/src/base64.rs:64-81 | the text has six bits a letter, which spell the number that the bytes spell, zero bits filling up the last; each letter is its place in the alphabet, and `=` fills up the last four |
| DotSegments.DotSegmentExactly | support-runtime/src/dispatch.rs:66-97 | the guard's test holds of exactly the URL Standard's spellings of `.` and `..`, read as the parser strips them |
| DotSegments.NormalizeFixesExactly | support-runtime/src/dispatch.rs:49-53 | path normalization leaves segments as they are exactly when none is a dot segment |
| DotSegments.GuardIsExact | support-runtime/src/dispatch.rs:31-64 | a path is accepted exactly when URL normalization keeps the segments of the base and the request, all and in order, slashes between them counting as one; and what is sent is read as those segments |
| Rustdoc.NormalizeRustdoc | spargen/src/codegen/docs.rs:52-127 | the walk over the lines computes the normalized text |
| DocLines.ItemExactly | spargen/src/codegen/docs.rs:59-79 | a line starts an item exactly when spaces, a bullet or a number with `.` or `)`, and spaces stand ahead of its content, at the column where that stands |
| DocLines.LineOutsideFence | spargen/src/codegen/docs.rs:85-124 | outside a fence a line opens one, ends what is continued, starts a quote or an item, or is put behind `> ` or moved to the item's column, as its first characters say |
| DocLines.LineInsideFence | spargen/src/codegen/docs.rs:85-103 | inside a fence every line is left as it is, and only one with the fence's own mark ends it |
| DocLines.LinesNormalize | spargen/src/codegen/docs.rs:80-127 | each line is changed in the state that the lines before it lead to |
| DocLines.TextNormalizes | spargen/src/codegen/docs.rs:80-127 | a text of lines ended by LF or CR LF becomes those lines, each so changed, with LF between them |
| DocLines.TabsExpand | spargen/src/codegen/docs.rs:80 | every tab becomes four spaces, and nothing else changes |
| Rustdoc.EmittedIsExplicit | spargen/src/codegen/docs.rs:85-124 | a line is rewritten exactly when it is a lazy continuation or blank, into one that stands at the item's column, is quoted or is empty, and leaves the fence and continuation that the written line does |
| Rustdoc.NormalizedLines | spargen/src/codegen/docs.rs:52-127 | no line is added or lost, both passes read each line in the same state, fenced lines stay verbatim, and every line of the result says where it belongs |
| Rustdoc.FixedExactlyWhenExplicit | spargen/src/codegen/docs.rs:40-51 | normalization leaves a list of lines alone exactly when every line is explicit |
| Rustdoc.NormalizedIsIdempotent | spargen/src/codegen/docs.rs:52-127 | on lines, normalizing twice is normalizing once |
| Rustdoc.TwiceIsOnceExactly | spargen/src/codegen/docs.rs:81-126 | on texts it is so exactly when no line but the last ends in CR and the last of several is neither empty nor blanked |
| Rustdoc.TwiceIsNotAlwaysOnce | spargen/src/codegen/docs.rs:81-126 | two line feeds lose one on each pass |

## Left out

- Chunk independence is stated for the framer, and for the stream where no item is too long: whether a long item overflows `max_frame` depends on chunking by design (`support-runtime/src/client.rs:33-39`).
- Ids, event names and data stay bytes: the lossy UTF-8 reading of them and the JSON text of the event envelope are not modelled; a framed event is a structured payload.
- Whether a payload decodes is a parameter; serde, XML and the errors' status, headers and messages are left out.
- Bodies, waits, reconnects and policy answers are scripts; wakers, futures, threads, the network and `wasm32` branches are left out.
- The bodies of the framers', the stream's and the build's longer loops are methods of their own (`NdjsonLine`, `JsonRecord`, `SseEventStep`, `FrameStep`, `Round` and the like), which the source writes inline.
- The cache record's diagnostics, truncation, requirements and format number are left out, as are Cargo directives and what an audit finds; an audit passes or fails as the world decides.
- SHA-256 is an injective function with values that are lines of text; which documents a loaded one refers to and what a render makes of its bundles, the choices of auto-carving included, are functions of what they are given to read.
- A vendored document that does not match its pin ends the load at once, where the source reads on before it refuses.
- The order of paths is abstract; in builds every path has one spelling, so that a file is looked up as it is named. The standard library's stable sort is the stable insertion order.
- A write either happens whole or not at all, which is what the source's temporary-file rename is for.
- The omit profile's encoding is opaque bytes.
- A build takes one step for each file it reads and one for each thing it does; the order of reading within the loader is the loader's, a function of what it has read.
- Seconds and years are unbounded integers: the overflow of 64-bit arithmetic for a clock near its end is not modelled.
- Dates and `Link` values are sequences of characters, one per byte; slicing at a character boundary inside other text is not modelled.
- `exponential_backoff`, the retry loop, middleware and error classification are left out.
- The matrix, label and multipart styles are left out; number and JSON text are opaque, delimiter-free or encoded strings.
- A form body's style is given one of the encodings that generated code gives it (`spargen/src/codegen/params.rs:38-40`) or `Unreserved`; under the others data may hold a delimiter.
- Header values' second reading as numbers or JSON, cookie and JSON header shapes, absent headers and header values that are no text, are left out.
- FollowAll: whether a body decodes and how a reference resolves against a URL are functions.
- Base64 groups are sums of shifted parts, equal to the source's bitwise or because the parts do not overlap.
- URL parsing beyond the path's segments (other percent-encoding, queries, non-special schemes, `file` drive letters) is left out; the base is a path a URL parser has already read.
- The doc comment's paragraphs and attribute tokens are left out; only the normalizer is modelled.
