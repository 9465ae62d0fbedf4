# Verified models of the replay engine, the video reader, the torque limiters and the car recognition

The project models five parts of the repository and proves what they are for. Each `.dfy` file holds one module. Methods
with loops and classes with fields follow the code; what they do is tied to functions over values, and the main results are
lemmas about those functions for all inputs, all runs or all interleavings.

## What is modelled

**The replay engine** (`tools/replay`). `ReplayEngine` is a state machine over the atomic steps of the main thread, the stream
thread, the camera threads and the segment workers, with `stream_lock_`, the slots of `segments_`, every segment object ever
made (freed or not), `merged_segments_`, `events_` with an identity for its buffer, the camera queues with `publishing_`, and
the queue of `loadFinished` signals, each with the object that sent it. A step relation `Next` says what each step does and
`Enabled` when the source can take it; a queued signal is delivered whether or not its sender still exists, and reading a sender
that is gone leaves the main thread `Broken`. `ReplaySafety` holds the inductive invariant `Inv` and its preservation, one lemma
for each kind of step; `ReplayRuns` draws the results for every reachable state, among them that a thread which is not broken is
never stuck; `ReplayPublishing` says what a stretch of the stream publishes, with a history of what was handed out;
`ReplayControl` says which segment is loaded next, what is merged, where a seek goes on, and when nothing is published;
`ReplayExample` is one run up to a frame in the hands of a camera thread; `ReplayFailures` is about segments that fail.
`ReplayEvents` is the load of one log and the merge of several, `CacheWindow` the window of segments, `SegmentLoad` the start and
the end of the loading jobs of one segment, and `MonotonicBuffer` the arena that filtered logs live in.

**The video reading stack** (`tools/lib`). `UrlFile` is the chunk cache over a remote file, `ExpGolomb` the ue(v) decoder (clause
9.2 of ITU-T H.265), `HevcIndex` the scan of a byte stream into units (Annex B and clause 7.3.1.2), and `GopReader` the lookup
of groups of pictures and the LRU cache of frames.

**The torque limiters** (`selfdrive/car`). `SteeringLimits` models both limiters over the reals with Python's rounding, and whole
runs of them; `FaultAvoidance` the cutting of the request bit; `ChryslerController` the steering part of one controller with its
lockout.

**Recognition and diagnostics** (`selfdrive/car`). `CanFingerprint` is the elimination by CAN traffic, `FwMatch` the exact and the
fuzzy match of firmware versions, `IsoTpQuery` the parallel request loop with its timeouts.

**The history view** (`tools/cabana`). `HistoryLog` is the paged, filtered list of a message's events.

`Helpers` holds what several modules share.

## Where the code does less than it seems to

Each of these is proved as an exact condition, for all inputs, with a lemma at an input that fails.

- The slot for a failed load dereferences its sender. That is safe exactly if the sender is still in its slot when the signal
  is delivered (`ReplayRuns.EveryAccessIsSafe`); a seek between the failure and the delivery frees it
  (`ReplayFailures.SenderIsLost`).
- The outcome of a load is announced exactly when some job is still open at the moment the replay connects to the signal
  (`SegmentLoad.OutcomeIsAnnounced`, `SegmentLoad.OutcomeCanBeLost`). A failure that is not announced stays in its slot, never
  loads, and blocks the scan for as long as the window holds it (`ReplayFailures.SilentForEver`,
  `ReplayFailures.ScanStopsThere`, `ReplayFailures.FailureGoesUnnoticed`).
- A remote file whose length is one more than a multiple of the chunk size loses its last byte in cached reads, and uncached
  reads of exactly one byte yield nothing (`UrlFile.CachedReadIsExact`, `UrlFile.LastByteIsLost`, `UrlFile.UncachedReadIsExact`,
  `UrlFile.OneByteIsLost`).
- A frame can be read exactly when fewer than 64 frames of its group follow it, whatever was read before
  (`GopReader.ReadableFrames`, `GopReader.GroupOf65`).
- The driver torque limiter treats left and right alike except from a torque of exactly zero with `STEER_DELTA_DOWN` below
  `STEER_DELTA_UP` (`SteeringLimits.MirrorExactlyWhen`, `SteeringLimits.MirrorFails`).
- A limit of zero mismatching frames switches the fault avoidance off, unless the limit of frames above is zero as well, when
  every faulting frame is cut (`FaultAvoidance.CutsExactlyWhen`, `FaultAvoidance.NothingCutWithoutMismatch`,
  `FaultAvoidance.BothZero`).
- A firmware version that stands twice in the entries of one and the same car does not identify that car
  (`FwMatch.IdentifiesExactlyWhen`, `FwMatch.HiddenByItself`).
- `canFetchMore` asks for an older event, not for an older match: it agrees with there being an older match exactly if there is
  one or the first event passes the filter (`HistoryLog.HistoryLogModel.CanFetchMore`, `HistoryLog.MoreInVain`).
- An address that timed out or failed is still listened to while others are open, and can still get a result
  (`IsoTpQuery.ResultIsLastCompletion`, `IsoTpQuery.ResultAfterTimeout`).

The comment on coded slice segments in `tools/lib/vidindex.py` goes up to the reserved type 23, the code stops at type 21; the
model follows the code.

## Model

| member | source | states |
|---|---|---|
| ReplayRuns.MergedSegmentsAreLoaded | tools/replay/replay.cc:315-353 | in every interleaving, every number in `merged_segments_` names a present, non-null, fully loaded segment that has not been freed and whose log is not empty |
| ReplayRuns.EventsAreTheMergedLogs | tools/replay/replay.cc:330-351 | in every interleaving, `events_` is sorted and holds each event exactly as often as the logs of the merged segments do, for the kinds with a socket at the merge |
| ReplayRuns.EventsAreAlive | tools/replay/replay.cc:333-351 | the memory of every event in `events_` is owned by a loaded merged segment that is not freed |
| ReplayRuns.EveryAccessIsSafe | tools/replay/replay.cc:262-295 | in every reachable state, what the next step reads through pointers taken earlier (the sender of a failure, segments, events, frame readers, the camera server) is still there if and only if the step is not the delivery of a failure whose sender has left its slot |
| ReplayFailures.SenderIsLost | tools/replay/replay.cc:262-267 | a run in which a segment fails, a seek frees it before its signal is delivered, and the delivery reads a sender that is gone |
| ReplayFailures.SilentExactlyWhen | tools/replay/replay.cc:302-303 | a failed segment whose jobs are over is silent if and only if no job was open at the connection |
| ReplayFailures.SilentForEver | tools/replay/replay.cc:262-313 | in every run from there on, until the window moves away or the replay stops, a silent failure stays in its slot, is never loaded, and no signal of it is queued |
| ReplayFailures.SilentStays | tools/replay/replay.cc:262-313 | no single step of any thread but freeing that slot or stopping removes or changes a silent failure |
| ReplayFailures.ScanStopsThere | tools/replay/replay.cc:298-307 | a held segment that is not loaded stops the scan: what is behind it in the scan order is never started |
| ReplayFailures.FailureGoesUnnoticed | tools/replay/replay.cc:302-303 | a run to a silent failure |
| ReplayRuns.StreamAccessIsSafe | tools/replay/replay.cc:410-482 | the event data, the segment of a frame and the event after the loop that the stream thread reads are alive |
| ReplayRuns.CameraAccessIsSafe | tools/replay/camera.cc:62-89 | the event and the frame reader a camera thread works with belong to the current `events_` and to a live segment |
| ReplayRuns.PublishingCountsOutstanding | tools/replay/camera.cc:106-123 | `publishing_` is the number of queued and in-process frames, ahead by one exactly between the increment and the push |
| ReplayRuns.NothingOutstandingWhileUnlocked | tools/replay/replay.cc:464-469 | whenever the stream thread does not hold the lock no frame is outstanding, and all that was pushed has been handled, in order |
| ReplayRuns.FramesAreSentInOrder | tools/replay/camera.cc:62-89 | at all times a camera thread has handled a prefix of what was pushed to it and the rest is waiting, in order |
| ReplayRuns.WaitForSentEnds | tools/replay/camera.cc:119-123 | while `waitForSent` waits some camera thread can take a step, and every step a camera thread can take lowers a bound on the steps left |
| ReplayRuns.MemoryIsBounded | tools/replay/replay.cc:286-288 | never more than the cache limit plus one segments are held, and between updates never more than the limit |
| ReplayRuns.UpdateLeavesOnlyTheWindow | tools/replay/replay.cc:274-295 | when an update ends, the window has exactly min(limit, n) segments and holds the current one, which is not null; only window segments are held or merged; at most one load was started |
| ReplayRuns.StreamIsNeverStuck | tools/replay/replay.cc:447-530 | in every reachable state the stream thread can take a step unless it waits for events or frames or has ended: no index it holds is out of range |
| ReplayRuns.MainIsNeverStuck | tools/replay/replay.cc:96-129 | in every reachable state the main thread can take a step unless it waits for the lock or for the stream thread to end, or is broken; idle with a signal queued, it can deliver that signal |
| ReplayPublishing.StretchIsComplete | tools/replay/replay.cc:447-527 | in every run, from the choice of the first event to the end of the events with nobody pausing, exactly the events behind the time and kind of the replay whose kind has a socket at their turn are handed out, in order, each once, messages to `publishMessage` and frames to `publishFrame`; each camera gets exactly its frames; the clock ends at the last event handed out |
| ReplayPublishing.UpperBoundIsFirstBehind | tools/replay/replay.cc:456-457 | what is chosen first is the first event behind the time and kind of the replay |
| ReplayControl.NextToLoadExactly | tools/replay/replay.cc:298-307 | the scan finds slot n if and only if n is empty and everything in front of it in the order is held and was seen loaded |
| ReplayControl.ForwardLoadsNext | tools/replay/replay.cc:297-313 | in every run the forward scan makes exactly one object, for the first slot that is no segment seen loaded, if that slot is empty, and otherwise none, and the reverse scan comes next |
| ReplayControl.ReverseLoadsNext | tools/replay/replay.cc:309-313 | in every run the reverse scan, which comes only if the forward one made nothing, makes exactly one object for the first such slot, or none |
| ReplayControl.UpdateOpensInOrder | tools/replay/replay.cc:274-284 | the current segment is the first one at or behind the position; the forward order is the window from it on, ascending, the reverse order the rest, descending; without such a segment nothing is done |
| ReplayControl.UpdateMergesSeen | tools/replay/replay.cc:315-353 | when an update ends, whatever the other threads did, exactly the segments of the window that were seen loaded are merged |
| ReplayControl.UpdateFollows | tools/replay/replay.cc:262-274 | after a delivered signal, a seek or a request for an update, the main thread does not come to rest before it has gone through an update |
| ReplayControl.MergeFollows | tools/replay/replay.cc:281-290 | an update that has opened its window does not end before it has come to the merge for that window |
| ReplayControl.SeekMoves | tools/replay/replay.cc:106-129 | a seek to a target in a segment of the route and not behind its end sets the clock to the start of the route plus the target, the position to its segment, and waits; any other target changes nothing but lets the stream go on |
| ReplayControl.SeekSelectsTarget | tools/replay/replay.cc:106-129 | after such a seek, and before another one, the next batch begins with the first event behind the target, whatever is merged in between |
| ReplayControl.SeekHolds | tools/replay/replay.cc:106-144 | from such a seek on no batch begins before the seek is done, unless another seek comes or a failed segment is erased |
| ReplayControl.SeekEnds | tools/replay/replay.cc:131-144 | a pending seek ends exactly when its segment is seen loaded |
| ReplayControl.ReadyAfterSwap | tools/replay/replay.cc:346-351 | after a merge the stream may go on if and only if no seek is pending and the current segment is merged or not in the route |
| ReplayControl.PauseHolds | tools/replay/replay.cc:242-252 | from the moment a pause takes effect until the user ends it no batch begins, whatever is sought, loaded or merged |
| ReplayControl.PositionIsOfEvent | tools/replay/replay.cc:488-497 | in every reachable state in which the stream thread works on an event, the current segment is the one of 60 seconds the time of the event falls into |
| ReplayControl.EraseRemoves | tools/replay/replay.cc:262-272 | erasing a failed segment removes its slot, frees its object and no other, and lets the stream go on if and only if a segment is left |
| ReplayControl.StreamStarts | tools/replay/replay.cc:355-401 | the stream starts with the first event of the current segment as the start of the route, the clock moved by that time less one, modulo 2^64, and a camera thread for exactly the cameras the segment has pictures of |
| ReplayControl.ThreadsExactly | tools/replay/camera.cc:44-60 | in every reachable state, while the camera server runs and is not just being restarted, exactly the cameras of known size have a thread |
| ReplayExample.FrameOutstandingWhileSeeking | tools/replay/replay.cc:96-129 | a run in which a camera thread works on a frame of a merged segment while a seek waits for the lock |
| ReplaySafety.InvReaches | tools/replay/replay.cc:96-129 | the invariant linking segments, events, queues, counter and lock holds in every reachable state |
| ReplaySafety.InvStep | tools/replay/replay.cc:262-353 | every step of every thread keeps the invariant |
| ReplaySafety.SwapKeeps | tools/replay/replay.cc:346-351 | swapping the events and the merged set under the lock keeps the invariant |
| ReplaySafety.DeliverKeeps | tools/replay/replay.cc:262-272 | delivering a queued signal keeps the invariant, whether or not the sender lives; a segment about to be erased is held, has announced a failure and is not merged |
| ReplaySafety.EraseKeeps | tools/replay/replay.cc:262-272 | erasing a failed segment under the lock keeps the store and the main thread's part of the invariant |
| ReplaySafety.FreeOneKeeps | tools/replay/replay.cc:286-288 | freeing a segment outside the window keeps the store, as it is not merged any more |
| ReplaySafety.LoadForwardKeeps | tools/replay/replay.cc:297-313 | the forward scan starts at most one load and keeps the invariant; which one is `ReplayControl.ForwardLoadsNext` |
| ReplaySafety.LoadReverseKeeps | tools/replay/replay.cc:309-313 | the reverse scan starts a load only if the forward one did not, and keeps the invariant; which one is `ReplayControl.ReverseLoadsNext` |
| ReplaySafety.StreamKeeps | tools/replay/replay.cc:447-527 | every step of the stream thread keeps the invariant; what it publishes is `ReplayPublishing.StretchIsComplete` |
| ReplaySafety.CameraKeeps | tools/replay/camera.cc:62-89 | every step of a camera thread keeps the invariant |
| ReplaySafety.RestartKeeps | tools/replay/camera.cc:44-60 | restarting the server after a change of size leaves every camera of known size with a thread |
| ReplayEvents.Load | tools/replay/logreader.cc:19-61 | a load succeeds exactly when it is not aborted and some packet passes the filters; it yields, sorted, each event as often as it is the message of a packet that passes, with its time and the number -1, or the frame of a full index that passes, with the time of the frame or, if that is zero, of the message |
| ReplayEvents.MergeSegments | tools/replay/replay.cc:330-340 | the merge loop yields a sorted sequence with exactly the socket-enabled events of the logs |
| ReplayEvents.MergeAllIsExact | tools/replay/replay.cc:333-340 | merging sorted logs one after the other is sorted, and counts every event as often as the logs do if its kind has a socket, else not at all |
| ReplayEvents.MergeAllIsStable | tools/replay/replay.cc:339-339 | events that tie in time and kind keep the order of their segments and of their logs |
| ReplayEvents.WithSocketProperties | tools/replay/replay.cc:337-338 | the copy keeps exactly the events with a socket, and order |
| ReplayEvents.UpperBound | tools/replay/replay.cc:456-457 | the stream goes on at the first event after the current time and kind |
| CacheWindow.WindowHolds | tools/replay/replay.cc:274-281 | the window has exactly min(limit, n) of the route's segments, among them the current one |
| CacheWindow.WindowIsCentred | tools/replay/replay.cc:278-281 | the window starts limit / 2 segments before the current one unless it touches an end of the route |
| CacheWindow.WindowIsContiguous | tools/replay/replay.cc:278-281 | no segment of the route between two window segments is outside |
| CacheWindow.WindowOf | tools/replay/replay.cc:278-281 | the iterators computed stay in range and span min(limit, n) segments around the current one |
| CacheWindow.LowerBoundFinds | tools/replay/replay.cc:275-276 | the current segment is found if the route has it |
| SegmentLoad.IsLoadedIsExact | tools/replay/route.h:71-71 | in every interleaving of the workers, after the constructor, `isLoaded` holds exactly when every job has passed its decrement and none has failed |
| SegmentLoad.LoadedIsStable | tools/replay/route.cc:166-185 | what reads as loaded stays loaded, and what was announced as failed never reads as loaded |
| SegmentLoad.OutcomeIsAnnounced | tools/replay/route.cc:166-185 | the replay is told the outcome exactly when some job was open at the connection, and what it is told last is right |
| SegmentLoad.OutcomeCanBeLost | tools/replay/replay.cc:302-303 | a run of one file that loads without the replay being told |
| MonotonicBuffer.Buffer.AllocateBlock | tools/replay/util.cc:351-364 | allocates as the value-level step does, keeps the invariant on all blocks handed out, and keeps all earlier buffers |
| MonotonicBuffer.BlocksAreGood | tools/replay/util.cc:351-364 | over any sequence of allocations, all blocks are aligned and sized as asked for, inside one owned buffer each, and pairwise disjoint |
| MonotonicBuffer.RunExtends | tools/replay/util.h:24-37 | earlier buffers and blocks stay as they are when more is allocated |
| MonotonicBuffer.AllocateOk | tools/replay/util.cc:351-364 | one allocation keeps the invariant, whichever branch it takes |
| MonotonicBuffer.AlignUpIsFirst | tools/replay/util.cc:353-353 | a block starts at the first aligned address that is free |
| MonotonicBuffer.BufferExactlyWhen | tools/replay/util.cc:353-359 | a buffer is added if and only if no aligned block of the size asked for lies in the free rest; if one does, the first one is taken |
| MonotonicBuffer.RunSizesGrow | tools/replay/util.cc:354-358 | in any run each buffer is half as large again as the one before it, or as large as a single block that needs more |
| UrlFile.URLFile.CachedRead | tools/lib/url_file.py:89-119 | a cached read yields the requested part of the file, without a limit all that is left, short of a last byte that is lost, and moves to its end, whatever chunks were cached before; it keeps every cached chunk right |
| UrlFile.URLFile.ReadAux | tools/lib/url_file.py:121-154 | the bytes of a ranged request, with the early return on a remainder of one byte |
| UrlFile.URLFile.Read | tools/lib/url_file.py:89-119 | a cached read yields the part of the file asked for, or all that is left, without its last byte exactly if the file leaves a last chunk of one byte and the read gets there; an uncached one yields it except if it would be exactly one byte; both with the arithmetic written out |
| UrlFile.CachedSpelledOut | tools/lib/url_file.py:89-119 | what a read of the served file is, in terms of the remote file alone, with and without a limit |
| UrlFile.DownloadSpelledOut | tools/lib/url_file.py:121-154 | what an uncached read is, in terms of the remote file alone, with and without a limit |
| UrlFile.URLFile.GetLength | tools/lib/url_file.py:72-87 | the remote length, from the field, the file or the network |
| UrlFile.URLFile.RunAll | tools/lib/url_file.py:89-157 | any run of seeks and reads, with or without a limit, through any partly filled cache yields what the served file, read as a byte string, yields |
| UrlFile.CachedReadIsExact | tools/lib/url_file.py:121-131 | a cached read is exact if and only if it does not reach the last byte of a file that leaves a last chunk of one byte |
| UrlFile.UncachedReadIsExact | tools/lib/url_file.py:124-131 | an uncached read with a limit is exact if and only if the range does not hold exactly one byte |
| UrlFile.CachedEqualsUncached | tools/lib/url_file.py:89-154 | exactly when the cached and the uncached read agree |
| UrlFile.WholeFileUncached | tools/lib/url_file.py:121-137 | without a limit, from the start, the uncached read is the whole file |
| UrlFile.ChunkIsServed | tools/lib/url_file.py:100-114 | a downloaded chunk is the corresponding part of the served file |
| UrlFile.ReadsJoin | tools/lib/url_file.py:89-119 | two consecutive reads yield what one read of both lengths yields |
| UrlFile.SequentialReads | tools/lib/url_file.py:89-119 | however a stretch is cut into reads, the results put together are the stretch |
| UrlFile.LastByteIsLost | tools/lib/url_file.py:129-130 | a file of one byte reads as empty through the cache |
| UrlFile.OneByteIsLost | tools/lib/url_file.py:129-130 | an uncached read of one byte from a file of two yields nothing |
| ExpGolomb.GetUe | tools/lib/vidindex.py:122-148 | the loop decodes the code word at a bit offset, and raises exactly when there is none |
| ExpGolomb.DecodeOfCode | tools/lib/vidindex.py:142-145 | round trip: the code of v, with anything behind it, decodes to v and 2 * floor(log2(v + 1)) + 1 |
| ExpGolomb.DecodeConsumesCode | tools/lib/vidindex.py:142-145 | the bits consumed are the code of the value returned |
| ExpGolomb.DecodeFailsOnlyWithoutCode | tools/lib/vidindex.py:148-148 | decoding fails exactly when no code is a prefix of the bits |
| ExpGolomb.CodesArePrefixFree | tools/lib/vidindex.py:122-148 | no code is a prefix of another |
| HevcIndex.HevcIndex | tools/lib/vidindex.py:261-292 | raises exactly on short data, on a wrong first byte, or on data that are not clean unless corrupt data are allowed; otherwise yields the frames and the prefix of the visited units |
| HevcIndex.ScanUnits | tools/lib/vidindex.py:271-290 | the scan ends, visits exactly the units in front of the first malformed one, and collects frames and prefix in order |
| HevcIndex.GetUnitKind | tools/lib/vidindex.py:277-285 | what a unit contributes, by its bits: a frame, its bytes to the prefix, nothing, or an exception |
| HevcIndex.FrameExactlyWhen | tools/lib/vidindex.py:186-259 | a unit is a frame of type t if and only if its six type bits are 0 to 9 or 16 to 21 and its bits are a set first flag, the other flag if any, the code of some number, the code of t, and anything, with t at most 2 |
| HevcIndex.MalformedExactlyWhen | tools/lib/vidindex.py:177-258 | a unit raises if and only if its header is missing, or it is a coded slice without bits, or one with a set first flag that is no frame; it goes into the prefix if and only if its type bits are 32 to 34 |
| HevcIndex.TypeIsTypeBits | tools/lib/vidindex.py:169-181 | the type computed by shift and mask is the number that bits 1 to 6 of the header stand for |
| HevcIndex.CleanExactlyWhen | tools/lib/vidindex.py:274-289 | nothing raises if and only if a start code stands behind the first byte and no unit is malformed by its bits |
| HevcIndex.IndexOfCleanData | tools/lib/vidindex.py:274-286 | on accepted data the frames are exactly the start codes behind the first byte whose units are frames by their bits, and the units tile the data |
| HevcIndex.FramesAreIncreasing | tools/lib/vidindex.py:284-286 | frame offsets are strictly increasing, also after an early stop |
| HevcIndex.FramesAreReached | tools/lib/vidindex.py:271-290 | on any data the frames are exactly the units that are frames by their bits and have no malformed unit up to them |
| HevcIndex.PrefixIsParameterSets | tools/lib/vidindex.py:279-281 | on any data the prefix is, in order and each once, exactly the units of types 32 to 34 that have no malformed unit up to them |
| HevcIndex.UnitsTile | tools/lib/vidindex.py:157-167 | from any start code on, the units put together are the data |
| HevcIndex.NoOverlap | tools/lib/vidindex.py:157-167 | searching behind a start code misses none, and every unit has at least three bytes |
| HevcIndex.StartsFromFacts | tools/lib/vidindex.py:276-286 | the unit starts are exactly the positions of start codes, in order |
| GopReader.SameGop | tools/lib/framereader.py:389-401 | all frames of a group have that group: groups partition the frames |
| GopReader.NextGop | tools/lib/framereader.py:389-401 | a group begins where the one before it ends |
| GopReader.GopsTile | tools/lib/framereader.py:403-417 | the byte ranges of the groups tile the stream |
| GopReader.FrameReader.LookupGop | tools/lib/framereader.py:389-401 | the loops find the only stretch of frames around the frame that begins with an I slice, has none inside, and ends in front of one or at the end |
| GopReader.FrameReader.GetGop | tools/lib/framereader.py:403-423 | the first frame and the number of frames of the group, and the bytes handed to the decoder: the parameter sets and behind them exactly the bytes of the stream from the offset of the group to that of the next |
| GopReader.FrameReader.JoinGroups | tools/lib/framereader.py:403-423 | what the decoder gets for the successive groups, without the parameter sets, joins to the stream from the first frame on |
| GopReader.GopIsUnique | tools/lib/framereader.py:389-401 | there is only one group around a frame |
| GopReader.FrameReader.GetOne | tools/lib/framereader.py:479-498 | a read yields the true frame, or the same failure, whatever was read and evicted before, and keeps every cache entry equal to its true frame |
| GopReader.FrameReader.Get | tools/lib/framereader.py:500-517 | a range read fails exactly beyond the end or on an unreadable frame; otherwise it yields, in order, the frames the decoder shows of the groups around them with the parameter sets in front |
| GopReader.InsertedGroup | tools/lib/framereader.py:491-498 | after a group is inserted the cache is right, and a frame is found exactly if it is one of the last 64 of its group |
| GopReader.ReadIsRangeOfStream | tools/lib/framereader.py:500-517 | every successful range read is that range of the whole stream decoded group by group |
| GopReader.ReadableFrames | tools/lib/framereader.py:434-434 | all frames are readable if and only if no group has more than 64 frames |
| GopReader.GroupOf65 | tools/lib/framereader.py:495-498 | a stream with one group of 65 frames whose first frame cannot be read, while the second can |
| GopReader.IndexOfHevc | tools/lib/framereader.py:101-113 | the index of accepted data is ordered, and its groups tile the data from the first frame on |
| GopReader.IndexHasFrames | tools/lib/framereader.py:101-113 | the entries in front of the last are exactly the units that are frames by their bits, in order, and the last one is the end of the stream |
| SteeringLimits.RunsAreBounded | selfdrive/car/__init__.py:107-152 | over any run from a start within bounds the torque stays within the maximum, for both limiters |
| SteeringLimits.DriverStepIsBounded | selfdrive/car/__init__.py:107-124 | one step grows the torque's size by at most `STEER_DELTA_UP` and keeps it within the maximum |
| SteeringLimits.MeasStepIsBounded | selfdrive/car/__init__.py:149-152 | the same for the limiter by measured torque |
| SteeringLimits.DriverLimitIsRamp | selfdrive/car/__init__.py:107-124 | the rounded result is one step of a ramp over whole numbers towards the rounded target |
| SteeringLimits.MeasLimitIsRamp | selfdrive/car/__init__.py:127-152 | the same for the limiter by measured torque |
| SteeringLimits.RampIsNearest | selfdrive/car/__init__.py:116-122 | of all whole torques reachable in one step the ramp takes the nearest to the target, and the target itself exactly if it is reachable |
| SteeringLimits.GrowthIsLinear | selfdrive/car/__init__.py:116-122 | after k steps the torque's size has grown by at most k times `STEER_DELTA_UP` |
| SteeringLimits.DriverRestrictsRight | selfdrive/car/__init__.py:107-124 | while max + (allowance + driver * factor) * multiplier is at most m, what is above m falls by `STEER_DELTA_DOWN` per step and nothing rises above m again; with m zero the driver gets rid of the torque |
| SteeringLimits.DriverRestrictsLeft | selfdrive/car/__init__.py:107-124 | the same for torques to the left, with -max + (-allowance + driver * factor) * multiplier |
| SteeringLimits.TargetToTheRight | selfdrive/car/__init__.py:110-114 | a command to the right becomes zero if that limit is not positive, and otherwise the smallest of the command, the limit and the maximum |
| SteeringLimits.TargetToTheLeft | selfdrive/car/__init__.py:110-114 | the same for a command to the left |
| SteeringLimits.DriverDecides | selfdrive/car/__init__.py:107-124 | with a steady torque of the driver, a larger command ends at exactly that limit, rounded, and stays there |
| SteeringLimits.EachUnitCosts | selfdrive/car/__init__.py:110-110 | each further unit of torque against a large command costs factor * multiplier |
| SteeringLimits.MeasTargetIsNearest | selfdrive/car/__init__.py:131-134 | the limiter by measured torque takes the nearest value to the command within the maximum that is within the error of the measured torque, or of zero, or between the two |
| SteeringLimits.MeasRunReachesCommand | selfdrive/car/__init__.py:127-152 | a steady command that stays near the measured torque is reached within the distance divided by the slower rate, and kept |
| SteeringLimits.WithinAllowance | selfdrive/car/__init__.py:109-114 | a driver whose scaled torque is within the allowance does not restrict the command |
| SteeringLimits.TorqueFollowsMeasured | selfdrive/car/__init__.py:127-146 | while the measured torque stays at or below m, the torque falls by `STEER_DELTA_DOWN` each step until it is within the error limit, and stays there |
| SteeringLimits.RunReachesCommand | selfdrive/car/__init__.py:107-124 | with a steady allowed command the torque reaches it within the distance divided by the slower rate, from either side of zero, and stays |
| SteeringLimits.AwayClosedForm | selfdrive/car/__init__.py:116-122 | the exact torque after k steps away from zero, to the right or to the left, with the slower first step from exactly zero |
| SteeringLimits.DriverRunAway | selfdrive/car/__init__.py:107-124 | the same for runs with a steady command that the driver's torque allows |
| SteeringLimits.DriverRunBack | selfdrive/car/__init__.py:107-124 | the exact torque after k steps of a run with a command of zero, from any start |
| SteeringLimits.ReturnClosedForm | selfdrive/car/__init__.py:116-122 | the exact torque after k steps back to zero, from either side |
| SteeringLimits.MirrorExactlyWhen | selfdrive/car/__init__.py:107-124 | mirrored inputs give the mirrored torque if and only if the last torque is not zero, or the down rate is not the smaller one, or the target is within the down rate of zero |
| SteeringLimits.MeasTargetIsOdd | selfdrive/car/__init__.py:131-134 | the window around the measured torque lies alike on both sides |
| SteeringLimits.RunsMirror | selfdrive/car/__init__.py:107-124 | with a down rate at least the up rate, mirrored inputs give the mirrored run |
| SteeringLimits.MirrorFails | selfdrive/car/__init__.py:116-122 | limits and inputs for which right and left differ |
| FaultAvoidance.CountIsStreak | selfdrive/car/__init__.py:171-183 | in any run the count is the length of the current streak of faulting frames modulo one period |
| FaultAvoidance.SentExactlyWhen | selfdrive/car/__init__.py:171-185 | in the k-th frame of a streak the request is sent exactly when (k - 1) mod (M + m) < M, and outside a streak exactly when wanted |
| FaultAvoidance.NeverTooLong | selfdrive/car/__init__.py:171-185 | among any M + 1 consecutive faulting frames one is cut |
| FaultAvoidance.CutLasts | selfdrive/car/__init__.py:177-183 | a cut lasts m frames while the fault persists, and then the request is sent again |
| FaultAvoidance.CutsExactlyWhen | selfdrive/car/__init__.py:164-185 | streaks of more than M frames are cut if and only if m is at least 1 or M is 0 |
| FaultAvoidance.NothingCutWithoutMismatch | selfdrive/car/__init__.py:171-185 | with m zero and M at least 1 the request is never cut |
| FaultAvoidance.BothZero | selfdrive/car/__init__.py:171-185 | with both limits zero exactly the faulting frames are cut |
| ChryslerController.CarController.Update | selfdrive/car/chrysler/carcontroller.py:23-84 | one update is the step of the state machine; it sends in every second frame, with torque zero when the bit is low and never beyond the limit |
| ChryslerController.BitExactlyWhen | selfdrive/car/chrysler/carcontroller.py:48-66 | after a steering frame the bit is set if and only if the speed asks for it and it has not fallen in the 200 frames before |
| ChryslerController.BitBySpeed | selfdrive/car/chrysler/carcontroller.py:48-66 | the bit rises if and only if the speed is above the minimum and it has not fallen in the 200 frames before; it falls if and only if the speed is more than 3, or on a Ram without the higher minimum more than 0.5, below the minimum |
| ChryslerController.Lockout | selfdrive/car/chrysler/carcontroller.py:61-66 | once the bit falls at frame f it is not set before a frame greater than f + 200 |
| ChryslerController.LockoutAtStart | selfdrive/car/chrysler/carcontroller.py:16-17 | nor is it set in the first 201 frames |
| ChryslerController.TorqueIsSafe | selfdrive/car/chrysler/carcontroller.py:68-73 | in any run the torque is zero whenever the bit is low, and within the maximum |
| ChryslerController.TorqueSinceRise | selfdrive/car/chrysler/carcontroller.py:68-73 | the torque is zero in the frame the bit rises, and afterwards at most the up rate times the steering frames since |
| ChryslerController.TorqueSinceInactive | selfdrive/car/chrysler/carcontroller.py:71-73 | the same after a steering frame with steering switched off |
| ChryslerController.RunsAreSafe | selfdrive/car/chrysler/carcontroller.py:48-76 | the bounds together, for the car's own limiter |
| ChryslerController.TorqueFollowsCommand | selfdrive/car/chrysler/carcontroller.py:68-73 | with the bit set and steering active, the torque moves towards round(steer * max) by the up rate in each steering frame until it is there, and stays |
| ChryslerController.CarLimiterIsBounded | selfdrive/car/chrysler/values.py:88-103 | the limiter with each platform's parameters is bounded |
| IsoTpQuery.GetData | selfdrive/car/isotp_parallel_query.py:105-173 | the loop is left in the first round in which all addresses are done or the total timeout has passed, always ends once the clock passes it, returns for each address what its payloads earn, and sends each address the requests in order |
| IsoTpQuery.ResultIsLastCompletion | selfdrive/car/isotp_parallel_query.py:108-149 | a result is recorded if and only if the expected prefixes occur among the payloads in order, and is the last payload that completes them without its prefix |
| IsoTpQuery.CounterMissesNothing | selfdrive/car/isotp_parallel_query.py:130-138 | the counter is at least the length of any in-order match of the first prefixes |
| IsoTpQuery.CounterIsEarned | selfdrive/car/isotp_parallel_query.py:130-138 | the counter is the length of an in-order match |
| IsoTpQuery.RequestsAreSentInOrder | selfdrive/car/isotp_parallel_query.py:98-138 | each address gets the requests in order, each at most once, and the counter stays in range |
| IsoTpQuery.DoneStaysDone | selfdrive/car/isotp_parallel_query.py:108-162 | done never reverts, a result is never lost, the counter never falls |
| IsoTpQuery.DoneExactlyWhen | selfdrive/car/isotp_parallel_query.py:108-162 | an address is done if and only if some round brought an error, an empty or bad response, the last response, or a clock past the deadline set last |
| IsoTpQuery.DeadlineIsLastSet | selfdrive/car/isotp_parallel_query.py:104-145 | the deadline is the clock of the last progress, answer or request for patience plus the matching timeout, or the start plus the timeout when there was none |
| IsoTpQuery.DeadlineIsUnique | selfdrive/car/isotp_parallel_query.py:104-145 | there is only one such deadline |
| IsoTpQuery.ResultAfterTimeout | selfdrive/car/isotp_parallel_query.py:105-162 | an address that is done by a timeout and then gets a result |
| IsoTpQuery.CheckTimeouts | selfdrive/car/isotp_parallel_query.py:152-165 | exactly the addresses whose deadline has passed are marked done, and all-done is told right |
| CanFingerprint.CanFingerprint | selfdrive/car/car_helpers.py:72-109 | stops at the first packet that decides, the 202nd at the latest and never before the 102nd, with the car found then and the lengths remembered |
| CanFingerprint.CandidatesExactly | selfdrive/car/car_helpers.py:90-93 | a car is left on a bus if and only if every message from the bus on an address of at most 11 bits other than 0x7df, 0x7e0 and 0x7e8 is one that some variant of the car sends, however the messages are ordered or split into packets |
| CanFingerprint.ReceivedInOrder | selfdrive/car/car_helpers.py:83-84 | the packets are considered one behind the other, none left out |
| CanFingerprint.FitsExactly | selfdrive/car/fingerprints.py:19-25 | a message fits a car if and only if some variant sends messages of its length on its address, or, on address 1880, if the length is 8 and there is a variant |
| CanFingerprint.ArrivalOrderDoesNotMatter | selfdrive/car/car_helpers.py:83-93 | the same messages in any order, repeated or not, leave the same candidates |
| CanFingerprint.FoundExactlyWhen | selfdrive/car/car_helpers.py:97-100 | a car is found if and only if, after frame 100, it is the only one left on bus 1, or on bus 0 while no car is the only one on bus 1 |
| CanFingerprint.StopsExactlyWhen | selfdrive/car/car_helpers.py:102-105 | the loop is left if and only if, after frame 100, some car is the only one left on a bus or none is left on either, and after frame 200 in any case |
| CanFingerprint.RemembersLastLength | selfdrive/car/car_helpers.py:86-89 | for every bus below 128 exactly the length of the last message on each address is remembered |
| CanFingerprint.EliminateIncompatibleCars | selfdrive/car/fingerprints.py:28-49 | keeps, in order, exactly the cars that could have sent the message |
| CanFingerprint.EliminateNext | selfdrive/car/fingerprints.py:28-49 | eliminating message by message equals eliminating by all messages |
| CanFingerprint.DebugAddressOverrides | selfdrive/car/fingerprints.py:19-25 | a message on the debug address fits exactly if its length is the debug length, whatever the database says |
| FwMatch.MatchFuzzy | selfdrive/car/fw_versions.py:56-103 | {c} if and only if all identifying live versions name c and at least two addresses do, else the empty set, in any iteration order |
| FwMatch.BuildLookup | selfdrive/car/fw_versions.py:61-80 | the table lists, for every address and version, the car of each place in the database, once each |
| FwMatch.SingleCandidate | selfdrive/car/fw_versions.py:88-90 | one candidate in the table means exactly one place in the database |
| FwMatch.IdentifiesExactlyWhen | selfdrive/car/fw_versions.py:79-90 | a version that belongs to one car only identifies it if and only if it stands once |
| FwMatch.HiddenByItself | selfdrive/car/fw_versions.py:79-90 | a car with two control units at one address and one version, which does not identify it |
| FwMatch.MatchExact | selfdrive/car/fw_versions.py:106-144 | exactly the cars of the brand all of whose control units agree |
| FwMatch.CheckCandidate | selfdrive/car/fw_versions.py:119-142 | a candidate is valid if and only if every control unit answers with a known version, or is the debug unit, or is silent and may be |
| FwMatch.BuildFwDict | selfdrive/car/fw_versions.py:42-48 | exactly the versions of the answers of the brand that are not for logging, each at its address, with sub-address 0 as none |
| HistoryLog.HistoryLogModel.UpdateState | tools/cabana/historylog.cc:77-85 | what is shown stays a gapless part of the filtered list, newest first; empty or cleared, it becomes the last 50 matches before the present, and otherwise it gets exactly all newer ones |
| HistoryLog.HistoryLogModel.FetchMore | tools/cabana/historylog.cc:92-95 | adds exactly the next at most 50 older matches |
| HistoryLog.HistoryLogModel.CanFetchMore | tools/cabana/historylog.cc:87-90 | true if and only if the oldest row is not the first event; it agrees with there being an older match if and only if there is one or the first event passes the filter; when false, all older matches are shown |
| HistoryLog.MoreInVain | tools/cabana/historylog.cc:87-90 | events and a filter for which more is promised and there is none |
| HistoryLog.HistoryLogModel.SetFilter | tools/cabana/historylog.cc:70-75 | shows exactly the last 50 matches of the new filter before the present, or all if there are fewer |
| HistoryLog.FetchData | tools/cabana/historylog.cc:97-119 | the matches before one time and after another, newest first, at most a page if there is no lower time |
| HistoryLog.FetchedExactly | tools/cabana/historylog.cc:97-119 | the part that is fetched is exactly the matches between the two times, or the last 50 before the one |
| HistoryLog.RowsAreTheMatches | tools/cabana/historylog.cc:97-119 | the rows are exactly the matching events from the oldest to the newest row |
| HistoryLog.RowsAreNewestFirst | tools/cabana/historylog.cc:97-119 | times fall strictly from row to row, so no row occurs twice |
| HistoryLog.ViewSurvivesGrowth | tools/cabana/historylog.cc:77-85 | new events at the end leave the view valid |
| HistoryLog.PagesReachTheOldest | tools/cabana/historylog.cc:92-95 | after k pages the view starts 50 k matches earlier, or at the first match |

## Left out

Replay engine:

- Sockets, the message bus, the file downloader, decompression and the video decoder: steps without effect, or values.
- Pacing and sleeping in `publishEvents`, the timeline, the event filter, and wake-ups: steps may happen at any time.
- Slots that run inside emitted signals. What happens after a slot has read a sender that is gone: the main thread takes no more
  steps then.
- The entries of `sockets_` that are cleared during a merge are seen at one moment of that merge.
- The number of times an event is published over pauses and seeks: the code promises none.
- `seekTo`: relative targets and the clamp at zero only choose the target, which is any number here.
- The state of the replay, of a segment's jobs and of the camera server is a value with a step relation, not an object: the steps
  of four kinds of threads interleave, which methods on one object would not show.
- ReplayEvents.Load: the messages are those in front of the first corrupt one, after which the code goes on with what it has.
- ReplayEvents.Load: `std::sort` is any sorting that keeps the events; what the code relies on is that and nothing else.
- MonotonicBuffer.Buffer.AllocateBlock: the growth is exact instead of rounded to a float, and the system never runs out of memory.

Video reading:

- UrlFile.URLFile.Read: negative positions and lengths, failed requests (a length of -1), and HTTP errors are not modelled.
- HevcIndex.HevcIndex: offsets are unbounded, while the index file holds 32 bits; emulation prevention bytes and other slices than
  the first are not parsed, as in the code.
- GopReader.FrameReader.GetOne: the LRU cache is modelled by its documented behaviour, the decoder is any function of its input,
  and the readahead thread is left out.

Limiters:

- SteeringLimits.RunsAreBounded: arithmetic is over the reals, without the rounding of floats; limits are whole numbers and not
  negative, as in all parameter tables; `clip` from `common/numpy_fast` is taken as max of the lower bound and the min with the
  upper one.
- The Toyota limiter, the angle limiter, hysteresis and the other brands' controllers: the same shapes again.
- ChryslerController.CarController.Update: buttons, the HUD message, and the packing and checksums of messages.

Recognition and diagnostics:

- IsoTpQuery.GetData: the transport (`IsoTpMessage`) is the schedule of what `recv` gives; the first request counts as sent also
  when it goes out on functional addresses; logging is left out.
- CanFingerprint.CanFingerprint: messages come from any schedule of packets; a fixed fingerprint and the choice between methods are
  left out.
- FwMatch.MatchFuzzy: the query itself, the order of brands and the choice between exact and fuzzy match are left out.
- The other recognition code (VIN, essential ECU lists of each brand, tables of fingerprints) is data.

History view:

- HistoryLog.HistoryLogModel.UpdateState: events come in strictly increasing positive times and only grow at the end between
  resets; the filter is a function of the event; colours and the notifications of the view are left out.

Elsewhere in the repository: the Honda controller (an `elif` without an `if`), undo commands and bit selection of cabana, the
Kalman filter, neural feed-forward and the generation of documents.
