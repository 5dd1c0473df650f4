# Sonde: a verified model of its protocol and arithmetic cores

This Dafny project models the parts of Sonde whose correctness is not visible from any one function:
the append-only histories and the reconciliation handlers of the Azure handler, the session telemetry
cache of the web client, the connector bridge and the staged credential commit of the companion, the
CBOR codec of the Python data handler, the control loop and the fixed-point arithmetic of two sensor
programs, and three smaller cores (display generations, dashboard series, the calendar timestamp).

`dafny verify dfyconfig.toml` takes in the whole project.

| files | what they model |
|---|---|
| `Numerals`, `RowKeys`, `HistoryStore` | string order of fixed-width numerals, row keys, the table filter, the "smallest key" read |
| `NodeReconcile`, `GatewayReconcile` | interleaved handlers as a state machine, one step per storage or queue call, each of which may fail |
| `SensorCache`, `CacheSafety`, `SessionTelemetry` | the cache as a state machine, when a request is safe, and the cache as the mutable object that implements it; the paging loop |
| `BigEndian`, `Frames`, `Bridge` | frames on a byte stream, both directions of the bridge, cancellation at every await |
| `StateSwap` | the directory swap, with failures and crashes during or after every file operation |
| `Cbor` | the codec, with Python's forgiving slices |
| `Autorange`, `Bmp280`, `Bmp280Accuracy` | VEML7700 autoranging, BMP280 compensation in its C word sizes, and its distance from the real-valued formula |
| `DisplayControl`, `MetricSeries`, `Calendar` | the smaller cores |
| `Division`, `Wrappers` | integer division, the option type |

Failures, crashes, cancellation, clocks and the contents of replies are left open by nondeterminism or
are parameters, so a contract speaks of every run. Where a wished-for property is false of the code, the
model keeps the code and states exactly when the property holds:

- A cached coverage interval is the hull of what was fetched, so a request can make the cache hide stored rows
  from later requests. At any moment of a session, a request for a partition is safe in every continuation and
  over all tables exactly when its caller may make it (`CacheSafety.RequestSafeIff`): the range does not begin
  before 1970, or coverage already begins at or before 1970; and without coverage, the range overlaps or abuts
  every first fetch still outstanding. A custom dashboard range needs only a start before its end
  (`deploy/web-ui/dashboard-runtime.js:55`), so it may begin before 1970. One from before 1970 to after makes
  the cache answer every later request inside it with nothing (`SensorCache.NegativeStartServesNothing`,
  `SensorCache.HiddenReading`). One wholly before 1970 does the same to the next request
  (`CacheSafety.EarlyRangeSpoilsNext`, `CacheSafety.HiddenByEarlyRange`).
- The row that clears a rotation payload retires it exactly when its key is the smaller one, so a payload
  submitted by a browser whose clock is ahead is published again by the next delivery
  (`GatewayReconcile.ClearingRetiresIff`, `GatewayReconcile.NextDeliveryResendsIff`,
  `GatewayReconcile.ClockAheadKeepsServing`). The comment at
  `crates/sonde-azure-handler/src/lib.rs:590-591` promises the clearing without this condition.
- The gateway view shows the newest row exactly when the legacy row is missing, alone, or not newer than some
  history row, and once it does it always will (`GatewayReconcile.LatestViewNeverRegresses`); a legacy row
  newer than the stored history is overlooked (`GatewayReconcile.LegacyAheadIsOverlooked`). The view's
  timestamp never goes back either way.
- For bounds before 1970 the row-key filter compares a 17th digit with a colon. `RowKeys.FilterSelects` says
  for every pair of bounds which timestamps it selects; it is exactly the timestamp range if and only if both
  bounds are from 1970 on, or both are before and no key lies between their cuts (`RowKeys.FilterExactIff`).
- The last BMP280 correction step fits 64 bits for every calibration exactly up to the quotient 12148001999,
  and some calibration block goes beyond (`Bmp280.CorrectionFitsIff`, `Bmp280.CorrectionCanOverflow`).
- Timestamps sort as the moments they name exactly up to the end of year 9999 (`Calendar.SortableIff`).
- A ticket restores exactly when the counter has moved by a multiple of 2^64 since
  (`DisplayControl.RestoreIffCameRound`).
- A map used as a map key raises an error that the message loop of the Python handler does not catch; among
  payloads nested less deeply than Python's recursion limit, exactly those escape it (`Cbor.EscapesIff`,
  `Cbor.EscapingPayload`).
- With no page allowed, the paging loop claims a complete answer without having asked
  (`SessionTelemetry.FetchPartition`).

## Model

| member | source | states |
|---|---|---|
| `Numerals.DigitsOrder` | crates/sonde-azure-handler/src/lib.rs:2088-2093 | zero-padded numerals of one width compare as strings exactly as their numbers do, and are equal only for equal numbers |
| `Numerals.PadMinDigits` | deploy/web-ui/app.js:2450-2453 | minimal digits padded with zeros are the fixed-width numeral, so the client's and the handler's formatting agree |
| `RowKeys.RowKeyOrder` | crates/sonde-azure-handler/src/lib.rs:2085-2094 | string order of row keys is timestamp descending, then sequence descending, then nonce ascending; keys are equal only for equal parts |
| `RowKeys.FilterSelects` | deploy/web-ui/app.js:1582-1586 | for every pair of bounds, negative ones included, which timestamps the filter selects: a bound before 1970 acts as one far in the future |
| `RowKeys.FilterIsTimestampRange` | deploy/web-ui/app.js:2450-2459 | for non-negative bounds the `ge`/`le ~` filter selects a handler-written key if and only if its timestamp is in the range, ends included |
| `RowKeys.StraddlingSelectsNothing` | deploy/web-ui/app.js:2450-2459 | a range from before 1970 to 1970 or later selects no handler-written key at all |
| `RowKeys.FilterExactIff` | deploy/web-ui/app.js:2450-2459 | for every pair of bounds the filter is exact on all keys if and only if both bounds are from 1970 on, or both are before and no key lies between their cuts |
| `HistoryStore.LatestIsNewest` | crates/sonde-azure-handler/src/lib.rs:1024-1072 | the row a top-1 query returns has the greatest timestamp of its partition |
| `HistoryStore.LatestOnlyMovesDown` | crates/sonde-azure-handler/src/lib.rs:1014-1047 | appending rows keeps the smallest key or replaces it by a smaller one |
| `NodeReconcile.RereadDropsIffSuperseded` | crates/sonde-azure-handler/src/lib.rs:387-403 | the re-read after an append never misses and never returns an older row; it drops the delivery if and only if some stored report is newer |
| `NodeReconcile.StepKeepsInv` | crates/sonde-azure-handler/src/lib.rs:377-471 | every step of any handler, of the client and of ingest keeps every handler's stage and every publication justified |
| `NodeReconcile.NodeRunSafe` | crates/sonde-azure-handler/src/lib.rs:377-471 | in every run tables only grow, and every message that reached the queue, acknowledged or not, was for a report that was the newest when re-read, carries the newest desired row loaded, that row is this node's, and a node applying it would report something else |
| `NodeReconcile.AlonePublishesIff` | crates/sonde-azure-handler/src/lib.rs:387-471 | an undisturbed handler publishes if and only if no stored report is newer, a desired row exists, is this node's, and a node applying it would report something else; the message has exactly the desired fields, and the stored image if the program differs and the image is not empty |
| `NodeReconcile.AloneIsSteps` | crates/sonde-azure-handler/src/lib.rs:387-471 | the undisturbed handler is the composition of its own protocol steps |
| `NodeReconcile.DueIffChanges` | crates/sonde-azure-handler/src/lib.rs:419-435 | a message is due if and only if applying it would change the program or the schedule the node reports |
| `NodeReconcile.FailureEnds` | crates/sonde-azure-handler/src/lib.rs:387-471 | every call that fails, or whose acknowledgement is lost, ends its delivery with an error and no other |
| `NodeReconcile.AppliedAgrees` | crates/sonde-azure-handler/src/lib.rs:1904-1939 | a node that takes over the fields of a message with the desired state's fields no longer differs from it |
| `NodeReconcile.NodeQuiescent` | crates/sonde-azure-handler/src/lib.rs:419-435 | once all handlers agree with the newest desired state, nothing at all is published in any continuation until the desired state changes or a differing report arrives |
| `NodeReconcile.AgreeingNeverPublishes` | crates/sonde-azure-handler/src/lib.rs:405-471 | in any run, whatever else is in flight, a delivery that agrees with the newest desired row as long as it is under way never loads an image and no message of it reaches the queue |
| `NodeReconcile.AppliedNeverRepublishes` | crates/sonde-azure-handler/src/lib.rs:387-471 | a node that applies what was published for the newest desired row and reports it causes no publish, whatever else is in flight, until the desired state is written again |
| `NodeReconcile.RedeliveryReissues` | crates/sonde-azure-handler/src/lib.rs:387-471 | a report redelivered after its publish failed, and then undisturbed, gets to publish the same message, if no newer report is stored and desired state and image are unchanged |
| `NodeReconcile.RedeliveryInAnyRun` | crates/sonde-azure-handler/src/lib.rs:387-471 | in any run and among any other handlers, while no newer report is stored and desired state and image are unchanged, a redelivered report is never dropped as stale nor found to agree, and any message it sends is that of the failed attempt |
| `GatewayReconcile.LegacyKeyIsLast` | crates/sonde-azure-handler/src/lib.rs:552-554 | every history key sorts before the legacy key "state" |
| `GatewayReconcile.ViewIsNewestIff` | crates/sonde-azure-handler/src/lib.rs:1188-1211 | the row a top-1 query returns is the newest of all if and only if the legacy row is missing, alone, or not newer than some history row |
| `GatewayReconcile.LegacyAheadIsOverlooked` | crates/sonde-azure-handler/src/lib.rs:564-577 | a concrete partition whose newer legacy row is not shown, and an older report in it that reaches the control logic |
| `GatewayReconcile.AppendKeepsView` | crates/sonde-azure-handler/src/lib.rs:552-562 | a row that passed the pre-append guard keeps the view on the newest row, whatever was appended in between |
| `GatewayReconcile.ControlIffNewest` | crates/sonde-azure-handler/src/lib.rs:564-577 | a delivery reaches the control logic if and only if no history row is newer at its re-read, and where the view is right if and only if no row at all is |
| `GatewayReconcile.GatewayRunSafe` | crates/sonde-azure-handler/src/lib.rs:499-620 | in every run each delivery past its re-read, and each message that reached the queue, was for a report no history row seen was newer than, and no row at all unless the legacy row was ahead at that re-read; a payload is sent only without an epoch increase and unmodified from the newest desired row loaded |
| `GatewayReconcile.LatestViewNeverRegresses` | crates/sonde-azure-handler/src/lib.rs:499-577 | in every run and at every moment the view is right if and only if the legacy row is not ahead of the history, it then stays right for good, and its timestamp never goes back in any case |
| `GatewayReconcile.RightViewRightReports` | crates/sonde-azure-handler/src/lib.rs:564-577 | once the view is right, every delivery re-read from then on, and every message it sends, saw no legacy row ahead |
| `GatewayReconcile.RetiredForGood` | crates/sonde-azure-handler/src/lib.rs:1264-1328 | once a smaller desired key is stored, no later load in any run returns the row, which stays stored unchanged |
| `GatewayReconcile.ClearingRetiresIff` | crates/sonde-azure-handler/src/lib.rs:579-606 | the clearing row retires the served payload if and only if its key comes first; otherwise the next load serves the payload again |
| `GatewayReconcile.DeliveryOutcome` | crates/sonde-azure-handler/src/lib.rs:499-620 | an undisturbed newest delivery stores its report; it stores a clearing row if and only if a row was loaded first, the report's epoch is greater, a missing one counting as 0, and a payload is pending; otherwise it sends the pending payload unmodified; a message with the recovered keys goes out if and only if there is a payload to send or a key |
| `GatewayReconcile.FailureEnds` | crates/sonde-azure-handler/src/lib.rs:499-620 | every call that fails, or whose acknowledgement is lost, ends its delivery with an error and no other |
| `GatewayReconcile.NextDeliveryResendsIff` | crates/sonde-azure-handler/src/lib.rs:499-620 | the next delivery after a clearing row, newest and without an epoch increase, publishes the old payload again if and only if the clearing key did not come first, and nothing otherwise |
| `GatewayReconcile.ClockAheadKeepsServing` | deploy/web-ui/app.js:1189-1210 | a concrete payload written by a clock ahead of the gateway's that survives its clearing row |
| `GatewayReconcile.RotationRetiredForGood` | crates/sonde-azure-handler/src/lib.rs:579-606 | after a clearing row later than the payload's row was stored, acknowledged or not, no load in the rest of the run returns that payload row, and it is unchanged |
| `SensorCache.QueryIsSelectIff` | deploy/web-ui/app.js:1734-1744 | filtering cached rows by timestamp and filtering the table by row key select the same rows of every table if and only if the bounds agree |
| `SensorCache.MergeCovers` | deploy/web-ui/app.js:1716-1732 | merging a complete answer adjacent to coverage keeps every stored row inside coverage cached |
| `SensorCache.CacheRunSound` | deploy/web-ui/app.js:1746-1801 | in every run, for each partition whose own requests since the last switch were ones their callers may make: cached rows are rows of the current environment's table, every stored row inside coverage is cached, exact request keys lie inside coverage |
| `SensorCache.StepWidens` | deploy/web-ui/app.js:1724-1731 | within a generation coverage only widens, only a complete answer of that generation and partition widens it, and it then holds the fetched range |
| `SensorCache.CacheRefinesQuery` | deploy/web-ui/app.js:1746-1801 | under the same condition on that partition, a request whose fetches, own or joined, all completed, in any order among any other requests, selects exactly the rows stored in its range, which is what a direct range query returns unless the bounds of that query disagree |
| `SensorCache.EnvironmentIsolation` | deploy/web-ui/app.js:1784-1792 | every cached row was brought by a fetch begun in the current generation for that partition |
| `SensorCache.CachedIsBrought` | deploy/web-ui/app.js:1716-1723 | in every run exactly the rows brought by answers of the current generation, complete or not, are cached, with the value brought last |
| `SensorCache.BroughtIsServed` | deploy/web-ui/app.js:1734-1744 | a row brought by any answer, complete or not, is served to every request whose range holds it until the next switch |
| `SensorCache.NeverFetchedTwice` | deploy/web-ui/app.js:1610-1634 | in every run no two fetches of the same range are in flight |
| `SensorCache.PlanIsDelta` | deploy/web-ui/app.js:1757-1772 | with coverage, a planned fetch ends where coverage begins or begins where it ends |
| `SensorCache.FetchHasRequest` | deploy/web-ui/app.js:1610-1634 | every outstanding fetch was planned by a request of the generation it carries |
| `SensorCache.JoinsOnlyOwnGeneration` | deploy/web-ui/app.js:546-557 | in every run a request never waits for a fetch of an older generation |
| `SensorCache.FirstFetchesSoundIff` | deploy/web-ui/app.js:1746-1801 | two first requests, then both complete answers: whatever is served without a fetch afterwards is right for every table if and only if the two ranges overlap or abut |
| `SensorCache.GapServesWrong` | deploy/web-ui/app.js:1746-1801 | otherwise a third request, for the gap, is answered at once and without the row stored there |
| `SensorCache.NegativeStartServesNothing` | deploy/web-ui/app.js:1746-1801 | after a complete answer for a range from before 1970 on, every request inside it is answered with nothing, whatever is stored |
| `SensorCache.HiddenReading` | deploy/web-ui/dashboard-runtime.js:50-57 | a concrete dashboard range that hides a stored reading from a later request |
| `SensorCache.TheseAreRuns` | deploy/web-ui/app.js:1746-1801 | the states these statements speak of are reached by runs of the cache |
| `CacheSafety.RequestSafeIff` | deploy/web-ui/app.js:1746-1801 | at any moment of a session that was careful with a partition, a request is followed by right answers only, in every careful continuation and over all tables, if and only if its caller may make it |
| `CacheSafety.FirstRequestSafeIff` | deploy/web-ui/app.js:1746-1801 | a first request is safe if and only if its range does not begin before 1970 |
| `CacheSafety.SecondRequestSafeIff` | deploy/web-ui/app.js:1746-1801 | a second request while the first is unanswered is safe if and only if the two ranges overlap or abut |
| `CacheSafety.EarlyRangeSpoilsNext` | deploy/web-ui/app.js:1746-1801 | after a first range wholly before 1970, the next request from 1970 on is answered with nothing, whatever is stored |
| `CacheSafety.HiddenByEarlyRange` | deploy/web-ui/dashboard-runtime.js:50-57 | a concrete such range, with bounds that agree, that hides a stored reading |
| `CacheSafety.PlayIsRun` | deploy/web-ui/app.js:1746-1801 | every state of a session is reached by a run of the cache |
| `SessionTelemetry.TelemetryCache.ClearSessionTelemetryCache` | deploy/web-ui/app.js:546-557 | the generation moves on and nothing cached or in flight is reachable; running fetches go on |
| `SessionTelemetry.TelemetryCache.GetPartition` | deploy/web-ui/app.js:1686-1693 | reads a partition, creating an empty one without changing any other |
| `SessionTelemetry.TelemetryCache.BeginRequest` | deploy/web-ui/app.js:1746-1794 | the plan loop starts and awaits exactly the fetches of the abstract request step, joining those already in flight |
| `SessionTelemetry.TelemetryCache.MergeSensorRows` | deploy/web-ui/app.js:1716-1732 | the merge loop adds all rows, of a complete answer or not, a later one replacing an earlier one of the same key, and records the exact key and the wider coverage only for a complete answer |
| `SessionTelemetry.TelemetryCache.SettleFetch` | deploy/web-ui/app.js:1784-1793 | an answer is merged only in the generation that asked, and its fetch leaves the registry |
| `SessionTelemetry.TelemetryCache.SelectCachedSensorRows` | deploy/web-ui/app.js:1734-1744 | the filter loop returns exactly the cached rows in the range and leaves the cache as it was |
| `SessionTelemetry.FetchPartition` | deploy/web-ui/app.js:2541-2605 | the paging loop returns every row, in order, and says complete exactly when the service was read to its end; too many pages and repeated tokens are errors or an incomplete answer as asked |
| `Frames.CutStream` | crates/sonde-azure-companion/src/main.rs:1988-2020 | however a framed stream is cut, the reader gets the first whole frames and then tells a cut at a boundary, inside a length prefix and inside a payload apart |
| `BigEndian.FirstByteCountsMost` | crates/sonde-azure-companion/src/main.rs:2008 | the first byte of a number is its most significant one |
| `Frames.ParseInvertsFrames` | crates/sonde-azure-companion/src/main.rs:2022-2040 | reading inverts writing for any list of payloads within the limit |
| `Bridge.ReadFramed` | crates/sonde-azure-companion/src/main.rs:1988-2020 | whatever the chunking, the result is what stands in front of the stream, exactly that frame is consumed, and only a failed read gives an I/O error |
| `Bridge.PumpUpstream` | crates/sonde-azure-companion/src/main.rs:2042-2061 | published payloads are the first frames of the stream in order; without a fault all of them are published and the end is the stream's own: clean at a frame boundary, otherwise the error it shows |
| `Bridge.UpstreamLossless` | crates/sonde-azure-companion/src/main.rs:2117-2120 | published payloads are a prefix of the frames written, wherever the stream was cut; the end is clean if and only if the cut is on a frame boundary |
| `Bridge.Downstream.Receive` | crates/sonde-azure-companion/src/main.rs:1751-1835 | without a fault an empty queue, a message that fits and one that does not have their own outcomes; a message becomes the one in flight and is handed out, or nothing changes; one too large is asked back; a second receive while one is in flight is refused |
| `Bridge.Downstream.WriteFramed` | crates/sonde-azure-companion/src/main.rs:2022-2040 | without a fault the whole frame is written and flushed; otherwise some first bytes of it may be out and it does not count as delivered |
| `Bridge.Downstream.Complete` | crates/sonde-azure-companion/src/main.rs:1837-1880 | at most one DELETE is issued, for the message in flight, which is cleared only on success |
| `Bridge.Downstream.Abandon` | crates/sonde-azure-companion/src/main.rs:1882-1892 | the message in flight is asked back; success clears it, failure keeps it, and no DELETE is issued |
| `Bridge.Downstream.AbandonInflight` | crates/sonde-azure-companion/src/main.rs:1894-1899 | hands back the message in flight if there is one, and succeeds without one |
| `Bridge.Downstream.Pump` | crates/sonde-azure-companion/src/main.rs:2063-2092 | without a fault a message that fits is written as one frame, flushed and deleted, and one too large is asked back and refused; however it ends, deletes are one for one and in order the first messages flushed whole, and after an error a message not deleted was asked back |
| `Bridge.Downstream.RunBridge` | crates/sonde-azure-companion/src/main.rs:2104-2151 | for any polls of the queue: without a fault all messages up to the first too large are written and deleted in order; with cancellation at any await the still-inflight error never occurs, deletes are one for one and in order the first messages flushed whole, those are what is read back first from the bytes sent, and a message not deleted was asked back |
| `Bridge.DeletedIsReadable` | crates/sonde-azure-companion/src/main.rs:2063-2092 | parsing the bytes gives the delivered payloads and then at most one more, of the received ones in order |
| `StateSwap.StateDir.RenameDir` | crates/sonde-azure-companion/src/main.rs:660 | an atomic directory rename that a non-empty target refuses, and that never touches the directory in use |
| `StateSwap.StateDir.ReplaceMarker` | crates/sonde-azure-companion/src/main.rs:664-668 | the marker is the old one or the new one, never garbled, and the new one only over a full artifact set |
| `StateSwap.StateDir.UpdateMarker` | crates/sonde-azure-companion/src/main.rs:664-668 | the marker is the old one or names the new generation, and an error leaves it |
| `StateSwap.StateDir.ResolveEffectiveStateDir` | crates/sonde-azure-companion/src/main.rs:621-650 | a marker resolves to a directory with the full artifact set of one bootstrap that replaced the marker |
| `StateSwap.StateDir.CommitStaging` | crates/sonde-azure-companion/src/main.rs:652-686 | wherever it fails or dies, the state in use is the old one untouched or this bootstrap's full set; without a fault the old generation is gone and nothing else changed; a single failure leaves no orphaned generation |
| `StateSwap.StateDir.FillStaging` | crates/sonde-azure-companion/src/main.rs:608-615 | success means staging holds exactly this bootstrap's five artifacts, whatever was there before |
| `StateSwap.StateDir.Bootstrap` | crates/sonde-azure-companion/src/main.rs:2454-2519 | skips when state is present and not forced; an error leaves the marker exactly when it arose before the marker was replaced, so an error of the last progress display leaves the new state in use; without a fault it commits; the state in use is never mixed or partial |
| `StateSwap.StateDir.RunBootstraps` | crates/sonde-azure-companion/src/main.rs:2454-2519 | over any number of bootstraps the marker, once there, stays and names a full set, and a bootstrap that ended without replacing the marker never becomes active |
| `Cbor.DecodeItem` | test-programs/globals_diagnostic_handler.py:99-125 | an accepted item consumes at least one byte that is there, so decoding ends on every input, whatever count a map head claims |
| `Cbor.AcceptedIffInBounds` | test-programs/globals_diagnostic_handler.py:85-132 | the decoder with unchecked slices accepts exactly the payloads, with the same values, that a decoder checking every slice accepts |
| `Cbor.PairsTakeBytes` | test-programs/globals_diagnostic_handler.py:117-123 | a decoded map took at least two bytes for each claimed pair |
| `Cbor.EscapesIff` | test-programs/globals_diagnostic_handler.py:72-75 | apart from the recursion limit, an error escapes the handler if and only if the decoder comes to a pair whose key is a map with a value behind it, and it is a TypeError then |
| `Cbor.EscapingPayload` | test-programs/globals_diagnostic_handler.py:72-75 | the three bytes a1 a0 00 escape |
| `Cbor.RoundTripAt` | test-programs/globals_diagnostic_handler.py:99-164 | the encoding of any nested value, anywhere in the data, decodes to that value and stops right behind it |
| `Cbor.RoundTrip` | test-programs/globals_diagnostic_handler.py:99-164 | the same for an encoding followed by any suffix |
| `Cbor.PrefixFree` | test-programs/globals_diagnostic_handler.py:147-164 | no encoding is a prefix of the encoding of another value |
| `Cbor.ShortestHead` | test-programs/globals_diagnostic_handler.py:135-144 | no head that decodes to the same number is shorter than the encoder's (section 4.1 of RFC 8949) |
| `Cbor.ReencodeIsCanonical` | test-programs/globals_diagnostic_handler.py:128-168 | re-encoding an accepted payload is possible, no longer than the payload, and decodes to the same value |
| `Cbor.MajorTypes` | test-programs/globals_diagnostic_handler.py:147-164 | the first byte carries the major type of section 3.1 of RFC 8949 |
| `Cbor.StandardExamples` | test-programs/globals_diagnostic_handler.py:135-164 | encodings of appendix A of RFC 8949 |
| `Cbor.StandardLargeExamples` | test-programs/globals_diagnostic_handler.py:135-144 | four-byte and eight-byte heads of appendix A of RFC 8949 |
| `Cbor.PutThenGet` | test-programs/globals_diagnostic_handler.py:117-123 | of repeated keys the last value counts, and no other key is touched |
| `Cbor.EncodeValue` | test-programs/globals_diagnostic_handler.py:147-164 | the appending loop yields the specified encoding, and fails exactly when a number or length anywhere inside is out of the 64-bit range |
| `Cbor.DecodeValue` | test-programs/globals_diagnostic_handler.py:99-125 | the loop that fills a dict refines the recursive decoder, errors included |
| `Autorange.NeverFlaps` | test-programs/veml7700_sensor.c:240-258 | under constant light a step up is never followed by a step down, nor the reverse |
| `Autorange.ClimbSettles` | test-programs/veml7700_sensor.c:240-258 | going up, the loop stops at the first band that is not overexposed |
| `Autorange.DescentSettles` | test-programs/veml7700_sensor.c:240-258 | going down, the loop stops at the first band that is not underexposed |
| `Autorange.AutorangeConverges` | test-programs/veml7700_sensor.c:260-305 | from any map contents and with failed wakes in between, nine successful wakes reach a band below 10 that is in range or at an end, and it is kept from then on |
| `Autorange.FreshConvergesInFive` | test-programs/veml7700_sensor.c:133-141 | with a map never written or holding no band, five successful wakes suffice |
| `Autorange.StateMap.Program` | test-programs/veml7700_sensor.c:260-305 | a successful wake stores the next band of the control loop and reports the light of the band it measured in; a failed one stores nothing |
| `Autorange.LuxNeverOverflows` | test-programs/veml7700_sensor.c:228-238 | the product behind the reported value fits 32 bits in every band |
| `Autorange.LuxOfCounts` | test-programs/veml7700_sensor.c:228-238 | the reported value is never 0 and otherwise the counted light rounded down |
| `Autorange.ScaleDoubles` | test-programs/veml7700_sensor.c:202-226 | the most sensitive band is 36 tenths of a millilux a count, each next one twice as much |
| `Autorange.LuxIsAccurate` | test-programs/veml7700_sensor.c:228-238 | in range, the reported value is below the light by at most one part in 16384 and one unit |
| `Bmp280.ReadS16IsSigned` | test-programs/bmp280_sensor.c:55-63 | the calibration word is the one signed 16-bit number with those two bytes |
| `Bmp280.TemperatureExact` | test-programs/bmp280_sensor.c:65-82 | for every reading and calibration no step overflows, the 22-bit and 20-bit bounds hold and the result is the exact one |
| `Bmp280.TemperatureAccurate` | test-programs/bmp280_sensor.c:65-82 | the temperature is within 21 thousandths of a degree of the real-valued formula of BST-BMP280-DS001, appendix 8.1 |
| `Bmp280.DivisorExact` | test-programs/bmp280_sensor.c:98-106 | no step up to the divisor overflows 64 bits |
| `Bmp280.DeltaExact` | test-programs/bmp280_sensor.c:98-110 | no step up to the dividend overflows 64 bits |
| `Bmp280.DivideExact` | test-programs/bmp280_sensor.c:112-116 | the division loses nothing in 64 bits for every dividend and divisor the formula yields |
| `Bmp280.DivisionFormsAgree` | test-programs/bmp280_sensor.c:112-116 | shifting before or after the division differs by at most one |
| `Bmp280.CorrectionFitsIff` | test-programs/bmp280_sensor.c:118-120 | the correction fits its types for every calibration if and only if the quotient is at most 12148001999 |
| `Bmp280.CorrectionCanOverflow` | test-programs/bmp280_sensor.c:118-120 | a concrete calibration block whose correction does not fit |
| `Bmp280.PressureExact` | test-programs/bmp280_sensor.c:84-126 | wherever the correction fits, which is up to the quotient 12148001999 for every calibration, the pressure is the exact one if and only if that fits 32 bits; with a quotient of at most 2^17 it is below 2^18 |
| `Bmp280.ReadingExact` | test-programs/bmp280_sensor.c:155-164 | for every calibration block and register burst the temperature is exact, and the pressure is exact if and only if it fits, wherever its correction does |
| `Bmp280Accuracy.PressureAccurate` | test-programs/bmp280_sensor.c:98-120 | for every reading and calibration with a quotient of at most 2^17, the corrected pressure is within 4 + 1.3125 e + e^2/2^20 Pa of the real-valued formula of BST-BMP280-DS001, appendix 8.1, for any quotient error e that the rounding of dividend and divisor over the real divisor allows |
| `Bmp280Accuracy.PressureWithin280` | test-programs/bmp280_sensor.c:98-120 | for every calibration with a real divisor of at least 2^15 that is 280 Pa |
| `Bmp280Accuracy.PressureWithin100` | test-programs/bmp280_sensor.c:98-120 | with small p5 and p6 and a real divisor of at least 2^14 it is 100 Pa, the sensor's own absolute accuracy |
| `Bmp280Accuracy.DatasheetSample` | test-programs/bmp280_sensor.c:155-164 | the register bytes of the datasheet's example give its calibration words, readings, t_fine, temperature and pressure |
| `DisplayControl.Generation.ClaimDisplayGeneration` | crates/sonde-gateway/src/display_control.rs:29-33 | the counter moves by one, modulo 2^64, and the ticket is its new value |
| `DisplayControl.Generation.InvalidateDisplayRestore` | crates/sonde-gateway/src/display_control.rs:35-37 | the counter moves by one, modulo 2^64 |
| `DisplayControl.Generation.TryClaimDisplayRestore` | crates/sonde-gateway/src/display_control.rs:39-48 | succeeds and moves the counter exactly when it holds the ticket |
| `DisplayControl.RestoreIffCameRound` | crates/sonde-gateway/src/display_control.rs:29-48 | after any operations a restore succeeds if and only if the counter moved by a multiple of 2^64 since the ticket |
| `DisplayControl.RestoreIsExclusive` | crates/sonde-gateway/src/display_control.rs:29-48 | with fewer than 2^64 moves it succeeds if and only if there was no claim, no invalidation and no restore of the ticket then held |
| `DisplayControl.TicketRestoresOnce` | crates/sonde-gateway/src/display_control.rs:39-48 | a ticket that has restored does not restore again |
| `DisplayControl.TicketsAreUnique` | crates/sonde-gateway/src/display_control.rs:29-33 | claims fewer than 2^64 moves apart get different tickets |
| `MetricSeries.CollectTimestamps` | deploy/web-ui/dashboard-runtime.js:848-853 | the set holds exactly the timestamps of the samples of all variables |
| `MetricSeries.SortTimestamps` | deploy/web-ui/dashboard-runtime.js:855 | the list is strictly ascending and has exactly the members of the set |
| `MetricSeries.EvaluateMetric` | deploy/web-ui/dashboard-runtime.js:830-887 | an expression without variables is an error; otherwise the points are exactly the times where every used variable has a number and the result is finite, strictly ascending, with those values |
| `MetricSeries.SeriesIsUnique` | deploy/web-ui/dashboard-runtime.js:861-887 | that description admits only one list |
| `MetricSeries.DefinedIff` | deploy/web-ui/dashboard-runtime.js:856-881 | a point exists where the last samples of all used variables at a time are numbers, finite or not, and the expression is finite on them; that is its value |
| `MetricSeries.DownsamplePoints` | deploy/web-ui/dashboard-runtime.js:708-717 | short series are returned as they are, longer ones at the exact step indices, and limits below two leave the last point |
| `MetricSeries.IndexSteps` | deploy/web-ui/dashboard-runtime.js:708-717 | kept indices begin at the first point, end at the last, strictly increase and never skip more than a step rounded up |
| `MetricSeries.IndexIsFloor` | deploy/web-ui/dashboard-runtime.js:708-717 | before the last, the kept index is the step number times the step rounded down |
| `MetricSeries.PlottedPoints` | deploy/web-ui/dashboard-runtime.js:768-771 | a chart plots min(500, n) points of the metric in ascending order, first and last included |
| `Calendar.DateOfDays` | crates/sonde-azure-handler/src/lib.rs:839-876 | the year and month loops end with a valid date whose day number, in closed form, is the one given |
| `Calendar.DayNumberOrders` | crates/sonde-azure-handler/src/lib.rs:839-876 | day numbers order dates, so that date is the only one |
| `Calendar.Iso8601` | crates/sonde-azure-handler/src/lib.rs:828-886 | the text is that of the UTC calendar time whose second count is the one given |
| `Calendar.TextOrder` | crates/sonde-azure-handler/src/lib.rs:877-885 | up to year 9999 string order of timestamps is time order |
| `Calendar.SortableIff` | crates/sonde-azure-handler/src/lib.rs:877-885 | all timestamps up to a limit sort as time if and only if the limit is before year 10000 |

## Left out

- HTTP, SDK, socket and process code: storage tables, queues and the file system are abstract state with failures.
- Cryptography, certificates and base64, and the ciborium encoding of DESIRED_STATE: messages are records of their fields.
- Partition keys: one node or gateway partition is modelled; encoding of identifiers into partition keys is not.
- Empty or malformed entity identifiers and undecodable columns: these deliveries end before the first step modelled.
- Node escrow look-up by key hint: its result is a given list latched when a gateway delivery arrives.
- Process start, the atomic sequence counter and the nonce: a row key may have any sequence number and nonce not used before at that timestamp, and a reused one is refused as a conflict.
- Program ingest and its verification: an image appears in the programs table in one step.
- Late rows and the actual-state watermark cache: sensor tables are fixed within a generation.
- Order of cached rows: the cache returns a map of rows; the order of a JavaScript Map is not modelled.
- SensorCache.CacheRunSound: a request whose start is after its end breaks the condition; no caller makes one (`deploy/web-ui/dashboard-runtime.js:55`, `deploy/web-ui/app.js:3204` and `deploy/web-ui/app.js:3932-3933`).
- Times outside the range of a JavaScript Date, which only an edited dashboard file could hold, and fractions of a millisecond, which the filter refuses.
- CacheSafety.RequestSafeIff: a fetch that is cut short is taken to bring no rows; SensorCache.CacheRunSound and SensorCache.CacheRefinesQuery take any rows it may bring.
- SensorCache.CacheRefinesQuery: takes the merge and the removal from the in-flight registry as one step.
- SessionTelemetry.FetchPartition: one partition at a time; the loop over partitions is the same code again.
- StateSwap.StateDir.CommitStaging: renames are atomic and ordered; loss of data not yet synced to disk is not modelled, nor are two bootstraps at once.
- StateSwap.StateDir.FillStaging: contents are identified by the bootstrap that wrote them; progress display and deployment calls can only fail.
- Bridge.Downstream.RunBridge: says nothing about redelivery after the visibility timeout, which is the queue's part.
- Cbor.DecodeValue: Python's recursion limit is not modelled, nor is memory.
- Cbor.EscapesIff: about a thousand nested maps, which fit in a message, also escape, as a RecursionError of that limit.
- Cbor.EncodeValue: values of types other than int, bytes, str and dict, which the encoder refuses, cannot be written down in the model.
- BMP280 helpers reassign locals and hand `t_fine` back through an out-argument; they are modelled on values.
- Bmp280Accuracy.PressureAccurate: quotients above 2^17 Pa, beyond the sensor's 110 kPa, are left out; the bound grows as the divisor shrinks.
- MetricSeries.DownsamplePoints: the step is exact; rounding of a floating-point step is not modelled.
- MetricSeries.EvaluateMetric: parsing of expressions, undefined variables and fetch errors come before the part modelled; evaluation is an arbitrary function.
- Autorange.AutorangeConverges: counts are taken as light divided by the scale and capped; integration time and the non-linear response of the sensor are not modelled.
- TMP102 and SHT40 conversions, user interface, command lines, provisioning, gateway engine, radio protocol and BPF interpreter.
