# stest core, modelled in Dafny

This project models the sequential logic of `stest`, a command-line speed
test client written in Rust. It proves properties of that model. The
modelled parts are:

- the synthetic upload body `UploadData`: a reader that hands out
  8192-byte zero chunks until a target size or a time budget is reached;
- the choice of the five closest servers (`pick_closest_servers`);
- the HTTP "ping" scoring and best-server choice (`find_best_server_by_ping`);
- the bookkeeping of the download and upload measurements: the download URL
  fan-out, the download read loop, the upload size plan, one upload worker
  driving its `UploadData`, the byte totals, and the elapsed-time
  conversion to milliseconds;
- the client-configuration parser `ClientConfig::from_xml`;
- the CSV file-name normalisation `get_full_file_name`.

Network requests, threads and clocks are not modelled. What they produce
is an input:

- elapsed times are `Duration` values;
- each HTTP outcome is a datatype value: a status, a list of body reads, or
  a transport error;
- a worker thread that panicked is an explicit outcome;
- the geographic distance is a function parameter that returns the rounded
  kilometre key;
- the f32 parser is a function parameter;
- the clock text placed in download URLs is a list of strings.

A `BTreeMap<u64, V>` is modelled as a strictly sorted association list. On
this list `Insert` replaces the value of an existing key, as
`BTreeMap::insert` does, and iteration starts from the least key.

Integers are unbounded. A `u64` subtraction that would go below zero is
modelled as the panic of a debug build:

- in `UploadData::read` it is a precondition of `Read`;
- the upload worker checks for it and reports a panicked worker, which the
  join counts as 0;
- a zero `ratio` in the upload plan is excluded by a precondition.

Behaviours of the code that a reader might not expect, and that the model
keeps:

- **Ties at equal rounded distance.** The comment at src/lib.rs:51 says
  that of two servers at the same distance the first is ignored. The
  `BTreeMap::insert` at src/lib.rs:61 does exactly that: the later server
  replaces the earlier one (`ServerSelection.TiedServersKeepTheLater`).
  With servers at 10, 10 and 50 km, the second 10 km server and the 50 km
  one are picked.
- **Ties at equal ping score.** The scores are keys of a `BTreeMap`
  (src/lib.rs:144), so of two servers with the same score the later one is
  kept (`LatencyProbe.EqualScoresKeepTheLater`).
- **Number of candidates.** `max_servers` is the constant 5
  (src/lib.rs:64).
- **Chunk size of a read.** `UploadData::read` zeroes bytes 0 to 8191 of
  the buffer and reports 8192 bytes whatever the buffer's length
  (src/upload_data.rs:35-39). A productive read therefore needs a buffer of
  at least 8192 bytes; a shorter one would panic on the index.
- **Type of `maxchunkcount`.** It is declared as a `String` in
  `UploadConfig` (src/config.rs:106), but `perform_upload_test` uses it as
  a number (src/lib.rs:263-270). The model types it as a natural number.

## Model

| member | source | states |
|---|---|---|
| Time.AsMillis | src/lib.rs:246 | `secs*1000 + nanos/1e6` is the duration truncated to whole milliseconds: `ms` ms ≤ duration < `ms+1` ms |
| Time.AsMillisMonotone | src/lib.rs:337 | a longer duration never converts to fewer milliseconds |
| Time.SecsAtLeastIffMillisAtLeast | src/lib.rs:196 | `as_secs() >= b` holds exactly when the millisecond conversion is at least `b*1000` |
| Decimal.ParseU64 | src/config.rs:63 | `str::parse::<u64>`: fails on empty text, a lone `+`, any non-digit other than a leading `+`, or a digit string (signed or not) whose value is above 2^64−1; otherwise gives the decimal value of the digits after an optional leading `+` |
| Decimal.PlusSignIgnored | src/config.rs:63 | one leading `+` before a text that does not itself start with `+` parses exactly as the text alone |
| Decimal.ParseU64Examples | src/config.rs:63 | `+7` gives 7; `++7`, `+` and `-7` do not parse |
| Decimal.ToDecimal | src/lib.rs:160-161 | `{}` formatting of an integer: non-empty digits, no leading zero, denoting the number |
| Decimal.ParseToDecimal | src/config.rs:63 | parsing the decimal text of any `u64` gives the number back |
| Decimal.ToDecimalInjective | src/lib.rs:160-161 | different numbers format to different texts |
| OrderedMap.Insert | src/lib.rs:61 | `BTreeMap::insert`: keeps the keys sorted; afterwards the key maps to the new value and every other key is unchanged |
| OrderedMap.InsertAllLastWins | src/lib.rs:55-62 | after a series of inserts each key holds the value of its LAST insertion |
| OrderedMap.KeyInsertedIsInMap | src/lib.rs:55-62 | every key inserted is a key of the map |
| OrderedMap.SortedSize | src/lib.rs:67 | the map has one entry per distinct key |
| OrderedMap.EntryOrigin | src/lib.rs:144 | every entry of the map is the last pair inserted under its key, so the map holds no key that was not inserted |
| OrderedMap.FirstIsLeast | src/lib.rs:147 | the first entry of a non-empty map has the least key ever inserted |
| UploadData.Emitted | src/upload_data.rs:30-43 | a read emits 0 or 8192 bytes, and 8192 exactly when bytes remain and the elapsed ms are within `timeout*1000` |
| UploadData.UploadSource.constructor | src/upload_data.rs:15-21 | `new(n, t)`: target `n`, budget `t`, start time recorded, counter 0 |
| UploadData.UploadSource.Read | src/upload_data.rs:27-48 | `read`: returns what `Emitted` says, whatever the buffer length; the counter grows by exactly that much; the other fields stay the same; a productive read zeroes bytes 0..8191 and nothing else, an empty read leaves the buffer alone; no error result; an aligned counter stays aligned and within the target |
| FileUtils.FullFileName | src/file_utils.rs:12-19 | the result ends in `.csv`, starts with the input, is the input or the input plus 4 characters, and equals the input exactly when the input already ends in `.csv` |
| FileUtils.FullFileNameAppends | src/file_utils.rs:18 | a name not ending in `.csv` gets `.csv` appended |
| FileUtils.FullFileNameIdempotent | src/file_utils.rs:12-19 | normalising twice is normalising once |
| FileUtils.FullFileNameExamples | src/file_utils.rs:25-33 | `abc` → `abc.csv` and `abc.csv` → `abc.csv` |
| Config.UnsignedOrZero | src/config.rs:61-67 | `parse::<u64>().unwrap_or(0)`: a value that parses gives the parsed number; one that does not (malformed or above 2^64−1) gives 0 |
| Config.FromXml | src/config.rs:33-80 | the loop over attributes with mutable locals yields the fold of the attribute updates from the defaults |
| Config.AttributeSetsOneField | src/config.rs:43-68 | an attribute sets only the field it names, to its decoded value (text verbatim, numbers parsed or 0) |
| Config.FieldFromLastOccurrence | src/config.rs:42-68 | every field is decided by the last attribute with its name, or is its default if there is none |
| Config.UnknownAttributeIgnored | src/config.rs:42-68 | an attribute with an unrecognised name changes nothing |
| Config.UnrecognisedAttributesIrrelevant | src/config.rs:42-68 | dropping every unrecognised attribute gives the same configuration |
| Config.NoAttributesGiveDefaults | src/config.rs:34-40 | no attributes: empty `ip`/`isp`, zero floats, 0 for `ispdlavg`/`ispulavg` |
| Config.RepeatedAndMalformedNumbers | src/config.rs:61-64 | `ispdlavg` given as "5" then "7" is 7; given as "5" then "7x" it is 0 |
| ServerSelection.PickClosestServers | src/lib.rs:43-85 | the caller's vector keeps its contents and gains the closest servers, in map order, as field-by-field copies |
| ServerSelection.MapEntryIsLastServerWithKey | src/lib.rs:55-62 | each distance-map entry is the last catalog server at that rounded distance |
| ServerSelection.DistanceMapSize | src/lib.rs:53-62 | the distance map has one entry per distinct rounded distance |
| ServerSelection.ClosestServersCount | src/lib.rs:64-83 | `min(5, number of distinct rounded distances)` servers are appended |
| ServerSelection.ClosestServersOrderedAndLastWins | src/lib.rs:51-82 | appended servers have strictly increasing rounded distances, and each is the last catalog server at its distance |
| ServerSelection.ClosestServersAreNearest | src/lib.rs:64-83 | every catalog server shares its rounded distance with a picked one, or five were picked and all are strictly nearer |
| ServerSelection.TiedServersKeepTheLater | src/lib.rs:51-82 | servers at 10, 10 and 50 km give the second 10 km server and the 50 km one |
| LatencyProbe.AttemptCost | src/lib.rs:118-139 | an attempt costs its elapsed ms on 200 OK, 360000 on another status, and 3600000 on a transport error |
| LatencyProbe.FindBestServerByPing | src/lib.rs:89-150 | three attempts per server, integer mean; the result has the minimum score of all servers and is the last server with that score |
| LatencyProbe.ScoreBetweenCosts | src/lib.rs:143 | the score lies between the cheapest and the dearest attempt |
| LatencyProbe.TransportErrorLoses | src/lib.rs:131-143 | one transport error puts a server at 1200000 or more, so it loses to any server with three OK answers within 1200 s |
| LatencyProbe.ScoreExamples | src/lib.rs:101-143 | {10, 20, 30} ms score 20; three transport errors score 3600000; three bad statuses score 360000 |
| LatencyProbe.EqualScoresKeepTheLater | src/lib.rs:144 | two servers with the same score, whatever their three attempts were, leave only the later one in the map |
| Aggregate.Contribution | src/lib.rs:240 | a panicked worker counts 0, a finished one its bytes |
| Aggregate.JoinAll | src/lib.rs:236-241 | the join loop's total is the sum of the workers' contributions |
| Aggregate.TotalIsOrderIndependent | src/lib.rs:329-333 | the total does not depend on the order of the workers |
| Aggregate.PanickedCountsAsNothing | src/lib.rs:329-333 | each finished worker's bytes are within the total; a panicked worker gives the same total as a worker that sent nothing |
| UploadTest.Remaining | src/lib.rs:264-265 | the sizes after skipping `ratio − 1` of them |
| UploadTest.UploadPlan | src/lib.rs:262-284 | the nested push loops and `take` give the planned sizes: the remaining sizes, each repeated `upload_count` times, cut at `maxchunkcount` |
| UploadTest.PlannedSizesIndex | src/lib.rs:277-284 | there are `min(maxchunkcount, remaining*count)` uploads, and upload `j` sends remaining size `j / count` |
| UploadTest.PlanLengthCases | src/lib.rs:267-284 | 1 to `2*maxchunkcount` remaining sizes give exactly `maxchunkcount` uploads; more, or none, give no uploads |
| UploadTest.PlanExample | src/lib.rs:262-284 | sizes 1..8, ratio 5, at most 10 chunks: 5 five times, then 6 five times |
| UploadTest.UploadWorker | src/lib.rs:290-323 | a worker builds `UploadData`, lets the request read until a read gives 0, and reports the counter; it panics on a read after an overshoot, and when the progress dot's `print!`/`flush` after an answered POST panics (src/lib.rs:315-316) |
| UploadTest.AlignedUploadFinishes | src/upload_data.rs:30-43 | a target that is a multiple of 8192 never panics and reports at most the target, in whole chunks |
| UploadTest.AlignedWithinBudgetSendsAll | src/upload_data.rs:30-43 | reads within the budget, one more than the chunks left, send an aligned target exactly |
| UploadTest.LateFirstReadSendsNothing | src/upload_data.rs:34 | a first read past the budget ends the upload with 0 bytes |
| UploadTest.FlushPanicCountsNothing | src/lib.rs:315-316 | a panic in the progress dot loses the thread's whole upload (it counts 0 at the join); without it the thread reports what its body sent |
| UploadTest.UnalignedUploadPanics | src/upload_data.rs:30 | a 10000-byte target overshoots to 16384, and the next read's subtraction panics, so the worker counts 0 |
| UploadTest.PerformUploadTest | src/lib.rs:256-343 | the total is the sum over the planned sizes of each worker's outcome, a worker whose progress dot panicked counting 0; elapsed is converted to milliseconds |
| DownloadTest.DownloadUrls | src/lib.rs:154-165 | 4 URLs per dimension, in dimension order, URL `j` numbered `j` and naming dimension `j/4` |
| DownloadTest.DownloadUrlsDistinct | src/lib.rs:160-162 | URLs with different counters differ, whatever the clock texts |
| DownloadTest.DownloadWorker | src/lib.rs:188-229 | the read loop counts read sizes up to a 0-byte read, a read error or 10 elapsed seconds; a non-OK status or a failed send counts 0 |
| DownloadTest.BytesReadBound | src/lib.rs:201-205 | each read adds at most the 8192-byte buffer |
| DownloadTest.ReadsAfterTimeLimitIgnored | src/lib.rs:196-199 | nothing read from the first pass that finds 10 s elapsed onwards is counted |
| DownloadTest.BytesReadExamples | src/lib.rs:203-213 | 8192+100 then an empty read give 8292; a read error stops the count; the time limit stops it at 10 s |
| DownloadTest.PerformDownloadTest | src/lib.rs:153-253 | the URLs as above; the total is the sum of the workers' byte counts, panicked ones counted 0; elapsed in milliseconds |

## Left out

- HTTP clients, connectors, timeouts, headers, thread spawning, `Instant` and console output: their results are inputs (whether the progress dot after a download response or an upload POST panicked is an input per worker).
- `compute_speed_in_mbps` (src/utils.rs) and the haversine distance (src/geo.rs): floating point. The distance is a parameter returning the rounded key.
- f32 parsing of `lat`, `lon` and `isprating`: floating point. The parser is a parameter, and its failure gives the all-zero bit pattern of `0.0`.
- `get_config_map`, `get_config` and `build_full_config` (src/config.rs): network and XML I/O, and `build_full_config` does not type-check.
- `write_to_file` (src/file_utils.rs): file I/O.
- `parse_url`, and the `Url::parse(..).unwrap()` on each server URL in `find_best_server_by_ping`: `url` crate calls. A server URL that does not parse, or has no host, makes the source panic (src/lib.rs:94-95); the model assumes every server is probed.
- src/main.rs and src/args.rs: an I/O prototype and a command-line definition.
- `precise_time_s`: its text is an input, one string per download URL.
- Release-build wrap-around of the u64 subtraction at src/upload_data.rs:30: the model takes the debug build's panic. In a release build, a target that is not a multiple of 8192 wraps to a huge remainder after the overshoot, so reads keep sending until the time budget runs out, and the worker reports the overshot counter instead of panicking. Likewise, a zero `ratio` makes `ratio - 1` at src/lib.rs:264 wrap, which skips every size, so no upload is made; the model excludes `ratio` 0 by a precondition of `UploadTest.Remaining`, `UploadTest.UploadPlan` and `UploadTest.PerformUploadTest`.
- u64 overflow of additions and multiplications (`secs * 1000`, `timeout * 1000`, `max_chunk_count * 2`, running byte totals): integers are unbounded here.
- UploadData.UploadSource.Read: requires the counter not to exceed the target; the source's subtraction would panic there, and `UploadTest.UploadWorker` models that panic.
- DownloadTest.DownloadWorker: a response whose recorded reads run out is treated as a body that ended; the source would keep reading.
- UploadTest.UploadWorker: a schedule of read times that runs out is treated as the request ending; the counter reached so far is reported, as the source does after a failed send.
- LatencyProbe.FindBestServerByPing: requires a non-empty server list (the source panics on `unwrap` of an empty map) and one three-attempt trial per server.
