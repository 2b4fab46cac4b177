# vpub-exporter: a verified model

vpub-exporter follows the log files of a running publisher, probes its RPC endpoints, its systemd
unit and its files, and turns what it sees into counters and gauges. This project models how it does
so and proves what those numbers mean. `dafny verify dfyconfig.toml` checks all of it.

The main results:

- **Tailing is batch processing, session by session.** Whatever rotation, replacement, truncation and
  failing calls do to the polling loop, its output is the concatenation of the batch outputs of its
  sessions (`Tailing.Loop`). `TailingLaws.RealIffUnaltered` says exactly when all through a run every
  session is its file from byte 0 as the last poll that read it saw it: when no poll finds the complete
  part of what the poll before it read changed. Publishers that only append meet that
  (`TailingLaws.AppendOnlyIsUnaltered`); a truncation that no poll sees breaks it
  (`Rotation.UnseenTruncation`); for one name the condition is about the file alone
  (`Rotation.UnrotatedIff`). What one poll sees is text the file held at one moment exactly when its
  reads find each other's text in place (`Logtail.SeenIsFileIff`). Under rotation each file is read until the poll that gives it up, and read
  once exactly when its name is not opened again (`Rotation.RotationLaw`).
- **Nothing is lost between tailer and metric.** In every interleaving of two tailers, two 64-slot
  channels, a select and a cancellation, each channel conserves its matches and the metrics are the
  fold of the received ones (`FanIn.Conservation`); whenever nothing is in flight they do not depend on
  the interleaving (`FanIn.Confluence`), and without cancellation every run can be continued to such a
  point (`FanIn.Delivers`). `VoteLogs.VotesEndToEnd` takes this from two whole polling runs to the counters.
- **Counters count emissions.** A line counts once per subscribed pattern that it matches
  (`Counting.MultiplicityLaw`), so a counter is the number of lines exactly when no contributing line
  matches two patterns (`Counting.PlainCountIff`).
- **The RPC tick.** Every schedule of the semaphore, WaitGroup and mutex steps respects the
  parallelism bound, never gets stuck, ends, and leaves the same counters
  (`BridgeRpc.TickResult`, `BridgeRpc.ScheduleIndependence`); `BridgeRpc.OneOutcomeIff` says exactly
  when a gauge does not depend on the schedule.
- **The restart counter** never exceeds the unit's true restart count, and equals it after a good
  sample exactly when, in the order of events, no good sample came too late for a restart
  (`Service.ExactIff`); resets that are bracketed by samples do no harm (`Service.BracketedIsExact`).
- **Parsers invert printers**: `/proc/<pid>/stat` with any command name, binary targets with `=` in
  their paths, newline- and comma-separated lists.

- **Answers from the inputs alone.** What is emitted, counted, classified, parsed or sorted is also
  stated without the functions the operations share: over what the patterns find
  (`Logtail.OutputIsEmission`, `VoteLogs.BridgeStepIs`), the probes' errors
  (`BridgeRpc.TickAnswers`), how a text is written (`Config.ListReadsIff`, `Procs.ReadPPIDIff`), and
  the first difference of two strings (`BestEffort.BelowIff`).

## How the program is represented

- `Text` has the parts of Go's `strings` and `strconv` that the parsers use.
- `Logtail` is one drain against the batch specification; `Tailing` the polling loop; `TailingLaws`
  what its sessions are worth, and `Rotation` what they come to under daily rotation. A regular
  expression is known through `FindStringSubmatch` alone, the two time layouts of
  `ParseLineTimestamp` are arbitrary functions, time is whole nanoseconds. The
  loop's environment is a script of polls: what the lookup answers, the file system at the stat and at
  the open (two independent worlds, so that names can move in between), whether the stat of the opened
  handle succeeds, and, for each read(2) of the drain, what the file is at that moment and how many
  bytes the call returns, if it does not fail. The drain has bufio's buffer, so bytes read early are
  still used after the file has changed.
  The script may end anywhere, which is how a run that is cancelled between two polls looks; a
  cancellation during a send is a bound on the number of sends. An inode is a file's true identity:
  an open handle pins it, so it is not reused while it is compared. Log text is a sequence of
  bytes, each written as a character.
- `FanIn` is the concurrent machine of two tailers and a select. `VoteLogs`, `Counting` and
  `LogCounters` are the collectors fed by it. A counter or gauge with labels is a map, in which a
  missing counter is 0; gauges are integers. A tailer closes its channel only when cancelled.
- `BridgeRpc` is the concurrent machine of one RPC tick; a probe's answer is arbitrary, timeouts
  included.
- `Service`, `Procs`, `Config`, `BridgeState`, `Logfs` and `BestEffort` follow the collectors and
  parsers of the same names. Every call to systemd, procfs, the file system or the network is an
  arbitrary reply handed to the operation. The choices Go leaves open (select, goroutine schedule,
  map iteration order) are arbitrary in the model.

Where the code and its own comments differ, the code is followed:

- `Subscribe` promises to close the channel on a non-retryable error; only cancellation closes it
  (internal/logtail/logtail_poll.go:61, 76).
- `drain` says its offset is past the last *emitted* newline; it is past every complete line, also a
  filtered or unmatched one (internal/logtail/logtail_poll.go:149, 169). `Logtail.Drain` states which.
- Truncation is documented as a rewind, but it is noticed only while the file is shorter than the
  offset (internal/logtail/logtail_poll.go:25, 114): `TailingLaws.TruncationSeenIff` says exactly when
  that is good enough, `Rotation.UnseenTruncation` shows what happens when it is not.
- Following the newest file is said to handle any rotation (internal/logfs/logfs_os.go:10-13); a late
  write to yesterday's file makes it the newest again, and it is then read once more from byte 0, and so
  is today's after it. `Rotation.RotationLaw` says exactly when.
- The outcome counters are documented per matched line; they count per matching pattern
  (internal/collectors/outcome_logs.go:15): `LogCounters.CritCountsLinesIff` and
  `LogCounters.WarnCountsLinesIff` say when that makes no difference, `LogCounters.OneLineCountsTwice`
  shows that it can.
- The restart counter's guard against a reset count (internal/collectors/service.go:99-106) keeps the
  counter from falling, and still loses restarts: `Service.WipedRestartIsLost`,
  `Service.HiddenRestartIsLost`.
- A name listed twice in `VPUB_BRIDGE_RPC_NAMES` is probed twice, and the two probes race for one
  gauge: `BridgeRpc.OneOutcomeIff` says exactly when that shows.

## Model

| member | source | states |
|---|---|---|
| Logtail.LinesAppend | internal/logtail/logtail_poll.go:149-151 | However a text is cut in two, its lines are those of the first part followed by those of the held-over partial line joined to the second; tail and offset likewise. |
| Logtail.LinesUnique | internal/logtail/logtail_poll.go:166-170 | Lines and rest are the only way to write a text as newline-free lines each ended by a newline and a newline-free rest. |
| Logtail.CompletePart | internal/logtail/logtail_poll.go:149-170 | The text up to the offset has all the complete lines and nothing held over. |
| Logtail.OutputConcat | internal/logtail/logtail_poll.go:165-193 | The batch output of two runs of lines is the first's output followed by the second's. |
| Logtail.OutputIgnoresClock | internal/logtail/logtail_poll.go:178-181 | When every emitted line carries a parseable timestamp, the output does not depend on when the lines were read. |
| Logtail.OutputIsEmission | internal/logtail/logtail_poll.go:165-193 | The batch output, from the filter and what the patterns find alone: one match for every line and pattern such that there is no filter or it finds something in the line, and the pattern finds something in it; in the order of lines and then patterns; each under its line's own time or the clock. |
| Logtail.StampIs | internal/logtail/logtail_poll.go:212-228 | A line of at least 19 characters with its first space at 1 to 32 is stamped by the text before it: by the layout with fractions, else by the other, else by the clock; any other line by the clock. |
| Logtail.EmitLine | internal/logtail/logtail_poll.go:182-191 | One emission per matching pattern in pattern order, cut exactly at cancellation, and it reports whether it was cut. |
| Logtail.ReadString | internal/logtail/logtail_poll.go:162-168 | Whatever the reads return, either the next complete line is taken off the buffered and still unread bytes, and nothing is lost or read twice, or there is no newline left in all of them. |
| Logtail.HittingStep | internal/logtail/logtail_poll.go:166-192 | Taking one line takes just that line's matches (none if filtered) off what is pending; the final offset stays the same. |
| Logtail.SeenIsFileIff | internal/logtail/logtail_poll.go:158-202 | What a drain sees is the beginning of one text (the file at one moment) if and only if the part before the offset and every chunk it reads are that text's in their places. |
| Logtail.SeenBetween | internal/logtail/logtail_poll.go:158-202 | Of a file that only grows a drain sees a beginning of what it comes to, with all that was before the offset; if it ends at the end of the file, with all that was there when it began. |
| Logtail.Drain | internal/logtail/logtail_poll.go:158-202 | Whatever the file is at each read(2), truncations and failing reads included, the bytes a drain gets are cut into newline-free lines and a rest, the matches of those lines are emitted as `OutputIsEmission` says, and the offset moves past all but the rest; cancellation only cuts the output. |
| Tailing.SessionEmits | internal/logtail/logtail_poll.go:158-202 | What a session emits is what its own text says, cut into lines. |
| Tailing.RereadOutput | internal/logtail/logtail_poll.go:158-202 | Draining grows the session's batch output by exactly what was pending and moves its offset to the end of the complete lines. |
| Tailing.AttachOutput | internal/logtail/logtail_poll.go:103-133 | Opening, replacing and rewinding emit nothing and keep what was emitted. |
| Tailing.RoundOutput | internal/logtail/logtail_poll.go:95-139 | One poll adds to the output exactly what is pending in the file it ends up with, and keeps path, inode and offset in step. |
| Tailing.Reattach | internal/logtail/logtail_poll.go:103-133 | The loop's variables (handle, path, inode, offset) agree with the session machine after lookup, stat, truncation check and reopen; a failed open leaves no handle. |
| Tailing.Loop | internal/logtail/logtail_poll.go:75-147 | For every script of polls the whole loop emits the batch output of its sessions, cut short only by cancellation, and its variables describe the last session. |
| Tailing.OutputGrows | internal/logtail/logtail_poll.go:95-147 | Later polls never take back or reorder what earlier ones emitted. |
| TailingLaws.RoundReal | internal/logtail/logtail_poll.go:95-139 | One more poll keeps every session its file as last seen if and only if it finds the complete part of what the poll before it read of that session. |
| TailingLaws.RealIffUnaltered | internal/logtail/logtail_poll.go:95-147 | Over every run: after each poll all sessions are their files from byte 0 as the last poll that read them saw them, if and only if, for any two consecutive reading polls of one session, the complete part of the first view is a prefix of the second. |
| TailingLaws.SessionsAreFiles | internal/logtail/logtail_poll.go:95-147 | Under that condition, through rotation, replacement, truncation and failing calls, each session has a last poll that read it, and its path, file and text are those of that poll's view. |
| TailingLaws.AppendOnlyIsUnaltered | internal/logtail/logtail_poll.go:149-151 | Publishers that only append, to any files under any names, meet the condition, whatever calls fail. |
| TailingLaws.AppendOnlyReads | internal/logtail/logtail_poll.go:135-138 | While they do, every poll with an open handle reads its session. |
| TailingLaws.HandleIdentity | internal/logtail/logtail_poll.go:123-131 | In every reachable state with a handle: the remembered inode is the open file's if and only if the poll that opened it could stat the handle or remembered that file already; a name that moved between lookup and open does not matter. |
| TailingLaws.HandleDecision | internal/logtail/logtail_poll.go:103-133 | In every reachable state with a handle, by whether the round that opened it could stat it: an identified handle is kept if and only if the name is its own, found with no other file and not shorter than what was read; an unidentified one is given up when its file is found; a finished session is kept as it was and the next starts at byte 0. |
| TailingLaws.UnidentifiedIsReread | internal/logtail/logtail_poll.go:110-131 | A poll that finds the open file in place and no shorter stays on it if and only if it is identified; otherwise it emits all its lines again from byte 0. |
| Rotation.RotationLaw | internal/logtail/logtail_poll.go:16-25 | For files that only grow, whatever names become current in whatever order and whatever lookups, stats and opens fail: each name that could be opened has a session, each session is read until the poll that gives it up and is its file from byte 0 as seen then; and each file has one session only, if and only if no name is opened once more after another name was found or after its handle could not be stat'ed and it was found again. |
| Rotation.OneSession | internal/logtail/logtail_poll.go:95-139 | A single growing file, whatever calls fail: there is a session if and only if some poll could open the file, it is the only one if and only if the file is not opened again after a handle that could not be stat'ed, and while there is a handle the last poll reads it. |
| Rotation.IncrementalIsBatch | internal/logtail/logtail_poll.go:149-202 | However one file's appends are split over polls and reads, and whatever calls fail, the output is the batch output of the file as the last poll saw it, and with self-stamped lines that of the file alone; before it stand only the earlier readings of a file that was opened again. |
| Rotation.UnrotatedIff | internal/logtail/logtail_poll.go:108-119 | One file under one name, whatever it holds at each stat and read: all through the run every session is the file as last seen, if and only if every poll finds less than the complete part of the last view at its stat, or is given nothing beyond it, or still reads a file that begins with it. |
| TailingLaws.TruncationSeenIff | internal/logtail/logtail_poll.go:108-119 | A poll of an unrotated file gets the file's own text if and only if the stat finds it shorter than the offset or what was read is still its beginning when it is drained. |
| Rotation.UnseenTruncation | internal/logtail/logtail_poll.go:25-25 | Counterexample family: a file truncated and regrown past the offset between two polls makes the loop emit a piece of a line, and neither the condition nor the law holds. |
| FanIn.BridgeFirst | internal/collectors/vote_logs.go:131-154 | If the sides do not interfere, a bridge match may be classified before or after any number of oracle matches. |
| FanIn.ReceiveFolds | internal/collectors/vote_logs.go:135-152 | Classifying a received match is folding one more match of its side, whatever the other side has done. |
| FanIn.StepKeepsInv | internal/collectors/vote_logs.go:131-154 | Every step of tailers, channels, select and cancellation keeps conservation, the bound of 64, the rule that only a closed and empty channel is dropped, and that nothing closes or returns before cancellation. |
| FanIn.Conservation | internal/logtail/logtail_poll.go:182-190 | In every interleaving received ++ buffered ++ pending is what the tailer emits, at most 64 are buffered, and the metrics are the fold of what was received. |
| FanIn.SendWaitsIff | internal/logtail/logtail_poll.go:70-70 | A tailer waits with a match if and only if 64 are waiting to be received. |
| FanIn.ReturnsDrained | internal/collectors/vote_logs.go:131-154 | A collector that returns without taking the cancellation has seen both channels closed and has received every match that was sent. |
| FanIn.Confluence | internal/collectors/vote_logs.go:131-154 | In every reachable state with nothing in flight, however it was reached, the metrics depend on each channel's own sequence only. |
| FanIn.Progress | internal/collectors/vote_logs.go:131-154 | In every reachable state before the return, either everything has been delivered and nobody cancelled, or some step other than cancellation is possible. |
| FanIn.Termination | internal/collectors/vote_logs.go:131-154 | Every step uses up some of a bounded amount of work, so what has been emitted is in flight for boundedly many steps. |
| FanIn.Delivers | internal/collectors/vote_logs.go:131-154 | As long as nobody cancels, every run can be continued until all that was emitted has been received, with the metrics of all of it. |
| BridgeRpc.StepKeepsOrder | internal/collectors/bridge_rpc.go:85-127 | Main handles the names in order, skips just those without URL, and returns only after all. |
| BridgeRpc.StepKeepsCount | internal/collectors/bridge_rpc.go:79-95 | Semaphore tokens equal the jobs between acquire and release and never exceed the capacity; the WaitGroup counts the jobs added and not done. |
| BridgeRpc.StepKeepsMutex | internal/collectors/bridge_rpc.go:115-119 | At most one job is in the critical section, a failed one, and it is the holder. |
| BridgeRpc.StepKeepsChecks | internal/collectors/bridge_rpc.go:102-123 | Each counter is its old value plus the jobs that have been counted under its name and status. |
| BridgeRpc.StepKeepsProbed | internal/collectors/bridge_rpc.go:100-100 | No job is ever probed twice. |
| BridgeRpc.StepKeepsGauge | internal/collectors/bridge_rpc.go:102-122 | A gauge shows the outcome of one of its own name's probes or is untouched. |
| BridgeRpc.StepKeepsFirst | internal/collectors/bridge_rpc.go:115-119 | The first error exists once a failed job has recorded, and error and kind belong to the same failed probe. |
| BridgeRpc.RunInv | internal/collectors/bridge_rpc.go:75-128 | All these invariants hold in every reachable state. |
| BridgeRpc.BoundedParallelism | internal/collectors/bridge_rpc.go:79-95 | In every schedule the probes in flight never outnumber the semaphore's capacity. |
| BridgeRpc.Progress | internal/collectors/bridge_rpc.go:85-127 | With room for one probe, no reachable state before the return is stuck. |
| BridgeRpc.Termination | internal/collectors/bridge_rpc.go:85-127 | The length of every schedule is bounded by a measure that each step decreases. |
| BridgeRpc.Complete | internal/collectors/bridge_rpc.go:85-127 | Every partial schedule extends to one in which the tick returns, and gauges whose writes are done keep their value. |
| BridgeRpc.AllDone | internal/collectors/bridge_rpc.go:126-127 | When the tick returns every job with a URL is done and no other was started. |
| BridgeRpc.TickResult | internal/collectors/bridge_rpc.go:85-127 | A returned tick has probed each occurrence with a URL once, counted each answer once under its status, shown each name's outcome, left other gauges alone, and returns an error iff some probe failed, with that error's kind. |
| BridgeRpc.TickAnswers | internal/collectors/bridge_rpc.go:100-127 | Told by the probes' own answers: ok has grown by the occurrences without an error, timeout by those whose error is a deadline or a cancellation, auth_error by those whose error is one of authentication and neither of these, fail by the rest; each gauge is 1 or 0 as one of its own probes succeeded or failed; the returned error is a probe's, and of kind timeout iff it is a deadline or a cancellation. |
| BridgeRpc.ScheduleIndependence | internal/collectors/bridge_rpc.go:85-127 | Two schedules of a tick leave the same counters, agree on whether there was an error, and agree on the gauge of every name whose probes agree. |
| BridgeRpc.DistinctNamesDecide | internal/collectors/bridge_rpc.go:85-127 | With distinct names each gauge is 1 if and only if its own probe succeeded, in every schedule, and any two schedules leave the same gauges. |
| BridgeRpc.OneCountPerProbe | internal/collectors/bridge_rpc.go:102-123 | The four counters of a name together grow by its number of occurrences. |
| BridgeRpc.StepKeepsTurn | internal/collectors/bridge_rpc.go:79-95 | With room for one probe, a job gets its token only after all earlier ones have given theirs back. |
| BridgeRpc.LastOccurrenceWins | internal/collectors/bridge_rpc.go:85-125 | With room for one probe, a gauge ends at the outcome of its name's last occurrence, or untouched if there is none. |
| BridgeRpc.HoldBack | internal/collectors/bridge_rpc.go:85-125 | With room for two probes, every schedule in which a job has not written its gauge extends to one in which it alone is left to do so. |
| BridgeRpc.LastWriter | internal/collectors/bridge_rpc.go:85-125 | With room for two probes, every occurrence of a name can be the one that decides its gauge. |
| BridgeRpc.OneOutcomeIff | internal/collectors/bridge_rpc.go:85-125 | A name's gauge is the same in all schedules if and only if its probes agree or there is room for one probe only; the code has room for three and does not merge repeated names. |
| VoteLogs.LineMatchesAny | internal/collectors/vote_logs.go:207-214 | Finds a match if and only if some pattern of the set matches. |
| VoteLogs.FirstCapture1Int | internal/collectors/vote_logs.go:218-230 | The number is that of the first group that the first pattern with a numeric first group finds; otherwise no pattern has one, and the result is 0 and false. |
| VoteLogs.FirstCapture2 | internal/collectors/vote_logs.go:234-242 | Name and status are the first and the second group that the first pattern with two groups finds; otherwise no pattern finds two, and the result is empty and false. |
| VoteLogs.SidesIndependent | internal/collectors/vote_logs.go:167-197 | Bridge and oracle matches commute, which is what confluence needs of this collector. |
| VoteLogs.BridgeStepIs | internal/collectors/vote_logs.go:167-185 | The effect of a bridge match, from what the patterns find in its line: two groups of a provider pattern count under those labels; else a positive number of an ok pattern is added and sets the success time; else, if no ok pattern has a number, anything found by a fail pattern counts one failure. |
| VoteLogs.OracleStepIs | internal/collectors/vote_logs.go:187-197 | The effect of an oracle match, from what the patterns find: ok before fail. |
| VoteLogs.VoteLogsCollector.constructor | internal/collectors/vote_logs.go:52-99 | Counters start at 0, both success gauges at the start time. |
| VoteLogs.VoteLogsCollector.ClassifyBridge | internal/collectors/vote_logs.go:167-185 | The whole new state is the one `BridgeStepIs` describes; no other metric changes. |
| VoteLogs.VoteLogsCollector.ClassifyOracle | internal/collectors/vote_logs.go:187-197 | The whole new state is the one `OracleStepIs` describes; no other metric changes. |
| VoteLogs.VoteLogsCollector.Start | internal/collectors/vote_logs.go:131-154 | Under any choices of the select, cancellation included, the loop ends with the metrics of a first part of each sequence folded separately; of all of both unless it took the cancellation. |
| VoteLogs.BridgeAccounting | internal/collectors/vote_logs.go:167-185 | Over any matches: ok is the sum of positive captured votes, the success gauge the time of the last such match, failures count per label, idle scans move nothing, oracle metrics stay. |
| VoteLogs.OracleAccounting | internal/collectors/vote_logs.go:187-197 | Over any matches: ok and fail count the lines of their class, the success gauge is the time of the last ok, bridge metrics stay. |
| VoteLogs.OneCounterPerMatch | internal/collectors/vote_logs.go:167-185 | One match moves at most one bridge counter, upwards, and the success gauge only together with ok. |
| VoteLogs.VotesEndToEnd | internal/collectors/vote_logs.go:120-154 | For any two polling runs, of any number of sessions, and every interleaving: whenever nothing is in flight each counter is the sum over its log's sessions and their complete admitted lines of matching patterns times class weight; the gauges are the times of the last successes. |
| Counting.MultiplicityIs | internal/logtail/logtail_poll.go:182-191 | The multiplicity of a line is the number of patterns that find something in it. |
| Counting.HitsWeight | internal/logtail/logtail_poll.go:182-191 | A line's emissions weigh its class weight times the number of patterns it matches. |
| Counting.MultiplicityLaw | internal/logtail/logtail_poll.go:165-193 | A counter fed by the batch output is the sum over admitted lines of multiplicity times weight. |
| Counting.SessionWeight | internal/logtail/logtail_poll.go:158-202 | The same for everything a session emits. |
| Counting.RunWeight | internal/logtail/logtail_poll.go:95-147 | The same for everything a run of the polling loop emits, summed over its sessions. |
| Counting.PlainCountIff | internal/logtail/logtail_poll.go:182-191 | Counting emissions is counting lines if and only if no admitted line with a weight matches two patterns; otherwise it is more. |
| Counting.CountersAddReplays | internal/logtail/logtail_poll.go:116-127 | A file read again adds its whole contribution again to any counter. |
| LogCounters.OutcomeLogsCollector.constructor | internal/collectors/outcome_logs.go:24-43 | Both counters start at 0. |
| LogCounters.OutcomeLogsCollector.Classify | internal/collectors/outcome_logs.go:74-84 | A line that matches a critical pattern counts as critical only, else as a warning if it matches one. |
| LogCounters.OutcomeLogsCollector.Start | internal/collectors/outcome_logs.go:61-71 | The critical counter grows by the number of received matches in whose line a critical pattern finds something, the warning counter by that of the others in which a warning pattern does. |
| LogCounters.CritCountsLinesIff | internal/collectors/outcome_logs.go:14-84 | The documented per-line reading of the critical counter is right if and only if no admitted critical line matches two subscribed patterns. |
| LogCounters.WarnCountsLinesIff | internal/collectors/outcome_logs.go:14-84 | That of the warning counter is right if and only if no admitted line that warns and is not critical matches two warning patterns. |
| LogCounters.OneLineCountsTwice | internal/collectors/outcome_logs.go:74-84 | Counterexample: one admitted line that matches a warning and a critical pattern counts as two critical lines. |
| LogCounters.VisorLogCollector.constructor | internal/collectors/visor_log.go:67-91 | The three children start at 0, and so does the critical counter. |
| LogCounters.VisorLogCollector.Start | internal/collectors/visor_log.go:104-126 | Each of the three children's counters grows by the number of received matches whose first restart group is its name, the critical one by that of the critical lines without such a group; the labels stay the three children. |
| LogCounters.DownloadLogsCollector.constructor | internal/collectors/download_logs.go:61-74 | No child has a gauge before its first match. |
| LogCounters.DownloadLogsCollector.Start | internal/collectors/download_logs.go:94-114 | The gauges are the last-write-wins function of the received matches. |
| LogCounters.DownloadsAre | internal/collectors/download_logs.go:94-114 | A child's gauge is the time of its last match (else its old value), and no label but the three children appears. |
| LogCounters.DownloadsShow | internal/collectors/download_logs.go:102-111 | The gauge is the Unix second of the last match whose first group is the child's name; without one it keeps what it had. |
| LogCounters.DownloadsTwice | internal/collectors/download_logs.go:94-114 | The same matches received a second time change nothing. |
| LogCounters.ReplayIdempotent | internal/logtail/logtail_poll.go:152-157 | Rereading a file from byte 0, grown or not, ends with the gauges of a single read when the lines that matter carry timestamps. |
| Service.ServiceCollector.constructor | internal/collectors/service.go:38-61 | Gauges, counter and mirror start at 0. |
| Service.ServiceCollector.Tick | internal/collectors/service.go:68-127 | Every gauge and the counter depend on their own source only; the error is the first failing source's, with its kind. |
| Service.ServiceCollector.Start | internal/collectors/service.go:130-132 | Counter and mirror after any number of ticks are those of the sequence of readings. |
| Service.RestartTelescopes | internal/collectors/service.go:93-110 | Over any readings the counter grows by how far the last value seen exceeds the first, plus all observed drops; failed reads do not matter. |
| Service.RestartConservation | internal/collectors/service.go:93-110 | Against a unit that restarts and is reset: every true restart is counted, missed for good by a sample, or still to be seen. |
| Service.NeverOvercounts | internal/collectors/service.go:93-110 | The counter never exceeds the true restarts and never falls. |
| Service.WorldSays | internal/collectors/service.go:93-110 | Whether the unit was reset, has restarts standing, unseen or wiped, and what the mirror remembers, read off the order of events alone. |
| Service.LostNothingIff | internal/collectors/service.go:99-106 | No restart is missed if and only if no good sample follows a restart and then a reset that no sample separates from it, or a reset and a restart that hide behind a positive count sampled before. |
| Service.ExactIff | internal/collectors/service.go:93-110 | Right after a good sample the counter is the true number of restarts if and only if the order of events has no such good sample. |
| Service.NoResetIsExact | internal/collectors/service.go:93-110 | Without resets the counter is exact after every good sample. |
| Service.BracketedIsExact | internal/collectors/service.go:99-106 | So it is when good samples come right before and right after each reset. |
| Service.WipedRestartIsLost | internal/collectors/service.go:99-106 | Counterexample: a restart that is reset away between two samples is never counted. |
| Service.HiddenRestartIsLost | internal/collectors/service.go:99-106 | Counterexample: a restart after a reset hides behind the count sampled before the reset. |
| Procs.ReadAfterParen | internal/procs/procs_proc.go:66-83 | The parser's answer depends only on what follows the last closing parenthesis. |
| Procs.ParserInvertsPrinter | internal/procs/procs_proc.go:63-83 | For every command name, with any spaces and parentheses, parsing the printed stat line gives the parent back. |
| Procs.ReadPPIDIff | internal/procs/procs_proc.go:63-83 | What the parser accepts, and with what result: a text in which the second word after the last closing parenthesis is that number in decimal. |
| Procs.CountChildren | internal/procs/procs_proc.go:27-61 | Counts the directories named by a positive decimal number whose stat text says so; 0 for no parent, an error only if the directory cannot be listed. |
| Procs.CountsChildren | internal/procs/procs_proc.go:39-60 | On the listing of any process table the count is the number of living children, whatever their names; plain files, non-numeric and non-positive names, vanished processes and malformed entries contribute nothing. |
| Config.ListReadsIff | internal/config/config.go:333-349 | What a list parses to, from how it is written: however items are padded with white space and whatever blank ones stand between, the result is the items that are not blank, without their padding, in order. |
| Config.SplitOrDefault | internal/config/config.go:333-349 | The items written in the text, in that sense, or the defaults if there are none. |
| Config.ListItemsClean | internal/config/config.go:333-349 | Every parsed item is trimmed, not blank, and free of the separator. |
| Config.ListRoundTrip | internal/config/config.go:333-349 | Joining clean items and parsing gives them back. |
| Config.ListFixpoint | internal/config/config.go:333-349 | What was parsed is a fixpoint of joining and parsing again. |
| Config.AssignmentIff | internal/config/config.go:216-235 | A part assigns a path to a component if and only if it reads the component's name, `=` and the path, with any white space around the two. |
| Config.AssignPart | internal/config/config.go:216-235 | A part that reads so sets just that component to just that path; any other part changes nothing. |
| Config.TargetIsResolved | internal/config/config.go:207-236 | A component's path is the one its last well-formed part spells; without one it is the legacy path for the visor if there is one, else the component's own default. |
| Config.BinaryTargets | internal/config/config.go:207-236 | Each of the four components has its path in that sense, never an empty one. |
| Config.AssignmentReadsBack | internal/config/config.go:221-234 | A written assignment parses to itself, also with `=` in the path. |
| Config.TargetsRoundTrip | internal/config/config.go:211-236 | Written assignments load as the last path written per component, whatever the legacy path is. |
| Config.NamesAre | internal/config/config.go:19-24 | The four component names. |
| Config.UrlKeyIff | internal/config/config.go:242-252 | A name's variable is `VPUB_RPC_`, its letters in upper case with dashes and dots as underscores, and `_URL`. |
| Config.CollectEndpoints | internal/config/config.go:242-252 | The names are the items written in the list, each with the value of its own variable. |
| Config.LoadEndpoints | internal/config/config.go:242-302 | Loading succeeds if and only if every listed name has a URL; otherwise it names the first that has none. |
| Config.LoadedNamesAllProbed | internal/config/config.go:296-300 | With a loaded configuration every returned RPC tick, in every schedule, has probed every name once per occurrence. |
| BridgeState.BridgeStateCollector.Tick | internal/collectors/bridge_state.go:75-120 | A usable document sets the gauge to its highest cursor (negative ones included); every other tick keeps it; each failure has its kind. |
| BridgeState.BridgeStateCollector.ShowCursors | internal/collectors/bridge_state.go:110-117 | In any iteration order the result is the maximum and each cursor's gauge is set. |
| BridgeState.MaxOfMore | internal/collectors/bridge_state.go:112-117 | The first cursor or a higher one becomes the maximum of the cursors seen. |
| BridgeState.BridgeStateCollector.Start | internal/collectors/bridge_state.go:122-124 | The gauge after any number of ticks, failing ones included, is a function of the documents found. |
| BridgeState.GaugeIs | internal/collectors/bridge_state.go:75-120 | After any history of ticks the gauge shows the highest cursor of the last usable document, whatever failed since. |
| BridgeState.GaugeMonotone | internal/collectors/bridge_state.go:105-118 | Over any history of ticks, explorers that only advance never let the gauge go back from the first usable document on. |
| BridgeState.LaggardMovesGauge | internal/collectors/bridge_state.go:105-109 | Over any history of ticks, an explorer that starts g behind the leader and advances with each usable document makes the gauge strictly rise within g + 1 further usable documents, whatever ticks fail in between. |
| Logfs.LatestMtime | internal/logfs/logfs_os.go:21-51 | The newest readable regular file, the first of equals in directory order; empty if and only if there is no candidate. |
| Logfs.ChoiceChangesIff | internal/logfs/logfs_os.go:42-45 | From one listing to the next the choice changes if and only if the old choice is no candidate any more, or a newer one, or one as new and earlier, is there; in the first listing none was. |
| Logfs.TailerSwitchesIff | internal/logtail/logtail_poll.go:103-133 | So far, and no further, does the tailer change its path from one poll to the next; its session is finished then. |
| Logfs.NoFileNoSwitch | cmd/vpub-exporter/main.go:98-104 | An empty or unreadable directory leaves the tailer as it is. |
| BestEffort.LogMtimeCollector.Tick | internal/collectors/logmtime.go:70-93 | Each gauge follows its own directory (kept on failure, 0 when empty); the error is the first failing component's. |
| BestEffort.LogMtimeCollector.Start | internal/collectors/logmtime.go:95-97 | After any number of ticks each gauge is a function of the history of its own directory alone. |
| BestEffort.LastSuccessKept | internal/collectors/logmtime.go:75-90 | After any history that gauge shows the last successful probe, or what it showed before if none succeeded. |
| BestEffort.ComponentsSorted | internal/collectors/binary.go:82-89 | The keys, each once, in increasing order, however the map is iterated. |
| BestEffort.BelowIff | internal/collectors/binary.go:87-87 | One string is below another if and only if, where the two part, it has ended or has the smaller character. |
| BestEffort.BelowTotal | internal/collectors/binary.go:87-87 | Go's string order compares any two distinct names. |
| BestEffort.BelowTransitive | internal/collectors/binary.go:87-87 | Go's string order is transitive. |
| BestEffort.BinaryCollector.TickLocal | internal/collectors/binary.go:96-116 | Each gauge follows its own binary and keeps its value on failure; the error is the alphabetically first failing component's. |
| BestEffort.BinaryCollector.TickRemote | internal/collectors/binary.go:124-146 | A failed request sets the check gauge to 0 and keeps the last known time; a good one sets both. |
| BestEffort.BinaryCollector.StartLocal | internal/collectors/binary.go:160-162 | After any number of ticks each gauge is a function of the history of its own binary alone. |
| BestEffort.BinaryCollector.StartRemote | internal/collectors/binary.go:164-166 | After any number of ticks the time gauge is a function of the answers, and the check gauge shows the last one. |
| BestEffort.LastGoodKept | internal/collectors/binary.go:91-146 | After any history those gauges show the last good probe, or what they showed before if none was. |

## Left out

- BridgeRpc.Progress: a probe that never answers, in spite of its timeout, is not modelled; `Tick` and
  its goroutines are a step machine, since Dafny has no goroutines to write them in.
- LogCounters.OutcomeLogsCollector.Start: the single-channel loops (also of the visor and download
  collectors) receive a delivered sequence up to the close or the cancellation; the interleaved
  machine is that of the two-channel collector.
- VoteLogs.VoteLogsCollector.Start: waiting for an empty channel is not part of this loop; in the
  machine of `FanIn` it is.
- Config.LoadEndpoints: settings other than the endpoints, their validation, flags and directories are
  single branches.
- Config.CollectEndpoints: variable names are upper-cased in ASCII only.
- BestEffort.ComponentsSorted: an insertion sort stands for the library's sort; only the order of the
  result matters.
- Procs.ReadPPID: the text is a sequence of characters, where the source counts bytes; its length
  guard comes out the same.
- HTTP, D-Bus, JSON decoding, regular-expression matching and time parsing are arbitrary replies or
  functions.
- The inode key of platforms other than Unix, which takes size and modification time for identity.
- Metric registration, latency histograms, the timing of the tickers and the self-metrics around each
  tick, and float64 rounding.
- Argument checks of `Subscribe`, and `CompilePatterns`, which drops patterns that do not compile.
- The Slack collectors and the generic cache, which add nothing beyond the last-success law.
- Path cleaning by `filepath.Join`.
