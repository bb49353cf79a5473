# Behavioural detection engine of the DKU-FUSE ransomware monitor, in Dafny

The FUSE filesystem in `src/myFuse.c` watches writes, unlinks and renames and
keeps one monitoring record per process. Each event scores points: 1 for a
write, plus 5 when the buffer's entropy is above 4.2 and above the entropy of
the data it overwrites; 3 for an unlink or a rename; and 201 extra when the
path contains a honeypot keyword. Each event also bumps that process's
counter for the operation kind. A 1-second tumbling window turns bursts into
penalties: +50 for more than 100 writes, +100 for more than 10 unlinks, +100
for more than 10 renames. A process whose total is above 200 is "malicious".
The earlier `analyzer.c` runs the same policy over one set of file-level
globals. Its write bonus is absolute, and its very first check only opens the
window.

Modules, one per component:

- `config.dfy` (`Config`): the weights, thresholds, penalties and table
  capacity of `src/myFuse.h` (the same values as `src/analyzer.h`). It also
  holds the operation names "WRITE", "UNLINK" and "RENAME", which are string
  literals in `src/myFuse.c` and `analyzer.c`, and the buffer size `PathMax`,
  which is Linux's PATH_MAX of 4096 from `<limits.h>`.
- `score.dfy` (`ScoreEngine`): `calc_score`, the honeypot scan `is_honeypot`
  (a method with a loop, proved against a substring predicate), and the
  per-event delta.
- `monitor.dfy` (`Monitor`): the `ProcessMonitorEntry` record. It holds the
  per-event update, the window tick of `check_frequency_and_alert`, the
  verdict, runs of events, and the burst and honeypot scenarios.
- `table.dfy` (`ProcessTable`): the fixed array `g_score_table` with its fill
  counter `g_proc_cnt`, as a class over an `array<Entry>`, plus
  `find_or_create_score_entry`, `update_malice_score`, `get_malice_score`,
  `reset_malice_score` and `monitor_operation`. Each method is proved against
  a function on the table contents. Lemmas about those functions prove the
  properties: one entry per pid, other processes untouched, fail-open when
  the table is full, and a verdict that sticks over any later sequence of
  calls.
- `paths.dfy` (`Paths`): `get_relative_path`.
- `analyzer.dfy` (`Analyzer`): the analyser's globals as a class, its
  functions and lemmas, and lemmas that state exactly how it differs from the
  later engine.

Inputs that come from outside the engine are parameters:
- the caller's pid (`fuse_get_context()->pid`);
- the clock (`now` replaces `time(NULL)`);
- the entropies of the write buffer and of the overwritten bytes (given
  reals; `calculate_entropy` is not modelled).

The entry address the C functions return is modelled as an index into the table, and NULL as `None`.

Points where the model follows the code's exact behaviour:
- The "flagged" state is not a stored field. It is `score > 200`
  (`Monitor.Malicious`), read at every check.
- The pid lookup is the source's linear scan of the filled part of the table
  (`ProcessTable.FindFrom`), not a hash map.
- The window check runs inside the monitoring call, after that call has added
  its own points and bumped its own counter. So the call that finds the
  window expired is counted in the window it closes, and all counters are
  zero after it. After 101 one-point writes in one second, the next write a
  second later ends at 102 + 50 = 152 (`Monitor.BurstScenarioRollover`).
- `get_malice_score` and `reset_malice_score` go through
  `find_or_create_score_entry`, so asking about an unknown pid creates its
  entry. The model does the same.
- A window start of 0 means "not opened yet". A clock that reads 0 therefore
  reopens the window. Lemmas that need a running clock require `now > 0`.

## Model

| member | source | states |
|---|---|---|
| `ScoreEngine.IsHoneypot` | src/myFuse.c:77-88 | true exactly when some keyword of the list is a substring of the path (`strstr` match); the scan stops at the first hit |
| `ScoreEngine.CalcScore` | src/myFuse.c:186-207 | never negative; a write scores 6 exactly when buf is non-NULL, size > 0, entropy after > 4.2 and > entropy before, and 1 in every other case; unlink and rename score 3; any other operation name scores 0 |
| `ScoreEngine.EventDelta` | src/myFuse.c:277-283 | the event's delta is the content score plus either 0 or 201; it exceeds the verdict threshold exactly when the path holds a honeypot keyword |
| `ScoreEngine.SecretPathIsHoneypot` | src/myFuse.c:48-50 | every path containing "secret.txt" anywhere trips the configured honeypot list |
| `ScoreEngine.ShortPathIsNotHoneypot` | src/myFuse.c:48-50 | a path shorter than the only keyword never trips it |
| `Monitor.Record` | src/myFuse.c:283-293 | the score grows by the delta; exactly the counter of the operation kind goes up by 1, the other two are unchanged; a write stamps lastWriteTime; pid and window start are unchanged |
| `Monitor.WindowPenalty` | src/myFuse.c:225-233 | +50 when only writes exceed 100, +100 when only unlinks exceed 10, +100 when only renames exceed 10; the kinds add up: modulo 100 the penalty is 50 exactly with a write burst and 0 otherwise, and its hundreds count the unlink and rename bursts, which fixes it for every mix (200 for unlinks and renames together), 0 exactly when no count exceeds its cap, never above 250 |
| `Monitor.UnlinkAndRenameBurstPenalty` | src/myFuse.c:228-233 | an unlink burst and a rename burst in the same window cost exactly 200, or 250 with a write burst too |
| `Monitor.Tick` | src/myFuse.c:213-241 | an unset window start becomes `now`; on rollover (now - start >= 1) the score gains the penalty, all counts become 0 and start becomes `now`; otherwise counts and score are untouched; the score never decreases |
| `Monitor.Step` | src/myFuse.c:264-302 | one event adds at least its delta to the score; afterwards either all counters are 0 and the window restarts at `now`, or exactly the event's counter went up by 1 and the score grew by exactly the delta |
| `Monitor.RolloverCallCountedInClosingWindow` | src/myFuse.c:283-302 | on a call that finds the window expired, the score grows by the call's own delta plus the penalty of the window including that call's count bump; all counts end at 0 and the window restarts at `now` |
| `Monitor.StepKeepsFlag` | src/myFuse.c:244-254 | an entry above the threshold is still above it after any further event |
| `Monitor.HoneypotFlags` | src/myFuse.c:279-283 | an event on a honeypot path flags any entry whose score is not negative, in that one call |
| `Monitor.FreshEntryNeedsHoneypotOrHistory` | src/myFuse.c:186-207 | without a honeypot hit, no single event flags a fresh entry |
| `Monitor.RunScoreNeverDecreases` | src/myFuse.c:283 | over any sequence of events the entry's score never decreases and its pid is kept |
| `Monitor.RunKeepsFlag` | src/myFuse.c:244-254 | once flagged, the entry is flagged after every prefix of every later run |
| `Monitor.RepeatInOpenWindow` | src/myFuse.c:283-293 | n identical events inside an open window add n deltas and n to the counter of their kind only |
| `Monitor.BurstScenarioRollover` | src/myFuse.c:223-241 | 101 plain writes in one second total 101 without a flag; the next write a second later ends at 152, not flagged, with all counters 0 and the window restarted |
| `Monitor.BurstScenarioVerdict` | src/myFuse.c:244-254 | after that rollover, 48 more writes reach 200 (not flagged) and the 49th reaches 201 (flagged), which stays flagged over any later run |
| `Monitor.HoneypotScenario` | src/myFuse.c:279-283 | a fresh process's zero-size write to /home/secret.txt scores 202 and is flagged at once |
| `ProcessTable.FindFrom` | src/myFuse.c:117-121 | returns the first index at or after i whose entry has the pid, or None when no entry from i on has it |
| `ProcessTable.FindOrCreateEntry` | src/myFuse.c:115-141 | a tracked pid gets its first entry back with the table unchanged; an unknown pid with fewer than 100 entries gets a zeroed entry appended at index g_proc_cnt; an unknown pid on a full table gets NULL and nothing changes |
| `ProcessTable.FindOrCreateKeepsDistinct` | src/myFuse.c:115-141 | the table keeps at most one entry per pid, grows by at most one, and the entry returned is the only one of that pid |
| `ProcessTable.MonitorCall` | src/myFuse.c:264-303 | entries of other pids are untouched; no score decreases; an untracked pid on a full table is let through (verdict 0) and not tracked; a malicious verdict always names a flagged entry of that pid |
| `ProcessTable.MonitorCallVerdict` | src/myFuse.c:244-254 | with one entry per pid, the call answers "malicious" exactly when the caller's entry is above 200 afterwards; a tracked caller's entry becomes the one-event step of its old entry; a new caller with room gets the step of a zeroed entry appended |
| `ProcessTable.MonitorCallKeepsFlag` | src/myFuse.c:244-254 | a process whose entry is flagged gets "malicious" on its next call and stays flagged |
| `ProcessTable.MonitorCallKeepsDistinct` | src/myFuse.c:264-293 | a monitoring call keeps one entry per pid |
| `ProcessTable.ReplayKeepsFlag` | src/myFuse.c:264-303 | over any later sequence of calls from any processes, a flagged process keeps its flagged entry and every one of its calls returns "malicious" |
| `ProcessTable.SamePidsKeepDistinct` | src/myFuse.c:44-54 | rewriting entries without changing their pids keeps the pids distinct |
| `ProcessTable.Table.constructor` | src/myFuse.c:53-54 | the table starts empty, with capacity 100 |
| `ProcessTable.Table.FindOrCreate` | src/myFuse.c:115-141 | the scan loop and the append leave exactly the contents and return exactly the slot that `FindOrCreateEntry` gives |
| `ProcessTable.Table.UpdateMaliceScore` | src/myFuse.c:144-151 | after find-or-create, the entry's score grows by the given amount and lastWriteTime becomes `now`; nothing else changes; a full table and an untracked pid change nothing |
| `ProcessTable.Table.GetMaliceScore` | src/myFuse.c:154-160 | returns the entry's score, or 0 for a full table and an untracked pid; an unknown pid with room left is created and reads 0 |
| `ProcessTable.Table.ResetMaliceScore` | src/myFuse.c:168-173 | after find-or-create, the entry's score is 0 and nothing else changes |
| `ProcessTable.Table.RecordEvent` | src/myFuse.c:283-293 | only entry i changes, to `Record` of its old value: score plus the delta, the counter of the operation kind plus 1, lastWriteTime stamped on a write |
| `ProcessTable.Table.CheckFrequencyAndAlert` | src/myFuse.c:213-255 | only entry i changes, to its window tick; the result is 1 exactly when its score is above 200 afterwards |
| `ProcessTable.Table.MonitorOperation` | src/myFuse.c:264-303 | the new table and the verdict are exactly `MonitorCall` of the old table |
| `Paths.RelativePath` | src/myFuse.c:310-318 | "/" and "" map to "."; otherwise the result is the path with one leading '/' removed (if present), cut to min(its length, PATH_MAX) characters; it is never empty |
| `Paths.RelativeOfAbsolute` | src/myFuse.c:310-318 | for non-empty p of at most PATH_MAX characters, relativising "/" + p gives p back |
| `Paths.RelativeOfRelative` | src/myFuse.c:310-318 | a non-empty path of at most PATH_MAX characters that does not start with '/' is returned unchanged |
| `Paths.OneSlashOnly` | src/myFuse.c:314-315 | only one leading slash is removed: "//etc" becomes "/etc" |
| `Paths.LongPathTruncated` | src/myFuse.c:316 | a path longer than PATH_MAX that does not start with '/' is cut at PATH_MAX characters |
| `Paths.LongAbsolutePathTruncated` | src/myFuse.c:314-316 | for "/" + p with p longer than PATH_MAX, the slash is removed and p is cut at PATH_MAX characters |
| `Analyzer.CalcScore` | analyzer.c:27-45 | never negative; a write scores 6 exactly when buf is non-NULL, size > 0 and its entropy is above 4.2 (no before/after comparison), else 1; unlink and rename score 3; anything else 0 |
| `Analyzer.Penalty` | analyzer.c:63-71 | +50 when only writes exceed 100, +100 when only unlinks exceed 10, +100 when only renames exceed 10; the kinds add up: modulo 100 the penalty is 50 exactly with a write burst and 0 otherwise, and its hundreds count the unlink and rename bursts, which fixes it for every mix (200 for unlinks and renames together); never above 250 |
| `Analyzer.Check` | analyzer.c:51-99 | the first check (start 0) sets start to `now` and returns 0, even with a total above 200; afterwards the result is 1 exactly when the total is above 200; a rollover adds the penalty, zeroes the counts and restarts at `now`; inside the window nothing changes; the total is never reset |
| `Analyzer.Bump` | analyzer.c:108-120 | the content score is added to the total, exactly the counter of the kind goes up by 1, and the window start is unchanged |
| `Analyzer.Step` | analyzer.c:108-124 | the total grows by at least the content score; a call on an unopened window opens it and answers 0; afterwards the answer is "total above 200" |
| `Analyzer.RunTotalNeverDecreases` | analyzer.c:17 | total_malice_score never decreases over any sequence of calls |
| `Analyzer.RunKeepsFlag` | analyzer.c:82-98 | with the window open and the total above 200, every later call answers 1 while the clock stays past 0 |
| `Analyzer.Globals.constructor` | analyzer.c:14-18 | all globals start at 0 |
| `Analyzer.Globals.CheckFrequencyAndAlert` | analyzer.c:51-99 | the new globals and the result are exactly `Check` of the old globals |
| `Analyzer.Globals.MonitorOperation` | analyzer.c:108-124 | the new globals and the result are exactly `Step` of the old globals |
| `Analyzer.WriteBonusComparison` | analyzer.c:34-39 | the later engine never scores more than the analyser, and they differ exactly on a non-empty write above 4.2 whose entropy did not rise |
| `Analyzer.CompressedOverwrite` | analyzer.c:36 | overwriting already high-entropy data scores 6 in the analyser and 1 in the later engine |
| `Analyzer.PenaltiesAgree` | analyzer.c:63-71 | both versions charge the same rate penalty for the same window counts |
| `Analyzer.FirstCheckVerdictsDiffer` | analyzer.c:55-58 | on a first check with a total above 200, the analyser answers 0 while the later engine answers 1 |

## Left out

- Locking: one monitoring call is one atomic step. The pthread mutex is not
  modelled. Neither are the source's concurrency defects: the tick and verdict
  run after the unlock, and the table-full path returns without unlocking.
- Entropy (`entropy.c`): floating-point `log2` over a byte histogram. Both
  entropies are given real inputs, and the comparison with 4.2 is exact on
  reals rather than on doubles.
- Wall-clock time and the caller's pid are parameters (`now`, `pid`).
- `ProcessTable.Table.MonitorOperation`: takes a path string. The source's
  `myfs_unlink` and `myfs_rename` pass a NULL path, which `strstr` inside
  `is_honeypot` does not accept. That call-site behaviour is not modelled.
- Integer widths: scores, counters and times are unbounded integers, so the
  32-bit wrap-around of `int malice_score` after about ten million honeypot
  hits is not modelled.
- `Paths.RelativePath`: the model returns the bytes strncpy copies. It does
  not model the missing NUL terminator when a path fills the whole buffer, or
  NUL characters inside a path.
- Characters and bytes: each `char` of a path stands for one byte of the C
  string. So `PathMax` in `Paths.RelativePath` and the substring match in
  `ScoreEngine.Contains` count bytes, and a non-ASCII path must be read as
  its UTF-8 bytes, one `char` per byte.
- The honeypot list is the finite sequence `["secret.txt"]`. The source's
  array has no NULL terminator, so its scan runs past the end of the array;
  that overrun is not modelled.
- The FUSE passthrough (`myfs_*` and `main`), `kill(..., SIGKILL)`
  enforcement, CSV logging (`src/log.c`) and `src/shadow_copy.c` (commented
  out) are outside the engine.
- `is_blacklisted`, `is_writable_whitelisted`, `proc_name` and the duplicate
  `g_score_table` declaration are unused by the engine.
- `lastWriteTime` is kept in the record but is never read.
