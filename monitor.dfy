// One ProcessMonitorEntry (src/myFuse.h:44-57) and what one monitored event
// does to it in src/myFuse.c: the score and counter update of
// monitor_operation, then check_frequency_and_alert's 1-second tumbling
// window and its verdict. The table that holds the entries is in table.dfy.
module Monitor {
  import opened Config
  import opened ScoreEngine

  /** The monitoring record of one process. `startTime == 0` means the
      window has not been opened yet. */
  datatype Entry = Entry(
    pid: int,
    score: int,
    startTime: int,
    lastWriteTime: int,
    writeCount: nat,
    unlinkCount: nat,
    renameCount: nat)

  /** The record find_or_create_score_entry writes into a fresh slot. */
  function NewEntry(pid: int): Entry {
    Entry(pid, 0, 0, 0, 0, 0, 0)
  }

  /** The entry is flagged: its score is above the final threshold. */
  predicate Malicious(e: Entry) {
    e.score > FinalMaliceThreshold
  }

  /** monitor_operation's part before the tick: add the event's delta and
      bump the counter of the operation kind (a write also stamps
      lastWriteTime). */
  function Record(e: Entry, op: string, delta: int, now: int): (r: Entry)
    ensures r.pid == e.pid && r.startTime == e.startTime
    ensures r.score == e.score + delta
    ensures r.writeCount == e.writeCount + (if op == WriteOp then 1 else 0)
    ensures r.unlinkCount == e.unlinkCount + (if op == UnlinkOp then 1 else 0)
    ensures r.renameCount == e.renameCount + (if op == RenameOp then 1 else 0)
    ensures r.lastWriteTime == (if op == WriteOp then now else e.lastWriteTime)
  {
    var scored := e.(score := e.score + delta);
    if op == WriteOp then scored.(writeCount := scored.writeCount + 1, lastWriteTime := now)
    else if op == UnlinkOp then scored.(unlinkCount := scored.unlinkCount + 1)
    else if op == RenameOp then scored.(renameCount := scored.renameCount + 1)
    else scored
  }

  /** The window start the tick compares against: an unset start is first set to `now`. */
  function EffectiveStart(e: Entry, now: int): int {
    if e.startTime == 0 then now else e.startTime
  }

  /** The window has run for at least one second at time `now`. */
  predicate RollsOver(e: Entry, now: int) {
    now - EffectiveStart(e, now) >= WindowSeconds
  }

  /** The rate penalty for the window that just ended. */
  function WindowPenalty(e: Entry): (p: int)
    ensures 0 <= p <= PenaltyHighWrite + PenaltyHighUnlink + PenaltyHighRename
    ensures p >= PenaltyHighWrite <==> e.writeCount > WriteThresholdPerWindow ||
                                       e.unlinkCount > UnlinkThresholdPerWindow ||
                                       e.renameCount > RenameThresholdPerWindow
    ensures p == 0 <==> e.writeCount <= WriteThresholdPerWindow &&
                        e.unlinkCount <= UnlinkThresholdPerWindow &&
                        e.renameCount <= RenameThresholdPerWindow
    // each kind alone: +50 for writes, +100 for unlinks, +100 for renames
    ensures (e.writeCount > WriteThresholdPerWindow && e.unlinkCount <= UnlinkThresholdPerWindow &&
             e.renameCount <= RenameThresholdPerWindow) ==> p == 50
    ensures (e.writeCount <= WriteThresholdPerWindow && e.unlinkCount > UnlinkThresholdPerWindow &&
             e.renameCount <= RenameThresholdPerWindow) ==> p == 100
    ensures (e.writeCount <= WriteThresholdPerWindow && e.unlinkCount <= UnlinkThresholdPerWindow &&
             e.renameCount > RenameThresholdPerWindow) ==> p == 100
    // the kinds add up: the write penalty is the odd 50, each of the other two a whole 100
    ensures p % 100 == (if e.writeCount > WriteThresholdPerWindow then 50 else 0)
    ensures p / 100 == (if e.unlinkCount > UnlinkThresholdPerWindow then 1 else 0)
                     + (if e.renameCount > RenameThresholdPerWindow then 1 else 0)
  {
    (if e.writeCount > WriteThresholdPerWindow then PenaltyHighWrite else 0)
      + (if e.unlinkCount > UnlinkThresholdPerWindow then PenaltyHighUnlink else 0)
      + (if e.renameCount > RenameThresholdPerWindow then PenaltyHighRename else 0)
  }

  /** An unlink and a rename burst in the same window cost exactly 200, with or without a write burst on top. */
  lemma UnlinkAndRenameBurstPenalty(e: Entry)
    requires e.unlinkCount > UnlinkThresholdPerWindow && e.renameCount > RenameThresholdPerWindow
    ensures WindowPenalty(e) == (if e.writeCount > WriteThresholdPerWindow then 250 else 200)
  {
  }

  /** check_frequency_and_alert's effect on the entry. */
  function Tick(e: Entry, now: int): (r: Entry)
    ensures r.pid == e.pid && r.lastWriteTime == e.lastWriteTime
    // the score never goes down, and it only moves at a rollover
    ensures r.score >= e.score
    ensures r.score != e.score ==> RollsOver(e, now)
    // a rollover charges the ended window and opens a new one at `now`
    ensures RollsOver(e, now) ==>
              r.score == e.score + WindowPenalty(e) && r.startTime == now &&
              r.writeCount == 0 && r.unlinkCount == 0 && r.renameCount == 0
    // otherwise only an unset start is filled in
    ensures !RollsOver(e, now) ==>
              r == e.(startTime := EffectiveStart(e, now))
  {
    var started := e.(startTime := EffectiveStart(e, now));
    if now - started.startTime >= WindowSeconds then
      started.(score := started.score + WindowPenalty(started),
              writeCount := 0, unlinkCount := 0, renameCount := 0,
              startTime := now)
    else
      started
  }

  /** One monitored event on one entry: score and counter update, then the tick. */
  function Step(e: Entry, ev: Event, keywords: seq<string>, now: int): (r: Entry)
    ensures r.pid == e.pid
    ensures r.score >= e.score + EventDelta(ev, keywords)
    // either the window rolled over and every counter is zero, or exactly the
    // counter of this operation kind went up by one
    ensures (r.writeCount == 0 && r.unlinkCount == 0 && r.renameCount == 0 && r.startTime == now)
         || (r.writeCount == e.writeCount + (if ev.op == WriteOp then 1 else 0) &&
             r.unlinkCount == e.unlinkCount + (if ev.op == UnlinkOp then 1 else 0) &&
             r.renameCount == e.renameCount + (if ev.op == RenameOp then 1 else 0) &&
             r.score == e.score + EventDelta(ev, keywords))
  {
    Tick(Record(e, ev.op, EventDelta(ev, keywords), now), now)
  }

  /** The call that finds the window expired is counted in the window it closes:
      its own delta and counter bump come first, then the penalty of that window. */
  lemma RolloverCallCountedInClosingWindow(e: Entry, ev: Event, keywords: seq<string>, now: int)
    requires RollsOver(e, now)
    ensures var d := EventDelta(ev, keywords);
      var r := Step(e, ev, keywords, now);
      r.score == e.score + d + WindowPenalty(Record(e, ev.op, d, now)) &&
      r.writeCount == 0 && r.unlinkCount == 0 && r.renameCount == 0 && r.startTime == now
  {
  }

  /** A flagged entry stays flagged on every later event. */
  lemma StepKeepsFlag(e: Entry, ev: Event, keywords: seq<string>, now: int)
    requires Malicious(e)
    ensures Malicious(Step(e, ev, keywords, now))
  {
  }

  /** Trip-wire: touching a honeypot flags any entry whose score is not
      negative, in that single event, whatever its history. */
  lemma HoneypotFlags(e: Entry, ev: Event, keywords: seq<string>, now: int)
    requires e.score >= 0
    requires HasHoneypotKeyword(ev.path, keywords)
    ensures Malicious(Step(e, ev, keywords, now))
  {
  }

  /** Below the honeypot bonus, one event can never by itself flag a fresh entry. */
  lemma FreshEntryNeedsHoneypotOrHistory(pid: int, ev: Event, keywords: seq<string>, now: int)
    requires !HasHoneypotKeyword(ev.path, keywords)
    ensures !Malicious(Step(NewEntry(pid), ev, keywords, now))
  {
  }

  /** The entry after `n` identical events at the same time `now`. */
  function Repeat(e: Entry, ev: Event, keywords: seq<string>, now: int, n: nat): Entry
    decreases n
  {
    if n == 0 then e else Repeat(Step(e, ev, keywords, now), ev, keywords, now, n - 1)
  }

  /** The entry after a sequence of timestamped events. */
  function Run(e: Entry, evs: seq<(Event, int)>, keywords: seq<string>): Entry
    decreases |evs|
  {
    if evs == [] then e else Run(Step(e, evs[0].0, keywords, evs[0].1), evs[1..], keywords)
  }

  /** The score never decreases over any run of events. */
  lemma {:induction false} RunScoreNeverDecreases(e: Entry, evs: seq<(Event, int)>, keywords: seq<string>)
    ensures Run(e, evs, keywords).score >= e.score
    ensures Run(e, evs, keywords).pid == e.pid
    decreases |evs|
  {
    if evs != [] {
      RunScoreNeverDecreases(Step(e, evs[0].0, keywords, evs[0].1), evs[1..], keywords);
    }
  }

  /** Sticky verdict: once flagged, flagged after every prefix of every later run. */
  lemma RunKeepsFlag(e: Entry, evs: seq<(Event, int)>, keywords: seq<string>)
    requires Malicious(e)
    ensures forall k :: 0 <= k <= |evs| ==> Malicious(Run(e, evs[..k], keywords))
  {
    forall k | 0 <= k <= |evs|
      ensures Malicious(Run(e, evs[..k], keywords))
    {
      RunScoreNeverDecreases(e, evs[..k], keywords);
    }
  }

  /** Inside one open window, `n` identical events add `n` deltas and `n`
      to the counter of their kind; nothing rolls over. */
  lemma {:induction false} RepeatInOpenWindow(e: Entry, ev: Event, keywords: seq<string>, now: int, n: nat)
    requires !RollsOver(e, now)
    ensures var r := Repeat(e, ev, keywords, now, n);
      r.pid == e.pid &&
      r.score == e.score + n * EventDelta(ev, keywords) &&
      r.writeCount == e.writeCount + (if ev.op == WriteOp then n else 0) &&
      r.unlinkCount == e.unlinkCount + (if ev.op == UnlinkOp then n else 0) &&
      r.renameCount == e.renameCount + (if ev.op == RenameOp then n else 0) &&
      (n > 0 ==> r.startTime == EffectiveStart(e, now)) &&
      (n == 0 ==> r.startTime == e.startTime)
    decreases n
  {
    if n > 0 {
      var d := EventDelta(ev, keywords);
      var e1 := Step(e, ev, keywords, now);
      assert e1.startTime == EffectiveStart(e, now);
      assert EffectiveStart(e1, now) == EffectiveStart(e, now);
      RepeatInOpenWindow(e1, ev, keywords, now, n - 1);
      assert e.score + d + (n - 1) * d == e.score + n * d;
    }
  }

  /** A low-entropy write to an ordinary file. */
  const PlainWrite: Event := Event(WriteOp, "/a.txt", true, 16, 0.0, 1.0)

  /** A burst of 101 plain writes within one second, then one more a second later:
      the later call is counted into the ended window (102 writes) and triggers the
      +50 write penalty, so the total is 102 + 50 = 152 and the entry is not flagged;
      all counters are back to zero and the window restarts at that call. The clock
      must be past 0, because a window start of 0 reads as "not yet opened". */
  lemma BurstScenarioRollover(pid: int, t: int)
    requires t > 0
    ensures var burst := Repeat(NewEntry(pid), PlainWrite, HoneypotFiles, t, 101);
      burst.score == 101 && burst.writeCount == 101 && !Malicious(burst) &&
      var rolled := Step(burst, PlainWrite, HoneypotFiles, t + 1);
      rolled.score == 152 && !Malicious(rolled) && rolled.startTime == t + 1 &&
      rolled.writeCount == 0 && rolled.unlinkCount == 0 && rolled.renameCount == 0
  {
    ShortPathIsNotHoneypot(PlainWrite.path);
    assert EventDelta(PlainWrite, HoneypotFiles) == 1;
    RepeatInOpenWindow(NewEntry(pid), PlainWrite, HoneypotFiles, t, 101);
  }

  /** Continuing the burst: the verdict flips exactly on the 49th plain write of the
      new window (total 201), not on the 48th (total 200), and then stays. */
  lemma BurstScenarioVerdict(pid: int, t: int, later: seq<(Event, int)>)
    requires t > 0
    ensures var rolled := Step(Repeat(NewEntry(pid), PlainWrite, HoneypotFiles, t, 101), PlainWrite, HoneypotFiles, t + 1);
      var before := Repeat(rolled, PlainWrite, HoneypotFiles, t + 1, 48);
      var flagged := Step(before, PlainWrite, HoneypotFiles, t + 1);
      before.score == 200 && !Malicious(before) &&
      flagged.score == 201 && Malicious(flagged) &&
      Malicious(Run(flagged, later, HoneypotFiles))
  {
    BurstScenarioRollover(pid, t);
    var rolled := Step(Repeat(NewEntry(pid), PlainWrite, HoneypotFiles, t, 101), PlainWrite, HoneypotFiles, t + 1);
    ShortPathIsNotHoneypot(PlainWrite.path);
    RepeatInOpenWindow(rolled, PlainWrite, HoneypotFiles, t + 1, 48);
    var before := Repeat(rolled, PlainWrite, HoneypotFiles, t + 1, 48);
    assert before.writeCount == 48 && before.startTime == t + 1;
    var flagged := Step(before, PlainWrite, HoneypotFiles, t + 1);
    RunScoreNeverDecreases(flagged, later, HoneypotFiles);
  }

  /** A zero-size write to a honeypot by a fresh process scores 1 + 201 = 202 and is flagged. */
  lemma HoneypotScenario(pid: int, now: int)
    ensures var ev := Event(WriteOp, "/home/secret.txt", false, 0, 0.0, 0.0);
      EventDelta(ev, HoneypotFiles) == 202 &&
      Malicious(Step(NewEntry(pid), ev, HoneypotFiles, now))
  {
    SecretPathIsHoneypot("/home/", "");
    assert "/home/" + "secret.txt" + "" == "/home/secret.txt";
  }
}
