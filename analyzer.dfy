// The earlier single-process analyser, analyzer.c: the same scoring and
// window logic over file-level globals (one score for all processes), with
// an absolute write bonus and a first check that only opens the window.
module Analyzer {
  import opened Config
  import ScoreEngine
  import Monitor

  /** The static globals write_count, unlink_count, rename_count,
      total_malice_score and start_time. */
  datatype AnalyzerState = AnalyzerState(
    writeCount: nat,
    unlinkCount: nat,
    renameCount: nat,
    total: int,
    startTime: int)

  const Initial: AnalyzerState := AnalyzerState(0, 0, 0, 0, 0)

  /** calc_score: the write bonus only asks that the buffer's entropy be above the threshold. */
  function CalcScore(op: string, hasBuf: bool, size: nat, entropy: real): (r: int)
    ensures r >= 0
    ensures op == WriteOp ==> (r == 6 <==> hasBuf && size > 0 && entropy > EntropyThreshold)
    ensures op == WriteOp ==> (r == 1 <==> !(hasBuf && size > 0 && entropy > EntropyThreshold))
    ensures op == UnlinkOp || op == RenameOp ==> r == 3
    ensures op != WriteOp && op != UnlinkOp && op != RenameOp ==> r == 0
  {
    if op == WriteOp then
      WeightWrite + (if hasBuf && size > 0 && entropy > EntropyThreshold then WeightHighEntropy else 0)
    else if op == UnlinkOp || op == RenameOp then
      WeightMalicious
    else
      0
  }

  /** The rate penalty for the window that just ended. */
  function Penalty(s: AnalyzerState): (p: int)
    ensures 0 <= p <= PenaltyHighWrite + PenaltyHighUnlink + PenaltyHighRename
    // each kind alone: +50 for writes, +100 for unlinks, +100 for renames
    ensures (s.writeCount > WriteThresholdPerWindow && s.unlinkCount <= UnlinkThresholdPerWindow &&
             s.renameCount <= RenameThresholdPerWindow) ==> p == 50
    ensures (s.writeCount <= WriteThresholdPerWindow && s.unlinkCount > UnlinkThresholdPerWindow &&
             s.renameCount <= RenameThresholdPerWindow) ==> p == 100
    ensures (s.writeCount <= WriteThresholdPerWindow && s.unlinkCount <= UnlinkThresholdPerWindow &&
             s.renameCount > RenameThresholdPerWindow) ==> p == 100
    // the kinds add up: the write penalty is the odd 50, each of the other two a whole 100
    ensures p % 100 == (if s.writeCount > WriteThresholdPerWindow then 50 else 0)
    ensures p / 100 == (if s.unlinkCount > UnlinkThresholdPerWindow then 1 else 0)
                     + (if s.renameCount > RenameThresholdPerWindow then 1 else 0)
  {
    (if s.writeCount > WriteThresholdPerWindow then PenaltyHighWrite else 0)
      + (if s.unlinkCount > UnlinkThresholdPerWindow then PenaltyHighUnlink else 0)
      + (if s.renameCount > RenameThresholdPerWindow then PenaltyHighRename else 0)
  }

  /** check_frequency_and_alert: the new globals and the verdict. */
  function Check(s: AnalyzerState, now: int): (r: (AnalyzerState, bool))
    // the very first check only opens the window: no penalty, no verdict,
    // whatever the total already is
    ensures s.startTime == 0 ==> r == (s.(startTime := now), false)
    // afterwards the verdict is exactly "total above the threshold"
    ensures s.startTime != 0 ==> (r.1 <==> r.0.total > FinalMaliceThreshold)
    // a rollover charges the ended window, zeroes all counts and restarts the window at `now`
    ensures s.startTime != 0 && now - s.startTime >= WindowSeconds ==>
              r.0 == AnalyzerState(0, 0, 0, s.total + Penalty(s), now)
    // inside the window the globals are untouched
    ensures s.startTime != 0 && now - s.startTime < WindowSeconds ==> r.0 == s
    // detection never resets the total
    ensures r.0.total >= s.total
  {
    if s.startTime == 0 then
      (s.(startTime := now), false)
    else
      var t := if now - s.startTime >= WindowSeconds
               then AnalyzerState(0, 0, 0, s.total + Penalty(s), now)
               else s;
      (t, t.total > FinalMaliceThreshold)
  }

  /** monitor_operation's update before the check: add the content score and
      bump the counter of the operation kind. */
  function Bump(s: AnalyzerState, op: string, points: int): (r: AnalyzerState)
    ensures r.total == s.total + points && r.startTime == s.startTime
    ensures r.writeCount == s.writeCount + (if op == WriteOp then 1 else 0)
    ensures r.unlinkCount == s.unlinkCount + (if op == UnlinkOp then 1 else 0)
    ensures r.renameCount == s.renameCount + (if op == RenameOp then 1 else 0)
  {
    var scored := s.(total := s.total + points);
    if op == WriteOp then scored.(writeCount := scored.writeCount + 1)
    else if op == UnlinkOp then scored.(unlinkCount := scored.unlinkCount + 1)
    else if op == RenameOp then scored.(renameCount := scored.renameCount + 1)
    else scored
  }

  /** One call of monitor_operation: the new globals and the verdict. */
  function Step(s: AnalyzerState, op: string, hasBuf: bool, size: nat, entropy: real, now: int): (r: (AnalyzerState, bool))
    ensures r.0.total >= s.total + CalcScore(op, hasBuf, size, entropy)
    ensures s.startTime == 0 ==> !r.1 && r.0.startTime == now
    ensures s.startTime != 0 ==> (r.1 <==> r.0.total > FinalMaliceThreshold)
  {
    Check(Bump(s, op, CalcScore(op, hasBuf, size, entropy)), now)
  }

  /** One call of the analyser's monitor_operation. */
  datatype Op = Op(op: string, hasBuf: bool, size: nat, entropy: real, now: int)

  /** The globals and the verdicts after a sequence of calls. */
  function Run(s: AnalyzerState, ops: seq<Op>): (seq<bool>, AnalyzerState)
    decreases |ops|
  {
    if ops == [] then ([], s)
    else
      var (s1, v) := Step(s, ops[0].op, ops[0].hasBuf, ops[0].size, ops[0].entropy, ops[0].now);
      var (vs, s2) := Run(s1, ops[1..]);
      ([v] + vs, s2)
  }

  /** total_malice_score never decreases over any sequence of calls. */
  lemma {:induction false} RunTotalNeverDecreases(s: AnalyzerState, ops: seq<Op>)
    ensures Run(s, ops).1.total >= s.total
    ensures |Run(s, ops).0| == |ops|
    decreases |ops|
  {
    if ops != [] {
      var o := ops[0];
      RunTotalNeverDecreases(Step(s, o.op, o.hasBuf, o.size, o.entropy, o.now).0, ops[1..]);
    }
  }

  /** Once the window is open and the total is above the threshold, every later
      call reports "malicious", as long as the clock stays past 0 (a window start
      of 0 would read as "not yet opened" again). */
  lemma {:induction false} RunKeepsFlag(s: AnalyzerState, ops: seq<Op>)
    requires s.startTime != 0 && s.total > FinalMaliceThreshold
    requires forall i :: 0 <= i < |ops| ==> ops[i].now > 0
    ensures |Run(s, ops).0| == |ops|
    ensures forall i :: 0 <= i < |ops| ==> Run(s, ops).0[i]
    decreases |ops|
  {
    if ops != [] {
      var o := ops[0];
      var (s1, v) := Step(s, o.op, o.hasBuf, o.size, o.entropy, o.now);
      assert s1.startTime != 0;
      assert forall i :: 0 <= i < |ops[1..]| ==> ops[1..][i].now > 0 by {
        forall i | 0 <= i < |ops[1..]| ensures ops[1..][i].now > 0 {
          assert ops[1..][i] == ops[i + 1];
        }
      }
      RunKeepsFlag(s1, ops[1..]);
    }
  }

  /** The analyser's globals as a class: one instance is the file-level state. */
  class Globals {
    var writeCount: nat
    var unlinkCount: nat
    var renameCount: nat
    var totalMaliceScore: int
    var startTime: int

    function Snapshot(): AnalyzerState
      reads this
    {
      AnalyzerState(writeCount, unlinkCount, renameCount, totalMaliceScore, startTime)
    }

    /** All globals start at 0. */
    constructor ()
      ensures Snapshot() == Initial
    {
      writeCount, unlinkCount, renameCount := 0, 0, 0;
      totalMaliceScore, startTime := 0, 0;
    }

    /** check_frequency_and_alert at time `now` (the pid argument is only printed, so it is left out). */
    method CheckFrequencyAndAlert(now: int) returns (malicious: bool)
      modifies this
      ensures (Snapshot(), malicious) == Check(old(Snapshot()), now)
    {
      if startTime == 0 {
        startTime := now;
        return false;
      }
      if now - startTime >= WindowSeconds {
        if writeCount > WriteThresholdPerWindow {
          totalMaliceScore := totalMaliceScore + PenaltyHighWrite;
        }
        if unlinkCount > UnlinkThresholdPerWindow {
          totalMaliceScore := totalMaliceScore + PenaltyHighUnlink;
        }
        if renameCount > RenameThresholdPerWindow {
          totalMaliceScore := totalMaliceScore + PenaltyHighRename;
        }
        writeCount, unlinkCount, renameCount := 0, 0, 0;
        startTime := now;
      }
      malicious := totalMaliceScore > FinalMaliceThreshold;
    }

    /** monitor_operation: add the content score, bump the counter of the kind, then check. */
    method MonitorOperation(op: string, hasBuf: bool, size: nat, entropy: real, now: int) returns (malicious: bool)
      modifies this
      ensures (Snapshot(), malicious) == Step(old(Snapshot()), op, hasBuf, size, entropy, now)
    {
      var contentScore := CalcScore(op, hasBuf, size, entropy);
      totalMaliceScore := totalMaliceScore + contentScore;
      if op == WriteOp {
        writeCount := writeCount + 1;
      } else if op == UnlinkOp {
        unlinkCount := unlinkCount + 1;
      } else if op == RenameOp {
        renameCount := renameCount + 1;
      }
      malicious := CheckFrequencyAndAlert(now);
    }
  }

  // ---------------------------------------------------------------------
  // How the analyser differs from the engine in src/myFuse.c
  // ---------------------------------------------------------------------

  /** The later engine's write bonus also needs the entropy to rise, so it never
      scores more than the analyser; the two differ exactly on a non-empty
      high-entropy write over data that was at least as disordered. */
  lemma WriteBonusComparison(op: string, hasBuf: bool, size: nat, entropyBefore: real, entropyAfter: real)
    ensures ScoreEngine.CalcScore(op, hasBuf, size, entropyBefore, entropyAfter) <= CalcScore(op, hasBuf, size, entropyAfter)
    ensures ScoreEngine.CalcScore(op, hasBuf, size, entropyBefore, entropyAfter) != CalcScore(op, hasBuf, size, entropyAfter)
            <==> op == WriteOp && hasBuf && size > 0 && entropyAfter > EntropyThreshold && entropyAfter <= entropyBefore
  {
  }

  /** Overwriting an already compressed file: 6 points for the analyser, 1 for the engine. */
  lemma CompressedOverwrite()
    ensures CalcScore(WriteOp, true, 4096, 7.9) == 6
    ensures ScoreEngine.CalcScore(WriteOp, true, 4096, 7.9, 7.9) == 1
  {
  }

  /** Both versions charge the same rate penalties for the same window counts. */
  lemma PenaltiesAgree(s: AnalyzerState, e: Monitor.Entry)
    requires e.writeCount == s.writeCount && e.unlinkCount == s.unlinkCount && e.renameCount == s.renameCount
    ensures Penalty(s) == Monitor.WindowPenalty(e)
  {
  }

  /** On the first check with a total already above the threshold, the analyser
      answers "benign" while the engine, which always evaluates the verdict,
      answers "malicious". */
  lemma FirstCheckVerdictsDiffer(total: int, pid: int, now: int)
    requires total > FinalMaliceThreshold
    ensures !Check(AnalyzerState(0, 0, 0, total, 0), now).1
    ensures Monitor.Malicious(Monitor.Tick(Monitor.Entry(pid, total, 0, 0, 0, 0, 0), now))
  {
  }
}
