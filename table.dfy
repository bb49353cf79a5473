// The process table of src/myFuse.c: the fixed array g_score_table with its
// fill counter g_proc_cnt, find_or_create_score_entry, the three score
// primitives built on it, and monitor_operation with check_frequency_and_alert
// (one call is one atomic step; the mutex is not modelled).
module ProcessTable {
  import opened Config
  import opened ScoreEngine
  import opened Monitor

  datatype Option<T> = None | Some(value: T)

  /** At most one entry per process id. */
  predicate DistinctPids(s: seq<Entry>) {
    forall i, j :: 0 <= i < j < |s| ==> s[i].pid != s[j].pid
  }

  /** Some entry of `s` belongs to `pid`. */
  predicate Tracks(s: seq<Entry>, pid: int) {
    exists k :: 0 <= k < |s| && s[k].pid == pid
  }

  /** The linear scan from index `i`: the first entry at or after `i` with this pid. */
  function FindFrom(s: seq<Entry>, pid: int, i: nat): (r: Option<nat>)
    requires i <= |s|
    ensures r.Some? ==> i <= r.value < |s| && s[r.value].pid == pid &&
                        forall k :: i <= k < r.value ==> s[k].pid != pid
    ensures r.None? ==> forall k :: i <= k < |s| ==> s[k].pid != pid
    decreases |s| - i
  {
    if i == |s| then None
    else if s[i].pid == pid then Some(i)
    else FindFrom(s, pid, i + 1)
  }

  /** find_or_create_score_entry on the table contents `s`: the new contents
      and the index of the entry handed back (None is the NULL return). */
  function FindOrCreateEntry(s: seq<Entry>, pid: int): (r: (seq<Entry>, Option<nat>))
    // a tracked pid: the table is left alone and its first entry is returned
    ensures Tracks(s, pid) ==>
              r.0 == s && r.1.Some? && r.1.value < |s| && s[r.1.value].pid == pid &&
              forall k :: 0 <= k < r.1.value ==> s[k].pid != pid
    // an unknown pid with room left: a zeroed entry is appended at index |s|
    ensures !Tracks(s, pid) && |s| < MaxTrackedPids ==>
              r.0 == s + [NewEntry(pid)] && r.1 == Some(|s|)
    // an unknown pid and a full table: NULL, nothing changes
    ensures !Tracks(s, pid) && |s| >= MaxTrackedPids ==> r == (s, None)
  {
    match FindFrom(s, pid, 0)
    case Some(i) => (s, Some(i))
    case None =>
      if |s| < MaxTrackedPids then (s + [NewEntry(pid)], Some(|s|)) else (s, None)
  }

  /** Creation keeps one entry per pid, and the entry found is then the only one of that pid. */
  lemma FindOrCreateKeepsDistinct(s: seq<Entry>, pid: int)
    requires DistinctPids(s)
    ensures var (s1, slot) := FindOrCreateEntry(s, pid);
      DistinctPids(s1) && |s1| <= |s| + 1 &&
      (slot.Some? ==> slot.value < |s1| && forall k :: 0 <= k < |s1| ==> (s1[k].pid == pid <==> k == slot.value))
  {
    var (s1, slot) := FindOrCreateEntry(s, pid);
    if !Tracks(s, pid) && |s| < MaxTrackedPids {
      forall i, j | 0 <= i < j < |s1| ensures s1[i].pid != s1[j].pid {
        if j == |s| {
          assert s1[i] == s[i];
        }
      }
    }
  }

  /** monitor_operation on the table contents: the new contents and the verdict. */
  function MonitorCall(s: seq<Entry>, pid: int, ev: Event, now: int): (r: (seq<Entry>, bool))
    ensures |r.0| == |s| || |r.0| == |s| + 1
    ensures forall k :: 0 <= k < |s| ==> r.0[k].pid == s[k].pid
    // entries of other processes are untouched
    ensures forall k :: 0 <= k < |s| && s[k].pid != pid ==> r.0[k] == s[k]
    // no score ever goes down
    ensures forall k :: 0 <= k < |s| ==> r.0[k].score >= s[k].score
    // fail-open: an untracked process on a full table is let through and not tracked
    ensures !Tracks(s, pid) && |s| >= MaxTrackedPids ==> r == (s, false)
    // a "malicious" verdict always names a flagged entry of this process
    ensures r.1 ==> exists k :: 0 <= k < |r.0| && r.0[k].pid == pid && Malicious(r.0[k])
  {
    var (s1, slot) := FindOrCreateEntry(s, pid);
    match slot
    case None => (s1, false)
    case Some(i) =>
      var e := Step(s1[i], ev, HoneypotFiles, now);
      assert s1[i := e][i].pid == pid;
      (s1[i := e], Malicious(e))
  }

  /** With one entry per pid, the verdict is exactly "this process's entry is above
      the threshold after the call", and that entry is the one-event `Step` of its
      old entry, or of a fresh zeroed entry appended for a new process. */
  lemma MonitorCallVerdict(s: seq<Entry>, pid: int, ev: Event, now: int)
    requires DistinctPids(s)
    ensures var (s1, v) := MonitorCall(s, pid, ev, now);
      (v <==> exists k :: 0 <= k < |s1| && s1[k].pid == pid && Malicious(s1[k])) &&
      (forall k :: 0 <= k < |s| && s[k].pid == pid ==> s1[k] == Step(s[k], ev, HoneypotFiles, now)) &&
      (!Tracks(s, pid) && |s| < MaxTrackedPids ==> s1 == s + [Step(NewEntry(pid), ev, HoneypotFiles, now)])
  {
    FindOrCreateKeepsDistinct(s, pid);
    MonitorCallKeepsDistinct(s, pid, ev, now);
    var (s1, v) := MonitorCall(s, pid, ev, now);
    var (t, slot) := FindOrCreateEntry(s, pid);
    if slot.Some? {
      var i := slot.value;
      assert s1 == t[i := Step(t[i], ev, HoneypotFiles, now)];
      assert s1[i].pid == pid;
      forall k | 0 <= k < |s1| && s1[k].pid == pid ensures k == i {
        assert t[k].pid == s1[k].pid;
      }
    }
  }

  /** Sticky verdict at table level: a process whose entry is flagged gets
      "malicious" on every further call and its entry stays flagged. */
  lemma MonitorCallKeepsFlag(s: seq<Entry>, k: nat, ev: Event, now: int)
    requires DistinctPids(s)
    requires k < |s| && Malicious(s[k])
    ensures var (s1, verdict) := MonitorCall(s, s[k].pid, ev, now);
      verdict && DistinctPids(s1) && k < |s1| && Malicious(s1[k])
  {
    FindOrCreateKeepsDistinct(s, s[k].pid);
    var (s1, slot) := FindOrCreateEntry(s, s[k].pid);
    assert s1 == s && slot == Some(k);
  }

  /** One monitoring call: which process, which event, at which time. */
  datatype Call = Call(pid: int, ev: Event, now: int)

  /** The table and the verdicts after a sequence of monitoring calls. */
  function Replay(s: seq<Entry>, calls: seq<Call>): (seq<Entry>, seq<bool>)
    decreases |calls|
  {
    if calls == [] then (s, [])
    else
      var (s1, v) := MonitorCall(s, calls[0].pid, calls[0].ev, calls[0].now);
      var (s2, vs) := Replay(s1, calls[1..]);
      (s2, [v] + vs)
  }

  /** Over any later sequence of calls a flagged process keeps its flagged entry,
      every one of its calls is answered "malicious", and pids stay distinct. */
  lemma {:induction false} ReplayKeepsFlag(s: seq<Entry>, k: nat, calls: seq<Call>)
    requires DistinctPids(s)
    requires k < |s| && Malicious(s[k])
    ensures var (s2, vs) := Replay(s, calls);
      |vs| == |calls| && k < |s2| && s2[k].pid == s[k].pid && Malicious(s2[k]) &&
      forall i :: 0 <= i < |calls| && calls[i].pid == s[k].pid ==> vs[i]
    decreases |calls|
  {
    if calls != [] {
      var c := calls[0];
      var (s1, v) := MonitorCall(s, c.pid, c.ev, c.now);
      FindOrCreateKeepsDistinct(s, c.pid);
      MonitorCallKeepsDistinct(s, c.pid, c.ev, c.now);
      if c.pid == s[k].pid {
        MonitorCallKeepsFlag(s, k, c.ev, c.now);
      }
      assert s1[k].pid == s[k].pid && Malicious(s1[k]);
      ReplayKeepsFlag(s1, k, calls[1..]);
      var (s2, vs) := Replay(s1, calls[1..]);
      assert Replay(s, calls) == (s2, [v] + vs);
      forall i | 0 <= i < |calls| && calls[i].pid == s[k].pid
        ensures ([v] + vs)[i]
      {
        if i > 0 {
          assert calls[1..][i - 1] == calls[i];
        }
      }
    }
  }

  /** A monitoring call keeps one entry per pid. */
  lemma MonitorCallKeepsDistinct(s: seq<Entry>, pid: int, ev: Event, now: int)
    requires DistinctPids(s)
    ensures DistinctPids(MonitorCall(s, pid, ev, now).0)
  {
    FindOrCreateKeepsDistinct(s, pid);
    var (s1, slot) := FindOrCreateEntry(s, pid);
    if slot.Some? {
      var s2 := MonitorCall(s, pid, ev, now).0;
      assert forall j :: 0 <= j < |s2| ==> s2[j].pid == s1[j].pid;
    }
  }

  /** Rewriting entries without changing their pids keeps the pids distinct. */
  lemma SamePidsKeepDistinct(s: seq<Entry>, t: seq<Entry>)
    requires DistinctPids(s) && |s| == |t|
    requires forall k :: 0 <= k < |s| ==> t[k].pid == s[k].pid
    ensures DistinctPids(t)
  {
  }

  /** g_score_table and g_proc_cnt. */
  class Table {
    var slots: array<Entry>
    var count: nat

    ghost predicate Valid()
      reads this, slots
    {
      slots.Length == MaxTrackedPids && count <= slots.Length && DistinctPids(slots[..count])
    }

    /** The tracked entries, g_score_table[0 .. g_proc_cnt). */
    ghost function Entries(): seq<Entry>
      reads this, slots
      requires Valid()
    {
      slots[..count]
    }

    /** The zero-initialised global table. */
    constructor ()
      ensures Valid() && fresh(slots) && Entries() == []
    {
      slots := new Entry[MaxTrackedPids](_ => NewEntry(0));
      count := 0;
    }

    /** find_or_create_score_entry: a linear scan of the filled part, then an append if room remains. */
    method FindOrCreate(pid: int) returns (slot: Option<nat>)
      requires Valid()
      modifies this, slots
      ensures Valid() && slots == old(slots)
      ensures (Entries(), slot) == FindOrCreateEntry(old(Entries()), pid)
    {
      var i := 0;
      while i < count
        invariant 0 <= i <= count
        invariant forall k :: 0 <= k < i ==> slots[k].pid != pid
      {
        if slots[i].pid == pid {
          assert slots[..count][i].pid == pid;
          return Some(i);
        }
        i := i + 1;
      }
      assert !Tracks(slots[..count], pid);
      if count < MaxTrackedPids {
        ghost var before := slots[..count];
        FindOrCreateKeepsDistinct(before, pid);
        slots[count] := NewEntry(pid);
        count := count + 1;
        assert slots[..count] == before + [NewEntry(pid)];
        return Some(count - 1);
      }
      return None;
    }

    /** update_malice_score: add to the score of pid's entry (creating it if needed) and stamp lastWriteTime. */
    method UpdateMaliceScore(pid: int, added: int, now: int)
      requires Valid()
      modifies this, slots
      ensures Valid() && slots == old(slots)
      ensures var (s1, slot) := FindOrCreateEntry(old(Entries()), pid);
        Entries() == match slot
          case None => s1
          case Some(i) => s1[i := s1[i].(score := s1[i].score + added, lastWriteTime := now)]
    {
      ghost var s0 := Entries();
      FindOrCreateKeepsDistinct(s0, pid);
      var slot := FindOrCreate(pid);
      if slot.Some? {
        var i := slot.value;
        slots[i] := slots[i].(score := slots[i].score + added);
        slots[i] := slots[i].(lastWriteTime := now);
        assert forall k :: 0 <= k < count ==> slots[k].pid == FindOrCreateEntry(s0, pid).0[k].pid;
      }
    }

    /** get_malice_score: the score of pid's entry, 0 when the table is full;
        like the source, a lookup of an unknown pid creates its entry. */
    method GetMaliceScore(pid: int) returns (score: int)
      requires Valid()
      modifies this, slots
      ensures Valid() && slots == old(slots)
      ensures var (s1, slot) := FindOrCreateEntry(old(Entries()), pid);
        Entries() == s1 && score == (match slot case None => 0 case Some(i) => s1[i].score)
      ensures !Tracks(old(Entries()), pid) ==> score == 0
    {
      var slot := FindOrCreate(pid);
      if slot.Some? {
        score := slots[slot.value].score;
      } else {
        score := 0;
      }
    }

    /** reset_malice_score: the only operation that lowers a score, to 0. */
    method ResetMaliceScore(pid: int)
      requires Valid()
      modifies this, slots
      ensures Valid() && slots == old(slots)
      ensures var (s1, slot) := FindOrCreateEntry(old(Entries()), pid);
        Entries() == match slot
          case None => s1
          case Some(i) => s1[i := s1[i].(score := 0)]
    {
      ghost var s0 := Entries();
      FindOrCreateKeepsDistinct(s0, pid);
      var slot := FindOrCreate(pid);
      if slot.Some? {
        var i := slot.value;
        slots[i] := slots[i].(score := 0);
        assert forall k :: 0 <= k < count ==> slots[k].pid == FindOrCreateEntry(s0, pid).0[k].pid;
      }
    }

    /** check_frequency_and_alert on the entry at index i, then the verdict. */
    method CheckFrequencyAndAlert(i: nat, now: int) returns (malicious: bool)
      requires Valid() && i < count
      modifies slots
      ensures Valid()
      ensures Entries() == old(Entries())[i := Tick(old(Entries())[i], now)]
      ensures malicious == Malicious(Entries()[i])
    {
      var e := slots[i];
      if e.startTime == 0 {
        e := e.(startTime := now);
      }
      if now - e.startTime >= WindowSeconds {
        if e.writeCount > WriteThresholdPerWindow {
          e := e.(score := e.score + PenaltyHighWrite);
        }
        if e.unlinkCount > UnlinkThresholdPerWindow {
          e := e.(score := e.score + PenaltyHighUnlink);
        }
        if e.renameCount > RenameThresholdPerWindow {
          e := e.(score := e.score + PenaltyHighRename);
        }
        e := e.(writeCount := 0, unlinkCount := 0, renameCount := 0);
        e := e.(startTime := now);
      }
      assert e == Tick(slots[i], now);
      slots[i] := e;
      malicious := e.score > FinalMaliceThreshold;
      assert forall k :: 0 <= k < count ==> slots[k].pid == old(slots[k]).pid;
      assert slots[..count] == old(slots[..count])[i := e];
    }

    /** monitor_operation's update of entry i before the tick: add the delta and
        bump the counter of the operation kind (a write also stamps lastWriteTime). */
    method RecordEvent(i: nat, op: string, delta: int, now: int)
      requires Valid() && i < count
      modifies slots
      ensures Valid()
      ensures Entries() == old(Entries())[i := Record(old(Entries())[i], op, delta, now)]
    {
      ghost var s1 := Entries();
      var e := slots[i];
      e := e.(score := e.score + delta);
      if op == WriteOp {
        e := e.(writeCount := e.writeCount + 1, lastWriteTime := now);
      } else if op == UnlinkOp {
        e := e.(unlinkCount := e.unlinkCount + 1);
      } else if op == RenameOp {
        e := e.(renameCount := e.renameCount + 1);
      }
      assert e == Record(s1[i], op, delta, now);
      slots[i] := e;
      assert Entries() == s1[i := e];
      SamePidsKeepDistinct(s1, Entries());
    }

    /** monitor_operation for process `pid`: find or create its entry (a full
        table lets the call through untracked), add the event's delta, bump the
        counter of its kind, then tick the window and return the verdict. */
    method MonitorOperation(pid: int, ev: Event, now: int) returns (malicious: bool)
      requires Valid()
      modifies this, slots
      ensures Valid() && slots == old(slots)
      ensures (Entries(), malicious) == MonitorCall(old(Entries()), pid, ev, now)
    {
      ghost var s0 := Entries();
      FindOrCreateKeepsDistinct(s0, pid);
      var slot := FindOrCreate(pid);
      if slot.None? {
        return false;
      }
      var i := slot.value;
      var delta := CalcScore(ev.op, ev.hasBuf, ev.size, ev.entropyBefore, ev.entropyAfter);
      var honeypot := IsHoneypot(ev.path, HoneypotFiles);
      if honeypot {
        delta := delta + (FinalMaliceThreshold + 1);
      }
      assert delta == EventDelta(ev, HoneypotFiles);
      ghost var s1 := Entries();
      RecordEvent(i, ev.op, delta, now);
      malicious := CheckFrequencyAndAlert(i, now);
      assert Entries() == s1[i := Step(s1[i], ev, HoneypotFiles, now)];
    }
  }
}
