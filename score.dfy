// The per-event score of src/myFuse.c: calc_score and the honeypot trip-wire.
module ScoreEngine {
  import opened Config

  /** One classified filesystem call as the hook hands it to the engine.
      `hasBuf` is `buf != NULL`; `entropyAfter` is the entropy of the write
      buffer and `entropyBefore` that of the bytes it overwrites, both
      computed outside the engine and given here as inputs. */
  datatype Event = Event(
    op: string,
    path: string,
    hasBuf: bool,
    size: nat,
    entropyBefore: real,
    entropyAfter: real)

  /** The decoy keywords; a path containing one of them is a honeypot. */
  const HoneypotFiles: seq<string> := ["secret.txt"]

  /** `needle` occurs in `hay` starting at index `i`. */
  predicate OccursAt(hay: string, needle: string, i: int) {
    0 <= i && i + |needle| <= |hay| && hay[i..i + |needle|] == needle
  }

  /** `strstr(hay, needle) != NULL`. */
  predicate Contains(hay: string, needle: string) {
    exists i :: 0 <= i <= |hay| - |needle| && OccursAt(hay, needle, i)
  }

  /** Some keyword of `keywords` is a substring of `path`. */
  predicate HasHoneypotKeyword(path: string, keywords: seq<string>) {
    exists k :: 0 <= k < |keywords| && Contains(path, keywords[k])
  }

  /** is_honeypot: scan the keyword list, stop at the first keyword found in the path. */
  method IsHoneypot(path: string, keywords: seq<string>) returns (hit: bool)
    ensures hit <==> HasHoneypotKeyword(path, keywords)
  {
    var i := 0;
    while i < |keywords|
      invariant 0 <= i <= |keywords|
      invariant forall k :: 0 <= k < i ==> !Contains(path, keywords[k])
    {
      if Contains(path, keywords[i]) {
        return true;
      }
      i := i + 1;
    }
    return false;
  }

  /** The write bonus condition: a non-empty buffer whose entropy is above the
      threshold and above the entropy of what it overwrites. */
  predicate RisingHighEntropy(hasBuf: bool, size: nat, entropyBefore: real, entropyAfter: real) {
    hasBuf && size > 0 && entropyAfter > EntropyThreshold && entropyAfter > entropyBefore
  }

  /** calc_score: the content points of one operation. */
  function CalcScore(op: string, hasBuf: bool, size: nat, entropyBefore: real, entropyAfter: real): (r: int)
    ensures r >= 0
    ensures op == WriteOp ==> (r == 6 <==> RisingHighEntropy(hasBuf, size, entropyBefore, entropyAfter))
    ensures op == WriteOp ==> (r == 1 <==> !RisingHighEntropy(hasBuf, size, entropyBefore, entropyAfter))
    ensures op == UnlinkOp || op == RenameOp ==> r == 3
    ensures op != WriteOp && op != UnlinkOp && op != RenameOp ==> r == 0
  {
    if op == WriteOp then
      WeightWrite + (if RisingHighEntropy(hasBuf, size, entropyBefore, entropyAfter) then WeightHighEntropy else 0)
    else if op == UnlinkOp || op == RenameOp then
      WeightMalicious
    else
      0
  }

  /** The delta monitor_operation adds to the entry's score for one event:
      the content points plus FinalMaliceThreshold + 1 on a honeypot path. */
  function EventDelta(ev: Event, keywords: seq<string>): (d: int)
    ensures d >= 0
    ensures d - CalcScore(ev.op, ev.hasBuf, ev.size, ev.entropyBefore, ev.entropyAfter) == 0
         || d - CalcScore(ev.op, ev.hasBuf, ev.size, ev.entropyBefore, ev.entropyAfter) == FinalMaliceThreshold + 1
    // the trip-wire alone decides whether one event can cross the threshold
    ensures d > FinalMaliceThreshold <==> HasHoneypotKeyword(ev.path, keywords)
  {
    CalcScore(ev.op, ev.hasBuf, ev.size, ev.entropyBefore, ev.entropyAfter)
      + (if HasHoneypotKeyword(ev.path, keywords) then FinalMaliceThreshold + 1 else 0)
  }

  /** A path holding "secret.txt" anywhere trips the configured honeypot. */
  lemma SecretPathIsHoneypot(prefix: string, suffix: string)
    ensures HasHoneypotKeyword(prefix + "secret.txt" + suffix, HoneypotFiles)
  {
    var path := prefix + "secret.txt" + suffix;
    assert path[|prefix|..|prefix| + 10] == "secret.txt";
    assert OccursAt(path, HoneypotFiles[0], |prefix|);
  }

  /** A path shorter than the only keyword never trips it. */
  lemma ShortPathIsNotHoneypot(path: string)
    requires |path| < 10
    ensures !HasHoneypotKeyword(path, HoneypotFiles)
  {
    assert |HoneypotFiles[0]| == 10;
  }
}
