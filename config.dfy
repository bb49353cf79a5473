// Fixed weights and thresholds of the detection engine (src/myFuse.h:12-36;
// the older analyser's header src/analyzer.h:5-21 declares the same values).
module Config {
  // --- points per single operation ---
  const WeightWrite: int := 1
  const WeightMalicious: int := 3
  const WeightHighEntropy: int := 5
  const EntropyThreshold: real := 4.2

  // --- tumbling window and per-window rate caps ---
  const WindowSeconds: int := 1
  const WriteThresholdPerWindow: nat := 100
  const UnlinkThresholdPerWindow: nat := 10
  const RenameThresholdPerWindow: nat := 10

  // --- penalties once a rate cap is exceeded ---
  const PenaltyHighWrite: int := 50
  const PenaltyHighUnlink: int := 100
  const PenaltyHighRename: int := 100

  // --- verdict ---
  const FinalMaliceThreshold: int := 200

  // --- process table ---
  const MaxTrackedPids: nat := 100

  // Size of the relative-path buffer filled by strncpy (Linux PATH_MAX, <limits.h>).
  const PathMax: nat := 4096

  // The operation names the filesystem hooks pass to the engine (string
  // literals in src/myFuse.c and analyzer.c).
  const WriteOp: string := "WRITE"
  const UnlinkOp: string := "UNLINK"
  const RenameOp: string := "RENAME"
}
