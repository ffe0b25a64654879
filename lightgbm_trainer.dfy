/**
  The deterministic contract the LightGBM trainer tests pin down:
  which boosting rounds produce a checkpoint, which worker reports it,
  how the checkpoint directories are ordered, how resuming counts trees,
  and which constructor arguments are refused.

  The trainer, the boosting library and the cluster runtime are not part of
  the model; rounds are 0-indexed, as in the tests.
*/
module LightgbmTrainerContract {
  import opened Options

  // ---------------------------------------------------------------------
  // The reporting callback
  // ---------------------------------------------------------------------

  /** Configuration of the report callback: checkpoint every `frequency` rounds (0 = never) and/or at the end. */
  datatype CallbackConfig = CallbackConfig(frequency: nat, checkpointAtEnd: bool)

  /** A model snapshot; a booster after round `i` holds `i + 1` trees. */
  datatype Checkpoint = Checkpoint(iteration: nat, numTrees: nat)

  /** One report of a worker: the round it follows and the checkpoint it carries, if any. */
  datatype Report = Report(iteration: nat, checkpoint: Option<Checkpoint>)

  /** Every `frequency`-th completed round is a checkpoint round. */
  predicate IsFrequencyRound(round: nat, frequency: nat) {
    frequency > 0 && (round + 1) % frequency == 0
  }

  /** Only the worker of rank 0, or a run without a rank (a trial run under Ray Tune), produces a checkpoint. */
  predicate EmitsCheckpoint(rank: Option<nat>) {
    rank == None || rank == Some(0)
  }

  /** The callback's checkpoint context: a snapshot for the reporting worker, nothing for the others. */
  function GetCheckpoint(rank: Option<nat>, iteration: nat): (c: Option<Checkpoint>)
    ensures c.Some? <==> EmitsCheckpoint(rank)
    ensures c.Some? ==> c.value.iteration == iteration && c.value.numTrees == iteration + 1
  {
    if EmitsCheckpoint(rank) then Some(Checkpoint(iteration, iteration + 1)) else None
  }

  /** The report after one boosting round. */
  function AfterIteration(cb: CallbackConfig, iteration: nat, rank: Option<nat>): Report {
    if IsFrequencyRound(iteration, cb.frequency) then Report(iteration, GetCheckpoint(rank, iteration))
    else Report(iteration, None)
  }

  /** Reports of rounds `lo` up to (excluding) `hi`. */
  function IterationReports(cb: CallbackConfig, lo: nat, hi: nat, rank: Option<nat>): (rs: seq<Report>)
    decreases hi - lo
  {
    if lo >= hi then []
    else [AfterIteration(cb, lo, rank)] + IterationReports(cb, lo + 1, hi, rank)
  }

  /** The extra end-of-training report: only when asked for and the last round was not already a checkpoint round. */
  function EndReport(cb: CallbackConfig, rounds: nat, rank: Option<nat>): seq<Report> {
    if cb.checkpointAtEnd && rounds > 0 && !IsFrequencyRound(rounds - 1, cb.frequency)
    then [Report(rounds - 1, GetCheckpoint(rank, rounds - 1))]
    else []
  }

  /** All reports of one worker for a run of boosting rounds `start` .. `rounds - 1`. */
  function RunReports(cb: CallbackConfig, start: nat, rounds: nat, rank: Option<nat>): seq<Report> {
    IterationReports(cb, start, rounds, rank)
      + (if start < rounds then EndReport(cb, rounds, rank) else [])
  }

  /** The checkpoints among some reports, in report order. */
  function Checkpoints(rs: seq<Report>): (cs: seq<Checkpoint>)
    ensures |cs| <= |rs|
  {
    if rs == [] then []
    else (if rs[0].checkpoint.Some? then [rs[0].checkpoint.value] else []) + Checkpoints(rs[1..])
  }

  /** Rounds of a sequence of checkpoints. */
  function Iterations(cs: seq<Checkpoint>): (its: seq<nat>)
    ensures |its| == |cs|
    ensures forall i :: 0 <= i < |cs| ==> its[i] == cs[i].iteration
  {
    if cs == [] then [] else [cs[0].iteration] + Iterations(cs[1..])
  }

  /** The rounds at which a fresh run of `rounds` rounds keeps a checkpoint (`result.best_checkpoints`, all kept). */
  function CheckpointRounds(rounds: nat, frequency: nat, atEnd: bool): seq<nat> {
    Iterations(Checkpoints(RunReports(CallbackConfig(frequency, atEnd), 0, rounds, Some(0))))
  }

  predicate StrictlyIncreasing(s: seq<nat>) {
    forall i, j :: 0 <= i < j < |s| ==> s[i] < s[j]
  }

  // ---------------------------------------------------------------------
  // Properties of the checkpoint policy
  // ---------------------------------------------------------------------

  /** Reference definition: the frequency rounds among `lo` .. `hi - 1`, in increasing order. */
  function FrequencyRounds(lo: nat, hi: nat, frequency: nat): seq<nat>
    decreases hi - lo
  {
    if lo >= hi then []
    else (if IsFrequencyRound(lo, frequency) then [lo] else []) + FrequencyRounds(lo + 1, hi, frequency)
  }

  lemma {:induction false} CheckpointsAppend(a: seq<Report>, b: seq<Report>)
    ensures Checkpoints(a + b) == Checkpoints(a) + Checkpoints(b)
  {
    if a != [] {
      assert (a + b)[0] == a[0];
      assert (a + b)[1..] == a[1..] + b;
      CheckpointsAppend(a[1..], b);
      var h := if a[0].checkpoint.Some? then [a[0].checkpoint.value] else [];
      calc {
        Checkpoints(a + b);
        h + Checkpoints(a[1..] + b);
        h + (Checkpoints(a[1..]) + Checkpoints(b));
        (h + Checkpoints(a[1..])) + Checkpoints(b);
      }
    } else {
      assert a + b == b;
    }
  }

  lemma {:induction false} IterationsAppend(a: seq<Checkpoint>, b: seq<Checkpoint>)
    ensures Iterations(a + b) == Iterations(a) + Iterations(b)
  {
  }

  /** The callback's reports carry checkpoints exactly at the frequency rounds, for the reporting worker only; each holds one tree per completed round. */
  lemma {:induction false} ReportedCheckpoints(cb: CallbackConfig, lo: nat, hi: nat, rank: Option<nat>)
    ensures Iterations(Checkpoints(IterationReports(cb, lo, hi, rank)))
         == if EmitsCheckpoint(rank) then FrequencyRounds(lo, hi, cb.frequency) else []
    ensures forall c :: c in Checkpoints(IterationReports(cb, lo, hi, rank)) ==> c.numTrees == c.iteration + 1
    decreases hi - lo
  {
    if lo < hi {
      var head := AfterIteration(cb, lo, rank);
      var rest := IterationReports(cb, lo + 1, hi, rank);
      assert IterationReports(cb, lo, hi, rank) == [head] + rest;
      CheckpointsAppend([head], rest);
      ReportedCheckpoints(cb, lo + 1, hi, rank);
      var hc := if head.checkpoint.Some? then [head.checkpoint.value] else [];
      assert Checkpoints([head]) == hc by {
        assert [head][1..] == [];
      }
      assert Iterations(hc) == if EmitsCheckpoint(rank) && IsFrequencyRound(lo, cb.frequency) then [lo] else [];
      IterationsAppend(hc, Checkpoints(rest));
    }
  }

  lemma {:induction false} FrequencyRoundsMembers(lo: nat, hi: nat, frequency: nat, r: nat)
    ensures r in FrequencyRounds(lo, hi, frequency) <==> lo <= r < hi && IsFrequencyRound(r, frequency)
    decreases hi - lo
  {
    if lo < hi {
      FrequencyRoundsMembers(lo + 1, hi, frequency, r);
    }
  }

  lemma {:induction false} FrequencyRoundsIncreasing(lo: nat, hi: nat, frequency: nat)
    ensures StrictlyIncreasing(FrequencyRounds(lo, hi, frequency))
    decreases hi - lo
  {
    if lo < hi {
      var rest := FrequencyRounds(lo + 1, hi, frequency);
      FrequencyRoundsIncreasing(lo + 1, hi, frequency);
      forall k | 0 <= k < |rest| ensures lo < rest[k] {
        FrequencyRoundsMembers(lo + 1, hi, frequency, rest[k]);
      }
    }
  }

  /** The end checkpoint of a run, if one is added. */
  function EndRound(rounds: nat, frequency: nat, atEnd: bool): seq<nat> {
    if atEnd && rounds > 0 && !IsFrequencyRound(rounds - 1, frequency) then [rounds - 1] else []
  }

  /** The simulated run keeps the reference rounds: the frequency rounds, then the last round when an end checkpoint is added. */
  lemma CheckpointRoundsReference(rounds: nat, frequency: nat, atEnd: bool)
    ensures CheckpointRounds(rounds, frequency, atEnd)
         == FrequencyRounds(0, rounds, frequency) + EndRound(rounds, frequency, atEnd)
  {
    var cb := CallbackConfig(frequency, atEnd);
    var tail := if 0 < rounds then EndReport(cb, rounds, Some(0)) else [];
    CheckpointsAppend(IterationReports(cb, 0, rounds, Some(0)), tail);
    ReportedCheckpoints(cb, 0, rounds, Some(0));
    IterationsAppend(Checkpoints(IterationReports(cb, 0, rounds, Some(0))), Checkpoints(tail));
  }

  /** Membership: a round gets a checkpoint iff it is a frequency round, or it is the last round and an end checkpoint was asked for. */
  lemma CheckpointRoundsMembers(rounds: nat, frequency: nat, atEnd: bool, r: nat)
    ensures r in CheckpointRounds(rounds, frequency, atEnd) <==>
      r < rounds && (IsFrequencyRound(r, frequency) || (atEnd && r == rounds - 1))
  {
    CheckpointRoundsReference(rounds, frequency, atEnd);
    FrequencyRoundsMembers(0, rounds, frequency, r);
  }

  /** The checkpoint list is strictly increasing, so the end checkpoint never duplicates the last frequency checkpoint. */
  lemma CheckpointRoundsIncreasing(rounds: nat, frequency: nat, atEnd: bool)
    ensures StrictlyIncreasing(CheckpointRounds(rounds, frequency, atEnd))
  {
    CheckpointRoundsReference(rounds, frequency, atEnd);
    var front := FrequencyRounds(0, rounds, frequency);
    FrequencyRoundsIncreasing(0, rounds, frequency);
    if EndRound(rounds, frequency, atEnd) != [] {
      forall k | 0 <= k < |front| ensures front[k] < rounds - 1 {
        FrequencyRoundsMembers(0, rounds, frequency, front[k]);
      }
    }
  }

  /** Workers other than rank 0 report every round but never carry a checkpoint. */
  lemma {:induction false} OtherRanksReportNoCheckpoint(cb: CallbackConfig, lo: nat, hi: nat, rank: nat)
    requires rank != 0
    ensures |IterationReports(cb, lo, hi, Some(rank))| == (if lo < hi then hi - lo else 0)
    ensures Checkpoints(IterationReports(cb, lo, hi, Some(rank))) == []
    decreases hi - lo
  {
    if lo < hi {
      OtherRanksReportNoCheckpoint(cb, lo + 1, hi, rank);
    }
  }

  /** A worker without a rank keeps the same reports as the rank-0 worker. */
  lemma {:induction false} UnrankedSameAsRankZero(cb: CallbackConfig, lo: nat, hi: nat)
    ensures IterationReports(cb, lo, hi, None) == IterationReports(cb, lo, hi, Some(0))
    decreases hi - lo
  {
    if lo < hi {
      UnrankedSameAsRankZero(cb, lo + 1, hi);
    }
  }

  lemma MulAtLeast(k: int, f: int)
    requires k >= 1 && f > 0
    ensures k * f >= f
  {
  }

  lemma DivUnique(n: nat, f: nat, a: nat, b: nat)
    requires f > 0 && b < f && n == a * f + b
    ensures n / f == a && n % f == b
  {
    var q, r := n / f, n % f;
    assert n == q * f + r;
    if a > q {
      assert (a - q) * f == r - b;
      MulAtLeast(a - q, f);
    } else if a < q {
      assert (q - a) * f == b - r;
      MulAtLeast(q - a, f);
    }
  }

  lemma {:induction false} FrequencyRoundsSplitLast(lo: nat, hi: nat, frequency: nat)
    requires lo < hi
    ensures FrequencyRounds(lo, hi, frequency)
         == FrequencyRounds(lo, hi - 1, frequency) + (if IsFrequencyRound(hi - 1, frequency) then [hi - 1] else [])
    decreases hi - lo
  {
    if lo < hi - 1 {
      FrequencyRoundsSplitLast(lo + 1, hi, frequency);
    }
  }

  /** The rounds `frequency - 1`, `2 * frequency - 1`, ... , `count * frequency - 1`. */
  function Multiples(count: nat, frequency: nat): seq<nat>
    requires frequency > 0
  {
    seq(count, k requires 0 <= k < count => (k + 1) * frequency - 1)
  }

  /** Extending the count by one appends the next multiple. */
  lemma MultiplesSnoc(count: nat, frequency: nat)
    requires frequency > 0
    ensures Multiples(count + 1, frequency) == Multiples(count, frequency) + [(count + 1) * frequency - 1]
  {
  }

  /** Closed form: with a frequency F > 0, the checkpoints of rounds 0 .. n-1 are F-1, 2F-1, 3F-1, ..., one per completed block of F rounds. */
  lemma {:induction false} FrequencyRoundsClosedForm(n: nat, frequency: nat)
    requires frequency > 0
    ensures FrequencyRounds(0, n, frequency) == Multiples(n / frequency, frequency)
  {
    if n > 0 {
      FrequencyRoundsClosedForm(n - 1, frequency);
      FrequencyRoundsSplitLast(0, n, frequency);
      var q := (n - 1) / frequency;
      if (n - 1) % frequency == frequency - 1 {
        BlockEnds(n, frequency);
        MultiplesSnoc(q, frequency);
      } else {
        InsideBlock(n, frequency);
      }
    }
  }

  /** Round `n - 1` closes a block of F rounds: it is the next multiple. */
  lemma BlockEnds(n: nat, frequency: nat)
    requires frequency > 0 && n > 0 && (n - 1) % frequency == frequency - 1
    ensures n / frequency == (n - 1) / frequency + 1
    ensures IsFrequencyRound(n - 1, frequency)
    ensures n - 1 == ((n - 1) / frequency + 1) * frequency - 1
  {
    var q := (n - 1) / frequency;
    DivUnique(n, frequency, q + 1, 0);
  }

  /** Round `n - 1` does not close a block: no checkpoint and no new multiple. */
  lemma InsideBlock(n: nat, frequency: nat)
    requires frequency > 0 && n > 0 && (n - 1) % frequency != frequency - 1
    ensures n / frequency == (n - 1) / frequency
    ensures !IsFrequencyRound(n - 1, frequency)
  {
    var q, m := (n - 1) / frequency, (n - 1) % frequency;
    DivUnique(n, frequency, q, m + 1);
  }

  /** The checkpoint rounds in closed form: the multiples of the frequency, then possibly the last round. */
  lemma CheckpointRoundsAre(rounds: nat, frequency: nat, atEnd: bool, expected: seq<nat>)
    requires frequency > 0
    requires expected == Multiples(rounds / frequency, frequency) + EndRound(rounds, frequency, atEnd)
    ensures CheckpointRounds(rounds, frequency, atEnd) == expected
  {
    CheckpointRoundsReference(rounds, frequency, atEnd);
    FrequencyRoundsClosedForm(rounds, frequency);
  }

  /** With no frequency there is no frequency checkpoint. */
  lemma {:induction false} NoFrequencyRounds(lo: nat, hi: nat)
    ensures FrequencyRounds(lo, hi, 0) == []
    decreases hi - lo
  {
    if lo < hi {
      NoFrequencyRounds(lo + 1, hi);
    }
  }

  /** The number of checkpoints a run keeps. */
  function ExpectedCount(rounds: nat, frequency: nat, atEnd: bool): nat {
    (if frequency > 0 then rounds / frequency else 0)
    + (if atEnd && rounds > 0 && (frequency == 0 || rounds % frequency != 0) then 1 else 0)
  }

  /** The count formula: one checkpoint per completed frequency block, plus one at the end unless the last round already closed a block. */
  lemma CheckpointCount(rounds: nat, frequency: nat, atEnd: bool)
    ensures |CheckpointRounds(rounds, frequency, atEnd)| == ExpectedCount(rounds, frequency, atEnd)
  {
    CheckpointRoundsReference(rounds, frequency, atEnd);
    if frequency > 0 {
      FrequencyRoundsClosedForm(rounds, frequency);
    } else {
      NoFrequencyRounds(0, rounds);
    }
  }

  // ---------------------------------------------------------------------
  // The parametrised cases of the checkpoint-frequency test
  // ---------------------------------------------------------------------

  lemma FrequencyFourWithEnd()
    ensures CheckpointRounds(25, 4, true) == [3, 7, 11, 15, 19, 23, 24]
    ensures |CheckpointRounds(25, 4, true)| == 7
  {
    CheckpointRoundsAre(25, 4, true, [3, 7, 11, 15, 19, 23, 24]);
  }

  lemma FrequencyFourWithoutEnd()
    ensures CheckpointRounds(25, 4, false) == [3, 7, 11, 15, 19, 23]
    ensures |CheckpointRounds(25, 4, false)| == 6
  {
    CheckpointRoundsAre(25, 4, false, [3, 7, 11, 15, 19, 23]);
  }

  /** Round 24 closes a block of five, so the end checkpoint is not added a second time. */
  lemma FrequencyFiveWithEnd()
    ensures CheckpointRounds(25, 5, true) == [4, 9, 14, 19, 24]
    ensures |CheckpointRounds(25, 5, true)| == 5
  {
    CheckpointRoundsAre(25, 5, true, [4, 9, 14, 19, 24]);
  }

  lemma NoFrequencyWithEnd()
    ensures CheckpointRounds(25, 0, true) == [24]
  {
    CheckpointRoundsReference(25, 0, true);
    NoFrequencyRounds(0, 25);
  }

  lemma NoFrequencyWithoutEnd()
    ensures CheckpointRounds(25, 0, false) == []
  {
    CheckpointRoundsReference(25, 0, false);
    NoFrequencyRounds(0, 25);
  }

  // ---------------------------------------------------------------------
  // Rank gating, as in the rank-0 test
  // ---------------------------------------------------------------------

  lemma RankGatingCases()
    ensures GetCheckpoint(None, 1).Some?
    ensures GetCheckpoint(Some(0), 1).Some?
    ensures GetCheckpoint(Some(1), 1) == None
  {
  }

  // ---------------------------------------------------------------------
  // Checkpoint directory names
  // ---------------------------------------------------------------------

  /** Strict lexicographic order on strings, as Python's `sorted` uses. */
  predicate LexLess(a: string, b: string) {
    if a == [] then b != []
    else if b == [] then false
    else a[0] < b[0] || (a[0] == b[0] && LexLess(a[1..], b[1..]))
  }

  function Pow10(w: nat): (p: nat)
    ensures p >= 1
  {
    if w == 0 then 1 else 10 * Pow10(w - 1)
  }

  function DigitChar(d: nat): char
    requires d < 10
  {
    (48 + d) as char
  }

  /** The decimal digits of `n`, left-padded with zeros to `width` characters. */
  function ZeroPad(n: nat, width: nat): (s: string)
    ensures |s| == width
  {
    if width == 0 then [] else ZeroPad(n / 10, width - 1) + [DigitChar(n % 10)]
  }

  const PathWidth: nat := 6

  /** Directory name of the `index`-th checkpoint of a run (0-based report order). */
  function CheckpointPath(index: nat): string {
    "checkpoint_" + ZeroPad(index, PathWidth)
  }

  lemma {:induction false} LexLessAppend(a: string, b: string, x: char, y: char)
    requires |a| == |b| && LexLess(a, b)
    ensures LexLess(a + [x], b + [y])
  {
    if a != [] && a[0] == b[0] {
      assert (a + [x])[1..] == a[1..] + [x];
      assert (b + [y])[1..] == b[1..] + [y];
      LexLessAppend(a[1..], b[1..], x, y);
    }
  }

  lemma {:induction false} LexLessLast(a: string, x: char, y: char)
    requires x < y
    ensures LexLess(a + [x], a + [y])
  {
    if a != [] {
      assert (a + [x])[1..] == a[1..] + [x];
      assert (a + [y])[1..] == a[1..] + [y];
      LexLessLast(a[1..], x, y);
    }
  }

  lemma {:induction false} LexLessPrefix(p: string, a: string, b: string)
    requires LexLess(a, b)
    ensures LexLess(p + a, p + b)
  {
    if p != [] {
      assert (p + a)[0] == p[0] == (p + b)[0];
      assert (p + a)[1..] == p[1..] + a;
      assert (p + b)[1..] == p[1..] + b;
      LexLessPrefix(p[1..], a, b);
    } else {
      assert p + a == a && p + b == b;
    }
  }

  /** Zero padding to a fixed width preserves the numeric order of numbers below 10^width. */
  lemma {:induction false} ZeroPadMonotone(i: nat, j: nat, width: nat)
    requires i < j < Pow10(width)
    ensures LexLess(ZeroPad(i, width), ZeroPad(j, width))
  {
    if width == 0 {
    } else {
      var p := Pow10(width - 1);
      assert j / 10 < p by {
        assert j < 10 * p;
      }
      if i / 10 < j / 10 {
        ZeroPadMonotone(i / 10, j / 10, width - 1);
        LexLessAppend(ZeroPad(i / 10, width - 1), ZeroPad(j / 10, width - 1),
                      DigitChar(i % 10), DigitChar(j % 10));
      } else {
        assert i / 10 == j / 10;
        assert i % 10 < j % 10;
        LexLessLast(ZeroPad(i / 10, width - 1), DigitChar(i % 10), DigitChar(j % 10));
      }
    }
  }

  /** The paths of the checkpoints of a run, in report order. */
  function CheckpointPaths(count: nat): (ps: seq<string>)
    ensures |ps| == count
    ensures forall i :: 0 <= i < count ==> ps[i] == CheckpointPath(i)
  {
    seq(count, i requires 0 <= i < count => CheckpointPath(i))
  }

  /** For fewer than a million checkpoints the paths in report order are already sorted: `cp_paths == sorted(cp_paths)`. */
  lemma CheckpointPathsSorted(count: nat)
    requires count <= Pow10(PathWidth)
    ensures forall i, j :: 0 <= i < j < count ==> LexLess(CheckpointPaths(count)[i], CheckpointPaths(count)[j])
  {
    forall i, j | 0 <= i < j < count
      ensures LexLess(CheckpointPath(i), CheckpointPath(j))
    {
      ZeroPadMonotone(i, j, PathWidth);
      LexLessPrefix("checkpoint_", ZeroPad(i, PathWidth), ZeroPad(j, PathWidth));
    }
  }

  // ---------------------------------------------------------------------
  // Resuming from a checkpoint
  // ---------------------------------------------------------------------

  /** Trees of the booster after a fit with target `numBoostRound`, resumed from `resume` if given: boosting continues from the checkpoint's round count up to the target. */
  function TreesAfterFit(numBoostRound: nat, resume: Option<Checkpoint>): nat {
    var start := if resume.Some? then resume.value.numTrees else 0;
    start + |Rounds(start, numBoostRound)|
  }

  /** The boosting rounds `lo`, `lo + 1`, ..., `hi - 1`, each adding one tree. */
  function Rounds(lo: nat, hi: nat): seq<nat>
    decreases hi - lo
  {
    if lo < hi then [lo] + Rounds(lo + 1, hi) else []
  }

  lemma {:induction false} RoundsLength(lo: nat, hi: nat)
    ensures |Rounds(lo, hi)| == (if lo < hi then hi - lo else 0)
    decreases hi - lo
  {
    if lo < hi {
      RoundsLength(lo + 1, hi);
    }
  }

  /** `num_boost_round` is an absolute target: a resumed fit ends with that many trees, never fewer than it started with. */
  lemma ResumeTargetIsAbsolute(numBoostRound: nat, resume: Option<Checkpoint>)
    ensures var start := if resume.Some? then resume.value.numTrees else 0;
      TreesAfterFit(numBoostRound, resume) == if start <= numBoostRound then numBoostRound else start
  {
    var start := if resume.Some? then resume.value.numTrees else 0;
    RoundsLength(start, numBoostRound);
  }

  /** The resume test: 5 rounds, then resume with a target of 10, gives 10 trees and not 15. */
  lemma ResumeFromCheckpointCase()
    ensures TreesAfterFit(5, None) == 5
    ensures var c := Checkpoint(4, TreesAfterFit(5, None));
      TreesAfterFit(10, Some(c)) == 10 && TreesAfterFit(10, Some(c)) != 15
  {
    ResumeTargetIsAbsolute(5, None);
    ResumeTargetIsAbsolute(10, Some(Checkpoint(4, 5)));
  }

  // ---------------------------------------------------------------------
  // Constructor validation
  // ---------------------------------------------------------------------

  const TrainDatasetKey := "train"

  datatype TrainerArgs = TrainerArgs(labelColumn: Option<string>, datasetKeys: set<string>, numBoostRound: nat)

  datatype Construction = Constructed(args: TrainerArgs) | ValueError(message: string)

  const MissingTrainMessage := "`datasets` must contain a \"" + TrainDatasetKey + "\" dataset"
  const MissingLabelMessage := "`" + "label_column" + "` must be provided"

  predicate OccursAt(s: string, pattern: string, i: nat) {
    i + |pattern| <= |s| && s[i..i + |pattern|] == pattern
  }

  /** `pytest.raises(match=pattern)` for a pattern without special characters: a substring search. */
  ghost predicate Contains(s: string, pattern: string) {
    exists i: nat :: OccursAt(s, pattern, i)
  }

  lemma ContainsMiddle(p: string, x: string, q: string)
    ensures Contains(p + x + q, x)
  {
    assert (p + x + q)[|p|..|p| + |x|] == x;
    assert OccursAt(p + x + q, x, |p|);
  }

  /** Trainer construction: refuse a dataset map without "train", then a missing label column. */
  function Construct(args: TrainerArgs): (r: Construction)
    ensures r.Constructed? <==> TrainDatasetKey in args.datasetKeys && args.labelColumn.Some?
    ensures r.Constructed? ==> r.args == args
    ensures TrainDatasetKey !in args.datasetKeys ==> r.ValueError? && Contains(r.message, TrainDatasetKey)
    ensures TrainDatasetKey in args.datasetKeys && args.labelColumn == None ==>
      r.ValueError? && Contains(r.message, "label_column")
  {
    if TrainDatasetKey !in args.datasetKeys then
      ContainsMiddle("`datasets` must contain a \"", TrainDatasetKey, "\" dataset");
      ValueError(MissingTrainMessage)
    else if args.labelColumn == None then
      ContainsMiddle("`", "label_column", "` must be provided");
      ValueError(MissingLabelMessage)
    else Constructed(args)
  }

  /** The two cases of the validation test. */
  lemma ValidationCases()
    ensures var r := Construct(TrainerArgs(Some("target"), {"valid"}, 10));
      r.ValueError? && Contains(r.message, TrainDatasetKey)
    ensures var r := Construct(TrainerArgs(None, {"train"}, 10));
      r.ValueError? && Contains(r.message, "label_column")
  {
  }
}
