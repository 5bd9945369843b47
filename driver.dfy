/** The benchmark driver: which runner each configuration uses, and which CSV
    rows the nested trial loops print, in which order. Timing, cache dropping
    and opening the files are not modelled; a row carries every column of the
    header except the measured duration. */
module Driver {

  const NUM_REPEATS: nat := 10

  /** The values each boolean dimension takes, in loop order. */
  const BOOLS: seq<bool> := [true, false]

  /** The runners a trial can use. */
  datatype Strategy =
    | SequentialSyncFile   // run_sequential_sync_file
    | SyncFile             // run_sync_file
    | SequentialSyncMmap   // run_sequential_sync_mmap
    | SyncMmap             // run_sync_mmap
    | SequentialAsyncFile  // run_sequential_async_file
    | AsyncFile            // run_async_file
    | AsyncMmap            // run_async_mmap

  datatype Option<T> = None | Some(value: T)

  /** The configuration a runner stands for, as (use_async, use_mmap,
      use_parallel). */
  function Flags(s: Strategy): (bool, bool, bool)
  {
    match s
    case SequentialSyncFile => (false, false, false)
    case SyncFile => (false, false, true)
    case SequentialSyncMmap => (false, true, false)
    case SyncMmap => (false, true, true)
    case SequentialAsyncFile => (true, false, false)
    case AsyncFile => (true, false, true)
    case AsyncMmap => (true, true, true)
  }

  /** The match in the trial loop: every configuration but sequential async
      mmap, which is not implemented, picks its runner. */
  function Dispatch(useAsync: bool, useMmap: bool, useParallel: bool): (r: Option<Strategy>)
    ensures r.None? <==> useAsync && useMmap && !useParallel
    ensures r.Some? ==> Flags(r.value) == (useAsync, useMmap, useParallel)
  {
    match (useAsync, useMmap, useParallel)
    case (false, false, false) => Some(SequentialSyncFile)
    case (false, false, true) => Some(SyncFile)
    case (false, true, false) => Some(SequentialSyncMmap)
    case (false, true, true) => Some(SyncMmap)
    case (true, false, false) => Some(SequentialAsyncFile)
    case (true, false, true) => Some(AsyncFile)
    case (true, true, false) => None
    case (true, true, true) => Some(AsyncMmap)
  }

  /** Every runner is reached, from its own configuration only, so the seven
      implemented configurations use seven distinct runners. */
  lemma DispatchReachesEveryRunner(s: Strategy)
    ensures Dispatch(Flags(s).0, Flags(s).1, Flags(s).2) == Some(s)
  {
  }

  /** One printed data row, its fields in header order (the duration left
      out). */
  datatype Row = Row(useAsync: bool, useMmap: bool, useParallel: bool, coldCache: bool, repeat: nat)

  /** The trial the nested loops run at flat position t, counting skipped
      trials too: each repeat takes sixteen positions, and within one the
      use_async, use_mmap, use_parallel and cold_cache loops take eight, four,
      two and one, each trying true first. */
  function TrialAt(t: nat): Row
  {
    if t >= 16 then var r := TrialAt(t - 16); r.(repeat := r.repeat + 1)
    else Row(t < 8, t % 8 < 4, t % 4 < 2, t % 2 == 0, 0)
  }

  /** The flat position of a trial in the nested loops. */
  function Position(r: Row): nat
  {
    r.repeat * 16 + (if r.useAsync then 0 else 8) + (if r.useMmap then 0 else 4)
      + (if r.useParallel then 0 else 2) + (if r.coldCache then 0 else 1)
  }

  /** The loop variables of one trial are the digits of its position. */
  lemma {:induction false} TrialAtDigits(repeat: nat, ai: nat, mi: nat, pi: nat, ci: nat)
    requires ai < 2 && mi < 2 && pi < 2 && ci < 2
    ensures TrialAt(16 * repeat + 8 * ai + 4 * mi + 2 * pi + ci)
      == Row(BOOLS[ai], BOOLS[mi], BOOLS[pi], BOOLS[ci], repeat)
  {
    if repeat > 0 {
      TrialAtDigits(repeat - 1, ai, mi, pi, ci);
    }
  }

  /** Positions and trials are in one-to-one correspondence. */
  lemma {:induction false} PositionOfTrial(t: nat)
    ensures Position(TrialAt(t)) == t
  {
    if t >= 16 {
      PositionOfTrial(t - 16);
    }
  }

  lemma TrialAtPosition(r: Row)
    ensures TrialAt(Position(r)) == r
  {
    TrialAtDigits(r.repeat, if r.useAsync then 0 else 1, if r.useMmap then 0 else 1,
      if r.useParallel then 0 else 1, if r.coldCache then 0 else 1);
  }

  /** Whether the trial loops skip the trial (the `continue` of the match). */
  predicate Skipped(r: Row)
  {
    Dispatch(r.useAsync, r.useMmap, r.useParallel).None?
  }

  /** The rows printed by the trials at positions below t, in order. */
  function Printed(t: nat): seq<Row>
  {
    if t == 0 then []
    else Printed(t - 1) + (if Skipped(TrialAt(t - 1)) then [] else [TrialAt(t - 1)])
  }

  /** The trial loops of main: for every repeat, use_async, use_mmap,
      use_parallel and cold_cache, in that nesting and each trying true
      before false, skip the unimplemented configuration and otherwise print
      one row. */
  method RunBenchmark() returns (rows: seq<Row>)
    ensures rows == Printed(16 * NUM_REPEATS)
    ensures |rows| == 14 * NUM_REPEATS == 140
  {
    rows := [];
    ghost var t := 0;
    for repeat := 0 to NUM_REPEATS
      invariant t == 16 * repeat && rows == Printed(t)
    {
      for ai := 0 to 2
        invariant t == 16 * repeat + 8 * ai && rows == Printed(t)
      {
        var useAsync := BOOLS[ai];
        for mi := 0 to 2
          invariant t == 16 * repeat + 8 * ai + 4 * mi && rows == Printed(t)
        {
          var useMmap := BOOLS[mi];
          for pi := 0 to 2
            invariant t == 16 * repeat + 8 * ai + 4 * mi + 2 * pi && rows == Printed(t)
          {
            var useParallel := BOOLS[pi];
            for ci := 0 to 2
              invariant t == 16 * repeat + 8 * ai + 4 * mi + 2 * pi + ci && rows == Printed(t)
            {
              var coldCache := BOOLS[ci];
              PrintedStep(repeat, ai, mi, pi, ci);
              t := t + 1;
              var runner := Dispatch(useAsync, useMmap, useParallel);
              if runner.None? {
                continue;
              }
              rows := rows + [Row(useAsync, useMmap, useParallel, coldCache, repeat)];
            }
          }
        }
      }
    }
    PrintedCount(16 * NUM_REPEATS);
  }

  /** One more trial of the loops adds its row unless it is skipped. */
  lemma PrintedStep(repeat: nat, ai: nat, mi: nat, pi: nat, ci: nat)
    requires ai < 2 && mi < 2 && pi < 2 && ci < 2
    ensures var t, r := 16 * repeat + 8 * ai + 4 * mi + 2 * pi + ci, Row(BOOLS[ai], BOOLS[mi], BOOLS[pi], BOOLS[ci], repeat);
      Printed(t + 1) == Printed(t) + (if Skipped(r) then [] else [r])
  {
    TrialAtDigits(repeat, ai, mi, pi, ci);
  }

  /** Exactly two trials of every sixteen are skipped: those at offsets 2 and
      3 of a repeat (async, mmap, not parallel, either cache state). */
  lemma {:induction false} SkippedOffsets(t: nat)
    ensures Skipped(TrialAt(t)) <==> t % 16 == 2 || t % 16 == 3
  {
    if t >= 16 {
      SkippedOffsets(t - 16);
      assert (t - 16) % 16 == t % 16;
    }
  }

  /** How many of the trials below position t are skipped. */
  function SkipsBelow(t: nat): nat
  {
    2 * (t / 16) + (if t % 16 <= 2 then 0 else if t % 16 == 3 then 1 else 2)
  }

  lemma {:induction false} PrintedCount(t: nat)
    ensures |Printed(t)| == t - SkipsBelow(t)
  {
    if t > 0 {
      PrintedCount(t - 1);
      SkippedOffsets(t - 1);
      if (t - 1) % 16 == 15 {
        assert t / 16 == (t - 1) / 16 + 1 && t % 16 == 0;
      } else {
        assert t / 16 == (t - 1) / 16 && t % 16 == (t - 1) % 16 + 1;
      }
    }
  }

  /** A row is printed before position t exactly when its trial comes before
      t and is not skipped: in particular every implemented configuration
      gets a row for every repeat and both cache states. */
  lemma {:induction false} PrintedMembers(t: nat, r: Row)
    ensures r in Printed(t) <==> Position(r) < t && !Skipped(r)
  {
    if t > 0 {
      PrintedMembers(t - 1, r);
      PositionOfTrial(t - 1);
      TrialAtPosition(r);
    }
  }

  /** The rows come out in loop order, so no row is printed twice. */
  lemma {:induction false} PrintedOrdered(t: nat)
    ensures forall i, j :: 0 <= i < j < |Printed(t)| ==> Position(Printed(t)[i]) < Position(Printed(t)[j])
    ensures forall i :: 0 <= i < |Printed(t)| ==> Position(Printed(t)[i]) < t
  {
    if t > 0 {
      PrintedOrdered(t - 1);
      PositionOfTrial(t - 1);
      var s, e := Printed(t - 1), if Skipped(TrialAt(t - 1)) then [] else [TrialAt(t - 1)];
      assert Printed(t) == s + e;
      forall i | 0 <= i < |s + e| ensures Position((s + e)[i]) < t {
        if i >= |s| {
          assert (s + e)[i] == TrialAt(t - 1);
        }
      }
      forall i, j | 0 <= i < j < |s + e| ensures Position((s + e)[i]) < Position((s + e)[j]) {
        if j >= |s| {
          assert (s + e)[j] == TrialAt(t - 1);
        }
      }
    }
  }

  /** The schedule of the benchmark: 140 distinct data rows, one for every
      repeat below NUM_REPEATS, cache state and implemented configuration. */
  lemma Schedule(r: Row)
    ensures r in Printed(16 * NUM_REPEATS) <==>
      r.repeat < NUM_REPEATS && Dispatch(r.useAsync, r.useMmap, r.useParallel).Some?
    ensures forall i, j :: 0 <= i < j < |Printed(16 * NUM_REPEATS)| ==>
      Printed(16 * NUM_REPEATS)[i] != Printed(16 * NUM_REPEATS)[j]
  {
    PrintedMembers(16 * NUM_REPEATS, r);
    PrintedOrdered(16 * NUM_REPEATS);
  }
}
