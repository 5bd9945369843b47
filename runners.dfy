/** The synchronous runners of one benchmark trial over the eight files, each
    given as a memory mapping (a read-only byte array) or as the reads of an
    open file. The threaded runners are modelled by their effect only: the
    kernel applied to every element, and a panic in any thread surfacing at
    its join. */
module Runners {
  import opened Touch
  import opened SyncFile

  /** The bytes of every mapping, in order. */
  ghost function Contents(mms: seq<array<u8>>): (ms: seq<seq<u8>>)
    reads set m | m in mms
    ensures |ms| == |mms| && forall k :: 0 <= k < |mms| ==> ms[k] == mms[k][..]
  {
    if mms == [] then [] else Contents(mms[..|mms| - 1]) + [mms[|mms| - 1][..]]
  }

  /** The wrapping sum of the touch_mm results of all mappings, in order. */
  function MappingsSum(ms: seq<seq<u8>>): u8
  {
    if ms == [] then 0
    else AddU8(MappingsSum(ms[..|ms| - 1]), ByteSum(Samples(ms[|ms| - 1], 0)))
  }

  /** What run_sequential_sync_mmap does: the first empty mapping makes
      touch_mm divide by zero; otherwise the total must be 0 or the assertion
      fails. */
  function SequentialMmap(ms: seq<seq<u8>>): Outcome<()>
  {
    if exists k :: 0 <= k < |ms| && |ms[k]| == 0 then Panicked(DivisionByZero)
    else if MappingsSum(ms) == 0 then Done(())
    else Panicked(AssertionFailed(MappingsSum(ms)))
  }

  /** run_sequential_sync_mmap. */
  method RunSequentialSyncMmap(mms: seq<array<u8>>) returns (r: Outcome<()>)
    ensures r == SequentialMmap(Contents(mms))
  {
    ghost var ms := Contents(mms);
    var sum: u8 := 0;
    for k := 0 to |mms|
      invariant forall j :: 0 <= j < k ==> |ms[j]| > 0
      invariant sum == MappingsSum(ms[..k])
    {
      var t := TouchMm(mms[k]);
      if t.Panicked? {
        return Panicked(t.cause);
      }
      assert ms[..k + 1][..k] == ms[..k];
      sum := AddU8(sum, t.value);
    }
    assert ms[..|mms|] == ms;
    if sum != 0 {
      return Panicked(AssertionFailed(sum));
    }
    r := Done(());
  }

  /** The assertion of run_sequential_sync_mmap holds on the benchmark's
      files: when every mapping is non-empty and all its bytes are zero, the
      run completes. */
  lemma {:induction false} ZeroMappingsPass(ms: seq<seq<u8>>)
    requires forall k :: 0 <= k < |ms| ==> |ms[k]| > 0
    requires forall k, j :: 0 <= k < |ms| && 0 <= j < |ms[k]| ==> ms[k][j] == 0
    ensures SequentialMmap(ms) == Done(())
  {
    ZeroMappingsSum(ms);
  }

  lemma {:induction false} ZeroMappingsSum(ms: seq<seq<u8>>)
    requires forall k, j :: 0 <= k < |ms| && 0 <= j < |ms[k]| ==> ms[k][j] == 0
    ensures MappingsSum(ms) == 0
  {
    if ms != [] {
      var init := ms[..|ms| - 1];
      assert forall k :: 0 <= k < |init| ==> init[k] == ms[k];
      ZeroMappingsSum(init);
      ZeroSamples(ms[|ms| - 1], 0);
    }
  }

  /** run_sync_mmap: touch_mm on every mapping, each on its own thread; the
      joins unwrap, so the run panics exactly when some mapping is empty. */
  method RunSyncMmap(mms: seq<array<u8>>) returns (r: Outcome<()>)
    ensures r.Done? <==> forall k :: 0 <= k < |mms| ==> mms[k].Length > 0
    ensures r.Panicked? ==> r.cause == DivisionByZero
  {
    for k := 0 to |mms|
      invariant forall j :: 0 <= j < k ==> mms[j].Length > 0
    {
      var t := TouchMm(mms[k]);
      if t.Panicked? {
        return Panicked(t.cause);
      }
    }
    r := Done(());
  }

  /** run_sequential_sync_file and run_sync_file: touch_sync_file on every
      file, in turn or each on its own thread. The returned sequence holds the
      value each call returns, which the source discards. */
  method TouchFiles(files: seq<seq<seq<u8>>>) returns (sums: seq<u8>)
    requires forall f, k :: 0 <= f < |files| && 0 <= k < |Live(files[f])| ==> |Live(files[f])[k]| <= BUF_SIZE
    ensures |sums| == |files|
    ensures forall f :: 0 <= f < |files| ==> sums[f] == FileSum(files[f])
  {
    sums := [];
    for f := 0 to |files|
      invariant |sums| == f
      invariant forall g :: 0 <= g < f ==> sums[g] == FileSum(files[g])
    {
      var s := TouchSyncFile(files[f]);
      sums := sums + [s];
    }
  }
}
