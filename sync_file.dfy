/** touch_sync_file: read a file chunk by chunk into one fixed buffer and run
    the touch kernel over each chunk, carrying the cursor and the accumulator
    from one chunk to the next.

    A file is modelled by the successive results of its reads: `chunks[k]` is
    the data the k-th call to `read` puts at the front of the buffer (its
    length is the returned count), and a read past the end of `chunks` returns
    0 bytes. */
module SyncFile {
  import opened Touch

  /** The state touch_buffer threads through a file: cursor and accumulator. */
  datatype Cursor = Cursor(idx: nat, sum: u8)

  ghost predicate AllNonEmpty(cs: seq<seq<u8>>)
  {
    forall k :: 0 <= k < |cs| ==> |cs[k]| > 0
  }

  /** The chunks the loop consumes: everything before the first zero-length
      read. */
  function Live(chunks: seq<seq<u8>>): (live: seq<seq<u8>>)
    ensures |live| <= |chunks| && live == chunks[..|live|]
    ensures AllNonEmpty(live)
    ensures |live| == |chunks| || chunks[|live|] == []
  {
    if chunks == [] || chunks[0] == [] then [] else [chunks[0]] + Live(chunks[1..])
  }

  /** The consumed prefix is determined by where the first empty read is. */
  lemma LiveIsPrefix(chunks: seq<seq<u8>>, k: nat)
    requires k <= |chunks| && AllNonEmpty(chunks[..k])
    requires k == |chunks| || chunks[k] == []
    ensures Live(chunks) == chunks[..k]
    decreases k
  {
    if k > 0 {
      assert chunks[0] == chunks[..k][0];
      var tail := chunks[1..][..k - 1];
      assert forall j :: 0 <= j < k - 1 ==> tail[j] == chunks[..k][j + 1];
      LiveIsPrefix(chunks[1..], k - 1);
      assert chunks[..k] == [chunks[0]] + tail;
    }
  }

  /** One more consumed read is one more step of the walk. */
  lemma WalkSnoc(chunks: seq<seq<u8>>, k: nat)
    requires k < |chunks| && AllNonEmpty(chunks[..k]) && |chunks[k]| > 0
    ensures AllNonEmpty(chunks[..k + 1])
    ensures Walk(chunks[..k + 1]) == Step(Walk(chunks[..k]), chunks[k])
  {
    assert chunks[..k + 1][..k] == chunks[..k];
  }

  /** The bytes of the stream, chunk after chunk. */
  function Concat(cs: seq<seq<u8>>): seq<u8>
  {
    if cs == [] then [] else Concat(cs[..|cs| - 1]) + cs[|cs| - 1]
  }

  /** One call of touch_buffer on a chunk, as the source writes it: the
      cursor is reduced modulo the chunk length. */
  function Step(st: Cursor, c: seq<u8>): Cursor
    requires |c| > 0
  {
    Cursor(End(st.idx, |c|) % |c|, AddU8(st.sum, ByteSum(Samples(c, st.idx))))
  }

  /** The state after the loop has consumed the chunks `cs`, from idx = 0 and
      sum = 0. */
  function Walk(cs: seq<seq<u8>>): Cursor
    requires AllNonEmpty(cs)
  {
    if cs == [] then Cursor(0, 0) else Step(Walk(cs[..|cs| - 1]), cs[|cs| - 1])
  }

  /** The value touch_sync_file returns for a file whose chunks are `chunks`. */
  function FileSum(chunks: seq<seq<u8>>): u8
  {
    Walk(Live(chunks)).sum
  }

  /** touch_sync_file. The buffer is one array of BUF_SIZE zero bytes that
      every read overwrites at the front; bytes behind the count of a short
      read are stale and never touched. */
  method TouchSyncFile(chunks: seq<seq<u8>>) returns (sum: u8)
    requires forall k :: 0 <= k < |Live(chunks)| ==> |Live(chunks)[k]| <= BUF_SIZE
    ensures sum == FileSum(chunks)
  {
    sum := 0;
    var buf := new u8[BUF_SIZE](_ => 0);
    var idx: nat := 0;
    var k := 0;
    while k < |chunks|
      invariant k <= |chunks|
      invariant AllNonEmpty(chunks[..k])
      invariant Walk(chunks[..k]) == Cursor(idx, sum)
    {
      var chunk := chunks[k];
      var read := |chunk|;
      if read == 0 {
        break;
      }
      assert k < |Live(chunks)| && Live(chunks)[k] == chunk by {
        WalkSnoc(chunks, k);
      }
      forall i | 0 <= i < read {
        buf[i] := chunk[i];
      }
      assert buf[..read] == chunk;
      idx, sum := TouchBuffer(buf, read, idx, sum);
      WalkSnoc(chunks, k);
      k := k + 1;
    }
    LiveIsPrefix(chunks, k);
  }

  /** The cursor handed to the next chunk when the carry is what the comment
      on it describes, "whatever was left over": the overshoot past the end of
      the chunk. */
  function StepCarry(st: Cursor, c: seq<u8>): Cursor
    requires |c| > 0
  {
    Cursor(End(st.idx, |c|) - |c|, AddU8(st.sum, ByteSum(Samples(c, st.idx))))
  }

  function WalkCarry(cs: seq<seq<u8>>): Cursor
    requires AllNonEmpty(cs)
  {
    if cs == [] then Cursor(0, 0) else StepCarry(WalkCarry(cs[..|cs| - 1]), cs[|cs| - 1])
  }

  /** With the overshoot carried, however the stream is cut into chunks, the
      touched bytes are exactly the bytes of the whole stream at offsets that
      are multiples of STEP_SIZE, and the cursor is where a walk over the whole
      stream would stop. */
  lemma {:induction false} WalkCarrySamplesStream(cs: seq<seq<u8>>)
    requires AllNonEmpty(cs)
    ensures WalkCarry(cs).sum == ByteSum(Samples(Concat(cs), 0))
    ensures WalkCarry(cs).idx == End(0, |Concat(cs)|) - |Concat(cs)|
    ensures WalkCarry(cs).idx < STEP_SIZE
  {
    if cs != [] {
      var init, c := cs[..|cs| - 1], cs[|cs| - 1];
      assert AllNonEmpty(init) by {
        forall k | 0 <= k < |init| ensures |init[k]| > 0 {
          assert init[k] == cs[k];
        }
      }
      WalkCarrySamplesStream(init);
      assert Concat(cs) == Concat(init) + c;
      CarryStep(WalkCarry(init), 0, Concat(init), c);
    }
  }

  /** One chunk of the stream, walked from where the walk over the bytes
      before it stopped. */
  lemma CarryStep(st: Cursor, i: nat, a: seq<u8>, c: seq<u8>)
    requires |c| > 0
    requires st.sum == ByteSum(Samples(a, i)) && st.idx == End(i, |a|) - |a|
    ensures StepCarry(st, c).sum == ByteSum(Samples(a + c, i))
    ensures StepCarry(st, c).idx == End(i, |a + c|) - |a + c|
  {
    SamplesSplit(a, c, i);
    ByteSumAppend(Samples(a, i), Samples(c, st.idx));
    EndSplit(i, |a|, |c|);
  }

  /** As the source writes it, the carry agrees with the overshoot while each
      chunk holds at least one step, so the cursor never exceeds a step. */
  lemma {:induction false} WalkAgreesOnLongChunks(cs: seq<seq<u8>>)
    requires AllNonEmpty(cs)
    requires forall k :: 0 <= k < |cs| ==> |cs[k]| >= STEP_SIZE
    ensures Walk(cs) == WalkCarry(cs)
  {
    if cs != [] {
      var init, c := cs[..|cs| - 1], cs[|cs| - 1];
      assert forall k :: 0 <= k < |init| ==> init[k] == cs[k];
      WalkAgreesOnLongChunks(init);
      WalkCarrySamplesStream(init);
      CarryIsOvershoot(Walk(init).idx, |c|);
    }
  }

  /** The stride property of touch_sync_file: when every read but the last
      returns at least STEP_SIZE bytes (in particular when every read but the
      last fills the buffer), the accumulator is the wrapping sum of the bytes
      of the file at offsets 0, STEP_SIZE, 2 * STEP_SIZE, ... */
  lemma StrideSampling(cs: seq<seq<u8>>)
    requires AllNonEmpty(cs)
    requires forall k :: 0 <= k < |cs| - 1 ==> |cs[k]| >= STEP_SIZE
    ensures Walk(cs).sum == ByteSum(Samples(Concat(cs), 0))
  {
    WalkCarrySamplesStream(cs);
    if cs != [] {
      var init := cs[..|cs| - 1];
      assert forall k :: 0 <= k < |init| ==> init[k] == cs[k];
      WalkAgreesOnLongChunks(init);
    }
  }

  /** The same, stated for the value touch_sync_file returns. */
  lemma FileSumSamplesStream(chunks: seq<seq<u8>>)
    requires forall k :: 0 <= k < |Live(chunks)| - 1 ==> |Live(chunks)[k]| >= STEP_SIZE
    ensures FileSum(chunks) == ByteSum(Samples(Concat(Live(chunks)), 0))
  {
    StrideSampling(Live(chunks));
  }

  /** A file of zero bytes sums to 0, however it is read. */
  lemma {:induction false} ZeroFile(cs: seq<seq<u8>>)
    requires AllNonEmpty(cs)
    requires forall k, j :: 0 <= k < |cs| && 0 <= j < |cs[k]| ==> cs[k][j] == 0
    ensures Walk(cs).sum == 0
  {
    if cs != [] {
      var init, c := cs[..|cs| - 1], cs[|cs| - 1];
      assert forall k :: 0 <= k < |init| ==> init[k] == cs[k];
      ZeroFile(init);
      ZeroSamples(c, Walk(init).idx);
    }
  }

  /** A short read that is not the last breaks the stride property as the
      source writes the carry: 100 zero bytes, then 1000 bytes whose only
      non-zero byte is at offset 12. The second chunk is walked from
      512 % 100 = 12 instead of from the overshoot 412, so the loop adds the
      1 at stream offset 112, while the bytes of the stream at multiples of
      STEP_SIZE (offsets 0, 512, 1024) are all zero. */
  lemma ShortReadShiftsStride()
    ensures var cs := [Zeros(100), Spike()];
      AllNonEmpty(cs) &&
      Walk(cs).sum == 1 &&
      ByteSum(Samples(Concat(cs), 0)) == 0 &&
      WalkCarry(cs).sum == 0
  {
    var z, p := Zeros(100), Spike();
    ShortReadAsWritten(z, p);
    ShortReadStream(z, p);
    WalkCarrySamplesStream([z, p]);
  }

  /** The two reads of the counterexample: 100 zero bytes, then 1000 bytes
      whose only non-zero byte is a 1 at offset 12. */
  ghost predicate ShortReadChunks(z: seq<u8>, p: seq<u8>)
  {
    && |z| == 100 && (forall j :: 0 <= j < 100 ==> z[j] == 0)
    && |p| == 1000 && p[12] == 1 && (forall j :: 0 <= j < 1000 && j != 12 ==> p[j] == 0)
  }

  /** As written, the cursor after the first chunk is 512 % 100 = 12, and
      the second chunk is walked at its offsets 12 and 524. */
  lemma ShortReadAsWritten(z: seq<u8>, p: seq<u8>)
    requires ShortReadChunks(z, p)
    ensures Walk([z, p]).sum == 1
  {
    var none: seq<seq<u8>> := [];
    assert [z, p][..1] == [z] && [z][..0] == none;
    assert End(0, 100) == 512;
    ZeroSamples(z, 0);
    var first := Walk([z]);
    assert Walk(none) == Cursor(0, 0);
    assert first == Step(Walk(none), z);
    assert first == Cursor(12, 0);
    assert Samples(p, 12) == [1, 0] by {
      assert Samples(p, 1036) == [];
      assert Samples(p, 524) == [p[524]];
    }
    ByteSumAppend([1], [0]);
    assert Walk([z, p]) == Step(first, p);
  }

  /** The bytes of the stream at multiples of STEP_SIZE are all zero, and the
      walk over the first chunk overshoots it by 412. */
  lemma ShortReadStream(z: seq<u8>, p: seq<u8>)
    requires ShortReadChunks(z, p)
    ensures Concat([z, p]) == z + p
    ensures ByteSum(Samples(z + p, 0)) == 0
  {
    var none: seq<seq<u8>> := [];
    assert [z, p][..1] == [z] && [z][..0] == none;
    assert Concat([z]) == z;
    assert End(0, 100) == 512;
    ZeroSamples(z, 0);
    assert Samples(p, 412) == [0, 0] by {
      assert Samples(p, 1436) == [];
      assert Samples(p, 924) == [p[924]];
    }
    ByteSumAppend([0], [0]);
    SamplesSplit(z, p, 0);
    ByteSumAppend(Samples(z, 0), Samples(p, 412));
  }

  function Zeros(n: nat): (z: seq<u8>)
    ensures |z| == n && forall j :: 0 <= j < n ==> z[j] == 0
  {
    seq(n, _ => 0)
  }

  function Spike(): (p: seq<u8>)
    ensures |p| == 1000 && p[12] == 1
    ensures forall j :: 0 <= j < 1000 && j != 12 ==> p[j] == 0
  {
    seq(1000, j => if j == 12 then 1 else 0)
  }
}
