/** The strided "touch" kernel: reading one byte in every STEP_SIZE of a buffer
    and adding it into a wrapping byte accumulator, so that every page of a file
    or a memory mapping is actually brought into memory. */
module Touch {

  /** An unsigned byte: the element type of the buffers and of the accumulator. */
  type u8 = x: int | 0 <= x < 256

  /** Size of the read buffer (1 << 16). */
  const BUF_SIZE: nat := 65536
  /** Distance between two touched bytes. */
  const STEP_SIZE: nat := 512

  /** `a + b` on u8 with wrap-around. */
  function AddU8(a: u8, b: u8): (r: u8)
    ensures r == a + b || r == a + b - 256
  {
    (a + b) % 256
  }

  lemma AddU8Assoc(a: u8, b: u8, c: u8)
    ensures AddU8(AddU8(a, b), c) == AddU8(a, AddU8(b, c))
  {
  }

  /** The wrapping sum of a sequence of bytes, added from left to right. */
  function ByteSum(bs: seq<u8>): u8
  {
    if bs == [] then 0 else AddU8(ByteSum(bs[..|bs| - 1]), bs[|bs| - 1])
  }

  lemma {:induction false} ByteSumAppend(xs: seq<u8>, ys: seq<u8>)
    ensures ByteSum(xs + ys) == AddU8(ByteSum(xs), ByteSum(ys))
    decreases |ys|
  {
    if ys == [] {
      assert xs + ys == xs;
    } else {
      var init, last := ys[..|ys| - 1], ys[|ys| - 1];
      assert (xs + ys)[..|xs + ys| - 1] == xs + init;
      ByteSumAppend(xs, init);
      AddU8Assoc(ByteSum(xs), ByteSum(init), last);
    }
  }

  /** The bytes of `b` at positions i, i + STEP_SIZE, i + 2 * STEP_SIZE, ...
      that lie below |b|, in that order. */
  function Samples(b: seq<u8>, i: nat): seq<u8>
    decreases |b| - i
  {
    if i < |b| then [b[i]] + Samples(b, i + STEP_SIZE) else []
  }

  /** Where a cursor that starts at `i` and advances by STEP_SIZE stops when it
      walks a buffer of `n` bytes: the first point of the progression at or
      past `n`. */
  function End(i: nat, n: nat): (e: nat)
    ensures e >= n && e >= i
    ensures i < n ==> e < n + STEP_SIZE
    ensures i >= n ==> e == i
    decreases n - i
  {
    if i < n then End(i + STEP_SIZE, n) else i
  }

  /** The touched positions form the arithmetic progression i + k * STEP_SIZE,
      exactly those of its points below |b|, and the cursor stops at the first
      point at or past |b|. */
  lemma {:induction false} SamplesAt(b: seq<u8>, i: nat)
    ensures i + |Samples(b, i)| * STEP_SIZE == End(i, |b|)
    ensures forall k :: 0 <= k < |Samples(b, i)| ==>
              i + k * STEP_SIZE < |b| && Samples(b, i)[k] == b[i + k * STEP_SIZE]
    decreases |b| - i
  {
    if i < |b| {
      SamplesAt(b, i + STEP_SIZE);
      var s := Samples(b, i);
      forall k | 0 <= k < |s|
        ensures i + k * STEP_SIZE < |b| && s[k] == b[i + k * STEP_SIZE]
      {
        if k > 0 {
          assert i + k * STEP_SIZE == (i + STEP_SIZE) + (k - 1) * STEP_SIZE;
        }
      }
    }
  }

  /** Only the first |a| bytes decide what is touched in a + b below |a|, and
      the walk over a + b carries on into b where the walk over a stopped. */
  lemma {:induction false} SamplesSplit(a: seq<u8>, b: seq<u8>, i: nat)
    ensures Samples(a + b, i) == Samples(a, i) + Samples(b, End(i, |a|) - |a|)
    decreases |a| - i
  {
    if i < |a| {
      SamplesSplit(a, b, i + STEP_SIZE);
      SamplesSplitStep(a, b, i);
    } else {
      SamplesShift(a, b, i);
    }
  }

  lemma SamplesSplitStep(a: seq<u8>, b: seq<u8>, i: nat)
    requires i < |a|
    requires Samples(a + b, i + STEP_SIZE) == Samples(a, i + STEP_SIZE) + Samples(b, End(i + STEP_SIZE, |a|) - |a|)
    ensures Samples(a + b, i) == Samples(a, i) + Samples(b, End(i, |a|) - |a|)
  {
    var ab, rest := a + b, Samples(b, End(i, |a|) - |a|);
    assert ab[i] == a[i];
    assert Samples(ab, i) == [a[i]] + Samples(ab, i + STEP_SIZE);
    assert Samples(a, i) == [a[i]] + Samples(a, i + STEP_SIZE);
  }

  lemma {:induction false} SamplesShift(a: seq<u8>, b: seq<u8>, i: nat)
    requires i >= |a|
    ensures Samples(a + b, i) == Samples(b, i - |a|)
    decreases |a + b| - i
  {
    if i < |a + b| {
      SamplesShift(a, b, i + STEP_SIZE);
      assert (a + b)[i] == b[i - |a|];
    }
  }

  /** Walking n + m bytes is walking n bytes and then walking m bytes from the
      point where the first walk stopped. */
  lemma {:induction false} EndSplit(i: nat, n: nat, m: nat)
    ensures End(i, n + m) == n + End(End(i, n) - n, m)
    decreases n - i
  {
    if i < n {
      EndSplit(i + STEP_SIZE, n, m);
    } else {
      EndShift(i - n, m, n);
    }
  }

  lemma {:induction false} EndShift(j: nat, m: nat, n: nat)
    ensures End(j + n, m + n) == n + End(j, m)
    decreases m - j
  {
    if j < m {
      EndShift(j + STEP_SIZE, m, n);
    }
  }

  /** On a buffer of all zero bytes nothing is ever added to the sum. */
  lemma {:induction false} ZeroSamples(b: seq<u8>, i: nat)
    requires forall j :: 0 <= j < |b| ==> b[j] == 0
    ensures ByteSum(Samples(b, i)) == 0
    decreases |b| - i
  {
    if i < |b| {
      ZeroSamples(b, i + STEP_SIZE);
      ByteSumAppend([b[i]], Samples(b, i + STEP_SIZE));
      assert ByteSum([b[i]]) == AddU8(ByteSum([]), b[i]);
    }
  }

  /** touch_buffer: walk buf[..read] from `idx0` in steps of STEP_SIZE, adding
      each touched byte into the accumulator, then reduce the cursor modulo
      `read`. `buf` is only read; the cursor and the accumulator are the two
      values the source updates through `&mut`. */
  method TouchBuffer(buf: array<u8>, read: nat, idx0: nat, sum0: u8) returns (idx: nat, sum: u8)
    requires 0 < read <= buf.Length
    ensures sum == AddU8(sum0, ByteSum(Samples(buf[..read], idx0)))
    ensures idx == End(idx0, read) % read
    ensures idx < read
  {
    idx, sum := idx0, sum0;
    ghost var seen: seq<u8> := [];
    while idx < read
      invariant End(idx, read) == End(idx0, read)
      invariant seen + Samples(buf[..read], idx) == Samples(buf[..read], idx0)
      invariant sum == AddU8(sum0, ByteSum(seen))
      decreases read - idx
    {
      assert ByteSum(seen + [buf[idx]]) == AddU8(ByteSum(seen), buf[idx]) by {
        assert (seen + [buf[idx]])[..|seen|] == seen;
      }
      AddU8Assoc(sum0, ByteSum(seen), buf[idx]);
      sum := AddU8(sum, buf[idx]);
      seen := seen + [buf[idx]];
      idx := idx + STEP_SIZE;
    }
    assert seen == Samples(buf[..read], idx0);
    idx := idx % read;
  }

  /** The comment on the carry says the next chunk is offset by "whatever was
      left over": when the walk started inside the buffer and the buffer holds
      at least one step, the reduced cursor is exactly the overshoot past the
      end, and it is less than one step. */
  lemma CarryIsOvershoot(idx0: nat, read: nat)
    requires idx0 < read && STEP_SIZE <= read
    ensures End(idx0, read) % read == End(idx0, read) - read < STEP_SIZE
  {
    var e := End(idx0, read);
    ModOfOneMore(read, e - read);
  }

  lemma ModOfOneMore(n: nat, d: nat)
    requires d < n
    ensures (n + d) % n == d
  {
  }

  /** A cursor at or past the end touches nothing and is only reduced. */
  lemma TouchPastEnd(b: seq<u8>, idx0: nat)
    requires 0 < |b| <= idx0
    ensures Samples(b, idx0) == [] && End(idx0, |b|) % |b| == idx0 % |b|
  {
  }

  /** A cursor that starts on a step boundary of a buffer that is a whole
      number of steps long touches one byte per step and stops exactly at the
      end. */
  lemma {:induction false} AlignedWalk(b: seq<u8>, k: nat, m: nat)
    requires |b| == m * STEP_SIZE && k <= m
    ensures |Samples(b, k * STEP_SIZE)| == m - k
    ensures End(k * STEP_SIZE, |b|) == |b|
    decreases m - k
  {
    if k < m {
      assert k * STEP_SIZE + STEP_SIZE == (k + 1) * STEP_SIZE;
      AlignedWalk(b, k + 1, m);
    }
  }

  /** A full read (BUF_SIZE = 128 steps) walked from offset 0 touches exactly
      BUF_SIZE / STEP_SIZE bytes and leaves the cursor at 0 again. */
  lemma FullChunk(b: seq<u8>)
    requires |b| == BUF_SIZE
    ensures |Samples(b, 0)| == BUF_SIZE / STEP_SIZE == 128
    ensures End(0, BUF_SIZE) % BUF_SIZE == 0
  {
    AlignedWalk(b, 0, 128);
  }

  /** Why a call panics; the source's panics abort the benchmark. */
  datatype Panic =
    | DivisionByZero          // `idx %= read` with read == 0
    | AssertionFailed(sum: u8) // `assert_eq!(sum, 0)` with a non-zero sum

  /** The result of a call that either returns a value or panics. */
  datatype Outcome<T> = Done(value: T) | Panicked(cause: Panic)

  /** touch_mm: touch a whole memory mapping from offset 0 with a fresh
      accumulator. On an empty mapping the final `idx %= 0` panics. */
  method TouchMm(mm: array<u8>) returns (r: Outcome<u8>)
    ensures mm.Length == 0 ==> r == Panicked(DivisionByZero)
    ensures mm.Length > 0 ==> r == Done(ByteSum(Samples(mm[..], 0)))
  {
    if mm.Length == 0 {
      return Panicked(DivisionByZero);
    }
    var idx, sum := TouchBuffer(mm, mm.Length, 0, 0);
    assert mm[..mm.Length] == mm[..];
    assert ByteSum(Samples(mm[..], 0)) == AddU8(0, ByteSum(Samples(mm[..], 0)));
    r := Done(sum);
  }
}
