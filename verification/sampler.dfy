/** Frame sampling: the inner `for` loop of the detection driver. Every frame read advances
    the counter; only frames whose index is a multiple of the sample ratio are kept. The
    video is a finite number of frames read front to back, so a read succeeds exactly
    while fewer than `frameCount` frames have been read. */
module Sampler {

  /** Sampled frames handed to the matcher per batch. */
  const BatchSize: int := 10
  /** Processing stops once the counter passes this many minutes of video ... */
  const CutoffMinutes: int := 10
  /** ... counted at this nominal frame rate, whatever the video's real rate is. */
  const NominalFps: int := 30
  const CutoffFrames: int := NominalFps * 60 * CutoffMinutes

  /** What one batch read yields: the sampled frame indices, and the frame counter
      after the last successful read. */
  datatype Batch = Batch(frames: seq<int>, counter: nat)

  predicate Increasing(s: seq<int>)
  {
    forall i, j :: 0 <= i < j < |s| ==> s[i] < s[j]
  }

  /** Most frames one batch reads. A non-positive ratio makes the read range empty. */
  function ReadBudget(ratio: int): nat
  {
    if ratio <= 0 then 0 else BatchSize * ratio
  }

  /** Reads up to `budget` frames starting at frame `counter`, keeping the multiples of
      `ratio`; a failed read ends the batch early. */
  function ReadFrames(counter: nat, budget: nat, frameCount: nat, ratio: int): (b: Batch)
    requires ratio > 0
    ensures b.counter == counter + (if counter >= frameCount then 0
                                    else if budget <= frameCount - counter then budget
                                    else frameCount - counter)
    ensures forall k :: k in b.frames <==> counter <= k < b.counter && k % ratio == 0
    ensures Increasing(b.frames)
    decreases budget
  {
    if budget == 0 || counter >= frameCount then Batch([], counter)
    else
      var rest := ReadFrames(counter + 1, budget - 1, frameCount, ratio);
      var kept := if counter % ratio == 0 then [counter] else [];
      assert forall k :: 0 <= k < |rest.frames| ==> rest.frames[k] in rest.frames;
      Batch(kept + rest.frames, rest.counter)
  }

  /** One batch of the driver loop. */
  function ReadBatch(counter: nat, frameCount: nat, ratio: int): (b: Batch)
    ensures counter <= b.counter <= counter + ReadBudget(ratio)
    ensures b.counter <= frameCount || b.counter == counter
    ensures counter < frameCount ==>
              b.counter == if counter + ReadBudget(ratio) <= frameCount
                           then counter + ReadBudget(ratio) else frameCount
    ensures forall k :: k in b.frames <==> counter <= k < b.counter && ratio > 0 && k % ratio == 0
    ensures Increasing(b.frames)
    ensures |b.frames| <= BatchSize
    ensures ratio <= 0 ==> b == Batch([], counter)
  {
    if ratio <= 0 then Batch([], counter)
    else
      var b := ReadFrames(counter, BatchSize * ratio, frameCount, ratio);
      assert |b.frames| <= BatchSize by {
        if |b.frames| > 0 {
          assert forall k :: 0 <= k < |b.frames| ==> b.frames[k] in b.frames;
          BatchCount(b.frames, counter, ratio);
        }
      }
      b
  }

  /** Two distinct multiples of `ratio` are at least `ratio` apart. */
  lemma GapBetweenMultiples(x: int, y: int, ratio: int)
    requires ratio > 0 && x < y && x % ratio == 0 && y % ratio == 0
    ensures y - x >= ratio
  {
    var p, q := x / ratio, y / ratio;
    assert x == ratio * p;
    assert y == ratio * q;
    assert p < q;
    assert ratio * q >= ratio * (p + 1);
  }

  lemma MulSign(a: int, r: int)
    requires r > 0
    ensures a >= 1 ==> a * r >= r
    ensures a <= -1 ==> a * r <= -r
  {
  }

  /** A whole number of strides is a multiple of the stride. */
  lemma MultipleMod(n: int, ratio: int)
    requires ratio > 0
    ensures (n * ratio) % ratio == 0
  {
    var q, m := (n * ratio) / ratio, (n * ratio) % ratio;
    assert n * ratio == q * ratio + m && 0 <= m < ratio;
    assert (n - q) * ratio == m;
    MulSign(n - q, ratio);
  }

  /** An increasing run of multiples of `ratio` spans at least `ratio` per step. */
  lemma {:induction false} Spread(s: seq<int>, ratio: int)
    requires ratio > 0 && |s| > 0 && Increasing(s)
    requires forall k :: 0 <= k < |s| ==> s[k] % ratio == 0
    ensures s[|s| - 1] - s[0] >= (|s| - 1) * ratio
  {
    if |s| > 1 {
      Spread(s[..|s| - 1], ratio);
      GapBetweenMultiples(s[|s| - 2], s[|s| - 1], ratio);
    }
  }

  /** A batch's budget of `BatchSize * ratio` reads holds at most `BatchSize` multiples. */
  lemma BatchCount(s: seq<int>, counter: int, ratio: int)
    requires ratio > 0 && |s| > 0 && Increasing(s)
    requires forall k :: 0 <= k < |s| ==> s[k] % ratio == 0
    requires forall k :: 0 <= k < |s| ==> counter <= s[k] < counter + BatchSize * ratio
    ensures |s| <= BatchSize
  {
    Spread(s, ratio);
    assert (|s| - 1) * ratio < BatchSize * ratio;
  }

  /** Every batch the outer loop reads, and the frame counter it stops at. */
  datatype Reading = Reading(batches: seq<Batch>, counter: nat)

  /** Where batch `i` of `batches` starts reading, the first one at `counter`. */
  function StartOf(batches: seq<Batch>, counter: nat, i: int): nat
    requires 0 <= i <= |batches|
  {
    if i == 0 then counter else batches[i - 1].counter
  }

  /** Each batch reads on from where the previous one stopped, and samples only frames it
      read itself. */
  predicate Chained(batches: seq<Batch>, counter: nat)
  {
    forall i :: 0 <= i < |batches| ==>
      && StartOf(batches, counter, i) <= batches[i].counter
      && Increasing(batches[i].frames)
      && forall k :: 0 <= k < |batches[i].frames| ==>
           StartOf(batches, counter, i) <= batches[i].frames[k] < batches[i].counter
  }

  /** The batches after the first are chained from where the first stopped. */
  lemma ChainedTail(batches: seq<Batch>, counter: nat)
    requires |batches| > 0 && Chained(batches, counter)
    ensures Chained(batches[1..], batches[0].counter)
    ensures StartOf(batches[1..], batches[0].counter, |batches| - 1)
         == StartOf(batches, counter, |batches|)
    ensures forall k :: 0 <= k < |batches[0].frames| ==>
              counter <= batches[0].frames[k] < batches[0].counter
    ensures Increasing(batches[0].frames)
  {
    var tail := batches[1..];
    forall i | 0 <= i < |tail|
      ensures StartOf(tail, batches[0].counter, i) == StartOf(batches, counter, i + 1)
    {
    }
    assert StartOf(batches, counter, 0) == counter;
  }

  /** Each batch is the one read from where the previous one stopped (the first from
      `counter`), was started before the counter passed the cutoff, and sampled a frame. */
  predicate ReadInTurn(batches: seq<Batch>, counter: nat, frameCount: nat, ratio: int)
    decreases |batches|
  {
    |batches| == 0
    || (&& counter <= CutoffFrames
        && batches[0] == ReadBatch(counter, frameCount, ratio)
        && |batches[0].frames| > 0
        && ReadInTurn(batches[1..], batches[0].counter, frameCount, ratio))
  }

  /** Where the loop stops: either the counter passed the cutoff before the next batch, or the
      next batch sampled nothing and its reads are the last ones counted. */
  predicate StopsAt(batches: seq<Batch>, counter: nat, frameCount: nat, ratio: int, end: nat)
  {
    var last := StartOf(batches, counter, |batches|);
    || (last > CutoffFrames && end == last)
    || (|ReadBatch(last, frameCount, ratio).frames| == 0
        && end == ReadBatch(last, frameCount, ratio).counter)
  }

  /** The reading half of the driver loop from frame `counter` on: a batch is read while the
      counter has not passed the cutoff at the top of the loop, and the loop stops at the
      first batch that samples nothing. */
  function Schedule(counter: nat, frameCount: nat, ratio: int): (r: Reading)
    ensures counter <= r.counter
    ensures counter <= CutoffFrames ==> r.counter <= CutoffFrames + ReadBudget(ratio)
    ensures counter > CutoffFrames ==> r == Reading([], counter)
    ensures forall i :: 0 <= i < |r.batches| ==> r.batches[i].counter <= r.counter
    ensures ReadInTurn(r.batches, counter, frameCount, ratio)
    ensures StopsAt(r.batches, counter, frameCount, ratio, r.counter)
    decreases CutoffFrames + 1 - counter
  {
    if counter > CutoffFrames then Reading([], counter)
    else
      var b := ReadBatch(counter, frameCount, ratio);
      if |b.frames| == 0 then Reading([], b.counter)
      else
        var rest := Schedule(b.counter, frameCount, ratio);
        var batches := [b] + rest.batches;
        assert batches[1..] == rest.batches;
        assert StartOf(batches, counter, |batches|)
            == StartOf(rest.batches, b.counter, |rest.batches|);
        assert forall i :: 1 <= i < |batches| ==> batches[i] == rest.batches[i - 1];
        Reading(batches, rest.counter)
  }

  /** The batches read in turn, by index: batch `i` is the one read from where batch `i - 1`
      stopped, and it started before the cutoff. */
  lemma {:induction false} ReadInTurnIndexed(batches: seq<Batch>, counter: nat, frameCount: nat,
                                             ratio: int)
    requires ReadInTurn(batches, counter, frameCount, ratio)
    ensures forall i :: 0 <= i < |batches| ==>
              && StartOf(batches, counter, i) <= CutoffFrames
              && batches[i] == ReadBatch(StartOf(batches, counter, i), frameCount, ratio)
              && |batches[i].frames| > 0
    decreases |batches|
  {
    if |batches| > 0 {
      var tail := batches[1..];
      ReadInTurnIndexed(tail, batches[0].counter, frameCount, ratio);
      forall i | 1 <= i < |batches|
        ensures StartOf(batches, counter, i) == StartOf(tail, batches[0].counter, i - 1)
        ensures batches[i] == tail[i - 1]
      {
      }
    }
  }

  /** A batch that sampled a frame read it itself, and stayed within the video. */
  lemma BatchWithin(b: Batch, start: nat, frameCount: nat, ratio: int)
    requires b == ReadBatch(start, frameCount, ratio) && |b.frames| > 0
    ensures start <= b.counter <= frameCount
    ensures forall k :: 0 <= k < |b.frames| ==> start <= b.frames[k] < b.counter
  {
    assert b.frames[0] in b.frames;
    assert forall k :: 0 <= k < |b.frames| ==> b.frames[k] in b.frames;
  }

  /** Batches read in turn are chained, and none reads beyond the video's end. */
  lemma {:induction false} ReadInTurnChained(batches: seq<Batch>, counter: nat, frameCount: nat,
                                             ratio: int)
    requires ReadInTurn(batches, counter, frameCount, ratio)
    ensures Chained(batches, counter)
    ensures forall i :: 0 <= i < |batches| ==> batches[i].counter <= frameCount
    decreases |batches|
  {
    if |batches| > 0 {
      var tail := batches[1..];
      ReadInTurnChained(tail, batches[0].counter, frameCount, ratio);
      BatchWithin(batches[0], counter, frameCount, ratio);
      forall i | 1 <= i < |batches|
        ensures StartOf(batches, counter, i) == StartOf(tail, batches[0].counter, i - 1)
        ensures batches[i] == tail[i - 1]
      {
      }
    }
  }

  /** The batches of a run are chained: each starts where the previous stopped and samples
      only frames it read, in increasing order, none beyond the video's end. */
  lemma ScheduleChained(counter: nat, frameCount: nat, ratio: int)
    ensures var r := Schedule(counter, frameCount, ratio);
            && Chained(r.batches, counter)
            && forall i :: 0 <= i < |r.batches| ==> r.batches[i].counter <= frameCount
  {
    ReadInTurnChained(Schedule(counter, frameCount, ratio).batches, counter, frameCount, ratio);
  }

  /** While the counter has not passed the cutoff and the batch read there samples a frame,
      that batch comes first and the reading goes on from its counter. */
  lemma ScheduleUnfold(counter: nat, frameCount: nat, ratio: int)
    requires counter <= CutoffFrames
    requires |ReadBatch(counter, frameCount, ratio).frames| > 0
    ensures var b := ReadBatch(counter, frameCount, ratio);
            Schedule(counter, frameCount, ratio).batches
            == [b] + Schedule(b.counter, frameCount, ratio).batches
  {
  }

  /** The reading stops only at the video's end or past the cutoff: from a sampled frame (or
      the end) on, every full batch ends on a multiple of the ratio, so the next batch samples
      a frame again until the reads run out. */
  lemma {:induction false} ScheduleRunsToEnd(counter: nat, frameCount: nat, ratio: int)
    requires ratio > 0 && counter <= frameCount
    requires counter % ratio == 0 || counter == frameCount
    ensures var r := Schedule(counter, frameCount, ratio);
            r.counter == frameCount || r.counter > CutoffFrames
    decreases CutoffFrames + 1 - counter
  {
    if counter <= CutoffFrames && counter < frameCount {
      var b := ReadBatch(counter, frameCount, ratio);
      assert counter in b.frames;
      if b.counter < frameCount {
        assert b.counter == (counter / ratio + BatchSize) * ratio;
        MultipleMod(counter / ratio + BatchSize, ratio);
      }
      ScheduleRunsToEnd(b.counter, frameCount, ratio);
    }
  }

  /** A run with a positive sample ratio reads the whole video, or stops past the cutoff. */
  lemma ScheduleReadsAll(frameCount: nat, ratio: int)
    requires ratio > 0
    ensures var r := Schedule(0, frameCount, ratio);
            r.counter == frameCount || r.counter > CutoffFrames
  {
    ScheduleRunsToEnd(0, frameCount, ratio);
  }

  /** Schedule's batches by index: batch `i` is the batch read from where batch `i - 1`
      stopped, started before the cutoff, and sampled a frame. */
  lemma ScheduleInTurn(counter: nat, frameCount: nat, ratio: int)
    ensures var r := Schedule(counter, frameCount, ratio);
            forall i :: 0 <= i < |r.batches| ==>
              && StartOf(r.batches, counter, i) <= CutoffFrames
              && r.batches[i] == ReadBatch(StartOf(r.batches, counter, i), frameCount, ratio)
              && |r.batches[i].frames| > 0
  {
    ReadInTurnIndexed(Schedule(counter, frameCount, ratio).batches, counter, frameCount, ratio);
  }

  /** All sampled frame indices of a run of batches, in reading order. */
  function Flatten(batches: seq<Batch>): seq<int>
  {
    if |batches| == 0 then [] else batches[0].frames + Flatten(batches[1..])
  }

  lemma {:induction false} FlattenFrom(batches: seq<Batch>, counter: nat)
    requires Chained(batches, counter)
    ensures forall k :: 0 <= k < |Flatten(batches)| ==> counter <= Flatten(batches)[k]
  {
    if |batches| > 0 {
      var tail := batches[1..];
      assert Chained(tail, batches[0].counter) by {
        forall i | 0 <= i < |tail| ensures StartOf(tail, batches[0].counter, i)
                                          == StartOf(batches, counter, i + 1) {
        }
      }
      FlattenFrom(tail, batches[0].counter);
      assert batches[0].frames[..] == batches[0].frames;
    }
  }

  lemma IncreasingConcat(a: seq<int>, b: seq<int>, bound: int)
    requires Increasing(a) && Increasing(b)
    requires forall k :: 0 <= k < |a| ==> a[k] < bound
    requires forall k :: 0 <= k < |b| ==> bound <= b[k]
    ensures Increasing(a + b)
  {
    var s := a + b;
    forall i, j | 0 <= i < j < |s| ensures s[i] < s[j] {
      if j < |a| {
        assert s[i] == a[i] && s[j] == a[j];
      } else if i < |a| {
        assert s[i] == a[i] && s[j] == b[j - |a|];
      } else {
        assert s[i] == b[i - |a|] && s[j] == b[j - |a|];
      }
    }
  }

  /** The frames a run hands to the matcher are sampled multiples of the ratio, each read
      from the video, and strictly increasing across the whole run. */
  lemma {:induction false} ScheduleSamples(counter: nat, frameCount: nat, ratio: int)
    ensures var frames := Flatten(Schedule(counter, frameCount, ratio).batches);
            && Increasing(frames)
            && forall k :: 0 <= k < |frames| ==>
                 ratio > 0 && frames[k] % ratio == 0 && counter <= frames[k] < frameCount
    decreases CutoffFrames + 1 - counter
  {
    if counter <= CutoffFrames {
      var b := ReadBatch(counter, frameCount, ratio);
      if |b.frames| > 0 {
        var all := Schedule(counter, frameCount, ratio);
        var next := Schedule(b.counter, frameCount, ratio);
        ScheduleUnfold(counter, frameCount, ratio);
        assert all.batches[1..] == next.batches;
        ScheduleSamples(b.counter, frameCount, ratio);
        var tail := Flatten(next.batches);
        ScheduleChained(b.counter, frameCount, ratio);
        FlattenFrom(next.batches, b.counter);
        assert Flatten(all.batches) == b.frames + tail;
        assert forall k :: 0 <= k < |b.frames| ==> b.frames[k] in b.frames;
        IncreasingConcat(b.frames, tail, b.counter);
      }
    }
  }
}
