/** The detection driver: option handling, the batch loop with its frame cutoff, and the
    wiring of sampler, matcher and tracker. Video decoding, image embedding and the index
    search are given as functions of the frame index; the capture's position is given as a
    function of the number of frames read so far. */
module Detection {
  import opened Types
  import Sampler
  import Matcher
  import Tracker
  import TrackerLemmas

  const DefaultSampleRatio: int := 10
  const DefaultMinFrameCount: int := 10

  /** The parsed options: frame stride, minimum in-stream run length and similarity cutoff. */
  datatype Config = Config(sampleRatio: int, minDuration: int, threshold: real)

  /** Absent `sampleRatio` and `minFrameCount` take their defaults; `threshold` has none. */
  function Configure(sampleRatio: Option<int>, minFrameCount: Option<int>, threshold: Option<real>)
    : (r: Result<Config, Error>)
    ensures r.Failure? <==> threshold.None?
    ensures r.Failure? ==> r.error == MissingThreshold
    ensures r.Success? ==> r.value.threshold == threshold.value
    ensures r.Success? && sampleRatio.None? ==> r.value.sampleRatio == 10
    ensures r.Success? && minFrameCount.None? ==> r.value.minDuration == 10
    ensures r.Success? && sampleRatio.Some? ==> r.value.sampleRatio == sampleRatio.value
    ensures r.Success? && minFrameCount.Some? ==> r.value.minDuration == minFrameCount.value
  {
    match threshold
    case None => Failure(MissingThreshold)
    case Some(t) =>
      var ratio := match sampleRatio case Some(v) => v case None => DefaultSampleRatio;
      var minDuration := match minFrameCount case Some(v) => v case None => DefaultMinFrameCount;
      Success(Config(ratio, minDuration, t))
  }

  /** What the collaborators outside the model answer for one video: its length in frames,
      the index's neighbour row for the embedding of each frame, and the capture position
      in milliseconds once a given number of frames has been read. */
  datatype Video = Video(
    frameCount: nat,
    neighbours: int -> Matcher.Neighbours,
    positionMs: nat -> real)

  /** The index rows for a batch's sampled frames, in order. */
  function Rows(video: Video, frames: seq<int>): (r: seq<Matcher.Neighbours>)
    ensures |r| == |frames|
    ensures forall k :: 0 <= k < |frames| ==> r[k] == video.neighbours(frames[k])
  {
    seq(|frames|, k requires 0 <= k < |frames| => video.neighbours(frames[k]))
  }

  /** Pairs each sampled frame index with its candidate row, as `zip` does. */
  function Pair(frames: seq<int>, rows: seq<seq<Candidate>>): (r: seq<FrameCandidates>)
    requires |frames| == |rows|
    ensures |r| == |frames|
    ensures forall k :: 0 <= k < |r| ==> r[k] == FrameCandidates(frames[k], rows[k])
  {
    seq(|frames|, k requires 0 <= k < |frames| => FrameCandidates(frames[k], rows[k]))
  }

  /** Every batch's rows pass the label lookup: no above-threshold neighbour id of a sampled
      frame is missing from the label map. */
  predicate AllFound(video: Video, labelOf: map<int, Label>, threshold: real,
                     batches: seq<Sampler.Batch>)
  {
    forall i :: 0 <= i < |batches| ==>
      Matcher.GetLabel(Rows(video, batches[i].frames), labelOf, threshold).Success?
  }

  /** The matching and tracking half of the driver loop, batch by batch. A label-map miss
      aborts the run and nothing is returned. The capture position is read after the whole
      batch has been read, so every target opened or flushed in one batch carries the same
      position. */
  function Track(cfg: Config, video: Video, labelOf: map<int, Label>, batches: seq<Sampler.Batch>,
                 st: Tracker.State): (r: Result<Tracker.State, Error>)
    requires Tracker.Valid(st.active)
    ensures r.Success? ==> Tracker.Valid(r.value.active) && st.emitted <= r.value.emitted
    ensures r.Failure? ==> r.error.LabelNotFound?
    ensures r.Success? <==> AllFound(video, labelOf, cfg.threshold, batches)
    decreases |batches|
  {
    if |batches| == 0 then Success(st)
    else
      var b := batches[0];
      assert forall i :: 1 <= i < |batches| ==> batches[i] == batches[1..][i - 1];
      match Matcher.GetLabel(Rows(video, b.frames), labelOf, cfg.threshold)
      case Failure(e) => Failure(e)
      case Success(rows) =>
        var ms := video.positionMs(b.counter);
        var next := Tracker.StepBatch(st, Pair(b.frames, rows), b.counter, ms, cfg.minDuration);
        Track(cfg, video, labelOf, batches[1..], next)
  }

  /** One batch keeps positions and scores within bounds. */
  lemma BatchBounded(cfg: Config, video: Video, labelOf: map<int, Label>, b: Sampler.Batch,
                     counter: nat, st: Tracker.State)
    requires Tracker.Valid(st.active)
    requires counter <= b.counter
    requires forall k :: 0 <= k < |b.frames| ==> counter <= b.frames[k] < b.counter
    requires Sampler.Increasing(b.frames)
    requires TrackerLemmas.Bounded(st, counter, cfg.threshold)
    ensures var got := Matcher.GetLabel(Rows(video, b.frames), labelOf, cfg.threshold);
            got.Success? ==>
              TrackerLemmas.Bounded(
                Tracker.StepBatch(st, Pair(b.frames, got.value), b.counter,
                                  video.positionMs(b.counter), cfg.minDuration),
                b.counter, cfg.threshold)
  {
    var got := Matcher.GetLabel(Rows(video, b.frames), labelOf, cfg.threshold);
    if got.Success? {
      var frames := Pair(b.frames, got.value);
      assert TrackerLemmas.InOrderFrom(frames, counter);
      TrackerLemmas.StepBatchBounded(st, frames, b.counter, video.positionMs(b.counter),
                                     cfg.minDuration, counter, cfg.threshold);
    }
  }

  /** Positions and scores stay within bounds from batch to batch. */
  lemma {:induction false} TrackBounded(cfg: Config, video: Video, labelOf: map<int, Label>,
                                        batches: seq<Sampler.Batch>, counter: nat,
                                        st: Tracker.State)
    requires Tracker.Valid(st.active)
    requires Sampler.Chained(batches, counter)
    requires TrackerLemmas.Bounded(st, counter, cfg.threshold)
    ensures var r := Track(cfg, video, labelOf, batches, st);
            var last := Sampler.StartOf(batches, counter, |batches|);
            r.Success? ==> TrackerLemmas.Bounded(r.value, last, cfg.threshold)
    decreases |batches|
  {
    if |batches| > 0 {
      var b := batches[0];
      Sampler.ChainedTail(batches, counter);
      BatchBounded(cfg, video, labelOf, b, counter, st);
      var got := Matcher.GetLabel(Rows(video, b.frames), labelOf, cfg.threshold);
      if got.Success? {
        var next := Tracker.StepBatch(st, Pair(b.frames, got.value), b.counter,
                                      video.positionMs(b.counter), cfg.minDuration);
        TrackBounded(cfg, video, labelOf, batches[1..], b.counter, next);
        assert Track(cfg, video, labelOf, batches, st)
            == Track(cfg, video, labelOf, batches[1..], next);
      }
    }
  }

  /** The whole detection run over one video: the segments in the order they were appended.
      Every segment starts no later than it ends, no segment ends beyond the cutoff plus one
      batch of reads, and every score is above the threshold; the run fails, with a label-map
      miss, exactly when the rows of some sampled batch hold an above-threshold id missing from
      the label map; a non-positive sample ratio reads nothing and finds nothing. */
  function Detect(cfg: Config, video: Video, labelOf: map<int, Label>)
    : (r: Result<seq<Timeframe>, Error>)
    ensures r.Success? ==> forall j :: 0 <= j < |r.value| ==>
              && r.value[j].startFrame <= r.value[j].endFrame
              && r.value[j].endFrame <= Sampler.CutoffFrames + Sampler.ReadBudget(cfg.sampleRatio)
              && r.value[j].score > cfg.threshold
    ensures r.Failure? ==> r.error.LabelNotFound?
    ensures r.Success? <==> AllFound(video, labelOf, cfg.threshold,
                                     Sampler.Schedule(0, video.frameCount, cfg.sampleRatio).batches)
    ensures cfg.sampleRatio <= 0 ==> r == Success([])
  {
    var reading := Sampler.Schedule(0, video.frameCount, cfg.sampleRatio);
    var start := Tracker.State([], []);
    Sampler.ScheduleChained(0, video.frameCount, cfg.sampleRatio);
    TrackBounded(cfg, video, labelOf, reading.batches, 0, start);
    assert |reading.batches| > 0 ==>
      Sampler.StartOf(reading.batches, 0, |reading.batches|) <= reading.counter;
    match Track(cfg, video, labelOf, reading.batches, start)
    case Failure(e) => Failure(e)
    case Success(st) => Success(st.emitted)
  }
}
