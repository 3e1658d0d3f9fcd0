/** The detection run with the leftover targets flushed once, after the batch loop, as the
    comment above that block in the source says ("at the end"). In the source the block is
    indented into the loop, so it runs after every batch and never clears the dictionary
    (modelled by `Tracker.StepBatch`); a run still open across batches is then emitted once
    per batch with the same label and start. Here each run is emitted at most once. */
module Intended {
  import opened Types
  import Sampler
  import Matcher
  import opened Tracker
  import TrackerLemmas
  import Detection

  /** No two segments share both label and start frame: no run is emitted twice. */
  predicate UniqueRuns(tfs: seq<Timeframe>)
  {
    forall i, j :: 0 <= i < j < |tfs| ==>
      tfs[i].name != tfs[j].name || tfs[i].startFrame != tfs[j].startFrame
  }

  /** Every segment so far lies before the frame `cur` and before every run still open, and
      no run was emitted twice. */
  predicate Separated(st: State, cur: int)
  {
    && (forall j :: 0 <= j < |st.emitted| ==>
          st.emitted[j].startFrame < st.emitted[j].endFrame <= cur)
    && (forall j, k :: 0 <= j < |st.emitted| && 0 <= k < |st.active| ==>
          st.emitted[j].endFrame <= st.active[k].target.startFrame)
    && (forall k :: 0 <= k < |st.active| ==> st.active[k].target.startFrame <= cur)
    && UniqueRuns(st.emitted)
  }

  /** An in-stream flush appends segments that start after every earlier one ends and that
      carry pairwise different labels, so no run is emitted twice. */
  lemma FlushSeparated(st: State, frame: int, ms: real, minDuration: int, cur: int)
    requires Valid(st.active) && Separated(st, cur) && cur <= frame && minDuration >= 0
    ensures Separated(State([], st.emitted + Flush(st.active, frame, ms, minDuration)), frame)
  {
    var fl := Flush(st.active, frame, ms, minDuration);
    var all := st.emitted + fl;
    TrackerLemmas.FlushLabelsDistinct(st.active, frame, ms, minDuration);
    forall j | 0 <= j < |fl|
      ensures forall i :: 0 <= i < |st.emitted| ==> st.emitted[i].startFrame < fl[j].startFrame
    {
      assert fl[j] in fl;
      var k :| 0 <= k < |st.active| && Lasted(st.active[k], frame, minDuration)
               && fl[j] == Close(st.active[k], frame, ms);
    }
    forall i, j | 0 <= i < j < |all|
      ensures all[i].name != all[j].name || all[i].startFrame != all[j].startFrame
    {
      if j >= |st.emitted| && i >= |st.emitted| {
        assert all[i] == fl[i - |st.emitted|] && all[j] == fl[j - |st.emitted|];
      } else if j >= |st.emitted| {
        assert all[j] == fl[j - |st.emitted|];
      }
    }
  }

  lemma StepSeparated(st: State, c: Candidate, frame: int, ms: real, minDuration: int, cur: int)
    requires Valid(st.active) && Separated(st, cur) && cur <= frame && minDuration >= 0
    ensures Separated(Step(st, c, frame, ms, minDuration), frame)
  {
    if c.Miss? {
      FlushSeparated(st, frame, ms, minDuration, cur);
    } else {
      assert Step(st, c, frame, ms, minDuration).active
          == Observe(st.active, c.name, c.score, frame, ms);
    }
  }

  lemma {:induction false} ScanFrameSeparated(st: State, ranked: seq<Candidate>, frame: int,
                                              ms: real, minDuration: int, cur: int)
    requires Valid(st.active) && Separated(st, cur) && cur <= frame && minDuration >= 0
    ensures Separated(ScanFrame(st, ranked, frame, ms, minDuration), frame)
    decreases |ranked|
  {
    if |ranked| == 0 {
    } else {
      StepSeparated(st, ranked[0], frame, ms, minDuration, cur);
      ScanFrameSeparated(Step(st, ranked[0], frame, ms, minDuration), ranked[1..], frame, ms,
                         minDuration, frame);
    }
  }

  lemma {:induction false} ScanBatchSeparated(st: State, frames: seq<FrameCandidates>, ms: real,
                                              minDuration: int, cur: int, hi: int)
    requires Valid(st.active) && Separated(st, cur) && cur <= hi && minDuration >= 0
    requires TrackerLemmas.InOrderFrom(frames, cur)
    requires forall k :: 0 <= k < |frames| ==> frames[k].frame <= hi
    ensures Separated(ScanBatch(st, frames, ms, minDuration), hi)
    decreases |frames|
  {
    if |frames| > 0 {
      var f := frames[0].frame;
      ScanFrameSeparated(st, frames[0].ranked, f, ms, minDuration, cur);
      var next := ScanFrame(st, frames[0].ranked, f, ms, minDuration);
      assert TrackerLemmas.InOrderFrom(frames[1..], f);
      ScanBatchSeparated(next, frames[1..], ms, minDuration, f, hi);
    }
  }

  /** The batch loop of the corrected run: as `Detection.Track`, without the per-batch flush. */
  function TrackIntended(cfg: Detection.Config, video: Detection.Video, labelOf: map<int, Label>,
                         batches: seq<Sampler.Batch>, st: State): (r: Result<State, Error>)
    requires Valid(st.active)
    ensures r.Success? ==> Valid(r.value.active) && st.emitted <= r.value.emitted
    ensures r.Failure? ==> r.error.LabelNotFound?
    ensures r.Success? <==> Detection.AllFound(video, labelOf, cfg.threshold, batches)
    decreases |batches|
  {
    if |batches| == 0 then Success(st)
    else
      var b := batches[0];
      assert forall i :: 1 <= i < |batches| ==> batches[i] == batches[1..][i - 1];
      match Matcher.GetLabel(Detection.Rows(video, b.frames), labelOf, cfg.threshold)
      case Failure(e) => Failure(e)
      case Success(rows) =>
        var ms := video.positionMs(b.counter);
        var next := ScanBatch(st, Detection.Pair(b.frames, rows), ms, cfg.minDuration);
        TrackIntended(cfg, video, labelOf, batches[1..], next)
  }

  /** One batch of the corrected loop keeps segments and open runs separated. */
  lemma BatchSeparated(cfg: Detection.Config, video: Detection.Video, labelOf: map<int, Label>,
                       b: Sampler.Batch, counter: nat, st: State)
    requires Valid(st.active) && Separated(st, counter) && cfg.minDuration >= 0
    requires counter <= b.counter
    requires forall k :: 0 <= k < |b.frames| ==> counter <= b.frames[k] < b.counter
    requires Sampler.Increasing(b.frames)
    ensures var got := Matcher.GetLabel(Detection.Rows(video, b.frames), labelOf, cfg.threshold);
            got.Success? ==>
              Separated(ScanBatch(st, Detection.Pair(b.frames, got.value),
                                  video.positionMs(b.counter), cfg.minDuration), b.counter)
  {
    var got := Matcher.GetLabel(Detection.Rows(video, b.frames), labelOf, cfg.threshold);
    if got.Success? {
      var frames := Detection.Pair(b.frames, got.value);
      assert TrackerLemmas.InOrderFrom(frames, counter);
      ScanBatchSeparated(st, frames, video.positionMs(b.counter), cfg.minDuration, counter,
                         b.counter);
    }
  }

  lemma {:induction false} TrackIntendedSeparated(cfg: Detection.Config, video: Detection.Video,
                                                  labelOf: map<int, Label>,
                                                  batches: seq<Sampler.Batch>, counter: nat,
                                                  st: State)
    requires Valid(st.active) && Separated(st, counter) && cfg.minDuration >= 0
    requires Sampler.Chained(batches, counter)
    ensures var r := TrackIntended(cfg, video, labelOf, batches, st);
            r.Success? ==> Separated(r.value, Sampler.StartOf(batches, counter, |batches|))
    decreases |batches|
  {
    if |batches| > 0 {
      var b := batches[0];
      Sampler.ChainedTail(batches, counter);
      BatchSeparated(cfg, video, labelOf, b, counter, st);
      var got := Matcher.GetLabel(Detection.Rows(video, b.frames), labelOf, cfg.threshold);
      if got.Success? {
        var next := ScanBatch(st, Detection.Pair(b.frames, got.value),
                              video.positionMs(b.counter), cfg.minDuration);
        TrackIntendedSeparated(cfg, video, labelOf, batches[1..], b.counter, next);
        assert TrackIntended(cfg, video, labelOf, batches, st)
            == TrackIntended(cfg, video, labelOf, batches[1..], next);
      }
    }
  }

  /** The end-of-stream flush emits each open run once, after every earlier segment. */
  lemma FinalFlushUnique(st: State, cur: int, counter: int, ms: real)
    requires Valid(st.active) && Separated(st, cur)
    ensures UniqueRuns(st.emitted + FlushAll(st.active, counter, ms))
  {
    var fa := FlushAll(st.active, counter, ms);
    var all := st.emitted + fa;
    forall i, j | 0 <= i < j < |all|
      ensures all[i].name != all[j].name || all[i].startFrame != all[j].startFrame
    {
      if i >= |st.emitted| {
        assert all[i] == fa[i - |st.emitted|] && all[j] == fa[j - |st.emitted|];
      } else if j >= |st.emitted| {
        assert all[j] == fa[j - |st.emitted|];
        assert all[j].startFrame == st.active[j - |st.emitted|].target.startFrame;
      }
    }
  }

  /** The corrected detection run: leftover targets are flushed once, when the loop ends,
      at the final frame counter and the capture position there. It fails exactly when the
      run as written fails: when the rows of some sampled batch hold an above-threshold id
      missing from the label map. */
  function DetectIntended(cfg: Detection.Config, video: Detection.Video, labelOf: map<int, Label>)
    : (r: Result<seq<Timeframe>, Error>)
    ensures r.Failure? ==> r.error.LabelNotFound?
    ensures r.Success? <==> Detection.AllFound(
              video, labelOf, cfg.threshold,
              Sampler.Schedule(0, video.frameCount, cfg.sampleRatio).batches)
  {
    var reading := Sampler.Schedule(0, video.frameCount, cfg.sampleRatio);
    match TrackIntended(cfg, video, labelOf, reading.batches, State([], []))
    case Failure(e) => Failure(e)
    case Success(st) =>
      var ms := video.positionMs(reading.counter);
      Success(st.emitted + if |st.active| > 0 then FlushAll(st.active, reading.counter, ms) else [])
  }

  /** With a non-negative minimum duration the corrected run emits no run (label, start
      frame) twice. */
  lemma DetectIntendedUnique(cfg: Detection.Config, video: Detection.Video,
                             labelOf: map<int, Label>)
    requires cfg.minDuration >= 0
    ensures var r := DetectIntended(cfg, video, labelOf);
            r.Success? ==> UniqueRuns(r.value)
  {
    var reading := Sampler.Schedule(0, video.frameCount, cfg.sampleRatio);
    var start := State([], []);
    var got := TrackIntended(cfg, video, labelOf, reading.batches, start);
    if got.Success? {
      var st := got.value;
      Sampler.ScheduleChained(0, video.frameCount, cfg.sampleRatio);
      TrackIntendedSeparated(cfg, video, labelOf, reading.batches, 0, start);
      FinalFlushUnique(st, Sampler.StartOf(reading.batches, 0, |reading.batches|),
                       reading.counter, video.positionMs(reading.counter));
    }
  }

  // ---------------------------------------------------------------------------------------
  // The source as written emits a run once per batch it stays open in.

  /** The index's answer for a frame all of whose ten nearest neighbours are entry 0, each with
      similarity 1; the search always asks for ten neighbours. */
  const TenOfFirst: Matcher.Neighbours := Matcher.Neighbours(seq(10, k => 1.0), seq(10, k => 0))

  /** A video in which every frame's ten nearest neighbours are all entry 0, with similarity 1. */
  ghost predicate AlwaysFirst(video: Detection.Video)
  {
    forall f :: video.neighbours(f) == TenOfFirst
  }

  lemma FirstAt(video: Detection.Video, f: int)
    requires AlwaysFirst(video)
    ensures video.neighbours(f) == TenOfFirst
  {
  }

  /** A candidate row of ten sightings of `name`, each with similarity 1. */
  predicate AllHit(row: seq<Candidate>, name: Label)
  {
    |row| == 10 && forall j :: 0 <= j < |row| ==> row[j] == Hit(name, 1.0)
  }

  /** With entry 0 labelled `name` and a threshold below 1, every row of such a video is ten
      sightings of `name`. */
  lemma RowsAllHit(video: Detection.Video, frames: seq<int>, labelOf: map<int, Label>, threshold: real,
                   name: Label)
    requires AlwaysFirst(video) && labelOf == map[0 := name] && threshold < 1.0
    ensures var got := Matcher.GetLabel(Detection.Rows(video, frames), labelOf, threshold);
            && got.Success? && |got.value| == |frames|
            && forall k :: 0 <= k < |frames| ==> AllHit(got.value[k], name)
  {
    var one := Matcher.LabelRow(TenOfFirst.scores, TenOfFirst.ids, labelOf, threshold);
    assert one.Success?;
    assert AllHit(one.value, name) by {
      forall j | 0 <= j < |one.value| ensures one.value[j] == Hit(name, 1.0) {
        assert one.value[j].Hit?;
      }
    }
    var rows := Detection.Rows(video, frames);
    forall k | 0 <= k < |rows|
      ensures Matcher.LabelRow(rows[k].scores, rows[k].ids, labelOf, threshold) == one
    {
      assert rows[k] == video.neighbours(frames[k]);
      FirstAt(video, frames[k]);
    }
  }

  /** Every row of such a video holds ten candidates and no below-threshold one. */
  lemma RowsNoMiss(video: Detection.Video, frames: seq<int>, name: Label, threshold: real)
    requires AlwaysFirst(video) && threshold < 1.0
    ensures var got := Matcher.GetLabel(Detection.Rows(video, frames), map[0 := name], threshold);
            && got.Success? && |got.value| == |frames|
            && forall k :: 0 <= k < |frames| ==>
                 |got.value[k]| == 10 && TrackerLemmas.NoMiss(got.value[k])
  {
    RowsAllHit(video, frames, map[0 := name], threshold, name);
  }

  /** A batch without below-threshold candidates whose first frame sights something leaves
      open, first in the dictionary, the run of that first sighting from the first frame. */
  lemma ScanBatchOpens(frames: seq<FrameCandidates>, ms: real, minDuration: int)
    requires |frames| > 0 && |frames[0].ranked| > 0
    requires forall k :: 0 <= k < |frames| ==> TrackerLemmas.NoMiss(frames[k].ranked)
    ensures var r := ScanBatch(State([], []), frames, ms, minDuration);
            && |r.active| > 0 && frames[0].ranked[0].Hit?
            && r.active[0].name == frames[0].ranked[0].name
            && r.active[0].target.startFrame == frames[0].frame
  {
    var st := State([], []);
    var ranked := frames[0].ranked;
    var step := Step(st, ranked[0], frames[0].frame, ms, minDuration);
    assert ranked[0].Hit?;
    assert step.active == [Entry(ranked[0].name, Target(frames[0].frame, ms, [ranked[0].score]))];
    assert TrackerLemmas.NoMiss(ranked[1..]) by {
      forall k | 0 <= k < |ranked[1..]| ensures ranked[1..][k].Hit? {
        assert ranked[1..][k] == ranked[k + 1];
      }
    }
    TrackerLemmas.ScanFrameKeepsRuns(step, ranked[1..], frames[0].frame, ms, minDuration);
    var first := ScanFrame(st, ranked, frames[0].frame, ms, minDuration);
    assert first == ScanFrame(step, ranked[1..], frames[0].frame, ms, minDuration);
    assert |first.active| > 0;
    forall k | 0 <= k < |frames[1..]| ensures TrackerLemmas.NoMiss(frames[1..][k].ranked) {
      assert frames[1..][k] == frames[k + 1];
    }
    TrackerLemmas.ScanBatchKeepsRuns(first, frames[1..], ms, minDuration);
  }

  /** A batch read from a multiple of the ratio before the video's end samples a frame. */
  lemma SamplesFrom(counter: nat, frameCount: nat, ratio: int)
    requires 0 < ratio && counter < frameCount && counter % ratio == 0
    ensures |Sampler.ReadBatch(counter, frameCount, ratio).frames| > 0
  {
    assert counter in Sampler.ReadBatch(counter, frameCount, ratio).frames;
  }

  /** A video longer than one batch of reads yields at least two batches. */
  lemma TwoBatches(frameCount: nat, ratio: int)
    requires 0 < ratio && Sampler.BatchSize * ratio <= Sampler.CutoffFrames
    requires frameCount > Sampler.BatchSize * ratio
    ensures var reading := Sampler.Schedule(0, frameCount, ratio);
            var b0 := Sampler.ReadBatch(0, frameCount, ratio);
            var b1 := Sampler.ReadBatch(b0.counter, frameCount, ratio);
            && |b0.frames| > 0 && |b1.frames| > 0
            && reading.batches
               == [b0, b1] + Sampler.Schedule(b1.counter, frameCount, ratio).batches
  {
    var b0 := Sampler.ReadBatch(0, frameCount, ratio);
    SamplesFrom(0, frameCount, ratio);
    assert b0.counter == Sampler.BatchSize * ratio;
    Sampler.MultipleMod(Sampler.BatchSize, ratio);
    SamplesFrom(b0.counter, frameCount, ratio);
    Sampler.ScheduleUnfold(0, frameCount, ratio);
    Sampler.ScheduleUnfold(b0.counter, frameCount, ratio);
  }


  /** Tracking two leading batches whose rows are known. */
  lemma TrackTwo(cfg: Detection.Config, video: Detection.Video, labelOf: map<int, Label>,
                 b0: Sampler.Batch, b1: Sampler.Batch, rest: seq<Sampler.Batch>,
                 rows0: seq<seq<Candidate>>, rows1: seq<seq<Candidate>>)
    requires Matcher.GetLabel(Detection.Rows(video, b0.frames), labelOf, cfg.threshold)
             == Success(rows0)
    requires Matcher.GetLabel(Detection.Rows(video, b1.frames), labelOf, cfg.threshold)
             == Success(rows1)
    requires |rows0| == |b0.frames| && |rows1| == |b1.frames|
    ensures var s1 := StepBatch(State([], []), Detection.Pair(b0.frames, rows0), b0.counter,
                                video.positionMs(b0.counter), cfg.minDuration);
            var s2 := StepBatch(s1, Detection.Pair(b1.frames, rows1), b1.counter,
                                video.positionMs(b1.counter), cfg.minDuration);
            Detection.Track(cfg, video, labelOf, [b0, b1] + rest, State([], []))
            == Detection.Track(cfg, video, labelOf, rest, s2)
  {
    assert ([b0, b1] + rest)[1..] == [b1] + rest;
    assert ([b1] + rest)[1..] == rest;
  }

  /** On such a video the label map never misses, so tracking always succeeds. */
  lemma {:induction false} TrackAllHit(cfg: Detection.Config, video: Detection.Video, name: Label,
                                       batches: seq<Sampler.Batch>, st: State)
    requires AlwaysFirst(video) && cfg.threshold < 1.0 && Valid(st.active)
    ensures Detection.Track(cfg, video, map[0 := name], batches, st).Success?
    decreases |batches|
  {
    if |batches| > 0 {
      var b := batches[0];
      RowsAllHit(video, b.frames, map[0 := name], cfg.threshold, name);
      var rows := Matcher.GetLabel(Detection.Rows(video, b.frames), map[0 := name], cfg.threshold).value;
      var next := StepBatch(st, Detection.Pair(b.frames, rows), b.counter,
                            video.positionMs(b.counter), cfg.minDuration);
      TrackAllHit(cfg, video, name, batches[1..], next);
    }
  }

  /** The run of `name` from frame `start` is emitted twice: once closed at frame `end1` and,
      later in the list, again closed at frame `end2`. */
  predicate EmittedTwice(tfs: seq<Timeframe>, name: Label, start: int, end1: int, end2: int)
  {
    exists i, j :: 0 <= i < j < |tfs|
      && tfs[i].name == tfs[j].name == name
      && tfs[i].startFrame == tfs[j].startFrame == start
      && tfs[i].endFrame == end1 && tfs[j].endFrame == end2
  }

  /** A repeated run stays repeated when more segments are appended. */
  lemma TwiceKept(a: seq<Timeframe>, b: seq<Timeframe>, name: Label, start: int, end1: int,
                  end2: int)
    requires a <= b && EmittedTwice(a, name, start, end1, end2)
    ensures EmittedTwice(b, name, start, end1, end2)
  {
    var i, j :| 0 <= i < j < |a| && a[i].name == a[j].name == name
                && a[i].startFrame == a[j].startFrame == start
                && a[i].endFrame == end1 && a[j].endFrame == end2;
    assert b[i] == a[i] && b[j] == a[j];
  }

  /** Two batches without below-threshold candidates, the first sighting something in its
      first frame, emit the run of that first sighting twice: closed at the first batch's
      counter and again at the second's. */
  lemma FirstTwoRepeat(video: Detection.Video, b0: Sampler.Batch, b1: Sampler.Batch,
                       rows0: seq<seq<Candidate>>, rows1: seq<seq<Candidate>>, minDuration: int)
    requires |b0.frames| > 0 && |rows0| == |b0.frames| && |rows1| == |b1.frames|
    requires |rows0[0]| > 0
    requires forall k :: 0 <= k < |rows0| ==> TrackerLemmas.NoMiss(rows0[k])
    requires forall k :: 0 <= k < |rows1| ==> TrackerLemmas.NoMiss(rows1[k])
    ensures var s1 := StepBatch(State([], []), Detection.Pair(b0.frames, rows0), b0.counter,
                                video.positionMs(b0.counter), minDuration);
            var s2 := StepBatch(s1, Detection.Pair(b1.frames, rows1), b1.counter,
                                video.positionMs(b1.counter), minDuration);
            && rows0[0][0].Hit?
            && EmittedTwice(s2.emitted, rows0[0][0].name, b0.frames[0], b0.counter, b1.counter)
  {
    var p0 := Detection.Pair(b0.frames, rows0);
    var p1 := Detection.Pair(b1.frames, rows1);
    var ms0 := video.positionMs(b0.counter);
    var ms1 := video.positionMs(b1.counter);
    var empty := State([], []);
    forall j | 0 <= j < |p0| ensures TrackerLemmas.NoMiss(p0[j].ranked) {
    }
    ScanBatchOpens(p0, ms0, minDuration);
    forall j | 0 <= j < |p1| ensures TrackerLemmas.NoMiss(p1[j].ranked) {
    }
    TrackerLemmas.BatchFlushRepeats(empty, p0, p1, b0.counter, ms0, b1.counter, ms1,
                                    minDuration, 0);
  }

  /** The first batch of a video longer than one batch of reads starts at frame 0, reads
      the full budget, and the second reads on to twice the budget or to the video's end. */
  lemma FirstBatches(frameCount: nat, ratio: int)
    requires 0 < ratio && frameCount > Sampler.BatchSize * ratio
    ensures var b0 := Sampler.ReadBatch(0, frameCount, ratio);
            var b1 := Sampler.ReadBatch(b0.counter, frameCount, ratio);
            && |b0.frames| > 0 && b0.frames[0] == 0
            && b0.counter == Sampler.BatchSize * ratio
            && b1.counter == if 2 * Sampler.BatchSize * ratio <= frameCount
                             then 2 * Sampler.BatchSize * ratio else frameCount
  {
    var b0 := Sampler.ReadBatch(0, frameCount, ratio);
    SamplesFrom(0, frameCount, ratio);
    assert 0 in b0.frames;
    assert b0.frames[0] in b0.frames;
  }

  /** On such a video the first two batches already emit the run of `name` from frame 0
      twice, closed at each batch's counter. */
  lemma OpeningRepeat(cfg: Detection.Config, video: Detection.Video, name: Label)
    requires AlwaysFirst(video) && cfg.threshold < 1.0
    requires 0 < cfg.sampleRatio && video.frameCount > Sampler.BatchSize * cfg.sampleRatio
    ensures var labelOf := map[0 := name];
            var b0 := Sampler.ReadBatch(0, video.frameCount, cfg.sampleRatio);
            var b1 := Sampler.ReadBatch(b0.counter, video.frameCount, cfg.sampleRatio);
            var g0 := Matcher.GetLabel(Detection.Rows(video, b0.frames), labelOf, cfg.threshold);
            var g1 := Matcher.GetLabel(Detection.Rows(video, b1.frames), labelOf, cfg.threshold);
            && g0.Success? && g1.Success?
            && |g0.value| == |b0.frames| && |g1.value| == |b1.frames|
            && var s1 := StepBatch(State([], []), Detection.Pair(b0.frames, g0.value), b0.counter,
                                   video.positionMs(b0.counter), cfg.minDuration);
               var s2 := StepBatch(s1, Detection.Pair(b1.frames, g1.value), b1.counter,
                                   video.positionMs(b1.counter), cfg.minDuration);
               EmittedTwice(s2.emitted, name, 0, b0.counter, b1.counter)
  {
    var labelOf := map[0 := name];
    var ratio := cfg.sampleRatio;
    FirstBatches(video.frameCount, ratio);
    var b0 := Sampler.ReadBatch(0, video.frameCount, ratio);
    var b1 := Sampler.ReadBatch(b0.counter, video.frameCount, ratio);
    RowsNoMiss(video, b0.frames, name, cfg.threshold);
    RowsNoMiss(video, b1.frames, name, cfg.threshold);
    RowsAllHit(video, b0.frames, labelOf, cfg.threshold, name);
    var rows0: seq<seq<Candidate>> :=
      Matcher.GetLabel(Detection.Rows(video, b0.frames), labelOf, cfg.threshold).value;
    var rows1: seq<seq<Candidate>> :=
      Matcher.GetLabel(Detection.Rows(video, b1.frames), labelOf, cfg.threshold).value;
    assert rows0[0][0].name == name by {
      assert AllHit(rows0[0], name);
    }
    FirstTwoRepeat(video, b0, b1, rows0, rows1, cfg.minDuration);
  }

  /** On such a video the whole run, as written, emits the run of `name` from frame 0 closed
      at the first batch's counter and again at the second's. */
  lemma RepeatAtCounters(cfg: Detection.Config, video: Detection.Video, name: Label)
    requires AlwaysFirst(video) && cfg.threshold < 1.0
    requires 0 < cfg.sampleRatio && Sampler.BatchSize * cfg.sampleRatio <= Sampler.CutoffFrames
    requires video.frameCount > Sampler.BatchSize * cfg.sampleRatio
    ensures var r := Detection.Detect(cfg, video, map[0 := name]);
            var b0 := Sampler.ReadBatch(0, video.frameCount, cfg.sampleRatio);
            var b1 := Sampler.ReadBatch(b0.counter, video.frameCount, cfg.sampleRatio);
            r.Success? && EmittedTwice(r.value, name, 0, b0.counter, b1.counter)
  {
    var labelOf := map[0 := name];
    var ratio := cfg.sampleRatio;
    TwoBatches(video.frameCount, ratio);
    OpeningRepeat(cfg, video, name);
    var b0 := Sampler.ReadBatch(0, video.frameCount, ratio);
    var b1 := Sampler.ReadBatch(b0.counter, video.frameCount, ratio);
    var later := Sampler.Schedule(b1.counter, video.frameCount, ratio).batches;
    var rows0 := Matcher.GetLabel(Detection.Rows(video, b0.frames), labelOf, cfg.threshold).value;
    var rows1 := Matcher.GetLabel(Detection.Rows(video, b1.frames), labelOf, cfg.threshold).value;
    var s1 := StepBatch(State([], []), Detection.Pair(b0.frames, rows0), b0.counter,
                        video.positionMs(b0.counter), cfg.minDuration);
    var s2 := StepBatch(s1, Detection.Pair(b1.frames, rows1), b1.counter,
                        video.positionMs(b1.counter), cfg.minDuration);
    TrackTwo(cfg, video, labelOf, b0, b1, later, rows0, rows1);
    TrackAllHit(cfg, video, name, later, s2);
    var t := Detection.Track(cfg, video, labelOf, later, s2);
    TwiceKept(s2.emitted, t.value.emitted, name, 0, b0.counter, b1.counter);
  }

  /** Whenever the video is longer than one batch of reads and all ten neighbours of every
      frame are the one entry labelled `name`, the source as written emits the run of `name`
      from frame 0 twice: closed after the first batch, at its counter, and again after the
      second batch, at its counter. */
  lemma DetectRepeatsRun(cfg: Detection.Config, video: Detection.Video, name: Label)
    requires AlwaysFirst(video) && cfg.threshold < 1.0
    requires 0 < cfg.sampleRatio && Sampler.BatchSize * cfg.sampleRatio <= Sampler.CutoffFrames
    requires video.frameCount > Sampler.BatchSize * cfg.sampleRatio
    ensures var r := Detection.Detect(cfg, video, map[0 := name]);
            var full := Sampler.BatchSize * cfg.sampleRatio;
            && r.Success?
            && EmittedTwice(r.value, name, 0, full,
                            if 2 * full <= video.frameCount then 2 * full else video.frameCount)
  {
    FirstBatches(video.frameCount, cfg.sampleRatio);
    RepeatAtCounters(cfg, video, name);
  }

  /** One such input: eleven frames, stride 1, all ten neighbours of every frame labelled "A"
      with similarity 1. The run of "A" from frame 0 is emitted ending at 10, after the first
      batch, and again ending at 11, after the second. */
  lemma ElevenFramesRepeatRun()
    ensures var video := Detection.Video(11, f => TenOfFirst, n => 0.0);
            var r := Detection.Detect(Detection.Config(1, 10, 0.5), video, map[0 := "A"]);
            r.Success? && EmittedTwice(r.value, "A", 0, 10, 11)
  {
    var video := Detection.Video(11, f => TenOfFirst, n => 0.0);
    DetectRepeatsRun(Detection.Config(1, 10, 0.5), video, "A");
  }
}
