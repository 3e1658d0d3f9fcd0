/** Properties of the active-target state machine that relate several steps. */
module TrackerLemmas {
  import opened Types
  import Scores
  import Matcher
  import opened Tracker

  /** Scanning a ranked list piecewise is scanning it whole. */
  lemma {:induction false} ScanFrameConcat(st: State, a: seq<Candidate>, b: seq<Candidate>,
                                           frame: int, ms: real, minDuration: int)
    requires Valid(st.active)
    ensures ScanFrame(st, a + b, frame, ms, minDuration)
         == ScanFrame(ScanFrame(st, a, frame, ms, minDuration), b, frame, ms, minDuration)
    decreases |a|
  {
    if |a| > 0 {
      assert (a + b)[1..] == a[1..] + b;
      ScanFrameConcat(Step(st, a[0], frame, ms, minDuration), a[1..], b, frame, ms, minDuration);
    } else {
      assert a + b == b;
    }
  }

  /** Scanning a batch's frames piecewise is scanning them whole. */
  lemma {:induction false} ScanBatchConcat(st: State, a: seq<FrameCandidates>,
                                           b: seq<FrameCandidates>, ms: real, minDuration: int)
    requires Valid(st.active)
    ensures ScanBatch(st, a + b, ms, minDuration)
         == ScanBatch(ScanBatch(st, a, ms, minDuration), b, ms, minDuration)
    decreases |a|
  {
    if |a| > 0 {
      assert (a + b)[1..] == a[1..] + b;
      ScanBatchConcat(ScanFrame(st, a[0].ranked, a[0].frame, ms, minDuration), a[1..], b, ms,
                      minDuration);
    } else {
      assert a + b == b;
    }
  }

  /** A below-threshold candidate at any rank flushes every active target, not just one:
      the dictionary is empty afterwards whether or not anything was emitted, and what was
      emitted is exactly the in-stream flush of all targets active just before it. */
  lemma MissFlushesAll(st: State, ranked: seq<Candidate>, k: int, frame: int, ms: real,
                       minDuration: int)
    requires Valid(st.active)
    requires 0 <= k < |ranked| && ranked[k].Miss?
    ensures var before := ScanFrame(st, ranked[..k], frame, ms, minDuration);
            var after := ScanFrame(st, ranked[..k + 1], frame, ms, minDuration);
            && after.active == []
            && after.emitted == before.emitted + Flush(before.active, frame, ms, minDuration)
  {
    assert ranked[..k + 1] == ranked[..k] + [ranked[k]];
    ScanFrameConcat(st, ranked[..k], [ranked[k]], frame, ms, minDuration);
  }

  /** Every target active at the end of a frame was opened in that frame... */
  predicate StartedAt(active: seq<Entry>, frame: int)
  {
    forall k :: 0 <= k < |active| ==> active[k].target.startFrame == frame
  }

  lemma {:induction false} ScanFrameKeepsStartedAt(st: State, ranked: seq<Candidate>, frame: int,
                                                   ms: real, minDuration: int)
    requires Valid(st.active) && StartedAt(st.active, frame)
    ensures StartedAt(ScanFrame(st, ranked, frame, ms, minDuration).active, frame)
    decreases |ranked|
  {
    if |ranked| > 0 {
      ScanFrameKeepsStartedAt(Step(st, ranked[0], frame, ms, minDuration), ranked[1..], frame, ms,
                              minDuration);
    }
  }

  /** ... whenever the frame has a below-threshold candidate: no target survives it. */
  lemma NoTargetSurvivesMiss(st: State, ranked: seq<Candidate>, k: int, frame: int, ms: real,
                             minDuration: int)
    requires Valid(st.active)
    requires 0 <= k < |ranked| && ranked[k].Miss?
    ensures StartedAt(ScanFrame(st, ranked, frame, ms, minDuration).active, frame)
  {
    MissFlushesAll(st, ranked, k, frame, ms, minDuration);
    var mid := ScanFrame(st, ranked[..k + 1], frame, ms, minDuration);
    assert ranked == ranked[..k + 1] + ranked[k + 1..];
    ScanFrameConcat(st, ranked[..k + 1], ranked[k + 1..], frame, ms, minDuration);
    ScanFrameKeepsStartedAt(mid, ranked[k + 1..], frame, ms, minDuration);
  }

  /** The in-stream flush keeps dictionary order. */
  lemma {:induction false} FlushConcat(a: seq<Entry>, b: seq<Entry>, frame: int, ms: real,
                                       minDuration: int)
    requires Scored(a) && Scored(b)
    ensures Scored(a + b)
    ensures Flush(a + b, frame, ms, minDuration)
         == Flush(a, frame, ms, minDuration) + Flush(b, frame, ms, minDuration)
  {
    assert forall k :: 0 <= k < |a + b| ==> (a + b)[k] == if k < |a| then a[k] else b[k - |a|];
    if |a| > 0 {
      assert (a + b)[1..] == a[1..] + b;
      FlushConcat(a[1..], b, frame, ms, minDuration);
    } else {
      assert a + b == b;
    }
  }

  predicate DistinctNames(tfs: seq<Timeframe>)
  {
    forall i, j :: 0 <= i < j < |tfs| ==> tfs[i].name != tfs[j].name
  }

  /** The segments of one flush carry pairwise different labels. */
  lemma {:induction false} FlushLabelsDistinct(active: seq<Entry>, frame: int, ms: real,
                                               minDuration: int)
    requires Valid(active)
    ensures DistinctNames(Flush(active, frame, ms, minDuration))
  {
    if |active| > 0 {
      var rest := Flush(active[1..], frame, ms, minDuration);
      FlushLabelsDistinct(active[1..], frame, ms, minDuration);
      forall j | 0 <= j < |rest| ensures rest[j].name != active[0].name {
        assert rest[j] in rest;
        var k :| 0 <= k < |active[1..]| && rest[j] == Close(active[1..][k], frame, ms);
        assert active[1..][k] == active[k + 1];
      }
      var r := Flush(active, frame, ms, minDuration);
      if Lasted(active[0], frame, minDuration) {
        assert r == [Close(active[0], frame, ms)] + rest;
        forall i, j | 0 <= i < j < |r| ensures r[i].name != r[j].name {
          assert r[j] == rest[j - 1];
          if i > 0 {
            assert r[i] == rest[i - 1];
            assert rest[i - 1].name != rest[j - 1].name;
          } else {
            assert r[0].name == active[0].name;
          }
        }
      }
    }
  }

  // ---------------------------------------------------------------------------------------
  // Sightings without a below-threshold candidate keep every open run where it started.

  predicate NoMiss(ranked: seq<Candidate>)
  {
    forall k :: 0 <= k < |ranked| ==> ranked[k].Hit?
  }

  /** `b` still holds every run of `a`, at the same position with the same start. */
  predicate KeepsRuns(a: seq<Entry>, b: seq<Entry>)
  {
    && |a| <= |b|
    && forall k :: 0 <= k < |a| ==>
         b[k].name == a[k].name && b[k].target.startFrame == a[k].target.startFrame
         && b[k].target.startMs == a[k].target.startMs
  }

  lemma {:induction false} ScanFrameKeepsRuns(st: State, ranked: seq<Candidate>, frame: int,
                                              ms: real, minDuration: int)
    requires Valid(st.active) && NoMiss(ranked)
    ensures var r := ScanFrame(st, ranked, frame, ms, minDuration);
            r.emitted == st.emitted && KeepsRuns(st.active, r.active)
    decreases |ranked|
  {
    if |ranked| > 0 {
      var next := Step(st, ranked[0], frame, ms, minDuration);
      ScanFrameKeepsRuns(next, ranked[1..], frame, ms, minDuration);
    }
  }

  lemma {:induction false} ScanBatchKeepsRuns(st: State, frames: seq<FrameCandidates>, ms: real,
                                              minDuration: int)
    requires Valid(st.active)
    requires forall k :: 0 <= k < |frames| ==> NoMiss(frames[k].ranked)
    ensures var r := ScanBatch(st, frames, ms, minDuration);
            r.emitted == st.emitted && KeepsRuns(st.active, r.active)
    decreases |frames|
  {
    if |frames| > 0 {
      var next := ScanFrame(st, frames[0].ranked, frames[0].frame, ms, minDuration);
      ScanFrameKeepsRuns(st, frames[0].ranked, frames[0].frame, ms, minDuration);
      ScanBatchKeepsRuns(next, frames[1..], ms, minDuration);
    }
  }

  /** The per-batch flush does not clear the dictionary: a run that is still open after one
      batch, and is not interrupted by a below-threshold candidate in the next, is emitted
      by both batch flushes with the same label and the same start frame. */
  lemma BatchFlushRepeats(st: State, first: seq<FrameCandidates>, second: seq<FrameCandidates>,
                          c1: int, ms1: real, c2: int, ms2: real, minDuration: int, k: int)
    requires Valid(st.active)
    requires forall j :: 0 <= j < |second| ==> NoMiss(second[j].ranked)
    requires var s1 := StepBatch(st, first, c1, ms1, minDuration); 0 <= k < |s1.active|
    ensures var s1 := StepBatch(st, first, c1, ms1, minDuration);
            var s2 := StepBatch(s1, second, c2, ms2, minDuration);
            exists i, j :: 0 <= i < j < |s2.emitted|
              && s2.emitted[i].name == s2.emitted[j].name == s1.active[k].name
              && s2.emitted[i].startFrame == s2.emitted[j].startFrame
                 == s1.active[k].target.startFrame
              && s2.emitted[i].endFrame == c1 && s2.emitted[j].endFrame == c2
  {
    var s1 := StepBatch(st, first, c1, ms1, minDuration);
    var inner1 := ScanBatch(st, first, ms1, minDuration);
    var s2 := StepBatch(s1, second, c2, ms2, minDuration);
    var inner2 := ScanBatch(s1, second, ms2, minDuration);
    ScanBatchKeepsRuns(s1, second, ms2, minDuration);
    var i := |inner1.emitted| + k;
    var j := |inner2.emitted| + k;
    assert s1.emitted[i] == Close(s1.active[k], c1, ms1);
    assert s2.emitted[..|s1.emitted|] == s1.emitted;
    assert s2.emitted[i] == s1.emitted[i];
    assert s2.emitted[j] == Close(inner2.active[k], c2, ms2);
    assert i < |s1.emitted| <= |inner2.emitted| <= j;
  }

  /** A run emitted by a per-batch flush stays open, so a below-threshold candidate in a
      later frame emits it again, with the same label and start, if it has lasted long
      enough by then. */
  lemma MissRepeatsBatchFlush(st: State, first: seq<FrameCandidates>, c1: int, ms1: real,
                              frame: int, ms2: real, minDuration: int, k: int)
    requires Valid(st.active)
    requires var s1 := StepBatch(st, first, c1, ms1, minDuration);
             0 <= k < |s1.active| && Lasted(s1.active[k], frame, minDuration)
    ensures var s1 := StepBatch(st, first, c1, ms1, minDuration);
            var s2 := Step(s1, Miss, frame, ms2, minDuration);
            exists i, j :: 0 <= i < j < |s2.emitted|
              && s2.emitted[i].name == s2.emitted[j].name == s1.active[k].name
              && s2.emitted[i].startFrame == s2.emitted[j].startFrame
                 == s1.active[k].target.startFrame
              && s2.emitted[i].endFrame == c1 && s2.emitted[j].endFrame == frame
  {
    var s1 := StepBatch(st, first, c1, ms1, minDuration);
    var inner := ScanBatch(st, first, ms1, minDuration);
    var i := |inner.emitted| + k;
    assert i < |s1.emitted| && s1.emitted[i] == Close(s1.active[k], c1, ms1);
    var fl := Flush(s1.active, frame, ms2, minDuration);
    var closed := Close(s1.active[k], frame, ms2);
    assert closed in fl;
    var m :| 0 <= m < |fl| && fl[m] == closed;
    var s2 := Step(s1, Miss, frame, ms2, minDuration);
    assert s2.emitted == s1.emitted + fl;
    var j := |s1.emitted| + m;
    assert s2.emitted[i] == s1.emitted[i] && s2.emitted[j] == closed;
  }

  // ---------------------------------------------------------------------------------------
  // Bounds: positions never run ahead of the frame being processed, and every score that
  // cleared the threshold keeps the mean above it.

  predicate Above(scores: seq<real>, threshold: real)
  {
    forall j :: 0 <= j < |scores| ==> scores[j] > threshold
  }

  predicate Bounded(st: State, cur: int, threshold: real)
  {
    && (forall k :: 0 <= k < |st.active| ==>
          st.active[k].target.startFrame <= cur && Above(st.active[k].target.scores, threshold))
    && (forall j :: 0 <= j < |st.emitted| ==>
          st.emitted[j].startFrame <= st.emitted[j].endFrame <= cur
          && st.emitted[j].score > threshold)
  }

  lemma StepBounded(st: State, c: Candidate, frame: int, ms: real, minDuration: int, cur: int,
                    threshold: real)
    requires Valid(st.active) && Bounded(st, cur, threshold) && cur <= frame
    requires c.Hit? ==> c.score > threshold
    ensures Bounded(Step(st, c, frame, ms, minDuration), frame, threshold)
  {
    var r := Step(st, c, frame, ms, minDuration);
    if c.Miss? {
      var fl := Flush(st.active, frame, ms, minDuration);
      assert r.emitted == st.emitted + fl;
      forall j | 0 <= j < |fl|
        ensures fl[j].startFrame <= fl[j].endFrame <= frame && fl[j].score > threshold
      {
        assert fl[j] in fl;
        var k :| 0 <= k < |st.active| && Lasted(st.active[k], frame, minDuration)
                 && fl[j] == Close(st.active[k], frame, ms);
        Scores.MeanAbove(st.active[k].target.scores, threshold);
      }
    } else {
      assert r.active == Observe(st.active, c.name, c.score, frame, ms);
      forall k | 0 <= k < |r.active|
        ensures r.active[k].target.startFrame <= frame
        ensures Above(r.active[k].target.scores, threshold)
      {
        if k < |st.active| && st.active[k].name == c.name {
          assert r.active[k].target.scores == st.active[k].target.scores + [c.score];
        }
      }
    }
  }

  lemma {:induction false} ScanFrameBounded(st: State, ranked: seq<Candidate>, frame: int,
                                            ms: real, minDuration: int, cur: int, threshold: real)
    requires Valid(st.active) && Bounded(st, cur, threshold) && cur <= frame
    requires Matcher.HitsAbove(ranked, threshold)
    ensures Bounded(ScanFrame(st, ranked, frame, ms, minDuration), frame, threshold)
    decreases |ranked|
  {
    if |ranked| == 0 {
      BoundedRaise(st, cur, frame, threshold);
    } else {
      StepBounded(st, ranked[0], frame, ms, minDuration, cur, threshold);
      ScanFrameBounded(Step(st, ranked[0], frame, ms, minDuration), ranked[1..], frame, ms,
                       minDuration, frame, threshold);
    }
  }

  lemma BoundedRaise(st: State, cur: int, hi: int, threshold: real)
    requires Bounded(st, cur, threshold) && cur <= hi
    ensures Bounded(st, hi, threshold)
  {
  }

  /** Frame indices of a batch that never go backwards and start at or after `cur`. */
  predicate InOrderFrom(frames: seq<FrameCandidates>, cur: int)
  {
    && (forall k :: 0 <= k < |frames| ==> cur <= frames[k].frame)
    && (forall i, j :: 0 <= i < j < |frames| ==> frames[i].frame <= frames[j].frame)
  }

  lemma {:induction false} ScanBatchBounded(st: State, frames: seq<FrameCandidates>, ms: real,
                                            minDuration: int, cur: int, hi: int, threshold: real)
    requires Valid(st.active) && Bounded(st, cur, threshold) && cur <= hi
    requires InOrderFrom(frames, cur)
    requires forall k :: 0 <= k < |frames| ==> frames[k].frame <= hi
    requires forall k :: 0 <= k < |frames| ==> Matcher.HitsAbove(frames[k].ranked, threshold)
    ensures Bounded(ScanBatch(st, frames, ms, minDuration), hi, threshold)
    decreases |frames|
  {
    if |frames| == 0 {
      BoundedRaise(st, cur, hi, threshold);
    } else {
      var f := frames[0].frame;
      ScanFrameBounded(st, frames[0].ranked, f, ms, minDuration, cur, threshold);
      var next := ScanFrame(st, frames[0].ranked, f, ms, minDuration);
      assert InOrderFrom(frames[1..], f);
      ScanBatchBounded(next, frames[1..], ms, minDuration, f, hi, threshold);
    }
  }

  /** After a batch whose frames all lie before `counter`, every segment so far starts no
      later than it ends, ends no later than `counter`, and scores above the threshold. */
  lemma StepBatchBounded(st: State, frames: seq<FrameCandidates>, counter: int, ms: real,
                         minDuration: int, cur: int, threshold: real)
    requires Valid(st.active) && Bounded(st, cur, threshold) && cur <= counter
    requires InOrderFrom(frames, cur)
    requires forall k :: 0 <= k < |frames| ==> frames[k].frame <= counter
    requires forall k :: 0 <= k < |frames| ==> Matcher.HitsAbove(frames[k].ranked, threshold)
    ensures Bounded(StepBatch(st, frames, counter, ms, minDuration), counter, threshold)
  {
    var inner := ScanBatch(st, frames, ms, minDuration);
    ScanBatchBounded(st, frames, ms, minDuration, cur, counter, threshold);
    var r := StepBatch(st, frames, counter, ms, minDuration);
    forall j | |inner.emitted| <= j < |r.emitted|
      ensures r.emitted[j].startFrame <= r.emitted[j].endFrame <= counter
      ensures r.emitted[j].score > threshold
    {
      var k := j - |inner.emitted|;
      assert r.emitted[j] == Close(inner.active[k], counter, ms);
      Scores.MeanAbove(inner.active[k].target.scores, threshold);
    }
    forall j | 0 <= j < |inner.emitted|
      ensures r.emitted[j] == inner.emitted[j]
    {
      assert r.emitted[..|inner.emitted|][j] == inner.emitted[j];
    }
  }
}
