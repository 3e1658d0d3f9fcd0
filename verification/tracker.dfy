/** The active-target state machine: it folds over every ranked candidate of every sampled
    frame of a batch, opening and extending one target per label, flushing all of them at a
    below-threshold candidate, and flushing the survivors again after each batch. */
module Tracker {
  import opened Types
  import Scores

  /** At most one target per label: the active targets are a dictionary. */
  predicate Distinct(active: seq<Entry>)
  {
    forall i, j :: 0 <= i < j < |active| ==> active[i].name != active[j].name
  }

  /** Every target has at least one score, so its mean is defined. */
  predicate Scored(active: seq<Entry>)
  {
    forall k :: 0 <= k < |active| ==> |active[k].target.scores| > 0
  }

  predicate Valid(active: seq<Entry>)
  {
    Distinct(active) && Scored(active)
  }

  function Labels(active: seq<Entry>): set<Label>
  {
    set k | 0 <= k < |active| :: active[k].name
  }

  lemma LabelsCons(e: Entry, rest: seq<Entry>)
    ensures Labels([e] + rest) == {e.name} + Labels(rest)
  {
    var s := [e] + rest;
    forall x | x in Labels(s) ensures x in {e.name} + Labels(rest) {
      var k :| 0 <= k < |s| && s[k].name == x;
      if k > 0 {
        assert rest[k - 1].name == x;
      }
    }
    forall x | x in Labels(rest) ensures x in Labels(s) {
      var k :| 0 <= k < |rest| && rest[k].name == x;
      assert s[k + 1].name == x;
    }
    assert s[0].name == e.name;
  }

  /** The segment a target becomes when it is flushed at `endFrame`. */
  function Close(e: Entry, endFrame: int, endMs: real): (r: Timeframe)
    requires |e.target.scores| > 0
    ensures r.name == e.name && r.startFrame == e.target.startFrame
    ensures r.startMs == e.target.startMs
    ensures r.endFrame == endFrame && r.endMs == endMs
    ensures r.score * (|e.target.scores| as real) == Scores.Sum(e.target.scores)
  {
    Timeframe(e.target.startFrame, endFrame, e.target.startMs, endMs, e.name,
              Scores.Mean(e.target.scores))
  }

  /** The in-stream duration test: strictly longer than `minDuration` frames. */
  predicate Lasted(e: Entry, frame: int, minDuration: int)
  {
    frame - e.target.startFrame > minDuration
  }

  function Extend(e: Entry, score: real): Entry
  {
    Entry(e.name, Target(e.target.startFrame, e.target.startMs, e.target.scores + [score]))
  }

  /** A sighting of `name`: a new label opens a target at the back of the dictionary;
      a known one only gets `score` appended, keeping its start and its position. */
  function Observe(active: seq<Entry>, name: Label, score: real, frame: int, ms: real)
    : (r: seq<Entry>)
    requires Distinct(active)
    ensures Distinct(r)
    ensures Scored(active) ==> Scored(r)
    ensures name !in Labels(active) ==> r == active + [Entry(name, Target(frame, ms, [score]))]
    ensures name in Labels(active) ==> |r| == |active|
    ensures forall k :: 0 <= k < |active| ==>
              r[k] == (if active[k].name == name then Extend(active[k], score) else active[k])
  {
    if |active| == 0 then [Entry(name, Target(frame, ms, [score]))]
    else if active[0].name == name then
      assert forall k :: 0 < k < |active| ==> active[k].name != name;
      [Extend(active[0], score)] + active[1..]
    else
      assert Labels(active) == {active[0].name} + Labels(active[1..]) by {
        LabelsCons(active[0], active[1..]);
        assert active == [active[0]] + active[1..];
      }
      [active[0]] + Observe(active[1..], name, score, frame, ms)
  }

  /** A sighting adds its label to the dictionary's keys and removes none. */
  lemma {:induction false} ObserveLabels(active: seq<Entry>, name: Label, score: real, frame: int,
                                         ms: real)
    requires Distinct(active)
    ensures Labels(Observe(active, name, score, frame, ms)) == Labels(active) + {name}
  {
    var r := Observe(active, name, score, frame, ms);
    if |active| == 0 {
      assert r[0].name in Labels(r);
    } else {
      assert active == [active[0]] + active[1..];
      LabelsCons(active[0], active[1..]);
      if active[0].name == name {
        assert r == [Extend(active[0], score)] + active[1..];
        LabelsCons(Extend(active[0], score), active[1..]);
      } else {
        var rest := Observe(active[1..], name, score, frame, ms);
        ObserveLabels(active[1..], name, score, frame, ms);
        assert r == [active[0]] + rest;
        LabelsCons(active[0], rest);
      }
    }
  }

  /** The in-stream flush at a below-threshold candidate of frame `frame`: every target that
      lasted more than `minDuration` frames becomes a segment ending at `frame`, in
      dictionary order; the others are dropped. */
  function Flush(active: seq<Entry>, frame: int, ms: real, minDuration: int)
    : (r: seq<Timeframe>)
    requires Scored(active)
    ensures |r| <= |active|
    ensures forall j :: 0 <= j < |r| ==>
              r[j].endFrame == frame && r[j].endMs == ms && frame - r[j].startFrame > minDuration
    ensures forall k :: 0 <= k < |active| && Lasted(active[k], frame, minDuration) ==>
              Close(active[k], frame, ms) in r
    ensures forall tf :: tf in r ==>
              exists k :: 0 <= k < |active| && Lasted(active[k], frame, minDuration)
                && tf == Close(active[k], frame, ms)
  {
    if |active| == 0 then []
    else
      var rest := Flush(active[1..], frame, ms, minDuration);
      assert forall k :: 1 <= k < |active| ==> active[k] == active[1..][k - 1];
      if Lasted(active[0], frame, minDuration) then [Close(active[0], frame, ms)] + rest
      else rest
  }

  /** The per-batch flush: every target still active becomes a segment ending at the
      batch's frame counter, with no duration test. */
  function FlushAll(active: seq<Entry>, counter: int, ms: real): (r: seq<Timeframe>)
    requires Scored(active)
    ensures |r| == |active|
    ensures forall k :: 0 <= k < |active| ==> r[k] == Close(active[k], counter, ms)
  {
    if |active| == 0 then []
    else [Close(active[0], counter, ms)] + FlushAll(active[1..], counter, ms)
  }

  /** The tracker's state: the active-target dictionary and the segments emitted so far. */
  datatype State = State(active: seq<Entry>, emitted: seq<Timeframe>)

  /** One ranked candidate of the frame with index `frame`. */
  function Step(st: State, c: Candidate, frame: int, ms: real, minDuration: int): (r: State)
    requires Valid(st.active)
    ensures Valid(r.active)
    ensures st.emitted <= r.emitted
    ensures c.Miss? ==> r.active == []
    ensures c.Hit? ==> r.emitted == st.emitted && c.name in Labels(r.active)
    ensures c.Hit? ==> r.active == Observe(st.active, c.name, c.score, frame, ms)
    ensures c.Miss? ==> r.emitted == st.emitted + Flush(st.active, frame, ms, minDuration)
  {
    match c
    case Hit(name, score) =>
      ObserveLabels(st.active, name, score, frame, ms);
      State(Observe(st.active, name, score, frame, ms), st.emitted)
    case Miss => State([], st.emitted + Flush(st.active, frame, ms, minDuration))
  }

  /** All ranked candidates of one frame, best first. Whatever it emits is an in-stream
      flush at this frame, so it ends here and passed the duration test. */
  function ScanFrame(st: State, ranked: seq<Candidate>, frame: int, ms: real, minDuration: int)
    : (r: State)
    requires Valid(st.active)
    ensures Valid(r.active)
    ensures st.emitted <= r.emitted
    ensures forall j :: |st.emitted| <= j < |r.emitted| ==>
              r.emitted[j].endFrame == frame && frame - r.emitted[j].startFrame > minDuration
    decreases |ranked|
  {
    if |ranked| == 0 then st
    else
      var next := Step(st, ranked[0], frame, ms, minDuration);
      assert ranked[0].Miss? ==>
        next.emitted == st.emitted + Flush(st.active, frame, ms, minDuration);
      ScanFrame(next, ranked[1..], frame, ms, minDuration)
  }

  /** Every sampled frame of a batch, in order. */
  function ScanBatch(st: State, frames: seq<FrameCandidates>, ms: real, minDuration: int)
    : (r: State)
    requires Valid(st.active)
    ensures Valid(r.active)
    ensures st.emitted <= r.emitted
    ensures forall j :: |st.emitted| <= j < |r.emitted| ==>
              r.emitted[j].endFrame - r.emitted[j].startFrame > minDuration
              && exists k :: 0 <= k < |frames| && r.emitted[j].endFrame == frames[k].frame
    decreases |frames|
  {
    if |frames| == 0 then st
    else
      var next := ScanFrame(st, frames[0].ranked, frames[0].frame, ms, minDuration);
      var r := ScanBatch(next, frames[1..], ms, minDuration);
      assert forall k :: 1 <= k < |frames| ==> frames[k] == frames[1..][k - 1];
      r
  }

  /** One batch: scan its frames, then emit every target still active, ending at the frame
      counter. The dictionary is not cleared, so a target that survives the batch is
      emitted again by later batches. */
  function StepBatch(st: State, frames: seq<FrameCandidates>, counter: int, ms: real,
                     minDuration: int): (r: State)
    requires Valid(st.active)
    ensures Valid(r.active)
    ensures st.emitted <= r.emitted
    ensures var inner := ScanBatch(st, frames, ms, minDuration);
            && r.active == inner.active
            && |r.emitted| == |inner.emitted| + |inner.active|
            && r.emitted[..|inner.emitted|] == inner.emitted
            && forall k :: 0 <= k < |inner.active| ==>
                 r.emitted[|inner.emitted| + k] == Close(inner.active[k], counter, ms)
  {
    var inner := ScanBatch(st, frames, ms, minDuration);
    if |inner.active| > 0 then
      State(inner.active, inner.emitted + FlushAll(inner.active, counter, ms))
    else inner
  }
}
