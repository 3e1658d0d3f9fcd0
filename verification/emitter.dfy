/** The annotation step: it turns the detector's segments into time-frame annotations in the
    caller's unit, skipping segments labelled with the string "None". Building the view and
    the annotation objects of the host document is outside this model; only the selection
    and the property values are kept. */
module Emitter {
  import opened Types
  import Sampler
  import Detection

  /** The label string that marks a segment as "no chyron". */
  const NoneLabel: string := "None"
  /** The unit value that selects positions in milliseconds; any other selects frames. */
  const Milliseconds: string := "milliseconds"

  datatype TimePoint = Millis(ms: real) | FrameIndex(frame: int)

  /** The properties one time-frame annotation receives. */
  datatype Annotation = Annotation(start: TimePoint, end: TimePoint, frameType: Label, score: real)

  /** One segment's annotation: its label becomes the frame type and its score is kept; the
      positions are the capture positions in milliseconds when the unit says so, and the
      frame indices otherwise. */
  function ToAnnotation(tf: Timeframe, unit: string): (r: Annotation)
    ensures r.frameType == tf.name && r.score == tf.score
    ensures r.start.Millis? <==> unit == Milliseconds
    ensures r.end.Millis? <==> unit == Milliseconds
    ensures unit == Milliseconds ==> r.start.ms == tf.startMs && r.end.ms == tf.endMs
    ensures unit != Milliseconds ==> r.start.frame == tf.startFrame && r.end.frame == tf.endFrame
  {
    if unit == Milliseconds then
      Annotation(Millis(tf.startMs), Millis(tf.endMs), tf.name, tf.score)
    else
      Annotation(FrameIndex(tf.startFrame), FrameIndex(tf.endFrame), tf.name, tf.score)
  }

  /** The annotations for a list of segments: exactly the segments not labelled "None", each
      converted, with positions taken from the unit the caller chose. */
  function Emit(tfs: seq<Timeframe>, unit: string): (r: seq<Annotation>)
    ensures |r| <= |tfs|
    ensures forall j :: 0 <= j < |r| ==> r[j].frameType != NoneLabel
    ensures forall j :: 0 <= j < |r| ==>
              exists k :: 0 <= k < |tfs| && tfs[k].name != NoneLabel
                && r[j] == ToAnnotation(tfs[k], unit)
    ensures forall k :: 0 <= k < |tfs| && tfs[k].name != NoneLabel ==>
              ToAnnotation(tfs[k], unit) in r
    ensures unit == Milliseconds ==> forall j :: 0 <= j < |r| ==>
              r[j].start.Millis? && r[j].end.Millis?
    ensures unit != Milliseconds ==> forall j :: 0 <= j < |r| ==>
              r[j].start.FrameIndex? && r[j].end.FrameIndex?
  {
    if |tfs| == 0 then []
    else
      var rest := Emit(tfs[1..], unit);
      assert forall k :: 1 <= k < |tfs| ==> tfs[k] == tfs[1..][k - 1];
      assert forall j :: 0 <= j < |rest| ==>
               exists k :: 0 <= k < |tfs| && tfs[k].name != NoneLabel
                 && rest[j] == ToAnnotation(tfs[k], unit) by {
        forall j | 0 <= j < |rest|
          ensures exists k :: 0 <= k < |tfs| && tfs[k].name != NoneLabel
                    && rest[j] == ToAnnotation(tfs[k], unit)
        {
          var k :| 0 <= k < |tfs[1..]| && tfs[1..][k].name != NoneLabel
                   && rest[j] == ToAnnotation(tfs[1..][k], unit);
          assert tfs[k + 1] == tfs[1..][k];
        }
      }
      if tfs[0].name == NoneLabel then rest else [ToAnnotation(tfs[0], unit)] + rest
  }

  /** Annotations come out in segment order: emitting a concatenation is concatenating
      the emissions. */
  lemma {:induction false} EmitConcat(a: seq<Timeframe>, b: seq<Timeframe>, unit: string)
    ensures Emit(a + b, unit) == Emit(a, unit) + Emit(b, unit)
  {
    if |a| == 0 {
      assert a + b == b;
    } else {
      assert (a + b)[1..] == a[1..] + b;
      EmitConcat(a[1..], b, unit);
    }
  }

  /** With no "None" label among the segments, every segment is annotated, one for one. */
  lemma {:induction false} EmitKeepsAll(tfs: seq<Timeframe>, unit: string)
    requires forall k :: 0 <= k < |tfs| ==> tfs[k].name != NoneLabel
    ensures |Emit(tfs, unit)| == |tfs|
    ensures forall k :: 0 <= k < |tfs| ==> Emit(tfs, unit)[k] == ToAnnotation(tfs[k], unit)
  {
    if |tfs| > 0 {
      EmitKeepsAll(tfs[1..], unit);
    }
  }

  /** Bounds that hold of every segment hold of every annotation made from them. */
  lemma EmitBounded(tfs: seq<Timeframe>, unit: string, threshold: real, hi: int)
    requires forall k :: 0 <= k < |tfs| ==>
               tfs[k].startFrame <= tfs[k].endFrame <= hi && tfs[k].score > threshold
    ensures var r := Emit(tfs, unit);
            && (forall j :: 0 <= j < |r| ==> r[j].score > threshold)
            && (unit != Milliseconds ==> forall j :: 0 <= j < |r| ==>
                  r[j].start.frame <= r[j].end.frame <= hi)
  {
    var r := Emit(tfs, unit);
    forall j | 0 <= j < |r|
      ensures r[j].score > threshold
      ensures unit != Milliseconds ==> r[j].start.frame <= r[j].end.frame <= hi
    {
      var k :| 0 <= k < |tfs| && tfs[k].name != NoneLabel && r[j] == ToAnnotation(tfs[k], unit);
    }
  }

  /** The annotation entry point: run detection on the video, then annotate its segments.
      It fails exactly when detection fails; otherwise its annotations are those of the
      detected segments. In frame units every annotation starts no later than it ends and ends within one
      batch of the cutoff; every score is above the threshold. */
  function Annotate(cfg: Detection.Config, video: Detection.Video, labelOf: map<int, Label>,
                    unit: string): (r: Result<seq<Annotation>, Error>)
    ensures r.Success? ==> forall j :: 0 <= j < |r.value| ==> r.value[j].score > cfg.threshold
    ensures r.Success? && unit != Milliseconds ==> forall j :: 0 <= j < |r.value| ==>
              && r.value[j].start.FrameIndex? && r.value[j].end.FrameIndex?
              && r.value[j].start.frame <= r.value[j].end.frame
              && r.value[j].end.frame <= Sampler.CutoffFrames + Sampler.ReadBudget(cfg.sampleRatio)
    ensures r.Failure? ==> r.error.LabelNotFound?
    ensures r.Failure? <==> Detection.Detect(cfg, video, labelOf).Failure?
    ensures r.Success? ==> r.value == Emit(Detection.Detect(cfg, video, labelOf).value, unit)
  {
    match Detection.Detect(cfg, video, labelOf)
    case Failure(e) => Failure(e)
    case Success(tfs) =>
      EmitBounded(tfs, unit, cfg.threshold,
                  Sampler.CutoffFrames + Sampler.ReadBudget(cfg.sampleRatio));
      Success(Emit(tfs, unit))
  }
}
