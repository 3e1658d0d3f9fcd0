/** The thresholding half of the label matcher: it turns the nearest-neighbour rows the
    index returns into ranked candidate lists. The embedding and the index search that
    produce the rows are outside this model. */
module Matcher {
  import opened Types

  /** One row of the index's answer for one frame: similarities and neighbour ids,
      best match first. */
  datatype Neighbours = Neighbours(scores: seq<real>, ids: seq<int>)

  function Min(a: int, b: int): int { if a <= b then a else b }

  /** A Hit's similarity cleared the threshold; a Miss carries nothing. */
  predicate HitsAbove(ranked: seq<Candidate>, threshold: real)
  {
    forall k :: 0 <= k < |ranked| ==> ranked[k].Hit? ==> ranked[k].score > threshold
  }

  /** Thresholds one row, pairing scores and ids position by position as `zip` does.
      A qualifying id that the label map lacks aborts with the first such id. */
  function LabelRow(d: seq<real>, ids: seq<int>, labelOf: map<int, Label>, threshold: real)
    : (r: Result<seq<Candidate>, Error>)
    ensures r.Success? <==>
              forall k :: 0 <= k < Min(|d|, |ids|) && d[k] > threshold ==> ids[k] in labelOf
    ensures r.Success? ==> |r.value| == Min(|d|, |ids|)
    ensures r.Success? ==> forall k :: 0 <= k < |r.value| ==>
              (r.value[k].Hit? <==> d[k] > threshold)
    ensures r.Success? ==> forall k :: 0 <= k < |r.value| && r.value[k].Hit? ==>
              r.value[k].name == labelOf[ids[k]] && r.value[k].score == d[k]
    ensures r.Failure? ==>
              exists j :: 0 <= j < Min(|d|, |ids|) && d[j] > threshold
                && ids[j] !in labelOf && r.error == LabelNotFound(ids[j])
                && (forall k :: 0 <= k < j && d[k] > threshold ==> ids[k] in labelOf)
  {
    if |d| == 0 || |ids| == 0 then Success([])
    else
      var head := if d[0] > threshold then
                    (if ids[0] in labelOf then Some(Hit(labelOf[ids[0]], d[0])) else None)
                  else Some(Miss);
      match head
      case None => Failure(LabelNotFound(ids[0]))
      case Some(c) =>
        match LabelRow(d[1..], ids[1..], labelOf, threshold)
        case Failure(e) => Failure(e)
        case Success(rest) => Success([c] + rest)
  }

  /** Thresholds every frame's row of a batch; the first failing row aborts the batch. */
  function GetLabel(rows: seq<Neighbours>, labelOf: map<int, Label>, threshold: real)
    : (r: Result<seq<seq<Candidate>>, Error>)
    ensures r.Success? <==> forall k :: 0 <= k < |rows| ==>
              LabelRow(rows[k].scores, rows[k].ids, labelOf, threshold).Success?
    ensures r.Success? ==> |r.value| == |rows| && forall k :: 0 <= k < |rows| ==>
              r.value[k] == LabelRow(rows[k].scores, rows[k].ids, labelOf, threshold).value
    ensures r.Success? ==> forall k :: 0 <= k < |r.value| ==> HitsAbove(r.value[k], threshold)
    ensures r.Failure? ==> r.error.LabelNotFound?
  {
    if |rows| == 0 then Success([])
    else
      assert forall k :: 1 <= k < |rows| ==> rows[k] == rows[1..][k - 1];
      match LabelRow(rows[0].scores, rows[0].ids, labelOf, threshold)
      case Failure(e) => Failure(e)
      case Success(first) =>
        match GetLabel(rows[1..], labelOf, threshold)
        case Failure(e) => Failure(e)
        case Success(rest) =>
          var r := [first] + rest;
          assert forall k :: 1 <= k < |rows| ==> r[k] == rest[k - 1];
          Success(r)
  }

  /** A failed batch reports the error of its first failing row. */
  lemma {:induction false} GetLabelFirstFailure(rows: seq<Neighbours>, labelOf: map<int, Label>,
                                                threshold: real, k: int)
    requires 0 <= k < |rows| && LabelRow(rows[k].scores, rows[k].ids, labelOf, threshold).Failure?
    requires forall j :: 0 <= j < k ==> LabelRow(rows[j].scores, rows[j].ids, labelOf, threshold).Success?
    ensures GetLabel(rows, labelOf, threshold)
            == Failure(LabelRow(rows[k].scores, rows[k].ids, labelOf, threshold).error)
  {
    if k > 0 {
      var tail := rows[1..];
      assert forall j :: 0 <= j < k - 1 ==> tail[j] == rows[j + 1];
      assert tail[k - 1] == rows[k];
      GetLabelFirstFailure(tail, labelOf, threshold, k - 1);
      assert LabelRow(rows[0].scores, rows[0].ids, labelOf, threshold).Success?;
    }
  }
}
