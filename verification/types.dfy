/** Value types shared by the sampler, the matcher, the segment tracker and the emitter. */
module Types {

  datatype Option<+T> = None | Some(value: T)

  /** Success carries the value; Failure carries the error that aborted the run. */
  datatype Result<+T, +E> = Success(value: T) | Failure(error: E)

  /** A label is whatever string the id-to-label map stores for a neighbour id. */
  type Label = string

  /** Why a detection run is aborted before it produces any output. */
  datatype Error =
    | MissingThreshold         // the required `threshold` option was not given
    | LabelNotFound(id: int)   // a neighbour id above the threshold has no entry in the label map

  /** One ranked neighbour after thresholding: a label with its similarity, or the
      `(None, None)` pair that stands for "below the threshold". */
  datatype Candidate = Hit(name: Label, score: real) | Miss

  /** The ranked candidates of one sampled frame, tagged with the frame's index in the
      whole stream (every frame read counts, sampled or not). */
  datatype FrameCandidates = FrameCandidates(frame: int, ranked: seq<Candidate>)

  /** The accumulator of a label that is being tracked: where its run started and the
      similarity of every sighting so far, in order. The source calls the position
      `start_seconds` although the capture reports milliseconds. */
  datatype Target = Target(startFrame: int, startMs: real, scores: seq<real>)

  /** One key/value pair of the active-target dictionary. */
  datatype Entry = Entry(name: Label, target: Target)

  /** A finished segment, as appended to the output list. */
  datatype Timeframe = Timeframe(
    startFrame: int,
    endFrame: int,
    startMs: real,
    endMs: real,
    name: Label,
    score: real)
}
