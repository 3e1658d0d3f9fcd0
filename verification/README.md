# Chyron segment detection: a Dafny model

This project models the detection core of a CLAMS app that finds on-screen chyrons in a
video. Here is what the app does:

- It samples every `sampleRatio`-th frame, in batches of ten sampled frames.
- It looks up each sampled frame's ten nearest neighbours in a labelled image index.
- It keeps a score for every neighbour whose similarity clears `threshold`.
- It tracks one run ("active target") per label across frames. A below-threshold candidate
  at any rank closes every open run. Runs that lasted more than `minFrameCount` frames are
  emitted as segments.
- It emits the runs still open at the end of each batch.
- It turns the segments into time-frame annotations, in milliseconds or in frame indices.
  Segments labelled `"None"` are skipped.

The model is pure Dafny functions over immutable data:

| module | file | what it holds |
|---|---|---|
| `Types` | `types.dfy` | results, candidates, targets, segments |
| `Scores` | `scores.dfy` | sum and mean of a run's scores |
| `Matcher` | `matcher.dfy` | thresholding of the index's neighbour rows (`get_label`) |
| `Sampler` | `sampler.dfy` | the frame reads of one batch and of the whole run, with the cutoff |
| `Tracker` | `tracker.dfy` | the active-target state machine, frame by frame and batch by batch |
| `TrackerLemmas` | `tracker_lemmas.dfy` | properties relating several tracker steps |
| `Detection` | `detection.dfy` | option defaults and the driver loop (`run_targetdetection`) |
| `Emitter` | `emitter.dfy` | the annotation filter and unit mapping (`_annotate`) |
| `Intended` | `intended.dfy` | the run with the leftover targets flushed once at the end, and the repeated-run counterexample for the code as written |
| `Scenarios` | `scenarios.dfy` | a worked batch: an in-stream flush followed by the per-batch flush |

### How the model represents the code

- **The active-target dictionary** is a sequence of (label, target) entries with distinct
  labels. Python dictionaries iterate in insertion order, and the flushes emit in that
  order.
- **The index's label map** is keyed by the integer neighbour id. `str(i)` is injective,
  so this loses nothing.
- **A missing key** raises in the source and aborts the run with no output. The model
  returns `Failure(LabelNotFound(id))` instead.
- **Collaborators outside the model** are a `Detection.Video` value with three parts:
  - the video's length in frames;
  - the neighbour row for each frame index, standing in for the embedding and the search;
  - the capture position in milliseconds as a function of the number of frames read.
- **The capture position** is read after the whole batch has been read. So every target
  opened or closed in one batch carries the same position.
- **Sampling does not depend on matching.** A label-map miss aborts the whole run. So the
  model reads all batches first (`Sampler.Schedule`) and folds the tracker over them
  (`Detection.Track`). This gives the same segments as the interleaved loop.

### Modelling choices where the code's intent is open

- **Leftover flush.** The comment above the last block of the loop body says the remaining
  targets are processed "at the end" (app.py:116). The block itself sits inside the batch
  loop, runs after every batch and never clears the dictionary (app.py:117-127). The model
  keeps the code's behaviour in `Tracker.StepBatch` and `Detection.Detect`. The reading the
  comment describes, one flush after the loop, is `Intended.DetectIntended`; see Findings.
- **Unknown neighbour id.** The code indexes the label map directly, so an above-threshold
  id missing from it raises and ends the run (app.py:53). The model makes that a failed
  run, `LabelNotFound`, rather than treating the id like a below-threshold candidate.

## Model

| member | source | states |
|---|---|---|
| Matcher.LabelRow | app.py:49-56 | a row succeeds iff every above-threshold neighbour id is in the label map; then it has one entry per zipped (similarity, id) pair, a Hit exactly where the similarity exceeds the threshold, carrying the mapped label and that similarity; otherwise the error names the first above-threshold id that is missing |
| Matcher.GetLabel | app.py:48-57 | a batch succeeds iff every frame's row succeeds; it then has one candidate list per frame, equal to that row's, and every Hit in it is above the threshold; a failure is a label-map miss |
| Matcher.GetLabelFirstFailure | app.py:48-57 | when row k is the first failing row, the batch fails with row k's error |
| Sampler.ReadFrames | app.py:75-82 | the inner read loop advances the counter by the budget, or up to the video's end if that comes first, and keeps exactly the frames it read that are multiples of the ratio, in increasing order |
| Sampler.ReadBatch | app.py:73-82 | one batch reads at most `BatchSize * ratio` frames and never past the video's end; before the end it reads exactly the full budget or up to the end; it samples exactly the frames it read that are multiples of the ratio, in increasing order, at most ten of them; a non-positive ratio reads nothing |
| Sampler.Schedule | app.py:70-85 | the batch loop reads batch after batch, each exactly the batch read from where the previous one stopped, started while the counter had not passed the cutoff, and sampling at least one frame; it stops either when the counter passes the cutoff or at the first batch that samples nothing, whose reads are still counted; it ends within one batch's budget of the cutoff |
| Sampler.ScheduleInTurn | app.py:70-85 | by index: batch `i` is exactly `ReadBatch` from where batch `i - 1` stopped (the first from the start counter), begun no later than the cutoff |
| Sampler.ScheduleChained | app.py:70-85 | each batch starts where the previous stopped and samples, in increasing order, only frames it read itself, and no batch reads beyond the video's end |
| Sampler.ScheduleRunsToEnd | app.py:70-85 | with a positive ratio, from a multiple of the ratio or from the video's end, the loop stops only at the video's end or past the cutoff: every full batch ends on a multiple of the ratio, so the next one samples a frame |
| Sampler.ScheduleReadsAll | app.py:66-85 | with a positive ratio, a run from frame 0 reads the whole video or stops past the cutoff |
| Sampler.ScheduleSamples | app.py:70-85 | across the whole run the sampled frames are strictly increasing multiples of the ratio, each a frame of the video |
| Scores.MeanBetween | app.py:102 | a run's mean score lies between its smallest and its largest score |
| Scores.MeanAbove | app.py:102 | if every score of a run cleared the threshold, so does its mean |
| Tracker.Close | app.py:102-113 | a flushed target becomes a segment with its label, start frame and start position, ending at the given frame and position, whose score times the number of scores is their sum: the mean |
| Tracker.Observe | app.py:90-98 | a sighting of a new label adds a target at the back, opened at this frame and position with this one score; a known label only gets the score appended, keeping its start and position; labels stay distinct |
| Tracker.ObserveLabels | app.py:90-98 | after a sighting the dictionary's labels are the old ones plus the sighted one |
| Tracker.Flush | app.py:100-114 | the in-stream flush emits exactly the targets that lasted more than `minDuration` frames, each ending at this frame and position with its mean score |
| Tracker.FlushAll | app.py:116-127 | the per-batch flush emits every active target, in dictionary order, ending at the frame counter, with no duration test |
| Tracker.Step | app.py:89-114 | a sighting emits nothing and turns the dictionary into `Observe` of it: the other targets are kept, a known label gets the score appended with its start kept, a new one is opened; a below-threshold candidate appends exactly the in-stream flush of the dictionary and empties it; emitted segments are only ever appended to |
| Tracker.ScanFrame | app.py:89-114 | whatever one frame emits ends at that frame and lasted more than `minDuration` frames |
| Tracker.ScanBatch | app.py:88-114 | whatever the frames of a batch emit lasted more than `minDuration` frames and ends at one of the batch's frames |
| Tracker.StepBatch | app.py:88-127 | after scanning a batch, every still-active target is emitted again, ending at the counter; the dictionary is kept as it was, not cleared |
| TrackerLemmas.ScanFrameConcat | app.py:89-114 | scanning a frame's ranked candidates piecewise is scanning them whole |
| TrackerLemmas.ScanBatchConcat | app.py:88-114 | scanning a batch's frames piecewise is scanning them whole |
| TrackerLemmas.MissFlushesAll | app.py:99-114 | a below-threshold candidate at any rank flushes all active targets, not only one; the dictionary is empty afterwards, and exactly the in-stream flush of the earlier dictionary was appended |
| TrackerLemmas.NoTargetSurvivesMiss | app.py:99-114 | after a frame with a below-threshold candidate, every active target was opened in that frame |
| TrackerLemmas.FlushConcat | app.py:101-113 | the in-stream flush keeps dictionary order: flushing a concatenation is concatenating the flushes |
| TrackerLemmas.FlushLabelsDistinct | app.py:101-113 | the segments of one in-stream flush carry pairwise different labels |
| TrackerLemmas.ScanBatchKeepsRuns | app.py:88-98 | a batch without below-threshold candidates emits nothing and keeps every open run at its position with its start |
| TrackerLemmas.BatchFlushRepeats | app.py:116-127 | a run open after one batch and not interrupted in the next is emitted by both per-batch flushes, with the same label and start and ending at each batch's counter |
| TrackerLemmas.MissRepeatsBatchFlush | app.py:99-127 | a run emitted by a per-batch flush is still open, so a below-threshold candidate as the very next step emits it again with the same label and start, if it has lasted more than `minDuration` frames by then |
| TrackerLemmas.StepBatchBounded | app.py:88-127 | after a batch, every segment starts no later than it ends and ends no later than the counter, and every score is above the threshold |
| Detection.Configure | app.py:60-62 | a missing threshold is an error; a missing sample ratio or minimum duration takes the default of 10; given values are kept |
| Detection.Track | app.py:70-127 | the batch loop only appends segments and keeps the dictionary well formed; it fails, with a label-map miss, exactly when some batch's rows hold an above-threshold id missing from the label map |
| Detection.TrackBounded | app.py:70-127 | through the batch loop, every segment starts no later than it ends and ends within the frames read so far, with a score above the threshold |
| Detection.Detect | app.py:59-128 | every segment starts no later than it ends and ends within one batch's budget of the cutoff; every score exceeds the threshold; the run fails, with a label-map miss, exactly when some batch the loop samples holds an above-threshold id missing from the label map; a non-positive ratio gives no segments |
| Emitter.ToAnnotation | app.py:150-159 | an annotation carries the segment's label as frame type and its score; its start and end are the capture positions iff the unit is "milliseconds", and otherwise the frame indices |
| Emitter.Emit | app.py:144-159 | exactly the segments not labelled "None" become annotations: no "None" annotation, each annotation made from a kept segment, and every kept segment annotated; positions are milliseconds iff the unit is "milliseconds", otherwise frame indices |
| Emitter.EmitConcat | app.py:144-159 | annotations come out in segment order |
| Emitter.EmitKeepsAll | app.py:144-159 | with no "None" label, the annotations correspond one for one, in order, to the segments |
| Emitter.Annotate | app.py:142-160 | it fails exactly when detection fails, with detection's label-map miss; otherwise its annotations are exactly the emitted form of detection's segments; in frame units every annotation starts no later than it ends, within one batch of the cutoff; every score is above the threshold |
| Intended.TrackIntended | app.py:70-114 | the batch loop without the per-batch flush only appends segments and keeps the dictionary well formed; it fails, with a label-map miss, exactly when some batch's rows hold an above-threshold id missing from the label map |
| Intended.DetectIntended | app.py:116-127 | the run with the leftover targets flushed once after the loop fails, with a label-map miss, exactly when the run as written does: when some sampled batch holds an above-threshold id missing from the label map |
| Intended.DetectIntendedUnique | app.py:116-127 | with the leftover targets flushed once after the loop and a non-negative minimum duration, no run (label, start frame) is emitted twice |
| Intended.DetectRepeatsRun | app.py:116-127 | on a video longer than one batch (and with that batch within the cutoff) in which all ten neighbours the index returns for every frame are one entry labelled `name` with similarity 1, the code as written emits the run of `name` from frame 0 twice: ending at `BatchSize * ratio`, after the first batch, and ending at twice that or at the video's end, after the second |
| Intended.ElevenFramesRepeatRun | app.py:116-127 | eleven frames, stride 1, all ten neighbours of every frame labelled "A" with similarity 1: the code as written emits the run of "A" from frame 0 twice |
| Scenarios.ScenarioMiss | app.py:99-114 | a below-threshold candidate at frame 10 closes a run of "A" from frame 0 (10 > 8 frames) with the mean 0.91, and frame 12 opens "B" |
| Scenarios.Scenario | app.py:88-127 | one batch of sightings A@0, A@5, a miss @10 and B@12, with `minDuration` 8, emits A from 0 to 10 and then B from 12 to the counter 13, though B lasted only one frame; B stays active |

## Left out

- Video decoding, CLIP embedding and the index search are outside the model. They are given
  as a per-frame neighbour row.
- The index returning exactly ten neighbours is not fixed; rows may have any length.
- The capture position is a function of the frame counter; the video clock is not
  modelled.
- Loading the index and the label map from files is outside the model.
- Python floats are modelled as exact reals, with no rounding.
- Errors from `int()`/`float()` while parsing the options are not modelled. Option values
  arrive already parsed.
- Label-map entries that are JSON `null` are not modelled. Such an entry would make a
  sighting act like a below-threshold candidate. The label map holds strings only.
- Creating and signing the host document view, and the document lookups, are outside the
  model. Only the selection of segments and the annotation properties are kept.
- The server entry point and argument parsing are outside the model.
- Concurrency is not modelled: the source is single-threaded.
- Detection.Detect: its contract states bounds and exactly when the run fails, not the full
  list of segments. The list itself is fixed by its definition over `Tracker.StepBatch`, whose
  contract and the `TrackerLemmas` lemmas describe it batch by batch. That the list repeats
  runs across batches is stated by `Intended.DetectRepeatsRun`.

## Findings

| source | as written | input that shows it | evidently intended | confidence | as-written member | corrected member |
|---|---|---|---|---|---|---|
| app.py:116-127 | the block that flushes the remaining targets "at the end" is indented into the batch loop. It runs after every batch and does not clear the dictionary, so a run open across batches is emitted once per batch with the same label and start | eleven frames, sample ratio 1, threshold 0.5, all ten neighbours of every frame labelled "A" with similarity 1: "A" from frame 0 is emitted ending at 10, after the first batch, and again ending at 11, after the second | flush the remaining targets once, after the loop ends, at the final counter | not executed; high (the comment at app.py:116 says the remaining targets are processed at the end) | Intended.DetectRepeatsRun | Intended.DetectIntendedUnique |
