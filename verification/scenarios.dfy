/** A worked example of one batch: a label seen twice, a below-threshold candidate, then a
    second label that is still open when the batch ends. */
module Scenarios {
  import opened Types
  import opened Tracker
  import TrackerLemmas
  import Scores

  /** Frames 0 and 5 both see "A": one target, opened at frame 0, holding both scores. */
  lemma ScenarioOpen()
    ensures ScanBatch(State([], []), [FrameCandidates(0, [Hit("A", 0.9)]),
                                      FrameCandidates(5, [Hit("A", 0.92)])], 500.0, 8)
            == State([Entry("A", Target(0, 500.0, [0.9, 0.92]))], [])
  {
    var a1 := Entry("A", Target(0, 500.0, [0.9]));
    var s1 := ScanFrame(State([], []), [Hit("A", 0.9)], 0, 500.0, 8);
    assert s1 == State([a1], []);
    assert Observe([a1], "A", 0.92, 5, 500.0) == [Entry("A", Target(0, 500.0, [0.9, 0.92]))] by {
      assert [a1][1..] == [];
      assert [0.9] + [0.92] == [0.9, 0.92];
    }
  }

  /** Frame 10's below-threshold candidate closes "A" (10 - 0 > 8) with the mean score;
      frame 12 opens "B". */
  lemma ScenarioMiss()
    ensures ScanBatch(State([Entry("A", Target(0, 500.0, [0.9, 0.92]))], []),
                      [FrameCandidates(10, [Miss]), FrameCandidates(12, [Hit("B", 0.91)])], 500.0, 8)
            == State([Entry("B", Target(12, 500.0, [0.91]))],
                     [Timeframe(0, 10, 500.0, 500.0, "A", 0.91)])
  {
    assert Scores.Mean([0.9, 0.92]) == 0.91 by {
      assert Scores.Sum([0.9]) == 0.9 by { assert [0.9][..0] == []; }
      assert [0.9, 0.92][..1] == [0.9];
    }
  }

  /** The whole batch, read up to counter 13 at position 500 ms: "A" is emitted once by the
      in-stream flush, and "B" by the per-batch flush with no duration test, though it lasted
      only one frame; "B" stays in the dictionary. */
  lemma Scenario()
    ensures var frames := [FrameCandidates(0, [Hit("A", 0.9)]), FrameCandidates(5, [Hit("A", 0.92)]),
                           FrameCandidates(10, [Miss]), FrameCandidates(12, [Hit("B", 0.91)])];
            StepBatch(State([], []), frames, 13, 500.0, 8)
            == State([Entry("B", Target(12, 500.0, [0.91]))],
                     [Timeframe(0, 10, 500.0, 500.0, "A", 0.91),
                      Timeframe(12, 13, 500.0, 500.0, "B", 0.91)])
  {
    var first := [FrameCandidates(0, [Hit("A", 0.9)]), FrameCandidates(5, [Hit("A", 0.92)])];
    var second := [FrameCandidates(10, [Miss]), FrameCandidates(12, [Hit("B", 0.91)])];
    ScenarioOpen();
    ScenarioMiss();
    TrackerLemmas.ScanBatchConcat(State([], []), first, second, 500.0, 8);
    assert first + second == [FrameCandidates(0, [Hit("A", 0.9)]), FrameCandidates(5, [Hit("A", 0.92)]),
                           FrameCandidates(10, [Miss]), FrameCandidates(12, [Hit("B", 0.91)])];
    assert Scores.Mean([0.91]) == 0.91 by { assert [0.91][..0] == []; }
  }
}
