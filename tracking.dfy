/** What the evaluation loops see of the outside world: a video read one
    frame per call, a tracker whose answers are given in call order, and the
    scoring rule the loop applies to each tracked frame. */
module Tracking {
  import opened Boxes
  import opened Options
  import opened Metrics

  /** A decoded frame; only its size matters here. */
  datatype Frame = Frame(rows: int, cols: int)

  /** `frame.rows * frame.cols`, the frame area the unbiased metric uses. */
  function FrameArea(f: Frame): int {
    f.rows * f.cols
  }

  /** The result of read call number `k` (0-based) on a video whose
      successive reads return `video`; past its end every read fails. */
  function ReadFrame(video: seq<Option<Frame>>, k: nat): Option<Frame> {
    if k < |video| then video[k] else None
  }

  /** How many frames a loop `for (i = 0; i < n_frames; ++i)` that breaks on
      the first failed read gets. */
  function FramesRead(video: seq<Option<Frame>>, nFrames: nat): (n: nat)
    ensures n <= nFrames && n <= |video|
    ensures forall j :: 0 <= j < n ==> video[j].Some?
    ensures n < nFrames ==> ReadFrame(video, n).None?
  {
    if nFrames == 0 || |video| == 0 || video[0].None? then 0
    else
      var m := FramesRead(video[1..], nFrames - 1);
      assert forall j :: 1 <= j < m + 1 ==> video[j] == video[1..][j - 1];
      1 + m
  }

  /** What `tracker->update(frame, trackingbox)` returns and writes into
      `trackingbox`.  A loop is given the tracker as a function `update(c, m)`:
      the answer to update call number c (0-based), made when m read calls
      have been made on the video, so that the frame it sees is read m - 1. */
  datatype Update = Update(ok: bool, box: Box)

  /** A call on the tracker or on the ROI selector, with the number of read
      calls made on the video before it. */
  datatype Call = Init(seen: nat, box: Box) | Track(seen: nat)

  /** A loop's outcome: the scores and the tracker calls, or the index at which
      `bounds.at` throws `std::out_of_range`. */
  datatype Outcome = Done(results: seq<Option<real>>, calls: seq<Call>) | OutOfRange(index: nat)

  /** Which metric copy a loop calls, whether it calls the unbiased metric,
      and the value it records for a failed update. */
  datatype Scoring = Scoring(variant: Variant, unbiased: bool, sentinel: real)

  /** The metric's value, or None where its divisor is zero (the double
      division would give NaN or an infinity). */
  function Measure(s: Scoring, annot: Box, detect: Box, bg: int): Option<real> {
    if Scorable(s.variant, s.unbiased, annot, detect, bg)
    then Some(Score(s.variant, s.unbiased, annot, detect, bg))
    else None
  }

  /** The entry pushed for one tracked frame. */
  function Entry(s: Scoring, u: Update, annot: Box, bg: int): Option<real> {
    if u.ok then Measure(s, annot, u.box, bg) else Some(s.sentinel)
  }

  /** With the −1.0 sentinel of the unguarded copies, and the plain IoU, an
      entry is −1.0 exactly when the update failed: every score is at least 0. */
  lemma SentinelMarksFailure(u: Update, annot: Box, bg: int)
    requires Valid(annot) && Valid(u.box)
    ensures Entry(Scoring(Unguarded, false, -1.0), u, annot, bg) == Some(-1.0) <==> !u.ok
  {
    if u.ok && UnionArea(annot, u.box) > 0 {
      UnguardedIoUAgrees(annot, u.box);
    }
  }

  /** With the 0.0 sentinel of the guarded copies, a failed update and a
      successful one whose box misses the annotation record the same entry. */
  lemma ZeroSentinelAmbiguous(u: Update, annot: Box, bg: int, unbiased: bool)
    requires Valid(annot) && Valid(u.box) && IntersectionArea(annot, u.box) == 0
    ensures Entry(Scoring(Guarded, unbiased, 0.0), u, annot, bg)
         == Entry(Scoring(Guarded, unbiased, 0.0), u.(ok := false), annot, bg)
  {
  }

  /** A guarded score with a frame at least as large as the union lies in
      [0, 1]. */
  lemma GuardedEntryInUnit(unbiased: bool, u: Update, annot: Box, bg: int)
    requires u.ok && Valid(annot) && Valid(u.box)
    requires bg >= UnionArea(annot, u.box) && bg > IntersectionArea(annot, u.box)
    ensures var e := Entry(Scoring(Guarded, unbiased, 0.0), u, annot, bg);
      e.Some? && 0.0 <= e.value <= 1.0
  {
    if unbiased {
      UnbiasedInUnit(annot, u.box, bg);
    }
  }
}
