/** The per-frame loops: `cutRect` asks for one box on every frame, and
    `calculateIoU` initialises the tracker on frame 0 and scores every later
    frame against its annotation. */
module Evaluator {
  import opened Boxes
  import opened Options
  import opened Tracking

  /** `cutRect(videoname)`: one selected box per frame read, in frame order,
      up to the first failed read; `select(k)` is the box chosen on frame k. */
  method CutRect(video: seq<Option<Frame>>, nFrames: nat, select: nat -> Box) returns (bounds: seq<Box>)
    ensures |bounds| == FramesRead(video, nFrames) <= nFrames
    ensures forall k :: 0 <= k < |bounds| ==> bounds[k] == select(k)
  {
    bounds := [];
    var n := FramesRead(video, nFrames);
    var i := 0;
    while i < nFrames
      invariant 0 <= i <= n
      invariant |bounds| == i
      invariant forall k :: 0 <= k < i ==> bounds[k] == select(k)
    {
      var frame := ReadFrame(video, i);
      if frame.None? {
        break;
      }
      bounds := bounds + [select(i)];
      i := i + 1;
    }
  }

  /** The entries for frames 1 .. m: frame k + 1 is scored with the answer of
      update call k, made after k + 2 reads, against its annotation. */
  function Scores(s: Scoring, update: (nat, nat) -> Update, bounds: seq<Box>, bg: int, m: nat): (r: seq<Option<real>>)
    requires m < |bounds|
    ensures |r| == m
  {
    if m == 0 then []
    else Scores(s, update, bounds, bg, m - 1) + [Entry(s, update(m - 1, m + 1), bounds[m], bg)]
  }

  /** The tracker calls over frames 0 .. m: `init` on frame 0, then one
      `update` per frame, each right after that frame's read. */
  function Calls(init: Box, m: nat): (r: seq<Call>)
    ensures |r| == m + 1
  {
    if m == 0 then [Init(1, init)] else Calls(init, m - 1) + [Track(m + 1)]
  }

  /** Entry k scores frame k + 1 with update call k. */
  lemma {:induction false} ScoresAt(s: Scoring, update: (nat, nat) -> Update, bounds: seq<Box>, bg: int, m: nat, k: nat)
    requires k < m < |bounds|
    ensures Scores(s, update, bounds, bg, m)[k] == Entry(s, update(k, k + 2), bounds[k + 1], bg)
  {
    if k < m - 1 {
      ScoresAt(s, update, bounds, bg, m - 1, k);
    }
  }

  /** Call 0 is `init` with the first annotation, every later call an `update`
      made right after read k + 1. */
  lemma {:induction false} CallsAt(init: Box, m: nat, k: nat)
    requires k <= m
    ensures Calls(init, m)[k] == if k == 0 then Init(1, init) else Track(k + 1)
  {
    if k < m {
      CallsAt(init, m - 1, k);
    }
  }

  /** What `calculateIoU` returns, in closed form: `bounds.at(0)` throws on
      no annotations, `bounds.at(i)` on the first frame read beyond the
      annotations; otherwise one entry per frame read after the first. */
  function PerFrame(s: Scoring, video: seq<Option<Frame>>, nFrames: nat, update: (nat, nat) -> Update,
                    bounds: seq<Box>): Outcome
  {
    var n := FramesRead(video, nFrames);
    if |bounds| == 0 then OutOfRange(0)
    else if n > |bounds| then OutOfRange(|bounds|)
    else if n == 0 then Done([], [])
    else Done(Scores(s, update, bounds, FrameArea(video[0].value), n - 1), Calls(bounds[0], n - 1))
  }

  /** `calculateIoU(videoname, tracker, bounds, unbiased)`.  eval.cpp and
      test.cpp use the guarded metrics with sentinel 0.0, detect_eval.cpp
      the unguarded ones with −1.0. */
  method CalculateIoU(s: Scoring, video: seq<Option<Frame>>, nFrames: nat, update: (nat, nat) -> Update,
                      bounds: seq<Box>) returns (out: Outcome)
    ensures out == PerFrame(s, video, nFrames, update, bounds)
  {
    if |bounds| == 0 {
      return OutOfRange(0);
    }
    var n := FramesRead(video, nFrames);
    var initbox := bounds[0];
    var trackingbox := initbox;
    var area := 0;
    var results: seq<Option<real>> := [];
    var calls: seq<Call> := [];
    var i := 0;
    while i < nFrames
      invariant 0 <= i <= n && i <= |bounds|
      invariant i > 0 ==> area == FrameArea(video[0].value)
      invariant i > 0 ==> results == Scores(s, update, bounds, area, i - 1)
      invariant i > 0 ==> calls == Calls(initbox, i - 1)
      invariant i == 0 ==> results == [] && calls == []
    {
      var frame := ReadFrame(video, i);
      if frame.None? {
        break;
      }
      if i >= |bounds| {
        return OutOfRange(i);
      }
      var annotbox := bounds[i];
      if i == 0 {
        calls := calls + [Init(i + 1, initbox)];
        area := FrameArea(frame.value);
      } else {
        var u := update(i - 1, i + 1);
        calls := calls + [Track(i + 1)];
        trackingbox := u.box;
        var acc := if u.ok then Measure(s, annotbox, trackingbox, area) else Some(s.sentinel);
        results := results + [acc];
      }
      i := i + 1;
    }
    if i == 0 {
      return Done([], []);
    }
    return Done(results, calls);
  }

  /** Every run that completes has one entry per frame read after the first,
      calls `init` exactly once, first and on frame 0 with `bounds[0]`, and
      calls `update` once on each later frame. */
  lemma PerFrameShape(s: Scoring, video: seq<Option<Frame>>, nFrames: nat, update: (nat, nat) -> Update,
                      bounds: seq<Box>)
    requires PerFrame(s, video, nFrames, update, bounds).Done?
    ensures var out := PerFrame(s, video, nFrames, update, bounds);
      var n := FramesRead(video, nFrames);
      && |out.results| == (if n == 0 then 0 else n - 1)
      && (|out.results| < nFrames || nFrames == 0)
      && (n > 0 ==> out.calls[0] == Init(1, bounds[0]))
      && (forall k :: 0 < k < |out.calls| ==> out.calls[k] == Track(k + 1))
      && (forall k :: 0 <= k < |out.results| ==>
            out.results[k] == Entry(s, update(k, k + 2), bounds[k + 1], FrameArea(video[0].value)))
  {
    var out := PerFrame(s, video, nFrames, update, bounds);
    var n := FramesRead(video, nFrames);
    if n > 0 {
      forall k | 0 <= k < |out.calls|
        ensures out.calls[k] == if k == 0 then Init(1, bounds[0]) else Track(k + 1)
      {
        CallsAt(bounds[0], n - 1, k);
      }
      forall k | 0 <= k < |out.results|
        ensures out.results[k] == Entry(s, update(k, k + 2), bounds[k + 1], FrameArea(video[0].value))
      {
        ScoresAt(s, update, bounds, FrameArea(video[0].value), n - 1, k);
      }
    }
  }

  /** A run fails exactly when there is no annotation at all, or more frames
      are read than there are annotations. */
  lemma PerFrameInRange(s: Scoring, video: seq<Option<Frame>>, nFrames: nat, update: (nat, nat) -> Update,
                        bounds: seq<Box>)
    ensures PerFrame(s, video, nFrames, update, bounds).Done?
        <==> 0 < |bounds| && FramesRead(video, nFrames) <= |bounds|
  {
  }

  /** Annotating a video with `cutRect` and then evaluating on the same video
      never runs out of annotations, and every annotated frame but the first
      is scored. */
  lemma CutThenEvaluate(s: Scoring, video: seq<Option<Frame>>, nFrames: nat, update: (nat, nat) -> Update,
                        bounds: seq<Box>)
    requires |bounds| == FramesRead(video, nFrames) > 0
    ensures var out := PerFrame(s, video, nFrames, update, bounds);
      out.Done? && |out.results| == |bounds| - 1
  {
  }
}
