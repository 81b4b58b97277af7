/** The interval-sampling evaluator: the video is cut into `n` periods of
    `n_frames / n` frames; `cutRect` asks for a box on the first frame and
    on one extra frame after each period, and `calculateIoU` tracks through
    each period and scores once at its end. */
module IntervalEvaluator {
  import opened Boxes
  import opened Options
  import opened Tracking

  /** The first m read calls all succeed. */
  predicate ReadsOk(video: seq<Option<Frame>>, m: nat) {
    forall k :: 0 <= k < m ==> ReadFrame(video, k).Some?
  }

  // ---------------------------------------------------------------------
  // cutRect(videoname, n)

  /** The read calls made so far and the boxes selected so far. */
  datatype Cut = Cut(seen: nat, bounds: seq<Box>)

  /** The inner loop of period i from iteration j on: pass frames, selecting
      a box on the very first one; a failed read leaves the inner loop. */
  function CutSkip(video: seq<Option<Frame>>, select: nat -> Box, iv: nat, i: nat, j: nat, c: Cut): Cut
    decreases iv - j
  {
    if j >= iv then c
    else if ReadFrame(video, c.seen).None? then c.(seen := c.seen + 1)
    else
      var b := if i == 0 && j == 0 then c.bounds + [select(c.seen)] else c.bounds;
      CutSkip(video, select, iv, i, j + 1, Cut(c.seen + 1, b))
  }

  /** The outer loop from period i on: after the inner loop, one more read
      whose frame gets a box; a failed read there ends the loop. */
  function CutPeriods(video: seq<Option<Frame>>, select: nat -> Box, n: nat, iv: nat, i: nat, c: Cut): seq<Box>
    decreases n - i
  {
    if i >= n then c.bounds
    else
      var c1 := CutSkip(video, select, iv, i, 0, c);
      if ReadFrame(video, c1.seen).None? then c1.bounds
      else CutPeriods(video, select, n, iv, i + 1, Cut(c1.seen + 1, c1.bounds + [select(c1.seen)]))
  }

  /** The boxes `cutRect(videoname, n)` returns; `select(k)` is the box
      chosen on the frame of read call k. */
  function CutIntervals(video: seq<Option<Frame>>, nFrames: nat, n: nat, select: nat -> Box): seq<Box>
    requires n > 0
  {
    CutPeriods(video, select, n, nFrames / n, 0, Cut(0, []))
  }

  method CutRectInterval(video: seq<Option<Frame>>, nFrames: nat, n: nat, select: nat -> Box)
    returns (bounds: seq<Box>)
    requires n > 0
    ensures bounds == CutIntervals(video, nFrames, n, select)
  {
    bounds := [];
    var intervals := nFrames / n;
    var seen := 0;
    var i := 0;
    while i < n
      invariant 0 <= i <= n
      invariant CutIntervals(video, nFrames, n, select) == CutPeriods(video, select, n, intervals, i, Cut(seen, bounds))
    {
      ghost var start := Cut(seen, bounds);
      var j := 0;
      while j < intervals
        invariant 0 <= j <= intervals
        invariant CutSkip(video, select, intervals, i, 0, start) == CutSkip(video, select, intervals, i, j, Cut(seen, bounds))
      {
        var frame := ReadFrame(video, seen);
        seen := seen + 1;
        if frame.None? {
          break;
        }
        if i == 0 && j == 0 {
          bounds := bounds + [select(seen - 1)];
        }
        j := j + 1;
      }
      assert CutSkip(video, select, intervals, i, 0, start) == Cut(seen, bounds);
      var frame := ReadFrame(video, seen);
      seen := seen + 1;
      if frame.None? {
        break;
      }
      bounds := bounds + [select(seen - 1)];
      i := i + 1;
    }
  }

  /** The inner loop adds a box only on the first frame of the video. */
  lemma {:induction false} CutSkipAdds(video: seq<Option<Frame>>, select: nat -> Box, iv: nat, i: nat, j: nat, c: Cut)
    ensures var r := CutSkip(video, select, iv, i, j, c);
      r.bounds == c.bounds || (i == 0 && j == 0 && r.bounds == c.bounds + [select(c.seen)])
    decreases iv - j
  {
    if j < iv && ReadFrame(video, c.seen).Some? {
      var b := if i == 0 && j == 0 then c.bounds + [select(c.seen)] else c.bounds;
      CutSkipAdds(video, select, iv, i, j + 1, Cut(c.seen + 1, b));
    }
  }

  /** From period i on, the outer loop adds at most one box per period, plus
      the first frame's box in period 0, and keeps the boxes it has. */
  lemma {:induction false} CutPeriodsAtMost(video: seq<Option<Frame>>, select: nat -> Box, n: nat, iv: nat, i: nat, c: Cut)
    requires i <= n
    ensures var out := CutPeriods(video, select, n, iv, i, c);
      && |c.bounds| <= |out| <= |c.bounds| + (n - i) + (if i == 0 then 1 else 0)
      && out[..|c.bounds|] == c.bounds
    decreases n - i
  {
    if i < n {
      var c1 := CutSkip(video, select, iv, i, 0, c);
      CutSkipAdds(video, select, iv, i, 0, c);
      if ReadFrame(video, c1.seen).Some? {
        var c2 := Cut(c1.seen + 1, c1.bounds + [select(c1.seen)]);
        CutPeriodsAtMost(video, select, n, iv, i + 1, c2);
        assert c2.bounds[..|c.bounds|] == c.bounds;
      }
    }
  }

  /** `cutRect(videoname, n)` returns at most n + 1 boxes. */
  lemma CutIntervalsAtMost(video: seq<Option<Frame>>, nFrames: nat, n: nat, select: nat -> Box)
    requires n > 0
    ensures |CutIntervals(video, nFrames, n, select)| <= n + 1
  {
    CutPeriodsAtMost(video, select, n, nFrames / n, 0, Cut(0, []));
  }

  /** With every read of the inner loop succeeding, it makes all its reads
      and selects on the first frame only. */
  lemma {:induction false} CutSkipAllRead(video: seq<Option<Frame>>, select: nat -> Box, iv: nat, i: nat, j: nat, c: Cut)
    requires j <= iv
    requires forall k :: c.seen <= k < c.seen + (iv - j) ==> ReadFrame(video, k).Some?
    ensures var r := CutSkip(video, select, iv, i, j, c);
      && r.seen == c.seen + (iv - j)
      && r.bounds == if i == 0 && j == 0 && j < iv then c.bounds + [select(c.seen)] else c.bounds
    decreases iv - j
  {
    if j < iv {
      var b := if i == 0 && j == 0 then c.bounds + [select(c.seen)] else c.bounds;
      CutSkipAllRead(video, select, iv, i, j + 1, Cut(c.seen + 1, b));
    }
  }

  /** The read call that period k's extra frame comes from, when all reads
      succeed: k full periods of iv + 1 reads, then the iv passed frames. */
  function ExtraRead(iv: nat, k: nat): nat {
    k * (iv + 1) + iv
  }

  lemma NextPeriod(iv: nat, i: nat, m: nat)
    requires i < m
    ensures ExtraRead(iv, i) + 1 == (i + 1) * (iv + 1) <= m * (iv + 1)
  {
    MulMono(i + 1, m, iv + 1, iv + 1);
  }

  /** One period with all its reads succeeding: the outer loop moves on to
      period i + 1 having added the box of period i's extra frame. */
  lemma CutPeriodStep(video: seq<Option<Frame>>, select: nat -> Box, n: nat, iv: nat, i: nat, m: nat, c: Cut)
    returns (c2: Cut)
    requires 1 <= i < m <= n && c.seen == i * (iv + 1)
    requires ReadsOk(video, m * (iv + 1))
    ensures CutPeriods(video, select, n, iv, i, c) == CutPeriods(video, select, n, iv, i + 1, c2)
    ensures c2.seen == (i + 1) * (iv + 1)
    ensures c2.bounds == c.bounds + [select(ExtraRead(iv, i))]
  {
    NextPeriod(iv, i, m);
    CutSkipAllRead(video, select, iv, i, 0, c);
    var c1 := CutSkip(video, select, iv, i, 0, c);
    assert c1 == Cut(ExtraRead(iv, i), c.bounds);
    assert ReadFrame(video, c1.seen).Some?;
    c2 := Cut(c1.seen + 1, c.bounds + [select(ExtraRead(iv, i))]);
  }

  /** With the first m periods' reads all succeeding, periods i .. m - 1 each
      add the box of their extra frame. */
  lemma {:induction false} CutPeriodsAllRead(video: seq<Option<Frame>>, select: nat -> Box, n: nat, iv: nat,
                                             i: nat, m: nat, c: Cut)
    requires 1 <= i <= m <= n && c.seen == i * (iv + 1)
    requires ReadsOk(video, m * (iv + 1))
    ensures var out := CutPeriods(video, select, n, iv, i, c);
      && |out| >= |c.bounds| + (m - i)
      && forall k :: i <= k < m ==> out[|c.bounds| + (k - i)] == select(ExtraRead(iv, k))
    decreases m - i
  {
    CutPeriodsAtMost(video, select, n, iv, i, c);
    if i < m {
      var c2 := CutPeriodStep(video, select, n, iv, i, m, c);
      CutPeriodsAllRead(video, select, n, iv, i + 1, m, c2);
      CutPeriodsAtMost(video, select, n, iv, i + 1, c2);
      var out := CutPeriods(video, select, n, iv, i + 1, c2);
      forall k | i <= k < m
        ensures out[|c.bounds| + (k - i)] == select(ExtraRead(iv, k))
      {
        if k > i {
          assert |c.bounds| + (k - i) == |c2.bounds| + (k - (i + 1));
        } else {
          assert out[|c.bounds|] == c2.bounds[|c.bounds|];
        }
      }
    }
  }

  /** With the reads of the first m periods all succeeding, `cutRect` has
      at least m + 1 boxes: the first frame's, then the box of each period's
      extra frame. */
  lemma CutIntervalsAllRead(video: seq<Option<Frame>>, nFrames: nat, n: nat, select: nat -> Box, m: nat)
    requires n > 0 && nFrames / n >= 1 && 1 <= m <= n
    requires ReadsOk(video, m * (nFrames / n + 1))
    ensures var b := CutIntervals(video, nFrames, n, select);
      && |b| >= m + 1 && b[0] == select(0)
      && forall k :: 0 <= k < m ==> b[k + 1] == select(ExtraRead(nFrames / n, k))
  {
    var iv := nFrames / n;
    NextPeriod(iv, 0, m);
    CutSkipAllRead(video, select, iv, 0, 0, Cut(0, []));
    assert CutSkip(video, select, iv, 0, 0, Cut(0, [])) == Cut(iv, [select(0)]);
    assert ReadFrame(video, iv).Some?;
    var c2 := Cut(iv + 1, [select(0)] + [select(iv)]);
    assert CutIntervals(video, nFrames, n, select) == CutPeriods(video, select, n, iv, 0, Cut(0, []));
    assert CutPeriods(video, select, n, iv, 0, Cut(0, [])) == CutPeriods(video, select, n, iv, 1, c2);
    CutPeriodsAllRead(video, select, n, iv, 1, m, c2);
    CutPeriodsAtMost(video, select, n, iv, 1, c2);
  }

  // ---------------------------------------------------------------------
  // calculateIoU(videoname, n_eval, tracker, bounds, unbiased)

  /** The loop state: read calls and update calls made so far, the frame
      area, the entries and the tracker calls. */
  datatype Run = Run(seen: nat, ups: nat, area: int, results: seq<Option<real>>, calls: seq<Call>)

  /** The inner loop of period i from iteration j on: read a frame, on the
      very first one initialise the tracker and take the frame area, then
      update the tracker; a failed read leaves the inner loop.  The answers
      of these updates are overwritten before they are scored. */
  function TrackSkip(video: seq<Option<Frame>>, initbox: Box, iv: nat, i: nat, j: nat, r: Run): Run
    decreases iv - j
  {
    if j >= iv then r
    else if ReadFrame(video, r.seen).None? then r.(seen := r.seen + 1)
    else
      var seen := r.seen + 1;
      var r1 := if i == 0 && j == 0
        then r.(area := FrameArea(ReadFrame(video, r.seen).value), calls := r.calls + [Init(seen, initbox)])
        else r;
      TrackSkip(video, initbox, iv, i, j + 1, r1.(seen := seen, ups := r1.ups + 1, calls := r1.calls + [Track(seen)]))
  }

  /** The outer loop from period i on: after the inner loop, one more update
      on the frame last read, scored against `bounds.at(i + 1)`. */
  function TrackPeriods(s: Scoring, video: seq<Option<Frame>>, update: (nat, nat) -> Update, bounds: seq<Box>,
                        n: nat, iv: nat, i: nat, r: Run): Outcome
    requires |bounds| > 0
    decreases n - i
  {
    if i >= n then Done(r.results, r.calls)
    else
      var r1 := TrackSkip(video, bounds[0], iv, i, 0, r);
      var u := update(r1.ups, r1.seen);
      if i + 1 >= |bounds| then OutOfRange(i + 1)
      else
        TrackPeriods(s, video, update, bounds, n, iv, i + 1,
          r1.(ups := r1.ups + 1, calls := r1.calls + [Track(r1.seen)],
              results := r1.results + [Entry(s, u, bounds[i + 1], r1.area)]))
  }

  /** What the interval `calculateIoU` returns; `area0` stands for what the
      uninitialised `area` holds when no first frame is read. */
  function IntervalRun(s: Scoring, video: seq<Option<Frame>>, nFrames: nat, n: nat, update: (nat, nat) -> Update,
                       bounds: seq<Box>, area0: int): Outcome
    requires n > 0
  {
    if |bounds| == 0 then OutOfRange(0)
    else TrackPeriods(s, video, update, bounds, n, nFrames / n, 0, Run(0, 0, area0, [], []))
  }

  method CalculateIoUInterval(s: Scoring, video: seq<Option<Frame>>, nFrames: nat, n: nat,
                              update: (nat, nat) -> Update, bounds: seq<Box>, area0: int)
    returns (out: Outcome)
    requires n > 0
    ensures out == IntervalRun(s, video, nFrames, n, update, bounds, area0)
  {
    if |bounds| == 0 {
      return OutOfRange(0);
    }
    var intervals := nFrames / n;
    var initbox := bounds[0];
    var trackingbox := initbox;
    var area := area0;
    var seen, ups := 0, 0;
    var results: seq<Option<real>>, calls: seq<Call> := [], [];
    var i := 0;
    while i < n
      invariant 0 <= i <= n
      invariant IntervalRun(s, video, nFrames, n, update, bounds, area0)
             == TrackPeriods(s, video, update, bounds, n, intervals, i, Run(seen, ups, area, results, calls))
    {
      ghost var start := Run(seen, ups, area, results, calls);
      var j := 0;
      while j < intervals
        invariant 0 <= j <= intervals
        invariant TrackSkip(video, initbox, intervals, i, 0, start)
               == TrackSkip(video, initbox, intervals, i, j, Run(seen, ups, area, results, calls))
      {
        var frame := ReadFrame(video, seen);
        seen := seen + 1;
        if frame.None? {
          break;
        }
        if i == 0 && j == 0 {
          calls := calls + [Init(seen, initbox)];
          area := FrameArea(frame.value);
        }
        var u := update(ups, seen);
        ups := ups + 1;
        calls := calls + [Track(seen)];
        trackingbox := u.box;
        j := j + 1;
      }
      assert TrackSkip(video, initbox, intervals, i, 0, start) == Run(seen, ups, area, results, calls);
      var u := update(ups, seen);
      ups := ups + 1;
      calls := calls + [Track(seen)];
      trackingbox := u.box;
      if i + 1 >= |bounds| {
        return OutOfRange(i + 1);
      }
      var annotbox := bounds[i + 1];
      var acc := if u.ok then Measure(s, annotbox, trackingbox, area) else Some(s.sentinel);
      results := results + [acc];
      i := i + 1;
    }
    return Done(results, calls);
  }

  /** The inner loop records no entry. */
  lemma {:induction false} TrackSkipKeeps(video: seq<Option<Frame>>, initbox: Box, iv: nat, i: nat, j: nat, r: Run)
    ensures TrackSkip(video, initbox, iv, i, j, r).results == r.results
    decreases iv - j
  {
    if j < iv && ReadFrame(video, r.seen).Some? {
      var seen := r.seen + 1;
      var r1 := if i == 0 && j == 0
        then r.(area := FrameArea(ReadFrame(video, r.seen).value), calls := r.calls + [Init(seen, initbox)])
        else r;
      TrackSkipKeeps(video, initbox, iv, i, j + 1, r1.(seen := seen, ups := r1.ups + 1, calls := r1.calls + [Track(seen)]));
    }
  }

  /** From period i on, the outer loop completes exactly when there is an
      annotation for every remaining period, and then adds one entry per
      period, whatever the reads do. */
  lemma {:induction false} TrackPeriodsOutcome(s: Scoring, video: seq<Option<Frame>>, update: (nat, nat) -> Update,
                                               bounds: seq<Box>, n: nat, iv: nat, i: nat, r: Run)
    requires i <= n && i < |bounds|
    ensures var out := TrackPeriods(s, video, update, bounds, n, iv, i, r);
      && (out.Done? <==> i == n || n < |bounds|)
      && (out.Done? ==> |out.results| == |r.results| + (n - i) && out.results[..|r.results|] == r.results)
      && (!out.Done? ==> out == OutOfRange(|bounds|))
    decreases n - i
  {
    if i < n {
      var r1 := TrackSkip(video, bounds[0], iv, i, 0, r);
      TrackSkipKeeps(video, bounds[0], iv, i, 0, r);
      if i + 1 < |bounds| {
        var u := update(r1.ups, r1.seen);
        var r2 := r1.(ups := r1.ups + 1, calls := r1.calls + [Track(r1.seen)],
                      results := r1.results + [Entry(s, u, bounds[i + 1], r1.area)]);
        TrackPeriodsOutcome(s, video, update, bounds, n, iv, i + 1, r2);
        assert r2.results[..|r.results|] == r.results;
      }
    }
  }

  /** `calculateIoU(videoname, n_eval, ...)` returns exactly `n_eval` entries
      when there are more than `n_eval` annotations, and otherwise throws on
      the first missing one, `bounds.at(|bounds|)`. */
  lemma IntervalOutcome(s: Scoring, video: seq<Option<Frame>>, nFrames: nat, n: nat, update: (nat, nat) -> Update,
                        bounds: seq<Box>, area0: int)
    requires n > 0
    ensures var out := IntervalRun(s, video, nFrames, n, update, bounds, area0);
      && (out.Done? <==> |bounds| > n)
      && (out.Done? ==> |out.results| == n)
      && (!out.Done? ==> out == OutOfRange(|bounds|))
  {
    if |bounds| > 0 {
      TrackPeriodsOutcome(s, video, update, bounds, n, nFrames / n, 0, Run(0, 0, area0, [], []));
    }
  }

  /** With all its reads succeeding, an inner loop that is not the video's
      first makes iv - j reads and as many updates, and keeps the area. */
  lemma {:induction false} TrackSkipAllRead(video: seq<Option<Frame>>, initbox: Box, iv: nat, i: nat, j: nat, r: Run)
    requires j <= iv && (i > 0 || j > 0)
    requires forall k :: r.seen <= k < r.seen + (iv - j) ==> ReadFrame(video, k).Some?
    ensures var t := TrackSkip(video, initbox, iv, i, j, r);
      t.seen == r.seen + (iv - j) && t.ups == r.ups + (iv - j) && t.area == r.area && t.results == r.results
    decreases iv - j
  {
    if j < iv {
      var seen := r.seen + 1;
      TrackSkipAllRead(video, initbox, iv, i, j + 1, r.(seen := seen, ups := r.ups + 1, calls := r.calls + [Track(seen)]));
    }
  }

  /** The same inner loop adds one update call per read and keeps the calls
      made before it. */
  lemma {:induction false} TrackSkipCallsAllRead(video: seq<Option<Frame>>, initbox: Box, iv: nat, i: nat, j: nat,
                                                 r: Run)
    requires j <= iv && (i > 0 || j > 0)
    requires forall k :: r.seen <= k < r.seen + (iv - j) ==> ReadFrame(video, k).Some?
    ensures var t := TrackSkip(video, initbox, iv, i, j, r);
      |t.calls| == |r.calls| + (iv - j) && t.calls[..|r.calls|] == r.calls
    decreases iv - j
  {
    if j < iv {
      var seen := r.seen + 1;
      var r2 := r.(seen := seen, ups := r.ups + 1, calls := r.calls + [Track(seen)]);
      TrackSkipCallsAllRead(video, initbox, iv, i, j + 1, r2);
      var t := TrackSkip(video, initbox, iv, i, j + 1, r2);
      assert t.calls[..|r.calls|] == t.calls[..|r2.calls|][..|r.calls|];
    }
  }

  /** The video's first inner loop, with all its reads succeeding, also takes
      the area of the first frame read, and its first read is followed by
      the tracker's `init` with the first annotation and an update on that
      same frame. */
  lemma TrackSkipFirst(video: seq<Option<Frame>>, initbox: Box, iv: nat, r: Run)
    requires iv >= 1
    requires forall k :: r.seen <= k < r.seen + iv ==> ReadFrame(video, k).Some?
    ensures var t := TrackSkip(video, initbox, iv, 0, 0, r);
      && t.seen == r.seen + iv && t.ups == r.ups + iv && t.results == r.results
      && t.area == FrameArea(ReadFrame(video, r.seen).value)
      && |t.calls| == |r.calls| + iv + 1
      && t.calls[..|r.calls| + 2] == r.calls + [Init(r.seen + 1, initbox), Track(r.seen + 1)]
  {
    var seen := r.seen + 1;
    var r1 := r.(area := FrameArea(ReadFrame(video, r.seen).value), calls := r.calls + [Init(seen, initbox)]);
    var r2 := r1.(seen := seen, ups := r1.ups + 1, calls := r1.calls + [Track(seen)]);
    TrackSkipAllRead(video, initbox, iv, 0, 1, r2);
    TrackSkipCallsAllRead(video, initbox, iv, 0, 1, r2);
    assert r2.calls == r.calls + [Init(r.seen + 1, initbox), Track(r.seen + 1)];
  }

  /** The entry for period k when every read succeeds: the answer of update
      call ExtraRead(iv, k), made after (k + 1) * iv reads, that is on the
      period's last frame, against annotation k + 1 and the area of the first
      frame. */
  function PeriodEntry(s: Scoring, video: seq<Option<Frame>>, update: (nat, nat) -> Update, bounds: seq<Box>,
                       iv: nat, k: nat): Option<real>
    requires k + 1 < |bounds| && ReadFrame(video, 0).Some?
  {
    Entry(s, update(ExtraRead(iv, k), (k + 1) * iv), bounds[k + 1], FrameArea(ReadFrame(video, 0).value))
  }

  /** One period with all its reads succeeding: the outer loop moves on to
      period i + 1 having added period i's entry. */
  lemma TrackPeriodStep(s: Scoring, video: seq<Option<Frame>>, update: (nat, nat) -> Update,
                        bounds: seq<Box>, n: nat, iv: nat, i: nat, r: Run) returns (r2: Run)
    requires i < n < |bounds| && iv >= 1 && ReadsOk(video, n * iv)
    requires r.seen == i * iv && r.ups == i * (iv + 1)
    requires i > 0 ==> r.area == FrameArea(ReadFrame(video, 0).value)
    ensures TrackPeriods(s, video, update, bounds, n, iv, i, r) == TrackPeriods(s, video, update, bounds, n, iv, i + 1, r2)
    ensures r2.seen == (i + 1) * iv && r2.ups == (i + 1) * (iv + 1)
    ensures r2.area == FrameArea(ReadFrame(video, 0).value)
    ensures r2.results == r.results + [PeriodEntry(s, video, update, bounds, iv, i)]
  {
    NextPeriod(iv, i, n);
    MulMono(i + 1, n, iv, iv);
    assert (i + 1) * iv == r.seen + iv;
    if i == 0 {
      TrackSkipFirst(video, bounds[0], iv, r);
    } else {
      TrackSkipAllRead(video, bounds[0], iv, i, 0, r);
    }
    var r1 := TrackSkip(video, bounds[0], iv, i, 0, r);
    assert r1.ups == ExtraRead(iv, i);
    var u := update(r1.ups, r1.seen);
    r2 := r1.(ups := r1.ups + 1, calls := r1.calls + [Track(r1.seen)],
              results := r1.results + [Entry(s, u, bounds[i + 1], r1.area)]);
  }

  /** With all reads of the n periods succeeding, period k is scored with
      update call ExtraRead(iv, k), made after (k + 1) * iv reads, that is on
      the last frame of the period, against annotation k + 1 and the area of
      the first frame. */
  lemma {:induction false} TrackPeriodsAllRead(s: Scoring, video: seq<Option<Frame>>, update: (nat, nat) -> Update,
                                               bounds: seq<Box>, n: nat, iv: nat, i: nat, r: Run)
    requires i <= n < |bounds| && iv >= 1 && ReadsOk(video, n * iv)
    requires r.seen == i * iv && r.ups == i * (iv + 1)
    requires i > 0 ==> r.area == FrameArea(ReadFrame(video, 0).value)
    ensures var out := TrackPeriods(s, video, update, bounds, n, iv, i, r);
      && out.Done? && |out.results| == |r.results| + (n - i)
      && forall k :: i <= k < n ==> out.results[|r.results| + (k - i)] == PeriodEntry(s, video, update, bounds, iv, k)
    decreases n - i
  {
    if i < n {
      var r2 := TrackPeriodStep(s, video, update, bounds, n, iv, i, r);
      TrackPeriodsAllRead(s, video, update, bounds, n, iv, i + 1, r2);
      var out := TrackPeriods(s, video, update, bounds, n, iv, i + 1, r2);
      forall k | i <= k < n
        ensures out.results[|r.results| + (k - i)] == PeriodEntry(s, video, update, bounds, iv, k)
      {
        if k > i {
          assert |r.results| + (k - i) == |r2.results| + (k - (i + 1));
        } else {
          TrackPeriodsOutcome(s, video, update, bounds, n, iv, i + 1, r2);
          assert out.results[|r.results|] == r2.results[|r.results|];
        }
      }
    } else {
      TrackPeriodsOutcome(s, video, update, bounds, n, iv, i, r);
    }
  }

  /** With the reads of all n periods succeeding and an annotation for each,
      `calculateIoU` scores period k on the last frame of the period, with
      update call ExtraRead(iv, k), against annotation k + 1. */
  lemma IntervalAllRead(s: Scoring, video: seq<Option<Frame>>, nFrames: nat, n: nat, update: (nat, nat) -> Update,
                        bounds: seq<Box>, area0: int)
    requires n > 0 && nFrames / n >= 1 && |bounds| > n
    requires ReadsOk(video, n * (nFrames / n))
    ensures var out := IntervalRun(s, video, nFrames, n, update, bounds, area0);
      var iv := nFrames / n;
      && out.Done? && |out.results| == n
      && forall k :: 0 <= k < n ==> out.results[k] == PeriodEntry(s, video, update, bounds, iv, k)
  {
    MulMono(1, n, 1, nFrames / n);
    TrackPeriodsAllRead(s, video, update, bounds, n, nFrames / n, 0, Run(0, 0, area0, [], []));
  }

  // ---------------------------------------------------------------------
  // The calls made on the tracker

  /** `init` is called at most once, as the first call, right after the first
      read and with the first annotation. */
  predicate InitOnceFirst(calls: seq<Call>, initbox: Box) {
    forall k :: 0 <= k < |calls| && calls[k].Init? ==> k == 0 && calls[k] == Init(1, initbox)
  }

  lemma {:induction false} TrackSkipCalls(video: seq<Option<Frame>>, initbox: Box, iv: nat, i: nat, j: nat, r: Run)
    requires InitOnceFirst(r.calls, initbox)
    requires i == 0 && j == 0 ==> r.calls == [] && r.seen == 0
    ensures InitOnceFirst(TrackSkip(video, initbox, iv, i, j, r).calls, initbox)
    decreases iv - j
  {
    if j < iv && ReadFrame(video, r.seen).Some? {
      var seen := r.seen + 1;
      var r1 := if i == 0 && j == 0
        then r.(area := FrameArea(ReadFrame(video, r.seen).value), calls := r.calls + [Init(seen, initbox)])
        else r;
      var r2 := r1.(seen := seen, ups := r1.ups + 1, calls := r1.calls + [Track(seen)]);
      assert InitOnceFirst(r2.calls, initbox);
      TrackSkipCalls(video, initbox, iv, i, j + 1, r2);
    }
  }

  lemma {:induction false} TrackPeriodsCalls(s: Scoring, video: seq<Option<Frame>>, update: (nat, nat) -> Update,
                                             bounds: seq<Box>, n: nat, iv: nat, i: nat, r: Run)
    requires |bounds| > 0 && InitOnceFirst(r.calls, bounds[0])
    requires i == 0 ==> r.calls == [] && r.seen == 0
    ensures var out := TrackPeriods(s, video, update, bounds, n, iv, i, r);
      out.Done? ==> InitOnceFirst(out.calls, bounds[0])
    decreases n - i
  {
    if i < n {
      TrackSkipCalls(video, bounds[0], iv, i, 0, r);
      var r1 := TrackSkip(video, bounds[0], iv, i, 0, r);
      if i + 1 < |bounds| {
        var u := update(r1.ups, r1.seen);
        var r2 := r1.(ups := r1.ups + 1, calls := r1.calls + [Track(r1.seen)],
                      results := r1.results + [Entry(s, u, bounds[i + 1], r1.area)]);
        assert InitOnceFirst(r2.calls, bounds[0]);
        TrackPeriodsCalls(s, video, update, bounds, n, iv, i + 1, r2);
      }
    }
  }

  /** Whatever the reads do, the tracker gets at most one `init`: the very
      first call, made after the first read, with the first annotation.
      Every later call is an update. */
  lemma IntervalInitOnce(s: Scoring, video: seq<Option<Frame>>, nFrames: nat, n: nat, update: (nat, nat) -> Update,
                         bounds: seq<Box>, area0: int)
    requires n > 0
    ensures var out := IntervalRun(s, video, nFrames, n, update, bounds, area0);
      out.Done? ==> && (forall k :: 0 < k < |out.calls| ==> out.calls[k].Track?)
                    && (|out.calls| > 0 && out.calls[0].Init? ==> out.calls[0] == Init(1, bounds[0]))
  {
    if |bounds| > 0 {
      TrackPeriodsCalls(s, video, update, bounds, n, nFrames / n, 0, Run(0, 0, area0, [], []));
    }
  }

  /** From period 1 on, with all reads succeeding, every period adds iv + 1
      update calls: one per frame and the one that is scored. */
  lemma {:induction false} TrackPeriodsCallsAllRead(s: Scoring, video: seq<Option<Frame>>, update: (nat, nat) -> Update,
                                                    bounds: seq<Box>, n: nat, iv: nat, i: nat, r: Run)
    requires 1 <= i <= n < |bounds| && iv >= 1 && ReadsOk(video, n * iv)
    requires r.seen == i * iv
    ensures var out := TrackPeriods(s, video, update, bounds, n, iv, i, r);
      && out.Done? && |out.calls| == |r.calls| + (n - i) * (iv + 1)
      && out.calls[..|r.calls|] == r.calls
    decreases n - i
  {
    if i < n {
      MulMono(i + 1, n, iv, iv);
      assert (i + 1) * iv == r.seen + iv;
      TrackSkipAllRead(video, bounds[0], iv, i, 0, r);
      TrackSkipCallsAllRead(video, bounds[0], iv, i, 0, r);
      var r1 := TrackSkip(video, bounds[0], iv, i, 0, r);
      var u := update(r1.ups, r1.seen);
      var r2 := r1.(ups := r1.ups + 1, calls := r1.calls + [Track(r1.seen)],
                    results := r1.results + [Entry(s, u, bounds[i + 1], r1.area)]);
      assert TrackPeriods(s, video, update, bounds, n, iv, i, r)
          == TrackPeriods(s, video, update, bounds, n, iv, i + 1, r2);
      TrackPeriodsCallsAllRead(s, video, update, bounds, n, iv, i + 1, r2);
      var out := TrackPeriods(s, video, update, bounds, n, iv, i + 1, r2);
      assert (n - i) * (iv + 1) == (n - (i + 1)) * (iv + 1) + (iv + 1);
      assert r2.calls[..|r.calls|] == r.calls;
      assert out.calls[..|r.calls|] == out.calls[..|r2.calls|][..|r.calls|];
    } else {
      var out := TrackPeriods(s, video, update, bounds, n, iv, i, r);
      assert out.calls == r.calls;
    }
  }

  /** With the reads of all n periods succeeding and an annotation for each,
      the tracker is initialised once, on the first frame with the first
      annotation, updated on that same frame, and then only updated: one
      update per frame read and one more per period, n * (iv + 1) in all. */
  lemma IntervalCallsAllRead(s: Scoring, video: seq<Option<Frame>>, nFrames: nat, n: nat,
                             update: (nat, nat) -> Update, bounds: seq<Box>, area0: int)
    requires n > 0 && nFrames / n >= 1 && |bounds| > n
    requires ReadsOk(video, n * (nFrames / n))
    ensures var out := IntervalRun(s, video, nFrames, n, update, bounds, area0);
      var iv := nFrames / n;
      && out.Done? && |out.calls| == n * (iv + 1) + 1
      && out.calls[0] == Init(1, bounds[0]) && out.calls[1] == Track(1)
      && forall k :: 0 < k < |out.calls| ==> out.calls[k].Track?
  {
    var iv := nFrames / n;
    MulMono(1, n, iv, iv);
    var r0 := Run(0, 0, area0, [], []);
    TrackSkipFirst(video, bounds[0], iv, r0);
    var r1 := TrackSkip(video, bounds[0], iv, 0, 0, r0);
    var u := update(r1.ups, r1.seen);
    var r2 := r1.(ups := r1.ups + 1, calls := r1.calls + [Track(r1.seen)],
                  results := r1.results + [Entry(s, u, bounds[1], r1.area)]);
    assert IntervalRun(s, video, nFrames, n, update, bounds, area0)
        == TrackPeriods(s, video, update, bounds, n, iv, 1, r2);
    TrackPeriodsCallsAllRead(s, video, update, bounds, n, iv, 1, r2);
    IntervalInitOnce(s, video, nFrames, n, update, bounds, area0);
    var out := TrackPeriods(s, video, update, bounds, n, iv, 1, r2);
    assert n * (iv + 1) == (n - 1) * (iv + 1) + (iv + 1);
    assert r2.calls[..2] == r1.calls[..2];
    assert out.calls[..2] == out.calls[..|r2.calls|][..2];
  }

  // ---------------------------------------------------------------------
  // How main pairs the two loops

  /** `main` calls `cutRect(vfname, n_eval + 1)` and `calculateIoU(vfname,
      n_eval, ...)`: with 300 frames and the default 10 evaluations, the
      annotation of period 0 is chosen on frame 27 (read 27) but scored
      against the tracker's answer on frame 29 (after 30 reads). */
  lemma MainScheduleMisaligned(s: Scoring, video: seq<Option<Frame>>, update: (nat, nat) -> Update,
                               select: nat -> Box, area0: int)
    requires ReadsOk(video, 300)
    ensures var bounds := CutIntervals(video, 300, 11, select);
      var out := IntervalRun(s, video, 300, 10, update, bounds, area0);
      && |bounds| > 10 && bounds[1] == select(27)
      && out.Done? && out.results[0] == Entry(s, update(30, 30), select(27), FrameArea(ReadFrame(video, 0).value))
  {
    CutIntervalsAllRead(video, 300, 11, select, 10);
    var bounds := CutIntervals(video, 300, 11, select);
    assert bounds[1] == select(ExtraRead(27, 0));
    IntervalAllRead(s, video, 300, 10, update, bounds, area0);
    assert IntervalRun(s, video, 300, 10, update, bounds, area0).results[0] == PeriodEntry(s, video, update, bounds, 30, 0);
  }

  /** In general, with every read succeeding, annotation k + 1 of
      `cutRect(n + 1)` comes from read ExtraRead(ic, k), ic = n_frames / (n + 1),
      and period k of `calculateIoU(n)` is scored on read (k + 1) * ie - 1,
      ie = n_frames / n; the two are the same frame exactly when ic + 1 == ie. */
  lemma ScheduleAlignedIff(ic: nat, ie: nat, k: nat)
    ensures ExtraRead(ic, k) == (k + 1) * ie - 1 <==> ic + 1 == ie
  {
    assert (k + 1) * (ic + 1) == k * (ic + 1) + (ic + 1);
    if ic + 1 < ie {
      MulStrict(k + 1, ic + 1, ie);
    } else if ic + 1 > ie {
      MulStrict(k + 1, ie, ic + 1);
    }
  }

  lemma MulStrict(a: int, x: int, y: int)
    requires a > 0 && x < y
    ensures a * x < a * y
  {
    assert a * y - a * x == a * (y - x);
    MulPositive(a, y - x);
  }

  /** The last read of period k when every read succeeds. */
  function PeriodEnd(iv: nat, k: nat): nat
    requires iv >= 1
  {
    k * iv + (iv - 1)
  }

  /** The selection state of the corrected `cutRect`: read calls so far,
      boxes so far, and whether a read has failed. */
  datatype Aligned = Aligned(seen: nat, bounds: seq<Box>, stopped: bool)

  /** The corrected inner loop: the same ie = n_frames / n periods as
      `calculateIoU`, a box on the video's first frame and on the last frame
      of each period, and no extra read. */
  function AlignedSkip(video: seq<Option<Frame>>, select: nat -> Box, iv: nat, i: nat, j: nat, c: Aligned): Aligned
    decreases iv - j
  {
    if j >= iv then c
    else if ReadFrame(video, c.seen).None? then c.(seen := c.seen + 1, stopped := true)
    else
      var first := if i == 0 && j == 0 then [select(c.seen)] else [];
      var last := if j == iv - 1 then [select(c.seen)] else [];
      AlignedSkip(video, select, iv, i, j + 1, Aligned(c.seen + 1, c.bounds + first + last, false))
  }

  function AlignedPeriods(video: seq<Option<Frame>>, select: nat -> Box, n: nat, iv: nat, i: nat, c: Aligned): seq<Box>
    decreases n - i
  {
    if i >= n then c.bounds
    else
      var c1 := AlignedSkip(video, select, iv, i, 0, c);
      if c1.stopped then c1.bounds else AlignedPeriods(video, select, n, iv, i + 1, c1)
  }

  /** The corrected `cutRect(videoname, n)`, for `calculateIoU(videoname, n)`. */
  function CutAligned(video: seq<Option<Frame>>, nFrames: nat, n: nat, select: nat -> Box): seq<Box>
    requires n > 0
  {
    AlignedPeriods(video, select, n, nFrames / n, 0, Aligned(0, [], false))
  }

  lemma {:induction false} AlignedSkipAllRead(video: seq<Option<Frame>>, select: nat -> Box, iv: nat, i: nat, j: nat,
                                              c: Aligned)
    requires j <= iv && (i > 0 || j > 0) && !c.stopped
    requires forall k :: c.seen <= k < c.seen + (iv - j) ==> ReadFrame(video, k).Some?
    ensures AlignedSkip(video, select, iv, i, j, c)
         == if j < iv then Aligned(c.seen + (iv - j), c.bounds + [select(c.seen + (iv - j) - 1)], false) else c
    decreases iv - j
  {
    if j < iv {
      var last := if j == iv - 1 then [select(c.seen)] else [];
      assert c.bounds + [] + last == c.bounds + last;
      AlignedSkipAllRead(video, select, iv, i, j + 1, Aligned(c.seen + 1, c.bounds + last, false));
    }
  }

  lemma {:induction false} AlignedPeriodsAllRead(video: seq<Option<Frame>>, select: nat -> Box, n: nat, iv: nat,
                                                 i: nat, c: Aligned)
    requires 1 <= i <= n && iv >= 1 && c.seen == i * iv && !c.stopped
    requires ReadsOk(video, n * iv)
    ensures var out := AlignedPeriods(video, select, n, iv, i, c);
      && |out| == |c.bounds| + (n - i) && out[..|c.bounds|] == c.bounds
      && forall k :: i <= k < n ==> out[|c.bounds| + (k - i)] == select(PeriodEnd(iv, k))
    decreases n - i
  {
    if i < n {
      MulMono(i + 1, n, iv, iv);
      assert c.seen + iv == (i + 1) * iv;
      AlignedSkipAllRead(video, select, iv, i, 0, c);
      var c1 := Aligned(c.seen + iv, c.bounds + [select(PeriodEnd(iv, i))], false);
      assert AlignedPeriods(video, select, n, iv, i, c) == AlignedPeriods(video, select, n, iv, i + 1, c1);
      AlignedPeriodsAllRead(video, select, n, iv, i + 1, c1);
      var out := AlignedPeriods(video, select, n, iv, i + 1, c1);
      assert out[|c.bounds|] == c1.bounds[|c.bounds|];
      assert c1.bounds[..|c.bounds|] == c.bounds;
    }
  }

  /** With every read succeeding, the corrected `cutRect(n)` returns n + 1
      boxes: the first frame's, then the last frame of each period. */
  lemma CutAlignedAllRead(video: seq<Option<Frame>>, nFrames: nat, n: nat, select: nat -> Box)
    requires n > 0 && nFrames / n >= 1 && ReadsOk(video, n * (nFrames / n))
    ensures var b := CutAligned(video, nFrames, n, select);
      && |b| == n + 1 && b[0] == select(0)
      && forall k :: 0 <= k < n ==> b[k + 1] == select(PeriodEnd(nFrames / n, k))
  {
    var iv := nFrames / n;
    MulMono(1, n, iv, iv);
    var last := if iv == 1 then [select(0)] else [];
    var c0 := Aligned(1, [] + [select(0)] + last, false);
    assert AlignedSkip(video, select, iv, 0, 0, Aligned(0, [], false)) == AlignedSkip(video, select, iv, 0, 1, c0);
    AlignedSkipAllRead(video, select, iv, 0, 1, c0);
    var c1 := Aligned(iv, [select(0), select(PeriodEnd(iv, 0))], false);
    assert AlignedSkip(video, select, iv, 0, 0, Aligned(0, [], false)) == c1;
    assert CutAligned(video, nFrames, n, select) == AlignedPeriods(video, select, n, iv, 1, c1);
    AlignedPeriodsAllRead(video, select, n, iv, 1, c1);
  }

  /** With the corrected `cutRect`, every period is scored against the box
      chosen on the very frame the scoring update sees: read PeriodEnd(iv, k),
      the last of the (k + 1) * iv reads made before that update. */
  lemma AlignedScheduleScoresSameFrame(s: Scoring, video: seq<Option<Frame>>, nFrames: nat, n: nat,
                                       update: (nat, nat) -> Update, select: nat -> Box, area0: int)
    requires n > 0 && nFrames / n >= 1 && ReadsOk(video, n * (nFrames / n))
    ensures var iv := nFrames / n;
      var out := IntervalRun(s, video, nFrames, n, update, CutAligned(video, nFrames, n, select), area0);
      && out.Done? && |out.results| == n
      && forall k :: 0 <= k < n ==>
           PeriodEnd(iv, k) + 1 == (k + 1) * iv
           && out.results[k] == Entry(s, update(ExtraRead(iv, k), (k + 1) * iv), select(PeriodEnd(iv, k)),
                                      FrameArea(ReadFrame(video, 0).value))
  {
    var bounds := CutAligned(video, nFrames, n, select);
    CutAlignedAllRead(video, nFrames, n, select);
    IntervalAllRead(s, video, nFrames, n, update, bounds, area0);
  }
}
