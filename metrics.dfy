/** The two overlap scores: plain intersection over union, and the
    background-weighted "unbiased" score of Hager et al., "Countering bias in
    tracking evaluations" (VISAPP 2018).  eval.cpp and test.cpp guard both
    with an early 0.0 for an empty intersection; detect_eval.cpp and
    detectionEvaluator.cpp compute the same expressions without the guard.
    Areas are exact integers and the ratios exact reals. */
module Metrics {
  import opened Boxes

  /** I + (area a - I) + (area d - I): the area covered by either box. */
  function UnionArea(a: Box, d: Box): int {
    var i := IntersectionArea(a, d);
    i + (Area(a) - i) + (Area(d) - i)
  }

  lemma UnionBounds(a: Box, d: Box)
    requires Valid(a) && Valid(d)
    ensures UnionArea(a, d) >= Area(a) >= IntersectionArea(a, d) >= 0
    ensures UnionArea(a, d) >= Area(d) >= IntersectionArea(a, d)
    ensures UnionArea(a, d) > 0 <==> Area(a) > 0 || Area(d) > 0
  {
    IntersectionBounds(a, d);
  }

  // ---------------------------------------------------------------------
  // The shared arithmetic, from the integer areas the C++ casts to double:
  // `both` is A_da (the intersection), `ea` and `ed` the two box areas, so
  // A_d1a = ea - A_da (annotation only) and A_da1 = ed - A_da (detection
  // only); `bg` is the frame area A_bg.

  /** A_da / (A_da + A_d1a + A_da1).  Every area is an exact integer, so the
      double arithmetic of the source is exact here. */
  function PlainRatio(both: int, ea: int, ed: int): real
    requires ea + ed - both != 0
  {
    var aD1a := ea - both;
    var aDa1 := ed - both;
    (both as real) / ((both + aD1a + aDa1) as real)
  }

  /** pow(n, 2) of an integer-valued area. */
  function Sq(n: int): int {
    n * n
  }

  /** pow(u, 2) / (pow(u, 2) + pow(t, 2)). */
  function Weight(u: int, t: int): real
    requires u != 0
  {
    SqPositive(u);
    SqPositive(t);
    (Sq(u) as real) / ((Sq(u) + Sq(t)) as real)
  }

  /** w * n1 / d1 + (1 - w) * n2 / d2. */
  function Mix(w: real, n1: real, d1: real, n2: real, d2: real): real
    requires d1 != 0.0 && d2 != 0.0
  {
    w * n1 / d1 + (1.0 - w) * n2 / d2
  }

  /** w0 = U^2 / (U^2 + (A_d1a1 + A_da1 + A_d1a)^2), A_d1a1 = A_bg - U. */
  function ForegroundWeight(both: int, ea: int, ed: int, bg: int): real
    requires ea + ed - both != 0
  {
    var aD1a := ea - both;
    var aDa1 := ed - both;
    var union := both + aD1a + aDa1;
    var aD1a1 := bg - union;
    Weight(union, aD1a1 + aDa1 + aD1a)
  }

  /** w0 * A_da / U + (1 - w0) * A_d1a1 / (A_d1a1 + A_d1a + A_da1). */
  function UnbiasedRatio(both: int, ea: int, ed: int, bg: int): real
    requires ea + ed - both != 0 && bg != both
  {
    var aD1a := ea - both;
    var aDa1 := ed - both;
    var union := both + aD1a + aDa1;
    var aD1a1 := bg - union;
    Mix(ForegroundWeight(both, ea, ed, bg), both as real, union as real,
        aD1a1 as real, (aD1a1 + aD1a + aDa1) as real)
  }

  /** The weight in closed form: A_d1a1 + A_da1 + A_d1a is A_bg - A_da, so
      w0 = U^2 / (U^2 + (A_bg - A_da)^2). */
  function ClosedWeight(both: int, ea: int, ed: int, bg: int): real
    requires ea + ed - both != 0
  {
    Weight(both + (ea - both) + (ed - both), bg - both)
  }

  /** The background term A_d1a1 / (A_d1a1 + A_d1a + A_da1), that is
      (A_bg - U) / (A_bg - A_da). */
  function BackgroundRatio(both: int, ea: int, ed: int, bg: int): real
    requires bg != both
  {
    ((bg - (both + (ea - both) + (ed - both))) as real) / ((bg - both) as real)
  }

  /** w * p + (1 - w) * q. */
  function Blend(w: real, p: real, q: real): real {
    w * p + (1.0 - w) * q
  }

  /** The unbiased ratio is the w0-weighted blend of the plain ratio and the
      background term. */
  lemma UnbiasedRatioClosedForm(both: int, ea: int, ed: int, bg: int)
    requires ea + ed - both != 0 && bg != both
    ensures ForegroundWeight(both, ea, ed, bg) == ClosedWeight(both, ea, ed, bg)
    ensures UnbiasedRatio(both, ea, ed, bg)
         == Blend(ClosedWeight(both, ea, ed, bg), PlainRatio(both, ea, ed), BackgroundRatio(both, ea, ed, bg))
  {
    var u := both + (ea - both) + (ed - both);
    var back := bg - u + (ed - both) + (ea - both);
    assert back == bg - both;
    var w := ClosedWeight(both, ea, ed, bg);
    assert ForegroundWeight(both, ea, ed, bg) == w;
    assert UnbiasedRatio(both, ea, ed, bg) == Mix(w, both as real, u as real, (bg - u) as real, (bg - both) as real);
    MixSplit(w, both as real, u as real, (bg - u) as real, (bg - both) as real);
  }

  /** Plain ratio: 0 for an empty intersection, otherwise in (0, 1], and
      always ratio * U == A_da. */
  lemma {:induction false} PlainRatioRange(both: int, ea: int, ed: int)
    requires 0 <= both <= ea && both <= ed && ea + ed - both > 0
    ensures both == 0 ==> PlainRatio(both, ea, ed) == 0.0
    ensures both > 0 ==> 0.0 < PlainRatio(both, ea, ed) <= 1.0
    ensures PlainRatio(both, ea, ed) * ((ea + ed - both) as real) == both as real
  {
    RatioInUnit(both as real, (ea + ed - both) as real);
  }

  lemma {:induction false} PlainRatioSymmetric(both: int, ea: int, ed: int)
    requires ea + ed - both != 0
    ensures PlainRatio(both, ea, ed) == PlainRatio(both, ed, ea)
  {
    assert both + (ea - both) + (ed - both) == both + (ed - both) + (ea - both);
  }

  lemma UnbiasedRatioSymmetric(both: int, ea: int, ed: int, bg: int)
    requires ea + ed - both != 0 && bg != both
    ensures UnbiasedRatio(both, ea, ed, bg) == UnbiasedRatio(both, ed, ea, bg)
  {
    UnbiasedRatioClosedForm(both, ea, ed, bg);
    UnbiasedRatioClosedForm(both, ed, ea, bg);
    PlainRatioSymmetric(both, ea, ed);
    assert both + (ea - both) + (ed - both) == both + (ed - both) + (ea - both);
    assert ClosedWeight(both, ea, ed, bg) == ClosedWeight(both, ed, ea, bg);
    assert BackgroundRatio(both, ea, ed, bg) == BackgroundRatio(both, ed, ea, bg);
  }

  /** With A_bg >= U and A_bg > A_da the background term lies in [0, 1]. */
  lemma BackgroundRatioRange(both: int, ea: int, ed: int, bg: int)
    requires both <= ea && both <= ed
    requires bg >= ea + ed - both && bg > both
    ensures 0.0 <= BackgroundRatio(both, ea, ed, bg) <= 1.0
  {
    RatioBounds((bg - (both + (ea - both) + (ed - both))) as real, (bg - both) as real);
  }

  /** With A_bg >= U and A_bg > A_da, w0 lies strictly inside (0, 1), the
      score lies between the foreground term A_da / U and the background
      term (A_bg - U) / (A_bg - A_da), and both terms lie in [0, 1]. */
  lemma UnbiasedRatioRange(both: int, ea: int, ed: int, bg: int)
    requires 0 < both <= ea && both <= ed
    requires bg >= ea + ed - both && bg > both
    ensures var w := ClosedWeight(both, ea, ed, bg);
      var fg := PlainRatio(both, ea, ed);
      var back := BackgroundRatio(both, ea, ed, bg);
      var r := UnbiasedRatio(both, ea, ed, bg);
      && 0.0 < w < 1.0
      && 0.0 < fg <= 1.0 && 0.0 <= back <= 1.0
      && ((fg <= r <= back) || (back <= r <= fg))
      && 0.0 <= r <= 1.0
  {
    UnbiasedRatioClosedForm(both, ea, ed, bg);
    WeightInUnit(both + (ea - both) + (ed - both), bg - both);
    PlainRatioRange(both, ea, ed);
    BackgroundRatioRange(both, ea, ed, bg);
    ConvexUnit(ClosedWeight(both, ea, ed, bg), PlainRatio(both, ea, ed), BackgroundRatio(both, ea, ed, bg),
               UnbiasedRatio(both, ea, ed, bg));
  }

  /** Identical boxes of area `e` below the frame area score exactly 1. */
  lemma UnbiasedRatioSelf(e: int, bg: int)
    requires 0 < e < bg
    ensures UnbiasedRatio(e, e, e, bg) == 1.0
  {
    UnbiasedRatioClosedForm(e, e, e, bg);
    var x, y := e as real, (bg - e) as real;
    assert (e + (e - e) + (e - e)) as real == x;
    assert (bg - (e + (e - e) + (e - e))) as real == y;
    DivSelf(x);
    DivSelf(y);
    assert PlainRatio(e, e, e) == x / x;
    assert BackgroundRatio(e, e, e, bg) == y / y;
    BlendSame(ClosedWeight(e, e, e, bg), 1.0);
  }

  lemma DivSelf(x: real)
    requires x != 0.0
    ensures x / x == 1.0
  {
  }

  lemma BlendSame(w: real, p: real)
    ensures Blend(w, p, p) == p
  {
  }

  // ---------------------------------------------------------------------
  // Guarded metrics (eval.cpp, test.cpp)

  /** Plain IoU of annotation `a` and detection `d`, 0.0 when `a & d` is empty. */
  function IoU(a: Box, d: Box): (r: real)
    requires Valid(a) && Valid(d)
    ensures r == 0.0 <==> IntersectionArea(a, d) == 0
    ensures IntersectionArea(a, d) > 0 ==> 0.0 < r <= 1.0
  {
    UnionBounds(a, d);
    GuardedRatio(IntersectionArea(a, d), Area(a), Area(d))
  }

  /** The guard `if (A_da == 0) return 0` in front of the plain ratio. */
  function GuardedRatio(both: int, ea: int, ed: int): (r: real)
    requires 0 <= both <= ea && both <= ed && (both > 0 ==> ea + ed - both > 0)
    ensures r == 0.0 <==> both == 0
    ensures both > 0 ==> 0.0 < r <= 1.0
    ensures r * ((both + (ea - both) + (ed - both)) as real) == both as real
  {
    if both == 0 then 0.0
    else
      PlainRatioRange(both, ea, ed);
      PlainRatio(both, ea, ed)
  }

  /** What the guarded unbiased score needs to avoid a zero divisor: the
      frame area differs from the intersection whenever the boxes meet. */
  predicate UnbiasedDefined(a: Box, d: Box, bg: int) {
    IntersectionArea(a, d) == 0 || bg != IntersectionArea(a, d)
  }

  /** Unbiased IoU with frame area `bg`, 0.0 when `a & d` is empty. */
  function UnbiasedIoU(a: Box, d: Box, bg: int): (r: real)
    requires Valid(a) && Valid(d) && UnbiasedDefined(a, d, bg)
    ensures IntersectionArea(a, d) == 0 ==> r == 0.0
  {
    var i := IntersectionArea(a, d);
    UnionBounds(a, d);
    if i == 0 then 0.0
    else UnbiasedRatio(i, Area(a), Area(d), bg)
  }

  // ---------------------------------------------------------------------
  // Unguarded metrics (detect_eval.cpp, detectionEvaluator.cpp)

  /** A_da / (A_da + A_d1a + A_da1) with no early return.  The divisor is the
      union, which is zero only when both boxes have zero area. */
  function UnguardedIoU(a: Box, d: Box): real
    requires Valid(a) && Valid(d) && UnionArea(a, d) > 0
  {
    PlainRatio(IntersectionArea(a, d), Area(a), Area(d))
  }

  /** The unbiased expression with no early return. */
  function UnguardedUnbiasedIoU(a: Box, d: Box, bg: int): real
    requires Valid(a) && Valid(d) && UnionArea(a, d) > 0
    requires bg != IntersectionArea(a, d)
  {
    UnbiasedRatio(IntersectionArea(a, d), Area(a), Area(d), bg)
  }

  // ---------------------------------------------------------------------
  // Selecting the metric, as the evaluation loops do with `unbiased`

  /** Which copy of the metrics an evaluation loop calls. */
  datatype Variant = Guarded | Unguarded

  /** The selected metric has no zero divisor on these inputs. */
  predicate Scorable(v: Variant, unbiased: bool, a: Box, d: Box, bg: int) {
    && Valid(a) && Valid(d)
    && match v
       case Guarded => !unbiased || UnbiasedDefined(a, d, bg)
       case Unguarded => UnionArea(a, d) > 0 && (!unbiased || bg != IntersectionArea(a, d))
  }

  /** `unbiased ? unbiased_IoU_eval(a, d, bg) : IoU_eval(a, d)` of the chosen copy. */
  function Score(v: Variant, unbiased: bool, a: Box, d: Box, bg: int): real
    requires Scorable(v, unbiased, a, d, bg)
  {
    match v
    case Guarded => if unbiased then UnbiasedIoU(a, d, bg) else IoU(a, d)
    case Unguarded => if unbiased then UnguardedUnbiasedIoU(a, d, bg) else UnguardedIoU(a, d)
  }


  // ---------------------------------------------------------------------
  // Real-arithmetic helpers

  lemma SqPositive(n: int)
    ensures Sq(n) >= 0
    ensures n != 0 ==> Sq(n) > 0
  {
    if n < 0 {
      assert Sq(n) == (-n) * (-n);
    }
  }

  lemma MixSplit(w: real, n1: real, d1: real, n2: real, d2: real)
    requires d1 != 0.0 && d2 != 0.0
    ensures Mix(w, n1, d1, n2, d2) == Blend(w, n1 / d1, n2 / d2)
  {
    MulDiv(w, n1, d1);
    MulDiv(1.0 - w, n2, d2);
  }

  lemma MulDiv(w: real, x: real, y: real)
    requires y != 0.0
    ensures w * x / y == w * (x / y)
  {
  }

  lemma MulNonneg(x: real, y: real)
    requires x >= 0.0 && y >= 0.0
    ensures x * y >= 0.0
  {
  }

  lemma MulPos(x: real, y: real)
    requires x > 0.0 && y > 0.0
    ensures x * y > 0.0
  {
  }

  lemma RatioBounds(n: real, m: real)
    requires 0.0 < m && 0.0 <= n <= m
    ensures 0.0 <= n / m <= 1.0
    ensures n > 0.0 ==> n / m > 0.0
  {
    RatioInUnit(n, m);
  }

  lemma RatioInUnit(n: real, m: real)
    requires 0.0 < m && 0.0 <= n <= m
    ensures 0.0 <= n / m <= 1.0
    ensures n > 0.0 ==> n / m > 0.0
    ensures n / m * m == n
  {
    var q := n / m;
    assert q * m == n;
    assert (1.0 - q) * m == m - n;
    assert 1.0 / m > 0.0 by { assert (1.0 / m) * m == 1.0; }
    assert q == n * (1.0 / m);
    MulNonneg(n, 1.0 / m);
    MulNonneg(m - n, 1.0 / m);
    assert (m - n) * (1.0 / m) == 1.0 - q;
    if n > 0.0 {
      MulPos(n, 1.0 / m);
    }
  }

  /** w0 lies strictly between 0 and 1 when both squares are positive. */
  lemma WeightInUnit(u: int, t: int)
    requires u != 0 && t != 0
    ensures 0.0 < Weight(u, t) < 1.0
  {
    SqPositive(u);
    SqPositive(t);
    var p, q := Sq(u) as real, Sq(t) as real;
    assert (Sq(u) + Sq(t)) as real == p + q;
    FractionInUnit(p, q);
  }

  lemma FractionInUnit(p: real, q: real)
    requires p > 0.0 && q > 0.0
    ensures 0.0 < p / (p + q) < 1.0
  {
    RatioInUnit(p, p + q);
    var w := p / (p + q);
    assert w * (p + q) == p;
    assert (1.0 - w) * (p + q) == q;
  }

  /** A convex combination c of p and q lies between them, and so in [0, 1]
      when they do. */
  lemma ConvexUnit(w: real, p: real, q: real, c: real)
    requires 0.0 <= w <= 1.0 && 0.0 <= p <= 1.0 && 0.0 <= q <= 1.0
    requires c == Blend(w, p, q)
    ensures (p <= c <= q) || (q <= c <= p)
    ensures 0.0 <= c <= 1.0
  {
    assert c - q == w * (p - q);
    assert p - c == (1.0 - w) * (p - q);
    if p >= q {
      MulNonneg(w, p - q);
      MulNonneg(1.0 - w, p - q);
    } else {
      MulNonneg(w, q - p);
      MulNonneg(1.0 - w, q - p);
      assert c - q == -(w * (q - p));
      assert p - c == -((1.0 - w) * (q - p));
    }
  }


  // ---------------------------------------------------------------------
  // Properties of the metrics on boxes

  /** IoU does not depend on which box is the annotation. */
  lemma IoUSymmetric(a: Box, d: Box)
    requires Valid(a) && Valid(d)
    ensures IoU(a, d) == IoU(d, a)
  {
    IntersectCommutes(a, d);
    UnionBounds(a, d);
    if IntersectionArea(a, d) != 0 {
      PlainRatioSymmetric(IntersectionArea(a, d), Area(a), Area(d));
    }
  }

  /** A box with positive area overlaps itself perfectly. */
  lemma IoUSelf(a: Box)
    requires Valid(a) && Area(a) > 0
    ensures IoU(a, a) == 1.0
  {
    IntersectSelf(a);
    var e := Area(a) as real;
    assert IoU(a, a) == e / (e + 0.0 + 0.0);
  }

  /** The unguarded IoU agrees with the guarded one wherever it is defined:
      for disjoint boxes it is 0 / U = 0, so the missing guard changes nothing. */
  lemma UnguardedIoUAgrees(a: Box, d: Box)
    requires Valid(a) && Valid(d) && UnionArea(a, d) > 0
    ensures UnguardedIoU(a, d) == IoU(a, d)
    ensures IntersectionArea(a, d) == 0 ==> UnguardedIoU(a, d) == 0.0
  {
    UnionBounds(a, d);
    PlainRatioRange(IntersectionArea(a, d), Area(a), Area(d));
  }

  lemma UnguardedIoUSymmetric(a: Box, d: Box)
    requires Valid(a) && Valid(d) && UnionArea(a, d) > 0
    ensures UnionArea(d, a) > 0
    ensures UnguardedIoU(a, d) == UnguardedIoU(d, a)
  {
    IntersectCommutes(a, d);
    PlainRatioSymmetric(IntersectionArea(a, d), Area(a), Area(d));
  }

  /** For identical boxes the unguarded IoU is 1 too. */
  lemma UnguardedIoUSelf(a: Box)
    requires Valid(a) && Area(a) > 0
    ensures UnionArea(a, a) > 0
    ensures UnguardedIoU(a, a) == 1.0
  {
    UnionBounds(a, a);
    UnguardedIoUAgrees(a, a);
    IoUSelf(a);
  }

  /** The background term of the unbiased score: the share of the pixels
      outside the intersection that neither box covers. */
  function BackgroundAccuracy(a: Box, d: Box, bg: int): (r: real)
    requires Valid(a) && Valid(d) && bg != IntersectionArea(a, d)
    ensures bg >= UnionArea(a, d) && bg > IntersectionArea(a, d) ==> 0.0 <= r <= 1.0
  {
    UnionBounds(a, d);
    var i, ea, ed := IntersectionArea(a, d), Area(a), Area(d);
    if bg >= UnionArea(a, d) && bg > i then
      BackgroundRatioRange(i, ea, ed, bg);
      BackgroundRatio(i, ea, ed, bg)
    else BackgroundRatio(i, ea, ed, bg)
  }

  /** The unbiased score of overlapping boxes is the convex combination
      w0 * IoU + (1 - w0) * background term, with
      w0 = U^2 / (U^2 + (A_bg - I)^2); the unguarded copy agrees there. */
  lemma UnbiasedDecomposition(a: Box, d: Box, bg: int)
    requires Valid(a) && Valid(d) && IntersectionArea(a, d) > 0
    requires bg != IntersectionArea(a, d)
    ensures UnionArea(a, d) > 0
    ensures UnbiasedIoU(a, d, bg)
         == Blend(Weight(UnionArea(a, d), bg - IntersectionArea(a, d)), IoU(a, d), BackgroundAccuracy(a, d, bg))
    ensures UnguardedUnbiasedIoU(a, d, bg) == UnbiasedIoU(a, d, bg)
  {
    UnionBounds(a, d);
    var i, ea, ed := IntersectionArea(a, d), Area(a), Area(d);
    UnbiasedRatioClosedForm(i, ea, ed, bg);
    assert UnionArea(a, d) == i + (ea - i) + (ed - i);
    assert IoU(a, d) == PlainRatio(i, ea, ed);
  }

  /** When the frame is at least as large as the union and larger than the
      intersection, the unbiased score lies in [0, 1]. */
  lemma UnbiasedInUnit(a: Box, d: Box, bg: int)
    requires Valid(a) && Valid(d)
    requires bg >= UnionArea(a, d) && bg > IntersectionArea(a, d)
    ensures 0.0 <= UnbiasedIoU(a, d, bg) <= 1.0
  {
    if IntersectionArea(a, d) > 0 {
      UnionBounds(a, d);
      UnbiasedRatioRange(IntersectionArea(a, d), Area(a), Area(d), bg);
    }
  }

  /** For overlapping boxes in such a frame the weight w0 lies strictly
      inside (0, 1), and the unbiased score lies between the IoU and the
      background term. */
  lemma UnbiasedBetween(a: Box, d: Box, bg: int)
    requires Valid(a) && Valid(d) && IntersectionArea(a, d) > 0
    requires bg >= UnionArea(a, d) && bg > IntersectionArea(a, d)
    ensures UnionArea(a, d) > 0
    ensures var w := Weight(UnionArea(a, d), bg - IntersectionArea(a, d));
      var fg := IoU(a, d);
      var back := BackgroundAccuracy(a, d, bg);
      && 0.0 < w < 1.0
      && ((fg <= UnbiasedIoU(a, d, bg) <= back) || (back <= UnbiasedIoU(a, d, bg) <= fg))
  {
    UnbiasedDecomposition(a, d, bg);
    WeightInUnit(UnionArea(a, d), bg - IntersectionArea(a, d));
    ConvexUnit(Weight(UnionArea(a, d), bg - IntersectionArea(a, d)), IoU(a, d), BackgroundAccuracy(a, d, bg),
               UnbiasedIoU(a, d, bg));
  }

  /** A box scored against itself gets 1 when its area is positive and
      smaller than the frame. */
  lemma UnbiasedSelf(a: Box, bg: int)
    requires Valid(a) && 0 < Area(a) < bg
    ensures UnbiasedDefined(a, a, bg)
    ensures UnbiasedIoU(a, a, bg) == 1.0
  {
    IntersectSelf(a);
    UnbiasedRatioSelf(Area(a), bg);
  }

  /** The unbiased score does not depend on which box is the annotation. */
  lemma UnbiasedSymmetric(a: Box, d: Box, bg: int)
    requires Valid(a) && Valid(d) && UnbiasedDefined(a, d, bg)
    ensures UnbiasedDefined(d, a, bg)
    ensures UnbiasedIoU(a, d, bg) == UnbiasedIoU(d, a, bg)
  {
    IntersectCommutes(a, d);
    UnionBounds(a, d);
    if IntersectionArea(a, d) > 0 {
      UnbiasedRatioSymmetric(IntersectionArea(a, d), Area(a), Area(d), bg);
    }
  }

  lemma UnguardedUnbiasedSymmetric(a: Box, d: Box, bg: int)
    requires Valid(a) && Valid(d) && UnionArea(a, d) > 0
    requires bg != IntersectionArea(a, d)
    ensures UnionArea(d, a) > 0 && bg != IntersectionArea(d, a)
    ensures UnguardedUnbiasedIoU(a, d, bg) == UnguardedUnbiasedIoU(d, a, bg)
  {
    IntersectCommutes(a, d);
    UnbiasedRatioSymmetric(IntersectionArea(a, d), Area(a), Area(d), bg);
  }

  /** Without the guard, disjoint boxes do not score 0: the score is the
      background term (1 - w0) * (A_bg - U) / A_bg, with w0 = U^2 / (U^2 + A_bg^2). */
  lemma UnguardedUnbiasedDisjoint(a: Box, d: Box, bg: int)
    requires Valid(a) && Valid(d) && UnionArea(a, d) > 0 && bg != 0
    requires IntersectionArea(a, d) == 0
    ensures var u := UnionArea(a, d) as real;
      var b := bg as real;
      var w := Weight(UnionArea(a, d), bg);
      UnguardedUnbiasedIoU(a, d, bg) == (1.0 - w) * ((b - u) / b)
  {
    UnbiasedRatioClosedForm(0, Area(a), Area(d), bg);
    var u := UnionArea(a, d) as real;
    assert 0.0 / u == 0.0;
  }

  /** A concrete pair: two 1 x 1 boxes far apart in a 100-pixel frame score
      0 with the guard and 9800/10004 without it. */
  lemma UnguardedUnbiasedDisjointPositive()
    ensures IntersectionArea(Box(0, 0, 1, 1), Box(5, 5, 1, 1)) == 0
    ensures UnionArea(Box(0, 0, 1, 1), Box(5, 5, 1, 1)) == 2
    ensures UnbiasedIoU(Box(0, 0, 1, 1), Box(5, 5, 1, 1), 100) == 0.0
    ensures UnguardedUnbiasedIoU(Box(0, 0, 1, 1), Box(5, 5, 1, 1), 100) == 9800.0 / 10004.0
  {
    var a, d := Box(0, 0, 1, 1), Box(5, 5, 1, 1);
    assert Intersect(a, d) == Empty;
    UnguardedUnbiasedDisjoint(a, d, 100);
    assert (1.0 - 4.0 / 10004.0) * (98.0 / 100.0) == 9800.0 / 10004.0;
  }

  /** The worked example: ground truth (0, 0, 100, 100) against the
      detection (10, 10, 100, 100) in a 100 x 100 frame.  The overlap is
      90 x 90 = 8100 of a union of 11900.  The frame (10000 pixels) is
      smaller than the union, so the background term is (10000 - 11900) /
      (10000 - 8100) = -1 and pulls the unbiased score below the IoU. */
  lemma WorkedExample()
    ensures IntersectionArea(Box(0, 0, 100, 100), Box(10, 10, 100, 100)) == 8100
    ensures UnionArea(Box(0, 0, 100, 100), Box(10, 10, 100, 100)) == 11900
    ensures IoU(Box(0, 0, 100, 100), Box(10, 10, 100, 100)) == 8100.0 / 11900.0
    ensures UnbiasedIoU(Box(0, 0, 100, 100), Box(10, 10, 100, 100), 10000)
          < IoU(Box(0, 0, 100, 100), Box(10, 10, 100, 100))
  {
    var a, d := Box(0, 0, 100, 100), Box(10, 10, 100, 100);
    assert Intersect(a, d) == Box(10, 10, 90, 90);
    UnbiasedDecomposition(a, d, 10000);
    var w := Weight(11900, 1900);
    assert UnbiasedIoU(a, d, 10000) == Blend(w, 8100.0 / 11900.0, -1900.0 / 1900.0);
    WeightInUnit(11900, 1900);
  }

  /** The same boxes in a 200 x 200 frame, which holds their union: the
      background term (40000 - 11900) / (40000 - 8100) = 28100 / 31900 is
      above the IoU, so the unbiased score lies strictly between the two. */
  lemma WorkedExampleLargeFrame()
    ensures BackgroundAccuracy(Box(0, 0, 100, 100), Box(10, 10, 100, 100), 40000) == 28100.0 / 31900.0
    ensures IoU(Box(0, 0, 100, 100), Box(10, 10, 100, 100))
          < UnbiasedIoU(Box(0, 0, 100, 100), Box(10, 10, 100, 100), 40000)
          < BackgroundAccuracy(Box(0, 0, 100, 100), Box(10, 10, 100, 100), 40000)
  {
    var a, d := Box(0, 0, 100, 100), Box(10, 10, 100, 100);
    assert Intersect(a, d) == Box(10, 10, 90, 90);
    UnbiasedDecomposition(a, d, 40000);
    var w := Weight(11900, 31900);
    var p, q := 8100.0 / 11900.0, 28100.0 / 31900.0;
    assert UnbiasedIoU(a, d, 40000) == Blend(w, p, q);
    WeightInUnit(11900, 31900);
    assert p < q;
    assert Blend(w, p, q) - p == (1.0 - w) * (q - p);
    MulPos(1.0 - w, q - p);
    assert q - Blend(w, p, q) == w * (q - p);
    MulPos(w, q - p);
  }
}
