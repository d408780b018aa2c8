/** Shared replay derivations: the small rules that every panel applies to a
    logged step before it is drawn (greedy action, step clamping, the two
    update rules, the colour scale and the reward-plot y axis). All numbers
    are exact reals; JavaScript's floating point is not modelled. */
module Replay {

  datatype Option<T> = None | Some(value: T) {
    /** JavaScript's `x ?? d` (and `x || d` for objects and arrays). */
    function GetOr(default: T): T {
      match this
      case Some(v) => v
      case None => default
    }
  }

  function MinInt(a: int, b: int): int { if a <= b then a else b }
  function MaxInt(a: int, b: int): int { if a >= b then a else b }

  // ---------------------------------------------------------------------
  // Math.max / Math.min / indexOf over a non-empty vector of Q-values

  /** `Math.max(...v)`: the largest element of a non-empty vector. */
  function Max(v: seq<real>): (m: real)
    requires |v| > 0
    ensures m in v
    ensures forall i :: 0 <= i < |v| ==> v[i] <= m
  {
    if |v| == 1 then v[0]
    else
      var m := Max(v[..|v| - 1]);
      assert forall i :: 0 <= i < |v| - 1 ==> v[i] == v[..|v| - 1][i];
      if v[|v| - 1] > m then v[|v| - 1] else m
  }

  /** `Math.min(...v)`: the smallest element of a non-empty vector. */
  function Min(v: seq<real>): (m: real)
    requires |v| > 0
    ensures m in v
    ensures forall i :: 0 <= i < |v| ==> m <= v[i]
  {
    if |v| == 1 then v[0]
    else
      var m := Min(v[..|v| - 1]);
      assert forall i :: 0 <= i < |v| - 1 ==> v[i] == v[..|v| - 1][i];
      if v[|v| - 1] < m then v[|v| - 1] else m
  }

  /** `v.indexOf(x)` (also `v.findIndex(e => e === x)`): the first position
      holding x, or -1 when there is none. */
  function IndexOf(v: seq<real>, x: real): (k: int)
    ensures -1 <= k < |v|
    ensures k == -1 <==> x !in v
    ensures k >= 0 ==> v[k] == x && forall j :: 0 <= j < k ==> v[j] != x
  {
    if |v| == 0 then -1
    else if v[0] == x then 0
    else
      var k := IndexOf(v[1..], x);
      assert forall j :: 1 <= j < |v| ==> v[j] == v[1..][j - 1];
      if k < 0 then -1 else k + 1
  }

  /** `a` is a greedy choice in `v`: it attains the maximum and no lower
      index does (the tie-break of `indexOf(Math.max(...))`). */
  ghost predicate IsFirstMaximum(v: seq<real>, a: int)
  {
    0 <= a < |v|
    && (forall j :: 0 <= j < |v| ==> v[j] <= v[a])
    && (forall j :: 0 <= j < a ==> v[j] < v[a])
  }

  /** `v.indexOf(Math.max(...v))`: the greedy action of a Q-value row. */
  function Argmax(v: seq<real>): (a: nat)
    requires |v| > 0
    ensures a < |v| && v[a] == Max(v)
    ensures IsFirstMaximum(v, a)
  {
    IndexOf(v, Max(v))
  }

  /** The greedy action is the only first maximum, so `action === bestAction`
      holds exactly when the action is the lowest index of the maximum. */
  lemma ArgmaxIsTheFirstMaximum(v: seq<real>, a: int)
    requires |v| > 0
    ensures Argmax(v) == a <==> IsFirstMaximum(v, a)
  {
  }

  // ---------------------------------------------------------------------
  // Step clamping

  /** `Math.min(stepIndex, Math.max(len - 1, 0))`: the requested step pinned
      into the current episode (0 when the episode has no steps). */
  function ClampStep(stepIndex: nat, len: nat): (r: nat)
    ensures r <= MaxInt(len - 1, 0)
    ensures len > 0 ==> r < len
    ensures stepIndex < len ==> r == stepIndex
    ensures stepIndex >= len > 0 ==> r == len - 1
    ensures len == 0 ==> r == 0
  {
    MinInt(stepIndex, MaxInt(len - 1, 0))
  }

  // ---------------------------------------------------------------------
  // Update rules

  /** Bellman target `r + gamma * max Q(s', a')`. */
  function BellmanTarget(reward: real, gamma: real, nextMaxQ: real): real
  {
    reward + gamma * nextMaxQ
  }

  /** For a fixed reward and discount the target moves by gamma times any
      change of the next-state maximum. */
  lemma BellmanTargetIsLinear(reward: real, gamma: real, q: real, delta: real)
    ensures BellmanTarget(reward, gamma, q + delta) - BellmanTarget(reward, gamma, q) == gamma * delta
  {
    assert gamma * (q + delta) == gamma * q + gamma * delta;
  }

  /** `(target - predicted) ** 2`, the displayed DQN loss: never negative,
      and zero exactly when the prediction already equals the target. */
  function SquaredError(target: real, predicted: real): (e: real)
    ensures e >= 0.0
    ensures e == 0.0 <==> target == predicted
  {
    var e := (target - predicted) * (target - predicted);
    SquareSign(target - predicted, e);
    e
  }

  lemma SquareSign(d: real, e: real)
    requires e == d * d
    ensures e >= 0.0
    ensures d != 0.0 ==> e > 0.0
  {
    if d > 0.0 {
      calc { e; == d * d; > 0.0 * d; == 0.0; }
    } else if d < 0.0 {
      calc { e; == d * d; == (-d) * (-d); > 0.0; }
    }
  }

  /** Comparing a quotient with c is comparing the numerator with c * d. */
  lemma QuotientAbove(n: real, d: real, c: real)
    requires d > 0.0
    ensures n / d > c <==> n > c * d
  {
    var t := n / d;
    assert t * d == n;
    if t > c { assert (t - c) * d > 0.0; }
    else { assert (c - t) * d >= 0.0; }
  }

  lemma QuotientInUnit(n: real, d: real)
    requires 0.0 <= n <= d && d > 0.0
    ensures 0.0 <= n / d <= 1.0
  {
    QuotientAbove(n, d, 1.0);
  }

  /** A fraction p in [0, 1] of a difference d lies between 0 and d. */
  lemma FractionOfDifference(p: real, d: real)
    ensures 0.0 <= p <= 1.0 && d >= 0.0 ==> 0.0 <= p * d <= d
    ensures 0.0 <= p <= 1.0 && d <= 0.0 ==> d <= p * d <= 0.0
    ensures p == 0.0 ==> p * d == 0.0
    ensures p == 1.0 ==> p * d == d
  {
    if p == 0.0 {
      assert p * d == 0.0 * d;
    } else if p == 1.0 {
      assert p * d == 1.0 * d;
    }
    if 0.0 <= p <= 1.0 {
      if d >= 0.0 {
        assert 0.0 * d <= p * d <= 1.0 * d;
      } else {
        assert 0.0 * (-d) <= p * (-d) <= 1.0 * (-d);
      }
    }
  }

  /** Tabular update `q + alpha * (target - q)`. With a learning rate in
      [0, 1] the new value lies between the old value and the target; rate 0
      keeps the old value and rate 1 snaps to the target. */
  function TdUpdate(q: real, alpha: real, target: real): (r: real)
    ensures 0.0 <= alpha <= 1.0 && q <= target ==> q <= r <= target
    ensures 0.0 <= alpha <= 1.0 && target <= q ==> target <= r <= q
    ensures alpha == 0.0 ==> r == q
    ensures alpha == 1.0 ==> r == target
  {
    var r := q + alpha * (target - q);
    StepTowards(q, target, alpha, r);
    r
  }

  /** A step c of fraction p from a towards b stays between them. */
  lemma StepTowards(a: real, b: real, p: real, c: real)
    requires c == a + p * (b - a)
    ensures 0.0 <= p <= 1.0 && a <= b ==> a <= c <= b
    ensures 0.0 <= p <= 1.0 && b <= a ==> b <= c <= a
    ensures p == 0.0 ==> c == a
    ensures p == 1.0 ==> c == b
  {
    var d := b - a;
    FractionOfDifference(p, d);
    assert c == a + p * d;
  }

  // ---------------------------------------------------------------------
  // Colour scale

  datatype Rgb = Rgb(r: real, g: real, b: real)

  const Low: Rgb := Rgb(185.0, 245.0, 225.0)
  const MidStop: Rgb := Rgb(90.0, 200.0, 180.0)
  const High: Rgb := Rgb(30.0, 105.0, 155.0)

  /** The guard `d || 1e-6`: a zero range is replaced by 1e-6. */
  function Denominator(d: real): (r: real)
    ensures r != 0.0
    ensures d != 0.0 ==> r == d
  {
    if d == 0.0 then 0.000001 else d
  }

  /** `(val - minQ) / ((maxQ - minQ) || 1e-6)`. */
  function Normalize(val: real, minQ: real, maxQ: real): (t: real)
    ensures minQ <= val <= maxQ ==> 0.0 <= t <= 1.0
    ensures minQ < maxQ && val == minQ ==> t == 0.0
    ensures minQ < maxQ && val == maxQ ==> t == 1.0
    ensures minQ == maxQ == val ==> t == 0.0
  {
    var d := Denominator(maxQ - minQ);
    var n := val - minQ;
    if minQ <= val <= maxQ && minQ < maxQ then
      QuotientInUnit(n, d);
      n / d
    else
      n / d
  }

  /** `Math.max(0, Math.min(1, t))`. */
  function Clamp01(t: real): (r: real)
    ensures 0.0 <= r <= 1.0
    ensures 0.0 <= t <= 1.0 ==> r == t
    ensures t < 0.0 ==> r == 0.0
    ensures t > 1.0 ==> r == 1.0
  {
    if t > 1.0 then 1.0 else if t < 0.0 then 0.0 else t
  }

  /** `a + p * (b - a)`. */
  function Lerp(a: real, b: real, p: real): (c: real)
    ensures 0.0 <= p <= 1.0 && a <= b ==> a <= c <= b
    ensures 0.0 <= p <= 1.0 && b <= a ==> b <= c <= a
    ensures p == 0.0 ==> c == a
    ensures p == 1.0 ==> c == b
  {
    var c := a + p * (b - a);
    StepTowards(a, b, p, c);
    c
  }

  function LerpRgb(c0: Rgb, c1: Rgb, p: real): Rgb
  {
    Rgb(Lerp(c0.r, c1.r, p), Lerp(c0.g, c1.g, p), Lerp(c0.b, c1.b, p))
  }

  /** Each channel of `c` lies between the channels of `c0` and `c1`. */
  ghost predicate Between(c0: Rgb, c1: Rgb, c: Rgb)
  {
    && (if c0.r <= c1.r then c0.r <= c.r <= c1.r else c1.r <= c.r <= c0.r)
    && (if c0.g <= c1.g then c0.g <= c.g <= c1.g else c1.g <= c.g <= c0.g)
    && (if c0.b <= c1.b then c0.b <= c.b <= c1.b else c1.b <= c.b <= c0.b)
  }

  /** The two-segment scale low -> mid -> high, split at t = 0.5, before
      rounding into an `rgb(...)` string. */
  function ThreeStop(t: real): (c: Rgb)
    ensures 0.0 <= t < 0.5 ==> Between(Low, MidStop, c)
    ensures 0.5 <= t <= 1.0 ==> Between(MidStop, High, c)
  {
    if t < 0.5 then LerpRgb(Low, MidStop, t / 0.5)
    else LerpRgb(MidStop, High, (t - 0.5) / 0.5)
  }

  /** The scale reproduces its three stops exactly. */
  lemma ThreeStopHitsStops()
    ensures ThreeStop(0.0) == Low
    ensures ThreeStop(0.5) == MidStop
    ensures ThreeStop(1.0) == High
  {
    assert (0.5 - 0.5) / 0.5 == 0.0;
    assert (1.0 - 0.5) / 0.5 == 1.0;
  }

  /** Cell text is white when its value lies above the middle of the range. */
  function TextIsWhite(val: real, minQ: real, maxQ: real): bool
  {
    val > (minQ + maxQ) / 2.0
  }

  /** White text marks exactly the darker half of the colour scale (t > 0.5);
      with a degenerate range no value in it gets white text. */
  lemma WhiteTextOnDarkHalf(val: real, minQ: real, maxQ: real)
    ensures minQ < maxQ ==> (TextIsWhite(val, minQ, maxQ) <==> Normalize(val, minQ, maxQ) > 0.5)
    ensures minQ == maxQ == val ==> !TextIsWhite(val, minQ, maxQ)
  {
    if minQ < maxQ {
      QuotientAbove(val - minQ, maxQ - minQ, 0.5);
    }
  }

  // ---------------------------------------------------------------------
  // Reward plot

  const SvgWidth: real := 900.0
  const SvgHeight: real := 150.0
  const Padding: real := 40.0

  /** One command of the reward curve's SVG path. */
  datatype Segment = M(x: real, y: real) | L(x: real, y: real)

  /** A linear y axis `bottom - ((v - floor) / span) * height`. */
  datatype YAxis = YAxis(floor: real, span: real, bottom: real, height: real)

  function Project(axis: YAxis, v: real): (y: real)
    requires axis.span != 0.0
    ensures v == axis.floor ==> y == axis.bottom
    ensures v == axis.floor + axis.span ==> y == axis.bottom - axis.height
  {
    axis.bottom - ((v - axis.floor) / axis.span) * axis.height
  }

  /** With a positive span and a non-negative height, values inside
      [floor, floor + span] land inside [bottom - height, bottom]. */
  lemma ProjectInside(axis: YAxis, v: real)
    requires axis.span > 0.0 && axis.height >= 0.0
    requires axis.floor <= v <= axis.floor + axis.span
    ensures axis.bottom - axis.height <= Project(axis, v) <= axis.bottom
  {
    QuotientInUnit(v - axis.floor, axis.span);
    FractionOfDifference((v - axis.floor) / axis.span, axis.height);
  }

  /** The horizontal position `padding + i * (svgWidth - padding) / (n - 1)`
      of a plot over the x domain 0 .. n - 1. */
  function PlotX(i: int, maxEpisodes: nat): (x: real)
    requires maxEpisodes > 1
    ensures i == 0 ==> x == Padding
    ensures i == maxEpisodes - 1 ==> x == SvgWidth
  {
    Padding + (i as real) * ((SvgWidth - Padding) / ((maxEpisodes - 1) as real))
  }

  /** The cart's left offset `((x + 2.4) / 4.8) * 300` in pixels; both
      CartPole panels draw the cart and the pole with it. */
  function CartLeft(x: real): (px: real)
    ensures x == -2.4 ==> px == 0.0
    ensures x == 2.4 ==> px == 300.0
    ensures -2.4 <= x <= 2.4 ==> 0.0 <= px <= 300.0
  {
    ((x + 2.4) / 4.8) * 300.0
  }

  /** The cart moves right as the position grows. */
  lemma CartLeftMonotone(x1: real, x2: real)
    requires x1 <= x2
    ensures CartLeft(x1) <= CartLeft(x2)
  {
  }

  /** `arrows[a]` for the CliffWalk action arrows; None when out of range. */
  function ArrowAt(a: int): (s: Option<string>)
    ensures s.Some? <==> 0 <= a < 4
  {
    if a == 0 then Some("↑")
    else if a == 1 then Some("→")
    else if a == 2 then Some("↓")
    else if a == 3 then Some("←")
    else None
  }
}
