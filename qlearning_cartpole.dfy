/** The tabular Q-learning CartPole panel: episodes of recorded steps with a
    continuous four-number state and two Q-values per state. */
module QlearningCartpole {
  import opened Replay
  import opened Trace
  import opened Cartpole

  const Alpha: real := 0.1

  /** Everything the panel computes from the selected step. */
  datatype View = View(
    safeStepIndex: nat,
    step: Filled,
    bestAction: nat,
    isGreedy: bool,
    nextMaxQ: real,
    updatedQ: real,
    minQ: real,
    maxQ: real)

  /** The panel's derivation; None is the "Loading..." screen shown while
      there are no episodes. The greedy action is taken from the current
      Q-values, the TD update moves the chosen Q-value towards the target,
      and the colour range spans both rows of the table. */
  function Derive(episodes: seq<Episode>, episodeIndex: nat, stepIndex: nat): (v: Option<View>)
    requires WellFormed(Fill(SelectStep(episodes, episodeIndex, stepIndex), ZeroState, ZeroQ))
    ensures v.None? <==> |episodes| == 0
    ensures v.Some? ==>
      var w := v.value;
      var f := w.step;
      var all := f.qValues + f.nextQValues;
      && w.safeStepIndex == ClampStep(stepIndex, |StepsAt(episodes, episodeIndex)|)
      && f == Fill(SelectStep(episodes, episodeIndex, stepIndex), ZeroState, ZeroQ)
      && IsFirstMaximum(f.qValues, w.bestAction)
      && (w.isGreedy <==> f.action == w.bestAction)
      && w.nextMaxQ in f.nextQValues
      && (forall k :: 0 <= k < |f.nextQValues| ==> f.nextQValues[k] <= w.nextMaxQ)
      && f.action < |f.qValues|
      && (var q := f.qValues[f.action];
          var target := BellmanTarget(f.reward, Gamma, w.nextMaxQ);
          && w.updatedQ == TdUpdate(q, Alpha, target)
          && (q <= target ==> q <= w.updatedQ <= target) && (target <= q ==> target <= w.updatedQ <= q))
      && w.minQ in all && w.maxQ in all
      && (forall k :: 0 <= k < |all| ==> w.minQ <= all[k] <= w.maxQ)
  {
    if |episodes| == 0 then None
    else
      var s := SelectStep(episodes, episodeIndex, stepIndex);
      var f := Fill(s, ZeroState, ZeroQ);
      var bestAction := Argmax(f.qValues);
      var nextMaxQ := Max(f.nextQValues);
      var q := f.qValues[f.action];
      var all := f.qValues + f.nextQValues;
      Some(View(ClampStep(stepIndex, |StepsAt(episodes, episodeIndex)|), f,
                bestAction, f.action == bestAction, nextMaxQ,
                TdUpdate(q, Alpha, BellmanTarget(f.reward, Gamma, nextMaxQ)),
                Min(all), Max(all)))
  }

  /** The update shown, with this panel's constants written out:
      `q + 0.1 * (r + 0.99 * m - q)` is `0.9 q + 0.1 r + 0.099 m`. */
  lemma UpdateRuleConstants(q: real, reward: real, nextMaxQ: real)
    ensures TdUpdate(q, Alpha, BellmanTarget(reward, Gamma, nextMaxQ)) == 0.9 * q + 0.1 * reward + 0.099 * nextMaxQ
  {
  }

  /** A missing step shows the zero state, zero Q-values, action 0, reward 0
      and epsilon 0, and its update leaves the zero Q-value unchanged. */
  lemma MissingStepDefaults(episodes: seq<Episode>, episodeIndex: nat, stepIndex: nat)
    requires |episodes| > 0 && SelectStep(episodes, episodeIndex, stepIndex) == NoStep
    ensures var w := Derive(episodes, episodeIndex, stepIndex).value;
      && w.step.state == ZeroState && w.step.qValues == ZeroQ
      && w.step.action == 0 && w.step.reward == 0.0 && w.step.epsilon == 0.0
      && w.bestAction == 0 && w.isGreedy && w.updatedQ == 0.0
  {
    var w := Derive(episodes, episodeIndex, stepIndex).value;
    assert w.step == Filled(ZeroState, ZeroState, 0.0, ZeroQ, ZeroQ, 0, 0.0);
    assert w.nextMaxQ == 0.0;
  }

  /** `bgColorForQ`: the three-stop colour of a Q-value, without clamping. */
  function BgColorForQ(val: real, minQ: real, maxQ: real): Rgb
  {
    ThreeStop(Normalize(val, minQ, maxQ))
  }

  /** Every value shown in the table lies in the colour range, so its
      position on the scale is in [0, 1] and its colour lies between the low
      and high stops, also when all values are equal. */
  lemma TableCellsInScale(episodes: seq<Episode>, episodeIndex: nat, stepIndex: nat, k: nat)
    requires |episodes| > 0 && WellFormed(Fill(SelectStep(episodes, episodeIndex, stepIndex), ZeroState, ZeroQ))
    requires var f := Derive(episodes, episodeIndex, stepIndex).value.step;
      k < |f.qValues + f.nextQValues|
    ensures var w := Derive(episodes, episodeIndex, stepIndex).value;
      var val := (w.step.qValues + w.step.nextQValues)[k];
      && 0.0 <= Normalize(val, w.minQ, w.maxQ) <= 1.0
      && Between(Low, High, BgColorForQ(val, w.minQ, w.maxQ))
  {
  }

  /** The colour computed inline in the table cells, with `r`, `g` and `b`
      assigned in the branches; it is the same triple as `bgColorForQ` for
      every value. */
  method InlineCellColour(val: real, minQ: real, maxQ: real) returns (c: Rgb)
    ensures c == BgColorForQ(val, minQ, maxQ)
  {
    var t := (val - minQ) / Denominator(maxQ - minQ);
    var r, g, b;
    if t < 0.5 {
      var p := t / 0.5;
      r := Low.r + p * (MidStop.r - Low.r);
      g := Low.g + p * (MidStop.g - Low.g);
      b := Low.b + p * (MidStop.b - Low.b);
    } else {
      var p := (t - 0.5) / 0.5;
      r := MidStop.r + p * (High.r - MidStop.r);
      g := MidStop.g + p * (High.g - MidStop.g);
      b := MidStop.b + p * (High.b - MidStop.b);
    }
    c := Rgb(r, g, b);
  }

  /** The reward curve: a move to the first reward at x = 40, then one line
      per later reward at x = 40 + i * 860 / 249. */
  method BuildCurve(rs: seq<real>) returns (path: seq<Segment>)
    requires |rs| > 0
    ensures |path| == |rs|
    ensures path[0] == M(PlotX(0, MaxEpisodes), Project(RewardAxis(rs), rs[0]))
    ensures forall i :: 0 < i < |rs| ==> path[i] == L(PlotX(i, MaxEpisodes), Project(RewardAxis(rs), rs[i]))
  {
    var axis := RewardAxis(rs);
    path := [M(Padding, Project(axis, rs[0]))];
    var i := 0;
    while i < |rs|
      invariant 0 <= i <= |rs|
      invariant |path| == MaxInt(i, 1)
      invariant path[0] == M(PlotX(0, MaxEpisodes), Project(axis, rs[0]))
      invariant forall j :: 0 < j < |path| ==> path[j] == L(PlotX(j, MaxEpisodes), Project(axis, rs[j]))
    {
      var x := PlotX(i, MaxEpisodes);
      var y := Project(axis, rs[i]);
      if i > 0 {
        path := path + [L(x, y)];
      }
      i := i + 1;
    }
  }

  /** The curve of the selected prefix of episodes; None while there are no
      episodes. Every point lies inside the plot's 0 .. 150 band. */
  method RewardCurve(episodes: seq<Episode>, episodeIndex: nat) returns (path: Option<seq<Segment>>)
    ensures path.None? <==> |episodes| == 0
    ensures path.Some? ==> |path.value| == |Totals(episodes, episodeIndex)|
    ensures path.Some? ==> forall i :: 0 <= i < |path.value| ==> 0.0 <= path.value[i].y <= SvgHeight
    ensures path.Some? ==>
      var rs := Totals(episodes, episodeIndex);
      && |rs| > 0
      && path.value[0] == M(PlotX(0, MaxEpisodes), Project(RewardAxis(rs), rs[0]))
      && forall i :: 0 < i < |rs| ==> path.value[i] == L(PlotX(i, MaxEpisodes), Project(RewardAxis(rs), rs[i]))
  {
    var rs := Totals(episodes, episodeIndex);
    if |rs| == 0 {
      return None;
    }
    var p := BuildCurve(rs);
    forall i | 0 <= i < |p| ensures 0.0 <= p[i].y <= SvgHeight {
      RewardAxisAnchors(rs, i);
    }
    path := Some(p);
  }
}
