/** The deep Q-learning CartPole panel: the same episode records as the
    tabular CartPole panel, read with the DQN target and loss. */
module DeepqCartpole {
  import opened Replay
  import opened Trace
  import opened Cartpole

  /** Everything the panel computes from the selected step. */
  datatype View = View(
    safeStepIndex: nat,
    step: Filled,
    bestAction: nat,
    isGreedy: bool,
    nextMaxAction: nat,
    nextMaxQ: real,
    target: real,
    loss: real,
    minQ: real,
    maxQ: real)

  /** The panel's derivation; None is the "Loading..." screen shown while
      there are no episodes. The greedy action comes from the current
      Q-values, the next-state maximum from the next-state Q-values, and the
      loss compares the DQN target with the chosen action's Q-value. */
  function Derive(episodes: seq<Episode>, episodeIndex: nat, stepIndex: nat): (v: Option<View>)
    requires WellFormed(Fill(SelectStep(episodes, episodeIndex, stepIndex), ZeroState, ZeroQ))
    ensures v.None? <==> |episodes| == 0
    ensures v.Some? ==>
      var w := v.value;
      var f := w.step;
      var all := f.qValues + f.nextQValues;
      && w.safeStepIndex == ClampStep(stepIndex, |StepsAt(episodes, episodeIndex)|)
      && f == Fill(SelectStep(episodes, episodeIndex, stepIndex), ZeroState, ZeroQ)
      && IsFirstMaximum(f.qValues, w.bestAction)
      && (w.isGreedy <==> f.action == w.bestAction)
      && IsFirstMaximum(f.nextQValues, w.nextMaxAction)
      && w.nextMaxQ == f.nextQValues[w.nextMaxAction]
      && w.target == BellmanTarget(f.reward, Gamma, w.nextMaxQ)
      && f.action < |f.qValues|
      && w.loss >= 0.0
      && (w.loss == 0.0 <==> w.target == f.qValues[f.action])
      && w.loss == SquaredError(w.target, f.qValues[f.action])
      && w.minQ in all && w.maxQ in all
      && (forall k :: 0 <= k < |all| ==> w.minQ <= all[k] <= w.maxQ)
  {
    if |episodes| == 0 then None
    else
      var s := SelectStep(episodes, episodeIndex, stepIndex);
      var f := Fill(s, ZeroState, ZeroQ);
      var bestAction := Argmax(f.qValues);
      var nextMaxAction := Argmax(f.nextQValues);
      var nextMaxQ := Max(f.nextQValues);
      var target := BellmanTarget(f.reward, Gamma, nextMaxQ);
      var all := f.qValues + f.nextQValues;
      Some(View(ClampStep(stepIndex, |StepsAt(episodes, episodeIndex)|), f,
                bestAction, f.action == bestAction, nextMaxAction, nextMaxQ, target,
                SquaredError(target, f.qValues[f.action]),
                Min(all), Max(all)))
  }

  /** A missing step shows the zero state, zero Q-values, action 0, reward 0
      and epsilon 0, and its loss is zero. */
  lemma MissingStepDefaults(episodes: seq<Episode>, episodeIndex: nat, stepIndex: nat)
    requires |episodes| > 0 && SelectStep(episodes, episodeIndex, stepIndex) == NoStep
    ensures var w := Derive(episodes, episodeIndex, stepIndex).value;
      && w.step.state == ZeroState && w.step.qValues == ZeroQ
      && w.step.action == 0 && w.step.reward == 0.0 && w.step.epsilon == 0.0
      && w.bestAction == 0 && w.nextMaxAction == 0 && w.isGreedy && w.loss == 0.0
  {
    var w := Derive(episodes, episodeIndex, stepIndex).value;
    assert w.step == Filled(ZeroState, ZeroState, 0.0, ZeroQ, ZeroQ, 0, 0.0);
    assert w.nextMaxQ == 0.0;
  }

  /** The colour at scale position 0, `rgb(200, 220, 255)`. */
  const Pale: Rgb := Rgb(200.0, 220.0, 255.0)
  /** The colour at scale position 1, `rgb(100, 240, 175)`. */
  const Deep: Rgb := Rgb(100.0, 240.0, 175.0)

  /** `bgColorForQ`: `(200 - 100 t, 220 + 20 t, 255 - 80 t)` with the `1e-6`
      guarded position t. */
  function BgColorForQ(val: real, minQ: real, maxQ: real): Rgb
  {
    var t := Normalize(val, minQ, maxQ);
    Rgb(200.0 - t * 100.0, 220.0 + t * 20.0, 255.0 - t * 80.0)
  }

  /** The linear scale is the straight line from the pale to the deep colour:
      values in the range get a colour between the two, the minimum the pale
      one and a proper maximum the deep one. */
  lemma BgColorForQRange(val: real, minQ: real, maxQ: real)
    ensures BgColorForQ(val, minQ, maxQ) == LerpRgb(Pale, Deep, Normalize(val, minQ, maxQ))
    ensures minQ <= val <= maxQ ==> Between(Pale, Deep, BgColorForQ(val, minQ, maxQ))
    ensures minQ < maxQ && val == minQ ==> BgColorForQ(val, minQ, maxQ) == Pale
    ensures minQ < maxQ && val == maxQ ==> BgColorForQ(val, minQ, maxQ) == Deep
  {
    var t := Normalize(val, minQ, maxQ);
    assert Lerp(200.0, 100.0, t) == 200.0 - t * 100.0;
    assert Lerp(220.0, 240.0, t) == 220.0 + t * 20.0;
    assert Lerp(255.0, 175.0, t) == 255.0 - t * 80.0;
  }

  /** The reward curve: a move to the first reward at x = 40, then a line to
      every reward i, the first included, at x = 40 + i * 860 / 249. */
  method BuildCurve(rs: seq<real>) returns (path: seq<Segment>)
    requires |rs| > 0
    ensures |path| == |rs| + 1
    ensures path[0] == M(Padding, Project(RewardAxis(rs), rs[0]))
    ensures forall i :: 0 <= i < |rs| ==> path[i + 1] == L(PlotX(i, MaxEpisodes), Project(RewardAxis(rs), rs[i]))
  {
    var axis := RewardAxis(rs);
    path := [M(Padding, Project(axis, rs[0]))];
    var i := 0;
    while i < |rs|
      invariant 0 <= i <= |rs|
      invariant |path| == i + 1
      invariant path[0] == M(Padding, Project(axis, rs[0]))
      invariant forall j :: 0 <= j < i ==> path[j + 1] == L(PlotX(j, MaxEpisodes), Project(axis, rs[j]))
    {
      var x := PlotX(i, MaxEpisodes);
      var y := Project(axis, rs[i]);
      path := path + [L(x, y)];
      i := i + 1;
    }
  }

  /** The first point is drawn twice: the move and the first line go to the
      same coordinates. */
  lemma FirstPointDuplicated(rs: seq<real>, path: seq<Segment>)
    requires |rs| > 0
    requires |path| == |rs| + 1
    requires path[0] == M(Padding, Project(RewardAxis(rs), rs[0]))
    requires forall i :: 0 <= i < |rs| ==> path[i + 1] == L(PlotX(i, MaxEpisodes), Project(RewardAxis(rs), rs[i]))
    ensures path[0].x == path[1].x && path[0].y == path[1].y
  {
    assert path[1] == L(PlotX(0, MaxEpisodes), Project(RewardAxis(rs), rs[0]));
  }

  /** The curve of the selected prefix of episodes; None while there are no
      episodes. It has one point more than there are rewards, and every point
      lies inside the plot's 0 .. 150 band. */
  method RewardCurve(episodes: seq<Episode>, episodeIndex: nat) returns (path: Option<seq<Segment>>)
    ensures path.None? <==> |episodes| == 0
    ensures path.Some? ==> |path.value| == |Totals(episodes, episodeIndex)| + 1
    ensures path.Some? ==> path.value[0].x == path.value[1].x && path.value[0].y == path.value[1].y
    ensures path.Some? ==> forall i :: 0 <= i < |path.value| ==> 0.0 <= path.value[i].y <= SvgHeight
    ensures path.Some? ==>
      var rs := Totals(episodes, episodeIndex);
      && |rs| > 0
      && path.value[0] == M(Padding, Project(RewardAxis(rs), rs[0]))
      && forall i :: 0 <= i < |rs| ==> path.value[i + 1] == L(PlotX(i, MaxEpisodes), Project(RewardAxis(rs), rs[i]))
  {
    var rs := Totals(episodes, episodeIndex);
    if |rs| == 0 {
      return None;
    }
    var p := BuildCurve(rs);
    FirstPointDuplicated(rs, p);
    RewardAxisAnchors(rs, 0);
    forall i | 0 < i < |p| ensures 0.0 <= p[i].y <= SvgHeight {
      RewardAxisAnchors(rs, i - 1);
    }
    path := Some(p);
  }
}
