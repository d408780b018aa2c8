/** The deep Q-learning CliffWalk panel: episodes of recorded steps whose
    state is a 48-entry one-hot vector. */
module DeepqCliffwalk {
  import opened Replay
  import opened Cliffwalk
  import opened Trace

  const Gamma: real := 0.99
  /** `Array(4).fill(0)`. */
  const ZeroQ: seq<real> := [0.0, 0.0, 0.0, 0.0]
  /** The input layer is drawn in four rows. */
  const InputRows: nat := 4
  /** The reward plot's vertical extent `svgHeight - padding`. */
  const PlotHeight: real := 110.0

  /** `Array(totalStates).fill(0)`. */
  function ZeroState(): seq<real>
  {
    seq(TotalStates, _ => 0.0)
  }

  // ---------------------------------------------------------------------
  // Derivation

  /** `state.findIndex(v => v === 1)`, falling back to the start cell. */
  function CurrentStateIndex(state: seq<real>): (k: nat)
    ensures 1.0 in state ==> k < |state| && state[k] == 1.0 && forall j :: 0 <= j < k ==> state[j] != 1.0
    ensures 1.0 !in state ==> k == StartState
  {
    var i := IndexOf(state, 1.0);
    if i >= 0 then i else StartState
  }

  /** Everything the panel computes from the selected step. */
  datatype View = View(
    safeStepIndex: nat,
    step: Filled,
    bestAction: nat,
    nextMaxQ: real,
    isGreedy: bool,
    target: real,
    loss: real,
    currentStateIndex: nat)

  /** The panel's derivation; None is the "Loading..." screen shown while
      there are no episodes. The greedy action is taken from the next-state
      Q-values, and the loss compares the Bellman target with the chosen
      action's Q-value. */
  function Derive(episodes: seq<Episode>, episodeIndex: nat, stepIndex: nat): (v: Option<View>)
    requires WellFormed(Fill(SelectStep(episodes, episodeIndex, stepIndex), ZeroState(), ZeroQ))
    ensures v.None? <==> |episodes| == 0
    ensures v.Some? ==>
      var w := v.value;
      var f := w.step;
      && w.safeStepIndex == ClampStep(stepIndex, |StepsAt(episodes, episodeIndex)|)
      && f == Fill(SelectStep(episodes, episodeIndex, stepIndex), ZeroState(), ZeroQ)
      && IsFirstMaximum(f.nextQValues, w.bestAction)
      && w.nextMaxQ == f.nextQValues[w.bestAction]
      && (forall k :: 0 <= k < |f.nextQValues| ==> f.nextQValues[k] <= w.nextMaxQ)
      && (w.isGreedy <==> f.action == w.bestAction)
      && w.target == BellmanTarget(f.reward, Gamma, w.nextMaxQ)
      && f.action < |f.qValues|
      && w.loss >= 0.0
      && (w.loss == 0.0 <==> w.target == f.qValues[f.action])
      && w.loss == SquaredError(w.target, f.qValues[f.action])
      && w.currentStateIndex == CurrentStateIndex(f.state)
  {
    if |episodes| == 0 then None
    else
      var s := SelectStep(episodes, episodeIndex, stepIndex);
      var f := Fill(s, ZeroState(), ZeroQ);
      var bestAction := Argmax(f.nextQValues);
      var nextMaxQ := Max(f.nextQValues);
      var target := BellmanTarget(f.reward, Gamma, nextMaxQ);
      Some(View(ClampStep(stepIndex, |StepsAt(episodes, episodeIndex)|), f,
                bestAction, nextMaxQ, f.action == bestAction, target,
                SquaredError(target, f.qValues[f.action]),
                CurrentStateIndex(f.state)))
  }

  /** A missing step shows the 48-zero state on the start cell, four zero
      Q-values, action 0, reward 0 and epsilon 0, and its loss is zero. */
  lemma MissingStepDefaults(episodes: seq<Episode>, episodeIndex: nat, stepIndex: nat)
    requires |episodes| > 0 && SelectStep(episodes, episodeIndex, stepIndex) == NoStep
    ensures var w := Derive(episodes, episodeIndex, stepIndex).value;
      && w.step.state == ZeroState() && w.step.qValues == ZeroQ
      && w.step.action == 0 && w.step.reward == 0.0 && w.step.epsilon == 0.0
      && w.currentStateIndex == StartState
      && w.bestAction == 0 && w.isGreedy && w.loss == 0.0
  {
    var w := Derive(episodes, episodeIndex, stepIndex).value;
    assert w.step == Filled(ZeroState(), ZeroState(), 0.0, ZeroQ, ZeroQ, 0, 0.0);
    assert ZeroQ[0] == 0.0;
    assert w.bestAction == 0;
    assert w.nextMaxQ == 0.0;
    assert w.target == 0.0;
    ZeroStateHasNoAgent();
  }

  lemma ZeroStateHasNoAgent()
    ensures 1.0 !in ZeroState()
  {
    var z := ZeroState();
    assert forall i :: 0 <= i < |z| ==> z[i] == 0.0;
  }

  /** `arrows[a] ?? "?"`. */
  function ArrowLabel(a: int): (s: string)
    ensures 0 <= a < 4 ==> ArrowAt(a) == Some(s)
    ensures !(0 <= a < 4) ==> s == "?"
  {
    ArrowAt(a).GetOr("?")
  }

  // ---------------------------------------------------------------------
  // Grid

  /** The one-hot encoding of cell s that the recorded states use. */
  function OneHot(s: nat): (v: seq<real>)
    ensures |v| == TotalStates
  {
    seq(TotalStates, i => if i == s then 1.0 else 0.0)
  }

  /** `state[i] === 1`. */
  predicate IsAgentCell(state: seq<real>, i: nat)
  {
    i < |state| && state[i] == 1.0
  }

  /** Decoding a one-hot state gives back its cell, and the agent is drawn
      exactly there. */
  lemma OneHotRoundTrip(s: nat)
    requires s < TotalStates
    ensures CurrentStateIndex(OneHot(s)) == s
    ensures forall i :: IsAgentCell(OneHot(s), i) <==> i == s
  {
    assert OneHot(s)[s] == 1.0;
  }

  /** The label of grid cell i: S, G or X on the special cells, A for the
      agent elsewhere, otherwise nothing. */
  function CellLabel(i: nat, isAgent: bool): (shown: string)
    ensures shown == "A" <==> isAgent && i != StartState && i != GoalState && !IsCliff(i)
    ensures shown == "S" <==> i == StartState
    ensures shown == "G" <==> i == GoalState
    ensures shown == "X" <==> IsCliff(i)
  {
    IsCliffBetweenStartAndGoal(i);
    if i == StartState then "S"
    else if i == GoalState then "G"
    else if IsCliff(i) then "X"
    else if isAgent then "A"
    else ""
  }

  // ---------------------------------------------------------------------
  // One-hot input layout

  /** `Math.ceil(len / 4)`. */
  function ItemsPerRow(len: nat): (k: nat)
    ensures InputRows * k >= len
    ensures len > 0 ==> InputRows * (k - 1) < len
    ensures len == 0 ==> k == 0
  {
    (len + 3) / 4
  }

  /** JavaScript `s.slice(a, b)` for non-negative bounds: both are cut back
      to the length. */
  function Slice(s: seq<real>, a: nat, b: nat): seq<real>
  {
    var lo := MinInt(a, |s|);
    var hi := MinInt(b, |s|);
    if lo <= hi then s[lo..hi] else []
  }

  lemma SliceConcat(s: seq<real>, a: nat, b: nat, c: nat)
    requires a <= b <= c
    ensures Slice(s, a, b) + Slice(s, b, c) == Slice(s, a, c)
  {
    var lo := MinInt(a, |s|);
    var mid := MinInt(b, |s|);
    var hi := MinInt(c, |s|);
    assert s[lo..mid] + s[mid..hi] == s[lo..hi];
  }

  /** `rowArrays`: the four slices of `itemsPerRow` items each. */
  function RowArrays(state: seq<real>): (rows: seq<seq<real>>)
    ensures |rows| == InputRows
  {
    var k := ItemsPerRow(|state|);
    seq(InputRows, r requires 0 <= r < InputRows => Slice(state, r * k, (r + 1) * k))
  }

  /** The rows are consecutive, non-overlapping slices that together hold
      the whole state. */
  lemma RowArraysPartitionState(state: seq<real>)
    ensures var rows := RowArrays(state);
      rows[0] + rows[1] + rows[2] + rows[3] == state
  {
    var k := ItemsPerRow(|state|);
    var rows := RowArrays(state);
    SliceConcat(state, 0, k, 2 * k);
    SliceConcat(state, 0, 2 * k, 3 * k);
    SliceConcat(state, 0, 3 * k, 4 * k);
    assert Slice(state, 0, 4 * k) == state;
  }

  /** The dots drawn: the first three rows in full and only the first item
      of the last row. */
  function VisibleDots(state: seq<real>): seq<real>
  {
    var rows := RowArrays(state);
    rows[0] + rows[1] + rows[2] + (if |rows[3]| > 0 then rows[3][..1] else [])
  }

  /** The dots drawn are a prefix of the state: everything up to and
      including the first item of the last row. */
  lemma VisibleDotsArePrefix(state: seq<real>)
    ensures var k := ItemsPerRow(|state|);
      VisibleDots(state) == state[..MinInt(3 * k + 1, |state|)]
  {
    var k := ItemsPerRow(|state|);
    var rows := RowArrays(state);
    SliceConcat(state, 0, k, 2 * k);
    SliceConcat(state, 0, 2 * k, 3 * k);
    var front := rows[0] + rows[1] + rows[2];
    assert front == Slice(state, 0, 3 * k);
    if |rows[3]| > 0 {
      assert 3 * k < |state|;
      assert rows[3][..1] == state[3 * k..3 * k + 1];
      assert state[..3 * k] + state[3 * k..3 * k + 1] == state[..3 * k + 1];
    } else {
      assert 3 * k >= |state|;
    }
  }

  /** With the 48 CliffWalk inputs the layout draws 37 dots, the cells 0 to
      36; the cliff and goal cells 37 to 47 never show. */
  lemma FortyEightInputsGiveThirtySevenDots(state: seq<real>)
    requires |state| == TotalStates
    ensures |VisibleDots(state)| == 37
    ensures VisibleDots(state) == state[..StartState + 1]
  {
    VisibleDotsArePrefix(state);
  }

  // ---------------------------------------------------------------------
  // Reward plot

  /** Every episode carries its id and its total reward. */
  ghost predicate Recorded(episodes: seq<Episode>)
  {
    forall i :: 0 <= i < |episodes| ==> episodes[i].episode.Some? && episodes[i].totalReward.Some?
  }

  /** `episodes.map(ep => ({ episode: ep.episode, reward: ep.total_reward }))`. */
  function EpisodeRewards(episodes: seq<Episode>): (es: seq<Entry>)
    requires Recorded(episodes)
    ensures |es| == |episodes|
    ensures forall i :: 0 <= i < |es| ==>
      es[i] == Entry(episodes[i].episode.value, episodes[i].totalReward.value)
  {
    seq(|episodes|, i requires 0 <= i < |episodes| =>
      Entry(episodes[i].episode.value, episodes[i].totalReward.value))
  }

  /** `scaleY`: the minimum reward at the bottom, a fixed ceiling of 0 at the
      top and no guard; None where the span `0 - minReward` is zero. */
  function RewardAxis(entries: seq<Entry>): (axis: Option<YAxis>)
    requires |entries| > 0
    ensures axis.None? <==> Min(Rewards(entries)) == 0.0
    ensures axis.Some? ==> axis.value.span != 0.0
  {
    var m := Min(Rewards(entries));
    if m == 0.0 then None else Some(YAxis(m, 0.0 - m, SvgHeight, PlotHeight))
  }

  /** The minimum maps to 150 and a reward of 0 to 40; when the minimum is
      negative every reward between it and 0 lands in [40, 150]. */
  lemma RewardAxisAnchors(entries: seq<Entry>, k: nat)
    requires |entries| > 0 && k < |entries|
    requires RewardAxis(entries).Some?
    ensures var axis := RewardAxis(entries).value;
      && Project(axis, Min(Rewards(entries))) == SvgHeight
      && Project(axis, 0.0) == SvgHeight - PlotHeight
      && (entries[k].reward <= 0.0 ==>
            SvgHeight - PlotHeight <= Project(axis, entries[k].reward) <= SvgHeight)
  {
    var axis := RewardAxis(entries).value;
    var rs := Rewards(entries);
    assert rs[k] == entries[k].reward;
    if entries[k].reward <= 0.0 {
      ProjectInside(axis, entries[k].reward);
    }
  }

  /** The reward curve; None where `scaleY` divides by zero. */
  method RewardPath(episodes: seq<Episode>, episodeIndex: int) returns (path: Option<seq<Segment>>)
    requires Recorded(episodes) && |episodes| > 0
    ensures var entries := EpisodeRewards(episodes);
      && (path.None? <==> RewardAxis(entries).None?)
      && (path.Some? ==> path.value == PathSpec(entries, episodeIndex, RewardAxis(entries).value))
  {
    var entries := EpisodeRewards(episodes);
    var axis := RewardAxis(entries);
    if axis.None? {
      return None;
    }
    var p := BuildPath(entries, episodeIndex, axis.value);
    path := Some(p);
  }
}
