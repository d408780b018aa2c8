/** What the two CartPole panels share: the defaults of a four-number
    state and two Q-values, the cart position, and the reward curve's data
    and y axis. */
module Cartpole {
  import opened Replay
  import opened Trace

  const Gamma: real := 0.99
  /** `[0, 0, 0, 0]`. */
  const ZeroState: seq<real> := [0.0, 0.0, 0.0, 0.0]
  /** `[0, 0]`. */
  const ZeroQ: seq<real> := [0.0, 0.0]
  /** The x domain of the reward curve: episodes 0 .. 249. */
  const MaxEpisodes: nat := 250

  /** `state[0] ?? 0`: the cart position. */
  function CartX(state: seq<real>): real
  {
    if |state| > 0 then state[0] else 0.0
  }

  /** The cart is drawn at the track's centre (150 px) for a missing state,
      and never leaves the 300 px track while the position stays within the
      environment's bounds of +/- 2.4. */
  lemma CartOnTrack(state: seq<real>)
    ensures |state| == 0 ==> CartLeft(CartX(state)) == 150.0
    ensures -2.4 <= CartX(state) <= 2.4 ==> 0.0 <= CartLeft(CartX(state)) <= 300.0
  {
  }

  /** `episodes.slice(0, episodeIndex + 1).map(ep => ep.total_reward ?? 0)`. */
  function Totals(episodes: seq<Episode>, episodeIndex: nat): (rs: seq<real>)
    ensures |rs| == MinInt(episodeIndex + 1, |episodes|)
    ensures forall i :: 0 <= i < |rs| ==> rs[i] == episodes[i].totalReward.GetOr(0.0)
  {
    var n := MinInt(episodeIndex + 1, |episodes|);
    seq(n, i requires 0 <= i < n => episodes[i].totalReward.GetOr(0.0))
  }

  /** `scaleY` with `maxReward = Math.max(...rewards, 1)` and
      `minReward = Math.min(...rewards, 0)` over the full height 150. */
  function RewardAxis(rs: seq<real>): (axis: YAxis)
    requires |rs| > 0
    ensures axis.span >= 1.0
    ensures axis.floor <= 0.0
    ensures axis.floor + axis.span >= 1.0
  {
    var maxReward := Max(rs + [1.0]);
    var minReward := Min(rs + [0.0]);
    assert (rs + [1.0])[|rs|] == 1.0 && (rs + [0.0])[|rs|] == 0.0;
    YAxis(minReward, maxReward - minReward, SvgHeight, SvgHeight)
  }

  /** The axis always has a positive span, so `scaleY` is defined; the anchored
      minimum maps to 150, the anchored maximum to 0, and every reward lands
      in [0, 150]. */
  lemma RewardAxisAnchors(rs: seq<real>, k: nat)
    requires |rs| > 0 && k < |rs|
    ensures var axis := RewardAxis(rs);
      && Project(axis, Min(rs + [0.0])) == SvgHeight
      && Project(axis, Max(rs + [1.0])) == 0.0
      && 0.0 <= Project(axis, rs[k]) <= SvgHeight
  {
    var axis := RewardAxis(rs);
    assert (rs + [1.0])[k] == rs[k] && (rs + [0.0])[k] == rs[k];
    ProjectInside(axis, rs[k]);
  }
}
