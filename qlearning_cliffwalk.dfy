/** The tabular Q-learning CliffWalk panel: a flat log of step records, each
    carrying its episode id and a snapshot of the whole Q-table. */
module QlearningCliffwalk {
  import opened Replay
  import opened Cliffwalk

  const Alpha: real := 0.1
  const Gamma: real := 0.9
  /** `[0, 0, 0, 0]`, the row shown for a state the table does not hold. */
  const ZeroRow: seq<real> := [0.0, 0.0, 0.0, 0.0]
  /** The reward plot's vertical extent `svgHeight - padding`. */
  const PlotHeight: real := 110.0

  /** One log record: `episode`, `state`, `action`, `reward`,
      `qTable_snapshot`, `epsilon`, `new_state`, `done` and
      `total_reward_so_far`. */
  datatype Record = Record(
    episode: int,
    state: nat,
    action: nat,
    reward: real,
    qTable: Option<seq<seq<real>>>,
    epsilon: Option<real>,
    newState: Option<nat>,
    done: bool,
    totalRewardSoFar: real)

  // ---------------------------------------------------------------------
  // Episode list and step filter

  ghost predicate StrictlyAscending(s: seq<int>)
  {
    forall i, j :: 0 <= i < j < |s| ==> s[i] < s[j]
  }

  /** Adds `x` to a strictly ascending list, keeping it strictly ascending. */
  function Insert(s: seq<int>, x: int): (r: seq<int>)
    requires StrictlyAscending(s)
    ensures StrictlyAscending(r)
    ensures forall y :: y in r <==> y in s || y == x
  {
    if |s| == 0 then [x]
    else if x < s[0] then [x] + s
    else if x == s[0] then s
    else
      var rest := Insert(s[1..], x);
      assert forall y :: y in rest ==> s[0] < y;
      ConsAscending(s[0], rest);
      [s[0]] + rest
  }

  lemma ConsAscending(x: int, rest: seq<int>)
    requires StrictlyAscending(rest)
    requires forall y :: y in rest ==> x < y
    ensures StrictlyAscending([x] + rest)
  {
    var r := [x] + rest;
    forall i, j | 0 <= i < j < |r| ensures r[i] < r[j] {
      assert r[j] == rest[j - 1];
      if i == 0 {
        assert rest[j - 1] in rest;
      } else {
        assert r[i] == rest[i - 1];
      }
    }
  }

  /** `[...new Set(log.map(x => x.episode))].sort((a, b) => a - b)`: the
      distinct episode ids of the log in ascending order. */
  function EpisodeIds(log: seq<Record>): (ids: seq<int>)
    ensures StrictlyAscending(ids)
    ensures forall e :: e in ids <==> exists i :: 0 <= i < |log| && log[i].episode == e
  {
    if |log| == 0 then []
    else
      var n := |log| - 1;
      var prev := EpisodeIds(log[..n]);
      assert forall i :: 0 <= i < n ==> log[..n][i] == log[i];
      Insert(prev, log[n].episode)
  }

  /** `episodes[episodeIndex] ?? episodes[0]`: the selected id, or the
      smallest id when the index runs past the list. */
  function CurrentEpisode(log: seq<Record>, episodeIndex: nat): (e: Option<int>)
    ensures e.None? <==> |log| == 0
    ensures e.Some? ==> e.value in EpisodeIds(log)
    ensures episodeIndex < |EpisodeIds(log)| ==> e == Some(EpisodeIds(log)[episodeIndex])
    ensures 0 < |EpisodeIds(log)| <= episodeIndex ==> e == Some(EpisodeIds(log)[0])
  {
    var ids := EpisodeIds(log);
    assert |log| > 0 ==> log[0].episode in ids;
    if episodeIndex < |ids| then Some(ids[episodeIndex])
    else if |ids| > 0 then Some(ids[0])
    else None
  }

  /** `log.filter(x => x.episode === ep)`. */
  function EpisodeSteps(log: seq<Record>, ep: int): (rs: seq<Record>)
    ensures forall r :: r in rs <==> r in log && r.episode == ep
    ensures |rs| <= |log|
  {
    if |log| == 0 then []
    else (if log[0].episode == ep then [log[0]] else []) + EpisodeSteps(log[1..], ep)
  }

  /** The filter keeps log order: filtering a concatenation concatenates the
      filtered parts. */
  lemma {:induction false} EpisodeStepsKeepLogOrder(a: seq<Record>, b: seq<Record>, ep: int)
    ensures EpisodeSteps(a + b, ep) == EpisodeSteps(a, ep) + EpisodeSteps(b, ep)
  {
    if |a| == 0 {
      assert a + b == b;
    } else {
      assert (a + b)[0] == a[0];
      assert (a + b)[1..] == a[1..] + b;
      EpisodeStepsKeepLogOrder(a[1..], b, ep);
    }
  }

  // ---------------------------------------------------------------------
  // Q-table views

  /** `qTable_snapshot?.[s] ?? [0, 0, 0, 0]`. */
  function Row(qTable: Option<seq<seq<real>>>, s: nat): seq<real>
  {
    if qTable.Some? && s < |qTable.value| then qTable.value[s] else ZeroRow
  }

  /** `bestActions[s]`, undefined past the table's end. */
  function At(bs: seq<nat>, s: nat): Option<nat>
  {
    if s < |bs| then Some(bs[s]) else None
  }

  ghost predicate RowsNonEmpty(t: seq<seq<real>>)
  {
    forall s :: 0 <= s < |t| ==> |t[s]| > 0
  }

  /** `(qTable_snapshot || []).map(v => v.indexOf(Math.max(...v)))`: each
      state's greedy action, the lowest index of the row's maximum. */
  function BestActions(qTable: Option<seq<seq<real>>>): (bs: seq<nat>)
    requires qTable.Some? ==> RowsNonEmpty(qTable.value)
    ensures qTable.None? ==> bs == []
    ensures qTable.Some? ==> |bs| == |qTable.value|
    ensures qTable.Some? ==> forall s :: 0 <= s < |bs| ==> IsFirstMaximum(qTable.value[s], bs[s])
  {
    if qTable.None? then []
    else
      var t := qTable.value;
      seq(|t|, s requires 0 <= s < |t| => Argmax(t[s]))
  }

  /** `qTable_snapshot.flat()`. */
  function Flat(t: seq<seq<real>>): (f: seq<real>)
    ensures forall s, a :: 0 <= s < |t| && 0 <= a < |t[s]| ==> t[s][a] in f
    ensures forall x :: x in f ==> exists s :: 0 <= s < |t| && x in t[s]
    ensures |t| > 0 && |t[0]| > 0 ==> |f| > 0
  {
    if |t| == 0 then []
    else
      var rest := Flat(t[1..]);
      assert forall s :: 0 < s < |t| ==> t[s] == t[1..][s - 1];
      t[0] + rest
  }

  /** What the panel needs of a record to compute its numbers: a non-empty
      table snapshot with non-empty rows, and an action indexing the row of
      the current state. */
  ghost predicate ValidRecord(r: Record)
  {
    && r.qTable.Some?
    && |r.qTable.value| > 0
    && RowsNonEmpty(r.qTable.value)
    && r.action < |Row(r.qTable, r.state)|
  }

  ghost predicate ValidLog(log: seq<Record>)
  {
    forall i :: 0 <= i < |log| ==> ValidRecord(log[i])
  }

  /** The record the panel shows: the selected episode id, the clamped step
      index and the record at that index of the episode's steps. */
  datatype Selection = Selection(episode: int, safeStepIndex: nat, current: Record)

  /** The record selection; None is the "Loading..." screen. A non-empty log
      always yields a record, because the selected id comes from the log
      itself. */
  function Select(log: seq<Record>, episodeIndex: nat, stepIndex: nat): (sel: Option<Selection>)
    ensures sel.None? <==> |log| == 0
    ensures sel.Some? ==>
      var steps := EpisodeSteps(log, sel.value.episode);
      && Some(sel.value.episode) == CurrentEpisode(log, episodeIndex)
      && sel.value.safeStepIndex == ClampStep(stepIndex, |steps|)
      && sel.value.safeStepIndex < |steps|
      && sel.value.current == steps[sel.value.safeStepIndex]
      && sel.value.current in log
      && sel.value.current.episode == sel.value.episode
  {
    var current := CurrentEpisode(log, episodeIndex);
    if current.None? then None
    else
      var ep := current.value;
      var steps := EpisodeSteps(log, ep);
      assert exists i :: 0 <= i < |log| && log[i].episode == ep;
      var i :| 0 <= i < |log| && log[i].episode == ep;
      assert log[i] in steps;
      var safe := ClampStep(stepIndex, |steps|);
      Some(Selection(ep, safe, steps[safe]))
  }

  /** The selected record of a valid log is valid. */
  lemma SelectedRecordIsValid(log: seq<Record>, episodeIndex: nat, stepIndex: nat)
    requires ValidLog(log) && |log| > 0
    ensures ValidRecord(Select(log, episodeIndex, stepIndex).value.current)
  {
    var r := Select(log, episodeIndex, stepIndex).value.current;
    var i :| 0 <= i < |log| && log[i] == r;
  }

  /** Everything the panel computes from the selected record. */
  datatype View = View(
    qValues: seq<real>,
    bestActions: seq<nat>,
    bestAction: Option<nat>,
    isGreedy: bool,
    displayNext: nat,
    nextMaxAction: Option<nat>,
    nextMaxQ: real,
    updatedQ: real,
    minQ: real,
    maxQ: real)

  /** The numbers shown for one record: its row, the greedy actions, the
      greedy flag, the next state's maximum, the TD update and the table's
      range. */
  function Derive(r: Record): (w: View)
    requires ValidRecord(r)
    ensures var t := r.qTable.value;
      && w.qValues == Row(r.qTable, r.state)
      && |w.bestActions| == |t|
      && (forall s :: 0 <= s < |t| ==> IsFirstMaximum(t[s], w.bestActions[s]))
      && (w.bestAction.Some? <==> r.state < |t|)
      && (w.bestAction.Some? ==> IsFirstMaximum(t[r.state], w.bestAction.value))
      && (w.isGreedy <==> w.bestAction == Some(r.action))
      && w.displayNext == r.newState.GetOr(r.state)
      && w.nextMaxAction == At(w.bestActions, w.displayNext)
      && (w.displayNext < |t| ==> w.nextMaxQ == Max(t[w.displayNext]))
      && (w.displayNext >= |t| ==> w.nextMaxQ == 0.0)
      && r.action < |w.qValues|
      && (var q := w.qValues[r.action];
          var target := BellmanTarget(r.reward, Gamma, w.nextMaxQ);
          && w.updatedQ == TdUpdate(q, Alpha, target)
          && (q <= target ==> q <= w.updatedQ <= target) && (target <= q ==> target <= w.updatedQ <= q))
      && (forall s, a :: 0 <= s < |t| && 0 <= a < |t[s]| ==> w.minQ <= t[s][a] <= w.maxQ)
      && w.minQ in Flat(t) && w.maxQ in Flat(t)
  {
    var t := r.qTable.value;
    var bs := BestActions(r.qTable);
    var qValues := Row(r.qTable, r.state);
    var bestAction := At(bs, r.state);
    var displayNext := r.newState.GetOr(r.state);
    var nextMaxAction := At(bs, displayNext);
    var nextMaxQ := if displayNext < |t| then t[displayNext][nextMaxAction.value] else 0.0;
    var q := qValues[r.action];
    var all := Flat(t);
    View(qValues, bs, bestAction, bestAction == Some(r.action),
         displayNext, nextMaxAction, nextMaxQ,
         TdUpdate(q, Alpha, BellmanTarget(r.reward, Gamma, nextMaxQ)),
         Min(all), Max(all))
  }

  /** The "Next-State Optimal Action" arrow: the first maximum of the next
      state's row, present exactly when that state is a row of the table,
      and the Q-value shown beside it is that row's maximum. */
  lemma NextMaxActionIsGreedyInNextState(r: Record)
    requires ValidRecord(r)
    ensures var t := r.qTable.value;
      var w := Derive(r);
      && (w.nextMaxAction.Some? <==> w.displayNext < |t|)
      && (w.nextMaxAction.Some? ==>
            IsFirstMaximum(t[w.displayNext], w.nextMaxAction.value)
            && w.nextMaxQ == t[w.displayNext][w.nextMaxAction.value])
  {
  }

  /** The update shown, with this panel's constants written out:
      `q + 0.1 * (r + 0.9 * m - q)` is `0.9 q + 0.1 r + 0.09 m`. */
  lemma UpdateRuleConstants(q: real, reward: real, nextMaxQ: real)
    ensures TdUpdate(q, Alpha, BellmanTarget(reward, Gamma, nextMaxQ)) == 0.9 * q + 0.1 * reward + 0.09 * nextMaxQ
  {
  }

  // ---------------------------------------------------------------------
  // Grid and colour

  /** The label of grid cell i: S, G or X on the special cells, otherwise
      the arrow of the cell's greedy action (nothing past the table). */
  function CellLabel(i: nat, bestActions: seq<nat>): string
  {
    if i == StartState then "S"
    else if i == GoalState then "G"
    else if IsCliff(i) then "X"
    else if i < |bestActions| then ArrowAt(bestActions[i]).GetOr("")
    else ""
  }

  /** The grid shows the greedy policy of the current snapshot on every
      ordinary cell, wherever the agent stands, and S, G, X on the special
      ones. */
  lemma GridShowsGreedyPolicy(r: Record, i: nat)
    requires ValidRecord(r)
    ensures var w := Derive(r);
      var t := r.qTable.value;
      var shown := CellLabel(i, w.bestActions);
      && (i == StartState ==> shown == "S")
      && (i == GoalState ==> shown == "G")
      && (IsCliff(i) ==> shown == "X")
      && (i != StartState && i != GoalState && !IsCliff(i) && i < |t| && |t[i]| <= 4 ==>
            exists a :: IsFirstMaximum(t[i], a) && ArrowAt(a) == Some(shown))
  {
    IsCliffBetweenStartAndGoal(i);
    var w := Derive(r);
    var t := r.qTable.value;
    if i != StartState && i != GoalState && !IsCliff(i) && i < |t| && |t[i]| <= 4 {
      var a := w.bestActions[i];
      assert IsFirstMaximum(t[i], a);
    }
  }

  /** `bgColorForQ`: the clamped three-stop colour of a table value. */
  function BgColorForQ(val: real, minQ: real, maxQ: real): Rgb
  {
    ThreeStop(Clamp01(Normalize(val, minQ, maxQ)))
  }

  /** Every value gets a colour of the low-to-high range, values at or below
      the minimum get the low stop and values at or above a proper maximum get
      the high stop. */
  lemma BgColorForQRange(val: real, minQ: real, maxQ: real)
    ensures Between(Low, High, BgColorForQ(val, minQ, maxQ))
    ensures minQ <= maxQ && val <= minQ ==> BgColorForQ(val, minQ, maxQ) == Low
    ensures minQ < maxQ && maxQ <= val ==> BgColorForQ(val, minQ, maxQ) == High
  {
    ThreeStopHitsStops();
    var d := Denominator(maxQ - minQ);
    var n := val - minQ;
    if minQ <= maxQ && val <= minQ {
      QuotientAbove(n, d, 0.0);
    }
    if minQ < maxQ && maxQ <= val {
      QuotientAbove(n, d, 1.0);
    }
  }

  // ---------------------------------------------------------------------
  // Reward plot

  /** The log record at position i is the first `done` record of its
      episode. */
  predicate FirstDoneAt(log: seq<Record>, i: nat)
    requires i < |log|
  {
    log[i].done && forall j :: 0 <= j < i ==> !(log[j].done && log[j].episode == log[i].episode)
  }

  /** The entries the `forEach` over the first n records pushes: one per
      first `done` record, in log order. */
  function FirstDoneRewards(log: seq<Record>, n: nat): seq<Entry>
    requires n <= |log|
  {
    if n == 0 then []
    else
      FirstDoneRewards(log, n - 1)
      + (if FirstDoneAt(log, n - 1) then [Entry(log[n - 1].episode, log[n - 1].totalRewardSoFar)] else [])
  }

  function Ids(entries: seq<Entry>): set<int>
  {
    set k | 0 <= k < |entries| :: entries[k].episode
  }

  /** The ids of the episodes with a `done` record among the first n. */
  function DoneIds(log: seq<Record>, n: nat): set<int>
    requires n <= |log|
  {
    set j | 0 <= j < n && log[j].done :: log[j].episode
  }

  lemma FirstDoneAtIff(log: seq<Record>, i: nat)
    requires i < |log|
    ensures FirstDoneAt(log, i) <==> log[i].done && log[i].episode !in DoneIds(log, i)
  {
    if log[i].episode in DoneIds(log, i) {
      var j :| 0 <= j < i && log[j].done && log[j].episode == log[i].episode;
    }
  }

  /** The ids kept are exactly the ids of episodes that finish. */
  lemma {:induction false} FirstDoneRewardsIds(log: seq<Record>, n: nat)
    requires n <= |log|
    ensures Ids(FirstDoneRewards(log, n)) == DoneIds(log, n)
  {
    if n > 0 {
      FirstDoneRewardsIds(log, n - 1);
      FirstDoneAtIff(log, n - 1);
      var prev := FirstDoneRewards(log, n - 1);
      var cur := FirstDoneRewards(log, n);
      assert DoneIds(log, n) == DoneIds(log, n - 1) + (if log[n - 1].done then {log[n - 1].episode} else {});
      if FirstDoneAt(log, n - 1) {
        assert cur == prev + [Entry(log[n - 1].episode, log[n - 1].totalRewardSoFar)];
        assert Ids(cur) == Ids(prev) + {log[n - 1].episode} by {
          assert cur[|prev|].episode == log[n - 1].episode;
          forall k | 0 <= k < |prev| ensures cur[k] == prev[k] { }
        }
      } else {
        assert cur == prev;
      }
    }
  }

  /** One entry per episode: no id is kept twice. */
  lemma {:induction false} FirstDoneRewardsDistinct(log: seq<Record>, n: nat)
    requires n <= |log|
    ensures var r := FirstDoneRewards(log, n);
      forall k, l :: 0 <= k < l < |r| ==> r[k].episode != r[l].episode
  {
    if n > 0 {
      FirstDoneRewardsDistinct(log, n - 1);
      var prev := FirstDoneRewards(log, n - 1);
      if FirstDoneAt(log, n - 1) {
        FirstDoneAtIff(log, n - 1);
        FirstDoneRewardsIds(log, n - 1);
        var last := log[n - 1].episode;
        assert forall k :: 0 <= k < |prev| ==> prev[k].episode in Ids(prev);
      }
    }
  }

  /** The entry of each finishing episode carries the running total of its
      first `done` record. */
  lemma {:induction false} FirstDoneRewardsTakeFirstDone(log: seq<Record>, n: nat, i: nat)
    requires i < n <= |log| && FirstDoneAt(log, i)
    ensures Entry(log[i].episode, log[i].totalRewardSoFar) in FirstDoneRewards(log, n)
  {
    if i < n - 1 {
      FirstDoneRewardsTakeFirstDone(log, n - 1, i);
    }
  }

  /** The `forEach` with its `seenEpisodes` set. */
  method CollectEpisodeRewards(log: seq<Record>) returns (rewards: seq<Entry>)
    ensures rewards == FirstDoneRewards(log, |log|)
  {
    rewards := [];
    var seen: set<int> := {};
    var i := 0;
    while i < |log|
      invariant 0 <= i <= |log|
      invariant rewards == FirstDoneRewards(log, i)
      invariant seen == DoneIds(log, i)
    {
      var step := log[i];
      FirstDoneAtIff(log, i);
      if step.done && step.episode !in seen {
        rewards := rewards + [Entry(step.episode, step.totalRewardSoFar)];
        seen := seen + {step.episode};
      }
      assert DoneIds(log, i + 1) == DoneIds(log, i) + (if log[i].done then {log[i].episode} else {});
      i := i + 1;
    }
  }

  /** `(maxReward - minReward) || 1`. */
  function RewardSpan(minReward: real, maxReward: real): (d: real)
    ensures d != 0.0
    ensures minReward < maxReward ==> d == maxReward - minReward
    ensures minReward == maxReward ==> d == 1.0
  {
    if maxReward - minReward == 0.0 then 1.0 else maxReward - minReward
  }

  /** `scaleY`: observed minimum at the bottom (150), observed maximum at
      the top of the plotted band (40). */
  function RewardAxis(entries: seq<Entry>): YAxis
    requires |entries| > 0
  {
    var rs := Rewards(entries);
    YAxis(Min(rs), RewardSpan(Min(rs), Max(rs)), SvgHeight, PlotHeight)
  }

  /** The minimum maps to 150 and the maximum to 40; with all rewards equal
      the axis stays defined and every point sits at 150; every point lies
      in [40, 150]. */
  lemma RewardAxisAnchors(entries: seq<Entry>, k: nat)
    requires |entries| > 0 && k < |entries|
    ensures var axis := RewardAxis(entries);
      var rs := Rewards(entries);
      && Project(axis, Min(rs)) == SvgHeight
      && (Min(rs) < Max(rs) ==> Project(axis, Max(rs)) == SvgHeight - PlotHeight)
      && (Min(rs) == Max(rs) ==> Project(axis, entries[k].reward) == SvgHeight)
      && SvgHeight - PlotHeight <= Project(axis, entries[k].reward) <= SvgHeight
  {
    var axis := RewardAxis(entries);
    var rs := Rewards(entries);
    assert rs[k] == entries[k].reward;
    if Min(rs) < Max(rs) {
      ProjectInside(axis, entries[k].reward);
    }
  }

  /** The reward curve; None where the panel renders no curve because no
      episode has finished. */
  method RewardPath(log: seq<Record>, episodeIndex: int) returns (path: Option<seq<Segment>>)
    ensures var entries := FirstDoneRewards(log, |log|);
      && (path.None? <==> |entries| == 0)
      && (path.Some? ==> path.value == PathSpec(entries, episodeIndex, RewardAxis(entries)))
  {
    var entries := CollectEpisodeRewards(log);
    if |entries| == 0 {
      return None;
    }
    var p := BuildPath(entries, episodeIndex, RewardAxis(entries));
    path := Some(p);
  }
}
