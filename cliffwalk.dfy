/** What the two CliffWalk panels share: the 4 x 12 grid, its special cells,
    the cell background priority and the per-episode reward curve, which
    both panels build by the same loop over (episode id, total reward)
    entries. */
module Cliffwalk {
  import opened Replay

  const GridRows: nat := 4
  const GridCols: nat := 12
  const TotalStates: nat := 48
  const StartState: nat := 36
  const GoalState: nat := 47
  /** The x domain of the reward plot: episodes 0 .. 499. */
  const MaxEpisodes: nat := 500

  /** `Array.from({ length: 10 }, (_, i) => 37 + i)`. */
  function CliffStates(): seq<nat>
  {
    seq(10, i requires 0 <= i < 10 => 37 + i)
  }

  /** `cliffStates.includes(i)`: the bottom row between start and goal. */
  predicate IsCliff(i: nat)
  {
    i in CliffStates()
  }

  lemma IsCliffBetweenStartAndGoal(i: nat)
    ensures IsCliff(i) <==> StartState < i < GoalState
  {
    if StartState < i < GoalState {
      assert CliffStates()[i - 37] == i;
    }
  }

  datatype Coord = Coord(row: nat, col: nat)

  /** `stateToCoord(s)`: row `Math.floor(s / 12)`, column `s % 12`. The
      coordinate names the cell uniquely and stays on the grid. */
  function StateToCoord(s: nat): (c: Coord)
    ensures c.col < GridCols
    ensures c.row * GridCols + c.col == s
    ensures s < TotalStates ==> c.row < GridRows
  {
    Coord(s / GridCols, s % GridCols)
  }

  datatype Background = AgentCell | StartCell | GoalCell | CliffCell | PlainCell

  /** The priority the background assignments realise: the agent wins, then
      start, goal, cliff, and otherwise the plain cell colour. */
  function BackgroundPriority(i: nat, isAgent: bool): (bg: Background)
    ensures bg == AgentCell <==> isAgent
    ensures !isAgent ==> (bg == StartCell <==> i == StartState)
    ensures !isAgent ==> (bg == GoalCell <==> i == GoalState)
    ensures !isAgent ==> (bg == CliffCell <==> IsCliff(i))
  {
    IsCliffBetweenStartAndGoal(i);
    if isAgent then AgentCell
    else if i == StartState then StartCell
    else if i == GoalState then GoalCell
    else if IsCliff(i) then CliffCell
    else PlainCell
  }

  /** The cell background as both CliffWalk grids compute it: a default
      colour overwritten in turn by cliff, goal, start and agent. */
  method CellBackground(i: nat, isAgent: bool) returns (bg: Background)
    ensures bg == BackgroundPriority(i, isAgent)
  {
    bg := PlainCell;
    if IsCliff(i) { bg := CliffCell; }
    if i == GoalState { bg := GoalCell; }
    if i == StartState { bg := StartCell; }
    if isAgent { bg := AgentCell; }
    IsCliffBetweenStartAndGoal(i);
  }

  // ---------------------------------------------------------------------
  // Reward curve

  /** One point of the reward curve: an episode id and its total reward. */
  datatype Entry = Entry(episode: int, reward: real)

  function Rewards(entries: seq<Entry>): (rs: seq<real>)
    ensures |rs| == |entries|
    ensures forall k :: 0 <= k < |entries| ==> rs[k] == entries[k].reward
  {
    seq(|entries|, k requires 0 <= k < |entries| => entries[k].reward)
  }

  /** The path command for entry i: "M" only for list position 0, "L"
      otherwise, at x = 40 + id * 860 / 499. */
  function SegmentAt(entries: seq<Entry>, i: nat, axis: YAxis): Segment
    requires i < |entries| && axis.span != 0.0
  {
    var x := PlotX(entries[i].episode, MaxEpisodes);
    var y := Project(axis, entries[i].reward);
    if i == 0 then M(x, y) else L(x, y)
  }

  /** The positions of the entries that are drawn: those whose episode id is
      at most the selected episode index, in list order. */
  function Drawn(entries: seq<Entry>, episodeIndex: int): (ds: seq<nat>)
    ensures forall k :: 0 <= k < |ds| ==> ds[k] < |entries| && entries[ds[k]].episode <= episodeIndex
    ensures forall i :: 0 <= i < |entries| && entries[i].episode <= episodeIndex ==> i in ds
    ensures forall k, l :: 0 <= k < l < |ds| ==> ds[k] < ds[l]
    decreases |entries|
  {
    if |entries| == 0 then []
    else
      var n := |entries| - 1;
      var prev := Drawn(entries[..n], episodeIndex);
      if entries[n].episode <= episodeIndex then prev + [n] else prev
  }

  /** The path the loop builds: one segment per drawn entry, in list order. */
  function PathSpec(entries: seq<Entry>, episodeIndex: int, axis: YAxis): seq<Segment>
    requires axis.span != 0.0
  {
    var ds := Drawn(entries, episodeIndex);
    seq(|ds|, k requires 0 <= k < |ds| => SegmentAt(entries, ds[k], axis))
  }

  /** Only the first segment of the path can be a move; it is one exactly
      when the first entry is drawn, so a path whose first entry is not drawn
      starts with a line command. */
  lemma PathStartsWithMoveOnlyAtPositionZero(entries: seq<Entry>, episodeIndex: int, axis: YAxis)
    requires axis.span != 0.0
    ensures var p := PathSpec(entries, episodeIndex, axis);
      && (forall k :: 0 < k < |p| ==> p[k].L?)
      && (|p| > 0 ==> (p[0].M? <==> entries[0].episode <= episodeIndex))
  {
    var ds := Drawn(entries, episodeIndex);
    var p := PathSpec(entries, episodeIndex, axis);
    forall k | 0 < k < |p| ensures p[k].L? {
      assert ds[0] < ds[k];
    }
    if |p| > 0 && entries[0].episode <= episodeIndex {
      assert 0 in ds;
    }
  }

  /** `path += i === 0 ? "M x,y" : " L x,y"` over the entries, skipping those
      with `episode > episodeIndex`. */
  method BuildPath(entries: seq<Entry>, episodeIndex: int, axis: YAxis) returns (path: seq<Segment>)
    requires axis.span != 0.0
    ensures path == PathSpec(entries, episodeIndex, axis)
  {
    path := [];
    var i := 0;
    while i < |entries|
      invariant 0 <= i <= |entries|
      invariant path == PathSpec(entries[..i], episodeIndex, axis)
    {
      if entries[i].episode <= episodeIndex {
        var x := PlotX(entries[i].episode, MaxEpisodes);
        var y := Project(axis, entries[i].reward);
        path := path + [if i == 0 then M(x, y) else L(x, y)];
      }
      PathSpecStep(entries, i, episodeIndex, axis);
      i := i + 1;
    }
    assert entries[..|entries|] == entries;
  }

  lemma SegmentAtPrefix(entries: seq<Entry>, n: nat, i: nat, axis: YAxis)
    requires i < n <= |entries| && axis.span != 0.0
    ensures SegmentAt(entries[..n], i, axis) == SegmentAt(entries, i, axis)
  {
  }

  /** Extending the prefix by one entry appends at most its own segment. */
  lemma PathSpecStep(entries: seq<Entry>, i: nat, episodeIndex: int, axis: YAxis)
    requires i < |entries| && axis.span != 0.0
    ensures PathSpec(entries[..i + 1], episodeIndex, axis)
      == PathSpec(entries[..i], episodeIndex, axis)
         + (if entries[i].episode <= episodeIndex then [SegmentAt(entries, i, axis)] else [])
  {
    var pre := entries[..i + 1];
    assert pre[..i] == entries[..i];
    var ds := Drawn(entries[..i], episodeIndex);
    var ds' := Drawn(pre, episodeIndex);
    forall k | 0 <= k < |ds| ensures SegmentAt(pre, ds[k], axis) == SegmentAt(entries[..i], ds[k], axis) {
      SegmentAtPrefix(pre, i, ds[k], axis);
    }
  }
}
