/** The replay records that DeepqCliffwalk, QlearningCartpole and
    DeepqCartpole read: a list of episodes, each holding its recorded steps.
    Every field of a record may be missing in the JSON, so each one is an
    Option that the panels fill with a default. */
module Trace {
  import opened Replay

  /** One recorded step: `state`, `next_state`, `epsilon`, `q_values`,
      `next_q_values`, `action` and `reward`. */
  datatype Step = Step(
    state: Option<seq<real>>,
    nextState: Option<seq<real>>,
    epsilon: Option<real>,
    qValues: Option<seq<real>>,
    nextQValues: Option<seq<real>>,
    action: Option<nat>,
    reward: Option<real>)

  /** One recorded episode: its id, its steps and its total reward. */
  datatype Episode = Episode(episode: Option<int>, steps: Option<seq<Step>>, totalReward: Option<real>)

  /** The empty record `{}` that a missing step or episode falls back to. */
  const NoStep: Step := Step(None, None, None, None, None, None, None)

  /** `(episodes[episodeIndex] || {}).steps || []`. */
  function StepsAt(episodes: seq<Episode>, episodeIndex: nat): seq<Step>
  {
    if episodeIndex < |episodes| then episodes[episodeIndex].steps.GetOr([]) else []
  }

  /** `steps[safeStepIndex] || {}`: the selected step is a record of the
      selected episode, the last one when the step index runs past the end,
      and the empty record only when the episode has no steps. */
  function SelectStep(episodes: seq<Episode>, episodeIndex: nat, stepIndex: nat): (s: Step)
    ensures var steps := StepsAt(episodes, episodeIndex);
      && (|steps| == 0 ==> s == NoStep)
      && (|steps| > 0 ==> s in steps)
      && (stepIndex < |steps| ==> s == steps[stepIndex])
      && (0 < |steps| <= stepIndex ==> s == steps[|steps| - 1])
  {
    var steps := StepsAt(episodes, episodeIndex);
    var safe := ClampStep(stepIndex, |steps|);
    if safe < |steps| then steps[safe] else NoStep
  }

  /** A step with every default filled in. */
  datatype Filled = Filled(
    state: seq<real>,
    nextState: seq<real>,
    epsilon: real,
    qValues: seq<real>,
    nextQValues: seq<real>,
    action: nat,
    reward: real)

  /** `state || zeroState`, `next_state || state`, `epsilon ?? 0`,
      `q_values || zeroQ`, `next_q_values || zeroQ`, `action ?? 0`,
      `reward ?? 0`. */
  function Fill(s: Step, zeroState: seq<real>, zeroQ: seq<real>): (f: Filled)
    ensures s.nextState.None? ==> f.nextState == f.state
    ensures s == NoStep ==> f == Filled(zeroState, zeroState, 0.0, zeroQ, zeroQ, 0, 0.0)
  {
    var state := s.state.GetOr(zeroState);
    Filled(state, s.nextState.GetOr(state), s.epsilon.GetOr(0.0),
           s.qValues.GetOr(zeroQ), s.nextQValues.GetOr(zeroQ),
           s.action.GetOr(0), s.reward.GetOr(0.0))
  }

  /** Each field is defaulted on its own: a recorded field is shown as
      recorded, a missing one gets its default, whatever the other fields
      hold. */
  lemma FillFieldByField(s: Step, zeroState: seq<real>, zeroQ: seq<real>)
    ensures var f := Fill(s, zeroState, zeroQ);
      && (s.state.Some? ==> f.state == s.state.value)
      && (s.state.None? ==> f.state == zeroState)
      && (s.nextState.Some? ==> f.nextState == s.nextState.value)
      && (s.nextState.None? ==> f.nextState == f.state)
      && (s.epsilon.Some? ==> f.epsilon == s.epsilon.value)
      && (s.epsilon.None? ==> f.epsilon == 0.0)
      && (s.qValues.Some? ==> f.qValues == s.qValues.value)
      && (s.qValues.None? ==> f.qValues == zeroQ)
      && (s.nextQValues.Some? ==> f.nextQValues == s.nextQValues.value)
      && (s.nextQValues.None? ==> f.nextQValues == zeroQ)
      && (s.action.Some? ==> f.action == s.action.value)
      && (s.action.None? ==> f.action == 0)
      && (s.reward.Some? ==> f.reward == s.reward.value)
      && (s.reward.None? ==> f.reward == 0.0)
  {
  }

  /** What the panels need of a step to compute their numbers: the maximum
      over the next-state Q-values exists and the chosen action indexes the
      Q-values. */
  predicate WellFormed(f: Filled)
  {
    |f.nextQValues| > 0 && f.action < |f.qValues|
  }

  ghost predicate ValidSteps(steps: seq<Step>, zeroQ: seq<real>)
  {
    forall j :: 0 <= j < |steps| ==> WellFormed(Fill(steps[j], [], zeroQ))
  }

  /** Every recorded step is well formed once its defaults are filled in. */
  ghost predicate ValidTrace(episodes: seq<Episode>, zeroQ: seq<real>)
  {
    forall i :: 0 <= i < |episodes| ==> ValidSteps(episodes[i].steps.GetOr([]), zeroQ)
  }

  /** The state vector plays no part in well-formedness. */
  lemma WellFormedIgnoresState(s: Step, zeroState: seq<real>, zeroQ: seq<real>)
    ensures WellFormed(Fill(s, zeroState, zeroQ)) == WellFormed(Fill(s, [], zeroQ))
  {
  }

  /** Whatever indices are selected, the step shown is well formed: either a
      recorded one, or the empty record whose defaults are. */
  lemma SelectedStepIsWellFormed(episodes: seq<Episode>, episodeIndex: nat, stepIndex: nat,
                                 zeroState: seq<real>, zeroQ: seq<real>)
    requires |zeroQ| > 0
    requires ValidTrace(episodes, zeroQ)
    ensures WellFormed(Fill(SelectStep(episodes, episodeIndex, stepIndex), zeroState, zeroQ))
  {
    var s := SelectStep(episodes, episodeIndex, stepIndex);
    WellFormedIgnoresState(s, zeroState, zeroQ);
    var steps := StepsAt(episodes, episodeIndex);
    if |steps| > 0 {
      var j := ClampStep(stepIndex, |steps|);
      assert s == steps[j];
      assert ValidSteps(episodes[episodeIndex].steps.GetOr([]), zeroQ);
    }
  }
}
