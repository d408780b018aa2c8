# vis4ai replay panels — a Dafny model

vis4ai is a small React page: a reinforcement-learning course. It replays recorded training runs of two
agents side by side, tabular Q-learning and deep Q-learning (DQN), on two environments, CliffWalk and CartPole.
A guided tutorial overlay dims the panel it is not talking about. This project models the page's core:

- The four replay panels (`QlearningCliffwalk`, `DeepqCliffwalk`, `QlearningCartpole`, `DeepqCartpole`). An
  episode index and a step index select a logged step. Each panel fills the step's missing fields with defaults
  and computes from it:
  - the greedy action (the first index of the maximum) and whether the chosen action was greedy;
  - either the tabular TD update or the DQN target and squared-error loss;
  - a colour for each Q-value;
  - the grid or one-hot input layout;
  - the per-episode reward curve as a list of SVG path points.
  
  The four panels differ on purpose, and each is modelled as its own file does it:
  - the discount factor is 0.9 or 0.99;
  - the reward axis is anchored at the observed min/max, at min/0, or at `min(…, 0)`/`max(…, 1)`;
  - the DQN CliffWalk panel takes its greedy action from the next-state Q-values;
  - the DQN CartPole curve draws its first point twice.
- The tutorial overlay:
  - twelve fixed steps and a step index moved by Next, Back, the arrow keys, Skip and Escape;
  - the gate at the "switch-cartpole" step;
  - the focus side reported to the page, the box placement and the Next button's label.
- The page's focus rule: which panel is dimmed or highlighted, given `showTutorial` and `focusSide`, and how the
  overlay's callbacks and the "(?) Tutorial" button set them.

Modules follow the source files:
- `Replay` holds the shared rules: max/min/argmax, step clamping, the two update rules, the colour scale, the
  plot's y axis and x position, the cart offset and the arrows.
- `Cliffwalk` holds the CliffWalk grid and the path-building loop that both CliffWalk panels share.
- `Trace` holds the episode/step records that three of the panels read.
- `Cartpole` holds what the two CartPole panels share.
- There is one module per panel, plus `TutorialOverlay` (class `Overlay`) and `App` (class `Page`).

Arithmetic is over exact `real`s with the source's constants (0.1, 0.9, 0.99, `1e-6`). A JSON field that may be
missing is an `Option`, and `x ?? d` / `x || d` is `GetOr`.

Each loop of the source is a method with a `while` loop proved against a specification function:
- the `forEach` with the `seenEpisodes` set (`QlearningCliffwalk.CollectEpisodeRewards`);
- the four `path +=` loops: the two CliffWalk panels' loops are the same code, `Cliffwalk.BuildPath`, and each
  CartPole panel has its own (`QlearningCartpole.BuildCurve`, `DeepqCartpole.BuildCurve`).

Code that assigns local variables branch by branch is a method too, with no loop: the colour code's `r`, `g`, `b`
(`QlearningCartpole.InlineCellColour`) and the cell background (`Cliffwalk.CellBackground`). `App.Page.DeliverAll`
has no counterpart loop in the source: it plays a sequence of the overlay's callback calls into the page, one
`Deliver` per call, to state what the page holds after a whole tutorial session.

Notes on the source, modelled as written:
- `src/components/QlearningCartpole.jsx` declares its component under the name `DeepqCartpole`.
- In `QlearningCartpole`, the cells use an inline copy of the colour code, not `bgColorForQ`.
  `InlineCellColour` proves the copy gives the same triple.
- `DeepqCartpole` defines its linear `bgColorForQ` but never calls it.
- `DeepqCliffwalk` shows `currentStateIndex` both as "Current State" and as "Next State". The `nextState` it
  computes is not displayed.
- Both CliffWalk plots compare an episode *id* with the slider's episode *index*. They emit "M" only for list
  position 0. If the first entry is filtered out, the path starts with "L"
  (`Cliffwalk.PathStartsWithMoveOnlyAtPositionZero`).
- The `DeepqCliffwalk` y axis `(val - min) / (0 - min)` has no guard. When the minimum reward is 0 it divides by
  zero. The model returns `None` there (`DeepqCliffwalk.RewardAxis`).
- With its 48 one-hot inputs in four rows of 12, the DQN CliffWalk input layer draws only the first dot of the
  last row. That is 37 dots, so cells 37 to 47 are never shown.
- The page mounts the overlay without an `environment` prop. At step 7 ("switch-cartpole"), Next therefore never
  advances.

## Model

| member | source | states |
|---|---|---|
| Replay.Max | src/components/DeepqCliffwalk.jsx:35 | `Math.max(...v)` of a non-empty vector is an element of it and bounds every element from above |
| Replay.Min | src/components/QlearningCliffwalk.jsx:39 | `Math.min(...v)` is an element and bounds every element from below |
| Replay.IndexOf | src/components/DeepqCliffwalk.jsx:46 | `indexOf`/`findIndex` gives -1 exactly when the value is absent; otherwise the first position holding it |
| Replay.Argmax | src/components/QlearningCliffwalk.jsx:27 | `indexOf(Math.max(...v))` attains the maximum, and no lower index does |
| Replay.ArgmaxIsTheFirstMaximum | src/components/QlearningCliffwalk.jsx:27-30 | the greedy action is the only index that is a first maximum, so the greedy flag is exact |
| Replay.ClampStep | src/components/QlearningCliffwalk.jsx:21 | the safe step lies in `[0, max(len-1, 0)]`; it equals the request when that is in range, the last step past the end, and 0 for an empty episode |
| Replay.BellmanTargetIsLinear | src/components/DeepqCliffwalk.jsx:39 | the target moves by gamma times any change of the next-state maximum |
| Replay.SquaredError | src/components/DeepqCliffwalk.jsx:40 | the loss is never negative, and it is zero exactly when the chosen Q-value equals the target |
| Replay.TdUpdate | src/components/QlearningCliffwalk.jsx:37 | with a rate in [0, 1] the updated value lies between the old value and the target; rate 0 keeps the old value and rate 1 gives the target |
| Replay.Denominator | src/components/QlearningCliffwalk.jsx:45 | `d \|\| 1e-6` is never zero and is `d` when `d` is non-zero |
| Replay.Normalize | src/components/QlearningCartpole.jsx:39 | the scale position is in [0, 1] for values in the range; it is 0 at the minimum and 1 at a proper maximum, and defined (0) when all values are equal |
| Replay.Clamp01 | src/components/QlearningCliffwalk.jsx:45 | the clamp lands in [0, 1], leaves values in [0, 1] alone and saturates the rest |
| Replay.Lerp | src/components/QlearningCliffwalk.jsx:52 | one channel of the interpolation stays between its endpoints and hits each endpoint at p = 0 and p = 1 |
| Replay.ThreeStop | src/components/QlearningCliffwalk.jsx:50-60 | below 0.5 every channel lies between the low and mid stops; from 0.5 to 1 between the mid and high stops |
| Replay.ThreeStopHitsStops | src/components/QlearningCliffwalk.jsx:46-60 | positions 0, 0.5 and 1 give exactly (185,245,225), (90,200,180) and (30,105,155) |
| Replay.WhiteTextOnDarkHalf | src/components/QlearningCartpole.jsx:205 | text is white exactly on the darker half of the scale (position > 0.5); with all values equal no cell gets white text |
| Replay.Project | src/components/QlearningCliffwalk.jsx:232 | `scaleY` maps the axis floor to the bottom and floor + span to the top of the plotted band |
| Replay.ProjectInside | src/components/QlearningCliffwalk.jsx:232 | values between floor and floor + span land inside the plotted band |
| Replay.PlotX | src/components/QlearningCliffwalk.jsx:231 | `padding + i * stepX` puts episode 0 at x = 40 and the last episode of the domain at x = 900 |
| Replay.CartLeft | src/components/DeepqCartpole.jsx:133 | the cart offset maps -2.4 to 0 px, 2.4 to 300 px, and the range between into the 300 px track |
| Replay.CartLeftMonotone | src/components/DeepqCartpole.jsx:133 | the cart offset grows with the cart position |
| Replay.ArrowAt | src/components/QlearningCliffwalk.jsx:4 | an arrow exists exactly for actions 0 to 3 |
| Cliffwalk.IsCliffBetweenStartAndGoal | src/components/QlearningCliffwalk.jsx:11-13 | the cliff cells are exactly those strictly between start (36) and goal (47) |
| Cliffwalk.StateToCoord | src/components/QlearningCliffwalk.jsx:42 | `(floor(s/12), s%12)`: the column is < 12, `row*12 + col = s`, and the row is < 4 on the 48-cell grid |
| Cliffwalk.BackgroundPriority | src/components/QlearningCliffwalk.jsx:121-126 | the background follows the priority agent > start > goal > cliff > plain, each case as an if-and-only-if |
| Cliffwalk.CellBackground | src/components/QlearningCliffwalk.jsx:122-126 | the sequence of overwriting `if`s yields exactly that priority |
| Cliffwalk.Rewards | src/components/QlearningCliffwalk.jsx:227 | `rewards` lists the reward of each entry, in order |
| Cliffwalk.Drawn | src/components/QlearningCliffwalk.jsx:236 | the drawn entries are exactly those whose episode id is at most the selected index, in ascending list order |
| Cliffwalk.PathStartsWithMoveOnlyAtPositionZero | src/components/QlearningCliffwalk.jsx:239 | every segment after the first is "L"; the first is "M" exactly when list position 0 is drawn |
| Cliffwalk.BuildPath | src/components/QlearningCliffwalk.jsx:234-240 | the `path +=` loop builds one segment per drawn entry, in list order |
| Trace.SelectStep | src/components/DeepqCliffwalk.jsx:21-24 | the shown step belongs to the selected episode; it is the requested one in range, the last one past the end, and `{}` only for an episode without steps |
| Trace.Fill | src/components/DeepqCliffwalk.jsx:26-32 | a missing next state falls back to the state; the empty record gets all the defaults |
| Trace.FillFieldByField | src/components/DeepqCliffwalk.jsx:26-38 | field by field, a recorded value is kept and a missing one becomes its default: zero state, zero Q-values, epsilon 0, action 0, reward 0, and the state for a missing next state |
| Trace.SelectedStepIsWellFormed | src/components/DeepqCliffwalk.jsx:24-40 | for any indices, the filled step has a next-state maximum and an action indexing the Q-values |
| QlearningCliffwalk.Insert | src/components/QlearningCliffwalk.jsx:18 | adding an id keeps the list strictly ascending and adds exactly that id |
| QlearningCliffwalk.EpisodeIds | src/components/QlearningCliffwalk.jsx:18 | the episode list is strictly ascending (so it has no duplicates) and holds exactly the ids in the log |
| QlearningCliffwalk.CurrentEpisode | src/components/QlearningCliffwalk.jsx:19 | the selected id is `episodes[episodeIndex]`, or `episodes[0]` past the end, and is absent only for an empty log |
| QlearningCliffwalk.EpisodeSteps | src/components/QlearningCliffwalk.jsx:20 | the filter keeps exactly the records of the selected episode |
| QlearningCliffwalk.EpisodeStepsKeepLogOrder | src/components/QlearningCliffwalk.jsx:20 | filtering distributes over concatenation, so the steps keep log order |
| QlearningCliffwalk.BestActions | src/components/QlearningCliffwalk.jsx:27 | one greedy action per table row, each the first maximum of its row; none without a snapshot |
| QlearningCliffwalk.Flat | src/components/QlearningCliffwalk.jsx:38 | `flat()` holds exactly the table's values |
| QlearningCliffwalk.Select | src/components/QlearningCliffwalk.jsx:19-23 | "Loading..." exactly for an empty log; otherwise the shown record is the clamped step of the selected episode and a record of the log |
| QlearningCliffwalk.SelectedRecordIsValid | src/components/QlearningCliffwalk.jsx:22-25 | the shown record of a valid log is valid |
| QlearningCliffwalk.Derive | src/components/QlearningCliffwalk.jsx:25-40 | the row shown, the greedy actions and flag, `new_state ?? state`, the next state's greedy action `bestActions[displayNext]`, the next state's row maximum (0 off the table), `updatedQ = q + 0.1*(r + 0.9*nextMaxQ - q)` exactly and between q and that target, and the table's min/max |
| QlearningCliffwalk.NextMaxActionIsGreedyInNextState | src/components/QlearningCliffwalk.jsx:34-35 | the next-state arrow is the first maximum of the next state's row, present exactly when that row exists, and the value beside it is that row's maximum |
| QlearningCliffwalk.UpdateRuleConstants | src/components/QlearningCliffwalk.jsx:37 | with the panel's constants the update is `0.9*q + 0.1*r + 0.09*nextMaxQ` |
| QlearningCliffwalk.GridShowsGreedyPolicy | src/components/QlearningCliffwalk.jsx:129 | special cells show S/G/X; every ordinary cell shows the arrow of its row's first maximum, wherever the agent stands |
| QlearningCliffwalk.BgColorForQRange | src/components/QlearningCliffwalk.jsx:44-61 | every value gets a colour between the low and high stops; at or below the minimum the low stop, at or above a proper maximum the high stop |
| QlearningCliffwalk.FirstDoneAtIff | src/components/QlearningCliffwalk.jsx:219 | the `seenEpisodes` test picks exactly the first `done` record of each episode |
| QlearningCliffwalk.FirstDoneRewardsIds | src/components/QlearningCliffwalk.jsx:216-223 | the kept ids are exactly the ids of episodes with a `done` record |
| QlearningCliffwalk.FirstDoneRewardsDistinct | src/components/QlearningCliffwalk.jsx:216-223 | no episode is kept twice |
| QlearningCliffwalk.FirstDoneRewardsTakeFirstDone | src/components/QlearningCliffwalk.jsx:216-223 | each finishing episode's entry carries the running total of its first `done` record |
| QlearningCliffwalk.CollectEpisodeRewards | src/components/QlearningCliffwalk.jsx:216-223 | the `forEach` with its seen set yields exactly the first-done entries in log order |
| QlearningCliffwalk.RewardSpan | src/components/QlearningCliffwalk.jsx:232 | `(max - min) \|\| 1` is never zero; it is 1 when all rewards are equal |
| QlearningCliffwalk.RewardAxisAnchors | src/components/QlearningCliffwalk.jsx:228-232 | min maps to 150 and a proper max to 40; with equal rewards every point sits at 150; all points lie in [40, 150] |
| QlearningCliffwalk.RewardPath | src/components/QlearningCliffwalk.jsx:225-240 | no curve exactly when no episode finished; otherwise the path of the drawn first-done entries |
| DeepqCliffwalk.CurrentStateIndex | src/components/DeepqCliffwalk.jsx:46 | the first index holding 1, or 36 when there is none |
| DeepqCliffwalk.Derive | src/components/DeepqCliffwalk.jsx:19-46 | for a well-formed shown step: "Loading..." exactly without episodes; the greedy action is the first maximum of the next-state Q-values; target `r + 0.99*max`; the loss is `(target - q[action])²`, never negative and 0 exactly when the target equals q; the decoded state |
| DeepqCliffwalk.MissingStepDefaults | src/components/DeepqCliffwalk.jsx:21-38 | a missing step shows 48 zeros, the start cell, four zero Q-values, action 0, reward 0, epsilon 0, and a greedy step with zero loss |
| DeepqCliffwalk.ArrowLabel | src/components/DeepqCliffwalk.jsx:42-43 | `arrows[a] ?? "?"` gives the arrow for 0 to 3 and "?" otherwise |
| DeepqCliffwalk.OneHotRoundTrip | src/components/DeepqCliffwalk.jsx:46-67 | decoding the one-hot state of a cell gives back the cell, and the agent is drawn exactly there |
| DeepqCliffwalk.CellLabel | src/components/DeepqCliffwalk.jsx:79 | S, G and X exactly on start, goal and cliff; A exactly for the agent elsewhere |
| DeepqCliffwalk.ItemsPerRow | src/components/DeepqCliffwalk.jsx:102 | `ceil(len / 4)`: four rows cover the state, and three rows fewer do not |
| DeepqCliffwalk.RowArrays | src/components/DeepqCliffwalk.jsx:104-106 | the input is laid out in four rows |
| DeepqCliffwalk.RowArraysPartitionState | src/components/DeepqCliffwalk.jsx:101-106 | the four slices are consecutive and together are the whole state |
| DeepqCliffwalk.VisibleDotsArePrefix | src/components/DeepqCliffwalk.jsx:110-119 | the drawn dots are the state up to and including the first item of the last row |
| DeepqCliffwalk.FortyEightInputsGiveThirtySevenDots | src/components/DeepqCliffwalk.jsx:101-119 | with 48 inputs exactly 37 dots are drawn, cells 0 to 36 |
| DeepqCliffwalk.EpisodeRewards | src/components/DeepqCliffwalk.jsx:224 | one (id, total reward) entry per episode, in order |
| DeepqCliffwalk.RewardAxis | src/components/DeepqCliffwalk.jsx:229-232 | the unguarded axis (floor min, ceiling 0) is undefined exactly when the minimum is 0 |
| DeepqCliffwalk.RewardAxisAnchors | src/components/DeepqCliffwalk.jsx:229-232 | min maps to 150 and 0 to 40; rewards between min and 0 land in [40, 150] |
| DeepqCliffwalk.RewardPath | src/components/DeepqCliffwalk.jsx:224-241 | the curve is the path of the drawn entries, and is absent exactly where `scaleY` divides by zero |
| Cartpole.CartOnTrack | src/components/QlearningCartpole.jsx:128 | `state[0] ?? 0` puts a missing state's cart at 150 px, and positions within +/-2.4 on the track |
| Cartpole.Totals | src/components/DeepqCartpole.jsx:398-400 | `min(episodeIndex+1, len)` rewards, each `total_reward ?? 0` of its episode |
| Cartpole.RewardAxis | src/components/DeepqCartpole.jsx:408-414 | `max(..., 1)` and `min(..., 0)` keep the span at least 1, so `scaleY` is always defined |
| Cartpole.RewardAxisAnchors | src/components/DeepqCartpole.jsx:408-414 | min maps to 150, max to 0, and every reward into [0, 150] |
| QlearningCartpole.Derive | src/components/QlearningCartpole.jsx:13-36 | for a well-formed shown step: "Loading..." exactly without episodes; the greedy action and flag over the current Q-values; the next maximum; `updatedQ = q + 0.1*(r + 0.99*nextMaxQ - q)` exactly and between q and that target; the min/max over both rows |
| QlearningCartpole.UpdateRuleConstants | src/components/QlearningCartpole.jsx:31 | with the panel's constants the update is `0.9*q + 0.1*r + 0.099*nextMaxQ` |
| QlearningCartpole.MissingStepDefaults | src/components/QlearningCartpole.jsx:15-26 | a missing step shows [0,0,0,0], [0,0], action 0, reward 0, epsilon 0, and the update keeps 0 |
| QlearningCartpole.TableCellsInScale | src/components/QlearningCartpole.jsx:34-39 | every displayed cell's scale position is in [0, 1], so its colour lies between the low and high stops |
| QlearningCartpole.InlineCellColour | src/components/QlearningCartpole.jsx:183-199 | the cells' inline branch-assigned colour equals `bgColorForQ` for every value |
| QlearningCartpole.BuildCurve | src/components/QlearningCartpole.jsx:288-293 | one M at x = 40, then one L per later reward at `40 + i*860/249` |
| QlearningCartpole.RewardCurve | src/components/QlearningCartpole.jsx:276-293 | no curve exactly without episodes; one point per shown episode's total: "M" at episode 0, then "L" at `PlotX(i)` and the projected total, all within [0, 150] |
| DeepqCartpole.Derive | src/components/DeepqCartpole.jsx:12-39 | for a well-formed shown step: "Loading..." exactly without episodes; first maxima of both rows, `nextMaxQ = nextQ[nextMaxAction]`, target `r + 0.99*max`, the loss `(target - q[action])²`, never negative and 0 exactly when the target equals q, and min/max over both rows |
| DeepqCartpole.MissingStepDefaults | src/components/DeepqCartpole.jsx:14-25 | a missing step shows [0,0,0,0], [0,0], action 0, reward 0, epsilon 0, and a greedy step with zero loss |
| DeepqCartpole.BgColorForQRange | src/components/DeepqCartpole.jsx:40-46 | the linear colour is the straight line from (200,220,255) to (100,240,175); values in range stay between them |
| DeepqCartpole.BuildCurve | src/components/DeepqCartpole.jsx:417-422 | an M at x = 40, then an L for every reward, the first included; `len + 1` points |
| DeepqCartpole.FirstPointDuplicated | src/components/DeepqCartpole.jsx:417-422 | the M point and the first L point coincide |
| DeepqCartpole.RewardCurve | src/components/DeepqCartpole.jsx:396-422 | no curve exactly without episodes; `len + 1` points: "M" at the padding and the first projected total, then "L" at `PlotX(i)` and the i-th projected total for every episode, so the first total is drawn twice; all within [0, 150] |
| TutorialOverlay.OnlySwitchStepRequiresCartpole | src/components/TutorialOverlay.jsx:281 | the gate's step is exactly index 6 |
| TutorialOverlay.OnNext | src/components/TutorialOverlay.jsx:472-478 | Next closes exactly on the last step; it stays exactly at the switch step without CartPole; otherwise it advances by one |
| TutorialOverlay.OnBack | src/components/TutorialOverlay.jsx:448 | Back stays exactly on the first step and otherwise goes back by one |
| TutorialOverlay.OnKey | src/components/TutorialOverlay.jsx:319-333 | ArrowRight acts as Next, ArrowLeft as Back, Escape closes, and other keys do nothing |
| TutorialOverlay.Dispatch | src/components/TutorialOverlay.jsx:446-478 | every action moves only to a valid step |
| TutorialOverlay.RunStaysInRange | src/components/TutorialOverlay.jsx:318-333 | after any sequence of actions the step index is still in 0 to 11 |
| TutorialOverlay.GateHoldsWithoutCartpole | src/components/TutorialOverlay.jsx:281-283 | without CartPole no sequence of actions gets past the switch step, except by closing |
| TutorialOverlay.ReportedFocus | src/components/TutorialOverlay.jsx:288 | the reported side is the step's `focusSide`, or "both" |
| TutorialOverlay.BackdropMatchesPlacement | src/components/TutorialOverlay.jsx:343-357 | the backdrop is transparent exactly when the box is pushed aside: right for "left", left for "right" |
| TutorialOverlay.NextLabelMatchesEffect | src/components/TutorialOverlay.jsx:480-484 | each label of the Next button holds exactly when Next has the matching effect (stay, close, advance) |
| TutorialOverlay.Counter | src/components/TutorialOverlay.jsx:462 | the counter shows `stepIndex + 1` out of 12, so a position from 1 to 12 |
| TutorialOverlay.Overlay.constructor | src/components/TutorialOverlay.jsx:276-289 | mounting starts on step 0 and reports its side |
| TutorialOverlay.Overlay.HandleClose | src/components/TutorialOverlay.jsx:310-315 | closing reports `null` focus, then calls `onClose`; the step index is kept |
| TutorialOverlay.ReportsAfterKeepSync | src/components/TutorialOverlay.jsx:286-289 | after any effect the last call the page received is `onClose` or the focus of the current step |
| TutorialOverlay.Overlay.SetStepIndex | src/components/TutorialOverlay.jsx:286-289 | moving to a step reports its side exactly when the side changes |
| TutorialOverlay.Overlay.Apply | src/components/TutorialOverlay.jsx:321-331 | a handler's effect is carried out: Stay changes nothing; Close reports `null` focus then `onClose`; a move sets the index and reports the new step's side exactly when it differs from the old step's |
| TutorialOverlay.Overlay.Next | src/components/TutorialOverlay.jsx:472-478 | on the last step it reports `null` focus and closes; at the gate without CartPole nothing changes; otherwise the index goes up by one, and the new step's side is reported exactly when it differs |
| TutorialOverlay.Overlay.Back | src/components/TutorialOverlay.jsx:448 | on the first step nothing changes; otherwise the index goes down by one, and the new step's side is reported exactly when it differs |
| TutorialOverlay.Overlay.Skip | src/components/TutorialOverlay.jsx:438 | Skip reports `null` focus and closes |
| TutorialOverlay.Overlay.KeyDown | src/components/TutorialOverlay.jsx:318-333 | a key press carries out `OnKey`'s effect on the index and the reported calls, as Apply states them |
| App.IsLeftFocused | src/App.jsx:58-59 | the left panel is focused exactly when the tutorial is hidden or not focused on the right |
| App.IsRightFocused | src/App.jsx:61-62 | the right panel is focused exactly when the tutorial is hidden or not focused on the left |
| App.SomePanelIsFocused | src/App.jsx:58-62 | at least one panel is always focused, and both are while the tutorial is hidden |
| App.HighlightOnlyOnFocusedPanels | src/App.jsx:86-92 | a highlighted panel is at full opacity; with the tutorial hidden nothing is highlighted and nothing is dimmed |
| App.StepFocusDimsOtherPanel | src/App.jsx:58-62 | on a one-sided tutorial step only the other panel is dimmed; on a "both" step neither is |
| App.PageNeverOpensTheGate | src/App.jsx:134-141 | without an `environment` prop, Next and ArrowRight stay at the switch step, while Back and Escape act |
| App.Page.constructor | src/App.jsx:15-17 | the page starts with the tutorial shown, focused on both |
| App.Page.ReopenTutorial | src/App.jsx:70-73 | the button shows the tutorial focused on both |
| App.Page.OnClose | src/App.jsx:136-139 | closing hides the tutorial and clears the focus |
| App.Page.OnFocusChange | src/App.jsx:140 | a focus change is stored unchanged |
| App.Page.Deliver | src/App.jsx:136-140 | one overlay call updates the page as its handler says |
| App.Page.DeliverAll | src/App.jsx:134-141 | after the calls ending in close the page is hidden with both panels lit; the last focus change is the one stored |

## Left out

- JSX structure, style objects and CSS strings: presentational only.
- DOM effects of the overlay (the `tutorial-highlight` class, `scrollIntoView`, adding and removing the key
  listener): only the step-index changes and the callback calls they lead to are modelled.
- Loading of the bundled JSON traces and the React hooks around it: a trace is a given sequence of records.
- String formatting (`toFixed`, `Math.round` into `rgb(...)`, SVG path text): the model keeps the unrounded
  channels and the list of path segments.
- The axis tick labels and grid lines of the reward plots: they are decoration.
- Floating point: all numbers are exact reals. The source shows `-Infinity` from `Math.max()` of an empty vector,
  `NaN` and `undefined` entries for a step whose Q-vectors are empty, shorter than its action, or of different
  lengths. Each panel's `Derive` excludes these for the shown step only: `QlearningCliffwalk.Derive` requires
  `ValidRecord` of the selected record, and the other three require `WellFormed` of the selected, default-filled
  step. `ValidLog` and `ValidTrace` are sufficient conditions over a whole log
  (`QlearningCliffwalk.SelectedRecordIsValid`, `Trace.SelectedStepIsWellFormed`).
- QlearningCliffwalk.Derive: requires a Q-table snapshot. The source's `qTable_snapshot.flat()` throws without one.
- DeepqCliffwalk.RewardPath: requires every episode to carry its id and total reward. The source reads both
  without defaults.
- The pole angle `theta * 180 / Math.PI`: it depends on an irrational constant and only rotates the drawing.
- The `Qlearning` and `Deepqlearning` components that `src/App.jsx` renders are not part of this model. The page
  is modelled up to the tutorial state it passes around, and the two replay index pairs it holds are not modelled.
- After `onClose` the page unmounts the overlay. The model does not follow the overlay past its `Closed` report.
- The tutorial steps' titles, bodies and section ids: text for the DOM only.
