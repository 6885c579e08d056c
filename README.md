# Episode bookkeeping of an actor-critic RL training stack, in Dafny

This project models the episode bookkeeping of three components of a reinforcement-learning
repository and proves properties of it. In each component the environment (and the simulator
behind it) and the policy are outside collaborators. The model replaces them with supplied finite
traces of what they report. Rewards are `real`.

- `vec_evaluation.dfy` (module `VecEvaluation`) models `evaluate` from `a2c_ppo/evaluation.py`.
  N environment slots are stepped in lockstep. Each slot has a running return that is updated
  in place in an `array<real>`. When a slot reports done, its return is appended to the
  collected list and the running return is set to zero. The per-slot masks are rebuilt after
  every step. The loop stops once at least 10 returns have been collected. `Evaluate` is proved
  against `After`, the state after t steps, which is a fold of the pure `Step`. Lemmas prove
  reward conservation, the stop bound, the order in which returns are collected, and the
  behaviour of a stub environment.
- `ddpg_evaluator.dfy` (module `DdpgEvaluator`) models the `Evaluator` class from
  `ddpg/evaluator.py`. Each call runs `num_episodes` episodes. Each episode is a reset followed
  by steps until done. The call appends one column of episode returns to `results` and returns
  the column's mean. `results` is kept as a sequence of columns, so a matrix with zero rows still
  knows how many columns it has.
- `humanoid_hold.dfy` (module `HumanoidHold`) models `HumanoidHoldEnv` from
  `OurEnvs/humanoid_hold.py`. The health predicate, the done rule and the healthy reward are
  pure functions of the configuration and the ball height. `reset_model` and `step` are methods
  of a class whose state is `started` and `orig_ball_height`. The ball height after a simulation
  step and the two costs are parameters.
- `stats.dfy` (module `Stats`) defines sums and `np.mean` over reals. `wrappers.dfy` defines
  `Option`.

Three details of `evaluate` that the model keeps:
- `evaluate` returns nothing. It only prints the mean of the collected returns.
- The number of episodes to collect is fixed at 10.
- The mask list is built from the whole `done` list, so it has one entry per done flag.

## Model

| member | source | states |
|---|---|---|
| VecEvaluation.Start | a2c_ppo/evaluation.py:6-13 | Before the first step there are num_envs running returns, all 0, nothing collected, and num_envs masks, all 0 |
| VecEvaluation.Masks | a2c_ppo/evaluation.py:34-37 | The rebuilt mask has one entry per done flag; an entry is 0 exactly when that slot is done, and 1 otherwise |
| VecEvaluation.Accumulated | a2c_ppo/evaluation.py:28-32 | After a step a done slot's running return is 0; any other slot's running return grows by its reward |
| VecEvaluation.DoneSlots | a2c_ppo/evaluation.py:28-30 | The slots visited that report done, each once, in strictly increasing slot order |
| VecEvaluation.Completed | a2c_ppo/evaluation.py:28-31 | One step appends at most one return per slot |
| VecEvaluation.CompletedInSlotOrder | a2c_ppo/evaluation.py:28-31 | The returns appended in one step are, in increasing slot order, each done slot's previous running return plus its reward; slots that are not done append nothing |
| VecEvaluation.Step | a2c_ppo/evaluation.py:28-37 | One loop body: done slots are reset to 0, other slots accumulate, the collected list keeps its old prefix and grows by at most num_envs, masks mark exactly the done slots |
| VecEvaluation.After | a2c_ppo/evaluation.py:15-37 | The state after any number of steps keeps num_envs running returns |
| VecEvaluation.Evaluate | a2c_ppo/evaluation.py:5-38 | The loop with in-place running returns satisfies `Describes` and so ends exactly as the step-by-step state dictates: it stops at the first step count with at least 10 returns, at which point there are fewer than 10 + num_envs; a batch shorter than num_envs is an IndexError; every earlier step had fewer than 10 returns |
| VecEvaluation.AccumulateSlots | a2c_ppo/evaluation.py:28-32 | The per-slot pass updates the running-return array in place to the accumulated returns and appends the completed returns, or reports the IndexError of a short batch |
| VecEvaluation.StopBound | a2c_ppo/evaluation.py:15-32 | If the loop was still running before the last step, at most 10 + num_envs - 1 returns are collected after it |
| VecEvaluation.CompletedConserves | a2c_ppo/evaluation.py:28-32 | Within one step, slot by slot, the returns collected plus the new running returns equal the old running returns plus the rewards |
| VecEvaluation.StepConserves | a2c_ppo/evaluation.py:28-32 | One step raises collected-plus-running reward by exactly the rewards the step reported for the num_envs slots |
| VecEvaluation.RunConserves | a2c_ppo/evaluation.py:15-32 | After any number of steps, the collected returns plus the running returns sum to all reward reported so far |
| VecEvaluation.Phase | a2c_ppo/evaluation.py:28-32 | The steps since the last completion under a stub that finishes every k steps stay below k |
| VecEvaluation.StubRollout | a2c_ppo/evaluation.py:28-32 | With reward 1 per step and done every k steps, each running return is the phase and every collected return is exactly k |
| VecEvaluation.StubMean | a2c_ppo/evaluation.py:40-41 | With that stub, the printed mean of the collected returns is exactly k |
| Stats.Mean | ddpg/evaluator.py:53 | The mean is undefined (NaN) exactly for an empty sequence |
| Stats.MeanOfConstant | a2c_ppo/evaluation.py:40-41 | The mean of equal returns is that return |
| Stats.MeanBounds | ddpg/evaluator.py:53 | The mean lies between any lower and upper bound of the returns |
| DdpgEvaluator.EpisodeLength | ddpg/evaluator.py:31-43 | The episode runs at least one step and stops at the first step that reports done; with no such step it never stops |
| DdpgEvaluator.RunEpisode | ddpg/evaluator.py:24-43 | A None observation after reset is an assertion failure; otherwise the episode's reward is the sum of the rewards up to and including the first done step, and its step count is that step's position |
| DdpgEvaluator.PlayEpisode | ddpg/evaluator.py:24-43 | The reset-and-step loop, summing rewards and counting steps, gives exactly the outcome RunEpisode specifies |
| DdpgEvaluator.Column | ddpg/evaluator.py:46-48 | One return per episode, in episode order |
| DdpgEvaluator.Evaluator.constructor | ddpg/evaluator.py:9-14 | A fresh evaluator has a results matrix with num_episodes rows and 0 columns |
| DdpgEvaluator.Evaluator.Call | ddpg/evaluator.py:16-53 | Runs the episodes in order. If all of them end, it appends exactly one column of num_episodes returns, leaves earlier columns unchanged and returns the mean of that column. Otherwise it reports the first failing episode and leaves results unchanged |
| HumanoidHold.Less | OurEnvs/humanoid_hold.py:49 | Python's `<` on floats that may be infinite: a value is never below itself, nothing is below -inf and +inf is below nothing |
| HumanoidHold.IsHealthy | OurEnvs/humanoid_hold.py:45-51 | A healthy ball is at neither bound of the range, and a range with a healthy ball is non-empty |
| HumanoidHold.Done | OurEnvs/humanoid_hold.py:53-58 | done only when termination is enabled and the ball is unhealthy |
| HumanoidHold.StepReward | OurEnvs/humanoid_hold.py:71-74 | The reward orig - abs(orig - h) - (ctrl + contact) is at most orig less the costs, and equals it when the ball is at its original height |
| HumanoidHold.HealthyReward | OurEnvs/humanoid_hold.py:37-42 | The healthy reward is the weight or 0, and always the weight when termination is enabled |
| HumanoidHold.HealthyIsStrict | OurEnvs/humanoid_hold.py:45-51 | Healthy iff min_z < ball height < max_z, strict at both ends, with infinite bounds allowed |
| HumanoidHold.DefaultHealthy | OurEnvs/humanoid_hold.py:15 | With the default range (0.1, inf) the ball is healthy exactly when it is above 0.1 |
| HumanoidHold.DoneIffUnhealthy | OurEnvs/humanoid_hold.py:53-58 | done iff termination is enabled and the ball is unhealthy; never done when termination is disabled |
| HumanoidHold.HealthyRewardPaid | OurEnvs/humanoid_hold.py:37-42 | For a non-zero weight, the healthy reward is paid iff healthy or termination is enabled; when it is not paid, the ball is unhealthy and the episode is not done |
| HumanoidHold.StepRewardBound | OurEnvs/humanoid_hold.py:71-74 | The step reward is at most the original height less the costs, with equality iff the ball is at its original height |
| HumanoidHold.StepRewardPrefersNearer | OurEnvs/humanoid_hold.py:71-74 | A ball nearer its original height earns at least as much, and drifting up or down by the same amount earns the same |
| HumanoidHold.HumanoidHoldEnv.constructor | OurEnvs/humanoid_hold.py:6-21 | After the fields are set at lines 17-21, the environment has not started and has no latched height |
| HumanoidHold.HumanoidHoldEnv.ResetModel | OurEnvs/humanoid_hold.py:31-34 | reset_model clears the latched height and leaves started unchanged |
| HumanoidHold.HumanoidHoldEnv.Step | OurEnvs/humanoid_hold.py:61-81 | The first step after a reset latches the current ball height, and later steps keep it. The reward is orig - abs(orig - h) - (ctrl + contact) and does not include the healthy reward. A step taken while started is false, which is the first step after line 21, is never done and latches its own height. Later steps report `done`. started stays true. The info map is empty |
| HumanoidHold.UnhealthyLifetime | OurEnvs/humanoid_hold.py:31-34 | With termination enabled and an unhealthy ball, the first step after line 21 is not done, the next one is, and so is the first step after a reset, because reset does not clear started. Each first step after creation or reset earns the height less the costs |

## Left out

- The policy (`actor_critic.act`), the recurrent hidden states, observations, their normalisation
  and the tensor and device conversions (a2c_ppo/evaluation.py:9-26). They do not affect the
  bookkeeping.
- The environments' `reset`, `step` and `render` are replaced by supplied traces. For
  `evaluate`, the trace is a sequence of batches of rewards and done flags. For `Evaluator`, it
  is one episode per reset: whether reset returned an observation, then the step results.
- VecEvaluation.Evaluate: the real loop never ends if the environment stops finishing episodes.
  The model stops with `TraceEnded` when the supplied trace runs out.
- DdpgEvaluator.Evaluator.Call: an episode that never reports done makes the source loop
  forever. The model reports `NoTermination` when that episode's trace runs out. The call
  requires the trace to supply exactly `num_episodes` episodes.
- Printing: the mean that `evaluate` prints is `Stats.Mean` of the collected returns. The debug
  print in `Evaluator` is also not modelled.
- `Evaluator.save_results` (plotting, pickling, standard deviation) and the `save`, `debug` and
  `visualize` flags. `interval` and `save_path` are only stored.
- The MuJoCo simulation in `HumanoidHoldEnv` is not modelled: `do_simulation`, `control_cost`,
  `contact_cost`, `_get_obs` and the `HumanoidEnv` base class. The ball height and the costs are
  parameters. The observations returned by `reset_model` and `step` are not modelled, and
  neither are the constructor arguments that are only passed to the base class.
- Floating point: rewards, heights and costs are exact reals. NaN ball heights are not
  modelled, and neither are float comparisons with NaN. The NaN mean of zero episodes is `None`.
- The per-slot pass of `evaluate` (`VecEvaluation.AccumulateSlots`) and the episode loop of
  `Evaluator.__call__` (`DdpgEvaluator.PlayEpisode`) are separate methods. Their loops and
  branches are those of the source, with some added exits. `AccumulateSlots` checks the length
  of the rewards and of the done flags before indexing them, which models the IndexError.
  `PlayEpisode` stops when the episode's supplied trace runs out, which stands for the source
  looping forever.
- HumanoidHold.HumanoidHoldEnv.constructor: the model covers `__init__` only up to line 21.
  `HumanoidEnv.__init__`, called at line 23, is not part of this model. A base constructor that
  steps the environment once would set `started` and latch a height before the first client step.
  So "first step" in the rows above means the first call of `step` after line 21, which may not
  be the client's first step.
- `a2c_ppo/a2c_ppo_acktr/distributions.py` is not part of this model. It consists of torch
  distribution wrappers and network heads built on random sampling and floating-point
  transcendental functions.
