/**
 * The DDPG evaluator (`Evaluator`): each call runs a fixed number of complete episodes with the
 * given policy, appends the episodes' returns as one new column of its `results` matrix and
 * returns their mean.
 *
 * The environment and the policy are oracles: what the environment does during the episodes of
 * one call is supplied as a trace. Plotting and saving the results are not modelled.
 */
module DdpgEvaluator {
  import opened Wrappers
  import opened Stats

  /** One `env.step` result as the evaluator uses it: the reward and the done flag. */
  datatype Transition = Transition(reward: real, done: bool)

  /** The environment's side of one episode: whether `reset` returned an observation
      (rather than None), then the results of the successive steps. */
  datatype EpisodeTrace = EpisodeTrace(observed: bool, transitions: seq<Transition>)

  datatype EpisodeOutcome =
    | Ended(reward: real, steps: nat)  // the episode's return and its number of steps
    | ObservationMissing               // `assert observation is not None` fails
    | NeverDone                        // no step reports done: the episode loop never ends

  datatype CallOutcome =
    | Returned(mean: Option<real>)  // `np.mean` of this call's column; None is the NaN of no episodes
    | AssertionFailed(episode: nat) // reset returned None in this episode
    | NoTermination(episode: nat)   // this episode never reports done

  function Rewards(ts: seq<Transition>): (r: seq<real>)
    ensures |r| == |ts| && forall j :: 0 <= j < |ts| ==> r[j] == ts[j].reward
  {
    seq(|ts|, j requires 0 <= j < |ts| => ts[j].reward)
  }

  /** The number of steps up to and including the first one that reports done, if any does. */
  function EpisodeLength(ts: seq<Transition>): (k: Option<nat>)
    ensures k.Some? ==> 1 <= k.value <= |ts| && ts[k.value - 1].done
    ensures k.Some? ==> forall j :: 0 <= j < k.value - 1 ==> !ts[j].done
    ensures k.None? ==> forall j :: 0 <= j < |ts| ==> !ts[j].done
    decreases |ts|
  {
    if |ts| == 0 then None
    else if ts[0].done then Some(1)
    else match EpisodeLength(ts[1..])
      case None => None
      case Some(k) => Some(k + 1)
  }

  /** One episode of the evaluation loop: reset, then step until done, summing the rewards. */
  function RunEpisode(ep: EpisodeTrace): (o: EpisodeOutcome)
    ensures o.ObservationMissing? <==> !ep.observed
    ensures o.NeverDone? <==> ep.observed && forall j :: 0 <= j < |ep.transitions| ==> !ep.transitions[j].done
    ensures o.Ended? ==>
      1 <= o.steps <= |ep.transitions| && ep.transitions[o.steps - 1].done &&
      (forall j :: 0 <= j < o.steps - 1 ==> !ep.transitions[j].done) &&
      o.reward == Sum(Rewards(ep.transitions)[..o.steps])
  {
    if !ep.observed then ObservationMissing
    else match EpisodeLength(ep.transitions)
      case None => NeverDone
      case Some(k) => Ended(Sum(Rewards(ep.transitions)[..k]), k)
  }

  /** The first e episodes of the trace end normally. */
  predicate EndedBefore(trace: seq<EpisodeTrace>, e: nat)
    requires e <= |trace|
  {
    forall j :: 0 <= j < e ==> RunEpisode(trace[j]).Ended?
  }

  /** The returns of the episodes, in episode order: the column one call appends. */
  function Column(trace: seq<EpisodeTrace>): (c: seq<real>)
    requires EndedBefore(trace, |trace|)
    ensures |c| == |trace|
  {
    seq(|trace|, e requires 0 <= e < |trace| => RunEpisode(trace[e]).reward)
  }

  /**
   * The body of the episode loop of `__call__`: reset, check the observation, then step until
   * done while adding up the reward and counting the steps.
   */
  method PlayEpisode(ep: EpisodeTrace) returns (o: EpisodeOutcome)
    ensures o == RunEpisode(ep)
  {
    var episodeSteps := 0;
    var episodeReward := 0.0;
    if !ep.observed {
      return ObservationMissing;
    }
    var done := false;
    while !done
      invariant episodeSteps <= |ep.transitions|
      invariant done ==> 0 < episodeSteps && ep.transitions[episodeSteps - 1].done
      invariant forall j :: 0 <= j < episodeSteps - (if done then 1 else 0) ==> !ep.transitions[j].done
      invariant episodeReward == Sum(Rewards(ep.transitions)[..episodeSteps])
      decreases |ep.transitions| - episodeSteps
    {
      if episodeSteps == |ep.transitions| {
        return NeverDone;
      }
      var tr := ep.transitions[episodeSteps];
      done := tr.done;
      assert Rewards(ep.transitions)[..episodeSteps + 1][..episodeSteps] == Rewards(ep.transitions)[..episodeSteps];
      episodeReward := episodeReward + tr.reward;
      episodeSteps := episodeSteps + 1;
    }
    o := Ended(episodeReward, episodeSteps);
  }

  class Evaluator {
    const numEpisodes: nat
    const interval: int
    const savePath: string
    /** The `results` matrix: numEpisodes rows and one column per completed call, stored column
        by column so that a matrix with no rows still has its number of columns. */
    var results: seq<seq<real>>

    ghost predicate Valid()
      reads this
    {
      forall c :: 0 <= c < |results| ==> |results[c]| == numEpisodes
    }

    /** A fresh evaluator: a numEpisodes x 0 results matrix. */
    constructor (numEpisodes: nat, interval: int, savePath: string)
      ensures Valid()
      ensures this.numEpisodes == numEpisodes && this.interval == interval && this.savePath == savePath
      ensures results == []
    {
      this.numEpisodes := numEpisodes;
      this.interval := interval;
      this.savePath := savePath;
      results := [];
    }

    /**
     * `__call__`: runs numEpisodes episodes in order. When all of them end, the column of their
     * returns is appended to `results` and its mean is returned; when one fails, the call stops
     * there and `results` is left as it was.
     */
    method Call(trace: seq<EpisodeTrace>) returns (outcome: CallOutcome)
      requires Valid() && |trace| == numEpisodes
      modifies this
      ensures Valid()
      ensures outcome.Returned? <==> EndedBefore(trace, |trace|)
      ensures outcome.Returned? ==>
        results == old(results) + [Column(trace)] && outcome.mean == Mean(Column(trace))
      ensures outcome.AssertionFailed? ==>
        var e := outcome.episode;
        e < |trace| && EndedBefore(trace, e) && RunEpisode(trace[e]).ObservationMissing?
      ensures outcome.NoTermination? ==>
        var e := outcome.episode;
        e < |trace| && EndedBefore(trace, e) && RunEpisode(trace[e]).NeverDone?
      ensures !outcome.Returned? ==> results == old(results)
    {
      var result: seq<real> := [];
      var episode := 0;
      while episode < numEpisodes
        invariant episode <= numEpisodes
        invariant EndedBefore(trace, episode)
        invariant |result| == episode
        invariant forall j :: 0 <= j < episode ==> result[j] == RunEpisode(trace[j]).reward
        invariant results == old(results)
      {
        var ep := trace[episode];
        var played := PlayEpisode(ep);
        if played.ObservationMissing? {
          outcome := AssertionFailed(episode);
          return;
        } else if played.NeverDone? {
          outcome := NoTermination(episode);
          return;
        }
        var episodeReward := played.reward;
        result := result + [episodeReward];
        episode := episode + 1;
      }
      assert result == Column(trace);
      results := results + [result];
      outcome := Returned(Mean(result));
    }
  }
}
