/**
 * The vectorised evaluation loop of the A2C/PPO trainer (`evaluate`).
 *
 * N environment slots are stepped in lockstep. Each slot keeps a running return; when a slot
 * reports `done`, its return is appended to the list of collected episode returns and its
 * running return is zeroed. A per-slot mask (0 right after an episode ended, 1 otherwise) is
 * rebuilt after every step. The loop stops once at least TargetEpisodes returns are collected.
 *
 * The environment is an oracle: it is modelled as a finite trace of batched step results.
 * The policy, the recurrent hidden state, observations and their normalisation do not
 * influence this bookkeeping and are not modelled.
 */
module VecEvaluation {
  import opened Wrappers
  import opened Stats

  /** The loop runs while fewer than this many episode returns have been collected. */
  const TargetEpisodes: nat := 10

  /** What one batched `eval_env.step` reports: one reward and one done flag per slot. */
  datatype Batch = Batch(rewards: seq<real>, dones: seq<bool>)

  /** The loop's state between two steps. */
  datatype Rollout = Rollout(
    totals: seq<real>,    // running return of each slot (`total_rewards`)
    episodes: seq<real>,  // returns collected so far (`eval_episode_rewards`)
    masks: seq<real>)     // 0.0 for a slot whose episode just ended, 1.0 otherwise (`eval_masks`)

  datatype Outcome =
    | Collected(state: Rollout, steps: nat)  // the loop ended after `steps` batched steps
    | BatchTooShort(step: nat)               // indexing that step's rewards or dones raised IndexError
    | TraceEnded(state: Rollout)             // the supplied environment trace ran out first

  /** A batch reports a reward and a done flag for each of the n slots. */
  predicate Fits(b: Batch, n: nat) {
    n <= |b.rewards| && n <= |b.dones|
  }

  /** The state before the first step: n zero running returns, nothing collected, n zero masks. */
  function Start(n: nat): (s: Rollout)
    ensures |s.totals| == n && |s.masks| == n && s.episodes == []
    ensures forall i :: 0 <= i < n ==> s.totals[i] == 0.0 && s.masks[i] == 0.0
  {
    Rollout(seq(n, _ => 0.0), [], seq(n, _ => 0.0))
  }

  /** The mask list rebuilt from a step's done flags, one entry per flag. */
  function Masks(dones: seq<bool>): (m: seq<real>)
    ensures |m| == |dones|
    ensures forall i :: 0 <= i < |dones| ==> (m[i] == 0.0 <==> dones[i]) && (m[i] == 0.0 || m[i] == 1.0)
  {
    seq(|dones|, i requires 0 <= i < |dones| => if dones[i] then 0.0 else 1.0)
  }

  /** The indices among the first k slots that report done, in increasing order. */
  function DoneSlots(dones: seq<bool>, k: nat): (r: seq<nat>)
    requires k <= |dones|
    ensures |r| <= k
    ensures forall j :: 0 <= j < |r| ==> r[j] < k && dones[r[j]]
    ensures forall j, j' :: 0 <= j < j' < |r| ==> r[j] < r[j']
    ensures forall i :: 0 <= i < k && dones[i] ==> i in r
  {
    if k == 0 then []
    else DoneSlots(dones, k - 1) + (if dones[k - 1] then [k - 1] else [])
  }

  /** The returns appended while the loop body visits slots 0 .. k-1 of one step. */
  function Completed(totals: seq<real>, b: Batch, k: nat): (r: seq<real>)
    requires k <= |totals| && Fits(b, k)
    ensures |r| <= k
  {
    if k == 0 then []
    else Completed(totals, b, k - 1) + (if b.dones[k - 1] then [totals[k - 1] + b.rewards[k - 1]] else [])
  }

  /** The returns completed in one step are, in increasing slot order, each done slot's
      running return plus its reward; slots that are not done contribute nothing. */
  lemma {:induction false} CompletedInSlotOrder(totals: seq<real>, b: Batch, k: nat)
    requires k <= |totals| && Fits(b, k)
    ensures |Completed(totals, b, k)| == |DoneSlots(b.dones, k)|
    ensures forall j :: 0 <= j < |DoneSlots(b.dones, k)| ==>
      Completed(totals, b, k)[j] == totals[DoneSlots(b.dones, k)[j]] + b.rewards[DoneSlots(b.dones, k)[j]]
    decreases k
  {
    if k > 0 {
      CompletedInSlotOrder(totals, b, k - 1);
    }
  }

  /** The running returns after one step: a done slot restarts from 0, the others add their reward. */
  function Accumulated(totals: seq<real>, b: Batch, n: nat): (r: seq<real>)
    requires n <= |totals| && Fits(b, n)
    ensures |r| == n
    ensures forall i :: 0 <= i < n && b.dones[i] ==> r[i] == 0.0
    ensures forall i :: 0 <= i < n && !b.dones[i] ==> r[i] == totals[i] + b.rewards[i]
  {
    seq(n, i requires 0 <= i < n => if b.dones[i] then 0.0 else totals[i] + b.rewards[i])
  }

  /** One pass of the loop body: accumulate, collect finished returns, rebuild the masks. */
  function Step(s: Rollout, b: Batch, n: nat): (r: Rollout)
    requires |s.totals| == n && Fits(b, n)
    ensures |r.totals| == n && |r.masks| == |b.dones|
    ensures forall i :: 0 <= i < n && b.dones[i] ==> r.totals[i] == 0.0
    ensures forall i :: 0 <= i < n && !b.dones[i] ==> r.totals[i] == s.totals[i] + b.rewards[i]
    ensures forall i :: 0 <= i < |b.dones| ==> (r.masks[i] == 0.0 <==> b.dones[i])
    ensures r.episodes == s.episodes + Completed(s.totals, b, n)
    ensures |s.episodes| <= |r.episodes| <= |s.episodes| + n
  {
    Rollout(Accumulated(s.totals, b, n), s.episodes + Completed(s.totals, b, n), Masks(b.dones))
  }

  /** The first t batches of the trace each report every slot. */
  predicate Fitting(n: nat, trace: seq<Batch>, t: nat)
    requires t <= |trace|
  {
    forall u :: 0 <= u < t ==> Fits(trace[u], n)
  }

  /** The state after the first t steps of the trace, ignoring the stop condition. */
  function After(n: nat, trace: seq<Batch>, t: nat): (s: Rollout)
    requires t <= |trace| && Fitting(n, trace, t)
    ensures |s.totals| == n
    decreases t
  {
    if t == 0 then Start(n) else Step(After(n, trace, t - 1), trace[t - 1], n)
  }

  /** Before each of the first t steps, fewer than TargetEpisodes returns had been collected. */
  predicate Collecting(n: nat, trace: seq<Batch>, t: nat)
    requires t <= |trace| && Fitting(n, trace, t)
  {
    forall u :: 0 <= u < t ==> |After(n, trace, u).episodes| < TargetEpisodes
  }

  /** The total reward the first t batches report for the n slots. */
  function Reported(n: nat, trace: seq<Batch>, t: nat): real
    requires t <= |trace| && Fitting(n, trace, t)
    decreases t
  {
    if t == 0 then 0.0 else Reported(n, trace, t - 1) + Sum(trace[t - 1].rewards[..n])
  }

  /**
   * How a run of the loop ends on a trace: after `steps` steps, at the first step count with at
   * least TargetEpisodes returns, with fewer than TargetEpisodes + n of them; with an IndexError
   * at the first step whose batch is short; or, if neither happens, when the trace runs out.
   */
  predicate Describes(n: nat, trace: seq<Batch>, outcome: Outcome) {
    match outcome
    case Collected(state, t) =>
      t <= |trace| && Fitting(n, trace, t) && Collecting(n, trace, t) &&
      state == After(n, trace, t) &&
      TargetEpisodes <= |state.episodes| < TargetEpisodes + n
    case BatchTooShort(t) =>
      t < |trace| && Fitting(n, trace, t) && Collecting(n, trace, t) &&
      |After(n, trace, t).episodes| < TargetEpisodes && !Fits(trace[t], n)
    case TraceEnded(state) =>
      Fitting(n, trace, |trace|) && Collecting(n, trace, |trace|) &&
      state == After(n, trace, |trace|) &&
      |state.episodes| < TargetEpisodes
  }

  /**
   * The loop of `evaluate`: steps all slots together until TargetEpisodes returns are
   * collected. The running returns are a fixed-size array updated in place.
   */
  method Evaluate(numEnvs: nat, trace: seq<Batch>) returns (outcome: Outcome)
    ensures Describes(numEnvs, trace, outcome)
  {
    var n := numEnvs;
    var totals := new real[n](_ => 0.0);
    var episodes: seq<real> := [];
    var masks: seq<real> := seq(n, _ => 0.0);
    var t := 0;
    while |episodes| < TargetEpisodes
      invariant t <= |trace| && totals.Length == n
      invariant Fitting(n, trace, t) && Collecting(n, trace, t)
      invariant Rollout(totals[..], episodes, masks) == After(n, trace, t)
      decreases |trace| - t
    {
      if t == |trace| {
        outcome := TraceEnded(Rollout(totals[..], episodes, masks));
        EndsWhenTraceEnds(n, trace);
        return;
      }
      var b := trace[t];
      var fits;
      episodes, fits := AccumulateSlots(totals, episodes, b);
      if !fits {
        outcome := BatchTooShort(t);
        EndsOnShortBatch(n, trace, t);
        return;
      }
      masks := Masks(b.dones);
      AfterOneMore(n, trace, t);
      t := t + 1;
    }
    outcome := Collected(Rollout(totals[..], episodes, masks), t);
    EndsCollected(n, trace, t);
  }

  /**
   * The per-slot pass of one step: add each slot's reward to its running return in place and,
   * for a slot that is done, append that return and zero it. `fits` is false when indexing the
   * step's rewards or dones raised IndexError; the array is then discarded by the caller.
   */
  method AccumulateSlots(totals: array<real>, episodes: seq<real>, b: Batch)
    returns (episodes': seq<real>, fits: bool)
    modifies totals
    ensures fits == Fits(b, totals.Length)
    ensures fits ==> episodes' == episodes + Completed(old(totals[..]), b, totals.Length)
    ensures fits ==> totals[..] == Accumulated(old(totals[..]), b, totals.Length)
  {
    var n := totals.Length;
    episodes' := episodes;
    var i := 0;
    while i < n
      invariant 0 <= i <= n && i <= |b.rewards| && i <= |b.dones|
      invariant forall j :: 0 <= j < i ==>
        totals[j] == if b.dones[j] then 0.0 else old(totals[j]) + b.rewards[j]
      invariant forall j :: i <= j < n ==> totals[j] == old(totals[j])
      invariant episodes' == episodes + Completed(old(totals[..]), b, i)
    {
      if i >= |b.rewards| {
        return episodes', false;
      }
      totals[i] := totals[i] + b.rewards[i];
      if i >= |b.dones| {
        return episodes', false;
      }
      if b.dones[i] {
        episodes' := episodes' + [totals[i]];
        totals[i] := 0.0;
      }
      i := i + 1;
    }
    fits := true;
  }

  /** Taking one more step of a collecting run that fits extends the run by Step. */
  lemma AfterOneMore(n: nat, trace: seq<Batch>, t: nat)
    requires t < |trace| && Fitting(n, trace, t) && Collecting(n, trace, t)
    requires Fits(trace[t], n) && |After(n, trace, t).episodes| < TargetEpisodes
    ensures Fitting(n, trace, t + 1) && Collecting(n, trace, t + 1)
    ensures After(n, trace, t + 1) == Step(After(n, trace, t), trace[t], n)
  {
  }

  /** A run that fits and collects fewer than TargetEpisodes returns to the trace's end ends there. */
  lemma EndsWhenTraceEnds(n: nat, trace: seq<Batch>)
    requires Fitting(n, trace, |trace|) && Collecting(n, trace, |trace|)
    requires |After(n, trace, |trace|).episodes| < TargetEpisodes
    ensures Describes(n, trace, TraceEnded(After(n, trace, |trace|)))
  {
  }

  /** A run still collecting when it meets a short batch ends with that step's IndexError. */
  lemma EndsOnShortBatch(n: nat, trace: seq<Batch>, t: nat)
    requires t < |trace| && Fitting(n, trace, t) && Collecting(n, trace, t)
    requires |After(n, trace, t).episodes| < TargetEpisodes && !Fits(trace[t], n)
    ensures Describes(n, trace, BatchTooShort(t))
  {
  }

  /** A run that reaches TargetEpisodes returns for the first time ends there, under the bound. */
  lemma EndsCollected(n: nat, trace: seq<Batch>, t: nat)
    requires t <= |trace| && Fitting(n, trace, t) && Collecting(n, trace, t)
    requires |After(n, trace, t).episodes| >= TargetEpisodes
    ensures Describes(n, trace, Collected(After(n, trace, t), t))
  {
    StopBound(n, trace, t);
  }

  /** One step appends at most n returns, so the loop overshoots the target by at most n - 1. */
  lemma StopBound(n: nat, trace: seq<Batch>, t: nat)
    requires t <= |trace| && Fitting(n, trace, t) && Collecting(n, trace, t)
    ensures |After(n, trace, t).episodes| < TargetEpisodes + n
  {
  }

  /** Slot-by-slot conservation within one step, over the first k slots. */
  lemma {:induction false} CompletedConserves(totals: seq<real>, next: seq<real>, b: Batch, k: nat)
    requires k <= |totals| && k <= |next| && Fits(b, k)
    requires forall i :: 0 <= i < k ==> next[i] == if b.dones[i] then 0.0 else totals[i] + b.rewards[i]
    ensures Sum(Completed(totals, b, k)) + Sum(next[..k]) == Sum(totals[..k]) + Sum(b.rewards[..k])
    decreases k
  {
    if k > 0 {
      var j := k - 1;
      CompletedConserves(totals, next, b, j);
      var added := if b.dones[j] then [totals[j] + b.rewards[j]] else [];
      SumAppend(Completed(totals, b, j), added);
      assert next[..k][..j] == next[..j];
      assert totals[..k][..j] == totals[..j];
      assert b.rewards[..k][..j] == b.rewards[..j];
    }
  }

  /** A step conserves reward: collected plus running returns grow by the step's reported rewards. */
  lemma StepConserves(s: Rollout, b: Batch, n: nat)
    requires |s.totals| == n && Fits(b, n)
    ensures Sum(Step(s, b, n).episodes) + Sum(Step(s, b, n).totals)
         == Sum(s.episodes) + Sum(s.totals) + Sum(b.rewards[..n])
  {
    var r := Step(s, b, n);
    CompletedConserves(s.totals, r.totals, b, n);
    SumAppend(s.episodes, Completed(s.totals, b, n));
    assert r.totals[..n] == r.totals && s.totals[..n] == s.totals;
  }

  /** Conservation over a run: collected returns plus running returns equal all reward reported. */
  lemma {:induction false} RunConserves(n: nat, trace: seq<Batch>, t: nat)
    requires t <= |trace| && Fitting(n, trace, t)
    ensures Sum(After(n, trace, t).episodes) + Sum(After(n, trace, t).totals) == Reported(n, trace, t)
    decreases t
  {
    if t == 0 {
      SumOfConstant(Start(n).totals, 0.0);
    } else {
      RunConserves(n, trace, t - 1);
      StepConserves(After(n, trace, t - 1), trace[t - 1], n);
    }
  }

  /**
   * Steps since the last completion under a stub that finishes every k steps: it counts
   * up to k - 1 and wraps to 0.
   */
  function Phase(t: nat, k: nat): (p: nat)
    requires k > 0
    ensures p < k
    decreases t
  {
    if t == 0 then 0 else if Phase(t - 1, k) + 1 == k then 0 else Phase(t - 1, k) + 1
  }

  /** A stub step: every slot earns 1.0, and all slots finish on every k-th step. */
  function StubBatch(n: nat, k: nat, t: nat): Batch
    requires k > 0
  {
    Batch(seq(n, _ => 1.0), seq(n, _ => Phase(t + 1, k) == 0))
  }

  function StubTrace(n: nat, k: nat, len: nat): (trace: seq<Batch>)
    requires k > 0
    ensures |trace| == len && Fitting(n, trace, len)
  {
    seq(len, t requires 0 <= t => StubBatch(n, k, t))
  }

  /** If every done slot's running return plus reward is v, every return completed is v. */
  lemma CompletedAll(totals: seq<real>, b: Batch, k: nat, v: real)
    requires k <= |totals| && Fits(b, k)
    requires forall i :: 0 <= i < k && b.dones[i] ==> totals[i] + b.rewards[i] == v
    ensures forall j :: 0 <= j < |Completed(totals, b, k)| ==> Completed(totals, b, k)[j] == v
  {
  }

  /** Against the stub, each running return is the phase and every collected return is k. */
  lemma {:induction false} StubRollout(n: nat, k: nat, len: nat, t: nat)
    requires k > 0 && t <= len
    ensures forall i :: 0 <= i < n ==> After(n, StubTrace(n, k, len), t).totals[i] == Phase(t, k) as real
    ensures forall j :: 0 <= j < |After(n, StubTrace(n, k, len), t).episodes| ==>
      After(n, StubTrace(n, k, len), t).episodes[j] == k as real
    decreases t
  {
    if t > 0 {
      var trace := StubTrace(n, k, len);
      StubRollout(n, k, len, t - 1);
      var prev := After(n, trace, t - 1);
      var b := trace[t - 1];
      assert b == StubBatch(n, k, t - 1);
      CompletedAll(prev.totals, b, n, k as real);
      assert After(n, trace, t) == Step(prev, b, n);
    }
  }

  /** Against the stub, the mean of the collected returns is exactly k. */
  lemma StubMean(n: nat, k: nat, len: nat, t: nat)
    requires k > 0 && t <= len
    requires |After(n, StubTrace(n, k, len), t).episodes| > 0
    ensures Mean(After(n, StubTrace(n, k, len), t).episodes) == Some(k as real)
  {
    StubRollout(n, k, len, t);
    MeanOfConstant(After(n, StubTrace(n, k, len), t).episodes, k as real);
  }
}
