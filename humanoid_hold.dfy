/**
 * The ball-holding humanoid environment (`HumanoidHoldEnv`): the episode bookkeeping around
 * the physics. The ball's height after a simulation step and the control and contact costs
 * come from the MuJoCo simulator and are parameters here.
 */
module HumanoidHold {
  import opened Wrappers

  /** A bound of `ball_z_range`: a float that may be infinite. */
  datatype Bound = NegInf | Finite(v: real) | PosInf

  /** `a < b` on the extended reals, as Python compares floats with infinities. */
  predicate Less(a: Bound, b: Bound)
    ensures Less(a, b) ==> a != b
    ensures Less(a, b) ==> !a.PosInf? && !b.NegInf?
  {
    match (a, b)
    case (NegInf, NegInf) => false
    case (NegInf, _) => true
    case (Finite(x), Finite(y)) => x < y
    case (Finite(_), PosInf) => true
    case (Finite(_), NegInf) => false
    case (PosInf, _) => false
  }

  /** The constructor arguments that the episode bookkeeping depends on. */
  datatype HoldConfig = HoldConfig(
    healthyRewardWeight: real,     // `healthy_reward`, 2.0 by default
    terminateWhenUnhealthy: bool,  // `terminate_when_unhealthy`, True by default
    minZ: Bound,                   // `ball_z_range[0]`, 0.1 by default
    maxZ: Bound)                   // `ball_z_range[1]`, +inf by default

  function DefaultConfig(): HoldConfig {
    HoldConfig(2.0, true, Finite(0.1), PosInf)
  }

  /** `is_healthy`: the ball is strictly inside the allowed height range. */
  predicate IsHealthy(c: HoldConfig, ballHeight: real)
    ensures IsHealthy(c, ballHeight) ==> c.minZ != Finite(ballHeight) && c.maxZ != Finite(ballHeight)
    ensures IsHealthy(c, ballHeight) ==> Less(c.minZ, c.maxZ)
  {
    Less(c.minZ, Finite(ballHeight)) && Less(Finite(ballHeight), c.maxZ)
  }

  /** `done`: an unhealthy ball ends the episode, but only when termination is enabled. */
  predicate Done(c: HoldConfig, ballHeight: real)
    ensures Done(c, ballHeight) ==> c.terminateWhenUnhealthy && !IsHealthy(c, ballHeight)
  {
    if c.terminateWhenUnhealthy then !IsHealthy(c, ballHeight) else false
  }

  /** `healthy_reward`: the weight when healthy or when termination is enabled, else 0. */
  function HealthyReward(c: HoldConfig, ballHeight: real): (r: real)
    ensures r == c.healthyRewardWeight || r == 0.0
    ensures c.terminateWhenUnhealthy ==> r == c.healthyRewardWeight
  {
    (if IsHealthy(c, ballHeight) || c.terminateWhenUnhealthy then 1.0 else 0.0) * c.healthyRewardWeight
  }

  /** The step reward: the original ball height, less the ball's drift from it, less the costs. */
  function StepReward(orig: real, ballHeight: real, ctrlCost: real, contactCost: real): (r: real)
    ensures r <= orig - (ctrlCost + contactCost)
    ensures ballHeight == orig ==> r == orig - (ctrlCost + contactCost)
  {
    orig - Abs(orig - ballHeight) - (ctrlCost + contactCost)
  }

  function Abs(x: real): (a: real)
    ensures a >= 0.0 && (a == x || a == -x)
  {
    if x < 0.0 then -x else x
  }

  /** Healthy means strictly between the bounds: a ball exactly at either bound is unhealthy. */
  lemma HealthyIsStrict(c: HoldConfig, ballHeight: real)
    ensures IsHealthy(c, ballHeight) <==>
      (c.minZ.NegInf? || (c.minZ.Finite? && c.minZ.v < ballHeight)) &&
      (c.maxZ.PosInf? || (c.maxZ.Finite? && ballHeight < c.maxZ.v))
    ensures c.minZ == Finite(ballHeight) || c.maxZ == Finite(ballHeight) ==> !IsHealthy(c, ballHeight)
  {
  }

  /** With the default range (0.1, +inf), the ball is healthy exactly when it is above 0.1. */
  lemma DefaultHealthy(ballHeight: real)
    ensures IsHealthy(DefaultConfig(), ballHeight) <==> 0.1 < ballHeight
  {
  }

  /** The episode ends exactly when termination is enabled and the ball is unhealthy. */
  lemma DoneIffUnhealthy(c: HoldConfig, ballHeight: real)
    ensures Done(c, ballHeight) <==> c.terminateWhenUnhealthy && !IsHealthy(c, ballHeight)
    ensures !c.terminateWhenUnhealthy ==> !Done(c, ballHeight)
  {
  }

  /** Without termination, the healthy reward is paid exactly while the ball is healthy; with
      it, a ball that earns no healthy reward would have ended the episode. */
  lemma HealthyRewardPaid(c: HoldConfig, ballHeight: real)
    requires c.healthyRewardWeight != 0.0
    ensures HealthyReward(c, ballHeight) == c.healthyRewardWeight <==>
      IsHealthy(c, ballHeight) || c.terminateWhenUnhealthy
    ensures HealthyReward(c, ballHeight) == 0.0 ==> !Done(c, ballHeight) && !IsHealthy(c, ballHeight)
  {
  }

  /** The step reward never exceeds the original height less the costs, and reaches it exactly
      when the ball is at its original height. */
  lemma StepRewardBound(orig: real, ballHeight: real, ctrlCost: real, contactCost: real)
    ensures StepReward(orig, ballHeight, ctrlCost, contactCost) <= orig - (ctrlCost + contactCost)
    ensures StepReward(orig, ballHeight, ctrlCost, contactCost) == orig - (ctrlCost + contactCost)
      <==> ballHeight == orig
  {
  }

  /** A ball nearer its original height earns at least as much, whichever side it drifts to. */
  lemma StepRewardPrefersNearer(orig: real, h1: real, h2: real, ctrlCost: real, contactCost: real)
    requires Abs(orig - h1) <= Abs(orig - h2)
    ensures StepReward(orig, h1, ctrlCost, contactCost) >= StepReward(orig, h2, ctrlCost, contactCost)
    ensures StepReward(orig, orig + (orig - h1), ctrlCost, contactCost) == StepReward(orig, h1, ctrlCost, contactCost)
  {
  }

  class HumanoidHoldEnv {
    const config: HoldConfig
    /** Set by the first step taken through this object and never cleared. */
    var started: bool
    /** The ball height latched by the first step after a reset; None right after a reset. */
    var origBallHeight: Option<real>

    /** Before the first step nothing has been latched. */
    ghost predicate Valid()
      reads this
    {
      !started ==> origBallHeight.None?
    }

    constructor (config: HoldConfig)
      ensures Valid() && this.config == config
      ensures !started && origBallHeight == None
    {
      this.config := config;
      started := false;
      origBallHeight := None;
    }

    /** `reset_model`: forgets the latched height; `started` is left as it is. */
    method ResetModel()
      requires Valid()
      modifies this
      ensures Valid()
      ensures origBallHeight == None && started == old(started)
    {
      origBallHeight := None;
    }

    /**
     * `step`, after the simulator has moved the ball to `ballHeight`: latch the original height
     * on the first step after a reset, reward staying near it, and report `done` unless this is
     * the first step since the object's own fields were initialised. The info map is always empty.
     * A step taken while not started is its own first step since a reset, so it latches its height.
     */
    method Step(ballHeight: real, ctrlCost: real, contactCost: real)
      returns (reward: real, done: bool, info: map<string, real>)
      requires Valid()
      modifies this
      ensures Valid() && started
      ensures origBallHeight == if old(origBallHeight).None? then Some(ballHeight) else old(origBallHeight)
      ensures reward == StepReward(origBallHeight.value, ballHeight, ctrlCost, contactCost)
      ensures done == (old(started) && Done(config, ballHeight))
      ensures !old(started) ==> origBallHeight == Some(ballHeight) && reward == ballHeight - (ctrlCost + contactCost)
      ensures info == map[]
    {
      if origBallHeight.None? {
        origBallHeight := Some(ballHeight);
      }
      var orig := origBallHeight.value;
      var rewards := orig - Abs(orig - ballHeight);
      var costs := ctrlCost + contactCost;
      reward := rewards - costs;
      done := Done(config, ballHeight);
      if !started {
        started := true;
        done := false;
      }
      info := map[];
    }
  }

  /**
   * A client of the environment, with termination enabled and an unhealthy ball: its first
   * step after the fields are set is never done, a second unhealthy step is, and
   * after a reset the first step is done too, because `reset_model` does not clear `started`.
   * Each first step after creation or reset earns the height less the costs.
   */
  method UnhealthyLifetime(c: HoldConfig, h: real, h2: real, cost: real)
    returns (d1: bool, d2: bool, d3: bool, r1: real, r2: real, r3: real)
    requires Done(c, h) && Done(c, h2)
    ensures !d1 && d2 && d3
    ensures r1 == h - cost && r3 == h - cost
    ensures r2 == StepReward(h, h2, cost, 0.0)
  {
    var env := new HumanoidHoldEnv(c);
    var info;
    r1, d1, info := env.Step(h, cost, 0.0);
    r2, d2, info := env.Step(h2, cost, 0.0);
    env.ResetModel();
    r3, d3, info := env.Step(h, cost, 0.0);
  }
}
