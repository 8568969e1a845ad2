/** `deploy`: hands the cook directory to every configured target, one
    after another, reporting each result without stopping on a failure. */
module Deployment {
  import opened Config
  import opened Events

  /** One step per target, in order; the transport's answer is reported and
      the next target is tried regardless. */
  function TargetSteps(targets: seq<string>, dir: string, transport: string -> TransportResult): seq<Event>
    decreases |targets|
  {
    if targets == [] then []
    else
      var t := targets[|targets| - 1];
      TargetSteps(targets[..|targets| - 1], dir, transport) + [TargetDeployed(t, dir, transport(t))]
  }

  /** What `deploy` does: nothing without a deploy section and a target
      list, otherwise the "Deploying" line and then one step per target. */
  function DeployPlan(c: Cook, transport: string -> TransportResult): seq<Event> {
    match c.deploy
    case None => []
    case Some(d) =>
      match d.targets
      case None => []
      case Some(ts) => [Deploying] + TargetSteps(ts, c.cookDirectory, transport)
  }

  method Deploy(c: Cook, transport: string -> TransportResult) returns (trace: seq<Event>)
    ensures trace == DeployPlan(c, transport)
  {
    trace := [];
    if c.deploy.Some? && c.deploy.value.targets.Some? {
      var targets := c.deploy.value.targets.value;
      trace := [Deploying];
      for n := 0 to |targets|
        invariant trace == [Deploying] + TargetSteps(targets[..n], c.cookDirectory, transport)
      {
        assert targets[..n + 1][..n] == targets[..n];
        var t := targets[n];
        var result := transport(t);
        trace := trace + [TargetDeployed(t, c.cookDirectory, result)];
      }
      assert targets[..|targets|] == targets;
    }
  }

  lemma {:induction false} TargetStepsAt(targets: seq<string>, dir: string, transport: string -> TransportResult)
    ensures |TargetSteps(targets, dir, transport)| == |targets|
    ensures forall k :: 0 <= k < |targets| ==>
      TargetSteps(targets, dir, transport)[k] == TargetDeployed(targets[k], dir, transport(targets[k]))
    ensures WriteCount(TargetSteps(targets, dir, transport)) == 0
    decreases |targets|
  {
    if targets != [] {
      var p := targets[..|targets| - 1];
      TargetStepsAt(p, dir, transport);
      var t := targets[|targets| - 1];
      WriteCountAppend(TargetSteps(p, dir, transport), [TargetDeployed(t, dir, transport(t))]);
    }
  }

  /** Every configured target is attempted, in order, with the cook
      directory, and its own result is reported, whatever the earlier
      targets answered; deploying writes no archive or sidecar. */
  lemma DeployAttemptsEveryTarget(c: Cook, transport: string -> TransportResult)
    ensures WriteCount(DeployPlan(c, transport)) == 0
    ensures c.deploy.None? || c.deploy.value.targets.None? ==> DeployPlan(c, transport) == []
    ensures c.deploy.Some? && c.deploy.value.targets.Some? ==>
      var ts := c.deploy.value.targets.value;
      |DeployPlan(c, transport)| == 1 + |ts| &&
      DeployPlan(c, transport)[0] == Deploying &&
      forall k :: 0 <= k < |ts| ==>
        DeployPlan(c, transport)[1 + k] == TargetDeployed(ts[k], c.cookDirectory, transport(ts[k]))
  {
    if c.deploy.Some? && c.deploy.value.targets.Some? {
      var ts := c.deploy.value.targets.value;
      TargetStepsAt(ts, c.cookDirectory, transport);
      WriteCountAppend([Deploying], TargetSteps(ts, c.cookDirectory, transport));
    }
  }
}
