/** `parse_config`: every configured container, hash type and (when the
    deploy feature is built in) deploy target is checked against the fixed
    set its module supports, before any work is done. */
module ConfigCheck {
  import opened Wrappers
  import opened Config
  import opened Events

  /** The tags `container::support_container`, `hash::support_hash_type` and
      `deploy::support_deploy_target` accept. Those modules are not part of
      this model, so the sets are left open. */
  datatype Registry = Registry(containers: set<string>, hashTypes: set<string>, targets: set<string>)

  /** The first tag that is not supported, if any. */
  function FirstUnsupported(tags: seq<string>, supported: set<string>): Option<string> {
    if tags == [] then None
    else if tags[0] !in supported then Some(tags[0])
    else FirstUnsupported(tags[1..], supported)
  }

  predicate AllSupported(tags: seq<string>, supported: set<string>) {
    forall k :: 0 <= k < |tags| ==> tags[k] in supported
  }

  /** The configured deploy targets; an absent section or list has none. */
  function DeployTargets(c: Cook): seq<string> {
    match c.deploy
    case None => []
    case Some(d) => d.targets.GetOr([])
  }

  /** The verdict of `parse_config`: containers are checked first, then hash
      types, then deploy targets. */
  function Validation(reg: Registry, c: Cook, withDeploy: bool): Outcome {
    match FirstUnsupported(c.containers, reg.containers)
    case Some(t) => Fail(UnsupportedContainer(t))
    case None =>
      match FirstUnsupported(HashTypes(c), reg.hashTypes)
      case Some(h) => Fail(UnsupportedHash(h))
      case None =>
        if !withDeploy then Pass
        else
          match FirstUnsupported(DeployTargets(c), reg.targets)
          case Some(t) => Fail(UnsupportedTarget(t))
          case None => Pass
  }

  /** FirstUnsupported finds nothing iff every tag is supported, and when it
      finds a tag, that tag is unsupported and every tag before it is. */
  lemma {:induction false} FirstUnsupportedSpec(tags: seq<string>, supported: set<string>)
    ensures FirstUnsupported(tags, supported) == None <==> AllSupported(tags, supported)
    ensures forall k :: 0 <= k < |tags| && tags[k] !in supported && AllSupported(tags[..k], supported) ==>
      FirstUnsupported(tags, supported) == Some(tags[k])
    ensures FirstUnsupported(tags, supported).Some? ==>
      exists k :: 0 <= k < |tags| && tags[k] == FirstUnsupported(tags, supported).value &&
        tags[k] !in supported && AllSupported(tags[..k], supported)
  {
    if tags != [] {
      var rest := tags[1..];
      FirstUnsupportedSpec(rest, supported);
      forall k | 0 <= k < |tags| && tags[k] !in supported && AllSupported(tags[..k], supported)
        ensures FirstUnsupported(tags, supported) == Some(tags[k])
      {
        if k > 0 {
          assert tags[..k][0] == tags[0];
          assert rest[k - 1] == tags[k];
          assert rest[..k - 1] == tags[..k][1..];
        }
      }
      if tags[0] in supported && FirstUnsupported(rest, supported).Some? {
        var k :| 0 <= k < |rest| && rest[k] == FirstUnsupported(rest, supported).value &&
          rest[k] !in supported && AllSupported(rest[..k], supported);
        assert tags[k + 1] == rest[k];
        assert tags[..k + 1][1..] == rest[..k];
        assert AllSupported(tags[..k + 1], supported);
      }
      if tags[0] !in supported {
        assert AllSupported(tags[..0], supported);
      }
      if AllSupported(tags, supported) {
        assert forall j :: 0 <= j < |rest| ==> rest[j] == tags[j + 1];
      }
    }
  }

  /** Validation passes iff every container, every hash type and, with the
      deploy feature, every target is supported. */
  lemma ValidationPassIff(reg: Registry, c: Cook, withDeploy: bool)
    ensures Validation(reg, c, withDeploy) == Pass <==>
      AllSupported(c.containers, reg.containers) && AllSupported(HashTypes(c), reg.hashTypes) &&
      (withDeploy ==> AllSupported(DeployTargets(c), reg.targets))
  {
    FirstUnsupportedSpec(c.containers, reg.containers);
    FirstUnsupportedSpec(HashTypes(c), reg.hashTypes);
    FirstUnsupportedSpec(DeployTargets(c), reg.targets);
  }

  /** A failing validation names the first unsupported container; only when
      all containers are supported does it name the first unsupported hash
      type, and only then the first unsupported deploy target. */
  lemma ValidationReportsFirst(reg: Registry, c: Cook, withDeploy: bool)
    ensures forall k :: (0 <= k < |c.containers| && c.containers[k] !in reg.containers &&
                         AllSupported(c.containers[..k], reg.containers)) ==>
        Validation(reg, c, withDeploy) == Fail(UnsupportedContainer(c.containers[k]))
    ensures AllSupported(c.containers, reg.containers) ==>
      forall k :: (0 <= k < |HashTypes(c)| && HashTypes(c)[k] !in reg.hashTypes &&
                   AllSupported(HashTypes(c)[..k], reg.hashTypes)) ==>
          Validation(reg, c, withDeploy) == Fail(UnsupportedHash(HashTypes(c)[k]))
    ensures withDeploy && AllSupported(c.containers, reg.containers) && AllSupported(HashTypes(c), reg.hashTypes) ==>
      forall k :: (0 <= k < |DeployTargets(c)| && DeployTargets(c)[k] !in reg.targets &&
                   AllSupported(DeployTargets(c)[..k], reg.targets)) ==>
          Validation(reg, c, withDeploy) == Fail(UnsupportedTarget(DeployTargets(c)[k]))
  {
    FirstUnsupportedSpec(c.containers, reg.containers);
    FirstUnsupportedSpec(HashTypes(c), reg.hashTypes);
    FirstUnsupportedSpec(DeployTargets(c), reg.targets);
  }

  /** `parse_config`: three loops, each stopping at the first unsupported tag. */
  method ParseConfig(reg: Registry, c: Cook, withDeploy: bool) returns (r: Outcome)
    ensures r == Validation(reg, c, withDeploy)
  {
    FirstUnsupportedSpec(c.containers, reg.containers);
    FirstUnsupportedSpec(HashTypes(c), reg.hashTypes);
    FirstUnsupportedSpec(DeployTargets(c), reg.targets);
    for n := 0 to |c.containers|
      invariant AllSupported(c.containers[..n], reg.containers)
    {
      if c.containers[n] !in reg.containers {
        return Fail(UnsupportedContainer(c.containers[n]));
      }
      assert c.containers[..n + 1] == c.containers[..n] + [c.containers[n]];
    }
    assert c.containers[..|c.containers|] == c.containers;
    if c.hashes.Some? {
      var hashes := c.hashes.value;
      for n := 0 to |hashes|
        invariant AllSupported(hashes[..n], reg.hashTypes)
      {
        if hashes[n] !in reg.hashTypes {
          return Fail(UnsupportedHash(hashes[n]));
        }
        assert hashes[..n + 1] == hashes[..n] + [hashes[n]];
      }
      assert hashes[..|hashes|] == hashes;
    }
    if withDeploy && c.deploy.Some? && c.deploy.value.targets.Some? {
      var targets := c.deploy.value.targets.value;
      for n := 0 to |targets|
        invariant AllSupported(targets[..n], reg.targets)
      {
        if targets[n] !in reg.targets {
          return Fail(UnsupportedTarget(targets[n]));
        }
        assert targets[..n + 1] == targets[..n] + [targets[n]];
      }
      assert targets[..|targets|] == targets;
    }
    return Pass;
  }
}
