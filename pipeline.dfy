/** `cook`: the whole run, from validation to the post-cook hook. */
module Pipeline {
  import Config
  import opened Events
  import opened Resolver
  import opened ConfigCheck
  import opened Archiving
  import opened Hooks
  import opened Deployment

  /** Everything outside the program that a run consults: the filesystem,
      the regex engine, the supported tags, what each hook does when
      started, and what the deploy transport answers per target. */
  datatype Env = Env(
    fs: FileSystem,
    rx: RegexEngine,
    registry: Registry,
    preCook: HookRun,
    postCook: HookRun,
    transport: string -> TransportResult)

  /** What a run did, in order, and whether it completed. */
  datatype Run = Run(trace: seq<Event>, outcome: Outcome)

  /** `{name} v{version}`, printed after "Cooking". */
  function PackageLabel(pkg: Config.Package): string {
    pkg.name + " v" + pkg.version
  }

  /** The stages in their fixed order: validate, announce, pre-cook hook,
      then the rest (AfterPreCook). The pre-cook hook's verdict is not
      consulted; only a hook that cannot be started aborts. */
  function CookRun(env: Env, c: Config.Cook, pkg: Config.Package, withDeploy: bool): Run {
    var v := Validation(env.registry, c, withDeploy);
    if v.Fail? then Run([], v)
    else
      var pre := CookHook(c, true, env.preCook);
      var head := [Cooking(PackageLabel(pkg))] + pre.events;
      if pre.HookAborted? then Run(head, Fail(pre.failure))
      else
        var rest := AfterPreCook(env, c, pkg, withDeploy);
        Run(head + rest.trace, rest.outcome)
  }

  /** The stages after the pre-cook hook: resolve, archive, deploy (when
      built in), post-cook hook, finish. */
  function AfterPreCook(env: Env, c: Config.Cook, pkg: Config.Package, withDeploy: bool): Run {
    var files := Resolve(env.fs, env.rx, c, pkg);
    if files.Err? then Run([], Fail(files.error))
    else
      var body := ArchivePlan(c, pkg, files.value) + (if withDeploy then DeployPlan(c, env.transport) else []);
      var post := CookHook(c, false, env.postCook);
      if post.HookAborted? then Run(body + post.events, Fail(post.failure))
      else Run(body + post.events + [Finished], Pass)
  }

  /** `cook`. */
  method Cook(env: Env, c: Config.Cook, pkg: Config.Package, withDeploy: bool) returns (run: Run)
    ensures run == CookRun(env, c, pkg, withDeploy)
  {
    var v := ParseConfig(env.registry, c, withDeploy);
    if v.Fail? {
      return Run([], v);
    }
    var trace := [Cooking(PackageLabel(pkg))];
    var pre := CookHook(c, true, env.preCook);
    trace := trace + pre.events;
    if pre.HookAborted? {
      return Run(trace, Fail(pre.failure));
    }
    var files := Collect(env.fs, env.rx, c, pkg);
    if files.Err? {
      assert trace + [] == trace;
      return Run(trace, Fail(files.error));
    }
    var archived := Archive(c, pkg, files.value);
    trace := trace + archived;
    if withDeploy {
      var deployed := Deploy(c, env.transport);
      trace := trace + deployed;
    }
    var post := CookHook(c, false, env.postCook);
    trace := trace + post.events;
    if post.HookAborted? {
      return Run(trace, Fail(post.failure));
    }
    trace := trace + [Finished];
    return Run(trace, Pass);
  }

  /** A run completes iff validation passes, both hooks can be started and
      every ingredient resolves. An unsupported tag stops it before it does
      or prints anything; a pre-cook hook that cannot be started, or an
      ingredient that does not resolve, stops it before any archive or
      sidecar is written. */
  lemma CookFailurePolicy(env: Env, c: Config.Cook, pkg: Config.Package, withDeploy: bool)
    ensures CookRun(env, c, pkg, withDeploy).outcome == Pass <==>
      Validation(env.registry, c, withDeploy) == Pass &&
      !CookHook(c, true, env.preCook).HookAborted? &&
      Resolve(env.fs, env.rx, c, pkg).Ok? &&
      !CookHook(c, false, env.postCook).HookAborted?
    ensures Validation(env.registry, c, withDeploy).Fail? ==>
      CookRun(env, c, pkg, withDeploy) == Run([], Validation(env.registry, c, withDeploy))
    ensures CookHook(c, true, env.preCook).HookAborted? || Resolve(env.fs, env.rx, c, pkg).Err? ==>
      CookRun(env, c, pkg, withDeploy).outcome.Fail? && WriteCount(CookRun(env, c, pkg, withDeploy).trace) == 0
  {
    var head := [Cooking(PackageLabel(pkg))] + CookHook(c, true, env.preCook).events;
    WriteCountZero(CookHook(c, true, env.preCook).events);
    WriteCountAppend([Cooking(PackageLabel(pkg))], CookHook(c, true, env.preCook).events);
    assert head + [] == head;
  }

  /** The trace of a completed run, stage by stage. */
  lemma CookRunCompleted(env: Env, c: Config.Cook, pkg: Config.Package, withDeploy: bool)
    requires CookRun(env, c, pkg, withDeploy).outcome == Pass
    ensures Resolve(env.fs, env.rx, c, pkg).Ok?
    ensures CookRun(env, c, pkg, withDeploy).trace ==
      ([Cooking(PackageLabel(pkg))] + CookHook(c, true, env.preCook).events) +
      ArchivePlan(c, pkg, Resolve(env.fs, env.rx, c, pkg).value) +
      ((if withDeploy then DeployPlan(c, env.transport) else []) + CookHook(c, false, env.postCook).events + [Finished])
  {
    var head := [Cooking(PackageLabel(pkg))] + CookHook(c, true, env.preCook).events;
    var plan := ArchivePlan(c, pkg, Resolve(env.fs, env.rx, c, pkg).value);
    var deployed := if withDeploy then DeployPlan(c, env.transport) else [];
    var post := CookHook(c, false, env.postCook).events;
    assert !CookHook(c, true, env.preCook).HookAborted?;
    assert AfterPreCook(env, c, pkg, withDeploy).trace == plan + deployed + post + [Finished];
    assert head + (plan + deployed + post + [Finished]) == head + plan + (deployed + post + [Finished]);
  }

  /** Writes and compressed lists of a trace made of a write-free prefix, a
      plan and a write-free suffix. */
  lemma PlanInTrace(prefix: seq<Event>, plan: seq<Event>, suffix: seq<Event>)
    requires WriteCount(prefix) == 0 && WriteCount(suffix) == 0
    ensures WriteCount(prefix + plan + suffix) == WriteCount(plan)
    ensures (prefix + plan + suffix)[|prefix|..|prefix| + |plan|] == plan
    ensures forall e :: e in prefix + plan + suffix && IsWrite(e) ==> e in plan
  {
    WriteCountAppend(prefix, plan);
    WriteCountAppend(prefix + plan, suffix);
    WriteCountZero(prefix);
    WriteCountZero(suffix);
  }

  /** What a completed run prints before archiving writes nothing. */
  lemma PrefixWritesNothing(env: Env, c: Config.Cook, pkg: Config.Package)
    ensures WriteCount([Cooking(PackageLabel(pkg))] + CookHook(c, true, env.preCook).events) == 0
  {
    WriteCountZero(CookHook(c, true, env.preCook).events);
    WriteCountAppend([Cooking(PackageLabel(pkg))], CookHook(c, true, env.preCook).events);
  }

  /** What a completed run does after archiving writes nothing and ends
      with "Finished". */
  lemma SuffixWritesNothing(env: Env, c: Config.Cook, withDeploy: bool)
    ensures var suffix := (if withDeploy then DeployPlan(c, env.transport) else []) +
      CookHook(c, false, env.postCook).events + [Finished];
      WriteCount(suffix) == 0 && suffix[|suffix| - 1] == Finished
  {
    var deployed := if withDeploy then DeployPlan(c, env.transport) else [];
    var post := CookHook(c, false, env.postCook).events;
    DeployAttemptsEveryTarget(c, env.transport);
    WriteCountZero(post);
    WriteCountAppend(deployed, post);
    WriteCountAppend(deployed + post, [Finished]);
  }

  /** A completed run opens with "Cooking", closes with "Finished", contains
      the archive plan of the resolved list right after the pre-cook hook's
      lines, builds every archive from that list, and makes exactly
      |containers| * (1 + |hash types|) writes. */
  lemma CookPassTrace(env: Env, c: Config.Cook, pkg: Config.Package, withDeploy: bool)
    requires CookRun(env, c, pkg, withDeploy).outcome == Pass
    ensures Resolve(env.fs, env.rx, c, pkg).Ok?
    ensures var t := CookRun(env, c, pkg, withDeploy).trace;
      |t| >= 2 && t[0] == Cooking(PackageLabel(pkg)) && t[|t| - 1] == Finished
    ensures var t := CookRun(env, c, pkg, withDeploy).trace;
      var plan := ArchivePlan(c, pkg, Resolve(env.fs, env.rx, c, pkg).value);
      var off := 1 + |CookHook(c, true, env.preCook).events|;
      off + |plan| <= |t| && t[off..off + |plan|] == plan
    ensures var t := CookRun(env, c, pkg, withDeploy).trace;
      forall e :: e in t && e.Compress? ==> e.files == Resolve(env.fs, env.rx, c, pkg).value
    ensures WriteCount(CookRun(env, c, pkg, withDeploy).trace) == |c.containers| * (1 + |Config.HashTypes(c)|)
  {
    CookRunCompleted(env, c, pkg, withDeploy);
    var files := Resolve(env.fs, env.rx, c, pkg).value;
    var prefix := [Cooking(PackageLabel(pkg))] + CookHook(c, true, env.preCook).events;
    var plan := ArchivePlan(c, pkg, files);
    var suffix := (if withDeploy then DeployPlan(c, env.transport) else []) +
      CookHook(c, false, env.postCook).events + [Finished];
    var t := CookRun(env, c, pkg, withDeploy).trace;
    assert t == prefix + plan + suffix;
    ArchivePlanShape(c, pkg, files);
    ArchivePlanCompressesFiles(c, pkg, files);
    PrefixWritesNothing(env, c, pkg);
    SuffixWritesNothing(env, c, withDeploy);
    PlanInTrace(prefix, plan, suffix);
  }

  /** The pre-cook hook's exit status does not change whether the run
      completes, nor how many archives and sidecars it writes: a run whose
      hook exits zero, one whose hook exits non-zero and one whose hook is
      killed by a signal (no code) differ at most in the hook's own exit
      line (position 2). */
  lemma PreCookExitIgnored(env: Env, c: Config.Cook, pkg: Config.Package, withDeploy: bool,
                           s1: bool, c1: Wrappers.Option<int>, s2: bool, c2: Wrappers.Option<int>)
    ensures var r1 := CookRun(env.(preCook := Exited(s1, c1)), c, pkg, withDeploy);
      var r2 := CookRun(env.(preCook := Exited(s2, c2)), c, pkg, withDeploy);
      r1.outcome == r2.outcome && WriteCount(r1.trace) == WriteCount(r2.trace)
    ensures var r1 := CookRun(env.(preCook := Exited(s1, c1)), c, pkg, withDeploy);
      var r2 := CookRun(env.(preCook := Exited(s2, c2)), c, pkg, withDeploy);
      |r1.trace| == |r2.trace| &&
      forall i :: 0 <= i < |r1.trace| && i != 2 ==> r1.trace[i] == r2.trace[i]
  {
    var e1 := env.(preCook := Exited(s1, c1));
    var e2 := env.(preCook := Exited(s2, c2));
    if Validation(env.registry, c, withDeploy) == Pass {
      var h1 := [Cooking(PackageLabel(pkg))] + CookHook(c, true, e1.preCook).events;
      var h2 := [Cooking(PackageLabel(pkg))] + CookHook(c, true, e2.preCook).events;
      WriteCountZero(CookHook(c, true, e1.preCook).events);
      WriteCountZero(CookHook(c, true, e2.preCook).events);
      WriteCountAppend([Cooking(PackageLabel(pkg))], CookHook(c, true, e1.preCook).events);
      WriteCountAppend([Cooking(PackageLabel(pkg))], CookHook(c, true, e2.preCook).events);
      if c.preCook.Some? {
        assert AfterPreCook(e1, c, pkg, withDeploy) == AfterPreCook(e2, c, pkg, withDeploy);
        var rest := AfterPreCook(e1, c, pkg, withDeploy).trace;
        WriteCountAppend(h1, rest);
        WriteCountAppend(h2, rest);
        assert |h1| == |h2| == 3;
        assert forall i :: 0 <= i < 3 && i != 2 ==> h1[i] == h2[i];
      }
    }
  }
}
