/** `cook_hook`: runs the optional pre- or post-cook command and classifies
    what happened. */
module Hooks {
  import opened Wrappers
  import opened Config
  import opened Events

  /** What the operating system reports when the hook is started: its path
      could not be made canonical, the process could not be spawned, or it
      ran and exited, with a code unless a signal ended it. */
  datatype HookRun = Unresolvable(reason: string) | LaunchError(reason: string) | Exited(success: bool, code: Option<int>)

  /** The hook finished (with the value `cook_hook` returns), or the run
      aborts; either way with the status lines printed so far. */
  datatype Hooked = Hooked(succeeded: bool, events: seq<Event>) | HookAborted(events: seq<Event>, failure: Failure)

  function HookName(pre: bool): string {
    if pre then "Pre-cook" else "Post-cook"
  }

  /** The hook configured for the phase. */
  function HookFor(c: Cook, pre: bool): Option<string> {
    if pre then c.preCook else c.postCook
  }

  function CookHook(c: Cook, pre: bool, run: HookRun): (r: Hooked)
    ensures HookFor(c, pre).None? <==> r == Hooked(true, [])
    ensures r.Hooked? && HookFor(c, pre).Some? ==> run.Exited? && r.succeeded == run.success
    ensures r.HookAborted? <==> HookFor(c, pre).Some? && !run.Exited?
    ensures HookFor(c, pre).Some? ==> |r.events| >= 1 && r.events[0] == Executing(HookName(pre))
    ensures HookFor(c, pre).Some? && run.Exited? ==>
      r.events == [Executing(HookName(pre)), HookReturned(HookName(pre), run.success, run.code.GetOr(0))]
    ensures forall e :: e in r.events ==> e.Executing? || e.HookReturned?
  {
    var name := HookName(pre);
    match HookFor(c, pre)
    case None => Hooked(true, [])
    case Some(path) =>
      match run
      case Unresolvable(reason) => HookAborted([Executing(name)], HookUnresolvable(path, reason))
      case LaunchError(reason) => HookAborted([Executing(name)], HookLaunchFailed(name, reason))
      case Exited(success, code) =>
        Hooked(success, [Executing(name), HookReturned(name, success, code.GetOr(0))])
  }
}
