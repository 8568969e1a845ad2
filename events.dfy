/** What one run does and reports, as an ordered trace, and why it may stop. */
module Events {
  import opened Wrappers

  /** One element of `container::Files`: a pair of paths. For directory
      children and the primary artifact the first component is the name in
      the archive and the second the path on disk; a single-file ingredient
      stores them the other way round (see Resolver.Contribution). */
  type Entry = (string, string)

  /** What a deploy transport answers for one target. */
  datatype TransportResult = Sent | Refused(message: string)

  /** Every condition on which the run aborts. */
  datatype Failure =
    | UnsupportedContainer(container: string)
    | UnsupportedHash(hashType: string)
    | UnsupportedTarget(target: string)
    | InvalidFilter(pattern: string)
    | NotFileOrDir(source: string)
    | NotADirectory(path: string)
    | HookUnresolvable(path: string, reason: string)
    | HookLaunchFailed(phase: string, reason: string)

  datatype Outcome = Pass | Fail(failure: Failure)

  /** Side effects and status lines, in the order the run produces them. */
  datatype Event =
    | Cooking(package: string)
    | Executing(hook: string)
    | HookReturned(hook: string, success: bool, code: int)
    | CreateDir(path: string)
    | Compress(files: seq<Entry>, archive: string, container: string)
    | Hash(archive: string, sidecar: string, hashType: string)
    | Cooked(archive: string)
    | Deploying
    | TargetDeployed(target: string, cookDirectory: string, result: TransportResult)
    | Finished

  /** Does the event write an archive or a hash sidecar? */
  predicate IsWrite(e: Event) {
    e.Compress? || e.Hash?
  }

  /** The number of archive and sidecar writes in a trace. */
  function WriteCount(trace: seq<Event>): nat {
    if trace == [] then 0 else (if IsWrite(trace[0]) then 1 else 0) + WriteCount(trace[1..])
  }

  lemma {:induction false} WriteCountAppend(a: seq<Event>, b: seq<Event>)
    ensures WriteCount(a + b) == WriteCount(a) + WriteCount(b)
  {
    if a != [] {
      assert (a + b)[1..] == a[1..] + b;
      WriteCountAppend(a[1..], b);
    } else {
      assert a + b == b;
    }
  }

  /** A trace has no writes iff none of its events is a compress or hash. */
  lemma {:induction false} WriteCountZero(trace: seq<Event>)
    ensures WriteCount(trace) == 0 <==> forall e :: e in trace ==> !IsWrite(e)
  {
    if trace != [] {
      WriteCountZero(trace[1..]);
      assert forall e :: e in trace ==> e == trace[0] || e in trace[1..];
    }
  }
}
