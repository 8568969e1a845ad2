/** `archive`: creates the cook directory, then for each container writes
    the archive and, right after it, one hash sidecar per hash type. */
module Archiving {
  import opened Config
  import opened Events

  /** `{cook_directory}/{name}-{version}`, the stem shared by all archives. */
  function BaseName(c: Cook, pkg: Package): string {
    c.cookDirectory + "/" + pkg.name + "-" + pkg.version
  }

  /** The archive for one container type: the stem plus `.{container}`. */
  function ArchiveName(c: Cook, pkg: Package, container: string): string {
    BaseName(c, pkg) + "." + container
  }

  /** The sidecar for one hash type: the archive name plus `.{hash type}`. */
  function SidecarName(archive: string, hashType: string): string {
    archive + "." + hashType
  }

  /** One hash step per hash type, in order. */
  function HashSteps(archive: string, hashTypes: seq<string>): seq<Event>
    decreases |hashTypes|
  {
    if hashTypes == [] then []
    else
      var h := hashTypes[|hashTypes| - 1];
      HashSteps(archive, hashTypes[..|hashTypes| - 1]) + [Hash(archive, SidecarName(archive, h), h)]
  }

  /** Everything done for one container: compress, hash, report. */
  function ContainerSteps(files: seq<Entry>, c: Cook, pkg: Package, container: string): seq<Event> {
    var archive := ArchiveName(c, pkg, container);
    [Compress(files, archive, container)] + HashSteps(archive, HashTypes(c)) + [Cooked(archive)]
  }

  /** The steps of several containers, one block after another. */
  function ContainersSteps(files: seq<Entry>, c: Cook, pkg: Package, containers: seq<string>): seq<Event>
    decreases |containers|
  {
    if containers == [] then []
    else ContainersSteps(files, c, pkg, containers[..|containers| - 1]) + ContainerSteps(files, c, pkg, containers[|containers| - 1])
  }

  /** What `archive` does with the resolved list `files`. */
  function ArchivePlan(c: Cook, pkg: Package, files: seq<Entry>): seq<Event> {
    [CreateDir(c.cookDirectory)] + ContainersSteps(files, c, pkg, c.containers)
  }

  /** `archive`: the nested loops over containers and hash types. */
  method Archive(c: Cook, pkg: Package, files: seq<Entry>) returns (trace: seq<Event>)
    ensures trace == ArchivePlan(c, pkg, files)
  {
    trace := [CreateDir(c.cookDirectory)];
    for n := 0 to |c.containers|
      invariant trace == [CreateDir(c.cookDirectory)] + ContainersSteps(files, c, pkg, c.containers[..n])
    {
      assert c.containers[..n + 1][..n] == c.containers[..n];
      var container := c.containers[n];
      var fileName := c.cookDirectory + "/" + pkg.name + "-" + pkg.version;
      var archiveName := fileName + "." + container;
      ghost var start := trace;
      trace := trace + [Compress(files, archiveName, container)];
      if c.hashes.Some? {
        var hashes := c.hashes.value;
        for h := 0 to |hashes|
          invariant trace == start + [Compress(files, archiveName, container)] + HashSteps(archiveName, hashes[..h])
        {
          assert hashes[..h + 1][..h] == hashes[..h];
          var hashFileName := archiveName + "." + hashes[h];
          trace := trace + [Hash(archiveName, hashFileName, hashes[h])];
        }
        assert hashes[..|hashes|] == hashes;
      }
      trace := trace + [Cooked(archiveName)];
    }
    assert c.containers[..|c.containers|] == c.containers;
  }

  lemma {:induction false} HashStepsAt(archive: string, hashTypes: seq<string>)
    ensures |HashSteps(archive, hashTypes)| == |hashTypes|
    ensures forall k :: 0 <= k < |hashTypes| ==>
      HashSteps(archive, hashTypes)[k] == Hash(archive, SidecarName(archive, hashTypes[k]), hashTypes[k])
    ensures WriteCount(HashSteps(archive, hashTypes)) == |hashTypes|
    decreases |hashTypes|
  {
    if hashTypes != [] {
      var p := hashTypes[..|hashTypes| - 1];
      HashStepsAt(archive, p);
      var h := hashTypes[|hashTypes| - 1];
      WriteCountAppend(HashSteps(archive, p), [Hash(archive, SidecarName(archive, h), h)]);
    }
  }

  /** One container's block: the compress step, then its sidecars in
      hash-type order, then the report; exactly 1 + |hash types| writes. */
  lemma ContainerStepsShape(files: seq<Entry>, c: Cook, pkg: Package, container: string)
    ensures var a := ArchiveName(c, pkg, container);
      var steps := ContainerSteps(files, c, pkg, container);
      |steps| == 2 + |HashTypes(c)| &&
      steps[0] == Compress(files, a, container) &&
      (forall k :: 0 <= k < |HashTypes(c)| ==> steps[1 + k] == Hash(a, SidecarName(a, HashTypes(c)[k]), HashTypes(c)[k])) &&
      steps[1 + |HashTypes(c)|] == Cooked(a) &&
      WriteCount(steps) == 1 + |HashTypes(c)|
  {
    var a := ArchiveName(c, pkg, container);
    HashStepsAt(a, HashTypes(c));
    var hs := HashSteps(a, HashTypes(c));
    WriteCountAppend([Compress(files, a, container)], hs);
    WriteCountAppend([Compress(files, a, container)] + hs, [Cooked(a)]);
  }

  lemma MulStep(n: nat, size: nat)
    ensures (n + 1) * size == n * size + size
  {
  }

  /** Container blocks are laid out one after another. */
  lemma {:induction false} ContainersStepsAppend(files: seq<Entry>, c: Cook, pkg: Package, a: seq<string>, b: seq<string>)
    ensures ContainersSteps(files, c, pkg, a + b) == ContainersSteps(files, c, pkg, a) + ContainersSteps(files, c, pkg, b)
    decreases |b|
  {
    if b == [] {
      assert a + b == a;
    } else {
      var p := b[..|b| - 1];
      assert (a + b)[..|a + b| - 1] == a + p;
      assert (a + b)[|a + b| - 1] == b[|b| - 1];
      ContainersStepsAppend(files, c, pkg, a, p);
    }
  }

  /** Every container contributes a block of 2 + |hash types| steps, of
      which 1 + |hash types| are writes. */
  lemma {:induction false} ContainersStepsLength(files: seq<Entry>, c: Cook, pkg: Package, containers: seq<string>)
    ensures |ContainersSteps(files, c, pkg, containers)| == |containers| * (2 + |HashTypes(c)|)
    ensures WriteCount(ContainersSteps(files, c, pkg, containers)) == |containers| * (1 + |HashTypes(c)|)
    decreases |containers|
  {
    if containers != [] {
      var n := |containers| - 1;
      var p := containers[..n];
      ContainersStepsLength(files, c, pkg, p);
      ContainerStepsShape(files, c, pkg, containers[n]);
      MulStep(n, 2 + |HashTypes(c)|);
      MulStep(n, 1 + |HashTypes(c)|);
      WriteCountAppend(ContainersSteps(files, c, pkg, p), ContainerSteps(files, c, pkg, containers[n]));
    }
  }

  /** The blocks split around container `k`. */
  lemma ContainersStepsSplit(files: seq<Entry>, c: Cook, pkg: Package, cs: seq<string>, k: nat)
    requires k < |cs|
    ensures ContainersSteps(files, c, pkg, cs) ==
      ContainersSteps(files, c, pkg, cs[..k]) + ContainerSteps(files, c, pkg, cs[k]) + ContainersSteps(files, c, pkg, cs[k + 1..])
  {
    var pre := cs[..k];
    var rest := cs[k + 1..];
    assert cs == pre + [cs[k]] + rest;
    ContainersStepsAppend(files, c, pkg, pre + [cs[k]], rest);
    ContainersStepsAppend(files, c, pkg, pre, [cs[k]]);
    assert [cs[k]][..0] == [];
    assert ContainersSteps(files, c, pkg, [cs[k]]) == ContainerSteps(files, c, pkg, cs[k]);
  }

  /** Container `k`'s block sits after the cook directory step and the
      blocks of the containers before it. */
  lemma ArchivePlanBlock(c: Cook, pkg: Package, files: seq<Entry>, k: nat)
    requires k < |c.containers|
    ensures var off := 1 + |ContainersSteps(files, c, pkg, c.containers[..k])|;
      off + |ContainerSteps(files, c, pkg, c.containers[k])| <= |ArchivePlan(c, pkg, files)| &&
      ArchivePlan(c, pkg, files)[off .. off + |ContainerSteps(files, c, pkg, c.containers[k])|] ==
        ContainerSteps(files, c, pkg, c.containers[k])
  {
    ContainersStepsSplit(files, c, pkg, c.containers, k);
    var block := ContainerSteps(files, c, pkg, c.containers[k]);
    var before := [CreateDir(c.cookDirectory)] + ContainersSteps(files, c, pkg, c.containers[..k]);
    var after := ContainersSteps(files, c, pkg, c.containers[k + 1..]);
    SliceOfMiddle(before, block, after);
  }

  lemma SliceOfMiddle(a: seq<Event>, b: seq<Event>, c: seq<Event>)
    ensures (a + b + c)[|a|..|a| + |b|] == b
  {
  }

  /** The archive plan creates the cook directory first, then lays out one
      block per container in order (ArchivePlanBlock; the blocks before
      container k take k * (2 + |hash types|) steps, ContainersStepsLength);
      in all it makes |containers| * (1 + |hash types|) archive and sidecar
      writes. */
  lemma ArchivePlanShape(c: Cook, pkg: Package, files: seq<Entry>)
    ensures |ArchivePlan(c, pkg, files)| == 1 + |c.containers| * (2 + |HashTypes(c)|)
    ensures ArchivePlan(c, pkg, files)[0] == CreateDir(c.cookDirectory)
    ensures WriteCount(ArchivePlan(c, pkg, files)) == |c.containers| * (1 + |HashTypes(c)|)
  {
    ContainersStepsLength(files, c, pkg, c.containers);
    WriteCountAppend([CreateDir(c.cookDirectory)], ContainersSteps(files, c, pkg, c.containers));
  }

  /** Every archive in the plan is built from the same resolved list. */
  lemma {:induction false} ArchivePlanCompressesFiles(c: Cook, pkg: Package, files: seq<Entry>)
    ensures forall e :: e in ArchivePlan(c, pkg, files) && e.Compress? ==> e.files == files
  {
    ContainersCompressFiles(files, c, pkg, c.containers);
  }

  lemma {:induction false} ContainersCompressFiles(files: seq<Entry>, c: Cook, pkg: Package, containers: seq<string>)
    ensures forall e :: e in ContainersSteps(files, c, pkg, containers) && e.Compress? ==> e.files == files
    decreases |containers|
  {
    if containers != [] {
      var n := |containers| - 1;
      ContainersCompressFiles(files, c, pkg, containers[..n]);
      var a := ArchiveName(c, pkg, containers[n]);
      HashStepsAt(a, HashTypes(c));
    }
  }
}
