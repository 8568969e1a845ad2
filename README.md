# cargo-cook packaging pipeline, modelled in Dafny

`cargo cook` packages a crate's build output. It reads a recipe (`Cook.toml`)
and the crate manifest (`Cargo.toml`), then runs these stages in order:

1. It checks every configured container type, hash type and deploy target
   against the tags the helper modules support (`parse_config`).
2. It prints "Cooking" and runs the optional pre-cook hook (`cook_hook`).
3. It turns the ingredient rules into an ordered list of path pairs, ending
   with the crate's own binary (`collect`, `collect_recursively`).
4. It creates the cook directory. For each container type it writes
   `{cook_directory}/{name}-{version}.{container}`, then one sidecar
   `{archive}.{hash type}` per hash type (`archive`).
5. With the deploy feature built in, it hands the cook directory to each
   target in turn and reports each result (`deploy`).
6. It runs the optional post-cook hook and prints "Finished" (`cook`).

The model treats the filesystem, the regex engine, child processes, the
container, hash and deploy modules and the terminal as inputs or as events
in a trace. Everything `src/main.rs` decides for itself is modelled exactly:
the order of the stages, the order of the pushed pairs, the archive and
sidecar names it builds, and when it aborts. The exceptions are the "Cooked"
status line, whose path the source canonicalises, and the I/O failures that
abort through `unwrap`; both are listed under "## Left out".

Modules, in dependency order:

- `Wrappers`: `Option` and `Result`.
- `Config`: the already-parsed recipe (`Cook`, `Ingredient`, `DeploySection`)
  and the `Package` table of the manifest.
- `Events`: `Entry`, a pair of paths from `container::Files`; `Failure`, the
  reasons a run aborts; `Event`, the side effects and status lines of a run.
- `Resolver`: `collect` and `collect_recursively`, over a filesystem given
  as a map from path to `File | Dir(children) | Other`.
- `ConfigCheck`: `parse_config`.
- `Archiving`: `archive`.
- `Hooks`: `cook_hook`.
- `Deployment`: `deploy`.
- `Pipeline`: `cook`.

Each loop in the source is a method with loop invariants. Each method is
proved equal to a specification function (`Collect` to `Resolve`,
`ParseConfig` to `Validation`, `Archive` to `ArchivePlan`, `Deploy` to
`DeployPlan`, `Cook` to `CookRun`). The lemmas state the properties of
those functions.

The model keeps these behaviours of the code as written:

- A single-file ingredient pushes `(source, destination)`. Every other push
  puts the archive name first: `(destination/name, child path)` and
  `(rename or name, target_directory/name)`. The model keeps this order.
- `collect_recursively` does not recurse. It emits one pair per direct
  child, subdirectories included.
- The deploy stage prints "Deploying" whenever a target list is configured,
  even an empty one.
- `cook` ignores the value `cook_hook` returns. A pre-cook hook that exits
  non-zero does not stop the run. Only a hook that cannot be started aborts
  it.

## Model

| member | source | states |
|---|---|---|
| `Resolver.CollectRecursively` | src/main.rs:96-109 | Fails exactly when the source is not a directory. Otherwise it appends one pair `(destination/name, child path)` per direct child, in listing order, to the pairs it was given. |
| `Resolver.Collect` | src/main.rs:111-151 | The pushing loops produce exactly `Resolve`: every ingredient's pairs in declaration order, then the primary pair. Otherwise they fail with the error of the first bad ingredient. |
| `Resolver.PushMatching` | src/main.rs:121-130 | The filter loop appends, in listing order, exactly the pairs of the children whose names match the pattern, to the pairs it was given. |
| `Resolver.ErrorPersists` | src/main.rs:134-139 | Once some prefix of the ingredients fails, the whole list fails with that same error. |
| `Resolver.ContributionsFailFast` | src/main.rs:113-140 | The ingredient loop succeeds iff every ingredient does. A failure carries the error of the first failing ingredient, and every ingredient before it succeeded. |
| `Resolver.ContributionsLength` | src/main.rs:113-141 | The ingredients' pairs number exactly the sum of the pairs each ingredient contributes. |
| `Resolver.ContributionsSlice` | src/main.rs:113-141 | Ingredient k's pairs appear contiguous and unchanged, right after the pairs of the ingredients before it. |
| `Resolver.ResolveAppendsPrimary` | src/main.rs:143-150 | A resolved list has length (sum of contributions) + 1. Its last pair is `(target_rename or package name, target_directory/package name)`. With no ingredients the list is exactly that one pair. |
| `Resolver.ResolveFailsFast` | src/main.rs:134-139 | Resolution succeeds iff every ingredient resolves. Otherwise it returns no list, only the first failing ingredient's error. |
| `Resolver.ResolveRejectsOther` | src/main.rs:134-139 | An ingredient whose source is neither a file nor a directory (missing paths included) makes the whole resolution fail. |
| `Resolver.ResolvedFileEntry` | src/main.rs:116-117 | A single-file ingredient contributes exactly one pair, `(source, destination)`, to the resolved list, in that order and unchanged, at the position after the earlier ingredients' pairs. |
| `Resolver.ResolvedSlice` | src/main.rs:112-150 | In the resolved list, ingredient k's contribution sits at offset (sum of earlier contributions), before the primary pair. |
| `Resolver.ChildEntriesAt` | src/main.rs:101-108 | Listing n children yields n pairs. Pair k is `(destination + "/" + child k, child path of child k)`. |
| `Resolver.DirEntryInjective` | src/main.rs:125-127 | Two children of one ingredient with the same archive name are the same child, so archive names within one ingredient are unique. |
| `Resolver.ChildEntriesMembers` | src/main.rs:104-107 | A child's pair is among the emitted pairs iff the child is among the listed names. |
| `Resolver.MatchingMembers` | src/main.rs:121-130 | The filter keeps a name iff the directory lists it and the pattern matches it. |
| `Resolver.MatchingAppend` | src/main.rs:121-130 | Filtering preserves listing order: filtering a concatenation gives the concatenation of the filtered parts. |
| `Resolver.DirectoryContribution` | src/main.rs:131-133 | A directory ingredient without a filter contributes one pair per direct child, in listing order, subdirectories included and not descended into. |
| `Resolver.FilteredContribution` | src/main.rs:119-130 | A directory ingredient with a filter contributes, in listing order, the pairs of exactly the children whose names match. A non-matching child contributes nothing. A pattern that does not compile aborts. |
| `ConfigCheck.FirstUnsupportedSpec` | src/main.rs:241-245 | The scan finds nothing iff every tag is supported. When it finds a tag, that tag is unsupported and every earlier tag is supported. |
| `ConfigCheck.ValidationPassIff` | src/main.rs:240-270 | Validation passes iff every container, every hash type and, with the deploy feature, every deploy target is supported. |
| `ConfigCheck.ValidationReportsFirst` | src/main.rs:240-270 | A failure names the first unsupported container. Only when all containers are supported does it name the first unsupported hash type, and only after that the first unsupported target. |
| `ConfigCheck.ParseConfig` | src/main.rs:240-270 | The three early-exit loops compute exactly `Validation`. |
| `Archiving.Archive` | src/main.rs:153-180 | The nested loops emit exactly `ArchivePlan`: create the cook directory, then per container compress, hash, report. |
| `Archiving.HashStepsAt` | src/main.rs:166-171 | The hash loop emits one step per hash type, in order. Step k writes sidecar `archive + "." + hash type k`. |
| `Archiving.ContainerStepsShape` | src/main.rs:156-179 | One container's block has 2 + \|hash types\| steps. It compresses `cook_dir/name-version.container` first, then writes its own sidecars in hash-type order, then reports the archive. That is 1 + \|hash types\| writes. |
| `Archiving.ContainersStepsLength` | src/main.rs:156-179 | The blocks of n containers take n * (2 + \|hash types\|) steps, with n * (1 + \|hash types\|) writes. |
| `Archiving.ArchivePlanBlock` | src/main.rs:156-179 | Container k's block sits intact right after the cook-directory step and the blocks of the containers before it. Each compress precedes its own hashes. |
| `Archiving.ArchivePlanShape` | src/main.rs:153-180 | The plan starts by creating the cook directory and has 1 + \|containers\| * (2 + \|hash types\|) steps. It makes \|containers\| * (1 + \|hash types\|) archive and sidecar writes. |
| `Archiving.ArchivePlanCompressesFiles` | src/main.rs:163 | Every archive is built from the same resolved list. |
| `Hooks.CookHook` | src/main.rs:210-238 | With no hook for the phase, it returns true and prints and launches nothing. Otherwise it prints "Executing" first. If the process ran, it returns exactly its success flag and reports the exit code, or 0 when there is none. A hook that cannot be resolved or spawned aborts. A hook writes no archive. |
| `Deployment.Deploy` | src/main.rs:184-199 | The target loop emits exactly `DeployPlan`. |
| `Deployment.TargetStepsAt` | src/main.rs:189-196 | Step k is target k's transport call on the cook directory, with its own result. |
| `Deployment.DeployAttemptsEveryTarget` | src/main.rs:184-199 | Without a deploy section or target list, nothing happens. Otherwise "Deploying" comes first, then every target is attempted in order whatever earlier targets answered. No step writes an archive. |
| `Pipeline.Cook` | src/main.rs:67-94 | The orchestration produces exactly `CookRun`. |
| `Pipeline.CookFailurePolicy` | src/main.rs:67-94 | A run completes iff validation passes, both hooks start and every ingredient resolves. An unsupported tag stops the run before anything is printed or done. A pre-cook hook that cannot start, or a bad ingredient, stops it before any archive or sidecar is written. |
| `Pipeline.CookRunCompleted` | src/main.rs:75-93 | A completed run's trace is, in order: "Cooking", the pre-cook hook lines, the archive plan, the deploy steps (when built in), the post-cook hook lines, "Finished". |
| `Pipeline.CookPassTrace` | src/main.rs:80-93 | A completed run starts with "Cooking" and ends with "Finished". The archive plan of the resolved list follows the pre-cook lines. Every archive is built from that list. There are exactly \|containers\| * (1 + \|hash types\|) writes. |
| `Pipeline.PreCookExitIgnored` | src/main.rs:81-92 | For any two exit statuses of the pre-cook hook (zero, non-zero, or killed with no code), the runs agree on whether they complete and on how many archives and sidecars they write. The two traces have the same length and differ at most in the hook's exit line. |

## Left out

- Command-line parsing, the panic hook and `main` (src/main.rs:27-65): argument plumbing.
- `load_config`: reading and deserialising TOML. Both configurations are taken as already-parsed values.
- `container::compress`, `hash::write_file_hash` and `deploy::deploy` are not part of this model. They appear as `Compress`, `Hash` and `TargetDeployed` events. A failure inside compress or hash (a panic in those modules) is not modelled. For deploy, only the `Ok`/`Err` answer is modelled, as a function from target name to result.
- `container::support_container`, `hash::support_hash_type` and `deploy::support_deploy_target` are not part of this model. They are open sets of tags (`ConfigCheck.Registry`).
- The regex engine: whether a pattern compiles and whether it matches a name are uninterpreted functions (`RegexEngine`). `is_match` is an unanchored search.
- The filesystem is a map from path to node, fixed for the whole run. Paths are compared as strings, with no normalisation. `read_dir` and directory-entry errors are not modelled, and neither are non-UTF-8 names (the `unwrap` panics). `create_dir_all` and `canonicalize` of the archive are assumed to succeed.
- The hook's child process is reduced to what starting it reports (`HookRun`): the canonical path could not be resolved, spawning failed, or it exited. Its output goes straight to the terminal and is not modelled.
- The terminal output (src/term_print.rs): colours and formatting are left out. Each status line is an event with its content, except as below.
- `Cooked` carries the archive name as built. The source prints its canonical form, an absolute path with symlinks resolved (src/main.rs:173-177).
- The `deploy` cargo feature is a boolean parameter of `ParseConfig`, `Validation`, `Cook` and `CookRun`.
