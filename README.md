# aasemble / overcast deployment core, modelled in Dafny

This project models three parts of the deployment tooling:

- **The provider-agnostic cloud driver** (`aasemble/deployment/cloud/base.py`). It covers name mappings, the namespace filter, detecting live nodes, security groups and rules into a `Collection`, and the create and destroy passes over a collection.
- **The `apply` workflow of the command line** (`aasemble/deployment/cli.py`). It covers `key=value` substitutions, choosing the cluster, applying either the whole loaded collection or only what is not yet live, and the text `format_collection` prints.
- **The runner** (`overcast/runner/__init__.py`). It covers the weak references of a stack description (images, flavors and undeclared networks), the per-run deadline of a shell step, its retry rules, and the shell `shell_step_cmd` picks.

How the model works:

- The driver is a class. Its configuration is read-only, and it has one mutable field, `trace`, which records every provider call that changes the account, in the order issued. Which of those calls raise is part of the configuration (`fails`).
- The worker pool's `map` is a sequential pass over a set, in an order the pool chooses. That order is returned as a ghost result, and the proofs hold for every such order. In the model a pass issues every call of its set and then reports a failure if any of them raised. A pass that fails ends the operation, so later passes are never started.
- A resource set is a map from identity to element. Nodes and groups are keyed by name; a rule is keyed by its field tuple. Python's `set.add` keeps the element already present under an identity (`Util.Insert`).
- The cloud provider's hooks are inputs. These are the node listing and the firewall report (each absent when the call raises), `get_namespace` and the provider-to-node conversion. So are the stack loader, the cluster client's created URL, the clock, `utils.parse_time` and how each command run ends.

Modules: `Util` (options, results, truthiness, set iteration), `Resources` (the collection), `CloudBase` (the driver), `Cli` and `Runner`.

## Model

| member | source | states |
|---|---|---|
| CloudBase.CloudDriver.constructor | aasemble/deployment/cloud/base.py:15-19 | a missing mapping table becomes the empty table; the namespace is kept; no provider call has been made |
| CloudBase.CloudDriver.ApplyMappings | aasemble/deployment/cloud/base.py:71-72 | the configured name when the table has the kind and the name; the name itself when the kind is missing or the kind has no entry for it |
| CloudBase.NoMappingsIsIdentity | aasemble/deployment/cloud/base.py:15-16 | a driver built without mappings translates every name to itself |
| CloudBase.CloudDriver.IsNodeRelevant | aasemble/deployment/cloud/base.py:32-33 | every node is relevant without a namespace; with one, exactly the nodes whose namespace equals it |
| CloudBase.CloudDriver.RelevantNodes | aasemble/deployment/cloud/base.py:45-48 | a node is yielded iff it is listed and relevant; never more nodes than listed |
| CloudBase.RelevantNodesSnoc | aasemble/deployment/cloud/base.py:45-48 | the filter keeps the listing order: listing one more node appends it to the relevant nodes iff it is relevant, and leaves the earlier ones as they were |
| CloudBase.CloudDriver.DetectNodes | aasemble/deployment/cloud/base.py:35-43 | the loop builds exactly the name-keyed set of the conversions of the relevant listed nodes |
| CloudBase.DetectedNodesExact | aasemble/deployment/cloud/base.py:35-48 | every relevant listed node's name is detected, and every detected node is the conversion of a relevant listed node, filed under its own name |
| CloudBase.DetectedNodesSnoc | aasemble/deployment/cloud/base.py:38-40 | listing one more node adds its conversion under its name when it is relevant and the name is not yet present, and otherwise leaves the set unchanged |
| CloudBase.DetectedNodesKeepFirst | aasemble/deployment/cloud/base.py:35-43 | for any listing, the node filed under a name is the conversion of the first relevant listed node with that name, whatever is listed after it |
| CloudBase.NamespaceIsolation | aasemble/deployment/cloud/base.py:32-48 | with a namespace set, a node of another namespace is never detected, whichever order the two nodes are listed in, even when the names clash |
| CloudBase.CloudDriver.DetectResources | aasemble/deployment/cloud/base.py:50-69 | a failing `list_nodes` or `detect_firewalls` ends detection with that error; otherwise the collection of the detected nodes, the reported groups and the reported rules, connected once all three are filled |
| CloudBase.DetectedCollectionContents | aasemble/deployment/cloud/base.py:50-69 | the detected collection is well formed and linked; it holds exactly the detected nodes, every reported group and no other, and every reported rule's identity and no other |
| Resources.Connect | aasemble/deployment/cloud/base.py:67 | connecting keeps every identity, and every node and group as it was, and links every rule whose group is present to that group |
| Resources.ConnectIdempotent | aasemble/deployment/cloud/base.py:67 | connecting a connected collection changes nothing |
| CloudBase.CloudDriver.Call | aasemble/deployment/cloud/base.py:79-80 | one account-changing provider call is recorded, and it reports failure exactly when that call raises |
| CloudBase.CloudDriver.Pass | aasemble/deployment/cloud/base.py:75-77 | one pool `map` visits every element of the set once, issues one call per element in visiting order, and reports failure iff one of the calls it issued raised |
| CloudBase.CloudDriver.ApplyResources | aasemble/deployment/cloud/base.py:74-77 | the group pass runs first; if one of its creates raised, the error is returned and nothing else is issued; else the node pass, with the same rule; else the rule pass, whose failure is the result |
| CloudBase.ApplyTraceIsPlanPrefix | aasemble/deployment/cloud/base.py:74-77 | whatever fails, what `apply_resources` issues is a prefix of the full group-node-rule plan; it succeeds iff no call of the plan raises, and then it has issued the whole plan |
| CloudBase.FailureStopsLaterPhases | aasemble/deployment/cloud/base.py:74-77 | a failing group create ends `apply_resources` with an error before any node or rule is created; a failing node create ends it before any rule is created |
| CloudBase.ApplyPlanPhaseOrder | aasemble/deployment/cloud/base.py:74-77 | only creates are planned; every group create comes before every node create, which comes before every rule create |
| CloudBase.ApplyPlanExactlyOnce | aasemble/deployment/cloud/base.py:74-77 | as many calls as elements, and each group, node and rule of a well-formed collection is created exactly once |
| CloudBase.CloudDriver.DeleteNode | aasemble/deployment/cloud/base.py:79-80 | one destroy call on the node's `private` handle, which reports failure exactly when that call raises |
| CloudBase.CloudDriver.CleanResources | aasemble/deployment/cloud/base.py:82-83 | one pool pass over the nodes issuing one destroy per node, in visiting order; it raises iff one of the destroys did |
| CloudBase.CleanPlanScope | aasemble/deployment/cloud/base.py:79-83 | as many destroys as nodes, one on each node's handle, and nothing for groups or rules |
| Resources.Difference | aasemble/deployment/cli.py:62 | per kind, the identities of the first collection that the second lacks, with the first collection's elements |
| Resources.DifferenceEmptyIff | aasemble/deployment/cli.py:62 | the difference is empty iff every identity of the first collection is in the second |
| Resources.DifferenceWellFormed | aasemble/deployment/cli.py:62 | the difference of a well-formed collection is well formed |
| Resources.ReapplyCreatesNothing | aasemble/deployment/cli.py:60-64 | after creating the difference next to what was detected, the next difference is empty |
| Cli.SplitAtFirst | aasemble/deployment/cli.py:21 | the key holds no `=`, and key, `=` and value rebuild the argument |
| Cli.SplitAtFirstUnique | aasemble/deployment/cli.py:21 | that split is the only one whose key holds no `=`, so a value may contain `=` |
| Cli.Substitutions | aasemble/deployment/cli.py:17-23 | no key holds `=` |
| Cli.ExtractSubstitutions | aasemble/deployment/cli.py:17-23 | the loop builds the dictionary of the arguments' assignments, applied in order |
| Cli.SubstitutionsKeys | aasemble/deployment/cli.py:19-22 | a key is present iff some argument assigns it |
| Cli.LastAssignmentWins | aasemble/deployment/cli.py:19-22 | a key maps to the value of the last argument that assigns it |
| Cli.IgnoresArgumentWithoutEquals | aasemble/deployment/cli.py:20 | inserting an argument without `=` anywhere leaves the result unchanged |
| Cli.ClusterChoice | aasemble/deployment/cli.py:33-42 | `new_cluster` yields the created URL whatever `cluster` is; otherwise a non-empty `cluster` is used; a chosen cluster is stored under `cluster` and other keys are kept; with neither, no cluster and the map unchanged |
| Cli.ToApply | aasemble/deployment/cli.py:60-62 | under `assume_empty` the loaded collection unchanged; otherwise only the identities not detected, with their loaded elements |
| Cli.Apply | aasemble/deployment/cli.py:45-64 | the stack is loaded with the substitutions plus the chosen cluster; unless `assume_empty`, a failing detection ends `apply` before any call; otherwise the applied collection is that stack, minus what the new driver, built with the given namespace, mapping table and provider hooks, detects in the listing and firewall report unless `assume_empty`, and the driver's calls and result are exactly those of `apply_resources` over it |
| Cli.FormatNodes | aasemble/deployment/cli.py:26-30 | the text starts with `Nodes:\n` and ends with a line break; it is an error iff some visited node has no provider handle |
| Cli.FormatCollection | aasemble/deployment/cli.py:26-30 | the loop produces the heading and one line per node in the set's order, or stops at a node without a handle |
| Cli.LineTextHasNoBreak | aasemble/deployment/cli.py:29 | a node's line holds no line break when its name and addresses hold none |
| Cli.FormatNodesJoin | aasemble/deployment/cli.py:26-30 | the text is the heading followed by one `  name: addresses` line per visited node, in visiting order, each ended by a line break |
| Cli.FormatNodesLines | aasemble/deployment/cli.py:26-30 | split into lines, the text is `Nodes:` and then, line by line in visiting order, each visited node's name and public addresses |
| Cli.FormattedCollectionLines | aasemble/deployment/cli.py:26-30 | the printed text has the heading and one line per node of the collection; every node's line is among them and every line after the heading is some node's line |
| Runner.NicNetworks | overcast/runner/__init__.py:39 | exactly the networks the node's NICs name |
| Runner.WeakRefsOf | overcast/runner/__init__.py:32-45 | images and flavors are exactly those of the nodes; networks are exactly those some NIC uses and the stack does not declare; no declared network appears; with no `networks` key nothing is subtracted |
| Runner.FindWeakRefs | overcast/runner/__init__.py:32-45 | the loops compute exactly the weak references |
| Runner.ShellStepCmd | overcast/runner/__init__.py:76-81 | `bash` whenever the type is not `remote`; the `remote` branch raises a name error |
| Runner.AttemptDeadline | overcast/runner/__init__.py:140-148 | with both limits, the earlier of `now + timeout` and the overall deadline; only a timeout, `now + timeout`; only a total timeout, the overall deadline; neither, no deadline; never later than either configured bound |
| Runner.SettingsOf | overcast/runner/__init__.py:116-129 | the overall deadline is the start plus the parsed total timeout, the per-run limit the parsed timeout, the delay the parsed retry delay or 0, each only when its setting is non-empty |
| Runner.Decide | overcast/runner/__init__.py:150-163 | success stops; a failure is retried iff `retry-if-fails`; a timeout is retried iff `retry-if-fails` and `now + retry_delay` is before the deadline; otherwise the run's exception is raised |
| Runner.ShellStep | overcast/runner/__init__.py:113-163 | the retry loop ends exactly as the step's specification over the observed runs says |
| Runner.FirstUnretriedRunDecides | overcast/runner/__init__.py:139-163 | the step ends at the first run that is not retried: it completes if that run succeeded, and raises that run's error otherwise |
| Runner.StillRetryingIff | overcast/runner/__init__.py:139-163 | a step is still retrying iff every run so far was retried |
| Runner.RunsOnceWithoutRetry | overcast/runner/__init__.py:153-163 | without `retry-if-fails` the command runs exactly once |
| Runner.FailuresIgnoreTotalTimeout | overcast/runner/__init__.py:153-156 | with `retry-if-fails`, the decision after a failed run does not look at the deadline: as long as runs fail, the step retries |
| Runner.TimeoutPastOverallDeadlineRaises | overcast/runner/__init__.py:158-163 | a run that times out at or after the overall deadline is never retried |
| Runner.LateRunRaises | overcast/runner/__init__.py:89-110 | a run that starts after the overall deadline, with a positive clock and a non-negative per-run limit, times out and is not retried |
| Runner.StepEndsAfterOverallDeadline | overcast/runner/__init__.py:139-163 | with a total timeout the step does not keep retrying: it completes or raises at the latest with the first run that starts after the overall deadline |

## Left out

- The thread pool's concurrency and the per-thread provider connection (`connection`, `locals`). The `pool` field is read only as the pool whose `map` runs each pass, modelled as a sequential pass in an order the pool picks.
- libcloud's `get_driver`, `list_nodes` and `destroy_node`, and the provider hooks `create_*`, `detect_firewalls`, `get_namespace` and `_aasemble_node_from_provider_node`. These are foreign or subclass code. Listings and reports are inputs, the two per-node hooks are functions the driver holds, and each create or destroy is one entry in the trace.
- Failures of the two per-node hooks `get_namespace` and `_aasemble_node_from_provider_node`: they are total functions here. Failures of `list_nodes`, `detect_firewalls` and the create and destroy calls are modelled.
- CloudBase.CloudDriver.Pass: a failing pass is modelled as issuing every call of its set. CPython's pool `map` cuts a set of `n` elements into chunks of `ceil(n / (4 * threads))` calls, and a call that raises skips the rest of its chunk; with the default 10 threads this happens for sets of more than 40 elements. On Python 2 the pool may also raise before the other chunks finish. The model does not capture which calls of a failing pass are skipped.
- CloudBase.CloudDriver.Pass: when several calls of one pass raise, the pool re-raises one of them; the model reports only that the pass failed and which pass it was, not which call's exception surfaced.
- Whatever a provider's create hook does to the node object it is given, such as filling in its handle. The model treats resources as values.
- `expand_path`, which is a thin wrapper over the user's home directory lookup.
- The `models` module that defines `Collection` and the resource types, which is not part of this model. The collection here is the minimum `apply` relies on: three identity-keyed sets, difference, union and `connect`. The model assumes that a node or group is identified by its name and a rule by its field tuple, since node equality is defined in that module.
- The `secgroups` field of the driver, which no modelled operation reads.
- `loader.load`, `load_cloud_config` and the cluster client. The loaded stack and the created cluster URL are inputs.
- The cluster passed to the driver class, because the base driver does not take it. The same goes for logging, the `print` of the formatted collection at the end of `apply`, the JSON output of `detect`, `detect` and `clean` as commands, and `argparse`.
- Cli.ClusterChoice: the source updates the caller's dictionary in place; the model returns the updated dictionary, which `Apply` uses from then on.
- Cli.ListText: Python's escaping of quotes and special characters inside a list's text is not modelled. Addresses are written between single quotes as they are.
- `list_refs`, `load_yaml`, `main` and `deploy`. These are file I/O, configuration output and a step dispatcher that refers to undefined names.
- Runner.WeakRefsOf: stacks missing the `nodes`, `image`, `flavor`, `nics` or `network` keys, or whose `networks` value is null, raise in the source and are not modelled.
- `run_cmd_once`, which handles the subprocess, feeds its input and kills it. Each run's outcome, and the clock readings around it, are inputs.
- Runner.Attempt: run outcomes are tied to deadlines only where a lemma asks for it, through `Runner.PossibleRun` (a timeout is raised only under a non-zero deadline, once the clock is past it) and `Runner.LateRunTimesOut`. The second is an assumption about the subprocess: a run that starts past its deadline is killed at the first check, because the shell has then received at most one character of the command. The other lemmas hold for any outcomes, including a failure reported after the deadline and a timeout with no deadline, which `run_cmd_once` does not produce.
- Runner.ShellStep: the source loops until a run is not retried. The model follows the runs it is given and reports "still retrying" when they run out.
- `time.sleep`: the wait between retries is not modelled as time passing. The clock readings of later runs are inputs.
- The `remote` branch of `shell_step_cmd`, which refers to an undefined `self`. It is modelled only as the name error it raises.
- Floating-point time: clock readings and parsed durations are integers.

Because a node is identified by its name, `detect_nodes` keeps only the first relevant listed node of a name, even without a namespace. It adds the converted nodes to a set (`aasemble/deployment/cloud/base.py:36-40`), and Python's `set.add` keeps the element already present (`CloudBase.DetectedNodesKeepFirst`).
