# rust-ccm-binding, modelled in Dafny

This project models the sequential core of a small Rust crate that drives
`ccm`, the cluster manager for ScyllaDB and Cassandra test clusters. It has
four parts:

- **CcmCli** (`ccm_cli.dfy`): `LoggedCmd`, the supervised command runner. It
  hands out run ids from a counter that starts at 1. Every run is recorded in
  one shared log as fixed-format records: `env[n]`, `started[n]`,
  `stdout[n]`/`stderr[n]` and `exited[n]`. A run counts as a failure when its
  status is not success and failure is not allowed. The class keeps a
  `nextRunId` counter and a `log: seq<string>`, and `RunCommand` appends to
  the log.
- **Topology** (`cluster.dfy`): `Node` and `Cluster`.
  - Pure derivations: node names, JMX and debug ports, the memory default,
    `SCYLLA_EXT_OPTS`, and the exact `ccm` argument vectors.
  - Lowest-free node ids, with the sentinel 256.
  - The per-datacenter pre-allocation in `Cluster::new`.
  - Prefix normalisation and the `/proc/net/tcp` prefix sniffing.
  - The lifecycle: `init`, `start`, `stop` and `destroy` around the
    `destroyed` flag, with nodes' `status`.
  - Both classes share one `CcmRunner`. It records every `(command, args,
    env)` invocation in a `trace` and answers from a scripted `outcomes`
    sequence, so "exactly these calls in this order" becomes an equation on
    `trace`.
- **ClusterConfig** (`cluster_config.dfy`, using `yaml.dfy`): the
  `ScyllaConfig` value tree and its conversions to and from a YAML value tree.
  - `from_yaml(to_yaml(c)) == Ok(c)`.
  - The converse holds up to YAML equality.
  - Also: exactly when `from_yaml` succeeds, the flattened
    `key.sub:value` rendering, and `output_mut`/`take_output`.
- **IpRange** (`find_available_iprange.dfy`): the free loopback `/24`
  search. It decodes the little-endian hex addresses of the kernel's TCP
  table and scans `127.i.j.0` first-fit.

`text.dfy` holds the formatting and parsing primitives the Rust code takes
from its standard library:
- decimal and hexadecimal numerals and `u32::from_str_radix`;
- `{:15}` padding;
- `split`, `join`, `lines` and `split_whitespace`;
- string ordering.

`wrappers.dfy` holds `Option` and `Result`.

Abstractions:
- Process outcomes, file contents, file-system answers and `ccm` results are
  parameters of the model.
  - A `ProcessOutcome` says whether the spawn succeeded and gives the stdout
    and stderr lines, the order the two drains' writes arrive in, and the
    wait result.
  - The TCP table's text is an `Option<string>`; `None` means unreadable.
  - The install directory's state is a `DirectoryState`.
- `HashMap`s become `seq`s of pairs where the Rust code depends on their
  order of iteration (the env map). Elsewhere they become Dafny `map`s. The
  YAML mapping of a converted `Map` lists its keys in ascending order,
  standing in for `HashMap`'s unspecified order.

Behaviours of the code worth noting:
- `destroy` calls `stop` itself. So `stop` followed by `destroy` issues two
  `stop` calls and then a `remove` (`Topology.Teardown`,
  `Topology.LifecycleScenario`).
- `sniff_ip_prefix` (src/cluster.rs) neither skips the table's header line
  nor requires exactly one `:` in the address field. It scans only
  `127.a.b.` with a, b in 1..=255, while `find_available_iprange` scans
  0..=255 and skips only (0, 0).
- The `Cluster::new` error message says "not a dictionary".

## Model

| member | source | states |
|---|---|---|
| CcmCli.WrappingIncrement | src/ccm_cli.rs:61-63 | the run-id counter's `fetch_add(1)` on an `AtomicI32`: one more, except that 2^31-1 wraps to -2^31 |
| CcmCli.RunIdsCount | src/ccm_cli.rs:40 | starting from 1, the id taken by the n-th call (counting from 0) is n + 1, for every n below 2^31-1 |
| CcmCli.RunIdWraps | src/ccm_cli.rs:61-63 | the id taken by call number 2^31-1 (counting from 0) is -2^31, by two's-complement wrap-around |
| CcmCli.AllowFailure | src/ccm_cli.rs:68-73 | failure is allowed exactly when options are present and `allow_failure` is `Some(true)`; absent options or `None` mean false |
| CcmCli.RunResult | src/ccm_cli.rs:152-175 | `Ok(status)` iff the child was spawned and waited for and its status is success or failure is allowed. Spawn failure gives `SpawnError`, wait failure gives `WaitError`, and a non-success status without allow-failure gives `CommandFailed(status)` |
| CcmCli.EnvRecords | src/ccm_cli.rs:74-87 | one `env[n]` record per override, in the env's order, none for an empty env |
| CcmCli.LineRecords | src/ccm_cli.rs:186-194 | one record per captured line, in the stream's order, each the line's own record |
| CcmCli.ShortTagRecord | src/ccm_cli.rs:81 | a record whose tag is at most 15 characters is the tag, spaces up to width 15, ` -> `, the payload and a newline |
| CcmCli.TagHasNoSpace | src/ccm_cli.rs:97 | a tag such as `started[n]` is non-empty and holds no space, so the record's first space ends it |
| CcmCli.RecordRoundTrip | src/ccm_cli.rs:81 | a record cut at its first space and its ` -> ` gives back the tag and the payload unchanged, for every non-empty tag without a space |
| CcmCli.LineRecordIsRecord | src/ccm_cli.rs:109 | a captured line's record is the record of the stream's tag with payload `" " + line`, so the line is kept verbatim after a doubled space |
| CcmCli.MergeStep | src/ccm_cli.rs:106-118 | a merge takes its next line from the stream the schedule names, when it has one, and otherwise from the other stream |
| CcmCli.MergeIsInterleaving | src/ccm_cli.rs:106-118 | every merge of the two drains is an interleaving of the stdout and stderr lines that keeps each stream's own order |
| CcmCli.InterleavingIsSomeMerge | src/ccm_cli.rs:106-118 | conversely, every order-preserving interleaving of the two streams is produced by some schedule |
| CcmCli.InterleavingOfOne | src/ccm_cli.rs:186-194 | when one stream is empty, the only interleaving is the other stream itself |
| CcmCli.MergeLength | src/ccm_cli.rs:106-118 | a merge has exactly as many records as the two streams together |
| CcmCli.MergeMembers | src/ccm_cli.rs:106-118 | every merged element comes from one of the two streams |
| CcmCli.RunRecordsParts | src/ccm_cli.rs:74-151 | a run's records are its env records, then, if it was spawned, `started`, the merged captured lines and `exited`; a failed spawn leaves only the env records |
| CcmCli.RunRecordOrder | src/ccm_cli.rs:74-151 | in a run's records, the first records, one per env entry, carry the `env[n]` tag. For a spawned run, exactly one `started[n]` follows them, then only `stdout[n]`/`stderr[n]` records, and exactly one `exited[n]` comes last; the count is the env size plus the stdout and stderr line counts plus 2 |
| CcmCli.RunRecordsEnvTags | src/ccm_cli.rs:74-90 | the env part of every run, spawned or not, is tagged `env[n]`; a failed spawn writes nothing else |
| CcmCli.RunRecordsSpawnedTags | src/ccm_cli.rs:90-151 | a spawned run's records after the env part are `started[n]`, then only captured lines, then `exited[n]` |
| CcmCli.SpawnedRecordOrder | src/ccm_cli.rs:91-151 | the part written after a spawn has as many records as there are stdout and stderr lines, plus 2, `started[n]` first and `exited[n]` last |
| CcmCli.CapturedRecordTags | src/ccm_cli.rs:106-115 | there is one captured record per line of either stream, and each is tagged `stdout[n]` or `stderr[n]` |
| CcmCli.ExitedRecordTag | src/ccm_cli.rs:121-175 | every exit record, whether it holds a code, `unknown` or the wait error, is tagged `exited[n]` |
| CcmCli.EnvRecordTags | src/ccm_cli.rs:81 | every env record is tagged `env[n]` |
| CcmCli.LoggedCmd.constructor | src/ccm_cli.rs:36-42 | an empty log-file name, no open file, run id 1 and an empty log |
| CcmCli.LoggedCmd.SetLogFile | src/ccm_cli.rs:44-53 | the name is stored in every case; the file is open afterwards unless opening failed, and the open error is returned |
| CcmCli.LoggedCmd.RunCommand | src/ccm_cli.rs:55-177 | takes the current run id and advances it by one (wrapping), even when the spawn fails. It appends exactly that run's records to the log and returns `RunResult`; an open log file is required, as the source unwraps it |
| CcmCli.LoggedCmd.WriteEnv | src/ccm_cli.rs:76-86 | the loop over the env map appends exactly the env records |
| CcmCli.LoggedCmd.LogSpawnedRun | src/ccm_cli.rs:91-151 | after a spawn it appends `started`, the captured lines and `exited`, in that order |
| CcmCli.LoggedCmd.DrainStreams | src/ccm_cli.rs:179-195 | the two `stream_reader` loops append the captured records in schedule order, each stream in its own order |
| CcmCli.StartedOne | src/ccm_cli.rs:95-99 | with run id 1 the `started` record is `started[1]` padded to 15, ` -> `, the command, a space and the arguments joined by spaces |
| CcmCli.LineOne | src/ccm_cli.rs:109-114 | with run id 1 a captured line's record is `stdout[1]       ->  line` (or `stderr[1]`) and a newline |
| CcmCli.EnvOne | src/ccm_cli.rs:81 | with run id 1 an env record is `env[1]          -> KEY=VALUE` and a newline |
| CcmCli.ExitedOne | src/ccm_cli.rs:127-130 | with run id 1 an exit record holding code c is `exited[1]       -> status = c` and a newline |
| CcmCli.EchoScenario | src/ccm_cli.rs:240-263 | `echo Test Success` succeeding with one stdout line leaves exactly the three records the test expects and returns `Ok(0)` |
| CcmCli.FailingLsScenario | src/ccm_cli.rs:265-286 | `ls /nonexistent_path` exiting with 2 and one stderr line leaves exactly the three expected records and returns `CommandFailed(2)` |
| CcmCli.PrintenvScenario | src/ccm_cli.rs:288-312 | `printenv TEST_ENV` with env `TEST_ENV=12345` leaves the env record before `started`, as the test expects, and returns `Ok(0)` |
| CcmCli.RunIdScenario | src/ccm_cli.rs:61-90 | three successive runs use ids 1, 2 and 3, with the second's spawn failing. That failure still uses id 2, logs only its env records and returns `SpawnError`. The counter ends at 4 |
| Topology.CcmRunner.Run | src/ccm_cli.rs:55-60 | one invocation is appended to the trace, and its result is the next scripted outcome (failure once the script is exhausted) |
| Topology.Node.constructor | src/cluster.rs:43-65 | name `node_<dc>_<id>`, status ACTIVE, memory the given value if nonzero and else 512 × smp, every other field as given |
| Topology.NodeMemory | src/cluster.rs:60 | a nonzero memory is kept, and 0 becomes 512 × smp |
| Topology.NodeNameInjective | src/cluster.rs:54 | distinct (datacenter, node id) pairs give distinct names |
| Topology.PortsApart | src/cluster.rs:67-73 | the JMX port is always the debug port plus 5000 |
| Topology.PortsDistinctBelow100 | src/cluster.rs:67-73 | below node id 100 the JMX port determines the datacenter and the node id |
| Topology.PortsCollide | src/cluster.rs:67-73 | node id + 100 in datacenter d has the same ports as node id in datacenter d + 1; the collision is kept as in the source |
| Topology.ExtOptsInjective | src/cluster.rs:75-82 | the `SCYLLA_EXT_OPTS` value `--smp=<smp> --memory=<memory>M` determines smp and memory |
| Topology.AddArgs | src/cluster.rs:85-102 | the `add` vector has 10 elements, and 11 with `--scylla` last exactly for a scylla node; it carries the name at 1 and the install directory at 9 |
| Topology.Node.Init | src/cluster.rs:84-108 | exactly one `ccm add …` invocation, with the `SCYLLA_EXT_OPTS` env, whose result is returned |
| Topology.StartFlagsInjective | src/cluster.rs:112-118 | the flags determine the options, in the caller's order |
| Topology.StartArgs | src/cluster.rs:110-118 | `["start", name, "--config-dir", dir]` followed by one flag per option, in the caller's order; no options means none |
| Topology.Node.Start | src/cluster.rs:110-124 | exactly one `ccm start …` invocation with the node's env, whose result is returned |
| Topology.Node.Delete | src/cluster.rs:126-131 | exactly one `ccm remove <name>`; the status becomes DELETED if and only if that call succeeds |
| Topology.Node.MarkDeleted | src/cluster.rs:133-135 | the status becomes DELETED and no command runs |
| Topology.LeastFreeSpec | src/cluster.rs:210-223 | the free id is the least of 1..255 not held, or 256 exactly when all 255 are held, and no other value satisfies that |
| Topology.LeastFreeExample | src/cluster.rs:210-223 | with ids {1, 2, 4} held the free id is 3 |
| Topology.Cluster.GetFreeNodeId | src/cluster.rs:210-223 | the labelled nested loop returns the least free id of that datacenter, ignoring other datacenters' nodes and every node's status |
| Topology.Cluster.AddNode | src/cluster.rs:225-239 | appends exactly one fresh node and leaves earlier ones in place. Its datacenter defaults to 1 and its id is the datacenter's least free id; it takes the cluster's default smp, memory and config (`UNSET_NODE_CONFIG` when unset), runner and directory. Unique ids stay unique |
| Topology.Cluster.SetDefaultNodeMemory | src/cluster.rs:166-168 | only the default memory changes |
| Topology.Cluster.SetDefaultNodeSmp | src/cluster.rs:170-172 | only the default smp changes |
| Topology.Cluster.SetDefaultNodeConfig | src/cluster.rs:174-176 | only the default config changes, to `Some(config)` |
| Topology.NormalizePrefix | src/cluster.rs:256-258 | the result ends with `.` and is the prefix with at most one character added |
| Topology.NormalizePrefixIdempotent | src/cluster.rs:256-258 | normalising twice equals normalising once, and a prefix ending with `.` is unchanged |
| Topology.ResolvePrefix | src/cluster.rs:252-258 | a given prefix is normalised; without one, the sniffed prefix is used, and a sniffing error is returned as is |
| Topology.FieldOfEntry | src/cluster.rs:185-193 | an address field as the kernel writes it decodes to `"a.b.c."` from its little-endian bytes |
| Topology.FieldWithoutPort | src/cluster.rs:185-187 | a field without a colon still counts in the sniffing scan, while the other scan rejects it |
| Topology.LoopbackEntryUsesCandidate | src/cluster.rs:188-201 | a `127.a.b.*` address in the table marks the candidate `127.a.b.` as used |
| Topology.CollectUsedPrefixes | src/cluster.rs:179-197 | the loop over every line, the header included, collects exactly the decoded prefixes |
| Topology.FreeIndexSpec | src/cluster.rs:199-206 | the scan stops at the first unused candidate, and every candidate before it is used |
| Topology.FirstFreeNone | src/cluster.rs:199-207 | the scan finds nothing exactly when every `127.a.b.` with a, b in 1..=255 is used |
| Topology.FirstFreeSome | src/cluster.rs:199-204 | a found prefix is an unused candidate, and every candidate before it in (a, b) order is used |
| Topology.ScanCandidates | src/cluster.rs:199-207 | the nested loop with early return gives the first free candidate in (a, b) order, or none |
| Topology.SniffedSpec | src/cluster.rs:178-208 | `Ok` is the first unused candidate in (a, b) order; `NoFreePrefix` iff all 65025 are used; `CannotRead` iff the table cannot be read |
| Topology.SniffIpPrefix | src/cluster.rs:178-208 | the imperative sniffing computes `Sniffed` of the table content |
| Topology.EmptyTablePrefix | src/cluster.rs:252-258 | with no prefix given and an empty table the cluster's prefix is `127.1.1.` |
| Topology.IdsInRun | src/cluster.rs:297-301 | the ids handed out in one datacenter are exactly 1..count, capped by the sentinel |
| Topology.AllocationIds | src/cluster.rs:297-301 | datacenter d + 1 holds exactly ids 1..counts[d], and a datacenter outside 1 to the number of counts holds none |
| Topology.AllocationUnique | src/cluster.rs:297-301 | the pre-allocation never gives one id below 256 twice in a datacenter |
| Topology.ThreeNodeAllocation | src/cluster.rs:394-403 | counts [3] give nodes (1, 1), (1, 2), (1, 3), in that order |
| Topology.AddDatacenter | src/cluster.rs:298-300 | the inner loop appends `count` nodes `(dc, 1), (dc, 2), …` to a datacenter that was empty |
| Topology.Populate | src/cluster.rs:297-301 | the nested loop leaves nodes whose (datacenter, id) list is `Allocation(counts)`, with unique ids and the default resources |
| Topology.NewCluster | src/cluster.rs:244-303 | errors, in source order, from prefix resolution and then from the directory or log file. On success: a fresh cluster with the normalised prefix, defaults 512/1/None, not destroyed, and nodes exactly `Allocation(counts)` |
| Topology.Cluster.CreateArgs | src/cluster.rs:311-323 | `create <name> -v <version> -i <prefix> --config-dir <dir>`, plus `--scylla` exactly for a scylla cluster |
| Topology.Cluster.InitCalls | src/cluster.rs:305-333 | one `create` call followed by one `add` call per node |
| Topology.AttemptedSpec | src/cluster.rs:326-330 | a fan-out attempts calls up to and including the first failure: all before it succeeded, and all are attempted when every one succeeds |
| Topology.Cluster.Init | src/cluster.rs:305-333 | the trace grows by `create` and then each node's `add`, in collection order, up to the first failure; the result is ok iff all succeed |
| Topology.Cluster.InitNodes | src/cluster.rs:326-330 | the node loop issues each node's `add` in order and stops at the first failure |
| Topology.Cluster.Start | src/cluster.rs:335-341 | node starts are issued one at a time in collection order, stopping at the first failure; ok iff all succeed |
| Topology.Cluster.Stop | src/cluster.rs:343-359 | no call and success when destroyed; otherwise exactly one `ccm stop <name> --config-dir <dir>` whose result is returned |
| Topology.Cluster.Destroy | src/cluster.rs:361-389 | nothing happens and success when already destroyed. Otherwise it issues `stop` (result ignored) and then `remove`, and sets `destroyed` iff `remove` succeeds, so a second destroy issues nothing and `destroyed` never goes back to false. Nodes are left as they are |
| Topology.CreateTestCluster | src/cluster.rs:394-403 | `new` with three nodes in datacenter 1 and an empty table gives prefix `127.1.1.` and nodes (1,1), (1,2), (1,3) |
| Topology.InitAndStart | src/cluster.rs:405-406 | `init` then `start(None)`, all succeeding, issue exactly one `create`, the three `add`s and the three starts, in node order |
| Topology.AddAndLaunch | src/cluster.rs:407-411 | `add_node(Some(2))` gives node (2, 1), named `node_2_1`, whose `init` and `start` issue exactly its `add` and its start |
| Topology.Launch | src/cluster.rs:409-410 | a node's `init` and `start(None)`, both succeeding, issue exactly its `add` and its start |
| Topology.Teardown | src/cluster.rs:412-413 | `stop` then `destroy` issue `stop`, `stop`, `remove` and leave the cluster destroyed |
| Topology.LifecycleScenario | src/cluster.rs:392-414 | the whole test gives four nodes and ends destroyed. The complete trace is: `create`, three `add`s, three starts, the new node's `add` and start, then `stop`, `stop`, `remove` |
| ClusterConfig.Keys | src/cluster_config.rs:92-93 | the sorted keys: strictly ascending, one per map key and no other |
| ClusterConfig.ToYaml | src/cluster_config.rs:17-38 | a List becomes a Sequence and a Map a Mapping of the same size |
| ClusterConfig.ToYamlEmpty | src/cluster_config.rs:202-210 | an empty List gives an empty Sequence and an empty Map an empty Mapping |
| ClusterConfig.FromYamlSeq | src/cluster_config.rs:54-64 | a converted sequence keeps its length; any failing element fails it with `Error parsing value in sequence` |
| ClusterConfig.FromYamlSeqAll | src/cluster_config.rs:54-64 | when every element converts, the sequence converts to exactly those elements, in order |
| ClusterConfig.FromYamlSeqOk | src/cluster_config.rs:54-64 | a successful sequence conversion converted every element to the element at its index |
| ClusterConfig.FromYamlMapping | src/cluster_config.rs:65-79 | a mapping fails only with `Invalid key type in mapping` or `Error parsing value in mapping` |
| ClusterConfig.FromYamlMappingOk | src/cluster_config.rs:65-79 | after a successful conversion every key was a String, and its converted value is in the map; the map's keys are exactly those keys |
| ClusterConfig.KeyStringsSize | src/cluster_config.rs:65-79 | distinct String keys give a map of the mapping's size |
| ClusterConfig.RoundTrip | src/cluster_config.rs:17-82 | `from_yaml(to_yaml(c)) == Ok(c)` for every float-free config |
| ClusterConfig.FromYamlSame | src/cluster_config.rs:170-199 | for a well-formed YAML value that converts, `to_yaml(from_yaml(v))` equals `v` under YAML equality |
| ClusterConfig.FromYamlOkIff | src/cluster_config.rs:40-82 | `from_yaml` succeeds exactly when no mapping key at any depth is a non-String and no value is tagged |
| ClusterConfig.NonStringKeyRejected | src/cluster_config.rs:213-223 | a mapping with a sequence key is rejected with `Invalid key type in mapping` |
| ClusterConfig.UnescapeEscape | src/cluster_config.rs:125 | the `{:?}` string escaping loses nothing: unescaping it gives the string back |
| ClusterConfig.EscapePlain | src/cluster_config.rs:125 | a plain lower-case string is rendered unchanged inside its quotes |
| ClusterConfig.ToFlatString | src/cluster_config.rs:134-138 | `""` for any non-Map value and for the empty Map |
| ClusterConfig.FlattenPrefixed | src/cluster_config.rs:97-105 | every entry flattened under a non-empty prefix starts with that prefix and a `.` |
| ClusterConfig.FlattenEmptyMap | src/cluster_config.rs:104-106 | an empty nested Map contributes nothing |
| ClusterConfig.FlattenComplete | src/cluster_config.rs:86-131 | every leaf of the map, at any depth, appears as its dotted key path, a `:` and its value text |
| ClusterConfig.FlattenSound | src/cluster_config.rs:86-131 | every flattened entry is the dotted-path entry of some leaf; in particular an empty nested Map contributes nothing |
| ClusterConfig.FlattenLeaves | src/cluster_config.rs:91-131 | a map whose values are all leaves flattens to exactly one `key:value` entry per key, in ascending key order |
| ClusterConfig.FlatSingle | src/cluster_config.rs:85-139 | a one-key map flattens to `key:value` |
| ClusterConfig.FlatPair | src/cluster_config.rs:85-139 | a two-leaf map flattens to the smaller key's entry, a space and the larger key's entry |
| ClusterConfig.FlatNestedPair | src/cluster_config.rs:85-139 | a nested one-entry map and a leaf give `a.inner:x b:y` in key order |
| ClusterConfig.SimpleMapExample | src/cluster_config.rs:225-235 | `{key1: "value1", key2: 42}` flattens to `key1:value1 key2:42` |
| ClusterConfig.NullExample | src/cluster_config.rs:285-294 | `{null_key: Null}` flattens to `null_key:null` |
| ClusterConfig.ListExample | src/cluster_config.rs:264-283 | a List leaf renders as `[Int(1), Int(2), String("three")]` |
| ClusterConfig.NestedMapExample | src/cluster_config.rs:237-253 | the nested-map example flattens to `outer_key1.inner_key:true outer_key2:3.14` |
| ClusterConfig.OutputMut | src/cluster_config.rs:145-151 | on a List, the last element iff the list is non-empty; on a Map, some value iff it is non-empty; None on every scalar |
| ClusterConfig.TakeOutput | src/cluster_config.rs:155-161 | on a non-empty List, pops and returns the last element, the rest being the list without it. On an empty List, on a Map and on scalars the value is unchanged; a Map yields some of its values if it is non-empty, and a scalar yields None |
| IpRange.OctetsOfPack | src/find_available_iprange.rs:31-35 | the three masked shifts give back the first three little-endian bytes of the address |
| IpRange.IpStrToNet | src/find_available_iprange.rs:27-40 | `Some` iff the string splits on `:` into exactly two parts whose first parses as hex within 32 bits; the result holds the masked octets and a last octet of 0 |
| IpRange.IpStrToNetNeedsOneColon | src/find_available_iprange.rs:28-29 | a string without exactly one colon is rejected |
| IpRange.IpStrToNetOfEntry | src/find_available_iprange.rs:27-40 | any address written as the kernel does, eight hex digits, a colon and a port, decodes to its /24 |
| IpRange.LoopbackEntry | src/find_available_iprange.rs:26-36 | `"0100007F:0016"` decodes to 127.0.0.0 |
| IpRange.LineNet | src/find_available_iprange.rs:12-19 | a line contributes at most its second field's network, and only a network with last octet 0 |
| IpRange.NetsOfMembers | src/find_available_iprange.rs:11-21 | a network is active iff some line after the header yields it |
| IpRange.HeaderIgnored | src/find_available_iprange.rs:11 | whatever the first line says, it contributes nothing |
| IpRange.GetActiveNetworks | src/find_available_iprange.rs:7-24 | the loop over the lines after the header inserts exactly the decoded networks; an unreadable file gives the empty set |
| IpRange.FirstFreeRange | src/find_available_iprange.rs:46-57 | an `Ok` result is `127.i.j.0`, never 127.0.0.0 and not active, and every candidate before it in (i, j) order is active. `Err("No free IP ranges found")` iff all 65535 candidates are active |
| IpRange.FindAvailableIprange | src/find_available_iprange.rs:43-58 | reads the active networks from the TCP table's content, then scans: the same promises with respect to `ActiveNetworks(content)`; an unreadable table gives `127.0.1.0` |
| Text.ParseHexU32OfHexDigits | src/find_available_iprange.rs:30 | `u32::from_str_radix` reads back any 32-bit value written as eight hex digits |
| Text.LinesUnlines | src/find_available_iprange.rs:11 | `lines()` splits a text of newline-terminated lines into exactly those lines |
| Text.SplitJoin | src/find_available_iprange.rs:28 | splitting the join of colon-free parts by a colon gives the parts back |
| Text.IntToStringInjective | src/cluster.rs:54 | the decimal rendering of integers is injective |
| Text.SortedSet | src/cluster_config.rs:92-93 | a strictly ascending listing of the set, of its size and with exactly its members |
| Text.SortedUnique | src/cluster_config.rs:92-93 | every strictly ascending listing of a set's members is that listing, so the sorted key order is unique |

## Left out

- Process spawning, pipes, `child.wait`, and the concurrent `tokio` drains with their `Mutex`/`RwLock`/`AtomicI32` machinery. The model is sequential, with a process outcome supplied as input. The only concurrency kept is the order in which the two drains' records reach the log, which is a free `schedule` parameter.
- The log-file open and append in `set_log_file` are reduced to an `openError` parameter and a `fileOpen` flag. `LoggedCmd`'s inherent `drop`, which only syncs the file, is not modelled.
- `CcmCli.LoggedCmd.RunCommand`: its log is the text written when every log write succeeds. The source ignores the outcome of each write (`write_all(..).await.ok()` for the env, `started` and `exited` records, `let _ = …` in `stream_reader`), so a failed or partial write leaves that record missing or cut short while the run's result is unchanged. The model always appends each whole record.
- `CcmCli.LoggedCmd.WriteEnv`, `CcmCli.LoggedCmd.LogSpawnedRun` and `CcmCli.LoggedCmd.DrainStreams`: the same, for the env records, the `started`/`exited` records and the captured lines respectively.
- `CcmCli.LoggedCmd.RunCommand` requires an open log file. The source panics on `unwrap` when none was set, and the model does not model that panic.
- A wait error's text is an uninterpreted `reason` string, because it comes from the operating system. The message `Command failed with status: …` is left out; `CommandFailed` carries only the status.
- The order of `HashMap` iteration: env lines are written in the order of the given pair list. `output_mut` and `take_output` on a Map only promise "some value of the map".
- `stream_reader` stops quietly when reading a line fails (`line.unwrap_or(None)`). The captured lines are a free input, so a stream cut short by a read error is simply a shorter list of lines.
- `ClusterConfig.OutputMut`: returns a copy of the last list element or of some map value. The source returns a mutable reference into the value, through which a caller updates that element in place; the model loses that in-place update.
- The runner used by `Node` and `Cluster` abstracts `LoggedCmd` to its success or failure. Its log records are modelled in CcmCli, not in the cluster trace.
- File-system effects of `Cluster::new` and `Cluster::init` are left out:
  - `metadata` and `create_dir_all` are reduced to a `DirectoryState` parameter and a log-file flag;
  - the stale cluster directory removed by `init` is not modelled.
- The test-only `Drop for Cluster`, the demo `main` in `ccm_cli.rs`, and `main.rs`, whose code is commented out.
- Floats: `ScyllaConfig::Float`, `as_f64`, float formatting, and the `Number is not an integer or float` error, which a model without floats cannot produce. YAML numbers are 64-bit integers.
- `ClusterConfig.NestedMapExample` therefore uses the string `"3.14"` where the source's test uses `Float(3.14)`. The flattened text is the same.
- `{:?}` of a list element is modelled for Null, Bool, Int, String and nested Lists and Maps. Strings escape quote, backslash, newline, carriage return, tab and NUL. Rust's escaping of other control and non-printable characters is not modelled. A nested Map's entries are written in ascending key order.
- serde_yaml itself. It is replaced by a local value tree. Its mapping is a sequence of entries, and its equality ignores entry order.
- `ClusterConfig.FromYamlSame`: states the converse round trip up to YAML equality (`Yaml.Same`), not syntactic equality, because a `HashMap` does not keep the original entry order.
- 32-bit overflow of ports, memory (`512 * smp`) and the datacenter index `(datacenter_id + 1) as i32` is not modelled. These are unbounded integers here, because the source never reaches them in practice and does not check them.
- The sentinel 256 is modelled as the source returns it. A full datacenter therefore hands out id 256 again to every further node, and nothing in the source prevents that.
- `Topology.Cluster.AddNode`: while no default node config is set it gives the node `UNSET_NODE_CONFIG`, which is `Null`. The source calls `unwrap_or_default()`, but `ScyllaConfig` defines no `Default`, so that value is an assumption of the model.
- `Topology.NewCluster`: does not state that the created nodes are active or that each is fresh, only their (datacenter, id) list, resources and shared runner.
- `Topology.LifecycleScenario` takes the TCP table to be empty and every `ccm` call to succeed, because the test's environment is not part of the source.
