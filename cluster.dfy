/** The cluster topology manager of src/cluster.rs: nodes with derived names,
    ports and launch options, a cluster that allocates node ids per
    datacenter, picks a loopback prefix, and drives the external `ccm` tool
    through create, add, start, stop and remove.

    The `ccm` tool is not run. Every invocation goes to a `CcmRunner`, which
    records it and answers with the next of a scripted list of outcomes. */
module Topology {
  import opened Wrappers
  import opened Text
  import IpRange
  import ClusterConfig

  type ScyllaConfig = ClusterConfig.ScyllaConfig

  datatype NodeStatus = Active | Deleted

  datatype NodeStartOption = NoWait | WaitOtherNotice | WaitForBinaryProto

  /** One call of the external tool: the command, its arguments and the
      environment overrides, in the order the map is iterated. */
  datatype Invocation = Invocation(command: string, args: seq<string>, env: seq<(string, string)>)

  /* ---------------------------------------------------------------------- */
  /* The runner                                                              */
  /* ---------------------------------------------------------------------- */

  /** Whether the next call succeeds: the head of the script; a used-up
      script fails every call. */
  function First(outcomes: seq<bool>): bool
  {
    outcomes != [] && outcomes[0]
  }

  function Rest(outcomes: seq<bool>): seq<bool>
  {
    if outcomes == [] then [] else outcomes[1..]
  }

  /** The script after `n` calls. */
  function Drop(outcomes: seq<bool>, n: nat): (r: seq<bool>)
    ensures n <= |outcomes| ==> r == outcomes[n..]
    ensures n >= |outcomes| ==> r == []
  {
    if n <= |outcomes| then outcomes[n..] else []
  }

  lemma DropStep(outcomes: seq<bool>, n: nat)
    ensures Drop(outcomes, n + 1) == Rest(Drop(outcomes, n))
    ensures First(Drop(outcomes, n)) <==> n < |outcomes| && outcomes[n]
  {
  }

  /** The shared `LoggedCmd` as the cluster sees it. */
  class CcmRunner {
    var trace: seq<Invocation>
    var outcomes: seq<bool>

    constructor (outcomes: seq<bool>)
      ensures trace == [] && this.outcomes == outcomes
    {
      trace := [];
      this.outcomes := outcomes;
    }

    /** `run_command`: the call is recorded; its success is the script's. */
    method Run(command: string, args: seq<string>, env: seq<(string, string)>) returns (ok: bool)
      modifies this
      ensures trace == old(trace) + [Invocation(command, args, env)]
      ensures ok == First(old(outcomes))
      ensures outcomes == Rest(old(outcomes))
    {
      trace := trace + [Invocation(command, args, env)];
      ok := First(outcomes);
      outcomes := Rest(outcomes);
    }
  }

  /** How many of `calls` a loop that stops at the first failure issues. */
  function Attempted(calls: seq<Invocation>, outcomes: seq<bool>): (n: nat)
    ensures n <= |calls|
    decreases |calls|
  {
    if calls == [] then 0
    else if First(outcomes) then 1 + Attempted(calls[1..], Rest(outcomes))
    else 1
  }

  /** The first `n` calls all succeed. */
  predicate AllSucceed(outcomes: seq<bool>, n: nat)
  {
    n <= |outcomes| && forall k :: 0 <= k < n ==> outcomes[k]
  }

  /** The loop issues the calls in order up to and including the first that
      fails, and every call when none does. */
  lemma {:induction false} AttemptedSpec(calls: seq<Invocation>, outcomes: seq<bool>)
    ensures var n := Attempted(calls, outcomes);
      && AllSucceed(outcomes, if n == 0 then 0 else n - 1)
      && (n < |calls| ==> n > 0 && !First(Drop(outcomes, n - 1)))
      && (calls != [] ==> n > 0)
      && (AllSucceed(outcomes, |calls|) ==> n == |calls|)
    decreases |calls|
  {
    if calls != [] && First(outcomes) {
      AttemptedSpec(calls[1..], Rest(outcomes));
      var n := Attempted(calls[1..], Rest(outcomes));
      assert forall k :: 0 <= k < |outcomes| - 1 ==> Rest(outcomes)[k] == outcomes[k + 1];
      if n > 0 {
        assert Drop(Rest(outcomes), n - 1) == Drop(outcomes, n);
      }
      if AllSucceed(outcomes, |calls|) {
        assert AllSucceed(Rest(outcomes), |calls| - 1);
      }
    }
  }

  lemma {:induction false} AttemptedAllOk(calls: seq<Invocation>, outcomes: seq<bool>, m: nat)
    requires m < |calls| && AllSucceed(outcomes, m)
    ensures First(Drop(outcomes, m)) ==> AllSucceed(outcomes, m + 1)
    ensures !First(Drop(outcomes, m)) ==> Attempted(calls, outcomes) == m + 1 && !AllSucceed(outcomes, |calls|)
    decreases m
  {
    DropStep(outcomes, m);
    if m > 0 {
      assert First(outcomes);
      assert AllSucceed(Rest(outcomes), m - 1);
      assert Drop(Rest(outcomes), m - 1) == Drop(outcomes, m);
      AttemptedAllOk(calls[1..], Rest(outcomes), m - 1);
      if First(Drop(outcomes, m)) {
        assert forall k :: 0 <= k < m ==> Rest(outcomes)[k] == outcomes[k + 1];
      }
    }
  }

  lemma {:induction false} AttemptedAll(calls: seq<Invocation>, outcomes: seq<bool>)
    requires AllSucceed(outcomes, |calls|)
    ensures Attempted(calls, outcomes) == |calls|
    decreases |calls|
  {
    if calls != [] {
      assert AllSucceed(Rest(outcomes), |calls| - 1);
      AttemptedAll(calls[1..], Rest(outcomes));
    }
  }

  /* ---------------------------------------------------------------------- */
  /* Node derivations                                                        */
  /* ---------------------------------------------------------------------- */

  /** `format!("node_{}_{}", datacenter_id, node_id)`. */
  function NodeName(datacenterId: int, nodeId: int): string
  {
    "node_" + IntToString(datacenterId) + "_" + IntToString(nodeId)
  }

  /** A decimal integer has no character but digits and a minus sign. */
  lemma NumeralChars(i: int)
    ensures forall k :: 0 <= k < |IntToString(i)| ==> IntToString(i)[k] == '-' || IsDigit(IntToString(i)[k])
  {
    var s := IntToString(i);
    if i >= 0 {
      assert s == NatToString(i);
    } else {
      assert s == "-" + NatToString(-i);
      forall k | 1 <= k < |s| ensures IsDigit(s[k]) {
        assert s[k] == NatToString(-i)[k - 1];
      }
    }
  }

  /** Distinct nodes have distinct names. */
  lemma NodeNameInjective(dc: int, id: int, dc2: int, id2: int)
    requires NodeName(dc, id) == NodeName(dc2, id2)
    ensures dc == dc2 && id == id2
  {
    var a, b := IntToString(dc), IntToString(id);
    var a2, b2 := IntToString(dc2), IntToString(id2);
    NumeralChars(dc);
    NumeralChars(dc2);
    NameCut(a, b, a2, b2);
    IntToStringInjective(dc, dc2);
    IntToStringInjective(id, id2);
  }

  lemma NameCut(a: string, b: string, a2: string, b2: string)
    requires '_' !in a && '_' !in a2
    requires "node_" + a + "_" + b == "node_" + a2 + "_" + b2
    ensures a == a2 && b == b2
  {
    assert a + "_" + b == ("node_" + a + "_" + b)[5..];
    assert a2 + "_" + b2 == ("node_" + a2 + "_" + b2)[5..];
    CutAtFirst(a, b, a2, b2, '_');
  }

  const DEFAULT_MEMORY := 512
  const DEFAULT_SMP := 1
  /** The config a node gets while the cluster has no default node config.
      `add_node` asks for `ScyllaConfig`'s default value, but the type
      defines none; the empty value `Null` is an assumption of this model. */
  const UNSET_NODE_CONFIG := ClusterConfig.Null

  /** The memory of a node: the given value unless it is zero, then 512 MB
      per core. */
  function NodeMemory(memory: int, smp: int): (r: int)
    ensures memory != 0 ==> r == memory
    ensures memory == 0 ==> r == DEFAULT_MEMORY * smp
  {
    if memory != 0 then memory else 512 * smp
  }

  function JmxPort(datacenterId: int, nodeId: int): int
  {
    7000 + datacenterId * 100 + nodeId
  }

  function DebugPort(datacenterId: int, nodeId: int): int
  {
    2000 + datacenterId * 100 + nodeId
  }

  /** The two ports of a node are 5000 apart. */
  lemma PortsApart(datacenterId: int, nodeId: int)
    ensures JmxPort(datacenterId, nodeId) == DebugPort(datacenterId, nodeId) + 5000
  {
  }

  /** With ids below 100 and non-negative datacenters, no two nodes share a
      port. */
  lemma PortsDistinctBelow100(dc: int, id: int, dc2: int, id2: int)
    requires 0 <= id < 100 && 0 <= id2 < 100
    requires JmxPort(dc, id) == JmxPort(dc2, id2)
    ensures dc == dc2 && id == id2
  {
  }

  /** Beyond id 99 ports collide across datacenters: node 101 of
      datacenter 1 and node 1 of datacenter 2 get the same ports. */
  lemma PortsCollide(dc: int, id: int)
    ensures JmxPort(dc, id + 100) == JmxPort(dc + 1, id)
    ensures DebugPort(dc, id + 100) == DebugPort(dc + 1, id)
  {
  }

  /** The `SCYLLA_EXT_OPTS` value: `--smp=<smp> --memory=<memory>M`. */
  function ExtOpts(smp: int, memory: int): string
  {
    "--smp=" + IntToString(smp) + " --memory=" + IntToString(memory) + "M"
  }

  /** `get_ccm_env`: the one-entry environment of every node call. */
  function CcmEnv(smp: int, memory: int): seq<(string, string)>
  {
    [("SCYLLA_EXT_OPTS", ExtOpts(smp, memory))]
  }

  /** The option value gives back the core count and the memory. */
  lemma ExtOptsInjective(smp: int, memory: int, smp2: int, memory2: int)
    requires ExtOpts(smp, memory) == ExtOpts(smp2, memory2)
    ensures smp == smp2 && memory == memory2
  {
    var a, b := IntToString(smp), IntToString(memory);
    var a2, b2 := IntToString(smp2), IntToString(memory2);
    NumeralChars(smp);
    NumeralChars(smp2);
    ExtOptsCut(a, b, a2, b2);
    IntToStringInjective(smp, smp2);
    IntToStringInjective(memory, memory2);
  }

  lemma ExtOptsCut(a: string, b: string, a2: string, b2: string)
    requires ' ' !in a && ' ' !in a2
    requires "--smp=" + a + " --memory=" + b + "M" == "--smp=" + a2 + " --memory=" + b2 + "M"
    ensures a == a2 && b == b2
  {
    assert " --memory=" == [' '] + "--memory=";
    assert "--smp=" + a + " --memory=" + b + "M" == "--smp=" + a + [' '] + "--memory=" + b + "M";
    assert "--smp=" + a2 + " --memory=" + b2 + "M" == "--smp=" + a2 + [' '] + "--memory=" + b2 + "M";
    FramedCut("--smp=", a, ' ', "--memory=", b, "M", a2, b2);
  }

  /** Two strings of the shape `p a c q b r`, with `c` absent from `a`, agree
      on `a` and `b` when they are equal. */
  lemma FramedCut(p: string, a: string, c: char, q: string, b: string, r: string, a2: string, b2: string)
    requires c !in a && c !in a2
    requires p + a + [c] + q + b + r == p + a2 + [c] + q + b2 + r
    ensures a == a2 && b == b2
  {
    var s := p + a + [c] + q + b + r;
    assert s[|p|..] == a + [c] + (q + b + r);
    assert s[|p|..] == a2 + [c] + (q + b2 + r);
    CutAtFirst(a, q + b + r, a2, q + b2 + r, c);
    var t := q + b + r;
    assert b == t[|q|..|t| - |r|];
    assert b2 == (q + b2 + r)[|q|..|t| - |r|];
  }

  /** The arguments of `ccm add` for a node. */
  function AddArgs(name: string, datacenterId: int, nodeId: int, installDirectory: string, scylla: bool): (args: seq<string>)
    ensures |args| == (if scylla then 11 else 10)
    ensures args[1] == name && args[9] == installDirectory
    ensures scylla ==> args[10] == "--scylla"
  {
    ["add", name, "--data-center", "dc" + IntToString(datacenterId),
     "--jmx-port", IntToString(JmxPort(datacenterId, nodeId)),
     "--remote-debug-port", IntToString(DebugPort(datacenterId, nodeId)),
     "--config-dir", installDirectory]
    + (if scylla then ["--scylla"] else [])
  }

  /** The flag each start option adds. */
  function StartFlag(opt: NodeStartOption): string
  {
    match opt
    case NoWait => "--no-wait"
    case WaitOtherNotice => "--wait-other-notice"
    case WaitForBinaryProto => "--wait-for-binary-proto"
  }

  lemma StartFlagInjective(x: NodeStartOption, y: NodeStartOption)
    requires StartFlag(x) == StartFlag(y)
    ensures x == y
  {
  }

  function StartFlags(opts: seq<NodeStartOption>): (flags: seq<string>)
    ensures |flags| == |opts|
  {
    seq(|opts|, k requires 0 <= k < |opts| => StartFlag(opts[k]))
  }

  /** The start flags give back the options, in order. */
  lemma StartFlagsInjective(opts: seq<NodeStartOption>, opts2: seq<NodeStartOption>)
    requires StartFlags(opts) == StartFlags(opts2)
    ensures opts == opts2
  {
    forall k | 0 <= k < |opts| ensures opts[k] == opts2[k] {
      assert StartFlags(opts)[k] == StartFlags(opts2)[k];
      StartFlagInjective(opts[k], opts2[k]);
    }
  }

  /** The arguments of `ccm start` for a node: the fixed four, then one flag
      per option in the caller's order. */
  method StartArgs(name: string, installDirectory: string, opts: Option<seq<NodeStartOption>>) returns (args: seq<string>)
    ensures args == ["start", name, "--config-dir", installDirectory] + StartFlags(opts.GetOr([]))
  {
    args := ["start", name, "--config-dir", installDirectory];
    var options := opts.GetOr([]);
    for i := 0 to |options|
      invariant args == ["start", name, "--config-dir", installDirectory] + StartFlags(options[..i])
    {
      match options[i] {
        case NoWait => args := args + ["--no-wait"];
        case WaitOtherNotice => args := args + ["--wait-other-notice"];
        case WaitForBinaryProto => args := args + ["--wait-for-binary-proto"];
      }
      assert StartFlags(options[..i + 1]) == StartFlags(options[..i]) + [StartFlag(options[i])];
    }
    assert options[..|options|] == options;
  }

  function StartCall(name: string, installDirectory: string, opts: Option<seq<NodeStartOption>>, smp: int, memory: int): Invocation
  {
    Invocation("ccm", ["start", name, "--config-dir", installDirectory] + StartFlags(opts.GetOr([])), CcmEnv(smp, memory))
  }

  /* ---------------------------------------------------------------------- */
  /* Nodes                                                                   */
  /* ---------------------------------------------------------------------- */

  class Node {
    const name: string
    const datacenterId: int
    const nodeId: int
    var status: NodeStatus
    const scylla: bool
    const smp: int
    const memory: int
    const config: ScyllaConfig
    const runner: CcmRunner
    const installDirectory: string

    /** `Node::new`: the name and the memory are derived, the node starts
        active. */
    constructor (datacenterId: int, nodeId: int, scylla: bool, smp: int, memory: int,
                 config: ScyllaConfig, runner: CcmRunner, installDirectory: string)
      ensures this.name == NodeName(datacenterId, nodeId)
      ensures this.datacenterId == datacenterId && this.nodeId == nodeId
      ensures status == Active
      ensures this.scylla == scylla && this.smp == smp && this.memory == NodeMemory(memory, smp)
      ensures this.config == config && this.runner == runner && this.installDirectory == installDirectory
    {
      name := NodeName(datacenterId, nodeId);
      this.datacenterId := datacenterId;
      this.nodeId := nodeId;
      status := Active;
      this.scylla := scylla;
      this.smp := smp;
      this.memory := if memory != 0 then memory else DEFAULT_MEMORY * smp;
      this.config := config;
      this.runner := runner;
      this.installDirectory := installDirectory;
    }

    function AddCall(): Invocation
    {
      Invocation("ccm", AddArgs(name, datacenterId, nodeId, installDirectory, scylla), CcmEnv(smp, memory))
    }

    /** `Node::init`: one `ccm add` with the node's environment. */
    method Init() returns (ok: bool)
      modifies runner
      ensures runner.trace == old(runner.trace) + [AddCall()]
      ensures ok == First(old(runner.outcomes)) && runner.outcomes == Rest(old(runner.outcomes))
    {
      var datacenter := "dc" + IntToString(datacenterId);
      var jmxPort := IntToString(JmxPort(datacenterId, nodeId));
      var debugPort := IntToString(DebugPort(datacenterId, nodeId));
      var args := ["add", name, "--data-center", datacenter, "--jmx-port", jmxPort,
                   "--remote-debug-port", debugPort, "--config-dir", installDirectory];
      if scylla {
        args := args + ["--scylla"];
      }
      assert args == AddArgs(name, datacenterId, nodeId, installDirectory, scylla);
      ok := runner.Run("ccm", args, CcmEnv(smp, memory));
    }

    /** `Node::start`: one `ccm start` with the flags of the options. */
    method Start(opts: Option<seq<NodeStartOption>>) returns (ok: bool)
      modifies runner
      ensures runner.trace == old(runner.trace) + [StartCall(name, installDirectory, opts, smp, memory)]
      ensures ok == First(old(runner.outcomes)) && runner.outcomes == Rest(old(runner.outcomes))
    {
      var args := StartArgs(name, installDirectory, opts);
      ok := runner.Run("ccm", args, CcmEnv(smp, memory));
    }

    /** `Node::delete`: one `ccm remove`; the node is marked deleted only when
        the call succeeds. */
    method Delete() returns (ok: bool)
      modifies this, runner
      ensures runner.trace == old(runner.trace) + [Invocation("ccm", ["remove", name], [])]
      ensures ok == First(old(runner.outcomes)) && runner.outcomes == Rest(old(runner.outcomes))
      ensures status == if ok then Deleted else old(status)
    {
      ok := runner.Run("ccm", ["remove", name], []);
      if ok {
        status := Deleted;
      }
    }

    /** `Node::mark_deleted`: only the status changes, and no command runs. */
    method MarkDeleted()
      modifies this
      ensures status == Deleted
    {
      status := Deleted;
    }
  }

  /* ---------------------------------------------------------------------- */
  /* Node ids                                                                */
  /* ---------------------------------------------------------------------- */

  /** The least id in 1..255 from `i` on that `held` lacks, or the sentinel
      256. */
  function LeastFreeFrom(held: set<int>, i: int): (r: int)
    requires 1 <= i <= 256
    ensures i <= r <= 256
    decreases 256 - i
  {
    if i == 256 then 256 else if i !in held then i else LeastFreeFrom(held, i + 1)
  }

  function LeastFree(held: set<int>): int
  {
    LeastFreeFrom(held, 1)
  }

  /** What `get_free_node_id` promises: the least free id in 1..255, and
      256 exactly when all of them are held. */
  predicate IsLeastFree(held: set<int>, r: int)
  {
    && 1 <= r <= 256
    && (r <= 255 ==> r !in held)
    && (forall i :: 1 <= i < r && i <= 255 ==> i in held)
  }

  lemma {:induction false} LeastFreeFromSpec(held: set<int>, i: int)
    requires 1 <= i <= 256
    requires forall j :: 1 <= j < i ==> j in held
    ensures IsLeastFree(held, LeastFreeFrom(held, i))
    decreases 256 - i
  {
    if i < 256 && i in held {
      LeastFreeFromSpec(held, i + 1);
    }
  }

  /** `LeastFree` is the least free id, and the only one. */
  lemma LeastFreeSpec(held: set<int>, r: int)
    ensures IsLeastFree(held, LeastFree(held))
    ensures IsLeastFree(held, r) ==> r == LeastFree(held)
  {
    LeastFreeFromSpec(held, 1);
  }

  /** Ids 1, 2 and 4 held: the next is 3. */
  lemma LeastFreeExample()
    ensures LeastFree({1, 2, 4}) == 3
  {
  }

  /** The (datacenter, id) pairs of a run of nodes. */
  function NodeIds(nodes: seq<Node>): (ps: seq<(int, int)>)
    ensures |ps| == |nodes|
  {
    seq(|nodes|, k requires 0 <= k < |nodes| => (nodes[k].datacenterId, nodes[k].nodeId))
  }

  /** The ids held in datacenter `dc`. */
  function IdsIn(ps: seq<(int, int)>, dc: int): set<int>
  {
    set k | 0 <= k < |ps| && ps[k].0 == dc :: ps[k].1
  }

  /* ---------------------------------------------------------------------- */
  /* sniff_ip_prefix                                                         */
  /* ---------------------------------------------------------------------- */

  /** `format!("{}.{}.{}.", a, b, c)`. */
  function Dotted(a: nat, b: nat, c: nat): string
  {
    NatToString(a) + "." + NatToString(b) + "." + NatToString(c) + "."
  }

  /** The /24 prefix of a little-endian u32 address. */
  function NetPrefix(v: nat): string
  {
    Dotted(IpRange.Octet0(v) as nat, IpRange.Octet1(v) as nat, IpRange.Octet2(v) as nat)
  }

  /** What the address field of a table line yields: the part before the
      first ':' (the whole field when there is none), read as a u32 in hex. */
  function FieldPrefix(field: string): Option<string>
  {
    match ParseHexU32(Split(field, ':')[0])
    case Some(v) => Some(NetPrefix(v))
    case None => None
  }

  /** A line contributes the prefix of its second whitespace-separated field,
      when that decodes. Unlike the free-range search, no line is skipped and
      the field may have any number of colons. */
  function LinePrefix(line: string): Option<string>
  {
    var parts := SplitWhitespace(line);
    if |parts| > 1 then FieldPrefix(parts[1]) else None
  }

  function LineUsed(line: string): set<string>
  {
    match LinePrefix(line)
    case Some(p) => {p}
    case None => {}
  }

  function UsedPrefixes(lines: seq<string>): set<string>
  {
    if lines == [] then {} else UsedPrefixes(lines[..|lines| - 1]) + LineUsed(lines[|lines| - 1])
  }

  lemma UsedPrefixesStep(lines: seq<string>, i: nat)
    requires i < |lines|
    ensures UsedPrefixes(lines[..i + 1]) == UsedPrefixes(lines[..i]) + LineUsed(lines[i])
  {
    assert lines[..i + 1][..i] == lines[..i];
  }

  /** `format!("127.{}.{}.", a, b)`. */
  function CandidatePrefix(a: nat, b: nat): string
  {
    "127." + NatToString(a) + "." + NatToString(b) + "."
  }

  lemma HexHasNoColon(v: nat)
    ensures ':' !in HexDigits(v, 8)
  {
    var hex := HexDigits(v, 8);
    forall k | 0 <= k < |hex| ensures hex[k] != ':' {
      assert HexDigitValue(hex[k]).Some?;
    }
  }

  lemma SplitHead(x: string, y: string, c: char)
    requires c !in x
    ensures Split(x + [c] + y, c)[0] == x
  {
    IndexOfAfter(x, c, y);
    assert (x + [c] + y)[..|x|] == x;
  }

  lemma FieldOfHex(hex: string, port: string, v: nat)
    requires ':' !in hex && ParseHexU32(hex) == Some(v)
    ensures FieldPrefix(hex + ":" + port) == Some(NetPrefix(v))
  {
    SplitHead(hex, port, ':');
    assert hex + ":" + port == hex + [':'] + port;
  }

  /** A table entry, eight hex digits, a colon and the port, yields the /24
      of its address. */
  lemma FieldOfEntry(a: IpRange.u8, b: IpRange.u8, c: IpRange.u8, d: IpRange.u8, port: string)
    ensures FieldPrefix(HexDigits(IpRange.Pack(a, b, c, d), 8) + ":" + port) == Some(Dotted(a as nat, b as nat, c as nat))
  {
    var v := IpRange.Pack(a, b, c, d);
    HexHasNoColon(v);
    ParseHexU32OfHexDigits(v);
    FieldOfHex(HexDigits(v, 8), port, v);
    IpRange.OctetsOfPack(a, b, c, d);
  }

  /** Unlike the free-range search, the sniffer also reads an address with no
      port: where that search rejects the field, the sniffer uses it. */
  lemma FieldWithoutPort(a: IpRange.u8, b: IpRange.u8, c: IpRange.u8, d: IpRange.u8)
    ensures FieldPrefix(HexDigits(IpRange.Pack(a, b, c, d), 8)) == Some(Dotted(a as nat, b as nat, c as nat))
    ensures IpRange.IpStrToNet(HexDigits(IpRange.Pack(a, b, c, d), 8)) == None
  {
    var v := IpRange.Pack(a, b, c, d);
    HexHasNoColon(v);
    IndexOfAbsent(HexDigits(v, 8), ':');
    CountAbsent(HexDigits(v, 8), ':');
    IpRange.IpStrToNetNeedsOneColon(HexDigits(v, 8));
    ParseHexU32OfHexDigits(v);
    IpRange.OctetsOfPack(a, b, c, d);
  }

  lemma CandidateIsDotted(a: nat, b: nat)
    ensures Dotted(127, a, b) == CandidatePrefix(a, b)
  {
    assert NatToString(127) == "127";
  }

  /** A loopback entry `127.a.b.d` makes the candidate `127.a.b.` used. */
  lemma LoopbackEntryUsesCandidate(a: IpRange.u8, b: IpRange.u8, d: IpRange.u8, port: string)
    ensures FieldPrefix(HexDigits(IpRange.Pack(127, a, b, d), 8) + ":" + port) == Some(CandidatePrefix(a as nat, b as nat))
  {
    FieldOfEntry(127, a, b, d, port);
    CandidateIsDotted(a as nat, b as nat);
  }

  const CANDIDATES := 255 * 255

  /** The `m`-th candidate of the scan, `a` outer and `b` inner, both from 1. */
  function CandidateAt(m: nat): string
  {
    CandidatePrefix(m / 255 + 1, m % 255 + 1)
  }

  /** The index of the first candidate from `m` on that `used` lacks, or
      `CANDIDATES` when there is none. */
  function FreeIndex(used: set<string>, m: nat): (i: nat)
    requires m <= CANDIDATES
    ensures m <= i <= CANDIDATES
    decreases CANDIDATES - m
  {
    if m == CANDIDATES then CANDIDATES
    else if CandidateAt(m) !in used then m
    else FreeIndex(used, m + 1)
  }

  /** The first candidate of the scan that `used` lacks. */
  function FirstFree(used: set<string>): Option<string>
  {
    var i := FreeIndex(used, 0);
    if i < CANDIDATES then Some(CandidateAt(i)) else None
  }

  datatype SniffError = CannotRead | NoFreePrefix

  /** The prefix `sniff_ip_prefix` picks from the content of the kernel's
      TCP table (None when it cannot be read). */
  function Sniffed(content: Option<string>): Result<string, SniffError>
  {
    match content
    case None => Err(CannotRead)
    case Some(c) =>
      match FirstFree(UsedPrefixes(Lines(c)))
      case Some(p) => Ok(p)
      case None => Err(NoFreePrefix)
  }

  lemma CandidateIndex(a: nat, b: nat)
    requires 1 <= a <= 255 && 1 <= b <= 255
    ensures CandidateAt((a - 1) * 255 + (b - 1)) == CandidatePrefix(a, b)
  {
    var m := (a - 1) * 255 + (b - 1);
    assert m / 255 == a - 1 && m % 255 == b - 1;
  }

  lemma {:induction false} FreeIndexSpec(used: set<string>, m: nat)
    requires m <= CANDIDATES
    ensures FreeIndex(used, m) < CANDIDATES ==> CandidateAt(FreeIndex(used, m)) !in used
    ensures forall k :: m <= k < FreeIndex(used, m) ==> CandidateAt(k) in used
    decreases CANDIDATES - m
  {
    if m < CANDIDATES && CandidateAt(m) in used {
      var i := FreeIndex(used, m + 1);
      assert FreeIndex(used, m) == i;
      FreeIndexSpec(used, m + 1);
    }
  }

  /** An index with every earlier candidate used, and its own unused unless
      it is the end, is the one the scan finds. */
  lemma FreeIndexIs(used: set<string>, i: nat)
    requires i <= CANDIDATES
    requires i < CANDIDATES ==> CandidateAt(i) !in used
    requires forall k :: 0 <= k < i ==> CandidateAt(k) in used
    ensures FreeIndex(used, 0) == i
  {
    FreeIndexSpec(used, 0);
  }

  /** The scan order on candidate pairs. */
  predicate Before(a: nat, b: nat, a2: nat, b2: nat)
  {
    a < a2 || (a == a2 && b < b2)
  }

  predicate InScan(a: nat, b: nat)
  {
    1 <= a <= 255 && 1 <= b <= 255
  }

  /** The first unused candidate in pair form is the one the scan finds. */
  lemma FirstFreeAt(used: set<string>, a: nat, b: nat)
    requires InScan(a, b) && CandidatePrefix(a, b) !in used
    requires forall a2: nat, b2: nat :: InScan(a2, b2) && Before(a2, b2, a, b) ==> CandidatePrefix(a2, b2) in used
    ensures FirstFree(used) == Some(CandidatePrefix(a, b))
  {
    var m := (a - 1) * 255 + (b - 1);
    CandidateIndex(a, b);
    forall k | 0 <= k < m ensures CandidateAt(k) in used {
      var a2, b2 := k / 255 + 1, k % 255 + 1;
      assert InScan(a2, b2) && Before(a2, b2, a, b);
    }
    FreeIndexIs(used, m);
  }

  lemma NoneFree(used: set<string>)
    requires forall a: nat, b: nat :: InScan(a, b) ==> CandidatePrefix(a, b) in used
    ensures FirstFree(used) == None
  {
    forall k | 0 <= k < CANDIDATES ensures CandidateAt(k) in used {
      assert InScan(k / 255 + 1, k % 255 + 1);
    }
    FreeIndexIs(used, CANDIDATES);
  }

  /** The scan, in pair form: it finds the first unused `127.a.b.` in scan
      order ... */
  lemma FirstFreeSome(used: set<string>)
    requires FirstFree(used).Some?
    ensures exists a: nat, b: nat ::
              && InScan(a, b) && FirstFree(used).value == CandidatePrefix(a, b) && CandidatePrefix(a, b) !in used
              && forall a2: nat, b2: nat :: InScan(a2, b2) && Before(a2, b2, a, b) ==> CandidatePrefix(a2, b2) in used
  {
    FreeIndexSpec(used, 0);
    var m := FreeIndex(used, 0);
    var a, b := m / 255 + 1, m % 255 + 1;
    assert (a - 1) * 255 + (b - 1) == m;
    CandidateIndex(a, b);
    forall a2: nat, b2: nat | InScan(a2, b2) && Before(a2, b2, a, b) ensures CandidatePrefix(a2, b2) in used {
      CandidateIndex(a2, b2);
    }
    assert InScan(a, b) && CandidatePrefix(a, b) !in used;
  }

  /** ... and finds nothing exactly when every candidate is used. */
  lemma FirstFreeNone(used: set<string>)
    ensures FirstFree(used).None? <==> forall a: nat, b: nat :: InScan(a, b) ==> CandidatePrefix(a, b) in used
  {
    if forall a: nat, b: nat :: InScan(a, b) ==> CandidatePrefix(a, b) in used {
      NoneFree(used);
    }
    if FirstFree(used).None? {
      FreeIndexSpec(used, 0);
      forall a: nat, b: nat | InScan(a, b) ensures CandidatePrefix(a, b) in used {
        CandidateIndex(a, b);
      }
    }
  }

  /** `sniff_ip_prefix` returns the first `127.a.b.`, `a` then `b` over
      1..255, that no line of the table uses, and fails when the table cannot
      be read or every candidate is used. */
  lemma SniffedSpec(content: Option<string>)
    ensures Sniffed(content).Ok? ==> (content.Some? &&
      var used := UsedPrefixes(Lines(content.value));
      exists a: nat, b: nat :: InScan(a, b) && Sniffed(content).value == CandidatePrefix(a, b) && CandidatePrefix(a, b) !in used
        && forall a2: nat, b2: nat :: InScan(a2, b2) && Before(a2, b2, a, b) ==> CandidatePrefix(a2, b2) in used)
    ensures Sniffed(content) == Err(NoFreePrefix) <==> (content.Some? &&
      var used := UsedPrefixes(Lines(content.value));
      forall a: nat, b: nat :: InScan(a, b) ==> CandidatePrefix(a, b) in used)
    ensures Sniffed(content) == Err(CannotRead) <==> content.None?
  {
    if content.Some? {
      var used := UsedPrefixes(Lines(content.value));
      FirstFreeNone(used);
      if FirstFree(used).Some? {
        FirstFreeSome(used);
      }
    }
  }

  /** The loop of `sniff_ip_prefix` over the table's lines. */
  method CollectUsedPrefixes(lines: seq<string>) returns (used: set<string>)
    ensures used == UsedPrefixes(lines)
  {
    used := {};
    for i := 0 to |lines|
      invariant used == UsedPrefixes(lines[..i])
    {
      ghost var before := used;
      var parts := SplitWhitespace(lines[i]);
      if |parts| > 1 {
        var ipPort := Split(parts[1], ':');
        var ip := ParseHexU32(ipPort[0]);
        if ip.Some? {
          used := used + {NetPrefix(ip.value)};
        }
      }
      assert used == before + LineUsed(lines[i]);
      UsedPrefixesStep(lines, i);
    }
    assert lines[..|lines|] == lines;
  }

  /** The scan of `sniff_ip_prefix` over the candidates. */
  method ScanCandidates(used: set<string>) returns (r: Option<string>)
    ensures r == FirstFree(used)
  {
    for a := 1 to 256
      invariant forall a2: nat, b2: nat :: InScan(a2, b2) && a2 < a ==> CandidatePrefix(a2, b2) in used
    {
      for b := 1 to 256
        invariant forall a2: nat, b2: nat :: InScan(a2, b2) && Before(a2, b2, a, b) ==> CandidatePrefix(a2, b2) in used
      {
        var prefix := CandidatePrefix(a, b);
        if prefix !in used {
          FirstFreeAt(used, a, b);
          return Some(prefix);
        }
      }
    }
    NoneFree(used);
    return None;
  }

  /** `sniff_ip_prefix`. */
  method SniffIpPrefix(content: Option<string>) returns (r: Result<string, SniffError>)
    ensures r == Sniffed(content)
  {
    if content.None? {
      return Err(CannotRead);
    }
    var used := CollectUsedPrefixes(Lines(content.value));
    var prefix := ScanCandidates(used);
    if prefix.None? {
      return Err(NoFreePrefix);
    }
    return Ok(prefix.value);
  }

  /* ---------------------------------------------------------------------- */
  /* Node-id allocation at construction                                      */
  /* ---------------------------------------------------------------------- */

  /** Ids 1..`j`, capped at the sentinel 256. */
  function RunSet(j: int): (r: set<int>)
    ensures forall i :: i in r <==> 1 <= i <= j && i <= 256
    decreases j
  {
    if j <= 0 then {} else RunSet(j - 1) + {if j <= 256 then j else 256}
  }

  /** The (datacenter, id) pairs that `count` consecutive `add_node(Some(dc))`
      calls give a datacenter that holds nothing yet: ids 1, 2, ... and, once
      1..255 are taken, the sentinel 256 again and again. A count of zero or
      less adds nothing. */
  function DcRun(dc: int, count: int): (r: seq<(int, int)>)
    ensures |r| == if count > 0 then count else 0
  {
    seq(if count > 0 then count else 0, k => (dc, if k < 256 then k + 1 else 256))
  }

  /** The pairs `Cluster::new` creates for `counts`: datacenter `d` (from 1)
      gets `counts[d - 1]` nodes, datacenter by datacenter. */
  function Allocation(counts: seq<int>): (r: seq<(int, int)>)
    ensures forall k :: 0 <= k < |r| ==> 1 <= r[k].0 <= |counts| && 1 <= r[k].1 <= 256
  {
    if counts == [] then [] else Allocation(counts[..|counts| - 1]) + DcRun(|counts|, counts[|counts| - 1])
  }

  /** Below the sentinel, no two nodes of one datacenter share an id. */
  predicate UniqueBelowSentinel(ps: seq<(int, int)>)
  {
    forall i, j :: 0 <= i < j < |ps| && ps[i] == ps[j] ==> ps[i].1 == 256
  }

  lemma IdsInAppend(a: seq<(int, int)>, b: seq<(int, int)>, dc: int)
    ensures IdsIn(a + b, dc) == IdsIn(a, dc) + IdsIn(b, dc)
  {
    var ab := a + b;
    forall x | x in IdsIn(ab, dc) ensures x in IdsIn(a, dc) + IdsIn(b, dc) {
      var k :| 0 <= k < |ab| && ab[k].0 == dc && ab[k].1 == x;
      if k >= |a| {
        assert b[k - |a|] == ab[k];
      }
    }
    forall x | x in IdsIn(a, dc) ensures x in IdsIn(ab, dc) {
      var k :| 0 <= k < |a| && a[k].0 == dc && a[k].1 == x;
      assert ab[k] == a[k];
    }
    forall x | x in IdsIn(b, dc) ensures x in IdsIn(ab, dc) {
      var k :| 0 <= k < |b| && b[k].0 == dc && b[k].1 == x;
      assert ab[k + |a|] == b[k];
    }
  }

  lemma IdOfHeld(ps: seq<(int, int)>, k: nat)
    requires k < |ps|
    ensures ps[k].1 in IdsIn(ps, ps[k].0)
  {
  }

  /** A pair whose id the datacenter does not hold yet, or the sentinel, keeps
      the ids unique. */
  lemma UniqueSnoc(ps: seq<(int, int)>, p: (int, int))
    requires UniqueBelowSentinel(ps)
    requires p.1 == 256 || p.1 !in IdsIn(ps, p.0)
    ensures UniqueBelowSentinel(ps + [p])
  {
    var all := ps + [p];
    forall i, j | 0 <= i < j < |all| ensures all[i] == all[j] ==> all[i].1 == 256 {
      if j < |ps| {
        assert all[i] == ps[i] && all[j] == ps[j];
      } else {
        IdOfHeld(ps, i);
        assert all[i] == ps[i] && all[j] == p;
      }
    }
  }

  lemma IdsInRun(dc: int, count: int)
    ensures IdsIn(DcRun(dc, count), dc) == RunSet(count)
  {
    var run := DcRun(dc, count);
    forall i | i in RunSet(count) ensures i in IdsIn(run, dc) {
      assert run[i - 1] == (dc, i);
    }
  }

  lemma IdsInOtherDc(ps: seq<(int, int)>, dc: int)
    requires forall k :: 0 <= k < |ps| ==> ps[k].0 < dc
    ensures IdsIn(ps, dc) == {}
  {
  }

  /** `count` nodes added to an empty datacenter take the ids 1..`count`,
      capped at the sentinel. */
  lemma LeastFreeOfRun(j: nat)
    ensures LeastFree(RunSet(j)) == if j < 256 then j + 1 else 256
  {
    var r := if j < 256 then j + 1 else 256;
    assert IsLeastFree(RunSet(j), r);
    LeastFreeSpec(RunSet(j), r);
  }

  lemma DcRunStep(dc: int, j: nat)
    ensures DcRun(dc, j) + [(dc, if j < 256 then j + 1 else 256)] == DcRun(dc, j + 1)
  {
  }

  /** Datacenter `d` of an allocation holds the ids 1..`counts[d - 1]`, capped
      at the sentinel; the datacenters past the list hold nothing. */
  lemma {:induction false} AllocationIds(counts: seq<int>, d: int)
    ensures 1 <= d <= |counts| ==> IdsIn(Allocation(counts), d) == RunSet(counts[d - 1])
    ensures (d < 1 || d > |counts|) ==> IdsIn(Allocation(counts), d) == {}
    decreases |counts|
  {
    if counts != [] {
      var init := counts[..|counts| - 1];
      AllocationIds(init, d);
      IdsInAppend(Allocation(init), DcRun(|counts|, counts[|counts| - 1]), d);
      if d == |counts| {
        IdsInOtherDc(Allocation(init), d);
        IdsInRun(d, counts[|counts| - 1]);
      } else {
        assert IdsIn(DcRun(|counts|, counts[|counts| - 1]), d) == {};
        if 1 <= d < |counts| {
          assert init[d - 1] == counts[d - 1];
        }
      }
    }
  }

  lemma AllocationStep(counts: seq<int>, d: nat)
    requires d < |counts|
    ensures Allocation(counts[..d + 1]) == Allocation(counts[..d]) + DcRun(d + 1, counts[d])
  {
    assert counts[..d + 1][..d] == counts[..d];
  }

  lemma AllocationAll(counts: seq<int>)
    ensures Allocation(counts[..|counts|]) == Allocation(counts)
  {
    assert counts[..|counts|] == counts;
  }

  lemma DcRunUnique(dc: int, count: int)
    ensures UniqueBelowSentinel(DcRun(dc, count))
  {
  }

  /** No two nodes `Cluster::new` creates share a datacenter and an id below
      the sentinel. */
  lemma {:induction false} AllocationUnique(counts: seq<int>)
    ensures UniqueBelowSentinel(Allocation(counts))
    decreases |counts|
  {
    if counts != [] {
      var init := Allocation(counts[..|counts| - 1]);
      var run := DcRun(|counts|, counts[|counts| - 1]);
      AllocationUnique(counts[..|counts| - 1]);
      DcRunUnique(|counts|, counts[|counts| - 1]);
      var all := init + run;
      forall i, j | 0 <= i < j < |all| ensures all[i] == all[j] ==> all[i].1 == 256 {
        if j < |init| {
          assert all[i] == init[i] && all[j] == init[j];
        } else if i >= |init| {
          assert all[i] == run[i - |init|] && all[j] == run[j - |init|];
        } else {
          assert all[i].0 < |counts| && all[j].0 == |counts|;
        }
      }
    }
  }

  /** `format!("{}.", prefix)` unless it already ends with a dot. */
  function NormalizePrefix(prefix: string): (r: string)
    ensures EndsWith(r, ".")
    ensures |prefix| <= |r| <= |prefix| + 1 && r[..|prefix|] == prefix
  {
    if EndsWith(prefix, ".") then prefix else prefix + "."
  }

  /** Normalizing twice is normalizing once; a prefix ending with a dot is
      kept. */
  lemma NormalizePrefixIdempotent(prefix: string)
    ensures NormalizePrefix(NormalizePrefix(prefix)) == NormalizePrefix(prefix)
    ensures EndsWith(prefix, ".") ==> NormalizePrefix(prefix) == prefix
  {
  }

  /** The prefix `Cluster::new` settles on: the caller's, or a sniffed one. */
  function ResolvePrefix(ipPrefix: Option<string>, tcpTable: Option<string>): (r: Result<string, SniffError>)
    ensures r.Ok? ==> EndsWith(r.value, ".")
    ensures ipPrefix.Some? ==> r == Ok(NormalizePrefix(ipPrefix.value))
    ensures ipPrefix.None? ==> (r.Ok? <==> Sniffed(tcpTable).Ok?)
    ensures ipPrefix.None? && Sniffed(tcpTable).Ok? ==> r == Ok(NormalizePrefix(Sniffed(tcpTable).value))
    ensures ipPrefix.None? && Sniffed(tcpTable).Err? ==> r == Err(Sniffed(tcpTable).error)
  {
    match ipPrefix
    case Some(p) => Ok(NormalizePrefix(p))
    case None =>
      match Sniffed(tcpTable)
      case Ok(p) => Ok(NormalizePrefix(p))
      case Err(e) => Err(e)
  }

  /** What the file system says about the install directory. */
  datatype DirectoryState = IsDirectory | NotADirectory | Missing(creatable: bool) | Unreadable

  datatype NewError = SniffFailed(reason: SniffError) | DirectoryNotEmpty(message: string) | IoFailure

  /** The error, if any, of preparing the install directory and opening the
      log file in it. */
  function DirectoryError(installDirectory: string, directory: DirectoryState, logFileOk: bool): Option<NewError>
  {
    match directory
    case NotADirectory => Some(DirectoryNotEmpty(installDirectory + " already exists and it is not a dictionary"))
    case Unreadable => Some(IoFailure)
    case Missing(creatable) => if creatable && logFileOk then None else Some(IoFailure)
    case IsDirectory => if logFileOk then None else Some(IoFailure)
  }

  /* ---------------------------------------------------------------------- */
  /* The cluster                                                             */
  /* ---------------------------------------------------------------------- */

  class Cluster {
    const name: string
    const scylla: bool
    const version: string
    const ipPrefix: string
    const installDirectory: string
    var nodes: seq<Node>
    var destroyed: bool
    var defaultNodeSmp: int
    var defaultNodeMemory: int
    var defaultNodeConfig: Option<ScyllaConfig>
    const runner: CcmRunner

    /** Every node shares the cluster's runner, install directory and flavour. */
    predicate Valid()
      reads this
    {
      Share(nodes, runner, installDirectory, scylla)
    }

    function HeldIds(datacenterId: int): set<int>
      reads this
    {
      IdsIn(NodeIds(nodes), datacenterId)
    }

    predicate UniqueIds()
      reads this
    {
      UniqueBelowSentinel(NodeIds(nodes))
    }

    constructor (name: string, version: string, ipPrefix: string, installDirectory: string, scylla: bool, runner: CcmRunner)
      ensures this.name == name && this.version == version && this.ipPrefix == ipPrefix
      ensures this.installDirectory == installDirectory && this.scylla == scylla && this.runner == runner
      ensures nodes == [] && !destroyed
      ensures defaultNodeMemory == DEFAULT_MEMORY && defaultNodeSmp == DEFAULT_SMP && defaultNodeConfig == None
    {
      this.name := name;
      this.version := version;
      this.ipPrefix := ipPrefix;
      this.installDirectory := installDirectory;
      this.scylla := scylla;
      this.runner := runner;
      nodes := [];
      destroyed := false;
      defaultNodeMemory := DEFAULT_MEMORY;
      defaultNodeSmp := DEFAULT_SMP;
      defaultNodeConfig := None;
    }

    method SetDefaultNodeMemory(memory: int)
      modifies this
      ensures defaultNodeMemory == memory
      ensures nodes == old(nodes) && destroyed == old(destroyed)
      ensures defaultNodeSmp == old(defaultNodeSmp) && defaultNodeConfig == old(defaultNodeConfig)
    {
      defaultNodeMemory := memory;
    }

    method SetDefaultNodeSmp(smp: int)
      modifies this
      ensures defaultNodeSmp == smp
      ensures nodes == old(nodes) && destroyed == old(destroyed)
      ensures defaultNodeMemory == old(defaultNodeMemory) && defaultNodeConfig == old(defaultNodeConfig)
    {
      defaultNodeSmp := smp;
    }

    method SetDefaultNodeConfig(config: ScyllaConfig)
      modifies this
      ensures defaultNodeConfig == Some(config)
      ensures nodes == old(nodes) && destroyed == old(destroyed)
      ensures defaultNodeMemory == old(defaultNodeMemory) && defaultNodeSmp == old(defaultNodeSmp)
    {
      defaultNodeConfig := Some(config);
    }

    /** `get_free_node_id`: the least id in 1..255 no node of the datacenter
        holds, or 256 when all are held. */
    method GetFreeNodeId(datacenterId: int) returns (id: int)
      ensures IsLeastFree(HeldIds(datacenterId), id)
      ensures id == LeastFree(HeldIds(datacenterId))
    {
      label outer: for nodeId := 1 to 256
        invariant forall i :: 1 <= i < nodeId ==> i in HeldIds(datacenterId)
      {
        for k := 0 to |nodes|
          invariant forall k2 :: 0 <= k2 < k ==> NodeIds(nodes)[k2] != (datacenterId, nodeId)
        {
          var node := nodes[k];
          if node.datacenterId == datacenterId {
            if node.nodeId == nodeId {
              assert NodeIds(nodes)[k] == (datacenterId, nodeId);
              continue outer;
            }
          }
        }
        assert nodeId !in HeldIds(datacenterId);
        LeastFreeSpec(HeldIds(datacenterId), nodeId);
        return nodeId;
      }
      LeastFreeSpec(HeldIds(datacenterId), 256);
      return 256;
    }

    /** `add_node`: a node in the datacenter (1 by default) with its least
        free id and the cluster's defaults is appended. */
    method AddNode(datacenterId: Option<int>) returns (node: Node)
      requires Valid()
      modifies this
      ensures Valid() && fresh(node)
      ensures nodes == old(nodes) + [node]
      ensures node.datacenterId == datacenterId.GetOr(1)
      ensures node.nodeId == LeastFree(IdsIn(NodeIds(old(nodes)), datacenterId.GetOr(1)))
      ensures node.name == NodeName(node.datacenterId, node.nodeId) && node.status == Active
      ensures node.smp == defaultNodeSmp && node.memory == NodeMemory(defaultNodeMemory, defaultNodeSmp)
      ensures node.config == defaultNodeConfig.GetOr(UNSET_NODE_CONFIG)
      ensures node.runner == runner && node.installDirectory == installDirectory && node.scylla == scylla
      ensures destroyed == old(destroyed) && defaultNodeSmp == old(defaultNodeSmp)
      ensures defaultNodeMemory == old(defaultNodeMemory) && defaultNodeConfig == old(defaultNodeConfig)
      ensures old(UniqueIds()) ==> UniqueIds()
    {
      var dc := datacenterId.GetOr(1);
      var id := GetFreeNodeId(dc);
      node := new Node(dc, id, scylla, defaultNodeSmp, defaultNodeMemory,
                       defaultNodeConfig.GetOr(UNSET_NODE_CONFIG), runner, installDirectory);
      ghost var before := NodeIds(nodes);
      ShareSnoc(nodes, node, runner, installDirectory, scylla);
      NodeIdsSnoc(nodes, node);
      nodes := nodes + [node];
      if UniqueBelowSentinel(before) {
        UniqueSnoc(before, (dc, id));
      }
    }

    /** The arguments of `ccm create`. */
    function CreateArgs(): (args: seq<string>)
      ensures |args| == if scylla then 9 else 8
      ensures args[0] == "create" && args[1] == name && args[3] == version && args[5] == ipPrefix
    {
      ["create", name, "-v", version, "-i", ipPrefix, "--config-dir", installDirectory] + (if scylla then ["--scylla"] else [])
    }

    function CreateCall(): Invocation
    {
      Invocation("ccm", CreateArgs(), [])
    }

    /** What `init` would issue if every call succeeded: `ccm create`, then a
        `ccm add` per node. */
    function InitCalls(): (calls: seq<Invocation>)
      reads this
      ensures |calls| == |nodes| + 1
    {
      [CreateCall()] + AddCalls(nodes)
    }

    /** `init`: `ccm create`, then each node's `ccm add`, stopping at the
        first call that fails. */
    method Init() returns (ok: bool)
      requires Valid()
      modifies runner
      ensures runner.trace == old(runner.trace) + InitCalls()[..Attempted(InitCalls(), old(runner.outcomes))]
      ensures runner.outcomes == Drop(old(runner.outcomes), Attempted(InitCalls(), old(runner.outcomes)))
      ensures ok <==> AllSucceed(old(runner.outcomes), |InitCalls()|)
    {
      ghost var o := runner.outcomes;
      AttemptedCons(CreateCall(), AddCalls(nodes), o);
      ok := runner.Run("ccm", CreateArgs(), []);
      if !ok {
        TraceCons(old(runner.trace), runner.trace, CreateCall(), AddCalls(nodes), 0);
        return;
      }
      ok := InitNodes();
      ghost var m := Attempted(AddCalls(nodes), Rest(o));
      TraceCons(old(runner.trace), runner.trace, CreateCall(), AddCalls(nodes), m);
      DropRest(o, m);
    }

    /** The loop of `init` over the nodes. */
    method InitNodes() returns (ok: bool)
      requires Valid()
      modifies runner
      ensures runner.trace == old(runner.trace) + AddCalls(nodes)[..Attempted(AddCalls(nodes), old(runner.outcomes))]
      ensures runner.outcomes == Drop(old(runner.outcomes), Attempted(AddCalls(nodes), old(runner.outcomes)))
      ensures ok <==> AllSucceed(old(runner.outcomes), |nodes|)
    {
      ghost var calls := AddCalls(nodes);
      ghost var o := runner.outcomes;
      ok := true;
      for i := 0 to |nodes|
        invariant runner.trace == old(runner.trace) + calls[..i]
        invariant runner.outcomes == Drop(o, i)
        invariant AllSucceed(o, i)
      {
        var node := nodes[i];
        assert node.runner == runner;
        DropStep(o, i);
        ok := node.Init();
        TraceSnoc(old(runner.trace), runner.trace, calls, i, node.AddCall());
        AttemptedAllOk(calls, o, i);
        if !ok {
          return;
        }
      }
      AttemptedAll(calls, o);
    }

    /** `start`: each node's `ccm start`, stopping at the first that fails. */
    method Start(opts: Option<seq<NodeStartOption>>) returns (ok: bool)
      requires Valid()
      modifies runner
      ensures runner.trace == old(runner.trace) + StartCalls(nodes, opts)[..Attempted(StartCalls(nodes, opts), old(runner.outcomes))]
      ensures runner.outcomes == Drop(old(runner.outcomes), Attempted(StartCalls(nodes, opts), old(runner.outcomes)))
      ensures ok <==> AllSucceed(old(runner.outcomes), |nodes|)
    {
      ghost var calls := StartCalls(nodes, opts);
      ghost var o := runner.outcomes;
      ok := true;
      for i := 0 to |nodes|
        invariant runner.trace == old(runner.trace) + calls[..i]
        invariant runner.outcomes == Drop(o, i)
        invariant AllSucceed(o, i)
      {
        var node := nodes[i];
        assert node.runner == runner;
        DropStep(o, i);
        ok := node.Start(opts);
        TraceSnoc(old(runner.trace), runner.trace, calls, i, StartCall(node.name, node.installDirectory, opts, node.smp, node.memory));
        AttemptedAllOk(calls, o, i);
        if !ok {
          return;
        }
      }
      AttemptedAll(calls, o);
    }

    function StopCall(): Invocation
    {
      Invocation("ccm", ["stop", name, "--config-dir", installDirectory], [])
    }

    function RemoveCall(): Invocation
    {
      Invocation("ccm", ["remove", name, "--config-dir", installDirectory], [])
    }

    /** `stop`: nothing once the cluster is destroyed, otherwise one
        `ccm stop`. */
    method Stop() returns (ok: bool)
      modifies runner
      ensures destroyed ==> ok && runner.trace == old(runner.trace) && runner.outcomes == old(runner.outcomes)
      ensures !destroyed ==> && runner.trace == old(runner.trace) + [StopCall()]
                             && ok == First(old(runner.outcomes)) && runner.outcomes == Rest(old(runner.outcomes))
    {
      if destroyed {
        return true;
      }
      ok := runner.Run("ccm", ["stop", name, "--config-dir", installDirectory], []);
    }

    /** `destroy`: nothing once destroyed; otherwise a `ccm stop` whose
        failure is ignored, then a `ccm remove`, and the cluster counts as
        destroyed exactly when the removal succeeds. */
    method Destroy() returns (ok: bool)
      modifies this, runner
      ensures nodes == old(nodes) && defaultNodeSmp == old(defaultNodeSmp)
      ensures defaultNodeMemory == old(defaultNodeMemory) && defaultNodeConfig == old(defaultNodeConfig)
      ensures old(destroyed) ==> ok && destroyed && runner.trace == old(runner.trace) && runner.outcomes == old(runner.outcomes)
      ensures !old(destroyed) ==> && runner.trace == old(runner.trace) + [StopCall(), RemoveCall()]
                                  && ok == First(Drop(old(runner.outcomes), 1))
                                  && runner.outcomes == Drop(old(runner.outcomes), 2)
                                  && destroyed == ok
    {
      if destroyed {
        return true;
      }
      DropStep(runner.outcomes, 0);
      DropStep(runner.outcomes, 1);
      var _ := Stop();
      ok := runner.Run("ccm", ["remove", name, "--config-dir", installDirectory], []);
      if ok {
        destroyed := true;
      }
    }
  }

  /** The nodes share one runner, install directory and flavour. */
  predicate Share(ns: seq<Node>, runner: CcmRunner, installDirectory: string, scylla: bool)
  {
    forall k :: 0 <= k < |ns| ==>
      ns[k].runner == runner && ns[k].installDirectory == installDirectory && ns[k].scylla == scylla
  }

  lemma ShareSnoc(ns: seq<Node>, n: Node, runner: CcmRunner, installDirectory: string, scylla: bool)
    requires Share(ns, runner, installDirectory, scylla)
    requires n.runner == runner && n.installDirectory == installDirectory && n.scylla == scylla
    ensures Share(ns + [n], runner, installDirectory, scylla)
  {
    assert forall k :: 0 <= k < |ns| ==> (ns + [n])[k] == ns[k];
  }

  lemma NodeIdsSnoc(ns: seq<Node>, n: Node)
    ensures NodeIds(ns + [n]) == NodeIds(ns) + [(n.datacenterId, n.nodeId)]
  {
    assert forall k :: 0 <= k < |ns| ==> (ns + [n])[k] == ns[k];
  }

  /** The nodes carry the defaults `Cluster::new` gives its nodes. */
  predicate AsCreated(ns: seq<Node>)
  {
    forall k :: 0 <= k < |ns| ==>
      ns[k].smp == DEFAULT_SMP && ns[k].memory == DEFAULT_MEMORY && ns[k].config == UNSET_NODE_CONFIG
  }

  lemma AsCreatedSnoc(ns: seq<Node>, n: Node)
    requires AsCreated(ns)
    requires n.smp == DEFAULT_SMP && n.memory == DEFAULT_MEMORY && n.config == UNSET_NODE_CONFIG
    ensures AsCreated(ns + [n])
  {
    assert forall k :: 0 <= k < |ns| ==> (ns + [n])[k] == ns[k];
  }

  /** The inner loop of `Cluster::new`: `count` nodes are added to a
      datacenter that holds none yet. */
  method AddDatacenter(cluster: Cluster, dc: int, count: int)
    requires cluster.Valid() && cluster.HeldIds(dc) == {} && AsCreated(cluster.nodes)
    requires cluster.defaultNodeMemory == DEFAULT_MEMORY && cluster.defaultNodeSmp == DEFAULT_SMP
    requires cluster.defaultNodeConfig == None
    modifies cluster
    ensures cluster.Valid() && AsCreated(cluster.nodes)
    ensures NodeIds(cluster.nodes) == NodeIds(old(cluster.nodes)) + DcRun(dc, count)
    ensures cluster.destroyed == old(cluster.destroyed) && cluster.defaultNodeConfig == None
    ensures cluster.defaultNodeMemory == DEFAULT_MEMORY && cluster.defaultNodeSmp == DEFAULT_SMP
  {
    ghost var start := NodeIds(cluster.nodes);
    var j := 0;
    while j < count
      invariant 0 <= j && (count >= 0 ==> j <= count) && (count < 0 ==> j == 0)
      invariant cluster.Valid() && AsCreated(cluster.nodes) && NodeIds(cluster.nodes) == start + DcRun(dc, j)
      invariant cluster.destroyed == old(cluster.destroyed) && cluster.defaultNodeConfig == None
      invariant cluster.defaultNodeMemory == DEFAULT_MEMORY && cluster.defaultNodeSmp == DEFAULT_SMP
    {
      AddRunNode(cluster, dc, start, j);
      j := j + 1;
    }
  }

  /** One turn of that loop: the `j`-th node of the datacenter is added. */
  method AddRunNode(cluster: Cluster, dc: int, ghost start: seq<(int, int)>, ghost j: nat)
    requires IdsIn(start, dc) == {}
    requires cluster.Valid() && AsCreated(cluster.nodes) && NodeIds(cluster.nodes) == start + DcRun(dc, j)
    requires cluster.defaultNodeMemory == DEFAULT_MEMORY && cluster.defaultNodeSmp == DEFAULT_SMP
    requires cluster.defaultNodeConfig == None
    modifies cluster
    ensures cluster.Valid() && AsCreated(cluster.nodes) && NodeIds(cluster.nodes) == start + DcRun(dc, j + 1)
    ensures cluster.destroyed == old(cluster.destroyed) && cluster.defaultNodeConfig == None
    ensures cluster.defaultNodeMemory == DEFAULT_MEMORY && cluster.defaultNodeSmp == DEFAULT_SMP
  {
    NextId(start, dc, j);
    ghost var before := cluster.nodes;
    var node := cluster.AddNode(Some(dc));
    AsCreatedSnoc(before, node);
    NodeIdsSnoc(before, node);
    DcRunStep(dc, j);
    AppendSnoc(start, DcRun(dc, j), (node.datacenterId, node.nodeId), DcRun(dc, j + 1));
  }

  /** The id the `j`-th node added to an empty datacenter receives. */
  lemma NextId(start: seq<(int, int)>, dc: int, j: nat)
    requires IdsIn(start, dc) == {}
    ensures LeastFree(IdsIn(start + DcRun(dc, j), dc)) == if j < 256 then j + 1 else 256
  {
    var run := DcRun(dc, j);
    IdsInAppend(start, run, dc);
    IdsInRun(dc, j);
    assert IdsIn(start + run, dc) == RunSet(j);
    LeastFreeOfRun(j);
  }

  /** The loop of `Cluster::new` over the datacenters. */
  method Populate(cluster: Cluster, counts: seq<int>)
    requires cluster.nodes == [] && cluster.defaultNodeConfig == None
    requires cluster.defaultNodeMemory == DEFAULT_MEMORY && cluster.defaultNodeSmp == DEFAULT_SMP
    modifies cluster
    ensures cluster.Valid() && cluster.UniqueIds() && AsCreated(cluster.nodes) && NodeIds(cluster.nodes) == Allocation(counts)
    ensures cluster.destroyed == old(cluster.destroyed) && cluster.defaultNodeConfig == None
    ensures cluster.defaultNodeMemory == DEFAULT_MEMORY && cluster.defaultNodeSmp == DEFAULT_SMP
  {
    for d := 0 to |counts|
      invariant cluster.destroyed == old(cluster.destroyed) && cluster.defaultNodeConfig == None
      invariant cluster.defaultNodeMemory == DEFAULT_MEMORY && cluster.defaultNodeSmp == DEFAULT_SMP
      invariant cluster.Valid() && AsCreated(cluster.nodes) && NodeIds(cluster.nodes) == Allocation(counts[..d])
    {
      AllocationIds(counts[..d], d + 1);
      AddDatacenter(cluster, d + 1, counts[d]);
      AllocationStep(counts, d);
    }
    AllocationAll(counts);
    AllocationUnique(counts);
  }

  /** A call in front of others: the loop issues it, and the others only if
      it succeeds. */
  lemma AttemptedCons(c: Invocation, rest: seq<Invocation>, outcomes: seq<bool>)
    ensures Attempted([c] + rest, outcomes) == if First(outcomes) then 1 + Attempted(rest, Rest(outcomes)) else 1
    ensures AllSucceed(outcomes, 1 + |rest|) <==> First(outcomes) && AllSucceed(Rest(outcomes), |rest|)
  {
    assert ([c] + rest)[1..] == rest;
    if First(outcomes) && AllSucceed(Rest(outcomes), |rest|) {
      assert forall k :: 1 <= k < 1 + |rest| ==> outcomes[k] == Rest(outcomes)[k - 1];
    }
  }

  /** A trace that has grown by `c` and then by a prefix of `rest` has grown
      by a prefix of `[c] + rest`. */
  lemma TraceCons<T>(t0: seq<T>, t: seq<T>, c: T, rest: seq<T>, m: nat)
    requires m <= |rest|
    requires t == t0 + [c] + rest[..m] || (m == 0 && t == t0 + [c])
    ensures t == t0 + ([c] + rest)[..1 + m]
  {
    assert ([c] + rest)[..1 + m] == [c] + rest[..m];
  }

  lemma DropRest(outcomes: seq<bool>, m: nat)
    ensures Drop(Rest(outcomes), m) == Drop(outcomes, 1 + m) || outcomes == []
  {
  }

  /** The `ccm add` calls of a run of nodes, in order. */
  function AddCalls(ns: seq<Node>): (r: seq<Invocation>)
    ensures |r| == |ns|
  {
    seq(|ns|, k requires 0 <= k < |ns| => ns[k].AddCall())
  }

  /** The `ccm start` calls of a run of nodes, in order. */
  function StartCalls(ns: seq<Node>, opts: Option<seq<NodeStartOption>>): (r: seq<Invocation>)
    ensures |r| == |ns|
  {
    seq(|ns|, k requires 0 <= k < |ns| => StartCall(ns[k].name, ns[k].installDirectory, opts, ns[k].smp, ns[k].memory))
  }

  /** The first step of `Cluster::new`: the caller's prefix, or a sniffed
      one, with a dot appended when it lacks one. */
  method ResolveIpPrefix(ipPrefix: Option<string>, tcpTable: Option<string>) returns (r: Result<string, SniffError>)
    ensures r == ResolvePrefix(ipPrefix, tcpTable)
  {
    var prefix: string;
    if ipPrefix.Some? {
      prefix := ipPrefix.value;
    } else {
      var sniffed := SniffIpPrefix(tcpTable);
      if sniffed.Err? {
        return Err(sniffed.error);
      }
      prefix := sniffed.value;
    }
    if !EndsWith(prefix, ".") {
      prefix := prefix + ".";
    }
    return Ok(prefix);
  }

  /** `Cluster::new`: the prefix is resolved first, then the install directory
      and its log file, then `counts[d - 1]` nodes are added to each
      datacenter `d`. The cluster's runner is the fresh `LoggedCmd`, here
      scripted with `outcomes`. */
  method NewCluster(name: string, version: string, ipPrefix: Option<string>, counts: seq<int>,
                    installDirectory: string, scylla: bool,
                    tcpTable: Option<string>, directory: DirectoryState, logFileOk: bool, outcomes: seq<bool>)
    returns (r: Result<Cluster, NewError>)
    ensures ResolvePrefix(ipPrefix, tcpTable).Err? ==> r == Err(SniffFailed(ResolvePrefix(ipPrefix, tcpTable).error))
    ensures ResolvePrefix(ipPrefix, tcpTable).Ok? && DirectoryError(installDirectory, directory, logFileOk).Some? ==>
              r == Err(DirectoryError(installDirectory, directory, logFileOk).value)
    ensures r.Ok? <==> ResolvePrefix(ipPrefix, tcpTable).Ok? && DirectoryError(installDirectory, directory, logFileOk).None?
    ensures r.Ok? ==>
              var c := r.value;
              && fresh(c) && fresh(c.runner) && c.runner.trace == [] && c.runner.outcomes == outcomes
              && c.name == name && c.version == version && c.ipPrefix == ResolvePrefix(ipPrefix, tcpTable).value
              && c.installDirectory == installDirectory && c.scylla == scylla && !c.destroyed
              && c.defaultNodeMemory == DEFAULT_MEMORY && c.defaultNodeSmp == DEFAULT_SMP && c.defaultNodeConfig == None
              && c.Valid() && c.UniqueIds() && AsCreated(c.nodes) && NodeIds(c.nodes) == Allocation(counts)
  {
    var prefix := ResolveIpPrefix(ipPrefix, tcpTable);
    if prefix.Err? {
      return Err(SniffFailed(prefix.error));
    }
    var failure := DirectoryError(installDirectory, directory, logFileOk);
    if failure.Some? {
      return Err(failure.value);
    }
    var runner := new CcmRunner(outcomes);
    var cluster := new Cluster(name, version, prefix.value, installDirectory, scylla, runner);
    Populate(cluster, counts);
    return Ok(cluster);
  }

  /* ---------------------------------------------------------------------- */
  /* The lifecycle scenario of the module's test                             */
  /* ---------------------------------------------------------------------- */

  /** An empty TCP table leaves every candidate free: the first, 127.1.1., is
      picked. */
  lemma EmptyTablePrefix()
    ensures ResolvePrefix(None, Some("")) == Ok("127.1.1.")
  {
    assert Lines("") == [];
    assert FreeIndex({}, 0) == 0;
    assert NatToString(1) == "1";
    assert CandidateAt(0) == "127.1.1.";
  }

  lemma ThreeNodeAllocation()
    ensures Allocation([3]) == [(1, 1), (1, 2), (1, 3)]
  {
    assert [3][..0] == [];
    assert DcRun(1, 3) == [(1, 1), (1, 2), (1, 3)];
  }

  /** A script of successes. */
  predicate AllOk(outcomes: seq<bool>)
  {
    forall k :: 0 <= k < |outcomes| ==> outcomes[k]
  }

  /** Under a script of successes, the first `n` calls succeed and the rest
      of the script is successes again. */
  lemma AllOkDrop(outcomes: seq<bool>, n: nat)
    requires AllOk(outcomes) && n <= |outcomes|
    ensures AllSucceed(outcomes, n) && AllOk(Drop(outcomes, n)) && |Drop(outcomes, n)| == |outcomes| - n
    ensures n < |outcomes| ==> First(Drop(outcomes, n))
  {
  }

  lemma AllOkRest(outcomes: seq<bool>)
    requires AllOk(outcomes) && outcomes != []
    ensures First(outcomes) && AllOk(Rest(outcomes)) && |Rest(outcomes)| == |outcomes| - 1
  {
  }

  /** The trace of the scenario: the pieces each phase adds, in order. */
  lemma Grows<T>(t0: seq<T>, t1: seq<T>, t2: seq<T>, t3: seq<T>, a: seq<T>, b: seq<T>, c: seq<T>, d: seq<T>, e: seq<T>)
    requires t0 == [] && t1 == t0 + a + b && t2 == t1 + c && t3 == t2 + d + e
    ensures t3 == a + b + c + d + e
  {
    assert t1 == a + b;
  }

  /** A loop that issued all of its calls added all of them to the trace. */
  lemma FullPrefix<T>(t0: seq<T>, t: seq<T>, a: seq<T>, n: nat)
    requires n == |a| && t == t0 + a[..n]
    ensures t == t0 + a
  {
    assert a[..n] == a;
  }

  /** `Cluster::new` as the test calls it, on an empty TCP table, an existing
      install directory and a script of twelve successes. */
  method CreateTestCluster() returns (cluster: Cluster)
    ensures fresh(cluster) && fresh(cluster.runner)
    ensures cluster.Valid() && !cluster.destroyed && cluster.ipPrefix == "127.1.1."
    ensures NodeIds(cluster.nodes) == [(1, 1), (1, 2), (1, 3)]
    ensures cluster.runner.trace == [] && AllOk(cluster.runner.outcomes) && |cluster.runner.outcomes| == 12
  {
    var script := seq(12, _ => true);
    EmptyTablePrefix();
    var r := NewCluster("test_cluster", "release:6.2", None, [3], "/tmp/ccm", true,
                        Some(""), IsDirectory, true, script);
    cluster := r.value;
    ThreeNodeAllocation();
  }

  /** `init` and then `start(None)`, every call succeeding. */
  method InitAndStart(cluster: Cluster) returns (ok: bool)
    requires cluster.Valid() && AllOk(cluster.runner.outcomes) && |cluster.runner.outcomes| >= 2 * |cluster.nodes| + 1
    modifies cluster.runner
    ensures ok && AllOk(cluster.runner.outcomes)
    ensures |cluster.runner.outcomes| == |old(cluster.runner.outcomes)| - (2 * |cluster.nodes| + 1)
    ensures cluster.runner.trace
            == old(cluster.runner.trace) + ([cluster.CreateCall()] + AddCalls(cluster.nodes)) + StartCalls(cluster.nodes, None)
  {
    ghost var t0 := cluster.runner.trace;
    ghost var o0 := cluster.runner.outcomes;
    ghost var calls := cluster.InitCalls();
    AllOkDrop(o0, |calls|);
    AttemptedAll(calls, o0);
    var initOk := cluster.Init();
    FullPrefix(t0, cluster.runner.trace, calls, |calls|);
    ghost var o1 := cluster.runner.outcomes;
    ghost var starts := StartCalls(cluster.nodes, None);
    AllOkDrop(o1, |cluster.nodes|);
    AttemptedAll(starts, o1);
    ghost var t1 := cluster.runner.trace;
    var startOk := cluster.Start(None);
    FullPrefix(t1, cluster.runner.trace, starts, |starts|);
    ok := initOk && startOk;
  }

  /** `add_node(Some(2))` on the three-node cluster, then the new node's own
      `init` and `start(None)`. */
  method AddAndLaunch(cluster: Cluster) returns (ok: bool, node: Node)
    requires cluster.Valid() && NodeIds(cluster.nodes) == [(1, 1), (1, 2), (1, 3)]
    requires AllOk(cluster.runner.outcomes) && |cluster.runner.outcomes| >= 2
    modifies cluster, cluster.runner
    ensures cluster.Valid() && cluster.destroyed == old(cluster.destroyed)
    ensures cluster.nodes == old(cluster.nodes) + [node] && node.datacenterId == 2 && node.nodeId == 1
    ensures node.name == NodeName(2, 1)
    ensures ok && AllOk(cluster.runner.outcomes) && |cluster.runner.outcomes| == |old(cluster.runner.outcomes)| - 2
    ensures cluster.runner.trace
            == old(cluster.runner.trace) + [node.AddCall(), StartCall(node.name, node.installDirectory, None, node.smp, node.memory)]
  {
    node := cluster.AddNode(Some(2));
    assert IdsIn([(1, 1), (1, 2), (1, 3)], 2) == {};
    assert LeastFree({}) == 1;
    ok := Launch(node);
  }

  /** A node's own `init` and `start(None)`, both succeeding. */
  method Launch(node: Node) returns (ok: bool)
    requires AllOk(node.runner.outcomes) && |node.runner.outcomes| >= 2
    modifies node.runner
    ensures ok && AllOk(node.runner.outcomes) && |node.runner.outcomes| == |old(node.runner.outcomes)| - 2
    ensures node.runner.trace
            == old(node.runner.trace) + [node.AddCall(), StartCall(node.name, node.installDirectory, None, node.smp, node.memory)]
  {
    AllOkRest(node.runner.outcomes);
    var initOk := node.Init();
    AllOkRest(node.runner.outcomes);
    var startOk := node.Start(None);
    ok := initOk && startOk;
  }

  /** `stop` and then `destroy`, every call succeeding. */
  method Teardown(cluster: Cluster) returns (ok: bool)
    requires !cluster.destroyed && AllOk(cluster.runner.outcomes) && |cluster.runner.outcomes| >= 3
    modifies cluster, cluster.runner
    ensures ok && cluster.destroyed && cluster.nodes == old(cluster.nodes)
    ensures cluster.runner.trace == old(cluster.runner.trace) + [cluster.StopCall()] + [cluster.StopCall(), cluster.RemoveCall()]
  {
    AllOkRest(cluster.runner.outcomes);
    var stopOk := cluster.Stop();
    AllOkDrop(cluster.runner.outcomes, 1);
    var destroyOk := cluster.Destroy();
    ok := stopOk && destroyOk;
  }

  /** `test_cluster_lifecycle`: a three-node cluster is created with a
      sniffed prefix, initialized and started; a node added to datacenter 2
      gets id 1 and is initialized and started on its own; the cluster is
      stopped and destroyed. When every `ccm` call succeeds, so does every
      step, and the twelve calls come in this order. */
  method LifecycleScenario() returns (ok: bool, cluster: Cluster, node: Node)
    ensures ok && cluster.destroyed
    ensures cluster.ipPrefix == "127.1.1."
    ensures NodeIds(cluster.nodes) == [(1, 1), (1, 2), (1, 3), (2, 1)]
    ensures node == cluster.nodes[3] && node.name == NodeName(2, 1)
    ensures cluster.runner.trace
            == [cluster.CreateCall()] + AddCalls(cluster.nodes[..3])
               + StartCalls(cluster.nodes[..3], None)
               + [node.AddCall(), StartCall(node.name, node.installDirectory, None, node.smp, node.memory)]
               + [cluster.StopCall()]
               + [cluster.StopCall(), cluster.RemoveCall()]
  {
    cluster := CreateTestCluster();
    ghost var three := cluster.nodes;
    ghost var t0 := cluster.runner.trace;
    var startedOk := InitAndStart(cluster);
    ghost var t1 := cluster.runner.trace;
    var addedOk;
    addedOk, node := AddAndLaunch(cluster);
    ghost var t2 := cluster.runner.trace;
    var downOk := Teardown(cluster);
    ok := startedOk && addedOk && downOk;
    NodeIdsSnoc(three, node);
    assert cluster.nodes[..3] == three;
    Grows(t0, t1, t2, cluster.runner.trace,
          [cluster.CreateCall()] + AddCalls(three), StartCalls(three, None),
          [node.AddCall(), StartCall(node.name, node.installDirectory, None, node.smp, node.memory)],
          [cluster.StopCall()], [cluster.StopCall(), cluster.RemoveCall()]);
  }
}
