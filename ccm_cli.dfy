/** The supervised command runner of src/ccm_cli.rs: `LoggedCmd` hands every
    invocation the next run id, writes `env`, `started`, `stdout`/`stderr` and
    `exited` records to its log, and classifies the exit status.

    The child process is not run: what the operating system would do (whether
    the spawn works, the lines each stream yields, how the scheduler interleaves
    the two drains, how the wait ends) is one `ProcessOutcome` value passed in. */
module CcmCli {
  import opened Wrappers
  import opened Text

  /* ---------------------------------------------------------------------- */
  /* Run ids                                                                 */
  /* ---------------------------------------------------------------------- */

  /** Rust's `i32`, the type of the `AtomicI32` run-id counter. */
  newtype i32 = x: int | -0x8000_0000 <= x < 0x8000_0000

  /** `fetch_add(1)` on an `AtomicI32` wraps from `i32::MAX` to `i32::MIN`. */
  function WrappingIncrement(x: i32): (r: i32)
    ensures x < 0x7FFF_FFFF ==> r as int == x as int + 1
    ensures x == 0x7FFF_FFFF ==> r == -0x8000_0000
  {
    if x == 0x7FFF_FFFF then -0x8000_0000 else x + 1
  }

  /* ---------------------------------------------------------------------- */
  /* Options, outcomes, results                                              */
  /* ---------------------------------------------------------------------- */

  /** `RunOptions`; the environment map is given in the order its iteration
      visits it. */
  datatype RunOptions = RunOptions(env: seq<(string, string)>, allowFailure: Option<bool>)

  /** `RunOptions::default()`. */
  function DefaultRunOptions(): RunOptions
  {
    RunOptions([], None)
  }

  /** The allow-failure flag `run_command` settles on. */
  function AllowFailure(opts: Option<RunOptions>): (allow: bool)
    ensures allow <==> opts.Some? && opts.value.allowFailure == Some(true)
  {
    match opts
    case None => false
    case Some(o) => o.allowFailure.GetOr(false)
  }

  /** The environment overrides `run_command` logs and passes to the child. */
  function EnvOf(opts: Option<RunOptions>): seq<(string, string)>
  {
    match opts
    case None => []
    case Some(o) => o.env
  }

  /** `ExitStatus` on Unix: the exit code, or None when a signal ended the child. */
  datatype ExitStatus = ExitStatus(code: Option<i32>) {
    predicate Success() { code == Some(0) }
  }

  datatype WaitOutcome = Exited(status: ExitStatus) | WaitFailed(reason: string)

  datatype Stream = Stdout | Stderr

  /** What happened to the child: the spawn failed, or it ran, its two streams
      yielded these lines, the scheduler let the readers write in the order
      `schedule` gives (the stream whose reader writes next; once the schedule
      is used up stdout goes first), and the wait ended as `wait` says. */
  datatype ProcessOutcome =
    | SpawnFailed(reason: string)
    | Spawned(stdout: seq<string>, stderr: seq<string>, schedule: seq<Stream>, wait: WaitOutcome)

  /** The three ways `run_command` fails. */
  datatype RunError =
    | SpawnError(reason: string)
    | CommandFailed(status: ExitStatus)
    | WaitError(reason: string)

  /** What `run_command` returns for a given outcome. */
  function RunResult(opts: Option<RunOptions>, outcome: ProcessOutcome): (r: Result<ExitStatus, RunError>)
    ensures r.Ok? <==> outcome.Spawned? && outcome.wait.Exited?
                       && (outcome.wait.status.Success() || AllowFailure(opts))
    ensures r.Ok? ==> r.value == outcome.wait.status
    ensures outcome.SpawnFailed? ==> r == Err(SpawnError(outcome.reason))
    ensures r.Err? && r.error.SpawnError? ==> outcome.SpawnFailed?
    ensures outcome.Spawned? && outcome.wait.WaitFailed? ==> r == Err(WaitError(outcome.wait.reason))
    ensures outcome.Spawned? && outcome.wait.Exited? && !outcome.wait.status.Success() && !AllowFailure(opts)
            ==> r == Err(CommandFailed(outcome.wait.status))
  {
    match outcome
    case SpawnFailed(e) => Err(SpawnError(e))
    case Spawned(_, _, _, WaitFailed(e)) => Err(WaitError(e))
    case Spawned(_, _, _, Exited(status)) =>
      if !AllowFailure(opts) && !status.Success() then Err(CommandFailed(status)) else Ok(status)
  }

  /* ---------------------------------------------------------------------- */
  /* Log records                                                             */
  /* ---------------------------------------------------------------------- */

  const TAG_WIDTH: nat := 15

  /** `format!("{}[{}]", kind, run_id)`. */
  function Tag(kind: string, runId: i32): string
  {
    kind + "[" + IntToString(runId as int) + "]"
  }

  /** `format!("{:15} -> {}\n", tag, payload)`. */
  function Record(tag: string, payload: string): string
  {
    PadRight(tag, TAG_WIDTH) + " -> " + payload + "\n"
  }

  function EnvRecord(runId: i32, key: string, value: string): string
  {
    Record(Tag("env", runId), key + "=" + value)
  }

  function EnvRecords(runId: i32, env: seq<(string, string)>): (r: seq<string>)
    ensures |r| == |env|
    ensures forall k :: 0 <= k < |env| ==> r[k] == EnvRecord(runId, env[k].0, env[k].1)
  {
    seq(|env|, k requires 0 <= k < |env| => EnvRecord(runId, env[k].0, env[k].1))
  }

  function StartedRecord(runId: i32, command: string, args: seq<string>): string
  {
    Record(Tag("started", runId), command + " " + Join(args, " "))
  }

  function StreamName(s: Stream): string
  {
    match s
    case Stdout => "stdout"
    case Stderr => "stderr"
  }

  /** The prefix `run_command` hands each stream reader. */
  function StreamPrefix(s: Stream, runId: i32): string
  {
    PadRight(Tag(StreamName(s), runId), TAG_WIDTH) + " -> "
  }

  /** What `stream_reader` writes for one line: `format!("{} {}\n", prefix, line)`. */
  function LineRecord(s: Stream, runId: i32, line: string): string
  {
    StreamPrefix(s, runId) + " " + line + "\n"
  }

  function LineRecords(s: Stream, runId: i32, lines: seq<string>): (r: seq<string>)
    ensures |r| == |lines|
    ensures forall k :: 0 <= k < |lines| ==> r[k] == LineRecord(s, runId, lines[k])
  {
    seq(|lines|, k requires 0 <= k < |lines| => LineRecord(s, runId, lines[k]))
  }

  function ExitedRecord(runId: i32, wait: WaitOutcome): string
  {
    var tag := Tag("exited", runId);
    match wait
    case Exited(ExitStatus(Some(code))) => Record(tag, "status = " + IntToString(code as int))
    case Exited(ExitStatus(None)) => Record(tag, "status = unknown")
    case WaitFailed(e) => Record(tag, "failed to wait on child process: = " + e)
  }

  /* ---------------------------------------------------------------------- */
  /* The merge of the two stream drains                                      */
  /* ---------------------------------------------------------------------- */

  /** The order in which the two readers' writes reach the log under `schedule`. */
  function Merge<T>(schedule: seq<Stream>, xs: seq<T>, ys: seq<T>): seq<T>
    decreases |xs| + |ys|
  {
    if xs == [] then ys
    else if ys == [] then xs
    else if schedule != [] && schedule[0] == Stderr then [ys[0]] + Merge(schedule[1..], xs, ys[1..])
    else [xs[0]] + Merge(if schedule == [] then [] else schedule[1..], xs[1..], ys)
  }

  function Rest(schedule: seq<Stream>): seq<Stream>
  {
    if schedule == [] then [] else schedule[1..]
  }

  /** Which stream's reader writes next under `schedule`. */
  predicate StdoutNext<T>(schedule: seq<Stream>, xs: seq<T>, ys: seq<T>)
  {
    xs != [] && (ys == [] || !(schedule != [] && schedule[0] == Stderr))
  }

  lemma MergeStep<T>(schedule: seq<Stream>, xs: seq<T>, ys: seq<T>)
    requires xs != [] || ys != []
    ensures StdoutNext(schedule, xs, ys) ==> Merge(schedule, xs, ys) == [xs[0]] + Merge(Rest(schedule), xs[1..], ys)
    ensures !StdoutNext(schedule, xs, ys) ==> Merge(schedule, xs, ys) == [ys[0]] + Merge(Rest(schedule), xs, ys[1..])
  {
    if xs == [] {
      assert Merge(Rest(schedule), xs, ys[1..]) == ys[1..];
    } else if ys == [] {
      assert Merge(Rest(schedule), xs[1..], ys) == xs[1..];
    }
  }

  /** One step of the drain, seen from the log: the next line is taken from
      the stream the schedule picks and moves from the pending merge to the
      end of what was written. */
  lemma DrainStep<T>(written: seq<T>, schedule: seq<Stream>, xs: seq<T>, ys: seq<T>, i: nat, j: nat)
    requires i <= |xs| && j <= |ys| && (i < |xs| || j < |ys|)
    ensures StdoutNext(schedule, xs[i..], ys[j..]) ==>
              i < |xs| &&
              written + Merge(schedule, xs[i..], ys[j..]) == (written + [xs[i]]) + Merge(Rest(schedule), xs[i + 1..], ys[j..])
    ensures !StdoutNext(schedule, xs[i..], ys[j..]) ==>
              j < |ys| &&
              written + Merge(schedule, xs[i..], ys[j..]) == (written + [ys[j]]) + Merge(Rest(schedule), xs[i..], ys[j + 1..])
  {
    MergeStep(schedule, xs[i..], ys[j..]);
    if i < |xs| {
      assert xs[i..][1..] == xs[i + 1..];
    }
    if j < |ys| {
      assert ys[j..][1..] == ys[j + 1..];
    }
  }

  /** `zs` interleaves `xs` and `ys`: it is made of exactly their elements and
      keeps the order within each. */
  predicate IsInterleaving<T(==)>(zs: seq<T>, xs: seq<T>, ys: seq<T>)
    decreases |zs|
  {
    if zs == [] then xs == [] && ys == []
    else
      || (xs != [] && zs[0] == xs[0] && IsInterleaving(zs[1..], xs[1..], ys))
      || (ys != [] && zs[0] == ys[0] && IsInterleaving(zs[1..], xs, ys[1..]))
  }

  lemma {:induction false} InterleavingWithEmptyLeft<T>(ys: seq<T>)
    ensures IsInterleaving(ys, [], ys)
    decreases |ys|
  {
    if ys != [] {
      InterleavingWithEmptyLeft(ys[1..]);
    }
  }

  lemma {:induction false} InterleavingWithEmptyRight<T>(xs: seq<T>)
    ensures IsInterleaving(xs, xs, [])
    decreases |xs|
  {
    if xs != [] {
      InterleavingWithEmptyRight(xs[1..]);
    }
  }

  lemma {:induction false} InterleavingOfOne<T>(zs: seq<T>, xs: seq<T>)
    requires IsInterleaving(zs, xs, []) || IsInterleaving(zs, [], xs)
    ensures zs == xs
    decreases |zs|
  {
    if zs != [] {
      InterleavingOfOne(zs[1..], xs[1..]);
    }
  }

  /** Whatever the scheduler does, the log receives an interleaving of the two
      streams' records. */
  lemma {:induction false} MergeIsInterleaving<T>(schedule: seq<Stream>, xs: seq<T>, ys: seq<T>)
    ensures IsInterleaving(Merge(schedule, xs, ys), xs, ys)
    decreases |xs| + |ys|
  {
    if xs == [] {
      InterleavingWithEmptyLeft(ys);
    } else if ys == [] {
      InterleavingWithEmptyRight(xs);
    } else if schedule != [] && schedule[0] == Stderr {
      MergeIsInterleaving(schedule[1..], xs, ys[1..]);
    } else {
      MergeIsInterleaving(if schedule == [] then [] else schedule[1..], xs[1..], ys);
    }
  }

  /** ... and every interleaving is one the scheduler can produce. */
  lemma {:induction false} InterleavingIsSomeMerge<T>(zs: seq<T>, xs: seq<T>, ys: seq<T>)
    requires IsInterleaving(zs, xs, ys)
    ensures exists schedule :: Merge(schedule, xs, ys) == zs
    decreases |zs|
  {
    if xs == [] {
      InterleavingOfOne(zs, ys);
      assert Merge([], xs, ys) == zs;
    } else if ys == [] {
      InterleavingOfOne(zs, xs);
      assert Merge([], xs, ys) == zs;
    } else if zs[0] == xs[0] && IsInterleaving(zs[1..], xs[1..], ys) {
      InterleavingIsSomeMerge(zs[1..], xs[1..], ys);
      var rest :| Merge(rest, xs[1..], ys) == zs[1..];
      assert Merge([Stdout] + rest, xs, ys) == zs;
    } else {
      InterleavingIsSomeMerge(zs[1..], xs, ys[1..]);
      var rest :| Merge(rest, xs, ys[1..]) == zs[1..];
      assert Merge([Stderr] + rest, xs, ys) == zs;
    }
  }

  /* ---------------------------------------------------------------------- */
  /* The records of one run                                                  */
  /* ---------------------------------------------------------------------- */

  /** The captured-output records of a spawned run, in log order. */
  function CapturedRecords(runId: i32, outcome: ProcessOutcome): seq<string>
    requires outcome.Spawned?
  {
    Merge(outcome.schedule, LineRecords(Stdout, runId, outcome.stdout), LineRecords(Stderr, runId, outcome.stderr))
  }

  /** Everything one `run_command` call appends to the log. */
  function RunRecords(runId: i32, command: string, args: seq<string>, opts: Option<RunOptions>,
                      outcome: ProcessOutcome): seq<string>
  {
    EnvRecords(runId, EnvOf(opts))
    + match outcome
      case SpawnFailed(_) => []
      case Spawned(_, _, _, wait) =>
        [StartedRecord(runId, command, args)] + CapturedRecords(runId, outcome) + [ExitedRecord(runId, wait)]
  }

  lemma RunRecordsParts(runId: i32, command: string, args: seq<string>, opts: Option<RunOptions>,
                        outcome: ProcessOutcome)
    ensures outcome.SpawnFailed? ==> RunRecords(runId, command, args, opts, outcome) == EnvRecords(runId, EnvOf(opts))
    ensures outcome.Spawned? ==>
              RunRecords(runId, command, args, opts, outcome)
              == EnvRecords(runId, EnvOf(opts))
                 + ([StartedRecord(runId, command, args)] + CapturedRecords(runId, outcome)
                    + [ExitedRecord(runId, outcome.wait)])
  {
  }

  lemma AppendAssoc<T>(a: seq<T>, b: seq<T>, c: seq<T>)
    ensures (a + b) + c == a + (b + c)
  {
  }

  /** The log file's text: the records one after the other. */
  function LogText(log: seq<string>): string
  {
    if log == [] then "" else log[0] + LogText(log[1..])
  }

  /* ---------------------------------------------------------------------- */
  /* Reading a record back                                                   */
  /* ---------------------------------------------------------------------- */

  /** Splits a record into its tag and payload: the tag runs to the first
      space, the padding fills the tag field to TAG_WIDTH, then " -> ", the
      payload and the line feed. */
  function ParseRecord(r: string): Option<(string, string)>
  {
    var t := IndexOf(r, ' ');
    var p := if t < TAG_WIDTH then TAG_WIDTH else t;
    if 0 < t && p + 5 <= |r| && r[t..p] == Spaces(p - t) && r[p..p + 4] == " -> " && r[|r| - 1] == '\n'
    then Some((r[..t], r[p + 4..|r| - 1]))
    else None
  }

  /** A record gives back its tag and payload, so a log line names its run and
      carries the payload verbatim. */
  lemma RecordRoundTrip(tag: string, payload: string)
    requires tag != [] && ' ' !in tag
    ensures ParseRecord(Record(tag, payload)) == Some((tag, payload))
  {
    var r := Record(tag, payload);
    var padded := PadRight(tag, TAG_WIDTH);
    assert r == padded + (" -> " + payload + "\n");
    assert r[..|tag|] == tag;
    IndexOfAfter(tag, ' ', r[|tag| + 1..]);
    assert r == tag + [' '] + r[|tag| + 1..];
    var p := |padded|;
    assert r[p..p + 4] == " -> ";
    assert r[p + 4..|r| - 1] == payload;
    assert r[|tag|..p] == Spaces(p - |tag|);
  }

  /** A captured line is written as a record whose payload is a space and the
      line, kept verbatim: hence the doubled space after "->". */
  lemma LineRecordIsRecord(s: Stream, runId: i32, line: string)
    ensures LineRecord(s, runId, line) == Record(Tag(StreamName(s), runId), " " + line)
    ensures ParseRecord(LineRecord(s, runId, line)) == Some((Tag(StreamName(s), runId), " " + line))
  {
    var tag := Tag(StreamName(s), runId);
    TagHasNoSpace(StreamName(s), runId);
    assert LineRecord(s, runId, line) == Record(tag, " " + line);
    RecordRoundTrip(tag, " " + line);
  }

  lemma TagHasNoSpace(kind: string, runId: i32)
    requires ' ' !in kind
    ensures Tag(kind, runId) != [] && ' ' !in Tag(kind, runId)
  {
    var digits := IntToString(runId as int);
    assert forall k :: 1 <= k < |digits| ==> digits[k] != ' ' by {
      assert AllDigits(digits[1..]);
      forall k | 1 <= k < |digits| ensures digits[k] != ' ' {
        assert digits[1..][k - 1] == digits[k];
      }
    }
  }

  function TagOf(r: string): string
  {
    match ParseRecord(r)
    case Some((tag, _)) => tag
    case None => ""
  }

  lemma {:induction false} MergeMembers<T>(schedule: seq<Stream>, xs: seq<T>, ys: seq<T>, k: nat)
    requires k < |Merge(schedule, xs, ys)|
    ensures Merge(schedule, xs, ys)[k] in xs || Merge(schedule, xs, ys)[k] in ys
    ensures |Merge(schedule, xs, ys)| == |xs| + |ys|
    decreases |xs| + |ys|
  {
    if xs == [] || ys == [] {
    } else if schedule != [] && schedule[0] == Stderr {
      if k > 0 {
        MergeMembers(schedule[1..], xs, ys[1..], k - 1);
      } else {
        MergeLength(schedule[1..], xs, ys[1..]);
      }
    } else {
      if k > 0 {
        MergeMembers(if schedule == [] then [] else schedule[1..], xs[1..], ys, k - 1);
      } else {
        MergeLength(if schedule == [] then [] else schedule[1..], xs[1..], ys);
      }
    }
  }

  lemma {:induction false} MergeLength<T>(schedule: seq<Stream>, xs: seq<T>, ys: seq<T>)
    ensures |Merge(schedule, xs, ys)| == |xs| + |ys|
    decreases |xs| + |ys|
  {
    if xs == [] || ys == [] {
    } else if schedule != [] && schedule[0] == Stderr {
      MergeLength(schedule[1..], xs, ys[1..]);
    } else {
      MergeLength(if schedule == [] then [] else schedule[1..], xs[1..], ys);
    }
  }

  lemma EnvRecordTags(runId: i32, env: seq<(string, string)>)
    ensures forall k :: 0 <= k < |env| ==> TagOf(EnvRecords(runId, env)[k]) == Tag("env", runId)
  {
    TagHasNoSpace("env", runId);
    forall k | 0 <= k < |env| ensures TagOf(EnvRecords(runId, env)[k]) == Tag("env", runId) {
      RecordRoundTrip(Tag("env", runId), env[k].0 + "=" + env[k].1);
    }
  }

  lemma CapturedRecordTags(runId: i32, outcome: ProcessOutcome)
    requires outcome.Spawned?
    ensures |CapturedRecords(runId, outcome)| == |outcome.stdout| + |outcome.stderr|
    ensures forall k :: 0 <= k < |CapturedRecords(runId, outcome)| ==>
              TagOf(CapturedRecords(runId, outcome)[k]) in {Tag("stdout", runId), Tag("stderr", runId)}
  {
    var outs := LineRecords(Stdout, runId, outcome.stdout);
    var errs := LineRecords(Stderr, runId, outcome.stderr);
    var captured := CapturedRecords(runId, outcome);
    MergeLength(outcome.schedule, outs, errs);
    forall k | 0 <= k < |captured|
      ensures TagOf(captured[k]) in {Tag("stdout", runId), Tag("stderr", runId)}
    {
      MergeMembers(outcome.schedule, outs, errs, k);
      if captured[k] in outs {
        var j :| 0 <= j < |outs| && outs[j] == captured[k];
        LineRecordIsRecord(Stdout, runId, outcome.stdout[j]);
      } else {
        var j :| 0 <= j < |errs| && errs[j] == captured[k];
        LineRecordIsRecord(Stderr, runId, outcome.stderr[j]);
      }
    }
  }

  lemma ExitedRecordTag(runId: i32, wait: WaitOutcome)
    ensures TagOf(ExitedRecord(runId, wait)) == Tag("exited", runId)
  {
    TagHasNoSpace("exited", runId);
    var tag := Tag("exited", runId);
    match wait
    case Exited(ExitStatus(Some(code))) => RecordRoundTrip(tag, "status = " + IntToString(code as int));
    case Exited(ExitStatus(None)) => RecordRoundTrip(tag, "status = unknown");
    case WaitFailed(e) => RecordRoundTrip(tag, "failed to wait on child process: = " + e);
  }

  /** The shape of one run's records: the `env[n]` lines, then, if the child
      was spawned, one `started[n]`, the `stdout[n]`/`stderr[n]` lines and one
      `exited[n]`, in that order; a failed spawn leaves only the env lines. */
  lemma RunRecordOrder(runId: i32, command: string, args: seq<string>, opts: Option<RunOptions>,
                       outcome: ProcessOutcome)
    ensures var recs := RunRecords(runId, command, args, opts, outcome);
      var n := |EnvOf(opts)|;
      && (forall k :: 0 <= k < n ==> TagOf(recs[k]) == Tag("env", runId))
      && (outcome.SpawnFailed? ==> |recs| == n)
      && (outcome.Spawned? ==>
            && |recs| == n + |outcome.stdout| + |outcome.stderr| + 2
            && TagOf(recs[n]) == Tag("started", runId)
            && (forall k :: n < k < |recs| - 1 ==> TagOf(recs[k]) in {Tag("stdout", runId), Tag("stderr", runId)})
            && TagOf(recs[|recs| - 1]) == Tag("exited", runId))
  {
    RunRecordsEnvTags(runId, command, args, opts, outcome);
    if outcome.Spawned? {
      RunRecordsSpawnedTags(runId, command, args, opts, outcome);
    }
  }

  lemma RunRecordsEnvTags(runId: i32, command: string, args: seq<string>, opts: Option<RunOptions>,
                          outcome: ProcessOutcome)
    ensures var recs := RunRecords(runId, command, args, opts, outcome);
      && |EnvOf(opts)| <= |recs|
      && (forall k :: 0 <= k < |EnvOf(opts)| ==> TagOf(recs[k]) == Tag("env", runId))
      && (outcome.SpawnFailed? ==> |recs| == |EnvOf(opts)|)
  {
    var recs := RunRecords(runId, command, args, opts, outcome);
    var envRecs := EnvRecords(runId, EnvOf(opts));
    RunRecordsParts(runId, command, args, opts, outcome);
    EnvRecordTags(runId, EnvOf(opts));
    assert forall k :: 0 <= k < |envRecs| ==> recs[k] == envRecs[k];
  }

  lemma RunRecordsSpawnedTags(runId: i32, command: string, args: seq<string>, opts: Option<RunOptions>,
                              outcome: ProcessOutcome)
    requires outcome.Spawned?
    ensures var recs := RunRecords(runId, command, args, opts, outcome);
      var n := |EnvOf(opts)|;
      && |recs| == n + |outcome.stdout| + |outcome.stderr| + 2
      && TagOf(recs[n]) == Tag("started", runId)
      && (forall k :: n < k < |recs| - 1 ==> TagOf(recs[k]) in {Tag("stdout", runId), Tag("stderr", runId)})
      && TagOf(recs[|recs| - 1]) == Tag("exited", runId)
  {
    var tail := [StartedRecord(runId, command, args)] + CapturedRecords(runId, outcome)
                + [ExitedRecord(runId, outcome.wait)];
    RunRecordsParts(runId, command, args, opts, outcome);
    SpawnedRecordOrder(runId, command, args, outcome);
    ShiftedTags(EnvRecords(runId, EnvOf(opts)), tail);
  }


  /** The records of a spawned child after its env lines: `started[n]`, the
      captured lines, `exited[n]`. */
  lemma SpawnedRecordOrder(runId: i32, command: string, args: seq<string>, outcome: ProcessOutcome)
    requires outcome.Spawned?
    ensures var tail := [StartedRecord(runId, command, args)] + CapturedRecords(runId, outcome)
                        + [ExitedRecord(runId, outcome.wait)];
      && |tail| == |outcome.stdout| + |outcome.stderr| + 2
      && TagOf(tail[0]) == Tag("started", runId)
      && (forall k :: 0 < k < |tail| - 1 ==> TagOf(tail[k]) in {Tag("stdout", runId), Tag("stderr", runId)})
      && TagOf(tail[|tail| - 1]) == Tag("exited", runId)
  {
    CapturedRecordTags(runId, outcome);
    TagHasNoSpace("started", runId);
    RecordRoundTrip(Tag("started", runId), command + " " + Join(args, " "));
    ExitedRecordTag(runId, outcome.wait);
    BracketedTags(StartedRecord(runId, command, args), CapturedRecords(runId, outcome),
                  ExitedRecord(runId, outcome.wait), {Tag("stdout", runId), Tag("stderr", runId)});
  }

  /** Tags of `[first] + mid + [last]`, for any records. */
  lemma BracketedTags(first: string, mid: seq<string>, last: string, midTags: set<string>)
    requires forall k :: 0 <= k < |mid| ==> TagOf(mid[k]) in midTags
    ensures var s := [first] + mid + [last];
      && |s| == |mid| + 2
      && TagOf(s[0]) == TagOf(first)
      && (forall k :: 0 < k < |s| - 1 ==> TagOf(s[k]) in midTags)
      && TagOf(s[|s| - 1]) == TagOf(last)
  {
    var s := [first] + mid + [last];
    assert forall k :: 0 < k < |s| - 1 ==> s[k] == mid[k - 1];
  }

  /** Tags of `pre + post` past the prefix are the tags of `post`. */
  lemma ShiftedTags(pre: seq<string>, post: seq<string>)
    ensures forall k :: |pre| <= k < |pre + post| ==> TagOf((pre + post)[k]) == TagOf(post[k - |pre|])
  {
  }


  /* ---------------------------------------------------------------------- */
  /* LoggedCmd                                                               */
  /* ---------------------------------------------------------------------- */

  /** `LoggedCmd`: the log file name, whether a file is open for appending,
      the run-id counter and the records this runner has appended. */
  class LoggedCmd {
    var logFile: string
    var fileOpen: bool
    var nextRunId: i32
    var log: seq<string>

    /** `LoggedCmd::new`: no file yet, and run ids start at 1. */
    constructor ()
      ensures logFile == "" && !fileOpen && nextRunId == 1 && log == []
    {
      logFile := "";
      fileOpen := false;
      nextRunId := 1;
      log := [];
    }

    /** `set_log_file`: records the name, then opens the file for appending;
        `openError` is the error the open reports, if any. */
    method SetLogFile(fileName: string, openError: Option<string>) returns (r: Result<(), string>)
      modifies this
      ensures logFile == fileName
      ensures fileOpen == (old(fileOpen) || openError.None?)
      ensures r == if openError.None? then Ok(()) else Err(openError.value)
      ensures nextRunId == old(nextRunId) && log == old(log)
    {
      logFile := fileName;
      if openError.Some? {
        return Err(openError.value);
      }
      fileOpen := true;
      r := Ok(());
    }

    /** `run_command`: takes the next run id, logs the environment overrides,
        spawns, logs `started`, drains both streams into the log, logs
        `exited` and classifies the status. The unwrap of the log file panics
        when none was set, so a caller must have set one. */
    method RunCommand(command: string, args: seq<string>, opts: Option<RunOptions>, outcome: ProcessOutcome)
      returns (r: Result<ExitStatus, RunError>)
      requires fileOpen
      modifies this
      ensures nextRunId == WrappingIncrement(old(nextRunId))
      ensures log == old(log) + RunRecords(old(nextRunId), command, args, opts, outcome)
      ensures r == RunResult(opts, outcome)
      ensures logFile == old(logFile) && fileOpen
    {
      var runId := nextRunId;
      nextRunId := WrappingIncrement(nextRunId);
      var allowFailure := false;
      if opts.Some? {
        if opts.value.allowFailure.Some? {
          allowFailure := opts.value.allowFailure.value;
        }
        if opts.value.env != [] {
          WriteEnv(runId, opts.value.env);
        }
      }
      assert allowFailure == AllowFailure(opts);
      ghost var afterEnv := log;
      assert afterEnv == old(log) + EnvRecords(runId, EnvOf(opts));
      ghost var records := RunRecords(runId, command, args, opts, outcome);
      RunRecordsParts(runId, command, args, opts, outcome);
      if outcome.SpawnFailed? {
        assert log == old(log) + records;
        return Err(SpawnError(outcome.reason));
      }
      ghost var tail := [StartedRecord(runId, command, args)] + CapturedRecords(runId, outcome)
                        + [ExitedRecord(runId, outcome.wait)];
      LogSpawnedRun(runId, command, args, outcome);
      assert log == afterEnv + tail;
      AppendAssoc(old(log), EnvRecords(runId, EnvOf(opts)), tail);

      match outcome.wait
      case WaitFailed(e) =>
        r := Err(WaitError(e));
      case Exited(status) =>
        if !allowFailure && !status.Success() {
          r := Err(CommandFailed(status));
        } else {
          r := Ok(status);
        }
    }

    /** The records of a spawned child: `started`, what the two readers
        write, then `exited` once the wait and both readers are done. */
    method LogSpawnedRun(runId: i32, command: string, args: seq<string>, outcome: ProcessOutcome)
      requires outcome.Spawned?
      modifies this`log
      ensures log == old(log) + ([StartedRecord(runId, command, args)] + CapturedRecords(runId, outcome)
                                 + [ExitedRecord(runId, outcome.wait)])
    {
      log := log + [StartedRecord(runId, command, args)];
      DrainStreams(runId, outcome);
      log := log + [ExitedRecord(runId, outcome.wait)];
    }

    /** The `for (key, value) in opts.env` loop: one `env[n]` record per override. */
    method WriteEnv(runId: i32, env: seq<(string, string)>)
      modifies this`log
      ensures log == old(log) + EnvRecords(runId, env)
    {
      for i := 0 to |env|
        invariant log == old(log) + EnvRecords(runId, env[..i])
      {
        log := log + [EnvRecord(runId, env[i].0, env[i].1)];
      }
      assert env[..|env|] == env;
    }

    /** The two `stream_reader` loops, run to completion: each writes one
        record per line of its stream, and the writes reach the log in the
        order the outcome's schedule gives. */
    method DrainStreams(runId: i32, outcome: ProcessOutcome)
      requires outcome.Spawned?
      modifies this`log
      ensures log == old(log) + CapturedRecords(runId, outcome)
    {
      var outs := LineRecords(Stdout, runId, outcome.stdout);
      var errs := LineRecords(Stderr, runId, outcome.stderr);
      var schedule := outcome.schedule;
      ghost var target := old(log) + Merge(schedule, outs, errs);
      var i, j := 0, 0;
      while i < |outs| || j < |errs|
        invariant 0 <= i <= |outs| && 0 <= j <= |errs|
        invariant log + Merge(schedule, outs[i..], errs[j..]) == target
        decreases |outs| - i + |errs| - j
      {
        DrainStep(log, schedule, outs, errs, i, j);
        if StdoutNext(schedule, outs[i..], errs[j..]) {
          log := log + [outs[i]];
          i := i + 1;
        } else {
          log := log + [errs[j]];
          j := j + 1;
        }
        schedule := Rest(schedule);
      }
      assert outs[i..] == [] && errs[j..] == [];
    }
  }

  /* ---------------------------------------------------------------------- */
  /* The module's own scenarios                                              */
  /* ---------------------------------------------------------------------- */

  /** Run id 1 is written "1". */
  lemma RunIdOneTag(kind: string)
    ensures Tag(kind, 1) == kind + "[1]"
  {
    assert NatToString(1) == "1";
  }

  /** A record under a short tag: the tag, spaces up to column 15, " -> ". */
  lemma ShortTagRecord(tag: string, payload: string)
    requires |tag| <= TAG_WIDTH
    ensures Record(tag, payload) == tag + Spaces(TAG_WIDTH - |tag|) + " -> " + payload + "\n"
  {
  }

  /** The records of run 1, with the padding written out. */
  lemma StartedOne(command: string, args: seq<string>)
    ensures StartedRecord(1, command, args) == "started[1]      -> " + command + " " + Join(args, " ") + "\n"
  {
    RunIdOneTag("started");
    ShortTagRecord("started[1]", command + " " + Join(args, " "));
    assert Spaces(5) == "     ";
  }

  lemma LineOne(s: Stream, line: string)
    ensures LineRecord(s, 1, line) == (if s == Stdout then "stdout[1]       ->  " else "stderr[1]       ->  ")
                                    + line + "\n"
  {
    var p := if s == Stdout then "stdout[1]       -> " else "stderr[1]       -> ";
    StreamPrefixOne(s);
    assert p + " " == if s == Stdout then "stdout[1]       ->  " else "stderr[1]       ->  ";
  }

  lemma StreamPrefixOne(s: Stream)
    ensures StreamPrefix(s, 1) == if s == Stdout then "stdout[1]       -> " else "stderr[1]       -> "
  {
    RunIdOneTag(StreamName(s));
    assert Spaces(6) == "      ";
  }

  lemma EnvOne(key: string, value: string)
    ensures EnvRecord(1, key, value) == "env[1]          -> " + key + "=" + value + "\n"
  {
    RunIdOneTag("env");
    ShortTagRecord("env[1]", key + "=" + value);
    assert Spaces(9) == "         ";
  }

  lemma ExitedOne(code: nat)
    requires code < 0x8000_0000
    ensures ExitedRecord(1, Exited(ExitStatus(Some(code as i32)))) == "exited[1]       -> status = " + NatToString(code) + "\n"
  {
    RunIdOneTag("exited");
    ShortTagRecord("exited[1]", "status = " + NatToString(code));
    assert Spaces(6) == "      ";
  }

  lemma LogTextThree(a: string, b: string, c: string)
    ensures LogText([a, b, c]) == a + b + c
  {
    assert [a, b, c][1..] == [b, c];
    assert [b, c][1..] == [c];
    assert [c][1..] == [];
    assert LogText([c]) == c + LogText([]);
  }

  lemma LogTextFour(a: string, b: string, c: string, d: string)
    ensures LogText([a, b, c, d]) == a + LogText([b, c, d])
  {
    assert [a, b, c, d][1..] == [b, c, d];
  }

  /** `echo "Test Success"` on a fresh runner: one started, one stdout and one
      exited record, all tagged with run id 1. */
  method EchoScenario() returns (text: string, r: Result<ExitStatus, RunError>)
    ensures text == "started[1]      -> echo Test Success\n"
                    + "stdout[1]       ->  Test Success\n"
                    + "exited[1]       -> status = 0\n"
    ensures r == Ok(ExitStatus(Some(0)))
  {
    var runner := new LoggedCmd();
    var _ := runner.SetLogFile("/tmp/test_log_success.txt", None);
    var outcome := Spawned(["Test Success"], [], [], Exited(ExitStatus(Some(0))));
    r := runner.RunCommand("echo", ["Test Success"], None, outcome);
    var st := StartedRecord(1, "echo", ["Test Success"]);
    var out := LineRecord(Stdout, 1, "Test Success");
    var ex := ExitedRecord(1, outcome.wait);
    assert CapturedRecords(1, outcome) == [out];
    assert runner.log == [st, out, ex];
    LogTextThree(st, out, ex);
    StartedOne("echo", ["Test Success"]);
    assert Join(["Test Success"], " ") == "Test Success";
    LineOne(Stdout, "Test Success");
    ExitedOne(0);
    assert NatToString(0) == "0";
    EchoText(st, out, ex);
    text := LogText(runner.log);
  }

  lemma EchoText(st: string, out: string, ex: string)
    requires st == "started[1]      -> " + "echo" + " " + "Test Success" + "\n"
    requires out == "stdout[1]       ->  " + "Test Success" + "\n"
    requires ex == "exited[1]       -> status = " + "0" + "\n"
    ensures st + out + ex == "started[1]      -> echo Test Success\n"
                             + "stdout[1]       ->  Test Success\n"
                             + "exited[1]       -> status = 0\n"
  {
  }

  const LS_ERROR := "ls: cannot access '/nonexistent_path': No such file or directory"

  /** `ls /nonexistent_path` exits with status 2: the run is logged in full,
      and the caller gets the failed status back as an error. */
  method FailingLsScenario() returns (text: string, r: Result<ExitStatus, RunError>)
    ensures text == "started[1]      -> ls /nonexistent_path\n"
                    + "stderr[1]       ->  " + LS_ERROR + "\n"
                    + "exited[1]       -> status = 2\n"
    ensures r == Err(CommandFailed(ExitStatus(Some(2))))
  {
    var runner := new LoggedCmd();
    var _ := runner.SetLogFile("/tmp/test_log_failure.txt", None);
    var outcome := Spawned([], [LS_ERROR], [], Exited(ExitStatus(Some(2))));
    r := runner.RunCommand("ls", ["/nonexistent_path"], None, outcome);
    text := LogText(runner.log);
    LsLog(runner.log, outcome);
  }

  /** The records of the failing `ls` run, as text. */
  lemma LsLog(log: seq<string>, outcome: ProcessOutcome)
    requires outcome == Spawned([], [LS_ERROR], [], Exited(ExitStatus(Some(2))))
    requires log == [] + RunRecords(1, "ls", ["/nonexistent_path"], None, outcome)
    ensures LogText(log) == "started[1]      -> ls /nonexistent_path\n"
                            + "stderr[1]       ->  " + LS_ERROR + "\n"
                            + "exited[1]       -> status = 2\n"
  {
    var st := StartedRecord(1, "ls", ["/nonexistent_path"]);
    var err := LineRecord(Stderr, 1, LS_ERROR);
    var ex := ExitedRecord(1, outcome.wait);
    LsRecords(outcome);
    assert log == [st, err, ex];
    LogTextThree(st, err, ex);
    LsLines(st, err, ex);
  }

  lemma LsRecords(outcome: ProcessOutcome)
    requires outcome == Spawned([], [LS_ERROR], [], Exited(ExitStatus(Some(2))))
    ensures RunRecords(1, "ls", ["/nonexistent_path"], None, outcome)
            == [StartedRecord(1, "ls", ["/nonexistent_path"]), LineRecord(Stderr, 1, LS_ERROR),
                ExitedRecord(1, outcome.wait)]
  {
    assert CapturedRecords(1, outcome) == [LineRecord(Stderr, 1, LS_ERROR)];
  }

  lemma LsLines(st: string, err: string, ex: string)
    requires st == StartedRecord(1, "ls", ["/nonexistent_path"])
    requires err == LineRecord(Stderr, 1, LS_ERROR)
    requires ex == ExitedRecord(1, Exited(ExitStatus(Some(2))))
    ensures st + err + ex == "started[1]      -> ls /nonexistent_path\n"
                             + "stderr[1]       ->  " + LS_ERROR + "\n"
                             + "exited[1]       -> status = 2\n"
  {
    StartedOne("ls", ["/nonexistent_path"]);
    assert Join(["/nonexistent_path"], " ") == "/nonexistent_path";
    LineOne(Stderr, LS_ERROR);
    ExitedOne(2);
    assert NatToString(2) == "2";
    LsText(st, err, ex);
  }

  lemma LsText(st: string, err: string, ex: string)
    requires st == "started[1]      -> " + "ls" + " " + "/nonexistent_path" + "\n"
    requires ex == "exited[1]       -> status = " + "2" + "\n"
    ensures st + err + ex == "started[1]      -> ls /nonexistent_path\n"
                             + err
                             + "exited[1]       -> status = 2\n"
  {
  }

  /** `printenv TEST_ENV` with the override TEST_ENV=12345: the override is
      logged before the command line. */
  method PrintenvScenario() returns (text: string, r: Result<ExitStatus, RunError>)
    ensures text == "env[1]          -> TEST_ENV=12345\n"
                    + "started[1]      -> printenv TEST_ENV\n"
                    + "stdout[1]       ->  12345\n"
                    + "exited[1]       -> status = 0\n"
    ensures r == Ok(ExitStatus(Some(0)))
  {
    var runner := new LoggedCmd();
    var _ := runner.SetLogFile("/tmp/test_log_env.txt", None);
    var opts := Some(RunOptions([("TEST_ENV", "12345")], None));
    var outcome := Spawned(["12345"], [], [], Exited(ExitStatus(Some(0))));
    r := runner.RunCommand("printenv", ["TEST_ENV"], opts, outcome);
    var e := EnvRecord(1, "TEST_ENV", "12345");
    var st := StartedRecord(1, "printenv", ["TEST_ENV"]);
    var out := LineRecord(Stdout, 1, "12345");
    var ex := ExitedRecord(1, outcome.wait);
    assert EnvRecords(1, EnvOf(opts)) == [e];
    assert CapturedRecords(1, outcome) == [out];
    assert runner.log == [e, st, out, ex];
    LogTextFour(e, st, out, ex);
    LogTextThree(st, out, ex);
    EnvOne("TEST_ENV", "12345");
    StartedOne("printenv", ["TEST_ENV"]);
    assert Join(["TEST_ENV"], " ") == "TEST_ENV";
    LineOne(Stdout, "12345");
    ExitedOne(0);
    assert NatToString(0) == "0";
    PrintenvText(e, st, out, ex);
    text := LogText(runner.log);
  }

  lemma PrintenvText(e: string, st: string, out: string, ex: string)
    requires e == "env[1]          -> " + "TEST_ENV" + "=" + "12345" + "\n"
    requires st == "started[1]      -> " + "printenv" + " " + "TEST_ENV" + "\n"
    requires out == "stdout[1]       ->  " + "12345" + "\n"
    requires ex == "exited[1]       -> status = " + "0" + "\n"
    ensures e + (st + out + ex) == "env[1]          -> TEST_ENV=12345\n"
                                   + "started[1]      -> printenv TEST_ENV\n"
                                   + "stdout[1]       ->  12345\n"
                                   + "exited[1]       -> status = 0\n"
  {
    assert e == "env[1]          -> TEST_ENV=12345\n";
    assert st == "started[1]      -> printenv TEST_ENV\n";
    assert out == "stdout[1]       ->  12345\n";
  }

  /** Three runs on a fresh runner see ids 1, 2 and 3; the failed spawn in
      the middle still uses up id 2, and its only records are its env lines. */
  method RunIdScenario(c1: string, c2: string, c3: string, opts2: Option<RunOptions>,
                       o1: ProcessOutcome, reason: string, o3: ProcessOutcome)
    returns (log: seq<string>, r2: Result<ExitStatus, RunError>, next: i32)
    ensures log == RunRecords(1, c1, [], None, o1)
                   + EnvRecords(2, EnvOf(opts2))
                   + RunRecords(3, c3, [], None, o3)
    ensures r2 == Err(SpawnError(reason))
    ensures next == 4
  {
    var runner := new LoggedCmd();
    var _ := runner.SetLogFile("ccm.log", None);
    ghost var l0 := runner.log;
    var _ := runner.RunCommand(c1, [], None, o1);
    ghost var l1 := runner.log;
    r2 := runner.RunCommand(c2, [], opts2, SpawnFailed(reason));
    ghost var l2 := runner.log;
    RunRecordsParts(2, c2, [], opts2, SpawnFailed(reason));
    var _ := runner.RunCommand(c3, [], None, o3);
    LogGrowth(l0, l1, l2, runner.log, RunRecords(1, c1, [], None, o1),
              EnvRecords(2, EnvOf(opts2)), RunRecords(3, c3, [], None, o3));
    log, next := runner.log, runner.nextRunId;
  }

  /** A log that starts empty and grows by `a`, `b` and `c` holds their
      concatenation. */
  lemma LogGrowth<T>(l0: seq<T>, l1: seq<T>, l2: seq<T>, l3: seq<T>, a: seq<T>, b: seq<T>, c: seq<T>)
    requires l0 == [] && l1 == l0 + a && l2 == l1 + b && l3 == l2 + c
    ensures l3 == a + b + c
  {
    assert l1 == a;
  }

  /** The id the `n`-th call (from 0) takes. */
  function RunIdOfCall(n: nat): i32
  {
    if n == 0 then 1 else WrappingIncrement(RunIdOfCall(n - 1))
  }

  /** Before the counter wraps, call `n` takes id `n + 1`, so the ids are distinct. */
  lemma {:induction false} RunIdsCount(n: nat)
    requires n < 0x7FFF_FFFF
    ensures RunIdOfCall(n) as int == n + 1
  {
    if n > 0 {
      RunIdsCount(n - 1);
    }
  }

  /** The counter wraps on the call after id 2147483647: that call gets -2147483648. */
  lemma RunIdWraps()
    ensures RunIdOfCall(0x7FFF_FFFF) as int == -0x8000_0000
  {
    RunIdsCount(0x7FFF_FFFE);
  }
}
