/** One `convertFile` call, driven by an abstract engine outcome: the status
    transitions it writes into the job list, the progress events the engine
    emits meanwhile, and the command it hands to the engine. */
module Conversion {
  import opened Wrappers
  import opened Formats
  import opened Naming
  import opened Command
  import opened Jobs
  import opened Intake

  /** What the engine does for one conversion, as the job list sees it.
      `EngineMissing`: no engine instance exists after the load attempt.
      `EngineFailed`: writing, running or reading threw after `ticks` progress
      events. `EngineSucceeded`: the output was read back after `ticks`
      progress events and published under the object URL `url`. */
  datatype Outcome =
    | EngineMissing
    | EngineFailed(ticks: seq<int>)
    | EngineSucceeded(ticks: seq<int>, url: string)

  /** A write to the job list: an id-targeted status change, or a progress
      event from the engine, which names no job. */
  datatype Event = Set(id: string, change: Change) | Tick(percent: int)

  /** One event applied to the whole list. */
  function Step(jobs: seq<Job>, e: Event): seq<Job>
  {
    match e
    case Set(id, c) => UpdateById(jobs, id, c)
    case Tick(p) => ApplyProgress(jobs, p)
  }

  /** Events applied in order. */
  function Run(jobs: seq<Job>, es: seq<Event>): seq<Job>
    decreases |es|
  {
    if |es| == 0 then jobs else Run(Step(jobs, es[0]), es[1..])
  }

  /** One event seen from a single record. */
  function StepJob(j: Job, e: Event): Job
  {
    match e
    case Set(id, c) => if j.id == id then Apply(j, c) else j
    case Tick(p) => if j.status == Converting && j.progress < 100 then j.(progress := p) else j
  }

  /** Events applied in order to a single record. */
  function RunJob(j: Job, es: seq<Event>): Job
    decreases |es|
  {
    if |es| == 0 then j else RunJob(StepJob(j, es[0]), es[1..])
  }

  /** Every event rewrites records independently, so running events over
      the list is running them over each record. */
  lemma {:induction false} RunPointwise(jobs: seq<Job>, es: seq<Event>)
    ensures |Run(jobs, es)| == |jobs|
    ensures forall i :: 0 <= i < |jobs| ==> Run(jobs, es)[i] == RunJob(jobs[i], es)
    decreases |es|
  {
    if |es| > 0 {
      var next := Step(jobs, es[0]);
      assert |next| == |jobs| && forall i :: 0 <= i < |jobs| ==> next[i] == StepJob(jobs[i], es[0]);
      RunPointwise(next, es[1..]);
    }
  }

  /** Running two event sequences one after the other. */
  lemma {:induction false} RunJobAppend(j: Job, a: seq<Event>, b: seq<Event>)
    ensures RunJob(j, a + b) == RunJob(RunJob(j, a), b)
    decreases |a|
  {
    if |a| == 0 {
      assert a + b == b;
    } else {
      assert (a + b)[1..] == a[1..] + b;
      RunJobAppend(StepJob(j, a[0]), a[1..], b);
    }
  }

  /** Two events in a row, seen from one record. */
  lemma RunJobTwo(j: Job, e1: Event, e2: Event)
    ensures RunJob(j, [e1, e2]) == StepJob(StepJob(j, e1), e2)
    ensures RunJob(j, [e1]) == StepJob(j, e1)
  {
    assert [e1, e2][1..] == [e2];
    assert [e2][1..] == [] && [e1][1..] == [];
    var j1 := StepJob(j, e1);
    assert RunJob(j1, []) == j1;
    assert RunJob(StepJob(j1, e2), []) == StepJob(j1, e2);
    assert RunJob(j1, [e2]) == StepJob(j1, e2);
  }

  /** The engine's progress events, in order. */
  function Ticks(ps: seq<int>): (r: seq<Event>)
    ensures |r| == |ps| && forall i :: 0 <= i < |ps| ==> r[i] == Tick(ps[i])
  {
    seq(|ps|, i requires 0 <= i < |ps| => Tick(ps[i]))
  }

  /** Every record a sequence of events passes through, first to last. */
  function Trace(j: Job, es: seq<Event>): (r: seq<Job>)
    ensures |r| == |es| + 1 && r[0] == j && r[|es|] == RunJob(j, es)
    decreases |es|
  {
    if |es| == 0 then [j] else [j] + Trace(StepJob(j, es[0]), es[1..])
  }

  /** The trace of two event sequences joins their traces. */
  lemma {:induction false} TraceAppend(j: Job, a: seq<Event>, b: seq<Event>)
    ensures Trace(j, a + b) == Trace(j, a) + Trace(RunJob(j, a), b)[1..]
    decreases |a|
  {
    if |a| == 0 {
      assert a + b == b;
    } else {
      assert (a + b)[1..] == a[1..] + b;
      TraceAppend(StepJob(j, a[0]), a[1..], b);
    }
  }

  /** Progress events change no record's id, status, file or output fields. */
  lemma {:induction false} TicksKeepStatus(j: Job, ps: seq<int>)
    ensures forall t :: t in Trace(j, Ticks(ps)) ==> t.(progress := 0) == j.(progress := 0)
    decreases |ps|
  {
    if |ps| > 0 {
      var es := Ticks(ps);
      assert es[1..] == Ticks(ps[1..]);
      TicksKeepStatus(StepJob(j, es[0]), ps[1..]);
    }
  }

  /** After progress events a record differs at most in its progress. */
  lemma TicksKeepRecord(j: Job, ps: seq<int>)
    ensures RunJob(j, Ticks(ps)).(progress := 0) == j.(progress := 0)
  {
    TicksKeepStatus(j, ps);
    assert RunJob(j, Ticks(ps)) in Trace(j, Ticks(ps));
  }

  /** The status changes made in order, one for each id-targeted event that
      hits the record; progress events contribute none. */
  function StatusPath(j: Job, es: seq<Event>): seq<Status>
    decreases |es|
  {
    if |es| == 0 then []
    else
      var next := StepJob(j, es[0]);
      (if es[0].Set? && es[0].id == j.id then [next.status] else []) + StatusPath(next, es[1..])
  }

  /** The status path of two event sequences joins their paths. */
  lemma {:induction false} StatusPathAppend(j: Job, a: seq<Event>, b: seq<Event>)
    ensures StatusPath(j, a + b) == StatusPath(j, a) + StatusPath(RunJob(j, a), b)
    decreases |a|
  {
    if |a| == 0 {
      assert a + b == b;
    } else {
      assert (a + b)[1..] == a[1..] + b;
      StatusPathAppend(StepJob(j, a[0]), a[1..], b);
    }
  }

  /** The status path of two id-targeted changes to the record. */
  lemma StatusPathTwo(j: Job, e1: Event, e2: Event)
    requires e1.Set? && e2.Set? && e1.id == j.id && e2.id == j.id
    ensures StatusPath(j, [e1, e2]) == [Target(e1.change), Target(e2.change)]
    ensures StatusPath(j, [e1]) == [Target(e1.change)]
  {
    assert [e1, e2][1..] == [e2];
    assert [e2][1..] == [] && [e1][1..] == [];
    var j1 := StepJob(j, e1);
    assert StatusPath(j1, []) == [];
    assert StatusPath(StepJob(j1, e2), []) == [];
    assert StatusPath(j1, [e2]) == [Target(e2.change)];
  }

  /** Progress events add nothing to a record's status path. */
  lemma {:induction false} StatusPathTicks(j: Job, ps: seq<int>)
    ensures StatusPath(j, Ticks(ps)) == []
    decreases |ps|
  {
    if |ps| > 0 {
      assert Ticks(ps)[1..] == Ticks(ps[1..]);
      StatusPathTicks(StepJob(j, Tick(ps[0])), ps[1..]);
    }
  }

  /** The names a completed record carries: the download name, and the
      input and output scratch names in the engine's file system. */
  datatype Names = Names(download: string, input: string, output: string)

  /** The names `convertFile` derives for a job, its file and the selected
      format. */
  function JobNames(id: string, file: File, fmt: string): Names
  {
    Names(OutputFileName(file.name, fmt), InputFileName(id, file.name), OutputFilePath(id, fmt))
  }

  /** The completing write for a published URL. */
  function Completion(url: string, names: Names): Change
  {
    ToCompleted(url, names.download, names.input, names.output)
  }

  /** The writes of a conversion that reached the engine: `uploading`,
      `converting`, the engine's progress events, then one final change. */
  function EngineEvents(id: string, ps: seq<int>, last: Change): seq<Event>
  {
    [Set(id, ToUploading), Set(id, ToConverting)] + Ticks(ps) + [Set(id, last)]
  }

  /** The writes `convertFile(file, id)` makes to the list for an outcome:
      `uploading` first; then `error` if there is no engine; otherwise
      `converting`, the engine's progress events, and `completed` or `error`. */
  function ConvertEvents(id: string, names: Names, outcome: Outcome): seq<Event>
  {
    match outcome
    case EngineMissing => [Set(id, ToUploading), Set(id, ToError)]
    case EngineFailed(ps) => EngineEvents(id, ps, ToError)
    case EngineSucceeded(ps, url) => EngineEvents(id, ps, Completion(url, names))
  }

  /** The status path an outcome prescribes. */
  function ExpectedPath(outcome: Outcome): seq<Status>
  {
    match outcome
    case EngineMissing => [Uploading, Error]
    case EngineFailed(_) => [Uploading, Converting, Error]
    case EngineSucceeded(_, _) => [Uploading, Converting, Completed]
  }

  /** After `uploading`, `converting` and any progress events, one more
      change to the record: three status changes, in that order. */
  lemma PathThroughEngine(j: Job, ps: seq<int>, c: Change)
    ensures StatusPath(j, EngineEvents(j.id, ps, c)) == [Uploading, Converting, Target(c)]
  {
    var head := [Set(j.id, ToUploading), Set(j.id, ToConverting)];
    StatusPathTwo(j, Set(j.id, ToUploading), Set(j.id, ToConverting));
    RunJobTwo(j, Set(j.id, ToUploading), Set(j.id, ToConverting));
    var mid := RunJob(j, head);
    StatusPathAppend(j, head + Ticks(ps), [Set(j.id, c)]);
    StatusPathAppend(j, head, Ticks(ps));
    StatusPathTicks(mid, ps);
    RunJobAppend(j, head, Ticks(ps));
    TicksKeepRecord(mid, ps);
    StatusPathTwo(RunJob(mid, Ticks(ps)), Set(j.id, c), Set(j.id, c));
  }

  /** Without an engine the record goes `uploading` and then `error`. */
  lemma PathWithoutEngine(j: Job)
    ensures StatusPath(j, [Set(j.id, ToUploading), Set(j.id, ToError)]) == [Uploading, Error]
  {
    StatusPathTwo(j, Set(j.id, ToUploading), Set(j.id, ToError));
  }

  /** The job being converted moves `uploading → error` when there is no
      engine, and `uploading → converting → completed | error` otherwise. */
  lemma ConvertStatusPath(j: Job, names: Names, outcome: Outcome)
    ensures StatusPath(j, ConvertEvents(j.id, names, outcome)) == ExpectedPath(outcome)
  {
    match outcome
    case EngineMissing => PathWithoutEngine(j);
    case EngineFailed(ps) => PathThroughEngine(j, ps, ToError);
    case EngineSucceeded(ps, url) => PathThroughEngine(j, ps, Completion(url, names));
  }

  /** The record a conversion leaves for its own job: completed at 100 with
      the URL and the derived names on success; `error` otherwise, with the
      output fields as they were. */
  lemma ConvertTarget(j: Job, names: Names, outcome: Outcome)
    ensures var r := RunJob(j, ConvertEvents(j.id, names, outcome));
      && r.id == j.id && r.fileName == j.fileName && r.fileSize == j.fileSize
      && (outcome.EngineSucceeded? ==>
            && r.status == Completed && r.progress == 100
            && r.downloadUrl == Some(outcome.url)
            && r.outputFileName == Some(names.download)
            && r.inputFilePath == Some(names.input)
            && r.outputFilePath == Some(names.output))
      && (!outcome.EngineSucceeded? ==>
            && r.status == Error
            && r.downloadUrl == j.downloadUrl && r.outputFileName == j.outputFileName
            && r.inputFilePath == j.inputFilePath && r.outputFilePath == j.outputFilePath)
  {
    var id := j.id;
    var head := [Set(id, ToUploading), Set(id, ToConverting)];
    RunJobTwo(j, Set(id, ToUploading), Set(id, ToConverting));
    match outcome
    case EngineMissing =>
      RunJobTwo(j, Set(id, ToUploading), Set(id, ToError));
    case EngineFailed(ps) =>
      RunJobAppend(j, head + Ticks(ps), [Set(id, ToError)]);
      RunJobAppend(j, head, Ticks(ps));
      TicksKeepStatus(RunJob(j, head), ps);
    case EngineSucceeded(ps, url) =>
      RunJobAppend(j, head + Ticks(ps), [Set(id, Completion(url, names))]);
      RunJobAppend(j, head, Ticks(ps));
      TicksKeepStatus(RunJob(j, head), ps);
  }

  /** A record holds a download URL exactly when it is completed. */
  predicate UrlIffCompleted(j: Job)
  {
    j.downloadUrl.Some? <==> j.status == Completed
  }

  /** Starting from a record that is not completed and has no URL, every
      record a conversion passes through holds a URL exactly when it is
      completed: the URL is set on the completing write and never before. */
  lemma ConvertSetsUrlOnlyOnCompletion(j: Job, names: Names, outcome: Outcome)
    requires j.status != Completed && j.downloadUrl.None?
    ensures forall t :: t in Trace(j, ConvertEvents(j.id, names, outcome)) ==> UrlIffCompleted(t)
  {
    var id := j.id;
    var head := [Set(id, ToUploading), Set(id, ToConverting)];
    var mid := RunJob(j, head);
    assert Trace(j, head) == [j, Apply(j, ToUploading), mid];
    match outcome
    case EngineMissing =>
      RunJobTwo(j, Set(id, ToUploading), Set(id, ToError));
      assert Trace(j, ConvertEvents(id, names, outcome)) == [j, Apply(j, ToUploading), Apply(Apply(j, ToUploading), ToError)];
    case EngineFailed(ps) =>
      LastStepTrace(j, head, ps, ToError);
    case EngineSucceeded(ps, url) =>
      LastStepTrace(j, head, ps, Completion(url, names));
  }

  /** The trace of `head`, progress events and one final change, for the
      lemma above: the record stays converting without a URL until the final
      change. */
  lemma LastStepTrace(j: Job, head: seq<Event>, ps: seq<int>, c: Change)
    requires j.status != Completed && j.downloadUrl.None?
    requires head == [Set(j.id, ToUploading), Set(j.id, ToConverting)]
    requires !c.ToUploading? && !c.ToConverting?
    ensures forall t :: t in Trace(j, EngineEvents(j.id, ps, c)) ==> UrlIffCompleted(t)
  {
    HeadTrace(j);
    var mid := RunJob(j, head);
    TicksTraceNoUrl(mid, ps);
    var last := RunJob(mid, Ticks(ps));
    EngineTrace(j, head, ps, c);
    var ticks := Trace(mid, Ticks(ps));
    assert forall t :: t in ticks[1..] ==> t in ticks;
    assert UrlIffCompleted(Apply(last, c));
    JoinUrlIffCompleted(Trace(j, head), ticks[1..], Apply(last, c));
  }

  /** Three parts of a trace that each keep URL and status in step. */
  lemma JoinUrlIffCompleted(a: seq<Job>, b: seq<Job>, x: Job)
    requires forall t :: t in a ==> UrlIffCompleted(t)
    requires forall t :: t in b ==> UrlIffCompleted(t)
    requires UrlIffCompleted(x)
    ensures forall t :: t in a + b + [x] ==> UrlIffCompleted(t)
  {
  }

  /** The records `uploading` and `converting` pass through. */
  lemma HeadTrace(j: Job)
    ensures var head := [Set(j.id, ToUploading), Set(j.id, ToConverting)];
      && RunJob(j, head) == Apply(Apply(j, ToUploading), ToConverting)
      && Trace(j, head) == [j, Apply(j, ToUploading), RunJob(j, head)]
  {
    RunJobTwo(j, Set(j.id, ToUploading), Set(j.id, ToConverting));
  }

  /** The trace of a conversion that reached the engine, in three parts. */
  lemma EngineTrace(j: Job, head: seq<Event>, ps: seq<int>, c: Change)
    requires head == [Set(j.id, ToUploading), Set(j.id, ToConverting)]
    ensures var mid := RunJob(j, head);
      Trace(j, EngineEvents(j.id, ps, c))
        == Trace(j, head) + Trace(mid, Ticks(ps))[1..] + [Apply(RunJob(mid, Ticks(ps)), c)]
  {
    RunJobTwo(j, Set(j.id, ToUploading), Set(j.id, ToConverting));
    var mid := RunJob(j, head);
    var last := RunJob(mid, Ticks(ps));
    RunJobAppend(j, head, Ticks(ps));
    TraceAppend(j, head, Ticks(ps));
    TraceAppend(j, head + Ticks(ps), [Set(j.id, c)]);
    TicksKeepRecord(mid, ps);
    TraceOne(last, Set(j.id, c));
  }

  /** The trace of a single event. */
  lemma TraceOne(j: Job, e: Event)
    ensures Trace(j, [e]) == [j, StepJob(j, e)]
  {
    assert [e][1..] == [];
  }

  /** A converting record without a URL keeps both through progress events. */
  lemma TicksTraceNoUrl(j: Job, ps: seq<int>)
    requires j.status == Converting && j.downloadUrl.None?
    ensures forall t :: t in Trace(j, Ticks(ps)) ==> t.status == Converting && t.downloadUrl.None?
  {
    TicksKeepStatus(j, ps);
    forall t | t in Trace(j, Ticks(ps)) ensures t.status == Converting && t.downloadUrl.None? {
      assert t.(progress := 0) == j.(progress := 0);
    }
  }

  /** What a conversion does to the other records: their ids, statuses,
      files and output fields stay; only a converting record's progress can
      move, because progress events name no job. A record in any other
      status is left exactly as it was. */
  lemma ConvertOthers(j: Job, id: string, names: Names, outcome: Outcome)
    requires j.id != id
    ensures var r := RunJob(j, ConvertEvents(id, names, outcome));
      && r.(progress := 0) == j.(progress := 0)
      && (j.status != Converting ==> r == j)
  {
    var head := [Set(id, ToUploading), Set(id, ToConverting)];
    RunJobTwo(j, Set(id, ToUploading), Set(id, ToConverting));
    match outcome
    case EngineMissing =>
      RunJobTwo(j, Set(id, ToUploading), Set(id, ToError));
    case EngineFailed(ps) =>
      RunJobAppend(j, head + Ticks(ps), [Set(id, ToError)]);
      RunJobAppend(j, head, Ticks(ps));
      TicksKeepStatus(j, ps);
      if j.status != Converting { TicksLeaveNonConverting(j, ps); }
    case EngineSucceeded(ps, url) =>
      RunJobAppend(j, head + Ticks(ps), [Set(id, Completion(url, names))]);
      RunJobAppend(j, head, Ticks(ps));
      TicksKeepStatus(j, ps);
      if j.status != Converting { TicksLeaveNonConverting(j, ps); }
  }

  /** Progress events leave a record that is not converting untouched. */
  lemma {:induction false} TicksLeaveNonConverting(j: Job, ps: seq<int>)
    requires j.status != Converting
    ensures RunJob(j, Ticks(ps)) == j
    decreases |ps|
  {
    if |ps| > 0 {
      assert Ticks(ps)[1..] == Ticks(ps[1..]);
      TicksLeaveNonConverting(j, ps[1..]);
    }
  }

  /** `convertFile(file, id)` run to its end on the list. */
  function ConvertFile(jobs: seq<Job>, id: string, file: File, fmt: string, outcome: Outcome): (r: seq<Job>)
    ensures |r| == |jobs|
    ensures forall i :: 0 <= i < |jobs| ==> r[i].(progress := 0) == jobs[i].(progress := 0) || jobs[i].id == id
    ensures forall i :: 0 <= i < |jobs| && jobs[i].id == id ==>
              r[i].status == (if outcome.EngineSucceeded? then Completed else Error)
    ensures forall i :: 0 <= i < |jobs| && jobs[i].id == id && outcome.EngineSucceeded? ==>
              && r[i].progress == 100 && r[i].downloadUrl == Some(outcome.url)
              && r[i].outputFileName == Some(OutputFileName(file.name, fmt))
    ensures forall i :: 0 <= i < |jobs| && jobs[i].id == id && !outcome.EngineSucceeded? ==>
              r[i].downloadUrl == jobs[i].downloadUrl
  {
    var names := JobNames(id, file, fmt);
    var r := Run(jobs, ConvertEvents(id, names, outcome));
    RunPointwise(jobs, ConvertEvents(id, names, outcome));
    forall i | 0 <= i < |jobs|
      ensures r[i].(progress := 0) == jobs[i].(progress := 0) || jobs[i].id == id
      ensures jobs[i].id == id ==> r[i].status == (if outcome.EngineSucceeded? then Completed else Error)
      ensures jobs[i].id == id && outcome.EngineSucceeded? ==>
                && r[i].progress == 100 && r[i].downloadUrl == Some(outcome.url)
                && r[i].outputFileName == Some(OutputFileName(file.name, fmt))
      ensures jobs[i].id == id && !outcome.EngineSucceeded? ==> r[i].downloadUrl == jobs[i].downloadUrl
    {
      if jobs[i].id == id {
        ConvertTarget(jobs[i], names, outcome);
      } else {
        ConvertOthers(jobs[i], id, names, outcome);
      }
    }
    r
  }

  /** The command `convertFile` hands to the engine for a job. */
  function ExecArgs(id: string, file: File, fmt: string): seq<string>
  {
    BuildArgs(InputFileName(id, file.name), fmt, OutputFilePath(id, fmt))
  }

  /** Two jobs' commands address different scratch files, so concurrent
      jobs on one engine do not overwrite each other's input or output. */
  lemma ExecArgsSeparateJobs(id1: string, f1: File, id2: string, f2: File, fmt: string)
    requires id1 != id2 && '.' !in fmt
    ensures var a1, a2 := ExecArgs(id1, f1, fmt), ExecArgs(id2, f2, fmt);
      a1[1] != a2[1] && a1[|a1| - 1] != a2[|a2| - 1]
  {
    if InputFileName(id1, f1.name) == InputFileName(id2, f2.name) {
      InputFileNameInjective(id1, f1.name, id2, f2.name);
    }
    if OutputFilePath(id1, fmt) == OutputFilePath(id2, fmt) {
      OutputFilePathInjective(id1, fmt, id2, fmt);
    }
  }
}
