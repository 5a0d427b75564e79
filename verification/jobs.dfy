/** The job list the converter keeps, and the id-targeted updates, the
    progress handler and the removals that rewrite it. */
module Jobs {
  import opened Wrappers

  /** The five statuses a job record takes. */
  datatype Status = Idle | Uploading | Converting | Completed | Error

  /** One uploaded file's conversion record. `fileSize` is the byte count the
      record displays; the output fields are filled in on completion. */
  datatype Job = Job(
    id: string,
    status: Status,
    progress: int,
    fileName: string,
    fileSize: nat,
    downloadUrl: Option<string>,
    outputFileName: Option<string>,
    inputFilePath: Option<string>,
    outputFilePath: Option<string>)

  /** The record updates `convertFile` makes, each a spread `{ ...state, … }`. */
  datatype Change =
    | ToUploading
    | ToConverting
    | ToError
    | ToCompleted(url: string, outputName: string, inputPath: string, outputPath: string)

  /** The status a change moves a job to. */
  function Target(c: Change): Status
  {
    match c
    case ToUploading => Uploading
    case ToConverting => Converting
    case ToError => Error
    case ToCompleted(_, _, _, _) => Completed
  }

  /** Applies one change to one record. Only the fields the spread names are
      replaced; the id, the file and every other field carry over. */
  function Apply(j: Job, c: Change): (r: Job)
    ensures r.id == j.id && r.fileName == j.fileName && r.fileSize == j.fileSize
    ensures r.status == Target(c)
    ensures c.ToUploading? || c.ToConverting? ==> r.progress == 0
    ensures c.ToError? ==> r.progress == j.progress
    ensures !c.ToCompleted? ==>
              && r.downloadUrl == j.downloadUrl && r.outputFileName == j.outputFileName
              && r.inputFilePath == j.inputFilePath && r.outputFilePath == j.outputFilePath
    ensures c.ToCompleted? ==>
              && r.progress == 100 && r.downloadUrl == Some(c.url)
              && r.outputFileName == Some(c.outputName) && r.inputFilePath == Some(c.inputPath)
              && r.outputFilePath == Some(c.outputPath)
  {
    match c
    case ToUploading => j.(status := Uploading, progress := 0)
    case ToConverting => j.(status := Converting, progress := 0)
    case ToError => j.(status := Error)
    case ToCompleted(url, outName, inPath, outPath) =>
      j.(status := Completed, progress := 100, downloadUrl := Some(url),
         outputFileName := Some(outName), inputFilePath := Some(inPath), outputFilePath := Some(outPath))
  }

  /** The ids of a list, in order. */
  function Ids(jobs: seq<Job>): (r: seq<string>)
    ensures |r| == |jobs| && forall i :: 0 <= i < |jobs| ==> r[i] == jobs[i].id
  {
    if |jobs| == 0 then [] else [jobs[0].id] + Ids(jobs[1..])
  }

  /** `jobs.map(s => s.id === id ? apply(s) : s)`: every record with the id
      gets the change, every other record stays as it was and where it was. */
  function UpdateById(jobs: seq<Job>, id: string, c: Change): (r: seq<Job>)
    ensures |r| == |jobs|
    ensures forall i :: 0 <= i < |jobs| && jobs[i].id == id ==> r[i] == Apply(jobs[i], c)
    ensures forall i :: 0 <= i < |jobs| && jobs[i].id != id ==> r[i] == jobs[i]
  {
    if |jobs| == 0 then []
    else [if jobs[0].id == id then Apply(jobs[0], c) else jobs[0]] + UpdateById(jobs[1..], id, c)
  }

  /** An update keeps the list's ids and their order. */
  lemma UpdateByIdKeepsIds(jobs: seq<Job>, id: string, c: Change)
    ensures Ids(UpdateById(jobs, id, c)) == Ids(jobs)
  {
  }

  /** An update aimed at an id nobody has, such as a job removed while its
      conversion ran, leaves the list as it is. */
  lemma UpdateAbsentId(jobs: seq<Job>, id: string, c: Change)
    requires id !in Ids(jobs)
    ensures UpdateById(jobs, id, c) == jobs
  {
    var r := UpdateById(jobs, id, c);
    forall i | 0 <= i < |jobs| ensures r[i] == jobs[i] {
      assert Ids(jobs)[i] == jobs[i].id;
    }
  }

  /** Updates aimed at two different ids commute. */
  lemma UpdatesCommute(jobs: seq<Job>, id1: string, c1: Change, id2: string, c2: Change)
    requires id1 != id2
    ensures UpdateById(UpdateById(jobs, id1, c1), id2, c2) == UpdateById(UpdateById(jobs, id2, c2), id1, c1)
  {
  }

  /** The progress handler: `jobs.map(s => s.status === 'converting' &&
      s.progress < 100 ? { ...s, progress: percent } : s)`. */
  function ApplyProgress(jobs: seq<Job>, percent: int): (r: seq<Job>)
    ensures |r| == |jobs|
    ensures forall i :: 0 <= i < |jobs| && jobs[i].status == Converting && jobs[i].progress < 100 ==>
      r[i] == jobs[i].(progress := percent)
    ensures forall i :: 0 <= i < |jobs| && !(jobs[i].status == Converting && jobs[i].progress < 100) ==>
      r[i] == jobs[i]
  {
    if |jobs| == 0 then []
    else
      var j := jobs[0];
      [if j.status == Converting && j.progress < 100 then j.(progress := percent) else j]
        + ApplyProgress(jobs[1..], percent)
  }

  /** A progress event changes no id, status, file or output field: only the
      progress of converting records. Jobs in any other status, and converting
      jobs already at 100, are left exactly as they were. */
  lemma ProgressTouchesOnlyConverting(jobs: seq<Job>, percent: int, i: nat)
    requires i < |jobs|
    ensures ApplyProgress(jobs, percent)[i].(progress := 0) == jobs[i].(progress := 0)
    ensures jobs[i].status != Converting ==> ApplyProgress(jobs, percent)[i] == jobs[i]
    ensures jobs[i].progress >= 100 ==> ApplyProgress(jobs, percent)[i] == jobs[i]
  {
  }

  /** The handler copies the engine's figure as it comes: a later, smaller
      figure moves a converting job's progress backwards. */
  lemma ProgressCanDecrease(j: Job)
    requires j.status == Converting && j.progress < 100
    ensures ApplyProgress(ApplyProgress([j], 60), 30)[0].progress == 30
  {
  }

  /** Progress events are not tagged with a job: one event moves every
      converting job below 100, not just the one the engine is working on. */
  lemma ProgressReachesEveryConvertingJob(a: Job, b: Job, percent: int)
    requires a.status == Converting && a.progress < 100
    requires b.status == Converting && b.progress < 100
    ensures ApplyProgress([a, b], percent)[0].progress == percent
    ensures ApplyProgress([a, b], percent)[1].progress == percent
  {
  }

  /** `handleReset`: `jobs.filter(s => s.id !== id)`. */
  function RemoveById(jobs: seq<Job>, id: string): (r: seq<Job>)
    ensures |r| <= |jobs|
    ensures forall j :: j in r <==> j in jobs && j.id != id
  {
    if |jobs| == 0 then []
    else
      assert jobs == [jobs[0]] + jobs[1..];
      (if jobs[0].id == id then [] else [jobs[0]]) + RemoveById(jobs[1..], id)
  }

  /** Each record with another id is kept as many times as it occurs; those
      with the id are all gone. */
  lemma {:induction false} RemoveByIdCounts(jobs: seq<Job>, id: string)
    ensures forall j :: multiset(RemoveById(jobs, id))[j] == if j.id == id then 0 else multiset(jobs)[j]
  {
    if |jobs| > 0 {
      assert jobs == [jobs[0]] + jobs[1..];
      RemoveByIdCounts(jobs[1..], id);
    }
  }

  /** Removal distributes over concatenation, so the kept records stay in
      their original relative order. */
  lemma {:induction false} RemoveByIdAppend(a: seq<Job>, b: seq<Job>, id: string)
    ensures RemoveById(a + b, id) == RemoveById(a, id) + RemoveById(b, id)
  {
    if |a| == 0 {
      assert a + b == b;
    } else {
      assert (a + b)[1..] == a[1..] + b;
      RemoveByIdAppend(a[1..], b, id);
    }
  }

  /** Removing an id nobody has leaves the list as it is. */
  lemma {:induction false} RemoveAbsentId(jobs: seq<Job>, id: string)
    requires id !in Ids(jobs)
    ensures RemoveById(jobs, id) == jobs
  {
    if |jobs| > 0 {
      assert Ids(jobs)[0] == jobs[0].id;
      assert Ids(jobs[1..]) == Ids(jobs)[1..];
      RemoveAbsentId(jobs[1..], id);
    }
  }

  /** Removing a job discards every trace of the updates aimed at it. */
  lemma {:induction false} RemoveAfterUpdate(jobs: seq<Job>, id: string, c: Change)
    ensures RemoveById(UpdateById(jobs, id, c), id) == RemoveById(jobs, id)
  {
    if |jobs| > 0 {
      assert UpdateById(jobs, id, c)[1..] == UpdateById(jobs[1..], id, c);
      RemoveAfterUpdate(jobs[1..], id, c);
    }
  }

  /** An update distributes over concatenation. */
  lemma UpdateByIdAppend(a: seq<Job>, b: seq<Job>, id: string, c: Change)
    ensures UpdateById(a + b, id, c) == UpdateById(a, id, c) + UpdateById(b, id, c)
  {
  }

  /** Removing one job and updating another commute: removal leaves the
      other jobs' state alone. */
  lemma {:induction false} RemoveUpdateCommute(jobs: seq<Job>, id: string, other: string, c: Change)
    requires id != other
    ensures RemoveById(UpdateById(jobs, other, c), id) == UpdateById(RemoveById(jobs, id), other, c)
  {
    if |jobs| > 0 {
      var h, t := jobs[0], jobs[1..];
      assert jobs == [h] + t;
      var h' := if h.id == other then Apply(h, c) else h;
      var ut := UpdateById(t, other, c);
      assert UpdateById(jobs, other, c) == [h'] + ut;
      RemoveByIdAppend([h'], ut, id);
      RemoveUpdateCommute(t, id, other, c);
      RemoveByIdAppend([h], t, id);
      UpdateByIdAppend(RemoveById([h], id), RemoveById(t, id), other, c);
    }
  }

  /** `handleResetAll`: the list becomes empty. */
  function ResetAll(jobs: seq<Job>): (r: seq<Job>)
    ensures |r| == 0
  {
    []
  }
}
