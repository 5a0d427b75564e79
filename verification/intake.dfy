/** Intake of a file selection: the extension check, the cap of 15 jobs and
    the creation of the new job records. */
module Intake {
  import opened Wrappers
  import opened Text
  import opened Jobs

  /** A file the user picked or dropped: its name and size in bytes. */
  datatype File = File(name: string, size: nat)

  /** The suffixes accepted as audio, compared against the lower-cased name. */
  const AudioExtensions: seq<string> :=
    [".mp3", ".wav", ".m4a", ".flac", ".ogg", ".amr", ".mp2", ".m4r", ".aac", ".wma"]

  /** The most jobs the list is meant to hold. */
  const MaxJobs: nat := 15

  /** `exts.some(ext => s.endsWith(ext))`, scanning the list in order. */
  predicate EndsWithAny(s: string, exts: seq<string>)
  {
    |exts| > 0 && (EndsWith(s, exts[0]) || EndsWithAny(s, exts[1..]))
  }

  /** The scan succeeds exactly when some listed suffix ends the string. */
  lemma {:induction false} EndsWithAnyIff(s: string, exts: seq<string>)
    ensures EndsWithAny(s, exts) <==> exists ext :: ext in exts && EndsWith(s, ext)
  {
    if |exts| > 0 {
      EndsWithAnyIff(s, exts[1..]);
      assert forall ext :: ext in exts <==> ext == exts[0] || ext in exts[1..] by {
        assert exts == [exts[0]] + exts[1..];
      }
    }
  }

  /** The intake test: the lower-cased name ends with a listed extension. */
  predicate IsAudioFile(name: string)
  {
    EndsWithAny(ToLower(name), AudioExtensions)
  }

  /** A file is accepted exactly when its lower-cased name ends with one of
      the ten audio extensions. */
  lemma IsAudioFileIff(name: string)
    ensures IsAudioFile(name) <==> exists ext :: ext in AudioExtensions && EndsWith(ToLower(name), ext)
  {
    EndsWithAnyIff(ToLower(name), AudioExtensions);
  }

  /** A lower-case audio extension is accepted. */
  lemma AcceptsLowerCase()
    ensures IsAudioFile("song.mp3")
  {
    var low := ToLower("song.mp3");
    assert low == "song.mp3";
    assert low[4..] == ".mp3";
    assert EndsWith(low, AudioExtensions[0]);
  }

  /** An upper-case audio extension is accepted too. */
  lemma AcceptsUpperCase()
    ensures IsAudioFile("Track.FLAC")
  {
    var low := ToLower("Track.FLAC");
    assert low == "track.flac";
    assert low[5..] == ".flac";
    IsAudioFileIff("Track.FLAC");
    assert ".flac" in AudioExtensions;
  }

  /** Every audio extension is at least four characters and ends in one of
      a few letters or digits. */
  lemma ExtensionShape(ext: string)
    requires ext in AudioExtensions
    ensures |ext| >= 4 && ext[0] == '.' && ext[|ext| - 1] in "3vacgr2"
  {
  }

  /** A text file is rejected. */
  lemma RejectsText()
    ensures !IsAudioFile("notes.txt")
  {
    var low := ToLower("notes.txt");
    assert low[|low| - 1] == 't';
    IsAudioFileIff("notes.txt");
    forall ext | ext in AudioExtensions ensures !EndsWith(low, ext) {
      ExtensionShape(ext);
    }
  }

  /** A bare extension without its dot is rejected. */
  lemma RejectsMissingDot()
    ensures !IsAudioFile("mp3")
  {
    IsAudioFileIff("mp3");
    forall ext | ext in AudioExtensions ensures !EndsWith(ToLower("mp3"), ext) {
      ExtensionShape(ext);
    }
  }

  /** The `filter` over the selection: the audio files, in their original
      order, each as often as it was picked. */
  function FilterAudio(files: seq<File>): (r: seq<File>)
    ensures |r| <= |files|
    ensures forall f :: f in r <==> f in files && IsAudioFile(f.name)
  {
    if |files| == 0 then []
    else
      assert files == [files[0]] + files[1..];
      (if IsAudioFile(files[0].name) then [files[0]] else []) + FilterAudio(files[1..])
  }

  /** Each audio file is kept as many times as it was picked; nothing else
      is kept. */
  lemma {:induction false} FilterAudioCounts(files: seq<File>)
    ensures forall f :: multiset(FilterAudio(files))[f] == if IsAudioFile(f.name) then multiset(files)[f] else 0
  {
    if |files| > 0 {
      assert files == [files[0]] + files[1..];
      FilterAudioCounts(files[1..]);
    }
  }

  /** The files that draw the "not an audio file" warning, in order. */
  function Rejected(files: seq<File>): (r: seq<File>)
    ensures |r| <= |files|
    ensures forall f :: f in r <==> f in files && !IsAudioFile(f.name)
  {
    if |files| == 0 then []
    else (if IsAudioFile(files[0].name) then [] else [files[0]]) + Rejected(files[1..])
  }

  /** Every file is either kept or warned about, never both, never neither. */
  lemma {:induction false} FilterPartitions(files: seq<File>)
    ensures |FilterAudio(files)| + |Rejected(files)| == |files|
  {
    if |files| > 0 {
      FilterPartitions(files[1..]);
    }
  }

  /** Filtering distributes over concatenation: the accepted files keep their
      relative order. */
  lemma {:induction false} FilterAudioAppend(a: seq<File>, b: seq<File>)
    ensures FilterAudio(a + b) == FilterAudio(a) + FilterAudio(b)
  {
    if |a| == 0 {
      assert a + b == b;
    } else {
      assert (a + b)[1..] == a[1..] + b;
      FilterAudioAppend(a[1..], b);
    }
  }

  /** A selection of audio files only passes through unchanged. */
  lemma {:induction false} FilterAudioKeepsAll(files: seq<File>)
    requires forall i :: 0 <= i < |files| ==> IsAudioFile(files[i].name)
    ensures FilterAudio(files) == files
  {
    if |files| > 0 {
      FilterAudioKeepsAll(files[1..]);
    }
  }

  /** `array.splice(start)` with one argument: what is left in the array.
      A negative start counts back from the end (clamped at 0); a start past
      the end removes nothing. */
  function SpliceKeep(s: seq<File>, start: int): (r: seq<File>)
    ensures r <= s
    ensures start >= 0 ==> |r| == if start < |s| then start else |s|
    ensures start < 0 ==> |r| == if |s| + start > 0 then |s| + start else 0
  {
    var k := if start < 0 then (if |s| + start > 0 then |s| + start else 0)
             else if start < |s| then start else |s|;
    s[..k]
  }

  /** The files kept after the cap, and the dropped count the warning
      reports when the cap is exceeded. */
  datatype Capped = Capped(kept: seq<File>, reported: Option<int>)

  /** When accepted and existing jobs together exceed 15, the warning reports
      their excess and `splice(15 - existing)` cuts the accepted files. */
  function Truncate(accepted: seq<File>, existing: nat): (r: Capped)
    ensures r.kept <= accepted
    ensures r.reported.Some? <==> |accepted| + existing > MaxJobs
    ensures r.reported.Some? ==> r.reported.value == |accepted| + existing - MaxJobs
    ensures r.reported.None? ==> r.kept == accepted
    ensures existing <= MaxJobs ==> existing + |r.kept| <= MaxJobs
    ensures existing <= MaxJobs && r.reported.Some? ==>
              existing + |r.kept| == MaxJobs && r.reported.value == |accepted| - |r.kept|
  {
    if |accepted| + existing > MaxJobs then
      Capped(SpliceKeep(accepted, MaxJobs - existing), Some(|accepted| + existing - MaxJobs))
    else
      Capped(accepted, None)
  }

  /** When the list already holds more than 15 jobs, the negative splice
      start counts from the end, so some files are still added and the
      reported count differs from the files actually dropped. */
  lemma TruncateOverfull(accepted: seq<File>)
    requires |accepted| == 5
    ensures |Truncate(accepted, 17).kept| == 3
    ensures Truncate(accepted, 17).reported == Some(7)
  {
  }

  /** `${name}-${now}-${index}`. */
  function MakeId(name: string, now: nat, index: nat): (r: string)
    ensures AfterLast(r, '-') == NatToString(index)
  {
    NatToStringHasNo(index, '-');
    AfterLastAppend(name + "-" + NatToString(now), '-', NatToString(index));
    name + "-" + NatToString(now) + "-" + NatToString(index)
  }

  /** Two ids with different indices differ, whatever the names and times:
      the text after the last `-` is the index. */
  lemma MakeIdDistinct(n1: string, t1: nat, i1: nat, n2: string, t2: nat, i2: nat)
    requires i1 != i2
    ensures MakeId(n1, t1, i1) != MakeId(n2, t2, i2)
  {
    if MakeId(n1, t1, i1) == MakeId(n2, t2, i2) {
      NatToStringInjective(i1, i2);
    }
  }

  /** The record created for the `index`-th kept file, with the clock
      reading taken for it. */
  function NewJob(f: File, now: nat, index: nat): Job
  {
    Job(MakeId(f.name, now, index), Idle, 0, f.name, f.size, None, None, None, None)
  }

  /** `files.map((file, index) => ({ id, status: 'idle', progress: 0, … }))`.
      The callback reads `Date.now()` once per file, so `clock(i)` is the
      reading taken while mapping the `i`-th file; readings of one batch may
      differ. */
  function CreateJobs(files: seq<File>, clock: nat -> nat): (r: seq<Job>)
    ensures |r| == |files|
    ensures forall i :: 0 <= i < |files| ==>
              && r[i].id == MakeId(files[i].name, clock(i), i)
              && r[i].status == Idle && r[i].progress == 0
              && r[i].fileName == files[i].name && r[i].fileSize == files[i].size
              && r[i].downloadUrl == None && r[i].outputFileName == None
  {
    seq(|files|, i requires 0 <= i < |files| => NewJob(files[i], clock(i), i))
  }

  /** The ids of one batch are pairwise distinct, whatever the clock
      readings. */
  lemma CreateJobsDistinctIds(files: seq<File>, clock: nat -> nat)
    ensures forall i, j :: 0 <= i < j < |files| ==> CreateJobs(files, clock)[i].id != CreateJobs(files, clock)[j].id
  {
    forall i, j | 0 <= i < j < |files|
      ensures CreateJobs(files, clock)[i].id != CreateJobs(files, clock)[j].id
    {
      MakeIdDistinct(files[i].name, clock(i), i, files[j].name, clock(j), j);
    }
  }

  /** What `handleFilesSelect` leaves behind: the new list, the files warned
      about, the dropped count reported (if any), and the kept files that each
      start a conversion under the id of the matching added job. */
  datatype Selection = Selection(
    jobs: seq<Job>,
    rejected: seq<File>,
    reported: Option<int>,
    added: seq<Job>,
    started: seq<File>)

  /** `handleFilesSelect(files)` with the clock readings `clock`, one call at
      a time. An empty
      selection returns at once; otherwise the selection is filtered, capped
      and the new records are appended after the existing ones. */
  function SelectFiles(jobs: seq<Job>, files: seq<File>, clock: nat -> nat): (r: Selection)
    ensures r.jobs == jobs + r.added
    ensures |r.added| == |r.started| <= |FilterAudio(files)|
    ensures r.added == CreateJobs(r.started, clock)
    ensures r.started <= FilterAudio(files)
    ensures |jobs| <= MaxJobs ==> |r.jobs| <= MaxJobs
    ensures |files| == 0 ==> r == Selection(jobs, [], None, [], [])
    ensures |files| > 0 ==> r.rejected == Rejected(files)
    ensures |files| > 0 && |FilterAudio(files)| + |jobs| <= MaxJobs ==>
              r.started == FilterAudio(files) && r.reported == None
    ensures |files| > 0 && |FilterAudio(files)| + |jobs| > MaxJobs ==>
              r.reported.Some? && r.reported.value == |FilterAudio(files)| + |jobs| - MaxJobs
  {
    if |files| == 0 then Selection(jobs, [], None, [], [])
    else
      var accepted := FilterAudio(files);
      var capped := Truncate(accepted, |jobs|);
      var added := CreateJobs(capped.kept, clock);
      Selection(jobs + added, Rejected(files), capped.reported, added, capped.kept)
  }

  /** The added jobs are fresh records for audio files of the selection,
      with pairwise distinct ids. */
  lemma SelectFilesAddsFreshJobs(jobs: seq<Job>, files: seq<File>, clock: nat -> nat)
    ensures var r := SelectFiles(jobs, files, clock);
      && (forall f :: f in r.started ==> f in files && IsAudioFile(f.name))
      && (forall i :: 0 <= i < |r.added| ==>
            && r.added[i].id == MakeId(r.started[i].name, clock(i), i)
            && r.added[i].fileName == r.started[i].name
            && r.added[i].status == Idle && r.added[i].progress == 0
            && r.added[i].downloadUrl == None)
      && (forall i, j :: 0 <= i < j < |r.added| ==> r.added[i].id != r.added[j].id)
  {
    var r := SelectFiles(jobs, files, clock);
    forall f | f in r.started ensures f in files && IsAudioFile(f.name) {
      var k :| 0 <= k < |r.started| && r.started[k] == f;
      assert f in FilterAudio(files);
    }
    CreateJobsDistinctIds(r.started, clock);
  }

  /** Below the cap, a non-empty selection adds one job per audio file. */
  lemma SelectFilesCountsAudio(jobs: seq<Job>, files: seq<File>, clock: nat -> nat)
    requires |files| > 0 && |jobs| + |FilterAudio(files)| <= MaxJobs
    ensures |SelectFiles(jobs, files, clock).jobs| == |jobs| + |FilterAudio(files)|
  {
  }

  /** Twenty audio files into an empty list: fifteen jobs, five reported. */
  lemma SelectTwenty(files: seq<File>, clock: nat -> nat)
    requires |files| == 20
    requires forall i :: 0 <= i < |files| ==> IsAudioFile(files[i].name)
    ensures |SelectFiles([], files, clock).jobs| == 15
    ensures SelectFiles([], files, clock).reported == Some(5)
  {
    FilterAudioKeepsAll(files);
  }
}
