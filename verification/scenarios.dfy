/** End-to-end runs through intake and conversion. */
module Scenarios {
  import opened Wrappers
  import opened Formats
  import opened Naming
  import opened Jobs
  import opened Intake
  import opened Conversion

  /** `song.mp3` and `notes.txt` dropped on an empty list: one job is
      created for the song and the text file is warned about. */
  lemma SelectSongAndNotes(clock: nat -> nat)
    ensures var sel := SelectFiles([], [File("song.mp3", 4000), File("notes.txt", 12)], clock);
      && sel.started == [File("song.mp3", 4000)] && |sel.jobs| == 1
      && sel.rejected == [File("notes.txt", 12)] && sel.reported.None?
  {
    var song, notes := File("song.mp3", 4000), File("notes.txt", 12);
    var files := [song, notes];
    AcceptsLowerCase();
    RejectsText();
    assert files[1..] == [notes] && [notes][1..] == [];
    assert FilterAudio(files) == [song];
    assert Rejected(files) == [notes];
  }

  /** A successful conversion of that job with `wav` selected completes it
      as `song.wav`, and the produced file is typed `audio/wav`. */
  lemma ConvertSongToWav(j: Job, ps: seq<int>, url: string)
    ensures var done := ConvertFile([j], j.id, File("song.mp3", 4000), "wav", EngineSucceeded(ps, url));
      && done[0].status == Completed && done[0].progress == 100
      && done[0].outputFileName == Some("song.wav")
      && done[0].downloadUrl == Some(url)
    ensures MimeTypeFor("wav") == "audio/wav"
  {
    OutputFileNameSong();
    MimeTypeForCatalog("wav");
    assert Catalog[1].value == "wav";
  }

  /** A failing conversion of one job leaves a completed neighbour exactly
      as it was, and the failed job holds no download URL. */
  lemma FailureIsIsolated(done: Job, bad: Job, file: File, fmt: string, ps: seq<int>)
    requires done.status == Completed && done.id != bad.id
    requires bad.status == Idle && bad.downloadUrl.None?
    ensures var r := ConvertFile([done, bad], bad.id, file, fmt, EngineFailed(ps));
      && r[0] == done && r[1].status == Error && r[1].downloadUrl.None?
  {
    var names := JobNames(bad.id, file, fmt);
    RunPointwise([done, bad], ConvertEvents(bad.id, names, EngineFailed(ps)));
    ConvertOthers(done, bad.id, names, EngineFailed(ps));
  }
}
