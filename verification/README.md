# Audio converter batch logic, in Dafny

This project models the orchestration core of a browser audio converter
(`src/components/AudioConverter.jsx`). A user drops audio files, picks one
output format for the whole batch, and each accepted file becomes a job that
an embedded FFmpeg engine converts. The React and FFmpeg shell is gone; what
remains is the part with behaviour of its own:

- **Format catalog** (`Formats`): the eight output formats with their MIME
  type and codec, the `find` lookup, the `audio/mpeg` fallback, and the list
  of lossy formats that get `-b:a 192k`.
- **Intake** (`Intake`): the case-insensitive extension test against ten
  audio suffixes, the `filter` that keeps accepted files in order, the cap of
  15 jobs implemented with `splice`, the ids `name-timestamp-index`, and the
  whole `handleFilesSelect` call (`SelectFiles`).
- **Names** (`Naming`): the download name built by
  `replace(/\.[^.]+$/, '.' + format)` and the per-job scratch names
  `input_<id>.<ext>` and `output_<id>.<format>`.
- **Command** (`Command`): the argument vector `-i <in> [-codec:a <c>]
  [-b:a 192k] <out>`, and an independent parser that reads it back.
- **Job list** (`Jobs`): the id-targeted `map` updates, the progress handler,
  `handleReset` (a `filter`) and `handleResetAll`.
- **Conversion** (`Conversion`): one `convertFile` call as a sequence of
  writes to the job list. The engine is an abstract outcome: no engine
  instance (`EngineMissing`), a step that throws (`EngineFailed`), or success
  with an object URL (`EngineSucceeded`). Both failure and success carry the
  progress events the engine emitted meanwhile. The download and scratch
  names are derived once per job (`JobNames`) and carried by the completing
  write.
- **Scenarios** (`Scenarios`): end-to-end runs through intake and conversion.

Strings are `seq<char>`, numbers are unbounded, the object URL is a
parameter, and the clock is a parameter `clock: nat -> nat` giving the
`Date.now()` reading taken while the `i`-th kept file is mapped (the
callback reads the clock once per file, so one batch may carry several
timestamps). Calls run one at a time.

Where the code does less than its messages and interface suggest, the model
follows the code:

- Progress is not kept monotone. The handler copies each engine figure, so a
  smaller later figure moves progress back (`Jobs.ProgressCanDecrease`).
- Progress events are not routed to the job being converted. Every
  converting job below 100 takes the figure
  (`Jobs.ProgressReachesEveryConvertingJob`, `Conversion.ConvertOthers`).
- A failed engine load does not take the job straight to `error`. The
  engine instance is stored before `load` runs (line 45), so after a failed
  load the reference is set. The job then goes `uploading → converting →
  error` when the first engine call throws. Only a missing instance gives
  `uploading → error`. Both paths are modelled.
- An unknown format is not an error: it gets no codec option, no bitrate and
  the MIME type `audio/mpeg`.
- The download name is stored on completion, not at job creation. Its value
  is fixed earlier: `convertFile` reads the format from the render whose
  drop or file-input handler started it, and the format `<select>` is only
  shown while the list is empty, so every conversion uses the format that
  was selected when its files were dropped. The model takes that format as
  a parameter of the conversion.
- Removing a job only filters the list. No object URL is revoked and no
  in-flight conversion is stopped. Its later updates hit no record
  (`Jobs.UpdateAbsentId`, `Jobs.RemoveAfterUpdate`).
- The 15-job cap does not bound the list. The drop and file-input handlers
  are attached only while the list is empty, so the count they read is
  always 0 and `15 - length` is never negative in the source. Two quick
  selections made before the list re-renders both read 0, each add up to 15
  jobs, and the list can exceed 15. `Intake.TruncateOverfull` documents what
  `splice` with a negative start would do on a longer list; the source
  cannot reach that state.

## Model

| member | source | states |
|---|---|---|
| Formats.FindIndex | src/components/AudioConverter.jsx:113 | `find` returns the first entry with the id, and none when no entry has it |
| Formats.Lookup | src/components/AudioConverter.jsx:113 | an entry found carries the id asked for |
| Formats.LookupFindsCatalogEntry | src/components/AudioConverter.jsx:6-15 | the entry found is a catalog entry; nothing is found exactly when no entry has the id |
| Formats.LookupCatalogEntry | src/components/AudioConverter.jsx:6-15 | catalog ids are distinct, so each entry is found by its own id |
| Formats.MimeTypeFor | src/components/AudioConverter.jsx:129 | the blob type is the entry's MIME type, or `audio/mpeg` for an unknown format; never empty |
| Formats.MimeTypeForCatalog | src/components/AudioConverter.jsx:6-15 | every catalogued format declares its own MIME type; an unknown id yields `audio/mpeg` |
| Formats.CodecOf | src/components/AudioConverter.jsx:116-117 | the codec passed is the found entry's codec, never empty |
| Formats.CodecOfCatalog | src/components/AudioConverter.jsx:6-15 | for a format with a codec, some catalog entry has that id and that codec |
| Formats.HasCodecIffCatalogued | src/components/AudioConverter.jsx:116 | the codec option applies exactly to the catalogued formats |
| Formats.BitrateFormatsHaveCodec | src/components/AudioConverter.jsx:120 | every format given `-b:a` is catalogued and has a codec |
| Text.ToLower | src/components/AudioConverter.jsx:166 | lower-casing keeps the length and lower-cases each ASCII letter in place |
| Text.LastIndexOf | src/components/AudioConverter.jsx:107-108 | the position found holds the character with none after it; none is found exactly when it does not occur |
| Text.AfterLast | src/components/AudioConverter.jsx:107 | `split(c).pop()` holds no `c`, and the string is the text before the last `c`, the `c`, and this result |
| Text.AfterLastAppend | src/components/AudioConverter.jsx:107 | appending `c` and a `c`-free tail makes that tail the last segment |
| Text.NatToString | src/components/AudioConverter.jsx:179 | a printed number is one or more decimal digits, at least two from 10 up |
| Text.NatToStringInjective | src/components/AudioConverter.jsx:179 | distinct numbers print differently |
| Naming.ExtensionAtUnique | src/components/AudioConverter.jsx:108 | the pattern `\.[^.]+$` matches at one position at most |
| Naming.OutputFileName | src/components/AudioConverter.jsx:108 | where the pattern matches, the name up to the dot followed by `.format`; a name where it does not match is returned unchanged |
| Naming.OutputFileNameOfStem | src/components/AudioConverter.jsx:108 | a stem plus a non-empty dot-free extension becomes the stem plus `.format` |
| Naming.OutputFileNameSong | src/components/AudioConverter.jsx:108 | `song.mp3` renamed for `wav` is `song.wav` |
| Naming.OutputFileNameManyDots | src/components/AudioConverter.jsx:108 | only the last extension is replaced: `live.2024.flac` for `mp3` is `live.2024.mp3` |
| Naming.OutputFileNameOnlyExtension | src/components/AudioConverter.jsx:108 | a name that is only an extension is replaced whole: `.ogg` for `m4a` is `.m4a` |
| Naming.OutputFileNameKeeps | src/components/AudioConverter.jsx:108 | `song` and `song.` are returned unchanged |
| Naming.OutputFileNameCarriesFormat | src/components/AudioConverter.jsx:108 | when the name has an extension, the text after the result's last dot is the format |
| Naming.OutputFileNameIdempotent | src/components/AudioConverter.jsx:108 | renaming twice to the same dot-free format equals renaming once |
| Naming.InputFileName | src/components/AudioConverter.jsx:107 | the input scratch name starts with `input_` |
| Naming.InputFileNameExtension | src/components/AudioConverter.jsx:107 | the input scratch name's last segment is the uploaded name's last segment |
| Naming.InputFileNameInjective | src/components/AudioConverter.jsx:107 | equal input scratch names imply equal job ids |
| Naming.OutputFilePath | src/components/AudioConverter.jsx:109 | the output scratch name starts with `output_` |
| Naming.OutputFilePathCarriesFormat | src/components/AudioConverter.jsx:109 | the output scratch name's extension is the format |
| Naming.OutputFilePathInjective | src/components/AudioConverter.jsx:109 | equal output scratch names imply equal ids and formats |
| Command.CodecOption | src/components/AudioConverter.jsx:116-118 | a codec option exists exactly for the catalogued formats, holding the catalog codec |
| Command.BitrateOption | src/components/AudioConverter.jsx:120-122 | a bitrate option exists exactly for mp3, ogg, m4a and m4r, holding `192k` |
| Command.ArgVector | src/components/AudioConverter.jsx:114-124 | `-i <input>` first, the output last, the codec pair right after the input and the bitrate pair right before the output, each present iff given |
| Command.BuildArgs | src/components/AudioConverter.jsx:113-124 | starts `-i <input>`, ends with the output path, has the codec pair right after the input when the format has a codec, the `-b:a 192k` pair just before the output for lossy formats, and length 3 + 2 per option |
| Command.BuildArgsLength | src/components/AudioConverter.jsx:114-124 | the length is 3, 5 or 7, and 7 exactly for the lossy formats |
| Command.CodecIsNotAFlag | src/components/AudioConverter.jsx:7-14 | no catalog codec is spelled like an option flag |
| Command.ArgVectorFlags | src/components/AudioConverter.jsx:114-124 | when no option value is spelled like a flag, `-codec:a` and `-b:a` occur between input and output exactly when their option is present |
| Command.BuildArgsFlags | src/components/AudioConverter.jsx:114-124 | between input and output, `-codec:a` occurs iff the format has a codec and `-b:a` iff it is lossy |
| Command.ParseArgVector | src/components/AudioConverter.jsx:114-124 | reading a vector back recovers its input, options and output |
| Command.ParseBuildArgs | src/components/AudioConverter.jsx:114-124 | parsing the built vector recovers the input, the codec iff there is one, `192k` iff lossy, and the output |
| Jobs.Apply | src/components/AudioConverter.jsx:82-156 | each spread update sets the target status, resets progress on `uploading`/`converting`, sets 100 and the output fields only on `completed`, and keeps id and file |
| Jobs.UpdateById | src/components/AudioConverter.jsx:82-86 | records with the id get the change; every other record stays the same and in place |
| Jobs.UpdateByIdKeepsIds | src/components/AudioConverter.jsx:91-104 | an update keeps the list's ids and their order |
| Jobs.UpdateAbsentId | src/components/AudioConverter.jsx:132-146 | an update for an id no record has leaves the list unchanged |
| Jobs.UpdatesCommute | src/components/AudioConverter.jsx:152-156 | updates aimed at different ids commute |
| Jobs.ApplyProgress | src/components/AudioConverter.jsx:47-55 | converting records below 100 take the figure; every other record is unchanged |
| Jobs.ProgressTouchesOnlyConverting | src/components/AudioConverter.jsx:48-53 | a progress event changes only progress; non-converting records and records at 100 are untouched |
| Jobs.ProgressCanDecrease | src/components/AudioConverter.jsx:51 | a later, smaller figure moves a converting job's progress back |
| Jobs.ProgressReachesEveryConvertingJob | src/components/AudioConverter.jsx:47-55 | one event updates every converting job below 100, not one job |
| Jobs.RemoveById | src/components/AudioConverter.jsx:217-219 | the result holds exactly the records with another id |
| Jobs.RemoveByIdCounts | src/components/AudioConverter.jsx:218 | every record with another id is kept as often as before, and none with the id |
| Jobs.RemoveByIdAppend | src/components/AudioConverter.jsx:218 | removal distributes over concatenation, so kept records keep their order |
| Jobs.RemoveAbsentId | src/components/AudioConverter.jsx:218 | removing an absent id leaves the list unchanged |
| Jobs.RemoveAfterUpdate | src/components/AudioConverter.jsx:217-219 | removing a job discards every update aimed at it |
| Jobs.RemoveUpdateCommute | src/components/AudioConverter.jsx:217-219 | removing one job commutes with updating another |
| Jobs.ResetAll | src/components/AudioConverter.jsx:221-222 | reset-all leaves an empty list |
| Intake.EndsWithAnyIff | src/components/AudioConverter.jsx:166 | `some(endsWith)` holds iff some listed suffix ends the string |
| Intake.IsAudioFileIff | src/components/AudioConverter.jsx:164-171 | a file is accepted iff its lower-cased name ends with one of the ten audio extensions |
| Intake.AcceptsLowerCase | src/components/AudioConverter.jsx:165-166 | `song.mp3` is accepted |
| Intake.AcceptsUpperCase | src/components/AudioConverter.jsx:166 | `Track.FLAC` is accepted |
| Intake.RejectsText | src/components/AudioConverter.jsx:167-170 | `notes.txt` is rejected |
| Intake.RejectsMissingDot | src/components/AudioConverter.jsx:165 | `mp3` without a dot is rejected |
| Intake.FilterAudio | src/components/AudioConverter.jsx:164-171 | the kept files are exactly the audio files |
| Intake.FilterAudioCounts | src/components/AudioConverter.jsx:164 | every audio file is kept as often as it was picked, and no other file |
| Intake.Rejected | src/components/AudioConverter.jsx:167-169 | the warned files are exactly the non-audio files |
| Intake.FilterPartitions | src/components/AudioConverter.jsx:164-171 | every file is kept or warned about, never both |
| Intake.FilterAudioAppend | src/components/AudioConverter.jsx:164 | filtering distributes over concatenation, so order is kept |
| Intake.FilterAudioKeepsAll | src/components/AudioConverter.jsx:164-171 | a selection of audio files only passes through unchanged |
| Intake.SpliceKeep | src/components/AudioConverter.jsx:175 | `splice(start)` leaves a prefix of length `start` clamped to the array, or `length + start` clamped at 0 for a negative start |
| Intake.Truncate | src/components/AudioConverter.jsx:173-176 | kept files are a prefix; a count is reported iff the total exceeds 15, equal to the excess; below the cap nothing is cut; from at most 15 existing jobs the total stays at most 15 and the report equals the files cut |
| Intake.TruncateOverfull | src/components/AudioConverter.jsx:175 | with 17 existing jobs and 5 files, 3 files are kept while 7 are reported |
| Intake.MakeId | src/components/AudioConverter.jsx:179 | the text after the id's last `-` is the printed index |
| Intake.MakeIdDistinct | src/components/AudioConverter.jsx:179 | ids with different indices differ, whatever the names and times |
| Intake.CreateJobs | src/components/AudioConverter.jsx:178-184 | one record per file, in order, with the `name-time-index` id built from the clock reading taken for that file, `idle`, progress 0, the file's name and size, no URL |
| Intake.CreateJobsDistinctIds | src/components/AudioConverter.jsx:178-184 | the ids of one batch are pairwise distinct, whatever the clock readings |
| Intake.SelectFiles | src/components/AudioConverter.jsx:161-194 | existing jobs stay first and unchanged, new ones follow; from at most 15 jobs the list stays at most 15; an empty selection changes nothing; below the cap every audio file is added; above it the excess is reported |
| Intake.SelectFilesAddsFreshJobs | src/components/AudioConverter.jsx:178-194 | added jobs are idle at 0 for audio files of the selection, each id built from its file, its own clock reading and its index, and the ids distinct |
| Intake.SelectFilesCountsAudio | src/components/AudioConverter.jsx:164-186 | below the cap the list grows by the number of audio files |
| Intake.SelectTwenty | src/components/AudioConverter.jsx:173-176 | twenty audio files on an empty list give fifteen jobs and a report of five |
| Conversion.RunPointwise | src/components/AudioConverter.jsx:47-156 | running writes over the list is running them over each record |
| Conversion.TicksKeepStatus | src/components/AudioConverter.jsx:47-55 | progress events change nothing but progress |
| Conversion.TicksKeepRecord | src/components/AudioConverter.jsx:47-55 | after progress events a record differs at most in its progress |
| Conversion.TicksLeaveNonConverting | src/components/AudioConverter.jsx:50 | progress events leave a non-converting record unchanged |
| Conversion.StatusPathTicks | src/components/AudioConverter.jsx:47-55 | progress events add no status change |
| Conversion.PathThroughEngine | src/components/AudioConverter.jsx:91-156 | after `uploading`, `converting` and any progress events, one final write gives exactly three status changes in that order |
| Conversion.ConvertStatusPath | src/components/AudioConverter.jsx:81-158 | the job moves `uploading → error` without an engine, else `uploading → converting → completed` or `→ error` |
| Conversion.ConvertTarget | src/components/AudioConverter.jsx:132-156 | on success the job is completed at 100 with the URL and the names derived for it; on failure it is `error` with its URL, download name and both scratch names unchanged |
| Conversion.ConvertSetsUrlOnlyOnCompletion | src/components/AudioConverter.jsx:82-156 | from a record that is not completed and has no URL, every state on the way holds a URL iff it is completed |
| Conversion.ConvertOthers | src/components/AudioConverter.jsx:47-156 | other records keep id, status, file and output fields; a non-converting one is unchanged |
| Conversion.ConvertFile | src/components/AudioConverter.jsx:81-159 | the job ends `completed` (progress 100, URL, download name) on success and `error` otherwise; other records change at most in progress |
| Conversion.ExecArgsSeparateJobs | src/components/AudioConverter.jsx:107-124 | commands of two jobs name different input and output scratch files |
| Scenarios.SelectSongAndNotes | src/components/AudioConverter.jsx:164-186 | `song.mp3` plus `notes.txt` gives one job and one warning, no overflow |
| Scenarios.ConvertSongToWav | src/components/AudioConverter.jsx:106-146 | converting `song.mp3` to `wav` completes as `song.wav` at 100; the blob type is `audio/wav` |
| Scenarios.FailureIsIsolated | src/components/AudioConverter.jsx:150-156 | a failing conversion ends in `error` without a URL and leaves a completed neighbour unchanged |

## Left out

- The FFmpeg engine: `load`, `writeFile`, `exec`, `readFile`, `fetchFile`, `toBlobURL`, `Blob` and `URL.createObjectURL` are foreign calls. They are reduced to the `Outcome` of a conversion; the object URL is a parameter.
- The `isLoading`/`ffmpegLoaded` guard of `loadFFmpeg` and whether loading happens once: this depends on asynchronous React state updates.
- Concurrent `convertFile` calls and the stale `conversionStates` read in `handleFilesSelect`: calls are modelled one at a time, so the existing count is the current list's length. The race in which two selections made before a re-render both read an empty list, and together push it past 15 jobs, is not modelled, because it depends on React's render timing.
- `formatFileSize`: it uses floating-point `Math.log` and `toFixed`. A job keeps the raw byte count instead of the formatted text.
- `Math.round(progress * 100)`: the engine's progress arrives as an integer percent.
- `showToast`, the drag-and-drop handlers and all rendering: user interface. The warnings are kept as data (`Selection.rejected`, `Selection.reported`).
- The `!files` check: a selection is a sequence and is never null.
- `Text.ToLower`: lower-cases ASCII letters only, because strings carry no Unicode case tables. No non-ASCII character lower-cases into one of the extensions' characters.
- `Naming.OutputFileName`: `$` sequences in the replacement text are not interpreted, because no catalog format contains `$`.
- Id uniqueness across batches: it rests on the clock moving between calls, and the clock readings are a parameter; only uniqueness within a batch is proved.
- `vite.config.js` and `src/App.jsx`: build configuration and a trivial wrapper component.
