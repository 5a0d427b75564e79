/** The file names a conversion derives from the uploaded file's name: the
    name offered for download and the two scratch names that address the
    engine's virtual file system. */
module Naming {
  import opened Wrappers
  import opened Text

  /** The pattern `/\.[^.]+$/` matches starting at `p`: a dot there, at least
      one character after it and no further dot up to the end. */
  predicate ExtensionAt(name: string, p: int)
  {
    0 <= p < |name| - 1 && name[p] == '.' && '.' !in name[p + 1..]
  }

  /** The pattern can match at one position at most, so the leftmost match
      a regular-expression search finds is the only one. */
  lemma ExtensionAtUnique(name: string, p: int, q: int)
    requires ExtensionAt(name, p) && ExtensionAt(name, q)
    ensures p == q
  {
    LastIndexOfUnique(name, '.', p);
    LastIndexOfUnique(name, '.', q);
  }

  /** `name.replace(/\.[^.]+$/, '.' + fmt)`: the final extension is replaced
      by the format; a name without one is returned as it is. */
  function OutputFileName(name: string, fmt: string): (r: string)
    ensures forall p :: ExtensionAt(name, p) ==> r == name[..p] + "." + fmt
    ensures (forall p :: !ExtensionAt(name, p)) ==> r == name
  {
    match LastIndexOf(name, '.')
    case None => name
    case Some(p) =>
      if p < |name| - 1 then
        assert ExtensionAt(name, p);
        assert forall q :: ExtensionAt(name, q) ==> q == p by {
          forall q | ExtensionAt(name, q) ensures q == p { ExtensionAtUnique(name, p, q); }
        }
        name[..p] + "." + fmt
      else
        assert forall q :: !ExtensionAt(name, q) by {
          forall q | ExtensionAt(name, q) ensures false { LastIndexOfUnique(name, '.', q); }
        }
        name
  }

  /** A stem followed by a non-empty dot-free extension gets the format in
      place of that extension, whatever dots the stem holds. */
  lemma OutputFileNameOfStem(stem: string, ext: string, fmt: string)
    requires ext != "" && '.' !in ext
    ensures OutputFileName(stem + "." + ext, fmt) == stem + "." + fmt
  {
    var name := stem + "." + ext;
    assert name[|stem| + 1..] == ext;
    assert ExtensionAt(name, |stem|);
    assert name[..|stem|] == stem;
  }

  /** Worked case: a plain extension is replaced. */
  lemma OutputFileNameSong()
    ensures OutputFileName("song.mp3", "wav") == "song.wav"
  {
    assert "song" + "." + "mp3" == "song.mp3";
    assert "song" + "." + "wav" == "song.wav";
    OutputFileNameOfStem("song", "mp3", "wav");
  }

  /** Worked case: only the last of several dots starts the extension. */
  lemma OutputFileNameManyDots()
    ensures OutputFileName("live.2024.flac", "mp3") == "live.2024.mp3"
  {
    assert "live.2024" + "." + "flac" == "live.2024.flac";
    assert "live.2024" + "." + "mp3" == "live.2024.mp3";
    OutputFileNameOfStem("live.2024", "flac", "mp3");
  }

  /** Worked case: a name that is only an extension is replaced whole. */
  lemma OutputFileNameOnlyExtension()
    ensures OutputFileName(".ogg", "m4a") == ".m4a"
  {
    assert "" + "." + "ogg" == ".ogg";
    assert "" + "." + "m4a" == ".m4a";
    OutputFileNameOfStem("", "ogg", "m4a");
  }

  /** Worked cases the pattern leaves alone: no dot at all, and a trailing
      dot with nothing after it. */
  lemma OutputFileNameKeeps()
    ensures OutputFileName("song", "wav") == "song"
    ensures OutputFileName("song.", "wav") == "song."
  {
    assert LastIndexOf("song", '.') == None;
    LastIndexOfUnique("song.", '.', 4);
  }

  /** When the name has an extension, the produced name's extension is the
      format: what follows its last dot is exactly `fmt`. */
  lemma OutputFileNameCarriesFormat(name: string, fmt: string, p: int)
    requires ExtensionAt(name, p)
    requires '.' !in fmt
    ensures AfterLast(OutputFileName(name, fmt), '.') == fmt
  {
    AfterLastAppend(name[..p], '.', fmt);
  }

  /** Renaming twice to the same format changes nothing more. */
  lemma OutputFileNameIdempotent(name: string, fmt: string)
    requires fmt != "" && '.' !in fmt
    ensures OutputFileName(OutputFileName(name, fmt), fmt) == OutputFileName(name, fmt)
  {
    var r := OutputFileName(name, fmt);
    if p :| ExtensionAt(name, p) {
      assert r == name[..p] + "." + fmt;
      assert r[p + 1..] == fmt;
      assert ExtensionAt(r, p);
      assert r[..p] == name[..p];
    }
  }

  /** `input_<id>.<ext>`, where `<ext>` is `name.split('.').pop()`: the text
      after the last dot, or the whole name when it has none. */
  function InputFileName(id: string, name: string): (r: string)
    ensures |r| > 6 && r[..6] == "input_"
  {
    "input_" + id + "." + AfterLast(name, '.')
  }

  /** The input scratch file keeps the uploaded file's last segment as its
      extension. */
  lemma InputFileNameExtension(id: string, name: string)
    ensures AfterLast(InputFileName(id, name), '.') == AfterLast(name, '.')
  {
    AfterLastAppend("input_" + id, '.', AfterLast(name, '.'));
  }

  /** Distinct jobs stage their input under distinct scratch names. */
  lemma InputFileNameInjective(id1: string, name1: string, id2: string, name2: string)
    requires InputFileName(id1, name1) == InputFileName(id2, name2)
    ensures id1 == id2
  {
    InputFileNameExtension(id1, name1);
    InputFileNameExtension(id2, name2);
    var e1, e2 := AfterLast(name1, '.'), AfterLast(name2, '.');
    assert e1 == e2;
    var r := InputFileName(id1, name1);
    assert r[..|r| - |e1| - 1] == "input_" + id1;
    assert ("input_" + id1)[6..] == id1;
    assert ("input_" + id2)[6..] == id2;
  }

  /** `output_<id>.<fmt>`. */
  function OutputFilePath(id: string, fmt: string): (r: string)
    ensures |r| > 7 && r[..7] == "output_"
  {
    "output_" + id + "." + fmt
  }

  /** The output scratch file carries the format as its extension. */
  lemma OutputFilePathCarriesFormat(id: string, fmt: string)
    requires '.' !in fmt
    ensures AfterLast(OutputFilePath(id, fmt), '.') == fmt
  {
    AfterLastAppend("output_" + id, '.', fmt);
  }

  /** Distinct jobs read their output from distinct scratch names, for any
      dot-free formats. */
  lemma OutputFilePathInjective(id1: string, fmt1: string, id2: string, fmt2: string)
    requires '.' !in fmt1 && '.' !in fmt2
    requires OutputFilePath(id1, fmt1) == OutputFilePath(id2, fmt2)
    ensures id1 == id2 && fmt1 == fmt2
  {
    OutputFilePathCarriesFormat(id1, fmt1);
    OutputFilePathCarriesFormat(id2, fmt2);
    var r := OutputFilePath(id1, fmt1);
    assert r[..|r| - |fmt1| - 1] == "output_" + id1;
    assert ("output_" + id1)[7..] == id1;
    assert ("output_" + id2)[7..] == id2;
  }
}
