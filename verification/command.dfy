/** The argument vector handed to the transcoding engine for one job, and an
    independent reading of such a vector back into its parts. */
module Command {
  import opened Wrappers
  import opened Formats

  /** The codec option a format selects: its catalog codec, when `find`
      returns an entry whose codec is non-empty. */
  function CodecOption(fmt: string): (r: Option<string>)
    ensures r.Some? <==> HasCodec(fmt)
    ensures r.Some? ==> r.value == CodecOf(fmt)
  {
    if HasCodec(fmt) then Some(CodecOf(fmt)) else None
  }

  /** The bitrate option a format selects: `192k` for the lossy formats. */
  function BitrateOption(fmt: string): (r: Option<string>)
    ensures r.Some? <==> UsesBitrateCap(fmt)
    ensures r.Some? ==> r.value == "192k"
  {
    if UsesBitrateCap(fmt) then Some(Bitrate) else None
  }

  /** `flag value` when the option is present, nothing otherwise. */
  function OptionPair(flag: string, v: Option<string>): seq<string>
  {
    if v.Some? then [flag, v.value] else []
  }

  /** `['-i', input]`, then the codec pair, then the bitrate pair, then the
      output path, as the `push` calls build it. */
  function ArgVector(input: string, codec: Option<string>, bitrate: Option<string>, output: string): (r: seq<string>)
    ensures |r| == 3 + (if codec.Some? then 2 else 0) + (if bitrate.Some? then 2 else 0)
    ensures r[0] == "-i" && r[1] == input && r[|r| - 1] == output
    ensures codec.Some? ==> r[2] == "-codec:a" && r[3] == codec.value
    ensures bitrate.Some? ==> r[|r| - 3] == "-b:a" && r[|r| - 2] == bitrate.value
    ensures r[2..|r| - 1] == OptionPair("-codec:a", codec) + OptionPair("-b:a", bitrate)
  {
    var r := ["-i", input] + OptionPair("-codec:a", codec) + OptionPair("-b:a", bitrate) + [output];
    assert r[2..|r| - 1] == OptionPair("-codec:a", codec) + OptionPair("-b:a", bitrate);
    r
  }

  /** The vector `convertFile` runs for a format. */
  function BuildArgs(inputFileName: string, fmt: string, outputFilePath: string): (r: seq<string>)
    ensures |r| == 3 + (if HasCodec(fmt) then 2 else 0) + (if UsesBitrateCap(fmt) then 2 else 0)
    ensures r[0] == "-i" && r[1] == inputFileName && r[|r| - 1] == outputFilePath
    ensures HasCodec(fmt) ==> r[2] == "-codec:a" && r[3] == CodecOf(fmt)
    ensures UsesBitrateCap(fmt) ==> r[|r| - 3] == "-b:a" && r[|r| - 2] == "192k"
  {
    ArgVector(inputFileName, CodecOption(fmt), BitrateOption(fmt), outputFilePath)
  }

  /** Only three shapes occur: with neither option, with the codec only, or
      with both; a bitrate never comes without a codec. */
  lemma BuildArgsLength(inputFileName: string, fmt: string, outputFilePath: string)
    ensures |BuildArgs(inputFileName, fmt, outputFilePath)| in {3, 5, 7}
    ensures |BuildArgs(inputFileName, fmt, outputFilePath)| == 7 <==> UsesBitrateCap(fmt)
  {
    if UsesBitrateCap(fmt) {
      BitrateFormatsHaveCodec(fmt);
    }
  }

  /** No catalog codec is spelled like one of the option flags. */
  lemma CodecIsNotAFlag(fmt: string)
    requires HasCodec(fmt)
    ensures CodecOf(fmt) != "-codec:a" && CodecOf(fmt) != "-b:a"
  {
    CodecOfCatalog(fmt);
    var k :| 0 <= k < |Catalog| && Catalog[k].value == fmt && Catalog[k].codec == CodecOf(fmt);
    assert Catalog[k].codec[0] != '-' by {
      assert k in {0, 1, 2, 3, 4, 5, 6, 7};
    }
  }

  /** When no option value is spelled like a flag, the options between the
      input and the output hold each flag exactly when its option is
      present. */
  lemma ArgVectorFlags(input: string, codec: Option<string>, bitrate: Option<string>, output: string)
    requires codec.Some? ==> codec.value != "-codec:a" && codec.value != "-b:a"
    requires bitrate.Some? ==> bitrate.value != "-codec:a" && bitrate.value != "-b:a"
    ensures var r := ArgVector(input, codec, bitrate, output);
      && ("-codec:a" in r[2..|r| - 1] <==> codec.Some?)
      && ("-b:a" in r[2..|r| - 1] <==> bitrate.Some?)
  {
  }

  /** Between the input and the output, the built vector names the codec
      flag exactly when the format has a codec, and the bitrate flag exactly
      for the lossy formats. */
  lemma BuildArgsFlags(inputFileName: string, fmt: string, outputFilePath: string)
    ensures var r := BuildArgs(inputFileName, fmt, outputFilePath);
      && ("-codec:a" in r[2..|r| - 1] <==> HasCodec(fmt))
      && ("-b:a" in r[2..|r| - 1] <==> UsesBitrateCap(fmt))
  {
    if HasCodec(fmt) {
      CodecIsNotAFlag(fmt);
    }
    ArgVectorFlags(inputFileName, CodecOption(fmt), BitrateOption(fmt), outputFilePath);
  }

  /** What an argument vector asks the engine to do. */
  datatype Invocation = Invocation(input: string, codec: Option<string>, bitrate: Option<string>, output: string)

  /** Reads `-i <in> [-codec:a <c>] [-b:a <b>] <out>` back into its parts;
      any other vector is rejected. */
  function ParseArgs(argv: seq<string>): Option<Invocation>
  {
    if |argv| < 3 || argv[0] != "-i" then None
    else
      var opts := argv[2..|argv| - 1];
      var inv := Invocation(argv[1], None, None, argv[|argv| - 1]);
      if |opts| == 0 then Some(inv)
      else if |opts| == 2 && opts[0] == "-codec:a" then Some(inv.(codec := Some(opts[1])))
      else if |opts| == 2 && opts[0] == "-b:a" then Some(inv.(bitrate := Some(opts[1])))
      else if |opts| == 4 && opts[0] == "-codec:a" && opts[2] == "-b:a" then
        Some(inv.(codec := Some(opts[1]), bitrate := Some(opts[3])))
      else None
  }

  /** Reading a built vector back recovers exactly what it was built from. */
  lemma ParseArgVector(input: string, codec: Option<string>, bitrate: Option<string>, output: string)
    ensures ParseArgs(ArgVector(input, codec, bitrate, output)) == Some(Invocation(input, codec, bitrate, output))
  {
  }

  /** Reading the vector `convertFile` builds recovers the input, the catalog
      codec exactly when the format has one, `192k` exactly for the lossy
      formats, and the output path. */
  lemma ParseBuildArgs(inputFileName: string, fmt: string, outputFilePath: string)
    ensures ParseArgs(BuildArgs(inputFileName, fmt, outputFilePath)) ==
      Some(Invocation(inputFileName,
                      if HasCodec(fmt) then Some(CodecOf(fmt)) else None,
                      if UsesBitrateCap(fmt) then Some("192k") else None,
                      outputFilePath))
  {
    ParseArgVector(inputFileName, CodecOption(fmt), BitrateOption(fmt), outputFilePath);
  }
}
