/** The static catalog of output formats the user can pick from, and the
    lookups the conversion makes into it. */
module Formats {
  import opened Wrappers

  /** One selectable output format: its id (`value`), display label, the MIME
      type of the produced file and the encoder passed to the engine. */
  datatype Format = Format(value: string, displayLabel: string, mimeType: string, codec: string)

  /** The catalog, in display order. */
  const Catalog: seq<Format> := [
    Format("mp3", "MP3", "audio/mpeg", "libmp3lame"),
    Format("wav", "WAV", "audio/wav", "pcm_s16le"),
    Format("m4a", "M4A", "audio/mp4", "aac"),
    Format("flac", "FLAC", "audio/flac", "flac"),
    Format("ogg", "OGG", "audio/ogg", "libvorbis"),
    Format("amr", "AMR", "audio/amr", "amrnb"),
    Format("mp2", "MP2", "audio/mpeg", "mp2"),
    Format("m4r", "M4R", "audio/mp4", "aac")
  ]

  /** The MIME type declared when the format is not in the catalog. */
  const DefaultMimeType: string := "audio/mpeg"

  /** The lossy formats that are given an explicit audio bitrate. */
  const BitrateFormats: seq<string> := ["mp3", "ogg", "m4a", "m4r"]

  /** The bitrate they are given. */
  const Bitrate: string := "192k"

  /** No two catalog entries share an id. */
  predicate DistinctIds(table: seq<Format>)
  {
    forall i, j :: 0 <= i < j < |table| ==> table[i].value != table[j].value
  }

  /** `table.findIndex(f => f.value === id)`: the first entry with that id. */
  function FindIndex(table: seq<Format>, id: string): (r: Option<nat>)
    ensures r.Some? ==> r.value < |table| && table[r.value].value == id
    ensures r.Some? ==> forall j :: 0 <= j < r.value ==> table[j].value != id
    ensures r.None? ==> forall j :: 0 <= j < |table| ==> table[j].value != id
  {
    if |table| == 0 then None
    else if table[0].value == id then Some(0)
    else match FindIndex(table[1..], id)
      case None => None
      case Some(k) => Some(k + 1)
  }

  /** `outputFormats.find(f => f.value === id)`. */
  function Lookup(id: string): (r: Option<Format>)
    ensures r.Some? ==> r.value.value == id
  {
    match FindIndex(Catalog, id)
    case None => None
    case Some(k) => Some(Catalog[k])
  }

  /** The lookup finds a catalog entry exactly when some entry has the id. */
  lemma LookupFindsCatalogEntry(id: string)
    ensures Lookup(id).Some? ==> Lookup(id).value in Catalog
    ensures Lookup(id).None? <==> forall k :: 0 <= k < |Catalog| ==> Catalog[k].value != id
  {
  }

  /** Every catalog entry is found by its own id. */
  lemma LookupCatalogEntry(k: nat)
    requires k < |Catalog|
    ensures Lookup(Catalog[k].value) == Some(Catalog[k])
  {
    assert DistinctIds(Catalog);
    var i := FindIndex(Catalog, Catalog[k].value);
    assert i.Some?;
  }

  /** `selectedFormat?.mimeType || 'audio/mpeg'`: the type of the produced
      blob. An empty catalog type counts as missing, as `||` treats it. */
  function MimeTypeFor(id: string): (r: string)
    ensures r != ""
    ensures Lookup(id).Some? && Lookup(id).value.mimeType != "" ==> r == Lookup(id).value.mimeType
    ensures Lookup(id).None? ==> r == DefaultMimeType
  {
    match Lookup(id)
    case Some(f) => if f.mimeType != "" then f.mimeType else DefaultMimeType
    case None => DefaultMimeType
  }

  /** Each catalogued format declares its own MIME type; an unknown id falls
      back to `audio/mpeg`. */
  lemma MimeTypeForCatalog(id: string)
    ensures forall k :: 0 <= k < |Catalog| && Catalog[k].value == id ==> MimeTypeFor(id) == Catalog[k].mimeType
    ensures (forall k :: 0 <= k < |Catalog| ==> Catalog[k].value != id) ==> MimeTypeFor(id) == "audio/mpeg"
  {
    forall k | 0 <= k < |Catalog| && Catalog[k].value == id
      ensures MimeTypeFor(id) == Catalog[k].mimeType
    {
      LookupCatalogEntry(k);
    }
  }

  /** `selectedFormat?.codec` is truthy: the format is known and names a codec. */
  predicate HasCodec(id: string)
  {
    Lookup(id).Some? && Lookup(id).value.codec != ""
  }

  /** The codec of a format that has one. */
  function CodecOf(id: string): (r: string)
    requires HasCodec(id)
    ensures r != ""
  {
    Lookup(id).value.codec
  }

  /** The codec passed is the one the catalog lists for the format. */
  lemma CodecOfCatalog(id: string)
    requires HasCodec(id)
    ensures exists k :: 0 <= k < |Catalog| && Catalog[k].value == id && Catalog[k].codec == CodecOf(id)
  {
    var k := FindIndex(Catalog, id).value;
    assert Catalog[k].codec == CodecOf(id);
  }

  /** Exactly the catalogued formats have a codec. */
  lemma HasCodecIffCatalogued(id: string)
    ensures HasCodec(id) <==> exists k :: 0 <= k < |Catalog| && Catalog[k].value == id
  {
    if k :| 0 <= k < |Catalog| && Catalog[k].value == id {
      LookupCatalogEntry(k);
    }
  }

  /** `['mp3', 'ogg', 'm4a', 'm4r'].includes(id)`. */
  predicate UsesBitrateCap(id: string)
  {
    id in BitrateFormats
  }

  /** Every format given a bitrate is also in the catalog and has a codec. */
  lemma BitrateFormatsHaveCodec(id: string)
    requires UsesBitrateCap(id)
    ensures HasCodec(id)
  {
    assert id == Catalog[0].value || id == Catalog[4].value || id == Catalog[2].value || id == Catalog[7].value;
    HasCodecIffCatalogued(id);
  }
}
