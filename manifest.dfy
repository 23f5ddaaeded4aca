/**
 * The resource manifest (`resources/config.yml`) as the compiler sees it once
 * deserialised. Loading and parsing the YAML file is not part of this model.
 */
module Manifest {
  import opened Wrappers

  /** A palette entry: the id becomes a C symbol suffix, the path names the asset file. */
  datatype PaletteDef = PaletteDef(id: string, path: string)

  /** An entry of one of the collaborator kinds (rawdata, sprites, tilesets); their
      schemas belong to compilers outside this model, so the fields stay uninterpreted. */
  datatype ExternalDef = ExternalDef(id: string, fields: seq<(string, string)>)

  /** The four per-kind lists, each in manifest order. */
  datatype ResConfig = ResConfig(
    palettes: seq<PaletteDef>,
    rawdata: seq<ExternalDef>,
    sprites: seq<ExternalDef>,
    tilesets: seq<ExternalDef>)

  /** The deserialised document, where each top-level section may be missing. */
  datatype ManifestDoc = ManifestDoc(
    palettes: Option<seq<PaletteDef>>,
    rawdata: Option<seq<ExternalDef>>,
    sprites: Option<seq<ExternalDef>>,
    tilesets: Option<seq<ExternalDef>>)

  /** A missing section is an empty list; a present one is taken as written. */
  function ResConfigOf(doc: ManifestDoc): (c: ResConfig)
    ensures doc.palettes.None? ==> c.palettes == []
    ensures doc.palettes.Some? ==> c.palettes == doc.palettes.value
    ensures doc.rawdata.None? ==> c.rawdata == []
    ensures doc.rawdata.Some? ==> c.rawdata == doc.rawdata.value
    ensures doc.sprites.None? ==> c.sprites == []
    ensures doc.sprites.Some? ==> c.sprites == doc.sprites.value
    ensures doc.tilesets.None? ==> c.tilesets == []
    ensures doc.tilesets.Some? ==> c.tilesets == doc.tilesets.value
  {
    ResConfig(
      if doc.palettes.Some? then doc.palettes.value else [],
      if doc.rawdata.Some? then doc.rawdata.value else [],
      if doc.sprites.Some? then doc.sprites.value else [],
      if doc.tilesets.Some? then doc.tilesets.value else [])
  }
}
