/**
 * The top level of the resource compiler: it creates the binary container and
 * the two C files, writes their preambles, runs the four per-kind stages in a
 * fixed order over the same three streams, and finally patches the container's
 * length field.
 *
 * The container is laid out as
 *
 *   offset 0   10 bytes  the magic "ANDES     "
 *   offset 10   8 bytes  the total length of the file, little-endian
 *   offset 18            the bytes the stages wrote, in stage order
 */
module Resources {
  import opened Wrappers
  import opened Errors
  import opened Text
  import opened Streams
  import opened Manifest
  import opened Palette

  /** "ANDES" followed by five spaces. */
  const Magic: seq<Byte> := [0x41, 0x4E, 0x44, 0x45, 0x53, 0x20, 0x20, 0x20, 0x20, 0x20]

  /** Offset of the first payload byte: the magic plus the 8-byte length field. */
  const PayloadStart: nat := 18

  const Banner: string := "// AUTOMATICALLY GENERATED BY ANDES SDK. MODIFYING NOT RECOMMENDED.\n\n"
  const HeaderPreamble: string := "#pragma once\n\n#include <andes_res_types.h>\n\n"
  const SourcePreamble: string := "#include <andes_resources.h>\n\n"

  // ---------------------------------------------------------------------------
  // The stages whose bodies are not part of this model
  // ---------------------------------------------------------------------------

  /** What one of the rawdata, spriteset or tileset compilers appends to the three
      streams, and the error it reports, if any. */
  datatype StageOutput = StageOutput(data: seq<Byte>, header: string, source: string, failure: Option<string>)

  /** The behaviour of the three collaborator stages on this run's manifest and assets. */
  datatype ExternalStages = ExternalStages(rawdata: StageOutput, sprites: StageOutput, tilesets: StageOutput)

  // ---------------------------------------------------------------------------
  // The container
  // ---------------------------------------------------------------------------

  /** The finished container around a payload. */
  function Container(payload: seq<Byte>): seq<Byte>
  {
    Magic + U64LE(PayloadStart + |payload|) + payload
  }

  /** The container before its length is patched in. Seeking over the length
      field does not extend the file, so with no payload yet it is the magic
      alone; once a stage writes, the skipped bytes read as zeros. */
  function Unpatched(payload: seq<Byte>): seq<Byte>
  {
    if payload == [] then Magic else Magic + ZeroBytes(8) + payload
  }

  /** The finished container starts with the magic, its length field decodes to
      its own length whenever that fits in 64 bits, and the payload follows unchanged. */
  lemma ContainerLayout(payload: seq<Byte>)
    ensures var c := Container(payload);
      && |c| == PayloadStart + |payload|
      && c[..10] == Magic
      && c[PayloadStart..] == payload
      && (|c| < Pow256(8) ==> DecodeLE(c[10..PayloadStart]) == |c|)
  {
    var c := Container(payload);
    assert c[10..PayloadStart] == U64LE(PayloadStart + |payload|);
    if |c| < Pow256(8) {
      DecodeEncode(|c|, 8);
    }
  }

  /** A stage writing at the cursor, which sits just past the payload, extends the payload. */
  lemma StageAppends(payload: seq<Byte>, d: seq<Byte>)
    ensures Overwrite(Unpatched(payload), PayloadStart + |payload|, d) == Unpatched(payload + d)
  {
    if d != [] {
      var b := Unpatched(payload);
      if payload == [] {
        assert (Magic + ZeroBytes(8))[..PayloadStart] == Magic + ZeroBytes(8);
        assert payload + d == d;
      } else {
        assert b[..PayloadStart + |payload|] == b;
        AppendAssoc3(Magic + ZeroBytes(8), payload, d);
      }
    }
  }

  /** Writing the recorded length at offset 10 turns the unpatched container into
      the finished one: only the length field changes (the file grows to 18 bytes
      when no stage wrote anything). */
  lemma PatchLength(payload: seq<Byte>)
    ensures Overwrite(Unpatched(payload), 10, U64LE(PayloadStart + |payload|)) == Container(payload)
  {
    var b := Unpatched(payload);
    var le := U64LE(PayloadStart + |payload|);
    var r := Overwrite(b, 10, le);
    var c := Container(payload);
    assert |r| == |c|;
    forall k | 0 <= k < |r| ensures r[k] == c[k] {
      if k < 10 {
        assert r[k] == b[k];
      } else if k < PayloadStart {
        assert r[k] == le[k - 10];
      } else {
        assert r[k] == b[k];
      }
    }
  }

  // ---------------------------------------------------------------------------
  // The whole run as a function of its inputs
  // ---------------------------------------------------------------------------

  /** The three files of a successful run. */
  datatype Artifacts = Artifacts(container: seq<Byte>, header: string, source: string)

  /** The bytes the collaborator stages append to the container, in stage order. */
  function Payload(ext: ExternalStages): seq<Byte>
  {
    ext.rawdata.data + ext.sprites.data + ext.tilesets.data
  }

  /** The text the collaborator stages append to the header, in stage order. */
  function ExternalHeaders(ext: ExternalStages): string
  {
    ext.rawdata.header + ext.sprites.header + ext.tilesets.header
  }

  /** The text the collaborator stages append to the source, in stage order. */
  function ExternalSources(ext: ExternalStages): string
  {
    ext.rawdata.source + ext.sprites.source + ext.tilesets.source
  }

  /** The error of the first collaborator stage that fails, if any. */
  function FirstExternalFailure(ext: ExternalStages): Option<CompileError>
  {
    if ext.rawdata.failure.Some? then Some(StageFailed(RawDataStage, ext.rawdata.failure.value))
    else if ext.sprites.failure.Some? then Some(StageFailed(SpriteSetStage, ext.sprites.failure.value))
    else if ext.tilesets.failure.Some? then Some(StageFailed(TileSetStage, ext.tilesets.failure.value))
    else None
  }

  /** The three files of a run, or the error of the first stage that fails. */
  function Pipeline(config: ResConfig, assets: map<string, string>, ext: ExternalStages): Result<Artifacts, CompileError>
  {
    match CompilePalettes(config.palettes, assets)
    case Err(e) => Err(e)
    case Ok(pal) =>
      match FirstExternalFailure(ext)
      case Some(e) => Err(e)
      case None => Ok(Artifacts(
        Container(Payload(ext)),
        Banner + HeaderPreamble + SectionBanner + pal.0 + ExternalHeaders(ext),
        Banner + SourcePreamble + SectionBanner + pal.1 + ExternalSources(ext)))
  }

  /** A successful run's container is framed correctly around the stages' bytes. */
  lemma PipelineContainer(config: ResConfig, assets: map<string, string>, ext: ExternalStages)
    requires Pipeline(config, assets, ext).Ok?
    ensures var c := Pipeline(config, assets, ext).value.container;
      && c[..10] == Magic
      && |c| >= PayloadStart
      && c[PayloadStart..] == ext.rawdata.data + ext.sprites.data + ext.tilesets.data
      && (|c| < Pow256(8) ==> DecodeLE(c[10..PayloadStart]) == |c|)
  {
    ContainerLayout(Payload(ext));
  }

  /** A successful run's header starts with the banner and the header preamble,
      then declares every palette in manifest order, then holds the collaborator
      stages' declarations in stage order; the asset files' contents never reach it. */
  lemma PipelineHeader(config: ResConfig, assets: map<string, string>, ext: ExternalStages)
    requires Pipeline(config, assets, ext).Ok?
    ensures Pipeline(config, assets, ext).value.header ==
      Banner + HeaderPreamble + SectionBanner + ExternDecls(config.palettes) +
      (ext.rawdata.header + ext.sprites.header + ext.tilesets.header)
  {
    CompilePalettesHeader(config.palettes, assets);
  }

  /** When every stage succeeds, the run succeeds and its source starts with the
      banner and the source preamble, then holds each palette's array and
      descriptor, built from its own asset, in manifest order, then the
      collaborator stages' definitions in stage order. */
  lemma PipelineSource(config: ResConfig, assets: map<string, string>, ext: ExternalStages)
    requires forall k :: 0 <= k < |config.palettes| ==> PaletteColors(config.palettes[k], assets).Ok?
    requires FirstExternalFailure(ext).None?
    ensures Pipeline(config, assets, ext).Ok?
    ensures Pipeline(config, assets, ext).value.source ==
      Banner + SourcePreamble + SectionBanner + PaletteSources(config.palettes, assets) +
      (ext.rawdata.source + ext.sprites.source + ext.tilesets.source)
  {
    CompilePalettesSource(config.palettes, assets);
  }

  /** A run fails exactly when one of its stages fails; a failing palette stage
      decides the error whatever the later stages would do, and otherwise the
      first failing collaborator stage does. */
  lemma PipelineFails(config: ResConfig, assets: map<string, string>, ext: ExternalStages)
    ensures Pipeline(config, assets, ext).Err? <==>
      (exists k :: 0 <= k < |config.palettes| && PaletteColors(config.palettes[k], assets).Err?) ||
      ext.rawdata.failure.Some? || ext.sprites.failure.Some? || ext.tilesets.failure.Some?
    ensures CompilePalettes(config.palettes, assets).Err? ==>
      Pipeline(config, assets, ext) == Err(CompilePalettes(config.palettes, assets).error)
    ensures CompilePalettes(config.palettes, assets).Ok? && ext.rawdata.failure.Some? ==>
      Pipeline(config, assets, ext) == Err(StageFailed(RawDataStage, ext.rawdata.failure.value))
    ensures CompilePalettes(config.palettes, assets).Ok? && ext.rawdata.failure.None? && ext.sprites.failure.Some? ==>
      Pipeline(config, assets, ext) == Err(StageFailed(SpriteSetStage, ext.sprites.failure.value))
    ensures (CompilePalettes(config.palettes, assets).Ok? && ext.rawdata.failure.None? && ext.sprites.failure.None? &&
             ext.tilesets.failure.Some?) ==>
      Pipeline(config, assets, ext) == Err(StageFailed(TileSetStage, ext.tilesets.failure.value))
  {
    CompilePalettesOk(config.palettes, assets);
  }

  /** When the palette stage fails, the error belongs to the first palette that
      cannot be compiled: its asset is unreadable, or the error names it. */
  lemma PipelinePaletteError(config: ResConfig, assets: map<string, string>, ext: ExternalStages)
    requires CompilePalettes(config.palettes, assets).Err?
    ensures exists k :: (0 <= k < |config.palettes| &&
      var def := config.palettes[k];
      var e := Pipeline(config, assets, ext).error;
      && (forall j :: 0 <= j < k ==> PaletteColors(config.palettes[j], assets).Ok?)
      && (if def.path in assets then NamesPalette(e, def.id) else e == AssetUnreadable(def.path)))
  {
    var defs := config.palettes;
    CompilePalettesFirstError(defs, assets);
    var k :| 0 <= k < |defs| &&
      PaletteColors(defs[k], assets) == Err(CompilePalettes(defs, assets).error) &&
      forall j :: 0 <= j < k ==> PaletteColors(defs[j], assets).Ok?;
    var def := defs[k];
    if def.path in assets {
      ColorsFirstError(def.id, BodyLines(assets[def.path]));
    }
  }

  // ---------------------------------------------------------------------------
  // The run itself
  // ---------------------------------------------------------------------------

  lemma PrefixExtends(a: string, b: string, x: string)
    requires a <= b
    ensures a <= b + x
  {
  }

  /** Writes the magic and skips the length field in the fresh container, and the
      banner and preamble of each fresh C file. */
  method WritePreambles(data: ByteStream, header: TextStream, source: TextStream)
    requires header != source
    requires data.bytes == [] && data.pos == 0 && header.text == [] && source.text == []
    modifies data, header, source
    ensures data.bytes == Unpatched([]) && data.pos == PayloadStart
    ensures header.text == Banner + HeaderPreamble && source.text == Banner + SourcePreamble
  {
    data.WriteAll(Magic);
    var skipped := data.Seek(Current(8));
    assert skipped.Ok?;
    assert data.bytes == Magic;

    header.WriteAll(Banner);
    source.WriteAll(Banner);
    header.WriteAll(HeaderPreamble);
    source.WriteAll(SourcePreamble);
  }

  /** Records the cursor, which sits at the end of the payload, as the container's
      length, writes it little-endian at offset 10, and moves the cursor back to the end. */
  method PatchLengthField(data: ByteStream, ghost payload: seq<Byte>)
    requires data.bytes == Unpatched(payload) && data.pos == PayloadStart + |payload|
    modifies data
    ensures data.bytes == Container(payload) && data.pos == |data.bytes|
  {
    var recorded := data.Seek(Current(0));
    assert recorded.Ok?;
    var lengthField := U64LE(recorded.value);
    var rewound := data.Seek(Start(10));
    assert rewound.Ok?;
    data.WriteAll(lengthField);
    PatchLength(payload);
    var atEnd := data.Seek(End(0));
    assert atEnd.Ok?;
  }

  /** The container before the length patch: the magic, then either nothing or
      the zeroed length field and the payload. */
  predicate IsUnpatched(b: seq<Byte>)
  {
    |b| >= 10 && b[..10] == Magic && (|b| == 10 || (|b| >= PayloadStart && b[10..PayloadStart] == ZeroBytes(8)))
  }

  lemma UnpatchedShape(payload: seq<Byte>)
    ensures IsUnpatched(Unpatched(payload))
  {
    var u := Unpatched(payload);
    if payload != [] {
      assert u[..10] == Magic && u[10..PayloadStart] == ZeroBytes(8);
    }
  }

  /** Runs a collaborator stage: it appends its bytes at the container's cursor,
      which sits at the end of the payload written so far, appends its text to
      both C files, then reports its outcome. */
  method RunExternal(stage: Stage, out: StageOutput, data: ByteStream, header: TextStream, source: TextStream,
                     ghost payload: seq<Byte>)
    returns (r: Outcome<CompileError>)
    requires header != source
    requires data.bytes == Unpatched(payload) && data.pos == PayloadStart + |payload|
    modifies data, header, source
    ensures data.bytes == Unpatched(payload + out.data) && data.pos == PayloadStart + |payload + out.data|
    ensures header.text == old(header.text) + out.header
    ensures source.text == old(source.text) + out.source
    ensures r.Pass? <==> out.failure.None?
    ensures r.Fail? ==> r.error == StageFailed(stage, out.failure.value)
  {
    data.WriteAll(out.data);
    StageAppends(payload, out.data);
    header.WriteAll(out.header);
    source.WriteAll(out.source);
    if out.failure.Some? {
      return Fail(StageFailed(stage, out.failure.value));
    }
    return Pass;
  }

  /** Runs the rawdata, spriteset and tileset stages in that order, stopping at
      the first that fails. */
  method RunExternals(ext: ExternalStages, data: ByteStream, header: TextStream, source: TextStream)
    returns (r: Outcome<CompileError>)
    requires header != source
    requires data.bytes == Unpatched([]) && data.pos == PayloadStart
    modifies data, header, source
    ensures r.Pass? <==> FirstExternalFailure(ext).None?
    ensures r.Fail? ==>
      r.error == FirstExternalFailure(ext).value && IsUnpatched(data.bytes) &&
      old(header.text) <= header.text && old(source.text) <= source.text
    ensures r.Pass? ==>
      data.bytes == Unpatched(Payload(ext)) && data.pos == PayloadStart + |Payload(ext)| &&
      header.text == old(header.text) + ExternalHeaders(ext) &&
      source.text == old(source.text) + ExternalSources(ext)
  {
    ghost var h0, s0 := header.text, source.text;
    r := RunExternal(RawDataStage, ext.rawdata, data, header, source, []);
    assert [] + ext.rawdata.data == ext.rawdata.data;
    ghost var payload := ext.rawdata.data;
    if r.Fail? {
      UnpatchedShape(payload);
      PrefixExtends(h0, h0, ext.rawdata.header);
      PrefixExtends(s0, s0, ext.rawdata.source);
      return;
    }
    r := RunExternal(SpriteSetStage, ext.sprites, data, header, source, payload);
    payload := payload + ext.sprites.data;
    AppendAssoc3(h0, ext.rawdata.header, ext.sprites.header);
    AppendAssoc3(s0, ext.rawdata.source, ext.sprites.source);
    if r.Fail? {
      UnpatchedShape(payload);
      PrefixExtends(h0, h0, ext.rawdata.header + ext.sprites.header);
      PrefixExtends(s0, s0, ext.rawdata.source + ext.sprites.source);
      return;
    }
    r := RunExternal(TileSetStage, ext.tilesets, data, header, source, payload);
    payload := payload + ext.tilesets.data;
    AppendAssoc3(h0, ext.rawdata.header + ext.sprites.header, ext.tilesets.header);
    AppendAssoc3(s0, ext.rawdata.source + ext.sprites.source, ext.tilesets.source);
    if r.Fail? {
      UnpatchedShape(payload);
      PrefixExtends(h0, h0, ExternalHeaders(ext));
      PrefixExtends(s0, s0, ExternalSources(ext));
      return;
    }
  }

  /** Compiles every resource of the manifest into a fresh container and fresh
      header and source files. On success the three files are those `Pipeline`
      describes and the container's cursor is at its end. On failure the error is
      the first failing stage's, the length field was never patched, and each C
      file holds at least its preamble and the palette banner. */
  method CompileAll(doc: ManifestDoc, assets: map<string, string>, ext: ExternalStages)
    returns (r: Outcome<CompileError>, data: ByteStream, header: TextStream, source: TextStream)
    ensures fresh(data) && fresh(header) && fresh(source) && header != source
    ensures var spec := Pipeline(ResConfigOf(doc), assets, ext);
      && (r.Pass? <==> spec.Ok?)
      && (spec.Ok? ==>
            data.bytes == spec.value.container && data.pos == |data.bytes| &&
            header.text == spec.value.header && source.text == spec.value.source)
      && (spec.Err? ==>
            r == Fail(spec.error) && IsUnpatched(data.bytes) &&
            Banner + HeaderPreamble + SectionBanner <= header.text &&
            Banner + SourcePreamble + SectionBanner <= source.text)
  {
    var config := ResConfigOf(doc);
    data := new ByteStream();
    header := new TextStream();
    source := new TextStream();
    WritePreambles(data, header, source);

    r := Palette.Compile(config, assets, data, header, source);
    if r.Fail? {
      UnpatchedShape([]);
      return;
    }

    r := RunExternals(ext, data, header, source);
    if r.Fail? {
      return;
    }
    PatchLengthField(data, Payload(ext));
  }
}
