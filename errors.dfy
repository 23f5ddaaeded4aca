/**
 * The ways one compile run can stop early. Every one of them aborts the whole
 * run; none is recovered from.
 */
module Errors {

  /** The four per-kind compiler stages, in the order the orchestrator runs them. */
  datatype Stage = PaletteStage | RawDataStage | SpriteSetStage | TileSetStage

  datatype CompileError =
    /** The asset file at `path` could not be read as text. */
    | AssetUnreadable(path: string)
    /** A channel token of palette `id` is not a decimal `u16`; the message names the id. */
    | PaletteParse(id: string)
    /** A data line of palette `id` has fewer than three channels: the source indexes past
        the end of its channel vector and panics, which ends the run like an error. */
    | ChannelIndexPanic(id: string)
    /** A collaborator stage (rawdata, spriteset, tileset) reported a failure. */
    | StageFailed(stage: Stage, message: string)

  /** The error is attributed to the palette `id`. */
  predicate NamesPalette(e: CompileError, id: string)
  {
    (e.PaletteParse? || e.ChannelIndexPanic?) && e.id == id
  }
}
