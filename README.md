# Andes SDK resource compiler, modelled in Dafny

This project models the offline resource compiler of the Andes SDK: the step
that turns a resource manifest (`resources/config.yml`) and its asset files into
a binary container (`build/resources.bin`) and a pair of generated C files
(`andes_resources.h` and `andes_resources.c`).

Two parts of the compiler are modelled.

- **The palette stage** (`src/resources/palette.rs`). For every palette of the
  manifest it reads the asset text, drops the first three lines and every later
  empty line, and splits each data line on single spaces. Each token is parsed
  as a `u16`, and the first three channels are packed into one 16-bit colour.
  The stage then writes a `DATA_<id>` array of hex literals to the source file,
  an `extern` declaration to the header, and a `PaletteResource` descriptor
  whose size is twice the number of colours.
- **The orchestrator** (`src/resources.rs`). It writes the container magic and
  skips the 8-byte length field. It writes the banner and preambles of both C
  files, then runs the palette, rawdata, spriteset and tileset stages in that
  order over the same three streams. When every stage succeeds, it records the
  cursor and writes it little-endian at offset 10, then seeks back to the end.

Modules, one file each:

| file | module | contents |
|---|---|---|
| `wrappers.dfy` | `Wrappers` | `Option`, `Result` and `Outcome` |
| `errors.dfy` | `Errors` | the ways a run can stop early |
| `manifest.dfy` | `Manifest` | `PaletteDef`, `ResConfig` and the defaults for missing sections |
| `streams.dfy` | `Streams` | append-only text files; a byte file with a cursor, seeks and zero-filling writes; little-endian `u64` |
| `text.dfy` | `Text` | `str::split` on one character, numerals (`{}` and `{:x}`), and `u16::from_str` |
| `palette.dfy` | `Palette` | colour packing, line and file parsing, the generated C text, the stage as a function, and the stage as imperative code |
| `resources.dfy` | `Resources` | container layout, the whole run as a function, and `CompileAll` as imperative code |

Each imperative method is proved against a specification function:

- `Palette.EmitColors` is proved against `ParseColors`.
- `Palette.CompileItem` is proved against `PaletteColors`.
- `Palette.Compile` is proved against `CompilePalettes`.
- `Resources.CompileAll` is proved against `Pipeline`.

Lemmas beside those functions state what the source promises about them.

A few behaviours of the code that the model keeps as they are:

- The length field is never written as zeros. The code only seeks past it
  (`src/resources.rs:45`). Once a stage writes a byte, the skipped gap reads as
  zeros. With no payload the file is the 10-byte magic until the length patch
  extends it to 18 bytes.
- An empty palette is written as `{ ` followed by ` };`, so its array has two
  spaces between the braces (`src/resources/palette.rs:34-37`, `58`).
- Every token of a data line is parsed, and tokens after the third are ignored
  (`src/resources/palette.rs:44-52`). A line with fewer than three tokens makes
  the code index past the end of its channel vector.
- Lines are split on `'\n'` only (`src/resources/palette.rs:30`), so a line
  that ends in `'\r'` fails to parse.

## Model

| member | source | states |
|---|---|---|
| `Manifest.ResConfigOf` | src/resources.rs:14-24 | A missing manifest section becomes an empty list; a present one is kept as written, in order. |
| `Streams.TextStream.constructor` | src/resources.rs:39-42 | A freshly created C file is empty. |
| `Streams.TextStream.WriteAll` | src/resources/palette.rs:25-26 | Writing to a text file appends exactly the given text. |
| `Streams.ByteStream.constructor` | src/resources.rs:36 | A freshly created container is empty, with the cursor at 0. |
| `Streams.ByteStream.WriteAll` | src/resources.rs:44 | Writing puts the bytes at the cursor, zero-fills any gap past the old end, keeps every other byte, and advances the cursor by the length written. |
| `Streams.ByteStream.Seek` | src/resources.rs:84-88 | A seek from the start, the cursor or the end moves only the cursor and returns the new position; a target before byte 0 is refused and the cursor stays put. |
| `Streams.Overwrite` | src/resources.rs:45 | A write replaces the bytes under it, reads as zeros between the old end and the write, leaves the rest unchanged, and is a no-op when empty. |
| `Streams.EncodeLE` | src/resources.rs:84 | The little-endian encoding has exactly the requested width. |
| `Streams.DecodeEncode` | src/resources.rs:84 | Decoding `to_le_bytes` gives back every number below 2^64. |
| `Streams.EncodeDecode` | src/resources.rs:84 | Every byte string is the encoding of the number it denotes, and that number fits its width. |
| `Text.Split` | src/resources/palette.rs:30 | Splitting always gives at least one piece. |
| `Text.SplitPiecesFree` | src/resources/palette.rs:30 | No piece of a split contains the separator. |
| `Text.SplitJoin` | src/resources/palette.rs:30 | Joining the pieces with the separator restores the text, so a split loses nothing. |
| `Text.JoinSplit` | src/resources/palette.rs:30 | Splitting is the inverse of joining pieces that hold no separator. |
| `Text.SplitNoSeparator` | src/resources/palette.rs:44-45 | Text without the separator is a single piece. |
| `Text.SplitLeadingPiece` | src/resources/palette.rs:30 | A separator-free prefix followed by the separator becomes the first piece; the rest splits on its own. |
| `Text.SplitConcat` | src/resources/palette.rs:44-45 | The pieces of `x + sep + y` are the pieces of `x` followed by the pieces of `y`. |
| `Text.SplitLastPiece` | src/resources/palette.rs:44-45 | Appending a character other than the separator extends the last piece and adds no piece. |
| `Text.SplitDoubleSeparator` | src/resources/palette.rs:44-45 | Two neighbouring separators produce an empty piece that is not the first one. |
| `Text.ParseU16` | src/resources/palette.rs:47-49 | Parses a token as `u16::from_str` does: an optional '+', then one or more decimal digits whose value is at most 65535; anything else is rejected. |
| `Text.Numeral` | src/resources/palette.rs:54 | A formatted number is a non-empty digit string with no leading zero, and it is "0" exactly for zero. |
| `Text.NumeralRoundTrip` | src/resources/palette.rs:54 | Reading a formatted numeral back gives the number that was formatted, in base 10 and 16. |
| `Text.NumeralCanonical` | src/resources/palette.rs:47-49 | A digit string without a leading zero is exactly the numeral of its value. |
| `Text.DecimalValueMeaning` | src/resources/palette.rs:47-49 | The accumulated decimal value exists exactly for digit strings, and it is their positional value. |
| `Text.ParseU16Meaning` | src/resources/palette.rs:47-49 | A token parses exactly when, after an optional '+', it is a non-empty digit string whose value is below 65536, and then it gives that value. |
| `Text.ParseU16Decimal` | src/resources/palette.rs:47-49 | The decimal numeral of every `u16`, with or without '+', parses back to it. |
| `Text.ParseU16Accepted` | src/resources/palette.rs:47-49 | Every accepted token is an optional '+', some leading zeros, and the decimal numeral of its value. |
| `Text.StripZeros` | src/resources/palette.rs:47-49 | Every digit string is some leading zeros followed by the decimal numeral of its value. |
| `Text.ZeroPrefixValue` | src/resources/palette.rs:47-49 | A leading zero does not change a digit string's value. |
| `Text.ParseU16RejectsNonDigit` | src/resources/palette.rs:47-49 | A token with a non-digit character is rejected, unless that character is a single leading '+'. |
| `Text.ParseU16RejectsEmpty` | src/resources/palette.rs:47-49 | The empty token and a lone '+' are rejected. |
| `Palette.PackColorNibbles` | src/resources/palette.rs:52 | For byte-sized channels the packed colour is below 0x1000, and nibble k holds channel k's top nibble. |
| `Palette.PackColorArithmetic` | src/resources/palette.rs:52 | For byte-sized channels the packed colour is the positional sum q0 + 16·q1 + 256·q2 of the quantised channels. |
| `Palette.PackColorQuantises` | src/resources/palette.rs:52 | Two byte-sized colours pack alike exactly when every channel has the same top nibble. |
| `Palette.PackColorLowNibble` | src/resources/palette.rs:52 | For any channels, the low nibble comes from the first channel alone. |
| `Palette.PackColorSpill` | src/resources/palette.rs:52 | Channels above a byte are not masked and spill into the next nibble; (255, 128, 0) packs to 0x8F. |
| `Palette.PackColor` | src/resources/palette.rs:52 | The packed colour: each channel shifted right by 4, the second then shifted left by 4 and the third by 8, OR-ed together in 16-bit arithmetic. |
| `Palette.ParseChannelsMeaning` | src/resources/palette.rs:44-50 | A line's channels exist exactly when every token parses, and then they list the tokens' values in order. |
| `Palette.ParseChannelsOfValues` | src/resources/palette.rs:44-50 | Tokens that each parse to a value give the list of those values. |
| `Palette.ParseChannelsAppend` | src/resources/palette.rs:44-50 | Two token lists parse together exactly when each parses, and then they give the concatenation of their values. |
| `Palette.LineColorDecimal` | src/resources/palette.rs:44-52 | A line "r g b" of decimal `u16`s packs those three values. |
| `Palette.LineColorExtraTokens` | src/resources/palette.rs:44-52 | Tokens after the third must parse but do not change the colour. |
| `Palette.LineRejectsCarriageReturn` | src/resources/palette.rs:44-50 | A data line ending in '\r' fails with the palette's parse error. |
| `Palette.LineRejectsDoubleSpace` | src/resources/palette.rs:44-50 | Two spaces in a row give an empty token, which fails with the palette's parse error. |
| `Palette.LineRejectsNonNumeric` | src/resources/palette.rs:44-50 | The line "255 x 0" fails with the palette's parse error. |
| `Palette.ParseChannels` | src/resources/palette.rs:44-50 | The values of all tokens of a line in order, or nothing when some token fails to parse. |
| `Palette.LineColor` | src/resources/palette.rs:44-52 | One data line's packed colour from its first three channels; a token that fails to parse gives the palette's parse error, and fewer than three channels give the index error. |
| `Palette.BodyLines` | src/resources/palette.rs:30-39 | The lines of the asset text after the first three. |
| `Palette.NonEmpty` | src/resources/palette.rs:39-42 | The non-empty lines, in order. |
| `Palette.Collect` | src/resources/palette.rs:39-56 | The colours of the non-empty lines from each line's outcome, in order, or the first failing non-empty line's error. |
| `Palette.ParseColors` | src/resources/palette.rs:39-56 | The colours of a palette's data lines, skipping empty lines, or the first error. |
| `Palette.CollectMeaning` | src/resources/palette.rs:39-56 | Gathering line outcomes succeeds exactly when every non-empty line succeeded; each non-empty line then gives its own colour, in order. |
| `Palette.CollectFirstError` | src/resources/palette.rs:39-56 | A failed gathering reports the first non-empty line that failed. |
| `Palette.ColorsFromLines` | src/resources/palette.rs:39-56 | A file parses exactly when every non-empty data line has a colour; each non-empty line then gives exactly one colour, its own, in file order. |
| `Palette.ColorsFirstError` | src/resources/palette.rs:39-56 | A failed parse reports the first non-empty data line without a colour, and the error names the palette. |
| `Palette.HeaderLinesIgnored` | src/resources/palette.rs:30-39 | The first three lines are ignored whatever they hold; the data lines are the lines of the rest. |
| `Palette.BlankBodyHasNoColors` | src/resources/palette.rs:39-42 | A file whose data lines are all empty gives no colours, not an error. |
| `Palette.EmptyPaletteSource` | src/resources/palette.rs:34-69 | A palette without colours is written as an array with two spaces between the braces and a descriptor of size 0. |
| `Palette.ColorLiteralReadsBack` | src/resources/palette.rs:54 | Each colour literal is "0x", then lower-case hex digits that read back as the colour, then ", ". |
| `Palette.DataOpen` | src/resources/palette.rs:34-37 | The opening of the `DATA_<id>` array. |
| `Palette.ColorLiteral` | src/resources/palette.rs:54 | One colour as `0x`, lower-case hex without leading zeros, then `, `. |
| `Palette.ColorLiterals` | src/resources/palette.rs:39-56 | The literals of the colours, in order. |
| `Palette.ExternDecl` | src/resources/palette.rs:60-63 | The header declaration of palette `id`'s descriptor. |
| `Palette.Descriptor` | src/resources/palette.rs:64-69 | The descriptor definition pointing at `DATA_<id>` with the given size. |
| `Palette.PaletteSource` | src/resources/palette.rs:34-69 | Everything one palette adds to the source: the array opening, one literal per colour, the closing, and a descriptor whose size is twice the colour count. |
| `Palette.PaletteColors` | src/resources/palette.rs:29-56 | One palette's colours: the unreadable-asset error when its path has no text, otherwise the colours of its data lines. |
| `Palette.Assemble` | src/resources/palette.rs:28-70 | The palettes' header and source text from each palette's outcome, in manifest order, or the first failing palette's error. |
| `Palette.CompilePalettes` | src/resources/palette.rs:28-70 | The header and source text the palette stage adds after its banners, or the first failing palette's error. |
| `Palette.ExternDecls` | src/resources/palette.rs:60-63 | One declaration per palette, in manifest order. |
| `Palette.PaletteSources` | src/resources/palette.rs:28-70 | Each palette's array and descriptor, built from its own asset's colours, in manifest order. |
| `Palette.AssembleOk` | src/resources/palette.rs:28-70 | The palettes' text is produced exactly when every palette succeeded, and the header part is then one declaration per palette, in order. |
| `Palette.AssembleFirstError` | src/resources/palette.rs:28-70 | A failed assembly reports the first palette that failed. |
| `Palette.CompilePalettesOk` | src/resources/palette.rs:28-70 | The palette stage succeeds exactly when every palette's asset is readable and parses. |
| `Palette.CompilePalettesHeader` | src/resources/palette.rs:60-63 | A successful stage adds exactly one `extern` declaration per palette to the header, in manifest order, whatever the assets contain. |
| `Palette.CompilePalettesFirstError` | src/resources/palette.rs:28-29 | A failing stage reports the error of the first palette that cannot be compiled. |
| `Palette.CompilePalettesEmpty` | src/resources/palette.rs:25-28 | A manifest without palettes adds no text beyond the banners. |
| `Palette.CompilePalettesSnoc` | src/resources/palette.rs:28-70 | One more palette at the end: the stage fails if it did before or if that palette fails; otherwise both texts grow by that palette's text. |
| `Palette.CompilePalettesSingle` | src/resources/palette.rs:28-70 | A single palette compiles to its own declaration and its own array and descriptor, or to its own error. |
| `Palette.CompilePalettesAppend` | src/resources/palette.rs:28-70 | Two palette lists compile together exactly when each compiles, the texts concatenate in order, and an error in the first list decides the error. |
| `Palette.CompilePalettesSource` | src/resources/palette.rs:28-70 | When every palette compiles, the stage adds one declaration per palette to the header and each palette's own array and descriptor to the source, in manifest order. |
| `Palette.DescriptorSize` | src/resources/palette.rs:64-69 | A compiled palette's descriptor size is twice the number of its non-empty data lines. |
| `Palette.EmitColors` | src/resources/palette.rs:39-56 | The line loop succeeds exactly when the file parses. On success it appends one literal per colour and returns the colour count; on failure it returns the parse error. |
| `Palette.CompileItem` | src/resources/palette.rs:29-69 | One palette appends its array and descriptor to the source and its declaration to the header. On failure it returns the palette's error and leaves the header untouched. |
| `Palette.Compile` | src/resources/palette.rs:18-73 | The stage writes the section banner to both files, then exactly the text `CompilePalettes` describes, or stops with its error; the container is not touched. |
| `Resources.ContainerLayout` | src/resources.rs:84-88 | The finished container starts with the magic and ends with the payload unchanged; its length field decodes to its own length when that is below 2^64. |
| `Resources.StageAppends` | src/resources.rs:55-82 | A stage writing at the cursor, just past the payload, extends the payload by exactly its bytes. |
| `Resources.PatchLength` | src/resources.rs:84-86 | Writing the recorded cursor at offset 10 changes only the length field and yields the finished container. |
| `Resources.Container` | src/resources.rs:84-88 | The finished container: the magic, the little-endian 64-bit total length, then the payload. |
| `Resources.Unpatched` | src/resources.rs:44-45 | The container before the patch: the magic alone while nothing was written after it, otherwise the magic, eight zero bytes and the payload. |
| `Resources.FirstExternalFailure` | src/resources.rs:62-82 | The error of the first collaborator stage that fails, in the order rawdata, spriteset, tileset. |
| `Resources.Pipeline` | src/resources.rs:26-91 | A run's three files, or the first failing stage's error: a palette error first, then the first collaborator failure; otherwise the finished container and both C files. |
| `Resources.PipelineContainer` | src/resources.rs:26-91 | A successful run's container has the magic, then a length field equal to its own length, then the stages' bytes in stage order. |
| `Resources.PipelineHeader` | src/resources.rs:47-82 | A successful run's header is the banner, the header preamble, the palette banner and declarations in manifest order, then the other stages' text in stage order. |
| `Resources.PipelineSource` | src/resources.rs:47-82 | When every stage succeeds, the run succeeds and its source is the banner, the source preamble, the palette banner, each palette's own array and descriptor in manifest order, then the other stages' text in stage order. |
| `Resources.PipelineFails` | src/resources.rs:55-82 | A run fails exactly when some stage fails; a palette failure decides the error whatever later stages do; otherwise a rawdata failure does, then a spriteset failure, then a tileset failure. |
| `Resources.PipelinePaletteError` | src/resources.rs:55-61 | A palette failure belongs to the first failing palette: its asset is unreadable, or the error names its id. |
| `Resources.WritePreambles` | src/resources.rs:44-53 | The container holds the magic with the cursor at 18, and each C file holds the banner and its own preamble. |
| `Resources.PatchLengthField` | src/resources.rs:84-88 | Patching turns the unpatched container into the finished one and leaves the cursor at the end. |
| `Resources.RunExternal` | src/resources.rs:62-82 | A collaborator stage extends the payload and both C files by its output, then reports its outcome. |
| `Resources.RunExternals` | src/resources.rs:62-82 | The rawdata, spriteset and tileset stages run in that order and stop at the first failure. On success the payload and C files grow by their outputs in that order. |
| `Resources.CompileAll` | src/resources.rs:26-91 | A run succeeds exactly when `Pipeline` does, and then the three files are the ones it describes, with the cursor at the end. On failure it returns the first stage's error and the length field is never patched. |

## Left out

- Reading `config.yml` and deserialising it with `serde_yml` are not modelled. The manifest is given as a value in which each section may be missing.
- The `unwrap()` calls on opening the manifest and creating the output files (`src/resources.rs:32-41`) are not modelled. The files are assumed to be created.
- `println!` and `fs::create_dir` are not modelled, since neither changes the outputs.
- Output write and flush errors, and `BufWriter` buffering, are not modelled. Only the file contents are.
- Asset files are a map from path to text. A path missing from the map is an unreadable file. UTF-8 decoding is not modelled; the text is a sequence of characters.
- The bodies of the rawdata, spriteset and tileset compilers are not part of this model. Each stage is given by what it appends to the three files and whether it reports an error. A failing stage appends its output and then fails.
- The `u16::from_str` error kinds are not modelled; only whether a token parses.
- `toolchain/api/src/andes_graphics_palette.c` is not part of this model. It only copies palette data into hardware registers at run time.
- A data line with fewer than three channels makes the code index past the end of its channel vector and panic. The model returns the error `ChannelIndexPanic(id)` instead. The panic message in the source does not mention the palette id; the model attaches it, so that "the error names the palette" (`ColorsFirstError`, `PipelinePaletteError`) holds for this case by construction.
- Palette.Compile: on failure it promises only that both C files still start with what they held before plus the section banner. It does not pin down the partial text written before the error.
- Palette.CompileItem: on failure it promises only that the source file keeps what it held before. It does not pin down the partially written array.
- Palette.EmitColors: on failure it promises only that the source file keeps what it held before. It does not pin down the literals written before the bad line.
- Resources.RunExternals: on failure it promises only that the C files keep their earlier text and that the container has not been patched.
- Resources.CompileAll: on failure it promises only the files' preambles, the palette banner and the unpatched container. It does not pin down the partial output.
- Palette.Compile: `color_amount` is an `i32` in the source, so 2^30 or more colours would overflow. The model uses unbounded integers.
- Resources.ContainerLayout: the length field is `u64`, so its round trip is stated only for containers shorter than 2^64 bytes.
