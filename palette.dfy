/**
 * The palette compiler: every palette of the manifest becomes a C array of
 * packed 16-bit colours plus a `PaletteResource` descriptor in the generated
 * source, and an `extern` declaration of that descriptor in the generated
 * header. Palettes put nothing into the binary container.
 *
 * Asset files follow a line-oriented colour-table convention: three header
 * lines, then one "r g b" line per colour.
 */
module Palette {
  import opened Wrappers
  import opened Errors
  import opened Text
  import opened Manifest
  import opened Streams

  // ---------------------------------------------------------------------------
  // Colour packing
  // ---------------------------------------------------------------------------

  /** Quantises three channels to their top nibble within the low byte and packs
      them as 0x0BGR, in 16-bit arithmetic: bits shifted past bit 15 are lost and
      channel values above 0xFF are not masked. */
  function PackColor(c0: bv16, c1: bv16, c2: bv16): bv16
  {
    (c0 >> 4) | ((c1 >> 4) << 4) | ((c2 >> 4) << 8)
  }

  /** Bits 4k..4k+3 of `x`. */
  function Nibble(x: bv16, k: nat): bv16
    requires k < 4
  {
    (x >> (4 * k)) & 0xF
  }

  /** For byte-sized channels the result fits in 12 bits and nibble k holds channel k's top nibble. */
  lemma PackColorNibbles(c0: bv16, c1: bv16, c2: bv16)
    requires c0 <= 0xFF && c1 <= 0xFF && c2 <= 0xFF
    ensures PackColor(c0, c1, c2) < 0x1000
    ensures Nibble(PackColor(c0, c1, c2), 0) == c0 >> 4
    ensures Nibble(PackColor(c0, c1, c2), 1) == c1 >> 4
    ensures Nibble(PackColor(c0, c1, c2), 2) == c2 >> 4
  {
  }

  /** For byte-sized channels the packing is the positional sum q0 + 16 q1 + 256 q2 of the quantised channels. */
  lemma PackColorArithmetic(c0: bv16, c1: bv16, c2: bv16)
    requires c0 <= 0xFF && c1 <= 0xFF && c2 <= 0xFF
    ensures PackColor(c0, c1, c2) == c0 / 16 + (c1 / 16) * 16 + (c2 / 16) * 256
  {
  }

  /** For byte-sized channels two colours pack alike exactly when they agree on every channel's top nibble. */
  lemma PackColorQuantises(a0: bv16, a1: bv16, a2: bv16, b0: bv16, b1: bv16, b2: bv16)
    requires a0 <= 0xFF && a1 <= 0xFF && a2 <= 0xFF
    requires b0 <= 0xFF && b1 <= 0xFF && b2 <= 0xFF
    ensures PackColor(a0, a1, a2) == PackColor(b0, b1, b2)
        <==> (a0 >> 4 == b0 >> 4 && a1 >> 4 == b1 >> 4 && a2 >> 4 == b2 >> 4)
  {
    PackColorNibbles(a0, a1, a2);
    PackColorNibbles(b0, b1, b2);
  }

  /** Whatever the channels, the low nibble is the low nibble of the first channel's quantised value. */
  lemma PackColorLowNibble(c0: bv16, c1: bv16, c2: bv16)
    ensures Nibble(PackColor(c0, c1, c2), 0) == Nibble(c0 >> 4, 0)
  {
  }

  /** Channel values above a byte are not masked: they spill into the neighbouring nibble. */
  lemma PackColorSpill()
    ensures PackColor(0x100, 0, 0) == PackColor(0, 0x10, 0) == 0x10
    ensures PackColor(255, 128, 0) == 0x8F
  {
  }

  // ---------------------------------------------------------------------------
  // One data line
  // ---------------------------------------------------------------------------

  /** Every token parsed as a `u16`; the first token that fails fails the whole line. */
  function ParseChannels(tokens: seq<string>): Option<seq<U16>>
    decreases |tokens|
  {
    if tokens == [] then Some([])
    else match ParseChannels(tokens[..|tokens| - 1])
      case None => None
      case Some(front) =>
        match ParseU16(tokens[|tokens| - 1])
        case None => None
        case Some(v) => Some(front + [v])
  }

  /** The channel list exists exactly when every token parses, and then it lists their values in order. */
  lemma {:induction false} ParseChannelsMeaning(tokens: seq<string>)
    ensures ParseChannels(tokens).Some? <==> forall k :: 0 <= k < |tokens| ==> ParseU16(tokens[k]).Some?
    ensures ParseChannels(tokens).Some? ==>
      |ParseChannels(tokens).value| == |tokens| &&
      forall k :: 0 <= k < |tokens| ==> ParseU16(tokens[k]) == Some(ParseChannels(tokens).value[k])
    decreases |tokens|
  {
    if tokens != [] {
      var front := tokens[..|tokens| - 1];
      ParseChannelsMeaning(front);
      assert forall k :: 0 <= k < |front| ==> front[k] == tokens[k];
    }
  }

  /** The packed colour of one non-empty data line, split on single spaces. */
  function LineColor(id: string, line: string): Result<bv16, CompileError>
  {
    match ParseChannels(Split(line, ' '))
    case None => Err(PaletteParse(id))
    case Some(ch) =>
      if |ch| < 3 then Err(ChannelIndexPanic(id))
      else Ok(PackColor(ch[0] as bv16, ch[1] as bv16, ch[2] as bv16))
  }

  /** A well-formed "r g b" line packs its three values. */
  lemma LineColorDecimal(id: string, r: U16, g: U16, b: U16)
    ensures LineColor(id, Decimal(r) + " " + Decimal(g) + " " + Decimal(b))
         == Ok(PackColor(r as bv16, g as bv16, b as bv16))
  {
    DecimalHasNoSpace(r);
    DecimalHasNoSpace(g);
    DecimalHasNoSpace(b);
    SplitThree(Decimal(r), Decimal(g), Decimal(b));
    ParseThree(r, g, b);
  }

  lemma SplitThree(a: string, b: string, c: string)
    requires ' ' !in a && ' ' !in b && ' ' !in c
    ensures Split(a + " " + b + " " + c, ' ') == [a, b, c]
  {
    assert a + " " + b + " " + c == a + [' '] + (b + [' '] + c);
    SplitLeadingPiece(a, b + [' '] + c, ' ');
    SplitLeadingPiece(b, c, ' ');
    SplitNoSeparator(c, ' ');
  }

  lemma ParseThree(r: U16, g: U16, b: U16)
    ensures ParseChannels([Decimal(r), Decimal(g), Decimal(b)]) == Some([r, g, b])
  {
    ParseU16Decimal(r);
    ParseU16Decimal(g);
    ParseU16Decimal(b);
    ParseChannelsOfValues([Decimal(r), Decimal(g), Decimal(b)], [r, g, b]);
  }

  /** Tokens that each parse to the corresponding value parse to the list of those values. */
  lemma {:induction false} ParseChannelsOfValues(tokens: seq<string>, vs: seq<U16>)
    requires |tokens| == |vs| && forall k :: 0 <= k < |tokens| ==> ParseU16(tokens[k]) == Some(vs[k])
    ensures ParseChannels(tokens) == Some(vs)
    decreases |tokens|
  {
    if tokens != [] {
      var n := |tokens| - 1;
      var front, vfront := tokens[..n], vs[..n];
      assert forall k :: 0 <= k < n ==> front[k] == tokens[k] && vfront[k] == vs[k];
      ParseChannelsOfValues(front, vfront);
      assert vs == vfront + [vs[n]];
    }
  }

  lemma DecimalHasNoSpace(n: nat)
    ensures ' ' !in Decimal(n)
  {
    assert AllDigits(Decimal(n), 10);
  }

  /** Tokens after the third are parsed, so they must be numbers, but do not affect the colour. */
  lemma LineColorExtraTokens(id: string, first: string, extra: string)
    requires LineColor(id, first).Ok?
    requires forall k :: 0 <= k < |Split(extra, ' ')| ==> ParseU16(Split(extra, ' ')[k]).Some?
    ensures LineColor(id, first + " " + extra) == LineColor(id, first)
  {
    var ts := Split(first, ' ');
    var es := Split(extra, ' ');
    SplitConcat(first, extra, ' ');
    ParseChannelsMeaning(es);
    ParseChannelsAppend(ts, es);
    var ch := ParseChannels(ts).value;
    var all := ParseChannels(ts + es).value;
    assert all == ch + ParseChannels(es).value;
    assert all[0] == ch[0] && all[1] == ch[1] && all[2] == ch[2];
  }

  /** Parsing two token lists one after the other parses their concatenation. */
  lemma {:induction false} ParseChannelsAppend(xs: seq<string>, ys: seq<string>)
    ensures ParseChannels(xs + ys).Some? <==> ParseChannels(xs).Some? && ParseChannels(ys).Some?
    ensures ParseChannels(xs + ys).Some? ==>
      ParseChannels(xs + ys).value == ParseChannels(xs).value + ParseChannels(ys).value
    decreases |ys|
  {
    if ys == [] {
      assert xs + ys == xs;
    } else {
      var n := |ys| - 1;
      var all := xs + ys;
      assert all[..|all| - 1] == xs + ys[..n] && all[|all| - 1] == ys[n];
      ParseChannelsAppend(xs, ys[..n]);
      if ParseChannels(all).Some? {
        var a, b := ParseChannels(xs).value, ParseChannels(ys[..n]).value;
        AppendAssoc3(a, b, [ParseU16(ys[n]).value]);
      }
    }
  }

  /** A line ending in a carriage return (a CRLF file) fails to parse. */
  lemma LineRejectsCarriageReturn(id: string, line: string)
    requires |line| > 0 && line[|line| - 1] == '\r'
    ensures LineColor(id, line) == Err(PaletteParse(id))
  {
    var front := line[..|line| - 1];
    assert line == front + ['\r'];
    SplitLastPiece(front, '\r', ' ');
    var ts := Split(line, ' ');
    var last := ts[|ts| - 1];
    ParseU16RejectsNonDigit(last, |last| - 1);
    ParseChannelsMeaning(ts);
  }

  /** Two spaces in a row leave an empty token, which fails to parse. */
  lemma LineRejectsDoubleSpace(id: string, line: string, i: nat)
    requires i + 1 < |line| && line[i] == ' ' && line[i + 1] == ' '
    ensures LineColor(id, line) == Err(PaletteParse(id))
  {
    SplitDoubleSeparator(line, i, ' ');
    ParseU16RejectsEmpty();
    ParseChannelsMeaning(Split(line, ' '));
  }

  /** A non-numeric channel such as "255 x 0" fails to parse. */
  lemma LineRejectsNonNumeric(id: string)
    ensures LineColor(id, "255 x 0") == Err(PaletteParse(id))
  {
    assert "255 x 0" == "255" + [' '] + ("x" + [' '] + "0");
    SplitLeadingPiece("255", "x" + [' '] + "0", ' ');
    SplitLeadingPiece("x", "0", ' ');
    SplitNoSeparator("0", ' ');
    var ts := Split("255 x 0", ' ');
    assert ts[1] == "x";
    ParseU16RejectsNonDigit("x", 0);
    ParseChannelsMeaning(ts);
  }

  // ---------------------------------------------------------------------------
  // A whole asset file
  // ---------------------------------------------------------------------------

  /** The lines after the first three (`split('\n').skip(3)`). */
  function BodyLines(content: string): seq<string>
  {
    var lines := Split(content, '\n');
    if |lines| > 3 then lines[3..] else []
  }

  /** The non-empty lines, in order. */
  function NonEmpty(lines: seq<string>): seq<string>
    decreases |lines|
  {
    if lines == [] then []
    else
      var last := lines[|lines| - 1];
      NonEmpty(lines[..|lines| - 1]) + (if last == [] then [] else [last])
  }

  /** The outcome of every line, empty or not, in file order. */
  function LineResults(id: string, lines: seq<string>): (rs: seq<Result<bv16, CompileError>>)
    ensures |rs| == |lines|
    decreases |lines|
  {
    if lines == [] then []
    else LineResults(id, lines[..|lines| - 1]) + [LineColor(id, lines[|lines| - 1])]
  }

  lemma {:induction false} LineResultsAt(id: string, lines: seq<string>, k: nat)
    requires k < |lines|
    ensures LineResults(id, lines)[k] == LineColor(id, lines[k])
    decreases |lines|
  {
    var n := |lines| - 1;
    if k < n {
      LineResultsAt(id, lines[..n], k);
    }
  }

  /** Gathers the colours of the non-empty lines from their outcomes `rs`, in
      order; the first non-empty line that failed decides the error. */
  function Collect(lines: seq<string>, rs: seq<Result<bv16, CompileError>>): Result<seq<bv16>, CompileError>
    requires |rs| == |lines|
    decreases |lines|
  {
    if lines == [] then Ok([])
    else match Collect(lines[..|lines| - 1], rs[..|lines| - 1])
      case Err(e) => Err(e)
      case Ok(cs) =>
        if lines[|lines| - 1] == [] then Ok(cs)
        else match rs[|lines| - 1]
          case Err(e) => Err(e)
          case Ok(c) => Ok(cs + [c])
  }

  /** The colours of a palette's data lines, skipping empty lines. */
  function ParseColors(id: string, lines: seq<string>): Result<seq<bv16>, CompileError>
  {
    Collect(lines, LineResults(id, lines))
  }

  /** Collecting succeeds exactly when every non-empty line succeeded; then every
      non-empty line contributes exactly its own colour, in order. */
  lemma {:induction false} CollectMeaning(lines: seq<string>, rs: seq<Result<bv16, CompileError>>)
    requires |rs| == |lines|
    ensures Collect(lines, rs).Ok? <==> forall k :: 0 <= k < |lines| && lines[k] != [] ==> rs[k].Ok?
    ensures Collect(lines, rs).Ok? ==>
      |Collect(lines, rs).value| == |NonEmpty(lines)| &&
      forall k :: 0 <= k < |NonEmpty(lines)| ==>
        exists j :: 0 <= j < |lines| && lines[j] == NonEmpty(lines)[k] && rs[j] == Ok(Collect(lines, rs).value[k])
    decreases |lines|
  {
    if lines != [] {
      var n := |lines| - 1;
      var front, rfront := lines[..n], rs[..n];
      CollectMeaning(front, rfront);
      assert forall k :: 0 <= k < n ==> front[k] == lines[k] && rfront[k] == rs[k];
      if Collect(lines, rs).Ok? {
        var cs := Collect(lines, rs).value;
        var fcs := Collect(front, rfront).value;
        forall k | 0 <= k < |NonEmpty(lines)|
          ensures exists j :: 0 <= j < |lines| && lines[j] == NonEmpty(lines)[k] && rs[j] == Ok(cs[k])
        {
          if k < |NonEmpty(front)| {
            var j :| 0 <= j < n && front[j] == NonEmpty(front)[k] && rfront[j] == Ok(fcs[k]);
            assert lines[j] == NonEmpty(lines)[k] && rs[j] == Ok(cs[k]);
          } else {
            assert lines[n] == NonEmpty(lines)[k] && rs[n] == Ok(cs[k]);
          }
        }
      }
    }
  }

  /** A failed collection reports the first non-empty line that failed. */
  lemma {:induction false} CollectFirstError(lines: seq<string>, rs: seq<Result<bv16, CompileError>>)
    requires |rs| == |lines| && Collect(lines, rs).Err?
    ensures exists k :: (0 <= k < |lines| && lines[k] != [] &&
      rs[k] == Err(Collect(lines, rs).error) &&
      forall j :: 0 <= j < k && lines[j] != [] ==> rs[j].Ok?)
    decreases |lines|
  {
    var n := |lines| - 1;
    var front, rfront := lines[..n], rs[..n];
    assert forall j :: 0 <= j < n ==> front[j] == lines[j] && rfront[j] == rs[j];
    if Collect(front, rfront).Err? {
      CollectFirstError(front, rfront);
      var k :| 0 <= k < n && front[k] != [] && rfront[k] == Err(Collect(front, rfront).error) &&
        forall j :: 0 <= j < k && front[j] != [] ==> rfront[j].Ok?;
      assert rs[k] == Err(Collect(lines, rs).error);
    } else {
      CollectMeaning(front, rfront);
      assert lines[n] != [] && rs[n] == Err(Collect(lines, rs).error);
    }
  }

  /** Once the lines before `n` fail, the whole collection fails the same way. */
  lemma {:induction false} CollectErrPersists(lines: seq<string>, rs: seq<Result<bv16, CompileError>>, n: nat)
    requires |rs| == |lines| && n <= |lines| && Collect(lines[..n], rs[..n]).Err?
    ensures Collect(lines, rs) == Collect(lines[..n], rs[..n])
    decreases |lines|
  {
    if n < |lines| {
      var m := |lines| - 1;
      assert lines[..m][..n] == lines[..n] && rs[..m][..n] == rs[..n];
      CollectErrPersists(lines[..m], rs[..m], n);
    } else {
      assert lines[..n] == lines && rs[..n] == rs;
    }
  }

  /** One more line: the collection of the longer prefix from that of the shorter one. */
  lemma CollectStep(lines: seq<string>, rs: seq<Result<bv16, CompileError>>, j: nat, cs: seq<bv16>)
    requires |rs| == |lines| && j < |lines| && Collect(lines[..j], rs[..j]) == Ok(cs)
    ensures lines[j] == [] ==> Collect(lines[..j + 1], rs[..j + 1]) == Ok(cs)
    ensures lines[j] != [] && rs[j].Err? ==> Collect(lines, rs) == Err(rs[j].error)
    ensures lines[j] != [] && rs[j].Ok? ==> Collect(lines[..j + 1], rs[..j + 1]) == Ok(cs + [rs[j].value])
  {
    assert lines[..j + 1][..j] == lines[..j] && rs[..j + 1][..j] == rs[..j];
    if lines[j] != [] && rs[j].Err? {
      CollectErrPersists(lines, rs, j + 1);
    }
  }

  /** Parsing succeeds exactly when every non-empty line has a colour; then every
      non-empty line contributes exactly one colour, its own, in file order. */
  lemma ColorsFromLines(id: string, lines: seq<string>)
    ensures ParseColors(id, lines).Ok? <==>
      forall k :: 0 <= k < |lines| && lines[k] != [] ==> LineColor(id, lines[k]).Ok?
    ensures ParseColors(id, lines).Ok? ==>
      var cs := ParseColors(id, lines).value;
      |cs| == |NonEmpty(lines)| &&
      forall k :: 0 <= k < |cs| ==> LineColor(id, NonEmpty(lines)[k]) == Ok(cs[k])
  {
    var rs := LineResults(id, lines);
    CollectMeaning(lines, rs);
    forall k | 0 <= k < |lines| ensures rs[k] == LineColor(id, lines[k]) {
      LineResultsAt(id, lines, k);
    }
    if ParseColors(id, lines).Ok? {
      var cs := ParseColors(id, lines).value;
      forall k | 0 <= k < |cs| ensures LineColor(id, NonEmpty(lines)[k]) == Ok(cs[k]) {
        var j :| 0 <= j < |lines| && lines[j] == NonEmpty(lines)[k] && rs[j] == Ok(cs[k]);
      }
    }
  }

  /** A failed parse reports the first non-empty line that has no colour, and names the palette. */
  lemma ColorsFirstError(id: string, lines: seq<string>)
    requires ParseColors(id, lines).Err?
    ensures NamesPalette(ParseColors(id, lines).error, id)
    ensures exists k :: (0 <= k < |lines| && lines[k] != [] &&
      LineColor(id, lines[k]) == Err(ParseColors(id, lines).error) &&
      forall j :: 0 <= j < k && lines[j] != [] ==> LineColor(id, lines[j]).Ok?)
  {
    var rs := LineResults(id, lines);
    CollectFirstError(lines, rs);
    var k :| 0 <= k < |lines| && lines[k] != [] && rs[k] == Err(Collect(lines, rs).error) &&
      forall j :: 0 <= j < k && lines[j] != [] ==> rs[j].Ok?;
    forall j | 0 <= j <= k ensures rs[j] == LineColor(id, lines[j]) {
      LineResultsAt(id, lines, j);
    }
    assert LineColor(id, lines[k]) == Err(ParseColors(id, lines).error);
  }

  /** The first three lines are ignored whatever they hold: the data lines are the lines of the rest. */
  lemma HeaderLinesIgnored(h0: string, h1: string, h2: string, rest: string)
    requires '\n' !in h0 && '\n' !in h1 && '\n' !in h2
    ensures BodyLines(h0 + "\n" + (h1 + "\n" + (h2 + "\n" + rest))) == Split(rest, '\n')
  {
    var s2 := h2 + "\n" + rest;
    var s1 := h1 + "\n" + s2;
    var content := h0 + "\n" + s1;
    var pieces := Split(rest, '\n');
    SplitLeadingPiece(h2, rest, '\n');
    SplitLeadingPiece(h1, s2, '\n');
    SplitLeadingPiece(h0, s1, '\n');
    var all := [h0] + ([h1] + ([h2] + pieces));
    assert Split(content, '\n') == all;
    assert all[3..] == pieces;
  }

  /** A file with no data lines (only blank lines after the header) yields no colours, not an error. */
  lemma BlankBodyHasNoColors(id: string, lines: seq<string>)
    requires forall k :: 0 <= k < |lines| ==> lines[k] == []
    ensures ParseColors(id, lines) == Ok([])
  {
    CollectMeaning(lines, LineResults(id, lines));
    assert NonEmpty(lines) == [] by {
      NonEmptyOfBlank(lines);
    }
  }

  lemma {:induction false} NonEmptyOfBlank(lines: seq<string>)
    requires forall k :: 0 <= k < |lines| ==> lines[k] == []
    ensures NonEmpty(lines) == []
    decreases |lines|
  {
    if lines != [] {
      NonEmptyOfBlank(lines[..|lines| - 1]);
    }
  }

  // ---------------------------------------------------------------------------
  // Generated C text
  // ---------------------------------------------------------------------------

  /** Written once to each text stream before any palette. */
  const SectionBanner: string := "\n// ---- palettes ----\n"

  function DataOpen(id: string): string
  {
    "const unsigned short DATA_" + id + "[] = { "
  }

  /** `0x<lower-case hex, no leading zeros>, ` */
  function ColorLiteral(c: bv16): string
  {
    "0x" + Hex(c as int) + ", "
  }

  function ColorLiterals(cs: seq<bv16>): string
    decreases |cs|
  {
    if cs == [] then [] else ColorLiterals(cs[..|cs| - 1]) + ColorLiteral(cs[|cs| - 1])
  }

  const DataClose: string := " };\n"

  function ExternDecl(id: string): string
  {
    "extern struct PaletteResource RES_" + id + ";\n"
  }

  function Descriptor(id: string, size: nat): string
  {
    "struct PaletteResource RES_" + id + " = { .data = &DATA_" + id + ", .size = " + Decimal(size) + " };\n"
  }

  /** Everything one palette adds to the source stream. The size is in bytes, two per colour. */
  function PaletteSource(id: string, cs: seq<bv16>): string
  {
    DataOpen(id) + ColorLiterals(cs) + DataClose + Descriptor(id, 2 * |cs|)
  }

  /** A palette without colours is an empty array (two spaces between the braces) of size 0. */
  lemma EmptyPaletteSource(id: string)
    ensures PaletteSource(id, []) ==
      "const unsigned short DATA_" + id + "[] = {  };\n" +
      "struct PaletteResource RES_" + id + " = { .data = &DATA_" + id + ", .size = 0 };\n"
  {
    assert Decimal(0) == "0";
  }

  /** Each colour literal reads back as the colour it was written from. */
  lemma ColorLiteralReadsBack(c: bv16)
    ensures |ColorLiteral(c)| >= 5
    ensures var lit := ColorLiteral(c);
      lit[..2] == "0x" && lit[|lit| - 2..] == ", " &&
      AllDigits(lit[2..|lit| - 2], 16) && NumeralValue(lit[2..|lit| - 2], 16) == c as int
  {
    var lit := ColorLiteral(c);
    assert lit[2..|lit| - 2] == Hex(c as int);
    NumeralRoundTrip(c as int, 16);
  }

  // ---------------------------------------------------------------------------
  // The palette stage as a function of the manifest and the asset files
  // ---------------------------------------------------------------------------

  /** The colours of one palette; `assets` maps each readable asset path to its text. */
  function PaletteColors(def: PaletteDef, assets: map<string, string>): Result<seq<bv16>, CompileError>
  {
    if def.path !in assets then Err(AssetUnreadable(def.path))
    else ParseColors(def.id, BodyLines(assets[def.path]))
  }

  /** The outcome of every palette of the manifest, in manifest order. */
  function PaletteResults(defs: seq<PaletteDef>, assets: map<string, string>): (rs: seq<Result<seq<bv16>, CompileError>>)
    ensures |rs| == |defs|
    decreases |defs|
  {
    if defs == [] then []
    else PaletteResults(defs[..|defs| - 1], assets) + [PaletteColors(defs[|defs| - 1], assets)]
  }

  lemma {:induction false} PaletteResultsAt(defs: seq<PaletteDef>, assets: map<string, string>, k: nat)
    requires k < |defs|
    ensures PaletteResults(defs, assets)[k] == PaletteColors(defs[k], assets)
    decreases |defs|
  {
    var n := |defs| - 1;
    if k < n {
      PaletteResultsAt(defs[..n], assets, k);
    }
  }

  /** The header and source text of the palettes, given each palette's outcome
      `rs`; the first palette that failed decides the error. */
  function Assemble(defs: seq<PaletteDef>, rs: seq<Result<seq<bv16>, CompileError>>): Result<(string, string), CompileError>
    requires |rs| == |defs|
    decreases |defs|
  {
    if defs == [] then Ok(([], []))
    else match Assemble(defs[..|defs| - 1], rs[..|defs| - 1])
      case Err(e) => Err(e)
      case Ok(text) =>
        var id := defs[|defs| - 1].id;
        match rs[|defs| - 1]
        case Err(e) => Err(e)
        case Ok(cs) => Ok((text.0 + ExternDecl(id), text.1 + PaletteSource(id, cs)))
  }

  /** The header and source text the palettes add after the section banners, or the first error. */
  function CompilePalettes(defs: seq<PaletteDef>, assets: map<string, string>): Result<(string, string), CompileError>
  {
    Assemble(defs, PaletteResults(defs, assets))
  }

  /** The `extern` declarations of the given palettes, one per palette, in manifest order. */
  function ExternDecls(defs: seq<PaletteDef>): string
    decreases |defs|
  {
    if defs == [] then [] else ExternDecls(defs[..|defs| - 1]) + ExternDecl(defs[|defs| - 1].id)
  }

  lemma {:induction false} AssembleOk(defs: seq<PaletteDef>, rs: seq<Result<seq<bv16>, CompileError>>)
    requires |rs| == |defs|
    ensures Assemble(defs, rs).Ok? <==> forall k :: 0 <= k < |rs| ==> rs[k].Ok?
    ensures Assemble(defs, rs).Ok? ==> Assemble(defs, rs).value.0 == ExternDecls(defs)
    decreases |defs|
  {
    if defs != [] {
      var n := |defs| - 1;
      AssembleOk(defs[..n], rs[..n]);
      assert forall k :: 0 <= k < n ==> rs[..n][k] == rs[k];
    }
  }

  lemma {:induction false} AssembleFirstError(defs: seq<PaletteDef>, rs: seq<Result<seq<bv16>, CompileError>>)
    requires |rs| == |defs| && Assemble(defs, rs).Err?
    ensures exists k :: (0 <= k < |rs| && rs[k] == Err(Assemble(defs, rs).error) &&
      forall j :: 0 <= j < k ==> rs[j].Ok?)
    decreases |defs|
  {
    var n := |defs| - 1;
    var front, rfront := defs[..n], rs[..n];
    assert forall j :: 0 <= j < n ==> rfront[j] == rs[j];
    if Assemble(front, rfront).Err? {
      AssembleFirstError(front, rfront);
      var k :| 0 <= k < n && rfront[k] == Err(Assemble(front, rfront).error) &&
        forall j :: 0 <= j < k ==> rfront[j].Ok?;
      assert rs[k] == Err(Assemble(defs, rs).error);
    } else {
      AssembleOk(front, rfront);
      assert rs[n] == Err(Assemble(defs, rs).error);
    }
  }

  lemma {:induction false} AssembleErrPersists(defs: seq<PaletteDef>, rs: seq<Result<seq<bv16>, CompileError>>, n: nat)
    requires |rs| == |defs| && n <= |defs| && Assemble(defs[..n], rs[..n]).Err?
    ensures Assemble(defs, rs) == Assemble(defs[..n], rs[..n])
    decreases |defs|
  {
    if n < |defs| {
      var m := |defs| - 1;
      assert defs[..m][..n] == defs[..n] && rs[..m][..n] == rs[..n];
      AssembleErrPersists(defs[..m], rs[..m], n);
    } else {
      assert defs[..n] == defs && rs[..n] == rs;
    }
  }

  /** One more palette: the text of the longer prefix, from that of the shorter one. */
  lemma AssembleStep(defs: seq<PaletteDef>, rs: seq<Result<seq<bv16>, CompileError>>, i: nat, h: string, s: string)
    requires |rs| == |defs| && i < |defs| && Assemble(defs[..i], rs[..i]) == Ok((h, s))
    ensures rs[i].Err? ==> Assemble(defs, rs) == Err(rs[i].error)
    ensures rs[i].Ok? ==>
      Assemble(defs[..i + 1], rs[..i + 1]) == Ok((h + ExternDecl(defs[i].id), s + PaletteSource(defs[i].id, rs[i].value)))
  {
    assert defs[..i + 1][..i] == defs[..i] && rs[..i + 1][..i] == rs[..i];
    if rs[i].Err? {
      AssembleErrPersists(defs, rs, i + 1);
    }
  }

  /** The palette stage succeeds exactly when every palette has colours. */
  lemma CompilePalettesOk(defs: seq<PaletteDef>, assets: map<string, string>)
    ensures CompilePalettes(defs, assets).Ok? <==>
      forall k :: 0 <= k < |defs| ==> PaletteColors(defs[k], assets).Ok?
  {
    var rs := PaletteResults(defs, assets);
    AssembleOk(defs, rs);
    forall k | 0 <= k < |defs| ensures rs[k] == PaletteColors(defs[k], assets) {
      PaletteResultsAt(defs, assets, k);
    }
  }

  /** On success the header holds one declaration per palette, in manifest order,
      whatever the asset files contain. */
  lemma CompilePalettesHeader(defs: seq<PaletteDef>, assets: map<string, string>)
    requires CompilePalettes(defs, assets).Ok?
    ensures CompilePalettes(defs, assets).value.0 == ExternDecls(defs)
  {
    AssembleOk(defs, PaletteResults(defs, assets));
  }

  /** A failing stage reports the first palette that fails, with that palette's error. */
  lemma CompilePalettesFirstError(defs: seq<PaletteDef>, assets: map<string, string>)
    requires CompilePalettes(defs, assets).Err?
    ensures exists k :: (0 <= k < |defs| &&
      PaletteColors(defs[k], assets) == Err(CompilePalettes(defs, assets).error) &&
      forall j :: 0 <= j < k ==> PaletteColors(defs[j], assets).Ok?)
  {
    var rs := PaletteResults(defs, assets);
    AssembleFirstError(defs, rs);
    var k :| 0 <= k < |rs| && rs[k] == Err(Assemble(defs, rs).error) && forall j :: 0 <= j < k ==> rs[j].Ok?;
    forall j | 0 <= j <= k ensures rs[j] == PaletteColors(defs[j], assets) {
      PaletteResultsAt(defs, assets, j);
    }
    assert PaletteColors(defs[k], assets) == Err(CompilePalettes(defs, assets).error);
  }

  /** No palettes: the stage adds no text. */
  lemma CompilePalettesEmpty(assets: map<string, string>)
    ensures CompilePalettes([], assets) == Ok(([], []))
  {
    assert PaletteResults([], assets) == [];
  }

  /** One more palette at the end: the stage's text grows by that palette's text. */
  lemma CompilePalettesSnoc(defs: seq<PaletteDef>, d: PaletteDef, assets: map<string, string>)
    ensures CompilePalettes(defs + [d], assets) ==
      match CompilePalettes(defs, assets)
      case Err(e) => Err(e)
      case Ok(t) =>
        match PaletteColors(d, assets)
        case Err(e) => Err(e)
        case Ok(cs) => Ok((t.0 + ExternDecl(d.id), t.1 + PaletteSource(d.id, cs)))
  {
    var zs := defs + [d];
    var rs := PaletteResults(zs, assets);
    assert zs[..|defs|] == defs && zs[|defs|] == d;
    assert rs == PaletteResults(defs, assets) + [PaletteColors(d, assets)];
    assert rs[..|defs|] == PaletteResults(defs, assets);
  }

  /** A single palette compiles to its own declaration and its own array and descriptor. */
  lemma CompilePalettesSingle(d: PaletteDef, assets: map<string, string>)
    ensures CompilePalettes([d], assets) ==
      match PaletteColors(d, assets)
      case Err(e) => Err(e)
      case Ok(cs) => Ok((ExternDecl(d.id), PaletteSource(d.id, cs)))
  {
    CompilePalettesSnoc([], d, assets);
    CompilePalettesEmpty(assets);
    assert [] + [d] == [d];
    if PaletteColors(d, assets).Ok? {
      var e, s: string := ExternDecl(d.id), PaletteSource(d.id, PaletteColors(d, assets).value);
      assert [] + e == e && [] + s == s;
    }
  }

  /** Compiling two lists of palettes one after the other compiles their
      concatenation: it succeeds exactly when both halves do, both texts are
      concatenated, and a failure in the first half decides the error. */
  lemma {:induction false} CompilePalettesAppend(xs: seq<PaletteDef>, ys: seq<PaletteDef>, assets: map<string, string>)
    ensures CompilePalettes(xs + ys, assets).Ok? <==>
      CompilePalettes(xs, assets).Ok? && CompilePalettes(ys, assets).Ok?
    ensures CompilePalettes(xs + ys, assets).Ok? ==>
      var t, u := CompilePalettes(xs, assets).value, CompilePalettes(ys, assets).value;
      CompilePalettes(xs + ys, assets).value == (t.0 + u.0, t.1 + u.1)
    ensures CompilePalettes(xs, assets).Err? ==> CompilePalettes(xs + ys, assets) == CompilePalettes(xs, assets)
    decreases |ys|
  {
    if ys == [] {
      assert xs + ys == xs;
      CompilePalettesEmpty(assets);
      if CompilePalettes(xs, assets).Ok? {
        var t := CompilePalettes(xs, assets).value;
        assert t.0 + [] == t.0 && t.1 + [] == t.1;
      }
    } else {
      var n := |ys| - 1;
      var y, ys' := ys[n], ys[..n];
      LastSplit(ys);
      AppendAssoc3(xs, ys', [y]);
      CompilePalettesAppend(xs, ys', assets);
      CompilePalettesSnoc(xs + ys', y, assets);
      CompilePalettesSnoc(ys', y, assets);
      if CompilePalettes(xs, assets).Ok? && CompilePalettes(ys', assets).Ok? && PaletteColors(y, assets).Ok? {
        var t, u := CompilePalettes(xs, assets).value, CompilePalettes(ys', assets).value;
        var cs := PaletteColors(y, assets).value;
        AppendAssoc3(t.0, u.0, ExternDecl(y.id));
        AppendAssoc3(t.1, u.1, PaletteSource(y.id, cs));
      }
    }
  }

  /** The source text of palettes that all compile: each palette's array and
      descriptor, built from its own asset's colours, in manifest order. */
  function PaletteSources(defs: seq<PaletteDef>, assets: map<string, string>): string
    requires forall k :: 0 <= k < |defs| ==> PaletteColors(defs[k], assets).Ok?
    decreases |defs|
  {
    if defs == [] then []
    else
      var d := defs[|defs| - 1];
      PaletteSources(defs[..|defs| - 1], assets) + PaletteSource(d.id, PaletteColors(d, assets).value)
  }

  /** When every palette compiles, the stage's text is one declaration per
      palette in the header and each palette's own array and descriptor in the
      source, both in manifest order. */
  lemma {:induction false} CompilePalettesSource(defs: seq<PaletteDef>, assets: map<string, string>)
    requires forall k :: 0 <= k < |defs| ==> PaletteColors(defs[k], assets).Ok?
    ensures CompilePalettes(defs, assets) == Ok((ExternDecls(defs), PaletteSources(defs, assets)))
    decreases |defs|
  {
    if defs == [] {
      CompilePalettesEmpty(assets);
    } else {
      var m := |defs| - 1;
      var front, d := defs[..m], defs[m];
      LastSplit(defs);
      CompilePalettesSource(front, assets);
      CompilePalettesSnoc(front, d, assets);
    }
  }

  /** The descriptor of a compiled palette records twice the number of its non-empty data lines. */
  lemma DescriptorSize(def: PaletteDef, assets: map<string, string>)
    requires PaletteColors(def, assets).Ok?
    ensures var cs := PaletteColors(def, assets).value;
      PaletteSource(def.id, cs) == DataOpen(def.id) + ColorLiterals(cs) + DataClose +
        Descriptor(def.id, 2 * |NonEmpty(BodyLines(assets[def.path]))|)
  {
    ColorsFromLines(def.id, BodyLines(assets[def.path]));
  }

  // ---------------------------------------------------------------------------
  // The stage itself
  // ---------------------------------------------------------------------------

  /** Appending a colour appends its literal. */
  lemma ColorLiteralsSnoc(cs: seq<bv16>, c: bv16)
    ensures ColorLiterals(cs + [c]) == ColorLiterals(cs) + ColorLiteral(c)
  {
    assert (cs + [c])[..|cs|] == cs;
  }

  lemma SourceAppend(s0: string, id: string, cs: seq<bv16>, text: string)
    requires text == s0 + DataOpen(id) + ColorLiterals(cs) + DataClose + Descriptor(id, 2 * |cs|)
    ensures text == s0 + PaletteSource(id, cs)
  {
    AppendAssoc(s0, DataOpen(id), ColorLiterals(cs), DataClose, Descriptor(id, 2 * |cs|));
  }

  /** The inner loop of the stage: writes one literal per non-empty data line to
      the source stream as the lines are parsed, and counts them. It stops at the
      first line that has no colour. */
  method EmitColors(id: string, lines: seq<string>, source: TextStream) returns (r: Result<nat, CompileError>)
    modifies source
    ensures var spec := ParseColors(id, lines);
      && (r.Ok? <==> spec.Ok?)
      && (spec.Ok? ==>
            r.value == |spec.value| && source.text == old(source.text) + ColorLiterals(spec.value))
      && (spec.Err? ==> r == Err(spec.error) && old(source.text) <= source.text)
  {
    ghost var rs := LineResults(id, lines);
    ghost var cs: seq<bv16> := [];
    var colorAmount := 0;
    var j := 0;
    while j < |lines|
      invariant 0 <= j <= |lines|
      invariant Collect(lines[..j], rs[..j]) == Ok(cs)
      invariant colorAmount == |cs|
      invariant source.text == old(source.text) + ColorLiterals(cs)
    {
      var line := lines[j];
      CollectStep(lines, rs, j, cs);
      if line == [] {
        j := j + 1;
        continue;
      }
      var parsed := LineColor(id, line);
      LineResultsAt(id, lines, j);
      if parsed.Err? {
        return Err(parsed.error);
      }
      var color := parsed.value;
      source.WriteAll(ColorLiteral(color));
      ColorLiteralsSnoc(cs, color);
      AppendAssoc3(old(source.text), ColorLiterals(cs), ColorLiteral(color));
      cs := cs + [color];
      colorAmount := colorAmount + 1;
      j := j + 1;
    }
    assert lines[..j] == lines && rs[..j] == rs;
    return Ok(colorAmount);
  }

  /** The body of the stage's loop for one palette: reads its asset, writes the
      array and its colours to the source stream as they are parsed, then the
      `extern` declaration to the header and the descriptor to the source. */
  method CompileItem(item: PaletteDef, assets: map<string, string>, header: TextStream, source: TextStream)
    returns (r: Outcome<CompileError>)
    requires header != source
    modifies header, source
    ensures var spec := PaletteColors(item, assets);
      && (r.Pass? <==> spec.Ok?)
      && (spec.Ok? ==>
            header.text == old(header.text) + ExternDecl(item.id) &&
            source.text == old(source.text) + PaletteSource(item.id, spec.value))
      && (spec.Err? ==>
            r == Fail(spec.error) && header.text == old(header.text) && old(source.text) <= source.text)
  {
    if item.path !in assets {
      return Fail(AssetUnreadable(item.path));
    }
    var content := assets[item.path];
    var lines := BodyLines(content);
    ghost var s0 := source.text;

    source.WriteAll(DataOpen(item.id));
    var parsed := EmitColors(item.id, lines, source);
    if parsed.Err? {
      return Fail(parsed.error);
    }
    var colorAmount := parsed.value;
    ghost var cs := ParseColors(item.id, lines).value;

    ghost var sBody := source.text;
    source.WriteAll(DataClose);
    header.WriteAll(ExternDecl(item.id));
    source.WriteAll(Descriptor(item.id, colorAmount * 2));
    assert source.text == sBody + DataClose + Descriptor(item.id, 2 * |cs|);
    SourceAppend(s0, item.id, cs, source.text);
    return Pass;
  }

  /** Runs the palette stage over the shared output streams. On success both text
      streams received the section banner and then exactly the text
      `CompilePalettes` describes; on failure the error is the one
      `CompilePalettes` reports and the streams hold whatever was written before
      it. The binary container is never touched. */
  method Compile(config: ResConfig, assets: map<string, string>,
                 data: ByteStream, header: TextStream, source: TextStream)
    returns (r: Outcome<CompileError>)
    requires header != source
    modifies header, source
    ensures unchanged(data)
    ensures var spec := CompilePalettes(config.palettes, assets);
      && (r.Pass? <==> spec.Ok?)
      && (spec.Ok? ==>
            header.text == old(header.text) + SectionBanner + spec.value.0 &&
            source.text == old(source.text) + SectionBanner + spec.value.1)
      && (spec.Err? ==>
            r == Fail(spec.error) &&
            old(header.text) + SectionBanner <= header.text &&
            old(source.text) + SectionBanner <= source.text)
  {
    header.WriteAll(SectionBanner);
    source.WriteAll(SectionBanner);
    ghost var h0, s0 := header.text, source.text;

    var defs := config.palettes;
    ghost var rs := PaletteResults(defs, assets);
    ghost var hs, ss := [], [];
    var i := 0;
    while i < |defs|
      invariant 0 <= i <= |defs|
      invariant Assemble(defs[..i], rs[..i]) == Ok((hs, ss))
      invariant header.text == h0 + hs && source.text == s0 + ss
    {
      var item := defs[i];
      AssembleStep(defs, rs, i, hs, ss);
      PaletteResultsAt(defs, assets, i);
      ghost var sPrev := source.text;
      r := CompileItem(item, assets, header, source);
      if r.Fail? {
        assert s0 <= sPrev <= source.text;
        return;
      }
      AppendAssoc3(h0, hs, ExternDecl(item.id));
      AppendAssoc3(s0, ss, PaletteSource(item.id, rs[i].value));
      hs, ss := hs + ExternDecl(item.id), ss + PaletteSource(item.id, rs[i].value);
      i := i + 1;
    }
    assert defs[..i] == defs && rs[..i] == rs;
    return Pass;
  }
}
