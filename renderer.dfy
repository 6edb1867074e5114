/**
 * The fallback illustrator: a colour per animal drawn from a generator
 * seeded by the animal's hash, two labelled blocks, a caption with the
 * species name and a punchline, and the whole SVG document shipped as a
 * `data:` URI holding the Base64 of its UTF-8 bytes.
 */
module Renderer {
  import opened Wrappers
  import opened Strings
  import opened Rng
  import Catalog
  import Utf8
  import Base64

  datatype Color = Color(r: int, g: int, b: int)

  /** The ranges `palette_for_animal` draws each channel from. */
  predicate InPalette(c: Color) {
    70 <= c.r <= 230 && 60 <= c.g <= 210 && 80 <= c.b <= 240
  }

  /** Python's per-process string hash, left abstract. */
  type Hash = string -> int

  /** `hash(animal) & 0xFFFFFFFF`: the low 32 bits of the two's-complement
      hash, which is the hash modulo 2^32 also for a negative hash. */
  function SeedFor(hash: Hash, animal: string): (s: nat)
    ensures s < 0x1_0000_0000
    ensures 0 <= hash(animal) < 0x1_0000_0000 ==> s == hash(animal)
  {
    hash(animal) % 0x1_0000_0000
  }

  /** `palette_for_animal(animal)`: reseed the shared generator from the
      animal's hash, then draw red, green and blue. */
  function PaletteFor(src: Source, hash: Hash, st: State, animal: string): (r: (Color, State))
    ensures InPalette(r.0)
    ensures r.1 == State(SeedFor(hash, animal), [161, 151, 161])
  {
    var (red, s1) := RandInt(src, Seed(SeedFor(hash, animal)), 70, 230);
    var (green, s2) := RandInt(src, s1, 60, 210);
    var (blue, s3) := RandInt(src, s2, 80, 240);
    (Color(red, green, blue), s3)
  }

  /** An animal always gets the same colour, whatever was drawn before. */
  lemma PaletteIsDeterministic(src: Source, hash: Hash, st1: State, st2: State, animal: string)
    ensures PaletteFor(src, hash, st1, animal) == PaletteFor(src, hash, st2, animal)
  {
  }

  /** Two animals whose hashes agree modulo 2^32 share a colour. */
  lemma SameSeedSameColor(src: Source, hash: Hash, st: State, a: string, b: string)
    requires hash(a) % 0x1_0000_0000 == hash(b) % 0x1_0000_0000
    ensures PaletteFor(src, hash, st, a).0 == PaletteFor(src, hash, st, b).0
  {
  }

  /** The static runs of the f-strings that make a picture, between their
      interpolations: the two SVG templates and the schemes of the two data
      URIs. They only style and label the picture, so the templates take
      them as a parameter; `SourceMarkup` is the text app.py uses. */
  datatype Markup = Markup(
    blockOpen: string,         // the block's group, up to its horizontal offset
    blockRect: string,         // up to the rectangle's width
    blockFill: string,         // up to the red channel of its fill
    blockStroke: string,       // after the blue channel, up to the label's centre
    blockLabelStyle: string,   // up to the label itself
    blockDonorAt: string,      // up to the caption's centre
    blockDonorStyle: string,   // the "DNA donor" caption and the end of the block
    docOpen: string,           // the root element, up to its width
    docHeight: string,         // up to its height
    docViewBox: string,        // up to the view box
    docLabel: string,          // up to the first animal in the accessible label
    docLabelAnd: string,       // between the two animals in the label
    docLeftStop: string,       // up to the red channel of the first gradient stop
    docRightStop: string,      // up to the red channel of the second stop
    docBlocks: string,         // up to the two blocks
    docSpecies: string,        // up to the species name
    docFlavor: string,         // up to the punchline
    docClose: string,          // after the punchline
    svgUri: string,            // the scheme of an SVG data URI, before its payload
    pngUri: string)            // the scheme of a PNG data URI, before its payload

  /** The text app.py writes around the interpolations. */
  function SourceMarkup(): Markup {
    Markup(
      "\n    <g transform=\"translate(",
      ",0)\">\n      <rect x=\"0\" y=\"0\" width=\"",
      "\" height=\"220\" rx=\"22\" fill=\"rgba(",
      ",0.82)\" stroke=\"rgba(10,10,16,0.4)\" stroke-width=\"6\"/>\n      <text x=\"",
      "\" y=\"120\" font-size=\"52\" fill=\"#f8fafc\" font-weight=\"800\" text-anchor=\"middle\" font-family=\"'Inter','Segoe UI',system-ui,sans-serif\">",
      "</text>\n      <text x=\"",
      "\" y=\"160\" font-size=\"22\" fill=\"#cbd5e1\" text-anchor=\"middle\" font-family=\"'Inter','Segoe UI',system-ui,sans-serif\">DNA donor</text>\n    </g>\n    ",
      "\n    <svg xmlns=\"http://www.w3.org/2000/svg\" width=\"",
      "\" height=\"",
      "\" viewBox=\"0 0 ",
      "\" role=\"img\" aria-label=\"Mashup of ",
      " and ",
      "\">\n      <defs>\n        <linearGradient id=\"bg\" x1=\"0\" y1=\"0\" x2=\"1\" y2=\"0\">\n          <stop offset=\"0%\" stop-color=\"rgba(",
      ",0.9)\" />\n          <stop offset=\"100%\" stop-color=\"rgba(",
      ",0.9)\" />\n        </linearGradient>\n        <filter id=\"grain\"> <feTurbulence type=\"fractalNoise\" baseFrequency=\"0.8\" numOctaves=\"2\" stitchTiles=\"stitch\"/> <feColorMatrix type=\"saturate\" values=\"0.2\"/> <feComponentTransfer> <feFuncR type=\"linear\" slope=\"0.4\"/> <feFuncG type=\"linear\" slope=\"0.4\"/> <feFuncB type=\"linear\" slope=\"0.4\"/> </feComponentTransfer> <feBlend in=\"SourceGraphic\" mode=\"overlay\"/> </filter>\n      </defs>\n      <rect width=\"100%\" height=\"100%\" fill=\"url(#bg)\" />\n      <g filter=\"url(#grain)\">",
      "</g>\n      <g transform=\"translate(40,300)\">\n        <rect width=\"820\" height=\"160\" rx=\"26\" fill=\"rgba(12, 15, 35, 0.62)\" stroke=\"rgba(15,15,25,0.8)\" stroke-width=\"6\"/>\n        <text x=\"26\" y=\"70\" font-size=\"54\" fill=\"#e5e7eb\" font-weight=\"800\" font-family=\"'Inter','Segoe UI',system-ui,sans-serif\">",
      "</text>\n        <text x=\"26\" y=\"116\" font-size=\"24\" fill=\"#cbd5e1\" font-family=\"'Inter','Segoe UI',system-ui,sans-serif\">",
      "</text>\n      </g>\n    </svg>\n    ",
      "data:image/svg+xml;base64,",
      "data:image/png;base64,")
  }

  /** `{r},{g},{b}`: the three channels of a colour, comma-separated, as
      both templates write them inside `rgba(...)`. */
  function Channels(c: Color): (r: string)
    ensures var red := IntToString(c.r); |red| < |r| && r[..|red|] == red && r[|red|] == ','
  {
    IntToString(c.r) + "," + IntToString(c.g) + "," + IntToString(c.b)
  }

  /** The values `svg_block(x, width, animal, color)` interpolates, as the
      f-string prints them: the offset and the width as integers, the
      colour's channels, half the width as Python prints that float, and
      the first eight characters of the animal. */
  datatype BlockFields = BlockFields(at: string, wide: string, fill: string, centre: string, shown: string)

  function BlockValues(x: int, width: int, animal: string, color: Color): (f: BlockFields)
    ensures f.shown == Head(animal, 8) && |f.shown| <= 8 && f.shown <= animal
  {
    BlockFields(IntToString(x), IntToString(width), Channels(color), HalfToString(width), Head(animal, 8))
  }

  /** The parts of the f-string `svg_block(x, width, animal, color)`
      returns: a group moved `x` to the right, holding a rectangle `width`
      wide in the animal's colour at opacity 0.82, the label centred at half
      the width, and a "DNA donor" caption under it. */
  function BlockParts(m: Markup, f: BlockFields): (parts: seq<string>)
    ensures |parts| == 13
    ensures parts[5] == f.fill && parts[7] == f.centre && parts[9] == f.shown
  {
    [m.blockOpen, f.at, m.blockRect, f.wide, m.blockFill, f.fill, m.blockStroke, f.centre,
     m.blockLabelStyle, f.shown, m.blockDonorAt, f.centre, m.blockDonorStyle]
  }

  function SvgBlock(m: Markup, x: int, width: int, animal: string, color: Color): (r: string)
    ensures Contains(r, Head(animal, 8))
  {
    var parts := BlockParts(m, BlockValues(x, width, animal, color));
    JoinShows(parts, 9);
    Join(parts)
  }

  const CanvasWidth: int := 900
  const CanvasHeight: int := 500

  /** `{width} {height}`: the size at the end of the view box. */
  function ViewSize(width: int, height: int): (r: string)
    ensures var w := IntToString(width); |w| < |r| && r[..|w|] == w && r[|w|] == ' '
    ensures var h := IntToString(height); |h| < |r| && r[|r| - |h|..] == h
  {
    IntToString(width) + " " + IntToString(height)
  }

  /** The values `generate_svg` interpolates, as the f-string prints
      them: the canvas size, the two animals, the channels of both colours,
      the two blocks, the species name and the punchline. */
  datatype DocumentFields = DocumentFields(wide: string, high: string, size: string, a: string, b: string,
                                           leftFill: string, rightFill: string, leftBlock: string,
                                           rightBlock: string, species: string, flavor: string)

  /** The first animal's block is 300 wide at offset 40 in its colour, the
      second's at offset 560 in its own. */
  function DocumentValues(m: Markup, a: string, b: string, species: string, left: Color, right: Color,
                          flavor: string): (f: DocumentFields)
    ensures f.a == a && f.b == b && f.species == species && f.flavor == flavor
    ensures f.leftFill == Channels(left) && f.rightFill == Channels(right)
    ensures f.leftBlock == SvgBlock(m, 40, 300, a, left) && f.rightBlock == SvgBlock(m, 560, 300, b, right)
  {
    DocumentFields(IntToString(CanvasWidth), IntToString(CanvasHeight), ViewSize(CanvasWidth, CanvasHeight),
                   a, b, Channels(left), Channels(right),
                   SvgBlock(m, 40, 300, a, left), SvgBlock(m, 560, 300, b, right), species, flavor)
  }

  /** The parts of the f-string `generate_svg` fills in: a 900 by 500 root
      element labelled after both animals, a gradient from the first
      animal's colour to the second's at opacity 0.9, the two blocks, and a
      caption with the species name and the punchline. */
  function DocumentParts(m: Markup, f: DocumentFields): (parts: seq<string>)
    ensures |parts| == 22
    ensures parts[7] == f.a && parts[9] == f.b
    ensures parts[15] == f.leftBlock && parts[16] == f.rightBlock
    ensures parts[18] == f.species && parts[20] == f.flavor
  {
    [m.docOpen, f.wide, m.docHeight, f.high, m.docViewBox, f.size, m.docLabel, f.a, m.docLabelAnd, f.b,
     m.docLeftStop, f.leftFill, m.docRightStop, f.rightFill,
     m.docBlocks, f.leftBlock, f.rightBlock, m.docSpecies, f.species, m.docFlavor, f.flavor, m.docClose]
  }

  /** The document: its parts in order, so it opens with the root
      element. */
  function SvgDocument(m: Markup, a: string, b: string, species: string, left: Color, right: Color, flavor: string): (r: string)
    ensures ContainsAt(r, m.docOpen, 0)
  {
    var parts := DocumentParts(m, DocumentValues(m, a, b, species, left, right, flavor));
    JoinShows(parts, 0);
    Join(parts)
  }

  /** `f"data:image/svg+xml;base64,{b64encode(svg.encode('utf-8'))}"`: the
      scheme, then a payload that decodes to the document's UTF-8 bytes and
      has four characters for every started group of three bytes. */
  function DataUri(m: Markup, svg: string): (r: string)
    ensures |m.svgUri| <= |r| && r[..|m.svgUri|] == m.svgUri
    ensures Base64.Decode(r[|m.svgUri|..]) == Some(Utf8.Encode(svg))
    ensures |r| == |m.svgUri| + 4 * ((|Utf8.Encode(svg)| + 2) / 3)
  {
    var bytes := Utf8.Encode(svg);
    var payload := Base64.Encode(bytes);
    Base64.DecodeEncode(bytes);
    DropPrefix(m.svgUri, payload);
    var r := m.svgUri + payload;
    assert r[|m.svgUri|..] == payload && |r| == |m.svgUri| + |payload|;
    r
  }

  /** The document can be read back from its URI, so no two documents share
      one. */
  lemma DataUriRoundTrip(m: Markup, svg: string)
    ensures Utf8.Decode(Base64.Decode(DataUri(m, svg)[|m.svgUri|..]).value) == Some(svg)
  {
    Utf8.DecodeEncode(svg);
  }

  lemma DataUriInjective(m: Markup, s1: string, s2: string)
    requires DataUri(m, s1) == DataUri(m, s2)
    ensures s1 == s2
  {
    DataUriRoundTrip(m, s1);
    DataUriRoundTrip(m, s2);
  }


  /** What `generate_svg` draws: the two animals in their colours, the
      species name and the punchline. */
  datatype Drawing = Drawing(a: string, b: string, species: string, left: Color, right: Color, flavor: string)

  /** The data URI `generate_svg` returns for what it drew. */
  function SvgUri(m: Markup, d: Drawing): (r: string)
    ensures |m.svgUri| <= |r| && r[..|m.svgUri|] == m.svgUri
  {
    DataUri(m, SvgDocument(m, d.a, d.b, d.species, d.left, d.right, d.flavor))
  }

  /** The punchline `generate_svg` draws: the first draw after the colour
      of the second animal, which left the generator seeded by that animal. */
  function PunchlineFor(src: Source, hash: Hash, b: string): (k: nat)
    ensures k < |Catalog.Punchlines|
  {
    Below(src, State(SeedFor(hash, b), [161, 151, 161]), |Catalog.Punchlines|).0
  }

  /** `generate_svg(a, b, species)`, up to writing the document: the colour
      of each animal, which depends on that animal alone, and a punchline
      drawn right after the second colour, which depends on the second
      animal alone. The generator is left seeded by the second animal. */
  function GenerateSvg(src: Source, hash: Hash, st: State, a: string, b: string, species: string): (r: (Drawing, State))
    ensures r.1 == State(SeedFor(hash, b), [161, 151, 161, 10])
    ensures r.0 == Drawing(a, b, species, PaletteFor(src, hash, st, a).0, PaletteFor(src, hash, st, b).0,
                           Catalog.Punchlines[PunchlineFor(src, hash, b)])
    ensures InPalette(r.0.left) && InPalette(r.0.right)
  {
    var left := PaletteFor(src, hash, st, a);
    var right := PaletteFor(src, hash, left.1, b);
    var flavor := Choice(src, right.1, Catalog.Punchlines);
    (Drawing(a, b, species, left.0, right.0, flavor.0), flavor.1)
  }

  /** The picture depends on the animals, the name and the hash alone: what
      the generator did before does not show in it. */
  lemma GenerateSvgIgnoresHistory(src: Source, hash: Hash, st1: State, st2: State, a: string, b: string, species: string)
    ensures GenerateSvg(src, hash, st1, a, b, species) == GenerateSvg(src, hash, st2, a, b, species)
  {
  }

  /** The URI of a drawing is an SVG data URI that reads back as the
      document of the drawing. */
  lemma SvgUriReadsBack(m: Markup, d: Drawing)
    ensures |m.svgUri| <= |SvgUri(m, d)| && SvgUri(m, d)[..|m.svgUri|] == m.svgUri
    ensures Utf8.Decode(Base64.Decode(SvgUri(m, d)[|m.svgUri|..]).value) ==
            Some(SvgDocument(m, d.a, d.b, d.species, d.left, d.right, d.flavor))
  {
    DataUriRoundTrip(m, SvgDocument(m, d.a, d.b, d.species, d.left, d.right, d.flavor));
  }

  /** A block shows the first eight characters of its animal and the
      three channels of its colour, in order. */
  lemma BlockShows(m: Markup, x: int, width: int, animal: string, color: Color)
    ensures |Head(animal, 8)| <= 8 && Head(animal, 8) <= animal
    ensures Contains(SvgBlock(m, x, width, animal, color), Head(animal, 8))
    ensures Contains(SvgBlock(m, x, width, animal, color), IntToString(color.r) + "," + IntToString(color.g) + "," + IntToString(color.b))
  {
    var parts := BlockParts(m, BlockValues(x, width, animal, color));
    JoinShows(parts, 5);
  }

  /** The labels sit at the centre of 300-unit-wide blocks, written the way
      Python prints the float `300 / 2`. */
  lemma BlockCentre()
    ensures HalfToString(300) == "150.0"
  {
    assert NatToString(150) == "150" by {
      assert NatToString(1) == "1";
      assert NatToString(15) == "15";
    }
  }

  /** The document names both animals, carries the block of each, and shows
      the species name and the punchline. */
  lemma DocumentShows(m: Markup, a: string, b: string, species: string, left: Color, right: Color, flavor: string)
    ensures var doc := SvgDocument(m, a, b, species, left, right, flavor);
            Contains(doc, a) && Contains(doc, b) &&
            Contains(doc, SvgBlock(m, 40, 300, a, left)) && Contains(doc, SvgBlock(m, 560, 300, b, right)) &&
            Contains(doc, species) && Contains(doc, flavor)
  {
    var parts := DocumentParts(m, DocumentValues(m, a, b, species, left, right, flavor));
    JoinShows(parts, 7);
    JoinShows(parts, 9);
    JoinShows(parts, 15);
    JoinShows(parts, 16);
    JoinShows(parts, 18);
    JoinShows(parts, 20);
  }
}
