/**
 * FontRenderer: a bitmap font. The glyphs of the characters 32..256 and of
 * an "unknown" character are drawn into the cells of a square texture; a
 * character is rendered from the region of its cell and advanced by its
 * measured width plus the spacing, scaled from pixels to the requested size.
 */
module Fonts {
  import opened Wrappers
  import opened Grid

  const FIRST_CHAR := 32
  const LAST_CHAR := 256
  /** The characters FIRST_CHAR..LAST_CHAR and one slot for the unknown character. */
  const CHARACTER_COUNT := LAST_CHAR - FIRST_CHAR + 1 + 1
  const UNKNOWN_CHAR_INDEX := CHARACTER_COUNT - 1

  const DEFAULT_SIZE := 32
  const DEFAULT_SPACING := 1
  const DEFAULT_MAX_CHAR_CAPACITY := 200
  const DEFAULT_X_PADDING := 1
  const DEFAULT_Y_PADDING := 1

  datatype HorizontalAlignment = Left | Center | Right
  datatype VerticalAlignment = Top | Center | Bottom

  /** The exceptions of the builder's setters and of loading the font. */
  datatype FontError =
    | NonPositiveSize
    | NegativeSpacing
    | CapacityBelowTen
    | NegativeXPadding
    | NegativeYPadding
    | DivisionByZero   // every cell would be 0 pixels wide and high
    | NoTextureSize    // no texture up to 8192 holds the glyphs, and no size was kept from an earlier load

  /** Everything a builder hands to a new FontRenderer (the typeface is not modelled). */
  datatype Settings = Settings(
    size: int, spacing: int, maxCharCapacity: int, xPadding: int, yPadding: int,
    horizontal: HorizontalAlignment, vertical: VerticalAlignment)

  /** The settings the setters let through. */
  predicate ValidSettings(s: Settings) {
    s.size > 0 && s.spacing >= 0 && s.maxCharCapacity >= 10 && s.xPadding >= 0 && s.yPadding >= 0
  }

  const DEFAULTS := Settings(DEFAULT_SIZE, DEFAULT_SPACING, DEFAULT_MAX_CHAR_CAPACITY,
                             DEFAULT_X_PADDING, DEFAULT_Y_PADDING, Left, VerticalAlignment.Center)

  class Builder {
    var size: int
    var spacing: int
    var maxCharCapacity: int
    var xPadding: int
    var yPadding: int
    var horizontalAlignment: HorizontalAlignment
    var verticalAlignment: VerticalAlignment

    /** The settings as they stand. */
    function Current(): Settings
      reads this
    {
      Settings(size, spacing, maxCharCapacity, xPadding, yPadding, horizontalAlignment, verticalAlignment)
    }

    constructor ()
      ensures Current() == DEFAULTS && ValidSettings(Current())
    {
      size, spacing, maxCharCapacity := DEFAULT_SIZE, DEFAULT_SPACING, DEFAULT_MAX_CHAR_CAPACITY;
      xPadding, yPadding := DEFAULT_X_PADDING, DEFAULT_Y_PADDING;
      horizontalAlignment, verticalAlignment := Left, VerticalAlignment.Center;
    }

    /** reset: back to the defaults. */
    method Reset()
      modifies this
      ensures Current() == DEFAULTS && ValidSettings(Current())
    {
      size, spacing, maxCharCapacity := DEFAULT_SIZE, DEFAULT_SPACING, DEFAULT_MAX_CHAR_CAPACITY;
      xPadding, yPadding := DEFAULT_X_PADDING, DEFAULT_Y_PADDING;
      horizontalAlignment, verticalAlignment := Left, VerticalAlignment.Center;
    }

    /** setSize: refuses a size <= 0, otherwise changes the size only. */
    method SetSize(size: int) returns (r: Result<(), FontError>)
      modifies this
      ensures size <= 0 ==> r == Err(NonPositiveSize) && Current() == old(Current())
      ensures size > 0 ==> r.Ok? && Current() == old(Current()).(size := size)
      ensures ValidSettings(old(Current())) ==> ValidSettings(Current())
    {
      if size <= 0 {
        return Err(NonPositiveSize);
      }
      this.size := size;
      return Ok(());
    }

    /** setSpacing: refuses a negative spacing, otherwise changes the spacing only. */
    method SetSpacing(spacing: int) returns (r: Result<(), FontError>)
      modifies this
      ensures spacing < 0 ==> r == Err(NegativeSpacing) && Current() == old(Current())
      ensures spacing >= 0 ==> r.Ok? && Current() == old(Current()).(spacing := spacing)
      ensures ValidSettings(old(Current())) ==> ValidSettings(Current())
    {
      if spacing < 0 {
        return Err(NegativeSpacing);
      }
      this.spacing := spacing;
      return Ok(());
    }

    /** setMaxCharCapacity: refuses a capacity below 10, otherwise changes the capacity only. */
    method SetMaxCharCapacity(maxCharCapacity: int) returns (r: Result<(), FontError>)
      modifies this
      ensures maxCharCapacity < 10 ==> r == Err(CapacityBelowTen) && Current() == old(Current())
      ensures maxCharCapacity >= 10 ==> r.Ok? && Current() == old(Current()).(maxCharCapacity := maxCharCapacity)
      ensures ValidSettings(old(Current())) ==> ValidSettings(Current())
    {
      if maxCharCapacity < 10 {
        return Err(CapacityBelowTen);
      }
      this.maxCharCapacity := maxCharCapacity;
      return Ok(());
    }

    /** setXPadding: refuses a negative padding, otherwise changes the x padding only. */
    method SetXPadding(xPadding: int) returns (r: Result<(), FontError>)
      modifies this
      ensures xPadding < 0 ==> r == Err(NegativeXPadding) && Current() == old(Current())
      ensures xPadding >= 0 ==> r.Ok? && Current() == old(Current()).(xPadding := xPadding)
      ensures ValidSettings(old(Current())) ==> ValidSettings(Current())
    {
      if xPadding < 0 {
        return Err(NegativeXPadding);
      }
      this.xPadding := xPadding;
      return Ok(());
    }

    /** setYPadding: refuses a negative padding, otherwise changes the y padding only. */
    method SetYPadding(yPadding: int) returns (r: Result<(), FontError>)
      modifies this
      ensures yPadding < 0 ==> r == Err(NegativeYPadding) && Current() == old(Current())
      ensures yPadding >= 0 ==> r.Ok? && Current() == old(Current()).(yPadding := yPadding)
      ensures ValidSettings(old(Current())) ==> ValidSettings(Current())
    {
      if yPadding < 0 {
        return Err(NegativeYPadding);
      }
      this.yPadding := yPadding;
      return Ok(());
    }

    method SetHorizontalAlignment(alignment: HorizontalAlignment)
      modifies this
      ensures Current() == old(Current()).(horizontal := alignment)
    {
      horizontalAlignment := alignment;
    }

    method SetVerticalAlignment(alignment: VerticalAlignment)
      modifies this
      ensures Current() == old(Current()).(vertical := alignment)
    {
      verticalAlignment := alignment;
    }

    /**
     * build: a new FontRenderer with the current settings, loaded from the
     * glyph widths and font metrics the typeface gives.
     */
    method Build(widths: seq<real>, fontTop: real, fontBottom: real) returns (font: FontRenderer, r: Result<(), FontError>)
      requires ValidSettings(Current()) && |widths| == CHARACTER_COUNT
      ensures fresh(font) && font.Valid() && font.Current() == Current()
      ensures font.charWidths[..] == widths
      ensures font.charRegionWidth == Ceil(MaxWidth(widths))
      ensures font.charRegionHeight == Ceil(Ceil(Abs(fontBottom) + Abs(fontTop)) as real)
      ensures font.cellWidth == font.charRegionWidth + 2 * font.xPadding
      ensures font.cellHeight == font.charRegionHeight + 2 * font.yPadding
      ensures font.CellSize() == 0 ==> r == Err(DivisionByZero)
      ensures font.CellSize() >= 1 ==> (r.Ok? <==> SizeFor(font.CellSize(), CHARACTER_COUNT) <= MAX_TEXTURE_SIZE)
      ensures font.CellSize() >= 1 && r.Err? ==> r == Err(NoTextureSize)
      ensures r.Ok? ==> font.Loaded() && font.textureSize == SizeFor(font.CellSize(), CHARACTER_COUNT)
    {
      font := new FontRenderer(Current());
      r := font.Load(widths, fontTop, fontBottom);
    }
  }

  /** A Java char: one UTF-16 code unit. */
  newtype JavaChar = c: int | 0 <= c < 0x1_0000

  /**
   * A Java String as charAt walks it: a sequence of UTF-16 code units, in
   * which a character beyond U+FFFF is a pair of surrogate code units.
   */
  type JavaString = seq<JavaChar>

  /** getArrayLocation: the slot of a character, the unknown slot outside 32..256. */
  function GetArrayLocation(c: JavaChar): (loc: nat)
    ensures loc < CHARACTER_COUNT
    ensures loc == UNKNOWN_CHAR_INDEX <==> !(FIRST_CHAR <= c as int <= LAST_CHAR)
  {
    if c as int < FIRST_CHAR || c as int > LAST_CHAR then UNKNOWN_CHAR_INDEX else c as int - FIRST_CHAR
  }

  /** Slot k (below the unknown slot) belongs to character 32 + k, the one whose width the font measured into it. */
  lemma ArrayLocationInverse(k: nat)
    requires k < UNKNOWN_CHAR_INDEX
    ensures GetArrayLocation((FIRST_CHAR + k) as JavaChar) == k
  {
  }

  /** Distinct known characters have distinct slots. */
  lemma ArrayLocationInjective(c: JavaChar, d: JavaChar)
    requires GetArrayLocation(c) == GetArrayLocation(d) != UNKNOWN_CHAR_INDEX
    ensures c == d
  {
    assert c as int == d as int;
  }

  /** Math.ceil on a non-negative real, as an integer. */
  function Ceil(x: real): (n: int)
    ensures n as real - 1.0 < x <= n as real
  {
    -((-x).Floor)
  }

  function Abs(x: real): real {
    if x < 0.0 then -x else x
  }

  /** The largest of the widths, 0 when none is positive. */
  function MaxWidth(ws: seq<real>): (m: real)
    ensures m >= 0.0
    ensures forall i :: 0 <= i < |ws| ==> ws[i] <= m
    ensures m == 0.0 || exists i :: 0 <= i < |ws| && ws[i] == m
  {
    if ws == [] then 0.0
    else
      var front := MaxWidth(ws[..|ws| - 1]);
      assert forall i :: 0 <= i < |ws| - 1 ==> ws[..|ws| - 1][i] == ws[i];
      if ws[|ws| - 1] > front then ws[|ws| - 1] else front
  }

  /** The sum of the measured widths of the characters of s. */
  function GlyphWidths(ws: seq<real>, s: JavaString): real
    requires |ws| == CHARACTER_COUNT
  {
    if s == [] then 0.0 else GlyphWidths(ws, s[..|s| - 1]) + ws[GetArrayLocation(s[|s| - 1])]
  }

  lemma {:induction false} GlyphWidthsConcat(ws: seq<real>, a: JavaString, b: JavaString)
    requires |ws| == CHARACTER_COUNT
    ensures GlyphWidths(ws, a + b) == GlyphWidths(ws, a) + GlyphWidths(ws, b)
    decreases |b|
  {
    if b != [] {
      var k := |b| - 1;
      GlyphWidthsConcat(ws, a, b[..k]);
      assert (a + b)[..|a + b| - 1] == a + b[..k];
      assert (a + b)[|a + b| - 1] == b[k];
      assert GlyphWidths(ws, a + b) == GlyphWidths(ws, a + b[..k]) + ws[GetArrayLocation(b[k])];
      assert GlyphWidths(ws, b) == GlyphWidths(ws, b[..k]) + ws[GetArrayLocation(b[k])];
    } else {
      assert a + b == a;
    }
  }

  /** The width of s rendered at pixel scale k: each glyph's width, with the spacing between neighbours. */
  function RenderedWidth(ws: seq<real>, spacing: real, k: real, s: JavaString): real
    requires |ws| == CHARACTER_COUNT
  {
    k * UnscaledWidth(ws, spacing, s)
  }

  /** The width of s before scaling: the glyph widths and one spacing between each pair of neighbours. */
  function UnscaledWidth(ws: seq<real>, spacing: real, s: JavaString): real
    requires |ws| == CHARACTER_COUNT
  {
    GlyphWidths(ws, s) + Gaps(|s|, spacing)
  }

  /** The spacing between n characters: n - 1 gaps (a negative one for the empty string). */
  function Gaps(n: int, spacing: real): real {
    (n - 1) as real * spacing
  }

  /** Rendering a + b takes the widths of a and b and one more spacing between them. */
  lemma RenderedWidthConcat(ws: seq<real>, spacing: real, k: real, a: JavaString, b: JavaString)
    requires |ws| == CHARACTER_COUNT
    ensures RenderedWidth(ws, spacing, k, a + b) ==
      RenderedWidth(ws, spacing, k, a) + RenderedWidth(ws, spacing, k, b) + k * spacing
  {
    UnscaledWidthConcat(ws, spacing, a, b);
    ScaledSum(k, UnscaledWidth(ws, spacing, a + b), UnscaledWidth(ws, spacing, a), UnscaledWidth(ws, spacing, b), spacing);
  }

  lemma UnscaledWidthConcat(ws: seq<real>, spacing: real, a: JavaString, b: JavaString)
    requires |ws| == CHARACTER_COUNT
    ensures UnscaledWidth(ws, spacing, a + b) == UnscaledWidth(ws, spacing, a) + UnscaledWidth(ws, spacing, b) + spacing
  {
    GlyphWidthsConcat(ws, a, b);
    GapsSum(|a + b|, |a|, |b|, spacing);
  }

  /** The empty string is one spacing short of nothing. */
  lemma RenderedWidthEmpty(ws: seq<real>, spacing: real, k: real)
    requires |ws| == CHARACTER_COUNT
    ensures RenderedWidth(ws, spacing, k, []) + k * spacing == 0.0
  {
    ScaledNegation(k, UnscaledWidth(ws, spacing, []), spacing);
  }

  /** One more character adds its glyph width and one spacing, scaled. */
  lemma RenderedWidthSnoc(ws: seq<real>, spacing: real, k: real, s: JavaString, i: nat)
    requires |ws| == CHARACTER_COUNT && i < |s|
    ensures RenderedWidth(ws, spacing, k, s[..i + 1]) ==
      RenderedWidth(ws, spacing, k, s[..i]) + (ws[GetArrayLocation(s[i])] + spacing) * k
  {
    var c := [s[i]];
    assert s[..i + 1] == s[..i] + c;
    RenderedWidthConcat(ws, spacing, k, s[..i], c);
    assert c[..0] == [] && GlyphWidths(ws, c[..0]) == 0.0;
    NoGaps(|c|, spacing);
    assert UnscaledWidth(ws, spacing, c) == ws[GetArrayLocation(s[i])];
    ScaledPair(k, UnscaledWidth(ws, spacing, c), ws[GetArrayLocation(s[i])], spacing);
  }

  /**
   * A character beyond U+FFFF reaches renderedStringWidth as two surrogate
   * code units, both outside 32..256: it is measured as two unknown glyphs
   * with a spacing between them.
   */
  lemma SurrogatePairWidth(ws: seq<real>, spacing: real, hi: JavaChar, lo: JavaChar)
    requires |ws| == CHARACTER_COUNT && 0xD800 <= hi < 0xDC00 && 0xDC00 <= lo < 0xE000
    ensures UnscaledWidth(ws, spacing, [hi, lo]) == 2.0 * ws[UNKNOWN_CHAR_INDEX] + spacing
  {
    var single: JavaString := [hi];
    var pair: JavaString := [hi, lo];
    assert single[..0] == [];
    assert GlyphWidths(ws, single) == ws[GetArrayLocation(hi)];
    assert pair[..1] == single && pair[1] == lo;
    assert GlyphWidths(ws, pair) == GlyphWidths(ws, single) + ws[GetArrayLocation(lo)];
  }

  lemma NoGaps(n: int, spacing: real)
    requires n == 1
    ensures Gaps(n, spacing) == 0.0
  { }

  lemma ScaledNegation(k: real, u: real, spacing: real)
    requires u == -spacing
    ensures k * u + k * spacing == 0.0
  { }

  lemma ScaledPair(k: real, u: real, w: real, spacing: real)
    requires u == w
    ensures k * u + k * spacing == (w + spacing) * k
  { }

  lemma GapsSum(n: int, p: int, q: int, spacing: real)
    requires n == p + q
    ensures Gaps(n, spacing) == Gaps(p, spacing) + Gaps(q, spacing) + spacing
  { }

  lemma ScaledSum(k: real, total: real, x: real, y: real, z: real)
    requires total == x + y + z
    ensures k * total == k * x + k * y + k * z
  { }

  /** A region of the bitmap font: top-left corner and size, in pixels. */
  datatype CharRegion = CharRegion(x: int, y: int, width: int, height: int)

  /**
   * In a texture that fits CHARACTER_COUNT square cells of side
   * max(cellWidth, cellHeight), every cell of the cellWidth-by-cellHeight
   * layout lies inside the texture.
   */
  lemma FontCellInside(cellWidth: nat, cellHeight: nat, textureSize: nat, i: nat)
    requires cellWidth >= 1 && i < CHARACTER_COUNT
    requires Fits(textureSize, MaxSide(cellWidth, cellHeight), CHARACTER_COUNT)
    ensures 0 <= CellX(i, cellWidth, textureSize) && CellX(i, cellWidth, textureSize) + cellWidth <= textureSize
    ensures 0 <= CellY(i, cellWidth, cellHeight, textureSize) && CellY(i, cellWidth, cellHeight, textureSize) + cellHeight <= textureSize
  {
    FontGrid(cellWidth, MaxSide(cellWidth, cellHeight), textureSize);
    CellInside(i, cellWidth, cellHeight, textureSize, Across(textureSize, MaxSide(cellWidth, cellHeight)));
    BelowRows(CellY(i, cellWidth, cellHeight, textureSize), cellHeight,
      Across(textureSize, MaxSide(cellWidth, cellHeight)), MaxSide(cellWidth, cellHeight), textureSize);
  }

  /** The larger side of a cell. */
  function MaxSide(w: nat, h: nat): (s: nat)
    ensures w <= s && h <= s
  {
    if w > h then w else h
  }

  /** A cell that ends within `rows` rows of height h ends within the texture when rows of the larger side cs fit. */
  lemma BelowRows(y: int, h: nat, rows: nat, cs: nat, t: int)
    requires y + h <= h * rows && h <= cs && rows * cs <= t
    ensures y + h <= t
  {
    MulMono(rows, h, cs);
  }

  /** With at least CHARACTER_COUNT cells of the larger side cellSize in Across rows, the grid of cellWidth-wide cells holds them all within those rows, and the rows fit in the texture. */
  lemma FontGrid(cellWidth: nat, cellSize: nat, textureSize: nat)
    requires 1 <= cellWidth <= cellSize && Fits(textureSize, cellSize, CHARACTER_COUNT)
    ensures textureSize / cellWidth >= 1
    ensures Columns(cellWidth, textureSize) * Across(textureSize, cellSize) >= CHARACTER_COUNT
    ensures Across(textureSize, cellSize) * cellSize <= textureSize
  {
    var rows := Across(textureSize, cellSize);
    DivAntiMono(textureSize, cellWidth, cellSize);
    MulMono(rows, rows, Columns(cellWidth, textureSize));
  }

  class FontRenderer {
    const size: int
    const spacing: int
    const maxCharCapacity: int
    const xPadding: int
    const yPadding: int
    var horizontalAlignment: HorizontalAlignment
    var verticalAlignment: VerticalAlignment

    /** The measured width of every slot's character, in pixels. */
    const charWidths: array<real>
    /** The texture region of every slot. */
    const charRegions: array<CharRegion>

    var charRegionWidth: nat
    var charRegionHeight: nat
    var cellWidth: nat
    var cellHeight: nat
    /** The side of the font texture; 0 until a size has been found. */
    var textureSize: nat

    ghost predicate Valid()
      reads this
    {
      ValidSettings(Settings(size, spacing, maxCharCapacity, xPadding, yPadding, horizontalAlignment, verticalAlignment)) &&
      charWidths.Length == CHARACTER_COUNT && charRegions.Length == CHARACTER_COUNT &&
      (textureSize == 0 || MIN_TEXTURE_SIZE <= textureSize <= MAX_TEXTURE_SIZE)
    }

    function Current(): Settings
      reads this
    {
      Settings(size, spacing, maxCharCapacity, xPadding, yPadding, horizontalAlignment, verticalAlignment)
    }

    /** The side of the square cell the texture size is chosen for. */
    function CellSize(): nat
      reads this
    {
      MaxSide(cellWidth, cellHeight)
    }

    /** The region of slot i: its cell's corner moved in by the padding, and the glyph size. */
    function RegionOf(i: nat): CharRegion
      reads this
    {
      CharRegion(CellX(i, cellWidth, textureSize) + xPadding, CellY(i, cellWidth, cellHeight, textureSize) + yPadding,
                 charRegionWidth, charRegionHeight)
    }

    /**
     * After a load that raised nothing: a texture size is set and every slot
     * has the region of its cell in that texture.
     */
    ghost predicate Loaded()
      reads this, charRegions
    {
      Valid() && CellSize() >= 1 && MIN_TEXTURE_SIZE <= textureSize &&
      forall i :: 0 <= i < CHARACTER_COUNT ==> charRegions[i] == RegionOf(i)
    }

    /** The construction of the fields; the load the source runs next is the separate Load. */
    constructor (settings: Settings)
      requires ValidSettings(settings)
      ensures Valid() && Current() == settings && textureSize == 0
      ensures fresh(charWidths) && fresh(charRegions)
    {
      size, spacing, maxCharCapacity := settings.size, settings.spacing, settings.maxCharCapacity;
      xPadding, yPadding := settings.xPadding, settings.yPadding;
      horizontalAlignment, verticalAlignment := settings.horizontal, settings.vertical;
      charWidths := new real[CHARACTER_COUNT](_ => 0.0);
      charRegions := new CharRegion[CHARACTER_COUNT](_ => CharRegion(0, 0, 0, 0));
      charRegionWidth, charRegionHeight, cellWidth, cellHeight, textureSize := 0, 0, 0, 0, 0;
    }

    /**
     * load (and reload): measure the glyphs, size the cells and the texture,
     * then lay out the regions. An exception from the sizing stops it before
     * the regions are laid out; a reload whose cells fit no texture up to
     * 8192 keeps the size of the earlier load and lays the regions out in it.
     */
    method Load(widths: seq<real>, fontTop: real, fontBottom: real) returns (r: Result<(), FontError>)
      requires Valid() && |widths| == CHARACTER_COUNT
      modifies this`charRegionWidth, this`charRegionHeight, this`cellWidth, this`cellHeight, this`textureSize
      modifies charWidths, charRegions
      ensures Valid() && charWidths[..] == widths
      ensures charRegionWidth == Ceil(MaxWidth(widths))
      ensures charRegionHeight == Ceil(Ceil(Abs(fontBottom) + Abs(fontTop)) as real)
      ensures cellWidth == charRegionWidth + 2 * xPadding && cellHeight == charRegionHeight + 2 * yPadding
      ensures CellSize() == 0 ==> r == Err(DivisionByZero) && textureSize == old(textureSize)
      ensures CellSize() >= 1 && SizeFor(CellSize(), CHARACTER_COUNT) <= MAX_TEXTURE_SIZE ==>
        r.Ok? && textureSize == SizeFor(CellSize(), CHARACTER_COUNT)
      ensures CellSize() >= 1 && SizeFor(CellSize(), CHARACTER_COUNT) > MAX_TEXTURE_SIZE ==>
        textureSize == old(textureSize) && (r.Ok? <==> old(textureSize) >= MIN_TEXTURE_SIZE)
      ensures CellSize() >= 1 && r.Err? ==> r == Err(NoTextureSize)
      ensures r.Ok? ==> Loaded()
      ensures r.Err? ==> charRegions[..] == old(charRegions[..])
    {
      GetCharacterWidths(widths);
      r := CalculateVariousSizes(fontTop, fontBottom);
      if r.Err? {
        return;
      }
      GetTextureRegions();
    }

    /** getCharacterWidths: slot k gets the width of character 32 + k, the last slot that of the unknown character. */
    method GetCharacterWidths(widths: seq<real>)
      requires Valid() && |widths| == CHARACTER_COUNT
      modifies charWidths
      ensures charWidths[..] == widths
    {
      var i := 0;
      while i < CHARACTER_COUNT
        invariant 0 <= i <= CHARACTER_COUNT
        invariant charWidths[..i] == widths[..i]
      {
        charWidths[i] := widths[i];
        i := i + 1;
      }
    }

    /**
     * calculateVariousSizes: the glyph region is the largest glyph width by
     * the font's height, both rounded up; the cell adds the padding on both
     * sides; the texture is the first power of two in [128, 8192] whose grid
     * of square cells of the larger cell side holds every slot. When none
     * does, the size already there is kept, and only a size never found is
     * an exception.
     */
    method CalculateVariousSizes(fontTop: real, fontBottom: real) returns (r: Result<(), FontError>)
      requires Valid()
      modifies this`charRegionWidth, this`charRegionHeight, this`cellWidth, this`cellHeight, this`textureSize
      ensures Valid()
      ensures charRegionWidth == Ceil(MaxWidth(charWidths[..]))
      ensures charRegionHeight == Ceil(Ceil(Abs(fontBottom) + Abs(fontTop)) as real)
      ensures cellWidth == charRegionWidth + 2 * xPadding && cellHeight == charRegionHeight + 2 * yPadding
      ensures CellSize() == 0 ==> r == Err(DivisionByZero) && textureSize == old(textureSize)
      ensures CellSize() >= 1 && SizeFor(CellSize(), CHARACTER_COUNT) <= MAX_TEXTURE_SIZE ==>
        r.Ok? && textureSize == SizeFor(CellSize(), CHARACTER_COUNT)
      ensures CellSize() >= 1 && SizeFor(CellSize(), CHARACTER_COUNT) > MAX_TEXTURE_SIZE ==>
        textureSize == old(textureSize) && (r.Ok? <==> old(textureSize) >= MIN_TEXTURE_SIZE)
      ensures CellSize() >= 1 && r.Err? ==> r == Err(NoTextureSize)
      ensures r.Ok? ==> CellSize() >= 1 && MIN_TEXTURE_SIZE <= textureSize
    {
      var maxFontWidth := 0.0;
      var i := 0;
      while i < charWidths.Length
        invariant 0 <= i <= charWidths.Length
        invariant maxFontWidth == MaxWidth(charWidths[..i])
      {
        assert charWidths[..i + 1][..i] == charWidths[..i];
        if charWidths[i] > maxFontWidth {
          maxFontWidth := charWidths[i];
        }
        i := i + 1;
      }
      assert charWidths[..i] == charWidths[..];
      charRegionWidth := Ceil(maxFontWidth);
      cellWidth := charRegionWidth + 2 * xPadding;

      var maxFontHeight := Ceil(Abs(fontBottom) + Abs(fontTop)) as real;
      charRegionHeight := Ceil(maxFontHeight);
      cellHeight := charRegionHeight + 2 * yPadding;

      var cellSize := if cellWidth > cellHeight then cellWidth else cellHeight;
      if cellSize == 0 {
        return Err(DivisionByZero);
      }
      r := SearchTextureSize(cellSize);
    }

    /** The texture-size loop of calculateVariousSizes and the guard after it. */
    method SearchTextureSize(cellSize: nat) returns (r: Result<(), FontError>)
      requires Valid() && cellSize >= 1
      modifies this`textureSize
      ensures Valid()
      ensures SizeFor(cellSize, CHARACTER_COUNT) <= MAX_TEXTURE_SIZE ==>
        r.Ok? && textureSize == SizeFor(cellSize, CHARACTER_COUNT)
      ensures SizeFor(cellSize, CHARACTER_COUNT) > MAX_TEXTURE_SIZE ==>
        textureSize == old(textureSize) && (r.Ok? <==> old(textureSize) >= MIN_TEXTURE_SIZE)
      ensures r.Ok? <==> MIN_TEXTURE_SIZE <= textureSize
      ensures r.Err? ==> r == Err(NoTextureSize)
    {
      var size := MIN_TEXTURE_SIZE;
      ghost var k: nat := 0;
      ghost var found := false;
      while size <= MAX_TEXTURE_SIZE
        invariant size == Candidate(k)
        invariant FirstFit(0, cellSize, CHARACTER_COUNT) >= k
        invariant textureSize == old(textureSize)
        decreases MAX_TEXTURE_SIZE - size
      {
        FirstFitStep(k, cellSize, CHARACTER_COUNT);
        var cellsPerRowOrCol := size / cellSize;
        if cellsPerRowOrCol * cellsPerRowOrCol >= CHARACTER_COUNT {
          textureSize := size;
          found := true;
          break;
        }
        size := size * 2;
        k := k + 1;
      }
      if !found {
        CandidateMono(k, FirstFit(0, cellSize, CHARACTER_COUNT));
      }
      if textureSize < MIN_TEXTURE_SIZE {
        return Err(NoTextureSize);
      }
      return Ok(());
    }

    /**
     * getTextureRegions: slot i gets the region of cell i of a grid of
     * cellWidth-by-cellHeight cells, moved in by the padding.
     */
    method GetTextureRegions()
      requires Valid()
      modifies charRegions
      ensures forall i :: 0 <= i < CHARACTER_COUNT ==> charRegions[i] == RegionOf(i)
    {
      var x, y := 0, 0;
      var arrayLocation := 0;
      while arrayLocation < CHARACTER_COUNT
        invariant 0 <= arrayLocation <= CHARACTER_COUNT
        invariant x == CellX(arrayLocation, cellWidth, textureSize) && y == CellY(arrayLocation, cellWidth, cellHeight, textureSize)
        invariant forall i :: 0 <= i < arrayLocation ==> charRegions[i] == RegionOf(i)
      {
        charRegions[arrayLocation] := CharRegion(x + xPadding, y + yPadding, charRegionWidth, charRegionHeight);
        AdvanceCell(arrayLocation, cellWidth, cellHeight, textureSize);
        x := x + cellWidth;
        if x + cellWidth > textureSize {
          x := 0;
          y := y + cellHeight;
        }
        arrayLocation := arrayLocation + 1;
      }
    }

    /**
     * renderedStringWidth: the width of the string drawn at the given size,
     * each glyph's width and a spacing per character, less the spacing after
     * the last one.
     */
    method RenderedStringWidth(s: JavaString, size: real) returns (stringWidth: real)
      requires Valid() && charRegionHeight >= 1
      ensures stringWidth == RenderedWidth(charWidths[..], spacing as real, size / charRegionHeight as real, s)
    {
      var pixelToInternal := size / charRegionHeight as real;
      ghost var ws := charWidths[..];
      stringWidth := 0.0;
      var i := 0;
      assert s[..i] == [];
      RenderedWidthEmpty(ws, spacing as real, pixelToInternal);
      while i < |s|
        invariant 0 <= i <= |s|
        invariant stringWidth == RenderedWidth(ws, spacing as real, pixelToInternal, s[..i]) + pixelToInternal * spacing as real
      {
        RenderedWidthSnoc(ws, spacing as real, pixelToInternal, s, i);
        stringWidth := stringWidth + (charWidths[GetArrayLocation(s[i])] + spacing as real) * pixelToInternal;
        i := i + 1;
      }
      assert s[..i] == s;
      stringWidth := stringWidth - spacing as real * pixelToInternal;
    }
  }

  /** The regions of a font loaded into the least texture that fits lie inside it and do not overlap. */
  lemma LoadedRegionsFit(font: FontRenderer, i: nat, j: nat)
    requires font.Loaded() && font.textureSize == SizeFor(font.CellSize(), CHARACTER_COUNT)
    requires font.cellWidth >= 1 && i < CHARACTER_COUNT && j < CHARACTER_COUNT
    ensures 0 <= font.charRegions[i].x - font.xPadding &&
            font.charRegions[i].x - font.xPadding + font.cellWidth <= font.textureSize
    ensures 0 <= font.charRegions[i].y - font.yPadding &&
            font.charRegions[i].y - font.yPadding + font.cellHeight <= font.textureSize
    ensures i != j ==>
      font.charRegions[i].x - font.charRegions[j].x >= font.cellWidth ||
      font.charRegions[j].x - font.charRegions[i].x >= font.cellWidth ||
      font.charRegions[i].y - font.charRegions[j].y >= font.cellHeight ||
      font.charRegions[j].y - font.charRegions[i].y >= font.cellHeight
  {
    SizeForLeast(font.CellSize(), CHARACTER_COUNT, 0);
    FontCellInside(font.cellWidth, font.cellHeight, font.textureSize, i);
    if i != j {
      CellsApart(i, j, font.cellWidth, font.cellHeight, font.textureSize);
    }
  }
}
