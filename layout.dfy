/**
 The draw pass: a pen starting at (100, 100) walks the records left to right,
 emits one textured quad per record and moves right by the glyph's width plus
 a fixed gap of 4. The immediate-mode GL calls become a returned list of quads.
 */
module TextLayout {
  import opened Glyphs

  const PenStartX: int := 100
  const PenStartY: int := 100
  /** Horizontal gap added after every glyph. */
  const GlyphGap: int := 4

  /** One textured quad with corners (x, y) and (x + width, y + height). */
  datatype Quad = Quad(texture: nat, x: int, y: int, width: int, height: int)

  /** Total pen advance over `glyphs`: the sum of width + gap. */
  function Advance(glyphs: seq<Glyph>): int
    decreases |glyphs|
  {
    if glyphs == [] then 0
    else Advance(glyphs[..|glyphs| - 1]) + glyphs[|glyphs| - 1].width + GlyphGap
  }

  /** Pen x before drawing record `k`: 100 + sum over j < k of (width_j + 4). */
  function PenX(glyphs: seq<Glyph>, k: nat): int
    requires k <= |glyphs|
  {
    PenStartX + Advance(glyphs[..k])
  }

  /** The texture id the cache subscript reads for `c`; a missing key reads as
      the value-initialised id 0. */
  function TextureFor(textures: map<Byte, nat>, c: Byte): nat
  {
    if c in textures then textures[c] else 0
  }

  /** The quad drawn for record k, against a given cache. */
  function QuadAt(textures: map<Byte, nat>, glyphs: seq<Glyph>, k: nat): Quad
    requires k < |glyphs|
  {
    Quad(TextureFor(textures, CacheKey(glyphs[k])), PenX(glyphs, k), PenStartY, glyphs[k].width, glyphs[k].height)
  }

  /** The whole draw list: one quad per record, in record order. */
  function Layout(textures: map<Byte, nat>, glyphs: seq<Glyph>): (quads: seq<Quad>)
    ensures |quads| == |glyphs|
  {
    seq(|glyphs|, k requires 0 <= k < |glyphs| => QuadAt(textures, glyphs, k))
  }

  /** Adding one record moves the pen by that record's width plus the gap. */
  lemma AdvanceStep(glyphs: seq<Glyph>, k: nat)
    requires k < |glyphs|
    ensures Advance(glyphs[..k + 1]) == Advance(glyphs[..k]) + glyphs[k].width + GlyphGap
  {
    assert glyphs[..k + 1][..k] == glyphs[..k];
  }

  /** The loop of the draw pass: walks the records with pen (x, y). */
  method EmitQuads(textures: map<Byte, nat>, glyphs: seq<Glyph>) returns (quads: seq<Quad>)
    ensures quads == Layout(textures, glyphs)
  {
    var x := PenStartX;
    var y := PenStartY;
    quads := [];
    for i := 0 to |glyphs|
      invariant |quads| == i
      invariant x == PenX(glyphs, i) && y == PenStartY
      invariant forall k :: 0 <= k < i ==> quads[k] == QuadAt(textures, glyphs, k)
    {
      var textureId := TextureFor(textures, CacheKey(glyphs[i]));
      var width := glyphs[i].width;
      var height := glyphs[i].height;
      quads := quads + [Quad(textureId, x, y, width, height)];
      AdvanceStep(glyphs, i);
      x := x + width + GlyphGap;
    }
  }

  /** Consecutive quads: the pen moves right by exactly width + 4 and y stays at 100. */
  lemma LayoutPenStep(textures: map<Byte, nat>, glyphs: seq<Glyph>, k: nat)
    requires k + 1 < |glyphs|
    ensures Layout(textures, glyphs)[k + 1].x == Layout(textures, glyphs)[k].x + glyphs[k].width + GlyphGap
    ensures Layout(textures, glyphs)[k + 1].y == Layout(textures, glyphs)[k].y == PenStartY
  {
    AdvanceStep(glyphs, k);
  }

  /** Every quad spans the record's own width and height from the pen position, whatever
      its size (zero-size glyphs included), and sits on the row y = 100. */
  lemma LayoutQuadShape(textures: map<Byte, nat>, glyphs: seq<Glyph>, k: nat)
    requires k < |glyphs|
    ensures Layout(textures, glyphs)[k].x == PenStartX + Advance(glyphs[..k])
    ensures Layout(textures, glyphs)[k].y == PenStartY
    ensures Layout(textures, glyphs)[k].width == glyphs[k].width
    ensures Layout(textures, glyphs)[k].height == glyphs[k].height
  {
  }

  /** With non-negative widths, the pen advances by at least 4 per record. */
  lemma {:induction false} AdvanceGrows(glyphs: seq<Glyph>, j: nat, k: nat)
    requires j <= k <= |glyphs|
    requires forall i :: 0 <= i < |glyphs| ==> glyphs[i].width >= 0
    ensures Advance(glyphs[..k]) >= Advance(glyphs[..j]) + GlyphGap * (k - j)
    decreases k - j
  {
    if j < k {
      AdvanceGrows(glyphs, j, k - 1);
      AdvanceStep(glyphs, k - 1);
    }
  }

  /** With non-negative widths the quads' x values are strictly increasing. */
  lemma LayoutXIncreasing(textures: map<Byte, nat>, glyphs: seq<Glyph>, j: nat, k: nat)
    requires j < k < |glyphs|
    requires forall i :: 0 <= i < |glyphs| ==> glyphs[i].width >= 0
    ensures Layout(textures, glyphs)[j].x < Layout(textures, glyphs)[k].x
  {
    AdvanceGrows(glyphs, j, k);
  }

  /** The pen depends on widths only. */
  lemma {:induction false} AdvanceOnlyWidths(glyphs: seq<Glyph>, others: seq<Glyph>)
    requires |glyphs| == |others|
    requires forall i :: 0 <= i < |glyphs| ==> glyphs[i].width == others[i].width
    ensures Advance(glyphs) == Advance(others)
    decreases |glyphs|
  {
    if glyphs != [] {
      var n := |glyphs| - 1;
      AdvanceOnlyWidths(glyphs[..n], others[..n]);
    }
  }

  /** The offsets the rasterizer reports play no part in the draw list: records that
      agree on key, width and height are drawn identically. */
  lemma LayoutIgnoresOffsets(textures: map<Byte, nat>, glyphs: seq<Glyph>, others: seq<Glyph>)
    requires |glyphs| == |others|
    requires forall i :: 0 <= i < |glyphs| ==>
               CacheKey(glyphs[i]) == CacheKey(others[i]) &&
               glyphs[i].width == others[i].width && glyphs[i].height == others[i].height
    ensures Layout(textures, glyphs) == Layout(textures, others)
  {
    forall k | 0 <= k < |glyphs|
      ensures Layout(textures, glyphs)[k] == Layout(textures, others)[k]
    {
      AdvanceOnlyWidths(glyphs[..k], others[..k]);
    }
  }

  /** When every record's key is cached, each quad uses the cached texture of its character. */
  lemma LayoutUsesCache(textures: map<Byte, nat>, glyphs: seq<Glyph>, k: nat)
    requires k < |glyphs|
    requires Distinct(Keys(glyphs)) <= textures.Keys
    ensures CacheKey(glyphs[k]) in textures
    ensures Layout(textures, glyphs)[k].texture == textures[CacheKey(glyphs[k])]
  {
    assert Keys(glyphs)[k] in Distinct(Keys(glyphs));
  }
}
