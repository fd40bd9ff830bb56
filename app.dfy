/**
 The text part of the program's entry point: rasterize the banner once, fill
 the cache once, then redraw the banner every frame (each redraw fills the
 cache again before drawing). The number of frames stands for the event loop,
 which runs until the window is closed.
 */
module App {
  import opened Glyphs
  import opened TextLayout
  import opened TextureCache

  /** The cache the program holds once the records of `text` have passed through it. */
  function CacheAfter(text: seq<Byte>, firstFreeId: nat): CacheState
  {
    Populate(CacheState(map[], 0, firstFreeId), text)
  }

  /** The list each frame draws for `text`. */
  function FrameDrawList(rasterize: Byte -> Metrics, text: seq<Byte>, firstFreeId: nat): seq<Quad>
  {
    Layout(CacheAfter(text, firstFreeId).textures, Rasterized(rasterize, text))
  }

  method RunTextPipeline(rasterize: Byte -> Metrics, text: seq<Byte>, firstFreeId: nat, frames: nat)
    returns (glyphs: seq<Glyph>, drawn: seq<seq<Quad>>, misses: nat)
    requires 0 < firstFreeId
    ensures glyphs == Rasterized(rasterize, text)
    // one miss per distinct character, all of them on the first pass
    ensures misses == |Distinct(text)|
    // every frame draws the same list
    ensures |drawn| == frames
    ensures forall f :: 0 <= f < frames ==> drawn[f] == FrameDrawList(rasterize, text, firstFreeId)
  {
    glyphs := RenderTextToBitmap(rasterize, text);
    var cache := new GlyphTextureCache(firstFreeId);
    ghost var empty := cache.State();
    cache.CacheRenderedGlyphs(glyphs);
    PopulateIdempotent(empty, text);
    drawn := RedrawFrames(cache, glyphs, frames);
    misses := cache.misses;
    PopulateMisses(empty, text);
  }

  /** The event loop: each frame renders the records again; the cache already holds
      every key, so every frame is a pass without misses that draws the same list. */
  method RedrawFrames(cache: GlyphTextureCache, glyphs: seq<Glyph>, frames: nat) returns (drawn: seq<seq<Quad>>)
    requires cache.Valid()
    requires Populate(cache.State(), Keys(glyphs)) == cache.State()
    modifies cache
    ensures cache.Valid() && cache.State() == old(cache.State())
    ensures |drawn| == frames
    ensures forall f :: 0 <= f < frames ==> drawn[f] == Layout(cache.textures, glyphs)
  {
    drawn := [];
    for f := 0 to frames
      invariant cache.Valid() && cache.State() == old(cache.State())
      invariant |drawn| == f
      invariant forall g :: 0 <= g < f ==> drawn[g] == Layout(cache.textures, glyphs)
    {
      var quads := cache.RenderTextToScreen(glyphs);
      drawn := drawn + [quads];
    }
  }

  /** The program's cache never exceeds one entry per byte value, and holds one miss per entry. */
  lemma CacheAfterBound(text: seq<Byte>, firstFreeId: nat)
    requires 0 < firstFreeId
    ensures CacheAfter(text, firstFreeId).misses == |CacheAfter(text, firstFreeId).textures| <= 256
  {
    PopulateConsistent(CacheState(map[], 0, firstFreeId), text);
    CacheBound(CacheAfter(text, firstFreeId));
  }

  /** What a frame draws: one quad per character at the closed-form pen position with the
      rasterizer's width and height, each with an allocated texture, and two quads share a
      texture exactly when they draw the same character. */
  lemma FrameDrawListFacts(rasterize: Byte -> Metrics, text: seq<Byte>, firstFreeId: nat)
    requires 0 < firstFreeId
    ensures |FrameDrawList(rasterize, text, firstFreeId)| == |text|
    ensures forall k :: 0 <= k < |text| ==>
              var q := FrameDrawList(rasterize, text, firstFreeId)[k];
              q.x == PenX(Rasterized(rasterize, text), k) && q.y == PenStartY &&
              q.width == rasterize(text[k]).width && q.height == rasterize(text[k]).height &&
              q.texture > 0
    ensures forall j, k :: 0 <= j < |text| && 0 <= k < |text| ==>
              (FrameDrawList(rasterize, text, firstFreeId)[j].texture == FrameDrawList(rasterize, text, firstFreeId)[k].texture
               <==> text[j] == text[k])
  {
    var empty := CacheState(map[], 0, firstFreeId);
    var glyphs := Rasterized(rasterize, text);
    var populated := CacheAfter(text, firstFreeId);
    assert Keys(glyphs) == text;
    PopulateConsistent(empty, text);
    PopulateKeys(empty, text);
    LayoutTextures(populated, glyphs);
    forall k | 0 <= k < |text|
      ensures Layout(populated.textures, glyphs)[k].x == PenX(glyphs, k)
      ensures Layout(populated.textures, glyphs)[k].y == PenStartY
      ensures Layout(populated.textures, glyphs)[k].width == rasterize(text[k]).width
      ensures Layout(populated.textures, glyphs)[k].height == rasterize(text[k]).height
    {
      LayoutQuadShape(populated.textures, glyphs, k);
    }
  }
}
