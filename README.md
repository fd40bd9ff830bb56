# Glyph rasterization, texture cache and text layout

A model of the text pipeline in `src/main.cpp` of a small SDL/OpenGL demo that
renders a line of text with stb_truetype. The pipeline has three parts:

- **Rasterization pass** (`renderTextToBitmap`). It walks the text left to right.
  For each character it asks the font library for a bitmap and that bitmap's
  metrics, and it appends one record `{original_character, width, height,
  x_offset, y_offset}`. Module `Glyphs` (`glyphs.dfy`) holds this part. The font
  library is the function parameter `rasterize: Byte -> Metrics`. The bitmap bytes
  are not represented.
- **Glyph texture cache** (the globals `character_texture_cache` and
  `num_misses`, and `cacheRenderedSTBTTFGlyphs`). It maps one byte to a GL
  texture id. On a miss it counts the miss, allocates a texture and stores its id.
  On a hit it does nothing. Module `TextureCache` (`texture_cache.dfy`) gives this
  part twice:
  - `Populate` is the update written as a function of the old state, with the
    lemmas about it;
  - class `GlyphTextureCache` holds the map, the miss counter and an id counter
    that stands in for `glGenTextures`, and updates them in place in a loop.
- **Draw pass** (`renderTextToScreen`). It fills the cache first. Then it starts a
  pen at (100, 100), draws one textured quad per record and moves the pen right by
  `width + 4`. The GL quad calls become a returned list of
  `Quad(texture, x, y, width, height)`, where the corners are (x, y) and
  (x + width, y + height). Module `TextLayout` (`layout.dfy`) holds this part.

Module `App` (`app.dfy`) models what the entry point does with the pipeline. It
rasterizes the banner once, fills the cache once, then renders the banner once per
frame. Module `FontFiles` (`font_file.dfy`) models the null-on-failure contract
of the font-file loader.

A C++ `char` is modelled as `Byte`, an integer in 0..255. The cache key of a
record is the first byte of its one-character string. An empty string's first
byte is the terminating NUL, so its key is 0.

A fuller text renderer would behave differently in several ways. The code does not, and neither does this model:

- The cache key is one byte. It has no font or size part.
- Zero-area glyphs still get a texture and a quad.
- The rasterizer's x/y offsets are ignored.
- There is no newline handling: y stays at 100.
- The pen advances by the bitmap width plus 4, not by the font's advance width.
- Nothing is ever evicted.

## Model

| member | source | states |
|---|---|---|
| `Glyphs.RenderTextToBitmap` | src/main.cpp:148-161 | one record per character, in order; record i has the string `[text[i]]` and exactly the width, height and offsets the rasterizer gave for `text[i]`; the records' cache keys are the text itself |
| `Glyphs.RecordFor` | src/main.cpp:154-156 | definition: the record built for one character, its one-character string `string(1, text[i])` and the width, height and offsets the rasterizer reported for it |
| `Glyphs.Rasterized` | src/main.cpp:150-158 | the closed form of the rasterization pass: one record per character of the text, record i being `RecordFor` of `text[i]`; `RenderTextToBitmap` is proved equal to it |
| `FontFiles.LoadFontFile` | src/main.cpp:25-79 | the size probe reads a file that cannot be opened as size 0, and a size of 0 gives no font; so a font is returned exactly when the file exists, is non-empty and is read successfully; then the buffer is the file's bytes and its recorded size is their number |
| `Glyphs.CacheKey` | src/main.cpp:173 | definition: the key is `original_character[0]`, the first byte of the record's string; an empty string gives its terminating NUL, 0. The same key is used at lines 188 and 223 |
| `TextLayout.Advance` | src/main.cpp:242 | definition: the total pen advance over a record list, the sum of width + 4 |
| `TextLayout.PenX` | src/main.cpp:219-242 | definition: the pen x before record k, 100 plus the advance over the first k records |
| `TextLayout.TextureFor` | src/main.cpp:223 | definition: what the cache subscript reads, the cached id or the value-initialised id 0 for a missing key |
| `TextLayout.QuadAt` | src/main.cpp:223-238 | definition: the quad drawn for record k, with the subscripted texture of its key, the pen position before it and its width and height |
| `TextLayout.Layout` | src/main.cpp:219-244 | the closed-form draw list: exactly one quad per record, and quad k has record k's subscripted texture, x = `PenX(glyphs, k)`, y = 100, and the record's width and height |
| `TextLayout.EmitQuads` | src/main.cpp:219-251 | the pen loop emits exactly the draw list `Layout`: quad k uses the subscripted texture of record k's character, sits at x = 100 + the sum over j < k of (width_j + 4) and y = 100, and has the record's width and height |
| `TextLayout.LayoutQuadShape` | src/main.cpp:219-238 | quad k has its corner (x, y) at x = 100 plus the advance over the first k records and y = 100, and spans to (x + width, y + height) with the record's own width and height, zero-size glyphs included |
| `TextLayout.AdvanceStep` | src/main.cpp:242 | each record moves the pen by its own width plus 4 |
| `TextLayout.LayoutPenStep` | src/main.cpp:219-244 | consecutive quads: the next x is the previous x plus the previous width plus 4, and y is 100 for both |
| `TextLayout.AdvanceGrows` | src/main.cpp:242 | with non-negative widths, the pen moves at least 4 per record |
| `TextLayout.LayoutXIncreasing` | src/main.cpp:219-244 | with non-negative widths, the quads' x values are strictly increasing |
| `TextLayout.AdvanceOnlyWidths` | src/main.cpp:224-242 | the pen position depends only on the records' widths |
| `TextLayout.LayoutIgnoresOffsets` | src/main.cpp:223-238 | two record lists that agree on key, width and height give the same draw list: the offsets play no part |
| `TextLayout.LayoutUsesCache` | src/main.cpp:223 | when every record's key is cached, the subscript finds the key, so it inserts nothing, and the quad uses the cached texture |
| `TextureCache.Visit` | src/main.cpp:173-190 | definition: one iteration of the cache loop; a hit changes nothing, and a miss counts, stores the next id under the key and advances the allocator |
| `TextureCache.VisitEffect` | src/main.cpp:173-195 | one visit caches its key and keeps every other entry's id; a hit leaves the whole state unchanged; a miss stores the next id and raises the miss count and the allocator by one |
| `TextureCache.Populate` | src/main.cpp:171-197 | definition: the cache loop over a key sequence, left to right, as repeated `Visit` |
| `TextureCache.PopulateKeys` | src/main.cpp:171-188 | after the pass the keys are exactly the old keys plus the key of every visited record: every record is cached and no key is removed |
| `TextureCache.PopulateKeepsEntries` | src/main.cpp:173-195 | a key that was already cached keeps its texture id (a hit does nothing) |
| `TextureCache.PopulateMisses` | src/main.cpp:173-188 | the miss count and the number of allocated ids each grow by the number of distinct visited keys that were absent; a key repeated in one pass misses once |
| `TextureCache.PopulateFreshIds` | src/main.cpp:176-188 | a newly cached key gets an id allocated during this pass, between the old and the new next id |
| `TextureCache.PopulateAllHits` | src/main.cpp:173-195 | a pass whose every key is already cached leaves the cache, the counter and the id allocator unchanged |
| `TextureCache.PopulateIdempotent` | src/main.cpp:169-198 | a second pass over the same records changes nothing and adds no misses |
| `TextureCache.PopulateConsistent` | src/main.cpp:165-188 | the pass preserves the invariant that the miss count equals the number of entries and that ids are allocated, non-zero and pairwise distinct |
| `TextureCache.CacheBound` | src/main.cpp:165-166 | keys are single bytes, so a consistent cache holds at most 256 entries and counts at most 256 misses |
| `TextureCache.PopulateRecords` | src/main.cpp:169-198 | one pass over a record list keeps the cache invariant, caches every record's key, keeps old ids, gives new keys fresh ids and counts one miss per distinct new key |
| `TextureCache.LayoutTextures` | src/main.cpp:223-226 | when drawn against a consistent cache holding every key, each quad's texture is non-zero, and two quads share a texture exactly when their characters are equal |
| `TextureCache.GlyphTextureCache.constructor` | src/main.cpp:165-166 | the cache starts empty with zero misses, and it satisfies the invariant |
| `TextureCache.GlyphTextureCache.GenTexture` | src/main.cpp:178-179 | on a cache whose ids are all below the allocator, returns a non-zero id that no entry uses (the allocator's current value) and advances the allocator by one |
| `TextureCache.GlyphTextureCache.CacheMiss` | src/main.cpp:176-188 | the miss branch: the new state is `Visit` of the old one for an absent key, and every id stays below the allocator |
| `TextureCache.GlyphTextureCache.CacheRenderedGlyphs` | src/main.cpp:169-198 | the new state is `Populate` of the old state over the records' keys; every record's key is cached; old entries keep their ids; new entries get fresh ids; misses grow by the number of distinct new keys; the invariant is kept |
| `TextureCache.GlyphTextureCache.RenderTextToScreen` | src/main.cpp:203-257 | fills the cache as above, then returns `Layout` of the records against the filled cache; every subscript finds its key, and quad k uses the texture cached for record k's character |
| `App.CacheAfter` | src/main.cpp:399 | definition: the cache the program holds after the single cache pass over the banner's records, starting from the empty cache |
| `App.FrameDrawList` | src/main.cpp:440 | definition: what each frame draws, the draw list of the banner's records against that cache |
| `App.RunTextPipeline` | src/main.cpp:397-443 | the banner's records are its rasterization; total misses equal the number of distinct characters; every frame draws the same list `FrameDrawList` |
| `App.RedrawFrames` | src/main.cpp:401-443 | on a cache that already holds every key, each frame changes no cache state and draws the same list |
| `App.CacheAfterBound` | src/main.cpp:165-166 | starting from the empty cache, with the cache pass as the only writer, the miss count equals the number of entries and is at most 256 |
| `App.FrameDrawListFacts` | src/main.cpp:219-244 | a frame draws one quad per character at the closed-form pen position, with the rasterizer's width and height and a non-zero texture; two quads share a texture exactly when they draw the same character |

## Left out

- Window, GL context, event polling, the BMP background texture and its quad: platform glue. The background's `glGenTextures` is why the glyph id allocator starts at a caller-given first id.
- All stb_truetype calls (`stbtt_InitFont`, `stbtt_GetCodepointBitmap`, `stbtt_FreeBitmap`): a foreign library, replaced by the `rasterize` parameter. As a consequence, the model does not capture that a byte of 0x80 or above reaches the rasterizer as a negative code point on platforms where `char` is signed.
- The `scale`, `ascent` and `baseline` computation: floating point. `baseline` is unused by the pipeline.
- `glTexParameteri`, `glTexImage2D`, `glBindTexture`, `glBegin`/`glEnd`, the texture coordinates and the blend and projection state: GPU side effects. They appear only as the returned quads and the allocated ids.
- Destructors and raw-pointer ownership (`~FontFile`, `~STBTTF_Font_Wrapper`, `~STBTTF_Bitmap_Wrapper`, the array wrapper), and the buffer leaked when a read fails: memory management, not behaviour.
- The debug `printf`/`cout` output and the `displayed` flag: I/O only.
- `FontFiles.LoadFontFile`: the error messages at src/main.cpp:60 and src/main.cpp:74 have a `%s` conversion but no argument, so on the empty-file and failed-read paths the source has undefined behaviour before it returns `nullptr`. The model takes `return nullptr` (`None`) as the behaviour of those paths.
- The cache-miss message at src/main.cpp:190 prints the `unsigned long` miss count with `%d`, a format mismatch. Like the other debug output, it is not modelled.
- `FontFiles.LoadFontFile`: the two separate opens of the file are folded into one file state plus one read-success flag. A file that changes between the size probe and the read is not modelled.
- `TextureCache.GlyphTextureCache.GenTexture`: a counter starting at a positive id stands in for `glGenTextures`. GL guarantees only unused non-zero names, so the model fixes one particular choice of ids.
- `TextLayout.TextureFor`: the map subscript at src/main.cpp:223 inserts a zero id for a missing key. The model returns that zero without inserting it. `RenderTextToScreen` proves the key is always present, so the insertion never happens.
- Integer widths: the pen, the widths, `num_misses` (`unsigned long`), the ids (`GLuint`) and the loop index of `renderTextToBitmap` are unbounded integers. That index is an `unsigned` compared against a `size_t` length (src/main.cpp:152). For a text of 2^32 bytes or more it wraps to 0, so the source loop never ends; the model returns one record per byte instead. The miss count and the ids cannot overflow, because there are at most 256 misses. Signed overflow of the pen would be undefined behaviour in C++ and is not modelled.
