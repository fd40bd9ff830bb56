/**
 The rasterization pass: a string of one-byte characters becomes one glyph
 record per character, each carrying the metrics the font rasterizer reported.
 The rasterizer itself (a foreign font library) is a function parameter; the
 coverage bitmap it produces is not represented.
 */
module Glyphs {

  /** A C++ `char`: one byte. Text and cache keys are sequences of these. */
  type Byte = b: int | 0 <= b < 256

  /** What the rasterizer reports for one character (the bitmap stays abstract). */
  datatype Metrics = Metrics(width: int, height: int, xOffset: int, yOffset: int)

  /** One rasterized character: the one-character string it came from and its metrics. */
  datatype Glyph = Glyph(originalCharacter: seq<Byte>, width: int, height: int, xOffset: int, yOffset: int)

  /** The cache key of a record: the first byte of its string. Indexing an empty
      std::string at position 0 yields the terminating NUL, hence 0. */
  function CacheKey(g: Glyph): Byte
  {
    if |g.originalCharacter| > 0 then g.originalCharacter[0] else 0
  }

  /** The cache keys of a sequence of records, in order. */
  function Keys(glyphs: seq<Glyph>): (keys: seq<Byte>)
    ensures |keys| == |glyphs|
  {
    seq(|glyphs|, i requires 0 <= i < |glyphs| => CacheKey(glyphs[i]))
  }

  /** The distinct characters of a string. */
  ghost function Distinct(cs: seq<Byte>): set<Byte>
  {
    set c | c in cs
  }

  /** The record the pass builds for character `c`. */
  function RecordFor(rasterize: Byte -> Metrics, c: Byte): Glyph
  {
    var m := rasterize(c);
    Glyph([c], m.width, m.height, m.xOffset, m.yOffset)
  }

  /** The records the pass builds for `text`, one per character. */
  function Rasterized(rasterize: Byte -> Metrics, text: seq<Byte>): (glyphs: seq<Glyph>)
    ensures |glyphs| == |text|
  {
    seq(|text|, i requires 0 <= i < |text| => RecordFor(rasterize, text[i]))
  }

  /** Rasterizes `text` left to right, appending one record per character. */
  method RenderTextToBitmap(rasterize: Byte -> Metrics, text: seq<Byte>) returns (glyphs: seq<Glyph>)
    ensures |glyphs| == |text|
    ensures forall i :: 0 <= i < |text| ==>
              glyphs[i].originalCharacter == [text[i]] &&
              glyphs[i].width == rasterize(text[i]).width &&
              glyphs[i].height == rasterize(text[i]).height &&
              glyphs[i].xOffset == rasterize(text[i]).xOffset &&
              glyphs[i].yOffset == rasterize(text[i]).yOffset
    ensures Keys(glyphs) == text
    ensures glyphs == Rasterized(rasterize, text)
  {
    glyphs := [];
    for i := 0 to |text|
      invariant |glyphs| == i
      invariant forall k :: 0 <= k < i ==> glyphs[k] == RecordFor(rasterize, text[k])
    {
      glyphs := glyphs + [RecordFor(rasterize, text[i])];
    }
  }
}
