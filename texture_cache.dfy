/**
 The glyph texture cache: a process-wide map from one byte to a GL texture id,
 a miss counter, and the texture-id generator. `Populate` is the cache update
 as a function of the old state; `GlyphTextureCache` is the in-place version.
 */
module TextureCache {
  import opened Glyphs
  import opened TextLayout

  /** Everything the cache pass reads and writes. `nextId` is the id the next
      texture allocation returns. */
  datatype CacheState = CacheState(textures: map<Byte, nat>, misses: nat, nextId: nat)

  /** One iteration of the cache pass: a hit changes nothing; a miss counts,
      allocates the next id and stores it under the key. */
  function Visit(s: CacheState, c: Byte): CacheState
  {
    if c in s.textures then s
    else CacheState(s.textures[c := s.nextId], s.misses + 1, s.nextId + 1)
  }

  /** One visit caches its key and keeps every other entry; a hit leaves the whole
      state alone, a miss stores the next id and advances the counter and the allocator. */
  lemma VisitEffect(s: CacheState, c: Byte)
    ensures Visit(s, c).textures.Keys == s.textures.Keys + {c}
    ensures forall d :: d in s.textures ==> Visit(s, c).textures[d] == s.textures[d]
    ensures c in s.textures ==> Visit(s, c) == s
    ensures c !in s.textures ==>
              Visit(s, c).textures[c] == s.nextId && Visit(s, c).misses == s.misses + 1 &&
              Visit(s, c).nextId == s.nextId + 1
  {
  }

  /** The cache pass over a sequence of keys, left to right. */
  function Populate(s: CacheState, cs: seq<Byte>): CacheState
    decreases |cs|
  {
    if cs == [] then s else Visit(Populate(s, cs[..|cs| - 1]), cs[|cs| - 1])
  }

  /** Every cached id was handed out before the next one. */
  ghost predicate IdsBelowNext(s: CacheState)
  {
    0 < s.nextId && forall c :: c in s.textures ==> s.textures[c] < s.nextId
  }

  /** The invariant of a cache built from empty by the cache pass alone: one miss per
      entry, every id allocated (non-zero, below the next one) and no id shared. */
  ghost predicate Consistent(s: CacheState)
  {
    && 0 < s.nextId
    && s.misses == |s.textures|
    && (forall c :: c in s.textures ==> 0 < s.textures[c] < s.nextId)
    && (forall c, d :: c in s.textures && d in s.textures && c != d ==> s.textures[c] != s.textures[d])
  }

  lemma DistinctSnoc(cs: seq<Byte>)
    requires cs != []
    ensures Distinct(cs) == Distinct(cs[..|cs| - 1]) + {cs[|cs| - 1]}
  {
    assert cs == cs[..|cs| - 1] + [cs[|cs| - 1]];
  }

  /** After the pass its keys are exactly the old keys plus every key it visited:
      every visited key is cached and no key is removed. */
  lemma {:induction false} PopulateKeys(s: CacheState, cs: seq<Byte>)
    ensures Populate(s, cs).textures.Keys == s.textures.Keys + Distinct(cs)
    decreases |cs|
  {
    if cs != [] {
      PopulateKeys(s, cs[..|cs| - 1]);
      DistinctSnoc(cs);
    }
  }

  /** A key that was cached keeps its texture id. */
  lemma {:induction false} PopulateKeepsEntries(s: CacheState, cs: seq<Byte>, c: Byte)
    requires c in s.textures
    ensures c in Populate(s, cs).textures && Populate(s, cs).textures[c] == s.textures[c]
    decreases |cs|
  {
    if cs != [] {
      PopulateKeepsEntries(s, cs[..|cs| - 1], c);
    }
  }

  lemma DiffGrows(visited: set<Byte>, cached: set<Byte>, c: Byte)
    ensures c in visited + cached ==> (visited + {c}) - cached == visited - cached
    ensures c !in visited + cached ==> |(visited + {c}) - cached| == |visited - cached| + 1
  {
    if c !in visited + cached {
      assert (visited + {c}) - cached == (visited - cached) + {c};
    }
  }

  /** The miss count grows by the number of distinct visited keys that were absent,
      and exactly that many ids are allocated. */
  lemma {:induction false} PopulateMisses(s: CacheState, cs: seq<Byte>)
    ensures Populate(s, cs).misses == s.misses + |Distinct(cs) - s.textures.Keys|
    ensures Populate(s, cs).nextId == s.nextId + |Distinct(cs) - s.textures.Keys|
    decreases |cs|
  {
    if cs != [] {
      var init, c := cs[..|cs| - 1], cs[|cs| - 1];
      var p := Populate(s, init);
      PopulateMisses(s, init);
      PopulateKeys(s, init);
      DistinctSnoc(cs);
      DiffGrows(Distinct(init), s.textures.Keys, c);
      assert Populate(s, cs) == Visit(p, c);
    }
  }

  /** A newly cached key gets a freshly allocated id: one between the old and the new `nextId`. */
  lemma {:induction false} PopulateFreshIds(s: CacheState, cs: seq<Byte>, c: Byte)
    requires c in Populate(s, cs).textures && c !in s.textures
    ensures s.nextId <= Populate(s, cs).textures[c] < Populate(s, cs).nextId
    decreases |cs|
  {
    var r := Populate(s, cs);
    if cs != [] {
      var init := cs[..|cs| - 1];
      PopulateMisses(s, init);
      if c in Populate(s, init).textures {
        PopulateFreshIds(s, init, c);
      }
    }
  }

  /** A pass all of whose keys are cached is a no-op. */
  lemma {:induction false} PopulateAllHits(s: CacheState, cs: seq<Byte>)
    requires Distinct(cs) <= s.textures.Keys
    ensures Populate(s, cs) == s
    decreases |cs|
  {
    if cs != [] {
      DistinctSnoc(cs);
      PopulateAllHits(s, cs[..|cs| - 1]);
    }
  }

  /** Repeating a pass on the same keys changes nothing: the second pass has no misses. */
  lemma PopulateIdempotent(s: CacheState, cs: seq<Byte>)
    ensures Populate(Populate(s, cs), cs) == Populate(s, cs)
  {
    PopulateKeys(s, cs);
    PopulateAllHits(Populate(s, cs), cs);
  }

  /** The pass preserves the cache invariant. */
  lemma {:induction false} PopulateConsistent(s: CacheState, cs: seq<Byte>)
    requires Consistent(s)
    ensures Consistent(Populate(s, cs))
    decreases |cs|
  {
    if cs != [] {
      var init := cs[..|cs| - 1];
      PopulateConsistent(s, init);
      var p := Populate(s, init);
      var c := cs[|cs| - 1];
      if c !in p.textures {
        assert p.textures[c := p.nextId].Keys == p.textures.Keys + {c};
      }
    }
  }

  /** The bytes below n. */
  ghost function ByteRange(n: nat): set<Byte>
    requires n <= 256
  {
    if n == 0 then {} else ByteRange(n - 1) + {n - 1}
  }

  lemma {:induction false} ByteRangeSize(n: nat)
    requires n <= 256
    ensures |ByteRange(n)| == n
    ensures forall b: Byte :: b in ByteRange(n) <==> b < n
  {
    if n > 0 {
      ByteRangeSize(n - 1);
    }
  }

  /** Keys are single bytes, so a consistent cache never counts more than 256 misses
      (nor allocates more than 256 textures). */
  lemma CacheBound(s: CacheState)
    requires Consistent(s)
    ensures s.misses <= 256
  {
    var all := ByteRange(256);
    ByteRangeSize(256);
    assert all == s.textures.Keys + (all - s.textures.Keys);
  }

  /** Everything one pass over a record list does to a consistent cache: the invariant
      is kept, every record's key is cached, old entries keep their ids, new entries get
      fresh ids, and one miss is counted per distinct new key. */
  lemma PopulateRecords(s: CacheState, glyphs: seq<Glyph>)
    requires Consistent(s)
    ensures var r := Populate(s, Keys(glyphs));
      && Consistent(r)
      && (forall k :: 0 <= k < |glyphs| ==> CacheKey(glyphs[k]) in r.textures)
      && r.textures.Keys == s.textures.Keys + Distinct(Keys(glyphs))
      && (forall c :: c in s.textures ==> c in r.textures && r.textures[c] == s.textures[c])
      && (forall c :: c in r.textures && c !in s.textures ==> s.nextId <= r.textures[c] < r.nextId)
      && r.misses == s.misses + |Distinct(Keys(glyphs)) - s.textures.Keys|
  {
    var keys := Keys(glyphs);
    var r := Populate(s, keys);
    PopulateConsistent(s, keys);
    PopulateKeys(s, keys);
    PopulateMisses(s, keys);
    forall k | 0 <= k < |glyphs| ensures CacheKey(glyphs[k]) in r.textures {
      assert keys[k] in Distinct(keys);
    }
    forall c | c in s.textures ensures c in r.textures && r.textures[c] == s.textures[c] {
      PopulateKeepsEntries(s, keys, c);
    }
    forall c | c in r.textures && c !in s.textures ensures s.nextId <= r.textures[c] < r.nextId {
      PopulateFreshIds(s, keys, c);
    }
  }

  /** Drawn against a consistent cache holding every record's key, each quad uses an
      allocated (non-zero) texture, and two quads share a texture exactly when their
      records have the same character. */
  lemma LayoutTextures(s: CacheState, glyphs: seq<Glyph>)
    requires Consistent(s)
    requires Distinct(Keys(glyphs)) <= s.textures.Keys
    ensures forall k :: 0 <= k < |glyphs| ==> Layout(s.textures, glyphs)[k].texture > 0
    ensures forall j, k :: 0 <= j < |glyphs| && 0 <= k < |glyphs| ==>
              (Layout(s.textures, glyphs)[j].texture == Layout(s.textures, glyphs)[k].texture
               <==> Keys(glyphs)[j] == Keys(glyphs)[k])
  {
    forall k | 0 <= k < |glyphs|
      ensures CacheKey(glyphs[k]) in s.textures
      ensures Layout(s.textures, glyphs)[k].texture == s.textures[CacheKey(glyphs[k])]
    {
      LayoutUsesCache(s.textures, glyphs, k);
    }
  }

  /** The cache object: the map, the miss counter and the id generator. */
  class GlyphTextureCache {
    var textures: map<Byte, nat>
    var misses: nat
    var nextId: nat

    function State(): CacheState
      reads this
    {
      CacheState(textures, misses, nextId)
    }

    ghost predicate Valid()
      reads this
    {
      Consistent(State())
    }

    /** The empty cache; texture ids are handed out from `firstFreeId` on. */
    constructor (firstFreeId: nat)
      requires 0 < firstFreeId
      ensures Valid()
      ensures textures == map[] && misses == 0 && nextId == firstFreeId
    {
      textures := map[];
      misses := 0;
      nextId := firstFreeId;
    }

    /** Allocates a new texture name: a non-zero one that no entry uses. */
    method GenTexture() returns (id: nat)
      requires IdsBelowNext(State())
      modifies this`nextId
      ensures 0 < id && forall c :: c in textures ==> textures[c] != id
      ensures id == old(nextId) && nextId == old(nextId) + 1
    {
      id := nextId;
      nextId := nextId + 1;
    }

    /** The miss branch: count the miss, allocate a texture and store its id under `c`. */
    method CacheMiss(c: Byte)
      requires c !in textures
      requires IdsBelowNext(State())
      modifies this
      ensures State() == Visit(old(State()), c)
      ensures IdsBelowNext(State())
    {
      misses := misses + 1;
      var id := GenTexture();
      textures := textures[c := id];
    }

    /** Makes sure every record's character has a texture: a miss bumps the counter,
        allocates a texture and stores it; a hit does nothing. */
    method CacheRenderedGlyphs(glyphs: seq<Glyph>)
      requires Valid()
      modifies this
      ensures Valid()
      ensures State() == Populate(old(State()), Keys(glyphs))
      ensures forall k :: 0 <= k < |glyphs| ==> CacheKey(glyphs[k]) in textures
      ensures textures.Keys == old(textures).Keys + Distinct(Keys(glyphs))
      ensures forall c :: c in old(textures) ==> c in textures && textures[c] == old(textures)[c]
      ensures forall c :: c in textures && c !in old(textures) ==> old(nextId) <= textures[c] < nextId
      ensures misses == old(misses) + |Distinct(Keys(glyphs)) - old(textures).Keys|
    {
      ghost var s0 := State();
      ghost var keys := Keys(glyphs);
      for i := 0 to |glyphs|
        invariant State() == Populate(s0, keys[..i])
        invariant IdsBelowNext(State())
      {
        var c := CacheKey(glyphs[i]);
        assert keys[..i + 1][..i] == keys[..i];
        if c !in textures {
          CacheMiss(c);
        }
      }
      assert keys[..|glyphs|] == keys;
      PopulateRecords(s0, glyphs);
    }

    /** Populates the cache with the records, then draws them; every subscript of the
        cache finds its key, so drawing inserts nothing. */
    method RenderTextToScreen(glyphs: seq<Glyph>) returns (quads: seq<Quad>)
      requires Valid()
      modifies this
      ensures Valid()
      ensures State() == Populate(old(State()), Keys(glyphs))
      ensures quads == Layout(textures, glyphs)
      ensures forall k :: 0 <= k < |glyphs| ==>
                CacheKey(glyphs[k]) in textures && quads[k].texture == textures[CacheKey(glyphs[k])]
    {
      CacheRenderedGlyphs(glyphs);
      quads := EmitQuads(textures, glyphs);
      forall k | 0 <= k < |glyphs|
        ensures CacheKey(glyphs[k]) in textures && quads[k].texture == textures[CacheKey(glyphs[k])]
      {
        LayoutUsesCache(textures, glyphs, k);
      }
    }
  }
}
