// The glyph cache of html/xterm.js (DynamicCharAtlas): slots of one canvas are
// handed out through an LRU map keyed by a packed glyph description.

module CharAtlas {
  import opened Common
  import opened LruMap

  datatype Glyph = Glyph(code: bv32, bg: bv32, fg: bv32, bold: bool, dim: bool, italic: bool)

  /** Glyphs with colours the packed key has room for; colours are palette
      indices, at most 257. */
  predicate InRange(g: Glyph) {
    g.bg < 512 && g.fg < 512
  }

  predicate Cacheable(g: Glyph) {
    g.code < 256
  }

  /** getGlyphCacheKey, in 32-bit arithmetic. */
  function PackedKey(g: Glyph): bv32 {
    Packed(g.code, g.bg, g.fg, Flags(g.bold, g.dim, g.italic))
  }

  function Packed(code: bv32, bg: bv32, fg: bv32, flags: bv32): bv32 {
    (code << 21) | (bg << 12) | (fg << 3) | flags
  }

  function Flags(bold: bool, dim: bool, italic: bool): bv32 {
    (if bold then 0 else 4) + (if dim then 0 else 2) + (if italic then 0 else 1)
  }

  function Key(g: Glyph): int {
    PackedKey(g) as int
  }

  lemma KeyIsInjective(g: Glyph, h: Glyph)
    requires InRange(g) && InRange(h) && Cacheable(g) && Cacheable(h)
    ensures Key(g) == Key(h) <==> g == h
  {
    if Key(g) == Key(h) {
      assert (PackedKey(g) as int) as bv32 == PackedKey(g);
      PackedKeyIsInjective(g, h);
    }
  }

  lemma PackedKeyIsInjective(g: Glyph, h: Glyph)
    requires InRange(g) && InRange(h) && Cacheable(g) && Cacheable(h)
    requires PackedKey(g) == PackedKey(h)
    ensures g == h
  {
  }

  /** What the bits of the key are: code, background, foreground, and three flags that
      are set for what the glyph is not. */
  lemma KeyFields(g: Glyph)
    requires InRange(g) && Cacheable(g)
    ensures PackedKey(g) >> 21 == g.code
    ensures (PackedKey(g) >> 12) & 0x1FF == g.bg && (PackedKey(g) >> 3) & 0x1FF == g.fg
    ensures (PackedKey(g) & 4 == 0 <==> g.bold) && (PackedKey(g) & 2 == 0 <==> g.dim)
    ensures PackedKey(g) & 1 == 0 <==> g.italic
  {
    hide Packed, Flags;
    FlagBits(g.bold, g.dim, g.italic);
    PackedFields(g.code, g.bg, g.fg, Flags(g.bold, g.dim, g.italic));
  }

  lemma FlagBits(bold: bool, dim: bool, italic: bool)
    ensures var flags := Flags(bold, dim, italic);
            && flags < 8
            && (flags & 4 == 0 <==> bold) && (flags & 2 == 0 <==> dim) && (flags & 1 == 0 <==> italic)
  {
  }

  lemma PackedFields(code: bv32, bg: bv32, fg: bv32, flags: bv32)
    requires code < 256 && bg < 512 && fg < 512 && flags < 8
    ensures var key := Packed(code, bg, fg, flags);
            && key >> 21 == code && (key >> 12) & 0x1FF == bg && (key >> 3) & 0x1FF == fg
            && key & 4 == flags & 4 && key & 2 == flags & 2 && key & 1 == flags & 1
  {
  }

  /** A foreground past 511 runs into the background bits. */
  lemma KeyCollidesOutOfRange()
    ensures var g := Glyph(65, 0, 512, true, true, true);
            var h := Glyph(65, 1, 0, true, true, true);
            g != h && Key(g) == Key(h)
  {
    assert PackedKey(Glyph(65, 0, 512, true, true, true)) == PackedKey(Glyph(65, 1, 0, true, true, true));
  }

  // ---- slots ---------------------------------------------------------------

  /** The live slots are a permutation of 0..size-1. */
  ghost predicate SlotsPermuted(es: seq<Entry<nat>>) {
    && (forall i :: 0 <= i < |es| ==> es[i].value < |es|)
    && (forall i, j :: 0 <= i < j < |es| ==> es[i].value != es[j].value)
  }

  /** Each live slot of the canvas shows the glyph its entry is keyed by. */
  ghost predicate SlotsShow(es: seq<Entry<nat>>, canvas: map<nat, Glyph>) {
    forall i :: 0 <= i < |es| ==>
      && es[i].value in canvas
      && InRange(canvas[es[i].value]) && Cacheable(canvas[es[i].value])
      && Key(canvas[es[i].value]) == es[i].key
  }

  /** The slot draw picks on a miss: the next unused one, or at capacity that
      of the entry about to be evicted. */
  function SlotFor(es: seq<Entry<nat>>, capacity: nat): nat
    requires 0 < capacity && |es| <= capacity
  {
    if |es| < capacity then |es| else es[0].value
  }

  /** Entries `kept` of the cache, with slot `slot` redrawn for a new glyph. */
  lemma SlotRedrawn(kept: seq<Entry<nat>>, canvas: map<nat, Glyph>, slot: nat, g: Glyph)
    requires SlotsShow(kept, canvas) && InRange(g) && Cacheable(g)
    requires forall i :: 0 <= i < |kept| ==> kept[i].value != slot
    ensures SlotsShow(kept + [Entry(Key(g), slot)], canvas[slot := g])
  {
    hide Key, InRange, Cacheable;
  }

  lemma MissKeepsSlots(es: seq<Entry<nat>>, canvas: map<nat, Glyph>, capacity: nat, g: Glyph)
    requires 0 < capacity && |es| <= capacity
    requires SlotsPermuted(es) && SlotsShow(es, canvas)
    requires InRange(g) && Cacheable(g) && Find(es, Key(g)) == |es|
    ensures var slot := SlotFor(es, capacity);
            var after := Put(es, capacity, Key(g), slot);
            SlotsPermuted(after) && SlotsShow(after, canvas[slot := g])
  {
    hide Find, Key, InRange, Cacheable;
    var slot := SlotFor(es, capacity);
    var kept := if |es| < capacity then es else es[1..];
    assert SlotsShow(kept, canvas);
    SlotRedrawn(kept, canvas, slot, g);
    hide SlotsShow;
    assert Put(es, capacity, Key(g), slot) == kept + [Entry(Key(g), slot)];
  }

  lemma HitKeepsSlots(es: seq<Entry<nat>>, canvas: map<nat, Glyph>, key: int)
    requires SlotsPermuted(es) && SlotsShow(es, canvas)
    ensures SlotsPermuted(Got(es, key)) && SlotsShow(Got(es, key), canvas)
  {
    hide Find, Key, InRange, Cacheable;
    var k, after := Find(es, key), Got(es, key);
    if k < |es| {
      ToEndAt(es, k);
      assert after == ToEnd(es, k);
      hide ToEnd, Without, Got;
      forall i | 0 <= i < |after|
        ensures after[i] == es[if i < k then i else if i < |es| - 1 then i + 1 else k]
      {
      }
    }
  }

  lemma HitShowsTheGlyph(es: seq<Entry<nat>>, canvas: map<nat, Glyph>, g: Glyph)
    requires SlotsShow(es, canvas) && InRange(g) && Cacheable(g) && Find(es, Key(g)) < |es|
    ensures var slot := es[Find(es, Key(g))].value;
            slot in canvas && canvas[slot] == g
  {
    hide Find, Key, InRange, Cacheable;
    var slot := es[Find(es, Key(g))].value;
    assert slot in canvas && Key(canvas[slot]) == Key(g);
    KeyIsInjective(canvas[slot], g);
  }

  const DRAW_TO_CACHE_LIMIT := 100

  class DynamicCharAtlas {
    const cacheMap: LruMap<nat>
    var drawToCacheCount: nat
    var canvas: map<nat, Glyph>  // what each slot of the cache canvas shows
    ghost var history: seq<int>  // the keys drawn through the cache, in order

    /** The live slots are distinct and show their glyphs, and the cache holds
        the last uses of the drawing history. */
    ghost predicate Valid()
      reads this, cacheMap, cacheMap.order
    {
      && cacheMap.Valid()
      && SlotsPermuted(cacheMap.entries)
      && SlotsShow(cacheMap.entries, canvas)
      && Keys(cacheMap.entries) == LastOf(LastUses(history), cacheMap.capacity)
    }

    constructor (width: nat, height: nat)
      requires width * height > 0
      ensures Valid() && cacheMap.entries == [] && cacheMap.capacity == width * height
    {
      var m := new LruMap<nat>(width * height);
      m.Prealloc(width * height, 0);
      cacheMap := m;
      drawToCacheCount := 0;
      canvas := map[];
      history := [];
    }

    method BeginFrame()
      modifies this`drawToCacheCount
      ensures drawToCacheCount == 0
    {
      drawToCacheCount := 0;
    }

    method DrawToCache(g: Glyph, slot: nat)
      modifies this`drawToCacheCount, this`canvas
      ensures drawToCacheCount == old(drawToCacheCount) + 1
      ensures canvas == old(canvas)[slot := g]
    {
      drawToCacheCount := drawToCacheCount + 1;
      canvas := canvas[slot := g];
    }

    /** The miss branch of draw: pick a slot, draw the glyph there, cache it. */
    method DrawNew(g: Glyph) returns (image: Glyph)
      requires Valid() && InRange(g) && Cacheable(g) && Find(cacheMap.entries, Key(g)) == |cacheMap.entries|
      modifies this`drawToCacheCount, this`canvas, this`history, cacheMap, cacheMap.order, cacheMap.nodePool
      ensures Valid() && image == g && history == old(history) + [Key(g)]
      ensures drawToCacheCount == old(drawToCacheCount) + 1
      ensures canvas == old(canvas)[SlotFor(old(cacheMap.entries), cacheMap.capacity) := g]
      ensures var es := old(cacheMap.entries);
              cacheMap.entries == Put(es, cacheMap.capacity, Key(g), SlotFor(es, cacheMap.capacity))
    {
      hide cacheMap.Valid, cacheMap.Links, cacheMap.Holds;
      hide Find, Put, Key, InRange, Cacheable, SlotsPermuted, SlotsShow, SlotFor, DistinctKeys, Keys, LastOf, LastUses;
      MissKeepsSlots(cacheMap.entries, canvas, cacheMap.capacity, g);
      var slot := PickSlot();
      UseExtendsHistory(cacheMap.entries, cacheMap.capacity, history, Key(g), slot);
      history := history + [Key(g)];
      DrawToCache(g, slot);
      cacheMap.Set(Key(g), slot);
      image := canvas[slot];
    }

    method PickSlot() returns (slot: nat)
      requires cacheMap.Valid()
      ensures slot == SlotFor(cacheMap.entries, cacheMap.capacity)
    {
      if cacheMap.size < cacheMap.capacity {
        slot := cacheMap.size;
      } else {
        var oldest := cacheMap.Peek();
        slot := oldest.value;
      }
    }

    /** `image` is what gets copied from the cache canvas to the screen. A cached
        drawing is always of the glyph asked for, whatever was evicted, and the
        map always holds the most recently drawn keys. */
    method Draw(g: Glyph) returns (drawn: bool, image: Option<Glyph>)
      requires Valid() && InRange(g)
      modifies this`drawToCacheCount, this`canvas, this`history, cacheMap, cacheMap.order, cacheMap.nodePool
      ensures Valid()
      ensures var es := old(cacheMap.entries);
              var hit := Find(es, Key(g)) < |es|;
              && drawn == (g.code == 32 || (g.code < 256 && (hit || old(drawToCacheCount) < 100)))
              && image == (if drawn && g.code != 32 then Some(g) else None)
              && drawToCacheCount == old(drawToCacheCount) + (if image == None || hit then 0 else 1)
              && history == old(history) + (if image == None then [] else [Key(g)])
              && cacheMap.entries ==
                   (if image == None then es
                    else if hit then Got(es, Key(g))
                    else Put(es, cacheMap.capacity, Key(g), SlotFor(es, cacheMap.capacity)))
    {
      hide cacheMap.Valid, cacheMap.Links, cacheMap.Holds;
      hide Find, Put, Key, InRange, SlotsPermuted, SlotsShow, DistinctKeys, Keys, LastOf, LastUses;
      if g.code == 32 {
        return true, None;
      }
      if !Cacheable(g) {
        return false, None;
      }
      ghost var es := cacheMap.entries;
      HitKeepsSlots(es, canvas, Key(g));
      if Find(es, Key(g)) < |es| {
        HitShowsTheGlyph(es, canvas, g);
        UseExtendsHistory(es, cacheMap.capacity, history, Key(g), 0);
      }
      var found := cacheMap.Get(Key(g));
      if found.Some? {
        history := history + [Key(g)];
        return true, Some(canvas[found.value]);
      }
      if drawToCacheCount < DRAW_TO_CACHE_LIMIT {
        var added := DrawNew(g);
        return true, Some(added);
      }
      return false, None;
    }
  }
}
