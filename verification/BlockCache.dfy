/** The compacted tier over a buffer kept as separately compressed blocks, with a
    bounded cache of decompressed ones. */
module BlockCache {
  import opened Options
  import opened Sequences
  import opened Bytes
  import opened FrontCoding
  import opened CompactedTier
  import opened Caches

  // ---- Raw blocks ----

  /** `b * size`, spelled as repeated addition. */
  ghost function Times(b: nat, size: nat): nat { if b == 0 then 0 else Times(b - 1, size) + size }

  lemma {:induction false} TimesIsProduct(b: nat, size: nat)
    ensures Times(b, size) == b * size
    decreases b
  {
    if b > 0 { TimesIsProduct(b - 1, size); }
  }

  ghost function Clip(n: nat, limit: nat): nat { if n < limit then n else limit }

  /** Block `b` of `raw` cut into pieces of `size` bytes. */
  ghost function RawBlock(raw: Text, size: nat, b: nat): Text
    requires Times(b, size) <= |raw|
  {
    raw[Times(b, size)..Clip(Times(b, size) + size, |raw|)]
  }

  lemma {:induction false} TimesMonotone(a: nat, b: nat, size: nat)
    requires a <= b
    ensures Times(a, size) <= Times(b, size)
    decreases b
  {
    if a < b { TimesMonotone(a, b - 1, size); }
  }

  /** Index of the block that holds byte `pos`. */
  function BlockIndex(pos: nat, size: nat): nat
    requires size > 0
  {
    pos / size
  }

  lemma BlockIndexBrackets(pos: nat, size: nat)
    requires size > 0
    ensures Times(BlockIndex(pos, size), size) <= pos < Times(BlockIndex(pos, size), size) + size
  {
    TimesIsProduct(pos / size, size);
  }

  lemma BlockIndexMonotone(p: nat, q: nat, size: nat)
    requires size > 0 && p <= q
    ensures BlockIndex(p, size) <= BlockIndex(q, size)
  {
    BlockIndexBrackets(p, size);
    BlockIndexBrackets(q, size);
    if BlockIndex(p, size) > BlockIndex(q, size) { TimesMonotone(BlockIndex(q, size) + 1, BlockIndex(p, size), size); }
  }

  type Codec = Text -> Option<Text>

  /** Concatenated compressed blocks; block `b` lies between two offsets. */
  datatype Blocks = Blocks(size: nat, rawLen: nat, offsets: seq<nat>, data: Text)

  function NumCompressed(c: Blocks): nat { if |c.offsets| == 0 then 0 else |c.offsets| - 1 }

  ghost predicate HoldsBlock(c: Blocks, raw: Text, decompress: Codec, b: nat) {
    && b + 1 < |c.offsets| && c.offsets[b] <= c.offsets[b + 1] <= |c.data|
    && Times(b, c.size) <= |raw|
    && decompress(c.data[c.offsets[b]..c.offsets[b + 1]]) == Some(RawBlock(raw, c.size, b))
  }

  /** Decompressing any block gives back its piece of `raw`. */
  ghost predicate Holds(c: Blocks, raw: Text, decompress: Codec) {
    && c.size > 0 && c.rawLen == |raw| && |c.offsets| > 0
    && |raw| <= Times(NumCompressed(c), c.size) 
    && forall b: nat :: b < NumCompressed(c) ==> HoldsBlock(c, raw, decompress, b)
  }

  /** Cuts and compresses a buffer. All that is asked of the codec is that
      decompressing undoes compressing. */
  method CompressBlocks(raw: Text, size: nat, compress: Text -> Text, ghost decompress: Codec) returns (c: Blocks)
    requires size > 0 && forall x :: decompress(compress(x)) == Some(x)
    ensures Holds(c, raw, decompress) && c.size == size
  {
    var data: Text, offsets: seq<nat>, i := [], [0], 0;
    ghost var b: nat := 0;
    while i < |raw|
      invariant |offsets| == b + 1 && offsets[b] == |data|
      invariant i == Clip(Times(b, size), |raw|)
      invariant forall d: nat :: d < b ==> HoldsBlock(Blocks(size, |raw|, offsets, data), raw, decompress, d)
      decreases |raw| - i
    {
      ghost var before := Blocks(size, |raw|, offsets, data);
      var end := if i + size < |raw| then i + size else |raw|;
      var piece := compress(raw[i..end]);
      data := data + piece;
      offsets := offsets + [|data|];
      ghost var after := Blocks(size, |raw|, offsets, data);
      forall d: nat | d < b ensures HoldsBlock(after, raw, decompress, d) {
        assert HoldsBlock(before, raw, decompress, d);
        assert after.data[after.offsets[d]..after.offsets[d + 1]] == before.data[before.offsets[d]..before.offsets[d + 1]];
      }
      assert data[offsets[b]..offsets[b + 1]] == piece;
      assert HoldsBlock(after, raw, decompress, b);
      i, b := end, b + 1;
    }
    c := Blocks(size, |raw|, offsets, data);
  }

  // ---- The cached tier ----

  class BlockCachedTier {
    const index: Index
    const blocks: Blocks
    const decompress: Codec
    var cache: Lru<nat, Text>
    ghost const layout: Layout
    ghost const raw: Text

    ghost predicate Valid()
      reads this
    {
      TierOf(Tier(index, raw), layout, index.highWater) && Ready()
    }

    /** What reading raw bytes needs, whatever they encode. */
    ghost predicate Ready()
      reads this
    {
      Holds(blocks, raw, decompress) && CacheValid()
    }

    /** The cache is bounded and holds nothing but true decompressed blocks. */
    ghost predicate CacheValid()
      reads this
    {
      && WellKept(cache)
      && forall kv :: kv in cache.items ==>
           Times(kv.0, blocks.size) <= |raw| && kv.1 == RawBlock(raw, blocks.size, kv.0)
    }

    /** Starts with an empty cache of at least one slot. */
    constructor (index: Index, blocks: Blocks, decompress: Codec, capacity: nat, ghost layout: Layout)
      requires TierOf(Tier(index, Buffer(layout)), layout, index.highWater) && Holds(blocks, Buffer(layout), decompress)
      ensures Valid() && this.index == index && this.layout == layout
      ensures cache.items == [] && cache.capacity == if capacity == 0 then 1 else capacity
    {
      this.index, this.blocks, this.decompress, this.layout, this.raw := index, blocks, decompress, layout, Buffer(layout);
      this.cache := Lru(if capacity == 0 then 1 else capacity, []);
    }

    method GetBlock(b: nat) returns (r: Result<Text>)
      requires Ready()
      modifies this
      ensures Ready() && cache.capacity == old(cache.capacity)
      ensures b < NumCompressed(blocks) ==>
                Times(b, blocks.size) <= |raw| && r == Ok(RawBlock(raw, blocks.size, b))
    {
      var touched := Get(cache, b);
      cache := touched.0;
      if touched.1.Some? { return Ok(touched.1.value); }
      if b >= NumCompressed(blocks) { return Err; }
      assert HoldsBlock(blocks, raw, decompress, b);
      match decompress(blocks.data[blocks.offsets[b]..blocks.offsets[b + 1]])
      case None => return Err;
      case Some(bytes) =>
        cache := Put(cache, b, bytes);
        return Ok(bytes);
    }

    /** Any byte range, however many compressed blocks it spans. */
    method RawSlice(start: nat, end: nat) returns (r: Result<Text>)
      requires Ready()
      modifies this
      ensures Ready() && cache.capacity == old(cache.capacity)
      ensures r == if start <= end <= |raw| then Ok(raw[start..end]) else Err
    {
      if start > end || end > blocks.rawLen { return Err; }
      if start == end {
        assert raw[start..end] == [];
        return Ok([]);
      }
      var size := blocks.size;
      var first, last := BlockIndex(start, size), BlockIndex(end - 1, size);
      BlockIndexMonotone(start, end - 1, size);
      BlockIndexBrackets(start, size);
      BlockIndexBrackets(end - 1, size);
      LastBlockExists(blocks, raw, decompress, end - 1);
      var out: Text := [];
      for b := first to last + 1
        invariant Ready() && cache.capacity == old(cache.capacity)
        invariant out == raw[start..SlicedTo(start, end, b, size)]
      {
        TimesMonotone(first, b, size);
        TimesMonotone(b, last, size);
        var piece := PieceOf(start, end, b);
        if piece.Err? { return Err; }
        out := out + piece.value;
      }
      return Ok(out);
    }

    /** The part of the range that lies in block `b`. */
    method PieceOf(start: nat, end: nat, b: nat) returns (r: Result<Text>)
      requires Ready() && start < end <= |raw| && b < NumCompressed(blocks)
      requires Times(b, blocks.size) < end && start < Times(b, blocks.size) + blocks.size
      modifies this
      ensures Ready() && cache.capacity == old(cache.capacity)
      ensures r.Ok? && raw[start..SlicedTo(start, end, b, blocks.size)] + r.value
                    == raw[start..SlicedTo(start, end, b + 1, blocks.size)]
    {
      var block := GetBlock(b);
      if block.Err? { return Err; }
      TimesIsProduct(b, blocks.size);
      var blockStart := b * blocks.size;
      var localStart := if start > blockStart then start - blockStart else 0;
      var localEnd := if end - blockStart < |block.value| then end - blockStart else |block.value|;
      SliceStep(raw, start, end, b, blocks.size, localStart, localEnd);
      return Ok(block.value[localStart..localEnd]);
    }

    method DecodeBlock(b: nat) returns (r: Result<seq<Content>>)
      requires Valid() && b < NumBlocks(|layout.entries|)
      modifies this
      ensures Valid() && cache.capacity == old(cache.capacity)
      ensures r.Ok? && |r.value| == BlockEnd(|layout.entries|, b) - Base(b) && ContentsFrom(r.value, layout.entries, Base(b))
    {
      BlockRangeIsBlock(index, layout, b);
      var (start, end) := BlockRange(index, blocks.rawLen, b);
      var slice := RawSlice(start, end);
      if slice.Err? { return Err; }
      SliceHoldsBlock(layout, b);
      var out := DecodeRun(slice.value, 0, |slice.value|, layout, b, start);
      return Ok(out);
    }

    /** The same answer as the owned tier's lookup, whatever the cache holds. */
    method GetId(c: Content) returns (r: Option<nat>)
      requires Valid() && Sorted(layout.entries)
      modifies this
      ensures Valid() && cache.capacity == old(cache.capacity)
      ensures r == Lookup(layout.entries, c)
    {
      hide Holds, CacheValid, FirstKey, KeyLe, PermutationOf;
      ghost var es := layout.entries;
      if index.encodedCount == 0 { return None; }
      var b := FindJumpBlock(index, c.key, layout);
      JumpBlockExists(es, c.key);
      while b < |index.blockStarts|
        invariant b <= NumBlocks(|es|) && Valid() && cache.capacity == old(cache.capacity)
        invariant Lookup(es, c) == FirstMatch(es, Base(b), c)
      {
        var decoded := DecodeBlock(b);
        if decoded.Err? { return None; }
        var stop, found := ScanBlock(index, decoded.value, Base(b), c, es);
        if stop { return found; }
        NextBlock(es, b, c);
        b := b + 1;
      }
      return None;
    }

    /** The same answer as the owned tier's decoding, whatever the cache holds. */
    method DecodeId(id: nat) returns (r: Option<Result<Content>>)
      requires Valid()
      modifies this
      ensures Valid() && cache.capacity == old(cache.capacity)
      ensures r == match Decoded(index, layout.entries, id) case None => None case Some(c) => Some(Ok(c))
    {
      if id >= index.highWater || index.encodedCount == 0 { return None; }
      var rank := index.id2rank[id];
      var decoded := DecodeBlock(BlockOf(rank));
      if decoded.Err? { return Some(Err); }
      return Some(Ok(decoded.value[OffsetIn(rank)]));
    }

    /** Every entry of the block that holds `id`, with its own id. */
    method DecodeBlockForId(id: nat) returns (r: Option<Result<seq<Entry>>>)
      requires Valid()
      modifies this
      ensures Valid() && cache.capacity == old(cache.capacity)
      ensures r == match BlockFor(index, layout.entries, id) case None => None case Some(es) => Some(Ok(es))
    {
      if id >= index.highWater || index.encodedCount == 0 { return None; }
      var b := BlockOf(index.id2rank[id]);
      var decoded := DecodeBlock(b);
      if decoded.Err? { return Some(Err); }
      var es := AttachIds(index, decoded.value, Base(b), layout.entries);
      assert es == BlockEntries(layout.entries, b);
      return Some(Ok(es));
    }
  }

  /** Block `b` cut out of the buffer still holds its entries. */
  lemma SliceHoldsBlock(l: Layout, b: nat)
    requires WellLaid(l) && b < NumBlocks(|l.entries|)
    ensures Offset(l, Base(b)) <= Offset(l, BlockEnd(|l.entries|, b)) <= |Buffer(l)|
    ensures HoldsRun(Buffer(l)[Offset(l, Base(b))..Offset(l, BlockEnd(|l.entries|, b))],
                     l, Base(b), BlockEnd(|l.entries|, b), Offset(l, Base(b)))
  {
    var lo, hi := Base(b), BlockEnd(|l.entries|, b);
    OffsetsGrow(l, lo, hi);
    OffsetsGrow(l, hi, |l.entries|);
    forall k: nat | lo <= k < hi
      ensures HoldsEntry(Buffer(l)[Offset(l, lo)..Offset(l, hi)], l, k, Offset(l, lo))
    {
      OffsetsGrow(l, lo, k);
      OffsetsGrow(l, k + 1, hi);
      ConcatAt(l.texts, k);
      SliceOfSlice(Buffer(l), Offset(l, lo), Offset(l, hi), Offset(l, k) - Offset(l, lo), Offset(l, k + 1) - Offset(l, lo));
    }
  }

  /** How far the slice has been copied before block `b`. */
  ghost function SlicedTo(start: nat, end: nat, b: nat, size: nat): nat {
    if Times(b, size) <= start then start else Clip(Times(b, size), end)
  }

  lemma SliceStep(raw: Text, start: nat, end: nat, b: nat, size: nat, localStart: nat, localEnd: nat)
    requires start < end <= |raw| && Times(b, size) < end && start < Times(b, size) + size
    requires localStart == if start > Times(b, size) then start - Times(b, size) else 0
    requires localEnd == Clip(end - Times(b, size), |RawBlock(raw, size, b)|)
    ensures localStart <= localEnd <= |RawBlock(raw, size, b)|
    ensures raw[start..SlicedTo(start, end, b, size)] + RawBlock(raw, size, b)[localStart..localEnd]
         == raw[start..SlicedTo(start, end, b + 1, size)]
  {
    var from, to := SlicedTo(start, end, b, size), SlicedTo(start, end, b + 1, size);
    assert Times(b + 1, size) == Times(b, size) + size;
    assert from == Times(b, size) + localStart;
    assert to == Times(b, size) + localEnd;
    SliceOfSlice(raw, Times(b, size), Clip(Times(b, size) + size, |raw|), localStart, localEnd);
  }

  lemma LastBlockExists(c: Blocks, raw: Text, decompress: Codec, pos: nat)
    requires Holds(c, raw, decompress) && pos < |raw|
    ensures BlockIndex(pos, c.size) < NumCompressed(c)
  {
    BlockIndexBrackets(pos, c.size);
    if NumCompressed(c) <= BlockIndex(pos, c.size) { TimesMonotone(NumCompressed(c), BlockIndex(pos, c.size), c.size); }
  }
}
