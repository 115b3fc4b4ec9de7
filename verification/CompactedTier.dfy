/** The immutable compacted tier: Front-Coded blocks of entries sorted by key, a
    first-key index for lookup, and the permutations between ids and ranks. */
module CompactedTier {
  import opened Options
  import opened Bytes
  import opened FrontCoding

  // ---- Bit-packed fields ----

  function Pow2(n: nat): nat { if n == 0 then 1 else 2 * Pow2(n - 1) }

  /** Bits needed for values up to `max`, at least one. */
  function BitWidth(max: nat): nat { if max < 2 then 1 else 1 + BitWidth(max / 2) }

  /** A field of `width` bits keeps only the low bits of what is stored. */
  function Packed(v: nat, width: nat): nat { v % PositivePow2(width) }

  function PositivePow2(n: nat): (r: nat)
    ensures r == Pow2(n) && r > 0
  {
    if n == 0 then 1 else 2 * PositivePow2(n - 1)
  }

  lemma {:induction false} WidthFits(v: nat, max: nat)
    requires v <= max
    ensures v < Pow2(BitWidth(max))
    decreases max
  {
    if max < 2 {
      assert Pow2(1) == 2;
    } else {
      WidthFits(v / 2, max / 2);
    }
  }

  /** And no narrower field would do. */
  lemma {:induction false} WidthIsLeast(max: nat)
    ensures BitWidth(max) >= 1 && (BitWidth(max) > 1 ==> Pow2(BitWidth(max) - 1) <= max)
    decreases max
  {
    if max >= 2 {
      WidthIsLeast(max / 2);
      var w: nat := BitWidth(max / 2);
      assert BitWidth(max) == w + 1;
      if w > 1 { assert Pow2(w) == 2 * Pow2(w - 1); } else { assert Pow2(1) == 2 * Pow2(0); }
    }
  }

  /** Nothing is lost packing a value into the width computed for its maximum. */
  lemma PackedExactly(v: nat, max: nat)
    requires v <= max
    ensures Packed(v, BitWidth(max)) == v
  {
    WidthFits(v, max);
    SmallRemainder(v, PositivePow2(BitWidth(max)));
  }

  lemma SmallRemainder(v: nat, m: nat)
    requires v < m
    ensures v % m == v
  {
  }

  predicate FitsU32(n: nat) { n < 0x1_0000_0000 }

  /** An offset stored in 32 bits: longer ones lose their high bits. */
  function Truncated32(n: nat): nat { if FitsU32(n) then n else n % 0x1_0000_0000 }

  lemma {:induction false} Pow2OfSum(a: nat, b: nat)
    ensures Pow2(a + b) == Pow2(a) * Pow2(b)
    decreases a
  {
    if a > 0 { Pow2OfSum(a - 1, b); }
  }

  lemma Pow2Of16()
    ensures Pow2(16) == 0x1_0000
  {
    assert Pow2(8) == 256;
    Pow2OfSum(8, 8);
  }

  lemma Pow2Of32()
    ensures PositivePow2(32) == 0x1_0000_0000
  {
    Pow2Of16();
    hide Pow2;
    Pow2OfSum(16, 16);
  }

  /** Thirty-two bits are kept, and an offset that fits is kept as it is. */
  lemma OffsetsWrap(n: nat)
    ensures Truncated32(n) == n % PositivePow2(32)
    ensures FitsU32(n) <==> Truncated32(n) == n
  {
    hide PositivePow2, Pow2;
    Pow2Of32();
    if FitsU32(n) { SmallRemainder(n, 0x1_0000_0000); }
  }

  // ---- Order ----

  predicate KeyLe(a: Key, b: Key) {
    a.tag < b.tag || (a.tag == b.tag && LexLe(a.primary, b.primary))
  }

  lemma KeyOrder(a: Key, b: Key, c: Key)
    ensures KeyLe(a, a) && (KeyLe(a, b) || KeyLe(b, a))
    ensures KeyLe(a, b) && KeyLe(b, a) ==> a == b
    ensures KeyLe(a, b) && KeyLe(b, c) ==> KeyLe(a, c)
  {
    LexReflexive(a.primary);
    LexTotal(a.primary, b.primary);
    if KeyLe(a, b) && KeyLe(b, a) { LexAntisymmetric(a.primary, b.primary); }
    if KeyLe(a, b) && KeyLe(b, c) && a.tag == b.tag == c.tag { LexTransitive(a.primary, b.primary, c.primary); }
  }

  /** Tags decide first, then the first byte in which the texts differ. */
  lemma KeysByTagThenText(a: Key, b: Key)
    ensures a.tag < b.tag ==> KeyLe(a, b) && !KeyLe(b, a)
    ensures a.tag == b.tag ==>
              var m := CommonPrefix(a.primary, b.primary);
              KeyLe(a, b) <==> m >= |a.primary| || (m < |b.primary| && a.primary[m] < b.primary[m])
  {
    FirstDifferenceDecides(a.primary, b.primary);
  }

  ghost predicate Sorted(es: seq<Entry>) {
    forall i, j :: 0 <= i < j < |es| ==> KeyLe(es[i].content.key, es[j].content.key)
  }

  // ---- The tier ----

  /** Everything but the entry bytes themselves. */
  datatype Index = Index(
    blockSize: nat,
    highWater: nat,
    encodedCount: nat,
    blockStarts: seq<nat>,
    blockTags: Text,
    keyFlat: Text,
    keyOffsets: seq<nat>,
    rank2id: seq<nat>,
    id2rank: seq<nat>)

  datatype Tier = Tier(index: Index, buf: Text)

  ghost predicate DistinctIds(es: seq<Entry>, highWater: nat) {
    && (forall r :: 0 <= r < |es| ==> es[r].id < highWater)
    && (forall r, q :: 0 <= r < q < |es| ==> es[r].id != es[q].id)
  }

  ghost predicate PermutationOf(ix: Index, es: seq<Entry>) {
    && |ix.rank2id| == |es| && |ix.id2rank| == ix.highWater
    && (forall r :: 0 <= r < |es| ==> ix.rank2id[r] == es[r].id)
    && (forall r :: 0 <= r < |es| ==> es[r].id < ix.highWater && ix.id2rank[es[r].id] == r)
    && (forall id :: 0 <= id < ix.highWater ==> ix.id2rank[id] < |es| || ix.id2rank[id] == 0)
  }

  ghost predicate BlockIndexed(ix: Index, l: Layout, b: nat)
    requires WellLaid(l) && b < NumBlocks(|l.entries|)
  {
    && b < |ix.blockStarts| && ix.blockStarts[b] == Offset(l, Base(b))
    && b < |ix.blockTags| && ix.blockTags[b] == FirstKey(l.entries, b).tag
    && b < |ix.keyOffsets| && ix.keyOffsets[b] == |Concat(FirstTexts(l.entries, NumBlocks(|l.entries|)), b)|
  }

  ghost predicate BlocksOf(ix: Index, l: Layout) {
    && WellLaid(l) && ix.blockSize == Base(1) && ix.encodedCount == |l.entries|
    && |ix.blockStarts| == |ix.blockTags| == |ix.keyOffsets| == NumBlocks(|l.entries|)
    && ix.keyFlat == Concat(FirstTexts(l.entries, NumBlocks(|l.entries|)), NumBlocks(|l.entries|))
    && forall b: nat :: b < NumBlocks(|l.entries|) ==> BlockIndexed(ix, l, b)
  }

  /** `ix` indexes the entries of `l` in a dictionary with `highWater` ids. */
  ghost predicate IndexOf(ix: Index, l: Layout, highWater: nat) {
    ix.highWater == highWater && BlocksOf(ix, l) && PermutationOf(ix, l.entries)
  }

  ghost predicate TierOf(t: Tier, l: Layout, highWater: nat) {
    IndexOf(t.index, l, highWater) && t.buf == Buffer(l)
  }

  /** The two tables undo each other: on every rank, and on every encoded id. */
  ghost predicate Inverse(ix: Index, es: seq<Entry>) {
    && (forall r :: 0 <= r < |ix.rank2id| ==> ix.rank2id[r] < |ix.id2rank| && ix.id2rank[ix.rank2id[r]] == r)
    && (forall e :: e in es ==> e.id < |ix.id2rank| && ix.id2rank[e.id] < |ix.rank2id| && ix.rank2id[ix.id2rank[e.id]] == e.id)
  }

  // ---- Building ----

  method AppendEntry(buf: Text, prev: Text, c: Content) returns (r: Text)
    ensures r == buf + EncodeEntry(prev, c)
  {
    PrefixAndSuffix(prev, c.key.primary);
    var lcp := CommonPrefix(prev, c.key.primary);
    var suffix := Suffix(prev, c.key.primary);
    r := WriteVarint(buf, lcp);
    r := WriteFramed(r, suffix);
    r := r + [c.key.tag];
    r := WriteFramed(r, c.aux);
    Regroup(buf, Varint(lcp), Framed(suffix), [c.key.tag], Framed(c.aux));
  }

  lemma Regroup(a: Text, b: Text, c: Text, d: Text, e: Text)
    ensures a + b + c + d + e == a + (b + (c + (d + e)))
  {
  }

  /** The first-key index after the first `i` entries, its offsets cut to 32 bits. */
  ghost predicate KeyIndexUpTo(l: Layout, i: nat, starts: seq<nat>, tags: Text, flat: Text, offsets: seq<nat>) {
    var n := NumBlocks(i);
    var firsts := FirstTexts(l.entries, NumBlocks(|l.entries|));
    && WellLaid(l) && i <= |l.entries|
    && |starts| == |tags| == |offsets| == n && flat == Concat(firsts, n)
    && (forall b: nat :: b < n ==> starts[b] == Truncated32(Offset(l, Base(b))))
    && (forall b: nat :: b < n ==> tags[b] == FirstKey(l.entries, b).tag)
    && (forall b: nat :: b < n ==> offsets[b] == Truncated32(|Concat(firsts, b)|))
  }

  lemma EmptyKeyIndex(l: Layout)
    requires WellLaid(l)
    ensures KeyIndexUpTo(l, 0, [], [], [], [])
  {
  }

  lemma KeyIndexStep(l: Layout, i: nat, starts: seq<nat>, tags: Text, flat: Text, offsets: seq<nat>)
    requires KeyIndexUpTo(l, i, starts, tags, flat, offsets) && i < |l.entries|
    ensures if OffsetIn(i) == 0
            then KeyIndexUpTo(l, i + 1, starts + [Truncated32(Offset(l, i))], tags + [l.entries[i].content.key.tag],
                              flat + l.entries[i].content.key.primary, offsets + [Truncated32(|flat|)])
            else KeyIndexUpTo(l, i + 1, starts, tags, flat, offsets)
  {
    if OffsetIn(i) == 0 {
      assert NumBlocks(i + 1) == NumBlocks(i) + 1 && Base(NumBlocks(i)) == i;
    } else {
      assert NumBlocks(i + 1) == NumBlocks(i);
    }
  }

  /** The first-key texts of the first `b` blocks take no more room than those blocks:
      each block stores its first key in full. */
  lemma {:induction false} KeysNoLongerThanBlocks(l: Layout, b: nat, n: nat)
    requires WellLaid(l) && b <= n <= NumBlocks(|l.entries|) && Base(b) <= |l.entries|
    ensures |Concat(FirstTexts(l.entries, n), b)| <= Offset(l, Base(b))
    decreases b
  {
    if b > 0 {
      KeysNoLongerThanBlocks(l, b - 1, n);
      var i := Base(b - 1);
      assert EncodedAt(l, i) && Previous(l.entries, i) == [];
      EntryLength([], l.entries[i].content);
      OffsetsGrow(l, i + 1, Base(b));
    }
  }

  lemma OffsetsFit(l: Layout, b: nat)
    requires WellLaid(l) && b < NumBlocks(|l.entries|) && FitsU32(|Buffer(l)|)
    ensures FitsU32(Offset(l, Base(b)))
    ensures FitsU32(|Concat(FirstTexts(l.entries, NumBlocks(|l.entries|)), b)|)
  {
    OffsetsGrow(l, Base(b), |l.entries|);
    KeysNoLongerThanBlocks(l, b, NumBlocks(|l.entries|));
  }

  lemma KeyIndexComplete(l: Layout, ix: Index)
    requires KeyIndexUpTo(l, |l.entries|, ix.blockStarts, ix.blockTags, ix.keyFlat, ix.keyOffsets)
    requires ix.blockSize == Base(1) && ix.encodedCount == |l.entries|
    ensures FitsU32(|Buffer(l)|) ==> BlocksOf(ix, l)
  {
    if FitsU32(|Buffer(l)|) {
      forall b: nat | b < NumBlocks(|l.entries|) ensures BlockIndexed(ix, l, b) { OffsetsFit(l, b); }
    }
  }

  method AppendNext(es: seq<Entry>, i: nat, buf: Text, ghost l: Layout) returns (r: Text)
    requires l.entries == es && WellLaid(l) && i < |es| && buf == Concat(l.texts, i)
    ensures r == Concat(l.texts, i + 1)
  {
    assert EncodedAt(l, i);
    var prev := if OffsetIn(i) == 0 then [] else es[i - 1].content.key.primary;
    r := AppendEntry(buf, prev, es[i].content);
  }

  /** A new block starts at every eighth entry and is indexed by that entry's key. */
  method IndexNext(es: seq<Entry>, i: nat, bufLen: nat, starts: seq<nat>, tags: Text, flat: Text, offsets: seq<nat>,
                   ghost l: Layout)
      returns (starts': seq<nat>, tags': Text, flat': Text, offsets': seq<nat>)
    requires l.entries == es && i < |es| && KeyIndexUpTo(l, i, starts, tags, flat, offsets) && bufLen == Offset(l, i)
    ensures KeyIndexUpTo(l, i + 1, starts', tags', flat', offsets')
  {
    KeyIndexStep(l, i, starts, tags, flat, offsets);
    starts', tags', flat', offsets' := starts, tags, flat, offsets;
    if OffsetIn(i) == 0 {
      starts', tags' := starts + [Truncated32(bufLen)], tags + [es[i].content.key.tag];
      flat', offsets' := flat + es[i].content.key.primary, offsets + [Truncated32(|flat|)];
    }
  }

  /** Builds the tier over entries the caller sorted. Offsets are 32 bits wide, so the
      result is only right while the buffer is shorter than 2^32 bytes. */
  method Build(es: seq<Entry>, highWater: nat) returns (t: Tier, ghost l: Layout)
    requires DistinctIds(es, highWater)
    ensures l.entries == es && WellLaid(l) && t.buf == Buffer(l) && t.index.highWater == highWater
    ensures |t.index.rank2id| == |es| && Inverse(t.index, es)
    ensures FitsU32(|t.buf|) ==> TierOf(t, l, highWater)
  {
    hide FitsU32, Inverse, Packed, BitWidth, KeyIndexUpTo, BlocksOf;
    l := LayOut(es);
    EmptyKeyIndex(l);
    var buf: Text, tags: Text, flat: Text := [], [], [];
    var starts: seq<nat>, offsets: seq<nat>, rank2id: seq<nat> := [], [], [];
    var idBits := BitWidth(if highWater == 0 then 0 else highWater - 1);
    for i := 0 to |es|
      invariant buf == Concat(l.texts, i) && KeyIndexUpTo(l, i, starts, tags, flat, offsets)
      invariant |rank2id| == i && forall r :: 0 <= r < i ==> rank2id[r] == es[r].id
    {
      starts, tags, flat, offsets := IndexNext(es, i, |buf|, starts, tags, flat, offsets, l);
      buf := AppendNext(es, i, buf, l);
      PackedExactly(es[i].id, highWater - 1);
      rank2id := rank2id + [Packed(es[i].id, idBits)];
    }
    var id2rank := InvertRanks(es, highWater);
    t := Tier(Index(Base(1), highWater, |es|, starts, tags, flat, offsets, rank2id, id2rank), buf);
    KeyIndexComplete(l, t.index);
    TablesInvert(t.index, es);
  }

  lemma TablesInvert(ix: Index, es: seq<Entry>)
    requires PermutationOf(ix, es)
    ensures Inverse(ix, es)
  {
    forall e | e in es ensures e.id < |ix.id2rank| && ix.id2rank[e.id] < |ix.rank2id| && ix.rank2id[ix.id2rank[e.id]] == e.id {
      var r: nat :| r < |es| && es[r] == e;
    }
  }

  /** Ranks by id, zero at the ids no entry has. */
  method InvertRanks(es: seq<Entry>, highWater: nat) returns (id2rank: seq<nat>)
    requires DistinctIds(es, highWater)
    ensures |id2rank| == highWater
    ensures forall r :: 0 <= r < |es| ==> id2rank[es[r].id] == r
    ensures forall id :: 0 <= id < highWater ==> id2rank[id] < |es| || id2rank[id] == 0
  {
    var rankBits := BitWidth(if |es| == 0 then 0 else |es| - 1);
    id2rank := seq(highWater, _ => 0);
    for r := 0 to |es|
      invariant |id2rank| == highWater
      invariant forall q :: 0 <= q < r ==> id2rank[es[q].id] == q
      invariant forall id :: 0 <= id < highWater ==> id2rank[id] < |es| || id2rank[id] == 0
    {
      PackedExactly(r, |es| - 1);
      id2rank := id2rank[es[r].id := Packed(r, rankBits)];
    }
  }

  // ---- Decoding ----

  function BlockRange(ix: Index, bufLen: nat, b: nat): (nat, nat)
    requires b < |ix.blockStarts|
  {
    (ix.blockStarts[b], if b + 1 < |ix.blockStarts| then ix.blockStarts[b + 1] else bufLen)
  }

  lemma BlockRangeIsBlock(ix: Index, l: Layout, b: nat)
    requires BlocksOf(ix, l) && b < NumBlocks(|l.entries|)
    ensures BlockRange(ix, |Buffer(l)|, b) == (Offset(l, Base(b)), Offset(l, BlockEnd(|l.entries|, b)))
    ensures Offset(l, Base(b)) <= Offset(l, BlockEnd(|l.entries|, b)) <= |Buffer(l)|
  {
    assert BlockIndexed(ix, l, b);
    if b + 1 < NumBlocks(|l.entries|) { assert BlockIndexed(ix, l, b + 1); }
    OffsetsGrow(l, Base(b), BlockEnd(|l.entries|, b));
    OffsetsGrow(l, BlockEnd(|l.entries|, b), |l.entries|);
  }

  lemma BufferHoldsBlock(l: Layout, b: nat)
    requires WellLaid(l) && b < NumBlocks(|l.entries|)
    ensures HoldsRun(Buffer(l), l, Base(b), BlockEnd(|l.entries|, b), 0)
  {
    forall k: nat | k < |l.entries| ensures HoldsEntry(Buffer(l), l, k, 0) { ConcatAt(l.texts, k); }
  }

  method DecodeBlock(t: Tier, b: nat, ghost l: Layout) returns (out: seq<Content>)
    requires BlocksOf(t.index, l) && t.buf == Buffer(l) && b < NumBlocks(|l.entries|)
    ensures |out| == BlockEnd(|l.entries|, b) - Base(b) && ContentsFrom(out, l.entries, Base(b))
  {
    BlockRangeIsBlock(t.index, l, b);
    BufferHoldsBlock(l, b);
    var (start, end) := BlockRange(t.index, |t.buf|, b);
    out := DecodeRun(t.buf, start, end, l, b, 0);
  }

  // ---- Lookup ----

  function KeyRange(ix: Index, b: nat): (nat, nat)
    requires b < |ix.keyOffsets|
  {
    (ix.keyOffsets[b], if b + 1 < |ix.keyOffsets| then ix.keyOffsets[b + 1] else |ix.keyFlat|)
  }

  lemma KeyRangeIsFirstKey(ix: Index, l: Layout, b: nat)
    requires BlocksOf(ix, l) && b < NumBlocks(|l.entries|)
    ensures var (start, end) := KeyRange(ix, b);
            && start <= end <= |ix.keyFlat|
            && Key(ix.blockTags[b], ix.keyFlat[start..end]) == FirstKey(l.entries, b)
  {
    assert BlockIndexed(ix, l, b);
    if b + 1 < NumBlocks(|l.entries|) { assert BlockIndexed(ix, l, b + 1); }
    ConcatAt(FirstTexts(l.entries, NumBlocks(|l.entries|)), b);
  }

  /** One past the last of the first `b` blocks whose first key is at most `key`. */
  ghost function PartitionPoint(es: seq<Entry>, key: Key, b: nat): nat
    requires b <= NumBlocks(|es|)
  {
    if b == 0 || KeyLe(FirstKey(es, b - 1), key) then b else PartitionPoint(es, key, b - 1)
  }

  /** The block a lookup jumps to; nothing before it is ever scanned. */
  ghost function JumpBlock(es: seq<Entry>, key: Key): nat {
    var p := PartitionPoint(es, key, NumBlocks(|es|));
    if p == 0 then 0 else p - 1
  }

  lemma {:induction false} PartitionPointUnique(es: seq<Entry>, key: Key, lo: nat, b: nat)
    requires lo <= b <= NumBlocks(|es|)
    requires lo > 0 ==> KeyLe(FirstKey(es, lo - 1), key)
    requires forall d :: lo <= d < b ==> !KeyLe(FirstKey(es, d), key)
    ensures PartitionPoint(es, key, b) == lo
    decreases b
  {
    if b > lo { PartitionPointUnique(es, key, lo, b - 1); }
  }

  /** Binary search over the first-key index. */
  method FindJumpBlock(ix: Index, target: Key, ghost l: Layout) returns (blk: nat)
    requires BlocksOf(ix, l) && Sorted(l.entries)
    ensures blk == JumpBlock(l.entries, target)
  {
    ghost var es := l.entries;
    var lo, hi := 0, |ix.blockStarts|;
    while lo < hi
      invariant 0 <= lo <= hi <= NumBlocks(|es|)
      invariant lo > 0 ==> KeyLe(FirstKey(es, lo - 1), target)
      invariant forall d :: hi <= d < NumBlocks(|es|) ==> !KeyLe(FirstKey(es, d), target)
    {
      var mid := lo + (hi - lo) / 2;
      KeyRangeIsFirstKey(ix, l, mid);
      var (start, end) := KeyRange(ix, mid);
      if KeyLe(Key(ix.blockTags[mid], ix.keyFlat[start..end]), target) {
        lo := mid + 1;
      } else {
        forall d | mid <= d < hi ensures !KeyLe(FirstKey(es, d), target) {
          KeyOrder(FirstKey(es, mid), FirstKey(es, d), target);
          assert d > mid ==> KeyLe(es[Base(mid)].content.key, es[Base(d)].content.key);
        }
        hi := mid;
      }
    }
    PartitionPointUnique(es, target, lo, NumBlocks(|es|));
    blk := if lo == 0 then 0 else lo - 1;
  }

  /** The id of the first entry at rank `r` or later that holds `c`. */
  ghost function FirstMatch(es: seq<Entry>, r: nat, c: Content): Option<nat>
    decreases |es| - r
  {
    if r >= |es| then None
    else if es[r].content == c then Some(es[r].id)
    else FirstMatch(es, r + 1, c)
  }

  /** What looking up `c` answers. */
  ghost function Lookup(es: seq<Entry>, c: Content): Option<nat> {
    FirstMatch(es, Base(JumpBlock(es, c.key)), c)
  }

  /** Scans one decoded block. `stop` tells that no later entry can match. */
  method ScanBlock(ix: Index, decoded: seq<Content>, rank: nat, c: Content, ghost es: seq<Entry>)
      returns (stop: bool, found: Option<nat>)
    requires PermutationOf(ix, es) && Sorted(es) && ContentsFrom(decoded, es, rank)
    ensures stop ==> found == FirstMatch(es, rank, c)
    ensures !stop ==> FirstMatch(es, rank, c) == FirstMatch(es, rank + |decoded|, c)
  {
    for j := 0 to |decoded|
      invariant FirstMatch(es, rank, c) == FirstMatch(es, rank + j, c)
    {
      if !KeyLe(decoded[j].key, c.key) {
        PastTheKey(es, rank + j, c);
        return true, None;
      }
      if decoded[j] == c {
        return true, Some(ix.rank2id[rank + j]);
      }
    }
    return false, None;
  }

  lemma {:induction false} PastTheKey(es: seq<Entry>, r: nat, c: Content)
    requires Sorted(es) && r < |es| && !KeyLe(es[r].content.key, c.key)
    ensures FirstMatch(es, r, c) == None
    decreases |es| - r
  {
    KeyOrder(c.key, c.key, c.key);
    if r + 1 < |es| {
      KeyOrder(es[r].content.key, es[r + 1].content.key, c.key);
      PastTheKey(es, r + 1, c);
    }
  }

  method GetId(t: Tier, c: Content, ghost l: Layout) returns (r: Option<nat>)
    requires TierOf(t, l, t.index.highWater) && Sorted(l.entries)
    ensures r == Lookup(l.entries, c)
  {
    ghost var es := l.entries;
    if t.index.encodedCount == 0 { return None; }
    var b := FindJumpBlock(t.index, c.key, l);
    JumpBlockExists(es, c.key);
    while b < |t.index.blockStarts|
      invariant b <= NumBlocks(|es|)
      invariant Lookup(es, c) == FirstMatch(es, Base(b), c)
    {
      var decoded := DecodeBlock(t, b, l);
      var stop, found := ScanBlock(t.index, decoded, Base(b), c, es);
      if stop { return found; }
      NextBlock(es, b, c);
      b := b + 1;
    }
    return None;
  }

  lemma NextBlock(es: seq<Entry>, b: nat, c: Content)
    requires b < NumBlocks(|es|)
    ensures FirstMatch(es, BlockEnd(|es|, b), c) == FirstMatch(es, Base(b + 1), c)
  {
  }

  lemma {:induction false} JumpBlockExists(es: seq<Entry>, key: Key)
    requires es != []
    ensures JumpBlock(es, key) < NumBlocks(|es|)
  {
    PartitionPointBound(es, key, NumBlocks(|es|));
  }

  lemma {:induction false} PartitionPointBound(es: seq<Entry>, key: Key, b: nat)
    requires b <= NumBlocks(|es|)
    ensures PartitionPoint(es, key, b) <= b
    ensures PartitionPoint(es, key, b) > 0 ==> KeyLe(FirstKey(es, PartitionPoint(es, key, b) - 1), key)
    ensures forall d :: PartitionPoint(es, key, b) <= d < b ==> !KeyLe(FirstKey(es, d), key)
    decreases b
  {
    if b > 0 && !KeyLe(FirstKey(es, b - 1), key) { PartitionPointBound(es, key, b - 1); }
  }

  /** The content stored under `id`; out of range there is none. An id no entry has
      would read rank 0, which is why callers must never ask for one. */
  ghost function Decoded(ix: Index, es: seq<Entry>, id: nat): Option<Content>
    requires PermutationOf(ix, es)
  {
    if id >= ix.highWater || es == [] then None else Some(es[ix.id2rank[id]].content)
  }

  method DecodeId(t: Tier, id: nat, ghost l: Layout) returns (r: Option<Content>)
    requires TierOf(t, l, t.index.highWater)
    ensures r == Decoded(t.index, l.entries, id)
    ensures forall k :: 0 <= k < |l.entries| && l.entries[k].id == id ==> r == Some(l.entries[k].content)
  {
    if id >= t.index.highWater || t.index.encodedCount == 0 { return None; }
    var rank := t.index.id2rank[id];
    var decoded := DecodeBlock(t, BlockOf(rank), l);
    r := Some(decoded[OffsetIn(rank)]);
  }

  ghost function BlockEntries(es: seq<Entry>, b: nat): seq<Entry>
    requires b < NumBlocks(|es|)
  {
    es[Base(b)..BlockEnd(|es|, b)]
  }

  /** The whole block around `id`. */
  ghost function BlockFor(ix: Index, es: seq<Entry>, id: nat): Option<seq<Entry>>
    requires PermutationOf(ix, es)
  {
    if id >= ix.highWater || es == [] then None else Some(BlockEntries(es, BlockOf(ix.id2rank[id])))
  }

  /** Looks the ids of consecutive ranks up. */
  method AttachIds(ix: Index, decoded: seq<Content>, rank: nat, ghost es: seq<Entry>) returns (r: seq<Entry>)
    requires PermutationOf(ix, es) && ContentsFrom(decoded, es, rank)
    ensures r == es[rank..rank + |decoded|]
  {
    r := [];
    for i := 0 to |decoded|
      invariant |r| == i && forall j :: 0 <= j < i ==> r[j] == es[rank + j]
    {
      r := r + [Entry(decoded[i], ix.rank2id[rank + i])];
    }
  }

  method DecodeBlockForId(t: Tier, id: nat, ghost l: Layout) returns (r: Option<seq<Entry>>)
    requires TierOf(t, l, t.index.highWater)
    ensures r == BlockFor(t.index, l.entries, id)
  {
    if id >= t.index.highWater || t.index.encodedCount == 0 { return None; }
    var b := BlockOf(t.index.id2rank[id]);
    var decoded := DecodeBlock(t, b, l);
    var es := AttachIds(t.index, decoded, Base(b), l.entries);
    assert es == BlockEntries(l.entries, b);
    return Some(es);
  }
}
