/** The Front-Coded byte format: each entry stores how much of the previous entry's
    key it shares, the rest of its key, a tag and an auxiliary string; every block
    of entries starts afresh. */
module FrontCoding {
  import opened Options
  import opened Bytes

  datatype Key = Key(tag: Byte, primary: Text)
  datatype Content = Content(key: Key, aux: Text)
  datatype Entry = Entry(content: Content, id: nat)

  // ---- Encoding ----

  /** What is left of `primary` after the prefix it shares with `prev`. */
  function Suffix(prev: Text, primary: Text): Text {
    CommonPrefixMaximal(prev, primary);
    primary[CommonPrefix(prev, primary)..]
  }

  lemma PrefixAndSuffix(prev: Text, primary: Text)
    ensures CommonPrefix(prev, primary) <= |prev|
    ensures prev[..CommonPrefix(prev, primary)] + Suffix(prev, primary) == primary
    ensures |Suffix([], primary)| == |primary|
  {
    CommonPrefixMaximal(prev, primary);
    CommonPrefixMaximal([], primary);
  }

  function EncodeEntry(prev: Text, c: Content): Text {
    Varint(CommonPrefix(prev, c.key.primary)) + (Framed(Suffix(prev, c.key.primary)) + ([c.key.tag] + Framed(c.aux)))
  }

  // Blocks hold eight entries; the number stands literally in these functions.

  /** Rank of the first entry of block `b`. */
  function Base(b: nat): nat { 8 * b }

  function BlockOf(rank: nat): nat { rank / 8 }

  function OffsetIn(rank: nat): nat { rank % 8 }

  function NumBlocks(n: nat): nat { (n + 7) / 8 }

  /** One past the last rank of block `b` of `n` entries. */
  function BlockEnd(n: nat, b: nat): nat { if Base(b + 1) < n then Base(b + 1) else n }

  /** The key an entry shares its prefix with; every block starts its chain afresh. */
  function Previous(es: seq<Entry>, i: nat): Text
    requires i <= |es|
  {
    if OffsetIn(i) == 0 then [] else es[i - 1].content.key.primary
  }

  /** Entries in order together with the encoding of each. */
  datatype Layout = Layout(entries: seq<Entry>, texts: seq<Text>)

  ghost predicate EncodedAt(l: Layout, i: nat) {
    && i < |l.entries| && i < |l.texts|
    && l.texts[i] == EncodeEntry(Previous(l.entries, i), l.entries[i].content)
  }

  ghost predicate WellLaid(l: Layout) {
    |l.texts| == |l.entries| && forall i: nat :: i < |l.entries| ==> EncodedAt(l, i)
  }

  /** Every entry list has a layout. */
  lemma LayOut(es: seq<Entry>) returns (l: Layout)
    ensures l.entries == es && WellLaid(l)
  {
    var texts := [];
    for i := 0 to |es|
      invariant |texts| == i && forall k: nat :: k < i ==> EncodedAt(Layout(es, texts), k)
    {
      ghost var before := texts;
      texts := texts + [EncodeEntry(Previous(es, i), es[i].content)];
      forall k: nat | k <= i ensures EncodedAt(Layout(es, texts), k) {
        if k < i { assert EncodedAt(Layout(es, before), k); }
      }
    }
    l := Layout(es, texts);
  }

  /** Byte offset of the entry of rank `i`. */
  ghost function Offset(l: Layout, i: nat): nat
    requires i <= |l.texts|
  {
    |Concat(l.texts, i)|
  }

  ghost function Buffer(l: Layout): Text { Concat(l.texts, |l.texts|) }

  function FirstKey(es: seq<Entry>, b: nat): Key
    requires b < NumBlocks(|es|)
  {
    es[Base(b)].content.key
  }

  /** The texts of the first keys of the first `n` blocks. */
  function FirstTexts(es: seq<Entry>, n: nat): (r: seq<Text>)
    requires n <= NumBlocks(|es|)
    ensures |r| == n && forall b :: 0 <= b < n ==> r[b] == FirstKey(es, b).primary
  {
    if n == 0 then [] else FirstTexts(es, n - 1) + [FirstKey(es, n - 1).primary]
  }

  /** An entry takes room, and the first of a block stores its whole key. */
  lemma EntryLength(prev: Text, c: Content)
    ensures |EncodeEntry(prev, c)| > |Suffix(prev, c.key.primary)|
    ensures |EncodeEntry([], c)| > |c.key.primary|
  {
    PrefixAndSuffix(prev, c.key.primary);
  }

  // ---- Decoding ----

  /** The parts of an encoded entry stand one after the other. */
  ghost predicate LaidOut(buf: Text, pos: nat, prev: Text, c: Content, p1: nat, p2: nat, end: nat) {
    && VarintAt(buf, pos) == Some((CommonPrefix(prev, c.key.primary), p1))
    && At(buf, p1, Framed(Suffix(prev, c.key.primary))) && p2 == p1 + |Framed(Suffix(prev, c.key.primary))|
    && At(buf, p2, [c.key.tag]) && At(buf, p2 + 1, Framed(c.aux))
    && end == p2 + 1 + |Framed(c.aux)|
  }

  lemma EntryLayout(buf: Text, pos: nat, prev: Text, c: Content) returns (p1: nat, p2: nat)
    requires At(buf, pos, EncodeEntry(prev, c))
    ensures LaidOut(buf, pos, prev, c, p1, p2, pos + |EncodeEntry(prev, c)|)
  {
    var lcp := CommonPrefix(prev, c.key.primary);
    var head, suffix, aux := Varint(lcp), Framed(Suffix(prev, c.key.primary)), Framed(c.aux);
    p1, p2 := SplitEntry(buf, pos, head, suffix, c.key.tag, aux);
    VarintRoundTrip(buf, pos, lcp);
  }

  lemma SplitEntry(buf: Text, pos: nat, head: Text, suffix: Text, tag: Byte, aux: Text) returns (p1: nat, p2: nat)
    requires At(buf, pos, head + (suffix + ([tag] + aux)))
    ensures At(buf, pos, head) && p1 == pos + |head| && At(buf, p1, suffix) && p2 == p1 + |suffix|
    ensures At(buf, p2, [tag]) && At(buf, p2 + 1, aux)
  {
    p1, p2 := pos + |head|, pos + |head| + |suffix|;
    AtSplit(buf, pos, head, suffix + ([tag] + aux));
    AtSplit(buf, p1, suffix, [tag] + aux);
    AtSplit(buf, p2, [tag], aux);
  }

  method DecodeEntry(buf: Text, pos: nat, prev: Text, ghost c: Content) returns (out: Content, end: nat)
    requires At(buf, pos, EncodeEntry(prev, c))
    ensures out == c && end == pos + |EncodeEntry(prev, c)|
  {
    ghost var q1, q2 := EntryLayout(buf, pos, prev, c);
    out, end := ReadEntry(buf, pos, prev, c, q1, q2, pos + |EncodeEntry(prev, c)|);
  }

  method ReadEntry(buf: Text, pos: nat, prev: Text, ghost c: Content, ghost q1: nat, ghost q2: nat, ghost stop: nat)
      returns (out: Content, end: nat)
    requires LaidOut(buf, pos, prev, c, q1, q2, stop)
    ensures out == c && end == stop
  {
    PrefixAndSuffix(prev, c.key.primary);
    var lcp, p1 := ReadVarint(buf, pos);
    var suffix, p2 := ReadFramed(buf, p1, Suffix(prev, c.key.primary));
    AtByte(buf, p2, c.key.tag);
    var tag := buf[p2];
    var aux;
    aux, end := ReadFramed(buf, p2 + 1, c.aux);
    out := Content(Key(tag, prev[..lcp] + suffix), aux);
  }

  /** `cs` are the contents of the entries from rank `lo` on. */
  ghost predicate ContentsFrom(cs: seq<Content>, es: seq<Entry>, lo: nat) {
    lo + |cs| <= |es| && forall i :: 0 <= i < |cs| ==> cs[i] == es[lo + i].content
  }

  /** The encoding of rank `k` stands in `buf`, which leaves out the first `skipped` bytes. */
  ghost predicate HoldsEntry(buf: Text, l: Layout, k: nat, skipped: nat) {
    k < |l.texts| && Offset(l, k) >= skipped && At(buf, Offset(l, k) - skipped, l.texts[k])
  }

  ghost predicate HoldsRun(buf: Text, l: Layout, lo: nat, hi: nat, skipped: nat) {
    lo <= hi <= |l.texts| && forall k: nat :: lo <= k < hi ==> HoldsEntry(buf, l, k, skipped)
  }

  lemma PieceIsEntry(buf: Text, l: Layout, k: nat, skipped: nat, pos: nat, prev: Text)
    requires EncodedAt(l, k) && HoldsEntry(buf, l, k, skipped)
    requires pos + skipped == Offset(l, k) && prev == Previous(l.entries, k)
    ensures At(buf, pos, EncodeEntry(prev, l.entries[k].content))
    ensures pos + |EncodeEntry(prev, l.entries[k].content)| + skipped == Offset(l, k + 1)
  {
  }

  method DecodePiece(buf: Text, pos: nat, prev: Text, ghost l: Layout, ghost k: nat, ghost skipped: nat)
      returns (out: Content, next: nat)
    requires WellLaid(l) && HoldsEntry(buf, l, k, skipped)
    requires pos + skipped == Offset(l, k) && prev == Previous(l.entries, k)
    ensures out == l.entries[k].content && next + skipped == Offset(l, k + 1)
  {
    assert EncodedAt(l, k);
    PieceIsEntry(buf, l, k, skipped, pos, prev);
    out, next := DecodeEntry(buf, pos, prev, l.entries[k].content);
  }

  /** Decodes the entries of block `b`, rebuilding each key from the one before. */
  method DecodeRun(buf: Text, start: nat, end: nat, ghost l: Layout, ghost b: nat, ghost skipped: nat)
      returns (out: seq<Content>)
    requires WellLaid(l) && b < NumBlocks(|l.entries|)
    requires HoldsRun(buf, l, Base(b), BlockEnd(|l.entries|, b), skipped)
    requires start + skipped == Offset(l, Base(b)) && end + skipped == Offset(l, BlockEnd(|l.entries|, b))
    ensures |out| == BlockEnd(|l.entries|, b) - Base(b) && ContentsFrom(out, l.entries, Base(b))
  {
    ghost var lo, hi := Base(b), BlockEnd(|l.entries|, b);
    out := [];
    var pos: nat, prev: Text := start, [];
    while pos < end
      invariant lo + |out| <= hi && ContentsFrom(out, l.entries, lo)
      invariant pos + skipped == Offset(l, lo + |out|)
      invariant lo + |out| < hi ==> prev == Previous(l.entries, lo + |out|)
      decreases hi - lo - |out|
    {
      var c, next := DecodePiece(buf, pos, prev, l, lo + |out|, skipped);
      out := out + [c];
      pos, prev := next, c.key.primary;
    }
    OffsetsGrow(l, lo + |out|, hi);
  }

  lemma OffsetsGrow(l: Layout, m: nat, n: nat)
    requires WellLaid(l) && m <= n <= |l.entries|
    ensures Offset(l, m) + (n - m) <= Offset(l, n)
  {
    forall i | m <= i < n ensures l.texts[i] != [] {
      assert EncodedAt(l, i);
      EntryLength(Previous(l.entries, i), l.entries[i].content);
    }
    ConcatGrows(l.texts, m, n);
  }
}
