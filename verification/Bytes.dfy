/** Byte strings, their lexicographic order, and unsigned LEB128 varints. */
module Bytes {
  import opened Options

  type Byte = b: nat | b < 256
  type Text = seq<Byte>

  // ---- Lexicographic order ----

  predicate LexLe(a: Text, b: Text) {
    a == [] || (b != [] && (a[0] < b[0] || (a[0] == b[0] && LexLe(a[1..], b[1..]))))
  }

  lemma {:induction false} LexReflexive(a: Text)
    ensures LexLe(a, a)
    decreases |a|
  {
    if a != [] { LexReflexive(a[1..]); }
  }

  lemma {:induction false} LexTotal(a: Text, b: Text)
    ensures LexLe(a, b) || LexLe(b, a)
    decreases |a|
  {
    if a != [] && b != [] { LexTotal(a[1..], b[1..]); }
  }

  lemma {:induction false} LexTransitive(a: Text, b: Text, c: Text)
    requires LexLe(a, b) && LexLe(b, c)
    ensures LexLe(a, c)
    decreases |a|
  {
    if a != [] && a[0] == b[0] == c[0] { LexTransitive(a[1..], b[1..], c[1..]); }
  }

  lemma {:induction false} LexAntisymmetric(a: Text, b: Text)
    requires LexLe(a, b) && LexLe(b, a)
    ensures a == b
    decreases |a|
  {
    if a != [] {
      LexAntisymmetric(a[1..], b[1..]);
      assert a == [a[0]] + a[1..] && b == [b[0]] + b[1..];
    }
  }

  function CommonPrefixFrom(a: Text, b: Text, n: nat): nat
    decreases |a| - n
  {
    if n < |a| && n < |b| && a[n] == b[n] then CommonPrefixFrom(a, b, n + 1) else n
  }

  /** Length of the longest common prefix. */
  function CommonPrefix(a: Text, b: Text): nat { CommonPrefixFrom(a, b, 0) }

  lemma {:induction false} CommonPrefixFromMaximal(a: Text, b: Text, n: nat)
    requires n <= |a| && n <= |b| && a[..n] == b[..n]
    ensures var m := CommonPrefixFrom(a, b, n);
            n <= m && m <= |a| && m <= |b| && a[..m] == b[..m] && (m < |a| && m < |b| ==> a[m] != b[m])
    decreases |a| - n
  {
    if n < |a| && n < |b| && a[n] == b[n] {
      assert a[..n + 1] == a[..n] + [a[n]] && b[..n + 1] == b[..n] + [b[n]];
      CommonPrefixFromMaximal(a, b, n + 1);
    }
  }

  lemma CommonPrefixMaximal(a: Text, b: Text)
    ensures var m := CommonPrefix(a, b);
            m <= |a| && m <= |b| && a[..m] == b[..m] && (m < |a| && m < |b| ==> a[m] != b[m])
  {
    CommonPrefixFromMaximal(a, b, 0);
  }

  lemma {:induction false} LexLeFrom(a: Text, b: Text, n: nat)
    requires n <= |a| && n <= |b|
    ensures var m := CommonPrefixFrom(a, b, n); LexLe(a[n..], b[n..]) <==> m >= |a| || (m < |b| && a[m] < b[m])
    decreases |a| - n
  {
    if n < |a| && n < |b| && a[n] == b[n] {
      assert a[n..][1..] == a[n + 1..] && b[n..][1..] == b[n + 1..];
      LexLeFrom(a, b, n + 1);
    }
  }

  /** The first byte that differs decides, and a prefix comes first. */
  lemma FirstDifferenceDecides(a: Text, b: Text)
    ensures var m := CommonPrefix(a, b); LexLe(a, b) <==> m >= |a| || (m < |b| && a[m] < b[m])
  {
    assert a[0..] == a && b[0..] == b;
    LexLeFrom(a, b, 0);
    CommonPrefixMaximal(a, b);
  }

  // ---- Occurrence of one byte string inside another ----

  ghost predicate At(buf: Text, pos: nat, x: Text) {
    pos + |x| <= |buf| && buf[pos..pos + |x|] == x
  }

  lemma AtSplit(buf: Text, pos: nat, x: Text, y: Text)
    ensures At(buf, pos, x + y) <==> At(buf, pos, x) && At(buf, pos + |x|, y)
  {
    if pos + |x + y| <= |buf| {
      var w := buf[pos..pos + |x + y|];
      assert w == buf[pos..pos + |x|] + buf[pos + |x|..pos + |x + y|];
      if w == x + y {
        assert w[..|x|] == x && w[|x|..] == y;
      }
    }
  }

  lemma AtByte(buf: Text, pos: nat, b: Byte)
    ensures At(buf, pos, [b]) <==> pos < |buf| && buf[pos] == b
  {
  }

  // ---- Varints ----

  /** Seven bits a byte, least significant first, the top bit marking continuation. */
  function Varint(v: nat): Text {
    if v < 128 then [v] else [v % 128 + 128] + Varint(v / 128)
  }

  /** Value and end position of the varint at `pos`; nothing when the buffer ends early. */
  function VarintAt(buf: Text, pos: nat): (r: Option<(nat, nat)>)
    ensures r.Some? ==> pos < r.value.1 <= |buf|
    decreases |buf| - pos
  {
    if pos >= |buf| then None
    else if buf[pos] < 128 then Some((buf[pos], pos + 1))
    else
      match VarintAt(buf, pos + 1)
      case None => None
      case Some((v, end)) => Some((buf[pos] - 128 + 128 * v, end))
  }

  /** Reading undoes writing, wherever the varint stands. */
  lemma {:induction false} VarintRoundTrip(buf: Text, pos: nat, v: nat)
    requires At(buf, pos, Varint(v))
    ensures VarintAt(buf, pos) == Some((v, pos + |Varint(v)|))
    decreases v
  {
    if v < 128 {
      AtByte(buf, pos, v);
    } else {
      AtSplit(buf, pos, [v % 128 + 128], Varint(v / 128));
      AtByte(buf, pos, v % 128 + 128);
      VarintRoundTrip(buf, pos + 1, v / 128);
    }
  }

  /** Nothing is read exactly when no byte ends the number. */
  lemma {:induction false} VarintNeverEnds(buf: Text, pos: nat)
    ensures VarintAt(buf, pos).None? <==> forall i :: pos <= i < |buf| ==> buf[i] >= 128
    decreases |buf| - pos
  {
    if pos < |buf| && buf[pos] >= 128 { VarintNeverEnds(buf, pos + 1); }
  }

  /** Seven bits a byte: 300 is 44 + 2 * 128. */
  lemma VarintOf300()
    ensures Varint(300) == [172, 2]
  {
  }

  method WriteVarint(buf: Text, v: nat) returns (r: Text)
    ensures r == buf + Varint(v)
  {
    r := buf;
    var rest := v;
    while rest >= 128
      invariant r + Varint(rest) == buf + Varint(v)
    {
      assert r + Varint(rest) == (r + [rest % 128 + 128]) + Varint(rest / 128);
      r := r + [rest % 128 + 128];
      rest := rest / 128;
    }
    r := r + [rest];
  }

  lemma ShiftedDigit(weight: nat, digit: nat, v: nat)
    ensures weight * (digit + 128 * v) == digit * weight + weight * 128 * v
  {
    assert weight * (digit + 128 * v) == weight * digit + weight * (128 * v);
  }

  method ReadVarint(buf: Text, pos: nat) returns (v: nat, end: nat)
    requires VarintAt(buf, pos).Some?
    ensures VarintAt(buf, pos) == Some((v, end))
  {
    v, end := 0, pos;
    var weight: nat := 1;
    while buf[end] >= 128
      invariant VarintAt(buf, end).Some? && pos <= end
      invariant VarintAt(buf, pos).value.0 == v + weight * VarintAt(buf, end).value.0
      invariant VarintAt(buf, pos).value.1 == VarintAt(buf, end).value.1
      decreases |buf| - end
    {
      ShiftedDigit(weight, buf[end] - 128, VarintAt(buf, end + 1).value.0);
      v := v + (buf[end] - 128) * weight;
      weight := weight * 128;
      end := end + 1;
    }
    v := v + buf[end] * weight;
    end := end + 1;
  }

  // ---- Length-prefixed strings ----

  function Framed(x: Text): Text { Varint(|x|) + x }

  lemma FramedLayout(buf: Text, pos: nat, x: Text)
    requires At(buf, pos, Framed(x))
    ensures VarintAt(buf, pos) == Some((|x|, pos + |Varint(|x|)|))
    ensures At(buf, pos + |Varint(|x|)|, x)
  {
    AtSplit(buf, pos, Varint(|x|), x);
    VarintRoundTrip(buf, pos, |x|);
  }

  method WriteFramed(buf: Text, x: Text) returns (r: Text)
    ensures r == buf + Framed(x)
  {
    r := WriteVarint(buf, |x|);
    assert (buf + Varint(|x|)) + x == buf + Framed(x);
    r := r + x;
  }

  method ReadFramed(buf: Text, pos: nat, ghost x: Text) returns (r: Text, end: nat)
    requires At(buf, pos, Framed(x))
    ensures r == x && end == pos + |Framed(x)|
  {
    FramedLayout(buf, pos, x);
    var len, p := ReadVarint(buf, pos);
    r, end := buf[p..p + len], p + len;
  }

  // ---- Concatenation with remembered offsets ----

  /** The first `n` pieces back to back. */
  function Concat(pieces: seq<Text>, n: nat): Text
    requires n <= |pieces|
  {
    if n == 0 then [] else Concat(pieces, n - 1) + pieces[n - 1]
  }

  lemma {:induction false} ConcatPrefix(pieces: seq<Text>, m: nat, n: nat)
    requires m <= n <= |pieces|
    ensures |Concat(pieces, m)| <= |Concat(pieces, n)| && Concat(pieces, n)[..|Concat(pieces, m)|] == Concat(pieces, m)
    decreases n
  {
    if m < n { ConcatPrefix(pieces, m, n - 1); }
  }

  /** Piece `n` stands at the offset the earlier pieces reach. */
  lemma ConcatAt(pieces: seq<Text>, n: nat)
    requires n < |pieces|
    ensures At(Concat(pieces, |pieces|), |Concat(pieces, n)|, pieces[n])
    ensures |Concat(pieces, n)| + |pieces[n]| == |Concat(pieces, n + 1)| <= |Concat(pieces, |pieces|)|
  {
    ConcatPrefix(pieces, n + 1, |pieces|);
    var all, whole := Concat(pieces, |pieces|), Concat(pieces, n + 1);
    assert all[..|whole|] == whole;
    assert all[|Concat(pieces, n)|..|whole|] == whole[|Concat(pieces, n)|..];
  }

  /** Sampling some pieces never gives more bytes than taking them all. */
  lemma {:induction false} ConcatGrows(pieces: seq<Text>, m: nat, n: nat)
    requires m <= n <= |pieces| && forall i :: m <= i < n ==> pieces[i] != []
    ensures n - m <= |Concat(pieces, n)| - |Concat(pieces, m)|
    decreases n
  {
    if m < n { ConcatGrows(pieces, m, n - 1); }
  }
}
