/** From text to trees and back: exactly which texts are lexed as which tokens, and
    that every expression is read back from its text. */
module CypherText {
  import opened Options
  import opened Sequences
  import opened Numerals
  import opened CypherSyntax
  import opened CypherLexer
  import opened CypherParser

  // ---- How tokens are written ----

  /** A letter or an underscore. */
  predicate Begins(c: char) { c == '_' || exists k :: 0 <= k < 26 && (CAPITALS[k] == c || SMALL_LETTERS[k] == c) }

  predicate GoesOn(c: char) { Begins(c) || '0' <= c <= '9' }

  predicate IsName(s: string) { s != "" && Begins(s[0]) && forall i :: 0 <= i < |s| ==> GoesOn(s[i]) }

  lemma NameCharsAre(c: char)
    ensures (StartsName(c) <==> Begins(c)) && (ContinuesName(c) <==> GoesOn(c))
  {
    LettersPair();
    if 'A' <= c <= 'Z' { assert CAPITALS[(c - 'A') as int] == c; }
    if 'a' <= c <= 'z' { assert SMALL_LETTERS[(c - 'a') as int] == c; }
  }

  lemma NamesAre()
    ensures forall c :: StartsName(c) <==> Begins(c)
    ensures forall c :: ContinuesName(c) <==> GoesOn(c)
  {
    forall c ensures (StartsName(c) <==> Begins(c)) && (ContinuesName(c) <==> GoesOn(c)) { NameCharsAre(c); }
  }

  predicate AllDigits(s: string) { s != "" && forall i :: 0 <= i < |s| ==> '0' <= s[i] <= '9' }

  /** Digits, a dot, digits. */
  predicate IsFraction(s: string) {
    exists k :: 0 < k < |s| - 1 && s[k] == '.' && AllDigits(s[..k]) && AllDigits(s[k + 1..])
  }

  /** A character of a string literal as it stands, or behind a backslash. */
  datatype Piece = Plain(c: char) | Behind(c: char)

  function PieceText(p: Piece): string { match p case Plain(c) => [c] case Behind(c) => ['\\', c] }

  /** Behind a backslash `n`, `t` and `r` are line feed, tab and carriage return; any
      other character is itself. */
  function PieceMeans(p: Piece): char {
    if p == Behind('n') then 10 as char
    else if p == Behind('t') then 9 as char
    else if p == Behind('r') then 13 as char
    else p.c
  }

  /** A quote or a backslash does not stand by itself. */
  predicate Fits(p: Piece, quote: char) { p.Plain? ==> p.c != quote && p.c != '\\' }

  predicate AllFit(ps: seq<Piece>, quote: char) { forall p :: p in ps ==> Fits(p, quote) }

  function PiecesText(ps: seq<Piece>): string { if ps == [] then "" else PieceText(ps[0]) + PiecesText(ps[1..]) }

  function PiecesMean(ps: seq<Piece>): string { if ps == [] then "" else [PieceMeans(ps[0])] + PiecesMean(ps[1..]) }

  predicate IsQuote(c: char) { c == '\'' || c == '"' }

  ghost predicate SpellsText(text: string, x: string) {
    |x| > 1 && IsQuote(x[0]) && x[|x| - 1] == x[0]
    && exists ps :: AllFit(ps, x[0]) && PiecesText(ps) == x[1..|x| - 1] && PiecesMean(ps) == text
  }

  /** The tokens that are always written the same. */
  function SignText(t: Tok): string {
    match t
    case TLParen => "("
    case TRParen => ")"
    case TLBracket => "["
    case TRBracket => "]"
    case TLBrace => "{"
    case TRBrace => "}"
    case TColon => ":"
    case TComma => ","
    case TDot => "."
    case TDotDot => ".."
    case TDash => "-"
    case TStar => "*"
    case TPlus => "+"
    case TSlash => "/"
    case TLt => "<"
    case TGt => ">"
    case TEq => "="
    case TNe => "<>"
    case TLe => "<="
    case TGe => ">="
    case _ => ""
  }

  predicate IsSign(t: Tok) { !t.TIdent? && !t.TStr? && !t.TInt? && !t.TFloat? && !t.TEof? }

  /** `x` is a way to write the token. */
  ghost predicate Spells(t: Tok, x: string) {
    match t
    case TIdent(name) => x == name && IsName(name)
    case TStr(text) => SpellsText(text, x)
    case TInt(n) => AllDigits(x) && ValueOf(x) == n <= 9223372036854775807
    case TFloat(f) => x == f && IsFraction(f)
    case TEof => false
    case _ => x == SignText(t)
  }

  predicate DigitAt(s: string, j: nat) { j < |s| && '0' <= s[j] <= '9' }

  predicate CharAt(s: string, j: nat, c: char) { j < |s| && s[j] == c }

  /** What stands at `j` does not make the token a longer one, or a comment. */
  predicate Ends(t: Tok, s: string, j: nat) {
    match t
    case TIdent(_) => j >= |s| || !GoesOn(s[j])
    case TInt(_) => !DigitAt(s, j) && !(CharAt(s, j, '.') && DigitAt(s, j + 1))
    case TFloat(_) => !DigitAt(s, j)
    case TDot => !CharAt(s, j, '.')
    case TLt => !CharAt(s, j, '>') && !CharAt(s, j, '=')
    case TGt => !CharAt(s, j, '=')
    case TSlash => !CharAt(s, j, '/')
    case _ => true
  }

  // ---- What may stand between tokens ----

  predicate IsWhite(c: char) { c == ' ' || c == 9 as char || c == 10 as char || c == 11 as char || c == 12 as char || c == 13 as char }

  predicate NoNewline(s: string, i: nat, j: nat)
    requires j <= |s|
  {
    forall k :: i <= k < j ==> s[k] != 10 as char
  }

  /** Two slashes and the rest of the line, which ends at `k`. */
  predicate CommentLine(s: string, i: nat, k: nat) {
    i + 2 <= k < |s| && s[i] == '/' && s[i + 1] == '/' && s[k] == 10 as char && NoNewline(s, i, k)
  }

  /** White space and comments to the end of their lines. */
  ghost predicate Gap(s: string, i: nat, j: nat)
    decreases j - i
  {
    j <= |s| && (
      || i == j
      || (i < j && IsWhite(s[i]) && Gap(s, i + 1, j))
      || exists k: nat :: CommentLine(s, i, k) && k < j && Gap(s, k + 1, j))
  }

  predicate FinalComment(s: string, i: nat) { i + 2 <= |s| && s[i] == '/' && s[i + 1] == '/' && NoNewline(s, i, |s|) }

  ghost predicate Trails(s: string, i: nat) { exists k: nat :: Gap(s, i, k) && (k == |s| || FinalComment(s, k)) }

  ghost predicate TokenStands(s: string, i: nat, k: nat, j: nat, t: Tok) {
    Gap(s, i, k) && k < j <= |s| && Spells(t, s[k..j]) && Ends(t, s, j)
  }

  /** From `i` on the text is these tokens, each as long as it can be, and an end marker. */
  ghost predicate Lexes(s: string, i: nat, ts: seq<Tok>)
    decreases |ts|
  {
    if |ts| < 2 then ts == [TEof] && Trails(s, i)
    else exists k: nat, j: nat :: TokenStands(s, i, k, j, ts[0]) && Lexes(s, j, ts[1..])
  }

  // ---- Every such text is lexed so ----

  lemma SpacesAre(c: char)
    ensures IsSpace(c) <==> IsWhite(c)
  {
  }

  lemma {:induction false} LineEndIs(s: string, i: nat, k: nat)
    requires i <= k <= |s| && NoNewline(s, i, k) && (k == |s| || s[k] == 10 as char)
    ensures LineEnd(s, i) == k
    decreases k - i
  {
    if i < k { LineEndIs(s, i + 1, k); }
  }

  lemma {:induction false} GapIsSkipped(s: string, i: nat, j: nat)
    requires Gap(s, i, j)
    ensures LexFrom(s, i) == LexFrom(s, j)
    decreases j - i
  {
    hide TokenAt;
    if i < j {
      SpacesAre(s[i]);
      if IsWhite(s[i]) && Gap(s, i + 1, j) { GapIsSkipped(s, i + 1, j); }
      else {
        var k: nat :| CommentLine(s, i, k) && k < j && Gap(s, k + 1, j);
        LineEndIs(s, i, k);
        GapIsSkipped(s, k + 1, j);
      }
    }
  }

  lemma TrailingIsSkipped(s: string, i: nat)
    requires Trails(s, i)
    ensures LexFrom(s, i) == Some([TEof])
  {
    hide TokenAt;
    var k: nat :| Gap(s, i, k) && (k == |s| || FinalComment(s, k));
    GapIsSkipped(s, i, k);
    if k < |s| { LineEndIs(s, k, |s|); }
  }

  lemma {:induction false} DigitsRun(s: string, i: nat, j: nat)
    requires i <= j <= |s| && !DigitAt(s, j) && forall k :: i <= k < j ==> IsDigit(s[k])
    ensures DigitsEnd(s, i) == j
    decreases j - i
  {
    if i < j { DigitsRun(s, i + 1, j); }
  }

  lemma {:induction false} NameRun(s: string, i: nat, j: nat)
    requires i <= j <= |s| && (j == |s| || !ContinuesName(s[j])) && forall k :: i <= k < j ==> ContinuesName(s[k])
    ensures NameEnd(s, i) == j
    decreases j - i
  {
    if i < j { NameRun(s, i + 1, j); }
  }

  lemma {:induction false} PiecesAreRead(s: string, i: nat, quote: char, ps: seq<Piece>)
    requires IsQuote(quote) && AllFit(ps, quote) && i + |PiecesText(ps)| < |s|
    requires s[i..i + |PiecesText(ps)|] == PiecesText(ps) && s[i + |PiecesText(ps)|] == quote
    ensures StringAt(s, i, quote) == Some((PiecesMean(ps), i + |PiecesText(ps)| + 1))
    decreases |ps|
  {
    var x := PiecesText(ps);
    if ps != [] {
      var first, rest := PieceText(ps[0]), PiecesText(ps[1..]);
      var m := i + |first|;
      assert Fits(ps[0], quote);
      assert s[i..i + |x|][0] == s[i];
      if |first| == 2 { assert s[i..i + |x|][1] == s[i + 1]; }
      SliceOfSlice(s, i, i + |x|, |first|, |x|);
      PiecesAreRead(s, m, quote, ps[1..]);
    }
  }

  lemma NameReads(s: string, k: nat, j: nat)
    requires k < j <= |s| && IsName(s[k..j]) && (j == |s| || !GoesOn(s[j]))
    ensures TokenAt(s, k) == Some((TIdent(s[k..j]), j)) && !IsSpace(s[k]) && !IsComment(s, k)
  {
    NamesAre();
    hide Begins, GoesOn;
    forall m | k <= m < j ensures ContinuesName(s[m]) { assert s[m] == s[k..j][m - k]; }
    assert s[k] == s[k..j][0];
    NameRun(s, k, j);
  }

  lemma DigitStarts(s: string, i: nat)
    requires i < |s| && IsDigit(s[i])
    ensures TokenAt(s, i) == NumberAt(s, i) && !IsSpace(s[i]) && !IsComment(s, i)
  {
    hide NumberAt;
  }

  lemma DigitsStand(s: string, k: nat, j: nat)
    requires k <= j <= |s| && AllDigits(s[k..j])
    ensures forall m :: k <= m < j ==> IsDigit(s[m])
  {
    forall m | k <= m < j ensures IsDigit(s[m]) { assert s[m] == s[k..j][m - k]; }
  }

  lemma IntReads(s: string, k: nat, j: nat)
    requires k < j <= |s| && AllDigits(s[k..j]) && !DigitAt(s, j) && !(CharAt(s, j, '.') && DigitAt(s, j + 1))
    ensures IsDigit(s[k]) && DigitsEnd(s, k) == j
    ensures forall i :: 0 <= i < |s[k..j]| ==> IsDigit(s[k..j][i])
    ensures TokenAt(s, k) == if ValueOf(s[k..j]) <= MAX_INT then Some((TInt(ValueOf(s[k..j])), j)) else None
    ensures !IsSpace(s[k]) && !IsComment(s, k)
  {
    hide ValueOf, TokenAt;
    DigitsStand(s, k, j);
    DigitsRun(s, k, j);
    DigitStarts(s, k);
  }

  lemma FractionStands(s: string, k: nat, j: nat) returns (m: nat)
    requires k < j <= |s| && IsFraction(s[k..j])
    ensures k < m < j - 1 && s[m] == '.' && AllDigits(s[k..m]) && AllDigits(s[m + 1..j])
  {
    hide AllDigits;
    var x := s[k..j];
    var d :| 0 < d < |x| - 1 && x[d] == '.' && AllDigits(x[..d]) && AllDigits(x[d + 1..]);
    m := k + d;
    CutAt(s, k, j, d);
  }

  lemma FractionReads(s: string, k: nat, j: nat)
    requires k < j <= |s| && IsFraction(s[k..j]) && !DigitAt(s, j)
    ensures TokenAt(s, k) == Some((TFloat(s[k..j]), j)) && !IsSpace(s[k]) && !IsComment(s, k)
  {
    hide TokenAt, IsFraction;
    var m := FractionStands(s, k, j);
    DigitsStand(s, k, m);
    DigitsStand(s, m + 1, j);
    hide AllDigits;
    DigitsRun(s, k, m);
    DigitsRun(s, m + 1, j);
    DigitStarts(s, k);
  }

  lemma QuoteStarts(s: string, i: nat)
    requires i < |s| && IsQuote(s[i])
    ensures TokenAt(s, i) == match StringAt(s, i + 1, s[i]) case None => None case Some((text, j)) => Some((TStr(text), j))
    ensures !IsSpace(s[i]) && !IsComment(s, i)
  {
    hide StringAt;
  }

  lemma TextReads(s: string, k: nat, j: nat, text: string)
    requires k < j <= |s| && SpellsText(text, s[k..j])
    ensures TokenAt(s, k) == Some((TStr(text), j)) && !IsSpace(s[k]) && !IsComment(s, k)
  {
    hide TokenAt, StringAt, PiecesText, PiecesMean, AllFit;
    var x := s[k..j];
    var ps :| AllFit(ps, x[0]) && PiecesText(ps) == x[1..|x| - 1] && PiecesMean(ps) == text;
    SliceOfSlice(s, k, j, 1, |x| - 1);
    assert x[0] == s[k] && x[|x| - 1] == s[j - 1];
    PiecesAreRead(s, k + 1, s[k], ps);
    QuoteStarts(s, k);
  }

  lemma SignReads(s: string, k: nat, j: nat, t: Tok)
    requires k < j <= |s| && IsSign(t) && s[k..j] == SignText(t) && Ends(t, s, j)
    ensures TokenAt(s, k) == Some((t, j)) && !IsSpace(s[k]) && !IsComment(s, k)
  {
    assert s[k] == s[k..j][0];
    if j == k + 2 { assert s[k + 1] == s[k..j][1]; }
  }

  lemma TokenReads(s: string, k: nat, j: nat, t: Tok)
    requires k < j <= |s| && Spells(t, s[k..j]) && Ends(t, s, j)
    ensures TokenAt(s, k) == Some((t, j)) && !IsSpace(s[k]) && !IsComment(s, k)
  {
    hide TokenAt, IsComment, SpellsText;
    match t
    case TIdent(_) => NameReads(s, k, j);
    case TStr(text) => TextReads(s, k, j, text);
    case TInt(_) => IntReads(s, k, j);
    case TFloat(_) => FractionReads(s, k, j);
    case _ => SignReads(s, k, j, t);
  }

  lemma {:induction false} TextIsLexed(s: string, i: nat, ts: seq<Tok>)
    requires Lexes(s, i, ts)
    ensures LexFrom(s, i) == Some(ts)
    decreases |ts|
  {
    hide TokenAt, Spells, Ends, IsComment;
    if |ts| < 2 {
      TrailingIsSkipped(s, i);
    } else {
      var k: nat, j: nat :| TokenStands(s, i, k, j, ts[0]) && Lexes(s, j, ts[1..]);
      GapIsSkipped(s, i, k);
      TokenReads(s, k, j, ts[0]);
      TextIsLexed(s, j, ts[1..]);
      assert [ts[0]] + ts[1..] == ts;
    }
  }

  // ---- Whatever is lexed is such a text ----

  lemma {:induction false} LineEndStops(s: string, i: nat)
    requires i <= |s|
    ensures var k := LineEnd(s, i); NoNewline(s, i, k) && (k == |s| || s[k] == 10 as char)
    decreases |s| - i
  {
    if i < |s| && s[i] != 10 as char { LineEndStops(s, i + 1); }
  }

  lemma {:induction false} DigitsStop(s: string, i: nat)
    requires i <= |s|
    ensures !DigitAt(s, DigitsEnd(s, i))
    decreases |s| - i
  {
    if i < |s| && IsDigit(s[i]) { DigitsStop(s, i + 1); }
  }

  lemma {:induction false} NameStops(s: string, i: nat)
    requires i <= |s|
    ensures var j := NameEnd(s, i); j <= |s| && (j == |s| || !ContinuesName(s[j])) && forall k :: i <= k < j ==> ContinuesName(s[k])
    decreases |s| - i
  {
    if i < |s| && ContinuesName(s[i]) { NameStops(s, i + 1); }
  }

  lemma {:induction false} ReadIsPieces(s: string, i: nat, quote: char) returns (ps: seq<Piece>)
    requires IsQuote(quote) && StringAt(s, i, quote).Some?
    ensures var (text, j) := StringAt(s, i, quote).value;
            i < j <= |s| && AllFit(ps, quote) && PiecesText(ps) == s[i..j - 1] && s[j - 1] == quote && PiecesMean(ps) == text
    decreases |s| - i
  {
    hide PiecesText, PiecesMean, AllFit;
    var j := StringAt(s, i, quote).value.1;
    if s[i] == '\\' && i + 1 < |s| {
      var rest := ReadIsPieces(s, i + 2, quote);
      ps := [Behind(s[i + 1])] + rest;
      OnePieceMore(Behind(s[i + 1]), rest, quote);
      assert s[i..j - 1] == [s[i], s[i + 1]] + s[i + 2..j - 1];
    } else if s[i] == quote {
      ps := [];
      NoPieces(quote);
    } else {
      var rest := ReadIsPieces(s, i + 1, quote);
      BackslashIsNotLast(s, i, quote);
      ps := [Plain(s[i])] + rest;
      OnePieceMore(Plain(s[i]), rest, quote);
      assert s[i..j - 1] == [s[i]] + s[i + 1..j - 1];
    }
  }

  lemma NoPieces(quote: char)
    ensures AllFit([], quote) && PiecesText([]) == "" && PiecesMean([]) == ""
  {
  }

  lemma OnePieceMore(p: Piece, rest: seq<Piece>, quote: char)
    ensures AllFit([p] + rest, quote) <==> Fits(p, quote) && AllFit(rest, quote)
    ensures PiecesText([p] + rest) == PieceText(p) + PiecesText(rest) && PiecesMean([p] + rest) == [PieceMeans(p)] + PiecesMean(rest)
  {
    assert ([p] + rest)[1..] == rest;
    assert forall q :: q in [p] + rest <==> q == p || q in rest;
  }

  /** A backslash at the very end closes nothing. */
  lemma BackslashIsNotLast(s: string, i: nat, quote: char)
    requires i < |s| && IsQuote(quote) && StringAt(s, i, quote).Some? && s[i] != quote && !(s[i] == '\\' && i + 1 < |s|)
    ensures s[i] != '\\'
  {
    assert StringAt(s, |s|, quote) == None;
  }

  lemma TextIsSpelled(s: string, i: nat)
    requires i < |s| && IsQuote(s[i]) && StringAt(s, i + 1, s[i]).Some?
    ensures var (text, j) := StringAt(s, i + 1, s[i]).value; SpellsText(text, s[i..j])
  {
    hide StringAt, PiecesText, PiecesMean, AllFit, IsQuote;
    var (text, j) := StringAt(s, i + 1, s[i]).value;
    var ps := ReadIsPieces(s, i + 1, s[i]);
    var x := s[i..j];
    SliceOfSlice(s, i, j, 1, |x| - 1);
    assert x[0] == s[i] && x[|x| - 1] == s[j - 1];
  }

  lemma DigitsAreSpelled(s: string, i: nat)
    requires i < |s| && IsDigit(s[i])
    ensures var j := DigitsEnd(s, i); i < j <= |s| && AllDigits(s[i..j]) && !DigitAt(s, j)
  {
    DigitsStop(s, i);
  }

  lemma FractionIsSpelled(s: string, i: nat, j: nat, k: nat)
    requires i < j && j + 1 < k <= |s| && s[j] == '.' && AllDigits(s[i..j]) && AllDigits(s[j + 1..k])
    ensures IsFraction(s[i..k])
  {
    hide AllDigits;
    CutAt(s, i, k, j - i);
  }

  lemma NumberIsSpelled(s: string, i: nat)
    requires i < |s| && IsDigit(s[i]) && NumberAt(s, i).Some?
    ensures var (t, j) := NumberAt(s, i).value; i < j <= |s| && Spells(t, s[i..j]) && Ends(t, s, j)
  {
    hide ValueOf, DigitsEnd, AllDigits, IsFraction;
    var j := DigitsEnd(s, i);
    DigitsAreSpelled(s, i);
    if NumberAt(s, i).value.0.TFloat? {
      DigitsAreSpelled(s, j + 1);
      FractionIsSpelled(s, i, j, DigitsEnd(s, j + 1));
    }
  }

  lemma SignIsSpelled(s: string, i: nat)
    requires i < |s| && TokenAt(s, i).Some? && !IsComment(s, i) && !IsQuote(s[i]) && !IsDigit(s[i]) && !StartsName(s[i])
    ensures var (t, j) := TokenAt(s, i).value; i < j <= |s| && Spells(t, s[i..j]) && Ends(t, s, j)
  {
    var (t, j) := TokenAt(s, i).value;
    assert s[i..i + 1] == [s[i]];
    if i + 1 < |s| { assert s[i..i + 2] == [s[i], s[i + 1]]; }
  }

  lemma NameStarts(s: string, i: nat)
    requires i < |s| && StartsName(s[i])
    ensures TokenAt(s, i) == Some((TIdent(s[i..NameEnd(s, i)]), NameEnd(s, i)))
  {
    hide NameEnd, StringAt, NumberAt;
  }

  lemma NameIsSpelled(s: string, i: nat)
    requires i < |s| && StartsName(s[i])
    ensures var j := NameEnd(s, i); i < j <= |s| && TokenAt(s, i) == Some((TIdent(s[i..j]), j)) && IsName(s[i..j]) && (j == |s| || !GoesOn(s[j]))
  {
    NamesAre();
    hide TokenAt, Begins, GoesOn;
    NameStarts(s, i);
    NameStops(s, i);
  }

  lemma TokenIsSpelled(s: string, i: nat)
    requires i < |s| && TokenAt(s, i).Some? && !IsComment(s, i)
    ensures var (t, j) := TokenAt(s, i).value; i < j <= |s| && Spells(t, s[i..j]) && Ends(t, s, j)
  {
    hide IsComment, SpellsText, TokenAt, StartsName, NumberAt;
    if IsQuote(s[i]) {
      QuoteStarts(s, i);
      TextIsSpelled(s, i);
    } else if IsDigit(s[i]) {
      DigitStarts(s, i);
      NumberIsSpelled(s, i);
    } else if StartsName(s[i]) {
      NameIsSpelled(s, i);
    } else {
      SignIsSpelled(s, i);
    }
  }

  lemma MoreGap(s: string, i: nat, m: nat, ts: seq<Tok>)
    requires i <= m && Lexes(s, m, ts)
    requires forall k: nat :: Gap(s, m, k) ==> Gap(s, i, k)
    ensures Lexes(s, i, ts)
  {
    hide Gap, Spells, Ends;
    if |ts| < 2 {
      var k: nat :| Gap(s, m, k) && (k == |s| || FinalComment(s, k));
      assert Gap(s, i, k);
    } else {
      var k: nat, j: nat :| TokenStands(s, m, k, j, ts[0]) && Lexes(s, j, ts[1..]);
      assert TokenStands(s, i, k, j, ts[0]);
    }
  }

  lemma {:induction false} LexedIsText(s: string, i: nat)
    requires i <= |s| && LexFrom(s, i).Some?
    ensures Lexes(s, i, LexFrom(s, i).value)
    decreases |s| - i
  {
    hide TokenAt, Spells, Ends, NoNewline, IsWhite;
    if i == |s| {
      assert Gap(s, i, i);
    } else if IsSpace(s[i]) {
      SpacesAre(s[i]);
      LexedIsText(s, i + 1);
      forall k: nat | Gap(s, i + 1, k) ensures Gap(s, i, k) { GapGoesOn(s, i + 1, k); }
      MoreGap(s, i, i + 1, LexFrom(s, i).value);
    } else if IsComment(s, i) {
      LexedComment(s, i);
    } else {
      TokenIsSpelled(s, i);
      var (t, j) := TokenAt(s, i).value;
      LexedIsText(s, j);
      var rest := LexFrom(s, j).value;
      LexedNotEmpty(s, j);
      var ts := [t] + rest;
      assert LexFrom(s, i).value == ts && ts[0] == t && ts[1..] == rest;
      assert Gap(s, i, i) && TokenStands(s, i, i, j, ts[0]);
    }
  }

  lemma GapGoesOn(s: string, m: nat, k: nat)
    requires Gap(s, m, k)
    ensures m <= k <= |s|
  {
  }

  lemma {:induction false} LexedNotEmpty(s: string, i: nat)
    requires LexFrom(s, i).Some?
    ensures LexFrom(s, i).value != []
    decreases |s| - i
  {
    LexedTokens(s, i);
  }

  lemma {:induction false} LexedComment(s: string, i: nat)
    requires IsComment(s, i) && !IsSpace(s[i]) && LexFrom(s, i).Some?
    ensures Lexes(s, i, LexFrom(s, i).value)
    decreases |s| - i, 0
  {
    hide TokenAt, Spells, Ends;
    var k := LineEnd(s, i);
    LineEndStops(s, i);
    CommentAdvances(s, i);
    if k == |s| {
      assert FinalComment(s, i) && Gap(s, i, i);
    } else {
      assert LexFrom(s, k) == LexFrom(s, k + 1);
      LexedIsText(s, k + 1);
      assert CommentLine(s, i, k);
      forall j: nat | Gap(s, k + 1, j) ensures Gap(s, i, j) { GapGoesOn(s, k + 1, j); }
      MoreGap(s, i, k + 1, LexFrom(s, i).value);
    }
  }

  /** The lexer accepts exactly the texts made of tokens, white space and comments, each
      token as long as it can be. */
  lemma LexesIff(s: string, ts: seq<Tok>)
    ensures LexFrom(s, 0) == Some(ts) <==> Lexes(s, 0, ts)
  {
    hide Lexes, LexFrom;
    if LexFrom(s, 0) == Some(ts) { LexedIsText(s, 0); }
    if Lexes(s, 0, ts) { TextIsLexed(s, 0, ts); }
  }

  /** Whatever is lexed ends with the only end marker, and has no negative number. */
  lemma {:induction false} LexedTokens(s: string, i: nat)
    requires LexFrom(s, i).Some?
    ensures Lexed(LexFrom(s, i).value)
    decreases |s| - i
  {
    hide TokenAt, LineEnd, IsComment;
    if i < |s| {
      if IsSpace(s[i]) { LexedTokens(s, i + 1); }
      else if IsComment(s, i) { CommentAdvances(s, i); LexedTokens(s, LineEnd(s, i)); }
      else {
        var (t, j) := TokenAt(s, i).value;
        LexedTokens(s, j);
        assert LexFrom(s, i).value == [t] + LexFrom(s, j).value;
      }
    }
  }

  lemma CommentAdvances(s: string, i: nat)
    requires IsComment(s, i)
    ensures i < LineEnd(s, i) <= |s|
  {
  }

  // ---- Writing tokens ----

  predicate Writable(t: Tok) {
    match t
    case TIdent(name) => IsName(name)
    case TInt(n) => 0 <= n <= MAX_INT
    case TFloat(spelling) => IsFraction(spelling)
    case TEof => false
    case _ => true
  }

  /** Quotes, backslashes and line breaks are escaped. */
  function PieceFor(c: char): Piece {
    if c == '\\' || IsQuote(c) then Behind(c)
    else if c == 10 as char then Behind('n')
    else if c == 9 as char then Behind('t')
    else if c == 13 as char then Behind('r')
    else Plain(c)
  }

  function PiecesFor(text: string): seq<Piece> { if text == "" then [] else [PieceFor(text[0])] + PiecesFor(text[1..]) }

  lemma {:induction false} PiecesAreFor(text: string, quote: char)
    requires IsQuote(quote)
    ensures AllFit(PiecesFor(text), quote) && PiecesMean(PiecesFor(text)) == text
    decreases |text|
  {
    if text != "" {
      PiecesAreFor(text[1..], quote);
      assert PiecesFor(text)[1..] == PiecesFor(text[1..]);
      assert [text[0]] + text[1..] == text;
    }
  }

  function Spell(t: Tok, quote: char): string
    requires Writable(t)
  {
    match t
    case TIdent(name) => name
    case TStr(text) => [quote] + PiecesText(PiecesFor(text)) + [quote]
    case TInt(n) => Decimal(n)
    case TFloat(spelling) => spelling
    case _ => SignText(t)
  }

  lemma SpellSpells(t: Tok, quote: char)
    requires Writable(t) && IsQuote(quote)
    ensures Spells(t, Spell(t, quote))
  {
    match t
    case TStr(text) =>
      var x := Spell(t, quote);
      PiecesAreFor(text, quote);
      assert x[1..|x| - 1] == PiecesText(PiecesFor(text));
    case TInt(n) =>
      DecimalReads(n);
      DecimalNonempty(n);
    case _ =>
  }

  predicate AllWritable(ts: seq<Tok>) { forall i :: 0 <= i < |ts| ==> Writable(ts[i]) }

  /** Under either quote, with a space after each token. */
  function Render(ts: seq<Tok>, quote: char): string
    requires AllWritable(ts)
  {
    if ts == [] then "" else Spell(ts[0], quote) + " " + Render(ts[1..], quote)
  }

  lemma SpaceEnds(t: Tok, s: string, j: nat)
    requires CharAt(s, j, ' ')
    ensures Ends(t, s, j)
  {
  }

  lemma SpelledNotEmpty(t: Tok, x: string)
    requires Spells(t, x)
    ensures |x| > 0
  {
  }

  lemma {:induction false} RenderIsText(ts: seq<Tok>, quote: char, s: string, i: nat, m: nat)
    requires i <= m <= |s| && IsQuote(quote) && AllWritable(ts) && s[m..] == Render(ts, quote) && (i == m || (m == i + 1 && s[i] == ' '))
    ensures Lexes(s, i, ts + [TEof])
    decreases |ts|
  {
    hide Spells, Ends, Writable, Spell;
    assert Gap(s, m, m) && Gap(s, i, m);
    if ts == [] {
      assert Render(ts, quote) == "" && m == |s|;
      assert ts + [TEof] == [TEof];
    } else {
      var x, more := Spell(ts[0], quote), Render(ts[1..], quote);
      var j := m + |x|;
      assert s[m..] == x + ([' '] + more);
      assert s[m..j] == s[m..][..|x|] == x && s[j] == s[m..][|x|] == ' ' && s[j + 1..] == s[m..][|x| + 1..] == more;
      SpellSpells(ts[0], quote);
      SpelledNotEmpty(ts[0], x);
      SpaceEnds(ts[0], s, j);
      RenderIsText(ts[1..], quote, s, j, j + 1);
      var all := ts + [TEof];
      assert all[0] == ts[0] && all[1..] == ts[1..] + [TEof];
      assert TokenStands(s, i, m, j, all[0]);
    }
  }

  /** Lexing undoes writing, for every list of tokens and either quote. */
  lemma LexInvertsRender(ts: seq<Tok>, quote: char)
    requires AllWritable(ts) && IsQuote(quote)
    ensures LexFrom(Render(ts, quote), 0) == Some(ts + [TEof])
  {
    hide Lexes, Render;
    var s := Render(ts, quote);
    assert s[0..] == s;
    RenderIsText(ts, quote, s, 0, 0);
    TextIsLexed(s, 0, ts + [TEof]);
  }

  // ---- Expressions ----

  /** Trees whose names, numbers and nesting Cypher text can express. */
  predicate Legible(e: Expr) {
    match e
    case Variable(name) => IsName(name) && !Reserved(name)
    case Property(base, prop) => (base.Variable? || base.Property?) && Legible(base) && IsName(prop)
    case Lit(Int(n)) => 0 <= n <= MAX_INT
    case Lit(Float(f)) => IsFraction(f)
    case Lit(_) => true
    case Binary(_, a, b) => Legible(a) && Legible(b)
    case Not(a) => Legible(a)
    case Neg(a) => Legible(a)
  }

  lemma {:induction false} LegibleIsSpellable(e: Expr)
    requires Legible(e)
    ensures Spellable(e)
    decreases e
  {
    match e
    case Variable(_) =>
    case Property(base, _) => LegibleIsSpellable(base);
    case Lit(_) =>
    case Binary(_, a, b) => LegibleIsSpellable(a); LegibleIsSpellable(b);
    case Not(a) => LegibleIsSpellable(a);
    case Neg(a) => LegibleIsSpellable(a);
  }

  lemma SpellingIsName(name: string, word: string)
    requires IsWord(word) && SpelledAs(name, word)
    ensures IsName(name)
  {
    forall i | 0 <= i < |name| ensures Begins(name[i]) {
      assert EitherCase(word[i], name[i]);
      LettersPair();
      NameCharsAre(name[i]);
      assert StartsName(name[i]);
    }
  }

  lemma WordsAreNames(w: Words)
    requires Spelt(w)
    ensures IsName(w.or) && IsName(w.and) && IsName(w.not) && IsName(w.yes) && IsName(w.no) && IsName(w.null_)
  {
    hide SpelledAs, IsName;
    SpellingIsName(w.or, "OR");
    SpellingIsName(w.and, "AND");
    SpellingIsName(w.not, "NOT");
    SpellingIsName(w.yes, "TRUE");
    SpellingIsName(w.no, "FALSE");
    SpellingIsName(w.null_, "NULL");
  }

  lemma {:induction false} PrintIsWritable(w: Words, level: nat, e: Expr)
    requires Spelt(w) && Legible(e)
    ensures AllWritable(Print(w, level, e))
    decreases e, if Prec(e) < level then 1 else 0
  {
    hide IsName, IsFraction, Reserved, SameIgnoringCase, SpelledAs;
    WordsAreNames(w);
    if Prec(e) < level {
      PrintIsWritable(w, 0, e);
    } else {
      match e
      case Binary(op, a, b) =>
        PrintIsWritable(w, LeftLevel(op), a);
        PrintIsWritable(w, RightLevel(op), b);
      case Not(a) => PrintIsWritable(w, 2, a);
      case Neg(a) => PrintIsWritable(w, 6, a);
      case Property(base, _) => PrintIsWritable(w, 7, base);
      case _ =>
    }
  }

  /** From tree to text and back. */
  lemma TextRoundTrip(w: Words, quote: char, e: Expr)
    requires IsQuote(quote) && Spelt(w) && Legible(e)
    ensures AllWritable(Print(w, 0, e))
    ensures LexFrom(Render(Print(w, 0, e), quote), 0) == Some(Print(w, 0, e) + [TEof])
    ensures Parse(0, Print(w, 0, e) + [TEof], 0) == Some((e, |Print(w, 0, e)|))
  {
    hide Print, Render, LexFrom, Parse, Legible, Spellable, Spelt;
    hide Writable;
    PrintIsWritable(w, 0, e);
    LexInvertsRender(Print(w, 0, e), quote);
    LegibleIsSpellable(e);
    var ts := Print(w, 0, e) + [TEof];
    assert ts[0..|Print(w, 0, e)|] == Print(w, 0, e);
    EndStops();
    RoundTrip(w, 0, e, ts, 0);
  }
}
