/** The lexer, and that it reads back any tokens written out with spaces between. */
module CypherLexer {
  import opened Options
  import opened Numerals
  import opened CypherSyntax

  // ---- Characters, over ASCII ----

  predicate IsSpace(c: char) { c == ' ' || '\t' <= c <= '\r' }

  predicate StartsName(c: char) { 'a' <= c <= 'z' || 'A' <= c <= 'Z' || c == '_' }

  predicate ContinuesName(c: char) { StartsName(c) || IsDigit(c) }

  const MAX_INT: nat := 0x7FFF_FFFF_FFFF_FFFF

  /** Tokens of one character that begin no longer token. */
  function Single(c: char): Option<Tok> {
    match c
    case '(' => Some(TLParen)
    case ')' => Some(TRParen)
    case '[' => Some(TLBracket)
    case ']' => Some(TRBracket)
    case '{' => Some(TLBrace)
    case '}' => Some(TRBrace)
    case ':' => Some(TColon)
    case ',' => Some(TComma)
    case '-' => Some(TDash)
    case '*' => Some(TStar)
    case '+' => Some(TPlus)
    case '/' => Some(TSlash)
    case '=' => Some(TEq)
    case _ => None
  }

  /** A dot or an angle bracket, alone or with the character that follows. */
  function Paired(c: char, next: Option<char>): Option<(Tok, nat)> {
    match c
    case '.' => Some(if next == Some('.') then (TDotDot, 2) else (TDot, 1))
    case '<' => Some(if next == Some('>') then (TNe, 2) else if next == Some('=') then (TLe, 2) else (TLt, 1))
    case '>' => Some(if next == Some('=') then (TGe, 2) else (TGt, 1))
    case _ => None
  }

  function At(s: string, i: nat): Option<char> { if i < |s| then Some(s[i]) else None }

  // ---- What is read where ----

  /** What has been read so far, put before what is read next. */
  function Before<T>(out: seq<T>, rest: Option<seq<T>>): Option<seq<T>> {
    match rest case None => None case Some(ts) => Some(out + ts)
  }

  function TextBefore(text: string, rest: Option<(string, nat)>): Option<(string, nat)> {
    match rest case None => None case Some((more, j)) => Some((text + more, j))
  }

  function LineEnd(s: string, i: nat): (j: nat)
    ensures i <= j && (i <= |s| ==> j <= |s|)
    decreases |s| - i
  {
    if i < |s| && s[i] != '\n' then LineEnd(s, i + 1) else i
  }

  function DigitsEnd(s: string, i: nat): (j: nat)
    ensures i <= j && (i <= |s| ==> j <= |s|) && forall k :: i <= k < j ==> k < |s| && IsDigit(s[k])
    decreases |s| - i
  {
    if i < |s| && IsDigit(s[i]) then DigitsEnd(s, i + 1) else i
  }

  function NameEnd(s: string, i: nat): (j: nat)
    ensures i <= j && (i <= |s| ==> j <= |s|)
    decreases |s| - i
  {
    if i < |s| && ContinuesName(s[i]) then NameEnd(s, i + 1) else i
  }

  function Unescaped(c: char): char {
    match c
    case 'n' => '\n'
    case 't' => '\t'
    case 'r' => '\r'
    case _ => c
  }

  /** The rest of a string literal and where it ends; nothing if it never does. */
  function StringAt(s: string, i: nat, quote: char): (r: Option<(string, nat)>)
    ensures r.Some? ==> i < r.value.1 <= |s|
    decreases |s| - i
  {
    if i >= |s| then None
    else if s[i] == '\\' && i + 1 < |s| then
      TextBefore([Unescaped(s[i + 1])], StringAt(s, i + 2, quote))
    else if s[i] == quote then Some(("", i + 1))
    else TextBefore([s[i]], StringAt(s, i + 1, quote))
  }

  /** Digits, with a fraction if a dot and another digit follow; too big an integer fails. */
  function NumberAt(s: string, i: nat): (r: Option<(Tok, nat)>)
    requires i < |s| && IsDigit(s[i])
    ensures r.Some? ==> i < r.value.1 <= |s| && (r.value.0.TInt? ==> 0 <= r.value.0.n <= MAX_INT) && !r.value.0.TEof?
  {
    var j := DigitsEnd(s, i);
    if j + 1 < |s| && s[j] == '.' && IsDigit(s[j + 1]) then
      var k := DigitsEnd(s, j + 1);
      Some((TFloat(s[i..k]), k))
    else if ValueOf(s[i..j]) <= MAX_INT then Some((TInt(ValueOf(s[i..j])), j))
    else None
  }

  predicate IsComment(s: string, i: nat) { i + 1 < |s| && s[i] == '/' && s[i + 1] == '/' }

  /** The token that starts at `i` and where it ends. */
  function TokenAt(s: string, i: nat): (r: Option<(Tok, nat)>)
    requires i < |s|
    ensures r.Some? ==> i < r.value.1 <= |s| && (r.value.0.TInt? ==> 0 <= r.value.0.n <= MAX_INT) && !r.value.0.TEof?
  {
    var c := s[i];
    if Single(c).Some? then Some((Single(c).value, i + 1))
    else if Paired(c, At(s, i + 1)).Some? then
      var (t, n) := Paired(c, At(s, i + 1)).value;
      Some((t, i + n))
    else if c == '\'' || c == '"' then
      match StringAt(s, i + 1, c)
      case None => None
      case Some((text, j)) => Some((TStr(text), j))
    else if IsDigit(c) then NumberAt(s, i)
    else if StartsName(c) then Some((TIdent(s[i..NameEnd(s, i)]), NameEnd(s, i)))
    else None
  }

  function LexFrom(s: string, i: nat): (r: Option<seq<Tok>>)
    decreases |s| - i
  {
    if i >= |s| then Some([TEof])
    else if IsSpace(s[i]) then LexFrom(s, i + 1)
    else if IsComment(s, i) then LexFrom(s, LineEnd(s, i))
    else
      match TokenAt(s, i)
      case None => None
      case Some((t, j)) => Before([t], LexFrom(s, j))
  }

  // ---- The loops ----

  lemma NothingBefore<T>(rest: Option<seq<T>>)
    ensures Before([], rest) == rest
  {
    if rest.Some? { assert [] + rest.value == rest.value; }
  }

  lemma OneMoreBefore<T>(out: seq<T>, t: T, rest: Option<seq<T>>)
    ensures Before(out, Before([t], rest)) == Before(out + [t], rest)
  {
    if rest.Some? { assert out + ([t] + rest.value) == out + [t] + rest.value; }
  }

  lemma NoTextBefore(rest: Option<(string, nat)>)
    ensures TextBefore("", rest) == rest
  {
    if rest.Some? { assert "" + rest.value.0 == rest.value.0; }
  }

  lemma OneCharBefore(text: string, c: char, rest: Option<(string, nat)>)
    ensures TextBefore(text, TextBefore([c], rest)) == TextBefore(text + [c], rest)
  {
    if rest.Some? { assert text + ([c] + rest.value.0) == text + [c] + rest.value.0; }
  }

  method ReadString(s: string, start: nat, quote: char) returns (r: Result<(string, nat)>)
    ensures r == match StringAt(s, start, quote) case None => Err case Some(found) => Ok(found)
  {
    hide TextBefore;
    var i := start;
    var text := "";
    NoTextBefore(StringAt(s, i, quote));
    while true
      invariant StringAt(s, start, quote) == TextBefore(text, StringAt(s, i, quote))
      decreases |s| - i
    {
      if i >= |s| { NothingAfter(text); return Err; }
      if s[i] == '\\' && i + 1 < |s| {
        OneCharBefore(text, Unescaped(s[i + 1]), StringAt(s, i + 2, quote));
        text, i := text + [Unescaped(s[i + 1])], i + 2;
      } else if s[i] == quote {
        TextEnds(text, i + 1);
        return Ok((text, i + 1));
      } else {
        OneCharBefore(text, s[i], StringAt(s, i + 1, quote));
        text, i := text + [s[i]], i + 1;
      }
    }
  }

  lemma NothingAfter(text: string)
    ensures TextBefore(text, None) == None
  {
  }

  lemma TextEnds(text: string, j: nat)
    ensures TextBefore(text, Some(("", j))) == Some((text, j))
  {
    assert text + "" == text;
  }

  method SkipDigits(s: string, start: nat) returns (i: nat)
    ensures i == DigitsEnd(s, start)
  {
    i := start;
    while i < |s| && IsDigit(s[i])
      invariant DigitsEnd(s, start) == DigitsEnd(s, i)
    {
      i := i + 1;
    }
  }

  method ReadNumber(s: string, start: nat) returns (r: Result<(Tok, nat)>)
    requires start < |s| && IsDigit(s[start])
    ensures r == match NumberAt(s, start) case None => Err case Some(found) => Ok(found)
  {
    var i := SkipDigits(s, start);
    if i + 1 < |s| && s[i] == '.' && IsDigit(s[i + 1]) {
      i := SkipDigits(s, i + 1);
      return Ok((TFloat(s[start..i]), i));
    }
    var v := ValueOf(s[start..i]);
    if v > MAX_INT { return Err; }
    return Ok((TInt(v), i));
  }

  method ReadName(s: string, start: nat) returns (i: nat)
    ensures i == NameEnd(s, start)
  {
    i := start;
    while i < |s| && ContinuesName(s[i])
      invariant NameEnd(s, start) == NameEnd(s, i)
    {
      i := i + 1;
    }
  }

  method ReadToken(s: string, i: nat) returns (r: Result<(Tok, nat)>)
    requires i < |s|
    ensures r == match TokenAt(s, i) case None => Err case Some(found) => Ok(found)
  {
    var c := s[i];
    if Single(c).Some? { return Ok((Single(c).value, i + 1)); }
    var paired := Paired(c, At(s, i + 1));
    if paired.Some? { return Ok((paired.value.0, i + paired.value.1)); }
    if c == '\'' || c == '"' {
      var text := ReadString(s, i + 1, c);
      if text.Err? { return Err; }
      return Ok((TStr(text.value.0), text.value.1));
    }
    if IsDigit(c) {
      r := ReadNumber(s, i);
      return;
    }
    if StartsName(c) {
      var j := ReadName(s, i);
      return Ok((TIdent(s[i..j]), j));
    }
    return Err;
  }

  method Lex(s: string) returns (r: Result<seq<Tok>>)
    ensures r == match LexFrom(s, 0) case None => Err case Some(ts) => Ok(ts)
  {
    hide TokenAt;
    var i := 0;
    var out := [];
    NothingBefore(LexFrom(s, 0));
    while i < |s|
      invariant LexFrom(s, 0) == Before(out, LexFrom(s, i))
      decreases |s| - i
    {
      if IsSpace(s[i]) {
        i := i + 1;
      } else if IsComment(s, i) {
        ghost var slash := i;
        while i < |s| && s[i] != '\n'
          invariant slash <= i <= |s|
          invariant LexFrom(s, 0) == Before(out, LexFrom(s, LineEnd(s, i)))
        {
          i := i + 1;
        }
      } else {
        var t := ReadToken(s, i);
        if t.Err? { return Err; }
        OneMoreBefore(out, t.value.0, LexFrom(s, t.value.1));
        out, i := out + [t.value.0], t.value.1;
      }
    }
    return Ok(out + [TEof]);
  }
}
