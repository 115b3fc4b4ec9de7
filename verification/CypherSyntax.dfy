/** Cypher abstract syntax and tokens. */
module CypherSyntax {
  import opened Options

  /** Floats are opaque; only their spelling matters. */
  datatype Literal =
    | Str(text: string)
    | Int(n: int)
    | Float(spelling: string)
    | Bool(b: bool)
    | Null

  datatype BinOp = Or | And | Eq | Ne | Lt | Le | Gt | Ge | Add | Sub | Mul | Div

  datatype Expr =
    | Variable(name: string)
    | Property(base: Expr, prop: string)
    | Lit(literal: Literal)
    | Binary(op: BinOp, left: Expr, right: Expr)
    | Not(inner: Expr)
    | Neg(inner: Expr)

  datatype VarLength = VarLength(min: Option<nat>, max: Option<nat>)

  datatype Tok =
    | TIdent(name: string)
    | TStr(text: string)
    | TInt(n: int)
    | TFloat(spelling: string)
    | TLParen | TRParen | TLBracket | TRBracket | TLBrace | TRBrace
    | TColon | TComma | TDot | TDotDot
    | TDash | TStar | TPlus | TSlash
    | TLt | TGt | TEq | TNe | TLe | TGe
    | TEof

  function Lower(c: char): char { if 'A' <= c <= 'Z' then c + (32 as char) else c }

  /** Equality up to ASCII case. */
  predicate SameIgnoringCase(a: string, b: string) {
    |a| == |b| && forall i :: 0 <= i < |a| ==> Lower(a[i]) == Lower(b[i])
  }

  const CAPITALS: string := "ABCDEFGHIJKLMNOPQRSTUVWXYZ"
  const SMALL_LETTERS: string := "abcdefghijklmnopqrstuvwxyz"

  predicate IsCapital(c: char) { exists k :: 0 <= k < 26 && CAPITALS[k] == c }

  /** The capital itself or its small letter. */
  predicate EitherCase(capital: char, c: char) {
    c == capital || exists k :: 0 <= k < 26 && CAPITALS[k] == capital && SMALL_LETTERS[k] == c
  }

  /** The word, each letter capital or small. */
  predicate SpelledAs(name: string, word: string) {
    |name| == |word| && forall i :: 0 <= i < |name| ==> EitherCase(word[i], name[i])
  }

  predicate IsKeyword(t: Tok, kw: string) { t.TIdent? && SameIgnoringCase(t.name, kw) }

  lemma LettersPair()
    ensures |CAPITALS| == |SMALL_LETTERS| == 26
    ensures forall k :: 0 <= k < 26 ==> CAPITALS[k] == 'A' + k as char && SMALL_LETTERS[k] == 'a' + k as char
  {
  }

  lemma CapitalsAre(c: char)
    ensures IsCapital(c) <==> 'A' <= c <= 'Z'
  {
    LettersPair();
    if 'A' <= c <= 'Z' { assert CAPITALS[(c - 'A') as int] == c; }
  }

  lemma CasesAre(capital: char, c: char)
    requires IsCapital(capital)
    ensures EitherCase(capital, c) <==> c == capital || c == capital + (32 as char)
  {
    LettersPair();
    CapitalsAre(capital);
    if c == capital + (32 as char) { assert SMALL_LETTERS[(capital - 'A') as int] == c && CAPITALS[(capital - 'A') as int] == capital; }
  }

  lemma CasePairs(capital: char, c: char)
    requires IsCapital(capital)
    ensures Lower(c) == Lower(capital) <==> EitherCase(capital, c)
  {
    hide IsCapital, EitherCase;
    CapitalsAre(capital);
    CasesAre(capital, c);
  }

  /** A name is taken for a keyword exactly when it spells it. */
  lemma KeywordIff(name: string, word: string)
    requires forall i :: 0 <= i < |word| ==> IsCapital(word[i])
    ensures SameIgnoringCase(name, word) <==> SpelledAs(name, word)
  {
    hide Lower, EitherCase, IsCapital;
    if |name| == |word| {
      forall i | 0 <= i < |name| ensures Lower(name[i]) == Lower(word[i]) <==> EitherCase(word[i], name[i]) { CasePairs(word[i], name[i]); }
    }
  }

  /** The six words of the expression grammar. */
  predicate IsWord(word: string) { word == "OR" || word == "AND" || word == "NOT" || word == "TRUE" || word == "FALSE" || word == "NULL" }

  lemma WordIff(name: string, word: string)
    requires IsWord(word)
    ensures IsKeyword(TIdent(name), word) <==> SpelledAs(name, word)
  {
    forall i | 0 <= i < |word| ensures IsCapital(word[i]) { CapitalsAre(word[i]); }
    KeywordIff(name, word);
  }

  lemma WordsApart(a: string, b: string)
    requires IsWord(a) && IsWord(b) && a != b
    ensures |a| > 0 && |b| > 0 && (|a| != |b| || Lower(a[0]) != Lower(b[0]))
  {
  }

  /** No name spells two of them. */
  lemma WordsDiffer(name: string, a: string, b: string)
    requires IsWord(a) && IsWord(b) && a != b
    ensures IsKeyword(TIdent(name), a) ==> !IsKeyword(TIdent(name), b)
  {
    hide Lower;
    WordsApart(a, b);
  }

  // ---- Patterns ----

  datatype Direction = Right | Left | Either

  datatype NodePattern = NodePattern(variable: Option<string>, labels: seq<string>, properties: seq<(string, Literal)>)

  datatype RelPattern = RelPattern(
    variable: Option<string>,
    relType: Option<string>,
    direction: Direction,
    varLength: Option<VarLength>,
    properties: seq<(string, Literal)>)

  datatype Hop = Hop(rel: RelPattern, node: NodePattern)

  /** A start node and the relationship-node hops that follow it. */
  datatype Pattern = Pattern(start: NodePattern, hops: seq<Hop>)

  function NodeAt(p: Pattern, i: nat): NodePattern
    requires i <= |p.hops|
  {
    if i == 0 then p.start else p.hops[i - 1].node
  }

  // ---- Queries and write statements ----

  datatype ReturnItem = ReturnItem(expr: Expr, alias: Option<string>)

  datatype OrderItem = OrderItem(expr: Expr, descending: bool)

  datatype Query = Query(
    pattern: Pattern,
    where_: Option<Expr>,
    distinct: bool,
    items: seq<ReturnItem>,
    orderBy: seq<OrderItem>,
    skip: Option<nat>,
    limit: Option<nat>)

  datatype WriteClause =
    | SetProperty(variable: string, prop: string, value: Expr)
    | SetLabel(variable: string, name: string)
    | Delete(names: seq<string>, detach: bool)
    | RemoveProperty(variable: string, prop: string)
    | RemoveLabel(variable: string, name: string)

  datatype Statement = Statement(pattern: Option<Pattern>, where_: Option<Expr>, writes: seq<WriteClause>)
}
