/** The recursive-descent expression parser, and that it inverts a printer which
    parenthesises only where precedence requires. */
module CypherParser {
  import opened Options
  import opened Sequences
  import opened CypherSyntax

  // ---- Precedence ----

  // Levels, loosest first: 0 OR, 1 AND, 2 NOT, 3 comparison, 4 + -, 5 * /, 6 unary -, 7 atoms.

  function LevelOf(op: BinOp): nat {
    match op
    case Or => 0
    case And => 1
    case Eq => 3
    case Ne => 3
    case Lt => 3
    case Le => 3
    case Gt => 3
    case Ge => 3
    case Add => 4
    case Sub => 4
    case Mul => 5
    case Div => 5
  }

  /** The binary operator a token stands for, if any. */
  function OperatorOf(t: Tok): Option<BinOp> {
    match t
    case TIdent(_) => if IsKeyword(t, "OR") then Some(Or) else if IsKeyword(t, "AND") then Some(And) else None
    case TEq => Some(Eq)
    case TNe => Some(Ne)
    case TLt => Some(Lt)
    case TLe => Some(Le)
    case TGt => Some(Gt)
    case TGe => Some(Ge)
    case TPlus => Some(Add)
    case TDash => Some(Sub)
    case TStar => Some(Mul)
    case TSlash => Some(Div)
    case _ => None
  }

  predicate OperatorAt(t: Tok, level: nat) {
    OperatorOf(t).Some? && LevelOf(OperatorOf(t).value) == level
  }

  // ---- What the parser computes ----

  type Parsed = Option<(Expr, nat)>

  /** What the lexer guarantees: the last token, and only it, is the end marker. */
  ghost predicate Lexed(ts: seq<Tok>) {
    && |ts| > 0 && ts[|ts| - 1].TEof?
    && (forall i :: 0 <= i < |ts| - 1 ==> !ts[i].TEof?)
    && (forall i :: 0 <= i < |ts| && ts[i].TInt? ==> ts[i].n >= 0)
  }

  function Parse(level: nat, ts: seq<Tok>, p: nat): (r: Parsed)
    requires level <= 7
    ensures r.Some? ==> p < r.value.1 <= |ts|
    decreases |ts| - p, 8 - level
  {
    if p >= |ts| then None
    else if level == 0 || level == 1 || level == 4 || level == 5 then
      match Parse(level + 1, ts, p)
      case None => None
      case Some((lhs, q)) => ParseTail(level, ts, lhs, q)
    else if level == 2 then
      if IsKeyword(ts[p], "NOT") then
        match Parse(2, ts, p + 1)
        case None => None
        case Some((e, q)) => Some((Not(e), q))
      else Parse(3, ts, p)
    else if level == 3 then
      match Parse(4, ts, p)
      case None => None
      case Some((lhs, q)) =>
        if q < |ts| && OperatorAt(ts[q], 3) then
          match Parse(4, ts, q + 1)
          case None => None
          case Some((rhs, end)) => Some((Binary(OperatorOf(ts[q]).value, lhs, rhs), end))
        else Some((lhs, q))
    else if level == 6 && ts[p].TDash? then
      match Parse(6, ts, p + 1)
      case None => None
      case Some((e, q)) => Some((Neg(e), q))
    else ParseAtom(ts, p)
  }

  /** The loop of a left-associative level: `lhs` has been read, operators may follow. */
  function ParseTail(level: nat, ts: seq<Tok>, lhs: Expr, p: nat): (r: Parsed)
    requires level < 7
    ensures r.Some? ==> p <= r.value.1 && (p <= |ts| ==> r.value.1 <= |ts|)
    decreases |ts| - p, 9
  {
    if p < |ts| && OperatorAt(ts[p], level) then
      match Parse(level + 1, ts, p + 1)
      case None => None
      case Some((rhs, q)) => ParseTail(level, ts, Binary(OperatorOf(ts[p]).value, lhs, rhs), q)
    else Some((lhs, p))
  }

  function ParseAtom(ts: seq<Tok>, p: nat): (r: Parsed)
    requires p < |ts|
    ensures r.Some? ==> p < r.value.1 <= |ts|
    decreases |ts| - p, 0
  {
    match ts[p]
    case TLParen => (
      match Parse(0, ts, p + 1)
      case None => None
      case Some((e, q)) => if q < |ts| && ts[q].TRParen? then Some((e, q + 1)) else None)
    case TStr(s) => Some((Lit(Str(s)), p + 1))
    case TInt(n) => Some((Lit(Int(n)), p + 1))
    case TFloat(f) => Some((Lit(Float(f)), p + 1))
    case TIdent(name) =>
      if IsKeyword(ts[p], "TRUE") then Some((Lit(Bool(true)), p + 1))
      else if IsKeyword(ts[p], "FALSE") then Some((Lit(Bool(false)), p + 1))
      else if IsKeyword(ts[p], "NULL") then Some((Lit(Null), p + 1))
      else ParseProperties(ts, Variable(name), p + 1)
    case _ => None
  }

  function ParseProperties(ts: seq<Tok>, e: Expr, p: nat): (r: Parsed)
    ensures r.Some? ==> p <= r.value.1 && (p <= |ts| ==> r.value.1 <= |ts|)
    decreases |ts| - p
  {
    if p < |ts| && ts[p].TDot? then
      if p + 1 < |ts| && ts[p + 1].TIdent? then ParseProperties(ts, Property(e, ts[p + 1].name), p + 2) else None
    else Some((e, p))
  }

  // ---- Printing ----

  /** How the words of the grammar are written. */
  datatype Words = Words(or: string, and: string, not: string, yes: string, no: string, null_: string)

  /** Each in its letters, capital or small as one likes. */
  ghost predicate Spelt(w: Words) {
    && SpelledAs(w.or, "OR") && SpelledAs(w.and, "AND") && SpelledAs(w.not, "NOT")
    && SpelledAs(w.yes, "TRUE") && SpelledAs(w.no, "FALSE") && SpelledAs(w.null_, "NULL")
  }

  function TokenOf(w: Words, op: BinOp): Tok {
    match op
    case Or => TIdent(w.or)
    case And => TIdent(w.and)
    case Eq => TEq
    case Ne => TNe
    case Lt => TLt
    case Le => TLe
    case Gt => TGt
    case Ge => TGe
    case Add => TPlus
    case Sub => TDash
    case Mul => TStar
    case Div => TSlash
  }

  function Prec(e: Expr): nat {
    match e
    case Binary(op, _, _) => LevelOf(op)
    case Not(_) => 2
    case Neg(_) => 6
    case _ => 7
  }

  function RightLevel(op: BinOp): nat { LevelOf(op) + 1 }

  /** Comparisons do not chain, so both sides bind tighter. */
  function LeftLevel(op: BinOp): nat { if LevelOf(op) == 3 then 4 else LevelOf(op) }

  function Print(w: Words, level: nat, e: Expr): (r: seq<Tok>)
    ensures |r| > 0
    decreases e, if Prec(e) < level then 1 else 0
  {
    if Prec(e) < level then [TLParen] + Print(w, 0, e) + [TRParen]
    else
      match e
      case Binary(op, a, b) => Print(w, LeftLevel(op), a) + [TokenOf(w, op)] + Print(w, RightLevel(op), b)
      case Not(a) => [TIdent(w.not)] + Print(w, 2, a)
      case Neg(a) => [TDash] + Print(w, 6, a)
      case Variable(name) => [TIdent(name)]
      case Property(base, prop) => Print(w, 7, base) + [TDot, TIdent(prop)]
      case Lit(Str(s)) => [TStr(s)]
      case Lit(Int(n)) => [TInt(n)]
      case Lit(Float(f)) => [TFloat(f)]
      case Lit(Bool(b)) => [TIdent(if b then w.yes else w.no)]
      case Lit(Null) => [TIdent(w.null_)]
  }

  predicate IsLiteralWord(name: string) { SpelledAs(name, "TRUE") || SpelledAs(name, "FALSE") || SpelledAs(name, "NULL") }

  predicate Reserved(name: string) { SpelledAs(name, "NOT") || IsLiteralWord(name) }

  /** Trees the grammar can spell: variables are not reserved words, and properties
      hang off a variable. */
  predicate Spellable(e: Expr) {
    match e
    case Variable(name) => !Reserved(name)
    case Property(base, _) => (base.Variable? || base.Property?) && Spellable(base)
    case Lit(_) => true
    case Binary(_, a, b) => Spellable(a) && Spellable(b)
    case Not(a) => Spellable(a)
    case Neg(a) => Spellable(a)
  }

  // ---- The grammar ----

  /** The token stands for the operator; words are written in either case. */
  predicate SpellsOp(t: Tok, op: BinOp) {
    match op
    case Or => t.TIdent? && SpelledAs(t.name, "OR")
    case And => t.TIdent? && SpelledAs(t.name, "AND")
    case Eq => t == TEq
    case Ne => t == TNe
    case Lt => t == TLt
    case Le => t == TLe
    case Gt => t == TGt
    case Ge => t == TGe
    case Add => t == TPlus
    case Sub => t == TDash
    case Mul => t == TStar
    case Div => t == TSlash
  }

  /** A variable and the properties after it. */
  predicate IsChain(e: Expr, x: seq<Tok>) {
    match e
    case Variable(name) => x == [TIdent(name)] && !IsLiteralWord(name)
    case Property(base, prop) => |x| > 2 && x[|x| - 2..] == [TDot, TIdent(prop)] && IsChain(base, x[..|x| - 2])
    case _ => false
  }

  predicate IsLiteral(e: Expr, x: seq<Tok>) {
    |x| == 1 && e.Lit? && match e.literal
                          case Str(s) => x[0] == TStr(s)
                          case Int(n) => x[0] == TInt(n)
                          case Float(f) => x[0] == TFloat(f)
                          case Bool(b) => x[0].TIdent? && SpelledAs(x[0].name, if b then "TRUE" else "FALSE")
                          case Null => x[0].TIdent? && SpelledAs(x[0].name, "NULL")
  }

  /** `x` is a phrase of the level for the tree `e`: OR and AND, sums and products lean
      to the left, NOT and the sign stand in front (a NOT that stands first is never a name), a comparison does not chain, and
      parentheses may stand around anything. */
  ghost predicate Derives(level: nat, e: Expr, x: seq<Tok>)
    decreases |x|, 8 - level
  {
    if level == 0 || level == 1 || level == 4 || level == 5 then
      Derives(level + 1, e, x) || exists k: nat :: SplitsAt(level, e, x, k) && Derives(level, e.left, x[..k]) && Derives(level + 1, e.right, x[k + 1..])
    else if level == 2 then
      |x| > 0 && if StartsWithNot(x) then e.Not? && Derives(2, e.inner, x[1..]) else Derives(3, e, x)
    else if level == 3 then
      Derives(4, e, x) || exists k: nat :: SplitsAt(3, e, x, k) && Derives(4, e.left, x[..k]) && Derives(4, e.right, x[k + 1..])
    else if level == 6 then
      Derives(7, e, x) || (e.Neg? && |x| > 1 && x[0] == TDash && Derives(6, e.inner, x[1..]))
    else
      IsLiteral(e, x) || IsChain(e, x) || (|x| > 2 && x[0] == TLParen && x[|x| - 1] == TRParen && Derives(0, e, x[1..|x| - 1]))
  }

  predicate StartsWithNot(x: seq<Tok>) { |x| > 0 && x[0].TIdent? && SpelledAs(x[0].name, "NOT") }

  /** The operator of the tree stands at `k`. */
  predicate SplitsAt(level: nat, e: Expr, x: seq<Tok>, k: nat) {
    e.Binary? && LevelOf(e.op) == level && 0 < k < |x| - 1 && SpellsOp(x[k], e.op)
  }

  /** `t` cannot carry on an expression of this level. */
  predicate Stops(level: nat, t: Tok) {
    !t.TDot? && (OperatorOf(t).Some? ==> LevelOf(OperatorOf(t).value) < level)
  }

  ghost predicate Stands(ts: seq<Tok>, p: nat, x: seq<Tok>) {
    p + |x| < |ts| && ts[p..p + |x|] == x
  }

  lemma SpelledWords(t: Tok, op: BinOp)
    requires t.TIdent?
    ensures SpellsOp(t, op) <==> OperatorOf(t) == Some(op)
  {
    hide IsKeyword, SpelledAs;
    WordIff(t.name, "OR");
    WordIff(t.name, "AND");
    WordsDiffer(t.name, "AND", "OR");
  }

  lemma SpelledSigns(t: Tok, op: BinOp)
    requires !t.TIdent?
    ensures SpellsOp(t, op) <==> OperatorOf(t) == Some(op)
  {
    hide IsKeyword, SpelledAs;
  }

  lemma SpelledOps(t: Tok, op: BinOp)
    ensures SpellsOp(t, op) <==> OperatorOf(t) == Some(op)
    ensures SpellsOp(t, op) ==> Stops(LevelOf(op) + 1, t)
  {
    hide OperatorOf, SpellsOp;
    if t.TIdent? { SpelledWords(t, op); } else { SpelledSigns(t, op); }
    DotIsNoOperator();
  }

  lemma DotIsNoOperator()
    ensures OperatorOf(TDot) == None
  {
  }

  /** Any other name is taken for no literal. */
  lemma OtherNames(name: string)
    ensures !IsLiteralWord(name)
            <==> !IsKeyword(TIdent(name), "TRUE") && !IsKeyword(TIdent(name), "FALSE") && !IsKeyword(TIdent(name), "NULL")
  {
    hide IsKeyword, SpelledAs;
    WordIff(name, "TRUE");
    WordIff(name, "FALSE");
    WordIff(name, "NULL");
  }

  lemma StartsWithNotIff(x: seq<Tok>)
    requires |x| > 0
    ensures StartsWithNot(x) <==> IsKeyword(x[0], "NOT")
  {
    hide SpelledAs;
    if x[0].TIdent? { WordIff(x[0].name, "NOT"); } else { NotAWord(x[0]); }
  }

  // ---- Every phrase is parsed ----

  /** A phrase that stands before a token which cannot carry it on is read to its end, as
      its tree. */
  lemma {:induction false} PhraseParses(level: nat, e: Expr, x: seq<Tok>, ts: seq<Tok>, p: nat)
    requires level <= 7 && Derives(level, e, x) && Stands(ts, p, x) && Stops(level, ts[p + |x|])
    ensures Parse(level, ts, p) == Some((e, p + |x|))
    decreases |x|, 8 - level, 2
  {
    hide Parse, OperatorOf, IsKeyword, SpelledAs, IsChain, IsLiteral, SpellsOp;
    if level == 0 || level == 1 || level == 4 || level == 5 {
      PhraseReachesLoop(level, e, x, ts, p);
      TailStops(level, ts, e, p + |x|);
    } else if level == 2 {
      NotParses(e, x, ts, p);
    } else if level == 3 {
      ComparisonParses(e, x, ts, p);
    } else if level == 6 {
      SignParses(e, x, ts, p);
    } else {
      AtomParses(e, x, ts, p);
    }
  }

  lemma TailStops(level: nat, ts: seq<Tok>, e: Expr, q: nat)
    requires level < 7 && q < |ts| && Stops(level, ts[q])
    ensures ParseTail(level, ts, e, q) == Some((e, q))
  {
  }

  lemma StandsApart(ts: seq<Tok>, p: nat, x: seq<Tok>, k: nat)
    requires Stands(ts, p, x) && k < |x|
    ensures Stands(ts, p, x[..k]) && ts[p + k] == x[k] && Stands(ts, p + k + 1, x[k + 1..])
  {
    CutAt(ts, p, p + |x|, k);
  }

  /** On a left-associative level the parser, once past a phrase, is in its loop with
      exactly its tree read. */
  lemma {:induction false} PhraseReachesLoop(level: nat, e: Expr, x: seq<Tok>, ts: seq<Tok>, p: nat)
    requires level == 0 || level == 1 || level == 4 || level == 5
    requires Derives(level, e, x) && Stands(ts, p, x) && Stops(level + 1, ts[p + |x|])
    ensures Parse(level, ts, p) == ParseTail(level, ts, e, p + |x|)
    decreases |x|, 8 - level, 1
  {
    hide Parse, ParseTail, OperatorOf, IsKeyword, SpelledAs, SpellsOp, Stops, Derives;
    LoopPhrase(level, e, x);
    if Derives(level + 1, e, x) {
      PhraseParses(level + 1, e, x, ts, p);
      LoopStarts(level, ts, p, e, p + |x|);
    } else {
      var k: nat :| SplitsAt(level, e, x, k) && Derives(level, e.left, x[..k]) && Derives(level + 1, e.right, x[k + 1..]);
      StandsApart(ts, p, x, k);
      SpelledOps(x[k], e.op);
      PhraseReachesLoop(level, e.left, x[..k], ts, p);
      PhraseParses(level + 1, e.right, x[k + 1..], ts, p + k + 1);
      TailTakes(level, ts, e, p + k, p + |x|);
    }
  }

  lemma TailTakes(level: nat, ts: seq<Tok>, e: Expr, m: nat, q: nat)
    requires level < 7 && e.Binary? && LevelOf(e.op) == level
    requires m < |ts| && OperatorOf(ts[m]) == Some(e.op) && Parse(level + 1, ts, m + 1) == Some((e.right, q))
    ensures ParseTail(level, ts, e.left, m) == ParseTail(level, ts, e, q)
  {
    hide OperatorOf, Parse;
  }

  lemma LoopStarts(level: nat, ts: seq<Tok>, p: nat, e: Expr, q: nat)
    requires level == 0 || level == 1 || level == 4 || level == 5
    requires p < |ts| && Parse(level + 1, ts, p) == Some((e, q))
    ensures Parse(level, ts, p) == ParseTail(level, ts, e, q)
  {
    hide OperatorOf, ParseTail;
  }

  lemma {:induction false} NotParses(e: Expr, x: seq<Tok>, ts: seq<Tok>, p: nat)
    requires Derives(2, e, x) && Stands(ts, p, x) && Stops(2, ts[p + |x|])
    ensures Parse(2, ts, p) == Some((e, p + |x|))
    decreases |x|, 6, 1
  {
    hide OperatorOf, StartsWithNot, IsKeyword;
    StandsApart(ts, p, x, 0);
    StartsWithNotIff(x);
    if StartsWithNot(x) { PhraseParses(2, e.inner, x[1..], ts, p + 1); } else { PhraseParses(3, e, x, ts, p); }
  }

  lemma {:induction false} SignParses(e: Expr, x: seq<Tok>, ts: seq<Tok>, p: nat)
    requires Derives(6, e, x) && Stands(ts, p, x) && Stops(6, ts[p + |x|])
    ensures Parse(6, ts, p) == Some((e, p + |x|))
    decreases |x|, 2, 1
  {
    hide OperatorOf, SpelledAs, IsKeyword;
    PhraseNotEmpty(6, e, x);
    StandsApart(ts, p, x, 0);
    if Derives(7, e, x) {
      AtomStarts(e, x);
      PhraseParses(7, e, x, ts, p);
    } else {
      PhraseParses(6, e.inner, x[1..], ts, p + 1);
    }
  }

  lemma StopsHigher(low: nat, high: nat, t: Tok)
    requires low <= high && Stops(low, t)
    ensures Stops(high, t)
  {
    hide OperatorOf;
  }

  lemma ComparisonTakes(ts: seq<Tok>, p: nat, e: Expr, m: nat, q: nat)
    requires e.Binary? && LevelOf(e.op) == 3 && Parse(4, ts, p) == Some((e.left, m))
    requires m < |ts| && OperatorOf(ts[m]) == Some(e.op) && Parse(4, ts, m + 1) == Some((e.right, q))
    ensures Parse(3, ts, p) == Some((e, q))
  {
    hide OperatorOf;
  }

  lemma NoComparison(ts: seq<Tok>, p: nat, e: Expr, q: nat)
    requires Parse(4, ts, p) == Some((e, q)) && q < |ts| && Stops(3, ts[q])
    ensures Parse(3, ts, p) == Some((e, q))
  {
    hide OperatorOf;
  }

  lemma ComparisonPhrase(e: Expr, x: seq<Tok>)
    ensures Derives(3, e, x)
            <==> Derives(4, e, x) || exists k: nat :: SplitsAt(3, e, x, k) && Derives(4, e.left, x[..k]) && Derives(4, e.right, x[k + 1..])
  {
    hide SplitsAt;
  }

  lemma LoopPhrase(level: nat, e: Expr, x: seq<Tok>)
    requires level == 0 || level == 1 || level == 4 || level == 5
    ensures Derives(level, e, x)
            <==> Derives(level + 1, e, x) || exists k: nat :: SplitsAt(level, e, x, k) && Derives(level, e.left, x[..k]) && Derives(level + 1, e.right, x[k + 1..])
  {
    hide SplitsAt;
  }

  lemma {:induction false} ComparisonParses(e: Expr, x: seq<Tok>, ts: seq<Tok>, p: nat)
    requires Derives(3, e, x) && Stands(ts, p, x) && Stops(3, ts[p + |x|])
    ensures Parse(3, ts, p) == Some((e, p + |x|))
    decreases |x|, 5, 1
  {
    hide OperatorOf, SpelledAs, IsKeyword, SpellsOp, Parse, Stops, Derives;
    ComparisonPhrase(e, x);
    StopsHigher(3, 4, ts[p + |x|]);
    if Derives(4, e, x) {
      PhraseParses(4, e, x, ts, p);
      NoComparison(ts, p, e, p + |x|);
    } else {
      var k: nat :| SplitsAt(3, e, x, k) && Derives(4, e.left, x[..k]) && Derives(4, e.right, x[k + 1..]);
      StandsApart(ts, p, x, k);
      SpelledOps(x[k], e.op);
      PhraseParses(4, e.left, x[..k], ts, p);
      PhraseParses(4, e.right, x[k + 1..], ts, p + k + 1);
      ComparisonTakes(ts, p, e, p + k, p + |x|);
    }
  }

  lemma {:induction false} PhraseNotEmpty(level: nat, e: Expr, x: seq<Tok>)
    requires Derives(level, e, x)
    ensures |x| > 0
    decreases 8 - level
  {
    if level < 7 && level != 2 && |x| == 0 { PhraseNotEmpty(level + 1, e, x); }
  }

  /** No atom starts with a minus. */
  lemma AtomStarts(e: Expr, x: seq<Tok>)
    requires Derives(7, e, x)
    ensures |x| > 0 && x[0] != TDash
  {
    hide SpelledAs, IsLiteralWord;
    if IsChain(e, x) { ChainStarts(e, x); }
  }

  lemma NotAWord(t: Tok)
    requires !t.TIdent?
    ensures !IsKeyword(t, "NOT")
  {
  }

  lemma {:induction false} ChainStarts(e: Expr, x: seq<Tok>)
    requires IsChain(e, x)
    ensures |x| > 0 && x[0].TIdent?
    decreases e
  {
    hide IsLiteralWord;
    if e.Property? { ChainStarts(e.base, x[..|x| - 2]); }
  }

  lemma {:induction false} AtomParses(e: Expr, x: seq<Tok>, ts: seq<Tok>, p: nat)
    requires Derives(7, e, x) && Stands(ts, p, x) && Stops(7, ts[p + |x|])
    ensures Parse(7, ts, p) == Some((e, p + |x|))
    decreases |x|, 1, 1
  {
    hide OperatorOf, SpelledAs, IsKeyword, ParseAtom;
    PhraseNotEmpty(7, e, x);
    if IsLiteral(e, x) {
      LiteralParses(e, x, ts, p);
    } else if IsChain(e, x) {
      ChainParses(e, x, ts, p);
      assert ParseProperties(ts, e, p + |x|) == Some((e, p + |x|));
    } else {
      var n := |x| - 1;
      ParensStand(ts, p, x);
      ParenStops();
      PhraseParses(0, e, x[1..n], ts, p + 1);
      ReadsParens(ts, p, e, p + n);
    }
  }

  lemma ParensStand(ts: seq<Tok>, p: nat, x: seq<Tok>)
    requires Stands(ts, p, x) && |x| > 2
    ensures ts[p] == x[0] && ts[p + |x| - 1] == x[|x| - 1] && Stands(ts, p + 1, x[1..|x| - 1])
  {
    SliceOfSlice(ts, p, p + |x|, 1, |x| - 1);
    StandsApart(ts, p, x, 0);
    StandsApart(ts, p, x, |x| - 1);
  }

  lemma ParenStops()
    ensures Stops(0, TRParen)
  {
  }

  lemma ReadsParens(ts: seq<Tok>, p: nat, e: Expr, q: nat)
    requires p < q < |ts| && ts[p] == TLParen && ts[q] == TRParen && Parse(0, ts, p + 1) == Some((e, q))
    ensures ParseAtom(ts, p) == Some((e, q + 1))
  {
    hide Parse, SameIgnoringCase;
  }

  lemma LiteralParses(e: Expr, x: seq<Tok>, ts: seq<Tok>, p: nat)
    requires IsLiteral(e, x) && Stands(ts, p, x)
    ensures ParseAtom(ts, p) == Some((e, p + 1))
  {
    hide SpelledAs, IsKeyword;
    StandsApart(ts, p, x, 0);
    if x[0].TIdent? {
      WordIff(x[0].name, "TRUE");
      WordIff(x[0].name, "FALSE");
      WordIff(x[0].name, "NULL");
      WordsDiffer(x[0].name, "FALSE", "TRUE");
      WordsDiffer(x[0].name, "NULL", "TRUE");
      WordsDiffer(x[0].name, "NULL", "FALSE");
    }
  }

  /** A property chain is read variable first, one dot at a time. */
  lemma {:induction false} ChainParses(e: Expr, x: seq<Tok>, ts: seq<Tok>, p: nat)
    requires IsChain(e, x) && Stands(ts, p, x)
    ensures |x| > 0 && ParseAtom(ts, p) == ParseProperties(ts, e, p + |x|)
    decreases e
  {
    hide SpelledAs, IsKeyword;
    match e
    case Variable(name) =>
      StandsApart(ts, p, x, 0);
      OtherNames(name);
    case Property(base, prop) =>
      var m := |x| - 2;
      StandsApart(ts, p, x, m);
      StandsApart(ts, p, x, m + 1);
      assert x[m..][0] == x[m] && x[m..][1] == x[m + 1];
      hide ParseAtom;
      ChainParses(base, x[..m], ts, p);
  }

  // ---- Whatever is parsed is a phrase ----

  /** What the parser reads is a phrase for the tree it gives. */
  lemma {:induction false} ParsedIsPhrase(level: nat, ts: seq<Tok>, p: nat)
    requires level <= 7 && Parse(level, ts, p).Some?
    ensures var (e, q) := Parse(level, ts, p).value; p < q <= |ts| && Derives(level, e, ts[p..q])
    decreases |ts| - p, 8 - level, 2
  {
    hide OperatorOf, SpelledAs, IsKeyword, ParseAtom, SpellsOp;
    var (e, q) := Parse(level, ts, p).value;
    if level == 0 || level == 1 || level == 4 || level == 5 {
      ParsedIsPhrase(level + 1, ts, p);
      var (lhs, m) := Parse(level + 1, ts, p).value;
      LoopReadsPhrase(level, ts, lhs, p, m);
    } else if level == 2 {
      NotIsPhrase(ts, p);
    } else if level == 3 {
      ComparisonIsPhrase(ts, p);
    } else if level == 6 && ts[p].TDash? {
      ParsedIsPhrase(6, ts, p + 1);
      CutAt(ts, p, q, 0);
    } else {
      AtomIsPhrase(ts, p);
    }
  }

  lemma {:induction false} LoopReadsPhrase(level: nat, ts: seq<Tok>, lhs: Expr, p: nat, m: nat)
    requires level == 0 || level == 1 || level == 4 || level == 5
    requires p < m <= |ts| && Derives(level, lhs, ts[p..m]) && ParseTail(level, ts, lhs, m).Some?
    ensures var (e, q) := ParseTail(level, ts, lhs, m).value; p < q <= |ts| && Derives(level, e, ts[p..q])
    decreases |ts| - p, 8 - level, 1, |ts| - m
  {
    hide OperatorOf, SpelledAs, IsKeyword, SpellsOp, Parse;
    if m < |ts| && OperatorAt(ts[m], level) {
      ParsedIsPhrase(level + 1, ts, m + 1);
      var (rhs, q) := Parse(level + 1, ts, m + 1).value;
      var e := Binary(OperatorOf(ts[m]).value, lhs, rhs);
      var x, k: nat := ts[p..q], m - p;
      SpelledOps(ts[m], e.op);
      CutAt(ts, p, q, k);
      assert SplitsAt(level, e, x, k);
      LoopReadsPhrase(level, ts, e, p, q);
    }
  }

  lemma {:induction false} NotIsPhrase(ts: seq<Tok>, p: nat)
    requires Parse(2, ts, p).Some?
    ensures var (e, q) := Parse(2, ts, p).value; p < q <= |ts| && Derives(2, e, ts[p..q])
    decreases |ts| - p, 6, 1
  {
    hide OperatorOf, StartsWithNot, IsKeyword;
    var (e, q) := Parse(2, ts, p).value;
    ParsedIsPhrase(if IsKeyword(ts[p], "NOT") then 2 else 3, ts, if IsKeyword(ts[p], "NOT") then p + 1 else p);
    var x := ts[p..q];
    CutAt(ts, p, q, 0);
    StartsWithNotIff(x);
  }

  lemma {:induction false} ComparisonIsPhrase(ts: seq<Tok>, p: nat)
    requires Parse(3, ts, p).Some?
    ensures var (e, q) := Parse(3, ts, p).value; p < q <= |ts| && Derives(3, e, ts[p..q])
    decreases |ts| - p, 5, 1
  {
    hide OperatorOf, SpelledAs, IsKeyword, SpellsOp;
    ParsedIsPhrase(4, ts, p);
    var (lhs, m) := Parse(4, ts, p).value;
    if m < |ts| && OperatorAt(ts[m], 3) {
      ParsedIsPhrase(4, ts, m + 1);
      var (e, q) := Parse(3, ts, p).value;
      var x, k: nat := ts[p..q], m - p;
      SpelledOps(ts[m], e.op);
      CutAt(ts, p, q, k);
      assert SplitsAt(3, e, x, k);
    }
  }

  lemma {:induction false} AtomIsPhrase(ts: seq<Tok>, p: nat)
    requires p < |ts| && ParseAtom(ts, p).Some?
    ensures var (e, q) := ParseAtom(ts, p).value; p < q <= |ts| && Derives(7, e, ts[p..q])
    decreases |ts| - p, 1, 1
  {
    hide OperatorOf, SpelledAs, IsKeyword, Parse;
    var (e, q) := ParseAtom(ts, p).value;
    assert ts[p..p + 1] == [ts[p]];
    match ts[p]
    case TLParen =>
      ParsedIsPhrase(0, ts, p + 1);
      SliceOfSlice(ts, p, q, 1, q - p - 1);
      assert ts[p..q][0] == ts[p] && ts[p..q][|ts[p..q]| - 1] == ts[q - 1];
    case TIdent(name) =>
      WordIff(name, "TRUE");
      WordIff(name, "FALSE");
      WordIff(name, "NULL");
      if !IsKeyword(ts[p], "TRUE") && !IsKeyword(ts[p], "FALSE") && !IsKeyword(ts[p], "NULL") {
        OtherNames(name);
        DotsReadChain(ts, Variable(name), p, p + 1);
      }
    case _ =>
  }

  lemma {:induction false} DotsReadChain(ts: seq<Tok>, e: Expr, p: nat, m: nat)
    requires p < m <= |ts| && IsChain(e, ts[p..m]) && ParseProperties(ts, e, m).Some?
    ensures var (r, q) := ParseProperties(ts, e, m).value; p < q <= |ts| && IsChain(r, ts[p..q])
    decreases |ts| - m
  {
    hide IsLiteralWord;
    if m < |ts| && ts[m].TDot? {
      var x := ts[p..m + 2];
      CutAt(ts, p, m + 2, m - p);
      SliceOfSlice(ts, p, m + 2, m - p, m + 2 - p);
      assert x[|x| - 2..] == ts[m..m + 2] == [ts[m], ts[m + 1]];
      DotsReadChain(ts, Property(e, ts[m + 1].name), p, m + 2);
    }
  }

  // ---- Printed trees are phrases ----

  lemma {:induction false} HigherLevel(low: nat, high: nat, e: Expr, x: seq<Tok>)
    requires low <= high <= 7 && Derives(high, e, x) && (low <= 2 < high ==> |x| > 0 && !StartsWithNot(x))
    ensures Derives(low, e, x)
    decreases high - low
  {
    if low < high { HigherLevel(low + 1, high, e, x); }
  }

  /** A tree printed above level 2 does not start with NOT. */
  lemma {:induction false} PrintStarts(w: Words, level: nat, e: Expr)
    requires Spelt(w) && Spellable(e) && level >= 3
    ensures !StartsWithNot(Print(w, level, e))
    decreases e
  {
    hide SpelledAs;
    if Prec(e) >= level {
      match e
      case Binary(op, a, _) => PrintStarts(w, LeftLevel(op), a);
      case Property(base, _) => PrintStarts(w, 7, base);
      case Lit(_) => WordsAreNot(w);
      case _ =>
    }
  }

  lemma WordsAreNot(w: Words)
    requires Spelt(w)
    ensures !SpelledAs(w.yes, "NOT") && !SpelledAs(w.no, "NOT") && !SpelledAs(w.null_, "NOT")
  {
    hide SpelledAs, IsKeyword;
    WordIff(w.yes, "TRUE");
    WordIff(w.no, "FALSE");
    WordIff(w.null_, "NULL");
    WordIff(w.yes, "NOT");
    WordIff(w.no, "NOT");
    WordIff(w.null_, "NOT");
    WordsDiffer(w.yes, "TRUE", "NOT");
    WordsDiffer(w.no, "FALSE", "NOT");
    WordsDiffer(w.null_, "NULL", "NOT");
  }

  lemma {:induction false} PrintDerives(w: Words, level: nat, e: Expr)
    requires Spelt(w) && level <= 7 && Spellable(e)
    ensures Derives(level, e, Print(w, level, e))
    decreases e, if Prec(e) < level then 1 else 0
  {
    hide SpelledAs, Reserved, StartsWithNot;
    var x := Print(w, level, e);
    if Prec(e) < level {
      PrintDerives(w, 0, e);
      assert x[1..|x| - 1] == Print(w, 0, e);
      assert !StartsWithNot(x) by { ParenIsNotNot(x); }
      HigherLevel(level, 7, e, x);
    } else {
      if Prec(e) > 2 {
        SamePrint(w, level, e);
        PrintStarts(w, 3, e);
      }
      match e
      case Binary(op, a, b) =>
        PrintDerives(w, LeftLevel(op), a);
        PrintDerives(w, RightLevel(op), b);
        BinaryDerives(w, e, x);
        HigherLevel(level, LevelOf(op), e, x);
      case Not(a) =>
        PrintDerives(w, 2, a);
        assert x[1..] == Print(w, 2, a);
        assert StartsWithNot(x) by { NotStarts(x, w); }
        HigherLevel(level, 2, e, x);
      case Neg(a) =>
        PrintDerives(w, 6, a);
        assert x[1..] == Print(w, 6, a);
        HigherLevel(level, 6, e, x);
      case Lit(_) => HigherLevel(level, 7, e, x);
      case _ =>
        PrintIsChain(w, e);
        HigherLevel(level, 7, e, x);
    }
  }

  lemma BinaryDerives(w: Words, e: Expr, x: seq<Tok>)
    requires Spelt(w) && e.Binary? && x == Print(w, LeftLevel(e.op), e.left) + [TokenOf(w, e.op)] + Print(w, RightLevel(e.op), e.right)
    requires Derives(LeftLevel(e.op), e.left, Print(w, LeftLevel(e.op), e.left))
    requires Derives(RightLevel(e.op), e.right, Print(w, RightLevel(e.op), e.right))
    ensures Derives(LevelOf(e.op), e, x)
  {
    hide SpelledAs, Print;
    var l, r := Print(w, LeftLevel(e.op), e.left), Print(w, RightLevel(e.op), e.right);
    var k: nat := |l|;
    assert x[..k] == l && x[k] == TokenOf(w, e.op) && x[k + 1..] == r;
    assert SplitsAt(LevelOf(e.op), e, x, k);
  }

  lemma SamePrint(w: Words, level: nat, e: Expr)
    requires level <= Prec(e) && Prec(e) > 2
    ensures Print(w, level, e) == Print(w, 3, e)
  {
  }

  lemma ParenIsNotNot(x: seq<Tok>)
    requires |x| > 0 && x[0] == TLParen
    ensures !StartsWithNot(x)
  {
  }

  lemma NotStarts(x: seq<Tok>, w: Words)
    requires Spelt(w) && |x| > 0 && x[0] == TIdent(w.not)
    ensures StartsWithNot(x)
  {
  }

  lemma {:induction false} PrintIsChain(w: Words, e: Expr)
    requires (e.Variable? || e.Property?) && Spellable(e)
    ensures IsChain(e, Print(w, 7, e)) && forall level :: level <= 7 ==> Print(w, level, e) == Print(w, 7, e)
    decreases e
  {
    hide SpelledAs;
    if e.Property? {
      PrintIsChain(w, e.base);
      var x := Print(w, 7, e);
      assert x[..|x| - 2] == Print(w, 7, e.base) && x[|x| - 2..] == [TDot, TIdent(e.prop)];
    }
  }

  /** Reading back what was printed gives the tree and stops right behind it. */
  lemma RoundTrip(w: Words, level: nat, e: Expr, ts: seq<Tok>, p: nat)
    requires level <= 7 && Spelt(w) && Spellable(e) && Stands(ts, p, Print(w, level, e))
    requires Stops(level, ts[p + |Print(w, level, e)|])
    ensures Parse(level, ts, p) == Some((e, p + |Print(w, level, e)|))
  {
    hide Print, Parse, Derives, Spelt;
    PrintDerives(w, level, e);
    PhraseParses(level, e, Print(w, level, e), ts, p);
  }

  /** So the printed form identifies the tree, whatever the spelling. */
  lemma PrintInjective(v: Words, w: Words, a: Expr, b: Expr)
    requires Spelt(v) && Spelt(w) && Spellable(a) && Spellable(b) && Print(v, 0, a) == Print(w, 0, b)
    ensures a == b
  {
    hide Print, Parse, OperatorOf, Spelt;
    var ts := Print(v, 0, a) + [TEof];
    assert ts[0..0 + |Print(v, 0, a)|] == Print(v, 0, a);
    assert Stops(0, TEof) by { EndStops(); }
    RoundTrip(v, 0, a, ts, 0);
    RoundTrip(w, 0, b, ts, 0);
  }

  lemma EndStops()
    ensures forall level :: Stops(level, TEof)
  {
  }

  // ---- The parser itself ----

  class Parser {
    const toks: seq<Tok>
    var pos: nat

    ghost predicate Valid()
      reads this
    {
      Lexed(toks) && pos < |toks|
    }

    constructor (toks: seq<Tok>)
      requires Lexed(toks)
      ensures Valid() && pos == 0 && this.toks == toks
    {
      this.toks, this.pos := toks, 0;
    }

    function Peek(): Tok
      requires Valid()
      reads this
    {
      toks[pos]
    }

    /** Consumes a token, but never the end marker. */
    method Advance() returns (t: Tok)
      requires Valid()
      modifies this
      ensures Valid() && t == toks[old(pos)]
      ensures pos == if t.TEof? then old(pos) else old(pos) + 1
    {
      t := toks[pos];
      if pos + 1 < |toks| { pos := pos + 1; }
    }

    /** The method has done what the level's grammar says of the tokens it was at. */
    ghost predicate Did(expected: Parsed, r: Result<Expr>)
      reads this
    {
      Valid() && match expected
                 case None => r.Err?
                 case Some((e, q)) => r == Ok(e) && pos == q
    }

    method ParseExpr() returns (r: Result<Expr>)
      requires Valid()
      modifies this
      ensures Did(Parse(0, toks, old(pos)), r)
      decreases |toks| - pos, 9
    {
      r := ParseOr();
    }

    method ParseOr() returns (r: Result<Expr>)
      requires Valid()
      modifies this
      ensures Did(Parse(0, toks, old(pos)), r)
      decreases |toks| - pos, 8
    {
      r := ParseAnd();
      if r.Err? { return; }
      var lhs := r.value;
      while IsKeyword(Peek(), "OR")
        invariant Valid() && pos > old(pos)
        invariant Parse(0, toks, old(pos)) == ParseTail(0, toks, lhs, pos)
        decreases |toks| - pos
      {
        var _ := Advance();
        r := ParseAnd();
        if r.Err? { return; }
        lhs := Binary(Or, lhs, r.value);
      }
      return Ok(lhs);
    }

    method ParseAnd() returns (r: Result<Expr>)
      requires Valid()
      modifies this
      ensures Did(Parse(1, toks, old(pos)), r)
      decreases |toks| - pos, 7
    {
      r := ParseNot();
      if r.Err? { return; }
      var lhs := r.value;
      while IsKeyword(Peek(), "AND")
        invariant Valid() && pos > old(pos)
        invariant Parse(1, toks, old(pos)) == ParseTail(1, toks, lhs, pos)
        decreases |toks| - pos
      {
        var _ := Advance();
        r := ParseNot();
        if r.Err? { return; }
        lhs := Binary(And, lhs, r.value);
      }
      return Ok(lhs);
    }

    method ParseNot() returns (r: Result<Expr>)
      requires Valid()
      modifies this
      ensures Did(Parse(2, toks, old(pos)), r)
      decreases |toks| - pos, 6
    {
      if IsKeyword(Peek(), "NOT") {
        var _ := Advance();
        r := ParseNot();
        if r.Ok? { r := Ok(Not(r.value)); }
      } else {
        r := ParseComparison();
      }
    }

    method ParseComparison() returns (r: Result<Expr>)
      requires Valid()
      modifies this
      ensures Did(Parse(3, toks, old(pos)), r)
      decreases |toks| - pos, 5
    {
      r := ParseAdditive();
      if r.Err? { return; }
      var lhs := r.value;
      var op :=
        match Peek()
        case TEq => Some(Eq)
        case TNe => Some(Ne)
        case TLt => Some(Lt)
        case TLe => Some(Le)
        case TGt => Some(Gt)
        case TGe => Some(Ge)
        case _ => None;
      if op.Some? {
        var _ := Advance();
        r := ParseAdditive();
        if r.Ok? { r := Ok(Binary(op.value, lhs, r.value)); }
      }
    }

    method ParseAdditive() returns (r: Result<Expr>)
      requires Valid()
      modifies this
      ensures Did(Parse(4, toks, old(pos)), r)
      decreases |toks| - pos, 4
    {
      r := ParseMultiplicative();
      if r.Err? { return; }
      var lhs := r.value;
      while Peek().TPlus? || Peek().TDash?
        invariant Valid() && pos > old(pos)
        invariant Parse(4, toks, old(pos)) == ParseTail(4, toks, lhs, pos)
        decreases |toks| - pos
      {
        var t := Advance();
        r := ParseMultiplicative();
        if r.Err? { return; }
        lhs := Binary(if t.TPlus? then Add else Sub, lhs, r.value);
      }
      return Ok(lhs);
    }

    method ParseMultiplicative() returns (r: Result<Expr>)
      requires Valid()
      modifies this
      ensures Did(Parse(5, toks, old(pos)), r)
      decreases |toks| - pos, 3
    {
      r := ParseUnary();
      if r.Err? { return; }
      var lhs := r.value;
      while Peek().TStar? || Peek().TSlash?
        invariant Valid() && pos > old(pos)
        invariant Parse(5, toks, old(pos)) == ParseTail(5, toks, lhs, pos)
        decreases |toks| - pos
      {
        var t := Advance();
        r := ParseUnary();
        if r.Err? { return; }
        lhs := Binary(if t.TStar? then Mul else Div, lhs, r.value);
      }
      return Ok(lhs);
    }

    method ParseUnary() returns (r: Result<Expr>)
      requires Valid()
      modifies this
      ensures Did(Parse(6, toks, old(pos)), r)
      decreases |toks| - pos, 2
    {
      if Peek().TDash? {
        var _ := Advance();
        r := ParseUnary();
        if r.Ok? { r := Ok(Neg(r.value)); }
      } else {
        r := ParseAtomTok();
      }
    }

    method ParseAtomTok() returns (r: Result<Expr>)
      requires Valid()
      modifies this
      ensures Did(ParseAtom(toks, old(pos)), r)
      decreases |toks| - pos, 1
    {
      match Peek() {
        case TLParen =>
          var _ := Advance();
          r := ParseExpr();
          if r.Ok? {
            if !Peek().TRParen? { return Err; }
            var _ := Advance();
          }
        case TStr(s) => var _ := Advance(); return Ok(Lit(Str(s)));
        case TInt(n) => var _ := Advance(); return Ok(Lit(Int(n)));
        case TFloat(f) => var _ := Advance(); return Ok(Lit(Float(f)));
        case TIdent(name) =>
          var t := Advance();
          if IsKeyword(t, "TRUE") { return Ok(Lit(Bool(true))); }
          if IsKeyword(t, "FALSE") { return Ok(Lit(Bool(false))); }
          if IsKeyword(t, "NULL") { return Ok(Lit(Null)); }
          r := ParseDots(name);
        case _ => return Err;
      }
    }

    method ParseDots(name: string) returns (r: Result<Expr>)
      requires Valid()
      modifies this
      ensures Did(ParseProperties(toks, Variable(name), old(pos)), r)
    {
      var e := Variable(name);
      while Peek().TDot?
        invariant Valid()
        invariant ParseProperties(toks, Variable(name), old(pos)) == ParseProperties(toks, e, pos)
        decreases |toks| - pos
      {
        var _ := Advance();
        if !Peek().TIdent? { return Err; }
        var t := Advance();
        e := Property(e, t.name);
      }
      return Ok(e);
    }

    /** The bounds after `*`: one number alone means exactly that many. What is written at
        the cursor is read, to its end. The branch the source calls unreachable is:
        integers come from the lexer without a sign. */
    method ParseVarLength() returns (r: VarLength)
      requires Valid()
      modifies this
      ensures Valid() && (r, pos) == VarLengthAt(toks, old(pos))
      ensures BoundsStand(toks, old(pos), pos, r)
    {
      BoundsAreRead(toks, pos, VarLengthAt(toks, pos).1, VarLengthAt(toks, pos).0);
      var min := ParseBound();
      if Peek().TDotDot? {
        var _ := Advance();
        var max := ParseBound();
        return VarLength(min, max);
      }
      return VarLength(min, min);
    }

    method ParseBound() returns (r: Option<nat>)
      requires Valid()
      modifies this
      ensures Valid() && (r, pos) == BoundAt(toks, old(pos))
    {
      if !Peek().TInt? { return None; }
      var t := Advance();
      return Some(t.n);
    }
  }

  /** All ways to write bounds after `*`, writing none included. */
  predicate WritesBounds(v: VarLength, x: seq<Tok>) {
    match v
    case VarLength(None, None) => x == [] || x == [TDotDot]
    case VarLength(Some(n), None) => x == [TInt(n), TDotDot]
    case VarLength(None, Some(m)) => x == [TDotDot, TInt(m)]
    case VarLength(Some(n), Some(m)) => x == [TInt(n), TDotDot, TInt(m)] || (n == m && x == [TInt(n)])
  }

  /** Bounds written at `p`, before a token that cannot belong to them. */
  ghost predicate BoundsStand(ts: seq<Tok>, p: nat, q: nat, v: VarLength) {
    p <= q < |ts| && WritesBounds(v, ts[p..q]) && BoundsEnd(ts[p..q], ts[q])
  }

  predicate BoundsEnd(x: seq<Tok>, t: Tok) {
    match |x|
    case 0 => !t.TInt? && !t.TDotDot?
    case 1 => if x[0].TDotDot? then !t.TInt? else !t.TDotDot?
    case 2 => x[0].TInt? ==> !t.TInt?
    case _ => true
  }

  lemma SmallSlices(ts: seq<Tok>, p: nat)
    requires p <= |ts|
    ensures ts[p..p] == []
    ensures p + 1 <= |ts| ==> ts[p..p + 1] == [ts[p]]
    ensures p + 2 <= |ts| ==> ts[p..p + 2] == [ts[p], ts[p + 1]]
    ensures p + 3 <= |ts| ==> ts[p..p + 3] == [ts[p], ts[p + 1], ts[p + 2]]
  {
  }

  /** Bounds are read exactly where they are written, in whatever way. */
  lemma BoundsAreRead(ts: seq<Tok>, p: nat, q: nat, v: VarLength)
    requires Lexed(ts) && p < |ts|
    ensures VarLengthAt(ts, p) == (v, q) <==> BoundsStand(ts, p, q, v)
  {
    SmallSlices(ts, p);
    if BoundsStand(ts, p, q, v) { assert q == p || q == p + 1 || q == p + 2 || q == p + 3; }
  }

  ghost function BoundAt(ts: seq<Tok>, p: nat): (Option<nat>, nat)
    requires Lexed(ts) && p < |ts|
  {
    if ts[p].TInt? then (Some(ts[p].n), p + 1) else (None, p)
  }

  /** `n`, `n..`, `..m`, `n..m` or nothing at all. */
  ghost function VarLengthAt(ts: seq<Tok>, p: nat): (VarLength, nat)
    requires Lexed(ts) && p < |ts|
  {
    var (min, q) := BoundAt(ts, p);
    if ts[q].TDotDot? then var (max, end) := BoundAt(ts, q + 1); (VarLength(min, max), end)
    else (VarLength(min, min), q)
  }
}
