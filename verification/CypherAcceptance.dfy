/** What is accepted and what is refused, said without the functions that decide it, and
    the names and IRIs things get. */
module CypherAcceptance {
  import opened Options
  import opened CypherSyntax
  import opened Numerals
  import opened Sparql
  import opened CypherMapping

  // ---- Names ----

  /** A letter, a digit or an underscore, letters and digits being listed. */
  predicate IsWordChar(c: char) {
    c == '_' || (exists k :: 0 <= k < 26 && (CAPITALS[k] == c || SMALL_LETTERS[k] == c)) || exists k :: 0 <= k < 10 && "0123456789"[k] == c
  }

  lemma WordCharsAre(c: char)
    ensures IsWordChar(c) <==> 'a' <= c <= 'z' || 'A' <= c <= 'Z' || '0' <= c <= '9' || c == '_'
  {
    LettersPair();
    assert forall k :: 0 <= k < 10 ==> "0123456789"[k] == '0' + k as char;
    if 'A' <= c <= 'Z' { assert CAPITALS[(c - 'A') as int] == c; }
    if 'a' <= c <= 'z' { assert SMALL_LETTERS[(c - 'a') as int] == c; }
    if '0' <= c <= '9' { assert "0123456789"[(c - '0') as int] == c; }
  }

  /** Legal names are the words of such characters. */
  lemma LegalNames(name: string)
    ensures IsVariableName(name) <==> |name| > 0 && forall c :: c in name ==> IsWordChar(c)
  {
    hide IsWordChar;
    forall c ensures IsWordChar(c) <==> 'a' <= c <= 'z' || 'A' <= c <= 'Z' || '0' <= c <= '9' || c == '_' { WordCharsAre(c); }
    if |name| > 0 && forall c :: c in name ==> IsWordChar(c) {
      forall i | 0 <= i < |name| ensures IsWordChar(name[i]) { assert name[i] in name; }
    }
  }

  /** A column is called as AS says; without one, a variable's is called after it and a
      property's after node and property. Nothing else has a name. */
  ghost predicate IsColumnOf(item: ReturnItem, name: string) {
    if item.alias.Some? then item.alias.value == name
    else item.expr == Variable(name) || exists v, prop :: item.expr == Property(Variable(v), prop) && name == v + "_" + prop
  }

  lemma ColumnsAre(item: ReturnItem, name: string)
    ensures Column(item) == Some(name) <==> IsColumnOf(item, name)
  {
    if item.alias.None? && item.expr.Property? && item.expr.base.Variable? {
      var v, prop := item.expr.base.name, item.expr.prop;
      assert item.expr == Property(Variable(v), prop);
      if Column(item) == Some(name) { assert name == v + "_" + prop; }
    }
  }

  // ---- IRIs ----

  /** Labels, relationship types and properties are never taken for one another. */
  lemma NamespacesApart(a: string, b: string, c: string)
    ensures LabelIri(a) != RelIri(b) && LabelIri(a) != PropIri(c) && RelIri(b) != PropIri(c)
    ensures LabelIri(a) != RDF_TYPE && RelIri(b) != RDF_TYPE && PropIri(c) != RDF_TYPE
    ensures (LabelIri(a) == LabelIri(b) <==> a == b) && (RelIri(a) == RelIri(b) <==> a == b) && (PropIri(a) == PropIri(b) <==> a == b)
  {
    assert LabelIri(a).text[32] == 'l' && RelIri(b).text[32] == 'r' && PropIri(c).text[32] == 'p';
    assert LabelIri(a).text[7] == 'o' && RelIri(b).text[7] == 'o' && PropIri(c).text[7] == 'o' && RDF_TYPE.text[7] == 'w';
    assert LabelIri(a).text[|LABEL_NS|..] == a && LabelIri(b).text[|LABEL_NS|..] == b;
    assert RelIri(a).text[|REL_NS|..] == a && RelIri(b).text[|REL_NS|..] == b;
    assert PropIri(a).text[|PROP_NS|..] == a && PropIri(b).text[|PROP_NS|..] == b;
  }

  /** Written out. */
  lemma SomeIris()
    ensures LabelIri("Person") == Iri("http://oxigraph-nova.dev/cypher/label/Person")
    ensures RelIri("KNOWS") == Iri("http://oxigraph-nova.dev/cypher/rel/KNOWS")
    ensures PropIri("age") == Iri("http://oxigraph-nova.dev/cypher/prop/age")
    ensures LabelTriple("n", "Person") == TP(V("n"), C(Iri("http://www.w3.org/1999/02/22-rdf-syntax-ns#type")), C(LabelIri("Person")))
    ensures FreshName("node", 12) == "_node12" && PropVar(Key("n", "age")) == "n_age"
  {
    assert Decimal(12) == Decimal(1) + [Digit(2)] && Decimal(1) == "1";
    assert LABEL_NS + "Person" == "http://oxigraph-nova.dev/cypher/label/Person";
    assert REL_NS + "KNOWS" == "http://oxigraph-nova.dev/cypher/rel/KNOWS";
    assert PROP_NS + "age" == "http://oxigraph-nova.dev/cypher/prop/age";
    assert "_" + "node" + "12" == "_node12" && "n" + "_" + "age" == "n_age";
  }

  // ---- Expressions ----

  /** `part` is the expression or a part of it; what a property is taken of is not. */
  ghost predicate Occurs(part: Expr, e: Expr) {
    part == e || match e
                 case Binary(_, a, b) => Occurs(part, a) || Occurs(part, b)
                 case Not(a) => Occurs(part, a)
                 case Neg(a) => Occurs(part, a)
                 case _ => false
  }

  /** The reasons to refuse an expression: an unknown name, a property of anything but a
      name, of a relationship or of an unknown name, NULL. */
  ghost predicate Refusable(sc: Scope, part: Expr) {
    || (exists name :: part == Variable(name) && name !in sc.nodes && name !in sc.rels)
    || (part.Property? && !part.base.Variable?)
    || (exists name, prop :: part == Property(Variable(name), prop) && (name in sc.rels || name !in sc.nodes))
    || part == Lit(Null)
  }

  lemma {:induction false} RefusedExpressions(sc: Scope, e: Expr)
    ensures !ExprAccepted(sc, e) <==> exists part :: Occurs(part, e) && Refusable(sc, part)
    decreases e
  {
    match e
    case Variable(name) =>
      forall part ensures Occurs(part, e) <==> part == e {}
      assert Refusable(sc, e) <==> !ExprAccepted(sc, e);
    case Property(base, prop) =>
      forall part ensures Occurs(part, e) <==> part == e {}
      if base.Variable? { assert e == Property(Variable(base.name), prop); }
      assert Refusable(sc, e) <==> !ExprAccepted(sc, e);
    case Lit(_) =>
      forall part ensures Occurs(part, e) <==> part == e {}
      assert Refusable(sc, e) <==> !ExprAccepted(sc, e);
    case Binary(_, a, b) =>
      RefusedExpressions(sc, a);
      RefusedExpressions(sc, b);
      forall part ensures Occurs(part, e) <==> part == e || Occurs(part, a) || Occurs(part, b) {}
    case Not(a) =>
      RefusedExpressions(sc, a);
      forall part ensures Occurs(part, e) <==> part == e || Occurs(part, a) {}
    case Neg(a) =>
      RefusedExpressions(sc, a);
      forall part ensures Occurs(part, e) <==> part == e || Occurs(part, a) {}
  }

  // ---- Patterns ----

  ghost predicate IsIllegal(name: Option<string>) {
    name.Some? && (name.value == "" || exists c :: c in name.value && !IsWordChar(c))
  }

  ghost predicate HasNull(props: seq<(string, Literal)>) { exists key :: (key, Null) in props }

  lemma NullsAre(props: seq<(string, Literal)>)
    ensures NoNulls(props) <==> !HasNull(props)
  {
    if !NoNulls(props) {
      var kv :| kv in props && kv.1.Null?;
      assert kv == (kv.0, Null);
    }
  }

  lemma IllegalNames(name: Option<string>)
    ensures IsIllegal(name) <==> name.Some? && !IsVariableName(name.value)
  {
    hide IsWordChar;
    if name.Some? { LegalNames(name.value); }
  }

  /** A node is refused for an illegal name or a NULL. */
  lemma RefusedNodes(n: NodePattern)
    ensures !NodeAccepted(n) <==> IsIllegal(n.variable) || HasNull(n.properties)
  {
    hide IsVariableName;
    IllegalNames(n.variable);
    NullsAre(n.properties);
  }

  /** The reasons to refuse a relationship: of variable length it can have no name, no
      properties and no upper bound, must have a type, and starts at none or one; of one
      step it can have no NULL and, when its name stands for its type, no illegal name. */
  ghost predicate Unsupported(r: RelPattern) {
    || (r.varLength.Some? && (r.variable != None || r.properties != [] || r.relType == None || r.varLength.value.max != None))
    || (r.varLength.Some? && exists least: nat :: r.varLength.value.min == Some(least) && least > 1)
    || (r.varLength == None && HasNull(r.properties))
    || (r.varLength == None && r.relType == None && IsIllegal(r.variable))
  }

  lemma RefusedRels(r: RelPattern)
    ensures !RelAccepted(r) <==> Unsupported(r)
  {
    hide IsVariableName;
    IllegalNames(r.variable);
    NullsAre(r.properties);
  }
}
