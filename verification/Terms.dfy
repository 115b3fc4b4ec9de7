/** RDF terms and their codec to (tag, primary text, auxiliary bytes). */
module Terms {
  import opened Options
  import opened Bytes
  import opened FrontCoding

  datatype Direction = Ltr | Rtl

  datatype Literal =
    | Simple(value: Text)
    | LanguageTagged(value: Text, language: Text)
    | Directional(value: Text, language: Text, direction: Direction)
    | Typed(value: Text, datatypeIri: Text)

  datatype Term =
    | NamedNode(iri: Text)
    | BlankNode(name: Text)
    | Lit(literal: Literal)
    | Triple(s: Term, p: Term, o: Term)

  /** "http://www.w3.org/2001/XMLSchema#string" */
  const XSD_STRING: Text :=
    [104, 116, 116, 112, 58, 47, 47, 119, 119, 119, 46, 119, 51, 46, 111, 114, 103, 47, 50, 48, 48, 49, 47,
     88, 77, 76, 83, 99, 104, 101, 109, 97, 35, 115, 116, 114, 105, 110, 103]

  /** Typed literals of datatype xsd:string exist only as simple literals. */
  function NewTypedLiteral(value: Text, datatypeIri: Text): Literal {
    if datatypeIri == XSD_STRING then Simple(value) else Typed(value, datatypeIri)
  }

  /** Terms the library's constructors can build: a quoted triple has a node as
      subject and an IRI as predicate, and only its object may nest further. */
  predicate WellFormed(t: Term) {
    match t
    case NamedNode(_) => true
    case BlankNode(_) => true
    case Lit(l) => l.Typed? ==> l.datatypeIri != XSD_STRING
    case Triple(s, p, o) => (s.NamedNode? || s.BlankNode?) && p.NamedNode? && WellFormed(o)
  }

  // ---- Codec ----

  function SortKey(t: Term): Key
    requires !t.Triple?
  {
    match t
    case NamedNode(iri) => Key(0, iri)
    case BlankNode(name) => Key(1, name)
    case Lit(l) =>
      var tag :=
        match l
        case Directional(_, _, _) => 4
        case LanguageTagged(_, _) => 3
        case Simple(_) => 2
        case Typed(_, d) => if d == XSD_STRING then 2 else 5;
      Key(tag, l.value)
  }

  function DirectionByte(d: Direction): Byte {
    match d
    case Ltr => 0
    case Rtl => 1
  }

  function AuxBytes(t: Term): Text
    requires !t.Triple?
  {
    match t
    case NamedNode(_) => []
    case BlankNode(_) => []
    case Lit(l) =>
      match l
      case Directional(_, language, direction) => Framed(language) + [DirectionByte(direction)]
      case LanguageTagged(_, language) => Framed(language)
      case Simple(_) => []
      case Typed(_, d) => if d == XSD_STRING then [] else Framed(d)
  }

  function ContentOf(t: Term): Content
    requires !t.Triple?
  {
    Content(SortKey(t), AuxBytes(t))
  }

  /** The framed string at the head of `aux` and where it ends; nothing if cut short. */
  function FramedAt(aux: Text): Option<(Text, nat)> {
    match VarintAt(aux, 0)
    case None => None
    case Some((len, p)) => if p + len <= |aux| then Some((aux[p..p + len], p + len)) else None
  }

  function FromContent(c: Content): Result<Term> {
    var primary := c.key.primary;
    match c.key.tag
    case 0 => Ok(NamedNode(primary))
    case 1 => Ok(BlankNode(primary))
    case 2 => Ok(Lit(Simple(primary)))
    case 3 => (
      match FramedAt(c.aux)
      case None => Err
      case Some((language, _)) => Ok(Lit(LanguageTagged(primary, language))))
    case 4 => (
      match FramedAt(c.aux)
      case None => Err
      case Some((language, p)) =>
        if p >= |c.aux| || c.aux[p] > 1 then Err
        else Ok(Lit(Directional(primary, language, if c.aux[p] == 0 then Ltr else Rtl))))
    case 5 => (
      match FramedAt(c.aux)
      case None => Err
      case Some((d, _)) => Ok(Lit(NewTypedLiteral(primary, d))))
    case _ => Err
  }

  /** What is refused: an unknown tag, no framed string where one belongs, and after a
      directional literal's language anything but one of the two direction bytes. */
  lemma RefusedContents(c: Content)
    ensures FromContent(c).Err? <==>
            || c.key.tag !in {0, 1, 2, 3, 4, 5}
            || (c.key.tag in {3, 4, 5} && FramedAt(c.aux) == None)
            || (c.key.tag == 4 && exists x, p: nat :: FramedAt(c.aux) == Some((x, p)) && p == |c.aux|)
            || (c.key.tag == 4 && exists x, p: nat :: FramedAt(c.aux) == Some((x, p)) && p < |c.aux| && c.aux[p] !in {0, 1})
  {
    hide VarintAt;
    if c.key.tag == 4 && FramedAt(c.aux).Some? {
      var (x, p) := FramedAt(c.aux).value;
      assert FramedAt(c.aux) == Some((x, p));
    }
  }

  /** The tags of the format, by kind of term. */
  lemma TagsByKind(x: Text, y: Text, d: Direction)
    ensures SortKey(NamedNode(x)).tag == 0 && SortKey(BlankNode(x)).tag == 1 && SortKey(Lit(Simple(x))).tag == 2
    ensures SortKey(Lit(LanguageTagged(x, y))).tag == 3 && SortKey(Lit(Directional(x, y, d))).tag == 4
    ensures SortKey(Lit(Typed(x, y))).tag == if y == XSD_STRING then 2 else 5
  {
  }

  lemma FramedAtAll(x: Text)
    ensures FramedAt(Framed(x)) == Some((x, |Framed(x)|))
  {
    FramedAtHead(x, []);
    assert Framed(x) + [] == Framed(x);
  }

  lemma FramedAtHead(x: Text, rest: Text)
    ensures FramedAt(Framed(x) + rest) == Some((x, |Framed(x)|))
  {
    var buf := Framed(x) + rest;
    assert At(buf, 0, Framed(x));
    FramedLayout(buf, 0, x);
  }

  lemma LanguageRoundTrip(value: Text, language: Text)
    ensures FromContent(ContentOf(Lit(LanguageTagged(value, language)))) == Ok(Lit(LanguageTagged(value, language)))
  {
    FramedAtAll(language);
  }

  lemma DirectionalRoundTrip(value: Text, language: Text, direction: Direction)
    ensures FromContent(ContentOf(Lit(Directional(value, language, direction)))) == Ok(Lit(Directional(value, language, direction)))
  {
    FramedAtHead(language, [DirectionByte(direction)]);
  }

  lemma TypedRoundTrip(value: Text, d: Text)
    requires d != XSD_STRING
    ensures FromContent(ContentOf(Lit(Typed(value, d)))) == Ok(Lit(Typed(value, d)))
  {
    FramedAtAll(d);
  }

  /** Every regular term survives the trip through its stored parts. */
  lemma CodecRoundTrip(t: Term)
    requires WellFormed(t) && !t.Triple?
    ensures FromContent(ContentOf(t)) == Ok(t)
  {
    match t
    case NamedNode(_) =>
    case BlankNode(_) =>
    case Lit(Simple(_)) =>
    case Lit(LanguageTagged(value, language)) => LanguageRoundTrip(value, language);
    case Lit(Directional(value, language, direction)) => DirectionalRoundTrip(value, language, direction);
    case Lit(Typed(value, d)) => TypedRoundTrip(value, d);
  }

  /** So different terms never share key and auxiliary bytes. */
  lemma ContentIdentifiesTerm(t: Term, u: Term)
    requires WellFormed(t) && WellFormed(u) && !t.Triple? && !u.Triple? && ContentOf(t) == ContentOf(u)
    ensures t == u
  {
    CodecRoundTrip(t);
    CodecRoundTrip(u);
  }
}
