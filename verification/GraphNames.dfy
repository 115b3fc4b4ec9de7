/** Named-graph ids: one byte, zero for the default graph, the others handed out in
    order; a next id of zero means all 255 are taken. */
module GraphNames {
  import opened Bytes

  datatype GraphName = DefaultGraph | NamedGraph(iri: Text) | BlankGraph(name: Text)

  /** Both directions of the table agree, and the ids in use are exactly those below `next`. */
  ghost predicate TableOf(toId: map<GraphName, nat>, names: map<nat, GraphName>, next: nat) {
    && next <= 255
    && (forall g :: g in toId ==> toId[g] in names && names[toId[g]] == g)
    && (forall i :: i in names ==> names[i] in toId && toId[names[i]] == i)
    && (forall i: nat :: i in names <==> (if next == 0 then i <= 255 else i < next))
    && 0 in names && names[0] == DefaultGraph
  }

  /** The sentinel arithmetic of the next-id byte: 255 is followed by "exhausted". */
  function After(next: nat): nat { if next == 255 then 0 else next + 1 }

  lemma AssignKeepsTable(toId: map<GraphName, nat>, names: map<nat, GraphName>, next: nat, g: GraphName)
    requires TableOf(toId, names, next) && g !in toId && next != 0
    ensures TableOf(toId[g := next], names[next := g], After(next))
    ensures next !in names
  {
    forall i | i in names ensures names[i] != g { assert names[i] in toId; }
  }
}
