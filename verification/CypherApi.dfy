/** The two entry points: a read query to a SPARQL query, a write statement to a SPARQL
    update, and what the results mean. */
module CypherApi {
  import opened Options
  import opened CypherSyntax
  import opened Sparql
  import opened CypherMapping
  import opened CypherLower
  import opened ScopeSafety
  import opened ExprMeaning
  import AnswerMeaning
  import StatementMeaning

  /** On every store and by every order of values, the rows are those the query asks for. */
  ghost predicate GivesAnswers(q: Query, gp: GraphPattern)
    requires QueryAccepted(q)
  {
    forall store: Store, ev: Evaluator, ops: Operators, less: Less, rows: seq<Binding> :: AnswerMeaning.Proper(ev, ops, q) ==>
      (Rows(store, ev, less, gp, rows) <==> AnswerMeaning.Answers(store, ops, less, q, rows))
  }

  method Lower(q: Query) returns (r: Result<GraphPattern>)
    ensures r.Ok? <==> QueryAccepted(q)
    ensures r.Ok? ==> GivesAnswers(q, r.value)
  {
    hide QueryAccepted, QueryPattern;
    var ctx := new LowerCtx();
    r := ctx.LowerQuery(q);
    if r.Ok? {
      forall store: Store, ev: Evaluator, ops: Operators, less: Less, rows: seq<Binding> | AnswerMeaning.Proper(ev, ops, q)
        ensures Rows(store, ev, less, r.value, rows) <==> AnswerMeaning.Answers(store, ops, less, q, rows)
      {
        AnswerMeaning.QueryAnswers(store, ev, ops, less, q, rows);
      }
    }
  }

  /** On every store the operations do what the clauses ask for, one after the other. */
  ghost predicate DoesAsAsked(s: Statement, updates: seq<Update>) {
    forall store: Store, ev: Evaluator, ops: Operators ::
      s.pattern.Some? && StatementMeaning.Plainly(s, s.pattern.value, ev, ops) ==>
        AfterOps(store, ev, updates) == StatementMeaning.AfterClauses(store, ops, s, s.pattern.value, s.writes)
  }

  method LowerStatement(s: Statement) returns (r: Result<seq<Update>>)
    ensures r.Ok? <==> StatementAccepted(s)
    ensures r.Ok? ==> DoesAsAsked(s, r.value)
  {
    hide StatementAccepted, StatementOps;
    var ctx := new LowerCtx();
    r := ctx.LowerStatement(s);
    if r.Ok? && s.pattern.Some? {
      forall store: Store, ev: Evaluator, ops: Operators | StatementMeaning.Plainly(s, s.pattern.value, ev, ops)
        ensures AfterOps(store, ev, r.value) == StatementMeaning.AfterClauses(store, ops, s, s.pattern.value, s.writes)
      {
        StatementMeaning.PlainStatementRuns(store, ev, ops, s, s.pattern.value);
      }
    }
  }
}
