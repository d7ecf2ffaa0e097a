/** The order src/app.py (lines 57-66) runs the core in: scope the table
    to the admin, then narrow it by the parsed query. */
module Pipeline {
  import opened Table
  import opened Query
  import opened Engine
  import opened Rbac

  /** The rows a logged-in admin is shown for a query: rows in their scope
      that the query admits, in table order. */
  function ScopedAnswer(rows: seq<Row>, admin: Admin, q: ParseResult): (r: seq<Row>)
    ensures r == Where(rows, Both(ScopeMask(admin), AdmitMask(q)))
    ensures forall x :: x in r <==> x in rows && InScope(admin, x) && Admits(q, x)
  {
    ScopeIsSelection(rows, admin);
    WhereWhere(rows, ScopeMask(admin), AdmitMask(q));
    ApplyParsedFilters(FilterByAdminScope(rows, admin), q)
  }

  /** No query can show a row outside the admin's scope: scoping the
      answer again removes nothing. */
  lemma {:induction false} AnswerStaysInScope(rows: seq<Row>, admin: Admin, q: ParseResult)
    ensures FilterByAdminScope(ScopedAnswer(rows, admin, q), admin) == ScopedAnswer(rows, admin, q)
  {
    var answer := ScopedAnswer(rows, admin, q);
    ScopeIsSelection(answer, admin);
    WhereKeepsAll(answer, ScopeMask(admin));
  }

  /** Scoping first, as the application does, or filtering first gives the
      same answer. */
  lemma {:induction false} ScopeAndQueryCommute(rows: seq<Row>, admin: Admin, q: ParseResult)
    ensures ScopedAnswer(rows, admin, q) == FilterByAdminScope(ApplyParsedFilters(rows, q), admin)
  {
    ScopeIsSelection(rows, admin);
    ScopeIsSelection(Where(rows, AdmitMask(q)), admin);
    WhereCommutes(rows, ScopeMask(admin), AdmitMask(q));
  }
}
