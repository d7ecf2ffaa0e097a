/** Rows of the student table and pandas' boolean-mask selection `df[mask]`,
    which both the access-scope filter and the filter engine are built from. */
module Table {
  import opened Wrappers
  import opened Dates

  /** One record of the dataset, already normalised by the loader:
      `homework_submitted` lower-cased, dates parsed or missing (NaT). */
  datatype Row = Row(
    studentName: string,
    grade: string,
    classCode: string,
    region: string,
    homeworkSubmitted: string,
    quizScore: Option<real>,
    quizDate: Option<Day>,
    submissionDate: Option<Day>)

  /** `a` is `b` with some rows left out and the order kept. */
  predicate IsSubsequence(a: seq<Row>, b: seq<Row>)
    decreases |b|
  {
    a == [] || (b != [] && ((a[0] == b[0] && IsSubsequence(a[1..], b[1..])) || IsSubsequence(a, b[1..])))
  }

  /** `df[mask]`: the rows for which `keep` holds, in their original order. */
  function Where(rows: seq<Row>, keep: Row -> bool): (r: seq<Row>)
    ensures |r| <= |rows|
    ensures IsSubsequence(r, rows)
    ensures forall x :: x in r <==> x in rows && keep(x)
    ensures forall x :: multiset(r)[x] == if keep(x) then multiset(rows)[x] else 0
  {
    if rows == [] then []
    else
      assert rows == [rows[0]] + rows[1..];
      if keep(rows[0]) then [rows[0]] + Where(rows[1..], keep)
      else Where(rows[1..], keep)
  }

  /** `mask1 & mask2`. */
  function Both(p: Row -> bool, q: Row -> bool): Row -> bool {
    x => p(x) && q(x)
  }

  /** Selecting with `p` and then with `q` is selecting with `p & q`. */
  lemma {:induction false} WhereWhere(rows: seq<Row>, p: Row -> bool, q: Row -> bool)
    ensures Where(Where(rows, p), q) == Where(rows, Both(p, q))
  {
    if rows != [] {
      WhereWhere(rows[1..], p, q);
    }
  }

  /** Masks that agree on every row select the same rows. */
  lemma {:induction false} WhereSame(rows: seq<Row>, p: Row -> bool, q: Row -> bool)
    requires forall x :: p(x) == q(x)
    ensures Where(rows, p) == Where(rows, q)
  {
    if rows != [] {
      WhereSame(rows[1..], p, q);
    }
  }

  /** A mask that holds everywhere in `rows` keeps them all. */
  lemma {:induction false} WhereKeepsAll(rows: seq<Row>, p: Row -> bool)
    requires forall x :: x in rows ==> p(x)
    ensures Where(rows, p) == rows
  {
    if rows != [] {
      WhereKeepsAll(rows[1..], p);
    }
  }

  /** A mask that fails everywhere in `rows` keeps none of them. */
  lemma {:induction false} WhereKeepsNone(rows: seq<Row>, p: Row -> bool)
    requires forall x :: x in rows ==> !p(x)
    ensures Where(rows, p) == []
  {
    if rows != [] {
      WhereKeepsNone(rows[1..], p);
    }
  }

  /** Narrowing the selection by `sofar` with `step` is the selection by
      `next`, when `next` is `sofar` and `step` together. */
  lemma Narrow(rows: seq<Row>, sofar: Row -> bool, step: Row -> bool, next: Row -> bool)
    requires forall x :: next(x) == (sofar(x) && step(x))
    ensures Where(Where(rows, sofar), step) == Where(rows, next)
  {
    WhereWhere(rows, sofar, step);
    WhereSame(rows, Both(sofar, step), next);
  }

  /** Two selections commute. */
  lemma WhereCommutes(rows: seq<Row>, p: Row -> bool, q: Row -> bool)
    ensures Where(Where(rows, p), q) == Where(Where(rows, q), p)
  {
    WhereWhere(rows, p, q);
    WhereWhere(rows, q, p);
    WhereSame(rows, Both(p, q), Both(q, p));
  }
}
