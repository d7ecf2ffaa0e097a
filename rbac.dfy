/** Role-based access control of src/rbac.py: an administrator sees only
    the rows of their allowed grades and classes in their own region. */
module Rbac {
  import opened Table

  datatype Admin = Admin(
    name: string,
    allowedGrades: seq<string>,
    allowedClasses: seq<string>,
    region: string)

  /** `grade ∈ allowed_grades AND class ∈ allowed_classes AND region == admin.region`. */
  predicate InScope(admin: Admin, x: Row) {
    x.grade in admin.allowedGrades && x.classCode in admin.allowedClasses && x.region == admin.region
  }

  function ScopeMask(admin: Admin): Row -> bool {
    x => InScope(admin, x)
  }

  /** `filter_by_admin_scope`: exactly the rows in the admin's scope, in
      their original order. */
  function FilterByAdminScope(rows: seq<Row>, admin: Admin): (r: seq<Row>)
    ensures IsSubsequence(r, rows)
    ensures forall x :: x in r ==> InScope(admin, x)
    ensures forall x :: x in rows && InScope(admin, x) ==> x in r
  {
    if rows == [] then rows
    else
      var gradeMask := (x: Row) => x.grade in admin.allowedGrades;
      var classMask := (x: Row) => x.classCode in admin.allowedClasses;
      var regionMask := (x: Row) => x.region == admin.region;
      Where(rows, (x: Row) => gradeMask(x) && classMask(x) && regionMask(x))
  }

  /** The scope filter is one selection by `InScope`. */
  lemma {:induction false} ScopeIsSelection(rows: seq<Row>, admin: Admin)
    ensures FilterByAdminScope(rows, admin) == Where(rows, ScopeMask(admin))
  {
    if rows != [] {
      var gradeMask := (x: Row) => x.grade in admin.allowedGrades;
      var classMask := (x: Row) => x.classCode in admin.allowedClasses;
      var regionMask := (x: Row) => x.region == admin.region;
      WhereSame(rows, (x: Row) => gradeMask(x) && classMask(x) && regionMask(x), ScopeMask(admin));
    }
  }

  /** An admin with no allowed grades or no allowed classes sees nothing. */
  lemma {:induction false} EmptyAllowListSeesNothing(rows: seq<Row>, admin: Admin)
    requires admin.allowedGrades == [] || admin.allowedClasses == []
    ensures FilterByAdminScope(rows, admin) == []
  {
    ScopeIsSelection(rows, admin);
    WhereKeepsNone(rows, ScopeMask(admin));
  }

  /** The admin's name plays no part in the scope. */
  lemma {:induction false} NameIsIrrelevant(rows: seq<Row>, admin: Admin, name: string)
    ensures FilterByAdminScope(rows, admin.(name := name)) == FilterByAdminScope(rows, admin)
  {
    ScopeIsSelection(rows, admin);
    ScopeIsSelection(rows, admin.(name := name));
    WhereSame(rows, ScopeMask(admin.(name := name)), ScopeMask(admin));
  }

  /** Scoping an already scoped table changes nothing. */
  lemma {:induction false} ScopeIsIdempotent(rows: seq<Row>, admin: Admin)
    ensures FilterByAdminScope(FilterByAdminScope(rows, admin), admin) == FilterByAdminScope(rows, admin)
  {
    var r := FilterByAdminScope(rows, admin);
    ScopeIsSelection(r, admin);
    WhereKeepsAll(r, ScopeMask(admin));
  }

  /** Widening the allow-lists never hides a row that was visible. */
  lemma WiderScopeSeesMore(rows: seq<Row>, admin: Admin, grades: seq<string>, classes: seq<string>, x: Row)
    requires forall g :: g in admin.allowedGrades ==> g in grades
    requires forall c :: c in admin.allowedClasses ==> c in classes
    requires x in FilterByAdminScope(rows, admin)
    ensures x in FilterByAdminScope(rows, admin.(allowedGrades := grades, allowedClasses := classes))
  {
  }
}
