/** The doctor repository's queries: lookup by the unique e-mail, the
    doctors of a specialty (optionally most experienced first), and the
    distinct specialties in ascending order. */
module DoctorRepository {
  import opened Common
  import opened Tables
  import opened DoctorModel

  /** `findByEmail`. */
  function FindByEmail(ds: seq<Doctor>, email: string): (r: Option<Doctor>)
    ensures r.Some? ==> r.value in ds && r.value.email == email
    ensures r.None? <==> forall d :: d in ds ==> d.email != email
  {
    FindBy(ds, DoctorEmail, email)
  }

  /** `existsByEmail` answers the same question as `findByEmail`. */
  function ExistsByEmail(ds: seq<Doctor>, email: string): (b: bool)
    ensures b <==> FindByEmail(ds, email).Some?
  {
    exists d :: d in ds && d.email == email
  }

  /** Since `email` is a unique column, at most one doctor has a given e-mail. */
  lemma AtMostOneDoctorPerEmail(ds: seq<Doctor>, email: string)
    requires UniqueBy(ds, DoctorEmail)
    ensures |Filter(ds, KeyIs(DoctorEmail, email))| <= 1
    ensures FindByEmail(ds, email).Some? ==> Filter(ds, KeyIs(DoctorEmail, email)) == [FindByEmail(ds, email).value]
  {
    FindByUnique(ds, DoctorEmail, email);
  }

  function HasSpecialty(uzmanlik: string): Doctor -> bool
  {
    (d: Doctor) => d.uzmanlik == uzmanlik
  }

  /** `findByUzmanlik`. */
  function FindByUzmanlik(ds: seq<Doctor>, uzmanlik: string): (r: seq<Doctor>)
    ensures forall d :: d in r <==> d in ds && d.uzmanlik == uzmanlik
  {
    Filter(ds, HasSpecialty(uzmanlik))
  }

  /** `findByUzmanlikOrderByDeneyimDesc`: the same doctors, most experienced first. */
  function FindByUzmanlikOrderByDeneyimDesc(ds: seq<Doctor>, uzmanlik: string): (r: seq<Doctor>)
    ensures multiset(r) == multiset(FindByUzmanlik(ds, uzmanlik))
    ensures SortedDesc(r, DoctorExperience)
  {
    SortDesc(FindByUzmanlik(ds, uzmanlik), DoctorExperience)
  }

  /** Code-point order on strings. The query sorts in the database
      collation, which the source leaves unset; the model takes this order. */
  predicate LexLess(a: string, b: string)
    decreases |a|
  {
    if a == [] then b != []
    else if b == [] then false
    else a[0] < b[0] || (a[0] == b[0] && LexLess(a[1..], b[1..]))
  }

  lemma {:induction false} LexLessIrreflexive(a: string)
    ensures !LexLess(a, a)
  {
    if a != [] {
      LexLessIrreflexive(a[1..]);
    }
  }

  lemma {:induction false} LexLessTransitive(a: string, b: string, c: string)
    requires LexLess(a, b) && LexLess(b, c)
    ensures LexLess(a, c)
    decreases |a|
  {
    if a != [] && b != [] && c != [] && a[0] == b[0] && b[0] == c[0] {
      LexLessTransitive(a[1..], b[1..], c[1..]);
    }
  }

  lemma {:induction false} LexLessTotal(a: string, b: string)
    requires a != b
    ensures LexLess(a, b) || LexLess(b, a)
    decreases |a|
  {
    if a != [] && b != [] && a[0] == b[0] {
      assert a == [a[0]] + a[1..] && b == [b[0]] + b[1..];
      LexLessTotal(a[1..], b[1..]);
    }
  }

  /** Each string is strictly before the next one: sorted and without repetition. */
  predicate StrictlyAscending(s: seq<string>)
  {
    forall i, j :: 0 <= i < j < |s| ==> LexLess(s[i], s[j])
  }

  /** Places `x` in a strictly ascending list unless it is already there. */
  function InsertDistinct(x: string, s: seq<string>): (r: seq<string>)
    requires StrictlyAscending(s)
    ensures StrictlyAscending(r)
    ensures forall y :: y in r <==> y in s || y == x
  {
    if s == [] then [x]
    else if x == s[0] then s
    else if LexLess(x, s[0]) then
      forall j | 0 < j < |s| ensures LexLess(x, s[j]) {
        LexLessTransitive(x, s[0], s[j]);
      }
      [x] + s
    else
      LexLessTotal(x, s[0]);
      var rest := InsertDistinct(x, s[1..]);
      var r := [s[0]] + rest;
      forall i, j | 0 <= i < j < |r| ensures LexLess(r[i], r[j]) {
        if i == 0 {
          assert r[j] in rest;
          assert r[j] == x || r[j] in s[1..];
        } else {
          assert r[i] == rest[i - 1] && r[j] == rest[j - 1];
        }
      }
      assert forall y :: y in s <==> y == s[0] || y in s[1..];
      r
  }

  /** `findAllDistinctUzmanlik`: every specialty once, ascending. */
  function FindAllDistinctUzmanlik(ds: seq<Doctor>): (r: seq<string>)
    ensures StrictlyAscending(r)
    ensures forall u :: u in r <==> exists d :: d in ds && d.uzmanlik == u
  {
    if ds == [] then []
    else
      assert forall d :: d in ds <==> d == ds[0] || d in ds[1..];
      InsertDistinct(ds[0].uzmanlik, FindAllDistinctUzmanlik(ds[1..]))
  }

  /** No specialty is listed twice. */
  lemma DistinctSpecialtiesListedOnce(ds: seq<Doctor>)
    ensures forall i, j :: 0 <= i < j < |FindAllDistinctUzmanlik(ds)| ==>
              FindAllDistinctUzmanlik(ds)[i] != FindAllDistinctUzmanlik(ds)[j]
  {
    var r := FindAllDistinctUzmanlik(ds);
    forall i, j | 0 <= i < j < |r| ensures r[i] != r[j] {
      LexLessIrreflexive(r[i]);
    }
  }
}
