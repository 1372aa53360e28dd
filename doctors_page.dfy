/** The doctor list page: the specialty filter, then the free-text search
    over the full name and the specialty, and the result count it shows.
    `toLowerCase` is the locale-independent default Unicode case mapping
    (so "I" always becomes "i"); the model takes that fixed mapping as a
    parameter `lower`. */
module DoctorsPage {
  import opened Common
  import opened Tables
  import opened DoctorModel

  function OfSpecialty(uzmanlik: string): Doctor -> bool
  {
    (d: Doctor) => d.uzmanlik == uzmanlik
  }

  /** The search term, lower-cased, occurs in the lower-cased full name or
      in the lower-cased specialty. */
  predicate MatchesSearch(d: Doctor, term: string, lower: string -> string)
  {
    Contains(lower(JoinName(d.ad, d.soyad)), lower(term)) || Contains(lower(d.uzmanlik), lower(term))
  }

  function Matching(term: string, lower: string -> string): Doctor -> bool
  {
    (d: Doctor) => MatchesSearch(d, term, lower)
  }

  /** A doctor is listed: the specialty filter is off (empty) or names their
      specialty, and the search is off (empty) or matches them. */
  predicate Shown(d: Doctor, selected: string, term: string, lower: string -> string)
  {
    (selected == "" || d.uzmanlik == selected) && (term == "" || MatchesSearch(d, term, lower))
  }

  function ShownBy(selected: string, term: string, lower: string -> string): Doctor -> bool
  {
    (d: Doctor) => Shown(d, selected, term, lower)
  }

  /** `filteredDoctors`. */
  function FilteredDoctors(doctors: seq<Doctor>, selected: string): (r: seq<Doctor>)
    ensures forall d :: d in r <==> d in doctors && (selected == "" || d.uzmanlik == selected)
    ensures selected == "" ==> r == doctors
  {
    if selected != "" then Filter(doctors, OfSpecialty(selected)) else doctors
  }

  /** `searchFilteredDoctors`. */
  function SearchFilteredDoctors(doctors: seq<Doctor>, selected: string, term: string, lower: string -> string): (r: seq<Doctor>)
    ensures forall d :: d in r <==> d in doctors && Shown(d, selected, term, lower)
    ensures selected == "" && term == "" ==> r == doctors
  {
    var filtered := FilteredDoctors(doctors, selected);
    if term != "" then Filter(filtered, Matching(term, lower)) else filtered
  }

  /** The two stages select the same doctors, in the same order, as one
      filter by the combined condition. */
  lemma TwoStagesAreOneFilter(doctors: seq<Doctor>, selected: string, term: string, lower: string -> string)
    ensures SearchFilteredDoctors(doctors, selected, term, lower) == Filter(doctors, ShownBy(selected, term, lower))
  {
    var shown := ShownBy(selected, term, lower);
    if selected != "" && term != "" {
      FilterConjunction(doctors, OfSpecialty(selected), Matching(term, lower), shown);
    } else if selected != "" {
      FilterCongruent(doctors, OfSpecialty(selected), shown);
    } else if term != "" {
      FilterCongruent(doctors, Matching(term, lower), shown);
    } else {
      FilterAll(doctors, shown);
    }
  }

  /** The list keeps the order of the doctors as fetched. */
  lemma ListKeepsOrder(doctors: seq<Doctor>, selected: string, term: string, lower: string -> string)
    ensures Subseq(SearchFilteredDoctors(doctors, selected, term, lower), doctors)
  {
    TwoStagesAreOneFilter(doctors, selected, term, lower);
    FilterIsSubseq(doctors, ShownBy(selected, term, lower));
  }

  /** The "doktor bulundu" count is the number of fetched doctors the
      filters keep. */
  lemma ResultCountCountsShown(doctors: seq<Doctor>, selected: string, term: string, lower: string -> string)
    ensures |SearchFilteredDoctors(doctors, selected, term, lower)| == Count(doctors, ShownBy(selected, term, lower))
  {
    TwoStagesAreOneFilter(doctors, selected, term, lower);
    CountIsFilterLength(doctors, ShownBy(selected, term, lower));
  }
}
