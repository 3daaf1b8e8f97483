/**
 * What the two public listing pages share: the query each runs against
 * `iv_visits`, the displayed location, and the search and department test.
 */
module Listing {
  import opened Seqs
  import opened Text
  import opened Schema

  /** `${row.location_city}, ${row.location_state}`. */
  function Location(city: string, state: string): (r: string)
    ensures |r| == |city| + 2 + |state|
    ensures r[..|city|] == city && r[|city|..|city| + 2] == ", " && r[|city| + 2..] == state
  {
    city + ", " + state
  }

  /**
   * The search test of the public pages: the lower-cased query, untrimmed,
   * occurs in the lower-cased title, location or industry.
   */
  predicate MatchesSearch(searchTerm: string, title: string, location: string, industry: string)
  {
    var q := Lower(searchTerm);
    Contains(Lower(title), q) || Contains(Lower(location), q) || Contains(Lower(industry), q)
  }

  /** The department test: `"all"` or the visit's own department. */
  predicate MatchesDepartment(selected: string, department: string)
  {
    selected == "all" || department == selected
  }

  /** An empty query matches every visit. */
  lemma EmptySearchMatches(title: string, location: string, industry: string)
    ensures MatchesSearch("", title, location, industry)
  {
    ContainsEmpty(Lower(title));
  }

  function OnOrAfter(today: string): VisitRow -> bool
  {
    (row: VisitRow) => StrLe(today, row.visitDate)
  }

  function Before(today: string): VisitRow -> bool
  {
    (row: VisitRow) => !StrLe(today, row.visitDate)
  }

  /**
   * `.gte("visit_date", today).order("visit_date", { ascending: true })`:
   * the visits on or after `today`, soonest first.
   */
  function UpcomingQuery(rows: seq<VisitRow>, today: string): (r: seq<VisitRow>)
    ensures forall row :: row in r <==> row in rows && StrLe(today, row.visitDate)
    ensures forall i, j :: 0 <= i < j < |r| ==> StrLe(r[i].visitDate, r[j].visitDate)
    ensures forall row :: multiset(r)[row] == if StrLe(today, row.visitDate) then multiset(rows)[row] else 0
  {
    var selected := Filter(OnOrAfter(today), rows);
    FilterSpec(OnOrAfter(today), rows);
    FilterCounts(OnOrAfter(today), rows);
    var r := SortByKey(selected, VisitDateOf, false);
    SortedMembers(selected, r);
    r
  }

  /**
   * `.lt("visit_date", today).order("visit_date", { ascending: false })`:
   * the visits before `today`, most recent first.
   */
  function PastQuery(rows: seq<VisitRow>, today: string): (r: seq<VisitRow>)
    ensures forall row :: row in r <==> row in rows && !StrLe(today, row.visitDate)
    ensures forall i, j :: 0 <= i < j < |r| ==> StrLe(r[j].visitDate, r[i].visitDate)
    ensures forall row :: multiset(r)[row] == if StrLe(today, row.visitDate) then 0 else multiset(rows)[row]
  {
    var selected := Filter(Before(today), rows);
    FilterSpec(Before(today), rows);
    FilterCounts(Before(today), rows);
    var r := SortByKey(selected, VisitDateOf, true);
    SortedMembers(selected, r);
    r
  }

  lemma SortedMembers(a: seq<VisitRow>, b: seq<VisitRow>)
    requires multiset(a) == multiset(b)
    ensures forall x :: x in a <==> x in b
  {
    forall x ensures x in a <==> x in b {
      assert x in a <==> x in multiset(a);
      assert x in b <==> x in multiset(b);
    }
  }

  /** Every visit is listed by exactly one of the two pages. */
  lemma QueriesPartition(rows: seq<VisitRow>, today: string, row: VisitRow)
    requires row in rows
    ensures row in UpcomingQuery(rows, today) <==> row !in PastQuery(rows, today)
  {
  }
}
