/** The public "Upcoming Visits" page: its rows, department menu, filter and register button. */
module UpcomingVisits {
  import opened Wrappers
  import opened Seqs
  import opened Text
  import opened Schema
  import opened Listing

  datatype UpcomingVisit = UpcomingVisit(
    id: string,
    title: string,
    location: string,
    date: string,
    description: Option<string>,
    department: string,
    industry: string,
    studentsCount: int,
    registrationLink: Option<string>)

  /** One fetched row as the page shows it. */
  function MapRow(row: VisitRow): (v: UpcomingVisit)
    ensures v.id == row.id && v.title == row.title && v.date == row.visitDate
    ensures v.department == row.department && v.industry == row.industry
    ensures v.studentsCount == row.availableSeats
    ensures v.location == Location(row.locationCity, row.locationState)
    ensures v.description == row.description && v.registrationLink == row.registrationUrl
  {
    UpcomingVisit(row.id, row.title, Location(row.locationCity, row.locationState), row.visitDate,
      row.description, row.department, row.industry, row.availableSeats, row.registrationUrl)
  }

  function MapRows(rows: seq<VisitRow>): (r: seq<UpcomingVisit>)
    ensures |r| == |rows| && forall i :: 0 <= i < |rows| ==> r[i] == MapRow(rows[i])
  {
    seq(|rows|, i requires 0 <= i < |rows| => MapRow(rows[i]))
  }

  /** The rows the page holds after its fetch: the visits from `today` on, soonest first. */
  function PageVisits(rows: seq<VisitRow>, today: string): seq<UpcomingVisit>
  {
    MapRows(UpcomingQuery(rows, today))
  }

  function DepartmentsOf(visits: seq<UpcomingVisit>): (r: seq<string>)
    ensures |r| == |visits| && forall i :: 0 <= i < |visits| ==> r[i] == visits[i].department
  {
    seq(|visits|, i requires 0 <= i < |visits| => visits[i].department)
  }

  /** `[...new Set(visits.map(visit => visit.department))]`. */
  function Departments(visits: seq<UpcomingVisit>): seq<string>
  {
    Dedup(DepartmentsOf(visits))
  }

  /** The department menu lists each department once, in the order the departments first appear. */
  lemma DepartmentsSpec(visits: seq<UpcomingVisit>)
    ensures NoDuplicates(Departments(visits))
    ensures forall d :: d in Departments(visits) <==> exists i :: 0 <= i < |visits| && visits[i].department == d
    ensures var r, all := Departments(visits), DepartmentsOf(visits);
      forall i, j :: 0 <= i < j < |r| ==> FirstIndex(all, r[i]) < FirstIndex(all, r[j])
  {
    var all := DepartmentsOf(visits);
    forall d ensures d in all <==> exists i :: 0 <= i < |visits| && visits[i].department == d {
      if d in all {
        var i :| 0 <= i < |all| && all[i] == d;
      }
    }
  }

  predicate Shown(searchTerm: string, department: string, v: UpcomingVisit)
  {
    MatchesSearch(searchTerm, v.title, v.location, v.industry) && MatchesDepartment(department, v.department)
  }

  /** `filteredVisits`: the visits that pass the untrimmed search and the department test, in order. */
  function FilteredVisits(visits: seq<UpcomingVisit>, searchTerm: string, department: string): (r: seq<UpcomingVisit>)
    ensures IsSubsequence(r, visits)
    ensures forall v :: v in r <==> v in visits && Shown(searchTerm, department, v)
  {
    var p := (v: UpcomingVisit) => Shown(searchTerm, department, v);
    FilterSpec(p, visits);
    Filter(p, visits)
  }

  /** With no query and `"all"` departments the page shows every visit. */
  lemma FilteredVisitsAll(visits: seq<UpcomingVisit>)
    ensures FilteredVisits(visits, "", "all") == visits
  {
    var p := (v: UpcomingVisit) => Shown("", "all", v);
    forall i | 0 <= i < |visits| ensures p(visits[i]) {
      EmptySearchMatches(visits[i].title, visits[i].location, visits[i].industry);
    }
    FilterAll(p, visits);
  }

  /** The button of a card: "Register Now" (which has no action) or "Register for Visit". */
  datatype RegisterButton = RegisterNow | NavigateTo(path: string)

  /** `visit.registrationLink ? <Register Now> : <Register for Visit onClick=navigate('/register-visit')>`. */
  function RegisterAction(v: UpcomingVisit): RegisterButton
  {
    match v.registrationLink
    case Some(link) => if link != "" then RegisterNow else NavigateTo("/register-visit")
    case None => NavigateTo("/register-visit")
  }

  /**
   * A row whose `registration_url` is missing or empty gets the button that
   * leads to the registration form; any other row gets "Register Now".
   */
  lemma RegisterActionOfRow(row: VisitRow)
    ensures RegisterAction(MapRow(row)) == NavigateTo("/register-visit") <==> row.registrationUrl in {None, Some("")}
    ensures RegisterAction(MapRow(row)) != NavigateTo("/register-visit") ==> RegisterAction(MapRow(row)) == RegisterNow
  {
  }
}
