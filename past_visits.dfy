/** The public "Past Visits" page: its rows, department menu and filter. */
module PastVisits {
  import opened Wrappers
  import opened Seqs
  import opened Text
  import opened ImageField
  import opened Schema
  import opened Listing
  import Json

  datatype PastVisit = PastVisit(
    id: string,
    title: string,
    location: string,
    date: string,
    description: Option<string>,
    department: string,
    industry: string,
    studentsCount: int,
    images: seq<RawImageField>,
    learningOutcomes: seq<string>)

  const Placeholder := "/placeholder.svg"

  /** `row.image_url || "/placeholder.svg"`: the field itself unless it is null or empty. */
  function ImageOrPlaceholder(raw: RawImageField): (r: RawImageField)
    ensures raw == Null || raw == Str("") ==> r == Str(Placeholder)
    ensures raw != Null && raw != Str("") ==> r == raw
  {
    match raw
    case Null => Str(Placeholder)
    case Str(s) => if s == "" then Str(Placeholder) else raw
    case Arr(_) => raw
  }

  /** One fetched row as the page shows it: a single image and no learning outcomes. */
  function MapRow(row: VisitRow): (v: PastVisit)
    ensures v.id == row.id && v.title == row.title && v.date == row.visitDate
    ensures v.department == row.department && v.industry == row.industry
    ensures v.studentsCount == row.availableSeats && v.description == row.description
    ensures v.location == Location(row.locationCity, row.locationState)
    ensures v.images == [ImageOrPlaceholder(row.imageUrl)] && v.learningOutcomes == []
  {
    PastVisit(row.id, row.title, Location(row.locationCity, row.locationState), row.visitDate,
      row.description, row.department, row.industry, row.availableSeats,
      [ImageOrPlaceholder(row.imageUrl)], [])
  }

  function MapRows(rows: seq<VisitRow>): (r: seq<PastVisit>)
    ensures |r| == |rows| && forall i :: 0 <= i < |rows| ==> r[i] == MapRow(rows[i])
  {
    seq(|rows|, i requires 0 <= i < |rows| => MapRow(rows[i]))
  }

  /** The rows the page holds after its fetch: the visits before `today`, most recent first. */
  function PageVisits(rows: seq<VisitRow>, today: string): seq<PastVisit>
  {
    MapRows(PastQuery(rows, today))
  }

  /** `visit.learningOutcomes?.length || 0`. */
  function LearningOutcomeCount(v: PastVisit): nat
  {
    |v.learningOutcomes|
  }

  /** Every card shows exactly one image and a count of zero learning outcomes. */
  lemma CardContents(row: VisitRow)
    ensures |MapRow(row).images| == 1 && LearningOutcomeCount(MapRow(row)) == 0
    ensures row.imageUrl.Str? && row.imageUrl.text != "" ==> MapRow(row).images == [row.imageUrl]
  {
  }

  /**
   * The stored field is not decoded: a visit with several uploaded images
   * shows one image, the JSON text of the whole list.
   */
  lemma ImageListNotDecoded(row: VisitRow, urls: seq<string>)
    requires |urls| >= 2 && row.imageUrl == UploadField(urls)
    ensures MapRow(row).images == [Str(Json.Stringify(urls))]
    ensures Decode(row.imageUrl) == Some(urls) && |urls| > |MapRow(row).images|
  {
    DecodeUploadField(urls);
  }

  function DepartmentsOf(visits: seq<PastVisit>): (r: seq<string>)
    ensures |r| == |visits| && forall i :: 0 <= i < |visits| ==> r[i] == visits[i].department
  {
    seq(|visits|, i requires 0 <= i < |visits| => visits[i].department)
  }

  /** `[...new Set(visits.map(visit => visit.department))]`. */
  function Departments(visits: seq<PastVisit>): seq<string>
  {
    Dedup(DepartmentsOf(visits))
  }

  /** The department menu lists each department once, in the order the departments first appear. */
  lemma DepartmentsSpec(visits: seq<PastVisit>)
    ensures NoDuplicates(Departments(visits))
    ensures forall d :: d in Departments(visits) <==> exists i :: 0 <= i < |visits| && visits[i].department == d
  {
    var all := DepartmentsOf(visits);
    forall d ensures d in all <==> exists i :: 0 <= i < |visits| && visits[i].department == d {
      if d in all {
        var i :| 0 <= i < |all| && all[i] == d;
      }
    }
  }

  predicate Shown(searchTerm: string, department: string, v: PastVisit)
  {
    MatchesSearch(searchTerm, v.title, v.location, v.industry) && MatchesDepartment(department, v.department)
  }

  /** `filteredVisits`: the visits that pass the untrimmed search and the department test, in order. */
  function FilteredVisits(visits: seq<PastVisit>, searchTerm: string, department: string): (r: seq<PastVisit>)
    ensures IsSubsequence(r, visits)
    ensures forall v :: v in r <==> v in visits && Shown(searchTerm, department, v)
  {
    var p := (v: PastVisit) => Shown(searchTerm, department, v);
    FilterSpec(p, visits);
    Filter(p, visits)
  }

  /** Choosing one department shows exactly that department's visits, whatever the other departments hold. */
  lemma FilteredByDepartment(visits: seq<PastVisit>, department: string, v: PastVisit)
    requires department != "all"
    ensures v in FilteredVisits(visits, "", department) <==> v in visits && v.department == department
  {
    EmptySearchMatches(v.title, v.location, v.industry);
  }
}
