/**
 * The built-in table of industrial visits and its selectors: upcoming,
 * completed, by department, and the latest completed visits.
 */
module VisitsData {
  import opened Wrappers
  import opened Seqs
  import opened Text

  datatype Status = Upcoming | Completed

  datatype IndustrialVisit = IndustrialVisit(
    id: string,
    title: string,
    date: string,               // ISO `YYYY-MM-DD`
    department: string,
    location: string,
    description: string,
    images: seq<string>,
    status: Status,
    industry: string,
    studentsCount: Option<int>,
    learningOutcomes: Option<seq<string>>,
    registrationLink: Option<string>)

  // The entries of the `industrialVisits` table, in order.
  const Visit1: IndustrialVisit := IndustrialVisit(
    id := "1",
    title := "Visit to Tata Motors Manufacturing Plant",
    date := "2024-02-15",
    department := "Mechanical Engineering",
    location := "Pune, Maharashtra",
    description := "Students explored real-world automotive manufacturing processes, assembly line operations, and quality control systems. They gained insights into lean manufacturing, robotics integration, and sustainable production practices.",
    images := ["/placeholder.svg", "/placeholder.svg", "/placeholder.svg"],
    status := Completed,
    industry := "Automotive",
    studentsCount := Some(45),
    learningOutcomes := Some([
      "Understanding of lean manufacturing principles",
      "Exposure to automated assembly lines",
      "Quality control processes in automotive industry",
      "Sustainable manufacturing practices"]),
    registrationLink := None)

  const Visit2: IndustrialVisit := IndustrialVisit(
    id := "2",
    title := "Microsoft India Development Center",
    date := "2024-03-10",
    department := "Computer Science Engineering",
    location := "Hyderabad, Telangana",
    description := "An immersive experience into software development lifecycle, cloud computing infrastructure, and emerging technologies like AI and ML implementations in enterprise solutions.",
    images := ["/placeholder.svg", "/placeholder.svg"],
    status := Completed,
    industry := "Technology",
    studentsCount := Some(50),
    learningOutcomes := Some([
      "Agile development methodologies",
      "Cloud infrastructure and Azure services",
      "AI/ML integration in software products",
      "Enterprise software architecture"]),
    registrationLink := None)

  const Visit3: IndustrialVisit := IndustrialVisit(
    id := "3",
    title := "NTPC Power Plant",
    date := "2024-04-05",
    department := "Electrical Engineering",
    location := "Korba, Chhattisgarh",
    description := "Comprehensive tour of thermal power generation, transmission systems, and grid management. Students learned about power plant operations, safety protocols, and renewable energy integration.",
    images := ["/placeholder.svg", "/placeholder.svg", "/placeholder.svg", "/placeholder.svg"],
    status := Completed,
    industry := "Power & Energy",
    studentsCount := Some(40),
    learningOutcomes := Some([
      "Thermal power generation processes",
      "Electrical grid management",
      "Safety protocols in power plants",
      "Renewable energy integration"]),
    registrationLink := None)

  const Visit4: IndustrialVisit := IndustrialVisit(
    id := "4",
    title := "Larsen & Toubro Construction Site",
    date := "2024-05-20",
    department := "Civil Engineering",
    location := "Mumbai, Maharashtra",
    description := "On-site experience of large-scale construction project management, modern construction techniques, and project planning methodologies used in infrastructure development.",
    images := ["/placeholder.svg", "/placeholder.svg"],
    status := Completed,
    industry := "Construction",
    studentsCount := Some(35),
    learningOutcomes := Some([
      "Project management in construction",
      "Modern construction techniques",
      "Safety management on construction sites",
      "Quality assurance in civil projects"]),
    registrationLink := None)

  const Visit5: IndustrialVisit := IndustrialVisit(
    id := "5",
    title := "Samsung Electronics Facility",
    date := "2024-07-15",
    department := "Electronics & Communication",
    location := "Noida, Uttar Pradesh",
    description := "Detailed exploration of semiconductor manufacturing, PCB assembly processes, and quality testing procedures in consumer electronics production.",
    images := ["/placeholder.svg", "/placeholder.svg", "/placeholder.svg"],
    status := Upcoming,
    industry := "Electronics",
    studentsCount := Some(42),
    learningOutcomes := None,
    registrationLink := Some("https://example.com/register/samsung"))

  const Visit6: IndustrialVisit := IndustrialVisit(
    id := "6",
    title := "Infosys Global Technology Center",
    date := "2024-08-10",
    department := "Computer Science Engineering",
    location := "Bangalore, Karnataka",
    description := "Experience cutting-edge software development practices, client interaction processes, and global delivery models in IT services industry.",
    images := ["/placeholder.svg"],
    status := Upcoming,
    industry := "Information Technology",
    studentsCount := Some(55),
    learningOutcomes := None,
    registrationLink := Some("https://example.com/register/infosys"))

  const Visit7: IndustrialVisit := IndustrialVisit(
    id := "7",
    title := "Bajaj Auto Manufacturing Unit",
    date := "2024-09-05",
    department := "Mechanical Engineering",
    location := "Aurangabad, Maharashtra",
    description := "Comprehensive tour of two-wheeler manufacturing, engine assembly, and supply chain management in automotive industry.",
    images := ["/placeholder.svg", "/placeholder.svg"],
    status := Upcoming,
    industry := "Automotive",
    studentsCount := Some(38),
    learningOutcomes := None,
    registrationLink := Some("https://example.com/register/bajaj"))

  const Visit8: IndustrialVisit := IndustrialVisit(
    id := "8",
    title := "Reliance Jio Network Operations Center",
    date := "2024-10-12",
    department := "Electronics & Communication",
    location := "Mumbai, Maharashtra",
    description := "Insights into telecommunications infrastructure, 5G technology deployment, and network operations management.",
    images := ["/placeholder.svg"],
    status := Upcoming,
    industry := "Telecommunications",
    studentsCount := Some(48),
    learningOutcomes := None,
    registrationLink := Some("https://example.com/register/jio"))

  /** The `industrialVisits` table. */
  const IndustrialVisits: seq<IndustrialVisit> := [Visit1, Visit2, Visit3, Visit4, Visit5, Visit6, Visit7, Visit8]

  function DateOf(v: IndustrialVisit): string
  {
    v.date
  }

  function IsUpcoming(v: IndustrialVisit): bool
  {
    v.status == Upcoming
  }

  function IsCompleted(v: IndustrialVisit): bool
  {
    v.status == Completed
  }

  /** `visits.filter(visit => visit.status === 'upcoming')`. */
  function UpcomingOf(visits: seq<IndustrialVisit>): (r: seq<IndustrialVisit>)
    ensures IsSubsequence(r, visits)
    ensures forall v :: v in r <==> v in visits && v.status == Upcoming
  {
    var r := Filter(IsUpcoming, visits);
    FilterSpec(IsUpcoming, visits);
    r
  }

  /** `visits.filter(visit => visit.status === 'completed')`. */
  function CompletedOf(visits: seq<IndustrialVisit>): (r: seq<IndustrialVisit>)
    ensures IsSubsequence(r, visits)
    ensures forall v :: v in r <==> v in visits && v.status == Completed
  {
    var r := Filter(IsCompleted, visits);
    FilterSpec(IsCompleted, visits);
    r
  }

  /**
   * Every visit is either upcoming or completed, so the two selections
   * together hold each visit of the table exactly as often as the table does.
   */
  lemma UpcomingCompletedPartition(visits: seq<IndustrialVisit>)
    ensures |UpcomingOf(visits)| + |CompletedOf(visits)| == |visits|
    ensures multiset(UpcomingOf(visits)) + multiset(CompletedOf(visits)) == multiset(visits)
  {
    FilterPartition(IsUpcoming, IsCompleted, visits);
  }

  /** `visit.department.toLowerCase().includes(department.toLowerCase())`. */
  function InDepartment(department: string): IndustrialVisit -> bool
  {
    (v: IndustrialVisit) => Contains(Lower(v.department), Lower(department))
  }

  /** `getVisitsByDepartment` over a table. */
  function ByDepartmentOf(visits: seq<IndustrialVisit>, department: string): (r: seq<IndustrialVisit>)
    ensures IsSubsequence(r, visits)
    ensures forall v :: v in r <==> v in visits && Contains(Lower(v.department), Lower(department))
  {
    var p := InDepartment(department);
    var r := Filter(p, visits);
    FilterSpec(p, visits);
    r
  }

  /** An empty department name matches every visit, so the whole table comes back in order. */
  lemma ByDepartmentEmpty(visits: seq<IndustrialVisit>)
    ensures ByDepartmentOf(visits, "") == visits
  {
    var p := InDepartment("");
    forall i | 0 <= i < |visits| ensures p(visits[i]) {
      ContainsEmpty(Lower(visits[i].department));
    }
    FilterAll(p, visits);
  }

  /**
   * The end index that `xs.slice(0, count)` stops at: a negative count
   * counts back from the end, and the index is clamped to the length.
   */
  function SliceEnd(len: nat, count: int): (e: nat)
    ensures e <= len
    ensures count >= 0 ==> e == if count < len then count else len
  {
    if count < 0 then (if len + count < 0 then 0 else len + count)
    else if count < len then count
    else len
  }

  /** The completed visits, newest first (a stable sort on the ISO date). */
  function CompletedNewestFirst(visits: seq<IndustrialVisit>): seq<IndustrialVisit>
  {
    SortByKey(CompletedOf(visits), DateOf, true)
  }

  /** `getLatestVisits(count)` over a table: the first `count` of the completed visits, newest first. */
  function LatestOf(visits: seq<IndustrialVisit>, count: int): (r: seq<IndustrialVisit>)
    ensures forall v :: v in r ==> v in visits && v.status == Completed
    ensures count >= 0 ==> |r| == if count < |CompletedOf(visits)| then count else |CompletedOf(visits)|
    ensures r <= CompletedNewestFirst(visits)
    ensures multiset(r) <= multiset(CompletedOf(visits))
  {
    var sorted := CompletedNewestFirst(visits);
    var r := sorted[..SliceEnd(|sorted|, count)];
    PrefixWithin(sorted, SliceEnd(|sorted|, count));
    forall v | v in r ensures v in visits && v.status == Completed {
      assert v in multiset(sorted);
      assert v in multiset(CompletedOf(visits));
    }
    r
  }

  /** A prefix holds each element at most as often as the whole sequence. */
  lemma PrefixWithin(s: seq<IndustrialVisit>, e: nat)
    requires e <= |s|
    ensures multiset(s[..e]) <= multiset(s)
  {
    assert s == s[..e] + s[e..];
  }

  /**
   * The latest visits are ordered newest first, and no completed visit left
   * out of them is newer than any visit shown.
   */
  lemma LatestSpec(visits: seq<IndustrialVisit>, count: int)
    ensures var r := LatestOf(visits, count);
      forall i, j :: 0 <= i < j < |r| ==> StrLe(r[j].date, r[i].date)
    ensures var r := LatestOf(visits, count);
      forall w, i :: w in CompletedOf(visits) && w !in r && 0 <= i < |r| ==> StrLe(w.date, r[i].date)
  {
    var sorted := CompletedNewestFirst(visits);
    var r := LatestOf(visits, count);
    var e := SliceEnd(|sorted|, count);
    assert r == sorted[..e];
    forall i, j | 0 <= i < j < |r| ensures StrLe(r[j].date, r[i].date) {
      assert InOrder(DateOf(sorted[i]), DateOf(sorted[j]), true);
    }
    forall w, i | w in CompletedOf(visits) && w !in r && 0 <= i < |r|
      ensures StrLe(w.date, r[i].date)
    {
      assert w in multiset(CompletedOf(visits));
      assert w in multiset(sorted);
      var k :| 0 <= k < |sorted| && sorted[k] == w;
      assert InOrder(DateOf(sorted[i]), DateOf(sorted[k]), true);
    }
  }

  /** The latest `count` visits are the first `count` of the longer list: a longer request extends a shorter one. */
  lemma LatestPrefix(visits: seq<IndustrialVisit>, m: nat, n: nat)
    requires m <= n
    ensures LatestOf(visits, m) <= LatestOf(visits, n)
  {
  }

  /** `getUpcomingVisits()`. */
  function GetUpcomingVisits(): seq<IndustrialVisit>
  {
    UpcomingOf(IndustrialVisits)
  }

  /** `getCompletedVisits()`. */
  function GetCompletedVisits(): seq<IndustrialVisit>
  {
    CompletedOf(IndustrialVisits)
  }

  /** `getVisitsByDepartment(department)`. */
  function GetVisitsByDepartment(department: string): seq<IndustrialVisit>
  {
    ByDepartmentOf(IndustrialVisits, department)
  }

  /** `getLatestVisits(count = 3)`. */
  function GetLatestVisits(count: int := 3): seq<IndustrialVisit>
  {
    LatestOf(IndustrialVisits, count)
  }

  /** The table holds eight visits, the four completed ones first. */
  lemma TableStatuses()
    ensures |IndustrialVisits| == 8
    ensures forall i :: 0 <= i < |IndustrialVisits| ==> (IndustrialVisits[i].status == Completed <==> i < 4)
  {
  }

  /** The table's ids are distinct, and every upcoming visit carries a registration link. */
  lemma TableWellFormed()
    ensures forall i, j :: 0 <= i < j < |IndustrialVisits| ==> IndustrialVisits[i].id != IndustrialVisits[j].id
    ensures forall i :: 0 <= i < |IndustrialVisits| && IndustrialVisits[i].status == Upcoming ==>
      IndustrialVisits[i].registrationLink.Some?
  {
    var ids := seq(|IndustrialVisits|, i requires 0 <= i < |IndustrialVisits| => IndustrialVisits[i].id);
    assert ids == ["1", "2", "3", "4", "5", "6", "7", "8"];
  }

  /** A table listing its completed visits before its upcoming ones splits at the boundary. */
  lemma SplitAtBoundary(visits: seq<IndustrialVisit>, k: nat)
    requires k <= |visits|
    requires forall i :: 0 <= i < |visits| ==> (visits[i].status == Completed <==> i < k)
    ensures UpcomingOf(visits) == visits[k..]
    ensures CompletedOf(visits) == visits[..k]
  {
    FilterSuffix(IsUpcoming, visits, k);
    FilterPrefix(IsCompleted, visits, k);
  }

  /** The table holds four completed then four upcoming visits, so the default latest list has three entries. */
  lemma TableSelections()
    ensures GetCompletedVisits() == IndustrialVisits[..4]
    ensures GetUpcomingVisits() == IndustrialVisits[4..]
    ensures |GetLatestVisits()| == 3
  {
    TableStatuses();
    SplitAtBoundary(IndustrialVisits, 4);
  }
}
