/**
 * The admin back-office panel: the registration table and its CSV export,
 * the section dispatch, and the user list of the roles section.
 */
module ContentArea {
  import opened Wrappers
  import opened Seqs
  import opened Text

  // ---------------------------------------------------------------------
  // Registrations: the table filter and the export
  // ---------------------------------------------------------------------

  /** A row of `student_registrations`. */
  datatype Registration = Registration(
    id: string,
    studentName: string,
    email: string,
    rollNumber: string,
    department: string,
    division: Option<string>,
    visitId: string,
    status: string,
    registrationDate: string)

  /** The visit filter: `"all"` or one `visit_id`. */
  predicate MatchesVisitFilter(filter: string, r: Registration)
  {
    filter == "all" || r.visitId == filter
  }

  /** A registration goes into the export when it is approved and passes the visit filter. */
  predicate Exported(filter: string, r: Registration)
  {
    r.status == "approved" && MatchesVisitFilter(filter, r)
  }

  /** `filteredData` of `downloadExcel`. */
  function ExportSet(registrations: seq<Registration>, filter: string): (r: seq<Registration>)
    ensures IsSubsequence(r, registrations)
    ensures forall x :: x in r <==> x in registrations && x.status == "approved" && (filter == "all" || x.visitId == filter)
  {
    var p := (x: Registration) => Exported(filter, x);
    FilterSpec(p, registrations);
    Filter(p, registrations)
  }

  const Headers: seq<string> := ["Student Name", "Email", "Roll Number", "Department", "Division", "Visit", "Status", "Registration Date"]

  /**
   * The eight cells of one exported row; `formatDate` stands for the
   * locale date formatting of `registration_date`.
   */
  function RowCells(r: Registration, formatDate: string -> string): (cells: seq<string>)
    ensures |cells| == |Headers|
    ensures cells[4] == if r.division.Some? then r.division.value else ""
  {
    [r.studentName, r.email, r.rollNumber, r.department,
     (match r.division case Some(d) => d case None => ""),
     r.visitId, r.status, formatDate(r.registrationDate)]
  }

  /** `"${cell}"`: the cell between double quotes, with nothing escaped. */
  function QuoteCell(cell: string): string
  {
    "\"" + cell + "\""
  }

  function QuotedCells(cells: seq<string>): (r: seq<string>)
    ensures |r| == |cells| && forall i :: 0 <= i < |cells| ==> r[i] == QuoteCell(cells[i])
  {
    seq(|cells|, i requires 0 <= i < |cells| => QuoteCell(cells[i]))
  }

  /** `row.map(cell => \`"${cell}"\`).join(',')`. */
  function CsvLine(cells: seq<string>): string
  {
    Join(QuotedCells(cells), ",")
  }

  /** The lines of the file: the header line, then one line per exported registration. */
  function CsvLines(data: seq<Registration>, formatDate: string -> string): (lines: seq<string>)
    ensures |lines| == |data| + 1
    ensures lines[0] == CsvLine(Headers)
    ensures forall i :: 0 <= i < |data| ==> lines[i + 1] == CsvLine(RowCells(data[i], formatDate))
  {
    [CsvLine(Headers)] + seq(|data|, i requires 0 <= i < |data| => CsvLine(RowCells(data[i], formatDate)))
  }

  /** `csvContent`: the lines joined by `\n`. */
  function CsvContent(data: seq<Registration>, formatDate: string -> string): string
  {
    Join(CsvLines(data, formatDate), "\n")
  }

  /** The text of one quoted cell: everything up to the next double quote, and what follows it. */
  function ReadCell(s: string): (r: Option<(string, string)>)
    ensures r.Some? ==> |r.value.1| < |s|
    decreases |s|
  {
    if s == [] then None
    else if s[0] == '"' then Some(("", s[1..]))
    else
      match ReadCell(s[1..])
      case None => None
      case Some((cell, rest)) => Some(([s[0]] + cell, rest))
  }

  /** Reads a line of quoted cells separated by commas, as a spreadsheet reads the export. */
  function ParseCsvLine(s: string): Option<seq<string>>
    decreases |s|
  {
    if s == [] || s[0] != '"' then None
    else
      match ReadCell(s[1..])
      case None => None
      case Some((cell, rest)) =>
        if rest == [] then Some([cell])
        else if rest[0] != ',' then None
        else
          match ParseCsvLine(rest[1..])
          case None => None
          case Some(more) => Some([cell] + more)
  }

  lemma {:induction false} ReadCellRoundTrip(cell: string, rest: string)
    requires '"' !in cell
    ensures ReadCell(cell + "\"" + rest) == Some((cell, rest))
    decreases |cell|
  {
    var s := cell + "\"" + rest;
    if cell == [] {
      assert s[1..] == rest;
    } else {
      ReadCellRoundTrip(cell[1..], rest);
      assert s[1..] == cell[1..] + "\"" + rest;
      assert cell == [cell[0]] + cell[1..];
    }
  }

  lemma QuoteCellStep(cell: string, rest: string)
    requires '"' !in cell
    ensures ParseCsvLine(QuoteCell(cell) + rest) ==
      if rest == [] then Some([cell])
      else if rest[0] != ',' then None
      else match ParseCsvLine(rest[1..])
        case None => None
        case Some(more) => Some([cell] + more)
  {
    var s := QuoteCell(cell) + rest;
    assert s != [] && s[0] == '"' && ReadCell(s[1..]) == Some((cell, rest)) by {
      assert s == ['"'] + (cell + "\"" + rest);
      ReadCellRoundTrip(cell, rest);
    }
    LineAfterCell(s, cell, rest);
  }

  /** One step of reading a line: a quoted cell, then the end of the line or a comma and the remaining cells. */
  lemma LineAfterCell(s: string, cell: string, rest: string)
    requires s != [] && s[0] == '"' && ReadCell(s[1..]) == Some((cell, rest))
    ensures ParseCsvLine(s) ==
      if rest == [] then Some([cell])
      else if rest[0] != ',' then None
      else match ParseCsvLine(rest[1..])
        case None => None
        case Some(more) => Some([cell] + more)
  {
  }

  /**
   * Reading a written line back gives its cells, as long as no cell holds a
   * double quote (the export does not escape them).
   */
  lemma {:induction false} CsvLineRoundTrip(cells: seq<string>)
    requires |cells| >= 1
    requires forall i :: 0 <= i < |cells| ==> '"' !in cells[i]
    ensures ParseCsvLine(CsvLine(cells)) == Some(cells)
    decreases |cells|
  {
    var q := QuotedCells(cells);
    if |cells| == 1 {
      assert CsvLine(cells) == QuoteCell(cells[0]) + "";
      QuoteCellStep(cells[0], "");
      assert [cells[0]] == cells;
    } else {
      assert q[1..] == QuotedCells(cells[1..]);
      var tail := CsvLine(cells[1..]);
      assert CsvLine(cells) == QuoteCell(cells[0]) + ("," + tail);
      QuoteCellStep(cells[0], "," + tail);
      assert ("," + tail)[1..] == tail;
      CsvLineRoundTrip(cells[1..]);
      assert [cells[0]] + cells[1..] == cells;
    }
  }

  lemma CsvLineNoNewline(cells: seq<string>)
    requires forall i :: 0 <= i < |cells| ==> '\n' !in cells[i]
    ensures '\n' !in CsvLine(cells)
  {
    var q := QuotedCells(cells);
    forall i | 0 <= i < |q| ensures '\n' !in q[i] {
      assert q[i] == "\"" + cells[i] + "\"";
    }
    JoinAvoids(q, ",", '\n');
  }

  /** No cell of an exported registration holds `c`. */
  predicate CellsAvoid(r: Registration, formatDate: string -> string, c: char)
  {
    forall i :: 0 <= i < |Headers| ==> c !in RowCells(r, formatDate)[i]
  }

  /** No header holds a line break or a double quote. */
  lemma HeadersPlain()
    ensures forall i :: 0 <= i < |Headers| ==> '\n' !in Headers[i] && '"' !in Headers[i]
  {
  }

  /**
   * The export file, split at its line breaks, is the header line followed
   * by one line per exported registration, in order, each of which reads
   * back as that registration's eight cells.
   */
  lemma CsvLayout(data: seq<Registration>, formatDate: string -> string)
    requires forall k :: 0 <= k < |data| ==> CellsAvoid(data[k], formatDate, '\n') && CellsAvoid(data[k], formatDate, '"')
    ensures var lines := Split(CsvContent(data, formatDate), '\n');
      |lines| == |data| + 1
      && ParseCsvLine(lines[0]) == Some(Headers)
      && forall k :: 0 <= k < |data| ==> ParseCsvLine(lines[k + 1]) == Some(RowCells(data[k], formatDate))
  {
    var lines := CsvLines(data, formatDate);
    HeadersPlain();
    forall i | 0 <= i < |lines| ensures '\n' !in lines[i] {
      if i == 0 {
        CsvLineNoNewline(Headers);
      } else {
        CsvLineNoNewline(RowCells(data[i - 1], formatDate));
      }
    }
    SplitJoin(lines, '\n');
    CsvLineRoundTrip(Headers);
    forall k | 0 <= k < |data| ensures ParseCsvLine(lines[k + 1]) == Some(RowCells(data[k], formatDate)) {
      CsvLineRoundTrip(RowCells(data[k], formatDate));
    }
  }

  // ---------------------------------------------------------------------
  // The export file name
  // ---------------------------------------------------------------------

  predicate IsAsciiAlnum(c: char)
  {
    ('a' <= c <= 'z') || ('A' <= c <= 'Z') || ('0' <= c <= '9')
  }

  function KeptByFirstReplace(c: char): bool
  {
    IsAsciiAlnum(c) || IsJsSpace(c)
  }

  /** `.replace(/\s+/g, '_')`: every run of white space becomes one underscore. */
  function CollapseSpaces(s: string): (r: string)
    ensures |r| <= |s|
    decreases |s|
  {
    if s == [] then []
    else if IsJsSpace(s[0]) then "_" + CollapseSpaces(TrimStart(s[1..]))
    else [s[0]] + CollapseSpaces(s[1..])
  }

  /** The characters after leading white space are characters of the input. */
  lemma {:induction false} TrimStartWithin(s: string)
    ensures forall c :: c in TrimStart(s) ==> c in s
    decreases |s|
  {
    if s != [] && IsJsSpace(s[0]) {
      TrimStartWithin(s[1..]);
      assert forall c :: c in s[1..] ==> c in s;
    }
  }

  /** A run that does not start with white space keeps its first character. */
  lemma CollapseSpacesHead(s: string)
    requires s != [] && !IsJsSpace(s[0])
    ensures CollapseSpaces(s) != [] && CollapseSpaces(s)[0] == s[0]
  {
  }

  /** Every character of `r` is an underscore or a character of `s` that is not white space. */
  predicate UnderscoreOrFrom(r: string, s: string)
  {
    forall i :: 0 <= i < |r| ==> r[i] == '_' || (r[i] in s && !IsJsSpace(r[i]))
  }

  /** What comes out is an underscore or a character of the input that is not white space. */
  lemma {:induction false} CollapseSpacesChars(s: string)
    ensures UnderscoreOrFrom(CollapseSpaces(s), s)
    decreases |s|
  {
    if s != [] {
      var r := CollapseSpaces(s);
      var rest := if IsJsSpace(s[0]) then TrimStart(s[1..]) else s[1..];
      CollapseSpacesChars(rest);
      TrimStartWithin(s[1..]);
      assert forall c :: c in rest ==> c in s;
      assert r[1..] == CollapseSpaces(rest);
      forall i | 1 <= i < |r|
        ensures r[i] == '_' || (r[i] in s && !IsJsSpace(r[i]))
      {
        assert r[i] == CollapseSpaces(rest)[i - 1];
      }
    }
  }

  /** No two underscores side by side. */
  predicate NoDoubleUnderscore(r: string)
  {
    forall i :: 0 <= i < |r| - 1 ==> !(r[i] == '_' && r[i + 1] == '_')
  }

  /** Putting a character before a text keeps underscores apart unless both are underscores. */
  lemma NoDoubleCons(c: char, tail: string)
    requires NoDoubleUnderscore(tail)
    requires c == '_' ==> tail == [] || tail[0] != '_'
    ensures NoDoubleUnderscore([c] + tail)
  {
    var r := [c] + tail;
    forall i | 0 <= i < |r| - 1
      ensures !(r[i] == '_' && r[i + 1] == '_')
    {
      if i > 0 {
        var j := i - 1;
        assert r[i] == tail[j] && r[i + 1] == tail[j + 1];
      }
    }
  }

  /** Without an underscore in the input, no two underscores are adjacent: a run becomes a single one. */
  lemma {:induction false} CollapseSpacesSingle(s: string)
    requires '_' !in s
    ensures NoDoubleUnderscore(CollapseSpaces(s))
    decreases |s|
  {
    if s != [] {
      if IsJsSpace(s[0]) {
        var rest := TrimStart(s[1..]);
        TrimStartWithin(s[1..]);
        assert '_' !in rest;
        CollapseSpacesSingle(rest);
        if rest != [] {
          CollapseSpacesHead(rest);
        }
        NoDoubleCons('_', CollapseSpaces(rest));
      } else {
        CollapseSpacesSingle(s[1..]);
        NoDoubleCons(s[0], CollapseSpaces(s[1..]));
      }
    }
  }

  /**
   * `selectedVisitFilter.replace(/[^a-zA-Z0-9\s]/g, '').replace(/\s+/g, '_')`.
   */
  function CleanVisitName(filter: string): string
  {
    CollapseSpaces(Filter(KeptByFirstReplace, filter))
  }

  /** The cleaned name holds only letters, digits and single underscores. */
  lemma CleanVisitNameChars(filter: string)
    ensures var r := CleanVisitName(filter);
      (forall i :: 0 <= i < |r| ==> IsAsciiAlnum(r[i]) || r[i] == '_') && NoDoubleUnderscore(r)
  {
    var kept := Filter(KeptByFirstReplace, filter);
    FilterSpec(KeptByFirstReplace, filter);
    assert '_' !in kept;
    CollapseSpacesChars(kept);
    CollapseSpacesSingle(kept);
    var r := CollapseSpaces(kept);
    forall i | 0 <= i < |r|
      ensures IsAsciiAlnum(r[i]) || r[i] == '_'
    {
      assert r[i] == '_' || (r[i] in kept && !IsJsSpace(r[i]));
      if r[i] != '_' {
        assert KeptByFirstReplace(r[i]);
      }
    }
  }

  /** The letters and digits of the visit name all survive, in order. */
  lemma {:induction false} CollapseKeepsAlnum(s: string)
    ensures Filter(IsAsciiAlnum, CollapseSpaces(s)) == Filter(IsAsciiAlnum, s)
    decreases |s|
  {
    if s != [] {
      if IsJsSpace(s[0]) {
        var rest := TrimStart(s[1..]);
        CollapseKeepsAlnum(rest);
        TrimStartKeepsAlnum(s[1..]);
        assert ("_" + CollapseSpaces(rest))[1..] == CollapseSpaces(rest);
      } else {
        CollapseKeepsAlnum(s[1..]);
        assert ([s[0]] + CollapseSpaces(s[1..]))[1..] == CollapseSpaces(s[1..]);
      }
    }
  }

  lemma {:induction false} TrimStartKeepsAlnum(s: string)
    ensures Filter(IsAsciiAlnum, TrimStart(s)) == Filter(IsAsciiAlnum, s)
    decreases |s|
  {
    if s != [] && IsJsSpace(s[0]) {
      TrimStartKeepsAlnum(s[1..]);
    }
  }

  lemma CleanVisitNameKeepsAlnum(filter: string)
    ensures Filter(IsAsciiAlnum, CleanVisitName(filter)) == Filter(IsAsciiAlnum, filter)
  {
    var kept := Filter(KeptByFirstReplace, filter);
    CollapseKeepsAlnum(kept);
    FilterOfFilter(filter);
  }

  lemma {:induction false} FilterOfFilter(s: string)
    ensures Filter(IsAsciiAlnum, Filter(KeptByFirstReplace, s)) == Filter(IsAsciiAlnum, s)
    decreases |s|
  {
    if s != [] {
      FilterOfFilter(s[1..]);
      if KeptByFirstReplace(s[0]) {
        var k := Filter(KeptByFirstReplace, s);
        assert k[0] == s[0] && k[1..] == Filter(KeptByFirstReplace, s[1..]);
      }
    }
  }

  /**
   * `approved_students[_<visit>]_<date>.csv`, where the date is the part of
   * the ISO timestamp `isoNow` before its `T`.
   */
  const ExportPrefix := "approved_students"
  const CsvExtension := ".csv"

  /** The date part of `toISOString()`: the text before the `T`. */
  function IsoDate(isoNow: string): string
  {
    Split(isoNow, 'T')[0]
  }

  /** The visit part: empty for `all`, otherwise `_` and the cleaned visit name. */
  function VisitPart(filter: string): string
  {
    if filter != "all" then "_" + CleanVisitName(filter) else ""
  }

  function ExportFilename(filter: string, isoNow: string): string
  {
    ExportPrefix + VisitPart(filter) + ("_" + IsoDate(isoNow) + CsvExtension)
  }

  /**
   * The name starts with `approved_students`, ends in `.csv` after the
   * date, and names the visit only when one is selected.
   */
  lemma ExportFilenameShape(filter: string, isoNow: string)
    ensures var name := ExportFilename(filter, isoNow);
      StartsWith(name, ExportPrefix)
      && |name| >= |CsvExtension| && name[|name| - |CsvExtension|..] == CsvExtension
      && (filter == "all" ==> name == ExportPrefix + ("_" + IsoDate(isoNow) + CsvExtension))
      && (filter != "all" ==> name == ExportPrefix + ("_" + CleanVisitName(filter)) + ("_" + IsoDate(isoNow) + CsvExtension))
  {
    var dated := "_" + IsoDate(isoNow);
    Affixes(ExportPrefix, VisitPart(filter) + dated, CsvExtension);
    if filter == "all" {
      assert ExportPrefix + VisitPart(filter) == ExportPrefix;
    }
  }

  lemma Affixes(a: string, b: string, c: string)
    ensures var s := a + b + c; s == a + (b + c) && s[..|a|] == a && s[|s| - |c|..] == c
  {
  }

  /** What `downloadExcel` hands to the browser. */
  datatype Download = Download(filename: string, content: string)

  /**
   * `downloadExcel`: `None` when no registration is exported (the alert and
   * early return), otherwise the file's name and text.
   */
  function DownloadExcel(registrations: seq<Registration>, filter: string, formatDate: string -> string, isoNow: string): (r: Option<Download>)
    ensures r.None? <==> forall x :: x in registrations ==> !Exported(filter, x)
    ensures r.Some? ==> r.value.content == CsvContent(ExportSet(registrations, filter), formatDate)
    ensures r.Some? ==> r.value.filename == ExportFilename(filter, isoNow)
  {
    var data := ExportSet(registrations, filter);
    if |data| == 0 then None
    else
      assert data[0] in data;
      Some(Download(ExportFilename(filter, isoNow), CsvContent(data, formatDate)))
  }

  /** The registration search: name, email, roll number or department contains the term, ignoring case. */
  predicate MatchesRegistrationSearch(term: string, r: Registration)
  {
    var q := Lower(term);
    Contains(Lower(r.studentName), q) || Contains(Lower(r.email), q)
    || Contains(Lower(r.rollNumber), q) || Contains(Lower(r.department), q)
  }

  /** The rows of the registration table. */
  function RegistrationRows(registrations: seq<Registration>, term: string, filter: string): (r: seq<Registration>)
    ensures IsSubsequence(r, registrations)
    ensures forall x :: x in r <==> x in registrations && MatchesRegistrationSearch(term, x) && MatchesVisitFilter(filter, x)
  {
    var p := (x: Registration) => MatchesRegistrationSearch(term, x) && MatchesVisitFilter(filter, x);
    FilterSpec(p, registrations);
    Filter(p, registrations)
  }

  function VisitIdsOf(registrations: seq<Registration>): (r: seq<string>)
    ensures |r| == |registrations| && forall i :: 0 <= i < |r| ==> r[i] == registrations[i].visitId
  {
    seq(|registrations|, i requires 0 <= i < |registrations| => registrations[i].visitId)
  }

  /** `Array.from(new Set(registrations.map(r => r.visit_id)))`: the visit filter's options after "All Visits". */
  function VisitOptions(registrations: seq<Registration>): (r: seq<string>)
    ensures NoDuplicates(r)
    ensures forall v :: v in r <==> exists i :: 0 <= i < |registrations| && registrations[i].visitId == v
    ensures IsSubsequence(r, VisitIdsOf(registrations))
    ensures var ids := VisitIdsOf(registrations);
      forall i, j :: 0 <= i < j < |r| ==> r[i] in ids && r[j] in ids && FirstIndex(ids, r[i]) < FirstIndex(ids, r[j])
  {
    var ids := VisitIdsOf(registrations);
    var r := Dedup(ids);
    forall v ensures v in ids <==> exists i :: 0 <= i < |registrations| && registrations[i].visitId == v {
      if v in ids {
        var i :| 0 <= i < |ids| && ids[i] == v;
      }
    }
    r
  }

  /** Choosing an option shows only registrations for that visit, and every one of them when the search is empty. */
  lemma VisitOptionShowsItsRows(registrations: seq<Registration>, v: string, x: Registration)
    requires v != "all"
    ensures x in RegistrationRows(registrations, "", v) <==> x in registrations && x.visitId == v
  {
    ContainsEmpty(Lower(x.studentName));
  }

  /** The first character of each non-empty word. */
  function FirstChars(words: seq<string>): (r: string)
    ensures |r| <= |words|
    decreases |words|
  {
    if words == [] then ""
    else (if words[0] == "" then "" else [words[0][0]]) + FirstChars(words[1..])
  }

  /** `student_name.split(' ').map(n => n[0]).join('').toUpperCase()`; an empty word adds nothing. */
  function Initials(studentName: string): string
  {
    Upper(FirstChars(Split(studentName, ' ')))
  }

  lemma {:induction false} FirstCharsOfWords(words: seq<string>)
    requires forall i :: 0 <= i < |words| ==> words[i] != ""
    ensures |FirstChars(words)| == |words|
    ensures forall i :: 0 <= i < |words| ==> FirstChars(words)[i] == words[i][0]
    decreases |words|
  {
    if words != [] {
      FirstCharsOfWords(words[1..]);
    }
  }

  /** A name of non-empty words separated by single spaces has one initial per word, upper-cased. */
  lemma InitialsOfWords(words: seq<string>)
    requires |words| >= 1
    requires forall i :: 0 <= i < |words| ==> words[i] != "" && ' ' !in words[i]
    ensures var r := Initials(Join(words, " "));
      |r| == |words| && forall i :: 0 <= i < |words| ==> r[i] == UpperChar(words[i][0])
  {
    SplitJoin(words, ' ');
    FirstCharsOfWords(words);
  }

  // ---------------------------------------------------------------------
  // Section dispatch
  // ---------------------------------------------------------------------

  datatype Role = Faculty | Super

  /** The view the panel renders. */
  datatype SectionView = UpcomingView | PastView | GalleryView | RegistrationsView | RolesView

  /** `renderContent`. */
  function RenderContent(activeSection: string, userRole: Role): SectionView
  {
    match activeSection
    case "upcoming" => UpcomingView
    case "past" => PastView
    case "gallery" => GalleryView
    case "registrations" => RegistrationsView
    case "download" => RegistrationsView
    case "roles" => if userRole == Super then RolesView else UpcomingView
    case _ => UpcomingView
  }

  /**
   * Only a super user on the roles section sees the roles view; the
   * download section renders the registrations view; any unknown section
   * falls back to the upcoming visits.
   */
  lemma RenderContentSpec(activeSection: string, userRole: Role)
    ensures RenderContent(activeSection, userRole) == RolesView <==> activeSection == "roles" && userRole == Super
    ensures RenderContent("download", userRole) == RenderContent("registrations", userRole) == RegistrationsView
    ensures activeSection !in {"upcoming", "past", "gallery", "registrations", "download", "roles"} ==>
      RenderContent(activeSection, userRole) == UpcomingView
  {
  }

  /** The loads the section effect starts: registrations for two sections, users for the roles section. */
  datatype SectionLoads = SectionLoads(registrations: bool, students: bool)

  function LoadsFor(activeSection: string): SectionLoads
  {
    SectionLoads(activeSection == "registrations" || activeSection == "download", activeSection == "roles")
  }

  /** The user list is loaded on the roles section even for a faculty user, who is shown the upcoming visits there. */
  lemma FacultyRolesLoadsHiddenList()
    ensures LoadsFor("roles").students && RenderContent("roles", Faculty) != RolesView
  {
  }

  // ---------------------------------------------------------------------
  // The roles section: the user list
  // ---------------------------------------------------------------------

  /** A row of `students`. */
  datatype Student = Student(id: string, email: string, password: string, department: string, createdAt: string)

  function CreatedAtOf(s: Student): string
  {
    s.createdAt
  }

  function IdIsNot(id: string): Student -> bool
  {
    (s: Student) => s.id != id
  }

  /** `prev.filter((s) => s.id !== id)`. */
  function WithoutStudent(students: seq<Student>, id: string): (r: seq<Student>)
    ensures IsSubsequence(r, students)
    ensures forall s :: s in r <==> s in students && s.id != id
    ensures forall s: Student :: s.id != id ==> multiset(r)[s] == multiset(students)[s]
  {
    FilterSpec(IdIsNot(id), students);
    FilterCounts(IdIsNot(id), students);
    Filter(IdIsNot(id), students)
  }

  /** The `students` table. */
  class StudentStore {
    var rows: seq<Student>

    constructor (rows0: seq<Student>)
      ensures rows == rows0
    {
      rows := rows0;
    }

    /** `.insert({ email, password, department })`; the store assigns the id and creation time. */
    method Insert(row: Student, fails: bool) returns (ok: bool)
      modifies this
      ensures ok == !fails
      ensures rows == if ok then old(rows) + [row] else old(rows)
    {
      ok := !fails;
      if ok {
        rows := rows + [row];
      }
    }

    /** `.delete().eq('id', id)`. */
    method Delete(id: string, fails: bool) returns (ok: bool)
      modifies this
      ensures ok == !fails
      ensures rows == if ok then WithoutStudent(old(rows), id) else old(rows)
    {
      ok := !fails;
      if ok {
        rows := WithoutStudent(rows, id);
      }
    }

    /** `.select('*').order('created_at', { ascending: false })`. */
    method List(fails: bool) returns (r: Option<seq<Student>>)
      ensures fails ==> r == None
      ensures !fails ==> r == Some(SortByKey(rows, CreatedAtOf, true))
    {
      if fails {
        r := None;
      } else {
        r := Some(SortByKey(rows, CreatedAtOf, true));
      }
    }
  }

  /** The roles section's state. */
  class RolesPanel {
    var students: seq<Student>
    var isAddAdminOpen: bool
    var newAdminEmail: string
    var newAdminPassword: string
    var newAdminDepartment: string

    constructor ()
      ensures students == [] && !isAddAdminOpen
      ensures newAdminEmail == "" && newAdminPassword == "" && newAdminDepartment == ""
    {
      students := [];
      isAddAdminOpen := false;
      newAdminEmail, newAdminPassword, newAdminDepartment := "", "", "";
    }

    /** `fetchStudents`: a failed read keeps the list. */
    method FetchStudents(store: StudentStore, fails: bool)
      modifies this
      ensures students == if fails then old(students) else SortByKey(store.rows, CreatedAtOf, true)
      ensures isAddAdminOpen == old(isAddAdminOpen)
      ensures newAdminEmail == old(newAdminEmail) && newAdminPassword == old(newAdminPassword)
      ensures newAdminDepartment == old(newAdminDepartment)
    {
      var listed := store.List(fails);
      if listed.Some? {
        students := listed.value;
      }
    }

    /**
     * `handleAddAdmin`: nothing happens unless email, password and
     * department are all filled in; after a successful insert the three
     * fields are cleared, the dialog closes and the list is read again.
     */
    method HandleAddAdmin(store: StudentStore, newId: string, createdAt: string, insertFails: bool, listFails: bool)
      returns (added: bool)
      modifies this, store
      ensures added <==> old(newAdminEmail) != "" && old(newAdminPassword) != "" && old(newAdminDepartment) != "" && !insertFails
      ensures !added ==>
        store.rows == old(store.rows) && students == old(students) && isAddAdminOpen == old(isAddAdminOpen)
        && newAdminEmail == old(newAdminEmail) && newAdminPassword == old(newAdminPassword)
        && newAdminDepartment == old(newAdminDepartment)
      ensures added ==>
        store.rows == old(store.rows) + [Student(newId, old(newAdminEmail), old(newAdminPassword), old(newAdminDepartment), createdAt)]
        && newAdminEmail == "" && newAdminPassword == "" && newAdminDepartment == "" && !isAddAdminOpen
        && students == if listFails then old(students) else SortByKey(store.rows, CreatedAtOf, true)
    {
      if newAdminEmail == "" || newAdminPassword == "" || newAdminDepartment == "" {
        return false;
      }
      var row := Student(newId, newAdminEmail, newAdminPassword, newAdminDepartment, createdAt);
      added := store.Insert(row, insertFails);
      if !added {
        return;
      }
      newAdminEmail, newAdminPassword, newAdminDepartment := "", "", "";
      isAddAdminOpen := false;
      FetchStudents(store, listFails);
    }

    /** The Delete button of a user: after a successful delete the rows with that id leave the list. */
    method DeleteStudent(store: StudentStore, id: string, fails: bool) returns (ok: bool)
      modifies this, store
      ensures ok == !fails
      ensures store.rows == if ok then WithoutStudent(old(store.rows), id) else old(store.rows)
      ensures students == if ok then WithoutStudent(old(students), id) else old(students)
      ensures isAddAdminOpen == old(isAddAdminOpen) && newAdminEmail == old(newAdminEmail)
      ensures newAdminPassword == old(newAdminPassword) && newAdminDepartment == old(newAdminDepartment)
    {
      ok := store.Delete(id, fails);
      if ok {
        students := WithoutStudent(students, id);
      }
    }
  }
}
