/**
 * The admin image gallery: the visits with their decoded image lists, the
 * record store and blob bucket it reads and writes, and the upload and
 * delete flows that rewrite a visit's `image_url` field.
 */
module Gallery {
  import opened Wrappers
  import opened Seqs
  import opened Text
  import opened ImageField
  import opened Schema

  // ---------------------------------------------------------------------
  // The record store, as pure functions over the rows of `iv_visits`
  // ---------------------------------------------------------------------

  datatype StoreError = NotSingle | NetworkError

  function IdIs(id: string): VisitRow -> bool
  {
    (row: VisitRow) => row.id == id
  }

  /** The rows whose id is `id`, in store order. */
  function RowsWithId(rows: seq<VisitRow>, id: string): (r: seq<VisitRow>)
    ensures forall x :: x in r ==> x in rows && x.id == id
    decreases |rows|
  {
    if rows == [] then []
    else (if rows[0].id == id then [rows[0]] else []) + RowsWithId(rows[1..], id)
  }

  /** `.select('image_url').eq('id', id).single()`: fails unless exactly one row has the id. */
  function SelectImageField(rows: seq<VisitRow>, id: string): Result<RawImageField, StoreError>
  {
    var matching := RowsWithId(rows, id);
    if |matching| == 1 then Ok(matching[0].imageUrl) else Err(NotSingle)
  }

  /** `.update({ image_url: field }).eq('id', id)`: every row with the id gets the new field. */
  function SetImageField(rows: seq<VisitRow>, id: string, field: RawImageField): seq<VisitRow>
    decreases |rows|
  {
    if rows == [] then [] else [SetRow(rows[0], id, field)] + SetImageField(rows[1..], id, field)
  }

  /** The update rewrites each row with the id in place and leaves the others alone. */
  lemma {:induction false} SetImageFieldPointwise(rows: seq<VisitRow>, id: string, field: RawImageField)
    ensures |SetImageField(rows, id, field)| == |rows|
    ensures forall i :: 0 <= i < |rows| ==> SetImageField(rows, id, field)[i] == SetRow(rows[i], id, field)
    decreases |rows|
  {
    if rows != [] {
      SetImageFieldPointwise(rows[1..], id, field);
    }
  }

  function SetRow(row: VisitRow, id: string, field: RawImageField): VisitRow
  {
    if row.id == id then row.(imageUrl := field) else row
  }

  /** `.select("*").order("visit_date", { ascending: false })`. */
  function ListRows(rows: seq<VisitRow>): seq<VisitRow>
  {
    SortByKey(rows, VisitDateOf, true)
  }

  ghost predicate UniqueIds(rows: seq<VisitRow>)
  {
    forall i, j :: 0 <= i < j < |rows| ==> rows[i].id != rows[j].id
  }

  /** An update by id rewrites the selected rows of any id in the same way. */
  lemma {:induction false} RowsWithIdAfterSet(rows: seq<VisitRow>, id: string, field: RawImageField, other: string)
    ensures RowsWithId(SetImageField(rows, id, field), other) == SetImageField(RowsWithId(rows, other), id, field)
    decreases |rows|
  {
    if rows != [] {
      RowsWithIdAfterSet(rows[1..], id, field, other);
      var row := SetRow(rows[0], id, field);
      assert SetImageField(rows, id, field) == [row] + SetImageField(rows[1..], id, field);
      var tail := SetImageField(RowsWithId(rows[1..], other), id, field);
      if rows[0].id == other {
        assert RowsWithId(rows, other) == [rows[0]] + RowsWithId(rows[1..], other);
        assert SetImageField(RowsWithId(rows, other), id, field) == [row] + tail;
      } else {
        assert RowsWithId(rows, other) == RowsWithId(rows[1..], other);
      }
    }
  }

  /** After an update, selecting that id yields the new field; any other id is unaffected. */
  lemma SelectAfterSet(rows: seq<VisitRow>, id: string, field: RawImageField, other: string)
    ensures other == id && SelectImageField(rows, id).Ok? ==> SelectImageField(SetImageField(rows, id, field), id) == Ok(field)
    ensures other != id ==> SelectImageField(SetImageField(rows, id, field), other) == SelectImageField(rows, other)
  {
    RowsWithIdAfterSet(rows, id, field, other);
    var m := RowsWithId(rows, other);
    if other != id {
      SetImageFieldPointwise(m, id, field);
      assert SetImageField(m, id, field) == m;
    }
  }

  lemma {:induction false} NoRowsWithId(rows: seq<VisitRow>, id: string)
    requires forall j :: 0 <= j < |rows| ==> rows[j].id != id
    ensures RowsWithId(rows, id) == []
    decreases |rows|
  {
    if rows != [] {
      NoRowsWithId(rows[1..], id);
    }
  }

  /** When ids are unique, selecting the id of a row finds that row alone. */
  lemma {:induction false} RowsWithUniqueId(rows: seq<VisitRow>, k: int)
    requires UniqueIds(rows) && 0 <= k < |rows|
    ensures RowsWithId(rows, rows[k].id) == [rows[k]]
    decreases |rows|
  {
    var id := rows[k].id;
    if k == 0 {
      NoRowsWithId(rows[1..], id);
    } else {
      RowsWithUniqueId(rows[1..], k - 1);
      assert rows[1..][k - 1] == rows[k];
    }
  }

  /** When ids are unique, selecting the id of a row yields that row's field. */
  lemma SelectUnique(rows: seq<VisitRow>, k: int)
    requires UniqueIds(rows) && 0 <= k < |rows|
    ensures SelectImageField(rows, rows[k].id) == Ok(rows[k].imageUrl)
  {
    RowsWithUniqueId(rows, k);
  }

  // ---------------------------------------------------------------------
  // The gallery's view of the visits
  // ---------------------------------------------------------------------

  /** A visit as the gallery holds it: the row, plus `image_urls` decoded from the field. */
  datatype GalleryVisit = GalleryVisit(row: VisitRow, imageUrls: seq<string>)

  /**
   * `data.map(visit => ({ ...visit, image_urls: decode(visit.image_url) }))`:
   * `None` when a row's JSON does not parse, since one throw aborts the map.
   */
  function DecodeRows(rows: seq<VisitRow>): Option<seq<GalleryVisit>>
    decreases |rows|
  {
    if rows == [] then Some([])
    else
      match Decode(rows[0].imageUrl)
      case None => None
      case Some(urls) =>
        match DecodeRows(rows[1..])
        case None => None
        case Some(rest) => Some([GalleryVisit(rows[0], urls)] + rest)
  }

  /** The decoded list has one visit per row, in order, and exists exactly when every row decodes. */
  lemma {:induction false} DecodeRowsPointwise(rows: seq<VisitRow>)
    ensures DecodeRows(rows).Some? <==> forall i :: 0 <= i < |rows| ==> Decode(rows[i].imageUrl).Some?
    ensures DecodeRows(rows).Some? ==> |DecodeRows(rows).value| == |rows|
    ensures DecodeRows(rows).Some? ==> forall i :: 0 <= i < |rows| ==>
      DecodeRows(rows).value[i] == GalleryVisit(rows[i], Decode(rows[i].imageUrl).value)
    decreases |rows|
  {
    if rows != [] {
      DecodeRowsPointwise(rows[1..]);
      if Decode(rows[0].imageUrl).Some? && DecodeRows(rows[1..]).Some? {
        var r := DecodeRows(rows).value;
        assert r[1..] == DecodeRows(rows[1..]).value;
      }
      if !(forall i :: 0 <= i < |rows[1..]| ==> Decode(rows[1..][i].imageUrl).Some?) {
        var i :| 0 <= i < |rows[1..]| && Decode(rows[1..][i].imageUrl).None?;
        assert rows[i + 1] == rows[1..][i];
      }
    }
  }

  /**
   * The gallery agrees with the store: every visit it shows has exactly one
   * row, and that row's field decodes to the visit's image list.
   */
  ghost predicate Synced(visits: seq<GalleryVisit>, rows: seq<VisitRow>)
  {
    forall i :: 0 <= i < |visits| ==>
      SelectImageField(rows, visits[i].row.id).Ok?
      && Decode(SelectImageField(rows, visits[i].row.id).value) == Some(visits[i].imageUrls)
  }

  /** A fresh listing of a store with unique ids, once decoded, agrees with the store. */
  lemma RefreshSynced(rows: seq<VisitRow>)
    requires UniqueIds(rows)
    requires DecodeRows(ListRows(rows)).Some?
    ensures Synced(DecodeRows(ListRows(rows)).value, rows)
  {
    var listed := ListRows(rows);
    DecodeRowsPointwise(listed);
    var vs := DecodeRows(listed).value;
    forall i | 0 <= i < |vs|
      ensures SelectImageField(rows, vs[i].row.id) == Ok(listed[i].imageUrl)
    {
      assert listed[i] in multiset(rows);
      var k :| 0 <= k < |rows| && rows[k] == listed[i];
      SelectUnique(rows, k);
    }
  }

  /** The local patch after a delete: only the visit with that id gets the new list. */
  function PatchImages(visits: seq<GalleryVisit>, id: string, urls: seq<string>): (r: seq<GalleryVisit>)
    ensures |r| == |visits|
    ensures forall i :: 0 <= i < |visits| ==> r[i].row == visits[i].row
    ensures forall i :: 0 <= i < |visits| && visits[i].row.id == id ==> r[i].imageUrls == urls
    ensures forall i :: 0 <= i < |visits| && visits[i].row.id != id ==> r[i] == visits[i]
  {
    seq(|visits|, i requires 0 <= i < |visits| =>
      if visits[i].row.id == id then visits[i].(imageUrls := urls) else visits[i])
  }

  /** Writing a list back and patching the same list locally keeps the gallery in agreement with the store. */
  lemma PatchKeepsSync(visits: seq<GalleryVisit>, rows: seq<VisitRow>, id: string, urls: seq<string>)
    requires Synced(visits, rows)
    ensures Synced(PatchImages(visits, id, urls), SetImageField(rows, id, EncodeField(urls)))
  {
    var vs := PatchImages(visits, id, urls);
    var rs := SetImageField(rows, id, EncodeField(urls));
    forall i | 0 <= i < |vs|
      ensures SelectImageField(rs, vs[i].row.id).Ok?
      ensures Decode(SelectImageField(rs, vs[i].row.id).value) == Some(vs[i].imageUrls)
    {
      SelectAfterSet(rows, id, EncodeField(urls), vs[i].row.id);
      if vs[i].row.id == id {
        DecodeEncodeField(urls);
      }
    }
  }

  /** `visits.map(v => v.department)`. */
  function DepartmentsOf(visits: seq<GalleryVisit>): (r: seq<string>)
    ensures |r| == |visits| && forall i :: 0 <= i < |visits| ==> r[i] == visits[i].row.department
  {
    seq(|visits|, i requires 0 <= i < |visits| => visits[i].row.department)
  }

  /** `Array.from(new Set(visits.map(v => v.department))).sort()`. */
  function Departments(visits: seq<GalleryVisit>): seq<string>
  {
    SortedDistinct(DepartmentsOf(visits))
  }

  /** The department menu lists each department of some visit exactly once, in ascending order. */
  lemma DepartmentsSpec(visits: seq<GalleryVisit>)
    ensures forall d :: d in Departments(visits) <==> exists i :: 0 <= i < |visits| && visits[i].row.department == d
    ensures var r := Departments(visits);
      forall i, j :: 0 <= i < j < |r| ==> StrLe(r[i], r[j]) && r[i] != r[j]
  {
    var all := DepartmentsOf(visits);
    forall d ensures d in all <==> exists i :: 0 <= i < |visits| && visits[i].row.department == d {
      if d in all {
        var i :| 0 <= i < |all| && all[i] == d;
      }
    }
  }

  /** The text test: a blank query matches everything, otherwise a field must contain it. */
  predicate MatchesQuery(q: string, v: GalleryVisit)
  {
    q == ""
    || Contains(Lower(v.row.title), q)
    || Contains(Lower(v.row.locationCity), q)
    || Contains(Lower(v.row.locationState), q)
    || Contains(Lower(v.row.industry), q)
  }

  /** The department test: `"all"` or the visit's own department. */
  predicate MatchesDepartment(selected: string, v: GalleryVisit)
  {
    selected == "all" || v.row.department == selected
  }

  /** `filteredVisits`: the visits passing both tests, with the query trimmed and lower-cased. */
  function FilteredVisits(visits: seq<GalleryVisit>, searchTerm: string, department: string): (r: seq<GalleryVisit>)
    ensures IsSubsequence(r, visits)
    ensures forall v :: v in r <==> v in visits && MatchesQuery(Lower(Trim(searchTerm)), v) && MatchesDepartment(department, v)
  {
    var q := Lower(Trim(searchTerm));
    var p := (v: GalleryVisit) => MatchesQuery(q, v) && MatchesDepartment(department, v);
    var r := Filter(p, visits);
    FilterSpec(p, visits);
    r
  }

  /** With a blank query and `"all"` departments, every visit is shown. */
  lemma FilteredVisitsBlank(visits: seq<GalleryVisit>, searchTerm: string)
    requires forall k :: 0 <= k < |searchTerm| ==> IsJsSpace(searchTerm[k])
    ensures FilteredVisits(visits, searchTerm, "all") == visits
  {
    TrimEmpty(searchTerm);
    var q := Lower(Trim(searchTerm));
    assert q == "";
    var p := (v: GalleryVisit) => MatchesQuery(q, v) && MatchesDepartment("all", v);
    FilterAll(p, visits);
  }

  // ---------------------------------------------------------------------
  // Keys, URLs and the per-slot marker
  // ---------------------------------------------------------------------

  /** The inputs the source draws from the clock and the random generator for one file name. */
  datatype Nonce = Nonce(stamp: string, token: string)

  datatype SelectedFile = SelectedFile(name: string)

  /** `file.name.split('.').pop()`. */
  function Extension(name: string): string
  {
    LastPiece(name, '.')
  }

  /** `${visitId}_${Date.now()}_${random}.${ext}`. */
  function FileKey(visitId: string, n: Nonce, file: SelectedFile): string
  {
    visitId + "_" + n.stamp + "_" + n.token + "." + Extension(file.name)
  }

  /** `getPublicUrl(key)`: the bucket's public address followed by the key, without the URL encoding the storage client applies. */
  function PublicUrl(base: string, key: string): string
  {
    base + "/" + key
  }

  /** The key the delete path derives from an uploaded URL is the key that was uploaded. */
  lemma DeleteKeyOfUploadedUrl(base: string, key: string)
    requires '/' !in key
    ensures LastPiece(PublicUrl(base, key), '/') == key
  {
    LastPieceOf(base, '/', key);
  }

  /** `${visitId}-${imageIndex}`: the value of the per-slot "deleting" marker. */
  function SlotKey(visitId: string, index: int): string
  {
    visitId + "-" + IntToString(index)
  }

  /** For positions in a rendered list, the marker names exactly one slot. */
  lemma SlotKeyInjective(v1: string, i1: nat, v2: string, i2: nat)
    requires SlotKey(v1, i1) == SlotKey(v2, i2)
    ensures v1 == v2 && i1 == i2
  {
    var s := SlotKey(v1, i1);
    var d1, d2 := NatToString(i1), NatToString(i2);
    assert s == v1 + ['-'] + d1 && s == v2 + ['-'] + d2;
    LastPieceOf(v1, '-', d1);
    LastPieceOf(v2, '-', d2);
    NatToStringInjective(i1, i2);
    assert v1 == s[..|v1|] == v2;
  }

  /** `deletingImage === \`${visitId}-${index}\``: the delete button of that slot is disabled. */
  predicate DeleteDisabled(deletingImage: Option<string>, visitId: string, index: int)
  {
    deletingImage == Some(SlotKey(visitId, index))
  }

  /** While one slot is being deleted, the button of that slot and of no other is disabled. */
  lemma OnlyThatSlotDisabled(visitId: string, index: nat, other: string, otherIndex: nat)
    ensures DeleteDisabled(Some(SlotKey(visitId, index)), other, otherIndex) <==> other == visitId && otherIndex == index
  {
    if DeleteDisabled(Some(SlotKey(visitId, index)), other, otherIndex) {
      SlotKeyInjective(visitId, index, other, otherIndex);
    }
  }

  /** `expandedIV === id ? null : id`. */
  function Toggle(expanded: Option<string>, id: string): (r: Option<string>)
    ensures r == Some(id) <==> expanded != Some(id)
    ensures r != Some(id) ==> r == None
  {
    if expanded == Some(id) then None else Some(id)
  }

  /** The position of the first failing upload, or the number of files when none fails. */
  function FirstFailure(fails: seq<bool>): (k: nat)
    ensures k <= |fails|
    ensures forall j :: 0 <= j < k ==> !fails[j]
    ensures k < |fails| ==> fails[k]
    decreases |fails|
  {
    if fails == [] || fails[0] then 0 else 1 + FirstFailure(fails[1..])
  }

  /** A success at or before the first failure moves the bound past it. */
  lemma PastSuccess(fails: seq<bool>, i: nat)
    requires i <= FirstFailure(fails) && i < |fails| && !fails[i]
    ensures i < FirstFailure(fails)
  {
  }

  /** The keys of one upload batch, one per selected file, in selection order. */
  function FileKeys(visitId: string, nonces: seq<Nonce>, files: seq<SelectedFile>): (r: seq<string>)
    requires |nonces| == |files|
    ensures |r| == |files|
  {
    seq(|files|, i requires 0 <= i < |files| => FileKey(visitId, nonces[i], files[i]))
  }

  /** `uploadedUrls`: the public URL of each key, in order. */
  function PublicUrls(base: string, keys: seq<string>): (r: seq<string>)
    ensures |r| == |keys|
  {
    seq(|keys|, i requires 0 <= i < |keys| => PublicUrl(base, keys[i]))
  }

  /** Each uploaded URL, handed back to the delete path, names the blob that was uploaded for it. */
  lemma UploadedUrlsDeletable(base: string, visitId: string, nonces: seq<Nonce>, files: seq<SelectedFile>)
    requires |nonces| == |files|
    requires '/' !in visitId
    requires forall i :: 0 <= i < |files| ==> '/' !in nonces[i].stamp && '/' !in nonces[i].token && '/' !in files[i].name
    ensures forall i :: 0 <= i < |files| ==>
      LastPiece(PublicUrls(base, FileKeys(visitId, nonces, files))[i], '/') == FileKey(visitId, nonces[i], files[i])
  {
    var keys := FileKeys(visitId, nonces, files);
    forall i | 0 <= i < |files|
      ensures LastPiece(PublicUrls(base, keys)[i], '/') == keys[i]
    {
      var ext := Extension(files[i].name);
      assert '/' !in ext by {
        forall k | 0 <= k < |ext| ensures ext[k] != '/' {
          assert ext[k] == files[i].name[|files[i].name| - |ext| + k];
        }
      }
      assert keys[i] == visitId + "_" + nonces[i].stamp + "_" + nonces[i].token + "." + ext;
      assert '/' !in keys[i];
      DeleteKeyOfUploadedUrl(base, keys[i]);
    }
  }

  lemma PublicUrlsStep(base: string, keys: seq<string>, i: nat)
    requires i < |keys|
    ensures PublicUrls(base, keys[..i + 1]) == PublicUrls(base, keys[..i]) + [PublicUrl(base, keys[i])]
  {
  }

  function AsSet(s: seq<string>): set<string>
  {
    set x | x in s
  }

  lemma AsSetStep(s: seq<string>, i: nat)
    requires i < |s|
    ensures AsSet(s[..i + 1]) == AsSet(s[..i]) + {s[i]}
  {
    assert s[..i + 1] == s[..i] + [s[i]];
  }

  /**
   * The record write of an upload: read the field, decode it and append the
   * new URLs, stored as a stringified array. `None` when the read fails,
   * when no single row has the id, or when the stored JSON does not parse.
   */
  function AppendField(rows: seq<VisitRow>, id: string, urls: seq<string>, fetchFails: bool): Option<RawImageField>
  {
    if fetchFails then None
    else
      match SelectImageField(rows, id)
      case Err(_) => None
      case Ok(field) =>
        match Decode(field)
        case None => None
        case Some(existing) => Some(UploadField(existing + urls))
  }

  /** A successful upload write stores, for that visit, the existing list followed by the new URLs, never null. */
  lemma AppendFieldWrites(rows: seq<VisitRow>, id: string, urls: seq<string>)
    requires AppendField(rows, id, urls, false).Some?
    ensures SelectImageField(rows, id).Ok? && Decode(SelectImageField(rows, id).value).Some?
    ensures var written := SetImageField(rows, id, AppendField(rows, id, urls, false).value);
      SelectImageField(written, id).Ok? && Decode(SelectImageField(written, id).value) == Some(Decode(SelectImageField(rows, id).value).value + urls)
    ensures AppendField(rows, id, urls, false).value != Null
  {
    var existing := Decode(SelectImageField(rows, id).value).value;
    SelectAfterSet(rows, id, UploadField(existing + urls), id);
    DecodeUploadField(existing + urls);
  }

  /** The list the delete path works on: the visit's field as read back and decoded. */
  function FetchedList(rows: seq<VisitRow>, id: string, fetchFails: bool): Option<seq<string>>
  {
    if fetchFails then None
    else
      match SelectImageField(rows, id)
      case Err(_) => None
      case Ok(field) => Decode(field)
  }

  /** When the gallery agrees with the store, the fetched list is the one the gallery shows for that visit. */
  lemma FetchedListShown(visits: seq<GalleryVisit>, rows: seq<VisitRow>, i: int)
    requires Synced(visits, rows) && 0 <= i < |visits|
    ensures FetchedList(rows, visits[i].row.id, false) == Some(visits[i].imageUrls)
  {
  }

  /** An update by id changes no row's id, so unique ids stay unique. */
  lemma SetKeepsUniqueIds(rows: seq<VisitRow>, id: string, field: RawImageField)
    requires UniqueIds(rows)
    ensures UniqueIds(SetImageField(rows, id, field))
  {
    SetImageFieldPointwise(rows, id, field);
  }

  // ---------------------------------------------------------------------
  // The store and blob bucket, with failures as inputs
  // ---------------------------------------------------------------------

  class VisitStore {
    var rows: seq<VisitRow>
    /** The keys present in the `gallery` bucket. */
    var blobs: set<string>
    const publicBase: string

    constructor (rows0: seq<VisitRow>, blobs0: set<string>, base: string)
      ensures rows == rows0 && blobs == blobs0 && publicBase == base
    {
      rows := rows0;
      blobs := blobs0;
      publicBase := base;
    }

    /** `storage.from('gallery').upload(key, file)`. */
    method PutBlob(key: string, fails: bool) returns (ok: bool)
      modifies this
      ensures ok == !fails
      ensures rows == old(rows)
      ensures blobs == if ok then old(blobs) + {key} else old(blobs)
    {
      ok := !fails;
      if ok {
        blobs := blobs + {key};
      }
    }

    /** `storage.from('gallery').remove([key])`. */
    method RemoveBlob(key: string, fails: bool)
      modifies this
      ensures rows == old(rows)
      ensures blobs == if fails then old(blobs) else old(blobs) - {key}
    {
      if !fails {
        blobs := blobs - {key};
      }
    }

    /** `.select('image_url').eq('id', id).single()`. */
    method FetchImageField(id: string, fails: bool) returns (r: Result<RawImageField, StoreError>)
      ensures fails ==> r == Err(NetworkError)
      ensures !fails ==> r == SelectImageField(rows, id)
    {
      if fails {
        r := Err(NetworkError);
      } else {
        r := SelectImageField(rows, id);
      }
    }

    /** `.update({ image_url: field }).eq('id', id)`. */
    method UpdateImageField(id: string, field: RawImageField, fails: bool) returns (ok: bool)
      modifies this
      ensures ok == !fails
      ensures blobs == old(blobs)
      ensures rows == if ok then SetImageField(old(rows), id, field) else old(rows)
    {
      ok := !fails;
      if ok {
        rows := SetImageField(rows, id, field);
      }
    }

    /** `.select("*").order("visit_date", { ascending: false })`. */
    method ListVisits(fails: bool) returns (r: Option<seq<VisitRow>>)
      ensures fails ==> r == None
      ensures !fails ==> r == Some(ListRows(rows))
    {
      if fails {
        r := None;
      } else {
        r := Some(ListRows(rows));
      }
    }
  }

  /**
   * The upload loop: put each file's blob in order, collecting its public URL,
   * and stop at the first failing put.
   */
  method PutAll(store: VisitStore, visitId: string, nonces: seq<Nonce>, files: seq<SelectedFile>, putFails: seq<bool>)
    returns (ok: bool, urls: seq<string>)
    requires |nonces| == |files| == |putFails|
    modifies store
    ensures var keys := FileKeys(visitId, nonces, files);
      ok == (FirstFailure(putFails) == |files|)
      && (ok ==> urls == PublicUrls(store.publicBase, keys))
      && store.blobs == old(store.blobs) + AsSet(keys[..FirstFailure(putFails)])
    ensures store.rows == old(store.rows)
  {
    var keys := FileKeys(visitId, nonces, files);
    ghost var k := FirstFailure(putFails);
    urls := [];
    var i := 0;
    while i < |files|
      invariant 0 <= i <= k
      invariant urls == PublicUrls(store.publicBase, keys[..i])
      invariant store.blobs == old(store.blobs) + AsSet(keys[..i])
      invariant store.rows == old(store.rows)
    {
      var put := store.PutBlob(keys[i], putFails[i]);
      if !put {
        return false, urls;
      }
      PastSuccess(putFails, i);
      AsSetStep(keys, i);
      PublicUrlsStep(store.publicBase, keys, i);
      urls := urls + [PublicUrl(store.publicBase, keys[i])];
      i := i + 1;
    }
    assert keys[..i] == keys;
    ok := true;
  }

  /** The record half of an upload: read the field, decode it, append the URLs and write it back. */
  method AppendToRecord(store: VisitStore, id: string, urls: seq<string>, fetchFails: bool, updateFails: bool)
    returns (ok: bool)
    modifies store
    ensures var field := AppendField(old(store.rows), id, urls, fetchFails);
      (ok <==> field.Some? && !updateFails)
      && store.rows == (if ok then SetImageField(old(store.rows), id, field.value) else old(store.rows))
    ensures store.blobs == old(store.blobs)
  {
    var current := store.FetchImageField(id, fetchFails);
    if current.Err? {
      return false;
    }
    var existing := Decode(current.value);
    if existing.None? {
      return false;
    }
    ok := store.UpdateImageField(id, UploadField(existing.value + urls), updateFails);
  }

  /** The store half of an upload: every blob, then the record; `written` when the record was updated. */
  method UploadToStore(store: VisitStore, id: string, nonces: seq<Nonce>, files: seq<SelectedFile>, faults: UploadFaults)
    returns (written: bool, urls: seq<string>)
    requires |nonces| == |files| == |faults.putFails|
    modifies store
    ensures var keys := FileKeys(id, nonces, files);
      var field := AppendField(old(store.rows), id, PublicUrls(store.publicBase, keys), faults.fetchFails);
      (written <==> FirstFailure(faults.putFails) == |keys| && field.Some? && !faults.updateFails)
      && (written ==> urls == PublicUrls(store.publicBase, keys))
      && store.blobs == old(store.blobs) + AsSet(keys[..FirstFailure(faults.putFails)])
      && store.rows == (if written then SetImageField(old(store.rows), id, field.value) else old(store.rows))
  {
    var ok;
    ok, urls := PutAll(store, id, nonces, files, faults.putFails);
    if !ok {
      return false, urls;
    }
    written := AppendToRecord(store, id, urls, faults.fetchFails, faults.updateFails);
  }

  /**
   * The store half of a delete: read and decode the field, drop the element
   * at `imageIndex`, remove the blob named by the URL's last segment (its
   * failure ignored) and write the list back. `updated` is the list written,
   * or `None` when a step failed.
   */
  method DeleteFromStore(store: VisitStore, visitId: string, imageUrl: string, imageIndex: int, faults: DeleteFaults)
    returns (updated: Option<seq<string>>)
    modifies store
    ensures var fetched := FetchedList(old(store.rows), visitId, faults.fetchFails);
      var key := LastPiece(imageUrl, '/');
      (updated.Some? <==> fetched.Some? && !faults.updateFails)
      && (updated.Some? ==> updated.value == RemoveAt(fetched.value, imageIndex))
      && store.blobs == (if fetched.Some? && key != "" && !faults.removeFails then old(store.blobs) - {key} else old(store.blobs))
      && store.rows == (if updated.Some? then SetImageField(old(store.rows), visitId, EncodeField(updated.value)) else old(store.rows))
  {
    var current := store.FetchImageField(visitId, faults.fetchFails);
    if current.Err? {
      return None;
    }
    var existing := Decode(current.value);
    if existing.None? {
      return None;
    }
    var remaining := RemoveAt(existing.value, imageIndex);
    var fileName := LastPiece(imageUrl, '/');
    if fileName != "" {
      store.RemoveBlob(fileName, faults.removeFails);
    }
    var written := store.UpdateImageField(visitId, EncodeField(remaining), faults.updateFails);
    updated := if written then Some(remaining) else None;
  }

  // ---------------------------------------------------------------------
  // The gallery component's state
  // ---------------------------------------------------------------------

  datatype DeleteFaults = DeleteFaults(fetchFails: bool, removeFails: bool, updateFails: bool)
  datatype DeleteOutcome = Cancelled | Deleted | DeleteFailed

  datatype UploadFaults = UploadFaults(putFails: seq<bool>, fetchFails: bool, updateFails: bool, listFails: bool)
  datatype UploadOutcome = NothingSelected | UploadFailed | Uploaded(count: nat)

  /** All of the component's state at one moment, one value per state hook. */
  datatype GalleryView = GalleryView(
    ivVisits: seq<GalleryVisit>,
    expandedIV: Option<string>,
    loading: bool,
    showUploadDialog: bool,
    selectedVisitId: string,
    selectedFiles: seq<SelectedFile>,
    uploading: bool,
    deletingImage: Option<string>,
    searchTerm: string,
    selectedDepartment: string,
    detailsVisit: Option<GalleryVisit>)

  const InitialView := GalleryView([], None, true, false, "", [], false, None, "", "all", None)

  class GalleryState {
    var ivVisits: seq<GalleryVisit>
    var expandedIV: Option<string>
    var loading: bool
    var showUploadDialog: bool
    var selectedVisitId: string
    var selectedFiles: seq<SelectedFile>
    var uploading: bool
    var deletingImage: Option<string>
    var searchTerm: string
    var selectedDepartment: string
    var detailsVisit: Option<GalleryVisit>

    function View(): GalleryView
      reads this
    {
      GalleryView(ivVisits, expandedIV, loading, showUploadDialog, selectedVisitId, selectedFiles,
        uploading, deletingImage, searchTerm, selectedDepartment, detailsVisit)
    }

    /** The visits on screen. */
    function Shown(): (r: seq<GalleryVisit>)
      reads this
      ensures IsSubsequence(r, ivVisits)
    {
      FilteredVisits(ivVisits, searchTerm, selectedDepartment)
    }

    constructor ()
      ensures View() == InitialView
    {
      ivVisits := [];
      expandedIV := None;
      loading := true;
      showUploadDialog := false;
      selectedVisitId := "";
      selectedFiles := [];
      uploading := false;
      deletingImage := None;
      searchTerm := "";
      selectedDepartment := "all";
      detailsVisit := None;
    }

    /**
     * The mount-time fetch. A failed listing clears `loading` and keeps the
     * visits; a field that does not parse throws past `setLoading(false)`.
     */
    method FetchVisits(store: VisitStore, fails: bool)
      modifies this
      ensures var decoded := DecodeRows(ListRows(store.rows));
        View() == if fails then old(View()).(loading := false)
                  else if decoded.Some? then old(View()).(ivVisits := decoded.value, loading := false)
                  else old(View())
    {
      var listed := store.ListVisits(fails);
      if listed.Some? {
        var decoded := DecodeRows(listed.value);
        if decoded.None? {
          return;
        }
        ivVisits := decoded.value;
      }
      loading := false;
    }

    /** `toggleIV`. */
    method ToggleIV(id: string)
      modifies this
      ensures View() == old(View()).(expandedIV := Toggle(old(expandedIV), id))
    {
      expandedIV := Toggle(expandedIV, id);
    }

    /** `handleFileSelect`. */
    method SelectFiles(files: seq<SelectedFile>)
      modifies this
      ensures View() == old(View()).(selectedFiles := files)
    {
      selectedFiles := files;
    }

    /** `removeSelectedFile`: drop the file at `index`, if there is one. */
    method RemoveSelectedFile(index: int)
      modifies this
      ensures View() == old(View()).(selectedFiles := RemoveAt(old(selectedFiles), index))
    {
      selectedFiles := RemoveAt(selectedFiles, index);
    }

    /**
     * `deleteImage`: remove the element at `imageIndex` from the freshly
     * fetched list, remove the blob named by the last segment of `imageUrl`
     * (ignoring a failed removal), write the list back and patch the visit.
     * The slot marker is set for the duration and cleared on every path.
     */
    method DeleteImage(store: VisitStore, visitId: string, imageUrl: string, imageIndex: int, confirmed: bool, faults: DeleteFaults)
      returns (outcome: DeleteOutcome)
      modifies this, store
      ensures outcome == Cancelled <==> !confirmed
      ensures var fetched := FetchedList(old(store.rows), visitId, faults.fetchFails);
        var key := LastPiece(imageUrl, '/');
        confirmed ==>
          (outcome == Deleted <==> fetched.Some? && !faults.updateFails)
          && store.blobs == (if fetched.Some? && key != "" && !faults.removeFails then old(store.blobs) - {key} else old(store.blobs))
          && store.rows == (if outcome == Deleted then SetImageField(old(store.rows), visitId, EncodeField(RemoveAt(fetched.value, imageIndex))) else old(store.rows))
          && View() == (if outcome == Deleted then old(View()).(ivVisits := PatchImages(old(ivVisits), visitId, RemoveAt(fetched.value, imageIndex)), deletingImage := None)
                        else old(View()).(deletingImage := None))
      ensures !confirmed ==> View() == old(View()) && store.rows == old(store.rows) && store.blobs == old(store.blobs)
      ensures old(Synced(ivVisits, store.rows)) ==> Synced(ivVisits, store.rows)
    {
      if !confirmed {
        return Cancelled;
      }
      deletingImage := Some(SlotKey(visitId, imageIndex));
      var updated := DeleteFromStore(store, visitId, imageUrl, imageIndex, faults);
      deletingImage := None;
      if updated.None? {
        return DeleteFailed;
      }
      if Synced(ivVisits, old(store.rows)) {
        PatchKeepsSync(ivVisits, old(store.rows), visitId, updated.value);
      }
      ivVisits := PatchImages(ivVisits, visitId, updated.value);
      return Deleted;
    }

    /**
     * `uploadImages`: put every selected file in the bucket, then append
     * their URLs to the visit's field, refresh the list and reset the dialog.
     * The first failing step ends in the failure alert; `uploading` is
     * cleared on every path past the guard.
     */
    method UploadImages(store: VisitStore, nonces: seq<Nonce>, faults: UploadFaults) returns (outcome: UploadOutcome)
      requires |nonces| == |selectedFiles| == |faults.putFails|
      modifies this, store
      ensures outcome == NothingSelected <==> old(selectedVisitId) == "" || old(selectedFiles) == []
      ensures outcome == NothingSelected ==> View() == old(View()) && store.rows == old(store.rows) && store.blobs == old(store.blobs)
      ensures var id := old(selectedVisitId);
        var keys := FileKeys(id, nonces, old(selectedFiles));
        var field := AppendField(old(store.rows), id, PublicUrls(store.publicBase, keys), faults.fetchFails);
        var written := FirstFailure(faults.putFails) == |keys| && field.Some? && !faults.updateFails;
        outcome != NothingSelected ==>
          store.blobs == old(store.blobs) + AsSet(keys[..FirstFailure(faults.putFails)])
          && store.rows == (if written then SetImageField(old(store.rows), id, field.value) else old(store.rows))
          && (outcome.Uploaded? <==> written && (faults.listFails || DecodeRows(ListRows(store.rows)).Some?))
      ensures outcome == UploadFailed ==> View() == old(View()).(uploading := false)
      ensures outcome.Uploaded? ==> outcome.count == |old(selectedFiles)|
      ensures var refreshed := DecodeRows(ListRows(store.rows));
        outcome.Uploaded? ==> View() == old(View()).(
          ivVisits := if faults.listFails then old(ivVisits) else refreshed.value,
          showUploadDialog := false, selectedVisitId := "", selectedFiles := [], uploading := false)
    {
      if selectedVisitId == "" || selectedFiles == [] {
        return NothingSelected;
      }
      uploading := true;
      var written, urls := UploadToStore(store, selectedVisitId, nonces, selectedFiles, faults);
      outcome := FinishUpload(store, written, |urls|, faults.listFails);
    }

    /**
     * What follows the store writes of an upload: on success refresh the
     * list and reset the dialog; `uploading` is cleared either way.
     */
    method FinishUpload(store: VisitStore, written: bool, count: nat, listFails: bool) returns (outcome: UploadOutcome)
      modifies this
      ensures var refreshed := DecodeRows(ListRows(store.rows));
        (outcome.Uploaded? <==> written && (listFails || refreshed.Some?))
        && (outcome.Uploaded? ==> outcome == Uploaded(count) && View() == old(View()).(
          ivVisits := if listFails then old(ivVisits) else refreshed.value,
          showUploadDialog := false, selectedVisitId := "", selectedFiles := [], uploading := false))
      ensures !outcome.Uploaded? ==> outcome == UploadFailed && View() == old(View()).(uploading := false)
    {
      var ok := written;
      if ok {
        ok := Refresh(store, listFails);
      }
      uploading := false;
      if !ok {
        return UploadFailed;
      }
      showUploadDialog, selectedVisitId, selectedFiles := false, "", [];
      return Uploaded(count);
    }

    /** The list refresh after an upload; a field that does not parse throws. */
    method Refresh(store: VisitStore, listFails: bool) returns (ok: bool)
      modifies this
      ensures var decoded := DecodeRows(ListRows(store.rows));
        (ok <==> listFails || decoded.Some?)
        && View() == if !listFails && decoded.Some? then old(View()).(ivVisits := decoded.value) else old(View())
    {
      var listed := store.ListVisits(listFails);
      if listed.None? {
        return true;
      }
      var decoded := DecodeRows(listed.value);
      if decoded.None? {
        return false;
      }
      ivVisits := decoded.value;
      return true;
    }
  }
}
