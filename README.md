# Industrial Visits portal: a verified model of its core logic

This project is a Dafny model of the client-side logic of the Industrial
Visits portal. The portal is a React front end over a hosted database and a
file bucket. The model covers six parts of it:

- **The admin image gallery** (`ivgallery.tsx`). A visit's `image_url`
  column holds null, a legacy bare URL, or a JSON array of URLs. The gallery
  decodes that field when it reads it, appends to it on upload and removes
  one element on delete. It also keeps a list of visits with an expand
  toggle, a search and department filter, and a per-slot "deleting" marker.
  - The record store is the `VisitStore` class: the rows of `iv_visits`
    plus the set of blob keys in the `gallery` bucket.
  - The component is the `GalleryState` class, one field per state hook.
  - The JSON text is written and read by a concrete `JSON.stringify` and
    `JSON.parse` for arrays of strings (module `Json`), with a round-trip
    proof.
- **The static visit table and its selectors** (`visits.ts`): upcoming,
  completed, by department, and the latest completed visits newest first.
- **The admin panel** (`ContentArea.tsx`):
  - the approved-registration export, with its CSV text and file name;
  - the registration table's search filter and visit options;
  - name initials and the section dispatch by role;
  - the roles section's user list: add an admin, delete a user.
- **The student registration form** (`StudentRegistration.tsx`): the submit
  guard, the insert, the reset, and the mapping of a database error to the
  message the student sees.
- **The public listing pages** (`UpcomingVisits.tsx`, `PastVisits.tsx`): the
  date-split queries, row mapping, department lists and filters.

Modules, one per file:

- `Wrappers`: Option and Result.
- `Seqs`: filter, dedup, remove-at and sort-by-key over sequences.
- `Text`: the JavaScript string operations used (`trim`, `includes`,
  `split`, `join`, ASCII case mapping, decimal printing).
- `Json` and `ImageField`: the image-list codec.
- `Schema`: the `iv_visits` row.
- `Gallery`, `VisitsData`, `Listing`, `UpcomingVisits`, `PastVisits`,
  `ContentArea` and `StudentRegistration`.

Inputs that the model treats as parameters:

- every SDK call's success or failure;
- the values `Date.now()` and `Math.random()` add to a file name (`Nonce`);
- today's date and `toISOString()`;
- the locale date formatter;
- the answer to `confirm`.

## Model

| member | source | states |
|---|---|---|
| Json.RoundTrip | client/components/ivgallery.tsx:237 | Parsing the text `JSON.stringify` writes for any array of strings gives back the same strings in the same order. |
| Json.StringBodyRoundTrip | client/components/ivgallery.tsx:237 | Reading an escaped string literal back stops at its closing quote, returns the original string and leaves the text after it untouched. |
| Json.ItemsRoundTrip | client/components/ivgallery.tsx:237 | Reading back a non-empty comma-separated list of literals stops at the closing bracket and returns the list. |
| Json.EscapeCharStep | client/components/ivgallery.tsx:237 | Each character's escape reads back as exactly that character, whatever follows it. |
| Json.HexRoundTrip | client/components/ivgallery.tsx:237 | The four hex digits written for a control character read back as its code. |
| Json.SkipWs | client/components/ivgallery.tsx:49 | Skipping white space leaves a suffix of the input. |
| Json.ParseStringBody | client/components/ivgallery.tsx:49 | A successful read of a string literal always consumes input, so the array reader terminates. |
| ImageField.DecodeEncodeField | client/components/ivgallery.tsx:150 | The field the delete path writes decodes back to the remaining list, and it is null exactly when the list is empty. |
| ImageField.DecodeUploadField | client/components/ivgallery.tsx:237 | The field the upload path writes decodes back to the combined list and is never null or empty. |
| ImageField.DecodeLegacy | client/components/ivgallery.tsx:47-51 | A non-empty string that does not start with `[` reads as a one-URL list. |
| ImageField.DecodeExamples | client/components/ivgallery.tsx:121-125 | Null and the empty string read as no images, a bare URL reads as one image, and an empty list is written as null. |
| ImageField.DecodeArrayExample | client/components/ivgallery.tsx:255-259 | A JSON array text is read element by element, and a one-element list is written as a JSON array. |
| ImageField.StringifyExamples | client/components/ivgallery.tsx:237 | The stringified arrays have the expected text: quoted elements, comma separated, no spaces. |
| ImageField.DecodeMalformed | client/components/ivgallery.tsx:225-229 | A legacy value that merely starts with `[` is parsed as JSON and fails, which is the throw of `JSON.parse`. |
| Gallery.SelectAfterSet | client/components/ivgallery.tsx:147-152 | After a visit's field is updated, reading that visit gives the value written, and reading any other visit gives what it gave before. |
| Gallery.RowsWithIdAfterSet | client/components/ivgallery.tsx:147-152 | Updating one id and then selecting another id is the same as selecting first and updating after. |
| Gallery.SetImageFieldPointwise | client/components/ivgallery.tsx:147-152 | The update keeps the number of rows and rewrites each row on its own, in place. |
| Gallery.SetKeepsUniqueIds | client/components/ivgallery.tsx:147-152 | An update of the field keeps the ids of the rows unique. |
| Gallery.RowsWithId | client/components/ivgallery.tsx:108-112 | The rows that `.eq('id', id)` selects all belong to the store and carry that id. |
| Gallery.NoRowsWithId | client/components/ivgallery.tsx:108-112 | An id that no row carries selects nothing. |
| Gallery.RowsWithUniqueId | client/components/ivgallery.tsx:108-112 | With unique ids, a row's id selects that row alone. |
| Gallery.SelectUnique | client/components/ivgallery.tsx:108-112 | With unique ids, `.single()` on a row's id returns that row's field. |
| Gallery.DecodeRowsPointwise | client/components/ivgallery.tsx:45-52 | The decoded listing exists exactly when every row's field decodes, has one visit per row in order, and visit i carries row i's decoded list. |
| Gallery.RefreshSynced | client/components/ivgallery.tsx:247-262 | A fresh, decoded listing of a store with unique ids agrees with the store: every visit shown has one row, whose field decodes to the visit's list. |
| Gallery.PatchImages | client/components/ivgallery.tsx:160-166 | The local patch keeps every visit's row, gives the visit with that id the new list and leaves every other visit unchanged. |
| Gallery.PatchKeepsSync | client/components/ivgallery.tsx:147-166 | Writing a list to the store and patching the same list locally keeps the gallery in agreement with the store. |
| Gallery.FetchedListShown | client/components/ivgallery.tsx:108-125 | While the gallery agrees with the store, the list the delete path fetches for a visit is the one the gallery shows for it. |
| Gallery.DepartmentsSpec | client/components/ivgallery.tsx:66-68 | The department menu holds exactly the departments of the visits, strictly ascending, so sorted and free of duplicates. |
| Gallery.FilteredVisits | client/components/ivgallery.tsx:70-80 | The shown visits are the order-preserving sublist of those that match the trimmed, lower-cased query in title, city, state or industry and pass the department test. |
| Gallery.FilteredVisitsBlank | client/components/ivgallery.tsx:71-73 | A query of only white space with `"all"` departments shows every visit. |
| Gallery.DeleteKeyOfUploadedUrl | client/components/ivgallery.tsx:131-132 | The last `/`-segment of a public URL, taken as the bucket address, `/` and the key with no URL encoding, is the key it was made from. |
| Gallery.UploadedUrlsDeletable | client/components/ivgallery.tsx:190-208 | With public URLs taken without URL encoding, each URL an upload produces, handed to the delete path, yields the key of the blob uploaded for it. |
| Gallery.SlotKeyInjective | client/components/ivgallery.tsx:104 | Two slots with the same marker text are the same visit and the same index. |
| Gallery.OnlyThatSlotDisabled | client/components/ivgallery.tsx:527 | While a slot is being deleted, the delete button of that slot is disabled, and no other. |
| Gallery.Toggle | client/components/ivgallery.tsx:62-64 | The visit becomes expanded exactly when it was not expanded; otherwise nothing is expanded. |
| Gallery.FirstFailure | client/components/ivgallery.tsx:190-201 | The upload loop stops at the first failing put; every earlier put succeeded. |
| Gallery.FileKeys | client/components/ivgallery.tsx:190-192 | One storage key per selected file. |
| Gallery.PublicUrls | client/components/ivgallery.tsx:204-208 | One public URL per uploaded key, with no URL encoding. |
| Gallery.AppendFieldWrites | client/components/ivgallery.tsx:223-237 | A successful upload write stores, for that visit, a field that decodes to the existing list followed by the new URLs, and never null. |
| Gallery.VisitStore.constructor | client/components/ivgallery.tsx:36-39 | The store holds the given rows, blobs and public base. |
| Gallery.VisitStore.PutBlob | client/components/ivgallery.tsx:194-196 | A successful put adds the key to the bucket; the rows are untouched. |
| Gallery.VisitStore.RemoveBlob | client/components/ivgallery.tsx:136-138 | A successful remove takes the key out of the bucket; the rows are untouched. |
| Gallery.VisitStore.FetchImageField | client/components/ivgallery.tsx:108-112 | A read that does not fail returns the single matching row's field, or an error when not exactly one row matches. |
| Gallery.VisitStore.UpdateImageField | client/components/ivgallery.tsx:147-152 | A successful update rewrites the field of the rows with that id; the bucket is untouched. |
| Gallery.VisitStore.ListVisits | client/components/ivgallery.tsx:247-250 | A listing that does not fail returns the rows ordered by visit date, newest first. |
| Gallery.PutAll | client/components/ivgallery.tsx:190-209 | The loop puts the blobs in selection order up to the first failure. It succeeds exactly when no put fails, and then returns one public URL per file in order. The rows are untouched. |
| Gallery.AppendToRecord | client/components/ivgallery.tsx:211-244 | The record write succeeds exactly when the read, the decode and the update succeed, and then stores the existing list followed by the new URLs. The bucket is untouched. |
| Gallery.UploadToStore | client/components/ivgallery.tsx:186-244 | The record changes only when every put succeeded and the record write succeeded. A failed put leaves the field as it was, and the blobs put before it stay in the bucket. |
| Gallery.DeleteFromStore | client/components/ivgallery.tsx:106-157 | The list written is the fetched list without the element at the index. The blob removed is the URL's last segment, skipped when that is empty. A failed blob removal does not stop the update. |
| Gallery.GalleryState.constructor | client/components/ivgallery.tsx:22-32 | The initial values of the state hooks. |
| Gallery.GalleryState.Shown | client/components/ivgallery.tsx:70-80 | The shown visits are a sublist of the loaded visits. |
| Gallery.GalleryState.FetchVisits | client/components/ivgallery.tsx:34-57 | A failed listing only clears `loading`. A listing whose fields all decode replaces the visits. A field that does not parse leaves the state as it was, including `loading`. |
| Gallery.GalleryState.ToggleIV | client/components/ivgallery.tsx:62-64 | Only the expanded visit changes, as `Toggle` says. |
| Gallery.GalleryState.SelectFiles | client/components/ivgallery.tsx:90-93 | Only the file selection changes. |
| Gallery.GalleryState.RemoveSelectedFile | client/components/ivgallery.tsx:95-97 | Only the file at the index leaves the selection; an index out of range changes nothing. |
| Gallery.GalleryState.DeleteImage | client/components/ivgallery.tsx:99-176 | Without confirmation nothing changes. With it, the delete succeeds exactly when the fetch and the update succeed, and then only that visit's list is patched. The marker is cleared on every path, and agreement with the store is preserved. |
| Gallery.GalleryState.UploadImages | client/components/ivgallery.tsx:178-277 | With no visit or no file selected nothing changes. Otherwise the store changes as `UploadToStore` says. A failure changes only `uploading`, back to false. Success reports the number of selected files and resets the dialog, the visit and the files. |
| Gallery.GalleryState.FinishUpload | client/components/ivgallery.tsx:246-276 | After the store writes: success refreshes the list, unless the listing fails, and resets the dialog. `uploading` is false on every path. |
| Gallery.GalleryState.Refresh | client/components/ivgallery.tsx:247-262 | The refresh replaces the visits only when the listing succeeds and every field decodes, and it throws only on a field that does not parse. |
| Seqs.RemoveAt | client/components/ivgallery.tsx:128 | In range, exactly the element at the index is dropped; out of range, the list is unchanged. |
| Seqs.RemoveAtShifts | client/components/ivgallery.tsx:128 | In range, the length drops by one and the other elements keep their relative order. |
| Seqs.Dedup | client/pages/UpcomingVisits.tsx:61 | `[...new Set(xs)]`: no duplicates, the same members, a sublist in first-occurrence order. |
| Seqs.FilterSpec | client/data/visits.ts:143-155 | `filter` keeps order and keeps exactly the elements that pass. |
| Seqs.FilterCounts | client/components/ContentArea.tsx:736 | `filter` keeps every passing element as often as it occurs and drops every other. |
| Seqs.FilterPartition | client/data/visits.ts:143-149 | Two complementary filters split a list: the lengths add up and the contents add up to the list. |
| Seqs.SortByKey | client/data/visits.ts:160 | The result is sorted by the key and a permutation of the input. |
| Seqs.SortedDistinct | client/components/ivgallery.tsx:67 | `Array.from(new Set(xs)).sort()`: the same members, strictly ascending. |
| Seqs.StrLeTotal | client/components/ivgallery.tsx:67 | Code-point order on strings compares any two strings. |
| Seqs.StrLeTransitive | client/components/ivgallery.tsx:67 | Code-point order on strings is transitive. |
| Seqs.StrLeAntisymmetric | client/components/ivgallery.tsx:67 | Two strings each ordered before the other are equal. |
| Text.TrimStart | client/components/ivgallery.tsx:71 | The result is the suffix that starts at the first non-space character. |
| Text.TrimEnd | client/components/ivgallery.tsx:71 | The result is the prefix that ends at the last non-space character. |
| Text.TrimEmpty | client/components/ivgallery.tsx:71-73 | A string trims to nothing exactly when it is all white space. |
| Text.TrimEnds | client/components/ivgallery.tsx:71 | A trimmed string neither starts nor ends with white space. |
| Text.ContainsAt | client/components/ivgallery.tsx:73-76 | `includes` holds exactly when the text occurs at some offset. |
| Text.Split | client/components/ContentArea.tsx:192 | The pieces hold no separator, there is at least one, and joining them with the separator gives back the input. |
| Text.SplitJoin | client/components/ContentArea.tsx:550 | Splitting a join gives back the parts when none holds the separator. |
| Text.SplitFirst | client/components/ContentArea.tsx:192 | The first piece of a split is the text before the first separator. |
| Text.LastPiece | client/components/ivgallery.tsx:131-132 | The last piece is a separator-free suffix, preceded by a separator whenever it is shorter than the input. |
| Text.LastPieceOf | client/components/ivgallery.tsx:131-132 | The last piece of `base + sep + tail` is `tail` when `tail` holds no separator. |
| Text.NatToString | client/components/ivgallery.tsx:104 | A number prints as decimal digits, one digit exactly for numbers below ten. |
| Text.NatToStringInjective | client/components/ivgallery.tsx:104 | Different indexes print differently. |
| VisitsData.UpcomingOf | client/data/visits.ts:143-145 | The order-preserving sublist of the upcoming visits. |
| VisitsData.CompletedOf | client/data/visits.ts:147-149 | The order-preserving sublist of the completed visits. |
| VisitsData.UpcomingCompletedPartition | client/data/visits.ts:143-149 | Together the two selections hold every visit exactly once. |
| VisitsData.ByDepartmentOf | client/data/visits.ts:151-155 | The order-preserving sublist of visits whose lower-cased department contains the lower-cased query. |
| VisitsData.ByDepartmentEmpty | client/data/visits.ts:151-155 | An empty department query returns every visit. |
| VisitsData.SliceEnd | client/data/visits.ts:161 | For a count of zero or more, `slice(0, count)` ends at the smaller of the count and the length. |
| VisitsData.LatestOf | client/data/visits.ts:157-162 | A prefix of the completed visits sorted newest first, so each completed visit appears at most as often as in the table. For a count of zero or more, its length is the smaller of the count and the number of completed visits. |
| VisitsData.LatestSpec | client/data/visits.ts:157-161 | The latest visits are newest first, and no completed visit left out is newer than one included. |
| VisitsData.LatestPrefix | client/data/visits.ts:157-162 | A smaller count gives a prefix of a larger one's result. |
| VisitsData.SplitAtBoundary | client/data/visits.ts:143-149 | When the completed entries come first, the two selections are the two halves of the table. |
| VisitsData.TableStatuses | client/data/visits.ts:16-141 | The table has eight entries: four completed, then four upcoming. |
| VisitsData.TableWellFormed | client/data/visits.ts:16-141 | All ids in the table are distinct, and every upcoming entry has a registration link. |
| VisitsData.TableSelections | client/data/visits.ts:143-162 | On the table, the completed visits are the first four, the upcoming visits are the last four, and the default latest list has three entries. |
| Listing.Location | client/pages/UpcomingVisits.tsx:47 | The location is the city, then `", "`, then the state. |
| Listing.EmptySearchMatches | client/pages/UpcomingVisits.tsx:64-66 | An empty search matches every visit. |
| Listing.UpcomingQuery | client/pages/UpcomingVisits.tsx:37-41 | Exactly the rows dated today or later, each as often as in the table, oldest first. |
| Listing.PastQuery | client/pages/PastVisits.tsx:37-41 | Exactly the rows dated before today, each as often as in the table, newest first. |
| Listing.SortedMembers | client/pages/PastVisits.tsx:41 | Reordering a listing keeps its members. |
| Listing.QueriesPartition | client/pages/PastVisits.tsx:40 | Every row is on exactly one of the two pages. |
| UpcomingVisits.MapRow | client/pages/UpcomingVisits.tsx:44-54 | Each card field comes from its column. The location joins city and state. An absent description or registration URL stays absent. |
| UpcomingVisits.MapRows | client/pages/UpcomingVisits.tsx:44-54 | One card per row, in order. |
| UpcomingVisits.DepartmentsOf | client/pages/UpcomingVisits.tsx:61 | One department per visit, in order. |
| UpcomingVisits.DepartmentsSpec | client/pages/UpcomingVisits.tsx:61 | The department list has no duplicates, holds exactly the visits' departments, and is in first-occurrence order. |
| UpcomingVisits.FilteredVisits | client/pages/UpcomingVisits.tsx:63-69 | The order-preserving sublist of visits that match the untrimmed, lower-cased query in title, location or industry and pass the department test. |
| UpcomingVisits.FilteredVisitsAll | client/pages/UpcomingVisits.tsx:63-69 | An empty search with `"all"` shows every visit. |
| UpcomingVisits.RegisterActionOfRow | client/pages/UpcomingVisits.tsx:191-203 | A visit gets the button that navigates to `/register-visit` exactly when its registration URL is absent or empty; otherwise it gets the inert "Register Now" button. |
| PastVisits.ImageOrPlaceholder | client/pages/PastVisits.tsx:53 | A null or empty field becomes the placeholder; any other value passes through unchanged. |
| PastVisits.MapRow | client/pages/PastVisits.tsx:44-55 | Each card field comes from its column. The image list is the single raw field or the placeholder, and there are no learning outcomes. |
| PastVisits.MapRows | client/pages/PastVisits.tsx:44-55 | One card per row, in order. |
| PastVisits.CardContents | client/pages/PastVisits.tsx:53-54 | A card always has exactly one image and shows zero learning outcomes; a non-empty field is that image. |
| PastVisits.ImageListNotDecoded | client/pages/PastVisits.tsx:53 | A field holding a JSON list of several URLs, which the gallery decodes to all of them, becomes one image whose address is the JSON text. |
| PastVisits.DepartmentsOf | client/pages/PastVisits.tsx:62 | One department per visit, in order. |
| PastVisits.DepartmentsSpec | client/pages/PastVisits.tsx:62 | The department list has no duplicates and holds exactly the visits' departments. |
| PastVisits.FilteredVisits | client/pages/PastVisits.tsx:64-70 | The order-preserving sublist of visits that match the untrimmed, lower-cased query and pass the department test. |
| PastVisits.FilteredByDepartment | client/pages/PastVisits.tsx:68 | With an empty search and a department chosen, exactly the visits of that department are shown. |
| ContentArea.ExportSet | client/components/ContentArea.tsx:144-156 | The order-preserving sublist of the approved registrations that pass the visit filter (every visit for `"all"`). |
| ContentArea.RowCells | client/components/ContentArea.tsx:165-178 | Eight cells per registration; a missing division becomes the empty cell. |
| ContentArea.QuotedCells | client/components/ContentArea.tsx:182 | Every cell is quoted, one for one. |
| ContentArea.CsvLines | client/components/ContentArea.tsx:181-183 | The header line comes first, followed by one line per exported registration, in order. |
| ContentArea.ReadCell | client/components/ContentArea.tsx:182 | Reading one quoted cell consumes input. |
| ContentArea.ReadCellRoundTrip | client/components/ContentArea.tsx:182 | A quoted cell without quotes inside reads back as itself. |
| ContentArea.QuoteCellStep | client/components/ContentArea.tsx:182 | Reading a line starts by reading its first quoted cell back. |
| ContentArea.LineAfterCell | client/components/ContentArea.tsx:182 | After one cell, a line ends or continues after a comma. |
| ContentArea.CsvLineRoundTrip | client/components/ContentArea.tsx:182 | A line of cells without quotes reads back as those cells. |
| ContentArea.CsvLineNoNewline | client/components/ContentArea.tsx:182 | A line of cells without line breaks has none. |
| ContentArea.HeadersPlain | client/components/ContentArea.tsx:164 | The eight headers hold no line break and no quote. |
| ContentArea.CsvLayout | client/components/ContentArea.tsx:164-183 | When no cell holds a line break or a quote, the text splits at line breaks into the header line and one line per registration, each reading back as its eight cells. |
| ContentArea.CollapseSpaces | client/components/ContentArea.tsx:189 | Collapsing white space never lengthens the name. |
| ContentArea.TrimStartWithin | client/components/ContentArea.tsx:189 | A run of white space is dropped whole, leaving a suffix. |
| ContentArea.CollapseSpacesChars | client/components/ContentArea.tsx:189 | Every character of the collapsed name is `_` or a character of the input that is not white space. |
| ContentArea.CollapseSpacesSingle | client/components/ContentArea.tsx:189 | A name without `_` collapses to one without two `_` in a row. |
| ContentArea.NoDoubleCons | client/components/ContentArea.tsx:189 | Putting a character before a name keeps it free of doubled `_` unless both are `_`. |
| ContentArea.CleanVisitNameChars | client/components/ContentArea.tsx:189 | The cleaned visit name holds only ASCII letters, digits and single underscores. |
| ContentArea.CollapseKeepsAlnum | client/components/ContentArea.tsx:189 | Collapsing white space keeps every letter and digit, in order. |
| ContentArea.TrimStartKeepsAlnum | client/components/ContentArea.tsx:189 | Dropping leading white space keeps every letter and digit. |
| ContentArea.FilterOfFilter | client/components/ContentArea.tsx:189 | The first replace keeps every letter and digit. |
| ContentArea.CleanVisitNameKeepsAlnum | client/components/ContentArea.tsx:189 | The letters and digits of the visit name all survive cleaning, in order. |
| ContentArea.ExportFilenameShape | client/components/ContentArea.tsx:186-192 | The name is `approved_students`, then `_` and the cleaned visit unless the filter is `all`, then `_`, the date and `.csv`. |
| ContentArea.Affixes | client/components/ContentArea.tsx:186-192 | A three-part name starts with its first part and ends with its last. |
| ContentArea.DownloadExcel | client/components/ContentArea.tsx:142-192 | No file exactly when no registration is exported. Otherwise the file holds the CSV of the export set under the export file name. |
| ContentArea.RegistrationRows | client/components/ContentArea.tsx:532-543 | The table shows the order-preserving sublist of registrations whose name, email, roll number or department contains the term, ignoring case, and that pass the visit filter. |
| ContentArea.VisitIdsOf | client/components/ContentArea.tsx:497 | One visit id per registration, in order. |
| ContentArea.VisitOptions | client/components/ContentArea.tsx:497 | The visit options are the distinct visit ids of the registrations, as a sublist in first-occurrence order. |
| ContentArea.VisitOptionShowsItsRows | client/components/ContentArea.tsx:532-543 | Choosing an option with an empty search shows exactly the registrations for that visit. |
| ContentArea.FirstChars | client/components/ContentArea.tsx:550 | At most one character per word. |
| ContentArea.FirstCharsOfWords | client/components/ContentArea.tsx:550 | For non-empty words, exactly the first character of each word, in order. |
| ContentArea.InitialsOfWords | client/components/ContentArea.tsx:550 | A name of words separated by single spaces has one upper-cased initial per word. |
| ContentArea.RenderContentSpec | client/components/ContentArea.tsx:753-770 | The roles view is shown exactly for a super user on `roles`. `download` renders the registrations view. An unknown section falls back to upcoming visits. |
| ContentArea.FacultyRolesLoadsHiddenList | client/components/ContentArea.tsx:252-259 | On `roles` the user list is loaded even for a faculty user, who is shown the upcoming visits instead. |
| ContentArea.WithoutStudent | client/components/ContentArea.tsx:736 | Exactly the users with that id leave the list. Every other user keeps its place and its count. |
| ContentArea.StudentStore.constructor | client/components/ContentArea.tsx:210-213 | The table holds the given rows. |
| ContentArea.StudentStore.Insert | client/components/ContentArea.tsx:231-237 | A successful insert appends the row. |
| ContentArea.StudentStore.Delete | client/components/ContentArea.tsx:729-732 | A successful delete removes exactly the rows with that id. |
| ContentArea.StudentStore.List | client/components/ContentArea.tsx:210-213 | A listing that does not fail returns the rows ordered by creation time, newest first. |
| ContentArea.RolesPanel.constructor | client/components/ContentArea.tsx:48-53 | The user list starts empty, with the dialog closed and empty fields. |
| ContentArea.RolesPanel.FetchStudents | client/components/ContentArea.tsx:207-224 | A failed read keeps the list; a successful one replaces it with the listing, newest first. Nothing else changes. |
| ContentArea.RolesPanel.HandleAddAdmin | client/components/ContentArea.tsx:227-250 | Nothing happens unless email, password and department are all filled in and the insert succeeds. On success the row is appended, the three fields are cleared, the dialog closes and the list is read again. |
| ContentArea.RolesPanel.DeleteStudent | client/components/ContentArea.tsx:727-741 | A successful delete removes the users with that id from the store and from the list; a failed one changes neither. |
| StudentRegistration.EmptyForm | client/pages/StudentRegistration.tsx:6-14 | The form has exactly the seven fields, all empty. |
| StudentRegistration.UserMessage | client/pages/StudentRegistration.tsx:134-144 | The message is never empty. A non-empty message without `duplicate key` is shown verbatim, and no message gives the default failure text. |
| StudentRegistration.DuplicateMessages | client/pages/StudentRegistration.tsx:137-140 | The unique-per-visit violation, itself a duplicate-key message, is checked first and gives the already-registered text. Any other duplicate-key message gives the already-exists text. |
| StudentRegistration.UniqueIsDuplicate | client/pages/StudentRegistration.tsx:137-139 | A message holding the unique-per-visit violation also holds `duplicate key`. |
| StudentRegistration.ContainsTransitive | client/pages/StudentRegistration.tsx:137-139 | `includes` is transitive. |
| StudentRegistration.NoVisitSelected | client/pages/StudentRegistration.tsx:88-91 | Without a selected visit the submit fails with "Please select an industrial visit", whatever the store would answer. |
| StudentRegistration.RegistrationStore.constructor | client/pages/StudentRegistration.tsx:94-95 | The table holds the given rows. |
| StudentRegistration.RegistrationStore.Insert | client/pages/StudentRegistration.tsx:94-111 | The insert succeeds exactly when the store reports no error, and then appends the row. |
| StudentRegistration.RegistrationPage.constructor | client/pages/StudentRegistration.tsx:6-14 | The form starts empty, not submitting and without a message. |
| StudentRegistration.RegistrationPage.HandleInputChange | client/pages/StudentRegistration.tsx:64-77 | Only the named field changes, and any message is cleared. |
| StudentRegistration.RegistrationPage.HandleSubmit | client/pages/StudentRegistration.tsx:82-153 | A row is inserted exactly when a visit is selected and the store accepts it. On success the row holds the form's values and the seven fields are reset to empty; otherwise the form is kept. The message is the outcome's, and `isSubmitting` is false afterwards. |

## Left out

- The SDK calls (database select, insert, update and delete; bucket upload, remove and `getPublicUrl`) are not modelled as code. They are the `VisitStore`, `StudentStore` and `RegistrationStore` classes, and each call's failure is an input.
- Two operators doing the read-modify-write on the same `image_url` at once can race, and the last writer wins. The model is sequential.
- `Date.now()` and `Math.random()` in an uploaded file's name are the `Nonce` input. Today's date and `toISOString()` are string inputs. The `en-US` date formatting of the CSV is a `formatDate` parameter.
- `confirm` is an input. `alert`, the console, and the Blob/anchor download are not modelled; `DownloadExcel` returns the name and text of the file instead.
- The transient flags `loading`, `uploading`, `deletingImage` and `isSubmitting` are modelled only by the values they hold when a handler ends, not while its calls are pending.
- Json.RoundTrip: the JSON reader accepts only arrays of strings. Any other JSON value that a field might hold reads as `None`, which stands for an exception or a non-array value. A `\u` escape for a surrogate half is rejected.
- `toLowerCase` and `toUpperCase` are modelled for the ASCII letters only.
- ContentArea.FirstChars: a string is a sequence of code points, so `n[0]` is the whole first character. JavaScript takes the first UTF-16 code unit, which for a character outside the Basic Multilingual Plane is a lone surrogate half.
- Gallery.PublicUrl: `getPublicUrl` is modelled as the bucket address, `/` and the key. The storage client percent-encodes the key. A key holds a space or a non-ASCII character only when its extension does, as for a file name without `.`, whose whole name becomes the extension. For such a key the URL's last segment differs from the key.
- Gallery.DeleteKeyOfUploadedUrl: the key comes back only because URL encoding is not modelled. For a key with characters that encoding changes, the delete path removes a key that does not exist and the blob stays in the bucket.
- Gallery.UploadedUrlsDeletable: holds only under the unencoded `PublicUrl`. For a file name that URL encoding changes, the real delete path does not find the uploaded blob.
- Sorting compares strings by code point rather than by UTF-16 unit. The dates compared are ISO `YYYY-MM-DD` strings, so string order is date order.
- `new Date(b.date).getTime() - new Date(a.date).getTime()` in `getLatestVisits` is modelled as descending string order of the ISO dates.
- The order the database gives rows with equal sort keys is not modelled; `SortByKey` fixes one order.
- ContentArea.CsvLayout: a cell holding `"` or a line break is written unescaped by the source, and the read-back is proved only for cells without them.
- The registrations table's fetch and the approve/reject status update of `ContentArea.tsx` are not part of this model.
- The visit selector of `StudentRegistration.tsx` (lines 35-62) runs the same query as the upcoming visits page and maps fewer fields; it is not modelled separately from `Listing.UpcomingQuery`.
- UpcomingVisits.RegisterActionOfRow: the "Register Now" button has no handler in the source. The model names it and gives it no effect.
- Rendering, routing, authentication and the other pages are not part of this model.
