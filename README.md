# School maintenance dashboard — a Dafny model of its core

This project models the server and client logic of a Next.js dashboard that a school-equipment maintenance team uses to manage schools, technicians, maintenance vendors, a Q&A board and a calendar. All data lives in MongoDB. The model covers these parts of the application:

- **Resource handlers.** The route handlers under `app/api/` are modelled as state transitions on a collection. Each collection is a sequence of documents `Doc(id, createdAt, body)` with unique ids (`Store.Collection`). Every handler answers with either a payload or an HTTP status: 400, 401, 404 or 500. The handlers cover the schools (`schools` collection), vendors (`maintenance`), Q&A posts with their views and replies (`qna`), calendar events (`calendar`), technicians (`technicians`, through a mongoose schema with a unique login), the statistics endpoint and the login endpoint.
- **Ids.** An id in a request becomes an `ObjectId` (24 hexadecimal digits, stored in lower case).
  - A string that does not parse is the 500 raised by `new ObjectId(...)`.
  - A body without `_id` constructs a fresh id, which matches nothing. The technician update goes through mongoose instead, which drops an undefined `_id` from its filter, so there a body without `_id` patches the first technician.
  - A query without `id` is the handlers' own 400.
- **Pagination.**
  - Server side: `page` and `limit` default to 1 and 10, the page skips `(page - 1) * limit` documents, and `totalPages = ceil(total / limit)`. The vendor and Q&A lists also sort newest first.
  - Client side: the technician page shows 5 rows per page, with previous/next buttons and a "first to last of total" label.
- **Bulk school spreadsheet upsert** (`app/api/schools/upload`). Each row is normalised. A row whose (division, level, name) matches an existing document updates that document; any other row is inserted. Added, updated and errored rows are counted. The model also covers the raw row import of `app/api/upload-excel`.
- **Login decision.** A missing id or password is a 400, an unknown login a 401 and a wrong password a 401. Otherwise the answer is the profile without the password.
- **Maps.** Both KakaoMap components are modelled:
  - the team filter ("all" or one team's name);
  - the marker colour table (1팀 red, 2팀 blue, 3팀 green, any other team yellow);
  - the marker rebuild on every change, and the info windows.
  - The dashboard's component is a class whose method is proved against the filtered schools.
  - The technician app's component is a state machine over render, script-load and click events, with a class whose methods are proved against that machine's step functions.

Some things the code does differently from what its names or types suggest. The model follows the code in each case:

- The school form sends `teachers_room_num` and `lon`, while the schools route reads `teacher_room_num` and `lng` and stores `teachers_room_num` and `lng`; the map reads `lon`. `Schools.FormLosesRoomAndLongitude` states what a form without those keys produces.
- The spreadsheet upload reads the row fields `tech` and `teacher_room_num`, although its row type declares `istech` and `teachers_room_num`.
- The spreadsheet upload, the team update and the raw import write collection `school`. The schools route and the statistics use `schools`.
- The completion call made by the school settings page sends no `team`, so the team update always answers 400 for it (`SchoolTeam.CompleteCallRejected`).
- Editing a school through the schools route rewrites its `data` without `iscomp`, so a completed school stops counting as completed (`Stats.EditUncompletes`).
- The technician map never closes an info window. Markers from a run without cleanup stay on the map when the effect runs again.

Clocks, generated ids, per-row database faults and whether the map SDK is already loaded are parameters (`RowEnv`, `now`, `newId`, `sdkReady`). Coordinates are integers in ten-thousandths of a degree, so the default latitude 37.5665 is `DefaultLat = 375665`. They are never computed on, only stored and compared.

## Model

| member | source | states |
|---|---|---|
| Common.ParseObjectId | app/api/schools/update/route.ts:20 | `new ObjectId(s)` succeeds exactly for 24 hexadecimal digits, and the id it gives is their lower-case form |
| Common.ParseCanonical | app/api/qna/route.ts:91 | a stored id given back as a string denotes the same id |
| Common.BodyIdRef | app/api/qna/route.ts:90-92 | for the routes that build `new ObjectId(_id)`, a body without `_id` gives a fresh id; a present id is usable exactly when it parses, and then it is the parsed one |
| Common.QueryObjectId | app/api/qna/views/route.ts:11-16 | 400 exactly when the query id is missing or empty; 500 exactly when it is present but does not parse; otherwise the parsed id |
| Store.FirstMatch | app/api/auth/login/route.ts:31 | `findOne` gives the first document matching the filter, and none precedes it; no answer means no document matches |
| Store.IndexOf | app/api/qna/route.ts:90-93 | the position of the document with the id, absent exactly when no document has it |
| Store.RemoveAt | app/api/qna/route.ts:132-134 | removing one document keeps the others in order |
| Store.RemoveById | app/api/calendar/route.ts:111-113 | deleting an existing id leaves unique ids, drops that id and keeps every other id |
| Store.InsertByAgeAdds | app/api/technicians/route.ts:27 | inserting into the sorted list adds exactly that one document |
| Store.InsertByAgeSorted | app/api/technicians/route.ts:27 | inserting into a newest-first list keeps it newest first |
| Store.SortNewestFirst | app/api/maintenance/route.ts:33 | `sort({createdAt: -1})` orders by non-increasing `createdAt` and is a permutation of the documents |
| Store.Collection.FindOne | app/api/auth/login/route.ts:31 | the method finds the first match of the filter |
| Store.Collection.InsertOne | app/api/qna/route.ts:60 | the insert succeeds exactly when the id is new, and then appends the document |
| Store.Collection.SetAt | app/api/schools/upload/route.ts:74-77 | `$set` replaces the document's contents and keeps its id |
| Store.Collection.DeleteById | app/api/qna/route.ts:132-141 | a document is deleted exactly when it has the id, and the others keep their order |
| Paging.QueryOf | app/api/schools/route.ts:8-9 | a missing `page` is 1 and a missing `limit` is 10 |
| Paging.CeilDiv | app/api/schools/route.ts:34 | the least number of pages of `d` rows that hold `n` rows |
| Paging.Window | app/api/schools/route.ts:19-23 | `skip(k).limit(l)` gives the documents from position k on, at most abs(l) of them, all for l = 0, and none past the end |
| Paging.ListPage | app/api/schools/route.ts:8-35 | a negative skip is the driver's 500; otherwise the window and the pagination `total, page, limit, ceil(total/limit)` |
| Paging.WindowExtends | app/api/schools/route.ts:19-23 | the page after the first k documents continues them without a gap |
| Paging.PagesArePrefix | app/api/schools/route.ts:10 | pages 1 to n together are the first n*limit documents |
| Paging.PagesReconstruct | app/api/schools/route.ts:34 | pages 1 to `totalPages` together are the whole collection, each document once and in order |
| Paging.LastPageSize | app/api/schools/route.ts:34 | the last page is not empty and holds the remainder, or a full page |
| Paging.PageBound | app/api/schools/route.ts:22 | no page holds more than `limit` documents, and every page within the collection holds exactly `limit` |
| Listing.NewestPage | app/api/maintenance/route.ts:21-46 | the vendor and Q&A lists: a 500 exactly for a negative skip; otherwise exactly the rows from position `skip` on, at most abs(limit) of them, of the collection sorted newest first; so the page is newest first and every row comes from the collection; and the pagination over the whole collection |
| Listing.WindowNewestFirst | app/api/qna/route.ts:21-23 | a page of a newest-first list is newest first |
| Listing.NewestPagesReconstruct | app/api/qna/route.ts:9-34 | the pages of the newest-first list together hold every post exactly once |
| Json.TextOr | app/api/schools/route.ts:52-54 | `x \|\| ''` keeps a truthy value and gives the empty string otherwise |
| Json.ToNumber | app/api/schools/route.ts:55 | `Number(x)` of a number is itself; of '' it is 0; of a run of decimal digits it is their decimal value; a string with a non-digit is NaN |
| Json.DigitsValueAppend | app/api/schools/route.ts:55 | the value of a digit run is decimal: one more digit shifts it one place and adds that digit |
| Json.DigitsValueBound | app/api/schools/route.ts:55 | n decimal digits denote a value from 0 below 10 to the n |
| Json.NumberOr | app/api/schools/route.ts:57 | `Number(x) \|\| d` is the number when it is non-zero, and `d` when the key is missing, NaN or 0 |
| Schools.SchoolData | app/api/schools/route.ts:50-63 | the stored school has exactly the eleven keys; name and team are copied or ''; `teachers_room_num` comes from `teacher_room_num`; lat and lng are never 0 |
| Schools.FormLosesRoomAndLongitude | app/api/schools/route.ts:58-62 | a body without `teacher_room_num` and `lng` stores an empty room number and the default longitude, and the school has no `lon` |
| Schools.List | app/api/schools/route.ts:5-36 | the schools page in stored order (no sort), with total and `totalPages` over the collection; 500 exactly for a negative skip |
| Schools.Create | app/api/schools/route.ts:43-74 | a body without `data` is a 500; otherwise the normalised school is appended under the new id |
| Schools.Update | app/api/schools/route.ts:76-110 | a body without `data` or an unparsable id is a 500; a missing or unmatched id changes nothing and reports 0 matched; a match replaces that school's data with the normalised form, keeps its id and time, and reports 1 |
| Schools.Delete | app/api/schools/route.ts:112-126 | a missing id is a 400 and an unparsable one a 500; otherwise the school with the id, if any, is removed and the count of removed documents is answered |
| SchoolUpload.RowData | app/api/schools/upload/route.ts:51-62 | a normalised row has exactly the eight keys; the text columns are copied or ''; the three counts are `Number(x) \|\| 0`, so 0 when the column is missing, empty, 0 or not a number |
| SchoolUpload.Upsert | app/api/schools/upload/route.ts:65-87 | a row is an update exactly when a document has its (division, level, name), replacing that one document's data and time; an insert exactly when none has it and the id is free; an error changes nothing |
| SchoolUpload.UpsertFacts | app/api/schools/upload/route.ts:72-83 | after a successful row the key is present; no document is removed, moved or given another id, and ids stay unique |
| SchoolUpload.TallyOf | app/api/schools/upload/route.ts:44-46 | added + updated + errors equals the number of rows |
| SchoolUpload.ReplayShape | app/api/schools/upload/route.ts:48-88 | the collection grows by exactly the number of added rows, existing documents keep their ids and places, and ids stay unique |
| SchoolUpload.ReplayPrefix | app/api/schools/upload/route.ts:48 | the outcome of a row does not depend on the rows after it |
| SchoolUpload.OutcomeOfRow | app/api/schools/upload/route.ts:48-83 | row n's outcome is the upsert of its normalised data on the collection left by rows 0 to n-1 |
| SchoolUpload.UnmatchedUntouched | app/api/schools/upload/route.ts:66-78 | a document whose key no row has stays unchanged and in place |
| SchoolUpload.KeyPersists | app/api/schools/upload/route.ts:72-83 | once a key is present, no later row removes it |
| SchoolUpload.RowLeavesKey | app/api/schools/upload/route.ts:72-83 | after a successful row its key is present |
| SchoolUpload.PresentKeyIsUpdate | app/api/schools/upload/route.ts:66-78 | a row whose key is present is an update whenever the database does not fail |
| SchoolUpload.RepeatedKeyIsUpdate | app/api/schools/upload/route.ts:66-83 | a later row with the key of an earlier successful row is an update, never a second insert |
| SchoolUpload.Checked | app/api/schools/upload/route.ts:21-37 | no file is a 400; a name not ending in .xlsx or .xls is a 400; an unreadable workbook is a 500; an empty sheet is a 400; otherwise the sheet's rows are processed |
| SchoolUpload.Upload | app/api/schools/upload/route.ts:16-97 | the loop leaves the collection after replaying every row and answers the tally of the outcomes; a rejected file changes nothing |
| SchoolTeam.AssignTeam | app/api/schools/update/route.ts:11-29 | a missing id or team is a 400; an unparsable id a 500; an id matching no school a 404; success exactly for a matched school, whose `data.team` becomes the given team |
| SchoolTeam.AssignTeamChangesOnlyTeam | app/api/schools/update/route.ts:19-22 | a successful call changes only the matched school's `team`, and every other school and field is kept |
| SchoolTeam.CompleteCallRejected | app/setting/schools/page.tsx:221 | a call with no `team` is a 400 and changes nothing, whatever the id |
| SchoolTeam.UpdateTeam | app/api/schools/update/route.ts:5-39 | the method's new collection and answer are those of `AssignTeam`: 400, 500 and 404 without change, and otherwise success with the matched school's `data.team` set to the given team |
| Qna.NewPost | app/api/qna/route.ts:51-58 | a new post has the given title, content and writer, 0 views, no replies and the current time |
| Qna.Edited | app/api/qna/route.ts:84-88 | an edit replaces title, content and writer and keeps the views and the replies |
| Qna.Create | app/api/qna/route.ts:46-76 | the post is appended under the new id and answered, or an id collision is a 500 |
| Qna.Update | app/api/qna/route.ts:79-116 | an unparsable id is a 500; a missing or unmatched id is a 404; a match edits that post only and echoes the id and fields |
| Qna.Delete | app/api/qna/route.ts:119-154 | a missing id is a 400 and an unparsable one a 500, an unmatched id a 404; otherwise that post is removed |
| QnaViews.Viewed | app/api/qna/views/route.ts:21 | `$inc: {views: 1}` applied n times adds n to the views |
| QnaViews.IncrementOutcome | app/api/qna/views/route.ts:11-29 | 400 or 500 for a missing or bad id and 404 for an unmatched one, all without change; otherwise exactly that post's views go up by one |
| QnaViews.IncrementViews | app/api/qna/views/route.ts:6-42 | the method's new collection and answer are those of `Increment` |
| QnaViews.RepeatAddsN | app/api/qna/views/route.ts:19-22 | n view requests on a post raise its views by exactly n and change nothing else |
| QnaReplies.Pushed | app/api/qna/replies/route.ts:17-20 | `$push` appends the reply after the existing ones and keeps every other field |
| QnaReplies.AddReply | app/api/qna/replies/route.ts:6-40 | an unparsable id is a 500 and an unmatched one a 404, both without change; otherwise the reply with the current time is appended to that post and answered |
| Maintenance.Create | app/api/maintenance/route.ts:58-88 | the vendor is appended under the new id and answered, or an id collision is a 500 |
| Maintenance.Update | app/api/maintenance/route.ts:91-130 | an unparsable id is a 500; a missing or unmatched id is a 404; a match replaces the five fields, keeping its id and `createdAt` |
| Maintenance.Delete | app/api/maintenance/route.ts:133-168 | a missing id is a 400, an unparsable one a 500, an unmatched one a 404; otherwise that vendor is removed |
| Calendar.EventOf | app/api/calendar/route.ts:30-35 | an event has the given title, start and end, and its description or '' |
| Calendar.List | app/api/calendar/route.ts:6-14 | every event, in stored order |
| Calendar.Create | app/api/calendar/route.ts:25-54 | the event is appended under the new id and answered, or an id collision is a 500 |
| Calendar.Update | app/api/calendar/route.ts:57-95 | an unparsable id is a 500; a missing or unmatched id is a 404; a match replaces the four fields of that event |
| Calendar.Delete | app/api/calendar/route.ts:98-133 | a missing id is a 400, an unparsable one a 500, an unmatched one a 404; otherwise that event is removed |
| Technicians.Validated | app/api/technicians/route.ts:8-15 | a technician passes the schema exactly when all five strings are present and non-empty, and is stored with them |
| Technicians.Patched | app/api/technicians/route.ts:64-65 | each field the patch carries replaces the stored one and each other is kept; the id never changes |
| Technicians.ReplaceKeepsLoginsUnique | app/api/technicians/route.ts:12 | replacing a technician keeps the logins unique when its new login is held by no other technician |
| Technicians.List | app/api/technicians/route.ts:21-35 | no connection string is a 500; otherwise every technician, newest first |
| Technicians.Create | app/api/technicians/route.ts:38-54 | a failing schema, a login already taken or an id collision is a 500 and stores nothing; otherwise the technician is appended; logins stay unique |
| Technicians.PatchTarget | app/api/technicians/route.ts:63-64 | mongoose's filter `{_id}`: without `_id` the first technician, present exactly when there is one; with `_id` the technician holding the parsed id, present exactly when the id parses and is stored |
| Technicians.Update | app/api/technicians/route.ts:57-73 | an unparsable id is a 500; a body without `_id` patches the first technician, and answers null only for an empty collection; an unmatched id answers null; a selected technician is patched unless another technician holds the new login (500); logins stay unique |
| Technicians.Delete | app/api/technicians/route.ts:76-92 | an unparsable id is a 500; otherwise the technician with the id, if any, is removed and the call succeeds |
| Login.SignIn | app/api/auth/login/route.ts:20-54 | 400 exactly when id or password is missing; 401 when no technician has the login or its password differs; otherwise the profile id, name and team of the first technician with that login |
| Login.SignInIff | app/api/auth/login/route.ts:31-45 | with unique logins, the sign-in succeeds exactly when some technician has this login and password, and then answers that technician |
| Login.ProfileHasNoPassword | app/api/auth/login/route.ts:47-54 | in any collection, changing the password of the technician the login finds, and signing in with the new one, gives the same answer: the profile, which does not depend on the password beyond the match |
| Stats.CompletedCount | app/api/stats/route.ts:15-17 | the completed count is at most the school count; it is 0 exactly when no school is completed and all exactly when all are |
| Stats.GetStats | app/api/stats/route.ts:9-26 | the three counts: technicians, schools, and completed schools, which never exceed the schools |
| Stats.CountAfterReplace | app/api/stats/route.ts:15-17 | replacing one school changes the completed count by that school's change alone |
| Stats.EditUncompletes | app/api/schools/route.ts:84-97 | editing a completed school through the schools route lowers the completed count by one |
| ExcelImport.RowDocs | app/api/upload-excel/route.ts:25-31 | one document per row, holding the row unchanged |
| ExcelImport.SaveRowsCount | app/api/upload-excel/route.ts:25-31 | every row is either stored or counted as a failure, after the existing documents |
| ExcelImport.SaveRowsBodies | app/api/upload-excel/route.ts:27-29 | every stored document holds one of the rows |
| ExcelImport.SaveRowsUnique | app/api/upload-excel/route.ts:25-31 | storing the rows keeps the ids unique |
| ExcelImport.SaveRowsAll | app/api/upload-excel/route.ts:25-31 | without a failure, the rows are stored in order, one document each |
| ExcelImport.Import | app/api/upload-excel/route.ts:16-49 | a body that is not a list is a 500; a failing row makes the call a 500 while the saved rows stay stored; otherwise the count and the stored documents are answered |
| TechnicianPage.Slice | app/technician/page.tsx:57 | `slice(start, end)` is the window of `end - start` rows from `start` |
| TechnicianPage.CurrentData | app/technician/page.tsx:54-57 | the shown rows are the current page of 5, in order from `startIndex` |
| TechnicianPage.ClientPagesReconstruct | app/technician/page.tsx:54-57 | pages 1 to `totalPages` together show every technician once and in order |
| TechnicianPage.LabelMatchesRows | app/technician/page.tsx:271-273 | on an existing page the label's "first to last of total" names exactly the rows shown |
| TechnicianPage.Click | app/technician/page.tsx:253-305 | previous leads to `currentPage - 1` and next to `currentPage + 1` unless disabled; a numbered button leads to its page; a disabled button leaves the page; from a positive page the page stays at least 1 |
| TechnicianPage.ClicksKeepPagePositive | app/technician/page.tsx:19 | from the initial page 1, any clicks leave the page at least 1 |
| TechnicianPage.ReplayKeepsPositive | app/technician/page.tsx:253-266 | any sequence of clicks from a positive page keeps it positive |
| TechnicianPage.NextEnabledPastLastPage | app/technician/page.tsx:262 | with no technicians the next button is enabled on page 1 and leads to an empty page 2 labelled "6 to 0 of 0" |
| TechnicianPage.NextLeadsToRows | app/technician/page.tsx:262 | with the button disabled from the last page on, a next click always reaches a page with rows |
| TechnicianPage.TrimStart | app/technician/page.tsx:96 | leading white space removed: a suffix of the input that starts with no white space, and every character dropped before it is white space |
| TechnicianPage.TrimEnd | app/technician/page.tsx:96 | trailing white space removed: a prefix of the input that ends with no white space, and every character dropped after it is white space |
| TechnicianPage.Trim | app/technician/page.tsx:96 | `trim()` gives a trimmed slice of the input with only white space before and after it, and leaves a trimmed string unchanged |
| TechnicianPage.TrimSlice | app/technician/page.tsx:96 | dropping white space from the start and then from the end keeps an infix of the input with only white space before and after it |
| TechnicianPage.TrimIdempotent | app/technician/page.tsx:96 | trimming twice is trimming once |
| TechnicianPage.InputChangeSets | app/technician/page.tsx:92-97 | an input change sets the named field to the trimmed value and keeps every other field |
| TechnicianPage.EditedFormIsTrimmed | app/technician/page.tsx:92-97 | starting from a trimmed form, such as the reset one, every field stays trimmed after any sequence of input changes |
| TechnicianPage.EmptyFormTrimmed | app/technician/page.tsx:22-28 | the reset form is trimmed |
| SchoolMap.ColourTable | app/components/KakaoMap.tsx:37-44 | red exactly for 1팀, blue exactly for 2팀, green exactly for 3팀, yellow exactly for every other team |
| SchoolMap.ShownSchools | app/components/KakaoMap.tsx:31-32 | no more schools than given, and all of them for the filter "all" |
| SchoolMap.ShownIff | app/components/KakaoMap.tsx:32 | a school gets a marker exactly when it is in the list and the filter is "all" or its team |
| SchoolMap.RangeHas | app/components/KakaoMap.tsx:56-57 | the keys handed out from a to b are exactly a, …, b-1 |
| SchoolMap.MarkersForAt | app/components/KakaoMap.tsx:31-57 | the i-th marker is the i-th shown school's, with a fresh key and its team's colour |
| SchoolMap.MarkersForKeys | app/components/KakaoMap.tsx:51-57 | the new markers have exactly the fresh keys |
| SchoolMap.MarkerLayer.constructor | app/components/KakaoMap.tsx:19-20 | empty refs and nothing on the map |
| SchoolMap.MarkerLayer.DetachAll | app/components/KakaoMap.tsx:26-27 | every marker in the ref is taken off the map and the ref is emptied |
| SchoolMap.MarkerLayer.PlaceShown | app/components/KakaoMap.tsx:29-57 | the loop puts one fresh marker per shown school, in order and in its colour, on the map and in the ref, and fits the bounds to exactly those schools |
| SchoolMap.MarkerLayer.Rebuild | app/components/KakaoMap.tsx:22-86 | without a map nothing changes; otherwise the old markers leave the map and exactly the shown schools' markers replace them; the bounds are the shown schools' positions |
| SchoolMap.MarkerLayer.Click | app/components/KakaoMap.tsx:59-82 | the window in the ref is closed and one for the clicked school opened, so exactly one is open; the school is selected |
| TechMap.NeverLoads | tech/app/components/KakaoMap.tsx:174-186 | as written, no sequence of events ever loads the map or places a marker |
| TechMap.LoadsWhenSdkReady | tech/app/components/KakaoMap.tsx:32-93 | with the container present and the SDK loaded, the effect draws the shown schools' markers and registers no cleanup |
| TechMap.LoadsAfterScript | tech/app/components/KakaoMap.tsx:95-163 | with the container present, injecting the script and loading it draws the shown schools' markers and keeps the cleanup |
| TechMap.InitialLoads | tech/app/components/KakaoMap.tsx:31-172 | with the container rendered from the start, the first render loads the map with exactly the shown schools' markers, on either route |
| TechMap.CleanupOnlyForScript | tech/app/components/KakaoMap.tsx:92 | the effect registers a cleanup exactly when it injects the script |
| TechMap.MarkersAccumulate | tech/app/components/KakaoMap.tsx:44-66 | after a run without cleanup, the next run adds its markers to the old ones, and none leaves the map |
| TechMap.CleanupDetaches | tech/app/components/KakaoMap.tsx:165-171 | the cleanup takes every marker in the ref off the map and empties the ref |
| TechMap.LoadedOnlyByDrawing | tech/app/components/KakaoMap.tsx:91 | the map becomes loaded only by an effect with the SDK or a script load that draws markers, never by a click |
| TechMap.ClicksKeepWindowsOpen | tech/app/components/KakaoMap.tsx:80-86 | two clicks leave both new info windows open; the ref holds only the second |
| TechMap.MapComponent.constructor | tech/app/components/KakaoMap.tsx:21-23 | the component starts in the initial state |
| TechMap.MapComponent.DetachAll | tech/app/components/KakaoMap.tsx:167-170 | every marker in the ref is taken off the map and the ref is emptied |
| TechMap.MapComponent.PushMarkers | tech/app/components/KakaoMap.tsx:44-66 | the loop appends one fresh marker per shown school to the ref and the map |
| TechMap.MapComponent.RunEffect | tech/app/components/KakaoMap.tsx:31-172 | the method's new state is that of the effect step, after the previous cleanup |
| TechMap.MapComponent.LoadScript | tech/app/components/KakaoMap.tsx:101-163 | the method's new state is that of the script-load step |
| TechMap.MapComponent.ClickMarker | tech/app/components/KakaoMap.tsx:69-88 | the method's new state is that of the click step, and it selects the clicked marker's school |

## Left out

- The database connection (`lib/mongodb.ts`, `mongoose.connect`/`disconnect`) is not modelled. A missing connection string appears only where the technician handlers test it.
- Spreadsheet parsing (the XLSX library) is not modelled. A file is its name plus the parsed rows of the first sheet, or none when the workbook cannot be read.
- JSON bodies that are not objects, and `request.json()` failures, are not modelled. A handler that would throw on a missing sub-object is modelled as a 500.
- Login.Credentials: a login body whose `id` or `password` is present but not a string (a number, or a query-operator object that `findOne({ id })` at app/api/auth/login/route.ts:31 would pass on as a filter) is not modelled; both fields are taken as strings or missing.
- `parseInt` of `page` and `limit` is modelled as an optional integer. A non-numeric value (`NaN`) is not modelled.
- `Number(x)` is modelled for numbers and digit strings only. Signs, decimals, exponents and white space are not modelled, and such strings count as NaN.
- Coordinates are stored integers. No floating-point arithmetic happens in the model, and the defaults 37.5665 and 126.9780 are constants.
- Schools.SchoolData: a coordinate sent as a string is read by `Number(x)` in the model's own unit, so a digit string counts ten-thousandths of a degree (`"37"` is 0.0037°), where JavaScript reads it in degrees; decimal strings are not modelled at all.
- `Promise.all` in the raw import runs its rows concurrently. The model runs them in order, and it does not model the order of partial writes.
- The order among documents with equal `createdAt` is not specified by the sort. The model fixes one order and proves only non-increasing `createdAt` and permutation.
- Error message texts, `success` flags, console logging and the CORS `OPTIONS` handler are not modelled.
- Pages and forms other than the technician page's pagination and input handler are not modelled.
- The map SDK is not modelled: rendering, `setBounds`, the HTML of info windows, and the `onSchoolSelect` callback (returned as the selected school).
- The technician map's removed script is taken never to run its callback.
- TechMap.AfterEffect: whether the SDK is already loaded is an input of each event, not derived from earlier script loads.
- QnaViews.RepeatAddsN: counts requests whose id already parsed to the post's id. A request with an unparsable id is covered by `IncrementOutcome`.
- SchoolMap.MarkersFor: its own contract states only the length. The content of each marker is stated by `MarkersForAt` and `MarkersForKeys`.
- TechnicianPage.EditedFormIsTrimmed: a form opened on a stored technician (`setFormData(item)` at app/technician/page.tsx:63-66) is taken as it is stored, so a field the user does not touch is trimmed only if the stored value was.
- Missing fields of a vendor, Q&A or calendar body are not modelled: those handlers copy `data.title` and the like as they come, so a missing field is stored as null, while the model takes every such field as a string.
- SchoolUpload.Upsert: a database failure of a row is an input (`RowEnv.fault`), not derived from the data.

## Findings

| source | as written | input that shows it | evidently intended | confidence | as-written member | corrected member |
|---|---|---|---|---|---|---|
| tech/app/components/KakaoMap.tsx:174-186 | until `isLoaded` is set only the spinner is rendered, so `mapRef.current` is null. Both drawing routes return early at :33-34 and :103-104, so `isLoaded` is never set | any sequence of renders, script loads and clicks from the first render | the map container is rendered from the start, so the first effect or script load draws the markers and sets `isLoaded` | high, not executed | TechMap.NeverLoads | TechMap.InitialLoads |
| app/technician/page.tsx:262 | the next button is disabled only when `currentPage === totalPages`, and `totalPages` is 0 for an empty list (:54) | no technicians, page 1: next is enabled and shows an empty page 2 labelled "6 to 0 of 0" | next is disabled from the last page on (`currentPage >= totalPages`), so every page it reaches has rows | high, not executed | TechnicianPage.NextEnabledPastLastPage | TechnicianPage.NextLeadsToRows |
