# Campus admin dashboard: a verified model of its core

The dashboard administers colleges, programmes, users and announcements stored in
Firebase. This project models in Dafny the parts of it that carry logic:

- **Creating a user** (`UsersRoute`). The POST handler of the users route first reads
  the college, which must exist. It then reads the programme, a soft reference. It
  creates an auth identity with a derived email and password, and writes the user
  document under that identity's uid. If the write fails, it deletes the identity
  again. The document store and the auth service are maps held by the `Backend`
  class. Whether each call completes is an `Outcomes` value passed in.
- **Uploading images** (`UploadRoute`). The route keeps the files sent under
  `images`, checks each one is an image, and stores it under
  `announcements/<time>-<sanitised name>`. It then makes the object public and
  answers the public URLs in file order. The object store is the `ObjectStore` class.
  The time and the outcome of `save` and `makePublic` for each file are given by
  `FileOutcome`s.
- **Creating and listing announcements** (`AnnouncementsRoute`). The author snapshot,
  the comma-separated `roles` and `visibility` lists, the server-side creation time,
  and the listing that keeps the store's order.
- **The announcement editor** (`AnnouncementManager`). Choosing an author, selecting
  and removing images, uploading them, saving with the existing URLs followed by the
  new ones, and the `", "` join used when editing. That join is proved to round-trip
  through the server's comma parser.
- **The user form** (`UserManager`). Aggregating every college's programmes in a loop
  that tolerates failing requests, filtering them by college, choosing and uploading
  a profile image, and creating the user.
- **The programmes page** (`ProgrammesPage`). A second aggregation loop that abandons
  the whole load on a thrown request, the college filter, the create/update form and
  the college-name lookup.
- **The upload page** (`UploadPage`). One request per file and one result line per
  file. The page sends each file under the field `file`, but the route reads `images`.
  The model proves that, as a result, every result line reports a failure
  (`UploadPage.EveryResultIsFailure`).
- **The navigation highlight rule** (`Navigation`).
- **The JavaScript built-ins the code relies on** (`Prelude`): `startsWith`, `trim`,
  `split`, `join`, `filter`, `find`, removal by index, and decimal rendering.
  **The records of `lib/types.ts`** (`Types`).

A `fetch` made by a component is a `Fetched` or `Sent` outcome passed in by the
caller. A component's state is a class whose fields its handlers update. Each
handler's `ensures` ties the new state to a function of the old one, and the
properties are proved about those functions. Each loop (`LoadProgrammes` in
`UserManager` and `ProgrammesPage`, `UploadPage.RunUploads`,
`UploadRoute.ObjectStore.UploadEach`) is proved against a recursive specification
function.

## Model

| member | source | states |
|---|---|---|
| Navigation.IsActive | components/navigation.tsx:30-33 | the root item is highlighted exactly on the page "/"; any other item exactly when the page path begins with its href |
| Navigation.ActiveOnOwnPath | components/navigation.tsx:30-33 | every item is highlighted on its own page |
| Navigation.ActiveBelow | components/navigation.tsx:32 | an item other than the root is highlighted on every page whose path extends its href |
| Navigation.RootOnlyOnRoot | components/navigation.tsx:31 | the root item is never highlighted on another page, although every path starts with "/" |
| Navigation.IgnoresSegmentBoundaries | components/navigation.tsx:32 | "/users" is highlighted on "/usersettings" as well as on "/users/x" |
| Prelude.OrEmpty | app/api/users/route.ts:112 | the field when it is present and non-empty, else "" (the JavaScript "or empty string" default) |
| Prelude.StartsWith | components/navigation.tsx:32 | true exactly when the prefix is the leading part of the string |
| Prelude.Trim | app/api/users/route.ts:109 | the result is a contiguous middle of the input with only whitespace cut off either side, and has no whitespace at either end |
| Prelude.TrimIdempotent | app/api/announcements/route.ts:41 | trimming a trimmed piece changes nothing |
| Prelude.Split | app/api/announcements/route.ts:41 | one more piece than the input has separators, and no piece contains the separator |
| Prelude.JoinSplit | app/api/announcements/route.ts:41 | joining the pieces of a split with the separator gives the input back |
| Prelude.SplitJoin | components/announcement-manager.tsx:214 | splitting a join of separator-free pieces gives the pieces back |
| Prelude.TrimEach | app/api/users/route.ts:109 | one trimmed piece per input piece, in order |
| Prelude.ParseCommaList | app/api/announcements/route.ts:40-42 | an absent or empty field gives []; otherwise one item more than the field has commas, each trimmed and comma-free, empty items kept |
| Prelude.ParseJoinRoundTrip | components/announcement-manager.tsx:214-218 | re-parsing a ", "-joined list gives it back when every item is trimmed and comma-free and the list is not [""] |
| Prelude.EmptyItemDropped | components/announcement-manager.tsx:214 | the list [""] joins to "" and comes back as [] |
| Prelude.FilterKeeps | components/announcement-manager.tsx:103 | the filter keeps exactly the elements that pass; it is the identity iff all pass and empty iff none pass |
| Prelude.FilterAppend | components/announcement-manager.tsx:103 | filtering a concatenation filters each part, keeping the input order |
| Prelude.RemoveAt | components/announcement-manager.tsx:117 | an in-range index removes exactly that element, keeping the rest in order; any other index changes nothing |
| Prelude.Find | components/announcement-manager.tsx:88 | a found element is the first that matches; nothing is found iff no element matches |
| Prelude.Decimal | app/api/upload/route.ts:19-20 | the timestamp renders as a non-empty run of decimal digits that spells it, with no leading zero |
| UsersRoute.LoginEmail | app/api/users/route.ts:65 | the login email is the registration number followed by "@college.edu" |
| UsersRoute.NewIdentity | app/api/users/route.ts:64-75 | the identity asked for has the derived login email, the password "campus", the full name as display name, and is verified |
| UsersRoute.ProgrammeSnapshot | app/api/users/route.ts:94-104 | without a programme id the snapshot is the empty programme {abbrv:"", name:"", years:0}; it never carries duration or description |
| UsersRoute.UserRecord | app/api/users/route.ts:88-113 | the college snapshot takes its id from the request and abbrv/name from the stored college (default ""); roles follow the comma rule; profilePicUrl defaults to "" |
| UsersRoute.CreateUser | app/api/users/route.ts:35-142 | on success the identity and the user document both exist under the one new uid and nothing else changed; on failure the store is unchanged, or the only leftover is the identity whose compensating delete failed |
| UsersRoute.CollegeMissing | app/api/users/route.ts:40-46 | a missing college answers 400 "College not found" and creates nothing |
| UsersRoute.IdentityRefused | app/api/users/route.ts:69-86 | a refused identity answers 500 and no user document is written |
| UsersRoute.CreatedRecords | app/api/users/route.ts:65-134 | the returned id is the identity's uid; that identity has the derived email, password "campus", the full name and is verified; the user document sits under the same id |
| UsersRoute.CompletedRequestCreated | app/api/users/route.ts:35-142 | a request whose college and programme reads, identity creation and document write all complete is answered Created with the granted uid, and exactly the identity and the user document are added under it |
| UsersRoute.SoftProgramme | app/api/users/route.ts:50-62 | an empty or unresolved programme id is no error: when the other steps complete the user is created, with the empty programme |
| UsersRoute.CompensationRestores | app/api/users/route.ts:116-129 | a failed document write answers 500; a completed delete restores the store, a failed one leaves only the orphan identity |
| UsersRoute.PairingPreserved | app/api/users/route.ts:115-129 | a store where identities and user documents pair up stays paired, except for the orphan of a failed compensating delete |
| UsersRoute.UniqueEmailsPreserved | app/api/users/route.ts:69-75 | login emails stay unique, given an auth service that refuses an email it already holds |
| UsersRoute.Backend.ReadCollege | app/api/users/route.ts:40-46 | a completed read finds the stored college or reports it absent |
| UsersRoute.Backend.ReadProgramme | app/api/users/route.ts:51-62 | a completed read finds the stored programme under the college or reports it absent |
| UsersRoute.Backend.CreateIdentity | app/api/users/route.ts:69-86 | a uid is returned iff the service grants it, and then exactly that identity is added |
| UsersRoute.Backend.DeleteIdentity | app/api/users/route.ts:120-127 | a completed delete removes exactly that uid; a failed one changes nothing |
| UsersRoute.Backend.SetUser | app/api/users/route.ts:116-118 | a completed write stores the document under the uid; a failed one changes nothing |
| UsersRoute.Backend.Post | app/api/users/route.ts:35-142 | the handler's steps end in the store and response that CreateUser specifies |
| UploadRoute.FilesUnder | app/api/upload/route.ts:7 | a file is returned iff some entry under the field holds it; none when no entry has the field; every file in form order when all do |
| UploadRoute.FilesUnderAppend | app/api/upload/route.ts:7 | the files of a form are those of its first part followed by those of its rest: form order is kept |
| UploadRoute.Respond | app/api/upload/route.ts:4-67 | 400 exactly when the form holds no `images` file; else 500 exactly when some file's work fails; else the URLs UploadAll gives |
| UploadRoute.Sanitize | app/api/upload/route.ts:20-23 | same length; each character kept if it is in [a-zA-Z0-9.-], else replaced by "_" |
| UploadRoute.SanitizeIdempotent | app/api/upload/route.ts:20-23 | sanitising twice is sanitising once |
| UploadRoute.SanitizedChars | app/api/upload/route.ts:20-23 | a sanitised name holds only safe characters and "_", so no "/" |
| UploadRoute.KeyInFolder | app/api/upload/route.ts:19-23 | every key starts with "announcements/", has no further "/", and ends with the sanitised name |
| UploadRoute.StorageKey | app/api/upload/route.ts:19-23 | the key starts with the folder, is as long as folder, timestamp digits, a dash and the file name together, and has the dash right after the digits |
| UploadRoute.KeyParts | app/api/upload/route.ts:19-23 | a key is exactly "announcements/", then the digits of the timestamp, then "-", then the sanitised name |
| UploadRoute.StripScheme | app/api/upload/route.ts:38 | a leading "gs://" is removed; any other setting is left as it is |
| UploadRoute.StripOnce | app/api/upload/route.ts:38 | the scheme is removed once only |
| UploadRoute.SchemeOptional | app/api/upload/route.ts:32-38 | a bucket setting with or without "gs://" names the same bucket |
| UploadRoute.PublicUrl | app/api/upload/route.ts:53 | the URL is the storage host followed by bucket, "/", key |
| UploadRoute.UploadOne | app/api/upload/route.ts:13-55 | a file yields a URL exactly when it is an image, the bucket is configured and both storage calls complete; the URL is the public host, the bucket and the file's key |
| UploadRoute.UploadAll | app/api/upload/route.ts:13-57 | all URLs come back iff every file's work succeeds, and then one URL per file, in file order |
| UploadRoute.NoImagesRefused | app/api/upload/route.ts:9-11 | a form with no `images` entry is answered 400 "No files provided" |
| UploadRoute.UploadedInOrder | app/api/upload/route.ts:57-59 | on success the bucket is configured and there is one URL per file, in order, each the public URL of that file's key |
| UploadRoute.AnyFailureFailsAll | app/api/upload/route.ts:13-66 | a non-image file, a missing bucket setting or a failed storage call for any one file fails the whole request with 500 |
| UploadRoute.Step | app/api/upload/route.ts:40-50 | a file refused before `save` changes nothing; no location but the file's own changes; a file whose work succeeds is stored under its key with its content type and bytes, and published |
| UploadRoute.Effects | app/api/upload/route.ts:13-57 | processing the files keeps every stored key and every publication (a save to an existing key replaces its content) |
| UploadRoute.EffectsFrame | app/api/upload/route.ts:40-50 | a location no file of the run goes to keeps its stored object |
| UploadRoute.EffectsStored | app/api/upload/route.ts:13-57 | after a successful upload every file's location is stored and published, holding that file's content type and bytes unless a later file of the same run went to the same location |
| UploadRoute.ObjectStore.UploadFile | app/api/upload/route.ts:13-55 | returns exactly the file's URL or failure, and changes the store as Step says |
| UploadRoute.ObjectStore.UploadEach | app/api/upload/route.ts:13-57 | the loop over the files returns what UploadAll specifies and leaves the store as Effects says |
| UploadRoute.ObjectStore.Post | app/api/upload/route.ts:4-67 | the response and store are those of the handler's specification: 400 without files, else 500 or the ordered URLs |
| AnnouncementsRoute.BuildAnnouncement | app/api/announcements/route.ts:31-52 | the author and college fields are copied verbatim; roles and visibility follow the comma rule; createdAt is the server's time; imageUrls passes through or is [] |
| AnnouncementsRoute.Create | app/api/announcements/route.ts:54-66 | the answer is Created with the granted id exactly when `add` grants an unused id, and then exactly the built record is added under it; otherwise 500 and nothing changes |
| AnnouncementsRoute.List | app/api/announcements/route.ts:5-25 | one listed item per stored document, in the store's order, each keeping its id; a failed query answers 500 |
| AnnouncementsRoute.ListKeepsOrder | app/api/announcements/route.ts:7-15 | if the store answers newest first, so does the listing |
| AnnouncementManager.SelectAuthor | components/announcement-manager.tsx:87-99 | an unknown id leaves the form unchanged; otherwise the first user with the id supplies the author and college fields and nothing else changes |
| AnnouncementManager.SelectAuthorIdempotent | components/announcement-manager.tsx:87-99 | choosing the same author twice is choosing once |
| AnnouncementManager.AddImages | components/announcement-manager.tsx:101-114 | the old selection is kept as a prefix, at most the chosen files are added, and without the warning every chosen file is appended |
| AnnouncementManager.AddImagesSelectsImages | components/announcement-manager.tsx:101-114 | the earlier selection is kept; exactly the chosen images are appended; the warning shows iff a chosen file is not an image |
| AnnouncementManager.AllImagesAppended | components/announcement-manager.tsx:101-114 | when all chosen files are images they are all appended, in order, without a warning |
| AnnouncementManager.AddImagesInSteps | components/announcement-manager.tsx:113 | choosing files in two steps selects what choosing them at once would |
| AnnouncementManager.UploadForm | components/announcement-manager.tsx:132-135 | one form entry per selected image, in order, each under "images" |
| AnnouncementManager.UploadFormCarriesEveryImage | components/announcement-manager.tsx:132-135 | the upload route reads back every selected image, in order |
| AnnouncementManager.AfterUpload | components/announcement-manager.tsx:127-159 | nothing selected sends nothing and returns []; a failed upload returns [] and keeps the selection; a successful one returns the route's URLs and clears it |
| AnnouncementManager.AfterReset | components/announcement-manager.tsx:251-271 | every field empty, no image selected, nothing being edited; the loaded users stay |
| AnnouncementManager.SaveTarget | components/announcement-manager.tsx:170-173 | PUT to /api/announcements/<id> when editing, else POST to /api/announcements |
| AnnouncementManager.AfterSubmit | components/announcement-manager.tsx:161-205 | the body is the form with the existing URLs followed by the uploaded ones; the editor resets only on an ok answer |
| AnnouncementManager.FailedUploadStillSaves | components/announcement-manager.tsx:165-182 | a failed upload does not stop the save, which sends the existing URLs only |
| AnnouncementManager.UploadedUrlsFollowExisting | components/announcement-manager.tsx:167-168 | the sent URLs are the existing ones followed by all uploaded ones |
| AnnouncementManager.UnsavedUploadLeavesEditor | components/announcement-manager.tsx:146-147 | if the upload succeeds and the save does not, the selection is cleared and the form lacks the uploaded URLs |
| AnnouncementManager.EditForm | components/announcement-manager.tsx:207-220 | roles and visibility are joined with ", "; title, body, department, the author, college and image fields are copied, with [] for no images |
| AnnouncementManager.AfterEdit | components/announcement-manager.tsx:207-223 | the form holds the announcement and its id is being edited; the selection stays |
| AnnouncementManager.AsRequest | components/announcement-manager.tsx:178-181 | the sent form gives the route every field unchanged (title, body, department, author and college fields), lists as text |
| AnnouncementManager.EditRoundTrip | components/announcement-manager.tsx:207-221 | editing and saving unchanged, read back through the POST route's comma parse (the one the PUT route shares), rebuilds the same announcement up to its creation time, when the lists are join-safe |
| AnnouncementManager.AnnouncementEditor.constructor | components/announcement-manager.tsx:40-52 | the editor starts with the empty form, no selection and nothing being edited |
| AnnouncementManager.AnnouncementEditor.HandleAuthorSelect | components/announcement-manager.tsx:87-99 | the form becomes SelectAuthor of the old form |
| AnnouncementManager.AnnouncementEditor.HandleImageSelect | components/announcement-manager.tsx:101-114 | the selection and warning become those of AddImages |
| AnnouncementManager.AnnouncementEditor.RemoveImage | components/announcement-manager.tsx:116-118 | exactly the image at the index leaves the selection |
| AnnouncementManager.AnnouncementEditor.RemoveUploadedImage | components/announcement-manager.tsx:120-125 | exactly the URL at the index leaves the form's image URLs; nothing else changes |
| AnnouncementManager.AnnouncementEditor.UploadImages | components/announcement-manager.tsx:127-159 | state, returned URLs and request as AfterUpload specifies |
| AnnouncementManager.AnnouncementEditor.ResetForm | components/announcement-manager.tsx:251-271 | the state becomes AfterReset of the old one |
| AnnouncementManager.AnnouncementEditor.HandleSubmit | components/announcement-manager.tsx:161-205 | the state and the request sent are those of AfterSubmit |
| AnnouncementManager.AnnouncementEditor.HandleEdit | components/announcement-manager.tsx:207-223 | the state becomes AfterEdit of the old one |
| UserManager.CollectTolerant | components/user-manager.tsx:120-144 | when no reply is ok the aggregate is empty |
| UserManager.CollectTolerantAppend | components/user-manager.tsx:120-144 | aggregating two runs of colleges concatenates their aggregates, keeping college order |
| UserManager.CollectTolerantMembers | components/user-manager.tsx:120-144 | a programme is in the aggregate iff some ok reply holds it; failing colleges add nothing |
| UserManager.CollegeProgrammes | components/user-manager.tsx:410-419 | the result holds only loaded programmes of that college and every loaded programme of it |
| UserManager.CollegeProgrammesOfAggregate | components/user-manager.tsx:410-419 | filtering the aggregate by a college gives exactly that college's reply, in order, when each reply holds its own college's rows and college ids are distinct |
| UserManager.EmailPreview | components/user-manager.tsx:642-644 | with no registration number the preview is "RegNo@college.edu" |
| UserManager.EmailPreviewMatchesServer | components/user-manager.tsx:642-644 | with a registration number the preview is the email the users route derives |
| UserManager.SelectCollege | components/user-manager.tsx:483-489 | the college is set, the programme choice is cleared, and nothing else changes |
| UserManager.SelectProfileImage | components/user-manager.tsx:173-184 | a chosen image replaces the selection; otherwise the selection stays and the warning shows |
| UserManager.AfterProfileUpload | components/user-manager.tsx:194-224 | no image sends nothing and returns ""; a failure returns "" and keeps the image; success returns the first URL, or "" if there is none, and clears it |
| UserManager.AfterUserSubmit | components/user-manager.tsx:358-408 | the sent form is the form with the uploaded URL if non-empty, else its own; an ok answer clears the form and the image |
| UserManager.FailedProfileUploadStillCreates | components/user-manager.tsx:364-373 | a failed image upload does not block creation; the form is sent as it stands |
| UserManager.CreatedClearsForm | components/user-manager.tsx:375-391 | after a successful create every field is "" and no image is chosen; loaded colleges and programmes stay |
| UserManager.AsUserRequest | components/user-manager.tsx:369-372 | the sent form gives the users route every field unchanged, full name and dates included |
| UserManager.UploadedUrlStored | components/user-manager.tsx:364-372 | an uploaded profile URL is the one the stored user record keeps |
| UserManager.LoadProgrammes | components/user-manager.tsx:115-156 | one request per college in order, and the aggregate CollectTolerant specifies |
| UserManager.UserForm.constructor | components/user-manager.tsx:79-88 | the form starts with every field "", no programmes and no image |
| UserManager.UserForm.FetchAllProgrammes | components/user-manager.tsx:115-156 | the loaded programmes become the tolerant aggregate, one request per college |
| UserManager.UserForm.GetCollegeProgrammes | components/user-manager.tsx:410-419 | the loaded programmes of that college, as CollegeProgrammes specifies |
| UserManager.UserForm.SelectCollegeValue | components/user-manager.tsx:483-489 | the form becomes SelectCollege of the old form |
| UserManager.UserForm.HandleProfileImageSelect | components/user-manager.tsx:173-184 | the selection and warning become those of SelectProfileImage |
| UserManager.UserForm.RemoveProfileImage | components/user-manager.tsx:186-192 | no image is chosen and the form's profile URL is ""; nothing else changes |
| UserManager.UserForm.UploadProfileImage | components/user-manager.tsx:194-224 | state, returned URL and request as AfterProfileUpload specifies |
| UserManager.UserForm.HandleUserSubmit | components/user-manager.tsx:358-408 | the state and the sent form are those of AfterUserSubmit |
| ProgrammesPage.CollectStrict | app/programmes/page.tsx:68-93 | the load is abandoned iff some request throws |
| ProgrammesPage.StrictMatchesTolerant | app/programmes/page.tsx:74-80 | where no request throws, this page and the user form aggregate the same list |
| ProgrammesPage.ThrowDiscardsEarlierRows | app/programmes/page.tsx:74-89 | a throw discards the rows already collected, which the user form would keep |
| ProgrammesPage.AfterCollegeFetch | app/programmes/page.tsx:95-113 | an ok reply replaces the shown list; anything else keeps it |
| ProgrammesPage.FilterLoad | app/programmes/page.tsx:233-240 | "all" loads the aggregate; any other value loads that college |
| ProgrammesPage.RefreshAfterSaveAsWritten | app/programmes/page.tsx:155-159 | the refresh the page starts after a save: everything for no filter, otherwise the filter value reloaded as a college id, "all" included |
| ProgrammesPage.AllFilterRefreshAsWritten | app/programmes/page.tsx:155-159 | as written, a save under "all" reloads a college with id "all" rather than the aggregate, and a refused reload leaves the old list |
| ProgrammesPage.RefreshAfterSave | app/programmes/page.tsx:155-159 | after a save the page reloads what the current filter shows: the aggregate for no filter and for "all", else that college |
| ProgrammesPage.RefreshAfterSaveDiffersOnlyOnAll | app/programmes/page.tsx:155-159 | the corrected refresh differs from the written one exactly under the "all" filter |
| ProgrammesPage.SaveTarget | app/programmes/page.tsx:129-132 | PUT to .../programmes/<id> when editing, else POST to .../programmes, under the form's college |
| ProgrammesPage.SaveBody | app/programmes/page.tsx:139-144 | the body is exactly name, abbrv, description and duration from the form, in that order; never years or collegeId |
| ProgrammesPage.AfterSubmit | app/programmes/page.tsx:115-181 | no college sends nothing and changes nothing; otherwise the form is sent, and an ok answer clears the form, ends editing and starts the refresh as written (any non-empty filter reloaded as a college) |
| ProgrammesPage.SaveUnderAllFilter | app/programmes/page.tsx:155-159 | a save under the "all" filter reloads college "all", not what the filter shows, which the corrected refresh would load |
| ProgrammesPage.EditForm | app/programmes/page.tsx:183-195 | the programme's fields are copied, missing description or duration becoming "" |
| ProgrammesPage.EditThenSave | app/programmes/page.tsx:183-195 | editing a programme and saving it unchanged sends PUT to that programme under its college, with its own fields |
| ProgrammesPage.CollegeName | app/programmes/page.tsx:242-245 | the first matching college's name, or "Unknown College" when none matches |
| ProgrammesPage.LoadProgrammes | app/programmes/page.tsx:68-93 | requests go out in college order up to the first throw, and the result is CollectStrict's |
| ProgrammesPage.ProgrammesView.constructor | app/programmes/page.tsx:38-44 | the page starts with no programmes, no filter, nothing being edited and the empty form |
| ProgrammesPage.ProgrammesView.FetchAllProgrammes | app/programmes/page.tsx:68-93 | a completed load replaces the list; a throw keeps the old list |
| ProgrammesPage.ProgrammesView.FetchProgrammesForCollege | app/programmes/page.tsx:95-113 | the state becomes AfterCollegeFetch of the old one |
| ProgrammesPage.ProgrammesView.HandleSubmit | app/programmes/page.tsx:115-181 | the state, the request and the refresh are those of AfterSubmit |
| ProgrammesPage.ProgrammesView.HandleEdit | app/programmes/page.tsx:183-195 | the programme is being edited and the form is EditForm of it |
| ProgrammesPage.ProgrammesView.HandleCollegeFilter | app/programmes/page.tsx:233-240 | the filter is set and the load is FilterLoad's |
| ProgrammesPage.ProgrammesView.GetCollegeName | app/programmes/page.tsx:242-245 | the name CollegeName specifies |
| UploadPage.ResultLine | app/upload/page.tsx:56-63 | not ok gives "Failed to upload <name>"; ok gives url, else downloadURL, else "<name> uploaded successfully" |
| UploadPage.Results | app/upload/page.tsx:47-64 | a completed run has one line per file; a throw on the last file abandons the run |
| UploadPage.ResultsAbandoned | app/upload/page.tsx:46-79 | a run yields no results iff some request throws |
| UploadPage.ResultsLines | app/upload/page.tsx:47-64 | a completed run has one line per file, in file order, each that file's result line |
| UploadPage.AsReply | app/upload/page.tsx:56-59 | a rejection is not ok; an upload is ok but its body has neither url nor downloadURL |
| UploadPage.PageForm | app/upload/page.tsx:48-49 | the page's form holds no `images` entry and carries the file under "file" |
| UploadPage.PageFormRefused | app/upload/page.tsx:48-49 | the route finds no `images` file in the page's form and answers 400, whatever the bucket setting |
| UploadPage.RouteReplies | app/upload/page.tsx:47-54 | against the upload route, every file's request answers not ok |
| UploadPage.EveryResultIsFailure | app/upload/page.tsx:47-66 | every line of a run against the route reports a failure, one per file in selection order |
| UploadPage.AfterUpload | app/upload/page.tsx:33-83 | no files changes nothing; a throw changes nothing; a completed run shows one line per file and clears the selection |
| UploadPage.Requests | app/upload/page.tsx:47-54 | one form per file, in order, up to and including the first request that throws |
| UploadPage.RunUploads | app/upload/page.tsx:44-64 | the loop's lines and sent forms are those Results and Requests specify |
| UploadPage.UploadForm.constructor | app/upload/page.tsx:18-20 | the page starts with no files and no results |
| UploadPage.UploadForm.HandleFileSelect | app/upload/page.tsx:24-27 | every chosen file is appended, whatever its type |
| UploadPage.UploadForm.RemoveFile | app/upload/page.tsx:29-31 | exactly the file at the index leaves the selection |
| UploadPage.UploadForm.HandleUpload | app/upload/page.tsx:33-83 | the state becomes AfterUpload's; nothing is sent without files, else the forms of Requests |

## Left out

- Firebase itself is not part of this model. The document store, the auth service and
  the object store are maps in classes. Whether each call completes is a parameter.
- `UsersRoute.UniqueEmailsPreserved` assumes the auth service refuses an email it
  already holds. The route does not check this itself.
- The GET handler of the users route (app/api/users/route.ts:5-33) only copies stored
  fields and converts dates. It is not modelled.
- Dates are opaque. `new Date(...)` on form text (app/api/users/route.ts:105, 111)
  becomes `DateText`, and `createdAt` is a millisecond count. Parsing and
  `toDate()` are not modelled.
- The `orderBy("createdAt", "desc")` of the announcement listing is delegated to the
  store. `AnnouncementsRoute.ListKeepsOrder` takes that order as an assumption.
- The upload route's per-file work runs concurrently under `Promise.all`. The model
  runs it one file after another and stops at the first failing file. So
  `UploadRoute.Effects` tells what is stored after a failure only for that order; the
  real route may already have stored later files. No claim is made about fail-fast
  validation or "no partial uploads".
- Two files with the same sanitised name in the same millisecond get the same storage
  key. The model states no uniqueness of keys.
- `formatFileSize` on the upload page uses floating point and is not modelled.
- Strings are sequences of characters. JavaScript's UTF-16 code units and the
  regular-expression engine are not modelled beyond the character classes used.
- JSON encoding and decoding is not modelled. A request body is a datatype with
  optional fields. A reply whose JSON cannot be read counts as a thrown request.
- UI machinery is not modelled: JSX, toasts, `confirm` dialogs, loading flags,
  `showForm`, console logging and file-input refs.
- The programmes page's reload after a save is returned as a `Refresh` value, not run.
  The reloads after saving an announcement (`fetchAnnouncements`,
  components/announcement-manager.tsx:192) or a user (`fetchUsers`,
  components/user-manager.tsx:392) are not modelled: `AnnouncementManager.AfterSubmit`
  and `UserManager.AfterUserSubmit` return no refresh.
- The announcement PUT/DELETE route, the college routes and the programme
  create/update/delete routes are outside this model. So are cascading deletes and
  the deletion of users. Only the programme listing route's answer for an unknown
  college (a 404) is used, to explain the finding below.
- `handleDelete` on the programmes page (app/programmes/page.tsx:197-231) is not
  modelled. It repeats the save's refresh, with the same behaviour under "all".
- Loading the colleges, users and announcements lists (`fetchColleges`, `fetchUsers`,
  `fetchAnnouncements`) is not modelled. The loaded lists are constructor parameters.
- The presentation-only pages (the debug, colleges, home, announcements and users
  pages) and the colleges list route are not modelled.

## Findings

| source | as written | input that shows it | evidently intended | confidence | as-written member | corrected member |
|---|---|---|---|---|---|---|
| app/programmes/page.tsx:155-159 | after a successful save, any non-empty filter value is reloaded as a college id | the filter is "All Colleges" (value "all", app/programmes/page.tsx:279). The page requests /api/colleges/all/programmes, which answers 404 when no college has id "all" (app/api/colleges/[id]/programmes/route.ts:13-18). The list stays as it was before the save | reload what the filter shows, as `handleCollegeFilter` does (app/programmes/page.tsx:233-240): the aggregate for "all" | medium, not executed | ProgrammesPage.AllFilterRefreshAsWritten | ProgrammesPage.RefreshAfterSave |

The model's `ProgrammesPage.AfterSubmit` and `ProgrammesView.HandleSubmit` follow the
code as written (`RefreshAfterSaveAsWritten`); `RefreshAfterSave` is the intended refresh,
and `SaveUnderAllFilter` shows the two apart on a save under the "all" filter.
