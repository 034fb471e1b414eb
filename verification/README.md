# Safety management system: attachment policy, investigation stages, list and upload handlers, route guard and form logic

This project is a Dafny model of the decision logic of an aviation safety
management web application. The application records occurrences (safety
events), runs investigations on them through six stages, and attaches
files to occurrences. The model covers the parts of it that decide
something:

- **Attachment policy** (`FileUtils`): the seventeen allowed MIME types and the
  10 MiB limit, the size formatter's choice of unit, the file-extension
  extractor, and the first-match icon classifier.
- **Investigation stage model** (`InvestigationProgress`): the six stages in
  order, the lookup of a stage identifier's position, the progress-bar
  width, and the active/current/past flags of the stage indicators.
- **List handlers** (`InvestigationsRoute`, `OccurrencesRoute`): the
  `GET /api/investigations` and `GET /api/occurrences` handlers as pure
  functions over a table of rows. The hosted database becomes an in-memory
  store (`Store`): a query is a filter, a descending sort and an inclusive
  `range` slice, and a count is the size of a filter.
- **Upload handler** (`UploadRoute`): `POST /api/attachments/upload` as a
  transition over the set of stored object paths and the attachments
  table. It covers the order of validation, the construction of the
  storage path, and the removal of the stored object when the metadata
  insert fails.
- **Route guard** (`Middleware`): the redirect decision, from whether a
  session exists and the request path.
- **Validity assessment panel** (`OccurrenceValidity`): the form's load,
  edit, submit and end-of-save transitions. It also covers the Save
  button's enabling rule and the `assessment_date` carried in the PATCH
  body.
- **Display formatting** (`OccurrenceDetails`, `TopNav`): badge classes,
  status labels, first-character capitalisation, display fallbacks, and
  the display name the top bar derives from the user's email.

`Text`, `Options` and `Request` hold shared definitions: string helpers,
`Option`, instants and query parameters.

The handlers take everything outside them as parameters:

- whether a user is signed in;
- which occurrences the caller can see;
- the clock;
- whether each store call fails, and with what message.

Several quirks of the code are proved as they are written:

- the `.pptx` MIME type is classified as a document;
- a file name without a dot is stored under a doubled name (`README`
  becomes `<ts>-README.README`);
- the investigations total ignores the date filters and, without a stage,
  compares `id` with the literal `'id'`;
- an unknown stage identifier has index -1.

On an unknown stage, `findIndex` gives -1 and the model follows the code:
`FindStageIndex` returns -1, the progress width formula then gives -20%,
and the "Current Stage" label is modelled as `None` rather than reading
position -1.

## Model

| member | source | states |
|---|---|---|
| FileUtils.AllowedFileTypesExact | src/lib/utils/fileUtils.ts:4-43 | A MIME type is allowed exactly when it is one of the seventeen listed types. |
| FileUtils.ExecutableRejected | src/lib/utils/fileUtils.ts:41-43 | A type outside the list, such as `application/x-msdownload`, is refused. |
| FileUtils.FileSizeBoundary | src/lib/utils/fileUtils.ts:50-52 | Size check: see note 1 below the table. |
| FileUtils.FormatFileSize | src/lib/utils/fileUtils.ts:59-67 | Unit choice and amount: see note 2 below the table. |
| FileUtils.FloorLog1024 | src/lib/utils/fileUtils.ts:64 | The unit index is the integer floor of the base-1024 logarithm: 1024^i <= bytes < 1024^(i+1). |
| FileUtils.UnitIndexUnique | src/lib/utils/fileUtils.ts:62-66 | Any `i` with 1024^i <= bytes < 1024^(i+1) fixes the label as bytes / 1024^i in unit `sizes[i]`. |
| FileUtils.UnitTableBounds | src/lib/utils/fileUtils.ts:63-66 | Below 1024^5 bytes the unit is one of Bytes, KB, MB, GB, TB. From 1024^5 up, the index runs past the table and the unit is `undefined`. |
| FileUtils.FormatFileSizeExamples | src/lib/utils/fileUtils.ts:59-67 | 1536 bytes is 1.5 KB, and 10 MiB is 10 MB. |
| FileUtils.FileExtension | src/lib/utils/fileUtils.ts:74-76 | Extension extraction: see note 3 below the table. |
| FileUtils.FileExtensionOfPdfScan | src/lib/utils/fileUtils.ts:74-76 | `scan.PDF` has extension `pdf`. |
| FileUtils.FileExtensionWithoutDot | src/lib/utils/fileUtils.ts:74-76 | `README` has extension `readme`, the whole name lower-cased. |
| FileUtils.FileExtensionTrailingDot | src/lib/utils/fileUtils.ts:74-76 | `archive.` has the empty extension. |
| FileUtils.FileIconType | src/lib/utils/fileUtils.ts:83-100 | Icon classification: see note 4 below the table. |
| FileUtils.ClassifiedAsPdf | src/lib/utils/fileUtils.ts:86-87 | `application/pdf` gets the pdf icon. |
| FileUtils.ClassifiedAsSpreadsheet | src/lib/utils/fileUtils.ts:88-89 | A non-image application type other than PDF that mentions "spreadsheet" or "excel" gets the spreadsheet icon. |
| FileUtils.ClassifiedAsDocument | src/lib/utils/fileUtils.ts:90-91 | Such a type that fails the spreadsheet test and mentions "document" or "word" gets the document icon. |
| FileUtils.ClassifiedAsPresentation | src/lib/utils/fileUtils.ts:92-93 | Such a type that fails the two earlier tests and mentions "presentation" or "powerpoint" gets the presentation icon. |
| FileUtils.ClassifiedAsArchive | src/lib/utils/fileUtils.ts:94-95 | Such a type that fails the three earlier tests and mentions "zip" or "compressed" gets the archive icon. |
| FileUtils.ClassifiedAsText | src/lib/utils/fileUtils.ts:96-97 | A `text/` type that mentions none of the earlier keywords gets the text icon. |
| FileUtils.PptxIsDocument | src/lib/utils/fileUtils.ts:88-93 | The `.pptx` type mentions "presentation". It still gets the document icon, because its "officedocument" passes the earlier document test. |
| FileUtils.XlsxIsSpreadsheet | src/lib/utils/fileUtils.ts:88-91 | The `.xlsx` type also mentions "document". It gets the spreadsheet icon, because that test runs first. |
| FileUtils.DocxIsDocument | src/lib/utils/fileUtils.ts:90-91 | The `.docx` type gets the document icon. |
| FileUtils.MsWordIsDocument | src/lib/utils/fileUtils.ts:90-91 | `application/msword` gets the document icon. |
| FileUtils.MsExcelIsSpreadsheet | src/lib/utils/fileUtils.ts:88-89 | `application/vnd.ms-excel` gets the spreadsheet icon. |
| FileUtils.MsPowerpointIsPresentation | src/lib/utils/fileUtils.ts:92-93 | `application/vnd.ms-powerpoint` gets the presentation icon. |
| FileUtils.MsPowerpointNotWord | src/lib/utils/fileUtils.ts:90 | `application/vnd.ms-powerpoint` does not contain "word", so the document test lets it through. |
| FileUtils.TextTypesAreText | src/lib/utils/fileUtils.ts:96-97 | `text/plain`, `text/csv` and `text/html` get the text icon. |
| FileUtils.TextPlainIsText | src/lib/utils/fileUtils.ts:96-97 | `text/plain` gets the text icon. |
| FileUtils.TextCsvIsText | src/lib/utils/fileUtils.ts:96-97 | `text/csv` gets the text icon. |
| FileUtils.TextHtmlIsText | src/lib/utils/fileUtils.ts:96-97 | `text/html` gets the text icon. |
| FileUtils.ZipIsArchive | src/lib/utils/fileUtils.ts:94-95 | `application/zip` gets the archive icon. |
| FileUtils.RarIsArchive | src/lib/utils/fileUtils.ts:94-95 | `application/x-rar-compressed` gets the archive icon. |
| FileUtils.RarNotExcel | src/lib/utils/fileUtils.ts:88 | The RAR type does not contain "excel", although it contains an `x`. |
| FileUtils.RarNotPresentation | src/lib/utils/fileUtils.ts:92 | The RAR type does not contain "presentation". |
| FileUtils.ImageTypeIcon | src/lib/utils/fileUtils.ts:6-10 | The five listed image types get the image icon. |
| FileUtils.OfficeTypeIcon | src/lib/utils/fileUtils.ts:13-19 | The seven listed PDF and Office types get, in order: pdf, document, document, spreadsheet, spreadsheet, presentation, document. |
| FileUtils.OtherTypeIcon | src/lib/utils/fileUtils.ts:22-28 | The three listed text types get the text icon, and the two archive types the archive icon. |
| FileUtils.AllowedTypeIcon | src/lib/utils/fileUtils.ts:83-100 | Each of the seventeen allowed types, at its place in the list, gets the icon the classifier's order dictates. |
| FileUtils.AllowedTypesHaveSpecificIcons | src/lib/utils/fileUtils.ts:83-100 | No allowed type falls through to the generic file icon. |
| InvestigationProgress.FindStageIndex | src/components/occurrences/InvestigationProgress.tsx:141-143 | Stage lookup: see note 5 below the table. |
| InvestigationProgress.StageIndexBijective | src/components/occurrences/InvestigationProgress.tsx:141-143 | A stage's identifier is found at the stage's position. Positions are a bijection between the six stages and 0..5. |
| InvestigationProgress.StageIdsInOrder | src/components/occurrences/InvestigationProgress.tsx:6-12 | The identifiers run `not_started`, `data_collection`, `analysis`, `recommendations`, `review`, `completed`, in the stage order. |
| InvestigationProgress.StageIdInjective | src/components/occurrences/InvestigationProgress.tsx:18-139 | Distinct stages have distinct identifiers. |
| InvestigationProgress.UnknownStageIndexesMinusOne | src/components/occurrences/InvestigationProgress.tsx:141-143 | An identifier that names no stage gets index -1. |
| InvestigationProgress.CurrentStageLabel | src/components/occurrences/InvestigationProgress.tsx:260 | The "Current Stage" label exists exactly when the identifier is one of the six. Otherwise the code would read position -1. |
| InvestigationProgress.TrackerForKnownStage | src/components/occurrences/InvestigationProgress.tsx:197-260 | For a known stage, the label shown is the one paired with it in the table. Its indicator is the current one and carries that label. |
| InvestigationProgress.ProgressWidthLinear | src/components/occurrences/InvestigationProgress.tsx:151-155 | Progress width: see note 6 below the table. |
| InvestigationProgress.ProgressWidthMonotone | src/components/occurrences/InvestigationProgress.tsx:151-155 | The width never decreases as the index grows. |
| InvestigationProgress.Indicators | src/components/occurrences/InvestigationProgress.tsx:197 | There is one indicator per stage, in stage order. |
| InvestigationProgress.IndicatorFlags | src/components/occurrences/InvestigationProgress.tsx:197-200 | For index -1..5, the number of active indicators is index + 1. Exactly one indicator is current for a known stage, and none for -1. |
| InvestigationProgress.IndicatorIcons | src/components/occurrences/InvestigationProgress.tsx:197-233 | A past indicator is active. It shows the check mark exactly when it is past; otherwise it shows its stage's own icon. |
| InvestigationProgress.CurrentIndicatorUnique | src/components/occurrences/InvestigationProgress.tsx:199 | Only the indicator at the current index is current. |
| InvestigationsRoute.ListInvestigations | src/app/api/investigations/route.ts:9-131 | The whole investigations listing: see note 7 below the table. |
| InvestigationsRoute.ListedRows | src/app/api/investigations/route.ts:73-75 | The page query returns at most `limit` rows, newest update first. They are exactly the filtered rows in update order from place `offset` on, as many as exist up to `limit`, so a last page may be short. Each row passes the filters and comes from the table. |
| InvestigationsRoute.StatsOf | src/app/api/investigations/route.ts:99-110 | The statistics total is the number of rows scanned. Each of the six stage counts is how often that stage identifier occurs in the scanned `stage` column. `this_week` and `this_month` are 0. |
| InvestigationsRoute.CountIsStageMultiplicity | src/app/api/investigations/route.ts:101-106 | Counting the rows at a stage with `filter(...).length` gives how often that stage occurs in the `stage` column. |
| InvestigationsRoute.UnauthorizedBeforeAnyQuery | src/app/api/investigations/route.ts:14-23 | Without a user the answer is 401, whatever the query, the table and the store's behaviour. |
| InvestigationsRoute.DefaultPage | src/app/api/investigations/route.ts:27-28 | With neither `limit` nor `offset` given, the response reports limit 10 and offset 0. It lists the first ten rows of the filtered table in update order, or all of them when fewer pass the filters. |
| InvestigationsRoute.PaginationTotal | src/app/api/investigations/route.ts:66-70 | The total is the count under the count filter, or 0 when the count query fails. |
| InvestigationsRoute.TotalIgnoresDates | src/app/api/investigations/route.ts:66-70 | Changing `startDate` or `endDate` never changes the total. |
| InvestigationsRoute.TotalCountsRowsOutsideDateRange | src/app/api/investigations/route.ts:55-70 | A row created before `startDate` is counted in the total but not listed. |
| InvestigationsRoute.TotalWithoutStage | src/app/api/investigations/route.ts:70 | Without a stage, the count filter compares `id` with the literal `'id'`. So the total is 0 when no identifier is "id". |
| InvestigationsRoute.TotalWithStage | src/app/api/investigations/route.ts:70 | With a stage, the total is the number of rows at that stage. |
| InvestigationsRoute.PageErrorIsServerError | src/app/api/investigations/route.ts:77-83 | An error from the page query gives a 500 carrying the store's message. |
| InvestigationsRoute.StatsFailureGivesZeros | src/app/api/investigations/route.ts:93-120 | When the statistics scan fails, the response still succeeds, with every statistic 0. |
| InvestigationsRoute.StatsCountLiveRows | src/app/api/investigations/route.ts:88-106 | The statistics count the rows whose `deleted_at` is null: in total, and for each of the six stages the live rows at that stage. |
| InvestigationsRoute.StageCountsSumToTotal | src/app/api/investigations/route.ts:99-106 | When every row is at one of the six stages, the six per-stage counts add up to the total. |
| InvestigationsRoute.ListedStageCountsSum | src/app/api/investigations/route.ts:88-106 | Same, for the statistics of a successful listing. |
| InvestigationsRoute.EndDateCoversWholeDay | src/app/api/investigations/route.ts:59-64 | The end date is inclusive: any row created before the start of the following day passes. |
| OccurrencesRoute.ListOccurrences | src/app/api/occurrences/route.ts:8-91 | The whole occurrences listing: see note 8 below the table. |
| OccurrencesRoute.FallbackStats | src/app/api/occurrences/route.ts:83-90 | The fallback statistics have the count as total and every other field 0. |
| OccurrencesRoute.UnauthorizedBeforeAnyQuery | src/app/api/occurrences/route.ts:20-23 | Without a session the answer is 401, whatever the query, the table and the store's behaviour. |
| OccurrencesRoute.DefaultPage | src/app/api/occurrences/route.ts:14-15 | The defaults are limit 50 and offset 0. The rows are the first fifty of the filtered table, newest first, or all of them when fewer pass the filters. |
| OccurrencesRoute.TotalMatchesListing | src/app/api/occurrences/route.ts:27-59 | The count query and the page query share the filters. So the listed rows are a sub-multiset of the counted ones, and never more numerous than the total. |
| OccurrencesRoute.FullPage | src/app/api/occurrences/route.ts:58-59 | A window that lies inside the filtered set returns exactly `limit` rows. |
| OccurrencesRoute.DateRangeInclusive | src/app/api/occurrences/route.ts:32-33 | The date filter keeps exactly the occurrence dates between `startDate` and `endDate`, both included. |
| OccurrencesRoute.BoundaryDatesIncluded | src/app/api/occurrences/route.ts:54-55 | Rows dated exactly on the start and on the end date are both counted. |
| OccurrencesRoute.CountErrorFirst | src/app/api/occurrences/route.ts:38-40 | A count error gives a 500 with its message, before the page query is considered. |
| OccurrencesRoute.PageErrorIsServerError | src/app/api/occurrences/route.ts:64-66 | A page-query error gives a 500 with its message. |
| OccurrencesRoute.FallbackWhenStatisticsFail | src/app/api/occurrences/route.ts:69-90 | Without statistics from the procedure, the response carries the fallback, whose total equals the pagination total. |
| UploadRoute.Validate | src/app/api/attachments/upload/route.ts:17-51 | Validation order: see note 9 below the table. |
| UploadRoute.ErrorBodyOf | src/app/api/attachments/upload/route.ts:17-133 | Every answer but success has a non-empty error message. The disallowed-type answer is exactly "File type not allowed" with the allow-list, and the oversize answer is exactly the size message with the 10 MiB limit. Only those two carry a list or a limit. |
| UploadRoute.ErrorMessages | src/app/api/attachments/upload/route.ts:17-133 | The message of each of the other six error answers, with neither list nor limit. |
| UploadRoute.ErrorMessageIdentifiesAnswer | src/app/api/attachments/upload/route.ts:17-133 | Reading the answer back from the message of its error body gives the answer: the message alone tells all eight error answers apart, the two 500s included. |
| UploadRoute.SameMessageSameAnswer | src/app/api/attachments/upload/route.ts:17-133 | Two error answers with the same message are the same answer. |
| UploadRoute.Upload | src/app/api/attachments/upload/route.ts:11-138 | The whole upload: see note 10 below the table. |
| UploadRoute.ClientErrorsChangeNothing | src/app/api/attachments/upload/route.ts:17-79 | Every 4xx answer leaves the storage and the attachments table unchanged. |
| UploadRoute.ValidationBeforeAuthentication | src/app/api/attachments/upload/route.ts:17-63 | An invalid upload from an anonymous caller gets 400, not 401. |
| UploadRoute.ValidationOrder | src/app/api/attachments/upload/route.ts:17-51 | A missing file is reported first, and an empty occurrence id counts as missing. A wrong type is reported even when the file is also too large. |
| UploadRoute.HiddenOccurrenceNotFound | src/app/api/attachments/upload/route.ts:67-79 | An occurrence the caller cannot see gives 404 and no change. |
| UploadRoute.OccupiedPathRefused | src/app/api/attachments/upload/route.ts:88-101 | The upload does not overwrite. When the storage already holds the path the upload would use, the answer is 500 and nothing changes. |
| UploadRoute.MetadataFailureRollsBack | src/app/api/attachments/upload/route.ts:121-133 | When the metadata insert fails and the removal succeeds, the answer is 500 and the storage and the table end as they began. |
| UploadRoute.SuccessRecordsUpload | src/app/api/attachments/upload/route.ts:107-138 | A successful upload is recorded once: see note 11 below the table. |
| UploadRoute.StripExtension | src/app/api/attachments/upload/route.ts:84 | Removing the final `.ext` leaves a stem that, with a dot and the last dot-segment, rebuilds the name. A name without such an extension is unchanged. |
| UploadRoute.HasExtensionMatchesPattern | src/app/api/attachments/upload/route.ts:84 | When the name has an extension, the pattern `\.[^/.]+$` matches at the final dot. |
| UploadRoute.PatternMatchHasExtension | src/app/api/attachments/upload/route.ts:84 | Wherever the pattern matches, the match starts at the final dot and removes exactly the extension. |
| UploadRoute.StoredNameKeepsName | src/app/api/attachments/upload/route.ts:83-84 | A name with an extension is stored as the timestamp, a dash, and the whole name. |
| UploadRoute.DotlessNameDoubled | src/app/api/attachments/upload/route.ts:83-84 | A name without a dot is stored doubled: the timestamp, a dash, the name, a dot, the name. |
| UploadRoute.ReadmeExample | src/app/api/attachments/upload/route.ts:83-84 | `README` is stored as `<ts>-README.README`. |
| UploadRoute.StoragePathShape | src/app/api/attachments/upload/route.ts:82-85 | The storage path begins with the occurrence id, a slash, the decimal timestamp and a dash. |
| Request.IntParam | src/app/api/investigations/route.ts:27-28 | A numeric parameter is its value when given, and the fallback when absent. |
| Request.NextDay | src/app/api/investigations/route.ts:61-63 | The day after a date is strictly later. |
| Store.SortDesc | src/app/api/investigations/route.ts:74 | Ordering descending gives a permutation of the rows, sorted largest key first. |
| Store.RangeInclusive | src/app/api/investigations/route.ts:75 | `range(from, to)` takes the rows at positions `from` through `to`, in order, cut to the rows that exist. Its length is exactly the overlap of the window with the table: `to - from + 1` rows inside the table, a short last window at the end, none past it. |
| Store.ConsecutivePages | src/app/api/investigations/route.ts:75 | Two consecutive pages of the same size together make the page of twice that size. |
| Store.Page | src/app/api/occurrences/route.ts:58-59 | A page holds at most `limit` rows, sorted descending and drawn from the table. It is the window of the sorted table at `offset`: the row at place `i` is the sorted row at place `offset + i`, and there are as many rows as the sorted table has from `offset` on, up to `limit`. |
| Middleware.Route | middleware.ts:4-31 | Redirect decision: see note 12 below the table. |
| Middleware.RedirectTargetsFollowSession | middleware.ts:13-28 | A signed-in user is never sent to `/sign-in`, and an anonymous one never to `/dashboard`. |
| Middleware.PrefixesProtected | middleware.ts:10-11 | Each of the eight prefixes, and every path that begins with one, is protected. |
| Middleware.RawPrefixMatching | middleware.ts:11 | Matching is by raw prefix: `/settings-x` and `/occurrencesX` are protected. |
| Middleware.SignInNotProtected | middleware.ts:10-11 | Neither `/sign-in` nor `/` begins with a protected prefix. |
| Middleware.PublicEntryPoints | middleware.ts:13-30 | Anonymous requests for `/` and `/sign-in` pass. Signed-in ones are sent to `/dashboard`. |
| Middleware.SessionReachesProtected | middleware.ts:13-30 | A signed-in user reaches every protected page. |
| OccurrenceValidity.ParseStatus | src/types/index.ts:19 | Reading a status identifier gives back a status with that identifier, or nothing. |
| OccurrenceValidity.StatusIdRoundTrip | src/types/index.ts:19 | Reading a status's identifier gives the status back. Reading fails exactly for strings that name no status. |
| OccurrenceValidity.ParseClassification | src/types/index.ts:21-27 | Reading a classification identifier gives back a classification with that identifier, or nothing. |
| OccurrenceValidity.ClassificationIdRoundTrip | src/types/index.ts:21-27 | Reading a classification's identifier gives the classification back, and no identifier is empty. |
| OccurrenceValidity.InitialPanel | src/components/occurrences/OccurrenceValidity.tsx:26-51 | Initial panel: see note 13 below the table. |
| OccurrenceValidity.Load | src/components/occurrences/OccurrenceValidity.tsx:54-66 | Loading copies the eight fields from the assessment, turning a null reasoning into `''`. It leaves both flags alone. |
| OccurrenceValidity.OrNull | src/components/occurrences/OccurrenceValidity.tsx:322 | A select's value is null exactly when the empty option is chosen. |
| OccurrenceValidity.ApplyEdit | src/components/occurrences/OccurrenceValidity.tsx:70-74 | An edit changes at most the one field it names. |
| OccurrenceValidity.Change | src/components/occurrences/OccurrenceValidity.tsx:70-76 | An edit changes at most its field and sets the unsaved flag. A save in progress stays in progress. |
| OccurrenceValidity.EditSetsField | src/components/occurrences/OccurrenceValidity.tsx:181-382 | Each input stores the value it delivers in its own field. |
| OccurrenceValidity.EmptyOptionStoresNull | src/components/occurrences/OccurrenceValidity.tsx:294-322 | Choosing the empty option stores null, for the classification and for the investigator. |
| OccurrenceValidity.ClassificationOptionStored | src/components/occurrences/OccurrenceValidity.tsx:294-304 | Choosing a classification's option stores that classification. |
| OccurrenceValidity.UntickKeepsApprovalDate | src/components/occurrences/OccurrenceValidity.tsx:370-382 | Unticking the CFI approval clears the flag and keeps the approval date. |
| OccurrenceValidity.LoadAfterEditKeepsFlag | src/components/occurrences/OccurrenceValidity.tsx:54-76 | A reload after an edit replaces the form but keeps the unsaved flag set. |
| OccurrenceValidity.Submit | src/components/occurrences/OccurrenceValidity.tsx:79-95 | Submitting starts the save and sends the form. The body carries `assessment_date`, set to the submission time, exactly when the status is not pending. |
| OccurrenceValidity.ClickSave | src/components/occurrences/OccurrenceValidity.tsx:145 | A click sends a request exactly when Save is enabled: there are unsaved changes and no save in progress. Otherwise it does nothing. Once the click sends, Save is disabled. |
| OccurrenceValidity.FinishSave | src/components/occurrences/OccurrenceValidity.tsx:97-109 | End of save: see note 14 below the table. |
| OccurrenceValidity.SaveCycle | src/components/occurrences/OccurrenceValidity.tsx:79-145 | From an enabled Save, a click sends the form. After success Save is disabled; after failure it is enabled again. The form is kept either way. |
| OccurrenceValidity.EditEnablesSave | src/components/occurrences/OccurrenceValidity.tsx:145 | Save is disabled on the initial panel, and any edit enables it. |
| OccurrenceValidity.StatusColor | src/components/occurrences/OccurrenceValidity.tsx:121-132 | Pending, invalid and valid are shown yellow, red and green. Any other value is gray. |
| OccurrenceDetails.StatusBadgeClass | src/components/occurrences/OccurrenceDetails.tsx:15-28 | reported, in_review, under_investigation and closed get yellow, blue, orange and green. Gray means exactly "none of these". |
| OccurrenceDetails.SeverityBadgeClass | src/components/occurrences/OccurrenceDetails.tsx:30-43 | low, medium, high and critical get green, yellow, orange and red. Gray means exactly "none of these". |
| OccurrenceDetails.StatusBadgesDistinct | src/components/occurrences/OccurrenceDetails.tsx:15-28 | Distinct badged statuses get distinct badges. |
| OccurrenceDetails.UnlistedStatusesGray | src/components/occurrences/OccurrenceDetails.tsx:15-43 | Values outside the maps, such as `new`, `in_progress` and `Critical`, fall back to gray. |
| OccurrenceDetails.StatusLabel | src/components/occurrences/OccurrenceDetails.tsx:74-79 | `in_review` reads "Under Review" and `under_investigation` reads "Under Investigation". Any other status keeps its length, with only its first character upper-cased. |
| OccurrenceDetails.StatusLabelExamples | src/components/occurrences/OccurrenceDetails.tsx:74-79 | `in_progress` reads `In_progress`, `reported` reads `Reported`, and the empty status stays empty. |
| Text.Capitalise | src/components/occurrences/OccurrenceDetails.tsx:87-88 | The severity keeps its length and every character but the first, which is upper-cased. The same expression shows the occurrence type (lines 136-137), and the empty string stays empty. |
| OccurrenceDetails.FormatDate | src/components/occurrences/OccurrenceDetails.tsx:10-13 | A missing or empty timestamp shows as blank. Any other timestamp is rendered. |
| OccurrenceDetails.OrFallback | src/components/occurrences/OccurrenceDetails.tsx:159 | A missing or empty value shows the fallback, and any other value shows itself. The reporter's name falls back to "Unknown", and the aircraft's registration (line 213) to "N/A". |
| TopNav.UserInitial | src/components/layout/TopNav/index.tsx:26 | The initial is the upper-cased first character of the email, or "U" when there is no email or it is empty. |
| TopNav.UserName | src/components/layout/TopNav/index.tsx:28 | User name: see note 15 below the table. |
| TopNav.UserNameIsFirstPiece | src/components/layout/TopNav/index.tsx:28 | The user name is the first piece of splitting the email on `@`. |
| TopNav.FormattedNameIsReference | src/components/layout/TopNav/index.tsx:30-33 | Splitting on dots, capitalising each piece and joining with spaces equals a character-by-character rewrite. In it, a dot becomes a space and a character at the start of a word is upper-cased. |
| TopNav.FormattedNameShape | src/components/layout/TopNav/index.tsx:30-33 | The display name has the user name's length, and no dot remains. Only the dots and the word-initial characters change. |
| TopNav.WordCount | src/components/layout/TopNav/index.tsx:30-33 | For a name without spaces, the display name has one word per dot-separated piece, which is the number of dots plus one. |
| TopNav.TwoWordName | src/components/layout/TopNav/index.tsx:30-33 | `first.last` shows as the two words capitalised, separated by a space. |
| TopNav.GreetingExample | src/components/layout/TopNav/index.tsx:30-33 | `john.smith` shows as "John Smith". |
| TopNav.AnonymousGreeting | src/components/layout/TopNav/index.tsx:28-33 | Without an email the greeting uses "User". |

Notes to the table:

1. **FileUtils.FileSizeBoundary.** A size is accepted exactly when it is at
   most 10 485 760 bytes: that size passes and 10 485 761 does not. There
   is no lower bound, so a negative size passes.
2. **FileUtils.FormatFileSize.**
   - Zero prints `0 Bytes`.
   - A negative size prints `NaN undefined`.
   - A positive size is divided by the power of 1024 it lies between,
     giving an amount in [1, 1024) and that power's unit.
3. **FileUtils.FileExtension.** The extension is the lower-cased text
   after the last dot, and it contains no dot. The dot just before it
   belongs to the name. A name without a dot yields the whole name
   lower-cased, and the empty name yields the empty string.
4. **FileUtils.FileIconType.** The first test that passes decides:
   - each icon implies its own test passed and every earlier test failed;
   - the image icon is given exactly to `image/` types;
   - the generic icon is given exactly when every test fails.
5. **InvestigationProgress.FindStageIndex.** The index lies in -1..5. A
   non-negative index names a stage with that identifier. The result is
   -1 exactly when the identifier names none of the six stages.
6. **InvestigationProgress.ProgressWidthLinear.** The special cases agree
   with the formula, so the width is 20% per stage: 0% at index 0, 40% at
   index 2, 100% at index 5, and -20% for index -1.
7. **InvestigationsRoute.ListInvestigations.**
   - 401 exactly without a user.
   - 500 with the store's message exactly when the page query fails.
   - Otherwise:
     - the limit and offset requested, defaulting to 10 and 0;
     - at most `limit` rows, newest update first;
     - the rows are the window of the filtered rows in update order at
       `offset`: as many as exist from there on, up to `limit`;
     - each row meets the stage and date filters and comes from the table;
     - `this_week` and `this_month` are 0.
8. **OccurrencesRoute.ListOccurrences.**
   - 401 exactly without a session.
   - 500 with the message of the first failing query, count before page.
   - Otherwise:
     - the limit and offset requested, defaulting to 50 and 0;
     - the total is the number of rows meeting the four filters;
     - at most `limit` rows, newest first, each meeting the filters and
       drawn from the table;
     - the rows are the window of the filtered rows in creation order at
       `offset`: as many as exist from there on, up to `limit`;
     - the procedure's statistics, or else the fallback.
9. **UploadRoute.Validate.** The checks run in order: missing file,
   missing occurrence id, disallowed type, oversize. Each check fails
   exactly when every earlier one passes and it does not.
10. **UploadRoute.Upload.**
    - 400 exactly when validation fails, with the failing check's reason.
    - 401 exactly for a valid upload without a session.
    - 404 exactly for a valid upload with a session that names an
      occurrence the user cannot see.
    - Past those checks the file goes to storage. The answer is:
      - a storage failure when the target path is already taken or the
        upload fails;
      - otherwise a metadata failure when the row insert fails;
      - otherwise success, with the file stored at the target path.
    - A 400, 401, 404 or failed upload leaves storage and table unchanged.
    - Success adds the new path, which was free, to storage and appends
      one row to the table.
    - A failed metadata insert leaves the table unchanged. Storage is
      unchanged too unless the removal also fails. When it does, the
      uploaded object stays at the target path, since the result of
      `remove` is never checked.
11. **UploadRoute.SuccessRecordsUpload.** A successful upload adds exactly
    one object and one row. The row records:
    - the file's name, type and size;
    - the session user;
    - the occurrence;
    - the constructed path.
12. **Middleware.Route.**
    - Redirect to `/sign-in` exactly for an anonymous request to a
      protected path.
    - Redirect to `/dashboard` exactly for a signed-in request to
      `/sign-in` or `/`.
    - Every other request passes.
13. **OccurrenceValidity.InitialPanel.** Before loading:
    - the status is pending;
    - classification, investigator and the three dates are null;
    - reasoning is empty;
    - CFI approval is off;
    - both flags are clear.
14. **OccurrenceValidity.FinishSave.** At the end of a save `isSaving` is
    false and the form is unchanged. Success clears the unsaved flag;
    failure leaves it as it was.
15. **TopNav.UserName.** The user name is the text before the first `@`,
    or "User" when that text is empty or there is no email. It is never
    empty and contains no `@`.

## Left out

- FileUtils.FormatFileSize: states the amount before `toFixed(2)` and `parseFloat`, as an exact rational, and takes the unit index as the exact integer floor of the base-1024 logarithm. Floating-point `Math.log` and the two-decimal rounding are not modelled.
- InvestigationProgress.ProgressWidthLinear: the width is an exact rational percentage. Its rendering as a floating-point CSS string (such as `60.00000000000001%`) and the `setTimeout` animation delay are not modelled.
- Request.NextDay: the day after `endDate` is the instant plus 86 400 000 ms. The `setDate(+1)` calendar arithmetic, time zones, daylight-saving shifts and ISO conversion are not modelled.
- Request.IntParam: a parameter is either absent or a whole number. A value `parseInt` turns into `NaN` is not modelled.
- Capitalisation and lower-casing (`toUpperCase` and `toLowerCase`, used by TopNav.UserInitial, FileUtils.FileExtension and the labels) map ASCII letters only. Other Unicode case mappings are not modelled.
- OccurrenceDetails.FormatDate: the date-fns rendering `MMM d, yyyy, h:mm a` is opaque. The model only says whether a date is rendered or blank.
- OccurrenceValidity.ApplyEdit: an option value outside the six classification identifiers is stored as null rather than as the raw string. The page only offers the six and the empty option.
- OccurrenceValidity.FinishSave: the PATCH request, its response and SWR's `mutate` re-fetch are reduced to a success flag. The "Error loading assessment data" view and the investigators fetch are not modelled.
- Date inputs in the assessment form deliver an instant or nothing; the `yyyy-MM-dd` formatting and `toISOString` conversion are not modelled.
- OccurrencesRoute.ListOccurrences: the `get_occurrence_statistics` procedure is opaque. Its result, or its failure, is an input to the handler.
- Store.SortDesc: rows with equal keys keep an order chosen by the model. The database does not promise any order among ties.
- Store.RangeInclusive: a negative `from` is clamped to 0. What the hosted database does with a negative offset is not modelled.
- Joined columns (lead investigator, occurrence, aircraft, reporter, assigned user) and the selected column lists are not modelled. Rows carry only the fields the filters, orderings and statistics use.
- Authentication and session internals are reduced to a user id, or to a flag saying whether a session exists.
- The `try`/`catch` paths that answer 500 on an exception thrown by the runtime are not modelled. Only the errors the store reports are.
- UploadRoute.Upload: the public URL stored with an attachment, the row identifiers and timestamps the database adds, and the `cacheControl` option are not modelled.
- The reload-suppression components, the storage and layout wrappers, the storage-initialisation routes, the investigators route and the presentation-only components are not part of this model. They hold no decision logic, or their logic runs inside the external database.
- Console logging, the `dynamic` and `runtime` route configuration, and the React rendering markup are not modelled.
