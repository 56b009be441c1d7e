# Whistleblower report intake — a Dafny model

This project models the client-side core of a bilingual (English / Arabic)
whistleblower reporting page:

- a person fills in an optional name and email, a required site, an optional
  department and a message;
- they attach evidence files, which are size- and type-checked and then
  re-encoded or copied to strip metadata;
- they submit the report, which posts one JSON payload with Base64
  attachments to the reporting backend.

The model is split the way the program is:

| module | models |
|---|---|
| `Wrappers` | `Option` and `Result` |
| `Strings` | JavaScript's `||` on strings, `startsWith`, `split(',')` (with its inverse `Join`), and decimal rendering of a status code |
| `MetadataUtils` | `src/utils/metadataUtils.ts`: the size and type validators, the allow-list, the routing of `stripMetadata`, and the image pipeline with its four failure points |
| `Types` | `src/types/index.ts`: languages, the form record, the attachment record |
| `Directory` | `src/constants/data.ts`: the site and department directories in both languages, `find(...)?.name`, and the department mailbox table |
| `EmailTemplate` | `src/utils/emailTemplate.js`: the subject line and the fields the HTML body shows |
| `Base64` | `src/utils/base64.ts`: the guard, the read and the text after the first comma |
| `WhistleblowerLanding` | `src/WhistleblowerLanding.tsx`: the class `ReportController`, which holds the page state and the four handlers (`handleInputChange`, `handleFileUpload`, `removeAttachment`, `handleSubmit`) plus `toggleLanguage`, with the pure functions that specify them |

Outcomes the browser or the network decides become parameters of the
handlers:

- `ImageRun`: whether the file is read, whether the image decodes, whether a
  2D context is available, and which blob the canvas yields;
- `ReadOutcome`: the data URL a `FileReader` produces, or a read error;
- `Response`: a rejected `fetch`, or a reply with its `ok` flag, its status and
  a body that parses to an object (with its `details`), parses to `null`, or
  does not parse;
- `Selected.id`: the id `Math.random` draws for each kept file.

Toasts are appended to the controller's `notices` log, with their severity
and exact text. Posted payloads are appended to `requests`. Each handler runs
to completion before the next starts.

`src/utils/emailTemplate.js` carries its own copies of the three tables in
`src/constants/data.ts` (lines 6-58). The copies are identical, so both
modules of the model use the one `Directory`.

An attachment records the size of the file the user selected, not of its
sanitized copy (`src/WhistleblowerLanding.tsx:126`); for an image the two
can differ. `ToAttachment` takes `selected.file.Size()` accordingly.

## Model

| member | source | states |
|---|---|---|
| Strings.DiffersWithinPrefix | src/utils/metadataUtils.ts:117 | a string that differs from a prefix at some position inside the prefix does not start with it |
| Strings.Split | src/utils/base64.ts:11 | `split` with a one-character separator: always at least one piece; `JoinSplit` and `SplitJoin` below pin it down as the inverse of joining with the separator |
| Strings.JoinSplit | src/utils/base64.ts:11 | joining the pieces of `split(sep)` with `sep` gives the original string back |
| Strings.SplitJoin | src/utils/base64.ts:11 | splitting a join of separator-free pieces gives exactly those pieces |
| Strings.SplitPiecesHaveNoSeparator | src/utils/base64.ts:11 | no piece of `split(sep)` contains `sep` |
| Strings.SplitWithoutSeparator | src/utils/base64.ts:11 | a string without the separator splits into one piece, itself |
| Strings.SplitAfterFirstSeparator | src/utils/base64.ts:11 | the first piece is everything before the first separator, and the rest is the split of what follows it |
| Strings.NatToString | src/WhistleblowerLanding.tsx:208 | the rendered status is a non-empty run of decimal digits, with no leading zero unless the status is 0, whose decimal value is the status |
| Types.FormData.With | src/WhistleblowerLanding.tsx:67-72 | the named field takes the new value and every other field is unchanged |
| MetadataUtils.ValidateFileSize | src/utils/metadataUtils.ts:100-103 | definition of the size check; `SizeLimitIsMebibytes`, `DefaultSizeBoundary` and `SizeCheckMonotone` state its meaning |
| MetadataUtils.ValidateFileType | src/utils/metadataUtils.ts:105-122 | definition of the type check (media-family prefix, or exact membership in the 31-entry list); the lemmas below state its meaning |
| MetadataUtils.SizeLimitIsMebibytes | src/utils/metadataUtils.ts:100-103 | a file passes the size check iff its size is at most maxSizeMB × 1048576 bytes |
| MetadataUtils.DefaultSizeBoundary | src/utils/metadataUtils.ts:100-103 | with the default limit, 10485760 bytes pass and 10485761 bytes fail |
| MetadataUtils.SizeCheckMonotone | src/utils/metadataUtils.ts:100-103 | a file within a limit is within every larger limit |
| MetadataUtils.MediaFamiliesAccepted | src/utils/metadataUtils.ts:117-119 | every `image/`, `video/` or `audio/` type is accepted, listed or not |
| MetadataUtils.OtherTypesNeedExactMatch | src/utils/metadataUtils.ts:105-122 | outside the three media families, a type is accepted iff it equals an entry of the 31-entry allow-list |
| MetadataUtils.UnknownTypeRejected | src/utils/metadataUtils.ts:105-122 | `application/x-unknown` is rejected |
| MetadataUtils.EmptyTypeRejected | src/utils/metadataUtils.ts:105-122 | a file with no type is rejected |
| MetadataUtils.TypeMatchIsExact | src/utils/metadataUtils.ts:117-121 | matching is case- and space-sensitive: `APPLICATION/PDF` and ` text/plain` are rejected |
| MetadataUtils.DocumentTypesAreApplications | src/utils/metadataUtils.ts:71-76 | the four document types all begin `ap`, so none is an image type |
| MetadataUtils.Route | src/utils/metadataUtils.ts:66-85 | definition of the branch `stripMetadata` takes; `RouteOrder` states which types reach each branch |
| MetadataUtils.RouteOrder | src/utils/metadataUtils.ts:66-85 | the image branch is taken iff the type starts `image/`; the PDF branch iff it is `application/pdf`; the document branch iff it is one of the four Word/Excel types; the plain copy otherwise |
| MetadataUtils.PlainCopyTypes | src/utils/metadataUtils.ts:80-85 | PowerPoint, plain text and CSV take the fallback copy |
| MetadataUtils.RoutedTypesAreAllowed | src/utils/metadataUtils.ts:66-78 | every type with a dedicated branch passes the type check |
| MetadataUtils.StripImageMetadata | src/utils/metadataUtils.ts:6-46 | succeeds iff read, decode, context and blob all succeed; the result is the blob under the original name and type |
| MetadataUtils.StripMetadata | src/utils/metadataUtils.ts:48-90 | a result keeps name and type; every non-image file (the PDF, document and fallback copies) comes back as the same file; only image files can fail |
| MetadataUtils.ImageFailuresReachCaller | src/utils/metadataUtils.ts:6-46 | an image fails iff one of the four steps fails, with that step's own error message |
| Directory.Find | src/WhistleblowerLanding.tsx:182-183 | definition of `find(...)?.name`; `FindMeaning`, `FindFirstMatch` and `FindUnique` state its meaning |
| Directory.FindNameOr | src/WhistleblowerLanding.tsx:182-183 | definition of `find(...)?.name || fallback`; `PayloadSiteName`, `PayloadDepartmentName`, `PayloadUnlistedNames`, `BodySiteName` and `BodyDepartmentName` state what it yields for the directories |
| Directory.FindMeaning | src/WhistleblowerLanding.tsx:182-183 | `find` yields nothing iff no entry has the id, and a yielded name belongs to an entry with that id |
| Directory.FindFirstMatch | src/WhistleblowerLanding.tsx:182-183 | a name `find` yields is that of the first entry with the id: no earlier entry has it |
| Directory.FindUnique | src/constants/data.ts:13-53 | in a list with unique ids, looking up an entry's id yields that entry's name |
| Directory.SitesAligned | src/constants/data.ts:13-34 | both languages list the same 8 site ids in the same order |
| Directory.DepartmentsAligned | src/constants/data.ts:36-53 | both languages list the same 6 department ids in the same order |
| Directory.DirectoriesHaveUniqueIds | src/constants/data.ts:13-53 | no directory repeats an id |
| Directory.LookupLanguageIndependent | src/constants/data.ts:13-53 | an id is known in English iff it is known in Arabic |
| Directory.MailboxesCoverDepartments | src/constants/data.ts:4-11 | the mailbox table has exactly the department ids as keys |
| Directory.EmptyDepartmentHasNoMailbox | src/constants/data.ts:4-11 | the unset department has no mailbox |
| Directory.AllMailboxesAreDefault | src/constants/data.ts:4-11 | every department's mailbox is the default address |
| Directory.EmptyIdAbsent | src/constants/data.ts:13-53 | in a list with no empty id, the empty id is not found |
| Directory.IdsAreNonEmpty | src/constants/data.ts:13-53 | no site or department id is empty |
| Directory.SiteNamesNonEmpty | src/constants/data.ts:13-34 | every site name is non-empty |
| Directory.DepartmentNamesNonEmpty | src/constants/data.ts:36-53 | every department name is non-empty |
| Directory.EmptyIdUnknown | src/constants/data.ts:13-53 | the empty id is found in no directory |
| EmailTemplate.EmailSubject | src/utils/emailTemplate.js:64-71 | the subject always starts with the language's confidential-report prefix |
| EmailTemplate.SubjectNamesDepartment | src/utils/emailTemplate.js:64-71 | a listed department gives prefix + its name in that language; an unlisted one gives prefix + `General` |
| EmailTemplate.EmptyDepartmentSubject | src/utils/emailTemplate.js:64-71 | the unset department gives prefix + `General` |
| EmailTemplate.EmailBodyFields | src/utils/emailTemplate.js:79-238 | the body carries the message verbatim, and the right-to-left Arabic template is used iff the language is Arabic |
| EmailTemplate.BodySiteName | src/utils/emailTemplate.js:82-84 | a listed site shows its name in that language; an unset or unknown site shows `Not specified` / `غير محدد` |
| EmailTemplate.BodyDepartmentName | src/utils/emailTemplate.js:79-238 | a listed department shows its name; otherwise `Unspecified` / `غير محدد` |
| EmailTemplate.BodyIdentityFallbacks | src/utils/emailTemplate.js:79-238 | a blank name shows `Anonymous` / `مجهول`, a blank email `Not provided` / `غير مقدم`, and given values appear verbatim |
| Base64.DataUrlBody | src/utils/base64.ts:11 | definition of `result.split(',')[1]`; `NoCommaNoBody`, `BodyIsTextAfterFirstComma` and `DataUrlBodyIsPayload` state its meaning |
| Base64.FileToBase64 | src/utils/base64.ts:1-17 | `Invalid file type` iff the file, its name or its type is missing, before any read; `File reading failed` iff the guard passed and the read fails; a passed guard and a loaded read resolve to the text after the first comma of the data URL |
| Base64.NoCommaNoBody | src/utils/base64.ts:11 | a data URL without a comma yields no content (`undefined`) |
| Base64.BodyIsTextAfterFirstComma | src/utils/base64.ts:11 | the content is exactly the text between the first and second comma |
| Base64.DataUrlBodyIsPayload | src/utils/base64.ts:9-13 | for `data:<type>;base64,<payload>`, the content is the Base64 payload |
| Base64.EncodingOfReadableFile | src/utils/base64.ts:1-17 | a named, typed file that reads as a data URL encodes to exactly its payload |
| WhistleblowerLanding.Notice.ToastSeverity | src/WhistleblowerLanding.tsx:81-231 | which toast call raises each notice: `toast.warning` for the missing site, `toast.success` for a submitted report, `toast.error` for every rejection and failure |
| WhistleblowerLanding.Notice.Text | src/WhistleblowerLanding.tsx:81-234 | the exact English and Arabic text of each toast the page raises, interpolating the file name or the error message |
| WhistleblowerLanding.RejectionNotice | src/WhistleblowerLanding.tsx:79-117 | a file gets no notice iff it passes both checks |
| WhistleblowerLanding.OversizedGetsSizeNotice | src/WhistleblowerLanding.tsx:80-96 | an oversized file gets the size notice and not the type notice, whatever its type |
| WhistleblowerLanding.Kept | src/WhistleblowerLanding.tsx:79-117 | definition of the filter's result; `KeptExactlyAdmissible` and `KeptDistributes` state its meaning |
| WhistleblowerLanding.RejectionNotices | src/WhistleblowerLanding.tsx:79-117 | definition of the toasts the filter raises; `RejectionNoticesDistributes`, `RejectionNoticesOfOne`, `KeptOrNoticed` and `OversizedGetsSizeNotice` state their meaning |
| WhistleblowerLanding.KeptExactlyAdmissible | src/WhistleblowerLanding.tsx:79-117 | a file is kept iff it was selected and passes both checks |
| WhistleblowerLanding.KeptDistributes | src/WhistleblowerLanding.tsx:79-117 | the filter works file by file and keeps selection order |
| WhistleblowerLanding.KeptOrNoticed | src/WhistleblowerLanding.tsx:79-117 | the kept files and the notices together number exactly the selected files |
| WhistleblowerLanding.RejectionNoticesDistributes | src/WhistleblowerLanding.tsx:79-117 | the notices of a concatenated selection are those of each part, in selection order |
| WhistleblowerLanding.RejectionNoticesOfOne | src/WhistleblowerLanding.tsx:79-117 | a single file gets no notice if it is kept and otherwise exactly its own notice (`RejectionNotice`); with `RejectionNoticesDistributes`, each rejected file is answered by its own notice, in selection order |
| WhistleblowerLanding.FilterSelection | src/WhistleblowerLanding.tsx:79-117 | the filter loop yields exactly the kept files and the notices, in order |
| WhistleblowerLanding.ToAttachment | src/WhistleblowerLanding.tsx:123-129 | definition of the record built for a kept file: id, name, size and type of the selected file, and its sanitized copy; `SanitizeAll`'s `IsRecordOf` clause states it per record |
| WhistleblowerLanding.SanitizeAll | src/WhistleblowerLanding.tsx:119-133 | sanitizing succeeds iff every kept file's pipeline succeeds; each record then has the file's id, name, original size and type, and its sanitized copy |
| WhistleblowerLanding.SanitizeAllFirstError | src/WhistleblowerLanding.tsx:119-133 | once one file fails, the whole batch fails with that error |
| WhistleblowerLanding.SanitizeSelection | src/WhistleblowerLanding.tsx:119-133 | the sanitizing loop stops at the first failure and yields the batch result |
| WhistleblowerLanding.StagedRecordsAdmissible | src/WhistleblowerLanding.tsx:74-133 | every record of a successful intake is `Staged`: its recorded size is at most 10 MB and its sanitized copy has an allowed, non-empty type |
| WhistleblowerLanding.IntakeKeepsStaged | src/WhistleblowerLanding.tsx:119-133 | appending the records of a successful intake (`[...attachments, ...processedFiles]`) to staged records leaves every record staged |
| WhistleblowerLanding.RemovalKeepsStaged | src/WhistleblowerLanding.tsx:152-154 | removing records by id leaves the remaining records staged |
| WhistleblowerLanding.ReportController.Valid | src/WhistleblowerLanding.tsx:74-154 | the controller invariant between handlers: both busy flags down and every staged record `Staged`; the constructor establishes it and every handler preserves it |
| WhistleblowerLanding.JpegAndLargePdf | src/WhistleblowerLanding.tsx:74-133 | for a 2 MB JPEG and a 15 MB PDF: only the JPEG is kept, the PDF gets the size notice, and one record is staged |
| WhistleblowerLanding.RemoveById | src/WhistleblowerLanding.tsx:153 | definition of `filter(att => att.id !== id)`; `RemoveKeepsOthers`, `RemoveDistributes` and `RemoveAbsentId` state its meaning |
| WhistleblowerLanding.RemoveKeepsOthers | src/WhistleblowerLanding.tsx:152-154 | after removal, a record remains iff it was there and has a different id |
| WhistleblowerLanding.RemoveDistributes | src/WhistleblowerLanding.tsx:152-154 | removal works record by record and keeps the order of the rest |
| WhistleblowerLanding.RemoveAbsentId | src/WhistleblowerLanding.tsx:152-154 | removing an id no record has changes nothing |
| WhistleblowerLanding.RemoveFirstOfTwo | src/WhistleblowerLanding.tsx:152-154 | removing the first of two staged records leaves the second alone |
| WhistleblowerLanding.EncodeAll | src/WhistleblowerLanding.tsx:174-180 | definition of the all-or-nothing encoding; `EncodeAllEntries` and `EncodeAllFirstError` state its meaning |
| WhistleblowerLanding.EncodeAllEntries | src/WhistleblowerLanding.tsx:174-180 | encoding succeeds iff every attachment encodes; it then yields one entry per attachment, in order, with its name, type and Base64 content |
| WhistleblowerLanding.EncodeAllFirstError | src/WhistleblowerLanding.tsx:174-180 | once one attachment fails, the whole encoding fails with that error |
| WhistleblowerLanding.EncodeAttachments | src/WhistleblowerLanding.tsx:174-180 | the encoding loop stops at the first failure and yields the batch result |
| WhistleblowerLanding.BuildPayload | src/WhistleblowerLanding.tsx:182-196 | definition of the posted payload; the `Payload...` lemmas below state each field |
| WhistleblowerLanding.Recipient | src/WhistleblowerLanding.tsx:195 | definition of `departmentEmails[department] || default`; `PayloadRecipient` states its meaning |
| WhistleblowerLanding.PayloadIdentityFallbacks | src/WhistleblowerLanding.tsx:186-187 | a blank name is sent as `Anonymous` / `مجهول`, a blank email as `Not provided` / `غير مقدم`, and given values verbatim |
| WhistleblowerLanding.PayloadSiteName | src/WhistleblowerLanding.tsx:182 | a listed site id is sent with its name in the current language |
| WhistleblowerLanding.PayloadDepartmentName | src/WhistleblowerLanding.tsx:183 | a listed department id is sent with its name in the current language |
| WhistleblowerLanding.PayloadUnlistedNames | src/WhistleblowerLanding.tsx:182-183 | an unlisted site or department id is sent as its own display name |
| WhistleblowerLanding.PayloadRecipient | src/WhistleblowerLanding.tsx:195 | the recipient is the department's mailbox, or the default address for an unset or unknown department; with the current table it is always the default address |
| WhistleblowerLanding.ResponseError | src/WhistleblowerLanding.tsx:206-211 | definition of the error a reply raises, or none; `ResponseOutcome` and `MailboxFullReply` state its meaning |
| WhistleblowerLanding.SubmissionError | src/WhistleblowerLanding.tsx:173-211 | definition of the message `handleSubmit` reports: the first encoding error, else the reply's error; `Send` and `HandleSubmit` state it |
| WhistleblowerLanding.ResponseOutcome | src/WhistleblowerLanding.tsx:198-234 | a report goes through iff the reply is ok and its body parses (to an object or to `null`); a rejected fetch reports its reason; a failed reply reports its `details`, or else `HTTP error! status: N` when the body has none or does not parse, and the TypeError of reading `details` when the body is `null`; an ok reply that does not parse reports the parser's error |
| WhistleblowerLanding.MailboxFullReply | src/WhistleblowerLanding.tsx:206-209 | a failed reply with details `mailbox full` reports `mailbox full` |
| WhistleblowerLanding.ReportController.SubmitDisabled | src/components/ReportForm.tsx:231 | the submit button is disabled while a file upload or a submission is under way (`uploading || submitting`) |
| WhistleblowerLanding.ReportController.constructor | src/WhistleblowerLanding.tsx:23-36 | the page starts in English with an empty form, no attachments, both flags down, and the submit button enabled; the controller invariant `Valid` holds |
| WhistleblowerLanding.ReportController.ToggleLanguage | src/WhistleblowerLanding.tsx:48-50 | the language flips and nothing else changes; `Valid` is preserved |
| WhistleblowerLanding.ReportController.HandleInputChange | src/WhistleblowerLanding.tsx:67-72 | only the named field changes, to the new value; `Valid` is preserved |
| WhistleblowerLanding.ReportController.HandleFileUpload | src/WhistleblowerLanding.tsx:74-150 | rejection notices come in selection order. The kept files' records are appended all or nothing; on failure there is one processing-error notice and the staged list is unchanged. Afterwards the busy flag is down and the input is cleared. `Valid` is preserved, so every staged record is within 10 MB with an allowed type |
| WhistleblowerLanding.ReportController.RemoveAttachment | src/WhistleblowerLanding.tsx:152-154 | the staged list loses the records with that id and nothing else changes; `Valid` is preserved |
| WhistleblowerLanding.ReportController.HandleSubmit | src/WhistleblowerLanding.tsx:156-244 | with no site: one warning and nothing else, no request. Otherwise one payload is posted iff every attachment encodes. Success clears form and attachments with a confirmation; failure keeps both and shows the error message. The submitting flag ends down, and `Valid` is preserved |
| WhistleblowerLanding.ReportController.Send | src/WhistleblowerLanding.tsx:173-211 | posts the payload iff encoding succeeds, and returns the attempt's error message or none |
| WhistleblowerLanding.ReportController.Settle | src/WhistleblowerLanding.tsx:214-240 | on success a confirmation, an empty form and no attachments; on failure the error toast and nothing else |

## Left out

- `formatFileSize` (`src/utils/metadataUtils.ts:92-98`) computes with floating-point logarithms and rounding, for display only.
- The UI components (navigation, hero, FAQ, footer, the form's markup) are rendering only. From `src/components/ReportForm.tsx` the model keeps only the disabled state of the submit button (`ReportController.SubmitDisabled`).
- The theme toggle and its `localStorage` persistence, menu state and scrolling touch no report data.
- Toast options (position, auto-close delay, theme) and `console` logging are not modelled; a toast is its severity and text.
- `lastModified` timestamps, canvas width and height, and the JPEG quality factor are not modelled. The image pipeline's output bytes are a parameter (`ImageRun.blob`).
- Attachment ids come from `Math.random`. They are a parameter (`Selected.id`) and are not assumed unique.
- `Promise.all` is modelled as a sequential map that stops at the first failure in list order. In the program the first rejection in time wins. The messages can differ only when two attachments fail differently at submission.
- Handlers run atomically. The program builds the new attachment list from the list captured when the upload started, so a removal that lands during an upload is lost; the model does not capture that interleaving.
- `file.arrayBuffer()` failures in the PDF, document and fallback copies are not modelled: the copy always succeeds.
- `validateFileSize` is modelled for integer limits; the program is only ever called with 10.
- Languages other than English and Arabic cannot occur, because `Language` has two values.
- Prototype keys in `departmentEmails` are not modelled, so a department id such as `constructor` is simply absent.
- The HTML text of the email body is not modelled; `EmailBodyFields` gives the values it interpolates and the template it picks.
- `fetch` itself, the URL, the headers and JSON serialisation are not modelled; the reply is a parameter (`Response`). A `details` that is not a string is not modelled. The TypeError's and the JSON parser's messages are engine-specific, so they are parameters (`JsonNull.reason`, `Unparsable.reason`).
- The program falls back to `Please try again.` when the thrown value is not an `Error`. Every rejection on these paths is an `Error`, so the fallback is unreachable and not modelled.
