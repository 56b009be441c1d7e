/** The report controller of src/WhistleblowerLanding.tsx: form state, the
    staged attachments, the two busy flags, and the four handlers that
    change them. Handlers run one at a time. Toasts are appended to a log
    of notices; the report request is appended to a log of requests. The
    browser's and the network's answers are parameters of the handlers. */
module WhistleblowerLanding {
  import opened Wrappers
  import opened Strings
  import opened MetadataUtils
  import opened Types
  import opened Directory
  import opened EmailTemplate
  import opened Base64

  /** The toast kinds the page uses. */
  datatype Severity = Success | Warning | Error

  /** What a toast reports. */
  datatype NoticeKind =
    | SizeExceeded(fileName: string)
    | TypeNotAllowed(fileName: string)
    | ProcessingFailed
    | SiteMissing
    | Submitted
    | SubmitFailed(reason: string)

  /** One toast: what it reports, in the language of the page when it was
      raised. */
  datatype Notice = Notice(kind: NoticeKind, language: Language)
  {
    function ToastSeverity(): Severity
    {
      match kind
      case SiteMissing => Warning
      case Submitted => Success
      case _ => Error
    }

    /** The text the toast shows. */
    function Text(): string
    {
      match kind
      case SizeExceeded(name) =>
        if language == En then "File \"" + name + "\" exceeds the 10MB limit"
        else "الملف \"" + name + "\" يتجاوز حد 10 ميجابايت"
      case TypeNotAllowed(name) =>
        if language == En then "File type not allowed: \"" + name + "\""
        else "نوع الملف غير مسموح به: \"" + name + "\""
      case ProcessingFailed =>
        if language == En then "Error processing files. Please try again."
        else "خطأ في معالجة الملفات. يرجى المحاولة مرة أخرى."
      case SiteMissing =>
        if language == En then "Please select a site" else "يرجى اختيار موقع"
      case Submitted =>
        if language == En then "Report submitted securely! You will receive a confirmation shortly."
        else "تم تقديم البلاغ بأمان! سوف تتلقى تأكيدًا قريبًا."
      case SubmitFailed(reason) =>
        if language == En then "Error submitting report: " + reason
        else "خطأ في تقديم البلاغ: " + reason
    }
  }

  // ---------------------------------------------------------------------
  // Intake
  // ---------------------------------------------------------------------

  /** One file of the selection, with what the browser does for it: the id
      `Math.random` draws for it if it is kept, and how its image pipeline
      goes if it is an image. */
  datatype Selected = Selected(file: File, id: string, image: ImageRun)

  /** The upload size limit, in MB, that `handleFileUpload` passes. */
  const UploadLimitMB: int := 10

  /** A file survives the filter of `handleFileUpload`. */
  predicate Admissible(file: File)
  {
    ValidateFileSize(file, UploadLimitMB) && ValidateFileType(file)
  }

  /** The notice the filter emits for one file: the size check runs first. */
  function RejectionNotice(file: File, language: Language): (n: Option<Notice>)
    ensures n.None? <==> Admissible(file)
  {
    if !ValidateFileSize(file, UploadLimitMB) then Some(Notice(SizeExceeded(file.name), language))
    else if !ValidateFileType(file) then Some(Notice(TypeNotAllowed(file.name), language))
    else None
  }

  /** The files the filter keeps, in selection order. */
  function Kept(selection: seq<Selected>): seq<Selected>
  {
    if selection == [] then []
    else
      var last := selection[|selection| - 1];
      Kept(selection[..|selection| - 1]) + (if Admissible(last.file) then [last] else [])
  }

  /** The notices the filter emits, in selection order. */
  function RejectionNotices(selection: seq<Selected>, language: Language): seq<Notice>
  {
    if selection == [] then []
    else
      var last := selection[|selection| - 1];
      RejectionNotices(selection[..|selection| - 1], language) +
        (match RejectionNotice(last.file, language) case Some(n) => [n] case None => [])
  }

  /** The attachment record built for a kept file and its sanitized copy:
      id, name, size and type come from the selected file. */
  function ToAttachment(selected: Selected, stripped: File): Attachment
  {
    Attachment(selected.id, selected.file.name, selected.file.Size(), selected.file.mediaType, stripped)
  }

  /** What the intake promises of one record. */
  predicate IsRecordOf(selected: Selected, record: Attachment)
  {
    var r := StripMetadata(selected.file, selected.image);
    && r.Ok?
    && record.file == r.value
    && record.id == selected.id
    && record.name == selected.file.name
    && record.size == selected.file.Size()
    && record.mediaType == selected.file.mediaType
    && record.file.name == selected.file.name
    && record.file.mediaType == selected.file.mediaType
    && (Route(selected.file.mediaType) != ImageReencode ==> record.file == selected.file)
  }

  /** `Promise.all(validFiles.map(...stripMetadata...))`, as a sequential,
      all-or-nothing map: every record, or the first failure. */
  function SanitizeAll(kept: seq<Selected>): (r: Result<seq<Attachment>, StripError>)
    ensures r.Ok? <==> forall k :: 0 <= k < |kept| ==> StripMetadata(kept[k].file, kept[k].image).Ok?
    ensures r.Ok? ==> |r.value| == |kept| && forall k :: 0 <= k < |kept| ==> IsRecordOf(kept[k], r.value[k])
  {
    if kept == [] then Ok([])
    else
      var init, last := kept[..|kept| - 1], kept[|kept| - 1];
      match SanitizeAll(init)
      case Err(e) => Err(e)
      case Ok(records) =>
        match StripMetadata(last.file, last.image)
        case Err(e) => Err(e)
        case Ok(stripped) => Ok(records + [ToAttachment(last, stripped)])
  }

  /** Once a prefix fails to sanitize, the whole selection fails with that
      error. */
  lemma {:induction false} SanitizeAllFirstError(kept: seq<Selected>, j: nat)
    requires j <= |kept|
    requires SanitizeAll(kept[..j]).Err?
    ensures SanitizeAll(kept) == SanitizeAll(kept[..j])
  {
    if j < |kept| {
      var init := kept[..|kept| - 1];
      assert init[..j] == kept[..j];
      SanitizeAllFirstError(init, j);
    } else {
      assert kept[..j] == kept;
    }
  }

  /** A file is kept exactly when it is in the selection and passes both
      checks. */
  lemma {:induction false} KeptExactlyAdmissible(selection: seq<Selected>)
    ensures forall s :: s in Kept(selection) <==> s in selection && Admissible(s.file)
  {
    if selection != [] {
      var init := selection[..|selection| - 1];
      KeptExactlyAdmissible(init);
      assert selection == init + [selection[|selection| - 1]];
    }
  }

  /** What a staged record stands for: a file that passed both checks. Its
      recorded size is within 10 MB and its sanitized copy has an allowed,
      non-empty type. */
  predicate Staged(record: Attachment)
  {
    record.size <= UploadLimitMB * BytesPerMB && ValidateFileType(record.file) && record.file.mediaType != ""
  }

  /** Every record the intake stages stands for a file that passed both
      checks. */
  lemma StagedRecordsAdmissible(selection: seq<Selected>)
    requires SanitizeAll(Kept(selection)).Ok?
    ensures forall k :: 0 <= k < |SanitizeAll(Kept(selection)).value| ==> Staged(SanitizeAll(Kept(selection)).value[k])
  {
    var kept := Kept(selection);
    var records := SanitizeAll(kept).value;
    KeptExactlyAdmissible(selection);
    forall k | 0 <= k < |records|
      ensures Staged(records[k])
    {
      assert kept[k] in kept;
      assert IsRecordOf(kept[k], records[k]);
      EmptyTypeRejected(records[k].file);
    }
  }

  /** Every record of the list is staged. */
  predicate AllStaged(records: seq<Attachment>)
  {
    forall a :: a in records ==> Staged(a)
  }

  /** Appending a successful intake to staged records keeps them staged. */
  lemma IntakeKeepsStaged(attachments: seq<Attachment>, selection: seq<Selected>)
    requires AllStaged(attachments)
    requires SanitizeAll(Kept(selection)).Ok?
    ensures AllStaged(attachments + SanitizeAll(Kept(selection)).value)
  {
    var records := SanitizeAll(Kept(selection)).value;
    StagedRecordsAdmissible(selection);
    forall a | a in attachments + records
      ensures Staged(a)
    {
      if a !in attachments {
        var k :| 0 <= k < |records| && records[k] == a;
      }
    }
  }

  /** Removing records keeps the rest staged. */
  lemma RemovalKeepsStaged(attachments: seq<Attachment>, id: string)
    requires AllStaged(attachments)
    ensures AllStaged(RemoveById(attachments, id))
  {
    RemoveKeepsOthers(attachments, id);
  }

  /** Filtering a concatenation filters each part and keeps their order. */
  lemma {:induction false} KeptDistributes(a: seq<Selected>, b: seq<Selected>)
    ensures Kept(a + b) == Kept(a) + Kept(b)
  {
    if b == [] {
      assert a + b == a;
    } else {
      var init := b[..|b| - 1];
      KeptDistributes(a, init);
      assert (a + b)[..|a + b| - 1] == a + init;
    }
  }

  /** Every selected file is either kept or answered by exactly one notice. */
  lemma {:induction false} KeptOrNoticed(selection: seq<Selected>, language: Language)
    ensures |Kept(selection)| + |RejectionNotices(selection, language)| == |selection|
  {
    if selection != [] {
      KeptOrNoticed(selection[..|selection| - 1], language);
    }
  }

  /** The notices of a concatenation are those of each part, in order. */
  lemma {:induction false} RejectionNoticesDistributes(a: seq<Selected>, b: seq<Selected>, language: Language)
    ensures RejectionNotices(a + b, language) == RejectionNotices(a, language) + RejectionNotices(b, language)
  {
    if b == [] {
      assert a + b == a;
    } else {
      var init := b[..|b| - 1];
      RejectionNoticesDistributes(a, init, language);
      assert (a + b)[..|a + b| - 1] == a + init;
      assert (a + b)[|a + b| - 1] == b[|b| - 1];
    }
  }

  /** A single file is answered by its own notice exactly when it is not
      kept. */
  lemma RejectionNoticesOfOne(s: Selected, language: Language)
    ensures RejectionNotices([s], language) ==
      (if Admissible(s.file) then [] else [RejectionNotice(s.file, language).value])
  {
    assert [s][..0] == [];
  }

  /** An oversized file yields only the size notice, whatever its type. */
  lemma OversizedGetsSizeNotice(file: File, language: Language)
    requires file.Size() > 10 * 1024 * 1024
    ensures RejectionNotice(file, language) == Some(Notice(SizeExceeded(file.name), language))
  {
  }

  /** A 2 MB JPEG and a 15 MB PDF: the PDF is refused with the size notice,
      and if the JPEG re-encodes, one record is staged for it. */
  lemma JpegAndLargePdf(jpeg: Selected, pdf: Selected, language: Language)
    requires jpeg.file.mediaType == "image/jpeg" && jpeg.file.Size() == 2 * 1024 * 1024
    requires pdf.file.mediaType == "application/pdf" && pdf.file.Size() == 15 * 1024 * 1024
    requires jpeg.image.readOk && jpeg.image.decodeOk && jpeg.image.contextOk && jpeg.image.blob.Some?
    ensures Kept([jpeg, pdf]) == [jpeg]
    ensures RejectionNotices([jpeg, pdf], language) == [Notice(SizeExceeded(pdf.file.name), language)]
    ensures SanitizeAll(Kept([jpeg, pdf])).Ok? && |SanitizeAll(Kept([jpeg, pdf])).value| == 1
  {
    assert [jpeg, pdf][..1] == [jpeg];
    assert [jpeg][..0] == [];
    assert StartsWith(jpeg.file.mediaType, "image/");
    MediaFamiliesAccepted(jpeg.file);
    assert Admissible(jpeg.file) && !Admissible(pdf.file);
    assert Kept([jpeg]) == [jpeg];
    assert RejectionNotices([jpeg], language) == [];
  }

  // ---------------------------------------------------------------------
  // Removal
  // ---------------------------------------------------------------------

  /** `attachments.filter(att => att.id !== id)`. */
  function RemoveById(attachments: seq<Attachment>, id: string): seq<Attachment>
  {
    if attachments == [] then []
    else (if attachments[0].id == id then [] else [attachments[0]]) + RemoveById(attachments[1..], id)
  }

  /** Removal keeps exactly the records with another id. */
  lemma {:induction false} RemoveKeepsOthers(attachments: seq<Attachment>, id: string)
    ensures forall a :: a in RemoveById(attachments, id) <==> a in attachments && a.id != id
  {
    if attachments != [] {
      RemoveKeepsOthers(attachments[1..], id);
      assert attachments == [attachments[0]] + attachments[1..];
    }
  }

  /** Removal works record by record and keeps the order of the rest. */
  lemma {:induction false} RemoveDistributes(a: seq<Attachment>, b: seq<Attachment>, id: string)
    ensures RemoveById(a + b, id) == RemoveById(a, id) + RemoveById(b, id)
  {
    if a == [] {
      assert a + b == b;
    } else {
      var head := if a[0].id == id then [] else [a[0]];
      assert (a + b)[0] == a[0];
      assert (a + b)[1..] == a[1..] + b;
      calc {
        RemoveById(a + b, id);
        head + RemoveById(a[1..] + b, id);
        { RemoveDistributes(a[1..], b, id); }
        head + (RemoveById(a[1..], id) + RemoveById(b, id));
        (head + RemoveById(a[1..], id)) + RemoveById(b, id);
      }
    }
  }

  /** Removing an id no record has changes nothing. */
  lemma {:induction false} RemoveAbsentId(attachments: seq<Attachment>, id: string)
    requires forall k :: 0 <= k < |attachments| ==> attachments[k].id != id
    ensures RemoveById(attachments, id) == attachments
  {
    if attachments != [] {
      RemoveAbsentId(attachments[1..], id);
      assert attachments == [attachments[0]] + attachments[1..];
    }
  }

  /** After staging a then b, removing a's id leaves exactly [b]. */
  lemma RemoveFirstOfTwo(a: Attachment, b: Attachment)
    requires a.id != b.id
    ensures RemoveById([a, b], a.id) == [b]
  {
    assert [a, b][1..] == [b];
    assert [b][1..] == [];
    assert RemoveById([b], a.id) == [b] + RemoveById([], a.id);
  }

  // ---------------------------------------------------------------------
  // Submission
  // ---------------------------------------------------------------------

  /** One entry of the payload's `attachments`: content is None when the
      data URL had no comma (`undefined`, which the JSON body drops). */
  datatype EncodedAttachment = EncodedAttachment(filename: string, content: Option<string>, contentType: string)

  /** The JSON body of the report request. */
  datatype Payload = Payload(
    name: string,
    email: string,
    site: string,
    siteName: string,
    department: string,
    departmentName: string,
    message: string,
    language: Language,
    attachments: seq<EncodedAttachment>,
    recipientEmail: string)

  /** `Promise.all(attachments.map(...fileToBase64...))`, as a sequential,
      all-or-nothing map: every encoded entry, or the first failure. */
  function EncodeAll(attachments: seq<Attachment>, reader: File -> ReadOutcome): Result<seq<EncodedAttachment>, EncodeError>
  {
    if attachments == [] then Ok([])
    else
      var init, last := attachments[..|attachments| - 1], attachments[|attachments| - 1];
      match EncodeAll(init, reader)
      case Err(e) => Err(e)
      case Ok(entries) =>
        match FileToBase64(Some(last.file), reader(last.file))
        case Err(e) => Err(e)
        case Ok(content) => Ok(entries + [EncodedAttachment(last.name, content, last.mediaType)])
  }

  /** Encoding succeeds exactly when every attachment encodes, and then
      yields one entry per attachment, in order, with its name, its type and
      the text after the comma of its data URL. */
  lemma {:induction false} EncodeAllEntries(attachments: seq<Attachment>, reader: File -> ReadOutcome)
    ensures EncodeAll(attachments, reader).Ok? <==> forall k :: 0 <= k < |attachments| ==>
      FileToBase64(Some(attachments[k].file), reader(attachments[k].file)).Ok?
    ensures EncodeAll(attachments, reader).Ok? ==>
      |EncodeAll(attachments, reader).value| == |attachments|
      && forall k :: 0 <= k < |attachments| ==>
        EncodeAll(attachments, reader).value[k] == EncodedAttachment(attachments[k].name,
          FileToBase64(Some(attachments[k].file), reader(attachments[k].file)).value, attachments[k].mediaType)
  {
    if attachments != [] {
      var init := attachments[..|attachments| - 1];
      EncodeAllEntries(init, reader);
      assert forall k :: 0 <= k < |init| ==> init[k] == attachments[k];
    }
  }

  /** Once a prefix fails to encode, the whole list fails with that error. */
  lemma {:induction false} EncodeAllFirstError(attachments: seq<Attachment>, reader: File -> ReadOutcome, j: nat)
    requires j <= |attachments|
    requires EncodeAll(attachments[..j], reader).Err?
    ensures EncodeAll(attachments, reader) == EncodeAll(attachments[..j], reader)
  {
    if j < |attachments| {
      var init := attachments[..|attachments| - 1];
      assert init[..j] == attachments[..j];
      EncodeAllFirstError(init, reader, j);
    } else {
      assert attachments[..j] == attachments;
    }
  }

  /** `departmentEmails[department] || <default address>`. */
  function Recipient(department: string): string
  {
    if department in DepartmentEmails then Or(DepartmentEmails[department], DefaultRecipient)
    else DefaultRecipient
  }

  /** The payload `handleSubmit` posts. */
  function BuildPayload(form: FormData, language: Language, encoded: seq<EncodedAttachment>): Payload
  {
    Payload(
      Or(form.name, AnonymousName(language)),
      Or(form.email, EmailNotProvided(language)),
      form.site,
      FindNameOr(Sites(language), form.site, form.site),
      form.department,
      FindNameOr(Departments(language), form.department, form.department),
      form.message,
      language,
      encoded,
      Recipient(form.department))
  }

  /** A blank name or email is replaced by 'Anonymous' / 'مجهول' and
      'Not provided' / 'غير مقدم'; a given one is sent verbatim. */
  lemma PayloadIdentityFallbacks(form: FormData, language: Language, encoded: seq<EncodedAttachment>)
    ensures form.name == "" ==> BuildPayload(form, language, encoded).name == (if language == Ar then "مجهول" else "Anonymous")
    ensures form.name != "" ==> BuildPayload(form, language, encoded).name == form.name
    ensures form.email == "" ==> BuildPayload(form, language, encoded).email == (if language == Ar then "غير مقدم" else "Not provided")
    ensures form.email != "" ==> BuildPayload(form, language, encoded).email == form.email
  {
  }

  /** A listed site id is sent with that site's name in the current
      language. */
  lemma PayloadSiteName(form: FormData, language: Language, encoded: seq<EncodedAttachment>, k: nat)
    requires k < |Sites(language)| && Sites(language)[k].id == form.site
    ensures BuildPayload(form, language, encoded).siteName == Sites(language)[k].name
  {
    DirectoriesHaveUniqueIds();
    FindUnique(Sites(language), k);
    SiteNamesNonEmpty(language, k);
  }

  /** A listed department id is sent with that department's name in the
      current language. */
  lemma PayloadDepartmentName(form: FormData, language: Language, encoded: seq<EncodedAttachment>, k: nat)
    requires k < |Departments(language)| && Departments(language)[k].id == form.department
    ensures BuildPayload(form, language, encoded).departmentName == Departments(language)[k].name
  {
    DirectoriesHaveUniqueIds();
    FindUnique(Departments(language), k);
    DepartmentNamesNonEmpty(language, k);
  }

  /** An id the directory does not list (the unset department included) is
      sent as its own display name. */
  lemma PayloadUnlistedNames(form: FormData, language: Language, encoded: seq<EncodedAttachment>)
    ensures form.site !in Ids(Sites(language)) ==> BuildPayload(form, language, encoded).siteName == form.site
    ensures form.department !in Ids(Departments(language)) ==>
      BuildPayload(form, language, encoded).departmentName == form.department
  {
    FindMeaning(Sites(language), form.site);
    FindMeaning(Departments(language), form.department);
  }

  /** The recipient is the department's mailbox, or the default address for
      an unset or unknown department; with the current table every report
      goes to the default address. */
  lemma PayloadRecipient(form: FormData, language: Language, encoded: seq<EncodedAttachment>)
    ensures form.department in DepartmentEmails ==>
      BuildPayload(form, language, encoded).recipientEmail == DepartmentEmails[form.department]
    ensures form.department !in DepartmentEmails ==>
      BuildPayload(form, language, encoded).recipientEmail == DefaultRecipient
    ensures form.department == "" ==> BuildPayload(form, language, encoded).recipientEmail == DefaultRecipient
    ensures BuildPayload(form, language, encoded).recipientEmail == DefaultRecipient
  {
    AllMailboxesAreDefault();
    EmptyDepartmentHasNoMailbox();
  }

  /** The body of the backend's reply: a parsed JSON object (with
      `details`, "" when absent or empty), the JSON literal `null` (reading
      `details` off it raises a TypeError, whose message is `reason`), or
      text that does not parse (the parser's message is `reason`). */
  datatype Body = Json(details: string) | JsonNull(reason: string) | Unparsable(reason: string)

  /** The outcome of `fetch`: rejected, or a reply with its `ok` flag, its
      status and its body. */
  datatype Response = FetchFailed(reason: string) | Reply(ok: bool, status: nat, body: Body)

  /** The message `handleSubmit` reports for a response, or None when the
      report went through. */
  function ResponseError(response: Response): Option<string>
  {
    match response
    case FetchFailed(reason) => Some(reason)
    case Reply(ok, status, body) =>
      if !ok then
        match body
        case Json(details) => Some(Or(details, "HTTP error! status: " + NatToString(status)))
        case JsonNull(typeError) => Some(typeError)
        case Unparsable(_) => Some("HTTP error! status: " + NatToString(status))
      else
        match body
        case Unparsable(reason) => Some(reason)
        case _ => None
  }

  /** A report goes through only on an ok reply whose body parses; a failed
      reply reports its `details`, or else "HTTP error! status: N", except
      that a `null` body makes reading `details` itself fail. */
  lemma ResponseOutcome(response: Response)
    ensures ResponseError(response).None? <==> response.Reply? && response.ok && !response.body.Unparsable?
    ensures response.Reply? && !response.ok && response.body.Json? && response.body.details != "" ==>
      ResponseError(response) == Some(response.body.details)
    ensures response.Reply? && !response.ok && (response.body.Unparsable? || (response.body.Json? && response.body.details == "")) ==>
      ResponseError(response) == Some("HTTP error! status: " + NatToString(response.status))
    ensures response.Reply? && !response.ok && response.body.JsonNull? ==>
      ResponseError(response) == Some(response.body.reason)
    ensures response.Reply? && response.ok && response.body.Unparsable? ==>
      ResponseError(response) == Some(response.body.reason)
    ensures response.FetchFailed? ==> ResponseError(response) == Some(response.reason)
  {
  }

  /** A reply `{details: "mailbox full"}` with a failure status reports
      "mailbox full". */
  lemma MailboxFullReply(status: nat)
    ensures ResponseError(Reply(false, status, Json("mailbox full"))) == Some("mailbox full")
  {
  }

  /** The error message of one submission attempt, or None on success:
      encoding is tried first, and no request is sent when it fails. */
  function SubmissionError(attachments: seq<Attachment>, reader: File -> ReadOutcome, response: Response): Option<string>
  {
    match EncodeAll(attachments, reader)
    case Err(e) => Some(e.Message())
    case Ok(_) => ResponseError(response)
  }

  /** The filter loop of `handleFileUpload`. */
  method FilterSelection(selection: seq<Selected>, language: Language) returns (kept: seq<Selected>, emitted: seq<Notice>)
    ensures kept == Kept(selection)
    ensures emitted == RejectionNotices(selection, language)
  {
    kept, emitted := [], [];
    var i := 0;
    while i < |selection|
      invariant 0 <= i <= |selection|
      invariant kept == Kept(selection[..i])
      invariant emitted == RejectionNotices(selection[..i], language)
    {
      var file := selection[i].file;
      if !ValidateFileSize(file, UploadLimitMB) {
        emitted := emitted + [Notice(SizeExceeded(file.name), language)];
      } else if !ValidateFileType(file) {
        emitted := emitted + [Notice(TypeNotAllowed(file.name), language)];
      } else {
        kept := kept + [selection[i]];
      }
      assert selection[..i + 1][..i] == selection[..i];
      i := i + 1;
    }
    assert selection[..i] == selection;
  }

  /** The sanitizing step of `handleFileUpload`: stops at the first file
      whose pipeline fails. */
  method SanitizeSelection(kept: seq<Selected>) returns (r: Result<seq<Attachment>, StripError>)
    ensures r == SanitizeAll(kept)
  {
    var processed: seq<Attachment> := [];
    var j := 0;
    while j < |kept|
      invariant 0 <= j <= |kept|
      invariant SanitizeAll(kept[..j]) == Ok(processed)
    {
      var stripped := StripMetadata(kept[j].file, kept[j].image);
      assert kept[..j + 1][..j] == kept[..j];
      if stripped.Err? {
        SanitizeAllFirstError(kept, j + 1);
        return Err(stripped.error);
      }
      processed := processed + [ToAttachment(kept[j], stripped.value)];
      j := j + 1;
    }
    assert kept[..j] == kept;
    return Ok(processed);
  }

  /** The encoding step of `handleSubmit`: stops at the first attachment
      that fails to encode. */
  method EncodeAttachments(attachments: seq<Attachment>, reader: File -> ReadOutcome)
    returns (r: Result<seq<EncodedAttachment>, EncodeError>)
    ensures r == EncodeAll(attachments, reader)
  {
    var encoded: seq<EncodedAttachment> := [];
    var i := 0;
    while i < |attachments|
      invariant 0 <= i <= |attachments|
      invariant EncodeAll(attachments[..i], reader) == Ok(encoded)
    {
      var item := attachments[i];
      assert attachments[..i + 1][..i] == attachments[..i];
      match FileToBase64(Some(item.file), reader(item.file)) {
        case Err(e) =>
          EncodeAllFirstError(attachments, reader, i + 1);
          return Err(e);
        case Ok(content) =>
          encoded := encoded + [EncodedAttachment(item.name, content, item.mediaType)];
      }
      i := i + 1;
    }
    assert attachments[..i] == attachments;
    return Ok(encoded);
  }

  // ---------------------------------------------------------------------
  // The controller
  // ---------------------------------------------------------------------

  class ReportController {
    var language: Language
    var form: FormData
    var attachments: seq<Attachment>
    var uploading: bool
    var submitting: bool
    /** The value of the file input element. */
    var fileInputValue: string
    /** Every toast shown, oldest first. */
    var notices: seq<Notice>
    /** Every report request posted, oldest first. */
    var requests: seq<Payload>

    /** The submit button is disabled (src/components/ReportForm.tsx). */
    predicate SubmitDisabled()
      reads this
    {
      uploading || submitting
    }

    /** Between handlers both busy flags are down and every staged record
        passed the intake checks. */
    predicate Valid()
      reads this
    {
      !uploading && !submitting && AllStaged(attachments)
    }

    /** The state of a freshly loaded page. */
    constructor ()
      ensures language == En && form == EmptyForm && attachments == []
      ensures !uploading && !submitting && !SubmitDisabled()
      ensures fileInputValue == "" && notices == [] && requests == []
      ensures Valid()
    {
      language := En;
      form := EmptyForm;
      attachments := [];
      uploading, submitting := false, false;
      fileInputValue := "";
      notices, requests := [], [];
    }

    /** `toggleLanguage`. */
    method ToggleLanguage()
      requires Valid()
      modifies this
      ensures Valid()
      ensures language == (if old(language) == En then Ar else En)
      ensures form == old(form) && attachments == old(attachments)
      ensures uploading == old(uploading) && submitting == old(submitting)
      ensures fileInputValue == old(fileInputValue) && notices == old(notices) && requests == old(requests)
    {
      language := if language == En then Ar else En;
    }

    /** `handleInputChange`: only the named input changes. */
    method HandleInputChange(field: Field, value: string)
      requires Valid()
      modifies this
      ensures Valid()
      ensures form.Get(field) == value
      ensures forall other :: other != field ==> form.Get(other) == old(form).Get(other)
      ensures language == old(language) && attachments == old(attachments)
      ensures uploading == old(uploading) && submitting == old(submitting)
      ensures fileInputValue == old(fileInputValue) && notices == old(notices) && requests == old(requests)
    {
      form := form.With(field, value);
    }

    /** `handleFileUpload`: filter, sanitize all or nothing, append. */
    method HandleFileUpload(selection: seq<Selected>)
      requires Valid()
      modifies this
      ensures Valid()
      ensures SanitizeAll(Kept(selection)).Ok? ==>
        attachments == old(attachments) + SanitizeAll(Kept(selection)).value
        && notices == old(notices) + RejectionNotices(selection, language)
      ensures SanitizeAll(Kept(selection)).Err? ==>
        attachments == old(attachments)
        && notices == old(notices) + RejectionNotices(selection, language) + [Notice(ProcessingFailed, language)]
      ensures !uploading && fileInputValue == ""
      ensures language == old(language) && form == old(form) && submitting == old(submitting)
      ensures requests == old(requests)
    {
      uploading := true;
      var kept, emitted := FilterSelection(selection, language);
      notices := notices + emitted;
      var sanitized := SanitizeSelection(kept);
      match sanitized {
        case Ok(records) =>
          IntakeKeepsStaged(attachments, selection);
          attachments := attachments + records;
        case Err(_) =>
          notices := notices + [Notice(ProcessingFailed, language)];
      }
      uploading := false;
      fileInputValue := "";
    }

    /** `removeAttachment(id)`. */
    method RemoveAttachment(id: string)
      requires Valid()
      modifies this
      ensures Valid()
      ensures attachments == RemoveById(old(attachments), id)
      ensures language == old(language) && form == old(form)
      ensures uploading == old(uploading) && submitting == old(submitting)
      ensures fileInputValue == old(fileInputValue) && notices == old(notices) && requests == old(requests)
    {
      RemovalKeepsStaged(attachments, id);
      attachments := RemoveById(attachments, id);
    }

    /** `handleSubmit`: site guard, encode, post, then reset on success or
      keep everything on failure. */
    method HandleSubmit(reader: File -> ReadOutcome, response: Response)
      requires Valid()
      modifies this
      ensures Valid()
      ensures old(form).site == "" ==>
        notices == old(notices) + [Notice(SiteMissing, language)]
        && form == old(form) && attachments == old(attachments) && requests == old(requests)
      ensures old(form).site != "" ==>
        requests == old(requests) + (match EncodeAll(old(attachments), reader)
          case Ok(encoded) => [BuildPayload(old(form), language, encoded)]
          case Err(_) => [])
      ensures old(form).site != "" && SubmissionError(old(attachments), reader, response).None? ==>
        form == EmptyForm && attachments == [] && notices == old(notices) + [Notice(Submitted, language)]
      ensures old(form).site != "" && SubmissionError(old(attachments), reader, response).Some? ==>
        form == old(form) && attachments == old(attachments)
        && notices == old(notices) + [Notice(SubmitFailed(SubmissionError(old(attachments), reader, response).value), language)]
      ensures !submitting
      ensures uploading == old(uploading) && language == old(language)
      ensures fileInputValue == old(fileInputValue)
    {
      if form.site == "" {
        notices := notices + [Notice(SiteMissing, language)];
        return;
      }

      submitting := true;
      var error := Send(reader, response);
      Settle(error);
      submitting := false;
    }

    /** The middle of `handleSubmit`: encode every attachment, post the
        payload when all of them encode, and report the outcome. */
    method Send(reader: File -> ReadOutcome, response: Response) returns (error: Option<string>)
      modifies this
      ensures requests == old(requests) + (match EncodeAll(attachments, reader)
        case Ok(encoded) => [BuildPayload(form, language, encoded)]
        case Err(_) => [])
      ensures error == SubmissionError(attachments, reader, response)
      ensures form == old(form) && attachments == old(attachments) && language == old(language)
      ensures notices == old(notices) && uploading == old(uploading) && submitting == old(submitting)
      ensures fileInputValue == old(fileInputValue)
    {
      var encoded := EncodeAttachments(attachments, reader);
      match encoded {
        case Err(e) =>
          error := Some(e.Message());
        case Ok(entries) =>
          requests := requests + [BuildPayload(form, language, entries)];
          error := ResponseError(response);
      }
    }

    /** The end of `handleSubmit`: on success a confirmation, an empty form
        and no attachments; on failure an error toast and nothing else. */
    method Settle(error: Option<string>)
      modifies this
      ensures error.None? ==>
        form == EmptyForm && attachments == [] && notices == old(notices) + [Notice(Submitted, language)]
      ensures error.Some? ==>
        form == old(form) && attachments == old(attachments)
        && notices == old(notices) + [Notice(SubmitFailed(error.value), language)]
      ensures language == old(language) && uploading == old(uploading) && submitting == old(submitting)
      ensures fileInputValue == old(fileInputValue) && requests == old(requests)
    {
      match error {
        case None =>
          notices := notices + [Notice(Submitted, language)];
          form := EmptyForm;
          attachments := [];
        case Some(message) =>
          notices := notices + [Notice(SubmitFailed(message), language)];
      }
    }
  }
}
