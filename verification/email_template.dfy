/** The field resolution of src/utils/emailTemplate.js: the subject line
    and the values the HTML body shows. The HTML and CSS text around those
    values, and the received-at timestamp, are not modelled. The module's
    own copy of the site and department tables is identical to the one in
    src/constants/data.ts, so the Directory tables serve both. */
module EmailTemplate {
  import opened Wrappers
  import opened Strings
  import opened Types
  import opened Directory

  const SubjectPrefixEn: string := "[CONFIDENTIAL] Whistleblower Report - "
  const SubjectPrefixAr: string := "[سري] بلاغ المبلغين عن المخالفات - "

  /** The subject prefix `getEmailSubject` uses for a language. */
  function SubjectPrefix(language: Language): string
  {
    if language == En then SubjectPrefixEn else SubjectPrefixAr
  }

  /** `getEmailSubject(departmentId, language = 'en')`. */
  function EmailSubject(departmentId: string, language: Language := En): (subject: string)
    ensures StartsWith(subject, SubjectPrefix(language))
  {
    var deptName := match Find(Departments(language), departmentId)
      case Some(n) => n
      case None => "General";
    SubjectPrefix(language) + deptName
  }

  /** A listed department is named in the subject in the chosen language;
      any other id, the empty one included, gives 'General'. */
  lemma {:induction false} SubjectNamesDepartment(departmentId: string, language: Language)
    ensures forall k :: 0 <= k < |Departments(language)| && Departments(language)[k].id == departmentId ==>
      EmailSubject(departmentId, language) == SubjectPrefix(language) + Departments(language)[k].name
    ensures departmentId !in Ids(Departments(language)) ==>
      EmailSubject(departmentId, language) == SubjectPrefix(language) + "General"
  {
    DirectoriesHaveUniqueIds();
    FindMeaning(Departments(language), departmentId);
    forall k | 0 <= k < |Departments(language)| && Departments(language)[k].id == departmentId
      ensures EmailSubject(departmentId, language) == SubjectPrefix(language) + Departments(language)[k].name
    {
      FindUnique(Departments(language), k);
    }
  }

  /** An unset department gives the 'General' subject. */
  lemma EmptyDepartmentSubject(language: Language)
    ensures EmailSubject("", language) == SubjectPrefix(language) + "General"
  {
    EmptyIdUnknown(language);
  }

  /** Which of the two templates `generateEmailBody` returns. */
  datatype BodyTemplate = EnglishLtr | ArabicRtl

  /** The values the body shows, in the order the template shows them. */
  datatype BodyFields = BodyFields(
    template: BodyTemplate,
    departmentName: string,
    siteName: string,
    name: string,
    email: string,
    message: string)

  /** 'Not specified' / 'غير محدد'. */
  function SiteFallback(language: Language): string
  {
    if language == Ar then "غير محدد" else "Not specified"
  }

  /** 'Unspecified' / 'غير محدد'. */
  function DepartmentFallback(language: Language): string
  {
    if language == Ar then "غير محدد" else "Unspecified"
  }

  /** 'Anonymous' / 'مجهول'. */
  function AnonymousName(language: Language): string
  {
    if language == Ar then "مجهول" else "Anonymous"
  }

  /** 'Not provided' / 'غير مقدم'. */
  function EmailNotProvided(language: Language): string
  {
    if language == Ar then "غير مقدم" else "Not provided"
  }

  /** `generateEmailBody(formData, language = 'en')`, its resolved values. */
  function EmailBodyFields(form: FormData, language: Language := En): (body: BodyFields)
    ensures body.message == form.message
    ensures body.template == ArabicRtl <==> language == Ar
  {
    var siteName :=
      if form.site != "" then FindNameOr(Sites(language), form.site, SiteFallback(language))
      else SiteFallback(language);
    BodyFields(
      if language == Ar then ArabicRtl else EnglishLtr,
      FindNameOr(Departments(language), form.department, DepartmentFallback(language)),
      siteName,
      Or(form.name, AnonymousName(language)),
      Or(form.email, EmailNotProvided(language)),
      form.message)
  }

  /** The body names a listed site in the chosen language, and shows
      'Not specified' / 'غير محدد' for an empty or unknown site. */
  lemma BodySiteName(form: FormData, language: Language)
    ensures forall k :: 0 <= k < |Sites(language)| && Sites(language)[k].id == form.site ==>
      EmailBodyFields(form, language).siteName == Sites(language)[k].name
    ensures form.site !in Ids(Sites(language)) ==>
      EmailBodyFields(form, language).siteName == SiteFallback(language)
  {
    DirectoriesHaveUniqueIds();
    EmptyIdUnknown(language);
    FindMeaning(Sites(language), form.site);
    forall k | 0 <= k < |Sites(language)| && Sites(language)[k].id == form.site
      ensures EmailBodyFields(form, language).siteName == Sites(language)[k].name
    {
      FindUnique(Sites(language), k);
      SiteNamesNonEmpty(language, k);
    }
  }

  /** The body names a listed department in the chosen language, and shows
      'Unspecified' in English and 'غير محدد' in Arabic otherwise. */
  lemma BodyDepartmentName(form: FormData, language: Language)
    ensures forall k :: 0 <= k < |Departments(language)| && Departments(language)[k].id == form.department ==>
      EmailBodyFields(form, language).departmentName == Departments(language)[k].name
    ensures form.department !in Ids(Departments(language)) ==>
      EmailBodyFields(form, language).departmentName == DepartmentFallback(language)
  {
    DirectoriesHaveUniqueIds();
    FindMeaning(Departments(language), form.department);
    forall k | 0 <= k < |Departments(language)| && Departments(language)[k].id == form.department
      ensures EmailBodyFields(form, language).departmentName == Departments(language)[k].name
    {
      FindUnique(Departments(language), k);
      DepartmentNamesNonEmpty(language, k);
    }
  }

  /** A blank name or email is shown as 'Anonymous' / 'Not provided' in
      English and 'مجهول' / 'غير مقدم' in Arabic; a given one verbatim. */
  lemma BodyIdentityFallbacks(form: FormData, language: Language)
    ensures form.name == "" ==> EmailBodyFields(form, language).name == (if language == Ar then "مجهول" else "Anonymous")
    ensures form.name != "" ==> EmailBodyFields(form, language).name == form.name
    ensures form.email == "" ==> EmailBodyFields(form, language).email == (if language == Ar then "غير مقدم" else "Not provided")
    ensures form.email != "" ==> EmailBodyFields(form, language).email == form.email
  {
  }
}
