/** The static directories of src/constants/data.ts: site and department
    names per language, and the department mailboxes. */
module Directory {
  import opened Wrappers
  import opened Types

  /** A `Site` or `Department`: an id and its display name. */
  datatype Entry = Entry(id: string, name: string)

  const SitesEn: seq<Entry> := [
    Entry("riyadh", "Riyadh HQ"),
    Entry("jeddah", "Jeddah"),
    Entry("dammam", "Dammam"),
    Entry("khasm", "Khasm Alan"),
    Entry("taif", "Taif"),
    Entry("qassim", "Qassim"),
    Entry("hofuf", "Hofuf"),
    Entry("medina", "Medina")
  ]

  const SitesAr: seq<Entry> := [
    Entry("riyadh", "الرياض - المركز الرئيسي"),
    Entry("jeddah", "جدة"),
    Entry("dammam", "الدمام"),
    Entry("khasm", "خشم العان"),
    Entry("taif", "الطائف"),
    Entry("qassim", "القصيم"),
    Entry("hofuf", "الهفوف"),
    Entry("medina", "المدينة المنورة")
  ]

  const DepartmentsEn: seq<Entry> := [
    Entry("hr", "Human Resources"),
    Entry("finance", "Finance"),
    Entry("it", "Information Technology"),
    Entry("compliance", "Contracts & Compliance"),
    Entry("project", "Project Management"),
    Entry("other", "Other")
  ]

  const DepartmentsAr: seq<Entry> := [
    Entry("hr", "الموارد البشرية"),
    Entry("finance", "المالية"),
    Entry("it", "تقنية المعلومات"),
    Entry("compliance", "العقود والامتثال"),
    Entry("project", "إدارة المشاريع"),
    Entry("other", "أخرى")
  ]

  /** `sites[language]`. */
  function Sites(language: Language): seq<Entry>
  {
    match language
    case En => SitesEn
    case Ar => SitesAr
  }

  /** `departments[language]`. */
  function Departments(language: Language): seq<Entry>
  {
    match language
    case En => DepartmentsEn
    case Ar => DepartmentsAr
  }

  /** The address used when a department has no mailbox of its own. */
  const DefaultRecipient: string := "salshaiban@alkhorayef.com"

  /** `departmentEmails`. */
  const DepartmentEmails: map<string, string> := map[
    "hr" := "salshaiban@alkhorayef.com",
    "finance" := "salshaiban@alkhorayef.com",
    "it" := "salshaiban@alkhorayef.com",
    "compliance" := "salshaiban@alkhorayef.com",
    "other" := "salshaiban@alkhorayef.com",
    "project" := "salshaiban@alkhorayef.com"
  ]

  /** The ids of a list, in order. */
  function Ids(entries: seq<Entry>): (ids: seq<string>)
    ensures |ids| == |entries|
    ensures forall k :: 0 <= k < |entries| ==> ids[k] == entries[k].id
  {
    if entries == [] then [] else [entries[0].id] + Ids(entries[1..])
  }

  /** No two entries of the list share an id. */
  predicate UniqueIds(entries: seq<Entry>)
  {
    forall i, j :: 0 <= i < j < |entries| ==> entries[i].id != entries[j].id
  }

  /** `entries.find(e => e.id === id)?.name`: the name of the first entry
      with that id, or None (`undefined`). */
  function Find(entries: seq<Entry>, id: string): Option<string>
  {
    if entries == [] then None
    else if entries[0].id == id then Some(entries[0].name)
    else Find(entries[1..], id)
  }

  /** Find yields nothing exactly when no entry has the id, and a name it
      yields belongs to an entry with that id. */
  lemma {:induction false} FindMeaning(entries: seq<Entry>, id: string)
    ensures Find(entries, id).None? <==> id !in Ids(entries)
    ensures Find(entries, id).Some? ==> Entry(id, Find(entries, id).value) in entries
  {
    if entries != [] {
      FindMeaning(entries[1..], id);
      assert Ids(entries) == [entries[0].id] + Ids(entries[1..]);
    }
  }

  /** Find answers with the first entry that has the id: no earlier entry
      has it. */
  lemma {:induction false} FindFirstMatch(entries: seq<Entry>, id: string)
    ensures Find(entries, id).Some? ==>
      exists k :: 0 <= k < |entries| && entries[k].id == id && Find(entries, id).value == entries[k].name
        && forall j :: 0 <= j < k ==> entries[j].id != id
  {
    if entries != [] && entries[0].id != id && Find(entries, id).Some? {
      FindFirstMatch(entries[1..], id);
      var k :| 0 <= k < |entries[1..]| && entries[1..][k].id == id && Find(entries[1..], id).value == entries[1..][k].name
        && forall j :: 0 <= j < k ==> entries[1..][j].id != id;
      assert entries[k + 1] == entries[1..][k];
      forall j | 0 <= j < k + 1
        ensures entries[j].id != id
      {
        if j > 0 {
          assert entries[j] == entries[1..][j - 1];
        }
      }
    }
  }

  /** `entries.find(e => e.id === id)?.name || fallback`. */
  function FindNameOr(entries: seq<Entry>, id: string, fallback: string): string
  {
    match Find(entries, id)
    case Some(n) => if n != "" then n else fallback
    case None => fallback
  }

  /** In a list with unique ids, find returns the name of the one entry
      with that id. */
  lemma {:induction false} FindUnique(entries: seq<Entry>, k: nat)
    requires UniqueIds(entries)
    requires k < |entries|
    ensures Find(entries, entries[k].id) == Some(entries[k].name)
  {
    if k > 0 {
      assert entries[0].id != entries[k].id;
      FindUnique(entries[1..], k - 1);
    }
  }

  /** Both languages list the same eight sites, in the same order. */
  lemma SitesAligned()
    ensures |SitesEn| == |SitesAr| == 8
    ensures Ids(SitesEn) == Ids(SitesAr)
  {
  }

  /** Both languages list the same six departments, in the same order. */
  lemma DepartmentsAligned()
    ensures |DepartmentsEn| == |DepartmentsAr| == 6
    ensures Ids(DepartmentsEn) == Ids(DepartmentsAr)
  {
  }

  /** Ids are unique in every list, so a lookup has at most one match. */
  lemma DirectoriesHaveUniqueIds()
    ensures UniqueIds(SitesEn) && UniqueIds(SitesAr)
    ensures UniqueIds(DepartmentsEn) && UniqueIds(DepartmentsAr)
  {
    assert UniqueIds(SitesEn);
    assert UniqueIds(DepartmentsEn);
    SitesAligned();
    DepartmentsAligned();
    SameIdsSameUniqueness(SitesEn, SitesAr);
    SameIdsSameUniqueness(DepartmentsEn, DepartmentsAr);
  }

  /** Uniqueness depends on the ids alone. */
  lemma SameIdsSameUniqueness(a: seq<Entry>, b: seq<Entry>)
    requires Ids(a) == Ids(b)
    requires UniqueIds(a)
    ensures UniqueIds(b)
  {
    forall i, j | 0 <= i < j < |b|
      ensures b[i].id != b[j].id
    {
      assert b[i].id == Ids(b)[i] == Ids(a)[i] == a[i].id;
      assert b[j].id == Ids(b)[j] == Ids(a)[j] == a[j].id;
    }
  }

  /** Whether an id is known does not depend on the language. */
  lemma LookupLanguageIndependent(id: string)
    ensures Find(Sites(En), id).Some? <==> Find(Sites(Ar), id).Some?
    ensures Find(Departments(En), id).Some? <==> Find(Departments(Ar), id).Some?
  {
    SitesAligned();
    DepartmentsAligned();
    FindMeaning(Sites(En), id);
    FindMeaning(Sites(Ar), id);
    FindMeaning(Departments(En), id);
    FindMeaning(Departments(Ar), id);
  }

  /** The mailbox table has exactly the department ids as keys. */
  lemma MailboxesCoverDepartments()
    ensures forall id :: id in DepartmentEmails <==> id in Ids(DepartmentsEn)
  {
    DepartmentIds();
  }

  /** The department ids, in order. */
  lemma DepartmentIds()
    ensures Ids(DepartmentsEn) == ["hr", "finance", "it", "compliance", "project", "other"]
  {
  }

  /** The unset department (the empty id) has no mailbox. */
  lemma EmptyDepartmentHasNoMailbox()
    ensures "" !in DepartmentEmails
  {
  }

  /** The empty id is not the id of any entry of the list. */
  lemma EmptyIdAbsent(entries: seq<Entry>)
    requires forall k :: 0 <= k < |entries| ==> entries[k].id != ""
    ensures Find(entries, "") == None
  {
    FindMeaning(entries, "");
    assert "" !in Ids(entries);
  }

  /** No entry of the directories has the empty id. */
  lemma IdsAreNonEmpty(language: Language)
    ensures forall k :: 0 <= k < |Sites(language)| ==> Sites(language)[k].id != ""
    ensures forall k :: 0 <= k < |Departments(language)| ==> Departments(language)[k].id != ""
  {
  }

  /** Every site has a non-empty display name. */
  lemma SiteNamesNonEmpty(language: Language, k: nat)
    requires k < |Sites(language)|
    ensures Sites(language)[k].name != ""
  {
  }

  /** Every department has a non-empty display name. */
  lemma DepartmentNamesNonEmpty(language: Language, k: nat)
    requires k < |Departments(language)|
    ensures Departments(language)[k].name != ""
  {
  }

  /** The empty id names no site and no department, in either language. */
  lemma EmptyIdUnknown(language: Language)
    ensures Find(Departments(language), "") == None
    ensures Find(Sites(language), "") == None
  {
    IdsAreNonEmpty(language);
    EmptyIdAbsent(Sites(language));
    EmptyIdAbsent(Departments(language));
  }

  /** Every mailbox in the table is the default address. */
  lemma AllMailboxesAreDefault()
    ensures forall id :: id in DepartmentEmails ==> DepartmentEmails[id] == DefaultRecipient
  {
  }
}
