/** `CompanyService.CreateCompany`: validates a company request against the request itself and
    the store, in a fixed order, and on success saves the company with its employees inside a
    transaction. */
module CompanyServices {
  import opened Optional
  import opened Linq
  import opened Entities
  import opened Dto
  import opened Errors
  import opened ResultOrErrors
  import opened Repository

  /** `string.IsNullOrEmpty`. */
  predicate IsNullOrEmpty(s: Option<string>) {
    s.None? || s.value == ""
  }

  /** The employee entries of a request; a missing list has none. */
  function Entries(req: CreateCompanyDto): seq<EmployeeInCreateCompanyDto> {
    req.employees.GetOr([])
  }

  /** An entry that neither refers to an employee nor gives an email. */
  predicate MissingEmail(e: EmployeeInCreateCompanyDto) {
    e.id.None? && IsNullOrEmpty(e.email)
  }

  /** An entry that refers to an employee and also carries data for a new one. */
  predicate IdWithData(e: EmployeeInCreateCompanyDto) {
    e.id.Some? && (!IsNullOrEmpty(e.email) || e.title.Some?)
  }

  /** An entry describing an employee to be created: both email and title are given. */
  predicate DescribesNewEmployee(e: EmployeeInCreateCompanyDto) {
    e.email.Some? && e.title.Some?
  }

  /** An entry referring to an existing employee. */
  predicate RefersToEmployee(e: EmployeeInCreateCompanyDto) {
    e.id.Some?
  }

  function EntryEmail(e: EmployeeInCreateCompanyDto): string { e.email.GetOr("") }
  function EntryTitle(e: EmployeeInCreateCompanyDto): EmployeeTitle { e.title.GetOr(Developer) }
  function EntryId(e: EmployeeInCreateCompanyDto): int { e.id.GetOr(0) }
  function TitleOf(e: Employee): EmployeeTitle { e.title }
  function EmailOf(e: Employee): string { e.email }

  /** The checks on the request alone, in their order; the first that fails decides the error. */
  function RequestError(req: CreateCompanyDto): (r: Option<Error>)
    ensures req.name == "" ==> r == Some(UniqueIdentifierCannotBeNullOrEmpty(NameKey))
    ensures req.name != "" && (exists i :: 0 <= i < |Entries(req)| && MissingEmail(Entries(req)[i])) ==>
              r == Some(UniqueIdentifierCannotBeNullOrEmpty(EmployeesEmailKey))
    ensures req.name != "" && (forall i :: 0 <= i < |Entries(req)| ==> !MissingEmail(Entries(req)[i])) ==>
              (r == Some(CannotCreateEmployeeWithId) <==> exists i :: 0 <= i < |Entries(req)| && IdWithData(Entries(req)[i]))
    ensures r.None? <==>
              req.name != "" && forall i :: 0 <= i < |Entries(req)| ==> !MissingEmail(Entries(req)[i]) && !IdWithData(Entries(req)[i])
  {
    if req.name == "" then Some(UniqueIdentifierCannotBeNullOrEmpty(NameKey))
    else if Any(Entries(req), MissingEmail) then Some(UniqueIdentifierCannotBeNullOrEmpty(EmployeesEmailKey))
    else if Any(Entries(req), IdWithData) then Some(CannotCreateEmployeeWithId)
    else None
  }

  /** The entries of employees to be created. */
  function EntriesToCreate(req: CreateCompanyDto): seq<EmployeeInCreateCompanyDto> {
    Where(Entries(req), DescribesNewEmployee)
  }

  /** The emails of the employees to be created. */
  function NewEmails(req: CreateCompanyDto): seq<string> {
    Select(EntriesToCreate(req), EntryEmail)
  }

  /** The ids of the employees the request refers to. */
  function RequestedIds(req: CreateCompanyDto): seq<int> {
    Select(Where(Entries(req), RefersToEmployee), EntryId)
  }

  /** The employees to be created, as new entities. */
  function NewMembers(req: CreateCompanyDto, now: Timestamp): seq<Employee> {
    Select(EntriesToCreate(req), (e: EmployeeInCreateCompanyDto) => NewEmployee(EntryTitle(e), EntryEmail(e), now))
  }

  /** The stored employees the request refers to, in table order. */
  function Referenced(s: StoreState, req: CreateCompanyDto): seq<Employee> {
    Where(s.employees, EmployeeIdIn(RequestedIds(req)))
  }

  /** Everyone the new company is to employ: the referenced employees, then the new ones. */
  function Members(s: StoreState, req: CreateCompanyDto, now: Timestamp): seq<Employee> {
    Referenced(s, req) + NewMembers(req, now)
  }

  /** The titles of those members. */
  function MemberTitles(s: StoreState, req: CreateCompanyDto): seq<EmployeeTitle> {
    Select(Referenced(s, req), TitleOf) + Select(EntriesToCreate(req), EntryTitle)
  }

  /** The emails of those members. */
  function MemberEmails(s: StoreState, req: CreateCompanyDto): seq<string> {
    Select(Referenced(s, req), EmailOf) + NewEmails(req)
  }

  /** Every id the request refers to belongs to a stored employee, and none is repeated. */
  ghost predicate ReferencesResolve(s: StoreState, req: CreateCompanyDto) {
    && Distinct(RequestedIds(req))
    && forall id :: id in RequestedIds(req) ==> exists e :: e in s.employees && e.Id() == id
  }

  /** The outcome of the checks, stated over the store: the first failing check decides the
      error, and `None` means the company can be created. */
  ghost function CreationError(s: StoreState, req: CreateCompanyDto): Option<Error> {
    if RequestError(req).Some? then RequestError(req)
    else if exists c :: c in s.companies && c.name == req.name then Some(CompanyWithSameNameAlreadyExists)
    else if exists e :: e in s.employees && e.email in NewEmails(req) then
      Some(EmployeeWithSameEmailAlreadyExists(EmployeesEmailKey))
    else if !ReferencesResolve(s, req) then Some(EmployeeDoesNotExist)
    else MembersError(MemberTitles(s, req), MemberEmails(s, req))
  }

  /** The last two checks, over the titles and the emails of the members. */
  function MembersError(titles: seq<EmployeeTitle>, emails: seq<string>): Option<Error> {
    if !Distinct(titles) then Some(CannotCreateEmployeesWithSameTitleInCompany)
    else if !Distinct(emails) then Some(CannotCreateEmployeesWithSameEmail)
    else None
  }

  /** The save of a valid request. */
  function Creation(s: StoreState, req: CreateCompanyDto, now: Timestamp): CompanyInsertion {
    InsertCompany(s, NewCompany(req.name, now), Members(s, req, now))
  }

  /** The response for one employee of the saved company. */
  function EmployeeDtoOf(t: StoreState, e: Employee): EmployeeDto {
    EmployeeDto(e.Id(), e.audit.createdAt, e.title, e.email, Select(CompaniesOf(t, e.Id()), (c: Company) => c.Id()))
  }

  /** The response for the saved company. */
  function CompanyDtoOf(c: CompanyInsertion): CompanyDto {
    var t := c.state;
    CompanyDto(c.company.Id(), c.company.audit.createdAt, c.company.name,
      Select(c.members, (e: Employee) => EmployeeDtoOf(t, e)))
  }

  predicate IsDeveloper(e: Employee) { e.title == Developer }
  predicate IsManager(e: Employee) { e.title == Manager }
  predicate IsTester(e: Employee) { e.title == Tester }

  /** The title check as the workflow runs it: some title is counted more than once. */
  function HasDuplicateTitles(es: seq<Employee>): bool {
    Count(es, IsDeveloper) > 1 || Count(es, IsManager) > 1 || Count(es, IsTester) > 1
  }

  /** Counting each of the three titles finds a repetition exactly when two employees share a
      title. */
  lemma DuplicateTitlesIffShared(es: seq<Employee>)
    ensures HasDuplicateTitles(es) <==> exists i, j :: 0 <= i < j < |es| && es[i].title == es[j].title
  {
    CountAboveOne(es, IsDeveloper);
    CountAboveOne(es, IsManager);
    CountAboveOne(es, IsTester);
    if exists i, j :: 0 <= i < j < |es| && es[i].title == es[j].title {
      var i, j :| 0 <= i < j < |es| && es[i].title == es[j].title;
      match es[i].title
      case Developer => assert IsDeveloper(es[i]) && IsDeveloper(es[j]);
      case Manager => assert IsManager(es[i]) && IsManager(es[j]);
      case Tester => assert IsTester(es[i]) && IsTester(es[j]);
    }
  }

  /** The email check as the workflow runs it: `DistinctBy` on the email drops someone. */
  function HasDuplicateEmails(es: seq<Employee>): bool {
    |DistinctBy(es, EmailOf)| != |es|
  }

  /** That check finds a repetition exactly when two employees share an email. */
  lemma DuplicateEmailsIffShared(es: seq<Employee>)
    ensures HasDuplicateEmails(es) <==> exists i, j :: 0 <= i < j < |es| && es[i].email == es[j].email
  {
    DistinctByKeepsAll(es, EmailOf);
  }

  /** The members line up with their titles and emails. */
  lemma MembersShape(s: StoreState, req: CreateCompanyDto, now: Timestamp)
    ensures var ms := Members(s, req, now);
      && |ms| == |MemberTitles(s, req)| == |MemberEmails(s, req)| == |Referenced(s, req)| + |EntriesToCreate(req)|
      && forall i :: 0 <= i < |ms| ==> ms[i].title == MemberTitles(s, req)[i] && ms[i].email == MemberEmails(s, req)[i]
  {
    var ms, ref, added := Members(s, req, now), Referenced(s, req), NewMembers(req, now);
    var ts, es := MemberTitles(s, req), MemberEmails(s, req);
    assert |added| == |EntriesToCreate(req)|;
    forall i | 0 <= i < |ms| ensures ms[i].title == ts[i] && ms[i].email == es[i] {
      if i < |ref| {
        assert ms[i] == ref[i];
        assert ts[i] == TitleOf(ref[i]);
        assert es[i] == EmailOf(ref[i]);
      } else {
        var k := i - |ref|;
        assert ms[i] == added[k];
        assert ts[i] == EntryTitle(EntriesToCreate(req)[k]);
        assert es[i] == NewEmails(req)[k];
      }
    }
  }

  /** The referenced members come first and are stored rows; the others are unsaved. */
  lemma MembersOrigin(s: StoreState, req: CreateCompanyDto, now: Timestamp)
    ensures var ms, ref := Members(s, req, now), Referenced(s, req);
      && (forall i :: 0 <= i < |ref| ==> ms[i] == ref[i] && ms[i] in s.employees)
      && (forall i :: |ref| <= i < |ms| ==>
            ms[i].Id() == UnsavedId && ms[i].audit.createdAt == now && ms[i].email == NewEmails(req)[i - |ref|])
  {
    var ms, ref, added := Members(s, req, now), Referenced(s, req), NewMembers(req, now);
    forall i | 0 <= i < |ref| ensures ms[i] == ref[i] && ms[i] in s.employees {
      assert ref[i] in multiset(ref);
    }
    forall i | |ref| <= i < |ms|
      ensures ms[i].Id() == UnsavedId && ms[i].audit.createdAt == now && ms[i].email == NewEmails(req)[i - |ref|]
    {
      assert ms[i] == added[i - |ref|];
    }
  }

  /** Distinct titles allow at most three employees. */
  lemma DistinctTitlesAtMostThree(ts: seq<EmployeeTitle>)
    requires Distinct(ts)
    ensures |ts| <= 3
  {
    if |ts| > 3 {
      FourTitlesRepeat(ts[0], ts[1], ts[2], ts[3]);
    }
  }

  /** There are three titles, so among any four two coincide. */
  lemma FourTitlesRepeat(a: EmployeeTitle, b: EmployeeTitle, c: EmployeeTitle, d: EmployeeTitle)
    ensures a == b || a == c || a == d || b == c || b == d || c == d
  {
  }

  /** The title check the workflow runs is the declarative one. */
  lemma TitleCheck(s: StoreState, req: CreateCompanyDto, now: Timestamp)
    ensures HasDuplicateTitles(Members(s, req, now)) <==> !Distinct(MemberTitles(s, req))
  {
    DuplicateTitlesIffShared(Members(s, req, now));
    MembersShape(s, req, now);
  }

  /** The email check the workflow runs is the declarative one. */
  lemma EmailCheck(s: StoreState, req: CreateCompanyDto, now: Timestamp)
    ensures HasDuplicateEmails(Members(s, req, now)) <==> !Distinct(MemberEmails(s, req))
  {
    DuplicateEmailsIffShared(Members(s, req, now));
    MembersShape(s, req, now);
  }

  /** The members that already have an id are stored rows; those without one are the employees
      to be created, so their emails are the request's new emails. */
  lemma MembersClassified(s: StoreState, req: CreateCompanyDto, now: Timestamp)
    requires WellFormed(s)
    ensures forall m :: m in Members(s, req, now) && m.Id() != UnsavedId ==> TrackedEmployee(s, m)
    ensures forall m :: m in Members(s, req, now) && m.Id() == UnsavedId ==> m.email in NewEmails(req)
  {
    var ms, ref := Members(s, req, now), Referenced(s, req);
    StoredRowsTracked(s);
    MembersOrigin(s, req, now);
    forall m | m in ms
      ensures (m.Id() != UnsavedId ==> TrackedEmployee(s, m)) && (m.Id() == UnsavedId ==> m.email in NewEmails(req))
    {
      var i :| 0 <= i < |ms| && ms[i] == m;
      if i < |ref| {
        assert TrackedEmployee(s, m);
      }
    }
  }

  /** Saving a request that passes every check keeps the unique indexes and the one-title-per-
      company rule. */
  lemma CreationKeepsInvariants(s: StoreState, req: CreateCompanyDto, now: Timestamp)
    requires TitlesUniquePerCompany(s)
    requires CreationError(s, req).None?
    ensures UniqueIndexes(Creation(s, req, now).state)
    ensures TitlesUniquePerCompany(Creation(s, req, now).state)
  {
    var ms := Members(s, req, now);
    MembersShape(s, req, now);
    MembersClassified(s, req, now);
    InsertCompanyUniqueIndexes(s, NewCompany(req.name, now), ms);
    InsertCompanyKeepsTitlesUnique(s, NewCompany(req.name, now), ms);
  }

  /** Once the request, the name, the new emails and the references have passed, the error is
      decided by the members' titles and then their emails. */
  lemma CreationErrorOfMembers(s: StoreState, req: CreateCompanyDto)
    requires RequestError(req).None?
    requires forall c :: c in s.companies ==> c.name != req.name
    requires forall e :: e in s.employees ==> e.email !in NewEmails(req)
    requires ReferencesResolve(s, req)
    ensures !Distinct(MemberTitles(s, req)) ==> CreationError(s, req) == Some(CannotCreateEmployeesWithSameTitleInCompany)
    ensures Distinct(MemberTitles(s, req)) && !Distinct(MemberEmails(s, req)) ==>
              CreationError(s, req) == Some(CannotCreateEmployeesWithSameEmail)
    ensures CreationError(s, req).None? <==> Distinct(MemberTitles(s, req)) && Distinct(MemberEmails(s, req))
  {
    assert !exists c :: c in s.companies && c.name == req.name;
    assert !exists e :: e in s.employees && e.email in NewEmails(req);
    assert CreationError(s, req) == MembersError(MemberTitles(s, req), MemberEmails(s, req));
  }

  /** The unsaved members of the company are exactly the employees the request creates. */
  lemma UnsavedMembersAreNew(s: StoreState, req: CreateCompanyDto, now: Timestamp)
    requires IdsArePositions(s)
    ensures Where(Members(s, req, now), Unsaved) == NewMembers(req, now)
  {
    var ref, added := Referenced(s, req), NewMembers(req, now);
    WhereConcat(ref, added, Unsaved);
    ReferencedAreSaved(s, req);
    WhereNone(ref, Unsaved);
    NewMembersAreUnsaved(req, now);
    WhereAll(added, Unsaved);
  }

  /** The employees a request refers to are stored rows, so they already have ids. */
  lemma ReferencedAreSaved(s: StoreState, req: CreateCompanyDto)
    requires IdsArePositions(s)
    ensures forall i :: 0 <= i < |Referenced(s, req)| ==> !Unsaved(Referenced(s, req)[i])
  {
    var ref := Referenced(s, req);
    forall i | 0 <= i < |ref| ensures !Unsaved(ref[i]) {
      assert ref[i] in multiset(ref);
      var j :| 0 <= j < |s.employees| && s.employees[j] == ref[i];
    }
  }

  /** The employees a request creates have no ids yet. */
  lemma NewMembersAreUnsaved(req: CreateCompanyDto, now: Timestamp)
    ensures forall i :: 0 <= i < |NewMembers(req, now)| ==> Unsaved(NewMembers(req, now)[i])
  {
  }

  /** A successful creation adds one company row, one employee row per employee to create,
      carrying its title and email and the creation time, in request order, and one membership
      row per member of the new company; the rows already stored stay as they were. */
  lemma CreationAddsNewEmployees(s: StoreState, req: CreateCompanyDto, now: Timestamp)
    requires IdsArePositions(s)
    ensures var c := Creation(s, req, now);
      var t, n, es := c.state, |s.employees|, EntriesToCreate(req);
      && t.companies == s.companies + [c.company]
      && |t.employees| == n + |es| && t.employees[..n] == s.employees
      && (forall k :: 0 <= k < |es| ==>
            && t.employees[n + k].title == EntryTitle(es[k])
            && t.employees[n + k].email == NewEmails(req)[k]
            && t.employees[n + k].audit.createdAt == now)
      && t.links == s.links + set m | m in c.members :: (|s.companies| + 1, m.Id())
  {
    var c, es := Creation(s, req, now), EntriesToCreate(req);
    UnsavedMembersAreNew(s, req, now);
    InsertCompanyAddsRows(s, NewCompany(req.name, now), Members(s, req, now));
    forall k | 0 <= k < |es|
      ensures NewMembers(req, now)[k] == NewEmployee(EntryTitle(es[k]), EntryEmail(es[k]), now)
      ensures NewEmails(req)[k] == EntryEmail(es[k])
    {
    }
  }

  /** The response of a successful creation: the new company's id, name and time, and one
      entry per member; there are at most three members. */
  lemma CreatedCompanyDto(s: StoreState, req: CreateCompanyDto, now: Timestamp)
    requires WellFormed(s)
    requires CreationError(s, req).None?
    ensures var d := CompanyDtoOf(Creation(s, req, now));
      && d.id == |s.companies| + 1 && d.name == req.name && d.createdAt == now
      && |d.employees| == |RequestedIds(req)| + |EntriesToCreate(req)| <= 3
  {
    MembersShape(s, req, now);
    LoadEmployeesByIds(s, RequestedIds(req));
    DistinctTitlesAtMostThree(MemberTitles(s, req));
  }

  /** Each employee entry of that response carries its member's title and email, and lists the
      new company among its companies. */
  lemma CreatedEmployeeDtos(s: StoreState, req: CreateCompanyDto, now: Timestamp)
    requires TitlesUniquePerCompany(s)
    requires CreationError(s, req).None?
    ensures var d := CompanyDtoOf(Creation(s, req, now));
      forall i :: 0 <= i < |d.employees| ==>
        && d.employees[i].title == MemberTitles(s, req)[i]
        && d.employees[i].email == MemberEmails(s, req)[i]
        && d.id in d.employees[i].companyIds
  {
    var c := Creation(s, req, now);
    var d := CompanyDtoOf(c);
    var ms := Members(s, req, now);
    MembersShape(s, req, now);
    MembersClassified(s, req, now);
    CreationKeepsInvariants(s, req, now);
    InsertCompanyWellFormed(s, NewCompany(req.name, now), ms);
    forall i | 0 <= i < |d.employees|
      ensures d.employees[i].title == MemberTitles(s, req)[i] && d.employees[i].email == MemberEmails(s, req)[i]
      ensures d.id in d.employees[i].companyIds
    {
      var m := c.members[i];
      assert d.employees[i] == EmployeeDtoOf(c.state, m);
      assert m in c.members;
      assert SameEmployeeData(m, ms[i]);
      ListedCompanyId(CompaniesOf(c.state, m.Id()), c.company);
    }
  }

  /** A company in a list has its id in the list's ids. */
  lemma ListedCompanyId(cs: seq<Company>, c: Company)
    requires c in cs
    ensures c.Id() in Select(cs, (x: Company) => x.Id())
  {
    var i :| 0 <= i < |cs| && cs[i] == c;
    assert Select(cs, (x: Company) => x.Id())[i] == c.Id();
  }

  /** The request with one more entry. */
  function WithEntry(req: CreateCompanyDto, e: EmployeeInCreateCompanyDto): CreateCompanyDto {
    req.(employees := Some(Entries(req) + [e]))
  }

  /** An entry with an email but neither an id nor a title passes the request checks... */
  lemma EmailOnlyEntryPasses(req: CreateCompanyDto, email: string)
    requires email != ""
    ensures RequestError(WithEntry(req, EmployeeInCreateCompanyDto(Some(email), None, None))) == RequestError(req)
  {
    var e := EmployeeInCreateCompanyDto(Some(email), None, None);
    assert Entries(WithEntry(req, e)) == Entries(req) + [e];
    AnyIgnoresFailing(Entries(req), e, MissingEmail);
    AnyIgnoresFailing(Entries(req), e, IdWithData);
  }

  /** ... and neither creates nor refers to anybody. */
  lemma EmailOnlyEntryUnused(req: CreateCompanyDto, email: string)
    ensures var req' := WithEntry(req, EmployeeInCreateCompanyDto(Some(email), None, None));
      EntriesToCreate(req') == EntriesToCreate(req) && RequestedIds(req') == RequestedIds(req)
  {
    var e := EmployeeInCreateCompanyDto(Some(email), None, None);
    assert Entries(WithEntry(req, e)) == Entries(req) + [e];
    WhereSkipsFailing(Entries(req), e, DescribesNewEmployee);
    WhereSkipsFailing(Entries(req), e, RefersToEmployee);
  }

  /** Appending an element that fails the test does not change `Where`. */
  lemma WhereSkipsFailing<T>(s: seq<T>, x: T, p: T -> bool)
    requires !p(x)
    ensures Where(s + [x], p) == Where(s, p)
  {
    WhereConcat(s, [x], p);
    assert [x][1..] == [];
    assert Where([x], p) == [];
  }

  /** Appending an element that fails the test does not change `Any`. */
  lemma AnyIgnoresFailing<T>(s: seq<T>, x: T, p: T -> bool)
    requires !p(x)
    ensures Any(s + [x], p) == Any(s, p)
  {
    if Any(s, p) {
      var i :| 0 <= i < |s| && p(s[i]);
      assert (s + [x])[i] == s[i];
    }
  }

  /** Such an entry is ignored: the checks and the members are as without it. */
  lemma EntryWithEmailOnlyIsIgnored(s: StoreState, req: CreateCompanyDto, email: string, now: Timestamp)
    requires email != ""
    ensures var req' := WithEntry(req, EmployeeInCreateCompanyDto(Some(email), None, None));
      CreationError(s, req') == CreationError(s, req) && Members(s, req', now) == Members(s, req, now)
  {
    EmailOnlyEntryPasses(req, email);
    EmailOnlyEntryUnused(req, email);
  }

  /** The ways the database can fail during the save. */
  datatype StoreFault = NoFault | FaultOnInsert | FaultOnCommit

  /** The employees loaded by id, followed by the new ones, are the members of the company. */
  lemma LoadedMembers(s: StoreState, req: CreateCompanyDto, now: Timestamp, existing: seq<EmployeeWithCompanies>)
    requires |existing| == |Referenced(s, req)|
    requires forall i :: 0 <= i < |existing| ==> existing[i].employee == Referenced(s, req)[i]
    ensures Select(existing, (x: EmployeeWithCompanies) => x.employee) + NewMembers(req, now) == Members(s, req, now)
  {
    assert Select(existing, (x: EmployeeWithCompanies) => x.employee) == Referenced(s, req);
  }

  /** Once the references resolve, the duplicate checks the workflow runs over the members
      decide the outcome, titles first. */
  lemma MembersDecide(s: StoreState, req: CreateCompanyDto, now: Timestamp)
    requires RequestError(req).None?
    requires forall c :: c in s.companies ==> c.name != req.name
    requires forall e :: e in s.employees ==> e.email !in NewEmails(req)
    requires ReferencesResolve(s, req)
    ensures HasDuplicateTitles(Members(s, req, now)) ==> CreationError(s, req) == Some(CannotCreateEmployeesWithSameTitleInCompany)
    ensures !HasDuplicateTitles(Members(s, req, now)) && HasDuplicateEmails(Members(s, req, now)) ==>
              CreationError(s, req) == Some(CannotCreateEmployeesWithSameEmail)
    ensures !HasDuplicateTitles(Members(s, req, now)) && !HasDuplicateEmails(Members(s, req, now)) ==>
              CreationError(s, req).None?
  {
    CreationErrorOfMembers(s, req);
    TitleCheck(s, req, now);
    EmailCheck(s, req, now);
  }

  /** `CompanyService.CreateCompany`: the checks in their order, then the save and the commit
      inside a transaction; a database failure is reported as an internal error and rolls the
      transaction back. */
  method CreateCompany(store: Store, req: CreateCompanyDto, now: Timestamp, fault: StoreFault)
    returns (r: ResultOrError<CompanyDto, Error>)
    requires store.Valid() && !store.inTransaction && TitlesUniquePerCompany(store.State())
    modifies store
    ensures store.Valid() && !store.inTransaction && TitlesUniquePerCompany(store.State())
    ensures var err := CreationError(old(store.State()), req);
      && (err.Some? ==> r == OfError(err.value) && store.State() == old(store.State()))
      && (err.None? && fault != NoFault ==> r == OfError(InternalServerError) && store.State() == old(store.State()))
      && (err.None? && fault == NoFault ==>
            var c := Creation(old(store.State()), req, now);
            r == OfResult(CompanyDtoOf(c)) && store.State() == c.state)
  {
    var requestError := RequestError(req);
    if requestError.Some? {
      return OfError(requestError.value);
    }
    store.BeginTransaction();
    ghost var s := store.State();

    var companyIsUnique := store.AllCompanies((c: Company) => c.name != req.name);
    if !companyIsUnique {
      assert CreationError(s, req) == Some(CompanyWithSameNameAlreadyExists);
      store.EndTransaction();
      return OfError(CompanyWithSameNameAlreadyExists);
    }

    var newEmails := NewEmails(req);
    var areAllEmployeesUnique := store.AllEmployees((e: Employee) => e.email !in newEmails);
    if !areAllEmployeesUnique {
      assert CreationError(s, req) == Some(EmployeeWithSameEmailAlreadyExists(EmployeesEmailKey));
      store.EndTransaction();
      return OfError(EmployeeWithSameEmailAlreadyExists(EmployeesEmailKey));
    }

    var ids := RequestedIds(req);
    var existing := store.WhereIncludeEmployees(EmployeeIdIn(ids));
    LoadEmployeesByIds(s, ids);
    if |existing| != |ids| {
      assert CreationError(s, req) == Some(EmployeeDoesNotExist);
      store.EndTransaction();
      return OfError(EmployeeDoesNotExist);
    }

    var all := Select(existing, (x: EmployeeWithCompanies) => x.employee) + NewMembers(req, now);
    LoadedMembers(s, req, now, existing);
    MembersDecide(s, req, now);
    if HasDuplicateTitles(all) {
      store.EndTransaction();
      return OfError(CannotCreateEmployeesWithSameTitleInCompany);
    }
    if HasDuplicateEmails(all) {
      store.EndTransaction();
      return OfError(CannotCreateEmployeesWithSameEmail);
    }

    CreationKeepsInvariants(s, req, now);
    MembersClassified(s, req, now);
    var saved, created, createdMembers := store.AddCompany(NewCompany(req.name, now), all, fault == FaultOnInsert);
    if !saved {
      store.EndTransaction();
      return OfError(InternalServerError);
    }
    var committed := store.Commit(fault == FaultOnCommit);
    store.EndTransaction();
    if !committed {
      return OfError(InternalServerError);
    }
    return OfResult(CompanyDtoOf(CompanyInsertion(store.State(), created, createdMembers)));
  }
}
