/** `EmployeeService.CreateEmployee`: validates an employee request against the store, in a
    fixed order, and on success saves the employee as a member of the requested companies. */
module EmployeeServices {
  import opened Optional
  import opened Linq
  import opened Entities
  import opened Dto
  import opened Errors
  import opened ResultOrErrors
  import opened Repository

  /** The ids of the requested companies; a missing list has none. */
  function CompanyIds(req: CreateEmployeeDto): seq<int> {
    req.companyIds.GetOr([])
  }

  /** The stored companies the request names, in table order. */
  function RequestedCompanies(s: StoreState, req: CreateEmployeeDto): seq<Company> {
    Where(s.companies, CompanyIdIn(CompanyIds(req)))
  }

  /** The employees of those companies, company after company. */
  function EmployeesOfRequested(s: StoreState, req: CreateEmployeeDto): seq<Employee> {
    SelectMany(Select(RequestedCompanies(s, req), (c: Company) => EmployeesOf(s, c.Id())))
  }

  /** Every requested id belongs to a stored company, and none is repeated. */
  ghost predicate CompaniesResolve(s: StoreState, req: CreateEmployeeDto) {
    && Distinct(CompanyIds(req))
    && forall id :: id in CompanyIds(req) ==> exists c :: c in s.companies && c.Id() == id
  }

  /** Some requested company already employs someone with the requested title. */
  ghost predicate TitleTaken(s: StoreState, req: CreateEmployeeDto) {
    exists c, e :: c in s.companies && c.Id() in CompanyIds(req) && e in EmployeesOf(s, c.Id()) && e.title == req.title
  }

  /** The outcome of the checks, stated over the store: the first failing check decides the
      error, and `None` means the employee can be created. */
  ghost function EmployeeCreationError(s: StoreState, req: CreateEmployeeDto): Option<Error> {
    if req.email == "" then Some(UniqueIdentifierCannotBeNullOrEmpty(EmailKey))
    else if exists e :: e in s.employees && e.email == req.email then Some(EmployeeWithSameEmailAlreadyExists(EmailKey))
    else if !CompaniesResolve(s, req) then Some(CompanyDoesNotExist)
    else if TitleTaken(s, req) then Some(EmployeeWithSameTitleAlreadyExistsInCompany)
    else None
  }

  /** The save of a valid request. */
  function EmployeeCreation(s: StoreState, req: CreateEmployeeDto, now: Timestamp): EmployeeInsertion {
    InsertEmployee(s, NewEmployee(req.title, req.email, now), RequestedCompanies(s, req))
  }

  /** The response for the saved employee: its companies are the ones it was saved with. */
  function CreatedEmployeeDtoOf(e: Employee, companies: seq<Company>): EmployeeDto {
    EmployeeDto(e.Id(), e.audit.createdAt, e.title, e.email, Select(companies, (c: Company) => c.Id()))
  }

  /** The title check the workflow runs, over the loaded employees of the requested companies,
      is the declarative one. */
  lemma TitleCheck(s: StoreState, req: CreateEmployeeDto)
    ensures All(EmployeesOfRequested(s, req), (e: Employee) => e.title != req.title) <==> !TitleTaken(s, req)
  {
    if TitleTaken(s, req) {
      TakenTitleLoaded(s, req);
    }
    if !All(EmployeesOfRequested(s, req), (e: Employee) => e.title != req.title) {
      LoadedTitleTaken(s, req);
    }
  }

  /** A clash in a requested company shows among the loaded employees... */
  lemma TakenTitleLoaded(s: StoreState, req: CreateEmployeeDto)
    requires TitleTaken(s, req)
    ensures exists e :: e in EmployeesOfRequested(s, req) && e.title == req.title
  {
    var cs := RequestedCompanies(s, req);
    var ss := Select(cs, (c: Company) => EmployeesOf(s, c.Id()));
    WhereMembers(s.companies, CompanyIdIn(CompanyIds(req)));
    var c, e :| c in s.companies && c.Id() in CompanyIds(req) && e in EmployeesOf(s, c.Id()) && e.title == req.title;
    assert c in cs;
    var i :| 0 <= i < |cs| && cs[i] == c;
    assert ss[i] == EmployeesOf(s, c.Id());
    var j :| 0 <= j < |ss[i]| && ss[i][j] == e;
    assert ss[i][j] in SelectMany(ss);
  }

  /** ... and a clash among the loaded employees is one in a requested company. */
  lemma LoadedTitleTaken(s: StoreState, req: CreateEmployeeDto)
    requires exists e :: e in EmployeesOfRequested(s, req) && e.title == req.title
    ensures TitleTaken(s, req)
  {
    var cs := RequestedCompanies(s, req);
    var ss := Select(cs, (c: Company) => EmployeesOf(s, c.Id()));
    var all := EmployeesOfRequested(s, req);
    WhereMembers(s.companies, CompanyIdIn(CompanyIds(req)));
    var k :| 0 <= k < |all| && all[k].title == req.title;
    SelectManyOrigin(ss, k);
    var i :| 0 <= i < |ss| && all[k] in ss[i];
    assert cs[i] in cs;
  }

  /** With no companies requested there is nothing to resolve and no title to clash with. */
  lemma NoCompaniesNoConflict(s: StoreState, req: CreateEmployeeDto)
    requires CompanyIds(req) == []
    ensures CompaniesResolve(s, req) && !TitleTaken(s, req)
  {
  }

  /** The requested companies are stored rows, each named by the request. */
  lemma RequestedCompaniesStored(s: StoreState, req: CreateEmployeeDto)
    requires WellFormed(s)
    ensures forall c :: c in RequestedCompanies(s, req) ==> TrackedCompany(s, c) && c.Id() in CompanyIds(req)
  {
    StoredRowsTracked(s);
    WhereMembers(s.companies, CompanyIdIn(CompanyIds(req)));
  }

  /** Saving a request that passes every check keeps the unique indexes and the one-title-per-
      company rule. */
  lemma EmployeeCreationKeepsInvariants(s: StoreState, req: CreateEmployeeDto, now: Timestamp)
    requires TitlesUniquePerCompany(s)
    requires EmployeeCreationError(s, req).None?
    ensures UniqueIndexes(EmployeeCreation(s, req, now).state)
    ensures TitlesUniquePerCompany(EmployeeCreation(s, req, now).state)
  {
    var employee, cs := NewEmployee(req.title, req.email, now), RequestedCompanies(s, req);
    RequestedCompaniesStored(s, req);
    WhereMembers(s.companies, CompanyIdIn(CompanyIds(req)));
    InsertEmployeeUniqueIndexes(s, employee, cs);
    InsertEmployeeKeepsTitlesUnique(s, employee, cs);
  }

  /** The response of a successful creation: the new employee's id and data, and one company id
      per requested id; the stored memberships are the requested companies. */
  lemma CreatedEmployeeDto(s: StoreState, req: CreateEmployeeDto, now: Timestamp)
    requires WellFormed(s)
    requires EmployeeCreationError(s, req).None?
    ensures var r := EmployeeCreation(s, req, now);
      var d := CreatedEmployeeDtoOf(r.employee, RequestedCompanies(s, req));
      && d.id == |s.employees| + 1 && d.email == req.email && d.title == req.title && d.createdAt == now
      && |d.companyIds| == |CompanyIds(req)|
      && (forall c :: c in CompaniesOf(r.state, r.employee.Id()) <==> c in RequestedCompanies(s, req))
  {
    LoadCompaniesByIds(s, CompanyIds(req));
    RequestedCompaniesStored(s, req);
    InsertEmployeeCompanies(s, NewEmployee(req.title, req.email, now), RequestedCompanies(s, req));
  }

  /** The company ids of that response are exactly the requested ids. */
  lemma CreatedEmployeeCompanyIds(s: StoreState, req: CreateEmployeeDto, e: Employee)
    requires CompaniesResolve(s, req)
    ensures var d := CreatedEmployeeDtoOf(e, RequestedCompanies(s, req));
      forall id :: id in d.companyIds <==> id in CompanyIds(req)
  {
    var cs := RequestedCompanies(s, req);
    var d := CreatedEmployeeDtoOf(e, cs);
    WhereMembers(s.companies, CompanyIdIn(CompanyIds(req)));
    forall id ensures id in d.companyIds <==> id in CompanyIds(req) {
      if id in d.companyIds {
        var i :| 0 <= i < |cs| && d.companyIds[i] == id;
        assert cs[i] in cs;
      }
      if id in CompanyIds(req) {
        var c :| c in s.companies && c.Id() == id;
        assert c in cs;
        var i :| 0 <= i < |cs| && cs[i] == c;
        assert d.companyIds[i] == id;
      }
    }
  }

  /** Once the email and the companies have passed, the title decides. */
  lemma EmployeeCreationErrorOfTitle(s: StoreState, req: CreateEmployeeDto)
    requires req.email != ""
    requires forall e :: e in s.employees ==> e.email != req.email
    requires CompaniesResolve(s, req)
    ensures TitleTaken(s, req) ==> EmployeeCreationError(s, req) == Some(EmployeeWithSameTitleAlreadyExistsInCompany)
    ensures !TitleTaken(s, req) ==> EmployeeCreationError(s, req).None?
  {
  }

  /** The companies loaded with their employees are the requested ones, and their employees
      are those of the requested companies. */
  lemma LoadedCompanies(s: StoreState, req: CreateEmployeeDto, companies: seq<CompanyWithEmployees>)
    requires |companies| == |RequestedCompanies(s, req)|
    requires forall i :: 0 <= i < |companies| ==>
               companies[i].company == RequestedCompanies(s, req)[i] && companies[i].employees == EmployeesOf(s, companies[i].company.Id())
    ensures Select(companies, (c: CompanyWithEmployees) => c.company) == RequestedCompanies(s, req)
    ensures SelectMany(Select(companies, (c: CompanyWithEmployees) => c.employees)) == EmployeesOfRequested(s, req)
  {
    var loaded := Select(companies, (c: CompanyWithEmployees) => c.company);
    assert loaded == RequestedCompanies(s, req);
    assert Select(companies, (c: CompanyWithEmployees) => c.employees)
        == Select(loaded, (c: Company) => EmployeesOf(s, c.Id()));
  }

  /** Once the email and the companies have passed, the title check over the loaded employees
      decides the outcome. */
  lemma TitleDecides(s: StoreState, req: CreateEmployeeDto)
    requires req.email != ""
    requires forall e :: e in s.employees ==> e.email != req.email
    requires CompaniesResolve(s, req)
    ensures All(EmployeesOfRequested(s, req), (e: Employee) => e.title != req.title) ==> EmployeeCreationError(s, req).None?
    ensures !All(EmployeesOfRequested(s, req), (e: Employee) => e.title != req.title) ==>
              EmployeeCreationError(s, req) == Some(EmployeeWithSameTitleAlreadyExistsInCompany)
  {
    TitleCheck(s, req);
    EmployeeCreationErrorOfTitle(s, req);
  }

  /** `EmployeeService.CreateEmployee`: the checks in their order, then the save; a database
      failure is reported as an internal error and leaves the store as it was. */
  method CreateEmployee(store: Store, req: CreateEmployeeDto, now: Timestamp, fault: bool)
    returns (r: ResultOrError<EmployeeDto, Error>)
    requires store.Valid() && TitlesUniquePerCompany(store.State())
    modifies store
    ensures store.Valid() && TitlesUniquePerCompany(store.State())
    ensures store.inTransaction == old(store.inTransaction) && store.committed == old(store.committed)
    ensures store.savepoint == old(store.savepoint)
    ensures var err := EmployeeCreationError(old(store.State()), req);
      && (err.Some? ==> r == OfError(err.value) && store.State() == old(store.State()))
      && (err.None? && fault ==> r == OfError(InternalServerError) && store.State() == old(store.State()))
      && (err.None? && !fault ==>
            var c := EmployeeCreation(old(store.State()), req, now);
            r == OfResult(CreatedEmployeeDtoOf(c.employee, RequestedCompanies(old(store.State()), req)))
            && store.State() == c.state)
  {
    if req.email == "" {
      return OfError(UniqueIdentifierCannotBeNullOrEmpty(EmailKey));
    }
    ghost var s := store.State();

    var isUnique := store.AllEmployees((e: Employee) => e.email != req.email);
    if !isUnique {
      return OfError(EmployeeWithSameEmailAlreadyExists(EmailKey));
    }

    var ids := CompanyIds(req);
    var companies := store.WhereIncludeCompanies(CompanyIdIn(ids));
    LoadCompaniesByIds(s, ids);
    if |companies| != |ids| {
      return OfError(CompanyDoesNotExist);
    }

    var loaded := Select(companies, (c: CompanyWithEmployees) => c.company);
    var employees := SelectMany(Select(companies, (c: CompanyWithEmployees) => c.employees));
    LoadedCompanies(s, req, companies);
    TitleDecides(s, req);
    var titleIsUnique := All(employees, (e: Employee) => e.title != req.title);
    if !titleIsUnique {
      return OfError(EmployeeWithSameTitleAlreadyExistsInCompany);
    }

    assert EmployeeCreationError(s, req).None?;
    EmployeeCreationKeepsInvariants(s, req, now);
    RequestedCompaniesStored(s, req);
    var saved, created := store.AddEmployee(NewEmployee(req.title, req.email, now), loaded, fault);
    if !saved {
      return OfError(InternalServerError);
    }
    return OfResult(CreatedEmployeeDtoOf(created, loaded));
  }
}
