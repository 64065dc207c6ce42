/** The relational store behind the generic repository: two auto-increment tables, the
    many-to-many membership table between them, the two unique indexes, and one database
    transaction at a time. */
module Repository {
  import opened Linq
  import opened Entities

  /** A row of the membership table: (company id, employee id). */
  type Link = (int, int)

  /** A snapshot of the three tables. */
  datatype StoreState = StoreState(companies: seq<Company>, employees: seq<Employee>, links: set<Link>)

  /** Auto-increment keys: the row at position `i` has id `i + 1`. */
  predicate IdsArePositions(s: StoreState) {
    && (forall i :: 0 <= i < |s.companies| ==> s.companies[i].Id() == i + 1)
    && (forall i :: 0 <= i < |s.employees| ==> s.employees[i].Id() == i + 1)
  }

  /** The unique indexes on `Companies.Name` and `Employees.Email`. */
  predicate UniqueIndexes(s: StoreState) {
    && (forall i, j :: 0 <= i < j < |s.companies| ==> s.companies[i].name != s.companies[j].name)
    && (forall i, j :: 0 <= i < j < |s.employees| ==> s.employees[i].email != s.employees[j].email)
  }

  /** Every membership row refers to an existing company and an existing employee. */
  predicate LinksResolve(s: StoreState) {
    forall l :: l in s.links ==> 1 <= l.0 <= |s.companies| && 1 <= l.1 <= |s.employees|
  }

  /** What the database itself guarantees about its tables. */
  predicate WellFormed(s: StoreState) {
    IdsArePositions(s) && UniqueIndexes(s) && LinksResolve(s)
  }

  /** The employee row with a given id. */
  function EmployeeWithId(s: StoreState, id: int): Employee
    requires 1 <= id <= |s.employees|
  {
    s.employees[id - 1]
  }

  /** The rule the application keeps on top of the database: no company has two employees with
      the same title. */
  predicate TitlesUniquePerCompany(s: StoreState) {
    && WellFormed(s)
    && forall l, m :: l in s.links && m in s.links && l.0 == m.0 && l.1 != m.1 ==>
         EmployeeWithId(s, l.1).title != EmployeeWithId(s, m.1).title
  }

  /** An employee value that is the stored row with its id, as an entity loaded by a query is. */
  predicate TrackedEmployee(s: StoreState, e: Employee) {
    1 <= e.Id() <= |s.employees| && s.employees[e.Id() - 1] == e
  }

  /** A company value that is the stored row with its id. */
  predicate TrackedCompany(s: StoreState, c: Company) {
    1 <= c.Id() <= |s.companies| && s.companies[c.Id() - 1] == c
  }

  /** The companies of an employee (the `Companies` navigation), in table order. */
  function CompaniesOf(s: StoreState, employeeId: int): seq<Company> {
    Where(s.companies, (c: Company) => (c.Id(), employeeId) in s.links)
  }

  /** The employees of a company (the `Employees` navigation), in table order. */
  function EmployeesOf(s: StoreState, companyId: int): seq<Employee> {
    Where(s.employees, (e: Employee) => (companyId, e.Id()) in s.links)
  }

  /** An entity loaded together with its navigation collection (`Include`). */
  datatype CompanyWithEmployees = CompanyWithEmployees(company: Company, employees: seq<Employee>)
  datatype EmployeeWithCompanies = EmployeeWithCompanies(employee: Employee, companies: seq<Company>)

  /** Same data except, possibly, the id. */
  predicate SameEmployeeData(a: Employee, b: Employee) {
    a.title == b.title && a.email == b.email && a.audit.createdAt == b.audit.createdAt
  }

  /** An employee not yet saved. */
  predicate Unsaved(e: Employee) {
    e.Id() == UnsavedId
  }

  /** The employees of a saved graph: the rows inserted for its unsaved members, and every member
      as it is after the save. */
  datatype Assignment = Assignment(inserted: seq<Employee>, members: seq<Employee>)

  /** Saving a collection of employees: an unsaved one becomes a new row with the next id, in
      collection order; a saved one stays as it is. */
  function AssignIds(members: seq<Employee>, next: int): (r: Assignment)
    ensures |r.members| == |members|
    ensures forall k :: 0 <= k < |r.inserted| ==> r.inserted[k].Id() == next + k
    decreases |members|
  {
    if members == [] then Assignment([], [])
    else if members[0].Id() == UnsavedId then
      var saved := members[0].(audit := members[0].audit.(id := next));
      var rest := AssignIds(members[1..], next + 1);
      Assignment([saved] + rest.inserted, [saved] + rest.members)
    else
      var rest := AssignIds(members[1..], next);
      Assignment(rest.inserted, [members[0]] + rest.members)
  }

  /** Saving keeps every member's data. */
  lemma {:induction false} AssignIdsKeepData(members: seq<Employee>, next: int)
    ensures var r := AssignIds(members, next);
      forall i :: 0 <= i < |members| ==> SameEmployeeData(r.members[i], members[i])
    decreases |members|
  {
    if members != [] {
      var r, tail := AssignIds(members, next), members[1..];
      var n := if members[0].Id() == UnsavedId then next + 1 else next;
      AssignIdsKeepData(tail, n);
      assert forall i :: 1 <= i < |members| ==> members[i] == tail[i - 1] && r.members[i] == AssignIds(tail, n).members[i - 1];
    }
  }

  /** A saved member stays as it is. */
  lemma {:induction false} AssignIdsKeepSaved(members: seq<Employee>, next: int)
    ensures var r := AssignIds(members, next);
      forall i :: 0 <= i < |members| && members[i].Id() != UnsavedId ==> r.members[i] == members[i]
    decreases |members|
  {
    if members != [] {
      var r, tail := AssignIds(members, next), members[1..];
      var n := if members[0].Id() == UnsavedId then next + 1 else next;
      AssignIdsKeepSaved(tail, n);
      assert forall i :: 1 <= i < |members| ==> members[i] == tail[i - 1] && r.members[i] == AssignIds(tail, n).members[i - 1];
    }
  }

  /** An unsaved member becomes one of the inserted rows. */
  lemma {:induction false} AssignIdsInsertUnsaved(members: seq<Employee>, next: int)
    ensures var r := AssignIds(members, next);
      forall i :: 0 <= i < |members| && members[i].Id() == UnsavedId ==> r.members[i] in r.inserted
    decreases |members|
  {
    if members != [] {
      var r, tail := AssignIds(members, next), members[1..];
      var n := if members[0].Id() == UnsavedId then next + 1 else next;
      var rest := AssignIds(tail, n);
      AssignIdsInsertUnsaved(tail, n);
      assert forall i :: 1 <= i < |members| ==> members[i] == tail[i - 1] && r.members[i] == rest.members[i - 1];
      assert forall x :: x in rest.inserted ==> x in r.inserted;
    }
  }

  /** In rows numbered from `next`, a row sits at the position its id gives. */
  lemma RowAtId(rows: seq<Employee>, m: Employee, next: int)
    requires m in rows
    requires forall k :: 0 <= k < |rows| ==> rows[k].Id() == next + k
    ensures next <= m.Id() < next + |rows| && rows[m.Id() - next] == m
  {
    var k :| 0 <= k < |rows| && rows[k] == m;
  }

  /** After the rows for the unsaved members are appended to a table holding every saved member,
      every member is the row with its id. */
  lemma AssignedMembersStored(rows: seq<Employee>, members: seq<Employee>)
    requires forall m :: m in members && m.Id() != UnsavedId ==> 1 <= m.Id() <= |rows| && rows[m.Id() - 1] == m
    ensures var a := AssignIds(members, |rows| + 1);
      forall m :: m in a.members ==> 1 <= m.Id() <= |rows + a.inserted| && (rows + a.inserted)[m.Id() - 1] == m
  {
    var a := AssignIds(members, |rows| + 1);
    AssignIdsKeepSaved(members, |rows| + 1);
    AssignIdsInsertUnsaved(members, |rows| + 1);
    var all := rows + a.inserted;
    forall m | m in a.members ensures 1 <= m.Id() <= |all| && all[m.Id() - 1] == m {
      var i :| 0 <= i < |a.members| && a.members[i] == m;
      if members[i].Id() != UnsavedId {
        assert members[i] in members;
        assert all[m.Id() - 1] == rows[m.Id() - 1];
      } else {
        RowAtId(a.inserted, m, |rows| + 1);
        assert all[|rows| + (m.Id() - |rows| - 1)] == m;
      }
    }
  }

  /** The outcome of saving a new company with its employees. */
  datatype CompanyInsertion = CompanyInsertion(state: StoreState, company: Company, members: seq<Employee>)

  /** Saving a new company with its `Employees` collection: the company gets the next company
      id, the unsaved employees get new rows, and every member is linked to the company. */
  function InsertCompany(s: StoreState, company: Company, members: seq<Employee>): (r: CompanyInsertion)
    ensures r.company.Id() == |s.companies| + 1
    ensures r.company.name == company.name && r.company.audit.createdAt == company.audit.createdAt
    ensures r.state.companies == s.companies + [r.company]
    ensures |s.employees| <= |r.state.employees| && r.state.employees[..|s.employees|] == s.employees
    ensures |r.members| == |members|
    ensures forall i :: 0 <= i < |members| ==> SameEmployeeData(r.members[i], members[i])
    ensures forall i :: 0 <= i < |members| && members[i].Id() != UnsavedId ==> r.members[i] == members[i]
  {
    var created := company.(audit := company.audit.(id := |s.companies| + 1));
    var a := AssignIds(members, |s.employees| + 1);
    AssignIdsKeepData(members, |s.employees| + 1);
    AssignIdsKeepSaved(members, |s.employees| + 1);
    var state := StoreState(
      s.companies + [created],
      s.employees + a.inserted,
      s.links + set m | m in a.members :: (created.Id(), m.Id()));
    assert (s.employees + a.inserted)[..|s.employees|] == s.employees;
    CompanyInsertion(state, created, a.members)
  }

  /** Saving a new company adds exactly one employee row per unsaved member, with that member's
      data, in collection order, and exactly one membership row per member. */
  lemma InsertCompanyAddsRows(s: StoreState, company: Company, members: seq<Employee>)
    ensures var r, w := InsertCompany(s, company, members), Where(members, Unsaved);
      && |r.state.employees| == |s.employees| + |w|
      && (forall k :: 0 <= k < |w| ==> SameEmployeeData(r.state.employees[|s.employees| + k], w[k]))
      && r.state.links == s.links + set m | m in r.members :: (r.company.Id(), m.Id())
  {
    var r, w := InsertCompany(s, company, members), Where(members, Unsaved);
    var a := AssignIds(members, |s.employees| + 1);
    InsertedAreUnsavedMembers(members, |s.employees| + 1);
    assert r.state.employees == s.employees + a.inserted && r.members == a.members;
    forall k | 0 <= k < |w| ensures SameEmployeeData(r.state.employees[|s.employees| + k], w[k]) {
      assert r.state.employees[|s.employees| + k] == a.inserted[k];
    }
  }

  /** Saving a new company hands out ids in table order. */
  lemma InsertCompanyIds(s: StoreState, company: Company, members: seq<Employee>)
    requires IdsArePositions(s)
    ensures IdsArePositions(InsertCompany(s, company, members).state)
  {
    var r := InsertCompany(s, company, members);
    var a := AssignIds(members, |s.employees| + 1);
    assert r.state.employees == s.employees + a.inserted;
    forall i | 0 <= i < |r.state.employees| ensures r.state.employees[i].Id() == i + 1 {
      if i < |s.employees| {
        assert r.state.employees[i] == s.employees[i];
      } else {
        assert r.state.employees[i] == a.inserted[i - |s.employees|];
      }
    }
  }

  /** After saving a new company, every member is a stored row. */
  lemma InsertCompanyMembersStored(s: StoreState, company: Company, members: seq<Employee>)
    requires forall m :: m in members && m.Id() != UnsavedId ==> TrackedEmployee(s, m)
    ensures var r := InsertCompany(s, company, members);
      forall m :: m in r.members ==> TrackedEmployee(r.state, m)
  {
    var r := InsertCompany(s, company, members);
    var a := AssignIds(members, |s.employees| + 1);
    AssignedMembersStored(s.employees, members);
    assert r.state.employees == s.employees + a.inserted;
    assert r.members == a.members;
  }

  /** Saving a new company keeps the tables well formed whenever the unique indexes accept it and
      every saved member is a stored row; afterwards every member is a stored row and belongs to
      the new company. */
  lemma InsertCompanyWellFormed(s: StoreState, company: Company, members: seq<Employee>)
    requires WellFormed(s)
    requires forall m :: m in members && m.Id() != UnsavedId ==> TrackedEmployee(s, m)
    requires UniqueIndexes(InsertCompany(s, company, members).state)
    ensures var r := InsertCompany(s, company, members);
      && WellFormed(r.state)
      && (forall m :: m in r.members ==> TrackedEmployee(r.state, m) && r.company in CompaniesOf(r.state, m.Id()))
  {
    var r := InsertCompany(s, company, members);
    InsertCompanyIds(s, company, members);
    InsertCompanyMembersStored(s, company, members);
    assert LinksResolve(r.state) by {
      forall l | l in r.state.links ensures 1 <= l.0 <= |r.state.companies| && 1 <= l.1 <= |r.state.employees| {
        if l !in s.links {
          var m :| m in r.members && l == (r.company.Id(), m.Id());
          assert TrackedEmployee(r.state, m);
        }
      }
    }
    forall m | m in r.members ensures r.company in CompaniesOf(r.state, m.Id()) {
      assert (r.company.Id(), m.Id()) in r.state.links;
      assert r.company == r.state.companies[|s.companies|];
    }
  }

  /** The outcome of saving a new employee. */
  datatype EmployeeInsertion = EmployeeInsertion(state: StoreState, employee: Employee)

  /** Saving a new employee with its `Companies` collection: the employee gets the next id and is
      linked to every company of the collection. */
  function InsertEmployee(s: StoreState, employee: Employee, companies: seq<Company>): (r: EmployeeInsertion)
    ensures r.employee.Id() == |s.employees| + 1 && SameEmployeeData(r.employee, employee)
    ensures r.state.companies == s.companies && r.state.employees == s.employees + [r.employee]
  {
    var created := employee.(audit := employee.audit.(id := |s.employees| + 1));
    var state := StoreState(
      s.companies,
      s.employees + [created],
      s.links + set c | c in companies :: (c.Id(), created.Id()));
    EmployeeInsertion(state, created)
  }

  /** Saving a new employee keeps the tables well formed whenever the unique index accepts it and
      every company of the collection is a stored row. */
  lemma InsertEmployeeWellFormed(s: StoreState, employee: Employee, companies: seq<Company>)
    requires WellFormed(s)
    requires forall c :: c in companies ==> TrackedCompany(s, c)
    requires UniqueIndexes(InsertEmployee(s, employee, companies).state)
    ensures var r := InsertEmployee(s, employee, companies);
      WellFormed(r.state) && TrackedEmployee(r.state, r.employee)
  {
    var r := InsertEmployee(s, employee, companies);
    assert r.state.employees[|s.employees|] == r.employee;
    assert LinksResolve(r.state) by {
      forall l | l in r.state.links ensures 1 <= l.0 <= |r.state.companies| && 1 <= l.1 <= |r.state.employees| {
        if l !in s.links {
          var c :| c in companies && l == (c.Id(), r.employee.Id());
        }
      }
    }
  }

  /** After saving a new employee, its companies are exactly those of the collection it was
      saved with. */
  lemma InsertEmployeeCompanies(s: StoreState, employee: Employee, companies: seq<Company>)
    requires WellFormed(s)
    requires forall c :: c in companies ==> TrackedCompany(s, c)
    ensures var r := InsertEmployee(s, employee, companies);
      forall c :: c in CompaniesOf(r.state, r.employee.Id()) <==> c in companies
  {
    var r := InsertEmployee(s, employee, companies);
    var eid := r.employee.Id();
    WhereMembers(r.state.companies, (c: Company) => (c.Id(), eid) in r.state.links);
    forall c ensures c in CompaniesOf(r.state, eid) <==> c in companies {
      NewEmployeeLinkedTo(s, employee, companies, c);
    }
  }

  /** A stored company is linked to the new employee exactly when it is in the collection. */
  lemma NewEmployeeLinkedTo(s: StoreState, employee: Employee, companies: seq<Company>, c: Company)
    requires WellFormed(s)
    requires forall c :: c in companies ==> TrackedCompany(s, c)
    ensures var r := InsertEmployee(s, employee, companies);
      c in r.state.companies && (c.Id(), r.employee.Id()) in r.state.links <==> c in companies
  {
    var r := InsertEmployee(s, employee, companies);
    var l := (c.Id(), r.employee.Id());
    assert l !in s.links;
    if c in companies {
      assert TrackedCompany(s, c);
      assert s.companies[c.Id() - 1] == c;
    }
    if c in s.companies && l in r.state.links {
      var d :| d in companies && l == (d.Id(), r.employee.Id());
      var k :| 0 <= k < |s.companies| && s.companies[k] == c;
      assert s.companies[d.Id() - 1] == d;
    }
  }

  /** Every stored row is the row with its id. */
  lemma StoredRowsTracked(s: StoreState)
    requires IdsArePositions(s)
    ensures forall e :: e in s.employees ==> TrackedEmployee(s, e)
    ensures forall c :: c in s.companies ==> TrackedCompany(s, c)
  {
  }

  /** The rows inserted for a collection are its unsaved members, in order. */
  lemma {:induction false} InsertedAreUnsavedMembers(members: seq<Employee>, next: int)
    ensures var ins, w := AssignIds(members, next).inserted, Where(members, Unsaved);
      |ins| == |w| && forall k :: 0 <= k < |ins| ==> SameEmployeeData(ins[k], w[k])
    decreases |members|
  {
    if members != [] {
      var tail := members[1..];
      var ins, w := AssignIds(members, next).inserted, Where(members, Unsaved);
      if Unsaved(members[0]) {
        InsertedAreUnsavedMembers(tail, next + 1);
        var ins0, w0 := AssignIds(tail, next + 1).inserted, Where(tail, Unsaved);
        var saved := members[0].(audit := members[0].audit.(id := next));
        assert w == [members[0]] + w0;
        assert ins == [saved] + ins0;
        SameDataCons(saved, members[0], ins0, w0);
      } else {
        InsertedAreUnsavedMembers(tail, next);
        assert w == Where(tail, Unsaved);
        assert ins == AssignIds(tail, next).inserted;
      }
    }
  }

  /** Pointwise equal data is kept by putting one more pair in front. */
  lemma SameDataCons(a: Employee, b: Employee, xs: seq<Employee>, ys: seq<Employee>)
    requires SameEmployeeData(a, b) && |xs| == |ys|
    requires forall k :: 0 <= k < |xs| ==> SameEmployeeData(xs[k], ys[k])
    ensures forall k :: 0 <= k < |xs| + 1 ==> SameEmployeeData(([a] + xs)[k], ([b] + ys)[k])
  {
    forall k | 0 < k < |xs| + 1 ensures SameEmployeeData(([a] + xs)[k], ([b] + ys)[k]) {
      assert ([a] + xs)[k] == xs[k - 1] && ([b] + ys)[k] == ys[k - 1];
    }
  }

  /** The rows inserted for the unsaved members carry the emails of unsaved members, and no two
      of them share one when no two members do. */
  lemma InsertedEmails(members: seq<Employee>, next: int)
    requires forall i, j :: 0 <= i < j < |members| ==> members[i].email != members[j].email
    ensures var ins, w := AssignIds(members, next).inserted, Where(members, Unsaved);
      && |ins| == |w|
      && (forall k :: 0 <= k < |ins| ==> w[k] in members && Unsaved(w[k]) && ins[k].email == w[k].email)
      && (forall k, k' :: 0 <= k < k' < |ins| ==> ins[k].email != ins[k'].email)
  {
    var ins, w := AssignIds(members, next).inserted, Where(members, Unsaved);
    var key := (m: Employee) => m.email;
    InsertedAreUnsavedMembers(members, next);
    assert DistinctKeys(members, key);
    WhereKeepsDistinctKeys(members, key, Unsaved);
    forall k | 0 <= k < |ins| ensures w[k] in members {
      assert w[k] in multiset(w);
    }
    forall k, k' | 0 <= k < k' < |ins| ensures ins[k].email != ins[k'].email {
      assert key(w[k]) != key(w[k']);
    }
  }

  /** Appending the rows of the unsaved members keeps emails unique when no unsaved member reuses a
      stored email and no two members share one. */
  lemma AssignedEmailsUnique(rows: seq<Employee>, members: seq<Employee>)
    requires forall i, j :: 0 <= i < j < |rows| ==> rows[i].email != rows[j].email
    requires forall m, e :: m in members && m.Id() == UnsavedId && e in rows ==> m.email != e.email
    requires forall i, j :: 0 <= i < j < |members| ==> members[i].email != members[j].email
    ensures var all := rows + AssignIds(members, |rows| + 1).inserted;
      forall i, j :: 0 <= i < j < |all| ==> all[i].email != all[j].email
  {
    var ins, w := AssignIds(members, |rows| + 1).inserted, Where(members, Unsaved);
    InsertedEmails(members, |rows| + 1);
    var all := rows + ins;
    forall i, j | 0 <= i < j < |all| ensures all[i].email != all[j].email {
      if j < |rows| {
        assert all[i] == rows[i] && all[j] == rows[j];
      } else if i < |rows| {
        var k := j - |rows|;
        assert all[i] == rows[i] && all[j] == ins[k];
        assert w[k] in members && Unsaved(w[k]);
        assert rows[i] in rows;
      } else {
        assert all[i] == ins[i - |rows|] && all[j] == ins[j - |rows|];
      }
    }
  }

  /** Saving keeps the titles of the members as they were. */
  lemma AssignedTitlesDistinct(members: seq<Employee>, next: int)
    requires forall i, j :: 0 <= i < j < |members| ==> members[i].title != members[j].title
    ensures var m := AssignIds(members, next).members;
      forall i, j :: 0 <= i < j < |m| ==> m[i].title != m[j].title
  {
    AssignIdsKeepData(members, next);
  }

  /** The unique indexes accept a new company when its name is new, no unsaved member reuses a
      stored email, and no two members share an email. */
  lemma InsertCompanyUniqueIndexes(s: StoreState, company: Company, members: seq<Employee>)
    requires WellFormed(s)
    requires forall c :: c in s.companies ==> c.name != company.name
    requires forall m, e :: m in members && m.Id() == UnsavedId && e in s.employees ==> m.email != e.email
    requires forall i, j :: 0 <= i < j < |members| ==> members[i].email != members[j].email
    ensures UniqueIndexes(InsertCompany(s, company, members).state)
  {
    var r := InsertCompany(s, company, members);
    AssignedEmailsUnique(s.employees, members);
    assert r.state.employees == s.employees + AssignIds(members, |s.employees| + 1).inserted;
    forall i, j | 0 <= i < j < |r.state.companies| ensures r.state.companies[i].name != r.state.companies[j].name {
      if j == |s.companies| {
        assert s.companies[i] in s.companies;
      }
    }
  }

  /** Saving a new company keeps every company free of repeated titles when its members have
      distinct titles. */
  lemma InsertCompanyKeepsTitlesUnique(s: StoreState, company: Company, members: seq<Employee>)
    requires TitlesUniquePerCompany(s)
    requires forall m :: m in members && m.Id() != UnsavedId ==> TrackedEmployee(s, m)
    requires UniqueIndexes(InsertCompany(s, company, members).state)
    requires forall i, j :: 0 <= i < j < |members| ==> members[i].title != members[j].title
    ensures TitlesUniquePerCompany(InsertCompany(s, company, members).state)
  {
    var t := InsertCompany(s, company, members).state;
    InsertCompanyWellFormed(s, company, members);
    forall l, m | l in t.links && m in t.links && l.0 == m.0 && l.1 != m.1
      ensures EmployeeWithId(t, l.1).title != EmployeeWithId(t, m.1).title
    {
      if l in s.links && m in s.links {
        OldLinkPair(s, company, members, l, m);
      } else if !(l in s.links || m in s.links) {
        NewLinkPair(s, company, members, l, m);
      }
    }
  }

  /** Two memberships of one company that predate the save still join employees of different
      titles. */
  lemma OldLinkPair(s: StoreState, company: Company, members: seq<Employee>, l: Link, m: Link)
    requires TitlesUniquePerCompany(s)
    requires l in s.links && m in s.links && l.0 == m.0 && l.1 != m.1
    ensures var t := InsertCompany(s, company, members).state;
      l.1 <= |t.employees| && m.1 <= |t.employees| && EmployeeWithId(t, l.1).title != EmployeeWithId(t, m.1).title
  {
    var t := InsertCompany(s, company, members).state;
    assert t.employees[..|s.employees|] == s.employees;
    assert EmployeeWithId(t, l.1) == EmployeeWithId(s, l.1);
    assert EmployeeWithId(t, m.1) == EmployeeWithId(s, m.1);
  }

  /** Two memberships added by the save join members of different titles. */
  lemma NewLinkPair(s: StoreState, company: Company, members: seq<Employee>, l: Link, m: Link)
    requires forall m :: m in members && m.Id() != UnsavedId ==> TrackedEmployee(s, m)
    requires forall i, j :: 0 <= i < j < |members| ==> members[i].title != members[j].title
    requires var t := InsertCompany(s, company, members).state;
      l in t.links && m in t.links && l !in s.links && m !in s.links && l.1 != m.1
    ensures var t := InsertCompany(s, company, members).state;
      1 <= l.1 <= |t.employees| && 1 <= m.1 <= |t.employees| && EmployeeWithId(t, l.1).title != EmployeeWithId(t, m.1).title
  {
    var r := InsertCompany(s, company, members);
    var t := r.state;
    InsertCompanyMembersStored(s, company, members);
    AssignedTitlesDistinct(members, |s.employees| + 1);
    assert r.members == AssignIds(members, |s.employees| + 1).members;
    MembersTitles(r.members);
    var x :| x in r.members && l == (r.company.Id(), x.Id());
    var y :| y in r.members && m == (r.company.Id(), y.Id());
    assert TrackedEmployee(t, x) && TrackedEmployee(t, y);
  }

  /** Members with distinct titles: two of them with different ids have different titles. */
  lemma MembersTitles(ms: seq<Employee>)
    requires forall i, j :: 0 <= i < j < |ms| ==> ms[i].title != ms[j].title
    ensures forall x, y :: x in ms && y in ms && x.Id() != y.Id() ==> x.title != y.title
  {
    forall x, y | x in ms && y in ms && x.Id() != y.Id() ensures x.title != y.title {
      var i :| 0 <= i < |ms| && ms[i] == x;
      var j :| 0 <= j < |ms| && ms[j] == y;
      if i < j {
        assert ms[i].title != ms[j].title;
      } else {
        assert ms[j].title != ms[i].title;
      }
    }
  }

  /** The unique index accepts a new employee whose email is new. */
  lemma InsertEmployeeUniqueIndexes(s: StoreState, employee: Employee, companies: seq<Company>)
    requires WellFormed(s)
    requires forall e :: e in s.employees ==> e.email != employee.email
    ensures UniqueIndexes(InsertEmployee(s, employee, companies).state)
  {
    var rows := InsertEmployee(s, employee, companies).state.employees;
    forall i, j | 0 <= i < j < |rows| ensures rows[i].email != rows[j].email {
      assert rows[i] == s.employees[i];
      if j < |s.employees| {
        assert rows[j] == s.employees[j];
      } else {
        assert rows[i] in s.employees;
      }
    }
  }

  /** Saving a new employee keeps every company free of repeated titles when none of its
      companies already has an employee with its title. */
  lemma InsertEmployeeKeepsTitlesUnique(s: StoreState, employee: Employee, companies: seq<Company>)
    requires TitlesUniquePerCompany(s)
    requires forall c :: c in companies ==> TrackedCompany(s, c)
    requires forall c, e :: c in companies && e in EmployeesOf(s, c.Id()) ==> e.title != employee.title
    requires UniqueIndexes(InsertEmployee(s, employee, companies).state)
    ensures TitlesUniquePerCompany(InsertEmployee(s, employee, companies).state)
  {
    var t := InsertEmployee(s, employee, companies).state;
    InsertEmployeeWellFormed(s, employee, companies);
    forall l, m | l in t.links && m in t.links && l.0 == m.0 && l.1 != m.1
      ensures EmployeeWithId(t, l.1).title != EmployeeWithId(t, m.1).title
    {
      if l in s.links && m in s.links {
        assert EmployeeWithId(t, l.1) == EmployeeWithId(s, l.1);
        assert EmployeeWithId(t, m.1) == EmployeeWithId(s, m.1);
      } else if l in s.links {
        NewLinkTitleDiffers(s, employee, companies, l, m);
      } else if m in s.links {
        NewLinkTitleDiffers(s, employee, companies, m, l);
      }
    }
  }

  /** A company the new employee joins holds no one else with its title. */
  lemma NewLinkTitleDiffers(s: StoreState, employee: Employee, companies: seq<Company>, existing: Link, added: Link)
    requires WellFormed(s)
    requires forall c, e :: c in companies && e in EmployeesOf(s, c.Id()) ==> e.title != employee.title
    requires existing in s.links && added in InsertEmployee(s, employee, companies).state.links && added !in s.links
    requires existing.0 == added.0
    ensures var t := InsertEmployee(s, employee, companies).state;
      1 <= existing.1 <= |t.employees| && 1 <= added.1 <= |t.employees| && EmployeeWithId(t, existing.1).title != EmployeeWithId(t, added.1).title
  {
    var r := InsertEmployee(s, employee, companies);
    var t := r.state;
    var c :| c in companies && added == (c.Id(), r.employee.Id());
    var e := EmployeeWithId(s, existing.1);
    assert e == t.employees[existing.1 - 1] && e.Id() == existing.1;
    assert e in EmployeesOf(s, c.Id());
    assert EmployeeWithId(t, added.1) == r.employee;
  }

  /** The store, as the application's database context sees it: the three tables and the
      transaction in progress, if any. */
  class Store {
    var companies: seq<Company>
    var employees: seq<Employee>
    var links: set<Link>
    /** A transaction is open, */
    var inTransaction: bool
    /** ... it has been committed, */
    var committed: bool
    /** ... and the tables as they were when it began. */
    var savepoint: StoreState

    function State(): StoreState
      reads this
    {
      StoreState(companies, employees, links)
    }

    ghost predicate Valid()
      reads this
    {
      WellFormed(State()) && (inTransaction ==> WellFormed(savepoint))
    }

    /** An empty database. */
    constructor()
      ensures Valid() && State() == StoreState([], [], {}) && !inTransaction
    {
      companies, employees, links := [], [], {};
      inTransaction, committed := false, false;
      savepoint := StoreState([], [], {});
    }

    /** `IRepository<Company>.AllAsync`. */
    function AllCompanies(p: Company -> bool): (b: bool)
      reads this
      ensures b <==> forall c :: c in companies ==> p(c)
    {
      All(companies, p)
    }

    /** `IRepository<Company>.AnyAsync`. */
    function AnyCompanies(p: Company -> bool): (b: bool)
      reads this
      ensures b <==> exists c :: c in companies && p(c)
    {
      Any(companies, p)
    }

    /** `IRepository<Company>.Where`. */
    function WhereCompanies(p: Company -> bool): (r: seq<Company>)
      reads this
      ensures forall c :: c in r <==> c in companies && p(c)
      ensures multiset(r) <= multiset(companies)
    {
      WhereMembers(companies, p);
      Where(companies, p)
    }

    /** `IRepository<Company>.WhereInclude(p, c => c.Employees)`. */
    function WhereIncludeCompanies(p: Company -> bool): (r: seq<CompanyWithEmployees>)
      reads this
      ensures |r| == |WhereCompanies(p)|
      ensures forall i :: 0 <= i < |r| ==>
                r[i].company == WhereCompanies(p)[i] && r[i].employees == EmployeesOf(State(), r[i].company.Id())
    {
      var s := State();
      Select(Where(companies, p), (c: Company) => CompanyWithEmployees(c, EmployeesOf(s, c.Id())))
    }

    /** `IRepository<Employee>.AllAsync`. */
    function AllEmployees(p: Employee -> bool): (b: bool)
      reads this
      ensures b <==> forall e :: e in employees ==> p(e)
    {
      All(employees, p)
    }

    /** `IRepository<Employee>.AnyAsync`. */
    function AnyEmployees(p: Employee -> bool): (b: bool)
      reads this
      ensures b <==> exists e :: e in employees && p(e)
    {
      Any(employees, p)
    }

    /** `IRepository<Employee>.Where`. */
    function WhereEmployees(p: Employee -> bool): (r: seq<Employee>)
      reads this
      ensures forall e :: e in r <==> e in employees && p(e)
      ensures multiset(r) <= multiset(employees)
    {
      WhereMembers(employees, p);
      Where(employees, p)
    }

    /** `IRepository<Employee>.WhereInclude(p, e => e.Companies)`. */
    function WhereIncludeEmployees(p: Employee -> bool): (r: seq<EmployeeWithCompanies>)
      reads this
      ensures |r| == |WhereEmployees(p)|
      ensures forall i :: 0 <= i < |r| ==>
                r[i].employee == WhereEmployees(p)[i] && r[i].companies == CompaniesOf(State(), r[i].employee.Id())
    {
      var s := State();
      Select(Where(employees, p), (e: Employee) => EmployeeWithCompanies(e, CompaniesOf(s, e.Id())))
    }

    /** `IRepository<Company>.AddAsync`: adds the company graph and saves it. The save fails when
        the database faults or a unique index rejects the rows; then nothing changes. */
    method AddCompany(company: Company, members: seq<Employee>, fault: bool)
      returns (ok: bool, created: Company, createdMembers: seq<Employee>)
      requires Valid()
      requires forall m :: m in members && m.Id() != UnsavedId ==> TrackedEmployee(State(), m)
      modifies this
      ensures Valid()
      ensures inTransaction == old(inTransaction) && committed == old(committed) && savepoint == old(savepoint)
      ensures var r := InsertCompany(old(State()), company, members);
        && ok == (!fault && UniqueIndexes(r.state))
        && (ok ==> State() == r.state && created == r.company && createdMembers == r.members)
        && (!ok ==> State() == old(State()))
    {
      var r := InsertCompany(State(), company, members);
      if fault || !UniqueIndexes(r.state) {
        return false, company, members;
      }
      InsertCompanyWellFormed(State(), company, members);
      companies, employees, links := r.state.companies, r.state.employees, r.state.links;
      return true, r.company, r.members;
    }

    /** `IRepository<Employee>.AddAsync`: adds the employee with its companies and saves it. */
    method AddEmployee(employee: Employee, employeeCompanies: seq<Company>, fault: bool)
      returns (ok: bool, created: Employee)
      requires Valid()
      requires forall c :: c in employeeCompanies ==> TrackedCompany(State(), c)
      modifies this
      ensures Valid()
      ensures inTransaction == old(inTransaction) && committed == old(committed) && savepoint == old(savepoint)
      ensures var r := InsertEmployee(old(State()), employee, employeeCompanies);
        && ok == (!fault && UniqueIndexes(r.state))
        && (ok ==> State() == r.state && created == r.employee)
        && (!ok ==> State() == old(State()))
    {
      var r := InsertEmployee(State(), employee, employeeCompanies);
      if fault || !UniqueIndexes(r.state) {
        return false, employee;
      }
      InsertEmployeeWellFormed(State(), employee, employeeCompanies);
      companies, employees, links := r.state.companies, r.state.employees, r.state.links;
      return true, r.employee;
    }

    /** `BeginTransactionAsync`: remembers the tables as they are now. */
    method BeginTransaction()
      requires Valid() && !inTransaction
      modifies this
      ensures Valid() && inTransaction && !committed
      ensures savepoint == old(State()) && State() == old(State())
    {
      inTransaction, committed, savepoint := true, false, State();
    }

    /** `CommitAsync`: makes the changes since the transaction began permanent, unless the
        database faults. */
    method Commit(fault: bool) returns (ok: bool)
      requires Valid() && inTransaction
      modifies this
      ensures Valid() && inTransaction && ok == !fault
      ensures committed == (old(committed) || ok)
      ensures State() == old(State()) && savepoint == old(savepoint)
    {
      ok := !fault;
      committed := committed || ok;
    }

    /** Disposing the transaction at the end of its scope: an uncommitted transaction is rolled
        back to the tables as they were when it began. */
    method EndTransaction()
      requires Valid() && inTransaction
      modifies this
      ensures Valid() && !inTransaction && !committed
      ensures State() == if old(committed) then old(State()) else old(savepoint)
    {
      if !committed {
        companies, employees, links := savepoint.companies, savepoint.employees, savepoint.links;
      }
      inTransaction, committed := false, false;
    }
  }

  /** `AllAsync` and `AnyAsync` are duals. */
  lemma AllIsNotAnyNot(store: Store, p: Company -> bool, q: Employee -> bool)
    ensures store.AllCompanies(p) == !store.AnyCompanies((c: Company) => !p(c))
    ensures store.AllEmployees(q) == !store.AnyEmployees((e: Employee) => !q(e))
  {
  }

  /** The filter "its id is one of `ids`". */
  function EmployeeIdIn(ids: seq<int>): Employee -> bool {
    (e: Employee) => e.Id() in ids
  }

  /** The same filter on companies. */
  function CompanyIdIn(ids: seq<int>): Company -> bool {
    (c: Company) => c.Id() in ids
  }

  /** On well-formed tables, loading employees by a list of ids finds as many rows as there are ids
      exactly when the ids are distinct and all of them exist. */
  lemma LoadEmployeesByIds(s: StoreState, ids: seq<int>)
    requires WellFormed(s)
    ensures |Where(s.employees, EmployeeIdIn(ids))| == |ids| <==>
              Distinct(ids) && forall id :: id in ids ==> exists e :: e in s.employees && e.Id() == id
  {
    var key := (e: Employee) => e.Id();
    assert DistinctKeys(s.employees, key);
    WhereByKeyCount(s.employees, key, EmployeeIdIn(ids), ids);
    KeysPresent(s.employees, key, ids);
  }

  /** The same for companies. */
  lemma LoadCompaniesByIds(s: StoreState, ids: seq<int>)
    requires WellFormed(s)
    ensures |Where(s.companies, CompanyIdIn(ids))| == |ids| <==>
              Distinct(ids) && forall id :: id in ids ==> exists c :: c in s.companies && c.Id() == id
  {
    var key := (c: Company) => c.Id();
    assert DistinctKeys(s.companies, key);
    WhereByKeyCount(s.companies, key, CompanyIdIn(ids), ids);
    KeysPresent(s.companies, key, ids);
  }
}
