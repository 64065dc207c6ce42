# CompanyEmployees: a Dafny model of company and employee creation with auditing

CompanyEmployees is a small web service. It creates companies together with their employees,
and it creates employees as members of existing companies. Every save of a company or an
employee is recorded in a separate audit store. This project models the core of that service
and proves properties of the model:

- `ResultOrError`: the result-or-error value every service returns, and the way the controllers
  turn it into a response (`result_or_error.dfy`).
- `ErrorBase` and the concrete errors, with their fixed messages and keys (`errors.dfy`).
- The entities and request/response objects (`entities.dfy`, `dto.dfy`).
- The generic repository over a relational store with two id-generating tables (modelled
  gap-free: the next id is the table length plus one), the company/employee membership table, the unique indexes on company name and employee email,
  and one transaction at a time (`repository.dfy`, the class `Repository.Store`).
- `CompanyService.CreateCompany` (`company_service.dfy`) and `EmployeeService.CreateEmployee`
  (`employee_service.dfy`): every validation in its order, the save, the commit or rollback,
  and the response.
- `AuditingInterceptor` (`auditing.dfy`): it turns the change tracker's entries into log
  entries before a save, patches the generated ids into them after the save, and writes them
  to the audit store.
- The LINQ operators the code relies on (`All`, `Any`, `Where`, `Count`, `Select`, `SelectMany`,
  `DistinctBy`), with their own properties (`linq.dfy`).

Each workflow is stated twice. A declarative ghost function (`CreationError`,
`EmployeeCreationError`) gives the first failing check over the store. The imperative method
runs the queries in the source's order, and its postcondition ties its result and the new
store state to that function. Both workflows keep the model's store invariants: ids are table
positions (a property of the gap-free id model, not of the database), memberships resolve, names and emails are unique, and no company has two
employees with the same title.

Environment inputs become parameters:

- the clock is `now`;
- database failures are `fault`;
- `JsonSerializer.Serialize` is a `serialize` function;
- the EF change tracker is a sequence of tracked entries, taken after `DetectChanges`.

A null name or
email in a request is modelled as the empty string, which every check treats the same way
(`string.IsNullOrEmpty`).

## Model

| member | source | states |
|---|---|---|
| ResultOrErrors.ResultOrError.MapErrorType | CompanyEmployees.Common/Models/ResultOrError.cs:76-84 | a checked error is replaced by the mapped result; a result or an unchecked error passes through unchanged |
| ResultOrErrors.ResultOrError.MapResult | CompanyEmployees.Common/Models/ResultOrError.cs:98-106 | an error stays the same error; a result becomes the mapped result |
| ResultOrErrors.HasErrorIffErrorConstructor | CompanyEmployees.Common/Models/ResultOrError.cs:23-62 | `HasError` holds exactly for values built from an error; `GetError` and `GetResult` give back what was stored |
| ResultOrErrors.MapResultIgnoresMapOnError | CompanyEmployees.Common/Models/ResultOrError.cs:98-106 | on an error the mapper is never consulted: any two mappers give the same value |
| ResultOrErrors.MapResultComposes | CompanyEmployees.Common/Models/ResultOrError.cs:98-106 | mapping twice is mapping once by the composition |
| ResultOrErrors.MapErrorTypeOnResult | CompanyEmployees.Common/Models/ResultOrError.cs:76-84 | a result is unaffected by error mapping |
| ResultOrErrors.MapErrorTypeTotalCheckClearsError | CompanyEmployees.Common/Models/ResultOrError.cs:76-84 | mapping with a check that accepts every error always leaves a result |
| ResultOrErrors.ControllerChain | CompanyEmployees.Api/Controllers/Companies.cs:50-53 | the controller's map chain always yields a response: the ok response for a result, the internal-error response for an internal error, the conflict response for any other error |
| Errors.MessageOnly | CompanyEmployees.Common/Errors/ErrorBase.cs:17-21 | an error built from a message alone has that message and the empty key |
| Errors.WithKey | CompanyEmployees.Common/Errors/ErrorBase.cs:30-34 | an error built from a message and a key reports both |
| Errors.FixedKeys | CompanyEmployees.Common/Constants.cs:78-108 | each error with a fixed key reports the key constant of the field it concerns; the internal error has the empty key |
| Errors.CallerKeys | CompanyEmployees.Common/Errors/UniqueIdentifierCannotBeNullOrEmptyError.cs:14-15 | the two errors whose key the caller chooses report exactly that key, with their fixed message |
| Errors.MessageIdentifiesKind | CompanyEmployees.Common/Constants.cs:16-67 | two errors have the same message exactly when they are of the same kind: the messages are pairwise distinct |
| Entities.NewCompany | CompanyEmployees.Persistence/Entities/Company.cs:22-25 | a new company is unsaved (id 0) and carries the given name and creation time |
| Entities.NewEmployee | CompanyEmployees.Persistence/Entities/Employee.cs:17-21 | a new employee is unsaved and carries the given title, email and creation time |
| Linq.All | CompanyEmployees.Persistence/Repositories/IRepository.cs:22-26 | true exactly when every element satisfies the predicate |
| Linq.Any | CompanyEmployees.Persistence/Repositories/IRepository.cs:28-35 | true exactly when some element satisfies the predicate |
| Linq.Where | CompanyEmployees.Persistence/Repositories/IRepository.cs:47-52 | the result is a sub-multiset of the input, holds only matching elements, and holds every matching one |
| Linq.WhereMembers | CompanyEmployees.Persistence/Repositories/IRepository.cs:47-52 | an element is in the filtered sequence exactly when it is in the input and matches |
| Linq.Count | CompanyEmployees.Core/Services/CompanyService.cs:82-84 | the count is the length of the filtered sequence |
| Linq.CountAboveZero | CompanyEmployees.Core/Services/EmployeeService.cs:62 | a positive count means some element matches, and conversely |
| Linq.CountAboveOne | CompanyEmployees.Core/Services/CompanyService.cs:82-84 | a count above one means two different positions match, and conversely |
| Linq.SelectConcat | CompanyEmployees.Persistence/Interceptors/AuditingInterceptor.cs:190-193 | projecting a concatenation is the concatenation of the projections |
| Linq.SelectMany | CompanyEmployees.Core/Services/EmployeeService.cs:62 | every element of every inner sequence is in the flattened sequence |
| Linq.SelectManyOrigin | CompanyEmployees.Core/Services/EmployeeService.cs:62 | every element of the flattened sequence comes from some inner sequence |
| Linq.DistinctBy | CompanyEmployees.Core/Services/CompanyService.cs:91 | the result is no longer than the input and holds only input elements |
| Linq.DistinctByKeysDistinct | CompanyEmployees.Core/Services/CompanyService.cs:91 | no two elements of the result share a key |
| Linq.DistinctByCoversKeys | CompanyEmployees.Core/Services/CompanyService.cs:91 | every key of the input is the key of some element of the result |
| Linq.WhereNone | CompanyEmployees.Core/Services/CompanyService.cs:80 | filtering a sequence none of whose elements pass gives the empty sequence |
| Linq.WhereAll | CompanyEmployees.Core/Services/CompanyService.cs:80 | filtering a sequence all of whose elements pass gives the sequence itself |
| Linq.DistinctByKeepsAll | CompanyEmployees.Core/Services/CompanyService.cs:91 | `DistinctBy` keeps every element exactly when no two elements share a key |
| Linq.WhereConcat | CompanyEmployees.Persistence/Interceptors/AuditingInterceptor.cs:89-115 | filtering a concatenation is the concatenation of the filtered parts |
| Linq.ElementsCardinality | CompanyEmployees.Core/Services/CompanyService.cs:73 | a sequence has at most as many distinct elements as its length, with equality exactly when it has no repetition |
| Linq.WhereKeepsDistinctKeys | CompanyEmployees.Core/Services/CompanyService.cs:72 | filtering rows with distinct keys leaves rows with distinct keys |
| Linq.WhereByKeyCount | CompanyEmployees.Core/Services/CompanyService.cs:71-73 | on rows with distinct keys, filtering by a list of keys finds as many rows as keys exactly when the list has no repetition and every key belongs to a row |
| Linq.KeysPresent | CompanyEmployees.Core/Services/CompanyService.cs:71-73 | every wanted key is the key of a row at some position exactly when it is the key of some row |
| Repository.AssignIds | CompanyEmployees.Persistence/Repositories/Repository.cs:26-41 | saving a collection keeps one member per member and numbers the inserted rows in order from the next free id |
| Repository.AssignIdsKeepData | CompanyEmployees.Persistence/Repositories/Repository.cs:26-41 | every member of the saved collection keeps its title, email and creation time |
| Repository.AssignIdsKeepSaved | CompanyEmployees.Persistence/Repositories/Repository.cs:26-41 | a member that already has an id is kept exactly as it is |
| Repository.AssignIdsInsertUnsaved | CompanyEmployees.Persistence/Repositories/Repository.cs:26-41 | a member without an id becomes one of the inserted rows |
| Repository.RowAtId | CompanyEmployees.Persistence/Repositories/Repository.cs:26-41 | a row of rows numbered from the next id is found at the position its id gives |
| Repository.AssignedMembersStored | CompanyEmployees.Persistence/Repositories/Repository.cs:26-41 | after the new rows are appended, every member of the collection is the row with its id |
| Repository.InsertCompany | CompanyEmployees.Persistence/Repositories/IRepository.cs:13-19 | the company gets the next company id and keeps its name and time; the old employee rows are a prefix of the new table; members keep their data, saved members stay unchanged |
| Repository.InsertCompanyAddsRows | CompanyEmployees.Persistence/Repositories/Repository.cs:26-41 | the employee table grows by exactly the unsaved members, appended in order with their data; the links grow by one pair (new company, member) per member and keep the old ones |
| Repository.InsertCompanyIds | CompanyEmployees.Persistence/Repositories/Repository.cs:26-41 | the save keeps ids equal to table positions |
| Repository.InsertCompanyMembersStored | CompanyEmployees.Persistence/Repositories/Repository.cs:26-41 | after the save every member of the company is a stored row |
| Repository.InsertCompanyWellFormed | CompanyEmployees.Persistence/Repositories/IRepository.cs:13-19 | a save the unique indexes accept leaves well-formed tables, and every member is linked to the new company |
| Repository.InsertEmployee | CompanyEmployees.Persistence/Repositories/IRepository.cs:13-19 | the employee gets the next employee id and keeps its data; the company table is unchanged and the employee table grows by that one row |
| Repository.InsertEmployeeWellFormed | CompanyEmployees.Persistence/Repositories/IRepository.cs:13-19 | a save the unique indexes accept leaves well-formed tables |
| Repository.InsertEmployeeCompanies | CompanyEmployees.Core/Services/EmployeeService.cs:69-74 | the new employee's companies are exactly the companies it was saved with |
| Repository.NewEmployeeLinkedTo | CompanyEmployees.Core/Services/EmployeeService.cs:69-74 | a stored company is linked to the newly saved employee exactly when it is in the employee's collection |
| Repository.StoredRowsTracked | CompanyEmployees.Persistence/Repositories/IRepository.cs:47-62 | every stored row is the row with its own id, as a loaded entity is |
| Repository.InsertedAreUnsavedMembers | CompanyEmployees.Persistence/Repositories/Repository.cs:26-41 | the rows inserted for a collection are its unsaved members, in order |
| Repository.SameDataCons | CompanyEmployees.Persistence/Repositories/Repository.cs:26-41 | two collections that agree on employee data member by member still agree after one more member each |
| Repository.InsertedEmails | CompanyEmployees.Persistence/Repositories/Repository.cs:26-41 | inserted rows carry the emails of unsaved members, and distinct members give distinct emails |
| Repository.AssignedEmailsUnique | CompanyEmployees.Persistence/Migrations/20231109123313_AddUniqueConstraints.cs:33-43 | new rows with emails distinct among themselves and from the table keep the email index unique |
| Repository.AssignedTitlesDistinct | CompanyEmployees.Persistence/Repositories/Repository.cs:26-41 | saving keeps the members' titles pairwise distinct |
| Repository.InsertCompanyUniqueIndexes | CompanyEmployees.Persistence/Migrations/20231109123313_AddUniqueConstraints.cs:33-43 | a new name and new, distinct emails keep both unique indexes |
| Repository.InsertCompanyKeepsTitlesUnique | CompanyEmployees.Core/Services/CompanyService.cs:82-89 | members with distinct titles keep every company free of two employees with one title |
| Repository.OldLinkPair | CompanyEmployees.Core/Services/CompanyService.cs:82-89 | memberships that existed before the save still join employees of different titles |
| Repository.NewLinkPair | CompanyEmployees.Core/Services/CompanyService.cs:82-89 | two memberships added by the save join employees of different titles |
| Repository.MembersTitles | CompanyEmployees.Core/Services/CompanyService.cs:82-89 | members with distinct titles by position have distinct titles by id |
| Repository.InsertEmployeeUniqueIndexes | CompanyEmployees.Persistence/Migrations/20231109123313_AddUniqueConstraints.cs:33-43 | a new email keeps both unique indexes |
| Repository.InsertEmployeeKeepsTitlesUnique | CompanyEmployees.Core/Services/EmployeeService.cs:62-67 | a title no requested company holds keeps every company free of two employees with one title |
| Repository.NewLinkTitleDiffers | CompanyEmployees.Core/Services/EmployeeService.cs:62-67 | a company the new employee joins holds no earlier employee with the new employee's title |
| Repository.Store.constructor | CompanyEmployees.Persistence/ApplicationDbContext.cs:50-58 | the store starts with empty tables and no transaction open |
| Repository.Store.AllCompanies | CompanyEmployees.Persistence/Repositories/IRepository.cs:22-26 | true exactly when every stored company satisfies the predicate |
| Repository.Store.AnyCompanies | CompanyEmployees.Persistence/Repositories/IRepository.cs:28-35 | true exactly when some stored company satisfies the predicate |
| Repository.Store.WhereCompanies | CompanyEmployees.Persistence/Repositories/IRepository.cs:47-52 | holds exactly the stored companies that satisfy the predicate, each no more often than it is stored |
| Repository.Store.WhereIncludeCompanies | CompanyEmployees.Persistence/Repositories/IRepository.cs:54-62 | the filtered companies, each with exactly its stored employees |
| Repository.Store.AllEmployees | CompanyEmployees.Persistence/Repositories/IRepository.cs:22-26 | true exactly when every stored employee satisfies the predicate |
| Repository.Store.AnyEmployees | CompanyEmployees.Persistence/Repositories/IRepository.cs:28-35 | true exactly when some stored employee satisfies the predicate |
| Repository.Store.WhereEmployees | CompanyEmployees.Persistence/Repositories/IRepository.cs:47-52 | holds exactly the stored employees that satisfy the predicate, each no more often than it is stored |
| Repository.Store.WhereIncludeEmployees | CompanyEmployees.Persistence/Repositories/IRepository.cs:54-62 | the filtered employees, each with exactly its stored companies |
| Repository.Store.AddCompany | CompanyEmployees.Persistence/Repositories/Repository.cs:26-41 | the save succeeds exactly when the database does not fault and the unique indexes accept the rows; then the tables are those of `InsertCompany`, otherwise unchanged; the tables stay well-formed |
| Repository.Store.AddEmployee | CompanyEmployees.Persistence/Repositories/Repository.cs:26-41 | the same for a new employee and `InsertEmployee` |
| Repository.Store.BeginTransaction | CompanyEmployees.Persistence/Repositories/IRepository.cs:37-45 | opens an uncommitted transaction that remembers the current tables, changing no table |
| Repository.Store.Commit | CompanyEmployees.Core/Services/CompanyService.cs:105 | the commit succeeds exactly when the database does not fault, and the transaction is then committed |
| Repository.Store.EndTransaction | CompanyEmployees.Persistence/Repositories/IRepository.cs:37-45 | a committed transaction keeps the tables; an uncommitted one rolls them back to where it began |
| Repository.AllIsNotAnyNot | CompanyEmployees.Persistence/Repositories/IRepository.cs:22-35 | `AllAsync` of a predicate is the negation of `AnyAsync` of its negation |
| Repository.LoadEmployeesByIds | CompanyEmployees.Core/Services/CompanyService.cs:71-78 | loading employees by ids finds one row per id exactly when the ids are distinct and all exist |
| Repository.LoadCompaniesByIds | CompanyEmployees.Core/Services/EmployeeService.cs:51-60 | loading companies by ids finds one row per id exactly when the ids are distinct and all exist |
| CompanyServices.RequestError | CompanyEmployees.Core/Services/CompanyService.cs:37-50 | an empty name fails first; then an entry with neither id nor email; then an entry with an id and also an email or a title; it passes exactly when none of these holds |
| CompanyServices.DuplicateTitlesIffShared | CompanyEmployees.Core/Services/CompanyService.cs:82-84 | the three per-title counts flag duplicates exactly when two members share a title |
| CompanyServices.DuplicateEmailsIffShared | CompanyEmployees.Core/Services/CompanyService.cs:91 | the `DistinctBy` comparison flags duplicates exactly when two members share an email |
| CompanyServices.MembersShape | CompanyEmployees.Core/Services/CompanyService.cs:80 | the members are the referenced employees then the new ones, with the requested titles and emails position by position |
| CompanyServices.MembersOrigin | CompanyEmployees.Core/Services/CompanyService.cs:80 | the referenced members are stored rows; the others are new, unsaved, timestamped now, with the requested emails in order |
| CompanyServices.DistinctTitlesAtMostThree | CompanyEmployees.Core/Services/CompanyService.cs:82-89 | with three titles, a company that passes the title check has at most three employees |
| CompanyServices.FourTitlesRepeat | CompanyEmployees.Common/Models/EmployeeTitle.cs:1-23 | any four titles include a repeat |
| CompanyServices.TitleCheck | CompanyEmployees.Core/Services/CompanyService.cs:82-86 | the workflow's title check fails exactly when the members' titles repeat |
| CompanyServices.EmailCheck | CompanyEmployees.Core/Services/CompanyService.cs:91-93 | the workflow's email check fails exactly when the members' emails repeat |
| CompanyServices.MembersClassified | CompanyEmployees.Core/Services/CompanyService.cs:71-80 | a saved member is a stored row; an unsaved one carries a requested new email |
| CompanyServices.CreationKeepsInvariants | CompanyEmployees.Core/Services/CompanyService.cs:98-103 | a request that passes every check keeps the unique indexes and titles unique per company |
| CompanyServices.CreationErrorOfMembers | CompanyEmployees.Core/Services/CompanyService.cs:82-96 | once the earlier checks pass, the outcome is the title error, then the email error, or success exactly when titles and emails are both distinct |
| CompanyServices.MembersDecide | CompanyEmployees.Core/Services/CompanyService.cs:82-96 | once the references resolve, duplicate titles among the members give the title error, then duplicate emails the email error, and otherwise the company can be created |
| CompanyServices.LoadedMembers | CompanyEmployees.Core/Services/CompanyService.cs:71-80 | the employees loaded by id, followed by the new ones, are exactly the members the company is saved with |
| CompanyServices.CreatedCompanyDto | CompanyEmployees.Core/Services/CompanyService.cs:107-120 | the response carries the next company id, the requested name, the time of the save, and one employee per referenced or new entry, at most three |
| CompanyServices.CreatedEmployeeDtos | CompanyEmployees.Core/Services/CompanyService.cs:112-119 | each employee in the response has the requested title and email, and the new company's id among its company ids |
| CompanyServices.ListedCompanyId | CompanyEmployees.Core/Services/CompanyService.cs:118 | the id of every listed company is among the listed ids |
| CompanyServices.EmailOnlyEntryPasses | CompanyEmployees.Core/Services/CompanyService.cs:42-50 | an entry with an email but no id and no title passes the request checks |
| CompanyServices.EmailOnlyEntryUnused | CompanyEmployees.Core/Services/CompanyService.cs:63-71 | such an entry neither creates nor refers to an employee |
| CompanyServices.WhereSkipsFailing | CompanyEmployees.Core/Services/CompanyService.cs:63 | appending an element that fails the filter does not change the filtered sequence |
| CompanyServices.AnyIgnoresFailing | CompanyEmployees.Core/Services/CompanyService.cs:42-47 | appending an element that fails the test does not change `Any` |
| CompanyServices.EntryWithEmailOnlyIsIgnored | CompanyEmployees.Core/Services/CompanyService.cs:42-80 | such an entry changes neither the outcome of the checks nor the members |
| CompanyServices.CreateCompany | CompanyEmployees.Core/Services/CompanyService.cs:35-127 | the first failing check is returned and the store is unchanged; a database fault gives the internal error and a rolled-back store; otherwise the response describes the saved company and the store is the one after the save; the invariants hold throughout |
| CompanyServices.UnsavedMembersAreNew | CompanyEmployees.Core/Services/CompanyService.cs:80 | of the members, exactly the employees created from the request are unsaved: the referenced ones are stored rows |
| CompanyServices.ReferencedAreSaved | CompanyEmployees.Core/Services/CompanyService.cs:71-72 | every employee a request refers to by id is a stored row with an id |
| CompanyServices.CreationAddsNewEmployees | CompanyEmployees.Core/Services/CompanyService.cs:80-105 | a successful creation appends the company, appends one employee row per new employee in request order with its title, email and creation time, and links the new company to every member, existing or new |
| EmployeeServices.TitleCheck | CompanyEmployees.Core/Services/EmployeeService.cs:62-67 | the check over the loaded employees of the requested companies passes exactly when no requested company holds the title |
| EmployeeServices.TitleDecides | CompanyEmployees.Core/Services/EmployeeService.cs:62-67 | once email and companies pass, the title check over the loaded employees decides between the title error and success |
| EmployeeServices.LoadedCompanies | CompanyEmployees.Core/Services/EmployeeService.cs:51-60 | the companies loaded with their employees are the requested companies, and their employees are those of the requested companies |
| EmployeeServices.TakenTitleLoaded | CompanyEmployees.Core/Services/EmployeeService.cs:51-62 | a title held in a requested company appears among the loaded employees |
| EmployeeServices.LoadedTitleTaken | CompanyEmployees.Core/Services/EmployeeService.cs:51-62 | a title among the loaded employees is held in a requested company |
| EmployeeServices.NoCompaniesNoConflict | CompanyEmployees.Core/Services/EmployeeService.cs:51-55 | with no company ids, the company and title checks both pass |
| EmployeeServices.RequestedCompaniesStored | CompanyEmployees.Core/Services/EmployeeService.cs:51-53 | the loaded companies are stored rows with requested ids |
| EmployeeServices.EmployeeCreationKeepsInvariants | CompanyEmployees.Core/Services/EmployeeService.cs:69-74 | a request that passes every check keeps the unique indexes and titles unique per company |
| EmployeeServices.CreatedEmployeeDto | CompanyEmployees.Core/Services/EmployeeService.cs:76-83 | the response has the next employee id, the requested email and title, the time of the save, one company id per requested id, and the stored memberships are exactly the requested companies |
| EmployeeServices.CreatedEmployeeCompanyIds | CompanyEmployees.Core/Services/EmployeeService.cs:82 | the response lists exactly the requested company ids |
| EmployeeServices.EmployeeCreationErrorOfTitle | CompanyEmployees.Core/Services/EmployeeService.cs:62-67 | once the earlier checks pass, the outcome is the title error exactly when the title is taken, and success otherwise |
| EmployeeServices.CreateEmployee | CompanyEmployees.Core/Services/EmployeeService.cs:35-90 | the first failing check is returned and the store is unchanged; a database fault gives the internal error; otherwise the response describes the saved employee and the store is the one after the save; the invariants hold throughout |
| Auditing.GetEventType | CompanyEmployees.Persistence/Interceptors/AuditingInterceptor.cs:154-162 | added entries are creations, modified entries updates, and every other state is skipped |
| Auditing.GetResourceType | CompanyEmployees.Persistence/Interceptors/AuditingInterceptor.cs:164-172 | employees and companies have their own resource type; any other entity is skipped |
| Auditing.IdentifierIsBusinessKey | CompanyEmployees.Persistence/Interceptors/AuditingInterceptor.cs:174-188 | a company is identified by its name, an employee by its email, anything else by the empty string |
| Auditing.CommentTellsEvent | CompanyEmployees.Persistence/Interceptors/AuditingInterceptor.cs:136-151 | creation and update comments are never equal and never empty; a skipped event has the empty comment |
| Auditing.CommentTellsIdentifier | CompanyEmployees.Persistence/Interceptors/AuditingInterceptor.cs:136-151 | for a recorded event the comment determines the identifier |
| Auditing.ChangesetOf | CompanyEmployees.Persistence/Interceptors/AuditingInterceptor.cs:120-134 | one item per property, in order, with its name and its current and original values, a missing value becoming the empty string |
| Auditing.GetChangeset | CompanyEmployees.Persistence/Interceptors/AuditingInterceptor.cs:120-134 | the loop builds exactly that changeset |
| Auditing.AuditEntriesContent | CompanyEmployees.Persistence/Interceptors/AuditingInterceptor.cs:89-115 | exactly the added or modified companies and employees are recorded, one entry each in tracker order, with their identifier, type, event, time, comment and changeset |
| Auditing.AuditEntriesStep | CompanyEmployees.Persistence/Interceptors/AuditingInterceptor.cs:89-115 | one more tracked entry adds its log entry when it is recorded and nothing otherwise |
| Auditing.CreateAuditEntry | CompanyEmployees.Persistence/Interceptors/AuditingInterceptor.cs:78-118 | the loop returns exactly the log entries of the tracker |
| Auditing.ToSystemLog | CompanyEmployees.Persistence/Interceptors/AuditingInterceptor.cs:190-193 | one system log per entry, in order, carrying its type, time, event, comment and serialised changeset |
| Auditing.ToSystemLogConcat | CompanyEmployees.Persistence/Interceptors/AuditingInterceptor.cs:190-193 | the conversion of a concatenation is the concatenation of the conversions |
| Auditing.FirstIdIndex | CompanyEmployees.Persistence/Interceptors/AuditingInterceptor.cs:222 | the position of the first `"Id"` item, or none exactly when there is no such item |
| Auditing.FirstIdIndexByKeys | CompanyEmployees.Persistence/Interceptors/AuditingInterceptor.cs:222 | changesets with the same keys have their first `"Id"` item at the same position |
| Auditing.SetId | CompanyEmployees.Persistence/Interceptors/AuditingInterceptor.cs:222-232 | patching succeeds exactly when there is an `"Id"` item; it then changes only that item's new value, to the given id |
| Auditing.PatchMatchingShape | CompanyEmployees.Persistence/Interceptors/AuditingInterceptor.cs:215-233 | the inner loop keeps the buffer's length, changes only first `"Id"` values, and leaves entries of other identifiers alone |
| Auditing.PatchMatchingChangesIds | CompanyEmployees.Persistence/Interceptors/AuditingInterceptor.cs:215-233 | the inner loop keeps the buffer's length and changes nothing but the new value of first `"Id"` items |
| Auditing.PatchMatchingKeepsOthers | CompanyEmployees.Persistence/Interceptors/AuditingInterceptor.cs:215-233 | the inner loop leaves entries recorded under other identifiers as they are |
| Auditing.SameExceptIdReflexive | CompanyEmployees.Persistence/Interceptors/AuditingInterceptor.cs:215-233 | an entry differs from itself at most in its id |
| Auditing.PatchMatchingOk | CompanyEmployees.Persistence/Interceptors/AuditingInterceptor.cs:215-233 | the inner loop finishes exactly when every entry of the identifier has an `"Id"` item, and each then holds the id |
| Auditing.PatchMatchingFinishes | CompanyEmployees.Persistence/Interceptors/AuditingInterceptor.cs:215-233 | the inner loop finishes exactly when every entry recorded under the identifier has an `"Id"` item |
| Auditing.PatchMatchingSetsIds | CompanyEmployees.Persistence/Interceptors/AuditingInterceptor.cs:215-233 | when the inner loop finishes, every entry recorded under the identifier holds the id in its first `"Id"` item |
| Auditing.PatchMatchingAt | CompanyEmployees.Persistence/Interceptors/AuditingInterceptor.cs:215-233 | the patch of a suffix of the buffer skips, stops at or patches its first entry according to that entry |
| Auditing.SameExceptIdTransitive | CompanyEmployees.Persistence/Interceptors/AuditingInterceptor.cs:204-234 | repeated patching still changes only first `"Id"` values |
| Auditing.PatchWithShape | CompanyEmployees.Persistence/Interceptors/AuditingInterceptor.cs:204-234 | `UpdateIds` keeps the buffer's length, changes only first `"Id"` values, and leaves entries no tracked entity names alone |
| Auditing.PatchWithOk | CompanyEmployees.Persistence/Interceptors/AuditingInterceptor.cs:204-234 | `UpdateIds` finishes without "No ID record." exactly when every entry named by a tracked company or employee has an `"Id"` item |
| Auditing.SameKeysAndIdItems | CompanyEmployees.Persistence/Interceptors/AuditingInterceptor.cs:204-234 | entries equal up to ids have the same business keys and the same `"Id"` items |
| Auditing.AllHaveIdsPatchOk | CompanyEmployees.Persistence/Interceptors/AuditingInterceptor.cs:204-234 | when every buffered entry has an `"Id"` item, `UpdateIds` never fails |
| Auditing.PatchWithLastMatch | CompanyEmployees.Persistence/Interceptors/AuditingInterceptor.cs:204-234 | after `UpdateIds` an entry holds the id of the last tracked entity with its identifier |
| Auditing.PatchWithFirstMatch | CompanyEmployees.Persistence/Interceptors/AuditingInterceptor.cs:204-234 | an entry whose key only the first tracked entity has ends up holding that entity's id |
| Auditing.IdThroughTwoPatches | CompanyEmployees.Persistence/Interceptors/AuditingInterceptor.cs:204-234 | the id written by a later patch survives as the id of the original entry |
| Auditing.PatchEntries | CompanyEmployees.Persistence/Interceptors/AuditingInterceptor.cs:215-233 | the in-place loop over the buffer computes exactly the patch of the inner loop |
| Auditing.PatchSkipStep | CompanyEmployees.Persistence/Interceptors/AuditingInterceptor.cs:217-220 | an entry of another identifier is passed over and the loop invariant advances |
| Auditing.PatchStopStep | CompanyEmployees.Persistence/Interceptors/AuditingInterceptor.cs:222-227 | an entry of the identifier with no `"Id"` item stops the loop with exactly the inner loop's failed patch |
| Auditing.PatchSetStep | CompanyEmployees.Persistence/Interceptors/AuditingInterceptor.cs:222-232 | an entry of the identifier with an `"Id"` item gets the id and the loop invariant advances |
| Auditing.PrefixedTwice | CompanyEmployees.Persistence/Interceptors/AuditingInterceptor.cs:215-233 | prefixing a patch with two runs of entries is prefixing it with their concatenation |
| Auditing.UpdateIds | CompanyEmployees.Persistence/Interceptors/AuditingInterceptor.cs:195-235 | the nested loops compute exactly `PatchWith`, including where they stop |
| Auditing.SavedChangesAsWritten | CompanyEmployees.Persistence/Interceptors/AuditingInterceptor.cs:41-49 | after a successful patch every buffered entry is written, and the buffer keeps its length; after a failed patch nothing is written |
| Auditing.SavedChangesClearing | CompanyEmployees.Persistence/Interceptors/AuditingInterceptor.cs:41-49 | corrected: the same writes, and the buffer is empty after a successful save |
| Auditing.SecondSaveRewritesFirst | CompanyEmployees.Persistence/Interceptors/AuditingInterceptor.cs:41-49 | as written, a second save writes the first save's records again, ahead of its own |
| Auditing.TwoSavesWriteThreeRecords | CompanyEmployees.Persistence/Interceptors/AuditingInterceptor.cs:41-49 | as written, two saves of one new company each leave three records, the first company's twice |
| Auditing.SecondCompanySaved | CompanyEmployees.Persistence/Interceptors/AuditingInterceptor.cs:41-49 | two saves of one new company each, with the buffer kept between them, both finish, and the first writes one record |
| Auditing.OneCompanySaved | CompanyEmployees.Persistence/Interceptors/AuditingInterceptor.cs:41-49 | saving one new company writes one record and keeps it buffered |
| Auditing.CreatedCompanyEntry | CompanyEmployees.Persistence/Interceptors/AuditingInterceptor.cs:89-115 | a new company gives one log entry, and it has an `"Id"` item |
| Auditing.ClearingSaveWritesEachRecordOnce | CompanyEmployees.Persistence/Interceptors/AuditingInterceptor.cs:41-49 | corrected: each save writes only its own records |
| Auditing.AuditStore.constructor | CompanyEmployees.Persistence/AuditDbContext.cs:1-29 | the audit store starts empty |
| Auditing.AuditStore.AddRange | CompanyEmployees.Persistence/Interceptors/AuditingInterceptor.cs:45 | the logs are appended after those already stored |
| Auditing.AuditingInterceptor.constructor | CompanyEmployees.Persistence/Interceptors/AuditingInterceptor.cs:15-24 | the interceptor starts with an empty buffer and the given audit store |
| Auditing.AuditingInterceptor.SaveChangesFailed | CompanyEmployees.Persistence/Interceptors/AuditingInterceptor.cs:27-30 | a failed save drops the buffered entries |
| Auditing.AuditingInterceptor.SaveChangesFailedAsync | CompanyEmployees.Persistence/Interceptors/AuditingInterceptor.cs:33-38 | the same, asynchronously |
| Auditing.AuditingInterceptor.SavingChanges | CompanyEmployees.Persistence/Interceptors/AuditingInterceptor.cs:63-68 | this save's log entries go after those already buffered; the result passes through |
| Auditing.AuditingInterceptor.SavingChangesAsync | CompanyEmployees.Persistence/Interceptors/AuditingInterceptor.cs:71-76 | the same, asynchronously |
| Auditing.AuditingInterceptor.SavedChanges | CompanyEmployees.Persistence/Interceptors/AuditingInterceptor.cs:41-49 | the buffer becomes the patched buffer and the audit store gains exactly what `SavedChangesAsWritten` writes |
| Auditing.AuditingInterceptor.SavedChangesAsync | CompanyEmployees.Persistence/Interceptors/AuditingInterceptor.cs:52-60 | the same, asynchronously |
| Auditing.AuditingInterceptor.SavedChangesAndClear | CompanyEmployees.Persistence/Interceptors/AuditingInterceptor.cs:41-49 | corrected: the store gains what `SavedChangesClearing` writes, and the buffer is emptied after a successful save |

## Left out

- Asynchrony (`Task`, `ValueTask`, `CancellationToken`) and concurrency: each asynchronous method is modelled as its synchronous counterpart.
- Logging (`ILogger`, `Console.WriteLine`): it has no effect on results.
- `DateTime.UtcNow`: it is the `now` parameter.
- `JsonSerializer.Serialize`: it is the `serialize` parameter, an arbitrary function.
- EF Core's change tracker: given as a sequence of tracked entries after `DetectChanges`. The null-context `ArgumentNullException` cannot arise in the model.
- Queries return rows in table order; the database's actual row order is not modelled.
- Database failures are modelled only at the insert and at the commit (`fault`). An exception thrown by a query is not modelled.
- A failure of the audit store's own `SaveChanges` is not modelled: writing logs always succeeds.
- Auditing.UpdateIds: requires that no tracked entity has two properties named `"Id"`. The source's `SingleOrDefault` throws then, and only when a buffered entry of that entity is patched. The entities in this domain have a single `Id` key.
- Auditing.UpdateIds: where the source throws "No ID record.", the model returns `ok = false`, keeps the partial patch, and writes nothing. The exception propagating out of `SaveChanges` is not modelled.
- Auditing.AuditingInterceptor.SavedChanges: the buffer is a value sequence that the method reassigns. Sharing of log-entry objects and their in-place mutation by other holders are not modelled.
- `UpdateIds` matches buffered entries by business key only, so a company named like an employee's email receives the last matching entity's id. The model keeps this behaviour (`Auditing.PatchWithLastMatch`) and claims no finding about it.
- Duplicate ids in a request fail the existence check (`EmployeeDoesNotExist`, `CompanyDoesNotExist`), as written.
- Names and emails are compared by ordinal string equality, as the tests' in-memory store does (CompanyEmployees.UnitTests/CompanyTests.cs:214). The production MySQL store compares case-insensitively, so there "Acme" and "ACME" clash as company names, and a second employee "A@x.com" next to "a@x.com" passes the service's `DistinctBy` check but fails the unique index, giving the internal error instead of the duplicate-email error. The model does not capture these outcomes.
- Ids are gap-free: a new row's id is the table length plus one, and after a rolled-back insert the next insert receives the same id again (the lemmas `CompanyServices.CreatedCompanyDto`, `EmployeeServices.CreatedEmployeeDto` and the id ensures of `Repository.InsertCompany`, `Repository.InsertEmployee` rely on this). MySQL's `AUTO_INCREMENT` does not reuse ids after a rollback, so real ids can have gaps; the model states ids as table positions instead.
- One `now` is used for the company and for all employees a request creates. The source reads `DateTime.UtcNow` separately in each entity's constructor (CompanyEmployees.Persistence/Entities/AuditableEntity.cs:17,27), so the company and each new employee (CompanyEmployees.Core/Services/CompanyService.cs:80, :98) can get slightly different creation times.
- The audit records are written to a separate audit context inside `SavedChanges`, before the service commits (CompanyEmployees.Core/Services/CompanyService.cs:105); a later rollback therefore does not remove them. `CompanyServices.CreateCompany` and `EmployeeServices.CreateEmployee` are not connected to the interceptor in the model: the audit trail is modelled separately in `Auditing`, and the model does not state that an audit record can outlive a rolled-back save.
- The controllers, `Program.cs`, the EF Core plumbing of `Repository.cs` and the database contexts are not part of this model, beyond the response mapping (`ResultOrErrors.ControllerChain`). So are the duplicate service interface files and the unit tests. The migration appears only as the unique-index invariant.

## Findings

| source | as written | input that shows it | evidently intended | confidence | as-written member | corrected member |
|---|---|---|---|---|---|---|
| CompanyEmployees.Persistence/Interceptors/AuditingInterceptor.cs:41-60 | `SavedChanges` writes every buffered entry to the audit store but never clears the buffer. A second save through the same interceptor therefore writes the earlier entries again | two saves on one interceptor, the first creating company "A", the second company "B": the audit store ends with three records, "A" twice | each buffered entry is written once, then the buffer is emptied | medium, not executed: the interceptor is registered per request (CompanyEmployees.Api/Program.cs:26) and each workflow saves once, so the duplicate appears only when one interceptor sees several saves | Auditing.AuditingInterceptor.SavedChanges, Auditing.SecondSaveRewritesFirst, Auditing.TwoSavesWriteThreeRecords | Auditing.AuditingInterceptor.SavedChangesAndClear, Auditing.ClearingSaveWritesEachRecordOnce |
