/** The persisted entities: companies and employees, both auditable (an `Id` the database
    assigns on insert and a creation time), and the closed set of employee titles. */
module Entities {

  /** A point in time (`DateTime`), as an opaque tick count. */
  type Timestamp = int

  /** The id an entity has before the database assigned one (the default of `int`). */
  const UnsavedId: int := 0

  datatype EmployeeTitle = Developer | Manager | Tester

  /** The `Id` and `CreatedAt` shared by every auditable entity. */
  datatype AuditableEntity = AuditableEntity(id: int, createdAt: Timestamp)

  datatype Company = Company(audit: AuditableEntity, name: string) {
    function Id(): int { audit.id }
  }

  datatype Employee = Employee(audit: AuditableEntity, title: EmployeeTitle, email: string) {
    function Id(): int { audit.id }
  }

  /** `new Company(name)`: not yet saved, created now. */
  function NewCompany(name: string, now: Timestamp): (c: Company)
    ensures c.Id() == UnsavedId && c.audit.createdAt == now && c.name == name
  {
    Company(AuditableEntity(UnsavedId, now), name)
  }

  /** `new Employee(title, email)`: not yet saved, created now. */
  function NewEmployee(title: EmployeeTitle, email: string, now: Timestamp): (e: Employee)
    ensures e.Id() == UnsavedId && e.audit.createdAt == now && e.title == title && e.email == email
  {
    Employee(AuditableEntity(UnsavedId, now), title, email)
  }
}
