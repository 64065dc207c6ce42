/** The closed set of domain errors: `ErrorBase` and its subclasses, with the key and
    message strings of `Constants.Keys` and `Constants.Errors`. */
module Errors {

  // Constants.Errors: the message of each error kind.
  const CannotCreateEmployeesWithSameEmailErrorMessage := "Cannot create more than one employee in a company with the same email."
  const CannotCreateEmployeesWithSameTitleInCompanyErrorMessage := "Cannot create more than one employee in a company with the same title."
  const CannotCreateEmployeeWithIdErrorMessage := "Cannot create an employee with an assigned Id. Properties Email and Title are mutually exclusive with the Id property."
  const CompanyDoesNotExistErrorMessage := "The specified company does not exist."
  const CompanyWithSameNameAlreadyExistsErrorMessage := "A company with the same name already exists."
  const EmployeeDoesNotExistErrorMessage := "The specified employee does not exist."
  const EmployeeWithSameEmailAlreadyExistsErrorMessage := "An Employee with the same email address already exists."
  const EmployeeWithSameTitleAlreadyExistsInCompanyErrorMessage := "An Employee with the same title already exists within the company."
  const InternalErrorMessage := "An internal server error has occured."
  const UniqueIdentifierCannotBeNullOrEmptyErrorMessage := "Unique identifier cannot be null or empty."

  // Constants.Keys: the request field an error is attributed to.
  const CompanyIdsKey := "companyIds"
  const EmailKey := "email"
  const EmployeesEmailKey := "employees.email"
  const EmployeesIdKey := "employees.id"
  const EmployeesTitleKey := "employees.title"
  const NameKey := "name"
  const TitleKey := "title"

  /** The state of an `ErrorBase` object: its read-only key and message. */
  datatype ErrorBase = ErrorBase(key: string, message: string) {
    function GetKey(): string { key }
    function GetMessage(): string { message }
  }

  /** The protected constructor `ErrorBase(message)`, which leaves the key empty. */
  function MessageOnly(message: string): (e: ErrorBase)
    ensures e.GetKey() == "" && e.GetMessage() == message
  {
    ErrorBase("", message)
  }

  /** The protected constructor `ErrorBase(message, key)`. */
  function WithKey(message: string, key: string): (e: ErrorBase)
    ensures e.GetKey() == key && e.GetMessage() == message
  {
    ErrorBase(key, message)
  }

  /** One constructor per subclass of `ErrorBase`; two of them take the key from the caller. */
  datatype Error =
    | UniqueIdentifierCannotBeNullOrEmpty(givenKey: string)
    | CannotCreateEmployeeWithId
    | CannotCreateEmployeesWithSameEmail
    | CannotCreateEmployeesWithSameTitleInCompany
    | CompanyDoesNotExist
    | CompanyWithSameNameAlreadyExists
    | EmployeeDoesNotExist
    | EmployeeWithSameEmailAlreadyExists(givenKey: string)
    | EmployeeWithSameTitleAlreadyExistsInCompany
    | InternalServerError
  {
    /** The `ErrorBase` each subclass constructor builds: the base constructor it calls, with its arguments. */
    function Base(): ErrorBase {
      match this
      case UniqueIdentifierCannotBeNullOrEmpty(k) => WithKey(UniqueIdentifierCannotBeNullOrEmptyErrorMessage, k)
      case CannotCreateEmployeeWithId => WithKey(CannotCreateEmployeeWithIdErrorMessage, EmployeesIdKey)
      case CannotCreateEmployeesWithSameEmail => WithKey(CannotCreateEmployeesWithSameEmailErrorMessage, EmployeesEmailKey)
      case CannotCreateEmployeesWithSameTitleInCompany => WithKey(CannotCreateEmployeesWithSameTitleInCompanyErrorMessage, EmployeesTitleKey)
      case CompanyDoesNotExist => WithKey(CompanyDoesNotExistErrorMessage, CompanyIdsKey)
      case CompanyWithSameNameAlreadyExists => WithKey(CompanyWithSameNameAlreadyExistsErrorMessage, NameKey)
      case EmployeeDoesNotExist => WithKey(EmployeeDoesNotExistErrorMessage, EmployeesIdKey)
      case EmployeeWithSameEmailAlreadyExists(k) => WithKey(EmployeeWithSameEmailAlreadyExistsErrorMessage, k)
      case EmployeeWithSameTitleAlreadyExistsInCompany => WithKey(EmployeeWithSameTitleAlreadyExistsInCompanyErrorMessage, TitleKey)
      case InternalServerError => MessageOnly(InternalErrorMessage)
    }

    /** `IError.GetKey()`. */
    function Key(): string { Base().GetKey() }

    /** `IError.GetMessage()`. */
    function Message(): string { Base().GetMessage() }

    /** True when both errors are instances of the same subclass. */
    predicate SameKind(other: Error) {
      match (this, other)
      case (UniqueIdentifierCannotBeNullOrEmpty(_), UniqueIdentifierCannotBeNullOrEmpty(_)) => true
      case (EmployeeWithSameEmailAlreadyExists(_), EmployeeWithSameEmailAlreadyExists(_)) => true
      case _ => this == other
    }
  }

  /** The fixed keys of the subclasses that pass a constant key to `ErrorBase`, and the empty key
      of the one that uses the message-only constructor. */
  lemma FixedKeys()
    ensures CompanyWithSameNameAlreadyExists.Key() == "name"
    ensures CannotCreateEmployeeWithId.Key() == "employees.id"
    ensures EmployeeDoesNotExist.Key() == "employees.id"
    ensures CompanyDoesNotExist.Key() == "companyIds"
    ensures CannotCreateEmployeesWithSameTitleInCompany.Key() == "employees.title"
    ensures EmployeeWithSameTitleAlreadyExistsInCompany.Key() == "title"
    ensures CannotCreateEmployeesWithSameEmail.Key() == "employees.email"
    ensures InternalServerError.Key() == ""
  {
  }

  /** The two subclasses with a caller-supplied key report exactly that key, with their fixed message. */
  lemma CallerKeys(k: string)
    ensures UniqueIdentifierCannotBeNullOrEmpty(k).Key() == k
    ensures UniqueIdentifierCannotBeNullOrEmpty(k).Message() == UniqueIdentifierCannotBeNullOrEmptyErrorMessage
    ensures EmployeeWithSameEmailAlreadyExists(k).Key() == k
    ensures EmployeeWithSameEmailAlreadyExists(k).Message() == EmployeeWithSameEmailAlreadyExistsErrorMessage
  {
  }

  /** The message tells the error kind apart: two errors have the same message exactly when
      they are of the same subclass. */
  lemma MessageIdentifiesKind(a: Error, b: Error)
    ensures a.Message() == b.Message() <==> a.SameKind(b)
  {
  }
}
