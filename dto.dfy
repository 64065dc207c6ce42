/** The request and response shapes of the two workflows. A C# `null` for an optional member is
    `None`; a `null` name or email in a request behaves as the empty string in every check the
    workflows make, so those two members are plain strings. */
module Dto {
  import opened Optional
  import opened Entities

  /** One entry of a company request: either a reference to an existing employee (`id`) or the
      data of a new one (`email` and `title`). */
  datatype EmployeeInCreateCompanyDto = EmployeeInCreateCompanyDto(
    email: Option<string>, id: Option<int>, title: Option<EmployeeTitle>)

  datatype CreateCompanyDto = CreateCompanyDto(
    name: string, employees: Option<seq<EmployeeInCreateCompanyDto>>)

  datatype CreateEmployeeDto = CreateEmployeeDto(
    companyIds: Option<seq<int>>, email: string, title: EmployeeTitle)

  datatype EmployeeDto = EmployeeDto(
    id: int, createdAt: Timestamp, title: EmployeeTitle, email: string, companyIds: seq<int>)

  datatype CompanyDto = CompanyDto(
    id: int, createdAt: Timestamp, name: string, employees: seq<EmployeeDto>)
}
