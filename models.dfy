/**
 * The entities the authorization core reads: the four roles, the Eloquent
 * `User` record and the `Company` a request is scoped to.
 */
module Models {
  import opened Wrappers

  /** The roles the role seeder creates, as a closed set. */
  datatype Role = Administrator | CompanyOwner | Customer | Guide

  /**
   * A row of the `users` table. `companyId` is nullable: an administrator need
   * not belong to any company. `deleted` is the soft-delete mark (`deleted_at`
   * set). The password is the stored hash, kept as an opaque string.
   */
  datatype User = User(
    id: nat,
    name: string,
    email: string,
    password: string,
    role: Role,
    companyId: Option<int>,
    deleted: bool)

  /** A company; only its id takes part in any decision. */
  datatype Company = Company(id: int)
}
