/**
 * The company-user policy: a `before` hook that lets administrators through,
 * and one rule per ability for everybody else.
 */
module CompanyUserPolicy {
  import opened Wrappers
  import opened Models

  /**
   * The `before` hook: `true` for an administrator, `null` (None) otherwise,
   * which defers to the ability method. It never denies on its own.
   */
  function Before(user: User): (r: Option<bool>)
    ensures r != Some(false)
    ensures r == Some(true) <==> user.role == Administrator
  {
    if user.role == Administrator then Some(true) else None
  }

  /**
   * The role predicate the ability methods call, `$user->isAdministrator()`.
   * Its definition is not part of this model; it is taken to hold exactly for
   * company owners. This is the simplest reading consistent with the feature
   * tests, which need a company owner of the company to pass. That customers
   * and guides fail even in their own company follows from this choice.
   */
  predicate ScopePrivileged(role: Role) {
    role == CompanyOwner
  }

  /** The literal reading of `isAdministrator()`: the administrator role. */
  predicate LiteralIsAdministrator(role: Role) {
    role == Administrator
  }

  /** Strict `===` between a nullable company id and a company's id. */
  predicate SameCompany(user: User, company: Company) {
    user.companyId == Some(company.id)
  }

  predicate ViewAny(user: User, company: Company) {
    ScopePrivileged(user.role) && SameCompany(user, company)
  }

  predicate Create(user: User, company: Company) {
    ScopePrivileged(user.role) && SameCompany(user, company)
  }

  predicate Update(user: User, company: Company) {
    ScopePrivileged(user.role) && SameCompany(user, company)
  }

  predicate Delete(user: User, company: Company) {
    ScopePrivileged(user.role) && SameCompany(user, company)
  }

  /**
   * `forceDelete` is declared to return a bool but its body returns nothing:
   * it has no result, which is neither an allow nor a deny.
   */
  function ForceDelete(user: User, company: Company): (r: Option<bool>)
    ensures r != Some(true) && r != Some(false)
  {
    None
  }

  /** The four ability methods compute one and the same predicate. */
  lemma AbilitiesAgree(user: User, company: Company)
    ensures ViewAny(user, company) == Create(user, company)
         == Update(user, company) == Delete(user, company)
  {
  }

  /** Each ability holds exactly for a company owner of that very company. */
  lemma AbilityCharacterization(user: User, company: Company)
    ensures ViewAny(user, company) <==>
              user.role == CompanyOwner && user.companyId.Some? && user.companyId.value == company.id
  {
  }

  /** Under the literal reading, no user that `before` defers on ever passes. */
  lemma LiteralReadingLocksOutNonAdministrators(user: User, company: Company)
    requires Before(user) == None
    ensures !(LiteralIsAdministrator(user.role) && SameCompany(user, company))
  {
  }
}
