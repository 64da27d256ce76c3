/**
 * How an `authorize(ability, company)` call is decided with the company-user
 * policy: the `before` hook first, and only when it defers, the ability
 * method of that name.
 */
module Gate {
  import opened Wrappers
  import opened Models
  import Policy = CompanyUserPolicy

  datatype Ability = ViewAny | Create | Update | Delete | ForceDelete

  /** Allow, Deny, or no result at all (the empty `forceDelete`). */
  datatype Verdict = Allow | Deny | Undefined

  function FromResult(result: Option<bool>): (r: Verdict) {
    match result
    case Some(b) => if b then Allow else Deny
    case None => Undefined
  }

  /** The ability method a non-overridden request is handed to. */
  function AbilityResult(ability: Ability, user: User, company: Company): (r: Option<bool>) {
    match ability
    case ViewAny => Some(Policy.ViewAny(user, company))
    case Create => Some(Policy.Create(user, company))
    case Update => Some(Policy.Update(user, company))
    case Delete => Some(Policy.Delete(user, company))
    case ForceDelete => Policy.ForceDelete(user, company)
  }

  /** The two-stage decision: the override stage is consulted first. */
  function Decide(ability: Ability, user: User, company: Company): (r: Verdict) {
    match Policy.Before(user)
    case Some(b) => FromResult(Some(b))
    case None => FromResult(AbilityResult(ability, user, company))
  }

  /** `authorize` lets the action go on only on an explicit allow. */
  predicate Allows(ability: Ability, user: User, company: Company) {
    Decide(ability, user, company) == Allow
  }

  /** An administrator is allowed everything, with or without a company. */
  lemma AdministratorAllowedEverything(ability: Ability, user: User, company: Company)
    requires user.role == Administrator
    ensures Decide(ability, user, company) == Allow
  {
  }

  /** For anybody else `before` defers and the ability method alone decides. */
  lemma NonAdministratorDefers(ability: Ability, user: User, company: Company)
    requires user.role != Administrator
    ensures Policy.Before(user) == None
    ensures Decide(ability, user, company) == FromResult(AbilityResult(ability, user, company))
  {
  }

  /**
   * The whole decision for the four abilities the controllers use: it is
   * never undefined, and it allows exactly the administrators and the owners
   * of the company in question.
   */
  lemma DecisionCharacterization(ability: Ability, user: User, company: Company)
    requires ability != ForceDelete
    ensures Decide(ability, user, company) != Undefined
    ensures Decide(ability, user, company) == Allow <==>
              user.role == Administrator ||
              (user.role == CompanyOwner && user.companyId == Some(company.id))
  {
  }

  /** `viewAny`, `create`, `update` and `delete` always agree. */
  lemma AbilitiesAgree(user: User, company: Company)
    ensures Decide(ViewAny, user, company) == Decide(Create, user, company)
         == Decide(Update, user, company) == Decide(Delete, user, company)
  {
  }

  /** A company owner is allowed all four abilities on their own company. */
  lemma OwnerAllowedOnOwnCompany(ability: Ability, user: User, company: Company)
    requires ability != ForceDelete
    requires user.role == CompanyOwner && user.companyId == Some(company.id)
    ensures Decide(ability, user, company) == Allow
  {
  }

  /** A non-administrator of another company, or of none, is denied. */
  lemma OtherCompanyDenied(ability: Ability, user: User, company: Company)
    requires ability != ForceDelete
    requires user.role != Administrator && user.companyId != Some(company.id)
    ensures Decide(ability, user, company) == Deny
  {
  }

  /** A non-administrator without a company never matches under `===`. */
  lemma NullAffiliationDenied(ability: Ability, user: User, company: Company)
    requires ability != ForceDelete
    requires user.role != Administrator && user.companyId == None
    ensures Decide(ability, user, company) == Deny
  {
  }

  /** Customers and guides are denied everywhere. */
  lemma NonOwnerDenied(ability: Ability, user: User, company: Company)
    requires ability != ForceDelete
    requires user.role == Customer || user.role == Guide
    ensures Decide(ability, user, company) == Deny
  {
  }

  /** `forceDelete` is never denied: allowed for administrators, undefined otherwise. */
  lemma ForceDeleteUndefined(user: User, company: Company)
    ensures Decide(ForceDelete, user, company) != Deny
    ensures Decide(ForceDelete, user, company) == Undefined <==> user.role != Administrator
  {
  }
}
