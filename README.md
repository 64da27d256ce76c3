# Company users and guides: authorization model

This project models the authorization core of a multi-company reservation
application written with Laravel. Administrators manage the users of every
company. A company's owners manage two pages of that company: its owner
accounts and its guide accounts. Each controller action first asks the gate
("may this actor do this ability on this company?"). Only then does it list,
create, rewrite or soft-delete rows of the `users` table.

Modules:

- `Models`: the four roles of the role seeder, the `User` row (nullable `company_id`, soft-delete mark) and `Company`.
- `CompanyUserPolicy`: the `before` hook and the five ability methods, as pure functions.
- `Gate`: how `authorize` combines them. A non-null `before` answer wins; otherwise the ability method decides. The verdict is `Allow`, `Deny` or `Undefined`; `Undefined` is the result of the empty `forceDelete`.
- `Users`: the `users` table. It is a class over a `seq` of rows, where row `i` has id `i`. It offers the roster query, route-model lookup, and in-place create, rewrite and soft delete.
- `Http`: the responses and validated forms.
- `CompanyUserController`, `CompanyGuideController`: the six actions of each controller, as methods on the table.

Assumptions the model makes explicit:

- `isAdministrator()` is called by the ability methods, but its definition is not part of this model. It is modelled by one predicate, `CompanyUserPolicy.ScopePrivileged`, which holds exactly for `CompanyOwner`. This is the simplest reading consistent with the feature tests, which need a company owner of the company to be able to list, create, edit and delete there. The one test that refuses a factory-default user (tests/Feature/CompanyUserTest.php:29-37) does not set that user's company, so the strict company match already refuses it whatever the role predicate says. That a Customer or a Guide is refused even in their own company therefore follows from the chosen reading, not from any test. Read literally as the administrator role, it would lock out every user that `before` defers on; `CompanyUserPolicy.LiteralReadingLocksOutNonAdministrators` states this.
- `CompanyUserPolicy` is taken to be the policy registered for `Company`. Every `$this->authorize('…', $company)` in both controllers resolves the policy of the `Company` model. Laravel's discovery by name would look for a `CompanyPolicy`. The registration that maps `Company` to `CompanyUserPolicy`, and so makes both controllers share it, is not part of this model.
- Soft-deleted rows are hidden from the roster query and from route-model binding, as Laravel's soft-delete scope does. Binding the `{user}` / `{guide}` parameter happens before the action body runs. So an unknown id, or the id of a deleted row, answers `NotFound` before any authorization.
- `company_id` and the company's `id` are compared as integers, with `null` as `None`. A strict `===` is then equality of options.
- The `users()` relation and `$fillable` are taken to store every attribute the controllers pass, including `role_id`.

The model follows the code, not the stricter rule one might expect:

- One might expect a check that an updated or deleted target belongs to the company in the URL. The policy's `update` and `delete` take only the actor and the company. The controllers never compare the bound user's `company_id` or role with anything. In the model, therefore, an owner of company 5 may edit or delete any live user through `/companies/5/...`, whatever the target's company. `CompanyUserController.Update` and `CompanyGuideController.Destroy` state this: their outcome depends only on whether the target exists and on the gate.

## Model

| member | source | states |
|---|---|---|
| `CompanyUserPolicy.Before` | app/Policies/CompanyUserPolicy.php:12-19 | answers true exactly for an administrator and null otherwise; it never denies by itself |
| `CompanyUserPolicy.ViewAny` | app/Policies/CompanyUserPolicy.php:24-27 | `viewAny`: `ScopePrivileged(role)` and a strict match of the user's nullable company id with the company's id; its meaning is stated by `AbilityCharacterization` |
| `CompanyUserPolicy.Create` | app/Policies/CompanyUserPolicy.php:32-35 | `create`: the same predicate as `viewAny` (`AbilitiesAgree`) |
| `CompanyUserPolicy.Update` | app/Policies/CompanyUserPolicy.php:40-43 | `update`: the same predicate, with no target user among its inputs |
| `CompanyUserPolicy.Delete` | app/Policies/CompanyUserPolicy.php:48-51 | `delete`: the same predicate, with no target user among its inputs |
| `CompanyUserPolicy.ForceDelete` | app/Policies/CompanyUserPolicy.php:56-59 | the empty `forceDelete` yields no result, neither allow nor deny |
| `CompanyUserPolicy.AbilitiesAgree` | app/Policies/CompanyUserPolicy.php:24-51 | `viewAny`, `create`, `update` and `delete` compute the same predicate for every actor and company |
| `CompanyUserPolicy.AbilityCharacterization` | app/Policies/CompanyUserPolicy.php:26 | an ability method passes exactly for a company owner whose non-null `company_id` equals the company's id |
| `CompanyUserPolicy.LiteralReadingLocksOutNonAdministrators` | app/Policies/CompanyUserPolicy.php:26 | if `isAdministrator()` meant the administrator role, no user reaching the ability methods could pass |
| `Gate.Decide` | app/Policies/CompanyUserPolicy.php:12-59 | the two-stage decision: a non-null `before` answer wins; otherwise the ability method's result, with no result for `forceDelete`; its meaning is stated by `DecisionCharacterization` and `ForceDeleteUndefined` |
| `Gate.AdministratorAllowedEverything` | app/Policies/CompanyUserPolicy.php:12-16 | an administrator is allowed every ability, including `forceDelete`, on every company and with a null company |
| `Gate.NonAdministratorDefers` | app/Policies/CompanyUserPolicy.php:18 | for a non-administrator `before` defers and the verdict is the ability method's result |
| `Gate.DecisionCharacterization` | app/Policies/CompanyUserPolicy.php:12-51 | for the four controller abilities the verdict is never undefined, and it is Allow iff the actor is an administrator or an owner of that company |
| `Gate.AbilitiesAgree` | app/Policies/CompanyUserPolicy.php:24-51 | the gate's verdicts for viewAny, create, update and delete coincide for every actor and company |
| `Gate.OwnerAllowedOnOwnCompany` | tests/Feature/CompanyUserTest.php:88-98 | a company owner of the company is allowed to view, create, update and delete |
| `Gate.OtherCompanyDenied` | tests/Feature/CompanyUserTest.php:100-110 | a non-administrator whose company differs from the company, or is null, is denied every ability |
| `Gate.NullAffiliationDenied` | app/Policies/CompanyUserPolicy.php:26 | a non-administrator with a null `company_id` is denied, since strict equality never matches null |
| `Gate.NonOwnerDenied` | tests/Feature/CompanyUserTest.php:29-37 | customers and guides are denied every ability on every company; both follow from the `ScopePrivileged` reading |
| `Gate.ForceDeleteUndefined` | app/Policies/CompanyUserPolicy.php:56-59 | `forceDelete` is never denied: Allow for administrators, Undefined exactly for everybody else |
| `Users.Roster` | app/Http/Controllers/CompanyUserController.php:23 | the roster query keeps the listed rows in table order, so it never holds more rows than the table |
| `Users.RosterMembership` | app/Http/Controllers/CompanyUserController.php:23 | a row is in the roster iff it is in the table, belongs to the company, has the role and is not soft-deleted |
| `Users.RosterIdsIncrease` | app/Http/Controllers/CompanyUserController.php:23 | over rows numbered consecutively from `lo`, the roster's ids are all at least `lo` and strictly increase, so no row is listed twice |
| `Users.RosterAppend` | app/Http/Controllers/CompanyUserController.php:45-50 | a new row extends a roster by itself, at the end, exactly when it is listed there, and leaves it unchanged otherwise |
| `Users.RosterOthersUnchanged` | app/Http/Controllers/CompanyUserController.php:72 | replacing one row keeps the ids in place and leaves every other row's roster membership unchanged |
| `Users.DeletedRowUnlisted` | app/Http/Controllers/CompanyUserController.php:84 | a soft-deleted row appears in no roster |
| `Users.Table.Find` | app/Http/Controllers/CompanyUserController.php:68 | binding `{user}` finds the live row with that id, and nothing for an unknown or soft-deleted id |
| `Users.Table.CreateFor` | app/Http/Controllers/CompanyUserController.php:45-50 | creating through the company relation appends one row with the next id, stamped with the company's id and not deleted |
| `Users.Table.Rewrite` | app/Http/Controllers/CompanyUserController.php:72 | updating a row changes its name and email and nothing else in the table |
| `Users.Table.SoftDelete` | app/Http/Controllers/CompanyUserController.php:84 | deleting a row only sets its deleted mark; the row stays and no other row changes |
| `CompanyUserController.Index` | app/Http/Controllers/CompanyUserController.php:19-26 | forbidden unless viewAny is allowed; otherwise lists exactly the company's live owners, each once and in increasing id order (`Users.RosterIdsIncrease`) |
| `CompanyUserController.Create` | app/Http/Controllers/CompanyUserController.php:31-36 | shows the create form exactly when create is allowed |
| `CompanyUserController.Store` | app/Http/Controllers/CompanyUserController.php:41-53 | when create is allowed, adds exactly one row stamped COMPANY_OWNER and the company's id, with the hashed password, and it joins the owner roster at its end; when denied, the table is unchanged |
| `CompanyUserController.Edit` | app/Http/Controllers/CompanyUserController.php:58-63 | not found for an unknown or deleted user; otherwise the edit form exactly when update is allowed |
| `CompanyUserController.Update` | app/Http/Controllers/CompanyUserController.php:68-75 | when the target exists and update is allowed, rewrites only its name and email; its company and role stay, and other rows keep their roster membership; otherwise the table is unchanged |
| `CompanyUserController.Destroy` | app/Http/Controllers/CompanyUserController.php:80-87 | when the target exists and delete is allowed, only its deleted mark is set, it leaves every roster and no longer binds; otherwise the table is unchanged |
| `CompanyGuideController.Index` | app/Http/Controllers/CompanyGuideController.php:18-25 | forbidden unless viewAny is allowed; otherwise lists exactly the company's live guides, each once and in increasing id order (`Users.RosterIdsIncrease`) |
| `CompanyGuideController.Create` | app/Http/Controllers/CompanyGuideController.php:30-35 | shows the create form exactly when create is allowed |
| `CompanyGuideController.Store` | app/Http/Controllers/CompanyGuideController.php:40-52 | when create is allowed, adds exactly one row stamped GUIDE and the company's id, whatever role the form claims; when denied, the table is unchanged |
| `CompanyGuideController.Edit` | app/Http/Controllers/CompanyGuideController.php:57-62 | not found for an unknown or deleted user; otherwise the edit form exactly when update is allowed |
| `CompanyGuideController.Update` | app/Http/Controllers/CompanyGuideController.php:67-74 | rewrites only the bound target's name and email when update is allowed, whatever the target's role (a company owner is editable here too); otherwise the table is unchanged |
| `CompanyGuideController.Destroy` | app/Http/Controllers/CompanyGuideController.php:79-86 | soft-deletes only the bound target when delete is allowed, whatever its role or company; otherwise the table is unchanged |

## Left out

- View rendering, `to_route` redirects and route names: the model keeps only which response an action gives (`Listing`, `CreateForm`, `EditForm`, `Redirect`, `Forbidden`, `NotFound`).
- Password hashing: `bcrypt` is a foreign call. It is the `hash` parameter of `Store`, and the stored password is an opaque string.
- Request validation: the store and update request classes are not part of this model. Forms are taken as already validated. For an update, the validated fields are taken to be name and email.
- Authentication: the acting user is an explicit parameter, not the session's user.
- Eloquent and framework mechanics: query building, persistence, timestamps, and the `deleted_at` value. These are replaced by the in-memory table and a deleted flag. How the route parameters are bound and whether route bindings are scoped to the company are not part of this model; the binding is taken to be by id, over live rows.
- `App\Enums\Role` integer values and `User::isAdministrator()`: both are not part of this model. Roles are a datatype, and the predicate is `ScopePrivileged`, as described above.
- Role seeder, factories and test scaffolding: the seeder only fixes the four roles. The user factory is not part of this model; its default role is taken to be Customer.
- `Users.Roster`: the listing query `->where(...)->get()` has no `orderBy`, so the database promises no order for its rows. The model lists them in table (id) order, and the claim that a stored user joins the roster at its end rests on that choice.
- `CompanyUserPolicy.ForceDelete`: in PHP, calling it for a non-administrator would fail at run time, since no bool is returned. The model states only that there is no result (`Undefined`), not that an error is raised. No controller uses this ability.
