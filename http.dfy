/** What a controller action answers, and the validated form data it receives. */
module Http {
  import opened Wrappers
  import opened Models

  datatype Response =
    | Listing(users: seq<User>)  // the index page with these rows
    | CreateForm                 // the create page
    | EditForm(user: User)       // the edit page for this row
    | Redirect                   // the action was carried out
    | Forbidden                  // authorization denied (403)
    | NotFound                   // route-model binding found no such user (404)

  /** A store request: name, email, plain password, and whatever role it claims. */
  datatype StoreForm = StoreForm(name: string, email: string, password: string, roleId: Option<Role>)

  /** The validated fields of an update request. */
  datatype UpdateForm = UpdateForm(name: string, email: string)
}
