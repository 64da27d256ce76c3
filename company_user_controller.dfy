/**
 * The company-users pages: the owners of a company, managed by its owners
 * and by administrators. Every action asks the gate first; a denied or
 * unresolved request leaves the users table as it was.
 */
module CompanyUserController {
  import opened Wrappers
  import opened Models
  import opened Users
  import opened Http
  import Gate

  method Index(db: Table, actor: User, company: Company) returns (resp: Response)
    requires db.Valid()
    ensures resp == Forbidden || resp.Listing?
    ensures resp.Listing? <==> Gate.Allows(Gate.ViewAny, actor, company)
    ensures resp.Listing? ==>
              forall u :: u in resp.users <==> u in db.rows && Listed(u, company.id, CompanyOwner)
    ensures resp.Listing? ==> resp.users == Roster(db.rows, company.id, CompanyOwner)
    ensures resp.Listing? ==>
              forall j, k :: 0 <= j < k < |resp.users| ==> resp.users[j].id < resp.users[k].id
  {
    if !Gate.Allows(Gate.ViewAny, actor, company) {
      return Forbidden;
    }
    RosterMembership(db.rows, company.id, CompanyOwner);
    RosterIdsIncrease(db.rows, company.id, CompanyOwner, 0);
    resp := Listing(Roster(db.rows, company.id, CompanyOwner));
  }

  method Create(actor: User, company: Company) returns (resp: Response)
    ensures resp == CreateForm || resp == Forbidden
    ensures resp == CreateForm <==> Gate.Allows(Gate.Create, actor, company)
  {
    if !Gate.Allows(Gate.Create, actor, company) {
      return Forbidden;
    }
    resp := CreateForm;
  }

  /**
   * Adds one company owner to `company`. `hash` stands for `bcrypt`; the
   * role is fixed whatever the form claims.
   */
  method Store(db: Table, actor: User, company: Company, form: StoreForm, hash: string -> string)
    returns (resp: Response)
    requires db.Valid()
    modifies db
    ensures db.Valid()
    ensures resp == Redirect || resp == Forbidden
    ensures resp == Redirect <==> Gate.Allows(Gate.Create, actor, company)
    ensures resp == Forbidden ==> db.rows == old(db.rows)
    ensures resp == Redirect ==>
              db.rows == old(db.rows)
                         + [User(|old(db.rows)|, form.name, form.email, hash(form.password),
                                 CompanyOwner, Some(company.id), false)]
    ensures resp == Redirect ==>
              Roster(db.rows, company.id, CompanyOwner)
              == Roster(old(db.rows), company.id, CompanyOwner) + [db.rows[|old(db.rows)|]]
  {
    if !Gate.Allows(Gate.Create, actor, company) {
      return Forbidden;
    }
    ghost var before := db.rows;
    var id := db.CreateFor(company, form.name, form.email, hash(form.password), CompanyOwner);
    RosterAppend(before, db.rows[id], company.id, CompanyOwner);
    resp := Redirect;
  }

  method Edit(db: Table, actor: User, company: Company, id: nat) returns (resp: Response)
    requires db.Valid()
    ensures db.Find(id).None? ==> resp == NotFound
    ensures db.Find(id).Some? ==>
              resp == if Gate.Allows(Gate.Update, actor, company)
                      then EditForm(db.rows[id]) else Forbidden
  {
    var target := db.Find(id);
    if target.None? {
      return NotFound;
    }
    if !Gate.Allows(Gate.Update, actor, company) {
      return Forbidden;
    }
    resp := EditForm(target.value);
  }

  /**
   * Rewrites the bound user's name and email. Neither the target's company
   * nor its role is consulted.
   */
  method Update(db: Table, actor: User, company: Company, id: nat, form: UpdateForm)
    returns (resp: Response)
    requires db.Valid()
    modifies db
    ensures db.Valid()
    ensures resp == Redirect || resp == Forbidden || resp == NotFound
    ensures resp == NotFound <==> old(db.Find(id)).None?
    ensures resp == Redirect <==> old(db.Find(id)).Some? && Gate.Allows(Gate.Update, actor, company)
    ensures resp != Redirect ==> db.rows == old(db.rows)
    ensures resp == Redirect ==>
              db.rows == old(db.rows)[id := old(db.rows)[id].(name := form.name, email := form.email)]
    ensures resp == Redirect ==>
              db.rows[id].companyId == old(db.rows)[id].companyId && db.rows[id].role == old(db.rows)[id].role
    ensures resp == Redirect ==>
              forall u: User :: u.id != id ==>
                (u in Roster(db.rows, company.id, CompanyOwner) <==> u in Roster(old(db.rows), company.id, CompanyOwner))
  {
    var target := db.Find(id);
    if target.None? {
      return NotFound;
    }
    if !Gate.Allows(Gate.Update, actor, company) {
      return Forbidden;
    }
    ghost var before := db.rows;
    db.Rewrite(id, form.name, form.email);
    RosterOthersUnchanged(before, id, db.rows[id], company.id, CompanyOwner);
    resp := Redirect;
  }

  /** Soft-deletes the bound user: the row stays, marked deleted. */
  method Destroy(db: Table, actor: User, company: Company, id: nat) returns (resp: Response)
    requires db.Valid()
    modifies db
    ensures db.Valid()
    ensures resp == Redirect || resp == Forbidden || resp == NotFound
    ensures resp == NotFound <==> old(db.Find(id)).None?
    ensures resp == Redirect <==> old(db.Find(id)).Some? && Gate.Allows(Gate.Delete, actor, company)
    ensures resp != Redirect ==> db.rows == old(db.rows)
    ensures resp == Redirect ==> db.rows == old(db.rows)[id := old(db.rows)[id].(deleted := true)]
    ensures resp == Redirect ==> db.Find(id).None?
    ensures resp == Redirect ==>
              forall c: int, r: Role, u :: u in Roster(db.rows, c, r) ==> u.id != id
    ensures resp == Redirect ==>
              forall u: User :: u.id != id ==>
                (u in Roster(db.rows, company.id, CompanyOwner) <==> u in Roster(old(db.rows), company.id, CompanyOwner))
  {
    var target := db.Find(id);
    if target.None? {
      return NotFound;
    }
    if !Gate.Allows(Gate.Delete, actor, company) {
      return Forbidden;
    }
    ghost var before := db.rows;
    db.SoftDelete(id);
    forall c: int, r: Role {
      DeletedRowUnlisted(db.rows, id, c, r);
    }
    RosterOthersUnchanged(before, id, db.rows[id], company.id, CompanyOwner);
    resp := Redirect;
  }
}
