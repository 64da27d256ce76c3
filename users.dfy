/**
 * The `users` table as the controllers see it: rows numbered by their
 * auto-incremented id, a soft-delete mark per row, and the company roster
 * query `$company->users()->where('role_id', …)->get()`.
 */
module Users {
  import opened Wrappers
  import opened Models

  /**
   * A row shows up in the roster of `companyId` for `role`: it belongs to that
   * company, has that role and is not soft-deleted (deleted rows are hidden
   * from queries).
   */
  predicate Listed(u: User, companyId: int, role: Role) {
    u.companyId == Some(companyId) && u.role == role && !u.deleted
  }

  /** The rows with their ids in place: row `i` has id `i`. */
  ghost predicate IdsInPlace(rows: seq<User>) {
    forall i :: 0 <= i < |rows| ==> rows[i].id == i
  }

  /** The roster query: the listed rows, in table order. */
  function Roster(rows: seq<User>, companyId: int, role: Role): (r: seq<User>)
    ensures |r| <= |rows|
  {
    if rows == [] then []
    else Share(rows[0], companyId, role) + Roster(rows[1..], companyId, role)
  }

  /** What one row contributes to a roster. */
  function Share(u: User, companyId: int, role: Role): (r: seq<User>) {
    if Listed(u, companyId, role) then [u] else []
  }

  /** The roster holds exactly the listed rows of the table. */
  lemma {:induction false} RosterMembership(rows: seq<User>, companyId: int, role: Role)
    ensures forall u :: u in Roster(rows, companyId, role) <==> u in rows && Listed(u, companyId, role)
  {
    if rows != [] {
      RosterMembership(rows[1..], companyId, role);
      assert rows == [rows[0]] + rows[1..];
    }
  }

  /** Over consecutively numbered rows, a roster lists each id once, in increasing order. */
  lemma {:induction false} RosterIdsIncrease(rows: seq<User>, companyId: int, role: Role, lo: int)
    requires forall i :: 0 <= i < |rows| ==> rows[i].id == lo + i
    ensures forall j :: 0 <= j < |Roster(rows, companyId, role)| ==> Roster(rows, companyId, role)[j].id >= lo
    ensures forall j, k :: 0 <= j < k < |Roster(rows, companyId, role)| ==>
              Roster(rows, companyId, role)[j].id < Roster(rows, companyId, role)[k].id
  {
    if rows != [] {
      RosterIdsIncrease(rows[1..], companyId, role, lo + 1);
    }
  }

  /** Adding a row extends every roster by that row exactly when it is listed there. */
  lemma {:induction false} RosterAppend(rows: seq<User>, u: User, companyId: int, role: Role)
    ensures Roster(rows + [u], companyId, role)
         == Roster(rows, companyId, role) + Share(u, companyId, role)
  {
    if rows == [] {
      assert [] + [u] == [u];
      assert Roster([u], companyId, role) == Share(u, companyId, role) + Roster([], companyId, role);
    } else {
      var head, rest := Share(rows[0], companyId, role), rows[1..];
      var tail := Share(u, companyId, role);
      assert (rows + [u])[0] == rows[0];
      assert (rows + [u])[1..] == rest + [u];
      RosterAppend(rest, u, companyId, role);
      calc {
        Roster(rows + [u], companyId, role);
        head + Roster(rest + [u], companyId, role);
        head + (Roster(rest, companyId, role) + tail);
        (head + Roster(rest, companyId, role)) + tail;
        Roster(rows, companyId, role) + tail;
      }
    }
  }

  /**
   * Replacing row `k` by a row with the same id leaves every other row's
   * place in every roster as it was.
   */
  lemma RosterOthersUnchanged(rows: seq<User>, k: nat, v: User, companyId: int, role: Role)
    requires IdsInPlace(rows) && k < |rows| && v.id == k
    ensures IdsInPlace(rows[k := v])
    ensures forall u: User :: u.id != k ==>
              (u in Roster(rows[k := v], companyId, role) <==> u in Roster(rows, companyId, role))
  {
    var rows' := rows[k := v];
    RosterMembership(rows, companyId, role);
    RosterMembership(rows', companyId, role);
    forall u: User | u.id != k
      ensures u in rows' <==> u in rows
    {
      if u in rows {
        var i :| 0 <= i < |rows| && rows[i] == u;
        assert rows'[i] == u;
      }
      if u in rows' {
        var i :| 0 <= i < |rows'| && rows'[i] == u;
        assert i != k;
        assert rows[i] == u;
      }
    }
  }

  /** A soft-deleted row is in no roster at all. */
  lemma DeletedRowUnlisted(rows: seq<User>, k: nat, companyId: int, role: Role)
    requires IdsInPlace(rows) && k < |rows| && rows[k].deleted
    ensures forall u :: u in Roster(rows, companyId, role) ==> u.id != k
  {
    RosterMembership(rows, companyId, role);
    forall u | u in Roster(rows, companyId, role)
      ensures u.id != k
    {
      var i :| 0 <= i < |rows| && rows[i] == u;
      assert !rows[i].deleted;
    }
  }

  class Table {
    var rows: seq<User>

    ghost predicate Valid()
      reads this
    {
      IdsInPlace(rows)
    }

    constructor ()
      ensures Valid() && rows == []
    {
      rows := [];
    }

    /**
     * Route-model binding of `{user}`: the row with that id, unless it does
     * not exist or is soft-deleted.
     */
    function Find(id: nat): (r: Option<User>)
      reads this
      requires Valid()
      ensures r.Some? <==> id < |rows| && !rows[id].deleted
      ensures r.Some? ==> r.value in rows && r.value.id == id && !r.value.deleted
    {
      if id < |rows| && !rows[id].deleted then Some(rows[id]) else None
    }

    /** `$company->users()->create([...])`: a new row stamped with the company. */
    method CreateFor(company: Company, name: string, email: string, password: string, role: Role)
      returns (id: nat)
      requires Valid()
      modifies this
      ensures Valid()
      ensures id == |old(rows)|
      ensures rows == old(rows) + [User(id, name, email, password, role, Some(company.id), false)]
    {
      id := |rows|;
      rows := rows + [User(id, name, email, password, role, Some(company.id), false)];
    }

    /** `$user->update([...])` with the validated name and email. */
    method Rewrite(id: nat, name: string, email: string)
      requires Valid() && id < |rows|
      modifies this
      ensures Valid()
      ensures rows == old(rows)[id := old(rows)[id].(name := name, email := email)]
    {
      rows := rows[id := rows[id].(name := name, email := email)];
    }

    /** `$user->delete()` on a soft-deleting model: only the mark is set. */
    method SoftDelete(id: nat)
      requires Valid() && id < |rows|
      modifies this
      ensures Valid()
      ensures rows == old(rows)[id := old(rows)[id].(deleted := true)]
    {
      rows := rows[id := rows[id].(deleted := true)];
    }
  }
}
