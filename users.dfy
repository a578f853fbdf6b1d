/** The `users` table: lookups by e-mail, id and creation date, creation with
    a uniqueness check on the e-mail, and the four patches (profile, last
    login, deactivate, reactivate). A patch of an id that is not in the table
    throws in the database; here it answers false and changes nothing. */
module Users {
  import opened Base

  datatype User = User(
    id: Id,
    email: string,
    name: Option<string>,
    createdAt: int,
    updatedAt: Option<int>,
    isActive: bool,
    lastLoginAt: Option<int>,
    profilePicture: Option<string>)

  /** The fields one patch writes; `None` leaves a field as it is. Every patch
      of this table writes `updatedAt`. */
  datatype UserPatch = UserPatch(
    name: Option<string>,
    profilePicture: Option<string>,
    lastLoginAt: Option<int>,
    isActive: Option<bool>,
    updatedAt: int)

  /** The message of the error `createUser` throws for a taken e-mail. */
  const UserExists := "Usuário já existe com este email"

  function EmailFn(email: string): User -> bool {
    (u: User) => u.email == email
  }

  function IdFn(id: Id): User -> bool {
    (u: User) => u.id == id
  }

  function CreatedInFn(startDate: int, endDate: int): User -> bool {
    (u: User) => startDate <= u.createdAt <= endDate
  }

  /** Ids grow with insertion and stay below the next id to hand out, and no
      two users share an e-mail. */
  ghost predicate WellFormed(rows: seq<User>, nextId: Id) {
    (forall i, j :: 0 <= i < j < |rows| ==> rows[i].id < rows[j].id)
    && (forall i :: 0 <= i < |rows| ==> rows[i].id < nextId)
    && UniqueEmails(rows)
  }

  ghost predicate UniqueEmails(rows: seq<User>) {
    forall i, j :: 0 <= i < j < |rows| ==> rows[i].email != rows[j].email
  }

  // ---------------------------------------------------------------------
  // Queries
  // ---------------------------------------------------------------------

  /** `getUserByEmail`. */
  function GetUserByEmail(rows: seq<User>, email: string): (r: Option<User>)
    ensures r.Some? ==> r.value in rows && r.value.email == email
    ensures r.None? <==> forall u :: u in rows ==> u.email != email
  {
    First(rows, EmailFn(email))
  }

  /** `getUserById`. */
  function GetUserById(rows: seq<User>, id: Id): (r: Option<User>)
    ensures r.Some? ==> r.value in rows && r.value.id == id
    ensures r.None? <==> forall u :: u in rows ==> u.id != id
  {
    First(rows, IdFn(id))
  }

  /** `getUsersByDateRange`: both ends of the range are included. */
  function GetUsersByDateRange(rows: seq<User>, startDate: int, endDate: int): (r: seq<User>)
    ensures forall u :: u in r <==> u in rows && startDate <= u.createdAt && u.createdAt <= endDate
  {
    Filter(rows, CreatedInFn(startDate, endDate))
  }

  // ---------------------------------------------------------------------
  // Transitions
  // ---------------------------------------------------------------------

  /** The row a fresh `createUser` inserts: active, created at `now`. */
  function NewUser(id: Id, email: string, name: Option<string>, now: int): User {
    User(id, email, name, now, None, true, None, None)
  }

  /** `createUser`: refused when the e-mail is taken, otherwise a new row with
      the next id. */
  function Create(rows: seq<User>, nextId: Id, email: string, name: Option<string>, now: int): (r: (Result<Id>, seq<User>))
    ensures r.0.Err? <==> exists u :: u in rows && u.email == email
    ensures r.0.Err? ==> r == (Err(UserExists), rows)
    ensures r.0.Ok? ==> r.0.value == nextId && r.1 == rows + [NewUser(nextId, email, name, now)]
  {
    if GetUserByEmail(rows, email).Some? then (Err(UserExists), rows)
    else (Ok(nextId), rows + [NewUser(nextId, email, name, now)])
  }

  /** A user with a patch applied: the supplied fields replaced, `updatedAt`
      set. */
  function Apply(u: User, p: UserPatch): User {
    u.(name := if p.name.Some? then p.name else u.name,
       profilePicture := if p.profilePicture.Some? then p.profilePicture else u.profilePicture,
       lastLoginAt := if p.lastLoginAt.Some? then p.lastLoginAt else u.lastLoginAt,
       isActive := if p.isActive.Some? then p.isActive.value else u.isActive,
       updatedAt := Some(p.updatedAt))
  }

  /** `ctx.db.patch(id, p)` on the users table. */
  function PatchRow(rows: seq<User>, id: Id, p: UserPatch): (r: seq<User>)
    ensures |r| == |rows|
  {
    seq(|rows|, i requires 0 <= i < |rows| => if rows[i].id == id then Apply(rows[i], p) else rows[i])
  }

  /** Whether a patch of `id` finds its row. */
  predicate HasId(rows: seq<User>, id: Id) {
    exists i :: 0 <= i < |rows| && rows[i].id == id
  }

  // ---------------------------------------------------------------------
  // The store
  // ---------------------------------------------------------------------

  class UserStore {
    var rows: seq<User>
    var nextId: Id

    ghost predicate Valid()
      reads this
    {
      WellFormed(rows, nextId)
    }

    constructor ()
      ensures Valid() && rows == []
    {
      rows := [];
      nextId := 0;
    }

    /** `createUser`. */
    method CreateUser(email: string, name: Option<string>, now: int) returns (r: Result<Id>)
      requires Valid()
      modifies this
      ensures Valid()
      ensures (r, rows) == Create(old(rows), old(nextId), email, name, now)
      ensures r.Ok? ==> nextId == old(nextId) + 1
    {
      var existing := GetUserByEmail(rows, email);
      if existing.Some? {
        return Err(UserExists);
      }
      r := Ok(nextId);
      rows := rows + [NewUser(nextId, email, name, now)];
      nextId := nextId + 1;
    }

    /** `updateUser`: `updatedAt` always, name and picture only when supplied. */
    method UpdateUser(id: Id, name: Option<string>, profilePicture: Option<string>, now: int) returns (ok: bool)
      requires Valid()
      modifies this
      ensures Valid() && nextId == old(nextId)
      ensures ok == HasId(old(rows), id)
      ensures rows == PatchRow(old(rows), id, UserPatch(name, profilePicture, None, None, now))
    {
      var patch := UserPatch(None, None, None, None, now);
      if name.Some? {
        patch := patch.(name := name);
      }
      if profilePicture.Some? {
        patch := patch.(profilePicture := profilePicture);
      }
      ok := Patch(id, patch);
    }

    /** `updateLastLogin`: `lastLoginAt` and `updatedAt` set to `now`. */
    method UpdateLastLogin(id: Id, now: int) returns (ok: bool)
      requires Valid()
      modifies this
      ensures Valid() && nextId == old(nextId)
      ensures ok == HasId(old(rows), id)
      ensures rows == PatchRow(old(rows), id, UserPatch(None, None, Some(now), None, now))
    {
      ok := Patch(id, UserPatch(None, None, Some(now), None, now));
    }

    /** `deactivateUser`: the soft delete. */
    method DeactivateUser(id: Id, now: int) returns (ok: bool)
      requires Valid()
      modifies this
      ensures Valid() && nextId == old(nextId)
      ensures ok == HasId(old(rows), id)
      ensures rows == PatchRow(old(rows), id, UserPatch(None, None, None, Some(false), now))
    {
      ok := Patch(id, UserPatch(None, None, None, Some(false), now));
    }

    /** `reactivateUser`. */
    method ReactivateUser(id: Id, now: int) returns (ok: bool)
      requires Valid()
      modifies this
      ensures Valid() && nextId == old(nextId)
      ensures ok == HasId(old(rows), id)
      ensures rows == PatchRow(old(rows), id, UserPatch(None, None, None, Some(true), now))
    {
      ok := Patch(id, UserPatch(None, None, None, Some(true), now));
    }

    /** The database patch: the row with `id` rewritten, or false when there
        is none. */
    method Patch(id: Id, p: UserPatch) returns (ok: bool)
      requires Valid()
      modifies this
      ensures Valid() && nextId == old(nextId)
      ensures ok == HasId(old(rows), id)
      ensures rows == PatchRow(old(rows), id, p)
    {
      var found := FirstIndex(rows, IdFn(id));
      if found.None? {
        assert rows == PatchRow(rows, id, p);
        return false;
      }
      var k := found.value;
      assert rows[k := Apply(rows[k], p)] == PatchRow(rows, id, p);
      rows := rows[k := Apply(rows[k], p)];
      return true;
    }
  }

  // ---------------------------------------------------------------------
  // Properties
  // ---------------------------------------------------------------------

  /** `createUser` keeps e-mails unique, and the new user is then found by
      both lookups. */
  lemma CreateKeepsEmailsUnique(rows: seq<User>, nextId: Id, email: string, name: Option<string>, now: int)
    requires WellFormed(rows, nextId)
    ensures var (r, after) := Create(rows, nextId, email, name, now);
      WellFormed(after, if r.Ok? then nextId + 1 else nextId)
      && GetUserByEmail(after, email).Some?
      && (r.Ok? ==>
            GetUserByEmail(after, email) == Some(NewUser(nextId, email, name, now))
            && GetUserById(after, nextId) == Some(NewUser(nextId, email, name, now)))
  {
    var (r, after) := Create(rows, nextId, email, name, now);
    if r.Ok? {
      var u := NewUser(nextId, email, name, now);
      AppendUserWellFormed(rows, nextId, u);
      forall j | 0 <= j < |rows| ensures !EmailFn(email)(after[j]) && !IdFn(nextId)(after[j]) {
        assert after[j] == rows[j] && rows[j] in rows;
      }
      FirstIndexIs(after, EmailFn(email), |rows|);
      FirstIndexIs(after, IdFn(nextId), |rows|);
    }
  }

  /** A new user with the next id and an e-mail nobody has keeps the table
      well formed. */
  lemma AppendUserWellFormed(rows: seq<User>, nextId: Id, u: User)
    requires WellFormed(rows, nextId) && u.id == nextId
    requires forall x :: x in rows ==> x.email != u.email
    ensures WellFormed(rows + [u], nextId + 1)
  {
    var after := rows + [u];
    forall i, j | 0 <= i < j < |after| ensures after[i].id < after[j].id && after[i].email != after[j].email {
      assert after[i] == rows[i] && rows[i] in rows;
    }
  }

  /** A patch rewrites only the row with that id: the supplied fields are
      replaced, `updatedAt` is set, and id, e-mail and creation time stay. */
  lemma PatchEffect(rows: seq<User>, id: Id, p: UserPatch)
    ensures forall i :: 0 <= i < |rows| && rows[i].id != id ==> PatchRow(rows, id, p)[i] == rows[i]
    ensures forall i :: 0 <= i < |rows| && rows[i].id == id ==>
      var u := PatchRow(rows, id, p)[i];
      u.id == id && u.email == rows[i].email && u.createdAt == rows[i].createdAt
      && u.updatedAt == Some(p.updatedAt)
      && (p.name.None? ==> u.name == rows[i].name) && (p.name.Some? ==> u.name == p.name)
      && (p.profilePicture.None? ==> u.profilePicture == rows[i].profilePicture)
      && (p.profilePicture.Some? ==> u.profilePicture == p.profilePicture)
      && (p.lastLoginAt.None? ==> u.lastLoginAt == rows[i].lastLoginAt)
      && (p.lastLoginAt.Some? ==> u.lastLoginAt == p.lastLoginAt)
      && (p.isActive.None? ==> u.isActive == rows[i].isActive)
      && (p.isActive.Some? ==> u.isActive == p.isActive.value)
    ensures !HasId(rows, id) ==> PatchRow(rows, id, p) == rows
  {
  }

  /** Patching never changes ids or e-mails, so the table stays well formed. */
  lemma PatchKeepsWellFormed(rows: seq<User>, nextId: Id, id: Id, p: UserPatch)
    requires WellFormed(rows, nextId)
    ensures WellFormed(PatchRow(rows, id, p), nextId)
  {
  }

  /** Deactivating and then reactivating a user leaves the user active, with
      all else but `updatedAt` as before. */
  lemma DeactivateThenReactivate(rows: seq<User>, id: Id, t1: int, t2: int)
    ensures var after := PatchRow(PatchRow(rows, id, UserPatch(None, None, None, Some(false), t1)), id,
                                  UserPatch(None, None, None, Some(true), t2));
      forall i :: 0 <= i < |rows| ==>
        after[i] == if rows[i].id == id then rows[i].(isActive := true, updatedAt := Some(t2)) else rows[i]
  {
  }
}
