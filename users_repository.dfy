/** `usersRepository`: users with a profile, a password digest and an
    optional profile image object. Creation and update check the role and
    the banking reference against the live rows of the `roles` and
    `banking_details` tables: `liveRoles` is the set of live role ids, and
    `liveBanking` the set of body values for which `SELECT id FROM
    banking_details WHERE id = ? AND deleted_at IS NULL` finds a row. */
module UsersRepository {
  import opened Common
  import opened S3Objects
  import opened SoftDelete

  const InvalidRole := "Invalid role_id"
  const InvalidBanking := "Invalid banking_id"
  const UserNotFound := "User not found"
  /** The driver's refusal of an `undefined` bind parameter. */
  const UndefinedBind := "Bind parameters must not contain undefined. To pass SQL NULL specify JS null"

  /** The digest `bcrypt.hash(plain, 10)` stores; distinct plaintexts give
      distinct digests, and the column never holds a plaintext. */
  datatype Digest = Bcrypt(plain: string)

  /** Every column of a user row except the id, the profile image URL, the
      password and the timestamps. */
  datatype Profile = Profile(username: string, email: string, phone: Option<string>, address: Option<string>,
                             roleId: int, employedAt: Option<string>, bankingId: Option<Scalar>,
                             lastLogin: Option<Time>)

  datatype UserAttrs = UserAttrs(profile: Profile, password: Digest)

  /** The columns a query returns: the password only when it is selected. */
  datatype Visible = Visible(profile: Profile, password: Option<Digest>)

  /** What `createUser` and `updateUser` are given besides the id and the
      password. Every field is present in the request body; a `None` is a
      JSON `null`, never an absent field (`undefined`). */
  datatype UserInput = UserInput(username: string, email: string, phone: Option<string>, address: Option<string>,
                                 profileImage: Option<string>, roleId: Option<int>, employedAt: Option<string>,
                                 bankingId: Option<Scalar>)

  /** A row as a query selecting the listed columns returns it. */
  function View(r: Row<UserAttrs>, withPassword: bool): (v: Row<Visible>)
    ensures v.id == r.id && v.file == r.file && v.attrs.profile == r.attrs.profile
    ensures v.createdAt == r.createdAt && v.updatedAt == r.updatedAt && v.deletedAt == r.deletedAt
    ensures v.attrs.password == if withPassword then Some(r.attrs.password) else None
  {
    Row(r.id, Visible(r.attrs.profile, if withPassword then Some(r.attrs.password) else None),
        r.file, r.createdAt, r.updatedAt, r.deletedAt)
  }

  function Views(rows: seq<Row<UserAttrs>>, withPassword: bool): (vs: seq<Row<Visible>>)
    ensures |vs| == |rows|
    ensures forall i :: 0 <= i < |rows| ==> vs[i] == View(rows[i], withPassword)
  {
    seq(|rows|, i requires 0 <= i < |rows| => View(rows[i], withPassword))
  }

  /** The role check, then the banking check, which only a truthy `bankingId` undergoes. */
  function ReferenceError(liveRoles: set<int>, liveBanking: set<Scalar>, u: UserInput): (e: Option<string>)
    ensures e == Some(InvalidRole) <==> u.roleId.None? || u.roleId.value !in liveRoles
    ensures e == Some(InvalidBanking) <==>
      u.roleId.Some? && u.roleId.value in liveRoles && TruthyScalar(u.bankingId) && u.bankingId.value !in liveBanking
    ensures e.None? ==> u.roleId.Some?
  {
    if u.roleId.None? || u.roleId.value !in liveRoles then Some(InvalidRole)
    else if TruthyScalar(u.bankingId) && u.bankingId.value !in liveBanking then Some(InvalidBanking)
    else None
  }

  /** A banking id sent as the text "0" is truthy, so it is checked; the
      number 0 is falsy, so it is not checked and is stored as null. */
  lemma BankingCheckFollowsTruthiness(liveRoles: set<int>, liveBanking: set<Scalar>, u: UserInput)
    requires u.roleId.Some? && u.roleId.value in liveRoles
    ensures u.bankingId == Some(Text("0")) && Text("0") !in liveBanking ==>
      ReferenceError(liveRoles, liveBanking, u) == Some(InvalidBanking)
    ensures u.bankingId == Some(Number(0.0)) ==>
      ReferenceError(liveRoles, liveBanking, u).None? && ProfileOf(u, None).bankingId.None?
  {
  }

  /** The profile columns written from the input: `employedAt || null`, `bankingId || null`. */
  function ProfileOf(u: UserInput, lastLogin: Option<Time>): Profile
    requires u.roleId.Some?
  {
    Profile(u.username, u.email, u.phone, u.address, u.roleId.value, OrNull(u.employedAt), ScalarOrNull(u.bankingId), lastLogin)
  }

  // ---------------------------------------------------------------- queries

  /** `findAllUsers`: `SELECT *` over the live rows, password included. */
  function FindAllUsers(s: Store<UserAttrs>): (r: seq<Row<Visible>>)
    requires WellFormed(s)
    ensures |r| == |Listing(s)|
    ensures forall i :: 0 <= i < |r| ==> r[i] == View(Listing(s)[i], true) && r[i].attrs.password.Some?
  {
    Views(Listing(s), true)
  }

  /** `findUserById`: the live row without its password, or null. */
  function FindUserById(s: Store<UserAttrs>, id: int): (r: Option<Row<Visible>>)
    ensures r.Some? <==> Find(s, id).Some?
    ensures r.Some? ==> r.value == View(Find(s, id).value, false) && r.value.attrs.password.None?
  {
    match Find(s, id)
    case None => None
    case Some(row) => Some(View(row, false))
  }

  /** `username = ?` when `exact`, `username LIKE '%pattern%'` otherwise. */
  predicate Matches(username: string, pattern: string, exact: bool) {
    if exact then username == pattern else Contains(username, pattern)
  }

  /** The rows whose username matches, in their order. */
  function Filter(rows: seq<Row<UserAttrs>>, pattern: string, exact: bool): (r: seq<Row<UserAttrs>>)
    ensures |r| <= |rows|
    ensures forall x :: x in r <==> x in rows && Matches(x.attrs.profile.username, pattern, exact)
  {
    if rows == [] then []
    else
      var rest := Filter(rows[1..], pattern, exact);
      assert forall x :: x in rows <==> x == rows[0] || x in rows[1..];
      if Matches(rows[0].attrs.profile.username, pattern, exact) then [rows[0]] + rest else rest
  }

  /** `findUserByUsername(username, exactMatch, includePassword)`. */
  function FindUserByUsername(s: Store<UserAttrs>, username: string, exactMatch: bool, includePassword: bool): seq<Row<Visible>>
    requires WellFormed(s)
  {
    Views(Filter(Listing(s), username, exactMatch), includePassword)
  }

  // ---------------------------------------------------------------- steps

  function CreateUserStep(s: Store<UserAttrs>, liveRoles: set<int>, liveBanking: set<Scalar>, u: UserInput,
                          password: string, now: Time): Outcome<UserAttrs, Row<Visible>>
  {
    match ReferenceError(liveRoles, liveBanking, u)
    case Some(e) => Outcome(Failure(e), s)
    case None =>
      var o := CreateStep(s, UserAttrs(ProfileOf(u, None), Bcrypt(password)), u.profileImage, now);
      Outcome(Success(View(o.result.value, false)), o.store)
  }

  /** `updateUser`: 'Not found', then the role check, then the banking
      check; then the old image goes when a new one replaces it; the
      password is kept when none is given (`COALESCE`) and replaced by the
      digest of the new one otherwise. */
  function UpdateUserStep(s: Store<UserAttrs>, liveRoles: set<int>, liveBanking: set<Scalar>, id: int,
                          u: UserInput, password: Option<string>, now: Time): Outcome<UserAttrs, Row<Visible>>
  {
    if Find(s, id).None? then Outcome(Failure(NotFound), s)
    else
      match ReferenceError(liveRoles, liveBanking, u)
      case Some(e) => Outcome(Failure(e), s)
      case None =>
        var existing := s.rows[id];
        match ReplaceObject(s.objects, existing.file, u.profileImage)
        case Failure(e) => Outcome(Failure(e), s)
        case Success(objects) =>
          var digest := if Truthy(password) then Bcrypt(password.value) else existing.attrs.password;
          var row := existing.(attrs := UserAttrs(ProfileOf(u, existing.attrs.profile.lastLogin), digest),
                               file := OrNull(u.profileImage), updatedAt := now);
          Outcome(Success(View(row, false)), Store(s.rows[id := row], s.nextId, objects))
  }

  /** `updateUser` as written: without a password `hashedPassword` is
      `undefined`, which the driver refuses when the `UPDATE` is executed.
      By then the old image object has already been deleted; the rollback
      restores the row but not the object. With a password it is `UpdateUserStep`. */
  function UpdateUserStepAsWritten(s: Store<UserAttrs>, liveRoles: set<int>, liveBanking: set<Scalar>, id: int,
                                   u: UserInput, password: Option<string>, now: Time): Outcome<UserAttrs, Row<Visible>>
  {
    if Truthy(password) then UpdateUserStep(s, liveRoles, liveBanking, id, u, password, now)
    else if Find(s, id).None? then Outcome(Failure(NotFound), s)
    else
      match ReferenceError(liveRoles, liveBanking, u)
      case Some(e) => Outcome(Failure(e), s)
      case None =>
        match ReplaceObject(s.objects, s.rows[id].file, u.profileImage)
        case Failure(e) => Outcome(Failure(e), s)
        case Success(objects) => Outcome(Failure(UndefinedBind), s.(objects := objects))
  }

  function UpdateLastLoginStep(s: Store<UserAttrs>, id: int, now: Time): Outcome<UserAttrs, Row<Visible>> {
    if Find(s, id).None? then Outcome(Failure(NotFound), s)
    else
      var existing := s.rows[id];
      var row := existing.(attrs := existing.attrs.(profile := existing.attrs.profile.(lastLogin := Some(now))));
      Outcome(Success(View(row, false)), s.(rows := s.rows[id := row]))
  }

  function UpdateUserPasswordStep(s: Store<UserAttrs>, id: int, newPassword: string, now: Time): Outcome<UserAttrs, Row<Visible>> {
    if Find(s, id).None? then Outcome(Failure(NotFound), s)
    else
      var existing := s.rows[id];
      var row := existing.(attrs := existing.attrs.(password := Bcrypt(newPassword)), updatedAt := now);
      Outcome(Success(View(row, false)), s.(rows := s.rows[id := row]))
  }

  /** `activateDeactivateUser`: looks the id up among all rows, deleted or not. */
  function ActivateDeactivateStep(s: Store<UserAttrs>, id: int, isActive: bool, now: Time): Outcome<UserAttrs, Row<Visible>> {
    if id !in s.rows then Outcome(Failure(UserNotFound), s)
    else
      var row := s.rows[id].(deletedAt := if isActive then None else Some(now), updatedAt := now);
      Outcome(Success(View(row, false)), s.(rows := s.rows[id := row]))
  }

  // ---------------------------------------------------------------- properties

  /** `createUser` fails before inserting exactly when a reference check
      fails; otherwise it stores the digest of the password and returns the new
      row without it, and the password is listed by `findAllUsers` only. */
  lemma CreateUserChecksThenHashes(s: Store<UserAttrs>, liveRoles: set<int>, liveBanking: set<Scalar>,
                                   u: UserInput, password: string, now: Time)
    requires WellFormed(s)
    ensures var o := CreateUserStep(s, liveRoles, liveBanking, u, password, now);
      && (o.result.Failure? <==> ReferenceError(liveRoles, liveBanking, u).Some?)
      && (o.result.Failure? ==> o.result.error == ReferenceError(liveRoles, liveBanking, u).value && o.store == s)
      && (o.result.Success? ==>
            var id := o.result.value.id;
            && WellFormed(o.store)
            && id !in s.rows && Find(o.store, id).Some?
            && o.store.rows[id].attrs.password == Bcrypt(password)
            && o.store.rows[id].file == OrNull(u.profileImage)
            && o.result.value.attrs.password.None?
            && FindUserById(o.store, id) == Some(o.result.value)
            && View(o.store.rows[id], true) in FindAllUsers(o.store))
  {
    var o := CreateUserStep(s, liveRoles, liveBanking, u, password, now);
    if o.result.Success? {
      var id := o.result.value.id;
      CreateAddsLiveRow(s, UserAttrs(ProfileOf(u, None), Bcrypt(password)), u.profileImage, now);
      ListingIsFind(o.store, o.store.rows[id]);
      var i :| 0 <= i < |Listing(o.store)| && Listing(o.store)[i] == o.store.rows[id];
      assert FindAllUsers(o.store)[i] == View(o.store.rows[id], true);
    }
  }

  /** `updateUser` checks in order: a missing or deleted user is 'Not found'
      whatever the references; a live user with a bad role is 'Invalid role_id'
      whatever the banking id. Every failure changes nothing. */
  lemma UpdateUserCheckOrder(s: Store<UserAttrs>, liveRoles: set<int>, liveBanking: set<Scalar>, id: int,
                             u: UserInput, password: Option<string>, now: Time)
    ensures var o := UpdateUserStep(s, liveRoles, liveBanking, id, u, password, now);
      && (o.result.Failure? ==> o.store == s)
      && (Find(s, id).None? ==> o.result == Failure(NotFound))
      && (Find(s, id).Some? && ReferenceError(liveRoles, liveBanking, u).Some? ==>
            o.result == Failure(ReferenceError(liveRoles, liveBanking, u).value))
  {
  }

  /** A successful `updateUser` keeps the stored digest when no password (or
      an empty one) is given and stores the digest of the new one otherwise;
      the old image object leaves the bucket exactly when a new image is given
      and an old one exists; `last_login` and `created_at` are kept. */
  lemma UpdateUserPasswordAndImage(s: Store<UserAttrs>, liveRoles: set<int>, liveBanking: set<Scalar>, id: int,
                                   u: UserInput, password: Option<string>, now: Time)
    requires WellFormed(s)
    requires UpdateUserStep(s, liveRoles, liveBanking, id, u, password, now).result.Success?
    ensures var o := UpdateUserStep(s, liveRoles, liveBanking, id, u, password, now);
      var before := s.rows[id];
      var after := o.store.rows[id];
      && WellFormed(o.store)
      && Find(s, id).Some?
      && after.attrs.password == (if Truthy(password) then Bcrypt(password.value) else before.attrs.password)
      && after.file == OrNull(u.profileImage)
      && after.attrs.profile.lastLogin == before.attrs.profile.lastLogin
      && after.createdAt == before.createdAt && after.updatedAt == now && IsLive(after)
      && (Truthy(u.profileImage) && Truthy(before.file) ==>
            o.store.objects == Removed(s.objects, KeyFromUrl(before.file).value))
      && (!(Truthy(u.profileImage) && Truthy(before.file)) ==> o.store.objects == s.objects)
      && o.result.value == View(after, false)
  {
  }

  /** As written, an update without a password never succeeds, even where
      the `COALESCE` version keeps the stored digest; the row is left as it
      was, yet an old image replaced by a new one is gone from the bucket,
      so the row still refers to a removed object. */
  lemma UpdateUserAsWrittenFailsWithoutPassword(s: Store<UserAttrs>, liveRoles: set<int>, liveBanking: set<Scalar>,
                                                id: int, u: UserInput, now: Time, host: string, oldKey: string)
    requires WellFormed(s) && Find(s, id).Some? && ReferenceError(liveRoles, liveBanking, u).None?
    requires IsHost(host) && NoDotSegments(oldKey) && s.rows[id].file == Some(ObjectUrl(host, oldKey)) && oldKey != ""
    requires Truthy(u.profileImage)
    ensures var written := UpdateUserStepAsWritten(s, liveRoles, liveBanking, id, u, None, now);
      var intended := UpdateUserStep(s, liveRoles, liveBanking, id, u, None, now);
      && written.result == Failure(UndefinedBind)
      && written.store.rows == s.rows
      && oldKey !in written.store.objects
      && written.store.rows[id].file == Some(ObjectUrl(host, oldKey))
      && intended.result.Success?
      && intended.store.rows[id].attrs.password == s.rows[id].attrs.password
  {
    KeyFromObjectUrl(host, oldKey);
  }

  /** `updateLastLogin` changes `last_login` and nothing else, not even
      `updated_at`; a missing or deleted user is 'Not found'. */
  lemma UpdateLastLoginChangesOnlyLastLogin(s: Store<UserAttrs>, id: int, now: Time)
    requires WellFormed(s)
    ensures var o := UpdateLastLoginStep(s, id, now);
      && (Find(s, id).None? ==> o == Outcome(Failure(NotFound), s))
      && (Find(s, id).Some? ==>
            var before := s.rows[id];
            && o.result.Success?
            && WellFormed(o.store)
            && o.store.rows[id].attrs.profile.lastLogin == Some(now)
            && o.store.rows[id] == before.(attrs := before.attrs.(profile := before.attrs.profile.(lastLogin := Some(now))))
            && o.store.rows[id].updatedAt == before.updatedAt
            && (forall k :: k != id ==> (k in o.store.rows <==> k in s.rows) && (k in s.rows ==> o.store.rows[k] == s.rows[k]))
            && o.store.objects == s.objects && o.store.nextId == s.nextId)
  {
    if Find(s, id).Some? {
      SetRowKeepsWellFormed(s, UpdateLastLoginStep(s, id, now).store.rows[id], s.objects);
    }
  }

  /** `updateUserPassword` changes the digest and `updated_at` and nothing
      else; a missing or deleted user is 'Not found'. */
  lemma UpdateUserPasswordChangesOnlyPassword(s: Store<UserAttrs>, id: int, newPassword: string, now: Time)
    requires WellFormed(s)
    ensures var o := UpdateUserPasswordStep(s, id, newPassword, now);
      && (Find(s, id).None? ==> o == Outcome(Failure(NotFound), s))
      && (Find(s, id).Some? ==>
            var before := s.rows[id];
            && o.result.Success?
            && WellFormed(o.store)
            && o.store.rows[id] == before.(attrs := before.attrs.(password := Bcrypt(newPassword)), updatedAt := now)
            && o.store.rows[id].attrs.profile == before.attrs.profile
            && (forall k :: k != id ==> (k in o.store.rows <==> k in s.rows) && (k in s.rows ==> o.store.rows[k] == s.rows[k]))
            && o.store.objects == s.objects && o.store.nextId == s.nextId)
  {
    if Find(s, id).Some? {
      SetRowKeepsWellFormed(s, UpdateUserPasswordStep(s, id, newPassword, now).store.rows[id], s.objects);
    }
  }

  /** `activateDeactivateUser` fails only for an id that was never created;
      it revives a deleted user or marks a user deleted, touches `updated_at`
      either way, and leaves the profile image object in the bucket. */
  lemma ActivateDeactivateActsOnDeletedRows(s: Store<UserAttrs>, id: int, isActive: bool, now: Time)
    requires WellFormed(s)
    ensures var o := ActivateDeactivateStep(s, id, isActive, now);
      && (o.result.Failure? <==> id !in s.rows)
      && (o.result.Failure? ==> o.result.error == UserNotFound && o.store == s)
      && (o.result.Success? ==>
            && WellFormed(o.store)
            && o.store.rows[id].updatedAt == now
            && o.store.rows[id].attrs == s.rows[id].attrs && o.store.rows[id].file == s.rows[id].file
            && (isActive ==> Find(o.store, id) == Some(o.store.rows[id]))
            && (!isActive ==> Find(o.store, id).None? && o.store.rows[id].deletedAt == Some(now))
            && o.store.objects == s.objects)
  {
    if id in s.rows {
      SetRowKeepsWellFormed(s, ActivateDeactivateStep(s, id, isActive, now).store.rows[id], s.objects);
    }
  }

  /** A deleted user can be brought back: deactivating or deleting and then
      activating makes the user found again, with the same profile. */
  lemma DeleteThenActivate(s: Store<UserAttrs>, id: int, now: Time, later: Time)
    requires WellFormed(s)
    requires DeleteStep(s, id, now).result.Success?
    ensures var s1 := DeleteStep(s, id, now).store;
      var o := ActivateDeactivateStep(s1, id, true, later);
      o.result.Success? && Find(o.store, id).Some? && o.store.rows[id].attrs == s.rows[id].attrs
  {
  }

  /** `findUserByUsername` returns the live users whose username matches
      (equal when `exactMatch`, containing the pattern otherwise), with the
      password exactly when `includePassword`. */
  lemma FindUserByUsernameMatches(s: Store<UserAttrs>, username: string, exactMatch: bool, includePassword: bool)
    requires WellFormed(s)
    ensures var found := FindUserByUsername(s, username, exactMatch, includePassword);
      && (forall v :: v in found ==> (v.attrs.password.Some? <==> includePassword))
      && (forall r :: r in Listing(s) && Matches(r.attrs.profile.username, username, exactMatch) ==>
            View(r, includePassword) in found)
      && (forall v :: v in found ==>
            exists r :: r in Listing(s) && Matches(r.attrs.profile.username, username, exactMatch) && v == View(r, includePassword))
  {
    var rows := Filter(Listing(s), username, exactMatch);
    var found := Views(rows, includePassword);
    forall r | r in Listing(s) && Matches(r.attrs.profile.username, username, exactMatch)
      ensures View(r, includePassword) in found
    {
      var i :| 0 <= i < |rows| && rows[i] == r;
      assert found[i] == View(r, includePassword);
    }
    forall v | v in found
      ensures exists r :: r in Listing(s) && Matches(r.attrs.profile.username, username, exactMatch) && v == View(r, includePassword)
    {
      var i :| 0 <= i < |found| && found[i] == v;
      assert rows[i] in rows;
    }
  }

  // ---------------------------------------------------------------- the repository

  method CreateUser(t: Table<UserAttrs>, liveRoles: set<int>, liveBanking: set<Scalar>, u: UserInput,
                    password: string, now: Time)
    returns (r: Result<Row<Visible>, string>)
    requires t.Valid()
    modifies t
    ensures t.Valid()
    ensures var o := CreateUserStep(old(t.Snapshot()), liveRoles, liveBanking, u, password, now);
      r == o.result && t.Snapshot() == o.store
  {
    var err := ReferenceError(liveRoles, liveBanking, u);
    if err.Some? {
      return Failure(err.value);
    }
    var row := t.Insert(UserAttrs(ProfileOf(u, None), Bcrypt(password)), u.profileImage, now);
    r := Success(View(row, false));
  }

  method UpdateUser(t: Table<UserAttrs>, liveRoles: set<int>, liveBanking: set<Scalar>, id: int, u: UserInput,
                    password: Option<string>, now: Time)
    returns (r: Result<Row<Visible>, string>)
    requires t.Valid()
    modifies t, t.bucket
    ensures t.Valid()
    ensures var o := UpdateUserStep(old(t.Snapshot()), liveRoles, liveBanking, id, u, password, now);
      r == o.result && t.Snapshot() == o.store
  {
    if !(id in t.rows && IsLive(t.rows[id])) {
      return Failure(NotFound);
    }
    var existing := t.rows[id];
    var err := ReferenceError(liveRoles, liveBanking, u);
    if err.Some? {
      return Failure(err.value);
    }
    if Truthy(u.profileImage) && Truthy(existing.file) {
      var released := t.ReleaseObject(existing.file);
      if released.Some? {
        return Failure(released.value);
      }
    }
    var digest := if Truthy(password) then Bcrypt(password.value) else existing.attrs.password;
    var row := existing.(attrs := UserAttrs(ProfileOf(u, existing.attrs.profile.lastLogin), digest),
                         file := OrNull(u.profileImage), updatedAt := now);
    t.rows := t.rows[id := row];
    r := Success(View(row, false));
  }

  method UpdateLastLogin(t: Table<UserAttrs>, id: int, now: Time) returns (r: Result<Row<Visible>, string>)
    requires t.Valid()
    modifies t
    ensures t.Valid()
    ensures var o := UpdateLastLoginStep(old(t.Snapshot()), id, now);
      r == o.result && t.Snapshot() == o.store
  {
    if !(id in t.rows && IsLive(t.rows[id])) {
      return Failure(NotFound);
    }
    var existing := t.rows[id];
    var row := existing.(attrs := existing.attrs.(profile := existing.attrs.profile.(lastLogin := Some(now))));
    t.rows := t.rows[id := row];
    r := Success(View(row, false));
  }

  method DeleteUser(t: Table<UserAttrs>, id: int, now: Time) returns (r: Result<bool, string>)
    requires t.Valid()
    modifies t, t.bucket
    ensures t.Valid()
    ensures var o := DeleteStep(old(t.Snapshot()), id, now);
      r == o.result && t.Snapshot() == o.store
  {
    r := t.Delete(id, now);
  }

  method UpdateUserPassword(t: Table<UserAttrs>, id: int, newPassword: string, now: Time)
    returns (r: Result<Row<Visible>, string>)
    requires t.Valid()
    modifies t
    ensures t.Valid()
    ensures var o := UpdateUserPasswordStep(old(t.Snapshot()), id, newPassword, now);
      r == o.result && t.Snapshot() == o.store
  {
    if !(id in t.rows && IsLive(t.rows[id])) {
      return Failure(NotFound);
    }
    var existing := t.rows[id];
    var row := existing.(attrs := existing.attrs.(password := Bcrypt(newPassword)), updatedAt := now);
    t.rows := t.rows[id := row];
    r := Success(View(row, false));
  }

  method ActivateDeactivateUser(t: Table<UserAttrs>, id: int, isActive: bool, now: Time)
    returns (r: Result<Row<Visible>, string>)
    requires t.Valid()
    modifies t
    ensures t.Valid()
    ensures var o := ActivateDeactivateStep(old(t.Snapshot()), id, isActive, now);
      r == o.result && t.Snapshot() == o.store
  {
    if id !in t.rows {
      return Failure(UserNotFound);
    }
    var row := t.rows[id].(deletedAt := if isActive then None else Some(now), updatedAt := now);
    t.rows := t.rows[id := row];
    r := Success(View(row, false));
  }
}
