/** The admin accounts: the derived user-name queries of the admin
    repository and the admin service, with the password encoder as a
    parameter. */
module AdminService {
  import opened Common
  import opened Tables
  import opened AdminModel
  import opened Store
  import opened PasswordEncoder

  /** `findByUsername`. */
  function FindByUsername(admins: seq<Admin>, username: string): (r: Option<Admin>)
    ensures r.Some? ==> r.value in admins && r.value.username == username
    ensures r.None? <==> forall a :: a in admins ==> a.username != username
  {
    FindBy(admins, AdminUsername, username)
  }

  /** `existsByUsername`. */
  function ExistsByUsername(admins: seq<Admin>, username: string): (b: bool)
    ensures b <==> FindByUsername(admins, username).Some?
  {
    exists a :: a in admins && a.username == username
  }

  /** With unique user names, `findByUsername` returns the only admin with that name. */
  lemma AtMostOneAdminPerUsername(admins: seq<Admin>, username: string)
    requires UniqueBy(admins, AdminUsername)
    ensures forall a :: a in admins && a.username == username ==> FindByUsername(admins, username) == Some(a)
  {
    forall a | a in admins && a.username == username ensures FindByUsername(admins, username) == Some(a) {
      UniqueByIdentifies(admins, AdminUsername, a, FindByUsername(admins, username).value);
    }
  }

  /** `createAdmin`: a taken user name is refused before anything else;
      otherwise the encoded password is saved. `save` keeps a stored id,
      merging over that admin, and gives a null or unknown id the next identity. */
  function Created(admins: seq<Admin>, next: nat, id: Option<nat>, enc: Encoder, admin: Admin): (r: Result<Admin, Error>)
    ensures r == Err(UsernameTaken) <==> exists a :: a in admins && a.username == admin.username
    ensures r.Ok? ==> r.value == admin.(id := SavedId(admins, AdminId, next, id), password := enc.encode(admin.password))
    ensures r.Ok? ==> ValidAdmin(r.value)
  {
    if ExistsByUsername(admins, admin.username) then Err(UsernameTaken)
    else
      var x := admin.(id := SavedId(admins, AdminId, next, id), password := enc.encode(admin.password));
      if !ValidAdmin(x) then Err(ConstraintViolation) else Ok(x)
  }

  /** With a sound encoder the created admin logs in with the password it was
      created with, and with non-blank hashes a new non-blank name always succeeds. */
  lemma CreatedAdminLogsIn(admins: seq<Admin>, next: nat, id: Option<nat>, enc: Encoder, admin: Admin)
    requires Sound(enc) && NonBlankHashes(enc)
    requires NotBlank(admin.username) && forall a :: a in admins ==> a.username != admin.username
    ensures Created(admins, next, id, enc, admin).Ok?
    ensures enc.matches(admin.password, Created(admins, next, id, enc, admin).value.password)
  {
    assert ValidAdmin(admin.(id := SavedId(admins, AdminId, next, id), password := enc.encode(admin.password)));
  }

  lemma CreatedKeepsIntegrity(admins: seq<Admin>, next: nat, id: Option<nat>, enc: Encoder, admin: Admin)
    requires AdminsOk(admins, next)
    requires Created(admins, next, id, enc, admin).Ok?
    ensures var x := Created(admins, next, id, enc, admin).value;
            AdminsOk(Upsert(admins, AdminId, x), SavedNext(admins, AdminId, next, x.id))
  {
    var x := Created(admins, next, id, enc, admin).value;
    UniqueByUpsert(admins, AdminId, x);
    UniqueByUpsertFresh(admins, AdminId, AdminUsername, x);
    if HasKey(admins, AdminId, x.id) {
      var y :| y in admins && y.id == x.id;
    }
  }

  /** Called with a stored admin's id, `createAdmin` replaces that admin:
      its old user name no longer logs in, and the new one finds the created row. */
  lemma CreatedOverStoredAdmin(admins: seq<Admin>, next: nat, k: nat, enc: Encoder, admin: Admin)
    requires AdminsOk(admins, next) && k < |admins|
    requires Created(admins, next, Some(admins[k].id), enc, admin).Ok?
    ensures var x := Created(admins, next, Some(admins[k].id), enc, admin).value;
            var t := Upsert(admins, AdminId, x);
            && x.id == admins[k].id && |t| == |admins|
            && FindByUsername(t, admins[k].username).None?
            && FindByUsername(t, admin.username) == Some(x)
  {
    var x := Created(admins, next, Some(admins[k].id), enc, admin).value;
    assert admins[k] in admins;
    assert IndexOf(admins, AdminId, x.id) == Some(k);
    var t := admins[k := x];
    forall y | y in t ensures y.username != admins[k].username {
      var j :| 0 <= j < |t| && t[j] == y;
    }
    CreatedKeepsIntegrity(admins, next, Some(admins[k].id), enc, admin);
    assert t[k] == x;
    AtMostOneAdminPerUsername(t, admin.username);
  }

  /** `createAdmin`. The id argument is the entity's id, null when absent; only in-process callers reach it. */
  method CreateAdmin(db: Database, enc: Encoder, id: Option<nat>, admin: Admin) returns (r: Result<Admin, Error>)
    requires db.Valid()
    modifies db`admins, db`nextAdminId
    ensures db.Valid()
    ensures r == Created(old(db.admins), old(db.nextAdminId), id, enc, admin)
    ensures r.Ok? ==> db.admins == Upsert(old(db.admins), AdminId, r.value)
                      && db.nextAdminId == SavedNext(old(db.admins), AdminId, old(db.nextAdminId), r.value.id)
    ensures r.Err? ==> db.admins == old(db.admins) && db.nextAdminId == old(db.nextAdminId)
  {
    r := Created(db.admins, db.nextAdminId, id, enc, admin);
    if r.Ok? {
      CreatedKeepsIntegrity(db.admins, db.nextAdminId, id, enc, admin);
      db.admins, db.nextAdminId := Upsert(db.admins, AdminId, r.value), SavedNext(db.admins, AdminId, db.nextAdminId, r.value.id);
    }
  }

  /** `save` of an existing admin row at position `k`. */
  function SaveExisting(admins: seq<Admin>, k: nat, x: Admin): (r: Result<seq<Admin>, Error>)
    requires k < |admins|
    ensures r.Ok? <==> ValidAdmin(x) && forall j :: 0 <= j < |admins| && j != k ==> admins[j].username != x.username
    ensures r.Ok? ==> r.value == admins[k := x]
  {
    if !ValidAdmin(x) then Err(ConstraintViolation)
    else if exists j :: 0 <= j < |admins| && j != k && admins[j].username == x.username then Err(UniqueViolation)
    else Ok(admins[k := x])
  }

  lemma SaveExistingKeepsIntegrity(admins: seq<Admin>, next: nat, k: nat, x: Admin)
    requires AdminsOk(admins, next) && k < |admins| && x.id == admins[k].id
    requires SaveExisting(admins, k, x).Ok?
    ensures AdminsOk(admins[k := x], next)
  {
    UniqueByUpdate(admins, AdminId, k, x);
    UniqueByUpdate(admins, AdminUsername, k, x);
    assert admins[k] in admins;
  }

  /** The row `updateAdmin` saves: the user name always taken from the
      request, the password re-encoded only when the request carries a
      non-empty one that the stored hash does not accept. */
  function UpdatedAdmin(e: Admin, details: Admin, enc: Encoder): (a: Admin)
    ensures a.id == e.id && a.role == e.role && a.username == details.username
    ensures a.password != e.password ==> details.password != "" && !enc.matches(details.password, e.password)
  {
    var pw := if details.password != "" && !enc.matches(details.password, e.password) then enc.encode(details.password) else e.password;
    e.(username := details.username, password := pw)
  }

  /** Whatever the request carries, with a sound encoder the stored hash
      afterwards accepts the request's password, or the request had none and
      the hash is kept. */
  lemma UpdatedAdminPassword(e: Admin, details: Admin, enc: Encoder)
    requires Sound(enc)
    ensures details.password == "" ==> UpdatedAdmin(e, details, enc).password == e.password
    ensures details.password != "" ==> enc.matches(details.password, UpdatedAdmin(e, details, enc).password)
  {
  }

  /** The table after `updateAdmin`. */
  function Updated(admins: seq<Admin>, enc: Encoder, id: nat, details: Admin): (r: Result<seq<Admin>, Error>)
    ensures r == Err(AdminNotFound) <==> forall a :: a in admins ==> a.id != id
    ensures r.Err? ==> r.error in {AdminNotFound, ConstraintViolation, UniqueViolation}
  {
    match IndexOf(admins, AdminId, id)
    case None => Err(AdminNotFound)
    case Some(k) => SaveExisting(admins, k, UpdatedAdmin(admins[k], details, enc))
  }

  /** Renaming an admin to a name another admin holds is refused by the unique column. */
  lemma UpdateToTakenNameFails(admins: seq<Admin>, enc: Encoder, id: nat, details: Admin)
    requires exists a :: a in admins && a.id != id && a.username == details.username
    ensures Updated(admins, enc, id, details).Err?
  {
    var k := IndexOf(admins, AdminId, id);
    if k.Some? {
      var a :| a in admins && a.id != id && a.username == details.username;
      var j :| 0 <= j < |admins| && admins[j] == a;
      assert j != k.value;
    }
  }

  /** `updateAdmin`. */
  method UpdateAdmin(db: Database, enc: Encoder, id: nat, details: Admin) returns (r: Result<Admin, Error>)
    requires db.Valid()
    modifies db`admins
    ensures db.Valid()
    ensures match Updated(old(db.admins), enc, id, details)
            case Err(e) => r == Err(e) && db.admins == old(db.admins)
            case Ok(t) => db.admins == t && r.Ok? && r.value in t && r.value.id == id && r.value.username == details.username
  {
    var t := Updated(db.admins, enc, id, details);
    if t.Err? {
      return Err(t.error);
    }
    var k := IndexOf(db.admins, AdminId, id).value;
    var x := UpdatedAdmin(db.admins[k], details, enc);
    SaveExistingKeepsIntegrity(db.admins, db.nextAdminId, k, x);
    db.admins := t.value;
    assert t.value[k] == x;
    r := Ok(x);
  }

  /** The table after `deleteAdmin`. */
  function Deleted(admins: seq<Admin>, id: nat): (r: Result<seq<Admin>, Error>)
    ensures r.Err? <==> forall a :: a in admins ==> a.id != id
    ensures r.Err? ==> r.error == AdminNotFound
    ensures r.Ok? ==> |r.value| == |admins| - 1
  {
    match IndexOf(admins, AdminId, id)
    case None => Err(AdminNotFound)
    case Some(k) => Ok(RemoveAt(admins, k))
  }

  /** Deletion removes exactly the admin with that id. */
  lemma DeletedRemovesExactlyOne(admins: seq<Admin>, id: nat)
    requires UniqueBy(admins, AdminId)
    ensures Deleted(admins, id).Ok? ==> forall a :: a in Deleted(admins, id).value <==> a in admins && a.id != id
  {
    var k := IndexOf(admins, AdminId, id);
    if k.Some? {
      RemoveAtKeepsOthers(admins, AdminId, k.value);
    }
  }

  lemma DeletedKeepsIntegrity(admins: seq<Admin>, next: nat, id: nat)
    requires AdminsOk(admins, next)
    requires Deleted(admins, id).Ok?
    ensures AdminsOk(Deleted(admins, id).value, next)
  {
    var k := IndexOf(admins, AdminId, id).value;
    UniqueByRemove(admins, AdminId, k);
    UniqueByRemove(admins, AdminUsername, k);
    RemoveAtKeepsOthers(admins, AdminId, k);
  }

  /** `deleteAdmin`. */
  method DeleteAdmin(db: Database, id: nat) returns (r: Result<(), Error>)
    requires db.Valid()
    modifies db`admins
    ensures db.Valid()
    ensures match Deleted(old(db.admins), id)
            case Err(e) => r == Err(e) && db.admins == old(db.admins)
            case Ok(t) => r == Ok(()) && db.admins == t
  {
    var t := Deleted(db.admins, id);
    if t.Err? {
      return Err(t.error);
    }
    DeletedKeepsIntegrity(db.admins, db.nextAdminId, id);
    db.admins := t.value;
    r := Ok(());
  }

  /** Outcome of `changePassword`, read as for the doctor service:
      `Ok(None)` answers false, `Ok(Some(t))` answers true with table `t`. */
  function ChangedPassword(admins: seq<Admin>, enc: Encoder, username: string, oldPassword: string, newPassword: string): (r: Result<Option<seq<Admin>>, Error>)
    ensures (forall a :: a in admins ==> a.username != username) ==> r == Ok(None)
    ensures FindByUsername(admins, username).Some? && !enc.matches(oldPassword, FindByUsername(admins, username).value.password) ==> r == Ok(None)
  {
    match IndexOf(admins, AdminUsername, username)
    case None => Ok(None)
    case Some(k) =>
      if !enc.matches(oldPassword, admins[k].password) then Ok(None)
      else match SaveExisting(admins, k, admins[k].(password := enc.encode(newPassword)))
        case Err(e) => Err(e)
        case Ok(t) => Ok(Some(t))
  }

  /** With non-blank hashes `changePassword` answers true exactly when the
      admin exists and the old password matches; only that admin's password
      changes, and with a sound encoder the new password then logs in. */
  lemma ChangedPasswordExactly(admins: seq<Admin>, next: nat, enc: Encoder, username: string, oldPassword: string, newPassword: string)
    requires AdminsOk(admins, next) && NonBlankHashes(enc) && Sound(enc)
    ensures var r := ChangedPassword(admins, enc, username, oldPassword, newPassword);
            && r.Ok?
            && (r.value.Some? <==> FindByUsername(admins, username).Some? && enc.matches(oldPassword, FindByUsername(admins, username).value.password))
            && (r.value.Some? ==>
                  var k := IndexOf(admins, AdminUsername, username).value;
                  && r.value.value == admins[k := admins[k].(password := enc.encode(newPassword))]
                  && enc.matches(newPassword, r.value.value[k].password))
  {
    var k := IndexOf(admins, AdminUsername, username);
    if k.Some? {
      assert admins[k.value] in admins;
      assert ValidAdmin(admins[k.value].(password := enc.encode(newPassword)));
    }
  }

  /** `changePassword`. */
  method ChangePassword(db: Database, enc: Encoder, username: string, oldPassword: string, newPassword: string) returns (r: Result<bool, Error>)
    requires db.Valid()
    modifies db`admins
    ensures db.Valid()
    ensures match ChangedPassword(old(db.admins), enc, username, oldPassword, newPassword)
            case Ok(None) => r == Ok(false) && db.admins == old(db.admins)
            case Ok(Some(t)) => r == Ok(true) && db.admins == t
            case Err(e) => r == Err(e) && db.admins == old(db.admins)
  {
    var k := IndexOf(db.admins, AdminUsername, username);
    if k.None? {
      return Ok(false);
    }
    if !enc.matches(oldPassword, db.admins[k.value].password) {
      return Ok(false);
    }
    var x := db.admins[k.value].(password := enc.encode(newPassword));
    var t := SaveExisting(db.admins, k.value, x);
    if t.Err? {
      return Err(t.error);
    }
    SaveExistingKeepsIntegrity(db.admins, db.nextAdminId, k.value, x);
    db.admins := t.value;
    r := Ok(true);
  }
}
