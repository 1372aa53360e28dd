/** The doctor service: saving (encoding the password only when it is new
    or changed), the profile update, the cascading delete, and the two
    password operations. The password encoder is a parameter. */
module DoctorService {
  import opened Common
  import opened Tables
  import opened AppointmentModel
  import opened InvoiceModel
  import opened DoctorModel
  import opened DoctorRepository
  import opened Store
  import opened PasswordEncoder
  import InvoiceRepository

  /** `save` of an existing doctor row at position `k`: Bean Validation, then the unique e-mail column. */
  function SaveExisting(ds: seq<Doctor>, k: nat, x: Doctor): (r: Result<seq<Doctor>, Error>)
    requires k < |ds|
    ensures r.Ok? <==> ValidDoctor(x) && forall j :: 0 <= j < |ds| && j != k ==> ds[j].email != x.email
    ensures r.Ok? ==> r.value == ds[k := x]
  {
    if !ValidDoctor(x) then Err(ConstraintViolation)
    else if exists j :: 0 <= j < |ds| && j != k && ds[j].email == x.email then Err(UniqueViolation)
    else Ok(ds[k := x])
  }

  /** `save` of a new doctor: the row stored, with its identity. */
  function SaveNew(ds: seq<Doctor>, next: nat, x: Doctor): (r: Result<Doctor, Error>)
    ensures r.Ok? <==> ValidDoctor(x) && forall d :: d in ds ==> d.email != x.email
    ensures r.Ok? ==> r.value == x.(id := next)
  {
    if !ValidDoctor(x) then Err(ConstraintViolation)
    else if ExistsByEmail(ds, x.email) then Err(UniqueViolation)
    else Ok(x.(id := next))
  }

  lemma SaveExistingKeepsIntegrity(ds: seq<Doctor>, next: nat, k: nat, x: Doctor)
    requires DoctorsOk(ds, next) && k < |ds| && x.id == ds[k].id
    requires SaveExisting(ds, k, x).Ok?
    ensures DoctorsOk(ds[k := x], next)
    ensures forall i :: HasKey(ds, DoctorId, i) ==> HasKey(ds[k := x], DoctorId, i)
  {
    UniqueByUpdate(ds, DoctorId, k, x);
    UniqueByUpdate(ds, DoctorEmail, k, x);
    assert ds[k] in ds;
    forall i | HasKey(ds, DoctorId, i) ensures HasKey(ds[k := x], DoctorId, i) {
      HasKeyUpdate(ds, DoctorId, k, x, i);
    }
  }

  lemma SaveNewKeepsIntegrity(ds: seq<Doctor>, next: nat, x: Doctor)
    requires DoctorsOk(ds, next)
    requires SaveNew(ds, next, x).Ok?
    ensures DoctorsOk(ds + [SaveNew(ds, next, x).value], next + 1)
    ensures forall i :: HasKey(ds, DoctorId, i) ==> HasKey(ds + [SaveNew(ds, next, x).value], DoctorId, i)
  {
    var y := SaveNew(ds, next, x).value;
    UniqueByAppend(ds, DoctorId, y);
    UniqueByAppend(ds, DoctorEmail, y);
  }

  /** Position of the stored doctor a `saveDoctor` call with this id overwrites. */
  function ExistingIndex(ds: seq<Doctor>, id: Option<nat>): Option<nat>
  {
    if id.None? then None else IndexOf(ds, DoctorId, id.value)
  }

  /** The password `saveDoctor` stores: a new doctor's is encoded, an
      existing doctor's only when it differs from the stored one; a doctor
      whose id is not stored keeps the given value. */
  function StoredPassword(ds: seq<Doctor>, enc: Encoder, id: Option<nat>, doctor: Doctor): string
  {
    match id
    case None => enc.encode(doctor.sifre)
    case Some(i) =>
      match FindBy(ds, DoctorId, i)
      case Some(e) => if e.sifre != doctor.sifre then enc.encode(doctor.sifre) else doctor.sifre
      case None => doctor.sifre
  }

  /** What the stored password means for login: with a sound encoder a new
      or changed password is accepted by the new hash, and re-saving with the
      stored hash keeps that hash as it is (it is never encoded twice). */
  lemma SaveDoctorPassword(ds: seq<Doctor>, enc: Encoder, id: Option<nat>, doctor: Doctor)
    requires Sound(enc)
    ensures id.None? ==> enc.matches(doctor.sifre, StoredPassword(ds, enc, id, doctor))
    ensures id.Some? && FindBy(ds, DoctorId, id.value).Some? ==>
              var e := FindBy(ds, DoctorId, id.value).value;
              if doctor.sifre == e.sifre then StoredPassword(ds, enc, id, doctor) == e.sifre
              else enc.matches(doctor.sifre, StoredPassword(ds, enc, id, doctor))
  {
  }

  /** `saveDoctor`. The id argument is the entity's id, null for a new doctor. */
  method SaveDoctor(db: Database, enc: Encoder, id: Option<nat>, doctor: Doctor) returns (r: Result<Doctor, Error>)
    requires db.Valid()
    modifies db`doctors, db`nextDoctorId
    ensures db.Valid()
    ensures var pw := StoredPassword(old(db.doctors), enc, id, doctor);
            match ExistingIndex(old(db.doctors), id)
            case Some(k) =>
              var x := doctor.(id := id.value, sifre := pw);
              && db.nextDoctorId == old(db.nextDoctorId)
              && (r.Ok? <==> SaveExisting(old(db.doctors), k, x).Ok?)
              && (r.Ok? ==> r.value == x && db.doctors == old(db.doctors)[k := x])
              && (r.Err? ==> Err(r.error) == SaveExisting(old(db.doctors), k, x) && db.doctors == old(db.doctors))
            case None =>
              && r == SaveNew(old(db.doctors), old(db.nextDoctorId), doctor.(sifre := pw))
              && (r.Ok? ==> db.doctors == old(db.doctors) + [r.value] && db.nextDoctorId == old(db.nextDoctorId) + 1)
              && (r.Err? ==> db.doctors == old(db.doctors) && db.nextDoctorId == old(db.nextDoctorId))
  {
    var pw := StoredPassword(db.doctors, enc, id, doctor);
    var k := ExistingIndex(db.doctors, id);
    if k.Some? {
      var x := doctor.(id := id.value, sifre := pw);
      var t := SaveExisting(db.doctors, k.value, x);
      if t.Err? {
        return Err(t.error);
      }
      SaveExistingKeepsIntegrity(db.doctors, db.nextDoctorId, k.value, x);
      AppointmentsOkDoctorsGrow(db.appointments, db.nextAppointmentId, db.doctors, t.value);
      db.doctors := t.value;
      r := Ok(x);
    } else {
      r := SaveNew(db.doctors, db.nextDoctorId, doctor.(sifre := pw));
      if r.Ok? {
        SaveNewKeepsIntegrity(db.doctors, db.nextDoctorId, doctor.(sifre := pw));
        AppointmentsOkDoctorsGrow(db.appointments, db.nextAppointmentId, db.doctors, db.doctors + [r.value]);
        db.doctors := db.doctors + [r.value];
        db.nextDoctorId := db.nextDoctorId + 1;
      }
    }
  }

  /** The row `updateDoctor` saves: nine profile fields copied from the
      request, and the password replaced (encoded) only when the request
      carries a non-empty one that differs from the stored value. */
  function UpdatedDoctor(e: Doctor, details: Doctor, enc: Encoder): (d: Doctor)
    ensures d.id == e.id
    ensures d.ad == details.ad && d.soyad == details.soyad && d.email == details.email
    ensures d.uzmanlik == details.uzmanlik && d.deneyim == details.deneyim && d.hakkinda == details.hakkinda
    ensures d.calismaSaatleri == details.calismaSaatleri && d.ucret == details.ucret
    ensures d.profileImageUrl == details.profileImageUrl
    ensures d.sifre != e.sifre ==> details.sifre != "" && details.sifre != e.sifre && d.sifre == enc.encode(details.sifre)
  {
    var pw := if details.sifre != "" && e.sifre != details.sifre then enc.encode(details.sifre) else e.sifre;
    e.(ad := details.ad, soyad := details.soyad, email := details.email, uzmanlik := details.uzmanlik,
       deneyim := details.deneyim, hakkinda := details.hakkinda, calismaSaatleri := details.calismaSaatleri,
       ucret := details.ucret, profileImageUrl := details.profileImageUrl, sifre := pw)
  }

  /** An empty password in the request, or the stored hash itself, keeps the
      stored hash; with a sound encoder any other password logs in afterwards. */
  lemma UpdatedDoctorPassword(e: Doctor, details: Doctor, enc: Encoder)
    requires Sound(enc)
    ensures details.sifre == "" || details.sifre == e.sifre ==> UpdatedDoctor(e, details, enc).sifre == e.sifre
    ensures details.sifre != "" && details.sifre != e.sifre ==> enc.matches(details.sifre, UpdatedDoctor(e, details, enc).sifre)
  {
  }

  /** The table after `updateDoctor`. */
  function Updated(ds: seq<Doctor>, enc: Encoder, id: nat, details: Doctor): (r: Result<seq<Doctor>, Error>)
    ensures r.Err? ==> r.error in {DoctorNotFound, ConstraintViolation, UniqueViolation}
    ensures r == Err(DoctorNotFound) <==> forall d :: d in ds ==> d.id != id
  {
    match IndexOf(ds, DoctorId, id)
    case None => Err(DoctorNotFound)
    case Some(k) => SaveExisting(ds, k, UpdatedDoctor(ds[k], details, enc))
  }

  /** `updateDoctor`. */
  method UpdateDoctor(db: Database, enc: Encoder, id: nat, details: Doctor) returns (r: Result<Doctor, Error>)
    requires db.Valid()
    modifies db`doctors
    ensures db.Valid()
    ensures match Updated(old(db.doctors), enc, id, details)
            case Err(e) => r == Err(e) && db.doctors == old(db.doctors)
            case Ok(t) => db.doctors == t && r.Ok? && r.value in t && r.value.id == id
  {
    var t := Updated(db.doctors, enc, id, details);
    if t.Err? {
      return Err(t.error);
    }
    var k := IndexOf(db.doctors, DoctorId, id).value;
    var x := UpdatedDoctor(db.doctors[k], details, enc);
    SaveExistingKeepsIntegrity(db.doctors, db.nextDoctorId, k, x);
    AppointmentsOkDoctorsGrow(db.appointments, db.nextAppointmentId, db.doctors, t.value);
    db.doctors := t.value;
    assert t.value[k] == x;
    r := Ok(x);
  }

  /** Outcome of `changePassword`: `Ok(None)` when it answers false and
      changes nothing, `Ok(Some(t))` when it answers true and the table
      becomes `t`, `Err` when saving fails. */
  function ChangedPassword(ds: seq<Doctor>, enc: Encoder, email: string, oldPassword: string, newPassword: string): (r: Result<Option<seq<Doctor>>, Error>)
    ensures (forall d :: d in ds ==> d.email != email) ==> r == Ok(None)
    ensures FindByEmail(ds, email).Some? && !enc.matches(oldPassword, FindByEmail(ds, email).value.sifre) ==> r == Ok(None)
  {
    match IndexOf(ds, DoctorEmail, email)
    case None => Ok(None)
    case Some(k) =>
      if !enc.matches(oldPassword, ds[k].sifre) then Ok(None)
      else match SaveExisting(ds, k, ds[k].(sifre := enc.encode(newPassword)))
        case Err(e) => Err(e)
        case Ok(t) => Ok(Some(t))
  }

  /** With unique e-mails and non-blank hashes, `changePassword` answers true
      exactly when the doctor exists and the old password matches, and then
      only that doctor's password changes, to the encoded new one. */
  lemma ChangedPasswordExactly(ds: seq<Doctor>, next: nat, enc: Encoder, email: string, oldPassword: string, newPassword: string)
    requires DoctorsOk(ds, next) && NonBlankHashes(enc)
    ensures var r := ChangedPassword(ds, enc, email, oldPassword, newPassword);
            && r.Ok?
            && (r.value.Some? <==> FindByEmail(ds, email).Some? && enc.matches(oldPassword, FindByEmail(ds, email).value.sifre))
            && (r.value.Some? ==>
                  var k := IndexOf(ds, DoctorEmail, email).value;
                  r.value.value == ds[k := ds[k].(sifre := enc.encode(newPassword))])
  {
    var k := IndexOf(ds, DoctorEmail, email);
    if k.Some? {
      var x := ds[k.value].(sifre := enc.encode(newPassword));
      assert ds[k.value] in ds;
      assert ValidDoctor(x);
    }
  }

  /** `changePassword`. */
  method ChangePassword(db: Database, enc: Encoder, email: string, oldPassword: string, newPassword: string) returns (r: Result<bool, Error>)
    requires db.Valid()
    modifies db`doctors
    ensures db.Valid()
    ensures match ChangedPassword(old(db.doctors), enc, email, oldPassword, newPassword)
            case Ok(None) => r == Ok(false) && db.doctors == old(db.doctors)
            case Ok(Some(t)) => r == Ok(true) && db.doctors == t
            case Err(e) => r == Err(e) && db.doctors == old(db.doctors)
  {
    var k := IndexOf(db.doctors, DoctorEmail, email);
    if k.None? {
      return Ok(false);
    }
    if !enc.matches(oldPassword, db.doctors[k.value].sifre) {
      return Ok(false);
    }
    var x := db.doctors[k.value].(sifre := enc.encode(newPassword));
    var t := SaveExisting(db.doctors, k.value, x);
    if t.Err? {
      return Err(t.error);
    }
    SaveExistingKeepsIntegrity(db.doctors, db.nextDoctorId, k.value, x);
    AppointmentsOkDoctorsGrow(db.appointments, db.nextAppointmentId, db.doctors, t.value);
    db.doctors := t.value;
    r := Ok(true);
  }

  /** The table after `resetPassword`. */
  function Reset(ds: seq<Doctor>, enc: Encoder, email: string, newPassword: string): (r: Result<seq<Doctor>, Error>)
    ensures r == Err(DoctorNotFound) <==> forall d :: d in ds ==> d.email != email
  {
    match IndexOf(ds, DoctorEmail, email)
    case None => Err(DoctorNotFound)
    case Some(k) =>
      var t := SaveExisting(ds, k, ds[k].(sifre := enc.encode(newPassword)));
      assert t.Err? ==> t.error != DoctorNotFound;
      t
  }

  /** With non-blank hashes a reset of a stored e-mail succeeds, and with a
      sound encoder the new password then logs in. */
  lemma ResetSucceeds(ds: seq<Doctor>, next: nat, enc: Encoder, email: string, newPassword: string)
    requires DoctorsOk(ds, next) && NonBlankHashes(enc) && Sound(enc)
    requires FindByEmail(ds, email).Some?
    ensures Reset(ds, enc, email, newPassword).Ok?
    ensures var t := Reset(ds, enc, email, newPassword).value;
            FindByEmail(t, email).Some? && enc.matches(newPassword, FindByEmail(t, email).value.sifre)
  {
    var k := IndexOf(ds, DoctorEmail, email).value;
    var x := ds[k].(sifre := enc.encode(newPassword));
    assert ds[k] in ds;
    var t := ds[k := x];
    IndexOfSameKeys(ds, t, DoctorEmail, email);
  }

  /** `resetPassword`. */
  method ResetPassword(db: Database, enc: Encoder, email: string, newPassword: string) returns (r: Result<(), Error>)
    requires db.Valid()
    modifies db`doctors
    ensures db.Valid()
    ensures match Reset(old(db.doctors), enc, email, newPassword)
            case Err(e) => r == Err(e) && db.doctors == old(db.doctors)
            case Ok(t) => r == Ok(()) && db.doctors == t
  {
    var k := IndexOf(db.doctors, DoctorEmail, email);
    if k.None? {
      return Err(DoctorNotFound);
    }
    var x := db.doctors[k.value].(sifre := enc.encode(newPassword));
    var t := SaveExisting(db.doctors, k.value, x);
    if t.Err? {
      return Err(t.error);
    }
    SaveExistingKeepsIntegrity(db.doctors, db.nextDoctorId, k.value, x);
    AppointmentsOkDoctorsGrow(db.appointments, db.nextAppointmentId, db.doctors, t.value);
    db.doctors := t.value;
    r := Ok(());
  }

  /** `existsByEmail`. */
  function ExistsDoctorWithEmail(ds: seq<Doctor>, email: string): (b: bool)
    ensures b <==> exists d :: d in ds && d.email == email
  {
    ExistsByEmail(ds, email)
  }

  function NotOfDoctor(doctorId: nat): Appointment -> bool
  {
    (a: Appointment) => a.doctorId != doctorId
  }

  function NotBilledToDoctor(apps: seq<Appointment>, doctorId: nat): Invoice -> bool
  {
    (i: Invoice) => InvoiceRepository.DoctorOf(apps, i) != Some(doctorId)
  }

  /** The three tables after `deleteDoctor`: the doctor row goes, and the
      `appointments` cascade removes the doctor's appointments, whose own
      cascade removes their invoices. */
  function Deleted(ds: seq<Doctor>, apps: seq<Appointment>, invs: seq<Invoice>, id: nat): (r: Result<Clinic, Error>)
    ensures r.Err? <==> forall d :: d in ds ==> d.id != id
    ensures r.Err? ==> r.error == DoctorNotFound
    ensures r.Ok? ==> |r.value.doctors| == |ds| - 1
    ensures r.Ok? ==> forall a :: a in r.value.appointments <==> a in apps && a.doctorId != id
  {
    match IndexOf(ds, DoctorId, id)
    case None => Err(DoctorNotFound)
    case Some(k) =>
      Ok(Clinic(RemoveAt(ds, k), Filter(apps, NotOfDoctor(id)), Filter(invs, NotBilledToDoctor(apps, id))))
  }

  /** Deletion removes exactly the doctor with that id. */
  lemma DeletedRemovesExactlyTheDoctor(ds: seq<Doctor>, apps: seq<Appointment>, invs: seq<Invoice>, id: nat)
    requires UniqueBy(ds, DoctorId)
    ensures Deleted(ds, apps, invs, id).Ok? ==>
              forall d :: d in Deleted(ds, apps, invs, id).value.doctors <==> d in ds && d.id != id
  {
    var k := IndexOf(ds, DoctorId, id);
    if k.Some? {
      RemoveAtKeepsOthers(ds, DoctorId, k.value);
    }
  }

  /** An invoice survives the cascade exactly when its appointment does. */
  lemma KeptInvoice(apps: seq<Appointment>, id: nat, i: Invoice)
    requires UniqueBy(apps, AppointmentId) && HasKey(apps, AppointmentId, i.appointmentId)
    ensures NotBilledToDoctor(apps, id)(i) <==> HasKey(Filter(apps, NotOfDoctor(id)), AppointmentId, i.appointmentId)
  {
    var a := FindBy(apps, AppointmentId, i.appointmentId).value;
    var kept := Filter(apps, NotOfDoctor(id));
    if HasKey(kept, AppointmentId, i.appointmentId) {
      var b :| b in kept && b.id == i.appointmentId;
      UniqueByIdentifies(apps, AppointmentId, a, b);
    }
    if NotBilledToDoctor(apps, id)(i) {
      assert a in kept;
    }
  }

  /** With integrity, the invoices kept are exactly those whose appointment survives. */
  lemma DeletedInvoices(ds: seq<Doctor>, apps: seq<Appointment>, invs: seq<Invoice>, id: nat, na: nat, ni: nat)
    requires AppointmentsOk(apps, na, ds) && InvoicesOk(invs, ni, apps)
    requires Deleted(ds, apps, invs, id).Ok?
    ensures var c := Deleted(ds, apps, invs, id).value;
            forall i :: i in c.invoices <==> i in invs && HasKey(c.appointments, AppointmentId, i.appointmentId)
  {
    forall i | i in invs
      ensures NotBilledToDoctor(apps, id)(i) <==> HasKey(Filter(apps, NotOfDoctor(id)), AppointmentId, i.appointmentId)
    {
      KeptInvoice(apps, id, i);
    }
  }

  lemma DeletedKeepsIntegrity(ds: seq<Doctor>, apps: seq<Appointment>, invs: seq<Invoice>, id: nat, nd: nat, na: nat, ni: nat, c: Clinic)
    requires DoctorsOk(ds, nd) && AppointmentsOk(apps, na, ds) && InvoicesOk(invs, ni, apps)
    requires Deleted(ds, apps, invs, id) == Ok(c)
    ensures ClinicOk(c, nd, na, ni)
  {
    var k := IndexOf(ds, DoctorId, id).value;
    UniqueByRemove(ds, DoctorId, k);
    UniqueByRemove(ds, DoctorEmail, k);
    RemoveAtKeepsOthers(ds, DoctorId, k);
    UniqueByFilter(apps, AppointmentId, NotOfDoctor(id));
    forall a | a in c.appointments ensures HasKey(c.doctors, DoctorId, a.doctorId) {
      var d :| d in ds && d.id == a.doctorId;
      assert d in c.doctors;
    }
    UniqueByFilter(invs, InvoiceId, NotBilledToDoctor(apps, id));
    UniqueByFilter(invs, InvoiceAppointment, NotBilledToDoctor(apps, id));
    DeletedInvoices(ds, apps, invs, id, na, ni);
  }

  /** `deleteDoctor`. */
  method DeleteDoctor(db: Database, id: nat) returns (r: Result<(), Error>)
    requires db.Valid()
    modifies db`doctors, db`appointments, db`invoices
    ensures db.Valid()
    ensures match Deleted(old(db.doctors), old(db.appointments), old(db.invoices), id)
            case Err(e) => r == Err(e) && db.doctors == old(db.doctors) && db.appointments == old(db.appointments) && db.invoices == old(db.invoices)
            case Ok(c) => r == Ok(()) && db.doctors == c.doctors && db.appointments == c.appointments && db.invoices == c.invoices
  {
    var c := Deleted(db.doctors, db.appointments, db.invoices, id);
    if c.Err? {
      return Err(c.error);
    }
    var v := c.value;
    DeletedKeepsIntegrity(db.doctors, db.appointments, db.invoices, id, db.nextDoctorId, db.nextAppointmentId, db.nextInvoiceId, v);
    db.doctors := v.doctors;
    db.appointments := v.appointments;
    db.invoices := v.invoices;
    assert Clinic(db.doctors, db.appointments, db.invoices) == v;
    r := Ok(());
  }
}
