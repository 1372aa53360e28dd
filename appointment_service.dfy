/** The appointment service: the doctor-scoped queries, conflict detection,
    the free-slot grid, and the booking, update and delete operations. */
module AppointmentService {
  import opened Common
  import opened Tables
  import opened AppointmentModel
  import opened InvoiceModel
  import opened DoctorModel
  import opened Store
  import opened AppointmentRepository
  import opened WorkingHours
  import InvoiceService
  import InvoiceRepository

  /** `getAppointmentsByDoctor`: refused for an unknown doctor. */
  function GetAppointmentsByDoctor(ds: seq<Doctor>, apps: seq<Appointment>, doctorId: nat): (r: Result<seq<Appointment>, Error>)
    ensures r.Err? <==> forall d :: d in ds ==> d.id != doctorId
    ensures r.Err? ==> r.error == DoctorNotFound
    ensures r.Ok? ==> forall a :: a in r.value <==> a in apps && a.doctorId == doctorId
  {
    if FindBy(ds, DoctorId, doctorId).None? then Err(DoctorNotFound)
    else Ok(FindByDoctor(apps, doctorId))
  }

  /** `getDoctorAppointmentsByDateRange`: refused for an unknown doctor. */
  function GetDoctorAppointmentsByDateRange(ds: seq<Doctor>, apps: seq<Appointment>, doctorId: nat, startDate: Date, endDate: Date): (r: Result<seq<Appointment>, Error>)
    ensures r.Err? <==> forall d :: d in ds ==> d.id != doctorId
    ensures r.Err? ==> r.error == DoctorNotFound
    ensures r.Ok? ==> forall a :: a in r.value <==> a in apps && a.doctorId == doctorId && startDate <= a.tarih <= endDate
  {
    if FindBy(ds, DoctorId, doctorId).None? then Err(DoctorNotFound)
    else Ok(FindByDoctorAndTarihBetween(apps, doctorId, startDate, endDate))
  }

  /** `hasConflict`: some appointment, whatever its status, holds the slot. */
  function HasConflict(apps: seq<Appointment>, doctorId: nat, tarih: Date, saat: Time): (b: bool)
    ensures b <==> exists a :: a in apps && a.doctorId == doctorId && a.tarih == tarih && a.saat == saat
  {
    var found := FindByDoctorAndTarihAndSaat(apps, doctorId, tarih, saat);
    assert found != [] ==> found[0] in found;
    found != []
  }

  /** No two appointments of a doctor share a date and time. The schema does
      not enforce this; the service's conflict checks keep it. */
  ghost predicate NoDoubleBooking(apps: seq<Appointment>)
  {
    forall i, j :: 0 <= i < j < |apps| ==>
      !(apps[i].doctorId == apps[j].doctorId && apps[i].tarih == apps[j].tarih && apps[i].saat == apps[j].saat)
  }

  /** The fixed grid of bookable times: 09:00 to 11:30 and 14:00 to 16:30, every half hour. */
  const Slots: seq<Time> := [540, 570, 600, 630, 660, 690, 840, 870, 900, 930, 960, 990]

  ghost predicate StrictlyIncreasing(s: seq<Time>)
  {
    forall i, j :: 0 <= i < j < |s| ==> s[i] < s[j]
  }

  lemma {:induction false} FilterKeepsIncreasing(s: seq<Time>, p: Time -> bool)
    requires StrictlyIncreasing(s)
    ensures StrictlyIncreasing(Filter(s, p))
  {
    if s != [] {
      FilterKeepsIncreasing(s[1..], p);
      var rest := Filter(s[1..], p);
      forall t | t in rest ensures s[0] < t {
        var j :| 0 <= j < |s[1..]| && s[1..][j] == t;
        assert s[0] < s[j + 1];
      }
    }
  }

  function SlotIsFree(existing: seq<Appointment>, hours: Option<string>): Time -> bool
  {
    (t: Time) => (forall a :: a in existing ==> a.saat != t) && IsWithinWorkingHours(hours, t)
  }

  lemma SlotsIncreasing()
    ensures StrictlyIncreasing(Slots)
  {
  }

  /** A grid time is free when no appointment of the doctor that day holds it. */
  lemma SlotIsFreeMeans(apps: seq<Appointment>, doctorId: nat, date: Date, hours: Option<string>)
    ensures forall t :: SlotIsFree(FindByTarihAndDoctor(apps, date, doctorId), hours)(t) <==>
              !HasConflict(apps, doctorId, date, t) && IsWithinWorkingHours(hours, t)
  {
  }

  /** `getAvailableTimeSlots`: the grid times, in order, that no appointment
      of the doctor on that date holds and that lie in the working hours. */
  function GetAvailableTimeSlots(ds: seq<Doctor>, apps: seq<Appointment>, doctorId: nat, date: Date): (r: Result<seq<Time>, Error>)
    ensures r.Err? <==> forall d :: d in ds ==> d.id != doctorId
    ensures r.Err? ==> r.error == DoctorNotFound
    ensures r.Ok? ==> Subseq(r.value, Slots) && StrictlyIncreasing(r.value)
    ensures r.Ok? ==> forall t :: t in r.value <==>
              t in Slots && !HasConflict(apps, doctorId, date, t)
              && IsWithinWorkingHours(FindBy(ds, DoctorId, doctorId).value.calismaSaatleri, t)
  {
    match FindBy(ds, DoctorId, doctorId)
    case None => Err(DoctorNotFound)
    case Some(d) =>
      var existing := FindByTarihAndDoctor(apps, date, doctorId);
      FilterIsSubseq(Slots, SlotIsFree(existing, d.calismaSaatleri));
      SlotsIncreasing();
      FilterKeepsIncreasing(Slots, SlotIsFree(existing, d.calismaSaatleri));
      SlotIsFreeMeans(apps, doctorId, date, d.calismaSaatleri);
      Ok(Filter(Slots, SlotIsFree(existing, d.calismaSaatleri)))
  }

  /** A booking: the saved appointment and the invoice created for it. */
  datatype Booking = Booking(appointment: Appointment, invoice: Invoice)

  /** The invoice `createAppointment` raises: priced at the doctor's fee and
      described by the specialty and the doctor's full name. */
  function InvoiceFor(d: Doctor, appointmentId: nat, now: DateTime): (i: Invoice)
    ensures i.appointmentId == appointmentId && i.tutar == d.ucret && i.tarih == now
    ensures i.aciklama == d.uzmanlik + " muayenesi - " + d.ad + " " + d.soyad
    ensures i.status == InvoiceStatus.Beklemede
  {
    NewInvoice(appointmentId, d.ucret, d.uzmanlik + " muayenesi - " + FullName(d), now)
  }

  /** `createAppointment`, as one transaction: the doctor must exist, the
      slot be free and inside the working hours, and the appointment valid;
      then the appointment is saved and its invoice created. `save` merges a
      body carrying a stored id over that appointment, and gives a null or
      unknown id the next identity. */
  function Booked(ds: seq<Doctor>, apps: seq<Appointment>, invs: seq<Invoice>, nextA: nat, nextI: nat, id: Option<nat>, a: Appointment, now: DateTime): (r: Result<Booking, Error>)
    ensures r == Err(DoctorNotFound) <==> forall d :: d in ds ==> d.id != a.doctorId
    ensures HasKey(ds, DoctorId, a.doctorId) && HasConflict(apps, a.doctorId, a.tarih, a.saat) ==> r == Err(SlotTaken)
    ensures (HasKey(ds, DoctorId, a.doctorId) && !HasConflict(apps, a.doctorId, a.tarih, a.saat)
             && !IsWithinWorkingHours(FindBy(ds, DoctorId, a.doctorId).value.calismaSaatleri, a.saat)) ==> r == Err(OutsideWorkingHours)
    ensures r.Ok? ==> r.value.appointment == a.(id := SavedId(apps, AppointmentId, nextA, id))
    ensures r.Ok? ==> r.value.invoice == InvoiceFor(FindBy(ds, DoctorId, a.doctorId).value, r.value.appointment.id, now).(id := nextI)
  {
    match FindBy(ds, DoctorId, a.doctorId)
    case None => Err(DoctorNotFound)
    case Some(d) =>
      if HasConflict(apps, d.id, a.tarih, a.saat) then Err(SlotTaken)
      else if !IsWithinWorkingHours(d.calismaSaatleri, a.saat) then Err(OutsideWorkingHours)
      else if !ValidAppointment(a) then Err(ConstraintViolation)
      else
        var saved := a.(id := SavedId(apps, AppointmentId, nextA, id));
        match InvoiceService.SaveNew(invs, Upsert(apps, AppointmentId, saved), nextI, InvoiceFor(d, saved.id, now))
        case Err(e) => Err(e)
        case Ok(inv) => Ok(Booking(saved, inv))
  }

  /** On a consistent database a booking succeeds exactly when the doctor
      exists, the slot is free and inside the working hours, the appointment
      satisfies its constraints, and the saved appointment has no invoice yet. */
  lemma BookedExactly(ds: seq<Doctor>, apps: seq<Appointment>, invs: seq<Invoice>, nd: nat, nextA: nat, nextI: nat, id: Option<nat>, a: Appointment, now: DateTime)
    requires ClinicOk(Clinic(ds, apps, invs), nd, nextA, nextI)
    ensures Booked(ds, apps, invs, nextA, nextI, id, a, now).Ok? <==>
              && HasKey(ds, DoctorId, a.doctorId)
              && !HasConflict(apps, a.doctorId, a.tarih, a.saat)
              && IsWithinWorkingHours(FindBy(ds, DoctorId, a.doctorId).value.calismaSaatleri, a.saat)
              && ValidAppointment(a)
              && forall i :: i in invs ==> i.appointmentId != SavedId(apps, AppointmentId, nextA, id)
  {
    var d := FindBy(ds, DoctorId, a.doctorId);
    if d.Some? && ValidAppointment(a) {
      var saved := a.(id := SavedId(apps, AppointmentId, nextA, id));
      assert ValidInvoice(InvoiceFor(d.value, saved.id, now));
      assert saved in Upsert(apps, AppointmentId, saved);
    }
  }

  /** A booking whose body carries no stored id is saved under an identity no invoice names. */
  lemma FreshBookingUninvoiced(ds: seq<Doctor>, apps: seq<Appointment>, invs: seq<Invoice>, nd: nat, nextA: nat, nextI: nat, id: Option<nat>)
    requires ClinicOk(Clinic(ds, apps, invs), nd, nextA, nextI)
    requires !(id.Some? && HasKey(apps, AppointmentId, id.value))
    ensures forall i :: i in invs ==> i.appointmentId != SavedId(apps, AppointmentId, nextA, id)
  {
    forall i | i in invs ensures i.appointmentId != nextA {
      var b :| b in apps && b.id == i.appointmentId;
    }
  }

  /** A body carrying the id of an invoiced appointment passes every check
      of the service, but its invoice breaks the unique appointment column,
      so the whole transaction is refused. */
  lemma BookedOverInvoicedFails(ds: seq<Doctor>, apps: seq<Appointment>, invs: seq<Invoice>, nd: nat, nextA: nat, nextI: nat, k: nat, a: Appointment, now: DateTime)
    requires ClinicOk(Clinic(ds, apps, invs), nd, nextA, nextI)
    requires HasKey(ds, DoctorId, a.doctorId) && !HasConflict(apps, a.doctorId, a.tarih, a.saat)
    requires IsWithinWorkingHours(FindBy(ds, DoctorId, a.doctorId).value.calismaSaatleri, a.saat)
    requires ValidAppointment(a)
    requires exists i :: i in invs && i.appointmentId == k
    ensures Booked(ds, apps, invs, nextA, nextI, Some(k), a, now) == Err(UniqueViolation)
  {
    var i :| i in invs && i.appointmentId == k;
    assert HasKey(apps, AppointmentId, k);
    assert SavedId(apps, AppointmentId, nextA, Some(k)) == k;
    var d := FindBy(ds, DoctorId, a.doctorId).value;
    var saved := a.(id := k);
    var apps' := Upsert(apps, AppointmentId, saved);
    var inv := InvoiceFor(d, k, now);
    assert ValidInvoice(inv);
    assert saved in apps';
    assert FindBy(apps', AppointmentId, k).Some?;
    assert InvoiceRepository.FindByAppointment(invs, k).Some?;
    assert InvoiceService.SaveNew(invs, apps', nextI, inv) == Err(UniqueViolation);
  }

  /** Saving a valid appointment of a stored doctor, appended under the next
      id or merged over the stored row with its id, keeps the database consistent. */
  lemma SavedAppointmentKeepsIntegrity(ds: seq<Doctor>, apps: seq<Appointment>, invs: seq<Invoice>, nd: nat, na: nat, ni: nat, saved: Appointment)
    requires ClinicOk(Clinic(ds, apps, invs), nd, na, ni)
    requires saved.id == na || HasKey(apps, AppointmentId, saved.id)
    requires ValidAppointment(saved) && HasKey(ds, DoctorId, saved.doctorId)
    ensures ClinicOk(Clinic(ds, Upsert(apps, AppointmentId, saved), invs), nd, SavedNext(apps, AppointmentId, na, saved.id), ni)
  {
    var t := Upsert(apps, AppointmentId, saved);
    UniqueByUpsert(apps, AppointmentId, saved);
    if HasKey(apps, AppointmentId, saved.id) {
      var y :| y in apps && y.id == saved.id;
    }
    forall x | HasKey(apps, AppointmentId, x) ensures HasKey(t, AppointmentId, x) {
      HasKeyUpsert(apps, AppointmentId, saved, x);
    }
    InvoicesOkAppointmentsGrow(invs, ni, apps, t);
  }

  /** A successful booking keeps the database consistent. */
  lemma BookedKeepsIntegrity(ds: seq<Doctor>, apps: seq<Appointment>, invs: seq<Invoice>, nd: nat, nextA: nat, nextI: nat, id: Option<nat>, a: Appointment, now: DateTime)
    requires ClinicOk(Clinic(ds, apps, invs), nd, nextA, nextI)
    requires Booked(ds, apps, invs, nextA, nextI, id, a, now).Ok?
    ensures var b := Booked(ds, apps, invs, nextA, nextI, id, a, now).value;
            ClinicOk(Clinic(ds, Upsert(apps, AppointmentId, b.appointment), invs + [b.invoice]),
                     nd, SavedNext(apps, AppointmentId, nextA, b.appointment.id), nextI + 1)
  {
    var d := FindBy(ds, DoctorId, a.doctorId).value;
    var saved := a.(id := SavedId(apps, AppointmentId, nextA, id));
    SavedAppointmentKeepsIntegrity(ds, apps, invs, nd, nextA, nextI, saved);
    InvoiceService.SaveNewKeepsIntegrity(invs, Upsert(apps, AppointmentId, saved), nextI, InvoiceFor(d, saved.id, now));
  }

  /** A booking keeps double bookings out, and after it the slot is taken:
      the same slot cannot be booked a second time, whatever the body's id. */
  lemma BookedFillsSlot(ds: seq<Doctor>, apps: seq<Appointment>, invs: seq<Invoice>, nextA: nat, nextI: nat, id: Option<nat>, a: Appointment, now: DateTime,
                        invs': seq<Invoice>, nextA': nat, nextI': nat, id': Option<nat>)
    requires NoDoubleBooking(apps)
    requires Booked(ds, apps, invs, nextA, nextI, id, a, now).Ok?
    ensures var apps' := Upsert(apps, AppointmentId, Booked(ds, apps, invs, nextA, nextI, id, a, now).value.appointment);
            && NoDoubleBooking(apps')
            && HasConflict(apps', a.doctorId, a.tarih, a.saat)
            && Booked(ds, apps', invs', nextA', nextI', id', a, now) == Err(SlotTaken)
  {
    var saved := a.(id := SavedId(apps, AppointmentId, nextA, id));
    var apps' := Upsert(apps, AppointmentId, saved);
    match IndexOf(apps, AppointmentId, saved.id)
    case None =>
      forall i, j | 0 <= i < j < |apps'|
        ensures !(apps'[i].doctorId == apps'[j].doctorId && apps'[i].tarih == apps'[j].tarih && apps'[i].saat == apps'[j].saat)
      {
        if j == |apps| {
          assert apps'[i] in apps;
        }
      }
    case Some(k) =>
      forall i, j | 0 <= i < j < |apps'|
        ensures !(apps'[i].doctorId == apps'[j].doctorId && apps'[i].tarih == apps'[j].tarih && apps'[i].saat == apps'[j].saat)
      {
        if i == k {
          assert apps'[j] in apps;
        } else if j == k {
          assert apps'[i] in apps;
        }
      }
  }

  /** The last two steps of a booking whose doctor, slot and hours pass. */
  lemma BookedSteps(ds: seq<Doctor>, apps: seq<Appointment>, invs: seq<Invoice>, nextA: nat, nextI: nat, id: Option<nat>, a: Appointment, now: DateTime)
    requires FindBy(ds, DoctorId, a.doctorId).Some?
    requires !HasConflict(apps, a.doctorId, a.tarih, a.saat)
    requires IsWithinWorkingHours(FindBy(ds, DoctorId, a.doctorId).value.calismaSaatleri, a.saat)
    ensures !ValidAppointment(a) ==> Booked(ds, apps, invs, nextA, nextI, id, a, now) == Err(ConstraintViolation)
    ensures ValidAppointment(a) ==>
              var saved := a.(id := SavedId(apps, AppointmentId, nextA, id));
              var inv := InvoiceFor(FindBy(ds, DoctorId, a.doctorId).value, saved.id, now);
              Booked(ds, apps, invs, nextA, nextI, id, a, now) ==
                match InvoiceService.SaveNew(invs, Upsert(apps, AppointmentId, saved), nextI, inv)
                case Err(e) => Err(e)
                case Ok(x) => Ok(Booking(saved, x))
  {
  }

  /** `createAppointment`: each check in turn, then the appointment save and
      the invoice creation; a failed invoice rolls the appointment back. The
      id argument is the id bound from the request body, null when absent. */
  method CreateAppointment(db: Database, id: Option<nat>, a: Appointment, now: DateTime) returns (r: Result<Appointment, Error>)
    requires db.Valid()
    modifies db`appointments, db`nextAppointmentId, db`invoices, db`nextInvoiceId
    ensures db.Valid()
    ensures match Booked(old(db.doctors), old(db.appointments), old(db.invoices), old(db.nextAppointmentId), old(db.nextInvoiceId), id, a, now)
            case Err(e) =>
              && r == Err(e)
              && db.appointments == old(db.appointments) && db.invoices == old(db.invoices)
              && db.nextAppointmentId == old(db.nextAppointmentId) && db.nextInvoiceId == old(db.nextInvoiceId)
            case Ok(b) =>
              && r == Ok(b.appointment)
              && db.appointments == Upsert(old(db.appointments), AppointmentId, b.appointment)
              && db.invoices == old(db.invoices) + [b.invoice]
              && db.nextAppointmentId == SavedNext(old(db.appointments), AppointmentId, old(db.nextAppointmentId), b.appointment.id)
              && db.nextInvoiceId == old(db.nextInvoiceId) + 1
  {
    var d := FindBy(db.doctors, DoctorId, a.doctorId);
    if d.None? {
      r := Err(DoctorNotFound);
    } else if HasConflict(db.appointments, d.value.id, a.tarih, a.saat) {
      r := Err(SlotTaken);
    } else if !IsWithinWorkingHours(d.value.calismaSaatleri, a.saat) {
      r := Err(OutsideWorkingHours);
    } else if !ValidAppointment(a) {
      r := Err(ConstraintViolation);
    } else {
      BookedSteps(db.doctors, db.appointments, db.invoices, db.nextAppointmentId, db.nextInvoiceId, id, a, now);
      var saved := a.(id := SavedId(db.appointments, AppointmentId, db.nextAppointmentId, id));
      r := SaveWithInvoice(db, saved, InvoiceFor(d.value, saved.id, now));
    }
  }

  /** The tail of `createAppointment`: the appointment save, then the invoice
      creation in the same transaction; a failed invoice rolls the save back. */
  method SaveWithInvoice(db: Database, saved: Appointment, invoice: Invoice) returns (r: Result<Appointment, Error>)
    requires db.Valid()
    requires saved.id == db.nextAppointmentId || HasKey(db.appointments, AppointmentId, saved.id)
    requires ValidAppointment(saved) && HasKey(db.doctors, DoctorId, saved.doctorId)
    modifies db`appointments, db`nextAppointmentId, db`invoices, db`nextInvoiceId
    ensures db.Valid()
    ensures match InvoiceService.SaveNew(old(db.invoices), Upsert(old(db.appointments), AppointmentId, saved), old(db.nextInvoiceId), invoice)
            case Err(e) =>
              && r == Err(e)
              && db.appointments == old(db.appointments) && db.invoices == old(db.invoices)
              && db.nextAppointmentId == old(db.nextAppointmentId) && db.nextInvoiceId == old(db.nextInvoiceId)
            case Ok(x) =>
              && r == Ok(saved)
              && db.appointments == Upsert(old(db.appointments), AppointmentId, saved)
              && db.invoices == old(db.invoices) + [x]
              && db.nextAppointmentId == SavedNext(old(db.appointments), AppointmentId, old(db.nextAppointmentId), saved.id)
              && db.nextInvoiceId == old(db.nextInvoiceId) + 1
  {
    var apps0, na0 := db.appointments, db.nextAppointmentId;
    SavedAppointmentKeepsIntegrity(db.doctors, db.appointments, db.invoices, db.nextDoctorId, db.nextAppointmentId, db.nextInvoiceId, saved);
    db.appointments, db.nextAppointmentId := Upsert(apps0, AppointmentId, saved), SavedNext(apps0, AppointmentId, na0, saved.id);
    var inv := InvoiceService.CreateInvoice(db, invoice);
    if inv.Err? {
      db.appointments, db.nextAppointmentId := apps0, na0;
      return Err(inv.error);
    }
    r := Ok(saved);
  }

  /** `POST /appointments/public`: Bean Validation of the body, then
      `createAppointment`, whose `findById` refuses a doctor object without an id. */
  function Submitted(ds: seq<Doctor>, apps: seq<Appointment>, invs: seq<Invoice>, nextA: nat, nextI: nat, f: AppointmentForm, now: DateTime): (r: Result<Booking, Error>)
    ensures Violations(f) != {} ==> r == Err(RequestInvalid(Violations(f)))
    ensures Violations(f) == {} && f.doctor.DoctorWithoutId? ==> r == Err(NullId)
  {
    if Violations(f) != {} then Err(RequestInvalid(Violations(f)))
    else match Bind(f)
      case None => Err(NullId)
      case Some(a) => Booked(ds, apps, invs, nextA, nextI, f.id, a, now)
  }

  /** On a consistent database a posted body books exactly when it passes
      validation, names a stored doctor by id, asks for a free slot inside
      that doctor's hours, and does not carry the id of an invoiced appointment. */
  lemma SubmittedBooksExactly(ds: seq<Doctor>, apps: seq<Appointment>, invs: seq<Invoice>, nd: nat, nextA: nat, nextI: nat, f: AppointmentForm, now: DateTime)
    requires ClinicOk(Clinic(ds, apps, invs), nd, nextA, nextI)
    ensures Submitted(ds, apps, invs, nextA, nextI, f, now).Ok? <==>
              && Violations(f) == {}
              && f.doctor.DoctorWithId?
              && HasKey(ds, DoctorId, f.doctor.id)
              && !HasConflict(apps, f.doctor.id, f.tarih.value, f.saat.value)
              && IsWithinWorkingHours(FindBy(ds, DoctorId, f.doctor.id).value.calismaSaatleri, f.saat.value)
              && forall i :: i in invs ==> i.appointmentId != SavedId(apps, AppointmentId, nextA, f.id)
  {
    if Violations(f) == {} && f.doctor.DoctorWithId? {
      BookedExactly(ds, apps, invs, nd, nextA, nextI, f.id, Bind(f).value, now);
    }
  }

  /** The row `updateAppointment` saves: the eight patient, date, time,
      department and status fields from the request; the id and the doctor
      link stay. */
  function UpdatedAppointment(e: Appointment, details: Appointment): (a: Appointment)
    ensures a == details.(id := e.id, doctorId := e.doctorId)
  {
    e.(hastaAd := details.hastaAd, hastaSoyad := details.hastaSoyad, tc := details.tc,
       telefon := details.telefon, tarih := details.tarih, saat := details.saat,
       bolum := details.bolum, status := details.status)
  }

  /** The table after `updateAppointment`: the conflict check runs only when
      the date or the time changes. */
  function Updated(apps: seq<Appointment>, id: nat, details: Appointment): (r: Result<seq<Appointment>, Error>)
    ensures r == Err(AppointmentNotFound) <==> forall a :: a in apps ==> a.id != id
    ensures r.Ok? ==> exists k :: 0 <= k < |apps| && apps[k].id == id && r.value == apps[k := UpdatedAppointment(apps[k], details)]
  {
    match IndexOf(apps, AppointmentId, id)
    case None => Err(AppointmentNotFound)
    case Some(k) =>
      var e := apps[k];
      if (e.tarih != details.tarih || e.saat != details.saat) && HasConflict(apps, e.doctorId, details.tarih, details.saat) then
        Err(SlotTaken)
      else
        var x := UpdatedAppointment(e, details);
        if !ValidAppointment(x) then Err(ConstraintViolation) else Ok(apps[k := x])
  }

  /** Re-saving an appointment in its own slot never fails with a conflict,
      and moving it into a slot another appointment of the doctor holds always does. */
  lemma UpdatedConflicts(apps: seq<Appointment>, id: nat, details: Appointment)
    requires UniqueBy(apps, AppointmentId)
    ensures forall e :: e in apps && e.id == id ==>
              (e.tarih == details.tarih && e.saat == details.saat ==> Updated(apps, id, details) != Err(SlotTaken))
              && ((e.tarih != details.tarih || e.saat != details.saat) && HasConflict(apps, e.doctorId, details.tarih, details.saat)
                  ==> Updated(apps, id, details) == Err(SlotTaken))
  {
    forall e | e in apps && e.id == id
      ensures IndexOf(apps, AppointmentId, id).Some? && apps[IndexOf(apps, AppointmentId, id).value] == e
    {
      var k := IndexOf(apps, AppointmentId, id);
      var j :| 0 <= j < |apps| && apps[j] == e;
      UniqueByIdentifies(apps, AppointmentId, e, apps[k.value]);
    }
  }

  /** An update keeps double bookings out. */
  lemma UpdatedKeepsNoDoubleBooking(apps: seq<Appointment>, id: nat, details: Appointment)
    requires NoDoubleBooking(apps)
    requires Updated(apps, id, details).Ok?
    ensures NoDoubleBooking(Updated(apps, id, details).value)
  {
    var k := IndexOf(apps, AppointmentId, id).value;
    var e := apps[k];
    var t := Updated(apps, id, details).value;
    forall i, j | 0 <= i < j < |t|
      ensures !(t[i].doctorId == t[j].doctorId && t[i].tarih == t[j].tarih && t[i].saat == t[j].saat)
    {
      if i == k && !(e.tarih != details.tarih || e.saat != details.saat) {
      } else if i == k {
        assert !HasConflict(apps, e.doctorId, details.tarih, details.saat);
        assert apps[j] in apps;
      } else if j == k && (e.tarih != details.tarih || e.saat != details.saat) {
        assert !HasConflict(apps, e.doctorId, details.tarih, details.saat);
        assert apps[i] in apps;
      }
    }
  }

  lemma UpdatedKeepsIntegrity(ds: seq<Doctor>, apps: seq<Appointment>, invs: seq<Invoice>, nd: nat, na: nat, ni: nat, id: nat, details: Appointment)
    requires ClinicOk(Clinic(ds, apps, invs), nd, na, ni)
    requires Updated(apps, id, details).Ok?
    ensures ClinicOk(Clinic(ds, Updated(apps, id, details).value, invs), nd, na, ni)
  {
    var k := IndexOf(apps, AppointmentId, id).value;
    var x := UpdatedAppointment(apps[k], details);
    UniqueByUpdate(apps, AppointmentId, k, x);
    assert apps[k] in apps;
    forall i | HasKey(apps, AppointmentId, i) ensures HasKey(apps[k := x], AppointmentId, i) {
      HasKeyUpdate(apps, AppointmentId, k, x, i);
    }
    InvoicesOkAppointmentsGrow(invs, ni, apps, apps[k := x]);
  }

  /** `updateAppointment`. */
  method UpdateAppointment(db: Database, id: nat, details: Appointment) returns (r: Result<Appointment, Error>)
    requires db.Valid()
    modifies db`appointments
    ensures db.Valid()
    ensures match Updated(old(db.appointments), id, details)
            case Err(e) => r == Err(e) && db.appointments == old(db.appointments)
            case Ok(t) => db.appointments == t && r.Ok? && r.value in t && r.value == details.(id := id, doctorId := r.value.doctorId)
  {
    var t := Updated(db.appointments, id, details);
    if t.Err? {
      return Err(t.error);
    }
    var k := IndexOf(db.appointments, AppointmentId, id).value;
    var x := UpdatedAppointment(db.appointments[k], details);
    UpdatedKeepsIntegrity(db.doctors, db.appointments, db.invoices, db.nextDoctorId, db.nextAppointmentId, db.nextInvoiceId, id, details);
    db.appointments := t.value;
    assert t.value[k] == x;
    r := Ok(x);
  }

  /** The two tables a deleted appointment touches. */
  datatype Bookings = Bookings(appointments: seq<Appointment>, invoices: seq<Invoice>)

  function NotForAppointment(id: nat): Invoice -> bool
  {
    (i: Invoice) => i.appointmentId != id
  }

  /** The tables after `deleteAppointment`: the appointment goes, and with it,
      by the `invoice` cascade, its invoice. */
  function Deleted(apps: seq<Appointment>, invs: seq<Invoice>, id: nat): (r: Result<Bookings, Error>)
    ensures r.Err? <==> forall a :: a in apps ==> a.id != id
    ensures r.Err? ==> r.error == AppointmentNotFound
    ensures r.Ok? ==> |r.value.appointments| == |apps| - 1
    ensures r.Ok? ==> forall i :: i in r.value.invoices <==> i in invs && i.appointmentId != id
  {
    match IndexOf(apps, AppointmentId, id)
    case None => Err(AppointmentNotFound)
    case Some(k) => Ok(Bookings(RemoveAt(apps, k), Filter(invs, NotForAppointment(id))))
  }

  /** Deletion removes exactly the appointment with that id and at most one invoice. */
  lemma DeletedRemovesExactlyOne(apps: seq<Appointment>, invs: seq<Invoice>, id: nat)
    requires UniqueBy(apps, AppointmentId) && UniqueBy(invs, InvoiceAppointment)
    ensures Deleted(apps, invs, id).Ok? ==>
              var b := Deleted(apps, invs, id).value;
              && (forall a :: a in b.appointments <==> a in apps && a.id != id)
              && |invs| - 1 <= |b.invoices| <= |invs|
  {
    var k := IndexOf(apps, AppointmentId, id);
    if k.Some? {
      RemoveAtKeepsOthers(apps, AppointmentId, k.value);
      FindByUnique(invs, InvoiceAppointment, id);
      FilterSplit(invs, KeyIs(InvoiceAppointment, id), NotForAppointment(id));
    }
  }

  lemma DeletedKeepsIntegrity(ds: seq<Doctor>, apps: seq<Appointment>, invs: seq<Invoice>, nd: nat, na: nat, ni: nat, id: nat)
    requires ClinicOk(Clinic(ds, apps, invs), nd, na, ni)
    requires Deleted(apps, invs, id).Ok?
    ensures var b := Deleted(apps, invs, id).value;
            ClinicOk(Clinic(ds, b.appointments, b.invoices), nd, na, ni)
  {
    var k := IndexOf(apps, AppointmentId, id).value;
    var b := Deleted(apps, invs, id).value;
    UniqueByRemove(apps, AppointmentId, k);
    RemoveAtKeepsOthers(apps, AppointmentId, k);
    UniqueByFilter(invs, InvoiceId, NotForAppointment(id));
    UniqueByFilter(invs, InvoiceAppointment, NotForAppointment(id));
    forall i | i in b.invoices ensures HasKey(b.appointments, AppointmentId, i.appointmentId) {
      var a :| a in apps && a.id == i.appointmentId;
    }
  }

  /** `deleteAppointment`. */
  method DeleteAppointment(db: Database, id: nat) returns (r: Result<(), Error>)
    requires db.Valid()
    modifies db`appointments, db`invoices
    ensures db.Valid()
    ensures match Deleted(old(db.appointments), old(db.invoices), id)
            case Err(e) => r == Err(e) && db.appointments == old(db.appointments) && db.invoices == old(db.invoices)
            case Ok(b) => r == Ok(()) && db.appointments == b.appointments && db.invoices == b.invoices
  {
    var b := Deleted(db.appointments, db.invoices, id);
    if b.Err? {
      return Err(b.error);
    }
    DeletedKeepsIntegrity(db.doctors, db.appointments, db.invoices, db.nextDoctorId, db.nextAppointmentId, db.nextInvoiceId, id);
    var v := b.value;
    db.appointments := v.appointments;
    db.invoices := v.invoices;
    assert Clinic(db.doctors, db.appointments, db.invoices) == Clinic(db.doctors, v.appointments, v.invoices);
    r := Ok(());
  }
}
