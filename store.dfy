/** The five tables behind the repositories, with identity counters, and
    the integrity the schema and Bean Validation together maintain: unique
    primary keys, the unique columns, the entity constraints on every stored
    row, and the two foreign keys (appointment to doctor, invoice to
    appointment). */
module Store {
  import opened Common
  import opened Tables
  import opened AppointmentModel
  import opened InvoiceModel
  import opened ReviewModel
  import opened DoctorModel
  import opened AdminModel

  /** The exceptions the services and the persistence layer throw. */
  datatype Error =
    | DoctorNotFound
    | AppointmentNotFound
    | InvoiceNotFound
    | ReviewNotFound
    | AdminNotFound
    | SlotTaken
    | OutsideWorkingHours
    | UsernameTaken
    | UserNotFound
    /** The authentication manager refused the user name and password. */
    | BadCredentials
    /** Bean Validation rejected the entity when it was flushed. */
    | ConstraintViolation
    /** A unique column would hold a value twice. */
    | UniqueViolation
    /** A reference names a row that does not exist. */
    | ForeignKeyViolation
    /** Bean Validation rejected a request body; the reply lists the failed constraints. */
    | RequestInvalid(violations: set<Violation>)
    /** `findById(null)`: the lookup refuses a null identifier. */
    | NullId

  /** The three tables a cascading delete touches. */
  datatype Clinic = Clinic(doctors: seq<Doctor>, appointments: seq<Appointment>, invoices: seq<Invoice>)

  ghost predicate DoctorsOk(ds: seq<Doctor>, next: nat)
  {
    && UniqueBy(ds, DoctorId)
    && UniqueBy(ds, DoctorEmail)
    && forall d :: d in ds ==> d.id < next && ValidDoctor(d)
  }

  ghost predicate AppointmentsOk(apps: seq<Appointment>, next: nat, ds: seq<Doctor>)
  {
    && UniqueBy(apps, AppointmentId)
    && forall a :: a in apps ==> a.id < next && ValidAppointment(a) && HasKey(ds, DoctorId, a.doctorId)
  }

  ghost predicate InvoicesOk(invs: seq<Invoice>, next: nat, apps: seq<Appointment>)
  {
    && UniqueBy(invs, InvoiceId)
    && UniqueBy(invs, InvoiceAppointment)
    && forall i :: i in invs ==> i.id < next && ValidInvoice(i) && HasKey(apps, AppointmentId, i.appointmentId)
  }

  /** Integrity of the three linked tables together. */
  ghost predicate ClinicOk(c: Clinic, nd: nat, na: nat, ni: nat)
  {
    && DoctorsOk(c.doctors, nd)
    && AppointmentsOk(c.appointments, na, c.doctors)
    && InvoicesOk(c.invoices, ni, c.appointments)
  }

  ghost predicate ReviewsOk(rs: seq<Review>, next: nat)
  {
    && UniqueBy(rs, ReviewId)
    && forall r :: r in rs ==> r.id < next && ValidReview(r)
  }

  ghost predicate AdminsOk(admins: seq<Admin>, next: nat)
  {
    && UniqueBy(admins, AdminId)
    && UniqueBy(admins, AdminUsername)
    && forall a :: a in admins ==> a.id < next && ValidAdmin(a)
  }

  /** The database: one sequence per table, in storage order, and the next
      identity value of each table. */
  class Database {
    var doctors: seq<Doctor>
    var appointments: seq<Appointment>
    var invoices: seq<Invoice>
    var reviews: seq<Review>
    var admins: seq<Admin>
    var nextDoctorId: nat
    var nextAppointmentId: nat
    var nextInvoiceId: nat
    var nextReviewId: nat
    var nextAdminId: nat

    ghost predicate Valid()
      reads this
    {
      && ClinicOk(Clinic(doctors, appointments, invoices), nextDoctorId, nextAppointmentId, nextInvoiceId)
      && ReviewsOk(reviews, nextReviewId)
      && AdminsOk(admins, nextAdminId)
    }

    /** An empty schema; identity columns start at 1. */
    constructor ()
      ensures Valid()
      ensures doctors == [] && appointments == [] && invoices == [] && reviews == [] && admins == []
    {
      doctors, appointments, invoices, reviews, admins := [], [], [], [], [];
      nextDoctorId, nextAppointmentId, nextInvoiceId, nextReviewId, nextAdminId := 1, 1, 1, 1, 1;
    }
  }

  /** Appointments keep their doctor reference when no doctor id disappears. */
  lemma AppointmentsOkDoctorsGrow(apps: seq<Appointment>, next: nat, ds: seq<Doctor>, ds': seq<Doctor>)
    requires AppointmentsOk(apps, next, ds)
    requires forall k :: HasKey(ds, DoctorId, k) ==> HasKey(ds', DoctorId, k)
    ensures AppointmentsOk(apps, next, ds')
  {
  }

  /** Invoices keep their appointment reference when no appointment id disappears. */
  lemma InvoicesOkAppointmentsGrow(invs: seq<Invoice>, next: nat, apps: seq<Appointment>, apps': seq<Appointment>)
    requires InvoicesOk(invs, next, apps)
    requires forall k :: HasKey(apps, AppointmentId, k) ==> HasKey(apps', AppointmentId, k)
    ensures InvoicesOk(invs, next, apps')
  {
  }
}
