/** The invoice repository's queries. Conditions on
    `appointment.doctor.id` are joins through the appointment table: an
    invoice belongs to a doctor when its appointment is that doctor's. */
module InvoiceRepository {
  import opened Common
  import opened Tables
  import opened AppointmentModel
  import opened InvoiceModel

  /** The doctor id on the appointment an invoice links to, if that appointment exists. */
  function DoctorOf(apps: seq<Appointment>, i: Invoice): (r: Option<nat>)
    ensures r.Some? ==> exists a :: a in apps && a.id == i.appointmentId && a.doctorId == r.value
    ensures r.None? <==> !HasKey(apps, AppointmentId, i.appointmentId)
  {
    match FindBy(apps, AppointmentId, i.appointmentId)
    case None => None
    case Some(a) => Some(a.doctorId)
  }

  function ForAppointment(appointmentId: nat): Invoice -> bool
  {
    KeyIs(InvoiceAppointment, appointmentId)
  }

  function OfDoctor(apps: seq<Appointment>, doctorId: nat): Invoice -> bool
  {
    (i: Invoice) => DoctorOf(apps, i) == Some(doctorId)
  }

  function InRange(startDate: DateTime, endDate: DateTime): Invoice -> bool
  {
    (i: Invoice) => startDate <= i.tarih <= endDate
  }

  function OfDoctorInRange(apps: seq<Appointment>, doctorId: nat, startDate: DateTime, endDate: DateTime): Invoice -> bool
  {
    (i: Invoice) => DoctorOf(apps, i) == Some(doctorId) && startDate <= i.tarih <= endDate
  }

  function IsPaid(i: Invoice): bool { i.status == Odendi }

  function PaidOfDoctor(apps: seq<Appointment>, doctorId: nat): Invoice -> bool
  {
    (i: Invoice) => DoctorOf(apps, i) == Some(doctorId) && i.status == Odendi
  }

  /** `findByAppointment`. */
  function FindByAppointment(invs: seq<Invoice>, appointmentId: nat): (r: Option<Invoice>)
    ensures r.Some? ==> r.value in invs && r.value.appointmentId == appointmentId
    ensures r.None? <==> forall i :: i in invs ==> i.appointmentId != appointmentId
  {
    FindBy(invs, InvoiceAppointment, appointmentId)
  }

  /** Since `appointment_id` is a unique column, an appointment has at most
      one invoice, and it is the one `findByAppointment` returns. */
  lemma AtMostOneInvoicePerAppointment(invs: seq<Invoice>, appointmentId: nat)
    requires UniqueBy(invs, InvoiceAppointment)
    ensures |Filter(invs, ForAppointment(appointmentId))| <= 1
    ensures FindByAppointment(invs, appointmentId).Some? ==>
              Filter(invs, ForAppointment(appointmentId)) == [FindByAppointment(invs, appointmentId).value]
  {
    FindByUnique(invs, InvoiceAppointment, appointmentId);
  }

  /** `findByAppointmentDoctor_Id`. */
  function FindByAppointmentDoctorId(invs: seq<Invoice>, apps: seq<Appointment>, doctorId: nat): (r: seq<Invoice>)
    ensures forall i :: i in r ==> i in invs && exists a :: a in apps && a.id == i.appointmentId && a.doctorId == doctorId
  {
    Filter(invs, OfDoctor(apps, doctorId))
  }

  /** With unique appointment ids the join is exact: an invoice is listed
      for a doctor exactly when its appointment is that doctor's. */
  lemma FindByAppointmentDoctorIdExact(invs: seq<Invoice>, apps: seq<Appointment>, doctorId: nat, i: Invoice)
    requires UniqueBy(apps, AppointmentId)
    ensures i in FindByAppointmentDoctorId(invs, apps, doctorId) <==>
              i in invs && exists a :: a in apps && a.id == i.appointmentId && a.doctorId == doctorId
  {
    if i in invs && exists a :: a in apps && a.id == i.appointmentId && a.doctorId == doctorId {
      var a :| a in apps && a.id == i.appointmentId && a.doctorId == doctorId;
      var k :| 0 <= k < |apps| && apps[k] == a;
      FindByUniqueAt(apps, AppointmentId, k);
    }
  }

  /** `findByTarihBetween` on invoices: both ends included. */
  function FindByTarihBetween(invs: seq<Invoice>, startDate: DateTime, endDate: DateTime): (r: seq<Invoice>)
    ensures forall i :: i in r <==> i in invs && startDate <= i.tarih <= endDate
  {
    Filter(invs, InRange(startDate, endDate))
  }

  /** `findByDoctorAndTarihBetween` on invoices. */
  function FindByDoctorAndTarihBetween(invs: seq<Invoice>, apps: seq<Appointment>, doctorId: nat, startDate: DateTime, endDate: DateTime): (r: seq<Invoice>)
    ensures forall i :: i in r ==> i in invs && startDate <= i.tarih <= endDate
    ensures forall i :: i in r ==> exists a :: a in apps && a.id == i.appointmentId && a.doctorId == doctorId
  {
    Filter(invs, OfDoctorInRange(apps, doctorId, startDate, endDate))
  }

  /** The doctor-and-range query is the doctor's invoices cut to the range. */
  lemma DoctorRangeIsIntersection(invs: seq<Invoice>, apps: seq<Appointment>, doctorId: nat, startDate: DateTime, endDate: DateTime)
    ensures FindByDoctorAndTarihBetween(invs, apps, doctorId, startDate, endDate)
         == Filter(FindByAppointmentDoctorId(invs, apps, doctorId), InRange(startDate, endDate))
    ensures FindByDoctorAndTarihBetween(invs, apps, doctorId, startDate, endDate)
         == Filter(FindByTarihBetween(invs, startDate, endDate), OfDoctor(apps, doctorId))
  {
    FilterConjunction(invs, OfDoctor(apps, doctorId), InRange(startDate, endDate), OfDoctorInRange(apps, doctorId, startDate, endDate));
    FilterConjunction(invs, InRange(startDate, endDate), OfDoctor(apps, doctorId), OfDoctorInRange(apps, doctorId, startDate, endDate));
  }

  /** `SUM(tutar)` over the rows `p` selects; SQL gives NULL when no row is selected. */
  function SumOrNull(invs: seq<Invoice>, p: Invoice -> bool): (r: Option<Money>)
    ensures r.None? <==> forall i :: i in invs ==> !p(i)
    ensures r.Some? ==> r.value == Sum(Filter(invs, p), InvoiceAmount)
  {
    var rows := Filter(invs, p);
    if rows == [] then
      assert forall i :: i in invs ==> !p(i);
      None
    else
      assert rows[0] in invs && p(rows[0]);
      Some(Sum(rows, InvoiceAmount))
  }

  /** `getTotalPaidAmount`. */
  function GetTotalPaidAmount(invs: seq<Invoice>): (r: Option<Money>)
    ensures r.None? <==> forall i :: i in invs ==> i.status != Odendi
  {
    SumOrNull(invs, IsPaid)
  }

  /** `getTotalPaidAmountByDoctor`. */
  function GetTotalPaidAmountByDoctor(invs: seq<Invoice>, apps: seq<Appointment>, doctorId: nat): (r: Option<Money>)
    ensures r.None? <==> forall i :: i in invs ==> DoctorOf(apps, i) != Some(doctorId) || i.status != Odendi
  {
    SumOrNull(invs, PaidOfDoctor(apps, doctorId))
  }

  /** With positive amounts the paid total, when present, is positive. */
  lemma TotalPaidPositive(invs: seq<Invoice>)
    requires forall i :: i in invs ==> ValidInvoice(i)
    ensures GetTotalPaidAmount(invs).Some? ==> GetTotalPaidAmount(invs).value > 0
  {
    var rows := Filter(invs, IsPaid);
    if rows != [] {
      SumPositive(rows, InvoiceAmount);
    }
  }

  /** One doctor's paid total never exceeds the whole paid total: a doctor
      with paid invoices implies paid invoices, and amounts are positive. */
  lemma DoctorTotalAtMostTotal(invs: seq<Invoice>, apps: seq<Appointment>, doctorId: nat)
    requires forall i :: i in invs ==> ValidInvoice(i)
    ensures GetTotalPaidAmountByDoctor(invs, apps, doctorId).Some? ==>
              GetTotalPaidAmount(invs).Some? &&
              GetTotalPaidAmountByDoctor(invs, apps, doctorId).value <= GetTotalPaidAmount(invs).value
  {
    if GetTotalPaidAmountByDoctor(invs, apps, doctorId).Some? {
      var i :| i in invs && PaidOfDoctor(apps, doctorId)(i);
      assert IsPaid(i);
      SumFilterMonotone(invs, IsPaid, PaidOfDoctor(apps, doctorId), InvoiceAmount);
    }
  }
}
