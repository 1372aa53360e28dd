/** The invoice service: creating an invoice, the field-restricted update,
    deletion, the two status transitions, and the revenue figures. Each
    state change is specified by a function on the invoice table, and the
    method that performs it is proved to produce exactly that table. */
module InvoiceService {
  import opened Common
  import opened Tables
  import opened AppointmentModel
  import opened InvoiceModel
  import opened InvoiceRepository
  import opened Store

  /** What `save` does with a new invoice: the row stored, with its identity,
      or the constraint that rejects it. */
  function SaveNew(invs: seq<Invoice>, apps: seq<Appointment>, next: nat, inv: Invoice): (r: Result<Invoice, Error>)
    ensures r.Ok? <==> ValidInvoice(inv) && HasKey(apps, AppointmentId, inv.appointmentId)
                       && forall i :: i in invs ==> i.appointmentId != inv.appointmentId
    ensures r.Ok? ==> r.value == inv.(id := next)
  {
    if !ValidInvoice(inv) then Err(ConstraintViolation)
    else if FindBy(apps, AppointmentId, inv.appointmentId).None? then Err(ForeignKeyViolation)
    else if FindByAppointment(invs, inv.appointmentId).Some? then Err(UniqueViolation)
    else Ok(inv.(id := next))
  }

  /** Appending the row `SaveNew` accepts keeps the invoice table's integrity. */
  lemma SaveNewKeepsIntegrity(invs: seq<Invoice>, apps: seq<Appointment>, next: nat, inv: Invoice)
    requires InvoicesOk(invs, next, apps)
    requires SaveNew(invs, apps, next, inv).Ok?
    ensures InvoicesOk(invs + [SaveNew(invs, apps, next, inv).value], next + 1, apps)
  {
    var x := SaveNew(invs, apps, next, inv).value;
    UniqueByAppend(invs, InvoiceId, x);
    UniqueByAppend(invs, InvoiceAppointment, x);
  }

  /** `createInvoice`: `save` of a new invoice. */
  method CreateInvoice(db: Database, inv: Invoice) returns (r: Result<Invoice, Error>)
    requires db.Valid()
    modifies db`invoices, db`nextInvoiceId
    ensures db.Valid()
    ensures r == SaveNew(old(db.invoices), old(db.appointments), old(db.nextInvoiceId), inv)
    ensures r.Ok? ==> db.invoices == old(db.invoices) + [r.value] && db.nextInvoiceId == old(db.nextInvoiceId) + 1
    ensures r.Err? ==> db.invoices == old(db.invoices) && db.nextInvoiceId == old(db.nextInvoiceId)
  {
    r := SaveNew(db.invoices, db.appointments, db.nextInvoiceId, inv);
    if r.Ok? {
      SaveNewKeepsIntegrity(db.invoices, db.appointments, db.nextInvoiceId, inv);
      db.invoices := db.invoices + [r.value];
      db.nextInvoiceId := db.nextInvoiceId + 1;
    }
  }

  /** The table after invoice `id` is given status `st` (`markAsPaid`, `markAsCancelled`). */
  function WithStatus(invs: seq<Invoice>, id: nat, st: InvoiceStatus): (r: Result<seq<Invoice>, Error>)
    ensures r.Err? <==> forall i :: i in invs ==> i.id != id
    ensures r.Err? ==> r.error == InvoiceNotFound
  {
    match IndexOf(invs, InvoiceId, id)
    case None => Err(InvoiceNotFound)
    case Some(k) => Ok(invs[k := invs[k].(status := st)])
  }

  /** A status change touches only the status of the one invoice with that id. */
  lemma WithStatusFrame(invs: seq<Invoice>, id: nat, st: InvoiceStatus)
    requires UniqueBy(invs, InvoiceId)
    ensures WithStatus(invs, id, st).Ok? ==>
              var t := WithStatus(invs, id, st).value;
              |t| == |invs| &&
              forall j :: 0 <= j < |t| ==> t[j] == if invs[j].id == id then invs[j].(status := st) else invs[j]
  {
  }

  /** Marking an invoice twice is marking it once. */
  lemma WithStatusIdempotent(invs: seq<Invoice>, id: nat, st: InvoiceStatus)
    ensures WithStatus(invs, id, st).Ok? ==>
              WithStatus(WithStatus(invs, id, st).value, id, st) == WithStatus(invs, id, st)
  {
    var k := IndexOf(invs, InvoiceId, id);
    if k.Some? {
      var t := invs[k.value := invs[k.value].(status := st)];
      IndexOfSameKeys(invs, t, InvoiceId, id);
      assert t[k.value := t[k.value].(status := st)] == t;
    }
  }

  /** A status change keeps the invoice table's integrity. */
  lemma WithStatusKeepsIntegrity(invs: seq<Invoice>, apps: seq<Appointment>, next: nat, id: nat, st: InvoiceStatus)
    requires InvoicesOk(invs, next, apps)
    requires WithStatus(invs, id, st).Ok?
    ensures InvoicesOk(WithStatus(invs, id, st).value, next, apps)
  {
    var k := IndexOf(invs, InvoiceId, id).value;
    var x := invs[k].(status := st);
    UniqueByUpdate(invs, InvoiceId, k, x);
    UniqueByUpdate(invs, InvoiceAppointment, k, x);
    assert invs[k] in invs;
  }

  method SetStatus(db: Database, id: nat, st: InvoiceStatus) returns (r: Result<Invoice, Error>)
    requires db.Valid()
    modifies db`invoices
    ensures db.Valid()
    ensures match WithStatus(old(db.invoices), id, st)
            case Err(e) => r == Err(e) && db.invoices == old(db.invoices)
            case Ok(t) => db.invoices == t && r.Ok? && r.value in t && r.value.id == id && r.value.status == st
  {
    var t := WithStatus(db.invoices, id, st);
    if t.Err? {
      return Err(t.error);
    }
    WithStatusKeepsIntegrity(db.invoices, db.appointments, db.nextInvoiceId, id, st);
    var k := IndexOf(db.invoices, InvoiceId, id).value;
    db.invoices := t.value;
    r := Ok(t.value[k]);
  }

  /** `markAsPaid`. */
  method MarkAsPaid(db: Database, id: nat) returns (r: Result<Invoice, Error>)
    requires db.Valid()
    modifies db`invoices
    ensures db.Valid()
    ensures match WithStatus(old(db.invoices), id, Odendi)
            case Err(e) => r == Err(e) && db.invoices == old(db.invoices)
            case Ok(t) => db.invoices == t && r.Ok? && r.value in t && r.value.id == id && r.value.status == Odendi
  {
    r := SetStatus(db, id, Odendi);
  }

  /** `markAsCancelled`. */
  method MarkAsCancelled(db: Database, id: nat) returns (r: Result<Invoice, Error>)
    requires db.Valid()
    modifies db`invoices
    ensures db.Valid()
    ensures match WithStatus(old(db.invoices), id, InvoiceStatus.IptalEdildi)
            case Err(e) => r == Err(e) && db.invoices == old(db.invoices)
            case Ok(t) => db.invoices == t && r.Ok? && r.value in t && r.value.id == id && r.value.status == InvoiceStatus.IptalEdildi
  {
    r := SetStatus(db, id, InvoiceStatus.IptalEdildi);
  }

  /** The table after `updateInvoice`: amount, description and status are
      copied from the request; the appointment link and the date stay. */
  function Updated(invs: seq<Invoice>, id: nat, details: Invoice): (r: Result<seq<Invoice>, Error>)
    ensures (forall i :: i in invs ==> i.id != id) ==> r == Err(InvoiceNotFound)
    ensures details.tutar <= 0 ==> r.Err?
  {
    match IndexOf(invs, InvoiceId, id)
    case None => Err(InvoiceNotFound)
    case Some(k) =>
      var x := invs[k].(tutar := details.tutar, aciklama := details.aciklama, status := details.status);
      if !ValidInvoice(x) then Err(ConstraintViolation) else Ok(invs[k := x])
  }

  /** An update changes exactly the three copied fields of the one invoice with that id. */
  lemma UpdatedFrame(invs: seq<Invoice>, id: nat, details: Invoice)
    requires UniqueBy(invs, InvoiceId)
    ensures Updated(invs, id, details).Ok? ==>
              var t := Updated(invs, id, details).value;
              |t| == |invs| &&
              forall j :: 0 <= j < |t| ==>
                t[j] == if invs[j].id == id
                        then Invoice(id, invs[j].appointmentId, details.tutar, details.aciklama, invs[j].tarih, details.status)
                        else invs[j]
  {
  }

  lemma UpdatedKeepsIntegrity(invs: seq<Invoice>, apps: seq<Appointment>, next: nat, id: nat, details: Invoice)
    requires InvoicesOk(invs, next, apps)
    requires Updated(invs, id, details).Ok?
    ensures InvoicesOk(Updated(invs, id, details).value, next, apps)
  {
    var k := IndexOf(invs, InvoiceId, id).value;
    var x := invs[k].(tutar := details.tutar, aciklama := details.aciklama, status := details.status);
    UniqueByUpdate(invs, InvoiceId, k, x);
    UniqueByUpdate(invs, InvoiceAppointment, k, x);
    assert invs[k] in invs;
  }

  /** `updateInvoice`. */
  method UpdateInvoice(db: Database, id: nat, details: Invoice) returns (r: Result<Invoice, Error>)
    requires db.Valid()
    modifies db`invoices
    ensures db.Valid()
    ensures match Updated(old(db.invoices), id, details)
            case Err(e) => r == Err(e) && db.invoices == old(db.invoices)
            case Ok(t) => db.invoices == t && r.Ok? && r.value in t && r.value.id == id
  {
    var t := Updated(db.invoices, id, details);
    if t.Err? {
      return Err(t.error);
    }
    UpdatedKeepsIntegrity(db.invoices, db.appointments, db.nextInvoiceId, id, details);
    var k := IndexOf(db.invoices, InvoiceId, id).value;
    db.invoices := t.value;
    r := Ok(t.value[k]);
  }

  /** The table after `deleteInvoice`. */
  function Deleted(invs: seq<Invoice>, id: nat): (r: Result<seq<Invoice>, Error>)
    ensures r.Err? <==> forall i :: i in invs ==> i.id != id
    ensures r.Err? ==> r.error == InvoiceNotFound
    ensures r.Ok? ==> |r.value| == |invs| - 1
  {
    match IndexOf(invs, InvoiceId, id)
    case None => Err(InvoiceNotFound)
    case Some(k) => Ok(RemoveAt(invs, k))
  }

  /** Deletion removes the one invoice with that id and keeps every other one. */
  lemma DeletedRemovesExactlyOne(invs: seq<Invoice>, id: nat)
    requires UniqueBy(invs, InvoiceId)
    ensures Deleted(invs, id).Ok? ==>
              var t := Deleted(invs, id).value;
              (forall i :: i in t ==> i.id != id) &&
              (forall i :: i in invs && i.id != id ==> i in t) &&
              exists x :: x in invs && x.id == id && multiset(t) + multiset{x} == multiset(invs)
  {
    var k := IndexOf(invs, InvoiceId, id);
    if k.Some? {
      var t := RemoveAt(invs, k.value);
      forall i | i in t ensures i.id != id {
        var j :| 0 <= j < |t| && t[j] == i;
        if j < k.value { assert t[j] == invs[j]; } else { assert t[j] == invs[j + 1]; }
      }
      forall i | i in invs && i.id != id ensures i in t {
        var j :| 0 <= j < |invs| && invs[j] == i;
        if j < k.value { assert t[j] == i; } else { assert j > k.value && t[j - 1] == i; }
      }
      assert invs[k.value] in invs;
    }
  }

  lemma DeletedKeepsIntegrity(invs: seq<Invoice>, apps: seq<Appointment>, next: nat, id: nat)
    requires InvoicesOk(invs, next, apps)
    requires Deleted(invs, id).Ok?
    ensures InvoicesOk(Deleted(invs, id).value, next, apps)
  {
    var k := IndexOf(invs, InvoiceId, id).value;
    UniqueByRemove(invs, InvoiceId, k);
    UniqueByRemove(invs, InvoiceAppointment, k);
    var t := RemoveAt(invs, k);
    forall i | i in t ensures i in invs {
      var j :| 0 <= j < |t| && t[j] == i;
      if j < k { assert t[j] == invs[j]; } else { assert t[j] == invs[j + 1]; }
    }
  }

  /** `deleteInvoice`. */
  method DeleteInvoice(db: Database, id: nat) returns (r: Result<(), Error>)
    requires db.Valid()
    modifies db`invoices
    ensures db.Valid()
    ensures match Deleted(old(db.invoices), id)
            case Err(e) => r == Err(e) && db.invoices == old(db.invoices)
            case Ok(t) => r == Ok(()) && db.invoices == t
  {
    var t := Deleted(db.invoices, id);
    if t.Err? {
      return Err(t.error);
    }
    DeletedKeepsIntegrity(db.invoices, db.appointments, db.nextInvoiceId, id);
    db.invoices := t.value;
    r := Ok(());
  }

  /** `getTotalRevenue`: the paid total, with NULL read as zero. */
  function GetTotalRevenue(invs: seq<Invoice>): (r: Money)
    ensures r == Sum(Filter(invs, IsPaid), InvoiceAmount)
    ensures (forall i :: i in invs ==> i.status != Odendi) ==> r == 0
  {
    match GetTotalPaidAmount(invs)
    case None => 0
    case Some(v) => v
  }

  /** `getDoctorRevenue`: one doctor's paid total, with NULL read as zero. */
  function GetDoctorRevenue(invs: seq<Invoice>, apps: seq<Appointment>, doctorId: nat): (r: Money)
    ensures r == Sum(Filter(invs, PaidOfDoctor(apps, doctorId)), InvoiceAmount)
  {
    match GetTotalPaidAmountByDoctor(invs, apps, doctorId)
    case None => 0
    case Some(v) => v
  }

  /** A doctor's revenue is part of the total revenue. */
  lemma DoctorRevenueAtMostTotal(invs: seq<Invoice>, apps: seq<Appointment>, doctorId: nat)
    requires forall i :: i in invs ==> ValidInvoice(i)
    ensures 0 <= GetDoctorRevenue(invs, apps, doctorId) <= GetTotalRevenue(invs)
  {
    SumFilterMonotone(invs, IsPaid, PaidOfDoctor(apps, doctorId), InvoiceAmount);
    DoctorTotalAtMostTotal(invs, apps, doctorId);
    if GetTotalPaidAmountByDoctor(invs, apps, doctorId).Some? {
      var rows := Filter(invs, PaidOfDoctor(apps, doctorId));
      assert rows != [] by { var i :| i in invs && PaidOfDoctor(apps, doctorId)(i); assert i in rows; }
      SumPositive(rows, InvoiceAmount);
    }
  }

  /** Changing invoice `id`'s status moves total revenue by its amount:
      up when it becomes paid, down when it stops being paid. */
  lemma RevenueAfterStatusChange(invs: seq<Invoice>, id: nat, st: InvoiceStatus)
    requires WithStatus(invs, id, st).Ok?
    ensures var k := IndexOf(invs, InvoiceId, id).value;
            var was := invs[k];
            GetTotalRevenue(WithStatus(invs, id, st).value)
              == GetTotalRevenue(invs)
                 - (if was.status == Odendi then was.tutar else 0)
                 + (if st == Odendi then was.tutar else 0)
  {
    var k := IndexOf(invs, InvoiceId, id).value;
    SumFilterUpdate(invs, k, invs[k].(status := st), IsPaid, InvoiceAmount);
  }

  /** Paying a pending invoice raises revenue by exactly its amount. */
  lemma PayingAddsItsAmount(invs: seq<Invoice>, id: nat)
    requires WithStatus(invs, id, Odendi).Ok?
    requires invs[IndexOf(invs, InvoiceId, id).value].status == InvoiceStatus.Beklemede
    ensures GetTotalRevenue(WithStatus(invs, id, Odendi).value)
         == GetTotalRevenue(invs) + invs[IndexOf(invs, InvoiceId, id).value].tutar
  {
    RevenueAfterStatusChange(invs, id, Odendi);
  }
}
