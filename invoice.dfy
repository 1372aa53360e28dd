/** The `Invoice` entity: one invoice per appointment, a positive amount,
    and a three-valued status that starts as pending. */
module InvoiceModel {
  import opened Common

  datatype InvoiceStatus = Beklemede | Odendi | IptalEdildi

  /** A stored invoice. The appointment link is the linked appointment's id;
      `tutar` is in minor units. */
  datatype Invoice = Invoice(
    id: nat,
    appointmentId: nat,
    tutar: Money,
    aciklama: string,
    tarih: DateTime,
    status: InvoiceStatus)

  /** `@DecimalMin(value = "0.0", inclusive = false)` on `tutar`. */
  predicate ValidInvoice(i: Invoice)
  {
    i.tutar > 0
  }

  /** `new Invoice(appointment, tutar, aciklama)` at time `now` (equally, the
      no-argument constructor followed by the three setters): the status keeps
      its initialiser and `tarih` is the creation time. */
  function NewInvoice(appointmentId: nat, tutar: Money, aciklama: string, now: DateTime): Invoice
  {
    Invoice(0, appointmentId, tutar, aciklama, now, Beklemede)
  }

  /** A new invoice is pending, dated at its creation, and valid exactly
      when its amount is positive. */
  lemma NewInvoiceDefaults(appointmentId: nat, tutar: Money, aciklama: string, now: DateTime)
    ensures NewInvoice(appointmentId, tutar, aciklama, now).status == Beklemede
    ensures NewInvoice(appointmentId, tutar, aciklama, now).tarih == now
    ensures ValidInvoice(NewInvoice(appointmentId, tutar, aciklama, now)) <==> tutar > 0
  {
  }

  function InvoiceId(i: Invoice): nat { i.id }
  function InvoiceAppointment(i: Invoice): nat { i.appointmentId }
  function InvoiceAmount(i: Invoice): int { i.tutar }
}
