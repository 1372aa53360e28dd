/** The `Appointment` entity: its fields, its status enumeration, the
    constraints its annotations declare, and the request body it is bound from. */
module AppointmentModel {
  import opened Common

  datatype AppointmentStatus = Beklemede | Onaylandi | Tamamlandi | IptalEdildi

  /** A stored appointment. The doctor link is the referenced doctor's id. */
  datatype Appointment = Appointment(
    id: nat,
    hastaAd: string,
    hastaSoyad: string,
    tc: string,
    telefon: string,
    doctorId: nat,
    tarih: Date,
    saat: Time,
    bolum: string,
    status: AppointmentStatus)

  /** The constraints on the non-null fields of a stored appointment. */
  predicate ValidAppointment(a: Appointment)
  {
    && NotBlank(a.hastaAd)
    && NotBlank(a.hastaSoyad)
    && NotBlank(a.tc) && DigitsBetween(a.tc, 11, 11)
    && NotBlank(a.telefon) && DigitsBetween(a.telefon, 10, 11)
    && NotBlank(a.bolum)
  }

  /** `getHastaFullName`. */
  function HastaFullName(a: Appointment): (r: string)
    ensures |r| == |a.hastaAd| + 1 + |a.hastaSoyad|
  {
    JoinName(a.hastaAd, a.hastaSoyad)
  }

  function AppointmentId(a: Appointment): nat { a.id }

  /** The `doctor` member of a request body: absent, an object without an
      `id`, or an object naming a doctor by id. */
  datatype DoctorRef = NoDoctor | DoctorWithoutId | DoctorWithId(id: nat)

  /** A request body as bound from JSON: the id and the reference fields may
      be absent, and an absent status keeps the field initialiser. */
  datatype AppointmentForm = AppointmentForm(
    id: Option<nat>,
    hastaAd: string,
    hastaSoyad: string,
    tc: string,
    telefon: string,
    doctor: DoctorRef,
    tarih: Option<Date>,
    saat: Option<Time>,
    bolum: string,
    status: Option<AppointmentStatus>)

  /** One failed constraint of a request body. */
  datatype Violation =
    | HastaAdBlank | HastaSoyadBlank | TcBlank | TcPattern | TelefonBlank | TelefonPattern
    | DoctorMissing | TarihMissing | SaatMissing | BolumBlank

  /** The message each annotation declares. */
  function Message(v: Violation): string
  {
    match v
    case HastaAdBlank => "Hasta adı boş olamaz"
    case HastaSoyadBlank => "Hasta soyadı boş olamaz"
    case TcBlank => "TC kimlik numarası boş olamaz"
    case TcPattern => "TC kimlik numarası 11 haneli olmalı"
    case TelefonBlank => "Telefon numarası boş olamaz"
    case TelefonPattern => "Geçersiz telefon numarası"
    case DoctorMissing => "Doktor seçilmeli"
    case TarihMissing => "Tarih seçilmeli"
    case SaatMissing => "Saat seçilmeli"
    case BolumBlank => "Bölüm boş olamaz"
  }

  /** Whether the constraint behind `v` fails for the request body. */
  predicate Fails(f: AppointmentForm, v: Violation)
  {
    match v
    case HastaAdBlank => !NotBlank(f.hastaAd)
    case HastaSoyadBlank => !NotBlank(f.hastaSoyad)
    case TcBlank => !NotBlank(f.tc)
    case TcPattern => !DigitsBetween(f.tc, 11, 11)
    case TelefonBlank => !NotBlank(f.telefon)
    case TelefonPattern => !DigitsBetween(f.telefon, 10, 11)
    case DoctorMissing => f.doctor.NoDoctor?
    case TarihMissing => f.tarih.None?
    case SaatMissing => f.saat.None?
    case BolumBlank => !NotBlank(f.bolum)
  }

  /** The constraints Bean Validation reports as failed for a request body. */
  function Violations(f: AppointmentForm): (vs: set<Violation>)
    ensures DoctorMissing in vs <==> f.doctor.NoDoctor?
    ensures TarihMissing in vs <==> f.tarih.None?
    ensures SaatMissing in vs <==> f.saat.None?
    ensures TcPattern in vs <==> !(|f.tc| == 11 && AllDigits(f.tc))
    ensures TelefonPattern in vs <==> !(10 <= |f.telefon| <= 11 && AllDigits(f.telefon))
  {
    set v: Violation | Fails(f, v)
  }

  /** A body without a doctor is answered with the message "Doktor seçilmeli". */
  lemma MissingDoctorMessage(f: AppointmentForm)
    requires f.doctor.NoDoctor?
    ensures exists v :: v in Violations(f) && Message(v) == "Doktor seçilmeli"
  {
    assert DoctorMissing in Violations(f);
  }

  /** The entity a request body with no violations binds to, its id left
      to `save`. `@NotNull` accepts a doctor object without an id, but the
      service's lookup `findById(null)` cannot take it: no entity results. */
  function Bind(f: AppointmentForm): (r: Option<Appointment>)
    requires Violations(f) == {}
    ensures r.None? <==> f.doctor.DoctorWithoutId?
    ensures r.Some? ==> var a := r.value;
      && ValidAppointment(a)
      && a.status == (if f.status.Some? then f.status.value else Beklemede)
      && a.doctorId == f.doctor.id && a.tarih == f.tarih.value && a.saat == f.saat.value
      && a.hastaAd == f.hastaAd && a.hastaSoyad == f.hastaSoyad && a.tc == f.tc
      && a.telefon == f.telefon && a.bolum == f.bolum
  {
    assert HastaAdBlank !in Violations(f) && HastaSoyadBlank !in Violations(f);
    assert TcBlank !in Violations(f) && TelefonBlank !in Violations(f) && BolumBlank !in Violations(f);
    match f.doctor
    case DoctorWithoutId => None
    case DoctorWithId(d) =>
      Some(Appointment(0, f.hastaAd, f.hastaSoyad, f.tc, f.telefon, d,
                       f.tarih.value, f.saat.value, f.bolum,
                       if f.status.Some? then f.status.value else Beklemede))
  }

  /** A doctor object without an id passes validation: it is not reported
      as a missing doctor, and with the other fields valid the body has no
      violations at all, yet it binds to no appointment. */
  lemma DoctorWithoutIdPassesValidation(f: AppointmentForm)
    requires f.doctor == DoctorWithoutId
    ensures DoctorMissing !in Violations(f)
    ensures f.tarih.Some? && f.saat.Some? &&
            ValidAppointment(Appointment(0, f.hastaAd, f.hastaSoyad, f.tc, f.telefon, 0, 0, 0, f.bolum, Beklemede))
            ==> Violations(f) == {} && Bind(f).None?
  {
    NoViolationsIffValid(f);
  }

  /** A body passes validation exactly when all three references are present
      and the bound field values satisfy the entity constraints. */
  lemma NoViolationsIffValid(f: AppointmentForm)
    ensures Violations(f) == {} <==>
      !f.doctor.NoDoctor? && f.tarih.Some? && f.saat.Some? &&
      ValidAppointment(Appointment(0, f.hastaAd, f.hastaSoyad, f.tc, f.telefon, 0, 0, 0, f.bolum, Beklemede))
  {
    if !NotBlank(f.hastaAd) { assert HastaAdBlank in Violations(f); }
    if !NotBlank(f.hastaSoyad) { assert HastaSoyadBlank in Violations(f); }
    if !NotBlank(f.tc) { assert TcBlank in Violations(f); }
    if !NotBlank(f.telefon) { assert TelefonBlank in Violations(f); }
    if !NotBlank(f.bolum) { assert BolumBlank in Violations(f); }
  }

  /** An 11-character all-digit `tc` is valid, and any other length is not. */
  lemma TcExactlyElevenDigits(tc: string)
    ensures (NotBlank(tc) && DigitsBetween(tc, 11, 11)) <==> (|tc| == 11 && AllDigits(tc))
  {
    if |tc| == 11 && AllDigits(tc) {
      assert !IsWhitespace(tc[0]);
    }
  }
}
