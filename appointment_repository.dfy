/** The derived and JPQL queries of the appointment repository, as filters
    over the appointment table in storage order. */
module AppointmentRepository {
  import opened Common
  import opened Tables
  import opened AppointmentModel

  function OfDoctor(doctorId: nat): Appointment -> bool
  {
    (a: Appointment) => a.doctorId == doctorId
  }

  function OfPatient(tc: string, hastaAd: string, hastaSoyad: string): Appointment -> bool
  {
    (a: Appointment) => a.tc == tc && a.hastaAd == hastaAd && a.hastaSoyad == hastaSoyad
  }

  function OfDoctorOn(doctorId: nat, tarih: Date): Appointment -> bool
  {
    (a: Appointment) => a.doctorId == doctorId && a.tarih == tarih
  }

  function AtSlot(doctorId: nat, tarih: Date, saat: Time): Appointment -> bool
  {
    (a: Appointment) => a.doctorId == doctorId && a.tarih == tarih && a.saat == saat
  }

  function InRange(startDate: Date, endDate: Date): Appointment -> bool
  {
    (a: Appointment) => startDate <= a.tarih <= endDate
  }

  function OfDoctorInRange(doctorId: nat, startDate: Date, endDate: Date): Appointment -> bool
  {
    (a: Appointment) => a.doctorId == doctorId && startDate <= a.tarih <= endDate
  }

  /** `findByDoctor`. */
  function FindByDoctor(apps: seq<Appointment>, doctorId: nat): (r: seq<Appointment>)
    ensures forall a :: a in r <==> a in apps && a.doctorId == doctorId
  {
    Filter(apps, OfDoctor(doctorId))
  }

  /** `findByTcAndHastaAdAndHastaSoyad`: the patient's own appointments. */
  function FindByTcAndHastaAdAndHastaSoyad(apps: seq<Appointment>, tc: string, hastaAd: string, hastaSoyad: string): (r: seq<Appointment>)
    ensures forall a :: a in r <==> a in apps && a.tc == tc && a.hastaAd == hastaAd && a.hastaSoyad == hastaSoyad
  {
    Filter(apps, OfPatient(tc, hastaAd, hastaSoyad))
  }

  /** `findByTarihAndDoctor`. */
  function FindByTarihAndDoctor(apps: seq<Appointment>, tarih: Date, doctorId: nat): (r: seq<Appointment>)
    ensures forall a :: a in r <==> a in apps && a.tarih == tarih && a.doctorId == doctorId
  {
    Filter(apps, OfDoctorOn(doctorId, tarih))
  }

  /** `findByDoctorAndTarihAndSaat`. */
  function FindByDoctorAndTarihAndSaat(apps: seq<Appointment>, doctorId: nat, tarih: Date, saat: Time): (r: seq<Appointment>)
    ensures forall a :: a in r <==> a in apps && a.doctorId == doctorId && a.tarih == tarih && a.saat == saat
  {
    Filter(apps, AtSlot(doctorId, tarih, saat))
  }

  /** `findByTarihBetween`: both end dates are included. */
  function FindByTarihBetween(apps: seq<Appointment>, startDate: Date, endDate: Date): (r: seq<Appointment>)
    ensures forall a :: a in r <==> a in apps && startDate <= a.tarih <= endDate
    ensures startDate > endDate ==> r == []
  {
    var r := Filter(apps, InRange(startDate, endDate));
    if startDate > endDate then
      FilterNone(apps, InRange(startDate, endDate));
      r
    else r
  }

  /** `findByDoctorAndTarihBetween`. */
  function FindByDoctorAndTarihBetween(apps: seq<Appointment>, doctorId: nat, startDate: Date, endDate: Date): (r: seq<Appointment>)
    ensures forall a :: a in r <==> a in apps && a.doctorId == doctorId && startDate <= a.tarih <= endDate
  {
    Filter(apps, OfDoctorInRange(doctorId, startDate, endDate))
  }

  /** `countByDoctorAndTarih`: it agrees with the list query for the same doctor and date. */
  function CountByDoctorAndTarih(apps: seq<Appointment>, doctorId: nat, tarih: Date): (n: nat)
    ensures n == |FindByTarihAndDoctor(apps, tarih, doctorId)|
  {
    CountIsFilterLength(apps, OfDoctorOn(doctorId, tarih));
    Count(apps, OfDoctorOn(doctorId, tarih))
  }

  /** The doctor-and-range query is the doctor's appointments cut to the
      range, and equally the range cut to the doctor, in table order. */
  lemma DoctorRangeIsIntersection(apps: seq<Appointment>, doctorId: nat, startDate: Date, endDate: Date)
    ensures FindByDoctorAndTarihBetween(apps, doctorId, startDate, endDate)
         == Filter(FindByDoctor(apps, doctorId), InRange(startDate, endDate))
    ensures FindByDoctorAndTarihBetween(apps, doctorId, startDate, endDate)
         == Filter(FindByTarihBetween(apps, startDate, endDate), OfDoctor(doctorId))
  {
    FilterConjunction(apps, OfDoctor(doctorId), InRange(startDate, endDate), OfDoctorInRange(doctorId, startDate, endDate));
    FilterConjunction(apps, InRange(startDate, endDate), OfDoctor(doctorId), OfDoctorInRange(doctorId, startDate, endDate));
  }

  /** The slot query keeps table order. */
  lemma SlotQueryKeepsOrder(apps: seq<Appointment>, doctorId: nat, tarih: Date, saat: Time)
    ensures Subseq(FindByDoctorAndTarihAndSaat(apps, doctorId, tarih, saat), apps)
  {
    FilterIsSubseq(apps, AtSlot(doctorId, tarih, saat));
  }
}
