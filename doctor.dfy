/** The `Doctor` entity: profile, login e-mail and password hash, working
    hours string and examination fee. */
module DoctorModel {
  import opened Common

  datatype Doctor = Doctor(
    id: nat,
    ad: string,
    soyad: string,
    email: string,
    sifre: string,
    uzmanlik: string,
    deneyim: int,
    hakkinda: string,
    calismaSaatleri: Option<string>,
    ucret: Money,
    profileImageUrl: string)

  /** The field constraints: five `@NotBlank` strings and `ucret > 0`.
      `deneyim` is `@NotNull`, which its type already guarantees. */
  predicate ValidDoctor(d: Doctor)
  {
    && NotBlank(d.ad)
    && NotBlank(d.soyad)
    && NotBlank(d.email)
    && NotBlank(d.sifre)
    && NotBlank(d.uzmanlik)
    && d.ucret > 0
  }

  /** `getFullName`. */
  function FullName(d: Doctor): (r: string)
    ensures |r| == |d.ad| + 1 + |d.soyad|
  {
    JoinName(d.ad, d.soyad)
  }

  function DoctorId(d: Doctor): nat { d.id }
  function DoctorEmail(d: Doctor): string { d.email }
  function DoctorExperience(d: Doctor): int { d.deneyim }
}
