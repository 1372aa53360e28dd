/** The authentication endpoints: the login response by role, the
    password-reset flow, and the temporary password generator. The JWT,
    the random indices and the mail server's answer are parameters. */
module AuthController {
  import opened Common
  import opened Tables
  import opened AdminModel
  import opened DoctorModel
  import opened DoctorRepository
  import opened Store
  import opened PasswordEncoder
  import opened UserDetailsService
  import AdminService
  import DoctorService

  /** The login response body; `type` is always "Bearer". */
  datatype JwtResponse = JwtResponse(token: string, tokenType: string, username: string, role: string, userId: Option<nat>)

  /** A `ResponseEntity`: 200 with a body, 400 with a message, or the 400
      Spring answers before the handler runs when a `@Valid` body fails its
      constraints, listing their messages. */
  datatype Reply<T> = Success(body: T) | BadRequest(message: string) | Invalid(messages: set<string>)

  const LoginFailed: string := "Hata: Geçersiz kullanıcı adı veya şifre!"
  const ResetSent: string := "Yeni şifreniz email adresinize gönderildi."
  const ResetUnknownEmail: string := "Bu email adresi ile kayıtlı doktor bulunamadı."
  const ResetFailed: string := "Şifre sıfırlama sırasında bir hata oluştu."
  const EmailBlank: string := "Email boş olamaz"
  const EmailMalformed: string := "Geçersiz email formatı"

  /** The messages of the `PasswordResetRequest` constraints `email` fails:
      `@NotBlank`, and `@Email`, whose address grammar is the parameter `isEmail`. */
  function ResetRequestViolations(email: string, isEmail: string -> bool): (ms: set<string>)
    ensures EmailBlank in ms <==> !NotBlank(email)
    ensures EmailMalformed in ms <==> !isEmail(email)
    ensures ms <= {EmailBlank, EmailMalformed}
  {
    (if NotBlank(email) then {} else {EmailBlank}) + (if isEmail(email) then {} else {EmailMalformed})
  }

  /** `authenticateUser`: after authentication the user id and the displayed
      name are resolved by role; any authentication failure is a 400 with a
      fixed message and no token. */
  method AuthenticateUser(db: Database, enc: Encoder, jwt: string, username: string, password: string) returns (reply: Reply<JwtResponse>)
    requires db.Valid()
    ensures reply.BadRequest? <==> Authenticate(db.admins, db.doctors, enc, username, password).Err?
    ensures reply.Success? <==> Authenticate(db.admins, db.doctors, enc, username, password).Ok?
    ensures reply.BadRequest? ==> reply.message == LoginFailed
    ensures reply.Success? ==>
              var u := Authenticate(db.admins, db.doctors, enc, username, password).value;
              && reply.body.token == jwt && reply.body.tokenType == "Bearer" && reply.body.role == u.authority
              && (u.authority == "ROLE_ADMIN" ==>
                    exists a :: a in db.admins && a.username == username
                      && reply.body.userId == Some(a.id) && reply.body.username == username)
              && (u.authority == "ROLE_DOCTOR" ==>
                    exists d :: d in db.doctors && d.email == username
                      && reply.body.userId == Some(d.id) && reply.body.username == FullName(d))
              && (u.authority != "ROLE_ADMIN" && u.authority != "ROLE_DOCTOR" ==>
                    reply.body.userId.None? && reply.body.username == username)
  {
    var auth := Authenticate(db.admins, db.doctors, enc, username, password);
    if auth.Err? {
      return BadRequest(LoginFailed);
    }
    var role := auth.value.authority;
    var userId: Option<nat> := None;
    var name := username;
    if role == "ROLE_ADMIN" {
      var admin := AdminService.FindByUsername(db.admins, username);
      if admin.Some? {
        userId := Some(admin.value.id);
      }
    } else if role == "ROLE_DOCTOR" {
      var doctor := FindByEmail(db.doctors, username);
      if doctor.Some? {
        userId := Some(doctor.value.id);
        name := FullName(doctor.value);
      }
    }
    reply := Success(JwtResponse(jwt, "Bearer", name, role, userId));
  }

  const Upper: string := "ABCDEFGHIJKLMNOPQRSTUVWXYZ"
  const Lower: string := "abcdefghijklmnopqrstuvwxyz"
  const Digits: string := "0123456789"

  /** The characters a temporary password is drawn from. */
  const Alphabet: string := Upper + Lower + Digits

  predicate IsAlphanumeric(c: char)
  {
    ('A' <= c <= 'Z') || ('a' <= c <= 'z') || ('0' <= c <= '9')
  }

  lemma AlphabetRanges()
    ensures forall i :: 0 <= i < |Upper| ==> Upper[i] == ('A' as int + i) as char
    ensures forall i :: 0 <= i < |Lower| ==> Lower[i] == ('a' as int + i) as char
    ensures forall i :: 0 <= i < |Digits| ==> Digits[i] == ('0' as int + i) as char
  {
  }

  /** The alphabet spelled out is the generator's constant. */
  lemma AlphabetText()
    ensures Alphabet == "ABCDEFGHIJKLMNOPQRSTUVWXYZabcdefghijklmnopqrstuvwxyz0123456789"
  {
  }

  /** Every character of the 62-character alphabet is alphanumeric. */
  lemma AlphabetIsAlphanumeric()
    ensures |Alphabet| == 62
    ensures forall i :: 0 <= i < |Alphabet| ==> IsAlphanumeric(Alphabet[i])
  {
    AlphabetRanges();
    forall i | 0 <= i < |Alphabet| ensures IsAlphanumeric(Alphabet[i]) {
      if i < 26 {
        assert Alphabet[i] == Upper[i];
      } else if i < 52 {
        assert Alphabet[i] == Lower[i - 26];
      } else {
        assert Alphabet[i] == Digits[i - 52];
      }
    }
  }

  /** Every alphanumeric character is in the alphabet, so every draw of
      eight alphanumeric characters can come out of the generator. */
  lemma AlphabetCoversAlphanumeric(c: char)
    requires IsAlphanumeric(c)
    ensures c in Alphabet
  {
    AlphabetRanges();
    if 'A' <= c <= 'Z' {
      var k := c as int - 'A' as int;
      assert Alphabet[k] == Upper[k] == c;
    } else if 'a' <= c <= 'z' {
      var k := c as int - 'a' as int;
      assert Alphabet[26 + k] == Lower[k] == c;
    } else {
      var k := c as int - '0' as int;
      assert Alphabet[52 + k] == Digits[k] == c;
    }
  }

  /** `generateTemporaryPassword`, with the eight `nextInt(62)` draws as a parameter. */
  method GenerateTemporaryPassword(draws: seq<nat>) returns (pw: string)
    requires |draws| == 8 && forall i :: 0 <= i < |draws| ==> draws[i] < |Alphabet|
    ensures |pw| == 8
    ensures forall i :: 0 <= i < 8 ==> pw[i] == Alphabet[draws[i]]
    ensures forall i :: 0 <= i < |pw| ==> IsAlphanumeric(pw[i])
  {
    AlphabetIsAlphanumeric();
    pw := "";
    var i := 0;
    while i < 8
      invariant 0 <= i <= 8
      invariant |pw| == i
      invariant forall j :: 0 <= j < i ==> pw[j] == Alphabet[draws[j]]
    {
      pw := pw + [Alphabet[draws[i]]];
      i := i + 1;
    }
  }

  /** The reset mail as the mail service composes it. */
  datatype ResetMail = ResetMail(to: string, newPassword: string)

  /** The mail server: the messages it has accepted. */
  class Outbox {
    var sent: seq<ResetMail>

    constructor ()
      ensures sent == []
    {
      sent := [];
    }
  }

  /** `resetPassword`. A body failing its constraints is refused before the
      handler runs. The password is reset before the mail is sent and
      nothing undoes it, so when the mail server refuses the message the
      reply is the generic error but the new password is already stored. */
  method ResetPassword(db: Database, enc: Encoder, outbox: Outbox, email: string, isEmail: string -> bool, draws: seq<nat>, mailAccepted: bool)
    returns (reply: Reply<string>, temp: string)
    requires db.Valid()
    requires |draws| == 8 && forall i :: 0 <= i < |draws| ==> draws[i] < |Alphabet|
    modifies db`doctors, outbox
    ensures db.Valid()
    ensures |temp| == 8 && forall i :: 0 <= i < 8 ==> temp[i] == Alphabet[draws[i]]
    ensures ResetRequestViolations(email, isEmail) != {} ==>
              reply == Invalid(ResetRequestViolations(email, isEmail)) && db.doctors == old(db.doctors) && outbox.sent == old(outbox.sent)
    ensures ResetRequestViolations(email, isEmail) == {} && FindByEmail(old(db.doctors), email).None? ==>
              reply == BadRequest(ResetUnknownEmail) && db.doctors == old(db.doctors) && outbox.sent == old(outbox.sent)
    ensures ResetRequestViolations(email, isEmail) == {} && FindByEmail(old(db.doctors), email).Some? ==>
              match DoctorService.Reset(old(db.doctors), enc, email, temp)
              case Err(_) => reply == BadRequest(ResetFailed) && db.doctors == old(db.doctors) && outbox.sent == old(outbox.sent)
              case Ok(t) =>
                && db.doctors == t
                && (mailAccepted ==> reply == Success(ResetSent) && outbox.sent == old(outbox.sent) + [ResetMail(email, temp)])
                && (!mailAccepted ==> reply == BadRequest(ResetFailed) && outbox.sent == old(outbox.sent))
  {
    temp := GenerateTemporaryPassword(draws);
    var violations := ResetRequestViolations(email, isEmail);
    if violations != {} {
      return Invalid(violations), temp;
    }
    var doctor := FindByEmail(db.doctors, email);
    if doctor.None? {
      return BadRequest(ResetUnknownEmail), temp;
    }
    var reset := DoctorService.ResetPassword(db, enc, email, temp);
    if reset.Err? {
      return BadRequest(ResetFailed), temp;
    }
    if !mailAccepted {
      return BadRequest(ResetFailed), temp;
    }
    outbox.sent := outbox.sent + [ResetMail(email, temp)];
    reply := Success(ResetSent);
  }

  /** With a consistent database and an encoder whose hashes are non-blank
      and sound, the reset of a stored e-mail succeeds and the mailed
      password then logs the doctor in, unless an admin holds that name. */
  lemma ResetMailLogsIn(db: Database, enc: Encoder, email: string, temp: string)
    requires db.Valid() && NonBlankHashes(enc) && Sound(enc)
    requires FindByEmail(db.doctors, email).Some?
    requires forall a :: a in db.admins ==> a.username != email
    ensures DoctorService.Reset(db.doctors, enc, email, temp).Ok?
    ensures Authenticate(db.admins, DoctorService.Reset(db.doctors, enc, email, temp).value, enc, email, temp).Ok?
  {
    DoctorService.ResetSucceeds(db.doctors, db.nextDoctorId, enc, email, temp);
  }
}
