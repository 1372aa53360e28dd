/** Who may log in: the user-details lookup that feeds the authentication
    manager, and the password check the manager performs with the encoder. */
module UserDetailsService {
  import opened Common
  import opened Tables
  import opened AdminModel
  import opened DoctorModel
  import opened DoctorRepository
  import opened Store
  import opened PasswordEncoder
  import AdminService

  /** A built `User`: its name, its password hash and its single authority. */
  datatype UserDetails = UserDetails(username: string, password: string, authority: string)

  /** `loadUserByUsername`: an admin with that user name first, then a doctor
      with that e-mail; otherwise `UsernameNotFoundException`. */
  function LoadUserByUsername(admins: seq<Admin>, ds: seq<Doctor>, username: string): (r: Result<UserDetails, Error>)
    ensures r.Err? <==> (forall a :: a in admins ==> a.username != username) && (forall d :: d in ds ==> d.email != username)
    ensures r.Err? ==> r.error == UserNotFound
    ensures r.Ok? ==> r.value.authority in {"ROLE_ADMIN", "ROLE_DOCTOR"}
    ensures r.Ok? && r.value.authority == "ROLE_ADMIN" ==>
              exists a :: a in admins && a.username == username && r.value == UserDetails(a.username, a.password, "ROLE_ADMIN")
    ensures r.Ok? && r.value.authority == "ROLE_DOCTOR" ==>
              (forall a :: a in admins ==> a.username != username) &&
              exists d :: d in ds && d.email == username && r.value == UserDetails(d.email, d.sifre, "ROLE_DOCTOR")
  {
    match AdminService.FindByUsername(admins, username)
    case Some(a) => Ok(UserDetails(a.username, a.password, "ROLE_ADMIN"))
    case None =>
      match FindByEmail(ds, username)
      case Some(d) => Ok(UserDetails(d.email, d.sifre, "ROLE_DOCTOR"))
      case None => Err(UserNotFound)
  }

  /** The admin lookup wins: with unique user names and e-mails, a name that
      is both an admin's user name and a doctor's e-mail always loads the
      admin, and a doctor is loaded only when no admin has the name. */
  lemma AdminFirst(admins: seq<Admin>, ds: seq<Doctor>, nd: nat, na: nat, username: string)
    requires DoctorsOk(ds, nd) && AdminsOk(admins, na)
    ensures forall a :: a in admins && a.username == username ==>
              LoadUserByUsername(admins, ds, username) == Ok(UserDetails(a.username, a.password, "ROLE_ADMIN"))
    ensures (forall a :: a in admins ==> a.username != username) ==>
              forall d :: d in ds && d.email == username ==>
                LoadUserByUsername(admins, ds, username) == Ok(UserDetails(d.email, d.sifre, "ROLE_DOCTOR"))
  {
    AdminService.AtMostOneAdminPerUsername(admins, username);
    AtMostOneDoctorPerEmail(ds, username);
  }

  /** The authentication manager's check: the loaded user's hash must accept
      the presented password; an unknown name is reported the same way. */
  function Authenticate(admins: seq<Admin>, ds: seq<Doctor>, enc: Encoder, username: string, password: string): (r: Result<UserDetails, Error>)
    ensures r.Ok? <==> LoadUserByUsername(admins, ds, username).Ok? && enc.matches(password, LoadUserByUsername(admins, ds, username).value.password)
    ensures r.Ok? ==> r == LoadUserByUsername(admins, ds, username)
    ensures r.Err? ==> r.error == BadCredentials
  {
    match LoadUserByUsername(admins, ds, username)
    case Err(_) => Err(BadCredentials)
    case Ok(u) => if enc.matches(password, u.password) then Ok(u) else Err(BadCredentials)
  }

  /** A doctor whose e-mail is also an admin's user name cannot log in as a
      doctor: the admin's hash decides. */
  lemma AdminShadowsDoctor(admins: seq<Admin>, ds: seq<Doctor>, na: nat, enc: Encoder, a: Admin, password: string)
    requires AdminsOk(admins, na) && a in admins
    ensures Authenticate(admins, ds, enc, a.username, password).Ok? <==> enc.matches(password, a.password)
    ensures Authenticate(admins, ds, enc, a.username, password).Ok? ==>
              Authenticate(admins, ds, enc, a.username, password).value.authority == "ROLE_ADMIN"
  {
    AdminService.AtMostOneAdminPerUsername(admins, a.username);
  }
}
