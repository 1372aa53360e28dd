/** The `Admin` entity: a unique user name, a password hash and a role. */
module AdminModel {
  import opened Common

  datatype Admin = Admin(id: nat, username: string, password: string, role: string)

  /** `@NotBlank username`, `@NotBlank password`. */
  predicate ValidAdmin(a: Admin)
  {
    NotBlank(a.username) && NotBlank(a.password)
  }

  /** `new Admin(username, password)`: only the two fields are set and the
      role keeps its initialiser. */
  function NewAdmin(username: string, password: string): Admin
  {
    Admin(0, username, password, "ADMIN")
  }

  /** A new admin has the default role, and is valid exactly when both
      given fields are non-blank. */
  lemma NewAdminDefaults(username: string, password: string)
    ensures NewAdmin(username, password).role == "ADMIN"
    ensures ValidAdmin(NewAdmin(username, password)) <==> NotBlank(username) && NotBlank(password)
  {
  }

  function AdminId(a: Admin): nat { a.id }
  function AdminUsername(a: Admin): string { a.username }
}
