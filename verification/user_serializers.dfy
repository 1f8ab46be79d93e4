/** The account serializers of the server that hold logic: registration
    (password confirmation, then creation with a hashed password) and login
    (credential check against the authentication backend). The password
    hasher and the backend are parameters: their behaviour is not part of this
    model. */
module UserSerializers {
  import opened Wrappers
  import opened UserModel

  const PasswordsDontMatch := "Passwords don't match"
  const InvalidCredentials := "Invalid credentials"
  const AccountDisabled := "User account is disabled"
  const MissingCredentials := "Must include username and password"

  /** The writable fields of `UserRegistrationSerializer`. */
  datatype Registration = Registration(
    username: string,
    email: string,
    firstName: string,
    lastName: string,
    mobile: Option<string>,
    chapter: Option<string>,
    password: string,
    passwordConfirm: string,
    profilePicture: Option<string>)

  /** `UserRegistrationSerializer.validate`: fails exactly when the two
      passwords differ, and otherwise hands the attributes on unchanged. */
  function ValidateRegistration(a: Registration): (r: Result<Registration, string>)
    ensures r.Ok? <==> a.password == a.passwordConfirm
    ensures r.Ok? ==> r.value == a
    ensures r.Failure? ==> r.error == PasswordsDontMatch
  {
    if a.password != a.passwordConfirm then Failure(PasswordsDontMatch) else Ok(a)
  }

  /** `UserRegistrationSerializer.create`: drops `password_confirm`, creates
      the account from the remaining fields with the model defaults (not an
      administrator, active), and stores only what `hash` (`set_password`)
      makes of the password. */
  function CreateUser(a: Registration, id: nat, hash: string -> string): (u: User)
    ensures u.id == id && u.username == a.username && u.email == a.email
    ensures u.firstName == a.firstName && u.lastName == a.lastName
    ensures u.mobile == a.mobile && u.chapter == a.chapter && u.profilePicture == a.profilePicture
    ensures !u.isSuperadmin && u.isActive
    ensures u.passwordHash == hash(a.password)
  {
    User(id, a.username, a.email, a.firstName, a.lastName, a.mobile, a.chapter,
         false, true, hash(a.password), a.profilePicture, None)
  }

  /** The stored account does not depend on `password_confirm` at all. */
  lemma CreateIgnoresConfirmation(a: Registration, other: string, id: nat, hash: string -> string)
    ensures CreateUser(a, id, hash) == CreateUser(a.(passwordConfirm := other), id, hash)
  {
  }

  /** The two fields `LoginSerializer` reads; either may be missing. */
  datatype Credentials = Credentials(username: Option<string>, password: Option<string>)

  /** The validated attributes of a successful login: the credentials and the
      authenticated account. */
  datatype LoginAttrs = LoginAttrs(credentials: Credentials, user: User)

  /** `LoginSerializer.validate`, with `authenticate` the authentication
      backend. Missing or empty credentials are refused before the backend is
      asked; an unknown or inactive account is refused after; otherwise the
      backend's account is attached. */
  function ValidateLogin(c: Credentials, authenticate: (string, string) -> Option<User>)
    : (r: Result<LoginAttrs, string>)
    ensures !(Truthy(c.username) && Truthy(c.password)) <==> r == Failure(MissingCredentials)
    ensures Truthy(c.username) && Truthy(c.password) ==>
              var found := authenticate(c.username.value, c.password.value);
              && (found.None? <==> r == Failure(InvalidCredentials))
              && (found.Some? && !found.value.isActive <==> r == Failure(AccountDisabled))
              && (r.Ok? <==> found.Some? && found.value.isActive)
    ensures r.Ok? ==> r.value.credentials == c && r.value.user.isActive
                      && Some(r.value.user) == authenticate(c.username.value, c.password.value)
  {
    if Truthy(c.username) && Truthy(c.password) then
      var user := authenticate(c.username.value, c.password.value);
      if user.None? then Failure(InvalidCredentials)
      else if !user.value.isActive then Failure(AccountDisabled)
      else Ok(LoginAttrs(c, user.value))
    else
      Failure(MissingCredentials)
  }
}
