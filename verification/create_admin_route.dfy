/** `POST /api/test/create-admin`: validate the body, check the email is
    free, and insert a user with the admin role. */
module CreateAdminRoute {
  import opened Wrappers
  import opened JsString
  import opened ObjectId
  import opened UserModel
  import opened Http
  import opened Auth

  /** The JSON body; None is an absent field. */
  datatype AdminBody = AdminBody(name: Option<string>, email: Option<string>, password: Option<string>)

  datatype AdminCreated = AdminCreated(message: string, user: CreatedUser, token: string)

  const MinPasswordLength: nat := 6

  const FieldsRequired := "Name, email, and password are required"
  const PasswordTooShort := "Password must be at least 6 characters"
  const EmailExists := "User with this email already exists"
  const AdminCreatedMessage := "Admin user created successfully"

  /** The handler, given the ObjectId the new document receives and the
      time of the save. A duplicate `_id` makes `save()` throw, answered 500. */
  function CreateAdmin(store: Store, body: AdminBody, id: Oid, now: int, sign: Signer)
    : (r: (Store, Response<AdminCreated>))
    ensures r.1.status in {Created, BadRequest, ServerError}
    ensures r.1.status != Created ==> r.0 == store && r.1.Error?
    ensures !Truthy(body.name) || !Truthy(body.email) || !Truthy(body.password) ==>
              r.1 == Error(BadRequest, FieldsRequired)
    ensures Truthy(body.name) && Truthy(body.email) && Truthy(body.password)
            && |body.password.value| < MinPasswordLength ==>
              r.1 == Error(BadRequest, PasswordTooShort)
    ensures Truthy(body.name) && Truthy(body.email) && Truthy(body.password)
            && |body.password.value| >= MinPasswordLength && EmailTaken(store, body.email.value) ==>
              r.1 == Error(BadRequest, EmailExists)
    ensures Truthy(body.name) && Truthy(body.email) && Truthy(body.password)
            && |body.password.value| >= MinPasswordLength && !EmailTaken(store, body.email.value) ==>
              && (id !in store ==> r.1.status == Created)
              && (id in store ==> r.1 == InternalError())
    ensures r.1.status == Created ==>
              && r.1.Json?
              && id !in store
              && !EmailTaken(store, body.email.value)
              && |body.password.value| >= MinPasswordLength
              && var admin := User(id, body.name.value, body.email.value, body.password.value,
                                   AdminRole, now, now);
                 && r.0 == store[id := admin]
                 && r.1.data == AdminCreated(AdminCreatedMessage, AsCreated(admin), GenerateToken(sign, admin))
                 && r.1.data.user.role == AdminRole
  {
    if !Truthy(body.name) || !Truthy(body.email) || !Truthy(body.password) then
      (store, Error(BadRequest, FieldsRequired))
    else if |body.password.value| < MinPasswordLength then
      (store, Error(BadRequest, PasswordTooShort))
    else if EmailTaken(store, body.email.value) then
      (store, Error(BadRequest, EmailExists))
    else if id in store then
      (store, InternalError())
    else
      var admin := User(id, body.name.value, body.email.value, body.password.value, AdminRole, now, now);
      (store[id := admin],
       Json(Created, AdminCreated(AdminCreatedMessage, AsCreated(admin), GenerateToken(sign, admin))))
  }

  /** Creating an admin keeps the store well formed and its emails unique. */
  lemma CreateAdminKeepsEmailsUnique(store: Store, body: AdminBody, id: Oid, now: int, sign: Signer)
    requires WellFormed(store) && UniqueEmails(store)
    ensures WellFormed(CreateAdmin(store, body, id, now, sign).0)
    ensures UniqueEmails(CreateAdmin(store, body, id, now, sign).0)
  {
    var r := CreateAdmin(store, body, id, now, sign);
    if r.1.status == Created {
      AddUserKeepsEmailsUnique(store, User(id, body.name.value, body.email.value, body.password.value,
                                           AdminRole, now, now));
    }
  }

  /** A created admin passes every `requireRole` check with a token issued
      for it, given a verifier that accepts what the signer produced. */
  lemma CreatedAdminPassesRoleChecks(store: Store, body: AdminBody, id: Oid, now: int,
                                     sign: Signer, verify: Verifier)
    requires WellFormed(store)
    requires CreateAdmin(store, body, id, now, sign).1.status == Created
    ensures var r := CreateAdmin(store, body, id, now, sign);
            var admin := r.0[id];
            verify(GenerateToken(sign, admin)) == Success(TokenPayload(admin)) && GenerateToken(sign, admin) != "" ==>
              && GetCurrentUser(Some(BearerPrefix + GenerateToken(sign, admin)), verify, r.0).Some?
              && HasRole(GetCurrentUser(Some(BearerPrefix + GenerateToken(sign, admin)), verify, r.0).value, UserRole)
              && HasRole(GetCurrentUser(Some(BearerPrefix + GenerateToken(sign, admin)), verify, r.0).value, AdminRole)
  {
    var r := CreateAdmin(store, body, id, now, sign);
    var admin := r.0[id];
    assert WellFormed(r.0);
    if verify(GenerateToken(sign, admin)) == Success(TokenPayload(admin)) && GenerateToken(sign, admin) != "" {
      IssuedTokenAuthenticates(sign, verify, r.0, admin);
    }
  }
}
