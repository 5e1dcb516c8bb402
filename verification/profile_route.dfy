/** `GET /api/users/profile` and `PUT /api/users/profile`: reading and
    updating the authenticated user's own record. Password comparison
    (`userDoc.comparePassword`) is a parameter. */
module ProfileRoute {
  import opened Wrappers
  import opened JsString
  import opened ObjectId
  import opened UserModel
  import opened Http
  import opened Auth

  /** The JSON body of the update; None is an absent field. */
  datatype ProfileUpdate = ProfileUpdate(
    name: Option<string>,
    email: Option<string>,
    currentPassword: Option<string>,
    newPassword: Option<string>)

  datatype ProfileReply = ProfileReply(message: string, user: PublicUser)

  /** `userDoc.comparePassword(candidate)`: whether a candidate matches the
      stored credential. */
  type PasswordCheck = (string, string) -> bool

  const MinPasswordLength: nat := 6

  const UserNotFound := "User not found"
  const EmailAlreadyTaken := "Email is already taken"
  const CurrentPasswordRequired := "Current password is required to change password"
  const CurrentPasswordIncorrect := "Current password is incorrect"
  const NewPasswordTooShort := "New password must be at least 6 characters"
  const ProfileUpdated := "Profile updated successfully"

  /** `GET /api/users/profile`: the requester's record without its password,
      or 401. */
  function GetProfile<B>(verify: Verifier, store: Store, req: Request<B>): (r: Response<PublicUser>)
    ensures r.Json? <==> GetCurrentUser(req.authorization, verify, store).Some?
    ensures r.Json? ==> r.status == Ok && r == Json(Ok, GetCurrentUser(req.authorization, verify, store).value)
    ensures r.Error? ==> r == Error(Unauthorized, AuthenticationRequired)
  {
    RequireAuth((rq: Request<B>, user: PublicUser) => Json(Ok, user), verify, store, req)
  }

  /** The profile a user reads is the stored record of the user its token
      names, field for field except the password. */
  lemma ProfileIsStoredRecord<B>(sign: Signer, verify: Verifier, store: Store, u: User, body: B)
    requires WellFormed(store) && u.id in store && store[u.id] == u
    requires verify(GenerateToken(sign, u)) == Success(TokenPayload(u))
    requires GenerateToken(sign, u) != ""
    ensures var r := GetProfile(verify, store, Request(Some(BearerPrefix + GenerateToken(sign, u)), body));
            && r.Json? && r.status == Ok
            && r.data.id == u.id && r.data.name == u.name && r.data.email == u.email
            && r.data.role == u.role && r.data.createdAt == u.createdAt && r.data.updatedAt == u.updatedAt
  {
    IssuedTokenAuthenticates(sign, verify, store, u);
  }

  /** `PUT /api/users/profile` for the authenticated user `self`. Each
      failed check answers before the single save, so the store is only
      written on success. */
  function UpdateProfile(store: Store, self: PublicUser, body: ProfileUpdate, comparePassword: PasswordCheck)
    : (r: (Store, Response<ProfileReply>))
    ensures r.1.status in {Ok, BadRequest, NotFound}
    ensures r.1.status != Ok ==> r.0 == store && r.1.Error?
    ensures self.id !in store ==> r.1 == Error(NotFound, UserNotFound)
    ensures self.id in store && Truthy(body.email) && EmailTakenByOther(store, body.email.value, self.id) ==>
              r.1 == Error(BadRequest, EmailAlreadyTaken)
    ensures r.1.status == Ok ==>
              && self.id in store && self.id in r.0
              && var before := store[self.id];
                 var after := r.0[self.id];
                 && r.0 == store[self.id := after]
                 && r.1 == Json(Ok, ProfileReply(ProfileUpdated, Public(after)))
                 && after.id == before.id && after.role == before.role
                 && after.createdAt == before.createdAt && after.updatedAt == before.updatedAt
                 && after.name == (if Truthy(body.name) then body.name.value else before.name)
                 && after.email == (if Truthy(body.email) then body.email.value else before.email)
                 && after.password == (if Truthy(body.newPassword) then body.newPassword.value else before.password)
    ensures self.id in store
            && !(Truthy(body.email) && EmailTakenByOther(store, body.email.value, self.id))
            && (Truthy(body.newPassword) ==>
                  && Truthy(body.currentPassword)
                  && comparePassword(store[self.id].password, body.currentPassword.value)
                  && |body.newPassword.value| >= MinPasswordLength) ==>
              r.1.status == Ok
    ensures r.1.status == Ok && Truthy(body.email) ==> !EmailTakenByOther(store, body.email.value, self.id)
    ensures r.1.status == Ok && Truthy(body.newPassword) ==>
              && Truthy(body.currentPassword)
              && comparePassword(store[self.id].password, body.currentPassword.value)
              && |body.newPassword.value| >= MinPasswordLength
  {
    if self.id !in store then (store, Error(NotFound, UserNotFound))
    else
      var doc := store[self.id];
      var named := if Truthy(body.name) then doc.(name := body.name.value) else doc;
      if Truthy(body.email) && EmailTakenByOther(store, body.email.value, self.id) then
        (store, Error(BadRequest, EmailAlreadyTaken))
      else
        var addressed := if Truthy(body.email) then named.(email := body.email.value) else named;
        if !Truthy(body.newPassword) then Save(store, self.id, addressed)
        else if !Truthy(body.currentPassword) then
          (store, Error(BadRequest, CurrentPasswordRequired))
        else if !comparePassword(addressed.password, body.currentPassword.value) then
          (store, Error(BadRequest, CurrentPasswordIncorrect))
        else if |body.newPassword.value| < MinPasswordLength then
          (store, Error(BadRequest, NewPasswordTooShort))
        else
          Save(store, self.id, addressed.(password := body.newPassword.value))
  }

  /** `userDoc.save()` of the document loaded from `id`, and the reply
      built from the saved document. */
  function Save(store: Store, id: Oid, doc: User): (Store, Response<ProfileReply>) {
    (store[id := doc], Json(Ok, ProfileReply(ProfileUpdated, Public(doc))))
  }

  /** The password checks run in order: a missing current password is
      reported first, then a wrong one, and the length of the new password
      only after the current one is verified. */
  lemma PasswordChecksInOrder(store: Store, self: PublicUser, body: ProfileUpdate, comparePassword: PasswordCheck)
    requires self.id in store
    requires !(Truthy(body.email) && EmailTakenByOther(store, body.email.value, self.id))
    requires Truthy(body.newPassword)
    ensures var r := UpdateProfile(store, self, body, comparePassword).1;
            && (!Truthy(body.currentPassword) ==> r == Error(BadRequest, CurrentPasswordRequired))
            && (Truthy(body.currentPassword) && !comparePassword(store[self.id].password, body.currentPassword.value) ==>
                  r == Error(BadRequest, CurrentPasswordIncorrect))
            && (Truthy(body.currentPassword) && comparePassword(store[self.id].password, body.currentPassword.value)
                && |body.newPassword.value| < MinPasswordLength ==>
                  r == Error(BadRequest, NewPasswordTooShort))
  {
  }

  /** Keeping one's own email is not a conflict. */
  lemma OwnEmailIsNoConflict(store: Store, self: PublicUser, body: ProfileUpdate, comparePassword: PasswordCheck)
    requires WellFormed(store) && UniqueEmails(store)
    requires self.id in store && body.email == Some(store[self.id].email)
    ensures UpdateProfile(store, self, body, comparePassword).1 != Error(BadRequest, EmailAlreadyTaken)
  {
    assert !EmailTakenByOther(store, store[self.id].email, self.id);
  }

  /** An update keeps the store well formed and its emails unique. */
  lemma UpdateKeepsEmailsUnique(store: Store, self: PublicUser, body: ProfileUpdate, comparePassword: PasswordCheck)
    requires WellFormed(store) && UniqueEmails(store)
    ensures WellFormed(UpdateProfile(store, self, body, comparePassword).0)
    ensures UniqueEmails(UpdateProfile(store, self, body, comparePassword).0)
  {
    var r := UpdateProfile(store, self, body, comparePassword);
    if r.1.status == Ok {
      var after := r.0[self.id];
      forall a, b | a in r.0 && b in r.0 && a != b ensures r.0[a].email != r.0[b].email {
        if a == self.id {
          assert r.0[b] == store[b];
          if Truthy(body.email) {
            assert store[b].email != body.email.value;
          }
        } else if b == self.id {
          assert r.0[a] == store[a];
          if Truthy(body.email) {
            assert store[a].email != body.email.value;
          }
        }
      }
    }
  }
}
