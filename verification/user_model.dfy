/** User records and the user collection, as far as the handlers use them.
    The user schema itself (hashing hook, default role, password comparison)
    is not part of this model; where the handlers depend on it, it is a
    parameter. */
module UserModel {
  import opened ObjectId

  /** `'user' | 'admin'`. */
  datatype Role = UserRole | AdminRole

  function RoleName(role: Role): string {
    match role
    case UserRole => "user"
    case AdminRole => "admin"
  }

  /** A stored user document; `password` is the stored credential. */
  datatype User = User(
    id: Oid,
    name: string,
    email: string,
    password: string,
    role: Role,
    createdAt: int,
    updatedAt: int)

  /** A user document selected with `-password`: the type has no password field. */
  datatype PublicUser = PublicUser(
    id: Oid,
    name: string,
    email: string,
    role: Role,
    createdAt: int,
    updatedAt: int)

  /** The user object returned after a user is created: no password, no `updatedAt`. */
  datatype CreatedUser = CreatedUser(
    id: Oid,
    name: string,
    email: string,
    role: Role,
    createdAt: int)

  function Public(u: User): PublicUser {
    PublicUser(u.id, u.name, u.email, u.role, u.createdAt, u.updatedAt)
  }

  function AsCreated(u: User): CreatedUser {
    CreatedUser(u.id, u.name, u.email, u.role, u.createdAt)
  }

  /** The user collection, keyed by `_id`. */
  type Store = map<Oid, User>

  /** Every document is stored under its own id. */
  predicate WellFormed(store: Store) {
    forall id | id in store :: store[id].id == id
  }

  /** `User.findOne({ email })` finds a document. */
  predicate EmailTaken(store: Store, email: string) {
    exists id | id in store :: store[id].email == email
  }

  /** `User.findOne({ email, _id: { $ne: self } })` finds a document. */
  predicate EmailTakenByOther(store: Store, email: string, self: Oid) {
    exists id | id in store && id != self :: store[id].email == email
  }

  /** No two stored users share an email. */
  predicate UniqueEmails(store: Store) {
    forall a, b | a in store && b in store && a != b :: store[a].email != store[b].email
  }

  /** Storing a user under its own, unused id with an email nobody has keeps
      the store well formed and its emails unique. */
  lemma AddUserKeepsEmailsUnique(store: Store, user: User)
    requires WellFormed(store) && UniqueEmails(store)
    requires user.id !in store && !EmailTaken(store, user.email)
    ensures WellFormed(store[user.id := user])
    ensures UniqueEmails(store[user.id := user])
  {
    var store' := store[user.id := user];
    forall a, b | a in store' && b in store' && a != b ensures store'[a].email != store'[b].email {
      if a == user.id {
        assert b in store;
      } else if b == user.id {
        assert a in store;
      }
    }
  }
}
