/** `POST /api/test/register-users` registers a fixed list of test users
    one after another against a growing user collection; `GET` lists them
    without their passwords. The role a new user receives by default comes
    from the user schema and is a parameter, as is the ObjectId each new
    document receives. */
module RegisterUsersRoute {
  import opened ObjectId
  import opened UserModel
  import opened Auth

  /** One entry of the test-data file. */
  datatype TestUser = TestUser(name: string, email: string, password: string)

  datatype Registered = Registered(user: CreatedUser, token: string)

  datatype FailedEntry = FailedEntry(email: string, reason: string)

  /** The outcome for one input, in input order. */
  datatype Entry = Succeeded(registered: Registered) | Failed(failure: FailedEntry) {
    function Email(): string {
      match this
      case Succeeded(r) => r.user.email
      case Failed(f) => f.email
    }
  }

  datatype Results = Results(successful: seq<Registered>, failed: seq<FailedEntry>, total: nat)

  const UserExists := "User already exists"
  /** The message of the error `save()` throws for an `_id` already in use:
      the start of MongoDB's E11000 duplicate key error text, which goes on
      to name the collection, the index and the key. */
  const DuplicateKey := "E11000 duplicate key error"

  /** The ObjectId the document of the input at each position receives. */
  type IdSource = nat -> Oid

  /** The user document built for an input: only its name, email and password. */
  function NewUser(u: TestUser, id: Oid, role: Role, now: int): User {
    User(id, u.name, u.email, u.password, role, now, now)
  }

  /** One iteration of the loop: the existence check, then the save. */
  function RegisterOne(store: Store, u: TestUser, id: Oid, role: Role, now: int, sign: Signer)
    : (r: (Store, Entry))
    ensures r.1.Email() == u.email
    ensures EmailTaken(store, u.email) ==> r == (store, Failed(FailedEntry(u.email, UserExists)))
    ensures !EmailTaken(store, u.email) && id in store ==>
              r == (store, Failed(FailedEntry(u.email, DuplicateKey)))
    ensures !EmailTaken(store, u.email) && id !in store ==> r.1.Succeeded?
    ensures r.1.Failed? ==> r.0 == store
    ensures r.1.Succeeded? ==>
              && !EmailTaken(store, u.email) && id !in store
              && r.0 == store[id := NewUser(u, id, role, now)]
              && r.1.registered == Registered(AsCreated(NewUser(u, id, role, now)),
                                              GenerateToken(sign, NewUser(u, id, role, now)))
  {
    if EmailTaken(store, u.email) then (store, Failed(FailedEntry(u.email, UserExists)))
    else if id in store then (store, Failed(FailedEntry(u.email, DuplicateKey)))
    else
      var user := NewUser(u, id, role, now);
      (store[id := user], Succeeded(Registered(AsCreated(user), GenerateToken(sign, user))))
  }

  /** Everything in `store` is still in `store'`, unchanged. */
  predicate Extends(store: Store, store': Store) {
    forall id | id in store :: id in store' && store'[id] == store[id]
  }

  /** The loop over `users`: the store after it and one entry per input.
      The input at position `i` gets the ObjectId `ids(i)`. */
  function RegisterAll(store: Store, users: seq<TestUser>, ids: IdSource, role: Role, now: int, sign: Signer)
    : (r: (Store, seq<Entry>))
    decreases |users|
    ensures |r.1| == |users|
    ensures Extends(store, r.0)
  {
    if users == [] then (store, [])
    else
      var last := |users| - 1;
      var before := RegisterAll(store, users[..last], ids, role, now, sign);
      var step := RegisterOne(before.0, users[last], ids(last), role, now, sign);
      (step.0, before.1 + [step.1])
  }

  /** The store the input at position `i` meets: the inputs before it have
      been processed. */
  function StoreBefore(store: Store, users: seq<TestUser>, ids: IdSource, role: Role, now: int,
                       sign: Signer, i: nat): Store
    requires i <= |users|
  {
    RegisterAll(store, users[..i], ids, role, now, sign).0
  }

  /** The entry of position `i` is the outcome of one iteration on the
      store the earlier inputs left. */
  lemma {:induction false} EntryAt(store: Store, users: seq<TestUser>, ids: IdSource, role: Role,
                                   now: int, sign: Signer, i: nat)
    requires i < |users|
    decreases |users|
    ensures RegisterAll(store, users, ids, role, now, sign).1[i]
            == RegisterOne(StoreBefore(store, users, ids, role, now, sign, i), users[i], ids(i), role, now, sign).1
    ensures RegisterAll(store, users[..i + 1], ids, role, now, sign).0
            == RegisterOne(StoreBefore(store, users, ids, role, now, sign, i), users[i], ids(i), role, now, sign).0
  {
    var last := |users| - 1;
    var prefix := users[..last];
    var before := RegisterAll(store, prefix, ids, role, now, sign);
    assert RegisterAll(store, users, ids, role, now, sign).1
           == before.1 + [RegisterOne(before.0, users[last], ids(last), role, now, sign).1];
    if i < last {
      assert users[..i] == prefix[..i];
      assert users[..i + 1] == prefix[..i + 1];
      EntryAt(store, prefix, ids, role, now, sign, i);
    } else {
      assert users[..i] == prefix;
      assert users[..i + 1] == users;
    }
  }

  /** Later stores extend earlier ones. */
  lemma {:induction false} StoresGrow(store: Store, users: seq<TestUser>, ids: IdSource, role: Role,
                                      now: int, sign: Signer, i: nat, j: nat)
    requires i <= j <= |users|
    decreases j
    ensures Extends(StoreBefore(store, users, ids, role, now, sign, i),
                    StoreBefore(store, users, ids, role, now, sign, j))
  {
    if i < j {
      StoresGrow(store, users, ids, role, now, sign, i, j - 1);
      StepExtends(store, users, ids, role, now, sign, j);
      ExtendsTransitive(StoreBefore(store, users, ids, role, now, sign, i),
                        StoreBefore(store, users, ids, role, now, sign, j - 1),
                        StoreBefore(store, users, ids, role, now, sign, j));
    }
  }

  /** One iteration only adds to the store. */
  lemma StepExtends(store: Store, users: seq<TestUser>, ids: IdSource, role: Role,
                    now: int, sign: Signer, j: nat)
    requires 1 <= j <= |users|
    ensures Extends(StoreBefore(store, users, ids, role, now, sign, j - 1),
                    StoreBefore(store, users, ids, role, now, sign, j))
  {
    var prefix := users[..j];
    assert prefix[..j - 1] == users[..j - 1];
    var before := RegisterAll(store, users[..j - 1], ids, role, now, sign).0;
    var step := RegisterOne(before, prefix[j - 1], ids(j - 1), role, now, sign);
    assert StoreBefore(store, users, ids, role, now, sign, j) == step.0;
  }

  lemma ExtendsTransitive(a: Store, b: Store, c: Store)
    requires Extends(a, b) && Extends(b, c)
    ensures Extends(a, c)
  {
  }

  lemma EmailTakenGrows(store: Store, store': Store, email: string)
    requires Extends(store, store') && EmailTaken(store, email)
    ensures EmailTaken(store', email)
  {
    var id :| id in store && store[id].email == email;
    assert id in store' && store'[id] == store[id];
  }

  /** An input whose email is already stored fails with "User already exists". */
  lemma ExistingEmailFails(store: Store, users: seq<TestUser>, ids: IdSource, role: Role,
                           now: int, sign: Signer, i: nat)
    requires i < |users| && EmailTaken(store, users[i].email)
    ensures RegisterAll(store, users, ids, role, now, sign).1[i]
            == Failed(FailedEntry(users[i].email, UserExists))
  {
    assert users[..0] == [];
    StoresGrow(store, users, ids, role, now, sign, 0, i);
    EmailTakenGrows(store, StoreBefore(store, users, ids, role, now, sign, i), users[i].email);
    EntryAt(store, users, ids, role, now, sign, i);
  }

  /** After a batch, every stored email was stored before it or is the
      email of one of the inputs. */
  lemma {:induction false} NoEmailFromNowhere(store: Store, users: seq<TestUser>, ids: IdSource, role: Role,
                                              now: int, sign: Signer, email: string)
    requires !EmailTaken(store, email)
    requires forall j | 0 <= j < |users| :: users[j].email != email
    decreases |users|
    ensures !EmailTaken(RegisterAll(store, users, ids, role, now, sign).0, email)
  {
    if users != [] {
      var last := |users| - 1;
      var prefix := users[..last];
      assert forall j | 0 <= j < |prefix| :: prefix[j] == users[j];
      NoEmailFromNowhere(store, prefix, ids, role, now, sign, email);
      var before := RegisterAll(store, prefix, ids, role, now, sign).0;
      var step := RegisterOne(before, users[last], ids(last), role, now, sign);
      assert RegisterAll(store, users, ids, role, now, sign).0 == step.0;
      if step.1.Succeeded? {
        StoreOtherEmail(before, NewUser(users[last], ids(last), role, now), email);
      }
    }
  }

  /** Storing a user with another email leaves `email` free. */
  lemma StoreOtherEmail(store: Store, user: User, email: string)
    requires !EmailTaken(store, email) && user.email != email
    ensures !EmailTaken(store[user.id := user], email)
  {
    var store' := store[user.id := user];
    forall id | id in store' ensures store'[id].email != email {
      if id != user.id {
        assert store'[id] == store[id];
      }
    }
  }

  /** An input whose email is new to the store and to every earlier input,
      and whose ObjectId is still free, is registered. */
  lemma NewInputSucceeds(store: Store, users: seq<TestUser>, ids: IdSource, role: Role,
                         now: int, sign: Signer, i: nat)
    requires i < |users| && !EmailTaken(store, users[i].email)
    requires forall j | 0 <= j < i :: users[j].email != users[i].email
    requires ids(i) !in StoreBefore(store, users, ids, role, now, sign, i)
    ensures var user := NewUser(users[i], ids(i), role, now);
            RegisterAll(store, users, ids, role, now, sign).1[i]
            == Succeeded(Registered(AsCreated(user), GenerateToken(sign, user)))
  {
    var prefix := users[..i];
    assert forall j | 0 <= j < |prefix| :: prefix[j] == users[j];
    NoEmailFromNowhere(store, prefix, ids, role, now, sign, users[i].email);
    EntryAt(store, users, ids, role, now, sign, i);
  }

  /** A successful input had a new email and a free id, and its user,
      built from the input alone, ends up stored under that id. */
  lemma SuccessIsNewUser(store: Store, users: seq<TestUser>, ids: IdSource, role: Role,
                         now: int, sign: Signer, i: nat)
    requires i < |users|
    requires RegisterAll(store, users, ids, role, now, sign).1[i].Succeeded?
    ensures var r := RegisterAll(store, users, ids, role, now, sign);
            var user := NewUser(users[i], ids(i), role, now);
            && !EmailTaken(store, users[i].email)
            && ids(i) !in store
            && ids(i) in r.0 && r.0[ids(i)] == user
            && r.1[i].registered == Registered(AsCreated(user), GenerateToken(sign, user))
  {
    EntryAt(store, users, ids, role, now, sign, i);
    assert users[..0] == [];
    StoresGrow(store, users, ids, role, now, sign, 0, i);
    if EmailTaken(store, users[i].email) {
      EmailTakenGrows(store, StoreBefore(store, users, ids, role, now, sign, i), users[i].email);
    }
    StoresGrow(store, users, ids, role, now, sign, i + 1, |users|);
    assert users[..|users|] == users;
  }

  /** Within one batch an email succeeds at most once: the first success
      stores it, and every later input with that email finds it. */
  lemma EmailSucceedsOnce(store: Store, users: seq<TestUser>, ids: IdSource, role: Role,
                          now: int, sign: Signer, i: nat, j: nat)
    requires i < j < |users| && users[i].email == users[j].email
    requires RegisterAll(store, users, ids, role, now, sign).1[i].Succeeded?
    ensures RegisterAll(store, users, ids, role, now, sign).1[j]
            == Failed(FailedEntry(users[j].email, UserExists))
  {
    EntryAt(store, users, ids, role, now, sign, i);
    EntryAt(store, users, ids, role, now, sign, j);
    var after := StoreBefore(store, users, ids, role, now, sign, i + 1);
    assert after[ids(i)].email == users[i].email;
    StoresGrow(store, users, ids, role, now, sign, i + 1, j);
    EmailTakenGrows(after, StoreBefore(store, users, ids, role, now, sign, j), users[j].email);
  }

  /** Registration keeps the store well formed and its emails unique. */
  lemma {:induction false} RegisterKeepsEmailsUnique(store: Store, users: seq<TestUser>, ids: IdSource,
                                                     role: Role, now: int, sign: Signer)
    requires WellFormed(store) && UniqueEmails(store)
    decreases |users|
    ensures WellFormed(RegisterAll(store, users, ids, role, now, sign).0)
    ensures UniqueEmails(RegisterAll(store, users, ids, role, now, sign).0)
  {
    if users != [] {
      var last := |users| - 1;
      RegisterKeepsEmailsUnique(store, users[..last], ids, role, now, sign);
      var before := RegisterAll(store, users[..last], ids, role, now, sign).0;
      var step := RegisterOne(before, users[last], ids(last), role, now, sign);
      if step.1.Succeeded? {
        AddUserKeepsEmailsUnique(before, NewUser(users[last], ids(last), role, now));
      }
    }
  }

  function Successes(entries: seq<Entry>): (r: seq<Registered>)
    ensures |r| <= |entries|
  {
    if entries == [] then []
    else
      (if entries[0].Succeeded? then [entries[0].registered] else []) + Successes(entries[1..])
  }

  function Failures(entries: seq<Entry>): (r: seq<FailedEntry>)
    ensures |r| <= |entries|
  {
    if entries == [] then []
    else
      (if entries[0].Failed? then [entries[0].failure] else []) + Failures(entries[1..])
  }

  /** Every entry lands in exactly one of the two lists. */
  lemma {:induction false} EveryEntryCounted(entries: seq<Entry>)
    ensures |Successes(entries)| + |Failures(entries)| == |entries|
  {
    if entries != [] {
      EveryEntryCounted(entries[1..]);
    }
  }

  /** `POST /api/test/register-users`: the new store and the results, with
      `successful` and `failed` in input order. */
  function RegisterUsers(store: Store, users: seq<TestUser>, ids: IdSource, role: Role, now: int, sign: Signer)
    : (r: (Store, Results))
    ensures var (store', entries) := RegisterAll(store, users, ids, role, now, sign);
            && r.0 == store'
            && r.1.successful == Successes(entries)
            && r.1.failed == Failures(entries)
    ensures r.1.total == |users|
    ensures |r.1.successful| + |r.1.failed| == r.1.total
    ensures Extends(store, r.0)
    ensures forall k | 0 <= k < |r.1.successful| :: !EmailTaken(store, r.1.successful[k].user.email)
  {
    var (store', entries) := RegisterAll(store, users, ids, role, now, sign);
    EveryEntryCounted(entries);
    SuccessesAreNew(store, users, ids, role, now, sign, entries, store');
    (store', Results(Successes(entries), Failures(entries), |users|))
  }

  lemma SuccessesAreNew(store: Store, users: seq<TestUser>, ids: IdSource, role: Role, now: int,
                        sign: Signer, entries: seq<Entry>, store': Store)
    requires (store', entries) == RegisterAll(store, users, ids, role, now, sign)
    ensures forall k | 0 <= k < |Successes(entries)| :: !EmailTaken(store, Successes(entries)[k].user.email)
  {
    forall k | 0 <= k < |Successes(entries)|
      ensures !EmailTaken(store, Successes(entries)[k].user.email)
    {
      var i := SuccessPositions(entries)[k];
      SuccessIsNewUser(store, users, ids, role, now, sign, i);
    }
  }

  /** The positions of the successful entries: strictly increasing, so
      `successful` lists them in input order. */
  function SuccessPositions(entries: seq<Entry>): (r: seq<nat>)
    ensures |r| == |Successes(entries)|
    ensures forall k | 0 <= k < |r| ::
              && r[k] < |entries| && entries[r[k]].Succeeded?
              && entries[r[k]].registered == Successes(entries)[k]
    ensures forall k, k' | 0 <= k < k' < |r| :: r[k] < r[k']
  {
    if entries == [] then []
    else
      var tail := Successes(entries[1..]);
      var shifted := Shift(entries, SuccessPositions(entries[1..]), tail);
      if entries[0].Succeeded? then
        assert Successes(entries) == [entries[0].registered] + tail;
        WithHead(entries, shifted, tail)
      else
        assert Successes(entries) == tail;
        shifted
  }

  /** Positions in the tail of `entries`, as positions in `entries`. */
  function Shift(entries: seq<Entry>, rest: seq<nat>, tail: seq<Registered>): (r: seq<nat>)
    requires entries != [] && |rest| == |tail|
    requires forall k | 0 <= k < |rest| ::
               && rest[k] < |entries| - 1 && entries[1..][rest[k]].Succeeded?
               && entries[1..][rest[k]].registered == tail[k]
    requires forall k, k' | 0 <= k < k' < |rest| :: rest[k] < rest[k']
    ensures |r| == |rest|
    ensures forall k | 0 <= k < |r| ::
              && 1 <= r[k] < |entries| && entries[r[k]].Succeeded?
              && entries[r[k]].registered == tail[k]
    ensures forall k, k' | 0 <= k < k' < |r| :: r[k] < r[k']
  {
    var r := seq(|rest|, k requires 0 <= k < |rest| => rest[k] + 1);
    assert forall k | 0 <= k < |r| :: entries[r[k]] == entries[1..][rest[k]];
    r
  }

  /** Adds the position of a successful first entry in front of the
      positions of the later successes. */
  function WithHead(entries: seq<Entry>, shifted: seq<nat>, tail: seq<Registered>): (r: seq<nat>)
    requires entries != [] && entries[0].Succeeded? && |shifted| == |tail|
    requires forall k | 0 <= k < |shifted| ::
               && 1 <= shifted[k] < |entries| && entries[shifted[k]].Succeeded?
               && entries[shifted[k]].registered == tail[k]
    requires forall k, k' | 0 <= k < k' < |shifted| :: shifted[k] < shifted[k']
    ensures |r| == |tail| + 1
    ensures forall k | 0 <= k < |r| ::
              && r[k] < |entries| && entries[r[k]].Succeeded?
              && entries[r[k]].registered == ([entries[0].registered] + tail)[k]
    ensures forall k, k' | 0 <= k < k' < |r| :: r[k] < r[k']
  {
    [0] + shifted
  }

  /** One entry of the `GET` listing. */
  datatype Contact = Contact(name: string, email: string)

  datatype Listing = Listing(count: nat, users: seq<Contact>)

  /** `GET /api/test/register-users`: the test users' names and emails. */
  function ListTestUsers(users: seq<TestUser>): (r: Listing)
    ensures r.count == |users| == |r.users|
    ensures forall i | 0 <= i < |users| :: r.users[i].name == users[i].name && r.users[i].email == users[i].email
  {
    Listing(|users|, seq(|users|, i requires 0 <= i < |users| => Contact(users[i].name, users[i].email)))
  }
}
