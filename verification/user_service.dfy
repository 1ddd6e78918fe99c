/** The user registry of src/services/user_service.py: sign-up, lookup and login
    against the users collection, seen as a map from e-mail address to the stored
    user document. Password hashing, verification and token signing are opaque
    functions passed in as parameters. */
module UserService {
  import opened Wrappers

  /** A user document as `create_user` inserts it; the password is stored hashed. */
  datatype User = User(email: string, passwordHash: string, firstName: string, lastName: string)

  /** The users collection, indexed by the e-mail address every query filters on. */
  type Store = map<string, User>

  /** Each document is filed under its own address. */
  predicate Consistent(store: Store) {
    forall e :: e in store ==> store[e].email == e
  }

  /** The three dict shapes the functions return: `{"error": ...}`, `{"msg": ...}`
      and the access token under the key "User logged in successfully, access_token". */
  datatype Reply = Error(error: string) | Msg(msg: string) | LoggedIn(accessToken: string)

  /** Lines 11-15: an address already on file gets "User already exists" and the store is
      left as it was; a new one is filed with the hashed password and the names, and
      every other document is untouched. */
  function CreateUser(store: Store, email: string, password: string, firstName: string, lastName: string,
                      hash: string -> string): (r: (Store, Reply))
    ensures email in store ==> r.0 == store && r.1 == Error("User already exists")
    ensures email !in store ==> r.1 == Msg("User created successfully")
    ensures email !in store ==> r.0.Keys == store.Keys + {email}
    ensures email !in store ==> r.0[email] == User(email, hash(password), firstName, lastName)
    ensures forall e :: e in store ==> e in r.0 && r.0[e] == store[e]
    ensures Consistent(store) ==> Consistent(r.0)
  {
    if email in store then (store, Error("User already exists"))
    else (store[email := User(email, hash(password), firstName, lastName)], Msg("User created successfully"))
  }

  /** Lines 17-18: the document on file for the address, or None. */
  function GetUser(store: Store, email: string): (r: Option<User>)
    ensures r.Some? <==> email in store
    ensures r.Some? ==> r.value == store[email]
    ensures Consistent(store) && r.Some? ==> r.value.email == email
  {
    if email in store then Some(store[email]) else None
  }

  /** Lines 20-25: the token for `{"email": email}` when the address is on file and the
      password verifies against its stored hash; "Invalid credentials" otherwise, the
      same for an unknown address as for a wrong password. */
  function LoginUser(store: Store, email: string, password: string,
                     verify: (string, string) -> bool, createToken: string -> string): (r: Reply)
    ensures r.LoggedIn? <==> email in store && verify(password, store[email].passwordHash)
    ensures r.LoggedIn? ==> r.accessToken == createToken(email)
    ensures !r.LoggedIn? ==> r == Error("Invalid credentials")
  {
    var user := GetUser(store, email);
    if user.None? || !verify(password, user.value.passwordHash) then Error("Invalid credentials")
    else LoggedIn(createToken(email))
  }

  /** After a successful sign-up the same password logs in, provided the hash and the
      verifier agree on it. */
  lemma SignUpThenLogIn(store: Store, email: string, password: string, firstName: string, lastName: string,
                        hash: string -> string, verify: (string, string) -> bool, createToken: string -> string)
    requires email !in store
    requires verify(password, hash(password))
    ensures var after := CreateUser(store, email, password, firstName, lastName, hash).0;
      LoginUser(after, email, password, verify, createToken) == LoggedIn(createToken(email))
  {
  }

  /** After a sign-up, a password the verifier rejects against the stored hash does not
      log in. */
  lemma WrongPasswordIsRefused(store: Store, email: string, password: string, firstName: string, lastName: string,
                               guess: string, hash: string -> string, verify: (string, string) -> bool,
                               createToken: string -> string)
    requires email !in store
    requires !verify(guess, hash(password))
    ensures var after := CreateUser(store, email, password, firstName, lastName, hash).0;
      LoginUser(after, email, guess, verify, createToken) == Error("Invalid credentials")
  {
  }

  /** Signing up a second time with the same address changes nothing: the first
      password and names stay on file. */
  lemma FirstSignUpWins(store: Store, email: string, p1: string, f1: string, l1: string,
                        p2: string, f2: string, l2: string, hash: string -> string)
    requires email !in store
    ensures var once := CreateUser(store, email, p1, f1, l1, hash).0;
      && CreateUser(once, email, p2, f2, l2, hash) == (once, Error("User already exists"))
      && GetUser(once, email) == Some(User(email, hash(p1), f1, l1))
  {
  }

  /** A sign-up leaves every other address's login outcome as it was. */
  lemma SignUpLeavesOthersAlone(store: Store, email: string, password: string, firstName: string, lastName: string,
                                other: string, guess: string, hash: string -> string,
                                verify: (string, string) -> bool, createToken: string -> string)
    requires other != email
    ensures var after := CreateUser(store, email, password, firstName, lastName, hash).0;
      LoginUser(after, other, guess, verify, createToken) == LoginUser(store, other, guess, verify, createToken)
  {
    var after := CreateUser(store, email, password, firstName, lastName, hash).0;
    assert (other in after) == (other in store);
  }

  /** A sequence of sign-ups, applied in order. */
  function SignUps(store: Store, requests: seq<(string, string, string, string)>, hash: string -> string): (r: Store)
    ensures Consistent(store) ==> Consistent(r)
    ensures store.Keys <= r.Keys
    decreases |requests|
  {
    if requests == [] then store
    else
      var (email, password, firstName, lastName) := requests[0];
      SignUps(CreateUser(store, email, password, firstName, lastName, hash).0, requests[1..], hash)
  }

  /** After any sequence of sign-ups, an address holds the password hash of its earliest
      request, unless it was already on file. */
  lemma {:induction false} EarliestRequestIsKept(store: Store, requests: seq<(string, string, string, string)>,
                                                 hash: string -> string, i: nat)
    requires i < |requests|
    requires requests[i].0 !in store
    requires forall j :: 0 <= j < i ==> requests[j].0 != requests[i].0
    ensures var r := SignUps(store, requests, hash);
      requests[i].0 in r && r[requests[i].0].passwordHash == hash(requests[i].1)
    decreases |requests|
  {
    var (email, password, firstName, lastName) := requests[0];
    var next := CreateUser(store, email, password, firstName, lastName, hash).0;
    if i == 0 {
      KeptOnceFiled(next, requests[1..], hash, email);
    } else {
      assert requests[1..][i - 1] == requests[i];
      assert requests[0].0 != requests[i].0;
      EarliestRequestIsKept(next, requests[1..], hash, i - 1);
    }
  }

  /** A document on file is never replaced by later sign-ups. */
  lemma {:induction false} KeptOnceFiled(store: Store, requests: seq<(string, string, string, string)>,
                                         hash: string -> string, email: string)
    requires email in store
    ensures var r := SignUps(store, requests, hash);
      email in r && r[email] == store[email]
    decreases |requests|
  {
    if requests != [] {
      var (e, p, f, l) := requests[0];
      KeptOnceFiled(CreateUser(store, e, p, f, l, hash).0, requests[1..], hash, email);
    }
  }
}
