/** The authentication routes behind `/api/auth`: signup and login over the
    store of users. The password hash (bcrypt) and the token signer (JSON Web
    Token) are foreign code: the hash and its comparison are functions the
    registry is given, and the registry relies on one fact about them: a password
    compares equal to any salted hash of itself; a token is modelled by the
    user identifier it carries. */
module Auth {
  import opened Wrappers
  import opened Strings

  /** User identifiers, generated by the store. */
  type UserId = nat

  /** A bcrypt digest, and the random salt it is made with. */
  type Digest = string
  type Salt = string

  /** A stored user: the password field holds the digest, never the password. */
  datatype User = User(id: UserId, email: string, password: Digest)

  /** `jwt.sign({ id })`: the signed token names the user it was issued for. */
  datatype Token = Token(userId: UserId)

  datatype Body =
    | Session(id: UserId, email: string, token: Token)
    | MessageBody(message: string)

  datatype Reply = Reply(status: int, body: Body)

  const FieldsRequired := Reply(400, MessageBody("Email and password are required"))
  const EmailInUse := Reply(409, MessageBody("Email already in use"))
  const InvalidCredentials := Reply(401, MessageBody("Invalid credentials"))

  /** The success body both routes send for user `u`. */
  function SessionFor(u: User): Body {
    Session(u.id, u.email, Token(u.id))
  }

  class Registry {
    /** The stored users, by e-mail address. */
    var users: map<string, User>
    /** The identifier the store gives the next user it creates. */
    var nextId: UserId
    /** `bcrypt.hash(password, salt)`. */
    const hash: (string, Salt) -> Digest
    /** `bcrypt.compare(password, digest)`. */
    const compare: (string, Digest) -> bool

    /** A password always compares equal to a hash of itself. */
    ghost predicate HashVerifies() {
      forall p, s :: compare(p, hash(p, s))
    }

    /** Users are stored under their own e-mail address, and no two users
        share an identifier. */
    ghost predicate Valid()
      reads this
    {
      && HashVerifies()
      && (forall e :: e in users ==> users[e].email == e && users[e].id < nextId)
      && (forall e, e' :: e in users && e' in users && e != e' ==> users[e].id != users[e'].id)
    }

    constructor (hash: (string, Salt) -> Digest, compare: (string, Digest) -> bool)
      requires forall p, s :: compare(p, hash(p, s))
      ensures Valid() && users == map[]
      ensures this.hash == hash && this.compare == compare
    {
      this.hash := hash;
      this.compare := compare;
      users := map[];
      nextId := 0;
    }

    /** `POST /signup`, with the salt `bcrypt.genSalt` would draw. */
    method Signup(email: Option<string>, password: Option<string>, salt: Salt) returns (r: Reply)
      requires Valid()
      modifies this
      ensures Valid()
      ensures !(Truthy(email) && Truthy(password)) ==>
        r == FieldsRequired && users == old(users) && nextId == old(nextId)
      ensures Truthy(email) && Truthy(password) && email.value in old(users) ==>
        r == EmailInUse && users == old(users) && nextId == old(nextId)
      ensures Truthy(email) && Truthy(password) && email.value !in old(users) ==>
        var u := User(old(nextId), email.value, hash(password.value, salt));
        && users == old(users)[email.value := u]
        && (forall e :: e in old(users) ==> old(users)[e].id != u.id)
        && r == Reply(201, SessionFor(u))
    {
      if !Truthy(email) || !Truthy(password) {
        return FieldsRequired;
      }
      if email.value in users {
        return EmailInUse;
      }
      var digest := hash(password.value, salt);
      var u := User(nextId, email.value, digest);
      users := users[email.value := u];
      nextId := nextId + 1;
      r := Reply(201, SessionFor(u));
    }

    /** `POST /login`. It writes nothing, and an unknown address and a wrong
        password get the very same answer. */
    method Login(email: Option<string>, password: Option<string>) returns (r: Reply)
      ensures !(Truthy(email) && Truthy(password)) ==> r == FieldsRequired
      ensures Truthy(email) && Truthy(password) ==>
        (r.status == 200 <==> email.value in users && compare(password.value, users[email.value].password))
      ensures (Truthy(email) && Truthy(password) && email.value in users
               && compare(password.value, users[email.value].password)) ==>
        r == Reply(200, SessionFor(users[email.value]))
      ensures Truthy(email) && Truthy(password) && email.value !in users ==> r == InvalidCredentials
      ensures (Truthy(email) && Truthy(password) && email.value in users
               && !compare(password.value, users[email.value].password)) ==> r == InvalidCredentials
    {
      if !Truthy(email) || !Truthy(password) {
        return FieldsRequired;
      }
      if email.value !in users {
        return InvalidCredentials;
      }
      var user := users[email.value];
      var isMatch := compare(password.value, user.password);
      if !isMatch {
        return InvalidCredentials;
      }
      r := Reply(200, SessionFor(user));
    }
  }

  /** A user who has just signed up can log in with the same password, and is
      given a token for the same identifier. */
  method SignupThenLogin(reg: Registry, email: string, password: string, salt: Salt)
    returns (signedUp: Reply, loggedIn: Reply)
    requires reg.Valid() && email != "" && password != "" && email !in reg.users
    modifies reg
    ensures signedUp.status == 201 && loggedIn.status == 200
    ensures signedUp.body == loggedIn.body
  {
    signedUp := reg.Signup(Some(email), Some(password), salt);
    loggedIn := reg.Login(Some(email), Some(password));
  }

  /** A second signup with an address already registered is refused, whatever
      the password, and the first account is kept as it was. */
  method SignupTwice(reg: Registry, email: string, first: string, second: string, s1: Salt, s2: Salt)
    returns (r1: Reply, r2: Reply)
    requires reg.Valid() && email != "" && first != "" && second != "" && email !in reg.users
    modifies reg
    ensures r1.status == 201 && r2 == EmailInUse
    ensures email in reg.users && reg.users[email].password == reg.hash(first, s1)
  {
    r1 := reg.Signup(Some(email), Some(first), s1);
    r2 := reg.Signup(Some(email), Some(second), s2);
  }
}
