/**
 * The authentication routes (server/routes/auth.js): registration over the
 * users collection, login, and the current user. Password hashing,
 * `comparePassword` and token signing are parameters: their behaviour
 * belongs to libraries outside this model.
 */
module AuthRoutes {
  import opened Wrappers
  import opened Search
  import opened VoteModel
  import opened PostModel
  import opened ServerStore

  /** An error answer: the status and the `message` of its body. */
  datatype Failure = Failure(status: Status, message: string)

  /** The identical answer to an unknown email and to a wrong password. */
  const InvalidCredentials := Failure(BadRequest400, "Invalid credentials")

  /** Adding a user with a fresh id and an email nobody has keeps the database consistent. */
  lemma AddUserConsistent(users: seq<User>, posts: seq<Post>, comments: seq<Comment>, votes: seq<Vote>,
                          nextId: nat, u: User)
    requires Consistent(users, posts, comments, votes, nextId)
    requires u.id == nextId && forall k :: 0 <= k < |users| ==> users[k].email != u.email
    ensures Consistent(users + [u], posts, comments, votes, nextId + 1)
  {
  }

  /**
   * POST /register: an email that is already registered is refused with
   * 400 and nothing changes; otherwise exactly one user is added, with no
   * avatar or bio and without moderator rights, and the answer is 201.
   */
  method Register(db: Db, name: string, email: string, password: string)
    returns (status: Status, r: Result<string, Failure>)
    requires db.Valid()
    modifies db
    ensures db.Valid()
    ensures (exists k :: 0 <= k < |old(db.users)| && old(db.users)[k].email == email) ==>
      && status == BadRequest400
      && r == Err(Failure(BadRequest400, "User already exists")) && unchanged(db)
    ensures !(exists k :: 0 <= k < |old(db.users)| && old(db.users)[k].email == email) ==>
      && status == Created201
      && r == Ok("User registered successfully")
      && db.users == old(db.users) + [User(old(db.nextId), name, email, password, None, None, false)]
      && db.nextId == old(db.nextId) + 1
      && db.posts == old(db.posts) && db.comments == old(db.comments) && db.votes == old(db.votes)
  {
    var existing := FindIndex(db.users, WithEmail(email));
    if existing.Some? {
      return BadRequest400, Err(Failure(BadRequest400, "User already exists"));
    }
    var user := User(db.nextId, name, email, password, None, None, false);
    AddUserConsistent(db.users, db.posts, db.comments, db.votes, db.nextId, user);
    db.users := db.users + [user];
    db.nextId := db.nextId + 1;
    status, r := Created201, Ok("User registered successfully");
  }

  /** What the signed token carries: the user id and nothing else. */
  datatype TokenPayload = TokenPayload(id: UserId)

  /** The user object of a successful login. */
  datatype LoginUser = LoginUser(id: UserId, name: string, email: string, avatar: Option<string>, isModerator: bool)

  datatype LoginAnswer = LoginAnswer(token: string, user: LoginUser)

  /**
   * POST /login: the user with that email whose password `comparePassword`
   * accepts gets a token signed over its id alone; an unknown email and a
   * wrong password get the same answer, so a caller cannot tell them apart.
   */
  function Login(users: seq<User>, email: string, password: string,
                 comparePassword: (User, string) -> bool, sign: TokenPayload -> string): (r: Result<LoginAnswer, Failure>)
    requires EmailsUnique(users)
    ensures r.Err? ==> r.error == InvalidCredentials
    ensures r.Ok? <==> exists k :: 0 <= k < |users| && users[k].email == email && comparePassword(users[k], password)
    ensures forall k :: 0 <= k < |users| && users[k].email == email && comparePassword(users[k], password) ==>
      var u := users[k];
      r == Ok(LoginAnswer(sign(TokenPayload(u.id)), LoginUser(u.id, u.name, u.email, u.avatar, u.isModerator)))
  {
    match FindIndex(users, WithEmail(email))
    case None => Err(InvalidCredentials)
    case Some(i) =>
      var u := users[i];
      if !comparePassword(u, password) then Err(InvalidCredentials)
      else Ok(LoginAnswer(sign(TokenPayload(u.id)), LoginUser(u.id, u.name, u.email, u.avatar, u.isModerator)))
  }

  /** An unknown email and a known email with a wrong password produce the identical answer. */
  lemma LoginFailuresIndistinguishable(users: seq<User>, unknown: string, known: string, password: string, wrong: string,
                                       comparePassword: (User, string) -> bool, sign: TokenPayload -> string)
    requires EmailsUnique(users)
    requires forall k :: 0 <= k < |users| ==> users[k].email != unknown
    requires forall k :: 0 <= k < |users| && users[k].email == known ==> !comparePassword(users[k], wrong)
    ensures Login(users, unknown, password, comparePassword, sign) == Login(users, known, wrong, comparePassword, sign)
  {
  }

  /** GET /me: the requester without the password, or 404. */
  function Me(users: seq<User>, requester: UserId): (r: Result<PublicUser, Status>)
    requires UserIdsUnique(users)
    ensures r.Err? <==> forall k :: 0 <= k < |users| ==> users[k].id != requester
    ensures r.Err? ==> r.error == NotFound404
    ensures forall k :: 0 <= k < |users| && users[k].id == requester ==> r == Ok(Public(users[k]))
  {
    match FindIndex(users, WithUserId(requester))
    case None => Err(NotFound404)
    case Some(i) => Ok(Public(users[i]))
  }

  /** Registering and then logging in with the same password yields a token for the new user. */
  lemma RegisterThenLogin(users: seq<User>, nextId: nat, name: string, email: string, password: string,
                          comparePassword: (User, string) -> bool, sign: TokenPayload -> string)
    requires EmailsUnique(users) && forall k :: 0 <= k < |users| ==> users[k].email != email
    requires comparePassword(User(nextId, name, email, password, None, None, false), password)
    ensures var after := users + [User(nextId, name, email, password, None, None, false)];
      Login(after, email, password, comparePassword, sign)
        == Ok(LoginAnswer(sign(TokenPayload(nextId)), LoginUser(nextId, name, email, None, false)))
  {
    var after := users + [User(nextId, name, email, password, None, None, false)];
    assert after[|users|].email == email;
  }
}
