/**
 * Registration and login (Controllers/userController.js). Password hashing
 * and its check are the parameters `hash` and `verify`; the signed token is
 * modelled by the claims it carries.
 */
module UserController {
  import opened Schema
  import opened UserModel

  const UserExists := "User already exists"
  const InvalidCredentials := "Invalid email or password"

  /** No two stored users share an email (the path's `unique` index). */
  ghost predicate EmailsUnique(users: map<UserId, User>)
  {
    forall a, b {:trigger users[a].email, users[b].email} :: a in users && b in users && a != b ==> users[a].email != users[b].email
  }

  /** The first of `ids`, in order, naming a stored user whose email is `email`. */
  function FindFrom(users: map<UserId, User>, ids: seq<UserId>, email: string): (r: Option<UserId>)
    ensures r.Some? ==> r.value in ids && r.value in users && users[r.value].email == email
    ensures r.None? <==> forall u :: u in ids && u in users ==> users[u].email != email
  {
    if ids == [] then None
    else if ids[0] in users && users[ids[0]].email == email then Some(ids[0])
    else
      assert forall u :: u in ids ==> u == ids[0] || u in ids[1..];
      FindFrom(users, ids[1..], email)
  }

  /** Searching past a prefix with no match continues into what follows it. */
  lemma {:induction false} FindFromAppend(users: map<UserId, User>, ids: seq<UserId>, more: seq<UserId>, email: string)
    requires forall u :: u in ids && u in users ==> users[u].email != email
    ensures FindFrom(users, ids + more, email) == FindFrom(users, more, email)
  {
    if ids != [] {
      assert (ids + more)[0] == ids[0];
      assert (ids + more)[1..] == ids[1..] + more;
      FindFromAppend(users, ids[1..], more, email);
    } else {
      assert ids + more == more;
    }
  }

  /**
   * `User.findOne({ email })`. The query value goes through the path's
   * setters (lowercase, then trim) before it is compared with stored emails.
   */
  function FindByEmail(users: map<UserId, User>, userIds: seq<UserId>, email: string): (r: Option<UserId>)
    ensures r.Some? ==> r.value in users && users[r.value].email == Normalize(email)
    ensures r.None? <==> forall u :: u in userIds && u in users ==> users[u].email != Normalize(email)
  {
    FindFrom(users, userIds, Normalize(email))
  }

  /** The request body of a registration, password in plain text. */
  datatype Registration = Registration(
    firstName: string,
    lastName: string,
    email: string,
    password: string,
    location: Option<string>,
    profession: Option<string>,
    profileUrl: Option<string>)

  datatype RegisterOutcome = Duplicate | Invalid | Inserted(user: User)

  /**
   * registerUser up to the insert: a user with the same email already stored
   * rejects the request; otherwise the document, with the hashed password, is
   * validated and either fails (a thrown error) or is the one to insert.
   */
  function Register(users: map<UserId, User>, userIds: seq<UserId>, reg: Registration,
                    hash: string -> string, now: Timestamp): (r: RegisterOutcome)
    ensures r.Duplicate? <==> FindByEmail(users, userIds, reg.email).Some?
    ensures r.Inserted? ==> && ValidUser(r.user) && IsNewUser(r.user, now)
                            && r.user.password == hash(reg.password)
                            && r.user.email == Normalize(reg.email)
                            && r.user.firstName == Trim(reg.firstName) && r.user.lastName == Trim(reg.lastName)
    ensures r.Invalid? <==> && FindByEmail(users, userIds, reg.email).None?
                            && !(&& RequiredTrimmed(reg.firstName).Some? && RequiredTrimmed(reg.lastName).Some?
                                 && PresentString(Normalize(reg.email)) && PresentString(hash(reg.password)))
    ensures r.Inserted? ==> && r.user.location == TrimOptional(reg.location)
                            && r.user.profession == TrimOptional(reg.profession)
                            && r.user.profileUrl == (if reg.profileUrl.Some? then reg.profileUrl.value else "")
    ensures r.Inserted? ==> forall u :: u in userIds && u in users ==> users[u].email != r.user.email
  {
    if FindByEmail(users, userIds, reg.email).Some? then Duplicate
    else
      var fields := UserFields(reg.firstName, reg.lastName, reg.email, hash(reg.password),
                               reg.location, reg.profession, reg.profileUrl);
      match NewUser(fields, now)
      case None => Invalid
      case Some(u) => Inserted(u)
  }

  /** Inserting a user whose email no stored user has keeps emails unique. */
  lemma InsertKeepsEmailsUnique(users: map<UserId, User>, userIds: seq<UserId>, id: UserId, reg: Registration,
                                hash: string -> string, now: Timestamp)
    requires EmailsUnique(users) && id !in users
    requires forall u :: u in users <==> u in userIds
    requires Register(users, userIds, reg, hash, now).Inserted?
    ensures EmailsUnique(users[id := Register(users, userIds, reg, hash, now).user])
  {
  }

  /** The claims signed into a session token. */
  datatype Token = Token(userId: UserId, email: string)

  /**
   * loginUser: look the user up by email and check the password against the
   * stored hash; an unknown email and a wrong password give the same reply.
   */
  function Login(users: map<UserId, User>, userIds: seq<UserId>, email: string, password: string,
                 verify: (string, string) -> bool): (r: Reply<Token>)
    ensures r.Ok? || r == BadRequest(InvalidCredentials)
    ensures r.Ok? <==> FindByEmail(users, userIds, email).Some? &&
                       verify(password, users[FindByEmail(users, userIds, email).value].password)
    ensures r.Ok? ==> && r.value.userId in users
                      && r.value.email == users[r.value.userId].email == Normalize(email)
                      && verify(password, users[r.value.userId].password)
  {
    match FindByEmail(users, userIds, email)
    case None => BadRequest(InvalidCredentials)
    case Some(id) =>
      if !verify(password, users[id].password) then BadRequest(InvalidCredentials)
      else Ok(Token(id, users[id].email))
  }

  /** A user inserted with an email no listed user has is the one then found by that email. */
  lemma FindInserted(users: map<UserId, User>, userIds: seq<UserId>, id: UserId, u: User)
    requires id !in users && id !in userIds
    requires FindFrom(users, userIds, u.email).None?
    ensures FindFrom(users[id := u], userIds + [id], u.email) == Some(id)
  {
    var after := users[id := u];
    forall v | v in userIds && v in after ensures after[v].email != u.email {
      assert v != id && v in users;
    }
    FindFromAppend(after, userIds, [id], u.email);
    assert FindFrom(after, [id], u.email) == Some(id);
  }

  /** Logging in with the email of a found user and its password yields that user's token. */
  lemma LoginFound(users: map<UserId, User>, userIds: seq<UserId>, id: UserId,
                   email: string, password: string, verify: (string, string) -> bool)
    requires FindByEmail(users, userIds, email) == Some(id)
    requires verify(password, users[id].password)
    ensures Login(users, userIds, email, password, verify) == Ok(Token(id, users[id].email))
  {
  }

  /** Logging in as a user just inserted with a fresh email finds that user. */
  lemma LoginInserted(users: map<UserId, User>, userIds: seq<UserId>, id: UserId, u: User,
                      email: string, password: string, verify: (string, string) -> bool)
    requires id !in users && id !in userIds
    requires u.email == Normalize(email) && verify(password, u.password)
    requires FindByEmail(users, userIds, email).None?
    ensures Login(users[id := u], userIds + [id], email, password, verify) == Ok(Token(id, u.email))
  {
    FindInserted(users, userIds, id, u);
    LoginFound(users[id := u], userIds + [id], id, email, password, verify);
  }

  /**
   * A user who has just registered can log in with the same email and
   * password, provided the password checks against its own hash, and the
   * token names the new user.
   */
  lemma RegisterThenLogin(users: map<UserId, User>, userIds: seq<UserId>, id: UserId,
                          reg: Registration, hash: string -> string,
                          verify: (string, string) -> bool, now: Timestamp)
    requires id !in users && id !in userIds
    requires Register(users, userIds, reg, hash, now).Inserted?
    requires verify(reg.password, hash(reg.password))
    ensures Login(users[id := Register(users, userIds, reg, hash, now).user], userIds + [id], reg.email, reg.password, verify)
         == Ok(Token(id, Normalize(reg.email)))
  {
    var u := Register(users, userIds, reg, hash, now).user;
    LoginInserted(users, userIds, id, u, reg.email, reg.password, verify);
  }
}
