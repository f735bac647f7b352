/**
 * The user document: the follower/following entry, the embedded follow request
 * and the user record, each with the defaults its schema fills in and the
 * validation its schema runs on save (Models/UserModel.js).
 */
module UserModel {
  import opened Schema

  /** One entry of `followers` or `following`. */
  datatype Follower = Follower(userId: UserId, followedAt: Timestamp)

  /** One entry of `followRequests`. */
  datatype FollowRequest = FollowRequest(sender: UserId, receiver: UserId, requestedAt: Timestamp)

  /** A stored user document (its `_id` is the key it is stored under). */
  datatype User = User(
    firstName: string,
    lastName: string,
    email: string,
    password: string,
    profileUrl: string,
    location: Option<string>,
    profession: Option<string>,
    profileCompletion: int,
    followers: seq<Follower>,
    following: seq<Follower>,
    followRequests: seq<FollowRequest>,
    posts: seq<PostId>,
    postCount: int,
    createdAt: Timestamp,
    updatedAt: Timestamp)

  /** A user document as a lookup returns it once the password is projected away. */
  datatype PublicUser = PublicUser(
    id: UserId,
    firstName: string,
    lastName: string,
    email: string,
    profileUrl: string,
    location: Option<string>,
    profession: Option<string>,
    profileCompletion: int,
    followers: seq<Follower>,
    following: seq<Follower>,
    followRequests: seq<FollowRequest>,
    posts: seq<PostId>,
    postCount: int,
    createdAt: Timestamp,
    updatedAt: Timestamp)

  /** Casting a follower entry: `userId` is required, `followedAt` defaults to the creation time. */
  function NewFollower(userId: Option<UserId>, followedAt: Option<Timestamp>, now: Timestamp): (r: Option<Follower>)
    ensures r.Some? <==> userId.Some?
    ensures r.Some? ==> r.value.userId == userId.value
    ensures r.Some? && followedAt.None? ==> r.value.followedAt == now
    ensures r.Some? && followedAt.Some? ==> r.value.followedAt == followedAt.value
  {
    match userId
    case None => None
    case Some(id) => Some(Follower(id, if followedAt.Some? then followedAt.value else now))
  }

  /** Casting a follow request: `sender` and `receiver` are required, `requestedAt` defaults to the creation time. */
  function NewFollowRequest(sender: Option<UserId>, receiver: Option<UserId>, requestedAt: Option<Timestamp>, now: Timestamp)
    : (r: Option<FollowRequest>)
    ensures r.Some? <==> sender.Some? && receiver.Some?
    ensures r.Some? ==> r.value.sender == sender.value && r.value.receiver == receiver.value
    ensures r.Some? && requestedAt.None? ==> r.value.requestedAt == now
    ensures r.Some? && requestedAt.Some? ==> r.value.requestedAt == requestedAt.value
  {
    if sender.None? || receiver.None? then None
    else Some(FollowRequest(sender.value, receiver.value, if requestedAt.Some? then requestedAt.value else now))
  }

  /** The fields a new user document is built from (the password already hashed). */
  datatype UserFields = UserFields(
    firstName: string,
    lastName: string,
    email: string,
    password: string,
    location: Option<string>,
    profession: Option<string>,
    profileUrl: Option<string>)

  /** A document that passes the schema's validators and holds the values its setters produce. */
  predicate ValidUser(u: User)
  {
    && PresentString(u.firstName) && IsTrimmed(u.firstName)
    && PresentString(u.lastName) && IsTrimmed(u.lastName)
    && PresentString(u.email) && IsNormalized(u.email)
    && PresentString(u.password)
    && (u.location.Some? ==> IsTrimmed(u.location.value))
    && (u.profession.Some? ==> IsTrimmed(u.profession.value))
  }

  /** A document with nothing but its defaults in the fields the request does not supply. */
  predicate IsNewUser(u: User, now: Timestamp)
  {
    && u.profileCompletion == 0
    && u.followers == [] && u.following == [] && u.followRequests == []
    && u.posts == [] && u.postCount == 0
    && u.createdAt == now && u.updatedAt == now
  }

  function TrimOptional(s: Option<string>): (r: Option<string>)
    ensures r.Some? <==> s.Some?
    ensures r.Some? ==> r.value == Trim(s.value)
  {
    if s.Some? then Some(Trim(s.value)) else None
  }

  /**
   * Building and validating a user document: setters run first (trim on the
   * names, location and profession; lowercase then trim on the email), then the
   * `required` validators; None when any of them fails.
   */
  function NewUser(f: UserFields, now: Timestamp): (r: Option<User>)
    ensures r.Some? <==> RequiredTrimmed(f.firstName).Some? && RequiredTrimmed(f.lastName).Some?
                         && PresentString(Normalize(f.email)) && PresentString(f.password)
    ensures r.Some? ==> ValidUser(r.value) && IsNewUser(r.value, now)
    ensures r.Some? ==> r.value.email == Normalize(f.email) && r.value.password == f.password
    ensures r.Some? ==> r.value.firstName == Trim(f.firstName) && r.value.lastName == Trim(f.lastName)
    ensures r.Some? ==> r.value.profileUrl == (if f.profileUrl.Some? then f.profileUrl.value else "")
    ensures r.Some? ==> r.value.location == TrimOptional(f.location) && r.value.profession == TrimOptional(f.profession)
  {
    var first := RequiredTrimmed(f.firstName);
    var last := RequiredTrimmed(f.lastName);
    var email := Normalize(f.email);
    if first.None? || last.None? || !PresentString(email) || !PresentString(f.password) then None
    else
      Some(User(
        firstName := first.value,
        lastName := last.value,
        email := email,
        password := f.password,
        profileUrl := if f.profileUrl.Some? then f.profileUrl.value else "",
        location := TrimOptional(f.location),
        profession := TrimOptional(f.profession),
        profileCompletion := 0,
        followers := [],
        following := [],
        followRequests := [],
        posts := [],
        postCount := 0,
        createdAt := now,
        updatedAt := now))
  }

  /** The document a `$lookup` returns for user `id`, password excluded. */
  function WithoutPassword(id: UserId, u: User): (p: PublicUser)
    ensures p.id == id
    ensures && p.firstName == u.firstName && p.lastName == u.lastName && p.email == u.email
            && p.profileUrl == u.profileUrl && p.location == u.location && p.profession == u.profession
            && p.profileCompletion == u.profileCompletion
    ensures p.followers == u.followers && p.following == u.following && p.followRequests == u.followRequests
    ensures p.posts == u.posts && p.postCount == u.postCount
    ensures p.createdAt == u.createdAt && p.updatedAt == u.updatedAt
  {
    PublicUser(id, u.firstName, u.lastName, u.email, u.profileUrl, u.location, u.profession,
               u.profileCompletion, u.followers, u.following, u.followRequests, u.posts,
               u.postCount, u.createdAt, u.updatedAt)
  }
}
