/**
 * The stored tables and the handlers that change them in place. Each handler
 * states its reply and its new tables in terms of the transition functions
 * of the controller modules, and keeps the tables' invariant.
 */
module Store {
  import opened Schema
  import opened UserModel
  import opened PostModel
  import opened FollowRequestController
  import opened PostController
  import opened UserController
  import opened Tables

  const RequestSent := "Follow request sent"
  const RequestAccepted := "Follow request accepted"
  const RequestDenied := "Follow request denied"
  const UserRegistered := "User registered successfully"

  class Database {
    /** The user collection, by id, and its ids in the order documents come back. */
    var users: map<UserId, User>
    var userIds: seq<UserId>
    /** The post collection, by id, and its ids in the order documents come back. */
    var posts: map<PostId, Post>
    var postIds: seq<PostId>
    /** Where fresh ids come from: every stored id is below its counter. */
    var nextUserId: UserId
    var nextPostId: PostId

    ghost predicate Valid()
      reads this
    {
      Consistent(users, userIds, nextUserId, posts, postIds, nextPostId)
    }

    constructor ()
      ensures Valid()
      ensures users == map[] && userIds == [] && posts == map[] && postIds == []
    {
      users, userIds := map[], [];
      posts, postIds := map[], [];
      nextUserId, nextPostId := 0, 0;
    }

    /**
     * addFollowRequestsField, run when the controller module loads: every
     * user's `followRequests` becomes empty and nothing else changes.
     */
    method AddFollowRequestsField()
      requires Valid()
      modifies this`users
      ensures Valid()
      ensures users.Keys == old(users.Keys)
      ensures forall u :: u in users ==> users[u] == old(users[u]).(followRequests := [])
    {
      ClearKeepsInvariant(users);
      UsersUpdateKeepsConsistent(users, ClearRequests(users), userIds, nextUserId, posts, postIds, nextPostId);
      users := ClearRequests(users);
    }

    /**
     * sendFollowRequest: a receiver that is not stored gives NotFound and
     * changes nothing; otherwise one `{sender, receiver}` request is pushed
     * onto the end of the receiver's requests.
     */
    method SendFollowRequest(senderId: UserId, receiverId: UserId, now: Timestamp) returns (r: Reply<string>)
      requires Valid()
      modifies this`users
      ensures Valid()
      ensures r == (if receiverId in old(users) then Ok(RequestSent) else NotFound)
      ensures users == SendRequest(old(users), senderId, receiverId, now)
    {
      if receiverId !in users {
        return NotFound;
      }
      SendKeepsInvariant(users, senderId, receiverId, now);
      UsersUpdateKeepsConsistent(users, SendRequest(users, senderId, receiverId, now), userIds, nextUserId, posts, postIds, nextPostId);
      var receiver := users[receiverId];
      var request := NewFollowRequest(Some(senderId), Some(receiverId), None, now).value;
      users := users[receiverId := receiver.(followRequests := receiver.followRequests + [request])];
      assert users == SendRequest(old(users), senderId, receiverId, now);
      r := Ok(RequestSent);
    }

    /**
     * acceptFollowRequest: two separate writes, the current user's followers
     * and requests first, then the requester's following. A write to an id
     * that is not stored changes nothing, and the reply is success either way.
     */
    method AcceptFollowRequest(currentUserId: UserId, requesterId: UserId, now: Timestamp) returns (r: Reply<string>)
      requires Valid()
      modifies this`users
      ensures Valid()
      ensures r == Ok(RequestAccepted)
      ensures users == AcceptRequest(old(users), currentUserId, requesterId, now)
    {
      AcceptKeepsInvariant(users, currentUserId, requesterId, now);
      UsersUpdateKeepsConsistent(users, AcceptRequest(users, currentUserId, requesterId, now), userIds, nextUserId, posts, postIds, nextPostId);
      if currentUserId in users {
        var current := users[currentUserId];
        users := users[currentUserId := current.(
          followers := AddToSet(current.followers, Follower(requesterId, now)),
          followRequests := PullSender(current.followRequests, requesterId))];
      }
      assert users == FollowerAdded(old(users), currentUserId, requesterId, now);
      if requesterId in users {
        var requester := users[requesterId];
        users := users[requesterId := requester.(following := AddToSet(requester.following, Follower(currentUserId, now)))];
      }
      assert users == FollowingAdded(FollowerAdded(old(users), currentUserId, requesterId, now), requesterId, currentUserId, now);
      r := Ok(RequestAccepted);
    }

    /** denyFollowRequest: pull the requester's requests from the current user; success either way. */
    method DenyFollowRequest(currentUserId: UserId, requesterId: UserId) returns (r: Reply<string>)
      requires Valid()
      modifies this`users
      ensures Valid()
      ensures r == Ok(RequestDenied)
      ensures users == DenyRequest(old(users), currentUserId, requesterId)
    {
      DenyKeepsInvariant(users, currentUserId, requesterId);
      UsersUpdateKeepsConsistent(users, DenyRequest(users, currentUserId, requesterId), userIds, nextUserId, posts, postIds, nextPostId);
      if currentUserId in users {
        var current := users[currentUserId];
        users := users[currentUserId := current.(followRequests := PullSender(current.followRequests, requesterId))];
      }
      assert users == DenyRequest(old(users), currentUserId, requesterId);
      r := Ok(RequestDenied);
    }

    /**
     * The writes of createPost once the post is built: `Post.create` stores
     * it under a fresh id, then the caller's document gets the id pushed onto
     * `posts` and `postCount` raised by one.
     */
    method StorePost(callerId: UserId, p: Post) returns (id: PostId)
      requires Valid() && callerId in users && ValidPost(p)
      modifies this`users, this`posts, this`postIds, this`nextPostId
      ensures Valid()
      ensures id == old(nextPostId) && id !in old(posts)
      ensures posts == old(posts)[id := p] && postIds == old(postIds) + [id]
      ensures users == PostAdded(old(users), callerId, id)
    {
      id := nextPostId;
      CreatePostKeepsConsistent(users, userIds, nextUserId, posts, postIds, nextPostId, callerId, p);
      posts := posts[id := p];
      postIds := postIds + [id];
      nextPostId := nextPostId + 1;
      var user := users[callerId];
      users := users[callerId := user.(posts := user.posts + [id], postCount := user.postCount + 1)];
      assert users == PostAdded(old(users), callerId, id);
    }

    /**
     * createPost: a caller that is not stored gives NotFound; a post that
     * fails validation gives a server error; otherwise the post is stored under
     * a fresh id, which is pushed onto the caller's `posts` while `postCount`
     * goes up by one.
     */
    method CreatePost(callerId: UserId, description: string, mediaType: string, mediaUrl: string, now: Timestamp)
      returns (r: Reply<PostId>)
      requires Valid()
      modifies this`users, this`posts, this`postIds, this`nextPostId
      ensures Valid()
      ensures r.Ok? || r.NotFound? || r.ServerError?
      ensures r.NotFound? <==> callerId !in old(users)
      ensures r.ServerError? <==>
        callerId in old(users) && NewPost(Some(callerId), description, mediaType, mediaUrl, now).None?
      ensures !r.Ok? ==> users == old(users) && posts == old(posts) && postIds == old(postIds)
      ensures r.Ok? ==>
        && r.value == old(nextPostId) && r.value !in old(posts)
        && posts == old(posts)[r.value := NewPost(Some(callerId), description, mediaType, mediaUrl, now).value]
        && postIds == old(postIds) + [r.value]
        && users == PostAdded(old(users), callerId, r.value)
    {
      if callerId !in users {
        return NotFound;
      }
      var post := NewPost(Some(callerId), description, mediaType, mediaUrl, now);
      if post.None? {
        return ServerError;
      }
      var id := StorePost(callerId, post.value);
      r := Ok(id);
    }

    /**
     * The write of registerUser once the document is built: `save` inserts it
     * under a fresh id.
     */
    method StoreUser(u: User) returns (id: UserId)
      requires Valid() && ValidUser(u) && u.followRequests == [] && u.postCount == |u.posts|
      requires forall v :: v in users ==> users[v].email != u.email
      modifies this`users, this`userIds, this`nextUserId
      ensures Valid()
      ensures id == old(nextUserId) && id !in old(users)
      ensures users == old(users)[id := u] && userIds == old(userIds) + [id]
    {
      id := nextUserId;
      InsertUserKeepsConsistent(users, userIds, nextUserId, posts, postIds, nextPostId, u);
      users := users[id := u];
      userIds := userIds + [id];
      nextUserId := nextUserId + 1;
    }

    /**
     * registerUser: an email already stored gives "User already exists" and
     * changes nothing; a document that fails validation gives a server error;
     * otherwise exactly one user is added, holding the hashed password.
     */
    method RegisterUser(reg: Registration, hash: string -> string, now: Timestamp) returns (r: Reply<string>)
      requires Valid()
      modifies this`users, this`userIds, this`nextUserId
      ensures Valid()
      ensures Register(old(users), old(userIds), reg, hash, now).Duplicate? ==>
        r == BadRequest(UserExists) && users == old(users) && userIds == old(userIds)
      ensures Register(old(users), old(userIds), reg, hash, now).Invalid? ==>
        r == ServerError && users == old(users) && userIds == old(userIds)
      ensures Register(old(users), old(userIds), reg, hash, now).Inserted? ==>
        && r == Ok(UserRegistered)
        && old(nextUserId) !in old(users)
        && users == old(users)[old(nextUserId) := Register(old(users), old(userIds), reg, hash, now).user]
        && userIds == old(userIds) + [old(nextUserId)]
    {
      if FindByEmail(users, userIds, reg.email).Some? {
        return BadRequest(UserExists);
      }
      var hashed := hash(reg.password);
      var user := NewUser(UserFields(reg.firstName, reg.lastName, reg.email, hashed,
                                     reg.location, reg.profession, reg.profileUrl), now);
      if user.None? {
        return ServerError;
      }
      RegisteredUserFits(users, userIds, nextUserId, posts, postIds, nextPostId, reg, hash, now);
      var id := StoreUser(user.value);
      r := Ok(UserRegistered);
    }
  }
}
