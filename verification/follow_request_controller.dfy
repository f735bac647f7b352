/**
 * The relationship engine (Controllers/FollowRequestController.js): the
 * explore listing with its derived status, the listing of pending requests,
 * the followers/following listing, and the table updates behind sending,
 * accepting and denying a request and clearing every user's requests.
 *
 * The user table is a map from id to document; `userIds` lists the ids in the
 * order the store returns documents in.
 */
module FollowRequestController {
  import opened Schema
  import opened UserModel

  // ---------------------------------------------------------------------------
  // Id lists read off a user document
  // ---------------------------------------------------------------------------

  /** The `userId` of each follower/following entry, in order. */
  function FollowIds(fs: seq<Follower>): (r: seq<UserId>)
    ensures |r| == |fs| && forall i :: 0 <= i < |fs| ==> r[i] == fs[i].userId
  {
    seq(|fs|, i requires 0 <= i < |fs| => fs[i].userId)
  }

  /** The `receiver` of each request entry, in order. */
  function ReceiverIds(rs: seq<FollowRequest>): (r: seq<UserId>)
    ensures |r| == |rs| && forall i :: 0 <= i < |rs| ==> r[i] == rs[i].receiver
  {
    seq(|rs|, i requires 0 <= i < |rs| => rs[i].receiver)
  }

  /** Every request stored on user `u` names `u` as its receiver. */
  ghost predicate RequestsAddressed(users: map<UserId, User>)
  {
    forall u, i :: u in users && 0 <= i < |users[u].followRequests| ==> users[u].followRequests[i].receiver == u
  }

  // ---------------------------------------------------------------------------
  // Explore (getAllUsersRequested)
  // ---------------------------------------------------------------------------

  datatype ExploreStatus = Follow | FollowingYou | FollowRequestSent

  datatype ExploreEntry = ExploreEntry(
    id: UserId,
    firstName: string,
    lastName: string,
    profileUrl: string,
    profession: Option<string>,
    status: ExploreStatus)

  /** The status shown for user `id`: the followers check comes first, then the request check. */
  function StatusOf(id: UserId, followerIds: seq<UserId>, sentRequestIds: seq<UserId>): (s: ExploreStatus)
    ensures s == FollowingYou <==> id in followerIds
    ensures s == FollowRequestSent <==> id !in followerIds && id in sentRequestIds
    ensures s == Follow <==> id !in followerIds && id !in sentRequestIds
  {
    if id in followerIds then FollowingYou
    else if id in sentRequestIds then FollowRequestSent
    else Follow
  }

  /** The projected fields of user `id` with its status. */
  function EntryOf(users: map<UserId, User>, id: UserId, followerIds: seq<UserId>, sentRequestIds: seq<UserId>): ExploreEntry
    requires id in users
  {
    var u := users[id];
    ExploreEntry(id, u.firstName, u.lastName, u.profileUrl, u.profession, StatusOf(id, followerIds, sentRequestIds))
  }

  /** User `u` has an entry in the listing `r`. */
  predicate Shown(r: seq<ExploreEntry>, u: UserId)
  {
    exists k :: 0 <= k < |r| && r[k].id == u
  }

  /** The documents of `ids` whose id is not excluded, in order, each with its status. */
  function ExploreFrom(users: map<UserId, User>, ids: seq<UserId>, exclude: seq<UserId>,
                       followerIds: seq<UserId>, sentRequestIds: seq<UserId>): (r: seq<ExploreEntry>)
    ensures |r| <= |ids|
    ensures forall k :: 0 <= k < |r| ==>
      && r[k].id in ids && r[k].id in users && r[k].id !in exclude
      && r[k] == EntryOf(users, r[k].id, followerIds, sentRequestIds)
  {
    if ids == [] then []
    else
      var rest := ExploreFrom(users, ids[1..], exclude, followerIds, sentRequestIds);
      assert forall x :: x in ids[1..] ==> x in ids;
      if ids[0] in users && ids[0] !in exclude then
        [EntryOf(users, ids[0], followerIds, sentRequestIds)] + rest
      else
        rest
  }

  /** Every stored id of `ids` that is not excluded has an entry. */
  lemma {:induction false} ExploreFromComplete(users: map<UserId, User>, ids: seq<UserId>, exclude: seq<UserId>,
                                               followerIds: seq<UserId>, sentRequestIds: seq<UserId>)
    ensures forall u :: u in ids && u in users && u !in exclude ==>
      Shown(ExploreFrom(users, ids, exclude, followerIds, sentRequestIds), u)
  {
    if ids != [] {
      ExploreFromComplete(users, ids[1..], exclude, followerIds, sentRequestIds);
      var r := ExploreFrom(users, ids, exclude, followerIds, sentRequestIds);
      var rest := ExploreFrom(users, ids[1..], exclude, followerIds, sentRequestIds);
      forall u | u in ids && u in users && u !in exclude ensures Shown(r, u) {
        if ids[0] in users && ids[0] !in exclude {
          if u == ids[0] {
            assert r[0].id == u;
          } else {
            assert u in ids[1..];
            var k :| 0 <= k < |rest| && rest[k].id == u;
            assert r[k + 1] == rest[k];
          }
        } else {
          assert u in ids[1..];
        }
      }
    }
  }

  /** No user has two entries in the listing `r`. */
  predicate UniqueEntries(r: seq<ExploreEntry>)
  {
    forall i, j :: 0 <= i < j < |r| ==> r[i].id != r[j].id
  }

  /** Over an id list without repeats, each user has at most one entry. */
  lemma {:induction false} ExploreFromUniqueIds(users: map<UserId, User>, ids: seq<UserId>, exclude: seq<UserId>,
                                                followerIds: seq<UserId>, sentRequestIds: seq<UserId>)
    requires NoRepeats(ids)
    ensures UniqueEntries(ExploreFrom(users, ids, exclude, followerIds, sentRequestIds))
  {
    if ids != [] {
      assert NoRepeats(ids[1..]) by {
        forall i, j | 0 <= i < j < |ids[1..]| ensures ids[1..][i] != ids[1..][j] {
          assert ids[1..][i] == ids[i + 1] && ids[1..][j] == ids[j + 1];
        }
      }
      ExploreFromUniqueIds(users, ids[1..], exclude, followerIds, sentRequestIds);
      var r := ExploreFrom(users, ids, exclude, followerIds, sentRequestIds);
      var rest := ExploreFrom(users, ids[1..], exclude, followerIds, sentRequestIds);
      if ids[0] in users && ids[0] !in exclude {
        assert ids[0] !in ids[1..];
        forall i, j | 0 <= i < j < |r| ensures r[i].id != r[j].id {
          assert r[j] == rest[j - 1];
          if i > 0 {
            assert r[i] == rest[i - 1];
          } else {
            assert r[0].id == ids[0] && rest[j - 1].id in ids[1..];
          }
        }
      }
    }
  }

  /**
   * The explore listing for `callerId`: every stored user except the caller and
   * the users the caller follows, each with its status. `sentRequestIds` is
   * read off the caller's own `followRequests`, taking their receivers.
   */
  function Explore(users: map<UserId, User>, userIds: seq<UserId>, callerId: UserId): (r: Reply<seq<ExploreEntry>>)
    ensures r.NotFound? <==> callerId !in users
    ensures r.Ok? || r.NotFound?
    ensures r.Ok? ==> forall k :: 0 <= k < |r.value| ==>
      && r.value[k].id != callerId
      && r.value[k].id !in FollowIds(users[callerId].following)
      && r.value[k].id in users && r.value[k].id in userIds
    ensures r.Ok? ==> forall u ::
      (u in userIds && u in users && u != callerId && u !in FollowIds(users[callerId].following))
      ==> Shown(r.value, u)
    ensures r.Ok? ==> forall k :: 0 <= k < |r.value| ==>
      r.value[k].status == StatusOf(r.value[k].id, FollowIds(users[callerId].followers),
                                    ReceiverIds(users[callerId].followRequests))
    ensures r.Ok? ==> forall k :: 0 <= k < |r.value| ==>
      var u := users[r.value[k].id];
      && r.value[k].firstName == u.firstName && r.value[k].lastName == u.lastName
      && r.value[k].profileUrl == u.profileUrl && r.value[k].profession == u.profession
    ensures r.Ok? && NoRepeats(userIds) ==> UniqueEntries(r.value)
  {
    if callerId !in users then NotFound
    else
      var caller := users[callerId];
      var followerIds := FollowIds(caller.followers);
      var followingIds := FollowIds(caller.following);
      var sentRequestIds := ReceiverIds(caller.followRequests);
      ExploreFromComplete(users, userIds, [callerId] + followingIds, followerIds, sentRequestIds);
      assert NoRepeats(userIds) ==> UniqueEntries(ExploreFrom(users, userIds, [callerId] + followingIds, followerIds, sentRequestIds)) by {
        if NoRepeats(userIds) {
          ExploreFromUniqueIds(users, userIds, [callerId] + followingIds, followerIds, sentRequestIds);
        }
      }
      Ok(ExploreFrom(users, userIds, [callerId] + followingIds, followerIds, sentRequestIds))
  }

  /**
   * While every stored request is addressed to the user holding it, explore
   * never shows "Follow Request Sent": the receivers it checks are all the
   * caller, and the caller is excluded from the listing.
   */
  lemma ExploreNeverShowsRequestSent(users: map<UserId, User>, userIds: seq<UserId>, callerId: UserId)
    requires RequestsAddressed(users)
    ensures Explore(users, userIds, callerId).Ok? ==>
      forall k :: 0 <= k < |Explore(users, userIds, callerId).value| ==>
        Explore(users, userIds, callerId).value[k].status != FollowRequestSent
  {
    var r := Explore(users, userIds, callerId);
    if r.Ok? {
      var sent := ReceiverIds(users[callerId].followRequests);
      assert forall j :: 0 <= j < |sent| ==> sent[j] == callerId;
      forall k | 0 <= k < |r.value| ensures r.value[k].status != FollowRequestSent {
        assert r.value[k].id != callerId;
        assert r.value[k].id !in sent;
      }
    }
  }

  // ---------------------------------------------------------------------------
  // Pending requests with their senders (getFollowRequests)
  // ---------------------------------------------------------------------------

  /** What `$lookup` joins for a sender id: the matching documents, password excluded. */
  function LookupUser(users: map<UserId, User>, id: UserId): (r: seq<PublicUser>)
    ensures |r| <= 1
    ensures |r| == 1 <==> id in users
    ensures r != [] ==> r[0] == WithoutPassword(id, users[id])
  {
    if id in users then [WithoutPassword(id, users[id])] else []
  }

  /** One row of the aggregation: an unwound request's sender with its joined documents. */
  datatype LookupRow = LookupRow(sender: UserId, senderDetails: seq<PublicUser>)

  /** `$match`, `$unwind` and `$lookup` over the caller's requests: one row per request, in order. */
  function AggregateRows(users: map<UserId, User>, rs: seq<FollowRequest>): (rows: seq<LookupRow>)
    ensures |rows| == |rs|
    ensures forall i :: 0 <= i < |rs| ==> rows[i] == LookupRow(rs[i].sender, LookupUser(users, rs[i].sender))
  {
    seq(|rs|, i requires 0 <= i < |rs| => LookupRow(rs[i].sender, LookupUser(users, rs[i].sender)))
  }

  /** The joined documents of the first row whose sender matches, or None (`undefined`) when no row does. */
  function FirstDetails(rows: seq<LookupRow>, sender: UserId): (d: Option<seq<PublicUser>>)
    ensures d.None? <==> forall i :: 0 <= i < |rows| ==> rows[i].sender != sender
    ensures d.Some? ==> exists i :: && 0 <= i < |rows| && rows[i].sender == sender && d.value == rows[i].senderDetails
                                   && forall j :: 0 <= j < i ==> rows[j].sender != sender
  {
    if rows == [] then None
    else if rows[0].sender == sender then Some(rows[0].senderDetails)
    else FirstDetails(rows[1..], sender)
  }

  /**
   * A pending request with `senderDetails`: the joined array found for its
   * sender, or None standing for `null`.
   */
  datatype RequestView = RequestView(
    sender: UserId,
    receiver: UserId,
    requestedAt: Timestamp,
    senderDetails: Option<seq<PublicUser>>)

  function ViewRequests(rs: seq<FollowRequest>, rows: seq<LookupRow>): (r: seq<RequestView>)
    ensures |r| == |rs|
    ensures forall i :: 0 <= i < |rs| ==>
      && r[i].sender == rs[i].sender && r[i].receiver == rs[i].receiver && r[i].requestedAt == rs[i].requestedAt
      && r[i].senderDetails == FirstDetails(rows, rs[i].sender)
  {
    seq(|rs|, i requires 0 <= i < |rs| =>
      RequestView(rs[i].sender, rs[i].receiver, rs[i].requestedAt, FirstDetails(rows, rs[i].sender)))
  }

  /**
   * The caller's pending requests, in stored order, each with its sender's
   * documents. `senderDetails` is never null: every request has its own row,
   * so the search always finds one, and its array is empty exactly when the
   * sender is not stored.
   */
  function FollowRequestsOf(users: map<UserId, User>, callerId: UserId): (r: Reply<seq<RequestView>>)
    ensures r.NotFound? <==> callerId !in users
    ensures r.Ok? || r.NotFound?
    ensures r.Ok? ==> |r.value| == |users[callerId].followRequests|
    ensures r.Ok? ==> forall i :: 0 <= i < |r.value| ==>
      && r.value[i].sender == users[callerId].followRequests[i].sender
      && r.value[i].receiver == users[callerId].followRequests[i].receiver
      && r.value[i].requestedAt == users[callerId].followRequests[i].requestedAt
      && r.value[i].senderDetails == Some(LookupUser(users, r.value[i].sender))
  {
    if callerId !in users then NotFound
    else
      var rs := users[callerId].followRequests;
      var rows := AggregateRows(users, rs);
      var views := ViewRequests(rs, rows);
      assert forall i :: 0 <= i < |views| ==> views[i].senderDetails == Some(LookupUser(users, views[i].sender)) by {
        forall i | 0 <= i < |views| ensures views[i].senderDetails == Some(LookupUser(users, views[i].sender)) {
          assert rows[i].sender == rs[i].sender;
          var d := FirstDetails(rows, rs[i].sender);
          var j :| 0 <= j < |rows| && rows[j].sender == rs[i].sender && d.value == rows[j].senderDetails;
          assert rows[j] == LookupRow(rs[j].sender, LookupUser(users, rs[j].sender));
        }
      }
      Ok(views)
  }

  // ---------------------------------------------------------------------------
  // Followers and following (getUserFollowersAndFollowing)
  // ---------------------------------------------------------------------------

  datatype FollowView = FollowView(
    id: UserId,
    firstName: string,
    lastName: string,
    profileUrl: string,
    profession: Option<string>,
    followedAt: Timestamp)

  datatype Connections = Connections(followers: seq<FollowView>, following: seq<FollowView>)

  /** Every entry refers to a stored user. */
  predicate AllStored(users: map<UserId, User>, fs: seq<Follower>)
  {
    forall i :: 0 <= i < |fs| ==> fs[i].userId in users
  }

  /**
   * Populating the entries and formatting them: an entry whose user is not
   * stored populates to `null` and reading its `_id` throws, so the whole
   * formatting fails (None).
   */
  function Populate(users: map<UserId, User>, fs: seq<Follower>): (r: Option<seq<FollowView>>)
    ensures r.Some? <==> AllStored(users, fs)
    ensures r.Some? ==> |r.value| == |fs|
    ensures r.Some? ==> forall i :: 0 <= i < |fs| ==>
      && fs[i].userId in users
      && r.value[i] == FollowView(fs[i].userId, users[fs[i].userId].firstName, users[fs[i].userId].lastName,
                                  users[fs[i].userId].profileUrl, users[fs[i].userId].profession, fs[i].followedAt)
  {
    if fs == [] then Some([])
    else if fs[0].userId !in users then None
    else
      var u := users[fs[0].userId];
      match Populate(users, fs[1..])
      case None => None
      case Some(rest) =>
        Some([FollowView(fs[0].userId, u.firstName, u.lastName, u.profileUrl, u.profession, fs[0].followedAt)] + rest)
  }

  /**
   * The caller's followers and following, in stored order, each entry with its
   * user's display fields and its own `followedAt`; a server error when any
   * entry names a user that is not stored.
   */
  function FollowersAndFollowing(users: map<UserId, User>, callerId: UserId): (r: Reply<Connections>)
    ensures r.NotFound? <==> callerId !in users
    ensures r.ServerError? <==> (callerId in users &&
      !(AllStored(users, users[callerId].followers) && AllStored(users, users[callerId].following)))
    ensures !r.BadRequest?
    ensures r.Ok? ==> (|r.value.followers| == |users[callerId].followers| &&
                       |r.value.following| == |users[callerId].following|)
    ensures r.Ok? ==> forall i :: 0 <= i < |r.value.followers| ==>
      var f := users[callerId].followers[i];
      && f.userId in users
      && r.value.followers[i] == FollowView(f.userId, users[f.userId].firstName, users[f.userId].lastName,
                                           users[f.userId].profileUrl, users[f.userId].profession, f.followedAt)
    ensures r.Ok? ==> forall i :: 0 <= i < |r.value.following| ==>
      var f := users[callerId].following[i];
      && f.userId in users
      && r.value.following[i] == FollowView(f.userId, users[f.userId].firstName, users[f.userId].lastName,
                                           users[f.userId].profileUrl, users[f.userId].profession, f.followedAt)
  {
    if callerId !in users then NotFound
    else
      var u := users[callerId];
      match (Populate(users, u.followers), Populate(users, u.following))
      case (Some(followers), Some(following)) => Ok(Connections(followers, following))
      case _ => ServerError
  }

  // ---------------------------------------------------------------------------
  // The array update operators
  // ---------------------------------------------------------------------------

  /**
   * `$addToSet` of a follower entry as the update sends it. The entry is cast
   * to a subdocument with a newly generated `_id`, which no stored entry has,
   * so the operator's duplicate check never matches: the entry is appended
   * and every old entry stays where it was.
   */
  function AddToSet(s: seq<Follower>, x: Follower): (r: seq<Follower>)
    ensures |r| == |s| + 1 && r[..|s|] == s && r[|s|] == x
    ensures forall y :: y in r <==> y in s || y == x
  {
    s + [x]
  }

  /** `$pull: { sender }`: drop every request from `sender`, keeping the others in order. */
  function PullSender(rs: seq<FollowRequest>, sender: UserId): (r: seq<FollowRequest>)
    ensures |r| <= |rs|
    ensures forall q :: q in r <==> q in rs && q.sender != sender
  {
    if rs == [] then []
    else if rs[0].sender == sender then PullSender(rs[1..], sender)
    else [rs[0]] + PullSender(rs[1..], sender)
  }

  /** Pulling works entry by entry, so the kept requests stay in their order. */
  lemma {:induction false} PullSenderAppend(a: seq<FollowRequest>, b: seq<FollowRequest>, sender: UserId)
    ensures PullSender(a + b, sender) == PullSender(a, sender) + PullSender(b, sender)
  {
    if a != [] {
      var ab := a + b;
      assert ab != [] && ab[0] == a[0] && ab[1..] == a[1..] + b;
      PullSenderAppend(a[1..], b, sender);
      if a[0].sender != sender {
        assert PullSender(ab, sender) == [a[0]] + PullSender(a[1..] + b, sender);
        assert PullSender(a, sender) == [a[0]] + PullSender(a[1..], sender);
      } else {
        assert PullSender(ab, sender) == PullSender(a[1..] + b, sender);
        assert PullSender(a, sender) == PullSender(a[1..], sender);
      }
    } else {
      assert a + b == b;
    }
  }

  /** Pulling when no entry matches changes nothing. */
  lemma {:induction false} PullSenderNoMatch(rs: seq<FollowRequest>, sender: UserId)
    requires forall i :: 0 <= i < |rs| ==> rs[i].sender != sender
    ensures PullSender(rs, sender) == rs
  {
    if rs != [] {
      PullSenderNoMatch(rs[1..], sender);
    }
  }

  lemma PullSenderIdempotent(rs: seq<FollowRequest>, sender: UserId)
    ensures PullSender(PullSender(rs, sender), sender) == PullSender(rs, sender)
  {
    var r := PullSender(rs, sender);
    assert forall i :: 0 <= i < |r| ==> r[i] in r;
    PullSenderNoMatch(r, sender);
  }

  // ---------------------------------------------------------------------------
  // Table updates
  // ---------------------------------------------------------------------------

  /**
   * sendFollowRequest: when the receiver is stored, push `{sender, receiver}`
   * (with `requestedAt` defaulting to `now`) onto the receiver's requests; no
   * check for duplicates, for a self-request or for the sender being stored.
   */
  function SendRequest(users: map<UserId, User>, senderId: UserId, receiverId: UserId, now: Timestamp)
    : (r: map<UserId, User>)
    ensures r.Keys == users.Keys
    ensures receiverId !in users ==> r == users
    ensures receiverId in users ==>
      r[receiverId] == users[receiverId].(followRequests :=
        users[receiverId].followRequests + [FollowRequest(senderId, receiverId, now)])
    ensures forall u :: u in users && u != receiverId ==> r[u] == users[u]
  {
    if receiverId !in users then users
    else
      var request := NewFollowRequest(Some(senderId), Some(receiverId), None, now).value;
      var receiver := users[receiverId];
      users[receiverId := receiver.(followRequests := receiver.followRequests + [request])]
  }

  /** Sending keeps every stored request addressed to the user holding it. */
  lemma SendKeepsRequestsAddressed(users: map<UserId, User>, senderId: UserId, receiverId: UserId, now: Timestamp)
    requires RequestsAddressed(users)
    ensures RequestsAddressed(SendRequest(users, senderId, receiverId, now))
  {
    var r := SendRequest(users, senderId, receiverId, now);
    forall u, i | u in r && 0 <= i < |r[u].followRequests| ensures r[u].followRequests[i].receiver == u {
      if u == receiverId && i == |users[u].followRequests| {
        assert r[u].followRequests[i] == FollowRequest(senderId, receiverId, now);
      } else {
        assert r[u].followRequests[i] == users[u].followRequests[i];
      }
    }
  }

  /** First write of acceptFollowRequest: the current user's followers and requests. */
  function FollowerAdded(users: map<UserId, User>, currentUserId: UserId, requesterId: UserId, now: Timestamp)
    : (r: map<UserId, User>)
    ensures r.Keys == users.Keys
    ensures currentUserId !in users ==> r == users
    ensures currentUserId in users ==> r[currentUserId] == users[currentUserId].(
      followers := AddToSet(users[currentUserId].followers, Follower(requesterId, now)),
      followRequests := PullSender(users[currentUserId].followRequests, requesterId))
    ensures forall u :: u in users && u != currentUserId ==> r[u] == users[u]
  {
    if currentUserId !in users then users
    else
      var entry := NewFollower(Some(requesterId), Some(now), now).value;
      var u := users[currentUserId];
      users[currentUserId := u.(followers := AddToSet(u.followers, entry),
                                followRequests := PullSender(u.followRequests, requesterId))]
  }

  /** Second write of acceptFollowRequest: the requester's following. */
  function FollowingAdded(users: map<UserId, User>, requesterId: UserId, currentUserId: UserId, now: Timestamp)
    : (r: map<UserId, User>)
    ensures r.Keys == users.Keys
    ensures requesterId !in users ==> r == users
    ensures requesterId in users ==> r[requesterId] == users[requesterId].(
      following := AddToSet(users[requesterId].following, Follower(currentUserId, now)))
    ensures forall u :: u in users && u != requesterId ==> r[u] == users[u]
  {
    if requesterId !in users then users
    else
      var entry := NewFollower(Some(currentUserId), Some(now), now).value;
      var u := users[requesterId];
      users[requesterId := u.(following := AddToSet(u.following, entry))]
  }

  /**
   * acceptFollowRequest: the two writes in sequence. An id that is not stored
   * makes its write a no-op; neither write reports it.
   */
  function AcceptRequest(users: map<UserId, User>, currentUserId: UserId, requesterId: UserId, now: Timestamp)
    : (r: map<UserId, User>)
    ensures r.Keys == users.Keys
    ensures currentUserId in users ==>
      && Follower(requesterId, now) in r[currentUserId].followers
      && (forall q :: q in r[currentUserId].followRequests ==> q.sender != requesterId)
    ensures requesterId in users ==> Follower(currentUserId, now) in r[requesterId].following
    ensures forall u :: u in users && u != currentUserId && u != requesterId ==> r[u] == users[u]
    ensures forall u :: u in users ==> r[u] == users[u].(
      followers := if u == currentUserId then AddToSet(users[u].followers, Follower(requesterId, now))
                   else users[u].followers,
      following := if u == requesterId then AddToSet(users[u].following, Follower(currentUserId, now))
                   else users[u].following,
      followRequests := if u == currentUserId then PullSender(users[u].followRequests, requesterId)
                        else users[u].followRequests)
  {
    FollowingAdded(FollowerAdded(users, currentUserId, requesterId, now), requesterId, currentUserId, now)
  }

  /** denyFollowRequest: pull the requester's requests from the current user; nothing else changes. */
  function DenyRequest(users: map<UserId, User>, currentUserId: UserId, requesterId: UserId): (r: map<UserId, User>)
    ensures r.Keys == users.Keys
    ensures currentUserId !in users ==> r == users
    ensures currentUserId in users ==> r[currentUserId] == users[currentUserId].(
      followRequests := PullSender(users[currentUserId].followRequests, requesterId))
    ensures forall u :: u in users && u != currentUserId ==> r[u] == users[u]
  {
    if currentUserId !in users then users
    else
      var u := users[currentUserId];
      users[currentUserId := u.(followRequests := PullSender(u.followRequests, requesterId))]
  }

  /** addFollowRequestsField: `$set: { followRequests: [] }` on every document. */
  function ClearRequests(users: map<UserId, User>): (r: map<UserId, User>)
    ensures r.Keys == users.Keys
    ensures forall u :: u in users ==> r[u] == users[u].(followRequests := [])
  {
    map u | u in users :: users[u].(followRequests := [])
  }

  // ---------------------------------------------------------------------------
  // Properties across operations
  // ---------------------------------------------------------------------------

  /** Accepting, denying and clearing only ever remove requests, so they keep requests addressed. */
  lemma AcceptKeepsRequestsAddressed(users: map<UserId, User>, a: UserId, b: UserId, now: Timestamp)
    requires RequestsAddressed(users)
    ensures RequestsAddressed(AcceptRequest(users, a, b, now))
  {
    var acc := AcceptRequest(users, a, b, now);
    forall u, i | u in acc && 0 <= i < |acc[u].followRequests| ensures acc[u].followRequests[i].receiver == u {
      var q := acc[u].followRequests[i];
      assert q in users[u].followRequests;
    }
  }

  lemma DenyKeepsRequestsAddressed(users: map<UserId, User>, a: UserId, b: UserId)
    requires RequestsAddressed(users)
    ensures RequestsAddressed(DenyRequest(users, a, b))
  {
    var den := DenyRequest(users, a, b);
    forall u, i | u in den && 0 <= i < |den[u].followRequests| ensures den[u].followRequests[i].receiver == u {
      var q := den[u].followRequests[i];
      assert q in users[u].followRequests;
    }
  }

  lemma ClearKeepsRequestsAddressed(users: map<UserId, User>)
    ensures RequestsAddressed(ClearRequests(users))
  {
  }

  /**
   * Sending a request from `a` to `b` and `b` accepting it makes `a` a
   * follower of `b` and `b` followed by `a`, and leaves no request from `a`
   * pending at `b`.
   */
  lemma SendThenAccept(users: map<UserId, User>, a: UserId, b: UserId, sentAt: Timestamp, acceptedAt: Timestamp)
    requires a in users && b in users
    ensures var r := AcceptRequest(SendRequest(users, a, b, sentAt), b, a, acceptedAt);
      && Follower(a, acceptedAt) in r[b].followers
      && Follower(b, acceptedAt) in r[a].following
      && forall q :: q in r[b].followRequests ==> q.sender != a
  {
  }

  /**
   * Sending a request from `a` to `b` and `b` denying it leaves `b`'s requests
   * as they were less any earlier request from `a`, and creates no follower or
   * following entry anywhere.
   */
  lemma {:induction false} SendThenDeny(users: map<UserId, User>, a: UserId, b: UserId, sentAt: Timestamp)
    requires b in users
    ensures var r := DenyRequest(SendRequest(users, a, b, sentAt), b, a);
      && r.Keys == users.Keys
      && r[b].followRequests == PullSender(users[b].followRequests, a)
      && forall u :: u in users ==> r[u].followers == users[u].followers && r[u].following == users[u].following
  {
    var request := FollowRequest(a, b, sentAt);
    PullSenderAppend(users[b].followRequests, [request], a);
    assert PullSender([request], a) == [];
  }

  /**
   * Every accept appends, so accepting the same requester twice, at any two
   * instants (the same one included), leaves two follower entries for the
   * requester and two following entries for the current user.
   */
  lemma RepeatedAcceptDuplicates(users: map<UserId, User>, cur: UserId, req: UserId, t1: Timestamp, t2: Timestamp)
    requires cur in users && req in users
    ensures var r := AcceptRequest(AcceptRequest(users, cur, req, t1), cur, req, t2);
      && r[cur].followers == users[cur].followers + [Follower(req, t1), Follower(req, t2)]
      && r[req].following == users[req].following + [Follower(cur, t1), Follower(cur, t2)]
  {
    assert users[cur].followers + [Follower(req, t1)] + [Follower(req, t2)]
        == users[cur].followers + [Follower(req, t1), Follower(req, t2)];
    assert users[req].following + [Follower(cur, t1)] + [Follower(cur, t2)]
        == users[req].following + [Follower(cur, t1), Follower(cur, t2)];
  }

  /** Denying the same requester twice is denying once. */
  lemma DenyIdempotent(users: map<UserId, User>, cur: UserId, req: UserId)
    ensures DenyRequest(DenyRequest(users, cur, req), cur, req) == DenyRequest(users, cur, req)
  {
    if cur in users {
      PullSenderIdempotent(users[cur].followRequests, req);
    }
  }

  /**
   * Accepting a request whose requester is not stored still reports success,
   * but plants a follower entry naming no stored user, after which the
   * followers/following listing of the current user fails with a server error.
   */
  lemma AcceptFromMissingRequesterBreaksListing(users: map<UserId, User>, cur: UserId, req: UserId, now: Timestamp)
    requires cur in users && req !in users
    ensures FollowersAndFollowing(AcceptRequest(users, cur, req, now), cur) == ServerError
  {
    var r := AcceptRequest(users, cur, req, now);
    var fs := r[cur].followers;
    var k :| 0 <= k < |fs| && fs[k] == Follower(req, now);
    assert !AllStored(r, fs);
  }

  // ---------------------------------------------------------------------------
  // The two sides of a follow relation
  // ---------------------------------------------------------------------------

  /**
   * Between stored users, `a`'s following holds an entry for `b` made at `t`
   * exactly when `b`'s followers hold an entry for `a` made at `t`.
   */
  ghost predicate Mirror(users: map<UserId, User>)
  {
    forall a, b, t :: a in users && b in users ==>
      (Follower(b, t) in users[a].following <==> Follower(a, t) in users[b].followers)
  }

  /** Sending only touches requests, so it keeps the two sides in step. */
  lemma SendKeepsMirror(users: map<UserId, User>, senderId: UserId, receiverId: UserId, now: Timestamp)
    requires Mirror(users)
    ensures Mirror(SendRequest(users, senderId, receiverId, now))
  {
    var r := SendRequest(users, senderId, receiverId, now);
    assert forall u :: u in r ==> r[u].followers == users[u].followers && r[u].following == users[u].following;
  }

  /** Accepting writes both sides with the same instant, so it keeps them in step. */
  lemma AcceptKeepsMirror(users: map<UserId, User>, currentUserId: UserId, requesterId: UserId, now: Timestamp)
    requires Mirror(users)
    ensures Mirror(AcceptRequest(users, currentUserId, requesterId, now))
  {
    var r := AcceptRequest(users, currentUserId, requesterId, now);
    forall a, b, t | a in r && b in r
      ensures Follower(b, t) in r[a].following <==> Follower(a, t) in r[b].followers
    {
      assert Follower(b, t) in r[a].following <==>
        Follower(b, t) in users[a].following || (a == requesterId && Follower(b, t) == Follower(currentUserId, now));
      assert Follower(a, t) in r[b].followers <==>
        Follower(a, t) in users[b].followers || (b == currentUserId && Follower(a, t) == Follower(requesterId, now));
    }
  }

  lemma DenyKeepsMirror(users: map<UserId, User>, currentUserId: UserId, requesterId: UserId)
    requires Mirror(users)
    ensures Mirror(DenyRequest(users, currentUserId, requesterId))
  {
    var r := DenyRequest(users, currentUserId, requesterId);
    assert forall u :: u in r ==> r[u].followers == users[u].followers && r[u].following == users[u].following;
  }

  lemma ClearKeepsMirror(users: map<UserId, User>)
    requires Mirror(users)
    ensures Mirror(ClearRequests(users))
  {
    var r := ClearRequests(users);
    assert forall u :: u in r ==> r[u].followers == users[u].followers && r[u].following == users[u].following;
  }

  /** No user holds a pending request from someone already among its followers. */
  ghost predicate NoRequestFromFollower(users: map<UserId, User>)
  {
    forall u, i, j :: u in users && 0 <= i < |users[u].followRequests| && 0 <= j < |users[u].followers| ==>
      users[u].followRequests[i].sender != users[u].followers[j].userId
  }

  /**
   * Sending checks nothing about existing relations: once `b` has accepted
   * `a`, a second request from `a` sits in `b`'s requests beside `a`'s entry
   * in `b`'s followers.
   */
  lemma RequestBesideFollower(users: map<UserId, User>, a: UserId, b: UserId, t1: Timestamp, t2: Timestamp, t3: Timestamp)
    requires b in users
    ensures var r := SendRequest(AcceptRequest(SendRequest(users, a, b, t1), b, a, t2), a, b, t3);
      && FollowRequest(a, b, t3) in r[b].followRequests
      && Follower(a, t2) in r[b].followers
      && !NoRequestFromFollower(r)
  {
    var r := SendRequest(AcceptRequest(SendRequest(users, a, b, t1), b, a, t2), a, b, t3);
    var i := |r[b].followRequests| - 1;
    var j := |r[b].followers| - 1;
    assert r[b].followRequests[i] == FollowRequest(a, b, t3);
    assert r[b].followers[j] == Follower(a, t2);
  }
}
