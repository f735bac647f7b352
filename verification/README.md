# Talkpulse backend: follow requests, posts and accounts

This project is a Dafny model of the core of the Talkpulse social-media backend, an Express/Mongoose server.

The two Mongo collections are modelled as maps from id to document:
- `users`, the user documents, which embed their followers, following, pending follow requests, post ids and post count;
- `posts`, the post documents.

Each map comes with the list of its ids, in the order the store returns documents.

The model covers:
- the user and post schemas: their defaults, their `trim` and `lowercase` setters, their `required` and `enum` validators;
- the relationship handlers: explore, the pending-request listing, the followers and following listing, sending, accepting and denying a follow request, and the start-up reset of every user's requests;
- the post handlers: creating a post, and the feed of posts the caller may see, newest first;
- registration and login.

How the modules are laid out:
- Read-only handlers are functions over the tables.
- Handlers that write are methods of the class `Store.Database`, which holds the tables.
  - Each method states its reply.
  - Each method states its new tables through a transition function, such as `SendRequest`, `AcceptRequest` or `PostAdded`.
  - Lemmas about those transition functions give the properties that hold across operations.
- `Tables.Consistent` is the invariant of the stored tables:
  - the id lists catalogue the collections, and every stored id is below its fresh-id counter;
  - every document passes its schema;
  - emails are unique;
  - every pending request is held by its receiver;
  - every `postCount` equals the length of that user's `posts`.

  Every writing method keeps it.

- `FollowRequestController.Mirror` says that the two sides of every relationship agree: `b` lists `a` among its followers with instant `t` exactly when `a` lists `b` among its following with instant `t`.
  - Sending, accepting, denying, the start-up reset and recording a post keep it.
  - Inserting a user keeps it too, unless a stored follower or following entry already names the new id. An accept leaves such an entry behind when either of its two ids is not stored (`DanglingAcceptThenInsertBreaksMirror`, `MissingCurrentAcceptThenInsertBreaksMirror`). So it is not part of `Consistent`.
- A pending request from someone who is already a follower can occur. Sending checks no existing relation, so `NoRequestFromFollower` does not hold in general (`RequestBesideFollower`).

Where the code's behaviour differs from its evident design, the model follows the code:
- **Accepting twice.** Accepting the same request twice leaves two follower entries, even at the same instant. `$addToSet` compares whole subdocuments, and Mongoose gives each new follower and following entry a fresh `_id`, so no stored entry ever equals the new one (`AddToSet`, `RepeatedAcceptDuplicates`).
- **The "Follow Request Sent" status.** Explore's "Follow Request Sent" status can never be shown.
  - It is computed from the receivers of the caller's own incoming requests, and those receivers are all the caller.
  - The caller is excluded from the listing (`ExploreNeverShowsRequestSent`).
- **`senderDetails` is never null.** In the pending-request listing every request has its own aggregation row. `senderDetails` is therefore always an array: it holds the sender's document, or is empty when the sender is not stored (`FollowRequestsOf`).
- **A missing followed user breaks the listing.** The followers and following listing fails with a server error as soon as one entry names a user that is not stored. Accepting a request from an id that is not stored creates such an entry, and still reports success (`AcceptFromMissingRequesterBreaksListing`).
- **Email lookups normalise the query.** The `email` path's setters are applied to query values too. Both lookups by email (duplicate check at registration, login) therefore compare the lower-cased, trimmed email.
- **The mutual clause adds nothing.** The feed query's "mutual followers" clause admits no post that the "following" clause does not already admit (`MutualClauseRedundant`).

Things the model stands in for:
- Identifiers and dates are natural numbers.
- The current time is a parameter `now`.
- The bcrypt hash and compare functions are the function parameters `hash` and `verify`.
- The signed login token is modelled by the claims it carries (`Token`).

## Model

| member | source | states |
|---|---|---|
| Schema.TrimStart | beTalkpulse/Models/UserModel.js:20-21 | the result is a suffix of the input; everything cut is white space, and the result does not start with white space |
| Schema.TrimEnd | beTalkpulse/Models/UserModel.js:20-21 | the result is a prefix of the input; everything cut is white space, and the result does not end with white space |
| Schema.Trim | beTalkpulse/Models/UserModel.js:20-21 | `trim: true` gives a trimmed string that is a contiguous part of the input, with only white space cut at either end |
| Schema.TrimKeepsTrimmed | beTalkpulse/Models/UserModel.js:20-21 | trimming a string that is already trimmed changes nothing |
| Schema.TrimIdempotent | beTalkpulse/Models/UserModel.js:20-21 | trimming twice is trimming once |
| Schema.LowerChar | beTalkpulse/Models/UserModel.js:22 | an upper-case ASCII letter becomes the same letter in lower case; every other character is kept; the result is never upper case and is white space exactly when the input is |
| Schema.Lower | beTalkpulse/Models/UserModel.js:22 | `lowercase: true` keeps the length and lower-cases each character in place |
| Schema.LowerKeepsLower | beTalkpulse/Models/UserModel.js:22 | lower-casing a string without upper-case letters changes nothing |
| Schema.TrimStartLower | beTalkpulse/Models/UserModel.js:20-22 | lower-casing keeps white space where it is, so cutting leading white space commutes with it |
| Schema.TrimEndLower | beTalkpulse/Models/UserModel.js:20-22 | cutting trailing white space commutes with lower-casing |
| Schema.Normalize | beTalkpulse/Models/UserModel.js:22 | the email setters (lowercase, then trim) give a normalised string, which is the trimmed input lower-cased: the order of the two setters does not matter |
| Schema.NormalizeKeepsNormalized | beTalkpulse/Models/UserModel.js:22 | the email setters change nothing on a value they produced |
| Schema.NormalizeIdempotent | beTalkpulse/Models/UserModel.js:22 | applying the email setters twice is applying them once |
| Schema.RequiredTrimmed | beTalkpulse/Models/PostModel.js:41-45 | a required, trimmed string path stores the trimmed value, and validation fails exactly when the input is empty or all white space |
| UserModel.NewFollower | beTalkpulse/Models/UserModel.js:4-8 | a follower entry exists exactly when `userId` is given; `followedAt` defaults to the creation time |
| UserModel.NewFollowRequest | beTalkpulse/Models/UserModel.js:11-15 | a request exists exactly when both sender and receiver are given; `requestedAt` defaults to the creation time |
| UserModel.TrimOptional | beTalkpulse/Models/UserModel.js:26-27 | an optional trimmed path is absent exactly when no value is given, and otherwise holds the trimmed value |
| UserModel.NewUser | beTalkpulse/Models/UserModel.js:19-40 | a user document is built exactly when both names are non-blank, the normalised email is non-empty and the password is non-empty; the document is valid and holds the trimmed names, the normalised email, the given password, `profileUrl` (default `''`), the trimmed `location` and `profession` when given, and the empty/zero defaults |
| UserModel.WithoutPassword | beTalkpulse/Controllers/FollowRequestController.js:99-103 | the looked-up document is the user's document with its id and every field except the password |
| PostModel.ParseMediaType | beTalkpulse/Models/PostModel.js:46-50 | the enum accepts exactly `image`, `video` and `gif` |
| PostModel.MediaTypeRoundTrip | beTalkpulse/Models/PostModel.js:46-50 | each media type's stored name parses back to it, and every accepted string is the name of what it parses to |
| PostModel.NewComment | beTalkpulse/Models/PostModel.js:3-33 | a comment is built exactly when `userId` is given and `text` is non-blank; its text is trimmed and it starts with no likes, stamped at the creation time |
| PostModel.NewPost | beTalkpulse/Models/PostModel.js:35-71 | a post is built exactly when `userId` is given, description and media URL are non-blank and the media type is in the enum; it is valid, holds the trimmed strings, no likes or comments, and is stamped at the creation time |
| FollowRequestController.FollowIds | beTalkpulse/Controllers/FollowRequestController.js:25-26 | the id list has one entry per follower entry, in order, each entry's `userId` |
| FollowRequestController.ReceiverIds | beTalkpulse/Controllers/FollowRequestController.js:27 | the id list has one entry per request, in order, each request's `receiver` |
| FollowRequestController.StatusOf | beTalkpulse/Controllers/FollowRequestController.js:38-46 | "Following You" exactly for followers; "Follow Request Sent" exactly for non-followers among the request receivers; "Follow" otherwise |
| FollowRequestController.ExploreFrom | beTalkpulse/Controllers/FollowRequestController.js:33-52 | every entry is a stored, non-excluded user from the id list, with its projected fields and its status |
| FollowRequestController.ExploreFromComplete | beTalkpulse/Controllers/FollowRequestController.js:33-35 | every stored user of the id list that is not excluded has an entry |
| FollowRequestController.ExploreFromUniqueIds | beTalkpulse/Controllers/FollowRequestController.js:33-35 | over an id list without repeats, each user has at most one entry |
| FollowRequestController.Explore | beTalkpulse/Controllers/FollowRequestController.js:13-59 | 404 exactly when the caller is not stored; otherwise every stored user of the id list other than the caller and the caller's followees is listed and no one else is; each entry carries that user's `firstName`, `lastName`, `profileUrl` and `profession` and its status; no user is listed twice when the id list has no repeats |
| FollowRequestController.ExploreNeverShowsRequestSent | beTalkpulse/Controllers/FollowRequestController.js:27-46 | while every request sits with its receiver, no explore entry has the status "Follow Request Sent" |
| FollowRequestController.LookupUser | beTalkpulse/Controllers/FollowRequestController.js:91-98 | `$lookup` joins at most one document, and exactly one when the sender is stored: that user without the password |
| FollowRequestController.AggregateRows | beTalkpulse/Controllers/FollowRequestController.js:81-104 | the aggregation yields one row per request, in order, each with the sender's joined documents |
| FollowRequestController.FirstDetails | beTalkpulse/Controllers/FollowRequestController.js:108-110 | no details exactly when no row has the sender; otherwise the details of the first row with that sender |
| FollowRequestController.ViewRequests | beTalkpulse/Controllers/FollowRequestController.js:107-115 | one view per request, in order, with the request's sender, receiver and `requestedAt`, and the details of the first row for that sender |
| FollowRequestController.FollowRequestsOf | beTalkpulse/Controllers/FollowRequestController.js:68-122 | 404 exactly when the caller is not stored; otherwise the caller's requests in order with their fields, and `senderDetails` is always the joined array for the sender, never null |
| FollowRequestController.Populate | beTalkpulse/Controllers/FollowRequestController.js:236-252 | formatting succeeds exactly when every entry names a stored user; each view then has that user's display fields and the entry's `followedAt` |
| FollowRequestController.FollowersAndFollowing | beTalkpulse/Controllers/FollowRequestController.js:216-259 | 404 exactly when the caller is not stored; 500 exactly when an entry names a user that is not stored; otherwise one view per follower and per following entry, in order, with the entry's id and `followedAt` and that user's `firstName`, `lastName`, `profileUrl` and `profession` |
| FollowRequestController.AddToSet | beTalkpulse/Controllers/FollowRequestController.js:136 | `$addToSet` of a new subdocument keeps the old entries in place and appends the new entry, since its fresh `_id` matches no stored entry |
| FollowRequestController.PullSender | beTalkpulse/Controllers/FollowRequestController.js:137 | `$pull` keeps exactly the requests from other senders |
| FollowRequestController.PullSenderAppend | beTalkpulse/Controllers/FollowRequestController.js:137 | pulling from a concatenation is pulling from each part, so the kept requests stay in order |
| FollowRequestController.PullSenderNoMatch | beTalkpulse/Controllers/FollowRequestController.js:137 | pulling a sender with no request changes nothing |
| FollowRequestController.PullSenderIdempotent | beTalkpulse/Controllers/FollowRequestController.js:163 | pulling twice is pulling once |
| FollowRequestController.SendRequest | beTalkpulse/Controllers/FollowRequestController.js:182-198 | an unknown receiver leaves the table unchanged; otherwise exactly one request `{sender, receiver, now}` is appended to the receiver's requests and nothing else changes |
| FollowRequestController.SendKeepsRequestsAddressed | beTalkpulse/Controllers/FollowRequestController.js:188-198 | after sending, every stored request is still held by its receiver |
| FollowRequestController.FollowerAdded | beTalkpulse/Controllers/FollowRequestController.js:135-138 | the first write adds the requester to the current user's followers and pulls the requester's requests; a current user that is not stored changes nothing |
| FollowRequestController.FollowingAdded | beTalkpulse/Controllers/FollowRequestController.js:141-143 | the second write adds the current user to the requester's following; a requester that is not stored changes nothing |
| FollowRequestController.AcceptRequest | beTalkpulse/Controllers/FollowRequestController.js:128-150 | after accepting: the follower entry is present, no request from the requester remains, the following entry is present; only these three lists of these two users change |
| FollowRequestController.DenyRequest | beTalkpulse/Controllers/FollowRequestController.js:158-171 | only the current user's requests change: those from the requester are pulled |
| FollowRequestController.ClearRequests | beTalkpulse/Controllers/FollowRequestController.js:264-277 | every user's requests become empty and nothing else changes |
| FollowRequestController.AcceptKeepsRequestsAddressed | beTalkpulse/Controllers/FollowRequestController.js:135-143 | after accepting, every stored request is still held by its receiver |
| FollowRequestController.DenyKeepsRequestsAddressed | beTalkpulse/Controllers/FollowRequestController.js:162-164 | after denying, every stored request is still held by its receiver |
| FollowRequestController.ClearKeepsRequestsAddressed | beTalkpulse/Controllers/FollowRequestController.js:267-270 | after clearing, every request is trivially held by its receiver |
| FollowRequestController.SendThenAccept | beTalkpulse/Controllers/FollowRequestController.js:128-209 | send then accept makes `a` a follower of `b` and `b` followed by `a`, with no request from `a` left at `b` |
| FollowRequestController.SendThenDeny | beTalkpulse/Controllers/FollowRequestController.js:158-209 | send then deny leaves `b`'s requests as before less those from `a`, and no follower or following list changes |
| FollowRequestController.RepeatedAcceptDuplicates | beTalkpulse/Controllers/FollowRequestController.js:135-143 | accepting twice, at any two instants, appends two entries for the same follower and two for the same followee |
| FollowRequestController.DenyIdempotent | beTalkpulse/Controllers/FollowRequestController.js:158-171 | denying the same requester twice is denying once |
| FollowRequestController.AcceptFromMissingRequesterBreaksListing | beTalkpulse/Controllers/FollowRequestController.js:135-143 | accepting from a requester that is not stored makes the current user's followers listing fail with 500 |
| FollowRequestController.SendKeepsMirror | beTalkpulse/Controllers/FollowRequestController.js:194-198 | sending keeps every follower entry matched by a following entry with the same instant, and the converse |
| FollowRequestController.AcceptKeepsMirror | beTalkpulse/Controllers/FollowRequestController.js:135-143 | accepting writes both sides with the same instant, so it keeps followers and following in step |
| FollowRequestController.DenyKeepsMirror | beTalkpulse/Controllers/FollowRequestController.js:162-164 | denying keeps followers and following in step |
| FollowRequestController.ClearKeepsMirror | beTalkpulse/Controllers/FollowRequestController.js:267-270 | the start-up reset keeps followers and following in step |
| FollowRequestController.RequestBesideFollower | beTalkpulse/Controllers/FollowRequestController.js:182-198 | after `b` has accepted `a`, a new request from `a` is stored beside `a`'s follower entry, so no invariant excludes a request from a follower |
| PostController.MutualIds | beTalkpulse/Controllers/postControllers.js:60 | the mutual ids are exactly the followees who are also followers, no more of them than followees |
| PostController.MutualClauseRedundant | beTalkpulse/Controllers/postControllers.js:63-69 | the query's `$or` admits exactly the caller's own posts and the posts of followees |
| PostController.AuthorOf | beTalkpulse/Controllers/postControllers.js:70 | the populated owner is present exactly when the owner is stored, and carries the owner's id, `firstName`, `lastName` and `profileUrl` |
| PostController.Matching | beTalkpulse/Controllers/postControllers.js:63-69 | every post found is a stored post from the id list that the caller may view, with its populated owner |
| PostController.MatchingComplete | beTalkpulse/Controllers/postControllers.js:63-69 | every stored post of the id list that the caller may view is found |
| PostController.MatchingUniqueIds | beTalkpulse/Controllers/postControllers.js:63-69 | the query finds no post twice when the id list has no repeats |
| PostController.InsertKeepsPosts | beTalkpulse/Controllers/postControllers.js:71 | inserting adds exactly the inserted post to the multiset of posts |
| PostController.InsertKeepsBound | beTalkpulse/Controllers/postControllers.js:71 | inserting keeps an upper bound on creation times |
| PostController.InsertKeepsNewestFirst | beTalkpulse/Controllers/postControllers.js:71 | inserting into a newest-first sequence keeps it newest first |
| PostController.InsertKeepsUniqueIds | beTalkpulse/Controllers/postControllers.js:71 | inserting a post whose id is new keeps the ids distinct |
| PostController.SortNewestFirst | beTalkpulse/Controllers/postControllers.js:71 | `sort({ createdAt: -1 })` gives a newest-first permutation of its input |
| PostController.SortKeepsPosts | beTalkpulse/Controllers/postControllers.js:71 | sorting keeps the length and exactly the same posts |
| PostController.SortKeepsUniqueIds | beTalkpulse/Controllers/postControllers.js:71 | sorting keeps the ids distinct |
| PostController.FeedFacts | beTalkpulse/Controllers/postControllers.js:55-71 | the feed is newest first, holds only stored posts owned by the caller or a followee, each with its populated owner, and holds every such post; no post appears twice when the id list has no repeats |
| PostController.VisiblePosts | beTalkpulse/Controllers/postControllers.js:45-78 | 404 exactly when the caller is not stored; otherwise the posts of the caller and the caller's followees, all of them and only them, each with its populated owner, newest first, and no post twice when the id list has no repeats |
| PostController.OwnPostsAlwaysVisible | beTalkpulse/Controllers/postControllers.js:65 | the caller always sees each of their own stored posts |
| PostController.OneWayFollowerHidden | beTalkpulse/Controllers/postControllers.js:55-67 | a follower whom the caller does not follow back owns no post in the caller's feed |
| PostController.AcceptedRequestOpensFeed | beTalkpulse/Controllers/postControllers.js:55-69 | after `a` sends `b` a request and `b` accepts it, every stored post of `b` is in `a`'s feed |
| PostController.FollowedEntryListed | beTalkpulse/Controllers/postControllers.js:55 | a following entry puts its user among the followee ids |
| PostController.PostAdded | beTalkpulse/Controllers/postControllers.js:28-30 | the caller's `posts` gets the new id at its end and `postCount` goes up by one; nothing else changes |
| PostController.PostAddedKeepsPostCounts | beTalkpulse/Controllers/postControllers.js:28-30 | adding a post keeps every `postCount` equal to the length of that user's `posts` |
| UserController.FindFrom | beTalkpulse/Controllers/userController.js:12 | the search finds a listed, stored user with that email, and finds none exactly when no listed user has it |
| UserController.FindFromAppend | beTalkpulse/Controllers/userController.js:12 | searching past a prefix without a match continues into what follows it |
| UserController.FindByEmail | beTalkpulse/Controllers/userController.js:43 | `findOne({ email })` finds a user whose email is the normalised query, and finds none exactly when no listed user has it |
| UserController.Register | beTalkpulse/Controllers/userController.js:7-36 | a duplicate exactly when a user with the normalised email exists; a validation failure exactly when there is none and a name is blank, the normalised email is empty or the hash is empty; otherwise the inserted user is valid and new, with the hashed password, normalised email, trimmed names, trimmed `location` and `profession`, the given `profileUrl` or `''`, and no listed user has its email |
| UserController.InsertKeepsEmailsUnique | beTalkpulse/Models/UserModel.js:22 | inserting a registered user keeps emails unique |
| UserController.Login | beTalkpulse/Controllers/userController.js:39-64 | success exactly when a user with the email exists and the password checks against its hash; the token names that user and its email; every failure is the same 400 message |
| UserController.FindInserted | beTalkpulse/Controllers/userController.js:43 | a user inserted with an email no listed user has is the one then found by that email |
| UserController.LoginFound | beTalkpulse/Controllers/userController.js:43-55 | logging in with the email of a found user whose password verifies yields that user's token |
| UserController.LoginInserted | beTalkpulse/Controllers/userController.js:39-64 | logging in as a user just inserted with an unused email and its own password yields that user's token |
| UserController.RegisterThenLogin | beTalkpulse/Controllers/userController.js:7-64 | a user who has just registered logs in with the same email and password, and the token names the new user |
| Tables.CataloguedExtend | beTalkpulse/Controllers/postControllers.js:25 | storing under the next fresh id keeps the id list a repeat-free catalogue of the keys, below the counter |
| Tables.PostsValidExtend | beTalkpulse/Controllers/postControllers.js:17-25 | storing a valid post keeps every stored post valid |
| Tables.RelationsOnlyKeepInvariant | beTalkpulse/Controllers/FollowRequestController.js:135-143 | a write that changes only relationship lists and keeps requests with their receivers keeps the users' invariant |
| Tables.ClearKeepsInvariant | beTalkpulse/Controllers/FollowRequestController.js:267-270 | clearing every user's requests keeps the users' invariant |
| Tables.SendKeepsInvariant | beTalkpulse/Controllers/FollowRequestController.js:194-198 | sending keeps the users' invariant |
| Tables.AcceptKeepsInvariant | beTalkpulse/Controllers/FollowRequestController.js:135-143 | accepting keeps the users' invariant |
| Tables.DenyKeepsInvariant | beTalkpulse/Controllers/FollowRequestController.js:162-164 | denying keeps the users' invariant |
| Tables.PostAddedKeepsInvariant | beTalkpulse/Controllers/postControllers.js:28-30 | recording a post on its owner keeps the users' invariant |
| Tables.InsertKeepsInvariant | beTalkpulse/Controllers/userController.js:21-31 | inserting a valid user with no requests, its own post count and a fresh email keeps the users' invariant |
| Tables.PostAddedKeepsMirror | beTalkpulse/Controllers/postControllers.js:28-30 | recording a post keeps followers and following in step |
| Tables.InsertKeepsMirror | beTalkpulse/Controllers/userController.js:21-31 | inserting a user with no relations keeps followers and following in step, provided no stored entry already names its id |
| Tables.DanglingAcceptThenInsertBreaksMirror | beTalkpulse/Controllers/FollowRequestController.js:135-143 | accepting from an id that is not stored and then inserting a user under that id leaves a follower entry with no matching following entry |
| Tables.MissingCurrentAcceptThenInsertBreaksMirror | beTalkpulse/Controllers/FollowRequestController.js:135-143 | an accept by a current user that is not stored still writes the requester's following entry, and inserting a user under that id then leaves the entry unmatched |
| Tables.UsersUpdateKeepsConsistent | beTalkpulse/Controllers/FollowRequestController.js:135-143 | a write to existing user documents that keeps the users' invariant keeps the tables consistent |
| Tables.CreatePostKeepsConsistent | beTalkpulse/Controllers/postControllers.js:17-30 | createPost's writes keep the tables consistent, and the next post id is fresh |
| Tables.InsertUserKeepsConsistent | beTalkpulse/Controllers/userController.js:21-31 | registerUser's insert keeps the tables consistent, and the next user id is fresh |
| Tables.StoredExploreHasNoRepeats | beTalkpulse/Controllers/FollowRequestController.js:13-59 | on consistent tables the explore listing of a stored caller is served and lists each user once |
| Tables.StoredFeedHasNoRepeats | beTalkpulse/Controllers/postControllers.js:45-78 | on consistent tables the feed of a stored caller is served and lists no post twice |
| Tables.RegisteredUserFits | beTalkpulse/Controllers/userController.js:12-31 | the user registerUser builds is valid, has no requests, has a matching post count and has an email no stored user has |
| Store.Database.constructor | beTalkpulse/Models/UserModel.js:19-45 | the store starts as empty collections of user and post documents, and is consistent |
| Store.Database.AddFollowRequestsField | beTalkpulse/Controllers/FollowRequestController.js:264-277 | every user's `followRequests` becomes empty, nothing else changes, and the tables stay consistent |
| Store.Database.SendFollowRequest | beTalkpulse/Controllers/FollowRequestController.js:177-209 | 404 and no change exactly when the receiver is not stored; otherwise "Follow request sent" and the tables become `SendRequest` of the old ones; consistency is kept |
| Store.Database.AcceptFollowRequest | beTalkpulse/Controllers/FollowRequestController.js:128-150 | always "Follow request accepted"; the tables become `AcceptRequest` of the old ones; consistency is kept |
| Store.Database.DenyFollowRequest | beTalkpulse/Controllers/FollowRequestController.js:158-171 | always "Follow request denied"; the tables become `DenyRequest` of the old ones; consistency is kept |
| Store.Database.StorePost | beTalkpulse/Controllers/postControllers.js:17-30 | the post is stored under a fresh id, appended to the id list, and the id is recorded on its owner; consistency is kept |
| Store.Database.CreatePost | beTalkpulse/Controllers/postControllers.js:5-40 | 404 exactly when the caller is not stored; 500 exactly when the post fails validation; no change on either; otherwise the new post is stored under a fresh id, which is recorded on the caller |
| Store.Database.StoreUser | beTalkpulse/Controllers/userController.js:21-31 | the user is stored under a fresh id, appended to the id list; consistency is kept |
| Store.Database.RegisterUser | beTalkpulse/Controllers/userController.js:7-36 | "User already exists" with no change for a known email; 500 with no change when validation fails; otherwise exactly the registered user is added under a fresh id; consistency is kept |

## Left out

- Password hashing and comparison (bcrypt) are the function parameters `hash` and `verify`, and the cost factor 10 is not modelled.
- The signature of the login token is not modelled; only its claims (`Token`) are, and `SECRET_KEY` is not part of this model.
- Store.Database.CreatePost: returns the new post's id, not the document populated with its owner's `firstName lastName profileUrl location` that the handler sends back.
- The `_id` that Mongoose generates for each embedded follower, following and request entry is not stored. The effect it has on `$addToSet`, which never finds an equal entry, is modelled by `AddToSet` always appending.
- FollowRequestController.ViewRequests: the `_id` that each listed request carries in the pending-request listing is not modelled.
- UserModel.WithoutPassword: the joined user documents in `senderDetails` also carry `__v` and the `_id` of every embedded follower, following and request entry; these are not modelled.
- Request bodies are taken to hold strings. An `undefined` field is modelled as a present value, so validation failures from a missing field are covered only as an empty string.
- Lower-casing maps the ASCII letters only; full Unicode case mapping is not modelled.
- Replies with status 500 are modelled only where the handler's own logic produces them: validation failures, and reading `_id` from a null populated entry. Storage failures and ids that fail the ObjectId cast are not modelled.
- Store.Database.SendFollowRequest: the second "Error adding follow request" 404 is not modelled. It follows a write to a receiver that was just found, so it cannot occur without a concurrent delete.
- Concurrency is not modelled. acceptFollowRequest's two writes are not atomic, and other requests can interleave between them.
- Ties in `sort({ createdAt: -1 })` are not specified by the store. The model keeps tied posts in the order the query found them.
- The unique index on `email` is modelled as the invariant `EmailsUnique`, kept by the registration duplicate check. The race between that check and the insert is not modelled.
- The routes, the authentication middleware, the upload configuration, the separate follow-request model and the server start-up are not part of this model. The start-up reset of follow requests is modelled as `AddFollowRequestsField`.
- Console logging is left out.
