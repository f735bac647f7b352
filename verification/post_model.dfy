/**
 * The post document and its embedded comments, with the `mediaType` enum, the
 * required and trimmed string paths and the defaults (Models/PostModel.js).
 */
module PostModel {
  import opened Schema

  datatype MediaType = Image | Video | Gif

  /** The string the enum stores for each media type. */
  function MediaTypeName(m: MediaType): string
  {
    match m
    case Image => "image"
    case Video => "video"
    case Gif => "gif"
  }

  /** The enum validator: only the three listed strings are accepted. */
  function ParseMediaType(s: string): (r: Option<MediaType>)
    ensures r.Some? <==> s == "image" || s == "video" || s == "gif"
  {
    if s == "image" then Some(Image)
    else if s == "video" then Some(Video)
    else if s == "gif" then Some(Gif)
    else None
  }

  /** The enum accepts exactly the names it lists, and each maps back to its own media type. */
  lemma MediaTypeRoundTrip(m: MediaType, s: string)
    ensures ParseMediaType(MediaTypeName(m)) == Some(m)
    ensures ParseMediaType(s).Some? ==> MediaTypeName(ParseMediaType(s).value) == s
  {
  }

  datatype Comment = Comment(
    userId: UserId,
    text: string,
    likes: seq<UserId>,
    createdAt: Timestamp,
    updatedAt: Timestamp)

  datatype Post = Post(
    userId: UserId,
    description: string,
    mediaType: MediaType,
    mediaUrl: string,
    likes: seq<UserId>,
    comments: seq<Comment>,
    createdAt: Timestamp,
    updatedAt: Timestamp)

  /** Building and validating a comment: `userId` and a non-blank `text` are required; `text` is trimmed. */
  function NewComment(userId: Option<UserId>, text: string, now: Timestamp): (r: Option<Comment>)
    ensures r.Some? <==> userId.Some? && RequiredTrimmed(text).Some?
    ensures r.Some? ==> r.value.userId == userId.value && r.value.text == Trim(text)
    ensures r.Some? ==> PresentString(r.value.text) && IsTrimmed(r.value.text)
    ensures r.Some? ==> r.value.likes == [] && r.value.createdAt == now && r.value.updatedAt == now
  {
    var t := RequiredTrimmed(text);
    if userId.None? || t.None? then None
    else Some(Comment(userId.value, t.value, [], now, now))
  }

  /** A document that passes the post schema's validators. */
  predicate ValidPost(p: Post)
  {
    && PresentString(p.description) && IsTrimmed(p.description)
    && PresentString(p.mediaUrl) && IsTrimmed(p.mediaUrl)
  }

  /**
   * Building and validating a post: `userId`, a non-blank `description`, a
   * `mediaType` from the enum and a non-blank `mediaUrl` are required; the two
   * strings are trimmed; likes and comments start empty.
   */
  function NewPost(userId: Option<UserId>, description: string, mediaType: string, mediaUrl: string, now: Timestamp)
    : (r: Option<Post>)
    ensures r.Some? <==> && userId.Some? && RequiredTrimmed(description).Some?
                         && ParseMediaType(mediaType).Some? && RequiredTrimmed(mediaUrl).Some?
    ensures r.Some? ==> ValidPost(r.value)
    ensures r.Some? ==> && r.value.userId == userId.value
                        && r.value.description == Trim(description)
                        && MediaTypeName(r.value.mediaType) == mediaType
                        && r.value.mediaUrl == Trim(mediaUrl)
    ensures r.Some? ==> r.value.likes == [] && r.value.comments == []
    ensures r.Some? ==> r.value.createdAt == now && r.value.updatedAt == now
  {
    var d := RequiredTrimmed(description);
    var m := ParseMediaType(mediaType);
    var u := RequiredTrimmed(mediaUrl);
    if userId.None? || d.None? || m.None? || u.None? then None
    else Some(Post(userId.value, d.value, m.value, u.value, [], [], now, now))
  }
}
