/**
 * The two writes of `FirebasePostRepository`: `toggleLike`, which flips the
 * signed-in user's membership in a post's `likedBy` array, and `addPost`, which
 * uploads an image to Cloudinary and then appends one post document.
 *
 * The posts collection is a map from document id to fields. Everything the
 * repository gets from outside (the signed-in user, the image read, the Cloudinary
 * configuration and response, the outcome of the Firestore write, the generated
 * document id and the clock) is a parameter.
 */
module PostRepository {
  import opened Wrappers
  import opened Firestore
  import Text
  import JavaString
  import PostFeed

  /** The `posts` collection: document id to fields. */
  type Store = map<string, Fields>

  /** The collection after a write, and the exception the write ended with, if any. */
  datatype Attempt<E> = Attempt(store: Store, error: Option<E>)

  /** `tr.update` on a document that does not exist fails the transaction. */
  datatype ToggleError = DocumentNotFound

  /** The `likedBy` field of a document, if it has one. */
  function LikedByField(f: Fields): (v: Option<Value>)
    ensures v.Some? <==> "likedBy" in f
  {
    if "likedBy" in f then Some(f["likedBy"]) else None
  }

  /** The user ids `toggleLike` and the decoder read from `likedBy`. */
  function Likers(f: Fields): seq<string> {
    StringList(f, "likedBy")
  }

  /** The elements of the `likedBy` array, whatever their type; none when it is not an array. */
  function LikedByItems(f: Fields): (items: seq<Value>)
    ensures forall u :: u in Likers(f) <==> Str(u) in items
  {
    StringsOfMembers(ItemsOf(LikedByField(f)));
    ItemsOf(LikedByField(f))
  }

  /**
   * The transaction body of `toggleLike` on one document: `arrayRemove(uid)` when
   * the user is among the likers, `arrayUnion(uid)` when not. Only `likedBy` changes.
   */
  function ToggledFields(f: Fields, uid: string): (g: Fields)
    ensures "likedBy" in g && g["likedBy"].Arr?
    ensures g == f["likedBy" := g["likedBy"]]
    ensures uid in Likers(g) <==> uid !in Likers(f)
    ensures Without(LikedByItems(g), Str(uid)) == Without(LikedByItems(f), Str(uid))
  {
    var me := Str(uid);
    var current := LikedByField(f);
    var updated := if uid in Likers(f) then ArrayRemove(current, me) else ArrayUnion(current, me);
    var g := f["likedBy" := updated];
    assert LikedByItems(g) == updated.items;
    g
  }

  /**
   * `toggleLike(postDocId)`: with no signed-in user nothing happens; otherwise the
   * transaction toggles the user's like on the document, and fails when the
   * document does not exist.
   */
  function ToggleLike(store: Store, uid: Option<string>, docId: string): (r: Attempt<ToggleError>)
    ensures uid.None? ==> r == Attempt(store, None)
    ensures uid.Some? && docId !in store ==> r == Attempt(store, Some(DocumentNotFound))
    ensures r.store.Keys == store.Keys
    ensures uid.Some? && docId in store ==> r.error.None? && r.store[docId] == ToggledFields(store[docId], uid.value)
    ensures forall d :: d in store && d != docId ==> r.store[d] == store[d]
  {
    if uid.None? then Attempt(store, None)
    else if docId !in store then Attempt(store, Some(DocumentNotFound))
    else Attempt(store[docId := ToggledFields(store[docId], uid.value)], None)
  }

  /** Toggling twice restores the user's membership, and leaves the other likers as they were. */
  lemma ToggleTwiceMembership(f: Fields, uid: string)
    ensures var twice := ToggledFields(ToggledFields(f, uid), uid);
            && twice.Keys == f.Keys + {"likedBy"}
            && (uid in Likers(twice) <==> uid in Likers(f))
            && Without(LikedByItems(twice), Str(uid)) == Without(LikedByItems(f), Str(uid))
  {
  }

  /** The string count of `likedBy`: the other likers plus the user's occurrences. */
  lemma LikerCount(f: Fields, uid: string)
    ensures |Likers(f)| == |StringsOf(Without(LikedByItems(f), Str(uid)))| + Occurrences(LikedByItems(f), Str(uid))
  {
    StringsWithout(LikedByItems(f), uid);
  }

  /** A toggle leaves the user in `likedBy` exactly once, or not at all. */
  lemma ToggledOccurrences(f: Fields, uid: string)
    ensures Occurrences(LikedByItems(ToggledFields(f, uid)), Str(uid)) ==
              if uid in Likers(f) then 0 else 1
  {
    var g := ToggledFields(f, uid);
    if uid !in Likers(f) {
      assert g["likedBy"] == ArrayUnion(LikedByField(f), Str(uid));
    }
  }

  /**
   * The like count a toggle leads to: one more when the user was not among the
   * likers, and otherwise fewer by the number of times the user occurred.
   */
  lemma ToggledCount(f: Fields, uid: string)
    ensures |Likers(ToggledFields(f, uid))| ==
              if uid in Likers(f) then |Likers(f)| - Occurrences(LikedByItems(f), Str(uid)) else |Likers(f)| + 1
  {
    var g := ToggledFields(f, uid);
    LikerCount(f, uid);
    LikerCount(g, uid);
    ToggledOccurrences(f, uid);
  }

  /** The decoded post of a document depends on `likedBy` only through the like count and `liked`. */
  lemma DecodeWithLikedBy(f: Fields, v: Value, docId: string, uid: Option<string>, now: Timestamp)
    requires PostFeed.Decodable(f)
    ensures var g := f["likedBy" := v];
            var p := PostFeed.DecodeDocument(Document(docId, f), uid, now);
            var q := PostFeed.DecodeDocument(Document(docId, g), uid, now);
            && q.Some?
            && q.value == p.value.(likeCount := |Likers(g)|, liked := uid.Some? && uid.value in Likers(g))
  {
    var g := f["likedBy" := v];
    assert GetString(g, "imageUrl") == GetString(f, "imageUrl");
    assert GetString(g, "caption") == GetString(f, "caption");
    assert GetString(g, "username") == GetString(f, "username");
    assert GetTimestamp(g, "timestamp") == GetTimestamp(f, "timestamp");
    assert StringList(g, "hashtags") == StringList(f, "hashtags");
  }

  /**
   * How a toggle moves the decoded post: `liked` flips, `likeCount` rises by one
   * or drops by the number of times the user occurred in `likedBy`, and nothing
   * else changes.
   */
  lemma ToggleDecoded(f: Fields, uid: string, docId: string, now: Timestamp)
    requires PostFeed.Decodable(f)
    ensures var before := PostFeed.DecodeDocument(Document(docId, f), Some(uid), now);
            var after := PostFeed.DecodeDocument(Document(docId, ToggledFields(f, uid)), Some(uid), now);
            && after.Some?
            && after.value.liked == !before.value.liked
            && after.value.likeCount ==
                 (if before.value.liked then before.value.likeCount - Occurrences(LikedByItems(f), Str(uid))
                  else before.value.likeCount + 1)
            && after.value == before.value.(liked := after.value.liked, likeCount := after.value.likeCount)
  {
    var g := ToggledFields(f, uid);
    DecodeWithLikedBy(f, g["likedBy"], docId, Some(uid), now);
    ToggledCount(f, uid);
  }

  /**
   * When the user occurs at most once in `likedBy`, toggling twice gives back the
   * same decoded post (the array may differ in order, or be created empty).
   */
  lemma ToggleTwiceSamePost(f: Fields, uid: string, docId: string, now: Timestamp)
    requires PostFeed.Decodable(f)
    requires Occurrences(LikedByItems(f), Str(uid)) <= 1
    ensures PostFeed.DecodeDocument(Document(docId, ToggledFields(ToggledFields(f, uid), uid)), Some(uid), now)
              == PostFeed.DecodeDocument(Document(docId, f), Some(uid), now)
  {
    var once := ToggledFields(f, uid);
    var twice := ToggledFields(once, uid);
    ToggleDecoded(f, uid, docId, now);
    var d1 := PostFeed.DecodeDocument(Document(docId, once), Some(uid), now);
    assert PostFeed.Decodable(once) by {
      assert d1.Some?;
    }
    ToggleDecoded(once, uid, docId, now);
    ToggledOccurrences(f, uid);
    var p0 := PostFeed.DecodeDocument(Document(docId, f), Some(uid), now).value;
    var p2 := PostFeed.DecodeDocument(Document(docId, twice), Some(uid), now).value;
    assert p2.liked == p0.liked;
    assert p2.likeCount == p0.likeCount;
    assert p2 == p0.(liked := p2.liked, likeCount := p2.likeCount);
  }

  /** The Cloudinary settings read from `strings.xml`. */
  datatype CloudinaryConfig = CloudinaryConfig(cloudName: string, uploadPreset: string)

  /**
   * The HTTP response of the upload: its status code and, when there is a body,
   * what `JSONObject(body).getString("secure_url")` yields (nothing when the body
   * is not JSON or has no such key).
   */
  datatype UploadResponse = UploadResponse(code: int, body: Option<Option<string>>)

  /** Everything `addPost` learns from outside the repository. */
  datatype Environment = Environment(
    uid: Option<string>,           // auth.currentUser?.uid
    imageReadable: bool,           // openInputStream returned a stream
    bytesRead: bool,               // readBytes() completed without an IOException
    config: CloudinaryConfig,
    response: Option<UploadResponse>,  // None when execute() throws an IOException
    writeSucceeds: bool,           // postsCollection.add(data) completes successfully
    newId: string,                 // the id Firestore generates for the new document
    now: Timestamp)                // Timestamp.now()

  /** The exceptions `addPost` can end with, in the order it can meet them. */
  datatype AddPostError =
    | NotSignedIn
    | CannotOpenImage
    | ImageReadFailed
    | CloudNameUnset
    | UploadPresetUnset
    | NetworkError
    | UploadFailed(code: int)
    | EmptyResponse
    | MalformedResponse
    | WriteFailed

  const PlaceholderCloudName: string := "YOUR_CLOUD_NAME"
  const PlaceholderUploadPreset: string := "YOUR_UNSIGNED_UPLOAD_PRESET"

  /** A setting is usable when it is not blank and not the shipped placeholder. */
  predicate Configured(value: string, placeholder: string) {
    !Text.IsBlank(value) && value != placeholder
  }

  /** OkHttp's `Response.isSuccessful`: a 2xx status. */
  predicate IsSuccessful(code: int) {
    200 <= code < 300
  }

  /**
   * `uploadToCloudinary`: the two `require` checks, then the call, then the
   * response checks. `response` is `None` when `execute()` throws.
   */
  function UploadToCloudinary(config: CloudinaryConfig, response: Option<UploadResponse>): (r: Result<string, AddPostError>)
    ensures r.Success? <==>
              && Configured(config.cloudName, PlaceholderCloudName)
              && Configured(config.uploadPreset, PlaceholderUploadPreset)
              && response.Some?
              && IsSuccessful(response.value.code)
              && response.value.body.Some? && response.value.body.value.Some?
    ensures r.Success? ==> r.value == response.value.body.value.value
    ensures !Configured(config.cloudName, PlaceholderCloudName) ==> r == Failure(CloudNameUnset)
    ensures Configured(config.cloudName, PlaceholderCloudName) && !Configured(config.uploadPreset, PlaceholderUploadPreset) ==>
              r == Failure(UploadPresetUnset)
    ensures (Configured(config.cloudName, PlaceholderCloudName) && Configured(config.uploadPreset, PlaceholderUploadPreset)
             && response.None?) ==> r == Failure(NetworkError)
    ensures r.Failure? ==>
              || r.error in {CloudNameUnset, UploadPresetUnset, NetworkError, EmptyResponse, MalformedResponse}
              || (response.Some? && r.error == UploadFailed(response.value.code))
  {
    if !Configured(config.cloudName, PlaceholderCloudName) then Failure(CloudNameUnset)
    else if !Configured(config.uploadPreset, PlaceholderUploadPreset) then Failure(UploadPresetUnset)
    else match response
      case None => Failure(NetworkError)
      case Some(resp) =>
        if !IsSuccessful(resp.code) then Failure(UploadFailed(resp.code))
        else match resp.body
          case None => Failure(EmptyResponse)
          case Some(None) => Failure(MalformedResponse)
          case Some(Some(url)) => Success(url)
  }

  /** A list of strings as a Firestore array value. */
  function StringArray(xs: seq<string>): (vs: seq<Value>)
    ensures |vs| == |xs|
    ensures forall i :: 0 <= i < |xs| ==> vs[i] == Str(xs[i])
  {
    if |xs| == 0 then [] else [Str(xs[0])] + StringArray(xs[1..])
  }

  /** Reading a stored string list back gives the list. */
  lemma {:induction false} StringsOfStringArray(xs: seq<string>)
    ensures StringsOf(StringArray(xs)) == xs
  {
    if |xs| > 0 {
      StringsOfStringArray(xs[1..]);
      assert StringArray(xs)[1..] == StringArray(xs[1..]);
    }
  }

  /**
   * The `data` map `addPost` writes: seven fields, one of them the author's uid,
   * and a document the feed decoder always accepts.
   */
  function NewPostFields(url: string, caption: string, hashtags: seq<string>, username: string, uid: string, now: Timestamp): (f: Fields)
    ensures f.Keys == {"imageUrl", "caption", "hashtags", "username", "uid", "timestamp", "likedBy"}
    ensures GetString(f, "uid") == Found(uid)
    ensures PostFeed.Decodable(f)
  {
    map[
      "imageUrl" := Str(url),
      "caption" := Str(caption),
      "hashtags" := Arr(StringArray(hashtags)),
      "username" := Str(username),
      "uid" := Str(uid),
      "timestamp" := Ts(now),
      "likedBy" := Arr([])]
  }

  /**
   * `addPost`: signed in, image readable, upload through Cloudinary, then one
   * `add` to the collection. Every failure leaves the collection as it was.
   */
  function AddPost(store: Store, env: Environment, caption: string, hashtags: seq<string>, username: string): (r: Attempt<AddPostError>)
    ensures r.error.Some? ==> r.store == store
    ensures env.uid.None? ==> r.error == Some(NotSignedIn)
    ensures env.uid.Some? && !env.imageReadable ==> r.error == Some(CannotOpenImage)
    ensures env.uid.Some? && env.imageReadable && !env.bytesRead ==> r.error == Some(ImageReadFailed)
    ensures env.uid.Some? && env.imageReadable && env.bytesRead ==>
              var upload := UploadToCloudinary(env.config, env.response);
              && (upload.Failure? ==> r.error == Some(upload.error))
              && (upload.Success? && !env.writeSucceeds ==> r.error == Some(WriteFailed))
              && (upload.Success? && env.writeSucceeds ==>
                    r == Attempt(store[env.newId := NewPostFields(upload.value, caption, hashtags, username, env.uid.value, env.now)], None))
  {
    if env.uid.None? then Attempt(store, Some(NotSignedIn))
    else if !env.imageReadable then Attempt(store, Some(CannotOpenImage))
    else if !env.bytesRead then Attempt(store, Some(ImageReadFailed))
    else match UploadToCloudinary(env.config, env.response)
      case Failure(e) => Attempt(store, Some(e))
      case Success(url) =>
        if !env.writeSucceeds then Attempt(store, Some(WriteFailed))
        else Attempt(store[env.newId := NewPostFields(url, caption, hashtags, username, env.uid.value, env.now)], None)
  }

  /** A successful `addPost` with a fresh id adds exactly one document and changes no other. */
  lemma AddPostAddsOne(store: Store, env: Environment, caption: string, hashtags: seq<string>, username: string)
    requires env.newId !in store
    ensures var r := AddPost(store, env, caption, hashtags, username);
            && (r.error.None? ==> r.store.Keys == store.Keys + {env.newId} && |r.store| == |store| + 1)
            && (r.error.Some? ==> |r.store| == |store|)
            && (forall d :: d in store ==> d in r.store && r.store[d] == store[d])
  {
  }

  /** The fields `addPost` writes, read back through the getters. */
  lemma NewPostFieldsRead(url: string, caption: string, hashtags: seq<string>, username: string, uid: string, now: Timestamp)
    ensures var f := NewPostFields(url, caption, hashtags, username, uid, now);
            && GetString(f, "imageUrl") == Found(url)
            && GetString(f, "caption") == Found(caption)
            && GetString(f, "username") == Found(username)
            && GetTimestamp(f, "timestamp") == Found(now)
            && StringList(f, "hashtags") == hashtags
            && StringList(f, "likedBy") == []
  {
    var f := NewPostFields(url, caption, hashtags, username, uid, now);
    assert f["imageUrl"] == Str(url);
    assert f["caption"] == Str(caption);
    assert f["username"] == Str(username);
    assert f["timestamp"] == Ts(now);
    assert f["hashtags"] == Arr(StringArray(hashtags));
    assert f["likedBy"] == Arr([]);
    StringsOfStringArray(hashtags);
  }

  /**
   * The new document decodes, for any viewer at any time, to a post with the
   * caption, hashtags and username given, the uploaded URL, the write's timestamp,
   * no likes and not liked.
   */
  lemma AddedPostDecodes(store: Store, env: Environment, caption: string, hashtags: seq<string>, username: string,
                         viewer: Option<string>, later: Timestamp)
    requires AddPost(store, env, caption, hashtags, username).error.None?
    ensures var r := AddPost(store, env, caption, hashtags, username);
            var url := env.response.value.body.value.value;
            PostFeed.DecodeDocument(Document(env.newId, r.store[env.newId]), viewer, later)
              == Some(PostFeed.Post(
                   docId := env.newId,
                   id := JavaString.HashCode(env.newId),
                   imageUri := url,
                   caption := caption,
                   hashtags := hashtags,
                   username := username,
                   timestampEpochMillis := EpochMillis(env.now),
                   likeCount := 0,
                   liked := false))
  {
    var url := env.response.value.body.value.value;
    NewPostFieldsRead(url, caption, hashtags, username, env.uid.value, env.now);
  }
}
