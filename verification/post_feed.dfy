/**
 * The feed stream of `FirebasePostRepository`: every snapshot of the posts
 * collection (queried newest first) is decoded document by document into `Post`
 * records; a document that cannot be decoded is dropped, and a listener error
 * yields the empty list.
 */
module PostFeed {
  import opened Wrappers
  import opened Firestore
  import JavaString
  import opened Seqs

  /** The UI record of one post (`model/Post.kt`). */
  datatype Post = Post(
    docId: string,
    id: int,
    imageUri: string,
    caption: string,
    hashtags: seq<string>,
    username: string,
    timestampEpochMillis: int,
    likeCount: nat,
    liked: bool)

  /**
   * True when every typed getter the decoder calls succeeds and `imageUrl` is
   * present: the document neither throws inside the `try` nor hits
   * `?: return@mapNotNull null`.
   */
  predicate Decodable(f: Fields) {
    && GetString(f, "imageUrl").Found?
    && !GetString(f, "caption").Mismatch?
    && !GetString(f, "username").Mismatch?
    && !GetTimestamp(f, "timestamp").Mismatch?
  }

  /** The `mapNotNull` body: one document to a post, or null. */
  function DecodeDocument(doc: Document, uid: Option<string>, now: Timestamp): (r: Option<Post>)
    ensures r.Some? <==> Decodable(doc.fields)
    ensures r.Some? ==> r.value.docId == doc.id && r.value.id == JavaString.HashCode(doc.id)
    ensures r.Some? ==> doc.fields["imageUrl"] == Str(r.value.imageUri)
    ensures r.Some? ==> r.value.caption == if GetString(doc.fields, "caption").Missing? then "" else doc.fields["caption"].s
    ensures r.Some? ==> r.value.username == if GetString(doc.fields, "username").Missing? then "user" else doc.fields["username"].s
    ensures r.Some? ==> r.value.hashtags == StringList(doc.fields, "hashtags")
    ensures r.Some? ==> r.value.timestampEpochMillis ==
                        EpochMillis(if GetTimestamp(doc.fields, "timestamp").Missing? then now else doc.fields["timestamp"].t)
    ensures r.Some? ==> r.value.likeCount == |StringList(doc.fields, "likedBy")|
    ensures r.Some? ==> (r.value.liked <==> uid.Some? && uid.value in StringList(doc.fields, "likedBy"))
  {
    var f := doc.fields;
    var imageUrl := GetString(f, "imageUrl");
    var caption := GetString(f, "caption");
    var username := GetString(f, "username");
    var stamp := GetTimestamp(f, "timestamp");
    if !imageUrl.Found? || caption.Mismatch? || username.Mismatch? || stamp.Mismatch? then None
    else
      var likedBy := StringList(f, "likedBy");
      Some(Post(
        docId := doc.id,
        id := JavaString.HashCode(doc.id),
        imageUri := imageUrl.value,
        caption := caption.OrElse(""),
        hashtags := StringList(f, "hashtags"),
        username := username.OrElse("user"),
        timestampEpochMillis := EpochMillis(stamp.OrElse(now)),
        likeCount := |likedBy|,
        liked := if uid.Some? then uid.value in likedBy else false))
  }

  /** `snap.documents.mapNotNull { ... }`: decodes every document, in snapshot order. */
  function DecodeSnapshot(docs: seq<Document>, uid: Option<string>, now: Timestamp): (posts: seq<Post>)
    ensures |posts| == CountDecodable(docs)
  {
    CountsAgree(docs, uid, now);
    MapNotNull(docs, d => DecodeDocument(d, uid, now))
  }

  /** The number of decodable documents. */
  function CountDecodable(docs: seq<Document>): (n: nat)
    ensures n <= |docs|
  {
    if |docs| == 0 then 0
    else (if Decodable(docs[0].fields) then 1 else 0) + CountDecodable(docs[1..])
  }

  /**
   * Exactly the decodable documents yield a post, one each: a document whose
   * `imageUrl` is missing or not a string is dropped, and so is one whose
   * caption, username or timestamp has the wrong type.
   */
  lemma DecodeKeepsDecodable(docs: seq<Document>, uid: Option<string>, now: Timestamp)
    ensures |DecodeSnapshot(docs, uid, now)| == CountDecodable(docs)
    ensures |DecodeSnapshot(docs, uid, now)| == |docs| <==> forall i :: 0 <= i < |docs| ==> Decodable(docs[i].fields)
  {
    var f := d => DecodeDocument(d, uid, now);
    MapNotNullLength(docs, f);
    CountsAgree(docs, uid, now);
  }

  lemma {:induction false} CountsAgree(docs: seq<Document>, uid: Option<string>, now: Timestamp)
    ensures CountSome(docs, d => DecodeDocument(d, uid, now)) == CountDecodable(docs)
  {
    if |docs| > 0 {
      CountsAgree(docs[1..], uid, now);
    }
  }

  /** Decoding distributes over concatenation: no document affects another's post. */
  lemma DecodeAppend(a: seq<Document>, b: seq<Document>, uid: Option<string>, now: Timestamp)
    ensures DecodeSnapshot(a + b, uid, now) == DecodeSnapshot(a, uid, now) + DecodeSnapshot(b, uid, now)
  {
    MapNotNullAppend(a, b, d => DecodeDocument(d, uid, now));
  }

  /** A document without a string `imageUrl` contributes nothing wherever it stands. */
  lemma DropsDocumentWithoutImage(a: seq<Document>, d: Document, b: seq<Document>, uid: Option<string>, now: Timestamp)
    requires !GetString(d.fields, "imageUrl").Found?
    ensures DecodeSnapshot(a + [d] + b, uid, now) == DecodeSnapshot(a, uid, now) + DecodeSnapshot(b, uid, now)
  {
    MapNotNullSkips(a, d, b, d => DecodeDocument(d, uid, now));
  }

  /** Every post of the list is the decoding of one of the snapshot's documents. */
  lemma DecodedFromSnapshot(docs: seq<Document>, uid: Option<string>, now: Timestamp, p: Post)
    requires p in DecodeSnapshot(docs, uid, now)
    ensures exists i :: 0 <= i < |docs| && DecodeDocument(docs[i], uid, now) == Some(p)
  {
    MapNotNullOrigin(docs, d => DecodeDocument(d, uid, now), p);
  }

  /** With no user at subscription time no post is marked liked. */
  lemma NoUserNothingLiked(docs: seq<Document>, now: Timestamp, p: Post)
    requires p in DecodeSnapshot(docs, None, now)
    ensures !p.liked
  {
    DecodedFromSnapshot(docs, None, now, p);
  }

  /** True when the posts are newest first. */
  predicate NewestFirst(posts: seq<Post>) {
    forall i, j :: 0 <= i < j < |posts| ==> posts[i].timestampEpochMillis >= posts[j].timestampEpochMillis
  }

  /** The query's order: every document carries a valid timestamp, and they are newest first. */
  predicate QueryOrdered(docs: seq<Document>) {
    && (forall i :: 0 <= i < |docs| ==> HasTimestamp(docs[i]))
    && (forall i, j :: 0 <= i < j < |docs| ==> TimestampLe(StampOf(docs[j]), StampOf(docs[i])))
  }

  predicate HasTimestamp(d: Document) {
    "timestamp" in d.fields && d.fields["timestamp"].Ts? && ValidTimestamp(d.fields["timestamp"].t)
  }

  function StampOf(d: Document): Timestamp
    requires HasTimestamp(d)
  {
    d.fields["timestamp"].t
  }

  /** Every post decoded from documents no newer than `bound` is no newer than `bound`. */
  lemma DecodedBounded(docs: seq<Document>, bound: Timestamp, uid: Option<string>, now: Timestamp, p: Post)
    requires ValidTimestamp(bound)
    requires forall i :: 0 <= i < |docs| ==> HasTimestamp(docs[i]) && TimestampLe(StampOf(docs[i]), bound)
    requires p in DecodeSnapshot(docs, uid, now)
    ensures p.timestampEpochMillis <= EpochMillis(bound)
  {
    DecodedFromSnapshot(docs, uid, now, p);
    var i :| 0 <= i < |docs| && DecodeDocument(docs[i], uid, now) == Some(p);
    EpochMillisMonotonic(StampOf(docs[i]), bound);
  }

  /** Decoding keeps the query's newest-first order: filter-map never reorders. */
  lemma DecodeKeepsOrder(docs: seq<Document>, uid: Option<string>, now: Timestamp)
    requires QueryOrdered(docs)
    ensures NewestFirst(DecodeSnapshot(docs, uid, now))
  {
    var decode := d => DecodeDocument(d, uid, now);
    var newer := (p: Post, q: Post) => p.timestampEpochMillis >= q.timestampEpochMillis;
    forall i, j | 0 <= i < j < |docs| && decode(docs[i]).Some? && decode(docs[j]).Some?
      ensures newer(decode(docs[i]).value, decode(docs[j]).value)
    {
      EpochMillisMonotonic(StampOf(docs[j]), StampOf(docs[i]));
    }
    MapNotNullPairwise(docs, decode, newer);
  }

  /**
   * The order `orderBy("timestamp", DESCENDING)` actually lists: documents whose
   * `timestamp` is a timestamp come newest first, and documents whose `timestamp`
   * is null come after all of them.
   */
  predicate QueryListed(docs: seq<Document>) {
    && (forall i :: 0 <= i < |docs| ==> HasTimestamp(docs[i]) || HasNullTimestamp(docs[i]))
    && (forall i, j :: 0 <= i < j < |docs| && HasTimestamp(docs[j]) ==>
          HasTimestamp(docs[i]) && TimestampLe(StampOf(docs[j]), StampOf(docs[i])))
  }

  predicate HasNullTimestamp(d: Document) {
    "timestamp" in d.fields && d.fields["timestamp"].Null?
  }

  /** Two decodable documents decode to two posts, in order. */
  lemma DecodeTwo(a: Document, b: Document, uid: Option<string>, now: Timestamp)
    requires Decodable(a.fields) && Decodable(b.fields)
    ensures DecodeSnapshot([a, b], uid, now) == [DecodeDocument(a, uid, now).value, DecodeDocument(b, uid, now).value]
  {
    DecodeAppend([a], [b], uid, now);
    assert [a] + [b] == [a, b];
    assert DecodeSnapshot([a], uid, now) == OptionToSeq(DecodeDocument(a, uid, now));
    assert DecodeSnapshot([b], uid, now) == OptionToSeq(DecodeDocument(b, uid, now));
  }

  /**
   * A document with a null `timestamp`, listed last by the query, decodes to the
   * clock's `now`; once the clock is past an older timestamped post, the emitted
   * list is no longer newest first.
   */
  lemma NullTimestampBreaksOrder(a: Document, b: Document, uid: Option<string>, now: Timestamp)
    requires Decodable(a.fields) && Decodable(b.fields)
    requires HasTimestamp(a) && HasNullTimestamp(b)
    requires EpochMillis(StampOf(a)) < EpochMillis(now)
    ensures QueryListed([a, b])
    ensures !NewestFirst(DecodeSnapshot([a, b], uid, now))
  {
    DecodeTwo(a, b, uid, now);
    var posts := DecodeSnapshot([a, b], uid, now);
    assert posts[0].timestampEpochMillis < posts[1].timestampEpochMillis;
  }

  /** What the snapshot listener receives: an error, or a snapshot (null when absent). */
  datatype SnapshotEvent = ListenerError | Snapshot(docs: Option<seq<Document>>)

  /**
   * The list the listener emits. `uid` is the user captured when the flow was
   * subscribed, not the user at the time of the event.
   */
  function OnEvent(event: SnapshotEvent, uid: Option<string>, now: Timestamp): (posts: seq<Post>)
    ensures event.ListenerError? ==> posts == []
    ensures event == Snapshot(None) ==> posts == []
    ensures event.Snapshot? && event.docs.Some? ==> |posts| == CountDecodable(event.docs.value)
  {
    match event
    case ListenerError => []
    case Snapshot(None) => []
    case Snapshot(Some(docs)) =>
      DecodeKeepsDecodable(docs, uid, now);
      DecodeSnapshot(docs, uid, now)
  }
}
