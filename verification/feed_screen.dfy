/**
 * What `FeedScreen` shows for a list of posts: the "No posts yet" item when the
 * list is empty, otherwise one card per post, in list order, each keyed for the
 * lazy list. A card shows the like icon and count of its post, the caption when
 * it is not blank and the hashtag line when there are tags; its heart toggles
 * the like of the card's own document.
 */
module FeedScreen {
  import opened Wrappers
  import Text
  import Hashtags
  import JavaString
  import opened Firestore
  import opened PostFeed
  import opened Seqs

  /** One post card: the post, whether the caption row is shown, and the hashtag line if one is shown. */
  datatype Card = Card(post: Post, showCaption: bool, hashtagLine: Option<string>)

  /** The lazy list's content: the empty-state item, or the cards. */
  datatype FeedView = EmptyState | Cards(cards: seq<Card>)

  /** `PostCard(post)`: the caption row only for a non-blank caption, the hashtag row only for a non-empty tag list. */
  function CardOf(p: Post): (c: Card)
    ensures c.post == p
    ensures c.showCaption <==> !Text.IsBlank(p.caption)
    ensures c.hashtagLine.Some? <==> p.hashtags != []
    ensures c.hashtagLine.Some? ==> c.hashtagLine.value == Hashtags.Render(p.hashtags)
  {
    Card(p,
         !Text.IsBlank(p.caption),
         if p.hashtags == [] then None else Some(Hashtags.Render(p.hashtags)))
  }

  /** The document id the card's heart hands to `onToggleLike`. */
  function LikeTarget(c: Card): string {
    c.post.docId
  }

  predicate Distinct<K(==)>(ks: seq<K>) {
    forall i, j :: 0 <= i < j < |ks| ==> ks[i] != ks[j]
  }

  /** The item keys, one per post, in list order. */
  function KeysOf<K>(posts: seq<Post>, key: Post -> K): (ks: seq<K>)
    ensures |ks| == |posts|
    ensures forall i :: 0 <= i < |posts| ==> ks[i] == key(posts[i])
  {
    seq(|posts|, i requires 0 <= i < |posts| => key(posts[i]))
  }

  /** A key that occurs twice, if there is one. */
  function FirstDuplicate<K(==)>(ks: seq<K>): (r: Option<K>)
    ensures r.None? <==> Distinct(ks)
    ensures r.Some? ==> exists i, j :: 0 <= i < j < |ks| && ks[i] == r.value && ks[j] == r.value
  {
    if |ks| == 0 then None
    else if ks[0] in ks[1..] then
      var j :| 0 <= j < |ks[1..]| && ks[1..][j] == ks[0];
      assert ks[j + 1] == ks[0];
      Some(ks[0])
    else
      var r := FirstDuplicate(ks[1..]);
      if r.None? then
        assert forall j :: 1 <= j < |ks| ==> ks[j] == ks[1..][j - 1];
        None
      else
        var i, j :| 0 <= i < j < |ks[1..]| && ks[1..][i] == r.value && ks[1..][j] == r.value;
        assert ks[i + 1] == r.value && ks[j + 1] == r.value;
        r
  }

  /**
   * The `LazyColumn` content for `posts` with item keys given by `key`. The lazy
   * list refuses a key that two items share, and the refusal is the error here.
   */
  function Show<K(==)>(posts: seq<Post>, key: Post -> K): (r: Result<FeedView, K>)
    ensures r.Success? <==> Distinct(KeysOf(posts, key))
    ensures r.Failure? ==> exists i, j :: 0 <= i < j < |posts| && key(posts[i]) == r.error && key(posts[j]) == r.error
    ensures r.Success? ==> (r.value.EmptyState? <==> posts == [])
    ensures r.Success? && r.value.Cards? ==>
              && |r.value.cards| == |posts|
              && forall i :: 0 <= i < |posts| ==> r.value.cards[i] == CardOf(posts[i])
  {
    var ks := KeysOf(posts, key);
    match FirstDuplicate(ks)
    case Some(k) =>
      var i, j :| 0 <= i < j < |ks| && ks[i] == k && ks[j] == k;
      Failure(k)
    case None =>
      if posts == [] then Success(EmptyState)
      else Success(Cards(seq(|posts|, i requires 0 <= i < |posts| => CardOf(posts[i]))))
  }

  /** `key = { it.id }`: the item key the screen uses, the Java hash of the document id. */
  function HashKey(p: Post): int {
    p.id
  }

  /** The key that identifies a post: its document id. */
  function DocIdKey(p: Post): string {
    p.docId
  }

  /** The feed as the screen builds it, keyed by `Post.id`. */
  function FeedAsWritten(posts: seq<Post>): Result<FeedView, int> {
    Show(posts, HashKey)
  }

  /** The feed keyed by document id. */
  function Feed(posts: seq<Post>): Result<FeedView, string> {
    Show(posts, DocIdKey)
  }

  /** Documents of one collection have pairwise different ids. */
  predicate DistinctIds(docs: seq<Document>) {
    forall i, j :: 0 <= i < j < |docs| ==> docs[i].id != docs[j].id
  }

  /** Two posts with one hash key: the lazy list refuses them, naming that key. */
  lemma SharedKeyRefused(p: Post, q: Post)
    requires HashKey(p) == HashKey(q)
    ensures FeedAsWritten([p, q]) == Failure(HashKey(p))
  {
    var ks := KeysOf([p, q], HashKey);
    assert ks[0] == ks[1];
  }

  /** The posts of the documents "Aa" and "BB" both carry the hash 2112. */
  lemma CollidingPostIds(p: Post, q: Post)
    requires p.docId == "Aa" && p.id == JavaString.HashCode(p.docId)
    requires q.docId == "BB" && q.id == JavaString.HashCode(q.docId)
    ensures p.id == 2112 && q.id == 2112
  {
    JavaString.HashCodeCollides();
  }

  /**
   * Two decodable documents named "Aa" and "BB" are two posts with the key 2112,
   * and the feed keyed by `Post.id` refuses the pair.
   */
  lemma HashKeysCollide(a: Document, b: Document, uid: Option<string>, now: Timestamp)
    requires a.id == "Aa" && b.id == "BB"
    requires Decodable(a.fields) && Decodable(b.fields)
    ensures DistinctIds([a, b])
    ensures FeedAsWritten(DecodeSnapshot([a, b], uid, now)) == Failure(2112)
  {
    DecodeTwo(a, b, uid, now);
    var p := DecodeDocument(a, uid, now).value;
    var q := DecodeDocument(b, uid, now).value;
    CollidingPostIds(p, q);
    SharedKeyRefused(p, q);
  }

  /** No two posts of the list share a document id. */
  predicate DistinctDocIds(posts: seq<Post>) {
    forall i, j :: 0 <= i < j < |posts| ==> posts[i].docId != posts[j].docId
  }

  /** Decoding never gives two posts of one snapshot the same document id. */
  lemma DecodedDocIdsDistinct(docs: seq<Document>, uid: Option<string>, now: Timestamp)
    requires DistinctIds(docs)
    ensures DistinctDocIds(DecodeSnapshot(docs, uid, now))
  {
    var decode := d => DecodeDocument(d, uid, now);
    var apart := (p: Post, q: Post) => p.docId != q.docId;
    MapNotNullPairwise(docs, decode, apart);
  }

  /** Keyed by document id, every snapshot of a collection is shown, one card per decodable document. */
  lemma FeedShowsEverySnapshot(docs: seq<Document>, uid: Option<string>, now: Timestamp)
    requires DistinctIds(docs)
    ensures Feed(DecodeSnapshot(docs, uid, now)).Success?
    ensures Feed(DecodeSnapshot(docs, uid, now)).value.Cards? ==>
              |Feed(DecodeSnapshot(docs, uid, now)).value.cards| == CountDecodable(docs)
  {
    DecodedDocIdsDistinct(docs, uid, now);
    var posts := DecodeSnapshot(docs, uid, now);
    assert Distinct(KeysOf(posts, DocIdKey));
    DecodeKeepsDecodable(docs, uid, now);
  }

  /** A card's heart toggles the document the card was decoded from. */
  lemma LikeClickTargetsItsDocument(docs: seq<Document>, uid: Option<string>, now: Timestamp, i: nat)
    requires Feed(DecodeSnapshot(docs, uid, now)).Success?
    requires Feed(DecodeSnapshot(docs, uid, now)).value.Cards?
    requires i < |Feed(DecodeSnapshot(docs, uid, now)).value.cards|
    ensures var c := Feed(DecodeSnapshot(docs, uid, now)).value.cards[i];
            exists k :: 0 <= k < |docs| && docs[k].id == LikeTarget(c) && DecodeDocument(docs[k], uid, now) == Some(c.post)
  {
    var posts := DecodeSnapshot(docs, uid, now);
    var c := Feed(posts).value.cards[i];
    assert c.post == posts[i];
    DecodedFromSnapshot(docs, uid, now, posts[i]);
    var k :| 0 <= k < |docs| && DecodeDocument(docs[k], uid, now) == Some(posts[i]);
    assert docs[k].id == LikeTarget(c);
  }

  /** The hashtag line of tokenized tags splits back, at spaces, into one `#tag` word per tag. */
  lemma HashtagLineWords(p: Post)
    requires forall i :: 0 <= i < |p.hashtags| ==> Hashtags.IsTag(p.hashtags[i])
    requires p.hashtags != []
    ensures var words := Text.Split(CardOf(p).hashtagLine.value, {' '});
            && |words| == |p.hashtags|
            && forall i :: 0 <= i < |p.hashtags| ==> words[i] == Hashtags.RenderTag(p.hashtags[i])
  {
    forall i | 0 <= i < |p.hashtags|
      ensures Text.Avoids(p.hashtags[i], {' '})
    {
      assert Text.Avoids(p.hashtags[i], Hashtags.Separators);
    }
    Hashtags.RenderWords(p.hashtags);
  }
}
