# Pawstagram, modelled in Dafny

Pawstagram is an Android photo feed for pets. Signed-in users upload a picture with a caption and hashtags. The picture goes to Cloudinary and the post record to a Firestore `posts` collection. Everyone sees the collection as a live feed, newest first, and can like and unlike posts. A dormant local Room table (`PostDao`) keeps posts with a like counter of its own.

This project models the logic of the app as pure functions. Firebase, Cloudinary, the clock and the Compose runtime are not modelled; their results are parameters. The modules follow the app's files:

| module | models |
|---|---|
| `Firestore` | field values, document snapshots, the typed getters `getString` and `getTimestamp`, `FieldValue.arrayUnion` and `arrayRemove`, and `Timestamp.toDate().time` |
| `JavaString` | `String.hashCode()` over UTF-16 code units, with 32-bit wrap-around |
| `Text` | Kotlin's `isWhitespace`, `isBlank`, `trim`, `split` and `joinToString` |
| `Seqs` | Kotlin's `mapNotNull` |
| `PostFeed` | the `posts` flow of `FirebasePostRepository`: each snapshot decoded into `Post` records; a listener error gives the empty list |
| `PostRepository` | `toggleLike` (the like transaction), `addPost` and `uploadToCloudinary`, over a store of documents |
| `PostDao` | the Room table: REPLACE insert with AUTOINCREMENT ids, `update`, the SQL like toggle, and `getAllPosts` newest first |
| `Hashtags` | the upload form's tokenizer and the feed card's hashtag line |
| `AuthViewModel` | `getErrorMessage` and the `(loading, error)` states each auth operation passes through |
| `SignInScreen` | the sign-in form: its state, which controls are shown and enabled, and what each click does |
| `UploadScreen` | the upload form: the enabled rule, the submission and the reset |
| `FeedScreen` | the lazy list of the feed: the empty state, one card per post, item keys, and what a card shows |

Four kinds of partner property are proved:

- **Round trips.** Tokenizing tags joined by a separator gives the tags back. Splitting a rendered hashtag line gives one `#tag` word per tag. A written post decodes to the post that was submitted.
- **Involutions.** Toggling a like twice restores the membership, the decoded post (when the user occurs at most once in `likedBy`) and the Room row.
- **Invariants.** The Room table stays well formed, and every row's like count covers its own like.
- **Order and counts.** Decoding keeps the query's newest-first order (for timestamped documents). Decoding yields one post per decodable document. `getAllPosts` lists every row exactly once, newest first.

## Model

| member | source | states |
|---|---|---|
| Firestore.GetString | app/src/main/java/com/example/pawstagram/data/firebase/FirebasePostRepository.kt:52-55 | a `getString` read: missing when the field is absent or null; found exactly when it holds a string, which is returned; a mismatch (the getter throws) otherwise |
| Firestore.GetTimestamp | app/src/main/java/com/example/pawstagram/data/firebase/FirebasePostRepository.kt:56 | the same three outcomes for `getTimestamp` |
| Firestore.GetList | app/src/main/java/com/example/pawstagram/data/firebase/FirebasePostRepository.kt:54 | `as? List<*>` succeeds exactly on an array field and yields its items |
| Firestore.StringsOfMembers | app/src/main/java/com/example/pawstagram/data/firebase/FirebasePostRepository.kt:57 | `filterIsInstance<String>()`: a string is in the result exactly when it is one of the values |
| Firestore.StringsOf | app/src/main/java/com/example/pawstagram/data/firebase/FirebasePostRepository.kt:57 | `filterIsInstance<String>()` yields at most one string per input value, so the result is no longer than the input; duplicates are kept, and which strings it yields is `StringsOfMembers` |
| Firestore.EpochMillisMonotonic | app/src/main/java/com/example/pawstagram/data/firebase/FirebasePostRepository.kt:56 | converting to milliseconds keeps the timestamp order of the query |
| Firestore.EpochMillis | app/src/main/java/com/example/pawstagram/data/firebase/FirebasePostRepository.kt:56 | `toDate().time` of a valid timestamp lies within its own second: at least `seconds*1000` and below `seconds*1000 + 1000` |
| Firestore.Without | app/src/main/java/com/example/pawstagram/data/firebase/FirebasePostRepository.kt:125 | the array with every occurrence of a value removed: exactly the other values remain |
| Firestore.Occurrences | app/src/main/java/com/example/pawstagram/data/firebase/FirebasePostRepository.kt:124 | the count of a value in an array is zero exactly when the value is absent |
| Firestore.ArrayUnion | app/src/main/java/com/example/pawstagram/data/firebase/FirebasePostRepository.kt:126 | `arrayUnion(x)` leaves an array that holds `x`; it is unchanged when `x` was there, otherwise `x` occurs once; all other values are kept |
| Firestore.ArrayRemove | app/src/main/java/com/example/pawstagram/data/firebase/FirebasePostRepository.kt:125 | `arrayRemove(x)` leaves an array without `x`; all other values are kept |
| Firestore.StringsWithout | app/src/main/java/com/example/pawstagram/data/firebase/FirebasePostRepository.kt:57-58 | the string count of an array is the string count without `u` plus the occurrences of `u` |
| Firestore.StringsAppend | app/src/main/java/com/example/pawstagram/data/firebase/FirebasePostRepository.kt:126 | appending a string adds it at the end of the string list |
| JavaString.HashCode | app/src/main/java/com/example/pawstagram/data/firebase/FirebasePostRepository.kt:62 | `id.hashCode()` lies in the 32-bit signed range |
| JavaString.HashCodeOfPair | app/src/main/java/com/example/pawstagram/data/firebase/FirebasePostRepository.kt:62 | the hash of a two-unit string is `31*a + b` |
| JavaString.HashCodeCollides | app/src/main/java/com/example/pawstagram/data/firebase/FirebasePostRepository.kt:62 | the different ids "Aa" and "BB" have the same hash, 2112 |
| Text.Trim | app/src/main/java/com/example/pawstagram/ui/AuthViewModel.kt:33 | `trim()`: the result is empty exactly for a blank input; otherwise it is a slice of the input with non-whitespace ends, and only whitespace was cut |
| Text.TrimOfTrimmed | app/src/main/java/com/example/pawstagram/ui/AuthViewModel.kt:33 | trimming a string whose ends are not whitespace gives it back |
| Text.Split | app/src/main/java/com/example/pawstagram/ui/screens/UploadScreen.kt:142 | `split(',', ' ')` yields at least one piece, and no piece holds a delimiter |
| Text.SplitAppend | app/src/main/java/com/example/pawstagram/ui/screens/UploadScreen.kt:142 | splitting distributes over a delimiter |
| Text.SplitJoin | app/src/main/java/com/example/pawstagram/ui/screens/FeedScreen.kt:194 | splitting words joined by a separator they avoid gives the words back |
| Seqs.MapNotNull | app/src/main/java/com/example/pawstagram/data/firebase/FirebasePostRepository.kt:49 | `mapNotNull` yields exactly as many elements as inputs with a non-null result |
| Seqs.MapNotNullAppend | app/src/main/java/com/example/pawstagram/data/firebase/FirebasePostRepository.kt:49 | `mapNotNull` distributes over concatenation |
| Seqs.MapNotNullLength | app/src/main/java/com/example/pawstagram/data/firebase/FirebasePostRepository.kt:49 | `mapNotNull` yields one element per non-null result, and keeps the length exactly when no result is null |
| Seqs.MapNotNullOrigin | app/src/main/java/com/example/pawstagram/data/firebase/FirebasePostRepository.kt:49 | every element of the result is the value of some input |
| Seqs.MapNotNullPairwise | app/src/main/java/com/example/pawstagram/data/firebase/FirebasePostRepository.kt:49 | a relation between the results of every two inputs in order holds between every two outputs in order: `mapNotNull` never reorders |
| Seqs.MapNotNullSkips | app/src/main/java/com/example/pawstagram/data/firebase/FirebasePostRepository.kt:49 | an input that maps to null contributes nothing, wherever it stands |
| PostFeed.DecodeDocument | app/src/main/java/com/example/pawstagram/data/firebase/FirebasePostRepository.kt:49-75 | a document yields a post exactly when it is decodable. The post takes the document id, its hash as `id`, and the `imageUrl` string. Caption defaults to "" and username to "user". Hashtags are the string entries. The timestamp falls back to `now`. `likeCount` is the number of string likers, and `liked` means a user was captured and is among them |
| PostFeed.DecodeSnapshot | app/src/main/java/com/example/pawstagram/data/firebase/FirebasePostRepository.kt:49-75 | the emitted list has one post per decodable document of the snapshot |
| PostFeed.DecodeKeepsDecodable | app/src/main/java/com/example/pawstagram/data/firebase/FirebasePostRepository.kt:49-75 | a snapshot yields one post per decodable document, and as many posts as documents exactly when every document is decodable |
| PostFeed.DecodeAppend | app/src/main/java/com/example/pawstagram/data/firebase/FirebasePostRepository.kt:49 | decoding distributes over concatenated snapshots |
| PostFeed.DropsDocumentWithoutImage | app/src/main/java/com/example/pawstagram/data/firebase/FirebasePostRepository.kt:52 | a document without a string `imageUrl` is dropped and leaves the rest as they were |
| PostFeed.DecodedFromSnapshot | app/src/main/java/com/example/pawstagram/data/firebase/FirebasePostRepository.kt:49-70 | every post is the decoding of one of the snapshot's documents |
| PostFeed.NoUserNothingLiked | app/src/main/java/com/example/pawstagram/data/firebase/FirebasePostRepository.kt:36-59 | with no user captured, no post is liked |
| PostFeed.DecodedBounded | app/src/main/java/com/example/pawstagram/data/firebase/FirebasePostRepository.kt:56 | posts decoded from documents no newer than a bound are no newer than it |
| PostFeed.DecodeKeepsOrder | app/src/main/java/com/example/pawstagram/data/firebase/FirebasePostRepository.kt:38-49 | a snapshot in the query's newest-first order decodes to posts newest first |
| PostFeed.NullTimestampBreaksOrder | app/src/main/java/com/example/pawstagram/data/firebase/FirebasePostRepository.kt:38-56 | the query lists a document with a null `timestamp` after the timestamped ones; it decodes to the clock's time, so once the clock is past an older post the emitted list is not newest first |
| PostFeed.OnEvent | app/src/main/java/com/example/pawstagram/data/firebase/FirebasePostRepository.kt:40-75 | a listener error and a null snapshot both emit the empty list; a snapshot emits one post per decodable document |
| PostRepository.LikedByItems | app/src/main/java/com/example/pawstagram/data/firebase/FirebasePostRepository.kt:123 | a user is among the likers exactly when their id is a string item of `likedBy` |
| PostRepository.ToggledFields | app/src/main/java/com/example/pawstagram/data/firebase/FirebasePostRepository.kt:122-126 | the transaction leaves `likedBy` an array and touches no other field; the user's membership flips; every other item is kept |
| PostRepository.ToggleLike | app/src/main/java/com/example/pawstagram/data/firebase/FirebasePostRepository.kt:118-127 | with no user nothing changes; a missing document fails with nothing changed; otherwise only that document is toggled |
| PostRepository.ToggleTwiceMembership | app/src/main/java/com/example/pawstagram/data/firebase/FirebasePostRepository.kt:123-126 | toggling twice restores the user's membership and every other item of `likedBy` |
| PostRepository.ToggledOccurrences | app/src/main/java/com/example/pawstagram/data/firebase/FirebasePostRepository.kt:124-126 | after a toggle the user occurs once (was absent) or not at all (was present) |
| PostRepository.ToggledCount | app/src/main/java/com/example/pawstagram/data/firebase/FirebasePostRepository.kt:123-126 | a toggle raises the like count by one, or lowers it by the user's occurrences |
| PostRepository.ToggleDecoded | app/src/main/java/com/example/pawstagram/data/firebase/FirebasePostRepository.kt:118-127 | after a toggle the decoded post has `liked` flipped and `likeCount` moved accordingly, and nothing else differs |
| PostRepository.ToggleTwiceSamePost | app/src/main/java/com/example/pawstagram/data/firebase/FirebasePostRepository.kt:118-127 | when the user occurs at most once, toggling twice gives back the same decoded post |
| PostRepository.UploadToCloudinary | app/src/main/java/com/example/pawstagram/data/firebase/FirebasePostRepository.kt:148-181 | succeeds exactly when both config values are set (not blank, not the placeholder), the call returns, the status is 2xx and the body carries a `secure_url`, which it returns. The cloud name is checked first, then the preset, then a network failure of the call |
| PostRepository.StringsOfStringArray | app/src/main/java/com/example/pawstagram/data/firebase/FirebasePostRepository.kt:109 | a string list written as an array reads back unchanged |
| PostRepository.AddPost | app/src/main/java/com/example/pawstagram/data/firebase/FirebasePostRepository.kt:83-116 | failures come in a fixed order: no user, an image that cannot be opened, a failed read of its bytes, then the upload checks, then the write. Every failure leaves the store unchanged. Success writes one document with the data map |
| PostRepository.AddPostAddsOne | app/src/main/java/com/example/pawstagram/data/firebase/FirebasePostRepository.kt:115 | success adds exactly one document and changes no other; failure adds none |
| PostRepository.NewPostFields | app/src/main/java/com/example/pawstagram/data/firebase/FirebasePostRepository.kt:106-114 | the written map has exactly the seven keys, carries the author's uid, and is always a document the feed decoder accepts |
| PostRepository.NewPostFieldsRead | app/src/main/java/com/example/pawstagram/data/firebase/FirebasePostRepository.kt:106-114 | the written fields read back as the URL, caption, username, timestamp, hashtags and an empty `likedBy` |
| PostRepository.AddedPostDecodes | app/src/main/java/com/example/pawstagram/data/firebase/FirebasePostRepository.kt:106-115 | the new document decodes, for any viewer, to the submitted post with `likeCount` 0 and `liked` false |
| PostDao.EmptyWellFormed | app/src/main/java/com/example/pawstagram/data/PostEntity.kt:8 | the empty table is well formed |
| PostDao.Insert | app/src/main/java/com/example/pawstagram/data/PostDao.kt:15-16 | REPLACE insert: a given id replaces or adds that row; id 0 gets a fresh positive id; only that row changes, and the table stays well formed |
| PostDao.InsertCount | app/src/main/java/com/example/pawstagram/data/PostDao.kt:15-16 | an insert adds one row, or none when it replaces one |
| PostDao.GeneratedIdsDiffer | app/src/main/java/com/example/pawstagram/data/PostEntity.kt:8 | two generated ids in a row differ |
| PostDao.Update | app/src/main/java/com/example/pawstagram/data/PostDao.kt:18-19 | `update` replaces the row with the entity's id; an absent id changes nothing |
| PostDao.UpdateIsReplace | app/src/main/java/com/example/pawstagram/data/PostDao.kt:15-19 | on an existing id, update and REPLACE insert agree |
| PostDao.Toggled | app/src/main/java/com/example/pawstagram/data/PostDao.kt:21 | the SQL SET clause: `liked` negated, `likeCount` down by one if it was liked, else up by one (both read the old row), nothing else changed |
| PostDao.ToggleLike | app/src/main/java/com/example/pawstagram/data/PostDao.kt:21-22 | only the row with that id is toggled; an absent id changes nothing |
| PostDao.ToggleTwice | app/src/main/java/com/example/pawstagram/data/PostDao.kt:21 | toggling twice restores the table exactly |
| PostDao.ToggleCommutes | app/src/main/java/com/example/pawstagram/data/PostDao.kt:21 | toggles of two ids commute |
| PostDao.ToggleKeepsCounts | app/src/main/java/com/example/pawstagram/data/PostDao.kt:21 | toggling keeps `likeCount >= (liked ? 1 : 0)` on every row |
| PostDao.InsertionPoint | app/src/main/java/com/example/pawstagram/data/PostDao.kt:12 | the position where a row belongs in a newest-first list |
| PostDao.GetAllPosts | app/src/main/java/com/example/pawstagram/data/PostDao.kt:12-13 | the listing holds every row exactly once, newest first |
| PostDao.IdsCount | app/src/main/java/com/example/pawstagram/data/PostDao.kt:12-13 | a list with pairwise different ids has as many ids as rows |
| Hashtags.KeepTagsAreTags | app/src/main/java/com/example/pawstagram/ui/screens/UploadScreen.kt:142-145 | trimmed, non-blank pieces free of separators are tags |
| Hashtags.Tokenize | app/src/main/java/com/example/pawstagram/ui/screens/UploadScreen.kt:142-145 | every tag is non-empty, free of ',' and ' ', and has no whitespace at either end |
| Hashtags.TokenizeAppend | app/src/main/java/com/example/pawstagram/ui/screens/UploadScreen.kt:142 | tokenizing distributes over a ',' or ' ' |
| Hashtags.TokenizeWord | app/src/main/java/com/example/pawstagram/ui/screens/UploadScreen.kt:143-144 | a stretch without separators gives its trimmed self, or nothing if blank |
| Hashtags.TokenizeBlank | app/src/main/java/com/example/pawstagram/ui/screens/UploadScreen.kt:142-145 | input of only separators and whitespace gives no tags |
| Hashtags.TabIsNotSeparator | app/src/main/java/com/example/pawstagram/ui/screens/UploadScreen.kt:142 | a tab stays inside a tag |
| Hashtags.TokenizeTag | app/src/main/java/com/example/pawstagram/ui/screens/UploadScreen.kt:142-145 | a tag on its own tokenizes to itself |
| Hashtags.TokenizeJoined | app/src/main/java/com/example/pawstagram/ui/screens/UploadScreen.kt:142-145 | tags joined by a separator tokenize back to the same tags, in order, a leading '#' included |
| Hashtags.StripHashes | app/src/main/java/com/example/pawstagram/ui/screens/FeedScreen.kt:194 | `trimStart('#')` removes a prefix of '#' characters and leaves no '#' in front |
| Hashtags.RenderTag | app/src/main/java/com/example/pawstagram/ui/screens/FeedScreen.kt:194 | a rendered tag starts with exactly one '#' |
| Hashtags.RenderTags | app/src/main/java/com/example/pawstagram/ui/screens/FeedScreen.kt:194 | one rendered word per tag, in order |
| Hashtags.Render | app/src/main/java/com/example/pawstagram/ui/screens/FeedScreen.kt:194 | the hashtag line is empty exactly for no tags, otherwise starts with '#', and for one tag is that tag's word |
| Hashtags.RenderTagIgnoresHashes | app/src/main/java/com/example/pawstagram/ui/screens/FeedScreen.kt:194 | a leading '#' does not change the rendering |
| Hashtags.RenderTagIdempotent | app/src/main/java/com/example/pawstagram/ui/screens/FeedScreen.kt:194 | rendering a rendered tag changes nothing |
| Hashtags.RenderExamples | app/src/main/java/com/example/pawstagram/ui/screens/FeedScreen.kt:194 | `["#a"]`, `["##a"]` and `["a"]` all render as "#a" |
| Hashtags.RenderSingle | app/src/main/java/com/example/pawstagram/ui/screens/FeedScreen.kt:194 | a single tag renders as its word |
| Hashtags.RenderWords | app/src/main/java/com/example/pawstagram/ui/screens/FeedScreen.kt:194 | a line of tags without spaces splits at spaces into one rendered word per tag |
| AuthViewModel.ErrorMessage | app/src/main/java/com/example/pawstagram/ui/AuthViewModel.kt:93-109 | each of the seven provider codes gets its fixed message; another provider code gets the exception message or "Authentication failed"; any other exception gets its message or "An error occurred. Please try again." |
| AuthViewModel.KnownMessagesReserved | app/src/main/java/com/example/pawstagram/ui/AuthViewModel.kt:97-103 | no code's message is the reset notice or a fallback |
| AuthViewModel.SilentFailureIsNotResetNotice | app/src/main/java/com/example/pawstagram/ui/AuthViewModel.kt:93-109 | a failure without an exception message never reads as the reset notice and is never empty |
| AuthViewModel.RepositoryCall | app/src/main/java/com/example/pawstagram/ui/AuthViewModel.kt:28-83 | the repository receives exactly `email.trim()` for sign-in, sign-up and reset, and `username.trim()` for sign-up; the password and the Google token pass unchanged |
| AuthViewModel.RepositoryCallIdempotent | app/src/main/java/com/example/pawstagram/ui/AuthViewModel.kt:28-83 | trimming the arguments again changes nothing |
| AuthViewModel.Run | app/src/main/java/com/example/pawstagram/ui/AuthViewModel.kt:28-83 | an operation first clears `error`, then sets `loading`, and ends not loading. A failure ends with the mapped message, a successful reset with the reset notice, and any other success with no error |
| AuthViewModel.RunForgetsState | app/src/main/java/com/example/pawstagram/ui/AuthViewModel.kt:28-83 | the final state does not depend on the starting state |
| AuthViewModel.SignInKindsAgree | app/src/main/java/com/example/pawstagram/ui/AuthViewModel.kt:28-68 | the three sign-in kinds end in the same state for the same outcome |
| AuthViewModel.ClearError | app/src/main/java/com/example/pawstagram/ui/AuthViewModel.kt:85-87 | `clearError` nulls the error and keeps `loading` |
| AuthViewModel.ClearAfterRun | app/src/main/java/com/example/pawstagram/ui/AuthViewModel.kt:85-87 | clearing after any operation gives the initial state |
| SignInScreen.Step | app/src/main/java/com/example/pawstagram/ui/screens/SignInScreen.kt:58-314 | an action that is not shown or not enabled does nothing. A tab click sets the mode, clears email, password and username, and keeps the reset panel. The primary click signs up in sign-up mode and signs in otherwise. The reset click sends a reset and closes the panel. Of the modelled actions, only these two fire callbacks |
| SignInScreen.PrimaryEnabled | app/src/main/java/com/example/pawstagram/ui/screens/SignInScreen.kt:314 | the primary button is enabled exactly when not loading and email, password and (in sign-up mode) username each keep something after trimming |
| SignInScreen.ResetEnabled | app/src/main/java/com/example/pawstagram/ui/screens/SignInScreen.kt:283 | the reset button is enabled exactly when not loading and the email keeps something after trimming |
| SignInScreen.ModeSwitchDisablesButtons | app/src/main/java/com/example/pawstagram/ui/screens/SignInScreen.kt:115-145 | right after a tab switch neither button is enabled |
| SignInScreen.CallsCarryFilledFields | app/src/main/java/com/example/pawstagram/ui/screens/SignInScreen.kt:277-314 | every callback carries non-blank email, password and (on sign-up) username, as its button demands |
| SignInScreen.NothingFiresWhileLoading | app/src/main/java/com/example/pawstagram/ui/screens/SignInScreen.kt:283-314 | while loading no callback fires |
| SignInScreen.ErrorTextAfterRun | app/src/main/java/com/example/pawstagram/ui/screens/SignInScreen.kt:176-184 | the error line shows the view model's `errorMessage` exactly when it is non-null: after an operation, the mapped failure message, the reset notice after a successful reset, or nothing after a successful sign-in or sign-up; nothing while the call is in flight |
| SignInScreen.ForgotThenBack | app/src/main/java/com/example/pawstagram/ui/screens/SignInScreen.kt:265-296 | opening the reset panel and going back restores the form |
| UploadScreen.Step | app/src/main/java/com/example/pawstagram/ui/screens/UploadScreen.kt:140-150 | Upload submits exactly when an image is selected. It hands over that image, the caption and the tokenized tags, then resets the form to empty. A pick sets the selection, or clears it when the picker returns null |
| UploadScreen.UploadEnabledIffSubmits | app/src/main/java/com/example/pawstagram/ui/screens/UploadScreen.kt:140 | the button is enabled exactly when a click submits; a pick enables it exactly when an image came back; typing a caption or hashtags never changes it |
| UploadScreen.SubmittedTagsAreTags | app/src/main/java/com/example/pawstagram/ui/screens/UploadScreen.kt:142-146 | every submitted hashtag is a tag |
| UploadScreen.NoDoubleSubmit | app/src/main/java/com/example/pawstagram/ui/screens/UploadScreen.kt:140-150 | after a submission the button is disabled and a second click submits nothing |
| UploadScreen.CancelledPickDisables | app/src/main/java/com/example/pawstagram/ui/screens/UploadScreen.kt:46-49 | backing out of the picker disables Upload |
| FeedScreen.CardOf | app/src/main/java/com/example/pawstagram/ui/screens/FeedScreen.kt:180-194 | the caption row is shown exactly for a non-blank caption; the hashtag row is shown exactly for a non-empty tag list, with the rendered line |
| FeedScreen.FirstDuplicate | app/src/main/java/com/example/pawstagram/ui/screens/FeedScreen.kt:99-100 | finds a key that two items share, and finds none exactly when the keys are pairwise different |
| FeedScreen.Show | app/src/main/java/com/example/pawstagram/ui/screens/FeedScreen.kt:66-103 | the list is accepted exactly when the item keys are pairwise different, and a refusal names a shared key. An accepted list is the empty state exactly when there are no posts; otherwise it has one card per post, in order |
| FeedScreen.SharedKeyRefused | app/src/main/java/com/example/pawstagram/ui/screens/FeedScreen.kt:99-100 | two posts with the same `id` make the list refuse them |
| FeedScreen.CollidingPostIds | app/src/main/java/com/example/pawstagram/data/firebase/FirebasePostRepository.kt:62 | the posts of the documents "Aa" and "BB" both have `id` 2112 |
| FeedScreen.HashKeysCollide | app/src/main/java/com/example/pawstagram/ui/screens/FeedScreen.kt:99-100 | two documents with different ids, "Aa" and "BB", break the feed keyed by `id` |
| FeedScreen.DecodedDocIdsDistinct | app/src/main/java/com/example/pawstagram/data/firebase/FirebasePostRepository.kt:49-61 | documents with different ids decode to posts with different `docId`s |
| FeedScreen.FeedShowsEverySnapshot | app/src/main/java/com/example/pawstagram/ui/screens/FeedScreen.kt:66-103 | keyed by document id, every snapshot of the collection is shown, one card per decodable document |
| FeedScreen.LikeClickTargetsItsDocument | app/src/main/java/com/example/pawstagram/ui/screens/FeedScreen.kt:99-101 | a card's heart toggles the document that card was decoded from |
| FeedScreen.HashtagLineWords | app/src/main/java/com/example/pawstagram/ui/screens/FeedScreen.kt:192-194 | the hashtag line of a post with tokenized tags splits at spaces into one `#tag` word per tag |

## Left out

- Firestore, Cloudinary and the HTTP client are not modelled. Their behaviour is taken as assumptions: the typed getters, `arrayUnion` (append if absent), `arrayRemove` (remove every occurrence), and `update` failing on a missing document. The upload is reduced to a status code and a body that may be absent or may lack `secure_url`. JSON parsing is not modelled.
- Typed getters throw on a value of another type, and the per-document `try`/`catch` drops such a document. So a document whose caption, username or timestamp has the wrong type is dropped rather than defaulted. The model follows the code here.
- The id of a new Firestore document and the time of the write are parameters (`newId`, `now`). `AddPostAddsOne` requires the id to be fresh, as Firestore's generated ids are.
- The upload file name (uid and `currentTimeMillis`) and the image bytes are not modelled; only whether the image can be opened and whether its bytes can be read are.
- The upload response: an `IOException` from `execute()` is the `NetworkError` outcome. An `IOException` while reading the response body (`body.string()`) is not modelled separately.
- Transactions, retries, concurrent toggles, the `callbackFlow`/`stateIn` plumbing and coroutine scheduling are left out: each operation is one atomic step.
- `AuthRepository` (sign-in forwarding, the session stream, `signOut`) and `FeedViewModel` forward to Firebase or to the repository, and are left out.
- Date formatting on the card (`SimpleDateFormat`) depends on the locale and is left out. So are layout, colours, text labels and the scroll animation.
- MainActivity's navigation and its display-name fallback are left out.
- Widths: `Post.likeCount` is an `Int` and the timestamps are `Long`s. No realistic value reaches their limits, so they are unbounded integers here. Only `String.hashCode` is modelled with its 32-bit wrap-around.
- PostDao.GetAllPosts: ties between equal timestamps are listed in some order. SQLite leaves that order open, and so does the model.
- PostDao.Insert: a REPLACE that removes a row with the same id is modelled; other UNIQUE conflicts cannot arise, since the table has no other unique column.
- PostRepository.ToggleTwiceSamePost: requires that the user occurs at most once in `likedBy`. A document written by another client with duplicate entries loses all of them on the first toggle.
- PostFeed.DecodeKeepsOrder: requires every document to carry a timestamp. The descending query also lists documents whose `timestamp` is null, after all the others, and those decode to the clock's time, so the list is then not newest first (`PostFeed.NullTimestampBreaksOrder`). The app itself always writes a timestamp.
- PostFeed.DecodeSnapshot: uses one `now` for the whole snapshot. The source calls `Timestamp.now()` once per document with a null or missing timestamp, so such documents may get slightly different times.
- FeedScreen.Show: models the lazy list's requirement that item keys be unique as a refusal of the whole list. Compose throws only when two items with the same key are composed in the same pass, so a collision far down an unscrolled list may not show at once.
- SignInScreen.Step: the dark-mode button (SignInScreen.kt:70-71) fires `onToggleDarkMode`; theming is not modelled.
- Kotlin's `isWhitespace` is modelled as the fixed set of Unicode whitespace and space-separator characters.

## Findings

| source | as written | input that shows it | evidently intended | confidence | as-written member | corrected member |
|---|---|---|---|---|---|---|
| app/src/main/java/com/example/pawstagram/ui/screens/FeedScreen.kt:100 | the lazy list keys each post by `Post.id`, the 32-bit `hashCode()` of the document id (FirebasePostRepository.kt:62), which is not unique | two documents with ids "Aa" and "BB" both get key 2112; the lazy list requires unique keys and throws when the two items are composed together | key each item by its document id, which is unique within the collection | not executed | FeedScreen.HashKeysCollide | FeedScreen.FeedShowsEverySnapshot |
