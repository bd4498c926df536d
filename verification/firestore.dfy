/**
 * The slice of the Firestore client the repository talks to, as data: field
 * values, documents, the typed getters of a document snapshot, and the two array
 * transforms `FieldValue.arrayUnion` / `FieldValue.arrayRemove`.
 *
 * The SDK's own code is not part of this model; the behaviour below is the
 * documented behaviour of those calls, taken as assumptions.
 */
module Firestore {
  import opened Wrappers

  /** `com.google.firebase.Timestamp`: seconds since the epoch plus a nanosecond fraction. */
  datatype Timestamp = Timestamp(seconds: int, nanoseconds: nat)

  /** The Timestamp constructor rejects a nanosecond part of a full second or more. */
  predicate ValidTimestamp(t: Timestamp) {
    t.nanoseconds < 1_000_000_000
  }

  /**
   * `toDate().time`: milliseconds since the epoch, the sub-millisecond part
   * truncated, so a valid timestamp lands within its own second.
   */
  function EpochMillis(t: Timestamp): (ms: int)
    ensures ValidTimestamp(t) ==> t.seconds * 1000 <= ms < t.seconds * 1000 + 1000
  {
    t.seconds * 1000 + t.nanoseconds / 1_000_000
  }

  /** Firestore's order on timestamps: by seconds, then by nanoseconds. */
  predicate TimestampLe(a: Timestamp, b: Timestamp) {
    a.seconds < b.seconds || (a.seconds == b.seconds && a.nanoseconds <= b.nanoseconds)
  }

  /** Conversion to milliseconds keeps Firestore's timestamp order. */
  lemma EpochMillisMonotonic(a: Timestamp, b: Timestamp)
    requires ValidTimestamp(a) && ValidTimestamp(b)
    requires TimestampLe(a, b)
    ensures EpochMillis(a) <= EpochMillis(b)
  {
    if a.seconds < b.seconds {
      assert a.nanoseconds / 1_000_000 < 1000;
      assert a.seconds * 1000 + 1000 <= b.seconds * 1000;
    } else {
      MillisOfNanosMonotonic(a.nanoseconds, b.nanoseconds);
    }
  }

  lemma MillisOfNanosMonotonic(x: nat, y: nat)
    requires x <= y
    ensures x / 1_000_000 <= y / 1_000_000
  {
    var qx, qy := x / 1_000_000, y / 1_000_000;
    assert qx * 1_000_000 <= x;
    assert y < qy * 1_000_000 + 1_000_000;
  }

  /**
   * A field value as the client SDK hands it back: a string, a timestamp, an
   * array, an explicit null, or anything else (number, map, reference, ...).
   */
  datatype Value = Null | Str(s: string) | Ts(t: Timestamp) | Arr(items: seq<Value>) | Other

  type Fields = map<string, Value>

  /** A document snapshot: the document id and its fields. */
  datatype Document = Document(id: string, fields: Fields)

  /**
   * What a typed getter (`getString`, `getTimestamp`) sees: no value (absent or
   * null, the getter returns null), a value of the requested type, or a value of
   * another type, on which the getter throws.
   */
  datatype Typed<T> = Missing | Found(value: T) | Mismatch {

    /** The getter's result with the decoder's `?: default`; not meant for `Mismatch`, which throws. */
    function OrElse(default: T): T {
      if Found? then value else default
    }
  }

  /** `DocumentSnapshot.getString(key)`. */
  function GetString(f: Fields, key: string): (r: Typed<string>)
    ensures r.Missing? <==> key !in f || f[key].Null?
    ensures r.Found? <==> key in f && f[key].Str?
    ensures r.Found? ==> f[key] == Str(r.value)
  {
    if key !in f then Missing
    else match f[key]
      case Null => Missing
      case Str(s) => Found(s)
      case _ => Mismatch
  }

  /** `DocumentSnapshot.getTimestamp(key)`. */
  function GetTimestamp(f: Fields, key: string): (r: Typed<Timestamp>)
    ensures r.Missing? <==> key !in f || f[key].Null?
    ensures r.Found? <==> key in f && f[key].Ts?
    ensures r.Found? ==> f[key] == Ts(r.value)
  {
    if key !in f then Missing
    else match f[key]
      case Null => Missing
      case Ts(t) => Found(t)
      case _ => Mismatch
  }

  /** `doc.get(key) as? List<*>`: the array stored under `key`, or null for anything else. */
  function GetList(f: Fields, key: string): (r: Option<seq<Value>>)
    ensures r.Some? <==> key in f && f[key].Arr?
    ensures r.Some? ==> f[key] == Arr(r.value)
  {
    if key in f && f[key].Arr? then Some(f[key].items) else None
  }

  /** `filterIsInstance<String>()`: the string elements, in order. */
  function StringsOf(vs: seq<Value>): (r: seq<string>)
    ensures |r| <= |vs|
  {
    if |vs| == 0 then []
    else
      var rest := StringsOf(vs[1..]);
      if vs[0].Str? then [vs[0].s] + rest else rest
  }

  /** A string is among the string elements exactly when it is one of the values. */
  lemma {:induction false} StringsOfMembers(vs: seq<Value>)
    ensures forall x :: x in StringsOf(vs) <==> Str(x) in vs
  {
    if |vs| > 0 {
      StringsOfMembers(vs[1..]);
      assert vs == [vs[0]] + vs[1..];
    }
  }

  /** `(get(key) as? List<*>)?.filterIsInstance<String>() ?: emptyList()`. */
  function StringList(f: Fields, key: string): seq<string> {
    StringsOf(GetList(f, key).GetOr([]))
  }

  /** The elements of an array field, or none when the field is absent or not an array. */
  function ItemsOf(current: Option<Value>): seq<Value> {
    match current
    case Some(Arr(items)) => items
    case _ => []
  }

  /** The elements of `vs` other than `x`, in order. */
  function Without(vs: seq<Value>, x: Value): (r: seq<Value>)
    ensures |r| <= |vs|
    ensures forall v :: v in r <==> v in vs && v != x
  {
    if |vs| == 0 then []
    else
      var rest := Without(vs[1..], x);
      assert forall v :: v in vs <==> v == vs[0] || v in vs[1..] by {
        assert vs == [vs[0]] + vs[1..];
      }
      if vs[0] == x then rest else [vs[0]] + rest
  }

  /** How many elements of `vs` equal `x`. */
  function Occurrences(vs: seq<Value>, x: Value): (n: nat)
    ensures n == 0 <==> x !in vs
  {
    if |vs| == 0 then 0
    else
      assert vs == [vs[0]] + vs[1..];
      (if vs[0] == x then 1 else 0) + Occurrences(vs[1..], x)
  }

  /**
   * `FieldValue.arrayUnion(x)` applied to the current field value: appends `x`
   * to an array that lacks it; a field that is absent or not an array becomes `[x]`.
   */
  function ArrayUnion(current: Option<Value>, x: Value): (r: Value)
    ensures r.Arr? && x in r.items
    ensures Without(r.items, x) == Without(ItemsOf(current), x)
    ensures x in ItemsOf(current) ==> r.items == ItemsOf(current)
    ensures Occurrences(r.items, x) == if x in ItemsOf(current) then Occurrences(ItemsOf(current), x) else 1
  {
    var items := ItemsOf(current);
    if x in items then Arr(items)
    else
      WithoutAppend(items, x, x);
      OccurrencesAppend(items, x, x);
      Arr(items + [x])
  }

  /**
   * `FieldValue.arrayRemove(x)` applied to the current field value: removes
   * every element equal to `x`; a field that is absent or not an array becomes `[]`.
   */
  function ArrayRemove(current: Option<Value>, x: Value): (r: Value)
    ensures r.Arr? && x !in r.items
    ensures Without(r.items, x) == Without(ItemsOf(current), x)
  {
    var rest := Without(ItemsOf(current), x);
    WithoutAbsent(rest, x);
    Arr(rest)
  }

  lemma {:induction false} WithoutAppend(vs: seq<Value>, y: Value, x: Value)
    ensures Without(vs + [y], x) == Without(vs, x) + (if y == x then [] else [y])
  {
    if |vs| == 0 {
      assert vs + [y] == [y];
    } else {
      assert (vs + [y])[0] == vs[0];
      assert (vs + [y])[1..] == vs[1..] + [y];
      var h := if vs[0] == x then [] else [vs[0]];
      var t := if y == x then [] else [y];
      calc {
        Without(vs + [y], x);
        h + Without(vs[1..] + [y], x);
        { WithoutAppend(vs[1..], y, x); }
        h + (Without(vs[1..], x) + t);
        (h + Without(vs[1..], x)) + t;
      }
    }
  }

  lemma {:induction false} OccurrencesAppend(vs: seq<Value>, y: Value, x: Value)
    ensures Occurrences(vs + [y], x) == Occurrences(vs, x) + (if y == x then 1 else 0)
  {
    if |vs| == 0 {
      assert vs + [y] == [y];
    } else {
      OccurrencesAppend(vs[1..], y, x);
      assert (vs + [y])[0] == vs[0];
      assert (vs + [y])[1..] == vs[1..] + [y];
    }
  }

  lemma {:induction false} WithoutAbsent(vs: seq<Value>, x: Value)
    requires x !in vs
    ensures Without(vs, x) == vs
  {
    if |vs| > 0 {
      WithoutAbsent(vs[1..], x);
      assert vs == [vs[0]] + vs[1..];
    }
  }

  /**
   * Counting strings: the strings of `vs` are those of `vs` without `Str(u)`
   * plus the occurrences of `Str(u)`.
   */
  lemma {:induction false} StringsWithout(vs: seq<Value>, u: string)
    ensures |StringsOf(vs)| == |StringsOf(Without(vs, Str(u)))| + Occurrences(vs, Str(u))
  {
    if |vs| > 0 {
      StringsWithout(vs[1..], u);
    }
  }

  /** Appending a string element adds one to the string count. */
  lemma {:induction false} StringsAppend(vs: seq<Value>, u: string)
    ensures StringsOf(vs + [Str(u)]) == StringsOf(vs) + [u]
  {
    var w := vs + [Str(u)];
    if |vs| == 0 {
      assert w == [Str(u)];
      assert StringsOf(w) == [u] + StringsOf(w[1..]);
    } else {
      var head: seq<string> := if vs[0].Str? then [vs[0].s] else [];
      assert w[0] == vs[0];
      assert w[1..] == vs[1..] + [Str(u)];
      StringsAppend(vs[1..], u);
      assert StringsOf(w) == head + StringsOf(w[1..]);
      assert StringsOf(vs) == head + StringsOf(vs[1..]);
      assert head + (StringsOf(vs[1..]) + [u]) == (head + StringsOf(vs[1..])) + [u];
    }
  }
}
