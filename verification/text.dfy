/**
 * The handful of Kotlin string operations the core relies on: `Char.isWhitespace`,
 * `isBlank`, `trim`, `split(vararg delimiters)` and `joinToString(separator)`,
 * written over `seq<char>`. The feed's `trimStart('#')` is `Hashtags.StripHashes`.
 */
module Text {

  /**
   * Kotlin's `Char.isWhitespace()`: Java's `Character.isWhitespace` or
   * `Character.isSpaceChar`, i.e. the ASCII controls TAB..CR and FS..US, SPACE and
   * every Unicode space, line or paragraph separator.
   */
  predicate IsWhitespace(c: char) {
    var n := c as int;
    || 0x09 <= n <= 0x0D
    || 0x1C <= n <= 0x20
    || n == 0xA0
    || n == 0x1680
    || 0x2000 <= n <= 0x200A
    || n == 0x2028
    || n == 0x2029
    || n == 0x202F
    || n == 0x205F
    || n == 0x3000
  }

  /** Kotlin's `CharSequence.isBlank()`: empty, or whitespace only. */
  predicate IsBlank(s: string) {
    forall i :: 0 <= i < |s| ==> IsWhitespace(s[i])
  }

  /** True when no character of `s` belongs to `cs`. */
  predicate Avoids(s: string, cs: set<char>) {
    forall i :: 0 <= i < |s| ==> s[i] !in cs
  }

  /** The number of whitespace characters `s` starts with. */
  function LeadingWhitespace(s: string): (k: nat)
    ensures k <= |s|
    ensures forall i :: 0 <= i < k ==> IsWhitespace(s[i])
    ensures k == |s| || !IsWhitespace(s[k])
  {
    if |s| > 0 && IsWhitespace(s[0]) then 1 + LeadingWhitespace(s[1..]) else 0
  }

  /** The number of whitespace characters `s` ends with. */
  function TrailingWhitespace(s: string): (k: nat)
    ensures k <= |s|
    ensures forall i :: |s| - k <= i < |s| ==> IsWhitespace(s[i])
    ensures k == |s| || !IsWhitespace(s[|s| - k - 1])
  {
    if |s| > 0 && IsWhitespace(s[|s| - 1]) then 1 + TrailingWhitespace(s[..|s| - 1]) else 0
  }

  /** A blank string is all leading whitespace, and conversely. */
  lemma BlankIsAllLeading(s: string)
    ensures IsBlank(s) <==> LeadingWhitespace(s) == |s|
  {
  }

  /**
   * Kotlin's `String.trim()`: the run of `s` from its first to its last
   * non-whitespace character, or the empty string when `s` is blank.
   */
  function Trim(s: string): (r: string)
    ensures LeadingWhitespace(s) + |r| <= |s|
    ensures r == [] <==> IsBlank(s)
    ensures r == [] || (!IsWhitespace(r[0]) && !IsWhitespace(r[|r| - 1]))
    ensures r == s[LeadingWhitespace(s)..LeadingWhitespace(s) + |r|]
    ensures forall i :: LeadingWhitespace(s) + |r| <= i < |s| ==> IsWhitespace(s[i])
  {
    var a := LeadingWhitespace(s);
    if a == |s| then []
    else
      var b := |s| - TrailingWhitespace(s);
      assert a < b by {
        assert !IsWhitespace(s[a]);
      }
      s[a..b]
  }

  /** Trimming never introduces a character. */
  lemma TrimAvoids(s: string, cs: set<char>)
    requires Avoids(s, cs)
    ensures Avoids(Trim(s), cs)
  {
    var r := Trim(s);
    var a := LeadingWhitespace(s);
    forall k | 0 <= k < |r|
      ensures r[k] !in cs
    {
      assert r[k] == s[a + k];
    }
  }

  /** A string with no whitespace at either end is its own trim. */
  lemma TrimOfTrimmed(s: string)
    requires s == [] || (!IsWhitespace(s[0]) && !IsWhitespace(s[|s| - 1]))
    ensures Trim(s) == s
  {
    if s != [] {
      assert LeadingWhitespace(s) == 0;
      assert TrailingWhitespace(s) == 0;
    }
  }

  /**
   * `s.split(d1, d2, ...)` for the delimiters `seps`: the pieces between
   * delimiters, empty pieces included, so there is always at least one.
   */
  function Split(s: string, seps: set<char>): (r: seq<string>)
    ensures |r| >= 1
    ensures forall i :: 0 <= i < |r| ==> Avoids(r[i], seps)
  {
    if |s| == 0 then [""]
    else
      var rest := Split(s[1..], seps);
      if s[0] in seps then [""] + rest
      else [[s[0]] + rest[0]] + rest[1..]
  }

  /** A piece without delimiters is not split. */
  lemma {:induction false} SplitAvoiding(w: string, seps: set<char>)
    requires Avoids(w, seps)
    ensures Split(w, seps) == [w]
  {
    if |w| > 0 {
      SplitAvoiding(w[1..], seps);
      assert [w[0]] + w[1..] == w;
    }
  }

  /** One step of `Split`: the first character either ends a piece or extends the first piece. */
  lemma SplitCons(x: char, s: string, seps: set<char>)
    ensures Split([x] + s, seps) ==
              var rest := Split(s, seps);
              if x in seps then [""] + rest else [[x] + rest[0]] + rest[1..]
  {
    assert ([x] + s)[1..] == s;
  }

  /** Splitting distributes over one delimiter: `(a + c + b).split(..) == a.split(..) + b.split(..)`. */
  lemma {:induction false} SplitAppend(a: string, c: char, b: string, seps: set<char>)
    requires c in seps
    ensures Split(a + [c] + b, seps) == Split(a, seps) + Split(b, seps)
  {
    if |a| == 0 {
      assert a + [c] + b == [c] + b;
      SplitCons(c, b, seps);
    } else {
      var tail := a[1..];
      assert a == [a[0]] + tail;
      assert a + [c] + b == [a[0]] + (tail + [c] + b);
      SplitAppend(tail, c, b, seps);
      SplitCons(a[0], tail + [c] + b, seps);
      SplitCons(a[0], tail, seps);
      ConsAppend(a[0], Split(tail, seps), Split(b, seps), a[0] in seps);
    }
  }

  /** The sequence step behind `SplitAppend`: consing onto the first piece commutes with appending pieces. */
  lemma ConsAppend(x: char, left: seq<string>, right: seq<string>, isSep: bool)
    requires |left| >= 1
    ensures (if isSep then [""] + (left + right) else [[x] + (left + right)[0]] + (left + right)[1..])
         == (if isSep then [""] + left else [[x] + left[0]] + left[1..]) + right
  {
    if !isSep {
      assert (left + right)[0] == left[0];
      assert (left + right)[1..] == left[1..] + right;
    }
  }

  /** `joinToString(sep.toString())`. */
  function Join(ws: seq<string>, sep: char): string
  {
    if |ws| == 0 then ""
    else if |ws| == 1 then ws[0]
    else ws[0] + [sep] + Join(ws[1..], sep)
  }

  /** Joining words that do not contain the separator and splitting again gives the words back. */
  lemma {:induction false} SplitJoin(ws: seq<string>, sep: char)
    requires |ws| >= 1
    requires forall i :: 0 <= i < |ws| ==> Avoids(ws[i], {sep})
    ensures Split(Join(ws, sep), {sep}) == ws
  {
    if |ws| == 1 {
      SplitAvoiding(ws[0], {sep});
    } else {
      SplitJoin(ws[1..], sep);
      SplitAppend(ws[0], sep, Join(ws[1..], sep), {sep});
      SplitAvoiding(ws[0], {sep});
      assert [ws[0]] + ws[1..] == ws;
    }
  }
}
