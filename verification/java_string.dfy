/**
 * Java's `String.hashCode()`, which the feed uses to turn a document id into the
 * `Long` list key of a post: `s[0]*31^(n-1) + ... + s[n-1]` over the UTF-16 code
 * units of the string, in 32-bit two's-complement arithmetic.
 */
module JavaString {

  const TwoTo32: int := 0x1_0000_0000
  const TwoTo31: int := 0x8000_0000

  /** The UTF-16 code units of one character: one unit, or a surrogate pair above U+FFFF. */
  function Utf16Units(c: char): (units: seq<int>)
    ensures 1 <= |units| <= 2
    ensures forall i :: 0 <= i < |units| ==> 0 <= units[i] < 0x1_0000
  {
    var n := c as int;
    if n < 0x1_0000 then [n]
    else
      var v := n - 0x1_0000;
      [0xD800 + v / 0x400, 0xDC00 + v % 0x400]
  }

  /** The UTF-16 encoding of a string, as Java stores it. */
  function Utf16(s: string): (units: seq<int>)
    ensures |units| >= |s|
    ensures forall i :: 0 <= i < |units| ==> 0 <= units[i] < 0x1_0000
  {
    if |s| == 0 then [] else Utf16(s[..|s| - 1]) + Utf16Units(s[|s| - 1])
  }

  /** The hash loop `h = 31 * h + unit`, kept as an unsigned 32-bit value. */
  function HashLoop(units: seq<int>): (h: int)
    ensures 0 <= h < TwoTo32
  {
    if |units| == 0 then 0
    else (31 * HashLoop(units[..|units| - 1]) + units[|units| - 1]) % TwoTo32
  }

  /** Reinterprets an unsigned 32-bit value as a signed Java `int`. */
  function ToInt32(u: int): (r: int)
    requires 0 <= u < TwoTo32
    ensures -TwoTo31 <= r < TwoTo31
    ensures (r - u) % TwoTo32 == 0
  {
    if u < TwoTo31 then u else u - TwoTo32
  }

  /** `String.hashCode()`. */
  function HashCode(s: string): (h: int)
    ensures -TwoTo31 <= h < TwoTo31
  {
    ToInt32(HashLoop(Utf16(s)))
  }

  lemma Utf16OfPair(a: char, b: char)
    requires a as int < 0x1_0000 && b as int < 0x1_0000
    ensures Utf16([a, b]) == [a as int, b as int]
  {
    assert [a, b][..1] == [a];
    assert [a][..0] == [];
    assert Utf16([a]) == [] + Utf16Units(a) == [a as int];
    assert Utf16([a, b]) == Utf16([a]) + Utf16Units(b);
  }

  lemma HashLoopOfPair(x: int, y: int)
    requires 0 <= x < 0x1_0000 && 0 <= y < 0x1_0000
    ensures HashLoop([x, y]) == 31 * x + y
  {
    assert [x, y][..1] == [x];
    assert [x][..0] == [];
    assert HashLoop([x]) == (31 * 0 + x) % TwoTo32 == x;
    assert HashLoop([x, y]) == (31 * x + y) % TwoTo32;
  }

  /** A two-character string of the Basic Multilingual Plane hashes to `31 * a + b`. */
  lemma HashCodeOfPair(a: char, b: char)
    requires a as int < 0x1_0000 && b as int < 0x1_0000
    ensures HashCode([a, b]) == 31 * (a as int) + b as int
  {
    Utf16OfPair(a, b);
    HashLoopOfPair(a as int, b as int);
  }

  /** Distinct strings can share a hash code: "Aa" and "BB" both hash to 2112. */
  lemma HashCodeCollides()
    ensures "Aa" != "BB"
    ensures HashCode("Aa") == HashCode("BB") == 2112
  {
    HashCodeOfPair('A', 'a');
    HashCodeOfPair('B', 'B');
    assert "Aa" == ['A', 'a'] && "BB" == ['B', 'B'];
  }
}
