/**
 * The two hashtag rules of the screens: the upload form turns the free-text
 * hashtag field into a tag list, and a feed card renders a tag list as one line
 * of `#tag` words.
 */
module Hashtags {
  import opened Wrappers
  import opened Text
  import opened Seqs

  /** The characters the upload form splits the hashtag field on. */
  const Separators: set<char> := {',', ' '}

  /** True when `t` is a tag the tokenizer can produce. */
  predicate IsTag(t: string) {
    && t != []
    && Avoids(t, Separators)
    && !IsWhitespace(t[0])
    && !IsWhitespace(t[|t| - 1])
  }

  /** The `mapNotNull` lambda: the trimmed piece, or null when it is blank. */
  function TagOf(piece: string): Option<string> {
    var t := Trim(piece);
    if IsBlank(t) then None else Some(t)
  }

  /** The `mapNotNull` step: trim every piece and drop the blank ones, in order. */
  function KeepTags(pieces: seq<string>): (r: seq<string>)
    ensures |r| <= |pieces|
  {
    MapNotNull(pieces, TagOf)
  }

  /** Pieces free of separators trim to tags. */
  lemma {:induction false} KeepTagsAreTags(pieces: seq<string>)
    requires forall i :: 0 <= i < |pieces| ==> Avoids(pieces[i], Separators)
    ensures forall i :: 0 <= i < |KeepTags(pieces)| ==> IsTag(KeepTags(pieces)[i])
  {
    if |pieces| > 0 {
      var head := OptionToSeq(TagOf(pieces[0]));
      var rest := KeepTags(pieces[1..]);
      KeepTagsAreTags(pieces[1..]);
      TagOfIsTag(pieces[0]);
      assert KeepTags(pieces) == head + rest;
      forall i | 0 <= i < |head + rest|
        ensures IsTag((head + rest)[i])
      {
        if i >= |head| {
          assert (head + rest)[i] == rest[i - |head|];
        }
      }
    }
  }

  /** A piece free of separators trims to a tag, unless it is blank. */
  lemma TagOfIsTag(piece: string)
    requires Avoids(piece, Separators)
    ensures TagOf(piece).Some? ==> IsTag(TagOf(piece).value)
  {
    TrimAvoids(piece, Separators);
  }

  /** The Upload button's tokenizer: `split(',', ' ')`, trim, drop blanks. */
  function Tokenize(field: string): (tags: seq<string>)
    ensures forall i :: 0 <= i < |tags| ==> IsTag(tags[i])
  {
    KeepTagsAreTags(Split(field, Separators));
    KeepTags(Split(field, Separators))
  }

  /** Tokenizing distributes over either separator. */
  lemma TokenizeAppend(a: string, c: char, b: string)
    requires c in Separators
    ensures Tokenize(a + [c] + b) == Tokenize(a) + Tokenize(b)
  {
    SplitAppend(a, c, b, Separators);
    MapNotNullAppend(Split(a, Separators), Split(b, Separators), TagOf);
  }

  /** A stretch without separators is one tag, taken verbatim after trimming, or none if blank. */
  lemma TokenizeWord(w: string)
    requires Avoids(w, Separators)
    ensures Tokenize(w) == (if IsBlank(w) then [] else [Trim(w)])
  {
    SplitAvoiding(w, Separators);
  }

  /** Input made only of separators and whitespace yields no tags. */
  lemma {:induction false} TokenizeBlank(field: string)
    requires forall i :: 0 <= i < |field| ==> field[i] in Separators || IsWhitespace(field[i])
    ensures Tokenize(field) == []
  {
    var k := PrefixUpToSeparator(field);
    var head := field[..k];
    assert IsBlank(head) by {
      forall i | 0 <= i < |head|
        ensures IsWhitespace(head[i])
      {
        assert head[i] == field[i];
      }
    }
    if k == |field| {
      assert head == field;
      TokenizeWord(field);
    } else {
      var tail := field[k + 1..];
      assert forall i :: 0 <= i < |tail| ==> tail[i] == field[k + 1 + i];
      TokenizeBlank(tail);
      CutAt(field, k);
      TokenizeBlankHead(head, field[k], tail);
    }
  }

  /** A string is the stretch before position `k`, the character at `k`, and the rest. */
  lemma CutAt(s: string, k: nat)
    requires k < |s|
    ensures s == s[..k] + [s[k]] + s[k + 1..]
  {
  }

  /** A blank stretch and the separator after it contribute no tags. */
  lemma TokenizeBlankHead(head: string, c: char, tail: string)
    requires Avoids(head, Separators) && IsBlank(head) && c in Separators
    ensures Tokenize(head + [c] + tail) == Tokenize(tail)
  {
    TokenizeAppend(head, c, tail);
    TokenizeWord(head);
  }

  /** Every string starts with a separator-free stretch that ends at a separator or at the end. */
  lemma PrefixUpToSeparator(s: string) returns (k: nat)
    ensures k <= |s| && Avoids(s[..k], Separators)
    ensures k == |s| || s[k] in Separators
  {
    k := 0;
    while k < |s| && s[k] !in Separators
      invariant 0 <= k <= |s|
      invariant Avoids(s[..k], Separators)
    {
      k := k + 1;
    }
  }

  /** Tabs and other non-space whitespace stay inside a tag. */
  lemma TabIsNotSeparator()
    ensures Tokenize("a\tb") == ["a\tb"]
  {
    var w := "a\tb";
    assert Avoids(w, Separators);
    assert !IsWhitespace(w[0]) && !IsWhitespace(w[|w| - 1]);
    TokenizeTag(w);
  }

  /** A tag on its own tokenizes to itself. */
  lemma TokenizeTag(t: string)
    requires IsTag(t)
    ensures Tokenize(t) == [t]
  {
    assert !IsBlank(t) by { assert !IsWhitespace(t[0]); }
    TokenizeWord(t);
    TrimOfTrimmed(t);
  }

  /**
   * The tokenizer undoes joining tags with a separator: every tag comes back
   * verbatim and in order, a leading '#' included.
   */
  lemma {:induction false} TokenizeJoined(tags: seq<string>, sep: char)
    requires sep in Separators
    requires forall i :: 0 <= i < |tags| ==> IsTag(tags[i])
    ensures Tokenize(Join(tags, sep)) == tags
  {
    if |tags| == 0 {
      TokenizeWord("");
    } else if |tags| == 1 {
      TokenizeTag(tags[0]);
    } else {
      var t, rest := tags[0], tags[1..];
      assert forall i :: 0 <= i < |rest| ==> rest[i] == tags[i + 1];
      TokenizeJoined(rest, sep);
      TokenizeTagThen(t, sep, Join(rest, sep));
      assert Join(tags, sep) == t + [sep] + Join(rest, sep);
      assert tags == [t] + rest;
    }
  }

  /** A tag followed by a separator contributes exactly itself. */
  lemma TokenizeTagThen(t: string, sep: char, rest: string)
    requires IsTag(t) && sep in Separators
    ensures Tokenize(t + [sep] + rest) == [t] + Tokenize(rest)
  {
    TokenizeTag(t);
    TokenizeAppend(t, sep, rest);
  }

  /** The feed's `trimStart('#')`: drops every leading '#'. */
  function StripHashes(t: string): (r: string)
    ensures |r| <= |t| && r == t[|t| - |r|..]
    ensures forall i :: 0 <= i < |t| - |r| ==> t[i] == '#'
    ensures r == [] || r[0] != '#'
  {
    if |t| > 0 && t[0] == '#' then StripHashes(t[1..]) else t
  }

  /** One rendered word: `"#${tag.trimStart('#')}"`. */
  function RenderTag(t: string): (w: string)
    ensures |w| >= 1 && w[0] == '#'
    ensures |w| == 1 || w[1] != '#'
  {
    "#" + StripHashes(t)
  }

  /** The transform of `joinToString`, applied to every tag in order. */
  function RenderTags(tags: seq<string>): (ws: seq<string>)
    ensures |ws| == |tags|
    ensures forall i :: 0 <= i < |tags| ==> ws[i] == RenderTag(tags[i])
  {
    if |tags| == 0 then [] else [RenderTag(tags[0])] + RenderTags(tags[1..])
  }

  /**
   * The hashtag line of a card: `joinToString(" ") { "#${it.trimStart('#')}" }`.
   * It is empty exactly for no tags, starts with a '#' otherwise, and is the one
   * rendered word for a single tag.
   */
  function Render(tags: seq<string>): (line: string)
    ensures line == [] <==> tags == []
    ensures tags != [] ==> line[0] == '#'
    ensures |tags| == 1 ==> line == RenderTag(tags[0])
  {
    Join(RenderTags(tags), ' ')
  }

  /** Existing leading hashes make no difference to a rendered tag. */
  lemma RenderTagIgnoresHashes(t: string)
    ensures RenderTag("#" + t) == RenderTag(t)
  {
    assert ("#" + t)[1..] == t;
  }

  /** Rendering a rendered tag again changes nothing. */
  lemma RenderTagIdempotent(t: string)
    ensures RenderTag(RenderTag(t)) == RenderTag(t)
  {
    RenderTagIgnoresHashes(StripHashes(t));
    assert StripHashes(StripHashes(t)) == StripHashes(t);
  }

  /** `["#a"]`, `["##a"]` and `["a"]` all render as `#a`. */
  lemma RenderExamples()
    ensures Render(["#a"]) == "#a"
    ensures Render(["##a"]) == "#a"
    ensures Render(["a"]) == "#a"
  {
    assert StripHashes("a") == "a";
    assert RenderTag("a") == "#a";
    assert "#" + "a" == "#a";
    RenderTagIgnoresHashes("a");
    assert "#" + "#a" == "##a";
    RenderTagIgnoresHashes("#a");
    RenderSingle("a");
    RenderSingle("#a");
    RenderSingle("##a");
  }

  /** A one-tag list renders as that tag's word. */
  lemma RenderSingle(t: string)
    ensures Render([t]) == RenderTag(t)
  {
    assert RenderTags([t]) == [RenderTag(t)];
  }

  /**
   * For tags without spaces, the rendered line splits back into exactly one
   * word per tag, in list order, each the rendered tag.
   */
  lemma RenderWords(tags: seq<string>)
    requires |tags| >= 1
    requires forall i :: 0 <= i < |tags| ==> Avoids(tags[i], {' '})
    ensures |Split(Render(tags), {' '})| == |tags|
    ensures forall i :: 0 <= i < |tags| ==> Split(Render(tags), {' '})[i] == RenderTag(tags[i])
  {
    var ws := RenderTags(tags);
    forall i | 0 <= i < |ws|
      ensures Avoids(ws[i], {' '})
    {
      RenderTagAvoidsSpace(tags[i]);
    }
    SplitJoin(ws, ' ');
  }

  /** Rendering adds no space to a tag. */
  lemma RenderTagAvoidsSpace(t: string)
    requires Avoids(t, {' '})
    ensures Avoids(RenderTag(t), {' '})
  {
    var r := StripHashes(t);
    forall j | 0 <= j < |r|
      ensures r[j] != ' '
    {
      assert r[j] == t[|t| - |r| + j];
    }
    assert RenderTag(t) == "#" + r;
  }
}
