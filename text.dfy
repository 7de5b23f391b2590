/** Case-insensitive substring matching: `keyword.lower() in body.lower()`. */
module Text {

  /** `str.lower()` on one character, restricted to ASCII letters. */
  function LowerChar(c: char): char
  {
    if 'A' <= c <= 'Z' then (c as int - 'A' as int + 'a' as int) as char else c
  }

  /** `str.lower()` on a string, character by character. */
  function Lower(s: string): string
  {
    seq(|s|, i requires 0 <= i < |s| => LowerChar(s[i]))
  }

  /** Python's `needle in hay` on strings: some suffix of `hay` starts with `needle`. */
  function Contains(hay: string, needle: string): bool
    decreases |hay|
  {
    needle <= hay || (hay != [] && Contains(hay[1..], needle))
  }

  /** `needle` occurs in `hay` starting at index `i`. */
  ghost predicate OccursAt(hay: string, needle: string, i: int)
  {
    0 <= i && i + |needle| <= |hay| && hay[i..i + |needle|] == needle
  }

  /** The recursive `Contains` means exactly "occurs at some index". */
  lemma {:induction false} ContainsIffOccurs(hay: string, needle: string)
    ensures Contains(hay, needle) <==> exists i :: OccursAt(hay, needle, i)
    decreases |hay|
  {
    if needle <= hay {
      assert hay[0..|needle|] == needle;
      assert OccursAt(hay, needle, 0);
    } else if hay == [] {
    } else {
      ContainsIffOccurs(hay[1..], needle);
      if Contains(hay[1..], needle) {
        var i :| OccursAt(hay[1..], needle, i);
        assert hay[i + 1..i + 1 + |needle|] == hay[1..][i..i + |needle|];
        assert OccursAt(hay, needle, i + 1);
      }
      if exists i :: OccursAt(hay, needle, i) {
        var i :| OccursAt(hay, needle, i);
        if i == 0 {
          assert false;
        }
        assert hay[1..][i - 1..i - 1 + |needle|] == hay[i..i + |needle|];
        assert OccursAt(hay[1..], needle, i - 1);
      }
    }
  }

  /** The search predicate of both keyword searches. */
  predicate KeywordIn(keyword: string, body: string)
  {
    Contains(Lower(body), Lower(keyword))
  }

  /** A keyword matches a body exactly when its lower-cased form occurs in
      the lower-cased body. */
  lemma KeywordInIff(keyword: string, body: string)
    ensures KeywordIn(keyword, body) <==> exists i :: OccursAt(Lower(body), Lower(keyword), i)
  {
    ContainsIffOccurs(Lower(body), Lower(keyword));
  }

  /** Lower-casing twice is lower-casing once. */
  lemma LowerIdempotent(s: string)
    ensures Lower(Lower(s)) == Lower(s)
  {
  }

  /** Matching ignores case on both sides: lower-casing the keyword or the
      body first changes nothing. */
  lemma KeywordInIgnoresCase(keyword: string, body: string)
    ensures KeywordIn(Lower(keyword), body) == KeywordIn(keyword, body)
    ensures KeywordIn(keyword, Lower(body)) == KeywordIn(keyword, body)
  {
    LowerIdempotent(keyword);
    LowerIdempotent(body);
  }

  /** The empty keyword matches every body, as `'' in s` holds in Python. */
  lemma EmptyKeywordMatches(body: string)
    ensures KeywordIn("", body)
  {
  }
}
