/** Recognisers for compact tokens (section 7.1 of RFC 7515) in arbitrary text. */
module TokenShape {
  import opened Wrappers
  import Text

  /** A character of `[A-Za-z0-9-_=]`, the set `isLikelyJWT` allows. */
  predicate JwtChar(ch: char) {
    || 'A' <= ch <= 'Z'
    || 'a' <= ch <= 'z'
    || '0' <= ch <= '9'
    || ch == '-' || ch == '_' || ch == '='
  }

  /** `isLikelyJWT`: at least two non-empty `.`-segments, and no segment holds a
      character outside the allowed set. */
  predicate IsLikelyJwt(s: string) {
    var parts := Text.Split(s, '.');
    |parts| >= 2 && forall k :: 0 <= k < |parts| ==> Text.AllChars(parts[k], JwtChar)
  }

  /** The same recogniser stated on the characters of the input: every character
      is `.` or in the allowed set. */
  lemma IsLikelyJwtIff(s: string)
    ensures IsLikelyJwt(s)
        <==> (|Text.Split(s, '.')| >= 2 && forall i :: 0 <= i < |s| ==> s[i] == '.' || JwtChar(s[i]))
  {
    Text.SplitCharsIff(s, '.', JwtChar);
  }

  /** The shape `findJWTInString` looks for in a word: two or three non-empty
      `.`-segments. */
  predicate JwtShaped(word: string) {
    2 <= |Text.Split(word, '.')| <= 3
  }

  /** Index of the first word of the given shape, or `|words|` when there is none. */
  function FirstJwtShaped(words: seq<string>): (i: nat)
    ensures i <= |words|
    ensures i < |words| ==> JwtShaped(words[i])
    ensures forall j :: 0 <= j < i ==> !JwtShaped(words[j])
  {
    if words == [] then 0
    else if JwtShaped(words[0]) then 0
    else 1 + FirstJwtShaped(words[1..])
  }

  /** `findJWTInString`: the first space-separated word that has two or three
      non-empty `.`-segments. */
  function FindJwtInString(s: string): (r: Option<string>)
    ensures r.Some? ==> r.value != [] && ' ' !in r.value && JwtShaped(r.value)
    ensures r.Some? ==> exists i :: 0 <= i < |Text.Split(s, ' ')| && Text.Split(s, ' ')[i] == r.value
                                    && forall j :: 0 <= j < i ==> !JwtShaped(Text.Split(s, ' ')[j])
    ensures r.None? <==> forall i :: 0 <= i < |Text.Split(s, ' ')| ==> !JwtShaped(Text.Split(s, ' ')[i])
  {
    var words := Text.Split(s, ' ');
    var i := FirstJwtShaped(words);
    if i < |words| then
      assert !forall k :: 0 <= k < |Text.Split(s, ' ')| ==> !JwtShaped(Text.Split(s, ' ')[k]) by {
        assert JwtShaped(Text.Split(s, ' ')[i]);
      }
      Some(words[i])
    else None
  }

  /** What `findJWTInString` returns is a contiguous piece of its input. */
  lemma FoundJwtIsSubstring(s: string)
    ensures FindJwtInString(s).Some? ==> Text.IsSubstring(FindJwtInString(s).value, s)
  {
    Text.SplitPartsAreSubstrings(s, ' ');
  }
}
