/** The string operations of Swift's standard library that the manager relies on,
    restated on `seq<char>`: `split(separator:)`, `contains`, `lowercased()`. */
module Text {

  /** Length of the longest prefix of `s` that does not contain `c`. */
  function WordLength(s: string, c: char): (n: nat)
    ensures n <= |s|
    ensures forall i :: 0 <= i < n ==> s[i] != c
    ensures n < |s| ==> s[n] == c
  {
    if s == [] || s[0] == c then 0 else 1 + WordLength(s[1..], c)
  }

  /** The pieces of `parts` written one after another. */
  function Concat(parts: seq<string>): string {
    if parts == [] then [] else parts[0] + Concat(parts[1..])
  }

  /** `s` with every `c` removed. */
  function Remove(s: string, c: char): (r: string)
    ensures c !in r
  {
    if s == [] then [] else (if s[0] == c then [] else [s[0]]) + Remove(s[1..], c)
  }

  lemma {:induction false} RemoveAppend(a: string, b: string, c: char)
    ensures Remove(a + b, c) == Remove(a, c) + Remove(b, c)
    decreases |a|
  {
    if a != [] {
      assert (a + b)[1..] == a[1..] + b;
      RemoveAppend(a[1..], b, c);
    } else {
      assert a + b == b;
    }
  }

  lemma {:induction false} RemoveAbsent(w: string, c: char)
    requires c !in w
    ensures Remove(w, c) == w
    decreases |w|
  {
    if w != [] {
      assert w[0] in w;
      assert forall ch :: ch in w[1..] ==> ch in w;
      RemoveAbsent(w[1..], c);
    }
  }

  /** Swift's `s.split(separator: c)`, which by default omits empty pieces: the
      maximal runs of characters other than `c`, left to right. The pieces hold
      every other character of `s`, in order; there are none exactly when `s` is
      made of separators only. */
  function Split(s: string, c: char): (parts: seq<string>)
    ensures forall k :: 0 <= k < |parts| ==> parts[k] != [] && c !in parts[k]
    ensures Concat(parts) == Remove(s, c)
    ensures parts == [] <==> forall i :: 0 <= i < |s| ==> s[i] == c
    decreases |s|
  {
    if s == [] then []
    else if s[0] == c then
      assert forall i :: 1 <= i < |s| ==> s[i] == s[1..][i - 1];
      Split(s[1..], c)
    else
      var n := WordLength(s, c);
      var rest := Split(s[n..], c);
      WordThenPieces(s, c, n, rest);
      [s[..n]] + rest
  }

  /** A leading word followed by the pieces of the remainder are the pieces of
      the whole string. */
  lemma WordThenPieces(s: string, c: char, n: nat, rest: seq<string>)
    requires 0 < n <= |s|
    requires forall i :: 0 <= i < n ==> s[i] != c
    requires forall k :: 0 <= k < |rest| ==> rest[k] != [] && c !in rest[k]
    requires Concat(rest) == Remove(s[n..], c)
    ensures forall k :: 0 <= k < |[s[..n]] + rest| ==> ([s[..n]] + rest)[k] != [] && c !in ([s[..n]] + rest)[k]
    ensures Concat([s[..n]] + rest) == Remove(s, c)
  {
    assert ([s[..n]] + rest)[1..] == rest;
    assert s == s[..n] + s[n..];
    RemoveAppend(s[..n], s[n..], c);
    RemoveAbsent(s[..n], c);
  }

  /** `t` occurs in `s` starting at index `i`. */
  predicate OccursAt(s: string, t: string, i: int) {
    0 <= i && i + |t| <= |s| && s[i..i + |t|] == t
  }

  /** Swift's `s.contains(t)` for a string argument. */
  predicate Contains(s: string, t: string) {
    exists i | 0 <= i <= |s| - |t| :: OccursAt(s, t, i)
  }

  /** `t` is a contiguous piece of `s`. */
  ghost predicate IsSubstring(t: string, s: string) {
    exists i :: OccursAt(s, t, i)
  }

  /** `String(s.split(separator: c).last ?? "")` */
  function LastSegment(s: string, c: char): string {
    var parts := Split(s, c);
    if parts == [] then "" else parts[|parts| - 1]
  }

  /** Every character of `s` satisfies `p`. */
  predicate AllChars(s: string, p: char -> bool) {
    forall i :: 0 <= i < |s| ==> p(s[i])
  }

  /** ASCII lower-casing of one character. */
  function LowerAscii(ch: char): char {
    if 'A' <= ch <= 'Z' then (ch as int + 32) as char else ch
  }

  /** `s.lowercased()`, restricted to the ASCII letters. */
  function ToLowerAscii(s: string): (r: string)
    ensures |r| == |s|
    ensures forall i :: 0 <= i < |s| ==> r[i] == LowerAscii(s[i])
  {
    seq(|s|, i requires 0 <= i < |s| => LowerAscii(s[i]))
  }

  /** `r` is the last maximal run of non-`c` characters of `s`, found at index `k`:
      it is preceded by `c` (or the start) and followed only by copies of `c`. */
  ghost predicate FinalRunAt(s: string, c: char, r: string, k: int) {
    && OccursAt(s, r, k)
    && r != []
    && c !in r
    && (k == 0 || s[k - 1] == c)
    && forall j :: k + |r| <= j < |s| ==> s[j] == c
  }

  /** An occurrence in a suffix is an occurrence in the whole string, shifted. */
  lemma OccursInSuffix(s: string, m: nat, t: string, i: int)
    requires m <= |s|
    requires OccursAt(s[m..], t, i)
    ensures OccursAt(s, t, i + m)
  {
    assert s[i + m..i + m + |t|] == s[m..][i..i + |t|];
  }

  /** Every piece of a split is a contiguous substring of the input. */
  lemma {:induction false} SplitPartsAreSubstrings(s: string, c: char)
    ensures forall k :: 0 <= k < |Split(s, c)| ==> IsSubstring(Split(s, c)[k], s)
    decreases |s|
  {
    if s == [] {
    } else if s[0] == c {
      var rest := s[1..];
      assert Split(s, c) == Split(rest, c);
      SplitPartsAreSubstrings(rest, c);
      forall k | 0 <= k < |Split(s, c)|
        ensures IsSubstring(Split(s, c)[k], s)
      {
        var p := Split(rest, c)[k];
        assert IsSubstring(p, rest);
        var i :| OccursAt(rest, p, i);
        OccursInSuffix(s, 1, p, i);
      }
    } else {
      var n := WordLength(s, c);
      var rest := s[n..];
      assert Split(s, c) == [s[..n]] + Split(rest, c);
      SplitPartsAreSubstrings(rest, c);
      forall k | 0 <= k < |Split(s, c)|
        ensures IsSubstring(Split(s, c)[k], s)
      {
        var p := Split(s, c)[k];
        if k == 0 {
          assert OccursAt(s, p, 0);
        } else {
          assert p == Split(rest, c)[k - 1];
          assert IsSubstring(p, rest);
          var i :| OccursAt(rest, p, i);
          OccursInSuffix(s, n, p, i);
        }
      }
    }
  }

  /** A final run of a suffix that does not start the suffix is a final run of the
      whole string. */
  lemma FinalRunInSuffix(s: string, m: nat, c: char, r: string, k: int)
    requires m <= |s|
    requires FinalRunAt(s[m..], c, r, k)
    requires k > 0 || m == 0 || s[m - 1] == c
    ensures FinalRunAt(s, c, r, k + m)
  {
    OccursInSuffix(s, m, r, k);
    if k > 0 {
      assert s[k + m - 1] == s[m..][k - 1];
    }
    forall j | k + m + |r| <= j < |s|
      ensures s[j] == c
    {
      assert s[j] == s[m..][j - m];
    }
  }

  /** The last piece of a non-empty split is the final maximal run of non-separator
      characters: Swift's `split(...).last` skips trailing separators. */
  lemma {:induction false} LastSegmentIsFinalRun(s: string, c: char)
    requires Split(s, c) != []
    ensures exists k :: FinalRunAt(s, c, LastSegment(s, c), k)
    decreases |s|
  {
    if s[0] == c {
      var rest := s[1..];
      assert Split(s, c) == Split(rest, c);
      LastSegmentIsFinalRun(rest, c);
      var r := LastSegment(rest, c);
      assert LastSegment(s, c) == r;
      var k :| FinalRunAt(rest, c, r, k);
      FinalRunInSuffix(s, 1, c, r, k);
    } else {
      var n := WordLength(s, c);
      if Split(s[n..], c) == [] {
        OnlyWordIsFinalRun(s, c, n);
      } else {
        LastSegmentIsFinalRun(s[n..], c);
        LaterWordIsFinalRun(s, c, n);
      }
    }
  }

  /** A leading word followed only by separators is the final run. */
  lemma OnlyWordIsFinalRun(s: string, c: char, n: nat)
    requires s != [] && s[0] != c && n == WordLength(s, c)
    requires Split(s[n..], c) == []
    ensures exists k :: FinalRunAt(s, c, LastSegment(s, c), k)
  {
    var rest := s[n..];
    assert Split(s, c) == [s[..n]] + Split(rest, c);
    assert LastSegment(s, c) == s[..n];
    forall j | n <= j < |s|
      ensures s[j] == c
    {
      assert s[j] == rest[j - n];
    }
    assert OccursAt(s, s[..n], 0);
    assert FinalRunAt(s, c, s[..n], 0);
  }

  /** After a leading word, the final run of the remainder is the final run. */
  lemma LaterWordIsFinalRun(s: string, c: char, n: nat)
    requires s != [] && s[0] != c && n == WordLength(s, c)
    requires Split(s[n..], c) != []
    requires exists k :: FinalRunAt(s[n..], c, LastSegment(s[n..], c), k)
    ensures exists k :: FinalRunAt(s, c, LastSegment(s, c), k)
  {
    var rest := s[n..];
    assert Split(s, c) == [s[..n]] + Split(rest, c);
    var r := LastSegment(rest, c);
    assert LastSegment(s, c) == r;
    var k :| FinalRunAt(rest, c, r, k);
    FinalRunInSuffix(s, n, c, r, k);
  }

  /** Every character of every piece satisfies `p`. */
  predicate AllPieces(parts: seq<string>, p: char -> bool) {
    forall k :: 0 <= k < |parts| ==> AllChars(parts[k], p)
  }

  /** Every character of `s` is the separator `c` or satisfies `p`. */
  predicate SeparatorOr(s: string, c: char, p: char -> bool) {
    forall i :: 0 <= i < |s| ==> s[i] == c || p(s[i])
  }

  lemma AllPiecesCons(w: string, tail: seq<string>, p: char -> bool)
    ensures AllPieces([w] + tail, p) <==> AllChars(w, p) && AllPieces(tail, p)
  {
    var parts := [w] + tail;
    assert parts[0] == w;
    assert forall k :: 0 <= k < |tail| ==> tail[k] == parts[k + 1];
  }

  lemma SeparatorOrAppend(a: string, b: string, c: char, p: char -> bool)
    ensures SeparatorOr(a + b, c, p) <==> SeparatorOr(a, c, p) && SeparatorOr(b, c, p)
  {
    var s := a + b;
    assert forall i :: 0 <= i < |b| ==> b[i] == s[i + |a|];
    assert forall i :: 0 <= i < |a| ==> a[i] == s[i];
  }

  /** A property holds of every character of every piece exactly when it holds of
      every character of the input other than the separator. */
  lemma {:induction false} SplitCharsIff(s: string, c: char, p: char -> bool)
    ensures AllPieces(Split(s, c), p) <==> SeparatorOr(s, c, p)
    decreases |s|
  {
    if s == [] {
    } else if s[0] == c {
      assert Split(s, c) == Split(s[1..], c);
      SplitCharsIff(s[1..], c, p);
      assert s == [c] + s[1..];
      SeparatorOrAppend([c], s[1..], c, p);
    } else {
      var n := WordLength(s, c);
      var w, rest := s[..n], s[n..];
      SplitCharsIff(rest, c, p);
      assert Split(s, c) == [w] + Split(rest, c);
      AllPiecesCons(w, Split(rest, c), p);
      assert s == w + rest;
      SeparatorOrAppend(w, rest, c, p);
      assert SeparatorOr(w, c, p) <==> AllChars(w, p);
    }
  }

  /** A leading non-empty, separator-free word followed by the end of the input
      or by a separator is the first piece of the split. */
  lemma {:induction false} SplitLeadingWord(w: string, rest: string, c: char)
    requires w != [] && c !in w
    requires rest == [] || rest[0] == c
    ensures Split(w + rest, c) == [w] + Split(rest, c)
  {
    var s := w + rest;
    WordLengthOfWord(w, rest, c);
    assert s[..|w|] == w;
    assert s[|w|..] == rest;
  }

  lemma {:induction false} WordLengthOfWord(w: string, rest: string, c: char)
    requires c !in w
    requires rest == [] || rest[0] == c
    ensures WordLength(w + rest, c) == |w|
    decreases |w|
  {
    if w != [] {
      assert (w + rest)[1..] == w[1..] + rest;
      WordLengthOfWord(w[1..], rest, c);
    }
  }

  /** The words written out with one `c` between neighbours. */
  function Join(words: seq<string>, c: char): string {
    if words == [] then []
    else if |words| == 1 then words[0]
    else words[0] + [c] + Join(words[1..], c)
  }

  /** Splitting undoes joining: non-empty, separator-free words joined by single
      separators come back as exactly those words, so no piece of a split is ever
      cut short or merged with its neighbour. */
  lemma {:induction false} SplitJoinRoundTrip(words: seq<string>, c: char)
    requires forall k :: 0 <= k < |words| ==> words[k] != [] && c !in words[k]
    ensures Split(Join(words, c), c) == words
    decreases |words|
  {
    if |words| == 1 {
      assert Join(words, c) == words[0] + [];
      SplitLeadingWord(words[0], [], c);
    } else if |words| > 1 {
      SplitJoinStep(words, c);
      SplitJoinRoundTrip(words[1..], c);
      assert words == [words[0]] + words[1..];
    }
  }

  lemma SplitJoinStep(words: seq<string>, c: char)
    requires |words| > 1 && words[0] != [] && c !in words[0]
    ensures Split(Join(words, c), c) == [words[0]] + Split(Join(words[1..], c), c)
  {
    var tail := Join(words[1..], c);
    assert Join(words, c) == words[0] + ([c] + tail);
    SplitLeadingWord(words[0], [c] + tail, c);
    SplitSkipsSeparator(tail, c);
  }

  /** The second piece of `w1 c w2 rest` is `w2`, when `rest` is empty or starts a
      new piece. */
  lemma SplitSecondWord(w1: string, w2: string, rest: string, c: char)
    requires w1 != [] && c !in w1
    requires w2 != [] && c !in w2
    requires rest == [] || rest[0] == c
    ensures |Split(w1 + ([c] + (w2 + rest)), c)| >= 2
    ensures Split(w1 + ([c] + (w2 + rest)), c)[1] == w2
  {
    SplitLeadingWord(w2, rest, c);
    SplitSkipsSeparator(w2 + rest, c);
    SplitLeadingWord(w1, [c] + (w2 + rest), c);
  }

  /** A leading separator is skipped. */
  lemma SplitSkipsSeparator(rest: string, c: char)
    ensures Split([c] + rest, c) == Split(rest, c)
  {
    assert ([c] + rest)[1..] == rest;
  }
}
