/**
 * The two Go string operations the command loop relies on:
 * `strings.TrimSpace` (white space as `unicode.IsSpace` defines it) and
 * `strings.SplitN(s, sep, 2)` for a one-character separator.
 */
module GoStrings {
  import opened Common

  /** `unicode.IsSpace`: the Latin-1 spaces plus the other Unicode White_Space characters. */
  predicate IsSpace(c: char) {
    || c == '\t' || c == '\n' || c == '\U{B}' || c == '\U{C}' || c == '\r' || c == ' '
    || c == '\U{85}' || c == '\U{A0}' || c == '\U{1680}'
    || ('\U{2000}' <= c <= '\U{200A}')
    || c == '\U{2028}' || c == '\U{2029}' || c == '\U{202F}' || c == '\U{205F}' || c == '\U{3000}'
  }

  /** The end of the run of white space starting at `k`. */
  function SpacesFrom(s: string, k: nat): (n: nat)
    requires k <= |s|
    ensures k <= n <= |s|
    ensures forall m :: k <= m < n ==> IsSpace(s[m])
    ensures n == |s| || !IsSpace(s[n])
    decreases |s| - k
  {
    if k < |s| && IsSpace(s[k]) then SpacesFrom(s, k + 1) else k
  }

  /** The start of the run of white space ending just before `k`. */
  function SpacesBefore(s: string, k: nat): (n: nat)
    requires k <= |s|
    ensures n <= k
    ensures forall m :: n <= m < k ==> IsSpace(s[m])
    ensures n == 0 || !IsSpace(s[n - 1])
    decreases k
  {
    if k > 0 && IsSpace(s[k - 1]) then SpacesBefore(s, k - 1) else k
  }

  /**
   * `strings.TrimSpace`: the text between the leading and the trailing white
   * space; empty when there is nothing else.
   */
  function TrimSpace(s: string): (r: string)
    ensures r == [] || (!IsSpace(r[0]) && !IsSpace(r[|r| - 1]))
  {
    var i := SpacesFrom(s, 0);
    if i == |s| then [] else s[i..SpacesBefore(s, |s|)]
  }

  /** TrimSpace gives the empty string exactly for a string of white space only. */
  lemma TrimSpaceEmptyIff(s: string)
    ensures TrimSpace(s) == [] <==> forall i :: 0 <= i < |s| ==> IsSpace(s[i])
  {
    var i := SpacesFrom(s, 0);
    if i < |s| {
      assert !IsSpace(s[i]);
      assert SpacesBefore(s, |s|) > i;
    }
  }

  /** TrimSpace removes a run of white space at each end and nothing else. */
  lemma TrimSpaceSlice(s: string) returns (i: nat, j: nat)
    ensures i <= j <= |s| && TrimSpace(s) == s[i..j]
    ensures forall k :: 0 <= k < i ==> IsSpace(s[k])
    ensures forall k :: j <= k < |s| ==> IsSpace(s[k])
  {
    i := SpacesFrom(s, 0);
    if i == |s| {
      j := i;
    } else {
      j := SpacesBefore(s, |s|);
      assert !IsSpace(s[i]);
    }
  }

  /** A string that neither starts nor ends with white space is left as it is. */
  lemma TrimSpaceKeeps(s: string)
    requires s != [] && !IsSpace(s[0]) && !IsSpace(s[|s| - 1])
    ensures TrimSpace(s) == s
  {
  }

  /** Trimming twice is trimming once. */
  lemma TrimSpaceIdempotent(s: string)
    ensures TrimSpace(TrimSpace(s)) == TrimSpace(s)
  {
    var r := TrimSpace(s);
    if r != [] {
      TrimSpaceKeeps(r);
    }
  }

  /** The index of the first `c` in `s`. */
  function IndexOf(s: string, c: char): (r: Option<nat>)
    ensures r.None? <==> c !in s
    ensures r.Some? ==> r.value < |s| && s[r.value] == c && c !in s[..r.value]
    decreases |s|
  {
    if s == [] then None
    else if s[0] == c then Some(0)
    else match IndexOf(s[1..], c)
      case None => None
      case Some(i) =>
        assert s[..i + 1] == [s[0]] + s[1..][..i];
        Some(i + 1)
  }

  /**
   * `strings.SplitN(s, string(sep), 2)`: the whole string when `sep` does not
   * occur, otherwise the text before its first occurrence and the rest.
   */
  function SplitN2(s: string, sep: char): (parts: seq<string>)
    ensures |parts| == 1 || |parts| == 2
    ensures |parts| == 1 <==> sep !in s
    ensures |parts| == 1 ==> parts[0] == s
    ensures |parts| == 2 ==> s == parts[0] + [sep] + parts[1] && sep !in parts[0]
  {
    match IndexOf(s, sep)
    case None => [s]
    case Some(i) =>
      assert s == s[..i] + [sep] + s[i + 1..];
      [s[..i], s[i + 1..]]
  }

  /** Splitting after a first word with no separator in it gives back the word and the rest verbatim. */
  lemma SplitAfterWord(word: string, rest: string, sep: char)
    requires sep !in word
    ensures SplitN2(word + [sep] + rest, sep) == [word, rest]
  {
    var s := word + [sep] + rest;
    var parts := SplitN2(s, sep);
    assert s[|word|] == sep;
    assert |parts| == 2;
    assert parts[0] == s[..|word|] == word;
    assert parts[1] == s[|word| + 1..] == rest;
  }
}
