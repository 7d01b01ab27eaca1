/**
 * The three functions of Go's `strings` package that the program relies on:
 * `ToLower`, `TrimSpace` and `Contains`. Strings are sequences of runes.
 */
module GoStrings {

  // ---------------------------------------------------------------------------
  // Lower-casing (ASCII letters only)
  // ---------------------------------------------------------------------------

  predicate IsUpperAscii(c: char) {
    'A' <= c <= 'Z'
  }

  /** The lower-case form of one rune: ASCII capitals move to 'a'..'z', every other rune stays. */
  function LowerRune(c: char): (l: char)
    ensures !IsUpperAscii(l)
    ensures IsUpperAscii(c) ==> l as int == c as int + 32
    ensures !IsUpperAscii(c) ==> l == c
  {
    if IsUpperAscii(c) then (c as int - 'A' as int + 'a' as int) as char else c
  }

  /** No rune of `s` is an ASCII capital. */
  predicate IsLower(s: string) {
    forall i :: 0 <= i < |s| ==> !IsUpperAscii(s[i])
  }

  /** `strings.ToLower`, restricted to ASCII letters. */
  function ToLower(s: string): (r: string)
    ensures |r| == |s|
    ensures forall i :: 0 <= i < |s| ==> r[i] == LowerRune(s[i])
    ensures IsLower(r)
  {
    if s == [] then [] else [LowerRune(s[0])] + ToLower(s[1..])
  }

  /** A string without capitals is its own lower-case form. */
  lemma ToLowerOfLower(s: string)
    requires IsLower(s)
    ensures ToLower(s) == s
  {
    assert forall i :: 0 <= i < |s| ==> ToLower(s)[i] == s[i];
  }

  /** Lower-casing is idempotent. */
  lemma ToLowerIdempotent(s: string)
    ensures ToLower(ToLower(s)) == ToLower(s)
  {
    ToLowerOfLower(ToLower(s));
  }

  // ---------------------------------------------------------------------------
  // White space and trimming
  // ---------------------------------------------------------------------------

  /**
   * `unicode.IsSpace`: the runes of Unicode's White_Space property, which is
   * the set Go's `strings.TrimSpace` strips.
   */
  predicate IsSpace(c: char) {
    || '\t' <= c <= '\r'
    || c == ' '
    || c == '\U{0085}'
    || c == '\U{00A0}'
    || c == '\U{1680}'
    || '\U{2000}' <= c <= '\U{200A}'
    || c == '\U{2028}'
    || c == '\U{2029}'
    || c == '\U{202F}'
    || c == '\U{205F}'
    || c == '\U{3000}'
  }

  /** `s` neither starts nor ends with white space. */
  predicate NoEdgeSpace(s: string) {
    s != [] ==> !IsSpace(s[0]) && !IsSpace(s[|s| - 1])
  }

  /**
   * `s[lo..hi]` is what remains of `s` once its leading and trailing white
   * space is removed: everything outside the slice is space and the slice
   * does not start or end with space.
   */
  ghost predicate TrimBounds(s: string, lo: int, hi: int) {
    && 0 <= lo <= hi <= |s|
    && (forall k :: 0 <= k < lo ==> IsSpace(s[k]))
    && (forall k :: hi <= k < |s| ==> IsSpace(s[k]))
    && NoEdgeSpace(s[lo..hi])
  }

  /** Reference definition of trimming: `r` is `s` with its white-space border cut off. */
  ghost predicate IsTrimOf(s: string, r: string) {
    exists lo, hi :: TrimBounds(s, lo, hi) && r == s[lo..hi]
  }

  /** The end of the run of white space in `s` that starts at `i`. */
  function SpaceRunEnd(s: string, i: nat): (j: nat)
    requires i <= |s|
    ensures i <= j <= |s|
    ensures forall k :: i <= k < j ==> IsSpace(s[k])
    ensures j < |s| ==> !IsSpace(s[j])
    decreases |s| - i
  {
    if i < |s| && IsSpace(s[i]) then SpaceRunEnd(s, i + 1) else i
  }

  /** The start of the run of white space in `s` that ends at `j`, scanning back no further than `lo`. */
  function SpaceRunStart(s: string, lo: nat, j: nat): (h: nat)
    requires lo <= j <= |s|
    ensures lo <= h <= j
    ensures forall k :: h <= k < j ==> IsSpace(s[k])
    ensures lo < h ==> !IsSpace(s[h - 1])
    decreases j
  {
    if lo < j && IsSpace(s[j - 1]) then SpaceRunStart(s, lo, j - 1) else j
  }

  /**
   * `strings.TrimSpace`: skips the leading white space, then cuts the
   * trailing white space off what remains.
   */
  function TrimSpace(s: string): (r: string)
    ensures |r| <= |s|
    ensures NoEdgeSpace(r)
  {
    var lo := SpaceRunEnd(s, 0);
    var hi := SpaceRunStart(s, lo, |s|);
    assert lo < hi ==> s[lo..hi][0] == s[lo] && s[lo..hi][hi - lo - 1] == s[hi - 1];
    s[lo..hi]
  }

  /** `TrimSpace` meets the reference definition of trimming. */
  lemma TrimSpaceTrims(s: string)
    ensures IsTrimOf(s, TrimSpace(s))
  {
    var lo := SpaceRunEnd(s, 0);
    var hi := SpaceRunStart(s, lo, |s|);
    assert TrimBounds(s, lo, hi);
  }

  /** Any two ways of cutting a white-space border off `s` leave the same string. */
  lemma TrimBoundsUnique(s: string, lo1: int, hi1: int, lo2: int, hi2: int)
    requires TrimBounds(s, lo1, hi1) && TrimBounds(s, lo2, hi2)
    ensures s[lo1..hi1] == s[lo2..hi2]
  {
    if lo1 < hi1 && lo2 < hi2 {
      assert s[lo1..hi1][0] == s[lo1] && s[lo2..hi2][0] == s[lo2];
      assert s[lo1..hi1][hi1 - lo1 - 1] == s[hi1 - 1] && s[lo2..hi2][hi2 - lo2 - 1] == s[hi2 - 1];
      assert lo1 == lo2;
      assert hi1 == hi2;
    }
  }

  /** `TrimSpace` computes exactly the reference trim, and nothing else satisfies it. */
  lemma TrimSpaceIsTheTrim(s: string, r: string)
    ensures IsTrimOf(s, r) <==> r == TrimSpace(s)
  {
    TrimSpaceTrims(s);
    if IsTrimOf(s, r) {
      var lo1, hi1 :| TrimBounds(s, lo1, hi1) && r == s[lo1..hi1];
      var lo2, hi2 :| TrimBounds(s, lo2, hi2) && TrimSpace(s) == s[lo2..hi2];
      TrimBoundsUnique(s, lo1, hi1, lo2, hi2);
    }
  }

  /** Trimming twice is trimming once. */
  lemma TrimSpaceIdempotent(s: string)
    ensures TrimSpace(TrimSpace(s)) == TrimSpace(s)
  {
    var r := TrimSpace(s);
    assert r[0..|r|] == r;
    assert TrimBounds(r, 0, |r|);
    TrimSpaceIsTheTrim(r, r);
  }

  /** A text without white space at its ends is left as it is. */
  lemma TrimUnchanged(text: string)
    requires NoEdgeSpace(text)
    ensures TrimSpace(text) == text
  {
    assert text[0..|text|] == text;
    assert TrimBounds(text, 0, |text|);
    TrimSpaceIsTheTrim(text, text);
  }

  // ---------------------------------------------------------------------------
  // Substring search
  // ---------------------------------------------------------------------------

  /** `sub` occurs in `s` starting at index `i`. */
  predicate OccursAt(s: string, sub: string, i: int) {
    0 <= i && i + |sub| <= |s| && s[i..i + |sub|] == sub
  }

  /** The runes of `sub` from position `j` on equal those of `s` from `i + j` on. */
  function MatchesFrom(s: string, sub: string, i: nat, j: nat): bool
    requires i + |sub| <= |s| && j <= |sub|
    decreases |sub| - j
  {
    j == |sub| || (s[i + j] == sub[j] && MatchesFrom(s, sub, i, j + 1))
  }

  /** `sub` occurs in `s` at some index `i` or later. */
  function ContainsFrom(s: string, sub: string, i: nat): bool
    decreases |s| - i
  {
    if i + |sub| > |s| then false
    else MatchesFrom(s, sub, i, 0) || ContainsFrom(s, sub, i + 1)
  }

  /** `strings.Contains`: scans `s` from the left for an occurrence of `sub`. */
  function Contains(s: string, sub: string): bool {
    ContainsFrom(s, sub, 0)
  }

  lemma {:induction false} MatchesFromSpec(s: string, sub: string, i: nat, j: nat)
    requires i + |sub| <= |s| && j <= |sub|
    ensures MatchesFrom(s, sub, i, j) <==> s[i + j..i + |sub|] == sub[j..]
    decreases |sub| - j
  {
    if j < |sub| {
      MatchesFromSpec(s, sub, i, j + 1);
      assert s[i + j..i + |sub|] == [s[i + j]] + s[i + j + 1..i + |sub|];
      assert sub[j..] == [sub[j]] + sub[j + 1..];
    }
  }

  lemma {:induction false} ContainsFromSpec(s: string, sub: string, i: nat)
    ensures ContainsFrom(s, sub, i) <==> exists k :: i <= k && OccursAt(s, sub, k)
    decreases |s| - i
  {
    if i + |sub| <= |s| {
      MatchesFromSpec(s, sub, i, 0);
      ContainsFromSpec(s, sub, i + 1);
      if MatchesFrom(s, sub, i, 0) {
        assert sub[0..] == sub;
        assert OccursAt(s, sub, i);
      }
      if exists k :: i <= k && OccursAt(s, sub, k) {
        var k :| i <= k && OccursAt(s, sub, k);
        assert k == i || (i + 1 <= k && OccursAt(s, sub, k));
      }
    }
  }

  /** `Contains` holds exactly when `sub` occurs at some index of `s`. */
  lemma ContainsSpec(s: string, sub: string)
    ensures Contains(s, sub) <==> exists i :: OccursAt(s, sub, i)
  {
    ContainsFromSpec(s, sub, 0);
  }

  /** An occurrence of a string also holds an occurrence of each of its prefixes. */
  lemma ContainsPrefix(s: string, sub: string, n: nat)
    requires Contains(s, sub) && n <= |sub|
    ensures Contains(s, sub[..n])
  {
    ContainsSpec(s, sub);
    ContainsSpec(s, sub[..n]);
    var i :| OccursAt(s, sub, i);
    assert s[i..i + n] == s[i..i + |sub|][..n];
    assert OccursAt(s, sub[..n], i);
  }

  /** A match found rune by rune at index `i` is an occurrence. */
  lemma ContainsAt(s: string, sub: string, i: nat)
    requires i + |sub| <= |s| && MatchesFrom(s, sub, i, 0)
    ensures Contains(s, sub)
  {
    MatchesFromSpec(s, sub, i, 0);
    assert sub[0..] == sub;
    ContainsSpec(s, sub);
    assert OccursAt(s, sub, i);
  }

  /** `sub` cannot occur where no rune of `s` is followed by `sub`'s second rune after its first. */
  lemma NotContainsByFirstPair(s: string, sub: string)
    requires |sub| >= 2
    requires forall i :: 0 <= i <= |s| - |sub| ==> s[i] != sub[0] || s[i + 1] != sub[1]
    ensures !Contains(s, sub)
  {
    ContainsSpec(s, sub);
    forall i | 0 <= i && i + |sub| <= |s| ensures !OccursAt(s, sub, i) {
      assert s[i..i + |sub|][0] == s[i] && s[i..i + |sub|][1] == s[i + 1];
    }
  }
}
