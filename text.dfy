/** Whitespace trimming as JavaScript's String.prototype.trim performs it:
    strip every leading and trailing WhiteSpace or LineTerminator code point
    (ECMAScript 2023, sections 12.2 and 12.3) and keep everything in between. */
module Text {

  /** ECMAScript WhiteSpace (TAB, VT, FF, SP, NBSP, ZWNBSP and the Zs category)
      and LineTerminator (LF, CR, LS, PS). */
  predicate IsWhitespace(c: char) {
    c == '\t' || c == '\U{000B}' || c == '\U{000C}' || c == ' ' ||
    c == '\U{00A0}' || c == '\U{FEFF}' ||
    c == '\U{1680}' || ('\U{2000}' <= c <= '\U{200A}') ||
    c == '\U{202F}' || c == '\U{205F}' || c == '\U{3000}' ||
    c == '\n' || c == '\r' || c == '\U{2028}' || c == '\U{2029}'
  }

  /** Every character of `s` is whitespace (vacuously true of ""). */
  predicate Blank(s: string) {
    forall i :: 0 <= i < |s| ==> IsWhitespace(s[i])
  }

  /** `r` is the slice of `s` that starts at `k`, and every character of `s`
      outside that slice is whitespace. */
  ghost predicate StrippedAt(s: string, r: string, k: int) {
    0 <= k && k + |r| <= |s| &&
    (forall i :: 0 <= i < |r| ==> r[i] == s[k + i]) &&
    (forall i :: 0 <= i < k ==> IsWhitespace(s[i])) &&
    (forall i :: k + |r| <= i < |s| ==> IsWhitespace(s[i]))
  }

  /** `r` has no whitespace at either end. */
  predicate Tight(r: string) {
    r != [] ==> !IsWhitespace(r[0]) && !IsWhitespace(r[|r| - 1])
  }

  /** The first index at or after `i` that does not hold whitespace (or |s|). */
  function SkipForward(s: string, i: nat): (k: nat)
    requires i <= |s|
    ensures i <= k <= |s|
    ensures forall j :: i <= j < k ==> IsWhitespace(s[j])
    ensures k < |s| ==> !IsWhitespace(s[k])
    decreases |s| - i
  {
    if i < |s| && IsWhitespace(s[i]) then SkipForward(s, i + 1) else i
  }

  /** The end of `s[lo..e]` once its trailing whitespace is dropped. */
  function SkipBackward(s: string, lo: nat, e: nat): (f: nat)
    requires lo <= e <= |s|
    ensures lo <= f <= e
    ensures forall j :: f <= j < e ==> IsWhitespace(s[j])
    ensures f > lo ==> !IsWhitespace(s[f - 1])
  {
    if e > lo && IsWhitespace(s[e - 1]) then SkipBackward(s, lo, e - 1) else e
  }

  /** `s.trim()`: a contiguous slice of `s` obtained by removing only
      whitespace, with no whitespace left at either end. */
  function Trim(s: string): (r: string)
    ensures exists k :: StrippedAt(s, r, k)
    ensures Tight(r)
  {
    var k := SkipForward(s, 0);
    var e := SkipBackward(s, k, |s|);
    assert StrippedAt(s, s[k..e], k);
    s[k..e]
  }

  /** The trimmed text is empty exactly when the input is empty or all
      whitespace: this is the test `!title.trim()` makes. */
  lemma TrimEmptyIffBlank(s: string)
    ensures Trim(s) == [] <==> Blank(s)
  {
    var r := Trim(s);
    var k :| StrippedAt(s, r, k);
    if r != [] {
      assert r[0] == s[k];
    }
  }

  /** Trimming is the one whitespace-only stripping that leaves no whitespace
      at either end: any such `r` is `Trim(s)`. */
  lemma TrimUnique(s: string, r: string, k: int)
    requires StrippedAt(s, r, k) && Tight(r)
    ensures r == Trim(s)
  {
    var t := Trim(s);
    var j :| StrippedAt(s, t, j);
    if r == [] || t == [] {
      if r == [] { BlankSplit(s, r, k); } else { BlankSplit(s, t, j); }
      TrimEmptyIffBlank(s);
      TightSliceOfBlank(s, r, k);
    } else {
      SameStart(s, r, k, t, j);
      SameStart(s, t, j, r, k);
      SameEnd(s, r, k, t, j);
      SameEnd(s, t, j, r, k);
      assert forall i :: 0 <= i < |r| ==> r[i] == s[k + i] == t[i];
    }
  }

  /** A slice without edge whitespace of an all-whitespace text is empty. */
  lemma TightSliceOfBlank(s: string, r: string, k: int)
    requires StrippedAt(s, r, k) && Tight(r) && Blank(s)
    ensures r == []
  {
  }

  /** Two non-empty tight strippings of `s` start at the same index. */
  lemma SameStart(s: string, r: string, k: int, t: string, j: int)
    requires StrippedAt(s, r, k) && Tight(r) && r != []
    requires StrippedAt(s, t, j) && Tight(t) && t != []
    ensures j <= k
  {
  }

  /** Two non-empty tight strippings of `s` end at the same index. */
  lemma SameEnd(s: string, r: string, k: int, t: string, j: int)
    requires StrippedAt(s, r, k) && Tight(r) && r != []
    requires StrippedAt(s, t, j) && Tight(t) && t != []
    ensures j + |t| <= k + |r|
  {
  }

  /** When the kept slice is blank, so is the whole text. */
  lemma BlankSplit(s: string, r: string, k: int)
    requires StrippedAt(s, r, k) && Blank(r)
    ensures Blank(s)
  {
    forall i | k <= i < k + |r| ensures IsWhitespace(s[i]) {
      assert r[i - k] == s[i];
    }
  }

  /** A text with no whitespace at either end trims to itself. */
  lemma TrimTight(s: string)
    requires Tight(s)
    ensures Trim(s) == s
  {
    TrimUnique(s, s, 0);
  }

  /** Trimming twice gives what trimming once gives. */
  lemma TrimIdempotent(s: string)
    ensures Trim(Trim(s)) == Trim(s)
  {
    TrimTight(Trim(s));
  }
}
