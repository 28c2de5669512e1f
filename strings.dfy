/** Java's String.trim, as the keystroke handler applies it to each typed character. */
module Strings {

  /** The characters String.trim strips: every code point up to and including U+0020. */
  predicate Blank(c: char) {
    c <= ' '
  }

  /** The first position at or after i that holds no blank, or |s|. */
  function Lead(s: string, i: nat): (lo: nat)
    requires i <= |s|
    ensures i <= lo <= |s|
    ensures forall k :: i <= k < lo ==> Blank(s[k])
    ensures lo < |s| ==> !Blank(s[lo])
    decreases |s| - i
  {
    if i < |s| && Blank(s[i]) then Lead(s, i + 1) else i
  }

  /** Scanning down from j, but not below lo: the position just after the
      last character that is no blank, or lo. */
  function Trail(s: string, lo: nat, j: nat): (hi: nat)
    requires lo <= j <= |s|
    ensures lo <= hi <= j
    ensures forall k :: hi <= k < j ==> Blank(s[k])
    ensures hi > lo ==> !Blank(s[hi - 1])
    decreases j
  {
    if j > lo && Blank(s[j - 1]) then Trail(s, lo, j - 1) else j
  }

  /** String.trim: the infix of s left once the blanks at both ends are
      dropped. What it drops on either side is all blank, and what it keeps
      neither starts nor ends with a blank. */
  function Trim(s: string): (r: string)
    ensures var lo := Lead(s, 0);
              && lo + |r| <= |s| && r == s[lo..lo + |r|]
              && (forall i :: 0 <= i < lo ==> Blank(s[i]))
              && (forall i :: lo + |r| <= i < |s| ==> Blank(s[i]))
    ensures r != [] ==> !Blank(r[0]) && !Blank(r[|r| - 1])
  {
    var lo := Lead(s, 0);
    s[lo..Trail(s, lo, |s|)]
  }

  /** A keystroke trims to nothing exactly when it holds nothing but blanks. */
  lemma TrimEmpty(s: string)
    ensures Trim(s) == [] <==> forall i :: 0 <= i < |s| ==> Blank(s[i])
  {
  }
}
