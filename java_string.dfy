/** Java's `String.trim()`: strips the leading and trailing characters at or below U+0020. */
module JavaString {

  /** A character `trim` removes: a control character or the space. */
  predicate IsTrimmed(c: char) { c <= ' ' }

  /** The index of the first character `trim` keeps (`|s|` if there is none). */
  function TrimStart(s: string): (i: nat)
    ensures i <= |s|
    ensures forall k :: 0 <= k < i ==> IsTrimmed(s[k])
    ensures i < |s| ==> !IsTrimmed(s[i])
  {
    if s != [] && IsTrimmed(s[0]) then 1 + TrimStart(s[1..]) else 0
  }

  /** The end of the characters `trim` keeps, scanning back from the end down to `i`. */
  function TrimEnd(s: string, i: nat): (j: nat)
    requires i <= |s|
    ensures i <= j <= |s|
    ensures forall k :: j <= k < |s| ==> IsTrimmed(s[k])
    ensures i < j ==> !IsTrimmed(s[j - 1])
    decreases |s|
  {
    if i < |s| && IsTrimmed(s[|s| - 1]) then TrimEnd(s[..|s| - 1], i) else |s|
  }

  /** `s` without its blank ends: a slice of `s` whose removed prefix and suffix are all blank. */
  function Trim(s: string): (r: string)
    ensures |r| <= |s|
    ensures exists i, j ::
              && 0 <= i <= j <= |s| && r == s[i..j]
              && (forall k :: 0 <= k < i ==> IsTrimmed(s[k]))
              && (forall k :: j <= k < |s| ==> IsTrimmed(s[k]))
    ensures r != [] ==> !IsTrimmed(r[0]) && !IsTrimmed(r[|r| - 1])
    ensures r == [] <==> forall k :: 0 <= k < |s| ==> IsTrimmed(s[k])
  {
    var i := TrimStart(s);
    var j := TrimEnd(s, i);
    assert i < |s| ==> i < j;
    s[i..j]
  }

  /** A string that starts and ends with a kept character is left as it is. */
  lemma TrimKeepsClean(s: string)
    requires s == [] || (!IsTrimmed(s[0]) && !IsTrimmed(s[|s| - 1]))
    ensures Trim(s) == s
  {
  }

  /** Trimming twice is trimming once. */
  lemma TrimIdempotent(s: string)
    ensures Trim(Trim(s)) == Trim(s)
  {
    TrimKeepsClean(Trim(s));
  }
}
