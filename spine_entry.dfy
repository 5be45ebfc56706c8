/**
 * The spine-name entry: the typed name is stripped of surrounding whitespace
 * before it becomes the active spine (label_dendritic_spines.py,
 * change_spine_name, which calls str.strip).
 */
module SpineEntry {

  /** The ASCII characters str.isspace accepts. */
  predicate IsSpace(c: char)
  {
    c == ' ' || c == '\t' || c == '\n' || c == '\r' || ('\U{000B}' <= c <= '\U{000C}')
    || ('\U{001C}' <= c <= '\U{001F}')
  }

  /** s neither starts nor ends with whitespace. */
  predicate Trimmed(s: string)
  {
    s == [] || (!IsSpace(s[0]) && !IsSpace(s[|s| - 1]))
  }

  /** s without its leading whitespace. */
  function StripLeft(s: string): (r: string)
    ensures |r| <= |s| && r == s[|s| - |r|..]
    ensures forall k :: 0 <= k < |s| - |r| ==> IsSpace(s[k])
    ensures r == [] || !IsSpace(r[0])
  {
    if s != [] && IsSpace(s[0]) then
      var r := StripLeft(s[1..]);
      assert s[1..][|s| - 1 - |r|..] == s[|s| - |r|..];
      assert forall k :: 1 <= k < |s| - |r| ==> s[k] == s[1..][k - 1];
      r
    else
      s
  }

  /** s without its trailing whitespace. */
  function StripRight(s: string): (r: string)
    ensures |r| <= |s| && r == s[..|r|]
    ensures forall k :: |r| <= k < |s| ==> IsSpace(s[k])
    ensures r == [] || !IsSpace(r[|r| - 1])
  {
    if s != [] && IsSpace(s[|s| - 1]) then
      var r := StripRight(s[..|s| - 1]);
      assert s[..|s| - 1][..|r|] == s[..|r|];
      r
    else
      s
  }

  /** Every character of s before position i or from position j on is whitespace. */
  predicate SpaceOutside(s: string, i: int, j: int)
  {
    forall k :: 0 <= k < |s| && (k < i || j <= k) ==> IsSpace(s[k])
  }

  /** str.strip(): the middle of s, without leading and trailing whitespace. */
  function Strip(s: string): (r: string)
    ensures |r| <= |s|
    ensures Trimmed(r)
    ensures exists i, j :: 0 <= i <= j <= |s| && r == s[i..j] && SpaceOutside(s, i, j)
    ensures (forall k :: 0 <= k < |s| ==> IsSpace(s[k])) <==> r == []
  {
    var l := StripLeft(s);
    SliceOfSlice(s, l, StripRight(l));
    StripRight(l)
  }

  /**
   * Dropping leading whitespace from s (leaving l) and then trailing
   * whitespace from l (leaving r) keeps a slice of s and drops only whitespace.
   */
  lemma SliceOfSlice(s: string, l: string, r: string)
    requires |l| <= |s| && l == s[|s| - |l|..] && forall k :: 0 <= k < |s| - |l| ==> IsSpace(s[k])
    requires |r| <= |l| && r == l[..|r|] && forall k :: |r| <= k < |l| ==> IsSpace(l[k])
    ensures r == s[|s| - |l|..|s| - |l| + |r|] && SpaceOutside(s, |s| - |l|, |s| - |l| + |r|)
  {
    var i := |s| - |l|;
    forall k | 0 <= k < |s| && (k < i || i + |r| <= k) ensures IsSpace(s[k]) {
      if i + |r| <= k {
        assert s[k] == l[k - i];
      }
    }
  }

  /** A name with no surrounding whitespace is kept as it is. */
  lemma StripKeepsTrimmed(s: string)
    requires Trimmed(s)
    ensures Strip(s) == s
  {
  }

  /** Stripping twice is the same as stripping once. */
  lemma StripIdempotent(s: string)
    ensures Strip(Strip(s)) == Strip(s)
  {
    StripKeepsTrimmed(Strip(s));
  }
}
