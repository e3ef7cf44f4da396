/**
 * The functions of Go's `strings` package that the validators call, on
 * strings as sequences of characters.
 */
module GoStrings {

  /** `strings.HasPrefix`. */
  predicate HasPrefix(s: string, prefix: string) {
    |prefix| <= |s| && s[..|prefix|] == prefix
  }

  /** `strings.TrimPrefix`: `s` without a leading `prefix`, or `s` itself when it does not start with one. */
  function TrimPrefix(s: string, prefix: string): (r: string)
    ensures HasPrefix(s, prefix) ==> prefix + r == s
    ensures !HasPrefix(s, prefix) ==> r == s
  {
    if HasPrefix(s, prefix) then s[|prefix|..] else s
  }

  /** Removing a prefix undoes prepending it. */
  lemma TrimPrefixOfConcat(prefix: string, rest: string)
    ensures TrimPrefix(prefix + rest, prefix) == rest
  {
    assert (prefix + rest)[..|prefix|] == prefix;
  }

  /** `strings.Join`: the elements in order, `sep` between each two neighbours. */
  function Join(elems: seq<string>, sep: string): string {
    if |elems| == 0 then ""
    else if |elems| == 1 then elems[0]
    else elems[0] + sep + Join(elems[1..], sep)
  }

  /** `strings.TrimLeft(s, " ")`: the longest suffix of `s` that does not start with a space. */
  function TrimLeadingSpaces(s: string): (r: string)
    ensures |r| <= |s| && r == s[|s| - |r|..]
    ensures forall i :: 0 <= i < |s| - |r| ==> s[i] == ' '
    ensures r == [] || r[0] != ' '
  {
    if |s| > 0 && s[0] == ' ' then TrimLeadingSpaces(s[1..]) else s
  }

  /** `strings.TrimRight(s, " ")`: the longest prefix of `s` that does not end with a space. */
  function TrimTrailingSpaces(s: string): (r: string)
    ensures |r| <= |s| && r == s[..|r|]
    ensures forall i :: |r| <= i < |s| ==> s[i] == ' '
    ensures r == [] || r[|r| - 1] != ' '
  {
    if |s| > 0 && s[|s| - 1] == ' ' then TrimTrailingSpaces(s[..|s| - 1]) else s
  }

  /** The characters of `s` from `lo` up to `hi` are all spaces. */
  predicate SpacesBetween(s: string, lo: int, hi: int)
    requires 0 <= lo <= hi <= |s|
  {
    forall k :: lo <= k < hi ==> s[k] == ' '
  }

  /** `s` neither starts nor ends with a space. */
  predicate Unpadded(s: string) {
    s == [] || (s[0] != ' ' && s[|s| - 1] != ' ')
  }

  /**
   * `strings.Trim(s, " ")`. The cut set holds the space character only, so
   * tabs and newlines stay. The result is the slice of `s` left once the
   * spaces at both ends are cut off.
   */
  function TrimSpaces(s: string): (r: string)
    ensures Unpadded(r)
    ensures exists lo :: 0 <= lo <= lo + |r| <= |s| && r == s[lo..lo + |r|]
                         && SpacesBetween(s, 0, lo) && SpacesBetween(s, lo + |r|, |s|)
  {
    var left := TrimLeadingSpaces(s);
    var r := TrimTrailingSpaces(left);
    SliceOfSlice(s, left, r);
    r
  }

  /** Cutting spaces off the end of a suffix of `s` leaves a slice of `s`. */
  lemma SliceOfSlice(s: string, left: string, r: string)
    requires |left| <= |s| && left == s[|s| - |left|..] && SpacesBetween(s, 0, |s| - |left|)
    requires |r| <= |left| && r == left[..|r|]
    requires forall i :: |r| <= i < |left| ==> left[i] == ' '
    ensures var lo := |s| - |left|;
            r == s[lo..lo + |r|] && SpacesBetween(s, 0, lo) && SpacesBetween(s, lo + |r|, |s|)
  {
    var lo := |s| - |left|;
    forall k | lo + |r| <= k < |s| ensures s[k] == ' ' {
      assert s[k] == left[k - lo];
    }
  }

  /**
   * Two slices of `s` that are both unpadded and both have only spaces
   * around them are the same slice: the spaces at the ends decide it.
   */
  lemma UnpaddedSliceUnique(s: string, lo: nat, hi: nat, lo': nat, hi': nat)
    requires lo <= hi <= |s| && lo' <= hi' <= |s|
    requires SpacesBetween(s, 0, lo) && SpacesBetween(s, hi, |s|) && Unpadded(s[lo..hi])
    requires SpacesBetween(s, 0, lo') && SpacesBetween(s, hi', |s|) && Unpadded(s[lo'..hi'])
    ensures s[lo..hi] == s[lo'..hi']
  {
    if lo < hi && lo' < hi' {
      assert s[lo] != ' ' && s[hi - 1] != ' ';
      assert s[lo'] != ' ' && s[hi' - 1] != ' ';
      assert lo == lo' && hi == hi';
    }
  }

  /**
   * Trimming is determined by what it keeps: spaces around an unpadded
   * string are exactly what `TrimSpaces` removes.
   */
  lemma TrimSpacesOfPadded(before: string, body: string, after: string)
    requires forall k :: 0 <= k < |before| ==> before[k] == ' '
    requires forall k :: 0 <= k < |after| ==> after[k] == ' '
    requires Unpadded(body)
    ensures TrimSpaces(before + body + after) == body
  {
    var s := before + body + after;
    PaddedParts(before, body, after);
    var r := TrimSpaces(s);
    var lo :| 0 <= lo <= lo + |r| <= |s| && r == s[lo..lo + |r|]
              && SpacesBetween(s, 0, lo) && SpacesBetween(s, lo + |r|, |s|);
    UnpaddedSliceUnique(s, |before|, |before| + |body|, lo, lo + |r|);
  }

  /** Where the three parts of `before + body + after` lie. */
  lemma PaddedParts(before: string, body: string, after: string)
    requires forall k :: 0 <= k < |before| ==> before[k] == ' '
    requires forall k :: 0 <= k < |after| ==> after[k] == ' '
    ensures var s, b, e := before + body + after, |before|, |before| + |body|;
            SpacesBetween(s, 0, b) && SpacesBetween(s, e, |s|) && s[b..e] == body
  {
    var s, b, e := before + body + after, |before|, |before| + |body|;
    forall k | 0 <= k < b ensures s[k] == ' ' { assert s[k] == before[k]; }
    forall k | e <= k < |s| ensures s[k] == ' ' { assert s[k] == after[k - e]; }
    assert s[b..e] == body;
  }

  /** A string of spaces only trims to the empty string. */
  lemma AllSpacesTrimToEmpty(s: string)
    requires forall k :: 0 <= k < |s| ==> s[k] == ' '
    ensures TrimSpaces(s) == ""
  {
    TrimSpacesOfPadded(s, "", "");
    assert s + "" + "" == s;
  }
}
