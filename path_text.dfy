/** The two string operations the folder-name computation uses:
    `Path.GetFileName` (text after the last directory separator) and
    `string.TrimEnd(char)`. */
module PathText {

  predicate IsDirectorySeparator(c: char)
  {
    c == '/' || c == '\\'
  }

  /** The final segment of `p` is empty: `p` is empty or ends in a separator. */
  predicate EndsInSeparator(p: string)
  {
    p == [] || IsDirectorySeparator(p[|p| - 1])
  }

  /** `r` is the final path segment of `p`: a suffix of `p` that holds no
      separator and is all of `p` or is preceded by a separator. */
  predicate IsFinalSegment(r: string, p: string)
  {
    |r| <= |p| && r == p[|p| - |r|..]
    && (forall i :: 0 <= i < |r| ==> !IsDirectorySeparator(r[i]))
    && (|r| == |p| || IsDirectorySeparator(p[|p| - |r| - 1]))
  }

  /** `r` is `s` with every trailing `c` removed. */
  predicate IsTrimmedEnd(r: string, s: string, c: char)
  {
    r <= s
    && (r == [] || r[|r| - 1] != c)
    && (forall i :: |r| <= i < |s| ==> s[i] == c)
  }

  /** Index of the last separator in `p`, or -1 when it has none. */
  function LastSeparator(p: string): (r: int)
    ensures -1 <= r < |p|
    ensures r >= 0 ==> IsDirectorySeparator(p[r])
    ensures forall i :: r < i < |p| ==> !IsDirectorySeparator(p[i])
    decreases |p|
  {
    if p == [] then -1
    else if IsDirectorySeparator(p[|p| - 1]) then |p| - 1
    else LastSeparator(p[..|p| - 1])
  }

  /** `Path.GetFileName` on a non-null path. */
  function FileName(p: string): (r: string)
    ensures IsFinalSegment(r, p)
    ensures r == [] <==> EndsInSeparator(p)
  {
    p[LastSeparator(p) + 1..]
  }

  /** `s.TrimEnd(c)`. */
  function TrimEnd(s: string, c: char): (r: string)
    ensures IsTrimmedEnd(r, s, c)
    decreases |s|
  {
    if s != [] && s[|s| - 1] == c then TrimEnd(s[..|s| - 1], c) else s
  }

  /** A final segment is unique, so `FileName` is the only function meeting
      its contract. */
  lemma FinalSegmentUnique(r: string, r': string, p: string)
    requires IsFinalSegment(r, p) && IsFinalSegment(r', p)
    ensures r == r'
  {
  }

  /** Trimming is unique, so `TrimEnd` is the only function meeting its
      contract. */
  lemma TrimmedEndUnique(r: string, r': string, s: string, c: char)
    requires IsTrimmedEnd(r, s, c) && IsTrimmedEnd(r', s, c)
    ensures r == r'
  {
  }
}
