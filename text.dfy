/**
 * The three JavaScript string operations the crawler's scheduling rules are
 * made of: `String.prototype.includes`, `String.prototype.indexOf` and
 * `String.prototype.replace` called with a string pattern, which replaces
 * only the FIRST occurrence.
 */
module Text {

  /** `pat` occurs in `s` starting at index `i`. */
  predicate OccursAt(s: string, pat: string, i: int) {
    0 <= i && i + |pat| <= |s| && s[i..i + |pat|] == pat
  }

  /** The first index at or after `from` where `pat` occurs in `s`, or -1. */
  function IndexOfFrom(s: string, pat: string, from: nat): (r: int)
    ensures r == -1 || (from <= r && r + |pat| <= |s|)
    decreases |s| - from
  {
    if from + |pat| > |s| then -1
    else if s[from..from + |pat|] == pat then from
    else IndexOfFrom(s, pat, from + 1)
  }

  /** `s.indexOf(pat)`. */
  function IndexOf(s: string, pat: string): (r: int)
    ensures r == -1 || (0 <= r && r + |pat| <= |s|)
  {
    IndexOfFrom(s, pat, 0)
  }

  /** `s.includes(pat)`: a substring test. */
  function Includes(s: string, pat: string): bool {
    IndexOf(s, pat) >= 0
  }

  /** `s.replace(pat, rep)` with a string pattern: only the first occurrence is replaced. */
  function ReplaceFirst(s: string, pat: string, rep: string): string {
    var k := IndexOf(s, pat);
    if k < 0 then s else s[..k] + rep + s[k + |pat|..]
  }

  /** The search from `from` finds the first occurrence at or after `from`, or reports that there is none. */
  lemma {:induction false} IndexOfFromFindsFirst(s: string, pat: string, from: nat)
    ensures var r := IndexOfFrom(s, pat, from);
      && (r == -1 || (from <= r && OccursAt(s, pat, r)))
      && forall j :: from <= j && (r == -1 || j < r) ==> !OccursAt(s, pat, j)
    decreases |s| - from
  {
    if from + |pat| <= |s| && s[from..from + |pat|] != pat {
      IndexOfFromFindsFirst(s, pat, from + 1);
    }
  }

  /** `indexOf` is -1 exactly when `pat` does not occur, and otherwise the first occurrence. */
  lemma IndexOfFindsFirst(s: string, pat: string)
    ensures IndexOf(s, pat) == -1 <==> forall j :: !OccursAt(s, pat, j)
    ensures IndexOf(s, pat) != -1 ==>
      OccursAt(s, pat, IndexOf(s, pat)) && forall j :: j < IndexOf(s, pat) ==> !OccursAt(s, pat, j)
  {
    IndexOfFromFindsFirst(s, pat, 0);
  }

  /** `includes` holds exactly when `pat` occurs somewhere in `s`. */
  lemma IncludesMeansOccurs(s: string, pat: string)
    ensures Includes(s, pat) <==> exists j :: OccursAt(s, pat, j)
  {
    IndexOfFindsFirst(s, pat);
  }

  /** A string that starts with `pat` contains it. */
  lemma PrefixIncluded(pat: string, tail: string)
    ensures Includes(pat + tail, pat)
  {
    assert (pat + tail)[..|pat|] == pat;
    assert OccursAt(pat + tail, pat, 0);
    IncludesMeansOccurs(pat + tail, pat);
  }

  /** Without an occurrence `replace` changes nothing; with one it swaps `|pat|` characters for `rep`. */
  lemma ReplaceFirstLength(s: string, pat: string, rep: string)
    ensures !Includes(s, pat) ==> ReplaceFirst(s, pat, rep) == s
    ensures Includes(s, pat) ==> |ReplaceFirst(s, pat, rep)| == |s| - |pat| + |rep|
  {
    IndexOfFindsFirst(s, pat);
  }

  /**
   * Whatever precedes the first occurrence of `pat` is kept, the occurrence
   * becomes `rep` and whatever follows it is kept.
   */
  lemma ReplaceFirstAt(x: string, pat: string, y: string, rep: string)
    requires forall j :: j < |x| ==> !OccursAt(x + pat + y, pat, j)
    ensures ReplaceFirst(x + pat + y, pat, rep) == x + rep + y
  {
    var s := x + pat + y;
    assert s[|x|..|x| + |pat|] == pat;
    assert OccursAt(s, pat, |x|);
    IndexOfFindsFirst(s, pat);
    var k := IndexOf(s, pat);
    assert k == |x|;
    assert s[..k] == x;
    assert s[k + |pat|..] == y;
  }

  /**
   * A prefix that never holds the first character of `pat` cannot hold the
   * start of an occurrence, so `x + y` contains `pat` exactly when `y` does.
   */
  lemma IncludesPastPrefix(x: string, y: string, pat: string)
    requires pat != []
    requires forall j :: 0 <= j < |x| ==> x[j] != pat[0]
    ensures forall j :: j < |x| ==> !OccursAt(x + y, pat, j)
    ensures Includes(x + y, pat) <==> Includes(y, pat)
  {
    var s := x + y;
    forall j | j < |x|
      ensures !OccursAt(s, pat, j)
    {
      if 0 <= j && j + |pat| <= |s| {
        assert s[j..j + |pat|][0] == x[j];
      }
    }
    IncludesMeansOccurs(s, pat);
    IncludesMeansOccurs(y, pat);
    if Includes(s, pat) {
      var j :| OccursAt(s, pat, j);
      assert s[j..j + |pat|] == y[j - |x|..j - |x| + |pat|];
      assert OccursAt(y, pat, j - |x|);
    }
    if Includes(y, pat) {
      var j :| OccursAt(y, pat, j);
      assert s[j + |x|..j + |x| + |pat|] == y[j..j + |pat|];
      assert OccursAt(s, pat, j + |x|);
    }
  }
}
