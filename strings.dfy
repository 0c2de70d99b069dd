/**
 * The few JavaScript string primitives the storefront relies on,
 * `String.prototype.includes` and `split` with a non-empty string separator,
 * over strings as sequences of characters. Both rest on one search for the
 * first occurrence, which is what `indexOf` would return.
 */
module Strings {

  /** `pat` occurs in `s` starting at index `j`. */
  predicate OccursAt(s: string, pat: string, j: int)
  {
    0 <= j && j + |pat| <= |s| && forall k :: 0 <= k < |pat| ==> s[j + k] == pat[k]
  }

  /** The first index at which `pat` occurs in `s`, or -1, as `s.indexOf(pat)` returns. */
  function IndexOf(s: string, pat: string): (i: int)
    ensures -1 <= i <= |s|
    ensures i >= 0 ==> OccursAt(s, pat, i)
    ensures forall j :: 0 <= j < (if i < 0 then |s| + 1 else i) ==> !OccursAt(s, pat, j)
    decreases |s|
  {
    if |s| < |pat| then -1
    else if pat <= s then 0
    else
      var k := IndexOf(s[1..], pat);
      assert forall j :: 1 <= j <= |s| && OccursAt(s, pat, j) ==> OccursAt(s[1..], pat, j - 1);
      if k < 0 then -1 else k + 1
  }

  /** `s.includes(pat)`, decided by the search that also underlies `split`. */
  predicate Includes(s: string, pat: string)
  {
    IndexOf(s, pat) >= 0
  }

  /** `s.includes(pat)` holds exactly when `pat` occurs in `s` at some index. */
  lemma IncludesOccurs(s: string, pat: string)
    ensures Includes(s, pat) <==> exists j :: OccursAt(s, pat, j)
  {
    if Includes(s, pat) {
      assert OccursAt(s, pat, IndexOf(s, pat));
    }
  }

  /** `s.split(sep)` for a non-empty separator: the pieces between the occurrences of `sep`. */
  function Split(s: string, sep: string): (parts: seq<string>)
    requires sep != ""
    ensures |parts| >= 1
    ensures parts[0] <= s
    ensures |parts| > 1 <==> Includes(s, sep)
    ensures forall k :: 0 <= k < |parts| ==> !Includes(parts[k], sep)
    decreases |s|
  {
    var i := IndexOf(s, sep);
    if i < 0 then [s]
    else
      PrefixBeforeFirst(s, sep, i);
      [s[..i]] + Split(s[i + |sep|..], sep)
  }

  /** `parts.join(sep)`. */
  function Join(parts: seq<string>, sep: string): string
  {
    if |parts| == 0 then ""
    else if |parts| == 1 then parts[0]
    else parts[0] + sep + Join(parts[1..], sep)
  }

  /** Nothing before the first occurrence of `sep` contains `sep`. */
  lemma PrefixBeforeFirst(s: string, sep: string, i: int)
    requires sep != ""
    requires 0 <= i <= |s| && forall j :: 0 <= j < i ==> !OccursAt(s, sep, j)
    ensures !Includes(s[..i], sep)
  {
    var t := s[..i];
    forall j | 0 <= j <= |t|
      ensures !OccursAt(t, sep, j)
    {
      assert OccursAt(t, sep, j) ==> OccursAt(s, sep, j);
    }
  }

  /** An occurrence cuts the string into what precedes it, the pattern, and what follows. */
  lemma OccursSplits(s: string, pat: string, i: int)
    requires OccursAt(s, pat, i)
    ensures s == s[..i] + pat + s[i + |pat|..]
  {
    assert s[i..i + |pat|] == pat;
    assert s == s[..i] + s[i..i + |pat|] + s[i + |pat|..];
  }

  /** Splitting and joining again with the same separator gives back the string. */
  lemma {:induction false} JoinSplit(s: string, sep: string)
    requires sep != ""
    ensures Join(Split(s, sep), sep) == s
    decreases |s|
  {
    var i := IndexOf(s, sep);
    if i >= 0 {
      var rest := s[i + |sep|..];
      JoinSplit(rest, sep);
      var parts := Split(s, sep);
      assert parts[0] == s[..i];
      assert parts[1..] == Split(rest, sep);
      OccursSplits(s, sep, i);
    }
  }

  /** An occurrence inside a slice is an occurrence in the whole string. */
  lemma OccursInSlice(s: string, lo: int, hi: int, pat: string, j: int)
    requires 0 <= lo <= hi <= |s|
    requires OccursAt(s[lo..hi], pat, j)
    ensures OccursAt(s, pat, lo + j)
  {
  }

  /** A string that does not contain `pat` has no slice that does. */
  lemma SliceExcludes(s: string, lo: int, hi: int, pat: string)
    requires 0 <= lo <= hi <= |s|
    requires !Includes(s, pat)
    ensures !Includes(s[lo..hi], pat)
  {
    if Includes(s[lo..hi], pat) {
      OccursInSlice(s, lo, hi, pat, IndexOf(s[lo..hi], pat));
      assert false;
    }
  }

  /** If `s` does not contain `pat`, no piece of `s.split(sep)` does. */
  lemma {:induction false} SplitExcludes(s: string, sep: string, pat: string)
    requires sep != ""
    requires !Includes(s, pat)
    ensures forall k :: 0 <= k < |Split(s, sep)| ==> !Includes(Split(s, sep)[k], pat)
    decreases |s|
  {
    var i := IndexOf(s, sep);
    if i >= 0 {
      var head, rest := s[..i], s[i + |sep|..];
      assert !Includes(head, pat) by {
        SliceExcludes(s, 0, i, pat);
        assert head == s[0..i];
      }
      assert !Includes(rest, pat) by {
        SliceExcludes(s, i + |sep|, |s|, pat);
        assert rest == s[i + |sep|..|s|];
      }
      SplitExcludes(rest, sep, pat);
      assert Split(s, sep) == [head] + Split(rest, sep);
    }
  }

  /** A first occurrence found in `x` stays the first one however `x` is extended. */
  lemma IndexOfExtend(x: string, y: string, pat: string)
    requires Includes(x, pat)
    ensures IndexOf(x + y, pat) == IndexOf(x, pat)
  {
    var i := IndexOf(x, pat);
    assert OccursAt(x + y, pat, i);
    forall j | 0 <= j < i
      ensures !OccursAt(x + y, pat, j)
    {
      assert OccursAt(x + y, pat, j) ==> OccursAt(x, pat, j);
    }
  }

  /**
   * When the first `sep` in `x + sep` is the one after `x`, the second piece of
   * `(x + sep + y).split(sep)` is the first piece of `y.split(sep)`.
   */
  lemma SplitSecondPiece(x: string, sep: string, y: string)
    requires sep != ""
    requires IndexOf(x + sep, sep) == |x|
    ensures |Split(x + sep + y, sep)| > 1
    ensures Split(x + sep + y, sep)[1] == Split(y, sep)[0]
  {
    var s := x + sep + y;
    assert s == (x + sep) + y;
    IndexOfExtend(x + sep, y, sep);
    assert s[|x| + |sep|..] == y;
  }

  /** Occurrences in `x + y` that start at or after `|x|` are exactly the occurrences in `y`. */
  lemma OccursAfter(x: string, y: string, pat: string, k: int)
    requires 0 <= k
    ensures OccursAt(x + y, pat, |x| + k) <==> OccursAt(y, pat, k)
  {
  }

  /** When no occurrence starts inside `x`, searching `x + y` is searching `y`, shifted by `|x|`. */
  lemma IndexOfSkip(x: string, y: string, pat: string)
    requires forall j :: 0 <= j < |x| ==> !OccursAt(x + y, pat, j)
    ensures IndexOf(x + y, pat) == if Includes(y, pat) then |x| + IndexOf(y, pat) else -1
  {
    var i := IndexOf(x + y, pat);
    var k := IndexOf(y, pat);
    if k >= 0 {
      OccursAfter(x, y, pat, k);
      if i < |x| + k {
        OccursAfter(x, y, pat, i - |x|);
        assert false;
      }
    } else if i >= 0 {
      OccursAfter(x, y, pat, i - |x|);
      assert false;
    }
  }

  /** No occurrence can start inside `x` when `x` lacks the first character of `pat`. */
  lemma NoEarlyOccurrence(x: string, y: string, pat: string)
    requires pat != "" && pat[0] !in x
    ensures forall j :: 0 <= j < |x| ==> !OccursAt(x + y, pat, j)
  {
    forall j | 0 <= j < |x|
      ensures !OccursAt(x + y, pat, j)
    {
      assert (x + y)[j + 0] == x[j];
    }
  }

  /** `s.includes(c)` for a one-character string is membership of `c`. */
  lemma IncludesChar(s: string, c: char)
    ensures Includes(s, [c]) <==> c in s
  {
    if c in s {
      var j :| 0 <= j < |s| && s[j] == c;
      assert OccursAt(s, [c], j);
    }
    if Includes(s, [c]) {
      var j := IndexOf(s, [c]);
      assert s[j + 0] == [c][0];
    }
  }

  /**
   * A separator whose last character does not appear earlier in it is first
   * found, in `a + pat`, at the copy appended after `a` when `a` lacks it.
   */
  lemma IndexOfAppended(a: string, pat: string)
    requires pat != "" && pat[|pat| - 1] !in pat[..|pat| - 1]
    requires !Includes(a, pat)
    ensures IndexOf(a + pat, pat) == |a|
  {
    var s := a + pat;
    assert OccursAt(s, pat, |a|);
    forall j | 0 <= j < |a|
      ensures !OccursAt(s, pat, j)
    {
      if OccursAt(s, pat, j) {
        if j + |pat| <= |a| {
          assert OccursAt(a, pat, j);
        }
        assert false;
      }
    }
  }

  /**
   * In `x + y`, no occurrence of `pat` starts inside `x` when `x` lacks `pat`
   * and `y` is empty or starts with a character that appears nowhere after
   * the first of `pat`.
   */
  lemma NoStartInside(x: string, y: string, pat: string)
    requires !Includes(x, pat)
    requires y == "" || y[0] !in pat[1..]
    ensures forall j :: 0 <= j < |x| ==> !OccursAt(x + y, pat, j)
  {
    var s := x + y;
    forall j | 0 <= j < |x|
      ensures !OccursAt(s, pat, j)
    {
      if j + |pat| <= |x| {
        assert OccursAt(s, pat, j) ==> OccursAt(x, pat, j);
      } else if y != "" {
        assert s[j + (|x| - j)] == y[0];
        assert pat[|x| - j] == pat[1..][|x| - j - 1];
      }
    }
  }

  /**
   * When no occurrence of `sep` starts inside `x`, the first piece of
   * `(x + y).split(sep)` is `x` followed by the first piece of `y.split(sep)`.
   */
  lemma SplitHeadShift(x: string, y: string, sep: string)
    requires sep != ""
    requires forall j :: 0 <= j < |x| ==> !OccursAt(x + y, sep, j)
    ensures Split(x + y, sep)[0] == x + Split(y, sep)[0]
  {
    IndexOfSkip(x, y, sep);
    SplitHead(x + y, sep);
    SplitHead(y, sep);
    if Includes(y, sep) {
      CutAfter(x, y, IndexOf(y, sep));
    }
  }

  /** Cutting `x + y` at `|x| + k` keeps `x` and the first `k` characters of `y`. */
  lemma CutAfter(x: string, y: string, k: int)
    requires 0 <= k <= |y|
    ensures (x + y)[..|x| + k] == x + y[..k]
  {
  }

  /** The first piece of `s.split(sep)` runs up to the first `sep`, or is all of `s`. */
  lemma SplitHead(s: string, sep: string)
    requires sep != ""
    ensures Split(s, sep)[0] == if Includes(s, sep) then s[..IndexOf(s, sep)] else s
  {
  }

  /**
   * When `x` lacks the second character of `pat`, and that character differs
   * from the first, the first `pat` in `x + pat` is the appended one.
   */
  lemma SecondCharAbsent(x: string, pat: string)
    requires |pat| >= 2 && pat[1] !in x && pat[1] != pat[0]
    ensures IndexOf(x + pat, pat) == |x|
  {
    var s := x + pat;
    assert OccursAt(s, pat, |x|);
    forall j | 0 <= j < |x|
      ensures !OccursAt(s, pat, j)
    {
      assert s[j + 1] != pat[1];
    }
  }

  /** A pattern with a character that `s` lacks does not occur in `s`. */
  lemma CharAbsent(s: string, pat: string, k: int)
    requires 0 <= k < |pat| && pat[k] !in s
    ensures !Includes(s, pat)
  {
    forall j | 0 <= j <= |s|
      ensures !OccursAt(s, pat, j)
    {
      if j + |pat| <= |s| {
        assert s[j + k] != pat[k];
      }
    }
  }

  /** A pattern whose first character is absent does not occur. */
  lemma FirstCharAbsent(s: string, pat: string)
    requires pat != "" && pat[0] !in s
    ensures !Includes(s, pat)
  {
  }

  /** The first piece of `(x + y).split(c)` is `x` when `x` lacks `c` and `y` is empty or starts with it. */
  lemma SplitHeadBeforeChar(x: string, y: string, c: char)
    requires c !in x
    requires y == "" || y[0] == c
    ensures Split(x + y, [c])[0] == x
  {
    if y == "" {
      assert x + y == x;
      IncludesChar(x, c);
    } else {
      assert OccursAt(y, [c], 0);
      NoEarlyOccurrence(x, y, [c]);
      IndexOfSkip(x, y, [c]);
      assert (x + y)[..|x|] == x;
    }
  }

  /** Concatenation regrouped so that the first part stands alone. */
  lemma Regroup(a: string, b: string, c: string, d: string)
    ensures a + b + c + d == a + (b + c + d)
  {
  }
}
