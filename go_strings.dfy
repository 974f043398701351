/** Go's strings.Replace(s, old, new, -1), on strings of characters. */
module GoStrings {

  /** `s` begins with `p`. */
  predicate StartsWith(s: string, p: string) {
    |p| <= |s| && s[..|p|] == p
  }

  /** What strings.Replace does with an empty `old`: `rep` is inserted before
      every character of `s` and once more at the end. */
  function Interleave(s: string, rep: string): (r: string)
    ensures rep == [] ==> r == s
  {
    if s == [] then rep else rep + [s[0]] + Interleave(s[1..], rep)
  }

  /** Every non-overlapping occurrence of `pat`, found left to right, is
      replaced by `rep`; the scan resumes after the replaced occurrence. */
  function ReplaceAll(s: string, pat: string, rep: string): (r: string)
    ensures |rep| <= |pat| ==> |r| <= |s|
    decreases |s|
  {
    if pat == [] then Interleave(s, rep)
    else if |s| < |pat| then s
    else if StartsWith(s, pat) then rep + ReplaceAll(s[|pat|..], pat, rep)
    else [s[0]] + ReplaceAll(s[1..], pat, rep)
  }

  /** An occurrence of `pat` at the head is replaced and the scan goes on after it. */
  lemma ReplaceAllMatch(s: string, pat: string, rep: string, t: string)
    requires pat != [] && s == pat + t
    ensures ReplaceAll(s, pat, rep) == rep + ReplaceAll(t, pat, rep)
  {
    assert s[..|pat|] == pat;
    assert s[|pat|..] == t;
  }

  /** A head character that does not start an occurrence of `pat` is copied. */
  lemma ReplaceAllCopy(c: char, t: string, pat: string, rep: string)
    requires pat != [] && !StartsWith([c] + t, pat)
    ensures ReplaceAll([c] + t, pat, rep) == [c] + ReplaceAll(t, pat, rep)
  {
    var s := [c] + t;
    assert s[1..] == t;
    if |s| < |pat| {
      assert ReplaceAll(t, pat, rep) == t;
    }
  }

  /** A head character that differs from the first character of `pat` is copied. */
  lemma ReplaceAllCopyChar(c: char, t: string, pat: string, rep: string)
    requires pat != [] && c != pat[0]
    ensures ReplaceAll([c] + t, pat, rep) == [c] + ReplaceAll(t, pat, rep)
  {
    ReplaceAllCopy(c, t, pat, rep);
  }

  lemma ConsSplit(a: string, t: string, x: string)
    requires a != []
    ensures a + t == [a[0]] + (a[1..] + t)
    ensures a + x == [a[0]] + (a[1..] + x)
  {
    assert a == [a[0]] + a[1..];
  }

  /** A prefix in which the first character of `pat` never occurs is copied
      and the scan goes on behind it. */
  lemma {:induction false} ReplaceAllCopyPrefix(a: string, t: string, pat: string, rep: string)
    requires pat != []
    requires forall i :: 0 <= i < |a| ==> a[i] != pat[0]
    ensures ReplaceAll(a + t, pat, rep) == a + ReplaceAll(t, pat, rep)
    decreases |a|
  {
    if a == [] {
      assert a + t == t;
    } else {
      ReplaceAllCopyPrefix(a[1..], t, pat, rep);
      ConsSplit(a, t, ReplaceAll(t, pat, rep));
      ReplaceAllCopyChar(a[0], a[1..] + t, pat, rep);
    }
  }

  /** A piece that starts like `pat` but differs from it at its second
      character, and holds the first character of `pat` nowhere else, is copied. */
  lemma ReplaceAllCopyMismatch(a: string, t: string, pat: string, rep: string)
    requires 2 <= |a| && 2 <= |pat| && a[0] == pat[0] && a[1] != pat[1]
    requires forall i :: 1 <= i < |a| ==> a[i] != pat[0]
    ensures ReplaceAll(a + t, pat, rep) == a + ReplaceAll(t, pat, rep)
  {
    var u := a[1..] + t;
    ConsSplit(a, t, ReplaceAll(t, pat, rep));
    assert u[0] == a[1];
    ReplaceAllCopy(a[0], u, pat, rep);
    ReplaceAllCopyPrefix(a[1..], t, pat, rep);
  }

  /** A string in which the first character of `pat` never occurs is left unchanged. */
  lemma {:induction false} ReplaceAllWithoutFirstChar(s: string, pat: string, rep: string)
    requires pat != []
    requires forall i :: 0 <= i < |s| ==> s[i] != pat[0]
    ensures ReplaceAll(s, pat, rep) == s
    decreases |s|
  {
    if s != [] {
      assert s == [s[0]] + s[1..];
      ReplaceAllCopy(s[0], s[1..], pat, rep);
      ReplaceAllWithoutFirstChar(s[1..], pat, rep);
    }
  }
}
