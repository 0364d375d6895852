/** Python 2's argument-less `str.strip()` on a byte string, applied to the
    pid file's contents before they become the argument of `kill`. */
module Whitespace {

  /** The bytes a Python 2 byte-string strip removes: space, tab, line
      feed, vertical tab, form feed and carriage return. */
  predicate IsSpace(c: char) {
    c == ' ' || ('\t' <= c <= '\r')
  }

  /** Every character of `s[lo..hi]` is whitespace. */
  predicate SpaceBetween(s: string, lo: int, hi: int)
    requires 0 <= lo <= hi <= |s|
  {
    forall i :: lo <= i < hi ==> IsSpace(s[i])
  }

  /** Neither end of `s` is whitespace (true of the empty string). */
  predicate Trimmed(s: string) {
    |s| == 0 || (!IsSpace(s[0]) && !IsSpace(s[|s| - 1]))
  }

  /** The first index at or after `k` that does not hold whitespace, or
      `|s|` when there is none. */
  function SkipSpaces(s: string, k: nat): (j: nat)
    requires k <= |s|
    ensures k <= j <= |s| && SpaceBetween(s, k, j)
    ensures j < |s| ==> !IsSpace(s[j])
    decreases |s| - k
  {
    if k < |s| && IsSpace(s[k]) then SkipSpaces(s, k + 1) else k
  }

  /** The end of `s[lo..hi]` once its trailing whitespace is dropped. */
  function TrimEnd(s: string, lo: nat, hi: nat): (e: nat)
    requires lo <= hi <= |s|
    ensures lo <= e <= hi && SpaceBetween(s, e, hi)
    ensures e > lo ==> !IsSpace(s[e - 1])
    decreases hi - lo
  {
    if hi > lo && IsSpace(s[hi - 1]) then TrimEnd(s, lo, hi - 1) else hi
  }

  /** `s` is whitespace, then `r`, then whitespace, and `r` neither starts
      nor ends with whitespace. */
  predicate IsStripOf(s: string, r: string) {
    && Trimmed(r)
    && exists i :: 0 <= i <= |s| - |r| && r == s[i..i + |r|]
                   && SpaceBetween(s, 0, i) && SpaceBetween(s, i + |r|, |s|)
  }

  /** `s.strip()`. */
  function Strip(s: string): (r: string)
    ensures IsStripOf(s, r)
  {
    var i := SkipSpaces(s, 0);
    var e := TrimEnd(s, i, |s|);
    assert SpaceBetween(s, 0, i) && SpaceBetween(s, e, |s|);
    s[i..e]
  }

  /** The decomposition `IsStripOf` describes is unique, so it determines
      `Strip`: any whitespace / trimmed middle / whitespace split of `s`
      yields `Strip(s)`. */
  lemma StripUnique(s: string, m: string)
    requires IsStripOf(s, m)
    ensures Strip(s) == m
  {
    var i :| 0 <= i <= |s| - |m| && m == s[i..i + |m|]
             && SpaceBetween(s, 0, i) && SpaceBetween(s, i + |m|, |s|);
    var n := SkipSpaces(s, 0);
    if |m| == 0 {
      assert SpaceBetween(s, 0, |s|) by {
        forall k | 0 <= k < |s| ensures IsSpace(s[k]) {
          if k >= i {
            assert SpaceBetween(s, i + |m|, |s|);
          }
        }
      }
      assert n == |s|;
    } else {
      assert s[i] == m[0] && s[i + |m| - 1] == m[|m| - 1];
      assert n == i;
      var e := TrimEnd(s, n, |s|);
      assert e == i + |m|;
    }
  }

  /** Stripping twice is stripping once. */
  lemma StripIdempotent(s: string)
    ensures Strip(Strip(s)) == Strip(s)
  {
    var m := Strip(s);
    assert m == m[0..0 + |m|] && SpaceBetween(m, 0, 0) && SpaceBetween(m, |m|, |m|);
    assert IsStripOf(m, m);
    StripUnique(m, m);
  }
}
