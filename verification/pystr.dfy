/**
 * The two Python string operations the model-selection code relies on:
 * `str.startswith` with a literal prefix and `str.strip()` with no argument.
 */
module PyStr {

  /** The characters for which Python 3's `str.isspace()` is true; `str.strip()` removes exactly these. */
  predicate IsSpace(c: char) {
    || c == ' '
    || ('\t' <= c <= '\r')                // \t \n \v \f \r
    || ('\U{1C}' <= c <= '\U{1F}')        // file, group, record and unit separators
    || c == '\U{85}' || c == '\U{A0}' || c == '\U{1680}'
    || ('\U{2000}' <= c <= '\U{200A}')
    || c == '\U{2028}' || c == '\U{2029}' || c == '\U{202F}' || c == '\U{205F}' || c == '\U{3000}'
  }

  /** No whitespace at either end: what `strip()` leaves behind. */
  predicate Trimmed(s: string) {
    s == [] || (!IsSpace(s[0]) && !IsSpace(s[|s| - 1]))
  }

  /** `s` is `r` at offset `a` with only whitespace before and after it. */
  predicate SpaceAround(s: string, a: int, r: string) {
    && 0 <= a <= |s| - |r|
    && r == s[a..a + |r|]
    && (forall k :: 0 <= k < a ==> IsSpace(s[k]))
    && (forall k :: a + |r| <= k < |s| ==> IsSpace(s[k]))
  }

  predicate StartsWith(s: string, prefix: string) {
    |prefix| <= |s| && s[..|prefix|] == prefix
  }

  /** `s.lstrip()`: the longest suffix of `s` that does not start with whitespace. */
  function StripStart(s: string): (r: string)
    ensures |r| <= |s| && r == s[|s| - |r|..]
    ensures forall k :: 0 <= k < |s| - |r| ==> IsSpace(s[k])
    ensures r == [] || !IsSpace(r[0])
    decreases |s|
  {
    if |s| > 0 && IsSpace(s[0]) then StripStart(s[1..]) else s
  }

  /** `s.rstrip()`: the longest prefix of `s` that does not end with whitespace. */
  function StripEnd(s: string): (r: string)
    ensures |r| <= |s| && r == s[..|r|]
    ensures forall k :: |r| <= k < |s| ==> IsSpace(s[k])
    ensures r == [] || !IsSpace(r[|r| - 1])
    decreases |s|
  {
    if |s| > 0 && IsSpace(s[|s| - 1]) then StripEnd(s[..|s| - 1]) else s
  }

  /**
   * `s.strip()`: the slice of `s` left once its leading and trailing
   * whitespace is removed; a string that is already trimmed is returned as
   * it is.
   */
  function Strip(s: string): (r: string)
    ensures Trimmed(r)
    ensures |r| <= |s|
    ensures exists a :: SpaceAround(s, a, r)
    ensures Trimmed(s) ==> r == s
  {
    StripShape(s);
    StripEnd(StripStart(s))
  }

  lemma StripShape(s: string)
    ensures SpaceAround(s, |s| - |StripStart(s)|, StripEnd(StripStart(s)))
  {
    var t := StripStart(s);
    SpaceAroundSlice(s, |s| - |t|, t, StripEnd(t));
  }

  /** Whitespace before a suffix `t` of `s` and after a prefix `r` of `t` surrounds `r` in `s`. */
  lemma SpaceAroundSlice(s: string, a: nat, t: string, r: string)
    requires a <= |s| && t == s[a..] && |r| <= |t| && r == t[..|r|]
    requires forall k :: 0 <= k < a ==> IsSpace(s[k])
    requires forall k :: |r| <= k < |t| ==> IsSpace(t[k])
    ensures SpaceAround(s, a, r)
  {
    forall k | a + |r| <= k < |s|
      ensures IsSpace(s[k])
    {
      assert s[k] == t[k - a];
    }
  }

  /** Stripping looks through leading whitespace: `(w + s).lstrip() == s.lstrip()` when `w` is all whitespace. */
  lemma {:induction false} StripStartSkipsSpace(w: string, s: string)
    requires forall k :: 0 <= k < |w| ==> IsSpace(w[k])
    ensures StripStart(w + s) == StripStart(s)
  {
    if w != [] {
      var ws := w + s;
      assert ws[0] == w[0];
      assert ws[1..] == w[1..] + s;
      assert StripStart(ws) == StripStart(ws[1..]);
      StripStartSkipsSpace(w[1..], s);
    } else {
      assert w + s == s;
    }
  }
}
