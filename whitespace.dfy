/**
 * Python's `str.strip()` with no argument: remove the leading and trailing
 * characters for which `str.isspace()` holds, keep everything in between.
 */
module Whitespace {

  /** The characters `str.isspace()` accepts (Unicode categories Zs and bidi classes WS, B, S). */
  predicate IsSpace(c: char) {
    var n := c as int;
    || 0x09 <= n <= 0x0D
    || 0x1C <= n <= 0x20
    || n == 0x85 || n == 0xA0 || n == 0x1680
    || 0x2000 <= n <= 0x200A
    || n == 0x2028 || n == 0x2029 || n == 0x202F || n == 0x205F || n == 0x3000
  }

  predicate AllSpace(s: string) {
    forall i :: 0 <= i < |s| ==> IsSpace(s[i])
  }

  /** Neither the first nor the last character is whitespace. */
  predicate Trimmed(s: string) {
    s == [] || (!IsSpace(s[0]) && !IsSpace(s[|s| - 1]))
  }

  /** `str.lstrip()`: drop the longest whitespace prefix. */
  function TrimStart(s: string): (r: string)
    ensures |r| <= |s|
    ensures r == [] || !IsSpace(r[0])
    decreases |s|
  {
    if |s| > 0 && IsSpace(s[0]) then TrimStart(s[1..]) else s
  }

  /** `str.rstrip()`: drop the longest whitespace suffix. */
  function TrimEnd(s: string): (r: string)
    ensures |r| <= |s|
    ensures r == [] || !IsSpace(r[|r| - 1])
    decreases |s|
  {
    if |s| > 0 && IsSpace(s[|s| - 1]) then TrimEnd(s[..|s| - 1]) else s
  }

  /** TrimStart removes a whitespace prefix and keeps the rest as it is. */
  lemma {:induction false} TrimStartFrames(s: string)
    ensures TrimStart(s) == s[|s| - |TrimStart(s)|..]
    ensures AllSpace(s[..|s| - |TrimStart(s)|])
    decreases |s|
  {
    if |s| > 0 && IsSpace(s[0]) {
      TrimStartFrames(s[1..]);
    }
  }

  /** TrimEnd removes a whitespace suffix and keeps the rest as it is. */
  lemma {:induction false} TrimEndFrames(s: string)
    ensures TrimEnd(s) == s[..|TrimEnd(s)|]
    ensures AllSpace(s[|TrimEnd(s)|..])
    decreases |s|
  {
    if |s| > 0 && IsSpace(s[|s| - 1]) {
      TrimEndFrames(s[..|s| - 1]);
    }
  }

  /** `str.strip()`: both ends trimmed. */
  function Strip(s: string): (r: string)
    ensures Trimmed(r)
  {
    var t := TrimStart(s);
    TrimEndFrames(t);
    TrimEnd(t)
  }

  /** What Strip removes is whitespace only: its result is an infix of `s` framed by whitespace. */
  lemma StripFrames(s: string)
    ensures exists i, j :: 0 <= i <= j <= |s| && Strip(s) == s[i..j] && AllSpace(s[..i]) && AllSpace(s[j..])
  {
    var t := TrimStart(s);
    var r := TrimEnd(t);
    TrimStartFrames(s);
    TrimEndFrames(t);
    var i := |s| - |t|;
    assert r == s[i..i + |r|];
    assert s[i + |r|..] == t[|r|..];
  }

  lemma {:induction false} TrimStartSkips(p: string, u: string)
    requires AllSpace(p)
    requires u == [] || !IsSpace(u[0])
    ensures TrimStart(p + u) == u
    decreases |p|
  {
    if p != [] {
      assert (p + u)[1..] == p[1..] + u;
      TrimStartSkips(p[1..], u);
    } else {
      assert p + u == u;
    }
  }

  lemma {:induction false} TrimEndSkips(u: string, q: string)
    requires AllSpace(q)
    requires u == [] || !IsSpace(u[|u| - 1])
    ensures TrimEnd(u + q) == u
    decreases |q|
  {
    if q != [] {
      assert (u + q)[..|u + q| - 1] == u + q[..|q| - 1];
      TrimEndSkips(u, q[..|q| - 1]);
    } else {
      assert u + q == u;
    }
  }

  /**
   * Strip is the unique way to split a string into whitespace, a trimmed
   * middle and whitespace: whatever that middle is, Strip returns it.
   */
  lemma StripUnique(p: string, t: string, q: string)
    requires AllSpace(p) && AllSpace(q) && Trimmed(t)
    ensures Strip(p + t + q) == t
  {
    if t == [] {
      assert p + t + q == (p + q) + [];
      TrimStartSkips(p + q, []);
      assert TrimEnd([]) == [];
    } else {
      assert p + t + q == p + (t + q);
      TrimStartSkips(p, t + q);
      TrimEndSkips(t, q);
    }
  }

  /** Stripping a stripped string changes nothing. */
  lemma StripIdempotent(s: string)
    ensures Strip(Strip(s)) == Strip(s)
  {
    var t := Strip(s);
    assert [] + t + [] == t;
    StripUnique([], t, []);
  }

  /** A string that begins or ends with whitespace is never the result of Strip. */
  lemma StripFixedPoints(s: string)
    ensures Strip(s) == s <==> Trimmed(s)
  {
    if Trimmed(s) {
      assert [] + s + [] == s;
      StripUnique([], s, []);
    }
  }
}
