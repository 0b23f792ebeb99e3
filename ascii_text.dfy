/** The string operations the source applies to text it reads from the
    environment and from settings: `strip`, `lower`, `startswith`, `endswith`. */
module AsciiText {

  /** Characters `str.strip()` removes: the ASCII whitespace and separator
      controls that Python's `str.isspace` accepts. */
  predicate IsSpace(c: char) {
    c == ' ' || 9 <= c as int <= 13 || 28 <= c as int <= 31
  }

  predicate AllSpace(s: string) {
    forall i :: 0 <= i < |s| ==> IsSpace(s[i])
  }

  /** `s.lstrip()`: the suffix of `s` left after its leading whitespace. */
  function TrimStart(s: string): (r: string)
    ensures |r| <= |s| && r == s[|s| - |r|..]
    ensures AllSpace(s[..|s| - |r|])
    ensures r != [] ==> !IsSpace(r[0])
  {
    if s != [] && IsSpace(s[0]) then
      var r := TrimStart(s[1..]);
      assert s[..|s| - |r|] == [s[0]] + s[1..][..|s[1..]| - |r|];
      r
    else
      s
  }

  /** `s.rstrip()`: the prefix of `s` left after its trailing whitespace. */
  function TrimEnd(s: string): (r: string)
    ensures |r| <= |s| && r == s[..|r|]
    ensures AllSpace(s[|r|..])
    ensures r != [] ==> !IsSpace(r[|r| - 1])
  {
    if s != [] && IsSpace(s[|s| - 1]) then
      var r := TrimEnd(s[..|s| - 1]);
      assert s[|r|..] == s[..|s| - 1][|r|..] + [s[|s| - 1]];
      r
    else
      s
  }

  /** `s.strip()`: neither starts nor ends with whitespace, and is empty
      exactly when `s` is all whitespace. */
  function Strip(s: string): (r: string)
    ensures |r| <= |s|
    ensures r != [] ==> !IsSpace(r[0]) && !IsSpace(r[|r| - 1])
    ensures r == [] <==> AllSpace(s)
  {
    var a := TrimStart(s);
    var r := TrimEnd(a);
    var k := |s| - |a|;
    assert r == [] ==> a == [] && s[..k] == s;
    r
  }

  /** `r` is the part of `s` from position `k`, with only whitespace before
      and after it. */
  ghost predicate InnerSliceAt(s: string, r: string, k: int) {
    0 <= k <= |s| - |r| && r == s[k..k + |r|] && AllSpace(s[..k]) && AllSpace(s[k + |r|..])
  }

  /** What `strip` keeps is the part of `s` between a whitespace prefix and a
      whitespace suffix. */
  lemma StripIsInnerSlice(s: string)
    ensures exists k :: InnerSliceAt(s, Strip(s), k)
  {
    var a := TrimStart(s);
    var k := |s| - |a|;
    assert a == s[k..];
    var r := TrimEnd(a);
    assert r == Strip(s);
    assert s[k..k + |r|] == a[..|r|];
    assert s[k + |r|..] == a[|r|..];
    assert InnerSliceAt(s, r, k);
  }

  function LowerChar(c: char): (d: char)
    ensures IsSpace(d) <==> IsSpace(c)
  {
    if 'A' <= c <= 'Z' then (c as int - 'A' as int + 'a' as int) as char else c
  }

  /** `s.lower()` on ASCII letters. */
  function Lower(s: string): (r: string)
    ensures |r| == |s|
    ensures forall i :: 0 <= i < |s| ==> r[i] == LowerChar(s[i])
  {
    seq(|s|, i requires 0 <= i < |s| => LowerChar(s[i]))
  }

  predicate StartsWith(s: string, prefix: string) {
    |prefix| <= |s| && s[..|prefix|] == prefix
  }

  predicate EndsWith(s: string, suffix: string) {
    |suffix| <= |s| && s[|s| - |suffix|..] == suffix
  }

  lemma {:induction false} TrimStartSkipsSpace(p: string, t: string)
    requires AllSpace(p)
    ensures TrimStart(p + t) == TrimStart(t)
    decreases |p|
  {
    if p != [] {
      assert (p + t)[1..] == p[1..] + t;
      TrimStartSkipsSpace(p[1..], t);
    } else {
      assert p + t == t;
    }
  }

  lemma {:induction false} TrimEndSkipsSpace(t: string, q: string)
    requires AllSpace(q)
    ensures TrimEnd(t + q) == TrimEnd(t)
    decreases |q|
  {
    if q != [] {
      assert (t + q)[..|t + q| - 1] == t + q[..|q| - 1];
      TrimEndSkipsSpace(t, q[..|q| - 1]);
    } else {
      assert t + q == t;
    }
  }

  lemma {:induction false} TrimStartKeepsTail(s: string, q: string)
    requires TrimStart(s) != []
    ensures TrimStart(s + q) == TrimStart(s) + q
    decreases |s|
  {
    assert (s + q)[0] == s[0];
    if IsSpace(s[0]) {
      assert (s + q)[1..] == s[1..] + q;
      assert TrimStart(s + q) == TrimStart(s[1..] + q);
      assert TrimStart(s) == TrimStart(s[1..]);
      TrimStartKeepsTail(s[1..], q);
    } else {
      assert TrimStart(s) == s;
      assert TrimStart(s + q) == s + q;
    }
  }

  /** Whitespace around a value does not change what `strip` gives. */
  lemma StripIgnoresPadding(p: string, s: string, q: string)
    requires AllSpace(p) && AllSpace(q)
    ensures Strip(p + s + q) == Strip(s)
  {
    assert p + s + q == p + (s + q);
    TrimStartSkipsSpace(p, s + q);
    if TrimStart(s) != [] {
      TrimStartKeepsTail(s, q);
      TrimEndSkipsSpace(TrimStart(s), q);
    } else {
      var k := |s| - |TrimStart(s)|;
      assert s[..k] == s;
      assert AllSpace(s + q);
      TrimStartSkipsSpace(s + q, []);
      assert s + q + [] == s + q;
    }
  }

  /** Text without whitespace at either end is its own `strip`. */
  lemma StripUnpadded(s: string)
    requires s != [] && !IsSpace(s[0]) && !IsSpace(s[|s| - 1])
    ensures Strip(s) == s
  {
  }

  lemma LowerIdempotent(s: string)
    ensures Lower(Lower(s)) == Lower(s)
  {
  }

  lemma {:induction false} TrimStartLower(s: string)
    ensures TrimStart(Lower(s)) == Lower(TrimStart(s))
    decreases |s|
  {
    if s != [] && IsSpace(s[0]) {
      assert Lower(s)[1..] == Lower(s[1..]);
      TrimStartLower(s[1..]);
    }
  }

  lemma TrimEndLower(s: string)
    ensures TrimEnd(Lower(s)) == Lower(TrimEnd(s))
  {
  }

  /** Lower-casing before or after stripping gives the same text. */
  lemma StripLowerCommute(s: string)
    ensures Strip(Lower(s)) == Lower(Strip(s))
  {
    TrimStartLower(s);
    TrimEndLower(TrimStart(s));
  }
}
