/**
 * Characters and strings as `sanitize_input` sees them: Python's notion of
 * whitespace (shared by `str.strip()` and the regular-expression class `\s`),
 * `str.strip()` itself, and the case folding of `re.IGNORECASE`, restricted
 * to ASCII letters.
 */
module Text {

  /**
   * `c.isspace()` in Python: the characters `str.strip()` removes and the
   * regular-expression class `\s` matches.
   */
  predicate IsSpace(c: char) {
    || '\t' <= c <= '\r'
    || '\U{1C}' <= c <= ' '
    || c == '\U{85}'
    || c == '\U{A0}'
    || c == '\U{1680}'
    || '\U{2000}' <= c <= '\U{200A}'
    || c == '\U{2028}'
    || c == '\U{2029}'
    || c == '\U{202F}'
    || c == '\U{205F}'
    || c == '\U{3000}'
  }

  predicate AllSpace(s: string) {
    forall i :: 0 <= i < |s| ==> IsSpace(s[i])
  }

  /** Neither starts nor ends with whitespace: what `str.strip()` leaves. */
  predicate Unpadded(s: string) {
    s == [] || (!IsSpace(s[0]) && !IsSpace(s[|s| - 1]))
  }

  /** `str.lstrip()`: the suffix left after the leading whitespace. */
  function TrimStart(s: string): (r: string)
    ensures |r| <= |s| && r == s[|s| - |r|..]
    ensures AllSpace(s[..|s| - |r|])
    ensures r == [] || !IsSpace(r[0])
  {
    if s != [] && IsSpace(s[0]) then
      var r := TrimStart(s[1..]);
      assert s[..|s| - |r|] == [s[0]] + s[1..][..|s| - 1 - |r|];
      r
    else
      s
  }

  /** `str.rstrip()`: the prefix left before the trailing whitespace. */
  function TrimEnd(s: string): (r: string)
    ensures |r| <= |s| && r == s[..|r|]
    ensures AllSpace(s[|r|..])
    ensures r == [] || !IsSpace(r[|r| - 1])
  {
    if s != [] && IsSpace(s[|s| - 1]) then
      var r := TrimEnd(s[..|s| - 1]);
      assert s[|r|..] == s[..|s| - 1][|r|..] + [s[|s| - 1]];
      r
    else
      s
  }

  /** How many whitespace characters `str.strip()` removes from the front of `s`. */
  function Leading(s: string): nat
  {
    |s| - |TrimStart(s)|
  }

  /** `str.strip()`: neither end of the result is whitespace. */
  function Strip(s: string): (r: string)
    ensures Unpadded(r)
  {
    var t := TrimStart(s);
    var r := TrimEnd(t);
    assert r != [] ==> r[0] == t[0];
    r
  }

  /** What `Strip` returns is the part of `s` that follows the leading whitespace. */
  lemma {:induction false} StripIsSlice(s: string)
    ensures Leading(s) + |Strip(s)| <= |s|
    ensures Strip(s) == s[Leading(s)..Leading(s) + |Strip(s)|]
  {
    var t := TrimStart(s);
    assert t == s[Leading(s)..];
  }

  /** Everything `Strip` cuts off, on either side, is whitespace. */
  lemma {:induction false} StripCutsOnlySpace(s: string)
    ensures Leading(s) + |Strip(s)| <= |s|
    ensures AllSpace(s[..Leading(s)]) && AllSpace(s[Leading(s) + |Strip(s)|..])
  {
    var t := TrimStart(s);
    assert s[Leading(s) + |Strip(s)|..] == t[|Strip(s)|..];
  }

  /** Removing whitespace from the front of `a + m` removes exactly `a` when `m` starts with a non-space. */
  lemma {:induction false} TrimStartPadded(a: string, m: string)
    requires AllSpace(a)
    requires m == [] || !IsSpace(m[0])
    ensures TrimStart(a + m) == m
  {
    if a != [] {
      assert (a + m)[1..] == a[1..] + m;
      TrimStartPadded(a[1..], m);
    }
  }

  /** Removing whitespace from the back of `m + b` removes exactly `b` when `m` ends with a non-space. */
  lemma {:induction false} TrimEndPadded(m: string, b: string)
    requires AllSpace(b)
    requires m == [] || !IsSpace(m[|m| - 1])
    ensures TrimEnd(m + b) == m
  {
    if b != [] {
      assert (m + b)[..|m + b| - 1] == m + b[..|b| - 1];
      TrimEndPadded(m, b[..|b| - 1]);
    }
  }

  /**
   * `Strip` is characterised by its contract: whenever `s` is an unpadded
   * string surrounded by whitespace, `Strip` returns exactly that string.
   */
  lemma {:induction false} StripPadded(a: string, m: string, b: string)
    requires AllSpace(a) && AllSpace(b) && Unpadded(m)
    ensures Strip(a + m + b) == m
  {
    if m == [] {
      assert a + m + b == a + b;
      TrimStartPadded(a + b, []);
      assert a + b + [] == a + b;
      assert TrimStart(a + b) == [];
    } else {
      assert a + m + b == a + (m + b);
      TrimStartPadded(a, m + b);
      TrimEndPadded(m, b);
    }
  }

  /** A string with no whitespace at either end is its own stripped form. */
  lemma {:induction false} StripUnpadded(s: string)
    requires Unpadded(s)
    ensures Strip(s) == s
  {
    assert [] + s + [] == s;
    StripPadded([], s, []);
  }

  /** Stripping twice is stripping once. */
  lemma {:induction false} StripIdempotent(s: string)
    ensures Strip(Strip(s)) == Strip(s)
  {
    StripUnpadded(Strip(s));
  }

  /** Left-stripping a concatenation: the second part only matters once the first is all whitespace. */
  lemma {:induction false} TrimStartAppend(x: string, b: string)
    ensures TrimStart(x + b) == if TrimStart(x) == [] then TrimStart(b) else TrimStart(x) + b
  {
    if x == [] {
      assert x + b == b;
    } else if IsSpace(x[0]) {
      assert (x + b)[1..] == x[1..] + b;
      TrimStartAppend(x[1..], b);
    }
  }

  /** Right-stripping a concatenation: the first part only matters once the second is all whitespace. */
  lemma {:induction false} TrimEndAppend(a: string, y: string)
    ensures TrimEnd(a + y) == if TrimEnd(y) == [] then TrimEnd(a) else a + TrimEnd(y)
  {
    if y == [] {
      assert a + y == a;
    } else if IsSpace(y[|y| - 1]) {
      assert (a + y)[..|a + y| - 1] == a + y[..|y| - 1];
      TrimEndAppend(a, y[..|y| - 1]);
    }
  }

  /** Whitespace around a string does not change what `Strip` returns. */
  lemma {:induction false} StripIgnoresPadding(a: string, x: string, b: string)
    requires AllSpace(a) && AllSpace(b)
    ensures Strip(a + x + b) == Strip(x)
  {
    assert TrimStart(a) == [] by {
      assert a + [] == a;
      TrimStartPadded(a, []);
    }
    assert TrimEnd(b) == [] by {
      assert [] + b == b;
      TrimEndPadded([], b);
    }
    assert TrimStart(b) == [] by {
      assert b + [] == b;
      TrimStartPadded(b, []);
    }
    var t := TrimStart(x);
    assert TrimStart(a + x + b) == TrimStart(x + b) by {
      assert a + x + b == a + (x + b);
      TrimStartAppend(a, x + b);
    }
    assert TrimStart(x + b) == if t == [] then [] else t + b by {
      TrimStartAppend(x, b);
    }
    if t != [] {
      assert TrimEnd(t + b) == TrimEnd(t) by {
        TrimEndAppend(t, b);
      }
    }
  }

  /** The case folding of `re.IGNORECASE`, on ASCII letters. */
  function Lower(c: char): (d: char)
    ensures !('A' <= d <= 'Z')
    ensures 'a' <= d <= 'z' <==> 'a' <= c <= 'z' || 'A' <= c <= 'Z'
    ensures d != c ==> 'A' <= c <= 'Z'
  {
    if 'A' <= c <= 'Z' then (c as int + 32) as char else c
  }

  /**
   * Two characters are equal under the fold exactly when they are the same
   * character, or one is a capital letter and the other its own small letter.
   */
  lemma {:induction false} LowerMatches(c: char, d: char)
    ensures Lower(c) == Lower(d) <==>
      c == d || ('A' <= c <= 'Z' && d as int == c as int + 32) || ('A' <= d <= 'Z' && c as int == d as int + 32)
  {
  }

  /** Folding an already folded character changes nothing. */
  lemma {:induction false} LowerIdempotent(c: char)
    ensures Lower(Lower(c)) == Lower(c)
  {
  }

  /** `a` and `b` are the same text up to letter case. */
  predicate SameIgnoringCase(a: string, b: string) {
    |a| == |b| && forall i :: 0 <= i < |a| ==> Lower(a[i]) == Lower(b[i])
  }

  /** Case folding never changes whether a character is whitespace. */
  lemma {:induction false} SpaceIgnoresCase(c: char, d: char)
    requires Lower(c) == Lower(d)
    ensures IsSpace(c) <==> IsSpace(d)
  {
  }

  /** Strings equal up to case lose the same leading whitespace. */
  lemma {:induction false} TrimStartIgnoresCase(x: string, y: string)
    requires SameIgnoringCase(x, y)
    ensures SameIgnoringCase(TrimStart(x), TrimStart(y))
  {
    if x != [] {
      SpaceIgnoresCase(x[0], y[0]);
      if IsSpace(x[0]) {
        TrimStartIgnoresCase(x[1..], y[1..]);
      }
    }
  }

  /** Strings equal up to case lose the same trailing whitespace. */
  lemma {:induction false} TrimEndIgnoresCase(x: string, y: string)
    requires SameIgnoringCase(x, y)
    ensures SameIgnoringCase(TrimEnd(x), TrimEnd(y))
  {
    if x != [] {
      SpaceIgnoresCase(x[|x| - 1], y[|y| - 1]);
      if IsSpace(x[|x| - 1]) {
        TrimEndIgnoresCase(x[..|x| - 1], y[..|y| - 1]);
      }
    }
  }

  /** Strings equal up to case are stripped at the same places. */
  lemma {:induction false} StripIgnoresCase(x: string, y: string)
    requires SameIgnoringCase(x, y)
    ensures SameIgnoringCase(Strip(x), Strip(y))
  {
    TrimStartIgnoresCase(x, y);
    TrimEndIgnoresCase(TrimStart(x), TrimStart(y));
  }
}
